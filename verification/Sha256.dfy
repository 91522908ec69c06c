/** The hash of a source file (`lockfile.rs`), computed in place, against the standard. */
module Sha256 {
  import opened Fips180

  newtype byte = x: int | 0 <= x < 256

  function ByteBits(b: byte): Bits { Binary(b as nat, 8) }

  /** A text of bytes as the bits that are hashed. */
  function ToBits(bytes: seq<byte>): (bits: Bits)
    ensures |bits| == 8 * |bytes|
  {
    if bytes == [] then [] else ToBits(bytes[..|bytes| - 1]) + ByteBits(bytes[|bytes| - 1])
  }

  lemma {:induction false} ToBitsJoins(a: seq<byte>, b: seq<byte>)
    ensures ToBits(a + b) == ToBits(a) + ToBits(b)
  {
    if b == [] {
      assert a + b == a;
    } else {
      var c := b[..|b| - 1];
      assert (a + b)[..|a + b| - 1] == a + c;
      ToBitsJoins(a, c);
      assert ToBits(a) + (ToBits(c) + ByteBits(b[|b| - 1])) == ToBits(a) + ToBits(c) + ByteBits(b[|b| - 1]);
    }
  }

  // ----- padding -----

  function ZeroBytes(n: nat): (r: seq<byte>)
    ensures |r| == n
  {
    if n == 0 then [] else ZeroBytes(n - 1) + [0]
  }

  lemma {:induction false} ZeroBytesAreZeros(n: nat)
    ensures ToBits(ZeroBytes(n)) == Zeros(8 * n)
  {
    if n > 0 {
      ZeroBytesAreZeros(n - 1);
      var bytes := ZeroBytes(n);
      assert bytes[..n - 1] == ZeroBytes(n - 1);
      ZeroByte();
      assert Zeros(8 * (n - 1)) + Zeros(8) == Zeros(8 * n);
    }
  }

  lemma {:induction false} ZeroBinary(size: nat)
    ensures Binary(0, size) == Zeros(size)
  {
    if size > 0 {
      ZeroBinary(size - 1);
      assert Zeros(size - 1) + [false] == Zeros(size);
    }
  }

  lemma ZeroByte()
    ensures ByteBits(0) == Zeros(8)
  {
    ZeroBinary(8);
  }

  /** `n.to_be_bytes()`, of `size` bytes. */
  function BigEndian(n: nat, size: nat): (r: seq<byte>)
    ensures |r| == size
  {
    if size == 0 then [] else BigEndian(n / 256, size - 1) + [(n % 256) as byte]
  }

  function LowBits(n: nat): Bits { [n / 8 % 2 == 1, n / 4 % 2 == 1, n / 2 % 2 == 1, n % 2 == 1] }

  lemma FourBits(n: nat, size: nat)
    ensures Binary(n, size + 4) == Binary(n / 16, size) + LowBits(n)
  {
    assert n / 2 / 2 == n / 4 && n / 4 / 2 == n / 8 && n / 8 / 2 == n / 16;
    assert Binary(n, size + 4) == Binary(n / 2, size + 3) + [n % 2 == 1];
    assert Binary(n / 2, size + 3) == Binary(n / 4, size + 2) + [n / 2 % 2 == 1];
    assert Binary(n / 4, size + 2) == Binary(n / 8, size + 1) + [n / 4 % 2 == 1];
    assert Binary(n / 8, size + 1) == Binary(n / 16, size) + [n / 8 % 2 == 1];
  }

  lemma SameLowBits(n: nat, q: nat, r: nat)
    requires n == 256 * q + r
    ensures LowBits(n) == LowBits(r) && n / 16 == 16 * q + r / 16 && LowBits(n / 16) == LowBits(r / 16)
  {
    LowBitsOfSum(16 * q, r);
    LowBitsOfSum(q, r / 16);
  }

  lemma LowBitsOfSum(q: nat, r: nat)
    ensures LowBits(16 * q + r) == LowBits(r)
  {
    Eighth(q, r);
    Quarter(q, r);
    Half(q, r);
  }

  lemma Quotient(n: nat, m: nat, q: nat, r: nat)
    requires (m == 2 || m == 4 || m == 8) && n == m * q + r && r < m
    ensures n / m == q && n % m == r
  {}

  lemma EvenPlus(k: nat, n: nat)
    ensures (2 * k + n) % 2 == n % 2
  {
    Quotient(2 * k + n, 2, k + n / 2, n % 2);
  }

  lemma Eighth(q: nat, r: nat)
    ensures (16 * q + r) / 8 % 2 == r / 8 % 2
  {
    Quotient(16 * q + r, 8, 2 * q + r / 8, r % 8);
    EvenPlus(q, r / 8);
  }

  lemma Quarter(q: nat, r: nat)
    ensures (16 * q + r) / 4 % 2 == r / 4 % 2
  {
    Quotient(16 * q + r, 4, 4 * q + r / 4, r % 4);
    EvenPlus(2 * q, r / 4);
  }

  lemma Half(q: nat, r: nat)
    ensures (16 * q + r) / 2 % 2 == r / 2 % 2 && (16 * q + r) % 2 == r % 2
  {
    Quotient(16 * q + r, 2, 8 * q + r / 2, r % 2);
    EvenPlus(4 * q, r / 2);
  }

  /** The lowest byte of a number is its last eight bits. */
  lemma LastByte(n: nat, size: nat)
    ensures Binary(n, size + 8) == Binary(n / 256, size) + Binary(n % 256, 8)
  {
    var r := n % 256;
    hide Binary, LowBits;
    SameLowBits(n, n / 256, r);
    FourBits(n, size + 4);
    FourBits(n / 16, size);
    FourBits(r, 4);
    FourBits(r / 16, 0);
    assert n / 16 / 16 == n / 256;
    assert Binary(n / 256, size) + LowBits(n / 16) + LowBits(n) == Binary(n / 256, size) + (LowBits(n / 16) + LowBits(n));
    assert Binary(r / 16 / 16, 0) + LowBits(r / 16) == LowBits(r / 16);
  }

  lemma FirstByte()
    ensures ByteBits(0x80) == [true] + Zeros(7)
  {
    hide Binary;
    FourBits(0x80, 4);
    FourBits(8, 0);
    assert LowBits(0x80) == [false, false, false, false] && LowBits(8) == [true, false, false, false];
    assert Binary(0, 0) + LowBits(8) + LowBits(0x80) == [true] + Zeros(7);
  }

  lemma {:induction false} BigEndianIsBinary(n: nat, size: nat)
    ensures ToBits(BigEndian(n, size)) == Binary(n, 8 * size)
  {
    if size > 0 {
      var bytes := BigEndian(n, size);
      assert bytes[..size - 1] == BigEndian(n / 256, size - 1);
      BigEndianIsBinary(n / 256, size - 1);
      LastByte(n, 8 * (size - 1));
    }
  }

  method Pad(bytes: seq<byte>) returns (padded: seq<byte>)
    requires |bytes| < 0x2000_0000_0000_0000
    ensures |padded| % 64 == 0 && ToBits(padded) == Padded(ToBits(bytes))
  {
    hide ToBits, BigEndian, Padded;
    var bitLen := |bytes| * 8;
    padded := bytes;
    padded := padded + [0x80];
    ghost var zeros, need := 0, (55 - |bytes|) % 64;
    while |padded| % 64 != 56
      invariant zeros <= need && padded == bytes + [0x80] + ZeroBytes(zeros)
      decreases need - zeros
    {
      StillNeeded(|bytes|, zeros);
      padded := padded + [0x00];
      zeros := zeros + 1;
      assert ZeroBytes(zeros) == ZeroBytes(zeros - 1) + [0];
    }
    PaddedInBits(bytes, zeros);
    padded := padded + BigEndian(bitLen, 8);
  }

  lemma StillNeeded(length: nat, zeros: nat)
    requires zeros <= (55 - length) % 64
    ensures (length + 1 + zeros) % 64 == 56 <==> zeros == (55 - length) % 64
  {}

  lemma PaddedInBits(bytes: seq<byte>, zeros: nat)
    requires zeros < 64 && (|bytes| + 1 + zeros) % 64 == 56
    ensures ToBits(bytes + [0x80] + ZeroBytes(zeros) + BigEndian(|bytes| * 8, 8)) == Padded(ToBits(bytes))
  {
    hide ToBits, Binary, BigEndian, ZeroBytes, Zeros;
    var length := BigEndian(|bytes| * 8, 8);
    ToBitsJoins(bytes + [0x80] + ZeroBytes(zeros), length);
    ToBitsJoins(bytes + [0x80], ZeroBytes(zeros));
    ToBitsJoins(bytes, [0x80]);
    OneByte(0x80);
    FirstByte();
    ZeroBytesAreZeros(zeros);
    BigEndianIsBinary(|bytes| * 8, 8);
    var k := ZeroCount(8 * |bytes|);
    FilledBy(|bytes|, zeros, k);
    ZerosJoin(7, 8 * zeros);
    var b := ToBits(bytes);
    Regroup(b, [true], Zeros(7), Zeros(8 * zeros), Binary(|b|, 64));
  }

  lemma Regroup(a: Bits, b: Bits, c: Bits, d: Bits, e: Bits)
    ensures a + (b + c) + d + e == a + b + (c + d) + e
  {}

  lemma ZerosJoin(m: nat, n: nat)
    ensures Zeros(m) + Zeros(n) == Zeros(m + n)
  {}

  lemma FilledBy(length: nat, zeros: nat, k: nat)
    requires zeros < 64 && (length + 1 + zeros) % 64 == 56 && k == ZeroCount(8 * length)
    ensures k == 8 * zeros + 7
  {
    var q := (length + 1 + zeros) / 64;
    FullBlocks(8 * length + 8 * zeros + 8, q);
    SameResidue(8 * length + 1, k, 8 * zeros + 7);
  }

  lemma FullBlocks(n: nat, q: nat)
    requires n == 512 * q + 448
    ensures n % 512 == 448
  {}

  lemma SameResidue(n: nat, j: nat, k: nat)
    requires j <= k < 512 && (n + j) % 512 == 448 && (n + k) % 512 == 448
    ensures j == k
  {}

  lemma OneByte(b: byte)
    ensures ToBits([b]) == ByteBits(b)
  {
    assert [b][..0] == [];
    assert [] + ByteBits(b) == ByteBits(b);
  }

  // ----- words -----

  /** `u32::from_be_bytes`, for any number of bytes. */
  function FromBigEndian(bytes: seq<byte>): nat {
    if bytes == [] then 0 else 256 * FromBigEndian(bytes[..|bytes| - 1]) + bytes[|bytes| - 1] as nat
  }

  lemma {:induction false} ValueJoins(a: Bits, b: Bits)
    ensures Value(a + b) == Value(a) * Power(|b|) + Value(b)
  {
    if b == [] {
      assert a + b == a;
    } else {
      var c := b[..|b| - 1];
      assert (a + b)[..|a + b| - 1] == a + c;
      ValueJoins(a, c);
      var bit := BitValue(b[|b| - 1]);
      assert Power(|b|) == 2 * Power(|c|) && Value(a + b) == 2 * Value(a + c) + bit && Value(b) == 2 * Value(c) + bit;
      hide Value, Power, BitValue;
      Doubles(Value(a), Power(|c|), Value(c), bit);
    }
  }

  lemma Doubles(x: nat, p: nat, y: nat, bit: nat)
    ensures 2 * (x * p + y) + bit == x * (2 * p) + (2 * y + bit)
  {}

  lemma {:induction false} FromBigEndianIsValue(bytes: seq<byte>)
    ensures FromBigEndian(bytes) == Value(ToBits(bytes))
  {
    hide Binary, Value, Power;
    if bytes == [] {
      assert Value([]) == 0 by { NothingIsZero(); }
    } else {
      var front, last := bytes[..|bytes| - 1], bytes[|bytes| - 1];
      FromBigEndianIsValue(front);
      ValueJoins(ToBits(front), ByteBits(last));
      PowerOfEight();
      ValueOfBinary(last as nat, 8);
    }
  }

  lemma NothingIsZero()
    ensures Value([]) == 0
  {}

  lemma PowerOfEight()
    ensures Power(8) == 256
  {}

  lemma {:induction false} ToBitsSlices(bytes: seq<byte>, i: nat, j: nat)
    requires i <= j <= |bytes|
    ensures ToBits(bytes[i..j]) == ToBits(bytes)[8 * i..8 * j]
  {
    ToBitsJoins(bytes[..i], bytes[i..j]);
    ToBitsJoins(bytes[..j], bytes[j..]);
    assert bytes[..j] == bytes[..i] + bytes[i..j];
    assert bytes == bytes[..j] + bytes[j..];
  }

  lemma WordOfBytes(chunk: seq<byte>, t: nat)
    requires |chunk| == 64 && t < 16
    ensures FromBigEndian(chunk[4 * t..4 * t + 4]) < 0x1_0000_0000
    ensures Schedule(ToBits(chunk), t) == FromBigEndian(chunk[4 * t..4 * t + 4]) as bv32
  {
    ToBitsSlices(chunk, 4 * t, 4 * t + 4);
    FromBigEndianIsValue(chunk[4 * t..4 * t + 4]);
    ValueIsBelow(ToBits(chunk)[32 * t..32 * t + 32]);
    TwoToThe32();
  }

  lemma PlusReorders(a: bv32, b: bv32, c: bv32, d: bv32)
    ensures PlusFour(a, b, c, d) == PlusFour(d, c, b, a)
  {}

  lemma PlusCommutes(a: bv32, b: bv32)
    ensures Plus(a, b) == Plus(b, a)
  {}

  // `Plus` is `wrapping_add`, and `PlusFour` a chain of three of them.
  method FillSchedule(chunk: seq<byte>, w: array<bv32>)
    requires |chunk| == 64 && w.Length == 64
    modifies w
    ensures forall t | 0 <= t < 64 :: w[t] == Schedule(ToBits(chunk), t)
  {
    hide SmallSigma0, SmallSigma1, BigSigma0, BigSigma1, PlusFour, FromBigEndian, ToBits, Schedule;
    for i := 0 to 16
      invariant forall t | 0 <= t < i :: w[t] == Schedule(ToBits(chunk), t)
    {
      WordOfBytes(chunk, i);
      w[i] := FromBigEndian(chunk[i * 4..i * 4 + 4]) as bv32;
    }
    for i := 16 to 64
      invariant forall t | 0 <= t < i :: w[t] == Schedule(ToBits(chunk), t)
    {
      var w15, w2 := w[i - 15], w[i - 2];
      Sigmas(w15);
      Sigmas(w2);
      var s0 := w15.RotateRight(7) ^ w15.RotateRight(18) ^ (w15 >> 3);
      var s1 := w2.RotateRight(17) ^ w2.RotateRight(19) ^ (w2 >> 10);
      ScheduleUnfolds(ToBits(chunk), i);
      w[i] := PlusFour(w[i - 16], s0, w[i - 7], s1);
    }
  }

  lemma ScheduleUnfolds(block: Bits, t: nat)
    requires |block| == 512 && 16 <= t
    ensures Schedule(block, t)
      == PlusFour(Schedule(block, t - 16), SmallSigma0(Schedule(block, t - 15)), Schedule(block, t - 7), SmallSigma1(Schedule(block, t - 2)))
  {
    hide SmallSigma0, SmallSigma1, ToWord, PlusFour;
    PlusReorders(Schedule(block, t - 16), SmallSigma0(Schedule(block, t - 15)), Schedule(block, t - 7), SmallSigma1(Schedule(block, t - 2)));
  }

  lemma Sigmas(x: bv32)
    ensures SmallSigma0(x) == x.RotateRight(7) ^ x.RotateRight(18) ^ (x >> 3)
    ensures SmallSigma1(x) == x.RotateRight(17) ^ x.RotateRight(19) ^ (x >> 10)
    ensures BigSigma0(x) == x.RotateRight(2) ^ x.RotateRight(13) ^ x.RotateRight(22)
    ensures BigSigma1(x) == x.RotateRight(6) ^ x.RotateRight(11) ^ x.RotateRight(25)
  {}

  // ----- rounds -----

  function StateOf(h: seq<bv32>): State
    requires |h| == 8
  {
    State(h[0], h[1], h[2], h[3], h[4], h[5], h[6], h[7])
  }

  method RunRounds(h: array<bv32>, w: array<bv32>, ghost block: Bits)
    returns (a: bv32, b: bv32, c: bv32, d: bv32, e: bv32, f: bv32, g: bv32, h': bv32)
    requires h.Length == 8 && w.Length == 64 && |block| == 512
    requires forall t | 0 <= t < 64 :: w[t] == Schedule(block, t)
    ensures State(a, b, c, d, e, f, g, h') == Rounds(StateOf(h[..]), block, 64)
  {
    hide BigSigma0, BigSigma1, Ch, Maj, Plus, Schedule, Rounds;
    ghost var start := StateOf(h[..]);
    a, b, c, d := h[0], h[1], h[2], h[3];
    e, f, g, h' := h[4], h[5], h[6], h[7];
    NoRounds(start, block);
    for i := 0 to 64
      invariant State(a, b, c, d, e, f, g, h') == Rounds(start, block, i)
    {
      OneRound(start, block, i);
      Sigmas(e);
      Sigmas(a);
      var s1 := e.RotateRight(6) ^ e.RotateRight(11) ^ e.RotateRight(25);
      var ch := Ch(e, f, g);
      var temp1 := Plus(Plus(Plus(Plus(h', s1), ch), K[i].word as bv32), w[i]);
      var s0 := a.RotateRight(2) ^ a.RotateRight(13) ^ a.RotateRight(22);
      var maj := Maj(a, b, c);
      var temp2 := Plus(s0, maj);
      h' := g;
      g := f;
      f := e;
      e := Plus(d, temp1);
      d := c;
      c := b;
      b := a;
      a := Plus(temp1, temp2);
    }
  }

  method Compress(h: array<bv32>, w: array<bv32>, ghost block: Bits)
    requires h.Length == 8 && w.Length == 64 && h != w && |block| == 512
    requires forall t | 0 <= t < 64 :: w[t] == Schedule(block, t)
    modifies h
    ensures StateOf(h[..]) == Sum(Rounds(old(StateOf(h[..])), block, 64), old(StateOf(h[..])))
  {
    hide Plus, Schedule, Rounds, StateOf, Sum;
    var a, b, c, d, e, f, g, h' := RunRounds(h, w, block);
    AddEach(h, a, b, c, d, e, f, g, h');
  }

  method AddEach(h: array<bv32>, a: bv32, b: bv32, c: bv32, d: bv32, e: bv32, f: bv32, g: bv32, h': bv32)
    requires h.Length == 8
    modifies h
    ensures StateOf(h[..]) == Sum(State(a, b, c, d, e, f, g, h'), old(StateOf(h[..])))
  {
    hide Plus;
    AddFour(h, 0, a, b, c, d);
    AddFour(h, 4, e, f, g, h');
  }

  method AddFour(h: array<bv32>, at: nat, a: bv32, b: bv32, c: bv32, d: bv32)
    requires at + 4 <= h.Length
    modifies h
    ensures forall i | 0 <= i < h.Length && !(at <= i < at + 4) :: h[i] == old(h[i])
    ensures h[at] == Plus(a, old(h[at])) && h[at + 1] == Plus(b, old(h[at + 1]))
    ensures h[at + 2] == Plus(c, old(h[at + 2])) && h[at + 3] == Plus(d, old(h[at + 3]))
  {
    PlusCommutes(h[at], a);
    PlusCommutes(h[at + 1], b);
    PlusCommutes(h[at + 2], c);
    PlusCommutes(h[at + 3], d);
    hide Plus;
    h[at] := Plus(h[at], a);
    h[at + 1] := Plus(h[at + 1], b);
    h[at + 2] := Plus(h[at + 2], c);
    h[at + 3] := Plus(h[at + 3], d);
  }

  lemma NoRounds(s: State, block: Bits)
    requires |block| == 512
    ensures Rounds(s, block, 0) == s
  {}

  lemma OneRound(s: State, block: Bits, t: nat)
    requires |block| == 512 && t < 64
    ensures Rounds(s, block, t + 1) == Round(Rounds(s, block, t), K[t].word as bv32, Schedule(block, t))
  {
    hide Round, Schedule;
  }

  // ----- the digest as text -----

  function HexDigit(d: nat): char
    requires d < 16
  {
    if d < 10 then ('0' as int + d) as char else ('a' as int + d - 10) as char
  }

  /** The `size` lowest hexadecimal digits of a number, as `{:08x}` prints a word for size 8. */
  function Hex(n: nat, size: nat): (s: string)
    ensures |s| == size
  {
    if size == 0 then "" else Hex(n / 16, size - 1) + [HexDigit(n % 16)]
  }

  function WordHex(w: bv32): (s: string)
    ensures |s| == 8
  {
    Hex(w as nat, 8)
  }

  function FourWordsHex(a: bv32, b: bv32, c: bv32, d: bv32): (s: string)
    ensures |s| == 32
  {
    WordHex(a) + WordHex(b) + WordHex(c) + WordHex(d)
  }

  function DigestText(s: State): string { FourWordsHex(s.a, s.b, s.c, s.d) + FourWordsHex(s.e, s.f, s.g, s.h) }

  method InitialHash() returns (h: array<bv32>)
    ensures fresh(h) && h.Length == 8 && StateOf(h[..]) == Initial()
  {
    h := new bv32[8];
    h[0], h[1], h[2], h[3] := H[0].word as bv32, H[1].word as bv32, H[2].word as bv32, H[3].word as bv32;
    h[4], h[5], h[6], h[7] := H[4].word as bv32, H[5].word as bv32, H[6].word as bv32, H[7].word as bv32;
  }

  method HashSource(bytes: seq<byte>) returns (digest: string)
    requires |bytes| < 0x2000_0000_0000_0000
    ensures Spells(digest, Sha256(ToBits(bytes)))
  {
    hide ToBits, Padded, Intermediate, Rounds, Schedule, WordHex, Sum, Initial, StateOf, DigestText, Spells;
    var h := InitialHash();
    var padded := Pad(bytes);
    ghost var bits := ToBits(padded);
    NoBlocks(bits);
    for i := 0 to |padded| / 64
      invariant StateOf(h[..]) == Intermediate(bits, i)
    {
      var chunk := padded[64 * i..64 * i + 64];
      ToBitsSlices(padded, 64 * i, 64 * i + 64);
      var w := new bv32[64];
      FillSchedule(chunk, w);
      Compress(h, w, ToBits(chunk));
      OneBlock(bits, i);
    }
    digest := Print(h);
    DigestIsSpelled(StateOf(h[..]));
  }

  method Print(h: array<bv32>) returns (digest: string)
    requires h.Length == 8
    ensures digest == DigestText(StateOf(h[..]))
  {
    hide WordHex;
    digest := FourWordsHex(h[0], h[1], h[2], h[3]) + FourWordsHex(h[4], h[5], h[6], h[7]);
  }

  lemma NoBlocks(padded: Bits)
    ensures Intermediate(padded, 0) == Initial()
  {}

  lemma OneBlock(padded: Bits, i: nat)
    requires 512 * (i + 1) <= |padded|
    ensures var before := Intermediate(padded, i);
      Intermediate(padded, i + 1) == Sum(Rounds(before, padded[512 * i..512 * i + 512], 64), before)
  {
    hide Rounds, Sum;
  }

  const HEX_DIGITS := "0123456789abcdef"

  predicate IsHex(s: string) { forall i | 0 <= i < |s| :: s[i] in HEX_DIGITS }

  ghost function HexDigitValue(c: char): (d: nat)
    requires c in HEX_DIGITS
    ensures d < 16 && HEX_DIGITS[d] == c
  {
    var d: nat :| d < 16 && HEX_DIGITS[d] == c;
    d
  }

  /** The number that hexadecimal digits stand for, most significant first. */
  ghost function HexNumber(s: string): nat
    requires IsHex(s)
  {
    if s == "" then 0 else 16 * HexNumber(s[..|s| - 1]) + HexDigitValue(s[|s| - 1])
  }

  function PowerOf16(size: nat): nat { if size == 0 then 1 else 16 * PowerOf16(size - 1) }

  lemma DigitIsRead(d: nat)
    requires d < 16
    ensures HexDigit(d) in HEX_DIGITS && HexDigitValue(HexDigit(d)) == d
  {
    assert HexDigit(d) == HEX_DIGITS[d];
  }

  lemma {:induction false} HexIsRead(n: nat, size: nat)
    requires n < PowerOf16(size)
    ensures IsHex(Hex(n, size)) && HexNumber(Hex(n, size)) == n
  {
    hide HexDigit, HexDigitValue;
    if size > 0 {
      var s := Hex(n, size);
      assert s[..|s| - 1] == Hex(n / 16, size - 1);
      HexIsRead(n / 16, size - 1);
      DigitIsRead(n % 16);
    }
  }

  lemma WordHexIsRead(w: bv32)
    ensures IsHex(WordHex(w)) && HexNumber(WordHex(w)) == w as nat
  {
    assert PowerOf16(2) == 0x100;
    assert PowerOf16(4) == 0x1_0000;
    assert PowerOf16(6) == 0x100_0000;
    HexIsRead(w as nat, 8);
  }

  function Words(s: State): (words: seq<bv32>)
    ensures |words| == 8
  {
    [s.a, s.b, s.c, s.d, s.e, s.f, s.g, s.h]
  }

  /** Eight hexadecimal digits for each word of the digest, the first word first. */
  ghost predicate Spells(text: string, s: State) {
    && |text| == 64 && IsHex(text)
    && forall i | 0 <= i < 8 :: HexNumber(text[8 * i..8 * i + 8]) == Words(s)[i] as nat
  }

  lemma FourWordsAreSpelled(a: bv32, b: bv32, c: bv32, d: bv32, i: nat)
    requires i < 4
    ensures FourWordsHex(a, b, c, d)[8 * i..8 * i + 8] == WordHex([a, b, c, d][i])
  {
    hide WordHex;
    var s := FourWordsHex(a, b, c, d);
    assert s[0..8] == WordHex(a) && s[8..16] == WordHex(b) && s[16..24] == WordHex(c) && s[24..32] == WordHex(d);
  }

  lemma HalfOf(a: string, b: string, i: nat)
    requires |a| == |b| == 32 && i < 8
    ensures (a + b)[8 * i..8 * i + 8] == if i < 4 then a[8 * i..8 * i + 8] else b[8 * (i - 4)..8 * (i - 4) + 8]
  {}

  lemma TextIsSpelled(s: State, i: nat)
    requires i < 8
    ensures |DigestText(s)| == 64 && DigestText(s)[8 * i..8 * i + 8] == WordHex(Words(s)[i])
  {
    hide FourWordsHex, WordHex, Words;
    var first, second := FourWordsHex(s.a, s.b, s.c, s.d), FourWordsHex(s.e, s.f, s.g, s.h);
    assert DigestText(s) == first + second;
    hide DigestText;
    HalfOf(first, second, i);
    WordOf(s, i);
    if i < 4 {
      FourWordsAreSpelled(s.a, s.b, s.c, s.d, i);
    } else {
      FourWordsAreSpelled(s.e, s.f, s.g, s.h, i - 4);
    }
  }

  lemma WordOf(s: State, i: nat)
    requires i < 8
    ensures Words(s)[i] == if i < 4 then [s.a, s.b, s.c, s.d][i] else [s.e, s.f, s.g, s.h][i - 4]
  {}

  /** What the text says: the eight words of the digest, in order. */
  lemma DigestIsSpelled(s: State)
    ensures Spells(DigestText(s), s)
  {
    hide DigestText, WordHex, HexNumber;
    var text := DigestText(s);
    forall i | 0 <= i < 8
      ensures |text| == 64 && IsHex(text[8 * i..8 * i + 8]) && HexNumber(text[8 * i..8 * i + 8]) == Words(s)[i] as nat
    {
      TextIsSpelled(s, i);
      WordHexIsRead(Words(s)[i]);
    }
    TextIsSpelled(s, 0);
    forall j | 0 <= j < 64 ensures text[j] in HEX_DIGITS {
      assert IsHex(text[8 * (j / 8)..8 * (j / 8) + 8]);
      assert text[j] == text[8 * (j / 8)..8 * (j / 8) + 8][j % 8];
    }
  }

  /** A text spells one digest only, so it tells all 256 bits. */
  lemma SpelledOnce(text: string, s: State, t: State)
    requires Spells(text, s) && Spells(text, t)
    ensures s == t
  {
    hide HexNumber, Words;
    forall i | 0 <= i < 8 ensures Words(s)[i] == Words(t)[i] {
      SameWord(Words(s)[i], Words(t)[i]);
    }
    WordsTellState(s, t);
  }

  lemma SameWord(v: bv32, w: bv32)
    requires v as nat == w as nat
    ensures v == w
  {
    assert (v as nat) as bv32 == v && (w as nat) as bv32 == w;
  }

  lemma WordsTellState(s: State, t: State)
    requires forall i | 0 <= i < 8 :: Words(s)[i] == Words(t)[i]
    ensures s == t
  {
    assert Words(s)[0] == Words(t)[0] && Words(s)[1] == Words(t)[1] && Words(s)[2] == Words(t)[2] && Words(s)[3] == Words(t)[3];
    assert Words(s)[4] == Words(t)[4] && Words(s)[5] == Words(t)[5] && Words(s)[6] == Words(t)[6] && Words(s)[7] == Words(t)[7];
  }

  /** The text tells all 256 bits of the digest. */
  lemma DigestTextIsInjective(s: State, t: State)
    requires DigestText(s) == DigestText(t)
    ensures s == t
  {
    hide DigestText, Spells;
    DigestIsSpelled(s);
    DigestIsSpelled(t);
    SpelledOnce(DigestText(s), s, t);
  }
}
