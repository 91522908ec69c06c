/** SHA-256 as section 6.2.2 of FIPS 180-4 has it, over the padding of its section 5.1.1, on sequences of bits. */
module Fips180 {
  // ----- constants (sections 4.2.2 and 5.3.3) -----

  type Word = w: int | 0 <= w < 0x1_0000_0000

  /** A word of the fraction of a root of `prime`, whose whole part is `root`. */
  datatype Fraction = Cubic(prime: nat, root: nat, word: Word) | Quadratic(prime: nat, root: nat, word: Word)

  /** The word holds the first thirty-two bits of the fractional part. */
  predicate IsFraction(f: Fraction) {
    var x := f.root * 0x1_0000_0000 + f.word;
    match f
    case Cubic(p, _, _) => x * x * x <= p * 0x1_0000_0000_0000_0000_0000_0000 < (x + 1) * (x + 1) * (x + 1)
    case Quadratic(p, _, _) => x * x <= p * 0x1_0000_0000_0000_0000 < (x + 1) * (x + 1)
  }

  type RootFraction = f: Fraction | IsFraction(f) witness Quadratic(2, 1, 0x6a09e667)

  /** Of the cube roots of the first sixty-four primes, in eight rows. */
  const K0: seq<RootFraction> := [
    Cubic(2, 1, 0x428a2f98), Cubic(3, 1, 0x71374491), Cubic(5, 1, 0xb5c0fbcf), Cubic(7, 1, 0xe9b5dba5),
    Cubic(11, 2, 0x3956c25b), Cubic(13, 2, 0x59f111f1), Cubic(17, 2, 0x923f82a4), Cubic(19, 2, 0xab1c5ed5)
  ]
  const K1: seq<RootFraction> := [
    Cubic(23, 2, 0xd807aa98), Cubic(29, 3, 0x12835b01), Cubic(31, 3, 0x243185be), Cubic(37, 3, 0x550c7dc3),
    Cubic(41, 3, 0x72be5d74), Cubic(43, 3, 0x80deb1fe), Cubic(47, 3, 0x9bdc06a7), Cubic(53, 3, 0xc19bf174)
  ]
  const K2: seq<RootFraction> := [
    Cubic(59, 3, 0xe49b69c1), Cubic(61, 3, 0xefbe4786), Cubic(67, 4, 0x0fc19dc6), Cubic(71, 4, 0x240ca1cc),
    Cubic(73, 4, 0x2de92c6f), Cubic(79, 4, 0x4a7484aa), Cubic(83, 4, 0x5cb0a9dc), Cubic(89, 4, 0x76f988da)
  ]
  const K3: seq<RootFraction> := [
    Cubic(97, 4, 0x983e5152), Cubic(101, 4, 0xa831c66d), Cubic(103, 4, 0xb00327c8), Cubic(107, 4, 0xbf597fc7),
    Cubic(109, 4, 0xc6e00bf3), Cubic(113, 4, 0xd5a79147), Cubic(127, 5, 0x06ca6351), Cubic(131, 5, 0x14292967)
  ]
  const K4: seq<RootFraction> := [
    Cubic(137, 5, 0x27b70a85), Cubic(139, 5, 0x2e1b2138), Cubic(149, 5, 0x4d2c6dfc), Cubic(151, 5, 0x53380d13),
    Cubic(157, 5, 0x650a7354), Cubic(163, 5, 0x766a0abb), Cubic(167, 5, 0x81c2c92e), Cubic(173, 5, 0x92722c85)
  ]
  const K5: seq<RootFraction> := [
    Cubic(179, 5, 0xa2bfe8a1), Cubic(181, 5, 0xa81a664b), Cubic(191, 5, 0xc24b8b70), Cubic(193, 5, 0xc76c51a3),
    Cubic(197, 5, 0xd192e819), Cubic(199, 5, 0xd6990624), Cubic(211, 5, 0xf40e3585), Cubic(223, 6, 0x106aa070)
  ]
  const K6: seq<RootFraction> := [
    Cubic(227, 6, 0x19a4c116), Cubic(229, 6, 0x1e376c08), Cubic(233, 6, 0x2748774c), Cubic(239, 6, 0x34b0bcb5),
    Cubic(241, 6, 0x391c0cb3), Cubic(251, 6, 0x4ed8aa4a), Cubic(257, 6, 0x5b9cca4f), Cubic(263, 6, 0x682e6ff3)
  ]
  const K7: seq<RootFraction> := [
    Cubic(269, 6, 0x748f82ee), Cubic(271, 6, 0x78a5636f), Cubic(277, 6, 0x84c87814), Cubic(281, 6, 0x8cc70208),
    Cubic(283, 6, 0x90befffa), Cubic(293, 6, 0xa4506ceb), Cubic(307, 6, 0xbef9a3f7), Cubic(311, 6, 0xc67178f2)
  ]

  const K: seq<RootFraction> := K0 + K1 + K2 + K3 + K4 + K5 + K6 + K7

  /** Of the square roots of the first eight primes. */
  const H: seq<RootFraction> := [
    Quadratic(2, 1, 0x6a09e667), Quadratic(3, 1, 0xbb67ae85), Quadratic(5, 2, 0x3c6ef372), Quadratic(7, 2, 0xa54ff53a),
    Quadratic(11, 3, 0x510e527f), Quadratic(13, 3, 0x9b05688c), Quadratic(17, 4, 0x1f83d9ab), Quadratic(19, 4, 0x5be0cd19)
  ]

  // ----- numbers in bits -----

  type Bits = seq<bool>

  function BitValue(b: bool): nat { if b then 1 else 0 }

  /** The number a row of bits stands for, most significant bit first. */
  function Value(bits: Bits): nat { if bits == [] then 0 else 2 * Value(bits[..|bits| - 1]) + BitValue(bits[|bits| - 1]) }

  /** The `size` lowest bits of `n`. */
  function Binary(n: nat, size: nat): (bits: Bits)
    ensures |bits| == size
  {
    if size == 0 then [] else Binary(n / 2, size - 1) + [n % 2 == 1]
  }

  function Power(size: nat): nat { if size == 0 then 1 else 2 * Power(size - 1) }

  lemma {:induction false} ValueOfBinary(n: nat, size: nat)
    requires n < Power(size)
    ensures Value(Binary(n, size)) == n
  {
    if size > 0 {
      var bits := Binary(n, size);
      ValueOfBinary(n / 2, size - 1);
      assert bits[..|bits| - 1] == Binary(n / 2, size - 1);
    }
  }

  // ----- padding (section 5.1.1) -----

  function Zeros(n: nat): (bits: Bits)
    ensures |bits| == n && forall i | 0 <= i < n :: !bits[i]
  {
    seq(n, _ => false)
  }

  /** `length + 1 + k` is 448 modulo 512. */
  predicate Fills(length: nat, k: nat) { (length + 1 + k) % 512 == 448 }

  /** The smallest number of zeros that fills the last block up to the length. */
  function ZeroCount(length: nat): (k: nat)
    ensures Fills(length, k) && forall j: nat | Fills(length, j) :: k <= j
  {
    (447 - length) % 512
  }

  function Padded(message: Bits): Bits {
    message + [true] + Zeros(ZeroCount(|message|)) + Binary(|message|, 64)
  }

  lemma TwoToThe64()
    ensures Power(64) == 0x1_0000_0000_0000_0000
  {
    assert Power(8) == 0x100;
    assert Power(16) == 0x1_0000;
    assert Power(24) == 0x100_0000;
    assert Power(32) == 0x1_0000_0000;
    assert Power(40) == 0x100_0000_0000;
    assert Power(48) == 0x1_0000_0000_0000;
    assert Power(56) == 0x100_0000_0000_0000;
  }

  /** Two messages of fewer than 2^64 bits are not padded to the same text. */
  lemma PaddingIsInjective(a: Bits, b: Bits)
    requires |a| < 0x1_0000_0000_0000_0000 && |b| < 0x1_0000_0000_0000_0000
    requires Padded(a) == Padded(b)
    ensures a == b
  {
    var n := |Padded(a)|;
    TwoToThe64();
    assert Padded(a)[n - 64..] == Binary(|a|, 64) && Padded(b)[n - 64..] == Binary(|b|, 64);
    ValueOfBinary(|a|, 64);
    ValueOfBinary(|b|, 64);
    assert Padded(a)[..|a|] == a && Padded(b)[..|b|] == b;
  }

  // ----- functions (section 4.1.2) -----

  /** Addition modulo 2^32. */
  function Plus(x: bv32, y: bv32): bv32 { x + y }

  function PlusFour(a: bv32, b: bv32, c: bv32, d: bv32): bv32 { a + b + c + d }

  function Ch(x: bv32, y: bv32, z: bv32): bv32 { (x & y) ^ (!x & z) }

  function Maj(x: bv32, y: bv32, z: bv32): bv32 { (x & y) ^ (x & z) ^ (y & z) }

  // A rotation to the right by n bits is a shift to the right by n or-ed with one to the left by 32 - n.

  function BigSigma0(x: bv32): bv32 { ((x >> 2) | (x << 30)) ^ ((x >> 13) | (x << 19)) ^ ((x >> 22) | (x << 10)) }

  function BigSigma1(x: bv32): bv32 { ((x >> 6) | (x << 26)) ^ ((x >> 11) | (x << 21)) ^ ((x >> 25) | (x << 7)) }

  function SmallSigma0(x: bv32): bv32 { ((x >> 7) | (x << 25)) ^ ((x >> 18) | (x << 14)) ^ (x >> 3) }

  function SmallSigma1(x: bv32): bv32 { ((x >> 17) | (x << 15)) ^ ((x >> 19) | (x << 13)) ^ (x >> 10) }

  // ----- hash computation (section 6.2.2) -----

  lemma {:induction false} ValueIsBelow(bits: Bits)
    ensures Value(bits) < Power(|bits|)
  {
    if bits != [] {
      ValueIsBelow(bits[..|bits| - 1]);
    }
  }

  /** Thirty-two bits as a word. */
  function ToWord(bits: Bits): bv32
    requires |bits| == 32
  {
    ValueIsBelow(bits);
    TwoToThe32();
    Value(bits) as bv32
  }

  lemma TwoToThe32()
    ensures Power(32) == 0x1_0000_0000
  {
    assert Power(8) == 0x100;
    assert Power(16) == 0x1_0000;
    assert Power(24) == 0x100_0000;
  }

  /** Word `t` of the message schedule of a block of 512 bits. */
  function Schedule(block: Bits, t: nat): bv32
    requires |block| == 512
  {
    if t < 16 then ToWord(block[32 * t..32 * t + 32])
    else
      PlusFour(SmallSigma1(Schedule(block, t - 2)), Schedule(block, t - 7), SmallSigma0(Schedule(block, t - 15)), Schedule(block, t - 16))
  }

  datatype State = State(a: bv32, b: bv32, c: bv32, d: bv32, e: bv32, f: bv32, g: bv32, h: bv32)

  function Round(s: State, k: bv32, w: bv32): State {
    var t1 := Plus(Plus(Plus(Plus(s.h, BigSigma1(s.e)), Ch(s.e, s.f, s.g)), k), w);
    var t2 := Plus(BigSigma0(s.a), Maj(s.a, s.b, s.c));
    State(Plus(t1, t2), s.a, s.b, s.c, Plus(s.d, t1), s.e, s.f, s.g)
  }

  /** The working variables after `t` rounds. */
  function Rounds(s: State, block: Bits, t: nat): State
    requires |block| == 512 && t <= 64
  {
    if t == 0 then s else Round(Rounds(s, block, t - 1), K[t - 1].word as bv32, Schedule(block, t - 1))
  }

  function Sum(s: State, t: State): State {
    State(Plus(s.a, t.a), Plus(s.b, t.b), Plus(s.c, t.c), Plus(s.d, t.d), Plus(s.e, t.e), Plus(s.f, t.f), Plus(s.g, t.g), Plus(s.h, t.h))
  }

  function Initial(): State {
    State(H[0].word as bv32, H[1].word as bv32, H[2].word as bv32, H[3].word as bv32,
          H[4].word as bv32, H[5].word as bv32, H[6].word as bv32, H[7].word as bv32)
  }

  /** The hash value after the first `i` blocks. */
  function Intermediate(padded: Bits, i: nat): State
    requires 512 * i <= |padded|
  {
    if i == 0 then Initial()
    else
      var before := Intermediate(padded, i - 1);
      Sum(Rounds(before, padded[512 * (i - 1)..512 * i], 64), before)
  }

  function Sha256(message: Bits): State {
    Intermediate(Padded(message), |Padded(message)| / 512)
  }
}
