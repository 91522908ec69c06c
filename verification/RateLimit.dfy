/** The token bucket behind `@rate_limit` (`rate_limit.rs`).  Instants and durations are in seconds,
    counted from the origin of the clock; `f64` is modelled by `real`. */
module RateLimit {
  const SWEEP_EVERY: nat := 1000
  const SWEEP_MAX_IDLE: real := 3600.0

  type Key = (string, string, string)  // client address, service, rpc

  datatype Spec = Spec(count: nat, window: real)

  predicate ValidSpec(spec: Spec) { spec.count > 0 && spec.window > 0.0 }

  datatype Bucket = Bucket(tokens: real, capacity: real, refillPerSec: real, lastSeen: real)

  datatype State = State(buckets: map<Key, Bucket>, checks: nat)

  datatype Call = Call(key: Key, spec: Spec, at: real)

  function Rate(spec: Spec): (r: real)
    requires ValidSpec(spec)
    ensures r > 0.0
  {
    spec.count as real / spec.window
  }

  /** What a bucket gains in `elapsed` seconds. */
  function Gain(elapsed: real, rate: real): real { elapsed * rate }

  lemma GainAdds(x: real, y: real, rate: real)
    requires x >= 0.0 && y >= 0.0 && rate > 0.0
    ensures Gain(x + y, rate) == Gain(x, rate) + Gain(y, rate) && Gain(x, rate) >= 0.0 && Gain(y, rate) >= 0.0
  {}

  lemma NoGainAtOnce(rate: real)
    ensures Gain(0.0, rate) == 0.0
  {}

  lemma GainFillsInWindow(spec: Spec, idle: real)
    requires ValidSpec(spec) && idle >= spec.window
    ensures Gain(idle, Rate(spec)) >= spec.count as real
  {
    var r := Rate(spec);
    assert spec.window * r == spec.count as real;
    assert (idle - spec.window) * r >= 0.0;
    assert idle * r == spec.window * r + (idle - spec.window) * r;
  }

  /** What may pass in an interval of the given length: the burst, and what is gained meanwhile. */
  function Allowance(spec: Spec, length: real): real
    requires ValidSpec(spec)
  {
    spec.count as real + Gain(length, Rate(spec))
  }

  function Min(a: real, b: real): real { if a <= b then a else b }

  function Since(now: real, t: real): real { if now < t then 0.0 else now - t }

  function Full(call: Call): Bucket
    requires ValidSpec(call.spec)
  {
    Bucket(call.spec.count as real, call.spec.count as real, Rate(call.spec), call.at)
  }

  function Swept(s: State, now: real): State {
    if s.checks + 1 < SWEEP_EVERY then s.(checks := s.checks + 1)
    else if now < SWEEP_MAX_IDLE then s.(checks := 0)  // the cutoff would precede the origin of the clock
    else State(map k | k in s.buckets && s.buckets[k].lastSeen >= now - SWEEP_MAX_IDLE :: s.buckets[k], 0)
  }

  function Refilled(b: Bucket, now: real): real { Min(b.tokens + Gain(Since(now, b.lastSeen), b.refillPerSec), b.capacity) }

  function Found(s: State, call: Call): Bucket
    requires ValidSpec(call.spec)
  {
    if call.key in s.buckets then s.buckets[call.key] else Full(call)
  }

  function Allows(s: State, call: Call): bool
    requires ValidSpec(call.spec)
  {
    Refilled(Found(Swept(s, call.at), call), call.at) >= 1.0
  }

  function After(s: State, call: Call): State
    requires ValidSpec(call.spec)
  {
    var swept := Swept(s, call.at);
    var b := Found(swept, call);
    var left := Refilled(b, call.at) - if Allows(s, call) then 1.0 else 0.0;
    swept.(buckets := swept.buckets[call.key := b.(tokens := left, lastSeen := call.at)])
  }

  class RateLimiter {
    var buckets: map<Key, Bucket>
    var checksSinceSweep: nat

    ghost function Current(): State
      reads this
    {
      State(buckets, checksSinceSweep)
    }

    constructor ()
      ensures Current() == State(map[], 0)
    {
      buckets, checksSinceSweep := map[], 0;
    }

    method SweepIfDue(now: real)
      modifies this
      ensures Current() == Swept(old(Current()), now)
    {
      checksSinceSweep := checksSinceSweep + 1;
      if checksSinceSweep >= SWEEP_EVERY {
        checksSinceSweep := 0;
        if now >= SWEEP_MAX_IDLE {
          var cutoff := now - SWEEP_MAX_IDLE;
          buckets := map k | k in buckets && buckets[k].lastSeen >= cutoff :: buckets[k];
        }
      }
    }

    method Check(key: Key, spec: Spec, now: real) returns (ok: bool)
      requires ValidSpec(spec)
      modifies this
      ensures ok == Allows(old(Current()), Call(key, spec, now))
      ensures Current() == After(old(Current()), Call(key, spec, now))
    {
      SweepIfDue(now);
      var capacity := spec.count as real;
      var refillPerSec := capacity / spec.window;
      assert refillPerSec == Rate(spec);
      hide Rate, Gain;
      if key !in buckets {
        buckets := buckets[key := Bucket(capacity, capacity, refillPerSec, now)];
      }
      var bucket := buckets[key];
      var elapsed := if now < bucket.lastSeen then 0.0 else now - bucket.lastSeen;
      var tokens := Min(bucket.tokens + Gain(elapsed, bucket.refillPerSec), bucket.capacity);
      ok := tokens >= 1.0;
      if ok { tokens := tokens - 1.0; }
      buckets := buckets[key := bucket.(tokens := tokens, lastSeen := now)];
      assert buckets == After(old(Current()), Call(key, spec, now)).buckets;
    }
  }

  // ----- how many requests a key gets through -----

  /** Calls in order of time, those of `key` all under the same limit. */
  predicate CallsOf(calls: seq<Call>, key: Key, spec: Spec, from: real) {
    && (forall i | 0 <= i < |calls| :: from <= calls[i].at && ValidSpec(calls[i].spec) && (calls[i].key == key ==> calls[i].spec == spec))
    && forall i, j | 0 <= i <= j < |calls| :: calls[i].at <= calls[j].at
  }

  /** The bucket of `key`, if there is one, follows `spec` and was last used no later than `now`. */
  predicate Follows(s: State, key: Key, spec: Spec, now: real)
    requires ValidSpec(spec)
  {
    key in s.buckets ==>
      var b := s.buckets[key];
      b.capacity == spec.count as real && b.refillPerSec == Rate(spec) && 0.0 <= b.tokens <= b.capacity && b.lastSeen <= now
  }

  function Accepted(s: State, calls: seq<Call>, key: Key, a: real, b: real): nat
    requires forall i | 0 <= i < |calls| :: ValidSpec(calls[i].spec)
    decreases calls
  {
    if calls == [] then 0
    else
      (if calls[0].key == key && a <= calls[0].at <= b && Allows(s, calls[0]) then 1 else 0)
      + Accepted(After(s, calls[0]), calls[1..], key, a, b)
  }

  /** The tokens `key` would find at `now`. */
  function Level(s: State, key: Key, spec: Spec, now: real): real {
    if key in s.buckets then Refilled(s.buckets[key], now) else spec.count as real
  }

  lemma LevelGrows(s: State, key: Key, spec: Spec, t: real, now: real)
    requires ValidSpec(spec) && t <= now && Follows(s, key, spec, t)
    ensures Level(s, key, spec, now) == Min(Level(s, key, spec, t) + Gain(now - t, Rate(spec)), spec.count as real)
    ensures 0.0 <= Level(s, key, spec, now) <= Level(s, key, spec, t) + Gain(now - t, Rate(spec))
  {
    hide Rate, Gain;
    GainAdds(now - t, 0.0, Rate(spec));
    if key in s.buckets {
      GainAdds(t - s.buckets[key].lastSeen, now - t, Rate(spec));
    }
  }

  /** Deleting an idle bucket is not seen: by then it would have been full again. */
  lemma SweepKeepsLevel(s: State, key: Key, spec: Spec, now: real)
    requires ValidSpec(spec) && spec.window <= SWEEP_MAX_IDLE && Follows(s, key, spec, now)
    ensures Level(Swept(s, now), key, spec, now) == Level(s, key, spec, now)
    ensures Follows(Swept(s, now), key, spec, now)
  {
    hide Rate, Gain;
    if key in s.buckets && key !in Swept(s, now).buckets {
      GainAdds(now - s.buckets[key].lastSeen, 0.0, Rate(spec));
      GainFillsInWindow(spec, now - s.buckets[key].lastSeen);
    }
  }

  /** One call spends a token of its own key when it is let through, and leaves every other key alone. */
  lemma CallSpends(s: State, call: Call, key: Key, spec: Spec)
    requires ValidSpec(spec) && ValidSpec(call.spec) && spec.window <= SWEEP_MAX_IDLE
    requires Follows(s, key, spec, call.at) && (call.key == key ==> call.spec == spec)
    ensures Follows(After(s, call), key, spec, call.at)
    ensures Level(After(s, call), key, spec, call.at)
      == Level(s, key, spec, call.at) - if call.key == key && Allows(s, call) then 1.0 else 0.0
  {
    hide Rate, Gain;
    SweepKeepsLevel(s, key, spec, call.at);
    GainAdds(0.0, 0.0, Rate(spec));
    var swept := Swept(s, call.at);
    LevelGrows(swept, key, spec, call.at, call.at);
    if call.key == key {
      assert Refilled(Found(swept, call), call.at) == Level(swept, key, spec, call.at);
    }
  }

  lemma {:induction false} AcceptedWithinLevel(s: State, calls: seq<Call>, key: Key, spec: Spec, a: real, b: real, now: real)
    requires ValidSpec(spec) && spec.window <= SWEEP_MAX_IDLE
    requires a <= now <= b && CallsOf(calls, key, spec, now) && Follows(s, key, spec, now)
    ensures Accepted(s, calls, key, a, b) as real <= Level(s, key, spec, now) + Gain(b - now, Rate(spec))
    decreases calls
  {
    hide Rate, Gain;
    LevelGrows(s, key, spec, now, now);
    GainAdds(b - now, 0.0, Rate(spec));
    if calls != [] {
      var t := calls[0].at;
      if t > b {
        NoneAfter(s, calls, key, a, b);
      } else {
        LevelGrows(s, key, spec, now, t);
        CallSpends(s, calls[0], key, spec);
        AcceptedWithinLevel(After(s, calls[0]), calls[1..], key, spec, a, b, t);
        GainAdds(b - t, t - now, Rate(spec));
      }
    }
  }

  lemma {:induction false} NoneAfter(s: State, calls: seq<Call>, key: Key, a: real, b: real)
    requires forall i | 0 <= i < |calls| :: ValidSpec(calls[i].spec) && calls[i].at > b
    ensures Accepted(s, calls, key, a, b) == 0
    decreases calls
  {
    if calls != [] { NoneAfter(After(s, calls[0]), calls[1..], key, a, b); }
  }

  /** The calls before `a` only bring the limiter into some state at `a`. */
  lemma {:induction false} SkipEarlier(s: State, calls: seq<Call>, key: Key, spec: Spec, a: real, b: real, now: real)
    returns (later: State, rest: seq<Call>)
    requires ValidSpec(spec) && spec.window <= SWEEP_MAX_IDLE && now <= a
    requires CallsOf(calls, key, spec, now) && Follows(s, key, spec, now)
    ensures CallsOf(rest, key, spec, a) && Follows(later, key, spec, a)
    ensures Accepted(s, calls, key, a, b) == Accepted(later, rest, key, a, b)
    decreases calls
  {
    if calls == [] || calls[0].at >= a {
      later, rest := s, calls;
    } else {
      CallSpends(s, calls[0], key, spec);
      later, rest := SkipEarlier(After(s, calls[0]), calls[1..], key, spec, a, b, calls[0].at);
    }
  }

  /** In any interval a key gets through at most its burst plus what was refilled meanwhile. */
  lemma AcceptedWithinRate(s: State, calls: seq<Call>, key: Key, spec: Spec, a: real, b: real, now: real)
    requires ValidSpec(spec) && spec.window <= SWEEP_MAX_IDLE && now <= a <= b
    requires CallsOf(calls, key, spec, now) && Follows(s, key, spec, now)
    ensures Accepted(s, calls, key, a, b) as real <= Allowance(spec, b - a)
  {
    var later, rest := SkipEarlier(s, calls, key, spec, a, b, now);
    hide Rate, Gain;
    LevelGrows(later, key, spec, a, a);
    AcceptedWithinLevel(later, rest, key, spec, a, b, a);
  }

  /** A limiter as its constructor leaves it. */
  const START := State(map[], 0)

  function Final(s: State, calls: seq<Call>): State
    requires forall i | 0 <= i < |calls| :: ValidSpec(calls[i].spec)
    decreases calls
  {
    if calls == [] then s else Final(After(s, calls[0]), calls[1..])
  }

  lemma {:induction false} AcceptedConcat(s: State, first: seq<Call>, second: seq<Call>, key: Key, a: real, b: real)
    requires forall i | 0 <= i < |first| :: ValidSpec(first[i].spec)
    requires forall i | 0 <= i < |second| :: ValidSpec(second[i].spec)
    ensures Accepted(s, first + second, key, a, b) == Accepted(s, first, key, a, b) + Accepted(Final(s, first), second, key, a, b)
    decreases first
  {
    if first == [] {
      assert first + second == second;
    } else {
      assert (first + second)[1..] == first[1..] + second;
      AcceptedConcat(After(s, first[0]), first[1..], second, key, a, b);
    }
  }

  // ----- a call is refused only when the rate is used up -----

  lemma {:induction false} FinalConcat(s: State, first: seq<Call>, call: Call)
    requires (forall i | 0 <= i < |first| :: ValidSpec(first[i].spec)) && ValidSpec(call.spec)
    ensures Final(s, first + [call]) == After(Final(s, first), call)
    decreases first
  {
    if first == [] {
      assert first + [call] == [call] && [call][1..] == [];
    } else {
      assert (first + [call])[1..] == first[1..] + [call];
      FinalConcat(After(s, first[0]), first[1..], call);
    }
  }

  /** Nothing is let through after the last call. */
  lemma {:induction false} AcceptedUntil(s: State, calls: seq<Call>, key: Key, a: real, t: real, b: real)
    requires (forall i | 0 <= i < |calls| :: ValidSpec(calls[i].spec) && calls[i].at <= t) && t <= b
    ensures Accepted(s, calls, key, a, b) == Accepted(s, calls, key, a, t)
    ensures a > t ==> Accepted(s, calls, key, a, b) == 0
    decreases calls
  {
    if calls != [] { AcceptedUntil(After(s, calls[0]), calls[1..], key, a, t, b); }
  }

  lemma AcceptedSnoc(calls: seq<Call>, call: Call, key: Key, a: real, b: real)
    requires (forall i | 0 <= i < |calls| :: ValidSpec(calls[i].spec)) && ValidSpec(call.spec)
    ensures Accepted(START, calls + [call], key, a, b)
      == Accepted(START, calls, key, a, b) + if call.key == key && a <= call.at <= b && Allows(Final(START, calls), call) then 1 else 0
  {
    hide Rate, Gain, Allows, After;
    AcceptedConcat(START, calls, [call], key, a, b);
    assert [call][1..] == [];
  }

  /** The tokens of a key are those of a bucket that was full at some instant `a`, less what was let through since. */
  lemma {:induction false} LevelSinceFull(calls: seq<Call>, key: Key, spec: Spec, now: real) returns (a: real)
    requires ValidSpec(spec) && spec.window <= SWEEP_MAX_IDLE && 0.0 <= now
    requires CallsOf(calls, key, spec, 0.0) && forall i | 0 <= i < |calls| :: calls[i].at <= now
    ensures 0.0 <= a <= now && Follows(Final(START, calls), key, spec, now)
    ensures Level(Final(START, calls), key, spec, now)
      == spec.count as real + Gain(now - a, Rate(spec)) - Accepted(START, calls, key, a, now) as real
    decreases |calls|
  {
    hide Rate, Gain, Allows, After, Level, Follows, Refilled;
    if calls == [] {
      a := now;
      NothingUsed(key, spec, now);
    } else {
      var before, last := calls[..|calls| - 1], calls[|calls| - 1];
      var s := Final(START, before);
      assert calls == before + [last];
      a := LevelSinceFull(before, key, spec, last.at);
      CallSpends(s, last, key, spec);
      FinalConcat(START, before, last);
      AcceptedSnoc(before, last, key, a, last.at);
      a := LevelLater(calls, key, spec, a, last.at, now);
    }
  }

  lemma NothingUsed(key: Key, spec: Spec, now: real)
    requires ValidSpec(spec)
    ensures Level(START, key, spec, now) == spec.count as real && Follows(START, key, spec, now) && Gain(0.0, Rate(spec)) == 0.0
  {
    NoGainAtOnce(Rate(spec));
  }

  lemma LevelLater(calls: seq<Call>, key: Key, spec: Spec, a: real, t: real, now: real) returns (later: real)
    requires ValidSpec(spec) && 0.0 <= a <= t <= now
    requires forall i | 0 <= i < |calls| :: ValidSpec(calls[i].spec) && calls[i].at <= t
    requires Follows(Final(START, calls), key, spec, t)
    requires Level(Final(START, calls), key, spec, t)
      == spec.count as real + Gain(t - a, Rate(spec)) - Accepted(START, calls, key, a, t) as real
    ensures 0.0 <= later <= now && Follows(Final(START, calls), key, spec, now)
    ensures Level(Final(START, calls), key, spec, now)
      == spec.count as real + Gain(now - later, Rate(spec)) - Accepted(START, calls, key, later, now) as real
  {
    var s := Final(START, calls);
    hide Rate, Gain, Final, Level;
    LevelGrows(s, key, spec, t, now);
    GainAdds(t - a, now - t, Rate(spec));
    NoGainAtOnce(Rate(spec));
    var full := Level(s, key, spec, t) + Gain(now - t, Rate(spec)) > spec.count as real;
    later := if full then now else a;
    LevelBounded(s, key, spec, t);
    AcceptedUntil(START, calls, key, later, t, now);
  }

  lemma LevelBounded(s: State, key: Key, spec: Spec, t: real)
    requires ValidSpec(spec) && Follows(s, key, spec, t)
    ensures Level(s, key, spec, t) <= spec.count as real
  {
    LevelGrows(s, key, spec, t, t);
  }

  /** A call is let through exactly when with it every interval that ends at it stays within its allowance. */
  lemma AllowedExactly(calls: seq<Call>, call: Call)
    requires ValidSpec(call.spec) && call.spec.window <= SWEEP_MAX_IDLE && CallsOf(calls + [call], call.key, call.spec, 0.0)
    requires forall i | 0 <= i < |calls| :: ValidSpec(calls[i].spec)
    ensures Allows(Final(START, calls), call)
      <==> forall a | 0.0 <= a <= call.at ::
        (Accepted(START, calls, call.key, a, call.at) + 1) as real <= Allowance(call.spec, call.at - a)
  {
    hide Allows, Final, Accepted, Allowance, CallsOf;
    if Allows(Final(START, calls), call) {
      forall a | 0.0 <= a <= call.at
        ensures (Accepted(START, calls, call.key, a, call.at) + 1) as real <= Allowance(call.spec, call.at - a)
      {
        AllowedWithinRate(calls, call, a);
      }
    } else {
      var a := RefusedExceeds(calls, call);
    }
  }

  lemma AllowedWithinRate(calls: seq<Call>, call: Call, a: real)
    requires ValidSpec(call.spec) && call.spec.window <= SWEEP_MAX_IDLE && CallsOf(calls + [call], call.key, call.spec, 0.0)
    requires forall i | 0 <= i < |calls| :: ValidSpec(calls[i].spec)
    requires 0.0 <= a <= call.at && Allows(Final(START, calls), call)
    ensures (Accepted(START, calls, call.key, a, call.at) + 1) as real <= Allowance(call.spec, call.at - a)
  {
    hide Allows, Final, Accepted, Allowance;
    AcceptedSnoc(calls, call, call.key, a, call.at);
    AcceptedWithinRate(START, calls + [call], call.key, call.spec, a, call.at, 0.0);
  }

  lemma RefusedExceeds(calls: seq<Call>, call: Call) returns (a: real)
    requires ValidSpec(call.spec) && call.spec.window <= SWEEP_MAX_IDLE && CallsOf(calls + [call], call.key, call.spec, 0.0)
    requires forall i | 0 <= i < |calls| :: ValidSpec(calls[i].spec)
    requires !Allows(Final(START, calls), call)
    ensures 0.0 <= a <= call.at
    ensures (Accepted(START, calls, call.key, a, call.at) + 1) as real > Allowance(call.spec, call.at - a)
  {
    EarlierCalls(calls, call);
    hide Allows, Final, Accepted, CallsOf, Level, Follows, Rate, Gain;
    a := LevelSinceFull(calls, call.key, call.spec, call.at);
    AllowsByLevel(Final(START, calls), call);
  }

  lemma EarlierCalls(calls: seq<Call>, call: Call)
    requires CallsOf(calls + [call], call.key, call.spec, 0.0)
    ensures CallsOf(calls, call.key, call.spec, 0.0) && 0.0 <= call.at && forall i | 0 <= i < |calls| :: calls[i].at <= call.at
  {
    var all := calls + [call];
    assert all[|calls|] == call;
    assert forall i | 0 <= i < |calls| :: all[i] == calls[i];
  }

  lemma AllowsByLevel(s: State, call: Call)
    requires ValidSpec(call.spec) && call.spec.window <= SWEEP_MAX_IDLE && Follows(s, call.key, call.spec, call.at)
    ensures Allows(s, call) <==> Level(s, call.key, call.spec, call.at) >= 1.0
  {
    hide Rate, Gain;
    SweepKeepsLevel(s, call.key, call.spec, call.at);
    NoGainAtOnce(Rate(call.spec));
  }

  // ----- the limit needs windows that fit in the idle time -----

  /** Every run of a new limiter lets every key through within the rate of `spec`, in every interval. */
  ghost predicate RateHolds(spec: Spec)
    requires ValidSpec(spec)
  {
    forall calls, key, a, b | 0.0 <= a <= b && CallsOf(calls, key, spec, 0.0) ::
      Accepted(START, calls, key, a, b) as real <= Allowance(spec, b - a)
  }

  function Burst(call: Call, n: nat): (calls: seq<Call>)
    ensures |calls| == n && forall i | 0 <= i < n :: calls[i] == call
  {
    seq(n, _ => call)
  }

  /** A key that would find `n` tokens gets `n` simultaneous calls through. */
  lemma {:induction false} BurstPasses(s: State, call: Call, n: nat, a: real, b: real)
    requires ValidSpec(call.spec) && a <= call.at <= b && s.checks < SWEEP_EVERY
    requires Refilled(Found(Swept(s, call.at), call), call.at) >= n as real
    ensures Accepted(s, Burst(call, n), call.key, a, b) == n
    ensures var later := Final(s, Burst(call, n));
      && later.checks == (s.checks + n) % SWEEP_EVERY
      && (n > 0 ==> call.key in later.buckets && later.buckets[call.key].lastSeen == call.at)
    decreases n
  {
    hide Rate, Gain;
    if n > 0 {
      assert Burst(call, n)[1..] == Burst(call, n - 1);
      var next := After(s, call);
      assert Found(Swept(next, call.at), call) == next.buckets[call.key];
      NoGainAtOnce(next.buckets[call.key].refillPerSec);
      BurstPasses(next, call, n - 1, a, b);
    }
  }

  /** Calls of another key only advance the count of checks. */
  lemma {:induction false} OthersPass(s: State, call: Call, n: nat, key: Key, a: real, b: real)
    requires ValidSpec(call.spec) && call.key != key && key !in s.buckets && s.checks < SWEEP_EVERY
    ensures Accepted(s, Burst(call, n), key, a, b) == 0
    ensures var later := Final(s, Burst(call, n)); key !in later.buckets && later.checks == (s.checks + n) % SWEEP_EVERY
    decreases n
  {
    hide Rate, Gain;
    if n > 0 {
      assert Burst(call, n)[1..] == Burst(call, n - 1);
      OthersPass(After(s, call), call, n - 1, key, a, b);
    }
  }

  /** Drain the bucket, wait until a sweep deletes it, and drain the fresh one: calls of another key
      bring the limiter to the check at which the sweep is due. */
  lemma TwoBursts(spec: Spec, key: Key, other: Key, t: real) returns (calls: seq<Call>)
    requires ValidSpec(spec) && t > SWEEP_MAX_IDLE && other != key
    ensures CallsOf(calls, key, spec, 0.0)
    ensures Accepted(START, calls, key, 0.0, t) == 2 * spec.count
  {
    hide Rate, Gain, CallsOf, Burst;
    var n := spec.count;
    var filler := Burst(Call(other, spec, 0.0), (999 - n) % SWEEP_EVERY);
    var now, later := Burst(Call(key, spec, 0.0), n), Burst(Call(key, spec, t), n);
    calls := filler + (now + later);
    BurstsAreCalls(Call(other, spec, 0.0), (999 - n) % SWEEP_EVERY, Call(key, spec, 0.0), Call(key, spec, t), n);
    OthersPass(START, Call(other, spec, 0.0), (999 - n) % SWEEP_EVERY, key, 0.0, t);
    AcceptedConcat(START, filler, now + later, key, 0.0, t);
    BothBursts(Final(START, filler), spec, key, t);
  }

  lemma BurstsAreCalls(filler: Call, m: nat, now: Call, later: Call, n: nat)
    requires ValidSpec(now.spec) && filler.spec == now.spec && later.spec == now.spec && later.key == now.key
    requires 0.0 <= filler.at <= now.at <= later.at
    ensures var calls := Burst(filler, m) + (Burst(now, n) + Burst(later, n));
      && CallsOf(calls, now.key, now.spec, 0.0)
      && (forall i | 0 <= i < m :: ValidSpec(Burst(filler, m)[i].spec))
      && forall i | 0 <= i < n + n :: ValidSpec((Burst(now, n) + Burst(later, n))[i].spec)
  {
    var calls := Burst(filler, m) + (Burst(now, n) + Burst(later, n));
    assert forall i | 0 <= i < |calls| :: calls[i] == if i < m then filler else if i < m + n then now else later;
  }

  lemma BothBursts(s: State, spec: Spec, key: Key, t: real)
    requires ValidSpec(spec) && t > SWEEP_MAX_IDLE && key !in s.buckets && s.checks == (999 - spec.count) % SWEEP_EVERY
    ensures Accepted(s, Burst(Call(key, spec, 0.0), spec.count) + Burst(Call(key, spec, t), spec.count), key, 0.0, t) == 2 * spec.count
  {
    hide Rate, Gain;
    var now, later := Call(key, spec, 0.0), Call(key, spec, t);
    var n := spec.count;
    NoGainAtOnce(Rate(spec));
    BurstPasses(s, now, n, 0.0, t);
    var mid := Final(s, Burst(now, n));
    Wraps(n);
    assert Found(Swept(mid, t), later) == Full(later);
    BurstPasses(mid, later, n, 0.0, t);
    AcceptedConcat(s, Burst(now, n), Burst(later, n), key, 0.0, t);
  }

  /** A window longer than the idle time can be beaten before it is over. */
  lemma LongWindowsLeak(spec: Spec)
    requires ValidSpec(spec) && spec.window > SWEEP_MAX_IDLE
    ensures !RateHolds(spec)
  {
    var t := (SWEEP_MAX_IDLE + spec.window) / 2.0;
    var calls := TwoBursts(spec, ("", "", ""), ("other", "", ""), t);
    BelowWindow(spec, t);
  }

  lemma Wraps(n: nat)
    ensures ((999 - n) % SWEEP_EVERY + n) % SWEEP_EVERY == 999
  {}

  lemma BelowWindow(spec: Spec, t: real)
    requires ValidSpec(spec) && t < spec.window
    ensures Allowance(spec, t) < (2 * spec.count) as real
  {
    assert spec.window * Rate(spec) == spec.count as real;
    assert (spec.window - t) * Rate(spec) > 0.0;
  }

  /** The declared limit is kept in all runs of a new limiter exactly when its window is no longer than the idle time
      after which a sweep may delete a bucket. */
  lemma RateHoldsExactly(spec: Spec)
    requires ValidSpec(spec)
    ensures RateHolds(spec) <==> spec.window <= SWEEP_MAX_IDLE
  {
    if spec.window > SWEEP_MAX_IDLE {
      LongWindowsLeak(spec);
    } else {
      forall calls, key, a, b | 0.0 <= a <= b && CallsOf(calls, key, spec, 0.0)
        ensures Accepted(START, calls, key, a, b) as real <= Allowance(spec, b - a)
      {
        AcceptedWithinRate(START, calls, key, spec, a, b, 0.0);
      }
    }
  }
}
