/** The in-memory store behind `@cache` (`cache.rs`); every operation takes the instant at which it runs. */
module ResponseCache {
  import opened Wrappers

  const SWEEP_EVERY: nat := 1000

  type Key = (string, string, string)  // service, rpc, serialized arguments

  datatype Response = Response(status: nat, body: string, contentType: string)

  datatype Entry = Entry(response: Response, expiresAt: nat)

  predicate HasPrefix(k: Key, prefix: string) { prefix <= k.0 + "." + k.1 }

  datatype Store = Store(entries: map<Key, Entry>, checks: nat, hits: nat, misses: nat)

  function Swept(s: Store, now: nat): Store {
    if s.checks + 1 < SWEEP_EVERY then s.(checks := s.checks + 1)
    else s.(checks := 0, entries := map k | k in s.entries && s.entries[k].expiresAt > now :: s.entries[k])
  }

  function Lookup(s: Store, k: Key, now: nat): Option<Response> {
    if k in s.entries && s.entries[k].expiresAt > now then Some(s.entries[k].response) else None
  }

  function LiveKeys(entries: map<Key, Entry>, now: nat): set<Key> { set k | k in entries && entries[k].expiresAt > now }

  class CacheStore {
    var entries: map<Key, Entry>
    var checksSinceSweep: nat
    var hits: nat
    var misses: nat

    ghost function State(): Store
      reads this
    {
      Store(entries, checksSinceSweep, hits, misses)
    }

    constructor ()
      ensures State() == EMPTY
    {
      entries, checksSinceSweep, hits, misses := map[], 0, 0, 0;
    }

    method SweepIfDue(now: nat)
      modifies this`entries, this`checksSinceSweep
      ensures State() == Swept(old(State()), now)
    {
      checksSinceSweep := checksSinceSweep + 1;
      if checksSinceSweep < SWEEP_EVERY { return; }
      checksSinceSweep := 0;
      entries := map k | k in entries && entries[k].expiresAt > now :: entries[k];
    }

    method Get(k: Key, now: nat) returns (hit: Option<Response>)
      modifies this
      ensures State() == After(old(State()), Timed(Call.Get(k), now))
      ensures hit == Lookup(State(), k, now)
    {
      SweepIfDue(now);
      hit := None;
      if k in entries && entries[k].expiresAt > now { hit := Some(entries[k].response); }
      if hit.Some? { hits := hits + 1; } else { misses := misses + 1; }
    }

    method Put(k: Key, response: Response, ttl: nat, now: nat)
      modifies this`entries
      ensures State() == After(old(State()), Timed(Call.Put(k, response, ttl), now))
    {
      entries := entries[k := Entry(response, now + ttl)];
    }

    method Clear()
      modifies this`entries
      ensures forall now :: State() == After(old(State()), Timed(Call.Clear, now))
    {
      entries := map[];
    }

    method ClearPrefix(prefix: string)
      modifies this`entries
      ensures forall now :: State() == After(old(State()), Timed(Call.ClearPrefix(prefix), now))
    {
      entries := map k | k in entries && !HasPrefix(k, prefix) :: entries[k];
    }

    method Stats(now: nat) returns (live: nat, hitCount: nat, missCount: nat)
      ensures live == |LiveKeys(entries, now)| && hitCount == hits && missCount == misses
    {
      live := 0;
      var rest := entries.Keys;
      while rest != {}
        invariant rest <= entries.Keys && live == |LiveKeys(entries, now) - rest|
      {
        var k :| k in rest;
        OneMoreLive(entries, now, rest, k);
        if entries[k].expiresAt > now { live := live + 1; }
        rest := rest - {k};
      }
      assert LiveKeys(entries, now) - {} == LiveKeys(entries, now);
      return live, hits, misses;
    }
  }

  lemma OneMoreLive(entries: map<Key, Entry>, now: nat, rest: set<Key>, k: Key)
    requires k in rest && rest <= entries.Keys
    ensures |LiveKeys(entries, now) - (rest - {k})| == |LiveKeys(entries, now) - rest| + if entries[k].expiresAt > now then 1 else 0
  {
    var live := LiveKeys(entries, now);
    if k in live {
      assert live - (rest - {k}) == (live - rest) + {k};
    } else {
      assert live - (rest - {k}) == live - rest;
    }
  }

  // ----- what a history of calls determines -----

  datatype Call = Get(k: Key) | Put(k: Key, response: Response, ttl: nat) | Clear | ClearPrefix(prefix: string)

  datatype Timed = Timed(call: Call, at: nat)

  const EMPTY := Store(map[], 0, 0, 0)

  function After(s: Store, c: Timed): Store {
    match c.call
    case Get(k) =>
      var swept := Swept(s, c.at);
      if Lookup(swept, k, c.at).Some? then swept.(hits := swept.hits + 1) else swept.(misses := swept.misses + 1)
    case Put(k, response, ttl) => s.(entries := s.entries[k := Entry(response, c.at + ttl)])
    case Clear => s.(entries := map[])
    case ClearPrefix(prefix) => s.(entries := map k | k in s.entries && !HasPrefix(k, prefix) :: s.entries[k])
  }

  function Run(history: seq<Timed>): Store {
    if history == [] then EMPTY else After(Run(history[..|history| - 1]), history[|history| - 1])
  }

  predicate Monotone(history: seq<Timed>) { forall i, j | 0 <= i <= j < |history| :: history[i].at <= history[j].at }

  /** The last `put` of `k` that no later clear removed. */
  function LastPut(history: seq<Timed>, k: Key): Option<Entry> {
    if history == [] then None
    else
      var last, earlier := history[|history| - 1], history[..|history| - 1];
      match last.call
      case Put(k', response, ttl) => if k' == k then Some(Entry(response, last.at + ttl)) else LastPut(earlier, k)
      case Clear => None
      case ClearPrefix(prefix) => if HasPrefix(k, prefix) then None else LastPut(earlier, k)
      case Get(_) => LastPut(earlier, k)
  }

  /** What `get` has to answer at `now`: that put, unless it has expired. */
  function Expected(history: seq<Timed>, k: Key, now: nat): Option<Response> {
    var e := LastPut(history, k);
    if e.Some? && e.value.expiresAt > now then Some(e.value.response) else None
  }

  /** Without sweeping, entry by entry, what the history says; sweeping removes only expired entries. */
  lemma {:induction false} EntriesAreLastPuts(history: seq<Timed>, k: Key, now: nat)
    requires Monotone(history) && (history != [] ==> history[|history| - 1].at <= now)
    ensures var entries := Run(history).entries;
      && (k in entries ==> LastPut(history, k) == Some(entries[k]))
      && (k !in entries ==> LastPut(history, k).None? || LastPut(history, k).value.expiresAt <= now)
  {
    if history != [] {
      EntriesAreLastPuts(history[..|history| - 1], k, history[|history| - 1].at);
    }
  }

  /** `get` answers as the history determines, so the periodic sweep is never seen. */
  lemma GetAnswersHistory(history: seq<Timed>, k: Key, now: nat)
    requires Monotone(history) && (history != [] ==> history[|history| - 1].at <= now)
    ensures Lookup(Run(history), k, now) == Expected(history, k, now)
    ensures Lookup(Swept(Run(history), now), k, now) == Expected(history, k, now)
  {
    EntriesAreLastPuts(history, k, now);
  }

  /** The call can neither store nor remove anything under `k`. */
  predicate Spares(call: Call, k: Key) {
    match call
    case Get(_) => true
    case Put(other, _, _) => other != k
    case Clear => false
    case ClearPrefix(prefix) => !HasPrefix(k, prefix)
  }

  /** A prefix stands at the head of the service and the rpc with a point between them; the arguments do not matter. */
  lemma PrefixesExactly(k: Key, prefix: string)
    ensures HasPrefix(k, prefix) <==> exists rest :: k.0 + "." + k.1 == prefix + rest
    ensures HasPrefix(k, k.0) && HasPrefix(k, k.0 + "." + k.1)
  {
    var name := k.0 + "." + k.1;
    if HasPrefix(k, prefix) { assert name == prefix + name[|prefix|..]; }
    assert name == k.0 + ("." + k.1);
  }

  /** What was put is served until its time to live is over and not after, whatever spares it in between. */
  lemma PutIsServed(before: seq<Timed>, put: Timed, later: seq<Timed>, now: nat)
    requires put.call.Put? && Monotone(before + [put] + later) && (forall i | 0 <= i < |later| :: Spares(later[i].call, put.call.k))
    requires put.at <= now && (later != [] ==> later[|later| - 1].at <= now)
    ensures Lookup(Run(before + [put] + later), put.call.k, now)
      == if now < put.at + put.call.ttl then Some(put.call.response) else None
  {
    var history := before + [put] + later;
    LastPutStays(before, put, later);
    assert history[|history| - 1] == if later == [] then put else later[|later| - 1];
    GetAnswersHistory(history, put.call.k, now);
  }

  lemma {:induction false} LastPutStays(before: seq<Timed>, put: Timed, later: seq<Timed>)
    requires put.call.Put? && forall i | 0 <= i < |later| :: Spares(later[i].call, put.call.k)
    ensures LastPut(before + [put] + later, put.call.k) == Some(Entry(put.call.response, put.at + put.call.ttl))
    decreases |later|
  {
    var history := before + [put] + later;
    if later == [] {
      assert history == before + [put];
    } else {
      var front := later[..|later| - 1];
      LastPutStays(before, put, front);
      assert history[..|history| - 1] == before + [put] + front;
      assert history[|history| - 1] == later[|later| - 1];
    }
  }

  function PutKeys(history: seq<Timed>): set<Key> { set c | c in history && c.call.Put? :: c.call.k }

  /** `stats` counts the keys whose last put is live. */
  lemma StatsCountHistory(history: seq<Timed>, now: nat)
    requires Monotone(history) && (history != [] ==> history[|history| - 1].at <= now)
    ensures LiveKeys(Run(history).entries, now) == set k | k in PutKeys(history) && Expected(history, k, now).Some?
  {
    forall k
      ensures k in LiveKeys(Run(history).entries, now) <==> k in PutKeys(history) && Expected(history, k, now).Some?
    {
      EntriesAreLastPuts(history, k, now);
      LastPutWasPut(history, k);
    }
  }

  lemma {:induction false} LastPutWasPut(history: seq<Timed>, k: Key)
    ensures LastPut(history, k).Some? ==> k in PutKeys(history)
  {
    if history != [] { LastPutWasPut(history[..|history| - 1], k); }
  }

  function Gets(history: seq<Timed>, hits: bool): nat {
    if history == [] then 0
    else
      var last, earlier := history[|history| - 1], history[..|history| - 1];
      Gets(earlier, hits) + if last.call.Get? && Expected(earlier, last.call.k, last.at).Some? == hits then 1 else 0
  }

  /** The counters are the gets of the history that found something, and those that did not. */
  lemma {:induction false} CountersCountGets(history: seq<Timed>)
    requires Monotone(history)
    ensures Run(history).hits == Gets(history, true) && Run(history).misses == Gets(history, false)
  {
    if history != [] {
      var last, earlier := history[|history| - 1], history[..|history| - 1];
      CountersCountGets(earlier);
      if last.call.Get? { GetAnswersHistory(earlier, last.call.k, last.at); }
    }
  }
}
