/** The store behind `@idempotent` (`idempotency.rs`).  Every operation takes the instant at which
    it runs, in nanoseconds; the mutex around the store makes each operation one atomic step. */
module Idempotency {
  const SECOND: nat := 1_000_000_000
  const ENTRY_TTL: nat := 24 * 3600 * SECOND
  const IN_FLIGHT_STALE_AFTER: nat := 120 * SECOND
  const SWEEP_EVERY: nat := 1000

  type Key = (string, string, string)  // service, rpc, idempotency key

  datatype Response = Response(status: nat, body: string, contentType: string)

  datatype Entry =
    | InFlight(requestHash: string, startedAt: nat)
    | Done(requestHash: string, response: Response, storedAt: nat)

  datatype Lookup = Reserved | Hit(response: Response) | Conflict | Busy

  type Entries = map<Key, Entry>

  function Since(now: nat, t: nat): nat { if now < t then 0 else now - t }

  predicate Expired(e: Entry, now: nat) {
    match e
    case Done(_, _, storedAt) => Since(now, storedAt) > ENTRY_TTL
    case InFlight(_, startedAt) => Since(now, startedAt) > IN_FLIGHT_STALE_AFTER
  }

  // ----- the store without sweeps -----

  predicate Reclaims(entries: Entries, k: Key, now: nat) { k !in entries || Expired(entries[k], now) }

  function Answer(entries: Entries, k: Key, hash: string, now: nat): Lookup {
    if Reclaims(entries, k, now) then Reserved
    else if entries[k].requestHash != hash then Conflict
    else if entries[k].Done? then Hit(entries[k].response)
    else Busy
  }

  function AfterReserve(entries: Entries, k: Key, hash: string, now: nat): Entries {
    if Reclaims(entries, k, now) then entries[k := InFlight(hash, now)] else entries
  }

  // ----- the store with sweeps -----

  datatype Store = Store(entries: Entries, checks: nat)

  function Swept(s: Store, now: nat): Store {
    if s.checks + 1 < SWEEP_EVERY then s.(checks := s.checks + 1)
    else Store(map k | k in s.entries && !Expired(s.entries[k], now) :: s.entries[k], 0)
  }

  class IdempotencyStore {
    var entries: Entries
    var checksSinceSweep: nat

    ghost function State(): Store
      reads this
    {
      Store(entries, checksSinceSweep)
    }

    constructor ()
      ensures State() == Store(map[], 0)
    {
      entries, checksSinceSweep := map[], 0;
    }

    method SweepIfDue(now: nat)
      modifies this
      ensures State() == Swept(old(State()), now)
    {
      checksSinceSweep := checksSinceSweep + 1;
      if checksSinceSweep < SWEEP_EVERY { return; }
      checksSinceSweep := 0;
      entries := map k | k in entries && !Expired(entries[k], now) :: entries[k];
    }

    method Reserve(k: Key, hash: string, now: nat) returns (r: Lookup)
      modifies this
      ensures r == Answer(Swept(old(State()), now).entries, k, hash, now)
      ensures entries == AfterReserve(Swept(old(State()), now).entries, k, hash, now)
      ensures checksSinceSweep == Swept(old(State()), now).checks
    {
      SweepIfDue(now);
      var reclaim := true;
      if k in entries {
        match entries[k] {
          case Done(_, _, storedAt) => reclaim := Since(now, storedAt) > ENTRY_TTL;
          case InFlight(_, startedAt) => reclaim := Since(now, startedAt) > IN_FLIGHT_STALE_AFTER;
        }
      }
      if reclaim {
        entries := entries[k := InFlight(hash, now)];
        return Reserved;
      }
      match entries[k] {
        case Done(h, response, _) =>
          if h != hash { return Conflict; }
          return Hit(response);
        case InFlight(h, _) =>
          if h != hash { return Conflict; }
          return Busy;
      }
    }

    method Complete(k: Key, hash: string, response: Response, now: nat)
      modifies this`entries
      ensures entries == old(entries)[k := Done(hash, response, now)]
    {
      entries := entries[k := Done(hash, response, now)];
    }

    method Release(k: Key)
      modifies this`entries
      ensures entries == old(entries) - {k}
    {
      entries := entries - {k};
    }
  }

  // ----- sweeps are invisible -----

  datatype Call =
    | Reserve(k: Key, hash: string)
    | Complete(k: Key, hash: string, response: Response)
    | Release(k: Key)

  datatype Timed = Timed(call: Call, at: nat)

  /** What a caller sees: a reserve is answered, the other calls return nothing. */
  function Seen(entries: Entries, c: Timed): Lookup {
    if c.call.Reserve? then Answer(entries, c.call.k, c.call.hash, c.at) else Reserved
  }

  function After(entries: Entries, c: Timed): Entries {
    match c.call
    case Reserve(k, hash) => AfterReserve(entries, k, hash, c.at)
    case Complete(k, hash, response) => entries[k := Done(hash, response, c.at)]
    case Release(k) => entries - {k}
  }

  function BeforeCall(s: Store, c: Timed): Store { if c.call.Reserve? then Swept(s, c.at) else s }

  function AfterSweeping(s: Store, c: Timed): Store {
    var swept := BeforeCall(s, c);
    Store(After(swept.entries, c), swept.checks)
  }

  function Answers(entries: Entries, calls: seq<Timed>): seq<Lookup>
    decreases calls
  {
    if calls == [] then [] else [Seen(entries, calls[0])] + Answers(After(entries, calls[0]), calls[1..])
  }

  function AnswersSweeping(s: Store, calls: seq<Timed>): seq<Lookup>
    decreases calls
  {
    if calls == [] then []
    else [Seen(BeforeCall(s, calls[0]).entries, calls[0])] + AnswersSweeping(AfterSweeping(s, calls[0]), calls[1..])
  }

  predicate Monotone(from: nat, calls: seq<Timed>)
    decreases calls
  {
    calls == [] || (from <= calls[0].at && Monotone(calls[0].at, calls[1..]))
  }

  /** The swept store lacks nothing but entries that have expired by `now`. */
  ghost predicate Simulates(swept: Entries, full: Entries, now: nat) {
    && (forall k | k in swept :: k in full && swept[k] == full[k])
    && forall k | k in full && k !in swept :: Expired(full[k], now)
  }

  lemma CallSimulates(s: Store, full: Entries, c: Timed, now: nat)
    requires Simulates(s.entries, full, now) && now <= c.at
    ensures Seen(BeforeCall(s, c).entries, c) == Seen(full, c)
    ensures Simulates(AfterSweeping(s, c).entries, After(full, c), c.at)
  {
    assert Simulates(BeforeCall(s, c).entries, full, c.at);
  }

  /** On a monotone clock every sequence of calls is answered as if nothing were ever swept. */
  lemma {:induction false} SweepsAreInvisible(s: Store, full: Entries, calls: seq<Timed>, now: nat)
    requires Simulates(s.entries, full, now) && Monotone(now, calls)
    ensures AnswersSweeping(s, calls) == Answers(full, calls)
    decreases calls
  {
    if calls != [] {
      CallSimulates(s, full, calls[0], now);
      SweepsAreInvisible(AfterSweeping(s, calls[0]), After(full, calls[0]), calls[1..], calls[0].at);
    }
  }

  // ----- the protocol: reserve, run the rpc, then complete or release -----

  type Caller = nat

  datatype Holder = Holder(k: Key, hash: string, since: nat)

  datatype Completion = Completion(hash: string, response: Response, at: nat)

  /** `holders` are the callers that were told `Reserved` and have not finished, `completed` the
      last completion of each key. */
  datatype World = World(store: Store, holders: map<Caller, Holder>, completed: map<Key, Completion>, now: nat)

  datatype Event =
    | Arrives(caller: Caller, k: Key, hash: string, at: nat)
    | Succeeds(caller: Caller, response: Response, at: nat)
    | Fails(caller: Caller, at: nat)

  predicate Active(h: Holder, now: nat, deadline: nat) { now <= h.since + deadline }

  /** A caller arrives once; only an unfinished holder finishes, and no later than `deadline` after it
      reserved.  A holder may also never finish: its thread died. */
  predicate Legal(w: World, e: Event, deadline: nat) {
    match e
    case Arrives(caller, _, _, at) => w.now <= at && caller !in w.holders
    case Succeeds(caller, _, at) => w.now <= at && caller in w.holders && Active(w.holders[caller], at, deadline)
    case Fails(caller, at) => w.now <= at && caller in w.holders && Active(w.holders[caller], at, deadline)
  }

  function Next(w: World, e: Event): World
    requires e.Arrives? || e.caller in w.holders
  {
    match e
    case Arrives(caller, k, hash, at) =>
      var call := Timed(Reserve(k, hash), at);
      var answer := Seen(BeforeCall(w.store, call).entries, call);
      World(AfterSweeping(w.store, call),
            if answer.Reserved? then w.holders[caller := Holder(k, hash, at)] else w.holders, w.completed, at)
    case Succeeds(caller, response, at) =>
      var h := w.holders[caller];
      World(AfterSweeping(w.store, Timed(Complete(h.k, h.hash, response), at)), w.holders - {caller},
            w.completed[h.k := Completion(h.hash, response, at)], at)
    case Fails(caller, at) =>
      World(AfterSweeping(w.store, Timed(Release(w.holders[caller].k), at)), w.holders - {caller}, w.completed, at)
  }

  /** The mark of the holder has not gone stale. */
  predicate Stands(h: Holder, now: nat) { Active(h, now, IN_FLIGHT_STALE_AFTER) }

  /** A holder whose mark has not gone stale still has it in the store, and nobody else holds its key. */
  ghost predicate Consistent(w: World) {
    && (forall c | c in w.holders && Stands(w.holders[c], w.now) ::
        var h := w.holders[c]; h.k in w.store.entries && w.store.entries[h.k] == InFlight(h.hash, h.since))
    && (forall c, d | c in w.holders && d in w.holders && c != d && Stands(w.holders[c], w.now) && Stands(w.holders[d], w.now) ::
        w.holders[c].k != w.holders[d].k)
    && (forall k | k in w.completed && w.now <= w.completed[k].at + ENTRY_TTL ::
        var done := w.completed[k]; k in w.store.entries && w.store.entries[k] == Done(done.hash, done.response, done.at))
    && (forall c | c in w.holders :: w.holders[c].since <= w.now)
    && forall k | k in w.completed :: w.completed[k].at <= w.now
  }

  lemma UnexpiredIsKept(s: Store, c: Timed)
    ensures var swept := BeforeCall(s, c).entries;
      && (forall k | k in swept :: k in s.entries && swept[k] == s.entries[k])
      && forall k | k in s.entries && !Expired(s.entries[k], c.at) :: k in swept && swept[k] == s.entries[k]
  {}

  lemma ArrivalIsConsistent(w: World, e: Event, deadline: nat)
    requires Consistent(w) && Legal(w, e, deadline) && e.Arrives?
    ensures Consistent(Next(w, e))
  {
    UnexpiredIsKept(w.store, Timed(Reserve(e.k, e.hash), e.at));
    hide BeforeCall, Swept;
  }

  lemma FinishIsConsistent(w: World, e: Event, deadline: nat)
    requires Consistent(w) && Legal(w, e, deadline) && !e.Arrives? && deadline <= IN_FLIGHT_STALE_AFTER
    ensures Consistent(Next(w, e))
  {}

  lemma NextIsConsistent(w: World, e: Event, deadline: nat)
    requires Consistent(w) && Legal(w, e, deadline) && deadline <= IN_FLIGHT_STALE_AFTER
    ensures Consistent(Next(w, e))
  {
    if e.Arrives? { ArrivalIsConsistent(w, e, deadline); } else { FinishIsConsistent(w, e, deadline); }
  }

  /** While a mark stands, another caller of its key is told to wait, or is refused when its body differs. */
  lemma StandingMarkBlocks(w: World, holder: Caller, hash: string, at: nat)
    requires Consistent(w) && holder in w.holders && w.now <= at && Stands(w.holders[holder], at)
    ensures var h := w.holders[holder];
      var call := Timed(Reserve(h.k, hash), at);
      Seen(BeforeCall(w.store, call).entries, call) == if hash == h.hash then Busy else Conflict
  {
    UnexpiredIsKept(w.store, Timed(Reserve(w.holders[holder].k, hash), at));
    hide BeforeCall, Swept;
    assert Stands(w.holders[holder], w.now);
  }

  ghost predicate LegalRun(w: World, events: seq<Event>, deadline: nat)
    decreases events
  {
    events == [] || (Legal(w, events[0], deadline) && LegalRun(Next(w, events[0]), events[1..], deadline))
  }

  ghost function Run(w: World, events: seq<Event>, deadline: nat): World
    requires LegalRun(w, events, deadline)
    decreases events
  {
    if events == [] then w else Run(Next(w, events[0]), events[1..], deadline)
  }

  lemma {:induction false} RunIsConsistent(w: World, events: seq<Event>, deadline: nat)
    requires Consistent(w) && LegalRun(w, events, deadline) && deadline <= IN_FLIGHT_STALE_AFTER
    ensures Consistent(Run(w, events, deadline))
    decreases events
  {
    if events != [] {
      NextIsConsistent(w, events[0], deadline);
      RunIsConsistent(Next(w, events[0]), events[1..], deadline);
    }
  }

  predicate Untouched(k: Key, from: World, to: World) {
    k in from.completed && k in to.completed && to.completed[k] == from.completed[k]
  }

  /** For 24 h after a completion nobody else can complete the key, whatever happens in between. */
  lemma {:induction false} CompletionStands(w: World, events: seq<Event>, k: Key, deadline: nat)
    requires Consistent(w) && LegalRun(w, events, deadline) && k in w.completed && deadline <= IN_FLIGHT_STALE_AFTER
    requires Run(w, events, deadline).now <= w.completed[k].at + ENTRY_TTL
    ensures Untouched(k, w, Run(w, events, deadline)) && w.now <= Run(w, events, deadline).now
    decreases events
  {
    if events != [] {
      var next := Next(w, events[0]);
      NextIsConsistent(w, events[0], deadline);
      TimePasses(next, events[1..], deadline);
      CompletionStands(next, events[1..], k, deadline);
    }
  }

  lemma {:induction false} TimePasses(w: World, events: seq<Event>, deadline: nat)
    requires LegalRun(w, events, deadline)
    ensures w.now <= Run(w, events, deadline).now
    decreases events
  {
    if events != [] { TimePasses(Next(w, events[0]), events[1..], deadline); }
  }

  /** Once `caller` has completed its key, every retry within 24 h replays exactly that response, or
      is refused when its body differs, after any run in between. */
  lemma RetryReplays(w: World, caller: Caller, response: Response, at: nat, events: seq<Event>, hash: string, later: nat,
                     deadline: nat)
    requires Consistent(w) && Legal(w, Succeeds(caller, response, at), deadline) && deadline <= IN_FLIGHT_STALE_AFTER
    requires LegalRun(Next(w, Succeeds(caller, response, at)), events, deadline)
    requires Run(Next(w, Succeeds(caller, response, at)), events, deadline).now <= later <= at + ENTRY_TTL
    ensures var k := w.holders[caller].k;
      var call := Timed(Reserve(k, hash), later);
      var after := Run(Next(w, Succeeds(caller, response, at)), events, deadline);
      Seen(BeforeCall(after.store, call).entries, call) == if hash == w.holders[caller].hash then Hit(response) else Conflict
  {
    var k := w.holders[caller].k;
    var done := Next(w, Succeeds(caller, response, at));
    NextIsConsistent(w, Succeeds(caller, response, at), deadline);
    RunIsConsistent(done, events, deadline);
    CompletionStands(done, events, k, deadline);
  }

  /** After 24 h the key may be reserved anew, whatever the body. */
  lemma CompletionLapses(w: World, caller: Caller, response: Response, at: nat, hash: string, later: nat, deadline: nat)
    requires Legal(w, Succeeds(caller, response, at), deadline) && later > at + ENTRY_TTL
    ensures var call := Timed(Reserve(w.holders[caller].k, hash), later);
      Seen(BeforeCall(Next(w, Succeeds(caller, response, at)).store, call).entries, call) == Reserved
  {}

  // ----- the deadline that makes the protocol safe -----

  const START := World(Store(map[], 0), map[], map[], 0)

  lemma StartIsConsistent()
    ensures Consistent(START)
  {}

  /** In every run from an empty store, no two unfinished holders within their deadline share a key. */
  ghost predicate HoldersAreExclusive(deadline: nat) {
    forall events, c, d | LegalRun(START, events, deadline) && c != d :: NotBothHold(Run(START, events, deadline), c, d, deadline)
  }

  predicate NotBothHold(w: World, c: Caller, d: Caller, deadline: nat) {
    c in w.holders && d in w.holders && Active(w.holders[c], w.now, deadline) && Active(w.holders[d], w.now, deadline) ==>
      w.holders[c].k != w.holders[d].k
  }

  /** In every run from an empty store, what a holder completes is not completed anew within 24 h. */
  ghost predicate CompletionsStand(deadline: nat) {
    forall events, more, k |
      LegalRun(START, events, deadline) && LegalRun(Run(START, events, deadline), more, deadline)
      && k in Run(START, events, deadline).completed ::
      StandsUntil(Run(START, events, deadline), Run(Run(START, events, deadline), more, deadline), k)
  }

  predicate StandsUntil(w: World, later: World, k: Key)
    requires k in w.completed
  {
    later.now <= w.completed[k].at + ENTRY_TTL ==> Untouched(k, w, later)
  }

  lemma SafeDeadline(deadline: nat)
    requires deadline <= IN_FLIGHT_STALE_AFTER
    ensures HoldersAreExclusive(deadline) && CompletionsStand(deadline)
  {
    StartIsConsistent();
    forall events, c, d | LegalRun(START, events, deadline) && c != d
      ensures NotBothHold(Run(START, events, deadline), c, d, deadline)
    {
      RunIsConsistent(START, events, deadline);
    }
    forall events, more, k |
      LegalRun(START, events, deadline) && LegalRun(Run(START, events, deadline), more, deadline)
      && k in Run(START, events, deadline).completed
      ensures StandsUntil(Run(START, events, deadline), Run(Run(START, events, deadline), more, deadline), k)
    {
      var w := Run(START, events, deadline);
      RunIsConsistent(START, events, deadline);
      if Run(w, more, deadline).now <= w.completed[k].at + ENTRY_TTL { CompletionStands(w, more, k, deadline); }
    }
  }

  const STALE: nat := IN_FLIGHT_STALE_AFTER + 1

  /** Caller 1 retries when the mark of caller 0 has just gone stale. */
  function TakeOver(k: Key, hash: string): seq<Event> { [Arrives(0, k, hash, 0), Arrives(1, k, hash, STALE)] }

  lemma BothHold(k: Key, hash: string, deadline: nat)
    requires deadline > IN_FLIGHT_STALE_AFTER
    ensures LegalRun(START, TakeOver(k, hash), deadline)
    ensures var w := Run(START, TakeOver(k, hash), deadline);
      && w.holders == map[0 := Holder(k, hash, 0), 1 := Holder(k, hash, STALE)]
      && w.now == STALE && w.completed == map[]
      && !NotBothHold(w, 0, 1, deadline)
  {
    var first := Next(START, TakeOver(k, hash)[0]);
    var second := Next(first, TakeOver(k, hash)[1]);
    assert TakeOver(k, hash)[1..] == [TakeOver(k, hash)[1]];
    assert TakeOver(k, hash)[1..][1..] == [];
    assert LegalRun(second, [], deadline) && Run(second, [], deadline) == second;
    assert LegalRun(first, TakeOver(k, hash)[1..], deadline) && Run(first, TakeOver(k, hash)[1..], deadline) == second;
    assert second.holders == map[0 := Holder(k, hash, 0), 1 := Holder(k, hash, STALE)];
  }

  predicate Holds(w: World, k: Key, e: Entry) { k in w.store.entries && w.store.entries[k] == e }

  /** Past 120 s both callers run the rpc, and the one that took the key over completes it after the
      first already has. */
  lemma LateCompletionOverwrites(k: Key, hash: string, response: Response, other: Response, deadline: nat)
    requires deadline > IN_FLIGHT_STALE_AFTER && LegalRun(START, TakeOver(k, hash), deadline)
    ensures var w := Run(START, TakeOver(k, hash), deadline);
      var late, again := Succeeds(0, response, STALE), Succeeds(1, other, STALE);
      && Legal(w, late, deadline)
      && var done := Next(w, late);
      && Holds(done, k, Done(hash, response, STALE)) && 1 in done.holders
      && Legal(done, again, deadline)
      && Holds(Next(done, again), k, Done(hash, other, STALE))
  {
    BothHold(k, hash, deadline);
  }

  /** Both guarantees hold exactly when holders finish before their mark goes stale. */
  lemma SafeExactly(deadline: nat)
    ensures HoldersAreExclusive(deadline) <==> deadline <= IN_FLIGHT_STALE_AFTER
    ensures CompletionsStand(deadline) <==> deadline <= IN_FLIGHT_STALE_AFTER
  {
    if deadline <= IN_FLIGHT_STALE_AFTER {
      SafeDeadline(deadline);
    } else {
      var k: Key := ("", "", "");
      BothHold(k, "", deadline);
      assert !HoldersAreExclusive(deadline);
      OverwrittenCompletion(k, deadline);
    }
  }

  lemma OverwrittenCompletion(k: Key, deadline: nat)
    requires deadline > IN_FLIGHT_STALE_AFTER
    ensures !CompletionsStand(deadline)
  {
    var late := Succeeds(0, Response(200, "", ""), STALE);
    var again := Succeeds(1, Response(500, "", ""), STALE);
    BothHold(k, "", deadline);
    LateCompletionOverwrites(k, "", late.response, again.response, deadline);
    RunThen(START, TakeOver(k, ""), late, deadline);
    RunThen(Run(START, TakeOver(k, "") + [late], deadline), [], again, deadline);
    assert [again] == [] + [again];
    assert !StandsUntil(Run(START, TakeOver(k, "") + [late], deadline),
                        Run(Run(START, TakeOver(k, "") + [late], deadline), [again], deadline), k);
  }

  lemma {:induction false} RunThen(w: World, events: seq<Event>, e: Event, deadline: nat)
    requires LegalRun(w, events, deadline) && Legal(Run(w, events, deadline), e, deadline)
    ensures LegalRun(w, events + [e], deadline)
    ensures Run(w, events + [e], deadline) == Next(Run(w, events, deadline), e)
    decreases events
  {
    if events == [] {
      assert events + [e] == [e];
      assert [e][1..] == [];
    } else {
      assert (events + [e])[1..] == events[1..] + [e];
      RunThen(Next(w, events[0]), events[1..], e, deadline);
    }
  }
}
