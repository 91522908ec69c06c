/** Route patterns (`route.rs`): parsing, matching with captures, and conflict detection, with the
    conflict check of `checker.rs` and the dispatch of `runtime/server.rs` that rely on it. */
module Route {
  import opened Chars
  import opened Splitting
  import opened Wrappers

  datatype Segment = Literal(text: string) | Param(name: string) | CatchAll(name: string)

  datatype RoutePattern = RoutePattern(segments: seq<Segment>)

  predicate ValidName(s: string) { |s| > 0 && IsWordStart(s[0]) && forall i | 1 <= i < |s| :: IsWordChar(s[i]) }

  predicate ValidSegment(s: Segment) {
    match s
    case Literal(text) => text != "" && text[0] != ':' && '/' !in text
    case Param(name) => ValidName(name)
    case CatchAll(name) => ValidName(name)
  }

  /** What parsing guarantees of a pattern. */
  predicate WellFormed(p: RoutePattern) {
    && |p.segments| > 0
    && (forall i | 0 <= i < |p.segments| :: ValidSegment(p.segments[i]))
    && (forall i | 0 <= i < |p.segments| - 1 :: !p.segments[i].CatchAll?)
    && forall i, j | 0 <= i < j < |p.segments| && !p.segments[i].Literal? && !p.segments[j].Literal? ::
      p.segments[i].name != p.segments[j].name
  }

  // ----- printing and parsing -----

  function Text(s: Segment): string {
    match s
    case Literal(text) => text
    case Param(name) => ":" + name
    case CatchAll(name) => ":" + name + "*"
  }

  function Texts(segments: seq<Segment>): seq<string> { seq(|segments|, i requires 0 <= i < |segments| => Text(segments[i])) }

  function Print(p: RoutePattern): string { "/" + Join(Texts(p.segments), '/') }

  lemma PrintedParts(p: RoutePattern)
    requires WellFormed(p)
    ensures Split(Print(p)[1..], '/') == Texts(p.segments)
  {
    forall i | 0 <= i < |p.segments| ensures '/' !in Texts(p.segments)[i] {}
    assert Print(p)[1..] == Join(Texts(p.segments), '/');
    SplitJoin(Texts(p.segments), '/');
  }

  /** The one segment a part can be the text of. */
  function Reading(part: string): Segment {
    if part == "" || part[0] != ':' then Literal(part)
    else if |part| > 1 && part[|part| - 1] == '*' then CatchAll(part[1..|part| - 1])
    else Param(part[1..])
  }

  function Readings(parts: seq<string>): RoutePattern {
    RoutePattern(seq(|parts|, i requires 0 <= i < |parts| => Reading(parts[i])))
  }

  lemma ReadingOfText(s: Segment)
    requires ValidSegment(s)
    ensures Reading(Text(s)) == s
  {
    if s.Param? { assert Text(s)[|Text(s)| - 1] == s.name[|s.name| - 1]; }
  }

  lemma TextOfReading(part: string)
    ensures Text(Reading(part)) == part
  {
    if part != "" {
      assert part == [part[0]] + part[1..];
      assert |part| > 1 ==> part[1..] == part[1..|part| - 1] + [part[|part| - 1]];
      assert |part| > 1 ==> part == [part[0]] + part[1..|part| - 1] + [part[|part| - 1]];
    }
  }

  lemma ReadingsOfTexts(segments: seq<Segment>)
    requires forall i | 0 <= i < |segments| :: ValidSegment(segments[i])
    ensures Readings(Texts(segments)) == RoutePattern(segments)
  {
    hide Reading, Text, ValidSegment;
    forall i | 0 <= i < |segments| ensures Reading(Texts(segments)[i]) == segments[i] {
      ReadingOfText(segments[i]);
    }
    assert Readings(Texts(segments)).segments == segments;
  }

  lemma TextsOfReadings(parts: seq<string>)
    ensures Texts(Readings(parts).segments) == parts
  {
    hide Reading, Text;
    var texts := Texts(Readings(parts).segments);
    forall i | 0 <= i < |parts| ensures texts[i] == parts[i] {
      TextOfReading(parts[i]);
    }
  }

  /** A well-formed pattern is what its print reads as: printing loses nothing. */
  lemma PrintReads(p: RoutePattern)
    requires WellFormed(p)
    ensures Readings(Split(Print(p)[1..], '/')) == p
  {
    hide Split, Print, Readings, Texts, ValidSegment;
    PrintedParts(p);
    ReadingsOfTexts(p.segments);
  }

  lemma ReadsPrint(raw: string)
    requires raw != "" && raw[0] == '/'
    ensures Print(Readings(Split(raw[1..], '/'))) == raw
  {
    hide Split, Join, Readings, Texts;
    JoinSplit(raw[1..], '/');
    TextsOfReadings(Split(raw[1..], '/'));
    assert raw == "/" + raw[1..];
  }

  datatype ParseError = NoLeadingSlash | RootAlone | EmptySegment | CatchAllNotLast(at: nat) | InvalidName(at: nat) | RepeatedName(at: nat)

  /** A route text is accepted exactly when it is the print of a well-formed pattern, which is then the result. */
  method ParseRoutePattern(raw: string) returns (r: Result<RoutePattern, ParseError>)
    ensures r.Success? ==> WellFormed(r.value) && Print(r.value) == raw
    ensures r.Failure? ==> forall p | WellFormed(p) :: Print(p) != raw
  {
    forall p | WellFormed(p) && Print(p) == raw { PrintReads(p); }
    if raw == "" || raw[0] != '/' { return Failure(NoLeadingSlash); }
    ReadsPrint(raw);
    var rest := raw[1..];
    if rest == "" {
      assert !ValidSegment(Readings(Split(rest, '/')).segments[0]);
      return Failure(RootAlone);
    }
    var parts := Split(rest, '/');
    JoinSplit(rest, '/');
    r := ParseSegments(parts);
  }

  /** The segments one by one, with the parameter names seen so far. */
  method ParseSegments(parts: seq<string>) returns (r: Result<RoutePattern, ParseError>)
    requires |parts| > 0 && Free(parts, '/')
    ensures r.Success? <==> WellFormed(Readings(parts))
    ensures r.Success? ==> r.value == Readings(parts)
  {
    ghost var p := Readings(parts);
    if "" in parts {
      var k :| 0 <= k < |parts| && parts[k] == "";
      assert !ValidSegment(p.segments[k]);
      return Failure(EmptySegment);
    }
    var segments: seq<Segment> := [];
    var seenParams: seq<string> := [];
    for i := 0 to |parts|
      invariant segments == p.segments[..i]
      invariant forall k | 0 <= k < i :: ValidSegment(segments[k]) && (segments[k].CatchAll? ==> k == |parts| - 1)
      invariant forall k | 0 <= k < i && !segments[k].Literal? :: segments[k].name in seenParams
      invariant forall n | n in seenParams :: exists k :: 0 <= k < i && !segments[k].Literal? && segments[k].name == n
      invariant forall k, l | 0 <= k < l < i && !segments[k].Literal? && !segments[l].Literal? :: segments[k].name != segments[l].name
    {
      var part := parts[i];
      assert part in parts && p.segments[i] == Reading(part);
      if part[0] == ':' {
        var body := part[1..];
        var next := Param(body);
        if body != "" && body[|body| - 1] == '*' {
          next := CatchAll(body[..|body| - 1]);
          if i != |parts| - 1 { return Failure(CatchAllNotLast(i)); }
        }
        assert next == p.segments[i];
        if !ValidName(next.name) { return Failure(InvalidName(i)); }
        if next.name in seenParams { return Failure(RepeatedName(i)); }
        seenParams := seenParams + [next.name];
        segments := segments + [next];
      } else {
        segments := segments + [Literal(part)];
      }
    }
    return Success(RoutePattern(segments));
  }

  // ----- matching -----

  function HasCatchAll(p: RoutePattern): bool { |p.segments| > 0 && p.segments[|p.segments| - 1].CatchAll? }

  function FixedLen(p: RoutePattern): nat { if HasCatchAll(p) then |p.segments| - 1 else |p.segments| }

  /** The paths of a pattern: as long as it, or longer with a catch-all, and equal to it at every literal. */
  predicate Accepts(p: RoutePattern, path: seq<string>) {
    && (if HasCatchAll(p) then FixedLen(p) <= |path| else FixedLen(p) == |path|)
    && forall i | 0 <= i < FixedLen(p) && p.segments[i].Literal? :: p.segments[i].text == path[i]
  }

  function ParamNames(segments: seq<Segment>): seq<string> {
    if segments == [] then []
    else if segments[0].Literal? then ParamNames(segments[1..])
    else [segments[0].name] + ParamNames(segments[1..])
  }

  /** The path a list of captures comes from; an empty catch-all capture stands for no segments. */
  function Rebuilt(segments: seq<Segment>, captured: seq<string>): seq<string> {
    if segments == [] then []
    else if segments[0].Literal? then [segments[0].text] + Rebuilt(segments[1..], captured)
    else if captured == [] then []
    else if segments[0].Param? then [captured[0]] + Rebuilt(segments[1..], captured[1..])
    else if captured[0] == "" then []
    else Split(captured[0], '/')
  }

  function Captures(segments: seq<Segment>, path: seq<string>): seq<string> {
    if segments == [] then []
    else if segments[0].CatchAll? then [Join(path, '/')]
    else if path == [] then []
    else if segments[0].Param? then [path[0]] + Captures(segments[1..], path[1..])
    else Captures(segments[1..], path[1..])
  }

  lemma CapturesStep(segments: seq<Segment>, path: seq<string>, i: nat)
    requires i < |segments| && i < |path| && !segments[i].CatchAll?
    ensures var rest := Captures(segments[i + 1..], path[i + 1..]);
      Captures(segments[i..], path[i..]) == if segments[i].Param? then [path[i]] + rest else rest
  {
    assert segments[i..][1..] == segments[i + 1..] && path[i..][1..] == path[i + 1..];
  }

  /** One capture for each parameter, in the order of their names. */
  lemma {:induction false} CapturesAlign(segments: seq<Segment>, path: seq<string>)
    requires |path| >= |segments| - (if HasCatchAll(RoutePattern(segments)) then 1 else 0)
    requires forall i | 0 <= i < |segments| - 1 :: !segments[i].CatchAll?
    ensures |Captures(segments, path)| == |ParamNames(segments)|
  {
    if segments != [] {
      if segments[0].CatchAll? {
        assert segments[1..] == [];
      } else if |segments| > 1 {
        assert HasCatchAll(RoutePattern(segments[1..])) == HasCatchAll(RoutePattern(segments));
        CapturesAlign(segments[1..], path[1..]);
      }
    }
  }

  method Matches(p: RoutePattern, path: seq<string>) returns (r: Option<seq<string>>)
    requires WellFormed(p)
    ensures r.Some? <==> Accepts(p, path)
    ensures r.Some? ==> r.value == Captures(p.segments, path) && |r.value| == |ParamNames(p.segments)|
  {
    var fixedLen := FixedLen(p);
    if HasCatchAll(p) {
      if |path| < fixedLen { return None; }
    } else if |path| != fixedLen {
      return None;
    }
    var captured := [];
    assert p.segments[0..] == p.segments && path[0..] == path;
    for i := 0 to fixedLen
      invariant forall k | 0 <= k < i && p.segments[k].Literal? :: p.segments[k].text == path[k]
      invariant captured + Captures(p.segments[i..], path[i..]) == Captures(p.segments, path)
    {
      CapturesStep(p.segments, path, i);
      match p.segments[i] {
        case Literal(expected) => if expected != path[i] { return None; }
        case Param(_) => captured := captured + [path[i]];
        case CatchAll(_) => assert false;
      }
    }
    if HasCatchAll(p) {
      captured := captured + [Join(path[fixedLen..], '/')];
    }
    CapturesAlign(p.segments, path);
    return Some(captured);
  }

  lemma RebuiltStep(segments: seq<Segment>, path: seq<string>)
    requires segments != [] && path != [] && !segments[0].CatchAll? && (segments[0].Literal? ==> segments[0].text == path[0])
    ensures Rebuilt(segments, Captures(segments, path)) == [path[0]] + Rebuilt(segments[1..], Captures(segments[1..], path[1..]))
  {
    if segments[0].Param? { assert Captures(segments, path)[1..] == Captures(segments[1..], path[1..]); }
  }

  lemma CatchAllRebuilds(segments: seq<Segment>, path: seq<string>)
    requires segments != [] && segments[0].CatchAll? && Free(path, '/')
    ensures Rebuilt(segments, Captures(segments, path)) == path <==> path != [""]
  {
    if path != [] { SplitJoin(path, '/'); }
    assert Join(path, '/') == "" <==> path == [] || path == [""];
  }

  /** Substituting the captures rebuilds the path, except when the catch-all took exactly one empty
      segment: `/docs/` and `/docs` capture alike. */
  lemma {:induction false} CapturesRebuild(segments: seq<Segment>, path: seq<string>)
    requires forall i | 0 <= i < |segments| - 1 :: !segments[i].CatchAll?
    requires Accepts(RoutePattern(segments), path) && Free(path, '/')
    ensures var p := RoutePattern(segments);
      Rebuilt(segments, Captures(segments, path)) == path <==> !(HasCatchAll(p) && path[FixedLen(p)..] == [""])
    decreases |segments|
  {
    var p := RoutePattern(segments);
    if segments == [] {
    } else if segments[0].CatchAll? {
      assert path[0..] == path;
      CatchAllRebuilds(segments, path);
    } else {
      hide Captures, Rebuilt;
      var rest := RoutePattern(segments[1..]);
      assert FixedLen(rest) == FixedLen(p) - 1;
      forall i | 0 <= i < FixedLen(rest) && rest.segments[i].Literal?
        ensures rest.segments[i].text == path[1..][i]
      {
        assert segments[i + 1].Literal?;
      }
      CapturesRebuild(segments[1..], path[1..]);
      assert path[1..][FixedLen(rest)..] == path[FixedLen(p)..];
      RebuiltStep(segments, path);
      assert path == [path[0]] + path[1..];
    }
  }

  // ----- overlap, conflict, dispatch -----

  function Specificity(segments: seq<Segment>): nat {
    if segments == [] then 0 else (if segments[0].Literal? then 1 else 0) + Specificity(segments[1..])
  }

  function AreLiteral(segments: seq<Segment>): seq<bool> { seq(|segments|, i requires 0 <= i < |segments| => segments[i].Literal?) }

  /** The number of literal segments: a route that has a literal where another has a parameter comes first. */
  lemma {:induction false} SpecificityCounts(segments: seq<Segment>)
    ensures Specificity(segments) == multiset(AreLiteral(segments))[true]
  {
    if segments != [] {
      SpecificityCounts(segments[1..]);
      assert AreLiteral(segments) == [segments[0].Literal?] + AreLiteral(segments[1..]);
    }
  }

  predicate Compatible(a: Segment, b: Segment) { a.Literal? && b.Literal? ==> a.text == b.text }

  predicate OverlapPossible(p: RoutePattern, q: RoutePattern) {
    if !HasCatchAll(p) && !HasCatchAll(q) then
      |p.segments| == |q.segments| && forall i | 0 <= i < |p.segments| :: Compatible(p.segments[i], q.segments[i])
    else
      var pf, qf := FixedLen(p), FixedLen(q);
      && (HasCatchAll(p) || |p.segments| >= qf)
      && (HasCatchAll(q) || |q.segments| >= pf)
      && forall i | 0 <= i < pf && i < qf :: Compatible(p.segments[i], q.segments[i])
  }

  predicate ConflictsWith(p: RoutePattern, q: RoutePattern) {
    OverlapPossible(p, q) && Specificity(p.segments) == Specificity(q.segments)
  }

  /** A path as a request has it: at least one segment, here none of them empty. */
  predicate RealPath(path: seq<string>) { |path| > 0 && Free(path, '/') && "" !in path }

  function FixedText(p: RoutePattern, i: nat): string { if i < FixedLen(p) && p.segments[i].Literal? then p.segments[i].text else "" }

  lemma CommonPathOverlaps(p: RoutePattern, q: RoutePattern, path: seq<string>)
    requires Accepts(p, path) && Accepts(q, path)
    ensures OverlapPossible(p, q)
  {}

  /** Overlap is exact: it holds if and only if some request path is matched by both patterns. */
  lemma OverlapIsExact(p: RoutePattern, q: RoutePattern)
    requires WellFormed(p) && WellFormed(q)
    ensures OverlapPossible(p, q) <==> exists path :: RealPath(path) && Accepts(p, path) && Accepts(q, path)
  {
    if path :| RealPath(path) && Accepts(p, path) && Accepts(q, path) { CommonPathOverlaps(p, q, path); }
    if OverlapPossible(p, q) {
      var n := if FixedLen(p) < FixedLen(q) then FixedLen(q) else FixedLen(p);
      n := if n == 0 then 1 else n;
      var path := seq(n, i requires 0 <= i =>
        if FixedText(p, i) != "" then FixedText(p, i) else if FixedText(q, i) != "" then FixedText(q, i) else "x");
      assert Accepts(p, path);
      forall i | 0 <= i < FixedLen(q) && q.segments[i].Literal?
        ensures q.segments[i].text == path[i]
      {
        if i < FixedLen(p) { assert Compatible(p.segments[i], q.segments[i]); }
      }
      assert RealPath(path) && Accepts(q, path);
    }
  }

  lemma OverlapIsSymmetric(p: RoutePattern, q: RoutePattern)
    ensures OverlapPossible(p, q) == OverlapPossible(q, p) && ConflictsWith(p, q) == ConflictsWith(q, p)
  {
    assert forall a: Segment, b: Segment :: Compatible(a, b) == Compatible(b, a);
  }

  ghost predicate ConflictFree(table: seq<RoutePattern>) {
    forall i, j | 0 <= i < j < |table| :: !ConflictsWith(table[i], table[j])
  }

  lemma NoConflicts()
    ensures ConflictFree([])
  {}

  lemma ConflictFreeSoFar(routes: seq<RoutePattern>, i: nat)
    requires i < |routes|
    ensures ConflictFree(routes[..i + 1]) <==> ConflictFree(routes[..i]) && forall k | 0 <= k < i :: !ConflictsWith(routes[k], routes[i])
  {
    hide ConflictsWith;
    var seen, next := routes[..i], routes[..i + 1];
    assert forall a | 0 <= a < i :: next[a] == seen[a] == routes[a];
    assert next[i] == routes[i];
  }

  /** `check_route_conflicts`: no report exactly when no two routes conflict. */
  method CheckRouteConflicts(routes: seq<RoutePattern>) returns (reported: seq<nat>)
    ensures reported == [] <==> ConflictFree(routes)
  {
    hide ConflictsWith, ConflictFree;
    assert ConflictFree([]) by { NoConflicts(); }
    reported := [];
    var seen: seq<RoutePattern> := [];
    for i := 0 to |routes|
      invariant seen == routes[..i]
      invariant reported == [] <==> ConflictFree(routes[..i])
    {
      var k := 0;
      while k < |seen| && !ConflictsWith(seen[k], routes[i])
        invariant k <= |seen|
        invariant forall l | 0 <= l < k :: !ConflictsWith(seen[l], routes[i])
      {
        k := k + 1;
      }
      if k < |seen| { reported := reported + [i]; }
      ConflictFreeSoFar(routes, i);
      seen := seen + [routes[i]];
    }
    assert routes[..|routes|] == routes;
  }

  /** `/:rest*` alone: it accepts every path, so dispatch tries it last. */
  predicate IsFullCatchAll(p: RoutePattern) { FixedLen(p) == 0 && HasCatchAll(p) }

  lemma FullCatchAllExactly(p: RoutePattern)
    requires WellFormed(p)
    ensures IsFullCatchAll(p) <==> forall path :: Accepts(p, path)
  {
    if !IsFullCatchAll(p) {
      assert !Accepts(p, []);
    }
  }

  /** The patterns that accept the address of every rpc: those without literals, if of two segments, or of at most two
      before a catch-all.  All but the bare catch-all are tried before the services. */
  lemma AnyAddressExactly(p: RoutePattern)
    requires WellFormed(p)
    ensures (forall service, rpc :: Accepts(p, [service, rpc]))
      <==> Specificity(p.segments) == 0 && (if HasCatchAll(p) then FixedLen(p) <= 2 else FixedLen(p) == 2)
  {
    SpecificityCounts(p.segments);
    if i :| 0 <= i < |p.segments| && p.segments[i].Literal? {
      assert AreLiteral(p.segments)[i];
      assert p.segments[i].text != "" && !Accepts(p, ["", ""]);
    } else {
      assert true !in AreLiteral(p.segments);
      if forall service, rpc :: Accepts(p, [service, rpc]) { assert Accepts(p, ["", ""]); }
    }
  }

  /** Route `i` accepts the path and is strictly more specific than every other route of its kind that does. */
  ghost predicate Wins(table: seq<RoutePattern>, path: seq<string>, full: bool, i: nat) {
    && i < |table| && Accepts(table[i], path) && IsFullCatchAll(table[i]) == full
    && forall j | 0 <= j < |table| && j != i && Accepts(table[j], path) && IsFullCatchAll(table[j]) == full ::
      Specificity(table[j].segments) < Specificity(table[i].segments)
  }

  ghost predicate Dispatchable(table: seq<RoutePattern>) {
    && ConflictFree(table) && (forall i | 0 <= i < |table| :: WellFormed(table[i]))
    && forall i, j | 0 <= i <= j < |table| :: Specificity(table[i].segments) >= Specificity(table[j].segments)
  }

  /** In a conflict-free table ordered by specificity the first match is the one winner, so the
      order of equally specific routes does not matter. */
  method FindRoute(table: seq<RoutePattern>, path: seq<string>, full: bool) returns (r: Option<(nat, seq<string>)>)
    requires Dispatchable(table)
    ensures r.Some? ==> Wins(table, path, full, r.value.0) && r.value.1 == Captures(table[r.value.0].segments, path)
    ensures r.None? ==> forall i | 0 <= i < |table| && IsFullCatchAll(table[i]) == full :: !Accepts(table[i], path)
  {
    for i := 0 to |table|
      invariant forall j | 0 <= j < i && IsFullCatchAll(table[j]) == full :: !Accepts(table[j], path)
    {
      if IsFullCatchAll(table[i]) == full {
        var m := Matches(table[i], path);
        if m.Some? {
          forall j | 0 <= j < |table| && j != i && Accepts(table[j], path) && IsFullCatchAll(table[j]) == full
            ensures Specificity(table[j].segments) < Specificity(table[i].segments)
          {
            CommonPathOverlaps(table[i], table[j], path);
            assert !ConflictsWith(table[i], table[j]);
          }
          return Some((i, m.value));
        }
      }
    }
    return None;
  }

  datatype Target = ToRoute(index: nat, captured: seq<string>) | ToRpc(service: string, rpc: string) | NotFound

  /** `parse_path`: the address of an rpc has exactly two segments. */
  predicate IsRpcPath(path: seq<string>) { |path| == 2 }

  /** `resolve_route`: a proper route first, then the address of a declared service, then `/:rest*`,
      and last any two segments, taken as a service and an rpc that nobody declared. */
  method ResolveRoute(table: seq<RoutePattern>, path: seq<string>, services: set<string>) returns (target: Target)
    requires Dispatchable(table)
    ensures target.ToRoute? ==>
      && (exists full :: Wins(table, path, full, target.index) && (full && IsRpcPath(path) ==> path[0] !in services))
      && target.captured == Captures(table[target.index].segments, path)
    ensures target.ToRpc? ==>
      && path == [target.service, target.rpc]
      && forall i | 0 <= i < |table| && Accepts(table[i], path) :: IsFullCatchAll(table[i]) && target.service in services
    ensures target.NotFound? <==> !IsRpcPath(path) && forall i | 0 <= i < |table| :: !Accepts(table[i], path)
  {
    var proper := FindRoute(table, path, false);
    if proper.Some? { return ToRoute(proper.value.0, proper.value.1); }
    if IsRpcPath(path) && path[0] in services { return ToRpc(path[0], path[1]); }
    var catchAll := FindRoute(table, path, true);
    if catchAll.Some? { return ToRoute(catchAll.value.0, catchAll.value.1); }
    if IsRpcPath(path) { return ToRpc(path[0], path[1]); }
    return NotFound;
  }

  lemma WinnerIsUnique(table: seq<RoutePattern>, path: seq<string>, full: bool, i: nat, j: nat)
    requires Wins(table, path, full, i) && Wins(table, path, full, j)
    ensures i == j
  {}
}
