/** The route tables of the router: registration, which deletes from a slice in place while it ranges over it, and
    dispatch to the first route that matches. */
module Routes {
  import opened Strings
  import opened Wrappers

  datatype Method = GET | POST | PUT | PATCH | DELETE | HEAD | OPTIONS | WS | SSE

  datatype Route = Route(pattern: string, handler: nat, origins: seq<string>)

  // ---------------------------------------------------------------- what a registration means

  predicate Distinct(t: seq<Route>) {
    forall i, j :: 0 <= i < j < |t| ==> t[i].pattern != t[j].pattern
  }

  function Without(t: seq<Route>, p: string): seq<Route> {
    if t == [] then []
    else if t[0].pattern == p then Without(t[1..], p)
    else [t[0]] + Without(t[1..], p)
  }

  /** One registration: the old route of that pattern goes, and the new one comes last. */
  function Registered(t: seq<Route>, r: Route): seq<Route> {
    Without(t, r.pattern) + [r]
  }

  lemma {:induction false} WithoutMembers(t: seq<Route>, p: string)
    ensures forall r :: r in Without(t, p) <==> r in t && r.pattern != p
  {
    if t != [] {
      WithoutMembers(t[1..], p);
      assert t == [t[0]] + t[1..];
    }
  }

  lemma {:induction false} WithoutAbsent(t: seq<Route>, p: string)
    requires NoneOf(t, p)
    ensures Without(t, p) == t
  {
    if t != [] {
      WithoutAbsent(t[1..], p);
    }
  }

  lemma WithoutFirst(r: Route, t: seq<Route>, p: string)
    ensures Without([r] + t, p) == (if r.pattern == p then [] else [r]) + Without(t, p)
  {
    assert ([r] + t)[1..] == t;
  }

  lemma {:induction false} WithoutAppend(a: seq<Route>, b: seq<Route>, p: string)
    ensures Without(a + b, p) == Without(a, p) + Without(b, p)
  {
    if a == [] {
      assert a + b == b;
    } else {
      hide *;
      var r, rest := a[0], a[1..];
      assert a == [r] + rest && a + b == [r] + (rest + b);
      WithoutAppend(rest, b, p);
      WithoutFirst(r, rest, p);
      WithoutFirst(r, rest + b, p);
    }
  }

  lemma WithoutMiddle(a: seq<Route>, x: Route, b: seq<Route>)
    requires NoneOf(a, x.pattern) && NoneOf(b, x.pattern)
    ensures Without(a + ([x] + b), x.pattern) == a + b
  {
    hide *;
    WithoutAppend(a, [x] + b, x.pattern);
    WithoutFirst(x, b, x.pattern);
    WithoutAbsent(a, x.pattern);
    WithoutAbsent(b, x.pattern);
  }

  lemma WithoutOne(t: seq<Route>, g: nat)
    requires g < |t| && Distinct(t)
    ensures Without(t, t[g].pattern) == t[..g] + t[g + 1..]
  {
    hide *;
    OthersDiffer(t, g);
    WithoutMiddle(t[..g], t[g], t[g + 1..]);
    Parts(t, g);
  }

  lemma Parts(t: seq<Route>, g: nat)
    requires g < |t|
    ensures t[..g] + ([t[g]] + t[g + 1..]) == t
  {
  }

  predicate NoneOf(t: seq<Route>, p: string) {
    forall i :: 0 <= i < |t| ==> t[i].pattern != p
  }

  lemma OthersDiffer(t: seq<Route>, g: nat)
    requires g < |t| && Distinct(t)
    ensures NoneOf(t[..g], t[g].pattern) && NoneOf(t[g + 1..], t[g].pattern)
  {
  }

  lemma {:induction false} WithoutDistinct(t: seq<Route>, p: string)
    requires Distinct(t)
    ensures Distinct(Without(t, p))
  {
    if t != [] {
      WithoutDistinct(t[1..], p);
      WithoutMembers(t[1..], p);
      var rest := Without(t[1..], p);
      forall i | 0 <= i < |rest| ensures rest[i].pattern != t[0].pattern {
        assert rest[i] in t[1..];
      }
    }
  }

  lemma RegisteredDistinct(t: seq<Route>, r: Route)
    requires Distinct(t)
    ensures Distinct(Registered(t, r))
  {
    WithoutDistinct(t, r.pattern);
    WithoutMembers(t, r.pattern);
    var w := Without(t, r.pattern);
    forall i | 0 <= i < |w| ensures w[i].pattern != r.pattern {
      assert w[i] in w;
    }
  }

  // ---------------------------------------------------------------- all sequences of registrations

  datatype Registration = Registration(kind: Method, route: Route)

  /** The table of method m after a sequence of registrations on the router. */
  function TableAfter(regs: seq<Registration>, m: Method): seq<Route> {
    if regs == [] then []
    else
      var before, last := regs[..|regs| - 1], regs[|regs| - 1];
      if last.kind == m then Registered(TableAfter(before, m), last.route) else TableAfter(before, m)
  }

  /** The routes registered for m, in order. */
  function Of(regs: seq<Registration>, m: Method): seq<Route> {
    if regs == [] then []
    else
      var before, last := regs[..|regs| - 1], regs[|regs| - 1];
      Of(before, m) + if last.kind == m then [last.route] else []
  }

  predicate Replaced(p: string, later: seq<Route>) {
    exists i :: 0 <= i < |later| && later[i].pattern == p
  }

  /** The registrations that none after them replaces, in the order they were made. */
  function Latest(regs: seq<Route>): seq<Route> {
    if regs == [] then []
    else if Replaced(regs[0].pattern, regs[1..]) then Latest(regs[1..])
    else [regs[0]] + Latest(regs[1..])
  }

  lemma ReplacedSnoc(p: string, later: seq<Route>, r: Route)
    ensures Replaced(p, later + [r]) <==> Replaced(p, later) || r.pattern == p
  {
    assert (later + [r])[|later|] == r;
    assert forall i :: 0 <= i < |later| ==> (later + [r])[i] == later[i];
  }

  lemma LatestFirst(r: Route, rest: seq<Route>)
    ensures Latest([r] + rest) == (if Replaced(r.pattern, rest) then [] else [r]) + Latest(rest)
  {
    hide Replaced;
    assert ([r] + rest)[1..] == rest;
  }

  lemma {:induction false} LatestSnoc(regs: seq<Route>, r: Route)
    ensures Latest(regs + [r]) == Without(Latest(regs), r.pattern) + [r]
  {
    if regs == [] {
      assert regs + [r] == [r] + [];
      LatestFirst(r, []);
    } else {
      hide *;
      var first, tail := regs[0], regs[1..];
      assert regs == [first] + tail && regs + [r] == [first] + (tail + [r]);
      LatestSnoc(tail, r);
      LatestFirst(first, tail);
      LatestFirst(first, tail + [r]);
      ReplacedSnoc(first.pattern, tail, r);
      WithoutFirst(first, Latest(tail), r.pattern);
    }
  }

  /** Over every sequence of registrations the table of a method holds, for each pattern ever registered for it,
      the latest route and no other, in the order of those registrations. */
  lemma {:induction false} TableIsLatest(regs: seq<Registration>, m: Method)
    ensures TableAfter(regs, m) == Latest(Of(regs, m)) && Distinct(TableAfter(regs, m))
  {
    hide Latest, Registered, Distinct;
    if regs == [] {
      NothingRegistered();
    } else {
      var before, last := regs[..|regs| - 1], regs[|regs| - 1];
      TableIsLatest(before, m);
      if last.kind == m {
        LatestRegistered(Of(before, m), last.route);
        RegisteredDistinct(TableAfter(before, m), last.route);
      } else {
        assert Of(regs, m) == Of(before, m);
      }
    }
  }

  lemma NothingRegistered()
    ensures Latest([]) == [] && Distinct([])
  {
  }

  lemma LatestRegistered(regs: seq<Route>, r: Route)
    ensures Latest(regs + [r]) == Registered(Latest(regs), r)
  {
    LatestSnoc(regs, r);
  }

  /** A route is in the table exactly if it is the last of its pattern to be registered. */
  lemma {:induction false} LatestMembers(regs: seq<Route>, r: Route)
    ensures r in Latest(regs) <==>
      exists i :: 0 <= i < |regs| && regs[i] == r && !Replaced(r.pattern, regs[i + 1..])
  {
    if regs != [] {
      var tail := regs[1..];
      LatestMembers(tail, r);
      assert forall i :: 0 <= i < |tail| ==> tail[i] == regs[i + 1] && tail[i + 1..] == regs[i + 1 + 1..];
      if r in Latest(tail) {
        var i :| 0 <= i < |tail| && tail[i] == r && !Replaced(r.pattern, tail[i + 1..]);
        assert regs[i + 1] == r && !Replaced(r.pattern, regs[i + 1 + 1..]);
      } else if i :| 0 <= i < |regs| && regs[i] == r && !Replaced(r.pattern, regs[i + 1..]) {
        assert i == 0;
      }
    }
  }

  // ---------------------------------------------------------------- a slice of routes

  /** A Go slice that starts at its backing array: buf is the array, len the slice's length. */
  class Table {
    var buf: array<Route>
    var len: nat

    constructor ()
      ensures Valid() && Contents() == [] && fresh(buf)
    {
      buf, len := new Route[0], 0;
    }

    predicate Valid()
      reads this
    {
      len <= buf.Length
    }

    function Contents(): seq<Route>
      reads this, buf
      requires Valid()
    {
      buf[..len]
    }

    method Append(r: Route)
      requires Valid()
      modifies this, buf
      ensures Valid() && (buf == old(buf) || fresh(buf))
      ensures Contents() == old(Contents()) + [r]
    {
      ghost var was := Contents();
      if len == buf.Length {
        var cap: nat :| cap > len;
        var bigger := new Route[cap](_ => r);
        for i := 0 to len
          invariant Valid() && Contents() == was && bigger[..i] == was[..i]
        {
          bigger[i] := buf[i];
        }
        buf := bigger;
      }
      buf[len] := r;
      len := len + 1;
    }

    /** append(s[:i], s[i+1:]...): the tail moves down within the same array, whose old last slot keeps its
        value. */
    method Cut(i: nat)
      requires Valid() && i < len
      modifies this`len, buf
      ensures Valid() && len == old(len) - 1
      ensures Contents() == old(Contents())[..i] + old(Contents())[i + 1..]
      ensures buf[len] == old(buf[len - 1])
    {
      for k := i to len - 1
        invariant len == old(len)
        invariant forall j :: 0 <= j < i ==> buf[j] == old(buf[j])
        invariant forall j :: i <= j < k ==> buf[j] == old(buf[j + 1])
        invariant forall j :: k <= j < len ==> buf[j] == old(buf[j])
      {
        buf[k] := buf[k + 1];
      }
      len := len - 1;
    }

    /** Router.handle on the table of one method. The loop ranges over the slice as it was, so it goes on to read
        the array's old last slot after a deletion has shortened the slice. */
    method Register(r: Route)
      requires Valid() && Distinct(Contents())
      modifies this, buf
      ensures Valid() && (buf == old(buf) || fresh(buf))
      ensures Contents() == Registered(old(Contents()), r)
      ensures Distinct(Contents())
    {
      ghost var was := Contents();
      RegisteredDistinct(was, r);
      if len == 0 {
        Append(r);
        return;
      }
      var ranged, n := buf, len;
      ghost var cut: Option<nat> := None;
      for i := 0 to n
        invariant Valid() && buf == ranged && n <= ranged.Length && n == |was|
        invariant cut.None? ==> len == n && Contents() == was
        invariant cut.None? ==> forall k :: 0 <= k < i ==> was[k].pattern != r.pattern
        invariant cut.Some? ==> cut.value < i && was[cut.value].pattern == r.pattern
        invariant cut.Some? ==> len == n - 1 && Contents() == was[..cut.value] + was[cut.value + 1..]
        invariant cut.Some? ==> ranged[n - 1] == was[n - 1]
      {
        assert ranged[i] == if cut.None? || i == n - 1 then was[i] else was[i + 1] by {
          assert i < len ==> ranged[i] == Contents()[i];
        }
        if ranged[i].pattern == r.pattern {
          assert cut.None?;
          cut := Some(i);
          Cut(i);
        }
      }
      if cut.Some? {
        WithoutOne(was, cut.value);
      } else {
        WithoutAbsent(was, r.pattern);
      }
      Append(r);
    }
  }

  // ---------------------------------------------------------------- dispatch

  function First(t: seq<Route>, path: string, matches: (string, string) -> bool): Option<Route> {
    if t == [] then None
    else if matches(t[0].pattern, path) then Some(t[0])
    else First(t[1..], path, matches)
  }

  lemma {:induction false} FirstSplit(t: seq<Route>, i: nat, path: string, matches: (string, string) -> bool)
    requires i <= |t| && forall k :: 0 <= k < i ==> !matches(t[k].pattern, path)
    ensures First(t, path, matches) == First(t[i..], path, matches)
  {
    if i > 0 {
      FirstSplit(t[1..], i - 1, path, matches);
      assert t[1..][i - 1..] == t[i..];
    } else {
      assert t[0..] == t;
    }
  }

  lemma {:induction false} FirstAppend(a: seq<Route>, b: seq<Route>, path: string, matches: (string, string) -> bool)
    ensures First(a + b, path, matches) ==
      if First(a, path, matches).Some? then First(a, path, matches) else First(b, path, matches)
    ensures First(a, path, matches).None? <==> forall r <- a :: !matches(r.pattern, path)
    ensures First(a, path, matches).Some? ==> First(a, path, matches).value in a
  {
    if a == [] {
      assert a + b == b;
    } else {
      FirstAppend(a[1..], b, path, matches);
      assert (a + b)[1..] == a[1..] + b;
      assert a == [a[0]] + a[1..];
    }
  }

  /** What the README promises of an override, made exact. The old route is gone; but the new one stands at the
      end of the table, so it serves a path of its own only if no other pattern in the table matches that path. */
  lemma OverrideServes(t: seq<Route>, r: Route, path: string, matches: (string, string) -> bool)
    requires matches(r.pattern, path)
    ensures forall s <- Registered(t, r) :: s.pattern == r.pattern ==> s == r
    ensures First(Registered(t, r), path, matches) == Some(r) <==>
      forall s <- t :: matches(s.pattern, path) ==> s.pattern == r.pattern
  {
    WithoutMembers(t, r.pattern);
    var w := Without(t, r.pattern);
    FirstAppend(w, [r], path, matches);
    if First(w, path, matches).Some? {
      assert First(w, path, matches).value in w;
    }
  }

  /** For a path that the old route served: the override takes it over exactly if no later route matches it. */
  lemma OverrideTakesOver(t: seq<Route>, i: nat, r: Route, path: string, matches: (string, string) -> bool)
    requires i < |t| && Distinct(t) && t[i].pattern == r.pattern && matches(r.pattern, path)
    requires forall k :: 0 <= k < i ==> !matches(t[k].pattern, path)
    ensures First(t, path, matches) == Some(t[i])
    ensures First(Registered(t, r), path, matches) == Some(r) <==>
      forall k :: i < k < |t| ==> !matches(t[k].pattern, path)
  {
    FirstSplit(t, i, path, matches);
    OverrideServes(t, r, path, matches);
    if forall k :: i < k < |t| ==> !matches(t[k].pattern, path) {
      forall s | s in t && matches(s.pattern, path) ensures s.pattern == r.pattern {
        var k :| 0 <= k < |t| && t[k] == s;
      }
    } else {
      var k :| i < k < |t| && matches(t[k].pattern, path);
      assert t[k] in t && t[k].pattern != t[i].pattern;
    }
  }

  /** An override that loses: two overlapping patterns, and the first of them registered again. */
  lemma OverrideCanLose(matches: (string, string) -> bool)
    requires matches("/blog/*", "/blog/new") && matches("/*", "/blog/new")
    ensures var mine, all, again := Route("/blog/*", 0, []), Route("/*", 1, []), Route("/blog/*", 2, []);
      var t := Registered(Registered([], mine), all);
      && First(t, "/blog/new", matches) == Some(mine)
      && First(Registered(t, again), "/blog/new", matches) == Some(all)
  {
    var mine, all, again := Route("/blog/*", 0, []), Route("/*", 1, []), Route("/blog/*", 2, []);
    assert mine.pattern != all.pattern by { assert |mine.pattern| != |all.pattern|; }
    WithoutAbsent([mine], all.pattern);
    assert Registered([], mine) == [mine];
    assert Registered([mine], all) == [mine] + [all];
    assert Registered(Registered([], mine), all) == [mine, all];
    WithoutOne([mine, all], 0);
    assert Registered([mine, all], again) == [all, again];
  }

  // ---------------------------------------------------------------- the router

  function Origins(kind: Method, allowed: seq<string>): seq<string> {
    if |allowed| > 0 && !kind.GET? && !kind.HEAD? && !kind.OPTIONS? then allowed else []
  }

  /** The table that serves a request: a GET goes to one of three. */
  function TableFor(verb: string, path: string): Option<Method> {
    match verb
    case "GET" => Some(if Contains(path, "/ws/") then WS else if Contains(path, "/sse/") then SSE else GET)
    case "POST" => Some(POST)
    case "PUT" => Some(PUT)
    case "PATCH" => Some(PATCH)
    case "DELETE" => Some(DELETE)
    case "HEAD" => Some(HEAD)
    case "OPTIONS" => Some(OPTIONS)
    case _ => None
  }

  /** The name of a method in a request; a websocket or an event stream is asked for with a GET. */
  function VerbOf(m: Method): string {
    match m
    case GET => "GET"
    case POST => "POST"
    case PUT => "PUT"
    case PATCH => "PATCH"
    case DELETE => "DELETE"
    case HEAD => "HEAD"
    case OPTIONS => "OPTIONS"
    case WS => "GET"
    case SSE => "GET"
  }

  /** A request goes to a table of its own verb, or to none if there is none; and among the three of a GET a path with
      /ws/ in it goes to the websockets, any other with /sse/ in it to the event streams, and the rest to the
      handlers. */
  lemma TableForIs(verb: string, path: string)
    ensures TableFor(verb, path).None? <==> forall m :: VerbOf(m) != verb
    ensures TableFor(verb, path).Some? ==> VerbOf(TableFor(verb, path).value) == verb
    ensures TableFor(verb, path) == Some(WS) <==> verb == "GET" && exists a, b :: path == a + "/ws/" + b
    ensures TableFor(verb, path) == Some(SSE) <==>
      && verb == "GET" && (exists a, b :: path == a + "/sse/" + b) && !exists a, b :: path == a + "/ws/" + b
  {
    ContainsIff(path, "/ws/");
    ContainsIff(path, "/sse/");
    hide Contains;
    assert VerbOf(GET) == "GET" && VerbOf(POST) == "POST" && VerbOf(PUT) == "PUT" && VerbOf(PATCH) == "PATCH";
    assert VerbOf(DELETE) == "DELETE" && VerbOf(HEAD) == "HEAD" && VerbOf(OPTIONS) == "OPTIONS";
  }

  /** A route keeps the origins it is registered with, except for the methods that change nothing. */
  lemma OriginsKept(kind: Method, allowed: seq<string>)
    ensures Origins(kind, allowed) == if kind in {GET, HEAD, OPTIONS} then [] else allowed
  {
  }

  datatype Served = ByRoute(route: Route) | ByDefault | NotAllowed

  class Router {
    var routes: map<Method, Table>

    constructor ()
      ensures Valid() && forall m :: Routes(m) == []
    {
      routes := map[];
    }

    /** No two methods share a table or a backing array. */
    ghost predicate Valid()
      reads this, routes.Values, set m | m in routes :: routes[m].buf
    {
      && (forall m <- routes :: routes[m].Valid() && Distinct(routes[m].Contents()))
      && (forall m, n :: m in routes && n in routes && m != n ==>
            routes[m] != routes[n] && routes[m].buf != routes[n].buf)
    }

    ghost function Routes(m: Method): seq<Route>
      reads this, routes.Values, set m | m in routes :: routes[m].buf
      requires Valid()
    {
      if m in routes then routes[m].Contents() else []
    }

    /** The table of a method is as it was. */
    twostate predicate Kept(m: Method)
      requires m in routes && m in old(routes)
      reads this, routes[m], routes[m].buf
    {
      && routes[m] == old(routes[m])
      && routes[m].len == old(routes[m].len) && routes[m].buf == old(routes[m].buf)
      && routes[m].buf[..] == old(routes[m].buf[..])
    }

    twostate lemma OneTable(kind: Method)
      requires old(Valid()) && routes == old(routes) && kind in routes
      requires routes[kind].Valid() && Distinct(routes[kind].Contents())
      requires forall m :: m in routes && m != kind ==>
        Kept(m) && routes[m] != routes[kind] && routes[m].buf != routes[kind].buf
      ensures Valid() && Routes(kind) == routes[kind].Contents()
      ensures forall m :: m != kind ==> Routes(m) == old(Routes(m))
    {
      hide Distinct;
      forall m | m in routes && m != kind ensures routes[m].Contents() == old(routes[m].Contents()) {
        assert Kept(m);
      }
    }

    /** A method without a table gets an empty one. */
    method Prepare(kind: Method)
      requires Valid()
      modifies this
      ensures Valid() && kind in routes && routes.Keys == old(routes.Keys) + {kind}
      ensures forall m :: m in old(routes) ==> routes[m] == old(routes[m])
      ensures kind !in old(routes) ==> fresh(routes[kind]) && fresh(routes[kind].buf)
      ensures forall m :: Routes(m) == old(Routes(m))
    {
      if kind !in routes {
        var t := new Table();
        routes := routes[kind := t];
      }
    }

    /** Router.handle. */
    method Handle(kind: Method, pattern: string, handler: nat, allowed: seq<string>)
      requires Valid()
      modifies this, routes.Values, set m | m in routes :: routes[m].buf
      ensures Valid()
      ensures var origins := if kind in {GET, HEAD, OPTIONS} then [] else allowed;
        Routes(kind) == Registered(old(Routes(kind)), Route(pattern, handler, origins))
      ensures forall m :: m != kind ==> Routes(m) == old(Routes(m))
    {
      OriginsKept(kind, allowed);
      hide Registered, Distinct, Origins;
      Prepare(kind);
      var t, r := routes[kind], Route(pattern, handler, Origins(kind, allowed));
      label before:
      t.Register(r);
      forall m | m in routes && m != kind
        ensures Kept@before(m) && routes[m] != t && routes[m].buf != t.buf
      {
        assert routes[m] != t && routes[m].buf != old@before(t.buf);
      }
      hide Valid, Kept, Routes;
      OneTable@before(kind);
    }

    /** ServeHTTP: the first route, in the order of the table, that matches. */
    method ServeHTTP(verb: string, path: string, matches: (string, string) -> bool) returns (served: Served)
      requires Valid()
      ensures served.NotAllowed? <==> TableFor(verb, path).None?
      ensures !served.NotAllowed? ==>
        var first := First(Routes(TableFor(verb, path).value), path, matches);
        served == if first.Some? then ByRoute(first.value) else ByDefault
    {
      var m := TableFor(verb, path);
      if m.None? {
        return NotAllowed;
      }
      if m.value in routes {
        var t := routes[m.value];
        for i := 0 to t.len
          invariant forall k :: 0 <= k < i ==> !matches(t.Contents()[k].pattern, path)
        {
          if matches(t.buf[i].pattern, path) {
            FirstSplit(t.Contents(), i, path, matches);
            return ByRoute(t.buf[i]);
          }
        }
        FirstSplit(t.Contents(), t.len, path, matches);
      }
      served := ByDefault;
    }
  }
}
