/** Requests of one tree that reach a route of another, segment by segment. */
module CrossRepo {

  type Pattern = seq<string>

  datatype Route = Route(tree: string, handler: string, verb: string, segments: Pattern)

  datatype Request = Request(sender: string, verb: string, path: string, segments: Pattern)

  /** What one tree reports. */
  datatype Surface = Surface(tree: string, routes: seq<Route>, requests: seq<Request>)

  datatype Link = Link(fromTree: string, sender: string, verb: string, path: string, toTree: string, handler: string)

  predicate VerbsAgree(a: string, b: string) {
    a == "ANY" || b == "ANY" || a == b
  }

  predicate SegmentsReach(request: Pattern, route: Pattern) {
    && |request| == |route|
    && forall i | 0 <= i < |route| :: route[i] == "*" || (request[i] != "*" && request[i] == route[i])
  }

  predicate Reaches(verb: string, asked: Pattern, route: Route) {
    VerbsAgree(verb, route.verb) && SegmentsReach(asked, route.segments)
  }

  // ---- What the segment test means ----

  /** A concrete path fits a pattern. */
  ghost predicate Fits(path: seq<string>, pattern: Pattern) {
    |path| == |pattern| && forall i | 0 <= i < |path| :: pattern[i] == "*" || path[i] == pattern[i]
  }

  /** A path fitting `request` whose parameter at `at` is not `avoid`. */
  ghost function Instance(request: Pattern, at: nat, avoid: string): (path: seq<string>)
    ensures Fits(path, request)
    ensures at < |request| && request[at] == "*" ==> path[at] != avoid
  {
    seq(|request|, i requires 0 <= i < |request| =>
      if request[i] != "*" then request[i] else if i == at then avoid + "x" else "x")
  }

  /** A request pattern reaches a route pattern exactly when every path the one stands for fits the other. */
  lemma SegmentsReachIff(request: Pattern, route: Pattern)
    ensures SegmentsReach(request, route) <==> forall path :: Fits(path, request) ==> Fits(path, route)
  {
    if forall path :: Fits(path, request) ==> Fits(path, route) {
      assert Fits(Instance(request, 0, ""), route);
      forall i | 0 <= i < |route|
        ensures route[i] == "*" || (request[i] != "*" && request[i] == route[i])
      {
        assert Fits(Instance(request, i, route[i]), route);
      }
    }
  }

  function Literals(p: Pattern): (n: nat)
    ensures n <= |p|
  {
    if p == [] then 0 else (if p[0] != "*" then 1 else 0) + Literals(p[1..])
  }

  /** A pattern that reaches another is at least as literal, and equally literal only when it is the same. */
  lemma {:induction false} NarrowerIsMoreLiteral(p: Pattern, q: Pattern)
    requires SegmentsReach(p, q)
    ensures Literals(p) >= Literals(q)
    ensures Literals(p) == Literals(q) ==> p == q
  {
    if p != [] {
      forall i | 0 <= i < |q[1..]| ensures q[1..][i] == "*" || (p[1..][i] != "*" && p[1..][i] == q[1..][i]) {
        assert q[1..][i] == q[i + 1] && p[1..][i] == p[i + 1];
      }
      assert q[0] == "*" || (p[0] != "*" && p[0] == q[0]);
      NarrowerIsMoreLiteral(p[1..], q[1..]);
      assert p == [p[0]] + p[1..] && q == [q[0]] + q[1..];
    }
  }

  // ---- Joining surfaces ----

  function RoutesOf(surfaces: seq<Surface>): seq<Route> {
    if surfaces == [] then [] else RoutesOf(surfaces[..|surfaces| - 1]) + surfaces[|surfaces| - 1].routes
  }

  predicate Candidate(tree: string, request: Request, route: Route) {
    route.tree != tree && Reaches(request.verb, request.segments, route)
  }

  function Reached(routes: seq<Route>, tree: string, request: Request): seq<Route> {
    if routes == [] then []
    else
      var last := routes[|routes| - 1];
      Reached(routes[..|routes| - 1], tree, request) + if Candidate(tree, request, last) then [last] else []
  }

  function Best(routes: seq<Route>): nat {
    if routes == [] then 0
    else
      var rest, last := Best(routes[..|routes| - 1]), Literals(routes[|routes| - 1].segments);
      if last > rest then last else rest
  }

  function LinkTo(tree: string, request: Request, route: Route): Link {
    Link(tree, request.sender, request.verb, request.path, route.tree, route.handler)
  }

  function Pick(reached: seq<Route>, best: nat, tree: string, request: Request): seq<Link> {
    if reached == [] then []
    else
      var last := reached[|reached| - 1];
      Pick(reached[..|reached| - 1], best, tree, request)
      + if Literals(last.segments) == best then [LinkTo(tree, request, last)] else []
  }

  function LinksFor(routes: seq<Route>, tree: string, request: Request): seq<Link> {
    if request.segments == [] then []
    else
      var reached := Reached(routes, tree, request);
      Pick(reached, Best(reached), tree, request)
  }

  function LinksFrom(routes: seq<Route>, tree: string, requests: seq<Request>): seq<Link> {
    if requests == [] then []
    else LinksFrom(routes, tree, requests[..|requests| - 1]) + LinksFor(routes, tree, requests[|requests| - 1])
  }

  function AllLinks(routes: seq<Route>, surfaces: seq<Surface>): seq<Link> {
    if surfaces == [] then []
    else
      var last := surfaces[|surfaces| - 1];
      AllLinks(routes, surfaces[..|surfaces| - 1]) + LinksFrom(routes, last.tree, last.requests)
  }

  method Select(routes: seq<Route>, tree: string, request: Request) returns (out: seq<Link>)
    requires request.segments != []
    ensures out == LinksFor(routes, tree, request)
  {
    var reached := Reached(routes, tree, request);
    var best := 0;
    for i := 0 to |reached|
      invariant best == Best(reached[..i])
    {
      assert reached[..i + 1][..i] == reached[..i];
      var literal := Literals(reached[i].segments);
      if literal > best {
        best := literal;
      }
    }
    assert reached[..|reached|] == reached;
    out := [];
    for i := 0 to |reached|
      invariant out == Pick(reached[..i], best, tree, request)
    {
      assert reached[..i + 1][..i] == reached[..i];
      if Literals(reached[i].segments) == best {
        out := out + [LinkTo(tree, request, reached[i])];
      }
    }
  }

  method LinksOfTree(routes: seq<Route>, tree: string, requests: seq<Request>) returns (out: seq<Link>)
    ensures out == LinksFrom(routes, tree, requests)
  {
    out := [];
    for i := 0 to |requests|
      invariant out == LinksFrom(routes, tree, requests[..i])
    {
      assert requests[..i + 1][..i] == requests[..i];
      if requests[i].segments == [] {
        continue;
      }
      var found := Select(routes, tree, requests[i]);
      out := out + found;
    }
    assert requests[..|requests|] == requests;
  }

  /** Every request of a tree that reaches a route of a different tree. */
  method Links(surfaces: seq<Surface>) returns (out: seq<Link>)
    ensures out == AllLinks(RoutesOf(surfaces), surfaces)
    ensures forall link :: link in out <==> exists s, q, r :: Due(surfaces, link, s, q, r)
  {
    hide AllLinks, Due;
    var routes := RoutesOf(surfaces);
    NoLinks(routes);
    out := [];
    for i := 0 to |surfaces|
      invariant out == AllLinks(routes, surfaces[..i])
    {
      assert surfaces[..i + 1][..i] == surfaces[..i];
      LinksNext(routes, surfaces[..i + 1]);
      var found := LinksOfTree(routes, surfaces[i].tree, surfaces[i].requests);
      out := out + found;
    }
    assert surfaces[..|surfaces|] == surfaces;
    forall link ensures link in out <==> exists s, q, r :: Due(surfaces, link, s, q, r) {
      AllLinkedExactly(surfaces, link);
    }
  }

  lemma NoLinks(routes: seq<Route>)
    ensures AllLinks(routes, []) == []
  {
  }

  lemma LinksNext(routes: seq<Route>, surfaces: seq<Surface>)
    requires surfaces != []
    ensures var last := surfaces[|surfaces| - 1];
            AllLinks(routes, surfaces) ==
              AllLinks(routes, surfaces[..|surfaces| - 1]) + LinksFrom(routes, last.tree, last.requests)
  {
    hide LinksFrom;
  }

  // ---- Which routes are linked ----

  /** Among the routes of other trees that a request reaches, one that no reached route is narrower than. */
  ghost predicate Narrowest(routes: seq<Route>, tree: string, request: Request, route: Route) {
    && route in routes && Candidate(tree, request, route)
    && forall r :: r in routes && Candidate(tree, request, r) ==> Literals(r.segments) <= Literals(route.segments)
  }

  lemma {:induction false} ReachedIn(routes: seq<Route>, tree: string, request: Request)
    ensures forall r :: r in Reached(routes, tree, request) <==> r in routes && Candidate(tree, request, r)
  {
    if routes != [] {
      ReachedIn(routes[..|routes| - 1], tree, request);
      assert routes == routes[..|routes| - 1] + [routes[|routes| - 1]];
    }
  }

  lemma {:induction false} BestIsMost(routes: seq<Route>)
    ensures forall r :: r in routes ==> Literals(r.segments) <= Best(routes)
    ensures routes != [] ==> exists r :: r in routes && Literals(r.segments) == Best(routes)
  {
    if routes != [] {
      var init, last := routes[..|routes| - 1], routes[|routes| - 1];
      BestIsMost(init);
      assert routes == init + [last];
      if init != [] && Best(init) >= Literals(last.segments) {
        var r :| r in init && Literals(r.segments) == Best(init);
        assert r in routes;
      } else {
        assert last in routes;
      }
    }
  }

  lemma {:induction false} PickIn(reached: seq<Route>, best: nat, tree: string, request: Request, link: Link)
    ensures link in Pick(reached, best, tree, request) <==>
            exists r :: r in reached && Literals(r.segments) == best && link == LinkTo(tree, request, r)
  {
    if reached != [] {
      var init, last := reached[..|reached| - 1], reached[|reached| - 1];
      PickIn(init, best, tree, request, link);
      assert reached == init + [last];
    }
  }

  /** A request is linked to exactly the most literal of the routes it reaches in other trees, and to
      at least one whenever it reaches any. */
  lemma LinkedExactly(routes: seq<Route>, tree: string, request: Request)
    requires request.segments != []
    ensures forall link :: link in LinksFor(routes, tree, request) <==>
                           exists r :: Narrowest(routes, tree, request, r) && link == LinkTo(tree, request, r)
    ensures (exists r :: r in routes && Candidate(tree, request, r)) ==> LinksFor(routes, tree, request) != []
  {
    var reached := Reached(routes, tree, request);
    ReachedIn(routes, tree, request);
    BestIsMost(reached);
    forall r ensures Narrowest(routes, tree, request, r) <==> r in reached && Literals(r.segments) == Best(reached) {
    }
    forall link
      ensures link in LinksFor(routes, tree, request) <==>
              exists r :: Narrowest(routes, tree, request, r) && link == LinkTo(tree, request, r)
    {
      PickIn(reached, Best(reached), tree, request, link);
    }
    if reached != [] {
      var r :| r in reached && Literals(r.segments) == Best(reached);
      PickIn(reached, Best(reached), tree, request, LinkTo(tree, request, r));
    }
  }

  /** No linked route could be given up for a strictly narrower one that the request also reaches. */
  lemma NoNarrowerRoute(routes: seq<Route>, tree: string, request: Request, route: Route, other: Route)
    requires Narrowest(routes, tree, request, route)
    requires other in routes && Candidate(tree, request, other)
    requires forall path :: Fits(path, other.segments) ==> Fits(path, route.segments)
    ensures other.segments == route.segments
  {
    SegmentsReachIff(other.segments, route.segments);
    NarrowerIsMoreLiteral(other.segments, route.segments);
  }

  // ---- All links of all trees ----

  /** A link that some request of some tree should have. */
  ghost predicate Due(surfaces: seq<Surface>, link: Link, s: Surface, q: Request, r: Route) {
    && s in surfaces && q in s.requests && q.segments != []
    && Narrowest(RoutesOf(surfaces), s.tree, q, r) && link == LinkTo(s.tree, q, r)
  }

  lemma {:induction false} InLinksFrom(routes: seq<Route>, tree: string, requests: seq<Request>, link: Link)
    ensures link in LinksFrom(routes, tree, requests) <==>
            exists q :: q in requests && link in LinksFor(routes, tree, q)
  {
    hide LinksFor;
    if requests != [] {
      var init, last := requests[..|requests| - 1], requests[|requests| - 1];
      InLinksFrom(routes, tree, init, link);
      assert requests == init + [last];
    }
  }

  lemma {:induction false} InAllLinks(routes: seq<Route>, surfaces: seq<Surface>, link: Link)
    ensures link in AllLinks(routes, surfaces) <==>
            exists s :: s in surfaces && link in LinksFrom(routes, s.tree, s.requests)
  {
    hide LinksFrom;
    if surfaces != [] {
      var init, last := surfaces[..|surfaces| - 1], surfaces[|surfaces| - 1];
      InAllLinks(routes, init, link);
      assert surfaces == init + [last];
    }
  }

  lemma DueIsLinked(surfaces: seq<Surface>, link: Link, s: Surface, q: Request, r: Route)
    requires Due(surfaces, link, s, q, r)
    ensures link in AllLinks(RoutesOf(surfaces), surfaces)
  {
    hide AllLinks, LinksFrom, LinksFor, Narrowest, RoutesOf;
    var routes := RoutesOf(surfaces);
    LinkedExactly(routes, s.tree, q);
    assert link in LinksFor(routes, s.tree, q);
    InLinksFrom(routes, s.tree, s.requests, link);
    InAllLinks(routes, surfaces, link);
  }

  lemma LinkedIsDue(surfaces: seq<Surface>, link: Link)
    requires link in AllLinks(RoutesOf(surfaces), surfaces)
    ensures exists s, q, r :: Due(surfaces, link, s, q, r)
  {
    hide AllLinks, LinksFrom, Narrowest, RoutesOf;
    var routes := RoutesOf(surfaces);
    InAllLinks(routes, surfaces, link);
    var s :| s in surfaces && link in LinksFrom(routes, s.tree, s.requests);
    InLinksFrom(routes, s.tree, s.requests, link);
    var q :| q in s.requests && link in LinksFor(routes, s.tree, q);
    assert q.segments != [];
    LinkedExactly(routes, s.tree, q);
    var r :| Narrowest(routes, s.tree, q, r) && link == LinkTo(s.tree, q, r);
    assert Due(surfaces, link, s, q, r);
  }

  /** The links are exactly those from a request of some tree to one of the most literal
      routes, of all trees but its own, that it reaches. */
  lemma AllLinkedExactly(surfaces: seq<Surface>, link: Link)
    ensures link in AllLinks(RoutesOf(surfaces), surfaces) <==> exists s, q, r :: Due(surfaces, link, s, q, r)
  {
    hide *;
    if link in AllLinks(RoutesOf(surfaces), surfaces) {
      LinkedIsDue(surfaces, link);
    }
    if exists s, q, r :: Due(surfaces, link, s, q, r) {
      var s, q, r :| Due(surfaces, link, s, q, r);
      DueIsLinked(surfaces, link, s, q, r);
    }
  }
}
