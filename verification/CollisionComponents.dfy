/** potentialCollisionComponents of src/sync/collision-content-observation.ts: components by depth-first search. */
module CollisionComponents {
  import opened ClosureLoops
  import opened PathGraphs
  import opened Reachability

  /** One non-directory alias observation. */
  type Alias = (Path, Path)

  function AliasPaths(aliases: seq<Alias>): set<Path> {
    Ends(aliases)
  }

  /** The pairs the two loops connect: every alias, and the star of every claim's paths. */
  function Pairs(aliases: seq<Alias>, groups: seq<seq<Path>>): seq<Edge> {
    aliases + Stars(groups)
  }

  /** Alias observations tie paths as claims do. */
  function AllGroups(aliases: seq<Alias>, groups: seq<seq<Path>>): seq<seq<Path>> {
    seq(|aliases|, i requires 0 <= i < |aliases| => [aliases[i].0, aliases[i].1]) + groups
  }

  // ---------------------------------------------------------------- the adjacency map

  function EdgesAt(adjacency: map<Path, set<Path>>, p: Path): set<Path> {
    if p in adjacency then adjacency[p] else {}
  }

  function ConnectPair(adjacency: map<Path, set<Path>>, e: Edge): map<Path, set<Path>> {
    var once := adjacency[e.0 := EdgesAt(adjacency, e.0) + {e.1}];
    once[e.1 := EdgesAt(once, e.1) + {e.0}]
  }

  ghost predicate Represents(adjacency: map<Path, set<Path>>, edges: seq<Edge>) {
    && adjacency.Keys == Ends(edges)
    && forall a, b :: b in EdgesAt(adjacency, a) <==> Either(edges)(a, b)
  }

  lemma RepresentsSnoc(adjacency: map<Path, set<Path>>, edges: seq<Edge>, e: Edge)
    requires Represents(adjacency, edges)
    ensures Represents(ConnectPair(adjacency, e), edges + [e])
  {
    var after := ConnectPair(adjacency, e);
    assert forall d :: d in edges + [e] <==> d in edges || d == e;
    forall p ensures p in Ends(edges + [e]) <==> p in Ends(edges) || p == e.0 || p == e.1 {
      if p in Ends(edges) {
        var d :| d in edges && (d.0 == p || d.1 == p);
        assert d in edges + [e];
      }
      assert e in edges + [e];
    }
    forall a, b ensures b in EdgesAt(after, a) <==> Either(edges + [e])(a, b) {
      assert b in EdgesAt(after, a) <==> b in EdgesAt(adjacency, a) || (a, b) == e || (b, a) == e;
      assert b in EdgesAt(adjacency, a) <==> Either(edges)(a, b);
    }
  }

  method BuildAdjacency(edges: seq<Edge>) returns (adjacency: map<Path, set<Path>>)
    ensures Represents(adjacency, edges)
  {
    adjacency := map[];
    for i := 0 to |edges|
      invariant Represents(adjacency, edges[..i])
    {
      RepresentsSnoc(adjacency, edges[..i], edges[i]);
      assert edges[..i + 1] == edges[..i] + [edges[i]];
      adjacency := ConnectPair(adjacency, edges[i]);
    }
    assert edges[..|edges|] == edges;
  }

  lemma EdgesStayInside(adjacency: map<Path, set<Path>>, edges: seq<Edge>)
    requires Represents(adjacency, edges)
    ensures forall a, b | b in EdgesAt(adjacency, a) :: a in adjacency && b in adjacency
  {
    forall a, b | b in EdgesAt(adjacency, a) ensures a in adjacency && b in adjacency {
      assert Either(edges)(a, b);
      var e: Edge :| e in edges && (e == (a, b) || e == (b, a));
      assert e.0 in Ends(edges) && e.1 in Ends(edges);
    }
  }

  // ---------------------------------------------------------------- the search

  /** The set's elements, in some order. */
  method Listing(s: set<Path>) returns (items: seq<Path>)
    ensures forall p :: p in items <==> p in s
  {
    items := [];
    var rest := s;
    while rest != {}
      invariant rest <= s && forall p :: p in items <==> p in s - rest
    {
      var p :| p in rest;
      items, rest := items + [p], rest - {p};
    }
  }

  /** Everything already taken has its neighbours taken or waiting. */
  ghost predicate Frontier(adjacency: map<Path, set<Path>>, component: set<Path>, pending: seq<Path>) {
    forall a, b | a in component && b in EdgesAt(adjacency, a) :: b in component || b in pending
  }

  ghost predicate AllReached(edge: (Path, Path) -> bool, first: Path, component: set<Path>, pending: seq<Path>) {
    && (forall p {:trigger Reaches(edge, first, p)} | p in component :: Reaches(edge, first, p))
    && (forall p {:trigger Reaches(edge, first, p)} | p in pending :: Reaches(edge, first, p))
  }

  lemma VisitStep(adjacency: map<Path, set<Path>>, edges: seq<Edge>, first: Path, component: set<Path>,
                  pending: seq<Path>, next: seq<Path>)
    requires Represents(adjacency, edges) && pending != []
    requires AllReached(Either(edges), first, component, pending) && Frontier(adjacency, component, pending)
    requires forall p :: p in next <==> p in EdgesAt(adjacency, pending[|pending| - 1])
    ensures var path := pending[|pending| - 1];
            var waiting := pending[..|pending| - 1] + next;
            AllReached(Either(edges), first, component + {path}, waiting) &&
              Frontier(adjacency, component + {path}, waiting)
  {
    var path := pending[|pending| - 1];
    assert pending == pending[..|pending| - 1] + [path];
    assert Reaches(Either(edges), first, path);
    forall p | p in next ensures Reaches(Either(edges), first, p) {
      OneMoreStep(Either(edges), first, path, p);
    }
  }

  /** Depth-first search with a stack, from one path. */
  method Search(adjacency: map<Path, set<Path>>, ghost edges: seq<Edge>, first: Path) returns (component: set<Path>)
    requires Represents(adjacency, edges) && first in adjacency
    ensures component <= adjacency.Keys
    ensures forall p :: p in component <==> Reaches(Either(edges), first, p)
  {
    component := {};
    var pending := [first];
    ReachesSelf(Either(edges), first);
    EdgesStayInside(adjacency, edges);
    while pending != []
      invariant component <= adjacency.Keys && forall p | p in pending :: p in adjacency
      invariant first in component || first in pending
      invariant AllReached(Either(edges), first, component, pending) && Frontier(adjacency, component, pending)
      decreases |adjacency.Keys - component|, |pending|
    {
      var path := pending[|pending| - 1];
      assert pending == pending[..|pending| - 1] + [path];
      if path in component {
        pending := pending[..|pending| - 1];
      } else {
        var next := Listing(EdgesAt(adjacency, path));
        VisitStep(adjacency, edges, first, component, pending, next);
        Shrinks(adjacency.Keys - (component + {path}), adjacency.Keys - component);
        component := component + {path};
        pending := pending[..|pending| - 1] + next;
      }
    }
    ClosedIsComponent(Either(edges), first, component);
  }

  // ---------------------------------------------------------------- all components

  ghost predicate IsClass(edge: (Path, Path) -> bool, c: set<Path>) {
    c != {} && forall a, b | a in c :: b in c <==> Reaches(edge, a, b)
  }

  lemma SearchedIsClass(edge: (Path, Path) -> bool, first: Path, c: set<Path>)
    requires Symmetric(edge) && forall p :: p in c <==> Reaches(edge, first, p)
    ensures IsClass(edge, c)
  {
    ReachesSelf(edge, first);
    assert first in c;
    forall a, b | a in c ensures b in c <==> Reaches(edge, a, b) {
      ReachesSymmetric(edge, first, a);
      if b in c { ReachesTransitive(edge, a, first, b); }
      if Reaches(edge, a, b) { ReachesTransitive(edge, first, a, b); }
    }
  }

  /** What has been collected when `remaining` is left: every finished class with an alias path, once. */
  ghost predicate Collected(edge: (Path, Path) -> bool, marked: set<Path>, remaining: set<Path>,
                            components: seq<set<Path>>) {
    && (forall i | 0 <= i < |components| :: IsClass(edge, components[i]) && components[i] * marked != {})
    && (forall i | 0 <= i < |components| :: components[i] !! remaining)
    && (forall i, j | 0 <= i < j < |components| :: components[i] !! components[j])
  }

  ghost predicate InSome(components: seq<set<Path>>, p: Path) {
    exists i | 0 <= i < |components| :: p in components[i]
  }

  lemma InSomeSnoc(components: seq<set<Path>>, component: set<Path>, p: Path)
    ensures InSome(components + [component], p) <==> InSome(components, p) || p in component
  {
    var more := components + [component];
    assert more[|components|] == component;
    if i :| 0 <= i < |components| && p in components[i] {
      assert more[i] == components[i];
    }
  }

  /** Each marked path whose search is over lies in a collected class. */
  ghost predicate Found(components: seq<set<Path>>, marked: set<Path>, done: set<Path>) {
    forall p | p in marked && p in done :: InSome(components, p)
  }

  lemma FoundStep(components: seq<set<Path>>, marked: set<Path>, done: set<Path>, component: set<Path>)
    requires Found(components, marked, done)
    ensures component * marked != {} ==> Found(components + [component], marked, done + component)
    ensures component * marked == {} ==> Found(components, marked, done + component)
  {
    forall p ensures InSome(components + [component], p) <==> InSome(components, p) || p in component {
      InSomeSnoc(components, component, p);
    }
    assert forall p | p in marked && p in component :: p in component * marked;
  }

  lemma KeysAreClosed(adjacency: map<Path, set<Path>>, edges: seq<Edge>)
    requires Represents(adjacency, edges)
    ensures ClosedUnder(Either(edges), adjacency.Keys)
  {
    EdgesStayInside(adjacency, edges);
    assert Closed(Either(edges), adjacency.Keys) by {
      assert forall a, b | Either(edges)(a, b) :: b in EdgesAt(adjacency, a);
    }
    forall a, b | a in adjacency.Keys && Reaches(Either(edges), a, b) ensures b in adjacency.Keys {
      ClosedKeepsReachable(Either(edges), adjacency.Keys, a, b);
    }
  }

  /** The outer loop: search from a remaining path, keep the class if it holds a marked path. */
  method CollectComponents(adjacency: map<Path, set<Path>>, ghost edges: seq<Edge>, marked: set<Path>)
    returns (components: seq<set<Path>>)
    requires Represents(adjacency, edges)
    ensures Collected(Either(edges), marked, {}, components) && Found(components, marked, adjacency.Keys)
  {
    components := [];
    var remaining := adjacency.Keys;
    KeysAreClosed(adjacency, edges);
    while remaining != {}
      invariant remaining <= adjacency.Keys && ClosedUnder(Either(edges), remaining)
      invariant Collected(Either(edges), marked, remaining, components)
      invariant Found(components, marked, adjacency.Keys - remaining)
    {
      var first :| first in remaining;
      var component := Search(adjacency, edges, first);
      SearchedIsClass(Either(edges), first, component);
      ReachesSelf(Either(edges), first);
      RestStaysClosed(Either(edges), remaining, component, first);
      FoundStep(components, marked, adjacency.Keys - remaining, component);
      assert adjacency.Keys - remaining + component == adjacency.Keys - (remaining - component);
      if component * marked != {} {
        components := components + [component];
      }
      remaining := remaining - component;
    }
    assert adjacency.Keys - remaining == adjacency.Keys;
  }

  /** Exactly the classes that hold an alias path, each once. */
  method PotentialCollisionComponents(aliases: seq<Alias>, groups: seq<seq<Path>>) returns (components: seq<set<Path>>)
    ensures Collected(Linked(AllGroups(aliases, groups)), AliasPaths(aliases), {}, components)
    ensures forall p | p in AliasPaths(aliases) :: InSome(components, p)
  {
    var claims := IdentityEdges(groups);
    ghost var edges := Pairs(aliases, groups);
    var adjacency := BuildAdjacency(aliases + claims);
    components := CollectComponents(adjacency, edges, AliasPaths(aliases));
    forall p | p in AliasPaths(aliases) ensures p in adjacency {
      var e :| e in aliases && (e.0 == p || e.1 == p);
      assert e in edges;
    }
    forall i | 0 <= i < |components| ensures IsClass(Linked(AllGroups(aliases, groups)), components[i]) {
      ClassOfPairs(aliases, groups, components[i]);
    }
  }

  lemma ClassOfPairs(aliases: seq<Alias>, groups: seq<seq<Path>>, c: set<Path>)
    requires IsClass(Either(Pairs(aliases, groups)), c)
    ensures IsClass(Linked(AllGroups(aliases, groups)), c)
  {
    forall a, b | a in c ensures b in c <==> Reaches(Linked(AllGroups(aliases, groups)), a, b) {
      PairsConnect(aliases, groups, a, b);
    }
  }

  ghost predicate ClosedUnder(edge: (Path, Path) -> bool, s: set<Path>) {
    forall a, b {:trigger Reaches(edge, a, b)} | a in s && Reaches(edge, a, b) :: b in s
  }

  lemma RestStaysClosed(edge: (Path, Path) -> bool, remaining: set<Path>, component: set<Path>, first: Path)
    requires Symmetric(edge) && IsClass(edge, component) && first in component && first in remaining
    requires ClosedUnder(edge, remaining)
    ensures component <= remaining && ClosedUnder(edge, remaining - component)
  {
    forall p | p in component ensures p in remaining {
      assert Reaches(edge, first, p);
    }
    forall a, b | a in remaining - component && Reaches(edge, a, b) ensures b in remaining - component {
      ReachesSymmetric(edge, a, b);
    }
  }

  /** A linked pair is an alias, or is linked by a claim. */
  lemma AllGroupsLink(aliases: seq<Alias>, groups: seq<seq<Path>>, a: Path, b: Path)
    ensures Adjacent(AllGroups(aliases, groups), a, b) <==> Adjacent(groups, a, b) || AliasTouches(aliases, a, b)
  {
    var all := AllGroups(aliases, groups);
    if Adjacent(all, a, b) {
      var g :| g in all && a in g && b in g;
      var i :| 0 <= i < |all| && all[i] == g;
      if i < |aliases| {
        assert aliases[i] in aliases;
      } else {
        assert g == groups[i - |aliases|];
      }
    }
    if Adjacent(groups, a, b) {
      var g :| g in groups && a in g && b in g;
      var i :| 0 <= i < |groups| && groups[i] == g;
      assert all[|aliases| + i] == g;
    }
    if AliasTouches(aliases, a, b) {
      var e :| e in aliases && (a == e.0 || a == e.1) && (b == e.0 || b == e.1);
      var i :| 0 <= i < |aliases| && aliases[i] == e;
      assert all[i] == [e.0, e.1] && e.0 in all[i] && e.1 in all[i];
    }
  }

  ghost predicate AliasTouches(aliases: seq<Alias>, a: Path, b: Path) {
    exists e | e in aliases :: (a == e.0 || a == e.1) && (b == e.0 || b == e.1)
  }

  lemma PairIsLinked(aliases: seq<Alias>, groups: seq<seq<Path>>, a: Path, b: Path)
    requires Either(Pairs(aliases, groups))(a, b)
    ensures Adjacent(AllGroups(aliases, groups), a, b)
  {
    AllGroupsLink(aliases, groups, a, b);
    var e: Edge :| (e == (a, b) || e == (b, a)) && e in aliases + Stars(groups);
    if e !in aliases {
      assert Either(Stars(groups))(a, b);
      StarLinks(groups, a, b);
    }
  }

  lemma LinkReachesByPairs(aliases: seq<Alias>, groups: seq<seq<Path>>, a: Path, b: Path)
    requires Adjacent(AllGroups(aliases, groups), a, b)
    ensures Reaches(Either(Pairs(aliases, groups)), a, b)
  {
    var edge := Either(Pairs(aliases, groups));
    AllGroupsLink(aliases, groups, a, b);
    if Adjacent(groups, a, b) {
      LinkReachesByStars(groups, a, b);
      ReachesMonotone(Either(Stars(groups)), edge, a, b);
    } else if a == b {
      ReachesSelf(edge, a);
    } else {
      EdgeReaches(edge, a, b);
    }
  }

  /** The paired edges connect what aliases and claims together connect. */
  lemma PairsConnect(aliases: seq<Alias>, groups: seq<seq<Path>>, a: Path, b: Path)
    ensures Reaches(Either(Pairs(aliases, groups)), a, b) <==> Connected(AllGroups(aliases, groups), a, b)
  {
    var edge, link := Either(Pairs(aliases, groups)), Linked(AllGroups(aliases, groups));
    forall x, y | edge(x, y) ensures link(x, y) {
      PairIsLinked(aliases, groups, x, y);
    }
    forall x, y | link(x, y) ensures Reaches(edge, x, y) {
      LinkReachesByPairs(aliases, groups, x, y);
    }
    if Reaches(edge, a, b) {
      ReachesMonotone(edge, link, a, b);
    }
    if Connected(AllGroups(aliases, groups), a, b) {
      ReachesThrough(link, edge, a, b);
    }
  }
}
