/** The fixpoint and worklist loops over identity claims: src/sync/hot-acquisition-completeness.ts,
    src/sync/change-hash-enrichment.ts and src/sync/collision-content-observation.ts. */
module ClosureLoops {
  import opened PathGraphs
  import opened Reachability

  /** Paths are only compared here. */
  type Path(==, !new)

  type Edge = (Path, Path)

  // ---------------------------------------------------------------- edges and groups

  /** The claims tie paths in either direction. */
  ghost function Either(edges: seq<Edge>): (Path, Path) -> bool {
    (a, b) => (a, b) in edges || (b, a) in edges
  }

  /** A group's first path, paired with each of the others. */
  function Star(group: seq<Path>): seq<Edge> {
    if group == [] then [] else seq(|group| - 1, i requires 0 <= i < |group| - 1 => (group[0], group[i + 1]))
  }

  function Stars(groups: seq<seq<Path>>): seq<Edge> {
    if groups == [] then [] else Stars(groups[..|groups| - 1]) + Star(groups[|groups| - 1])
  }

  method PushStar(edges: seq<Edge>, paths: seq<Path>) returns (more: seq<Edge>)
    ensures more == edges + Star(paths)
  {
    more := edges;
    if paths == [] {
      return;
    }
    var star := Star(paths);
    for k := 1 to |paths|
      invariant more == edges + star[..k - 1]
    {
      assert star[..k] == star[..k - 1] + [(paths[0], paths[k])];
      more := more + [(paths[0], paths[k])];
    }
    assert star[..|star|] == star;
  }

  /** identityEdges: the star of every claim's paths. */
  method IdentityEdges(groups: seq<seq<Path>>) returns (edges: seq<Edge>)
    ensures edges == Stars(groups)
    ensures forall a, b :: Reaches(Either(edges), a, b) <==> Connected(groups, a, b)
  {
    edges := [];
    for i := 0 to |groups|
      invariant edges == Stars(groups[..i])
    {
      assert groups[..i + 1][..i] == groups[..i];
      edges := PushStar(edges, groups[i]);
    }
    assert groups[..|groups|] == groups;
    forall a, b ensures Reaches(Either(edges), a, b) <==> Connected(groups, a, b) {
      StarsConnect(groups, a, b);
    }
  }

  lemma {:induction false} StarEdgesAreLinks(groups: seq<seq<Path>>, a: Path, b: Path)
    requires (a, b) in Stars(groups)
    ensures exists g | g in groups :: a in g && b in g && g[0] == a
  {
    var k := |groups| - 1;
    if (a, b) in Star(groups[k]) {
      assert groups[k] in groups;
    } else {
      StarEdgesAreLinks(groups[..k], a, b);
    }
  }

  lemma {:induction false} StarHoldsEdge(groups: seq<seq<Path>>, i: nat, k: nat)
    requires i < |groups| && 0 < k < |groups[i]|
    ensures (groups[i][0], groups[i][k]) in Stars(groups)
  {
    var n := |groups| - 1;
    if i == n {
      assert Star(groups[n])[k - 1] == (groups[i][0], groups[i][k]);
    } else {
      StarHoldsEdge(groups[..n], i, k);
    }
  }

  /** Any member of a group reaches the group's first path. */
  lemma MemberReachesFirst(groups: seq<seq<Path>>, g: seq<Path>, p: Path)
    requires g in groups && p in g
    ensures Reaches(Either(Stars(groups)), p, g[0]) && Reaches(Either(Stars(groups)), g[0], p)
  {
    var edge := Either(Stars(groups));
    var i :| 0 <= i < |groups| && groups[i] == g;
    var k :| 0 <= k < |g| && g[k] == p;
    if k == 0 {
      ReachesSelf(edge, p);
    } else {
      StarHoldsEdge(groups, i, k);
      EdgeReaches(edge, p, g[0]);
      EdgeReaches(edge, g[0], p);
    }
  }

  lemma LinkReachesByStars(groups: seq<seq<Path>>, a: Path, b: Path)
    requires Adjacent(groups, a, b)
    ensures Reaches(Either(Stars(groups)), a, b)
  {
    var g :| g in groups && a in g && b in g;
    MemberReachesFirst(groups, g, a);
    MemberReachesFirst(groups, g, b);
    ReachesTransitive(Either(Stars(groups)), a, g[0], b);
  }

  /** Stars connect what the groups connect: linking to the first path is as good as linking all pairs. */
  lemma StarsConnect(groups: seq<seq<Path>>, a: Path, b: Path)
    ensures Reaches(Either(Stars(groups)), a, b) <==> Connected(groups, a, b)
  {
    forall x, y | Either(Stars(groups))(x, y) ensures Linked(groups)(x, y) {
      StarLinks(groups, x, y);
    }
    forall x, y | Linked(groups)(x, y) ensures Reaches(Either(Stars(groups)), x, y) {
      LinkReachesByStars(groups, x, y);
    }
    if Reaches(Either(Stars(groups)), a, b) {
      ReachesMonotone(Either(Stars(groups)), Linked(groups), a, b);
    }
    if Connected(groups, a, b) {
      ReachesThrough(Linked(groups), Either(Stars(groups)), a, b);
    }
  }

  lemma StarLinks(groups: seq<seq<Path>>, a: Path, b: Path)
    requires Either(Stars(groups))(a, b)
    ensures Adjacent(groups, a, b)
  {
    if (a, b) in Stars(groups) {
      StarEdgesAreLinks(groups, a, b);
    } else {
      StarEdgesAreLinks(groups, b, a);
    }
  }

  // ---------------------------------------------------------------- connectedPaths

  function Ends(edges: seq<Edge>): set<Path> {
    (set e | e in edges :: e.0) + (set e | e in edges :: e.1)
  }

  /** A set that holds `start`, only reaches what `start` reaches, and is closed, is its component. */
  lemma ClosedIsComponent(edge: (Path, Path) -> bool, start: Path, component: set<Path>)
    requires start in component && Closed(edge, component)
    requires forall p | p in component :: Reaches(edge, start, p)
    ensures forall p :: p in component <==> Reaches(edge, start, p)
  {
    forall p | Reaches(edge, start, p) ensures p in component {
      ClosedKeepsReachable(edge, component, start, p);
    }
  }

  lemma OneMoreStep(edge: (Path, Path) -> bool, start: Path, a: Path, b: Path)
    requires Reaches(edge, start, a) && edge(a, b)
    ensures Reaches(edge, start, b)
  {
    EdgeReaches(edge, a, b);
    ReachesTransitive(edge, start, a, b);
  }

  ghost predicate Within(edge: (Path, Path) -> bool, start: Path, component: set<Path>) {
    forall p {:trigger Reaches(edge, start, p)} | p in component :: Reaches(edge, start, p)
  }

  lemma Absorbed(edge: (Path, Path) -> bool, start: Path, component: set<Path>, p: Path, q: Path)
    requires Within(edge, start, component) && p in component && edge(p, q)
    ensures Within(edge, start, component + {q})
  {
    assert Reaches(edge, start, p);
    OneMoreStep(edge, start, p, q);
  }

  /** One sweep over the edges: each that has one end inside takes in the other. */
  method SweepEdges(edges: seq<Edge>, inside: set<Path>, ghost start: Path) returns (component: set<Path>, grew: bool)
    requires Within(Either(edges), start, inside)
    ensures inside <= component <= Ends(edges) + inside && Within(Either(edges), start, component)
    ensures grew <==> inside != component
    ensures !grew ==> Closed(Either(edges), component)
  {
    component, grew := inside, false;
    for i := 0 to |edges|
      invariant inside <= component <= Ends(edges) + inside && Within(Either(edges), start, component)
      invariant grew <==> inside != component
      invariant !grew ==> forall k | 0 <= k < i :: edges[k].0 in component <==> edges[k].1 in component
    {
      var (left, right) := edges[i];
      assert edges[i] in edges;
      if left in component && right !in component {
        Absorbed(Either(edges), start, component, left, right);
        component, grew := component + {right}, true;
      } else if right in component && left !in component {
        Absorbed(Either(edges), start, component, right, left);
        component, grew := component + {left}, true;
      }
    }
  }

  /** Sweep the edges until a sweep adds nothing. */
  method ConnectedPaths(start: Path, edges: seq<Edge>) returns (component: set<Path>)
    ensures forall p :: p in component <==> Reaches(Either(edges), start, p)
  {
    component := {start};
    var grew := true;
    ghost var all := Ends(edges) + {start};
    ReachesSelf(Either(edges), start);
    while grew
      invariant start in component && component <= all && Within(Either(edges), start, component)
      invariant !grew ==> Closed(Either(edges), component)
      decreases |all - component|, grew
    {
      ghost var before := component;
      component, grew := SweepEdges(edges, component, start);
      if grew {
        assert all - component < all - before;
        Shrinks(all - component, all - before);
      }
    }
    ClosedIsComponent(Either(edges), start, component);
  }

  lemma Shrinks(a: set<Path>, b: set<Path>)
    requires a < b
    ensures |a| < |b|
  {
    assert b == a + (b - a);
    assert b - a != {};
  }

  // ---------------------------------------------------------------- needsWarmComponentAcquisition

  datatype HotEntry = HotEntry(path: Path, hasLocal: bool, hasRemote: bool, hasBaseline: bool)

  /** `shows` is set on the two observation kinds that show a current occurrence. */
  datatype HotObservation = HotObservation(requestedPath: Path, shows: bool)

  datatype HotFacts = HotFacts(entries: seq<HotEntry>, observations: seq<HotObservation>, dirtyPaths: set<Path>)

  predicate HasCurrentOccurrence(hot: HotFacts, component: set<Path>) {
    || (exists e | e in hot.entries :: e.path in component && (e.hasLocal || e.hasRemote))
    || (exists o | o in hot.observations :: o.requestedPath in component && o.shows)
  }

  predicate HasDirtyAddress(hot: HotFacts, component: set<Path>) {
    exists e | e in hot.entries :: e.path in component && e.path in hot.dirtyPaths
  }

  predicate HasBaseline(hot: HotFacts, component: set<Path>) {
    exists e | e in hot.entries :: e.path in component && e.hasBaseline
  }

  /** The test of one component: something is there, and nothing in it was ever committed. */
  predicate Incomplete(hot: HotFacts, component: set<Path>) {
    (HasCurrentOccurrence(hot, component) || HasDirtyAddress(hot, component)) && !HasBaseline(hot, component)
  }

  ghost predicate IsComponentOf(groups: seq<seq<Path>>, path: Path, component: set<Path>) {
    forall p :: p in component <==> Connected(groups, path, p)
  }

  /** In terms of the claims: something connected to the path occurs or is dirty, and nothing connected to it was ever
      committed. */
  lemma IncompleteMeans(hot: HotFacts, groups: seq<seq<Path>>, path: Path, component: set<Path>)
    requires IsComponentOf(groups, path, component)
    ensures Incomplete(hot, component) <==>
            && (|| (exists e | e in hot.entries ::
                      Connected(groups, path, e.path) && (e.hasLocal || e.hasRemote || e.path in hot.dirtyPaths))
                || (exists o | o in hot.observations :: Connected(groups, path, o.requestedPath) && o.shows))
            && (forall e | e in hot.entries && Connected(groups, path, e.path) :: !e.hasBaseline)
  {
  }

  /** Some entry's own component, taken afresh, is incomplete. */
  ghost predicate NeedsWarmAfresh(hot: HotFacts, groups: seq<seq<Path>>, entries: seq<HotEntry>) {
    exists e, component: set<Path> | e in entries ::
      IsComponentOf(groups, e.path, component) && Incomplete(hot, component)
  }

  lemma SameComponent(groups: seq<seq<Path>>, a: Path, b: Path, ofA: set<Path>, ofB: set<Path>)
    requires IsComponentOf(groups, a, ofA) && IsComponentOf(groups, b, ofB) && b in ofA
    ensures ofA == ofB
  {
    ReachesSymmetric(Linked(groups), a, b);
    forall p ensures p in ofA <==> p in ofB {
      if p in ofA { ReachesTransitive(Linked(groups), b, a, p); }
      if p in ofB { ReachesTransitive(Linked(groups), a, b, p); }
    }
  }

  /** Each visited path was in a component that passed. */
  ghost predicate AllPassed(hot: HotFacts, groups: seq<seq<Path>>, visited: set<Path>) {
    forall p, component: set<Path> | p in visited && IsComponentOf(groups, p, component) :: !Incomplete(hot, component)
  }

  /** Skipping entries whose component was already tested answers as if every entry's were. */
  method NeedsWarmComponentAcquisition(hot: HotFacts, groups: seq<seq<Path>>) returns (needed: bool)
    ensures needed <==> NeedsWarmAfresh(hot, groups, hot.entries)
  {
    var edges := IdentityEdges(groups);
    var visited: set<Path> := {};
    for i := 0 to |hot.entries|
      invariant AllPassed(hot, groups, visited)
      invariant forall k | 0 <= k < i :: hot.entries[k].path in visited
    {
      var entry := hot.entries[i];
      if entry.path !in visited {
        var component := ConnectedPaths(entry.path, edges);
        assert IsComponentOf(groups, entry.path, component);
        if Incomplete(hot, component) {
          return true;
        }
        PassedComponent(hot, groups, visited, entry.path, component);
        assert Connected(groups, entry.path, entry.path) by { ReachesSelf(Linked(groups), entry.path); }
        visited := visited + component;
      }
    }
    return false;
  }

  lemma PassedComponent(hot: HotFacts, groups: seq<seq<Path>>, visited: set<Path>, path: Path, component: set<Path>)
    requires AllPassed(hot, groups, visited) && IsComponentOf(groups, path, component) && !Incomplete(hot, component)
    ensures AllPassed(hot, groups, visited + component)
  {
    forall p, other: set<Path> | p in visited + component && IsComponentOf(groups, p, other)
      ensures !Incomplete(hot, other)
    {
      if p in component {
        SameComponent(groups, path, p, component, other);
      }
    }
  }

  // ---------------------------------------------------------------- connectedEvidencePaths

  function AllPaths(groups: seq<seq<Path>>): set<Path> {
    set g, p | g in groups && p in g :: p
  }

  predicate Touches(group: seq<Path>, s: set<Path>) {
    exists p | p in group :: p in s
  }

  /** A group that touches the set is inside it. */
  ghost predicate Saturated(group: seq<Path>, s: set<Path>) {
    Touches(group, s) ==> forall p | p in group :: p in s
  }

  lemma SaturatedIsClosed(groups: seq<seq<Path>>, s: set<Path>)
    requires forall i | 0 <= i < |groups| :: Saturated(groups[i], s)
    ensures Closed(Linked(groups), s)
  {
    forall a, b | a in s && Adjacent(groups, a, b) ensures b in s {
      var g :| g in groups && a in g && b in g;
      assert Saturated(g, s);
    }
  }

  /** All of the set can be reached from the base, and lies within the known paths. */
  ghost predicate ReachedFrom(groups: seq<seq<Path>>, base: Path, s: set<Path>) {
    && base in s && s <= AllPaths(groups) + {base}
    && forall p {:trigger Reaches(Linked(groups), base, p)} | p in s :: Reaches(Linked(groups), base, p)
  }

  /** One sweep over the groups; `changed` tells whether it added anything. */
  method Sweep(base: Path, groups: seq<seq<Path>>, before: set<Path>) returns (connected: set<Path>, changed: bool)
    requires ReachedFrom(groups, base, before)
    ensures before <= connected && ReachedFrom(groups, base, connected) && (changed <==> before != connected)
    ensures !changed ==> forall i | 0 <= i < |groups| :: Saturated(groups[i], connected)
  {
    connected, changed := before, false;
    for i := 0 to |groups|
      invariant before <= connected && ReachedFrom(groups, base, connected) && (changed <==> before != connected)
      invariant !changed ==> forall k | 0 <= k < i :: Saturated(groups[k], connected)
    {
      var paths := groups[i];
      assert paths in groups;
      if Touches(paths, connected) {
        AbsorbedReach(groups, base, paths, connected);
        var absorbed := connected + set p | p in paths;
        changed := changed || absorbed != connected;
        connected := absorbed;
      }
    }
  }

  /** Absorb every group that touches the set until a sweep absorbs nothing. */
  method ConnectedEvidencePaths(base: Path, groups: seq<seq<Path>>) returns (connected: set<Path>)
    ensures IsComponentOf(groups, base, connected)
  {
    connected := {base};
    var changed := true;
    ghost var all := AllPaths(groups) + {base};
    ReachesSelf(Linked(groups), base);
    while changed
      invariant ReachedFrom(groups, base, connected)
      invariant !changed ==> forall i | 0 <= i < |groups| :: Saturated(groups[i], connected)
      decreases |all - connected|, changed
    {
      ghost var before := connected;
      connected, changed := Sweep(base, groups, connected);
      if changed {
        Shrinks(all - connected, all - before);
      }
    }
    SaturatedIsClosed(groups, connected);
    ClosedIsComponent(Linked(groups), base, connected);
  }

  lemma AbsorbedReach(groups: seq<seq<Path>>, base: Path, group: seq<Path>, connected: set<Path>)
    requires group in groups && Touches(group, connected)
    requires forall p {:trigger Reaches(Linked(groups), base, p)} | p in connected :: Reaches(Linked(groups), base, p)
    ensures forall p {:trigger Reaches(Linked(groups), base, p)} | p in group :: Reaches(Linked(groups), base, p)
  {
    var q :| q in group && q in connected;
    assert Reaches(Linked(groups), base, q);
    forall p | p in group ensures Reaches(Linked(groups), base, p) {
      assert Adjacent(groups, q, p);
      OneMoreStep(Linked(groups), base, q, p);
    }
  }
}
