/** Union-find over path groups: class PathGraph of src/sync/plan-admission-graph.ts. */
module PathGraphs {
  import opened Wrappers
  import opened Reachability

  /** Some linked group holds both paths. */
  ghost predicate Adjacent<T(!new)>(groups: seq<seq<T>>, a: T, b: T) {
    exists g | g in groups :: a in g && b in g
  }

  ghost function Linked<T(!new)>(groups: seq<seq<T>>): (T, T) -> bool {
    (a, b) => Adjacent(groups, a, b)
  }

  ghost predicate Connected<T(!new)>(groups: seq<seq<T>>, a: T, b: T) {
    Reaches(Linked(groups), a, b)
  }

  lemma MoreGroupsConnectMore<T(!new)>(groups: seq<seq<T>>, more: seq<seq<T>>, a: T, b: T)
    requires Connected(groups, a, b) && forall x, y | Adjacent(groups, x, y) :: Adjacent(more, x, y)
    ensures Connected(more, a, b)
  {
    ReachesMonotone(Linked(groups), Linked(more), a, b);
  }

  // ---------------------------------------------------------------- the partition

  /** The paths of a group are known and share their root. */
  ghost predicate OneRoot<T(!new)>(find: map<T, T>, g: seq<T>) {
    && (forall p | p in g :: p in find)
    && (forall a, b | a in g && b in g :: find[a] == find[b])
  }

  ghost predicate LinkedToRoot<T(!new)>(find: map<T, T>, groups: seq<seq<T>>) {
    forall p {:trigger Connected(groups, p, find[p])} | p in find :: Connected(groups, p, find[p])
  }

  /** `find` names one member of each class of paths that the groups connect. */
  ghost predicate Partitions<T(!new)>(find: map<T, T>, groups: seq<seq<T>>) {
    && LinkedToRoot(find, groups)
    && forall g {:trigger OneRoot(find, g)} | g in groups :: OneRoot(find, g)
  }

  function RootIn<T(!new)>(find: map<T, T>, p: T): T {
    if p in find then find[p] else p
  }

  /** Two paths have one root exactly when the groups connect them. */
  lemma SameRootIsConnected<T(!new)>(find: map<T, T>, groups: seq<seq<T>>, a: T, b: T)
    requires Partitions(find, groups)
    ensures RootIn(find, a) == RootIn(find, b) <==> Connected(groups, a, b)
  {
    if Connected(groups, a, b) {
      var w: seq<T> :| WalkBetween(Linked(groups), w, a, b);
      WalkKeepsRoot(find, groups, w);
    }
    if RootIn(find, a) == RootIn(find, b) {
      var edge := Linked(groups);
      ReachesSelf(edge, a);
      ReachesSelf(edge, b);
      assert a in find ==> Connected(groups, a, find[a]);
      assert b in find ==> Connected(groups, b, find[b]);
      ReachesSymmetric(edge, b, RootIn(find, b));
      ReachesTransitive(edge, a, RootIn(find, a), b);
    }
  }

  lemma {:induction false} WalkKeepsRoot<T(!new)>(find: map<T, T>, groups: seq<seq<T>>, w: seq<T>)
    requires Partitions(find, groups) && Walk(Linked(groups), w)
    ensures RootIn(find, w[0]) == RootIn(find, w[|w| - 1])
  {
    if |w| > 1 {
      assert Adjacent(groups, w[0], w[1]);
      var g :| g in groups && w[0] in g && w[1] in g;
      assert OneRoot(find, g);
      WalkKeepsRoot(find, groups, w[1..]);
    }
  }

  /** `find` with one class moved under another root. */
  function Merged<T(!new)>(find: map<T, T>, left: T, right: T): map<T, T> {
    map p | p in find :: if find[p] == right then left else find[p]
  }

  lemma MergedSame<T(!new)>(find: map<T, T>, root: T)
    ensures Merged(find, root, root) == find
  {
  }

  lemma LongerGroupConnectsMore<T(!new)>(groups: seq<seq<T>>, g: seq<T>, path: T, a: T, b: T)
    requires Connected(groups + [g], a, b)
    ensures Connected(groups + [g + [path]], a, b)
  {
    var before, after := groups + [g], groups + [g + [path]];
    assert g + [path] in after;
    forall x, y | Adjacent(before, x, y) ensures Adjacent(after, x, y) {
      var h :| h in before && x in h && y in h;
      if h != g {
        assert h in after;
      }
    }
    MoreGroupsConnectMore(before, after, a, b);
  }

  lemma MergedLinksToRoot<T(!new)>(find: map<T, T>, groups: seq<seq<T>>, g: seq<T>, path: T)
    requires g != [] && g[0] in find && path in find && LinkedToRoot(find, groups + [g])
    ensures LinkedToRoot(Merged(find, find[g[0]], find[path]), groups + [g + [path]])
  {
    var after := groups + [g + [path]];
    var merged := Merged(find, find[g[0]], find[path]);
    MergedRootIsConnected(find, groups, g, path);
    forall p | p in merged ensures Connected(after, p, merged[p]) {
      assert Connected(groups + [g], p, find[p]);
      LongerGroupConnectsMore(groups, g, path, p, find[p]);
      if find[p] == find[path] {
        ReachesTransitive(Linked(after), p, find[path], find[g[0]]);
      }
    }
  }

  lemma MergedRespectsEach<T(!new)>(find: map<T, T>, groups: seq<seq<T>>, g: seq<T>, path: T, h: seq<T>)
    requires g != [] && Partitions(find, groups + [g]) && path in find
    requires h == g + [path] || h in groups + [g]
    ensures g[0] in find && OneRoot(Merged(find, find[g[0]], find[path]), h)
  {
    assert g in groups + [g];
    assert OneRoot(find, g);
    if h in groups + [g] {
      assert OneRoot(find, h);
    }
  }

  /** Linking a path to a group's first path extends the group by it. */
  lemma MergeExtendsGroup<T(!new)>(find: map<T, T>, groups: seq<seq<T>>, g: seq<T>, path: T)
    requires g != [] && Partitions(find, groups + [g]) && path in find
    ensures g[0] in find && Partitions(Merged(find, find[g[0]], find[path]), groups + [g + [path]])
  {
    var after := groups + [g + [path]];
    MergedRespectsEach(find, groups, g, path, g);
    MergedLinksToRoot(find, groups, g, path);
    var merged := Merged(find, find[g[0]], find[path]);
    forall h {:trigger OneRoot(merged, h)} | h in after ensures OneRoot(merged, h) {
      assert h == g + [path] || h in groups + [g];
      MergedRespectsEach(find, groups, g, path, h);
    }
  }

  lemma MergedRootIsConnected<T(!new)>(find: map<T, T>, groups: seq<seq<T>>, g: seq<T>, path: T)
    requires g != [] && g[0] in find && path in find && LinkedToRoot(find, groups + [g])
    ensures Connected(groups + [g + [path]], find[path], find[g[0]])
  {
    var edge := Linked(groups + [g + [path]]);
    assert Connected(groups + [g], path, find[path]) && Connected(groups + [g], g[0], find[g[0]]);
    LongerGroupConnectsMore(groups, g, path, path, find[path]);
    LongerGroupConnectsMore(groups, g, path, g[0], find[g[0]]);
    ReachesSymmetric(edge, path, find[path]);
    assert Adjacent(groups + [g + [path]], path, g[0]) by {
      assert g + [path] in groups + [g + [path]] && path in g + [path] && g[0] in g + [path];
    }
    EdgeReaches(edge, path, g[0]);
    ReachesTransitive(edge, find[path], path, g[0]);
    ReachesTransitive(edge, find[path], g[0], find[g[0]]);
  }

  lemma NewPathIsAlone<T(!new)>(find: map<T, T>, groups: seq<seq<T>>, path: T)
    requires Partitions(find, groups) && path !in find
    ensures Partitions(find[path := path], groups)
  {
    ReachesSelf(Linked(groups), path);
    var more := find[path := path];
    forall g | g in groups ensures OneRoot(more, g) {
      assert OneRoot(find, g);
    }
    forall p | p in more ensures Connected(groups, p, more[p]) {
      assert p in find ==> Connected(groups, p, find[p]);
    }
  }

  lemma FirstOfGroup<T(!new)>(find: map<T, T>, groups: seq<seq<T>>, path: T)
    requires Partitions(find, groups) && path in find
    ensures Partitions(find, groups + [[path]])
  {
    var after := groups + [[path]];
    forall x, y | Adjacent(groups, x, y) ensures Adjacent(after, x, y) {
      var h :| h in groups && x in h && y in h;
      assert h in after;
    }
    forall p | p in find ensures Connected(after, p, find[p]) {
      assert Connected(groups, p, find[p]);
      MoreGroupsConnectMore(groups, after, p, find[p]);
    }
    forall g | g in after ensures OneRoot(find, g) {
      assert g in groups || g == [path];
      assert g in groups ==> OneRoot(find, g);
    }
  }

  // ---------------------------------------------------------------- the forest

  /** The test with which `root` stops: an empty parent counts as none. */
  function ParentOf<T(!new)>(parent: map<T, T>, path: T, empty: T): Option<T> {
    if path in parent && parent[path] != empty && parent[path] != path then Some(parent[path]) else None
  }

  /** The pointers as `root` follows them. */
  function Up<T(!new)>(parent: map<T, T>, empty: T): map<T, T> {
    map p | p in parent :: if parent[p] == empty then p else parent[p]
  }

  function Joined<T(!new)>(parent: map<T, T>, left: T, right: T): map<T, T> {
    if left != right then parent[right := left] else parent
  }

  lemma UpJoined<T(!new)>(parent: map<T, T>, empty: T, left: T, right: T)
    requires right in parent && Up(parent, empty)[right] == right
    ensures Up(parent[right := left], empty) ==
            if left == empty then Up(parent, empty) else Up(parent, empty)[right := left]
  {
  }

  /** One node of a forest whose roots are `find`; `rank` grows towards the root. */
  ghost predicate Node<T(!new)>(parent: map<T, T>, find: map<T, T>, rank: map<T, nat>, height: nat, p: T)
    requires parent.Keys == find.Keys == rank.Keys && p in parent
  {
    && rank[p] < height
    && parent[p] in parent && find[parent[p]] == find[p]
    && find[p] in parent && parent[find[p]] == find[p] && find[find[p]] == find[p]
    && (parent[p] == p ==> find[p] == p)
    && (parent[p] != p ==> rank[p] < rank[parent[p]])
  }

  ghost predicate Forest<T(!new)>(parent: map<T, T>, find: map<T, T>, rank: map<T, nat>, height: nat) {
    && parent.Keys == find.Keys == rank.Keys
    && forall p {:trigger Node(parent, find, rank, height, p)} | p in parent :: Node(parent, find, rank, height, p)
  }

  /** Pointing a node at its root keeps every root. */
  lemma CompressedForest<T(!new)>(parent: map<T, T>, find: map<T, T>, rank: map<T, nat>, height: nat, p: T)
    requires Forest(parent, find, rank, height) && p in parent && Node(parent, find, rank, height, p)
    requires find[p] != p ==> rank[p] < rank[find[p]]
    ensures Forest(parent[p := find[p]], find, rank, height)
  {
    var compressed := parent[p := find[p]];
    forall q {:trigger Node(compressed, find, rank, height, q)} | q in compressed
      ensures Node(compressed, find, rank, height, q)
    {
      assert Node(parent, find, rank, height, q);
    }
  }

  /** A new path is its own root. */
  lemma GrownForest<T(!new)>(parent: map<T, T>, find: map<T, T>, rank: map<T, nat>, height: nat, path: T)
    requires Forest(parent, find, rank, height) && path !in parent
    ensures Forest(parent[path := path], find[path := path], rank[path := 0], height + 1)
  {
    var grown, found, ranked, tall := parent[path := path], find[path := path], rank[path := 0], height + 1;
    forall q {:trigger Node(grown, found, ranked, tall, q)} | q in grown
      ensures Node(grown, found, ranked, tall, q)
    {
      assert q in parent ==> Node(parent, find, rank, height, q);
    }
  }

  /** Putting one root under another moves its whole class there. */
  lemma JoinedForest<T(!new)>(parent: map<T, T>, find: map<T, T>, rank: map<T, nat>, height: nat, left: T, right: T)
    requires Forest(parent, find, rank, height)
    requires left in parent && right in parent && left != right && find[left] == left && find[right] == right
    ensures var above := rank[left] + rank[right] + 1;
            Forest(Joined(parent, left, right), Merged(find, left, right), rank[left := above], height + above + 1)
  {
    var above := rank[left] + rank[right] + 1;
    var joined, merged, ranked := Joined(parent, left, right), Merged(find, left, right), rank[left := above];
    var tall := height + above + 1;
    forall q {:trigger Node(joined, merged, ranked, tall, q)} | q in joined
      ensures Node(joined, merged, ranked, tall, q)
    {
      assert Node(parent, find, rank, height, left) && Node(parent, find, rank, height, right);
      assert Node(parent, find, rank, height, q);
      assert Node(parent, find, rank, height, parent[q]);
    }
  }

  // ---------------------------------------------------------------- the empty path

  /** Some group has put the empty path under another. */
  ghost predicate EmptyJoined<T(!new)>(groups: seq<seq<T>>, empty: T) {
    exists g | g in groups :: g != [] && g[0] != empty && empty in g
  }

  /** The groups that join anything: one led by the empty path does not, until another has put that path under its
      own. */
  ghost function Joining<T(!new)>(groups: seq<seq<T>>, empty: T): seq<seq<T>> {
    if groups == [] then []
    else
      var k := |groups| - 1;
      var before := Joining(groups[..k], empty);
      if groups[k] != [] && groups[k][0] == empty && !EmptyJoined(groups[..k], empty) then before
      else before + [groups[k]]
  }

  lemma {:induction false} JoiningAre<T(!new)>(groups: seq<seq<T>>, empty: T)
    ensures forall g | g in Joining(groups, empty) :: g in groups
    ensures forall g | g in groups && (g == [] || g[0] != empty) :: g in Joining(groups, empty)
    ensures (forall g | g in groups :: g == [] || g[0] != empty) ==> Joining(groups, empty) == groups
    ensures !EmptyJoined(groups, empty) ==> forall g | g in Joining(groups, empty) :: empty !in g
  {
    if groups != [] {
      var k := |groups| - 1;
      JoiningAre(groups[..k], empty);
      assert groups == groups[..k] + [groups[k]];
      assert EmptyJoined(groups[..k], empty) ==> EmptyJoined(groups, empty);
    }
  }

  ghost predicate RootsAgree<T(!new)>(groups: seq<seq<T>>, empty: T) {
    forall a, b :: Connected(Joining(groups, empty), a, b) <==> Connected(groups, a, b)
  }

  /** Every group led by the empty path holds only what the joining groups connect to it. */
  ghost predicate LeadsNothingNew<T(!new)>(groups: seq<seq<T>>, empty: T) {
    forall g, p | g in groups && g != [] && g[0] == empty && p in g :: Connected(Joining(groups, empty), empty, p)
  }

  /** Roots separate no paths that the groups connect if and only if the empty path leads no group into anything new. */
  lemma RootsAgreeExactly<T(!new)>(groups: seq<seq<T>>, empty: T)
    ensures RootsAgree(groups, empty) <==> LeadsNothingNew(groups, empty)
  {
    JoiningAre(groups, empty);
    var joining := Joining(groups, empty);
    if RootsAgree(groups, empty) {
      forall g, p | g in groups && g != [] && g[0] == empty && p in g ensures Connected(joining, empty, p) {
        assert Adjacent(groups, empty, p);
        EdgeReaches(Linked(groups), empty, p);
      }
    }
    if LeadsNothingNew(groups, empty) {
      forall a, b ensures Connected(joining, a, b) <==> Connected(groups, a, b) {
        forall x, y | Adjacent(groups, x, y) ensures Connected(joining, x, y) {
          LinkStaysConnected(groups, empty, x, y);
        }
        if Connected(groups, a, b) {
          ReachesThrough(Linked(groups), Linked(joining), a, b);
        }
        if Connected(joining, a, b) {
          MoreGroupsConnectMore(joining, groups, a, b);
        }
      }
    }
  }

  lemma LinkStaysConnected<T(!new)>(groups: seq<seq<T>>, empty: T, a: T, b: T)
    requires LeadsNothingNew(groups, empty) && Adjacent(groups, a, b)
    ensures Connected(Joining(groups, empty), a, b)
  {
    var joining := Joining(groups, empty);
    JoiningAre(groups, empty);
    var g :| g in groups && a in g && b in g;
    if g[0] == empty {
      assert Connected(joining, empty, a) && Connected(joining, empty, b);
      ReachesSymmetric(Linked(joining), empty, a);
      ReachesTransitive(Linked(joining), a, empty, b);
    } else {
      assert Adjacent(joining, a, b);
      EdgeReaches(Linked(joining), a, b);
    }
  }

  /** While nothing has put the empty path under another, that is: it leads no group that holds a second path. */
  lemma LeadingEmptySeparates<T(!new)>(groups: seq<seq<T>>, empty: T)
    requires !EmptyJoined(groups, empty)
    ensures RootsAgree(groups, empty) <==>
            forall g, p | g in groups && g != [] && g[0] == empty && p in g :: p == empty
  {
    var joining := Joining(groups, empty);
    RootsAgreeExactly(groups, empty);
    JoiningAre(groups, empty);
    forall p ensures Connected(joining, empty, p) <==> p == empty {
      ReachesSelf(Linked(joining), empty);
      if Connected(joining, empty, p) {
        ClosedKeepsReachable(Linked(joining), {empty}, empty, p);
      }
    }
  }

  /** In front the empty path joins nothing; behind another it is joined like any path. */
  lemma EmptyPathSeparates()
    ensures !RootsAgree([["", "a"]], "") && RootsAgree([["a", ""]], "")
  {
    var led, behind: seq<string> := ["", "a"], ["a", ""];
    assert !EmptyJoined([led], "");
    assert led in [led] && "a" in led;
    LeadingEmptySeparates([led], "");
    JoiningAre([behind], "");
  }

  ghost predicate OnlyEmptyIsEmpty<T(!new)>(find: map<T, T>, empty: T) {
    forall p | p in find && find[p] == empty :: p == empty
  }

  /** What putting one root under another makes of the forest that lookups see. */
  lemma LinkedForest<T(!new)>(parent: map<T, T>, empty: T, find: map<T, T>, rank: map<T, nat>, height: nat, left: T,
                              right: T)
    requires Forest(Up(parent, empty), find, rank, height) && OnlyEmptyIsEmpty(find, empty)
    requires left in parent && right in parent && left != right && find[left] == left && find[right] == right
    ensures left == empty ==> Up(Joined(parent, left, right), empty) == Up(parent, empty)
    ensures var above := rank[left] + rank[right] + 1;
            left != empty ==>
              && Forest(Up(Joined(parent, left, right), empty), Merged(find, left, right), rank[left := above],
                        height + above + 1)
              && OnlyEmptyIsEmpty(Merged(find, left, right), empty)
  {
    assert Node(Up(parent, empty), find, rank, height, right);
    UpJoined(parent, empty, left, right);
    if left != empty {
      JoinedForest(Up(parent, empty), find, rank, height, left, right);
    }
  }

  ghost predicate AllKnown<T(!new)>(find: map<T, T>, g: seq<T>) {
    forall p | p in g :: p in find
  }

  /** The roots after these groups were connected. */
  ghost predicate Sound<T(!new)>(find: map<T, T>, groups: seq<seq<T>>, empty: T) {
    && Partitions(find, Joining(groups, empty))
    && (forall g {:trigger AllKnown(find, g)} | g in groups :: AllKnown(find, g))
    && (empty in find ==> (find[empty] == empty <==> !EmptyJoined(groups, empty)))
  }

  /** The path lies in the class of one of the group's. */
  ghost predicate Touches<T(!new)>(find: map<T, T>, group: seq<T>, p: T) {
    exists q | q in group :: RootIn(find, q) == RootIn(find, p)
  }

  /** The first path keeps its root, the classes the group touches take it, and every other class keeps its own. */
  ghost predicate LeaderStays<T(!new)>(find: map<T, T>, was: map<T, T>, group: seq<T>)
    requires group != []
  {
    && RootIn(find, group[0]) == RootIn(was, group[0])
    && forall p :: RootIn(find, p) == RootIn(was, p) ||
                   (RootIn(find, p) == RootIn(was, group[0]) && Touches(was, group, p))
  }

  lemma LeaderMerged<T(!new)>(find: map<T, T>, was: map<T, T>, group: seq<T>, path: T)
    requires group != [] && LeaderStays(find, was, group) && find.Keys == was.Keys
    requires group[0] in find && path in find
    ensures LeaderStays(Merged(find, find[group[0]], find[path]), was, group + [path])
  {
    var more, now := group + [path], Merged(find, find[group[0]], find[path]);
    forall p
      ensures RootIn(now, p) == RootIn(was, p) || (RootIn(now, p) == RootIn(was, more[0]) && Touches(was, more, p))
    {
      if Touches(was, group, p) {
        var q :| q in group && RootIn(was, q) == RootIn(was, p);
        assert q in more;
      }
      assert path in more;
    }
  }

  /** The classes after a group's paths are linked, and whether the empty path is still its own root. */
  ghost predicate LinkedUp<T(!new)>(find: map<T, T>, was: map<T, T>, before: seq<seq<T>>, linked: seq<T>, empty: T)
    requires linked != [] && linked[0] in was
  {
    if was[linked[0]] == empty then find == was
    else
      && Partitions(find, before + [linked]) && linked[0] in find && LeaderStays(find, was, linked)
      && (empty in find && empty in was ==> (find[empty] == empty <==> was[empty] == empty && empty !in linked))
  }

  /** Linking the whole group accounts for it. */
  lemma GroupLinked<T(!new)>(find: map<T, T>, was: map<T, T>, groups: seq<seq<T>>, g: seq<T>, empty: T)
    requires g != [] && find.Keys == was.Keys && forall p | p in g :: p in was
    requires Sound(was, groups, empty) && LinkedUp(find, was, Joining(groups, empty), g, empty)
    requires OnlyEmptyIsEmpty(was, empty)
    ensures Sound(find, groups + [g], empty)
  {
    var more := groups + [g];
    assert more[..|groups|] == groups;
    assert EmptyJoined(more, empty) <==> EmptyJoined(groups, empty) || (g[0] != empty && empty in g);
    assert was[g[0]] == empty <==> g[0] == empty && !EmptyJoined(groups, empty);
    forall h {:trigger AllKnown(find, h)} | h in more ensures AllKnown(find, h) {
      assert h in groups ==> AllKnown(was, h);
    }
  }

  /** A path nobody has named yet is its own root. */
  lemma PathAdded<T(!new)>(find: map<T, T>, groups: seq<seq<T>>, path: T, empty: T)
    requires Sound(find, groups, empty) && path !in find
    ensures Sound(find[path := path], groups, empty)
  {
    NewPathIsAlone(find, Joining(groups, empty), path);
    forall h {:trigger AllKnown(find[path := path], h)} | h in groups ensures AllKnown(find[path := path], h) {
      assert AllKnown(find, h);
    }
    assert forall h | h in groups && path in h :: AllKnown(find, h);
  }

  // ---------------------------------------------------------------- the class

  /** The nodes are paths; they are only compared, and `empty` is the path that reads as missing. */
  class PathGraph<T(==, !new)> {
    const empty: T
    var parent: map<T, T>
    ghost var find: map<T, T>
    ghost var rank: map<T, nat>
    ghost var height: nat
    ghost var groups: seq<seq<T>>

    ghost predicate Valid()
      reads this
    {
      IsForest() && Sound(find, groups, empty)
    }

    /** Only the empty path can have the empty path as its root. */
    ghost predicate IsForest()
      reads this
    {
      && Forest(Up(parent, empty), find, rank, height)
      && OnlyEmptyIsEmpty(find, empty)
    }

    constructor (empty: T)
      ensures this.empty == empty && Valid() && groups == [] && parent == map[]
    {
      this.empty := empty;
      parent, find, rank, height, groups := map[], map[], map[], 0, [];
    }

    /** Follow parents to the root and point every path on the way straight at it. */
    method Root(path: T) returns (root: T)
      requires IsForest()
      modifies this`parent
      ensures IsForest()
      ensures parent.Keys == old(parent.Keys)
      ensures root == RootIn(find, path)
      ensures path in parent ==> root in rank && rank[path] <= rank[root]
      decreases if path in rank then height - rank[path] else 0
    {
      var up := ParentOf(parent, path, empty);
      assert path in parent ==> Node(Up(parent, empty), find, rank, height, path);
      if up.None? {
        return path;
      }
      assert Node(Up(parent, empty), find, rank, height, up.value);
      root := Root(up.value);
      assert Node(Up(parent, empty), find, rank, height, path);
      CompressedForest(Up(parent, empty), find, rank, height, path);
      assert Up(parent[path := root], empty) == Up(parent, empty)[path := root];
      parent := parent[path := root];
    }

    /** `root` from outside: the class's representative. */
    method RootOf(path: T) returns (root: T)
      requires Valid()
      modifies this`parent
      ensures Valid() && parent.Keys == old(parent.Keys)
      ensures root == RootIn(find, path)
    {
      root := Root(path);
    }

    lemma RootsAreKnown()
      requires IsForest()
      ensures find.Keys == parent.Keys && forall p | p in find :: find[p] in find && find[find[p]] == find[p]
    {
      forall p | p in find ensures find[p] in find && find[find[p]] == find[p] {
        assert Node(Up(parent, empty), find, rank, height, p);
      }
    }

    /** What `root` tells: two paths have one root exactly when the joining groups connect them. */
    method SameRoot(a: T, b: T) returns (same: bool)
      requires Valid()
      modifies this`parent
      ensures Valid()
      ensures same <==> Connected(Joining(groups, empty), a, b)
    {
      var left := Root(a);
      var right := Root(b);
      SameRootIsConnected(find, Joining(groups, empty), a, b);
      same := left == right;
    }

    method Add(path: T)
      requires Valid()
      modifies this`parent, this`find, this`rank, this`height
      ensures Valid()
      ensures parent.Keys == old(parent.Keys) + {path}
      ensures forall p :: RootIn(find, p) == RootIn(old(find), p)
    {
      if path !in parent {
        PathAdded(find, groups, path, empty);
        GrownForest(Up(parent, empty), find, rank, height, path);
        assert Up(parent[path := path], empty) == Up(parent, empty)[path := path];
        parent := parent[path := path];
        find := find[path := path];
        rank := rank[path := 0];
        height := height + 1;
      }
    }

    /** The right path's class joins the left's; nothing joins the empty path while it is its own root. */
    method Union(left: T, right: T)
      requires IsForest() && left in parent && right in parent
      modifies this`parent, this`find, this`rank, this`height
      ensures IsForest()
      ensures parent.Keys == old(parent.Keys)
      ensures find == if old(find)[left] == empty then old(find)
                      else Merged(old(find), old(find)[left], old(find)[right])
    {
      var leftRoot := Root(left);
      var rightRoot := Root(right);
      RootsAreKnown();
      if leftRoot != rightRoot {
        Attach(leftRoot, rightRoot);
      } else {
        MergedSame(find, leftRoot);
      }
    }

    /** Put one root under another. */
    method Attach(left: T, right: T)
      requires IsForest() && left in parent && right in parent && left != right && find[left] == left &&
               find[right] == right
      modifies this`parent, this`find, this`rank, this`height
      ensures IsForest()
      ensures parent.Keys == old(parent.Keys)
      ensures find == if left == empty then old(find) else Merged(old(find), left, right)
    {
      LinkedForest(parent, empty, find, rank, height, left, right);
      parent := parent[right := left];
      if left != empty {
        ghost var above := rank[left] + rank[right] + 1;
        rank, height, find := rank[left := above], height + above + 1, Merged(find, left, right);
      }
    }

    method AddAll(paths: seq<T>)
      requires Valid()
      modifies this`parent, this`find, this`rank, this`height
      ensures Valid()
      ensures parent.Keys == old(parent.Keys) + set p | p in paths
      ensures forall p :: RootIn(find, p) == RootIn(old(find), p)
    {
      for i := 0 to |paths|
        invariant Valid()
        invariant forall p :: RootIn(find, p) == RootIn(old(find), p)
        invariant parent.Keys == old(parent.Keys) + set p | p in paths[..i]
      {
        Add(paths[i]);
        assert paths[..i + 1] == paths[..i] + [paths[i]];
      }
      assert paths[..|paths|] == paths;
    }

    /** Union a group's first path with one more, which puts that path into the group. */
    method LinkNext(first: T, path: T, ghost was: map<T, T>, ghost before: seq<seq<T>>, ghost linked: seq<T>)
      requires IsForest() && linked != [] && linked[0] == first && path in parent && first in parent
      requires first in was && was.Keys == find.Keys && LinkedUp(find, was, before, linked, empty)
      modifies this`parent, this`find, this`rank, this`height
      ensures IsForest() && parent.Keys == old(parent.Keys) && find.Keys == old(find.Keys)
      ensures LinkedUp(find, was, before, linked + [path], empty)
    {
      if find[first] != empty {
        MergeExtendsGroup(find, before, linked, path);
        LeaderMerged(find, was, linked, path);
      }
      assert Node(Up(parent, empty), find, rank, height, first) && Node(Up(parent, empty), find, rank, height, path);
      Union(first, path);
    }

    method LinkAll(paths: seq<T>, ghost before: seq<seq<T>>)
      requires paths != [] && IsForest() && find.Keys == parent.Keys && forall p | p in paths :: p in parent
      requires paths[0] in find && LinkedUp(find, find, before, paths[..1], empty)
      modifies this`parent, this`find, this`rank, this`height
      ensures IsForest() && parent.Keys == old(parent.Keys) && find.Keys == parent.Keys
      ensures paths[0] in old(find) && LinkedUp(find, old(find), before, paths, empty)
    {
      for i := 1 to |paths|
        invariant IsForest() && parent.Keys == old(parent.Keys) && find.Keys == parent.Keys
        invariant LinkedUp(find, old(find), before, paths[..i], empty)
      {
        assert paths[i] in parent.Keys && paths[0] in parent.Keys;
        LinkNext(paths[0], paths[i], old(find), before, paths[..i]);
        assert paths[..i + 1] == paths[..i] + [paths[i]];
      }
      assert paths[..|paths|] == paths;
    }

    /** Link a group: its first path with every other. */
    method Connect(paths: seq<T>)
      requires Valid()
      modifies this
      ensures Valid()
      ensures groups == if paths == [] then old(groups) else old(groups) + [paths]
      ensures parent.Keys == old(parent.Keys) + set p | p in paths
      ensures if paths == [] then find == old(find) else LeaderStays(find, old(find), paths)
    {
      if paths == [] {
        return;
      }
      AddAll(paths);
      ghost var before := Joining(groups, empty);
      ghost var was := find;
      assert paths[0] in parent.Keys;
      if find[paths[0]] != empty {
        FirstOfGroup(find, before, paths[0]);
      }
      assert paths[..1] == [paths[0]];
      LinkAll(paths, before);
      GroupLinked(find, was, groups, paths, empty);
      groups := groups + [paths];
    }
  }
}
