/** Walks over a relation: what the grouping and worklist loops compute. */
module Reachability {
  /** Every consecutive pair of `walk` is an edge. */
  ghost predicate Walk<T(!new)>(edge: (T, T) -> bool, walk: seq<T>) {
    walk != [] && (|walk| > 1 ==> edge(walk[0], walk[1]) && Walk(edge, walk[1..]))
  }

  ghost predicate WalkBetween<T(!new)>(edge: (T, T) -> bool, walk: seq<T>, a: T, b: T) {
    Walk(edge, walk) && walk[0] == a && walk[|walk| - 1] == b
  }

  /** The reflexive-transitive closure of `edge`. */
  ghost predicate Reaches<T(!new)>(edge: (T, T) -> bool, a: T, b: T) {
    exists walk: seq<T> :: WalkBetween(edge, walk, a, b)
  }

  ghost predicate Symmetric<T(!new)>(edge: (T, T) -> bool) {
    forall a, b :: edge(a, b) ==> edge(b, a)
  }

  ghost predicate Closed<T(!new)>(edge: (T, T) -> bool, s: set<T>) {
    forall a, b :: a in s && edge(a, b) ==> b in s
  }

  lemma ReachesSelf<T(!new)>(edge: (T, T) -> bool, a: T)
    ensures Reaches(edge, a, a)
  {
    assert WalkBetween(edge, [a], a, a);
  }

  lemma EdgeReaches<T(!new)>(edge: (T, T) -> bool, a: T, b: T)
    requires edge(a, b)
    ensures Reaches(edge, a, b)
  {
    assert [a, b][1..] == [b];
    assert WalkBetween(edge, [a, b], a, b);
  }

  lemma {:induction false} WalksJoin<T(!new)>(edge: (T, T) -> bool, u: seq<T>, v: seq<T>)
    requires Walk(edge, u) && Walk(edge, v) && u[|u| - 1] == v[0]
    ensures Walk(edge, u + v[1..])
    ensures (u + v[1..])[0] == u[0] && (u + v[1..])[|u + v[1..]| - 1] == v[|v| - 1]
  {
    if |u| == 1 {
      assert u + v[1..] == v;
    } else {
      WalksJoin(edge, u[1..], v);
      assert (u + v[1..])[1..] == u[1..] + v[1..];
    }
  }

  lemma ReachesTransitive<T(!new)>(edge: (T, T) -> bool, a: T, b: T, c: T)
    requires Reaches(edge, a, b) && Reaches(edge, b, c)
    ensures Reaches(edge, a, c)
  {
    var u: seq<T> :| WalkBetween(edge, u, a, b);
    var v: seq<T> :| WalkBetween(edge, v, b, c);
    WalksJoin(edge, u, v);
    assert WalkBetween(edge, u + v[1..], a, c);
  }

  lemma {:induction false} WalkReverses<T(!new)>(edge: (T, T) -> bool, w: seq<T>)
    requires Symmetric(edge) && Walk(edge, w)
    ensures Reaches(edge, w[|w| - 1], w[0])
  {
    if |w| == 1 {
      ReachesSelf(edge, w[0]);
    } else {
      WalkReverses(edge, w[1..]);
      EdgeReaches(edge, w[1], w[0]);
      ReachesTransitive(edge, w[|w| - 1], w[1], w[0]);
    }
  }

  lemma ReachesSymmetric<T(!new)>(edge: (T, T) -> bool, a: T, b: T)
    requires Symmetric(edge) && Reaches(edge, a, b)
    ensures Reaches(edge, b, a)
  {
    var w: seq<T> :| WalkBetween(edge, w, a, b);
    WalkReverses(edge, w);
  }

  lemma {:induction false} WalkStays<T(!new)>(edge: (T, T) -> bool, s: set<T>, w: seq<T>)
    requires Closed(edge, s) && Walk(edge, w) && w[0] in s
    ensures w[|w| - 1] in s
  {
    if |w| > 1 {
      WalkStays(edge, s, w[1..]);
    }
  }

  /** A closed set keeps everything reachable from inside it. */
  lemma ClosedKeepsReachable<T(!new)>(edge: (T, T) -> bool, s: set<T>, a: T, b: T)
    requires Closed(edge, s) && a in s && Reaches(edge, a, b)
    ensures b in s
  {
    var w: seq<T> :| WalkBetween(edge, w, a, b);
    WalkStays(edge, s, w);
  }

  lemma {:induction false} WalkMonotone<T(!new)>(edge: (T, T) -> bool, more: (T, T) -> bool, w: seq<T>)
    requires Walk(edge, w) && forall a, b :: edge(a, b) ==> more(a, b)
    ensures Walk(more, w)
  {
    if |w| > 1 {
      WalkMonotone(edge, more, w[1..]);
    }
  }

  lemma ReachesMonotone<T(!new)>(edge: (T, T) -> bool, more: (T, T) -> bool, a: T, b: T)
    requires Reaches(edge, a, b) && forall x, y :: edge(x, y) ==> more(x, y)
    ensures Reaches(more, a, b)
  {
    var w: seq<T> :| WalkBetween(edge, w, a, b);
    WalkMonotone(edge, more, w);
    assert WalkBetween(more, w, a, b);
  }

  /** Relations with the same edges have the same closure. */
  lemma ReachesSame<T(!new)>(edge: (T, T) -> bool, other: (T, T) -> bool, a: T, b: T)
    requires forall x, y :: edge(x, y) <==> other(x, y)
    ensures Reaches(edge, a, b) <==> Reaches(other, a, b)
  {
    if Reaches(edge, a, b) { ReachesMonotone(edge, other, a, b); }
    if Reaches(other, a, b) { ReachesMonotone(other, edge, a, b); }
  }

  lemma {:induction false} WalkThrough<T(!new)>(edge: (T, T) -> bool, other: (T, T) -> bool, w: seq<T>)
    requires Walk(edge, w) && forall a, b | edge(a, b) :: Reaches(other, a, b)
    ensures Reaches(other, w[0], w[|w| - 1])
  {
    if |w| == 1 {
      ReachesSelf(other, w[0]);
    } else {
      WalkThrough(edge, other, w[1..]);
      ReachesTransitive(other, w[0], w[1], w[|w| - 1]);
    }
  }

  /** If every edge is within another closure, so is every walk. */
  lemma ReachesThrough<T(!new)>(edge: (T, T) -> bool, other: (T, T) -> bool, a: T, b: T)
    requires Reaches(edge, a, b) && forall x, y | edge(x, y) :: Reaches(other, x, y)
    ensures Reaches(other, a, b)
  {
    var w: seq<T> :| WalkBetween(edge, w, a, b);
    WalkThrough(edge, other, w);
  }
}
