/** The recogniser of one unbranched rename chain: isLocalChain of
    src/sync/identity-component-report-family.ts. */
module ReportChain {
  import opened Sequences
  import opened Wrappers

  /** Paths and identities are only compared here. */
  type Path(==, !new)
  type Identity(==, !new)

  datatype Claim = Claim(oldPath: Path, newPath: Path, isLocal: bool, isFolder: bool, identityKey: Option<Identity>)

  type Edge = (Path, Path)

  function EdgeOf(c: Claim): Edge { (c.oldPath, c.newPath) }

  function Edges(claims: seq<Claim>): seq<Edge> {
    if claims == [] then [] else Edges(claims[..|claims| - 1]) + [EdgeOf(claims[|claims| - 1])]
  }

  /** What selectReportFamily has checked before it asks. */
  ghost predicate OneTargetPerSource(claims: seq<Claim>) {
    forall c, d | c in claims && d in claims && c.oldPath == d.oldPath :: c.newPath == d.newPath
  }

  ghost predicate OneSourcePerTarget(claims: seq<Claim>) {
    forall c, d | c in claims && d in claims && c.newPath == d.newPath :: c.oldPath == d.oldPath
  }

  ghost predicate AllLocalFiles(claims: seq<Claim>) {
    forall c | c in claims :: c.isLocal && !c.isFolder
  }

  function PathEdges(w: seq<Path>): seq<Edge>
    requires w != []
  {
    seq(|w| - 1, i requires 0 <= i < |w| - 1 => (w[i], w[i + 1]))
  }

  /** The claims, counted with repetition, are the edges of one path that meets no address twice. */
  ghost predicate FormsPath(claims: seq<Claim>, w: seq<Path>) {
    w != [] && Distinct(w) && multiset(PathEdges(w)) == multiset(Edges(claims))
  }

  ghost predicate SinglePath(claims: seq<Claim>) {
    claims != [] && exists w: seq<Path> :: FormsPath(claims, w)
  }

  // ---------------------------------------------------------------- the claims as edges

  ghost predicate IsEdge(claims: seq<Claim>, a: Path, b: Path) {
    exists c | c in claims :: c.oldPath == a && c.newPath == b
  }

  ghost predicate IsTarget(claims: seq<Claim>, p: Path) {
    exists c | c in claims :: c.newPath == p
  }

  lemma {:induction false} EdgesAre(claims: seq<Claim>)
    ensures |Edges(claims)| == |claims|
    ensures forall e :: e in Edges(claims) <==> IsEdge(claims, e.0, e.1)
  {
    if claims != [] {
      var rest, last := claims[..|claims| - 1], claims[|claims| - 1];
      EdgesAre(rest);
      assert claims == rest + [last];
      forall e ensures e in Edges(claims) <==> IsEdge(claims, e.0, e.1) {
        assert IsEdge(claims, e.0, e.1) <==> IsEdge(rest, e.0, e.1) || EdgeOf(last) == e;
      }
    }
  }

  /** `w` follows claims from its first address. */
  ghost predicate Follows(claims: seq<Claim>, w: seq<Path>) {
    w != [] && forall i | 0 <= i < |w| - 1 :: IsEdge(claims, w[i], w[i + 1])
  }

  lemma PathFollows(claims: seq<Claim>, w: seq<Path>)
    requires FormsPath(claims, w)
    ensures Follows(claims, w) && |w| == |claims| + 1
    ensures forall a, b | IsEdge(claims, a, b) :: exists i | 0 <= i < |w| - 1 :: w[i] == a && w[i + 1] == b
  {
    EdgesAre(claims);
    assert |multiset(PathEdges(w))| == |multiset(Edges(claims))|;
    forall i | 0 <= i < |w| - 1 ensures IsEdge(claims, w[i], w[i + 1]) {
      assert PathEdges(w)[i] in multiset(Edges(claims));
    }
    forall a, b | IsEdge(claims, a, b) ensures exists i | 0 <= i < |w| - 1 :: w[i] == a && w[i + 1] == b {
      assert (a, b) in Edges(claims);
      assert (a, b) in multiset(PathEdges(w));
      var i :| 0 <= i < |PathEdges(w)| && PathEdges(w)[i] == (a, b);
    }
  }

  // ---------------------------------------------------------------- a followed path is simple

  /** With one source per target, a walk from an address that is no target never returns. */
  lemma {:induction false} NeverReturns(claims: seq<Claim>, w: seq<Path>, i: nat, j: nat)
    requires OneSourcePerTarget(claims) && Follows(claims, w) && !IsTarget(claims, w[0])
    requires i < j < |w|
    ensures w[i] != w[j]
  {
    assert IsEdge(claims, w[j - 1], w[j]);
    if i > 0 && w[i] == w[j] {
      assert IsEdge(claims, w[i - 1], w[i]);
      NeverReturns(claims, w, i - 1, j - 1);
      assert false;
    }
  }

  lemma {:induction false} DistinctOnce<T>(s: seq<T>, x: T)
    requires Distinct(s)
    ensures multiset(s)[x] == if x in s then 1 else 0
  {
    if s != [] {
      var rest, last := s[..|s| - 1], s[|s| - 1];
      assert s == rest + [last];
      DistinctOnce(rest, x);
    }
  }

  /** A bag of distinct elements inside another bag of the same size is that bag. */
  lemma SameSizeBags<T>(s: seq<T>, t: seq<T>)
    requires Distinct(s) && |s| == |t| && forall x | x in s :: x in t
    ensures multiset(s) == multiset(t)
  {
    forall x ensures multiset(s)[x] <= multiset(t)[x] {
      DistinctOnce(s, x);
      assert x in s ==> x in multiset(t);
    }
    assert multiset(s) <= multiset(t);
    assert multiset(t) == multiset(s) + (multiset(t) - multiset(s));
    assert |multiset(t) - multiset(s)| == 0;
  }

  /** A walk over as many claims as there are, from an address that is no target, is the single path. */
  lemma FullWalkIsPath(claims: seq<Claim>, w: seq<Path>)
    requires OneSourcePerTarget(claims) && Follows(claims, w) && !IsTarget(claims, w[0]) && |w| == |claims| + 1
    ensures FormsPath(claims, w)
  {
    EdgesAre(claims);
    forall i, j | 0 <= i < j < |w| ensures w[i] != w[j] {
      NeverReturns(claims, w, i, j);
    }
    assert Distinct(PathEdges(w));
    forall e | e in PathEdges(w) ensures e in Edges(claims) {
      var i :| 0 <= i < |PathEdges(w)| && PathEdges(w)[i] == e;
      assert IsEdge(claims, w[i], w[i + 1]);
    }
    SameSizeBags(PathEdges(w), Edges(claims));
  }

  // ---------------------------------------------------------------- the start

  function Starts(claims: seq<Claim>, targets: set<Path>): seq<Claim> {
    if claims == [] then []
    else
      var last := claims[|claims| - 1];
      var before := Starts(claims[..|claims| - 1], targets);
      if last.oldPath in targets then before else before + [last]
  }

  lemma {:induction false} StartsAre(claims: seq<Claim>, targets: set<Path>)
    ensures forall c :: c in Starts(claims, targets) <==> c in claims && c.oldPath !in targets
  {
    if claims != [] {
      StartsAre(claims[..|claims| - 1], targets);
      assert claims == claims[..|claims| - 1] + [claims[|claims| - 1]];
    }
  }

  /** Claims that alone start somewhere new are counted by their edge. */
  lemma {:induction false} StartsCount(claims: seq<Claim>, targets: set<Path>, e: Edge)
    requires forall c | c in claims :: c.oldPath !in targets <==> EdgeOf(c) == e
    ensures |Starts(claims, targets)| == multiset(Edges(claims))[e]
  {
    if claims != [] {
      var rest, last := claims[..|claims| - 1], claims[|claims| - 1];
      assert claims == rest + [last];
      StartsCount(rest, targets, e);
    }
  }

  lemma PathHasOneStart(claims: seq<Claim>, targets: set<Path>, w: seq<Path>)
    requires claims != [] && FormsPath(claims, w)
    requires forall p :: p in targets <==> IsTarget(claims, p)
    ensures |Starts(claims, targets)| == 1
    ensures !IsTarget(claims, w[0])
  {
    PathFollows(claims, w);
    if IsTarget(claims, w[0]) {
      var c :| c in claims && c.newPath == w[0];
      assert IsEdge(claims, c.oldPath, c.newPath);
    }
    var e := (w[0], w[1]);
    forall c | c in claims ensures c.oldPath !in targets <==> EdgeOf(c) == e {
      assert IsEdge(claims, c.oldPath, c.newPath);
      var i :| 0 <= i < |w| - 1 && w[i] == c.oldPath && w[i + 1] == c.newPath;
      if i > 0 {
        assert IsEdge(claims, w[i - 1], w[i]);
      }
    }
    StartsCount(claims, targets, e);
    assert PathEdges(w)[0] == e;
    assert Distinct(PathEdges(w));
    DistinctOnce(PathEdges(w), e);
  }

  /** With one target per source, a walk from the path's start is a prefix of the path. */
  lemma {:induction false} WalkIsPrefix(claims: seq<Claim>, v: seq<Path>, w: seq<Path>)
    requires OneTargetPerSource(claims) && Follows(claims, v) && Follows(claims, w)
    requires |w| <= |v| && w[0] == v[0]
    ensures w == v[..|w|]
  {
    if |w| > 1 {
      var k := |w| - 1;
      WalkIsPrefix(claims, v, w[..k]);
      assert IsEdge(claims, w[k - 1], w[k]) && IsEdge(claims, v[k - 1], v[k]);
      assert v[k - 1] == w[..k][k - 1];
    }
  }

  // ---------------------------------------------------------------- the recogniser

  /** `new Map` over the claims keeps the last claim of a source. */
  function BySource(claims: seq<Claim>, p: Path): Option<Claim> {
    if claims == [] then None
    else if claims[|claims| - 1].oldPath == p then Some(claims[|claims| - 1])
    else BySource(claims[..|claims| - 1], p)
  }

  lemma {:induction false} BySourceFinds(claims: seq<Claim>, p: Path)
    ensures match BySource(claims, p)
            case Some(c) => c in claims && c.oldPath == p
            case None => forall c | c in claims :: c.oldPath != p
  {
    if claims != [] {
      BySourceFinds(claims[..|claims| - 1], p);
      assert claims == claims[..|claims| - 1] + [claims[|claims| - 1]];
    }
  }

  lemma StartIsFirst(claims: seq<Claim>, targets: set<Path>, v: seq<Path>, start: Claim)
    requires FormsPath(claims, v) && start in claims && start.oldPath !in targets
    requires forall p :: p in targets <==> IsTarget(claims, p)
    ensures start.oldPath == v[0]
  {
    PathFollows(claims, v);
    forall i | 0 < i < |v| ensures IsTarget(claims, v[i]) {
      assert IsEdge(claims, v[i - 1], v[i]);
    }
    assert IsEdge(claims, start.oldPath, start.newPath);
    var i :| 0 <= i < |v| - 1 && v[i] == start.oldPath && v[i + 1] == start.newPath;
  }

  lemma OnlyTheLastEnds(claims: seq<Claim>, v: seq<Path>, k: nat)
    requires FormsPath(claims, v) && k < |v|
    ensures (exists c | c in claims :: c.oldPath == v[k]) <==> k < |v| - 1
  {
    PathFollows(claims, v);
    if k < |v| - 1 {
      assert IsEdge(claims, v[k], v[k + 1]);
    }
    if c :| c in claims && c.oldPath == v[k] {
      assert IsEdge(claims, c.oldPath, c.newPath);
    }
  }

  /** A walk that stops early, or is not over after all claims, is along no single path. */
  lemma StoppedWalk(claims: seq<Claim>, targets: set<Path>, w: seq<Path>, claim: Option<Claim>)
    requires OneTargetPerSource(claims) && Follows(claims, w) && |w| <= |claims| + 1
    requires forall p :: p in targets <==> IsTarget(claims, p)
    requires exists start :: start in claims && start.oldPath == w[0] && start.oldPath !in targets
    requires claim == BySource(claims, w[|w| - 1])
    requires if claim.Some? then |w| == |claims| + 1 else |w| < |claims| + 1
    ensures !SinglePath(claims)
  {
    BySourceFinds(claims, w[|w| - 1]);
    var start :| start in claims && start.oldPath == w[0] && start.oldPath !in targets;
    forall v: seq<Path> ensures !FormsPath(claims, v) {
      if FormsPath(claims, v) {
        PathFollows(claims, v);
        StartIsFirst(claims, targets, v, start);
        WalkIsPrefix(claims, v, w);
        assert w[|w| - 1] == v[|w| - 1];
        OnlyTheLastEnds(claims, v, |w| - 1);
      }
    }
  }

  /** True exactly when the claims are local file claims that form one simple path and nothing else. */
  method IsLocalChain(claims: seq<Claim>) returns (chain: bool)
    requires OneTargetPerSource(claims) && OneSourcePerTarget(claims)
    ensures chain <==> AllLocalFiles(claims) && SinglePath(claims)
  {
    if exists c | c in claims :: !c.isLocal || c.isFolder {
      return false;
    }
    var targets := set c | c in claims :: c.newPath;
    var starts := Starts(claims, targets);
    StartsAre(claims, targets);
    forall w: seq<Path> | claims != [] && FormsPath(claims, w) ensures |starts| == 1 {
      PathHasOneStart(claims, targets, w);
    }
    if |starts| != 1 {
      return false;
    }
    assert starts[0] in starts;
    var claim, count := Some(starts[0]), 0;
    ghost var w := [starts[0].oldPath];
    while claim.Some? && count < |claims|
      invariant count <= |claims| && |w| == count + 1 && w[0] == starts[0].oldPath && Follows(claims, w)
      invariant claim.Some? ==> claim.value in claims && claim.value.oldPath == w[count]
      invariant count > 0 || claim.None? ==> claim == BySource(claims, w[count])
    {
      assert IsEdge(claims, w[count], claim.value.newPath);
      count := count + 1;
      w := w + [claim.value.newPath];
      BySourceFinds(claims, claim.value.newPath);
      claim := BySource(claims, claim.value.newPath);
    }
    chain := claim.None? && count == |claims|;
    if chain {
      FullWalkIsPath(claims, w);
    } else {
      StoppedWalk(claims, targets, w, claim);
    }
  }
}
