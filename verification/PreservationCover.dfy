/** The restartable preservation cover: preservationCover of src/sync/identity-component-decision.ts and
    executePreservationCover of src/sync/plan-executor.ts. */
module PreservationCover {
  import opened Sequences
  import opened SyncTypes
  import opened Wrappers

  /** File contents are only compared here. */
  type Content(==, !new)

  datatype Path = Path(text: string)

  datatype Digest = Digest(text: string)

  /** Provider identities are only compared here. */
  type Identity(==, !new)

  /** A stored row: the digest it names and the provider object it is committed for. */
  datatype Row = Row(digest: Digest, id: Identity)

  /** Both filesystems, the provider object behind each remote file, and the row stored at each address. */
  datatype World = World(local: map<Path, Content>, remote: map<Path, Content>, ids: map<Path, Identity>,
                         rows: map<Path, Row>)

  function At(w: World, side: Side): map<Path, Content> {
    if side.LocalSide? then w.local else w.remote
  }

  function Found(m: map<Path, Content>, p: Path): Option<Content> {
    if p in m then Some(m[p]) else None
  }

  /** Where each version is preserved, its digest, and the object a new remote copy of it becomes. */
  datatype Naming = Naming(at: Content -> Path, sha: Content -> Digest, newId: Content -> Identity)

  /** The versions have candidates of their own. */
  ghost predicate NamesApart(n: Naming, versions: seq<Content>) {
    forall i, j | 0 <= i < j < |versions| :: n.at(versions[i]) != n.at(versions[j])
  }

  // ---------------------------------------------------------------- the decision

  datatype Child = Child(version: Content, candidatePath: Path,
                         expectedLocal: Option<Content>, expectedRemote: Option<Content>,
                         missingSides: seq<Side>, baseline: Option<Row>)

  /** A row to delete, if it still is the captured one. */
  datatype Cleanup = Cleanup(path: Path, expected: Row)

  datatype Cover = Cover(candidatePaths: seq<Path>, preservedPaths: seq<Path>,
                         children: seq<Child>, cleanup: seq<Cleanup>)

  /** The candidate holds the version on both sides, under a row with its digest. */
  predicate Published(n: Naming, w: World, v: Content) {
    var c := n.at(v);
    && c in w.local && c in w.remote && w.local[c] == v && w.remote[c] == v
    && c in w.rows && w.rows[c].digest == n.sha(v)
  }

  /** Whatever is at the candidate already is this version. */
  predicate Available(n: Naming, w: World, v: Content) {
    var c := n.at(v);
    (c in w.local ==> w.local[c] == v) && (c in w.remote ==> w.remote[c] == v)
  }

  function MissingSides(w: World, c: Path): seq<Side> {
    (if c in w.local then [] else [LocalSide]) + (if c in w.remote then [] else [RemoteSide])
  }

  function RowAt(w: World, p: Path): Option<Row> {
    if p in w.rows then Some(w.rows[p]) else None
  }

  function ChildOf(n: Naming, w: World, v: Content): Child {
    var c := n.at(v);
    Child(v, c, Found(w.local, c), Found(w.remote, c), MissingSides(w, c), RowAt(w, c))
  }

  function Candidates(n: Naming, versions: seq<Content>): seq<Path> {
    seq(|versions|, i requires 0 <= i < |versions| => n.at(versions[i]))
  }

  function Preserved(n: Naming, w: World, versions: seq<Content>): seq<Path> {
    if versions == [] then []
    else
      var k := |versions| - 1;
      var before := Preserved(n, w, versions[..k]);
      if Published(n, w, versions[k]) then before + [n.at(versions[k])] else before
  }

  function Children(n: Naming, w: World, versions: seq<Content>): seq<Child> {
    if versions == [] then []
    else
      var k := |versions| - 1;
      var before := Children(n, w, versions[..k]);
      if Published(n, w, versions[k]) then before else before + [ChildOf(n, w, versions[k])]
  }

  /** Rows at original addresses that are not present on both sides. */
  function Cleanups(w: World, originals: seq<Path>): seq<Cleanup> {
    if originals == [] then []
    else
      var k := |originals| - 1;
      var before := Cleanups(w, originals[..k]);
      if Stale(w, originals[k]) then before + [Cleanup(originals[k], w.rows[originals[k]])] else before
  }

  predicate Stale(w: World, p: Path) {
    p in w.rows && !(p in w.local && p in w.remote)
  }

  ghost function CoverOf(n: Naming, w: World, versions: seq<Content>, originals: seq<Path>): Cover {
    Cover(Candidates(n, versions), Preserved(n, w, versions), Children(n, w, versions), Cleanups(w, originals))
  }

  /** Something already stands at a candidate. */
  predicate Evidence(n: Naming, w: World, versions: seq<Content>) {
    exists i | 0 <= i < |versions| ::
      n.at(versions[i]) in w.rows || n.at(versions[i]) in w.local || n.at(versions[i]) in w.remote
  }

  /** Committed originals and single versions need the abandoned relation, or evidence of a cover begun before. */
  predicate Applies(abandoned: bool, n: Naming, w: World, versions: seq<Content>, originals: seq<Path>) {
    && (abandoned || Evidence(n, w, versions) || forall p | p in originals :: p !in w.rows)
    && (abandoned || Evidence(n, w, versions) || |versions| != 1)
  }

  /** What the observation says of the sources, of scope, and of the candidates it looked at on both sides. */
  datatype Facts = Facts(witnesses: nat, sources: nat, hashed: bool, abandoned: bool,
                         includes: Path -> bool, observed: Path -> bool)

  datatype Outcome = NoCover | UnknownObservation | Unavailable | Decided(cover: Cover)

  /** The candidate is in scope, was looked at, and holds nothing but the version. */
  predicate Usable(f: Facts, n: Naming, w: World, v: Content) {
    f.includes(n.at(v)) && f.observed(n.at(v)) && Available(n, w, v)
  }

  /** Whether the decision reaches the candidates at all. */
  predicate Gated(f: Facts, n: Naming, w: World, versions: seq<Content>, originals: seq<Path>) {
    f.witnesses > 0 && f.sources >= 2 && f.hashed && Applies(f.abandoned, n, w, versions, originals)
  }

  /** Nothing stands at the version's candidate, on either side or in the rows. */
  predicate Unbegun(n: Naming, w: World, v: Content) {
    n.at(v) !in w.local && n.at(v) !in w.remote && n.at(v) !in w.rows
  }

  /** A gate that stays shut: the relation stands, no version's cover was begun, and the originals are committed or hold
      one version. A gate in front of an abandoned relation, or of two versions without a row, is open from the start.
      */
  lemma GateExactly(f: Facts, n: Naming, w: World, versions: seq<Content>, originals: seq<Path>)
    requires f.witnesses > 0 && f.sources >= 2 && f.hashed
    ensures !Gated(f, n, w, versions, originals) <==>
            && !f.abandoned && (forall v | v in versions :: Unbegun(n, w, v))
            && (|versions| == 1 || exists p :: p in originals && p in w.rows)
    ensures f.abandoned || (|versions| >= 2 && forall p | p in originals :: p !in w.rows) ==>
              Gated(f, n, w, versions, originals)
  {
    if Evidence(n, w, versions) {
      var i :| 0 <= i < |versions| &&
               (n.at(versions[i]) in w.rows || n.at(versions[i]) in w.local || n.at(versions[i]) in w.remote);
      assert versions[i] in versions && !Unbegun(n, w, versions[i]);
    }
  }

  /** The child writes the version to the sides that lack it, and publishes it over the row that is there. */
  predicate PreservesVersion(n: Naming, w: World, c: Child, v: Content) {
    && c.version == v && c.candidatePath == n.at(v) && c.baseline == RowAt(w, n.at(v))
    && c.expectedLocal == Found(w.local, n.at(v)) && c.expectedRemote == Found(w.remote, n.at(v))
    && (LocalSide in c.missingSides <==> n.at(v) !in w.local)
    && (RemoteSide in c.missingSides <==> n.at(v) !in w.remote)
    && |c.missingSides| <= 2 && (|c.missingSides| == 2 ==> c.missingSides == [LocalSide, RemoteSide])
  }

  /** Exactly the versions that are not yet published have a child, the versions in their order. */
  ghost predicate ChildPerUnpublished(n: Naming, w: World, versions: seq<Content>, children: seq<Child>) {
    && (forall v | v in versions && !Published(n, w, v) ::
          exists c :: c in children && PreservesVersion(n, w, c, v))
    && (forall c | c in children ::
          c.version in versions && !Published(n, w, c.version) && PreservesVersion(n, w, c, c.version))
    && |children| + |Preserved(n, w, versions)| == |versions|
  }

  lemma {:induction false} ChildrenPerUnpublished(n: Naming, w: World, versions: seq<Content>)
    ensures ChildPerUnpublished(n, w, versions, Children(n, w, versions))
  {
    if versions != [] {
      var k := |versions| - 1;
      var before, last := versions[..k], versions[k];
      ChildrenPerUnpublished(n, w, before);
      assert PreservesVersion(n, w, ChildOf(n, w, last), last);
      forall v | v in versions && !Published(n, w, v)
        ensures exists c :: c in Children(n, w, versions) && PreservesVersion(n, w, c, v)
      {
        if v in before {
          var c :| c in Children(n, w, before) && PreservesVersion(n, w, c, v);
          assert c in Children(n, w, versions);
        } else {
          assert v == last && ChildOf(n, w, last) in Children(n, w, versions);
        }
      }
    }
  }

  /** The loop over the versions: it stops at the first candidate that cannot be used. */
  method DecideChildren(f: Facts, n: Naming, w: World, versions: seq<Content>)
    returns (available: bool, candidatePaths: seq<Path>, preservedPaths: seq<Path>, children: seq<Child>)
    ensures available <==> forall v | v in versions :: Usable(f, n, w, v)
    ensures available ==> candidatePaths == Candidates(n, versions) && preservedPaths == Preserved(n, w, versions)
    ensures available ==> children == Children(n, w, versions)
  {
    available, candidatePaths, preservedPaths, children := false, [], [], [];
    for i := 0 to |versions|
      invariant forall j | 0 <= j < i :: Usable(f, n, w, versions[j])
      invariant candidatePaths == Candidates(n, versions)[..i]
      invariant preservedPaths == Preserved(n, w, versions[..i]) && children == Children(n, w, versions[..i])
    {
      assert versions[..i + 1][..i] == versions[..i];
      var source := versions[i];
      var candidatePath := n.at(source);
      candidatePaths := candidatePaths + [candidatePath];
      if !f.includes(candidatePath) || !f.observed(candidatePath) {
        assert source in versions && !Usable(f, n, w, source);
        return;
      }
      var local, remote := Found(w.local, candidatePath), Found(w.remote, candidatePath);
      if (local.Some? && local.value != source) || (remote.Some? && remote.value != source) {
        assert source in versions && !Usable(f, n, w, source);
        return;
      }
      var baseline := RowAt(w, candidatePath);
      if local.Some? && remote.Some? && baseline.Some? && baseline.value.digest == n.sha(source) {
        preservedPaths := preservedPaths + [candidatePath];
      } else {
        children := children + [Child(source, candidatePath, local, remote, MissingSides(w, candidatePath), baseline)];
      }
    }
    assert versions[..|versions|] == versions;
    available := true;
  }

  /** One child for each version that is not yet published, refused when a candidate cannot be used. */
  method DecideCover(f: Facts, n: Naming, w: World, versions: seq<Content>, originals: seq<Path>)
    returns (outcome: Outcome)
    ensures outcome == UnknownObservation <==> f.witnesses > 0 && f.sources >= 2 && !f.hashed
    ensures outcome == NoCover <==>
            || f.witnesses == 0 || f.sources < 2
            || (f.hashed && !f.abandoned && (forall v | v in versions :: Unbegun(n, w, v)) &&
                (|versions| == 1 || exists p :: p in originals && p in w.rows))
    ensures outcome.Unavailable? || outcome.Decided? <==> Gated(f, n, w, versions, originals)
    ensures outcome.Decided? <==> Gated(f, n, w, versions, originals) && forall v | v in versions :: Usable(f, n, w, v)
    ensures outcome.Decided? ==> outcome.cover == CoverOf(n, w, versions, originals)
    ensures outcome.Decided? ==> ChildPerUnpublished(n, w, versions, outcome.cover.children)
  {
    if f.witnesses == 0 || f.sources < 2 {
      return NoCover;
    }
    if !f.hashed {
      return UnknownObservation;
    }
    GateExactly(f, n, w, versions, originals);
    if !Applies(f.abandoned, n, w, versions, originals) {
      return NoCover;
    }
    var available, candidatePaths, preservedPaths, children := DecideChildren(f, n, w, versions);
    if !available {
      return Unavailable;
    }
    var cleanup := CollectCleanups(w, originals);
    ChildrenPerUnpublished(n, w, versions);
    outcome := Decided(Cover(candidatePaths, preservedPaths, children, cleanup));
  }

  method CollectCleanups(w: World, originals: seq<Path>) returns (cleanup: seq<Cleanup>)
    ensures cleanup == Cleanups(w, originals)
  {
    cleanup := [];
    for i := 0 to |originals|
      invariant cleanup == Cleanups(w, originals[..i])
    {
      assert originals[..i + 1][..i] == originals[..i];
      if Stale(w, originals[i]) {
        cleanup := cleanup + [Cleanup(originals[i], w.rows[originals[i]])];
      }
    }
    assert originals[..|originals|] == originals;
  }

  // ---------------------------------------------------------------- the execution, one atomic step at a time

  /** `id` is the object a remote write makes. */
  datatype Step =
    | WriteSide(side: Side, path: Path, content: Content, id: Identity)
    | Publish(path: Path, content: Content, digest: Digest, baseline: Option<Row>)
    | CleanRow(path: Path, expected: Row)

  /** The remote file's object is committed at no other address. */
  predicate Unclaimed(w: World, p: Path) {
    p in w.ids && forall q | q in w.rows && q != p :: w.rows[q].id != w.ids[p]
  }

  /** A write finds its destination empty, a publication its bytes, its row and an object no other row has, a
      cleanup its row; or the step refuses. */
  function Apply(w: World, s: Step): Option<World> {
    match s
    case WriteSide(side, p, content, id) =>
      if p in At(w, side) then None
      else if side.LocalSide? then Some(w.(local := w.local[p := content]))
      else Some(w.(remote := w.remote[p := content], ids := w.ids[p := id]))
    case Publish(p, content, digest, baseline) =>
      if Found(w.local, p) != Some(content) || Found(w.remote, p) != Some(content) || RowAt(w, p) != baseline ||
         !Unclaimed(w, p)
      then None
      else Some(w.(rows := w.rows[p := Row(digest, w.ids[p])]))
    case CleanRow(p, expected) =>
      if RowAt(w, p) != Some(expected) then None else Some(w.(rows := w.rows - {p}))
  }

  function Writes(sides: seq<Side>, p: Path, content: Content, id: Identity): seq<Step> {
    seq(|sides|, i requires 0 <= i < |sides| => WriteSide(sides[i], p, content, id))
  }

  function Publication(n: Naming, c: Child): Step {
    Publish(c.candidatePath, c.version, n.sha(c.version), c.baseline)
  }

  function ChildSteps(n: Naming, c: Child): seq<Step> {
    Writes(c.missingSides, c.candidatePath, c.version, n.newId(c.version)) + [Publication(n, c)]
  }

  function AllChildSteps(n: Naming, children: seq<Child>): seq<Step> {
    if children == [] then [] else ChildSteps(n, children[0]) + AllChildSteps(n, children[1..])
  }

  function CleanupSteps(cleanup: seq<Cleanup>): seq<Step> {
    seq(|cleanup|, i requires 0 <= i < |cleanup| => CleanRow(cleanup[i].path, cleanup[i].expected))
  }

  /** Each child's missing sides and its publication, in order, then the cleanups. */
  function StepsOf(n: Naming, cover: Cover): seq<Step> {
    AllChildSteps(n, cover.children) + CleanupSteps(cover.cleanup)
  }

  /** Run until the end, or until the first refusal. */
  function RunSteps(w: World, steps: seq<Step>): Option<World>
    decreases |steps|
  {
    if steps == [] then Some(w)
    else
      var next := Apply(w, steps[0]);
      if next.None? then None else RunSteps(next.value, steps[1..])
  }

  /** A run is its first step and the run of the others. */
  lemma RunCons(w: World, steps: seq<Step>, m: nat)
    requires 0 < m <= |steps|
    ensures RunSteps(w, steps[..m]) ==
            if Apply(w, steps[0]).None? then None else RunSteps(Apply(w, steps[0]).value, steps[1..][..m - 1])
    ensures steps[1..][m - 1..] == steps[m..]
  {
    assert steps[..m][0] == steps[0] && steps[..m][1..] == steps[1..][..m - 1];
  }

  /** Rows at different addresses are for different objects. */
  ghost predicate OneRowEach(w: World) {
    forall p, q | p in w.rows && q in w.rows && w.rows[p].id == w.rows[q].id :: p == q
  }

  /** The step was given this row to replace or to end. */
  predicate NamesRow(s: Step, p: Path, row: Row) {
    match s
    case WriteSide(_, _, _, _) => false
    case Publish(q, _, _, baseline) => q == p && baseline == Some(row)
    case CleanRow(q, expected) => q == p && expected == row
  }

  /** No step of any list, whoever made it, destroys a file, or a row it was not given; and none makes a second row for
      an object. */
  lemma StepIsSafe(w: World, s: Step)
    requires Apply(w, s).Some?
    ensures var t := Apply(w, s).value;
            && (forall p | p in w.local :: Found(t.local, p) == Some(w.local[p]))
            && (forall p | p in w.remote ::
                Found(t.remote, p) == Some(w.remote[p]) && (p in w.ids ==> p in t.ids && t.ids[p] == w.ids[p]))
            && (forall p | p in w.rows && RowAt(t, p) != RowAt(w, p) :: NamesRow(s, p, w.rows[p]))
            && (OneRowEach(w) ==> OneRowEach(t))
  {
  }

  /** A publication names what it published: both sides hold the content, under a row with its digest and the object of
      the remote file. */
  lemma PublishedTruly(w: World, p: Path, content: Content, digest: Digest, baseline: Option<Row>)
    requires Apply(w, Publish(p, content, digest, baseline)).Some?
    ensures var t := Apply(w, Publish(p, content, digest, baseline)).value;
            && Found(t.local, p) == Some(content) == Found(t.remote, p)
            && p in t.ids && RowAt(t, p) == Some(Row(digest, t.ids[p]))
            && t.local == w.local && t.remote == w.remote && t.ids == w.ids
  {
  }

  // ---------------------------------------------------------------- deciding again after any step

  /** The object the version's remote copy is, or will be. */
  function Target(n: Naming, w: World, v: Content): Identity {
    if n.at(v) in w.remote && n.at(v) in w.ids then w.ids[n.at(v)] else n.newId(v)
  }

  /** No row at another address is committed for that object. */
  ghost predicate Claimable(n: Naming, w: World, v: Content) {
    && (n.at(v) in w.remote ==> n.at(v) in w.ids)
    && forall p | p in w.rows && p != n.at(v) :: w.rows[p].id != Target(n, w, v)
  }

  /** The versions' copies are different objects, and each that is still to be published can be. */
  ghost predicate Claims(n: Naming, w: World, versions: seq<Content>) {
    && (forall i, j | 0 <= i < j < |versions| :: Target(n, w, versions[i]) != Target(n, w, versions[j]))
    && (forall i | 0 <= i < |versions| && !Published(n, w, versions[i]) :: Claimable(n, w, versions[i]))
  }

  /** A cover as it is decided: the versions have distinct candidates, each candidate holds nothing but its version, and
      no candidate is an original. */
  ghost predicate Placed(n: Naming, w: World, versions: seq<Content>, originals: seq<Path>) {
    && NamesApart(n, versions) && Distinct(originals)
    && (forall i | 0 <= i < |versions| :: Available(n, w, versions[i]) && n.at(versions[i]) !in originals)
  }

  /** A cover that can be carried out to its end: each candidate is free for its version's object too. */
  ghost predicate Due(n: Naming, w: World, versions: seq<Content>, originals: seq<Path>) {
    Placed(n, w, versions, originals) && Claims(n, w, versions)
  }

  /** A candidate's child can be carried out exactly when the object it publishes is committed nowhere else. */
  lemma ChildRunsExactly(n: Naming, w: World, v: Content)
    requires Available(n, w, v)
    ensures RunSteps(w, ChildSteps(n, ChildOf(n, w, v))).Some? <==> Claimable(n, w, v)
  {
    var c := ChildOf(n, w, v);
    var last := Publication(n, c);
    var writes := Writes(c.missingSides, c.candidatePath, v, n.newId(v));
    RunJoins(w, writes, [last]);
    if c.missingSides == [] {
      RunOne(w, last);
    } else {
      var t := Apply(w, writes[0]).value;
      assert writes[1..] == Writes(c.missingSides[1..], c.candidatePath, v, n.newId(v));
      if |writes| == 1 {
        RunOne(t, last);
      } else {
        assert writes[1..][1..] == [];
        var u := Apply(t, writes[1]).value;
        assert RunSteps(t, writes[1..]) == RunSteps(u, []);
        RunOne(u, last);
      }
    }
  }

  /** What the decision would still have done. */
  ghost function Work(n: Naming, w: World, versions: seq<Content>, originals: seq<Path>): seq<Step> {
    AllChildSteps(n, Children(n, w, versions)) + CleanupSteps(Cleanups(w, originals))
  }

  lemma {:induction false} ChildrenEmpty(n: Naming, w: World, versions: seq<Content>)
    ensures Children(n, w, versions) == [] <==> forall v | v in versions :: Published(n, w, v)
  {
    if versions != [] {
      var k := |versions| - 1;
      ChildrenEmpty(n, w, versions[..k]);
      assert versions == versions[..k] + [versions[k]];
    }
  }

  lemma {:induction false} ChildrenAreUnpublished(n: Naming, w: World, versions: seq<Content>, c: Child)
    requires c in Children(n, w, versions)
    ensures c.version in versions && !Published(n, w, c.version) && c == ChildOf(n, w, c.version)
  {
    var k := |versions| - 1;
    if c in Children(n, w, versions[..k]) {
      ChildrenAreUnpublished(n, w, versions[..k], c);
    } else {
      assert c == ChildOf(n, w, versions[k]);
    }
  }

  lemma ChildrenOf(n: Naming, w: World, versions: seq<Content>)
    ensures forall c | c in Children(n, w, versions) ::
              c.version in versions && !Published(n, w, c.version) && c == ChildOf(n, w, c.version)
    ensures Children(n, w, versions) == [] <==> forall v | v in versions :: Published(n, w, v)
  {
    ChildrenEmpty(n, w, versions);
    forall c | c in Children(n, w, versions)
      ensures c.version in versions && !Published(n, w, c.version) && c == ChildOf(n, w, c.version)
    {
      ChildrenAreUnpublished(n, w, versions, c);
    }
  }

  /** Worlds that agree at a version's candidate decide that version alike. */
  ghost predicate SameAt(w: World, t: World, p: Path) {
    && Found(w.local, p) == Found(t.local, p) && Found(w.remote, p) == Found(t.remote, p)
    && (p in w.ids <==> p in t.ids) && (p in w.ids ==> w.ids[p] == t.ids[p])
    && RowAt(w, p) == RowAt(t, p)
  }

  lemma {:induction false} ChildrenSame(n: Naming, w: World, t: World, versions: seq<Content>)
    requires forall i | 0 <= i < |versions| :: SameAt(w, t, n.at(versions[i]))
    ensures Children(n, w, versions) == Children(n, t, versions)
    ensures Preserved(n, w, versions) == Preserved(n, t, versions)
  {
    if versions != [] {
      var k := |versions| - 1;
      ChildrenSame(n, w, t, versions[..k]);
      assert SameAt(w, t, n.at(versions[k]));
    }
  }

  lemma {:induction false} CleanupsSame(w: World, t: World, originals: seq<Path>)
    requires forall i | 0 <= i < |originals| :: SameAt(w, t, originals[i])
    ensures Cleanups(w, originals) == Cleanups(t, originals)
  {
    if originals != [] {
      var k := |originals| - 1;
      CleanupsSame(w, t, originals[..k]);
      assert SameAt(w, t, originals[k]);
    }
  }

  /** The first version that is still to be published. */
  lemma {:induction false} FirstUnpublished(n: Naming, w: World, versions: seq<Content>) returns (k: nat)
    requires Children(n, w, versions) != []
    ensures k < |versions| && !Published(n, w, versions[k]) && forall i | 0 <= i < k :: Published(n, w, versions[i])
    ensures Children(n, w, versions)[0] == ChildOf(n, w, versions[k])
  {
    var m := |versions| - 1;
    if Children(n, w, versions[..m]) != [] {
      k := FirstUnpublished(n, w, versions[..m]);
    } else {
      k := m;
      ChildrenOf(n, w, versions[..m]);
      assert forall i | 0 <= i < m :: versions[i] in versions[..m];
    }
  }

  function ChildIfOpen(n: Naming, w: World, v: Content): seq<Child> {
    if Published(n, w, v) then [] else [ChildOf(n, w, v)]
  }

  lemma MiddleJoins(a: seq<Child>, b: seq<Child>, c: seq<Child>)
    requires b != []
    ensures (a + b[1..]) + c == a + (b + c)[1..]
  {
  }

  /** A change at one version's candidate leaves the other children as they were. */
  lemma {:induction false} ChildrenAfter(n: Naming, w: World, t: World, versions: seq<Content>, k: nat)
    requires k < |versions| && !Published(n, w, versions[k])
    requires forall i | 0 <= i < k :: Published(n, w, versions[i])
    requires forall i | 0 <= i < |versions| && i != k :: SameAt(w, t, n.at(versions[i]))
    ensures Children(n, w, versions) != []
    ensures Children(n, t, versions) ==
            (if Published(n, t, versions[k]) then [] else [ChildOf(n, t, versions[k])]) + Children(n, w, versions)[1..]
  {
    var m := |versions| - 1;
    if k == m {
      ChildrenSame(n, w, t, versions[..m]);
      ChildrenEmpty(n, w, versions[..m]);
    } else {
      ChildrenAfter(n, w, t, versions[..m], k);
      assert SameAt(w, t, n.at(versions[m]));
      MiddleJoins(ChildIfOpen(n, t, versions[k]), Children(n, w, versions[..m]), ChildIfOpen(n, w, versions[m]));
    }
  }

  lemma Tail(a: seq<Step>, b: seq<Step>)
    requires a != []
    ensures (a + b)[0] == a[0] && (a + b)[1..] == a[1..] + b
  {
  }

  lemma Joined(a: seq<Step>, b: seq<Step>, c: seq<Step>)
    ensures (a + b) + c == a + (b + c)
  {
  }

  /** The version is published already, and this publication would only give its row the object that is there now. */
  ghost predicate Renews(n: Naming, w: World, v: Content, s: Step) {
    Published(n, w, v) && s == Publication(n, ChildOf(n, w, v))
  }

  /** `rest` is what a new decision would do, but for one publication that would only renew its row. */
  ghost predicate Ahead(n: Naming, w: World, versions: seq<Content>, originals: seq<Path>, rest: seq<Step>) {
    || Work(n, w, versions, originals) == rest
    || (rest != [] && Work(n, w, versions, originals) == rest[1..] &&
        exists i | 0 <= i < |versions| :: Renews(n, w, versions[i], rest[0]))
  }

  /** The same, and that publication would be accepted. */
  ghost predicate Sure(n: Naming, w: World, versions: seq<Content>, originals: seq<Path>, rest: seq<Step>) {
    || Work(n, w, versions, originals) == rest
    || (rest != [] && Work(n, w, versions, originals) == rest[1..] &&
        exists i | 0 <= i < |versions| :: Renews(n, w, versions[i], rest[0]) && Claimable(n, w, versions[i]))
  }

  /** A step only adds files, each at an address that was empty. */
  ghost predicate OnlyAdds(w: World, t: World) {
    && (forall p | p in w.local :: p in t.local && t.local[p] == w.local[p])
    && (forall p | p in w.remote :: p in t.remote && t.remote[p] == w.remote[p])
  }

  /** The work begins with the first unpublished version's child. */
  lemma WorkSplits(n: Naming, w: World, versions: seq<Content>, originals: seq<Path>, k: nat)
    requires k < |versions| && !Published(n, w, versions[k]) && forall i | 0 <= i < k :: Published(n, w, versions[i])
    ensures Children(n, w, versions) != []
    ensures var steps := ChildSteps(n, ChildOf(n, w, versions[k]));
            var later := AllChildSteps(n, Children(n, w, versions)[1..]) + CleanupSteps(Cleanups(w, originals));
            && Work(n, w, versions, originals) == steps + later
            && Work(n, w, versions, originals)[0] == steps[0] &&
               Work(n, w, versions, originals)[1..] == steps[1..] + later
  {
    FirstIs(n, w, versions, k);
    var steps, more := ChildSteps(n, ChildOf(n, w, versions[k])), AllChildSteps(n, Children(n, w, versions)[1..]);
    Joined(steps, more, CleanupSteps(Cleanups(w, originals)));
    Tail(steps, more + CleanupSteps(Cleanups(w, originals)));
  }

  /** The write of a missing side changes nothing else, and leaves the version's object what it was to be. */
  lemma WrittenSide(n: Naming, w: World, v: Content, side: Side, t: World)
    requires Available(n, w, v) && Apply(w, WriteSide(side, n.at(v), v, n.newId(v))) == Some(t)
    ensures Available(n, t, v) && t.rows == w.rows && forall p | p != n.at(v) :: SameAt(w, t, p)
    ensures Claimable(n, w, v) ==> Target(n, t, v) == Target(n, w, v) && Claimable(n, t, v)
  {
  }

  /** What it leaves of its child. */
  lemma WrittenChild(n: Naming, w: World, v: Content, t: World)
    requires Available(n, w, v) && ChildOf(n, w, v).missingSides != []
    requires Apply(w, WriteSide(ChildOf(n, w, v).missingSides[0], n.at(v), v, n.newId(v))) == Some(t)
    ensures ChildSteps(n, ChildOf(n, w, v))[0] == WriteSide(ChildOf(n, w, v).missingSides[0], n.at(v), v, n.newId(v))
    ensures if Published(n, t, v) then ChildSteps(n, ChildOf(n, w, v))[1..] == [Publication(n, ChildOf(n, t, v))]
            else ChildSteps(n, ChildOf(n, t, v)) == ChildSteps(n, ChildOf(n, w, v))[1..]
  {
    var c, d := ChildOf(n, w, v), ChildOf(n, t, v);
    assert d.missingSides == c.missingSides[1..] && Publication(n, d) == Publication(n, c);
    WritesTail(c.missingSides, n.at(v), v, n.newId(v), Publication(n, c));
  }

  lemma WritesTail(sides: seq<Side>, p: Path, v: Content, id: Identity, last: Step)
    requires sides != []
    ensures Writes(sides, p, v, id)[0] == WriteSide(sides[0], p, v, id)
    ensures (Writes(sides, p, v, id) + [last])[1..] == Writes(sides[1..], p, v, id) + [last]
  {
    assert Writes(sides, p, v, id)[1..] == Writes(sides[1..], p, v, id);
    Tail(Writes(sides, p, v, id), [last]);
  }

  /** The child's first missing side is written. */
  lemma WriteStep(n: Naming, w: World, versions: seq<Content>, originals: seq<Path>, k: nat, t: World)
    requires Placed(n, w, versions, originals) && k < |versions| && !Published(n, w, versions[k])
    requires forall i | 0 <= i < k :: Published(n, w, versions[i])
    requires var c := ChildOf(n, w, versions[k]);
             && c.missingSides != []
             && Apply(w, WriteSide(c.missingSides[0], c.candidatePath, c.version, n.newId(c.version))) == Some(t)
    ensures Work(n, w, versions, originals) != []
    ensures Placed(n, t, versions, originals) && Ahead(n, t, versions, originals, Work(n, w, versions, originals)[1..])
    ensures Claims(n, w, versions) ==>
              Claims(n, t, versions) && Sure(n, t, versions, originals, Work(n, w, versions, originals)[1..])
  {
    var v := versions[k];
    assert Available(n, w, v);
    WrittenSide(n, w, v, ChildOf(n, w, v).missingSides[0], t);
    WrittenChild(n, w, v, t);
    OthersSame(n, w, t, versions, originals, k);
    if Claims(n, w, versions) {
      ClaimsKept(n, w, t, versions, k);
    }
    ChildrenAfter(n, w, t, versions, k);
    CleanupsSame(w, t, originals);
    if Published(n, t, v) {
      assert Children(n, t, versions) == Children(n, w, versions)[1..];
      AheadWhenDone(n, w, t, versions, originals, k);
    } else {
      AheadWhenOpen(n, w, t, versions, originals, k);
    }
  }

  /** One step of the child is taken, and it is still to be published. */
  lemma AheadWhenOpen(n: Naming, w: World, t: World, versions: seq<Content>, originals: seq<Path>, k: nat)
    requires k < |versions| && !Published(n, w, versions[k]) && forall i | 0 <= i < k :: Published(n, w, versions[i])
    requires Children(n, w, versions) != []
    requires Children(n, t, versions) == [ChildOf(n, t, versions[k])] + Children(n, w, versions)[1..]
    requires Cleanups(t, originals) == Cleanups(w, originals)
    requires ChildSteps(n, ChildOf(n, t, versions[k])) == ChildSteps(n, ChildOf(n, w, versions[k]))[1..]
    ensures Work(n, w, versions, originals) != [] &&
            Work(n, t, versions, originals) == Work(n, w, versions, originals)[1..]
  {
    WorkSplits(n, w, versions, originals, k);
    var steps := ChildSteps(n, ChildOf(n, w, versions[k]));
    var rest := Children(n, w, versions)[1..];
    assert Children(n, t, versions)[0] == ChildOf(n, t, versions[k]) && Children(n, t, versions)[1..] == rest;
    Joined(steps[1..], AllChildSteps(n, rest), CleanupSteps(Cleanups(w, originals)));
  }

  /** The step taken completed a candidate whose row already named it: its publication would only renew the row. */
  lemma AheadWhenDone(n: Naming, w: World, t: World, versions: seq<Content>, originals: seq<Path>, k: nat)
    requires k < |versions| && !Published(n, w, versions[k]) && forall i | 0 <= i < k :: Published(n, w, versions[i])
    requires Children(n, w, versions) != [] && Children(n, t, versions) == Children(n, w, versions)[1..]
    requires Cleanups(t, originals) == Cleanups(w, originals)
    requires Published(n, t, versions[k])
    requires ChildSteps(n, ChildOf(n, w, versions[k]))[1..] == [Publication(n, ChildOf(n, t, versions[k]))]
    ensures Work(n, w, versions, originals) != []
    ensures Ahead(n, t, versions, originals, Work(n, w, versions, originals)[1..])
    ensures Claimable(n, t, versions[k]) ==> Sure(n, t, versions, originals, Work(n, w, versions, originals)[1..])
  {
    WorkSplits(n, w, versions, originals, k);
    var last, later := Publication(n, ChildOf(n, t, versions[k])), Work(n, t, versions, originals);
    Tail([last], later);
    assert [last][1..] + later == later;
    assert Renews(n, t, versions[k], last);
  }

  /** A step at one candidate leaves every other candidate and every original as it was, and the cover placed. */
  lemma OthersSame(n: Naming, w: World, t: World, versions: seq<Content>, originals: seq<Path>, k: nat)
    requires Placed(n, w, versions, originals) && k < |versions|
    requires forall p | p != n.at(versions[k]) :: SameAt(w, t, p)
    requires Available(n, t, versions[k])
    ensures forall i | 0 <= i < |versions| && i != k :: SameAt(w, t, n.at(versions[i]))
    ensures forall i | 0 <= i < |originals| :: SameAt(w, t, originals[i])
    ensures Placed(n, t, versions, originals)
  {
    forall i | 0 <= i < |versions| && i != k
      ensures SameAt(w, t, n.at(versions[i])) && Available(n, t, versions[i])
    {
      assert n.at(versions[i]) != n.at(versions[k]);
      assert Available(n, w, versions[i]);
      assert SameAt(w, t, n.at(versions[i]));
    }
    forall i | 0 <= i < |originals| ensures SameAt(w, t, originals[i]) {
      assert originals[i] in originals && n.at(versions[k]) !in originals;
    }
  }

  /** A step at one candidate that keeps its object leaves every version as claimable as it was. */
  lemma ClaimsKept(n: Naming, w: World, t: World, versions: seq<Content>, k: nat)
    requires NamesApart(n, versions) && Claims(n, w, versions) && k < |versions|
    requires forall p | p != n.at(versions[k]) :: SameAt(w, t, p)
    requires Target(n, t, versions[k]) == Target(n, w, versions[k])
    requires Published(n, t, versions[k]) || Claimable(n, t, versions[k])
    requires RowAt(t, n.at(versions[k])) == RowAt(w, n.at(versions[k])) ||
             (n.at(versions[k]) in t.rows && t.rows[n.at(versions[k])].id == Target(n, w, versions[k]))
    ensures Claims(n, t, versions)
  {
    forall i | 0 <= i < |versions| && i != k
      ensures Target(n, t, versions[i]) == Target(n, w, versions[i])
      ensures Published(n, t, versions[i]) || Claimable(n, t, versions[i])
    {
      assert n.at(versions[i]) != n.at(versions[k]);
      OtherClaim(n, w, t, versions, i, k);
    }
  }

  /** A row changed at one candidate claims no other version's object. */
  lemma OtherClaim(n: Naming, w: World, t: World, versions: seq<Content>, i: nat, k: nat)
    requires Claims(n, w, versions) && i < |versions| && k < |versions| && i != k
    requires forall p | p != n.at(versions[k]) :: SameAt(w, t, p)
    requires n.at(versions[i]) != n.at(versions[k])
    requires RowAt(t, n.at(versions[k])) == RowAt(w, n.at(versions[k])) ||
             (n.at(versions[k]) in t.rows && t.rows[n.at(versions[k])].id == Target(n, w, versions[k]))
    ensures Target(n, t, versions[i]) == Target(n, w, versions[i])
    ensures Published(n, t, versions[i]) || Claimable(n, t, versions[i])
  {
    assert SameAt(w, t, n.at(versions[i]));
    assert Target(n, w, versions[i]) != Target(n, w, versions[k]);
    if !Published(n, t, versions[i]) {
      assert Claimable(n, w, versions[i]);
      forall p | p in t.rows && p != n.at(versions[i]) ensures t.rows[p].id != Target(n, t, versions[i]) {
        assert p != n.at(versions[k]) ==> SameAt(w, t, p);
      }
    }
  }

  lemma FirstIs(n: Naming, w: World, versions: seq<Content>, k: nat)
    requires k < |versions| && !Published(n, w, versions[k]) && forall i | 0 <= i < k :: Published(n, w, versions[i])
    ensures Children(n, w, versions) != [] && Children(n, w, versions)[0] == ChildOf(n, w, versions[k])
  {
    ChildrenAfter(n, w, w, versions, k);
  }

  /** A publication of a version whose copies are both there. */
  lemma PublishedThen(n: Naming, w: World, v: Content)
    requires Available(n, w, v) && Claimable(n, w, v) && ChildOf(n, w, v).missingSides == []
    ensures var t := Apply(w, Publication(n, ChildOf(n, w, v)));
            && t == Some(w.(rows := w.rows[n.at(v) := Row(n.sha(v), Target(n, w, v))]))
            && Published(n, t.value, v) && Available(n, t.value, v) && Target(n, t.value, v) == Target(n, w, v)
            && forall p | p != n.at(v) :: SameAt(w, t.value, p)
  {
  }

  /** A publication that was accepted found its object committed nowhere else. */
  lemma PublicationClaims(n: Naming, w: World, v: Content)
    requires Available(n, w, v) && Apply(w, Publication(n, ChildOf(n, w, v))).Some?
    ensures Claimable(n, w, v) && ChildOf(n, w, v).missingSides == []
  {
  }

  /** Nothing is missing any more: the child is published. */
  lemma PublishStep(n: Naming, w: World, versions: seq<Content>, originals: seq<Path>, k: nat, t: World)
    requires Placed(n, w, versions, originals) && k < |versions| && !Published(n, w, versions[k])
    requires forall i | 0 <= i < k :: Published(n, w, versions[i])
    requires ChildOf(n, w, versions[k]).missingSides == []
    requires Apply(w, Publication(n, ChildOf(n, w, versions[k]))) == Some(t)
    ensures Work(n, w, versions, originals) != []
    ensures Placed(n, t, versions, originals) && Work(n, t, versions, originals) == Work(n, w, versions, originals)[1..]
    ensures Claims(n, w, versions) ==> Claims(n, t, versions)
  {
    var v := versions[k];
    var c := ChildOf(n, w, v);
    assert Available(n, w, v);
    PublicationClaims(n, w, v);
    PublishedThen(n, w, v);
    OthersSame(n, w, t, versions, originals, k);
    if Claims(n, w, versions) {
      ClaimsKept(n, w, t, versions, k);
    }
    ChildrenAfter(n, w, t, versions, k);
    CleanupsSame(w, t, originals);
    WorkSplits(n, w, versions, originals, k);
    var steps := ChildSteps(n, c);
    assert steps == [Publication(n, c)];
    var later, clean := AllChildSteps(n, Children(n, w, versions)[1..]), CleanupSteps(Cleanups(w, originals));
    assert Children(n, t, versions) == Children(n, w, versions)[1..];
    assert steps[1..] + (later + clean) == later + clean;
  }

  /** Renewing the row of a published version changes nothing a decision looks at. */
  lemma RenewStep(n: Naming, w: World, versions: seq<Content>, originals: seq<Path>, k: nat, s: Step, t: World)
    requires Placed(n, w, versions, originals) && k < |versions| && Renews(n, w, versions[k], s)
    requires Apply(w, s) == Some(t)
    ensures t.local == w.local && t.remote == w.remote && Placed(n, t, versions, originals)
    ensures Work(n, t, versions, originals) == Work(n, w, versions, originals)
    ensures Claims(n, w, versions) ==> Claims(n, t, versions)
  {
    var v := versions[k];
    assert Available(n, w, v);
    PublicationClaims(n, w, v);
    PublishedThen(n, w, v);
    OthersSame(n, w, t, versions, originals, k);
    if Claims(n, w, versions) {
      ClaimsKept(n, w, t, versions, k);
    }
    ChildrenWhen(n, w, t, versions, k);
    CleanupsSame(w, t, originals);
  }

  lemma {:induction false} ChildrenWhen(n: Naming, w: World, t: World, versions: seq<Content>, k: nat)
    requires k < |versions| && Published(n, w, versions[k]) && Published(n, t, versions[k])
    requires forall i | 0 <= i < |versions| && i != k :: SameAt(w, t, n.at(versions[i]))
    ensures Children(n, w, versions) == Children(n, t, versions)
  {
    var m := |versions| - 1;
    if k == m {
      ChildrenSame(n, w, t, versions[..m]);
    } else {
      ChildrenWhen(n, w, t, versions[..m], k);
      assert SameAt(w, t, n.at(versions[m]));
    }
  }

  lemma {:induction false} CleanupsAfter(w: World, t: World, originals: seq<Path>)
    requires Distinct(originals) && Cleanups(w, originals) != []
    requires t == w.(rows := w.rows - {Cleanups(w, originals)[0].path})
    ensures Cleanups(t, originals) == Cleanups(w, originals)[1..]
    ensures var c := Cleanups(w, originals)[0]; c.path in originals && c.path in w.rows && w.rows[c.path] == c.expected
  {
    var k := |originals| - 1;
    assert originals == originals[..k] + [originals[k]];
    if Cleanups(w, originals[..k]) != [] {
      CleanupsAfter(w, t, originals[..k]);
      assert Cleanups(w, originals)[0] == Cleanups(w, originals[..k])[0];
    } else {
      forall i | 0 <= i < k ensures SameAt(w, t, originals[..k][i]) {
        assert originals[i] != originals[k];
      }
      CleanupsSame(w, t, originals[..k]);
    }
  }

  /** All is published: the first stale row goes. */
  lemma CleanStep(n: Naming, w: World, versions: seq<Content>, originals: seq<Path>, t: World)
    requires Placed(n, w, versions, originals) && Children(n, w, versions) == [] && Cleanups(w, originals) != []
    requires var c := Cleanups(w, originals)[0]; Apply(w, CleanRow(c.path, c.expected)) == Some(t)
    ensures Work(n, w, versions, originals) != []
    ensures Placed(n, t, versions, originals) && Work(n, t, versions, originals) == Work(n, w, versions, originals)[1..]
    ensures Claims(n, w, versions) ==> Claims(n, t, versions)
  {
    CleanupsAfter(w, t, originals);
    ChildrenEmpty(n, w, versions);
    forall i | 0 <= i < |versions|
      ensures SameAt(w, t, n.at(versions[i])) && Available(n, t, versions[i]) && Published(n, t, versions[i])
      ensures Target(n, t, versions[i]) == Target(n, w, versions[i])
    {
      assert Available(n, w, versions[i]) && Published(n, w, versions[i]);
    }
    ChildrenSame(n, w, t, versions);
    var clean := CleanupSteps(Cleanups(w, originals));
    assert Work(n, w, versions, originals) == clean;
    assert clean[1..] == CleanupSteps(Cleanups(t, originals));
    assert Work(n, t, versions, originals) == clean[1..];
  }

  lemma ChildStepStays(n: Naming, w: World, versions: seq<Content>, originals: seq<Path>, k: nat, t: World)
    requires Placed(n, w, versions, originals) && k < |versions| && !Published(n, w, versions[k])
    requires forall i | 0 <= i < k :: Published(n, w, versions[i])
    requires Work(n, w, versions, originals) != [] && Apply(w, Work(n, w, versions, originals)[0]) == Some(t)
    ensures OnlyAdds(w, t) && Placed(n, t, versions, originals)
    ensures Ahead(n, t, versions, originals, Work(n, w, versions, originals)[1..])
    ensures Claims(n, w, versions) ==>
              Claims(n, t, versions) && Sure(n, t, versions, originals, Work(n, w, versions, originals)[1..])
  {
    var c := ChildOf(n, w, versions[k]);
    assert Available(n, w, versions[k]);
    WorkSplits(n, w, versions, originals, k);
    if c.missingSides != [] {
      assert ChildSteps(n, c)[0] == WriteSide(c.missingSides[0], c.candidatePath, c.version, n.newId(c.version));
      WriteStep(n, w, versions, originals, k, t);
    } else {
      assert ChildSteps(n, c)[0] == Publication(n, c);
      PublishStep(n, w, versions, originals, k, t);
    }
  }

  /** What kind of step a new decision would take first, and what it leaves. */
  lemma StepStays(n: Naming, w: World, versions: seq<Content>, originals: seq<Path>, t: World)
    requires Placed(n, w, versions, originals) && Work(n, w, versions, originals) != []
    requires Apply(w, Work(n, w, versions, originals)[0]) == Some(t)
    ensures OnlyAdds(w, t) && Placed(n, t, versions, originals)
    ensures Ahead(n, t, versions, originals, Work(n, w, versions, originals)[1..])
    ensures Claims(n, w, versions) ==>
              Claims(n, t, versions) && Sure(n, t, versions, originals, Work(n, w, versions, originals)[1..])
  {
    if Children(n, w, versions) == [] {
      assert Work(n, w, versions, originals) == CleanupSteps(Cleanups(w, originals));
      CleanStep(n, w, versions, originals, t);
    } else {
      var k := FirstUnpublished(n, w, versions);
      ChildStepStays(n, w, versions, originals, k, t);
    }
  }

  /** The first thing a due decision would do can be done, and deciding again gives the rest. */
  lemma StepKeeps(n: Naming, w: World, versions: seq<Content>, originals: seq<Path>)
    requires Due(n, w, versions, originals) && Work(n, w, versions, originals) != []
    ensures var t := Apply(w, Work(n, w, versions, originals)[0]);
            && t.Some? && OnlyAdds(w, t.value) && Due(n, t.value, versions, originals)
            && Sure(n, t.value, versions, originals, Work(n, w, versions, originals)[1..])
  {
    if Children(n, w, versions) == [] {
      assert Work(n, w, versions, originals) == CleanupSteps(Cleanups(w, originals));
      CleanupsAfter(w, w.(rows := w.rows - {Cleanups(w, originals)[0].path}), originals);
    } else {
      var k := FirstUnpublished(n, w, versions);
      var c := ChildOf(n, w, versions[k]);
      assert Available(n, w, versions[k]) && Claimable(n, w, versions[k]);
      WorkSplits(n, w, versions, originals, k);
      if c.missingSides != [] {
        assert ChildSteps(n, c)[0] == WriteSide(c.missingSides[0], c.candidatePath, c.version, n.newId(c.version));
      } else {
        assert ChildSteps(n, c)[0] == Publication(n, c);
        PublishedThen(n, w, versions[k]);
      }
    }
    StepStays(n, w, versions, originals, Apply(w, Work(n, w, versions, originals)[0]).value);
  }

  /** The same for the step a run takes next, whether or not a new decision would take it. */
  lemma AheadStays(n: Naming, w: World, versions: seq<Content>, originals: seq<Path>, rest: seq<Step>, t: World)
    requires Placed(n, w, versions, originals) && Ahead(n, w, versions, originals, rest) && rest != []
    requires Apply(w, rest[0]) == Some(t)
    ensures OnlyAdds(w, t) && Placed(n, t, versions, originals) && Ahead(n, t, versions, originals, rest[1..])
  {
    if Work(n, w, versions, originals) == rest {
      StepStays(n, w, versions, originals, t);
    } else {
      var k :| 0 <= k < |versions| && Renews(n, w, versions[k], rest[0]);
      RenewStep(n, w, versions, originals, k, rest[0], t);
    }
  }

  lemma SureKeeps(n: Naming, w: World, versions: seq<Content>, originals: seq<Path>, rest: seq<Step>)
    requires Due(n, w, versions, originals) && Sure(n, w, versions, originals, rest) && rest != []
    ensures var t := Apply(w, rest[0]);
            && t.Some? && Due(n, t.value, versions, originals) && Sure(n, t.value, versions, originals, rest[1..])
  {
    if Work(n, w, versions, originals) == rest {
      StepKeeps(n, w, versions, originals);
    } else {
      var k :| 0 <= k < |versions| && Renews(n, w, versions[k], rest[0]) && Claimable(n, w, versions[k]);
      assert Available(n, w, versions[k]);
      PublishedThen(n, w, versions[k]);
      RenewStep(n, w, versions, originals, k, rest[0], Apply(w, rest[0]).value);
    }
  }

  /** Wherever a run of a placed cover has got to, the cover is still placed and the rest is what is left. */
  lemma {:induction false} RunStays(n: Naming, w: World, versions: seq<Content>, originals: seq<Path>,
                                    rest: seq<Step>, m: nat)
    requires Placed(n, w, versions, originals) && Ahead(n, w, versions, originals, rest) && m <= |rest|
    requires RunSteps(w, rest[..m]).Some?
    ensures var t := RunSteps(w, rest[..m]).value;
            && OnlyAdds(w, t) && Placed(n, t, versions, originals) && Ahead(n, t, versions, originals, rest[m..])
    decreases m
  {
    if m == 0 {
      assert rest[0..] == rest;
    } else {
      RunCons(w, rest, m);
      var next := Apply(w, rest[0]).value;
      AheadStays(n, w, versions, originals, rest, next);
      RunStays(n, next, versions, originals, rest[1..], m - 1);
    }
  }

  /** A due cover can be run to any point. */
  lemma {:induction false} RunKeeps(n: Naming, w: World, versions: seq<Content>, originals: seq<Path>,
                                    rest: seq<Step>, m: nat)
    requires Due(n, w, versions, originals) && Sure(n, w, versions, originals, rest) && m <= |rest|
    ensures var t := RunSteps(w, rest[..m]);
            t.Some? && Due(n, t.value, versions, originals) && Sure(n, t.value, versions, originals, rest[m..])
    decreases m
  {
    if m == 0 {
      assert rest[0..] == rest;
    } else {
      RunCons(w, rest, m);
      SureKeeps(n, w, versions, originals, rest);
      var next := Apply(w, rest[0]).value;
      RunKeeps(n, next, versions, originals, rest[1..], m - 1);
    }
  }

  // ---------------------------------------------------------------- the same versions in any order

  /** The next observation finds the same versions and originals, in whatever order. */
  ghost predicate SameLists(versions: seq<Content>, originals: seq<Path>, again: seq<Content>, known: seq<Path>) {
    && Distinct(again) && (forall v :: v in again <==> v in versions)
    && Distinct(known) && (forall p :: p in known <==> p in originals)
  }

  lemma WithoutOne<T>(s: seq<T>, i: nat)
    requires Distinct(s) && i < |s|
    ensures Distinct(s[..i] + s[i + 1..]) && forall x :: x in s[..i] + s[i + 1..] <==> x in s && x != s[i]
  {
    assert s == s[..i] + [s[i]] + s[i + 1..];
  }

  /** How many steps a version, or an original, still needs. */
  function VersionCost(n: Naming, w: World, v: Content): nat {
    if Published(n, w, v) then 0 else |MissingSides(w, n.at(v))| + 1
  }

  function OriginalCost(w: World, p: Path): nat {
    if Stale(w, p) then 1 else 0
  }

  function Sum<T>(s: seq<T>, cost: T -> nat): nat {
    if s == [] then 0 else Sum(s[..|s| - 1], cost) + cost(s[|s| - 1])
  }

  lemma {:induction false} SumWithout<T>(s: seq<T>, cost: T -> nat, i: nat)
    requires i < |s|
    ensures Sum(s, cost) == Sum(s[..i] + s[i + 1..], cost) + cost(s[i])
  {
    var k := |s| - 1;
    if i == k {
      assert s[..i] + s[i + 1..] == s[..k];
    } else {
      SumWithout(s[..k], cost, i);
      assert (s[..i] + s[i + 1..])[..k - 1] == s[..k][..i] + s[..k][i + 1..];
    }
  }

  /** The order of a list without repetitions does not matter to its sum. */
  lemma {:induction false} SumInAnyOrder<T>(a: seq<T>, b: seq<T>, cost: T -> nat)
    requires Distinct(a) && Distinct(b) && forall x :: x in a <==> x in b
    ensures Sum(a, cost) == Sum(b, cost)
  {
    assert forall i | 0 <= i < |b| :: b[i] in a;
    if a != [] {
      var k := |a| - 1;
      assert a[k] in b;
      var i :| 0 <= i < |b| && b[i] == a[k];
      WithoutOne(a, k);
      assert a[..k] + a[k + 1..] == a[..k];
      WithoutOne(b, i);
      var rest := b[..i] + b[i + 1..];
      assert forall x :: x in a[..k] <==> x in a && x != a[k];
      assert forall x :: x in rest <==> x in b && x != b[i];
      SumInAnyOrder(a[..k], rest, cost);
      SumWithout(b, cost, i);
    }
  }

  lemma {:induction false} StepsJoin(n: Naming, a: seq<Child>, b: seq<Child>)
    ensures AllChildSteps(n, a + b) == AllChildSteps(n, a) + AllChildSteps(n, b)
  {
    if a == [] {
      assert a + b == b;
    } else {
      assert (a + b)[1..] == a[1..] + b;
      StepsJoin(n, a[1..], b);
    }
  }

  lemma {:induction false} ChildrenCost(n: Naming, w: World, versions: seq<Content>)
    ensures |AllChildSteps(n, Children(n, w, versions))| == Sum(versions, v => VersionCost(n, w, v))
  {
    if versions != [] {
      var k := |versions| - 1;
      ChildrenCost(n, w, versions[..k]);
      StepsJoin(n, Children(n, w, versions[..k]), ChildIfOpen(n, w, versions[k]));
      assert Children(n, w, versions) == Children(n, w, versions[..k]) + ChildIfOpen(n, w, versions[k]);
      var c := ChildOf(n, w, versions[k]);
      assert AllChildSteps(n, [c]) == ChildSteps(n, c) + AllChildSteps(n, []);
    }
  }

  lemma {:induction false} CleanupsCost(w: World, originals: seq<Path>)
    ensures |Cleanups(w, originals)| == Sum(originals, p => OriginalCost(w, p))
  {
    if originals != [] {
      CleanupsCost(w, originals[..|originals| - 1]);
    }
  }

  /** What is left does not depend on the order of the lists. */
  lemma SameWork(n: Naming, w: World, versions: seq<Content>, originals: seq<Path>, again: seq<Content>,
                 known: seq<Path>)
    requires Placed(n, w, versions, originals) && SameLists(versions, originals, again, known)
    ensures |Work(n, w, again, known)| == |Work(n, w, versions, originals)|
  {
    forall i, j | 0 <= i < j < |versions| ensures versions[i] != versions[j] {
      assert n.at(versions[i]) != n.at(versions[j]);
    }
    SumInAnyOrder(versions, again, v => VersionCost(n, w, v));
    SumInAnyOrder(originals, known, p => OriginalCost(w, p));
    ChildrenCost(n, w, versions);
    ChildrenCost(n, w, again);
    CleanupsCost(w, originals);
    CleanupsCost(w, known);
  }

  /** Nor does whether a cover is placed, or due. */
  lemma SamePlaced(n: Naming, w: World, versions: seq<Content>, originals: seq<Path>, again: seq<Content>,
                   known: seq<Path>)
    requires Placed(n, w, versions, originals) && SameLists(versions, originals, again, known)
    ensures Placed(n, w, again, known)
  {
    forall i | 0 <= i < |again| ensures Available(n, w, again[i]) && n.at(again[i]) !in known {
      assert again[i] in versions;
      var k :| 0 <= k < |versions| && versions[k] == again[i];
      assert Available(n, w, versions[k]) && n.at(versions[k]) !in originals;
    }
    forall i, j | 0 <= i < j < |again| ensures n.at(again[i]) != n.at(again[j]) {
      assert again[i] in versions && again[j] in versions;
      var k :| 0 <= k < |versions| && versions[k] == again[i];
      var m :| 0 <= m < |versions| && versions[m] == again[j];
      assert k < m || m < k;
    }
  }

  lemma SameClaims(n: Naming, w: World, versions: seq<Content>, again: seq<Content>)
    requires Claims(n, w, versions) && Distinct(again) && forall v :: v in again <==> v in versions
    ensures Claims(n, w, again)
  {
    forall i | 0 <= i < |again| && !Published(n, w, again[i]) ensures Claimable(n, w, again[i]) {
      assert again[i] in versions;
      var k :| 0 <= k < |versions| && versions[k] == again[i];
    }
    forall i, j | 0 <= i < j < |again| ensures Target(n, w, again[i]) != Target(n, w, again[j]) {
      assert again[i] in versions && again[j] in versions;
      var k :| 0 <= k < |versions| && versions[k] == again[i];
      var m :| 0 <= m < |versions| && versions[m] == again[j];
      assert k < m || m < k;
    }
  }

  /** A decision on `t` has the candidates of the one on `w`, and exactly the unpublished versions as its children. */
  ghost predicate DecidedAgain(n: Naming, w: World, versions: seq<Content>, originals: seq<Path>, t: World,
                               again: seq<Content>, known: seq<Path>) {
    && Placed(n, t, again, known)
    && (forall p :: p in CoverOf(n, t, again, known).candidatePaths <==>
          p in CoverOf(n, w, versions, originals).candidatePaths)
    && (forall v | v in versions :: !Published(n, t, v) <==>
          exists c | c in CoverOf(n, t, again, known).children :: c.version == v)
  }

  /** Stop after any number of atomic steps and decide again, from the same versions and originals in any order: the
      children are exactly the unpublished versions, nothing was overwritten, and less is left to do. A cover that is
      due gets as far as one likes, and stays due. */
  lemma Restartable(n: Naming, w: World, versions: seq<Content>, originals: seq<Path>, m: nat,
                    again: seq<Content>, known: seq<Path>)
    requires Placed(n, w, versions, originals) && m <= |StepsOf(n, CoverOf(n, w, versions, originals))|
    requires SameLists(versions, originals, again, known)
    ensures var steps := StepsOf(n, CoverOf(n, w, versions, originals));
            var t := RunSteps(w, steps[..m]);
            && (Claims(n, w, versions) ==> t.Some? && Claims(n, t.value, again))
            && (t.Some? ==>
                  && OnlyAdds(w, t.value) && DecidedAgain(n, w, versions, originals, t.value, again, known)
                  && Ahead(n, t.value, versions, originals, steps[m..])
                  && |Work(n, t.value, again, known)| <= |steps| - m)
  {
    var steps := StepsOf(n, CoverOf(n, w, versions, originals));
    assert steps == Work(n, w, versions, originals);
    if Claims(n, w, versions) {
      RunKeeps(n, w, versions, originals, steps, m);
      SameClaims(n, RunSteps(w, steps[..m]).value, versions, again);
    }
    if RunSteps(w, steps[..m]).Some? {
      RunStays(n, w, versions, originals, steps, m);
      var t := RunSteps(w, steps[..m]).value;
      SameWork(n, t, versions, originals, again, known);
      AgainDecided(n, w, versions, originals, t, again, known);
    }
  }

  lemma AgainDecided(n: Naming, w: World, versions: seq<Content>, originals: seq<Path>, t: World,
                     again: seq<Content>, known: seq<Path>)
    requires Placed(n, t, versions, originals) && SameLists(versions, originals, again, known)
    ensures DecidedAgain(n, w, versions, originals, t, again, known)
  {
    SamePlaced(n, t, versions, originals, again, known);
    ChildrenOf(n, t, again);
    forall v | v in versions && !Published(n, t, v) ensures exists c | c in Children(n, t, again) :: c.version == v {
      UnpublishedHasChild(n, t, again, v);
    }
    CandidatesAre(n, versions);
    CandidatesAre(n, again);
  }

  lemma CandidatesAre(n: Naming, versions: seq<Content>)
    ensures forall p :: p in Candidates(n, versions) <==> exists v | v in versions :: n.at(v) == p
  {
    forall p ensures p in Candidates(n, versions) <==> exists v | v in versions :: n.at(v) == p {
      if p in Candidates(n, versions) {
        var i :| 0 <= i < |versions| && Candidates(n, versions)[i] == p;
        assert versions[i] in versions;
      }
      if v :| v in versions && n.at(v) == p {
        var i :| 0 <= i < |versions| && versions[i] == v;
        assert Candidates(n, versions)[i] == p;
      }
    }
  }

  lemma {:induction false} UnpublishedHasChild(n: Naming, w: World, versions: seq<Content>, v: Content)
    requires v in versions && !Published(n, w, v)
    ensures ChildOf(n, w, v) in Children(n, w, versions)
  {
    var k := |versions| - 1;
    if v != versions[k] {
      assert versions == versions[..k] + [versions[k]];
      UnpublishedHasChild(n, w, versions[..k], v);
    }
  }

  lemma NothingLeft(n: Naming, w: World, versions: seq<Content>, originals: seq<Path>)
    ensures Work(n, w, versions, originals) == [] <==>
            && (forall v | v in versions :: Published(n, w, v))
            && (forall p | p in originals && p in w.rows :: p in w.local && p in w.remote)
  {
    ChildrenOf(n, w, versions);
    CleanupsAre(w, originals);
    if Children(n, w, versions) != [] {
      assert ChildSteps(n, Children(n, w, versions)[0]) != [];
    }
  }

  /** When nothing is left, every version is on both sides under its own row, and no stale row remains. */
  lemma FinishedCover(n: Naming, w: World, versions: seq<Content>, originals: seq<Path>)
    requires Due(n, w, versions, originals)
    ensures Work(n, w, versions, originals) == [] <==>
            && (forall v | v in versions :: Published(n, w, v))
            && (forall p | p in originals && p in w.rows :: p in w.local && p in w.remote)
    ensures RunSteps(w, Work(n, w, versions, originals)).Some?
    ensures Work(n, RunSteps(w, Work(n, w, versions, originals)).value, versions, originals) == []
  {
    NothingLeft(n, w, versions, originals);
    var steps := Work(n, w, versions, originals);
    RunKeeps(n, w, versions, originals, steps, |steps|);
    assert steps[..|steps|] == steps;
  }

  /** Carried out to its end a cover has preserved every version: it stands at its candidate on both sides, under a row
      with its digest. */
  lemma EveryVersionPreserved(n: Naming, w: World, versions: seq<Content>, originals: seq<Path>, v: Content)
    requires Due(n, w, versions, originals) && v in versions
    ensures var t := RunSteps(w, StepsOf(n, CoverOf(n, w, versions, originals)));
            && t.Some? && OnlyAdds(w, t.value)
            && Found(t.value.local, n.at(v)) == Some(v) && Found(t.value.remote, n.at(v)) == Some(v)
            && n.at(v) in t.value.rows && t.value.rows[n.at(v)].digest == n.sha(v)
  {
    var steps := Work(n, w, versions, originals);
    FinishedCover(n, w, versions, originals);
    assert steps[..|steps|] == steps;
    RunStays(n, w, versions, originals, steps, |steps|);
    NothingLeft(n, RunSteps(w, steps).value, versions, originals);
  }

  lemma {:induction false} CleanupsAre(w: World, originals: seq<Path>)
    ensures Cleanups(w, originals) == [] <==> forall p | p in originals && p in w.rows :: p in w.local && p in w.remote
  {
    if originals != [] {
      var k := |originals| - 1;
      CleanupsAre(w, originals[..k]);
      assert originals == originals[..k] + [originals[k]];
    }
  }

  // ---------------------------------------------------------------- the version set

  /** The contents found at a set of addresses, on either side. */
  ghost predicate IsVersion(w: World, sources: set<Path>, v: Content) {
    exists p | p in sources :: Found(w.local, p) == Some(v) || Found(w.remote, p) == Some(v)
  }

  /** A run adds only versions already known, at their own candidates, so the version set stays what it was,
      whichever finished candidates the next observation counts as sources. */
  lemma VersionsUnchanged(n: Naming, w: World, t: World, versions: seq<Content>, originals: seq<Path>,
                          sources: set<Path>, more: set<Path>)
    requires Placed(n, t, versions, originals) && OnlyAdds(w, t)
    requires forall p | p in sources && p !in Candidates(n, versions) ::
               Found(w.local, p) == Found(t.local, p) && Found(w.remote, p) == Found(t.remote, p)
    requires sources <= more && forall p | p in more - sources :: p in Candidates(n, versions)
    requires forall v :: v in versions <==> IsVersion(w, sources, v)
    ensures forall v :: v in versions <==> IsVersion(t, more, v)
  {
    forall v | v in versions ensures IsVersion(t, more, v) {
      var p :| p in sources && (Found(w.local, p) == Some(v) || Found(w.remote, p) == Some(v));
      assert Found(t.local, p) == Some(v) || Found(t.remote, p) == Some(v);
    }
    forall v | IsVersion(t, more, v) ensures v in versions {
      var p :| p in more && (Found(t.local, p) == Some(v) || Found(t.remote, p) == Some(v));
      if p in Candidates(n, versions) {
        var i :| 0 <= i < |versions| && n.at(versions[i]) == p;
        assert Available(n, t, versions[i]);
      } else {
        assert IsVersion(w, sources, v);
      }
    }
  }

  /** One step of a run, whether it does the first thing left to do or renews a row. */
  lemma NextStep(n: Naming, w: World, versions: seq<Content>, originals: seq<Path>, rest: seq<Step>, p: Path, t: World)
    requires Placed(n, w, versions, originals) && Ahead(n, w, versions, originals, rest) && rest != []
    requires Apply(w, rest[0]) == Some(t) && p !in Candidates(n, versions)
    ensures Placed(n, t, versions, originals) && Ahead(n, t, versions, originals, rest[1..])
    ensures Found(t.local, p) == Found(w.local, p) && Found(t.remote, p) == Found(w.remote, p)
  {
    AheadStays(n, w, versions, originals, rest, t);
    AheadPlace(n, w, versions, originals, rest);
    WritesAlone(w, rest[0], p);
  }

  lemma AheadPlace(n: Naming, w: World, versions: seq<Content>, originals: seq<Path>, rest: seq<Step>)
    requires Ahead(n, w, versions, originals, rest) && rest != []
    ensures rest[0].WriteSide? ==> rest[0].path in Candidates(n, versions)
  {
    if Work(n, w, versions, originals) == rest {
      FirstStepPlace(n, w, versions, originals);
    }
  }

  /** A step changes what is found at no address but the one it writes. */
  lemma WritesAlone(w: World, s: Step, p: Path)
    requires !(s.WriteSide? && s.path == p) && Apply(w, s).Some?
    ensures Found(Apply(w, s).value.local, p) == Found(w.local, p) &&
            Found(Apply(w, s).value.remote, p) == Found(w.remote, p)
  {
  }

  /** No step touches an address that is no candidate. */
  lemma {:induction false} OnlyCandidatesWritten(n: Naming, w: World, versions: seq<Content>, originals: seq<Path>,
                                                 rest: seq<Step>, m: nat, p: Path)
    requires Placed(n, w, versions, originals) && Ahead(n, w, versions, originals, rest) && m <= |rest|
    requires p !in Candidates(n, versions)
    ensures var t := RunSteps(w, rest[..m]);
            t.Some? ==>
              Found(t.value.local, p) == Found(w.local, p) && Found(t.value.remote, p) == Found(w.remote, p)
    decreases m
  {
    if m > 0 {
      RunCons(w, rest, m);
      if Apply(w, rest[0]).Some? {
        NextStep(n, w, versions, originals, rest, p, Apply(w, rest[0]).value);
        OnlyCandidatesWritten(n, Apply(w, rest[0]).value, versions, originals, rest[1..], m - 1, p);
      }
    }
  }

  lemma FirstStepPlace(n: Naming, w: World, versions: seq<Content>, originals: seq<Path>)
    requires Work(n, w, versions, originals) != []
    ensures Work(n, w, versions, originals)[0].WriteSide? ==>
            Work(n, w, versions, originals)[0].path in Candidates(n, versions)
  {
    var children := Children(n, w, versions);
    if children != [] {
      ChildrenOf(n, w, versions);
      var c := children[0];
      var i :| 0 <= i < |versions| && versions[i] == c.version;
      assert Candidates(n, versions)[i] == c.candidatePath;
      Tail(ChildSteps(n, c), AllChildSteps(n, children[1..]));
    }
  }

  /** Whatever finished candidates the next observation counts as sources, it sees the same versions. */
  lemma RestartSeesSameVersions(n: Naming, w: World, versions: seq<Content>, originals: seq<Path>, m: nat,
                                sources: set<Path>, more: set<Path>)
    requires Placed(n, w, versions, originals) && m <= |Work(n, w, versions, originals)|
    requires RunSteps(w, Work(n, w, versions, originals)[..m]).Some?
    requires sources <= more && forall p | p in more - sources :: p in Candidates(n, versions)
    requires forall v :: v in versions <==> IsVersion(w, sources, v)
    ensures var t := RunSteps(w, Work(n, w, versions, originals)[..m]).value;
            forall v :: v in versions <==> IsVersion(t, more, v)
  {
    var steps := Work(n, w, versions, originals);
    RunStays(n, w, versions, originals, steps, m);
    var t := RunSteps(w, steps[..m]).value;
    forall p | p in sources && p !in Candidates(n, versions)
      ensures Found(w.local, p) == Found(t.local, p) && Found(w.remote, p) == Found(t.remote, p)
    {
      OnlyCandidatesWritten(n, w, versions, originals, steps, m, p);
    }
    VersionsUnchanged(n, w, t, versions, originals, sources, more);
  }

  // ---------------------------------------------------------------- the gate in front of the cover

  ghost predicate FileEvidence(n: Naming, w: World, versions: seq<Content>) {
    exists i | 0 <= i < |versions| :: n.at(versions[i]) in w.local || n.at(versions[i]) in w.remote
  }

  lemma ChildLeavesEvidence(n: Naming, w: World, v: Content, t: World)
    requires Available(n, w, v) && Apply(w, ChildSteps(n, ChildOf(n, w, v))[0]) == Some(t)
    ensures n.at(v) in t.local
  {
    var c := ChildOf(n, w, v);
    if c.missingSides != [] {
      assert ChildSteps(n, c)[0] == WriteSide(c.missingSides[0], c.candidatePath, v, n.newId(v));
    } else {
      assert ChildSteps(n, c)[0] == Publication(n, c);
    }
  }

  lemma FirstStepLeavesEvidence(n: Naming, w: World, versions: seq<Content>, originals: seq<Path>, t: World)
    requires Placed(n, w, versions, originals) && versions != [] && Work(n, w, versions, originals) != []
    requires Apply(w, Work(n, w, versions, originals)[0]) == Some(t)
    ensures FileEvidence(n, t, versions)
  {
    if Children(n, w, versions) != [] {
      var k := FirstUnpublished(n, w, versions);
      WorkSplits(n, w, versions, originals, k);
      ChildLeavesEvidence(n, w, versions[k], t);
    } else {
      ChildrenOf(n, w, versions);
      assert versions[0] in versions && Published(n, w, versions[0]);
      assert n.at(versions[0]) in t.local;
    }
  }

  /** Once a step was taken the cover is decided again, even when the reports that first called for it are gone. */
  lemma GateStaysOpen(n: Naming, w: World, versions: seq<Content>, originals: seq<Path>, m: nat, abandoned: bool)
    requires Placed(n, w, versions, originals) && versions != [] && 0 < m <= |Work(n, w, versions, originals)|
    requires RunSteps(w, Work(n, w, versions, originals)[..m]).Some?
    ensures Applies(abandoned, n, RunSteps(w, Work(n, w, versions, originals)[..m]).value, versions, originals)
  {
    var steps := Work(n, w, versions, originals);
    RunCons(w, steps, m);
    var next := Apply(w, steps[0]).value;
    FirstStepLeavesEvidence(n, w, versions, originals, next);
    StepStays(n, w, versions, originals, next);
    RunStays(n, next, versions, originals, steps[1..], m - 1);
  }

  // ---------------------------------------------------------------- the executor's contract check

  function Kept(paths: seq<Path>, among: set<Path>): seq<Path> {
    if paths == [] then []
    else
      var k := |paths| - 1;
      var before := Kept(paths[..k], among);
      if paths[k] in among then before + [paths[k]] else before
  }

  function ChildPaths(children: seq<Child>): seq<Path> {
    seq(|children|, i requires 0 <= i < |children| => children[i].candidatePath)
  }

  /** The list conditions of isPreservationCoverProtocol, and each child's own. */
  ghost predicate IsCoverProtocol(n: Naming, cover: Cover) {
    && Distinct(cover.candidatePaths) && Distinct(cover.preservedPaths)
    && cover.preservedPaths == Kept(cover.candidatePaths, Elements(cover.preservedPaths))
    && ChildPaths(cover.children) ==
       Kept(cover.candidatePaths, Elements(cover.candidatePaths) - Elements(cover.preservedPaths))
    && forall c | c in cover.children :: SoundChild(n, c)
  }

  /** A child names its version's candidate, expects nothing else there, and lists exactly the sides without it. */
  ghost predicate SoundChild(n: Naming, c: Child) {
    && c.candidatePath == n.at(c.version)
    && (c.expectedLocal.Some? ==> c.expectedLocal.value == c.version)
    && (c.expectedRemote.Some? ==> c.expectedRemote.value == c.version)
    && Distinct(c.missingSides)
    && (LocalSide in c.missingSides <==> c.expectedLocal.None?)
    && (RemoteSide in c.missingSides <==> c.expectedRemote.None?)
  }

  lemma {:induction false} KeptMembers(paths: seq<Path>, among: set<Path>)
    requires Distinct(paths)
    ensures Distinct(Kept(paths, among)) && forall p :: p in Kept(paths, among) <==> p in paths && p in among
  {
    if paths != [] {
      var k := |paths| - 1;
      KeptMembers(paths[..k], among);
      var before := Kept(paths[..k], among);
      assert paths == paths[..k] + [paths[k]];
      assert forall i | 0 <= i < |before| :: before[i] in paths[..k];
    }
  }

  /** What a cover that passes the check promises the executor: each candidate is preserved already or is some child's,
      never both, and no two children share one; a child writes its own version, at its candidate, to exactly the sides
      on which it expects nothing. */
  lemma CheckedCover(n: Naming, cover: Cover)
    requires IsCoverProtocol(n, cover)
    ensures forall p :: p in cover.candidatePaths <==>
              p in cover.preservedPaths || exists c :: c in cover.children && c.candidatePath == p
    ensures forall c | c in cover.children :: c.candidatePath !in cover.preservedPaths
    ensures forall i, j | 0 <= i < j < |cover.children| ::
              cover.children[i].candidatePath != cover.children[j].candidatePath
    ensures forall c | c in cover.children ::
              && c.candidatePath == n.at(c.version)
              && (forall side ::
                    WriteSide(side, n.at(c.version), c.version, n.newId(c.version)) in ChildSteps(n, c) <==>
                    (if side.LocalSide? then c.expectedLocal else c.expectedRemote) == None)
  {
    var open := Elements(cover.candidatePaths) - Elements(cover.preservedPaths);
    var paths := ChildPaths(cover.children);
    KeptMembers(cover.candidatePaths, Elements(cover.preservedPaths));
    KeptMembers(cover.candidatePaths, open);
    forall p
      ensures p in paths <==> exists c :: c in cover.children && c.candidatePath == p
    {
      if c :| c in cover.children && c.candidatePath == p {
        var i :| 0 <= i < |cover.children| && cover.children[i] == c;
        assert paths[i] == p;
      }
    }
    forall c | c in cover.children
      ensures c.candidatePath in paths
    {
      var i :| 0 <= i < |cover.children| && cover.children[i] == c;
      assert paths[i] == c.candidatePath;
    }
    forall i, j | 0 <= i < j < |cover.children|
      ensures cover.children[i].candidatePath != cover.children[j].candidatePath
    {
      assert paths[i] != paths[j];
    }
    forall c, side | c in cover.children
      ensures WriteSide(side, n.at(c.version), c.version, n.newId(c.version)) in ChildSteps(n, c) <==>
              (if side.LocalSide? then c.expectedLocal else c.expectedRemote) == None
    {
      WritesAre(n, c, side);
    }
  }

  lemma WritesAre(n: Naming, c: Child, side: Side)
    ensures WriteSide(side, c.candidatePath, c.version, n.newId(c.version)) in ChildSteps(n, c) <==>
            side in c.missingSides
  {
    var writes := Writes(c.missingSides, c.candidatePath, c.version, n.newId(c.version));
    if side in c.missingSides {
      var i :| 0 <= i < |c.missingSides| && c.missingSides[i] == side;
      assert writes[i] == WriteSide(side, c.candidatePath, c.version, n.newId(c.version));
      assert ChildSteps(n, c)[i] == writes[i];
    }
  }

  lemma {:induction false} PreservedAre(n: Naming, w: World, versions: seq<Content>)
    requires NamesApart(n, versions)
    ensures Distinct(Preserved(n, w, versions))
    ensures forall i | 0 <= i < |versions| ::
              n.at(versions[i]) in Preserved(n, w, versions) <==> Published(n, w, versions[i])
    ensures forall p | p in Preserved(n, w, versions) :: p in Candidates(n, versions)
  {
    if versions != [] {
      var k := |versions| - 1;
      var before := Preserved(n, w, versions[..k]);
      PreservedAre(n, w, versions[..k]);
      var all := Candidates(n, versions);
      assert all[..k] == Candidates(n, versions[..k]) && all[k] == n.at(versions[k]);
      forall i | 0 <= i < |before| ensures before[i] != all[k] {
        assert before[i] in all[..k];
      }
    }
  }

  lemma {:induction false} KeptSplits(n: Naming, w: World, versions: seq<Content>, done: set<Path>, open: set<Path>)
    requires forall i | 0 <= i < |versions| :: n.at(versions[i]) in done <==> Published(n, w, versions[i])
    requires forall i | 0 <= i < |versions| :: n.at(versions[i]) in open <==> !Published(n, w, versions[i])
    ensures Kept(Candidates(n, versions), done) == Preserved(n, w, versions)
    ensures Kept(Candidates(n, versions), open) == ChildPaths(Children(n, w, versions))
  {
    if versions != [] {
      var k := |versions| - 1;
      KeptSplits(n, w, versions[..k], done, open);
      assert Candidates(n, versions)[..k] == Candidates(n, versions[..k]);
    }
  }

  lemma ChildIsSound(n: Naming, w: World, v: Content)
    requires Available(n, w, v)
    ensures SoundChild(n, ChildOf(n, w, v))
  {
  }

  /** Every decided cover is a protocol the executor accepts. */
  lemma DecidedCoverPasses(n: Naming, w: World, versions: seq<Content>, originals: seq<Path>)
    requires NamesApart(n, versions) && forall i | 0 <= i < |versions| :: Available(n, w, versions[i])
    ensures IsCoverProtocol(n, CoverOf(n, w, versions, originals))
  {
    var cover := CoverOf(n, w, versions, originals);
    PreservedAre(n, w, versions);
    forall i | 0 <= i < |versions| ensures n.at(versions[i]) in cover.candidatePaths {
      assert cover.candidatePaths[i] == n.at(versions[i]);
    }
    KeptSplits(n, w, versions, Elements(cover.preservedPaths),
               Elements(cover.candidatePaths) - Elements(cover.preservedPaths));
    ChildrenOf(n, w, versions);
    forall c | c in cover.children ensures SoundChild(n, c) {
      var i :| 0 <= i < |versions| && versions[i] == c.version;
      assert Available(n, w, versions[i]);
      ChildIsSound(n, w, c.version);
    }
  }

  // ---------------------------------------------------------------- the executor

  lemma {:induction false} RunJoins(w: World, a: seq<Step>, b: seq<Step>)
    ensures RunSteps(w, a + b) == if RunSteps(w, a).None? then None else RunSteps(RunSteps(w, a).value, b)
    decreases |a|
  {
    if a == [] {
      assert a + b == b;
    } else {
      Tail(a, b);
      if Apply(w, a[0]).Some? {
        RunJoins(Apply(w, a[0]).value, a[1..], b);
      }
    }
  }

  lemma RunOne(w: World, s: Step)
    ensures RunSteps(w, [s]) == Apply(w, s)
  {
    if Apply(w, s).Some? {
      assert RunSteps(Apply(w, s).value, [s][1..]) == Apply(w, s);
    }
  }

  /** `t` is what some number of the steps leaves. */
  ghost predicate StoppedWithin(w: World, steps: seq<Step>, t: World) {
    exists m | 0 <= m <= |steps| :: RunSteps(w, steps[..m]) == Some(t)
  }

  lemma StopsAt(w: World, steps: seq<Step>, done: seq<Step>, later: seq<Step>, t: World)
    requires steps == done + later && RunSteps(w, done) == Some(t)
    ensures StoppedWithin(w, steps, t)
  {
    assert steps[..|done|] == done;
  }

  lemma Regrouped(done: seq<Step>, part: seq<Step>, later: seq<Step>, m: nat)
    requires m <= |part|
    ensures done + part + later == (done + part[..m]) + (part[m..] + later)
  {
    assert part == part[..m] + part[m..];
  }

  /** To stop within a part is to stop within the whole. */
  lemma StoppedLater(w: World, done: seq<Step>, part: seq<Step>, later: seq<Step>, t: World, u: World)
    requires RunSteps(w, done) == Some(t) && StoppedWithin(t, part, u)
    ensures StoppedWithin(w, done + part + later, u)
  {
    var m :| 0 <= m <= |part| && RunSteps(t, part[..m]) == Some(u);
    RunJoins(w, done, part[..m]);
    Regrouped(done, part, later, m);
    StopsAt(w, done + part + later, done + part[..m], part[m..] + later, u);
  }

  /** A run of a decided cover that stops anywhere, for whatever reason, can be decided again; what it overwrote is
      nothing. If it could have been carried out to its end, it still can. */
  lemma StoppedRestarts(n: Naming, w: World, versions: seq<Content>, originals: seq<Path>, t: World,
                        again: seq<Content>, known: seq<Path>)
    requires Placed(n, w, versions, originals) && StoppedWithin(w, StepsOf(n, CoverOf(n, w, versions, originals)), t)
    requires SameLists(versions, originals, again, known)
    ensures OnlyAdds(w, t) && DecidedAgain(n, w, versions, originals, t, again, known)
    ensures Due(n, w, versions, originals) ==> Due(n, t, again, known)
  {
    var steps := StepsOf(n, CoverOf(n, w, versions, originals));
    var m :| 0 <= m <= |steps| && RunSteps(w, steps[..m]) == Some(t);
    Restartable(n, w, versions, originals, m, again, known);
  }

  /** Which calls of a child do not throw: the capture of its source, its writes, its publication. */
  datatype ChildCalls = ChildCalls(captured: bool, writes: Side -> bool, publishes: bool)

  ghost predicate NoneThrow(calls: ChildCalls) {
    calls.captured && calls.publishes && forall side: Side :: calls.writes(side)
  }

  /** Both filesystems, the provider's objects and the rows, written step by step. */
  class Stores {
    var local: map<Path, Content>
    var remote: map<Path, Content>
    var ids: map<Path, Identity>
    var rows: map<Path, Row>

    ghost function View(): World
      reads this
    {
      World(local, remote, ids, rows)
    }

    /** Write one missing side, if the destination is still empty and the call does not throw. */
    method WriteMissing(side: Side, path: Path, content: Content, id: Identity, works: bool) returns (ok: bool)
      modifies this`local, this`remote, this`ids
      ensures ok <==> works && Apply(old(View()), WriteSide(side, path, content, id)).Some?
      ensures ok ==> Apply(old(View()), WriteSide(side, path, content, id)) == Some(View())
      ensures !ok ==> View() == old(View())
    {
      if !works || (side.LocalSide? && path in local) || (side.RemoteSide? && path in remote) {
        return false;
      }
      if side.LocalSide? {
        local := local[path := content];
      } else {
        remote, ids := remote[path := content], ids[path := id];
      }
      return true;
    }

    /** Prove both sides, then publish under the captured row. */
    method PublishChild(n: Naming, c: Child, works: bool) returns (ok: bool)
      modifies this`rows
      ensures ok <==> works && Apply(old(View()), Publication(n, c)).Some?
      ensures ok ==> Apply(old(View()), Publication(n, c)) == Some(View())
      ensures !ok ==> View() == old(View())
    {
      var path := c.candidatePath;
      if !works || path !in local || path !in remote || local[path] != c.version || remote[path] != c.version ||
         (if path in rows then Some(rows[path]) else None) != c.baseline || path !in ids ||
         exists q | q in rows && q != path :: rows[q].id == ids[path] {
        return false;
      }
      rows := rows[path := Row(n.sha(c.version), ids[path])];
      return true;
    }

    /** Prove the destinations, write the missing sides, publish. A failure stops between two steps. */
    method ExecuteChild(n: Naming, c: Child, calls: ChildCalls) returns (ok: bool)
      modifies this
      ensures ok ==> RunSteps(old(View()), ChildSteps(n, c)) == Some(View())
      ensures !ok ==> StoppedWithin(old(View()), ChildSteps(n, c), View())
      ensures (NoneThrow(calls) && RunSteps(old(View()), ChildSteps(n, c)).Some? &&
               Found(old(local), c.candidatePath) == c.expectedLocal &&
               Found(old(remote), c.candidatePath) == c.expectedRemote) ==> ok
    {
      var path, id := c.candidatePath, n.newId(c.version);
      ghost var before, steps := View(), ChildSteps(n, c);
      if !calls.captured || (if path in local then Some(local[path]) else None) != c.expectedLocal ||
         (if path in remote then Some(remote[path]) else None) != c.expectedRemote {
        StopsAt(before, steps, [], steps, before);
        return false;
      }
      for i := 0 to |c.missingSides|
        invariant RunSteps(before, steps[..i]) == Some(View())
      {
        assert steps[i] == WriteSide(c.missingSides[i], path, c.version, id);
        OneMoreStep(before, steps, i, View());
        ok := WriteMissing(c.missingSides[i], path, c.version, id, calls.writes(c.missingSides[i]));
        if !ok {
          return false;
        }
      }
      ghost var k := |c.missingSides|;
      assert steps[k] == Publication(n, c) && steps[..k + 1] == steps;
      OneMoreStep(before, steps, k, View());
      ok := PublishChild(n, c, calls.publishes);
    }

    /** Every child publishes before the next begins. */
    method ExecuteChildren(n: Naming, children: seq<Child>, calls: Child -> ChildCalls) returns (ok: bool)
      modifies this
      ensures ok ==> RunSteps(old(View()), AllChildSteps(n, children)) == Some(View())
      ensures !ok ==> StoppedWithin(old(View()), AllChildSteps(n, children), View())
    {
      ghost var before, all, done: seq<Step> := View(), AllChildSteps(n, children), [];
      for i := 0 to |children|
        invariant RunSteps(before, done) == Some(View())
        invariant all == done + AllChildSteps(n, children[i..])
      {
        ghost var steps, later := ChildSteps(n, children[i]), AllChildSteps(n, children[i + 1..]);
        assert children[i..][0] == children[i] && children[i..][1..] == children[i + 1..];
        Joined(done, steps, later);
        ghost var here := View();
        ok := ExecuteChild(n, children[i], calls(children[i]));
        if !ok {
          StoppedLater(before, done, steps, later, here, View());
          return false;
        }
        RunJoins(before, done, steps);
        done := done + steps;
      }
      assert AllChildSteps(n, children[|children|..]) == [] && all == done;
      return true;
    }

    /** The stale rows, each if it still is the captured one. */
    method CleanRows(cleanup: seq<Cleanup>, cleans: Cleanup -> bool) returns (ok: bool)
      modifies this`rows
      ensures ok ==> RunSteps(old(View()), CleanupSteps(cleanup)) == Some(View())
      ensures !ok ==> StoppedWithin(old(View()), CleanupSteps(cleanup), View())
    {
      ghost var before, steps := View(), CleanupSteps(cleanup);
      for i := 0 to |cleanup|
        invariant RunSteps(before, steps[..i]) == Some(View())
      {
        var stale := cleanup[i];
        assert steps[i] == CleanRow(stale.path, stale.expected);
        OneMoreStep(before, steps, i, View());
        if !cleans(stale) || stale.path !in rows || rows[stale.path] != stale.expected {
          return false;
        }
        rows := rows - {stale.path};
      }
      assert steps[..|cleanup|] == steps;
      return true;
    }

    /** The children, then the stale rows. A failure stops between two steps of the cover. */
    method ExecutePreservationCover(n: Naming, cover: Cover, calls: Child -> ChildCalls, cleans: Cleanup -> bool)
      returns (ok: bool)
      modifies this
      ensures ok ==> RunSteps(old(View()), StepsOf(n, cover)) == Some(View())
      ensures !ok ==> StoppedWithin(old(View()), StepsOf(n, cover), View())
    {
      ghost var before, first, last := View(), AllChildSteps(n, cover.children), CleanupSteps(cover.cleanup);
      ok := ExecuteChildren(n, cover.children, calls);
      if !ok {
        assert [] + first + last == StepsOf(n, cover);
        StoppedLater(before, [], first, last, before, View());
        return;
      }
      ghost var here := View();
      RunJoins(before, first, last);
      ok := CleanRows(cover.cleanup, cleans);
      if !ok {
        assert first + last + [] == StepsOf(n, cover);
        StoppedLater(before, first, last, [], here, View());
      }
    }
  }

  /** A run up to one step, and that step. */
  lemma OneMoreStep(w: World, steps: seq<Step>, i: nat, t: World)
    requires i < |steps| && RunSteps(w, steps[..i]) == Some(t)
    ensures RunSteps(w, steps[..i + 1]) == Apply(t, steps[i])
    ensures StoppedWithin(w, steps, t)
    ensures RunSteps(w, steps).Some? ==> Apply(t, steps[i]).Some?
  {
    assert steps[..i + 1] == steps[..i] + [steps[i]] && steps == steps[..i + 1] + steps[i + 1..];
    RunJoins(w, steps[..i], [steps[i]]);
    RunOne(t, steps[i]);
    RunJoins(w, steps[..i + 1], steps[i + 1..]);
  }
}
