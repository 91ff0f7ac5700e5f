/** Component membership: buildFactComponents of src/sync/plan-admission-graph.ts. */
module FactComponents {
  import opened BatchFacts
  import opened CoverLinks
  import opened PathGraphs
  import opened PathPrefix
  import opened Reachability
  import opened Sequences
  import opened Wrappers

  /** A batch, with the links that its complete preservation covers add. */
  datatype Snapshot = Snapshot(entries: seq<Entry>, evidence: seq<Evidence>, observations: seq<Observation>,
                               coverGroups: seq<seq<Path>>)

  function WithCovers(b: Batch, links: seq<seq<Path>>): Snapshot {
    Snapshot(b.entries, b.evidence, b.observations, links)
  }

  datatype Component = Component(paths: set<Path>, entries: seq<nat>, evidence: seq<nat>, observations: seq<nat>,
                                 candidates: seq<nat>)

  // ---------------------------------------------------------------- what links two paths

  function Listed(p: Option<Path>): seq<Path> {
    if p.Some? then [p.value] else []
  }

  function PathOf(l: Option<Located>): Option<Path> {
    if l.Some? then Some(l.value.path) else None
  }

  function Occurrence(e: Option<Entity>): Option<Located> {
    if e.Some? then Some(Located(e.value.path, e.value.identity)) else None
  }

  function EntryPaths(e: Entry): seq<Path> {
    [e.path] + Listed(PathOf(Occurrence(e.local))) + Listed(PathOf(Occurrence(e.remote))) + Listed(PathOf(e.prevSync))
  }

  function EvidencePaths(v: Evidence): seq<Path> {
    match v
    case Rename(o, n, _) => [o, n]
    case AliasClaim(q, r) => [q, r]
    case StableIdentity(occurrences) => occurrences
  }

  function ObservationPaths(o: Observation): seq<Path> {
    match o
    case AliasSeen(q, r, _) => [q, r]
    case PresentUnresolved(q, r) => [q, r]
    case Unknown(q) => [q]
    case Resolved(q) => [q]
  }

  /** A path of the batch below a folder. */
  predicate Below(p: Path, folder: Path) {
    HasPrefix(p, folder + "/")
  }

  function Descendants(oldPath: Path, newPath: Path, paths: seq<Path>): seq<Path> {
    WithPrefix(paths, oldPath + "/") + WithPrefix(paths, newPath + "/")
  }

  method FolderDescendantPaths(oldPath: Path, newPath: Path, paths: seq<Path>) returns (below: seq<Path>)
    requires Sorted(paths)
    ensures below == Descendants(oldPath, newPath, paths)
    ensures forall p :: p in below <==> p in paths && (Below(p, oldPath) || Below(p, newPath))
  {
    var underOld := PathsWithPrefix(paths, oldPath + "/");
    var underNew := PathsWithPrefix(paths, newPath + "/");
    WithPrefixMembers(paths, oldPath + "/");
    WithPrefixMembers(paths, newPath + "/");
    below := underOld + underNew;
  }

  /** The two roots of a folder relation. */
  function FolderRoots(v: Evidence): Option<(Path, Path)> {
    if v.Rename? && v.isFolder then Some((v.oldPath, v.newPath)) else None
  }

  function AliasRoots(o: Observation): Option<(Path, Path)> {
    if o.AliasSeen? && o.isDirectory then Some((o.requestedPath, o.resolvedPath)) else None
  }

  function Widened(group: seq<Path>, roots: Option<(Path, Path)>, paths: seq<Path>): seq<Path> {
    if roots.Some? then group + Descendants(roots.value.0, roots.value.1, paths) else group
  }

  method WidenGroup(group: seq<Path>, roots: Option<(Path, Path)>, paths: seq<Path>) returns (wide: seq<Path>)
    requires Sorted(paths)
    ensures wide == Widened(group, roots, paths)
  {
    wide := group;
    if roots.Some? {
      var below := FolderDescendantPaths(roots.value.0, roots.value.1, paths);
      wide := group + below;
    }
  }

  /** Everything the batch mentions, before committed identities and covers are linked. */
  ghost predicate Known(s: Snapshot, p: Path) {
    || (exists e | e in s.entries :: p in EntryPaths(e))
    || (exists v | v in s.evidence :: p in EvidencePaths(v))
    || (exists o | o in s.observations :: p in ObservationPaths(o))
  }

  /** A group holds its own paths, and exactly the known paths below either of its folder roots. */
  ghost predicate InGroup(s: Snapshot, p: Path, group: seq<Path>, roots: Option<(Path, Path)>) {
    p in group || (roots.Some? && Known(s, p) && (Below(p, roots.value.0) || Below(p, roots.value.1)))
  }

  predicate OccursAs(e: Entry, identity: string, p: Path) {
    p != "" && identity != "" &&
    (e.prevSync == Some(Located(p, Some(identity))) || Occurrence(e.remote) == Some(Located(p, Some(identity))))
  }

  ghost predicate ByEntry(s: Snapshot, a: Path, b: Path) {
    exists e | e in s.entries :: a in EntryPaths(e) && b in EntryPaths(e)
  }

  ghost predicate ByEvidence(s: Snapshot, a: Path, b: Path) {
    exists v | v in s.evidence ::
      InGroup(s, a, EvidencePaths(v), FolderRoots(v)) && InGroup(s, b, EvidencePaths(v), FolderRoots(v))
  }

  ghost predicate ByObservation(s: Snapshot, a: Path, b: Path) {
    exists o | o in s.observations ::
      InGroup(s, a, ObservationPaths(o), AliasRoots(o)) && InGroup(s, b, ObservationPaths(o), AliasRoots(o))
  }

  ghost predicate ByIdentity(entries: seq<Entry>, a: Path, b: Path) {
    exists id, e, f | e in entries && f in entries :: OccursAs(e, id, a) && OccursAs(f, id, b)
  }

  ghost predicate ByCover(s: Snapshot, a: Path, b: Path) {
    exists g | g in s.coverGroups :: a in g && b in g
  }

  /** Some fact of the batch ties the two paths together. */
  ghost predicate Related(s: Snapshot, a: Path, b: Path) {
    ByEntry(s, a, b) || ByEvidence(s, a, b) || ByObservation(s, a, b) || ByIdentity(s.entries, a, b) || ByCover(s, a, b)
  }

  ghost function RelatedIn(s: Snapshot): (Path, Path) -> bool {
    (a, b) => Related(s, a, b)
  }

  /** The two paths belong to one component. */
  ghost predicate Together(s: Snapshot, a: Path, b: Path) {
    Reaches(RelatedIn(s), a, b)
  }

  // ---------------------------------------------------------------- what each fact ties

  /** The entry's address, where either side reports its file, and where its row is committed. */
  predicate EntryNames(e: Entry, p: Path) {
    || p == e.path
    || (e.local.Some? && p == e.local.value.path)
    || (e.remote.Some? && p == e.remote.value.path)
    || (e.prevSync.Some? && p == e.prevSync.value.path)
  }

  /** The two ends of a rename or an alias, for folders with what is known below either; every place of one object. */
  ghost predicate ClaimNames(s: Snapshot, v: Evidence, p: Path) {
    match v
    case Rename(o, n, folder) => p == o || p == n || (folder && Known(s, p) && (o + "/" <= p || n + "/" <= p))
    case AliasClaim(q, r) => p == q || p == r
    case StableIdentity(occurrences) => p in occurrences
  }

  ghost predicate ObservationNames(s: Snapshot, o: Observation, p: Path) {
    match o
    case AliasSeen(q, r, folder) => p == q || p == r || (folder && Known(s, p) && (q + "/" <= p || r + "/" <= p))
    case PresentUnresolved(q, r) => p == q || p == r
    case Unknown(q) => p == q
    case Resolved(q) => p == q
  }

  /** The object is committed at the path, or seen there on the remote side. */
  predicate ObjectAt(e: Entry, id: string, p: Path) {
    || (e.prevSync.Some? && e.prevSync.value.path == p && e.prevSync.value.identity == Some(id))
    || (e.remote.Some? && e.remote.value.path == p && e.remote.value.identity == Some(id))
  }

  /** Two paths are tied exactly by a fact that names both, or by one object at both. */
  lemma RelatedExactly(s: Snapshot, a: Path, b: Path)
    ensures Related(s, a, b) <==>
            || (exists e | e in s.entries :: EntryNames(e, a) && EntryNames(e, b))
            || (exists v | v in s.evidence :: ClaimNames(s, v, a) && ClaimNames(s, v, b))
            || (exists o | o in s.observations :: ObservationNames(s, o, a) && ObservationNames(s, o, b))
            || (a != "" && b != "" && exists id, e, f | e in s.entries && f in s.entries ::
                  id != "" && ObjectAt(e, id, a) && ObjectAt(f, id, b))
            || (exists g | g in s.coverGroups :: a in g && b in g)
  {
    forall e, p
      ensures p in EntryPaths(e) <==> EntryNames(e, p)
    {
    }
    forall v, p
      ensures InGroup(s, p, EvidencePaths(v), FolderRoots(v)) <==> ClaimNames(s, v, p)
    {
    }
    forall o, p
      ensures InGroup(s, p, ObservationPaths(o), AliasRoots(o)) <==> ObservationNames(s, o, p)
    {
    }
    forall e, id, p
      ensures OccursAs(e, id, p) <==> p != "" && id != "" && ObjectAt(e, id, p)
    {
    }
  }

  // ---------------------------------------------------------------- the groups that are connected

  /** Empty groups link nothing. */
  function Kept(gs: seq<seq<Path>>): seq<seq<Path>> {
    if gs == [] then []
    else Kept(gs[..|gs| - 1]) + if gs[|gs| - 1] == [] then [] else [gs[|gs| - 1]]
  }

  function EntryGroups(entries: seq<Entry>): seq<seq<Path>> {
    seq(|entries|, i requires 0 <= i < |entries| => EntryPaths(entries[i]))
  }

  function EvidenceGroups(evidence: seq<Evidence>, paths: seq<Path>): seq<seq<Path>> {
    seq(|evidence|,
        i requires 0 <= i < |evidence| => Widened(EvidencePaths(evidence[i]), FolderRoots(evidence[i]), paths))
  }

  function ObservationGroups(observations: seq<Observation>, paths: seq<Path>): seq<seq<Path>> {
    seq(|observations|, i requires 0 <= i < |observations| =>
      Widened(ObservationPaths(observations[i]), AliasRoots(observations[i]), paths))
  }

  lemma {:induction false} KeptAdjacent(base: seq<seq<Path>>, gs: seq<seq<Path>>, a: Path, b: Path)
    ensures Adjacent(base + Kept(gs), a, b) <==> Adjacent(base, a, b) || Adjacent(gs, a, b)
  {
    KeptMembers(gs);
    assert forall g :: g in base + Kept(gs) <==> g in base || g in Kept(gs);
  }

  lemma {:induction false} KeptMembers(gs: seq<seq<Path>>)
    ensures forall g :: g in Kept(gs) <==> g in gs && g != []
  {
    if gs != [] {
      KeptMembers(gs[..|gs| - 1]);
      assert gs == gs[..|gs| - 1] + [gs[|gs| - 1]];
    }
  }

  lemma KeptSnoc(gs: seq<seq<Path>>, i: nat)
    requires i < |gs|
    ensures Kept(gs[..i + 1]) == Kept(gs[..i]) + if gs[i] == [] then [] else [gs[i]]
  {
    assert gs[..i + 1][..i] == gs[..i];
  }

  /** No fact of the batch names an empty path. */
  ghost predicate NoEmptyPath(b: Batch) {
    && (forall e | e in b.entries :: "" !in EntryPaths(e))
    && (forall v | v in b.evidence :: "" !in EvidencePaths(v))
    && (forall o | o in b.observations :: "" !in ObservationPaths(o))
    && NamedFacts(b.candidateFacts)
  }

  /** The sorted list of known paths, as the set and sort of the source make it. */
  ghost predicate KnownPaths(s: Snapshot, paths: seq<Path>) {
    Sorted(paths) && forall p :: p in paths <==> Known(s, p)
  }

  lemma WidenedMembers(s: Snapshot, group: seq<Path>, roots: Option<(Path, Path)>, paths: seq<Path>)
    requires KnownPaths(s, paths)
    ensures forall p :: p in Widened(group, roots, paths) <==> InGroup(s, p, group, roots)
  {
    if roots.Some? {
      WithPrefixMembers(paths, roots.value.0 + "/");
      WithPrefixMembers(paths, roots.value.1 + "/");
    }
  }

  lemma EntryGroupsLink(s: Snapshot, a: Path, b: Path)
    ensures Adjacent(EntryGroups(s.entries), a, b) <==> ByEntry(s, a, b)
  {
    var gs := EntryGroups(s.entries);
    if ByEntry(s, a, b) {
      var e :| e in s.entries && a in EntryPaths(e) && b in EntryPaths(e);
      var i :| 0 <= i < |s.entries| && s.entries[i] == e;
      assert gs[i] in gs;
    }
  }

  lemma EvidenceGroupsLink(s: Snapshot, paths: seq<Path>, a: Path, b: Path)
    requires KnownPaths(s, paths)
    ensures Adjacent(EvidenceGroups(s.evidence, paths), a, b) <==> ByEvidence(s, a, b)
  {
    var gs := EvidenceGroups(s.evidence, paths);
    if ByEvidence(s, a, b) {
      var v :| v in s.evidence && InGroup(s, a, EvidencePaths(v), FolderRoots(v)) &&
          InGroup(s, b, EvidencePaths(v), FolderRoots(v));
      var i :| 0 <= i < |s.evidence| && s.evidence[i] == v;
      assert gs[i] in gs;
      WidenedMembers(s, EvidencePaths(v), FolderRoots(v), paths);
    }
    if Adjacent(gs, a, b) {
      var g :| g in gs && a in g && b in g;
      var i :| 0 <= i < |gs| && gs[i] == g;
      WidenedMembers(s, EvidencePaths(s.evidence[i]), FolderRoots(s.evidence[i]), paths);
    }
  }

  lemma ObservationGroupsLink(s: Snapshot, paths: seq<Path>, a: Path, b: Path)
    requires KnownPaths(s, paths)
    ensures Adjacent(ObservationGroups(s.observations, paths), a, b) <==> ByObservation(s, a, b)
  {
    var gs := ObservationGroups(s.observations, paths);
    if ByObservation(s, a, b) {
      var o :| o in s.observations && InGroup(s, a, ObservationPaths(o), AliasRoots(o)) &&
          InGroup(s, b, ObservationPaths(o), AliasRoots(o));
      var i :| 0 <= i < |s.observations| && s.observations[i] == o;
      assert gs[i] in gs;
      WidenedMembers(s, ObservationPaths(o), AliasRoots(o), paths);
    }
    if Adjacent(gs, a, b) {
      var g :| g in gs && a in g && b in g;
      var i :| 0 <= i < |gs| && gs[i] == g;
      WidenedMembers(s, ObservationPaths(s.observations[i]), AliasRoots(s.observations[i]), paths);
    }
  }

  // ---------------------------------------------------------------- building the graph

  /** Connect the next of the groups, after the ones before it. */
  method ConnectNext(graph: PathGraph<Path>, ghost base: seq<seq<Path>>, ghost gs: seq<seq<Path>>, ghost i: nat,
                     group: seq<Path>)
    requires i < |gs| && group == gs[i]
    requires graph.Valid() && graph.groups == base + Kept(gs[..i])
    modifies graph
    ensures graph.Valid() && graph.groups == base + Kept(gs[..i + 1])
  {
    KeptSnoc(gs, i);
    graph.Connect(group);
  }

  method ConnectEntries(graph: PathGraph<Path>, s: Snapshot)
    requires graph.Valid()
    modifies graph
    ensures graph.Valid()
    ensures graph.groups == old(graph.groups) + Kept(EntryGroups(s.entries))
  {
    var gs := EntryGroups(s.entries);
    for i := 0 to |s.entries|
      invariant graph.Valid() && graph.groups == old(graph.groups) + Kept(gs[..i])
    {
      ConnectNext(graph, old(graph.groups), gs, i, EntryPaths(s.entries[i]));
    }
    assert gs[..|gs|] == gs;
  }

  method ConnectEvidence(graph: PathGraph<Path>, s: Snapshot, paths: seq<Path>)
    requires graph.Valid() && Sorted(paths)
    modifies graph
    ensures graph.Valid()
    ensures graph.groups == old(graph.groups) + Kept(EvidenceGroups(s.evidence, paths))
  {
    ghost var gs := EvidenceGroups(s.evidence, paths);
    for i := 0 to |s.evidence|
      invariant graph.Valid() && graph.groups == old(graph.groups) + Kept(gs[..i])
    {
      var item := s.evidence[i];
      var group := WidenGroup(EvidencePaths(item), FolderRoots(item), paths);
      ConnectNext(graph, old(graph.groups), gs, i, group);
    }
    assert gs[..|gs|] == gs;
  }

  method ConnectObservations(graph: PathGraph<Path>, s: Snapshot, paths: seq<Path>)
    requires graph.Valid() && Sorted(paths)
    modifies graph
    ensures graph.Valid()
    ensures graph.groups == old(graph.groups) + Kept(ObservationGroups(s.observations, paths))
  {
    ghost var gs := ObservationGroups(s.observations, paths);
    for i := 0 to |s.observations|
      invariant graph.Valid() && graph.groups == old(graph.groups) + Kept(gs[..i])
    {
      var item := s.observations[i];
      var group := WidenGroup(ObservationPaths(item), AliasRoots(item), paths);
      ConnectNext(graph, old(graph.groups), gs, i, group);
    }
    assert gs[..|gs|] == gs;
  }

  ghost predicate Occurs(entries: seq<Entry>, identity: string, p: Path) {
    exists e | e in entries :: OccursAs(e, identity, p)
  }

  lemma OccursSnoc(entries: seq<Entry>, i: nat, identity: string, p: Path)
    requires i < |entries|
    ensures Occurs(entries[..i + 1], identity, p) <==>
            Occurs(entries[..i], identity, p) || OccursAs(entries[i], identity, p)
  {
  }

  predicate Filed(byIdentity: map<string, seq<Path>>, identity: string, p: Path) {
    identity in byIdentity && p in byIdentity[identity]
  }

  /** The committed and current paths of every provider identity. */
  method IdentityPaths(entries: seq<Entry>) returns (byIdentity: map<string, seq<Path>>)
    ensures forall id, p :: Filed(byIdentity, id, p) <==> Occurs(entries, id, p)
    ensures forall id | id in byIdentity :: byIdentity[id] != []
  {
    byIdentity := map[];
    for i := 0 to |entries|
      invariant forall id, p :: Filed(byIdentity, id, p) <==> Occurs(entries[..i], id, p)
      invariant forall id | id in byIdentity :: byIdentity[id] != []
    {
      var e := entries[i];
      ghost var before := byIdentity;
      byIdentity := PushOccurrence(byIdentity, e.prevSync);
      byIdentity := PushOccurrence(byIdentity, Occurrence(e.remote));
      forall id, p ensures Filed(byIdentity, id, p) <==> Occurs(entries[..i + 1], id, p) {
        OccursSnoc(entries, i, id, p);
        assert Filed(byIdentity, id, p) <==> Filed(before, id, p) || OccursAs(e, id, p);
      }
    }
    assert entries[..|entries|] == entries;
  }

  function PushOccurrence(m: map<string, seq<Path>>, occurrence: Option<Located>): (r: map<string, seq<Path>>)
    ensures forall id, p :: Filed(r, id, p) <==>
              Filed(m, id, p) || (p != "" && id != "" && occurrence == Some(Located(p, Some(id))))
    ensures (forall id | id in m :: m[id] != []) ==> forall id | id in r :: r[id] != []
  {
    if occurrence.None? || occurrence.value.path == "" || occurrence.value.identity.None? ||
       occurrence.value.identity.value == ""
    then m
    else
      var id := occurrence.value.identity.value;
      m[id := (if id in m then m[id] else []) + [occurrence.value.path]]
  }

  ghost predicate SharesIdentity(byIdentity: map<string, seq<Path>>, ids: set<string>, a: Path, b: Path) {
    exists id | id in ids :: Filed(byIdentity, id, a) && Filed(byIdentity, id, b)
  }

  method ConnectIdentities(graph: PathGraph<Path>, entries: seq<Entry>)
    requires graph.Valid()
    modifies graph
    ensures graph.Valid()
    ensures forall a, b ::
              Adjacent(graph.groups, a, b) <==> Adjacent(old(graph.groups), a, b) || ByIdentity(entries, a, b)
  {
    var byIdentity := IdentityPaths(entries);
    var rest := byIdentity.Keys;
    ghost var done: set<string> := {};
    while rest != {}
      invariant graph.Valid() && done !! rest && done + rest == byIdentity.Keys
      invariant IdentitiesLinked(old(graph.groups), graph.groups, byIdentity, done)
    {
      var id :| id in rest;
      OneMoreIdentity(old(graph.groups), graph.groups, byIdentity, done, id);
      graph.Connect(byIdentity[id]);
      Moved(done, rest, id);
      rest, done := rest - {id}, done + {id};
    }
    forall a, b ensures SharesIdentity(byIdentity, done, a, b) <==> ByIdentity(entries, a, b) {
      SharedIdentity(entries, byIdentity, a, b);
    }
  }

  /** Of the identities, those done so far have linked their paths. */
  ghost predicate IdentitiesLinked(base: seq<seq<Path>>, groups: seq<seq<Path>>, byIdentity: map<string, seq<Path>>,
                                   done: set<string>) {
    forall a, b :: Adjacent(groups, a, b) <==> Adjacent(base, a, b) || SharesIdentity(byIdentity, done, a, b)
  }

  lemma OneMoreIdentity(base: seq<seq<Path>>, groups: seq<seq<Path>>, byIdentity: map<string, seq<Path>>,
                        done: set<string>, id: string)
    requires IdentitiesLinked(base, groups, byIdentity, done) && id in byIdentity
    ensures IdentitiesLinked(base, groups + [byIdentity[id]], byIdentity, done + {id})
  {
    forall a, b
      ensures Adjacent(groups + [byIdentity[id]], a, b) <==>
              Adjacent(base, a, b) || SharesIdentity(byIdentity, done + {id}, a, b)
    {
      AdjacentSnoc(groups, byIdentity[id], a, b);
      assert SharesIdentity(byIdentity, done + {id}, a, b) <==>
             SharesIdentity(byIdentity, done, a, b) || (Filed(byIdentity, id, a) && Filed(byIdentity, id, b));
    }
  }

  lemma AdjacentSnoc(groups: seq<seq<Path>>, g: seq<Path>, a: Path, b: Path)
    ensures Adjacent(groups + [g], a, b) <==> Adjacent(groups, a, b) || (a in g && b in g)
  {
  }

  lemma SharedIdentity(entries: seq<Entry>, byIdentity: map<string, seq<Path>>, a: Path, b: Path)
    requires forall id, p :: Filed(byIdentity, id, p) <==> Occurs(entries, id, p)
    ensures SharesIdentity(byIdentity, byIdentity.Keys, a, b) <==> ByIdentity(entries, a, b)
  {
    if ByIdentity(entries, a, b) {
      var id, e, f :| e in entries && f in entries && OccursAs(e, id, a) && OccursAs(f, id, b);
      assert Occurs(entries, id, a) && Occurs(entries, id, b);
      assert Filed(byIdentity, id, a) && Filed(byIdentity, id, b);
    }
    if id :| id in byIdentity && Filed(byIdentity, id, a) && Filed(byIdentity, id, b) {
      assert Occurs(entries, id, a) && Occurs(entries, id, b);
      var e :| e in entries && OccursAs(e, id, a);
      var f :| f in entries && OccursAs(f, id, b);
    }
  }

  /** Everything the batch's own facts link, and nothing else. */
  method ConnectSnapshot(s: Snapshot, paths: seq<Path>) returns (graph: PathGraph<Path>)
    requires KnownPaths(s, paths) && s.coverGroups == []
    ensures fresh(graph) && graph.Valid() && graph.empty == ""
    ensures forall a, b :: Adjacent(graph.groups, a, b) <==> Related(s, a, b)
  {
    graph := new PathGraph("");
    ConnectEntries(graph, s);
    ConnectEvidence(graph, s, paths);
    ConnectObservations(graph, s, paths);
    ghost var listed := graph.groups;
    ConnectIdentities(graph, s.entries);
    forall a, b ensures Adjacent(graph.groups, a, b) <==> Related(s, a, b) {
      ListedLink(s, paths, listed, a, b);
    }
  }

  /** The three lists of groups link what entries, claims and observations relate. */
  lemma ListedLink(s: Snapshot, paths: seq<Path>, groups: seq<seq<Path>>, a: Path, b: Path)
    requires KnownPaths(s, paths)
    requires groups == [] + Kept(EntryGroups(s.entries)) + Kept(EvidenceGroups(s.evidence, paths)) +
                       Kept(ObservationGroups(s.observations, paths))
    ensures Adjacent(groups, a, b) <==> ByEntry(s, a, b) || ByEvidence(s, a, b) || ByObservation(s, a, b)
  {
    var g1 := [] + Kept(EntryGroups(s.entries));
    var g2 := g1 + Kept(EvidenceGroups(s.evidence, paths));
    KeptAdjacent([], EntryGroups(s.entries), a, b);
    EntryGroupsLink(s, a, b);
    KeptAdjacent(g1, EvidenceGroups(s.evidence, paths), a, b);
    EvidenceGroupsLink(s, paths, a, b);
    KeptAdjacent(g2, ObservationGroups(s.observations, paths), a, b);
    ObservationGroupsLink(s, paths, a, b);
  }

  /** The run of the cover loop: its links, the roots before each of them, and its turns, one for each root that file
      aliases had when the loop began. */
  ghost predicate CoverRun(b: Batch, least: seq<Path> -> Path, base: seq<seq<Path>>, links: seq<seq<Path>>,
                           finds: seq<map<Path, Path>>, turns: seq<Turn>)
  {
    && Traced(base, links, finds) && Turned(b, least, links, turns) && AllStart(finds, turns)
    && |turns| == |GroupsOf(b.observations, finds[0])|
    && forall i | 0 <= i < |turns| :: turns[i].group == GroupsOf(b.observations, finds[0])[i]
  }

  /** The facts, and then the covers. */
  method ConnectBatch(b: Batch, least: seq<Path> -> Path, paths: seq<Path>)
    returns (graph: PathGraph<Path>, links: seq<seq<Path>>, wanted: seq<Wanted>, ghost base: seq<seq<Path>>,
             ghost finds: seq<map<Path, Path>>, ghost turns: seq<Turn>)
    requires KnownPaths(WithCovers(b, []), paths)
    ensures fresh(graph) && graph.Valid() && graph.empty == ""
    ensures forall x, y :: Adjacent(base, x, y) <==> Related(WithCovers(b, []), x, y)
    ensures CoverRun(b, least, base, links, finds, turns) && wanted == AllWanted(b, least, turns)
    ensures forall x, y :: Adjacent(graph.groups, x, y) <==> Related(WithCovers(b, links), x, y)
  {
    graph := ConnectSnapshot(WithCovers(b, []), paths);
    base := graph.groups;
    var groups := GroupAliases(graph, b.observations);
    links, wanted, finds, turns := LinkCovers(graph, b, least, groups);
    forall x, y ensures Adjacent(graph.groups, x, y) <==> Related(WithCovers(b, links), x, y) {
      CoversAdd(b, base, links, x, y);
    }
  }

  lemma CoversAdd(b: Batch, base: seq<seq<Path>>, links: seq<seq<Path>>, x: Path, y: Path)
    requires Adjacent(base, x, y) <==> Related(WithCovers(b, []), x, y)
    ensures Adjacent(base + links, x, y) <==> Related(WithCovers(b, links), x, y)
  {
    assert forall g :: g in base + links <==> g in base || g in links;
  }

  lemma CoverLinksNamed(b: Batch, least: seq<Path> -> Path, base: seq<seq<Path>>, links: seq<seq<Path>>,
                        finds: seq<map<Path, Path>>, turns: seq<Turn>)
    requires Picks(least) && NoEmptyPath(b) && CoverRun(b, least, base, links, finds, turns)
    ensures NamedLinks(links)
  {
    forall e | e in b.entries ensures e.path != "" {
      assert e.path in EntryPaths(e);
    }
    forall o | o in b.observations && o.AliasSeen? ensures o.requestedPath != "" && o.resolvedPath != "" {
      assert o.requestedPath in ObservationPaths(o) && o.resolvedPath in ObservationPaths(o);
    }
    AllNamed(b, least, finds[0], links, turns);
  }

  /** No group is led by the empty path, so each one joins. */
  lemma AllGroupsJoin(b: Batch, paths: seq<Path>, links: seq<seq<Path>>, groups: seq<seq<Path>>)
    requires NoEmptyPath(b) && NamedLinks(links) && KnownPaths(WithCovers(b, links), paths)
    requires forall x, y :: Adjacent(groups, x, y) <==> Related(WithCovers(b, links), x, y)
    ensures Joining(groups, "") == groups
  {
    assert !Related(WithCovers(b, links), "", "");
    assert forall g | g in groups && g != [] && g[0] == "" :: Adjacent(groups, "", "");
    JoiningAre(groups, "");
  }

  // ---------------------------------------------------------------- sorting the facts into components

  /** The positions of the keyed facts whose key has root `r`, in order. */
  function Members(keys: seq<Option<Path>>, find: map<Path, Path>, r: Path): seq<nat> {
    if keys == [] then []
    else
      var k := |keys| - 1;
      var before := Members(keys[..k], find, r);
      if keys[k].Some? && RootIn(find, keys[k].value) == r then before + [k] else before
  }

  predicate Ascending(s: seq<nat>) {
    |s| <= 1 || (s[|s| - 2] < s[|s| - 1] && Ascending(s[..|s| - 1]))
  }

  lemma {:induction false} MembersAre(keys: seq<Option<Path>>, find: map<Path, Path>, r: Path)
    ensures forall i :: i in Members(keys, find, r) <==>
              0 <= i < |keys| && keys[i].Some? && RootIn(find, keys[i].value) == r
    ensures Ascending(Members(keys, find, r))
  {
    if keys != [] {
      var k := |keys| - 1;
      var before := Members(keys[..k], find, r);
      MembersAre(keys[..k], find, r);
      assert forall i | i in before :: i < k;
      AscendingSnoc(before, k);
      assert forall i | 0 <= i < k :: keys[..k][i] == keys[i];
    }
  }

  lemma AscendingSnoc(s: seq<nat>, k: nat)
    requires Ascending(s) && forall i | i in s :: i < k
    ensures Ascending(s + [k])
  {
    assert (s + [k])[..|s|] == s;
    assert s != [] ==> s[|s| - 1] in s;
  }

  function ItemsAt(m: map<Path, seq<nat>>, r: Path): seq<nat> {
    if r in m then m[r] else []
  }

  /** Each root's list holds exactly the facts keyed into its class, in order. */
  ghost predicate Distributed(m: map<Path, seq<nat>>, keys: seq<Option<Path>>, find: map<Path, Path>) {
    forall r :: ItemsAt(m, r) == Members(keys, find, r)
  }

  /** Push every keyed fact onto the component of its key's root. */
  method Distribute(graph: PathGraph<Path>, keys: seq<Option<Path>>) returns (m: map<Path, seq<nat>>)
    requires graph.Valid()
    modifies graph`parent
    ensures graph.Valid() && graph.parent.Keys == old(graph.parent.Keys)
    ensures Distributed(m, keys, graph.find)
  {
    m := map[];
    for i := 0 to |keys|
      invariant graph.Valid() && graph.parent.Keys == old(graph.parent.Keys)
      invariant forall r :: ItemsAt(m, r) == Members(keys[..i], graph.find, r)
    {
      assert keys[..i + 1][..i] == keys[..i];
      if keys[i].Some? {
        var root := graph.RootOf(keys[i].value);
        m := m[root := ItemsAt(m, root) + [i]];
      }
    }
    assert keys[..|keys|] == keys;
  }

  /** Each root's list holds exactly the facts recorded for candidates whose anchor has that root. */
  ghost predicate FactsDistributed(m: map<Path, seq<nat>>, wanted: seq<Wanted>, find: map<Path, Path>) {
    forall r :: FactsAt(ItemsAt(m, r), wanted, find, r)
  }

  ghost predicate FactsAt(items: seq<nat>, wanted: seq<Wanted>, find: map<Path, Path>, r: Path) {
    Distinct(items) && forall i: nat :: i in items <==> WantedAt(wanted, find, r, i)
  }

  ghost predicate WantedAt(wanted: seq<Wanted>, find: map<Path, Path>, r: Path, i: nat) {
    exists w | w in wanted :: w.fact == Some(i) && RootIn(find, w.anchor) == r
  }

  lemma WantedSnoc(wanted: seq<Wanted>, w: Wanted, find: map<Path, Path>, r: Path, i: nat)
    ensures WantedAt(wanted + [w], find, r, i) <==>
            WantedAt(wanted, find, r, i) || (w.fact == Some(i) && RootIn(find, w.anchor) == r)
  {
  }

  /** Push every recorded fact onto the component of its anchor, once. */
  method DistributeFacts(graph: PathGraph<Path>, wanted: seq<Wanted>) returns (m: map<Path, seq<nat>>)
    requires graph.Valid()
    modifies graph`parent
    ensures graph.Valid() && graph.parent.Keys == old(graph.parent.Keys)
    ensures FactsDistributed(m, wanted, graph.find)
  {
    m := map[];
    for k := 0 to |wanted|
      invariant graph.Valid() && graph.parent.Keys == old(graph.parent.Keys)
      invariant FactsDistributed(m, wanted[..k], graph.find)
    {
      var w := wanted[k];
      ghost var before := m;
      var root := graph.RootOf(w.anchor);
      if w.fact.Some? && w.fact.value !in ItemsAt(m, root) {
        m := m[root := ItemsAt(m, root) + [w.fact.value]];
      }
      assert wanted[..k + 1] == wanted[..k] + [w];
      OneMoreFact(before, m, wanted[..k], w, graph.find);
    }
    assert wanted[..|wanted|] == wanted;
  }

  lemma OneMoreFact(before: map<Path, seq<nat>>, m: map<Path, seq<nat>>, wanted: seq<Wanted>, w: Wanted,
                    find: map<Path, Path>)
    requires FactsDistributed(before, wanted, find)
    requires var root := RootIn(find, w.anchor);
             m == if w.fact.Some? && w.fact.value !in ItemsAt(before, root)
                  then before[root := ItemsAt(before, root) + [w.fact.value]] else before
    ensures FactsDistributed(m, wanted + [w], find)
  {
    forall r ensures FactsAt(ItemsAt(m, r), wanted + [w], find, r) {
      assert FactsAt(ItemsAt(before, r), wanted, find, r);
      forall i: nat ensures i in ItemsAt(m, r) <==> WantedAt(wanted + [w], find, r, i) {
        WantedSnoc(wanted, w, find, r, i);
      }
    }
  }

  lemma FactsHeld(m: map<Path, seq<nat>>, wanted: seq<Wanted>, find: map<Path, Path>, r: Path)
    requires FactsDistributed(m, wanted, find) && forall w | w in wanted :: w.anchor in find
    ensures HoldsFacts(ItemsAt(m, r), wanted, ClassIn(find, find.Keys, r))
  {
    assert FactsAt(ItemsAt(m, r), wanted, find, r);
    forall i: nat ensures i in ItemsAt(m, r) <==>
        exists w | w in wanted :: w.fact == Some(i) && w.anchor in ClassIn(find, find.Keys, r)
    {
      assert i in ItemsAt(m, r) <==> WantedAt(wanted, find, r, i);
    }
  }

  ghost function ClassIn(find: map<Path, Path>, among: set<Path>, r: Path): set<Path> {
    set p | p in among && RootIn(find, p) == r
  }

  /** Put every known path into the set of its root. */
  method GroupPaths(graph: PathGraph<Path>) returns (grouped: map<Path, set<Path>>)
    requires graph.Valid()
    modifies graph`parent
    ensures graph.Valid() && graph.parent.Keys == old(graph.parent.Keys)
    ensures GroupedSo(graph.find, graph.find.Keys, grouped)
  {
    grouped := map[];
    graph.RootsAreKnown();
    var rest := graph.parent.Keys;
    ghost var find, done: set<Path> := graph.find, {};
    while rest != {}
      invariant graph.Valid() && graph.parent.Keys == old(graph.parent.Keys)
      invariant done !! rest && done + rest == graph.parent.Keys
      invariant GroupedSo(find, done, grouped)
    {
      var path :| path in rest;
      var root := graph.RootOf(path);
      GroupedMore(find, done, grouped, path);
      Moved(done, rest, path);
      grouped := grouped[root := (if root in grouped then grouped[root] else {}) + {path}];
      rest, done := rest - {path}, done + {path};
    }
  }

  lemma Moved(done: set<Path>, rest: set<Path>, path: Path)
    requires done !! rest && path in rest
    ensures (done + {path}) !! (rest - {path}) && (done + {path}) + (rest - {path}) == done + rest
  {
  }

  ghost predicate GroupedSo(find: map<Path, Path>, done: set<Path>, grouped: map<Path, set<Path>>) {
    && grouped.Keys == (set p | p in done :: RootIn(find, p))
    && forall r | r in grouped :: grouped[r] == ClassIn(find, done, r)
  }

  lemma GroupedMore(find: map<Path, Path>, done: set<Path>, grouped: map<Path, set<Path>>, path: Path)
    requires GroupedSo(find, done, grouped) && path !in done
    ensures var root := RootIn(find, path);
            GroupedSo(find, done + {path}, grouped[root := (if root in grouped then grouped[root] else {}) + {path}])
  {
    var root := RootIn(find, path);
    if root !in grouped {
      assert ClassIn(find, done, root) == {};
    }
  }

  function EntryKeys(s: Snapshot): seq<Option<Path>> {
    seq(|s.entries|, i requires 0 <= i < |s.entries| => Some(s.entries[i].path))
  }

  /** A claim belongs where its first path does; a claim without paths belongs nowhere. */
  function EvidenceKeys(s: Snapshot): seq<Option<Path>> {
    seq(|s.evidence|, i requires 0 <= i < |s.evidence| =>
      var paths := EvidencePaths(s.evidence[i]); if paths == [] then None else Some(paths[0]))
  }

  function ObservationKeys(s: Snapshot): seq<Option<Path>> {
    seq(|s.observations|, i requires 0 <= i < |s.observations| => Some(s.observations[i].requestedPath))
  }

  predicate Unresolved(o: Observation) {
    o.Unknown? || o.PresentUnresolved?
  }

  predicate Retained(s: Snapshot, c: Component) {
    c.entries != [] || c.evidence != [] ||
      exists i | i in c.observations :: i < |s.observations| && Unresolved(s.observations[i])
  }

  /** A component is one whole class of related paths, with exactly the facts whose key lies in it. */
  ghost predicate IsComponent(s: Snapshot, wanted: seq<Wanted>, c: Component) {
    && (forall a, b | a in c.paths :: b in c.paths <==> Together(s, a, b))
    && HoldsExactly(c.entries, EntryKeys(s), c.paths)
    && HoldsExactly(c.evidence, EvidenceKeys(s), c.paths)
    && HoldsExactly(c.observations, ObservationKeys(s), c.paths)
    && HoldsFacts(c.candidates, wanted, c.paths)
    && Retained(s, c)
  }

  /** Exactly the facts recorded for candidates whose anchor lies in the component, each once. */
  ghost predicate HoldsFacts(facts: seq<nat>, wanted: seq<Wanted>, paths: set<Path>) {
    && Distinct(facts)
    && forall i: nat :: i in facts <==> exists w | w in wanted :: w.fact == Some(i) && w.anchor in paths
  }

  ghost predicate HoldsExactly(items: seq<nat>, keys: seq<Option<Path>>, paths: set<Path>) {
    && Ascending(items)
    && forall i :: i in items <==> 0 <= i < |keys| && keys[i].Some? && keys[i].value in paths
  }

  /** Every key is a connected path, so the lookup of its component never misses. */
  ghost predicate KeysKnown(keys: seq<Option<Path>>, find: map<Path, Path>) {
    forall i | 0 <= i < |keys| && keys[i].Some? :: keys[i].value in find
  }

  lemma MembersHeld(keys: seq<Option<Path>>, find: map<Path, Path>, r: Path)
    requires KeysKnown(keys, find)
    ensures HoldsExactly(Members(keys, find, r), keys, ClassIn(find, find.Keys, r))
  {
    MembersAre(keys, find, r);
  }

  lemma ClassIsTogether(s: Snapshot, find: map<Path, Path>, groups: seq<seq<Path>>, r: Path, a: Path, b: Path)
    requires Partitions(find, groups) && a in ClassIn(find, find.Keys, r)
    requires forall x, y :: Adjacent(groups, x, y) <==> Related(s, x, y)
    requires forall p | p in find :: find[p] in find
    ensures b in ClassIn(find, find.Keys, r) <==> Together(s, a, b)
  {
    SameRootIsConnected(find, groups, a, b);
    ReachesSame(Linked(groups), RelatedIn(s), a, b);
  }

  /** What the source keeps in one map from root to component. */
  datatype Sorting = Sorting(grouped: map<Path, set<Path>>, entries: map<Path, seq<nat>>, evidence: map<Path, seq<nat>>,
                             observations: map<Path, seq<nat>>, candidates: map<Path, seq<nat>>)

  function ComponentAt(m: Sorting, r: Path): Component
    requires r in m.grouped
  {
    Component(m.grouped[r], ItemsAt(m.entries, r), ItemsAt(m.evidence, r), ItemsAt(m.observations, r),
              ItemsAt(m.candidates, r))
  }

  function Assemble(s: Snapshot, m: Sorting): map<Path, Component> {
    map r | r in m.grouped && Retained(s, ComponentAt(m, r)) :: ComponentAt(m, r)
  }

  ghost predicate IsSorted(s: Snapshot, wanted: seq<Wanted>, find: map<Path, Path>, m: Sorting) {
    && GroupedSo(find, find.Keys, m.grouped)
    && Distributed(m.entries, EntryKeys(s), find)
    && Distributed(m.evidence, EvidenceKeys(s), find)
    && Distributed(m.observations, ObservationKeys(s), find)
    && FactsDistributed(m.candidates, wanted, find)
  }

  ghost predicate HasEntry(components: map<Path, Component>, i: nat) {
    exists r | r in components :: i in components[r].entries
  }

  ghost predicate HasClaim(components: map<Path, Component>, i: nat) {
    exists r | r in components :: i in components[r].evidence
  }

  ghost predicate HasObservation(components: map<Path, Component>, i: nat) {
    exists r | r in components :: i in components[r].observations
  }

  lemma RelatedIsInside(s: Snapshot, wanted: seq<Wanted>, c: Component, a: Path, b: Path)
    requires IsComponent(s, wanted, c) && a in c.paths && Related(s, a, b)
    ensures b in c.paths
  {
    EdgeReaches(RelatedIn(s), a, b);
    assert Together(s, a, b);
  }

  /** A component holds a fact with everything the fact names. */
  lemma FactIsInside(s: Snapshot, wanted: seq<Wanted>, c: Component, i: nat, p: Path)
    requires IsComponent(s, wanted, c)
    ensures i in c.entries ==> i < |s.entries| && (EntryNames(s.entries[i], p) ==> p in c.paths)
    ensures i in c.evidence ==> i < |s.evidence| && (ClaimNames(s, s.evidence[i], p) ==> p in c.paths)
    ensures i in c.observations ==> i < |s.observations| && (ObservationNames(s, s.observations[i], p) ==> p in c.paths)
  {
    if i in c.entries && EntryNames(s.entries[i], p) {
      RelatedExactly(s, s.entries[i].path, p);
      RelatedIsInside(s, wanted, c, s.entries[i].path, p);
    }
    if i in c.evidence && ClaimNames(s, s.evidence[i], p) {
      var key := EvidencePaths(s.evidence[i])[0];
      RelatedExactly(s, key, p);
      RelatedIsInside(s, wanted, c, key, p);
    }
    if i in c.observations && ObservationNames(s, s.observations[i], p) {
      RelatedExactly(s, s.observations[i].requestedPath, p);
      RelatedIsInside(s, wanted, c, s.observations[i].requestedPath, p);
    }
  }

  /** The roots name the classes of related paths. */
  ghost predicate Classes(s: Snapshot, find: map<Path, Path>, groups: seq<seq<Path>>) {
    && Partitions(find, groups) && (forall x, y :: Adjacent(groups, x, y) <==> Related(s, x, y))
    && forall p | p in find :: find[p] in find && find[find[p]] == find[p]
  }

  lemma AssembledAreComponents(s: Snapshot, wanted: seq<Wanted>, find: map<Path, Path>, groups: seq<seq<Path>>,
                               m: Sorting, r: Path)
    requires Classes(s, find, groups) && IsSorted(s, wanted, find, m) && forall w | w in wanted :: w.anchor in find
    requires r in Assemble(s, m)
    ensures var c := Assemble(s, m)[r]; r in c.paths && IsComponent(s, wanted, c)
  {
    var c := Assemble(s, m)[r];
    SnapshotKeysKnown(s, find, groups);
    MembersHeld(EntryKeys(s), find, r);
    MembersHeld(EvidenceKeys(s), find, r);
    MembersHeld(ObservationKeys(s), find, r);
    FactsHeld(m.candidates, wanted, find, r);
    forall a, b | a in c.paths ensures b in c.paths <==> Together(s, a, b) {
      ClassIsTogether(s, find, groups, r, a, b);
    }
  }

  /** The component of a known path holds every fact keyed by that path. */
  lemma KeyIsHeld(keys: seq<Option<Path>>, find: map<Path, Path>, i: nat)
    requires i < |keys| && keys[i].Some? && keys[i].value in find
    ensures i in Members(keys, find, find[keys[i].value])
  {
  }

  lemma EveryFactHeld(s: Snapshot, wanted: seq<Wanted>, find: map<Path, Path>, groups: seq<seq<Path>>, m: Sorting)
    requires Classes(s, find, groups) && IsSorted(s, wanted, find, m)
    ensures var components := Assemble(s, m);
            && (forall i | 0 <= i < |s.entries| :: HasEntry(components, i))
            && (forall i | 0 <= i < |s.evidence| && EvidencePaths(s.evidence[i]) != [] :: HasClaim(components, i))
            && (forall i | 0 <= i < |s.observations| && Unresolved(s.observations[i]) :: HasObservation(components, i))
  {
    var components := Assemble(s, m);
    SnapshotKeysKnown(s, find, groups);
    forall i | 0 <= i < |s.entries| ensures HasEntry(components, i) {
      KeyIsHeld(EntryKeys(s), find, i);
      assert i in components[find[s.entries[i].path]].entries;
    }
    forall i | 0 <= i < |s.evidence| && EvidencePaths(s.evidence[i]) != [] ensures HasClaim(components, i) {
      assert EvidenceKeys(s)[i] == Some(EvidencePaths(s.evidence[i])[0]);
      KeyIsHeld(EvidenceKeys(s), find, i);
      assert i in components[find[EvidencePaths(s.evidence[i])[0]]].evidence;
    }
    forall i | 0 <= i < |s.observations| && Unresolved(s.observations[i]) ensures HasObservation(components, i) {
      KeyIsHeld(ObservationKeys(s), find, i);
      assert i in components[find[s.observations[i].requestedPath]].observations;
    }
  }

  lemma EveryComponentHeld(s: Snapshot, wanted: seq<Wanted>, find: map<Path, Path>, groups: seq<seq<Path>>, m: Sorting)
    requires Classes(s, find, groups) && IsSorted(s, wanted, find, m) && forall w | w in wanted :: w.anchor in find
    ensures var components := Assemble(s, m);
            && (forall r | r in components :: r in components[r].paths && IsComponent(s, wanted, components[r]))
            && (forall r, q | r in components && q in components && r != q ::
                  components[r].paths !! components[q].paths)
  {
    var components := Assemble(s, m);
    forall r | r in components ensures r in components[r].paths && IsComponent(s, wanted, components[r]) {
      AssembledAreComponents(s, wanted, find, groups, m, r);
    }
  }

  /** Sort the paths and the facts by root. */
  method SortFacts(graph: PathGraph<Path>, s: Snapshot, wanted: seq<Wanted>) returns (m: Sorting)
    requires graph.Valid()
    modifies graph`parent
    ensures IsSorted(s, wanted, graph.find, m)
  {
    var grouped := GroupPaths(graph);
    var entries := Distribute(graph, EntryKeys(s));
    var evidence := Distribute(graph, EvidenceKeys(s));
    var observations := Distribute(graph, ObservationKeys(s));
    var candidates := DistributeFacts(graph, wanted);
    m := Sorting(grouped, entries, evidence, observations, candidates);
  }

  /** Components are the classes of paths that the facts and the covers relate; each entry, claim and unresolved
      observation is in exactly one, and each component has the facts of its anchors' candidates. */
  method BuildFactComponents(b: Batch, least: seq<Path> -> Path, paths: seq<Path>)
    returns (components: map<Path, Component>, links: seq<seq<Path>>, wanted: seq<Wanted>, ghost base: seq<seq<Path>>,
             ghost finds: seq<map<Path, Path>>, ghost turns: seq<Turn>)
    requires Picks(least) && NoEmptyPath(b) && KnownPaths(WithCovers(b, []), paths)
    ensures forall x, y :: Adjacent(base, x, y) <==> Related(WithCovers(b, []), x, y)
    ensures CoverRun(b, least, base, links, finds, turns) && wanted == AllWanted(b, least, turns)
    ensures forall r | r in components ::
              r in components[r].paths && IsComponent(WithCovers(b, links), wanted, components[r])
    ensures forall r, q | r in components && q in components && r != q :: components[r].paths !! components[q].paths
    ensures forall i | 0 <= i < |b.entries| :: HasEntry(components, i)
    ensures forall i | 0 <= i < |b.evidence| && EvidencePaths(b.evidence[i]) != [] :: HasClaim(components, i)
    ensures forall i | 0 <= i < |b.observations| && Unresolved(b.observations[i]) :: HasObservation(components, i)
  {
    var graph;
    graph, links, wanted, base, finds, turns := ConnectBatch(b, least, paths);
    ghost var find, groups := graph.find, graph.groups;
    var s := WithCovers(b, links);
    CoverLinksNamed(b, least, base, links, finds, turns);
    AllGroupsJoin(b, paths, links, groups);
    graph.RootsAreKnown();
    assert Classes(s, find, groups);
    WantedAnchorsKnown(b, least, base, links, finds, turns, find, groups);
    var m := SortFacts(graph, s, wanted);
    EveryComponentHeld(s, wanted, find, groups, m);
    EveryFactHeld(s, wanted, find, groups, m);
    components := Assemble(s, m);
  }

  /** Every anchor is an alias's path, so its component exists. */
  lemma WantedAnchorsKnown(b: Batch, least: seq<Path> -> Path, base: seq<seq<Path>>, links: seq<seq<Path>>,
                           finds: seq<map<Path, Path>>, turns: seq<Turn>, find: map<Path, Path>, groups: seq<seq<Path>>)
    requires Picks(least) && CoverRun(b, least, base, links, finds, turns) &&
             Classes(WithCovers(b, links), find, groups)
    ensures forall w | w in AllWanted(b, least, turns) :: w.anchor in find
  {
    forall w | w in AllWanted(b, least, turns) ensures w.anchor in find {
      var t := WantedIn(b, least, turns, w);
      GroupIs(b.observations, finds[0], t.group);
      AliasesNamed(t.group.aliases);
      var a :| a in t.group.aliases && (w.anchor == a.requestedPath || w.anchor == a.resolvedPath);
      AliasKnown(WithCovers(b, links), find, groups, AliasSeen(a.requestedPath, a.resolvedPath, false), w.anchor);
    }
  }

  lemma AliasKnown(s: Snapshot, find: map<Path, Path>, groups: seq<seq<Path>>, o: Observation, p: Path)
    requires Classes(s, find, groups) && o in s.observations && p in ObservationPaths(o)
    ensures p in find
  {
    assert InGroup(s, p, ObservationPaths(o), AliasRoots(o));
    assert ByObservation(s, p, p) && Adjacent(groups, p, p);
    var g :| g in groups && p in g;
    assert OneRoot(find, g);
  }

  /** Every entry, claim and observation brought its key into the graph. */
  lemma SnapshotKeysKnown(s: Snapshot, find: map<Path, Path>, groups: seq<seq<Path>>)
    requires Partitions(find, groups) && forall x, y :: Adjacent(groups, x, y) <==> Related(s, x, y)
    ensures KeysKnown(EntryKeys(s), find) && KeysKnown(EvidenceKeys(s), find) && KeysKnown(ObservationKeys(s), find)
  {
    forall p | Related(s, p, p) ensures p in find {
      assert Adjacent(groups, p, p);
      var g :| g in groups && p in g;
      assert OneRoot(find, g);
    }
    forall i | 0 <= i < |s.entries| ensures s.entries[i].path in find {
      assert s.entries[i].path in EntryPaths(s.entries[i]);
      assert ByEntry(s, s.entries[i].path, s.entries[i].path);
    }
    forall i | 0 <= i < |s.evidence| && EvidencePaths(s.evidence[i]) != []
      ensures EvidencePaths(s.evidence[i])[0] in find
    {
      var p := EvidencePaths(s.evidence[i])[0];
      assert InGroup(s, p, EvidencePaths(s.evidence[i]), FolderRoots(s.evidence[i]));
      assert ByEvidence(s, p, p);
    }
    forall i | 0 <= i < |s.observations| ensures s.observations[i].requestedPath in find {
      var p := s.observations[i].requestedPath;
      assert InGroup(s, p, ObservationPaths(s.observations[i]), AliasRoots(s.observations[i]));
      assert ByObservation(s, p, p);
    }
  }

  /** A turn of the cover loop finds the entries that are connected to its aliases by then, exactly while no earlier
      link has put their class under another root; otherwise it finds none. */
  lemma TurnSeesItsClass(b: Batch, least: seq<Path> -> Path, base: seq<seq<Path>>, links: seq<seq<Path>>,
                         finds: seq<map<Path, Path>>, turns: seq<Turn>, t: Turn, a: Alias, e: Entry)
    requires Picks(least) && NoEmptyPath(b) && CoverRun(b, least, base, links, finds, turns)
    requires t in turns && a in t.group.aliases
    ensures t.start <= |links| && |finds| == |links| + 1
    ensures RootIn(t.find, e.path) == t.group.root <==>
            !Swallowed(finds, links, t.group.root, t.start) &&
            Connected(Joining(base + links[..t.start], ""), e.path, a.requestedPath)
  {
    CoverLinksNamed(b, least, base, links, finds, turns);
    assert StartsAt(finds, t);
    GroupIs(b.observations, finds[0], t.group);
    TurnSees(base, links, finds, t, a, e.path);
  }
}
