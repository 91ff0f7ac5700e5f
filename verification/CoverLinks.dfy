/** The links a proven preservation cover adds to the path graph: the candidate loop of buildFactComponents in
    src/sync/plan-admission-graph.ts. */
module CoverLinks {
  import opened BatchFacts
  import opened ConflictNames
  import opened PathGraphs
  import opened Reachability
  import opened Sequences
  import opened SyncTypes
  import opened Wrappers

  // ---------------------------------------------------------------- the aliases, by the root they had

  datatype Alias = Alias(requestedPath: Path, resolvedPath: Path)

  datatype Group = Group(root: Path, aliases: seq<Alias>)

  /** File one alias under its root, behind the roots already met. */
  function Filed(groups: seq<Group>, root: Path, alias: Alias): seq<Group> {
    if groups == [] then [Group(root, [alias])]
    else if groups[0].root == root then [groups[0].(aliases := groups[0].aliases + [alias])] + groups[1..]
    else [groups[0]] + Filed(groups[1..], root, alias)
  }

  predicate FileAlias(o: Observation) {
    o.AliasSeen? && !o.isDirectory
  }

  function GroupsOf(observations: seq<Observation>, find: map<Path, Path>): seq<Group> {
    if observations == [] then []
    else
      var n := |observations| - 1;
      var before, o := GroupsOf(observations[..n], find), observations[n];
      if FileAlias(o) then Filed(before, RootIn(find, o.requestedPath), Alias(o.requestedPath, o.resolvedPath))
      else before
  }

  method GroupAliases(graph: PathGraph<Path>, observations: seq<Observation>) returns (groups: seq<Group>)
    requires graph.Valid()
    modifies graph`parent
    ensures graph.Valid() && graph.parent.Keys == old(graph.parent.Keys)
    ensures groups == GroupsOf(observations, graph.find)
  {
    groups := [];
    for i := 0 to |observations|
      invariant graph.Valid() && graph.parent.Keys == old(graph.parent.Keys)
      invariant groups == GroupsOf(observations[..i], graph.find)
    {
      assert observations[..i + 1][..i] == observations[..i];
      if FileAlias(observations[i]) {
        var root := graph.RootOf(observations[i].requestedPath);
        groups := Filed(groups, root, Alias(observations[i].requestedPath, observations[i].resolvedPath));
      }
    }
    assert observations[..|observations|] == observations;
  }

  /** The aliases filed under a root. */
  function AliasesIn(groups: seq<Group>, root: Path): seq<Alias> {
    if groups == [] then [] else if groups[0].root == root then groups[0].aliases else AliasesIn(groups[1..], root)
  }

  /** The file aliases whose requested path has the root, in order. */
  function AliasesAt(observations: seq<Observation>, find: map<Path, Path>, root: Path): seq<Alias> {
    if observations == [] then []
    else
      var n := |observations| - 1;
      var before, o := AliasesAt(observations[..n], find, root), observations[n];
      if FileAlias(o) && RootIn(find, o.requestedPath) == root then before + [Alias(o.requestedPath, o.resolvedPath)]
      else before
  }

  ghost predicate Rooted(groups: seq<Group>, root: Path) {
    exists g | g in groups :: g.root == root
  }

  /** No root twice, and no group without an alias. */
  ghost predicate WellGrouped(groups: seq<Group>) {
    groups == [] || (!Rooted(groups[1..], groups[0].root) && groups[0].aliases != [] && WellGrouped(groups[1..]))
  }

  lemma {:induction false} FiledUnder(groups: seq<Group>, root: Path, alias: Alias, r: Path)
    requires WellGrouped(groups)
    ensures WellGrouped(Filed(groups, root, alias))
    ensures Rooted(Filed(groups, root, alias), r) <==> Rooted(groups, r) || r == root
    ensures AliasesIn(Filed(groups, root, alias), r) == AliasesIn(groups, r) + if r == root then [alias] else []
  {
    if groups != [] && groups[0].root != root {
      FiledUnder(groups[1..], root, alias, r);
      FiledUnder(groups[1..], root, alias, groups[0].root);
      assert Filed(groups, root, alias)[1..] == Filed(groups[1..], root, alias);
    }
  }

  /** The groups hold exactly the file aliases, each under the root its requested path has. */
  lemma {:induction false} GroupsAre(observations: seq<Observation>, find: map<Path, Path>, root: Path)
    ensures WellGrouped(GroupsOf(observations, find))
    ensures AliasesIn(GroupsOf(observations, find), root) == AliasesAt(observations, find, root)
  {
    if observations != [] {
      var n := |observations| - 1;
      GroupsAre(observations[..n], find, root);
      var o := observations[n];
      if FileAlias(o) {
        FiledUnder(GroupsOf(observations[..n], find), RootIn(find, o.requestedPath),
                   Alias(o.requestedPath, o.resolvedPath), root);
      }
    }
  }

  lemma {:induction false} GroupFound(groups: seq<Group>, g: Group)
    requires WellGrouped(groups) && g in groups
    ensures AliasesIn(groups, g.root) == g.aliases && g.aliases != []
  {
    if groups[0] != g {
      assert Rooted(groups[1..], g.root);
      GroupFound(groups[1..], g);
    }
  }

  lemma {:induction false} AliasesAtAre(observations: seq<Observation>, find: map<Path, Path>, root: Path, a: Alias)
    ensures a in AliasesAt(observations, find, root) <==>
            RootIn(find, a.requestedPath) == root && AliasSeen(a.requestedPath, a.resolvedPath, false) in observations
  {
    if observations != [] {
      var n := |observations| - 1;
      AliasesAtAre(observations[..n], find, root, a);
      assert observations == observations[..n] + [observations[n]];
    }
  }

  /** A group is all the file aliases of one root, and there is at least one. */
  lemma GroupIs(observations: seq<Observation>, find: map<Path, Path>, g: Group)
    requires g in GroupsOf(observations, find)
    ensures g.aliases != []
    ensures forall a :: a in g.aliases <==>
              RootIn(find, a.requestedPath) == g.root &&
                AliasSeen(a.requestedPath, a.resolvedPath, false) in observations
  {
    GroupsAre(observations, find, g.root);
    GroupFound(GroupsOf(observations, find), g);
    forall a ensures a in g.aliases <==>
        RootIn(find, a.requestedPath) == g.root && AliasSeen(a.requestedPath, a.resolvedPath, false) in observations
    {
      AliasesAtAre(observations, find, g.root, a);
    }
  }

  // ---------------------------------------------------------------- the versions of one group

  datatype Version = Version(hash: string, size: nat, source: Path)

  predicate Has(versions: seq<Version>, hash: string, size: nat) {
    exists i | 0 <= i < |versions| :: versions[i].hash == hash && versions[i].size == size
  }

  /** A later entry with the same content takes the earlier one's place. */
  function Put(versions: seq<Version>, v: Version): seq<Version> {
    if versions == [] then [v]
    else if versions[0].hash == v.hash && versions[0].size == v.size then [v] + versions[1..]
    else [versions[0]] + Put(versions[1..], v)
  }

  predicate Hashed(e: Option<Entity>) {
    e.Some? && !e.value.isDirectory && e.value.hash != ""
  }

  function PutEntity(versions: seq<Version>, e: Option<Entity>, source: Path): seq<Version> {
    if Hashed(e) then Put(versions, Version(e.value.hash, e.value.size, source)) else versions
  }

  /** The contents of the entries whose path has the root now. */
  function EntryVersions(entries: seq<Entry>, find: map<Path, Path>, root: Path): seq<Version> {
    if entries == [] then []
    else
      var n := |entries| - 1;
      var before, e := EntryVersions(entries[..n], find, root), entries[n];
      if RootIn(find, e.path) != root then before else PutEntity(PutEntity(before, e.local, e.path), e.remote, e.path)
  }

  function EntityOf(r: Reading): seq<Entity> {
    if r.Present? then [r.entity] else []
  }

  function PresentAt(c: CandidateFact): seq<Entity> {
    EntityOf(c.local) + EntityOf(c.remote)
  }

  /** Every entity is a resolved file with this content. */
  predicate AllAre(present: seq<Entity>, hash: string, size: nat) {
    forall i | 0 <= i < |present| ::
      !present[i].isDirectory && present[i].resolved && present[i].hash == hash && present[i].size == size
  }

  /** The candidate's own address names the anchor and the digest of what stands there. */
  predicate Obliges(c: CandidateFact, anchor: Path) {
    var hint := DirectConflictCandidateHint(c.requestedPath);
    var present := PresentAt(c);
    hint.Some? && hint.value.basePath == anchor && present != [] && AllAre(present, hint.value.sha256, present[0].size)
  }

  function WithHint(versions: seq<Version>, c: CandidateFact, anchor: Path): seq<Version> {
    if !Obliges(c, anchor) then versions
    else
      var e := PresentAt(c)[0];
      if Has(versions, e.hash, e.size) then versions else versions + [Version(e.hash, e.size, e.path)]
  }

  function WithHints(versions: seq<Version>, facts: seq<CandidateFact>, anchor: Path): seq<Version> {
    if facts == [] then versions
    else WithHint(WithHints(versions, facts[..|facts| - 1], anchor), facts[|facts| - 1], anchor)
  }

  function VersionsOf(b: Batch, find: map<Path, Path>, root: Path, anchor: Path): seq<Version> {
    WithHints(EntryVersions(b.entries, find, root), b.candidateFacts, anchor)
  }

  method CollectVersions(graph: PathGraph<Path>, b: Batch, root: Path, anchor: Path) returns (versions: seq<Version>)
    requires graph.Valid()
    modifies graph`parent
    ensures graph.Valid() && graph.parent.Keys == old(graph.parent.Keys)
    ensures versions == VersionsOf(b, graph.find, root, anchor)
  {
    versions := [];
    for i := 0 to |b.entries|
      invariant graph.Valid() && graph.parent.Keys == old(graph.parent.Keys)
      invariant versions == EntryVersions(b.entries[..i], graph.find, root)
    {
      var entry := b.entries[i];
      assert b.entries[..i + 1][..i] == b.entries[..i];
      var at := graph.RootOf(entry.path);
      if at != root {
        continue;
      }
      versions := PutEntity(PutEntity(versions, entry.local, entry.path), entry.remote, entry.path);
    }
    assert b.entries[..|b.entries|] == b.entries;
    for i := 0 to |b.candidateFacts|
      invariant versions == WithHints(EntryVersions(b.entries, graph.find, root), b.candidateFacts[..i], anchor)
    {
      assert b.candidateFacts[..i + 1][..i] == b.candidateFacts[..i];
      versions := WithHint(versions, b.candidateFacts[i], anchor);
    }
    assert b.candidateFacts[..|b.candidateFacts|] == b.candidateFacts;
  }

  predicate Holds(e: Option<Entity>, hash: string, size: nat) {
    e.Some? && !e.value.isDirectory && e.value.hash != "" && e.value.hash == hash && e.value.size == size
  }

  ghost predicate HeldByEntry(entries: seq<Entry>, find: map<Path, Path>, root: Path, hash: string, size: nat) {
    exists e | e in entries ::
      RootIn(find, e.path) == root && (Holds(e.local, hash, size) || Holds(e.remote, hash, size))
  }

  predicate Hints(c: CandidateFact, anchor: Path, hash: string, size: nat) {
    Obliges(c, anchor) && PresentAt(c)[0].hash == hash && PresentAt(c)[0].size == size
  }

  ghost predicate HeldByHint(facts: seq<CandidateFact>, anchor: Path, hash: string, size: nat) {
    exists c | c in facts :: Hints(c, anchor, hash, size)
  }

  lemma {:induction false} PutHas(versions: seq<Version>, v: Version, hash: string, size: nat)
    ensures Has(Put(versions, v), hash, size) <==> Has(versions, hash, size) || (v.hash == hash && v.size == size)
  {
    if versions == [] {
      assert Put(versions, v)[0] == v;
    } else {
      HasCons(versions, hash, size);
      HasCons(Put(versions, v), hash, size);
      if versions[0].hash != v.hash || versions[0].size != v.size {
        PutHas(versions[1..], v, hash, size);
      }
    }
  }

  lemma HasCons(versions: seq<Version>, hash: string, size: nat)
    requires versions != []
    ensures Has(versions, hash, size) <==>
            (versions[0].hash == hash && versions[0].size == size) || Has(versions[1..], hash, size)
  {
    if i :| 0 < i < |versions| && versions[i].hash == hash && versions[i].size == size {
      assert versions[1..][i - 1] == versions[i];
    }
    if i :| 0 <= i < |versions[1..]| && versions[1..][i].hash == hash && versions[1..][i].size == size {
      assert versions[i + 1] == versions[1..][i];
    }
  }

  lemma HasSnoc(versions: seq<Version>, v: Version, hash: string, size: nat)
    ensures Has(versions + [v], hash, size) <==> Has(versions, hash, size) || (v.hash == hash && v.size == size)
  {
    var more := versions + [v];
    if Has(versions, hash, size) {
      var i :| 0 <= i < |versions| && versions[i].hash == hash && versions[i].size == size;
      assert more[i] == versions[i];
    }
    assert more[|versions|] == v;
  }

  lemma {:induction false} EntryVersionsAre(entries: seq<Entry>, find: map<Path, Path>, root: Path, hash: string,
                                            size: nat)
    ensures Has(EntryVersions(entries, find, root), hash, size) <==> HeldByEntry(entries, find, root, hash, size)
  {
    if entries != [] {
      var n := |entries| - 1;
      var before, e := EntryVersions(entries[..n], find, root), entries[n];
      EntryVersionsAre(entries[..n], find, root, hash, size);
      assert forall x :: x in entries <==> x in entries[..n] || x == e;
      if RootIn(find, e.path) == root {
        if Hashed(e.local) {
          PutHas(before, Version(e.local.value.hash, e.local.value.size, e.path), hash, size);
        }
        if Hashed(e.remote) {
          PutHas(PutEntity(before, e.local, e.path), Version(e.remote.value.hash, e.remote.value.size, e.path), hash,
                 size);
        }
      }
    }
  }

  lemma HintAdds(versions: seq<Version>, c: CandidateFact, anchor: Path, hash: string, size: nat)
    ensures Has(WithHint(versions, c, anchor), hash, size) <==>
            Has(versions, hash, size) || Hints(c, anchor, hash, size)
  {
    if Obliges(c, anchor) {
      var e := PresentAt(c)[0];
      HasSnoc(versions, Version(e.hash, e.size, e.path), hash, size);
    }
  }

  lemma HeldLast(facts: seq<CandidateFact>, anchor: Path, hash: string, size: nat)
    requires facts != []
    ensures var n := |facts| - 1;
            HeldByHint(facts, anchor, hash, size) <==>
            HeldByHint(facts[..n], anchor, hash, size) || Hints(facts[n], anchor, hash, size)
  {
    var n := |facts| - 1;
    assert forall c :: c in facts <==> c in facts[..n] || c == facts[n];
  }

  lemma {:induction false} HintsAdd(versions: seq<Version>, facts: seq<CandidateFact>, anchor: Path, hash: string,
                                    size: nat)
    ensures Has(WithHints(versions, facts, anchor), hash, size) <==>
            Has(versions, hash, size) || HeldByHint(facts, anchor, hash, size)
  {
    if facts != [] {
      var n := |facts| - 1;
      HintsAdd(versions, facts[..n], anchor, hash, size);
      HintAdds(WithHints(versions, facts[..n], anchor), facts[n], anchor, hash, size);
      HeldLast(facts, anchor, hash, size);
    }
  }

  /** A content is a version exactly when an entry of the class holds it or a candidate of the anchor obliges it. */
  lemma VersionsAre(b: Batch, find: map<Path, Path>, root: Path, anchor: Path, hash: string, size: nat)
    ensures Has(VersionsOf(b, find, root, anchor), hash, size) <==>
            HeldByEntry(b.entries, find, root, hash, size) || HeldByHint(b.candidateFacts, anchor, hash, size)
  {
    EntryVersionsAre(b.entries, find, root, hash, size);
    HintsAdd(EntryVersions(b.entries, find, root), b.candidateFacts, anchor, hash, size);
  }

  // ---------------------------------------------------------------- the links of one group

  predicate ProvenAt(r: Reading, candidate: Path) {
    !r.Unproven? && r.requestedPath == candidate
  }

  /** Both sides of the candidate are proven, and every file there is the version. */
  predicate Covers(c: CandidateFact, candidate: Path, hash: string, size: nat) {
    && ProvenAt(c.local, candidate) && ProvenAt(c.remote, candidate) && c.local.side != c.remote.side
    && PresentAt(c) != [] && AllAre(PresentAt(c), hash, size)
  }

  /** The first fact recorded for a candidate. */
  function FactAt(facts: seq<CandidateFact>, candidate: Path, from: nat): (k: Option<nat>)
    requires from <= |facts|
    ensures k.Some? ==> from <= k.value < |facts| && facts[k.value].requestedPath == candidate
    ensures k.Some? ==> forall i | from <= i < k.value :: facts[i].requestedPath != candidate
    ensures k.None? ==> forall i | from <= i < |facts| :: facts[i].requestedPath != candidate
    decreases |facts| - from
  {
    if from == |facts| then None
    else if facts[from].requestedPath == candidate then Some(from)
    else FactAt(facts, candidate, from + 1)
  }

  predicate Covered(facts: seq<CandidateFact>, anchor: Path, hash: string, size: nat) {
    var candidate := InsertConflictSuffix(anchor, hash);
    var k := FactAt(facts, candidate, 0);
    k.Some? && Covers(facts[k.value], candidate, hash, size)
  }

  function PathsOf(present: seq<Entity>): seq<Path> {
    seq(|present|, i requires 0 <= i < |present| => present[i].path)
  }

  /** The anchor, the version's source, its candidate and whatever stands there. */
  function LinkOf(facts: seq<CandidateFact>, anchor: Path, v: Version): seq<Path>
    requires Covered(facts, anchor, v.hash, v.size)
  {
    var candidate := InsertConflictSuffix(anchor, v.hash);
    [anchor, v.source, candidate] + PathsOf(PresentAt(facts[FactAt(facts, candidate, 0).value]))
  }

  function VersionLinks(facts: seq<CandidateFact>, anchor: Path, v: Version): seq<seq<Path>> {
    if Covered(facts, anchor, v.hash, v.size) then [LinkOf(facts, anchor, v)] else []
  }

  function Made(make: Version -> seq<seq<Path>>, versions: seq<Version>): seq<seq<Path>> {
    if versions == [] then []
    else
      var n := |versions| - 1;
      Made(make, versions[..n]) + make(versions[n])
  }

  function LinksOf(facts: seq<CandidateFact>, anchor: Path, versions: seq<Version>): seq<seq<Path>> {
    Made(v => VersionLinks(facts, anchor, v), versions)
  }

  /** A candidate that was looked at, and the fact recorded for it. */
  datatype Wanted = Wanted(anchor: Path, fact: Option<nat>)

  function WantedOf(facts: seq<CandidateFact>, anchor: Path, versions: seq<Version>): seq<Wanted> {
    if versions == [] then []
    else
      var n := |versions| - 1;
      WantedOf(facts, anchor, versions[..n]) +
      [Wanted(anchor, FactAt(facts, InsertConflictSuffix(anchor, versions[n].hash), 0))]
  }

  lemma OneMoreVersion(facts: seq<CandidateFact>, anchor: Path, versions: seq<Version>, i: nat)
    requires i < |versions|
    ensures LinksOf(facts, anchor, versions[..i + 1]) ==
            LinksOf(facts, anchor, versions[..i]) + VersionLinks(facts, anchor, versions[i])
    ensures var fact := FactAt(facts, InsertConflictSuffix(anchor, versions[i].hash), 0);
            WantedOf(facts, anchor, versions[..i + 1]) ==
            WantedOf(facts, anchor, versions[..i]) + [Wanted(anchor, fact)]
  {
    assert versions[..i + 1][..i] == versions[..i];
  }

  lemma {:induction false} MadeFrom(make: Version -> seq<seq<Path>>, versions: seq<Version>, g: seq<Path>)
    ensures g in Made(make, versions) <==> exists v | v in versions :: g in make(v)
  {
    if versions != [] {
      var n := |versions| - 1;
      MadeFrom(make, versions[..n], g);
      assert forall v :: v in versions <==> v in versions[..n] || v == versions[n];
    }
  }

  /** One link for every covered version, and no other. */
  lemma LinksAre(facts: seq<CandidateFact>, anchor: Path, versions: seq<Version>, g: seq<Path>)
    ensures g in LinksOf(facts, anchor, versions) <==> exists v | v in versions :: g in VersionLinks(facts, anchor, v)
  {
    MadeFrom(v => VersionLinks(facts, anchor, v), versions, g);
  }

  // ---------------------------------------------------------------- the loop over the groups

  function AliasPaths(aliases: seq<Alias>): seq<Path> {
    if aliases == [] then []
    else [aliases[0].requestedPath, aliases[0].resolvedPath] + AliasPaths(aliases[1..])
  }

  /** `least` is the smallest path under the UTF-8 order. */
  ghost predicate Picks(least: seq<Path> -> Path) {
    forall paths: seq<Path> | paths != [] :: least(paths) in paths
  }

  function Anchor(least: seq<Path> -> Path, g: Group): Path {
    least(AliasPaths(g.aliases))
  }

  function TurnVersions(b: Batch, least: seq<Path> -> Path, find: map<Path, Path>, g: Group): seq<Version> {
    VersionsOf(b, find, g.root, Anchor(least, g))
  }

  /** What one group's turn links, with the roots its turn starts from. */
  function TurnLinks(b: Batch, least: seq<Path> -> Path, find: map<Path, Path>, g: Group): seq<seq<Path>> {
    LinksOf(b.candidateFacts, Anchor(least, g), TurnVersions(b, least, find, g))
  }

  function TurnWanted(b: Batch, least: seq<Path> -> Path, find: map<Path, Path>, g: Group): seq<Wanted> {
    WantedOf(b.candidateFacts, Anchor(least, g), TurnVersions(b, least, find, g))
  }

  ghost predicate Step(link: seq<Path>, was: map<Path, Path>, now: map<Path, Path>) {
    link != [] && LeaderStays(now, was, link)
  }

  /** The roots before each link and after the last. */
  ghost predicate Traced(base: seq<seq<Path>>, links: seq<seq<Path>>, finds: seq<map<Path, Path>>)
    decreases |links|
  {
    var n := |links|;
    && |finds| == n + 1
    && Partitions(finds[n], Joining(base + links, ""))
    && (links != [] ==> Step(links[n - 1], finds[n - 1], finds[n]) && Traced(base, links[..n - 1], finds[..n]))
  }

  lemma TraceSnoc(base: seq<seq<Path>>, links: seq<seq<Path>>, finds: seq<map<Path, Path>>, link: seq<Path>,
                  now: map<Path, Path>)
    requires Traced(base, links, finds) && Step(link, finds[|links|], now)
    requires Partitions(now, Joining(base + (links + [link]), ""))
    ensures Traced(base, links + [link], finds + [now])
  {
    assert (links + [link])[..|links|] == links && (finds + [now])[..|links| + 1] == finds;
  }

  /** Connect one more link. */
  method ConnectLink(graph: PathGraph<Path>, link: seq<Path>, ghost base: seq<seq<Path>>, ghost links: seq<seq<Path>>,
                     ghost finds: seq<map<Path, Path>>)
    requires graph.Valid() && graph.empty == "" && graph.groups == base + links && link != []
    requires Traced(base, links, finds) && graph.find == finds[|links|]
    modifies graph
    ensures graph.Valid() && graph.groups == base + (links + [link])
    ensures Traced(base, links + [link], finds + [graph.find])
  {
    graph.Connect(link);
    assert base + links + [link] == base + (links + [link]);
    TraceSnoc(base, links, finds, link, graph.find);
  }

  /** The graph has connected the links, one behind the other. */
  ghost predicate Reached(graph: PathGraph<Path>, base: seq<seq<Path>>, links: seq<seq<Path>>,
                          finds: seq<map<Path, Path>>)
    reads graph
  {
    && graph.Valid() && graph.empty == "" && graph.groups == base + links
    && Traced(base, links, finds) && graph.find == finds[|links|]
  }

  lemma Regrouped(a: seq<seq<Path>>, b: seq<seq<Path>>, c: seq<seq<Path>>)
    ensures a + b + c == a + (b + c)
  {
  }

  /** One version's candidate: connected when it is covered. */
  method ConnectVersion(graph: PathGraph<Path>, facts: seq<CandidateFact>, anchor: Path, v: Version,
                        ghost base: seq<seq<Path>>, ghost earlier: seq<seq<Path>>, ghost before: seq<map<Path, Path>>)
    returns (links: seq<seq<Path>>, fact: Option<nat>, ghost finds: seq<map<Path, Path>>)
    requires Reached(graph, base, earlier, before)
    modifies graph
    ensures Reached(graph, base, earlier + links, finds) && before <= finds
    ensures links == VersionLinks(facts, anchor, v) && fact == FactAt(facts, InsertConflictSuffix(anchor, v.hash), 0)
  {
    var candidate := InsertConflictSuffix(anchor, v.hash);
    fact := FactAt(facts, candidate, 0);
    links, finds := [], before;
    assert earlier + [] == earlier;
    if fact.Some? && Covers(facts[fact.value], candidate, v.hash, v.size) {
      links := [[anchor, v.source, candidate] + PathsOf(PresentAt(facts[fact.value]))];
      ConnectLink(graph, links[0], base, earlier, before);
      finds := before + [graph.find];
    }
  }

  /** The inner loop: connect the candidate of every covered version. */
  method ConnectCandidates(graph: PathGraph<Path>, facts: seq<CandidateFact>, anchor: Path, versions: seq<Version>,
                           ghost base: seq<seq<Path>>, ghost earlier: seq<seq<Path>>,
                           ghost before: seq<map<Path, Path>>)
    returns (links: seq<seq<Path>>, wanted: seq<Wanted>, ghost finds: seq<map<Path, Path>>)
    requires Reached(graph, base, earlier, before)
    modifies graph
    ensures Reached(graph, base, earlier + links, finds) && before <= finds
    ensures links == LinksOf(facts, anchor, versions) && wanted == WantedOf(facts, anchor, versions)
  {
    links, wanted, finds := [], [], before;
    ghost var all := earlier;
    for i := 0 to |versions|
      invariant Reached(graph, base, all, finds) && before <= finds && all == earlier + links
      invariant links == LinksOf(facts, anchor, versions[..i]) && wanted == WantedOf(facts, anchor, versions[..i])
    {
      OneMoreVersion(facts, anchor, versions, i);
      var more, fact, stages := ConnectVersion(graph, facts, anchor, versions[i], base, all, finds);
      Regrouped(earlier, links, more);
      all := all + more;
      links, wanted, finds := links + more, wanted + [Wanted(anchor, fact)], stages;
    }
    assert versions[..|versions|] == versions;
  }

  /** One turn of the outer loop: its group, the links before it and the roots it starts from. */
  datatype Turn = Turn(group: Group, start: nat, find: map<Path, Path>)

  ghost predicate StartsAt(finds: seq<map<Path, Path>>, t: Turn) {
    t.start < |finds| && finds[t.start] == t.find
  }

  /** The links are what the turns made of the roots they started from, one turn behind the other. */
  ghost predicate Turned(b: Batch, least: seq<Path> -> Path, links: seq<seq<Path>>, turns: seq<Turn>)
    decreases |turns|
  {
    if turns == [] then links == []
    else
      var n := |turns| - 1;
      var t := turns[n];
      && t.start <= |links| && links[t.start..] == TurnLinks(b, least, t.find, t.group)
      && Turned(b, least, links[..t.start], turns[..n])
  }

  /** The candidates looked at, turn by turn. */
  ghost function AllWanted(b: Batch, least: seq<Path> -> Path, turns: seq<Turn>): seq<Wanted>
    decreases |turns|
  {
    if turns == [] then []
    else
      var n := |turns| - 1;
      AllWanted(b, least, turns[..n]) + TurnWanted(b, least, turns[n].find, turns[n].group)
  }

  lemma TurnSnoc(b: Batch, least: seq<Path> -> Path, links: seq<seq<Path>>, turns: seq<Turn>, t: Turn)
    requires Turned(b, least, links, turns) && t.start == |links|
    ensures Turned(b, least, links + TurnLinks(b, least, t.find, t.group), turns + [t])
    ensures AllWanted(b, least, turns + [t]) == AllWanted(b, least, turns) + TurnWanted(b, least, t.find, t.group)
  {
    var more, made := turns + [t], links + TurnLinks(b, least, t.find, t.group);
    assert more[..|turns|] == turns;
    assert made[..|links|] == links && made[|links|..] == TurnLinks(b, least, t.find, t.group);
  }

  method TakeTurn(graph: PathGraph<Path>, b: Batch, least: seq<Path> -> Path, group: Group,
                  ghost base: seq<seq<Path>>, ghost earlier: seq<seq<Path>>, ghost before: seq<map<Path, Path>>)
    returns (links: seq<seq<Path>>, wanted: seq<Wanted>, ghost finds: seq<map<Path, Path>>)
    requires Reached(graph, base, earlier, before)
    modifies graph
    ensures Reached(graph, base, earlier + links, finds) && before <= finds
    ensures links == TurnLinks(b, least, old(graph.find), group) &&
            wanted == TurnWanted(b, least, old(graph.find), group)
  {
    var anchor := Anchor(least, group);
    var versions := CollectVersions(graph, b, group.root, anchor);
    links, wanted, finds := ConnectCandidates(graph, b.candidateFacts, anchor, versions, base, earlier, before);
  }

  ghost predicate AllStart(finds: seq<map<Path, Path>>, turns: seq<Turn>) {
    forall t | t in turns :: StartsAt(finds, t)
  }

  /** The groups the turns were taken for, in order. */
  ghost function GroupsIn(turns: seq<Turn>): seq<Group> {
    seq(|turns|, i requires 0 <= i < |turns| => turns[i].group)
  }

  /** What the turns for these groups have linked and looked at. */
  ghost predicate TurnsTaken(b: Batch, least: seq<Path> -> Path, groups: seq<Group>, links: seq<seq<Path>>,
                             wanted: seq<Wanted>, finds: seq<map<Path, Path>>, turns: seq<Turn>)
  {
    && Turned(b, least, links, turns) && AllStart(finds, turns) && groups == GroupsIn(turns)
    && wanted == AllWanted(b, least, turns)
  }

  lemma OneMoreTurn(b: Batch, least: seq<Path> -> Path, groups: seq<Group>, links: seq<seq<Path>>, wanted: seq<Wanted>,
                    finds: seq<map<Path, Path>>, turns: seq<Turn>, t: Turn, more: seq<map<Path, Path>>)
    requires TurnsTaken(b, least, groups, links, wanted, finds, turns)
    requires t.start == |links| && StartsAt(finds, t) && finds <= more
    ensures TurnsTaken(b, least, groups + [t.group], links + TurnLinks(b, least, t.find, t.group),
                       wanted + TurnWanted(b, least, t.find, t.group), more, turns + [t])
  {
    TurnSnoc(b, least, links, turns, t);
    assert GroupsIn(turns + [t]) == GroupsIn(turns) + [t.group];
    forall u | u in turns + [t]
      ensures StartsAt(more, u)
    {
      assert u in turns ==> StartsAt(finds, u);
    }
  }

  /** The next group's turn. */
  method TakeNextTurn(graph: PathGraph<Path>, b: Batch, least: seq<Path> -> Path, groups: seq<Group>, i: nat,
                      ghost base: seq<seq<Path>>, links: seq<seq<Path>>, wanted: seq<Wanted>,
                      ghost finds: seq<map<Path, Path>>, ghost turns: seq<Turn>)
    returns (allLinks: seq<seq<Path>>, allWanted: seq<Wanted>, ghost stages: seq<map<Path, Path>>,
             ghost taken: seq<Turn>)
    requires i < |groups|
    requires Reached(graph, base, links, finds) && TurnsTaken(b, least, groups[..i], links, wanted, finds, turns)
    modifies graph
    ensures Reached(graph, base, allLinks, stages) && finds <= stages
    ensures TurnsTaken(b, least, groups[..i + 1], allLinks, allWanted, stages, taken)
  {
    ghost var t := Turn(groups[i], |links|, graph.find);
    var more, asked;
    more, asked, stages := TakeTurn(graph, b, least, groups[i], base, links, finds);
    OneMoreTurn(b, least, groups[..i], links, wanted, finds, turns, t, stages);
    assert groups[..i + 1] == groups[..i] + [groups[i]];
    allLinks, allWanted, taken := links + more, wanted + asked, turns + [t];
  }

  /** The outer loop: one turn for each root that had aliases. */
  method LinkCovers(graph: PathGraph<Path>, b: Batch, least: seq<Path> -> Path, groups: seq<Group>)
    returns (links: seq<seq<Path>>, wanted: seq<Wanted>, ghost finds: seq<map<Path, Path>>, ghost turns: seq<Turn>)
    requires graph.Valid() && graph.empty == ""
    modifies graph
    ensures Reached(graph, old(graph.groups), links, finds) && [old(graph.find)] <= finds
    ensures TurnsTaken(b, least, groups, links, wanted, finds, turns)
  {
    ghost var base, start := graph.groups, [graph.find];
    links, wanted, finds, turns := [], [], start, [];
    assert base + [] == base;
    for i := 0 to |groups|
      invariant Reached(graph, base, links, finds) && start <= finds
      invariant TurnsTaken(b, least, groups[..i], links, wanted, finds, turns)
    {
      links, wanted, finds, turns :=
        TakeNextTurn(graph, b, least, groups, i, base, links, wanted, finds, turns);
    }
    assert groups[..|groups|] == groups;
  }

  // ---------------------------------------------------------------- what a turn sees and links

  /** The link puts the class of `r` under another root. */
  ghost predicate Swallows(find: map<Path, Path>, link: seq<Path>, r: Path) {
    link != [] && RootIn(find, link[0]) != r && Touches(find, link, r)
  }

  /** One of the first `k` links does. */
  ghost predicate Swallowed(finds: seq<map<Path, Path>>, links: seq<seq<Path>>, r: Path, k: nat)
    requires k <= |links| && k < |finds|
  {
    exists j | 0 <= j < k :: Swallows(finds[j], links[j], r)
  }

  lemma RootIdempotent(find: map<Path, Path>, groups: seq<seq<Path>>, p: Path)
    requires Partitions(find, groups)
    ensures RootIn(find, RootIn(find, p)) == RootIn(find, p)
  {
    if p in find {
      assert Connected(groups, p, find[p]);
      SameRootIsConnected(find, groups, p, find[p]);
    }
  }

  lemma LinkHasOneRoot(base: seq<seq<Path>>, link: seq<Path>, now: map<Path, Path>, q: Path)
    requires Partitions(now, Joining(base + [link], "")) && q in link && link[0] != ""
    ensures RootIn(now, q) == RootIn(now, link[0])
  {
    assert link in Joining(base + [link], "");
    assert OneRoot(now, link);
  }

  /** One link takes a root away exactly when it swallows its class. */
  lemma RootStep(base: seq<seq<Path>>, link: seq<Path>, was: map<Path, Path>, now: map<Path, Path>, r: Path)
    requires Step(link, was, now) && link[0] != "" && Partitions(was, Joining(base, ""))
    requires Partitions(now, Joining(base + [link], ""))
    ensures RootIn(now, r) == r <==> RootIn(was, r) == r && !Swallows(was, link, r)
  {
    RootIdempotent(was, Joining(base, ""), link[0]);
    if RootIn(was, r) == r && Swallows(was, link, r) {
      var q :| q in link && RootIn(was, q) == RootIn(was, r);
      LinkHasOneRoot(base, link, now, q);
      assert Joining(base + [link], "") == Joining(base, "") + [link] by { assert (base + [link])[..|base|] == base; }
      SameRootIsConnected(was, Joining(base, ""), q, r);
      MoreGroupsConnectMore(Joining(base, ""), Joining(base, "") + [link], q, r);
      SameRootIsConnected(now, Joining(base, "") + [link], q, r);
    }
  }

  lemma SwallowedSnoc(finds: seq<map<Path, Path>>, links: seq<seq<Path>>, r: Path, j: nat)
    requires j < |links| && j + 1 < |finds|
    ensures Swallowed(finds, links, r, j + 1) <==> Swallowed(finds, links, r, j) || Swallows(finds[j], links[j], r)
  {
  }

  lemma {:induction false} TracedAt(base: seq<seq<Path>>, links: seq<seq<Path>>, finds: seq<map<Path, Path>>, k: nat)
    requires Traced(base, links, finds) && k <= |links|
    ensures Partitions(finds[k], Joining(base + links[..k], ""))
    ensures k < |links| ==> Step(links[k], finds[k], finds[k + 1])
    decreases |links|
  {
    var n := |links|;
    if k == n {
      assert links[..k] == links;
    } else {
      TracedAt(base, links[..n - 1], finds[..n], k);
      assert links[..n - 1][..k] == links[..k];
    }
  }

  /** Every link has a leader, and no empty path. */
  ghost predicate NamedLinks(links: seq<seq<Path>>) {
    forall g | g in links :: g != [] && "" !in g
  }

  /** A class keeps its root for exactly as long as no link has swallowed it. */
  lemma {:induction false} RootKept(base: seq<seq<Path>>, links: seq<seq<Path>>, finds: seq<map<Path, Path>>, r: Path,
                                    k: nat)
    requires Traced(base, links, finds) && k <= |links| && forall g | g in links :: g != [] && g[0] != ""
    ensures RootIn(finds[k], r) == r <==> RootIn(finds[0], r) == r && !Swallowed(finds, links, r, k)
    decreases k
  {
    if k > 0 {
      var j := k - 1;
      RootKept(base, links, finds, r, j);
      TracedAt(base, links, finds, j);
      TracedAt(base, links, finds, k);
      assert base + links[..k] == base + links[..j] + [links[j]];
      RootStep(base + links[..j], links[j], finds[j], finds[k], r);
      SwallowedSnoc(finds, links, r, j);
    }
  }

  lemma {:induction false} JoiningGrows(groups: seq<seq<Path>>, more: seq<seq<Path>>)
    ensures Joining(groups, "") <= Joining(groups + more, "")
    decreases |more|
  {
    if more == [] {
      assert groups + more == groups;
    } else {
      var n := |more| - 1;
      JoiningGrows(groups, more[..n]);
      assert (groups + more)[..|groups| + n] == groups + more[..n];
    }
  }

  /** Paths with one root when the loop begins stay connected. */
  lemma StaysConnected(base: seq<seq<Path>>, links: seq<seq<Path>>, find: map<Path, Path>, p: Path, q: Path)
    requires Partitions(find, Joining(base, "")) && RootIn(find, p) == RootIn(find, q)
    ensures Connected(Joining(base + links, ""), p, q)
  {
    SameRootIsConnected(find, Joining(base, ""), p, q);
    JoiningGrows(base, links);
    MoreGroupsConnectMore(Joining(base, ""), Joining(base + links, ""), p, q);
  }

  /** What a turn sees: nothing of its class once an earlier link has swallowed it, else every entry that is connected
      to one of its aliases by then. */
  lemma TurnSees(base: seq<seq<Path>>, links: seq<seq<Path>>, finds: seq<map<Path, Path>>, t: Turn, a: Alias, p: Path)
    requires Traced(base, links, finds) && StartsAt(finds, t) && NamedLinks(links)
    requires RootIn(finds[0], a.requestedPath) == t.group.root
    ensures RootIn(t.find, p) == t.group.root <==>
            !Swallowed(finds, links, t.group.root, t.start) &&
            Connected(Joining(base + links[..t.start], ""), p, a.requestedPath)
  {
    var r, q := t.group.root, a.requestedPath;
    var groups := Joining(base + links[..t.start], "");
    assert forall g | g in links :: g != [] && g[0] in g;
    TracedAt(base, links, finds, 0);
    TracedAt(base, links, finds, t.start);
    assert base + links[..0] == base;
    RootIdempotent(finds[0], Joining(base, ""), q);
    RootKept(base, links, finds, r, t.start);
    StaysConnected(base, links[..t.start], finds[0], r, q);
    RootIdempotent(t.find, groups, p);
    SameRootIsConnected(t.find, groups, r, q);
    SameRootIsConnected(t.find, groups, p, q);
  }

  /** One of the turn's links carries a version with this content to its candidate. */
  ghost predicate Carries(b: Batch, least: seq<Path> -> Path, find: map<Path, Path>, g: Group, hash: string,
                          size: nat) {
    exists v | v in TurnVersions(b, least, find, g) :: v.hash == hash && v.size == size &&
      Covered(b.candidateFacts, Anchor(least, g), hash, size) &&
        LinkOf(b.candidateFacts, Anchor(least, g), v) in TurnLinks(b, least, find, g)
  }

  /** A content is linked to its candidate exactly when it is a version of the turn and its candidate is proven. */
  lemma TurnLinksExactly(b: Batch, least: seq<Path> -> Path, find: map<Path, Path>, g: Group, hash: string, size: nat)
    ensures Carries(b, least, find, g, hash, size) <==>
            && Covered(b.candidateFacts, Anchor(least, g), hash, size)
            && (HeldByEntry(b.entries, find, g.root, hash, size) ||
                HeldByHint(b.candidateFacts, Anchor(least, g), hash, size))
  {
    var versions, anchor := TurnVersions(b, least, find, g), Anchor(least, g);
    VersionsAre(b, find, g.root, anchor, hash, size);
    if Covered(b.candidateFacts, anchor, hash, size) && Has(versions, hash, size) {
      var i :| 0 <= i < |versions| && versions[i].hash == hash && versions[i].size == size;
      var link := LinkOf(b.candidateFacts, anchor, versions[i]);
      assert link in VersionLinks(b.candidateFacts, anchor, versions[i]);
      LinksAre(b.candidateFacts, anchor, versions, link);
    }
  }

  // ---------------------------------------------------------------- what a link ties

  /** The reading proves one side of the candidate: nothing is there, or a resolved file with this content. */
  predicate Proves(r: Reading, side: Side, candidate: Path, hash: string, size: nat) {
    match r
    case Present(s, q, e) =>
      s == side && q == candidate && !e.isDirectory && e.resolved && e.hash == hash && e.size == size
    case AbsentByStat(s, q) => s == side && q == candidate
    case Unproven(_, _) => false
  }

  /** Whatever the reading found is a resolved file with this content. */
  predicate OnlyHolds(r: Reading, hash: string, size: nat) {
    r.Present? ==> !r.entity.isDirectory && r.entity.resolved && r.entity.hash == hash && r.entity.size == size
  }

  lemma PresentAre(c: CandidateFact, hash: string, size: nat)
    ensures PresentAt(c) != [] <==> c.local.Present? || c.remote.Present?
    ensures AllAre(PresentAt(c), hash, size) <==> OnlyHolds(c.local, hash, size) && OnlyHolds(c.remote, hash, size)
    ensures PresentAt(c) != [] ==> PresentAt(c)[0] == if c.local.Present? then c.local.entity else c.remote.entity
  {
    var present := PresentAt(c);
    assert c.local.Present? ==> present[0] == c.local.entity;
    assert c.remote.Present? ==> present[|present| - 1] == c.remote.entity;
  }

  /** A candidate is covered exactly when both sides are proven, and the content is on one of them. */
  lemma CoversExactly(c: CandidateFact, candidate: Path, hash: string, size: nat)
    ensures Covers(c, candidate, hash, size) <==>
            && (c.local.Present? || c.remote.Present?)
            && exists side :: Proves(c.local, side, candidate, hash, size) &&
                              Proves(c.remote, OtherSide(side), candidate, hash, size)
  {
    PresentAre(c, hash, size);
    if Covers(c, candidate, hash, size) {
      assert Proves(c.local, c.local.side, candidate, hash, size) &&
             Proves(c.remote, OtherSide(c.local.side), candidate, hash, size);
    }
  }

  function OtherSide(side: Side): Side {
    if side.LocalSide? then RemoteSide else LocalSide
  }

  /** A candidate obliges a cover of its content exactly when its address parses to the anchor and that digest, and it
      holds nothing but that content. */
  lemma HintsExactly(c: CandidateFact, anchor: Path, hash: string, size: nat)
    ensures Hints(c, anchor, hash, size) <==>
            && DirectConflictCandidateHint(c.requestedPath) == Some(Hint(anchor, hash))
            && (c.local.Present? || c.remote.Present?) && OnlyHolds(c.local, hash, size) &&
               OnlyHolds(c.remote, hash, size)
  {
    var hint := DirectConflictCandidateHint(c.requestedPath);
    PresentAre(c, hash, size);
    if hint.Some? && PresentAt(c) != [] {
      PresentAre(c, hint.value.sha256, PresentAt(c)[0].size);
    }
  }

  /** The entry belongs to the class and holds the content on one side. */
  predicate HoldsAt(e: Entry, find: map<Path, Path>, root: Path, hash: string, size: nat) {
    RootIn(find, e.path) == root && (Holds(e.local, hash, size) || Holds(e.remote, hash, size))
  }

  /** The version's source is the last entry of the class that holds it. */
  ghost predicate LastHolder(entries: seq<Entry>, find: map<Path, Path>, root: Path, v: Version) {
    exists i | 0 <= i < |entries| ::
      && HoldsAt(entries[i], find, root, v.hash, v.size) && entries[i].path == v.source
      && forall j | i < j < |entries| :: !HoldsAt(entries[j], find, root, v.hash, v.size)
  }

  /** The place holds the content: the last entry of the class that does, or what stands at a candidate that obliges the
      cover. */
  ghost predicate SourceHolds(b: Batch, find: map<Path, Path>, root: Path, anchor: Path, v: Version) {
    || LastHolder(b.entries, find, root, v)
    || (exists c | c in b.candidateFacts :: Hints(c, anchor, v.hash, v.size) && PresentAt(c)[0].path == v.source)
  }

  /** Each content is listed once. */
  ghost predicate OncePerContent(versions: seq<Version>) {
    forall i, j | 0 <= i < j < |versions| ::
      versions[i].hash != versions[j].hash || versions[i].size != versions[j].size
  }

  lemma {:induction false} PutIn(versions: seq<Version>, x: Version)
    requires OncePerContent(versions)
    ensures OncePerContent(Put(versions, x))
    ensures forall v | v in Put(versions, x) ::
              v == x || (v in versions && (v.hash != x.hash || v.size != x.size))
  {
    if versions != [] {
      var rest := versions[1..];
      assert forall i | 0 <= i < |rest| :: rest[i] == versions[i + 1];
      if versions[0].hash != x.hash || versions[0].size != x.size {
        PutIn(rest, x);
        forall i | 0 <= i < |Put(rest, x)|
          ensures Put(rest, x)[i].hash != versions[0].hash || Put(rest, x)[i].size != versions[0].size
        {
          assert Put(rest, x)[i] in Put(rest, x);
        }
      }
    }
  }

  lemma {:induction false} EntrySources(entries: seq<Entry>, find: map<Path, Path>, root: Path)
    ensures OncePerContent(EntryVersions(entries, find, root))
    ensures forall v | v in EntryVersions(entries, find, root) :: LastHolder(entries, find, root, v)
  {
    if entries != [] {
      var n := |entries| - 1;
      var before, e := EntryVersions(entries[..n], find, root), entries[n];
      EntrySources(entries[..n], find, root);
      var with := PutEntity(before, e.local, e.path);
      if RootIn(find, e.path) == root {
        if Hashed(e.local) {
          PutIn(before, Version(e.local.value.hash, e.local.value.size, e.path));
        }
        if Hashed(e.remote) {
          PutIn(with, Version(e.remote.value.hash, e.remote.value.size, e.path));
        }
      }
      forall v | v in EntryVersions(entries, find, root)
        ensures LastHolder(entries, find, root, v)
      {
        if HoldsAt(e, find, root, v.hash, v.size) {
          assert v.source == e.path;
          assert HoldsAt(entries[n], find, root, v.hash, v.size) && entries[n].path == v.source;
        } else {
          HolderStays(entries, find, root, v);
        }
      }
    }
  }

  lemma HolderStays(entries: seq<Entry>, find: map<Path, Path>, root: Path, v: Version)
    requires entries != [] && LastHolder(entries[..|entries| - 1], find, root, v)
    requires !HoldsAt(entries[|entries| - 1], find, root, v.hash, v.size)
    ensures LastHolder(entries, find, root, v)
  {
    var before := entries[..|entries| - 1];
    var i :| && 0 <= i < |before| && HoldsAt(before[i], find, root, v.hash, v.size) && before[i].path == v.source
             && forall j | i < j < |before| :: !HoldsAt(before[j], find, root, v.hash, v.size);
    assert forall j | 0 <= j < |before| :: before[j] == entries[j];
  }

  lemma {:induction false} HintSource(versions: seq<Version>, facts: seq<CandidateFact>, anchor: Path, v: Version)
    requires v in WithHints(versions, facts, anchor)
    ensures v in versions ||
            exists c | c in facts :: Hints(c, anchor, v.hash, v.size) && PresentAt(c)[0].path == v.source
  {
    if facts != [] {
      var n := |facts| - 1;
      if v in WithHints(versions, facts[..n], anchor) {
        HintSource(versions, facts[..n], anchor, v);
      } else {
        assert facts[n] in facts && Hints(facts[n], anchor, v.hash, v.size);
      }
    }
  }

  lemma VersionSource(b: Batch, find: map<Path, Path>, root: Path, anchor: Path, v: Version)
    requires v in VersionsOf(b, find, root, anchor)
    ensures SourceHolds(b, find, root, anchor, v)
  {
    var own := EntryVersions(b.entries, find, root);
    HintSource(own, b.candidateFacts, anchor, v);
    EntrySources(b.entries, find, root);
  }

  lemma LinkHolds(facts: seq<CandidateFact>, anchor: Path, v: Version, k: nat)
    requires Covered(facts, anchor, v.hash, v.size)
    requires FactAt(facts, InsertConflictSuffix(anchor, v.hash), 0) == Some(k)
    ensures var link := LinkOf(facts, anchor, v);
            && anchor in link && v.source in link && InsertConflictSuffix(anchor, v.hash) in link
            && forall e | e in PresentAt(facts[k]) :: e.path in link
  {
    var link, present := LinkOf(facts, anchor, v), PresentAt(facts[k]);
    assert link[0] == anchor && link[1] == v.source && link[2] == InsertConflictSuffix(anchor, v.hash);
    forall e | e in present
      ensures e.path in link
    {
      var j :| 0 <= j < |present| && present[j] == e;
      assert link[3 + j] == PathsOf(present)[j];
    }
  }

  /** A covered content of the class is tied: one link of the turn holds the anchor, the candidate, whatever stands
      there, and a place that holds the content. */
  lemma CoveredIsTied(b: Batch, least: seq<Path> -> Path, find: map<Path, Path>, g: Group, hash: string, size: nat,
                      k: nat) returns (link: seq<Path>, v: Version)
    requires var candidate := InsertConflictSuffix(Anchor(least, g), hash);
             && FactAt(b.candidateFacts, candidate, 0) == Some(k)
             && Covers(b.candidateFacts[k], candidate, hash, size)
    requires HeldByEntry(b.entries, find, g.root, hash, size) ||
             HeldByHint(b.candidateFacts, Anchor(least, g), hash, size)
    ensures link in TurnLinks(b, least, find, g)
    ensures v.hash == hash && v.size == size && SourceHolds(b, find, g.root, Anchor(least, g), v)
    ensures Anchor(least, g) in link && InsertConflictSuffix(Anchor(least, g), hash) in link && v.source in link
    ensures forall e | e in PresentAt(b.candidateFacts[k]) :: e.path in link
  {
    var anchor, versions := Anchor(least, g), TurnVersions(b, least, find, g);
    VersionsAre(b, find, g.root, anchor, hash, size);
    var i :| 0 <= i < |versions| && versions[i].hash == hash && versions[i].size == size;
    v := versions[i];
    VersionSource(b, find, g.root, anchor, v);
    link := LinkOf(b.candidateFacts, anchor, v);
    LinksAre(b.candidateFacts, anchor, versions, link);
    assert link in VersionLinks(b.candidateFacts, anchor, v);
    LinkHolds(b.candidateFacts, anchor, v, k);
  }

  /** The fact is the first recorded for the candidate of one of the versions. */
  ghost predicate FirstFor(facts: seq<CandidateFact>, anchor: Path, versions: seq<Version>, k: nat) {
    && k < |facts|
    && (forall i | 0 <= i < k :: facts[i].requestedPath != facts[k].requestedPath)
    && exists v | v in versions :: facts[k].requestedPath == InsertConflictSuffix(anchor, v.hash)
  }

  lemma FactAtFirst(facts: seq<CandidateFact>, candidate: Path, k: nat)
    ensures FactAt(facts, candidate, 0) == Some(k) <==>
            k < |facts| && facts[k].requestedPath == candidate &&
              forall i | 0 <= i < k :: facts[i].requestedPath != facts[k].requestedPath
  {
  }

  lemma FirstForLast(facts: seq<CandidateFact>, anchor: Path, versions: seq<Version>, k: nat)
    requires versions != []
    ensures var n := |versions| - 1;
            FirstFor(facts, anchor, versions, k) <==>
            || FirstFor(facts, anchor, versions[..n], k)
            || FactAt(facts, InsertConflictSuffix(anchor, versions[n].hash), 0) == Some(k)
  {
    var n := |versions| - 1;
    FactAtFirst(facts, InsertConflictSuffix(anchor, versions[n].hash), k);
    assert forall v :: v in versions <==> v in versions[..n] || v == versions[n];
  }

  /** The facts looked at are exactly the first ones recorded for the versions' candidates. */
  lemma {:induction false} WantedAre(facts: seq<CandidateFact>, anchor: Path, versions: seq<Version>, k: nat)
    ensures Wanted(anchor, Some(k)) in WantedOf(facts, anchor, versions) <==> FirstFor(facts, anchor, versions, k)
  {
    if versions != [] {
      WantedAre(facts, anchor, versions[..|versions| - 1], k);
      FirstForLast(facts, anchor, versions, k);
    }
  }

  lemma {:induction false} WantedOfAnchor(facts: seq<CandidateFact>, anchor: Path, versions: seq<Version>)
    ensures forall w | w in WantedOf(facts, anchor, versions) :: w.anchor == anchor
  {
    if versions != [] {
      WantedOfAnchor(facts, anchor, versions[..|versions| - 1]);
    }
  }

  /** Every candidate looked at belongs to the anchor of one turn. */
  lemma {:induction false} WantedIn(b: Batch, least: seq<Path> -> Path, turns: seq<Turn>, w: Wanted) returns (t: Turn)
    requires Picks(least) && w in AllWanted(b, least, turns)
    ensures t in turns && w.anchor == Anchor(least, t.group)
    decreases |turns|
  {
    var n := |turns| - 1;
    t := turns[n];
    if w in AllWanted(b, least, turns[..n]) {
      t := WantedIn(b, least, turns[..n], w);
    } else {
      WantedOfAnchor(b.candidateFacts, Anchor(least, t.group), TurnVersions(b, least, t.find, t.group));
    }
  }

  // ---------------------------------------------------------------- the paths of a link

  /** Every path a candidate fact names. */
  ghost predicate NamedFacts(facts: seq<CandidateFact>) {
    forall c, e | c in facts && e in PresentAt(c) :: e.path != ""
  }

  ghost predicate NamedVersions(versions: seq<Version>) {
    forall v | v in versions :: v.source != ""
  }

  lemma {:induction false} PutNamed(versions: seq<Version>, v: Version)
    requires NamedVersions(versions) && v.source != ""
    ensures NamedVersions(Put(versions, v))
  {
    if versions != [] && (versions[0].hash != v.hash || versions[0].size != v.size) {
      PutNamed(versions[1..], v);
    }
  }

  lemma {:induction false} EntriesNamed(entries: seq<Entry>, find: map<Path, Path>, root: Path)
    requires forall e | e in entries :: e.path != ""
    ensures NamedVersions(EntryVersions(entries, find, root))
  {
    if entries != [] {
      var n := |entries| - 1;
      var before, e := EntryVersions(entries[..n], find, root), entries[n];
      EntriesNamed(entries[..n], find, root);
      if Hashed(e.local) {
        PutNamed(before, Version(e.local.value.hash, e.local.value.size, e.path));
      }
      if Hashed(e.remote) {
        PutNamed(PutEntity(before, e.local, e.path), Version(e.remote.value.hash, e.remote.value.size, e.path));
      }
    }
  }

  lemma {:induction false} HintsNamed(versions: seq<Version>, facts: seq<CandidateFact>, anchor: Path)
    requires NamedVersions(versions) && NamedFacts(facts)
    ensures NamedVersions(WithHints(versions, facts, anchor))
  {
    if facts != [] {
      var n := |facts| - 1;
      assert forall c | c in facts[..n] :: c in facts;
      HintsNamed(versions, facts[..n], anchor);
      HintNamed(WithHints(versions, facts[..n], anchor), facts[n], anchor);
    }
  }

  lemma HintNamed(versions: seq<Version>, c: CandidateFact, anchor: Path)
    requires NamedVersions(versions) && NamedFacts([c])
    ensures NamedVersions(WithHint(versions, c, anchor))
  {
    if Obliges(c, anchor) {
      assert c in [c] && PresentAt(c)[0] in PresentAt(c);
    }
  }

  lemma {:induction false} AliasesNamed(aliases: seq<Alias>)
    ensures forall p :: p in AliasPaths(aliases) <==> exists a | a in aliases ::
              p == a.requestedPath || p == a.resolvedPath
    ensures aliases != [] ==> AliasPaths(aliases) != []
  {
    if aliases != [] {
      AliasesNamed(aliases[1..]);
      assert forall a :: a in aliases <==> a == aliases[0] || a in aliases[1..];
    }
  }

  /** A turn's links are led by its anchor and name no empty path. */
  lemma TurnNamed(b: Batch, least: seq<Path> -> Path, find: map<Path, Path>, g: Group, link: seq<Path>)
    requires Picks(least) && g.aliases != [] && NamedFacts(b.candidateFacts) &&
             forall e | e in b.entries :: e.path != ""
    requires forall a | a in g.aliases :: a.requestedPath != "" && a.resolvedPath != ""
    requires link in TurnLinks(b, least, find, g)
    ensures link != [] && link[0] == Anchor(least, g) && link[0] in AliasPaths(g.aliases) && "" !in link
  {
    var anchor, versions := Anchor(least, g), TurnVersions(b, least, find, g);
    AliasesNamed(g.aliases);
    LinksAre(b.candidateFacts, anchor, versions, link);
    EntriesNamed(b.entries, find, g.root);
    HintsNamed(EntryVersions(b.entries, find, g.root), b.candidateFacts, anchor);
    var v :| v in versions && link in VersionLinks(b.candidateFacts, anchor, v);
    LinkNamed(b.candidateFacts, anchor, v);
  }

  lemma LinkNamed(facts: seq<CandidateFact>, anchor: Path, v: Version)
    requires Covered(facts, anchor, v.hash, v.size) && anchor != "" && v.source != "" && NamedFacts(facts)
    ensures LinkOf(facts, anchor, v)[0] == anchor && "" !in LinkOf(facts, anchor, v)
  {
    var candidate := InsertConflictSuffix(anchor, v.hash);
    var fact := facts[FactAt(facts, candidate, 0).value];
    assert |candidate| > 0 && fact in facts;
    var paths := PathsOf(PresentAt(fact));
    forall i | 0 <= i < |paths| ensures paths[i] != "" {
      assert PresentAt(fact)[i] in PresentAt(fact);
    }
    assert LinkOf(facts, anchor, v) == [anchor, v.source, candidate] + paths;
  }

  /** The batch names no empty path where a cover link could pick one up. */
  ghost predicate NamedBatch(b: Batch) {
    && (forall e | e in b.entries :: e.path != "")
    && (forall o | o in b.observations && o.AliasSeen? :: o.requestedPath != "" && o.resolvedPath != "")
    && NamedFacts(b.candidateFacts)
  }

  ghost predicate GroupsFrom(b: Batch, find: map<Path, Path>, turns: seq<Turn>) {
    forall t | t in turns :: t.group in GroupsOf(b.observations, find)
  }

  lemma TurnAllNamed(b: Batch, least: seq<Path> -> Path, from: map<Path, Path>, t: Turn)
    requires Picks(least) && NamedBatch(b) && t.group in GroupsOf(b.observations, from)
    ensures NamedLinks(TurnLinks(b, least, t.find, t.group))
  {
    GroupIs(b.observations, from, t.group);
    forall a | a in t.group.aliases ensures a.requestedPath != "" && a.resolvedPath != "" {
      assert AliasSeen(a.requestedPath, a.resolvedPath, false) in b.observations;
    }
    forall g | g in TurnLinks(b, least, t.find, t.group) ensures g != [] && "" !in g {
      TurnNamed(b, least, t.find, t.group, g);
    }
  }

  lemma NamedJoin(links: seq<seq<Path>>, k: nat)
    requires k <= |links| && NamedLinks(links[..k]) && NamedLinks(links[k..])
    ensures NamedLinks(links)
  {
    assert links == links[..k] + links[k..];
  }

  /** No cover link names an empty path. */
  lemma {:induction false} AllNamed(b: Batch, least: seq<Path> -> Path, from: map<Path, Path>, links: seq<seq<Path>>,
                                    turns: seq<Turn>)
    requires Picks(least) && NamedBatch(b) && GroupsFrom(b, from, turns) && Turned(b, least, links, turns)
    ensures NamedLinks(links)
    decreases |turns|
  {
    if turns != [] {
      var n := |turns| - 1;
      assert forall u | u in turns[..n] :: u in turns;
      AllNamed(b, least, from, links[..turns[n].start], turns[..n]);
      TurnAllNamed(b, least, from, turns[n]);
      NamedJoin(links, turns[n].start);
    }
  }
}
