/** The identity-keyed record store: src/sync/state.ts. */
module SyncState {
  import opened Wrappers
  import opened SyncTypes

  /** The observable contents of both object stores. */
  datatype Image = Image(rows: map<string, SyncRecord>, bases: map<string, Bytes>)

  /** One item of a folder relocation. */
  datatype Relocation = Relocation(source: SyncRecord, destination: Option<SyncRecord>, terminal: SyncRecord)

  // ---------------------------------------------------------------- specification

  function RowAt(rows: map<string, SyncRecord>, id: string): Option<SyncRecord> {
    if id in rows then Some(rows[id]) else None
  }

  /** `expected` is exactly what the store holds at `path`. */
  ghost predicate Occupies(rows: map<string, SyncRecord>, path: string, expected: Option<SyncRecord>) {
    match expected
    case Some(r) => r.path == path && RowAt(rows, r.remoteIdentityKey) == Some(r)
    case None => forall id <- rows :: rows[id].path != path
  }

  ghost predicate KeyedByIdentity(rows: map<string, SyncRecord>) {
    forall id <- rows :: rows[id].remoteIdentityKey == id
  }

  ghost predicate UniquePaths(rows: map<string, SyncRecord>) {
    forall a, b | a in rows && b in rows && rows[a].path == rows[b].path :: a == b
  }

  /** Every merge base belongs to a stored row and holds the bytes that row describes. */
  ghost predicate BasesAttached(image: Image, sha256: Bytes -> string) {
    forall id <- image.bases ::
      && id in image.rows
      && image.rows[id].hash != ""
      && sha256(image.bases[id]) == image.rows[id].hash
      && |image.bases[id]| == image.rows[id].localSize
  }

  ghost predicate Consistent(image: Image, sha256: Bytes -> string) {
    KeyedByIdentity(image.rows) && UniquePaths(image.rows) && BasesAttached(image, sha256)
  }

  /** The unique index over `path`, as the browser database derives it from the rows. */
  ghost predicate Indexed(rows: map<string, SyncRecord>, byPath: map<string, string>) {
    && KeyedByIdentity(rows)
    && (forall id <- rows :: rows[id].path in byPath && byPath[rows[id].path] == id)
    && (forall p <- byPath :: byPath[p] in rows && rows[byPath[p]].path == p)
  }

  predicate InvalidatesMergeBase(expected: Option<SyncRecord>, record: SyncRecord) {
    || expected.None?
    || record.hash == ""
    || expected.value.hash != record.hash
    || expected.value.localSize != record.localSize
    || expected.value.remoteIdentityKey != record.remoteIdentityKey
  }

  /** The identities a publication ends: compared rows the terminal does not carry. */
  function Ended(row: Option<SyncRecord>, record: SyncRecord, occupant: Option<SyncRecord>): set<string> {
    (if occupant.Some? then {occupant.value.remoteIdentityKey} else {}) +
    (if row.Some? then {row.value.remoteIdentityKey} else {}) - {record.remoteIdentityKey}
  }

  function EndedBy(compared: Option<SyncRecord>, record: SyncRecord): set<string> {
    if compared.Some? && compared.value.remoteIdentityKey != record.remoteIdentityKey
    then {compared.value.remoteIdentityKey} else {}
  }

  /** Ending the compared rows one at a time. */
  lemma EndedRows<V>(m: map<string, V>, row: Option<SyncRecord>, record: SyncRecord, occupant: Option<SyncRecord>)
    ensures m - EndedBy(occupant, record) - EndedBy(row, record) == m - Ended(row, record, occupant)
  {
    assert Ended(row, record, occupant) == EndedBy(occupant, record) + EndedBy(row, record);
  }

  function Published(image: Image, row: Option<SyncRecord>, record: SyncRecord, occupant: Option<SyncRecord>): Image {
    var ended := Ended(row, record, occupant);
    Image((image.rows - ended)[record.remoteIdentityKey := record],
          image.bases - ended - (if InvalidatesMergeBase(row, record) then {record.remoteIdentityKey} else {}))
  }

  /** Both captured expectations still describe the stored rows. */
  ghost predicate PutMatches(rows: map<string, SyncRecord>, row: Option<SyncRecord>, record: SyncRecord,
                             occupant: Option<SyncRecord>) {
    var carried := row.Some? && row.value.remoteIdentityKey == record.remoteIdentityKey;
    && RowAt(rows, record.remoteIdentityKey) == (if carried then row else None)
    && (row.Some? ==> RowAt(rows, row.value.remoteIdentityKey) == row)
    && Occupies(rows, record.path, occupant)
  }

  ghost predicate DeleteMatches(rows: map<string, SyncRecord>, path: string, expected: Option<SyncRecord>) {
    Occupies(rows, path, expected)
  }

  /** The set is one-to-one, no moved item claims another item's source, and every captured row still stands. */
  predicate AdmissibleShape(items: seq<Relocation>) {
    && (forall i, j | 0 <= i < j < |items| :: items[i].source.path != items[j].source.path)
    && (forall i, j | 0 <= i < j < |items| :: items[i].terminal.path != items[j].terminal.path)
    && (forall i, j | 0 <= i < |items| && 0 <= j < |items| ::
          items[i].source.path != items[i].terminal.path ==> items[i].terminal.path != items[j].source.path)
  }

  ghost predicate RewriteMatches(rows: map<string, SyncRecord>, items: seq<Relocation>) {
    && AdmissibleShape(items)
    && (forall i | 0 <= i < |items| :: RowAt(rows, items[i].source.remoteIdentityKey) == Some(items[i].source))
    && (forall i | 0 <= i < |items| :: Occupies(rows, items[i].terminal.path, items[i].destination))
  }

  /** The read bytes are the ones the captured row describes, and the row still stands. */
  ghost predicate BaseMatches(rows: map<string, SyncRecord>, expected: SyncRecord, bytes: Bytes,
                              sha256: Bytes -> string) {
    && RowAt(rows, expected.remoteIdentityKey) == Some(expected)
    && expected.hash != ""
    && |bytes| == expected.localSize
    && sha256(bytes) == expected.hash
  }

  /** A relocation changes nothing but the address, which is how the committer builds every terminal. */
  predicate MovesPathOnly(items: seq<Relocation>) {
    forall i | 0 <= i < |items| :: items[i].terminal == items[i].source.(path := items[i].terminal.path)
  }

  /** The identities of the rows that items move, and of the rows their arrival displaces. */
  function Movers(items: seq<Relocation>): set<string> {
    set i | 0 <= i < |items| :: items[i].source.remoteIdentityKey
  }

  function Displaced(items: seq<Relocation>): set<string> {
    (set i | 0 <= i < |items| && items[i].destination.Some? :: items[i].destination.value.remoteIdentityKey) -
    Movers(items)
  }

  /** The old rows minus sources and displaced destinations, plus the terminals. */
  ghost predicate IsRelocated(before: Image, items: seq<Relocation>, after: Image) {
    && after.rows.Keys == before.rows.Keys - Displaced(items)
    && (forall id <- after.rows :: id !in Movers(items) ==> after.rows[id] == before.rows[id])
    && (forall i | 0 <= i < |items| ::
          RowAt(after.rows, items[i].source.remoteIdentityKey) == Some(items[i].terminal))
    && (forall id <- after.bases :: id in before.bases && after.bases[id] == before.bases[id])
    && after.bases.Keys == set id | id in before.bases && id !in Displaced(items) &&
                                    (id in Movers(items) ==> before.rows[id].hash != "")
  }

  /** A path has one occupant. */
  lemma OccupantUnique(rows: map<string, SyncRecord>, path: string, a: Option<SyncRecord>, b: Option<SyncRecord>)
    requires UniquePaths(rows)
    requires Occupies(rows, path, a)
    ensures Occupies(rows, path, b) <==> a == b
  {
  }

  /** The three reads of compareAndPut decide whether its expectations hold. */
  lemma PutChecked(rows: map<string, SyncRecord>, row: Option<SyncRecord>, record: SyncRecord,
                   held: Option<SyncRecord>, occupant: Option<SyncRecord>)
    requires UniquePaths(rows) && Occupies(rows, record.path, held)
    ensures var ended := if row.Some? && row.value.remoteIdentityKey != record.remoteIdentityKey then row else None;
            PutMatches(rows, row, record, occupant) <==>
              && RowAt(rows, record.remoteIdentityKey) == (if ended.Some? then None else row)
              && (if ended.Some? then RowAt(rows, ended.value.remoteIdentityKey) else None) == ended
              && held == occupant
  {
    OccupantUnique(rows, record.path, held, occupant);
  }

  /** Nothing a publication ends or overwrites was other than captured. What it leaves: its row, no row it compared
      under another identity, every other row; and of the merge bases those of the rows that stay, its own only when it
      carries on a row of the same digest and size. */
  lemma PublicationExactly(image: Image, row: Option<SyncRecord>, record: SyncRecord, occupant: Option<SyncRecord>,
                           id: string)
    requires PutMatches(image.rows, row, record, occupant)
    ensures var after, own := Published(image, row, record, occupant), record.remoteIdentityKey;
            var compared := (row.Some? && row.value.remoteIdentityKey == id) ||
                            (occupant.Some? && occupant.value.remoteIdentityKey == id);
            && RowAt(after.rows, id) ==
               (if id == own then Some(record) else if compared then None else RowAt(image.rows, id))
            && (id in after.bases <==>
                  && id in image.bases
                  && (if id == own then row.Some? && row.value.remoteIdentityKey == own && record.hash != "" &&
                                        row.value.hash == record.hash && row.value.localSize == record.localSize
                      else !compared))
            && (id in after.bases ==> after.bases[id] == image.bases[id])
    ensures var was, now := RowAt(image.rows, id), RowAt(Published(image, row, record, occupant).rows, id);
            was.Some? && was != now ==> was == row || was == occupant
  {
  }

  // ---------------------------------------------------------------- one step of a relocation

  lemma MoversSnoc(items: seq<Relocation>, i: nat)
    requires i < |items|
    ensures Movers(items[..i + 1]) == Movers(items[..i]) + {items[i].source.remoteIdentityKey}
  {
    var all := items[..i + 1];
    assert forall k | 0 <= k < i :: items[..i][k] == all[k];
    assert all[i] == items[i];
    forall id | id in Movers(items[..i]) ensures id in Movers(all) {
      var k :| 0 <= k < i && items[..i][k].source.remoteIdentityKey == id;
      assert all[k].source.remoteIdentityKey == id;
    }
  }

  /** The identity of a destination row names at most its own item's source. */
  lemma DestinationsOwn(rows: map<string, SyncRecord>, items: seq<Relocation>)
    requires KeyedByIdentity(rows) && UniquePaths(rows) && RewriteMatches(rows, items)
    ensures forall k, m | 0 <= k < |items| && 0 <= m < |items| && items[k].destination.Some? &&
              items[k].destination.value.remoteIdentityKey == items[m].source.remoteIdentityKey :: k == m
  {
    forall k, m | 0 <= k < |items| && 0 <= m < |items| && items[k].destination.Some? &&
      items[k].destination.value.remoteIdentityKey == items[m].source.remoteIdentityKey ensures k == m
    {
    }
  }

  ghost predicate IsMover(items: seq<Relocation>, n: nat, id: string)
    requires n <= |items|
  {
    exists k | 0 <= k < n :: items[k].source.remoteIdentityKey == id
  }

  ghost predicate IsDestination(items: seq<Relocation>, n: nat, id: string)
    requires n <= |items|
  {
    exists k | 0 <= k < n :: items[k].destination.Some? && items[k].destination.value.remoteIdentityKey == id
  }

  lemma PrefixSets(items: seq<Relocation>, n: nat, id: string)
    requires n <= |items|
    ensures id in Movers(items[..n]) <==> IsMover(items, n, id)
    ensures id in Displaced(items[..n]) <==> IsDestination(items, n, id) && !IsMover(items, n, id)
  {
    var part := items[..n];
    assert forall k | 0 <= k < n :: part[k] == items[k];
    if k :| 0 <= k < n && items[k].source.remoteIdentityKey == id {
      assert part[k].source.remoteIdentityKey == id;
    }
    if k :| 0 <= k < n && items[k].destination.Some? && items[k].destination.value.remoteIdentityKey == id {
      assert part[k].destination.Some? && part[k].destination.value.remoteIdentityKey == id;
    }
  }

  lemma DisplacedSnoc(rows: map<string, SyncRecord>, items: seq<Relocation>, i: nat)
    requires KeyedByIdentity(rows) && UniquePaths(rows) && RewriteMatches(rows, items)
    requires i < |items|
    ensures Displaced(items[..i + 1]) == Displaced(items[..i]) +
            Ended(Some(items[i].source), items[i].source, items[i].destination)
    ensures items[i].source.remoteIdentityKey !in Displaced(items[..i])
  {
    DestinationsOwn(rows, items);
    var s := items[i].source.remoteIdentityKey;
    PrefixSets(items, i, s);
    forall id ensures id in Displaced(items[..i + 1]) <==>
                        id in Displaced(items[..i]) +
                          Ended(Some(items[i].source), items[i].source, items[i].destination)
    {
      PrefixSets(items, i, id);
      PrefixSets(items, i + 1, id);
      assert IsMover(items, i + 1, id) <==> IsMover(items, i, id) || id == s;
      assert IsDestination(items, i + 1, id) <==>
             (IsDestination(items, i, id) ||
              (items[i].destination.Some? && items[i].destination.value.remoteIdentityKey == id));
    }
  }

  /** When an item's turn comes, only the row it ends can still stand at its terminal address. */
  lemma DestinationVacated(before: Image, items: seq<Relocation>, i: nat, image: Image)
    requires KeyedByIdentity(before.rows) && UniquePaths(before.rows)
    requires RewriteMatches(before.rows, items) && MovesPathOnly(items)
    requires i < |items| && IsRelocated(before, items[..i], image)
    ensures forall id <- image.rows :: image.rows[id].path == items[i].terminal.path ==>
              || id == items[i].terminal.remoteIdentityKey
              || id in Ended(Some(items[i].source), items[i].terminal, items[i].destination)
  {
    forall id <- image.rows | image.rows[id].path == items[i].terminal.path
      ensures id == items[i].terminal.remoteIdentityKey ||
              id in Ended(Some(items[i].source), items[i].terminal, items[i].destination)
    {
      if id in Movers(items[..i]) {
        MovedRowIsTerminal(before, items, i, image, id);
      } else {
        assert image.rows[id] == before.rows[id];
        assert Occupies(before.rows, items[i].terminal.path, items[i].destination);
      }
    }
  }

  /** A row already moved stands at its own terminal address, which no later item claims. */
  lemma MovedRowIsTerminal(before: Image, items: seq<Relocation>, i: nat, image: Image, id: string)
    requires RewriteMatches(before.rows, items)
    requires i < |items| && IsRelocated(before, items[..i], image)
    requires id in Movers(items[..i])
    ensures id in image.rows && image.rows[id].path != items[i].terminal.path
    ensures id != items[i].source.remoteIdentityKey
    ensures id in before.rows
  {
  }

  lemma FirstItems(items: seq<Relocation>, n: nat)
    requires n <= |items|
    ensures forall k | 0 <= k < n :: items[..n][k] == items[k]
  {
  }

  lemma OneMoreRelocated(before: Image, items: seq<Relocation>, i: nat, image: Image, after: Image)
    requires KeyedByIdentity(before.rows) && UniquePaths(before.rows)
    requires RewriteMatches(before.rows, items) && MovesPathOnly(items)
    requires i < |items| && IsRelocated(before, items[..i], image)
    requires after == Published(image, Some(items[i].source), items[i].terminal, items[i].destination)
    ensures IsRelocated(before, items[..i + 1], after)
  {
    MoversSnoc(items, i);
    DisplacedSnoc(before.rows, items, i);
    OneMoreTerminal(before, items, i, image, after);
    assert RowAt(before.rows, items[i].source.remoteIdentityKey) == Some(items[i].source);
    OneMoreRows(before, items, i, image, after);
    OneMoreBases(before, items, i, image, after);
    FirstItems(items, i + 1);
  }

  lemma OneMoreRows(before: Image, items: seq<Relocation>, i: nat, image: Image, after: Image)
    requires i < |items| && IsRelocated(before, items[..i], image) && MovesPathOnly(items)
    requires RowAt(before.rows, items[i].source.remoteIdentityKey) == Some(items[i].source)
    requires Movers(items[..i + 1]) == Movers(items[..i]) + {items[i].source.remoteIdentityKey}
    requires Displaced(items[..i + 1]) ==
             Displaced(items[..i]) + Ended(Some(items[i].source), items[i].source, items[i].destination)
    requires items[i].source.remoteIdentityKey !in Displaced(items[..i])
    requires after == Published(image, Some(items[i].source), items[i].terminal, items[i].destination)
    ensures after.rows.Keys == before.rows.Keys - Displaced(items[..i + 1])
    ensures forall id <- after.rows :: id !in Movers(items[..i + 1]) ==> after.rows[id] == before.rows[id]
  {
  }

  /** The moved row's base stays exactly when the row names a hash; a displaced row's base goes. */
  lemma OneMoreBases(before: Image, items: seq<Relocation>, i: nat, image: Image, after: Image)
    requires i < |items| && IsRelocated(before, items[..i], image) && MovesPathOnly(items)
    requires RowAt(before.rows, items[i].source.remoteIdentityKey) == Some(items[i].source)
    requires Movers(items[..i + 1]) == Movers(items[..i]) + {items[i].source.remoteIdentityKey}
    requires Displaced(items[..i + 1]) ==
             Displaced(items[..i]) + Ended(Some(items[i].source), items[i].source, items[i].destination)
    requires after == Published(image, Some(items[i].source), items[i].terminal, items[i].destination)
    ensures forall id <- after.bases :: id in before.bases && after.bases[id] == before.bases[id]
    ensures after.bases.Keys == set id | id in before.bases && id !in Displaced(items[..i + 1]) &&
                                         (id in Movers(items[..i + 1]) ==> before.rows[id].hash != "")
  {
  }

  lemma OneMoreTerminal(before: Image, items: seq<Relocation>, i: nat, image: Image, after: Image)
    requires KeyedByIdentity(before.rows) && UniquePaths(before.rows)
    requires RewriteMatches(before.rows, items) && MovesPathOnly(items)
    requires i < |items| && IsRelocated(before, items[..i], image)
    requires after == Published(image, Some(items[i].source), items[i].terminal, items[i].destination)
    ensures forall k | 0 <= k < i + 1 ::
              RowAt(after.rows, items[k].source.remoteIdentityKey) == Some(items[k].terminal)
  {
    forall k | 0 <= k < i
      ensures RowAt(after.rows, items[k].source.remoteIdentityKey) == Some(items[k].terminal)
    {
      assert items[..i][k] == items[k];
      assert RowAt(image.rows, items[..i][k].source.remoteIdentityKey) == Some(items[k].terminal);
      assert items[k].source.remoteIdentityKey in Movers(items[..i]);
      MovedRowIsTerminal(before, items, i, image, items[k].source.remoteIdentityKey);
      if items[i].destination.Some? &&
         items[i].destination.value.remoteIdentityKey == items[k].source.remoteIdentityKey {
      }
    }
  }

  /** A completed relocation keeps every surviving merge base with the row it describes. */
  lemma RelocatedBases(before: Image, items: seq<Relocation>, after: Image, sha256: Bytes -> string)
    requires BasesAttached(before, sha256) && MovesPathOnly(items) && RewriteMatches(before.rows, items)
    requires IsRelocated(before, items, after)
    ensures BasesAttached(after, sha256)
  {
    forall id <- after.bases
      ensures id in after.rows && after.rows[id].hash == before.rows[id].hash &&
              after.rows[id].localSize == before.rows[id].localSize
    {
      assert id in before.bases && id in before.rows && id in after.rows;
      if id in Movers(items) {
        var k :| 0 <= k < |items| && items[k].source.remoteIdentityKey == id;
        assert RowAt(after.rows, id) == Some(items[k].terminal);
      }
    }
  }

  /** No intermediate image of a relocation has two rows at one path. */
  lemma RelocationKeepsPathsUnique(before: Image, items: seq<Relocation>, i: nat, image: Image)
    requires KeyedByIdentity(before.rows) && UniquePaths(before.rows)
    requires RewriteMatches(before.rows, items) && MovesPathOnly(items)
    requires i <= |items| && IsRelocated(before, items[..i], image)
    ensures KeyedByIdentity(image.rows) && UniquePaths(image.rows)
    decreases i
  {
    forall a, b | a in image.rows && b in image.rows && image.rows[a].path == image.rows[b].path
      ensures a == b
    {
      StandsAt(before, items, i, image, a);
      StandsAt(before, items, i, image, b);
    }
    forall id <- image.rows ensures image.rows[id].remoteIdentityKey == id {
      StandsAt(before, items, i, image, id);
    }
  }

  /** Where one row of an intermediate image stands, and why no other row can stand there. */
  lemma StandsAt(before: Image, items: seq<Relocation>, i: nat, image: Image, id: string)
    requires KeyedByIdentity(before.rows) && UniquePaths(before.rows)
    requires RewriteMatches(before.rows, items) && MovesPathOnly(items)
    requires i <= |items| && IsRelocated(before, items[..i], image) && id in image.rows
    ensures image.rows[id].remoteIdentityKey == id
    ensures id in Movers(items[..i]) ==>
              exists k :: 0 <= k < i && items[k].source.remoteIdentityKey == id && image.rows[id] == items[k].terminal
    ensures id !in Movers(items[..i]) ==>
              && id in before.rows
              && image.rows[id] == before.rows[id]
              && forall k | 0 <= k < i :: items[k].terminal.path != image.rows[id].path
  {
    if id in Movers(items[..i]) {
      var k :| 0 <= k < i && items[..i][k].source.remoteIdentityKey == id;
      assert items[..i][k] == items[k] &&
             RowAt(image.rows, items[..i][k].source.remoteIdentityKey) == Some(items[k].terminal);
    } else {
      forall k | 0 <= k < i ensures items[k].terminal.path != before.rows[id].path {
        assert items[..i][k] == items[k];
        assert Occupies(before.rows, items[k].terminal.path, items[k].destination);
        if items[k].destination.Some? {
          assert items[..i][k].destination.value.remoteIdentityKey in Displaced(items[..i]) + Movers(items[..i]);
        }
      }
    }
  }

  // ---------------------------------------------------------------- interleavings

  /** One atomic call of a compare-and-swap route. */
  datatype Call =
    | PutCall(row: Option<SyncRecord>, record: SyncRecord, occupant: Option<SyncRecord>)
    | DeleteCall(path: string, expected: Option<SyncRecord>)
    | RewriteCall(items: seq<Relocation>)
    | BaseCall(terminal: SyncRecord, bytes: Bytes)

  /** The comparison a call makes. */
  ghost predicate Passes(image: Image, call: Call, sha256: Bytes -> string) {
    match call
    case PutCall(row, record, occupant) => PutMatches(image.rows, row, record, occupant)
    case DeleteCall(path, expected) => DeleteMatches(image.rows, path, expected)
    case RewriteCall(items) => MovesPathOnly(items) && RewriteMatches(image.rows, items)
    case BaseCall(terminal, bytes) => BaseMatches(image.rows, terminal, bytes, sha256)
  }

  /** What a call whose comparison passed leaves behind. */
  ghost predicate Effect(before: Image, call: Call, after: Image) {
    match call
    case PutCall(row, record, occupant) => after == Published(before, row, record, occupant)
    case DeleteCall(_, None) => after == before
    case DeleteCall(_, Some(r)) =>
      after == Image(before.rows - {r.remoteIdentityKey}, before.bases - {r.remoteIdentityKey})
    case RewriteCall(items) => IsRelocated(before, items, after)
    case BaseCall(terminal, bytes) => after == before.(bases := before.bases[terminal.remoteIdentityKey := bytes])
  }

  ghost predicate Step(before: Image, call: Call, sha256: Bytes -> string, after: Image) {
    if Passes(before, call, sha256) then Effect(before, call, after) else after == before
  }

  /** One atomic call keeps identities, path uniqueness and merge-base attachment. */
  lemma StepKeepsConsistent(before: Image, call: Call, sha256: Bytes -> string, after: Image)
    requires Consistent(before, sha256) && Step(before, call, sha256, after)
    ensures Consistent(after, sha256)
  {
    if Passes(before, call, sha256) && call.RewriteCall? {
      assert call.items[..|call.items|] == call.items;
      RelocationKeepsPathsUnique(before, call.items, |call.items|, after);
      RelocatedBases(before, call.items, after, sha256);
    }
  }

  /** `trace` is a run of interleaved calls from any number of callers. */
  ghost predicate IsRun(trace: seq<Image>, calls: seq<Call>, sha256: Bytes -> string) {
    && |trace| == |calls| + 1
    && forall i | 0 <= i < |calls| :: Step(trace[i], calls[i], sha256, trace[i + 1])
  }

  /** Every image of every interleaving is consistent. */
  lemma {:induction false} RunKeepsConsistent(trace: seq<Image>, calls: seq<Call>, sha256: Bytes -> string, n: nat)
    requires IsRun(trace, calls, sha256) && Consistent(trace[0], sha256) && n <= |calls|
    ensures Consistent(trace[n], sha256)
  {
    if n > 0 {
      RunKeepsConsistent(trace, calls, sha256, n - 1);
      StepKeepsConsistent(trace[n - 1], calls[n - 1], sha256, trace[n]);
    }
  }

  // ---------------------------------------------------------------- the store

  class SyncStateStore {
    const sha256: Bytes -> string
    var rows: map<string, SyncRecord>
    var byPath: map<string, string>
    var content: map<string, Bytes>

    ghost predicate Valid()
      reads this
    {
      Indexed(rows, byPath) && BasesAttached(Contents(), sha256)
    }

    ghost function Contents(): Image
      reads this
    {
      Image(rows, content)
    }

    constructor (sha256: Bytes -> string)
      ensures Valid() && Contents() == Image(map[], map[]) && this.sha256 == sha256
    {
      this.sha256 := sha256;
      rows, byPath, content := map[], map[], map[];
    }

    /** Read through the unique path index. */
    method Get(path: string) returns (r: Option<SyncRecord>)
      requires Indexed(rows, byPath)
      ensures Occupies(rows, path, r)
    {
      r := if path in byPath then Some(rows[byPath[path]]) else None;
    }

    /** The object-store put: the unique index aborts it when another identity holds the address. */
    method Put(record: SyncRecord) returns (aborted: bool)
      requires Indexed(rows, byPath)
      modifies this`rows, this`byPath
      ensures aborted <==> exists id <- old(rows) :: old(rows)[id].path == record.path && id != record.remoteIdentityKey
      ensures rows == if aborted then old(rows) else old(rows)[record.remoteIdentityKey := record]
      ensures Indexed(rows, byPath)
    {
      var id := record.remoteIdentityKey;
      if record.path in byPath && byPath[record.path] != id {
        return true;
      }
      if id in rows {
        byPath := byPath - {rows[id].path};
      }
      rows, byPath := rows[id := record], byPath[record.path := id];
      return false;
    }

    /** Delete one identity from both object stores. */
    method Delete(id: string)
      requires Indexed(rows, byPath)
      modifies this
      ensures Contents() == Image(old(rows) - {id}, old(content) - {id})
      ensures Indexed(rows, byPath)
    {
      if id in rows {
        byPath := byPath - {rows[id].path};
      }
      rows, content := rows - {id}, content - {id};
    }

    /** publishRecord: end the compared rows the terminal does not carry, then put it. */
    method PublishRecord(row: Option<SyncRecord>, record: SyncRecord, occupant: Option<SyncRecord>)
      requires Indexed(rows, byPath)
      requires forall id <- rows :: rows[id].path == record.path ==>
                 id == record.remoteIdentityKey || id in Ended(row, record, occupant)
      modifies this
      ensures Contents() == Published(old(Contents()), row, record, occupant)
      ensures Indexed(rows, byPath)
    {
      EndRows(row, record, occupant);
      var aborted := Put(record);
      assert !aborted;
      if InvalidatesMergeBase(row, record) {
        content := content - {record.remoteIdentityKey};
      }
    }

    method EndRows(row: Option<SyncRecord>, record: SyncRecord, occupant: Option<SyncRecord>)
      requires Indexed(rows, byPath)
      modifies this
      ensures rows == old(rows) - Ended(row, record, occupant)
      ensures content == old(content) - Ended(row, record, occupant)
      ensures Indexed(rows, byPath)
    {
      ghost var before := Contents();
      EndedRows(rows, row, record, occupant);
      EndedRows(content, row, record, occupant);
      if occupant.Some? && occupant.value.remoteIdentityKey != record.remoteIdentityKey {
        Delete(occupant.value.remoteIdentityKey);
      }
      ghost var held := EndedBy(occupant, record);
      assert Contents() == Image(before.rows - held, before.bases - held);
      if row.Some? && row.value.remoteIdentityKey != record.remoteIdentityKey {
        Delete(row.value.remoteIdentityKey);
      }
    }

    method CompareAndPut(row: Option<SyncRecord>, record: SyncRecord, occupant: Option<SyncRecord>)
      returns (replaced: bool)
      requires Valid()
      modifies this
      ensures Valid()
      ensures replaced <==> PutMatches(old(rows), row, record, occupant)
      ensures Contents() == if replaced then Published(old(Contents()), row, record, occupant) else old(Contents())
      ensures Step(old(Contents()), PutCall(row, record, occupant), sha256, Contents())
    {
      var ended := if row.Some? && row.value.remoteIdentityKey != record.remoteIdentityKey then row else None;
      var current := RowAt(rows, record.remoteIdentityKey);
      var endedRow := if ended.Some? then RowAt(rows, ended.value.remoteIdentityKey) else None;
      var held := Get(record.path);
      PutChecked(rows, row, record, held, occupant);
      if current != (if ended.Some? then None else row) || endedRow != ended || held != occupant {
        return false;
      }
      PublishRecord(row, record, occupant);
      return true;
    }

    method CompareAndDelete(path: string, expected: Option<SyncRecord>) returns (deleted: bool)
      requires Valid()
      modifies this
      ensures Valid()
      ensures deleted <==> DeleteMatches(old(rows), path, expected)
      ensures Contents() ==
              if deleted && expected.Some?
              then Image(old(rows) - {expected.value.remoteIdentityKey},
                         old(content) - {expected.value.remoteIdentityKey})
              else old(Contents())
      ensures Step(old(Contents()), DeleteCall(path, expected), sha256, Contents())
    {
      var current := if expected.Some? then RowAt(rows, expected.value.remoteIdentityKey) else None;
      var held := Get(path);
      OccupantUnique(rows, path, held, expected);
      if current != expected || held != expected {
        return false;
      }
      if expected.Some? {
        Delete(expected.value.remoteIdentityKey);
      }
      return true;
    }

    /** The merge-base refresh: maybeStoreMergeBase's byte check, then compareAndPutContent. */
    method StoreMergeBase(expected: SyncRecord, bytes: Bytes) returns (stored: bool)
      requires Valid()
      modifies this`content
      ensures Valid()
      ensures stored <==> BaseMatches(old(rows), expected, bytes, sha256)
      ensures content == if stored then old(content)[expected.remoteIdentityKey := bytes] else old(content)
      ensures Step(old(Contents()), BaseCall(expected, bytes), sha256, Contents())
    {
      if expected.hash == "" || |bytes| != expected.localSize || sha256(bytes) != expected.hash {
        return false;
      }
      stored := CompareAndPutContent(expected, bytes);
    }

    method CompareAndPutContent(expected: SyncRecord, bytes: Bytes) returns (replaced: bool)
      modifies this`content
      ensures replaced <==> RowAt(rows, expected.remoteIdentityKey) == Some(expected)
      ensures content == if replaced then old(content)[expected.remoteIdentityKey := bytes] else old(content)
    {
      if RowAt(rows, expected.remoteIdentityKey) != Some(expected) {
        return false;
      }
      content := content[expected.remoteIdentityKey := bytes];
      return true;
    }

    /** Compare the entire admitted mapping against one image, then publish it item by item. */
    method CompareAndRewritePaths(items: seq<Relocation>) returns (published: bool)
      requires Valid()
      requires MovesPathOnly(items)
      modifies this
      ensures Valid()
      ensures published <==> RewriteMatches(old(rows), items)
      ensures published ==> IsRelocated(old(Contents()), items, Contents())
      ensures !published ==> Contents() == old(Contents())
      ensures Step(old(Contents()), RewriteCall(items), sha256, Contents())
    {
      if !AdmissibleShape(items) {
        return false;
      }
      for i := 0 to |items|
        invariant rows == old(rows) && byPath == old(byPath) && content == old(content)
        invariant forall k | 0 <= k < i :: RowAt(rows, items[k].source.remoteIdentityKey) == Some(items[k].source)
        invariant forall k | 0 <= k < i :: Occupies(rows, items[k].terminal.path, items[k].destination)
      {
        var held := Get(items[i].terminal.path);
        OccupantUnique(rows, items[i].terminal.path, held, items[i].destination);
        if RowAt(rows, items[i].source.remoteIdentityKey) != Some(items[i].source) || held != items[i].destination {
          return false;
        }
      }
      ghost var before := Contents();
      assert items[..0] == [];
      for i := 0 to |items|
        invariant Indexed(rows, byPath)
        invariant IsRelocated(before, items[..i], Contents())
      {
        ghost var image := Contents();
        DestinationVacated(before, items, i, image);
        PublishRecord(Some(items[i].source), items[i].terminal, items[i].destination);
        OneMoreRelocated(before, items, i, image, Contents());
      }
      assert items[..|items|] == items;
      RelocatedBases(before, items, Contents(), sha256);
      return true;
    }
  }
}
