/** Rows whose object has moved to another address: materializeExactPath of src/sync/identity-component-decision.ts,
    and what executing and publishing its decisions does. */
module AddressRelocation {
  import opened AddressDecision
  import opened AddressExecution
  import opened SyncState
  import opened SyncTypes
  import opened Wrappers

  /** The row stored under an address, where its object is seen now, and the row committed for the object seen here. */
  datatype Rows = Rows(at: Option<SyncRecord>, seenAt: Option<string>, continued: Option<SyncRecord>)

  /** The row that holds the address, unless its object has moved away. */
  function Destination(path: string, rows: Rows): Option<SyncRecord> {
    if rows.at.Some? && rows.at.value.remoteIdentityKey != "" && rows.seenAt.Some? &&
       rows.seenAt.value != path
    then None
    else rows.at
  }

  /** The row the address continues. */
  function Expected(path: string, rows: Rows): Option<SyncRecord> {
    if Destination(path, rows).Some? then rows.at else rows.continued
  }

  function BindExact(path: string, local: Seen, remote: Seen, rows: Rows, settings: Settings): Bound {
    Bound(path, EntityOf(local), EntityOf(remote),
          if settings.keepPresent && (!local.Present? || !remote.Present?) then None else Expected(path, rows),
          IsReplacement(Destination(path, rows), remote))
  }

  /** A row continued at a new address shows no difference there; the synchronized endpoints prove that it moved. */
  function Relocated(path: string, b: Bound, row: Option<SyncRecord>): Decision {
    if row.Some? && row.value.path != path && b.local.Some? && b.remote.Some?
    then if SameSynchronizedContent(b.local.value, b.remote.value, row) then Act(Match) else Refused
    else Nothing
  }

  function KindOf(b: Bound): Option<Kind> {
    if b.replacement && b.local.Some? && b.remote.Some?
    then Some(if Equal(b.local.value, b.remote.value) then Match else Conflict)
    else CompareContent(b.local, b.remote, b.baseline)
  }

  function DecideExact(path: string, local: Seen, remote: Seen, rows: Rows, settings: Settings): Decision {
    if (local.Present? && local.entity.isDirectory) || (remote.Present? && remote.entity.isDirectory) then Nothing
    else if local.NotObserved? || remote.NotObserved? then Refused
    else
      var b := BindExact(path, local, remote, rows, settings);
      var kind := KindOf(b);
      if kind.None? then Relocated(path, b, Expected(path, rows))
      else if kind == Some(Conflict) then Resolve(CompilePolicy(b, settings.strategy, settings.allowLocalWin))
      else if kind == Some(DeleteLocal) && !(remote.Absent? && remote.confirmed) then Refused
      else Act(kind.value)
  }

  /** For a row that stayed where it is stored, this is the one-address decision. */
  lemma ExactIsPath(path: string, local: Seen, remote: Seen, rows: Rows, settings: Settings)
    requires Destination(path, rows) == rows.at == Expected(path, rows)
    requires rows.at.Some? ==> rows.at.value.path == path
    ensures DecideExact(path, local, remote, rows, settings) == DecidePath(path, local, remote, rows.at, settings)
  {
  }

  /** For a row whose object was seen here, it is the one-address decision on that row as if it were stored here; but
      where that is nothing the move itself is decided, and local never wins over a moved row. */
  lemma MovedIsPath(path: string, local: Seen, remote: Seen, rows: Rows, settings: Settings)
    requires Destination(path, rows).None? && Expected(path, rows).Some? && Expected(path, rows).value.path != path
    requires remote.Present? && remote.entity.identityKey == Some(Expected(path, rows).value.remoteIdentityKey)
    ensures var moved := Expected(path, rows).value;
            var d, here := DecideExact(path, local, remote, rows, settings),
                           DecidePath(path, local, remote, Some(moved.(path := path)), settings);
            match here
            case Nothing =>
              if local.Present? && !local.entity.isDirectory && !remote.entity.isDirectory
              then d == if SameSynchronizedContent(local.entity, remote.entity, Some(moved)) then Act(Match)
              else Refused
              else d == Nothing
            case Resolve(policy) =>
              d == Resolve(Policy(if policy.mode == LocalWin then Preserve else policy.mode, policy.strategy))
            case _ => d == here
  {
  }

  // ---------------------------------------------------------------- what a relocation is decided on

  ghost predicate RowOf(digest: (string, Bytes) -> string, row: Option<SyncRecord>, base: Bytes) {
    row.Some? ==> RowDescribes(digest, row.value, row.value.path, base)
  }

  /** A decided match, relocations included, is between equal bytes. */
  lemma MatchIsProven(digest: (string, Bytes) -> string, path: string, local: Seen, remote: Seen, rows: Rows,
                      settings: Settings, f: File, g: File, base: Bytes)
    requires Digests(digest) && RowOf(digest, Expected(path, rows), base)
    requires local.Present? && Describes(digest, local.entity, path, f)
    requires remote.Present? && Describes(digest, remote.entity, path, g)
    requires DecideExact(path, local, remote, rows, settings) == Act(Match)
    ensures f.bytes == g.bytes
  {
    var b := BindExact(path, local, remote, rows, settings);
    if SameContent(local.entity, remote.entity) {
      SameContentSameBytes(digest, local.entity, remote.entity, path, f, g);
    } else {
      assert KindOf(b).None?;
      SynchronizedIsBase(digest, path, local.entity, remote.entity, Expected(path, rows).value, f, g, base);
    }
  }

  lemma SynchronizedIsBase(digest: (string, Bytes) -> string, path: string, l: FileEntity, r: FileEntity,
                           row: SyncRecord, f: File, g: File, base: Bytes)
    requires Digests(digest) && RowDescribes(digest, row, row.path, base)
    requires Describes(digest, l, path, f) && Describes(digest, r, path, g)
    requires SameSynchronizedContent(l, r, Some(row)) && !SameContent(l, r)
    ensures f.bytes == base == g.bytes
  {
    assert digest("sha256", f.bytes) == digest("sha256", base);
    var algo := r.remoteChecksum.value.algo;
    assert digest(algo, g.bytes) == digest(algo, base);
  }

  /** The endpoints carry evidence that can be compared: one algorithm on both, or each its own against the row. */
  predicate Comparable(l: FileEntity, r: FileEntity, row: SyncRecord) {
    || (ContentKey(l).Some? && ContentKey(r).Some? && ContentKey(l).value.algo == ContentKey(r).value.algo)
    || (r.hash == "" && l.hash != "" && row.hash != "" && ChecksumsComparable(r, row))
  }

  /** A moved row whose files still hold its content is matched at the new address if and only if their evidence can be
      compared, and refused otherwise. */
  lemma RelocationExactly(digest: (string, Bytes) -> string, path: string, local: Seen, remote: Seen, rows: Rows,
                          settings: Settings, f: File, g: File)
    requires Digests(digest) && Expected(path, rows).Some? && Expected(path, rows).value.path != path
    requires RowOf(digest, Expected(path, rows), f.bytes) && f.bytes == g.bytes
    requires local.Present? && Describes(digest, local.entity, path, f)
    requires remote.Present? && Describes(digest, remote.entity, path, g)
    requires KindOf(BindExact(path, local, remote, rows, settings)).None?
    ensures DecideExact(path, local, remote, rows, settings) ==
            if Comparable(local.entity, remote.entity, Expected(path, rows).value) then Act(Match) else Refused
  {
  }

  // ---------------------------------------------------------------- one address for each row

  /** The rows one observation gives an address: `seen` is the object at each remote address, `stored` the rows by
      object. */
  ghost predicate RowsAre(path: string, rows: Rows, seen: map<string, string>, stored: map<string, SyncRecord>) {
    && (match rows.at
        case Some(r) => r.remoteIdentityKey in stored && stored[r.remoteIdentityKey] == r && r.path == path
        case None => true)
    && (match rows.seenAt
        case Some(q) => rows.at.Some? && q in seen && seen[q] == rows.at.value.remoteIdentityKey
        case None => rows.at.Some? ==> forall q | q in seen :: seen[q] != rows.at.value.remoteIdentityKey)
    && rows.continued == if path in seen && seen[path] in stored then Some(stored[seen[path]]) else None
  }

  /** The row an address continues: its own while that row's object is not seen elsewhere, else the row of the object
      seen here, wherever it is stored. */
  lemma RowFollowsObject(path: string, rows: Rows, seen: map<string, string>, stored: map<string, SyncRecord>)
    requires RowsAre(path, rows, seen, stored)
    requires forall id | id in stored :: stored[id].remoteIdentityKey == id && id != ""
    requires forall a, b | a in seen && b in seen && seen[a] == seen[b] :: a == b
    ensures var own := rows.at.Some? && forall q | q in seen && seen[q] == rows.at.value.remoteIdentityKey :: q == path;
            Expected(path, rows) ==
            if own then rows.at
            else if path in seen && seen[path] in stored then Some(stored[seen[path]])
            else None
  {
  }

  /** No row is continued at two addresses. */
  lemma OneAddressEach(p: string, q: string, atP: Rows, atQ: Rows, seen: map<string, string>,
                       stored: map<string, SyncRecord>)
    requires p != q && RowsAre(p, atP, seen, stored) && RowsAre(q, atQ, seen, stored)
    requires forall a, b | a in seen && b in seen && seen[a] == seen[b] :: a == b
    requires forall id | id in stored :: stored[id].remoteIdentityKey == id && id != ""
    ensures Expected(p, atP).None? || Expected(p, atP) != Expected(q, atQ)
  {
  }

  // ---------------------------------------------------------------- executing what was decided

  /** What the executor is given: truthful observations, rows that describe what was last synchronized. */
  ghost predicate Observed(digest: (string, Bytes) -> string, w: World, path: string, local: Seen, remote: Seen,
                           rows: Rows, base: Bytes)
  {
    && Digests(digest) && Shows(digest, local, w.local, path) && Shows(digest, remote, w.remote, path)
    && RowOf(digest, Expected(path, rows), base)
  }

  predicate Admits(d: Decision) { !d.Nothing? && !d.Refused? }

  /** Any admitted action of the exact-path rule, executed undisturbed, settles the address: also a match whose row
      comes from another address. */
  lemma ExactConverges(digest: (string, Bytes) -> string, w: World, path: string, local: Seen, remote: Seen,
                       rows: Rows, settings: Settings, env: Env, base: Bytes)
    requires Observed(digest, w, path, local, remote, rows, base)
    requires var d := DecideExact(path, local, remote, rows, settings);
             Admits(d) && Undisturbed(digest, w, path, d, env)
    ensures var t := Execute(w, path, DecideExact(path, local, remote, rows, settings), env);
            t.Some? && Settled(digest, t.value, path)
  {
    var d := DecideExact(path, local, remote, rows, settings);
    if d == Act(Match) {
      MatchIsProven(digest, path, local, remote, rows, settings, w.local[path], w.remote[path], base);
    }
    var after := Effects(w, path, d, env);
    if !RemovesRow(d) {
      BuiltRowDescribes(digest, path, env.seenLocal, env.seenRemote, after.value.local[path], after.value.remote[path],
                        env.syncedAt);
    }
  }

  /** No action that keeps the row changes which object holds the address. */
  lemma ObjectStays(w: World, path: string, d: Decision, env: Env)
    requires Effects(w, path, d, env).Some? && !RemovesRow(d) && path in w.remote && env.copyPath != path
    ensures var t := Effects(w, path, d, env).value; path in t.remote && t.remote[path].id == w.remote[path].id
  {
  }

  /** Publishing a row at a new address, with no occupant captured there. */
  lemma MoveIsPut(image: Image, moved: SyncRecord, row: SyncRecord, at: Option<SyncRecord>)
    requires KeyedByIdentity(image.rows) && UniquePaths(image.rows)
    requires RowAt(image.rows, moved.remoteIdentityKey) == Some(moved) && Occupies(image.rows, row.path, at)
    requires row.remoteIdentityKey == moved.remoteIdentityKey && row.path != moved.path
    ensures var after := Published(image, Some(moved), row, None).rows;
            && after == image.rows[moved.remoteIdentityKey := row]
            && (forall id | id in after :: after[id].path != moved.path)
            && (PutMatches(image.rows, Some(moved), row, None) <==> at.None?)
  {
    assert Ended(Some(moved), row, None) == {};
  }

  /** A row continued at another address is the row of the object seen there. */
  lemma ContinuedIsSeen(path: string, rows: Rows, seen: map<string, string>, stored: map<string, SyncRecord>)
    requires RowsAre(path, rows, seen, stored) && KeyedByIdentity(stored)
    requires Expected(path, rows).Some? && Expected(path, rows).value.path != path
    ensures Destination(path, rows).None? && path in seen
    ensures RowAt(stored, seen[path]) == Expected(path, rows) &&
            Expected(path, rows).value.remoteIdentityKey == seen[path]
  {
  }

  /** What a relocated row's publication does to the store: its object keeps its row, nothing stays at the old address,
      and the commit's comparison passes exactly when the new address holds no row. A row whose object has left that
      address still holds it until its own publication carries it away. */
  lemma RelocationMoves(digest: (string, Bytes) -> string, w: World, path: string, local: Seen, remote: Seen,
                        rows: Rows, settings: Settings, env: Env, base: Bytes, image: Image, seen: map<string, string>)
    requires Observed(digest, w, path, local, remote, rows, base)
    requires KeyedByIdentity(image.rows) && UniquePaths(image.rows) && Occupies(image.rows, path, rows.at)
    requires RowsAre(path, rows, seen, image.rows)
    requires path in seen ==> path in w.remote && w.remote[path].id == seen[path]
    requires Expected(path, rows).Some? && Expected(path, rows).value.path != path
    requires var d := DecideExact(path, local, remote, rows, settings);
             Admits(d) && !RemovesRow(d) && Undisturbed(digest, w, path, d, env)
    ensures var t := Execute(w, path, DecideExact(path, local, remote, rows, settings), env);
            var moved, row := Expected(path, rows).value, t.value.record.value;
            var after := Published(image, Some(moved), row, Destination(path, rows)).rows;
            && t.Some? && t.value.record.Some? && row.remoteIdentityKey == moved.remoteIdentityKey
            && after == image.rows[moved.remoteIdentityKey := row] && row.path == path
            && (forall id | id in after :: after[id].path != moved.path)
            && (PutMatches(image.rows, Some(moved), row, Destination(path, rows)) <==> rows.at.None?)
  {
    var d := DecideExact(path, local, remote, rows, settings);
    ExactConverges(digest, w, path, local, remote, rows, settings, env, base);
    ObjectStays(w, path, d, env);
    ContinuedIsSeen(path, rows, seen, image.rows);
    MoveIsPut(image, Expected(path, rows).value, Execute(w, path, d, env).value.record.value, rows.at);
  }
}
