/** Executing one address's decision undisturbed, and what survives: runActionIO and executePreparedConflictEffects of
    src/sync/plan-executor.ts, src/sync/conflict-resolver.ts, and buildSyncRecord of src/sync/state-committer.ts. */
module AddressExecution {
  import opened AddressDecision
  import opened SyncTypes
  import opened Wrappers

  /** A file as it is, and the provider object that holds it. */
  datatype File = File(bytes: Bytes, mtime: nat, id: string)

  /** Both filesystems, and the row stored for one address. */
  datatype World = World(local: map<string, File>, remote: map<string, File>, record: Option<SyncRecord>)

  /** The three-way merge of this file, when a base is stored and the file is eligible; `marked` is a merge with
      conflict markers. */
  datatype Merge = Merge(content: Bytes, marked: bool, rejected: bool)

  /** Whatever the filesystems choose: stored times, the identities of new objects, a free copy address, and the
      entities the final stats return. */
  datatype Env = Env(localMtime: nat, remoteMtime: nat, newId: string, copyPath: string, copyId: string,
                     merge: Option<Merge>, seenLocal: FileEntity, seenRemote: FileEntity, syncedAt: nat)

  // ---------------------------------------------------------------- resolving a conflict

  /** The bytes for both sides, whether the remote version is copied first, and whether the bytes are reported as a
      merge with conflict markers. */
  datatype Resolution = Resolution(target: Bytes, copies: bool, marked: bool)

  /** The choice among the captured versions; `None` is the refusal of an input the policy needs. */
  function ResolveConflict(policy: Policy, local: Option<File>, remote: Option<File>,
                           merge: Option<Merge>): Option<Resolution> {
    if remote.None? then (if local.Some? then Some(Resolution(local.value.bytes, false, false)) else None)
    else if policy.mode == Preserve then
      Some(if local.Some? then Resolution(local.value.bytes, true, false)
           else Resolution(remote.value.bytes, false, false))
    else if policy.mode == LocalWin then
      if local.None? then None else Some(Resolution(local.value.bytes, false, false))
    else if local.None? then Some(Resolution(remote.value.bytes, false, false))
    else if merge.Some? then
      Some(if merge.value.rejected then Resolution(local.value.bytes, true, false)
           else Resolution(merge.value.content, false, merge.value.marked))
    else if 0 < local.value.mtime < remote.value.mtime then Some(Resolution(remote.value.bytes, false, false))
    else if local.value.mtime > remote.value.mtime > 0 then Some(Resolution(local.value.bytes, false, false))
    else Some(Resolution(local.value.bytes, local.value.bytes != remote.value.bytes, false))
  }

  // ---------------------------------------------------------------- the effects

  function FileAt(side: map<string, File>, path: string): Option<File> {
    if path in side then Some(side[path]) else None
  }

  /** A write keeps the object that is there, or makes a new one. */
  function Written(side: map<string, File>, path: string, bytes: Bytes, mtime: nat, newId: string): map<string, File> {
    side[path := File(bytes, mtime, if path in side then side[path].id else newId)]
  }

  function BothWritten(w: World, path: string, bytes: Bytes, env: Env, id: string): World {
    w.(local := Written(w.local, path, bytes, env.localMtime, id),
       remote := Written(w.remote, path, bytes, env.remoteMtime, id))
  }

  /** The files after a decision's effects; `None` when the executor refuses. */
  function Effects(w: World, path: string, d: Decision, env: Env): Option<World> {
    match d
    case Nothing => None
    case Refused => None
    case Act(kind) =>
      (match kind
       case Push => if path !in w.local then None
                    else Some(w.(remote := Written(w.remote, path, w.local[path].bytes, env.remoteMtime, env.newId)))
       case Pull => if path !in w.remote then None
                    else Some(w.(local := Written(w.local, path, w.remote[path].bytes, env.localMtime, env.newId)))
       case Match => Some(w)
       case DeleteLocal => Some(w.(local := w.local - {path}))
       case DeleteRemote => Some(w.(remote := w.remote - {path}))
       case Cleanup => Some(w)
       case Conflict => None)
    case Resolve(policy) =>
      var r := ResolveConflict(policy, FileAt(w.local, path), FileAt(w.remote, path), env.merge);
      if r.None? then None
      else
        var copied := if r.value.copies then BothWritten(w, env.copyPath, w.remote[path].bytes, env, env.copyId) else w;
        Some(BothWritten(copied, path, r.value.target, env, env.newId))
  }

  /** buildSyncRecord: refused without a provider identity. */
  function BuildSyncRecord(local: FileEntity, remote: FileEntity, path: string, syncedAt: nat): Option<SyncRecord> {
    if remote.identityKey.None? || remote.identityKey.value == "" then None
    else Some(SyncRecord(path, if local.hash != "" then local.hash else remote.hash, local.mtime, remote.mtime,
                         local.size, remote.size, remote.remoteChecksum, remote.identityKey.value, syncedAt))
  }

  predicate RemovesRow(d: Decision) {
    d == Act(DeleteLocal) || d == Act(DeleteRemote) || d == Act(Cleanup)
  }

  /** Effects, then the commit; a refusal anywhere leaves no new row. */
  function Execute(w: World, path: string, d: Decision, env: Env): Option<World> {
    var after := Effects(w, path, d, env);
    if after.None? then None
    else if RemovesRow(d) then Some(after.value.(record := None))
    else
      var row := BuildSyncRecord(env.seenLocal, env.seenRemote, path, env.syncedAt);
      if row.None? then None else Some(after.value.(record := row))
  }

  // ---------------------------------------------------------------- faithful observation

  /** A digest per algorithm that tells contents apart. */
  ghost predicate Digests(digest: (string, Bytes) -> string) {
    && (forall algo, a: Bytes, b: Bytes :: digest(algo, a) == digest(algo, b) ==> a == b)
    && (forall a: Bytes :: digest("sha256", a) != "")
  }

  /** The entity tells the truth about the file, as far as it tells. */
  ghost predicate Describes(digest: (string, Bytes) -> string, e: FileEntity, path: string, f: File) {
    && e.path == path && !e.isDirectory && e.size == |f.bytes| && e.mtime == f.mtime
    && (e.hash == "" || e.hash == digest("sha256", f.bytes))
    && (e.remoteChecksum.Some? ==> e.remoteChecksum.value.value == digest(e.remoteChecksum.value.algo, f.bytes))
    && (e.identityKey.Some? ==> e.identityKey.value == f.id)
  }

  ghost predicate Shows(digest: (string, Bytes) -> string, s: Seen, side: map<string, File>, path: string) {
    match s
    case Present(e) => path in side && Describes(digest, e, path, side[path])
    case Absent(_) => path !in side
    case NotObserved => true
  }

  /** The row was made from these bytes. */
  ghost predicate RowDescribes(digest: (string, Bytes) -> string, r: SyncRecord, path: string, bytes: Bytes) {
    && r.path == path && r.localSize == |bytes| && r.remoteSize == |bytes|
    && (r.hash == "" || r.hash == digest("sha256", bytes))
    && (r.remoteChecksum.Some? ==> r.remoteChecksum.value.value == digest(r.remoteChecksum.value.algo, bytes))
  }

  /** Undisturbed: the copy address is free, and the last stats are truthful and name the provider object. */
  ghost predicate Undisturbed(digest: (string, Bytes) -> string, w: World, path: string, d: Decision, env: Env) {
    && env.copyPath != path && env.copyPath !in w.local && env.copyPath !in w.remote
    && var after := Effects(w, path, d, env);
       (after.Some? && path in after.value.local && path in after.value.remote ==>
          && Describes(digest, env.seenLocal, path, after.value.local[path])
          && Describes(digest, env.seenRemote, path, after.value.remote[path])
          && env.seenRemote.identityKey.Some? && env.seenRemote.identityKey.value != "")
  }

  /** Both sides and the row agree, or nothing is left of the address. */
  ghost predicate Settled(digest: (string, Bytes) -> string, w: World, path: string) {
    match w.record
    case None => path !in w.local && path !in w.remote
    case Some(r) =>
      && path in w.local && path in w.remote && w.local[path].bytes == w.remote[path].bytes
      && RowDescribes(digest, r, path, w.local[path].bytes)
      && r.localMtime == w.local[path].mtime && r.remoteMtime == w.remote[path].mtime
      && r.remoteIdentityKey == w.remote[path].id && r.remoteIdentityKey != ""
  }

  // ---------------------------------------------------------------- convergence

  lemma SameContentSameBytes(digest: (string, Bytes) -> string, a: FileEntity, b: FileEntity, path: string, f: File,
                             g: File)
    requires Digests(digest) && Describes(digest, a, path, f) && Describes(digest, b, path, g) && SameContent(a, b)
    ensures f.bytes == g.bytes
  {
    var key := ContentKey(a).value;
    assert digest(key.algo, f.bytes) == key.value && digest(key.algo, g.bytes) == key.value;
  }

  /** The row built from two truthful entities of one content describes it. */
  lemma BuiltRowDescribes(digest: (string, Bytes) -> string, path: string, l: FileEntity, r: FileEntity, f: File,
                          g: File, at: nat)
    requires Describes(digest, l, path, f) && Describes(digest, r, path, g) && f.bytes == g.bytes
    requires BuildSyncRecord(l, r, path, at).Some?
    ensures var row := BuildSyncRecord(l, r, path, at).value;
            && RowDescribes(digest, row, path, f.bytes) && row.localMtime == f.mtime && row.remoteMtime == g.mtime
            && row.remoteIdentityKey == g.id != ""
  {
  }

  /** After the effects of a decision on truthful observations, the two sides agree. */
  lemma EffectsAgree(digest: (string, Bytes) -> string, w: World, path: string, local: Seen, remote: Seen,
                     settings: Settings, env: Env)
    requires Digests(digest) && Shows(digest, local, w.local, path) && Shows(digest, remote, w.remote, path)
    requires var d := DecidePath(path, local, remote, w.record, settings);
             !d.Nothing? && !d.Refused? && Undisturbed(digest, w, path, d, env)
    ensures var d := DecidePath(path, local, remote, w.record, settings);
            var after := Effects(w, path, d, env);
            && after.Some?
            && (if RemovesRow(d) then path !in after.value.local && path !in after.value.remote
                else path in after.value.local && path in after.value.remote &&
                     after.value.local[path].bytes == after.value.remote[path].bytes)
  {
    var d := DecidePath(path, local, remote, w.record, settings);
    if d == Act(Match) {
      assert SameContent(local.entity, remote.entity);
      SameContentSameBytes(digest, local.entity, remote.entity, path, w.local[path], w.remote[path]);
    }
  }

  /** Any admitted action, executed undisturbed, leaves both sides and the row agreeing, or all absent. */
  lemma Converges(digest: (string, Bytes) -> string, w: World, path: string, local: Seen, remote: Seen,
                  settings: Settings, env: Env)
    requires Digests(digest) && Shows(digest, local, w.local, path) && Shows(digest, remote, w.remote, path)
    requires var d := DecidePath(path, local, remote, w.record, settings);
             !d.Nothing? && !d.Refused? && Undisturbed(digest, w, path, d, env)
    ensures var t := Execute(w, path, DecidePath(path, local, remote, w.record, settings), env);
            t.Some? && Settled(digest, t.value, path)
  {
    var d := DecidePath(path, local, remote, w.record, settings);
    EffectsAgree(digest, w, path, local, remote, settings, env);
    if !RemovesRow(d) {
      var after := Effects(w, path, d, env).value;
      assert BuildSyncRecord(env.seenLocal, env.seenRemote, path, env.syncedAt).Some?;
      BuiltRowDescribes(digest, path, env.seenLocal, env.seenRemote, after.local[path], after.remote[path],
                        env.syncedAt);
    }
  }

  // ---------------------------------------------------------------- the next decision

  predicate LocalComparable(e: FileEntity, r: SyncRecord) {
    (e.hash != "" && r.hash != "") || (e.mtime > 0 && r.localMtime > 0)
  }

  predicate RemoteComparable(e: FileEntity, r: SyncRecord) {
    ChecksumsComparable(e, r) || (e.mtime > 0 && r.remoteMtime > 0) || (e.hash != "" && r.hash != "")
  }

  /** On a settled address the next decision is nothing, exactly when both endpoints can be compared to the row. */
  lemma SettledNeedsNothing(digest: (string, Bytes) -> string, w: World, path: string, local: Seen, remote: Seen,
                            settings: Settings)
    requires Settled(digest, w, path) && Shows(digest, local, w.local, path) && Shows(digest, remote, w.remote, path)
    requires !local.NotObserved? && !remote.NotObserved?
    ensures w.record.None? ==> DecidePath(path, local, remote, w.record, settings) == Nothing
    ensures w.record.Some? ==>
              && local.Present? && remote.Present?
              && (DecidePath(path, local, remote, w.record, settings) == Nothing <==>
                    LocalComparable(local.entity, w.record.value) && RemoteComparable(remote.entity, w.record.value))
  {
    if w.record.Some? {
      var r := w.record.value;
      assert HasChanged(local.entity, r) <==> !LocalComparable(local.entity, r);
      assert HasRemoteChanged(remote.entity, r) <==> !RemoteComparable(remote.entity, r);
      assert !IsReplacement(w.record, remote);
    }
  }

  /** A settled address whose local side reports neither a digest nor a time is pushed again and again. */
  lemma IncomparableIsRepeated(digest: (string, Bytes) -> string)
    ensures var w := World(map["a" := File([1], 0, "")], map["a" := File([1], 7, "id")],
                           Some(SyncRecord("a", "", 0, 7, 1, 1, None, "id", 0)));
            var local := Present(FileEntity("a", None, false, 1, 0, "", None));
            var remote := Present(FileEntity("a", Some("id"), false, 1, 7, "", None));
            && Settled(digest, w, "a") && Shows(digest, local, w.local, "a") && Shows(digest, remote, w.remote, "a")
            && DecidePath("a", local, remote, w.record, Settings(false, Duplicate, false)) == Act(Push)
  {
    var bytes: Bytes := [1];
    assert |bytes| == 1;
  }

  /** Settling and looking again: when the next cycle sees what the last stats returned, it does nothing if and only if
      each endpoint reported a digest or a time; otherwise the row could not have kept either. */
  lemma ConvergedIsQuiet(digest: (string, Bytes) -> string, w: World, path: string, d: Decision, env: Env,
                         settings: Settings)
    requires Digests(digest) && Undisturbed(digest, w, path, d, env) && Execute(w, path, d, env).Some?
    requires Settled(digest, Execute(w, path, d, env).value, path) && !RemovesRow(d)
    ensures var l, r := env.seenLocal, env.seenRemote;
            DecidePath(path, Present(l), Present(r), Execute(w, path, d, env).value.record, settings) == Nothing <==>
            (l.hash != "" || l.mtime > 0) && (r.hash != "" || r.mtime > 0 || r.remoteChecksum.Some?)
  {
    var t := Execute(w, path, d, env).value;
    SettledNeedsNothing(digest, t, path, Present(env.seenLocal), Present(env.seenRemote), settings);
  }

  // ---------------------------------------------------------------- what each observation leads to

  /** A side is as it was at every address but one. */
  ghost predicate OnlyAt(before: map<string, File>, after: map<string, File>, path: string) {
    after - {path} == before - {path}
  }

  /** The side's file now holds these bytes, in the object that was there. */
  ghost predicate Holds(before: map<string, File>, after: map<string, File>, path: string, bytes: Bytes) {
    && path in after && after[path].bytes == bytes && OnlyAt(before, after, path)
    && (path in before ==> after[path].id == before[path].id)
  }

  /** The row is for the object seen at the address, as far as either is known. */
  predicate SameObject(r: SyncRecord, e: FileEntity) {
    r.remoteIdentityKey == "" || e.identityKey.None? || e.identityKey.value == "" ||
      e.identityKey.value == r.remoteIdentityKey
  }

  /** One side's version travels to the other, whose file alone is written. */
  ghost predicate LocalTravels(w: World, t: World, path: string) {
    path in w.local && t.local == w.local && Holds(w.remote, t.remote, path, w.local[path].bytes)
  }

  ghost predicate RemoteTravels(w: World, t: World, path: string) {
    path in w.remote && t.remote == w.remote && Holds(w.local, t.local, path, w.remote[path].bytes)
  }

  ghost predicate NoFileWritten(w: World, t: World) {
    t.local == w.local && t.remote == w.remote
  }

  /** Both files and their row: an edit on one side only travels to the other, provably equal files are matched, edits
      on both sides are a conflict, and nothing is done for no edit. */
  lemma EditTravels(digest: (string, Bytes) -> string, w: World, path: string, local: Seen, remote: Seen,
                    settings: Settings, env: Env)
    requires Digests(digest) && Shows(digest, local, w.local, path) && Shows(digest, remote, w.remote, path)
    requires local.Present? && remote.Present? && w.record.Some? && SameObject(w.record.value, remote.entity)
    requires Undisturbed(digest, w, path, DecidePath(path, local, remote, w.record, settings), env)
    ensures var d := DecidePath(path, local, remote, w.record, settings);
            var t := Execute(w, path, d, env);
            var l, r := HasChanged(local.entity, w.record.value), HasRemoteChanged(remote.entity, w.record.value);
            if !l && !r then d == Nothing
            else if Equal(local.entity, remote.entity) then d == Act(Match) && t.Some? && NoFileWritten(w, t.value)
            else if l && r then d.Resolve?
            else if l then t.Some? && LocalTravels(w, t.value, path)
            else t.Some? && RemoteTravels(w, t.value, path)
  {
  }

  /** The same on bytes. Of two files one is what was last synchronized and shows it; the other was edited and does not
      look unchanged. The edit travels. */
  lemma LoneEditWins(digest: (string, Bytes) -> string, w: World, path: string, local: Seen, remote: Seen,
                     settings: Settings, env: Env, base: Bytes)
    requires Digests(digest) && Shows(digest, local, w.local, path) && Shows(digest, remote, w.remote, path)
    requires local.Present? && remote.Present? && w.record.Some? && SameObject(w.record.value, remote.entity)
    requires RowDescribes(digest, w.record.value, path, base)
    requires Undisturbed(digest, w, path, DecidePath(path, local, remote, w.record, settings), env)
    ensures var row := w.record.value;
            var t := Execute(w, path, DecidePath(path, local, remote, w.record, settings), env);
            && (Untouched(w.local[path], base, row.localMtime) && LocalComparable(local.entity, row) &&
                  w.remote[path].bytes != base && !RemoteLooksUnchanged(remote.entity, row) ==>
                  t.Some? && RemoteTravels(w, t.value, path))
            && (Untouched(w.remote[path], base, row.remoteMtime) && RemoteComparable(remote.entity, row) &&
                  w.local[path].bytes != base && !LooksUnchanged(local.entity, row) ==>
                  t.Some? && LocalTravels(w, t.value, path))
  {
    EditTravels(digest, w, path, local, remote, settings, env);
    if w.local[path].bytes != base {
      EditIsDetected(digest, path, local.entity, w.local[path], w.record.value, base);
    }
    if w.remote[path].bytes != base {
      EditIsDetected(digest, path, remote.entity, w.remote[path], w.record.value, base);
    }
    if SameContent(local.entity, remote.entity) {
      SameContentSameBytes(digest, local.entity, remote.entity, path, w.local[path], w.remote[path]);
    }
  }

  /** The file holds what was synchronized, under the time the row knows. */
  ghost predicate Untouched(f: File, base: Bytes, mtime: nat) {
    f.bytes == base && f.mtime == mtime
  }

  /** Without a row, or with one side missing where present sides are kept: what only one side has travels, provably
      equal files are matched, others are a conflict. */
  lemma FirstSight(digest: (string, Bytes) -> string, w: World, path: string, local: Seen, remote: Seen,
                   settings: Settings, env: Env)
    requires Digests(digest) && Shows(digest, local, w.local, path) && Shows(digest, remote, w.remote, path)
    requires !local.NotObserved? && !remote.NotObserved?
    requires w.record.None? || (settings.keepPresent && (local.Absent? || remote.Absent?))
    requires Undisturbed(digest, w, path, DecidePath(path, local, remote, w.record, settings), env)
    ensures var d := DecidePath(path, local, remote, w.record, settings);
            var t := Execute(w, path, d, env);
            if local.Absent? && remote.Absent? then d == Nothing
            else if remote.Absent? then t.Some? && LocalTravels(w, t.value, path)
            else if local.Absent? then t.Some? && RemoteTravels(w, t.value, path)
            else if Equal(local.entity, remote.entity) then d == Act(Match) && t.Some? && NoFileWritten(w, t.value)
            else d.Resolve?
  {
  }

  /** A row whose object was replaced at the address never lets one side's version travel: the two are equal, or they
      conflict. */
  lemma ReplacementConflicts(path: string, local: Seen, remote: Seen, record: Option<SyncRecord>, settings: Settings)
    requires local.Present? && remote.Present? && !local.entity.isDirectory && !remote.entity.isDirectory
    requires record.Some? && !SameObject(record.value, remote.entity)
    ensures var d := DecidePath(path, local, remote, record, settings);
            if Equal(local.entity, remote.entity) then d == Act(Match) else d.Resolve?
  {
  }

  /** A deletion takes exactly the file at the address; a row left alone is removed with no file written. */
  lemma DeletionsTakeOne(digest: (string, Bytes) -> string, w: World, path: string, local: Seen, remote: Seen,
                         settings: Settings, env: Env)
    requires Digests(digest) && Shows(digest, local, w.local, path) && Shows(digest, remote, w.remote, path)
    requires Undisturbed(digest, w, path, DecidePath(path, local, remote, w.record, settings), env)
    ensures var d := DecidePath(path, local, remote, w.record, settings);
            var t := Execute(w, path, d, env);
            && (RemovesRow(d) ==>
                  && t.Some? && t.value.record.None? && path !in t.value.local && path !in t.value.remote
                  && OnlyAt(w.local, t.value.local, path) && OnlyAt(w.remote, t.value.remote, path))
            && (d == Act(Cleanup) <==> local.Absent? && remote.Absent? && w.record.Some? && !settings.keepPresent)
  {
    var d := DecidePath(path, local, remote, w.record, settings);
    if d == Act(DeleteLocal) || d == Act(DeleteRemote) {
      DeletionsAreProven(path, local, remote, w.record, settings);
    }
    if RemovesRow(d) {
      var t := Execute(w, path, d, env).value;
      assert path !in w.local ==> w.local - {path} == w.local;
      assert path !in w.remote ==> w.remote - {path} == w.remote;
    }
  }

  /** Neither file is known to be newer. */
  predicate NoneNewer(l: File, r: File) {
    l.mtime == 0 || r.mtime == 0 || l.mtime == r.mtime
  }

  /** A conflict with both files present writes the address and, for a copy, the free copy address, and no other. The
      copy is made in preserve mode, for a rejected merge, and where without a base neither of two different versions is
      known to be newer; then the local version is at the address, and the remote one in the copy. */
  lemma ConflictWrites(w: World, path: string, policy: Policy, env: Env)
    requires path in w.local && path in w.remote && env.copyPath != path
    ensures var t := Effects(w, path, Resolve(policy), env);
            && t.Some?
            && t.value.local - {path, env.copyPath} == w.local - {path, env.copyPath}
            && t.value.remote - {path, env.copyPath} == w.remote - {path, env.copyPath}
            && (var copies := policy.mode == Preserve ||
                              (policy.mode == AutoMerge &&
                               if env.merge.Some? then env.merge.value.rejected
                               else NoneNewer(w.local[path], w.remote[path]) &&
                                    w.local[path].bytes != w.remote[path].bytes);
                if copies then
                  && t.value.local[path].bytes == t.value.remote[path].bytes == w.local[path].bytes
                  && env.copyPath in t.value.local && env.copyPath in t.value.remote
                  && t.value.local[env.copyPath].bytes == t.value.remote[env.copyPath].bytes == w.remote[path].bytes
                else FileAt(t.value.local, env.copyPath) == FileAt(w.local, env.copyPath) &&
                     FileAt(t.value.remote, env.copyPath) == FileAt(w.remote, env.copyPath))
            && (policy.mode == LocalWin ==>
                  t.value.local[path].bytes == t.value.remote[path].bytes == w.local[path].bytes)
  {
  }

  // ---------------------------------------------------------------- edits against deletions

  /** No digest was compared, and the metadata of the edited file equals the row's. */
  predicate LooksUnchanged(e: FileEntity, r: SyncRecord) {
    && !(e.hash != "" && r.hash != "")
    && 0 < e.mtime == r.localMtime && e.size == r.localSize
  }

  predicate RemoteLooksUnchanged(e: FileEntity, r: SyncRecord) {
    && !ChecksumsComparable(e, r) && !(e.hash != "" && r.hash != "")
    && 0 < e.mtime == r.remoteMtime && e.size == r.remoteSize
  }

  /** An edit is detected unless it looks unchanged. */
  lemma EditIsDetected(digest: (string, Bytes) -> string, path: string, e: FileEntity, f: File, r: SyncRecord,
                       base: Bytes)
    requires Digests(digest) && Describes(digest, e, path, f) && RowDescribes(digest, r, path, base) && f.bytes != base
    ensures HasChanged(e, r) <==> !LooksUnchanged(e, r)
    ensures HasRemoteChanged(e, r) <==> !RemoteLooksUnchanged(e, r)
  {
    if e.hash != "" && r.hash != "" {
      assert digest("sha256", f.bytes) != digest("sha256", base);
    }
    if ChecksumsComparable(e, r) {
      assert digest(e.remoteChecksum.value.algo, f.bytes) != digest(e.remoteChecksum.value.algo, base);
    }
  }

  /** A detected edit on one side, a deletion on the other: under any strategy the edit ends up on both. */
  lemma EditNeverLosesToDeletion(digest: (string, Bytes) -> string, w: World, path: string, local: Seen, remote: Seen,
                                 settings: Settings, env: Env)
    requires Digests(digest) && Shows(digest, local, w.local, path) && Shows(digest, remote, w.remote, path) &&
             w.record.Some?
    requires var d := DecidePath(path, local, remote, w.record, settings); Undisturbed(digest, w, path, d, env)
    requires || (local.Present? && remote.Absent? && HasChanged(local.entity, w.record.value))
             || (remote.Present? && local.Absent? && HasRemoteChanged(remote.entity, w.record.value))
    ensures var d := DecidePath(path, local, remote, w.record, settings);
            var t := Execute(w, path, d, env);
            && t.Some? && path in t.value.local && path in t.value.remote
            && t.value.local[path].bytes == t.value.remote[path].bytes ==
               if local.Present? then w.local[path].bytes else w.remote[path].bytes
  {
    var d := DecidePath(path, local, remote, w.record, settings);
    var after := Effects(w, path, d, env);
    assert after.Some? && path in after.value.local && path in after.value.remote;
  }

  /** The only edit a deletion can take is one that looked unchanged. */
  lemma DeletionTakesOnlyUnseenEdits(digest: (string, Bytes) -> string, w: World, path: string, local: Seen,
                                     remote: Seen, settings: Settings, base: Bytes)
    requires Digests(digest) && Shows(digest, local, w.local, path) && Shows(digest, remote, w.remote, path)
    requires w.record.Some? && RowDescribes(digest, w.record.value, path, base)
    ensures local.Present? && remote.Absent? && w.local[path].bytes != base ==>
              (DecidePath(path, local, remote, w.record, settings) == Act(DeleteLocal) <==>
               remote.confirmed && !settings.keepPresent && LooksUnchanged(local.entity, w.record.value))
    ensures remote.Present? && local.Absent? && w.remote[path].bytes != base ==>
              (DecidePath(path, local, remote, w.record, settings) == Act(DeleteRemote) <==>
               !settings.keepPresent && RemoteLooksUnchanged(remote.entity, w.record.value))
  {
    if local.Present? && w.local[path].bytes != base {
      EditIsDetected(digest, path, local.entity, w.local[path], w.record.value, base);
    }
    if remote.Present? && w.remote[path].bytes != base {
      EditIsDetected(digest, path, remote.entity, w.remote[path], w.record.value, base);
    }
  }

  /** One byte for another, under the time and size of the row: the deletion of the other side takes the edit. */
  lemma UnseenEditDeleted(digest: (string, Bytes) -> string)
    ensures var w := World(map["a" := File([1], 5, "")], map[], Some(SyncRecord("a", "", 5, 7, 1, 1, None, "id", 0)));
            var local, remote := Present(FileEntity("a", None, false, 1, 5, "", None)), Absent(true);
            && Shows(digest, local, w.local, "a") && Shows(digest, remote, w.remote, "a")
            && RowDescribes(digest, w.record.value, "a", [2]) && w.local["a"].bytes != [2]
            && DecidePath("a", local, remote, w.record, Settings(false, Duplicate, false)) == Act(DeleteLocal)
  {
    var bytes, base: Bytes := [1], [2];
    assert |bytes| == 1 && |base| == 1 && bytes[0] != base[0];
  }

  // ---------------------------------------------------------------- the executor

  /** The two filesystems and the row, written step by step. */
  class Endpoints {
    var local: map<string, File>
    var remote: map<string, File>
    var record: Option<SyncRecord>

    ghost function View(): World
      reads this
    {
      World(local, remote, record)
    }

    method WriteBoth(path: string, bytes: Bytes, env: Env, id: string)
      modifies this`local, this`remote
      ensures View() == BothWritten(old(View()), path, bytes, env, id)
    {
      local := Written(local, path, bytes, env.localMtime, id);
      remote := Written(remote, path, bytes, env.remoteMtime, id);
    }

    /** Resolve from captured versions, preserve, then write the target on both sides. */
    method ExecuteConflict(path: string, policy: Policy, env: Env) returns (ok: bool)
      modifies this`local, this`remote
      ensures ok == Effects(old(View()), path, Resolve(policy), env).Some?
      ensures View() == if ok then Effects(old(View()), path, Resolve(policy), env).value else old(View())
    {
      var resolution := ResolveConflict(policy, FileAt(local, path), FileAt(remote, path), env.merge);
      if resolution.None? {
        return false;
      }
      if resolution.value.copies {
        WriteBoth(env.copyPath, remote[path].bytes, env, env.copyId);
      }
      WriteBoth(path, resolution.value.target, env, env.newId);
      return true;
    }

    method RunActionIO(path: string, kind: Kind, env: Env) returns (ok: bool)
      modifies this`local, this`remote
      ensures ok == Effects(old(View()), path, Act(kind), env).Some?
      ensures View() == if ok then Effects(old(View()), path, Act(kind), env).value else old(View())
    {
      match kind
      case Push =>
        if path !in local { return false; }
        remote := Written(remote, path, local[path].bytes, env.remoteMtime, env.newId);
        return true;
      case Pull =>
        if path !in remote { return false; }
        local := Written(local, path, remote[path].bytes, env.localMtime, env.newId);
        return true;
      case DeleteLocal =>
        local := local - {path};
        return true;
      case DeleteRemote =>
        remote := remote - {path};
        return true;
      case Match => return true;
      case Cleanup => return true;
      case Conflict => return false;
    }

    /** Effects, then the commit of the row. */
    method ExecuteDecision(path: string, d: Decision, env: Env) returns (ok: bool)
      modifies this
      ensures ok == Execute(old(View()), path, d, env).Some?
      ensures ok ==> View() == Execute(old(View()), path, d, env).value
      ensures !ok ==> record == old(record)
    {
      ok := false;
      if d.Act? {
        ok := RunActionIO(path, d.kind, env);
      } else if d.Resolve? {
        ok := ExecuteConflict(path, d.policy, env);
      }
      if !ok {
        return;
      }
      if RemovesRow(d) {
        record := None;
        return;
      }
      var row := BuildSyncRecord(env.seenLocal, env.seenRemote, path, env.syncedAt);
      if row.None? {
        return false;
      }
      record := row;
    }
  }
}
