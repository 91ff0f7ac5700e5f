/** Deciding one address: src/sync/change-compare.ts, src/sync/content-identity.ts, src/sync/decision-engine.ts,
    src/sync/conflict-policy-admission.ts, src/sync/conflict-action-contract.ts and the exact-path rule of
    src/sync/identity-component-decision.ts. */
module AddressDecision {
  import opened Wrappers
  import opened SyncTypes

  // ---------------------------------------------------------------- content identity

  /** A filled hash is SHA-256; otherwise the provider checksum, if there is one. */
  function ContentKey(e: FileEntity): Option<Checksum> {
    if e.hash != "" then Some(Checksum("sha256", e.hash)) else e.remoteChecksum
  }

  predicate SameContent(a: FileEntity, b: FileEntity) {
    ContentKey(a).Some? && ContentKey(b).Some? && ContentKey(a) == ContentKey(b)
  }

  predicate SameSynchronizedContent(local: FileEntity, remote: FileEntity, baseline: Option<SyncRecord>) {
    && local.size == remote.size
    && (SameContent(local, remote) ||
        (remote.hash == "" && baseline.Some? && local.hash != "" && local.hash == baseline.value.hash &&
         local.size == baseline.value.localSize && remote.size == baseline.value.remoteSize &&
         remote.remoteChecksum.Some? && remote.remoteChecksum == baseline.value.remoteChecksum))
  }

  // ---------------------------------------------------------------- change against the baseline

  predicate HasChanged(file: FileEntity, record: SyncRecord) {
    if file.hash != "" && record.hash != "" then file.hash != record.hash
    else if file.mtime > 0 && record.localMtime > 0
         then file.mtime != record.localMtime || file.size != record.localSize
    else true
  }

  predicate ChecksumsComparable(file: FileEntity, record: SyncRecord) {
    file.remoteChecksum.Some? && record.remoteChecksum.Some? &&
      file.remoteChecksum.value.algo == record.remoteChecksum.value.algo
  }

  predicate HasRemoteChanged(file: FileEntity, record: SyncRecord) {
    if ChecksumsComparable(file, record) then file.remoteChecksum != record.remoteChecksum
    else if file.mtime > 0 && record.remoteMtime > 0 then
      if file.mtime == record.remoteMtime && file.size == record.remoteSize then
        file.hash != "" && record.hash != "" && file.hash != record.hash
      else true
    else if file.hash != "" && record.hash != "" then file.hash != record.hash
    else true
  }

  datatype Kind = Push | Pull | Match | DeleteLocal | DeleteRemote | Cleanup | Conflict

  predicate Equal(local: FileEntity, remote: FileEntity) {
    local.size == remote.size && SameContent(local, remote)
  }

  function CompareContent(local: Option<FileEntity>, remote: Option<FileEntity>,
                          prevSync: Option<SyncRecord>): Option<Kind> {
    if prevSync.Some? then
      if local.Some? && remote.Some? then
        var localDiff := HasChanged(local.value, prevSync.value);
        var remoteDiff := HasRemoteChanged(remote.value, prevSync.value);
        if (localDiff || remoteDiff) && Equal(local.value, remote.value) then Some(Match)
        else if localDiff && remoteDiff then Some(Conflict)
        else if localDiff then Some(Push)
        else if remoteDiff then Some(Pull)
        else None
      else if local.Some? then Some(if HasChanged(local.value, prevSync.value) then Conflict else DeleteLocal)
      else if remote.Some? then Some(if HasRemoteChanged(remote.value, prevSync.value) then Conflict else DeleteRemote)
      else Some(Cleanup)
    else if local.Some? && remote.None? then Some(Push)
    else if local.None? && remote.Some? then Some(Pull)
    else if local.Some? && remote.Some? then Some(if Equal(local.value, remote.value) then Match else Conflict)
    else None
  }

  // ---------------------------------------------------------------- conflict policy

  datatype Strategy = AutoMergeStrategy | PreferLocal | Duplicate

  datatype Mode = AutoMerge | LocalWin | Preserve

  datatype Policy = Policy(mode: Mode, strategy: Strategy)

  /** What Admission bound at the address, for a conflict without moves or further occupants. */
  datatype Bound = Bound(path: string, local: Option<FileEntity>, remote: Option<FileEntity>,
                         baseline: Option<SyncRecord>, replacement: bool)

  function CompilePolicy(b: Bound, strategy: Strategy, allowLocalWin: bool): Policy {
    if strategy == AutoMergeStrategy then Policy(AutoMerge, strategy)
    else if strategy == Duplicate then Policy(Preserve, strategy)
    else
      var simple := && allowLocalWin && b.local.Some? && b.remote.Some? && b.baseline.Some? && !b.replacement
                    && b.baseline.value.hash != "" && b.baseline.value.path == b.path
                    && b.local.value.path == b.path && b.remote.value.path == b.path;
      var proven := simple && b.local.value.hash != "" && b.remote.value.hash != "" &&
                    b.local.value.hash != b.baseline.value.hash && b.remote.value.hash != b.baseline.value.hash &&
                    b.local.value.hash != b.remote.value.hash;
      Policy(if proven then LocalWin else Preserve, strategy)
  }

  /** The executor's own test that local may win; it does not trust the compiler of the policy. */
  predicate HasLocalWinProof(b: Bound) {
    && b.local.Some? && b.remote.Some? && !b.local.value.isDirectory && !b.remote.value.isDirectory
    && b.baseline.Some? && b.baseline.value.hash != ""
    && b.baseline.value.path == b.path && b.local.value.path == b.path && b.remote.value.path == b.path
    && (b.remote.value.identityKey.None? || b.remote.value.identityKey.value == "" ||
        b.baseline.value.remoteIdentityKey == b.remote.value.identityKey.value)
    && b.local.value.hash != "" && b.remote.value.hash != "" && b.local.value.hash != b.baseline.value.hash
    && b.remote.value.hash != b.baseline.value.hash && b.local.value.hash != b.remote.value.hash
  }

  predicate IsConflictExecutionPolicy(p: Policy) {
    match p.mode
    case AutoMerge => p.strategy == AutoMergeStrategy
    case LocalWin => p.strategy == PreferLocal
    case Preserve => true
  }

  /** conflictContractViolation for a same-path conflict. */
  predicate ViolatesContract(b: Bound, p: Policy) {
    || !IsConflictExecutionPolicy(p)
    || (p.mode == Preserve && p.strategy == AutoMergeStrategy)
    || (p.mode == LocalWin && !HasLocalWinProof(b))
  }

  // ---------------------------------------------------------------- the exact-path rule

  /** What one side showed at the address; `confirmed` is the provider's own report of a deletion. */
  datatype Seen = Present(entity: FileEntity) | Absent(confirmed: bool) | NotObserved

  function EntityOf(s: Seen): Option<FileEntity> {
    if s.Present? then Some(s.entity) else None
  }

  /** `keepPresent` is the capability that never propagates a deletion. */
  datatype Settings = Settings(keepPresent: bool, strategy: Strategy, allowLocalWin: bool)

  datatype Decision =
    | Nothing
    | Refused
    | Act(kind: Kind)
    | Resolve(policy: Policy)

  predicate IsReplacement(record: Option<SyncRecord>, remote: Seen) {
    && record.Some? && record.value.remoteIdentityKey != ""
    && remote.Present? && remote.entity.identityKey.Some? && remote.entity.identityKey.value != ""
    && record.value.remoteIdentityKey != remote.entity.identityKey.value
  }

  function BindPath(path: string, local: Seen, remote: Seen, record: Option<SyncRecord>, settings: Settings): Bound {
    Bound(path, EntityOf(local), EntityOf(remote),
          if settings.keepPresent && (!local.Present? || !remote.Present?) then None else record,
          IsReplacement(record, remote))
  }

  /** materializeExactPath and materializeFile, for a row that is stored under this address. */
  function DecidePath(path: string, local: Seen, remote: Seen, record: Option<SyncRecord>,
                      settings: Settings): Decision {
    if (local.Present? && local.entity.isDirectory) || (remote.Present? && remote.entity.isDirectory) then Nothing
    else if local.NotObserved? || remote.NotObserved? then Refused
    else
      var b := BindPath(path, local, remote, record, settings);
      var kind := if b.replacement && b.local.Some? && b.remote.Some?
                  then Some(if Equal(b.local.value, b.remote.value) then Match else Conflict)
                  else CompareContent(b.local, b.remote, b.baseline);
      if kind.None? then Nothing
      else if kind == Some(Conflict) then Resolve(CompilePolicy(b, settings.strategy, settings.allowLocalWin))
      else if kind == Some(DeleteLocal) && !(remote.Absent? && remote.confirmed) then Refused
      else Act(kind.value)
  }

  /** The mode of a decided conflict: the strategy's own, save that preferring local wins exactly on the proof that both
      files differ from the row's digest and from each other, at one address and for one object. */
  lemma PolicyExactly(path: string, local: Seen, remote: Seen, record: Option<SyncRecord>, settings: Settings)
    requires local.Present? ==> local.entity.path == path
    requires remote.Present? ==> remote.entity.path == path
    requires record.Some? ==> record.value.path == path && record.value.remoteIdentityKey != ""
    requires DecidePath(path, local, remote, record, settings).Resolve?
    ensures var p := DecidePath(path, local, remote, record, settings).policy;
            && p.strategy == settings.strategy
            && (p.mode == AutoMerge <==> settings.strategy == AutoMergeStrategy)
            && (p.mode == LocalWin <==>
                  && settings.strategy == PreferLocal && settings.allowLocalWin
                  && local.Present? && remote.Present? && record.Some? && !IsReplacement(record, remote)
                  && (var hashes := {local.entity.hash, remote.entity.hash, record.value.hash};
                      "" !in hashes && |hashes| == 3))
  {
    if local.Present? && remote.Present? && record.Some? {
      var l, r, b := local.entity.hash, remote.entity.hash, record.value.hash;
      ThreeApart(l, r, b);
    }
  }

  lemma ThreeApart(a: string, b: string, c: string)
    ensures |{a, b, c}| == 3 <==> a != b && b != c && a != c
  {
    if a == b {
      assert {a, b, c} == {a, c};
    } else if b == c || a == c {
      assert {a, b, c} == {a, b};
    } else {
      assert {a, b, c} - {a} == {b, c} && {b, c} - {b} == {c};
    }
  }

  /** Refused exactly for what was not observed, and for an unchanged local file whose deletion nobody confirmed. */
  lemma RefusedExactly(path: string, local: Seen, remote: Seen, record: Option<SyncRecord>, settings: Settings)
    ensures DecidePath(path, local, remote, record, settings) == Refused <==>
            && !(local.Present? && local.entity.isDirectory) && !(remote.Present? && remote.entity.isDirectory)
            && (local.NotObserved? || remote.NotObserved? ||
                (local.Present? && remote == Absent(false) && record.Some? && !settings.keepPresent &&
                 !HasChanged(local.entity, record.value)))
  {
  }

  /** Every conflict the rule admits passes the executor's contract check. */
  lemma AdmittedConflictPasses(path: string, local: Seen, remote: Seen, record: Option<SyncRecord>, settings: Settings)
    requires record.Some? ==> record.value.remoteIdentityKey != ""
    requires DecidePath(path, local, remote, record, settings).Resolve?
    ensures !ViolatesContract(BindPath(path, local, remote, record, settings),
                              DecidePath(path, local, remote, record, settings).policy)
  {
  }

  /** What the executor's own check proves: auto-merge only for its strategy, and a local-win only for preferring local,
      on three known and different digests at one address and for the row's object. */
  lemma PassedContractMeans(b: Bound, p: Policy)
    requires !ViolatesContract(b, p)
    ensures p.mode == AutoMerge <==> p.strategy == AutoMergeStrategy
    ensures p.mode == LocalWin ==>
              && p.strategy == PreferLocal && b.local.Some? && b.remote.Some? && b.baseline.Some?
              && !b.local.value.isDirectory && !b.remote.value.isDirectory
              && b.local.value.path == b.remote.value.path == b.baseline.value.path == b.path
              && (b.remote.value.identityKey.Some? && b.remote.value.identityKey.value != "" ==>
                    b.baseline.value.remoteIdentityKey == b.remote.value.identityKey.value)
              && (var hashes := {b.local.value.hash, b.remote.value.hash, b.baseline.value.hash};
                  "" !in hashes && |hashes| == 3)
  {
    if p.mode == LocalWin {
      ThreeApart(b.local.value.hash, b.remote.value.hash, b.baseline.value.hash);
    }
  }

  /** Deletions are offered only for an unchanged file, and a local one only on the provider's own word. */
  lemma DeletionsAreProven(path: string, local: Seen, remote: Seen, record: Option<SyncRecord>, settings: Settings)
    ensures DecidePath(path, local, remote, record, settings) == Act(DeleteLocal) <==>
            && local.Present? && !local.entity.isDirectory && remote.Absent? && remote.confirmed
            && !settings.keepPresent && record.Some? && !HasChanged(local.entity, record.value)
    ensures DecidePath(path, local, remote, record, settings) == Act(DeleteRemote) <==>
            && remote.Present? && !remote.entity.isDirectory && local.Absent?
            && !settings.keepPresent && record.Some? && !HasRemoteChanged(remote.entity, record.value)
  {
  }
}
