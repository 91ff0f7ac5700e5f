/** What an executed decision destroys: src/sync/conflict-resolver.ts and src/sync/plan-executor.ts, for one address. */
module Survival {
  import opened SyncTypes
  import opened Wrappers
  import opened AddressDecision
  import opened AddressExecution
  import opened MergeHunks
  import opened ThreeWay

  ghost predicate Survives(w: World, c: Bytes) {
    || (exists p | p in w.local :: w.local[p].bytes == c)
    || (exists p | p in w.remote :: w.remote[p].bytes == c)
  }

  lemma SurvivesAt(w: World, p: string)
    ensures p in w.local ==> Survives(w, w.local[p].bytes)
    ensures p in w.remote ==> Survives(w, w.remote[p].bytes)
  {
  }

  /** Preserve mode keeps every version, at the address or in the copy; a rejected merge does too. */
  lemma PreserveKeepsEveryVersion(w: World, path: string, policy: Policy, env: Env, side: Side)
    requires env.copyPath != path && env.copyPath !in w.local && env.copyPath !in w.remote
    requires policy.mode == Preserve || (policy.mode == AutoMerge && env.merge.Some? && env.merge.value.rejected)
    requires if side.LocalSide? then path in w.local else path in w.remote
    ensures var t := Effects(w, path, Resolve(policy), env);
            t.Some? && Survives(t.value, if side.LocalSide? then w.local[path].bytes else w.remote[path].bytes)
  {
    var t := Effects(w, path, Resolve(policy), env).value;
    SurvivesAt(t, path);
    SurvivesAt(t, env.copyPath);
  }

  /** A loss without a conflict is the baseline's content, or an edit that looked unchanged. */
  ghost predicate ExcusedLocal(local: Seen, record: Option<SyncRecord>, base: Bytes, c: Bytes) {
    record.Some? && local.Present? && (c == base || LooksUnchanged(local.entity, record.value))
  }

  ghost predicate ExcusedRemote(remote: Seen, record: Option<SyncRecord>, base: Bytes, c: Bytes) {
    record.Some? && remote.Present? && (c == base || RemoteLooksUnchanged(remote.entity, record.value))
  }

  /** Which decisions leave a side's own version standing. */
  lemma UntouchedSurvives(w: World, path: string, d: Decision, env: Env)
    requires Execute(w, path, d, env).Some? && env.copyPath != path
    ensures path in w.local && d.Act? && d != Act(Pull) && d != Act(DeleteLocal) ==>
              Survives(Execute(w, path, d, env).value, w.local[path].bytes)
    ensures path in w.remote && d.Act? && d != Act(Push) && d != Act(DeleteRemote) ==>
              Survives(Execute(w, path, d, env).value, w.remote[path].bytes)
  {
    SurvivesAt(Execute(w, path, d, env).value, path);
  }

  // ---------------------------------------------------------------- what a conflict destroys

  /** The content stands at another address too, on either side. */
  ghost predicate Elsewhere(w: World, path: string, c: Bytes) {
    || (exists p | p in w.local && p != path :: w.local[p].bytes == c)
    || (exists p | p in w.remote && p != path :: w.remote[p].bytes == c)
  }

  ghost predicate Undone(w: World, path: string, env: Env) {
    env.copyPath != path && env.copyPath !in w.local && env.copyPath !in w.remote
  }

  /** Auto-merge gives up the local version for a merge that is not it, or for a remote file known to be newer. */
  predicate LosesLocal(policy: Policy, local: File, remote: File, merge: Option<Merge>) {
    policy.mode == AutoMerge &&
    if merge.Some? then !merge.value.rejected && merge.value.content != local.bytes
    else 0 < local.mtime < remote.mtime && local.bytes != remote.bytes
  }

  /** The remote version goes to a proven local-win, to a merge that is not it, or to a local file known to be newer. */
  predicate LosesRemote(policy: Policy, local: File, remote: File, merge: Option<Merge>) {
    || (policy.mode == LocalWin && local.bytes != remote.bytes)
    || (policy.mode == AutoMerge &&
        if merge.Some? then !merge.value.rejected && merge.value.content != remote.bytes
        else local.mtime > remote.mtime > 0 && local.bytes != remote.bytes)
  }

  /** A write to both sides leaves what stands elsewhere, and what it wrote. */
  lemma SurvivesWrite(w: World, path: string, bytes: Bytes, env: Env, id: string, c: Bytes)
    ensures Survives(BothWritten(w, path, bytes, env, id), c) <==> Elsewhere(w, path, c) || c == bytes
  {
    var t := BothWritten(w, path, bytes, env, id);
    SurvivesAt(t, path);
    assert forall p | p != path :: (p in w.local <==> p in t.local) && (p in w.local ==> t.local[p] == w.local[p]);
    assert forall p | p != path :: (p in w.remote <==> p in t.remote) && (p in w.remote ==> t.remote[p] == w.remote[p]);
  }

  /** The copy stands at an address of its own. */
  lemma ElsewhereCopied(w: World, path: string, bytes: Bytes, env: Env, c: Bytes)
    requires Undone(w, path, env)
    ensures Elsewhere(BothWritten(w, env.copyPath, bytes, env, env.copyId), path, c) <==>
            Elsewhere(w, path, c) || c == bytes
  {
    var t, q := BothWritten(w, env.copyPath, bytes, env, env.copyId), env.copyPath;
    assert q in t.local && t.local[q].bytes == bytes;
    assert forall p | p != q :: (p in w.local <==> p in t.local) && (p in w.local ==> t.local[p] == w.local[p]);
    assert forall p | p != q :: (p in w.remote <==> p in t.remote) && (p in w.remote ==> t.remote[p] == w.remote[p]);
  }

  /** What survives a resolved conflict: what stood elsewhere, the target, and the remote version if it was copied. */
  lemma ResolvedSurvivors(w: World, path: string, policy: Policy, env: Env, c: Bytes)
    requires path in w.local && path in w.remote && Undone(w, path, env)
    ensures var r := ResolveConflict(policy, Some(w.local[path]), Some(w.remote[path]), env.merge);
            var t := Effects(w, path, Resolve(policy), env);
            && r.Some? && t.Some?
            && (Survives(t.value, c) <==>
                  Elsewhere(w, path, c) || c == r.value.target || (r.value.copies && c == w.remote[path].bytes))
  {
    var resolution := ResolveConflict(policy, Some(w.local[path]), Some(w.remote[path]), env.merge).value;
    var copied := if resolution.copies then BothWritten(w, env.copyPath, w.remote[path].bytes, env, env.copyId) else w;
    SurvivesWrite(copied, path, resolution.target, env, env.newId, c);
    ElsewhereCopied(w, path, w.remote[path].bytes, env, c);
  }

  /** Exactly which of two conflicting versions is gone, for every policy and every merge. */
  lemma ConflictLoss(w: World, path: string, policy: Policy, env: Env)
    requires path in w.local && path in w.remote && Undone(w, path, env)
    ensures var l, r := w.local[path], w.remote[path];
            var t := Effects(w, path, Resolve(policy), env);
            && t.Some?
            && (Survives(t.value, l.bytes) <==> Elsewhere(w, path, l.bytes) || !LosesLocal(policy, l, r, env.merge))
            && (Survives(t.value, r.bytes) <==> Elsewhere(w, path, r.bytes) || !LosesRemote(policy, l, r, env.merge))
  {
    ResolvedSurvivors(w, path, policy, env, w.local[path].bytes);
    ResolvedSurvivors(w, path, policy, env, w.remote[path].bytes);
  }

  /** With one side gone nothing is lost: its version is what both sides get. */
  lemma LoneVersionKept(w: World, path: string, policy: Policy, env: Env)
    requires path in w.local <==> path !in w.remote
    requires path in w.remote ==> policy.mode != LocalWin
    ensures var t := Effects(w, path, Resolve(policy), env);
            t.Some? && Survives(t.value, if path in w.local then w.local[path].bytes else w.remote[path].bytes)
  {
    SurvivesAt(Effects(w, path, Resolve(policy), env).value, path);
  }

  // ---------------------------------------------------------------- the merge of a conflict

  /** Text decoding and encoding; whether the file is a structured one, and which contents are valid for it. */
  datatype Codec = Codec(lines: Bytes -> seq<Line>, bytes: seq<Line> -> Bytes, structured: bool, valid: Bytes -> bool)

  /** The merge is threeWayMerge's of the stored base and the two versions; of a structured file, one with markers or
      without valid content is rejected. */
  ghost predicate IsThreeWay(k: Codec, base: Bytes, local: Bytes, remote: Bytes, localHunks: seq<Hunk>,
                             remoteHunks: seq<Hunk>, merge: Merge) {
    var merged := Merged(k.lines(base), k.lines(local), k.lines(remote), localHunks, remoteHunks);
    && IsDiff(k.lines(base), k.lines(local), localHunks) && IsDiff(k.lines(base), k.lines(remote), remoteHunks)
    && (merged.Some? ==> merge.content == k.bytes(merged.value)) && (merge.marked <==> merged.None?)
    && (merge.rejected <==> k.structured && (merge.marked || !k.valid(merge.content)))
  }

  lemma AcceptedTarget(w: World, path: string, policy: Policy, env: Env)
    requires path in w.local && path in w.remote && Undone(w, path, env)
    requires policy.mode == AutoMerge && env.merge.Some? && !env.merge.value.rejected
    ensures var t := Effects(w, path, Resolve(policy), env);
            && t.Some? && path in t.value.local && path in t.value.remote
            && t.value.local[path].bytes == t.value.remote[path].bytes == env.merge.value.content
  {
  }

  /** What replaces the two versions when auto-merge accepts a merge without overlaps: both sides hold each version with
      the other's edits applied to it. */
  lemma MergeKeepsBothEdits(k: Codec, w: World, path: string, policy: Policy, env: Env, base: Bytes,
                            localHunks: seq<Hunk>, remoteHunks: seq<Hunk>)
    requires path in w.local && path in w.remote && Undone(w, path, env)
    requires policy.mode == AutoMerge && env.merge.Some? && !env.merge.value.rejected
    requires IsThreeWay(k, base, w.local[path].bytes, w.remote[path].bytes, localHunks, remoteHunks, env.merge.value)
    requires Disjoint(localHunks, remoteHunks)
    requires Differ(k.lines(base), k.lines(w.local[path].bytes), k.lines(w.remote[path].bytes))
    ensures var l, r := k.lines(w.local[path].bytes), k.lines(w.remote[path].bytes);
            var t := Effects(w, path, Resolve(policy), env);
            && t.Some? && path in t.value.local && path in t.value.remote
            && InRange(l, Rebase(localHunks, remoteHunks, 0)) && Ordered(Rebase(localHunks, remoteHunks, 0))
            && InRange(r, Rebase(remoteHunks, localHunks, 0)) && Ordered(Rebase(remoteHunks, localHunks, 0))
            && t.value.local[path].bytes == t.value.remote[path].bytes
            && t.value.local[path].bytes == k.bytes(Patch(l, Rebase(localHunks, remoteHunks, 0), 0))
            && t.value.local[path].bytes == k.bytes(Patch(r, Rebase(remoteHunks, localHunks, 0), 0))
  {
    AcceptedTarget(w, path, policy, env);
    DisjointMerge(k.lines(base), k.lines(w.local[path].bytes), k.lines(w.remote[path].bytes), localHunks, remoteHunks);
  }

  /** What auto-merge makes of two edits with a stored base. Contested lines are never a clean merge: the result is
      reported with markers, or of a structured file refused, and then both versions are kept. One that is not contested
      is reported clean, and where one side changed nothing it is the other side's text. */
  lemma ContestIsReported(k: Codec, w: World, path: string, policy: Policy, env: Env, base: Bytes,
                          localHunks: seq<Hunk>, remoteHunks: seq<Hunk>)
    requires path in w.local && path in w.remote && Undone(w, path, env)
    requires policy.mode == AutoMerge && env.merge.Some?
    requires IsThreeWay(k, base, w.local[path].bytes, w.remote[path].bytes, localHunks, remoteHunks, env.merge.value)
    ensures var l, r := w.local[path], w.remote[path];
            var resolution := ResolveConflict(policy, Some(l), Some(r), env.merge);
            var contested := Differ(k.lines(base), k.lines(l.bytes), k.lines(r.bytes)) &&
                             Contested(localHunks, remoteHunks);
            && resolution.Some?
            && (resolution.value.marked <==> contested && !k.structured)
            && (contested && k.structured ==>
                  var t := Effects(w, path, Resolve(policy), env);
                  t.Some? && Survives(t.value, l.bytes) && Survives(t.value, r.bytes))
            && (!env.merge.value.rejected && k.lines(l.bytes) == k.lines(base) ==>
                  resolution.value.target == k.bytes(k.lines(r.bytes)))
            && (!env.merge.value.rejected && k.lines(r.bytes) == k.lines(base) ==>
                  resolution.value.target == k.bytes(k.lines(l.bytes)))
  {
    MergedExactly(k.lines(base), k.lines(w.local[path].bytes), k.lines(w.remote[path].bytes), localHunks, remoteHunks);
    if env.merge.value.rejected {
      PreserveKeepsEveryVersion(w, path, policy, env, LocalSide);
      PreserveKeepsEveryVersion(w, path, policy, env, RemoteSide);
    }
  }

  // ---------------------------------------------------------------- every decision

  /** Whatever is destroyed is the baseline's content, an edit that looked unchanged, or exactly what the conflict's
      policy gives up. */
  lemma NothingElseIsDestroyed(digest: (string, Bytes) -> string, w: World, path: string, local: Seen, remote: Seen,
                               settings: Settings, env: Env, base: Bytes)
    requires Digests(digest) && Shows(digest, local, w.local, path) && Shows(digest, remote, w.remote, path)
    requires w.record.Some? ==> RowDescribes(digest, w.record.value, path, base)
    requires var d := DecidePath(path, local, remote, w.record, settings);
             !d.Nothing? && !d.Refused? && Undisturbed(digest, w, path, d, env)
    ensures var d := DecidePath(path, local, remote, w.record, settings);
            var t := Execute(w, path, d, env);
            && t.Some?
            && (path in w.local ==> var l := w.local[path];
                  || Survives(t.value, l.bytes)
                  || (d.Act? && ExcusedLocal(local, w.record, base, l.bytes))
                  || (d.Resolve? && path in w.remote && LosesLocal(d.policy, l, w.remote[path], env.merge)))
            && (path in w.remote ==> var r := w.remote[path];
                  || Survives(t.value, r.bytes)
                  || (d.Act? && ExcusedRemote(remote, w.record, base, r.bytes))
                  || (d.Resolve? && path in w.local && LosesRemote(d.policy, w.local[path], r, env.merge)))
  {
    var d := DecidePath(path, local, remote, w.record, settings);
    Converges(digest, w, path, local, remote, settings, env);
    if d.Act? {
      ActDestroys(digest, w, path, local, remote, settings, env, base);
    } else {
      RowDoesNotMatter(Effects(w, path, d, env).value, Execute(w, path, d, env).value);
      if path in w.local && path in w.remote {
        ConflictLoss(w, path, d.policy, env);
      } else {
        LoneVersionKept(w, path, d.policy, env);
      }
    }
  }

  lemma ActDestroys(digest: (string, Bytes) -> string, w: World, path: string, local: Seen, remote: Seen,
                    settings: Settings, env: Env, base: Bytes)
    requires Digests(digest) && Shows(digest, local, w.local, path) && Shows(digest, remote, w.remote, path)
    requires w.record.Some? ==> RowDescribes(digest, w.record.value, path, base)
    requires var d := DecidePath(path, local, remote, w.record, settings);
             d.Act? && Undisturbed(digest, w, path, d, env) && Execute(w, path, d, env).Some?
    ensures var d := DecidePath(path, local, remote, w.record, settings);
            var t := Execute(w, path, d, env).value;
            && (path in w.local ==>
                  Survives(t, w.local[path].bytes) || ExcusedLocal(local, w.record, base, w.local[path].bytes))
            && (path in w.remote ==>
                  Survives(t, w.remote[path].bytes) || ExcusedRemote(remote, w.record, base, w.remote[path].bytes))
  {
    UntouchedSurvives(w, path, DecidePath(path, local, remote, w.record, settings), env);
    if w.record.Some? && local.Present? && w.local[path].bytes != base {
      EditIsDetected(digest, path, local.entity, w.local[path], w.record.value, base);
    }
    if w.record.Some? && remote.Present? && w.remote[path].bytes != base {
      EditIsDetected(digest, path, remote.entity, w.remote[path], w.record.value, base);
    }
  }

  /** A local-win conflict is decided only with the executor's own proof. */
  lemma LocalWinIsProven(path: string, local: Seen, remote: Seen, record: Option<SyncRecord>, settings: Settings)
    requires record.Some? ==> record.value.remoteIdentityKey != ""
    requires var d := DecidePath(path, local, remote, record, settings); d.Resolve? && d.policy.mode == LocalWin
    ensures HasLocalWinProof(BindPath(path, local, remote, record, settings))
  {
    AdmittedConflictPasses(path, local, remote, record, settings);
  }

  lemma RowDoesNotMatter(w: World, t: World)
    requires t == w.(record := t.record)
    ensures forall c: Bytes :: Survives(w, c) <==> Survives(t, c)
  {
  }
}
