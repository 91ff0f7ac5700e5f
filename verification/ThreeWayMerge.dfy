/** The whole merge of three texts: threeWayMerge of src/sync/merge.ts. */
module ThreeWay {
  import opened Wrappers
  import opened MergeHunks
  import opened SharedHunks

  /** What the difference library promises: in-range, separated hunks that turn `a` into `b`. */
  ghost predicate IsDiff(a: seq<Line>, b: seq<Line>, hunks: seq<Hunk>) {
    InRange(a, hunks) && Separated(hunks) && Ordered(hunks) && Patch(a, hunks, 0) == b
  }

  /** All three texts differ, so the hunks are looked at. */
  predicate Differ(base: seq<Line>, local: seq<Line>, remote: seq<Line>) {
    base != local && base != remote && local != remote
  }

  /** The outcome on lines; `None` is the outcome with conflict markers. */
  function Merged(base: seq<Line>, local: seq<Line>, remote: seq<Line>,
                  localHunks: seq<Hunk>, remoteHunks: seq<Hunk>): Option<seq<Line>> {
    if base == local then Some(remote)
    else if base == remote || local == remote then Some(local)
    else if HasConflict(localHunks, remoteHunks) then None
    else Some(SpliceAll(base, SortDescending(localHunks + remoteHunks)))
  }

  method ThreeWayMerge(base: seq<Line>, local: seq<Line>, remote: seq<Line>,
                       localHunks: seq<Hunk>, remoteHunks: seq<Hunk>) returns (merged: Option<seq<Line>>)
    ensures merged == Merged(base, local, remote, localHunks, remoteHunks)
  {
    if base == local {
      return Some(remote);
    }
    if base == remote || local == remote {
      return Some(local);
    }
    if HasConflict(localHunks, remoteHunks) {
      return None;
    }
    var result := ApplyHunks(base, localHunks, remoteHunks);
    merged := Some(result);
  }

  /** The hunk replaces the base line at `i`, or stands before it. */
  predicate ClaimsLine(h: Hunk, i: nat) {
    h.start <= i < h.start + h.len || (h.len == 0 && i == h.start)
  }

  /** Two ranges overlap exactly when they claim a line together. */
  lemma OverlapIsShared(a: Hunk, b: Hunk)
    ensures RangesOverlap(a, b) <==> exists i: nat :: ClaimsLine(a, i) && ClaimsLine(b, i)
  {
    if RangesOverlap(a, b) {
      var i := if a.start < b.start then b.start else a.start;
      assert ClaimsLine(a, i) && ClaimsLine(b, i);
    }
  }

  /** Both sides claim some base line, with different hunks. */
  ghost predicate Contested(localHunks: seq<Hunk>, remoteHunks: seq<Hunk>) {
    exists l, r, i: nat :: l in localHunks && r in remoteHunks && l != r && ClaimsLine(l, i) && ClaimsLine(r, i)
  }

  /** A merge ends in conflict markers if and only if all three texts differ and some base line is contested; a side
      that changed nothing yields the other side's text, and equal sides yield theirs. */
  lemma MergedExactly(base: seq<Line>, local: seq<Line>, remote: seq<Line>, localHunks: seq<Hunk>,
                      remoteHunks: seq<Hunk>)
    ensures var merged := Merged(base, local, remote, localHunks, remoteHunks);
            && (merged.None? <==>
                  && base != local && base != remote && local != remote
                  && Contested(localHunks, remoteHunks))
            && (local == base ==> merged == Some(remote))
            && (remote == base ==> merged == Some(local))
            && (local == remote ==> merged == Some(local))
  {
    if HasConflict(localHunks, remoteHunks) {
      var l, r :| l in localHunks && r in remoteHunks && RangesOverlap(l, r) && l != r;
      OverlapIsShared(l, r);
      assert Contested(localHunks, remoteHunks);
    }
    if Contested(localHunks, remoteHunks) {
      var l, r, i: nat :| l in localHunks && r in remoteHunks && l != r && ClaimsLine(l, i) && ClaimsLine(r, i);
      OverlapIsShared(l, r);
    }
  }

  /** Without an overlap the merge is each side's text with the other side's edits re-addressed onto it. */
  lemma DisjointMerge(base: seq<Line>, local: seq<Line>, remote: seq<Line>, localHunks: seq<Hunk>,
                      remoteHunks: seq<Hunk>)
    requires IsDiff(base, local, localHunks) && IsDiff(base, remote, remoteHunks)
    requires Differ(base, local, remote) && Disjoint(localHunks, remoteHunks)
    ensures Agrees(base, localHunks, Union(localHunks, remoteHunks), Rebase(localHunks, remoteHunks, 0), 0)
    ensures Agrees(base, remoteHunks, Union(localHunks, remoteHunks), Rebase(remoteHunks, localHunks, 0), 0)
    ensures Merged(base, local, remote, localHunks, remoteHunks) ==
            Some(Patch(local, Rebase(localHunks, remoteHunks, 0), 0)) ==
            Some(Patch(remote, Rebase(remoteHunks, localHunks, 0), 0))
  {
    BothSidesRebase(base, localHunks, remoteHunks);
  }

  /** With shared hunks: when a merge without markers is the text both sides asked for. */
  lemma SharedMerge(base: seq<Line>, local: seq<Line>, remote: seq<Line>, localHunks: seq<Hunk>, remoteHunks: seq<Hunk>)
    requires IsDiff(base, local, localHunks) && IsDiff(base, remote, remoteHunks)
    requires Differ(base, local, remote) && !HasConflict(localHunks, remoteHunks)
    ensures Admitted(base, Union(localHunks, remoteHunks))
    ensures var merged := Merged(base, local, remote, localHunks, remoteHunks);
            var intended := Some(Intended(base, Union(localHunks, remoteHunks)));
            && (merged == intended <==> Restored(base, Union(localHunks, remoteHunks)))
            && (Harmless(base, Union(localHunks, remoteHunks)) ==> merged == intended)
            && (Net(Union(localHunks, remoteHunks)) > 0 ==> merged != intended)
            && ((forall h | h in localHunks && h in remoteHunks :: Grows(h)) ==>
                  (merged == intended <==> forall h | h in localHunks && h in remoteHunks :: KeepsCount(h)))
            && ((forall h | h in localHunks && h in remoteHunks :: Shrinks(h)) ==>
                  (merged == intended <==> Harmless(base, Union(localHunks, remoteHunks))))
  {
    SharedHunkMerge(base, localHunks, remoteHunks);
  }

  // ---------------------------------------------------------------- two merges with shared hunks

  /** One hunk more, in front of a list that is a difference from its end on. */
  lemma OneMoreHunk(base: seq<Line>, h: Hunk, rest: seq<Hunk>, from: nat)
    requires from <= h.start && h.End() <= |base| && InRange(base, rest) && Separated(rest) && Ordered(rest)
    requires StartsFrom(rest, h.Reach())
    ensures var all := [h] + rest;
            && InRange(base, all) && Separated(all) && Ordered(all) && StartsFrom(all, from)
            && Patch(base, all, from) == (base[from..h.start] + h.content) + Patch(base, rest, h.End())
            && Respliced(base, all) == Splice(Respliced(base, rest), h)
  {
    assert ([h] + rest)[1..] == rest;
    PatchCons(base, h, rest, from);
  }

  /** Both sides insert the same line and the local side edits another: the merge holds the insertion twice. */
  lemma SharedInsertionDoubled()
    ensures var h, k := Hunk(1, 0, ["x"]), Hunk(2, 1, ["y"]);
            var base, local, remote := ["a", "b", "c"], ["a", "x", "b", "y"], ["a", "x", "b", "c"];
            && IsDiff(base, local, [h, k]) && IsDiff(base, remote, [h]) && Differ(base, local, remote)
            && Merged(base, local, remote, [h, k], [h]) == Some(["a", "x", "x", "b", "y"])
            && Admitted(base, Union([h, k], [h])) && Intended(base, Union([h, k], [h])) == local
  {
    var h, k := Hunk(1, 0, ["x"]), Hunk(2, 1, ["y"]);
    var base := ["a", "b", "c"];
    DoubledTexts(base, h, k);
    LoopOnAdmitted(base, [h, k], [h]);
    SharedUnion(h, k);
    UnionInRange(base, [h, k], [h]);
  }

  lemma DoubledTexts(base: seq<Line>, h: Hunk, k: Hunk)
    requires base == ["a", "b", "c"] && h == Hunk(1, 0, ["x"]) && k == Hunk(2, 1, ["y"])
    ensures IsDiff(base, ["a", "x", "b", "y"], [h, k]) && IsDiff(base, ["a", "x", "b", "c"], [h])
    ensures Respliced(base, [h, h, k]) == ["a", "x", "x", "b", "y"]
    ensures !HasConflict([h, k], [h])
  {
    assert [h, k] == [h] + [k] && [h] == [h] + [] && [k] == [k] + [];
    OneMoreHunk(base, k, [], 1);
    OneMoreHunk(base, h, [], 0);
    OneMoreHunk(base, h, [k], 0);
    assert Patch(base, [k], 1) == ["b", "y"];
    assert [h, h, k][1..] == [h, k];
    assert Respliced(base, [k]) == ["a", "b", "y"];
  }

  lemma SharedUnion(h: Hunk, k: Hunk)
    requires h.start < k.start
    ensures Union([h, k], [h]) == [h, h, k] && Once([h, h, k]) == [h, k]
  {
    assert [h, k][1..] == [k] && [h][1..] == [];
    assert Union([k], [h]) == [h, k];
    assert [h, h, k][1..] == [h, k];
    assert Once([h, k]) == [h] + Once([k]);
  }

  /** A shared deletion takes back the line a shared insertion doubled: with both kinds of hunk the merge can come
      out as intended although neither keeps its line count. */
  lemma MixedListsCancel()
    ensures var s, g, k := Hunk(0, 1, []), Hunk(2, 0, ["x"]), Hunk(4, 1, ["u"]);
            var base := ["a", "x", "q", "r", "t"];
            var local, remote := ["x", "x", "q", "r", "u"], ["x", "x", "q", "r", "t"];
            && IsDiff(base, local, [s, g, k]) && IsDiff(base, remote, [s, g]) && Differ(base, local, remote)
            && !HasConflict([s, g, k], [s, g]) && !KeepsCount(s) && !KeepsCount(g)
            && Admitted(base, Union([s, g, k], [s, g]))
            && Merged(base, local, remote, [s, g, k], [s, g]) == Some(Intended(base, Union([s, g, k], [s, g])))
  {
    var s, g, k := Hunk(0, 1, []), Hunk(2, 0, ["x"]), Hunk(4, 1, ["u"]);
    var base := ["a", "x", "q", "r", "t"];
    MixedLocal(base, s, g, k);
    MixedRemote(base, s, g);
    assert !HasConflict([s, g, k], [s, g]);
    LoopOnAdmitted(base, [s, g, k], [s, g]);
    MixedUnion(s, g, k);
    UnionInRange(base, [s, g, k], [s, g]);
    MixedText(base, s, g, k);
  }

  lemma MixedLocal(base: seq<Line>, s: Hunk, g: Hunk, k: Hunk)
    requires base == ["a", "x", "q", "r", "t"]
    requires s == Hunk(0, 1, []) && g == Hunk(2, 0, ["x"]) && k == Hunk(4, 1, ["u"])
    ensures IsDiff(base, ["x", "x", "q", "r", "u"], [s, g, k])
  {
    assert [s, g, k] == [s] + [g, k] && [g, k] == [g] + [k] && [k] == [k] + [];
    OneMoreHunk(base, k, [], 2);
    assert Patch(base, [k], 2) == ["q", "r", "u"];
    OneMoreHunk(base, g, [k], 1);
    assert Patch(base, [g, k], 1) == ["x", "x", "q", "r", "u"];
    OneMoreHunk(base, s, [g, k], 0);
  }

  lemma MixedRemote(base: seq<Line>, s: Hunk, g: Hunk)
    requires base == ["a", "x", "q", "r", "t"] && s == Hunk(0, 1, []) && g == Hunk(2, 0, ["x"])
    ensures IsDiff(base, ["x", "x", "q", "r", "t"], [s, g])
  {
    assert [s, g] == [s] + [g] && [g] == [g] + [];
    OneMoreHunk(base, g, [], 1);
    assert Patch(base, [g], 1) == ["x", "x", "q", "r", "t"];
    OneMoreHunk(base, s, [g], 0);
  }

  lemma MixedText(base: seq<Line>, s: Hunk, g: Hunk, k: Hunk)
    requires base == ["a", "x", "q", "r", "t"]
    requires s == Hunk(0, 1, []) && g == Hunk(2, 0, ["x"]) && k == Hunk(4, 1, ["u"])
    ensures Respliced(base, [s, s, g, g, k]) == ["x", "x", "q", "r", "u"]
  {
    assert [s, s, g, g, k][1..] == [s, g, g, k] && [s, g, g, k][1..] == [g, g, k] && [g, g, k][1..] == [g, k];
    assert [g, k][1..] == [k] && [k][1..] == [];
    assert Respliced(base, [k]) == ["a", "x", "q", "r", "u"];
    assert Respliced(base, [g, k]) == ["a", "x", "x", "q", "r", "u"];
    assert Respliced(base, [g, g, k]) == ["a", "x", "x", "x", "q", "r", "u"];
    assert Respliced(base, [s, g, g, k]) == ["x", "x", "x", "q", "r", "u"];
  }

  lemma MixedUnion(s: Hunk, g: Hunk, k: Hunk)
    requires s.start < g.start < k.start
    ensures Union([s, g, k], [s, g]) == [s, s, g, g, k] && Once([s, s, g, g, k]) == [s, g, k]
  {
    assert [s, g, k][1..] == [g, k] && [g, k][1..] == [k] && [s, g][1..] == [g] && [g][1..] == [];
    assert Union([k], [g]) == [g, k];
    assert Union([g, k], [g]) == [g, g, k];
    assert Union([g, k], [s, g]) == [s, g, g, k];
    assert [s, s, g, g, k][1..] == [s, g, g, k] && [s, g, g, k][1..] == [g, g, k] && [g, g, k][1..] == [g, k];
    assert Once([g, k]) == [g] + Once([k]);
    assert Once([s, g, g, k]) == [s] + Once([g, g, k]);
  }
}
