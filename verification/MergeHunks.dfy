/** Three-way merge of line hunks by in-place splicing: src/sync/merge.ts. */
module MergeHunks {

  type Line = string

  /** Replace `len` base lines from `start` by `content`. */
  datatype Hunk = Hunk(start: nat, len: nat, content: seq<Line>) {
    function End(): nat { start + len }

    /** An insertion still claims the line it stands before. */
    function Reach(): nat { start + if len == 0 then 1 else len }
  }

  predicate RangesOverlap(a: Hunk, b: Hunk) {
    a.start < b.Reach() && b.start < a.Reach()
  }

  predicate InRange(base: seq<Line>, hunks: seq<Hunk>) {
    hunks == [] || (hunks[0].End() <= |base| && InRange(base, hunks[1..]))
  }

  /** In ascending order, each hunk's range is done before the next begins. */
  predicate Separated(hunks: seq<Hunk>) {
    |hunks| <= 1 || (hunks[0].Reach() <= hunks[1].start && Separated(hunks[1..]))
  }

  /** The weaker order that left-to-right application needs. */
  predicate Ordered(hunks: seq<Hunk>) {
    |hunks| <= 1 || (hunks[0].End() <= hunks[1].start && Ordered(hunks[1..]))
  }

  predicate StartsFrom(hunks: seq<Hunk>, from: nat) {
    hunks == [] || from <= hunks[0].start
  }

  predicate Disjoint(local: seq<Hunk>, remote: seq<Hunk>) {
    forall l, r | l in local && r in remote :: !RangesOverlap(l, r)
  }

  predicate HasConflict(local: seq<Hunk>, remote: seq<Hunk>) {
    exists l, r | l in local && r in remote :: RangesOverlap(l, r) && l != r
  }

  lemma {:induction false} SeparatedIsOrdered(hunks: seq<Hunk>)
    requires Separated(hunks)
    ensures Ordered(hunks)
    ensures hunks != [] ==> forall x | x in hunks[1..] :: hunks[0].Reach() <= x.start
  {
    if |hunks| > 1 {
      SeparatedIsOrdered(hunks[1..]);
      assert forall x | x in hunks[1..] :: x == hunks[1] || x in hunks[1..][1..];
    }
  }

  // ---------------------------------------------------------------- the left-to-right meaning

  /** The text from base line `from` on, after the hunks are applied left to right. */
  function Patch(base: seq<Line>, hunks: seq<Hunk>, from: nat): seq<Line>
    requires from <= |base| && InRange(base, hunks) && Ordered(hunks) && StartsFrom(hunks, from)
  {
    if hunks == [] then base[from..]
    else base[from..hunks[0].start] + (hunks[0].content + Patch(base, hunks[1..], hunks[0].End()))
  }

  /** Both sides' hunks in ascending order. */
  function Union(local: seq<Hunk>, remote: seq<Hunk>): seq<Hunk>
    decreases |local| + |remote|
  {
    if local == [] then remote
    else if remote == [] then local
    else if remote[0].start < local[0].start then [remote[0]] + Union(local, remote[1..])
    else [local[0]] + Union(local[1..], remote)
  }

  // ---------------------------------------------------------------- the in-place loop

  function Min(a: nat, b: nat): nat { if a < b then a else b }

  /** `Array.splice`, which clamps both the position and the count. */
  function Splice(s: seq<Line>, h: Hunk): seq<Line> {
    s[..Min(h.start, |s|)] + (h.content + s[Min(h.End(), |s|)..])
  }

  /** Insert after every hunk that starts no earlier, which keeps equal starts in their order. */
  function Insert(h: Hunk, sorted: seq<Hunk>): seq<Hunk> {
    if sorted == [] || sorted[0].start < h.start then [h] + sorted
    else [sorted[0]] + Insert(h, sorted[1..])
  }

  /** `sort((a, b) => b.baseStart - a.baseStart)`, which is stable. */
  function SortDescending(hunks: seq<Hunk>): seq<Hunk> {
    if hunks == [] then [] else Insert(hunks[|hunks| - 1], SortDescending(hunks[..|hunks| - 1]))
  }

  function SpliceAll(s: seq<Line>, hunks: seq<Hunk>): seq<Line>
    decreases |hunks|
  {
    if hunks == [] then s else SpliceAll(Splice(s, hunks[0]), hunks[1..])
  }

  /** The splice loop over both sides' hunks. */
  method ApplyHunks(base: seq<Line>, local: seq<Hunk>, remote: seq<Hunk>) returns (result: seq<Line>)
    ensures result == SpliceAll(base, SortDescending(local + remote))
  {
    var allHunks := SortDescending(local + remote);
    result := base;
    for i := 0 to |allHunks|
      invariant SpliceAll(result, allHunks[i..]) == SpliceAll(base, allHunks)
    {
      assert allHunks[i..][0] == allHunks[i] && allHunks[i..][1..] == allHunks[i + 1..];
      result := Splice(result, allHunks[i]);
    }
  }

  // ---------------------------------------------------------------- the sorted list

  lemma HeadBag(hunks: seq<Hunk>)
    requires hunks != []
    ensures multiset(hunks) == multiset([hunks[0]]) + multiset(hunks[1..])
  {
    assert hunks == [hunks[0]] + hunks[1..];
  }

  lemma {:induction false} UnionBag(local: seq<Hunk>, remote: seq<Hunk>)
    ensures multiset(Union(local, remote)) == multiset(local) + multiset(remote)
    decreases |local| + |remote|
  {
    if local != [] && remote != [] {
      HeadBag(Union(local, remote));
      if remote[0].start < local[0].start {
        HeadBag(remote);
        UnionBag(local, remote[1..]);
        assert Union(local, remote)[1..] == Union(local, remote[1..]);
      } else {
        HeadBag(local);
        UnionBag(local[1..], remote);
        assert Union(local, remote)[1..] == Union(local[1..], remote);
      }
    }
  }

  lemma {:induction false} UnionSeparated(local: seq<Hunk>, remote: seq<Hunk>)
    requires Separated(local) && Separated(remote) && Disjoint(local, remote)
    ensures Separated(Union(local, remote))
    decreases |local| + |remote|
  {
    if local != [] && remote != [] {
      assert !RangesOverlap(local[0], remote[0]);
      if remote[0].start < local[0].start {
        assert forall r | r in remote[1..] :: r in remote;
        UnionSeparated(local, remote[1..]);
        assert Union(local, remote)[1..] == Union(local, remote[1..]);
      } else {
        assert forall l | l in local[1..] :: l in local;
        UnionSeparated(local[1..], remote);
        assert Union(local, remote)[1..] == Union(local[1..], remote);
      }
    }
  }

  lemma {:induction false} UnionInRange(base: seq<Line>, local: seq<Hunk>, remote: seq<Hunk>)
    requires InRange(base, local) && InRange(base, remote)
    ensures InRange(base, Union(local, remote))
    decreases |local| + |remote|
  {
    if local != [] && remote != [] {
      if remote[0].start < local[0].start {
        UnionInRange(base, local, remote[1..]);
        assert Union(local, remote)[1..] == Union(local, remote[1..]);
      } else {
        UnionInRange(base, local[1..], remote);
        assert Union(local, remote)[1..] == Union(local[1..], remote);
      }
    }
  }

  lemma {:induction false} InsertBag(h: Hunk, sorted: seq<Hunk>)
    ensures multiset(Insert(h, sorted)) == multiset{h} + multiset(sorted)
  {
    if sorted != [] && sorted[0].start >= h.start {
      InsertBag(h, sorted[1..]);
      HeadBag(sorted);
      assert multiset([sorted[0]] + Insert(h, sorted[1..])) == multiset([sorted[0]]) + multiset(Insert(h, sorted[1..]));
    }
  }

  lemma LastBag(hunks: seq<Hunk>)
    requires hunks != []
    ensures multiset(hunks) == multiset(hunks[..|hunks| - 1]) + multiset([hunks[|hunks| - 1]])
  {
    assert hunks == hunks[..|hunks| - 1] + [hunks[|hunks| - 1]];
  }

  lemma {:induction false} SortBag(hunks: seq<Hunk>)
    ensures multiset(SortDescending(hunks)) == multiset(hunks)
  {
    if hunks != [] {
      var k := |hunks| - 1;
      SortBag(hunks[..k]);
      InsertBag(hunks[k], SortDescending(hunks[..k]));
      LastBag(hunks);
    }
  }

  predicate Descending(hunks: seq<Hunk>) {
    |hunks| <= 1 || (hunks[0].start >= hunks[1].start && Descending(hunks[1..]))
  }

  lemma {:induction false} InsertKeepsDescending(h: Hunk, sorted: seq<Hunk>)
    requires Descending(sorted)
    ensures Descending(Insert(h, sorted))
  {
    if sorted != [] && sorted[0].start >= h.start {
      InsertKeepsDescending(h, sorted[1..]);
      assert Insert(h, sorted)[1..] == Insert(h, sorted[1..]);
    } else {
      assert Insert(h, sorted)[1..] == sorted;
    }
  }

  lemma {:induction false} SortIsDescending(hunks: seq<Hunk>)
    ensures Descending(SortDescending(hunks))
  {
    if hunks != [] {
      SortIsDescending(hunks[..|hunks| - 1]);
      InsertKeepsDescending(hunks[|hunks| - 1], SortDescending(hunks[..|hunks| - 1]));
    }
  }

  function Reverse(s: seq<Hunk>): (r: seq<Hunk>)
    ensures |r| == |s|
  {
    if s == [] then [] else Reverse(s[1..]) + [s[0]]
  }

  lemma {:induction false} DescendingLast(b: seq<Hunk>)
    requires Descending(b) && b != []
    ensures Descending(b[..|b| - 1])
    ensures forall x | x in b :: x.start >= b[|b| - 1].start
  {
    if |b| > 1 {
      DescendingLast(b[1..]);
      assert b[1..][..|b| - 2] == b[..|b| - 1][1..];
      assert b[1..][|b| - 2] == b[|b| - 1];
      assert forall x | x in b :: x == b[0] || x in b[1..];
    }
  }

  /** Neighbours are the same hunk or separated, which is what the overlap test admits. */
  predicate NearSeparated(hunks: seq<Hunk>) {
    |hunks| <= 1 || ((hunks[0] == hunks[1] || hunks[0].Reach() <= hunks[1].start) && NearSeparated(hunks[1..]))
  }

  lemma {:induction false} SeparatedIsNear(u: seq<Hunk>)
    requires Separated(u)
    ensures NearSeparated(u)
  {
    if |u| > 1 {
      SeparatedIsNear(u[1..]);
    }
  }

  lemma BagWithoutEnd(a: seq<Hunk>, b: seq<Hunk>)
    requires a != [] && b != [] && multiset(a) == multiset(b) && a[0] == b[|b| - 1]
    ensures multiset(a[1..]) == multiset(b[..|b| - 1])
  {
    assert a == [a[0]] + a[1..];
    assert b == b[..|b| - 1] + [b[|b| - 1]];
    assert multiset(a[1..]) == multiset(a) - multiset{a[0]};
  }

  lemma {:induction false} NearSeparatedTail(u: seq<Hunk>)
    requires NearSeparated(u) && u != []
    ensures forall x | x in u[1..] :: x == u[0] || u[0].Reach() <= x.start
  {
    if |u| > 1 {
      NearSeparatedTail(u[1..]);
      assert forall x | x in u[1..] :: x == u[1] || x in u[1..][1..];
    }
  }

  /** Equal bags of near-separated hunks have one ascending and one descending arrangement. */
  lemma {:induction false} OneArrangement(a: seq<Hunk>, b: seq<Hunk>)
    requires NearSeparated(a) && multiset(a) == multiset(b) && Descending(b)
    ensures b == Reverse(a)
  {
    if a == [] {
      assert |multiset(b)| == 0;
    } else {
      var k := |b| - 1;
      LeastIsLast(a, b);
      BagWithoutEnd(a, b);
      DescendingLast(b);
      OneArrangement(a[1..], b[..k]);
      assert b == b[..k] + [b[k]];
    }
  }

  lemma SameBagMember(a: seq<Hunk>, b: seq<Hunk>, h: Hunk)
    requires multiset(a) == multiset(b)
    ensures h in a <==> h in b
  {
    assert h in multiset(a) <==> h in multiset(b);
  }

  lemma LeastIsLast(a: seq<Hunk>, b: seq<Hunk>)
    requires NearSeparated(a) && multiset(a) == multiset(b) && Descending(b) && a != []
    ensures b != [] && b[|b| - 1] == a[0]
  {
    assert |multiset(a)| == |multiset(b)|;
    SameBagMember(a, b, a[0]);
    SameBagMember(a, b, b[|b| - 1]);
    DescendingLast(b);
    NearSeparatedTail(a);
    assert a == [a[0]] + a[1..];
  }

  lemma SortIsReversedUnion(local: seq<Hunk>, remote: seq<Hunk>)
    requires Separated(local) && Separated(remote) && Disjoint(local, remote)
    ensures Separated(Union(local, remote))
    ensures SortDescending(local + remote) == Reverse(Union(local, remote))
    ensures SortDescending(remote + local) == Reverse(Union(local, remote))
  {
    UnionSeparated(local, remote);
    UnionBag(local, remote);
    assert multiset(local + remote) == multiset(remote + local);
    SortBag(local + remote);
    SortBag(remote + local);
    SortIsDescending(local + remote);
    SortIsDescending(remote + local);
    SeparatedIsNear(Union(local, remote));
    OneArrangement(Union(local, remote), SortDescending(local + remote));
    OneArrangement(Union(local, remote), SortDescending(remote + local));
  }

  // ---------------------------------------------------------------- the loop is the patch of the union

  lemma {:induction false} SpliceAllSnoc(s: seq<Line>, hunks: seq<Hunk>, h: Hunk)
    ensures SpliceAll(s, hunks + [h]) == Splice(SpliceAll(s, hunks), h)
    decreases |hunks|
  {
    if hunks == [] {
      assert SpliceAll(Splice(s, h), []) == Splice(s, h);
    } else {
      SpliceAllSnoc(Splice(s, hunks[0]), hunks[1..], h);
      assert (hunks + [h])[1..] == hunks[1..] + [h];
    }
  }

  lemma Slices(s: seq<Line>, a: nat, b: nat, c: nat)
    requires a <= b <= c <= |s|
    ensures s[a..c] == s[a..b] + s[b..c]
  {
  }

  lemma Regroup(a: seq<Line>, b: seq<Line>, c: seq<Line>)
    ensures (a + b) + c == a + (b + c)
  {
  }

  /** Lines before the first hunk pass through. */
  lemma PatchSplits(base: seq<Line>, hunks: seq<Hunk>, from: nat, to: nat)
    requires from <= to <= |base| && InRange(base, hunks) && Ordered(hunks) && StartsFrom(hunks, to)
    ensures Patch(base, hunks, from) == base[from..to] + Patch(base, hunks, to)
  {
    if hunks == [] {
      Slices(base, from, to, |base|);
      assert base[from..] == base[from..|base|] && base[to..] == base[to..|base|];
    } else {
      var h := hunks[0];
      Slices(base, from, to, h.start);
      Regroup(base[from..to], base[to..h.start], h.content + Patch(base, hunks[1..], h.End()));
    }
  }

  /** Splicing a hunk into a text already patched above it. */
  lemma SpliceOne(base: seq<Line>, hunks: seq<Hunk>)
    requires InRange(base, hunks) && Ordered(hunks) && hunks != []
    ensures Splice(Patch(base, hunks[1..], 0), hunks[0]) == Patch(base, hunks, 0)
  {
    var h, behind := hunks[0], Patch(base, hunks[1..], 0);
    PatchSplits(base, hunks[1..], 0, h.End());
    assert behind[..h.start] == base[..h.start] && behind[h.End()..] == Patch(base, hunks[1..], h.End());
  }

  /** Splicing separated hunks from the last to the first patches the text left to right. */
  lemma {:induction false} SpliceBackwards(base: seq<Line>, hunks: seq<Hunk>)
    requires InRange(base, hunks) && Ordered(hunks)
    ensures SpliceAll(base, Reverse(hunks)) == Patch(base, hunks, 0)
  {
    if hunks == [] {
      assert base[0..] == base;
    } else {
      SpliceBackwards(base, hunks[1..]);
      SpliceAllSnoc(base, Reverse(hunks[1..]), hunks[0]);
      SpliceOne(base, hunks);
    }
  }

  /** The descending splice loop is the left-to-right patch of the union, whichever side is called local. */
  lemma LoopIsPatch(base: seq<Line>, local: seq<Hunk>, remote: seq<Hunk>)
    requires InRange(base, local) && InRange(base, remote)
    requires Separated(local) && Separated(remote) && Disjoint(local, remote)
    ensures InRange(base, Union(local, remote)) && Ordered(Union(local, remote))
    ensures SpliceAll(base, SortDescending(local + remote)) == Patch(base, Union(local, remote), 0)
    ensures SpliceAll(base, SortDescending(remote + local)) == Patch(base, Union(local, remote), 0)
  {
    SortIsReversedUnion(local, remote);
    SeparatedIsOrdered(Union(local, remote));
    UnionInRange(base, local, remote);
    SpliceBackwards(base, Union(local, remote));
  }

  // ---------------------------------------------------------------- the remote edits, on the local text

  /** How far the local hunks before `pos` have moved it. */
  function Drift(local: seq<Hunk>, pos: nat): int {
    if local == [] || local[0].start >= pos then 0
    else |local[0].content| - local[0].len + Drift(local[1..], pos)
  }

  /** One remote hunk at its place in the local text, which starts at base line `from`. */
  function RebaseOne(local: seq<Hunk>, h: Hunk, from: nat): Hunk {
    var at := h.start - from + Drift(local, h.start);
    h.(start := if at < 0 then 0 else at)
  }

  function Rebase(local: seq<Hunk>, remote: seq<Hunk>, from: nat): (r: seq<Hunk>)
    ensures |r| == |remote|
  {
    if remote == [] then [] else [RebaseOne(local, remote[0], from)] + Rebase(local, remote[1..], from)
  }

  function Shifted(hunks: seq<Hunk>, n: nat): seq<Hunk> {
    if hunks == [] then [] else [hunks[0].(start := hunks[0].start + n)] + Shifted(hunks[1..], n)
  }

  /** Local hunks that start before `h` are done before it. */
  ghost predicate Clear(local: seq<Hunk>, h: Hunk) {
    forall l | l in local && l.start < h.start :: l.Reach() <= h.start
  }

  /** The drift never carries a hunk in front of where the local text began. */
  lemma {:induction false} DriftBounded(local: seq<Hunk>, from: nat, h: Hunk)
    requires Separated(local) && StartsFrom(local, from) && from <= h.start && Clear(local, h)
    ensures from <= h.start + Drift(local, h.start)
  {
    if local != [] && local[0].start < h.start {
      assert local[0] in local && forall l | l in local[1..] :: l in local;
      DriftBounded(local[1..], local[0].End(), h);
    }
  }

  /** The two rebases of one hunk lie `n` lines apart. */
  ghost predicate Apart(local: seq<Hunk>, from: nat, local': seq<Hunk>, from': nat, n: nat, h: Hunk) {
    && h.start - from' + Drift(local', h.start) >= 0
    && h.start - from + Drift(local, h.start) == h.start - from' + Drift(local', h.start) + n
  }

  lemma ShiftedCons(h: Hunk, rest: seq<Hunk>, n: nat)
    ensures Shifted([h] + rest, n) == [h.(start := h.start + n)] + Shifted(rest, n)
  {
    assert ([h] + rest)[1..] == rest;
  }

  lemma {:induction false} RebaseMoves(local: seq<Hunk>, from: nat, local': seq<Hunk>, from': nat, remote: seq<Hunk>,
                                       n: nat)
    requires forall h | h in remote :: Apart(local, from, local', from', n, h)
    ensures Rebase(local, remote, from) == Shifted(Rebase(local', remote, from'), n)
  {
    if remote != [] {
      assert Apart(local, from, local', from', n, remote[0]);
      RebaseMoves(local, from, local', from', remote[1..], n);
      ShiftedCons(RebaseOne(local', remote[0], from'), Rebase(local', remote[1..], from'), n);
    }
  }

  lemma SliceBehind(whole: seq<Line>, n: nat, i: nat, j: nat)
    requires n + j <= |whole| && i <= j
    ensures whole[n..][i..j] == whole[n + i..n + j]
    ensures whole[n..][i..] == whole[n + i..]
  {
  }

  /** Hunks of the text behind the first `n` lines, moved by `n`, patch that text in place. */
  lemma {:induction false} ShiftPatch(whole: seq<Line>, n: nat, hunks: seq<Hunk>, k: nat)
    requires n + k <= |whole| && InRange(whole[n..], hunks) && Ordered(hunks) && StartsFrom(hunks, k)
    ensures var s := Shifted(hunks, n);
            && InRange(whole, s) && Ordered(s) && StartsFrom(s, n + k)
            && Patch(whole, s, n + k) == Patch(whole[n..], hunks, k)
    decreases |hunks|
  {
    if hunks == [] {
      SliceBehind(whole, n, k, k);
    } else {
      ShiftPatch(whole, n, hunks[1..], hunks[0].End());
      assert Shifted(hunks, n)[1..] == Shifted(hunks[1..], n);
      ShiftHead(whole, n, hunks, Shifted(hunks, n), k);
    }
  }

  lemma ShiftHead(whole: seq<Line>, n: nat, hunks: seq<Hunk>, s: seq<Hunk>, k: nat)
    requires n + k <= |whole| && InRange(whole[n..], hunks) && Ordered(hunks) && StartsFrom(hunks, k) && hunks != []
    requires InRange(whole, s) && Ordered(s) && StartsFrom(s, n + k) && s != []
    requires s[0] == hunks[0].(start := hunks[0].start + n)
    requires Patch(whole, s[1..], s[0].End()) == Patch(whole[n..], hunks[1..], hunks[0].End())
    ensures Patch(whole, s, n + k) == Patch(whole[n..], hunks, k)
  {
    SliceBehind(whole, n, k, hunks[0].start);
    PatchIs(whole, s, n + k, whole[n + k..s[0].start], Patch(whole, s[1..], s[0].End()));
    PatchIs(whole[n..], hunks, k, whole[n + k..s[0].start], Patch(whole, s[1..], s[0].End()));
  }

  lemma PatchIs(base: seq<Line>, hunks: seq<Hunk>, from: nat, head: seq<Line>, tail: seq<Line>)
    requires from <= |base| && InRange(base, hunks) && Ordered(hunks) && StartsFrom(hunks, from) && hunks != []
    requires base[from..hunks[0].start] == head && Patch(base, hunks[1..], hunks[0].End()) == tail
    ensures Patch(base, hunks, from) == head + (hunks[0].content + tail)
  {
  }

  /** A patched text behind a new front is the front and the patched text. */
  lemma FrontedPatch(front: seq<Line>, text: seq<Line>, tail: seq<Hunk>)
    requires InRange(text, tail) && Ordered(tail)
    ensures var hunks := Shifted(tail, |front|);
            && InRange(front + text, hunks) && Ordered(hunks)
            && Patch(front + text, hunks, 0) == front + Patch(text, tail, 0)
  {
    assert (front + text)[|front|..] == text;
    ShiftPatch(front + text, |front|, tail, 0);
    PatchSplits(front + text, Shifted(tail, |front|), 0, |front|);
    assert (front + text)[0..|front|] == front;
  }

  /** One more merged hunk puts the untouched lines and its content in front. */
  lemma PatchCons(base: seq<Line>, l: Hunk, merged: seq<Hunk>, from: nat)
    requires from <= l.start && l.End() <= |base|
    requires InRange(base, merged) && Ordered(merged) && StartsFrom(merged, l.End())
    ensures Ordered([l] + merged) && InRange(base, [l] + merged)
    ensures Patch(base, [l] + merged, from) == (base[from..l.start] + l.content) + Patch(base, merged, l.End())
  {
  }

  /** A text that is `front` and then a patched `text`, against one more hunk of the merge. */
  lemma LocalFinish(base: seq<Line>, l: Hunk, merged: seq<Hunk>, from: nat, text: seq<Line>, tail: seq<Hunk>)
    requires from <= l.start && l.End() <= |base|
    requires InRange(base, merged) && Ordered(merged) && StartsFrom(merged, l.End())
    requires InRange(text, tail) && Ordered(tail)
    requires Patch(text, tail, 0) == Patch(base, merged, l.End())
    ensures var front := base[from..l.start] + l.content;
            var hunks := Shifted(tail, |front|);
            && InRange(front + text, hunks) && Ordered(hunks) && Ordered([l] + merged) && InRange(base, [l] + merged)
            && Patch(front + text, hunks, 0) == Patch(base, [l] + merged, from)
  {
    FrontedPatch(base[from..l.start] + l.content, text, tail);
    PatchCons(base, l, merged, from);
  }

  lemma RemoteFinish(base: seq<Line>, r: Hunk, merged: seq<Hunk>, from: nat, text: seq<Line>, tail: seq<Hunk>)
    requires from <= r.start && r.End() <= |base|
    requires InRange(base, merged) && Ordered(merged) && StartsFrom(merged, r.End())
    requires InRange(text, tail) && Ordered(tail)
    requires Patch(text, tail, 0) == Patch(base, merged, r.End())
    ensures var front := base[from..r.End()];
            var hunks := [r.(start := r.start - from)] + Shifted(tail, |front|);
            && InRange(front + text, hunks) && Ordered(hunks) && Ordered([r] + merged) && InRange(base, [r] + merged)
            && Patch(front + text, hunks, 0) == Patch(base, [r] + merged, from)
  {
    var front := base[from..r.End()];
    assert (front + text)[|front|..] == text;
    ShiftPatch(front + text, |front|, tail, 0);
    var h, rest := r.(start := r.start - from), Shifted(tail, |front|);
    assert ([h] + rest)[1..] == rest && ([r] + merged)[1..] == merged;
    assert (front + text)[0..h.start] == base[from..r.start];
    PatchIs(front + text, [h] + rest, 0, base[from..r.start], Patch(front + text, rest, h.End()));
    PatchIs(base, [r] + merged, from, base[from..r.start], Patch(base, merged, r.End()));
  }

  /** Both lists, from base line `from` on. */
  ghost predicate Mergeable(base: seq<Line>, local: seq<Hunk>, remote: seq<Hunk>, from: nat) {
    && from <= |base| && InRange(base, local) && InRange(base, remote)
    && Separated(local) && Separated(remote) && Disjoint(local, remote)
    && StartsFrom(local, from) && StartsFrom(remote, from)
  }

  /** The facts about the lists and their union that application needs. */
  lemma MergeableShape(base: seq<Line>, local: seq<Hunk>, remote: seq<Hunk>, from: nat)
    requires Mergeable(base, local, remote, from)
    ensures var u := Union(local, remote); InRange(base, u) && Ordered(u) && StartsFrom(u, from)
    ensures Ordered(local)
  {
    UnionSeparated(local, remote);
    UnionInRange(base, local, remote);
    SeparatedIsOrdered(Union(local, remote));
    SeparatedIsOrdered(local);
  }

  predicate RemoteFirst(local: seq<Hunk>, remote: seq<Hunk>)
    requires remote != []
  {
    local == [] || remote[0].start < local[0].start
  }

  lemma RemoteMergeable(base: seq<Line>, local: seq<Hunk>, remote: seq<Hunk>, from: nat)
    requires Mergeable(base, local, remote, from) && remote != [] && RemoteFirst(local, remote)
    ensures Mergeable(base, local, remote[1..], remote[0].End())
    ensures Union(local, remote) == [remote[0]] + Union(local, remote[1..])
    ensures StartsFrom(local, remote[0].Reach())
  {
    assert local != [] ==> !RangesOverlap(local[0], remote[0]);
    assert forall h | h in remote[1..] :: h in remote;
  }

  lemma LocalMergeable(base: seq<Line>, local: seq<Hunk>, remote: seq<Hunk>, from: nat)
    requires Mergeable(base, local, remote, from) && remote != [] && !RemoteFirst(local, remote)
    ensures Mergeable(base, local[1..], remote, local[0].End())
    ensures Union(local, remote) == [local[0]] + Union(local[1..], remote)
    ensures local[0].Reach() <= remote[0].start
  {
    assert !RangesOverlap(local[0], remote[0]);
    assert forall h | h in local[1..] :: h in local;
  }

  lemma DriftsBounded(local: seq<Hunk>, remote: seq<Hunk>, from: nat)
    requires Separated(local) && Disjoint(local, remote) && StartsFrom(local, from)
    requires forall h | h in remote :: from <= h.start
    ensures forall h | h in remote :: h.start - from + Drift(local, h.start) >= 0
  {
    forall h | h in remote ensures h.start - from + Drift(local, h.start) >= 0 {
      assert Clear(local, h) by { assert forall l | l in local :: !RangesOverlap(l, h); }
      DriftBounded(local, from, h);
    }
  }

  lemma RemoteRebase(local: seq<Hunk>, r: Hunk, rest: seq<Hunk>, from: nat)
    requires Separated(local) && Disjoint(local, rest) && forall h | h in rest :: r.Reach() <= h.start
    requires from <= r.start && StartsFrom(local, r.Reach())
    ensures Rebase(local, [r] + rest, from) ==
            [r.(start := r.start - from)] + Shifted(Rebase(local, rest, r.End()), r.End() - from)
  {
    assert ([r] + rest)[1..] == rest;
    assert RebaseOne(local, r, from) == r.(start := r.start - from);
    DriftsBounded(local, rest, r.End());
    forall h | h in rest ensures Apart(local, from, local, r.End(), r.End() - from, h) {
    }
    RebaseMoves(local, from, local, r.End(), rest, r.End() - from);
  }

  lemma LocalRebase(local: seq<Hunk>, remote: seq<Hunk>, from: nat)
    requires remote != [] && !RemoteFirst(local, remote)
    requires Separated(local) && Separated(remote) && Disjoint(local[1..], remote)
    requires from <= local[0].start && local[0].Reach() <= remote[0].start
    ensures Rebase(local, remote, from) ==
            Shifted(Rebase(local[1..], remote, local[0].End()), local[0].start - from + |local[0].content|)
  {
    var l := local[0];
    SeparatedIsOrdered(remote);
    assert forall h | h in remote :: h == remote[0] || h in remote[1..];
    DriftsBounded(local[1..], remote, l.End());
    forall h | h in remote ensures Apart(local, from, local[1..], l.End(), l.start - from + |l.content|, h) {
      assert l.start < h.start;
    }
    RebaseMoves(local, from, local[1..], l.End(), remote, l.start - from + |l.content|);
  }

  /** `merged` patches the base to what `theirs` makes of the local text. */
  ghost predicate Agrees(base: seq<Line>, local: seq<Hunk>, merged: seq<Hunk>, theirs: seq<Hunk>, from: nat) {
    && from <= |base| && InRange(base, local) && Ordered(local) && StartsFrom(local, from)
    && InRange(base, merged) && Ordered(merged) && StartsFrom(merged, from)
    && InRange(Patch(base, local, from), theirs) && Ordered(theirs)
    && Patch(Patch(base, local, from), theirs, 0) == Patch(base, merged, from)
  }

  lemma RemoteConclude(base: seq<Line>, local: seq<Hunk>, r: Hunk, merged: seq<Hunk>, tail: seq<Hunk>, from: nat)
    requires from <= r.start && StartsFrom(local, from) && Agrees(base, local, merged, tail, r.End())
    ensures Agrees(base, local, [r] + merged, [r.(start := r.start - from)] + Shifted(tail, r.End() - from), from)
  {
    PatchSplits(base, local, from, r.End());
    RemoteFinish(base, r, merged, from, Patch(base, local, r.End()), tail);
  }

  lemma LocalConclude(base: seq<Line>, l: Hunk, rest: seq<Hunk>, merged: seq<Hunk>, tail: seq<Hunk>, from: nat)
    requires from <= l.start && Agrees(base, rest, merged, tail, l.End())
    ensures Agrees(base, [l] + rest, [l] + merged, Shifted(tail, l.start - from + |l.content|), from)
  {
    LocalFinish(base, l, merged, from, Patch(base, rest, l.End()), tail);
    assert ([l] + rest)[1..] == rest;
    Regroup(base[from..l.start], l.content, Patch(base, rest, l.End()));
  }

  /** A remote hunk that comes first goes in front of what the rest makes. */
  lemma RemoteStep(base: seq<Line>, local: seq<Hunk>, remote: seq<Hunk>, from: nat)
    requires Mergeable(base, local, remote, from) && remote != [] && RemoteFirst(local, remote)
    requires var rest, at := remote[1..], remote[0].End();
             Agrees(base, local, Union(local, rest), Rebase(local, rest, at), at)
    ensures Agrees(base, local, Union(local, remote), Rebase(local, remote, from), from)
  {
    var r, rest := remote[0], remote[1..];
    MergeableShape(base, local, remote, from);
    RemoteMergeable(base, local, remote, from);
    assert remote == [r] + rest;
    SeparatedIsOrdered(remote);
    RemoteRebase(local, r, rest, from);
    RemoteConclude(base, local, r, Union(local, rest), Rebase(local, rest, r.End()), from);
  }

  /** A local hunk that comes first moves everything the rest makes. */
  lemma LocalStep(base: seq<Line>, local: seq<Hunk>, remote: seq<Hunk>, from: nat)
    requires Mergeable(base, local, remote, from) && remote != [] && !RemoteFirst(local, remote)
    requires var rest, at := local[1..], local[0].End();
             Agrees(base, rest, Union(rest, remote), Rebase(rest, remote, at), at)
    ensures Agrees(base, local, Union(local, remote), Rebase(local, remote, from), from)
  {
    var l, rest := local[0], local[1..];
    LocalMergeable(base, local, remote, from);
    assert local == [l] + rest;
    LocalRebase(local, remote, from);
    LocalConclude(base, l, rest, Union(rest, remote), Rebase(rest, remote, l.End()), from);
  }

  /** The merged text is the local text with the remote hunks applied to it, shifted by the local drift. */
  lemma {:induction false} MergeIsRebase(base: seq<Line>, local: seq<Hunk>, remote: seq<Hunk>, from: nat)
    requires Mergeable(base, local, remote, from)
    ensures Agrees(base, local, Union(local, remote), Rebase(local, remote, from), from)
    decreases |local| + |remote|
  {
    if remote == [] {
      MergeableShape(base, local, remote, from);
      assert Union(local, remote) == local;
      assert Patch(base, local, from)[0..] == Patch(base, local, from);
    } else if RemoteFirst(local, remote) {
      RemoteMergeable(base, local, remote, from);
      MergeIsRebase(base, local, remote[1..], remote[0].End());
      RemoteStep(base, local, remote, from);
    } else {
      LocalMergeable(base, local, remote, from);
      MergeIsRebase(base, local[1..], remote, local[0].End());
      LocalStep(base, local, remote, from);
    }
  }

  // ---------------------------------------------------------------- both sides

  /** A clean merge is each side's text with the other side's edits re-addressed onto it. */
  lemma BothSidesRebase(base: seq<Line>, local: seq<Hunk>, remote: seq<Hunk>)
    requires Mergeable(base, local, remote, 0)
    ensures Agrees(base, local, Union(local, remote), Rebase(local, remote, 0), 0)
    ensures Agrees(base, remote, Union(local, remote), Rebase(remote, local, 0), 0)
    ensures SpliceAll(base, SortDescending(local + remote)) == Patch(base, Union(local, remote), 0)
    ensures !HasConflict(local, remote)
  {
    LoopIsPatch(base, local, remote);
    MergeIsRebase(base, local, remote, 0);
    OtherSideRebase(base, local, remote);
  }

  lemma OtherSideRebase(base: seq<Line>, local: seq<Hunk>, remote: seq<Hunk>)
    requires Mergeable(base, local, remote, 0)
    ensures Agrees(base, remote, Union(local, remote), Rebase(remote, local, 0), 0)
  {
    assert Mergeable(base, remote, local, 0);
    MergeIsRebase(base, remote, local, 0);
    UnionCommutes(local, remote);
  }

  lemma {:induction false} UnionCommutes(local: seq<Hunk>, remote: seq<Hunk>)
    requires Disjoint(local, remote)
    ensures Union(remote, local) == Union(local, remote)
    decreases |local| + |remote|
  {
    if local != [] && remote != [] {
      assert !RangesOverlap(local[0], remote[0]);
      assert forall h | h in local[1..] :: h in local;
      assert forall h | h in remote[1..] :: h in remote;
      if remote[0].start < local[0].start {
        UnionCommutes(local, remote[1..]);
      } else {
        UnionCommutes(local[1..], remote);
      }
    }
  }
}
