/** What the splice loop does with a hunk both sides made: src/sync/merge.ts lines 88-103. The overlap test lets an
    identical hunk through, and the loop then splices it twice. */
module SharedHunks {
  import opened MergeHunks

  /** The union with every shared hunk named once. */
  function Once(u: seq<Hunk>): seq<Hunk> {
    if |u| <= 1 then u
    else if u[0] == u[1] then Once(u[1..])
    else [u[0]] + Once(u[1..])
  }

  /** The text the loop leaves behind a hunk list in which neighbours may repeat. */
  function Respliced(base: seq<Line>, u: seq<Hunk>): seq<Line> {
    if u == [] then base else Splice(Respliced(base, u[1..]), u[0])
  }

  lemma {:induction false} LoopResplices(base: seq<Line>, u: seq<Hunk>)
    ensures SpliceAll(base, Reverse(u)) == Respliced(base, u)
  {
    if u != [] {
      LoopResplices(base, u[1..]);
      SpliceAllSnoc(base, Reverse(u[1..]), u[0]);
    }
  }

  // ---------------------------------------------------------------- the loop's list is the union

  lemma {:induction false} UnionNearSeparated(local: seq<Hunk>, remote: seq<Hunk>)
    requires Separated(local) && Separated(remote) && !HasConflict(local, remote)
    ensures NearSeparated(Union(local, remote))
    decreases |local| + |remote|
  {
    SeparatedIsNear(local);
    SeparatedIsNear(remote);
    if local != [] && remote != [] {
      var u := Union(local, remote);
      assert RangesOverlap(local[0], remote[0]) ==> local[0] == remote[0];
      if remote[0].start < local[0].start {
        assert forall r | r in remote[1..] :: r in remote;
        UnionNearSeparated(local, remote[1..]);
        assert u[1..] == Union(local, remote[1..]);
      } else {
        assert forall l | l in local[1..] :: l in local;
        UnionNearSeparated(local[1..], remote);
        assert u[1..] == Union(local[1..], remote);
      }
    }
  }

  /** For every pair of lists the conflict test admits, the loop resplices their union. */
  lemma {:induction false} LoopOnAdmitted(base: seq<Line>, local: seq<Hunk>, remote: seq<Hunk>)
    requires Separated(local) && Separated(remote) && !HasConflict(local, remote)
    ensures NearSeparated(Union(local, remote))
    ensures SpliceAll(base, SortDescending(local + remote)) == Respliced(base, Union(local, remote))
  {
    UnionNearSeparated(local, remote);
    UnionBag(local, remote);
    SortBag(local + remote);
    SortIsDescending(local + remote);
    OneArrangement(Union(local, remote), SortDescending(local + remote));
    LoopResplices(base, Union(local, remote));
  }

  // ---------------------------------------------------------------- when splicing twice is harmless

  ghost predicate Admitted(base: seq<Line>, u: seq<Hunk>) {
    NearSeparated(u) && InRange(base, u)
  }

  /** Every hunk listed twice satisfies `p`. */
  ghost predicate Repeats(u: seq<Hunk>, p: Hunk -> bool) {
    |u| <= 1 || ((u[0] == u[1] ==> p(u[0])) && Repeats(u[1..], p))
  }

  predicate KeepsCount(h: Hunk) { |h.content| == h.len }

  predicate Grows(h: Hunk) { |h.content| >= h.len }

  predicate Shrinks(h: Hunk) { |h.content| <= h.len }

  lemma {:induction false} OnceShape(base: seq<Line>, u: seq<Hunk>)
    requires Admitted(base, u)
    ensures Admitted(base, Once(u)) && Ordered(Once(u)) && Once(Once(u)) == Once(u)
    ensures |Once(u)| <= |u| && (|Once(u)| > 0 <==> |u| > 0)
    ensures u != [] ==> Once(u)[0] == u[0]
  {
    if |u| > 1 {
      OnceShape(base, u[1..]);
      if u[0] != u[1] {
        assert Once(u)[1..] == Once(u[1..]);
      }
    }
  }

  /** The text both sides asked for: every hunk either side made, applied once, left to right. */
  ghost function Intended(base: seq<Line>, u: seq<Hunk>): seq<Line>
    requires Admitted(base, u)
  {
    OnceShape(base, u);
    Patch(base, Once(u), 0)
  }

  /** The text asked for behind the first hunk. */
  ghost function Wanted(base: seq<Line>, u: seq<Hunk>): seq<Line>
    requires Admitted(base, u) && u != []
  {
    OnceShape(base, u);
    Patch(base, Once(u)[1..], u[0].End())
  }

  /** Nothing is left of the base, and nothing is added, behind the first hunk. */
  ghost predicate NothingBehind(base: seq<Line>, u: seq<Hunk>)
    requires Admitted(base, u) && u != []
  {
    Wanted(base, u) == []
  }

  /** Every hunk listed twice either keeps its line count, or shrinks a text that ends with it. */
  ghost predicate Harmless(base: seq<Line>, u: seq<Hunk>)
    requires Admitted(base, u)
  {
    |u| <= 1 ||
    ((u[0] == u[1] ==> KeepsCount(u[0]) || (Shrinks(u[0]) && NothingBehind(base, u[1..]))) && Harmless(base, u[1..]))
  }

  lemma IntendedSplice(base: seq<Line>, u: seq<Hunk>)
    requires Admitted(base, u) && u != []
    ensures |u| > 1 && u[0] == u[1] ==> Intended(base, u) == Intended(base, u[1..])
    ensures |u| == 1 || u[0] != u[1] ==>
              u[0].End() <= |Intended(base, u[1..])| && Intended(base, u) == Splice(Intended(base, u[1..]), u[0])
  {
    OnceShape(base, u);
    OnceShape(base, u[1..]);
    if |u| == 1 || u[0] != u[1] {
      assert Once(u)[1..] == Once(u[1..]);
      SpliceOne(base, Once(u));
      PatchSplits(base, Once(u[1..]), 0, u[0].End());
    }
  }

  /** How much text the intended result has around its first hunk. */
  lemma IntendedEnds(base: seq<Line>, u: seq<Hunk>)
    requires Admitted(base, u) && u != []
    ensures |Intended(base, u)| >= u[0].start + |u[0].content|
    ensures |Intended(base, u)| == u[0].start + |u[0].content| <==> NothingBehind(base, u)
    ensures Intended(base, u)[..u[0].start + |u[0].content|] == base[..u[0].start] + u[0].content
  {
    OnceShape(base, u);
    var rest := Patch(base, Once(u)[1..], u[0].End());
    assert Intended(base, u) == base[0..u[0].start] + (u[0].content + rest);
  }

  lemma SplicedTwice(t: seq<Line>, h: Hunk)
    requires h.start + |h.content| <= |t| && t[h.start..h.start + |h.content|] == h.content
    ensures KeepsCount(h) ==> Splice(t, h) == t
    ensures Shrinks(h) && |t| == h.start + |h.content| ==> Splice(t, h) == t
  {
  }

  /** Splicing twice leaves the intended text wherever each repeated hunk is harmless. */
  lemma {:induction false} HarmlessIsIntended(base: seq<Line>, u: seq<Hunk>)
    requires Admitted(base, u) && Harmless(base, u)
    ensures Respliced(base, u) == Intended(base, u)
  {
    if u == [] {
      assert base[0..] == base;
    } else {
      if |u| == 1 { assert Harmless(base, u[1..]); }
      HarmlessIsIntended(base, u[1..]);
      IntendedSplice(base, u);
      if |u| > 1 && u[0] == u[1] {
        var t, h := Intended(base, u[1..]), u[0];
        IntendedEnds(base, u[1..]);
        assert t[h.start..h.start + |h.content|] == t[..h.start + |h.content|][h.start..];
        SplicedTwice(t, h);
      }
    }
  }

  /** Where every repeated hunk grows, the text can only be too long. */
  lemma {:induction false} GrownLength(base: seq<Line>, u: seq<Hunk>)
    requires Admitted(base, u) && Repeats(u, Grows)
    ensures |Respliced(base, u)| >= |Intended(base, u)|
    ensures |Respliced(base, u)| == |Intended(base, u)| ==> Repeats(u, KeepsCount)
  {
    if u == [] {
      assert base[0..] == base;
    } else {
      GrownLength(base, u[1..]);
      IntendedSplice(base, u);
      if |u| > 1 { IntendedEnds(base, u[1..]); }
    }
  }

  /** Where every repeated hunk shrinks, the text can only be too short. */
  lemma {:induction false} ShrunkLength(base: seq<Line>, u: seq<Hunk>)
    requires Admitted(base, u) && Repeats(u, Shrinks)
    ensures |Respliced(base, u)| <= |Intended(base, u)|
    ensures |Respliced(base, u)| == |Intended(base, u)| ==> Harmless(base, u)
    ensures u != [] ==> |Respliced(base, u)| >= u[0].start + |u[0].content|
  {
    if u == [] {
      assert base[0..] == base;
    } else {
      ShrunkLength(base, u[1..]);
      IntendedSplice(base, u);
      if |u| > 1 { IntendedEnds(base, u[1..]); }
    }
  }

  lemma SpliceLength(s: seq<Line>, h: Hunk)
    ensures |Splice(s, h)| >= |s| - h.len + |h.content|
    ensures h.start <= |s| ==> |Splice(s, h)| >= h.start + |h.content|
    ensures h.End() <= |s| ==> |Splice(s, h)| == |s| - h.len + |h.content|
  {
  }

  /** By how many lines the repeated hunks, spliced once more, change the count. */
  function Net(u: seq<Hunk>): int {
    if |u| <= 1 then 0 else (if u[0] == u[1] then |u[0].content| - u[0].len else 0) + Net(u[1..])
  }

  /** The loop leaves at least as many lines as the intended text and the repeats' own changes together. */
  lemma {:induction false} NetLength(base: seq<Line>, u: seq<Hunk>)
    requires Admitted(base, u)
    ensures |Respliced(base, u)| >= |Intended(base, u)| + Net(u)
    ensures u != [] ==> |Respliced(base, u)| >= u[0].start + |u[0].content|
  {
    if u == [] {
      assert base[0..] == base;
    } else {
      NetLength(base, u[1..]);
      IntendedSplice(base, u);
      SpliceLength(Respliced(base, u[1..]), u[0]);
      SpliceLength(Intended(base, u[1..]), u[0]);
    }
  }

  lemma {:induction false} KeepingIsHarmless(base: seq<Line>, u: seq<Hunk>)
    requires Admitted(base, u) && Repeats(u, KeepsCount)
    ensures Harmless(base, u)
  {
    if |u| > 1 {
      KeepingIsHarmless(base, u[1..]);
    }
  }

  // ---------------------------------------------------------------- what the loop leaves, left to right

  /** What a second splice of `h` makes of the text behind its content: the content's own lines from `h.len` on come
      again, or as many lines of that text go as the content falls short. */
  function Again(h: Hunk, behind: seq<Line>): seq<Line> {
    var text := h.content + behind;
    text[Min(h.len, |text|)..]
  }

  lemma NextFits(base: seq<Line>, u: seq<Hunk>)
    requires Admitted(base, u) && |u| > 1
    ensures Admitted(base, u[1..]) && u[1].End() <= |base| && (u[0] == u[1] || u[0].End() <= u[1].start)
  {
    assert u[1..][0] == u[1];
  }

  /** The text behind the first hunk of the list, once the loop has spliced all of them. */
  function Behind(base: seq<Line>, u: seq<Hunk>): seq<Line>
    requires Admitted(base, u) && u != []
  {
    if |u| == 1 then base[u[0].End()..]
    else if u[0] == u[1] then Again(u[0], Behind(base, u[1..]))
    else
      NextFits(base, u);
      base[u[0].End()..u[1].start] + u[1].content + Behind(base, u[1..])
  }

  /** What stands behind the first repeated hunk is what was asked for there. */
  ghost predicate Restored(base: seq<Line>, u: seq<Hunk>)
    requires Admitted(base, u)
  {
    |u| <= 1 ||
    if u[0] == u[1] then Again(u[0], Behind(base, u[1..])) == Wanted(base, u[1..]) else Restored(base, u[1..])
  }

  /** The loop, right to left over the whole text, leaves what one pass from left to right describes. */
  lemma {:induction false} LoopText(base: seq<Line>, u: seq<Hunk>)
    requires Admitted(base, u) && u != []
    ensures Respliced(base, u) == base[..u[0].start] + u[0].content + Behind(base, u)
  {
    var h := u[0];
    if |u| == 1 {
      assert Respliced(base, u[1..]) == base;
    } else {
      LoopText(base, u[1..]);
      NextFits(base, u);
      var behind := Behind(base, u[1..]);
      if h == u[1] {
        SplicedAgain(base[..h.start], h, behind);
      } else {
        SplicedBefore(base, h, u[1].start, u[1].content, behind);
      }
    }
  }

  lemma SplicedBefore(base: seq<Line>, h: Hunk, start: nat, content: seq<Line>, behind: seq<Line>)
    requires h.End() <= start <= |base|
    ensures Splice(base[..start] + content + behind, h) ==
            base[..h.start] + h.content + (base[h.End()..start] + content + behind)
  {
    var text := base[..start] + content + behind;
    assert text[..h.start] == base[..h.start];
    assert text[h.End()..] == base[h.End()..start] + content + behind;
  }

  lemma SplicedAgain(front: seq<Line>, h: Hunk, behind: seq<Line>)
    requires |front| == h.start
    ensures Splice(front + h.content + behind, h) == front + h.content + Again(h, behind)
  {
    var text := h.content + behind;
    assert front + h.content + behind == front + text;
    assert (front + text)[..h.start] == front;
    DropFront(front, text, Min(h.len, |text|));
    assert Splice(front + text, h) == front + (h.content + Again(h, behind));
  }

  lemma DropFront(front: seq<Line>, text: seq<Line>, k: nat)
    requires k <= |text|
    ensures (front + text)[|front| + k..] == text[k..]
  {
  }

  lemma WantedStep(base: seq<Line>, u: seq<Hunk>)
    requires Admitted(base, u) && u != []
    ensures Intended(base, u) == base[..u[0].start] + u[0].content + Wanted(base, u)
    ensures |u| == 1 ==> Wanted(base, u) == base[u[0].End()..]
    ensures |u| > 1 && u[0] == u[1] ==> Wanted(base, u) == Wanted(base, u[1..])
    ensures |u| > 1 && u[0] != u[1] ==>
              u[1].start <= |base| &&
                Wanted(base, u) == base[u[0].End()..u[1].start] + u[1].content + Wanted(base, u[1..])
  {
    OnceShape(base, u);
    assert Intended(base, u) == base[0..u[0].start] + (u[0].content + Wanted(base, u));
    if |u| > 1 {
      OnceShape(base, u[1..]);
      if u[0] != u[1] {
        assert Once(u)[1..] == Once(u[1..]);
        assert Wanted(base, u) == base[u[0].End()..u[1].start] + (u[1].content + Wanted(base, u[1..]));
      }
    }
  }

  lemma SameFront(front: seq<Line>, x: seq<Line>, y: seq<Line>)
    ensures front + x == front + y <==> x == y
  {
    assert (front + x)[|front|..] == x && (front + y)[|front|..] == y;
  }

  /** The merge comes out as intended if and only if the text behind the first repeated hunk does. */
  lemma {:induction false} IntendedExactly(base: seq<Line>, u: seq<Hunk>)
    requires Admitted(base, u)
    ensures Respliced(base, u) == Intended(base, u) <==> Restored(base, u)
    ensures u != [] ==> (Behind(base, u) == Wanted(base, u) <==> Restored(base, u))
  {
    if u == [] {
      assert base[0..] == base;
    } else {
      LoopText(base, u);
      WantedStep(base, u);
      SameFront(base[..u[0].start] + u[0].content, Behind(base, u), Wanted(base, u));
      if |u| > 1 {
        IntendedExactly(base, u[1..]);
        if u[0] != u[1] {
          SameFront(base[u[0].End()..u[1].start] + u[1].content, Behind(base, u[1..]), Wanted(base, u[1..]));
        }
      }
    }
  }

  // ---------------------------------------------------------------- in terms of the two sides

  /** Every hunk both sides made satisfies `p`. */
  ghost predicate SharedAll(local: seq<Hunk>, remote: seq<Hunk>, p: Hunk -> bool) {
    forall h | h in local && h in remote :: p(h)
  }

  lemma SharedCons(hunks: seq<Hunk>, others: seq<Hunk>, p: Hunk -> bool)
    requires hunks != []
    ensures SharedAll(hunks, others, p) <==> (hunks[0] in others ==> p(hunks[0])) && SharedAll(hunks[1..], others, p)
    ensures SharedAll(others, hunks, p) <==> (hunks[0] in others ==> p(hunks[0])) && SharedAll(others, hunks[1..], p)
  {
    assert forall h :: h in hunks <==> h == hunks[0] || h in hunks[1..];
  }

  /** A hunk that starts no later than a separated list is in it only as its head. */
  lemma OnlyAsHead(h: Hunk, others: seq<Hunk>)
    requires Separated(others) && others != [] && h.start <= others[0].start
    ensures h in others <==> h == others[0]
  {
    SeparatedIsOrdered(others);
    assert forall x | x in others :: x == others[0] || x in others[1..];
  }

  /** The hunks listed twice are the ones both sides made. */
  lemma {:induction false} RepeatsAreShared(local: seq<Hunk>, remote: seq<Hunk>, p: Hunk -> bool)
    requires Separated(local) && Separated(remote) && !HasConflict(local, remote)
    ensures Repeats(Union(local, remote), p) <==> SharedAll(local, remote, p)
    decreases |local| + |remote|
  {
    if local == [] || remote == [] {
      RepeatsNone(Union(local, remote), p);
    } else if remote[0].start < local[0].start {
      RepeatsAreShared(local, remote[1..], p);
      assert Union(local, remote)[1..] == Union(local, remote[1..]);
      OnlyAsHead(remote[0], local);
      SharedCons(remote, local, p);
    } else {
      RepeatsAreShared(local[1..], remote, p);
      assert Union(local, remote)[1..] == Union(local[1..], remote);
      OnlyAsHead(local[0], remote);
      SharedCons(local, remote, p);
    }
  }

  lemma {:induction false} RepeatsNone(u: seq<Hunk>, p: Hunk -> bool)
    requires Separated(u)
    ensures Repeats(u, p)
  {
    if |u| > 1 {
      RepeatsNone(u[1..], p);
    }
  }

  /** The merge of two admitted lists: what the loop leaves, and when that is what both sides asked for. */
  lemma SharedHunkMerge(base: seq<Line>, local: seq<Hunk>, remote: seq<Hunk>)
    requires InRange(base, local) && InRange(base, remote)
    requires Separated(local) && Separated(remote) && !HasConflict(local, remote)
    ensures Admitted(base, Union(local, remote))
    ensures SpliceAll(base, SortDescending(local + remote)) == Intended(base, Union(local, remote)) <==>
            Restored(base, Union(local, remote))
    ensures Harmless(base, Union(local, remote)) ==>
              SpliceAll(base, SortDescending(local + remote)) == Intended(base, Union(local, remote))
    ensures Net(Union(local, remote)) > 0 ==>
              |SpliceAll(base, SortDescending(local + remote))| > |Intended(base, Union(local, remote))|
    ensures (forall h | h in local && h in remote :: Grows(h)) ==>
              (SpliceAll(base, SortDescending(local + remote)) == Intended(base, Union(local, remote))
               <==> forall h | h in local && h in remote :: KeepsCount(h))
    ensures (forall h | h in local && h in remote :: Shrinks(h)) ==>
              (SpliceAll(base, SortDescending(local + remote)) == Intended(base, Union(local, remote))
               <==> Harmless(base, Union(local, remote)))
  {
    var u := Union(local, remote);
    LoopOnAdmitted(base, local, remote);
    UnionInRange(base, local, remote);
    IntendedExactly(base, u);
    NetLength(base, u);
    RepeatsAreShared(local, remote, Grows);
    RepeatsAreShared(local, remote, Shrinks);
    RepeatsAreShared(local, remote, KeepsCount);
    if Harmless(base, u) {
      HarmlessIsIntended(base, u);
    }
    if Repeats(u, KeepsCount) {
      KeepingIsHarmless(base, u);
    }
    if Repeats(u, Grows) {
      GrownLength(base, u);
    }
    if Repeats(u, Shrinks) {
      ShrunkLength(base, u);
    }
  }
}
