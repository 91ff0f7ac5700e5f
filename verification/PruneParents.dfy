/** Removing the directories a cycle emptied: src/sync/prune-empty-parents.ts, and the candidate chains of
    src/sync/identity-component-decision.ts. */
module PruneParents {
  import opened Sequences
  import opened Strings
  import opened SyncTypes

  /** One address on one side. */
  datatype Key = Key(side: Side, directory: string)

  /** `path` lies strictly below the directory `dir`. */
  predicate Below(path: string, dir: string) {
    0 < |dir| < |path| && path[|dir|] == '/' && path[..|dir|] == dir
  }

  predicate Under(e: Key, c: Key) {
    e.side == c.side && Below(e.directory, c.directory)
  }

  lemma BelowTransitive(x: string, y: string, z: string)
    requires Below(x, y) && Below(y, z)
    ensures Below(x, z)
  {
  }

  // ---------------------------------------------------------------- strict ancestors, one separator at a time

  /** A kept directory blocks every strict ancestor that is a candidate. */
  method BlockPruneAncestors(candidates: set<Key>, blocked: set<Key>, side: Side, directory: string)
    returns (more: set<Key>)
    ensures more == blocked + set k | k in candidates && Under(Key(side, directory), k)
  {
    more := blocked;
    var separator := LastIndexOf(directory, '/');
    while separator > 0
      invariant -1 <= separator < |directory| && (separator > 0 ==> directory[separator] == '/')
      invariant more == blocked + set k | k in candidates && Under(Key(side, directory), k) && |k.directory| > separator
      decreases separator
    {
      var ancestor := directory[..separator];
      var key := Key(side, ancestor);
      assert forall k | k in candidates && Under(Key(side, directory), k) && |k.directory| == separator :: k == key;
      if key in candidates {
        more := more + {key};
      }
      var next := LastIndexOf(ancestor, '/');
      assert forall i | next < i < separator :: ancestor[i] == directory[i];
      separator := next;
    }
  }

  /** The ancestors of a removed path, from the nearest up, while they are in scope. */
  method PruneCandidateChain(includes: string -> bool, sourcePath: string) returns (chain: seq<string>)
    ensures forall a :: a in chain <==>
              Below(sourcePath, a) &&
              forall b {:trigger includes(b)} | Below(sourcePath, b) && |a| <= |b| :: includes(b)
    ensures forall i, j | 0 <= i < j < |chain| :: |chain[i]| > |chain[j]|
  {
    chain := [];
    var separator := LastIndexOf(sourcePath, '/');
    while separator > 0
      invariant -1 <= separator < |sourcePath| && (separator > 0 ==> sourcePath[separator] == '/')
      invariant forall a :: a in chain <==> Below(sourcePath, a) && |a| > separator
      invariant forall a {:trigger includes(a)} | a in chain :: includes(a)
      invariant forall i, j | 0 <= i < j < |chain| :: |chain[i]| > |chain[j]|
      decreases separator
    {
      var parent := sourcePath[..separator];
      assert Below(sourcePath, parent);
      assert forall a | Below(sourcePath, a) && |a| == separator :: a == parent;
      if !includes(parent) {
        assert forall i | 0 <= i < |chain| :: chain[i] in chain;
        return;
      }
      assert forall i | 0 <= i < |chain| :: chain[i] in chain;
      chain := chain + [parent];
      var next := LastIndexOf(parent, '/');
      assert forall i | next < i < separator :: parent[i] == sourcePath[i];
      separator := next;
    }
  }

  // ---------------------------------------------------------------- deepest first

  predicate DeepestFirst(order: seq<Key>) {
    forall i, j | 0 <= i < j < |order| :: |order[i].directory| >= |order[j].directory|
  }

  /** Keep equal lengths in their order. */
  function Insert(order: seq<Key>, k: Key): seq<Key> {
    if order == [] || |order[|order| - 1].directory| >= |k.directory| then order + [k]
    else Insert(order[..|order| - 1], k) + [order[|order| - 1]]
  }

  function Sorted(keys: seq<Key>): seq<Key> {
    if keys == [] then [] else Insert(Sorted(keys[..|keys| - 1]), keys[|keys| - 1])
  }

  lemma {:induction false} InsertMembers(order: seq<Key>, k: Key)
    ensures forall x :: x in Insert(order, k) <==> x in order || x == k
  {
    if order != [] && |order[|order| - 1].directory| < |k.directory| {
      InsertMembers(order[..|order| - 1], k);
      assert order == order[..|order| - 1] + [order[|order| - 1]];
    }
  }

  lemma OrderSnoc(order: seq<Key>, last: Key)
    requires DeepestFirst(order) && Distinct(order) && last !in order
    requires forall x | x in order :: |x.directory| >= |last.directory|
    ensures DeepestFirst(order + [last]) && Distinct(order + [last])
  {
  }

  lemma {:induction false} InsertKeeps(order: seq<Key>, k: Key)
    requires DeepestFirst(order) && Distinct(order) && k !in order
    ensures DeepestFirst(Insert(order, k)) && Distinct(Insert(order, k))
  {
    if order != [] && |order[|order| - 1].directory| < |k.directory| {
      var rest, last := order[..|order| - 1], order[|order| - 1];
      assert forall x | x in rest :: x in order;
      assert forall x | x in rest :: |x.directory| >= |last.directory| && x != last;
      InsertKeeps(rest, k);
      InsertMembers(rest, k);
      OrderSnoc(Insert(rest, k), last);
    } else {
      OrderSnoc(order, k);
    }
  }

  lemma {:induction false} SortedKeeps(keys: seq<Key>)
    requires Distinct(keys)
    ensures DeepestFirst(Sorted(keys)) && Distinct(Sorted(keys)) && forall x :: x in Sorted(keys) <==> x in keys
  {
    if keys != [] {
      var rest, last := keys[..|keys| - 1], keys[|keys| - 1];
      SortedKeeps(rest);
      assert keys == rest + [last];
      InsertKeeps(Sorted(rest), last);
      InsertMembers(Sorted(rest), last);
    }
  }

  // ---------------------------------------------------------------- the pass

  /** The chain an action carries, and the side its removal happened on. */
  datatype Chain = Chain(side: Side, directories: seq<string>)

  predicate InChain(chain: Chain, k: Key) {
    k.side == chain.side && k.directory in chain.directories
  }

  ghost predicate Candidate(completed: seq<Chain>, k: Key) {
    exists i | 0 <= i < |completed| :: InChain(completed[i], k)
  }

  /** The deduplicated candidates, in first-seen order. */
  method CollectCandidates(completed: seq<Chain>) returns (keys: seq<Key>)
    ensures Distinct(keys) && forall k :: k in keys <==> Candidate(completed, k)
  {
    keys := [];
    for i := 0 to |completed|
      invariant Distinct(keys) && forall k :: k in keys <==> Candidate(completed[..i], k)
    {
      ghost var before := keys;
      for j := 0 to |completed[i].directories|
        invariant Distinct(keys)
        invariant forall k :: k in keys <==>
                  k in before || (k.side == completed[i].side && k.directory in completed[i].directories[..j])
      {
        var key := Key(completed[i].side, completed[i].directories[j]);
        if key !in keys {
          keys := keys + [key];
        }
      }
      forall k
        ensures Candidate(completed[..i + 1], k) <==> (Candidate(completed[..i], k) || InChain(completed[i], k))
      {
      }
      assert completed[i].directories[..|completed[i].directories|] == completed[i].directories;
    }
    assert completed[..|completed|] == completed;
  }

  /** What exists, on both sides, and which addresses cannot be read or deleted. */
  datatype Disk = Disk(entries: set<Key>, unreadable: set<Key>, undeletable: set<Key>)

  predicate Faulty(d: Disk, k: Key) {
    k in d.unreadable || k in d.undeletable
  }

  predicate Occupied(entries: set<Key>, c: Key) {
    exists e | e in entries :: Under(e, c)
  }

  /** Everything below `c` is a candidate, and no candidate at or below it fails. */
  ghost predicate Removable(d: Disk, candidates: set<Key>, c: Key) {
    && c in candidates && !Faulty(d, c)
    && (forall e | e in d.entries && Under(e, c) :: e in candidates)
    && (forall k | k in candidates && Under(k, c) :: !Faulty(d, k))
  }

  ghost function Removed(d: Disk, candidates: set<Key>, among: set<Key>): set<Key> {
    set c | c in among && Removable(d, candidates, c)
  }

  /** A directory with nothing left in it; a longer removal would take its children along. */
  method DeleteEmpty(entries: set<Key>, c: Key) returns (left: set<Key>)
    requires !Occupied(entries, c)
    ensures left == entries - {c}
  {
    left := entries - {c};
  }

  ghost predicate BlockedRight(d: Disk, candidates: set<Key>, done: set<Key>, blocked: set<Key>) {
    forall a :: a in blocked <==> a in candidates && exists k | k in done :: Under(k, a) && !Removable(d, candidates, k)
  }

  /** What keeps a directory keeps everything above it. */
  lemma KeptAbove(d: Disk, candidates: set<Key>, k: Key, a: Key)
    requires k in candidates && !Removable(d, candidates, k) && Under(k, a)
    ensures !Removable(d, candidates, a)
  {
    forall e | Under(e, k) ensures Under(e, a) {
      BelowTransitive(e.directory, k.directory, a.directory);
    }
  }

  lemma BlockedGrows(d: Disk, candidates: set<Key>, done: set<Key>, blocked: set<Key>, c: Key)
    requires BlockedRight(d, candidates, done, blocked) && done <= candidates && c in candidates
    ensures !Removable(d, candidates, c) ==>
              BlockedRight(d, candidates, done + {c}, blocked + set k | k in candidates && Under(c, k))
    ensures Removable(d, candidates, c) ==> BlockedRight(d, candidates, done + {c}, blocked)
    ensures c in blocked ==> !Removable(d, candidates, c) && BlockedRight(d, candidates, done + {c}, blocked)
  {
    if c in blocked {
      var k :| k in done && Under(k, c) && !Removable(d, candidates, k);
      KeptAbove(d, candidates, k, c);
      forall a | a in candidates && Under(c, a) ensures a in blocked {
        BelowTransitive(k.directory, c.directory, a.directory);
      }
    }
  }

  /** With everything below it done, an unblocked candidate is removable exactly when the pass removes it. */
  lemma UnblockedGoes(d: Disk, candidates: set<Key>, done: set<Key>, blocked: set<Key>, entries: set<Key>, c: Key)
    requires BlockedRight(d, candidates, done, blocked) && c in candidates && c !in blocked
    requires forall k | k in candidates && Under(k, c) :: k in done
    requires entries == d.entries - Removed(d, candidates, done)
    ensures Removable(d, candidates, c) <==> !Faulty(d, c) && !Occupied(entries, c)
  {
    if Occupied(entries, c) {
      var e :| e in entries && Under(e, c);
      if e in candidates {
        KeptAbove(d, candidates, e, c);
      }
    }
    if !Faulty(d, c) && !Occupied(entries, c) {
      forall e | e in d.entries && Under(e, c) ensures e in candidates {
        assert e !in entries;
      }
      forall k | k in candidates && Under(k, c) ensures !Faulty(d, k) {
        assert Removable(d, candidates, k);
      }
    }
  }

  lemma RemovedSnoc(d: Disk, candidates: set<Key>, done: set<Key>, c: Key)
    ensures Removed(d, candidates, done + {c}) ==
            Removed(d, candidates, done) + if Removable(d, candidates, c) then {c} else {}
  {
  }

  lemma NotYetDone(order: seq<Key>, i: nat)
    requires Distinct(order) && i < |order|
    ensures order[i] !in Elements(order[..i]) && Elements(order[..i + 1]) == Elements(order[..i]) + {order[i]}
  {
    assert order[..i + 1] == order[..i] + [order[i]];
  }

  /** The deepest-first pass over the sorted candidates. */
  method PruneInOrder(d: Disk, ghost candidates: set<Key>, all: set<Key>, order: seq<Key>)
    returns (entries: set<Key>, visited: seq<Key>)
    requires all == candidates && DeepestFirst(order) && Distinct(order) && forall k :: k in order <==> k in candidates
    ensures entries == d.entries - Removed(d, candidates, candidates)
    ensures Distinct(visited) && forall k | k in visited :: k in candidates
  {
    entries, visited := d.entries, [];
    var blocked: set<Key> := {};
    ghost var done: set<Key> := {};
    for i := 0 to |order|
      invariant done == Elements(order[..i]) && done <= candidates
      invariant entries == d.entries - Removed(d, candidates, done)
      invariant BlockedRight(d, candidates, done, blocked)
      invariant Distinct(visited) && forall k | k in visited :: k in done
    {
      var key := order[i];
      NotYetDone(order, i);
      BlockedGrows(d, candidates, done, blocked, key);
      RemovedSnoc(d, candidates, done, key);
      if key !in blocked {
        BelowAreDone(candidates, order, i);
        UnblockedGoes(d, candidates, done, blocked, entries, key);
        visited := visited + [key];
        if key in d.unreadable || Occupied(entries, key) || key in d.undeletable {
          blocked := BlockPruneAncestors(all, blocked, key.side, key.directory);
        } else {
          entries := DeleteEmpty(entries, key);
        }
      }
      done := done + {key};
    }
    assert order[..|order|] == order;
    assert done == candidates;
  }

  /** One pass removes exactly the candidates that hold nothing but candidates and meet no failure. */
  method PruneEmptiedDirectories(completed: seq<Chain>, d: Disk) returns (entries: set<Key>, visited: seq<Key>)
    ensures Distinct(visited) && forall k | k in visited :: Candidate(completed, k)
    ensures forall e ::
              e in entries <==> e in d.entries && !(Candidate(completed, e) && CandidateRemovable(d, completed, e))
  {
    var keys := CollectCandidates(completed);
    SortedKeeps(keys);
    var candidates := set k | k in keys;
    entries, visited := PruneInOrder(d, candidates, candidates, Sorted(keys));
    forall e ensures e in Removed(d, candidates, candidates) <==>
      Candidate(completed, e) && CandidateRemovable(d, completed, e)
    {
      RemovableMeans(d, completed, candidates, e);
    }
  }

  lemma RemovableMeans(d: Disk, completed: seq<Chain>, candidates: set<Key>, e: Key)
    requires forall k :: k in candidates <==> Candidate(completed, k)
    ensures Removable(d, candidates, e) <==> Candidate(completed, e) && CandidateRemovable(d, completed, e)
  {
  }

  /** The removal condition, in terms of the chains. */
  ghost predicate CandidateRemovable(d: Disk, completed: seq<Chain>, c: Key) {
    && !Faulty(d, c)
    && (forall e | e in d.entries && Under(e, c) :: Candidate(completed, e))
    && (forall k | Candidate(completed, k) && Under(k, c) :: !Faulty(d, k))
  }

  lemma BelowAreDone(candidates: set<Key>, order: seq<Key>, i: nat)
    requires DeepestFirst(order) && i < |order| && forall k :: k in order <==> k in candidates
    ensures forall k | k in candidates && Under(k, order[i]) :: k in order[..i]
  {
    forall k | k in candidates && Under(k, order[i]) ensures k in order[..i] {
      var j :| 0 <= j < |order| && order[j] == k;
      assert j < i;
    }
  }

  /** Without failures a candidate survives only with something in it that is no candidate, and that survives too. */
  lemma SurvivorIsOccupied(d: Disk, completed: seq<Chain>, entries: set<Key>, c: Key)
    requires d.unreadable == {} && d.undeletable == {}
    requires forall e ::
               e in entries <==> e in d.entries && !(Candidate(completed, e) && CandidateRemovable(d, completed, e))
    requires Candidate(completed, c) && c in entries
    ensures Occupied(entries, c)
  {
  }
}
