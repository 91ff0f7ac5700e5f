/** Local mutations with disjoint path sets run together: src/sync/local-mutation-barrier.ts. */
module MutationBarriers {
  /** Paths are only compared here. */
  type Path(==, !new)

  /** One call of `run`, numbered in call order, with the paths it declared. */
  datatype Node = Node(id: nat, paths: set<Path>)

  /** The two fields of the barrier, then the operations under way and the number of calls. */
  datatype State = State(active: set<Path>, pending: seq<Node>, running: map<nat, set<Path>>, calls: nat)

  const EMPTY := State({}, [], map[], 0)

  predicate Overlaps(node: Node, active: set<Path>) {
    exists p | p in node.paths :: p in active
  }

  /** Splice the node out, claim its paths and begin its operation. */
  function Start(s: State, index: nat): State
    requires index < |s.pending|
  {
    var node := s.pending[index];
    s.(pending := s.pending[..index] + s.pending[index + 1..], active := s.active + node.paths,
       running := s.running[node.id := node.paths])
  }

  /** The scan: an overlapping node is stepped over, any other is spliced out and begun. */
  function DrainFrom(s: State, index: nat): State
    decreases |s.pending| - index
  {
    if index >= |s.pending| then s
    else if Overlaps(s.pending[index], s.active) then DrainFrom(s, index + 1)
    else DrainFrom(Start(s, index), index)
  }

  function Run(s: State, paths: set<Path>): State {
    DrainFrom(s.(pending := s.pending + [Node(s.calls, paths)], calls := s.calls + 1), 0)
  }

  /** An operation has ended, well or badly: free its paths and scan again. */
  function Finish(s: State, id: nat): State {
    if id in s.running then DrainFrom(s.(active := s.active - s.running[id], running := s.running - {id}), 0) else s
  }

  datatype Event = Runs(paths: set<Path>) | Finishes(id: nat)

  function Apply(s: State, e: Event): State {
    match e
    case Runs(paths) => Run(s, paths)
    case Finishes(id) => Finish(s, id)
  }

  function ApplyAll(s: State, events: seq<Event>): State {
    if events == [] then s else Apply(ApplyAll(s, events[..|events| - 1]), events[|events| - 1])
  }

  // ---------------------------------------------------------------- the invariant

  /** Operations under way touch no common path. */
  ghost predicate Disjoint(running: map<nat, set<Path>>) {
    forall a, b | a in running && b in running && a != b :: running[a] !! running[b]
  }

  /** `active` is exactly what the operations under way declared. */
  ghost predicate ActiveIsUnion(s: State) {
    forall p :: p in s.active <==> exists id | id in s.running :: p in s.running[id]
  }

  /** Each waiting node overlaps what is active. */
  ghost predicate Blocked(pending: seq<Node>, active: set<Path>) {
    forall i | 0 <= i < |pending| :: Overlaps(pending[i], active)
  }

  /** Waiting nodes are in call order, and none of them is under way. */
  ghost predicate Numbered(s: State) {
    && (forall i, j | 0 <= i < j < |s.pending| :: s.pending[i].id < s.pending[j].id)
    && (forall i | 0 <= i < |s.pending| :: s.pending[i].id < s.calls && s.pending[i].id !in s.running)
    && (forall id | id in s.running :: id < s.calls)
  }

  ghost predicate Claimed(s: State) {
    Disjoint(s.running) && ActiveIsUnion(s) && Numbered(s)
  }

  ghost predicate Inv(s: State) {
    Claimed(s) && Blocked(s.pending, s.active)
  }

  lemma StartKeeps(s: State, index: nat)
    requires Claimed(s) && index < |s.pending| && !Overlaps(s.pending[index], s.active)
    requires Blocked(s.pending[..index], s.active)
    ensures Claimed(Start(s, index)) && Blocked(Start(s, index).pending[..index], Start(s, index).active)
  {
    var t := Start(s, index);
    var node := s.pending[index];
    forall i | 0 <= i < |t.pending| ensures t.pending[i] == s.pending[if i < index then i else i + 1] {
    }
    forall p ensures p in t.active <==> exists id | id in t.running :: p in t.running[id] {
      if p in s.active {
        var id :| id in s.running && p in s.running[id];
        assert t.running[id] == s.running[id];
      }
      if p in node.paths {
        assert p in t.running[node.id];
      }
    }
    forall i | 0 <= i < index ensures Overlaps(t.pending[..index][i], t.active) {
      assert s.pending[..index][i] == t.pending[..index][i];
      var p :| p in s.pending[..index][i].paths && p in s.active;
      assert p in t.active;
    }
  }

  lemma {:induction false} DrainKeeps(s: State, index: nat)
    requires Claimed(s) && index <= |s.pending| && Blocked(s.pending[..index], s.active)
    ensures Inv(DrainFrom(s, index))
    decreases |s.pending| - index
  {
    if index == |s.pending| {
      assert s.pending[..index] == s.pending;
    } else if Overlaps(s.pending[index], s.active) {
      DrainKeeps(s, index + 1);
    } else {
      StartKeeps(s, index);
      DrainKeeps(Start(s, index), index);
    }
  }

  lemma FreedKeeps(s: State, id: nat)
    requires Claimed(s) && id in s.running
    ensures Claimed(s.(active := s.active - s.running[id], running := s.running - {id}))
  {
    var t := s.(active := s.active - s.running[id], running := s.running - {id});
    forall p ensures p in t.active <==> exists other | other in t.running :: p in t.running[other] {
      if p in t.active {
        var other :| other in s.running && p in s.running[other];
        assert other in t.running && t.running[other] == s.running[other];
      }
      if other :| other in t.running && p in t.running[other] {
        assert p in s.running[other] && s.running[other] !! s.running[id];
      }
    }
  }

  lemma ApplyKeeps(s: State, e: Event)
    requires Inv(s)
    ensures Inv(Apply(s, e))
  {
    match e
    case Runs(paths) =>
      DrainKeeps(s.(pending := s.pending + [Node(s.calls, paths)], calls := s.calls + 1), 0);
    case Finishes(id) =>
      if id in s.running {
        FreedKeeps(s, id);
        DrainKeeps(s.(active := s.active - s.running[id], running := s.running - {id}), 0);
      }
  }

  /** Every run of the barrier. */
  lemma {:induction false} RunKeeps(events: seq<Event>)
    ensures Inv(ApplyAll(EMPTY, events))
  {
    if events != [] {
      RunKeeps(events[..|events| - 1]);
      ApplyKeeps(ApplyAll(EMPTY, events[..|events| - 1]), events[|events| - 1]);
    }
  }

  /** Each waiting operation overlaps one under way, so nothing waits when nothing runs. */
  lemma WaiterHasBlocker(s: State, i: nat)
    requires Inv(s) && i < |s.pending|
    ensures exists id | id in s.running :: s.pending[i].paths * s.running[id] != {}
  {
    assert Overlaps(s.pending[i], s.active);
    var p :| p in s.pending[i].paths && p in s.active;
    var id :| id in s.running && p in s.running[id];
    assert p in s.pending[i].paths * s.running[id];
  }

  // ---------------------------------------------------------------- who may overtake whom

  /** Nothing that started between `s` and `t` covers an earlier call that still waits in `t`. */
  ghost predicate NoneOvertaken(s: State, t: State) {
    forall id, i | id in t.running && id !in s.running && 0 <= i < |t.pending| && t.pending[i].id < id ::
      !(t.pending[i].paths <= t.running[id])
  }

  /** A scan only starts waiting nodes, and leaves the others where they were. */
  ghost predicate ScanFrame(s: State, t: State) {
    && (forall id | id in s.running :: id in t.running && t.running[id] == s.running[id])
    && (forall i | 0 <= i < |t.pending| :: t.pending[i] in s.pending)
    && s.active <= t.active && t.calls == s.calls
  }

  lemma {:induction false} DrainFrame(s: State, index: nat)
    requires Claimed(s) && index <= |s.pending| && Blocked(s.pending[..index], s.active)
    ensures ScanFrame(s, DrainFrom(s, index))
    decreases |s.pending| - index
  {
    if index < |s.pending| {
      if Overlaps(s.pending[index], s.active) {
        DrainFrame(s, index + 1);
      } else {
        StartKeeps(s, index);
        DrainFrame(Start(s, index), index);
      }
    }
  }

  /** What starts at `index` shares no path with `active`, and every earlier node left behind does. */
  lemma StartOvertakesNone(s: State, index: nat, t: State)
    requires Claimed(s) && index < |s.pending| && !Overlaps(s.pending[index], s.active)
    requires Blocked(s.pending[..index], s.active) && ScanFrame(Start(s, index), t)
    ensures forall i | 0 <= i < |t.pending| && t.pending[i].id < s.pending[index].id ::
              !(t.pending[i].paths <= s.pending[index].paths)
  {
    forall i | 0 <= i < |t.pending| && t.pending[i].id < s.pending[index].id
      ensures !(t.pending[i].paths <= s.pending[index].paths)
    {
      var node := t.pending[i];
      assert node in Start(s, index).pending;
      var k :| 0 <= k < |s.pending| && s.pending[k] == node && k != index;
      assert s.pending[..index][k] == node;
      assert Overlaps(node, s.active);
      var p :| p in node.paths && p in s.active;
      assert p !in s.pending[index].paths;
    }
  }

  lemma {:induction false} DrainOvertakesNone(s: State, index: nat)
    requires Claimed(s) && index <= |s.pending| && Blocked(s.pending[..index], s.active)
    ensures NoneOvertaken(s, DrainFrom(s, index))
    decreases |s.pending| - index
  {
    if index < |s.pending| {
      if Overlaps(s.pending[index], s.active) {
        DrainOvertakesNone(s, index + 1);
      } else {
        var u := Start(s, index);
        var t := DrainFrom(u, index);
        StartKeeps(s, index);
        DrainOvertakesNone(u, index);
        DrainFrame(u, index);
        StartOvertakesNone(s, index, t);
        assert t.running[s.pending[index].id] == s.pending[index].paths;
      }
    }
  }

  /** No operation starts while an earlier one whose paths are among its own still waits. */
  lemma SubsetNeverOvertaken(s: State, e: Event)
    requires Inv(s)
    ensures NoneOvertaken(s, Apply(s, e))
  {
    if e.Runs? {
      DrainOvertakesNone(s.(pending := s.pending + [Node(s.calls, e.paths)], calls := s.calls + 1), 0);
    } else if e.id in s.running {
      FinishOvertakesNone(s, e.id);
    }
  }

  lemma FinishOvertakesNone(s: State, id: nat)
    requires Inv(s) && id in s.running
    ensures NoneOvertaken(s, Finish(s, id))
  {
    var freed := s.(active := s.active - s.running[id], running := s.running - {id});
    FreedKeeps(s, id);
    DrainOvertakesNone(freed, 0);
    FinishedStaysOut(s, id);
    forall x, i | x in Finish(s, id).running && x !in s.running && 0 <= i < |Finish(s, id).pending| &&
      Finish(s, id).pending[i].id < x
      ensures !(Finish(s, id).pending[i].paths <= Finish(s, id).running[x])
    {
      assert x !in freed.running;
    }
  }

  /** The operation that ended does not start again. */
  lemma FinishedStaysOut(s: State, id: nat)
    requires Inv(s) && id in s.running
    ensures id !in Finish(s, id).running
  {
    FreedKeeps(s, id);
    DrainNeverStarts(s.(active := s.active - s.running[id], running := s.running - {id}), 0, id);
  }

  lemma {:induction false} DrainNeverStarts(s: State, index: nat, id: nat)
    requires id !in s.running && forall i | 0 <= i < |s.pending| :: s.pending[i].id != id
    ensures id !in DrainFrom(s, index).running
    decreases |s.pending| - index
  {
    if index < |s.pending| {
      if Overlaps(s.pending[index], s.active) {
        DrainNeverStarts(s, index + 1, id);
      } else {
        DrainNeverStarts(Start(s, index), index, id);
      }
    }
  }

  /** Every ended operation leaves fewer to run, so with no new calls everything ends. */
  lemma FinishProgress(s: State, id: nat)
    requires Inv(s) && id in s.running
    ensures |Finish(s, id).running| + |Finish(s, id).pending| == |s.running| + |s.pending| - 1
    ensures s.pending != [] ==> s.running != map[]
  {
    FreedKeeps(s, id);
    var t := s.(active := s.active - s.running[id], running := s.running - {id});
    assert s.running.Keys == t.running.Keys + {id};
    assert |s.running.Keys| == |s.running| && |t.running.Keys| == |t.running|;
    DrainCounts(t, 0);
  }

  lemma {:induction false} DrainCounts(s: State, index: nat)
    requires Claimed(s) && index <= |s.pending| && Blocked(s.pending[..index], s.active)
    ensures |DrainFrom(s, index).running| + |DrainFrom(s, index).pending| == |s.running| + |s.pending|
    decreases |s.pending| - index
  {
    if index < |s.pending| {
      if Overlaps(s.pending[index], s.active) {
        DrainCounts(s, index + 1);
      } else {
        StartKeeps(s, index);
        DrainCounts(Start(s, index), index);
      }
    }
  }

  // ---------------------------------------------------------------- every call keeps its paths

  /** The path sets the calls declared, in call order. */
  function Declared(events: seq<Event>): seq<set<Path>> {
    if events == [] then []
    else
      var last := events[|events| - 1];
      Declared(events[..|events| - 1]) + if last.Runs? then [last.paths] else []
  }

  /** The operations that have ended. */
  function Ended(events: seq<Event>): set<nat> {
    if events == [] then {}
    else
      var before, last := events[..|events| - 1], events[|events| - 1];
      Ended(before) + if last.Finishes? && last.id in ApplyAll(EMPTY, before).running then {last.id} else {}
  }

  /** The operation waits or is under way, on these paths. */
  ghost predicate Holds(s: State, id: nat, paths: set<Path>) {
    (id in s.running && s.running[id] == paths) || Node(id, paths) in s.pending
  }

  lemma StartHolds(s: State, index: nat, id: nat, paths: set<Path>)
    requires Claimed(s) && index < |s.pending|
    ensures Holds(Start(s, index), id, paths) <==> Holds(s, id, paths)
  {
    var t := Start(s, index);
    assert forall node :: node in s.pending <==> node in t.pending || node == s.pending[index];
    assert forall i | 0 <= i < |t.pending| :: t.pending[i] == s.pending[if i < index then i else i + 1];
  }

  lemma {:induction false} DrainHolds(s: State, index: nat, id: nat, paths: set<Path>)
    requires Claimed(s) && index <= |s.pending| && Blocked(s.pending[..index], s.active)
    ensures Holds(DrainFrom(s, index), id, paths) <==> Holds(s, id, paths)
    decreases |s.pending| - index
  {
    if index < |s.pending| {
      if Overlaps(s.pending[index], s.active) {
        DrainHolds(s, index + 1, id, paths);
      } else {
        StartKeeps(s, index);
        StartHolds(s, index, id, paths);
        DrainHolds(Start(s, index), index, id, paths);
      }
    }
  }

  lemma QueuedHolds(s: State, declared: set<Path>, id: nat, paths: set<Path>)
    ensures Holds(s.(pending := s.pending + [Node(s.calls, declared)], calls := s.calls + 1), id, paths) <==>
            (id == s.calls && paths == declared) || Holds(s, id, paths)
  {
  }

  lemma FreedHolds(s: State, other: nat, id: nat, paths: set<Path>)
    requires Claimed(s) && other in s.running
    ensures Holds(s.(active := s.active - s.running[other], running := s.running - {other}), id, paths) <==>
            id != other && Holds(s, id, paths)
  {
  }

  lemma RunHolds(s: State, declared: set<Path>, id: nat, paths: set<Path>)
    requires Inv(s)
    ensures Holds(Apply(s, Runs(declared)), id, paths) <==> (id == s.calls && paths == declared) || Holds(s, id, paths)
  {
    QueuedHolds(s, declared, id, paths);
    DrainHolds(s.(pending := s.pending + [Node(s.calls, declared)], calls := s.calls + 1), 0, id, paths);
  }

  lemma FinishHolds(s: State, other: nat, id: nat, paths: set<Path>)
    requires Inv(s) && other in s.running
    ensures Holds(Apply(s, Finishes(other)), id, paths) <==> id != other && Holds(s, id, paths)
  {
    FreedKeeps(s, other);
    FreedHolds(s, other, id, paths);
    DrainHolds(s.(active := s.active - s.running[other], running := s.running - {other}), 0, id, paths);
  }

  /** One event holds the new call on its paths, and lets go of the operation that ended. */
  lemma StepHolds(s: State, e: Event, id: nat, paths: set<Path>)
    requires Inv(s)
    ensures Holds(Apply(s, e), id, paths) <==>
            || (e.Runs? && id == s.calls && paths == e.paths)
            || (Holds(s, id, paths) && !(e.Finishes? && e.id == id && id in s.running))
  {
    if e.Runs? {
      RunHolds(s, e.paths, id, paths);
    } else if e.id in s.running {
      FinishHolds(s, e.id, id, paths);
    }
  }

  lemma StepCalls(s: State, e: Event)
    requires Inv(s)
    ensures Apply(s, e).calls == s.calls + if e.Runs? then 1 else 0
  {
    match e
    case Runs(paths) => DrainFrame(s.(pending := s.pending + [Node(s.calls, paths)], calls := s.calls + 1), 0);
    case Finishes(id) =>
      if id in s.running {
        FreedKeeps(s, id);
        DrainFrame(s.(active := s.active - s.running[id], running := s.running - {id}), 0);
      }
  }

  /** Over every run each call waits or is under way on exactly the paths it declared, until it has ended. */
  lemma {:induction false} CallsKeepTheirPaths(events: seq<Event>, id: nat, paths: set<Path>)
    ensures ApplyAll(EMPTY, events).calls == |Declared(events)|
    ensures Holds(ApplyAll(EMPTY, events), id, paths) <==>
            id < |Declared(events)| && Declared(events)[id] == paths && id !in Ended(events)
    ensures forall k | k in Ended(events) :: k < |Declared(events)|
  {
    if events != [] {
      var before, last := events[..|events| - 1], events[|events| - 1];
      CallsKeepTheirPaths(before, id, paths);
      RunKeeps(before);
      StepHolds(ApplyAll(EMPTY, before), last, id, paths);
      StepCalls(ApplyAll(EMPTY, before), last);
    }
  }

  // ---------------------------------------------------------------- the class

  /** Every method is one event, so RunKeeps covers whatever sequence of calls an instance sees. */
  class LocalMutationBarrier {
    var active: set<Path>
    var pending: seq<Node>
    var running: map<nat, set<Path>>
    var calls: nat

    ghost function View(): State
      reads this
    {
      State(active, pending, running, calls)
    }

    constructor ()
      ensures View() == EMPTY
    {
      active, pending, running, calls := {}, [], map[], 0;
    }

    method DrainPending()
      modifies this`active, this`pending, this`running
      ensures View() == DrainFrom(old(View()), 0)
    {
      var index := 0;
      while index < |pending|
        invariant DrainFrom(View(), index) == DrainFrom(old(View()), 0)
        invariant calls == old(calls)
        decreases |pending| - index
      {
        var node := pending[index];
        if Overlaps(node, active) {
          index := index + 1;
        } else {
          pending := pending[..index] + pending[index + 1..];
          active := active + node.paths;
          running := running[node.id := node.paths];
        }
      }
    }

    /** A call of `run`; the operations the scan begins run on past it. */
    method RunOperation(paths: seq<Path>) returns (id: nat)
      modifies this
      ensures View() == Apply(old(View()), Runs(set p | p in paths)) && id == old(calls)
    {
      id := calls;
      calls := calls + 1;
      pending := pending + [Node(id, set p | p in paths)];
      DrainPending();
    }

    /** The operation's promise has settled. */
    method FinishOperation(id: nat)
      requires id in running
      modifies this
      ensures View() == Apply(old(View()), Finishes(id))
    {
      active := active - running[id];
      running := running - {id};
      DrainPending();
    }
  }
}
