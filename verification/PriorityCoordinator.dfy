/** Normal permits, coalesced priority work and finalization: src/sync/priority-coordinator.ts. Each operation is one
    stretch of code between two awaits; a started run ends the stretch. */
module PriorityCoordination {
  import opened Wrappers

  /** Paths and work closures are only compared and handed on. */
  type Path(==, !new)
  type Work(==, !new)

  /** One call that returned a promise, numbered in call order. */
  type Caller = nat
  type PermitId = nat

  datatype PriorityNode = PriorityNode(path: Path, work: Work, waiters: seq<Caller>)

  datatype FinalizerNode = FinalizerNode(work: Work, waiter: Caller)

  datatype Run = PriorityRun(node: PriorityNode) | FinalizerRun(finalizer: FinalizerNode)

  /** A settled promise, with the moment its run started. */
  datatype Settlement = Settlement(startedAt: nat, ok: bool)

  function RunWaiters(run: Option<Run>): seq<Caller> {
    match run
    case None => []
    case Some(PriorityRun(node)) => node.waiters
    case Some(FinalizerRun(finalizer)) => [finalizer.waiter]
  }

  function PendingWaiters(pending: seq<PriorityNode>): seq<Caller> {
    if pending == [] then [] else PendingWaiters(pending[..|pending| - 1]) + pending[|pending| - 1].waiters
  }

  function FinalizerWaiters(finalizers: seq<FinalizerNode>): seq<Caller> {
    seq(|finalizers|, i requires 0 <= i < |finalizers| => finalizers[i].waiter)
  }

  predicate UniqueNodes(pending: seq<PriorityNode>) {
    forall i, j | 0 <= i < j < |pending| :: pending[i].path != pending[j].path
  }

  function IndexOf(pending: seq<PriorityNode>, path: Path): (k: Option<nat>)
    ensures k.Some? ==> k.value < |pending| && pending[k.value].path == path
    ensures k.None? ==> forall i | 0 <= i < |pending| :: pending[i].path != path
  {
    if pending == [] then None
    else if pending[|pending| - 1].path == path then Some(|pending| - 1)
    else IndexOf(pending[..|pending| - 1], path)
  }

  function Joined(pending: seq<PriorityNode>, k: nat, caller: Caller): seq<PriorityNode>
    requires k < |pending|
  {
    pending[k := pending[k].(waiters := pending[k].waiters + [caller])]
  }

  // ---------------------------------------------------------------- who waits where

  lemma {:induction false} FirstPendingWaiters(pending: seq<PriorityNode>)
    requires pending != []
    ensures PendingWaiters(pending) == pending[0].waiters + PendingWaiters(pending[1..])
  {
    if |pending| > 1 {
      var k := |pending| - 1;
      FirstPendingWaiters(pending[..k]);
      assert pending[..k][1..] == pending[1..][..k - 1];
    }
  }

  lemma {:induction false} JoinedWaiters(pending: seq<PriorityNode>, k: nat, caller: Caller)
    requires k < |pending|
    ensures multiset(PendingWaiters(Joined(pending, k, caller))) == multiset(PendingWaiters(pending)) + multiset{caller}
  {
    var n := |pending| - 1;
    if k < n {
      JoinedWaiters(pending[..n], k, caller);
      assert Joined(pending, k, caller)[..n] == Joined(pending[..n], k, caller);
    } else {
      assert Joined(pending, k, caller)[..n] == pending[..n];
    }
  }

  ghost function Outstanding(pending: seq<PriorityNode>, finalizers: seq<FinalizerNode>, normal: seq<Caller>,
                             run: Option<Run>): multiset<Caller> {
    multiset(PendingWaiters(pending)) + multiset(FinalizerWaiters(finalizers)) + multiset(normal) +
      multiset(RunWaiters(run))
  }

  function Answered(waiters: seq<Caller>, settled: map<Caller, Settlement>,
                    outcome: Settlement): map<Caller, Settlement> {
    map c | c in settled.Keys + (set w | w in waiters) :: if c in waiters then outcome else settled[c]
  }

  function One(c: Caller, s: set<Caller>): nat { if c in s then 1 else 0 }

  /** Every call made is counted once: it waits or runs, or it was settled, or it got its permit. */
  ghost predicate Balanced(out: multiset<Caller>, settled: set<Caller>, granted: set<Caller>, all: set<Caller>) {
    forall c: Caller {:trigger One(c, all)} :: out[c] + One(c, settled) + One(c, granted) == One(c, all)
  }

  lemma NewWaiter(out: multiset<Caller>, settled: set<Caller>, granted: set<Caller>, all: set<Caller>, c: Caller)
    requires Balanced(out, settled, granted, all) && c !in all
    ensures Balanced(out + multiset{c}, settled, granted, all + {c})
  {
    assert One(c, all) == 0;
    forall d: Caller {:trigger One(d, all + {c})}
      ensures (out + multiset{c})[d] + One(d, settled) + One(d, granted) == One(d, all + {c})
    {
      assert out[d] + One(d, settled) + One(d, granted) == One(d, all);
    }
  }

  lemma NewGrant(out: multiset<Caller>, settled: set<Caller>, granted: set<Caller>, all: set<Caller>, c: Caller)
    requires Balanced(out, settled, granted, all) && c !in all
    ensures c !in granted && Balanced(out, settled, granted + {c}, all + {c})
  {
    assert One(c, all) == 0;
    forall d: Caller {:trigger One(d, all + {c})}
      ensures out[d] + One(d, settled) + One(d, granted + {c}) == One(d, all + {c})
    {
      assert out[d] + One(d, settled) + One(d, granted) == One(d, all);
    }
  }

  lemma WaitersAnswered(out: multiset<Caller>, settled: set<Caller>, granted: set<Caller>, all: set<Caller>,
                        waiters: seq<Caller>)
    requires Balanced(out + multiset(waiters), settled, granted, all)
    ensures (set w | w in waiters) !! settled && Balanced(out, settled + (set w | w in waiters), granted, all)
  {
    var answered := set w | w in waiters;
    forall d: Caller
      ensures d in answered ==> d !in settled
      ensures out[d] + One(d, settled + answered) + One(d, granted) == One(d, all)
    {
      assert (out + multiset(waiters))[d] + One(d, settled) + One(d, granted) == One(d, all);
      assert d in waiters <==> d in multiset(waiters);
      assert d in answered ==> One(d, settled) == 0;
    }
  }

  // ---------------------------------------------------------------- the state and its operations

  /** The fields of the coordinator, then the history of its calls. */
  datatype State = State(
    activeNormal: int,
    pending: seq<PriorityNode>,
    finalizers: seq<FinalizerNode>,
    normalWaiters: seq<Caller>,
    draining: bool,
    running: Option<Run>,
    released: map<PermitId, bool>,
    permits: nat,
    callers: nat,
    clock: nat,
    startedAt: nat,
    requestedAt: map<Caller, nat>,
    settled: map<Caller, Settlement>,
    granted: map<Caller, PermitId>)

  function Requested(s: State): State {
    s.(callers := s.callers + 1, requestedAt := s.requestedAt[s.callers := s.clock])
  }

  predicate CanAdmitNormal(s: State) {
    !s.draining && s.pending == [] && s.finalizers == []
  }

  function Permitted(s: State, caller: Caller): State {
    s.(activeNormal := s.activeNormal + 1, released := s.released[s.permits := false], permits := s.permits + 1,
       granted := s.granted[caller := s.permits])
  }

  function PermittedAll(s: State, waiters: seq<Caller>): State
    decreases waiters
  {
    if waiters == [] then s else PermittedAll(Permitted(s, waiters[0]), waiters[1..])
  }

  function Started(s: State, run: Run): State {
    s.(running := Some(run), clock := s.clock + 1, startedAt := s.clock + 1)
  }

  /** From the top of the drain loop to its next await, or through its `finally`. */
  function DrainLoop(s: State): State {
    if s.activeNormal == 0 && s.pending != [] then
      Started(s.(pending := s.pending[1..]), PriorityRun(s.pending[0]))
    else if s.activeNormal == 0 && s.finalizers != [] then
      Started(s.(finalizers := s.finalizers[1..]), FinalizerRun(s.finalizers[0]))
    else
      var idle := s.(draining := false);
      if CanAdmitNormal(idle) then PermittedAll(idle.(normalWaiters := []), idle.normalWaiters) else idle
  }

  function DrainRequested(s: State): State {
    if s.draining || s.activeNormal > 0 then s else DrainLoop(s.(draining := true))
  }

  function AcquireNormalPermit(s: State): State {
    if CanAdmitNormal(s) then Permitted(Requested(s), s.callers)
    else Requested(s).(normalWaiters := s.normalWaiters + [s.callers])
  }

  function Enqueue(s: State, path: Path, work: Work): State {
    match IndexOf(s.pending, path)
    case Some(k) => Requested(s).(pending := Joined(s.pending, k, s.callers))
    case None => DrainRequested(Requested(s).(pending := s.pending + [PriorityNode(path, work, [s.callers])]))
  }

  function Finalize(s: State, work: Work): State {
    DrainRequested(Requested(s).(finalizers := s.finalizers + [FinalizerNode(work, s.callers)]))
  }

  function Release(s: State, permit: PermitId): State {
    if permit !in s.released || s.released[permit] then s
    else DrainRequested(s.(released := s.released[permit := true], activeNormal := s.activeNormal - 1))
  }

  /** The awaited run ended: answer everyone who waited for it, and go round the loop. */
  function Settle(s: State, ok: bool): State {
    if s.running.None? then s
    else
      DrainLoop(s.(settled := Answered(RunWaiters(s.running), s.settled, Settlement(s.startedAt, ok)), running := None))
  }

  datatype Event =
    | Acquires
    | Enqueues(path: Path, work: Work)
    | Finalizes(work: Work)
    | Releases(permit: PermitId)
    | Settles(ok: bool)

  function Apply(s: State, e: Event): State {
    match e
    case Acquires => AcquireNormalPermit(s)
    case Enqueues(path, work) => Enqueue(s, path, work)
    case Finalizes(work) => Finalize(s, work)
    case Releases(permit) => Release(s, permit)
    case Settles(ok) => Settle(s, ok)
  }

  function ApplyAll(s: State, events: seq<Event>): State {
    if events == [] then s else Apply(ApplyAll(s, events[..|events| - 1]), events[|events| - 1])
  }

  const IDLE := State(0, [], [], [], false, None, map[], 0, 0, 0, 0, map[], map[], map[])

  // ---------------------------------------------------------------- the invariants

  ghost function Held(released: map<PermitId, bool>): set<PermitId> {
    set p | p in released && !released[p]
  }

  ghost predicate PermitsCounted(s: State) {
    s.activeNormal == |Held(s.released)| && forall p | p in s.released :: p < s.permits
  }

  /** No priority work and no finalizer runs while a normal permit is held. */
  ghost predicate Exclusive(s: State) {
    (s.draining <==> s.running.Some?) && (s.draining ==> s.activeNormal == 0)
  }

  /** With nothing running and no permit held nobody waits; permits wait only behind other work. */
  ghost predicate NoLostWakeup(s: State) {
    && (!s.draining && s.activeNormal == 0 ==> s.pending == [] && s.finalizers == [] && s.normalWaiters == [])
    && (!s.draining && s.pending == [] && s.finalizers == [] ==> s.normalWaiters == [])
  }

  ghost predicate Accounted(s: State) {
    && Balanced(Outstanding(s.pending, s.finalizers, s.normalWaiters, s.running), s.settled.Keys, s.granted.Keys,
                s.requestedAt.Keys)
    && forall c | c in s.requestedAt :: c < s.callers
  }

  /** Every run started after each request it answers. */
  ghost predicate Timely(s: State) {
    && s.startedAt <= s.clock
    && (forall c | c in s.requestedAt :: s.requestedAt[c] <= s.clock)
    && (forall c | c in RunWaiters(s.running) :: c in s.requestedAt && s.requestedAt[c] < s.startedAt)
    && (forall c | c in s.settled :: c in s.requestedAt && s.requestedAt[c] < s.settled[c].startedAt)
  }

  ghost predicate Inv(s: State) {
    PermitsCounted(s) && Exclusive(s) && NoLostWakeup(s) && Accounted(s) && Timely(s) && UniqueNodes(s.pending)
  }

  /** The state at the top of the drain loop. */
  ghost predicate InDrain(s: State) {
    && PermitsCounted(s) && s.draining && s.running.None? && s.activeNormal == 0
    && Accounted(s) && Timely(s) && UniqueNodes(s.pending)
  }

  // ---------------------------------------------------------------- granting all waiting permits

  lemma PermittedHeld(s: State, c: Caller)
    requires PermitsCounted(s)
    ensures PermitsCounted(Permitted(s, c))
  {
    var after := Permitted(s, c).released;
    assert Held(after) == Held(s.released) + {s.permits};
  }

  lemma {:induction false} AllPermitted(s: State, waiters: seq<Caller>)
    requires PermitsCounted(s)
    ensures var t := PermittedAll(s, waiters);
            && PermitsCounted(t) && t.activeNormal == s.activeNormal + |waiters|
            && t ==
               s.(activeNormal := t.activeNormal, released := t.released, permits := t.permits, granted := t.granted)
            && t.granted.Keys == s.granted.Keys + (set w | w in waiters)
    decreases waiters
  {
    if waiters != [] {
      PermittedHeld(s, waiters[0]);
      AllPermitted(Permitted(s, waiters[0]), waiters[1..]);
    }
  }

  lemma WaitersGranted(out: multiset<Caller>, settled: set<Caller>, granted: set<Caller>, all: set<Caller>,
                       waiters: seq<Caller>)
    requires Balanced(out + multiset(waiters), settled, granted, all)
    ensures Balanced(out, settled, granted + (set w | w in waiters), all)
  {
    var answered := set w | w in waiters;
    forall d: Caller {:trigger One(d, all)}
      ensures out[d] + One(d, settled) + One(d, granted + answered) == One(d, all)
    {
      assert (out + multiset(waiters))[d] + One(d, settled) + One(d, granted) == One(d, all);
      assert d in waiters <==> d in multiset(waiters);
    }
  }

  // ---------------------------------------------------------------- the drain loop

  /** Whoever waits has asked. */
  lemma WaiterAsked(s: State, c: Caller)
    requires Accounted(s) && c in Outstanding(s.pending, s.finalizers, s.normalWaiters, s.running)
    ensures c in s.requestedAt
  {
    assert One(c, s.requestedAt.Keys) == 1;
  }

  lemma OutstandingStarts(pending: seq<PriorityNode>, finalizers: seq<FinalizerNode>, normal: seq<Caller>)
    requires pending != []
    ensures Outstanding(pending[1..], finalizers, normal, Some(PriorityRun(pending[0]))) ==
            Outstanding(pending, finalizers, normal, None)
    ensures forall c | c in pending[0].waiters :: c in Outstanding(pending, finalizers, normal, None)
  {
    FirstPendingWaiters(pending);
    forall c | c in pending[0].waiters ensures c in Outstanding(pending, finalizers, normal, None) {
      assert c in multiset(pending[0].waiters);
    }
  }

  lemma PriorityStarts(s: State)
    requires InDrain(s) && s.pending != []
    ensures Inv(DrainLoop(s))
  {
    OutstandingStarts(s.pending, s.finalizers, s.normalWaiters);
    forall c | c in s.pending[0].waiters ensures c in s.requestedAt {
      WaiterAsked(s, c);
    }
  }

  lemma FirstFinalizerWaiter(finalizers: seq<FinalizerNode>)
    requires finalizers != []
    ensures FinalizerWaiters(finalizers) == [finalizers[0].waiter] + FinalizerWaiters(finalizers[1..])
  {
  }

  lemma FinalizerStarts(s: State)
    requires InDrain(s) && s.pending == [] && s.finalizers != []
    ensures Inv(DrainLoop(s))
  {
    var t := DrainLoop(s);
    FirstFinalizerWaiter(s.finalizers);
    var c := s.finalizers[0].waiter;
    assert multiset(RunWaiters(t.running)) == multiset{c};
    assert Outstanding(t.pending, t.finalizers, t.normalWaiters, t.running) ==
           Outstanding(s.pending, s.finalizers, s.normalWaiters, s.running);
    assert c in multiset(FinalizerWaiters(s.finalizers)) by {
      assert FinalizerWaiters(s.finalizers)[0] == c;
    }
    WaiterAsked(s, c);
  }

  lemma DrainEnds(s: State)
    requires InDrain(s) && s.pending == [] && s.finalizers == []
    ensures Inv(DrainLoop(s))
  {
    var idle := s.(draining := false, normalWaiters := []);
    AllPermitted(idle, s.normalWaiters);
    var t := DrainLoop(s);
    var out := Outstanding([], [], [], None);
    assert Outstanding(s.pending, s.finalizers, s.normalWaiters, s.running) == out + multiset(s.normalWaiters);
    WaitersGranted(out, s.settled.Keys, s.granted.Keys, s.requestedAt.Keys, s.normalWaiters);
  }

  /** One round of the loop: the first priority node, else the first finalizer, else everyone waiting for a permit. */
  lemma DrainLoopKeeps(s: State)
    requires InDrain(s)
    ensures Inv(DrainLoop(s))
  {
    if s.pending != [] {
      PriorityStarts(s);
    } else if s.finalizers != [] {
      FinalizerStarts(s);
    } else {
      DrainEnds(s);
    }
  }

  /** Asking for a drain restores the invariants once the queues hold the new request. */
  lemma RequestDrainKeeps(s: State)
    requires PermitsCounted(s) && Exclusive(s) && Accounted(s) && Timely(s) && UniqueNodes(s.pending)
    requires !s.draining && s.activeNormal > 0 ==> (CanAdmitNormal(s) ==> s.normalWaiters == [])
    ensures Inv(DrainRequested(s))
  {
    if !s.draining && s.activeNormal == 0 {
      DrainLoopKeeps(s.(draining := true));
    }
  }

  // ---------------------------------------------------------------- the operations

  lemma OutstandingJoined(pending: seq<PriorityNode>, finalizers: seq<FinalizerNode>, normal: seq<Caller>,
                          run: Option<Run>, k: nat, c: Caller)
    requires k < |pending|
    ensures Outstanding(Joined(pending, k, c), finalizers, normal, run) ==
            Outstanding(pending, finalizers, normal, run) + multiset{c}
  {
    JoinedWaiters(pending, k, c);
  }

  lemma OutstandingNode(pending: seq<PriorityNode>, finalizers: seq<FinalizerNode>, normal: seq<Caller>,
                        run: Option<Run>, path: Path, work: Work, c: Caller)
    ensures Outstanding(pending + [PriorityNode(path, work, [c])], finalizers, normal, run) ==
            Outstanding(pending, finalizers, normal, run) + multiset{c}
  {
  }

  lemma OutstandingFinalizer(pending: seq<PriorityNode>, finalizers: seq<FinalizerNode>, normal: seq<Caller>,
                             run: Option<Run>, work: Work, c: Caller)
    ensures Outstanding(pending, finalizers + [FinalizerNode(work, c)], normal, run) ==
            Outstanding(pending, finalizers, normal, run) + multiset{c}
  {
    assert FinalizerWaiters(finalizers + [FinalizerNode(work, c)]) == FinalizerWaiters(finalizers) + [c];
  }

  /** A new call joins one of the queues. */
  lemma RequestAccounted(s: State, t: State)
    requires Inv(s)
    requires t == Requested(s).(pending := t.pending, finalizers := t.finalizers, normalWaiters := t.normalWaiters)
    requires Outstanding(t.pending, t.finalizers, t.normalWaiters, t.running) ==
             Outstanding(s.pending, s.finalizers, s.normalWaiters, s.running) + multiset{s.callers}
    ensures Accounted(t) && Timely(t)
  {
    NewWaiter(Outstanding(s.pending, s.finalizers, s.normalWaiters, s.running), s.settled.Keys, s.granted.Keys,
              s.requestedAt.Keys, s.callers);
    assert t.requestedAt.Keys == s.requestedAt.Keys + {s.callers};
  }

  lemma AcquireKeeps(s: State)
    requires Inv(s)
    ensures Inv(AcquireNormalPermit(s))
  {
    var t := AcquireNormalPermit(s);
    if CanAdmitNormal(s) {
      PermittedHeld(Requested(s), s.callers);
      NewGrant(Outstanding(s.pending, s.finalizers, s.normalWaiters, s.running), s.settled.Keys, s.granted.Keys,
               s.requestedAt.Keys, s.callers);
      assert t.granted.Keys == s.granted.Keys + {s.callers};
      assert t.requestedAt.Keys == s.requestedAt.Keys + {s.callers};
    } else {
      assert multiset(t.normalWaiters) == multiset(s.normalWaiters) + multiset{s.callers};
      RequestAccounted(s, t);
    }
  }

  lemma CoalesceKeeps(s: State, path: Path, work: Work)
    requires Inv(s) && IndexOf(s.pending, path).Some?
    ensures Inv(Enqueue(s, path, work))
  {
    var k := IndexOf(s.pending, path).value;
    OutstandingJoined(s.pending, s.finalizers, s.normalWaiters, s.running, k, s.callers);
    RequestAccounted(s, Enqueue(s, path, work));
  }

  lemma EnqueueKeeps(s: State, path: Path, work: Work)
    requires Inv(s)
    ensures Inv(Enqueue(s, path, work))
  {
    if IndexOf(s.pending, path).Some? {
      CoalesceKeeps(s, path, work);
    } else {
      var node := PriorityNode(path, work, [s.callers]);
      NodeIsNew(s.pending, node);
      NewNodeKeeps(s, Requested(s).(pending := s.pending + [node]), path, work);
    }
  }

  lemma NodeIsNew(pending: seq<PriorityNode>, node: PriorityNode)
    requires UniqueNodes(pending) && IndexOf(pending, node.path).None?
    ensures UniqueNodes(pending + [node])
  {
  }

  lemma NewNodeKeeps(s: State, t: State, path: Path, work: Work)
    requires Inv(s) && UniqueNodes(t.pending)
    requires t == Requested(s).(pending := s.pending + [PriorityNode(path, work, [s.callers])])
    ensures Inv(DrainRequested(t))
  {
    OutstandingNode(s.pending, s.finalizers, s.normalWaiters, s.running, path, work, s.callers);
    RequestAccounted(s, t);
    RequestDrainKeeps(t);
  }

  lemma FinalizeKeeps(s: State, work: Work)
    requires Inv(s)
    ensures Inv(Finalize(s, work))
  {
    var t := Requested(s).(finalizers := s.finalizers + [FinalizerNode(work, s.callers)]);
    OutstandingFinalizer(s.pending, s.finalizers, s.normalWaiters, s.running, work, s.callers);
    RequestAccounted(s, t);
    RequestDrainKeeps(t);
  }

  lemma ReleaseKeeps(s: State, permit: PermitId)
    requires Inv(s)
    ensures Inv(Release(s, permit))
  {
    if permit in s.released && !s.released[permit] {
      var t := s.(released := s.released[permit := true], activeNormal := s.activeNormal - 1);
      assert Held(s.released) == Held(t.released) + {permit} && permit !in Held(t.released);
      RequestDrainKeeps(t);
    }
  }

  lemma SettleKeeps(s: State, ok: bool)
    requires Inv(s)
    ensures Inv(Settle(s, ok))
  {
    if s.running.Some? {
      var waiters := RunWaiters(s.running);
      var t := s.(settled := Answered(waiters, s.settled, Settlement(s.startedAt, ok)), running := None);
      var out := Outstanding(s.pending, s.finalizers, s.normalWaiters, None);
      assert Outstanding(s.pending, s.finalizers, s.normalWaiters, s.running) == out + multiset(waiters);
      WaitersAnswered(out, s.settled.Keys, s.granted.Keys, s.requestedAt.Keys, waiters);
      assert t.settled.Keys == s.settled.Keys + (set w | w in waiters);
      DrainLoopKeeps(t);
    }
  }

  lemma ApplyKeeps(s: State, e: Event)
    requires Inv(s)
    ensures Inv(Apply(s, e))
  {
    match e
    case Acquires => AcquireKeeps(s);
    case Enqueues(path, work) => EnqueueKeeps(s, path, work);
    case Finalizes(work) => FinalizeKeeps(s, work);
    case Releases(permit) => ReleaseKeeps(s, permit);
    case Settles(ok) => SettleKeeps(s, ok);
  }

  /** Every run of the coordinator, whatever the callers do and whenever runs end. */
  lemma {:induction false} RunKeeps(events: seq<Event>)
    ensures Inv(ApplyAll(IDLE, events))
  {
    if events == [] {
      assert Held(map[]) == {};
    } else {
      RunKeeps(events[..|events| - 1]);
      ApplyKeeps(ApplyAll(IDLE, events[..|events| - 1]), events[|events| - 1]);
    }
  }

  // ---------------------------------------------------------------- what the callers see

  /** The state an event makes before any drain loop runs. */
  function BeforeLoop(s: State, e: Event): State {
    match e
    case Acquires => AcquireNormalPermit(s)
    case Enqueues(path, work) =>
      Requested(s).(pending := match IndexOf(s.pending, path)
                               case Some(k) => Joined(s.pending, k, s.callers)
                               case None => s.pending + [PriorityNode(path, work, [s.callers])])
    case Finalizes(work) => Requested(s).(finalizers := s.finalizers + [FinalizerNode(work, s.callers)])
    case Releases(permit) =>
      if permit !in s.released || s.released[permit] then s
      else s.(released := s.released[permit := true], activeNormal := s.activeNormal - 1)
    case Settles(ok) =>
      if s.running.None? then s
      else s.(settled := Answered(RunWaiters(s.running), s.settled, Settlement(s.startedAt, ok)), running := None)
  }

  predicate EntersLoop(s: State, e: Event) {
    match e
    case Acquires => false
    case Enqueues(path, work) => IndexOf(s.pending, path).None? && !s.draining && s.activeNormal <= 0
    case Finalizes(work) => !s.draining && s.activeNormal <= 0
    case Releases(permit) => permit in s.released && !s.released[permit] && !s.draining && s.activeNormal <= 1
    case Settles(ok) => s.running.Some?
  }

  /** Every event is one direct change, then at most one pass into the drain loop. */
  lemma EventShape(s: State, e: Event)
    requires Exclusive(s)
    ensures Apply(s, e) == if EntersLoop(s, e) then DrainLoop(BeforeLoop(s, e).(draining := true)) else BeforeLoop(s, e)
  {
  }

  lemma OneFewerHeld(s: State, permit: PermitId)
    requires PermitsCounted(s) && permit in s.released && !s.released[permit]
    ensures PermitsCounted(BeforeLoop(s, Releases(permit)))
  {
    var after := s.released[permit := true];
    assert Held(s.released) == Held(after) + {permit} && permit !in Held(after);
  }

  lemma BeforeLoopCounts(s: State, e: Event)
    requires PermitsCounted(s)
    ensures PermitsCounted(BeforeLoop(s, e))
    ensures s.granted.Keys <= BeforeLoop(s, e).granted.Keys
    ensures e.Settles? || BeforeLoop(s, e).settled == s.settled
  {
    if e.Acquires? {
      PermittedHeld(Requested(s), s.callers);
    }
    if e.Releases? && e.permit in s.released && !s.released[e.permit] {
      OneFewerHeld(s, e.permit);
    }
  }

  lemma LoopAnswers(s: State)
    requires PermitsCounted(s)
    ensures DrainLoop(s).settled == s.settled && s.granted.Keys <= DrainLoop(s).granted.Keys
  {
    if s.activeNormal != 0 || (s.pending == [] && s.finalizers == []) {
      AllPermitted(s.(draining := false, normalWaiters := []), s.normalWaiters);
    }
  }

  lemma LoopShrinks(s: State)
    requires PermitsCounted(s) && s.activeNormal >= 0 && s.running.None?
    ensures 0 <= Remaining(DrainLoop(s)) <= Remaining(s)
  {
    if s.activeNormal != 0 || (s.pending == [] && s.finalizers == []) {
      AllPermitted(s.(draining := false, normalWaiters := []), s.normalWaiters);
    }
  }

  /** What one pass into the loop starts: priority work first, then a finalizer, else nothing. */
  lemma LoopStarts(s: State)
    requires PermitsCounted(s)
    ensures var t := DrainLoop(s);
            || (t.running == s.running && (s.activeNormal != 0 || (s.pending == [] && s.finalizers == [])))
            || (s.pending != [] && t.running == Some(PriorityRun(s.pending[0])) && t.pending == s.pending[1..])
            || (s.pending == [] == t.pending && s.finalizers != [] && t.running == Some(FinalizerRun(s.finalizers[0])))
  {
    if s.activeNormal != 0 || (s.pending == [] && s.finalizers == []) {
      AllPermitted(s.(draining := false, normalWaiters := []), s.normalWaiters);
    }
  }

  /** With nothing running and no permit held, every call ever made has been answered, once. */
  lemma IdleMeansAnswered(s: State)
    requires Inv(s) && !s.draining && s.activeNormal == 0
    ensures forall c: Caller :: c in s.requestedAt <==> (c in s.settled || c in s.granted)
  {
    forall c: Caller ensures c in s.requestedAt <==> (c in s.settled || c in s.granted) {
      assert One(c, s.requestedAt.Keys) <= 1;
    }
  }

  lemma NeverBoth(s: State, c: Caller)
    requires Accounted(s)
    ensures !(c in s.settled && c in s.granted)
    ensures c in RunWaiters(s.running) ==> c !in s.settled
  {
    assert One(c, s.requestedAt.Keys) <= 1;
    assert c in RunWaiters(s.running) ==> c in multiset(RunWaiters(s.running));
  }

  /** Only the end of a run settles calls, and it settles exactly those that waited for it. */
  lemma SettledByRun(s: State, e: Event)
    requires Inv(s)
    ensures Apply(s, e).settled ==
            if e.Settles? && s.running.Some?
            then Answered(RunWaiters(s.running), s.settled, Settlement(s.startedAt, e.ok))
            else s.settled
    ensures s.granted.Keys <= Apply(s, e).granted.Keys
  {
    EventShape(s, e);
    BeforeLoopCounts(s, e);
    LoopAnswers(BeforeLoop(s, e).(draining := true));
  }

  /** An answer is final: no later event settles or grants that call again. */
  lemma AnswersAreFinal(s: State, e: Event, c: Caller)
    requires Inv(s)
    ensures c in s.settled ==>
            c in Apply(s, e).settled && Apply(s, e).settled[c] == s.settled[c] && c !in Apply(s, e).granted
    ensures c in s.granted ==> c !in Apply(s, e).settled
  {
    ApplyKeeps(s, e);
    SettledByRun(s, e);
    NeverBoth(s, c);
    NeverBoth(Apply(s, e), c);
    assert c in s.granted ==> c in s.granted.Keys;
  }

  /** A finalizer starts only when no priority work is pending; priority work starts in arrival order. */
  lemma StartOrder(s: State, e: Event)
    requires Inv(s) && Apply(s, e).running != s.running && Apply(s, e).running.Some?
    ensures Apply(s, e).running.value.FinalizerRun? ==> Apply(s, e).pending == []
    ensures s.pending != [] ==>
            Apply(s, e).running == Some(PriorityRun(s.pending[0])) && Apply(s, e).pending == s.pending[1..]
    ensures s.pending == [] && s.finalizers != [] ==>
            !e.Enqueues? && Apply(s, e).running == Some(FinalizerRun(s.finalizers[0]))
  {
    EventShape(s, e);
    BeforeLoopCounts(s, e);
    LoopStarts(BeforeLoop(s, e).(draining := true));
  }

  /** A permit is granted at once exactly when nothing drains and nothing is queued, however many permits are held;
      otherwise the call waits behind the earlier ones. */
  lemma GrantExactly(s: State)
    ensures var t := Apply(s, Acquires);
            && t.callers == s.callers + 1 && t.pending == s.pending && t.finalizers == s.finalizers
            && (if !s.draining && s.pending == [] && s.finalizers == []
                then t.granted == s.granted[s.callers := s.permits] && t.activeNormal == s.activeNormal + 1 &&
                     t.normalWaiters == s.normalWaiters
                else t.granted == s.granted && t.activeNormal == s.activeNormal &&
                     t.normalWaiters == s.normalWaiters + [s.callers])
  {
  }

  /** Work for a path that is queued joins the queued call's node, which keeps its place and its own work; other work is
      queued last, and starts at once when nothing drains and no permit is held. */
  lemma EnqueueExactly(s: State, path: Path, work: Work)
    requires Inv(s)
    ensures var t := Apply(s, Enqueues(path, work));
            forall k: nat | k < |s.pending| && s.pending[k].path == path ::
              && t.pending == s.pending[k := PriorityNode(path, s.pending[k].work, s.pending[k].waiters + [s.callers])]
              && t.running == s.running
    ensures var t := Apply(s, Enqueues(path, work));
            (forall n | n in s.pending :: n.path != path) ==>
              var node := PriorityNode(path, work, [s.callers]);
              if s.draining || s.activeNormal > 0 then t.pending == s.pending + [node] && t.running == s.running
              else t.pending == [] && t.running == Some(PriorityRun(node))
  {
    EventShape(s, Enqueues(path, work));
  }

  // ---------------------------------------------------------------- the order of calls

  ghost predicate Rising(callers: seq<Caller>) {
    forall i, j | 0 <= i < j < |callers| :: callers[i] < callers[j]
  }

  /** Everyone queued is in call order: nodes by the call that made them, and each node's own waiters. */
  ghost predicate InCallOrder(s: State) {
    && Rising(s.normalWaiters) && Rising(FinalizerWaiters(s.finalizers))
    && (forall i | 0 <= i < |s.pending| :: s.pending[i].waiters != [] && Rising(s.pending[i].waiters))
    && (forall i, j | 0 <= i < j < |s.pending| :: s.pending[i].waiters[0] < s.pending[j].waiters[0])
  }

  /** Every call queued was made before. */
  ghost predicate Called(s: State) {
    && (forall c | c in s.normalWaiters :: c < s.callers)
    && (forall f | f in s.finalizers :: f.waiter < s.callers)
    && (forall n, c | n in s.pending && c in n.waiters :: c < s.callers)
  }

  lemma RisingSnoc(callers: seq<Caller>, c: Caller)
    requires Rising(callers) && forall d | d in callers :: d < c
    ensures Rising(callers + [c])
  {
    assert forall i | 0 <= i < |callers| :: callers[i] in callers;
  }

  lemma JoinOrdered(s: State, k: nat)
    requires InCallOrder(s) && Called(s) && k < |s.pending|
    ensures var t := Requested(s).(pending := Joined(s.pending, k, s.callers)); InCallOrder(t) && Called(t)
  {
    var t := Requested(s).(pending := Joined(s.pending, k, s.callers));
    forall i | 0 <= i < |t.pending|
      ensures t.pending[i].waiters != [] && Rising(t.pending[i].waiters)
      ensures t.pending[i].waiters[0] == s.pending[i].waiters[0]
      ensures forall c | c in t.pending[i].waiters :: c < t.callers
    {
      assert s.pending[i] in s.pending;
      RisingSnoc(s.pending[i].waiters, s.callers);
    }
  }

  lemma QueueOrdered(s: State, node: PriorityNode)
    requires InCallOrder(s) && Called(s) && node.waiters == [s.callers]
    ensures var t := Requested(s).(pending := s.pending + [node]); InCallOrder(t) && Called(t)
  {
    var t := Requested(s).(pending := s.pending + [node]);
    forall i | 0 <= i < |s.pending|
      ensures s.pending[i].waiters[0] < s.callers
    {
      assert s.pending[i] in s.pending && s.pending[i].waiters[0] in s.pending[i].waiters;
    }
    assert forall n | n in t.pending :: n in s.pending || n == node;
  }

  lemma FinalizerOrdered(s: State, work: Work)
    requires InCallOrder(s) && Called(s)
    ensures var t := Requested(s).(finalizers := s.finalizers + [FinalizerNode(work, s.callers)]);
            InCallOrder(t) && Called(t)
  {
    var t := Requested(s).(finalizers := s.finalizers + [FinalizerNode(work, s.callers)]);
    assert forall i | 0 <= i < |s.finalizers| :: s.finalizers[i] in s.finalizers;
    assert FinalizerWaiters(t.finalizers) == FinalizerWaiters(s.finalizers) + [s.callers];
    assert forall f | f in t.finalizers :: f in s.finalizers || f.waiter == s.callers;
  }

  lemma BeforeLoopOrdered(s: State, e: Event)
    requires InCallOrder(s) && Called(s)
    ensures InCallOrder(BeforeLoop(s, e)) && Called(BeforeLoop(s, e))
  {
    match e
    case Enqueues(path, work) =>
      if IndexOf(s.pending, path).Some? {
        JoinOrdered(s, IndexOf(s.pending, path).value);
      } else {
        QueueOrdered(s, PriorityNode(path, work, [s.callers]));
      }
    case Finalizes(work) => FinalizerOrdered(s, work);
    case Acquires => RisingSnoc(s.normalWaiters, s.callers);
    case Releases(permit) =>
    case Settles(ok) =>
  }

  lemma PendingTailOrdered(s: State, run: Run)
    requires InCallOrder(s) && Called(s) && s.pending != []
    ensures var t := Started(s.(pending := s.pending[1..]), run); InCallOrder(t) && Called(t)
  {
    assert forall n | n in s.pending[1..] :: n in s.pending;
  }

  lemma FinalizerTailOrdered(s: State, run: Run)
    requires InCallOrder(s) && Called(s) && s.finalizers != []
    ensures var t := Started(s.(finalizers := s.finalizers[1..]), run); InCallOrder(t) && Called(t)
  {
    assert FinalizerWaiters(s.finalizers[1..]) == FinalizerWaiters(s.finalizers)[1..];
    assert forall f | f in s.finalizers[1..] :: f in s.finalizers;
  }

  lemma LoopOrdered(s: State)
    requires PermitsCounted(s) && InCallOrder(s) && Called(s)
    ensures InCallOrder(DrainLoop(s)) && Called(DrainLoop(s))
  {
    if s.activeNormal != 0 || (s.pending == [] && s.finalizers == []) {
      AllPermitted(s.(draining := false, normalWaiters := []), s.normalWaiters);
    } else if s.pending != [] {
      PendingTailOrdered(s, PriorityRun(s.pending[0]));
    } else {
      FinalizerTailOrdered(s, FinalizerRun(s.finalizers[0]));
    }
  }

  /** Over every run the queues are in call order, so with `StartOrder` work starts in the order it was first asked for.
      */
  lemma {:induction false} RunInCallOrder(events: seq<Event>)
    ensures InCallOrder(ApplyAll(IDLE, events)) && Called(ApplyAll(IDLE, events))
  {
    if events != [] {
      var s, e := ApplyAll(IDLE, events[..|events| - 1]), events[|events| - 1];
      RunInCallOrder(events[..|events| - 1]);
      RunKeeps(events[..|events| - 1]);
      EventShape(s, e);
      BeforeLoopOrdered(s, e);
      BeforeLoopCounts(s, e);
      if EntersLoop(s, e) {
        LoopOrdered(BeforeLoop(s, e).(draining := true));
      }
    }
  }

  /** A second release of one permit changes nothing. */
  lemma DoubleRelease(s: State, permit: PermitId)
    requires Inv(s)
    ensures Release(Release(s, permit), permit) == Release(s, permit)
  {
    if permit in s.released && !s.released[permit] {
      var b := BeforeLoop(s, Releases(permit)).(draining := true);
      OneFewerHeld(s, permit);
      GrantedLater(b.(draining := false, normalWaiters := []), b.normalWaiters, permit);
    }
  }

  lemma {:induction false} GrantedLater(s: State, waiters: seq<Caller>, permit: PermitId)
    requires permit in s.released && permit < s.permits
    ensures permit in PermittedAll(s, waiters).released
    ensures PermittedAll(s, waiters).released[permit] == s.released[permit]
    decreases waiters
  {
    if waiters != [] {
      GrantedLater(Permitted(s, waiters[0]), waiters[1..], permit);
    }
  }

  /** What is left to do; a request counts double until it runs or is granted. */
  function Remaining(s: State): int {
    2 * (|s.pending| + |s.finalizers| + |s.normalWaiters|) + s.activeNormal + if s.running.Some? then 1 else 0
  }

  /** Every end of a run and every first release makes progress, so with no new calls everyone is answered. */
  lemma Progress(s: State, e: Event)
    requires Inv(s)
    requires (e.Settles? && s.running.Some?) || (e.Releases? && e.permit in s.released && !s.released[e.permit])
    ensures 0 <= Remaining(Apply(s, e)) < Remaining(s)
  {
    EventShape(s, e);
    BeforeLoopCounts(s, e);
    LoopShrinks(BeforeLoop(s, e).(draining := true));
  }

  /** While anything is left, some run is under way or some permit can still be released. */
  lemma NeverStuck(s: State)
    requires Inv(s) && Remaining(s) > 0
    ensures s.running.Some? || Held(s.released) != {}
  {
  }

  // ---------------------------------------------------------------- the class

  /** Every method is one event, so RunKeeps covers whatever sequence of calls an instance sees. */
  class PriorityCoordinator {
    var activeNormal: int
    var pending: seq<PriorityNode>
    var finalizers: seq<FinalizerNode>
    var normalWaiters: seq<Caller>
    var draining: bool
    /** The run the drain loop awaits. */
    var running: Option<Run>
    /** The flag of every permit made. */
    var released: map<PermitId, bool>
    var permits: nat
    var callers: nat
    ghost var clock: nat
    ghost var startedAt: nat
    ghost var requestedAt: map<Caller, nat>
    ghost var settled: map<Caller, Settlement>
    ghost var granted: map<Caller, PermitId>

    ghost function View(): State
      reads this
    {
      State(activeNormal, pending, finalizers, normalWaiters, draining, running, released, permits, callers,
            clock, startedAt, requestedAt, settled, granted)
    }

    constructor ()
      ensures View() == IDLE
    {
      activeNormal, pending, finalizers, normalWaiters, draining, running := 0, [], [], [], false, None;
      released, permits, callers := map[], 0, 0;
      clock, startedAt, requestedAt, settled, granted := 0, 0, map[], map[], map[];
    }

    method Request() returns (caller: Caller)
      modifies this`callers, this`requestedAt
      ensures View() == Requested(old(View())) && caller == old(callers)
    {
      caller := callers;
      callers := callers + 1;
      requestedAt := requestedAt[caller := clock];
    }

    method MakePermit(caller: Caller) returns (permit: PermitId)
      modifies this`activeNormal, this`released, this`permits, this`granted
      ensures View() == Permitted(old(View()), caller) && permit == old(permits)
    {
      permit := permits;
      activeNormal := activeNormal + 1;
      released, permits := released[permit := false], permits + 1;
      granted := granted[caller := permit];
    }

    method AcquireNormalPermit() returns (caller: Caller, permit: Option<PermitId>)
      modifies this
      ensures View() == Apply(old(View()), Acquires)
      ensures permit.Some? <==> CanAdmitNormal(old(View()))
      ensures permit.Some? ==> caller in granted && granted[caller] == permit.value
    {
      caller := Request();
      permit := None;
      if !draining && pending == [] && finalizers == [] {
        var made := MakePermit(caller);
        permit := Some(made);
      } else {
        normalWaiters := normalWaiters + [caller];
      }
    }

    method Enqueue(path: Path, work: Work) returns (caller: Caller)
      modifies this
      ensures View() == Apply(old(View()), Enqueues(path, work))
    {
      caller := Request();
      var existing := IndexOf(pending, path);
      if existing.Some? {
        pending := Joined(pending, existing.value, caller);
        return;
      }
      pending := pending + [PriorityNode(path, work, [caller])];
      RequestDrain();
    }

    method Finalize(work: Work) returns (caller: Caller)
      modifies this
      ensures View() == Apply(old(View()), Finalizes(work))
    {
      caller := Request();
      finalizers := finalizers + [FinalizerNode(work, caller)];
      RequestDrain();
    }

    /** The permit's own release. */
    method Release(permit: PermitId)
      modifies this
      ensures View() == Apply(old(View()), Releases(permit))
    {
      if permit !in released || released[permit] {
        return;
      }
      released := released[permit := true];
      activeNormal := activeNormal - 1;
      RequestDrain();
    }

    /** The awaited run has ended. */
    method Settle(ok: bool)
      requires running.Some?
      modifies this
      ensures View() == Apply(old(View()), Settles(ok))
    {
      settled := Answered(RunWaiters(running), settled, Settlement(startedAt, ok));
      running := None;
      Drain();
    }

    method RequestDrain()
      modifies this
      ensures View() == DrainRequested(old(View()))
    {
      if draining || activeNormal > 0 {
        return;
      }
      draining := true;
      Drain();
    }

    method Start(run: Run)
      modifies this`running, this`clock, this`startedAt
      ensures View() == Started(old(View()), run)
    {
      clock := clock + 1;
      startedAt := clock;
      running := Some(run);
    }

    /** The loop leaves only with both queues empty or a permit held, so its `finally` never asks for another drain. */
    method Drain()
      modifies this
      ensures View() == DrainLoop(old(View()))
    {
      if activeNormal == 0 {
        if pending != [] {
          var node := pending[0];
          pending := pending[1..];
          Start(PriorityRun(node));
          return;
        }
        if finalizers != [] {
          var finalizer := finalizers[0];
          finalizers := finalizers[1..];
          Start(FinalizerRun(finalizer));
          return;
        }
      }
      draining := false;
      if pending == [] && finalizers == [] {
        var waiters := normalWaiters;
        normalWaiters := [];
        ghost var before := View();
        for i := 0 to |waiters|
          invariant PermittedAll(View(), waiters[i..]) == PermittedAll(before, waiters)
        {
          var permit := MakePermit(waiters[i]);
          assert waiters[i..][1..] == waiters[i + 1..];
        }
      }
    }
  }
}
