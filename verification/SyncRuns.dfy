/** Whole runs of cycles: the run loop and the mutex of src/sync/orchestrator.ts, over the tracker and the closeout.
    Each event is one atomic step; edits on either side, requests, priority pulls, throws and crashes may come
    between any two. */
module SyncRuns {
  import opened Wrappers
  import opened LocalTracker
  import opened CycleCloseout

  const MAX_RETRIES := 3

  /** What else takes the mutex: clearSyncState, and the reset a rescan begins with. */
  datatype Hold = Clearing | Resetting

  /** `seen` is the history of local changes at the snapshot; `forced` cycles list the whole remote side. */
  datatype CyclePhase =
    | Idle
    | Held(hold: Hold)
    | Running(snap: Snapshot, seen: map<Path, nat>, attempt: nat, forced: bool)
    | Closed(completion: Completion, snap: Snapshot, seen: map<Path, nat>)

  /** The tracker; then, outside any process, how often each local path was changed, and how many of those changes a
      clean cycle or a verified pull has covered. */
  datatype Near = Near(tracker: LocalTracker.State, changes: map<Path, nat>, covered: map<Path, nat>)

  /** Whether a checkpoint is committed, its remote cursor and the working view's; then, outside any process, how many
      remote changes there are, and which of them an attempt saw that closed clean. */
  datatype Far = Far(committed: bool, durable: nat, working: nat, count: nat, settled: set<nat>)

  datatype Run = Run(near: Near, far: Far, phase: CyclePhase, waiting: seq<Hold>, syncPending: bool)

  /** `rescoped`: the scope differs from the committed one, or the checkpoint cannot be read. `cold`: the attempt lists
      the remote side of its own accord, having no rows or a moved remote folder. `late` is a throw after the attempt
      has closed, while the settings are saved. */
  datatype Event =
    | Reported(mark: Mark)
    | RemoteChanged
    | Requested(rescoped: bool)
    | AttemptEnds(closed: CycleCloseout.Closed, cold: bool, read: nat, late: bool, retry: bool)
    | Acknowledges(rescoped: bool)
    | CycleThrows
    | HoldAsked(hold: Hold)
    | HoldEnds(ok: bool)
    | PriorityPulled(path: Path, generation: nat)
    | Crashed(offline: set<Path>)

  const FRESH := Run(Near(EMPTY, map[], map[]), Far(false, 0, 0, 0, {}), Idle, [], false)

  function Named(m: Mark): set<Path> {
    match m
    case Dirty(path) => {path}
    case Renamed(n, o) => {n, o}
    case FolderRenamed(n, o) => {n, o}
  }

  function Raised(covered: map<Path, nat>, seen: map<Path, nat>): map<Path, nat> {
    map p | p in covered.Keys + seen.Keys ::
      if Generation(covered, p) < Generation(seen, p) then Generation(seen, p) else Generation(covered, p)
  }

  // ---------------------------------------------------------------- the remote cursors

  /** How far a read that aims at `read` brings the working view. */
  function Reach(f: Far, read: nat): nat {
    if read < f.working then f.working else if read > f.count then f.count else read
  }

  predicate Past(f: Far, i: nat) {
    f.working < i
  }

  /** An attempt that lists the remote side sees every change up to where it reads to; any other sees what lies between
      its working view and there. */
  function SeenBy(f: Far, lists: bool, read: nat): set<nat> {
    set i: nat | 1 <= i <= Reach(f, read) && (lists || Past(f, i))
  }

  /** Both cursors after an attempt: a failed abort leaves the working view where the attempt read to. */
  function Ended(f: Far, closed: CycleCloseout.Closed, lists: bool, read: nat): Far {
    if closed == Returned(Clean)
    then Far(true, Reach(f, read), Reach(f, read), f.count, f.settled + SeenBy(f, lists, read))
    else f.(working := if closed.AbortThrew? then Reach(f, read) else f.durable)
  }

  /** A reset forgets the checkpoint, so the next cycle lists everything. */
  function Forgotten(f: Far): Far {
    Far(false, 0, 0, f.count, {})
  }

  // ---------------------------------------------------------------- the run loop and the mutex

  /** One snapshot for the whole cycle, and one choice to list everything, both above the retry loop. */
  function Begin(s: Run, rescoped: bool): Run {
    s.(syncPending := false,
       phase := Running(Captured(s.near.tracker), s.near.changes, 1, !s.far.committed || rescoped))
  }

  /** The mutex goes to whoever has waited longest. */
  function Released(s: Run): Run {
    if s.waiting == [] then s.(phase := Idle) else s.(phase := Held(s.waiting[0]), waiting := s.waiting[1..])
  }

  /** The retry decision after a caught throw. */
  function Retried(s: Run, retry: bool): Run
    requires s.phase.Running?
  {
    if retry && s.phase.attempt < MAX_RETRIES then s.(phase := s.phase.(attempt := s.phase.attempt + 1))
    else Released(s)
  }

  /** The attempt's outcome has come back to the run loop. */
  function ClosedAs(s: Run, completion: Completion): Run
    requires s.phase.Running?
  {
    s.(near := if completion == Clean then s.near.(covered := Raised(s.near.covered, s.phase.seen)) else s.near,
       syncPending := s.syncPending || completion == FollowUp,
       phase := Closed(completion, s.phase.snap, s.phase.seen))
  }

  /** How the retry loop takes an attempt's outcome. */
  function Taken(s: Run, closed: CycleCloseout.Closed, late: bool, retry: bool): Run
    requires s.phase.Running?
  {
    match closed
    case AbortThrew => Released(s)
    case Threw => Retried(s, retry)
    case Returned(completion) => if late then Retried(s, retry) else ClosedAs(s, completion)
  }

  /** The end of one attempt: commit or abort, then close, retry or give up. */
  function AttemptDone(s: Run, closed: CycleCloseout.Closed, cold: bool, read: nat, late: bool, retry: bool): Run
    requires s.phase.Running?
  {
    Taken(s.(far := Ended(s.far, closed, s.phase.forced || cold, read)), closed, late, retry)
  }

  /** A clean cycle consumes all it captured; any other keeps the dirty paths. */
  function Consumed(n: Near, completion: Completion, snap: Snapshot): Near {
    n.(tracker := if completion == Clean then Acknowledged(n.tracker, snap) else RelationsAcknowledged(n.tracker, snap))
  }

  function Acknowledgment(s: Run, rescoped: bool): Run
    requires s.phase.Closed?
  {
    var t := s.(near := Consumed(s.near, s.phase.completion, s.phase.snap));
    if s.syncPending then Begin(t, rescoped) else Released(t)
  }

  /** A completed clear empties the request slot. */
  function HoldDone(s: Run, ok: bool): Run
    requires s.phase.Held?
  {
    if !ok then Released(s)
    else if s.phase.hold == Clearing then Released(s.(syncPending := false))
    else Released(s.(far := Forgotten(s.far)))
  }

  function Pulled(n: Near, path: Path, generation: nat): Near {
    if Generation(n.tracker.generations, path) != generation then n
    else Near(PathAcknowledged(n.tracker, path, generation), n.changes,
              n.covered[path := Generation(n.changes, path)])
  }

  /** Outside its attempts a cycle can throw before the first, or between the last and the acknowledgment. */
  predicate Throwable(s: Run) {
    s.phase.Closed? || (s.phase.Running? && s.phase.attempt == 1)
  }

  function Apply(s: Run, e: Event): Run {
    match e
    case Reported(mark) =>
      s.(near := Near(Report(s.near.tracker, mark), Bumped(s.near.changes, Named(mark)), s.near.covered))
    case RemoteChanged => s.(far := s.far.(count := s.far.count + 1))
    case Requested(rescoped) => if s.phase.Idle? then Begin(s, rescoped) else s.(syncPending := true)
    case AttemptEnds(closed, cold, read, late, retry) =>
      if s.phase.Running? then AttemptDone(s, closed, cold, read, late, retry) else s
    case Acknowledges(rescoped) => if s.phase.Closed? then Acknowledgment(s, rescoped) else s
    case CycleThrows => if Throwable(s) then Released(s) else s
    case HoldAsked(hold) => if s.phase.Idle? then s.(phase := Held(hold)) else s.(waiting := s.waiting + [hold])
    case HoldEnds(ok) => if s.phase.Held? then HoldDone(s, ok) else s
    case PriorityPulled(path, generation) => s.(near := Pulled(s.near, path, generation))
    case Crashed(offline) =>
      Run(Near(EMPTY, Bumped(s.near.changes, offline), s.near.covered), s.far.(working := s.far.durable), Idle, [],
          false)
  }

  function ApplyAll(events: seq<Event>): Run {
    if events == [] then FRESH else Apply(ApplyAll(events[..|events| - 1]), events[|events| - 1])
  }

  // ---------------------------------------------------------------- the invariant

  /** A change nobody has covered is on a dirty path, or the tracker is fresh and the next cycle lists everything. */
  ghost predicate NothingForgotten(n: Near) {
    forall p ::
      Generation(n.changes, p) > Generation(n.covered, p) ==> p in n.tracker.dirtyPaths || !n.tracker.initialized
  }

  /** What the running cycle captured, against what has happened to `p` since. */
  ghost predicate Since(n: Near, snap: Snapshot, seen: map<Path, nat>, p: Path) {
    && snap.generations.Some? && Generation(seen, p) <= Generation(n.changes, p)
    && Generation(n.tracker.generations, p) >= Generation(snap.generations.value, p)
    && (Unchanged(n.tracker.generations, snap.generations, p) ==> Generation(n.changes, p) == Generation(seen, p))
    && (Generation(n.changes, p) > Generation(seen, p) && Generation(n.changes, p) > Generation(n.covered, p) ==>
          p in n.tracker.dirtyPaths)
  }

  /** The snapshot of an open cycle is good for every path. */
  ghost predicate Tracked(n: Near, phase: CyclePhase) {
    phase.Running? || phase.Closed? ==> forall p :: Since(n, phase.snap, phase.seen, p)
  }

  ghost predicate CoversSeen(n: Near, phase: CyclePhase) {
    phase.Closed? && phase.completion == Clean ==> forall p :: Generation(phase.seen, p) <= Generation(n.covered, p)
  }

  /** What the phase says of the slot, the retries and the mutex; only a committed cursor is read on from. */
  predicate LoopSound(s: Run) {
    match s.phase
    case Idle => s.waiting == []
    case Held(_) => true
    case Running(_, _, attempt, forced) => 1 <= attempt <= MAX_RETRIES && (forced || s.far.committed)
    case Closed(completion, _, _) => completion == FollowUp ==> s.syncPending
  }

  /** The working view is never behind the durable cursor, and only what the cursor has passed counts as seen. */
  ghost predicate CursorsSound(f: Far) {
    && f.durable <= f.working <= f.count && (!f.committed ==> f.durable == 0)
    && forall i | i in f.settled :: 1 <= i <= f.durable
  }

  ghost predicate Inv(s: Run) {
    NothingForgotten(s.near) && Tracked(s.near, s.phase) && CoversSeen(s.near, s.phase) && LoopSound(s) &&
      CursorsSound(s.far)
  }

  // ---------------------------------------------------------------- the local side

  lemma ReportKeeps(n: Near, phase: CyclePhase, m: Mark)
    requires NothingForgotten(n) && Tracked(n, phase)
    ensures var t := Near(Report(n.tracker, m), Bumped(n.changes, Named(m)), n.covered);
            NothingForgotten(t) && Tracked(t, phase)
  {
    var t := Near(Report(n.tracker, m), Bumped(n.changes, Named(m)), n.covered);
    forall p
      ensures p in Named(m) ==>
                p in t.tracker.dirtyPaths && Generation(t.tracker.generations, p) > Generation(n.tracker.generations, p)
      ensures p !in Named(m) ==> Generation(t.changes, p) == Generation(n.changes, p)
      ensures Generation(t.tracker.generations, p) >= Generation(n.tracker.generations, p)
      ensures p in n.tracker.dirtyPaths ==> p in t.tracker.dirtyPaths
    {
    }
    if phase.Running? || phase.Closed? {
      forall p ensures Since(t, phase.snap, phase.seen, p) {
        assert Since(n, phase.snap, phase.seen, p);
      }
    }
  }

  lemma BeginTracked(n: Near, forced: bool)
    requires NothingForgotten(n)
    ensures Tracked(n, Running(Captured(n.tracker), n.changes, 1, forced))
  {
  }

  /** A closed attempt covers what its cycle's snapshot saw. */
  lemma RaisedKeeps(n: Near, phase: CyclePhase)
    requires NothingForgotten(n) && Tracked(n, phase) && phase.Running?
    ensures var t := n.(covered := Raised(n.covered, phase.seen));
            NothingForgotten(t) && Tracked(t, Closed(Clean, phase.snap, phase.seen)) &&
            CoversSeen(t, Closed(Clean, phase.snap, phase.seen))
  {
    var t := n.(covered := Raised(n.covered, phase.seen));
    forall p
      ensures Generation(t.covered, p) >= Generation(n.covered, p) &&
              Generation(t.covered, p) >= Generation(phase.seen, p)
    {
    }
    forall p ensures Since(t, phase.snap, phase.seen, p) {
      assert Since(n, phase.snap, phase.seen, p);
    }
  }

  /** The heart of the protocol: the captured paths clear, and what came later does not. */
  lemma AcknowledgmentKeeps(n: Near, phase: CyclePhase)
    requires NothingForgotten(n) && Tracked(n, phase) && CoversSeen(n, phase) && phase.Closed?
    ensures NothingForgotten(Consumed(n, phase.completion, phase.snap))
  {
    var t := Consumed(n, phase.completion, phase.snap);
    forall p | Generation(t.changes, p) > Generation(t.covered, p)
      ensures p in t.tracker.dirtyPaths || !t.tracker.initialized
    {
      assert Since(n, phase.snap, phase.seen, p);
    }
  }

  lemma PullKeeps(n: Near, phase: CyclePhase, path: Path, generation: nat)
    requires NothingForgotten(n) && Tracked(n, phase) && CoversSeen(n, phase)
    ensures var t := Pulled(n, path, generation); NothingForgotten(t) && Tracked(t, phase) && CoversSeen(t, phase)
  {
    var t := Pulled(n, path, generation);
    if phase.Running? || phase.Closed? {
      forall p
        ensures Since(t, phase.snap, phase.seen, p)
        ensures Generation(phase.seen, p) <= Generation(n.covered, p) ==>
                Generation(phase.seen, p) <= Generation(t.covered, p)
      {
        assert Since(n, phase.snap, phase.seen, p);
      }
    }
  }

  // ---------------------------------------------------------------- every step

  lemma EndedSound(f: Far, closed: CycleCloseout.Closed, lists: bool, read: nat)
    requires CursorsSound(f)
    ensures CursorsSound(Ended(f, closed, lists, read))
  {
  }

  lemma TakenKeeps(s: Run, closed: CycleCloseout.Closed, late: bool, retry: bool)
    requires Inv(s) && s.phase.Running?
    ensures Inv(Taken(s, closed, late, retry))
  {
    RaisedKeeps(s.near, s.phase);
  }

  lemma AttemptKeeps(s: Run, closed: CycleCloseout.Closed, cold: bool, read: nat, late: bool, retry: bool)
    requires Inv(s) && s.phase.Running?
    ensures Inv(AttemptDone(s, closed, cold, read, late, retry))
  {
    EndedSound(s.far, closed, s.phase.forced || cold, read);
    TakenKeeps(s.(far := Ended(s.far, closed, s.phase.forced || cold, read)), closed, late, retry);
  }

  lemma BeginKeeps(s: Run, rescoped: bool)
    requires NothingForgotten(s.near) && CursorsSound(s.far)
    ensures Inv(Begin(s, rescoped))
  {
    BeginTracked(s.near, !s.far.committed || rescoped);
  }

  lemma AcknowledgeKeeps(s: Run, rescoped: bool)
    requires Inv(s) && s.phase.Closed?
    ensures Inv(Acknowledgment(s, rescoped))
  {
    var t := s.(near := Consumed(s.near, s.phase.completion, s.phase.snap));
    AcknowledgmentKeeps(s.near, s.phase);
    if s.syncPending {
      BeginKeeps(t, rescoped);
    }
  }

  lemma ApplyKeeps(s: Run, e: Event)
    requires Inv(s)
    ensures Inv(Apply(s, e))
  {
    match e
    case Reported(mark) => ReportKeeps(s.near, s.phase, mark);
    case AttemptEnds(closed, cold, read, late, retry) =>
      if s.phase.Running? {
        AttemptKeeps(s, closed, cold, read, late, retry);
      }
    case Acknowledges(rescoped) =>
      if s.phase.Closed? {
        AcknowledgeKeeps(s, rescoped);
      }
    case PriorityPulled(path, generation) => PullKeeps(s.near, s.phase, path, generation);
    case Requested(rescoped) => BeginKeeps(s, rescoped);
    case RemoteChanged =>
    case HoldAsked(_) =>
    case CycleThrows =>
    case HoldEnds(_) =>
    case Crashed(_) =>
  }

  /** Over every run, whatever throws, aborts, retries or crashes, no local change is forgotten. */
  lemma {:induction false} RunKeeps(events: seq<Event>)
    ensures Inv(ApplyAll(events))
  {
    if events != [] {
      RunKeeps(events[..|events| - 1]);
      ApplyKeeps(ApplyAll(events[..|events| - 1]), events[|events| - 1]);
    }
  }

  // ---------------------------------------------------------------- remote changes

  /** Every remote change the durable cursor has passed was seen by an attempt that closed clean. */
  ghost predicate RemoteCovered(f: Far) {
    forall i | 1 <= i <= f.durable :: i in f.settled
  }

  predicate ResetsRemote(s: Run, e: Event) {
    e.HoldEnds? && e.ok && s.phase == Held(Resetting)
  }

  /** The attempt lists the remote side, by its cycle's choice or its own. */
  predicate Lists(s: Run, e: Event)
    requires e.AttemptEnds? && s.phase.Running?
  {
    s.phase.forced || e.cold
  }

  /** The events that move the cursors and what counts as seen. */
  function FarAfter(s: Run, e: Event): Far {
    if e.RemoteChanged? then s.far.(count := s.far.count + 1)
    else if e.AttemptEnds? && s.phase.Running? then Ended(s.far, e.closed, Lists(s, e), e.read)
    else if ResetsRemote(s, e) then Forgotten(s.far)
    else if e.Crashed? then s.far.(working := s.far.durable)
    else s.far
  }

  lemma FarStep(s: Run, e: Event)
    ensures Apply(s, e).far == FarAfter(s, e)
  {
    match e
    case AttemptEnds(closed, cold, read, late, retry) =>
    case _ =>
  }

  /** A commit by an attempt that only read on, from a working view that had run ahead of the durable cursor. */
  predicate CommitsAhead(s: Run, e: Event) {
    e.AttemptEnds? && s.phase.Running? && e.closed == Returned(Clean) && !Lists(s, e) && s.far.working > s.far.durable
  }

  /** A commit by an attempt that listed the remote side. */
  predicate CommitsListing(s: Run, e: Event) {
    e.AttemptEnds? && s.phase.Running? && e.closed == Returned(Clean) && Lists(s, e)
  }

  /** A commit after a listing covers everything it passes. Any other passes what it saw, and skips what lies below a
      view that had run ahead. */
  lemma CommitCovers(f: Far, lists: bool, read: nat)
    requires CursorsSound(f)
    ensures RemoteCovered(Ended(f, Returned(Clean), lists, read)) <==>
            lists || (RemoteCovered(f) && f.working == f.durable)
  {
    var t := Ended(f, Returned(Clean), lists, read);
    if RemoteCovered(t) && !lists {
      forall i | 1 <= i <= f.durable ensures i in f.settled {
        assert i in t.settled;
      }
      assert f.durable < f.working ==> f.durable + 1 !in t.settled;
    }
  }

  lemma CursorStep(s: Run, e: Event)
    requires Inv(s)
    ensures ResetsRemote(s, e) || CommitsListing(s, e) ==> RemoteCovered(Apply(s, e).far)
    ensures !ResetsRemote(s, e) && !CommitsListing(s, e) ==>
              (RemoteCovered(Apply(s, e).far) <==> RemoteCovered(s.far) && !CommitsAhead(s, e))
  {
    FarStep(s, e);
    if e.AttemptEnds? && s.phase.Running? {
      CommitCovers(s.far, Lists(s, e), e.read);
    }
  }

  /** Since the checkpoint was last reset, or committed after a listing, some commit was made from a view that had run
      ahead. */
  predicate Skipped(events: seq<Event>) {
    if events == [] then false
    else
      var before := ApplyAll(events[..|events| - 1]);
      var last := events[|events| - 1];
      && !ResetsRemote(before, last) && !CommitsListing(before, last)
      && (Skipped(events[..|events| - 1]) || CommitsAhead(before, last))
  }

  /** Over every run, every change the durable cursor has passed was seen, unless a commit was made from a view that had
      run ahead and no listing has been committed since. */
  lemma {:induction false} RemoteRunCovered(events: seq<Event>)
    ensures RemoteCovered(ApplyAll(events).far) <==> !Skipped(events)
  {
    if events != [] {
      RunKeeps(events[..|events| - 1]);
      RemoteRunCovered(events[..|events| - 1]);
      CursorStep(ApplyAll(events[..|events| - 1]), events[|events| - 1]);
    }
  }

  /** The view runs ahead exactly by an abort that fails after a read, and until an attempt closes or the view is
      lost. */
  lemma ViewRunsAhead(s: Run, e: Event)
    requires Inv(s)
    ensures Apply(s, e).far.working > Apply(s, e).far.durable <==>
              if e.AttemptEnds? && s.phase.Running? then e.closed.AbortThrew? && Reach(s.far, e.read) > s.far.durable
              else !e.Crashed? && !ResetsRemote(s, e) && s.far.working > s.far.durable
  {
    FarStep(s, e);
  }

  predicate AbortsWork(events: seq<Event>) {
    forall e | e in events && e.AttemptEnds? :: !e.closed.AbortThrew?
  }

  /** Where no abort throws, the view is level between attempts, and every change the cursor has passed was seen. */
  lemma {:induction false} WorkingAbortsCover(events: seq<Event>)
    requires AbortsWork(events)
    ensures var f := ApplyAll(events).far; f.working == f.durable && RemoteCovered(f)
  {
    if events != [] {
      var rest, last := events[..|events| - 1], events[|events| - 1];
      assert forall e | e in rest :: e in events;
      RunKeeps(rest);
      WorkingAbortsCover(rest);
      assert last in events;
      ViewRunsAhead(ApplyAll(rest), last);
      RunKeeps(events);
      CursorStep(ApplyAll(rest), last);
    }
  }

  /** An attempt that reads to the end sees every change no clean attempt has seen, if it lists or its view is level;
      one that only reads on from a level view sees no other. */
  lemma UnseenIsRead(f: Far, lists: bool, read: nat, i: nat)
    requires CursorsSound(f) && RemoteCovered(f) && f.count <= read && 1 <= i <= f.count
    requires lists || f.working == f.durable
    ensures i in SeenBy(f, lists, read) <==> lists || i !in f.settled
  {
    assert Past(f, i) <==> f.working < i;
  }

  /** After a first clean cycle: a second change, an attempt that reads it and whose abort fails, then a clean cycle.
      The cursor passes the second change unseen. */
  lemma FailedAbortSkips()
    ensures var events := [RemoteChanged, Requested(false), AttemptEnds(Returned(Clean), false, 1, false, false),
                           Acknowledges(false), RemoteChanged, Requested(false),
                           AttemptEnds(AbortThrew, false, 2, false, true), Requested(false),
                           AttemptEnds(Returned(Clean), false, 2, false, false)];
            var t := ApplyAll(events);
            && t.phase.Closed? && t.phase.completion == Clean && t.far == Far(true, 2, 2, 2, {1})
            && Skipped(events)
  {
    var first := [RemoteChanged, Requested(false), AttemptEnds(Returned(Clean), false, 1, false, false)];
    var second := first + [Acknowledges(false), RemoteChanged, Requested(false)];
    FirstCycle();
    ThenAhead(first);
    ThenSkips(second);
    assert second + [AttemptEnds(AbortThrew, false, 2, false, true), Requested(false),
                     AttemptEnds(Returned(Clean), false, 2, false, false)] ==
           [RemoteChanged, Requested(false), AttemptEnds(Returned(Clean), false, 1, false, false),
            Acknowledges(false), RemoteChanged, Requested(false),
            AttemptEnds(AbortThrew, false, 2, false, true), Requested(false),
            AttemptEnds(Returned(Clean), false, 2, false, false)];
  }

  /** The abort fails, the next cycle only reads on, and commits. */
  lemma ThenSkips(events: seq<Event>)
    requires var t := ApplyAll(events);
             t.far == Far(true, 1, 1, 2, {1}) && t.phase.Running? && !t.phase.forced && t.waiting == []
    ensures var more := events + [AttemptEnds(AbortThrew, false, 2, false, true), Requested(false),
                                  AttemptEnds(Returned(Clean), false, 2, false, false)];
            var t := ApplyAll(more);
            && t.phase.Closed? && t.phase.completion == Clean && t.far == Far(true, 2, 2, 2, {1}) && Skipped(more)
  {
    var aborted := events + [AttemptEnds(AbortThrew, false, 2, false, true)];
    var begun := aborted + [Requested(false)];
    var clean := AttemptEnds(Returned(Clean), false, 2, false, false);
    RunSnoc(events, AttemptEnds(AbortThrew, false, 2, false, true));
    RunSnoc(aborted, Requested(false));
    RunSnoc(begun, clean);
    assert SeenBy(ApplyAll(begun).far, false, 2) == {};
    assert begun + [clean] == events + [AttemptEnds(AbortThrew, false, 2, false, true), Requested(false), clean];
  }

  lemma RunSnoc(events: seq<Event>, e: Event)
    ensures ApplyAll(events + [e]) == Apply(ApplyAll(events), e)
    ensures Skipped(events + [e]) <==>
            && !ResetsRemote(ApplyAll(events), e) && !CommitsListing(ApplyAll(events), e)
            && (Skipped(events) || CommitsAhead(ApplyAll(events), e))
  {
    assert (events + [e])[..|events|] == events;
  }

  /** The first cycle finds no checkpoint, lists everything and commits. */
  lemma FirstCycle()
    ensures var t := ApplyAll([RemoteChanged, Requested(false), AttemptEnds(Returned(Clean), false, 1, false, false)]);
            t.far == Far(true, 1, 1, 1, {1}) && t.phase.Closed? && t.waiting == [] && !t.syncPending
  {
    var begun := [] + [RemoteChanged] + [Requested(false)];
    var clean := AttemptEnds(Returned(Clean), false, 1, false, false);
    RunSnoc([], RemoteChanged);
    RunSnoc([] + [RemoteChanged], Requested(false));
    RunSnoc(begun, clean);
    FirstListing();
    assert begun + [clean] == [RemoteChanged, Requested(false), clean];
  }

  lemma FirstListing()
    ensures Ended(Far(false, 0, 0, 1, {}), Returned(Clean), true, 1) == Far(true, 1, 1, 1, {1})
  {
    var f := Far(false, 0, 0, 1, {});
    forall i: nat ensures i in SeenBy(f, true, 1) <==> i == 1 {
      assert Past(f, i) <==> 0 < i;
    }
  }

  /** Acknowledged, one change later, a cycle that only reads on has begun. */
  lemma ThenAhead(events: seq<Event>)
    requires var t := ApplyAll(events);
             t.far == Far(true, 1, 1, 1, {1}) && t.phase.Closed? && t.waiting == [] && !t.syncPending
    ensures var t := ApplyAll(events + [Acknowledges(false), RemoteChanged, Requested(false)]);
            t.far == Far(true, 1, 1, 2, {1}) && t.phase.Running? && !t.phase.forced && t.waiting == []
  {
    RunSnoc(events, Acknowledges(false));
    RunSnoc(events + [Acknowledges(false)], RemoteChanged);
    RunSnoc(events + [Acknowledges(false)] + [RemoteChanged], Requested(false));
    assert events + [Acknowledges(false)] + [RemoteChanged] + [Requested(false)] ==
           events + [Acknowledges(false), RemoteChanged, Requested(false)];
  }

  // ---------------------------------------------------------------- what each step may do

  /** The durable cursor rises exactly by a commit that reads on, also when a later throw leaves the cycle open or
      unacknowledged, and falls only by a reset. */
  lemma DurableMovesOnClean(s: Run, e: Event)
    requires Inv(s)
    ensures var t := Apply(s, e);
            && (t.far.durable > s.far.durable <==>
                  e.AttemptEnds? && s.phase.Running? && e.closed == Returned(Clean) &&
                    Reach(s.far, e.read) > s.far.durable)
            && (t.far.durable < s.far.durable <==> ResetsRemote(s, e) && s.far.durable > 0)
    ensures e.AttemptEnds? && s.phase.Running? && e.closed == Returned(Clean) ==>
              var t := Apply(s, e);
              if !e.late then t.phase == Closed(Clean, s.phase.snap, s.phase.seen)
              else if e.retry && s.phase.attempt < MAX_RETRIES
              then t.phase == Running(s.phase.snap, s.phase.seen, s.phase.attempt + 1, s.phase.forced)
              else t.near == s.near && !t.phase.Running? && !t.phase.Closed?
  {
    FarStep(s, e);
  }

  /** A dirty path clears only by a clean cycle that captured it untouched, by a verified pull, or with the process. */
  lemma DirtyClearsOnClean(s: Run, e: Event, p: Path)
    requires Inv(s) && p in s.near.tracker.dirtyPaths && p !in Apply(s, e).near.tracker.dirtyPaths
    ensures
      || (e.Acknowledges? && s.phase.Closed? && s.phase.completion == Clean && p in s.phase.snap.dirtyPaths &&
          Generation(s.near.changes, p) <= Generation(s.near.covered, p))
      || (e.PriorityPulled? && e.path == p &&
          Generation(Apply(s, e).near.covered, p) == Generation(s.near.changes, p))
      || e.Crashed?
  {
    NearStep(s, e);
    if e.Acknowledges? && s.phase.Closed? {
      assert Since(s.near, s.phase.snap, s.phase.seen, p);
    }
  }

  /** The tracker leaves its cold state only by a clean cycle's acknowledgment. */
  lemma WarmsOnClean(s: Run, e: Event)
    requires !s.near.tracker.initialized && Apply(s, e).near.tracker.initialized
    ensures e.Acknowledges? && s.phase.Closed? && s.phase.completion == Clean
  {
    NearStep(s, e);
  }

  /** Which events touch the tracker. */
  lemma NearStep(s: Run, e: Event)
    ensures Apply(s, e).near.tracker ==
            match e {
              case Reported(mark) => Report(s.near.tracker, mark)
              case Acknowledges(_) =>
                if s.phase.Closed? then Consumed(s.near, s.phase.completion, s.phase.snap).tracker else s.near.tracker
              case PriorityPulled(path, generation) => Pulled(s.near, path, generation).tracker
              case Crashed(_) => EMPTY
              case _ => s.near.tracker
            }
  {
    match e
    case AttemptEnds(closed, cold, read, late, retry) =>
    case _ =>
  }

  /** A path marked while a cycle runs is dirty when that cycle acknowledges, whatever else happens before. */
  lemma LaterMarkSurvives(s: Run, p: Path, rescoped: bool)
    requires Inv(s) && s.phase.Closed? && p in s.near.tracker.dirtyPaths && s.phase.snap.generations.Some?
    requires Generation(s.near.tracker.generations, p) > Generation(s.phase.snap.generations.value, p)
    ensures p in Acknowledgment(s, rescoped).near.tracker.dirtyPaths
  {
  }

  /** The steps that begin a cycle. */
  predicate BeginsCycle(s: Run, e: Event) {
    (e.Requested? && s.phase.Idle?) || (e.Acknowledges? && s.phase.Closed? && s.syncPending)
  }

  /** A request begins a cycle or fills the slot. The slot is emptied exactly by a cycle with a fresh snapshot, by a
      completed clear, or with the process; a follow-up fills it. */
  lemma RequestGetsACycle(s: Run, e: Event)
    requires Inv(s)
    ensures var t := Apply(s, e);
            && (BeginsCycle(s, e) ==>
                  && t.phase == Running(Captured(t.near.tracker), t.near.changes, 1, !s.far.committed || e.rescoped)
                  && !t.syncPending)
            && (e.Requested? && !BeginsCycle(s, e) ==> t.syncPending)
            && (s.syncPending ==>
                  (!t.syncPending <==>
                     BeginsCycle(s, e) || (e.HoldEnds? && e.ok && s.phase == Held(Clearing)) || e.Crashed?))
            && (!s.syncPending ==>
                  (t.syncPending <==>
                     || (e.Requested? && !BeginsCycle(s, e))
                     || (e.AttemptEnds? && s.phase.Running? && e.closed == Returned(FollowUp) && !e.late)))
    ensures s.phase.Closed? && s.phase.completion == FollowUp ==> s.syncPending
  {
  }

  // ---------------------------------------------------------------- what an acknowledgment consumes

  /** No report has touched the path since the snapshot. */
  predicate Untouched(now: LocalTracker.State, snap: Snapshot, p: Path) {
    snap.generations.Some? ==> Generation(now.generations, p) == Generation(snap.generations.value, p)
  }

  /** Of the live pairs, exactly those go that were captured with their value and whose ends are both untouched. */
  ghost predicate PairsConsumed(now: LocalTracker.State, snap: Snapshot, live: map<Path, Path>,
                                captured: map<Path, Path>, left: map<Path, Path>) {
    && (forall p :: p in left <==>
          p in live &&
          !(p in captured && captured[p] == live[p] && Untouched(now, snap, p) && Untouched(now, snap, captured[p])))
    && (forall p | p in left :: left[p] == live[p])
  }

  /** A clean cycle clears exactly the captured paths nobody touched since, and ends the cold state; any other clears no
      path. Either way the captured pairs go. */
  lemma AcknowledgmentClears(s: Run, rescoped: bool)
    requires s.phase.Closed?
    ensures var now, t := s.near.tracker, Apply(s, Acknowledges(rescoped)).near.tracker;
            var snap, clean := s.phase.snap, s.phase.completion == Clean;
            && (forall p :: p in t.dirtyPaths <==>
                  p in now.dirtyPaths && !(clean && p in snap.dirtyPaths && Untouched(now, snap, p)))
            && (t.initialized <==> clean || now.initialized)
            && PairsConsumed(now, snap, now.renamePairs, snap.renamePairs, t.renamePairs)
            && PairsConsumed(now, snap, now.folderRenamePairs, snap.folderRenamePairs, t.folderRenamePairs)
            && t.generations == now.generations
  {
    NearStep(s, Acknowledges(rescoped));
    forall p
      ensures Untouched(s.near.tracker, s.phase.snap, p) <==>
              Unchanged(s.near.tracker.generations, s.phase.snap.generations, p)
    {
    }
  }

  /** A verified pull clears its path, and the rename to it, exactly while nobody touched the path since. */
  lemma PullClears(s: Run, path: Path, generation: nat)
    ensures var now, t := s.near.tracker, Apply(s, PriorityPulled(path, generation)).near.tracker;
            && (forall p :: p in t.dirtyPaths <==>
                  p in now.dirtyPaths && !(p == path && Generation(now.generations, path) == generation))
            && t.renamePairs ==
               (if Generation(now.generations, path) == generation then now.renamePairs - {path} else now.renamePairs)
            && t.initialized == now.initialized && t.generations == now.generations
  {
    NearStep(s, PriorityPulled(path, generation));
  }

  /** No report since the last cycle began. */
  predicate Quiet(events: seq<Event>) {
    if events == [] then true
    else
      var before := ApplyAll(events[..|events| - 1]);
      var last := events[|events| - 1];
      BeginsCycle(before, last) || (!last.Reported? && Quiet(events[..|events| - 1]))
  }

  ghost predicate WithinSnapshot(now: LocalTracker.State, snap: Snapshot) {
    && now.dirtyPaths <= snap.dirtyPaths && snap.generations == Some(now.generations)
    && (forall p | p in now.renamePairs :: p in snap.renamePairs && snap.renamePairs[p] == now.renamePairs[p])
    && (forall p | p in now.folderRenamePairs ::
          p in snap.folderRenamePairs && snap.folderRenamePairs[p] == now.folderRenamePairs[p])
  }

  ghost predicate SnapshotHolds(s: Run) {
    s.phase.Running? || s.phase.Closed? ==> WithinSnapshot(s.near.tracker, s.phase.snap)
  }

  lemma QuietBegin(s: Run, rescoped: bool)
    ensures SnapshotHolds(Begin(s, rescoped))
  {
  }

  lemma QuietPull(s: Run, path: Path, generation: nat)
    requires SnapshotHolds(s)
    ensures SnapshotHolds(Apply(s, PriorityPulled(path, generation)))
  {
  }

  lemma QuietEnd(s: Run, closed: CycleCloseout.Closed, cold: bool, read: nat, late: bool, retry: bool)
    requires SnapshotHolds(s) && s.phase.Running?
    ensures SnapshotHolds(AttemptDone(s, closed, cold, read, late, retry))
  {
  }

  lemma QuietStep(s: Run, e: Event)
    requires BeginsCycle(s, e) || (!e.Reported? && SnapshotHolds(s))
    ensures SnapshotHolds(Apply(s, e))
  {
    match e
    case Requested(rescoped) => QuietBegin(s, rescoped);
    case Acknowledges(rescoped) =>
      if s.phase.Closed? {
        QuietBegin(s.(near := Consumed(s.near, s.phase.completion, s.phase.snap)), rescoped);
      }
    case AttemptEnds(closed, cold, read, late, retry) =>
      if s.phase.Running? {
        QuietEnd(s, closed, cold, read, late, retry);
      }
    case PriorityPulled(path, generation) => QuietPull(s, path, generation);
    case _ =>
  }

  lemma {:induction false} QuietRun(events: seq<Event>)
    requires Quiet(events)
    ensures SnapshotHolds(ApplyAll(events))
  {
    if events != [] {
      var rest, last := events[..|events| - 1], events[|events| - 1];
      if !BeginsCycle(ApplyAll(rest), last) {
        QuietRun(rest);
      }
      QuietStep(ApplyAll(rest), last);
    }
  }

  /** Over every run: when nothing was reported since its cycle began, a clean acknowledgment leaves nothing pending. */
  lemma QuietCycleClearsAll(events: seq<Event>, rescoped: bool)
    requires Quiet(events) && ApplyAll(events).phase.Closed? && ApplyAll(events).phase.completion == Clean
    ensures var t := ApplyAll(events + [Acknowledges(rescoped)]).near.tracker;
            && t.dirtyPaths == {} && t.renamePairs == map[] && t.folderRenamePairs == map[] && t.initialized
  {
    var s := ApplyAll(events);
    QuietRun(events);
    AcknowledgmentClears(s, rescoped);
    RunSnoc(events, Acknowledges(rescoped));
    var t := Apply(s, Acknowledges(rescoped)).near.tracker;
    assert forall p :: p !in t.dirtyPaths && p !in t.renamePairs && p !in t.folderRenamePairs;
    assert t.renamePairs.Keys == {} && t.folderRenamePairs.Keys == {};
  }

  /** An attempt is retried with the same snapshot, at most MAX_RETRIES times in all, after a throw from a level view;
      the cursor stays unless the throw came after a commit. */
  lemma RetryKeepsSnapshot(s: Run, closed: CycleCloseout.Closed, cold: bool, read: nat, late: bool, retry: bool)
    requires Inv(s) && s.phase.Running?
    ensures var t := AttemptDone(s, closed, cold, read, late, retry);
            match t.phase
            case Running(snap, seen, attempt, forced) =>
              && snap == s.phase.snap && seen == s.phase.seen && forced == s.phase.forced
              && attempt == s.phase.attempt + 1 <= MAX_RETRIES
              && (closed == Threw || (late && closed.Returned?))
              && t.far.working == t.far.durable &&
                 (t.far.durable == s.far.durable || (late && closed == Returned(Clean)))
            case Closed(completion, snap, seen) => snap == s.phase.snap && !late && closed == Returned(completion)
            case _ => late || !closed.Returned?
  {
  }

  /** What an attempt's end leads to: an outcome closes the cycle unless saving the settings throws, a throw below the
      limit is retried on demand, and everything else releases the mutex. */
  lemma AttemptLeadsTo(s: Run, closed: CycleCloseout.Closed, cold: bool, read: nat, late: bool, retry: bool)
    requires s.phase.Running?
    ensures var t := Apply(s, AttemptEnds(closed, cold, read, late, retry));
            var threw := closed == Threw || (closed.Returned? && late);
            if closed.Returned? && !late then t.phase == Closed(closed.completion, s.phase.snap, s.phase.seen)
            else if threw && retry && s.phase.attempt < MAX_RETRIES
            then t.phase == s.phase.(attempt := s.phase.attempt + 1)
            else t.phase == if s.waiting == [] then Idle else Held(s.waiting[0])
  {
  }

  /** The events that release the mutex. */
  predicate LetsGo(s: Run, e: Event) {
    match e
    case AttemptEnds(closed, _, _, late, retry) =>
      s.phase.Running? && (closed.Returned? ==> late) &&
        (closed.AbortThrew? || !retry || s.phase.attempt >= MAX_RETRIES)
    case Acknowledges(_) => s.phase.Closed? && !s.syncPending
    case CycleThrows => Throwable(s)
    case HoldEnds(_) => s.phase.Held?
    case _ => false
  }

  /** A hold takes the free mutex at once; otherwise the mutex goes round in the order of asking. */
  lemma MutexInOrder(s: Run, e: Event)
    requires !e.Crashed?
    ensures var t := Apply(s, e);
            if LetsGo(s, e) then
              if s.waiting == [] then t.phase == Idle && t.waiting == []
              else t.phase == Held(s.waiting[0]) && t.waiting == s.waiting[1..]
            else if e.HoldAsked? && s.phase.Idle? then t.phase == Held(e.hold) && t.waiting == s.waiting
            else if e.HoldAsked? then t.phase == s.phase && t.waiting == s.waiting + [e.hold]
            else t.waiting == s.waiting && (t.phase.Idle? <==> s.phase.Idle? && !BeginsCycle(s, e)) &&
                 (t.phase.Held? <==> s.phase.Held?)
  {
    match e
    case AttemptEnds(closed, cold, read, late, retry) =>
    case _ =>
  }

  /** A checkpoint is committed from the first clean attempt on, until a reset. */
  lemma CheckpointStands(s: Run, e: Event)
    ensures Apply(s, e).far.committed <==>
            !ResetsRemote(s, e) &&
            (s.far.committed || (e.AttemptEnds? && s.phase.Running? && e.closed == Returned(Clean)))
  {
    FarStep(s, e);
  }

  // ---------------------------------------------------------------- the class

  /** What one turn of the do-loop works with. */
  datatype Cycle = Cycle(snapshot: Snapshot, forceFullScan: bool, attempt: nat)

  /** The run loop and the mutex over a live tracker and checkpoint, one stretch between awaits at a time. Every method
      is one event, so RunKeeps and RemoteRunCovered cover whatever sequence of calls an instance sees. */
  class SyncOrchestrator {
    const tracker: LocalChangeTracker
    const checkpoint: Checkpoint
    var locked: bool
    /** Who holds the mutex, when it is no cycle; and who waits for it. */
    var holding: Option<Hold>
    var waiting: seq<Hold>
    var syncPending: bool
    var cycle: Cycle
    var completion: Option<Completion>
    ghost var seen: map<Path, nat>
    ghost var count: nat
    ghost var settled: set<nat>
    ghost var changes: map<Path, nat>
    ghost var covered: map<Path, nat>

    ghost function Phase(): CyclePhase
      reads this
    {
      if !locked then Idle
      else if holding.Some? then Held(holding.value)
      else if completion.Some? then CyclePhase.Closed(completion.value, cycle.snapshot, seen)
      else Running(cycle.snapshot, seen, cycle.attempt, cycle.forceFullScan)
    }

    ghost function View(): Run
      reads this, tracker, checkpoint
    {
      Run(Near(tracker.View(), changes, covered),
          Far(checkpoint.committed, checkpoint.durable, checkpoint.working, count, settled), Phase(), waiting,
          syncPending)
    }

    /** A process that starts over on what the last one made durable, after changes nobody reported. */
    constructor Restart(committed: bool, durable: nat, ghost before: Run, ghost offline: set<Path>)
      requires before.far.committed == committed && before.far.durable == durable
      ensures View() == Apply(before, Crashed(offline)) && fresh(tracker) && fresh(checkpoint)
    {
      tracker := new LocalChangeTracker();
      checkpoint := new Checkpoint(committed, durable);
      locked, holding, waiting, syncPending, completion := false, None, [], false, None;
      cycle := Cycle(Snapshot({}, map[], map[], None, false), false, 0);
      seen, changes, covered := map[], Bumped(before.near.changes, offline), before.near.covered;
      count, settled := before.far.count, before.far.settled;
    }

    /** A vault event. */
    method OnVaultEvent(mark: Mark)
      modifies this`changes, tracker
      ensures View() == Apply(old(View()), Reported(mark))
    {
      match mark {
        case Dirty(path) => tracker.MarkDirty(path);
        case Renamed(newPath, oldPath) => tracker.MarkRenamed(newPath, oldPath);
        case FolderRenamed(newPath, oldPath) => tracker.MarkFolderRenamed(newPath, oldPath);
      }
      changes := Bumped(changes, Named(mark));
    }

    method RunSync(rescoped: bool)
      modifies this
      ensures View() == Apply(old(View()), Requested(rescoped))
    {
      if locked {
        syncPending := true;
        return;
      }
      BeginCycle(rescoped);
    }

    /** The top of the do-loop: the slot is emptied, then one snapshot for the whole cycle, then the choice to list
        everything, which a missing checkpoint forces. */
    method BeginCycle(rescoped: bool)
      modifies this`locked, this`holding, this`syncPending, this`completion, this`cycle, this`seen
      ensures View() == Begin(old(View()), rescoped)
    {
      var taken := tracker.TakeSnapshot();
      OpenCycle(taken, !checkpoint.committed || rescoped);
    }

    method OpenCycle(taken: Snapshot, forced: bool)
      requires taken == Captured(tracker.View())
      modifies this`locked, this`holding, this`syncPending, this`completion, this`cycle, this`seen
      ensures View() == old(View()).(syncPending := false, phase := Running(taken, changes, 1, forced))
    {
      locked, holding, syncPending, completion := true, None, false, None;
      cycle, seen := Cycle(taken, forced, 1), changes;
    }

    /** The mutex's release: the next waiter, or nobody. */
    method Release()
      modifies this`locked, this`holding, this`waiting
      ensures View() == Released(old(View()))
    {
      if waiting == [] {
        locked := false;
      } else {
        holding, waiting, locked := Some(waiting[0]), waiting[1..], true;
      }
    }

    /** clearSyncState or a rescan asks for the mutex. */
    method AskHold(hold: Hold)
      modifies this`locked, this`holding, this`waiting
      ensures View() == Apply(old(View()), HoldAsked(hold))
    {
      if locked {
        waiting := waiting + [hold];
      } else {
        locked, holding := true, Some(hold);
      }
    }

    /** The held work has ended; `ok` when its store call did not throw. */
    method EndHold(ok: bool)
      requires locked && holding.Some?
      modifies this, checkpoint
      ensures View() == Apply(old(View()), HoldEnds(ok))
    {
      if ok && holding == Some(Clearing) {
        syncPending := false;
      } else if ok {
        checkpoint.committed, checkpoint.durable, checkpoint.working := false, 0, 0;
        settled := {};
      }
      Release();
    }

    /** The closeout of an attempt that has read to `read`. */
    method CloseAttempt(faults: Faults, cold: bool, read: nat) returns (closed: CycleCloseout.Closed)
      requires checkpoint.working <= read <= count
      modifies this`settled, checkpoint
      ensures closed == Closing(faults)
      ensures View() == old(View()).(far := Ended(old(View().far), closed, cycle.forceFullScan || cold, read))
    {
      ghost var seeing := SeenBy(View().far, cycle.forceFullScan || cold, read);
      checkpoint.working := read;
      CleanIsCommitted(faults);
      closed := checkpoint.RunSyncCycleAttempt(faults);
      if closed == Returned(Clean) {
        settled := settled + seeing;
      }
    }

    /** One turn of the retry loop, from the attempt's last read on; `late` when saving the settings throws. */
    method EndAttempt(faults: Faults, cold: bool, read: nat, late: bool, retry: bool)
      requires locked && holding.None? && completion.None?
      requires checkpoint.working <= read <= count
      modifies this, checkpoint
      ensures View() == Apply(old(View()), AttemptEnds(Closing(faults), cold, read, late, retry))
    {
      var closed := CloseAttempt(faults, cold, read);
      TakeOutcome(closed, late, retry);
    }

    method TakeOutcome(closed: CycleCloseout.Closed, late: bool, retry: bool)
      requires locked && holding.None? && completion.None?
      modifies this
      ensures View() == Taken(old(View()), closed, late, retry)
    {
      if closed.Returned? && !late {
        completion := Some(closed.completion);
        if closed.completion == Clean {
          covered := Raised(covered, seen);
        } else if closed.completion == FollowUp {
          syncPending := true;
        }
      } else if !closed.AbortThrew? && retry && cycle.attempt < MAX_RETRIES {
        cycle := cycle.(attempt := cycle.attempt + 1);
      } else {
        Release();
      }
    }

    /** The foot of the do-loop. */
    method Acknowledge(rescoped: bool)
      requires locked && holding.None? && completion.Some?
      modifies this, tracker
      ensures View() == Apply(old(View()), Acknowledges(rescoped))
    {
      if completion == Some(Clean) {
        tracker.Acknowledge(cycle.snapshot);
      } else {
        tracker.AcknowledgeRelations(cycle.snapshot);
      }
      if syncPending {
        BeginCycle(rescoped);
      } else {
        Release();
      }
    }

    /** The cycle's own awaits throw, before its first attempt or between the last and the acknowledgment. */
    method AbandonCycle()
      requires locked && holding.None? && (completion.Some? || cycle.attempt == 1)
      modifies this`locked, this`holding, this`waiting
      ensures View() == Apply(old(View()), CycleThrows)
    {
      Release();
    }

    /** A priority pull has verified the file it published. */
    method OnPriorityPulled(path: Path, generation: nat)
      modifies this`covered, tracker
      ensures View() == Apply(old(View()), PriorityPulled(path, generation))
    {
      ghost var verified := Generation(tracker.generations, path) == generation;
      tracker.AcknowledgePath(path, generation);
      if verified {
        covered := covered[path := Generation(changes, path)];
      }
    }
  }
}
