/** Cycle-local scheduling state: src/sync/priority-batch-state.ts, with the admission it reads. */
module PriorityBatch {
  import opened Wrappers

  /** Paths and provider identities are only compared here. */
  type Path(==, !new)
  type Identity(==, !new)

  /** One admitted action; `id` is its object identity. */
  datatype Action = Action(
    id: nat,
    path: Path,
    remoteIdentity: Option<Identity>,
    publicationSource: Option<Path>,
    isRename: bool,
    hasContent: bool,
    hasDescendants: bool)

  /** The parts of a terminal record that closeout compares. */
  datatype Terminal = Terminal(path: Path, remoteIdentityKey: Identity)

  datatype Superseded = Superseded(action: Action, terminal: Terminal)

  datatype Disposition =
    | Authorized(paths: seq<Path>, actions: seq<Action>, priorityPull: Option<Action>)
    | ResolvedNoAction(paths: seq<Path>)
    | Failed(paths: seq<Path>)

  /** `actions` and `pulls` are the executable plan: all its actions, and the marked pull of each component. */
  datatype Admission = Admission(dispositions: seq<Disposition>, actions: set<Action>, pulls: set<Action>)

  datatype Phase = Transfer | ConflictPhase | Structural | Finalizing | Aborting

  datatype Target = Independent | Superseding(action: Action) | Defer

  datatype Begun = BeginRun | Invalidated | Replaced(replacement: Superseded)

  /** The fields of the batch, then the actions that were begun. */
  datatype State = State(
    pending: set<Action>,
    superseded: map<Action, Superseded>,
    invalidated: set<Action>,
    phase: Phase,
    checkpointBlocked: bool,
    begun: seq<Action>)

  function Initial(admission: Admission): State {
    State(admission.actions, map[], {}, Transfer, false, [])
  }

  datatype Event =
    | SetsPhase(phase: Phase)
    | Aborts
    | BlocksCheckpoint
    | Begins(action: Action)
    | RemovesBlocked(action: Action)
    | Supersedes(action: Action, terminal: Terminal)
    | Invalidates(action: Action)

  function BeginOutcome(s: State, action: Action): Begun {
    if s.phase == Aborting then Invalidated
    else if action in s.superseded then Replaced(s.superseded[action])
    else if action in s.invalidated then Invalidated
    else if action in s.pending then BeginRun
    else Invalidated
  }

  predicate Supersedable(admission: Admission, s: State, action: Action, terminal: Terminal) {
    && action in admission.pulls && terminal.path == action.path
    && Some(terminal.remoteIdentityKey) == action.remoteIdentity
    && action in s.pending
  }

  function Apply(admission: Admission, s: State, e: Event): State {
    match e
    case SetsPhase(phase) => if s.phase == Aborting then s else s.(phase := phase)
    case Aborts => s.(phase := Aborting)
    case BlocksCheckpoint => s.(checkpointBlocked := true)
    case Begins(action) =>
      if BeginOutcome(s, action) == BeginRun then s.(pending := s.pending - {action}, begun := s.begun + [action])
      else s
    case RemovesBlocked(action) => s.(pending := s.pending - {action})
    case Supersedes(action, terminal) =>
      if Supersedable(admission, s, action, terminal)
      then s.(pending := s.pending - {action}, superseded := s.superseded[action := Superseded(action, terminal)])
      else s
    case Invalidates(action) =>
      if action in s.pending then s.(pending := s.pending - {action}, invalidated := s.invalidated + {action}) else s
  }

  function ApplyAll(admission: Admission, events: seq<Event>): State {
    if events == [] then Initial(admission)
    else Apply(admission, ApplyAll(admission, events[..|events| - 1]), events[|events| - 1])
  }

  function FirstFor(dispositions: seq<Disposition>, path: Path): Option<Disposition> {
    if dispositions == [] then None
    else if path in dispositions[0].paths then Some(dispositions[0])
    else FirstFor(dispositions[1..], path)
  }

  function PriorityTarget(admission: Admission, s: State, path: Path): Target {
    if s.phase != Transfer then Defer
    else
      match FirstFor(admission.dispositions, path)
      case None => Independent
      case Some(d) =>
        if d.Authorized? && d.priorityPull.Some? && d.priorityPull.value.path == path &&
           d.priorityPull.value in s.pending
        then Superseding(d.priorityPull.value)
        else Defer
  }

  // ---------------------------------------------------------------- the invariant

  /** A superseded entry names its own action, and its terminal is that action's address and object. */
  predicate ProperlySuperseded(admission: Admission, action: Action, entry: Superseded) {
    && entry.action == action && action in admission.pulls
    && entry.terminal.path == action.path && Some(entry.terminal.remoteIdentityKey) == action.remoteIdentity
  }

  /** Each action has one fate: it waits, was begun once, was replaced, or was invalidated. */
  ghost predicate Inv(admission: Admission, s: State) {
    && (forall i | 0 <= i < |s.begun| ::
        s.begun[i] !in s.pending && s.begun[i] !in s.superseded && s.begun[i] !in s.invalidated)
    && (forall i, j | 0 <= i < j < |s.begun| :: s.begun[i] != s.begun[j])
    && s.pending !! s.superseded.Keys && s.pending !! s.invalidated && s.superseded.Keys !! s.invalidated
    && s.pending <= admission.actions && s.superseded.Keys <= admission.actions && s.invalidated <= admission.actions
    && (forall a | a in s.superseded :: ProperlySuperseded(admission, a, s.superseded[a]))
  }

  lemma ApplyKeeps(admission: Admission, s: State, e: Event)
    requires Inv(admission, s)
    ensures Inv(admission, Apply(admission, s, e))
  {
  }

  /** Whatever the executor and the priority runs do, in whatever order. */
  lemma {:induction false} BatchKeeps(admission: Admission, events: seq<Event>)
    ensures Inv(admission, ApplyAll(admission, events))
  {
    if events != [] {
      BatchKeeps(admission, events[..|events| - 1]);
      ApplyKeeps(admission, ApplyAll(admission, events[..|events| - 1]), events[|events| - 1]);
    }
  }

  /** After an abort nothing begins, nothing is offered to a priority pull, and the abort stays. */
  lemma AbortIsTerminal(admission: Admission, s: State, e: Event, action: Action, path: Path)
    requires s.phase == Aborting
    ensures Apply(admission, s, e).phase == Aborting && Apply(admission, s, e).begun == s.begun
    ensures BeginOutcome(s, action) == Invalidated && PriorityTarget(admission, s, path) == Defer
  {
  }

  /** A fate, once sealed, is kept; and a blocked checkpoint stays blocked. */
  lemma FatesAreFinal(admission: Admission, s: State, e: Event)
    requires Inv(admission, s)
    ensures var t := Apply(admission, s, e);
            && s.begun <= t.begun && s.invalidated <= t.invalidated && (s.checkpointBlocked ==> t.checkpointBlocked)
            && (forall a | a in s.superseded :: a in t.superseded && t.superseded[a] == s.superseded[a])
            && t.pending <= s.pending
  {
  }

  /** The event seals the fate of this pending action. */
  predicate Seals(admission: Admission, s: State, e: Event, a: Action) {
    match e
    case Begins(action) => a == action && s.phase != Aborting
    case RemovesBlocked(action) => a == action
    case Invalidates(action) => a == action
    case Supersedes(action, terminal) =>
      a == action && a in admission.pulls && terminal.path == a.path &&
        Some(terminal.remoteIdentityKey) == a.remoteIdentity
    case _ => false
  }

  /** Which fate each event seals, and for which action: a live batch begins what is pending, a publication replaces its
      own object's pull with its terminal row, and nothing else moves. */
  lemma EventSeals(admission: Admission, s: State, e: Event)
    requires Inv(admission, s)
    ensures var t := Apply(admission, s, e);
            && (forall a :: a in t.pending <==> a in s.pending && !Seals(admission, s, e, a))
            && t.begun == s.begun + (if e.Begins? && e.action in s.pending && Seals(admission, s, e, e.action)
                                     then [e.action] else [])
            && (forall a :: a in t.invalidated <==>
                  a in s.invalidated || (e.Invalidates? && e.action == a && a in s.pending))
            && (forall a :: a in t.superseded <==>
                  a in s.superseded || (e.Supersedes? && a in s.pending && Seals(admission, s, e, a)))
            && (forall a | a in t.superseded && a !in s.superseded :: t.superseded[a] == Superseded(a, e.terminal))
            && (t.checkpointBlocked <==> s.checkpointBlocked || e.BlocksCheckpoint?)
            && t.phase == (if s.phase == Aborting || e.Aborts? then Aborting
                           else if e.SetsPhase? then e.phase else s.phase)
  {
  }

  /** What the executor is told of an action: to run it exactly when it is pending in a live batch, else its
      replacement, or to leave it. */
  lemma ToldByFate(admission: Admission, s: State, action: Action)
    requires Inv(admission, s)
    ensures BeginOutcome(s, action) == BeginRun <==> s.phase != Aborting && action in s.pending
    ensures BeginOutcome(s, action).Replaced? <==> s.phase != Aborting && action in s.superseded
    ensures BeginOutcome(s, action).Replaced? ==> BeginOutcome(s, action).replacement == s.superseded[action]
  {
  }

  /** The disposition at `i` is the first that lists the path. */
  predicate FirstListing(dispositions: seq<Disposition>, path: Path, i: int) {
    && 0 <= i < |dispositions| && path in dispositions[i].paths
    && forall j | 0 <= j < i :: path !in dispositions[j].paths
  }

  /** The marked pull of the first disposition that lists the path is at it, and pending. */
  predicate Offers(s: State, d: Disposition, path: Path, pull: Action) {
    d.Authorized? && d.priorityPull == Some(pull) && pull.path == path && pull in s.pending
  }

  /** Where a priority pull goes during transfer: on its own outside the plan, in place of the plan's pending pull at
      its path, and otherwise, or later, it waits. */
  lemma TargetExactly(admission: Admission, s: State, path: Path, pull: Action)
    ensures PriorityTarget(admission, s, path) == Independent <==>
            s.phase == Transfer && forall d | d in admission.dispositions :: path !in d.paths
    ensures PriorityTarget(admission, s, path) == Superseding(pull) <==>
            s.phase == Transfer &&
            exists i ::
              FirstListing(admission.dispositions, path, i) && Offers(s, admission.dispositions[i], path, pull)
  {
    FirstForExactly(admission.dispositions, path);
  }

  lemma ListingTail(dispositions: seq<Disposition>, path: Path, i: int)
    requires dispositions != [] && path !in dispositions[0].paths
    ensures FirstListing(dispositions, path, i) <==> FirstListing(dispositions[1..], path, i - 1)
  {
    assert 0 < i < |dispositions| ==> dispositions[1..][i - 1] == dispositions[i];
    assert FirstListing(dispositions[1..], path, i - 1) ==>
             forall j | 0 < j < i :: dispositions[j] == dispositions[1..][j - 1];
  }

  lemma {:induction false} FirstForExactly(dispositions: seq<Disposition>, path: Path)
    ensures FirstFor(dispositions, path).None? <==> forall d | d in dispositions :: path !in d.paths
    ensures forall i | FirstListing(dispositions, path, i) :: FirstFor(dispositions, path) == Some(dispositions[i])
    ensures FirstFor(dispositions, path).Some? ==> exists i :: FirstListing(dispositions, path, i)
  {
    if dispositions != [] {
      if path in dispositions[0].paths {
        assert FirstListing(dispositions, path, 0);
      } else {
        FirstForExactly(dispositions[1..], path);
        forall i: int
          ensures FirstListing(dispositions, path, i) <==> FirstListing(dispositions[1..], path, i - 1)
        {
          ListingTail(dispositions, path, i);
        }
        if i :| FirstListing(dispositions[1..], path, i) {
          ListingTail(dispositions, path, i + 1);
        }
        assert forall d :: d in dispositions <==> d == dispositions[0] || d in dispositions[1..];
      }
    }
  }

  /** A pull offered to a priority run can be superseded by any terminal at its own address and object, and by no
      other. */
  lemma OfferedIsSupersedable(admission: Admission, s: State, path: Path, terminal: Terminal)
    requires Inv(admission, s) && PriorityTarget(admission, s, path).Superseding?
    requires forall d | d in admission.dispositions && d.Authorized? && d.priorityPull.Some? ::
               d.priorityPull.value in admission.pulls
    ensures var action := PriorityTarget(admission, s, path).action;
            (Apply(admission, s, Supersedes(action, terminal)) != s <==>
              terminal.path == path && Some(terminal.remoteIdentityKey) == action.remoteIdentity)
  {
    FirstForIsListed(admission.dispositions, path);
  }

  lemma {:induction false} FirstForIsListed(dispositions: seq<Disposition>, path: Path)
    ensures var d := FirstFor(dispositions, path); d.Some? ==> d.value in dispositions && path in d.value.paths
  {
    if dispositions != [] && path !in dispositions[0].paths {
      FirstForIsListed(dispositions[1..], path);
    }
  }

  // ---------------------------------------------------------------- the class

  /** Every method is one event, so BatchKeeps covers whatever sequence of calls an instance sees. */
  class PriorityBatchState {
    const admission: Admission
    var pending: set<Action>
    var superseded: map<Action, Superseded>
    var invalidated: set<Action>
    var phase: Phase
    var checkpointBlocked: bool
    ghost var begun: seq<Action>

    ghost function View(): State
      reads this
    {
      State(pending, superseded, invalidated, phase, checkpointBlocked, begun)
    }

    constructor (admission: Admission)
      ensures this.admission == admission && View() == Initial(admission)
    {
      this.admission := admission;
      pending, superseded, invalidated := admission.actions, map[], {};
      phase, checkpointBlocked, begun := Transfer, false, [];
    }

    method SetPhase(phase: Phase)
      modifies this`phase
      ensures View() == Apply(admission, old(View()), SetsPhase(phase))
    {
      if this.phase == Aborting {
        return;
      }
      this.phase := phase;
    }

    method Abort()
      modifies this`phase
      ensures View() == Apply(admission, old(View()), Aborts)
    {
      phase := Aborting;
    }

    method BlockCheckpoint()
      modifies this`checkpointBlocked
      ensures View() == Apply(admission, old(View()), BlocksCheckpoint)
    {
      checkpointBlocked := true;
    }

    method TargetOf(path: Path) returns (target: Target)
      ensures target == PriorityTarget(admission, View(), path)
    {
      if phase != Transfer {
        return Defer;
      }
      var disposition := FirstFor(admission.dispositions, path);
      if disposition.None? {
        return Independent;
      }
      var d := disposition.value;
      if !d.Authorized? || d.priorityPull.None? || d.priorityPull.value.path != path ||
         d.priorityPull.value !in pending {
        return Defer;
      }
      return Superseding(d.priorityPull.value);
    }

    method BeginAction(action: Action) returns (outcome: Begun)
      modifies this`pending, this`begun
      ensures outcome == BeginOutcome(old(View()), action)
      ensures View() == Apply(admission, old(View()), Begins(action))
    {
      if phase == Aborting {
        return Invalidated;
      }
      if action in superseded {
        return Replaced(superseded[action]);
      }
      if action in invalidated || action !in pending {
        return Invalidated;
      }
      pending := pending - {action};
      begun := begun + [action];
      return BeginRun;
    }

    method RemoveBlocked(action: Action)
      modifies this`pending
      ensures View() == Apply(admission, old(View()), RemovesBlocked(action))
    {
      pending := pending - {action};
    }

    method Supersede(action: Action, terminal: Terminal) returns (done: bool)
      modifies this`pending, this`superseded
      ensures done <==> Supersedable(admission, old(View()), action, terminal)
      ensures View() == Apply(admission, old(View()), Supersedes(action, terminal))
    {
      if action !in admission.pulls || terminal.path != action.path ||
         Some(terminal.remoteIdentityKey) != action.remoteIdentity {
        return false;
      }
      if action !in pending {
        return false;
      }
      pending := pending - {action};
      superseded := superseded[action := Superseded(action, terminal)];
      return true;
    }

    method Invalidate(action: Action) returns (done: bool)
      modifies this`pending, this`invalidated
      ensures done <==> action in old(pending)
      ensures View() == Apply(admission, old(View()), Invalidates(action))
    {
      if action !in pending {
        return false;
      }
      pending := pending - {action};
      invalidated := invalidated + {action};
      return true;
    }
  }
}
