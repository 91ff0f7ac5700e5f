/** When a cycle may commit its checkpoint: src/sync/sync-cycle-finalization.ts. */
module CycleCloseout {
  import opened Wrappers
  import opened PriorityBatch

  /** One entry of `succeeded`; `proofOf` is the action its terminal proof was made for. */
  datatype Completed = Completed(action: Action, proofOf: Option<Action>)

  /** An execution result; failed and blocked actions are only counted. */
  datatype Result = Result(succeeded: seq<Completed>, superseded: seq<Superseded>, failed: nat, blocked: nat)

  datatype Input = Input(dispositions: seq<Disposition>, result: Result, checkpointBlocked: bool)

  datatype Completion = Clean | FollowUp | Incomplete

  // ---------------------------------------------------------------- completionOf

  /** `new Map(...)` over the list keeps the last entry of an action. */
  function LastSucceeded(succeeded: seq<Completed>, action: Action): Option<Completed> {
    if succeeded == [] then None
    else if succeeded[|succeeded| - 1].action == action then Some(succeeded[|succeeded| - 1])
    else LastSucceeded(succeeded[..|succeeded| - 1], action)
  }

  function LastSuperseded(superseded: seq<Superseded>, action: Action): Option<Superseded> {
    if superseded == [] then None
    else if superseded[|superseded| - 1].action == action then Some(superseded[|superseded| - 1])
    else LastSuperseded(superseded[..|superseded| - 1], action)
  }

  /** A publication moved from another address, or a rename that carries content or descendants. */
  predicate NeedsProof(action: Action) {
    || (action.publicationSource.Some? && action.publicationSource.value != action.path)
    || (action.isRename && (action.hasContent || action.hasDescendants))
  }

  predicate IsTerminal(result: Result, disposition: Disposition, action: Action) {
    var success := LastSucceeded(result.succeeded, action);
    var replacement := LastSuperseded(result.superseded, action);
    || (success.Some? && (!NeedsProof(action) || success.value.proofOf == Some(action)))
    || (disposition.Authorized? && disposition.priorityPull == Some(action) &&
        replacement.Some? && replacement.value.terminal.path == action.path &&
        Some(replacement.value.terminal.remoteIdentityKey) == action.remoteIdentity)
  }

  predicate EveryActionFinished(input: Input) {
    && input.result.failed == 0 && input.result.blocked == 0
    && forall d | d in input.dispositions && d.Authorized? ::
         forall a | a in d.actions :: IsTerminal(input.result, d, a)
  }

  function CompletionOf(input: Input): Completion {
    if !EveryActionFinished(input) then Incomplete
    else if input.checkpointBlocked then FollowUp
    else if exists d | d in input.dispositions :: d.Failed? then Incomplete
    else Clean
  }

  // ---------------------------------------------------------------- what it means

  /** What a success alone does not prove: a row that was published elsewhere before, a rename that also writes content,
      and a folder rename with rows below it. */
  predicate MovesOrCarries(action: Action) {
    match action.publicationSource
    case Some(source) => source != action.path || (action.isRename && (action.hasContent || action.hasDescendants))
    case None => action.isRename && (action.hasContent || action.hasDescendants)
  }

  /** The action's last success entry carries the proof it needs. */
  ghost predicate SucceededWithProof(result: Result, action: Action) {
    exists i | 0 <= i < |result.succeeded| ::
      && result.succeeded[i].action == action
      && (forall j | i < j < |result.succeeded| :: result.succeeded[j].action != action)
      && (MovesOrCarries(action) ==> result.succeeded[i].proofOf == Some(action))
  }

  /** The action was the disposition's marked pull, and a priority publication of that very object replaced it. */
  ghost predicate WasReplaced(result: Result, d: Disposition, action: Action) {
    && d.Authorized? && d.priorityPull == Some(action)
    && exists i | 0 <= i < |result.superseded| ::
         && result.superseded[i].action == action
         && (forall j | i < j < |result.superseded| :: result.superseded[j].action != action)
         && result.superseded[i].terminal.path == action.path
         && Some(result.superseded[i].terminal.remoteIdentityKey) == action.remoteIdentity
  }

  lemma {:induction false} LastSucceededIs(succeeded: seq<Completed>, action: Action)
    ensures match LastSucceeded(succeeded, action)
            case None => forall i | 0 <= i < |succeeded| :: succeeded[i].action != action
            case Some(c) => exists i | 0 <= i < |succeeded| ::
              succeeded[i] == c && c.action == action && forall j | i < j < |succeeded| :: succeeded[j].action != action
  {
    if succeeded != [] && succeeded[|succeeded| - 1].action != action {
      var rest := succeeded[..|succeeded| - 1];
      LastSucceededIs(rest, action);
      assert forall i | 0 <= i < |rest| :: rest[i] == succeeded[i];
    }
  }

  lemma {:induction false} LastSupersededIs(superseded: seq<Superseded>, action: Action)
    ensures match LastSuperseded(superseded, action)
            case None => forall i | 0 <= i < |superseded| :: superseded[i].action != action
            case Some(c) => exists i | 0 <= i < |superseded| ::
              superseded[i] == c && c.action == action &&
                forall j | i < j < |superseded| :: superseded[j].action != action
  {
    if superseded != [] && superseded[|superseded| - 1].action != action {
      var rest := superseded[..|superseded| - 1];
      LastSupersededIs(rest, action);
      assert forall i | 0 <= i < |rest| :: rest[i] == superseded[i];
    }
  }

  lemma TerminalMeans(result: Result, d: Disposition, action: Action)
    ensures IsTerminal(result, d, action) <==> SucceededWithProof(result, action) || WasReplaced(result, d, action)
  {
    LastSucceededIs(result.succeeded, action);
    LastSupersededIs(result.superseded, action);
  }

  ghost predicate AllAuthorizedDone(input: Input) {
    forall d, a | d in input.dispositions && d.Authorized? && a in d.actions ::
      SucceededWithProof(input.result, a) || WasReplaced(input.result, d, a)
  }

  /** Clean: nothing failed or was blocked, every authorized action is done, no component failed, nothing withheld. */
  lemma CleanExactly(input: Input)
    ensures CompletionOf(input) == Clean <==>
            && input.result.failed == 0 && input.result.blocked == 0 && AllAuthorizedDone(input)
            && !input.checkpointBlocked && forall d | d in input.dispositions :: !d.Failed?
    ensures CompletionOf(input) == FollowUp <==>
            && input.result.failed == 0 && input.result.blocked == 0 && AllAuthorizedDone(input) &&
               input.checkpointBlocked
  {
    forall d, a | d in input.dispositions && d.Authorized? && a in d.actions
      ensures IsTerminal(input.result, d, a) <==> SucceededWithProof(input.result, a) || WasReplaced(input.result, d, a)
    {
      TerminalMeans(input.result, d, a);
    }
  }

  // ---------------------------------------------------------------- the batch and the closeout agree

  /** Every entry the batch makes satisfies the closeout's test of a replaced pull. */
  lemma BatchReplacementIsTerminal(admission: Admission, s: State, d: Disposition, action: Action, result: Result)
    requires Inv(admission, s) && action in s.superseded
    requires d.Authorized? && d.priorityPull == Some(action)
    requires LastSuperseded(result.superseded, action) == Some(s.superseded[action])
    ensures IsTerminal(result, d, action)
  {
  }

  // ---------------------------------------------------------------- one attempt

  datatype Closed = Returned(completion: Completion) | Threw | AbortThrew

  /** How an attempt's parts behave: the work's result (or that it, or reading it, threw), and whether each store call
      fails. */
  datatype Faults = Faults(work: Option<Input>, commitFails: bool, abortFails: bool)

  predicate Commits(f: Faults) {
    f.work.Some? && CompletionOf(f.work.value) == Clean && !f.commitFails
  }

  function Closing(f: Faults): Closed {
    if Commits(f) then Returned(Clean)
    else if f.abortFails then AbortThrew
    else if f.work.None? || CompletionOf(f.work.value) == Clean then Threw
    else Returned(CompletionOf(f.work.value))
  }

  /** Only a commit that worked returns clean. */
  lemma CleanIsCommitted(f: Faults)
    ensures Closing(f) == Returned(Clean) <==> Commits(f)
  {
  }

  /** How an attempt closes: the failed abort of an uncommitted view is a failure of its own; otherwise a throw of the
      work or of the commit is one, and work that is not clean returns as what it is. */
  lemma ClosingExactly(f: Faults)
    ensures Closing(f) == AbortThrew <==> f.abortFails && !Commits(f)
    ensures Closing(f) == Threw <==>
            !f.abortFails && (f.work.None? || (CompletionOf(f.work.value) == Clean && f.commitFails))
    ensures forall c | c != Clean ::
              Closing(f) == Returned(c) <==> !f.abortFails && f.work.Some? && CompletionOf(f.work.value) == c
  {
  }

  /** The remote cursor: whether one was committed, what is durable, and the working view an attempt reads ahead to. */
  class Checkpoint {
    var committed: bool
    var durable: nat
    var working: nat
    ghost var commits: nat
    ghost var aborts: nat

    constructor (committed: bool, cursor: nat)
      ensures this.committed == committed && durable == cursor && working == cursor && commits == 0 && aborts == 0
    {
      this.committed := committed;
      durable, working, commits, aborts := cursor, cursor, 0, 0;
    }

    method CommitCheckpoint(fails: bool) returns (ok: bool)
      modifies this`committed, this`durable, this`commits
      ensures ok == !fails
      ensures committed == (ok || old(committed)) && durable == if ok then working else old(durable)
      ensures commits == old(commits) + if ok then 1 else 0
    {
      if fails {
        return false;
      }
      committed, durable, commits := true, working, commits + 1;
      return true;
    }

    method AbortWorkingView(fails: bool) returns (ok: bool)
      modifies this`working, this`aborts
      ensures ok == !fails && aborts == old(aborts) + 1
      ensures working == if ok then durable else old(working)
    {
      aborts := aborts + 1;
      if fails {
        return false;
      }
      working := durable;
      return true;
    }

    /** The work runs first; then either one commit or one abort, never both, never two of either. */
    method RunSyncCycleAttempt(f: Faults) returns (closed: Closed)
      modifies this
      ensures closed == Closing(f)
      ensures commits == old(commits) + if Commits(f) then 1 else 0
      ensures aborts == old(aborts) + if Commits(f) then 0 else 1
      ensures committed == (Commits(f) || old(committed))
      ensures durable == if Commits(f) then old(working) else old(durable)
      ensures working == if closed.AbortThrew? then old(working) else durable
    {
      var threw := f.work.None?;
      var completion := Incomplete;
      if f.work.Some? {
        completion := CompletionOf(f.work.value);
        if completion == Clean {
          var ok := CommitCheckpoint(f.commitFails);
          threw := !ok;
        }
      }
      if threw {
        var aborted := AbortWorkingView(f.abortFails);
        return if aborted then Threw else AbortThrew;
      }
      if completion != Clean {
        var aborted := AbortWorkingView(f.abortFails);
        if !aborted {
          return AbortThrew;
        }
      }
      return Returned(completion);
    }
  }
}
