/** From a folder's bound children to their one atomic relocation: src/sync/identity-component-decision.ts
    (decideFolder), src/sync/plan-executor.ts (executePlan), src/sync/execution-result.ts and
    src/sync/state-committer.ts. */
module FolderCommit {
  import opened Wrappers
  import opened SyncTypes
  import opened SyncState

  /** The object identity of one admitted action. */
  type ActionId = nat

  /** A file action under a moving folder; a removal leaves no row behind. */
  datatype ChildAction = ChildAction(id: ActionId, removal: bool, path: string, continued: Option<SyncRecord>)

  /** One bound suffix: the address it is bound at, its baseline row and the action it needs. */
  datatype Binding = Binding(suffix: string, path: string, baseline: Option<SyncRecord>, action: Option<ChildAction>)

  /** One entry of `descendantRecords`. */
  datatype Child = Child(oldPath: string, newPath: string, source: Option<SyncRecord>,
                         destination: Option<SyncRecord>, after: Option<ActionId>)

  /** One entry of the executor's `succeeded` list. */
  datatype Receipt = Receipt(action: ActionId, terminalRecord: Option<SyncRecord>)

  // ---------------------------------------------------------------- deciding the children

  function ChildOf(b: Binding, newPath: string, records: map<string, SyncRecord>): Child {
    var target := newPath + "/" + b.suffix;
    var selfClaim := b.action.Some? && b.action.value.continued.Some? &&
                     b.action.value.continued.value.path == target && b.action.value.path != target;
    Child(b.path, target, b.baseline,
          if !selfClaim && target in records then Some(records[target]) else None,
          if b.action.Some? then Some(b.action.value.id) else None)
  }

  predicate Retained(b: Binding) {
    b.action.None? || !b.action.value.removal
  }

  function RetainedBindings(bindings: seq<Binding>): (kept: seq<Binding>) {
    if bindings == [] then []
    else if Retained(bindings[0]) then [bindings[0]] + RetainedBindings(bindings[1..])
    else RetainedBindings(bindings[1..])
  }

  function ActionsOf(bindings: seq<Binding>): seq<ActionId> {
    if bindings == [] then []
    else if bindings[0].action.Some? then [bindings[0].action.value.id] + ActionsOf(bindings[1..])
    else ActionsOf(bindings[1..])
  }

  function ChildrenOf(bindings: seq<Binding>, newPath: string, records: map<string, SyncRecord>): seq<Child> {
    var kept := RetainedBindings(bindings);
    seq(|kept|, i requires 0 <= i < |kept| => ChildOf(kept[i], newPath, records))
  }

  /** The second loop of decideFolder: actions in binding order, one entry per surviving row. */
  method DecideDescendants(bindings: seq<Binding>, newPath: string, records: map<string, SyncRecord>)
    returns (actions: seq<ActionId>, children: seq<Child>)
    ensures actions == ActionsOf(bindings)
    ensures children == ChildrenOf(bindings, newPath, records)
  {
    actions, children := [], [];
    for i := 0 to |bindings|
      invariant actions + ActionsOf(bindings[i..]) == ActionsOf(bindings)
      invariant children + ChildrenOf(bindings[i..], newPath, records) == ChildrenOf(bindings, newPath, records)
    {
      var file := bindings[i];
      assert bindings[i..][0] == file && bindings[i..][1..] == bindings[i + 1..];
      if file.action.Some? {
        actions := actions + [file.action.value.id];
      }
      if Retained(file) {
        assert ChildrenOf(bindings[i..], newPath, records) ==
               [ChildOf(file, newPath, records)] + ChildrenOf(bindings[i + 1..], newPath, records);
        children := children + [ChildOf(file, newPath, records)];
      }
    }
  }

  // ---------------------------------------------------------------- executing the component

  /** What the executor sees of an action: it publishes, a priority publication has replaced it, it is blocked,
      it fails, or it throws out of the whole plan. */
  datatype Fate = Succeeds(record: Option<SyncRecord>) | Superseded | Blocked | Fails | Throws

  predicate Settles(f: Fate) {
    f.Succeeds? || f.Superseded?
  }

  /** How many leading actions publish or have been replaced. */
  function SettledPrefix(actions: seq<ActionId>, fate: ActionId -> Fate): (n: nat)
    ensures n <= |actions|
  {
    if actions == [] || !Settles(fate(actions[0])) then 0 else 1 + SettledPrefix(actions[1..], fate)
  }

  /** The receipts of the actions that publish, in order. */
  function ReceiptsOf(actions: seq<ActionId>, fate: ActionId -> Fate): seq<Receipt> {
    if actions == [] then []
    else
      (if fate(actions[0]).Succeeds? then [Receipt(actions[0], fate(actions[0]).record)] else []) +
      ReceiptsOf(actions[1..], fate)
  }

  function SupersededOf(actions: seq<ActionId>, fate: ActionId -> Fate): seq<ActionId> {
    if actions == [] then []
    else (if fate(actions[0]).Superseded? then [actions[0]] else []) + SupersededOf(actions[1..], fate)
  }

  lemma Associates<T>(a: seq<T>, b: seq<T>, c: seq<T>)
    ensures (a + b) + c == a + (b + c)
  {
  }

  lemma {:induction false} ReceiptsSnoc(actions: seq<ActionId>, last: ActionId, fate: ActionId -> Fate)
    ensures ReceiptsOf(actions + [last], fate) == ReceiptsOf(actions, fate) + ReceiptsOf([last], fate)
  {
    if actions == [] {
      assert actions + [last] == [last];
    } else {
      assert (actions + [last])[0] == actions[0] && (actions + [last])[1..] == actions[1..] + [last];
      ReceiptsSnoc(actions[1..], last, fate);
      Associates(if fate(actions[0]).Succeeds? then [Receipt(actions[0], fate(actions[0]).record)] else [],
                 ReceiptsOf(actions[1..], fate), ReceiptsOf([last], fate));
    }
  }

  lemma {:induction false} SupersededSnoc(actions: seq<ActionId>, last: ActionId, fate: ActionId -> Fate)
    ensures SupersededOf(actions + [last], fate) == SupersededOf(actions, fate) + SupersededOf([last], fate)
  {
    if actions == [] {
      assert actions + [last] == [last];
    } else {
      assert (actions + [last])[0] == actions[0] && (actions + [last])[1..] == actions[1..] + [last];
      SupersededSnoc(actions[1..], last, fate);
      Associates(if fate(actions[0]).Superseded? then [actions[0]] else [],
                 SupersededOf(actions[1..], fate), SupersededOf([last], fate));
    }
  }

  lemma OneSettled(action: ActionId, fate: ActionId -> Fate)
    ensures ReceiptsOf([action], fate) ==
            if fate(action).Succeeds? then [Receipt(action, fate(action).record)] else []
    ensures SupersededOf([action], fate) == if fate(action).Superseded? then [action] else []
  {
    assert [action][1..] == [];
  }

  lemma OneMoreSettled(actions: seq<ActionId>, i: nat, fate: ActionId -> Fate)
    requires i < |actions|
    ensures ReceiptsOf(actions[..i + 1], fate) == ReceiptsOf(actions[..i], fate) +
            if fate(actions[i]).Succeeds? then [Receipt(actions[i], fate(actions[i]).record)] else []
    ensures SupersededOf(actions[..i + 1], fate) ==
            SupersededOf(actions[..i], fate) + if fate(actions[i]).Superseded? then [actions[i]] else []
  {
    assert actions[..i + 1] == actions[..i] + [actions[i]];
    ReceiptsSnoc(actions[..i], actions[i], fate);
    SupersededSnoc(actions[..i], actions[i], fate);
    OneSettled(actions[i], fate);
  }

  lemma {:induction false} PrefixIsFirstFailure(actions: seq<ActionId>, fate: ActionId -> Fate)
    ensures var n := SettledPrefix(actions, fate);
            && (forall i | 0 <= i < n :: Settles(fate(actions[i])))
            && (n < |actions| ==> !Settles(fate(actions[n])))
  {
    if actions != [] && Settles(fate(actions[0])) {
      PrefixIsFirstFailure(actions[1..], fate);
      assert forall i | 0 < i < |actions| :: actions[i] == actions[1..][i - 1];
    }
  }

  /** What the loop has settled: the actions in front of the first failure, as far as it has come. */
  ghost predicate Settled(actions: seq<ActionId>, fate: ActionId -> Fate, earlier: seq<Receipt>, i: nat,
                          succeeded: seq<Receipt>, superseded: seq<ActionId>)
    requires i <= |actions|
  {
    succeeded == earlier + ReceiptsOf(actions[..i], fate) && superseded == SupersededOf(actions[..i], fate)
  }

  /** What the loop has given up on, by the time it has passed the first failure at `n`. */
  predicate GivenUp(actions: seq<ActionId>, fate: ActionId -> Fate, n: nat, i: nat, failed: seq<ActionId>,
                    blocked: seq<ActionId>)
    requires n < i <= |actions|
  {
    if fate(actions[n]).Fails? then failed == [actions[n]] && blocked == actions[n + 1..i]
    else failed == [] && blocked == actions[n..i]
  }

  /** One more action in front of the first failure. */
  lemma SettlesOne(actions: seq<ActionId>, fate: ActionId -> Fate, earlier: seq<Receipt>, i: nat,
                   succeeded: seq<Receipt>, superseded: seq<ActionId>)
    requires i < |actions| && Settled(actions, fate, earlier, i, succeeded, superseded)
    ensures var receipt := if fate(actions[i]).Succeeds? then [Receipt(actions[i], fate(actions[i]).record)] else [];
            var replaced := if fate(actions[i]).Superseded? then [actions[i]] else [];
            Settled(actions, fate, earlier, i + 1, succeeded + receipt, superseded + replaced)
  {
    OneMoreSettled(actions, i, fate);
    Associates(earlier, ReceiptsOf(actions[..i], fate),
               if fate(actions[i]).Succeeds? then [Receipt(actions[i], fate(actions[i]).record)] else []);
  }

  lemma FirstGivenUp(actions: seq<ActionId>, fate: ActionId -> Fate, n: nat)
    requires n < |actions|
    ensures if fate(actions[n]).Fails? then GivenUp(actions, fate, n, n + 1, [actions[n]], [])
            else GivenUp(actions, fate, n, n + 1, [], [actions[n]])
  {
  }

  /** Behind the first failure everything is blocked. */
  lemma BlocksOne(actions: seq<ActionId>, fate: ActionId -> Fate, n: nat, i: nat, failed: seq<ActionId>,
                  blocked: seq<ActionId>)
    requires n < i < |actions| && GivenUp(actions, fate, n, i, failed, blocked)
    ensures GivenUp(actions, fate, n, i + 1, failed, blocked + [actions[i]])
  {
    assert actions[n..i + 1] == actions[n..i] + [actions[i]];
    assert actions[n + 1..i + 1] == actions[n + 1..i] + [actions[i]];
  }

  /** The serial loop of executePlan over one component: publish in order, block all after a failure. */
  method ExecuteComponent(actions: seq<ActionId>, fate: ActionId -> Fate, earlier: seq<Receipt>)
    returns (succeeded: seq<Receipt>, superseded: seq<ActionId>, failed: seq<ActionId>, blocked: seq<ActionId>,
             threw: bool)
    ensures var n := SettledPrefix(actions, fate);
            && succeeded == earlier + ReceiptsOf(actions[..n], fate)
            && superseded == SupersededOf(actions[..n], fate)
            && (threw <==> n < |actions| && fate(actions[n]).Throws?)
            && (failed, blocked) ==
               if n == |actions| || threw then ([], [])
               else if fate(actions[n]).Fails? then ([actions[n]], actions[n + 1..])
               else ([], actions[n..])
  {
    succeeded, superseded, failed, blocked, threw := earlier, [], [], [], false;
    var prefixFailed := false;
    ghost var n := SettledPrefix(actions, fate);
    PrefixIsFirstFailure(actions, fate);
    for i := 0 to |actions|
      invariant prefixFailed <==> n < i
      invariant prefixFailed ==> !fate(actions[n]).Throws?
      invariant Settled(actions, fate, earlier, if prefixFailed then n else i, succeeded, superseded)
      invariant if prefixFailed then GivenUp(actions, fate, n, i, failed, blocked) else failed == [] == blocked
    {
      if prefixFailed {
        BlocksOne(actions, fate, n, i, failed, blocked);
        blocked := blocked + [actions[i]];
        continue;
      }
      SettlesOne(actions, fate, earlier, i, succeeded, superseded);
      FirstGivenUp(actions, fate, i);
      var incompleteBefore := |failed| + |blocked|;
      match fate(actions[i]) {
        case Succeeds(record) => succeeded := succeeded + [Receipt(actions[i], record)];
        case Superseded => superseded := superseded + [actions[i]];
        case Blocked => blocked := blocked + [actions[i]];
        case Fails => failed := failed + [actions[i]];
        case Throws =>
          threw := true;
          return;
      }
      prefixFailed := |failed| + |blocked| != incompleteBefore;
    }
    assert actions[..|actions|] == actions;
  }

  // ---------------------------------------------------------------- joining receipts

  function Scan(completed: seq<Receipt>, cursor: nat, action: ActionId): (k: nat)
    requires cursor <= |completed|
    ensures cursor <= k <= |completed|
    ensures k < |completed| ==> completed[k].action == action
    ensures forall i | cursor <= i < k :: completed[i].action != action
    decreases |completed| - cursor
  {
    if cursor == |completed| || completed[cursor].action == action then cursor
    else Scan(completed, cursor + 1, action)
  }

  function Join(children: seq<Child>, completed: seq<Receipt>, cursor: nat): (joined: seq<Option<Receipt>>)
    requires cursor <= |completed|
    ensures |joined| == |children|
  {
    if children == [] then []
    else if children[0].after.None? then [None] + Join(children[1..], completed, cursor)
    else
      var k := Scan(completed, cursor, children[0].after.value);
      if k < |completed| then [Some(completed[k])] + Join(children[1..], completed, k + 1)
      else [None] + Join(children[1..], completed, k)
  }

  /** The inner loop: step past completed actions until the wanted one has been passed. */
  method ScanFor(completed: seq<Receipt>, start: nat, action: ActionId) returns (receipt: Option<Receipt>, cursor: nat)
    requires start <= |completed|
    ensures var k := Scan(completed, start, action);
            if k < |completed| then receipt == Some(completed[k]) && cursor == k + 1 else receipt == None && cursor == k
  {
    ghost var k := Scan(completed, start, action);
    cursor := start;
    while cursor < |completed|
      invariant start <= cursor <= k
    {
      var candidate := completed[cursor];
      cursor := cursor + 1;
      if candidate.action == action {
        return Some(candidate), cursor;
      }
    }
    return None, cursor;
  }

  /** The cursor loop of orderedChildReceipts. */
  method OrderedChildReceipts(children: seq<Child>, completed: seq<Receipt>) returns (joined: seq<Option<Receipt>>)
    ensures joined == Join(children, completed, 0)
  {
    joined := [];
    var cursor: nat := 0;
    for c := 0 to |children|
      invariant cursor <= |completed|
      invariant joined + Join(children[c..], completed, cursor) == Join(children, completed, 0)
    {
      var child := children[c];
      assert children[c..][0] == child && children[c..][1..] == children[c + 1..];
      ghost var later := Join(children[c..], completed, cursor);
      var receipt: Option<Receipt> := None;
      if child.after.Some? {
        receipt, cursor := ScanFor(completed, cursor, child.after.value);
      }
      assert later == [receipt] + Join(children[c + 1..], completed, cursor);
      Regroup(joined, [receipt], Join(children[c + 1..], completed, cursor));
      joined := joined + [receipt];
    }
  }

  lemma Regroup(a: seq<Option<Receipt>>, b: seq<Option<Receipt>>, c: seq<Option<Receipt>>)
    ensures (a + b) + c == a + (b + c)
  {
  }

  function Afters(children: seq<Child>): seq<ActionId> {
    if children == [] then []
    else if children[0].after.None? then Afters(children[1..])
    else [children[0].after.value] + Afters(children[1..])
  }

  /** `at` places the wanted actions among the completed ones, each behind the one before. */
  ghost predicate Embeds(wanted: seq<ActionId>, completed: seq<Receipt>, cursor: nat, at: seq<nat>) {
    && |at| == |wanted|
    && (wanted == [] ||
        (cursor <= at[0] < |completed| && completed[at[0]].action == wanted[0] &&
         Embeds(wanted[1..], completed, at[0] + 1, at[1..])))
  }

  lemma EmbedsEarlier(wanted: seq<ActionId>, completed: seq<Receipt>, cursor: nat, from: nat, at: seq<nat>)
    requires from <= cursor && Embeds(wanted, completed, cursor, at)
    ensures Embeds(wanted, completed, from, at)
  {
  }

  ghost predicate EveryReceiptFound(children: seq<Child>, joined: seq<Option<Receipt>>)
    requires |joined| == |children|
  {
    forall i | 0 <= i < |children| && children[i].after.Some? ::
      joined[i].Some? && joined[i].value.action == children[i].after.value
  }

  /** The greedy join finds every receipt exactly when the waited-for actions completed in child order. */
  lemma JoinFindsAll(children: seq<Child>, completed: seq<Receipt>, cursor: nat)
    requires cursor <= |completed|
    ensures EveryReceiptFound(children, Join(children, completed, cursor)) <==>
            exists at: seq<nat> :: Embeds(Afters(children), completed, cursor, at)
  {
    if EveryReceiptFound(children, Join(children, completed, cursor)) {
      var at := FoundEmbeds(children, completed, cursor);
      assert Embeds(Afters(children), completed, cursor, at);
    }
    if exists at: seq<nat> :: Embeds(Afters(children), completed, cursor, at) {
      var at: seq<nat> :| Embeds(Afters(children), completed, cursor, at);
      EmbeddedFound(children, completed, cursor, at);
      assert EveryReceiptFound(children, Join(children, completed, cursor));
      assert exists w: seq<nat> :: Embeds(Afters(children), completed, cursor, w);
    }
  }

  function NextCursor(child: Child, completed: seq<Receipt>, cursor: nat): (next: nat)
    requires cursor <= |completed|
    ensures cursor <= next <= |completed|
  {
    if child.after.None? then cursor
    else
      var k := Scan(completed, cursor, child.after.value);
      if k < |completed| then k + 1 else k
  }

  /** The first child's receipt, and the join of the rest. */
  lemma JoinSplits(children: seq<Child>, completed: seq<Receipt>, cursor: nat)
    requires cursor <= |completed| && children != []
    ensures var next := NextCursor(children[0], completed, cursor);
            && Join(children, completed, cursor)[1..] == Join(children[1..], completed, next)
            && (children[0].after.Some? && Join(children, completed, cursor)[0].Some? ==>
                  cursor < next && completed[next - 1].action == children[0].after.value)
  {
  }

  lemma {:induction false} FoundEmbeds(children: seq<Child>, completed: seq<Receipt>, cursor: nat)
    returns (at: seq<nat>)
    requires cursor <= |completed|
    requires EveryReceiptFound(children, Join(children, completed, cursor))
    ensures Embeds(Afters(children), completed, cursor, at)
  {
    at := [];
    if children != [] {
      var next := NextCursor(children[0], completed, cursor);
      JoinSplits(children, completed, cursor);
      FoundTail(children, Join(children, completed, cursor));
      var rest := FoundEmbeds(children[1..], completed, next);
      if children[0].after.Some? {
        at := [next - 1] + rest;
        assert at[1..] == rest && Afters(children)[1..] == Afters(children[1..]);
      } else {
        at := rest;
      }
    }
  }

  lemma {:induction false} EmbeddedFound(children: seq<Child>, completed: seq<Receipt>, cursor: nat, at: seq<nat>)
    requires cursor <= |completed|
    requires Embeds(Afters(children), completed, cursor, at)
    ensures EveryReceiptFound(children, Join(children, completed, cursor))
  {
    if children != [] {
      var next := NextCursor(children[0], completed, cursor);
      JoinSplits(children, completed, cursor);
      if children[0].after.Some? {
        assert at[0] >= Scan(completed, cursor, children[0].after.value);
        assert Afters(children)[1..] == Afters(children[1..]);
        EmbedsEarlier(Afters(children[1..]), completed, at[0] + 1, next, at[1..]);
        EmbeddedFound(children[1..], completed, next, at[1..]);
      } else {
        EmbeddedFound(children[1..], completed, next, at);
      }
      FoundTail(children, Join(children, completed, cursor));
    }
  }

  lemma FoundTail(children: seq<Child>, joined: seq<Option<Receipt>>)
    requires children != [] && |joined| == |children|
    ensures EveryReceiptFound(children, joined) <==>
            EveryReceiptFound(children[1..], joined[1..]) &&
            (children[0].after.Some? ==> joined[0].Some? && joined[0].value.action == children[0].after.value)
  {
    assert forall i | 0 < i < |children| :: children[i] == children[1..][i - 1] && joined[i] == joined[1..][i - 1];
  }

  lemma ChildrenSplit(bindings: seq<Binding>, newPath: string, records: map<string, SyncRecord>)
    requires bindings != []
    ensures var rest := Afters(ChildrenOf(bindings[1..], newPath, records));
            Afters(ChildrenOf(bindings, newPath, records)) ==
            if Retained(bindings[0]) && bindings[0].action.Some? then [bindings[0].action.value.id] + rest else rest
  {
    var tail := ChildrenOf(bindings[1..], newPath, records);
    if Retained(bindings[0]) {
      assert ChildrenOf(bindings, newPath, records) == [ChildOf(bindings[0], newPath, records)] + tail;
      assert ([ChildOf(bindings[0], newPath, records)] + tail)[1..] == tail;
    } else {
      assert ChildrenOf(bindings, newPath, records) == tail;
    }
  }

  /** Every surviving child that waits for an action waits for one that publishes. */
  ghost predicate ChildrenPublish(bindings: seq<Binding>, fate: ActionId -> Fate) {
    forall b | b in bindings && Retained(b) && b.action.Some? :: fate(b.action.value.id).Succeeds?
  }

  /** Behind `from`, exactly the receipts of the actions are left. */
  ghost predicate Receipted(actions: seq<ActionId>, fate: ActionId -> Fate, completed: seq<Receipt>, from: nat) {
    from <= |completed| && completed[from..] == ReceiptsOf(actions, fate)
  }

  lemma ReceiptedTail(actions: seq<ActionId>, fate: ActionId -> Fate, completed: seq<Receipt>, from: nat)
    requires Receipted(actions, fate, completed, from) && actions != []
    ensures fate(actions[0]).Succeeds? ==>
              from < |completed| && completed[from].action == actions[0] &&
                Receipted(actions[1..], fate, completed, from + 1)
    ensures !fate(actions[0]).Succeeds? ==> Receipted(actions[1..], fate, completed, from)
  {
    if fate(actions[0]).Succeeds? {
      var behind := completed[from..];
      assert behind == [Receipt(actions[0], fate(actions[0]).record)] + ReceiptsOf(actions[1..], fate);
      assert completed[from] == behind[0] && completed[from + 1..] == behind[1..];
    }
  }

  /** The children's actions are found in binding order. */
  lemma {:induction false} AftersEmbed(bindings: seq<Binding>, newPath: string, records: map<string, SyncRecord>,
                                       fate: ActionId -> Fate, completed: seq<Receipt>, from: nat)
    returns (at: seq<nat>)
    requires ChildrenPublish(bindings, fate) && Receipted(ActionsOf(bindings), fate, completed, from)
    ensures Embeds(Afters(ChildrenOf(bindings, newPath, records)), completed, from, at)
  {
    at := [];
    if bindings != [] {
      var first := bindings[0];
      ChildrenSplit(bindings, newPath, records);
      if first.action.None? {
        at := AftersEmbed(bindings[1..], newPath, records, fate, completed, from);
      } else {
        ReceiptedTail(ActionsOf(bindings), fate, completed, from);
        assert ActionsOf(bindings)[1..] == ActionsOf(bindings[1..]);
        var next := if fate(first.action.value.id).Succeeds? then from + 1 else from;
        var rest := AftersEmbed(bindings[1..], newPath, records, fate, completed, next);
        var wanted := Afters(ChildrenOf(bindings[1..], newPath, records));
        if Retained(first) {
          at := [from] + rest;
          assert at[1..] == rest && ([first.action.value.id] + wanted)[1..] == wanted;
        } else {
          at := rest;
          EmbedsEarlier(wanted, completed, next, from, rest);
        }
      }
    }
  }

  lemma {:induction false} ReceiptsAre(actions: seq<ActionId>, fate: ActionId -> Fate)
    ensures forall r | r in ReceiptsOf(actions, fate) ::
              r.action in actions && fate(r.action) == Succeeds(r.terminalRecord)
  {
    if actions != [] {
      ReceiptsAre(actions[1..], fate);
    }
  }

  lemma {:induction false} JoinedAreCompleted(children: seq<Child>, completed: seq<Receipt>, cursor: nat)
    requires cursor <= |completed|
    ensures forall i | 0 <= i < |children| && Join(children, completed, cursor)[i].Some? ::
              Join(children, completed, cursor)[i].value in completed
  {
    if children != [] {
      JoinSplits(children, completed, cursor);
      JoinedAreCompleted(children[1..], completed, NextCursor(children[0], completed, cursor));
    }
  }

  lemma {:induction false} RetainedBecomesChild(bindings: seq<Binding>, newPath: string,
                                                records: map<string, SyncRecord>, b: Binding) returns (i: nat)
    requires b in bindings && Retained(b)
    ensures i < |ChildrenOf(bindings, newPath, records)| &&
            ChildrenOf(bindings, newPath, records)[i] == ChildOf(b, newPath, records)
  {
    var kept := RetainedBindings(bindings);
    RetainedIsKept(bindings, b);
    i :| 0 <= i < |kept| && kept[i] == b;
  }

  lemma {:induction false} RetainedIsKept(bindings: seq<Binding>, b: Binding)
    requires b in bindings && Retained(b)
    ensures b in RetainedBindings(bindings)
  {
    if bindings[0] != b {
      RetainedIsKept(bindings[1..], b);
    }
  }

  lemma {:induction false} ActionIsListed(bindings: seq<Binding>, b: Binding)
    requires b in bindings && b.action.Some?
    ensures b.action.value.id in ActionsOf(bindings)
  {
    if bindings[0] != b {
      ActionIsListed(bindings[1..], b);
    }
  }

  /** Whatever completed earlier, the parent finds every child's own receipt exactly when each of those actions
      published itself; a child replaced by a priority publication leaves the parent without a row. */
  lemma ParentFindsEveryChild(bindings: seq<Binding>, newPath: string, records: map<string, SyncRecord>,
                              fate: ActionId -> Fate, earlier: seq<Receipt>)
    requires forall r | r in earlier :: r.action !in ActionsOf(bindings)
    ensures var children := ChildrenOf(bindings, newPath, records);
            EveryReceiptFound(children, Join(children, earlier + ReceiptsOf(ActionsOf(bindings), fate), 0)) <==>
            ChildrenPublish(bindings, fate)
  {
    var children := ChildrenOf(bindings, newPath, records);
    var receipts := ReceiptsOf(ActionsOf(bindings), fate);
    var completed := earlier + receipts;
    if ChildrenPublish(bindings, fate) {
      assert completed[|earlier|..] == receipts;
      var at := AftersEmbed(bindings, newPath, records, fate, completed, |earlier|);
      EmbedsEarlier(Afters(children), completed, |earlier|, 0, at);
      EmbeddedFound(children, completed, 0, at);
    }
    if EveryReceiptFound(children, Join(children, completed, 0)) {
      forall b | b in bindings && Retained(b) && b.action.Some? ensures fate(b.action.value.id).Succeeds? {
        var i := RetainedBecomesChild(bindings, newPath, records, b);
        JoinedAreCompleted(children, completed, 0);
        ActionIsListed(bindings, b);
        ReceiptsAre(ActionsOf(bindings), fate);
        assert Join(children, completed, 0)[i].value in completed;
      }
    }
  }

  // ---------------------------------------------------------------- publishing the folder

  /** The row a child contributes: its receipt's when it waited for an action, else its own. */
  function SourceOf(child: Child, receipt: Option<Receipt>): Option<SyncRecord> {
    if child.after.None? then child.source
    else if receipt.Some? then receipt.value.terminalRecord
    else None
  }

  function RelocationOf(child: Child, source: SyncRecord): Relocation {
    Relocation(source, if source.path == child.newPath then Some(source) else child.destination,
               source.(path := child.newPath))
  }

  datatype CommitOutcome = Committed | ChildRecordMissing | RecordsChanged

  /** commitAction for a folder rename: every child's row, one atomic relocation. */
  method CommitFolder(store: SyncStateStore, children: seq<Child>, completed: seq<Receipt>)
    returns (outcome: CommitOutcome)
    requires store.Valid()
    modifies store
    ensures store.Valid()
    ensures var joined := Join(children, completed, 0);
            outcome == ChildRecordMissing <==> exists i :: 0 <= i < |children| && SourceOf(children[i], joined[i]).None?
    ensures outcome != ChildRecordMissing ==>
              var items := Relocations(children, Join(children, completed, 0));
              && (outcome == Committed <==> RewriteMatches(old(store.rows), items))
              && (outcome == Committed ==> IsRelocated(old(store.Contents()), items, store.Contents()))
    ensures outcome != Committed ==> store.Contents() == old(store.Contents())
  {
    var joined := OrderedChildReceipts(children, completed);
    var items: seq<Relocation> := [];
    for i := 0 to |children|
      invariant |items| == i
      invariant store.Contents() == old(store.Contents()) && store.Valid()
      invariant forall k | 0 <= k < i :: SourceOf(children[k], joined[k]).Some? &&
                                         items[k] == RelocationOf(children[k], SourceOf(children[k], joined[k]).value)
    {
      var source := SourceOf(children[i], joined[i]);
      if source.None? {
        return ChildRecordMissing;
      }
      items := items + [RelocationOf(children[i], source.value)];
    }
    assert items == Relocations(children, joined);
    var published := store.CompareAndRewritePaths(items);
    outcome := if published then Committed else RecordsChanged;
  }

  function Relocations(children: seq<Child>, joined: seq<Option<Receipt>>): (items: seq<Relocation>)
    requires |joined| == |children|
    requires forall i | 0 <= i < |children| :: SourceOf(children[i], joined[i]).Some?
    ensures MovesPathOnly(items)
  {
    seq(|children|, i requires 0 <= i < |children| => RelocationOf(children[i], SourceOf(children[i], joined[i]).value))
  }

  ghost predicate Nested(outer: string, inner: string) {
    outer + "/" <= inner
  }

  /** Two roots share a path below them only when they are equal or nested. */
  lemma SharedPathNests(a: string, b: string, s: string, t: string)
    requires a + "/" + s == b + "/" + t
    ensures a == b || Nested(a, b) || Nested(b, a)
  {
    var x := a + "/" + s;
    assert a == x[..|a|] && b == x[..|b|];
    if |a| < |b| {
      assert a + "/" == x[..|a| + 1] == b[..|a| + 1];
    } else if |b| < |a| {
      assert b + "/" == x[..|b| + 1] == a[..|b| + 1];
    }
  }

  lemma SuffixInjective(root: string, s: string, t: string)
    requires root + "/" + s == root + "/" + t
    ensures s == t
  {
    assert s == (root + "/" + s)[|root| + 1..];
    assert t == (root + "/" + t)[|root| + 1..];
  }

  /** A row bound under the folder stands at its suffix below the old or the new root. */
  ghost predicate BoundUnder(oldPath: string, newPath: string, b: Binding, source: SyncRecord) {
    source.path == oldPath + "/" + b.suffix || source.path == newPath + "/" + b.suffix
  }

  /** A folder whose roots are not nested never builds a mapping the store refuses by shape alone. */
  lemma FolderMappingIsAdmissible(oldPath: string, newPath: string, bindings: seq<Binding>,
                                  records: map<string, SyncRecord>, joined: seq<Option<Receipt>>)
    requires oldPath != newPath && !Nested(oldPath, newPath) && !Nested(newPath, oldPath)
    requires forall i, j | 0 <= i < j < |bindings| :: bindings[i].suffix != bindings[j].suffix
    requires |joined| == |ChildrenOf(bindings, newPath, records)|
    requires forall i | 0 <= i < |joined| ::
               var source := SourceOf(ChildrenOf(bindings, newPath, records)[i], joined[i]);
               source.Some? && BoundUnder(oldPath, newPath, RetainedBindings(bindings)[i], source.value)
    ensures AdmissibleShape(Relocations(ChildrenOf(bindings, newPath, records), joined))
  {
    var kept, children := RetainedBindings(bindings), ChildrenOf(bindings, newPath, records);
    var items := Relocations(children, joined);
    RetainedDistinct(bindings);
    forall i, j | 0 <= i < |items| && 0 <= j < |items|
      ensures i != j ==>
              items[i].source.path != items[j].source.path && items[i].terminal.path != items[j].terminal.path
      ensures items[i].source.path != items[i].terminal.path ==> items[i].terminal.path != items[j].source.path
    {
      assert items[i] == RelocationOf(children[i], SourceOf(children[i], joined[i]).value);
      assert items[j] == RelocationOf(children[j], SourceOf(children[j], joined[j]).value);
      assert i < j ==> kept[i].suffix != kept[j].suffix;
      assert j < i ==> kept[j].suffix != kept[i].suffix;
      var s, t := kept[i].suffix, kept[j].suffix;
      if oldPath + "/" + s == newPath + "/" + t { SharedPathNests(oldPath, newPath, s, t); }
      if oldPath + "/" + t == newPath + "/" + s { SharedPathNests(oldPath, newPath, t, s); }
      if i != j {
        if oldPath + "/" + s == oldPath + "/" + t { SuffixInjective(oldPath, s, t); }
        if newPath + "/" + s == newPath + "/" + t { SuffixInjective(newPath, s, t); }
      }
    }
  }

  lemma {:induction false} RetainedDistinct(bindings: seq<Binding>)
    requires forall i, j | 0 <= i < j < |bindings| :: bindings[i].suffix != bindings[j].suffix
    ensures forall i | 0 <= i < |RetainedBindings(bindings)| :: RetainedBindings(bindings)[i] in bindings
    ensures forall i, j | 0 <= i < j < |RetainedBindings(bindings)| ::
              RetainedBindings(bindings)[i].suffix != RetainedBindings(bindings)[j].suffix
  {
    if bindings != [] {
      RetainedDistinct(bindings[1..]);
      var tail := RetainedBindings(bindings[1..]);
      forall i | 0 <= i < |tail| ensures tail[i] in bindings && tail[i].suffix != bindings[0].suffix {
        assert tail[i] in bindings[1..];
        var k :| 0 <= k < |bindings[1..]| && bindings[1..][k] == tail[i];
        assert bindings[k + 1] == tail[i];
      }
    }
  }

  // ---------------------------------------------------------------- a bound folder commits

  ghost predicate Unnested(oldPath: string, newPath: string) {
    oldPath != newPath && !Nested(oldPath, newPath) && !Nested(newPath, oldPath)
  }

  ghost predicate SuffixesApart(bindings: seq<Binding>) {
    forall i, j | 0 <= i < j < |bindings| :: bindings[i].suffix != bindings[j].suffix
  }

  /** The row a suffix is bound to: the one below the old root, else the one below the new root. */
  function BaselineAt(records: map<string, SyncRecord>, from: string, to: string): Option<SyncRecord> {
    if from in records then Some(records[from]) else if to in records then Some(records[to]) else None
  }

  /** A suffix as it is bound: its baseline, an address below one of the roots, and an action, if any, that publishes
      there and continues the baseline. Without an action there is a row to move. */
  ghost predicate Bound(oldPath: string, newPath: string, records: map<string, SyncRecord>, b: Binding) {
    var from, to := oldPath + "/" + b.suffix, newPath + "/" + b.suffix;
    && b.baseline == BaselineAt(records, from, to) && (b.path == from || b.path == to)
    && (b.action.None? ==> b.baseline.Some?)
    && (b.action.Some? ==> b.action.value.continued == b.baseline)
    && (b.action.Some? && !b.action.value.removal ==> b.action.value.path == b.path)
  }

  /** The rows by path are what the store holds. */
  ghost predicate StoredAs(records: map<string, SyncRecord>, rows: map<string, SyncRecord>) {
    && KeyedByIdentity(rows)
    && (forall p | p in records ::
        records[p].path == p && RowAt(rows, records[p].remoteIdentityKey) == Some(records[p]))
    && (forall id | id in rows :: rows[id].path in records && records[rows[id].path] == rows[id])
  }

  /** The action of the binding published this row. */
  ghost predicate PublishedBy(b: Binding, fate: ActionId -> Fate, row: SyncRecord) {
    b.action.Some? && !b.action.value.removal && fate(b.action.value.id) == Succeeds(Some(row))
  }

  ghost predicate Continues(b: Binding, row: SyncRecord) {
    b.action.Some? && b.action.value.continued == Some(row)
  }

  /** What the children's actions left of the store the folder was decided on: each terminal row stands where its action
      published it; a row that no action continues, with no terminal at its path, stands as before; and there are no
      others. */
  ghost predicate AfterActions(bindings: seq<Binding>, fate: ActionId -> Fate, before: map<string, SyncRecord>,
                               rows: map<string, SyncRecord>) {
    && (forall b | b in bindings && b.action.Some? && !b.action.value.removal ::
          exists row :: PublishedBy(b, fate, row) && row.path == b.action.value.path &&
                        RowAt(rows, row.remoteIdentityKey) == Some(row))
    && (forall id | id in before && (forall b | b in bindings :: !Continues(b, before[id])) &&
          (forall b, row | b in bindings && PublishedBy(b, fate, row) :: row.path != before[id].path) ::
          RowAt(rows, id) == Some(before[id]))
    && (forall id | id in rows ::
          || (RowAt(before, id) == Some(rows[id]) && forall b | b in bindings :: !Continues(b, rows[id]))
          || (exists b :: b in bindings && PublishedBy(b, fate, rows[id])))
  }

  /** The row of a child when the folder commits. */
  function StandingRow(b: Binding, fate: ActionId -> Fate): Option<SyncRecord> {
    if b.action.None? then b.baseline
    else if fate(b.action.value.id).Succeeds? then fate(b.action.value.id).record
    else None
  }

  /** Paths below roots that are not nested differ for different suffixes, and for one suffix below different roots. */
  lemma PathsApart(oldPath: string, newPath: string, s: string, t: string)
    requires Unnested(oldPath, newPath)
    ensures oldPath + "/" + s != newPath + "/" + t
    ensures s != t ==> oldPath + "/" + s != oldPath + "/" + t && newPath + "/" + s != newPath + "/" + t
  {
    if oldPath + "/" + s == newPath + "/" + t {
      SharedPathNests(oldPath, newPath, s, t);
    }
    if oldPath + "/" + s == oldPath + "/" + t {
      SuffixInjective(oldPath, s, t);
    }
    if newPath + "/" + s == newPath + "/" + t {
      SuffixInjective(newPath, s, t);
    }
  }

  lemma SuffixDecides(bindings: seq<Binding>, b: Binding, c: Binding)
    requires SuffixesApart(bindings) && b in bindings && c in bindings && b.suffix == c.suffix
    ensures b == c
  {
    var i :| 0 <= i < |bindings| && bindings[i] == b;
    var j :| 0 <= j < |bindings| && bindings[j] == c;
    assert i == j;
  }

  /** What a binding's action reads or publishes is at an address of its own suffix. */
  lemma OwnAddress(oldPath: string, newPath: string, bindings: seq<Binding>, records: map<string, SyncRecord>,
                   fate: ActionId -> Fate, before: map<string, SyncRecord>, rows: map<string, SyncRecord>, c: Binding,
                   row: SyncRecord)
    requires StoredAs(records, before) && AfterActions(bindings, fate, before, rows)
    requires c in bindings && Bound(oldPath, newPath, records, c)
    requires Continues(c, row) || PublishedBy(c, fate, row)
    ensures row.path == oldPath + "/" + c.suffix || row.path == newPath + "/" + c.suffix
  {
  }

  /** What one binding's action reads or publishes is at no address of another suffix. */
  lemma ElsewhereBound(oldPath: string, newPath: string, bindings: seq<Binding>, records: map<string, SyncRecord>,
                       fate: ActionId -> Fate, before: map<string, SyncRecord>, rows: map<string, SyncRecord>,
                       b: Binding, c: Binding, row: SyncRecord)
    requires Unnested(oldPath, newPath) && SuffixesApart(bindings) && StoredAs(records, before)
    requires AfterActions(bindings, fate, before, rows)
    requires b in bindings && c in bindings && b != c && Bound(oldPath, newPath, records, c)
    requires Continues(c, row) || PublishedBy(c, fate, row)
    ensures row.path != oldPath + "/" + b.suffix && row.path != newPath + "/" + b.suffix
  {
    OwnAddress(oldPath, newPath, bindings, records, fate, before, rows, c, row);
    if b.suffix == c.suffix {
      SuffixDecides(bindings, b, c);
    }
    PathsApart(oldPath, newPath, b.suffix, c.suffix);
    PathsApart(oldPath, newPath, c.suffix, b.suffix);
  }

  /** No other binding's action reads or publishes at this one's addresses. */
  lemma OthersElsewhere(oldPath: string, newPath: string, bindings: seq<Binding>, records: map<string, SyncRecord>,
                        fate: ActionId -> Fate, before: map<string, SyncRecord>, rows: map<string, SyncRecord>,
                        b: Binding)
    requires Unnested(oldPath, newPath) && SuffixesApart(bindings) && StoredAs(records, before)
    requires AfterActions(bindings, fate, before, rows)
    requires b in bindings && forall c | c in bindings :: Bound(oldPath, newPath, records, c)
    ensures forall c, r | c in bindings && c != b && Continues(c, r) ::
              r.path != oldPath + "/" + b.suffix && r.path != newPath + "/" + b.suffix
    ensures forall c, r | c in bindings && c != b && PublishedBy(c, fate, r) ::
              r.path != oldPath + "/" + b.suffix && r.path != newPath + "/" + b.suffix
  {
    forall c, r | c in bindings && c != b && (Continues(c, r) || PublishedBy(c, fate, r))
      ensures r.path != oldPath + "/" + b.suffix && r.path != newPath + "/" + b.suffix
    {
      ElsewhereBound(oldPath, newPath, bindings, records, fate, before, rows, b, c, r);
    }
  }

  /** A row at an address where no action publishes, and which none continues, still holds it. */
  lemma StillHeld(bindings: seq<Binding>, records: map<string, SyncRecord>, fate: ActionId -> Fate,
                  before: map<string, SyncRecord>, rows: map<string, SyncRecord>, target: string)
    requires StoredAs(records, before) && AfterActions(bindings, fate, before, rows) && target in records
    requires forall b | b in bindings :: !Continues(b, records[target])
    requires forall b, r | b in bindings && PublishedBy(b, fate, r) :: r.path != target
    ensures Occupies(rows, target, Some(records[target]))
  {
    assert before[records[target].remoteIdentityKey] == records[target];
  }

  /** The child's row stands, below the old or the new root. */
  lemma RowStands(oldPath: string, newPath: string, bindings: seq<Binding>, records: map<string, SyncRecord>,
                  fate: ActionId -> Fate, before: map<string, SyncRecord>, rows: map<string, SyncRecord>, b: Binding)
    requires Unnested(oldPath, newPath) && SuffixesApart(bindings) && StoredAs(records, before)
    requires AfterActions(bindings, fate, before, rows)
    requires forall c | c in bindings :: Bound(oldPath, newPath, records, c)
    requires b in bindings && Retained(b)
    ensures var row := StandingRow(b, fate);
            && row.Some? && BoundUnder(oldPath, newPath, b, row.value)
            && RowAt(rows, row.value.remoteIdentityKey) == row
            && (b.action.Some? ==> row.value.path == b.path)
  {
    if b.action.None? {
      OthersElsewhere(oldPath, newPath, bindings, records, fate, before, rows, b);
      StillHeld(bindings, records, fate, before, rows, b.baseline.value.path);
    }
  }

  /** An address at which no action publishes, and whose row, if there was one, an action continues, is free. */
  lemma NowVacant(bindings: seq<Binding>, records: map<string, SyncRecord>, fate: ActionId -> Fate,
                  before: map<string, SyncRecord>, rows: map<string, SyncRecord>, target: string)
    requires StoredAs(records, before) && AfterActions(bindings, fate, before, rows)
    requires target in records ==> exists b :: b in bindings && Continues(b, records[target])
    requires forall b, r | b in bindings && PublishedBy(b, fate, r) :: r.path != target
    ensures Occupies(rows, target, None)
  {
    forall id | id in rows
      ensures rows[id].path != target
    {
      assert RowAt(before, id) == Some(rows[id]) ==> records[rows[id].path] == rows[id];
    }
  }

  /** What stands at a child's new address is what the decision expects there. */
  lemma TargetExpected(oldPath: string, newPath: string, bindings: seq<Binding>, records: map<string, SyncRecord>,
                       fate: ActionId -> Fate, before: map<string, SyncRecord>, rows: map<string, SyncRecord>,
                       b: Binding)
    requires Unnested(oldPath, newPath) && SuffixesApart(bindings) && StoredAs(records, before)
    requires AfterActions(bindings, fate, before, rows)
    requires b in bindings && forall c | c in bindings :: Bound(oldPath, newPath, records, c)
    requires Retained(b) && StandingRow(b, fate).Some?
    requires StandingRow(b, fate).value.path == oldPath + "/" + b.suffix
    requires b.action.Some? ==> StandingRow(b, fate).value.path == b.path
    ensures Occupies(rows, newPath + "/" + b.suffix, ChildOf(b, newPath, records).destination)
  {
    var target := newPath + "/" + b.suffix;
    PathsApart(oldPath, newPath, b.suffix, b.suffix);
    OthersElsewhere(oldPath, newPath, bindings, records, fate, before, rows, b);
    assert forall r | PublishedBy(b, fate, r) :: r.path != target;
    if target in records && !Continues(b, records[target]) {
      StillHeld(bindings, records, fate, before, rows, target);
    } else {
      NowVacant(bindings, records, fate, before, rows, target);
    }
  }

  /** The receipt a child finds carries the row its action published. */
  lemma ReceiptCarriesRow(bindings: seq<Binding>, newPath: string, records: map<string, SyncRecord>,
                          fate: ActionId -> Fate, earlier: seq<Receipt>, i: nat)
    requires forall r | r in earlier :: r.action !in ActionsOf(bindings)
    requires ChildrenPublish(bindings, fate) && i < |RetainedBindings(bindings)|
    ensures var children := ChildrenOf(bindings, newPath, records);
            var joined := Join(children, earlier + ReceiptsOf(ActionsOf(bindings), fate), 0);
            SourceOf(children[i], joined[i]) == StandingRow(RetainedBindings(bindings)[i], fate)
  {
    var b, children := RetainedBindings(bindings)[i], ChildrenOf(bindings, newPath, records);
    var receipts := ReceiptsOf(ActionsOf(bindings), fate);
    var completed := earlier + receipts;
    KeptAreRetained(bindings);
    ParentFindsEveryChild(bindings, newPath, records, fate, earlier);
    JoinedAreCompleted(children, completed, 0);
    ReceiptsAre(ActionsOf(bindings), fate);
    if b.action.Some? {
      ActionIsListed(bindings, b);
      var joined := Join(children, completed, 0)[i];
      assert children[i].after == Some(b.action.value.id);
      assert joined.value in receipts;
    }
  }

  lemma {:induction false} KeptAreRetained(bindings: seq<Binding>)
    ensures forall b :: b in RetainedBindings(bindings) <==> b in bindings && Retained(b)
  {
    if bindings != [] {
      KeptAreRetained(bindings[1..]);
      assert forall b :: b in bindings <==> b == bindings[0] || b in bindings[1..];
    }
  }

  /** A folder bound on the stored rows, whose children's actions have all published, passes the store's comparison. */
  lemma FolderCommits(oldPath: string, newPath: string, bindings: seq<Binding>, records: map<string, SyncRecord>,
                      fate: ActionId -> Fate, before: map<string, SyncRecord>, rows: map<string, SyncRecord>,
                      earlier: seq<Receipt>)
    requires Unnested(oldPath, newPath) && SuffixesApart(bindings) && StoredAs(records, before)
    requires AfterActions(bindings, fate, before, rows)
    requires forall b | b in bindings :: Bound(oldPath, newPath, records, b)
    requires forall r | r in earlier :: r.action !in ActionsOf(bindings)
    ensures var children := ChildrenOf(bindings, newPath, records);
            var joined := Join(children, earlier + ReceiptsOf(ActionsOf(bindings), fate), 0);
            && (forall i | 0 <= i < |children| :: SourceOf(children[i], joined[i]).Some?)
            && RewriteMatches(rows, Relocations(children, joined))
  {
    var kept, children := RetainedBindings(bindings), ChildrenOf(bindings, newPath, records);
    var joined := Join(children, earlier + ReceiptsOf(ActionsOf(bindings), fate), 0);
    KeptAreRetained(bindings);
    forall i | 0 <= i < |children|
      ensures SourceOf(children[i], joined[i]) == StandingRow(kept[i], fate)
      ensures ItemMatches(oldPath, newPath, rows, kept[i], children[i], StandingRow(kept[i], fate))
    {
      ReceiptCarriesRow(bindings, newPath, records, fate, earlier, i);
      RowStands(oldPath, newPath, bindings, records, fate, before, rows, kept[i]);
      if StandingRow(kept[i], fate).value.path != newPath + "/" + kept[i].suffix {
        TargetExpected(oldPath, newPath, bindings, records, fate, before, rows, kept[i]);
      }
    }
    FolderMappingIsAdmissible(oldPath, newPath, bindings, records, joined);
    var items := Relocations(children, joined);
    forall i | 0 <= i < |items|
      ensures RowAt(rows, items[i].source.remoteIdentityKey) == Some(items[i].source)
      ensures Occupies(rows, items[i].terminal.path, items[i].destination)
    {
      assert ItemMatches(oldPath, newPath, rows, kept[i], children[i], StandingRow(kept[i], fate));
    }
  }

  /** One child's relocation finds its row and its destination as captured. */
  ghost predicate ItemMatches(oldPath: string, newPath: string, rows: map<string, SyncRecord>, b: Binding, child: Child,
                              row: Option<SyncRecord>) {
    && row.Some? && BoundUnder(oldPath, newPath, b, row.value) && child.newPath == newPath + "/" + b.suffix
    && RowAt(rows, row.value.remoteIdentityKey) == row
    && Occupies(rows, child.newPath, RelocationOf(child, row.value).destination)
  }

  /** What a committed folder has done: every child's row, its baseline or what its action published, stands at the same
      suffix below the new root, under its object; whatever else stood there is gone; every other row is as it was. */
  lemma FolderMoves(oldPath: string, newPath: string, bindings: seq<Binding>, records: map<string, SyncRecord>,
                    fate: ActionId -> Fate, before: map<string, SyncRecord>, image: Image, earlier: seq<Receipt>,
                    after: Image)
    requires Unnested(oldPath, newPath) && SuffixesApart(bindings) && StoredAs(records, before)
    requires KeyedByIdentity(image.rows) && UniquePaths(image.rows) && AfterActions(bindings, fate, before, image.rows)
    requires forall b | b in bindings :: Bound(oldPath, newPath, records, b)
    requires forall r | r in earlier :: r.action !in ActionsOf(bindings)
    requires var children := ChildrenOf(bindings, newPath, records);
             var joined := Join(children, earlier + ReceiptsOf(ActionsOf(bindings), fate), 0);
             && (forall i | 0 <= i < |children| :: SourceOf(children[i], joined[i]).Some?)
             && IsRelocated(image, Relocations(children, joined), after)
    ensures forall b | b in bindings && Retained(b) :: Moved(newPath, b, StandingRow(b, fate), after.rows)
    ensures forall id | id in image.rows && (forall b | b in bindings && Retained(b) :: !RowIs(b, fate, id)) ::
              RowAt(after.rows, id) == if Claimed(newPath, bindings, image.rows[id].path) then None
                                       else Some(image.rows[id])
  {
    var children := ChildrenOf(bindings, newPath, records);
    var joined := Join(children, earlier + ReceiptsOf(ActionsOf(bindings), fate), 0);
    var items := Relocations(children, joined);
    FolderCommits(oldPath, newPath, bindings, records, fate, before, image.rows, earlier);
    ItemsAre(bindings, newPath, records, fate, earlier);
    forall b | b in bindings && Retained(b)
      ensures Moved(newPath, b, StandingRow(b, fate), after.rows)
    {
      ChildMoved(bindings, newPath, fate, items, image, after, b);
    }
    forall id | id in image.rows && (forall b | b in bindings && Retained(b) :: !RowIs(b, fate, id))
      ensures RowAt(after.rows, id) == if Claimed(newPath, bindings, image.rows[id].path) then None
                                       else Some(image.rows[id])
    {
      OtherRow(bindings, newPath, image.rows, items, fate, id);
    }
  }

  /** The path is some child's new address. */
  ghost predicate Claimed(newPath: string, bindings: seq<Binding>, path: string) {
    exists b :: b in bindings && Retained(b) && path == newPath + "/" + b.suffix
  }

  /** The items are the children's standing rows, each on its way below the new root. */
  ghost predicate ItemsOf(bindings: seq<Binding>, newPath: string, fate: ActionId -> Fate, items: seq<Relocation>) {
    var kept := RetainedBindings(bindings);
    && |items| == |kept|
    && forall i | 0 <= i < |items| ::
         && Some(items[i].source) == StandingRow(kept[i], fate)
         && items[i].terminal == items[i].source.(path := newPath + "/" + kept[i].suffix)
  }

  lemma ItemsAre(bindings: seq<Binding>, newPath: string, records: map<string, SyncRecord>, fate: ActionId -> Fate,
                 earlier: seq<Receipt>)
    requires forall r | r in earlier :: r.action !in ActionsOf(bindings)
    requires ChildrenPublish(bindings, fate)
    requires var children := ChildrenOf(bindings, newPath, records);
             var joined := Join(children, earlier + ReceiptsOf(ActionsOf(bindings), fate), 0);
             forall i | 0 <= i < |children| :: SourceOf(children[i], joined[i]).Some?
    ensures var children := ChildrenOf(bindings, newPath, records);
            var joined := Join(children, earlier + ReceiptsOf(ActionsOf(bindings), fate), 0);
            ItemsOf(bindings, newPath, fate, Relocations(children, joined))
  {
    forall i | 0 <= i < |RetainedBindings(bindings)|
      ensures var children := ChildrenOf(bindings, newPath, records);
              var joined := Join(children, earlier + ReceiptsOf(ActionsOf(bindings), fate), 0);
              SourceOf(children[i], joined[i]) == StandingRow(RetainedBindings(bindings)[i], fate)
    {
      ReceiptCarriesRow(bindings, newPath, records, fate, earlier, i);
    }
  }

  lemma ChildMoved(bindings: seq<Binding>, newPath: string, fate: ActionId -> Fate, items: seq<Relocation>,
                   image: Image, after: Image, b: Binding)
    requires ItemsOf(bindings, newPath, fate, items) && IsRelocated(image, items, after)
    requires b in bindings && Retained(b)
    ensures Moved(newPath, b, StandingRow(b, fate), after.rows)
  {
    var kept := RetainedBindings(bindings);
    KeptAreRetained(bindings);
    var i :| 0 <= i < |kept| && kept[i] == b;
    assert RowAt(after.rows, items[i].source.remoteIdentityKey) == Some(items[i].terminal);
  }

  ghost predicate RowIs(b: Binding, fate: ActionId -> Fate, id: string) {
    StandingRow(b, fate).Some? && StandingRow(b, fate).value.remoteIdentityKey == id
  }

  ghost predicate Moved(newPath: string, b: Binding, row: Option<SyncRecord>, rows: map<string, SyncRecord>) {
    row.Some? && RowAt(rows, row.value.remoteIdentityKey) == Some(row.value.(path := newPath + "/" + b.suffix))
  }

  /** A row that is no child's is displaced exactly when it stands at a child's new address. */
  lemma OtherRow(bindings: seq<Binding>, newPath: string, rows: map<string, SyncRecord>, items: seq<Relocation>,
                 fate: ActionId -> Fate, id: string)
    requires KeyedByIdentity(rows) && UniquePaths(rows) && RewriteMatches(rows, items)
    requires ItemsOf(bindings, newPath, fate, items) && id in rows
    requires forall b | b in bindings && Retained(b) :: !RowIs(b, fate, id)
    ensures id !in Movers(items)
    ensures id in Displaced(items) <==> Claimed(newPath, bindings, rows[id].path)
  {
    var kept := RetainedBindings(bindings);
    KeptAreRetained(bindings);
    forall i | 0 <= i < |items|
      ensures items[i].source.remoteIdentityKey != id
      ensures rows[id].path == newPath + "/" + kept[i].suffix ==> items[i].destination == Some(rows[id])
      ensures items[i].destination.Some? && items[i].destination.value.remoteIdentityKey == id ==>
                rows[id].path == newPath + "/" + kept[i].suffix
    {
      assert !RowIs(kept[i], fate, id);
      assert Occupies(rows, items[i].terminal.path, items[i].destination);
    }
    if Claimed(newPath, bindings, rows[id].path) {
      var b :| b in bindings && Retained(b) && rows[id].path == newPath + "/" + b.suffix;
      var i :| 0 <= i < |kept| && kept[i] == b;
      assert items[i].destination == Some(rows[id]);
    }
  }
}
