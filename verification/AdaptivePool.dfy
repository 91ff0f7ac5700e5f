/** The transfer pool with a count limit and a byte budget: class AdaptivePool of src/backend-api/async-queue.ts.
    Each operation is one stretch of code between two awaits. */
module AdaptivePools {
  import opened Wrappers

  datatype Config = Config(min: nat, max: nat, rampAfter: nat, byteBudget: Option<nat>)

  predicate ValidConfig(c: Config) {
    1 <= c.min <= c.max && 1 <= c.rampAfter
  }

  /** One call of `run`, numbered in call order. */
  datatype Task = Task(id: nat, size: nat)

  /** The fields of the pool, then the tasks in flight and the history of arrivals and admissions. */
  datatype State = State(
    running: int,
    inFlightBytes: int,
    waiting: seq<Task>,
    limit: nat,
    successStreak: nat,
    active: seq<Task>,
    arrived: seq<Task>,
    admitted: seq<Task>)

  function Total(tasks: seq<Task>): nat {
    if tasks == [] then 0 else Total(tasks[..|tasks| - 1]) + tasks[|tasks| - 1].size
  }

  function Clamp(c: Config, start: int): nat
    requires ValidConfig(c)
  {
    if start < c.min then c.min else if start > c.max then c.max else start
  }

  function Initial(c: Config, start: int): State
    requires ValidConfig(c)
  {
    State(0, 0, [], Clamp(c, start), 0, [], [], [])
  }

  // ---------------------------------------------------------------- the operations

  /** The count first, then the byte budget; an empty pool always takes one task. */
  predicate CanAdmit(c: Config, s: State, size: nat) {
    && s.running < s.limit
    && (c.byteBudget.None? || s.running == 0 || s.inFlightBytes + size <= c.byteBudget.value)
  }

  function Admit(s: State, task: Task): State {
    s.(running := s.running + 1, inFlightBytes := s.inFlightBytes + task.size,
       active := s.active + [task], admitted := s.admitted + [task])
  }

  /** Admit waiters front to back while there is room. */
  function Drain(c: Config, s: State): State
    decreases |s.waiting|
  {
    if s.waiting != [] && CanAdmit(c, s, s.waiting[0].size)
    then Drain(c, Admit(s.(waiting := s.waiting[1..]), s.waiting[0]))
    else s
  }

  function Run(c: Config, s: State, size: nat): State {
    var task := Task(|s.arrived|, size);
    var asked := s.(arrived := s.arrived + [task]);
    if s.waiting == [] && CanAdmit(c, s, size) then Admit(asked, task)
    else asked.(waiting := s.waiting + [task])
  }

  /** The success accounting of a resolved run, while it still counts as running. */
  function Ramp(c: Config, s: State): State {
    var streak := s.successStreak + 1;
    if streak >= c.rampAfter && s.limit < c.max
    then Drain(c, s.(limit := s.limit + 1, successStreak := 0))
    else s.(successStreak := streak)
  }

  function Without(tasks: seq<Task>, k: nat): seq<Task>
    requires k < |tasks|
  {
    tasks[..k] + tasks[k + 1..]
  }

  /** The task at `k` of the tasks in flight gives its slot and bytes back. */
  function Leave(c: Config, s: State, k: nat): State
    requires k < |s.active|
  {
    Drain(c, s.(running := s.running - 1, inFlightBytes := s.inFlightBytes - s.active[k].size,
                active := Without(s.active, k)))
  }

  lemma {:induction false} DrainKeepsActive(c: Config, s: State)
    ensures s.active <= Drain(c, s).active && s.arrived == Drain(c, s).arrived
    ensures s.limit == Drain(c, s).limit && s.successStreak == Drain(c, s).successStreak
    ensures |Drain(c, s).active| + |Drain(c, s).waiting| == |s.active| + |s.waiting|
    decreases |s.waiting|
  {
    if s.waiting != [] && CanAdmit(c, s, s.waiting[0].size) {
      DrainKeepsActive(c, Admit(s.(waiting := s.waiting[1..]), s.waiting[0]));
    }
  }

  function Finish(c: Config, s: State, k: nat, ok: bool): State {
    if k >= |s.active| then s
    else if ok then
      DrainKeepsActive(c, s.(limit := s.limit + 1, successStreak := 0));
      Leave(c, Ramp(c, s), k)
    else Leave(c, s.(successStreak := 0), k)
  }

  /** A rate-limit hit halves the limit once for each episode. */
  function NoteRateLimit(c: Config, s: State): State {
    if s.running > s.limit then s
    else s.(limit := if s.limit / 2 < c.min then c.min else s.limit / 2, successStreak := 0)
  }

  datatype Event = Runs(size: nat) | Finishes(k: nat, ok: bool) | RateLimited

  function Apply(c: Config, s: State, e: Event): State {
    match e
    case Runs(size) => Run(c, s, size)
    case Finishes(k, ok) => Finish(c, s, k, ok)
    case RateLimited => NoteRateLimit(c, s)
  }

  function ApplyAll(c: Config, s: State, events: seq<Event>): State {
    if events == [] then s else Apply(c, ApplyAll(c, s, events[..|events| - 1]), events[|events| - 1])
  }

  // ---------------------------------------------------------------- the invariant

  /** The counters describe the tasks in flight, and both bounds hold. */
  ghost predicate Bounded(c: Config, s: State) {
    && s.running == |s.active| && s.inFlightBytes == Total(s.active)
    && s.running <= c.max && c.min <= s.limit <= c.max
    && (s.running <= 1 || c.byteBudget.None? || s.inFlightBytes <= c.byteBudget.value)
  }

  /** Tasks start in the order they came. */
  ghost predicate InOrder(s: State) {
    s.arrived == s.admitted + s.waiting
  }

  /** Whoever is first in line does not fit; so nobody waits on an empty pool. */
  ghost predicate HeadBlocked(c: Config, s: State) {
    s.waiting != [] ==> !CanAdmit(c, s, s.waiting[0].size) && s.running > 0
  }

  ghost predicate Inv(c: Config, s: State) {
    ValidConfig(c) && Bounded(c, s) && InOrder(s) && HeadBlocked(c, s)
  }

  lemma TotalSnoc(tasks: seq<Task>, task: Task)
    ensures Total(tasks + [task]) == Total(tasks) + task.size
  {
  }

  lemma {:induction false} TotalWithout(tasks: seq<Task>, k: nat)
    requires k < |tasks|
    ensures Total(Without(tasks, k)) + tasks[k].size == Total(tasks)
  {
    var n := |tasks| - 1;
    if k == n {
      assert Without(tasks, k) == tasks[..n];
    } else {
      TotalWithout(tasks[..n], k);
      assert Without(tasks, k) == Without(tasks[..n], k) + [tasks[n]];
      TotalSnoc(Without(tasks[..n], k), tasks[n]);
    }
  }

  lemma AdmitKeeps(c: Config, s: State, task: Task)
    requires ValidConfig(c) && Bounded(c, s) && CanAdmit(c, s, task.size)
    ensures Bounded(c, Admit(s, task))
  {
  }

  lemma {:induction false} DrainKeeps(c: Config, s: State)
    requires ValidConfig(c) && Bounded(c, s) && InOrder(s)
    ensures Inv(c, Drain(c, s))
    decreases |s.waiting|
  {
    if s.waiting != [] && CanAdmit(c, s, s.waiting[0].size) {
      var t := s.(waiting := s.waiting[1..]);
      AdmitKeeps(c, t, s.waiting[0]);
      assert (s.admitted + [s.waiting[0]]) + s.waiting[1..] == s.admitted + s.waiting;
      DrainKeeps(c, Admit(t, s.waiting[0]));
    }
  }

  lemma RunKeeps(c: Config, s: State, size: nat)
    requires Inv(c, s)
    ensures Inv(c, Run(c, s, size))
  {
    var task := Task(|s.arrived|, size);
    if s.waiting == [] && CanAdmit(c, s, size) {
      AdmitKeeps(c, s.(arrived := s.arrived + [task]), task);
    } else {
      assert s.arrived + [task] == s.admitted + (s.waiting + [task]);
    }
  }

  lemma LeaveKeeps(c: Config, s: State, k: nat)
    requires Inv(c, s) && k < |s.active|
    ensures Inv(c, Leave(c, s, k))
  {
    TotalWithout(s.active, k);
    DrainKeeps(c, s.(running := s.running - 1, inFlightBytes := s.inFlightBytes - s.active[k].size,
                     active := Without(s.active, k)));
  }

  lemma FinishKeeps(c: Config, s: State, k: nat, ok: bool)
    requires Inv(c, s)
    ensures Inv(c, Finish(c, s, k, ok))
  {
    if k < |s.active| {
      if ok {
        DrainKeepsActive(c, s.(limit := s.limit + 1, successStreak := 0));
        if s.limit < c.max {
          DrainKeeps(c, s.(limit := s.limit + 1, successStreak := 0));
        }
        LeaveKeeps(c, Ramp(c, s), k);
      } else {
        LeaveKeeps(c, s.(successStreak := 0), k);
      }
    }
  }

  lemma ApplyKeeps(c: Config, s: State, e: Event)
    requires Inv(c, s)
    ensures Inv(c, Apply(c, s, e))
  {
    match e
    case Runs(size) => RunKeeps(c, s, size);
    case Finishes(k, ok) => FinishKeeps(c, s, k, ok);
    case RateLimited =>
  }

  /** Every run of the pool. */
  lemma {:induction false} PoolKeeps(c: Config, start: int, events: seq<Event>)
    requires ValidConfig(c)
    ensures Inv(c, ApplyAll(c, Initial(c, start), events))
  {
    if events != [] {
      PoolKeeps(c, start, events[..|events| - 1]);
      ApplyKeeps(c, ApplyAll(c, Initial(c, start), events[..|events| - 1]), events[|events| - 1]);
    }
  }

  // ---------------------------------------------------------------- consequences

  /** The tasks in flight are tasks that arrived and started, and no task starts twice. */
  lemma StartsOnce(c: Config, s: State, e: Event)
    requires Inv(c, s)
    ensures s.admitted <= Apply(c, s, e).admitted <= Apply(c, s, e).arrived
  {
    ApplyKeeps(c, s, e);
    AdmittedGrows(c, s, e);
  }

  lemma {:induction false} DrainAdmits(c: Config, s: State)
    ensures s.admitted <= Drain(c, s).admitted
    decreases |s.waiting|
  {
    if s.waiting != [] && CanAdmit(c, s, s.waiting[0].size) {
      DrainAdmits(c, Admit(s.(waiting := s.waiting[1..]), s.waiting[0]));
    }
  }

  lemma AdmittedGrows(c: Config, s: State, e: Event)
    ensures s.admitted <= Apply(c, s, e).admitted
  {
    if e.Finishes? && e.k < |s.active| {
      var ramped := if e.ok then Ramp(c, s) else s.(successStreak := 0);
      DrainKeepsActive(c, s.(limit := s.limit + 1, successStreak := 0));
      DrainAdmits(c, s.(limit := s.limit + 1, successStreak := 0));
      DrainAdmits(c, ramped.(running := ramped.running - 1,
                             inFlightBytes := ramped.inFlightBytes - ramped.active[e.k].size,
                             active := Without(ramped.active, e.k)));
    }
  }

  /** Every finished task brings the queue nearer its end: with no arrivals everyone runs and ends. */
  lemma FinishProgress(c: Config, s: State, k: nat, ok: bool)
    requires Inv(c, s) && k < |s.active|
    ensures var t := Finish(c, s, k, ok); |t.active| + |t.waiting| == |s.active| + |s.waiting| - 1
    ensures s.waiting != [] ==> s.active != []
  {
    DrainKeepsActive(c, s.(limit := s.limit + 1, successStreak := 0));
    var ramped := if ok then Ramp(c, s) else s.(successStreak := 0);
    DrainKeepsActive(c, ramped.(running := ramped.running - 1,
                                inFlightBytes := ramped.inFlightBytes - ramped.active[k].size,
                                active := Without(ramped.active, k)));
  }

  function Min(a: int, b: int): int { if a < b then a else b }

  function Max(a: int, b: int): int { if a < b then b else a }

  /** A new pool is empty, and its limit is the start value brought between its bounds. */
  lemma StartLimit(c: Config, start: int)
    requires ValidConfig(c)
    ensures Initial(c, start).limit == Max(c.min, Min(c.max, start))
    ensures Initial(c, start).active == [] == Initial(c, start).waiting
  {
  }

  /** There is a slot, and room for the bytes unless nothing runs. */
  predicate HasRoom(c: Config, s: State, size: nat) {
    s.running < s.limit && (c.byteBudget.None? || s.running == 0 || s.inFlightBytes + size <= c.byteBudget.value)
  }

  /** A task starts at once exactly when nobody waits and there is room; a backlog means there is none for its head. */
  lemma StartsExactly(c: Config, s: State, size: nat)
    requires Inv(c, s)
    ensures var t, task := Apply(c, s, Runs(size)), Task(|s.arrived|, size);
            if s.waiting == [] && HasRoom(c, s, size) then t.active == s.active + [task] && t.waiting == []
            else t.active == s.active && t.waiting == s.waiting + [task]
    ensures s.waiting != [] ==> !HasRoom(c, s, s.waiting[0].size)
  {
  }

  lemma LeaveKeepsLimit(c: Config, s: State, k: nat)
    requires k < |s.active|
    ensures Leave(c, s, k).limit == s.limit && Leave(c, s, k).successStreak == s.successStreak
  {
    DrainKeepsActive(c, s.(running := s.running - 1, inFlightBytes := s.inFlightBytes - s.active[k].size,
                           active := Without(s.active, k)));
  }

  /** How the limit moves. It rises by one, and the streak begins again, when a success makes the streak long enough and
      the limit is not the highest; it halves, down to the lowest, by the first hit of an episode, which ends the streak
      as a failure does. */
  lemma LimitMoves(c: Config, s: State, e: Event)
    requires Inv(c, s)
    ensures var t := Apply(c, s, e);
            match e
            case Runs(_) => t.limit == s.limit && t.successStreak == s.successStreak
            case Finishes(k, ok) =>
              k < |s.active| ==>
                if !ok then t.limit == s.limit && t.successStreak == 0
                else if s.successStreak + 1 >= c.rampAfter && s.limit < c.max
                then t.limit == s.limit + 1 && t.successStreak == 0
                else t.limit == s.limit && t.successStreak == s.successStreak + 1
            case RateLimited =>
              if s.running > s.limit then t == s
              else t == s.(limit := Max(c.min, s.limit / 2), successStreak := 0)
  {
    if e.Finishes? && e.k < |s.active| {
      DrainKeepsActive(c, s.(limit := s.limit + 1, successStreak := 0));
      LeaveKeepsLimit(c, if e.ok then Ramp(c, s) else s.(successStreak := 0), e.k);
    }
  }

  /** The first `n` waiters have come in behind the tasks in flight. */
  ghost predicate Took(s: State, t: State, n: nat) {
    n <= |s.waiting| && t.waiting == s.waiting[n..] && t.active == s.active + s.waiting[..n]
  }

  lemma {:induction false} DrainTakes(c: Config, s: State) returns (n: nat)
    ensures Took(s, Drain(c, s), n)
    decreases |s.waiting|
  {
    n := 0;
    if s.waiting != [] && CanAdmit(c, s, s.waiting[0].size) {
      n := DrainTakes(c, Admit(s.(waiting := s.waiting[1..]), s.waiting[0]));
      n := n + 1;
      assert s.waiting[..n] == [s.waiting[0]] + s.waiting[1..][..n - 1];
    }
  }

  lemma RampTakes(c: Config, s: State) returns (n: nat)
    ensures Took(s, Ramp(c, s), n)
  {
    n := DrainTakes(c, s.(limit := s.limit + 1, successStreak := 0));
    if !(s.successStreak + 1 >= c.rampAfter && s.limit < c.max) {
      n := 0;
    }
  }

  lemma TakeTwice(waiting: seq<Task>, n: nat, m: nat)
    requires n <= |waiting| && m <= |waiting[n..]|
    ensures waiting[n..][m..] == waiting[n + m..] && waiting[..n] + waiting[n..][..m] == waiting[..n + m]
  {
  }

  lemma WithoutEarlier(tasks: seq<Task>, more: seq<Task>, k: nat)
    requires k < |tasks|
    ensures Without(tasks + more, k) == Without(tasks, k) + more
  {
  }

  lemma LeaveTakes(c: Config, s: State, k: nat) returns (n: nat)
    requires k < |s.active|
    ensures n <= |s.waiting| && Leave(c, s, k).waiting == s.waiting[n..]
    ensures Leave(c, s, k).active == Without(s.active, k) + s.waiting[..n]
  {
    n := DrainTakes(c, s.(running := s.running - 1, inFlightBytes := s.inFlightBytes - s.active[k].size,
                          active := Without(s.active, k)));
  }

  lemma Behind(tasks: seq<Task>, waiting: seq<Task>, n: nat, m: nat)
    requires n <= |waiting| && m <= |waiting[n..]|
    ensures tasks + waiting[..n] + waiting[n..][..m] == tasks + waiting[..n + m]
    ensures waiting[n..][m..] == waiting[n + m..]
  {
    TakeTwice(waiting, n, m);
  }

  /** The task that ended leaves, every other stays, and waiters from the front come in behind. */
  lemma FinishedLeaves(c: Config, s: State, k: nat, ok: bool) returns (n: nat)
    requires k < |s.active|
    ensures n <= |s.waiting|
    ensures var t := Apply(c, s, Finishes(k, ok));
            t.active == s.active[..k] + s.active[k + 1..] + s.waiting[..n] && t.waiting == s.waiting[n..]
  {
    if ok {
      n := RampTakes(c, s);
      WithoutEarlier(s.active, s.waiting[..n], k);
      var m := LeaveTakes(c, Ramp(c, s), k);
      Behind(Without(s.active, k), s.waiting, n, m);
      n := n + m;
    } else {
      n := LeaveTakes(c, s.(successStreak := 0), k);
    }
  }

  /** Without a byte budget a backlog means the count limit is reached, so queueing behind it changes nothing. */
  lemma CountBacklog(c: Config, s: State)
    requires Inv(c, s) && c.byteBudget.None? && s.waiting != []
    ensures s.running >= s.limit
  {
    assert !CanAdmit(c, s, s.waiting[0].size);
  }

  /** Repeated rate-limit signals with nothing starting or ending between them. */
  function Burst(c: Config, s: State, n: nat): State {
    if n == 0 then s else NoteRateLimit(c, Burst(c, s, n - 1))
  }

  /** One episode costs one halving: the limit never falls below half of what is running. */
  lemma {:induction false} BurstFloor(c: Config, s: State, n: nat)
    requires Inv(c, s)
    ensures Inv(c, Burst(c, s, n)) && Burst(c, s, n).running == s.running
    ensures Burst(c, s, n).limit >= Max(c.min, Min(s.limit, s.running / 2))
    ensures Burst(c, s, n).limit <= s.limit
  {
    if n > 0 {
      BurstFloor(c, s, n - 1);
      ApplyKeeps(c, Burst(c, s, n - 1), RateLimited);
    }
  }

  // ---------------------------------------------------------------- the class

  /** Every method is one event, so PoolKeeps covers whatever sequence of calls an instance sees. */
  class AdaptivePool {
    const config: Config
    var running: int
    var inFlightBytes: int
    var waiting: seq<Task>
    var limit: nat
    var successStreak: nat
    var calls: nat
    ghost var active: seq<Task>
    ghost var arrived: seq<Task>
    ghost var admitted: seq<Task>

    ghost function View(): State
      reads this
    {
      State(running, inFlightBytes, waiting, limit, successStreak, active, arrived, admitted)
    }

    constructor (config: Config, start: int)
      requires ValidConfig(config)
      ensures this.config == config && View() == Initial(config, start) && calls == |arrived|
    {
      this.config := config;
      running, inFlightBytes, waiting, successStreak, calls := 0, 0, [], 0, 0;
      limit := Clamp(config, start);
      active, arrived, admitted := [], [], [];
    }

    predicate CanAdmitNow(size: nat)
      reads this
    {
      && running < limit
      && (config.byteBudget.None? || running == 0 || inFlightBytes + size <= config.byteBudget.value)
    }

    method AdmitTask(task: Task)
      modifies this`running, this`inFlightBytes, this`active, this`admitted
      ensures View() == Admit(old(View()), task)
    {
      running := running + 1;
      inFlightBytes := inFlightBytes + task.size;
      active, admitted := active + [task], admitted + [task];
    }

    method DrainWaiting()
      modifies this`running, this`inFlightBytes, this`waiting, this`active, this`admitted
      ensures View() == Drain(config, old(View()))
    {
      while waiting != [] && CanAdmitNow(waiting[0].size)
        invariant limit == old(limit) && successStreak == old(successStreak) && arrived == old(arrived)
        invariant Drain(config, View()) == Drain(config, old(View()))
        decreases |waiting|
      {
        var head := waiting[0];
        waiting := waiting[1..];
        AdmitTask(head);
      }
    }

    /** A call of `run`, up to its first await. */
    method RunTask(size: nat) returns (task: Task)
      requires calls == |arrived|
      modifies this
      ensures View() == Apply(config, old(View()), Runs(size)) && calls == |arrived|
    {
      task := Task(calls, size);
      calls := calls + 1;
      arrived := arrived + [task];
      if waiting == [] && CanAdmitNow(size) {
        AdmitTask(task);
      } else {
        waiting := waiting + [task];
      }
    }

    /** The accounting of a task that resolved. */
    method NoteSuccess()
      modifies this
      ensures View() == Ramp(config, old(View())) && calls == old(calls)
    {
      successStreak := successStreak + 1;
      if successStreak >= config.rampAfter && limit < config.max {
        limit := limit + 1;
        successStreak := 0;
        DrainWaiting();
      }
    }

    /** The stretch after the task's work has resolved or rejected. */
    method FinishTask(task: Task, ok: bool, ghost k: nat)
      requires k < |active| && active[k] == task
      modifies this
      ensures View() == Apply(config, old(View()), Finishes(k, ok)) && calls == old(calls)
    {
      if ok {
        DrainKeepsActive(config, View().(limit := limit + 1, successStreak := 0));
        NoteSuccess();
      } else {
        successStreak := 0;
      }
      running := running - 1;
      inFlightBytes := inFlightBytes - task.size;
      active := Without(active, k);
      DrainWaiting();
    }

    method NoteRateLimited()
      modifies this`limit, this`successStreak
      ensures View() == Apply(config, old(View()), RateLimited)
    {
      if running > limit {
        return;
      }
      limit := if limit / 2 < config.min then config.min else limit / 2;
      successStreak := 0;
    }
  }
}
