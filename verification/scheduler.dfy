/** The scheduler as a transition system: callers adding tasks, the dispatcher with its heap and timer, two bounded
    queues and N workers. Clock readings and timer firings are arbitrary; tasks have distinct ids. */
module Scheduler {
  import opened Common
  import opened TaskHeap
  import D = Deadlines

  const TASK_Q_LEN := 64
  const TODO_Q_LEN := 64

  datatype Stats = Stats(scheduled: nat, delayed: nat, overrun: nat, executed: nat, deadlineHack: nat)

  /** What a worker holds: nothing, a task it executes, or a task it is about to re-queue. */
  datatype Slot = Free | Running(task: TaskId) | Returning(task: TaskId)

  /** `deadlines` keeps all the deadlines a task was given; `faulted` is an access to a missing statistics entry or a
      pop of an empty heap. The timer is armed for the deadline it holds. */
  datatype State = State(
    all: set<TaskId>, interval: map<TaskId, int>, due: Deadlines, deadlines: map<TaskId, seq<int>>,
    lastExecuted: map<TaskId, int>, byWorker: set<TaskId>,
    toAdd: set<TaskId>, taskQ: seq<TaskId>, heap: seq<TaskId>, hand: Option<TaskId>, todoQ: seq<TaskId>,
    workers: seq<Slot>, retired: set<TaskId>,
    timer: Option<int>, stats: map<TaskId, Stats>, faulted: bool)

  datatype Step =
    | Add(t: TaskId)
    | DispatchReadded(now: int)
    | DispatchNear(now: int)
    | DispatchNow(now: int)
    | Fire
    | Send
    | Take(w: nat)
    | Finish(w: nat, end: int, overran: bool, requeue: bool)
    | Requeue(w: nat)

  // ---------- Where tasks are ----------

  function RunCount(workers: seq<Slot>, t: TaskId): nat {
    if workers == [] then 0 else Bit(workers[0] == Running(t)) + RunCount(workers[1..], t)
  }

  function ReturnCount(workers: seq<Slot>, t: TaskId): nat {
    if workers == [] then 0 else Bit(workers[0] == Returning(t)) + ReturnCount(workers[1..], t)
  }

  /** How often a task is scheduled and not yet executed. */
  function InFlight(s: State, t: TaskId): nat {
    Bit(s.hand == Some(t)) + multiset(s.todoQ)[t] + RunCount(s.workers, t)
  }

  /** In how many places a task is. */
  function Places(s: State, t: TaskId): nat {
    Bit(t in s.toAdd) + multiset(s.taskQ)[t] + multiset(s.heap)[t] + InFlight(s, t)
    + ReturnCount(s.workers, t) + Bit(t in s.retired)
  }

  // ---------- Steps ----------

  function Arm(timer: Option<int>, heap: seq<TaskId>, due: Deadlines): Option<int> {
    if timer.None? && heap != [] then Some(Key(due, heap[0])) else timer
  }

  /** A timer pending for a later deadline is cancelled. */
  function Cancel(timer: Option<int>, deadline: int): Option<int> {
    if timer.Some? && deadline < timer.value then None else timer
  }

  function StatsOf(stats: map<TaskId, Stats>, t: TaskId): Stats {
    if t in stats then stats[t] else Stats(0, 0, 0, 0, 0)
  }

  function Scheduled(stats: map<TaskId, Stats>, t: TaskId): map<TaskId, Stats> {
    stats[t := StatsOf(stats, t).(scheduled := StatsOf(stats, t).scheduled + 1)]
  }

  function Executed(stats: map<TaskId, Stats>, t: TaskId, overran: bool): map<TaskId, Stats> {
    var was := StatsOf(stats, t);
    stats[t := was.(executed := was.executed + 1, overrun := was.overrun + if overran then 1 else 0)]
  }

  function Adjusted(stats: map<TaskId, Stats>, t: TaskId, hack: bool, delayed: bool): map<TaskId, Stats> {
    var was := StatsOf(stats, t);
    if hack || delayed then
      stats[t := was.(deadlineHack := was.deadlineHack + (if hack then 1 else 0),
                      delayed := was.delayed + (if delayed then 1 else 0))]
    else stats
  }

  function IntervalOf(s: State, t: TaskId): (d: int)
    ensures d > 0
  {
    if t in s.interval && s.interval[t] > 0 then s.interval[t] else 1
  }

  function LastExecuted(s: State, t: TaskId): int {
    if t in s.lastExecuted then s.lastExecuted[t] else 0
  }

  function DeadlinesOf(s: State, t: TaskId): seq<int> {
    if t in s.deadlines then s.deadlines[t] else []
  }

  function WithDeadline(s: State, t: TaskId, deadline: int): State {
    s.(due := s.due[t := deadline], deadlines := s.deadlines[t := DeadlinesOf(s, t) + [deadline]])
  }

  predicate Waits(s: State) {
    s.hand.None?
  }

  // A caller adds a new task to the task queue.
  predicate Adds(s: State, t: TaskId, s': State) {
    t in s.toAdd && |s.taskQ| < TASK_Q_LEN && s' == s.(toAdd := s.toAdd - {t}, taskQ := s.taskQ + [t])
  }

  // The dispatcher takes a task off the task queue, gives it a deadline and adds it to the heap.
  predicate Shelves(s: State, deadline: int, stats: map<TaskId, Stats>, fault: bool, s': State) {
    && Waits(s) && s.taskQ != []
    && var t := s.taskQ[0];
       && Pushed(s.heap, t, s'.heap, s.due[t := deadline])
       && s' == WithDeadline(s, t, deadline).(
            taskQ := s.taskQ[1..], heap := s'.heap,
            timer := Arm(Cancel(s.timer, deadline), s'.heap, s.due[t := deadline]),
            stats := stats, faulted := s.faulted || fault)
  }

  // The dispatcher takes a new task off the task queue for immediate execution; a pending timer is cancelled.
  predicate Schedules(s: State, now: int, s': State) {
    && Waits(s) && s.taskQ != [] && s.taskQ[0] !in s.byWorker
    && s' == WithDeadline(s, s.taskQ[0], now).(
         taskQ := s.taskQ[1..], hand := Some(s.taskQ[0]), timer := None, stats := Scheduled(s.stats, s.taskQ[0]))
  }

  // The timer fires and the dispatcher pops the heap.
  predicate Fires(s: State, s': State) {
    && Waits(s) && s.timer.Some?
    && if s.heap == [] then s' == s.(faulted := true)
       else
         && s'.hand.Some? && Popped(s.heap, s'.hand.value, s'.heap, s.due)
         && s' == s.(heap := s'.heap, hand := s'.hand, timer := None, stats := Scheduled(s.stats, s'.hand.value))
  }

  // The dispatcher hands a task to the workers and goes back to waiting.
  predicate Sends(s: State, s': State) {
    && s.hand.Some? && |s.todoQ| < TODO_Q_LEN
    && s' == s.(hand := None, todoQ := s.todoQ + [s.hand.value], timer := Arm(s.timer, s.heap, s.due))
  }

  predicate Takes(s: State, w: nat, s': State) {
    && w < |s.workers| && s.workers[w].Free? && s.todoQ != []
    && s' == s.(todoQ := s.todoQ[1..], workers := s.workers[w := Running(s.todoQ[0])])
  }

  predicate Finishes(s: State, w: nat, end: int, overran: bool, requeue: bool, s': State) {
    && w < |s.workers| && s.workers[w].Running?
    && var t := s.workers[w].task;
       s' == s.(lastExecuted := s.lastExecuted[t := end],
                stats := Executed(s.stats, t, overran), faulted := s.faulted || t !in s.stats,
                workers := s.workers[w := if requeue then Returning(t) else Free],
                byWorker := if requeue then s.byWorker + {t} else s.byWorker,
                retired := if requeue then s.retired else s.retired + {t})
  }

  predicate Requeues(s: State, w: nat, s': State) {
    && w < |s.workers| && s.workers[w].Returning? && |s.taskQ| < TASK_Q_LEN
    && s' == s.(taskQ := s.taskQ + [s.workers[w].task], workers := s.workers[w := Free])
  }

  /** The adjustments made to a re-added task's deadline, and the statistics entries they access. */
  predicate HackNeeded(s: State, t: TaskId, now: int) {
    Key(s.due, t) >= D.NextMultiple(now, IntervalOf(s, t))
  }

  predicate DelayNeeded(s: State, t: TaskId, now: int) {
    D.NextMultiple(Max(now, Key(s.due, t)), IntervalOf(s, t)) < LastExecuted(s, t) + D.MIN_EXECUTION_PAUSE
  }

  function Readded(s: State, t: TaskId, now: int): int {
    D.ReaddedDeadline(now, Key(s.due, t), IntervalOf(s, t), LastExecuted(s, t))
  }

  predicate Next(s: State, step: Step, s': State) {
    match step
    case Add(t) => Adds(s, t, s')
    case DispatchReadded(now) =>
      && s.taskQ != [] && s.taskQ[0] in s.byWorker
      && var t := s.taskQ[0];
         var hack, delayed := HackNeeded(s, t, now), DelayNeeded(s, t, now);
         Shelves(s, Readded(s, t, now), Adjusted(s.stats, t, hack, delayed), (hack || delayed) && t !in s.stats, s')
    case DispatchNear(now) =>
      && s.taskQ != [] && s.taskQ[0] !in s.byWorker
      && var next := D.NextMultiple(now, IntervalOf(s, s.taskQ[0]));
         next - now < D.MIN_EXECUTION_PAUSE && Shelves(s, next, s.stats, false, s')
    case DispatchNow(now) =>
      && s.taskQ != []
      && D.NextMultiple(now, IntervalOf(s, s.taskQ[0])) - now >= D.MIN_EXECUTION_PAUSE && Schedules(s, now, s')
    case Fire => Fires(s, s')
    case Send => Sends(s, s')
    case Take(w) => Takes(s, w, s')
    case Finish(w, end, overran, requeue) => Finishes(s, w, end, overran, requeue, s')
    case Requeue(w) => Requeues(s, w, s')
  }

  predicate Init(s: State) {
    && s.toAdd == s.all && s.taskQ == [] && s.heap == [] && s.hand.None? && s.todoQ == [] && s.retired == {}
    && (forall i | 0 <= i < |s.workers| :: s.workers[i].Free?)
    && s.byWorker == {} && s.timer.None? && s.stats == map[] && s.deadlines == map[] && !s.faulted
  }

  // ---------- Invariants ----------

  predicate InOnePlace(s: State, t: TaskId) {
    Places(s, t) == Bit(t in s.all)
  }

  /** Each task is in exactly one place. */
  ghost predicate Partitioned(s: State) {
    forall t :: InOnePlace(s, t)
  }

  /** While the dispatcher waits the timer is armed for the least deadline in the heap, if there is one. */
  predicate TimerOk(s: State) {
    && IsHeap(s.heap, s.due)
    && s.timer == if s.hand.Some? || s.heap == [] then None else Some(Key(s.due, s.heap[0]))
  }

  predicate QueuesOk(s: State) {
    |s.taskQ| <= TASK_Q_LEN && |s.todoQ| <= TODO_Q_LEN
  }

  predicate TaskStatsOk(s: State, t: TaskId) {
    && (t in s.byWorker ==> t in s.stats)
    && (InFlight(s, t) > 0 ==> t in s.stats && s.stats[t].scheduled == s.stats[t].executed + 1)
    && (InFlight(s, t) == 0 && t in s.stats ==> s.stats[t].scheduled == s.stats[t].executed)
  }

  ghost predicate StatsOk(s: State) {
    !s.faulted && forall t :: TaskStatsOk(s, t)
  }

  predicate Increasing(xs: seq<int>) {
    forall i, j | 0 <= i < j < |xs| :: xs[i] < xs[j]
  }

  predicate TaskDeadlinesOk(s: State, t: TaskId) {
    && Increasing(DeadlinesOf(s, t))
    && (DeadlinesOf(s, t) != [] ==> t in s.due && s.due[t] == DeadlinesOf(s, t)[|DeadlinesOf(s, t)| - 1])
    && (t in s.toAdd || (t in s.taskQ && t !in s.byWorker) ==> DeadlinesOf(s, t) == [])
    && (ReturnCount(s.workers, t) > 0 ==> t in s.byWorker)
  }

  ghost predicate DeadlinesOk(s: State) {
    forall t :: TaskDeadlinesOk(s, t)
  }

  ghost predicate Inv(s: State) {
    Partitioned(s) && TimerOk(s) && QueuesOk(s) && StatsOk(s) && DeadlinesOk(s)
  }

  // ---------- Moving tasks around ----------

  lemma HeadAndTail(q: seq<TaskId>, t: TaskId)
    requires q != []
    ensures multiset(q)[t] == Bit(q[0] == t) + multiset(q[1..])[t]
  {
    assert q == [q[0]] + q[1..];
  }

  lemma SlotUpdate(workers: seq<Slot>, w: nat, x: Slot, t: TaskId)
    requires w < |workers|
    ensures RunCount(workers[w := x], t) == RunCount(workers, t) - Bit(workers[w] == Running(t)) + Bit(x == Running(t))
    ensures ReturnCount(workers[w := x], t) ==
            ReturnCount(workers, t) - Bit(workers[w] == Returning(t)) + Bit(x == Returning(t))
  {
    if w == 0 {
      assert workers[w := x][1..] == workers[1..];
    } else {
      assert workers[w := x][1..] == workers[1..][w - 1 := x];
      SlotUpdate(workers[1..], w - 1, x, t);
    }
  }

  lemma ShelvesMoves(s: State, deadline: int, stats: map<TaskId, Stats>, fault: bool, s': State, t: TaskId)
    requires Shelves(s, deadline, stats, fault, s')
    ensures Places(s', t) == Places(s, t) && InFlight(s', t) == InFlight(s, t)
  {
    HeadAndTail(s.taskQ, t);
    assert multiset(s'.heap)[t] == multiset(s.heap)[t] + Bit(s.taskQ[0] == t);
  }

  lemma SchedulesMoves(s: State, now: int, s': State, t: TaskId)
    requires Schedules(s, now, s')
    ensures Places(s', t) == Places(s, t) && InFlight(s', t) == InFlight(s, t) + Bit(s.taskQ[0] == t)
  {
    HeadAndTail(s.taskQ, t);
  }

  lemma FiresMoves(s: State, s': State, t: TaskId)
    requires Fires(s, s') && s.heap != []
    ensures Places(s', t) == Places(s, t) && InFlight(s', t) == InFlight(s, t) + Bit(s'.hand == Some(t))
  {
    assert multiset(s.heap)[t] == multiset(s'.heap)[t] + Bit(s'.hand == Some(t));
  }

  lemma SendsMoves(s: State, s': State, t: TaskId)
    requires Sends(s, s')
    ensures Places(s', t) == Places(s, t) && InFlight(s', t) == InFlight(s, t)
  {
  }

  lemma TakesMoves(s: State, w: nat, s': State, t: TaskId)
    requires Takes(s, w, s')
    ensures Places(s', t) == Places(s, t) && InFlight(s', t) == InFlight(s, t)
    ensures ReturnCount(s'.workers, t) == ReturnCount(s.workers, t)
  {
    HeadAndTail(s.todoQ, t);
    SlotUpdate(s.workers, w, s'.workers[w], t);
  }

  lemma FinishesMoves(s: State, w: nat, end: int, overran: bool, requeue: bool, s': State, t: TaskId)
    requires Finishes(s, w, end, overran, requeue, s') && InOnePlace(s, t)
    ensures Places(s', t) == Places(s, t) && InFlight(s', t) == InFlight(s, t) - Bit(s.workers[w].task == t)
    ensures ReturnCount(s'.workers, t) == ReturnCount(s.workers, t) + Bit(requeue && s.workers[w].task == t)
  {
    SlotUpdate(s.workers, w, s'.workers[w], t);
  }

  lemma RequeuesMoves(s: State, w: nat, s': State, t: TaskId)
    requires Requeues(s, w, s')
    ensures Places(s', t) == Places(s, t) && InFlight(s', t) == InFlight(s, t)
    ensures ReturnCount(s'.workers, t) == ReturnCount(s.workers, t) - Bit(s.workers[w].task == t)
  {
    SlotUpdate(s.workers, w, s'.workers[w], t);
  }

  lemma AddsMoves(s: State, a: TaskId, s': State, t: TaskId)
    requires Adds(s, a, s')
    ensures Places(s', t) == Places(s, t) && InFlight(s', t) == InFlight(s, t)
  {
  }

  // ---------- Each kind of step keeps the invariant ----------

  lemma AddsKeepsInv(s: State, a: TaskId, s': State)
    requires Inv(s) && Adds(s, a, s')
    ensures Inv(s')
  {
    forall t ensures InOnePlace(s', t) && TaskStatsOk(s', t) && TaskDeadlinesOk(s', t) {
      assert InOnePlace(s, t) && TaskStatsOk(s, t) && TaskDeadlinesOk(s, t);
      AddsMoves(s, a, s', t);
    }
  }

  /** The timer is re-armed when it has to be, and kept when the least deadline stays. */
  lemma ShelvesKeepsTimer(s: State, deadline: int, stats: map<TaskId, Stats>, fault: bool, s': State)
    requires TimerOk(s) && Shelves(s, deadline, stats, fault, s') && s.taskQ[0] !in s.heap
    ensures TimerOk(s')
  {
    var t := s.taskQ[0];
    assert t in multiset(s'.heap);
    if s.timer.Some? && deadline >= s.timer.value {
      var least := s.heap[0];
      assert least in multiset(s'.heap);
      forall x | x in s'.heap ensures Key(s'.due, least) <= Key(s'.due, x) {
        if x != t {
          assert x in multiset(s'.heap);
          assert x in multiset(s.heap);
          var i :| 0 <= i < |s.heap| && s.heap[i] == x;
          RootIsLeast(s.heap, s.due, i);
        }
      }
      RootDeadline(s'.heap, s'.due, least);
    }
  }

  lemma AppendKeepsIncreasing(xs: seq<int>, x: int)
    requires Increasing(xs) && (xs != [] ==> xs[|xs| - 1] < x)
    ensures Increasing(xs + [x])
  {
  }

  lemma ShelvesKeepsInv(s: State, deadline: int, stats: map<TaskId, Stats>, fault: bool, s': State)
    requires Inv(s) && Shelves(s, deadline, stats, fault, s') && !fault
    requires DeadlinesOf(s, s.taskQ[0]) != [] ==> Key(s.due, s.taskQ[0]) < deadline
    requires stats.Keys == s.stats.Keys
    requires forall t | t in stats ::
               stats[t].scheduled == s.stats[t].scheduled && stats[t].executed == s.stats[t].executed
    ensures Inv(s')
  {
    var a := s.taskQ[0];
    assert InOnePlace(s, a);
    HeadAndTail(s.taskQ, a);
    ShelvesKeepsTimer(s, deadline, stats, fault, s');
    forall t ensures InOnePlace(s', t) && TaskStatsOk(s', t) && TaskDeadlinesOk(s', t) {
      assert InOnePlace(s, t) && TaskStatsOk(s, t) && TaskDeadlinesOk(s, t);
      ShelvesMoves(s, deadline, stats, fault, s', t);
      HeadAndTail(s.taskQ, t);
      if t == a {
        AppendKeepsIncreasing(DeadlinesOf(s, a), deadline);
      }
    }
  }

  lemma SchedulesKeepsInv(s: State, now: int, s': State)
    requires Inv(s) && Schedules(s, now, s')
    ensures Inv(s')
  {
    var a := s.taskQ[0];
    assert InOnePlace(s, a);
    HeadAndTail(s.taskQ, a);
    forall i | 0 <= i < |s'.heap| ensures Ordered(s'.heap, s'.due, i) {
      assert Ordered(s.heap, s.due, i);
      assert s.heap[i] in s.heap && (i > 0 ==> s.heap[Parent(i)] in s.heap);
    }
    forall t ensures InOnePlace(s', t) && TaskStatsOk(s', t) && TaskDeadlinesOk(s', t) {
      assert InOnePlace(s, t) && TaskStatsOk(s, t) && TaskDeadlinesOk(s, t);
      SchedulesMoves(s, now, s', t);
      HeadAndTail(s.taskQ, t);
    }
  }

  /** A timer never fires on an empty heap. */
  lemma FiresKeepsInv(s: State, s': State)
    requires Inv(s) && Fires(s, s')
    ensures Inv(s')
  {
    var a := s'.hand.value;
    forall t ensures InOnePlace(s', t) && TaskStatsOk(s', t) && TaskDeadlinesOk(s', t) {
      assert InOnePlace(s, t) && TaskStatsOk(s, t) && TaskDeadlinesOk(s, t);
      FiresMoves(s, s', t);
    }
  }

  lemma SendsKeepsInv(s: State, s': State)
    requires Inv(s) && Sends(s, s')
    ensures Inv(s')
  {
    forall t ensures InOnePlace(s', t) && TaskStatsOk(s', t) && TaskDeadlinesOk(s', t) {
      assert InOnePlace(s, t) && TaskStatsOk(s, t) && TaskDeadlinesOk(s, t);
      SendsMoves(s, s', t);
    }
  }

  lemma TakesKeepsInv(s: State, w: nat, s': State)
    requires Inv(s) && Takes(s, w, s')
    ensures Inv(s')
  {
    forall t ensures InOnePlace(s', t) && TaskStatsOk(s', t) && TaskDeadlinesOk(s', t) {
      assert InOnePlace(s, t) && TaskStatsOk(s, t) && TaskDeadlinesOk(s, t);
      TakesMoves(s, w, s', t);
    }
  }

  lemma RunningIsInFlight(workers: seq<Slot>, w: nat)
    requires w < |workers|
    ensures workers[w].Running? ==> RunCount(workers, workers[w].task) > 0
    ensures workers[w].Returning? ==> ReturnCount(workers, workers[w].task) > 0
  {
    if w > 0 {
      RunningIsInFlight(workers[1..], w - 1);
    }
  }

  lemma FinishesKeepsInv(s: State, w: nat, end: int, overran: bool, requeue: bool, s': State)
    requires Inv(s) && Finishes(s, w, end, overran, requeue, s')
    ensures Inv(s')
  {
    var a := s.workers[w].task;
    assert InOnePlace(s, a) && TaskStatsOk(s, a);
    RunningIsInFlight(s.workers, w);
    forall t ensures InOnePlace(s', t) && TaskStatsOk(s', t) && TaskDeadlinesOk(s', t) {
      assert InOnePlace(s, t) && TaskStatsOk(s, t) && TaskDeadlinesOk(s, t);
      FinishesMoves(s, w, end, overran, requeue, s', t);
    }
  }

  lemma RequeuesKeepsInv(s: State, w: nat, s': State)
    requires Inv(s) && Requeues(s, w, s')
    ensures Inv(s')
  {
    RunningIsInFlight(s.workers, w);
    assert TaskDeadlinesOk(s, s.workers[w].task);
    forall t ensures InOnePlace(s', t) && TaskStatsOk(s', t) && TaskDeadlinesOk(s', t) {
      assert InOnePlace(s, t) && TaskStatsOk(s, t) && TaskDeadlinesOk(s, t);
      RequeuesMoves(s, w, s', t);
    }
  }

  lemma StepKeepsInv(s: State, step: Step, s': State)
    requires Inv(s) && Next(s, step, s')
    ensures Inv(s')
  {
    match step
    case Add(t) => AddsKeepsInv(s, t, s');
    case DispatchReadded(now) =>
      var t := s.taskQ[0];
      assert TaskStatsOk(s, t) && TaskDeadlinesOk(s, t);
      var hack, delayed := HackNeeded(s, t, now), DelayNeeded(s, t, now);
      D.ReaddedIsLater(now, Key(s.due, t), IntervalOf(s, t), LastExecuted(s, t), 0);
      ShelvesKeepsInv(s, Readded(s, t, now), Adjusted(s.stats, t, hack, delayed), false, s');
    case DispatchNear(now) =>
      assert TaskDeadlinesOk(s, s.taskQ[0]);
      ShelvesKeepsInv(s, D.NextMultiple(now, IntervalOf(s, s.taskQ[0])), s.stats, false, s');
    case DispatchNow(now) => SchedulesKeepsInv(s, now, s');
    case Fire => FiresKeepsInv(s, s');
    case Send => SendsKeepsInv(s, s');
    case Take(w) => TakesKeepsInv(s, w, s');
    case Finish(w, end, overran, requeue) => FinishesKeepsInv(s, w, end, overran, requeue, s');
    case Requeue(w) => RequeuesKeepsInv(s, w, s');
  }

  lemma AllFree(workers: seq<Slot>, t: TaskId)
    requires forall i | 0 <= i < |workers| :: workers[i].Free?
    ensures RunCount(workers, t) == 0 && ReturnCount(workers, t) == 0
  {
    if workers != [] {
      AllFree(workers[1..], t);
    }
  }

  lemma InitInv(s: State)
    requires Init(s)
    ensures Inv(s)
  {
    forall t ensures InOnePlace(s, t) && TaskStatsOk(s, t) && TaskDeadlinesOk(s, t) {
      AllFree(s.workers, t);
    }
  }

  // ---------- Whole runs ----------

  ghost predicate IsRun(states: seq<State>) {
    && states != [] && Init(states[0])
    && forall i | 0 <= i < |states| - 1 :: CanFollow(states[i], states[i + 1])
  }

  ghost predicate CanFollow(s: State, s': State) {
    exists step :: Next(s, step, s')
  }

  /** The invariant holds in every reachable state. */
  lemma {:induction false} RunKeepsInv(states: seq<State>, i: nat)
    requires IsRun(states) && i < |states|
    ensures Inv(states[i])
  {
    if i == 0 {
      InitInv(states[0]);
    } else {
      RunKeepsInv(states, i - 1);
      assert CanFollow(states[i - 1], states[i - 1 + 1]);
      var step :| Next(states[i - 1], step, states[i]);
      StepKeepsInv(states[i - 1], step, states[i]);
    }
  }

  lemma RunningTwice(workers: seq<Slot>, i: nat, j: nat)
    requires i < j < |workers| && workers[i].Running? && workers[i] == workers[j]
    ensures RunCount(workers, workers[i].task) >= 2
  {
    if i == 0 {
      RunningIsInFlight(workers[1..], j - 1);
    } else {
      RunningTwice(workers[1..], i - 1, j - 1);
    }
  }

  /** A task that runs does so in one worker only and is nowhere else: in no queue, heap or hand, not returning,
      not still to be added and not retired. */
  lemma NeverConcurrentWithItself(states: seq<State>, k: nat, i: nat)
    requires IsRun(states) && k < |states| && i < |states[k].workers| && states[k].workers[i].Running?
    ensures var s := states[k];
            var t := s.workers[i].task;
            && RunCount(s.workers, t) == 1 && ReturnCount(s.workers, t) == 0
            && (forall j | 0 <= j < |s.workers| && j != i :: s.workers[j] != Running(t) && s.workers[j] != Returning(t))
            && t !in s.toAdd && t !in s.taskQ && t !in s.heap && s.hand != Some(t) && t !in s.todoQ && t !in s.retired
  {
    RunKeepsInv(states, k);
    var s := states[k];
    var t := s.workers[i].task;
    assert InOnePlace(s, t);
    RunningIsInFlight(s.workers, i);
    forall j | 0 <= j < |s.workers| && j != i ensures s.workers[j] != Running(t) && s.workers[j] != Returning(t) {
      RunningIsInFlight(s.workers, j);
      if s.workers[j] == Running(t) {
        RunningTwice(s.workers, if i < j then i else j, if i < j then j else i);
      }
    }
  }

  /** A timer firing pops a task due at the armed deadline, the least in the heap. */
  lemma TimerFiresOnDueTask(states: seq<State>, k: nat, s': State)
    requires IsRun(states) && k < |states| && Fires(states[k], s')
    ensures var s := states[k];
            && s.heap != [] && !s'.faulted && s'.hand.Some?
            && s.timer == Some(Key(s.due, s'.hand.value))
            && forall x | x in s.heap :: s.timer.value <= Key(s.due, x)
  {
    RunKeepsInv(states, k);
    var s := states[k];
    assert s'.hand.value in multiset(s.heap);
    RootDeadline(s.heap, s.due, s'.hand.value);
  }

  /** Scheduled minus executed is 0 or 1 for every task, and no statistics entry is missed. */
  lemma ScheduledMinusExecuted(states: seq<State>, k: nat, t: TaskId)
    requires IsRun(states) && k < |states|
    ensures var s := states[k];
            && !s.faulted
            && (t in s.stats ==> s.stats[t].executed <= s.stats[t].scheduled <= s.stats[t].executed + 1)
            && (InFlight(s, t) > 0 || t in s.byWorker ==> t in s.stats)
  {
    RunKeepsInv(states, k);
    assert TaskStatsOk(states[k], t);
  }

  /** Each task's deadlines strictly increase, whatever the clock reads. */
  lemma DeadlinesIncrease(states: seq<State>, k: nat, t: TaskId)
    requires IsRun(states) && k < |states|
    ensures Increasing(DeadlinesOf(states[k], t))
  {
    RunKeepsInv(states, k);
    assert TaskDeadlinesOk(states[k], t);
  }

  // ---------- Blocking ----------

  function SlotIds(workers: seq<Slot>): multiset<TaskId> {
    if workers == [] then multiset{}
    else (if workers[0].Free? then multiset{} else multiset{workers[0].task}) + SlotIds(workers[1..])
  }

  lemma SlotIdsCount(workers: seq<Slot>, t: TaskId)
    ensures SlotIds(workers)[t] == RunCount(workers, t) + ReturnCount(workers, t)
  {
  }

  lemma BusySlots(workers: seq<Slot>)
    requires forall i | 0 <= i < |workers| :: !workers[i].Free?
    ensures |SlotIds(workers)| == |workers|
  {
    if workers != [] {
      BusySlots(workers[1..]);
    }
  }

  /** The tasks on the move are at most all tasks. */
  lemma TasksOnTheMove(s: State)
    requires Partitioned(s)
    ensures |s.taskQ| + |s.todoQ| + Bit(s.hand.Some?) + |SlotIds(s.workers)| + |s.toAdd| <= |s.all|
  {
    var hand := if s.hand.Some? then multiset{s.hand.value} else multiset{};
    var moving := multiset(s.taskQ) + multiset(s.todoQ) + hand + SlotIds(s.workers) + multiset(s.toAdd);
    forall t ensures moving[t] <= multiset(s.all)[t] {
      assert InOnePlace(s, t);
      SlotIdsCount(s.workers, t);
    }
    var rest := multiset(s.all) - moving;
    assert moving + rest == multiset(s.all);
    assert |moving| + |rest| == |moving + rest| == |multiset(s.all)| == |s.all|;
    assert |moving| == |s.taskQ| + |s.todoQ| + |hand| + |SlotIds(s.workers)| + |s.toAdd|;
  }

  predicate DispatcherBlocked(s: State) {
    s.hand.Some? && |s.todoQ| >= TODO_Q_LEN
  }

  predicate WorkerBlocked(s: State, w: nat)
    requires w < |s.workers|
  {
    s.workers[w].Returning? && |s.taskQ| >= TASK_Q_LEN
  }

  /** With at most 128 + N tasks the dispatcher and the N workers are never all blocked on full queues. */
  lemma NoDeadlock(states: seq<State>, k: nat)
    requires IsRun(states) && k < |states|
    requires |states[k].all| <= TASK_Q_LEN + TODO_Q_LEN + |states[k].workers| && |states[k].workers| > 0
    ensures var s := states[k];
            !(DispatcherBlocked(s) && forall w | 0 <= w < |s.workers| :: WorkerBlocked(s, w))
  {
    RunKeepsInv(states, k);
    var s := states[k];
    TasksOnTheMove(s);
    if DispatcherBlocked(s) && forall w | 0 <= w < |s.workers| :: WorkerBlocked(s, w) {
      assert WorkerBlocked(s, 0);
      forall w | 0 <= w < |s.workers| ensures !s.workers[w].Free? {
        assert WorkerBlocked(s, w);
      }
      BusySlots(s.workers);
    }
  }

  lemma SlotIdsNotEmpty(workers: seq<Slot>, w: nat)
    requires w < |workers| && !workers[w].Free?
    ensures |SlotIds(workers)| > 0
  {
    if w > 0 {
      SlotIdsNotEmpty(workers[1..], w - 1);
    }
  }

  /** With at most 64 tasks no send ever blocks. */
  lemma NoSendBlocks(states: seq<State>, k: nat)
    requires IsRun(states) && k < |states| && |states[k].all| <= TASK_Q_LEN
    ensures var s := states[k];
            && !DispatcherBlocked(s)
            && (forall w | 0 <= w < |s.workers| :: !WorkerBlocked(s, w))
            && (s.toAdd != {} ==> |s.taskQ| < TASK_Q_LEN)
  {
    RunKeepsInv(states, k);
    var s := states[k];
    TasksOnTheMove(s);
    forall w | 0 <= w < |s.workers| ensures !WorkerBlocked(s, w) {
      if s.workers[w].Returning? {
        SlotIdsNotEmpty(s.workers, w);
      }
    }
    if s.toAdd != {} {
      var t :| t in s.toAdd;
      assert |s.toAdd| == |s.toAdd - {t}| + 1;
    }
  }

  // ---------- The dispatcher's code takes these steps ----------

  /** What the dispatcher does with a task from the task queue, up to the point where it waits again or is about to
      hand the task to the workers. */
  method Dispatch(s: State, now: int) returns (s': State, step: Step)
    requires Inv(s) && Waits(s) && s.taskQ != []
    ensures Next(s, step, s')
    ensures step == if s.taskQ[0] in s.byWorker then DispatchReadded(now)
                    else if D.NextMultiple(now, IntervalOf(s, s.taskQ[0])) - now < D.MIN_EXECUTION_PAUSE
                    then DispatchNear(now)
                    else DispatchNow(now)
  {
    var t := s.taskQ[0];
    var interval := IntervalOf(s, t);
    var nextDeadline := D.Truncate(now, interval) + interval;
    assert InOnePlace(s, t) && TaskStatsOk(s, t);
    HeadAndTail(s.taskQ, t);
    if t in s.byWorker {
      var deadlineHack, taskDelayed;
      nextDeadline, deadlineHack, taskDelayed := D.NextDeadline(now, Key(s.due, t), interval, LastExecuted(s, t));
      s' := Shelve(s, nextDeadline);
      s' := s'.(stats := Adjusted(s.stats, t, deadlineHack, taskDelayed));
      step := DispatchReadded(now);
    } else if nextDeadline - now < D.MIN_EXECUTION_PAUSE {
      s' := Shelve(s, nextDeadline);
      step := DispatchNear(now);
    } else {
      s' := WithDeadline(s, t, now).(
        taskQ := s.taskQ[1..], hand := Some(t), timer := None, stats := Scheduled(s.stats, t));
      step := DispatchNow(now);
    }
  }

  /** Pushes the task on the heap, cancels the timer if it is late and arms it again. */
  method Shelve(s: State, deadline: int) returns (s': State)
    requires Waits(s) && s.taskQ != [] && s.taskQ[0] !in s.heap && IsHeap(s.heap, s.due)
    ensures Shelves(s, deadline, s.stats, false, s')
  {
    var t := s.taskQ[0];
    var heap := new Heap(s.heap, s.due);
    heap.Push(t, deadline);
    var timer := s.timer;
    if timer.Some? && deadline < timer.value {
      timer := None;
    }
    if timer.None? && |heap.tasks| > 0 {
      timer := Some(Key(heap.deadline, heap.tasks[0]));
    }
    s' := WithDeadline(s, t, deadline).(taskQ := s.taskQ[1..], heap := heap.tasks, timer := timer);
  }

  /** What the dispatcher does when the timer fires: there is a task to pop. */
  method OnTimer(s: State) returns (s': State)
    requires Inv(s) && Waits(s) && s.timer.Some?
    ensures Next(s, Fire, s') && s'.hand.Some?
  {
    var heap := new Heap(s.heap, s.due);
    var t := heap.Pop();
    s' := s.(heap := heap.tasks, hand := Some(t), timer := None, stats := Scheduled(s.stats, t));
  }
}
