/** The number of tasks up to which the scheduler cannot block for good is exact: with one task more there is a
    run in which the dispatcher and all workers wait on full queues. */
module SchedulerBound {
  import opened Common
  import opened TaskHeap
  import opened Scheduler
  import D = Deadlines

  predicate AllBlocked(s: State) {
    DispatcherBlocked(s) && forall w | 0 <= w < |s.workers| :: WorkerBlocked(s, w)
  }

  /** Then nothing happens any more. */
  lemma BlockedForGood(s: State, step: Step, s': State)
    requires AllBlocked(s) && s.workers != []
    ensures !Next(s, step, s')
  {
    assert WorkerBlocked(s, 0);
    if (step.Take? || step.Finish? || step.Requeue?) && step.w < |s.workers| {
      assert WorkerBlocked(s, step.w);
    }
  }

  ghost predicate DeadlocksAt(states: seq<State>, k: nat, workers: nat, tasks: nat) {
    && IsRun(states) && k < |states| && |states[k].workers| == workers && |states[k].all| == tasks
    && AllBlocked(states[k])
  }

  function Last(states: seq<State>): State
    requires states != []
  {
    states[|states| - 1]
  }

  lemma OneMoreStep(states: seq<State>, step: Step, s': State)
    requires IsRun(states) && Next(Last(states), step, s')
    ensures IsRun(states + [s']) && Last(states + [s']) == s'
  {
    var more := states + [s'];
    forall i | 0 <= i < |more| - 1 ensures CanFollow(more[i], more[i + 1]) {
      if i < |states| - 1 {
        assert CanFollow(states[i], states[i + 1]);
      }
    }
  }

  predicate Long(s: State, t: TaskId) {
    t in s.interval && s.interval[t] >= D.MIN_EXECUTION_PAUSE
  }

  /** No task was executed yet; those of the `left` new ones can be dispatched at once. */
  predicate Loading(s: State, left: nat) {
    && s.byWorker == {} && |s.toAdd| == left && s.heap == []
    && (forall t | t in s.toAdd :: Long(s, t)) && (forall t | t in s.taskQ :: Long(s, t))
  }

  /** What stays the same while tasks are moved around. */
  predicate SameCrew(s: State, s': State) {
    s'.workers == s.workers && s'.all == s.all
  }

  lemma AddOne(states: seq<State>, left: nat) returns (states': seq<State>)
    requires IsRun(states) && Loading(Last(states), left + 1) && |Last(states).taskQ| < TASK_Q_LEN
    ensures IsRun(states')
    ensures var s, s' := Last(states), Last(states');
            && Loading(s', left) && |s'.taskQ| == |s.taskQ| + 1 && SameCrew(s, s')
            && s'.hand == s.hand && s'.todoQ == s.todoQ
  {
    var s := Last(states);
    assert s.toAdd != {};
    var t :| t in s.toAdd;
    var s' := s.(toAdd := s.toAdd - {t}, taskQ := s.taskQ + [t]);
    OneMoreStep(states, Add(t), s');
    states' := states + [s'];
  }

  lemma DueAtOnce(d: int)
    requires d >= D.MIN_EXECUTION_PAUSE
    ensures D.NextMultiple(0, d) - 0 >= D.MIN_EXECUTION_PAUSE
  {
    assert 0 % d == 0;
  }

  /** A new task goes into the dispatcher's hand. */
  lemma DispatchOne(states: seq<State>, left: nat) returns (states': seq<State>)
    requires IsRun(states) && Loading(Last(states), left + 1) && Last(states).taskQ == [] && Last(states).hand.None?
    ensures IsRun(states')
    ensures var s, s' := Last(states), Last(states');
            Loading(s', left) && s'.taskQ == [] && s'.hand.Some? && SameCrew(s, s') && s'.todoQ == s.todoQ
  {
    var added := AddOne(states, left);
    var s := Last(added);
    var t := s.taskQ[0];
    assert t in s.taskQ && Long(s, t);
    DueAtOnce(IntervalOf(s, t));
    var s' := WithDeadline(s, t, 0).(
      taskQ := s.taskQ[1..], hand := Some(t), timer := None, stats := Scheduled(s.stats, t));
    OneMoreStep(added, DispatchNow(0), s');
    states' := added + [s'];
  }

  /** A new task goes to the end of the todo queue. */
  lemma QueueOne(states: seq<State>, left: nat) returns (states': seq<State>)
    requires IsRun(states) && Loading(Last(states), left + 1) && Last(states).taskQ == [] && Last(states).hand.None?
    requires |Last(states).todoQ| < TODO_Q_LEN
    ensures IsRun(states')
    ensures var s, s' := Last(states), Last(states');
            Loading(s', left) && s'.taskQ == [] && s'.hand.None? && SameCrew(s, s') && |s'.todoQ| == |s.todoQ| + 1
  {
    var held := DispatchOne(states, left);
    var s := Last(held);
    var s' := s.(hand := None, todoQ := s.todoQ + [s.hand.value], timer := Arm(s.timer, s.heap, s.due));
    OneMoreStep(held, Send, s');
    states' := held + [s'];
  }

  /** The first `busy` workers run a task, the others are free. */
  predicate Crew(s: State, busy: nat) {
    forall i | 0 <= i < |s.workers| :: if i < busy then s.workers[i].Running? else s.workers[i].Free?
  }

  lemma {:induction false} BusyWorkers(states: seq<State>, busy: nat, left: nat) returns (states': seq<State>)
    requires IsRun(states) && Loading(Last(states), left + busy) && Crew(Last(states), 0)
    requires var s := Last(states); s.taskQ == [] && s.hand.None? && s.todoQ == [] && busy <= |s.workers|
    ensures IsRun(states')
    ensures var s, s' := Last(states), Last(states');
            && Loading(s', left) && Crew(s', busy) && |s'.workers| == |s.workers| && s'.all == s.all
            && s'.taskQ == [] && s'.hand.None? && s'.todoQ == []
    decreases busy
  {
    if busy == 0 {
      states' := states;
    } else {
      var fewer := BusyWorkers(states, busy - 1, left + 1);
      var queued := QueueOne(fewer, left);
      var s, w := Last(queued), busy - 1;
      var s' := s.(todoQ := s.todoQ[1..], workers := s.workers[w := Running(s.todoQ[0])]);
      OneMoreStep(queued, Take(w), s');
      states' := queued + [s'];
    }
  }

  lemma {:induction false} FillTodo(states: seq<State>, n: nat, left: nat) returns (states': seq<State>)
    requires IsRun(states) && Loading(Last(states), left + n) && n <= TODO_Q_LEN
    requires var s := Last(states); s.taskQ == [] && s.hand.None? && s.todoQ == []
    ensures IsRun(states')
    ensures var s, s' := Last(states), Last(states');
            Loading(s', left) && SameCrew(s, s') && s'.taskQ == [] && s'.hand.None? && |s'.todoQ| == n
    decreases n
  {
    if n == 0 {
      states' := states;
    } else {
      var fewer := FillTodo(states, n - 1, left + 1);
      states' := QueueOne(fewer, left);
    }
  }

  lemma {:induction false} FillTasks(states: seq<State>, n: nat, left: nat) returns (states': seq<State>)
    requires IsRun(states) && Loading(Last(states), left + n) && n <= TASK_Q_LEN && Last(states).taskQ == []
    ensures IsRun(states')
    ensures var s, s' := Last(states), Last(states');
            Loading(s', left) && SameCrew(s, s') && |s'.taskQ| == n && s'.hand == s.hand && s'.todoQ == s.todoQ
    decreases n
  {
    if n == 0 {
      states' := states;
    } else {
      var fewer := FillTasks(states, n - 1, left + 1);
      states' := AddOne(fewer, left);
    }
  }

  /** The first `done` workers have executed their task and want to re-queue it, the others still run theirs. */
  predicate Done(s: State, done: nat) {
    forall i | 0 <= i < |s.workers| :: if i < done then s.workers[i].Returning? else s.workers[i].Running?
  }

  lemma {:induction false} FinishAll(states: seq<State>, done: nat) returns (states': seq<State>)
    requires IsRun(states) && Done(Last(states), 0) && done <= |Last(states).workers|
    ensures IsRun(states')
    ensures var s, s' := Last(states), Last(states');
            && Done(s', done) && |s'.workers| == |s.workers| && s'.all == s.all
            && s'.taskQ == s.taskQ && s'.hand == s.hand && s'.todoQ == s.todoQ
    decreases done
  {
    if done == 0 {
      states' := states;
    } else {
      var fewer := FinishAll(states, done - 1);
      var s, w := Last(fewer), done - 1;
      var t := s.workers[w].task;
      var s' := s.(lastExecuted := s.lastExecuted[t := 0],
                   stats := Executed(s.stats, t, false), faulted := s.faulted || t !in s.stats,
                   workers := s.workers[w := Returning(t)], byWorker := s.byWorker + {t});
      OneMoreStep(fewer, Finish(w, 0, false, true), s');
      states' := fewer + [s'];
    }
  }

  /** From any start with enough tasks all can be blocked. */
  lemma {:induction false} BlockAll(s0: State, left: nat) returns (states: seq<State>)
    requires Init(s0) && Loading(s0, left + |s0.workers| + TODO_Q_LEN + 1 + TASK_Q_LEN)
    ensures IsRun(states) && AllBlocked(Last(states))
    ensures |Last(states).workers| == |s0.workers| && Last(states).all == s0.all
  {
    var n := |s0.workers|;
    states := [s0];
    states := BusyWorkers(states, n, left + TASK_Q_LEN + 1 + TODO_Q_LEN);
    states := FillTodo(states, TODO_Q_LEN, left + TASK_Q_LEN + 1);
    states := DispatchOne(states, left + TASK_Q_LEN);
    states := FillTasks(states, TASK_Q_LEN, left);
    states := FinishAll(states, n);
  }

  function Ids(n: nat): (ids: set<TaskId>)
    ensures |ids| == n && forall t | t in ids :: t < n
  {
    if n == 0 then {} else Ids(n - 1) + {n - 1}
  }

  function Begin(workers: nat, tasks: nat): State {
    var ids := Ids(tasks);
    State(ids, map t | t in ids :: D.MIN_EXECUTION_PAUSE, map[], map[], map[], {}, ids, [], [], None, [],
          seq(workers, i => Free), {}, None, map[], false)
  }

  /** A run in which the dispatcher and all workers are blocked at once exists if and only if there are more than
      128 tasks and as many again as there are workers. */
  lemma DeadlockExactlyWhen(workers: nat, tasks: nat)
    requires workers > 0
    ensures (exists states, k: nat :: DeadlocksAt(states, k, workers, tasks)) <==>
            tasks > TASK_Q_LEN + TODO_Q_LEN + workers
  {
    if tasks > TASK_Q_LEN + TODO_Q_LEN + workers {
      var states := BlockAll(Begin(workers, tasks), tasks - (TASK_Q_LEN + TODO_Q_LEN + workers + 1));
      assert DeadlocksAt(states, |states| - 1, workers, tasks);
    } else {
      forall states, k: nat ensures !DeadlocksAt(states, k, workers, tasks) {
        if DeadlocksAt(states, k, workers, tasks) {
          NoDeadlock(states, k);
        }
      }
    }
  }
}
