/** The next task heap: the scheduler's slice of tasks, ordered by deadline with the sift up and sift down loops of
    Go's container/heap. */
module TaskHeap {

  type TaskId = nat
  type Deadlines = map<TaskId, int>

  function Key(due: Deadlines, t: TaskId): int {
    if t in due then due[t] else 0
  }

  function Parent(i: int): int
    requires i > 0
  {
    (i - 1) / 2
  }

  /** The task at `i` is not due before its parent. */
  predicate Ordered(h: seq<TaskId>, due: Deadlines, i: int)
    requires 0 <= i < |h|
  {
    i > 0 ==> Key(due, h[Parent(i)]) <= Key(due, h[i])
  }

  predicate IsHeap(h: seq<TaskId>, due: Deadlines) {
    forall i | 0 <= i < |h| :: Ordered(h, due, i)
  }

  /** The relations the dispatcher relies on. */
  predicate Pushed(h: seq<TaskId>, t: TaskId, h': seq<TaskId>, due: Deadlines) {
    IsHeap(h', due) && multiset(h') == multiset(h) + multiset{t}
  }

  predicate Popped(h: seq<TaskId>, t: TaskId, h': seq<TaskId>, due: Deadlines) {
    && IsHeap(h', due) && multiset(h) == multiset(h') + multiset{t}
    && forall x | x in h :: Key(due, t) <= Key(due, x)
  }

  lemma {:induction false} RootIsLeast(h: seq<TaskId>, due: Deadlines, i: nat)
    requires IsHeap(h, due) && i < |h|
    ensures Key(due, h[0]) <= Key(due, h[i])
  {
    if i > 0 {
      assert Ordered(h, due, i);
      RootIsLeast(h, due, Parent(i));
    }
  }

  /** The deadline at the root is the same for every heap of the same tasks. */
  lemma RootDeadline(h: seq<TaskId>, due: Deadlines, t: TaskId)
    requires IsHeap(h, due) && t in h && forall x | x in h :: Key(due, t) <= Key(due, x)
    ensures Key(due, h[0]) == Key(due, t)
  {
    var i :| 0 <= i < |h| && h[i] == t;
    RootIsLeast(h, due, i);
  }

  function Swapped(h: seq<TaskId>, i: nat, j: nat): (r: seq<TaskId>)
    requires i < |h| && j < |h|
    ensures |r| == |h|
    ensures forall k | 0 <= k < |h| :: r[k] == if k == i then h[j] else if k == j then h[i] else h[k]
    ensures multiset(r) == multiset(h)
  {
    h[i := h[j]][j := h[i]]
  }

  class Heap {
    var tasks: seq<TaskId>
    var deadline: Deadlines

    constructor (tasks: seq<TaskId>, deadline: Deadlines)
      ensures this.tasks == tasks && this.deadline == deadline
    {
      this.tasks, this.deadline := tasks, deadline;
    }

    predicate Less(i: nat, j: nat)
      requires i < |tasks| && j < |tasks|
      reads this
    {
      Key(deadline, tasks[i]) < Key(deadline, tasks[j])
    }

    /** Every task is in order but possibly the one at `j`; `j`'s children are in order with `j`'s parent. */
    ghost predicate OrderedBut(j: nat)
      reads this
    {
      && (forall i | 0 <= i < |tasks| && i != j :: Ordered(tasks, deadline, i))
      && (forall i | 0 < i < |tasks| && j > 0 && Parent(i) == j ::
            Key(deadline, tasks[Parent(j)]) <= Key(deadline, tasks[i]))
    }

    method Up(start: nat)
      requires start < |tasks| && OrderedBut(start)
      modifies this`tasks
      ensures IsHeap(tasks, deadline) && multiset(tasks) == old(multiset(tasks))
    {
      var j: nat := start;
      while true
        invariant j < |tasks| && OrderedBut(j)
        invariant multiset(tasks) == old(multiset(tasks))
        decreases j
      {
        if j == 0 || !Less(j, Parent(j)) {
          break;
        }
        var i: nat := Parent(j);
        ghost var h := tasks;
        tasks := Swapped(tasks, i, j);
        forall k | 0 <= k < |tasks| && k != i ensures Ordered(tasks, deadline, k) {
          if k != j {
            assert Ordered(h, deadline, k);
          }
        }
        forall k | 0 < k < |tasks| && i > 0 && Parent(k) == i
          ensures Key(deadline, tasks[Parent(i)]) <= Key(deadline, tasks[k])
        {
          assert Ordered(h, deadline, i);
          if k != j {
            assert Ordered(h, deadline, k);
          }
        }
        j := i;
      }
    }

    /** Among the first `n` tasks, all are in order but possibly the children of the one at `i`, and those are in order
        with `i`'s parent. */
    ghost predicate OrderedAbove(i: nat, n: nat)
      requires n <= |tasks|
      reads this
    {
      && (forall k | 0 < k < n && Parent(k) != i :: Ordered(tasks, deadline, k))
      && (forall k | 0 < k < n && i > 0 && Parent(k) == i :: Key(deadline, tasks[Parent(i)]) <= Key(deadline, tasks[k]))
    }

    method LeastChild(i: nat, n: nat) returns (j: nat)
      requires 2 * i + 1 < n <= |tasks|
      ensures 0 < j < n && Parent(j) == i
      ensures forall k | 0 < k < n && Parent(k) == i :: Key(deadline, tasks[j]) <= Key(deadline, tasks[k])
    {
      j := 2 * i + 1;
      if j + 1 < n && Less(j + 1, j) {
        j := j + 1;
      }
      forall k | 0 < k < n && Parent(k) == i ensures Key(deadline, tasks[j]) <= Key(deadline, tasks[k]) {
        assert k == 2 * i + 1 || k == 2 * i + 2;
      }
    }

    /** Once the children of `i` are in order with it, all are. */
    lemma Settled(i: nat, n: nat)
      requires n <= |tasks| && OrderedAbove(i, n)
      requires forall k | 0 < k < n && Parent(k) == i :: Key(deadline, tasks[i]) <= Key(deadline, tasks[k])
      ensures forall k | 0 <= k < n :: Ordered(tasks, deadline, k)
    {
    }

    method Down(start: nat, n: nat)
      requires start <= n < |tasks| && OrderedAbove(start, n)
      modifies this`tasks
      ensures |tasks| == |old(tasks)| && tasks[n] == old(tasks)[n] && multiset(tasks) == old(multiset(tasks))
      ensures forall k | 0 <= k < n :: Ordered(tasks, deadline, k)
    {
      var i: nat := start;
      while 2 * i + 1 < n
        invariant i <= n < |tasks| == |old(tasks)| && OrderedAbove(i, n)
        invariant tasks[n] == old(tasks)[n] && multiset(tasks) == old(multiset(tasks))
        decreases n - i
      {
        var j := LeastChild(i, n);
        if !Less(j, i) {
          break;
        }
        ghost var h := tasks;
        tasks := Swapped(tasks, i, j);
        SiftedDown(h, i, j, n);
        i := j;
      }
      Settled(i, n);
    }

    lemma SiftedDown(h: seq<TaskId>, i: nat, j: nat, n: nat)
      requires n <= |h| && j < n && j > 0 && Parent(j) == i && tasks == Swapped(h, i, j)
      requires forall k | 0 < k < n && Parent(k) != i :: Ordered(h, deadline, k)
      requires forall k | 0 < k < n && i > 0 && Parent(k) == i :: Key(deadline, h[Parent(i)]) <= Key(deadline, h[k])
      requires forall k | 0 < k < n && Parent(k) == i :: Key(deadline, h[j]) <= Key(deadline, h[k])
      requires Key(deadline, h[j]) < Key(deadline, h[i])
      ensures OrderedAbove(j, n)
    {
      forall k | 0 < k < n && Parent(k) != j ensures Ordered(tasks, deadline, k) {
        if Parent(k) != i {
          assert Ordered(h, deadline, k);
        }
      }
      forall k | 0 < k < n && Parent(k) == j ensures Key(deadline, tasks[Parent(j)]) <= Key(deadline, tasks[k]) {
        assert Ordered(h, deadline, k);
      }
    }

    /** Gives a task its deadline and adds it to the heap. */
    method Push(t: TaskId, due: int)
      requires IsHeap(tasks, deadline) && t !in tasks
      modifies this
      ensures deadline == old(deadline)[t := due]
      ensures Pushed(old(tasks), t, tasks, deadline)
    {
      ghost var h := tasks;
      deadline := deadline[t := due];
      tasks := tasks + [t];
      forall i | 0 <= i < |h| ensures Ordered(tasks, deadline, i) {
        assert Ordered(h, old(deadline), i);
        assert h[i] in h && (i > 0 ==> h[Parent(i)] in h);
      }
      Up(|tasks| - 1);
    }

    method Pop() returns (t: TaskId)
      requires IsHeap(tasks, deadline) && tasks != []
      modifies this`tasks
      ensures t == old(tasks)[0] && Popped(old(tasks), t, tasks, deadline)
    {
      ghost var h := tasks;
      forall x | x in h ensures Key(deadline, h[0]) <= Key(deadline, x) {
        var i :| 0 <= i < |h| && h[i] == x;
        RootIsLeast(h, deadline, i);
      }
      var n := |tasks| - 1;
      tasks := Swapped(tasks, 0, n);
      forall k | 0 < k < n && Parent(k) != 0 ensures Ordered(tasks, deadline, k) {
        assert Ordered(h, deadline, k);
      }
      Down(0, n);
      t := tasks[n];
      assert tasks == tasks[..n] + [t];
      ghost var g := tasks;
      tasks := tasks[..n];
      forall k | 0 <= k < |tasks| ensures Ordered(tasks, deadline, k) {
        assert Ordered(g, deadline, k);
      }
    }
  }
}
