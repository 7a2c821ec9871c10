/** How the scheduler picks intervals and deadlines. Times and durations are integers (nanoseconds). */
module Deadlines {
  import opened Common
  import opened Arithmetic

  const MILLISECOND := 1000000
  const GRANULARITY := 20 * MILLISECOND
  const MIN_EXECUTION_PAUSE := 2 * GRANULARITY

  /** Go truncates durations towards zero ... */
  function TruncatedInterval(interval: int): int {
    if interval >= 0 then interval - interval % GRANULARITY else -((-interval) - (-interval) % GRANULARITY)
  }

  /** ... and times towards the past. */
  function Truncate(t: int, d: int): int
    requires d > 0
  {
    t - t % d
  }

  /** The first multiple of `d` after `t`. */
  function NextMultiple(t: int, d: int): int
    requires d > 0
  {
    Truncate(t, d) + d
  }

  predicate IsMultiple(t: int, d: int)
    requires d > 0
  {
    t % d == 0
  }

  /** The nearest multiple of the granularity, halves rounded up, but no less than the minimum pause. */
  method CompliantTaskInterval(interval: int) returns (r: int)
    ensures IsMultiple(r, GRANULARITY) && r >= MIN_EXECUTION_PAUSE
    ensures if interval >= MIN_EXECUTION_PAUSE - GRANULARITY / 2
            then interval - GRANULARITY / 2 < r <= interval + GRANULARITY / 2
            else r == MIN_EXECUTION_PAUSE
    ensures IsMultiple(interval, GRANULARITY) && interval >= MIN_EXECUTION_PAUSE ==> r == interval
  {
    r := TruncatedInterval(interval);
    if interval - r >= GRANULARITY / 2 {
      r := r + GRANULARITY;
    }
    if r < MIN_EXECUTION_PAUSE {
      r := MIN_EXECUTION_PAUSE;
    }
  }

  lemma MultipleForm(t: int, d: int)
    requires d > 0 && IsMultiple(t, d)
    ensures t == (t / d) * d
  {
  }

  lemma MultipleOf(q: int, d: int)
    requires d > 0
    ensures IsMultiple(q * d, d)
  {
    ModIsUnique(q * d, d, q, 0);
  }

  /** `NextMultiple` is what it says: the least multiple that exceeds `t`. */
  lemma NextMultipleIsLeast(t: int, d: int, m: int)
    requires d > 0
    ensures t < NextMultiple(t, d) && IsMultiple(NextMultiple(t, d), d)
    ensures IsMultiple(m, d) && m > t ==> m >= NextMultiple(t, d)
  {
    var q := t / d;
    assert t == q * d + t % d;
    assert NextMultiple(t, d) == (q + 1) * d;
    MultipleOf(q + 1, d);
    if IsMultiple(m, d) && m > t {
      MultipleForm(m, d);
      var p := m / d;
      if p < q {
        MulStep(p, q, d);
      } else if p > q + 1 {
        MulStep(q + 1, p, d);
      }
    }
  }

  lemma MultiplesStep(m: int, d: int)
    requires d > 0 && IsMultiple(m, d)
    ensures IsMultiple(m + d, d)
  {
    assert m + d == (m / d + 1) * d;
    MultipleOf(m / d + 1, d);
  }

  /** The deadline of a re-added task. */
  function ReaddedDeadline(now: int, previous: int, interval: int, lastExecuted: int): int
    requires interval > 0
  {
    Max(NextMultiple(Max(now, previous), interval), lastExecuted + MIN_EXECUTION_PAUSE)
  }

  /** The least multiple after `now` that also exceeds `previous` is reached by whole intervals. */
  lemma NextMultipleOfMax(now: int, previous: int, d: int, next: int)
    requires d > 0 && IsMultiple(next, d)
    requires NextMultiple(now, d) <= next && previous < next
    requires next == NextMultiple(now, d) || previous >= next - d
    ensures next == NextMultiple(Max(now, previous), d)
  {
    var t := Max(now, previous);
    NextMultipleIsLeast(now, d, next);
    NextMultipleIsLeast(t, d, next);
    if next != NextMultiple(now, d) {
      var least := NextMultiple(t, d);
      assert least > previous >= next - d;
      assert least <= next;
      MultiplesApart(least, next, d);
    } else {
      NextMultipleIsLeast(now, d, NextMultiple(t, d));
    }
  }

  lemma MultiplesApart(a: int, b: int, d: int)
    requires d > 0 && IsMultiple(a, d) && IsMultiple(b, d) && b - d < a <= b
    ensures a == b
  {
    MultipleForm(a, d);
    MultipleForm(b, d);
    var p, q := a / d, b / d;
    if p < q {
      MulStep(p, q, d);
    } else if p > q {
      MulStep(q, p, d);
    }
  }

  /** The dispatcher's loop for a re-added task, which also copes with a clock that went backwards. */
  method NextDeadline(now: int, previous: int, interval: int, lastExecuted: int)
    returns (deadline: int, deadlineHack: bool, taskDelayed: bool)
    requires interval > 0
    ensures deadline == ReaddedDeadline(now, previous, interval, lastExecuted)
    ensures deadlineHack <==> previous >= NextMultiple(now, interval)
    ensures taskDelayed <==> NextMultiple(Max(now, previous), interval) < lastExecuted + MIN_EXECUTION_PAUSE
  {
    deadline := Truncate(now, interval) + interval;
    deadlineHack, taskDelayed := false, false;
    NextMultipleIsLeast(now, interval, deadline);
    while !(previous < deadline)
      invariant IsMultiple(deadline, interval) && deadline >= NextMultiple(now, interval)
      invariant deadline == NextMultiple(now, interval) || previous >= deadline - interval
      invariant deadlineHack <==> deadline != NextMultiple(now, interval)
      invariant deadlineHack ==> previous >= NextMultiple(now, interval)
      decreases previous - deadline
    {
      MultiplesStep(deadline, interval);
      deadline := deadline + interval;
      deadlineHack := true;
    }
    NextMultipleOfMax(now, previous, interval, deadline);
    if deadline < lastExecuted + MIN_EXECUTION_PAUSE {
      deadline := lastExecuted + MIN_EXECUTION_PAUSE;
      taskDelayed := true;
    }
  }

  /** Whatever the clock reads, a re-added task is due after its previous deadline, at the least multiple of its
      interval after both or at its last execution plus the minimum pause. */
  lemma ReaddedIsLater(now: int, previous: int, interval: int, lastExecuted: int, m: int)
    requires interval > 0
    ensures var r := ReaddedDeadline(now, previous, interval, lastExecuted);
            && r > previous && r > now && r >= lastExecuted + MIN_EXECUTION_PAUSE
            && (IsMultiple(r, interval) || r == lastExecuted + MIN_EXECUTION_PAUSE)
            && (IsMultiple(m, interval) && m > now && m > previous && m >= lastExecuted + MIN_EXECUTION_PAUSE ==>
                  m >= r)
  {
    NextMultipleIsLeast(Max(now, previous), interval, m);
  }
}
