/** The credit based rate limiter: a quantity replenished at fixed intervals, perhaps capped, from which users take what
    they need, waiting until there is enough. */
module Credit {
  import opened Common

  const NO_LIMIT := 0
  const EXACT_MATCH := 0

  /** What is available, and the books: what was granted, what was lost to the cap, how many replenishments there
      were. */
  datatype State = State(current: int, granted: int, clipped: int, rounds: nat)

  /** Nothing is assumed of the quantities asked for: they may be negative. */
  datatype Event = Replenish | Get(desired: int, minAcceptable: int)

  /** The replenish value and the cap. */
  datatype Config = Config(value: int, max: int)

  /** A cap below the replenish value is raised to it. */
  function NewConfig(value: int, max: int): Config {
    Config(value, if max != NO_LIMIT && max < value then value else max)
  }

  predicate ConfigOk(c: Config) {
    c.max == NO_LIMIT || c.max >= c.value
  }

  function Start(c: Config): State {
    State(c.value, 0, 0, 0)
  }

  /** The least a request is served with. */
  function MinOf(desired: int, minAcceptable: int): (m: int)
    ensures m <= desired
    ensures desired > 0 && minAcceptable >= 0 ==> m > 0
  {
    if minAcceptable == EXACT_MATCH || minAcceptable > desired then desired else minAcceptable
  }

  predicate Ready(s: State, desired: int, minAcceptable: int) {
    s.current >= MinOf(desired, minAcceptable)
  }

  function Grant(s: State, desired: int): int {
    if s.current >= desired then desired else s.current
  }

  /** A replenishment, or a look at the credit by a request, which takes its share or goes on waiting. */
  function Step(s: State, e: Event, c: Config): State {
    match e
    case Replenish =>
      var sum := s.current + c.value;
      var capped := if c.max != NO_LIMIT && sum > c.max then c.max else sum;
      s.(current := capped, clipped := s.clipped + sum - capped, rounds := s.rounds + 1)
    case Get(desired, minAcceptable) =>
      if !Ready(s, desired, minAcceptable) then s
      else
        var got := Grant(s, desired);
        s.(current := s.current - got, granted := s.granted + got)
  }

  function Run(s: State, events: seq<Event>, c: Config): State {
    if events == [] then s else Step(Run(s, events[..|events| - 1], c), events[|events| - 1], c)
  }

  function Replenished(rounds: nat, value: int): int {
    rounds * value
  }

  /** No credit is made or lost: all that was ever replenished was granted, is there, or was clipped. */
  ghost predicate Books(s: State, c: Config) {
    && s.granted + s.current + s.clipped == Replenished(s.rounds + 1, c.value)
    && 0 <= s.clipped && (c.max == NO_LIMIT ==> s.clipped == 0)
  }

  predicate Requested(events: seq<Event>) {
    forall k | 0 <= k < |events| :: events[k].Get? ==> events[k].desired >= 0
  }

  lemma ReplenishedNext(rounds: nat, value: int)
    ensures Replenished(rounds + 1, value) == Replenished(rounds, value) + value
  {
  }

  lemma StepKeepsBooks(s: State, e: Event, c: Config)
    requires ConfigOk(c) && Books(s, c)
    ensures var s' := Step(s, e, c);
            && Books(s', c)
            && s'.rounds == s.rounds + Bit(e.Replenish?) && s'.clipped >= s.clipped
            && (c.value >= 0 && s.current >= 0 ==>
                  && s'.current >= 0
                  && ((e.Get? ==> e.desired >= 0) && s.current <= c.max != NO_LIMIT ==> s'.current <= c.max))
  {
    ReplenishedNext(s.rounds + 1, c.value);
  }

  lemma {:induction false} RunKeepsBooks(s: State, events: seq<Event>, c: Config)
    requires ConfigOk(c) && Books(s, c)
    ensures var s' := Run(s, events, c);
            && Books(s', c) && s'.rounds >= s.rounds && s'.clipped >= s.clipped
            && (c.value >= 0 && s.current >= 0 ==>
                  s'.current >= 0 && (Requested(events) && s.current <= c.max != NO_LIMIT ==> s'.current <= c.max))
    decreases |events|
  {
    if events != [] {
      var n := |events| - 1;
      RunKeepsBooks(s, events[..n], c);
      StepKeepsBooks(Run(s, events[..n], c), events[n], c);
    }
  }

  /** In every run of a new limiter the books balance; what is there is never above a cap as long as nothing negative is
      replenished or asked for. */
  lemma CreditIsConserved(events: seq<Event>, value: int, max: int)
    ensures var c := NewConfig(value, max);
            var s := Run(Start(c), events, c);
            && Books(s, c)
            && (c.max != NO_LIMIT && value >= 0 && Requested(events) ==> s.current <= c.max)
  {
    var c := NewConfig(value, max);
    assert Replenished(1, value) == value;
    RunKeepsBooks(Start(c), events, c);
  }

  /** What is there is never negative, whatever is asked for, exactly when the replenish value is not negative. */
  lemma NeverNegativeExactlyWhen(value: int, max: int)
    ensures var c := NewConfig(value, max);
            (forall events: seq<Event> :: Run(Start(c), events, c).current >= 0) <==> value >= 0
  {
    var c := NewConfig(value, max);
    assert Replenished(1, value) == value;
    if value >= 0 {
      forall events: seq<Event> ensures Run(Start(c), events, c).current >= 0 {
        RunKeepsBooks(Start(c), events, c);
      }
    } else {
      assert Run(Start(c), [], c).current < 0;
    }
  }

  /** A stretch of a run with k replenishments grants the credit it starts with plus k times the value, less what
      is left and what was clipped: no more than the first two. */
  lemma StretchIsLimited(s: State, events: seq<Event>, c: Config)
    requires ConfigOk(c) && Books(s, c)
    ensures var s' := Run(s, events, c);
            && s'.rounds >= s.rounds
            && s'.granted - s.granted ==
               s.current + Replenished(s'.rounds - s.rounds, c.value) - s'.current - (s'.clipped - s.clipped)
            && (s.current >= 0 && c.value >= 0 ==>
                  s'.granted - s.granted <= s.current + Replenished(s'.rounds - s.rounds, c.value))
  {
    RunKeepsBooks(s, events, c);
    ReplenishedSplits(s.rounds + 1, Run(s, events, c).rounds - s.rounds, c.value);
  }

  lemma ReplenishedSplits(a: nat, b: nat, value: int)
    ensures Replenished(a + b, value) == Replenished(a, value) + Replenished(b, value)
  {
  }

  // ---------- When a request is served ----------

  function Wait(s: State, n: nat, c: Config): State {
    if n == 0 then s else Step(Wait(s, n - 1, c), Replenish, c)
  }

  lemma {:induction false} WaitFills(s: State, n: nat, c: Config)
    requires ConfigOk(c)
    ensures var s' := Wait(s, n, c);
            && (c.value <= 0 ==> s'.current <= s.current)
            && (n > 0 && c.max != NO_LIMIT ==> s'.current <= c.max)
            && (c.value > 0 && n > 0 ==> s'.current >= s.current + n || (c.max != NO_LIMIT && s'.current == c.max))
  {
    if n > 0 {
      WaitFills(s, n - 1, c);
    }
  }

  predicate ReadyAfter(s: State, n: nat, desired: int, minAcceptable: int, c: Config) {
    Ready(Wait(s, n, c), desired, minAcceptable)
  }

  /** A request left alone is served, now or by some replenishment, if and only if there is enough now, or the replenish
      value is positive and a cap, if any, is no less than the least the request accepts. */
  lemma ServedExactlyWhen(s: State, desired: int, minAcceptable: int, c: Config)
    requires ConfigOk(c)
    ensures (exists n: nat :: ReadyAfter(s, n, desired, minAcceptable, c))
       <==> || Ready(s, desired, minAcceptable)
            || (c.value > 0 && (c.max == NO_LIMIT || MinOf(desired, minAcceptable) <= c.max))
  {
    var m := MinOf(desired, minAcceptable);
    if Ready(s, desired, minAcceptable) {
      var n: nat := 0;
      assert ReadyAfter(s, n, desired, minAcceptable, c);
    } else if c.value > 0 && (c.max == NO_LIMIT || m <= c.max) {
      var n: nat := m - s.current;
      WaitFills(s, n, c);
      assert ReadyAfter(s, n, desired, minAcceptable, c);
    } else {
      forall n: nat ensures !ReadyAfter(s, n, desired, minAcceptable, c) {
        WaitFills(s, n, c);
      }
    }
  }

  /** Without a replenish value even a request for 1 waits forever. */
  lemma NothingToServeExample()
    ensures var c := NewConfig(0, NO_LIMIT); forall n: nat :: !ReadyAfter(Start(c), n, 1, EXACT_MATCH, c)
  {
    var c := NewConfig(0, NO_LIMIT);
    ServedExactlyWhen(Start(c), 1, EXACT_MATCH, c);
  }

  /** A request for more than a cap waits forever, whatever others ask for. */
  lemma AboveCapNeverServed(s: State, desired: int, minAcceptable: int, c: Config, events: seq<Event>)
    requires ConfigOk(c) && Books(s, c) && c.value >= 0 && Requested(events)
    requires c.max != NO_LIMIT && 0 <= s.current <= c.max < MinOf(desired, minAcceptable)
    ensures !Ready(Run(s, events, c), desired, minAcceptable)
  {
    RunKeepsBooks(s, events, c);
  }

  // ---------- The limiter ----------

  class Controller {
    const replenishValue: int
    const max: int
    var current: int
    ghost var book: State

    ghost predicate Valid()
      reads this
    {
      ConfigOk(Conf()) && Books(book, Conf()) && book.current == current
    }

    ghost function Conf(): Config {
      Config(replenishValue, max)
    }

    constructor (replenishValue: int, max: int)
      ensures Valid() && Conf() == NewConfig(replenishValue, max) && book == Start(Conf())
    {
      this.replenishValue := replenishValue;
      this.max := if max != NO_LIMIT && max < replenishValue then replenishValue else max;
      current := replenishValue;
      book := Start(NewConfig(replenishValue, max));
      assert Replenished(1, replenishValue) == replenishValue;
    }

    /** One round of the replenishing goroutine. */
    method ReplenishOnce()
      requires Valid()
      modifies this
      ensures Valid() && book == Step(old(book), Replenish, Conf())
    {
      StepKeepsBooks(book, Replenish, Conf());
      book := Step(book, Replenish, Conf());
      current := current + replenishValue;
      if max != NO_LIMIT && current > max {
        current := max;
      }
    }

    /** What others do, under the lock, while this request waits. */
    method Others(events: seq<Event>)
      requires Valid()
      modifies this
      ensures Valid() && book == Run(old(book), events, Conf())
    {
      var k := 0;
      assert events[..|events|] == events;
      while k < |events|
        invariant 0 <= k <= |events| && Valid()
        invariant book == Run(old(book), events[..k], Conf())
      {
        assert events[..k + 1][..k] == events[..k];
        match events[k] {
          case Replenish => ReplenishOnce();
          case Get(desired, minAcceptable) =>
            var m := MinOf(desired, minAcceptable);
            if current >= m {
              var got := Take(desired, minAcceptable);
            }
        }
        k := k + 1;
      }
    }

    /** The part of a request after its wait. */
    method Take(desired: int, ghost minAcceptable: int) returns (got: int)
      requires Valid() && Ready(book, desired, minAcceptable)
      modifies this
      ensures Valid() && book == Step(old(book), Get(desired, minAcceptable), Conf())
      ensures MinOf(desired, minAcceptable) <= got <= desired && book.granted == old(book.granted) + got
      ensures got < desired ==> current == 0
    {
      StepKeepsBooks(book, Get(desired, minAcceptable), Conf());
      book := Step(book, Get(desired, minAcceptable), Conf());
      if current >= desired {
        got := desired;
      } else {
        got := current;
      }
      current := current - got;
    }

    /** A request. Each time it finds too little it waits, and `others` says what happens until it is woken up; it
        is still waiting if that runs out. */
    method GetCredit(desired: int, minAcceptable: int, others: seq<seq<Event>>)
      returns (got: Option<int>, ghost waits: nat)
      requires Valid()
      modifies this
      ensures Valid() && waits <= |others|
      ensures got.None? ==> book == RunAll(old(book), others, Conf()) && !Ready(book, desired, minAcceptable)
      ensures got.Some? ==>
                var s := RunAll(old(book), others[..waits], Conf());
                && Ready(s, desired, minAcceptable) && book == Step(s, Get(desired, minAcceptable), Conf())
                && MinOf(desired, minAcceptable) <= got.value <= desired && got.value == book.granted - s.granted
    {
      var minimum := MinOf(desired, minAcceptable);
      var k := 0;
      while current < minimum
        invariant 0 <= k <= |others| && Valid() && book == RunAll(old(book), others[..k], Conf())
        decreases |others| - k
      {
        if k == |others| {
          assert others[..k] == others;
          return None, k;
        }
        Others(others[k]);
        assert others[..k + 1][..k] == others[..k];
        k := k + 1;
      }
      var g := Take(desired, minAcceptable);
      return Some(g), k;
    }
  }

  function RunAll(s: State, all: seq<seq<Event>>, c: Config): State {
    if all == [] then s else Run(RunAll(s, all[..|all| - 1], c), all[|all| - 1], c)
  }
}
