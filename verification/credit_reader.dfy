/** The request body that is read no faster than credit allows, and offered again from its start to every retry. */
module CreditReader {
  import opened Common

  import opened Credit

  // ---------- Reading on values ----------

  /** The body, how much of it was read, and whether the reader is closed. */
  datatype Body = Body(b: Bytes, r: nat, closed: bool)

  /** A call with room for `size` bytes, and what the limiter grants if it is asked. */
  datatype Call = Call(size: nat, grant: nat)

  datatype Outcome = Outcome(bytes: Bytes, eof: bool)

  predicate Asks(body: Body, size: nat) {
    !body.closed && body.r < |body.b| && size > 0
  }

  function Desired(body: Body, size: nat): nat
    requires Asks(body, size)
  {
    if |body.b| - body.r < size then |body.b| - body.r else size
  }

  /** The grant is within the contract of the limiter. */
  predicate CallOk(body: Body, call: Call, minC: nat) {
    Asks(body, call.size) ==>
      MinOf(Desired(body, call.size), minC) <= call.grant <= Desired(body, call.size)
  }

  function ReadOutcome(body: Body, call: Call, minC: nat): Outcome
    requires CallOk(body, call, minC)
  {
    Outcome(if Asks(body, call.size) then body.b[body.r..body.r + call.grant] else [],
            !body.closed && body.r >= |body.b|)
  }

  function AfterRead(body: Body, call: Call): Body {
    if Asks(body, call.size) then body.(r := body.r + call.grant) else body
  }

  function Rewound(body: Body): Body {
    body.(r := 0, closed := false)
  }

  function Closed(body: Body): Body {
    body.(closed := true)
  }

  /** A run of reads: the body before each call and after the last one, and what each call returned. */
  datatype Reads = Reads(bodies: seq<Body>, calls: seq<Call>, outcomes: seq<Outcome>)

  ghost predicate IsRun(t: Reads, minC: nat) {
    && |t.bodies| == |t.calls| + 1 && |t.outcomes| == |t.calls|
    && forall k | 0 <= k < |t.calls| :: ReadAt(t, k, minC)
  }

  ghost predicate ReadAt(t: Reads, k: nat, minC: nat)
    requires |t.bodies| == |t.calls| + 1 && |t.outcomes| == |t.calls| && k < |t.calls|
  {
    && CallOk(t.bodies[k], t.calls[k], minC)
    && t.outcomes[k] == ReadOutcome(t.bodies[k], t.calls[k], minC)
    && t.bodies[k + 1] == AfterRead(t.bodies[k], t.calls[k])
  }

  function Concat(outcomes: seq<Outcome>): Bytes {
    if outcomes == [] then [] else Concat(outcomes[..|outcomes| - 1]) + outcomes[|outcomes| - 1].bytes
  }

  lemma ReadExtends(body: Body, call: Call, minC: nat, from: nat)
    requires CallOk(body, call, minC) && from <= body.r <= |body.b| && !body.closed
    ensures var out, body' := ReadOutcome(body, call, minC), AfterRead(body, call);
            && body'.b == body.b && !body'.closed && body.r <= body'.r <= |body.b|
            && body.b[from..body.r] + out.bytes == body.b[from..body'.r]
            && (out.eof <==> body.r == |body.b|)
            && (out.bytes != [] <==> call.size > 0 && body.r < |body.b|)
  {
  }

  /** Successive reads return consecutive slices of the body; every call with room returns at least one byte as long as
      there are any, and end of file is returned when, and only when, all were read. */
  lemma {:induction false} ReadsAreConsecutive(t: Reads, minC: nat, n: nat)
    requires IsRun(t, minC) && n <= |t.calls|
    requires t.bodies[0].r <= |t.bodies[0].b| && !t.bodies[0].closed
    ensures var first, last := t.bodies[0], t.bodies[n];
            && last.b == first.b && !last.closed && first.r <= last.r <= |first.b|
            && Concat(t.outcomes[..n]) == first.b[first.r..last.r]
    ensures forall k | 0 <= k < n :: EofAt(t, k) && ProgressAt(t, k)
  {
    if n == 0 {
      assert t.outcomes[..0] == [];
    } else {
      ReadsAreConsecutive(t, minC, n - 1);
      assert ReadAt(t, n - 1, minC);
      ReadExtends(t.bodies[n - 1], t.calls[n - 1], minC, t.bodies[0].r);
      assert t.outcomes[..n][..n - 1] == t.outcomes[..n - 1];
      assert EofAt(t, n - 1) && ProgressAt(t, n - 1);
    }
  }

  ghost predicate EofAt(t: Reads, k: nat)
    requires k < |t.bodies| && k < |t.outcomes|
  {
    t.outcomes[k].eof <==> t.bodies[k].r == |t.bodies[k].b|
  }

  ghost predicate ProgressAt(t: Reads, k: nat)
    requires k < |t.bodies| && k < |t.outcomes| && k < |t.calls|
  {
    t.outcomes[k].bytes != [] <==> t.calls[k].size > 0 && t.bodies[k].r < |t.bodies[k].b|
  }

  /** As many calls with room as there are bytes left are enough to get them all. */
  lemma {:induction false} ReadsComplete(t: Reads, minC: nat, n: nat)
    requires IsRun(t, minC) && n <= |t.calls|
    requires t.bodies[0].r <= |t.bodies[0].b| && !t.bodies[0].closed
    requires forall k | 0 <= k < n :: t.calls[k].size > 0
    ensures t.bodies[n].r >= t.bodies[0].r + n || t.bodies[n].r == |t.bodies[0].b|
  {
    ReadsAreConsecutive(t, minC, n);
    if n > 0 {
      ReadsComplete(t, minC, n - 1);
      ReadsAreConsecutive(t, minC, n - 1);
      assert ReadAt(t, n - 1, minC) && ProgressAt(t, n - 1);
    }
  }

  /** However far an attempt got, and although the client closed the body, the next one is offered all of it. */
  lemma RetryOffersFullBody(used: Body, t: Reads, minC: nat)
    requires IsRun(t, minC) && t.bodies[0] == Rewound(used)
    requires forall k | 0 <= k < |t.calls| :: t.calls[k].size > 0
    requires |t.calls| >= |used.b|
    ensures Concat(t.outcomes) == used.b
  {
    var n := |t.calls|;
    ReadsAreConsecutive(t, minC, n);
    ReadsComplete(t, minC, n);
    assert t.outcomes[..n] == t.outcomes;
    assert used.b[0..|used.b|] == used.b;
  }

  // ---------- The reader ----------

  class Reader {
    const cc: Controller
    const minC: nat
    const b: Bytes
    var r: nat
    var closed: bool

    ghost function View(): Body
      reads this
    {
      Body(b, r, closed)
    }

    constructor (cc: Controller, minAcceptable: int, b: Bytes)
      ensures this.cc == cc && minC == (if minAcceptable < 0 then 0 else minAcceptable) && View() == Body(b, 0, false)
    {
      this.cc, this.minC, this.b := cc, if minAcceptable < 0 then 0 else minAcceptable, b;
      r, closed := 0, false;
    }

    method Rewind()
      modifies this
      ensures View() == Rewound(old(View()))
    {
      r, closed := 0, false;
    }

    method Close()
      modifies this
      ensures View() == Closed(old(View()))
    {
      closed := true;
    }

    /** Reads into `p`. `others` is what happens to the limiter while the call waits for credit; `blocked` if it
        is still waiting after that. A call that returns has spent one credit per byte. */
    method Read(p: array<Byte>, others: seq<seq<Event>>) returns (n: nat, eof: bool, blocked: bool, ghost spent: nat)
      requires cc.Valid()
      modifies this, p, cc
      ensures cc.Valid() && n <= p.Length && p[n..] == old(p[n..])
      ensures blocked ==> View() == old(View()) && n == 0 && Asks(old(View()), p.Length)
      ensures blocked ==> cc.book == RunAll(old(cc.book), others, cc.Conf())
      ensures !blocked ==> var call := Call(p.Length, spent);
                           && CallOk(old(View()), call, minC) && View() == AfterRead(old(View()), call)
                           && Outcome(p[..n], eof) == ReadOutcome(old(View()), call, minC)
      ensures spent == n
      ensures !Asks(old(View()), p.Length) ==> !blocked && cc.book == old(cc.book)
      ensures !blocked && Asks(old(View()), p.Length) ==>
                exists waits: nat :: waits <= |others| && SpentAfter(old(cc.book), others[..waits], cc.book, spent)
    {
      n, eof, blocked, spent := 0, false, false, 0;
      if closed {
        return;
      }
      var available := |b| - r;
      if available <= 0 {
        eof := true;
        return;
      }
      var toRead := p.Length;
      if toRead == 0 {
        return;
      }
      if available < toRead {
        toRead := available;
      }
      var got;
      ghost var waits;
      got, waits := cc.GetCredit(toRead, minC, others);
      if got.None? {
        blocked := true;
        return;
      }
      n, spent := got.value, got.value;
      assert SpentAfter(old(cc.book), others[..waits], cc.book, spent);
      var s := r;
      r := r + n;
      forall i | 0 <= i < n {
        p[i] := b[s + i];
      }
      assert p[..n] == b[s..r];
    }

    /** The read took `spent` from the limiter, as it was after the others had their turns. */
    ghost predicate SpentAfter(before: State, others: seq<seq<Event>>, after: State, spent: nat) {
      var s := RunAll(before, others, cc.Conf());
      after == s.(current := s.current - spent, granted := s.granted + spent)
    }
  }
}
