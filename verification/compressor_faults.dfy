/** When a flush goes wrong: it closes a writer that was never created, or sends the gzip buffer a second time.
    Both take a read limit that is not positive. */
module CompressorFaults {
  import opened Common
  import opened Compressor

  // ---------- Writers ----------

  /** A loop that has no writer yet has nothing to flush. */
  predicate WriterOk(w: Worker) {
    !w.hasWriter ==> w.byteLimit >= 1 && !w.doSend && w.indices == [] && w.byteCount == 0
  }

  lemma StepKeepsWriter(s: State, e: Event, cfg: Config, i: nat)
    requires i < |s.workers| && WriterOk(s.workers[i]) && WorkerOk(s, s.workers[i])
    requires e.Receive? ==> e.writeOk
    ensures var s' := Step(s, e, cfg); |s'.workers| == |s.workers| && WriterOk(s'.workers[i])
  {
  }

  predicate WritersOk(s: State) {
    forall i | 0 <= i < |s.workers| :: WriterOk(s.workers[i])
  }

  lemma StepKeepsWriters(s: State, e: Event, cfg: Config)
    requires Inv(s) && !s.faulted && WritersOk(s) && (e.Receive? ==> e.writeOk)
    ensures !Step(s, e, cfg).faulted && WritersOk(Step(s, e, cfg))
  {
    forall i | 0 <= i < |s.workers| ensures WriterOk(Step(s, e, cfg).workers[i]) {
      StepKeepsWriter(s, e, cfg, i);
    }
  }

  /** Without write errors a writer, once created, stays, and until then there is nothing to flush. */
  lemma {:induction false} RunKeepsWriters(n: nat, events: seq<Event>, cfg: Config)
    requires cfg.batchTargetSize >= 1 && NoWriteErrors(events)
    ensures !Run(Init(n, cfg), events, cfg).faulted && WritersOk(Run(Init(n, cfg), events, cfg))
  {
    if events == [] {
      NewWorkerOk(cfg);
    } else {
      var init, last := events[..|events| - 1], events[|events| - 1];
      RunKeepsWriters(n, init, cfg);
      RunKeepsInv(n, init, cfg);
      StepKeepsWriters(Run(Init(n, cfg), init, cfg), last, cfg);
    }
  }

  predicate LimitsPositive(s: State) {
    forall i | 0 <= i < |s.workers| :: s.workers[i].byteLimit >= 1
  }

  /** With a positive read limit a flush has a batch, and so a writer. */
  lemma FlushHasBatch(s: State, e: Event, cfg: Config)
    requires Inv(s) && e.Flush? && Enabled(s, e, cfg) && s.workers[e.w].byteLimit >= 1
    ensures s.workers[e.w].indices != [] && s.workers[e.w].hasWriter
  {
    assert WorkerOk(s, s.workers[e.w]);
  }

  /** As long as batches compress, nothing goes wrong even with write errors: no fault, no empty batch. */
  lemma {:induction false} RunNeverFaults(n: nat, events: seq<Event>, cfg: Config)
    requires cfg.batchTargetSize >= 1 && AlwaysCompresses(Init(n, cfg), events, cfg)
    ensures var s := Run(Init(n, cfg), events, cfg);
            !s.faulted && forall i | 0 <= i < |s.sent| :: s.sent[i].indices != []
  {
    if events != [] {
      var init, last := events[..|events| - 1], events[|events| - 1];
      assert forall k | 0 <= k < |init| :: init[..k] == events[..k] && init[k] == events[k];
      RunNeverFaults(n, init, cfg);
      RunKeepsInv(n, init, cfg);
      RunKeepsLimits(n, init, cfg);
      var s := Run(Init(n, cfg), init, cfg);
      if last.Flush? && Enabled(s, last, cfg) {
        LimitOkIsPositive(s.workers[last.w], cfg);
        FlushHasBatch(s, last, cfg);
      }
    }
  }

  lemma LimitOkIsPositive(w: Worker, cfg: Config)
    requires LimitOk(w, cfg)
    ensures w.byteLimit >= 1
  {
  }

  /** Without a positive target, closing an idle pool closes a writer that was never created. */
  lemma ZeroTargetFaults(n: nat, cfg: Config)
    requires n >= 1 && cfg.batchTargetSize <= 0
    ensures var events := [Close, Receive(0, true), Flush(0, 0)];
            && NoWriteErrors(events) && AlwaysCompresses(Init(n, cfg), events, cfg)
            && Run(Init(n, cfg), events, cfg).faulted
  {
    var e0, e1, e2 := Close, Receive(0, true), Flush(0, 0);
    var s0 := Init(n, cfg);
    var s1 := Step(s0, e0, cfg);
    var s2 := Step(s1, e1, cfg);
    assert s0.workers[0].byteLimit <= 0 by {
      assert cfg.batchTargetSize as real * InitialCF(cfg) <= 0.0;
    }
    assert s2.workers[0].doSend && !s2.workers[0].hasWriter;
    RunThree(s0, e0, e1, e2, cfg);
  }

  lemma RunTwo(s: State, e0: Event, e1: Event, cfg: Config)
    ensures Run(s, [e0], cfg) == Step(s, e0, cfg)
    ensures Run(s, [e0, e1], cfg) == Step(Step(s, e0, cfg), e1, cfg)
  {
    assert [e0][..0] == [];
    assert Run(s, [e0], cfg) == Step(s, e0, cfg);
    assert [e0, e1][..1] == [e0];
  }

  lemma RunThree(s: State, e0: Event, e1: Event, e2: Event, cfg: Config)
    ensures Run(s, [e0, e1, e2], cfg) == Step(Step(Step(s, e0, cfg), e1, cfg), e2, cfg)
    ensures Run(s, [e0, e1, e2][..0], cfg) == s && Run(s, [e0, e1, e2][..1], cfg) == Step(s, e0, cfg)
    ensures Run(s, [e0, e1, e2][..2], cfg) == Step(Step(s, e0, cfg), e1, cfg)
  {
    RunTwo(s, e0, e1, cfg);
    assert [e0, e1, e2][..0] == [] && [e0, e1, e2][..1] == [e0] && [e0, e1, e2][..2] == [e0, e1];
  }

  /** A run without write errors, or one whose batches compress, never closes a writer that was not created exactly when
      the batch target size is positive. */
  lemma FaultFreeExactlyWhen(n: nat, cfg: Config)
    requires n >= 1
    ensures cfg.batchTargetSize >= 1 <==>
            forall events | NoWriteErrors(events) :: !Run(Init(n, cfg), events, cfg).faulted
    ensures cfg.batchTargetSize >= 1 <==>
            forall events | AlwaysCompresses(Init(n, cfg), events, cfg) :: !Run(Init(n, cfg), events, cfg).faulted
  {
    if cfg.batchTargetSize >= 1 {
      forall events | NoWriteErrors(events) ensures !Run(Init(n, cfg), events, cfg).faulted {
        RunKeepsWriters(n, events, cfg);
      }
      forall events | AlwaysCompresses(Init(n, cfg), events, cfg) ensures !Run(Init(n, cfg), events, cfg).faulted {
        RunNeverFaults(n, events, cfg);
      }
    } else {
      ZeroTargetFaults(n, cfg);
      var events := [Close, Receive(0, true), Flush(0, 0)];
      assert NoWriteErrors(events) && AlwaysCompresses(Init(n, cfg), events, cfg);
    }
  }

  // ---------- Read limits that are not positive ----------

  /** No new batch of these counts for the compression factor. A flush that sends an old one again may. */
  predicate Small(events: seq<Event>) {
    forall k | 0 <= k < |events| :: events[k].Flush? ==> events[k].gzSize < MIN_SIZE_FOR_CF
  }

  lemma {:induction false} RunConcat(s: State, a: seq<Event>, b: seq<Event>, cfg: Config)
    ensures Run(s, a + b, cfg) == Run(Run(s, a, cfg), b, cfg)
    decreases |b|
  {
    if b == [] {
      assert a + b == a;
    } else {
      assert (a + b)[..|a + b| - 1] == a + b[..|b| - 1];
      RunConcat(s, a, b[..|b| - 1], cfg);
    }
  }

  lemma RunFirst(s: State, e: Event, rest: seq<Event>, cfg: Config)
    ensures Run(s, [e] + rest, cfg) == Run(Step(s, e, cfg), rest, cfg)
  {
    RunConcat(s, [e], rest, cfg);
    assert [e][..0] == [];
  }

  /** A positive read limit stays: there is a new batch in every flush. */
  lemma StepKeepsPositive(s: State, e: Event, cfg: Config)
    requires Inv(s) && LimitsPositive(s) && (e.Flush? ==> e.gzSize < MIN_SIZE_FOR_CF)
    ensures LimitsPositive(Step(s, e, cfg))
  {
    var s' := Step(s, e, cfg);
    forall i | 0 <= i < |s'.workers| ensures s'.workers[i].byteLimit >= 1 {
      assert WorkerOk(s, s.workers[i]);
      LimitUnchanged(s, e, cfg, i);
    }
  }

  lemma {:induction false} PositiveNeverFaults(s: State, events: seq<Event>, cfg: Config)
    requires Inv(s) && !s.faulted && LimitsPositive(s) && Small(events)
    ensures var s' := Run(s, events, cfg); Inv(s') && LimitsPositive(s') && !s'.faulted
    decreases |events|
  {
    if events != [] {
      var init, last := events[..|events| - 1], events[|events| - 1];
      PositiveNeverFaults(s, init, cfg);
      var mid := Run(s, init, cfg);
      StepKeepsInv(mid, last, cfg);
      StepKeepsPositive(mid, last, cfg);
      if last.Flush? && Enabled(mid, last, cfg) {
        FlushHasBatch(mid, last, cfg);
      }
    }
  }

  /** What is left to do for a loop until its last flush. */
  function Left(s: State, w: nat): nat
    requires w < |s.workers| && s.taken <= |s.history|
  {
    4 * (|s.history| - s.taken) + 2 * (Bit(!s.closed) + Bit(s.workers[w].isOpen)) + Bit(s.workers[w].doSend)
  }

  lemma LimitBelowOne(target: int, cf: real)
    ensures ByteLimit(target, cf) <= 0 <==> target as real * cf < 1.0
  {
  }

  /** Sending a batch again, or one too small to count, does not make a read limit positive. */
  lemma FlushKeepsNonPositive(w: Worker, cfg: Config)
    requires Tied(w, cfg) && w.byteLimit <= 0 && (w.indices == [] <==> w.byteCount == 0)
    ensures OnFlush(w, 0, cfg).byteLimit <= 0
  {
    if SizeOf(w, 0) >= MIN_SIZE_FOR_CF {
      var t, cf := cfg.batchTargetSize as real, w.estimatedCF;
      LimitBelowOne(cfg.batchTargetSize, cf);
      assert (1.0 - ALPHA) * (w.byteCount as real / SizeOf(w, 0) as real) + ALPHA * cf == ALPHA * cf;
      assert t * (ALPHA * cf) == ALPHA * (t * cf);
      LimitBelowOne(cfg.batchTargetSize, ALPHA * cf);
    }
  }

  /** A loop whose read limit is not positive moves on: it flushes, reads, or finds the channel closed. */
  lemma Moves(s: State, e: Event, w: nat, cfg: Config)
    requires Inv(s) && AllTied(s, cfg) && w < |s.workers| && Enabled(s, e, cfg) && s.workers[w].byteLimit <= 0
    requires e == Flush(w, 0) || e == Receive(w, true) || (e == Close && s.taken == |s.history|)
    ensures var s' := Step(s, e, cfg);
            && Inv(s') && AllTied(s', cfg) && |s'.workers| == |s.workers| && Left(s', w) < Left(s, w)
            && s'.workers[w].byteLimit <= 0
            && (e != Close ==> s'.closed == s.closed) && |s'.sent| >= |s.sent|
            && (s.workers[w].isOpen ==> CanResend(s'.workers[w]))
  {
    StepKeepsInv(s, e, cfg);
    StepKeepsAllTied(s, e, cfg);
    assert WorkerOk(s, s.workers[w]);
    if e.Flush? {
      Flushes(s, e, cfg);
      FlushKeepsNonPositive(s.workers[w], cfg);
    } else {
      LimitUnchanged(s, e, cfg, w);
    }
  }

  /** A loop whose read limit is not positive can be made to close a missing writer: a failed write drops the writer and
      the empty batch is flushed at once. */
  lemma {:induction false} FaultFrom(s: State, w: nat, cfg: Config) returns (events: seq<Event>)
    requires Inv(s) && AllTied(s, cfg) && !s.closed && w < |s.workers| && s.workers[w].byteLimit <= 0
    ensures Small(events) && Run(s, events, cfg).faulted
    decreases Left(s, w)
  {
    assert WorkerOk(s, s.workers[w]);
    if s.workers[w].doSend {
      events := FaultNext(s, Flush(w, 0), w, cfg);
    } else if s.taken < |s.history| {
      if s.history[s.taken] == [] {
        events := FaultNext(s, Receive(w, true), w, cfg);
      } else {
        events := [Receive(w, false), Flush(w, 0)];
        RunTwo(s, events[0], events[1], cfg);
      }
    } else {
      events := [Queue([0]), Receive(w, false), Flush(w, 0)];
      RunThree(s, events[0], events[1], events[2], cfg);
      var s1 := Step(s, Queue([0]), cfg);
      assert s1.workers == s.workers && s1.history[s1.taken] == [0];
    }
  }

  lemma FaultsLater(s: State, e: Event, rest: seq<Event>, cfg: Config)
    requires (e.Flush? ==> e.gzSize < MIN_SIZE_FOR_CF) && Small(rest) && Run(Step(s, e, cfg), rest, cfg).faulted
    ensures Small([e] + rest) && Run(s, [e] + rest, cfg).faulted
  {
    RunFirst(s, e, rest, cfg);
  }

  lemma {:induction false} FaultNext(s: State, e: Event, w: nat, cfg: Config) returns (events: seq<Event>)
    requires Inv(s) && AllTied(s, cfg) && !s.closed && w < |s.workers| && s.workers[w].byteLimit <= 0
    requires Enabled(s, e, cfg) && (e == Flush(w, 0) || e == Receive(w, true))
    ensures Small(events) && Run(s, events, cfg).faulted
    decreases Left(s, w), 0
  {
    Moves(s, e, w, cfg);
    var rest := FaultFrom(Step(s, e, cfg), w, cfg);
    FaultsLater(s, e, rest, cfg);
    events := [e] + rest;
  }

  /** While the channel is open, and with the compression factors as they are, a fault can happen exactly when some read
      limit is not positive. */
  lemma FaultExactlyWhen(s: State, cfg: Config)
    requires Inv(s) && AllTied(s, cfg) && !s.faulted && !s.closed
    ensures (exists events :: Small(events) && Run(s, events, cfg).faulted) <==> !LimitsPositive(s)
  {
    if LimitsPositive(s) {
      forall events | Small(events) ensures !Run(s, events, cfg).faulted {
        PositiveNeverFaults(s, events, cfg);
      }
    } else {
      var w :| 0 <= w < |s.workers| && s.workers[w].byteLimit < 1;
      var events := FaultFrom(s, w, cfg);
    }
  }

  /** Some batch after the first `from` is empty: the gzip buffer was sent again. */
  ghost predicate Resends(s: State, from: nat) {
    exists i :: from <= i < |s.sent| && s.sent[i].indices == []
  }

  predicate CanResend(w: Worker) {
    w.byteLimit <= 0 && (w.isOpen || (w.doSend && w.indices == []))
  }

  predicate NoneCanResend(s: State) {
    forall i | 0 <= i < |s.workers| :: !CanResend(s.workers[i])
  }

  lemma StepCannotResend(s: State, e: Event, cfg: Config)
    requires Inv(s) && NoneCanResend(s) && (e.Flush? ==> e.gzSize < MIN_SIZE_FOR_CF)
    ensures NoneCanResend(Step(s, e, cfg)) && s.sent <= Step(s, e, cfg).sent
    ensures forall from: nat | from <= |s.sent| && !Resends(s, from) :: !Resends(Step(s, e, cfg), from)
  {
    var s' := Step(s, e, cfg);
    forall i | 0 <= i < |s'.workers| ensures !CanResend(s'.workers[i]) {
      assert WorkerOk(s, s.workers[i]);
      LimitUnchanged(s, e, cfg, i);
      assert !CanResend(s.workers[i]);
    }
    if e.Flush? && Enabled(s, e, cfg) {
      assert WorkerOk(s, s.workers[e.w]) && !CanResend(s.workers[e.w]);
    }
  }

  lemma {:induction false} SmallCannotResend(s: State, events: seq<Event>, cfg: Config)
    requires Inv(s) && NoneCanResend(s) && Small(events)
    ensures var s' := Run(s, events, cfg);
            Inv(s') && NoneCanResend(s') && |s'.sent| >= |s.sent| && !Resends(s', |s.sent|)
    decreases |events|
  {
    if events != [] {
      var init, last := events[..|events| - 1], events[|events| - 1];
      SmallCannotResend(s, init, cfg);
      StepKeepsInv(Run(s, init, cfg), last, cfg);
      StepCannotResend(Run(s, init, cfg), last, cfg);
    }
  }

  /** A loop whose read limit is not positive can be made to send its gzip buffer again: read all there is, close. */
  lemma {:induction false} ResendFrom(s: State, w: nat, cfg: Config) returns (events: seq<Event>)
    requires Inv(s) && AllTied(s, cfg) && w < |s.workers| && CanResend(s.workers[w])
    ensures Small(events) && NoWriteErrors(events) && Resends(Run(s, events, cfg), |s.sent|)
    decreases Left(s, w)
  {
    var x := s.workers[w];
    assert WorkerOk(s, x);
    if x.doSend && x.indices == [] {
      events := [Flush(w, 0)];
      RunTwo(s, Flush(w, 0), Close, cfg);
      assert Run(s, events, cfg).sent[|s.sent|].indices == [];
    } else if x.doSend {
      events := ResendNext(s, Flush(w, 0), w, cfg);
    } else if s.taken < |s.history| || s.closed {
      events := ResendNext(s, Receive(w, true), w, cfg);
    } else {
      events := ResendNext(s, Close, w, cfg);
    }
  }

  lemma {:induction false} ResendNext(s: State, e: Event, w: nat, cfg: Config) returns (events: seq<Event>)
    requires Inv(s) && AllTied(s, cfg) && w < |s.workers| && s.workers[w].byteLimit <= 0
    requires s.workers[w].isOpen && Enabled(s, e, cfg)
    requires e == Flush(w, 0) || e == Receive(w, true) || (e == Close && s.taken == |s.history|)
    ensures Small(events) && NoWriteErrors(events) && Resends(Run(s, events, cfg), |s.sent|)
    decreases Left(s, w), 0
  {
    Moves(s, e, w, cfg);
    var rest := ResendFrom(Step(s, e, cfg), w, cfg);
    ResendsLater(s, e, rest, cfg);
    events := [e] + rest;
  }

  lemma ResendsLater(s: State, e: Event, rest: seq<Event>, cfg: Config)
    requires (e.Flush? ==> e.gzSize < MIN_SIZE_FOR_CF) && (e.Receive? ==> e.writeOk)
    requires Small(rest) && NoWriteErrors(rest)
    requires |s.sent| <= |Step(s, e, cfg).sent| && Resends(Run(Step(s, e, cfg), rest, cfg), |Step(s, e, cfg).sent|)
    ensures Small([e] + rest) && NoWriteErrors([e] + rest) && Resends(Run(s, [e] + rest, cfg), |s.sent|)
  {
    RunFirst(s, e, rest, cfg);
  }

  /** With the compression factors as they are, and no write errors, the gzip buffer can be sent again exactly when some
      loop that still has a flush to come has a read limit that is not positive. */
  lemma ResendExactlyWhen(s: State, cfg: Config)
    requires Inv(s) && AllTied(s, cfg)
    ensures (exists events :: Small(events) && NoWriteErrors(events) && Resends(Run(s, events, cfg), |s.sent|))
       <==> !NoneCanResend(s)
  {
    if NoneCanResend(s) {
      forall events | Small(events) ensures !Resends(Run(s, events, cfg), |s.sent|) {
        SmallCannotResend(s, events, cfg);
      }
    } else {
      var w :| 0 <= w < |s.workers| && CanResend(s.workers[w]);
      var events := ResendFrom(s, w, cfg);
    }
  }

  // ---------- Batches that do not compress ----------

  /** A buffer of 128 bytes that is stored in 151 bytes brings the read limit of an uncompressed target of 1 to 0. */
  lemma StoredBatch(cfg: Config, b: Buffer)
    requires cfg.batchTargetSize == 1 && cfg.noCompression && |b| == 128
    ensures var s := Run(Init(1, cfg), [Queue(b), Receive(0, true), Flush(0, 151)], cfg);
            && s.history == [b] && s.taken == 1 && !s.closed && !s.faulted && |s.workers| == 1
            && s.sent == [Batch([0], b, 128)]
            && s.workers[0].byteLimit == 0 && s.workers[0].indices == [] && s.workers[0].content == b
            && s.workers[0].byteCount == 0 && Waiting(s.workers[0])
            && s.workers[0].hasWriter && s.workers[0].gzSize == 151
  {
    var s0 := Init(1, cfg);
    RunThree(s0, Queue(b), Receive(0, true), Flush(0, 151), cfg);
    assert NewWorker(cfg) == Worker([], [], 0, 1, 1.0, false, false, false, true, 0);
    var s1 := Step(s0, Queue(b), cfg);
    assert s1 == s0.(history := [b]);
    var s2 := Step(s1, Receive(0, true), cfg);
    var w2 := Worker([0], b, 128, 1, 1.0, true, cfg.flushInterval > 0, true, true, 0);
    assert [] + b == b;
    assert OnBuffer(NewWorker(cfg), 0, b, true, cfg) == w2;
    assert s2 == s1.(taken := 1, workers := [w2], lost := []);
    var cf := (1.0 - ALPHA) * (128.0 / 151.0) + ALPHA * 1.0;
    assert 0.0 < cf < 1.0 && ByteLimit(1, cf) == 0;
    var s3 := Step(s2, Flush(0, 151), cfg);
    assert s3.workers[0] == EmptyBatch(w2).(estimatedCF := cf, byteLimit := 0, gzSize := 151);
    assert s3.sent == [BatchOf(w2)];
  }

  /** With that, a write error closes a missing writer ... */
  lemma WriteErrorFaults(cfg: Config, b: Buffer)
    requires cfg.batchTargetSize == 1 && cfg.noCompression && |b| == 128
    ensures Run(Init(1, cfg), [Queue(b), Receive(0, true), Flush(0, 151)] + [Queue(b), Receive(0, false), Flush(0, 0)],
                cfg).faulted
  {
    var first := [Queue(b), Receive(0, true), Flush(0, 151)];
    StoredBatch(cfg, b);
    var s := Run(Init(1, cfg), first, cfg);
    RunConcat(Init(1, cfg), first, [Queue(b), Receive(0, false), Flush(0, 0)], cfg);
    RunThree(s, Queue(b), Receive(0, false), Flush(0, 0), cfg);
    assert Step(s, Queue(b), cfg).history[1] == b;
  }

  /** ... and an empty buffer sends the batch a second time, all its 151 bytes. */
  lemma EmptyBufferResends(cfg: Config, b: Buffer)
    requires cfg.batchTargetSize == 1 && cfg.noCompression && |b| == 128
    ensures var s := Run(Init(1, cfg),
                         [Queue(b), Receive(0, true), Flush(0, 151)] + [Queue([]), Receive(0, true), Flush(0, 0)], cfg);
            && s.sent == [Batch([0], b, 128), Batch([], b, 0)]
            && |s.workers| == 1 && s.workers[0].gzSize == 151
  {
    var first := [Queue(b), Receive(0, true), Flush(0, 151)];
    StoredBatch(cfg, b);
    var s := Run(Init(1, cfg), first, cfg);
    RunConcat(Init(1, cfg), first, [Queue([]), Receive(0, true), Flush(0, 0)], cfg);
    RunThree(s, Queue([]), Receive(0, true), Flush(0, 0), cfg);
    assert Step(s, Queue([]), cfg).history[1] == [];
  }
}
