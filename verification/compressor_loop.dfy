/** The loop of one compressor, and what every interleaving looks like to it. */
module CompressorLoop {
  import opened Common
  import opened Compressor

  /** What a `select` of the loop returned, with the outcome of the write and the compressed size of the flush, if
      any. */
  datatype Wake =
    | BufferRead(index: nat, buf: Buffer, writeOk: bool, gzSize: nat)
    | ChannelClosed(gzSize: nat)
    | TimerFired(gzSize: nat)

  function Woken(w: Worker, wake: Wake, cfg: Config): Worker {
    match wake
    case BufferRead(index, buf, writeOk, _) => OnBuffer(w, index, buf, writeOk, cfg)
    case ChannelClosed(_) => OnClosed(w)
    case TimerFired(_) => OnTimer(w)
  }

  /** The variables of a loop after some wake-ups, and the batches it sent. */
  datatype Progress = Progress(w: Worker, sent: seq<Batch>)

  function Turn(p: Progress, wake: Wake, cfg: Config): Progress {
    var w := Woken(p.w, wake, cfg);
    if w.doSend then Progress(OnFlush(w, wake.gzSize, cfg), p.sent + [BatchOf(w)]) else Progress(w, p.sent)
  }

  /** All turns of a loop: it ends when the channel is closed. */
  function Looped(wakes: seq<Wake>, cfg: Config): Progress {
    if wakes == [] then Progress(NewWorker(cfg), [])
    else
      var p := Looped(wakes[..|wakes| - 1], cfg);
      if p.w.isOpen then Turn(p, wakes[|wakes| - 1], cfg) else p
  }

  // ---------- The loop ----------

  method OnBufferRead(w: Worker, index: nat, buf: Buffer, writeOk: bool, cfg: Config) returns (w': Worker)
    ensures w' == OnBuffer(w, index, buf, writeOk, cfg)
  {
    w' := w;
    if |buf| > 0 {
      if |w'.indices| == 0 {
        w' := w'.(content := [], hasWriter := true, timerSet := cfg.flushInterval > 0);
      }
      w' := w'.(indices := w'.indices + [index], byteCount := w'.byteCount + |buf|, content := w'.content + buf);
      if !writeOk {
        w' := w'.(indices := [], byteCount := 0, timerSet := false, hasWriter := false);
      }
    }
    w' := w'.(doSend := w'.byteCount >= w'.byteLimit);
  }

  /** What the loop does with a batch: update the compression factor, send, start over. */
  method OnSend(w: Worker, given: nat, cfg: Config) returns (w': Worker, batch: Batch)
    ensures w' == OnFlush(w, given, cfg) && batch == BatchOf(w)
  {
    var gzSize := if |w.indices| == 0 && w.hasWriter then w.gzSize else given;
    var estimatedCF, batchReadByteLimit := w.estimatedCF, w.byteLimit;
    if gzSize >= MIN_SIZE_FOR_CF {
      var batchCF := w.byteCount as real / gzSize as real;
      estimatedCF := (1.0 - ALPHA) * batchCF + ALPHA * estimatedCF;
      batchReadByteLimit := ByteLimit(cfg.batchTargetSize, estimatedCF);
    }
    batch := Batch(w.indices, w.content, w.byteCount);
    w' := w.(indices := [], byteCount := 0, timerSet := false, doSend := false,
             estimatedCF := estimatedCF, byteLimit := batchReadByteLimit, gzSize := gzSize);
  }

  lemma {:induction false} EndedStays(wakes: seq<Wake>, k: nat, cfg: Config)
    requires k <= |wakes| && !Looped(wakes[..k], cfg).w.isOpen
    ensures Looped(wakes, cfg) == Looped(wakes[..k], cfg)
    decreases |wakes|
  {
    if k < |wakes| {
      assert wakes[..|wakes| - 1][..k] == wakes[..k];
      EndedStays(wakes[..|wakes| - 1], k, cfg);
    } else {
      assert wakes[..k] == wakes;
    }
  }

  /** The loop of one compressor, its local variables held in `w`. */
  method Loop(cfg: Config, wakes: seq<Wake>) returns (w: Worker, sent: seq<Batch>)
    ensures Progress(w, sent) == Looped(wakes, cfg)
  {
    w, sent := NewWorker(cfg), [];
    var k := 0;
    while k < |wakes| && w.isOpen
      invariant 0 <= k <= |wakes|
      invariant Progress(w, sent) == Looped(wakes[..k], cfg)
      decreases |wakes| - k
    {
      var wake := wakes[k];
      assert wakes[..k + 1][..k] == wakes[..k];
      match wake {
        case BufferRead(index, buf, writeOk, _) => w := OnBufferRead(w, index, buf, writeOk, cfg);
        case ChannelClosed(_) =>
          w := w.(isOpen := false, doSend := w.byteCount > 0 || w.byteCount >= w.byteLimit);
        case TimerFired(_) =>
          w := w.(doSend := true, timerSet := false);
      }
      if w.doSend {
        var batch;
        w, batch := OnSend(w, wake.gzSize, cfg);
        sent := sent + [batch];
      }
      k := k + 1;
    }
    if k < |wakes| {
      EndedStays(wakes, k, cfg);
    } else {
      assert wakes[..k] == wakes;
    }
  }

  predicate KeepsLastBatch(p: Progress) {
    p.w.indices == [] && p.w.hasWriter ==> p.sent != [] && p.sent[|p.sent| - 1].content == p.w.content
  }

  lemma TurnKeepsLastBatch(p: Progress, wake: Wake, cfg: Config)
    requires KeepsLastBatch(p)
    ensures KeepsLastBatch(Turn(p, wake, cfg))
  {
  }

  /** What a flush without a batch sends is the batch the loop sent last. */
  lemma {:induction false} GzipBufferIsLastBatch(wakes: seq<Wake>, cfg: Config)
    ensures KeepsLastBatch(Looped(wakes, cfg))
  {
    if wakes != [] {
      GzipBufferIsLastBatch(wakes[..|wakes| - 1], cfg);
      TurnKeepsLastBatch(Looped(wakes[..|wakes| - 1], cfg), wakes[|wakes| - 1], cfg);
    }
  }

  // ---------- Interleavings seen by one loop ----------

  /** The wake-ups of one loop in a run, and the batches it sent. */
  datatype Trail = Trail(wakes: seq<Wake>, sent: seq<Batch>)

  /** What an event adds to the trail of loop `w`; a flush tells the compressed size of the last wake-up's batch. */
  function Follow(t: Trail, s: State, e: Event, w: nat, cfg: Config): Trail {
    if !Enabled(s, e, cfg) || e.Queue? || e.Close? || e.w != w then t
    else
      match e
      case Receive(_, writeOk) =>
        if s.taken < |s.history| then t.(wakes := t.wakes + [BufferRead(s.taken, s.history[s.taken], writeOk, 0)])
        else t.(wakes := t.wakes + [ChannelClosed(0)])
      case Timer(_) => t.(wakes := t.wakes + [TimerFired(0)])
      case Flush(_, gzSize) => Trail(WithSize(t.wakes, gzSize), t.sent + [BatchOf(s.workers[w])])
  }

  function WithSize(wakes: seq<Wake>, gzSize: nat): seq<Wake> {
    if wakes == [] then [] else wakes[|wakes| - 1 := wakes[|wakes| - 1].(gzSize := gzSize)]
  }

  function TrailOf(s: State, events: seq<Event>, w: nat, cfg: Config): Trail {
    if events == [] then Trail([], [])
    else
      var n := |events| - 1;
      Follow(TrailOf(s, events[..n], w, cfg), Run(s, events[..n], cfg), events[n], w, cfg)
  }

  /** The loop's variables are those of its own loop over the trail, or, between a wake-up and its flush, those of the
      loop before the last wake-up, woken up. */
  predicate Matches(x: Worker, t: Trail, cfg: Config) {
    if !x.doSend then Looped(t.wakes, cfg) == Progress(x, t.sent)
    else
      && t.wakes != []
      && var n := |t.wakes| - 1;
         var p := Looped(t.wakes[..n], cfg);
         p.w.isOpen && p.sent == t.sent && x == Woken(p.w, t.wakes[n], cfg)
  }

  lemma WakeMatches(x: Worker, t: Trail, wake: Wake, cfg: Config)
    requires Matches(x, t, cfg) && x.isOpen && !x.doSend
    ensures Matches(Woken(x, wake, cfg), t.(wakes := t.wakes + [wake]), cfg)
  {
    assert (t.wakes + [wake])[..|t.wakes|] == t.wakes;
  }

  lemma FlushMatches(x: Worker, t: Trail, gzSize: nat, cfg: Config)
    requires Matches(x, t, cfg) && x.doSend
    ensures Matches(OnFlush(x, gzSize, cfg), Trail(WithSize(t.wakes, gzSize), t.sent + [BatchOf(x)]), cfg)
  {
    var n := |t.wakes| - 1;
    assert WithSize(t.wakes, gzSize)[..n] == t.wakes[..n];
  }

  lemma StepMatches(s: State, e: Event, w: nat, t: Trail, cfg: Config)
    requires w < |s.workers| && Matches(s.workers[w], t, cfg)
    ensures |Step(s, e, cfg).workers| == |s.workers|
    ensures Matches(Step(s, e, cfg).workers[w], Follow(t, s, e, w, cfg), cfg)
  {
    if Enabled(s, e, cfg) && !e.Queue? && !e.Close? && e.w == w {
      match e
      case Receive(_, writeOk) =>
        WakeMatches(s.workers[w], t, if s.taken < |s.history| then BufferRead(s.taken, s.history[s.taken], writeOk, 0)
                                     else ChannelClosed(0), cfg);
      case Timer(_) => WakeMatches(s.workers[w], t, TimerFired(0), cfg);
      case Flush(_, gzSize) => FlushMatches(s.workers[w], t, gzSize, cfg);
    }
  }

  /** In every interleaving each loop does what the loop alone does with the wake-ups the interleaving gives it. */
  lemma {:induction false} EveryLoopMatches(n: nat, events: seq<Event>, w: nat, cfg: Config)
    requires w < n
    ensures var s := Run(Init(n, cfg), events, cfg);
            |s.workers| == n && Matches(s.workers[w], TrailOf(Init(n, cfg), events, w, cfg), cfg)
  {
    if events != [] {
      var k := |events| - 1;
      EveryLoopMatches(n, events[..k], w, cfg);
      StepMatches(Run(Init(n, cfg), events[..k], cfg), events[k], w, TrailOf(Init(n, cfg), events[..k], w, cfg), cfg);
    }
  }

  /** Between flushes the variables of a loop, and the batches it sent, are what `Loop` computes. */
  lemma LoopIsProjection(n: nat, events: seq<Event>, w: nat, cfg: Config)
    requires w < n && w < |Run(Init(n, cfg), events, cfg).workers| && !Run(Init(n, cfg), events, cfg).workers[w].doSend
    ensures var t := TrailOf(Init(n, cfg), events, w, cfg);
            Looped(t.wakes, cfg) == Progress(Run(Init(n, cfg), events, cfg).workers[w], t.sent)
  {
    EveryLoopMatches(n, events, w, cfg);
  }

  /** How often the first `m` loops sent a batch. */
  function SentBy(s: State, events: seq<Event>, m: nat, b: Batch, cfg: Config): nat {
    if m == 0 then 0 else SentBy(s, events, m - 1, b, cfg) + multiset(TrailOf(s, events, m - 1, cfg).sent)[b]
  }

  /** Whether an event sends a batch, by one of the first `m` loops. */
  function Sends(s: State, e: Event, m: nat, b: Batch, cfg: Config): nat {
    Bit(e.Flush? && Enabled(s, e, cfg) && e.w < m && BatchOf(s.workers[e.w]) == b)
  }

  lemma FollowSends(t: Trail, s: State, e: Event, w: nat, b: Batch, cfg: Config)
    ensures multiset(Follow(t, s, e, w, cfg).sent)[b] + Sends(s, e, w, b, cfg) ==
            multiset(t.sent)[b] + Sends(s, e, w + 1, b, cfg)
  {
  }

  lemma {:induction false} SentByStep(s: State, events: seq<Event>, m: nat, b: Batch, cfg: Config)
    requires events != []
    ensures var n := |events| - 1;
            SentBy(s, events, m, b, cfg) ==
            SentBy(s, events[..n], m, b, cfg) + Sends(Run(s, events[..n], cfg), events[n], m, b, cfg)
    decreases m
  {
    if m > 0 {
      SentByStep(s, events, m - 1, b, cfg);
      var n := |events| - 1;
      FollowSends(TrailOf(s, events[..n], m - 1, cfg), Run(s, events[..n], cfg), events[n], m - 1, b, cfg);
    }
  }

  lemma StepSends(s: State, e: Event, b: Batch, cfg: Config)
    ensures |Step(s, e, cfg).workers| == |s.workers|
    ensures multiset(Step(s, e, cfg).sent)[b] == multiset(s.sent)[b] + Sends(s, e, |s.workers|, b, cfg)
  {
  }

  /** The batches of the pool are those its loops sent, each as often as they sent it. */
  lemma {:induction false} EveryBatchHasItsLoop(n: nat, events: seq<Event>, b: Batch, cfg: Config)
    ensures var s := Run(Init(n, cfg), events, cfg);
            |s.workers| == n && multiset(s.sent)[b] == SentBy(Init(n, cfg), events, n, b, cfg)
  {
    if events == [] {
      NothingSentYet(Init(n, cfg), n, b, cfg);
    } else {
      var k := |events| - 1;
      EveryBatchHasItsLoop(n, events[..k], b, cfg);
      SentByStep(Init(n, cfg), events, n, b, cfg);
      StepSends(Run(Init(n, cfg), events[..k], cfg), events[k], b, cfg);
    }
  }

  lemma NothingSentYet(s: State, m: nat, b: Batch, cfg: Config)
    ensures SentBy(s, [], m, b, cfg) == 0
  {
  }
}
