/** The compressor pool: N loops drain one channel of buffers into batches that are flushed by size, by timer and at
    close. The gzip writer is an accumulating byte sequence; its compressed size is an arbitrary input. */
module Compressor {
  import opened Common

  type Buffer = seq<Byte>

  const MIN_SIZE_FOR_CF := 128
  const ALPHA: real := 0.8

  /** A batch handed to the sender: which queued buffers it holds, in read order, what the gzip buffer holds, and the
      read bytes it is counted with. */
  datatype Batch = Batch(indices: seq<nat>, content: Buffer, byteCount: nat)

  /** The local variables of one loop. `indices` are the positions, in queueing order, of the buffers read so far, and
      `gzSize` is the size that the last flush left the gzip buffer with. */
  datatype Worker = Worker(indices: seq<nat>, content: Buffer, byteCount: nat, byteLimit: int, estimatedCF: real,
                           hasWriter: bool, timerSet: bool, doSend: bool, isOpen: bool, gzSize: nat)

  datatype Config = Config(batchTargetSize: int, flushInterval: int, noCompression: bool, queueSize: nat)

  /** Go converts to int towards zero. */
  function ByteLimit(batchTargetSize: int, estimatedCF: real): int {
    var limit := batchTargetSize as real * estimatedCF;
    if limit >= 0.0 then limit.Floor else -((-limit).Floor)
  }

  function InitialCF(cfg: Config): real {
    if cfg.noCompression then 1.0 else 2.0
  }

  function NewWorker(cfg: Config): Worker {
    Worker([], [], 0, ByteLimit(cfg.batchTargetSize, InitialCF(cfg)), InitialCF(cfg), false, false, false, true, 0)
  }

  function EmptyBatch(w: Worker): Worker {
    w.(indices := [], byteCount := 0, timerSet := false, doSend := false)
  }

  // ---------- What one loop does when it wakes up ----------

  /** A buffer was read. A write error discards the batch and the writer. */
  function OnBuffer(w: Worker, index: nat, buf: Buffer, writeOk: bool, cfg: Config): Worker {
    if buf == [] then w.(doSend := w.byteCount >= w.byteLimit)
    else
      var started :=
        if w.indices == [] then w.(content := [], hasWriter := true, timerSet := cfg.flushInterval > 0) else w;
      var read := started.(indices := w.indices + [index], byteCount := w.byteCount + |buf|,
                           content := started.content + buf);
      var written := if writeOk then read else EmptyBatch(read).(hasWriter := false);
      written.(doSend := written.byteCount >= written.byteLimit)
  }

  function Lost(w: Worker, index: nat, buf: Buffer, writeOk: bool): seq<nat> {
    if buf == [] || writeOk then [] else w.indices + [index]
  }

  /** The channel is closed and drained. */
  function OnClosed(w: Worker): Worker {
    w.(isOpen := false, doSend := w.byteCount > 0 || w.byteCount >= w.byteLimit)
  }

  function OnTimer(w: Worker): Worker {
    w.(doSend := true, timerSet := false)
  }

  /** The size of the gzip buffer at a flush: `given` for a new batch. Without one the buffer is as the last flush left
      it, since closing its writer a second time adds nothing. */
  function SizeOf(w: Worker, given: nat): nat {
    if w.indices == [] && w.hasWriter then w.gzSize else given
  }

  /** The batch is handed to the sender and the compression factor updated from the compressed size. */
  function Flushed(w: Worker, gzSize: nat, cfg: Config): Worker {
    if gzSize < MIN_SIZE_FOR_CF then EmptyBatch(w).(gzSize := gzSize)
    else
      var cf := (1.0 - ALPHA) * (w.byteCount as real / gzSize as real) + ALPHA * w.estimatedCF;
      EmptyBatch(w).(gzSize := gzSize, estimatedCF := cf, byteLimit := ByteLimit(cfg.batchTargetSize, cf))
  }

  function OnFlush(w: Worker, given: nat, cfg: Config): Worker {
    Flushed(w, SizeOf(w, given), cfg)
  }

  // ---------- The pool as a transition system ----------

  function BatchOf(w: Worker): Batch {
    Batch(w.indices, w.content, w.byteCount)
  }

  /** `history` holds every buffer ever queued; the first `taken` of them were read from the channel. `faulted` is a
      close of a writer that was never created. */
  datatype State = State(history: seq<Buffer>, taken: nat, closed: bool, workers: seq<Worker>,
                         sent: seq<Batch>, lost: seq<nat>, faulted: bool)

  datatype Event =
    | Queue(buf: Buffer)
    | Close
    | Receive(w: nat, writeOk: bool)
    | Timer(w: nat)
    | Flush(w: nat, gzSize: nat)

  function Init(numCompressors: nat, cfg: Config): State {
    State([], 0, false, seq(numCompressors, i => NewWorker(cfg)), [], [], false)
  }

  predicate Waiting(w: Worker) {
    w.isOpen && !w.doSend
  }

  /** How many buffers can be on their way: an unbuffered channel hands over one at a time. */
  function Room(cfg: Config): nat {
    if cfg.queueSize == 0 then 1 else cfg.queueSize
  }

  /** Whether an event can happen: sends to a full or closed channel block or are refused, a loop that is flushing or
      has ended does not select, and only a set timer fires. */
  predicate Enabled(s: State, e: Event, cfg: Config) {
    match e
    case Queue(_) => !s.closed && s.taken <= |s.history| < s.taken + Room(cfg)
    case Close => !s.closed
    case Receive(w, _) => w < |s.workers| && Waiting(s.workers[w]) && (s.taken < |s.history| || s.closed)
    case Timer(w) => w < |s.workers| && Waiting(s.workers[w]) && s.workers[w].timerSet
    case Flush(w, _) => w < |s.workers| && s.workers[w].doSend
  }

  function Step(s: State, e: Event, cfg: Config): State {
    if !Enabled(s, e, cfg) then s
    else
      match e
      case Queue(buf) => s.(history := s.history + [buf])
      case Close => s.(closed := true)
      case Receive(w, writeOk) =>
        if s.taken < |s.history| then
          var buf := s.history[s.taken];
          s.(taken := s.taken + 1,
             workers := s.workers[w := OnBuffer(s.workers[w], s.taken, buf, writeOk, cfg)],
             lost := s.lost + Lost(s.workers[w], s.taken, buf, writeOk))
        else
          s.(workers := s.workers[w := OnClosed(s.workers[w])])
      case Timer(w) => s.(workers := s.workers[w := OnTimer(s.workers[w])])
      case Flush(w, gzSize) =>
        s.(workers := s.workers[w := OnFlush(s.workers[w], gzSize, cfg)],
           sent := s.sent + [BatchOf(s.workers[w])],
           faulted := s.faulted || !s.workers[w].hasWriter)
  }

  function Run(s: State, events: seq<Event>, cfg: Config): State {
    if events == [] then s else Step(Run(s, events[..|events| - 1], cfg), events[|events| - 1], cfg)
  }

  /** No compressed batch is so large that its factor falls below 1 / target size. */
  predicate Compresses(s: State, e: Event, cfg: Config) {
    e.Flush? && Enabled(s, e, cfg) ==>
      var w := s.workers[e.w];
      var gzSize := SizeOf(w, e.gzSize);
      gzSize >= MIN_SIZE_FOR_CF ==> cfg.batchTargetSize * w.byteCount >= gzSize
  }

  predicate AlwaysCompresses(s: State, events: seq<Event>, cfg: Config) {
    forall k | 0 <= k < |events| :: Compresses(Run(s, events[..k], cfg), events[k], cfg)
  }

  predicate NoWriteErrors(events: seq<Event>) {
    forall k | 0 <= k < |events| :: events[k].Receive? ==> events[k].writeOk
  }

  // ---------- Invariants ----------

  function Concat(history: seq<Buffer>, indices: seq<nat>): Buffer
    requires forall k | 0 <= k < |indices| :: indices[k] < |history|
  {
    if indices == [] then []
    else Concat(history, indices[..|indices| - 1]) + history[indices[|indices| - 1]]
  }

  predicate Increasing(indices: seq<nat>) {
    forall i, j | 0 <= i < j < |indices| :: indices[i] < indices[j]
  }

  /** The indices are read buffers in read order and the content is theirs. */
  predicate Holds(history: seq<Buffer>, taken: nat, indices: seq<nat>, content: Buffer) {
    && taken <= |history|
    && Increasing(indices)
    && (forall k | 0 <= k < |indices| :: indices[k] < taken && history[indices[k]] != [])
    && content == Concat(history, indices)
  }

  /** What a loop holds is whole buffers. Without a batch it only flushes if its read limit is not positive. */
  predicate WorkerOk(s: State, w: Worker) {
    && (w.indices != [] ==>
          Holds(s.history, s.taken, w.indices, w.content) && w.byteCount == |w.content| && w.hasWriter)
    && (w.indices == [] <==> w.byteCount == 0)
    && (w.timerSet ==> w.indices != [])
    && (w.doSend && w.indices == [] ==> w.byteLimit <= 0)
    && (!w.doSend && w.indices != [] ==> w.byteCount < w.byteLimit)
    && (!w.isOpen ==> s.closed && s.taken == |s.history|)
    && (!w.isOpen && !w.doSend ==> w.indices == [])
  }

  predicate LimitOk(w: Worker, cfg: Config) {
    && w.byteLimit == ByteLimit(cfg.batchTargetSize, w.estimatedCF)
    && cfg.batchTargetSize as real * w.estimatedCF >= 1.0
  }

  predicate LimitsOk(s: State, cfg: Config) {
    forall i | 0 <= i < |s.workers| :: LimitOk(s.workers[i], cfg)
  }

  /** A batch is whole buffers in read order, or empty: then the gzip buffer is sent as the previous flush left it. */
  predicate BatchOk(s: State, b: Batch) {
    && (b.indices == [] <==> b.byteCount == 0)
    && (b.indices != [] ==> Holds(s.history, s.taken, b.indices, b.content) && b.byteCount == |b.content|)
  }

  function OpenIndices(workers: seq<Worker>): multiset<nat> {
    if workers == [] then multiset{} else multiset(workers[0].indices) + OpenIndices(workers[1..])
  }

  function SentIndices(sent: seq<Batch>): multiset<nat> {
    if sent == [] then multiset{} else SentIndices(sent[..|sent| - 1]) + multiset(sent[|sent| - 1].indices)
  }

  /** The read buffers that hold anything. */
  function ReadIndices(history: seq<Buffer>, taken: nat): multiset<nat>
    requires taken <= |history|
  {
    if taken == 0 then multiset{}
    else ReadIndices(history, taken - 1) + if history[taken - 1] == [] then multiset{} else multiset{taken - 1}
  }

  function Holders(s: State): multiset<nat> {
    OpenIndices(s.workers) + SentIndices(s.sent) + multiset(s.lost)
  }

  function OpenBytes(workers: seq<Worker>): nat {
    if workers == [] then 0 else workers[0].byteCount + OpenBytes(workers[1..])
  }

  function SentBytes(sent: seq<Batch>): nat {
    if sent == [] then 0 else SentBytes(sent[..|sent| - 1]) + sent[|sent| - 1].byteCount
  }

  function IndexBytes(history: seq<Buffer>, indices: seq<nat>): nat
    requires forall k | 0 <= k < |indices| :: indices[k] < |history|
  {
    if indices == [] then 0
    else IndexBytes(history, indices[..|indices| - 1]) + |history[indices[|indices| - 1]]|
  }

  function QueuedBytes(history: seq<Buffer>): nat {
    if history == [] then 0 else QueuedBytes(history[..|history| - 1]) + |history[|history| - 1]|
  }

  predicate Below(indices: seq<nat>, n: nat) {
    forall k | 0 <= k < |indices| :: indices[k] < n
  }

  predicate HoldersOk(s: State) {
    s.taken <= |s.history| && Holders(s) == ReadIndices(s.history, s.taken)
  }

  predicate BytesOk(s: State) {
    && s.taken <= |s.history| && Below(s.lost, s.taken)
    && OpenBytes(s.workers) + SentBytes(s.sent) + IndexBytes(s.history, s.lost) == QueuedBytes(s.history[..s.taken])
  }

  /** Every read buffer, and every read byte, is in exactly one place. */
  predicate Conserved(s: State) {
    HoldersOk(s) && BytesOk(s)
  }

  predicate Inv(s: State) {
    && (forall i | 0 <= i < |s.workers| :: WorkerOk(s, s.workers[i]))
    && (forall i | 0 <= i < |s.sent| :: BatchOk(s, s.sent[i]))
    && Conserved(s)
  }

  // ---------- Sums and growing histories ----------

  /** What the other workers hold. */
  function OtherIndices(workers: seq<Worker>, w: nat): multiset<nat>
    requires w < |workers|
  {
    OpenIndices(workers[..w]) + OpenIndices(workers[w + 1..])
  }

  function OtherBytes(workers: seq<Worker>, w: nat): nat
    requires w < |workers|
  {
    OpenBytes(workers[..w]) + OpenBytes(workers[w + 1..])
  }

  lemma {:induction false} OpenSplits(workers: seq<Worker>, w: nat)
    requires w < |workers|
    ensures OpenIndices(workers) == OtherIndices(workers, w) + multiset(workers[w].indices)
  {
    if w > 0 {
      OpenSplits(workers[1..], w - 1);
      assert workers[..w][1..] == workers[1..][..w - 1];
      assert workers[w + 1..] == workers[1..][w..];
    }
  }

  lemma {:induction false} OpenBytesSplit(workers: seq<Worker>, w: nat)
    requires w < |workers|
    ensures OpenBytes(workers) == OtherBytes(workers, w) + workers[w].byteCount
  {
    if w > 0 {
      OpenBytesSplit(workers[1..], w - 1);
      assert workers[..w][1..] == workers[1..][..w - 1];
      assert workers[w + 1..] == workers[1..][w..];
    }
  }

  lemma {:induction false} OthersUnchanged(workers: seq<Worker>, w: nat, x: Worker)
    requires w < |workers|
    ensures OtherIndices(workers[w := x], w) == OtherIndices(workers, w)
    ensures OtherBytes(workers[w := x], w) == OtherBytes(workers, w)
  {
    assert workers[w := x][..w] == workers[..w] && workers[w := x][w + 1..] == workers[w + 1..];
  }

  lemma {:induction false} OpenAfter(workers: seq<Worker>, w: nat, x: Worker)
    requires w < |workers|
    ensures OpenIndices(workers[w := x]) == OtherIndices(workers, w) + multiset(x.indices)
    ensures OpenBytes(workers[w := x]) == OtherBytes(workers, w) + x.byteCount
  {
    OpenSplits(workers[w := x], w);
    OpenBytesSplit(workers[w := x], w);
    OthersUnchanged(workers, w, x);
  }

  lemma SentGrows(sent: seq<Batch>, b: Batch)
    ensures SentIndices(sent + [b]) == SentIndices(sent) + multiset(b.indices)
    ensures SentBytes(sent + [b]) == SentBytes(sent) + b.byteCount
  {
    assert (sent + [b])[..|sent|] == sent;
  }

  lemma HistoryGrows(history: seq<Buffer>, buf: Buffer, taken: nat, indices: seq<nat>)
    requires taken <= |history|
    requires forall k | 0 <= k < |indices| :: indices[k] < |history|
    ensures ReadIndices(history + [buf], taken) == ReadIndices(history, taken)
    ensures Concat(history + [buf], indices) == Concat(history, indices)
    ensures IndexBytes(history + [buf], indices) == IndexBytes(history, indices)
  {
    if taken > 0 {
      HistoryGrows(history, buf, taken - 1, indices);
    } else if indices != [] {
      HistoryGrows(history, buf, taken, indices[..|indices| - 1]);
    }
  }

  lemma {:induction false} IndexBytesOfConcat(history: seq<Buffer>, a: seq<nat>, b: seq<nat>)
    requires forall k | 0 <= k < |a| :: a[k] < |history|
    requires forall k | 0 <= k < |b| :: b[k] < |history|
    ensures IndexBytes(history, a + b) == IndexBytes(history, a) + IndexBytes(history, b)
    decreases |b|
  {
    if b == [] {
      assert a + b == a;
    } else {
      assert (a + b)[..|a + b| - 1] == a + b[..|b| - 1];
      IndexBytesOfConcat(history, a, b[..|b| - 1]);
    }
  }

  lemma ConcatLength(history: seq<Buffer>, indices: seq<nat>)
    requires forall k | 0 <= k < |indices| :: indices[k] < |history|
    ensures |Concat(history, indices)| == IndexBytes(history, indices)
  {
  }

  lemma ReadIndicesCount(history: seq<Buffer>, taken: nat, j: nat)
    requires taken <= |history|
    ensures ReadIndices(history, taken)[j] == if j < taken && history[j] != [] then 1 else 0
  {
  }

  lemma QueuedBytesTaken(history: seq<Buffer>, taken: nat)
    requires taken < |history|
    ensures QueuedBytes(history[..taken + 1]) == QueuedBytes(history[..taken]) + |history[taken]|
  {
    assert history[..taken + 1][..taken] == history[..taken];
  }

  // ---------- One step keeps the invariant ----------

  /** Nothing that was read changes when more is queued or read. */
  lemma {:induction false} HoldsLater(s: State, s': State, indices: seq<nat>, content: Buffer)
    requires Holds(s.history, s.taken, indices, content)
    requires s.taken <= s'.taken <= |s'.history|
    requires s'.history == s.history || exists buf :: s'.history == s.history + [buf]
    ensures Holds(s'.history, s'.taken, indices, content)
  {
    if s'.history != s.history {
      var buf :| s'.history == s.history + [buf];
      HistoryGrows(s.history, buf, 0, indices);
    }
  }

  lemma {:induction false} QueueKeepsInv(s: State, buf: Buffer, cfg: Config)
    requires Inv(s) && Enabled(s, Queue(buf), cfg)
    ensures Inv(Step(s, Queue(buf), cfg))
  {
    var s' := Step(s, Queue(buf), cfg);
    forall i | 0 <= i < |s'.workers| ensures WorkerOk(s', s'.workers[i]) {
      var w := s.workers[i];
      assert WorkerOk(s, w);
      if w.indices != [] {
        HoldsLater(s, s', w.indices, w.content);
      }
    }
    forall i | 0 <= i < |s'.sent| ensures BatchOk(s', s'.sent[i]) {
      assert BatchOk(s, s.sent[i]);
      if s.sent[i].indices != [] {
        HoldsLater(s, s', s.sent[i].indices, s.sent[i].content);
      }
    }
    HistoryGrows(s.history, buf, s.taken, s.lost);
    assert s'.history[..s'.taken] == s.history[..s.taken];
  }

  lemma {:induction false} CloseKeepsInv(s: State, cfg: Config)
    requires Inv(s) && Enabled(s, Close, cfg)
    ensures Inv(Step(s, Close, cfg))
  {
    var s' := Step(s, Close, cfg);
    forall i | 0 <= i < |s'.workers| ensures WorkerOk(s', s'.workers[i]) {
      assert WorkerOk(s, s.workers[i]);
    }
    forall i | 0 <= i < |s'.sent| ensures BatchOk(s', s'.sent[i]) {
      assert BatchOk(s, s.sent[i]);
    }
  }

  lemma {:induction false} HoldsAppend(history: seq<Buffer>, taken: nat, indices: seq<nat>, content: Buffer)
    requires taken < |history| && Holds(history, taken, indices, content) && history[taken] != []
    ensures Holds(history, taken + 1, indices + [taken], content + history[taken])
  {
    assert (indices + [taken])[..|indices|] == indices;
  }

  /** A worker that waits reads the next buffer. */
  lemma {:induction false} BufferKeepsWorkerOk(s: State, s': State, w: Worker, writeOk: bool, cfg: Config)
    requires WorkerOk(s, w) && Waiting(w) && s.taken < |s.history|
    requires s'.history == s.history && s'.taken == s.taken + 1
    ensures WorkerOk(s', OnBuffer(w, s.taken, s.history[s.taken], writeOk, cfg))
  {
    var buf := s.history[s.taken];
    if buf == [] {
      if w.indices != [] {
        HoldsLater(s, s', w.indices, w.content);
      }
    } else if writeOk {
      var content := if w.indices == [] then [] else w.content;
      HoldsAppend(s.history, s.taken, w.indices, content);
    }
  }

  lemma Regroup(others: multiset<nat>, sent: multiset<nat>, lost: multiset<nat>,
                was: multiset<nat>, now: multiset<nat>, dropped: multiset<nat>, read: multiset<nat>)
    requires now + dropped == was + read
    ensures others + now + sent + (lost + dropped) == others + was + sent + lost + read
  {
    assert others + now + sent + (lost + dropped) == (others + sent + lost) + (now + dropped);
    assert others + was + sent + lost + read == (others + sent + lost) + (was + read);
  }

  /** What the next read adds to the read buffers that hold anything. */
  function ReadNext(s: State): multiset<nat>
    requires s.taken < |s.history|
  {
    if s.history[s.taken] == [] then multiset{} else multiset{s.taken}
  }

  /** The buffer just read ends up in the batch, or in the lost buffers together with the batch. */
  lemma {:induction false} LostOrHeld(s: State, w: Worker, writeOk: bool, cfg: Config)
    requires WorkerOk(s, w) && s.taken < |s.history|
    ensures var buf := s.history[s.taken]; var w' := OnBuffer(w, s.taken, buf, writeOk, cfg);
            var lost := Lost(w, s.taken, buf, writeOk);
            multiset(w'.indices) + multiset(lost) == multiset(w.indices) + ReadNext(s)
  {
    assert multiset(w.indices + [s.taken]) == multiset(w.indices) + multiset{s.taken};
  }

  lemma LostIsBelow(s: State, w: Worker, buf: Buffer, writeOk: bool)
    requires WorkerOk(s, w)
    ensures Below(Lost(w, s.taken, buf, writeOk), s.taken + 1)
  {
  }

  lemma {:induction false} BytesOfLost(history: seq<Buffer>, indices: seq<nat>, j: nat)
    requires Below(indices, j) && j < |history|
    ensures Below(indices + [j], |history|)
    ensures IndexBytes(history, indices + [j]) == |Concat(history, indices)| + |history[j]|
  {
    ConcatLength(history, indices);
    assert (indices + [j])[..|indices|] == indices;
  }

  lemma {:induction false} LostOrHeldBytes(s: State, w: Worker, writeOk: bool, cfg: Config)
    requires WorkerOk(s, w) && s.taken < |s.history|
    requires Below(Lost(w, s.taken, s.history[s.taken], writeOk), s.taken + 1)
    ensures var buf := s.history[s.taken]; var w' := OnBuffer(w, s.taken, buf, writeOk, cfg);
            w'.byteCount + IndexBytes(s.history, Lost(w, s.taken, buf, writeOk)) == w.byteCount + |buf|
  {
    if s.history[s.taken] != [] && !writeOk {
      BytesOfLost(s.history, w.indices, s.taken);
    }
  }

  function AfterRead(s: State, w: nat, now: Worker, lost: seq<nat>): State
    requires w < |s.workers|
  {
    s.(taken := s.taken + 1, workers := s.workers[w := now], lost := s.lost + lost)
  }

  lemma {:induction false} ReadKeepsHolders(s: State, w: nat, now: Worker, lost: seq<nat>)
    requires s.taken < |s.history| && w < |s.workers| && HoldersOk(s)
    requires multiset(now.indices) + multiset(lost) == multiset(s.workers[w].indices) + ReadNext(s)
    ensures HoldersOk(AfterRead(s, w, now, lost))
  {
    HoldersGrow(s, w, now, lost);
    ReadIndicesNext(s);
  }

  /** A read adds to the holders what it takes from the channel. */
  lemma {:induction false} HoldersGrow(s: State, w: nat, now: Worker, lost: seq<nat>)
    requires s.taken < |s.history| && w < |s.workers|
    requires multiset(now.indices) + multiset(lost) == multiset(s.workers[w].indices) + ReadNext(s)
    ensures Holders(AfterRead(s, w, now, lost)) == Holders(s) + ReadNext(s)
  {
    HoldersAfterRead(s, w, now, lost);
    HoldersSplit(s, w);
    Regroup(OtherIndices(s.workers, w), SentIndices(s.sent), multiset(s.lost), multiset(s.workers[w].indices),
            multiset(now.indices), multiset(lost), ReadNext(s));
  }

  lemma ReadIndicesNext(s: State)
    requires s.taken < |s.history|
    ensures ReadIndices(s.history, s.taken + 1) == ReadIndices(s.history, s.taken) + ReadNext(s)
  {
  }

  lemma HoldersAfterRead(s: State, w: nat, now: Worker, lost: seq<nat>)
    requires w < |s.workers|
    ensures Holders(AfterRead(s, w, now, lost)) ==
            OtherIndices(s.workers, w) + multiset(now.indices) + SentIndices(s.sent)
            + (multiset(s.lost) + multiset(lost))
  {
    HoldersSplit(AfterRead(s, w, now, lost), w);
    OthersUnchanged(s.workers, w, now);
    LostGrows(s.lost, lost);
  }

  lemma HoldersSplit(s: State, w: nat)
    requires w < |s.workers|
    ensures Holders(s) ==
            OtherIndices(s.workers, w) + multiset(s.workers[w].indices) + SentIndices(s.sent) + multiset(s.lost)
  {
    OpenSplits(s.workers, w);
  }

  lemma LostGrows(lost: seq<nat>, more: seq<nat>)
    ensures multiset(lost + more) == multiset(lost) + multiset(more)
  {
  }

  lemma {:induction false} ReadKeepsBytes(s: State, w: nat, now: Worker, lost: seq<nat>)
    requires s.taken < |s.history| && w < |s.workers| && BytesOk(s) && Below(lost, s.taken + 1)
    requires now.byteCount + IndexBytes(s.history, lost) == s.workers[w].byteCount + |s.history[s.taken]|
    ensures BytesOk(AfterRead(s, w, now, lost))
  {
    OpenBytesSplit(s.workers, w);
    OpenAfter(s.workers, w, now);
    QueuedBytesTaken(s.history, s.taken);
    IndexBytesOfConcat(s.history, s.lost, lost);
  }

  lemma {:induction false} ReceiveKeepsHolders(s: State, w: nat, writeOk: bool, cfg: Config)
    requires Inv(s) && Enabled(s, Receive(w, writeOk), cfg) && s.taken < |s.history|
    ensures HoldersOk(Step(s, Receive(w, writeOk), cfg))
  {
    var was, buf := s.workers[w], s.history[s.taken];
    assert WorkerOk(s, was);
    LostOrHeld(s, was, writeOk, cfg);
    ReadKeepsHolders(s, w, OnBuffer(was, s.taken, buf, writeOk, cfg), Lost(was, s.taken, buf, writeOk));
  }

  lemma {:induction false} ReceiveKeepsBytes(s: State, w: nat, writeOk: bool, cfg: Config)
    requires Inv(s) && Enabled(s, Receive(w, writeOk), cfg) && s.taken < |s.history|
    ensures BytesOk(Step(s, Receive(w, writeOk), cfg))
  {
    var was, buf := s.workers[w], s.history[s.taken];
    assert WorkerOk(s, was);
    LostIsBelow(s, was, buf, writeOk);
    LostOrHeldBytes(s, was, writeOk, cfg);
    ReadKeepsBytes(s, w, OnBuffer(was, s.taken, buf, writeOk, cfg), Lost(was, s.taken, buf, writeOk));
  }

  lemma {:induction false} ReceiveKeepsInv(s: State, w: nat, writeOk: bool, cfg: Config)
    requires Inv(s) && Enabled(s, Receive(w, writeOk), cfg) && s.taken < |s.history|
    ensures Inv(Step(s, Receive(w, writeOk), cfg))
  {
    var s' := Step(s, Receive(w, writeOk), cfg);
    forall i | 0 <= i < |s'.workers| ensures WorkerOk(s', s'.workers[i]) {
      var x := s.workers[i];
      assert WorkerOk(s, x);
      if i == w {
        BufferKeepsWorkerOk(s, s', x, writeOk, cfg);
      } else if x.indices != [] {
        HoldsLater(s, s', x.indices, x.content);
      }
    }
    forall i | 0 <= i < |s'.sent| ensures BatchOk(s', s'.sent[i]) {
      assert BatchOk(s, s.sent[i]);
      if s.sent[i].indices != [] {
        HoldsLater(s, s', s.sent[i].indices, s.sent[i].content);
      }
    }
    ReceiveKeepsHolders(s, w, writeOk, cfg);
    ReceiveKeepsBytes(s, w, writeOk, cfg);
  }

  lemma {:induction false} FlagsKeepConserved(s: State, w: nat, x: Worker)
    requires Conserved(s) && w < |s.workers|
    requires x.indices == s.workers[w].indices && x.byteCount == s.workers[w].byteCount
    ensures Conserved(s.(workers := s.workers[w := x]))
  {
    OpenSplits(s.workers, w);
    OpenBytesSplit(s.workers, w);
    OpenAfter(s.workers, w, x);
  }

  /** A step that changes one worker's flags only. */
  lemma {:induction false} FlagsKeepInv(s: State, w: nat, x: Worker)
    requires Inv(s) && w < |s.workers| && WorkerOk(s, x)
    requires x.indices == s.workers[w].indices && x.byteCount == s.workers[w].byteCount
    ensures Inv(s.(workers := s.workers[w := x]))
  {
    var s' := s.(workers := s.workers[w := x]);
    forall i | 0 <= i < |s'.workers| ensures WorkerOk(s', s'.workers[i]) {
      assert WorkerOk(s, if i == w then x else s.workers[i]);
    }
    forall i | 0 <= i < |s'.sent| ensures BatchOk(s', s'.sent[i]) {
      assert BatchOk(s, s.sent[i]);
    }
    FlagsKeepConserved(s, w, x);
  }

  lemma Handover(others: multiset<nat>, sent: multiset<nat>, lost: multiset<nat>, was: multiset<nat>,
                 now: multiset<nat>)
    requires now == multiset{}
    ensures others + now + (sent + was) + lost == others + was + sent + lost
  {
  }

  lemma {:induction false} FlushKeepsHolders(s: State, w: nat, x: Worker, b: Batch)
    requires w < |s.workers| && x.indices == [] && b.indices == s.workers[w].indices
    ensures Holders(s.(workers := s.workers[w := x], sent := s.sent + [b])) == Holders(s)
  {
    OpenSplits(s.workers, w);
    OpenAfter(s.workers, w, x);
    SentGrows(s.sent, b);
    Handover(OtherIndices(s.workers, w), SentIndices(s.sent), multiset(s.lost), multiset(b.indices),
             multiset(x.indices));
  }

  /** A worker's batch moves to the sender. */
  lemma {:induction false} FlushKeepsConserved(s: State, w: nat, x: Worker)
    requires Conserved(s) && w < |s.workers| && x.indices == [] && x.byteCount == 0
    ensures Conserved(s.(workers := s.workers[w := x], sent := s.sent + [BatchOf(s.workers[w])]))
  {
    var b := BatchOf(s.workers[w]);
    FlushKeepsHolders(s, w, x, b);
    OpenBytesSplit(s.workers, w);
    OpenAfter(s.workers, w, x);
    SentGrows(s.sent, b);
  }

  lemma {:induction false} FlushKeepsInv(s: State, w: nat, gzSize: nat, cfg: Config)
    requires Inv(s) && Enabled(s, Flush(w, gzSize), cfg)
    ensures Inv(Step(s, Flush(w, gzSize), cfg))
  {
    var s' := Step(s, Flush(w, gzSize), cfg);
    var was, now := s.workers[w], s'.workers[w];
    assert WorkerOk(s, was);
    forall i | 0 <= i < |s'.workers| ensures WorkerOk(s', s'.workers[i]) {
      assert WorkerOk(s, s.workers[i]);
    }
    var b := BatchOf(was);
    assert BatchOk(s, b);
    forall i | 0 <= i < |s'.sent| ensures BatchOk(s', s'.sent[i]) {
      assert BatchOk(s, if i < |s.sent| then s.sent[i] else b);
    }
    FlushKeepsConserved(s, w, now);
  }

  lemma {:induction false} StepKeepsInv(s: State, e: Event, cfg: Config)
    requires Inv(s)
    ensures Inv(Step(s, e, cfg))
  {
    if Enabled(s, e, cfg) {
      match e
      case Queue(buf) => QueueKeepsInv(s, buf, cfg);
      case Close => CloseKeepsInv(s, cfg);
      case Receive(w, writeOk) =>
        if s.taken < |s.history| {
          ReceiveKeepsInv(s, w, writeOk, cfg);
        } else {
          assert WorkerOk(s, s.workers[w]);
          FlagsKeepInv(s, w, OnClosed(s.workers[w]));
        }
      case Timer(w) =>
        assert WorkerOk(s, s.workers[w]);
        FlagsKeepInv(s, w, OnTimer(s.workers[w]));
      case Flush(w, gzSize) => FlushKeepsInv(s, w, gzSize, cfg);
    }
  }

  // ---------- The read limit ----------

  /** The convex update keeps a factor that is at least 1 / target size there. */
  lemma ConvexUpdate(target: int, byteCount: nat, gzSize: nat, cf: real)
    requires gzSize > 0 && target * byteCount >= gzSize && target as real * cf >= 1.0
    ensures target as real * ((1.0 - ALPHA) * (byteCount as real / gzSize as real) + ALPHA * cf) >= 1.0
  {
    var t, b, g := target as real, byteCount as real, gzSize as real;
    assert t * b >= g by { assert (target * byteCount) as real == t * b; }
    assert t * (b / g) == (t * b) / g >= 1.0;
    var f := b / g;
    assert t * ((1.0 - ALPHA) * f + ALPHA * cf) == (1.0 - ALPHA) * (t * f) + ALPHA * (t * cf);
  }

  lemma FlushKeepsLimit(w: Worker, gzSize: nat, cfg: Config)
    requires LimitOk(w, cfg) && (gzSize >= MIN_SIZE_FOR_CF ==> cfg.batchTargetSize * w.byteCount >= gzSize)
    ensures LimitOk(Flushed(w, gzSize, cfg), cfg) && Flushed(w, gzSize, cfg).byteLimit >= 1
  {
    if gzSize >= MIN_SIZE_FOR_CF {
      ConvexUpdate(cfg.batchTargetSize, w.byteCount, gzSize, w.estimatedCF);
    }
  }

  /** The flush of a loop counts for its compression factor. */
  predicate CountsFor(s: State, e: Event, cfg: Config, i: nat)
    requires i < |s.workers|
  {
    e.Flush? && Enabled(s, e, cfg) && e.w == i && SizeOf(s.workers[i], e.gzSize) >= MIN_SIZE_FOR_CF
  }

  /** Only a flush that counts for the compression factor changes a read limit. */
  lemma LimitUnchanged(s: State, e: Event, cfg: Config, i: nat)
    requires i < |s.workers| && !CountsFor(s, e, cfg, i)
    ensures var s' := Step(s, e, cfg);
            && |s'.workers| == |s.workers|
            && s'.workers[i].byteLimit == s.workers[i].byteLimit
            && s'.workers[i].estimatedCF == s.workers[i].estimatedCF
  {
  }

  lemma StepKeepsLimit(s: State, e: Event, cfg: Config, i: nat)
    requires i < |s.workers| && LimitOk(s.workers[i], cfg) && Compresses(s, e, cfg)
    ensures |Step(s, e, cfg).workers| == |s.workers| && LimitOk(Step(s, e, cfg).workers[i], cfg)
  {
    if CountsFor(s, e, cfg, i) {
      FlushKeepsLimit(s.workers[i], SizeOf(s.workers[i], e.gzSize), cfg);
      Flushes(s, e, cfg);
    } else {
      LimitUnchanged(s, e, cfg, i);
      SameLimitOk(s.workers[i], Step(s, e, cfg).workers[i], cfg);
    }
  }

  lemma Flushes(s: State, e: Event, cfg: Config)
    requires e.Flush? && Enabled(s, e, cfg)
    ensures Step(s, e, cfg).workers == s.workers[e.w := OnFlush(s.workers[e.w], e.gzSize, cfg)]
  {
  }

  lemma SameLimitOk(w: Worker, w': Worker, cfg: Config)
    requires LimitOk(w, cfg) && w'.byteLimit == w.byteLimit && w'.estimatedCF == w.estimatedCF
    ensures LimitOk(w', cfg)
  {
  }

  lemma StepKeepsLimits(s: State, e: Event, cfg: Config)
    requires LimitsOk(s, cfg) && Compresses(s, e, cfg)
    ensures LimitsOk(Step(s, e, cfg), cfg)
  {
    forall i | 0 <= i < |s.workers|
      ensures |Step(s, e, cfg).workers| == |s.workers| && LimitOk(Step(s, e, cfg).workers[i], cfg)
    {
      StepKeepsLimit(s, e, cfg, i);
    }
    assert |Step(s, e, cfg).workers| == |s.workers|;
  }

  /** The read limit is that of the compression factor. */
  predicate Tied(w: Worker, cfg: Config) {
    w.byteLimit == ByteLimit(cfg.batchTargetSize, w.estimatedCF)
  }

  predicate AllTied(s: State, cfg: Config) {
    forall i | 0 <= i < |s.workers| :: Tied(s.workers[i], cfg)
  }

  lemma StepKeepsTied(s: State, e: Event, cfg: Config, i: nat)
    requires i < |s.workers| && Tied(s.workers[i], cfg)
    ensures |Step(s, e, cfg).workers| == |s.workers| && Tied(Step(s, e, cfg).workers[i], cfg)
  {
    if CountsFor(s, e, cfg, i) {
      Flushes(s, e, cfg);
    } else {
      LimitUnchanged(s, e, cfg, i);
    }
  }

  lemma StepKeepsAllTied(s: State, e: Event, cfg: Config)
    requires AllTied(s, cfg)
    ensures AllTied(Step(s, e, cfg), cfg)
  {
    var s' := Step(s, e, cfg);
    forall i | 0 <= i < |s'.workers| ensures Tied(s'.workers[i], cfg) {
      StepKeepsTied(s, e, cfg, i);
    }
  }

  lemma {:induction false} RunKeepsTied(n: nat, events: seq<Event>, cfg: Config)
    ensures AllTied(Run(Init(n, cfg), events, cfg), cfg)
  {
    if events != [] {
      RunKeepsTied(n, events[..|events| - 1], cfg);
      StepKeepsAllTied(Run(Init(n, cfg), events[..|events| - 1], cfg), events[|events| - 1], cfg);
    }
  }

  // ---------- Whole runs ----------

  /** For every interleaving of producers, compressors, timers and flushes, whatever the configuration, the compressed
      sizes and the write errors. */
  lemma {:induction false} RunKeepsInv(n: nat, events: seq<Event>, cfg: Config)
    ensures Inv(Run(Init(n, cfg), events, cfg))
  {
    if events == [] {
      InitHoldsNothing(n, NewWorker(cfg));
    } else {
      var init, last := events[..|events| - 1], events[|events| - 1];
      RunKeepsInv(n, init, cfg);
      StepKeepsInv(Run(Init(n, cfg), init, cfg), last, cfg);
    }
  }

  /** With a positive target, read limits stay positive as long as batches compress. */
  lemma {:induction false} RunKeepsLimits(n: nat, events: seq<Event>, cfg: Config)
    requires cfg.batchTargetSize >= 1 && AlwaysCompresses(Init(n, cfg), events, cfg)
    ensures LimitsOk(Run(Init(n, cfg), events, cfg), cfg)
  {
    if events == [] {
      NewWorkerOk(cfg);
    } else {
      var init, last := events[..|events| - 1], events[|events| - 1];
      assert forall k | 0 <= k < |init| :: init[..k] == events[..k] && init[k] == events[k];
      RunKeepsLimits(n, init, cfg);
      StepKeepsLimits(Run(Init(n, cfg), init, cfg), last, cfg);
    }
  }

  lemma NewWorkerOk(cfg: Config)
    requires cfg.batchTargetSize >= 1
    ensures LimitOk(NewWorker(cfg), cfg) && NewWorker(cfg).byteLimit >= 1
  {
  }

  lemma InitHoldsNothing(n: nat, w: Worker)
    requires w.indices == [] && w.byteCount == 0
    ensures OpenIndices(seq(n, i => w)) == multiset{} && OpenBytes(seq(n, i => w)) == 0
  {
    if n > 0 {
      assert seq(n, i => w)[1..] == seq(n - 1, i => w);
      InitHoldsNothing(n - 1, w);
    }
  }

  /** In every run each queued, non-empty buffer is in the channel or in exactly one of an open batch, a batch handed to
      the sender and the batches lost to write errors. */
  lemma {:induction false} ExactlyOnePlace(n: nat, events: seq<Event>, cfg: Config, j: nat)
    ensures var s := Run(Init(n, cfg), events, cfg);
            Holders(s)[j] == if j < s.taken <= |s.history| && s.history[j] != [] then 1 else 0
  {
    RunKeepsInv(n, events, cfg);
    var s := Run(Init(n, cfg), events, cfg);
    ReadIndicesCount(s.history, s.taken, j);
  }

  /** In every run a batch handed over is whole buffers in the order they were read, unless it is empty. */
  lemma {:induction false} FlushesWholeBuffersInOrder(n: nat, events: seq<Event>, cfg: Config, i: nat)
    requires i < |Run(Init(n, cfg), events, cfg).sent|
    ensures var s := Run(Init(n, cfg), events, cfg);
            var b := s.sent[i];
            b.indices != [] ==> Holds(s.history, s.taken, b.indices, b.content) && |b.content| == b.byteCount > 0
  {
    RunKeepsInv(n, events, cfg);
    assert BatchOk(Run(Init(n, cfg), events, cfg), Run(Init(n, cfg), events, cfg).sent[i]);
  }

  lemma {:induction false} NothingLost(s: State, events: seq<Event>, cfg: Config)
    requires NoWriteErrors(events) && s.lost == []
    ensures Run(s, events, cfg).lost == []
  {
    if events != [] {
      NothingLost(s, events[..|events| - 1], cfg);
    }
  }

  predicate Drained(s: State) {
    |s.workers| > 0 && forall i | 0 <= i < |s.workers| :: !s.workers[i].isOpen && !s.workers[i].doSend
  }

  lemma NothingOpen(workers: seq<Worker>)
    requires forall i | 0 <= i < |workers| :: workers[i].indices == [] && workers[i].byteCount == 0
    ensures OpenIndices(workers) == multiset{} && OpenBytes(workers) == 0
  {
    if workers != [] {
      NothingOpen(workers[1..]);
    }
  }

  /** After close and drain every queued buffer was handed to the sender exactly once and the read bytes add up. */
  lemma {:induction false} DrainedIsAllSent(n: nat, events: seq<Event>, cfg: Config)
    requires NoWriteErrors(events) && Drained(Run(Init(n, cfg), events, cfg))
    ensures var s := Run(Init(n, cfg), events, cfg);
            && s.taken == |s.history|
            && SentBytes(s.sent) == QueuedBytes(s.history)
            && forall j: nat :: SentIndices(s.sent)[j] == if j < |s.history| && s.history[j] != [] then 1 else 0
  {
    RunKeepsInv(n, events, cfg);
    NothingLost(Init(n, cfg), events, cfg);
    var s := Run(Init(n, cfg), events, cfg);
    forall i | 0 <= i < |s.workers|
      ensures s.workers[i].indices == [] && s.workers[i].byteCount == 0 && s.taken == |s.history|
    {
      assert WorkerOk(s, s.workers[i]);
    }
    NothingOpen(s.workers);
    assert !s.workers[0].isOpen;
    assert s.history[..s.taken] == s.history;
    forall j: nat ensures SentIndices(s.sent)[j] == if j < |s.history| && s.history[j] != [] then 1 else 0 {
      ReadIndicesCount(s.history, s.taken, j);
    }
  }
}
