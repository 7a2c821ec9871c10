/** The network device metrics: counters are sent as deltas, a zero delta after a zero delta is skipped, and every so
    many scans the full set is sent. */
module NetDev {
  import opened Common
  import opened Arithmetic

  const NUM_STATS := 16

  type Stats = s: seq<Counter> | |s| == NUM_STATS witness seq(NUM_STATS, _ => 0)
  type Flags = s: seq<bool> | |s| == NUM_STATS witness seq(NUM_STATS, _ => false)
  type Ages = s: seq<nat> | |s| == NUM_STATS witness seq(NUM_STATS, _ => 0)
  type Snapshot = map<string, Stats>

  /** What is sent for one device in one scan: a delta per counter, or nothing. */
  type Sent = s: seq<Option<Counter>> | |s| == NUM_STATS witness seq(NUM_STATS, _ => None)

  // ---------- Deltas and cycles ----------

  /** 64-bit addition, wrapping around. */
  function Plus(a: Counter, b: Counter): Counter {
    if a + b < U64 then a + b else a + b - U64
  }

  function NextDraw(cycleNum: nat): nat {
    if cycleNum == MAX_INT then 0 else cycleNum + 1
  }

  /** The source of initial cycle numbers, shared by all generators. */
  class InitialCycleNum {
    var cycleNum: nat

    constructor ()
      ensures cycleNum == 0
    {
      cycleNum := 0;
    }

    method Get(factor: int) returns (c: nat)
      requires cycleNum <= MAX_INT
      modifies this
      ensures c < Max(1, factor)
      ensures factor <= 1 ==> cycleNum == old(cycleNum)
      ensures factor > 1 ==> c == old(cycleNum) % factor
      ensures factor > 1 ==> cycleNum == NextDraw(old(cycleNum))
      ensures cycleNum <= MAX_INT
    {
      if factor <= 1 {
        return 0;
      }
      c := cycleNum % factor;
      // The increment of the largest int is negative.
      if cycleNum == MAX_INT {
        cycleNum := 0;
      } else {
        cycleNum := cycleNum + 1;
      }
    }
  }

  /** The counter after some draws. */
  function Drawn(cycleNum: nat, draws: nat): nat {
    if draws == 0 then cycleNum else NextDraw(Drawn(cycleNum, draws - 1))
  }

  lemma {:induction false} DrawnIs(cycleNum: nat, draws: nat)
    requires cycleNum <= MAX_INT && draws <= MAX_INT
    ensures Drawn(cycleNum, draws) == cycleNum + draws - if cycleNum + draws <= MAX_INT then 0 else MAX_INT + 1
  {
    if draws > 0 {
      DrawnIs(cycleNum, draws - 1);
    }
  }

  /** Of `factor` draws in a row no two give the same cycle number, so that the full cycles of new devices are spread
      evenly, except when the counter rolls over between them and their distance happens to fit. */
  lemma DrawsCollideExactlyWhen(cycleNum: nat, i: nat, j: nat, factor: nat)
    requires cycleNum <= MAX_INT && i < j < factor <= MAX_INT
    ensures Drawn(cycleNum, i) % factor == Drawn(cycleNum, j) % factor
       <==> cycleNum + i <= MAX_INT < cycleNum + j && (MAX_INT + 1 - (j - i)) % factor == 0
  {
    DrawnIs(cycleNum, i);
    DrawnIs(cycleNum, j);
    SameRemainder(Drawn(cycleNum, i), Drawn(cycleNum, j), factor);
    SameRemainder(Drawn(cycleNum, j), Drawn(cycleNum, i), factor);
    ModIsUnique(j - i, factor, 0, j - i);
  }

  /** With factor 7 the last draw before the rollover and the first one after it are the same cycle number. */
  lemma RolloverExample()
    ensures Drawn(MAX_INT, 0) == MAX_INT && Drawn(MAX_INT, 1) == 0
    ensures Drawn(MAX_INT, 0) % 7 == Drawn(MAX_INT, 1) % 7
  {
    DrawnIs(MAX_INT, 1);
    DrawsCollideExactlyWhen(MAX_INT, 0, 1, 7);
  }

  // ---------- One scan of one device ----------

  datatype Info = Info(cycleNum: int, zeroDelta: Flags)

  predicate IsFull(known: Option<Info>) {
    known.None? || known.value.cycleNum == 0
  }

  predicate Skips(known: Option<Info>, curr: Stats, prev: Stats, i: nat)
    requires i < NUM_STATS
  {
    Sub64(curr[i], prev[i]) == 0 && !IsFull(known) && known.value.zeroDelta[i]
  }

  function SendOne(known: Option<Info>, curr: Stats, prev: Stats, i: nat): Option<Counter>
    requires i < NUM_STATS
  {
    if Skips(known, curr, prev, i) then None else Some(Sub64(curr[i], prev[i]))
  }

  function SendDevice(known: Option<Info>, curr: Stats, prev: Stats): Sent
  {
    seq(NUM_STATS, i requires 0 <= i < NUM_STATS => SendOne(known, curr, prev, i))
  }

  function NextInfo(known: Option<Info>, start: int, curr: Stats, prev: Stats, factor: int): Info {
    Info(NextCycle(if known.Some? then known.value.cycleNum else start, factor),
         seq(NUM_STATS, i requires 0 <= i < NUM_STATS => Sub64(curr[i], prev[i]) == 0))
  }

  // ---------- The reader of the metrics ----------

  /** What a reader of the time series has of a device: the last delta sent of each counter, and how many scans of the
      device have gone by since. */
  datatype Series = Series(last: Stats, age: Ages)

  function Receive(series: Option<Series>, sent: Sent): Series
  {
    Series(seq(NUM_STATS, i requires 0 <= i < NUM_STATS =>
             if sent[i].Some? then sent[i].value else if series.Some? then series.value.last[i] else 0),
           seq(NUM_STATS, i requires 0 <= i < NUM_STATS =>
             if sent[i].Some? then 0 else if series.Some? then series.value.age[i] + 1 else 1))
  }

  /** In how many scans the next full cycle is. */
  function UntilFull(cycleNum: int, factor: int): int {
    if cycleNum == 0 then 1 else factor - cycleNum + 1
  }

  /** A counter is held back only if the reader has a zero for it, and never for too long. */
  ghost predicate Agrees(info: Info, series: Series, factor: int) {
    && 0 <= info.cycleNum < Max(1, factor)
    && (forall i | 0 <= i < NUM_STATS :: info.zeroDelta[i] ==> series.last[i] == 0)
    && (forall i | 0 <= i < NUM_STATS :: series.age[i] + UntilFull(info.cycleNum, factor) <= Max(1, factor))
  }

  ghost predicate Deltas(d: Stats, curr: Stats, prev: Stats) {
    forall i | 0 <= i < NUM_STATS :: d[i] == Sub64(curr[i], prev[i])
  }

  /** After a scan of a device the reader has the true delta of every counter, sent or not, and no counter was last sent
      `factor` or more scans ago. */
  lemma DeviceScan(known: Option<Info>, start: int, series: Option<Series>, curr: Stats, prev: Stats, factor: int)
    requires 0 <= start < Max(1, factor)
    requires known.Some? ==> series.Some? && Agrees(known.value, series.value, factor)
    ensures var series' := Receive(series, SendDevice(known, curr, prev));
            && Deltas(series'.last, curr, prev)
            && Agrees(NextInfo(known, start, curr, prev, factor), series', factor)
            && forall i | 0 <= i < NUM_STATS :: series'.age[i] < Max(1, factor)
  {
    var sent := SendDevice(known, curr, prev);
    var series' := Receive(series, sent);
    var info' := NextInfo(known, start, curr, prev, factor);
    forall i | 0 <= i < NUM_STATS
      ensures series'.last[i] == Sub64(curr[i], prev[i])
      ensures series'.age[i] + UntilFull(info'.cycleNum, factor) <= Max(1, factor)
      ensures series'.age[i] < Max(1, factor)
    {
      assert sent[i] == SendOne(known, curr, prev, i);
    }
  }

  // ---------- One scan of all devices ----------

  datatype State = State(prev: Option<Snapshot>, infos: map<string, Info>)

  function Known(infos: map<string, Info>, dev: string): Option<Info> {
    if dev in infos then Some(infos[dev]) else None
  }

  function StartOf(starts: map<string, int>, dev: string): int {
    if dev in starts then starts[dev] else 0
  }

  predicate StartsOk(starts: map<string, int>, factor: int) {
    forall dev | dev in starts :: 0 <= starts[dev] < Max(1, factor)
  }

  /** The devices in both snapshots. */
  function Shared(prev: Snapshot, curr: Snapshot): set<string> {
    prev.Keys * curr.Keys
  }

  function UpdateInfos(infos: map<string, Info>, prev: Snapshot, curr: Snapshot, devs: set<string>,
                       starts: map<string, int>, factor: int): map<string, Info>
    requires devs <= Shared(prev, curr)
  {
    map dev | dev in infos.Keys + devs ::
      if dev in devs then NextInfo(Known(infos, dev), StartOf(starts, dev), curr[dev], prev[dev], factor)
      else infos[dev]
  }

  function SendAll(infos: map<string, Info>, prev: Snapshot, curr: Snapshot, devs: set<string>): map<string, Sent>
    requires devs <= Shared(prev, curr)
  {
    map dev | dev in devs :: SendDevice(Known(infos, dev), curr[dev], prev[dev])
  }

  /** Devices are dropped only when there are more of them than in the snapshot. */
  function DropAbsent(infos: map<string, Info>, curr: Snapshot): map<string, Info> {
    if |infos| > |curr| then map dev | dev in infos && dev in curr :: infos[dev] else infos
  }

  /** The presence metric: 1 in the full cycles of a device, 0 when it is dropped. */
  function Presence(infos: map<string, Info>, devs: set<string>): map<string, bool> {
    map dev | dev in devs && IsFull(Known(infos, dev)) :: true
  }

  function Absence(infos: map<string, Info>, curr: Snapshot): map<string, bool> {
    if |infos| > |curr| then map dev | dev in infos && dev !in curr :: false else map[]
  }

  datatype Output = Output(deltas: map<string, Sent>, presence: map<string, bool>)

  function Scan(s: State, curr: Snapshot, starts: map<string, int>, factor: int): (State, Output)
  {
    if s.prev.None? then (State(Some(curr), s.infos), Output(map[], map[]))
    else
      var prev := s.prev.value;
      var devs := Shared(prev, curr);
      var infos := UpdateInfos(s.infos, prev, curr, devs, starts, factor);
      (State(Some(curr), DropAbsent(infos, curr)),
       Output(SendAll(s.infos, prev, curr, devs), Presence(s.infos, devs) + Absence(infos, curr)))
  }

  lemma SharedStep(prev: Snapshot, curr: Snapshot, devs: set<string>, dev: string)
    requires dev in devs && devs <= curr.Keys
    ensures var done := Shared(prev, curr) - devs;
            && dev !in done
            && Shared(prev, curr) - (devs - {dev}) == if dev in prev then done + {dev} else done
  {
  }

  /** One more device after `devs`: its own state, its deltas and its presence are added to theirs. */
  lemma OneMore(s: State, curr: Snapshot, devs: set<string>, dev: string, starts: map<string, int>, start: int,
                factor: int)
    requires s.prev.Some? && devs + {dev} <= Shared(s.prev.value, curr) && dev !in devs
    ensures var prev, known := s.prev.value, Known(s.infos, dev);
            var infos := UpdateInfos(s.infos, prev, curr, devs, starts, factor);
            && Known(infos, dev) == known
            && UpdateInfos(s.infos, prev, curr, devs + {dev}, starts[dev := start], factor)
               == infos[dev := NextInfo(known, start, curr[dev], prev[dev], factor)]
            && SendAll(s.infos, prev, curr, devs + {dev})
               == SendAll(s.infos, prev, curr, devs)[dev := SendDevice(known, curr[dev], prev[dev])]
            && Presence(s.infos, devs + {dev})
               == if IsFull(known) then Presence(s.infos, devs)[dev := true] else Presence(s.infos, devs)
  {
  }

  lemma ScanFinishes(s: State, curr: Snapshot, starts: map<string, int>, factor: int, infos: map<string, Info>,
                     out: Output)
    requires s.prev.Some?
    requires var prev := s.prev.value;
             var devs := Shared(prev, curr);
             && infos == UpdateInfos(s.infos, prev, curr, devs, starts, factor)
             && out.deltas == SendAll(s.infos, prev, curr, devs) && out.presence == Presence(s.infos, devs)
    ensures Scan(s, curr, starts, factor) ==
            (State(Some(curr), DropAbsent(infos, curr)), Output(out.deltas, out.presence + Absence(infos, curr)))
  {
  }

  function ReceiveAll(all: map<string, Series>, sent: map<string, Sent>): map<string, Series>
  {
    map dev | dev in all.Keys + sent.Keys ::
      if dev in sent then Receive(if dev in all then Some(all[dev]) else None, sent[dev]) else all[dev]
  }

  ghost predicate Inv(s: State, all: map<string, Series>, factor: int) {
    forall dev | dev in s.infos :: dev in all && Agrees(s.infos[dev], all[dev], factor)
  }

  /** The reader has the delta between the last two snapshots of every counter, and each was sent recently. */
  ghost predicate ReaderIsRight(series: Series, curr: Stats, prev: Stats, factor: int) {
    && Deltas(series.last, curr, prev)
    && forall i | 0 <= i < NUM_STATS :: series.age[i] < Max(1, factor)
  }

  /** What is kept for each device agrees with what the reader has, dropped or not. */
  lemma UpdateAgrees(infos: map<string, Info>, all: map<string, Series>, prev: Snapshot, curr: Snapshot,
                     starts: map<string, int>, factor: int, dev: string)
    requires Inv(State(Some(prev), infos), all, factor) && StartsOk(starts, factor)
    requires dev in infos.Keys + Shared(prev, curr)
    ensures var devs := Shared(prev, curr);
            var all' := ReceiveAll(all, SendAll(infos, prev, curr, devs));
            && dev in all' && Agrees(UpdateInfos(infos, prev, curr, devs, starts, factor)[dev], all'[dev], factor)
            && (dev in devs ==> ReaderIsRight(all'[dev], curr[dev], prev[dev], factor))
  {
    if dev in Shared(prev, curr) {
      DeviceScan(Known(infos, dev), StartOf(starts, dev), if dev in all then Some(all[dev]) else None,
                 curr[dev], prev[dev], factor);
    }
  }

  /** What every scan keeps, and what the reader then knows of each device that was in the last two snapshots. */
  lemma ScanKeepsInv(s: State, all: map<string, Series>, curr: Snapshot, starts: map<string, int>, factor: int)
    requires Inv(s, all, factor) && StartsOk(starts, factor)
    ensures var (s', out) := Scan(s, curr, starts, factor);
            var all' := ReceiveAll(all, out.deltas);
            && Inv(s', all', factor)
            && (s.prev.Some? ==> out.deltas.Keys == Shared(s.prev.value, curr))
            && forall dev | dev in out.deltas :: ReaderIsRight(all'[dev], curr[dev], s.prev.value[dev], factor)
  {
    var (s', out) := Scan(s, curr, starts, factor);
    var all' := ReceiveAll(all, out.deltas);
    if s.prev.Some? {
      forall dev | dev in s'.infos ensures dev in all' && Agrees(s'.infos[dev], all'[dev], factor) {
        UpdateAgrees(s.infos, all, s.prev.value, curr, starts, factor, dev);
      }
      forall dev | dev in out.deltas ensures ReaderIsRight(all'[dev], curr[dev], s.prev.value[dev], factor) {
        UpdateAgrees(s.infos, all, s.prev.value, curr, starts, factor, dev);
      }
    } else {
      assert all' == all;
    }
  }

  // ---------- Runs ----------

  datatype Input = Input(curr: Snapshot, starts: map<string, int>)

  /** A generator and its reader before the first scan and after every scan, and what each scan sent. */
  datatype Trace = Trace(states: seq<State>, readers: seq<map<string, Series>>, inputs: seq<Input>, outs: seq<Output>)

  ghost predicate IsRun(t: Trace, factor: int) {
    && |t.states| == |t.readers| == |t.inputs| + 1 && |t.outs| == |t.inputs|
    && t.states[0] == State(None, map[]) && t.readers[0] == map[]
    && forall k | 0 <= k < |t.inputs| :: StepAt(t, k, factor)
  }

  ghost predicate StepAt(t: Trace, k: nat, factor: int)
    requires |t.states| == |t.readers| == |t.inputs| + 1 && |t.outs| == |t.inputs| && k < |t.inputs|
  {
    IsStep(t.states[k], t.readers[k], t.inputs[k], t.states[k + 1], t.readers[k + 1], t.outs[k], factor)
  }

  ghost predicate IsStep(s: State, all: map<string, Series>, input: Input, s': State, all': map<string, Series>,
                         out: Output,
                         factor: int)
  {
    && StartsOk(input.starts, factor)
    && (s', out) == Scan(s, input.curr, input.starts, factor)
    && all' == ReceiveAll(all, out.deltas)
  }

  /** The reader is right about every device in both snapshots. */
  ghost predicate Told(all: map<string, Series>, curr: Snapshot, prev: Snapshot, factor: int) {
    forall dev | dev in prev && dev in curr :: dev in all && ReaderIsRight(all[dev], curr[dev], prev[dev], factor)
  }

  /** What one step of a run keeps and tells the reader. */
  lemma StepKeepsInv(s: State, all: map<string, Series>, input: Input, s': State, all': map<string, Series>,
                     out: Output,
                     factor: int)
    requires Inv(s, all, factor) && IsStep(s, all, input, s', all', out, factor)
    ensures Inv(s', all', factor) && s'.prev == Some(input.curr)
    ensures s.prev.Some? ==> Told(all', input.curr, s.prev.value, factor)
  {
    ScanKeepsInv(s, all, input.curr, input.starts, factor);
  }

  lemma ScanOfRun(t: Trace, k: nat, factor: int)
    requires IsRun(t, factor) && k < |t.inputs| && Inv(t.states[k], t.readers[k], factor)
    ensures Inv(t.states[k + 1], t.readers[k + 1], factor) && t.states[k + 1].prev == Some(t.inputs[k].curr)
    ensures t.states[k].prev.Some? ==> Told(t.readers[k + 1], t.inputs[k].curr, t.states[k].prev.value, factor)
  {
    assert StepAt(t, k, factor);
    StepKeepsInv(t.states[k], t.readers[k], t.inputs[k], t.states[k + 1], t.readers[k + 1], t.outs[k], factor);
  }

  lemma {:induction false} RunKeepsInv(t: Trace, k: nat, factor: int)
    requires IsRun(t, factor) && k <= |t.inputs|
    ensures Inv(t.states[k], t.readers[k], factor)
    ensures t.states[k].prev == if k == 0 then None else Some(t.inputs[k - 1].curr)
  {
    if k > 0 {
      RunKeepsInv(t, k - 1, factor);
      ScanOfRun(t, k - 1, factor);
    }
  }

  /** In every run, after every scan, carrying forward the last value sent gives the true delta of every counter
      of every device that was there in the last two snapshots, and each was sent within the last `factor` scans of
      the device. */
  lemma CarryForwardIsExact(t: Trace, k: nat, dev: string, factor: int)
    requires IsRun(t, factor) && k + 1 < |t.inputs|
    requires dev in t.inputs[k].curr && dev in t.inputs[k + 1].curr
    ensures dev in t.readers[k + 2]
    ensures ReaderIsRight(t.readers[k + 2][dev], t.inputs[k + 1].curr[dev], t.inputs[k].curr[dev], factor)
  {
    RunKeepsInv(t, k + 1, factor);
    ScanOfRun(t, k + 1, factor);
  }

  /** The counter a reader gets by adding what was sent of it to `from`, modulo 2^64. */
  function Integrate(from: Counter, outs: seq<Output>, dev: string, i: nat): Counter
    requires i < NUM_STATS
  {
    if outs == [] then from
    else
      var n := |outs| - 1;
      var sum := Integrate(from, outs[..n], dev, i);
      if dev in outs[n].deltas && outs[n].deltas[dev][i].Some? then Plus(sum, outs[n].deltas[dev][i].value) else sum
  }

  /** What is sent of a counter takes it from `before` to `after`. */
  ghost predicate Carries(out: Output, dev: string, i: nat, before: Counter, after: Counter)
    requires i < NUM_STATS
  {
    && dev in out.deltas
    && after == if out.deltas[dev][i].Some? then Plus(before, out.deltas[dev][i].value) else before
  }

  lemma ScanCarries(s: State, curr: Snapshot, starts: map<string, int>, factor: int, dev: string, i: nat)
    requires s.prev.Some? && dev in Shared(s.prev.value, curr) && i < NUM_STATS
    ensures Carries(Scan(s, curr, starts, factor).1, dev, i, s.prev.value[dev][i], curr[dev][i])
  {
    var known := Known(s.infos, dev);
    assert Scan(s, curr, starts, factor).1.deltas[dev][i] == SendOne(known, curr[dev], s.prev.value[dev], i);
  }

  lemma ScanOfRunCarries(t: Trace, k: nat, prev: Snapshot, dev: string, i: nat, factor: int)
    requires IsRun(t, factor) && k < |t.inputs| && i < NUM_STATS && t.states[k].prev == Some(prev)
    requires dev in prev && dev in t.inputs[k].curr
    ensures Carries(t.outs[k], dev, i, prev[dev][i], t.inputs[k].curr[dev][i])
  {
    assert StepAt(t, k, factor);
    ScanCarries(t.states[k], t.inputs[k].curr, t.inputs[k].starts, factor, dev, i);
  }

  lemma RunCarries(t: Trace, k: nat, dev: string, i: nat, factor: int)
    requires IsRun(t, factor) && k + 1 < |t.inputs| && i < NUM_STATS
    requires dev in t.inputs[k].curr && dev in t.inputs[k + 1].curr
    ensures Carries(t.outs[k + 1], dev, i, t.inputs[k].curr[dev][i], t.inputs[k + 1].curr[dev][i])
  {
    RunKeepsInv(t, k + 1, factor);
    ScanOfRunCarries(t, k + 1, t.inputs[k].curr, dev, i, factor);
  }

  lemma {:induction false} IntegrateCarried(outs: seq<Output>, counter: seq<Counter>, dev: string, i: nat)
    requires i < NUM_STATS && |counter| == |outs| + 1
    requires forall k | 0 <= k < |outs| :: Carries(outs[k], dev, i, counter[k], counter[k + 1])
    ensures Integrate(counter[0], outs, dev, i) == counter[|outs|]
    decreases |outs|
  {
    if outs != [] {
      var n := |outs| - 1;
      IntegrateCarried(outs[..n], counter[..n + 1], dev, i);
      assert Carries(outs[n], dev, i, counter[n], counter[n + 1]);
    }
  }

  /** While a device stays, the deltas sent of a counter add up to the counter: nothing is lost in the skipped scans. */
  lemma DeltasTelescope(t: Trace, from: nat, to: nat, dev: string, i: nat, factor: int)
    requires IsRun(t, factor) && from <= to < |t.inputs| && i < NUM_STATS
    requires forall k | from <= k <= to :: dev in t.inputs[k].curr
    ensures Integrate(t.inputs[from].curr[dev][i], t.outs[from + 1..to + 1], dev, i) == t.inputs[to].curr[dev][i]
  {
    var outs := t.outs[from + 1..to + 1];
    var counter := seq(to - from + 1, k requires 0 <= k <= to - from => t.inputs[from + k].curr[dev][i]);
    forall k | 0 <= k < |outs| ensures Carries(outs[k], dev, i, counter[k], counter[k + 1]) {
      RunCarries(t, from + k, dev, i, factor);
    }
    IntegrateCarried(outs, counter, dev, i);
  }

  /** Absent devices are forgotten exactly when there are more devices known than present; a device that leaves as
      another one arrives can stay known, and its absence is not reported then. */
  lemma AbsentDroppedExactlyWhen(s: State, curr: Snapshot, starts: map<string, int>, factor: int)
    requires s.prev.Some?
    ensures var (s', out) := Scan(s, curr, starts, factor);
            var absent := s.infos.Keys - curr.Keys;
            var dropping := |s.infos.Keys + Shared(s.prev.value, curr)| > |curr|;
            && (s'.infos.Keys * absent == {} <==> dropping || absent == {})
            && (forall dev | dev in absent :: dev in out.presence <==> dropping)
  {
    var infos := UpdateInfos(s.infos, s.prev.value, curr, Shared(s.prev.value, curr), starts, factor);
    assert infos.Keys == s.infos.Keys + Shared(s.prev.value, curr);
    if |infos| <= |curr| {
      assert s.infos.Keys - curr.Keys <= infos.Keys;
    }
  }

  /** For instance, when the only device is replaced by another one. */
  lemma KeptAlthoughAbsent(dev: string, other: string, info: Info, stats: Stats, factor: int)
    requires dev != other
    ensures var (s', out) := Scan(State(Some(map[dev := stats]), map[dev := info]), map[other := stats], map[], factor);
            dev in s'.infos && dev !in out.presence
  {
    var prev, curr := map[dev := stats], map[other := stats];
    assert Shared(prev, curr) == {};
    assert UpdateInfos(map[dev := info], prev, curr, {}, map[], factor) == map[dev := info];
    assert |map[dev := info]| == |curr|;
  }

  // ---------- The generator ----------

  /** Per device state; the label text cached for each metric is represented by the device name. */
  class DevInfo {
    const dev: string
    var cycleNum: int
    var zeroDelta: Flags

    constructor (dev: string, cycleNum: int)
      ensures this.dev == dev && this.cycleNum == cycleNum && zeroDelta == seq(NUM_STATS, _ => false)
    {
      this.dev, this.cycleNum, this.zeroDelta := dev, cycleNum, seq(NUM_STATS, _ => false);
    }

    function View(): Info
      reads this
    {
      Info(cycleNum, zeroDelta)
    }
  }

  class ProcNetDevMetrics {
    const fullMetricsFactor: int
    const initialCycleNum: InitialCycleNum
    var procNetDev: seq<Option<Snapshot>>
    var currIndex: nat
    var devInfoMap: map<string, DevInfo>

    ghost var infos: map<string, Info>
    ghost var repr: set<DevInfo>

    ghost predicate Valid()
      reads this, initialCycleNum, repr
    {
      && |procNetDev| == 2 && currIndex < 2
      && initialCycleNum.cycleNum <= MAX_INT
      && devInfoMap.Keys == infos.Keys
      && (forall dev {:trigger InfoOk(dev)} | dev in devInfoMap :: InfoOk(dev))
    }

    ghost predicate InfoOk(dev: string)
      requires dev in devInfoMap && dev in infos
      reads this`devInfoMap, this`infos, this`repr, repr
    {
      && devInfoMap[dev] in repr && devInfoMap[dev].dev == dev
      && devInfoMap[dev].View() == infos[dev] && 0 <= infos[dev].cycleNum < Max(1, fullMetricsFactor)
    }

    ghost function View(): State
      requires |procNetDev| == 2 && currIndex < 2
      reads this
    {
      State(procNetDev[1 - currIndex], infos)
    }

    constructor (fullMetricsFactor: int, initialCycleNum: InitialCycleNum)
      requires initialCycleNum.cycleNum <= MAX_INT
      ensures Valid() && View() == State(None, map[]) && repr == {}
      ensures this.fullMetricsFactor == fullMetricsFactor && this.initialCycleNum == initialCycleNum
    {
      this.fullMetricsFactor, this.initialCycleNum := fullMetricsFactor, initialCycleNum;
      procNetDev, currIndex, devInfoMap := [None, None], 0, map[];
      infos, repr := map[], {};
    }

    /** Sends the deltas of one device; the flags of the zero ones are updated in place. */
    method SendDeltas(info: DevInfo, fullMetrics: bool, curr: Stats, prev: Stats, ghost known: Option<Info>)
      returns (sent: Sent)
      requires fullMetrics == IsFull(known) && (known.Some? ==> known.value == info.View())
      modifies info`zeroDelta
      ensures sent == SendDevice(known, curr, prev)
      ensures info.zeroDelta == NextInfo(known, 0, curr, prev, fullMetricsFactor).zeroDelta
    {
      var out: seq<Option<Counter>> := [];
      var index := 0;
      while index < NUM_STATS
        invariant index == |out| <= NUM_STATS
        invariant forall i | 0 <= i < index :: out[i] == SendOne(known, curr, prev, i)
        invariant forall i | 0 <= i < index :: info.zeroDelta[i] == (Sub64(curr[i], prev[i]) == 0)
        invariant forall i | index <= i < NUM_STATS :: info.zeroDelta[i] == old(info.zeroDelta)[i]
      {
        var val := Sub64(curr[index], prev[index]);
        if val != 0 || fullMetrics || !info.zeroDelta[index] {
          out := out + [Some(val)];
        } else {
          out := out + [None];
        }
        info.zeroDelta := info.zeroDelta[index := val == 0];
        index := index + 1;
      }
      sent := out;
    }

    /** Makes the state of a new device. */
    method UpdateDevInfo(dev: string)
      requires Valid() && dev !in devInfoMap
      modifies this`devInfoMap, this`infos, this`repr, initialCycleNum
      ensures Valid() && devInfoMap.Keys == old(devInfoMap.Keys) + {dev} && fresh(devInfoMap[dev])
      ensures infos == old(infos)[dev := devInfoMap[dev].View()] && repr == old(repr) + {devInfoMap[dev]}
    {
      var c := initialCycleNum.Get(fullMetricsFactor);
      var info := new DevInfo(dev, c);
      assert forall d | d in devInfoMap :: InfoOk(d);
      devInfoMap, infos, repr := devInfoMap[dev := info], infos[dev := info.View()], repr + {info};
    }

    /** Sends the deltas of a device and moves it to its next cycle. */
    method Advance(dev: string, fullMetrics: bool, curr: Stats, prev: Stats, ghost known: Option<Info>)
      returns (sent: Sent)
      requires Valid() && dev in devInfoMap
      requires fullMetrics == IsFull(known) && (known.Some? ==> known.value == infos[dev])
      modifies this`infos, devInfoMap[dev]
      ensures Valid() && sent == SendDevice(known, curr, prev)
      ensures infos == old(infos)[dev := NextInfo(known, old(infos)[dev].cycleNum, curr, prev, fullMetricsFactor)]
    {
      var info := devInfoMap[dev];
      assert InfoOk(dev);
      assert forall d | d in devInfoMap && d != dev :: InfoOk(d) && devInfoMap[d] != info;
      sent := SendDeltas(info, fullMetrics, curr, prev, known);
      info.cycleNum := info.cycleNum + 1;
      if info.cycleNum >= fullMetricsFactor {
        info.cycleNum := 0;
      }
      infos := infos[dev := info.View()];
    }

    /** One device in both snapshots; `start` is its cycle number if it is new. */
    method ScanDevice(dev: string, curr: Stats, prev: Stats) returns (sent: Sent, fullMetrics: bool, ghost start: int)
      requires Valid()
      modifies this`devInfoMap, this`infos, this`repr, initialCycleNum, repr
      ensures Valid() && fresh(repr - old(repr)) && 0 <= start < Max(1, fullMetricsFactor)
      ensures var known := Known(old(infos), dev);
              && sent == SendDevice(known, curr, prev) && fullMetrics == IsFull(known)
              && infos == old(infos)[dev := NextInfo(known, start, curr, prev, fullMetricsFactor)]
    {
      ghost var known := Known(infos, dev);
      assert dev in devInfoMap ==> InfoOk(dev);
      fullMetrics := dev !in devInfoMap || devInfoMap[dev].cycleNum == 0;
      if dev !in devInfoMap {
        UpdateDevInfo(dev);
      }
      assert InfoOk(dev);
      start := infos[dev].cycleNum;
      sent := Advance(dev, fullMetrics, curr, prev, known);
    }

    /** What was sent, and the state of the devices, are those of a scan of `s` that has got through `devs`. */
    ghost predicate Partway(s: State, curr: Snapshot, devs: set<string>, starts: map<string, int>, out: Output)
      requires s.prev.Some? && devs <= Shared(s.prev.value, curr)
      reads this`infos
    {
      && StartsOk(starts, fullMetricsFactor)
      && infos == UpdateInfos(s.infos, s.prev.value, curr, devs, starts, fullMetricsFactor)
      && out.deltas == SendAll(s.infos, s.prev.value, curr, devs)
      && out.presence == Presence(s.infos, devs)
    }

    method ScanNext(dev: string, curr: Snapshot, prev: Snapshot, out: Output,
                    ghost s: State, ghost devs: set<string>, ghost starts: map<string, int>)
      returns (out': Output, ghost starts': map<string, int>)
      requires Valid() && s.prev == Some(prev) && dev in Shared(prev, curr)
      requires devs <= Shared(prev, curr) && dev !in devs && Partway(s, curr, devs, starts, out)
      modifies this`devInfoMap, this`infos, this`repr, initialCycleNum, repr
      ensures Valid() && fresh(repr - old(repr))
      ensures Partway(s, curr, devs + {dev}, starts', out')
    {
      var sent, fullMetrics;
      ghost var start;
      sent, fullMetrics, start := ScanDevice(dev, curr[dev], prev[dev]);
      OneMore(s, curr, devs, dev, starts, start, fullMetricsFactor);
      starts' := starts[dev := start];
      out' := Output(out.deltas[dev := sent], if fullMetrics then out.presence[dev := true] else out.presence);
    }

    /** Sends the deltas, and the presence in full cycles, of all the devices in both snapshots. */
    method ScanDevices(curr: Snapshot, prev: Snapshot) returns (out: Output, ghost starts: map<string, int>)
      requires Valid()
      modifies this`devInfoMap, this`infos, this`repr, initialCycleNum, repr
      ensures Valid() && fresh(repr - old(repr))
      ensures Partway(State(Some(prev), old(infos)), curr, Shared(prev, curr), starts, out)
    {
      ghost var s := State(Some(prev), infos);
      ghost var done: set<string> := {};
      out, starts := Output(map[], map[]), map[];
      var devs := curr.Keys;
      while devs != {}
        invariant Valid() && fresh(repr - old(repr))
        invariant devs <= curr.Keys && done == Shared(prev, curr) - devs <= Shared(prev, curr)
        invariant Partway(s, curr, done, starts, out)
        decreases devs
      {
        var dev :| dev in devs;
        SharedStep(prev, curr, devs, dev);
        devs := devs - {dev};
        if dev in prev {
          out, starts := ScanNext(dev, curr, prev, out, s, done, starts);
          done := done + {dev};
        }
      }
      assert done == Shared(prev, curr);
    }

    /** Forgets the devices that are gone, if there are more known than present. */
    method DropAbsentDevices(curr: Snapshot) returns (presence: map<string, bool>)
      requires Valid()
      modifies this`devInfoMap, this`infos
      ensures Valid() && infos == DropAbsent(old(infos), curr) && presence == Absence(old(infos), curr)
    {
      presence := map[];
      if |devInfoMap| > |curr| {
        presence := map dev | dev in devInfoMap && dev !in curr :: false;
        ghost var kept := DropAbsent(infos, curr);
        assert forall dev | dev in kept :: InfoOk(dev);
        devInfoMap := map dev | dev in devInfoMap && dev in curr :: devInfoMap[dev];
        infos := kept;
      }
    }

    /** Generates the metrics out of the latest two snapshots. */
    method GenerateMetrics() returns (out: Output, ghost starts: map<string, int>)
      requires Valid() && procNetDev[currIndex].Some?
      modifies this, initialCycleNum, repr
      ensures Valid() && fresh(repr - old(repr)) && StartsOk(starts, fullMetricsFactor)
      ensures (View(), out) == Scan(old(View()), old(procNetDev[currIndex].value), starts, fullMetricsFactor)
    {
      var curr, prev := procNetDev[currIndex].value, procNetDev[1 - currIndex];
      currIndex := 1 - currIndex;
      if prev.None? {
        out, starts := Output(map[], map[]), map[];
        return;
      }
      out, starts := ScanDevices(curr, prev.value);
      ScanFinishes(State(prev, old(infos)), curr, starts, fullMetricsFactor, infos, out);
      var presence := DropAbsentDevices(curr);
      out := Output(out.deltas, out.presence + presence);
    }

    /** Runs one scan; `parsed` is what was read, if it could be parsed. The snapshots take turns in `procNetDev`. */
    method Execute(parsed: Option<Snapshot>) returns (ok: bool, out: Output, ghost starts: map<string, int>)
      requires Valid()
      modifies this, initialCycleNum, repr
      ensures ok == parsed.Some? && Valid() && fresh(repr - old(repr)) && StartsOk(starts, fullMetricsFactor)
      ensures ok ==> (View(), out) == Scan(old(View()), parsed.value, starts, fullMetricsFactor)
      ensures !ok ==> View() == old(View()) && out == Output(map[], map[])
    {
      ok, out, starts := parsed.Some?, Output(map[], map[]), map[];
      if ok {
        procNetDev := procNetDev[currIndex := parsed];
        assert View() == old(View());
        out, starts := GenerateMetrics();
      }
    }
  }
}
