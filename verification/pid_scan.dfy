/** What one scan of the PID metrics generator does, stated on values.

    The cache is a sequence of entries in LRU order (head first). A scan handles one reading per listed PID/TID,
    then drops the stale prefix. That is what the generator does as long as it reads no PID that was left in its map
    but off its list; `PidSound` proves that, and `PidStore` says what it does in general. */
module PidScan {
  import opened Common

  const PID_ONLY_TID: int := 0

  datatype PidTid = PidTid(pid: int, tid: int)
  datatype Fault = Minor | Major

  /** The fields of /proc/PID/stat that decide reuse, activity and the fault deltas. */
  datatype Snapshot = Snapshot(starttime: int, utime: Counter, stime: Counter, minflt: Counter, majflt: Counter)
  {
    function Faults(f: Fault): Counter {
      if f.Minor? then minflt else majflt
    }
  }

  datatype Entry = Entry(pidTid: PidTid, snap: Snapshot, active: bool, minZero: bool, majZero: bool,
                         cycleNum: int, scanNum: Int64)
  {
    predicate ZeroDelta(f: Fault) {
      if f.Minor? then minZero else majZero
    }
  }

  /** Everything the outside world supplies for one listed PID/TID: the parsed stat (or a parse error, with whatever
      the failed parse left in the scratch parser), the outcome of the other two parsers and a fresh initial cycle#. */
  datatype Reading = Reading(pidTid: PidTid, stat: Option<Snapshot>, residue: Snapshot,
                             statusOk: bool, cmdlineOk: bool, initialCycleNum: nat)
  {
    predicate IsPid() {
      pidTid.tid == PID_ONLY_TID
    }
  }

  datatype Config = Config(usePidStatus: bool, fullMetricsFactor: int)

  /** `Created` marks the first generation of a (new incarnation of a) PID/TID; `Delta` is an emitted fault metric. */
  datatype Event = Created(pidTid: PidTid, snap: Snapshot) | Delta(pidTid: PidTid, fault: Fault, delta: Counter)

  datatype Progress = Progress(view: seq<Entry>, log: seq<Event>, added: nat, deleted: nat, parsed: nat, active: nat)

  // ---------- One reading ----------

  function IndexOf(view: seq<Entry>, p: PidTid): (i: int)
    ensures -1 <= i < |view|
    ensures i >= 0 ==> view[i].pidTid == p
    ensures i < 0 ==> forall j | 0 <= j < |view| :: view[j].pidTid != p
  {
    if view == [] then -1
    else if view[0].pidTid == p then 0
    else
      var i := IndexOf(view[1..], p);
      assert forall j | 1 <= j < |view| :: view[j] == view[1..][j - 1];
      if i < 0 then -1 else i + 1
  }

  predicate Holds(view: seq<Entry>, p: PidTid) {
    IndexOf(view, p) >= 0
  }

  function Without(view: seq<Entry>, i: int): (rest: seq<Entry>)
    requires -1 <= i < |view|
    ensures |rest| == |view| - Bit(i >= 0)
    ensures forall j | 0 <= j < |rest| :: rest[j] == view[if 0 <= i <= j then j + 1 else j]
  {
    if i < 0 then view else view[..i] + view[i + 1..]
  }

  function Lookup(view: seq<Entry>, p: PidTid): Option<Entry> {
    if Holds(view, p) then Some(view[IndexOf(view, p)]) else None
  }

  /** The cached entry, if it belongs to the same incarnation as the current stat. */
  function Previous(view: seq<Entry>, r: Reading): Option<Entry>
    requires r.stat.Some?
  {
    var cached := Lookup(view, r.pidTid);
    if cached.Some? && cached.value.snap.starttime == r.stat.value.starttime then cached else None
  }

  predicate Reused(view: seq<Entry>, r: Reading) {
    Holds(view, r.pidTid) && r.stat.Some? && Previous(view, r).None?
  }

  predicate CpuMoved(prev: Snapshot, curr: Snapshot) {
    curr.utime != prev.utime || curr.stime != prev.stime
  }

  predicate Active(prev: Option<Entry>, curr: Snapshot) {
    prev.None? || CpuMoved(prev.value.snap, curr)
  }

  predicate FullMetrics(prev: Option<Entry>) {
    prev.Some? && prev.value.cycleNum == 0
  }

  /** Inactive after inactive outside a full metrics cycle: only marked as scanned. */
  predicate Idle(prev: Option<Entry>, curr: Snapshot) {
    !Active(prev, curr) && !FullMetrics(prev) && !prev.value.active
  }

  predicate OtherParsersOk(prev: Option<Entry>, r: Reading, cfg: Config) {
    && (cfg.usePidStatus ==> r.statusOk)
    && (r.IsPid() && (FullMetrics(prev) || prev.None?) ==> r.cmdlineOk)
  }

  /** Unsigned 64-bit subtraction. */
  function FaultEvent(prev: Entry, curr: Snapshot, f: Fault): seq<Event> {
    var delta := Sub64(curr.Faults(f), prev.snap.Faults(f));
    if delta != 0 || FullMetrics(Some(prev)) || !prev.ZeroDelta(f) then [Delta(prev.pidTid, f, delta)] else []
  }

  function Emitted(prev: Option<Entry>, r: Reading): seq<Event>
    requires r.stat.Some?
  {
    if prev.None? then [Created(r.pidTid, r.stat.value)]
    else FaultEvent(prev.value, r.stat.value, Minor) + FaultEvent(prev.value, r.stat.value, Major)
  }

  /** The entry after its metrics were generated from the current stat. */
  function Generated(prev: Option<Entry>, r: Reading, scanNum: Int64, cfg: Config): Entry
    requires r.stat.Some?
  {
    var curr := r.stat.value;
    match prev
    case None => Entry(r.pidTid, curr, true, false, false, NextCycle(r.initialCycleNum, cfg.fullMetricsFactor), scanNum)
    case Some(e) => Entry(r.pidTid, curr, CpuMoved(e.snap, curr),
                          Sub64(curr.minflt, e.snap.minflt) == 0, Sub64(curr.majflt, e.snap.majflt) == 0,
                          NextCycle(e.cycleNum, cfg.fullMetricsFactor), scanNum)
  }

  /** Whether the reading leaves its PID/TID in the cache. */
  predicate Kept(view: seq<Entry>, r: Reading, cfg: Config) {
    && r.stat.Some?
    && var prev := Previous(view, r);
       Idle(prev, r.stat.value) || OtherParsersOk(prev, r, cfg)
  }

  /** A changed start time followed by a status or cmdline error: the old entry stays in the map, off the list. */
  predicate Strands(view: seq<Entry>, r: Reading, cfg: Config) {
    Reused(view, r) && !Kept(view, r, cfg)
  }

  function Refreshed(view: seq<Entry>, r: Reading, scanNum: Int64, cfg: Config): (e: Entry)
    requires Kept(view, r, cfg)
    ensures e.pidTid == r.pidTid && Fresh(e, scanNum)
  {
    var prev := Previous(view, r);
    if Idle(prev, r.stat.value) then
      prev.value.(cycleNum := NextCycle(prev.value.cycleNum, cfg.fullMetricsFactor), scanNum := scanNum)
    else
      Generated(prev, r, scanNum, cfg)
  }

  /** One reading: its entry leaves the list and, if kept, comes back refreshed at the tail. */
  function ScanOne(acc: Progress, r: Reading, scanNum: Int64, cfg: Config): Progress {
    var rest := Without(acc.view, IndexOf(acc.view, r.pidTid));
    if !Kept(acc.view, r, cfg) then
      acc.(view := rest, deleted := acc.deleted + Bit(Holds(acc.view, r.pidTid)))
    else
      var prev := Previous(acc.view, r);
      var acc' := acc.(view := rest + [Refreshed(acc.view, r, scanNum, cfg)], parsed := acc.parsed + 1);
      if Idle(prev, r.stat.value) then acc'
      else
        acc'.(log := acc.log + Emitted(prev, r),
              added := acc.added + Bit(prev.None?),
              deleted := acc.deleted + Bit(Reused(acc.view, r)),
              active := acc.active + Bit(Active(prev, r.stat.value)))
  }

  /** The part of `ScanOne` after a known PID/TID was taken off the list. */
  function ScanKnown(acc: Progress, e: Entry, r: Reading, scanNum: Int64, cfg: Config): Progress
    requires r.stat.Some?
  {
    var curr := r.stat.value;
    if Idle(Some(e), curr) then
      acc.(view := acc.view + [e.(cycleNum := NextCycle(e.cycleNum, cfg.fullMetricsFactor), scanNum := scanNum)],
           parsed := acc.parsed + 1)
    else if !OtherParsersOk(Some(e), r, cfg) then
      acc.(deleted := acc.deleted + 1)
    else
      acc.(view := acc.view + [Generated(Some(e), r, scanNum, cfg)], log := acc.log + Emitted(Some(e), r),
           parsed := acc.parsed + 1, active := acc.active + Bit(CpuMoved(e.snap, curr)))
  }

  /** The part of `ScanOne` for a new incarnation. */
  function ScanNew(acc: Progress, r: Reading, scanNum: Int64, cfg: Config): Progress
    requires r.stat.Some?
  {
    if !OtherParsersOk(None, r, cfg) then acc
    else
      acc.(view := acc.view + [Generated(None, r, scanNum, cfg)], log := acc.log + Emitted(None, r),
           added := acc.added + 1, parsed := acc.parsed + 1, active := acc.active + 1)
  }

  lemma ScanOneByCases(acc: Progress, r: Reading, scanNum: Int64, cfg: Config)
    ensures var rest := acc.(view := Without(acc.view, IndexOf(acc.view, r.pidTid)));
            var gone := rest.(deleted := acc.deleted + Bit(Holds(acc.view, r.pidTid)));
            ScanOne(acc, r, scanNum, cfg) ==
            if r.stat.None? then gone
            else if Previous(acc.view, r).Some? then ScanKnown(rest, Previous(acc.view, r).value, r, scanNum, cfg)
            else ScanNew(gone, r, scanNum, cfg)
  {
  }

  function ScanAll(acc: Progress, rs: seq<Reading>, scanNum: Int64, cfg: Config): Progress {
    if rs == [] then acc
    else ScanOne(ScanAll(acc, rs[..|rs| - 1], scanNum, cfg), rs[|rs| - 1], scanNum, cfg)
  }

  /** The PIDs left in the map but off the list: those there were and those that the readings strand. */
  function StraysAfter(strays: set<PidTid>, acc: Progress, rs: seq<Reading>, scanNum: Int64, cfg: Config): set<PidTid> {
    if rs == [] then strays
    else
      var n := |rs| - 1;
      StraysAfter(strays, acc, rs[..n], scanNum, cfg)
        + if Strands(ScanAll(acc, rs[..n], scanNum, cfg).view, rs[n], cfg) then {rs[n].pidTid} else {}
  }

  /** No reading is of a PID stranded before. */
  predicate ReadsNoStray(strays: set<PidTid>, acc: Progress, rs: seq<Reading>, scanNum: Int64, cfg: Config) {
    forall k | 0 <= k < |rs| :: rs[k].pidTid !in StraysAfter(strays, acc, rs[..k], scanNum, cfg)
  }

  // ---------- Pruning ----------

  /** What the prune loop does: drop entries from the head up to the first fresh one. */
  function DropStalePrefix(view: seq<Entry>, scanNum: Int64): seq<Entry> {
    if view == [] || view[0].scanNum == scanNum then view else DropStalePrefix(view[1..], scanNum)
  }

  /** What it stands for: a sweep of the whole cache. */
  function Sweep(view: seq<Entry>, scanNum: Int64): seq<Entry> {
    if view == [] then []
    else (if view[0].scanNum == scanNum then [view[0]] else []) + Sweep(view[1..], scanNum)
  }

  predicate Fresh(e: Entry, scanNum: Int64) {
    e.scanNum == scanNum
  }

  /** The prune loop reads through a nil `next` exactly when every entry is stale and there is one. */
  predicate PruneFaults(view: seq<Entry>, scanNum: Int64) {
    view != [] && forall i | 0 <= i < |view| :: !Fresh(view[i], scanNum)
  }

  predicate StaleThenFresh(view: seq<Entry>, scanNum: Int64) {
    forall i, j | 0 <= i < j < |view| :: Fresh(view[i], scanNum) ==> Fresh(view[j], scanNum)
  }

  predicate Distinct(view: seq<Entry>) {
    forall i, j | 0 <= i < j < |view| :: view[i].pidTid != view[j].pidTid
  }

  // ---------- A whole scan, and runs of scans ----------

  /** `strays` are the PIDs that are mapped but not listed. */
  datatype Cache = Cache(view: seq<Entry>, scanNum: Int64, log: seq<Event>, strays: set<PidTid>)

  const EMPTY_CACHE := Cache([], 0, [], {})

  function ProgressFrom(c: Cache): Progress {
    Progress(c.view, c.log, 0, 0, 0, 0)
  }

  /** Two's complement increment that skips 0. */
  function NextScanNum(n: Int64): Int64 {
    var m := if n == MAX_INT then MIN_INT else n + 1;
    if m == 0 then 1 else m
  }

  function Scanned(c: Cache, rs: seq<Reading>, cfg: Config): Progress {
    ScanAll(ProgressFrom(c), rs, NextScanNum(c.scanNum), cfg)
  }

  /** The two conditions under which a scan is sound; both are about the cache and the readings alone. */
  predicate Sound(c: Cache, rs: seq<Reading>, cfg: Config) {
    && ReadsNoStray(c.strays, ProgressFrom(c), rs, NextScanNum(c.scanNum), cfg)
    && !PruneFaults(Scanned(c, rs, cfg).view, NextScanNum(c.scanNum))
  }

  function Execute(c: Cache, rs: seq<Reading>, cfg: Config): Cache {
    var p := Scanned(c, rs, cfg);
    var n := NextScanNum(c.scanNum);
    Cache(DropStalePrefix(p.view, n), n, p.log, StraysAfter(c.strays, ProgressFrom(c), rs, n, cfg))
  }

  function Run(c: Cache, scans: seq<seq<Reading>>, cfg: Config): Cache {
    if scans == [] then c
    else Execute(Run(c, scans[..|scans| - 1], cfg), scans[|scans| - 1], cfg)
  }

  /** The counter of the latest `Created` of a PID/TID, and the sum of what was emitted for it since. */
  function FirstGenerated(log: seq<Event>, p: PidTid, f: Fault): Option<Counter> {
    if log == [] then None
    else
      var e := log[|log| - 1];
      if e.Created? && e.pidTid == p then Some(e.snap.Faults(f)) else FirstGenerated(log[..|log| - 1], p, f)
  }

  function EmittedSum(log: seq<Event>, p: PidTid, f: Fault): nat {
    if log == [] then 0
    else
      var e := log[|log| - 1];
      var before := log[..|log| - 1];
      if e.pidTid != p then EmittedSum(before, p, f)
      else if e.Created? then 0
      else if e.fault == f then EmittedSum(before, p, f) + e.delta
      else EmittedSum(before, p, f)
  }

  /** Every cached counter is the first generated one plus everything emitted since, modulo 2^64. */
  predicate Accounted(view: seq<Entry>, log: seq<Event>) {
    forall i, f: Fault | 0 <= i < |view| :: AccountedFor(view[i], log, f)
  }

  predicate AccountedFor(e: Entry, log: seq<Event>, f: Fault) {
    var first := FirstGenerated(log, e.pidTid, f);
    first.Some? && e.snap.Faults(f) == (first.value + EmittedSum(log, e.pidTid, f)) % U64
  }

  /** What holds of the cache between scans. */
  predicate Settled(c: Cache) {
    && Distinct(c.view)
    && (forall i | 0 <= i < |c.view| :: Fresh(c.view[i], c.scanNum))
    && Accounted(c.view, c.log)
  }

  // ---------- Lemmas about one reading ----------

  lemma WithoutKeepsShape(view: seq<Entry>, p: PidTid, n: Int64)
    requires Distinct(view) && StaleThenFresh(view, n)
    ensures var rest := Without(view, IndexOf(view, p));
            Distinct(rest) && StaleThenFresh(rest, n) && !Holds(rest, p)
  {
  }

  lemma AppendKeepsShape(rest: seq<Entry>, e: Entry, n: Int64)
    requires Distinct(rest) && StaleThenFresh(rest, n) && !Holds(rest, e.pidTid) && Fresh(e, n)
    ensures Distinct(rest + [e]) && StaleThenFresh(rest + [e], n) && Lookup(rest + [e], e.pidTid) == Some(e)
  {
    var view := rest + [e];
    assert view[|rest|] == e && forall j | 0 <= j < |rest| :: view[j] == rest[j];
  }

  lemma EventsElsewhere(log: seq<Event>, more: seq<Event>, p: PidTid, f: Fault)
    requires forall k | 0 <= k < |more| :: more[k].pidTid != p
    ensures FirstGenerated(log + more, p, f) == FirstGenerated(log, p, f)
    ensures EmittedSum(log + more, p, f) == EmittedSum(log, p, f)
  {
    if more == [] {
      assert log + more == log;
    } else {
      var before := more[..|more| - 1];
      assert (log + more)[..|log + more| - 1] == log + before;
      EventsElsewhere(log, before, p, f);
    }
  }

  lemma FaultEventAdds(log: seq<Event>, e: Entry, curr: Snapshot, g: Fault, f: Fault)
    ensures var more := FaultEvent(e, curr, g);
            && FirstGenerated(log + more, e.pidTid, f) == FirstGenerated(log, e.pidTid, f)
            && EmittedSum(log + more, e.pidTid, f) ==
               EmittedSum(log, e.pidTid, f) + (if g == f then Sub64(curr.Faults(f), e.snap.Faults(f)) else 0)
  {
    var more := FaultEvent(e, curr, g);
    if more == [] {
      assert log + more == log;
    } else {
      assert (log + more)[..|log + more| - 1] == log;
    }
  }

  lemma DeltaLandsOnCounter(x: nat, prev: Counter, curr: Counter)
    requires prev == x % U64
    ensures (x + Sub64(curr, prev)) % U64 == curr
  {
    var q := x / U64;
    assert x == q * U64 + prev;
    if curr >= prev {
      assert x + Sub64(curr, prev) == q * U64 + curr;
    } else {
      assert Sub64(curr, prev) == curr - prev + U64;
      assert x + Sub64(curr, prev) == (q + 1) * U64 + curr;
    }
  }

  /** The generated entry is accounted for whatever was skipped before: idle scans keep the old snapshot, and an
      unemitted delta is zero. */
  lemma GeneratedIsAccounted(prev: Option<Entry>, r: Reading, n: Int64, cfg: Config, log: seq<Event>, f: Fault)
    requires r.stat.Some?
    requires prev.Some? ==> prev.value.pidTid == r.pidTid && AccountedFor(prev.value, log, f)
    ensures AccountedFor(Generated(prev, r, n, cfg), log + Emitted(prev, r), f)
  {
    if prev.None? {
      var log' := log + Emitted(prev, r);
      assert log'[|log'| - 1] == Created(r.pidTid, r.stat.value);
    } else {
      var e, curr := prev.value, r.stat.value;
      var minor, major := FaultEvent(e, curr, Minor), FaultEvent(e, curr, Major);
      FaultEventAdds(log, e, curr, Minor, f);
      FaultEventAdds(log + minor, e, curr, Major, f);
      assert log + Emitted(prev, r) == log + minor + major;
      DeltaLandsOnCounter(FirstGenerated(log, e.pidTid, f).value + EmittedSum(log, e.pidTid, f),
                          e.snap.Faults(f), curr.Faults(f));
    }
  }

  lemma OthersKeepAccounts(acc: Progress, r: Reading, e: Entry, emitted: seq<Event>, f: Fault)
    requires AccountedFor(e, acc.log, f) && e.pidTid != r.pidTid
    requires emitted == [] || (r.stat.Some? && emitted == Emitted(Previous(acc.view, r), r))
    ensures AccountedFor(e, acc.log + emitted, f)
  {
    if emitted == [] {
      assert acc.log + emitted == acc.log;
    } else {
      EventsElsewhere(acc.log, emitted, e.pidTid, f);
    }
  }

  lemma KeptIsAccounted(acc: Progress, r: Reading, n: Int64, cfg: Config, f: Fault)
    requires Accounted(acc.view, acc.log) && Kept(acc.view, r, cfg)
    ensures AccountedFor(Refreshed(acc.view, r, n, cfg), ScanOne(acc, r, n, cfg).log, f)
  {
    var prev := Previous(acc.view, r);
    if prev.Some? {
      assert AccountedFor(acc.view[IndexOf(acc.view, r.pidTid)], acc.log, f);
    }
    if !Idle(prev, r.stat.value) {
      GeneratedIsAccounted(prev, r, n, cfg, acc.log, f);
    }
  }

  lemma ScanOneKeepsAccounts(acc: Progress, r: Reading, n: Int64, cfg: Config)
    requires Distinct(acc.view) && Accounted(acc.view, acc.log)
    ensures var acc' := ScanOne(acc, r, n, cfg); Accounted(acc'.view, acc'.log)
  {
    var acc' := ScanOne(acc, r, n, cfg);
    var i := IndexOf(acc.view, r.pidTid);
    var rest := Without(acc.view, i);
    var emitted := if acc'.log == acc.log then [] else Emitted(Previous(acc.view, r), r);
    assert acc'.log == acc.log + emitted;
    forall j, f: Fault | 0 <= j < |acc'.view|
      ensures AccountedFor(acc'.view[j], acc'.log, f)
    {
      if j < |rest| {
        var e := acc.view[if 0 <= i <= j then j + 1 else j];
        assert acc'.view[j] == e && AccountedFor(e, acc.log, f) && e.pidTid != r.pidTid;
        OthersKeepAccounts(acc, r, e, emitted, f);
      } else {
        KeptIsAccounted(acc, r, n, cfg, f);
      }
    }
  }

  lemma ScanOneKeepsShape(acc: Progress, r: Reading, n: Int64, cfg: Config)
    requires Distinct(acc.view) && StaleThenFresh(acc.view, n)
    ensures var acc' := ScanOne(acc, r, n, cfg);
            && Distinct(acc'.view) && StaleThenFresh(acc'.view, n)
            && |acc'.view| + acc'.deleted + acc.added == |acc.view| + acc'.added + acc.deleted
            && Lookup(acc'.view, r.pidTid) ==
               (if Kept(acc.view, r, cfg) then Some(Refreshed(acc.view, r, n, cfg)) else None)
  {
    WithoutKeepsShape(acc.view, r.pidTid, n);
    if Kept(acc.view, r, cfg) {
      AppendKeepsShape(Without(acc.view, IndexOf(acc.view, r.pidTid)), Refreshed(acc.view, r, n, cfg), n);
    }
  }

  lemma WithoutLeavesOthers(view: seq<Entry>, i: int, p: PidTid)
    requires Distinct(view) && -1 <= i < |view| && (i >= 0 ==> view[i].pidTid != p)
    ensures Distinct(Without(view, i)) && Lookup(Without(view, i), p) == Lookup(view, p)
  {
    var rest, k := Without(view, i), IndexOf(view, p);
    if k >= 0 {
      LookupInDistinct(rest, if 0 <= i < k then k - 1 else k);
    }
  }

  lemma ScanOneLeavesOthers(acc: Progress, r: Reading, n: Int64, cfg: Config, p: PidTid)
    requires Distinct(acc.view) && p != r.pidTid
    ensures Lookup(ScanOne(acc, r, n, cfg).view, p) == Lookup(acc.view, p)
  {
    var i := IndexOf(acc.view, r.pidTid);
    WithoutLeavesOthers(acc.view, i, p);
    if Kept(acc.view, r, cfg) {
      AppendLeavesOthers(Without(acc.view, i), Refreshed(acc.view, r, n, cfg), p);
    }
  }

  lemma AppendLeavesOthers(rest: seq<Entry>, e: Entry, p: PidTid)
    requires p != e.pidTid
    ensures Lookup(rest + [e], p) == Lookup(rest, p)
  {
    if rest != [] {
      assert (rest + [e])[1..] == rest[1..] + [e];
      AppendLeavesOthers(rest[1..], e, p);
    }
  }

  // ---------- Whole scans ----------

  /** Mid-scan the list is a stale prefix followed by a fresh suffix, every PID/TID is cached once, the size is
      accounted for and so is every counter. */
  lemma {:induction false} ScanAllInvariant(acc: Progress, rs: seq<Reading>, n: Int64, cfg: Config)
    requires Distinct(acc.view) && StaleThenFresh(acc.view, n) && Accounted(acc.view, acc.log)
    ensures var acc' := ScanAll(acc, rs, n, cfg);
            && Distinct(acc'.view) && StaleThenFresh(acc'.view, n) && Accounted(acc'.view, acc'.log)
            && |acc'.view| + acc'.deleted + acc.added == |acc.view| + acc'.added + acc.deleted
  {
    if rs != [] {
      var before := ScanAll(acc, rs[..|rs| - 1], n, cfg);
      ScanAllInvariant(acc, rs[..|rs| - 1], n, cfg);
      ScanOneKeepsShape(before, rs[|rs| - 1], n, cfg);
      ScanOneKeepsAccounts(before, rs[|rs| - 1], n, cfg);
    }
  }

  /** Dropping only a prefix of the list deletes exactly what sweeping the whole cache would. */
  lemma {:induction false} PruneIsSweep(view: seq<Entry>, n: Int64)
    requires StaleThenFresh(view, n)
    ensures DropStalePrefix(view, n) == Sweep(view, n)
    ensures forall e :: e in DropStalePrefix(view, n) <==> e in view && Fresh(e, n)
  {
    if view != [] {
      assert view == [view[0]] + view[1..];
      PruneIsSweep(view[1..], n);
      if Fresh(view[0], n) {
        assert forall i | 0 <= i < |view| :: Fresh(view[i], n);
        assert DropStalePrefix(view[1..], n) == view[1..];
      }
    }
  }

  lemma DropIsSuffix(view: seq<Entry>, n: Int64)
    ensures |DropStalePrefix(view, n)| <= |view|
    ensures DropStalePrefix(view, n) == view[|view| - |DropStalePrefix(view, n)|..]
  {
  }

  lemma SuffixKeepsAccounts(view: seq<Entry>, k: nat, log: seq<Event>)
    requires k <= |view| && Distinct(view) && Accounted(view, log)
    ensures Distinct(view[k..]) && Accounted(view[k..], log)
  {
    forall i, f: Fault | 0 <= i < |view[k..]| ensures AccountedFor(view[k..][i], log, f) {
      assert AccountedFor(view[k + i], log, f);
    }
  }

  /** A sound scan keeps the cache settled, prunes exactly what a sweep would, and changes its size by added minus
      deleted (the pruned entries count as deleted). */
  lemma ExecuteSettles(c: Cache, rs: seq<Reading>, cfg: Config)
    requires Settled(c) && Sound(c, rs, cfg)
    ensures var p := Scanned(c, rs, cfg); var c' := Execute(c, rs, cfg);
            && Settled(c')
            && StaleThenFresh(p.view, c'.scanNum)
            && c'.view == Sweep(p.view, c'.scanNum)
            && |c'.view| == |c.view| + p.added - p.deleted - (|p.view| - |c'.view|)
  {
    var n := NextScanNum(c.scanNum);
    ScanAllInvariant(ProgressFrom(c), rs, n, cfg);
    var p := Scanned(c, rs, cfg);
    PruneIsSweep(p.view, n);
    DropIsSuffix(p.view, n);
    SuffixKeepsAccounts(p.view, |p.view| - |DropStalePrefix(p.view, n)|, p.log);
  }

  ghost predicate SoundScans(scans: seq<seq<Reading>>, cfg: Config) {
    forall k | 0 <= k < |scans| :: Sound(Run(EMPTY_CACHE, scans[..k], cfg), scans[k], cfg)
  }

  lemma {:induction false} SoundPrefix(scans: seq<seq<Reading>>, cfg: Config)
    requires scans != [] && SoundScans(scans, cfg)
    ensures SoundScans(scans[..|scans| - 1], cfg)
    ensures Sound(Run(EMPTY_CACHE, scans[..|scans| - 1], cfg), scans[|scans| - 1], cfg)
  {
    var init := scans[..|scans| - 1];
    forall j | 0 <= j < |init| ensures Sound(Run(EMPTY_CACHE, init[..j], cfg), init[j], cfg) {
      assert init[..j] == scans[..j] && Sound(Run(EMPTY_CACHE, scans[..j], cfg), scans[j], cfg);
    }
  }

  /** Over every run of sound scans the cache stays settled: each cached counter equals the first generated one plus the
      emitted deltas modulo 2^64, nothing being lost over skipped scans. */
  lemma {:induction false} RunSettles(scans: seq<seq<Reading>>, cfg: Config)
    requires SoundScans(scans, cfg)
    ensures Settled(Run(EMPTY_CACHE, scans, cfg))
    decreases |scans|
  {
    if scans != [] {
      SoundPrefix(scans, cfg);
      RunSettles(scans[..|scans| - 1], cfg);
      ExecuteSettles(Run(EMPTY_CACHE, scans[..|scans| - 1], cfg), scans[|scans| - 1], cfg);
    }
  }

  // ---------- When a scan is sound ----------

  predicate DistinctListing(rs: seq<Reading>) {
    forall j, k | 0 <= j < k < |rs| :: rs[j].pidTid != rs[k].pidTid
  }

  predicate Listed(rs: seq<Reading>, p: PidTid) {
    exists k | 0 <= k < |rs| :: rs[k].pidTid == p
  }

  lemma LookupInDistinct(view: seq<Entry>, i: nat)
    requires Distinct(view) && i < |view|
    ensures Lookup(view, view[i].pidTid) == Some(view[i])
  {
  }

  predicate FreshOrGone(cached: Option<Entry>, kept: bool, n: Int64) {
    if kept then cached.Some? && Fresh(cached.value, n) else cached.None?
  }

  lemma KeptDependsOnLookup(view: seq<Entry>, view': seq<Entry>, r: Reading, cfg: Config)
    requires Lookup(view, r.pidTid) == Lookup(view', r.pidTid)
    ensures Kept(view, r, cfg) == Kept(view', r, cfg)
  {
  }

  /** What a scan makes of PID/TID `p`, judged by the cache before the scan. */
  predicate Fate(c: Cache, rs: seq<Reading>, view: seq<Entry>, n: Int64, cfg: Config, p: PidTid) {
    && (!Listed(rs, p) ==> Lookup(view, p) == Lookup(c.view, p))
    && (forall k | 0 <= k < |rs| && rs[k].pidTid == p ::
          FreshOrGone(Lookup(view, p), Kept(c.view, rs[k], cfg), n))
  }

  lemma FateOfLast(c: Cache, init: seq<Reading>, r: Reading, acc: Progress, n: Int64, cfg: Config)
    requires DistinctListing(init + [r]) && Fate(c, init, acc.view, n, cfg, r.pidTid)
    requires Distinct(acc.view) && StaleThenFresh(acc.view, n)
    ensures Fate(c, init + [r], ScanOne(acc, r, n, cfg).view, n, cfg, r.pidTid)
  {
    var rs := init + [r];
    forall k | 0 <= k < |init| ensures init[k].pidTid != r.pidTid {
      assert rs[k] == init[k] && rs[|init|] == r;
    }
    KeptDependsOnLookup(acc.view, c.view, r, cfg);
    ScanOneKeepsShape(acc, r, n, cfg);
    assert rs[|init|].pidTid == r.pidTid;
  }

  lemma FateOfOthers(c: Cache, init: seq<Reading>, r: Reading, acc: Progress, n: Int64, cfg: Config, p: PidTid)
    requires p != r.pidTid && Distinct(acc.view) && Fate(c, init, acc.view, n, cfg, p)
    ensures Fate(c, init + [r], ScanOne(acc, r, n, cfg).view, n, cfg, p)
  {
    var rs := init + [r];
    ScanOneLeavesOthers(acc, r, n, cfg, p);
    assert forall k | 0 <= k < |rs| && rs[k].pidTid == p :: k < |init| && rs[k] == init[k];
    assert forall k | 0 <= k < |init| :: rs[k] == init[k];
  }

  /** Under a listing without repeats, each PID's fate depends on the cache as it was before the scan. */
  lemma {:induction false} FateOf(c: Cache, acc: Progress, rs: seq<Reading>, n: Int64, cfg: Config, p: PidTid)
    requires Settled(c) && DistinctListing(rs) && acc.view == c.view && acc.log == c.log
    ensures Fate(c, rs, ScanAll(acc, rs, n, cfg).view, n, cfg, p)
  {
    if rs != [] {
      var init, r := rs[..|rs| - 1], rs[|rs| - 1];
      assert rs == init + [r];
      FateOf(c, acc, init, n, cfg, p);
      ScanAllInvariant(acc, init, n, cfg);
      if r.pidTid == p {
        FateOfLast(c, init, r, ScanAll(acc, init, n, cfg), n, cfg);
      } else {
        FateOfOthers(c, init, r, ScanAll(acc, init, n, cfg), n, cfg, p);
      }
    }
  }

  lemma FateOfAll(c: Cache, rs: seq<Reading>, cfg: Config)
    requires Settled(c) && DistinctListing(rs)
    ensures var view, n := Scanned(c, rs, cfg).view, NextScanNum(c.scanNum);
            && (forall i | 0 <= i < |c.view| && !Listed(rs, c.view[i].pidTid) :: c.view[i] in view)
            && (forall k | 0 <= k < |rs| && Kept(c.view, rs[k], cfg) ::
                  exists i | 0 <= i < |view| :: Fresh(view[i], n))
            && (forall i | 0 <= i < |view| ::
                  if Fresh(view[i], n) then exists k | 0 <= k < |rs| :: Kept(c.view, rs[k], cfg)
                  else view[i] in c.view && !Listed(rs, view[i].pidTid))
  {
    var acc, n := ProgressFrom(c), NextScanNum(c.scanNum);
    var view := Scanned(c, rs, cfg).view;
    ScanAllInvariant(acc, rs, n, cfg);
    forall i | 0 <= i < |c.view| && !Listed(rs, c.view[i].pidTid) ensures c.view[i] in view {
      LookupInDistinct(c.view, i);
      FateOf(c, acc, rs, n, cfg, c.view[i].pidTid);
    }
    forall k | 0 <= k < |rs| && Kept(c.view, rs[k], cfg) ensures exists i | 0 <= i < |view| :: Fresh(view[i], n) {
      FateOf(c, acc, rs, n, cfg, rs[k].pidTid);
      assert Fresh(view[IndexOf(view, rs[k].pidTid)], n);
    }
    forall i | 0 <= i < |view|
      ensures if Fresh(view[i], n) then exists k | 0 <= k < |rs| :: Kept(c.view, rs[k], cfg)
              else view[i] in c.view && !Listed(rs, view[i].pidTid)
    {
      LookupInDistinct(view, i);
      FateOf(c, acc, rs, n, cfg, view[i].pidTid);
      if !Listed(rs, view[i].pidTid) {
        assert Lookup(c.view, view[i].pidTid) == Some(view[i]);
      }
    }
  }

  /** In a scan that reads no stranded PID the prune loop faults exactly when some cached PID is no longer listed
      while no listed one is kept. */
  lemma PruneFaultsExactlyWhen(c: Cache, rs: seq<Reading>, cfg: Config)
    requires Settled(c) && DistinctListing(rs) && forall k | 0 <= k < |rs| :: rs[k].pidTid !in c.strays
    ensures PruneFaults(Scanned(c, rs, cfg).view, NextScanNum(c.scanNum)) <==>
            && (exists i | 0 <= i < |c.view| :: !Listed(rs, c.view[i].pidTid))
            && (forall k | 0 <= k < |rs| :: !Kept(c.view, rs[k], cfg))
  {
    FateOfAll(c, rs, cfg);
    var view := Scanned(c, rs, cfg).view;
    if view != [] {
      assert view[0] in view;
    }
  }

  lemma StrandsAsBefore(c: Cache, rs: seq<Reading>, cfg: Config, k: nat)
    requires Settled(c) && DistinctListing(rs) && k < |rs|
    ensures var n := NextScanNum(c.scanNum);
            Strands(ScanAll(ProgressFrom(c), rs[..k], n, cfg).view, rs[k], cfg) == Strands(c.view, rs[k], cfg)
  {
    FateOf(c, ProgressFrom(c), rs[..k], NextScanNum(c.scanNum), cfg, rs[k].pidTid);
    assert !Listed(rs[..k], rs[k].pidTid);
  }

  /** Which PIDs a scan strands can be told from the cache before the scan: exactly those that are cached with another
      start time and whose status or command line cannot be read. */
  lemma {:induction false} StrandsExactlyWhen(c: Cache, rs: seq<Reading>, cfg: Config, m: nat)
    requires Settled(c) && DistinctListing(rs) && m <= |rs|
    ensures forall p :: p in StraysAfter(c.strays, ProgressFrom(c), rs[..m], NextScanNum(c.scanNum), cfg) <==>
                        p in c.strays || exists k | 0 <= k < m :: rs[k].pidTid == p && Strands(c.view, rs[k], cfg)
    decreases m
  {
    if m > 0 {
      StrandsExactlyWhen(c, rs, cfg, m - 1);
      assert rs[..m][..m - 1] == rs[..m - 1];
      StrandsAsBefore(c, rs, cfg, m - 1);
    }
  }

  /** A listing without repeats reads no stray, and so keeps list and map in order, exactly when none of its PIDs was
      stranded before the scan. */
  lemma ReadsNoStrayExactlyWhen(c: Cache, rs: seq<Reading>, cfg: Config)
    requires Settled(c) && DistinctListing(rs)
    ensures ReadsNoStray(c.strays, ProgressFrom(c), rs, NextScanNum(c.scanNum), cfg) <==>
            forall k | 0 <= k < |rs| :: rs[k].pidTid !in c.strays
  {
    forall k | 0 <= k < |rs|
      ensures rs[k].pidTid in StraysAfter(c.strays, ProgressFrom(c), rs[..k], NextScanNum(c.scanNum), cfg)
         <==> rs[k].pidTid in c.strays
    {
      StrandsExactlyWhen(c, rs, cfg, k);
    }
  }

  // ---------- The two ways a scan can go wrong ----------

  lemma FirstScan(r: Reading, cfg: Config)
    requires r.stat.Some? && r.statusOk && r.cmdlineOk
    ensures var c := Execute(EMPTY_CACHE, [r], cfg);
            Settled(c) && c.view == [Generated(None, r, 1, cfg)]
  {
    var c0, acc := EMPTY_CACHE, Progress([], [], 0, 0, 0, 0);
    var n := NextScanNum(c0.scanNum);
    assert [r][..0] == [];
    assert ScanAll(acc, [r], n, cfg) == ScanOne(acc, r, n, cfg);
    ScanOneByCases(acc, r, n, cfg);
    ReadsNoStrayExactlyWhen(c0, [r], cfg);
    assert Fresh(Scanned(c0, [r], cfg).view[0], n);
    ExecuteSettles(c0, [r], cfg);
  }

  /** One PID cached by a first scan, then an empty listing: the prune loop runs off the list. */
  lemma PruneFaultExample(r: Reading, cfg: Config)
    requires r.stat.Some? && r.statusOk && r.cmdlineOk
    ensures var c := Execute(EMPTY_CACHE, [r], cfg);
            PruneFaults(Scanned(c, [], cfg).view, NextScanNum(c.scanNum))
  {
    FirstScan(r, cfg);
    var c := Execute(EMPTY_CACHE, [r], cfg);
    assert !Listed([], c.view[0].pidTid);
    PruneFaultsExactlyWhen(c, [], cfg);
  }

  /** One PID cached by a first scan, then its number reused by a process whose command line cannot be read. */
  lemma StrandingExample(r: Reading, r': Reading, cfg: Config)
    requires r.stat.Some? && r.statusOk && r.cmdlineOk && r.IsPid()
    requires r'.pidTid == r.pidTid && r'.stat.Some? && !r'.cmdlineOk
    requires r'.stat.value.starttime != r.stat.value.starttime
    ensures Strands(Execute(EMPTY_CACHE, [r], cfg).view, r', cfg)
  {
    FirstScan(r, cfg);
  }
}
