/** What scans do to the cached entries and to their chains, whatever is read: also after an entry was left in the
    map with nil links. */
module PidStore {
  import opened Common
  import opened PidScan
  import opened PidOrder

  type Entries = map<PidTid, Entry>

  /** A scan under way. `stranded` counts the readings that left an entry behind. */
  datatype Work = Work(entries: Entries, order: Order, log: seq<Event>,
                       added: nat, deleted: nat, parsed: nat, active: nat, stranded: nat)

  /** Every mapped entry is in one place of one chain. */
  ghost predicate Stocked(entries: Entries, order: Order) {
    Wf(order) && entries.Keys == order.chain.Keys && forall p | p in entries :: entries[p].pidTid == p
  }

  // ---------- One reading ----------

  function Mapped(entries: Entries, p: PidTid): Option<Entry> {
    if p in entries then Some(entries[p]) else None
  }

  predicate SameStart(e: Option<Entry>, r: Reading) {
    e.Some? && r.stat.Some? && e.value.snap.starttime == r.stat.value.starttime
  }

  ghost function TakenOff(w: Work, p: PidTid): Work {
    if PlaceOk(w.order, p) then w.(entries := w.entries - {p}, order := Spliced(w.order, p)) else w
  }

  function PutBack(w: Work, e: Entry): Work {
    w.(entries := w.entries[e.pidTid := e], order := Appended(w.order, e.pidTid))
  }

  function LeftBehind(w: Work, e: Entry): Work {
    w.(entries := w.entries[e.pidTid := e], order := Stranded(w.order, e.pidTid), stranded := w.stranded + 1)
  }

  function Revisited(e: Entry, n: Int64, cfg: Config): Entry {
    e.(cycleNum := NextCycle(e.cycleNum, cfg.fullMetricsFactor), scanNum := n)
  }

  /** A PID/TID with the same start time as its entry, which was taken off. */
  function ReadKnown(w: Work, e: Entry, r: Reading, n: Int64, cfg: Config): Work
    requires r.stat.Some?
  {
    if Idle(Some(e), r.stat.value) then PutBack(w, Revisited(e, n, cfg)).(parsed := w.parsed + 1)
    else if !OtherParsersOk(Some(e), r, cfg) then w.(deleted := w.deleted + 1)
    else
      PutBack(w, Generated(Some(e), r, n, cfg)).(
        log := w.log + Emitted(Some(e), r), parsed := w.parsed + 1,
        active := w.active + Bit(CpuMoved(e.snap, r.stat.value)))
  }

  /** Noting first whether the PID/TID was active does not change what is generated. */
  lemma ActiveIsNoted(e: Entry, r: Reading, n: Int64, cfg: Config)
    requires r.stat.Some?
    ensures var noted := e.(active := CpuMoved(e.snap, r.stat.value));
            && Generated(Some(noted), r, n, cfg).(active := noted.active) == Generated(Some(e), r, n, cfg)
            && Emitted(Some(noted), r) == Emitted(Some(e), r)
  {
  }

  /** A new PID/TID, or a new incarnation of one whose old entry was taken off. */
  function ReadNew(w: Work, prior: Option<Entry>, r: Reading, n: Int64, cfg: Config): Work
    requires r.stat.Some?
  {
    if !OtherParsersOk(None, r, cfg) then (if prior.Some? then LeftBehind(w, prior.value) else w)
    else
      PutBack(w, Generated(None, r, n, cfg)).(
        log := w.log + Emitted(None, r), added := w.added + 1, parsed := w.parsed + 1, active := w.active + 1)
  }

  /** What a reading makes of `off`, where the entry `e` of the PID/TID, if any, was taken off. */
  function Reread(off: Work, e: Option<Entry>, r: Reading, n: Int64, cfg: Config): Work {
    var gone := off.(deleted := off.deleted + Bit(e.Some?));
    if r.stat.None? then gone
    else if SameStart(e, r) then ReadKnown(off, e.value, r, n, cfg)
    else ReadNew(gone, e, r, n, cfg)
  }

  ghost function ReadOne(w: Work, r: Reading, n: Int64, cfg: Config): Work {
    Reread(TakenOff(w, r.pidTid), Mapped(w.entries, r.pidTid), r, n, cfg)
  }

  ghost function ReadAll(w: Work, rs: seq<Reading>, n: Int64, cfg: Config): Work {
    if rs == [] then w else ReadOne(ReadAll(w, rs[..|rs| - 1], n, cfg), rs[|rs| - 1], n, cfg)
  }

  lemma SizeWithout(entries: Entries, p: PidTid)
    requires p in entries
    ensures |entries - {p}| == |entries| - 1
  {
    assert |entries.Keys - {p}| == |entries.Keys| - 1;
    assert (entries - {p}).Keys == entries.Keys - {p};
  }

  lemma TakenOffStocked(w: Work, p: PidTid)
    requires Stocked(w.entries, w.order)
    ensures var w' := TakenOff(w, p);
            && Stocked(w'.entries, w'.order) && p !in w'.entries && w'.entries == w.entries - {p}
            && |w'.entries| == |w.entries| - Bit(p in w.entries)
  {
    if p in w.entries {
      SplicedIsWf(w.order, p);
      SizeWithout(w.entries, p);
    } else {
      assert !PlaceOk(w.order, p);
      assert w.entries - {p} == w.entries;
    }
  }

  lemma AddedStocked(w: Work, e: Entry)
    requires Stocked(w.entries, w.order) && e.pidTid !in w.entries
    ensures Stocked(PutBack(w, e).entries, PutBack(w, e).order)
    ensures Stocked(LeftBehind(w, e).entries, LeftBehind(w, e).order)
    ensures |w.entries[e.pidTid := e]| == |w.entries| + 1
  {
    AppendedIsWf(w.order, e.pidTid);
    StrandedIsWf(w.order, e.pidTid);
    assert w.entries[e.pidTid := e].Keys == w.entries.Keys + {e.pidTid};
  }

  /** The size is what the counters say: added less deleted, those counted as deleted but left behind being still
      there. */
  predicate SizeCounted(w: Work, w': Work) {
    |w'.entries| + w'.deleted + w.added + w.stranded == |w.entries| + w'.added + w.deleted + w'.stranded
  }

  lemma ReadKnownStocked(w: Work, e: Entry, r: Reading, n: Int64, cfg: Config)
    requires Stocked(w.entries, w.order) && e.pidTid == r.pidTid && r.pidTid !in w.entries && r.stat.Some?
    ensures var w' := ReadKnown(w, e, r, n, cfg);
            && Stocked(w'.entries, w'.order) && w'.added == w.added && w'.stranded == w.stranded
            && |w'.entries| + w'.deleted == |w.entries| + w.deleted + 1
  {
    if Idle(Some(e), r.stat.value) {
      AddedStocked(w, Revisited(e, n, cfg));
    } else if OtherParsersOk(Some(e), r, cfg) {
      AddedStocked(w, Generated(Some(e), r, n, cfg));
    }
  }

  lemma ReadNewStocked(w: Work, prior: Option<Entry>, r: Reading, n: Int64, cfg: Config)
    requires Stocked(w.entries, w.order) && r.pidTid !in w.entries && r.stat.Some?
    requires prior.Some? ==> prior.value.pidTid == r.pidTid
    ensures Stocked(ReadNew(w, prior, r, n, cfg).entries, ReadNew(w, prior, r, n, cfg).order)
    ensures SizeCounted(w, ReadNew(w, prior, r, n, cfg))
  {
    AddedStocked(w, Generated(None, r, n, cfg));
    if prior.Some? {
      AddedStocked(w, prior.value);
    }
  }

  /** A reading keeps all mapped entries in place, and the size as counted. */
  lemma ReadOneStocked(w: Work, r: Reading, n: Int64, cfg: Config)
    requires Stocked(w.entries, w.order)
    ensures Stocked(ReadOne(w, r, n, cfg).entries, ReadOne(w, r, n, cfg).order)
    ensures SizeCounted(w, ReadOne(w, r, n, cfg))
  {
    var e, off := Mapped(w.entries, r.pidTid), TakenOff(w, r.pidTid);
    TakenOffStocked(w, r.pidTid);
    if SameStart(e, r) {
      ReadKnownStocked(off, e.value, r, n, cfg);
    } else if r.stat.Some? {
      var gone := off.(deleted := w.deleted + Bit(e.Some?));
      assert Stocked(gone.entries, gone.order);
      ReadNewStocked(gone, e, r, n, cfg);
      assert ReadOne(w, r, n, cfg) == ReadNew(gone, e, r, n, cfg);
    }
  }

  // ---------- Accounts ----------

  predicate AllAccounted(entries: Entries, log: seq<Event>) {
    forall p, f: Fault | p in entries :: AccountedFor(entries[p], log, f)
  }

  /** The accounts of the other entries do not change with what is emitted for `r`. */
  lemma OthersStayAccounted(entries: Entries, log: seq<Event>, prev: Option<Entry>, r: Reading)
    requires AllAccounted(entries, log) && r.stat.Some? && (prev.Some? ==> prev.value.pidTid == r.pidTid)
    requires forall p | p in entries :: entries[p].pidTid != r.pidTid
    ensures AllAccounted(entries, log + Emitted(prev, r))
  {
    forall p, f: Fault | p in entries ensures AccountedFor(entries[p], log + Emitted(prev, r), f) {
      assert AccountedFor(entries[p], log, f);
      EventsElsewhere(log, Emitted(prev, r), entries[p].pidTid, f);
    }
  }

  lemma GeneratedStaysAccounted(entries: Entries, log: seq<Event>, prev: Option<Entry>, r: Reading, n: Int64,
                                cfg: Config)
    requires AllAccounted(entries, log) && r.stat.Some?
    requires forall p | p in entries :: entries[p].pidTid != r.pidTid
    requires prev.Some? ==> prev.value.pidTid == r.pidTid && forall f :: AccountedFor(prev.value, log, f)
    ensures AllAccounted(entries[r.pidTid := Generated(prev, r, n, cfg)], log + Emitted(prev, r))
  {
    OthersStayAccounted(entries, log, prev, r);
    forall f ensures AccountedFor(Generated(prev, r, n, cfg), log + Emitted(prev, r), f) {
      GeneratedIsAccounted(prev, r, n, cfg, log, f);
    }
  }

  ghost predicate EntryAccounted(e: Entry, log: seq<Event>) {
    forall f :: AccountedFor(e, log, f)
  }

  lemma ReadKnownAccounts(w: Work, e: Entry, r: Reading, n: Int64, cfg: Config)
    requires AllAccounted(w.entries, w.log) && e.pidTid == r.pidTid && EntryAccounted(e, w.log) && r.stat.Some?
    requires forall p | p in w.entries :: w.entries[p].pidTid != r.pidTid
    ensures AllAccounted(ReadKnown(w, e, r, n, cfg).entries, ReadKnown(w, e, r, n, cfg).log)
  {
    GeneratedStaysAccounted(w.entries, w.log, Some(e), r, n, cfg);
    forall f ensures AccountedFor(Revisited(e, n, cfg), w.log, f) {
      assert AccountedFor(e, w.log, f);
    }
  }

  lemma ReadNewAccounts(w: Work, prior: Option<Entry>, r: Reading, n: Int64, cfg: Config)
    requires AllAccounted(w.entries, w.log) && r.stat.Some? && (prior.Some? ==> EntryAccounted(prior.value, w.log))
    requires forall p | p in w.entries :: w.entries[p].pidTid != r.pidTid
    ensures AllAccounted(ReadNew(w, prior, r, n, cfg).entries, ReadNew(w, prior, r, n, cfg).log)
  {
    GeneratedStaysAccounted(w.entries, w.log, None, r, n, cfg);
  }

  lemma ReadOneAccounts(w: Work, r: Reading, n: Int64, cfg: Config)
    requires AllAccounted(w.entries, w.log) && forall p | p in w.entries :: w.entries[p].pidTid == p
    requires TakenOff(w, r.pidTid).entries == w.entries - {r.pidTid}
    ensures AllAccounted(ReadOne(w, r, n, cfg).entries, ReadOne(w, r, n, cfg).log)
  {
    var p := r.pidTid;
    var e, off := Mapped(w.entries, p), TakenOff(w, p);
    assert AllAccounted(off.entries, off.log);
    assert forall q | q in off.entries :: off.entries[q].pidTid != p;
    if e.Some? {
      assert forall f :: AccountedFor(w.entries[p], w.log, f);
      assert EntryAccounted(e.value, w.log);
    }
    if SameStart(e, r) {
      ReadKnownAccounts(off, e.value, r, n, cfg);
    } else if r.stat.Some? {
      ReadNewAccounts(off.(deleted := w.deleted + Bit(e.Some?)), e, r, n, cfg);
    }
  }

  /** A listing, whatever is in it, keeps all mapped entries in place, the size as counted and every counter accounted
      for. */
  lemma {:induction false} ReadAllKeeps(w: Work, rs: seq<Reading>, n: Int64, cfg: Config)
    requires Stocked(w.entries, w.order) && AllAccounted(w.entries, w.log)
    ensures var w' := ReadAll(w, rs, n, cfg);
            && Stocked(w'.entries, w'.order) && AllAccounted(w'.entries, w'.log)
            && SizeCounted(w, w')
    decreases |rs|
  {
    if rs != [] {
      var mid := ReadAll(w, rs[..|rs| - 1], n, cfg);
      ReadAllKeeps(w, rs[..|rs| - 1], n, cfg);
      ReadOneStocked(mid, rs[|rs| - 1], n, cfg);
      TakenOffStocked(mid, rs[|rs| - 1].pidTid);
      ReadOneAccounts(mid, rs[|rs| - 1], n, cfg);
    }
  }

  // ---------- Pruning ----------

  datatype Pruning = Pruned(entries: Entries, order: Order) | Fault

  predicate IsFresh(entries: Entries, p: PidTid, n: Int64) {
    p in entries && Fresh(entries[p], n)
  }

  /** The prune loop: entries are dropped from the head up to the first fresh one. Behind the last entry of the
      chain there is nothing to go on to. */
  ghost function PruneLoop(entries: Entries, order: Order, n: Int64): Pruning
    decreases |HeadList(order)|
  {
    var s := HeadList(order);
    if s == [] || IsFresh(entries, s[0], n) || !PlaceOk(order, s[0]) then Pruned(entries, order)
    else if |s| == 1 then Fault
    else
      var order' := Spliced(order, s[0]);
      if |HeadList(order')| < |s| then PruneLoop(entries - {s[0]}, order', n) else Fault
  }

  /** Taking off the head of a longer chain leaves the rest of it at the head. */
  lemma Beheaded(order: Order)
    requires Wf(order) && |HeadList(order)| > 1
    ensures var s := HeadList(order);
            && PlaceOk(order, s[0]) && order.chain[s[0]] == order.head.value
            && var order' := Spliced(order, s[0]);
               && order' == Order(order.lists[order.head.value := s[1..]], order.chain - {s[0]}, order.head, order.tail)
               && HeadList(order') == s[1..]
  {
    var s := HeadList(order);
    assert ListOk(order, order.head.value) && s[0] in s;
    assert PlaceOk(order, s[0]);
    IndexInAt(s, 0);
    assert Removed(s, s[0]) == s[1..];
  }

  /** One turn of the loop. */
  lemma LoopTurn(entries: Entries, order: Order, n: Int64)
    requires Stocked(entries, order) && HeadList(order) != []
    ensures var s := HeadList(order);
            && NoRepeats(s) && (forall p | p in s :: p in entries)
            && PlaceOk(order, s[0]) && order.head.Some?
            && (|s| == 1 && !IsFresh(entries, s[0], n) ==> PruneLoop(entries, order, n).Fault?)
            && (IsFresh(entries, s[0], n) ==> PruneLoop(entries, order, n) == Pruned(entries, order))
            && (|s| > 1 && !IsFresh(entries, s[0], n) ==>
                  && var entries', order' := entries - {s[0]}, Spliced(order, s[0]);
                  && PruneLoop(entries, order, n) == PruneLoop(entries', order', n) && Stocked(entries', order')
                  && HeadList(order') == s[1..] && order'.head == order.head && order'.tail == order.tail)
  {
    var s := HeadList(order);
    assert ListOk(order, order.head.value) && s[0] in s;
    assert PlaceOk(order, s[0]);
    SplicedIsWf(order, s[0]);
    if |s| > 1 {
      Beheaded(order);
    }
  }

  /** The loop faults exactly when there is an entry at the head and no fresh one in its chain. */
  lemma {:induction false} LoopFaultsExactlyWhen(entries: Entries, order: Order, n: Int64)
    requires Stocked(entries, order)
    ensures PruneLoop(entries, order, n).Fault? <==>
            HeadList(order) != [] && forall p | p in HeadList(order) :: !IsFresh(entries, p, n)
    decreases |HeadList(order)|
  {
    var s := HeadList(order);
    if s != [] {
      LoopTurn(entries, order, n);
      assert s[0] in s;
      if |s| > 1 && !IsFresh(entries, s[0], n) {
        LoopFaultsExactlyWhen(entries - {s[0]}, Spliced(order, s[0]), n);
        assert forall p | p in s :: p == s[0] || p in s[1..];
        assert forall p | p in s[1..] :: p in s && p != s[0];
      }
    }
  }

  /** How many entries are before the first fresh one. */
  function Stale(s: seq<PidTid>, entries: Entries, n: Int64): (k: nat)
    ensures k <= |s| && (k < |s| ==> IsFresh(entries, s[k], n))
    ensures forall i | 0 <= i < k :: !IsFresh(entries, s[i], n)
  {
    if s == [] || IsFresh(entries, s[0], n) then 0 else 1 + Stale(s[1..], entries, n)
  }

  lemma {:induction false} StaleWithout(s: seq<PidTid>, entries: Entries, n: Int64, p: PidTid)
    requires p !in s
    ensures Stale(s, entries - {p}, n) == Stale(s, entries, n)
    decreases |s|
  {
    if s != [] {
      assert s[0] != p;
      StaleWithout(s[1..], entries, n, p);
    }
  }

  function Minus(entries: Entries, dropped: seq<PidTid>): Entries {
    map p | p in entries && p !in dropped :: entries[p]
  }

  lemma MinusFirst(entries: Entries, s: seq<PidTid>, k: nat)
    requires 0 < k <= |s|
    ensures Minus(entries - {s[0]}, s[1..][..k - 1]) == Minus(entries, s[..k]) && s[1..][k - 1..] == s[k..]
  {
    assert s[..k] == [s[0]] + s[1..][..k - 1];
  }

  lemma MinusNothing(entries: Entries, s: seq<PidTid>)
    ensures Minus(entries, s[..0]) == entries && s[0..] == s
  {
  }

  /** Otherwise it drops the stale entries up to the first fresh one and leaves everything else as it is. */
  lemma {:induction false} LoopDrops(entries: Entries, order: Order, n: Int64)
    requires Stocked(entries, order) && PruneLoop(entries, order, n).Pruned?
    ensures var r, s := PruneLoop(entries, order, n), HeadList(order);
            var k := Stale(s, entries, n);
            && Stocked(r.entries, r.order) && r.order.head == order.head && r.order.tail == order.tail
            && r.entries == Minus(entries, s[..k]) && HeadList(r.order) == s[k..]
    decreases |HeadList(order)|
  {
    var s := HeadList(order);
    MinusNothing(entries, s);
    if s != [] {
      LoopTurn(entries, order, n);
      if !IsFresh(entries, s[0], n) {
        LoopDrops(entries - {s[0]}, Spliced(order, s[0]), n);
        StaleWithout(s[1..], entries, n, s[0]);
        MinusFirst(entries, s, Stale(s, entries, n));
      }
    }
  }

  /** What the loop stands for: a sweep of the whole map. */
  function Swept(entries: Entries, n: Int64): Entries {
    map p | p in entries && Fresh(entries[p], n) :: entries[p]
  }

  /** The loop deletes exactly what a sweep of the map would if and only if no stale entry is behind a fresh one in the
      chain at the head, and none in another chain. */
  lemma PruneIsSweepExactlyWhen(entries: Entries, order: Order, n: Int64)
    requires Stocked(entries, order) && PruneLoop(entries, order, n).Pruned?
    ensures PruneLoop(entries, order, n).entries == Swept(entries, n) <==>
            && (forall p | p in entries && p !in HeadList(order) :: Fresh(entries[p], n))
            && (forall i, j | 0 <= i < j < |HeadList(order)| ::
                  IsFresh(entries, HeadList(order)[i], n) ==> IsFresh(entries, HeadList(order)[j], n))
  {
    LoopDrops(entries, order, n);
    var r, s := PruneLoop(entries, order, n), HeadList(order);
    var k := Stale(s, entries, n);
    if s != [] {
      LoopTurn(entries, order, n);
    }
    SweptExactlyWhen(s, entries, n);
    assert (forall i, j | 0 <= i < j < |s| :: IsFresh(entries, s[i], n) ==> IsFresh(entries, s[j], n)) <==>
           (forall j | k <= j < |s| :: IsFresh(entries, s[j], n));
  }

  lemma PrefixHas(s: seq<PidTid>, k: nat, p: PidTid)
    requires NoRepeats(s) && k <= |s|
    ensures p in s[..k] <==> p in s && IndexIn(s, p) < k
  {
    if p in s[..k] {
      IndexInAt(s, IndexIn(s[..k], p));
    }
    assert p in s && IndexIn(s, p) < k ==> s[IndexIn(s, p)] in s[..k];
  }

  lemma SweptExactlyWhen(s: seq<PidTid>, entries: Entries, n: Int64)
    requires NoRepeats(s) && forall p | p in s :: p in entries
    ensures var k := Stale(s, entries, n);
            Minus(entries, s[..k]) == Swept(entries, n) <==>
            && (forall p | p in entries && p !in s :: Fresh(entries[p], n))
            && (forall j | k <= j < |s| :: IsFresh(entries, s[j], n))
  {
    var k := Stale(s, entries, n);
    var kept := Minus(entries, s[..k]);
    forall p ensures p in kept <==> p in entries && !(p in s && IndexIn(s, p) < k) {
      PrefixHas(s, k, p);
    }
    FreshFrom(s, k, entries, n);
    assert kept == Swept(entries, n) <==> forall p | p in kept :: Fresh(entries[p], n) by {
      if forall p | p in kept :: Fresh(entries[p], n) {
        assert kept.Keys == Swept(entries, n).Keys;
      }
    }
  }

  lemma FreshFrom(s: seq<PidTid>, k: nat, entries: Entries, n: Int64)
    requires NoRepeats(s) && k <= |s|
    ensures (forall j | k <= j < |s| :: IsFresh(entries, s[j], n)) <==>
            forall p | p in s && IndexIn(s, p) >= k :: IsFresh(entries, p, n)
  {
    forall j | 0 <= j < |s| ensures s[j] in s && IndexIn(s, s[j]) == j {
      IndexInAt(s, j);
    }
  }

  // ---------- Runs of scans ----------

  /** The generator between scans, or after a fault. */
  datatype Store = Store(entries: Entries, order: Order, scanNum: Int64, log: seq<Event>, crashed: bool)

  const EMPTY_STORE := Store(map[], NO_ENTRIES, 0, [], false)

  function WorkFrom(s: Store): Work {
    Work(s.entries, s.order, s.log, 0, 0, 0, 0, 0)
  }

  ghost function Worked(s: Store, rs: seq<Reading>, cfg: Config): Work {
    ReadAll(WorkFrom(s), rs, NextScanNum(s.scanNum), cfg)
  }

  ghost function ExecuteStore(s: Store, rs: seq<Reading>, cfg: Config): Store {
    var w, n := Worked(s, rs, cfg), NextScanNum(s.scanNum);
    var pruning := PruneLoop(w.entries, w.order, n);
    if s.crashed || pruning.Fault? then s.(crashed := true) else Store(pruning.entries, pruning.order, n, w.log, false)
  }

  ghost function RunStore(scans: seq<seq<Reading>>, cfg: Config): Store {
    if scans == [] then EMPTY_STORE
    else ExecuteStore(RunStore(scans[..|scans| - 1], cfg), scans[|scans| - 1], cfg)
  }

  lemma ExecuteStoreIs(s: Store, rs: seq<Reading>, cfg: Config, w: Work, pruning: Pruning)
    requires !s.crashed && w == Worked(s, rs, cfg) && pruning == PruneLoop(w.entries, w.order, NextScanNum(s.scanNum))
    ensures ExecuteStore(s, rs, cfg).crashed <==> pruning.Fault?
    ensures pruning.Pruned? ==>
              ExecuteStore(s, rs, cfg) == Store(pruning.entries, pruning.order, NextScanNum(s.scanNum), w.log, false)
  {
  }

  lemma RunStoreTurn(scans: seq<seq<Reading>>, k: nat, cfg: Config)
    requires k < |scans|
    ensures RunStore(scans[..k + 1], cfg) == ExecuteStore(RunStore(scans[..k], cfg), scans[k], cfg)
  {
    assert scans[..k + 1][..k] == scans[..k];
  }

  lemma {:induction false} CrashLasts(scans: seq<seq<Reading>>, k: nat, cfg: Config)
    requires k <= |scans| && RunStore(scans[..k], cfg).crashed
    ensures RunStore(scans, cfg).crashed
    decreases |scans|
  {
    if k < |scans| {
      assert scans[..|scans| - 1][..k] == scans[..k];
      CrashLasts(scans[..|scans| - 1], k, cfg);
    } else {
      assert scans[..k] == scans;
    }
  }

  /** A scan crashes the generator exactly when, after its readings, there is an entry at the head and no fresh
      one in its chain; else every counter stays accounted for and the size changes by added less deleted, plus those
      left behind. */
  lemma ExecuteKeeps(s: Store, rs: seq<Reading>, cfg: Config)
    requires Stocked(s.entries, s.order) && AllAccounted(s.entries, s.log) && !s.crashed
    ensures var w, s', n := Worked(s, rs, cfg), ExecuteStore(s, rs, cfg), NextScanNum(s.scanNum);
            && Stocked(s'.entries, s'.order) && AllAccounted(s'.entries, s'.log)
            && |w.entries| + w.deleted == |s.entries| + w.added + w.stranded
            && (s'.crashed <==>
                  HeadList(w.order) != [] && forall p | p in HeadList(w.order) :: !IsFresh(w.entries, p, n))
            && (!s'.crashed ==>
                  s'.entries == Minus(w.entries, HeadList(w.order)[..Stale(HeadList(w.order), w.entries, n)]))
  {
    var w, n := Worked(s, rs, cfg), NextScanNum(s.scanNum);
    ReadAllKeeps(WorkFrom(s), rs, n, cfg);
    LoopFaultsExactlyWhen(w.entries, w.order, n);
    if PruneLoop(w.entries, w.order, n).Pruned? {
      LoopDrops(w.entries, w.order, n);
      var e' := PruneLoop(w.entries, w.order, n).entries;
      forall p, f: Fault | p in e' ensures AccountedFor(e'[p], w.log, f) {
        assert AccountedFor(w.entries[p], w.log, f);
      }
    }
  }

  /** In every run of scans, whatever they read, each mapped entry is in one place of one chain, head and tail are
      ends of chains, and each cached counter is the first generated one plus the emitted deltas, modulo 2^64. */
  lemma {:induction false} EveryRunIsAccounted(scans: seq<seq<Reading>>, cfg: Config)
    ensures var s := RunStore(scans, cfg); Stocked(s.entries, s.order) && AllAccounted(s.entries, s.log)
    decreases |scans|
  {
    if scans != [] {
      EveryRunIsAccounted(scans[..|scans| - 1], cfg);
      var s := RunStore(scans[..|scans| - 1], cfg);
      if !s.crashed {
        ExecuteKeeps(s, scans[|scans| - 1], cfg);
      }
    }
  }
}
