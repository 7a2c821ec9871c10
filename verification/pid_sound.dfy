/** As long as no stranded PID is read, all but the stranded entries are in one list: the chains of `PidStore` then show
    the list of `PidScan`. */
module PidSound {
  import opened Common
  import opened PidScan
  import opened PidOrder
  import opened PidStore

  function Pids(view: seq<Entry>): seq<PidTid> {
    seq(|view|, i requires 0 <= i < |view| => view[i].pidTid)
  }

  predicate IsStray(order: Order, p: PidTid) {
    p !in HeadList(order) && ListOf(order, p) == [p]
  }

  /** One list, from head to tail, that shows `view`; all other entries are alone in their chains. */
  ghost predicate Single(entries: Entries, order: Order, view: seq<Entry>, strays: set<PidTid>) {
    && Stocked(entries, order) && order.head == order.tail && HeadList(order) == Pids(view)
    && (forall i | 0 <= i < |view| :: view[i].pidTid in entries && entries[view[i].pidTid] == view[i])
    && strays <= entries.Keys
    && (forall p {:trigger IsStray(order, p)} | p in strays :: IsStray(order, p))
    && (forall p | p in entries && p !in strays :: p in HeadList(order))
  }

  // ---------- Lists and views ----------

  lemma {:induction false} PidsIndex(view: seq<Entry>, p: PidTid)
    requires NoRepeats(Pids(view))
    ensures IndexIn(Pids(view), p) == IndexOf(view, p)
  {
    var k := IndexOf(view, p);
    if k >= 0 {
      assert Pids(view)[k] == p;
      IndexInAt(Pids(view), k);
    }
  }

  lemma {:induction false} PidsAt(view: seq<Entry>, p: PidTid)
    requires NoRepeats(Pids(view))
    ensures Distinct(view) && IndexIn(Pids(view), p) == IndexOf(view, p)
    ensures Removed(Pids(view), p) == Pids(Without(view, IndexOf(view, p)))
  {
    forall i, j | 0 <= i < j < |view| ensures view[i].pidTid != view[j].pidTid {
      assert Pids(view)[i] != Pids(view)[j];
    }
    PidsIndex(view, p);
  }

  lemma {:induction false} PidsAppended(view: seq<Entry>, e: Entry)
    ensures Pids(view + [e]) == Pids(view) + [e.pidTid]
  {
  }

  lemma {:induction false} HeadListIsOk(order: Order)
    requires Wf(order)
    ensures NoRepeats(HeadList(order))
    ensures forall p | p in HeadList(order) :: p in order.chain && Some(order.chain[p]) == order.head
  {
    if order.head.Some? {
      assert ListOk(order, order.head.value);
    }
  }

  lemma {:induction false} MappedIsLookup(entries: Entries, order: Order, view: seq<Entry>, strays: set<PidTid>,
                                          p: PidTid)
    requires Single(entries, order, view, strays) && p !in strays
    ensures Mapped(entries, p) == Lookup(view, p) && (p in entries <==> p in HeadList(order))
  {
    HeadListIsOk(order);
    PidsAt(view, p);
  }

  lemma {:induction false} ElsewhereIsSame(o: Order, o': Order, q: PidTid)
    requires q in o.chain && q in o'.chain && o'.chain[q] == o.chain[q] && o.chain[q] < |o.lists| <= |o'.lists|
    requires o'.lists[o.chain[q]] == o.lists[o.chain[q]]
    ensures ListOf(o', q) == ListOf(o, q)
  {
  }

  /** A stray stays one in another order if its chain stays and the list does not take it in. */
  lemma {:induction false} StrayStays(o: Order, o': Order, q: PidTid)
    requires Wf(o) && Wf(o') && q in o.chain && q in o'.chain && IsStray(o, q)
    requires o'.chain[q] == o.chain[q] && |o.lists| <= |o'.lists|
    requires Some(o.chain[q]) != o.head ==> o'.lists[o.chain[q]] == o.lists[o.chain[q]]
    requires q !in HeadList(o')
    ensures IsStray(o', q)
  {
    assert PlaceOk(o, q);
    ElsewhereIsSame(o, o', q);
  }

  lemma {:induction false} SplicedMain(o: Order, p: PidTid)
    requires Wf(o) && o.head == o.tail && p in HeadList(o)
    ensures PlaceOk(o, p)
    ensures var o' := Spliced(o, p);
            && o'.head == o'.tail && HeadList(o') == Removed(HeadList(o), p)
            && |o'.lists| == |o.lists| && o'.chain == o.chain - {p}
            && (forall c | 0 <= c < |o.lists| && Some(c) != o.head :: o'.lists[c] == o.lists[c])
  {
    HeadListIsOk(o);
    assert PlaceOk(o, p);
    RemovedEnds(HeadList(o), p);
  }

  lemma {:induction false} AppendedMain(o: Order, p: PidTid)
    requires Wf(o) && o.head == o.tail && p !in o.chain
    ensures var o' := Appended(o, p);
            && o'.head == o'.tail && HeadList(o') == HeadList(o) + [p]
            && |o'.lists| >= |o.lists| && (forall q | q in o.chain :: q in o'.chain && o'.chain[q] == o.chain[q])
            && (forall c | 0 <= c < |o.lists| && Some(c) != o.head :: o'.lists[c] == o.lists[c])
  {
  }

  // ---------- One reading ----------

  /** Taking an entry off the one list. */
  lemma {:induction false} SpliceSingle(entries: Entries, order: Order, view: seq<Entry>, strays: set<PidTid>,
                                        p: PidTid)
    requires Single(entries, order, view, strays) && p in HeadList(order)
    ensures PlaceOk(order, p)
    ensures Single(entries - {p}, Spliced(order, p), Without(view, IndexOf(view, p)), strays)
  {
    HeadListIsOk(order);
    PidsAt(view, p);
    SplicedMain(order, p);
    SplicedIsWf(order, p);
    var order' := Spliced(order, p);
    RemovedIsDistinct(HeadList(order), p);
    forall q | q in strays ensures IsStray(order', q) && q in entries - {p} {
      assert IsStray(order, q) && q != p;
      RemovedHas(HeadList(order), p, q);
      StrayStays(order, order', q);
    }
    forall q | q in entries - {p} && q !in strays ensures q in HeadList(order') {
      RemovedHas(HeadList(order), p, q);
    }
  }

  lemma {:induction false} TakenOffSingle(w: Work, view: seq<Entry>, strays: set<PidTid>, p: PidTid)
    requires Single(w.entries, w.order, view, strays) && p !in strays
    ensures var off := TakenOff(w, p); Single(off.entries, off.order, Without(view, IndexOf(view, p)), strays)
  {
    MappedIsLookup(w.entries, w.order, view, strays, p);
    if p in w.entries {
      SpliceSingle(w.entries, w.order, view, strays, p);
    } else {
      assert !PlaceOk(w.order, p);
    }
  }

  /** Putting one back behind it. */
  lemma {:induction false} AppendSingle(entries: Entries, order: Order, view: seq<Entry>, strays: set<PidTid>, e: Entry)
    requires Single(entries, order, view, strays) && e.pidTid !in entries
    ensures Single(entries[e.pidTid := e], Appended(order, e.pidTid), view + [e], strays)
  {
    var p, order' := e.pidTid, Appended(order, e.pidTid);
    AppendedMain(order, p);
    AppendedIsWf(order, p);
    PidsAppended(view, e);
    forall q | q in strays ensures IsStray(order', q) {
      assert IsStray(order, q) && q != p;
      StrayStays(order, order', q);
    }
    forall i | 0 <= i < |view + [e]|
      ensures var v := (view + [e])[i]; v.pidTid in entries[p := e] && entries[p := e][v.pidTid] == v
    {
      assert i < |view| ==> (view + [e])[i] == view[i];
    }
  }

  /** Leaving one behind. */
  lemma {:induction false} StrandSingle(entries: Entries, order: Order, view: seq<Entry>, strays: set<PidTid>, e: Entry)
    requires Single(entries, order, view, strays) && e.pidTid !in entries
    ensures Single(entries[e.pidTid := e], Stranded(order, e.pidTid), view, strays + {e.pidTid})
  {
    var p, order' := e.pidTid, Stranded(order, e.pidTid);
    StrandedIsWf(order, p);
    HeadListIsOk(order);
    assert IsStray(order', p);
    forall q | q in strays ensures IsStray(order', q) {
      assert IsStray(order, q) && q != p;
      StrayStays(order, order', q);
    }
  }

  /** The scan under way shows the value level one. */
  ghost predicate Shows(w: Work, acc: Progress, strays: set<PidTid>) {
    && Single(w.entries, w.order, acc.view, strays)
    && acc == Progress(acc.view, w.log, w.added, w.deleted, w.parsed, w.active)
  }

  lemma {:induction false} ReadKnownShows(w: Work, acc: Progress, strays: set<PidTid>, e: Entry, r: Reading,
                                          n: Int64, cfg: Config)
    requires Shows(w, acc, strays) && e.pidTid == r.pidTid && r.pidTid !in w.entries && r.stat.Some?
    ensures Shows(ReadKnown(w, e, r, n, cfg), ScanKnown(acc, e, r, n, cfg), strays)
  {
    if Idle(Some(e), r.stat.value) {
      AppendSingle(w.entries, w.order, acc.view, strays, Revisited(e, n, cfg));
    } else if OtherParsersOk(Some(e), r, cfg) {
      AppendSingle(w.entries, w.order, acc.view, strays, Generated(Some(e), r, n, cfg));
    }
  }

  lemma {:induction false} ReadNewShows(w: Work, acc: Progress, strays: set<PidTid>, prior: Option<Entry>,
                                        r: Reading, n: Int64, cfg: Config)
    requires Shows(w, acc, strays) && r.pidTid !in w.entries && r.stat.Some?
    requires prior.Some? ==> prior.value.pidTid == r.pidTid
    ensures Shows(ReadNew(w, prior, r, n, cfg), ScanNew(acc, r, n, cfg),
                  strays + if prior.Some? && !OtherParsersOk(None, r, cfg) then {r.pidTid} else {})
  {
    if OtherParsersOk(None, r, cfg) {
      AppendSingle(w.entries, w.order, acc.view, strays, Generated(None, r, n, cfg));
    } else if prior.Some? {
      StrandSingle(w.entries, w.order, acc.view, strays, prior.value);
    }
    assert strays + {} == strays;
  }

  /** `ScanOne` after the entry `e` of the PID/TID, if any, was taken off the list. */
  function Rescanned(rest: Progress, e: Option<Entry>, r: Reading, n: Int64, cfg: Config): Progress {
    var gone := rest.(deleted := rest.deleted + Bit(e.Some?));
    if r.stat.None? then gone
    else if SameStart(e, r) then ScanKnown(rest, e.value, r, n, cfg)
    else ScanNew(gone, r, n, cfg)
  }

  predicate LeavesBehind(e: Option<Entry>, r: Reading, cfg: Config) {
    e.Some? && r.stat.Some? && !SameStart(e, r) && !OtherParsersOk(None, r, cfg)
  }

  lemma {:induction false} ScanOneIs(acc: Progress, r: Reading, n: Int64, cfg: Config)
    ensures var e := Lookup(acc.view, r.pidTid);
            && ScanOne(acc, r, n, cfg) ==
               Rescanned(acc.(view := Without(acc.view, IndexOf(acc.view, r.pidTid))), e, r, n, cfg)
            && (Strands(acc.view, r, cfg) <==> LeavesBehind(e, r, cfg))
  {
    ScanOneByCases(acc, r, n, cfg);
  }

  lemma {:induction false} RereadShows(off: Work, rest: Progress, strays: set<PidTid>, e: Option<Entry>, r: Reading,
                                       n: Int64, cfg: Config)
    requires Shows(off, rest, strays) && r.pidTid !in off.entries && (e.Some? ==> e.value.pidTid == r.pidTid)
    ensures Shows(Reread(off, e, r, n, cfg), Rescanned(rest, e, r, n, cfg),
                  strays + if LeavesBehind(e, r, cfg) then {r.pidTid} else {})
  {
    assert strays + {} == strays;
    if SameStart(e, r) {
      ReadKnownShows(off, rest, strays, e.value, r, n, cfg);
    } else if r.stat.Some? {
      var gone, gone' := off.(deleted := off.deleted + Bit(e.Some?)), rest.(deleted := rest.deleted + Bit(e.Some?));
      assert Shows(gone, gone', strays);
      ReadNewShows(gone, gone', strays, e, r, n, cfg);
    }
  }

  lemma {:induction false} OffShows(w: Work, acc: Progress, strays: set<PidTid>, p: PidTid)
    requires Shows(w, acc, strays) && p !in strays
    ensures Shows(TakenOff(w, p), acc.(view := Without(acc.view, IndexOf(acc.view, p))), strays)
    ensures p !in TakenOff(w, p).entries && Mapped(w.entries, p) == Lookup(acc.view, p)
  {
    TakenOffSingle(w, acc.view, strays, p);
    TakenOffStocked(w, p);
    MappedIsLookup(w.entries, w.order, acc.view, strays, p);
  }

  /** A reading of a PID that is not stranded does to the chains what the value level does to the list. */
  lemma {:induction false} ReadOneShows(w: Work, acc: Progress, strays: set<PidTid>, r: Reading, n: Int64, cfg: Config)
    requires Shows(w, acc, strays) && r.pidTid !in strays
    ensures Shows(ReadOne(w, r, n, cfg), ScanOne(acc, r, n, cfg),
                  strays + if Strands(acc.view, r, cfg) then {r.pidTid} else {})
  {
    OffShows(w, acc, strays, r.pidTid);
    RereadShows(TakenOff(w, r.pidTid), acc.(view := Without(acc.view, IndexOf(acc.view, r.pidTid))), strays,
                Lookup(acc.view, r.pidTid), r, n, cfg);
    ScanOneIs(acc, r, n, cfg);
  }

  lemma {:induction false} NoStrayPrefix(strays: set<PidTid>, acc: Progress, rs: seq<Reading>, n: Int64, cfg: Config)
    requires rs != [] && ReadsNoStray(strays, acc, rs, n, cfg)
    ensures ReadsNoStray(strays, acc, rs[..|rs| - 1], n, cfg)
    ensures rs[|rs| - 1].pidTid !in StraysAfter(strays, acc, rs[..|rs| - 1], n, cfg)
  {
    var init := rs[..|rs| - 1];
    forall j | 0 <= j < |init| ensures init[j].pidTid !in StraysAfter(strays, acc, init[..j], n, cfg) {
      assert init[..j] == rs[..j] && rs[j].pidTid !in StraysAfter(strays, acc, rs[..j], n, cfg);
    }
  }

  /** So does a whole listing that reads no stranded PID. */
  lemma {:induction false} ReadAllShows(w: Work, acc: Progress, strays: set<PidTid>, rs: seq<Reading>, n: Int64,
                                        cfg: Config)
    requires Shows(w, acc, strays) && ReadsNoStray(strays, acc, rs, n, cfg)
    ensures Shows(ReadAll(w, rs, n, cfg), ScanAll(acc, rs, n, cfg), StraysAfter(strays, acc, rs, n, cfg))
    decreases |rs|
  {
    if rs != [] {
      var init, r := rs[..|rs| - 1], rs[|rs| - 1];
      NoStrayPrefix(strays, acc, rs, n, cfg);
      ReadAllShows(w, acc, strays, init, n, cfg);
      var w', acc' := ReadAll(w, init, n, cfg), ScanAll(acc, init, n, cfg);
      var strays' := StraysAfter(strays, acc, init, n, cfg);
      assert ReadAll(w, rs, n, cfg) == ReadOne(w', r, n, cfg) && ScanAll(acc, rs, n, cfg) == ScanOne(acc', r, n, cfg);
      ReadOneShows(w', acc', strays', r, n, cfg);
    }
  }

  // ---------- Pruning, whole scans and runs ----------

  /** The prune loop faults, and else drops, as at the value level. */
  lemma {:induction false} PruneShows(entries: Entries, order: Order, view: seq<Entry>, strays: set<PidTid>, n: Int64)
    requires Single(entries, order, view, strays)
    ensures var r := PruneLoop(entries, order, n);
            && (r.Fault? <==> PruneFaults(view, n))
            && (r.Pruned? ==> Single(r.entries, r.order, DropStalePrefix(view, n), strays))
    decreases |view|
  {
    LoopFaultsExactlyWhen(entries, order, n);
    var s := HeadList(order);
    if view != [] {
      assert s[0] == view[0].pidTid;
      LoopTurn(entries, order, n);
      if |s| > 1 && !Fresh(view[0], n) {
        assert s[0] in s && IndexOf(view, s[0]) == 0 && Without(view, 0) == view[1..];
        SpliceSingle(entries, order, view, strays, s[0]);
        PruneShows(entries - {s[0]}, Spliced(order, s[0]), view[1..], strays, n);
      }
    }
    AllStale(entries, view, n);
  }

  lemma {:induction false} AllStale(entries: Entries, view: seq<Entry>, n: Int64)
    requires forall i | 0 <= i < |view| :: view[i].pidTid in entries && entries[view[i].pidTid] == view[i]
    ensures PruneFaults(view, n) <==> Pids(view) != [] && forall p | p in Pids(view) :: !IsFresh(entries, p, n)
  {
    forall i | 0 <= i < |view| ensures Pids(view)[i] in Pids(view) && Pids(view)[i] == view[i].pidTid {
    }
  }

  /** The generator between scans shows the value level cache. */
  ghost predicate ShowsCache(s: Store, c: Cache) {
    Single(s.entries, s.order, c.view, c.strays) && s == Store(s.entries, s.order, c.scanNum, c.log, false)
  }

  /** A scan that reads no stranded PID crashes the generator exactly when the value level says, and else shows what the
      value level shows. */
  lemma {:induction false} ScanShows(s: Store, c: Cache, rs: seq<Reading>, cfg: Config)
    requires ShowsCache(s, c) && ReadsNoStray(c.strays, ProgressFrom(c), rs, NextScanNum(c.scanNum), cfg)
    ensures ExecuteStore(s, rs, cfg).crashed <==> PruneFaults(Scanned(c, rs, cfg).view, NextScanNum(c.scanNum))
    ensures !ExecuteStore(s, rs, cfg).crashed ==> ShowsCache(ExecuteStore(s, rs, cfg), PidScan.Execute(c, rs, cfg))
  {
    var n, w := NextScanNum(c.scanNum), Worked(s, rs, cfg);
    ReadAllShows(WorkFrom(s), ProgressFrom(c), c.strays, rs, n, cfg);
    PruneShows(w.entries, w.order, Scanned(c, rs, cfg).view, StraysAfter(c.strays, ProgressFrom(c), rs, n, cfg), n);
    ExecuteStoreIs(s, rs, cfg, w, PruneLoop(w.entries, w.order, n));
  }

  /** Over every run of sound scans there is no crash, the chains show the value level list and that one is settled. */
  lemma {:induction false} SoundRunShows(scans: seq<seq<Reading>>, cfg: Config)
    requires SoundScans(scans, cfg)
    ensures ShowsCache(RunStore(scans, cfg), Run(EMPTY_CACHE, scans, cfg))
    ensures Settled(Run(EMPTY_CACHE, scans, cfg))
    decreases |scans|
  {
    RunSettles(scans, cfg);
    if scans != [] {
      var init, rs := scans[..|scans| - 1], scans[|scans| - 1];
      SoundPrefix(scans, cfg);
      SoundRunShows(init, cfg);
      var s, c := RunStore(init, cfg), Run(EMPTY_CACHE, init, cfg);
      ScanShows(s, c, rs, cfg);
      assert RunStore(scans, cfg) == ExecuteStore(s, rs, cfg);
      assert Run(EMPTY_CACHE, scans, cfg) == PidScan.Execute(c, rs, cfg);
    }
  }

  /** Told before the scan: one that reads no stranded PID crashes the generator exactly when a cached PID is gone
      and no listed one is kept. */
  lemma {:induction false} CrashesExactlyWhen(s: Store, c: Cache, rs: seq<Reading>, cfg: Config)
    requires ShowsCache(s, c) && Settled(c)
    requires DistinctListing(rs) && forall k | 0 <= k < |rs| :: rs[k].pidTid !in c.strays
    ensures ExecuteStore(s, rs, cfg).crashed <==>
            && (exists i | 0 <= i < |c.view| :: !Listed(rs, c.view[i].pidTid))
            && (forall k | 0 <= k < |rs| :: !Kept(c.view, rs[k], cfg))
  {
    ReadsNoStrayExactlyWhen(c, rs, cfg);
    ScanShows(s, c, rs, cfg);
    PruneFaultsExactlyWhen(c, rs, cfg);
  }
}
