/** What reading a stranded PID again does: the list is lost, and a scan can then crash the generator although
    every listed PID is read and kept. */
module PidLost {
  import opened Common
  import opened PidScan
  import opened PidOrder
  import opened PidStore
  import opened PidSound

  /** The reading leaves its PID/TID, cached as `e` if at all, on the list. */
  predicate KeptAs(e: Option<Entry>, r: Reading, cfg: Config) {
    && r.stat.Some?
    && if SameStart(e, r) then Idle(e, r.stat.value) || OtherParsersOk(e, r, cfg) else OtherParsersOk(None, r, cfg)
  }

  lemma {:induction false} KeptComesBack(w: Work, r: Reading, n: Int64, cfg: Config)
    requires Stocked(w.entries, w.order) && KeptAs(Mapped(w.entries, r.pidTid), r, cfg)
    ensures var w', p := ReadOne(w, r, n, cfg), r.pidTid;
            && w'.order == Appended(TakenOff(w, p).order, p) && IsFresh(w'.entries, p, n)
            && (forall q | q != p :: Mapped(w'.entries, q) == Mapped(w.entries, q))
  {
    TakenOffStocked(w, r.pidTid);
  }

  /** A kept reading of an entry alone in its chain starts a list of its own; all other chains stay. */
  lemma {:induction false} StrayTakesOver(w: Work, r: Reading, n: Int64, cfg: Config)
    requires Stocked(w.entries, w.order) && ListOf(w.order, r.pidTid) == [r.pidTid]
    requires KeptAs(Mapped(w.entries, r.pidTid), r, cfg)
    ensures var w', p := ReadOne(w, r, n, cfg), r.pidTid;
            && HeadList(w'.order) == [p] && w'.order.head == w'.order.tail
            && (forall q | q in w.entries && q != p ::
                  && q in w'.order.chain && ListOf(w'.order, q) == ListOf(w.order, q)
                  && Some(w'.order.chain[q]) != w'.order.head)
  {
    KeptComesBack(w, r, n, cfg);
    var p := r.pidTid;
    assert PlaceOk(w.order, p);
    RemovedEnds([p], p);
    var off, order' := Spliced(w.order, p), ReadOne(w, r, n, cfg).order;
    forall q | q in w.entries && q != p
      ensures && q in order'.chain && ListOf(order', q) == ListOf(w.order, q) && Some(order'.chain[q]) != order'.head
    {
      assert PlaceOk(w.order, q);
      ElsewhereIsSame(w.order, order', q);
    }
  }

  /** A kept reading of the first entry of a chain that is not the list makes the rest of that chain the head of the
      list, while the entry itself goes behind the tail of the other one. */
  lemma {:induction false} RestTakesTheHead(w: Work, r: Reading, n: Int64, cfg: Config)
    requires Stocked(w.entries, w.order) && r.pidTid in w.entries && KeptAs(Mapped(w.entries, r.pidTid), r, cfg)
    requires |ListOf(w.order, r.pidTid)| > 1 && ListOf(w.order, r.pidTid)[0] == r.pidTid
    requires w.order.tail.Some? && w.order.tail != Some(w.order.chain[r.pidTid])
    ensures HeadList(ReadOne(w, r, n, cfg).order) == ListOf(w.order, r.pidTid)[1..]
  {
    KeptComesBack(w, r, n, cfg);
    var p := r.pidTid;
    var s := ListOf(w.order, p);
    assert PlaceOk(w.order, p) && ListOk(w.order, w.order.chain[p]);
    IndexInAt(s, 0);
    assert Removed(s, p) == s[1..];
    RemovedEnds(s, p);
  }

  /** A stranded PID and then the first of the list are read and kept, the others are gone: the prune loop faults. */
  lemma {:induction false} FaultsThoughAllAreKept(w: Work, r: Reading, r': Reading, n: Int64, cfg: Config)
    requires Stocked(w.entries, w.order) && IsStray(w.order, r.pidTid) && r.pidTid in w.entries
    requires |HeadList(w.order)| > 1 && HeadList(w.order)[0] == r'.pidTid
    requires forall p | p in HeadList(w.order) :: !IsFresh(w.entries, p, n)
    requires KeptAs(Mapped(w.entries, r.pidTid), r, cfg) && KeptAs(Mapped(w.entries, r'.pidTid), r', cfg)
    ensures var w' := ReadOne(ReadOne(w, r, n, cfg), r', n, cfg);
            && IsFresh(w'.entries, r.pidTid, n) && IsFresh(w'.entries, r'.pidTid, n)
            && PruneLoop(w'.entries, w'.order, n).Fault?
  {
    var s := HeadList(w.order);
    HeadListIsOk(w.order);
    assert s[0] in s && s[1] in s;
    var mid := ReadOne(w, r, n, cfg);
    StrayTakesOver(w, r, n, cfg);
    ReadOneStocked(w, r, n, cfg);
    KeptComesBack(w, r, n, cfg);
    assert ListOf(w.order, s[0]) == s;
    assert s[0] in mid.entries;
    RestTakesTheHead(mid, r', n, cfg);
    ReadOneStocked(mid, r', n, cfg);
    KeptComesBack(mid, r', n, cfg);
    var w' := ReadOne(mid, r', n, cfg);
    LoopFaultsExactlyWhen(w'.entries, w'.order, n);
    forall p | p in s[1..] ensures !IsFresh(w'.entries, p, n) {
      assert p in s && p != s[0] && p != r.pidTid;
      assert Mapped(w'.entries, p) == Mapped(mid.entries, p) == Mapped(w.entries, p);
    }
  }

  // ---------- Three scans ----------

  predicate Readable(r: Reading) {
    r.stat.Some? && r.statusOk && r.cmdlineOk
  }

  /** The command line of another process with the same PID cannot be read. */
  predicate UnreadableReuse(e: Entry, r: Reading) {
    && r.pidTid == e.pidTid && r.IsPid() && r.stat.Some? && !r.cmdlineOk
    && r.stat.value.starttime != e.snap.starttime
  }

  lemma {:induction false} NewGoesLast(acc: Progress, r: Reading, n: Int64, cfg: Config)
    requires Readable(r) && !Holds(acc.view, r.pidTid)
    ensures ScanOne(acc, r, n, cfg).view == acc.view + [Generated(None, r, n, cfg)]
  {
    ScanOneByCases(acc, r, n, cfg);
  }

  lemma {:induction false} HeadGoesLast(acc: Progress, r: Reading, n: Int64, cfg: Config) returns (e: Entry)
    requires Readable(r) && acc.view != [] && acc.view[0].pidTid == r.pidTid
    ensures ScanOne(acc, r, n, cfg).view == acc.view[1..] + [e] && e.pidTid == r.pidTid && Fresh(e, n)
  {
    e := Refreshed(acc.view, r, n, cfg);
  }

  lemma {:induction false} HeadIsStranded(acc: Progress, r: Reading, n: Int64, cfg: Config)
    requires acc.view != [] && UnreadableReuse(acc.view[0], r)
    ensures ScanOne(acc, r, n, cfg).view == acc.view[1..]
  {
    ScanOneByCases(acc, r, n, cfg);
  }

  predicate Three(a: Reading, b: Reading, s: Reading) {
    a.pidTid != b.pidTid && a.pidTid != s.pidTid && b.pidTid != s.pidTid
  }

  lemma {:induction false} ScanThree(acc: Progress, a: Reading, b: Reading, s: Reading, n: Int64, cfg: Config)
    ensures ScanAll(acc, [a, b, s], n, cfg) == ScanOne(ScanOne(ScanOne(acc, a, n, cfg), b, n, cfg), s, n, cfg)
  {
    assert [a, b, s][..2] == [a, b] && [a, b][..1] == [a] && [a][..0] == [];
    assert ScanAll(acc, [a], n, cfg) == ScanOne(acc, a, n, cfg);
    assert ScanAll(acc, [a, b], n, cfg) == ScanOne(ScanAll(acc, [a], n, cfg), b, n, cfg);
  }

  lemma {:induction false} ThreeAreDistinct(a: Reading, b: Reading, s: Reading)
    requires Three(a, b, s)
    ensures DistinctListing([a, b, s])
  {
  }

  lemma {:induction false} SoundIfFirstIsFresh(c: Cache, rs: seq<Reading>, cfg: Config)
    requires Settled(c) && DistinctListing(rs) && forall k | 0 <= k < |rs| :: rs[k].pidTid !in c.strays
    requires var view := Scanned(c, rs, cfg).view; view != [] && Fresh(view[0], NextScanNum(c.scanNum))
    ensures Sound(c, rs, cfg) && PidScan.Execute(c, rs, cfg).view == Scanned(c, rs, cfg).view
    ensures Settled(PidScan.Execute(c, rs, cfg))
  {
    ReadsNoStrayExactlyWhen(c, rs, cfg);
    ExecuteSettles(c, rs, cfg);
  }

  /** What the first scan shows: three PIDs, */
  lemma {:induction false} ListThree(acc: Progress, a: Reading, b: Reading, s: Reading, n: Int64, cfg: Config)
    requires acc.view == [] && Readable(a) && Readable(b) && Readable(s) && Three(a, b, s)
    ensures ScanAll(acc, [a, b, s], n, cfg).view ==
            [Generated(None, a, n, cfg), Generated(None, b, n, cfg), Generated(None, s, n, cfg)]
  {
    var acc1 := ScanOne(acc, a, n, cfg);
    var acc2 := ScanOne(acc1, b, n, cfg);
    NewGoesLast(acc, a, n, cfg);
    NewGoesLast(acc1, b, n, cfg);
    NewGoesLast(acc2, s, n, cfg);
    ScanThree(acc, a, b, s, n, cfg);
  }

  lemma {:induction false} FirstOfThree(c: Cache, a: Reading, b: Reading, s: Reading, cfg: Config)
    requires Settled(c) && c.view == [] && c.strays == {}
    requires Readable(a) && Readable(b) && Readable(s) && Three(a, b, s)
    ensures var c', n := PidScan.Execute(c, [a, b, s], cfg), NextScanNum(c.scanNum);
            && Sound(c, [a, b, s], cfg) && Settled(c') && c'.strays == {}
            && c'.view == [Generated(None, a, n, cfg), Generated(None, b, n, cfg), Generated(None, s, n, cfg)]
  {
    var rs := [a, b, s];
    ListThree(ProgressFrom(c), a, b, s, NextScanNum(c.scanNum), cfg);
    ThreeAreDistinct(a, b, s);
    SoundIfFirstIsFresh(c, rs, cfg);
    assert rs[..3] == rs;
    StrandsExactlyWhen(c, rs, cfg, 3);
  }

  /** and the second: two of them, the third one being stranded. */
  lemma {:induction false} StrandThird(acc: Progress, a: Reading, b: Reading, s: Reading, n: Int64, cfg: Config)
    requires |acc.view| == 3 && Readable(a) && Readable(b)
    requires acc.view[0].pidTid == a.pidTid && acc.view[1].pidTid == b.pidTid && UnreadableReuse(acc.view[2], s)
    ensures var view := ScanAll(acc, [a, b, s], n, cfg).view;
            Pids(view) == [a.pidTid, b.pidTid] && view != [] && Fresh(view[0], n)
  {
    var v := acc.view;
    var e := HeadGoesLast(acc, a, n, cfg);
    var acc1 := ScanOne(acc, a, n, cfg);
    assert acc1.view == [v[1], v[2], e];
    var e' := HeadGoesLast(acc1, b, n, cfg);
    var acc2 := ScanOne(acc1, b, n, cfg);
    assert acc2.view == [v[2], e, e'];
    HeadIsStranded(acc2, s, n, cfg);
    ScanThree(acc, a, b, s, n, cfg);
    assert ScanAll(acc, [a, b, s], n, cfg).view == [e, e'];
  }

  lemma {:induction false} SecondOfThree(c: Cache, a: Reading, b: Reading, s: Reading, cfg: Config)
    requires Settled(c) && |c.view| == 3 && c.strays == {} && Readable(a) && Readable(b) && Three(a, b, s)
    requires c.view[0].pidTid == a.pidTid && c.view[1].pidTid == b.pidTid && UnreadableReuse(c.view[2], s)
    ensures var c' := PidScan.Execute(c, [a, b, s], cfg);
            && Sound(c, [a, b, s], cfg) && Pids(c'.view) == [a.pidTid, b.pidTid] && s.pidTid in c'.strays
  {
    var rs := [a, b, s];
    StrandThird(ProgressFrom(c), a, b, s, NextScanNum(c.scanNum), cfg);
    ThreeAreDistinct(a, b, s);
    SoundIfFirstIsFresh(c, rs, cfg);
    StrandsExactlyWhen(c, rs, cfg, 3);
    LookupInDistinct(c.view, 2);
    assert rs[..3] == rs && rs[2].pidTid == s.pidTid && Strands(c.view, rs[2], cfg);
  }

  /** The third one lists the stranded PID and the first of the other two: both are read and kept, and the generator
      crashes. */
  lemma {:induction false} ThirdOfThree(st: Store, c: Cache, s: Reading, a: Reading, b: PidTid, cfg: Config)
    requires ShowsCache(st, c) && Settled(c) && Pids(c.view) == [a.pidTid, b] && s.pidTid in c.strays
    requires Readable(s) && Readable(a)
    ensures ExecuteStore(st, [s, a], cfg).crashed
    ensures var w, n := Worked(st, [s, a], cfg), NextScanNum(st.scanNum);
            IsFresh(w.entries, s.pidTid, n) && IsFresh(w.entries, a.pidTid, n)
  {
    var n, w := NextScanNum(st.scanNum), WorkFrom(st);
    assert IsStray(w.order, s.pidTid);
    forall p | p in HeadList(w.order) ensures !IsFresh(w.entries, p, n) {
      var i := IndexIn(Pids(c.view), p);
      assert Fresh(c.view[i], c.scanNum) && w.entries[p] == c.view[i];
    }
    FaultsThoughAllAreKept(w, s, a, n, cfg);
    assert [s, a][..1] == [s] && [s][..0] == [];
    assert ReadAll(w, [s], n, cfg) == ReadOne(w, s, n, cfg);
    assert ReadAll(w, [s, a], n, cfg) == ReadOne(ReadOne(w, s, n, cfg), a, n, cfg);
    var w' := Worked(st, [s, a], cfg);
    ExecuteStoreIs(st, [s, a], cfg, w', PruneLoop(w'.entries, w'.order, n));
  }

  lemma {:induction false} TwoSoundScans(x: seq<Reading>, y: seq<Reading>, cfg: Config)
    requires Sound(EMPTY_CACHE, x, cfg) && Sound(PidScan.Execute(EMPTY_CACHE, x, cfg), y, cfg)
    ensures SoundScans([x, y], cfg)
    ensures Run(EMPTY_CACHE, [x, y], cfg) == PidScan.Execute(PidScan.Execute(EMPTY_CACHE, x, cfg), y, cfg)
  {
    assert [x, y][..0] == [] && [x, y][..1] == [x] && [x][..0] == [];
    assert Run(EMPTY_CACHE, [x], cfg) == PidScan.Execute(EMPTY_CACHE, x, cfg);
  }

  lemma {:induction false} OneMoreScan(scans: seq<seq<Reading>>, rs: seq<Reading>, cfg: Config)
    ensures RunStore(scans + [rs], cfg) == ExecuteStore(RunStore(scans, cfg), rs, cfg)
  {
    assert (scans + [rs])[..|scans|] == scans;
  }

  /** Three PIDs are listed, then one of them is reused and its command line cannot be read, then that one and the first
      are listed again, readable: the generator crashes, although both are fresh. */
  lemma {:induction false} LostListExample(a: Reading, b: Reading, s: Reading, a': Reading, b': Reading, s': Reading,
                                           s'': Reading, a'': Reading, cfg: Config)
    requires Three(a, b, s) && Readable(a) && Readable(b) && Readable(s) && Readable(a') && Readable(b')
    requires a'.pidTid == a''.pidTid == a.pidTid && b'.pidTid == b.pidTid && s''.pidTid == s.pidTid
    requires UnreadableReuse(Generated(None, s, 1, cfg), s') && Readable(s'') && Readable(a'')
    ensures var scans := [[a, b, s], [a', b', s']];
            && !RunStore(scans, cfg).crashed && RunStore(scans + [[s'', a'']], cfg).crashed
            && var w, n := Worked(RunStore(scans, cfg), [s'', a''], cfg), NextScanNum(RunStore(scans, cfg).scanNum);
               IsFresh(w.entries, s.pidTid, n) && IsFresh(w.entries, a.pidTid, n)
  {
    var x, y := [a, b, s], [a', b', s'];
    FirstOfThree(EMPTY_CACHE, a, b, s, cfg);
    SecondOfThree(PidScan.Execute(EMPTY_CACHE, x, cfg), a', b', s', cfg);
    TwoSoundScans(x, y, cfg);
    SoundRunShows([x, y], cfg);
    ThirdOfThree(RunStore([x, y], cfg), Run(EMPTY_CACHE, [x, y], cfg), s'', a'', b.pidTid, cfg);
    OneMoreScan([x, y], [s'', a''], cfg);
  }
}
