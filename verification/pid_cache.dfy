/** The PID metrics cache as the generator keeps it: a map, an intrusive doubly linked LRU list and parser objects
    that trade places with one scratch parser. Every method is tied to what `PidStore` does on values, whatever is
    read. */
module PidCache {
  import opened Common
  import opened PidScan
  import opened PidOrder
  import opened PidStore

  class StatParser {
    var data: Snapshot
    /** The seat that holds this parser: a cache entry, or the generator itself for the scratch parser. */
    ghost var seat: object?

    constructor (data: Snapshot)
      ensures this.data == data && seat == null
    {
      this.data := data;
      seat := null;
    }

    /** Overwrites the parsed fields in place; a failed parse leaves a residue. */
    method Parse(r: Reading) returns (ok: bool)
      modifies this`data
      ensures ok <==> r.stat.Some?
      ensures data == if ok then r.stat.value else r.residue
    {
      ok := r.stat.Some?;
      data := if ok then r.stat.value else r.residue;
    }
  }

  class Info {
    var next: Info?
    var prev: Info?
    var pidStat: StatParser
    const pidTid: PidTid
    var active: bool
    var minZero: bool
    var majZero: bool
    var cycleNum: int
    var scanNum: Int64

    constructor (pidTid: PidTid, parser: StatParser, cycleNum: int)
      ensures next == null && prev == null && pidStat == parser && this.pidTid == pidTid
      ensures !active && !minZero && !majZero && this.cycleNum == cycleNum && scanNum == 0
    {
      next, prev, pidStat := null, null, parser;
      this.pidTid := pidTid;
      active, minZero, majZero := false, false, false;
      this.cycleNum, scanNum := cycleNum, 0;
    }
  }

  datatype Counts = Counts(added: nat, deleted: nat, parsed: nat, active: nat)

  class PidMetrics {
    const cfg: Config
    var cache: map<PidTid, Info>
    var head: Info?
    var tail: Info?
    var scratch: StatParser
    var scanNum: Int64
    var log: seq<Event>

    // What the linked entries show, and how they are linked:
    ghost var entries: Entries
    ghost var order: Order
    ghost var links: Links
    // How many entries the present scan left behind:
    ghost var stranded: nat
    // Footprint:
    ghost var infos: set<Info>
    ghost var parsers: set<StatParser>

    ghost function EntryOf(info: Info): Entry
      reads info`pidStat, info`active, info`minZero, info`majZero, info`cycleNum, info`scanNum, info.pidStat`data
    {
      Entry(info.pidTid, info.pidStat.data, info.active, info.minZero, info.majZero, info.cycleNum, info.scanNum)
    }

    ghost function Ptr(p: Option<PidTid>): Info?
      reads this`cache
    {
      if p.Some? && p.value in cache then cache[p.value] else null
    }

    /** The entry of `p` is linked as it should be. */
    ghost predicate LinkOk(p: PidTid)
      requires p in links.next && p in links.prev
      reads this`cache, this`links, this`infos, infos`next, infos`prev
    {
      && p in cache && cache[p] in infos && cache[p].pidTid == p
      && cache[p].next == Ptr(links.next[p]) && cache[p].prev == Ptr(links.prev[p])
    }

    ghost predicate Linked()
      reads this`head, this`tail, this`cache, this`links, this`infos, infos`next, infos`prev
    {
      && Closed(links) && head == Ptr(links.head) && tail == Ptr(links.tail)
      && (forall p {:trigger LinkOk(p)} | p in links.next :: LinkOk(p))
    }

    /** The entry of `p` is what it should be and holds a parser of its own. */
    ghost predicate NodeOk(p: PidTid)
      reads this`cache, this`entries, this`infos, this`parsers, infos`pidStat, infos`active, infos`minZero,
            infos`majZero, infos`cycleNum, infos`scanNum, parsers`data, parsers`seat
    {
      && p in cache && p in entries
      && var a := cache[p];
         && a in infos && a.pidTid == p
         && a.pidStat in parsers && a.pidStat.seat == a
         && entries[p] == EntryOf(a)
    }

    ghost predicate Filled()
      reads this`cache, this`entries, this`infos, this`parsers, infos`pidStat, infos`active, infos`minZero,
            infos`majZero, infos`cycleNum, infos`scanNum, parsers`data, parsers`seat
    {
      forall p {:trigger NodeOk(p)} | p in entries :: NodeOk(p)
    }

    ghost predicate Ordered()
      reads this`entries, this`order, this`links
    {
      Wf(order) && LinksOf(links, order) && entries.Keys == order.chain.Keys
    }

    /** The scratch parser and the linked entries are as they should be. */
    ghost predicate Held()
      reads this`scratch, this`cache, this`entries, this`infos, this`parsers, infos`pidStat, infos`active,
            infos`minZero, infos`majZero, infos`cycleNum, infos`scanNum, parsers`data, parsers`seat
    {
      scratch in parsers && scratch.seat == this && Filled()
    }

    ghost predicate ListValid()
      reads this`head, this`tail, this`scratch, this`cache, this`entries, this`order, this`links, this`infos,
            this`parsers, infos, parsers
    {
      Held() && Linked() && Ordered()
    }

    /** All mapped entries are linked. */
    ghost predicate Valid()
      reads this`head, this`tail, this`scratch, this`cache, this`entries, this`order, this`links, this`infos,
            this`parsers, infos, parsers
    {
      ListValid() && cache.Keys == entries.Keys
    }

    /** All mapped entries but that of `p`, if any, are linked. */
    ghost predicate ValidBut(p: PidTid)
      reads this`head, this`tail, this`scratch, this`cache, this`entries, this`order, this`links, this`infos,
            this`parsers, infos, parsers
    {
      ListValid() && p !in entries && cache.Keys - {p} == entries.Keys
    }

    /** An entry that is not linked, with a parser of its own. */
    ghost predicate Loose(info: Info)
      reads this`entries, this`infos, this`parsers, infos, parsers
    {
      && info in infos && info.next == null && info.prev == null
      && info.pidStat in parsers && info.pidStat.seat == info
      && info.pidTid !in entries
    }

    ghost function WorkOf(c: Counts): Work
      reads this
    {
      Work(entries, order, log, c.added, c.deleted, c.parsed, c.active, stranded)
    }

    ghost function StoreOf(): Store
      reads this
    {
      Store(entries, order, scanNum, log, false)
    }

    constructor (cfg: Config, residue: Snapshot)
      ensures Valid() && fresh(infos) && fresh(parsers)
      ensures this.cfg == cfg && StoreOf() == EMPTY_STORE
    {
      this.cfg := cfg;
      cache, head, tail, scanNum, log := map[], null, null, 0, [];
      entries, order, links, stranded := map[], NO_ENTRIES, NO_LINKS, 0;
      var parser := new StatParser(residue);
      scratch := parser;
      infos, parsers := {}, {parser};
      new;
      parser.seat := this;
    }

    /** The scratch parser and the parsers of all cached entries are pairwise distinct objects. */
    lemma ParsersAreDistinct(p: PidTid)
      requires Valid() && p in cache
      ensures cache[p].pidStat != scratch
      ensures forall q | q in cache && q != p :: cache[q].pidStat != cache[p].pidStat
    {
      assert NodeOk(p);
      forall q | q in cache && q != p ensures cache[q].pidStat != cache[p].pidStat {
        assert NodeOk(q);
      }
    }

    /** The pointer updates that take an entry off the list: they trust its links. */
    method Splice(info: Info)
      requires info in infos
      requires info.next != null ==> info.next in infos && info.next != info
      requires info.prev != null ==> info.prev in infos && info.prev != info
      modifies this`head, this`tail, infos`next, infos`prev
      ensures info.next == null && info.prev == null
      ensures tail == if old(info.next) == null then old(info.prev) else old(tail)
      ensures head == if old(info.prev) == null then old(info.next) else old(head)
      ensures forall x | x in infos && x != info ::
                x.prev == (if x == old(info.next) then old(info.prev) else old(x.prev))
      ensures forall x | x in infos && x != info ::
                x.next == (if x == old(info.prev) then old(info.next) else old(x.next))
    {
      if info.next != null {
        info.next.prev := info.prev;
      } else {
        tail := info.prev;
      }
      if info.prev != null {
        info.prev.next := info.next;
      } else {
        head := info.next;
      }
      info.next := null;
      info.prev := null;
    }

    /** Which entry a pointer points to. */
    lemma PtrIs(o: Option<PidTid>, q: PidTid)
      requires Linked() && q in links.next && LeadsTo(links, o)
      ensures LinkOk(q) && (cache[q] == Ptr(o) <==> o == Some(q)) && (Ptr(o) == null <==> o.None?)
      ensures o.Some? ==> Ptr(o) in infos && Ptr(o).pidTid == o.value
    {
      assert LinkOk(q);
      assert o.Some? ==> LinkOk(o.value);
    }

    /** Takes the entry of `p` off the list. */
    method Unhook(p: PidTid) returns (info: Info)
      requires Linked() && p in links.next && Closed(Bridged(links, p))
      modifies this`head, this`tail, this`links, infos`next, infos`prev
      ensures p in cache && info == cache[p] && info in infos && info.next == null && info.prev == null
      ensures Linked() && links == Bridged(old(links), p)
    {
      ghost var l := links;
      assert NearOk(l, p);
      PtrIs(l.next[p], p);
      PtrIs(l.prev[p], p);
      info := cache[p];
      forall q | q in l.next
        ensures && LinkOk(q) && (cache[q] == info.next <==> l.next[p] == Some(q))
                && (cache[q] == info.prev <==> l.prev[p] == Some(q))
      {
        PtrIs(l.next[p], q);
        PtrIs(l.prev[p], q);
      }
      Splice(info);
      links := Bridged(l, p);
      forall q | q in links.next ensures LinkOk(q) {
        assert old(LinkOk(q));
      }
    }

    /** The pointer updates that put an entry behind the tail. */
    method Hook(info: Info)
      requires info in infos && info.next == null && info.prev == null
      requires tail != null ==> tail in infos && tail != info
      modifies this`head, this`tail, infos`next, infos`prev
      ensures info.prev == old(tail) && info.next == null && tail == info
      ensures head == if old(tail) == null then info else old(head)
      ensures forall x | x in infos && x != info :: x.prev == old(x.prev)
      ensures forall x | x in infos && x != info :: x.next == (if x == old(tail) then info else old(x.next))
    {
      if tail != null {
        tail.next := info;
        info.prev := tail;
      } else {
        head := info;
      }
      tail := info;
    }

    /** Links an entry in behind the tail. */
    method AddToTail(info: Info)
      requires Linked() && info in infos && info.next == null && info.prev == null
      requires info.pidTid !in links.next && info.pidTid in cache && cache[info.pidTid] == info
      modifies this`head, this`tail, this`links, infos`next, infos`prev
      ensures Linked() && links == Extended(old(links), info.pidTid)
    {
      ghost var l, p := links, info.pidTid;
      if l.tail.Some? {
        PtrIs(l.tail, l.tail.value);
      }
      forall q | q in l.next ensures LinkOk(q) && (cache[q] == tail <==> l.tail == Some(q)) {
        PtrIs(l.tail, q);
      }
      Hook(info);
      links := Extended(l, p);
      ExtendedIsClosed(l, p);
      forall q | q in links.next ensures LinkOk(q) {
        assert q != p ==> old(LinkOk(q));
      }
    }

    lemma CanUnhook(p: PidTid)
      requires Ordered() && p in entries
      ensures PlaceOk(order, p) && p in links.next && p in links.prev && Closed(Bridged(links, p))
    {
      SplicedIsWf(order, p);
      SplicedLinksOf(links, order, p);
      LinksAreClosed(Bridged(links, p), Spliced(order, p));
    }

    ghost method RecordOff(p: PidTid, l: Links)
      requires Filled() && Wf(order) && LinksOf(l, order) && entries.Keys == order.chain.Keys
      requires p in l.next && p in l.prev && links == Bridged(l, p)
      modifies this`entries, this`order
      ensures Filled() && entries == old(entries) - {p}
      ensures Ordered() && PlaceOk(old(order), p) && order == Spliced(old(order), p)
    {
      SplicedIsWf(order, p);
      SplicedLinksOf(l, order, p);
      entries, order := entries - {p}, Spliced(order, p);
      forall q | q in entries ensures NodeOk(q) {
        assert old(NodeOk(q));
      }
    }

    ghost method RecordOn(info: Info, l: Links)
      requires Filled() && Wf(order) && LinksOf(l, order) && entries.Keys == order.chain.Keys
      requires info.pidTid in cache && cache[info.pidTid] == info && info in infos
      requires info.pidStat in parsers && info.pidStat.seat == info
      requires info.pidTid !in entries && links == Extended(l, info.pidTid)
      modifies this`entries, this`order
      ensures Filled() && entries == old(entries)[info.pidTid := EntryOf(info)]
      ensures Ordered() && order == Appended(old(order), info.pidTid)
    {
      ghost var p := info.pidTid;
      AppendedIsWf(order, p);
      AppendedLinksOf(l, order, p);
      entries, order := entries[p := EntryOf(info)], Appended(order, p);
      forall q | q in entries ensures NodeOk(q) {
        assert q != p ==> old(NodeOk(q));
      }
    }

    /** Takes the entry of `p` off the list; the map is left alone. */
    method TakeOff(p: PidTid) returns (info: Info)
      requires Valid() && p in cache
      modifies this`head, this`tail, this`entries, this`order, this`links, infos`next, infos`prev
      ensures ValidBut(p) && info == cache[p] && info.pidTid == p && Loose(info)
      ensures p in old(entries) && EntryOf(info) == old(entries)[p] && entries == old(entries) - {p}
      ensures PlaceOk(old(order), p) && order == Spliced(old(order), p)
    {
      assert NodeOk(p);
      CanUnhook(p);
      ghost var l := links;
      info := Unhook(p);
      RecordOff(p, l);
    }

    /** Puts a loose, mapped entry back behind the tail. */
    method Attach(info: Info)
      requires ValidBut(info.pidTid) && Loose(info) && info.pidTid in cache && cache[info.pidTid] == info
      modifies this`head, this`tail, this`entries, this`order, this`links, infos`next, infos`prev
      ensures Valid()
      ensures entries == old(entries)[info.pidTid := EntryOf(info)] && order == Appended(old(order), info.pidTid)
    {
      ghost var l := links;
      AddToTail(info);
      RecordOn(info, l);
    }

    /** Maps an entry that is not linked. */
    method SetEntry(info: Info)
      requires ValidBut(info.pidTid) && Loose(info)
      modifies this`cache
      ensures ValidBut(info.pidTid) && cache == old(cache)[info.pidTid := info]
    {
      var p := info.pidTid;
      cache := cache[p := info];
      forall q | q in links.next ensures LinkOk(q) {
        assert old(LinkOk(q)) && NearOk(links, q);
      }
      forall q | q in entries ensures NodeOk(q) {
        assert old(NodeOk(q));
      }
    }

    /** Drops a PID/TID that is not linked from the map. */
    method Forget(p: PidTid)
      requires ValidBut(p)
      modifies this`cache
      ensures Valid() && cache == old(cache) - {p}
    {
      cache := cache - {p};
      forall q | q in links.next ensures LinkOk(q) {
        assert old(LinkOk(q)) && NearOk(links, q);
      }
      forall q | q in entries ensures NodeOk(q) {
        assert old(NodeOk(q));
      }
    }

    /** Adds the entry to the map (a no-op if it is there already) and to the tail of the list. */
    method AddEntry(info: Info)
      requires ValidBut(info.pidTid) && Loose(info)
      modifies this`cache, this`head, this`tail, this`entries, this`order, this`links, infos`next, infos`prev
      ensures Valid()
      ensures entries == old(entries)[info.pidTid := EntryOf(info)] && order == Appended(old(order), info.pidTid)
    {
      SetEntry(info);
      Attach(info);
    }

    // ---------- What the entries hold ----------

    /** Parses into the scratch parser; the cached snapshots are in other seats and stay put. */
    method ParseScratch(r: Reading) returns (ok: bool)
      requires Held()
      modifies scratch`data
      ensures Held()
      ensures ok <==> r.stat.Some?
      ensures ok ==> scratch.data == r.stat.value
    {
      ok := scratch.Parse(r);
      forall q | q in entries ensures NodeOk(q) {
        assert old(NodeOk(q));
      }
    }

    /** A fresh entry for a new (incarnation of a) PID/TID; its parser has its own seat. */
    method InitInfo(r: Reading) returns (info: Info)
      requires ListValid() && r.pidTid !in entries
      modifies this`infos, this`parsers
      ensures ListValid() && fresh(info) && Loose(info) && info.pidTid == r.pidTid
      ensures infos == old(infos) + {info} && parsers == old(parsers) + {info.pidStat} && fresh(info.pidStat)
      ensures !info.minZero && !info.majZero && info.cycleNum == r.initialCycleNum
    {
      var parser := new StatParser(r.residue);
      info := new Info(r.pidTid, parser, r.initialCycleNum);
      parser.seat := info;
      infos, parsers := infos + {info}, parsers + {parser};
      forall q | q in links.next ensures LinkOk(q) {
        assert old(LinkOk(q));
      }
      forall q | q in entries ensures NodeOk(q) {
        assert old(NodeOk(q));
      }
    }

    /** Swaps the entry's parser with the scratch one. */
    method SwapParsers(info: Info)
      requires Held() && Loose(info)
      modifies this`scratch, info`pidStat, parsers`seat
      ensures Held() && Loose(info)
      ensures info.pidStat == old(scratch) && scratch == old(info.pidStat)
    {
      info.pidStat, scratch := scratch, info.pidStat;
      info.pidStat.seat, scratch.seat := info, this;
      forall q | q in entries ensures NodeOk(q) {
        assert old(NodeOk(q));
      }
    }

    method SetActive(info: Info, active: bool)
      requires Held() && Loose(info)
      modifies info`active
      ensures Held() && Loose(info) && info.active == active
    {
      info.active := active;
      forall q | q in entries ensures NodeOk(q) {
        assert old(NodeOk(q));
      }
    }

    method MarkScanned(info: Info, scanNum: Int64)
      requires Held() && Loose(info)
      modifies info`cycleNum, info`scanNum
      ensures Held() && Loose(info)
      ensures info.cycleNum == NextCycle(old(info.cycleNum), cfg.fullMetricsFactor) && info.scanNum == scanNum
    {
      info.cycleNum := info.cycleNum + 1;
      if info.cycleNum >= cfg.fullMetricsFactor {
        info.cycleNum := 0;
      }
      info.scanNum := scanNum;
      forall q | q in entries ensures NodeOk(q) {
        assert old(NodeOk(q));
      }
    }

    /** Gives an entry off the list the current snapshot and marks it as scanned. */
    method TakeSnapshot(info: Info, scanNum: Int64)
      requires Held() && Loose(info)
      modifies this`scratch, info`pidStat, info`cycleNum, info`scanNum, parsers`seat
      ensures Held() && Loose(info)
      ensures EntryOf(info) == old(EntryOf(info)).(snap := old(scratch.data), scanNum := scanNum,
                                                   cycleNum := NextCycle(old(info.cycleNum), cfg.fullMetricsFactor))
    {
      SwapParsers(info);
      MarkScanned(info, scanNum);
    }

    /** Emits the fault deltas of a PID/TID with a previous state, skipping zero after zero. */
    method GenerateDeltas(info: Info, fullMetrics: bool)
      requires Held() && Loose(info)
      requires fullMetrics == (info.cycleNum == 0)
      modifies this`log, info`minZero, info`majZero
      ensures Held() && Loose(info)
      ensures var prev := old(EntryOf(info));
              log == old(log) + (FaultEvent(prev, scratch.data, Minor) + FaultEvent(prev, scratch.data, Major))
      ensures info.minZero == (Sub64(scratch.data.minflt, info.pidStat.data.minflt) == 0)
      ensures info.majZero == (Sub64(scratch.data.majflt, info.pidStat.data.majflt) == 0)
    {
      var minDelta := Sub64(scratch.data.minflt, info.pidStat.data.minflt);
      if minDelta != 0 || fullMetrics || !info.minZero {
        log := log + [Delta(info.pidTid, Minor, minDelta)];
      }
      info.minZero := minDelta == 0;
      var majDelta := Sub64(scratch.data.majflt, info.pidStat.data.majflt);
      if majDelta != 0 || fullMetrics || !info.majZero {
        log := log + [Delta(info.pidTid, Major, majDelta)];
      }
      info.majZero := majDelta == 0;
      forall q | q in entries ensures NodeOk(q) {
        assert old(NodeOk(q));
      }
    }

    /** Emits the deltas and gives the entry the current snapshot. */
    method Renew(info: Info, r: Reading, fullMetrics: bool, scanNum: Int64, ghost e: Entry)
      requires Held() && Loose(info) && info.pidTid == r.pidTid
      requires r.stat.Some? && scratch.data == r.stat.value && fullMetrics == (info.cycleNum == 0)
      requires EntryOf(info) == e.(active := CpuMoved(e.snap, r.stat.value))
      modifies this`scratch, this`log, info`pidStat, info`minZero, info`majZero, info`cycleNum, info`scanNum,
               parsers`seat
      ensures Held() && Loose(info)
      ensures EntryOf(info) == Generated(Some(e), r, scanNum, cfg) && log == old(log) + Emitted(Some(e), r)
    {
      ActiveIsNoted(e, r, scanNum, cfg);
      GenerateDeltas(info, fullMetrics);
      TakeSnapshot(info, scanNum);
    }

    /** Emits the first counters and gives the new entry the current snapshot. */
    method Fill(info: Info, r: Reading, scanNum: Int64)
      requires Held() && Loose(info) && info.pidTid == r.pidTid
      requires info.active && !info.minZero && !info.majZero && info.cycleNum == r.initialCycleNum
      requires r.stat.Some? && scratch.data == r.stat.value
      modifies this`scratch, this`log, info`pidStat, info`cycleNum, info`scanNum, parsers`seat
      ensures Held() && Loose(info)
      ensures EntryOf(info) == Generated(None, r, scanNum, cfg) && log == old(log) + Emitted(None, r)
    {
      log := log + [Created(r.pidTid, scratch.data)];
      TakeSnapshot(info, scanNum);
    }

    // ---------- One reading ----------

    /** The entry of `p` that was taken off the list, if `p` is mapped, shows `e`. */
    ghost predicate Off(p: PidTid, info: Info?, e: Option<Entry>)
      reads this`cache, this`entries, this`infos, this`parsers, infos, parsers
    {
      && (info == null <==> p !in cache) && (info == null <==> e.None?)
      && (info != null ==> info == cache[p] && info.pidTid == p && Loose(info) && e == Some(EntryOf(info)))
    }

    /** Emits the deltas, gives the entry the current snapshot and puts it back at the tail. */
    method Regenerate(info: Info, r: Reading, fullMetrics: bool, scanNum: Int64, ghost e: Entry)
      requires ValidBut(info.pidTid) && Loose(info) && info.pidTid == r.pidTid
      requires info.pidTid in cache && cache[info.pidTid] == info
      requires r.stat.Some? && scratch.data == r.stat.value && fullMetrics == (info.cycleNum == 0)
      requires EntryOf(info) == e.(active := CpuMoved(e.snap, r.stat.value))
      modifies this`head, this`tail, this`scratch, this`log, this`entries, this`order, this`links, infos, parsers`seat
      ensures Valid()
      ensures entries == old(entries)[r.pidTid := Generated(Some(e), r, scanNum, cfg)]
      ensures order == Appended(old(order), r.pidTid) && log == old(log) + Emitted(Some(e), r)
    {
      Renew(info, r, fullMetrics, scanNum, e);
      Attach(info);
    }

    /** Inactive after inactive: only marked as scanned. */
    method Revisit(info: Info, scanNum: Int64)
      requires ValidBut(info.pidTid) && Loose(info)
      requires info.pidTid in cache && cache[info.pidTid] == info
      modifies this`head, this`tail, this`entries, this`order, this`links, infos
      ensures Valid()
      ensures entries == old(entries)[info.pidTid := Revisited(old(EntryOf(info)), scanNum, cfg)]
      ensures order == Appended(old(order), info.pidTid)
    {
      MarkScanned(info, scanNum);
      Attach(info);
    }

    /** A known PID/TID that is active, in a full metrics cycle or was active before: failed or generated. */
    method Refresh(info: Info, r: Reading, active: bool, scanNum: Int64, c: Counts, ghost e: Entry) returns (c': Counts)
      requires ValidBut(info.pidTid) && Loose(info) && info.pidTid == r.pidTid
      requires info.pidTid in cache && cache[info.pidTid] == info
      requires r.stat.Some? && scratch.data == r.stat.value
      requires active == CpuMoved(e.snap, r.stat.value) && EntryOf(info) == e.(active := active)
      requires !Idle(Some(e), r.stat.value)
      modifies this`cache, this`head, this`tail, this`scratch, this`log, this`entries, this`order, this`links, infos,
               parsers`seat
      ensures Valid()
      ensures WorkOf(c') == ReadKnown(old(WorkOf(c)), e, r, scanNum, cfg)
    {
      c' := c;
      var fullMetrics := info.cycleNum == 0;
      if (cfg.usePidStatus && !r.statusOk) || (r.IsPid() && fullMetrics && !r.cmdlineOk) {
        Forget(r.pidTid);
        c' := c'.(deleted := c'.deleted + 1);
        return;
      }
      assert OtherParsersOk(Some(e), r, cfg);
      Regenerate(info, r, fullMetrics, scanNum, e);
      c' := c'.(parsed := c'.parsed + 1, active := c'.active + Bit(active));
    }

    /** A known PID/TID: idle or refreshed. */
    method ScanKnownPid(info: Info, ghost e: Entry, r: Reading, scanNum: Int64, c: Counts) returns (c': Counts)
      requires ValidBut(r.pidTid) && Off(r.pidTid, info, Some(e))
      requires r.stat.Some? && scratch.data == r.stat.value && SameStart(Some(e), r)
      modifies this`cache, this`head, this`tail, this`scratch, this`log, this`entries, this`order, this`links, infos,
               parsers`seat
      ensures Valid()
      ensures WorkOf(c') == Reread(old(WorkOf(c)), Some(e), r, scanNum, cfg)
    {
      var active := false;
      if scratch.data.utime != info.pidStat.data.utime || scratch.data.stime != info.pidStat.data.stime {
        active := true;
      } else if info.cycleNum != 0 && !info.active {
        Revisit(info, scanNum);
        c' := c.(parsed := c.parsed + 1);
        return;
      }
      SetActive(info, active);
      c' := Refresh(info, r, active, scanNum, c, e);
    }

    /** Gives a new entry the current snapshot and adds it to the cache. */
    method Admit(info: Info, r: Reading, scanNum: Int64)
      requires ValidBut(info.pidTid) && Loose(info) && info.pidTid == r.pidTid
      requires info.active && !info.minZero && !info.majZero && info.cycleNum == r.initialCycleNum
      requires r.stat.Some? && scratch.data == r.stat.value
      modifies this`cache, this`head, this`tail, this`scratch, this`log, this`entries, this`order, this`links, infos,
               parsers`seat
      ensures Valid()
      ensures entries == old(entries)[r.pidTid := Generated(None, r, scanNum, cfg)]
      ensures order == Appended(old(order), r.pidTid) && log == old(log) + Emitted(None, r)
    {
      Fill(info, r, scanNum);
      AddEntry(info);
    }

    ghost method DetachLinks(info: Info)
      requires Linked() && info in infos && info.next == null && info.prev == null
      requires info.pidTid !in links.next && info.pidTid in cache && cache[info.pidTid] == info
      modifies this`links
      ensures Linked() && links == Detached(old(links), info.pidTid)
    {
      ghost var l, p := links, info.pidTid;
      links := Detached(l, p);
      forall q | q in links.next ensures NearOk(links, q) && LinkOk(q) {
        assert q != p ==> NearOk(l, q) && old(LinkOk(q));
      }
    }

    ghost method RecordBehind(info: Info, l: Links)
      requires Filled() && Wf(order) && LinksOf(l, order) && entries.Keys == order.chain.Keys
      requires info.pidTid in cache && cache[info.pidTid] == info && info in infos
      requires info.pidStat in parsers && info.pidStat.seat == info
      requires info.pidTid !in entries && links == Detached(l, info.pidTid)
      modifies this`entries, this`order, this`stranded
      ensures Filled() && entries == old(entries)[info.pidTid := EntryOf(info)]
      ensures Ordered() && order == Stranded(old(order), info.pidTid) && stranded == old(stranded) + 1
    {
      ghost var p := info.pidTid;
      StrandedIsWf(order, p);
      StrandedLinksOf(l, order, p);
      entries, order, stranded := entries[p := EntryOf(info)], Stranded(order, p), stranded + 1;
      forall q | q in entries ensures NodeOk(q) {
        assert q != p ==> old(NodeOk(q));
      }
    }

    /** A mapped entry stays off the list: it is a chain of its own. */
    ghost method LeaveBehind(info: Info)
      requires ValidBut(info.pidTid) && Loose(info) && info.pidTid in cache && cache[info.pidTid] == info
      modifies this`entries, this`order, this`links, this`stranded
      ensures Valid()
      ensures entries == old(entries)[info.pidTid := EntryOf(info)] && order == Stranded(old(order), info.pidTid)
      ensures stranded == old(stranded) + 1
    {
      ghost var l := links;
      DetachLinks(info);
      RecordBehind(info, l);
    }

    method NewInfo(r: Reading, ghost prior: Info?, ghost e: Option<Entry>) returns (info: Info)
      requires ValidBut(r.pidTid) && Off(r.pidTid, prior, e)
      modifies this`infos, this`parsers
      ensures ValidBut(r.pidTid) && Off(r.pidTid, prior, e)
      ensures fresh(info) && Loose(info) && info.pidTid == r.pidTid
      ensures infos == old(infos) + {info} && parsers == old(parsers) + {info.pidStat} && fresh(info.pidStat)
      ensures info.active && !info.minZero && !info.majZero && info.cycleNum == r.initialCycleNum
    {
      info := InitInfo(r);
      SetActive(info, true);
    }

    ghost method MaybeLeaveBehind(p: PidTid, prior: Info?, e: Option<Entry>, c: Counts)
      requires ValidBut(p) && Off(p, prior, e)
      modifies this`entries, this`order, this`links, this`stranded
      ensures Valid()
      ensures WorkOf(c) == if e.Some? then LeftBehind(old(WorkOf(c)), e.value) else old(WorkOf(c))
    {
      if prior != null {
        LeaveBehind(prior);
      }
    }

    /** The new entry `info` of a PID/TID whose old entry, if any, is off the list but still mapped. If another parser
        fails, that one is left there. */
    method Settle(info: Info, ghost prior: Info?, ghost e: Option<Entry>, r: Reading, scanNum: Int64, c: Counts)
      returns (c': Counts)
      requires ValidBut(r.pidTid) && Off(r.pidTid, prior, e) && Loose(info) && info.pidTid == r.pidTid
      requires info.active && !info.minZero && !info.majZero && info.cycleNum == r.initialCycleNum
      requires r.stat.Some? && scratch.data == r.stat.value
      modifies this`cache, this`head, this`tail, this`scratch, this`log, this`entries, this`order, this`links,
               this`stranded, infos, parsers`seat
      ensures Valid()
      ensures WorkOf(c') == ReadNew(old(WorkOf(c)), e, r, scanNum, cfg)
    {
      c' := c;
      if (cfg.usePidStatus && !r.statusOk) || (r.IsPid() && !r.cmdlineOk) {
        assert !OtherParsersOk(None, r, cfg);
        MaybeLeaveBehind(r.pidTid, prior, e, c);
        return;
      }
      assert OtherParsersOk(None, r, cfg);
      Admit(info, r, scanNum);
      c' := c'.(added := c'.added + 1, parsed := c'.parsed + 1, active := c'.active + 1);
    }

    /** A new PID/TID, or a new incarnation of one, whose old entry counts as deleted. */
    method ScanNewPid(prior: Info?, ghost e: Option<Entry>, r: Reading, scanNum: Int64, c: Counts)
      returns (c': Counts)
      requires ValidBut(r.pidTid) && Off(r.pidTid, prior, e)
      requires r.stat.Some? && scratch.data == r.stat.value
      modifies this`cache, this`head, this`tail, this`scratch, this`log, this`entries, this`order, this`links,
               this`stranded, this`infos, this`parsers, infos, parsers`seat
      ensures Valid()
      ensures WorkOf(c') == ReadNew(old(WorkOf(c)).(deleted := c.deleted + Bit(e.Some?)), e, r, scanNum, cfg)
      ensures infos >= old(infos) && fresh(infos - old(infos))
      ensures parsers >= old(parsers) && fresh(parsers - old(parsers))
    {
      c' := c;
      if prior != null {
        c' := c'.(deleted := c'.deleted + 1);
      }
      var info := NewInfo(r, prior, e);
      assert WorkOf(c') == old(WorkOf(c)).(deleted := c.deleted + Bit(e.Some?));
      c' := Settle(info, prior, e, r, scanNum, c');
    }

    /** The same, for a PID/TID whose start time is not that of its entry. */
    method Renewed(prior: Info?, ghost e: Option<Entry>, r: Reading, scanNum: Int64, c: Counts) returns (c': Counts)
      requires ValidBut(r.pidTid) && Off(r.pidTid, prior, e)
      requires r.stat.Some? && scratch.data == r.stat.value && !SameStart(e, r)
      modifies this`cache, this`head, this`tail, this`scratch, this`log, this`entries, this`order, this`links,
               this`stranded, this`infos, this`parsers, infos, parsers`seat
      ensures Valid()
      ensures WorkOf(c') == Reread(old(WorkOf(c)), e, r, scanNum, cfg)
      ensures infos >= old(infos) && fresh(infos - old(infos))
      ensures parsers >= old(parsers) && fresh(parsers - old(parsers))
    {
      c' := ScanNewPid(prior, e, r, scanNum, c);
    }

    /** Takes the entry of a PID/TID, if any, off the list. */
    method Lookup(p: PidTid, ghost c: Counts) returns (info: Info?, ghost e: Option<Entry>)
      requires Valid()
      modifies this`head, this`tail, this`entries, this`order, this`links, infos`next, infos`prev
      ensures ValidBut(p) && Off(p, info, e) && e == Mapped(old(entries), p)
      ensures WorkOf(c) == TakenOff(old(WorkOf(c)), p)
    {
      info, e := null, Mapped(entries, p);
      if p in cache {
        info := TakeOff(p);
      } else {
        assert !PlaceOk(order, p);
      }
    }

    /** A PID/TID whose entry, if any, was taken off the list: known if it has the same start time, else new. */
    method Rescan(info: Info?, ghost e: Option<Entry>, r: Reading, scanNum: Int64, c: Counts) returns (c': Counts)
      requires ValidBut(r.pidTid) && Off(r.pidTid, info, e)
      requires r.stat.Some? && scratch.data == r.stat.value
      modifies this`cache, this`head, this`tail, this`scratch, this`log, this`entries, this`order, this`links,
               this`stranded, this`infos, this`parsers, infos, parsers`seat
      ensures Valid()
      ensures WorkOf(c') == Reread(old(WorkOf(c)), e, r, scanNum, cfg)
      ensures infos >= old(infos) && fresh(infos - old(infos))
      ensures parsers >= old(parsers) && fresh(parsers - old(parsers))
    {
      if info != null && scratch.data.starttime == info.pidStat.data.starttime {
        c' := ScanKnownPid(info, e.value, r, scanNum, c);
      } else {
        c' := Renewed(info, e, r, scanNum, c);
      }
    }

    /** A PID/TID whose entry, if any, was taken off the list: dropped if it cannot be read. */
    method ParseAndRescan(info: Info?, ghost e: Option<Entry>, r: Reading, scanNum: Int64, c: Counts)
      returns (c': Counts)
      requires ValidBut(r.pidTid) && Off(r.pidTid, info, e)
      modifies this`cache, this`head, this`tail, this`scratch, this`log, this`entries, this`order, this`links,
               this`stranded, this`infos, this`parsers, infos, parsers
      ensures Valid()
      ensures WorkOf(c') == Reread(old(WorkOf(c)), e, r, scanNum, cfg)
      ensures infos >= old(infos) && fresh(infos - old(infos))
      ensures parsers >= old(parsers) && fresh(parsers - old(parsers))
    {
      var ok := ParseScratch(r);
      if ok {
        c' := Rescan(info, e, r, scanNum, c);
      } else {
        c' := c;
        if info != null {
          c' := c'.(deleted := c'.deleted + 1);
        }
        Forget(r.pidTid);
      }
    }

    /** One reading, whatever is cached and whatever is read. */
    method ScanPid(r: Reading, scanNum: Int64, c: Counts) returns (c': Counts)
      requires Valid()
      modifies this`cache, this`head, this`tail, this`scratch, this`log, this`entries, this`order, this`links,
               this`stranded, this`infos, this`parsers, infos, parsers
      ensures Valid()
      ensures WorkOf(c') == ReadOne(old(WorkOf(c)), r, scanNum, cfg)
      ensures infos >= old(infos) && fresh(infos - old(infos))
      ensures parsers >= old(parsers) && fresh(parsers - old(parsers))
    {
      ghost var e;
      var info;
      info, e := Lookup(r.pidTid, c);
      c' := ParseAndRescan(info, e, r, scanNum, c);
    }

    // ---------- Pruning and whole scans ----------

    /** The list goes on from the successor of its head. */
    method AdvanceHead(ghost p: PidTid)
      requires Linked() && links.head == Some(p) && links.prev[p].None? && links.next[p].Some?
      requires Closed(Bridged(links, p))
      modifies this`head, this`links, infos`prev
      ensures Linked() && links == Bridged(old(links), p)
    {
      ghost var l := links;
      assert LinkOk(p) && NearOk(l, p);
      PtrIs(l.next[p], p);
      forall q | q in l.next ensures LinkOk(q) && (cache[q] == cache[p].next <==> l.next[p] == Some(q)) {
        PtrIs(l.next[p], q);
      }
      head := head.next;
      head.prev := null;
      links := Bridged(l, p);
      forall q | q in links.next ensures LinkOk(q) {
        assert old(LinkOk(q));
      }
    }

    /** What is at the head. */
    lemma AtHead()
      requires Valid()
      ensures Stocked(entries, order) && (head == null <==> HeadList(order) == [])
      ensures head != null ==>
                var p := HeadList(order)[0];
                && p in cache && head == cache[p] && p in entries && entries[p] == EntryOf(head)
                && links.head == Some(p) && links.prev[p].None? && (head.next == null <==> |HeadList(order)| == 1)
                && (head.next == null <==> links.next[p].None?)
    {
      forall p | p in entries ensures entries[p].pidTid == p {
        assert NodeOk(p);
      }
      EndsAreIn(order);
      if HeadList(order) != [] {
        var p := HeadList(order)[0];
        assert LinkOk(p) && NodeOk(p) && LinksAt(links, order, p) && NearOk(links, p);
        PtrIs(links.next[p], p);
        HeadNext(order);
      }
    }

    /** The head leaves the list. */
    method Behead(p: PidTid)
      requires Valid() && p in entries && links.head == Some(p) && links.prev[p].None? && links.next[p].Some?
      modifies this`head, this`entries, this`order, this`links, infos`prev
      ensures ValidBut(p)
      ensures PlaceOk(old(order), p) && entries == old(entries) - {p} && order == Spliced(old(order), p)
    {
      ghost var l := links;
      CanUnhook(p);
      AdvanceHead(p);
      RecordOff(p, l);
    }

    /** The head leaves list and map. */
    method DropHead()
      requires Valid() && head != null && head.next != null
      modifies this`cache, this`head, this`entries, this`order, this`links, infos`prev
      ensures Valid() && HeadList(old(order)) != []
      ensures var p := HeadList(old(order))[0];
              PlaceOk(old(order), p) && entries == old(entries) - {p} && order == Spliced(old(order), p)
    {
      AtHead();
      var pidTid := head.pidTid;
      Behead(pidTid);
      Forget(pidTid);
    }

    /** One turn of the prune loop. */
    method PruneTurn(scanNum: Int64) returns (more: bool, faulted: bool)
      requires Valid()
      modifies this`cache, this`head, this`entries, this`order, this`links, infos`prev
      ensures Valid() && PruneLoop(entries, order, scanNum) == PruneLoop(old(entries), old(order), scanNum)
      ensures !more ==> order == old(order) && entries == old(entries)
      ensures !more ==> PruneLoop(entries, order, scanNum) == if faulted then Fault else Pruned(entries, order)
      ensures more ==> |entries| + 1 == |old(entries)| && |HeadList(order)| < |HeadList(old(order))|
    {
      AtHead();
      more, faulted := false, false;
      if head == null {
        return;
      }
      LoopTurn(entries, order, scanNum);
      if head.scanNum == scanNum {
        return;
      }
      if head.next == null {
        faulted := true;
        return;
      }
      SizeWithout(entries, HeadList(order)[0]);
      DropHead();
      more := true;
    }

    /** Drops stale entries from the head. Without a fresh entry to stop at, the loop dereferences a nil `next`
        (`faulted`). */
    method Prune(scanNum: Int64) returns (dropped: nat, faulted: bool)
      requires Valid()
      modifies this`cache, this`head, this`entries, this`order, this`links, infos`prev
      ensures faulted <==> PruneLoop(old(entries), old(order), scanNum).Fault?
      ensures !faulted ==> Valid() && Pruned(entries, order) == PruneLoop(old(entries), old(order), scanNum)
      ensures !faulted ==> dropped + |entries| == |old(entries)|
    {
      ghost var target, size := PruneLoop(entries, order, scanNum), |entries|;
      dropped, faulted := 0, false;
      var more := true;
      while more
        invariant Valid() && PruneLoop(entries, order, scanNum) == target && dropped + |entries| == size
        invariant !more ==> target == if faulted then Fault else Pruned(entries, order)
        invariant infos == old(infos)
        decreases |HeadList(order)|, more
      {
        more, faulted := PruneTurn(scanNum);
        if more {
          dropped := dropped + 1;
        }
      }
    }

    /** The readings of a scan. */
    method ScanPids(rs: seq<Reading>, n: Int64, c0: Counts) returns (c: Counts)
      requires Valid()
      modifies this`cache, this`head, this`tail, this`scratch, this`log, this`entries, this`order, this`links,
               this`stranded, this`infos, this`parsers, infos, parsers
      ensures Valid() && WorkOf(c) == ReadAll(old(WorkOf(c0)), rs, n, cfg)
      ensures infos >= old(infos) && fresh(infos - old(infos))
      ensures parsers >= old(parsers) && fresh(parsers - old(parsers))
    {
      c := c0;
      ghost var start := WorkOf(c);
      for k := 0 to |rs|
        invariant Valid() && WorkOf(c) == ReadAll(start, rs[..k], n, cfg)
        invariant infos >= old(infos) && fresh(infos - old(infos))
        invariant parsers >= old(parsers) && fresh(parsers - old(parsers))
      {
        assert rs[..k + 1][..k] == rs[..k];
        c := ScanPid(rs[k], n, c);
      }
      assert rs[..|rs|] == rs;
    }

    method ReadListing(rs: seq<Reading>, n: Int64) returns (c: Counts)
      requires Valid() && n == NextScanNum(scanNum)
      modifies this`cache, this`head, this`tail, this`scratch, this`log, this`entries, this`order, this`links,
               this`stranded, this`infos, this`parsers, infos, parsers
      ensures Valid() && WorkOf(c) == Worked(old(StoreOf()), rs, cfg)
      ensures infos >= old(infos) && fresh(infos - old(infos))
      ensures parsers >= old(parsers) && fresh(parsers - old(parsers))
    {
      stranded := 0;
      c := ScanPids(rs, n, Counts(0, 0, 0, 0));
    }

    ghost predicate Executed(s: Store, rs: seq<Reading>, c: Counts)
      reads this
    {
      var w := Worked(s, rs, cfg);
      && StoreOf() == ExecuteStore(s, rs, cfg)
      && c.added == w.added && c.parsed == w.parsed && c.active == w.active
      && c.deleted + |entries| == w.deleted + |w.entries|
    }

    /** The end of a scan: pruning, then the new scan number. */
    method Finish(n: Int64, c: Counts) returns (c': Counts, faulted: bool)
      requires Valid()
      modifies this`cache, this`head, this`entries, this`order, this`links, this`scanNum, infos`prev
      ensures faulted <==> PruneLoop(old(entries), old(order), n).Fault?
      ensures !faulted ==>
                Valid() && scanNum == n && Pruned(entries, order) == PruneLoop(old(entries), old(order), n)
      ensures !faulted ==> c'.deleted + |entries| == c.deleted + |old(entries)| && c' == c.(deleted := c'.deleted)
    {
      var dropped;
      dropped, faulted := Prune(n);
      c' := c.(deleted := c.deleted + dropped);
      scanNum := n;
    }

    /** A whole scan, whatever it reads. The only fault is the one in the prune loop. */
    method Execute(rs: seq<Reading>) returns (c: Counts, faulted: bool)
      requires Valid()
      modifies this, infos, parsers
      ensures faulted <==> ExecuteStore(old(StoreOf()), rs, cfg).crashed
      ensures !faulted ==> Valid() && Executed(old(StoreOf()), rs, c)
      ensures infos >= old(infos) && fresh(infos - old(infos))
      ensures parsers >= old(parsers) && fresh(parsers - old(parsers))
    {
      ghost var s := StoreOf();
      var n := NextScanNum(scanNum);
      c := ReadListing(rs, n);
      ghost var w, known, owned := Worked(s, rs, cfg), infos, parsers;
      c, faulted := Finish(n, c);
      assert infos == known && parsers == owned;
      ExecuteStoreIs(s, rs, cfg, w, if faulted then Fault else Pruned(entries, order));
    }

    /** Runs of scans, whatever they read, up to the first fault: every cached counter is accounted for. */
    method RunScans(scans: seq<seq<Reading>>) returns (faulted: bool)
      requires Valid() && StoreOf() == EMPTY_STORE
      modifies this, infos, parsers
      ensures faulted <==> RunStore(scans, cfg).crashed
      ensures !faulted ==> Valid() && StoreOf() == RunStore(scans, cfg) && AllAccounted(entries, log)
    {
      faulted := false;
      ghost var s := StoreOf();
      for k := 0 to |scans|
        invariant Valid() && StoreOf() == s && s == RunStore(scans[..k], cfg) && !s.crashed
        invariant infos >= old(infos) && fresh(infos - old(infos))
        invariant parsers >= old(parsers) && fresh(parsers - old(parsers))
      {
        ghost var s' := ExecuteStore(s, scans[k], cfg);
        RunStoreTurn(scans, k, cfg);
        var _, failed := Execute(scans[k]);
        if failed {
          faulted := true;
          CrashLasts(scans, k + 1, cfg);
          return;
        }
        s := s';
      }
      assert scans[..|scans|] == scans;
      EveryRunIsAccounted(scans, cfg);
    }
  }
}
