/** How the cached entries are linked, stated on PIDs. The links of the entries form chains. The head of the list
    is the first entry of one of them, or nil, and the tail the last entry of one of them, or nil: not always of the
    same one. */
module PidOrder {
  import opened Common
  import opened PidScan

  // ---------- One chain ----------

  predicate NoRepeats(s: seq<PidTid>) {
    forall i, j | 0 <= i < j < |s| :: s[i] != s[j]
  }

  ghost function IndexIn(s: seq<PidTid>, p: PidTid): (i: int)
    ensures -1 <= i < |s|
    ensures i >= 0 ==> s[i] == p
    ensures i < 0 <==> p !in s
  {
    if p in s then var i :| 0 <= i < |s| && s[i] == p; i else -1
  }

  function At(s: seq<PidTid>, i: int): Option<PidTid> {
    if 0 <= i < |s| then Some(s[i]) else None
  }

  function LastOf(s: seq<PidTid>): Option<PidTid> {
    At(s, |s| - 1)
  }

  ghost function NextIn(s: seq<PidTid>, p: PidTid): Option<PidTid> {
    if p in s then At(s, IndexIn(s, p) + 1) else None
  }

  ghost function PrevIn(s: seq<PidTid>, p: PidTid): Option<PidTid> {
    if p in s then At(s, IndexIn(s, p) - 1) else None
  }

  ghost function Removed(s: seq<PidTid>, p: PidTid): seq<PidTid> {
    var k := IndexIn(s, p);
    if k < 0 then s else seq(|s| - 1, i requires 0 <= i < |s| - 1 => s[if i < k then i else i + 1])
  }

  lemma IndexInAt(s: seq<PidTid>, i: nat)
    requires NoRepeats(s) && i < |s|
    ensures IndexIn(s, s[i]) == i
  {
  }

  lemma RemovedHas(s: seq<PidTid>, p: PidTid, q: PidTid)
    requires NoRepeats(s) && p in s && p != q
    ensures q in Removed(s, p) <==> q in s
  {
    var k := IndexIn(s, p);
    if q in s {
      var i := IndexIn(s, q);
      assert Removed(s, p)[if i < k then i else i - 1] == q;
    }
  }

  lemma NeighbourAt(s: seq<PidTid>, p: PidTid, q: PidTid)
    requires NoRepeats(s) && p in s && q in s
    ensures PrevIn(s, p) == Some(q) <==> IndexIn(s, q) + 1 == IndexIn(s, p)
    ensures NextIn(s, p) == Some(q) <==> IndexIn(s, q) == IndexIn(s, p) + 1
  {
    var k := IndexIn(s, p);
    if k > 0 {
      IndexInAt(s, k - 1);
    }
    if k + 1 < |s| {
      IndexInAt(s, k + 1);
    }
  }

  /** What a chain looks like without `p`: those around `p` are linked to each other. */
  lemma {:induction false} RemovedLinks(s: seq<PidTid>, p: PidTid, q: PidTid)
    requires NoRepeats(s) && p in s && q in s && p != q
    ensures q in Removed(s, p)
    ensures NextIn(Removed(s, p), q) == if PrevIn(s, p) == Some(q) then NextIn(s, p) else NextIn(s, q)
    ensures PrevIn(Removed(s, p), q) == if NextIn(s, p) == Some(q) then PrevIn(s, p) else PrevIn(s, q)
  {
    NeighbourAt(s, p, q);
    RemovedIndex(s, p, q);
  }

  lemma RemovedIndex(s: seq<PidTid>, p: PidTid, q: PidTid)
    requires NoRepeats(s) && p in s && q in s && p != q
    ensures q in Removed(s, p)
    ensures IndexIn(Removed(s, p), q) == if IndexIn(s, q) < IndexIn(s, p) then IndexIn(s, q) else IndexIn(s, q) - 1
  {
    var k, i := IndexIn(s, p), IndexIn(s, q);
    var j := if i < k then i else i - 1;
    assert Removed(s, p)[j] == q;
    RemovedIsDistinct(s, p);
    IndexInAt(Removed(s, p), j);
  }

  lemma RemovedIsDistinct(s: seq<PidTid>, p: PidTid)
    requires NoRepeats(s)
    ensures NoRepeats(Removed(s, p)) && p !in Removed(s, p)
  {
  }

  lemma RemovedEnds(s: seq<PidTid>, p: PidTid)
    requires NoRepeats(s) && p in s
    ensures var s' := Removed(s, p);
            && |s'| == |s| - 1
            && At(s', 0) == (if PrevIn(s, p).None? then NextIn(s, p) else At(s, 0))
            && LastOf(s') == (if NextIn(s, p).None? then PrevIn(s, p) else LastOf(s))
            && (|s| == 1 <==> PrevIn(s, p).None? && NextIn(s, p).None?)
  {
  }

  lemma AppendedLinks(s: seq<PidTid>, p: PidTid, q: PidTid)
    requires NoRepeats(s) && p !in s
    ensures NoRepeats(s + [p])
    ensures NextIn(s + [p], p) == None && PrevIn(s + [p], p) == LastOf(s)
    ensures q in s ==> NextIn(s + [p], q) == if LastOf(s) == Some(q) then Some(p) else NextIn(s, q)
    ensures q in s ==> PrevIn(s + [p], q) == PrevIn(s, q)
  {
    assert NoRepeats(s + [p]);
    assert (s + [p])[|s|] == p;
    IndexInAt(s + [p], |s|);
    if q in s {
      var i := IndexIn(s, q);
      assert (s + [p])[i] == q;
      IndexInAt(s + [p], i);
      if i + 1 < |s| {
        assert s[|s| - 1] != s[i];
      }
    }
  }

  // ---------- All chains ----------

  /** `chain` says in which chain a PID is; `head` and `tail` are the chains that the list starts and ends in. */
  datatype Order = Order(lists: seq<seq<PidTid>>, chain: map<PidTid, nat>, head: Option<nat>, tail: Option<nat>)

  const NO_ENTRIES := Order([], map[], None, None)

  ghost predicate ListOk(o: Order, c: nat)
    requires c < |o.lists|
  {
    NoRepeats(o.lists[c]) && forall p | p in o.lists[c] :: p in o.chain && o.chain[p] == c
  }

  predicate PlaceOk(o: Order, p: PidTid) {
    p in o.chain && o.chain[p] < |o.lists| && p in o.lists[o.chain[p]]
  }

  predicate EndOk(o: Order, end: Option<nat>) {
    end.Some? ==> end.value < |o.lists| && o.lists[end.value] != []
  }

  /** Every entry is in one place of one chain, and head and tail are ends of chains with entries. */
  ghost predicate Wf(o: Order) {
    && (forall c {:trigger ListOk(o, c)} | 0 <= c < |o.lists| :: ListOk(o, c))
    && (forall p {:trigger PlaceOk(o, p)} | p in o.chain :: PlaceOk(o, p))
    && EndOk(o, o.head) && EndOk(o, o.tail)
  }

  function ListOf(o: Order, p: PidTid): seq<PidTid> {
    if PlaceOk(o, p) then o.lists[o.chain[p]] else []
  }

  ghost function NextOf(o: Order, p: PidTid): Option<PidTid> {
    NextIn(ListOf(o, p), p)
  }

  ghost function PrevOf(o: Order, p: PidTid): Option<PidTid> {
    PrevIn(ListOf(o, p), p)
  }

  /** The chain that the list starts with. */
  function HeadList(o: Order): seq<PidTid> {
    if o.head.Some? && o.head.value < |o.lists| then o.lists[o.head.value] else []
  }

  function TailList(o: Order): seq<PidTid> {
    if o.tail.Some? && o.tail.value < |o.lists| then o.lists[o.tail.value] else []
  }

  function HeadOf(o: Order): Option<PidTid> {
    At(HeadList(o), 0)
  }

  function TailOf(o: Order): Option<PidTid> {
    LastOf(TailList(o))
  }

  /** An entry is taken off: its neighbours are linked to each other. One without a predecessor is taken for the head of
      the list, one without a successor for its tail. */
  ghost function Spliced(o: Order, p: PidTid): Order
    requires PlaceOk(o, p)
  {
    var c, s := o.chain[p], ListOf(o, p);
    var prev, next := PrevIn(s, p), NextIn(s, p);
    Order(o.lists[c := Removed(s, p)], o.chain - {p},
          if prev.Some? then o.head else if next.Some? then Some(c) else None,
          if next.Some? then o.tail else if prev.Some? then Some(c) else None)
  }

  /** An entry goes behind the tail; without a tail it starts a list of its own. */
  function Appended(o: Order, p: PidTid): Order {
    var n := |o.lists|;
    if o.tail.Some? && o.tail.value < n then
      Order(o.lists[o.tail.value := o.lists[o.tail.value] + [p]], o.chain[p := o.tail.value], o.head, o.tail)
    else
      Order(o.lists + [[p]], o.chain[p := n], Some(n), Some(n))
  }

  /** An entry is left with nil links, out of reach of head and tail. */
  function Stranded(o: Order, p: PidTid): Order {
    o.(lists := o.lists + [[p]], chain := o.chain[p := |o.lists|])
  }

  lemma {:induction false} SplicedIsWf(o: Order, p: PidTid)
    requires Wf(o) && p in o.chain
    ensures PlaceOk(o, p) && Wf(Spliced(o, p)) && Spliced(o, p).chain.Keys == o.chain.Keys - {p}
  {
    assert PlaceOk(o, p);
    var c, s, o' := o.chain[p], ListOf(o, p), Spliced(o, p);
    assert ListOk(o, c);
    RemovedIsDistinct(s, p);
    RemovedEnds(s, p);
    forall d | 0 <= d < |o'.lists| ensures ListOk(o', d) {
      assert ListOk(o, d);
      forall q | q in o'.lists[d] ensures q in o'.chain && o'.chain[q] == d {
        if d == c {
          RemovedHas(s, p, q);
        }
      }
    }
    forall q | q in o'.chain ensures PlaceOk(o', q) {
      assert PlaceOk(o, q);
      if o.chain[q] == c {
        RemovedHas(s, p, q);
      }
    }
  }

  lemma {:induction false} SplicedLinks(o: Order, p: PidTid, q: PidTid)
    requires Wf(o) && p in o.chain && q in o.chain && p != q
    ensures PlaceOk(o, p)
    ensures var o' := Spliced(o, p);
            && NextOf(o', q) == (if PrevOf(o, p) == Some(q) then NextOf(o, p) else NextOf(o, q))
            && PrevOf(o', q) == (if NextOf(o, p) == Some(q) then PrevOf(o, p) else PrevOf(o, q))
  {
    SplicedIsWf(o, p);
    var c, s, o' := o.chain[p], ListOf(o, p), Spliced(o, p);
    assert PlaceOk(o, q) && PlaceOk(o', q) && ListOk(o, c);
    NeighboursAreIn(o, p);
    if o.chain[q] == c {
      RemovedLinks(s, p, q);
    }
  }

  lemma {:induction false} SplicedHead(o: Order, p: PidTid)
    requires Wf(o) && p in o.chain
    ensures PlaceOk(o, p)
    ensures HeadOf(Spliced(o, p)) == if PrevOf(o, p).None? then NextOf(o, p) else HeadOf(o)
  {
    assert PlaceOk(o, p) && ListOk(o, o.chain[p]);
    var s, o' := ListOf(o, p), Spliced(o, p);
    RemovedEnds(s, p);
    if o'.head == Some(o.chain[p]) {
      assert HeadList(o') == Removed(s, p);
    } else {
      assert HeadList(o') == if PrevIn(s, p).Some? then HeadList(o) else [];
    }
  }

  lemma {:induction false} SplicedTail(o: Order, p: PidTid)
    requires Wf(o) && p in o.chain
    ensures PlaceOk(o, p)
    ensures TailOf(Spliced(o, p)) == if NextOf(o, p).None? then PrevOf(o, p) else TailOf(o)
  {
    assert PlaceOk(o, p) && ListOk(o, o.chain[p]);
    var s, o' := ListOf(o, p), Spliced(o, p);
    RemovedEnds(s, p);
    if o'.tail == Some(o.chain[p]) {
      assert TailList(o') == Removed(s, p);
    } else {
      assert TailList(o') == if NextIn(s, p).Some? then TailList(o) else [];
    }
  }

  /** Neighbours are other entries of the same chain. */
  lemma NeighboursAreIn(o: Order, p: PidTid)
    requires Wf(o) && p in o.chain
    ensures NextOf(o, p).Some? ==> var q := NextOf(o, p).value; q in o.chain && o.chain[q] == o.chain[p] && q != p
    ensures PrevOf(o, p).Some? ==> var q := PrevOf(o, p).value; q in o.chain && o.chain[q] == o.chain[p] && q != p
  {
    assert PlaceOk(o, p) && ListOk(o, o.chain[p]);
  }

  lemma EndsAreIn(o: Order)
    requires Wf(o)
    ensures HeadOf(o).Some? ==> HeadOf(o).value in o.chain && PrevOf(o, HeadOf(o).value).None?
    ensures TailOf(o).Some? ==> TailOf(o).value in o.chain && NextOf(o, TailOf(o).value).None?
    ensures (o.head.Some? <==> HeadOf(o).Some?) && (o.tail.Some? <==> TailOf(o).Some?)
  {
    if o.head.Some? {
      var s := HeadList(o);
      assert ListOk(o, o.head.value) && s[0] in s;
      IndexInAt(s, 0);
    }
    if o.tail.Some? {
      var s := TailList(o);
      assert ListOk(o, o.tail.value) && s[|s| - 1] in s;
      IndexInAt(s, |s| - 1);
    }
  }

  lemma HeadNext(o: Order)
    requires Wf(o) && HeadList(o) != []
    ensures NextOf(o, HeadList(o)[0]).None? <==> |HeadList(o)| == 1
  {
    var s := HeadList(o);
    assert ListOk(o, o.head.value) && s[0] in s;
    IndexInAt(s, 0);
  }

  lemma {:induction false} AppendedIsWf(o: Order, p: PidTid)
    requires Wf(o) && p !in o.chain
    ensures Wf(Appended(o, p)) && Appended(o, p).chain.Keys == o.chain.Keys + {p}
  {
    var o' := Appended(o, p);
    forall d | 0 <= d < |o'.lists| ensures ListOk(o', d) {
      if d < |o.lists| {
        assert ListOk(o, d);
        AppendedLinks(o.lists[d], p, p);
      }
    }
    forall q | q in o'.chain ensures PlaceOk(o', q) {
      assert q != p ==> PlaceOk(o, q);
    }
  }

  lemma {:induction false} AppendedPlaces(o: Order, p: PidTid, q: PidTid)
    requires Wf(o) && p !in o.chain && q in o.chain
    ensures NextOf(Appended(o, p), q) == if TailOf(o) == Some(q) then Some(p) else NextOf(o, q)
    ensures PrevOf(Appended(o, p), q) == PrevOf(o, q)
  {
    var s, o' := ListOf(o, q), Appended(o, p);
    assert PlaceOk(o, q) && ListOk(o, o.chain[q]);
    if o.tail == Some(o.chain[q]) {
      assert p !in s;
      AppendedLinks(s, p, q);
      assert PlaceOk(o', q) && ListOf(o', q) == s + [p] && TailList(o) == s;
    } else {
      assert PlaceOk(o', q) && ListOf(o', q) == s;
      TailElsewhere(o, q);
    }
  }

  lemma TailElsewhere(o: Order, q: PidTid)
    requires Wf(o) && q in o.chain && o.tail != Some(o.chain[q])
    ensures TailOf(o) != Some(q)
  {
    if o.tail.Some? {
      assert ListOk(o, o.tail.value) && TailOf(o).value in TailList(o);
    }
  }

  lemma {:induction false} AppendedEnds(o: Order, p: PidTid)
    requires Wf(o) && p !in o.chain
    ensures var o' := Appended(o, p);
            && NextOf(o', p).None? && PrevOf(o', p) == TailOf(o) && TailOf(o') == Some(p)
            && HeadOf(o') == if TailOf(o).None? then Some(p) else HeadOf(o)
  {
    var s, o' := TailList(o), Appended(o, p);
    if o.tail.Some? {
      assert ListOk(o, o.tail.value);
      AppendedLinks(s, p, p);
      assert ListOf(o', p) == TailList(o') == s + [p];
      assert o.head != o.tail ==> HeadList(o') == HeadList(o);
    } else {
      assert ListOf(o', p) == TailList(o') == HeadList(o') == [p];
    }
  }

  lemma StrandedIsWf(o: Order, p: PidTid)
    requires Wf(o) && p !in o.chain
    ensures Wf(Stranded(o, p)) && Stranded(o, p).chain.Keys == o.chain.Keys + {p}
  {
    var o' := Stranded(o, p);
    forall d | 0 <= d < |o'.lists| ensures ListOk(o', d) {
      if d < |o.lists| {
        assert ListOk(o, d);
      }
    }
    forall q | q in o'.chain ensures PlaceOk(o', q) {
      assert q != p ==> PlaceOk(o, q);
    }
  }

  lemma {:induction false} StrandedLinks(o: Order, p: PidTid)
    requires Wf(o) && p !in o.chain
    ensures var o' := Stranded(o, p);
            && NextOf(o', p).None? && PrevOf(o', p).None? && HeadOf(o') == HeadOf(o) && TailOf(o') == TailOf(o)
            && (forall q | q in o.chain :: NextOf(o', q) == NextOf(o, q) && PrevOf(o', q) == PrevOf(o, q))
  {
    var o' := Stranded(o, p);
    StrandedIsWf(o, p);
    assert PlaceOk(o', p) && ListOf(o', p) == [p];
    forall q | q in o.chain ensures NextOf(o', q) == NextOf(o, q) && PrevOf(o', q) == PrevOf(o, q) {
      assert PlaceOk(o, q) && PlaceOk(o', q);
    }
  }

  /** The list is lost, head and tail both, exactly when an entry alone in its chain is taken off. */
  lemma ListLostExactlyWhen(o: Order, p: PidTid)
    requires Wf(o) && p in o.chain && o.head.Some? && o.tail.Some?
    ensures PlaceOk(o, p)
    ensures Spliced(o, p).head.None? && Spliced(o, p).tail.None? <==> ListOf(o, p) == [p]
  {
    assert PlaceOk(o, p) && ListOk(o, o.chain[p]);
    RemovedEnds(ListOf(o, p), p);
  }

  /** Taking an entry off moves the head into another chain exactly when it is the first of that chain. */
  lemma HeadMovesExactlyWhen(o: Order, p: PidTid)
    requires Wf(o) && p in o.chain && o.head != Some(o.chain[p]) && |ListOf(o, p)| > 1
    ensures PlaceOk(o, p) && (Spliced(o, p).head == Some(o.chain[p]) <==> ListOf(o, p)[0] == p)
  {
    assert PlaceOk(o, p) && ListOk(o, o.chain[p]);
    IndexInAt(ListOf(o, p), 0);
    RemovedEnds(ListOf(o, p), p);
  }

  // ---------- The links alone ----------

  /** What the links of every entry, the head and the tail are. */
  datatype Links = Links(next: map<PidTid, Option<PidTid>>, prev: map<PidTid, Option<PidTid>>,
                         head: Option<PidTid>, tail: Option<PidTid>)

  const NO_LINKS := Links(map[], map[], None, None)

  predicate LeadsTo(l: Links, to: Option<PidTid>) {
    to.Some? ==> to.value in l.next
  }

  /** The links of `p` lead to other entries. */
  predicate NearOk(l: Links, p: PidTid) {
    && p in l.next && p in l.prev && l.next[p] != Some(p) && l.prev[p] != Some(p)
    && LeadsTo(l, l.next[p]) && LeadsTo(l, l.prev[p])
  }

  ghost predicate Closed(l: Links) {
    && l.next.Keys == l.prev.Keys && LeadsTo(l, l.head) && LeadsTo(l, l.tail)
    && (forall p {:trigger NearOk(l, p)} | p in l.next :: NearOk(l, p))
  }

  /** The links around `p` after it was taken off. */
  function Bridged(l: Links, p: PidTid): Links
    requires p in l.next && p in l.prev
  {
    Links(map q | q in l.next && q != p :: if l.prev[p] == Some(q) then l.next[p] else l.next[q],
          map q | q in l.prev && q != p :: if l.next[p] == Some(q) then l.prev[p] else l.prev[q],
          if l.prev[p].None? then l.next[p] else l.head,
          if l.next[p].None? then l.prev[p] else l.tail)
  }

  /** The links with `p` behind the tail. */
  function Extended(l: Links, p: PidTid): Links {
    Links((map q | q in l.next :: if l.tail == Some(q) then Some(p) else l.next[q])[p := None], l.prev[p := l.tail],
          if l.tail.None? then Some(p) else l.head, Some(p))
  }

  /** The links with `p` linked to nothing. */
  function Detached(l: Links, p: PidTid): Links {
    l.(next := l.next[p := None], prev := l.prev[p := None])
  }

  lemma ExtendedIsClosed(l: Links, p: PidTid)
    requires Closed(l) && p !in l.next
    ensures Closed(Extended(l, p))
  {
    var l' := Extended(l, p);
    forall q | q in l'.next ensures NearOk(l', q) {
      assert q != p ==> NearOk(l, q);
    }
  }

  ghost predicate LinksAt(l: Links, o: Order, p: PidTid) {
    p in l.next && p in l.prev && l.next[p] == NextOf(o, p) && l.prev[p] == PrevOf(o, p)
  }

  /** The links are those of the chains. */
  ghost predicate LinksOf(l: Links, o: Order) {
    && l.next.Keys == o.chain.Keys && l.prev.Keys == o.chain.Keys && l.head == HeadOf(o) && l.tail == TailOf(o)
    && (forall p {:trigger LinksAt(l, o, p)} | p in o.chain :: LinksAt(l, o, p))
  }

  lemma LinksAreClosed(l: Links, o: Order)
    requires Wf(o) && LinksOf(l, o)
    ensures Closed(l)
  {
    EndsAreIn(o);
    forall p | p in l.next ensures NearOk(l, p) {
      assert LinksAt(l, o, p);
      NeighboursAreIn(o, p);
    }
  }

  /** Taking an entry off the list comes to bridging the links around it. */
  lemma {:induction false} SplicedLinksOf(l: Links, o: Order, p: PidTid)
    requires Wf(o) && LinksOf(l, o) && p in o.chain
    ensures PlaceOk(o, p) && LinksOf(Bridged(l, p), Spliced(o, p))
  {
    SplicedIsWf(o, p);
    var o', l' := Spliced(o, p), Bridged(l, p);
    assert LinksAt(l, o, p);
    assert l'.head == HeadOf(o') by { SplicedHead(o, p); }
    assert l'.tail == TailOf(o') by { SplicedTail(o, p); }
    forall q | q in o'.chain ensures LinksAt(l', o', q) {
      assert LinksAt(l, o, q);
      SplicedLinks(o, p, q);
    }
  }

  ghost predicate ExtendedAt(o: Order, p: PidTid, o': Order, q: PidTid) {
    NextOf(o', q) == (if TailOf(o) == Some(q) then Some(p) else NextOf(o, q)) && PrevOf(o', q) == PrevOf(o, q)
  }

  lemma ExtendedLinks(l: Links, o: Order, p: PidTid, o': Order)
    requires LinksOf(l, o) && p !in o.chain && o'.chain.Keys == o.chain.Keys + {p}
    requires NextOf(o', p).None? && PrevOf(o', p) == TailOf(o) && TailOf(o') == Some(p)
    requires HeadOf(o') == if TailOf(o).None? then Some(p) else HeadOf(o)
    requires forall q {:trigger ExtendedAt(o, p, o', q)} | q in o.chain :: ExtendedAt(o, p, o', q)
    ensures LinksOf(Extended(l, p), o')
  {
    var l' := Extended(l, p);
    forall q | q in o'.chain ensures LinksAt(l', o', q) {
      if q != p {
        assert LinksAt(l, o, q) && ExtendedAt(o, p, o', q);
        assert l'.next[q] == (if l.tail == Some(q) then Some(p) else l.next[q]) && l'.prev[q] == l.prev[q];
      } else {
        assert l'.next[p] == None && l'.prev[p] == l.tail;
      }
    }
  }

  /** So does appending one to extending them, */
  lemma {:induction false} AppendedLinksOf(l: Links, o: Order, p: PidTid)
    requires Wf(o) && LinksOf(l, o) && p !in o.chain
    ensures LinksOf(Extended(l, p), Appended(o, p))
  {
    var o' := Appended(o, p);
    AppendedEnds(o, p);
    forall q | q in o.chain ensures ExtendedAt(o, p, o', q) {
      AppendedPlaces(o, p, q);
    }
    ExtendedLinks(l, o, p, o');
  }

  lemma DetachedLinks(l: Links, o: Order, p: PidTid, o': Order)
    requires LinksOf(l, o) && p !in o.chain && o'.chain.Keys == o.chain.Keys + {p}
    requires NextOf(o', p).None? && PrevOf(o', p).None? && HeadOf(o') == HeadOf(o) && TailOf(o') == TailOf(o)
    requires forall q {:trigger NextOf(o', q)} | q in o.chain ::
               NextOf(o', q) == NextOf(o, q) && PrevOf(o', q) == PrevOf(o, q)
    ensures LinksOf(Detached(l, p), o')
  {
    var l' := Detached(l, p);
    forall q | q in o'.chain ensures LinksAt(l', o', q) {
      if q != p {
        assert LinksAt(l, o, q);
        assert l'.next[q] == l.next[q] && l'.prev[q] == l.prev[q];
      } else {
        assert l'.next[p] == None && l'.prev[p] == None;
      }
    }
  }

  /** and leaving one behind to detaching it. */
  lemma {:induction false} StrandedLinksOf(l: Links, o: Order, p: PidTid)
    requires Wf(o) && LinksOf(l, o) && p !in o.chain
    ensures LinksOf(Detached(l, p), Stranded(o, p))
  {
    StrandedLinks(o, p);
    DetachedLinks(l, o, p, Stranded(o, p));
  }
}
