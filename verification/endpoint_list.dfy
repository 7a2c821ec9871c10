/** The doubly linked list of healthy HTTP endpoints. */
module EndpointList {

  class Endpoint {
    const url: string
    const markUnhealthyThreshold: int
    var healthy: bool
    var numErrors: int
    var errorTs: int
    var prev: Endpoint?
    var next: Endpoint?

    constructor (url: string, markUnhealthyThreshold: int)
      ensures this.url == url && this.markUnhealthyThreshold == markUnhealthyThreshold
      ensures !healthy && numErrors == 0 && prev == null && next == null
    {
      this.url, this.markUnhealthyThreshold := url, markUnhealthyThreshold;
      healthy, numErrors, errorTs, prev, next := false, 0, 0, null, null;
    }
  }

  function Without(nodes: seq<Endpoint>, k: nat): (rest: seq<Endpoint>)
    requires k < |nodes|
    ensures |rest| == |nodes| - 1
    ensures forall i | 0 <= i < |rest| :: rest[i] == nodes[if i < k then i else i + 1]
  {
    nodes[..k] + nodes[k + 1..]
  }

  function InsertedAt(nodes: seq<Endpoint>, k: nat, ep: Endpoint): (more: seq<Endpoint>)
    requires k <= |nodes|
    ensures |more| == |nodes| + 1
    ensures forall i | 0 <= i < |more| :: more[i] == if i < k then nodes[i] else if i == k then ep else nodes[i - 1]
  {
    nodes[..k] + [ep] + nodes[k..]
  }

  ghost predicate Apart(nodes: seq<Endpoint>, i: int, j: int) {
    0 <= i < j < |nodes| ==> nodes[i] != nodes[j]
  }

  ghost predicate NoRepeats(nodes: seq<Endpoint>) {
    forall i, j :: Apart(nodes, i, j)
  }

  lemma WithoutNoRepeats(nodes: seq<Endpoint>, k: nat)
    requires NoRepeats(nodes) && k < |nodes|
    ensures NoRepeats(Without(nodes, k))
  {
    forall i, j ensures Apart(Without(nodes, k), i, j) {
      assert Apart(nodes, if i < k then i else i + 1, if j < k then j else j + 1);
    }
  }

  lemma InsertedNoRepeats(nodes: seq<Endpoint>, k: nat, ep: Endpoint)
    requires NoRepeats(nodes) && k <= |nodes| && ep !in nodes
    ensures NoRepeats(InsertedAt(nodes, k, ep))
  {
    forall i, j ensures Apart(InsertedAt(nodes, k, ep), i, j) {
      assert Apart(nodes, if i < k then i else i - 1, if j < k then j else j - 1);
    }
  }

  lemma WithoutMembers(nodes: seq<Endpoint>, k: nat)
    requires NoRepeats(nodes) && k < |nodes|
    ensures forall e :: e in Without(nodes, k) <==> e in nodes && e != nodes[k]
  {
    var rest := Without(nodes, k);
    forall e ensures e in rest <==> e in nodes && e != nodes[k] {
      if e in rest {
        var i :| 0 <= i < |rest| && rest[i] == e;
        assert Apart(nodes, i, k) && Apart(nodes, k, i + 1);
      }
      if e in nodes && e != nodes[k] {
        var i :| 0 <= i < |nodes| && nodes[i] == e;
        assert rest[if i < k then i else i - 1] == e;
      }
    }
  }

  class LinkedEndpoints {
    var head: Endpoint?
    var tail: Endpoint?
    // The linked endpoints in order, and every endpoint that may be linked:
    ghost var nodes: seq<Endpoint>
    ghost var universe: set<Endpoint>

    constructor ()
      ensures Linked() && nodes == [] && universe == {}
    {
      head, tail, nodes, universe := null, null, [], {};
    }

    ghost function NodeAt(i: int): Endpoint?
      reads this`nodes
    {
      if 0 <= i < |nodes| then nodes[i] else null
    }

    ghost predicate ForwardOk(i: int)
      requires 0 <= i < |nodes|
      reads this`nodes, this`universe, universe`next
    {
      nodes[i] in universe && nodes[i].next == NodeAt(i + 1)
    }

    ghost predicate BackOk(i: int)
      requires 0 <= i < |nodes|
      reads this`nodes, this`universe, universe`prev
    {
      nodes[i] in universe && nodes[i].prev == NodeAt(i - 1)
    }

    /** The list can be walked from head to tail. */
    ghost predicate ForwardLinked()
      reads this, universe`next
    {
      && head == NodeAt(0) && tail == NodeAt(|nodes| - 1)
      && (forall i | 0 <= i < |nodes| :: ForwardOk(i))
      && NoRepeats(nodes)
    }

    /** ... and back. */
    ghost predicate Linked()
      reads this, universe`prev, universe`next
    {
      ForwardLinked() && forall i | 0 <= i < |nodes| :: BackOk(i)
    }

    /** Links `ep` in after `after` (at the head if nil). The successor's back link is never set, so the list stays
        well linked exactly when there is no successor. */
    method Insert(ep: Endpoint, after: Endpoint?, ghost k: nat)
      requires Linked() && ep in universe && ep !in nodes
      requires k <= |nodes| && after == NodeAt(k - 1)
      modifies this`head, this`tail, this`nodes, universe`prev, universe`next
      ensures nodes == InsertedAt(old(nodes), k, ep)
      ensures ForwardLinked() && (forall i | 0 <= i < |nodes| && i != k + 1 :: BackOk(i))
      ensures Linked() <==> k == |old(nodes)|
    {
      ghost var s := nodes;
      assert after != null ==> ForwardOk(k - 1) && BackOk(k - 1);
      ep.prev := after;
      if after != null {
        ep.next := after.next;
        after.next := ep;
      } else {
        ep.next := head;
        head := ep;
      }
      if ep.next == null {
        tail := ep;
      }
      nodes := InsertedAt(nodes, k, ep);
      forall i | 0 <= i < |nodes| ensures ForwardOk(i) {
        if i < k {
          assert old(ForwardOk(i)) && Apart(s, i, k - 1);
        } else if i > k {
          assert old(ForwardOk(i - 1)) && Apart(s, k - 1, i - 1);
        }
      }
      forall i | 0 <= i < |nodes| && i != k + 1 ensures BackOk(i) {
        if i != k {
          assert old(BackOk(if i < k then i else i - 1));
        }
      }
      InsertedNoRepeats(s, k, ep);
      if k < |s| {
        assert old(BackOk(k)) && !BackOk(k + 1);
      }
    }

    method AddToTail(ep: Endpoint)
      requires Linked() && ep in universe && ep !in nodes
      modifies this`head, this`tail, this`nodes, universe`prev, universe`next
      ensures Linked() && nodes == old(nodes) + [ep]
    {
      Insert(ep, tail, |nodes|);
    }

    method Remove(ep: Endpoint, ghost k: nat)
      requires Linked() && k < |nodes| && nodes[k] == ep
      modifies this`head, this`tail, this`nodes, universe`prev, universe`next
      ensures Linked() && nodes == Without(old(nodes), k)
      ensures ep.prev == null && ep.next == null
    {
      ghost var s := nodes;
      assert ForwardOk(k) && BackOk(k);
      assert k > 0 ==> ForwardOk(k - 1);
      assert k + 1 < |s| ==> ForwardOk(k + 1);
      if ep.prev != null {
        ep.prev.next := ep.next;
      } else {
        head := ep.next;
      }
      if ep.next != null {
        ep.next.prev := ep.prev;
      } else {
        tail := ep.prev;
      }
      ep.prev := null;
      ep.next := null;
      nodes := Without(nodes, k);
      forall i | 0 <= i < |nodes| ensures ForwardOk(i) && BackOk(i) {
        if i < k {
          assert old(ForwardOk(i) && BackOk(i)) && Apart(s, i, k) && Apart(s, i, k - 1) && Apart(s, i, k + 1);
        } else {
          assert old(ForwardOk(i + 1) && BackOk(i + 1));
          assert Apart(s, k, i + 1) && Apart(s, k - 1, i + 1) && Apart(s, k + 1, i + 1);
        }
      }
      WithoutNoRepeats(s, k);
    }
  }
}
