/** The health state machine around the endpoint list. Each method is one mutex section; goroutines that check the
    health of an endpoint are kept as the multisets of those still probing and of those about to sign off. */
module EndpointPool {
  import opened EndpointList

  datatype State = InHealthCheck | Healthy | AtHead

  datatype EndpointStats = EndpointStats(sendCount: nat, sendByteCount: nat, sendErrorCount: nat,
                                         healthCheckCount: nat, healthCheckErrorCount: nat, state: State)

  /** The same statistics but for the recorded states. */
  ghost predicate SameCounters(before: map<string, EndpointStats>, after: map<string, EndpointStats>) {
    && before.Keys == after.Keys
    && forall u | u in before :: after[u] == before[u].(state := after[u].state)
  }

  /** The state that should be on record for an endpoint, given the healthy list. */
  ghost function StateIn(nodes: seq<Endpoint>, e: Endpoint): State {
    if nodes != [] && nodes[0] == e then AtHead else if e in nodes then Healthy else InHealthCheck
  }

  datatype EndpointConfig = EndpointConfig(url: string, markUnhealthyThreshold: int)

  const DEFAULT_URL := "http://localhost:8428/api/v1/import/prometheus"
  const DEFAULT_THRESHOLD := 1
  const DEFAULT_ENDPOINT := EndpointConfig(DEFAULT_URL, 0)

  function UrlOf(cfg: EndpointConfig): string {
    if cfg.url == "" then DEFAULT_URL else cfg.url
  }

  /** The endpoint's own threshold, else the pool's, else the default: always at least 1. */
  function ThresholdOf(cfg: EndpointConfig, poolThreshold: int): (t: int)
    ensures t >= 1
  {
    if cfg.markUnhealthyThreshold > 0 then cfg.markUnhealthyThreshold
    else if poolThreshold > 0 then poolThreshold
    else DEFAULT_THRESHOLD
  }

  /** Each place once, in some order. */
  predicate IsOrder(places: seq<nat>, n: nat) {
    && |places| == n && (forall i | 0 <= i < n :: places[i] < n)
    && (forall i, j | 0 <= i < j < n :: places[i] != places[j])
  }

  /** The endpoints of a pool in list order. */
  function Used(cfgs: seq<EndpointConfig>, shuffle: bool, places: seq<nat>): seq<EndpointConfig>
    requires IsOrder(places, |cfgs|)
  {
    if cfgs == [] then [DEFAULT_ENDPOINT]
    else if shuffle && |cfgs| > 1 then seq(|cfgs|, i requires 0 <= i < |cfgs| => cfgs[places[i]])
    else cfgs
  }

  /** The endpoint a configuration stands for. */
  predicate IsFrom(ep: Endpoint, cfg: EndpointConfig, poolThreshold: int) {
    ep.url == UrlOf(cfg) && ep.markUnhealthyThreshold == ThresholdOf(cfg, poolThreshold)
  }

  /** Urls stay apart in any order. */
  lemma UsedIsDistinct(cfgs: seq<EndpointConfig>, shuffle: bool, places: seq<nat>)
    requires IsOrder(places, |cfgs|) && forall i, j | 0 <= i < j < |cfgs| :: UrlOf(cfgs[i]) != UrlOf(cfgs[j])
    ensures var used := Used(cfgs, shuffle, places);
            forall i, j | 0 <= i < j < |used| :: UrlOf(used[i]) != UrlOf(used[j])
  {
  }

  function Removed(nodes: seq<Endpoint>, e: Endpoint): seq<Endpoint> {
    if nodes == [] then []
    else if nodes[0] == e then nodes[1..]
    else [nodes[0]] + Removed(nodes[1..], e)
  }

  lemma {:induction false} RemovedIsWithout(nodes: seq<Endpoint>, k: nat)
    requires NoRepeats(nodes) && k < |nodes|
    ensures Removed(nodes, nodes[k]) == Without(nodes, k)
  {
    if k > 0 {
      assert Apart(nodes, 0, k);
      assert NoRepeats(nodes[1..]) by {
        forall i, j ensures Apart(nodes[1..], i, j) {
          assert Apart(nodes, i + 1, j + 1);
        }
      }
      RemovedIsWithout(nodes[1..], k - 1);
    }
  }

  class Pool {
    const healthy: LinkedEndpoints
    // Rotate after every use if 0, never if negative:
    const healthyRotateInterval: int
    // Forget errors older than this, if positive:
    const errorResetInterval: int
    var healthyHeadChangeTs: int
    var firstUse: bool
    var shutdown: bool
    var stats: map<string, EndpointStats>
    var rotateCount: nat
    var noHealthyCount: nat
    // The wait group and the goroutines it counts:
    var wg: int
    var checking: multiset<Endpoint>
    var signingOff: multiset<Endpoint>
    ghost var endpoints: set<Endpoint>

    /** In the list once, healthy and below its threshold, or off the list with exactly one check due to return it. */
    ghost predicate HealthOk(e: Endpoint)
      reads this`checking, healthy`nodes, e`healthy, e`numErrors
    {
      && e.markUnhealthyThreshold >= 1 && e.numErrors >= 0
      && (e.healthy <==> e in healthy.nodes)
      && (e.healthy ==> e.numErrors < e.markUnhealthyThreshold)
      && checking[e] == (if e.healthy then 0 else 1)
    }

    /** On record as being at the head, healthy or in health check. */
    ghost predicate Recorded(e: Endpoint)
      reads this`stats, healthy`nodes
    {
      e.url in stats && stats[e.url].state == StateIn(healthy.nodes, e)
    }

    ghost predicate EndpointOk(e: Endpoint)
      reads this`stats, this`checking, healthy`nodes, e`healthy, e`numErrors
    {
      HealthOk(e) && Recorded(e)
    }

    /** Valid but for a listed endpoint whose error count was just raised. */
    ghost predicate ErrorPending(ep: Endpoint)
      reads this`stats, this`wg, this`checking, this`signingOff, this`endpoints, healthy,
            endpoints`prev, endpoints`next, endpoints`healthy, endpoints`numErrors
    {
      && healthy.universe == endpoints && healthy.Linked() && DistinctUrls() && Counted()
      && (forall e {:trigger EndpointOk(e)} | e in endpoints && e != ep :: EndpointOk(e))
      && ep in endpoints && ep in healthy.nodes && ep.healthy && ep.numErrors >= 0
      && ep.markUnhealthyThreshold >= 1 && checking[ep] == 0 && ep.url in stats
    }

    /** An unhealthy endpoint off the list whose health check is about to start. */
    ghost predicate CheckPending(ep: Endpoint)
      reads this`stats, this`wg, this`checking, this`signingOff, this`endpoints, healthy,
            endpoints`prev, endpoints`next, endpoints`healthy, endpoints`numErrors
    {
      && healthy.universe == endpoints && healthy.Linked() && DistinctUrls() && Counted()
      && (forall e {:trigger HealthOk(e)} | e in endpoints && e != ep :: HealthOk(e))
      && ep in endpoints && ep !in healthy.nodes && !ep.healthy && ep.numErrors >= 0
      && ep.markUnhealthyThreshold >= 1 && checking[ep] == 0
      && (forall e {:trigger Recorded(e)} | e in endpoints && e != healthy.head :: Recorded(e))
      && (forall e {:trigger e.url} | e in endpoints :: e.url in stats)
    }

    /** Valid but for the record of the head, which may have just become one. */
    ghost predicate ValidButHead()
      reads this`stats, this`wg, this`checking, this`signingOff, this`endpoints, healthy,
            endpoints`prev, endpoints`next, endpoints`healthy, endpoints`numErrors
    {
      && healthy.universe == endpoints && healthy.Linked() && DistinctUrls() && Counted()
      && (forall e {:trigger HealthOk(e)} | e in endpoints :: HealthOk(e))
      && (forall e {:trigger Recorded(e)} | e in endpoints && e != healthy.head :: Recorded(e))
      && (forall e {:trigger e.url} | e in endpoints :: e.url in stats)
    }

    ghost predicate DistinctUrls()
      reads this`endpoints
    {
      forall a, b {:trigger a.url, b.url} | a in endpoints && b in endpoints && a != b :: a.url != b.url
    }

    ghost predicate Counted()
      reads this`wg, this`checking, this`signingOff, this`endpoints
    {
      && wg == |checking| + |signingOff|
      && (forall e | e in checking :: e in endpoints)
    }

    ghost predicate Valid()
      reads this`stats, this`wg, this`checking, this`signingOff, this`endpoints, healthy,
            endpoints`prev, endpoints`next, endpoints`healthy, endpoints`numErrors
    {
      && healthy.universe == endpoints && healthy.Linked()
      && (forall e {:trigger EndpointOk(e)} | e in endpoints :: EndpointOk(e))
      && DistinctUrls() && Counted()
    }

    /** Valid but for an endpoint whose check has completed (or that is new) and that is about to be listed. */
    ghost predicate ValidBut(ep: Endpoint)
      reads this`stats, this`wg, this`checking, this`signingOff, this`endpoints, healthy,
            endpoints`prev, endpoints`next, endpoints`healthy, endpoints`numErrors
    {
      && healthy.universe == endpoints && healthy.Linked()
      && (forall e {:trigger EndpointOk(e)} | e in endpoints && e != ep :: EndpointOk(e))
      && DistinctUrls() && Counted()
      && ep in endpoints && ep.markUnhealthyThreshold >= 1 && ep.url in stats
      && !ep.healthy && ep !in healthy.nodes && checking[ep] == 0
    }

    /** With `shuffle` the endpoints are listed in the order `places`, any order of theirs. */
    constructor (cfgs: seq<EndpointConfig>, shuffle: bool, places: seq<nat>,
                 markUnhealthyThreshold: int, healthyRotateInterval: int, errorResetInterval: int)
      requires forall i, j | 0 <= i < j < |cfgs| :: UrlOf(cfgs[i]) != UrlOf(cfgs[j])
      requires IsOrder(places, |cfgs|)
      ensures Valid() && fresh(healthy) && fresh(endpoints)
      ensures firstUse && !shutdown && wg == 0
      ensures this.healthyRotateInterval == healthyRotateInterval && this.errorResetInterval == errorResetInterval
      ensures var used := Used(cfgs, shuffle, places);
              && |healthy.nodes| == |used|
              && forall i | 0 <= i < |used| :: IsFrom(healthy.nodes[i], used[i], markUnhealthyThreshold)
    {
      var list := new LinkedEndpoints();
      healthy := list;
      this.healthyRotateInterval, this.errorResetInterval := healthyRotateInterval, errorResetInterval;
      healthyHeadChangeTs, firstUse, shutdown := 0, true, false;
      stats, rotateCount, noHealthyCount := map[], 0, 0;
      wg, checking, signingOff, endpoints := 0, multiset{}, multiset{}, {};
      new;
      UsedIsDistinct(cfgs, shuffle, places);
      AdoptAll(Used(cfgs, shuffle, places), markUnhealthyThreshold);
    }

    /** Lists new endpoints in a pool that has none. */
    method AdoptAll(used: seq<EndpointConfig>, markUnhealthyThreshold: int)
      requires Valid() && endpoints == {} && healthy.nodes == [] && checking == multiset{}
      requires forall i, j | 0 <= i < j < |used| :: UrlOf(used[i]) != UrlOf(used[j])
      modifies this`stats, this`endpoints, healthy
      ensures Valid() && fresh(endpoints)
      ensures |healthy.nodes| == |used|
      ensures forall i | 0 <= i < |used| :: IsFrom(healthy.nodes[i], used[i], markUnhealthyThreshold)
    {
      for i := 0 to |used|
        invariant Valid() && fresh(endpoints) && |healthy.nodes| == i
        invariant forall e | e in endpoints :: e in healthy.nodes
        invariant forall j | 0 <= j < i :: IsFrom(healthy.nodes[j], used[j], markUnhealthyThreshold)
      {
        forall e | e in endpoints ensures e.url != UrlOf(used[i]) {
          var j :| 0 <= j < i && healthy.nodes[j] == e;
          assert IsFrom(healthy.nodes[j], used[j], markUnhealthyThreshold);
        }
        var ep := new Endpoint(UrlOf(used[i]), ThresholdOf(used[i], markUnhealthyThreshold));
        Adopt(ep);
      }
    }

    /** Takes a new endpoint with a new URL into the pool. */
    method Adopt(ep: Endpoint)
      requires Valid() && ep !in endpoints && checking[ep] == 0
      requires !ep.healthy && ep.numErrors == 0 && ep.markUnhealthyThreshold >= 1
      requires forall e | e in endpoints :: e.url != ep.url
      modifies this`stats, this`endpoints, healthy`universe, healthy`head, healthy`tail, healthy`nodes,
               endpoints`prev, endpoints`next, ep`prev, ep`next, ep`healthy, ep`numErrors
      ensures Valid() && endpoints == old(endpoints) + {ep}
      ensures healthy.nodes == old(healthy.nodes) + [ep]
    {
      forall i | 0 <= i < |healthy.nodes| ensures healthy.nodes[i] != ep {
        assert healthy.ForwardOk(i);
      }
      stats := stats[ep.url := EndpointStats(0, 0, 0, 0, 0, InHealthCheck)];
      endpoints := endpoints + {ep};
      healthy.universe := endpoints;
      forall i | 0 <= i < |healthy.nodes| ensures healthy.ForwardOk(i) && healthy.BackOk(i) {
        assert old(healthy.ForwardOk(i) && healthy.BackOk(i));
      }
      forall e | e in endpoints && e != ep ensures EndpointOk(e) {
        assert old(EndpointOk(e));
      }
      MoveToHealthy(ep);
    }

    /** Lists an endpoint at the tail with its errors forgiven; does nothing if it is already healthy. */
    method MoveToHealthy(ep: Endpoint)
      requires if ep.healthy then Valid() else ValidBut(ep)
      modifies this`stats, healthy`head, healthy`tail, healthy`nodes, endpoints`prev, endpoints`next,
               ep`healthy, ep`numErrors
      ensures Valid() && ep.healthy
      ensures healthy.nodes == if old(ep.healthy) then old(healthy.nodes) else old(healthy.nodes) + [ep]
      ensures ep.numErrors == if old(ep.healthy) then old(ep.numErrors) else 0
    {
      if ep.healthy {
        return;
      }
      ep.healthy := true;
      ep.numErrors := 0;
      healthy.AddToTail(ep);
      SetState(ep.url, if healthy.head == ep then AtHead else Healthy);
      forall e | e in endpoints ensures EndpointOk(e) {
        assert e != ep ==> old(EndpointOk(e));
      }
    }

    method SetState(url: string, state: State)
      requires url in stats
      modifies this`stats
      ensures stats == old(stats)[url := old(stats)[url].(state := state)]
      ensures SameCounters(old(stats), stats)
    {
      stats := stats[url := stats[url].(state := state)];
    }

    /** Takes a healthy endpoint off the list. */
    method TakeOff(ep: Endpoint)
      requires healthy.Linked() && healthy.universe == endpoints && ep in healthy.nodes
      modifies healthy`head, healthy`tail, healthy`nodes, endpoints`prev, endpoints`next
      ensures healthy.Linked()
      ensures healthy.nodes == Removed(old(healthy.nodes), ep)
      ensures forall e :: e in healthy.nodes <==> e in old(healthy.nodes) && e != ep
      ensures old(healthy.nodes)[0] != ep ==> healthy.nodes != [] && healthy.nodes[0] == old(healthy.nodes)[0]
    {
      ghost var s := healthy.nodes;
      ghost var k :| 0 <= k < |s| && s[k] == ep;
      RemovedIsWithout(s, k);
      WithoutMembers(s, k);
      healthy.Remove(ep, k);
    }

    method DemoteToTail(ep: Endpoint)
      requires ErrorPending(ep) && ep.numErrors < ep.markUnhealthyThreshold
      modifies this`stats, healthy`head, healthy`tail, healthy`nodes, endpoints`prev, endpoints`next
      ensures ValidButHead()
      ensures healthy.nodes == Removed(old(healthy.nodes), ep) + [ep]
      ensures SameCounters(old(stats), stats)
    {
      TakeOff(ep);
      healthy.AddToTail(ep);
      SetState(ep.url, Healthy);
      forall e | e in endpoints ensures HealthOk(e) && e.url in stats && (e != healthy.head ==> Recorded(e)) {
        assert e != ep ==> old(EndpointOk(e));
      }
    }

    method DemoteToCheck(ep: Endpoint)
      requires ErrorPending(ep)
      modifies this`stats, healthy`head, healthy`tail, healthy`nodes, endpoints`prev, endpoints`next, ep`healthy
      ensures CheckPending(ep)
      ensures healthy.nodes == Removed(old(healthy.nodes), ep)
      ensures SameCounters(old(stats), stats)
    {
      ep.healthy := false;
      TakeOff(ep);
      SetState(ep.url, InHealthCheck);
      forall e | e in endpoints
        ensures e.url in stats && (e != healthy.head ==> Recorded(e)) && (e != ep ==> HealthOk(e))
      {
        assert e != ep ==> old(EndpointOk(e));
      }
    }

    /** Starts the health check goroutine of an endpoint that was just taken off the list. */
    method StartCheck(ep: Endpoint)
      requires CheckPending(ep)
      modifies this`wg, this`checking
      ensures ValidButHead()
      ensures wg == old(wg) + 1 && checking == old(checking)[ep := 1]
    {
      wg := wg + 1;
      checking := checking[ep := checking[ep] + 1];
      forall e | e in endpoints ensures HealthOk(e) {
        assert e != ep ==> old(HealthOk(e));
      }
    }

    method RecordHead()
      requires ValidButHead()
      modifies this`stats
      ensures Valid()
      ensures SameCounters(old(stats), stats)
    {
      var head := healthy.head;
      if head != null {
        assert healthy.ForwardOk(0);
        SetState(head.url, AtHead);
      }
      forall e | e in endpoints ensures EndpointOk(e) {
        assert old(HealthOk(e)) && (old(e != healthy.head) ==> old(Recorded(e)));
      }
    }

    method CountError(ep: Endpoint, now: int)
      requires Valid() && ep in endpoints
      modifies ep`numErrors, ep`errorTs
      ensures if ep.healthy then ErrorPending(ep) else Valid()
      ensures ep.numErrors == old(ep.numErrors) + 1 && ep.errorTs == now
    {
      assert EndpointOk(ep);
      ep.numErrors := ep.numErrors + 1;
      ep.errorTs := now;
      forall e | e in endpoints && (e != ep || !ep.healthy) ensures EndpointOk(e) {
        assert old(EndpointOk(e));
      }
    }

    /** Records an error. A healthy endpoint goes to the tail, or to health check once it reaches its threshold. */
    method ReportError(ep: Endpoint, now: int)
      requires Valid() && ep in endpoints
      modifies this`firstUse, this`stats, this`wg, this`checking,
               healthy`head, healthy`tail, healthy`nodes, endpoints`prev, endpoints`next,
               ep`healthy, ep`numErrors, ep`errorTs
      ensures Valid()
      ensures ep.numErrors == old(ep.numErrors) + 1 && ep.errorTs == now
      ensures ep.healthy <==> old(ep.healthy) && ep.numErrors < ep.markUnhealthyThreshold
      ensures firstUse == (old(firstUse) || old(ep.healthy))
      ensures healthy.nodes == (if ep.healthy then Removed(old(healthy.nodes), ep) + [ep]
                                else if old(ep.healthy) then Removed(old(healthy.nodes), ep)
                                else old(healthy.nodes))
      ensures wg == old(wg) + if old(ep.healthy) && !ep.healthy then 1 else 0
      ensures SameCounters(old(stats), stats)
    {
      CountError(ep, now);
      if !ep.healthy {
        return;
      }
      firstUse := true;
      if ep.numErrors < ep.markUnhealthyThreshold {
        DemoteToTail(ep);
      } else {
        DemoteToCheck(ep);
        StartCheck(ep);
      }
      RecordHead();
    }

    /** A health check goroutine records one probe. */
    method RecordProbe(ep: Endpoint, ok: bool)
      requires Valid() && ep in checking
      modifies this`stats
      ensures Valid() && ep.url in old(stats)
      ensures var was := old(stats)[ep.url];
              stats == old(stats)[
                ep.url := was.(healthCheckCount := was.healthCheckCount + 1,
                               healthCheckErrorCount := was.healthCheckErrorCount + if ok then 0 else 1)]
    {
      assert EndpointOk(ep);
      var was := stats[ep.url];
      stats := stats[ep.url := was.(healthCheckCount := was.healthCheckCount + 1,
                                    healthCheckErrorCount := was.healthCheckErrorCount + if ok then 0 else 1)];
      forall e | e in endpoints ensures EndpointOk(e) {
        assert old(EndpointOk(e));
      }
    }

    /** A health check ends, by success or by cancellation, and returns its endpoint to the list. */
    method FinishCheck(ep: Endpoint)
      requires Valid() && ep in checking
      modifies this`stats, this`checking, this`signingOff, healthy`head, healthy`tail, healthy`nodes,
               endpoints`prev, endpoints`next, ep`healthy, ep`numErrors
      ensures Valid() && ep.healthy && ep.numErrors == 0
      ensures healthy.nodes == old(healthy.nodes) + [ep]
      ensures checking == old(checking) - multiset{ep} && signingOff == old(signingOff) + multiset{ep}
    {
      assert EndpointOk(ep);
      checking := checking - multiset{ep};
      signingOff := signingOff + multiset{ep};
      forall e | e in endpoints && e != ep ensures EndpointOk(e) {
        assert old(EndpointOk(e));
      }
      MoveToHealthy(ep);
    }

    /** The goroutine signs off from the wait group. */
    method SignOff(ep: Endpoint)
      requires Valid() && ep in signingOff
      modifies this`wg, this`signingOff
      ensures Valid() && wg == old(wg) - 1 && signingOff == old(signingOff) - multiset{ep}
    {
      wg := wg - 1;
      signingOff := signingOff - multiset{ep};
    }

    ghost predicate RotationDue(now: int)
      reads this`firstUse, this`healthyHeadChangeTs
    {
      && !firstUse
      && (healthyRotateInterval == 0
          || (healthyRotateInterval > 0 && now - healthyHeadChangeTs >= healthyRotateInterval))
    }

    method Rotate()
      requires Valid() && |healthy.nodes| > 1
      modifies this`stats, healthy`head, healthy`tail, healthy`nodes, endpoints`prev, endpoints`next
      ensures Valid()
      ensures healthy.nodes == old(healthy.nodes)[1..] + [old(healthy.nodes)[0]]
      ensures SameCounters(old(stats), stats)
    {
      assert healthy.ForwardOk(0);
      assert EndpointOk(healthy.head);
      assert ErrorPending(healthy.head);
      DemoteToTail(healthy.head);
      RecordHead();
    }

    /** Errors older than the reset interval are forgotten. */
    method ForgetOldErrors(ep: Endpoint, now: int)
      requires Valid() && ep in endpoints
      modifies ep`numErrors
      ensures Valid()
      ensures ep.numErrors == if errorResetInterval > 0 && now - ep.errorTs >= errorResetInterval then 0
                              else old(ep.numErrors)
    {
      assert EndpointOk(ep);
      if ep.numErrors > 0 && errorResetInterval > 0 && now - ep.errorTs >= errorResetInterval {
        ep.numErrors := 0;
      }
      forall e | e in endpoints ensures EndpointOk(e) {
        assert old(EndpointOk(e));
      }
    }

    /** Moves the head to the tail if it was used for long enough; the first use only starts its time. */
    method RotateIfDue(now: int)
      requires Valid() && healthy.nodes != []
      modifies this`stats, this`firstUse, this`healthyHeadChangeTs, this`rotateCount,
               healthy`head, healthy`tail, healthy`nodes, endpoints`prev, endpoints`next
      ensures Valid() && !firstUse && SameCounters(old(stats), stats)
      ensures healthy.nodes == if old(RotationDue(now)) && |old(healthy.nodes)| > 1
                               then old(healthy.nodes)[1..] + [old(healthy.nodes)[0]]
                               else old(healthy.nodes)
    {
      if firstUse {
        healthyHeadChangeTs := now;
        firstUse := false;
      } else if healthyRotateInterval == 0
              || (healthyRotateInterval > 0 && now - healthyHeadChangeTs >= healthyRotateInterval) {
        if healthy.head != healthy.tail {
          Rotate();
          healthyHeadChangeTs := now;
          rotateCount := rotateCount + 1;
        } else {
          assert Apart(healthy.nodes, 0, |healthy.nodes| - 1);
        }
      }
    }

    /** A look for the endpoint to use, on entry or after waking up from a pause: nil if none is listed. The pool
        may have been shut down during the pause; the code does not look at that again. */
    method Look(now: int) returns (ep: Endpoint?)
      requires Valid()
      modifies this`stats, this`firstUse, this`healthyHeadChangeTs, this`rotateCount,
               healthy`head, healthy`tail, healthy`nodes, endpoints`prev, endpoints`next, endpoints`numErrors
      ensures Valid()
      ensures ep == null <==> old(healthy.nodes) == []
      ensures ep == null ==> healthy.nodes == old(healthy.nodes) && firstUse == old(firstUse)
      ensures ep != null ==> healthy.nodes != [] && ep == healthy.nodes[0] && ep in endpoints && ep.healthy && !firstUse
      ensures ep != null ==> healthy.nodes == if old(RotationDue(now)) && |old(healthy.nodes)| > 1
                                              then old(healthy.nodes)[1..] + [old(healthy.nodes)[0]]
                                              else old(healthy.nodes)
      ensures forall e | e in endpoints && e != ep :: e.numErrors == old(e.numErrors)
      ensures ep != null ==> ep.numErrors == if errorResetInterval > 0 && now - ep.errorTs >= errorResetInterval then 0
                                             else old(ep.numErrors)
      ensures SameCounters(old(stats), stats)
    {
      if healthy.head == null {
        return null;
      }
      RotateIfDue(now);
      ep := healthy.head;
      assert healthy.ForwardOk(0);
      ForgetOldErrors(ep, now);
      assert EndpointOk(ep);
    }

    /** The section that a caller enters with: nil if the pool is shut down, else the first look. */
    method Enter(now: int) returns (ep: Endpoint?)
      requires Valid()
      modifies this`stats, this`firstUse, this`healthyHeadChangeTs, this`rotateCount,
               healthy`head, healthy`tail, healthy`nodes, endpoints`prev, endpoints`next, endpoints`numErrors
      ensures Valid()
      ensures ep == null <==> shutdown || old(healthy.nodes) == []
      ensures ep == null ==> healthy.nodes == old(healthy.nodes) && firstUse == old(firstUse)
      ensures ep != null ==> healthy.nodes != [] && ep == healthy.nodes[0] && ep in endpoints && ep.healthy && !firstUse
      ensures ep != null ==> healthy.nodes == if old(RotationDue(now)) && |old(healthy.nodes)| > 1
                                              then old(healthy.nodes)[1..] + [old(healthy.nodes)[0]]
                                              else old(healthy.nodes)
      ensures forall e | e in endpoints && e != ep :: e.numErrors == old(e.numErrors)
      ensures ep != null ==> ep.numErrors == if errorResetInterval > 0 && now - ep.errorTs >= errorResetInterval then 0
                                             else old(ep.numErrors)
      ensures SameCounters(old(stats), stats)
    {
      if shutdown {
        return null;
      }
      ep := Look(now);
    }
  }
}
