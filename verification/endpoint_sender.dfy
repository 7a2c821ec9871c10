/** Sending over the pool: load balancing, retries and how long they can go on. */
module EndpointSender {
  import opened Arithmetic
  import opened EndpointList
  import opened EndpointPool

  // ---------- The slack of the healthy list ----------

  type ErrorCounts = map<Endpoint, int>

  ghost function Margin(e: Endpoint, errors: ErrorCounts): int {
    if e in errors then e.markUnhealthyThreshold - errors[e] else 0
  }

  /** How many more errors the listed endpoints can take. */
  ghost function Slack(nodes: seq<Endpoint>, errors: ErrorCounts): int {
    if nodes == [] then 0 else Margin(nodes[0], errors) + Slack(nodes[1..], errors)
  }

  lemma SlackOfConcat(a: seq<Endpoint>, b: seq<Endpoint>, errors: ErrorCounts)
    ensures Slack(a + b, errors) == Slack(a, errors) + Slack(b, errors)
  {
    if a == [] {
      assert a + b == b;
    } else {
      assert (a + b)[1..] == a[1..] + b;
      SlackOfConcat(a[1..], b, errors);
    }
  }

  lemma SlackOfRemoved(nodes: seq<Endpoint>, e: Endpoint, errors: ErrorCounts)
    requires e in nodes
    ensures Slack(Removed(nodes, e), errors) == Slack(nodes, errors) - Margin(e, errors)
  {
    if nodes[0] != e {
      assert nodes == [nodes[0]] + nodes[1..];
      SlackOfRemoved(nodes[1..], e, errors);
      assert Removed(nodes, e)[1..] == Removed(nodes[1..], e);
    }
  }

  lemma SlackOfUnchanged(nodes: seq<Endpoint>, errors: ErrorCounts, errors': ErrorCounts)
    requires forall e | e in nodes :: Margin(e, errors) == Margin(e, errors')
    ensures Slack(nodes, errors) == Slack(nodes, errors')
  {
    if nodes != [] {
      SlackOfUnchanged(nodes[1..], errors, errors');
    }
  }

  lemma SlackIsPositive(nodes: seq<Endpoint>, errors: ErrorCounts)
    requires forall e | e in nodes :: Margin(e, errors) >= 1
    ensures Slack(nodes, errors) >= |nodes|
  {
    if nodes != [] {
      SlackIsPositive(nodes[1..], errors);
    }
  }

  lemma SlackOfRotated(nodes: seq<Endpoint>, errors: ErrorCounts)
    requires nodes != []
    ensures Slack(nodes[1..] + [nodes[0]], errors) == Slack(nodes, errors)
  {
    SlackOfConcat(nodes[1..], [nodes[0]], errors);
  }

  /** One more error on a listed endpoint lowers the slack by exactly one, whether it stays listed or not. */
  lemma SlackAfterError(nodes: seq<Endpoint>, e: Endpoint, errors: ErrorCounts, errors': ErrorCounts, stays: bool)
    requires e in nodes && e in errors && NoRepeats(nodes)
    requires errors' == errors[e := errors[e] + 1]
    requires stays <==> Margin(e, errors) > 1
    requires Margin(e, errors) >= 1
    ensures Slack(Removed(nodes, e) + (if stays then [e] else []), errors') == Slack(nodes, errors) - 1
  {
    var k :| 0 <= k < |nodes| && nodes[k] == e;
    RemovedIsWithout(nodes, k);
    WithoutMembers(nodes, k);
    SlackOfRemoved(nodes, e, errors);
    SlackOfUnchanged(Removed(nodes, e), errors, errors');
    SlackOfConcat(Removed(nodes, e), if stays then [e] else [], errors');
  }

  ghost function ErrorsOf(pool: Pool): ErrorCounts
    reads pool`endpoints, pool.endpoints`numErrors
  {
    map e | e in pool.endpoints :: e.numErrors
  }

  ghost function SlackOf(pool: Pool): int
    reads pool`endpoints, pool.healthy`nodes, pool.endpoints`numErrors
  {
    Slack(pool.healthy.nodes, ErrorsOf(pool))
  }

  /** Every listed endpoint can take at least one more error, so the slack is spent exactly when the list is empty. */
  lemma ValidPoolHasSlack(pool: Pool)
    requires pool.Valid()
    ensures forall e | e in pool.healthy.nodes :: e in pool.endpoints && Margin(e, ErrorsOf(pool)) >= 1
    ensures SlackOf(pool) >= |pool.healthy.nodes|
  {
    forall e | e in pool.healthy.nodes ensures e in pool.endpoints && Margin(e, ErrorsOf(pool)) >= 1 {
      var i :| 0 <= i < |pool.healthy.nodes| && pool.healthy.nodes[i] == e;
      assert pool.healthy.ForwardOk(i) && pool.EndpointOk(e);
    }
    SlackIsPositive(pool.healthy.nodes, ErrorsOf(pool));
  }

  // ---------- Sending ----------

  datatype Reply = TransportError | NoResponse | Response(code: int)
  datatype SendResult = GoingOn | Sent | Rejected(code: int) | NoHealthyEndpoint

  const SUCCESS_CODES: set<int> := {200, 204}
  const RETRY_CODES: set<int> := {}

  predicate Success(r: Reply) {
    r.Response? && r.code in SUCCESS_CODES
  }

  predicate Retried(r: Reply) {
    !Success(r) && (r.Response? ==> r.code in RETRY_CODES)
  }

  /** What the attempts made so far add to the statistics of one URL. */
  function Tally(tried: seq<Endpoint>, reply: nat -> Reply, size: nat, u: string): (nat, nat, nat) {
    if tried == [] then (0, 0, 0)
    else
      var k := |tried| - 1;
      var before := Tally(tried[..k], reply, size, u);
      if tried[k].url != u then before
      else (before.0 + 1,
            before.1 + (if reply(k).Response? then size else 0),
            before.2 + (if Success(reply(k)) then 0 else 1))
  }

  ghost predicate Tallied(before: map<string, EndpointStats>, after: map<string, EndpointStats>,
                          tried: seq<Endpoint>, reply: nat -> Reply, size: nat)
  {
    && before.Keys == after.Keys
    && forall u | u in before ::
         var t := Tally(tried, reply, size, u);
         && after[u].sendCount == before[u].sendCount + t.0
         && after[u].sendByteCount == before[u].sendByteCount + t.1
         && after[u].sendErrorCount == before[u].sendErrorCount + t.2
  }

  /** One more attempt on top of statistics that agree with the attempts so far. */
  ghost predicate Counts(before: map<string, EndpointStats>, after: map<string, EndpointStats>,
                         ep: Endpoint, size: nat, r: Reply)
  {
    && before.Keys == after.Keys && ep.url in before
    && forall u | u in before ::
         && after[u].sendCount == before[u].sendCount + (if u == ep.url then 1 else 0)
         && after[u].sendByteCount == before[u].sendByteCount + (if u == ep.url && r.Response? then size else 0)
         && after[u].sendErrorCount == before[u].sendErrorCount + (if u == ep.url && !Success(r) then 1 else 0)
  }

  lemma CountsBetween(s0: map<string, EndpointStats>, s1: map<string, EndpointStats>, s2: map<string, EndpointStats>,
                      s3: map<string, EndpointStats>, ep: Endpoint, size: nat, r: Reply)
    requires SameCounters(s0, s1) && Counts(s1, s2, ep, size, r) && SameCounters(s2, s3)
    ensures Counts(s0, s3, ep, size, r)
  {
  }

  method CountAttempt(pool: Pool, ep: Endpoint, size: nat, r: Reply)
    requires pool.Valid() && ep in pool.endpoints
    modifies pool`stats
    ensures pool.Valid() && Counts(old(pool.stats), pool.stats, ep, size, r)
    ensures SlackOf(pool) == old(SlackOf(pool))
  {
    assert pool.EndpointOk(ep);
    var was := pool.stats[ep.url];
    was := was.(sendCount := was.sendCount + 1);
    if r.Response? {
      was := was.(sendByteCount := was.sendByteCount + size);
    }
    if !Success(r) {
      was := was.(sendErrorCount := was.sendErrorCount + 1);
    }
    pool.stats := pool.stats[ep.url := was];
    forall e | e in pool.endpoints ensures pool.EndpointOk(e) {
      assert old(pool.EndpointOk(e));
    }
  }

  /** No error is ever forgotten: there is no error reset, or a single error takes any listed endpoint off the list. */
  ghost predicate Unforgiving(pool: Pool)
    reads pool.healthy`nodes
  {
    pool.errorResetInterval <= 0 || forall e | e in pool.healthy.nodes :: e.markUnhealthyThreshold <= 1
  }

  /** An endpoint that takes more than one error and whose last one is long enough ago to be forgotten. */
  ghost predicate Forgiven(pool: Pool, e: Endpoint, now: int)
    reads pool.healthy`nodes, e`errorTs
  {
    && e in pool.healthy.nodes && e.markUnhealthyThreshold > 1
    && now - e.errorTs >= pool.errorResetInterval > 0
  }

  /** Picking an endpoint, with nobody else at work, spends no slack unless old errors are forgotten. */
  method Pick(pool: Pool, now: int) returns (ep: Endpoint?)
    requires pool.Valid()
    modifies pool`stats, pool`firstUse, pool`healthyHeadChangeTs, pool`rotateCount,
             pool.healthy`head, pool.healthy`tail, pool.healthy`nodes,
             pool.endpoints`prev, pool.endpoints`next, pool.endpoints`numErrors
    ensures pool.Valid() && SameCounters(old(pool.stats), pool.stats)
    ensures old(Unforgiving(pool)) || ep == null ==> SlackOf(pool) == old(SlackOf(pool))
    ensures forall e :: e in pool.healthy.nodes <==> e in old(pool.healthy.nodes)
    ensures ep == null <==> pool.shutdown || old(SlackOf(pool)) == 0
    ensures ep != null ==> ep in pool.endpoints && ep.healthy
    ensures ep != null && old(Forgiven(pool, ep, now)) ==> ep.numErrors == 0
  {
    ValidPoolHasSlack(pool);
    ghost var nodes, errors := pool.healthy.nodes, ErrorsOf(pool);
    forall e | e in nodes ensures e.numErrors < e.markUnhealthyThreshold && e.numErrors >= 0 {
      assert pool.EndpointOk(e);
    }
    ep := pool.Enter(now);
    assert nodes != [] ==> nodes == [nodes[0]] + nodes[1..];
    if old(Unforgiving(pool)) || ep == null {
      assert ErrorsOf(pool) == errors;
      if nodes != [] {
        SlackOfRotated(nodes, errors);
      }
    }
  }

  lemma RemovedMembers(nodes: seq<Endpoint>, e: Endpoint)
    requires NoRepeats(nodes) && e in nodes
    ensures forall x :: x in Removed(nodes, e) <==> x in nodes && x != e
  {
    var k :| 0 <= k < |nodes| && nodes[k] == e;
    RemovedIsWithout(nodes, k);
    WithoutMembers(nodes, k);
  }

  /** After one more error an endpoint stays listed exactly if it is still below its threshold; the others stay. */
  ghost predicate ErrorListed(nodes: seq<Endpoint>, nodes': seq<Endpoint>, ep: Endpoint, numErrors: int) {
    && (forall e | e in nodes' :: e in nodes)
    && (forall e | e in nodes :: e in nodes' <==> e != ep || numErrors + 1 < ep.markUnhealthyThreshold)
  }

  /** A reported error on a healthy endpoint spends exactly one unit of slack. */
  method Spend(pool: Pool, ep: Endpoint, now: int)
    requires pool.Valid() && ep in pool.endpoints && ep.healthy
    modifies pool`firstUse, pool`stats, pool`wg, pool`checking,
             pool.healthy`head, pool.healthy`tail, pool.healthy`nodes,
             pool.endpoints`prev, pool.endpoints`next, ep`healthy, ep`numErrors, ep`errorTs
    ensures pool.Valid() && SameCounters(old(pool.stats), pool.stats)
    ensures SlackOf(pool) == old(SlackOf(pool)) - 1
    ensures ErrorListed(old(pool.healthy.nodes), pool.healthy.nodes, ep, old(ep.numErrors)) && ep.errorTs == now
  {
    assert pool.EndpointOk(ep);
    ghost var nodes, errors := pool.healthy.nodes, ErrorsOf(pool);
    pool.ReportError(ep, now);
    assert ErrorsOf(pool) == errors[ep := errors[ep] + 1];
    SlackAfterError(nodes, ep, errors, ErrorsOf(pool), ep.healthy);
    assert Removed(nodes, ep) + [] == Removed(nodes, ep);
    RemovedMembers(nodes, ep);
  }

  lemma TalliedStep(before: map<string, EndpointStats>, mid: map<string, EndpointStats>, after: map<string,
                    EndpointStats>,
                    tried: seq<Endpoint>, ep: Endpoint, reply: nat -> Reply, size: nat)
    requires Tallied(before, mid, tried, reply, size) && Counts(mid, after, ep, size, reply(|tried|))
    ensures Tallied(before, after, tried + [ep], reply, size)
  {
    assert (tried + [ep])[..|tried|] == tried;
  }

  /** What follows a request: its outcome is counted, and reported if it is to be retried. */
  method Conclude(pool: Pool, ep: Endpoint, size: nat, r: Reply, now: int)
    requires pool.Valid() && ep in pool.endpoints && ep.healthy
    modifies pool`firstUse, pool`stats, pool`wg, pool`checking,
             pool.healthy`head, pool.healthy`tail, pool.healthy`nodes,
             pool.endpoints`prev, pool.endpoints`next, ep`healthy, ep`numErrors, ep`errorTs
    ensures pool.Valid() && Counts(old(pool.stats), pool.stats, ep, size, r)
    ensures SlackOf(pool) == old(SlackOf(pool)) - if Retried(r) then 1 else 0
    ensures Retried(r) ==>
              ErrorListed(old(pool.healthy.nodes), pool.healthy.nodes, ep, old(ep.numErrors)) && ep.errorTs == now
    ensures !Retried(r) ==> pool.healthy.nodes == old(pool.healthy.nodes) && ep.errorTs == old(ep.errorTs)
  {
    ghost var s1 := pool.stats;
    CountAttempt(pool, ep, size, r);
    ghost var s2 := pool.stats;
    if Retried(r) {
      Spend(pool, ep, now);
    }
    CountsBetween(s1, s1, s2, pool.stats, ep, size, r);
  }

  /** A picked endpoint is used: its outcome is counted, and reported if it is to be retried. */
  method TryOne(pool: Pool, size: nat, r: Reply, now: int) returns (ep: Endpoint?)
    requires pool.Valid()
    modifies pool`stats, pool`firstUse, pool`healthyHeadChangeTs, pool`rotateCount, pool`wg,
             pool`checking, pool.healthy`head, pool.healthy`tail, pool.healthy`nodes, pool.endpoints
    ensures pool.Valid()
    ensures ep == null <==> pool.shutdown || old(SlackOf(pool)) == 0
    ensures old(Unforgiving(pool)) || ep == null ==>
              SlackOf(pool) == old(SlackOf(pool)) - (if ep != null && Retried(r) then 1 else 0)
    ensures forall e | e in pool.healthy.nodes :: e in old(pool.healthy.nodes)
    ensures forall e | e in old(pool.healthy.nodes) && old(Forgiven(pool, e, now)) ::
              e in pool.healthy.nodes && (e.errorTs == old(e.errorTs) || e.errorTs == now)
    ensures ep == null ==> SameCounters(old(pool.stats), pool.stats)
    ensures ep != null ==> Counts(old(pool.stats), pool.stats, ep, size, r)
  {
    ghost var s0, nodes := pool.stats, pool.healthy.nodes;
    ep := Pick(pool, now);
    if ep != null {
      ghost var s1 := pool.stats;
      Conclude(pool, ep, size, r, now);
      CountsBetween(s0, s1, pool.stats, pool.stats, ep, size, r);
    }
    assert pool.endpoints == old(pool.endpoints);
    forall e | e in nodes && old(Forgiven(pool, e, now))
      ensures e in pool.healthy.nodes && (e.errorTs == old(e.errorTs) || e.errorTs == now)
    {
      assert old(Forgiven(pool, e, now));
    }
  }

  /** One attempt: pick an endpoint, count the outcome and report it if it is to be retried. */
  method Attempt(pool: Pool, size: nat, r: Reply, now: int) returns (ep: Endpoint?)
    requires pool.Valid()
    modifies pool`stats, pool`firstUse, pool`healthyHeadChangeTs, pool`rotateCount, pool`noHealthyCount, pool`wg,
             pool`checking, pool.healthy`head, pool.healthy`tail, pool.healthy`nodes, pool.endpoints
    ensures pool.Valid() && SlackOf(pool) >= 0
    ensures ep == null <==> pool.shutdown || old(SlackOf(pool)) == 0
    ensures old(Unforgiving(pool)) || ep == null ==>
              SlackOf(pool) == old(SlackOf(pool)) - (if ep != null && Retried(r) then 1 else 0)
    ensures old(Unforgiving(pool)) ==> Unforgiving(pool)
    ensures forall e | e in old(pool.healthy.nodes) && old(Forgiven(pool, e, now)) ::
              e in pool.healthy.nodes && (e.errorTs == old(e.errorTs) || e.errorTs == now)
    ensures ep == null ==> SameCounters(old(pool.stats), pool.stats)
    ensures ep != null ==> Counts(old(pool.stats), pool.stats, ep, size, r)
    ensures pool.noHealthyCount == old(pool.noHealthyCount) + if ep == null then 1 else 0
  {
    ep := TryOne(pool, size, r, now);
    if ep == null {
      pool.noHealthyCount := pool.noHealthyCount + 1;
    }
    ValidPoolHasSlack(pool);
  }

  lemma TalliedStays(before: map<string, EndpointStats>, mid: map<string, EndpointStats>, after: map<string,
                     EndpointStats>,
                     tried: seq<Endpoint>, reply: nat -> Reply, size: nat)
    requires Tallied(before, mid, tried, reply, size) && SameCounters(mid, after)
    ensures Tallied(before, after, tried, reply, size)
  {
  }

  /** The attempt after those `tried`: the statistics still agree with the attempts. */
  method NextAttempt(pool: Pool, size: nat, reply: nat -> Reply, now: int, attempt: nat,
                     ghost before: map<string, EndpointStats>, ghost tried: seq<Endpoint>) returns (ep: Endpoint?)
    requires pool.Valid()
    requires |tried| == attempt && Tallied(before, pool.stats, tried, reply, size)
    modifies pool`stats, pool`firstUse, pool`healthyHeadChangeTs, pool`rotateCount, pool`noHealthyCount, pool`wg,
             pool`checking, pool.healthy`head, pool.healthy`tail, pool.healthy`nodes, pool.endpoints
    ensures pool.Valid() && SlackOf(pool) >= 0
    ensures ep == null <==> pool.shutdown || old(SlackOf(pool)) == 0
    ensures old(Unforgiving(pool)) || ep == null ==>
              SlackOf(pool) == old(SlackOf(pool)) - (if ep != null && Retried(reply(attempt)) then 1 else 0)
    ensures old(Unforgiving(pool)) ==> Unforgiving(pool)
    ensures forall e | e in old(pool.healthy.nodes) && old(Forgiven(pool, e, now)) ::
              e in pool.healthy.nodes && (e.errorTs == old(e.errorTs) || e.errorTs == now)
    ensures Tallied(before, pool.stats, if ep == null then tried else tried + [ep], reply, size)
    ensures pool.noHealthyCount == old(pool.noHealthyCount) + if ep == null then 1 else 0
  {
    ghost var mid := pool.stats;
    ep := Attempt(pool, size, reply(attempt), now);
    if ep == null {
      TalliedStays(before, mid, pool.stats, tried, reply, size);
    } else {
      TalliedStep(before, mid, pool.stats, tried, ep, reply, size);
    }
  }

  predicate AllRetried(reply: nat -> Reply, n: nat) {
    forall k | 0 <= k < n :: Retried(reply(k))
  }

  /** The clock readings of the attempts are far enough apart, and from `ts`, for errors to be forgotten in between. */
  ghost predicate Slow(now: nat -> int, ts: int, interval: int, n: nat) {
    && (forall k | 0 <= k < n :: now(k) - ts >= interval)
    && (forall j, k | 0 <= j < k < n :: now(k) - now(j) >= interval)
  }

  ghost predicate ErrorSeen(ts: int, ts': int, now: nat -> int, n: nat) {
    ts' == ts || exists j | 0 <= j < n :: ts' == now(j)
  }

  /** The endpoints of `since` are still listed; their last error was at the time given there or at one of the
      attempts. */
  ghost predicate Lasting(pool: Pool, since: map<Endpoint, int>, now: nat -> int, n: nat)
    reads pool.healthy`nodes, since.Keys`errorTs
  {
    forall e | e in since :: e in pool.healthy.nodes && ErrorSeen(since[e], e.errorTs, now, n)
  }

  /** Endpoints that take more than one error, in a pool that forgets errors between the attempts. */
  ghost predicate Lenient(pool: Pool, since: map<Endpoint, int>, now: nat -> int, limit: nat) {
    forall e | e in since ::
      && e.markUnhealthyThreshold > 1 && pool.errorResetInterval > 0
      && Slow(now, since[e], pool.errorResetInterval, limit)
  }

  /** They stay listed. */
  method LastingAttempt(pool: Pool, size: nat, reply: nat -> Reply, now: nat -> int, attempt: nat,
                        ghost before: map<string, EndpointStats>, ghost tried: seq<Endpoint>,
                        ghost since: map<Endpoint, int>, ghost limit: nat) returns (ep: Endpoint?)
    requires pool.Valid()
    requires |tried| == attempt < limit && Tallied(before, pool.stats, tried, reply, size)
    requires Lenient(pool, since, now, limit) && Lasting(pool, since, now, attempt)
    modifies pool`stats, pool`firstUse, pool`healthyHeadChangeTs, pool`rotateCount, pool`noHealthyCount, pool`wg,
             pool`checking, pool.healthy`head, pool.healthy`tail, pool.healthy`nodes, pool.endpoints
    ensures pool.Valid() && SlackOf(pool) >= 0
    ensures ep == null <==> pool.shutdown || old(SlackOf(pool)) == 0
    ensures old(Unforgiving(pool)) || ep == null ==>
              SlackOf(pool) == old(SlackOf(pool)) - (if ep != null && Retried(reply(attempt)) then 1 else 0)
    ensures old(Unforgiving(pool)) ==> Unforgiving(pool)
    ensures Lasting(pool, since, now, attempt + 1)
    ensures since.Keys != {} && !pool.shutdown ==> ep != null
    ensures Tallied(before, pool.stats, if ep == null then tried else tried + [ep], reply, size)
    ensures pool.noHealthyCount == old(pool.noHealthyCount) + if ep == null then 1 else 0
  {
    ValidPoolHasSlack(pool);
    forall e | e in since ensures Forgiven(pool, e, now(attempt)) {
      assert ErrorSeen(since[e], e.errorTs, now, attempt);
    }
    assert since.Keys != {} ==> SlackOf(pool) > 0;
    ep := NextAttempt(pool, size, reply, now(attempt), attempt, before, tried);
    forall e | e in since ensures ErrorSeen(since[e], e.errorTs, now, attempt + 1) {
      assert old(ErrorSeen(since[e], e.errorTs, now, attempt));
    }
  }

  /** Only the last reply is not to be retried, and it decides. */
  ghost predicate Outcome(result: SendResult, reply: nat -> Reply, n: nat) {
    && (n > 0 ==> AllRetried(reply, n - 1))
    && (result.Sent? <==> n > 0 && Success(reply(n - 1)))
    && (result.Rejected? <==> n > 0 && !Success(reply(n - 1)) && !Retried(reply(n - 1)))
    && (result.NoHealthyEndpoint? || result.GoingOn? ==> AllRetried(reply, n))
  }

  function ResultOf(r: Reply): SendResult {
    if Success(r) then Sent else if r.Response? && r.code !in RETRY_CODES then Rejected(r.code) else GoingOn
  }

  lemma OutcomeStep(reply: nat -> Reply, n: nat)
    requires Outcome(GoingOn, reply, n)
    ensures Outcome(NoHealthyEndpoint, reply, n) && Outcome(ResultOf(reply(n)), reply, n + 1)
    ensures ResultOf(reply(n)).GoingOn? <==> Retried(reply(n))
  {
  }

  /** The slack after some attempts, the last of which may have ended them. */
  function SlackLeft(slack: int, n: nat, result: SendResult): int {
    slack - n + if result.Sent? || result.Rejected? then 1 else 0
  }

  /** The attempts of a send. The endpoints of `since`, if any, last to its end. */
  method TryAll(pool: Pool, size: nat, reply: nat -> Reply, now: nat -> int, limit: nat, ghost since: map<Endpoint,
                int>)
    returns (result: SendResult, ghost tried: seq<Endpoint>)
    requires pool.Valid() && Lenient(pool, since, now, limit) && Lasting(pool, since, now, 0)
    modifies pool`stats, pool`firstUse, pool`healthyHeadChangeTs, pool`rotateCount, pool`noHealthyCount, pool`wg,
             pool`checking, pool.healthy`head, pool.healthy`tail, pool.healthy`nodes, pool.endpoints
    ensures pool.Valid() && |tried| <= limit && Outcome(result, reply, |tried|)
    ensures Tallied(old(pool.stats), pool.stats, tried, reply, size)
    ensures result.NoHealthyEndpoint? ==> pool.shutdown || (SlackOf(pool) == 0 && since.Keys == {})
    ensures result.GoingOn? ==> |tried| == limit && Lasting(pool, since, now, limit)
    ensures pool.noHealthyCount == old(pool.noHealthyCount) + if result.NoHealthyEndpoint? then 1 else 0
    ensures old(Unforgiving(pool)) ==>
              SlackOf(pool) == SlackLeft(old(SlackOf(pool)), |tried|, result) && |tried| <= old(SlackOf(pool))
  {
    result, tried := GoingOn, [];
    ValidPoolHasSlack(pool);
    ghost var before, slack := pool.stats, SlackOf(pool);
    var attempt := 0;
    while attempt < limit && result.GoingOn?
      invariant pool.Valid() && pool.endpoints == old(pool.endpoints)
      invariant |tried| == attempt <= limit && Outcome(result, reply, attempt)
      invariant result.NoHealthyEndpoint? ==> pool.shutdown || (SlackOf(pool) == 0 && since.Keys == {})
      invariant old(Unforgiving(pool)) ==>
                  Unforgiving(pool) && SlackOf(pool) == SlackLeft(slack, attempt, result) && attempt <= slack
      invariant Tallied(before, pool.stats, tried, reply, size)
      invariant pool.noHealthyCount == old(pool.noHealthyCount) + if result.NoHealthyEndpoint? then 1 else 0
      invariant result.GoingOn? ==> Lasting(pool, since, now, attempt)
      decreases limit - attempt, result.GoingOn?
    {
      var ep := LastingAttempt(pool, size, reply, now, attempt, before, tried, since, limit);
      OutcomeStep(reply, attempt);
      if ep == null {
        result := NoHealthyEndpoint;
      } else {
        var used: Endpoint := ep;
        tried := tried + [used];
        result := ResultOf(reply(attempt));
        attempt := attempt + 1;
      }
    }
  }

  /** Sends a buffer, with nobody else at work. The `k`-th attempt gets the `k`-th reply. It goes on exactly as
      long as the replies are to be retried and an endpoint is listed, whatever its deadline, which is looked at only
      while none is; after `limit` attempts it may still be at it. If no error is ever forgotten every such reply
      takes one unit of slack, so it ends once the slack is spent. If not, there are replies and clock readings with
      which it goes on for as long as one likes. */
  method SendBuffer(pool: Pool, size: nat, reply: nat -> Reply, now: nat -> int, limit: nat)
    returns (result: SendResult, ghost tried: seq<Endpoint>)
    requires pool.Valid()
    modifies pool`stats, pool`firstUse, pool`healthyHeadChangeTs, pool`rotateCount, pool`noHealthyCount, pool`wg,
             pool`checking, pool.healthy`head, pool.healthy`tail, pool.healthy`nodes, pool.endpoints
    ensures pool.Valid() && |tried| <= limit && Outcome(result, reply, |tried|)
    ensures Tallied(old(pool.stats), pool.stats, tried, reply, size)
    ensures result.NoHealthyEndpoint? ==> pool.shutdown || SlackOf(pool) == 0
    ensures result.GoingOn? ==> |tried| == limit
    ensures pool.noHealthyCount == old(pool.noHealthyCount) + if result.NoHealthyEndpoint? then 1 else 0
    ensures old(Unforgiving(pool)) ==>
              && SlackOf(pool) == SlackLeft(old(SlackOf(pool)), |tried|, result)
              && |tried| <= old(SlackOf(pool)) && (limit > old(SlackOf(pool)) ==> !result.GoingOn?)
    ensures forall e | && e in old(pool.healthy.nodes) && e.markUnhealthyThreshold > 1 && !pool.shutdown
                       && pool.errorResetInterval > 0 && Slow(now, old(e.errorTs), pool.errorResetInterval, limit)
                       && AllRetried(reply, limit) ::
              result.GoingOn? && e in pool.healthy.nodes
  {
    ghost var since := map e | && e in pool.healthy.nodes && e.markUnhealthyThreshold > 1 && pool.errorResetInterval > 0
                               && Slow(now, e.errorTs, pool.errorResetInterval, limit) :: e.errorTs;
    result, tried := TryAll(pool, size, reply, now, limit, since);
    ValidPoolHasSlack(pool);
    if AllRetried(reply, limit) {
      assert tried != [] ==> Retried(reply(|tried| - 1));
      assert forall e | e in since :: result.GoingOn? || pool.shutdown;
    }
  }

  lemma SlowClock(ts: int, interval: int, n: nat)
    requires interval > 0
    ensures Slow(k => ts + (k + 1) * interval, ts, interval, n)
  {
    var now := (k: nat) => ts + (k + 1) * interval;
    forall j, k | 0 <= j < k < n ensures now(k) - now(j) >= interval {
      MulStep(j + 1, k + 1, interval);
    }
    forall k | 0 <= k < n ensures now(k) - ts >= interval {
      MulStep(0, k + 1, interval);
    }
  }

  /** One listed endpoint that takes two errors is enough for attempts without end, long past any timeout: with a clock
      that reads one error reset interval more at each of them, a send without success is never over. */
  method SendForever(pool: Pool, size: nat, ep: Endpoint, limit: nat)
    returns (result: SendResult, ghost tried: seq<Endpoint>)
    requires pool.Valid() && !pool.shutdown && pool.errorResetInterval > 0
    requires ep in pool.healthy.nodes && ep.markUnhealthyThreshold > 1
    modifies pool`stats, pool`firstUse, pool`healthyHeadChangeTs, pool`rotateCount, pool`noHealthyCount, pool`wg,
             pool`checking, pool.healthy`head, pool.healthy`tail, pool.healthy`nodes, pool.endpoints
    ensures pool.Valid() && result.GoingOn? && |tried| == limit && ep in pool.healthy.nodes
  {
    var ts, interval := ep.errorTs, pool.errorResetInterval;
    SlowClock(ts, interval, limit);
    result, tried := SendBuffer(pool, size, k => TransportError, k => ts + (k + 1) * interval, limit);
  }

  // ---------- Load balancing ----------

  /** Whose turn it is at the `k`-th use. */
  function Turn(k: nat, n: nat): (t: nat)
    requires n > 0
    ensures t < n
  {
    if k == 0 then 0
    else if Turn(k - 1, n) + 1 == n then 0
    else Turn(k - 1, n) + 1
  }

  lemma {:induction false} TurnIsMod(k: nat, n: nat)
    requires n > 0
    ensures Turn(k, n) == k % n
  {
    if k > 0 {
      TurnIsMod(k - 1, n);
      ModStep(k - 1, n);
    } else {
      ModIsUnique(0, n, 0, 0);
    }
  }

  function Rotated(init: seq<Endpoint>, o: nat): seq<Endpoint>
    requires o < |init|
  {
    init[o..] + init[..o]
  }

  lemma RotationAdvances(init: seq<Endpoint>, o: nat)
    requires o < |init|
    ensures var s := Rotated(init, o);
            && s[0] == init[o]
            && s[1..] + [s[0]] == Rotated(init, if o + 1 == |init| then 0 else o + 1)
            && (|init| == 1 ==> s == init)
  {
  }

  lemma NextTurn(init: seq<Endpoint>, k: nat, nodes: seq<Endpoint>, nodes': seq<Endpoint>)
    requires init != [] && nodes == Rotated(init, if k == 0 then 0 else Turn(k - 1, |init|))
    requires nodes' == if k > 0 && |nodes| > 1 then nodes[1..] + [nodes[0]] else nodes
    ensures nodes' == Rotated(init, Turn(k, |init|)) && nodes'[0] == init[Turn(k, |init|)]
  {
    RotationAdvances(init, if k == 0 then 0 else Turn(k - 1, |init|));
    RotationAdvances(init, Turn(k, |init|));
  }

  /** One use: the list is rotated by the turns taken so far. */
  method ServeOne(pool: Pool, now: int, ghost init: seq<Endpoint>, ghost k: nat) returns (ep: Endpoint)
    requires pool.Valid() && !pool.shutdown && pool.healthyRotateInterval == 0 && pool.firstUse == (k == 0)
    requires init != [] && pool.healthy.nodes == Rotated(init, if k == 0 then 0 else Turn(k - 1, |init|))
    modifies pool`stats, pool`firstUse, pool`healthyHeadChangeTs, pool`rotateCount,
             pool.healthy`head, pool.healthy`tail, pool.healthy`nodes, pool.endpoints
    ensures pool.Valid() && !pool.firstUse && pool.healthy.nodes == Rotated(init, Turn(k, |init|))
    ensures ep == init[Turn(k, |init|)]
  {
    ghost var nodes := pool.healthy.nodes;
    ep := pool.Enter(now);
    NextTurn(init, k, nodes, pool.healthy.nodes);
  }

  /** With rotation after every use and no errors, a fresh pool serves its endpoints round robin. */
  method ServeRoundRobin(pool: Pool, m: nat, now: nat -> int) returns (served: seq<Endpoint>)
    requires pool.Valid() && pool.firstUse && !pool.shutdown && pool.healthyRotateInterval == 0
    requires pool.healthy.nodes != []
    modifies pool`stats, pool`firstUse, pool`healthyHeadChangeTs, pool`rotateCount,
             pool.healthy`head, pool.healthy`tail, pool.healthy`nodes, pool.endpoints
    ensures |served| == m
    ensures forall k | 0 <= k < m :: served[k] == old(pool.healthy.nodes)[k % |old(pool.healthy.nodes)|]
  {
    ghost var init := pool.healthy.nodes;
    served := [];
    for k := 0 to m
      invariant pool.Valid() && pool.firstUse == (k == 0)
      invariant |served| == k && forall j | 0 <= j < k :: served[j] == init[j % |init|]
      invariant pool.healthy.nodes == Rotated(init, if k == 0 then 0 else Turn(k - 1, |init|))
    {
      var ep := ServeOne(pool, now(k), init, k);
      TurnIsMod(k, |init|);
      served := served + [ep];
    }
  }

  // ---------- Every interleaving ----------

  /** The sections that senders, health checks and shutdown run under the lock: a use on entry, a use that wakes up from
      its pause, the statistics of an attempt, an error report, a probe, the end of a check. */
  datatype Step =
    | Use(now: int)
    | Resume(now: int)
    | Attempted(ep: Endpoint, size: nat, reply: Reply)
    | NoneFound
    | Error(ep: Endpoint, now: int)
    | Probe(ep: Endpoint, ok: bool)
    | CheckDone(ep: Endpoint)
    | GoroutineDone(ep: Endpoint)
    | Shutdown

  /** What is reported is about endpoints of the pool, which is where senders have theirs from. */
  predicate Reports(steps: seq<Step>, endpoints: set<Endpoint>) {
    forall k | 0 <= k < |steps| && (steps[k].Error? || steps[k].Attempted?) :: steps[k].ep in endpoints
  }

  method RunCheckStep(pool: Pool, step: Step)
    requires pool.Valid()
    modifies pool, pool.healthy, pool.endpoints
    ensures pool.Valid() && pool.endpoints == old(pool.endpoints) && pool.shutdown == old(pool.shutdown)
  {
    match step {
      case Probe(ep, ok) => if ep in pool.checking { pool.RecordProbe(ep, ok); }
      case CheckDone(ep) => if ep in pool.checking { pool.FinishCheck(ep); }
      case GoroutineDone(ep) => if ep in pool.signingOff { pool.SignOff(ep); }
      case _ =>
    }
  }

  method RunStep(pool: Pool, step: Step)
    requires pool.Valid() && (step.Error? || step.Attempted? ==> step.ep in pool.endpoints)
    modifies pool, pool.healthy, pool.endpoints
    ensures pool.Valid() && pool.endpoints == old(pool.endpoints)
    ensures old(pool.shutdown) ==> pool.shutdown
  {
    match step {
      case Use(now) => var _ := pool.Enter(now);
      case Resume(now) => var _ := pool.Look(now);
      case Attempted(ep, size, reply) => CountAttempt(pool, ep, size, reply);
      case NoneFound => pool.noHealthyCount := pool.noHealthyCount + 1;
      case Error(ep, now) => pool.ReportError(ep, now);
      case Shutdown => pool.shutdown := true;
      case _ => RunCheckStep(pool, step);
    }
  }

  /** Any interleaving of senders, health checks and shutdown; steps that are not enabled do nothing. */
  method Interleave(pool: Pool, steps: seq<Step>)
    requires pool.Valid() && Reports(steps, pool.endpoints)
    modifies pool, pool.healthy, pool.endpoints
    ensures pool.Valid() && pool.endpoints == old(pool.endpoints)
    ensures old(pool.shutdown) ==> pool.shutdown
  {
    for k := 0 to |steps|
      invariant pool.Valid() && pool.endpoints == old(pool.endpoints)
      invariant old(pool.shutdown) ==> pool.shutdown
    {
      RunStep(pool, steps[k]);
    }
  }

  /** The endpoint to use. While none is listed the caller pauses, and `others` says what happens to the pool in each
      pause; when that runs out its deadline has passed. A pool that is shut down on entry gives none; one that is shut
      down during a pause may. */
  method GetCurrentHealthy(pool: Pool, now: nat -> int, others: seq<seq<Step>>)
    returns (ep: Endpoint?, ghost pauses: nat)
    requires pool.Valid() && forall k | 0 <= k < |others| :: Reports(others[k], pool.endpoints)
    modifies pool, pool.healthy, pool.endpoints
    ensures pool.Valid() && pool.endpoints == old(pool.endpoints) && pauses <= |others|
    ensures ep != null ==> pool.healthy.nodes != [] && ep == pool.healthy.nodes[0] && ep in pool.endpoints && ep.healthy
    ensures old(pool.shutdown) ==> ep == null && pauses == 0
    ensures ep == null && !old(pool.shutdown) ==> pool.healthy.nodes == [] && pauses == |others|
    ensures old(pool.healthy.nodes) != [] && !old(pool.shutdown) ==> ep != null && pauses == 0
    ensures pauses == 0 && ep != null ==>
              pool.healthy.nodes == if old(pool.RotationDue(now(0))) && |old(pool.healthy.nodes)| > 1
                                    then old(pool.healthy.nodes)[1..] + [old(pool.healthy.nodes)[0]]
                                    else old(pool.healthy.nodes)
  {
    pauses := 0;
    ep := pool.Enter(now(0));
    if ep != null || pool.shutdown {
      return;
    }
    var k := 0;
    while ep == null && k < |others|
      invariant pool.Valid() && pool.endpoints == old(pool.endpoints)
      invariant 0 <= k <= |others| && pauses == k
      invariant ep != null ==>
                  pool.healthy.nodes != [] && ep == pool.healthy.nodes[0] && ep in pool.endpoints && ep.healthy
      invariant ep == null ==> pool.healthy.nodes == []
      invariant ep != null ==> pauses > 0
      decreases |others| - k
    {
      Interleave(pool, others[k]);
      k := k + 1;
      pauses := pauses + 1;
      ep := pool.Look(now(k));
    }
  }

  /** A caller that pauses when the pool is shut down is handed the endpoint that the cancelled check returns. */
  method OvertakenByShutdown(pool: Pool, checked: Endpoint, now: nat -> int) returns (ep: Endpoint?)
    requires pool.Valid() && !pool.shutdown && pool.healthy.nodes == [] && checked in pool.checking
    modifies pool, pool.healthy, pool.endpoints
    ensures pool.Valid() && pool.shutdown && ep == checked
  {
    ep := pool.Enter(now(0));
    pool.shutdown := true;
    pool.FinishCheck(checked);
    ep := pool.Look(now(1));
  }
}
