/** The request limiter of the gateway: a sliding window on two counters, and how many requests it can
    let through in any minute. Times are real numbers of seconds. */
module RateLimit {

  const WINDOW_S: real := 60.0

  function Bucket(now: real): int { (now / WINDOW_S).Floor }

  /** The part of the bucket that is over. */
  function Elapsed(now: real): (e: real)
    ensures 0.0 <= e < 1.0
  {
    now / WINDOW_S - (Bucket(now) as real)
  }

  datatype Decision = Decision(allowed: bool, retryAfter: int, observed: real)

  /** Requests counted by tenant and bucket, refused ones too. */
  type Counts = map<(string, int), nat>

  function Read(counts: Counts, tenant: string, bucket: int): nat {
    if (tenant, bucket) in counts then counts[(tenant, bucket)] else 0
  }

  function Counted(counts: Counts, tenant: string, limit: int, now: real): Counts {
    if limit <= 0 then counts
    else counts[(tenant, Bucket(now)) := Read(counts, tenant, Bucket(now)) + 1]
  }

  function Observed(counts: Counts, tenant: string, now: real): real {
    (Read(counts, tenant, Bucket(now) - 1) as real) * (1.0 - Elapsed(now)) + (Read(counts, tenant, Bucket(now)) as real)
  }

  /** The decision, taken on the counters with this request already counted. */
  function Decide(counts: Counts, tenant: string, limit: int, now: real): Decision {
    if limit <= 0 then Decision(true, 0, 0.0)
    else
      var observed := Observed(counts, tenant, now);
      var left := (WINDOW_S - Elapsed(now) * WINDOW_S).Floor;
      if observed > limit as real then Decision(false, if left > 1 then left else 1, observed) else Decision(true, 0, observed)
  }

  class RateLimiter {
    var counts: Counts

    constructor ()
      ensures counts == map[]
    {
      counts := map[];
    }

    method Check(tenant: string, limit: int, now: real) returns (decision: Decision)
      modifies this
      ensures counts == Counted(old(counts), tenant, limit, now)
      ensures decision == Decide(counts, tenant, limit, now)
      ensures !decision.allowed ==> 1 <= decision.retryAfter <= 60
    {
      if limit <= 0 {
        return Decision(true, 0, 0.0);
      }
      var bucket := Bucket(now);
      var elapsed := Elapsed(now);
      var current := Read(counts, tenant, bucket) + 1;
      counts := counts[(tenant, bucket) := current];
      var previous := Read(counts, tenant, bucket - 1);
      var observed := (previous as real) * (1.0 - elapsed) + (current as real);
      if observed > limit as real {
        var left := (WINDOW_S - elapsed * WINDOW_S).Floor;
        return Decision(false, if left > 1 then left else 1, observed);
      }
      return Decision(true, 0, observed);
    }
  }

  // ----- runs -----

  datatype Request = Request(tenant: string, time: real)

  /** The counters after some requests, and which of them were let through. */
  datatype History = History(counts: Counts, allowed: seq<bool>)

  function Run(requests: seq<Request>, limits: string -> int): (h: History)
    ensures |h.allowed| == |requests|
  {
    if requests == [] then History(map[], [])
    else
      var n := |requests| - 1;
      var before, r := Run(requests[..n], limits), requests[n];
      var counts := Counted(before.counts, r.tenant, limits(r.tenant), r.time);
      History(counts, before.allowed + [Decide(counts, r.tenant, limits(r.tenant), r.time).allowed])
  }

  predicate InOrder(requests: seq<Request>) {
    forall i, j :: 0 <= i < j < |requests| ==> requests[i].time <= requests[j].time
  }

  /** Requests of the tenant in a bucket. */
  function Hits(requests: seq<Request>, tenant: string, bucket: int): nat {
    if requests == [] then 0
    else
      var r := requests[|requests| - 1];
      Hits(requests[..|requests| - 1], tenant, bucket) + (if r.tenant == tenant && Bucket(r.time) == bucket then 1 else 0)
  }

  /** Requests of the tenant let through from `from` to `to`, both included. */
  function Admitted(requests: seq<Request>, allowed: seq<bool>, tenant: string, from: real, to: real): nat
    requires |allowed| == |requests|
  {
    if requests == [] then 0
    else
      var n := |requests| - 1;
      var r := requests[n];
      Admitted(requests[..n], allowed[..n], tenant, from, to)
      + (if r.tenant == tenant && allowed[n] && from <= r.time <= to then 1 else 0)
  }

  /** Requests of the tenant let through in a bucket, up to `to`. */
  function AdmittedInBucket(requests: seq<Request>, allowed: seq<bool>, tenant: string, bucket: int, to: real): nat
    requires |allowed| == |requests|
  {
    if requests == [] then 0
    else
      var n := |requests| - 1;
      var r := requests[n];
      AdmittedInBucket(requests[..n], allowed[..n], tenant, bucket, to)
      + (if r.tenant == tenant && allowed[n] && Bucket(r.time) == bucket && r.time <= to then 1 else 0)
  }

  /** Nothing is counted for a tenant without a limit. */
  lemma {:induction false} UnlimitedIsNotCounted(requests: seq<Request>, limits: string -> int, tenant: string, bucket: int)
    requires limits(tenant) <= 0
    ensures Read(Run(requests, limits).counts, tenant, bucket) == 0
  {
    if requests != [] {
      UnlimitedIsNotCounted(requests[..|requests| - 1], limits, tenant, bucket);
    }
  }

  lemma {:induction false} CountsAreHits(requests: seq<Request>, limits: string -> int, tenant: string, bucket: int)
    requires limits(tenant) > 0
    ensures Read(Run(requests, limits).counts, tenant, bucket) == Hits(requests, tenant, bucket)
  {
    if requests != [] {
      CountsAreHits(requests[..|requests| - 1], limits, tenant, bucket);
    }
  }

  /** The minute a time lies in, and how much of it is over. */
  lemma BucketExactly(now: real)
    ensures var start := 60.0 * (Bucket(now) as real);
            start <= now < start + 60.0 && 60.0 * Elapsed(now) == now - start
  {
  }

  /** What a request weighs against, said of the requests themselves: those of its tenant in this minute, itself
      included and refused ones too, and those of the minute before for the part of it that still counts. It is let
      through exactly when they are no more than the limit, and otherwise told to come back when the minute is over. */
  lemma DecidedOnRequests(requests: seq<Request>, limits: string -> int)
    requires requests != []
    ensures var r, h := requests[|requests| - 1], Run(requests, limits);
            var limit, bucket := limits(r.tenant), Bucket(r.time);
            var weight := Weighed(Hits(requests, r.tenant, bucket - 1), Elapsed(r.time)) + (Hits(requests, r.tenant, bucket) as real);
            var left := 60.0 * ((bucket + 1) as real) - r.time;
            var decision := Decide(h.counts, r.tenant, limit, r.time);
            && h.allowed[|requests| - 1] == decision.allowed
            && (decision.allowed <==> limit <= 0 || weight <= limit as real)
            && decision.observed == (if limit > 0 then weight else 0.0) && (decision.allowed ==> decision.retryAfter == 0)
            && (!decision.allowed ==>
                  if left < 2.0 then decision.retryAfter == 1
                  else decision.retryAfter as real <= left < decision.retryAfter as real + 1.0)
  {
    hide Hits;
    hide Run;
    hide Decide;
    hide Read;
    hide Weighed;
    hide Bucket;
    hide Elapsed;
    var r, h := requests[|requests| - 1], Run(requests, limits);
    LastRequest(requests, limits);
    DecidedWeight(h.counts, r.tenant, limits(r.tenant), r.time);
    DecidedWait(h.counts, r.tenant, limits(r.tenant), r.time);
    if limits(r.tenant) > 0 {
      CountsAreHits(requests, limits, r.tenant, Bucket(r.time));
      CountsAreHits(requests, limits, r.tenant, Bucket(r.time) - 1);
    }
  }

  lemma DecidedWeight(counts: Counts, tenant: string, limit: int, now: real)
    ensures var weight := Weighed(Read(counts, tenant, Bucket(now) - 1), Elapsed(now)) + (Read(counts, tenant, Bucket(now)) as real);
            && (Decide(counts, tenant, limit, now).allowed <==> limit <= 0 || weight <= limit as real)
            && Decide(counts, tenant, limit, now).observed == (if limit > 0 then weight else 0.0)
            && (Decide(counts, tenant, limit, now).allowed ==> Decide(counts, tenant, limit, now).retryAfter == 0)
  {
    hide Read;
    hide Bucket;
    hide Elapsed;
  }

  lemma DecidedWait(counts: Counts, tenant: string, limit: int, now: real)
    ensures var left := 60.0 * ((Bucket(now) + 1) as real) - now;
            var decision := Decide(counts, tenant, limit, now);
            !decision.allowed ==>
              if left < 2.0 then decision.retryAfter == 1
              else decision.retryAfter as real <= left < decision.retryAfter as real + 1.0
  {
    LeftOfMinute(now);
    hide Observed;
    hide Bucket;
    hide Elapsed;
  }

  lemma LeftOfMinute(now: real)
    ensures WINDOW_S - Elapsed(now) * WINDOW_S == 60.0 * ((Bucket(now) + 1) as real) - now
  {
    BucketExactly(now);
    hide Bucket;
    hide Elapsed;
  }

  /** Nobody is refused who made no more requests than the limit in this minute and the one before. */
  lemma NoNeedlessRefusal(requests: seq<Request>, limits: string -> int)
    requires requests != []
    requires var r := requests[|requests| - 1];
             Hits(requests, r.tenant, Bucket(r.time) - 1) + Hits(requests, r.tenant, Bucket(r.time)) <= limits(r.tenant)
    ensures Run(requests, limits).allowed[|requests| - 1]
  {
    var r := requests[|requests| - 1];
    DecidedOnRequests(requests, limits);
    var p, e := Hits(requests, r.tenant, Bucket(r.time) - 1) as real, Elapsed(r.time);
    MulNonNegative(p, e);
    Distribute(p, e);
    hide Hits;
    hide Run;
    hide Decide;
    hide Bucket;
  }

  lemma BucketMonotone(s: real, t: real)
    requires s <= t
    ensures Bucket(s) <= Bucket(t)
    ensures Bucket(s) == Bucket(t) ==> Elapsed(s) <= Elapsed(t)
  {
  }

  function Mul(x: real, y: real): real { x * y }

  lemma MulNonNegative(x: real, y: real)
    requires x >= 0.0 && y >= 0.0
    ensures Mul(x, y) >= 0.0
    ensures x > 0.0 && y > 0.0 ==> Mul(x, y) > 0.0
  {
  }

  lemma MulMonotone(x: real, y: real, z: real)
    requires x <= y && z >= 0.0
    ensures Mul(x, z) <= Mul(y, z)
  {
    MulNonNegative(y - x, z);
    assert (y - x) * z == y * z - x * z;
  }

  lemma Distribute(x: real, e: real)
    ensures Mul(x, 1.0 - e) == x - Mul(x, e)
    ensures Mul(x, 1.0 + e) == x + Mul(x, e)
  {
  }

  /** The counter of the bucket before, weighed with what is left of this one. */
  function Weighed(hits: nat, e: real): real { Mul(hits as real, 1.0 - e) }

  /** What a request that is let through says about the counters. */
  lemma AllowedMeans(counts: Counts, tenant: string, limit: int, now: real, bound: real)
    requires limit > 0 && Decide(counts, tenant, limit, now).allowed && Elapsed(now) <= bound <= 1.0
    ensures Weighed(Read(counts, tenant, Bucket(now) - 1), bound) + (Read(counts, tenant, Bucket(now)) as real) <= limit as real
    ensures Read(counts, tenant, Bucket(now)) <= limit
  {
    var p, e := Read(counts, tenant, Bucket(now) - 1) as real, Elapsed(now);
    MulNonNegative(p, bound - e);
    MulNonNegative(p, 1.0 - e);
    assert Mul(p, 1.0 - e) - Mul(p, 1.0 - bound) == Mul(p, bound - e);
  }

  /** The step of a run. */
  lemma LastRequest(requests: seq<Request>, limits: string -> int)
    requires requests != []
    ensures var n := |requests| - 1;
            var r, h := requests[n], Run(requests, limits);
            && h.allowed[..n] == Run(requests[..n], limits).allowed
            && h.allowed[n] == Decide(h.counts, r.tenant, limits(r.tenant), r.time).allowed
  {
  }

  /** A bucket lets through no more than its counter shows, and no more than the limit. */
  lemma {:induction false} BucketBound(requests: seq<Request>, limits: string -> int, tenant: string, bucket: int, to: real)
    requires limits(tenant) > 0
    ensures AdmittedInBucket(requests, Run(requests, limits).allowed, tenant, bucket, to) <= Hits(requests, tenant, bucket)
    ensures AdmittedInBucket(requests, Run(requests, limits).allowed, tenant, bucket, to) <= limits(tenant)
  {
    hide Decide;
    hide Run;
    if requests != [] {
      var n := |requests| - 1;
      var r, h := requests[n], Run(requests, limits);
      BucketBound(requests[..n], limits, tenant, bucket, to);
      LastRequest(requests, limits);
      if r.tenant == tenant && h.allowed[n] && Bucket(r.time) == bucket {
        CountsAreHits(requests, limits, tenant, bucket);
        AllowedMeans(h.counts, tenant, limits(tenant), r.time, 1.0);
      }
    }
  }

  lemma {:induction false} AdmittedIsHit(requests: seq<Request>, allowed: seq<bool>, tenant: string, bucket: int, to: real)
    requires |allowed| == |requests| && AdmittedInBucket(requests, allowed, tenant, bucket, to) > 0
    ensures exists i :: 0 <= i < |requests| && Bucket(requests[i].time) == bucket
  {
    var n := |requests| - 1;
    if AdmittedInBucket(requests[..n], allowed[..n], tenant, bucket, to) > 0 {
      AdmittedIsHit(requests[..n], allowed[..n], tenant, bucket, to);
      var i :| 0 <= i < n && Bucket(requests[..n][i].time) == bucket;
      assert Bucket(requests[i].time) == bucket;
    } else {
      assert Bucket(requests[n].time) == bucket;
    }
  }

  /** Room for what the current bucket let through, next to the weighed bucket before. */
  predicate Fits(current: nat, hits: nat, e: real, limit: int) {
    current > 0 ==> Weighed(hits, e) + (current as real) <= limit as real
  }

  lemma FitsLess(current: nat, more: nat, hits: nat, e: real, limit: int)
    requires current <= more && Weighed(hits, e) + (more as real) <= limit as real
    ensures Fits(current, hits, e, limit)
  {
  }

  /** What the bucket of `to` lets through up to `to` leaves room for the weighed bucket before. */
  lemma {:induction false} CurrentBound(requests: seq<Request>, limits: string -> int, tenant: string, to: real)
    requires limits(tenant) > 0 && InOrder(requests)
    ensures Fits(AdmittedInBucket(requests, Run(requests, limits).allowed, tenant, Bucket(to), to),
                 Hits(requests, tenant, Bucket(to) - 1), Elapsed(to), limits(tenant))
  {
    hide Decide;
    hide Run;
    hide Weighed;
    if requests == [] {
    } else {
      var n, b := |requests| - 1, Bucket(to);
      var r, h := requests[n], Run(requests, limits);
      CurrentBound(requests[..n], limits, tenant, to);
      LastRequest(requests, limits);
      BucketMonotone(r.time, if r.time <= to then to else r.time);
      var current := AdmittedInBucket(requests, h.allowed, tenant, b, to);
      if r.tenant == tenant && h.allowed[n] && Bucket(r.time) == b && r.time <= to {
        CountsAreHits(requests, limits, tenant, b);
        CountsAreHits(requests, limits, tenant, b - 1);
        BucketBound(requests, limits, tenant, b, to);
        AllowedMeans(h.counts, tenant, limits(tenant), r.time, Elapsed(to));
        FitsLess(current, Hits(requests, tenant, b), Hits(requests, tenant, b - 1), Elapsed(to), limits(tenant));
      } else if AdmittedInBucket(requests[..n], h.allowed[..n], tenant, b, to) > 0 {
        hide Fits;
        AdmittedIsHit(requests[..n], h.allowed[..n], tenant, b, to);
        var i :| 0 <= i < n && Bucket(requests[..n][i].time) == b;
        BucketMonotone(requests[i].time, r.time);
        hide Bucket;
        assert Hits(requests, tenant, b - 1) == Hits(requests[..n], tenant, b - 1);
      } else {
        assert current == 0;
      }
    }
  }

  /** A minute that ends at `to` lies in the bucket of `to` and the one before. */
  lemma {:induction false} TwoBuckets(requests: seq<Request>, allowed: seq<bool>, tenant: string, to: real)
    requires |allowed| == |requests|
    ensures Admitted(requests, allowed, tenant, to - WINDOW_S, to)
            <= AdmittedInBucket(requests, allowed, tenant, Bucket(to) - 1, to) + AdmittedInBucket(requests, allowed, tenant, Bucket(to), to)
  {
    if requests != [] {
      var n := |requests| - 1;
      TwoBuckets(requests[..n], allowed[..n], tenant, to);
      var t := requests[n].time;
      if to - WINDOW_S <= t <= to {
        BucketMonotone(t, to);
        BucketMonotone(to - WINDOW_S, t);
        assert Bucket(to - WINDOW_S) == Bucket(to) - 1;
      }
    }
  }

  function Cap(limit: int, e: real): real { Mul(limit as real, 1.0 + e) }

  lemma Total(limit: int, hits: nat, before: nat, current: nat, e: real)
    requires limit > 0 && 0.0 <= e < 1.0 && before <= hits && before <= limit && Fits(current, hits, e, limit)
    ensures (before + current) as real <= Cap(limit, e)
    ensures before + current < 2 * limit
  {
    hide Mul;
    var l, b := limit as real, before as real;
    MulMonotone(b, hits as real, 1.0 - e);
    MulMonotone(b, l, e);
    MulNonNegative(l, e);
    MulNonNegative(l, 1.0 - e);
    Distribute(l, e);
    Distribute(b, e);
  }

  /** With requests in the order of time, any minute that ends at the fraction `e` of its bucket lets
      through at most the limit times 1 + e, so always fewer than twice the limit. */
  lemma RateBound(requests: seq<Request>, limits: string -> int, tenant: string, to: real)
    requires limits(tenant) > 0 && InOrder(requests)
    ensures var admitted := Admitted(requests, Run(requests, limits).allowed, tenant, to - WINDOW_S, to);
            && admitted as real <= Cap(limits(tenant), Elapsed(to))
            && admitted < 2 * limits(tenant)
  {
    hide Fits;
    hide Cap;
    hide Bucket;
    hide Elapsed;
    hide Run;
    var allowed, b := Run(requests, limits).allowed, Bucket(to);
    var before := AdmittedInBucket(requests, allowed, tenant, b - 1, to);
    var current := AdmittedInBucket(requests, allowed, tenant, b, to);
    TwoBuckets(requests, allowed, tenant, to);
    BucketBound(requests, limits, tenant, b - 1, to);
    CurrentBound(requests, limits, tenant, to);
    Total(limits(tenant), Hits(requests, tenant, b - 1), before, current, Elapsed(to));
  }

  lemma Snoc(requests: seq<Request>, r: Request, limits: string -> int, from: real, to: real)
    ensures var before, after := Run(requests, limits), Run(requests + [r], limits);
            && after.counts == Counted(before.counts, r.tenant, limits(r.tenant), r.time)
            && after.allowed == before.allowed + [Decide(after.counts, r.tenant, limits(r.tenant), r.time).allowed]
            && Admitted(requests + [r], after.allowed, r.tenant, from, to)
               == Admitted(requests, before.allowed, r.tenant, from, to)
                  + (if after.allowed[|requests|] && from <= r.time <= to then 1 else 0)
  {
    assert (requests + [r])[..|requests|] == requests;
    var before, after := Run(requests, limits), Run(requests + [r], limits);
    assert after.allowed[..|requests|] == before.allowed;
  }

  lemma BucketOf(now: real, bucket: int)
    requires bucket as real * WINDOW_S <= now < bucket as real * WINDOW_S + WINDOW_S
    ensures Bucket(now) == bucket
  {
  }

  /** The limit alone is no bound: with a limit of two, three requests pass within one minute. */
  lemma LimitAloneIsNoBound() returns (requests: seq<Request>, to: real)
    ensures InOrder(requests)
    ensures Admitted(requests, Run(requests, _ => 2).allowed, "t", to - WINDOW_S, to) == 3
  {
    to := 119.0;
    var limits := (_: string) => 2;
    var early, late := Request("t", 59.0), Request("t", 119.0);
    BucketOf(59.0, 0);
    BucketOf(119.0, 1);
    var none: seq<Request> := [];
    Snoc(none, early, limits, to - WINDOW_S, to);
    Snoc(none + [early], early, limits, to - WINDOW_S, to);
    Snoc(none + [early] + [early], late, limits, to - WINDOW_S, to);
    requests := none + [early] + [early] + [late];
  }
}
