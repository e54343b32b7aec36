/** The fixed-window rate limiter, over every trace of requests with a clock that never goes back. */
module RateLimit {
  import opened Util

  const RATE_LIMIT_WINDOW_MS := 60000
  const RATE_LIMIT_MAX := 100

  datatype Bucket = Bucket(count: nat, resetAt: int)

  datatype Request = Request(ip: string, at: int)

  type Buckets = map<string, Bucket>

  /** The bucket of the address after one request at this time. */
  function Hit(b: Option<Bucket>, now: int): Bucket {
    if b.None? || now >= b.value.resetAt then Bucket(1, now + RATE_LIMIT_WINDOW_MS)
    else b.value.(count := b.value.count + 1)
  }

  function Get(buckets: Buckets, ip: string): Option<Bucket> {
    if ip in buckets then Some(buckets[ip]) else None
  }

  predicate Accepts(b: Bucket) { b.count <= RATE_LIMIT_MAX }

  class RateLimiter {
    var rateBuckets: Buckets

    constructor ()
      ensures rateBuckets == map[]
    {
      rateBuckets := map[];
    }

    method CheckRateLimit(ip: string, now: int) returns (ok: bool)
      modifies this
      ensures rateBuckets == old(rateBuckets)[ip := Hit(Get(old(rateBuckets), ip), now)]
      ensures ok == Accepts(rateBuckets[ip])
    {
      var bucket := Bucket(0, 0);
      if ip !in rateBuckets || now >= rateBuckets[ip].resetAt {
        bucket := Bucket(0, now + RATE_LIMIT_WINDOW_MS);
        rateBuckets := rateBuckets[ip := bucket];
      } else {
        bucket := rateBuckets[ip];
      }
      bucket := bucket.(count := bucket.count + 1);
      rateBuckets := rateBuckets[ip := bucket];
      return bucket.count <= RATE_LIMIT_MAX;
    }
  }

  // ----- Traces -----

  function BucketsAfter(trace: seq<Request>): Buckets {
    if trace == [] then map[]
    else
      var before, r := BucketsAfter(trace[..|trace| - 1]), trace[|trace| - 1];
      before[r.ip := Hit(Get(before, r.ip), r.at)]
  }

  /** The answer to request i of the trace. */
  predicate Accepted(trace: seq<Request>, i: nat)
    requires i < |trace|
  {
    Accepts(Hit(Get(BucketsAfter(trace[..i]), trace[i].ip), trace[i].at))
  }

  ghost predicate Ordered(trace: seq<Request>) {
    forall i, j :: 0 <= i < j < |trace| ==> trace[i].at <= trace[j].at
  }

  // ----- One address at a time -----

  /** The instants at which an address asked. */
  function Times(trace: seq<Request>, ip: string): seq<int> {
    if trace == [] then []
    else
      var r := trace[|trace| - 1];
      Times(trace[..|trace| - 1], ip) + (if r.ip == ip then [r.at] else [])
  }

  function BucketFor(times: seq<int>): Option<Bucket> {
    if times == [] then None
    else Some(Hit(BucketFor(times[..|times| - 1]), times[|times| - 1]))
  }

  /** An address's bucket is a function of its own requests alone. */
  lemma {:induction false} OwnBucket(trace: seq<Request>, ip: string)
    ensures Get(BucketsAfter(trace), ip) == BucketFor(Times(trace, ip))
  {
    if trace != [] {
      var front, r := trace[..|trace| - 1], trace[|trace| - 1];
      OwnBucket(front, ip);
      if r.ip == ip {
        assert (Times(front, ip) + [r.at])[..|Times(front, ip)|] == Times(front, ip);
      } else {
        assert Times(trace, ip) == Times(front, ip);
      }
    }
  }

  /** Other addresses have no influence: two traces in which an address asked at the same
      instants answer its next request alike. */
  lemma OthersDoNotMatter(a: seq<Request>, b: seq<Request>, i: nat, j: nat)
    requires i < |a| && j < |b| && a[i] == b[j]
    requires Times(a[..i], a[i].ip) == Times(b[..j], b[j].ip)
    ensures Accepted(a, i) == Accepted(b, j)
  {
    OwnBucket(a[..i], a[i].ip);
    OwnBucket(b[..j], b[j].ip);
  }

  ghost predicate OrderedTimes(ts: seq<int>) {
    forall i, j :: 0 <= i < j < |ts| ==> ts[i] <= ts[j]
  }

  /** The answer to the k-th request of an address. */
  predicate Granted(ts: seq<int>, k: nat)
    requires k < |ts|
  {
    BucketFor(ts[..k + 1]).Some? && Accepts(BucketFor(ts[..k + 1]).value)
  }

  /** Where the current window began: the window holds the requests from there on. */
  function WindowStart(ts: seq<int>): (s: nat)
    requires ts != []
    ensures s < |ts|
  {
    var n := |ts| - 1;
    var before := BucketFor(ts[..n]);
    if before.None? || ts[n] >= before.value.resetAt then n else WindowStart(ts[..n])
  }

  function WindowAt(ts: seq<int>, k: nat): (s: nat)
    requires k < |ts|
    ensures s <= k
  {
    WindowStart(ts[..k + 1])
  }

  /** The bucket counts the requests since the window began and ends a window length later. */
  lemma {:induction false} BucketIs(ts: seq<int>)
    requires ts != [] && OrderedTimes(ts)
    ensures var s := WindowStart(ts);
            && BucketFor(ts) == Some(Bucket(|ts| - s, ts[s] + RATE_LIMIT_WINDOW_MS))
            && ts[|ts| - 1] < ts[s] + RATE_LIMIT_WINDOW_MS
            && (s > 0 ==> WindowStart(ts[..s]) < s && ts[WindowStart(ts[..s])] + RATE_LIMIT_WINDOW_MS <= ts[s])
  {
    var n := |ts| - 1;
    var front := ts[..n];
    if n > 0 {
      BucketIs(front);
      var s := WindowStart(ts);
      if s < n {
        assert front[..s] == ts[..s];
      }
    }
  }

  lemma {:induction false} WindowOf(ts: seq<int>, k: nat) returns (s: nat)
    requires k < |ts| && OrderedTimes(ts)
    ensures s == WindowAt(ts, k) <= k
    ensures BucketFor(ts[..k + 1]) == Some(Bucket(k + 1 - s, ts[s] + RATE_LIMIT_WINDOW_MS))
    ensures ts[k] < ts[s] + RATE_LIMIT_WINDOW_MS
  {
    s := WindowAt(ts, k);
    BucketIs(ts[..k + 1]);
  }

  /** Request k of an address is accepted exactly when it is among the first hundred of its window. */
  lemma GrantedIff(ts: seq<int>, k: nat)
    requires k < |ts| && OrderedTimes(ts)
    ensures Granted(ts, k) <==> k - WindowAt(ts, k) < RATE_LIMIT_MAX
  {
    var s := WindowOf(ts, k);
  }

  /** The requests of the first window up to k, all before k, were accepted when k is refused. */
  lemma RefusalHasCause(ts: seq<int>, k: nat)
    requires k < |ts| && OrderedTimes(ts) && !Granted(ts, k)
    ensures exists s: nat :: HundredBefore(ts, s, k)
  {
    var s := WindowOf(ts, k);
    GrantedIff(ts, k);
    forall i | s <= i < s + RATE_LIMIT_MAX ensures Granted(ts, i) {
      WindowBegins(ts, s, k, i);
      GrantedIff(ts, i);
    }
    assert HundredBefore(ts, s, k);
  }

  /** A hundred accepted requests in a row, all within the window length before request k. */
  ghost predicate HundredBefore(ts: seq<int>, s: nat, k: nat)
    requires k < |ts|
  {
    && s + RATE_LIMIT_MAX <= k
    && forall i :: s <= i < s + RATE_LIMIT_MAX ==> Granted(ts, i) && ts[k] - RATE_LIMIT_WINDOW_MS < ts[i] <= ts[k]
  }

  /** The start of k's window is also the start of the window of everything between. */
  lemma {:induction false} WindowBegins(ts: seq<int>, s: nat, k: nat, i: nat)
    requires k < |ts| && OrderedTimes(ts) && s == WindowAt(ts, k) && s <= i <= k
    ensures WindowAt(ts, i) == s
    decreases k
  {
    if i < k {
      assert ts[..k + 1][..k] == ts[..k];
      WindowBegins(ts, s, k - 1, i);
    }
  }

  // ----- Acceptances in an interval -----

  /** How many of the requests from i up to but not including j were accepted. */
  function GrantedCount(ts: seq<int>, i: nat, j: nat): nat
    requires i <= j <= |ts|
    decreases j - i
  {
    if i == j then 0 else GrantedCount(ts, i, j - 1) + (if Granted(ts, j - 1) then 1 else 0)
  }

  lemma {:induction false} CountAtMost(ts: seq<int>, i: nat, j: nat)
    requires i <= j <= |ts|
    ensures GrantedCount(ts, i, j) <= j - i
    decreases j - i
  {
    if i < j {
      CountAtMost(ts, i, j - 1);
    }
  }

  lemma {:induction false} CountSplit(ts: seq<int>, i: nat, m: nat, j: nat)
    requires i <= m <= j <= |ts|
    ensures GrantedCount(ts, i, j) == GrantedCount(ts, i, m) + GrantedCount(ts, m, j)
    decreases j - m
  {
    if m < j {
      CountSplit(ts, i, m, j - 1);
    }
  }

  /** One window accepts at most a hundred, less those before i. */
  lemma {:induction false} WindowCount(ts: seq<int>, s: nat, i: nat, j: nat)
    requires s <= i <= j <= |ts| && OrderedTimes(ts)
    requires forall k :: i <= k < j ==> WindowAt(ts, k) == s
    ensures GrantedCount(ts, i, j) <= if i - s <= RATE_LIMIT_MAX then RATE_LIMIT_MAX - (i - s) else 0
    decreases j - i
  {
    if i < j {
      WindowCount(ts, s, i, j - 1);
      GrantedIff(ts, j - 1);
      assert WindowAt(ts, j - 1) == s;
      CountAtMost(ts, i, j - 1);
    }
  }

  lemma OneWindow(ts: seq<int>, i: nat, j: nat)
    requires i < j <= |ts| && OrderedTimes(ts) && WindowAt(ts, j - 1) <= i
    ensures GrantedCount(ts, i, j) <= RATE_LIMIT_MAX
    ensures WindowAt(ts, j - 1) < i ==> GrantedCount(ts, i, j) <= RATE_LIMIT_MAX - 1
  {
    var s := WindowAt(ts, j - 1);
    forall k | i <= k < j ensures WindowAt(ts, k) == s { WindowBegins(ts, s, j - 1, k); }
    WindowCount(ts, s, i, j);
  }

  /** The window before the last one ended by the time the last one began. */
  lemma WindowBefore(ts: seq<int>, k: nat)
    requires k < |ts| && OrderedTimes(ts) && WindowAt(ts, k) > 0
    ensures var s := WindowAt(ts, k);
            ts[WindowAt(ts, s - 1)] + RATE_LIMIT_WINDOW_MS <= ts[s]
  {
    var s := WindowAt(ts, k);
    BucketIs(ts[..k + 1]);
    assert ts[..k + 1][..s] == ts[..s];
  }

  /**
   * Requests i to j - 1 of an address that lie within one window length: they touch at most
   * two windows, and the first request of the earlier one lies before the interval, so one less
   * than twice the maximum are accepted at most.
   */
  lemma IntervalBound(ts: seq<int>, i: nat, j: nat)
    requires i < j <= |ts| && OrderedTimes(ts) && ts[j - 1] < ts[i] + RATE_LIMIT_WINDOW_MS
    ensures GrantedCount(ts, i, j) <= 2 * RATE_LIMIT_MAX - 1
  {
    var last := WindowAt(ts, j - 1);
    if last <= i {
      OneWindow(ts, i, j);
    } else {
      WindowBefore(ts, j - 1);
      assert ts[last] <= ts[j - 1];
      OneWindow(ts, i, last);
      WindowBegins(ts, last, j - 1, j - 1);
      OneWindow(ts, last, j);
      CountSplit(ts, i, last, j);
    }
  }

  // ----- Back to traces -----

  lemma {:induction false} TimesOrdered(trace: seq<Request>, ip: string)
    requires Ordered(trace)
    ensures OrderedTimes(Times(trace, ip))
    ensures forall i :: 0 <= i < |Times(trace, ip)| ==>
            exists j :: 0 <= j < |trace| && trace[j].at == Times(trace, ip)[i]
  {
    if trace != [] {
      var front := trace[..|trace| - 1];
      TimesOrdered(front, ip);
      var ts, all := Times(front, ip), Times(trace, ip);
      forall i | 0 <= i < |all| ensures exists j :: 0 <= j < |trace| && trace[j].at == all[i] {
        if i < |ts| {
          var j :| 0 <= j < |front| && front[j].at == ts[i];
          assert trace[j].at == all[i];
        } else {
          assert trace[|front|].at == all[i];
        }
      }
      forall i | 0 <= i < |ts| ensures ts[i] <= trace[|front|].at {
        var j :| 0 <= j < |front| && front[j].at == ts[i];
        assert trace[j].at == ts[i];
      }
    }
  }

  /** Request i of a trace is answered as the request of its address that it is. */
  lemma AcceptedIsGranted(trace: seq<Request>, i: nat)
    requires i < |trace|
    ensures var ts := Times(trace[..i + 1], trace[i].ip);
            ts != [] && Accepted(trace, i) == Granted(ts, |ts| - 1) && |ts| - 1 == |Times(trace[..i], trace[i].ip)|
  {
    var ip := trace[i].ip;
    var before, ts := Times(trace[..i], ip), Times(trace[..i + 1], ip);
    assert trace[..i + 1][..i] == trace[..i];
    assert ts == before + [trace[i].at];
    OwnBucket(trace[..i], ip);
    assert ts[..|ts| - 1 + 1] == ts && ts[..|ts| - 1] == before;
  }

  /** A request is refused only after a hundred acceptances of its address within the window
      length before it. */
  lemma RefusedOnlyAfterHundred(trace: seq<Request>, i: nat)
    requires i < |trace| && Ordered(trace) && !Accepted(trace, i)
    ensures var (ts, k) := (Times(trace[..i + 1], trace[i].ip), |Times(trace[..i], trace[i].ip)|);
            k + 1 == |ts| && ts[k] == trace[i].at && exists s: nat :: HundredBefore(ts, s, k)
  {
    assert trace[..i + 1][..i] == trace[..i];
    TimesOrdered(trace[..i + 1], trace[i].ip);
    AcceptedIsGranted(trace, i);
    var ts := Times(trace[..i + 1], trace[i].ip);
    RefusalHasCause(ts, |ts| - 1);
  }

  /** Over any trace, any interval of a window length accepts less than twice the maximum from
      one address. */
  lemma AcceptedInInterval(trace: seq<Request>, ip: string, i: nat, j: nat)
    requires Ordered(trace) && i < j <= |Times(trace, ip)|
    requires Times(trace, ip)[j - 1] < Times(trace, ip)[i] + RATE_LIMIT_WINDOW_MS
    ensures GrantedCount(Times(trace, ip), i, j) <= 2 * RATE_LIMIT_MAX - 1
  {
    TimesOrdered(trace, ip);
    IntervalBound(Times(trace, ip), i, j);
  }

  // ----- The bound is reached -----

  /** One request, 99 more at the end of its window, and a hundred as the next one begins. */
  function BurstTimes(): (ts: seq<int>)
    ensures |ts| == 200 && OrderedTimes(ts)
  {
    seq(200, i => if i == 0 then 0 else if i < 100 then 59999 else 60000)
  }

  lemma {:induction false} BurstBuckets(k: nat)
    requires k < 200
    ensures BucketFor(BurstTimes()[..k + 1]) == Some(if k < 100 then Bucket(k + 1, 60000) else Bucket(k - 99, 120000))
  {
    var ts := BurstTimes();
    assert ts[..k + 1][..k] == ts[..k];
    if k > 0 {
      BurstBuckets(k - 1);
    } else {
      assert ts[..1] == [0];
    }
  }

  lemma {:induction false} AllGranted(ts: seq<int>, i: nat, j: nat)
    requires i <= j <= |ts| && forall k :: i <= k < j ==> Granted(ts, k)
    ensures GrantedCount(ts, i, j) == j - i
    decreases j - i
  {
    if i < j {
      AllGranted(ts, i, j - 1);
    }
  }

  function Burst(n: nat): seq<Request>
    requires n <= 200
  {
    seq(n, i requires 0 <= i < n => Request("a", BurstTimes()[i]))
  }

  lemma {:induction false} TimesOfBurst(n: nat)
    requires n <= 200
    ensures Times(Burst(n), "a") == BurstTimes()[..n]
  {
    if n > 0 {
      TimesOfBurst(n - 1);
      assert Burst(n)[..n - 1] == Burst(n - 1);
      assert BurstTimes()[..n] == BurstTimes()[..n - 1] + [BurstTimes()[n - 1]];
    }
  }

  /** A trace of one address in which 199 requests of two milliseconds are accepted. */
  lemma BoundIsReached()
    ensures var ts := Times(Burst(200), "a");
            && Ordered(Burst(200)) && |ts| == 200 && ts[199] < ts[1] + RATE_LIMIT_WINDOW_MS
            && GrantedCount(ts, 1, 200) == 2 * RATE_LIMIT_MAX - 1
  {
    TimesOfBurst(200);
    var ts := BurstTimes();
    assert ts[..200] == ts;
    forall k | 1 <= k < 200 ensures Granted(ts, k) { BurstBuckets(k); }
    AllGranted(ts, 1, 200);
  }
}
