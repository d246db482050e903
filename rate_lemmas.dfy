/** Properties of the rate limiter's step function `Rate.Next` and of runs of it. */
module RateLemmas {
  import opened Rate

  /** A request from an unseen IP is admitted and recorded with count 1 at `now`. */
  lemma UnseenIpIsAdmitted(maxRequests: int, timeWindow: int, m: map<string, RequestInfo>, ip: string, now: int)
    requires ip !in m
    ensures Next(maxRequests, timeWindow, m, ip, now) == Reply(true, m[ip := RequestInfo(now, 1)])
  {
  }

  /**
   * A gap strictly longer than the window resets the record and admits; a
   * gap of exactly the window does not reset.
   */
  lemma GapBeyondWindowResets(maxRequests: int, timeWindow: int, m: map<string, RequestInfo>, ip: string, now: int)
    requires ip in m
    ensures now - m[ip].lastAccessTime > timeWindow ==>
      Next(maxRequests, timeWindow, m, ip, now) == Reply(true, m[ip := RequestInfo(now, 1)])
    ensures now - m[ip].lastAccessTime == timeWindow ==>
      Next(maxRequests, timeWindow, m, ip, now).requestInfo[ip].requestCount == m[ip].requestCount + 1
  {
  }

  /**
   * Inside the window the count goes up by exactly one; the request is
   * rejected iff the new count exceeds the limit; a rejection keeps the
   * last access time and an admission moves it to `now`.
   */
  lemma InWindowCounts(maxRequests: int, timeWindow: int, m: map<string, RequestInfo>, ip: string, now: int)
    requires ip in m && now - m[ip].lastAccessTime <= timeWindow
    ensures var r := Next(maxRequests, timeWindow, m, ip, now);
      && r.requestInfo[ip].requestCount == m[ip].requestCount + 1
      && (r.admitted <==> m[ip].requestCount + 1 <= maxRequests)
      && (!r.admitted ==> r.requestInfo[ip].lastAccessTime == m[ip].lastAccessTime)
      && (r.admitted ==> r.requestInfo[ip].lastAccessTime == now)
  {
  }

  /** Only the requesting IP's record is created or changed, and no record is ever removed. */
  lemma OnlyOwnRecordChanges(maxRequests: int, timeWindow: int, m: map<string, RequestInfo>, ip: string, now: int)
    ensures var r := Next(maxRequests, timeWindow, m, ip, now);
      && r.requestInfo.Keys == m.Keys + {ip}
      && (forall other :: other in m && other != ip ==> r.requestInfo[other] == m[other])
  {
  }

  /** The first request and a reset request are admitted whatever the limit, even a limit below one. */
  lemma FreshOrResetAlwaysAdmitted(maxRequests: int, timeWindow: int, m: map<string, RequestInfo>, ip: string, now: int)
    requires ip !in m || now - m[ip].lastAccessTime > timeWindow
    ensures Next(maxRequests, timeWindow, m, ip, now).admitted
    ensures Next(maxRequests, timeWindow, m, ip, now).requestInfo[ip] == RequestInfo(now, 1)
  {
  }

  /** Every recorded count stays at least one. */
  lemma CountsStayPositive(maxRequests: int, timeWindow: int, m: map<string, RequestInfo>, ip: string, now: int)
    requires CountsPositive(m)
    ensures CountsPositive(Next(maxRequests, timeWindow, m, ip, now).requestInfo)
  {
  }

  /**
   * The last access time the record holds when request `i` of `times`
   * arrives, if it held `a` before the first one and `left` more requests
   * could be admitted: each admission moves it to that request's instant,
   * and a rejection leaves it where it is.
   */
  function Anchor(a: int, times: seq<int>, left: int, i: nat): int
    requires i <= |times|
  {
    if left <= 0 || i == 0 then a else times[(if i < left then i else left) - 1]
  }

  /**
   * Requests that each arrive within `timeWindow` of the record's last
   * access at that moment (none resets the record): the i-th is admitted
   * iff the count it brings the record to, `requestCount + i + 1`, is within
   * the limit.
   */
  lemma {:induction false} AnchoredRun(maxRequests: int, timeWindow: int, m: map<string, RequestInfo>, ip: string,
                                       times: seq<int>)
    requires ip in m
    requires forall i :: 0 <= i < |times| ==>
      times[i] - Anchor(m[ip].lastAccessTime, times, maxRequests - m[ip].requestCount, i) <= timeWindow
    ensures forall i :: 0 <= i < |times| ==>
      Run(maxRequests, timeWindow, m, ip, times)[i] == (m[ip].requestCount + i + 1 <= maxRequests)
    decreases |times|
  {
    if times != [] {
      var a, k := m[ip].lastAccessTime, m[ip].requestCount;
      assert times[0] - Anchor(a, times, maxRequests - k, 0) <= timeWindow;
      var r := Next(maxRequests, timeWindow, m, ip, times[0]);
      InWindowCounts(maxRequests, timeWindow, m, ip, times[0]);
      var rest := times[1..];
      forall j | 0 <= j < |rest|
        ensures rest[j] - Anchor(r.requestInfo[ip].lastAccessTime, rest, maxRequests - (k + 1), j) <= timeWindow
      {
        assert rest[j] == times[j + 1];
        assert times[j + 1] - Anchor(a, times, maxRequests - k, j + 1) <= timeWindow;
        if j > 0 && maxRequests - (k + 1) > 0 {
          var n := if j < maxRequests - (k + 1) then j else maxRequests - (k + 1);
          assert rest[n - 1] == times[n];
        }
      }
      AnchoredRun(maxRequests, timeWindow, r.requestInfo, ip, rest);
      var run := Run(maxRequests, timeWindow, m, ip, times);
      forall i | 0 <= i < |times|
        ensures run[i] == (k + i + 1 <= maxRequests)
      {
        if i > 0 {
          assert run[i] == Run(maxRequests, timeWindow, r.requestInfo, ip, rest)[i - 1];
        }
      }
    }
  }

  /**
   * Starting from an unseen IP, or from a request that resets the record,
   * with a limit of N >= 1: while each of the first N requests comes within
   * the window of the one before it (the anchor moves with every
   * admission), and every later one within the window of the N-th (the
   * anchor stays put while requests are rejected), exactly the first N are
   * admitted and all the others rejected.
   */
  lemma BurstAdmitsExactlyLimit(maxRequests: int, timeWindow: int, m: map<string, RequestInfo>, ip: string,
                                times: seq<int>)
    requires maxRequests >= 1 && times != []
    requires ip !in m || times[0] - m[ip].lastAccessTime > timeWindow
    requires forall i :: 0 < i < |times| && i < maxRequests ==> times[i] - times[i - 1] <= timeWindow
    requires forall i :: maxRequests <= i < |times| ==> times[i] - times[maxRequests - 1] <= timeWindow
    ensures forall i :: 0 <= i < |times| ==> Run(maxRequests, timeWindow, m, ip, times)[i] == (i < maxRequests)
  {
    var r := Next(maxRequests, timeWindow, m, ip, times[0]);
    assert r.requestInfo[ip] == RequestInfo(times[0], 1);
    var later := times[1..];
    forall j | 0 <= j < |later|
      ensures later[j] - Anchor(times[0], later, maxRequests - 1, j) <= timeWindow
    {
      assert later[j] == times[j + 1];
      if j > 0 && maxRequests - 1 > 0 {
        var n := if j < maxRequests - 1 then j else maxRequests - 1;
        assert later[n - 1] == times[n];
      }
    }
    AnchoredRun(maxRequests, timeWindow, r.requestInfo, ip, later);
    var run := Run(maxRequests, timeWindow, m, ip, times);
    forall i | 0 <= i < |run|
      ensures run[i] == (i < maxRequests)
    {
      if i > 0 {
        assert run[i] == Run(maxRequests, timeWindow, r.requestInfo, ip, later)[i - 1];
      }
    }
  }

  /**
   * A rejection does not move the anchor: with a limit of 2 in a window of
   * 10, the request at 14 is rejected (9 after the last admission at 5),
   * and the one at 16 resets the record (11 after it), although it comes
   * only 2 after the request before it.
   */
  lemma RejectionKeepsTheAnchor()
    ensures Run(2, 10, map[], "a", [0, 5, 14, 16]) == [true, true, false, true]
  {
  }

  /** The number of admissions in a list of verdicts. */
  function Admitted(verdicts: seq<bool>): nat
    decreases |verdicts|
  {
    if verdicts == [] then 0 else (if verdicts[0] then 1 else 0) + Admitted(verdicts[1..])
  }

  /** Verdicts that admit exactly the first n of at least n requests admit n in total. */
  lemma {:induction false} AdmittedPrefix(verdicts: seq<bool>, n: nat)
    requires n <= |verdicts|
    requires forall i :: 0 <= i < |verdicts| ==> verdicts[i] == (i < n)
    ensures Admitted(verdicts) == n
    decreases |verdicts|
  {
    if verdicts != [] {
      var rest := verdicts[1..];
      assert forall i :: 0 <= i < |rest| ==> rest[i] == verdicts[i + 1];
      if n == 0 {
        AdmittedPrefix(rest, 0);
      } else {
        AdmittedPrefix(rest, n - 1);
      }
    }
  }

  /** 2N requests from one IP that keep within the window of the last admission admit exactly N. */
  lemma TwiceTheLimitAdmitsHalf(maxRequests: int, timeWindow: int, m: map<string, RequestInfo>, ip: string,
                                times: seq<int>)
    requires maxRequests >= 1 && |times| == 2 * maxRequests
    requires ip !in m || times[0] - m[ip].lastAccessTime > timeWindow
    requires forall i :: 0 < i < |times| && i < maxRequests ==> times[i] - times[i - 1] <= timeWindow
    requires forall i :: maxRequests <= i < |times| ==> times[i] - times[maxRequests - 1] <= timeWindow
    ensures Admitted(Run(maxRequests, timeWindow, m, ip, times)) == maxRequests
  {
    BurstAdmitsExactlyLimit(maxRequests, timeWindow, m, ip, times);
    AdmittedPrefix(Run(maxRequests, timeWindow, m, ip, times), maxRequests);
  }
}
