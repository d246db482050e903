/**
 * The per-IP rate limiter of rate/rate.go.  Times are integers in the unit
 * of the clock (time.Now()), and the window is a duration in that unit.
 *
 * `Next` is the specification of one request: whether it is admitted and
 * what the map of request records becomes.  The class `RateLimitConfig`
 * updates its map step by step as rate.go does, and its method is
 * proved to agree with `Next`.
 */
module Rate {

  /** RequestInfo (rate/rate.go:10-13). */
  datatype RequestInfo = RequestInfo(lastAccessTime: int, requestCount: int)

  /** The verdict on one request and the request records afterwards. */
  datatype Reply = Reply(admitted: bool, requestInfo: map<string, RequestInfo>)

  /** Every recorded count is at least one. */
  predicate CountsPositive(requestInfo: map<string, RequestInfo>) {
    forall ip :: ip in requestInfo ==> requestInfo[ip].requestCount >= 1
  }

  /** RateLimitMiddleware (rate/rate.go:31-58) for a request from `ip` at instant `now`. */
  function Next(maxRequests: int, timeWindow: int, requestInfo: map<string, RequestInfo>, ip: string, now: int)
    : (r: Reply)
    ensures ip in r.requestInfo
    ensures r.admitted ==> r.requestInfo[ip].lastAccessTime == now
    ensures !r.admitted ==>
      && ip in requestInfo && now - requestInfo[ip].lastAccessTime <= timeWindow
      && r.requestInfo[ip] == requestInfo[ip].(requestCount := requestInfo[ip].requestCount + 1)
      && r.requestInfo[ip].requestCount > maxRequests
  {
    if ip !in requestInfo then Reply(true, requestInfo[ip := RequestInfo(now, 1)])
    else
      var info := requestInfo[ip];
      if now - info.lastAccessTime > timeWindow then Reply(true, requestInfo[ip := RequestInfo(now, 1)])
      else
        var count := info.requestCount + 1;
        if count > maxRequests then Reply(false, requestInfo[ip := info.(requestCount := count)])
        else Reply(true, requestInfo[ip := RequestInfo(now, count)])
  }

  /** The verdicts on a series of requests from one IP at the instants `times`. */
  function Run(maxRequests: int, timeWindow: int, requestInfo: map<string, RequestInfo>, ip: string, times: seq<int>)
    : (verdicts: seq<bool>)
    ensures |verdicts| == |times|
    decreases |times|
  {
    if times == [] then []
    else
      var r := Next(maxRequests, timeWindow, requestInfo, ip, times[0]);
      [r.admitted] + Run(maxRequests, timeWindow, r.requestInfo, ip, times[1..])
  }

  /** RateLimitConfig (rate/rate.go:17-21). */
  class RateLimitConfig {
    const maxRequests: int
    const timeWindow: int
    var requestInfo: map<string, RequestInfo>

    predicate Valid()
      reads this
    {
      CountsPositive(requestInfo)
    }

    /** NewRateLimitConfig (rate/rate.go:23-29). */
    constructor (maxRequests: int, timeWindow: int)
      ensures this.maxRequests == maxRequests && this.timeWindow == timeWindow
      ensures requestInfo == map[] && Valid()
    {
      this.maxRequests := maxRequests;
      this.timeWindow := timeWindow;
      requestInfo := map[];
    }

    /**
     * RateLimitMiddleware (rate/rate.go:31-58); `admitted` is false exactly
     * when rate.go answers 429 and aborts.
     */
    method RateLimitMiddleware(ip: string, now: int) returns (admitted: bool)
      requires Valid()
      modifies this
      ensures Valid()
      ensures Reply(admitted, requestInfo) == Next(maxRequests, timeWindow, old(requestInfo), ip, now)
    {
      if ip !in requestInfo {
        requestInfo := requestInfo[ip := RequestInfo(now, 1)];
        return true;
      }
      var info := requestInfo[ip];
      if now - info.lastAccessTime > timeWindow {
        info := info.(requestCount := 1);
        info := info.(lastAccessTime := now);
        requestInfo := requestInfo[ip := info];
        return true;
      }
      // rate.go increments through the stored pointer, so the new count
      // is recorded whether or not the request is then rejected.
      info := info.(requestCount := info.requestCount + 1);
      requestInfo := requestInfo[ip := info];
      if info.requestCount > maxRequests {
        return false;
      }
      info := info.(lastAccessTime := now);
      requestInfo := requestInfo[ip := info];
      return true;
    }
  }

  /** Four requests in quick succession from one IP, against a limit of three per second. */
  method FourRapidRequests() returns (verdicts: seq<bool>)
    ensures verdicts == [true, true, true, false]
  {
    var second := 1000000000;   // one second of time.Duration, in nanoseconds
    var limiter := new RateLimitConfig(3, second);
    var start := 1700000000 * second;
    var a := limiter.RateLimitMiddleware("1.2.3.4", start);
    var b := limiter.RateLimitMiddleware("1.2.3.4", start + 1000);
    var c := limiter.RateLimitMiddleware("1.2.3.4", start + 2000);
    var d := limiter.RateLimitMiddleware("1.2.3.4", start + 3000);
    verdicts := [a, b, c, d];
  }
}
