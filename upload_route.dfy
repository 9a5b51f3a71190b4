// The upload API route (app/api/upload/route.ts): a per-IP fixed-window rate
// limiter over a mutable map of buckets, the client-address rule, the body
// check, and the status decisions of the four handlers. The clock (Date.now),
// the request headers and req.ip are parameters; the parsed JSON body is
// reduced to its top-level kind, which is all the body check looks at.

module UploadRoute {
  import opened Common
  import opened Text

  const RateLimitMax: nat := 30
  const WindowMs: int := 60000

  /** One IP's bucket: requests counted in the window that began at windowStart. */
  datatype Bucket = Bucket(count: nat, windowStart: int)

  /** The limiter's verdict for one request and the bucket it leaves behind. */
  datatype Decision = Decision(allowed: bool, bucket: Bucket)

  /**
   * rateLimit's rule for a bucket (None: no entry yet) at time now. A missing
   * or expired bucket restarts at count 1; a full one denies and stays as it
   * is; otherwise the count goes up by one.
   */
  function Admit(b: Option<Bucket>, now: int): (d: Decision)
    ensures b.None? || now - b.value.windowStart > WindowMs ==>
      d.allowed && d.bucket == Bucket(1, now)
    ensures b.Some? && now - b.value.windowStart <= WindowMs && b.value.count >= RateLimitMax ==>
      !d.allowed && d.bucket == b.value
    ensures b.Some? && now - b.value.windowStart <= WindowMs && b.value.count < RateLimitMax ==>
      d.allowed && d.bucket == Bucket(b.value.count + 1, b.value.windowStart)
  {
    if b.None? || now - b.value.windowStart > WindowMs then Decision(true, Bucket(1, now))
    else if b.value.count >= RateLimitMax then Decision(false, b.value)
    else Decision(true, Bucket(b.value.count + 1, b.value.windowStart))
  }

  /** A stored count lies in [1, 30]. */
  predicate InRange(b: Bucket)
  {
    1 <= b.count <= RateLimitMax
  }

  lemma AdmitKeepsRange(b: Option<Bucket>, now: int)
    requires b.Some? ==> InRange(b.value)
    ensures InRange(Admit(b, now).bucket)
  {
  }

  /** The number of requests allowed, one per entry of times, starting from bucket b. */
  function AllowedCount(b: Bucket, times: seq<int>): nat
    decreases |times|
  {
    if times == [] then 0
    else
      var d := Admit(Some(b), times[0]);
      (if d.allowed then 1 else 0) + AllowedCount(d.bucket, times[1..])
  }

  /** Within one window, a bucket with count c lets at most 30 - c further requests through. */
  lemma {:induction false} WindowCap(b: Bucket, times: seq<int>)
    requires b.count <= RateLimitMax
    requires forall i :: 0 <= i < |times| ==> times[i] - b.windowStart <= WindowMs
    ensures AllowedCount(b, times) <= RateLimitMax - b.count
    decreases |times|
  {
    if times != [] {
      var d := Admit(Some(b), times[0]);
      assert d.bucket.windowStart == b.windowStart;
      WindowCap(d.bucket, times[1..]);
    }
  }

  /**
   * The first request from an IP opens a window at t0; of it and all later
   * requests no more than 60000 ms after t0, at most 30 are allowed.
   */
  lemma AtMostThirtyPerWindow(t0: int, times: seq<int>)
    requires forall i :: 0 <= i < |times| ==> times[i] - t0 <= WindowMs
    ensures Admit(None, t0).allowed
    ensures 1 + AllowedCount(Admit(None, t0).bucket, times) <= RateLimitMax
  {
    WindowCap(Bucket(1, t0), times);
  }

  /** The window is closed at its end: 60000 ms after its start a full bucket still denies, 1 ms later it resets. */
  lemma WindowBoundary(w: int)
    ensures !Admit(Some(Bucket(RateLimitMax, w)), w + WindowMs).allowed
    ensures Admit(Some(Bucket(RateLimitMax, w)), w + WindowMs + 1) == Decision(true, Bucket(1, w + WindowMs + 1))
  {
  }

  /**
   * The client address: the first comma-separated entry of
   * x-forwarded-for, trimmed; if that is absent or empty, req.ip; if that is
   * absent or empty, "unknown".
   */
  function GetIp(forwardedFor: Option<string>, reqIp: Option<string>): (ip: string)
    ensures ip != ""
    ensures forwardedFor.Some? && Trim(Before(forwardedFor.value, ',')) != "" ==>
      ip == Trim(Before(forwardedFor.value, ',')) && ',' !in ip && !IsJsSpace(ip[0]) && !IsJsSpace(ip[|ip| - 1])
    ensures (forwardedFor.None? || Trim(Before(forwardedFor.value, ',')) == "") && reqIp.Some? && reqIp.value != "" ==>
      ip == reqIp.value
    ensures (forwardedFor.None? || Trim(Before(forwardedFor.value, ',')) == "") && (reqIp.None? || reqIp.value == "") ==>
      ip == "unknown"
  {
    var first := if forwardedFor.Some? then Trim(Split(forwardedFor.value, ',')[0]) else "";
    if first != "" then
      TrimKeepsOut(Before(forwardedFor.value, ','), ',');
      first
    else if reqIp.Some? && reqIp.value != "" then reqIp.value
    else "unknown"
  }

  /** Trimming never brings in a character that was not there. */
  lemma TrimKeepsOut(s: string, c: char)
    requires c !in s
    ensures c !in Trim(s)
  {
    var u := Trim(s);
    var k := |s| - |TrimStart(s)|;
    assert OccursAt(s, u, k) by {
      TrimSpan(s);
    }
    forall j | 0 <= j < |u| ensures u[j] != c {
      assert u[j] == s[k + j];
    }
  }

  /** The request body as validateBody sees it after req.json(). */
  datatype Body =
    | Malformed   // req.json() rejected
    | JNull
    | JScalar     // a boolean, number or string
    | JArray
    | JObject

  /** validateBody's outcome: no check (GET), the accepted payload, or an error message. */
  datatype Validation = Skipped | Accepted(payload: Body) | Rejected(error: string)

  /** validateBody. */
  function ValidateBody(httpMethod: string, contentType: Option<string>, body: Body): (v: Validation)
    ensures httpMethod == "GET" <==> v.Skipped?
    ensures httpMethod != "GET" && (contentType.None? || !Contains(contentType.value, "application/json")) ==>
      v == Rejected("Invalid content type")
    ensures v.Accepted? ==> v.payload == body && body.JObject?
    ensures httpMethod != "GET" && contentType.Some? && Contains(contentType.value, "application/json") ==>
      (body.JObject? <==> v.Accepted?) &&
      (body.Malformed? || body.JNull? || body.JScalar? ==> v == Rejected("Invalid JSON body")) &&
      (body.JArray? ==> v == Rejected("Invalid payload"))
  {
    if httpMethod == "GET" then Skipped
    else if contentType.None? || !Contains(contentType.value, "application/json") then Rejected("Invalid content type")
    else if body.Malformed? || body.JNull? || body.JScalar? then Rejected("Invalid JSON body")
    else if body.JArray? then Rejected("Invalid payload")
    else Accepted(body)
  }

  /** A response: its status and, for an error, the message of its JSON body. */
  datatype Response = Response(status: nat, error: Option<string>)

  const TooManyRequests := Response(429, Some("Rate limit exceeded"))
  const MethodNotAllowed := Response(405, Some("Method Not Allowed"))

  /** The headers and peer address of a request, and its parsed body. */
  datatype Request = Request(httpMethod: string, forwardedFor: Option<string>, reqIp: Option<string>,
                             contentType: Option<string>, body: Body)

  /** The process-wide bucket map. */
  class Limiter {
    var store: map<string, Bucket>

    /** Every stored count lies in [1, 30]. */
    predicate Valid()
      reads this
    {
      forall ip :: ip in store ==> InRange(store[ip])
    }

    constructor ()
      ensures Valid() && store == map[]
    {
      store := map[];
    }

    /** rateLimit(ip) at time now: only ip's bucket is read and written. */
    method RateLimit(ip: string, now: int) returns (allowed: bool)
      requires Valid()
      modifies this
      ensures Valid()
      ensures var d := Admit(if ip in old(store) then Some(old(store)[ip]) else None, now);
        allowed == d.allowed && store == old(store)[ip := d.bucket]
      ensures forall other :: other != ip ==>
        (other in store <==> other in old(store)) && (other in store ==> store[other] == old(store)[other])
    {
      var bucket := if ip in store then Some(store[ip]) else None;
      AdmitKeepsRange(bucket, now);
      if bucket.None? || now - bucket.value.windowStart > WindowMs {
        store := store[ip := Bucket(1, now)];
        return true;
      }
      if bucket.value.count >= RateLimitMax {
        return false;
      }
      store := store[ip := Bucket(bucket.value.count + 1, bucket.value.windowStart)];
      return true;
    }

    /** GET: 429 when limited, otherwise 200; the body is never looked at. */
    method Get(req: Request, now: int) returns (resp: Response)
      requires Valid()
      modifies this
      ensures Valid()
      ensures var ip := GetIp(req.forwardedFor, req.reqIp);
        var d := Admit(if ip in old(store) then Some(old(store)[ip]) else None, now);
        store == old(store)[ip := d.bucket] &&
        resp == if d.allowed then Response(200, None) else TooManyRequests
    {
      var ip := GetIp(req.forwardedFor, req.reqIp);
      var allowed := RateLimit(ip, now);
      if !allowed {
        return TooManyRequests;
      }
      return Response(200, None);
    }

    /** POST: the rate limit first (429), then the body check (400), otherwise 200. */
    method Post(req: Request, now: int) returns (resp: Response)
      requires Valid()
      modifies this
      ensures Valid()
      ensures var ip := GetIp(req.forwardedFor, req.reqIp);
        var d := Admit(if ip in old(store) then Some(old(store)[ip]) else None, now);
        var v := ValidateBody(req.httpMethod, req.contentType, req.body);
        store == old(store)[ip := d.bucket] &&
        (!d.allowed ==> resp == TooManyRequests) &&
        (d.allowed && v.Rejected? ==> resp == Response(400, Some(v.error))) &&
        (d.allowed && !v.Rejected? ==> resp == Response(200, None))
    {
      var ip := GetIp(req.forwardedFor, req.reqIp);
      var allowed := RateLimit(ip, now);
      if !allowed {
        return TooManyRequests;
      }
      var v := ValidateBody(req.httpMethod, req.contentType, req.body);
      if v.Rejected? {
        return Response(400, Some(v.error));
      }
      return Response(200, None);
    }
  }

  /** PUT and DELETE: always 405. */
  function Put(): (resp: Response)
    ensures resp.status == 405 && resp.error == Some("Method Not Allowed")
  {
    MethodNotAllowed
  }

  function Delete(): (resp: Response)
    ensures resp.status == 405 && resp.error == Some("Method Not Allowed")
  {
    MethodNotAllowed
  }
}
