// The edge middleware (middleware.ts): the Content-Security-Policy string,
// the HTTP-to-HTTPS redirect decision, and the seven security headers set on
// every other response. NODE_ENV and the request headers are parameters; a
// response is either a redirect (status and target) or the pass-through
// response with its header map.

module Middleware {
  import opened Common
  import opened Text

  /** isDev: NODE_ENV is anything but "production" (including unset). */
  function IsDev(nodeEnv: Option<string>): (dev: bool)
    ensures !dev <==> nodeEnv == Some("production")
  {
    nodeEnv != Some("production")
  }

  const ScriptSrcBase := "script-src 'self' 'unsafe-inline'"
  const UnsafeEval := "'unsafe-eval'"

  /** The twelve CSP directives, in order. */
  function Directives(isDev: bool): (ds: seq<string>)
    ensures |ds| == 12
    ensures ds[1] == ScriptSrcBase + (if isDev then " " + UnsafeEval else "")
  {
    [ "default-src 'self'",
      ScriptSrcBase + (if isDev then " " + UnsafeEval else ""),
      "style-src 'self' 'unsafe-inline'",
      "img-src 'self' data: blob:",
      "font-src 'self' data:",
      "connect-src 'self' https: wss:",
      "media-src 'self' https: data: blob:",
      "frame-ancestors 'none'",
      "form-action 'self'",
      "base-uri 'self'",
      "object-src 'none'",
      "upgrade-insecure-requests" ]
  }

  /** csp: the directives joined by "; ". */
  function Csp(isDev: bool): (policy: string)
    // every directive appears in the policy
    ensures forall i :: 0 <= i < 12 ==> Contains(policy, Directives(isDev)[i])
  {
    JoinContainsEach(Directives(isDev), "; ");
    Join(Directives(isDev), "; ")
  }

  /** Only the script-src directive depends on the environment. */
  lemma OnlyScriptSrcDiffers(i: nat)
    requires i < 12 && i != 1
    ensures Directives(true)[i] == Directives(false)[i]
  {
  }

  /** 'unsafe-eval' is allowed in the policy exactly outside production. */
  lemma UnsafeEvalOnlyInDev(isDev: bool)
    ensures Contains(Csp(isDev), UnsafeEval) <==> isDev
  {
    if isDev {
      DevAllowsEval();
    } else {
      ProductionForbidsEval();
    }
  }

  lemma DevAllowsEval()
    ensures Contains(Csp(true), UnsafeEval)
  {
    var ds := Directives(true);
    JoinContains(ds, "; ", 1);
    var d := ds[1];
    assert d[|ScriptSrcBase| + 1..] == UnsafeEval;
    assert OccursAt(d, UnsafeEval, |ScriptSrcBase| + 1);
    ContainsTransitive(Csp(true), d, UnsafeEval);
  }

  lemma ProductionForbidsEval()
    ensures !Contains(Csp(false), UnsafeEval)
  {
    var ds := Directives(false);
    ProductionDirectivesLackV();
    JoinExcludes(ds, "; ", 'v');
    assert UnsafeEval[9] == 'v';
    MissingCharExcludes(Csp(false), UnsafeEval, 'v');
  }

  /** No character of s is a 'v'. */
  predicate LacksV(s: string)
  {
    forall i :: 0 <= i < |s| ==> s[i] != 'v'
  }

  /** No production directive holds the letter 'v', which 'unsafe-eval' does. */
  lemma ProductionDirectivesLackV()
    ensures forall i :: 0 <= i < 12 ==> 'v' !in Directives(false)[i]
  {
    FirstDirectivesLackV();
    SecondDirectivesLackV();
    ThirdDirectivesLackV();
    LastDirectivesLackV();
  }

  /** Production directives 0 to 2, each checked against its literal. */
  lemma FirstDirectivesLackV()
    ensures forall i :: 0 <= i < 3 ==> LacksV(Directives(false)[i])
  {
    var ds := Directives(false);
    assert LacksV(ds[0]) by { assert ds[0] == "default-src 'self'"; }
    assert LacksV(ds[1]) by { assert ds[1] == "script-src 'self' 'unsafe-inline'"; }
    assert LacksV(ds[2]) by { assert ds[2] == "style-src 'self' 'unsafe-inline'"; }
  }

  /** Production directives 3 to 5, each checked against its literal. */
  lemma SecondDirectivesLackV()
    ensures forall i :: 3 <= i < 6 ==> LacksV(Directives(false)[i])
  {
    var ds := Directives(false);
    assert LacksV(ds[3]) by { assert ds[3] == "img-src 'self' data: blob:"; }
    assert LacksV(ds[4]) by { assert ds[4] == "font-src 'self' data:"; }
    assert LacksV(ds[5]) by { assert ds[5] == "connect-src 'self' https: wss:"; }
  }

  /** Production directives 6 to 8, each checked against its literal. */
  lemma ThirdDirectivesLackV()
    ensures forall i :: 6 <= i < 9 ==> LacksV(Directives(false)[i])
  {
    var ds := Directives(false);
    assert LacksV(ds[6]) by { assert ds[6] == "media-src 'self' https: data: blob:"; }
    assert LacksV(ds[7]) by { assert ds[7] == "frame-ancestors 'none'"; }
    assert LacksV(ds[8]) by { assert ds[8] == "form-action 'self'"; }
  }

  /** Production directives 9 to 11, each checked against its literal. */
  lemma LastDirectivesLackV()
    ensures forall i :: 9 <= i < 12 ==> LacksV(Directives(false)[i])
  {
    var ds := Directives(false);
    assert LacksV(ds[9]) by { assert ds[9] == "base-uri 'self'"; }
    assert LacksV(ds[10]) by { assert ds[10] == "object-src 'none'"; }
    assert LacksV(ds[11]) by { assert ds[11] == "upgrade-insecure-requests"; }
  }

  /** The parts of a request URL; only the protocol is ever rewritten. */
  datatype Url = Url(protocol: string, host: string, pathAndQuery: string)

  /** The request as the middleware reads it. */
  datatype Request = Request(url: Url, hostHeader: Option<string>, forwardedProto: Option<string>)

  datatype Response =
    | Redirect(status: nat, location: Url)
    | Next(headers: map<string, string>)

  /** The host header, with a missing or empty one read as "". */
  function HostOf(req: Request): string
  {
    if req.hostHeader.Some? then req.hostHeader.value else ""
  }

  /** The redirect condition: plain HTTP at the proxy, and not a local host. */
  predicate ShouldRedirect(req: Request): (r: bool)
    ensures req.forwardedProto != Some("http") ==> !r
    ensures r ==> HostOf(req) != "localhost" && HostOf(req) != "127.0.0.1"
  {
    req.forwardedProto == Some("http") &&
    !StartsWith(HostOf(req), "localhost") &&
    !StartsWith(HostOf(req), "127.0.0.1")
  }

  /** The seven security headers of a pass-through response. */
  function SecurityHeaders(isDev: bool): (h: map<string, string>)
    ensures h.Keys == {"Content-Security-Policy", "Referrer-Policy", "X-Content-Type-Options",
                       "X-Frame-Options", "Permissions-Policy", "Strict-Transport-Security", "X-XSS-Protection"}
    ensures h["Content-Security-Policy"] == Csp(isDev)
    ensures h["X-Frame-Options"] == "DENY" && h["X-Content-Type-Options"] == "nosniff"
  {
    map[
      "Content-Security-Policy" := Csp(isDev),
      "Referrer-Policy" := "strict-origin-when-cross-origin",
      "X-Content-Type-Options" := "nosniff",
      "X-Frame-Options" := "DENY",
      "Permissions-Policy" := "camera=(), microphone=(), geolocation=()",
      "Strict-Transport-Security" := "max-age=63072000; includeSubDomains; preload",
      "X-XSS-Protection" := "0"
    ]
  }

  /**
   * middleware(req): a 308 to the same URL over https when the condition
   * holds, returned before any header is set; otherwise the pass-through
   * response with the headers set one after another.
   */
  method HandleRequest(req: Request, isDev: bool) returns (res: Response)
    ensures res.Redirect? <==> ShouldRedirect(req)
    ensures res.Redirect? ==> res.status == 308 && res.location == req.url.(protocol := "https:")
    ensures res.Next? ==> res.headers == SecurityHeaders(isDev)
  {
    var host := HostOf(req);
    var proto := req.forwardedProto;
    if proto == Some("http") && !StartsWith(host, "localhost") && !StartsWith(host, "127.0.0.1") {
      var redirectUrl := req.url;
      redirectUrl := redirectUrl.(protocol := "https:");
      return Redirect(308, redirectUrl);
    }
    var headers: map<string, string> := map[];
    headers := headers["Content-Security-Policy" := Csp(isDev)];
    headers := headers["Referrer-Policy" := "strict-origin-when-cross-origin"];
    headers := headers["X-Content-Type-Options" := "nosniff"];
    headers := headers["X-Frame-Options" := "DENY"];
    headers := headers["Permissions-Policy" := "camera=(), microphone=(), geolocation=()"];
    headers := headers["Strict-Transport-Security" := "max-age=63072000; includeSubDomains; preload"];
    headers := headers["X-XSS-Protection" := "0"];
    return Next(headers);
  }

  /** A missing or "https" forwarded protocol never redirects. */
  lemma SecureOrUnknownProtoPasses(req: Request)
    requires req.forwardedProto.None? || req.forwardedProto == Some("https")
    ensures !ShouldRedirect(req)
  {
  }

  /** A missing host header counts as "" and is redirected under plain HTTP. */
  lemma MissingHostRedirects(url: Url)
    ensures ShouldRedirect(Request(url, None, Some("http")))
  {
    assert !StartsWith("", "localhost") && !StartsWith("", "127.0.0.1");
  }

  /**
   * The local-host exemption is a prefix test: any host that begins with
   * "localhost", such as "localhost.example.com", is served over plain HTTP.
   */
  lemma LocalPrefixExempt(url: Url, rest: string)
    ensures !ShouldRedirect(Request(url, Some("localhost" + rest), Some("http")))
    ensures !ShouldRedirect(Request(url, Some("127.0.0.1" + rest), Some("http")))
  {
  }

  /** Following the redirect settles: the https request it leads to passes through. */
  lemma RedirectSettles(req: Request)
    requires ShouldRedirect(req)
    ensures var next := Request(req.url.(protocol := "https:"), req.hostHeader, Some("https"));
      !ShouldRedirect(next) && next.url.host == req.url.host && next.url.pathAndQuery == req.url.pathAndQuery
  {
  }
}
