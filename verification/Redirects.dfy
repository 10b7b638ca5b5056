/** The two redirect followers (src/bridge/http_sync.rs): one over the I/O bridge (hyper), one
    over ureq. The server, URL joining and cookie matching are arbitrary functions. Redirect
    rules are those of section 15.4 of RFC 9110. */
module Redirects {
  import opened Wrappers
  import opened HeaderViews

  /** `verb` is the request method. */
  datatype Request = Request(verb: string, url: string, body: string, headers: Headers)

  /** A response as it is on the wire: header lines in order, names possibly repeated. */
  datatype Raw = Raw(status: nat, lines: Lines, body: string)

  datatype Reply = Answer(raw: Raw) | Unreachable(message: string)

  /** Cookies stored for a URL. A jar is the history of what was stored in it. */
  datatype Stored = Stored(url: string, cookies: seq<string>)

  type Jar = seq<Stored>

  ghost function Choose(names: set<string>): string {
    if names == {} then "" else var name :| name in names; name
  }

  /** Picks one of some names. */
  type Chooser = pick: set<string> -> string | forall names :: names != {} ==> pick(names) in names
    ghost witness names => Choose(names)

  /** The world outside: the server's reply to the latest of a series of requests, `Url::join`,
      the jar's Cookie text for a URL, error categories, the metric group prefix, and which of
      several differently spelled Cookie headers a map walk meets first, the clients' views of a
      response, which requests each client can build, and what it says of one it cannot. */
  datatype Env = Env(
    server: seq<Request> -> Reply,
    join: (string, string) -> Option<string>,
    cookieText: (Jar, string) -> Option<string>,
    parses: string -> bool,
    categorize: string -> (string, string),
    groupPrefix: string,
    first: Chooser,
    views: Views,
    builds: (Client, Request) -> bool,
    refusal: (Client, Request) -> string)

  datatype Response = Response(status: nat, headers: Headers, cookies: seq<string>, body: string, error: Option<(string, string)>)

  datatype Metric = Metric(name: string, status: nat, error: Option<string>, tags: map<string, string>)

  // ---------------------------------------------------------------- one hop

  /** What the loops carry from one request to the next. */
  datatype Hop = Hop(verb: string, url: string, body: Option<string>, headers: Headers)

  /** One turn: the jar before it, and the reply to its request. */
  datatype Exchange = Exchange(hop: Hop, jar: Jar, reply: Reply)

  predicate IsCookieName(name: string) {
    Lower(name) == "cookie"
  }

  /** The outgoing headers: the jar's cookies join a Cookie header the user set, or make one. */
  function WithJarCookies(env: Env, jar: Jar, url: string, headers: Headers): Headers {
    if !env.parses(url) || env.cookieText(jar, url).None? then headers
    else
      var text := env.cookieText(jar, url).value;
      var given := set name | name in headers && IsCookieName(name);
      if given != {} then headers[env.first(given) := headers[env.first(given)] + "; " + text]
      else headers["Cookie" := text]
  }

  /** Merging touches one Cookie header and no other: if the jar has cookies for the URL they
      follow what the user set, and a second Cookie header is never made. */
  lemma CookiesMerged(env: Env, jar: Jar, url: string, headers: Headers)
    ensures var merged, text := WithJarCookies(env, jar, url, headers), env.cookieText(jar, url);
            if !env.parses(url) || text.None? then merged == headers
            else
              && (exists c :: c in merged && IsCookieName(c)
                    && merged[c] == (if c in headers then headers[c] + "; " + text.value else text.value)
                    && forall n :: n in merged && n != c ==> n in headers && merged[n] == headers[n])
              && (forall n :: n in headers ==> n in merged)
              && ((exists n :: n in headers && IsCookieName(n)) ==> merged.Keys == headers.Keys)
  {
    if env.parses(url) && env.cookieText(jar, url).Some? {
      var merged := WithJarCookies(env, jar, url, headers);
      var given := set name | name in headers && IsCookieName(name);
      var c := if given != {} then env.first(given) else "Cookie";
      assert Lower("Cookie") == "cookie";
      if "Cookie" in headers {
        assert "Cookie" in given;
      }
      assert c in merged && IsCookieName(c);
      if n :| n in headers && IsCookieName(n) {
        assert n in given;
        assert merged.Keys == headers.Keys + {c};
      }
    }
  }

  function RequestOf(env: Env, jar: Jar, hop: Hop): Request {
    Request(hop.verb, hop.url, if hop.body.Some? then hop.body.value else "", WithJarCookies(env, jar, hop.url, hop.headers))
  }

  /** Values that do not parse as a cookie are not stored. */
  function Store(env: Env, jar: Jar, url: string, cookies: seq<string>): Jar {
    var taken := CookiesIn(env.views, cookies);
    if taken == [] || !env.parses(url) then jar else jar + [Stored(url, taken)]
  }

  predicate IsRedirect(status: nat) {
    status == 301 || status == 302 || status == 303 || status == 307 || status == 308
  }

  /** The absolute next URL, and whether the method must collapse to GET. */
  function RedirectTarget(env: Env, status: nat, location: Option<string>, current: string): Option<(string, bool)> {
    if !IsRedirect(status) || !env.parses(current) || location.None? then None
    else
      var next := env.join(current, location.value);
      if next.None? then None else Some((next.value, 301 <= status <= 303))
  }

  predicate DescribesBody(name: string) {
    Lower(name) == "content-type" || Lower(name) == "content-length"
  }

  function Redirected(hop: Hop, target: (string, bool)): Hop {
    if target.1 && hop.verb != "GET" && hop.verb != "HEAD" then
      Hop("GET", target.0, None, map name | name in hop.headers && !DescribesBody(name) :: hop.headers[name])
    else hop.(url := target.0)
  }

  /** Where a reply leads: nowhere, or to a next hop. */
  function Onward(env: Env, client: Client, hop: Hop, reply: Reply): Option<Hop> {
    if reply.Unreachable? then None
    else
      var target := RedirectTarget(env, reply.raw.status, LocationOf(env.views, client, reply.raw.lines), hop.url);
      if target.None? then None else Some(Redirected(hop, target.value))
  }

  function JarAfter(env: Env, client: Client, x: Exchange): Jar {
    if x.reply.Unreachable? then x.jar else Store(env, x.jar, x.hop.url, CookiesOf(env.views, client, x.reply.raw.lines))
  }

  // ---------------------------------------------------------------- the specification

  /** A request that a client cannot build, because of its URL say, never gets on the wire. */
  function OnWire(env: Env, client: Client, jar: Jar, hop: Hop): seq<Request> {
    var request := RequestOf(env, jar, hop);
    if env.builds(client, request) then [request] else []
  }

  function Answered(env: Env, client: Client, before: seq<Request>, jar: Jar, hop: Hop): Reply {
    var request := RequestOf(env, jar, hop);
    if env.builds(client, request) then env.server(before + [request]) else Unreachable(env.refusal(client, request))
  }

  /** The exchange a turn makes. */
  function Turn(env: Env, client: Client, before: seq<Request>, jar: Jar, hop: Hop): Exchange {
    Exchange(hop, jar, Answered(env, client, before, jar, hop))
  }

  /** The exchanges of one call that may still follow `left` redirects, after the requests in
      `before`. */
  function Trace(env: Env, client: Client, before: seq<Request>, jar: Jar, hop: Hop, left: nat): (xs: seq<Exchange>)
    ensures xs != []
    decreases left
  {
    var x := Turn(env, client, before, jar, hop);
    var next := Onward(env, client, hop, x.reply);
    if left == 0 || next.None? then [x]
    else [x] + Trace(env, client, before + OnWire(env, client, jar, hop), JarAfter(env, client, x), next.value, left - 1)
  }

  /** The requests some exchanges put on the wire. */
  function Requests(env: Env, client: Client, xs: seq<Exchange>): (requests: seq<Request>)
    ensures |requests| <= |xs|
  {
    if xs == [] then [] else OnWire(env, client, xs[0].jar, xs[0].hop) + Requests(env, client, xs[1..])
  }

  function Last(xs: seq<Exchange>): Exchange
    requires xs != []
  {
    xs[|xs| - 1]
  }

  function FinalResponse(env: Env, client: Client, x: Exchange, sink: bool): Response {
    match x.reply
    case Unreachable(message) => Response(0, map[], [], message, Some(env.categorize(message)))
    case Answer(raw) =>
      Response(raw.status, HeadersOf(env.views, client, raw.lines), CookiesOf(env.views, client, raw.lines), if sink then "" else BodyOf(env.views, client, raw.body), None)
  }

  function MetricName(env: Env, nameTag: Option<string>, url: string): string {
    env.groupPrefix + if nameTag.Some? then nameTag.value else url
  }

  function FinalMetric(env: Env, reply: Reply, nameTag: Option<string>, url: string, tags: map<string, string>): Metric {
    match reply
    case Unreachable(message) => Metric(MetricName(env, nameTag, url), 0, Some(message), tags)
    case Answer(raw) => Metric(MetricName(env, nameTag, url), raw.status, None, tags)
  }

  /** The jar after any exchange: it keeps what it held, and the cookies the reply sets are stored
      under the URL of the request, if any of them parses and the URL does. */
  lemma JarAfterIs(env: Env, client: Client, x: Exchange)
    ensures JarAfter(env, client, x) ==
            match x.reply
            case Unreachable(_) => x.jar
            case Answer(raw) =>
              var taken := CookiesIn(env.views, CookiesOf(env.views, client, raw.lines));
              if taken == [] || !env.parses(x.hop.url) then x.jar else x.jar + [Stored(x.hop.url, taken)]
  {
  }

  /** The answer to the call, and the metric that reports it: status and error are those of the
      final reply. */
  lemma FinalIs(env: Env, client: Client, x: Exchange, sink: bool, nameTag: Option<string>, url: string, tags: map<string, string>)
    ensures var r, metric := FinalResponse(env, client, x, sink), FinalMetric(env, x.reply, nameTag, url, tags);
            && metric == Metric(env.groupPrefix + (if nameTag.Some? then nameTag.value else url), r.status, if r.error.Some? then Some(r.body) else None, tags)
            && match x.reply
               case Unreachable(message) => r == Response(0, map[], [], message, Some(env.categorize(message)))
               case Answer(raw) =>
                 && r.status == raw.status && r.error == None
                 && r.headers == HeadersOf(env.views, client, raw.lines) && r.cookies == CookiesOf(env.views, client, raw.lines)
                 && r.body == if sink then "" else match client
                                                   case Bridge => raw.body
                                                   case Ureq => if env.views.bodyText(raw.body).Some? then env.views.bodyText(raw.body).value else ""
  {
  }

  /** All requests on the wire after a call, and the call's last exchange. */
  function Whole(env: Env, client: Client, before: seq<Request>, jar: Jar, hop: Hop, left: nat): (seq<Request>, Exchange) {
    var xs := Trace(env, client, before, jar, hop, left);
    (before + Requests(env, client, xs), Last(xs))
  }

  /** A turn either ends the call or leaves one that may follow one redirect fewer. */
  lemma WholeStep(env: Env, client: Client, before: seq<Request>, jar: Jar, hop: Hop, left: nat)
    ensures var x := Turn(env, client, before, jar, hop);
            var sent := before + OnWire(env, client, jar, hop);
            var next := if left > 0 then Onward(env, client, hop, x.reply) else None;
            Whole(env, client, before, jar, hop, left) ==
            if next.None? then (sent, x) else Whole(env, client, sent, JarAfter(env, client, x), next.value, left - 1)
  {
    hide OnWire, Answered, JarAfter, Onward;
    var x := Turn(env, client, before, jar, hop);
    var sent := before + OnWire(env, client, jar, hop);
    var next := if left > 0 then Onward(env, client, hop, x.reply) else None;
    if next.None? {
      RequestsFirst(env, client, x, []);
    } else {
      var later := Trace(env, client, sent, JarAfter(env, client, x), next.value, left - 1);
      RequestsFirst(env, client, x, later);
      Regroup(before, OnWire(env, client, jar, hop), Requests(env, client, later));
    }
  }

  lemma RequestsFirst(env: Env, client: Client, x: Exchange, rest: seq<Exchange>)
    ensures Requests(env, client, [x] + rest) == OnWire(env, client, x.jar, x.hop) + Requests(env, client, rest)
    ensures Requests(env, client, [x]) == OnWire(env, client, x.jar, x.hop)
  {
    assert ([x] + rest)[1..] == rest && [x][1..] == [];
  }

  lemma Regroup(before: seq<Request>, sent: seq<Request>, later: seq<Request>)
    ensures before + (sent + later) == before + sent + later
  {
  }

  // ---------------------------------------------------------------- the loops

  /** One virtual user: its cookie jar, the requests on the wire, and the metrics sent. */
  class HttpWorker {
    const env: Env
    var jar: Jar
    var sent: seq<Request>
    var metrics: seq<Metric>

    constructor (env: Env)
      ensures this.env == env && jar == [] && sent == [] && metrics == []
    {
      this.env, jar, sent, metrics := env, [], [], [];
    }

    /** Builds the request and sends it. One that cannot be built fails without being sent. */
    method Send(client: Client, hop: Hop, headers: Headers) returns (reply: Reply)
      requires headers == WithJarCookies(env, jar, hop.url, hop.headers)
      modifies this`sent
      ensures sent == old(sent) + OnWire(env, client, jar, hop) && reply == Turn(env, client, old(sent), jar, hop).reply
      ensures var request := Request(hop.verb, hop.url, if hop.body.Some? then hop.body.value else "", headers);
              && sent == old(sent) + (if env.builds(client, request) then [request] else [])
              && reply == if env.builds(client, request) then env.server(sent) else Unreachable(env.refusal(client, request))
    {
      var request := Request(hop.verb, hop.url, if hop.body.Some? then hop.body.value else "", headers);
      if env.builds(client, request) {
        sent := sent + [request];
        reply := env.server(sent);
      } else {
        reply := Unreachable(env.refusal(client, request));
      }
    }

    /** The metric of the whole call, named from the original URL. */
    method Report(nameTag: Option<string>, url: string, tags: map<string, string>, reply: Reply)
      modifies this`metrics
      ensures metrics == old(metrics) + [FinalMetric(env, reply, nameTag, url, tags)]
      ensures metrics == old(metrics) + [Metric(env.groupPrefix + (if nameTag.Some? then nameTag.value else url),
                                                if reply.Answer? then reply.raw.status else 0,
                                                if reply.Answer? then None else Some(reply.message), tags)]
    {
      if reply.Answer? {
        metrics := metrics + [Metric(MetricName(env, nameTag, url), reply.raw.status, None, tags)];
      } else {
        metrics := metrics + [Metric(MetricName(env, nameTag, url), 0, Some(reply.message), tags)];
      }
    }

    /** One turn of the bridge loop: the reply, its conversion, and the hop it leads to if any. */
    method BridgeTurn(hop: Hop, mayFollow: bool, sink: bool) returns (reply: Reply, r: Response, next: Option<Hop>)
      modifies this`jar, this`sent
      ensures var x := Turn(env, Bridge, old(sent), old(jar), hop);
              && reply == x.reply
              && sent == old(sent) + OnWire(env, Bridge, old(jar), hop)
              && jar == JarAfter(env, Bridge, x)
              && next == (if mayFollow then Onward(env, Bridge, hop, x.reply) else None)
              && r == FinalResponse(env, Bridge, x, sink)
      ensures var request := Request(hop.verb, hop.url, if hop.body.Some? then hop.body.value else "",
                                     WithJarCookies(env, old(jar), hop.url, hop.headers));
              && sent == old(sent) + (if env.builds(Bridge, request) then [request] else [])
              && reply == if env.builds(Bridge, request) then env.server(sent) else Unreachable(env.refusal(Bridge, request))
      ensures old(jar) <= jar
    {
      var hopHeaders := WithJarCookies(env, jar, hop.url, hop.headers);
      reply := Send(Bridge, hop, hopHeaders);
      next := None;
      if reply.Unreachable? {
        r := Response(0, map[], [], reply.message, Some(env.categorize(reply.message)));
      } else {
        var raw := reply.raw;
        var responseHeaders, setCookies := HyperHeaders(env.views, raw.lines);
        jar := Store(env, jar, hop.url, setCookies);
        if mayFollow {
          LocationInHeaders(env.views, Bridge, raw.lines);
          var location := if "location" in responseHeaders then Some(responseHeaders["location"]) else None;
          var target := RedirectTarget(env, raw.status, location, hop.url);
          if target.Some? {
            next := Some(Redirected(hop, target.value));
          }
        }
        r := Response(raw.status, responseHeaders, setCookies, if sink then "" else raw.body, None);
      }
    }

    /** `run_bridge_request` for a first request. */
    method RunBridgeRequest(first: Hop, maxRedirects: nat, sink: bool, nameTag: Option<string>, tags: map<string, string>)
      returns (r: Response)
      modifies this`jar, this`sent, this`metrics
      ensures var (wire, last) := Whole(env, Bridge, old(sent), old(jar), first, maxRedirects);
              && sent == wire
              && jar == JarAfter(env, Bridge, last)
              && metrics == old(metrics) + [FinalMetric(env, last.reply, nameTag, first.url, tags)]
              && r == FinalResponse(env, Bridge, last, sink)
              && (last.reply.Answer? ==> r.status == last.reply.raw.status && r.error == None)
              && (last.reply.Unreachable? ==> r.status == 0 && r.body == last.reply.message && r.error.Some?)
      ensures metrics == old(metrics) + [Metric(env.groupPrefix + (if nameTag.Some? then nameTag.value else first.url),
                                                r.status, if r.error.Some? then Some(r.body) else None, tags)]
    {
      hide *;
      var hop, hops := first, 0;
      ghost var whole := Whole(env, Bridge, sent, jar, hop, maxRedirects);
      while true
        invariant hops <= maxRedirects && metrics == old(metrics)
        invariant Whole(env, Bridge, sent, jar, hop, maxRedirects - hops) == whole
        decreases maxRedirects - hops
      {
        WholeStep(env, Bridge, sent, jar, hop, maxRedirects - hops);
        ghost var x := Turn(env, Bridge, sent, jar, hop);
        var reply, response, next := BridgeTurn(hop, hops < maxRedirects, sink);
        if next.None? {
          FinalIs(env, Bridge, x, sink, nameTag, first.url, tags);
          Report(nameTag, first.url, tags, reply);
          return response;
        }
        hop := next.value;
        hops := hops + 1;
      }
    }

    /** One turn of the ureq loop. An error status is a response like any other. */
    method UreqTurn(hop: Hop, mayFollow: bool, sink: bool) returns (reply: Reply, r: Response, next: Option<Hop>)
      modifies this`jar, this`sent
      ensures var x := Turn(env, Ureq, old(sent), old(jar), hop);
              && reply == x.reply
              && sent == old(sent) + OnWire(env, Ureq, old(jar), hop)
              && jar == JarAfter(env, Ureq, x)
              && next == (if mayFollow then Onward(env, Ureq, hop, x.reply) else None)
              && r == FinalResponse(env, Ureq, x, sink)
      ensures var request := Request(hop.verb, hop.url, if hop.body.Some? then hop.body.value else "",
                                     WithJarCookies(env, old(jar), hop.url, hop.headers));
              && sent == old(sent) + (if env.builds(Ureq, request) then [request] else [])
              && reply == if env.builds(Ureq, request) then env.server(sent) else Unreachable(env.refusal(Ureq, request))
      ensures old(jar) <= jar
    {
      var hopHeaders := WithJarCookies(env, jar, hop.url, hop.headers);
      reply := Send(Ureq, hop, hopHeaders);
      next := None;
      if reply.Unreachable? {
        r := Response(0, map[], [], reply.message, Some(env.categorize(reply.message)));
      } else {
        var raw := reply.raw;
        var responseHeaders, setCookies := UreqHeaders(env.views, raw.lines);
        jar := Store(env, jar, hop.url, setCookies);
        if mayFollow {
          LocationInHeaders(env.views, Ureq, raw.lines);
          var location := if "location" in responseHeaders then Some(responseHeaders["location"]) else None;
          var target := RedirectTarget(env, raw.status, location, hop.url);
          if target.Some? {
            next := Some(Redirected(hop, target.value));
          }
        }
        r := Response(raw.status, responseHeaders, setCookies, if sink then "" else BodyOf(env.views, Ureq, raw.body), None);
      }
    }

    /** `execute_ureq_request` for a first request. */
    method ExecuteUreqRequest(first: Hop, maxRedirects: nat, sink: bool, nameTag: Option<string>, tags: map<string, string>)
      returns (r: Response)
      modifies this`jar, this`sent, this`metrics
      ensures var (wire, last) := Whole(env, Ureq, old(sent), old(jar), first, maxRedirects);
              && sent == wire
              && jar == JarAfter(env, Ureq, last)
              && metrics == old(metrics) + [FinalMetric(env, last.reply, nameTag, first.url, tags)]
              && r == FinalResponse(env, Ureq, last, sink)
              && (last.reply.Answer? ==> r.status == last.reply.raw.status && r.error == None)
              && (last.reply.Unreachable? ==> r.status == 0 && r.body == last.reply.message && r.error.Some?)
      ensures metrics == old(metrics) + [Metric(env.groupPrefix + (if nameTag.Some? then nameTag.value else first.url),
                                                r.status, if r.error.Some? then Some(r.body) else None, tags)]
    {
      hide *;
      var hop, hops := first, 0;
      ghost var whole := Whole(env, Ureq, sent, jar, hop, maxRedirects);
      while true
        invariant hops <= maxRedirects && metrics == old(metrics)
        invariant Whole(env, Ureq, sent, jar, hop, maxRedirects - hops) == whole
        decreases maxRedirects - hops
      {
        WholeStep(env, Ureq, sent, jar, hop, maxRedirects - hops);
        ghost var x := Turn(env, Ureq, sent, jar, hop);
        var reply, response, next := UreqTurn(hop, hops < maxRedirects, sink);
        if next.None? {
          FinalIs(env, Ureq, x, sink, nameTag, first.url, tags);
          Report(nameTag, first.url, tags, reply);
          return response;
        }
        hop := next.value;
        hops := hops + 1;
      }
    }
  }


  // ---------------------------------------------------------------- what a run looks like

  /** `next` repeats `hop` at another place: sections 15.4.2 to 15.4.9 of RFC 9110, with every
      method but GET and HEAD turned into GET by 301, 302 and 303. */
  ghost predicate Repeats(hop: Hop, next: Hop, status: nat) {
    if status == 307 || status == 308 || hop.verb == "GET" || hop.verb == "HEAD" then
      next.verb == hop.verb && next.body == hop.body && next.headers == hop.headers
    else
      && next.verb == "GET" && next.body == None
      && (forall name :: name in next.headers <==> name in hop.headers && !DescribesBody(name))
      && (forall name :: name in next.headers ==> next.headers[name] == hop.headers[name])
  }

  /** The reply is a redirect to a place that can be worked out, and `next` goes there. */
  ghost predicate Follows(env: Env, client: Client, hop: Hop, reply: Reply, next: Hop) {
    && !IsFinal(env, client, hop, reply)
    && env.join(hop.url, LocationOf(env.views, client, reply.raw.lines).value) == Some(next.url)
    && Repeats(hop, next, reply.raw.status)
  }

  /** The reply is a failure, no redirect, or a redirect to nowhere. */
  predicate IsFinal(env: Env, client: Client, hop: Hop, reply: Reply) {
    || reply.Unreachable?
    || reply.raw.status !in [301, 302, 303, 307, 308]
    || LocationOf(env.views, client, reply.raw.lines) == None
    || !env.parses(hop.url)
    || env.join(hop.url, LocationOf(env.views, client, reply.raw.lines).value) == None
  }

  lemma OnwardIff(env: Env, client: Client, hop: Hop, reply: Reply)
    ensures Onward(env, client, hop, reply).None? <==> IsFinal(env, client, hop, reply)
    ensures forall next: Hop :: Onward(env, client, hop, reply) == Some(next) <==> Follows(env, client, hop, reply, next)
  {
    hide LocationOf, DescribesBody;
    if !IsFinal(env, client, hop, reply) {
      var there := Onward(env, client, hop, reply).value;
      assert Follows(env, client, hop, reply, there);
      forall next: Hop | Follows(env, client, hop, reply, next) ensures next == there {
        assert next.headers == there.headers;
      }
    }
  }

  /** What is on the wire after `k` of the exchanges. */
  function Wire(env: Env, client: Client, before: seq<Request>, xs: seq<Exchange>, k: nat): seq<Request>
    requires k <= |xs|
  {
    before + Requests(env, client, xs[..k])
  }

  /** A run: the original request first, then the rule applied to each reply in turn, the jar
      carrying each reply's cookies, until a final reply or the last redirect allowed. */
  ghost predicate IsRun(env: Env, client: Client, before: seq<Request>, jar: Jar, hop: Hop, left: nat, xs: seq<Exchange>) {
    && 0 < |xs| <= left + 1
    && xs[0].hop == hop && xs[0].jar == jar
    && (forall i :: 0 <= i < |xs| ==> xs[i].reply == Answered(env, client, Wire(env, client, before, xs, i), xs[i].jar, xs[i].hop))
    && (forall i :: 0 < i < |xs| ==> xs[i].jar == JarAfter(env, client, xs[i - 1]))
    && (forall i :: 0 < i < |xs| ==> Follows(env, client, xs[i - 1].hop, xs[i - 1].reply, xs[i].hop))
    && (|xs| == left + 1 || IsFinal(env, client, Last(xs).hop, Last(xs).reply))
  }

  lemma WireShift(env: Env, client: Client, before: seq<Request>, xs: seq<Exchange>, k: nat)
    requires 0 < k <= |xs|
    ensures Wire(env, client, before, xs, k) == Wire(env, client, before + OnWire(env, client, xs[0].jar, xs[0].hop), xs[1..], k - 1)
  {
    hide OnWire;
    assert xs[..k] == [xs[0]] + xs[1..][..k - 1];
    RequestsFirst(env, client, xs[0], xs[1..][..k - 1]);
    Regroup(before, OnWire(env, client, xs[0].jar, xs[0].hop), Requests(env, client, xs[1..][..k - 1]));
  }

  lemma WireStart(env: Env, client: Client, before: seq<Request>, xs: seq<Exchange>)
    ensures Wire(env, client, before, xs, 0) == before
  {
    assert xs[..0] == [] && before + [] == before;
  }

  lemma RunTail(env: Env, client: Client, before: seq<Request>, jar: Jar, hop: Hop, left: nat, xs: seq<Exchange>)
    requires |xs| > 1 && IsRun(env, client, before, jar, hop, left, xs)
    ensures IsRun(env, client, before + OnWire(env, client, jar, hop), JarAfter(env, client, xs[0]), xs[1].hop, left - 1, xs[1..])
  {
    hide OnWire, Answered, JarAfter, Wire, Follows, IsFinal;
    var rest, sent := xs[1..], before + OnWire(env, client, jar, hop);
    forall i | 0 <= i < |rest| ensures rest[i].reply == Answered(env, client, Wire(env, client, sent, rest, i), rest[i].jar, rest[i].hop) {
      WireShift(env, client, before, xs, i + 1);
      assert rest[i] == xs[i + 1];
    }
    forall i | 0 < i < |rest|
      ensures rest[i].jar == JarAfter(env, client, rest[i - 1])
      ensures Follows(env, client, rest[i - 1].hop, rest[i - 1].reply, rest[i].hop)
    {
      assert rest[i] == xs[i + 1] && rest[i - 1] == xs[i];
    }
  }

  lemma RunCons(env: Env, client: Client, before: seq<Request>, jar: Jar, hop: Hop, left: nat, xs: seq<Exchange>)
    requires |xs| > 1 && left > 0 && xs[0] == Turn(env, client, before, jar, hop)
    requires Follows(env, client, hop, xs[0].reply, xs[1].hop)
    requires IsRun(env, client, before + OnWire(env, client, jar, hop), JarAfter(env, client, xs[0]), xs[1].hop, left - 1, xs[1..])
    ensures IsRun(env, client, before, jar, hop, left, xs)
  {
    hide OnWire, Answered, JarAfter, Wire, Follows, IsFinal;
    var rest, sent := xs[1..], before + OnWire(env, client, jar, hop);
    forall i | 0 <= i < |xs| ensures xs[i].reply == Answered(env, client, Wire(env, client, before, xs, i), xs[i].jar, xs[i].hop) {
      if i == 0 {
        WireStart(env, client, before, xs);
      } else {
        WireShift(env, client, before, xs, i);
        assert xs[i] == rest[i - 1];
      }
    }
    forall i | 0 < i < |xs|
      ensures xs[i].jar == JarAfter(env, client, xs[i - 1])
      ensures Follows(env, client, xs[i - 1].hop, xs[i - 1].reply, xs[i].hop)
    {
      assert xs[i] == rest[i - 1];
      if i > 1 {
        assert xs[i - 1] == rest[i - 2];
      }
    }
  }

  lemma RunOfOne(env: Env, client: Client, before: seq<Request>, jar: Jar, hop: Hop, left: nat)
    requires left == 0 || Onward(env, client, hop, Turn(env, client, before, jar, hop).reply).None?
    ensures var x := Turn(env, client, before, jar, hop);
            Trace(env, client, before, jar, hop, left) == [x] && IsRun(env, client, before, jar, hop, left, [x])
  {
    hide WithJarCookies;
    var x := Turn(env, client, before, jar, hop);
    OnwardIff(env, client, hop, x.reply);
    WireStart(env, client, before, [x]);
  }

  lemma TraceGoesOn(env: Env, client: Client, before: seq<Request>, jar: Jar, hop: Hop, left: nat, next: Hop)
    requires left > 0 && Onward(env, client, hop, Turn(env, client, before, jar, hop).reply) == Some(next)
    ensures var x := Turn(env, client, before, jar, hop);
            Trace(env, client, before, jar, hop, left) ==
            [x] + Trace(env, client, before + OnWire(env, client, jar, hop), JarAfter(env, client, x), next, left - 1)
  {
    hide OnWire, Answered, JarAfter;
  }

  lemma RunGoesOn(env: Env, client: Client, before: seq<Request>, jar: Jar, hop: Hop, left: nat, next: Hop, rest: seq<Exchange>)
    requires left > 0 && Onward(env, client, hop, Turn(env, client, before, jar, hop).reply) == Some(next)
    requires var x := Turn(env, client, before, jar, hop);
             IsRun(env, client, before + OnWire(env, client, jar, hop), JarAfter(env, client, x), next, left - 1, rest)
    ensures IsRun(env, client, before, jar, hop, left, [Turn(env, client, before, jar, hop)] + rest)
  {
    hide WithJarCookies;
    var x := Turn(env, client, before, jar, hop);
    OnwardIff(env, client, hop, x.reply);
    RunCons(env, client, before, jar, hop, left, [x] + rest);
  }

  lemma {:induction false} TraceIsRun(env: Env, client: Client, before: seq<Request>, jar: Jar, hop: Hop, left: nat)
    ensures IsRun(env, client, before, jar, hop, left, Trace(env, client, before, jar, hop, left))
    decreases left
  {
    hide *;
    var x := Turn(env, client, before, jar, hop);
    var next := Onward(env, client, hop, x.reply);
    if left == 0 || next.None? {
      RunOfOne(env, client, before, jar, hop, left);
    } else {
      var sent, after := before + OnWire(env, client, jar, hop), JarAfter(env, client, x);
      TraceIsRun(env, client, sent, after, next.value, left - 1);
      TraceGoesOn(env, client, before, jar, hop, left, next.value);
      RunGoesOn(env, client, before, jar, hop, left, next.value, Trace(env, client, sent, after, next.value, left - 1));
    }
  }

  /** A run's first exchange, and what the reply to it decides. */
  lemma RunHead(env: Env, client: Client, before: seq<Request>, jar: Jar, hop: Hop, left: nat, xs: seq<Exchange>)
    requires IsRun(env, client, before, jar, hop, left, xs)
    ensures xs[0] == Turn(env, client, before, jar, hop)
    ensures |xs| == 1 ==> left == 0 || Onward(env, client, hop, xs[0].reply).None?
    ensures |xs| > 1 ==> left > 0 && Onward(env, client, hop, xs[0].reply) == Some(xs[1].hop)
  {
    OnwardIff(env, client, hop, xs[0].reply);
    WireStart(env, client, before, xs);
    if |xs| > 1 {
      assert Follows(env, client, xs[0].hop, xs[0].reply, xs[1].hop);
    }
  }

  lemma {:induction false} RunIsUnique(env: Env, client: Client, before: seq<Request>, jar: Jar, hop: Hop, left: nat,
                                       xs: seq<Exchange>, ys: seq<Exchange>)
    requires IsRun(env, client, before, jar, hop, left, xs) && IsRun(env, client, before, jar, hop, left, ys)
    ensures xs == ys
    decreases left
  {
    RunHead(env, client, before, jar, hop, left, xs);
    RunHead(env, client, before, jar, hop, left, ys);
    HeadAndTail(xs);
    HeadAndTail(ys);
    if |xs| > 1 && |ys| > 1 {
      RunTail(env, client, before, jar, hop, left, xs);
      RunTail(env, client, before, jar, hop, left, ys);
      RunIsUnique(env, client, before + OnWire(env, client, jar, hop), JarAfter(env, client, xs[0]), xs[1].hop, left - 1, xs[1..], ys[1..]);
    }
  }

  lemma HeadAndTail(xs: seq<Exchange>)
    requires xs != []
    ensures xs == [xs[0]] + xs[1..]
    ensures |xs| == 1 ==> xs == [xs[0]]
  {
  }

  /** The loops' specification is the one run there is. */
  lemma TraceIffRun(env: Env, client: Client, before: seq<Request>, jar: Jar, hop: Hop, left: nat, xs: seq<Exchange>)
    ensures xs == Trace(env, client, before, jar, hop, left) <==> IsRun(env, client, before, jar, hop, left, xs)
  {
    TraceIsRun(env, client, before, jar, hop, left);
    if IsRun(env, client, before, jar, hop, left, xs) {
      RunIsUnique(env, client, before, jar, hop, left, xs, Trace(env, client, before, jar, hop, left));
    }
  }

  // ---------------------------------------------------------------- what every run does

  lemma {:induction false} AllSent(env: Env, client: Client, xs: seq<Exchange>, i: nat)
    requires forall k :: 0 <= k < |xs| ==> env.builds(client, RequestOf(env, xs[k].jar, xs[k].hop))
    ensures |Requests(env, client, xs)| == |xs|
    ensures i < |xs| ==> Requests(env, client, xs)[i] == RequestOf(env, xs[i].jar, xs[i].hop)
    decreases |xs|
  {
    hide RequestOf;
    if xs != [] {
      AllSent(env, client, xs[1..], if i > 0 then i - 1 else 0);
    }
  }

  lemma {:induction false} RequestsOfLonger(env: Env, client: Client, xs: seq<Exchange>, last: Exchange)
    ensures Requests(env, client, xs + [last]) == Requests(env, client, xs) + OnWire(env, client, last.jar, last.hop)
    decreases |xs|
  {
    hide OnWire;
    if xs == [] {
      RequestsFirst(env, client, last, []);
      assert xs + [last] == [last];
    } else {
      assert (xs + [last])[1..] == xs[1..] + [last];
      RequestsOfLonger(env, client, xs[1..], last);
    }
  }

  /** Only the last request of a run may be one the client cannot build. */
  lemma RunBuilds(env: Env, client: Client, before: seq<Request>, jar: Jar, hop: Hop, left: nat, xs: seq<Exchange>, i: nat)
    requires IsRun(env, client, before, jar, hop, left, xs) && i < |xs| - 1
    ensures env.builds(client, RequestOf(env, xs[i].jar, xs[i].hop))
  {
    assert Follows(env, client, xs[i].hop, xs[i].reply, xs[i + 1].hop);
  }

  /** The requests on the wire before exchange `i` are the first `i` there are, and its own
      is next if it can be built. */
  lemma WireOfRun(env: Env, client: Client, before: seq<Request>, jar: Jar, hop: Hop, left: nat, xs: seq<Exchange>, i: nat)
    requires IsRun(env, client, before, jar, hop, left, xs) && i < |xs|
    ensures var wire := Requests(env, client, xs);
            && |xs| - 1 <= |wire| <= |xs| && Requests(env, client, xs[..i]) == wire[..i]
            && (i < |wire| <==> env.builds(client, RequestOf(env, xs[i].jar, xs[i].hop)))
            && (i < |wire| ==> wire[i] == RequestOf(env, xs[i].jar, xs[i].hop))
  {
    hide IsRun, RequestOf, Requests;
    var n := |xs| - 1;
    forall k | 0 <= k < n ensures env.builds(client, RequestOf(env, xs[k].jar, xs[k].hop)) {
      RunBuilds(env, client, before, jar, hop, left, xs, k);
    }
    assert xs == xs[..n] + [xs[n]];
    RequestsOfLonger(env, client, xs[..n], xs[n]);
    AllSent(env, client, xs[..n], i);
    if i < n {
      SentBefore(env, client, xs, i);
    }
  }

  lemma SentBefore(env: Env, client: Client, xs: seq<Exchange>, i: nat)
    requires i < |xs| - 1 && forall k :: 0 <= k < |xs| - 1 ==> env.builds(client, RequestOf(env, xs[k].jar, xs[k].hop))
    ensures i < |Requests(env, client, xs)| && Requests(env, client, xs[..i]) == Requests(env, client, xs)[..i]
  {
    hide RequestOf;
    var n := |xs| - 1;
    assert xs == xs[..n] + [xs[n]];
    RequestsOfLonger(env, client, xs[..n], xs[n]);
    AllSent(env, client, xs[..n], 0);
    AllSent(env, client, xs[..i], 0);
    forall k | 0 <= k < i ensures Requests(env, client, xs[..i])[k] == Requests(env, client, xs)[k] {
      AllSent(env, client, xs[..i], k);
      AllSent(env, client, xs[..n], k);
    }
  }

  /** The reply of exchange `i`, in terms of what is on the wire. */
  lemma RunAnswer(env: Env, client: Client, before: seq<Request>, jar: Jar, hop: Hop, left: nat, xs: seq<Exchange>, i: nat)
    requires IsRun(env, client, before, jar, hop, left, xs) && i < |xs|
    ensures var request := RequestOf(env, xs[i].jar, xs[i].hop);
            xs[i].reply == if env.builds(client, request) then env.server(before + Requests(env, client, xs[..i]) + [request])
                           else Unreachable(env.refusal(client, request))
  {
    hide Follows, IsFinal, JarAfter, RequestOf, Requests;
  }

  /** What is on the wire in every run, request by request: method, URL, body (nothing if there is
      none) and headers of the exchange's hop, with the jar's cookies; and the reply is the
      server's to what is on the wire by then. A request that cannot be built is the last, is not
      on the wire, and fails with what the client says of it. */
  lemma RunSends(env: Env, client: Client, before: seq<Request>, jar: Jar, hop: Hop, left: nat, xs: seq<Exchange>, i: nat)
    requires IsRun(env, client, before, jar, hop, left, xs) && i < |xs|
    ensures var wire, x := Requests(env, client, xs), xs[i];
            var request := Request(x.hop.verb, x.hop.url, if x.hop.body.Some? then x.hop.body.value else "",
                                   WithJarCookies(env, x.jar, x.hop.url, x.hop.headers));
            && |xs| - 1 <= |wire| <= |xs|
            && if i < |wire| then env.builds(client, request) && wire[i] == request && x.reply == env.server(before + wire[..i + 1])
               else !env.builds(client, request) && x.reply == Unreachable(env.refusal(client, request))
  {
    hide IsRun, WithJarCookies, Requests;
    WireOfRun(env, client, before, jar, hop, left, xs, i);
    RunAnswer(env, client, before, jar, hop, left, xs, i);
    var wire := Requests(env, client, xs);
    if i < |wire| {
      assert wire[..i + 1] == wire[..i] + [wire[i]];
      Regroup(before, wire[..i], [wire[i]]);
    }
  }

  /** What one exchange makes of the next in every run: the reply is one of the five redirects, its
      location resolves to the next URL, 301, 302 and 303 turn every method but GET and HEAD into
      GET and drop the body with the two headers that describe it, and everything else stays. */
  lemma RunFollows(env: Env, client: Client, before: seq<Request>, jar: Jar, hop: Hop, left: nat, xs: seq<Exchange>, i: nat)
    requires IsRun(env, client, before, jar, hop, left, xs) && 0 < i < |xs|
    ensures var was, reply, next := xs[i - 1].hop, xs[i - 1].reply, xs[i].hop;
            && reply.Answer? && reply.raw.status in [301, 302, 303, 307, 308] && env.parses(was.url)
            && var location := LocationOf(env.views, client, reply.raw.lines);
            && location.Some? && env.join(was.url, location.value) == Some(next.url)
            && if reply.raw.status > 303 || was.verb == "GET" || was.verb == "HEAD" then next == was.(url := next.url)
               else
                 && next.verb == "GET" && next.body == None
                 && (forall name :: name in next.headers <==>
                                    name in was.headers && Lower(name) != "content-type" && Lower(name) != "content-length")
                 && (forall name :: name in next.headers ==> next.headers[name] == was.headers[name])
  {
    assert Follows(env, client, xs[i - 1].hop, xs[i - 1].reply, xs[i].hop);
  }

  /** Every run starts with the request asked for, makes one request more than the redirects
      allowed at most, and stops earlier only at a reply that leads nowhere. */
  lemma RunStops(env: Env, client: Client, before: seq<Request>, jar: Jar, hop: Hop, left: nat, xs: seq<Exchange>)
    requires IsRun(env, client, before, jar, hop, left, xs)
    ensures 1 <= |xs| <= left + 1 && xs[0].hop == hop && xs[0].jar == jar
    ensures var last := xs[|xs| - 1];
            |xs| <= left && last.reply.Answer? && last.reply.raw.status in [301, 302, 303, 307, 308] ==>
              var location := LocationOf(env.views, client, last.reply.raw.lines);
              location == None || !env.parses(last.hop.url) || env.join(last.hop.url, location.value) == None
  {
  }

  /** The jar along every run: it keeps what it held, and each reply adds the cookies it sets, under
      the URL of its request. */
  lemma RunStores(env: Env, client: Client, before: seq<Request>, jar: Jar, hop: Hop, left: nat, xs: seq<Exchange>, i: nat)
    requires IsRun(env, client, before, jar, hop, left, xs) && 0 < i < |xs|
    ensures var x := xs[i - 1];
            x.reply.Answer? &&
            var taken := CookiesIn(env.views, CookiesOf(env.views, client, x.reply.raw.lines));
            xs[i].jar == if taken == [] || !env.parses(x.hop.url) then x.jar else x.jar + [Stored(x.hop.url, taken)]
  {
    hide CookiesIn, CookiesOf, Repeats;
    assert Follows(env, client, xs[i - 1].hop, xs[i - 1].reply, xs[i].hop);
  }

  // ---------------------------------------------------------------- the two clients

  predicate ReplySeenAlike(env: Env, reply: Reply) {
    reply.Unreachable? || SeenAlike(env.views, reply.raw.lines)
  }

  /** Both clients can build the request, or neither can and both say the same of it. */
  predicate BuiltAlike(env: Env, jar: Jar, hop: Hop) {
    var request := RequestOf(env, jar, hop);
    && env.builds(Bridge, request) == env.builds(Ureq, request)
    && (!env.builds(Bridge, request) ==> env.refusal(Bridge, request) == env.refusal(Ureq, request))
  }

  predicate Alike(env: Env, x: Exchange) {
    BuiltAlike(env, x.jar, x.hop) && ReplySeenAlike(env, x.reply)
  }

  lemma {:induction false} SameRequests(env: Env, xs: seq<Exchange>)
    requires forall x :: x in xs ==> BuiltAlike(env, x.jar, x.hop)
    ensures Requests(env, Bridge, xs) == Requests(env, Ureq, xs)
    decreases |xs|
  {
    if xs != [] {
      assert xs[0] in xs;
      SameRequests(env, xs[1..]);
    }
  }

  lemma SameTurn(env: Env, x: Exchange)
    requires ReplySeenAlike(env, x.reply)
    ensures forall next: Hop :: Follows(env, Bridge, x.hop, x.reply, next) <==> Follows(env, Ureq, x.hop, x.reply, next)
    ensures IsFinal(env, Bridge, x.hop, x.reply) <==> IsFinal(env, Ureq, x.hop, x.reply)
    ensures JarAfter(env, Bridge, x) == JarAfter(env, Ureq, x)
  {
    hide LocationOf, CookiesOf, CookiesIn, SeenAlike;
    if x.reply.Answer? {
      ViewsAgreeIff(env.views, x.reply.raw.lines);
    }
  }

  /** Where one client makes only requests that the other can build too, and meets only replies the
      two see alike, the other makes the same run. */
  lemma SameRun(env: Env, before: seq<Request>, jar: Jar, hop: Hop, left: nat)
    requires forall x :: x in Trace(env, Bridge, before, jar, hop, left) ==> Alike(env, x)
    ensures Trace(env, Ureq, before, jar, hop, left) == Trace(env, Bridge, before, jar, hop, left)
  {
    var xs := Trace(env, Bridge, before, jar, hop, left);
    TraceIsRun(env, Bridge, before, jar, hop, left);
    RunOfEither(env, before, jar, hop, left, xs);
    TraceIffRun(env, Ureq, before, jar, hop, left, xs);
  }

  lemma RunOfEither(env: Env, before: seq<Request>, jar: Jar, hop: Hop, left: nat, xs: seq<Exchange>)
    requires IsRun(env, Bridge, before, jar, hop, left, xs)
    requires forall x :: x in xs ==> Alike(env, x)
    ensures IsRun(env, Ureq, before, jar, hop, left, xs)
  {
    hide Follows, IsFinal, JarAfter, ReplySeenAlike, Answered, Wire, BuiltAlike;
    forall i | 0 <= i < |xs| ensures xs[i].reply == Answered(env, Ureq, Wire(env, Ureq, before, xs, i), xs[i].jar, xs[i].hop) {
      assert Alike(env, xs[i]);
      SameAnswer(env, before, xs, i);
    }
    forall i | 0 < i < |xs|
      ensures xs[i].jar == JarAfter(env, Ureq, xs[i - 1])
      ensures Follows(env, Ureq, xs[i - 1].hop, xs[i - 1].reply, xs[i].hop)
    {
      assert Alike(env, xs[i - 1]);
      SameTurn(env, xs[i - 1]);
    }
    assert Alike(env, Last(xs));
    SameTurn(env, Last(xs));
  }

  lemma SameAnswer(env: Env, before: seq<Request>, xs: seq<Exchange>, i: nat)
    requires i < |xs| && forall x :: x in xs ==> BuiltAlike(env, x.jar, x.hop)
    ensures Answered(env, Ureq, Wire(env, Ureq, before, xs, i), xs[i].jar, xs[i].hop) ==
            Answered(env, Bridge, Wire(env, Bridge, before, xs, i), xs[i].jar, xs[i].hop)
  {
    SameRequests(env, xs[..i]);
    assert xs[i] in xs;
  }

  /** On such a run the jar, the requests and the metric come out the same, and the response does
      exactly if the final reply's headers, cookies and body show the same text in both clients. */
  lemma SameOutcome(env: Env, before: seq<Request>, jar: Jar, hop: Hop, left: nat, sink: bool)
    requires forall x :: x in Trace(env, Bridge, before, jar, hop, left) ==> Alike(env, x)
    ensures Whole(env, Bridge, before, jar, hop, left) == Whole(env, Ureq, before, jar, hop, left)
    ensures var x := Last(Trace(env, Bridge, before, jar, hop, left));
            && JarAfter(env, Bridge, x) == JarAfter(env, Ureq, x)
            && (FinalResponse(env, Bridge, x, sink) == FinalResponse(env, Ureq, x, sink)
                <==> (x.reply.Answer? ==> ShownAlike(env.views, x.reply.raw.lines, x.reply.raw.body, sink)))
  {
    hide ReplySeenAlike, BuiltAlike, Trace;
    SameRun(env, before, jar, hop, left);
    var xs := Trace(env, Bridge, before, jar, hop, left);
    var x := Last(xs);
    assert x in xs;
    SameRequests(env, xs);
    SameTurn(env, x);
    SameResponseIff(env, x, sink);
  }

  lemma SameResponseIff(env: Env, x: Exchange, sink: bool)
    ensures FinalResponse(env, Bridge, x, sink) == FinalResponse(env, Ureq, x, sink)
            <==> (x.reply.Answer? ==> ShownAlike(env.views, x.reply.raw.lines, x.reply.raw.body, sink))
  {
    hide HeadersOf, CookiesOf, Shown, OneText;
    if x.reply.Answer? {
      HeadersAgreeIff(env.views, x.reply.raw.lines);
      CookieListsAgreeIff(env.views, x.reply.raw.lines);
    }
  }

  /** A request that only one client can build parts them at once: the other sends nothing. */
  lemma BuiltByOneParts(env: Env, before: seq<Request>, jar: Jar, hop: Hop, left: nat)
    requires env.builds(Bridge, RequestOf(env, jar, hop)) != env.builds(Ureq, RequestOf(env, jar, hop))
    ensures Requests(env, Bridge, Trace(env, Bridge, before, jar, hop, left)) != Requests(env, Ureq, Trace(env, Ureq, before, jar, hop, left))
  {
    SendsIff(env, Bridge, before, jar, hop, left);
    SendsIff(env, Ureq, before, jar, hop, left);
  }

  lemma SendsIff(env: Env, client: Client, before: seq<Request>, jar: Jar, hop: Hop, left: nat)
    ensures Requests(env, client, Trace(env, client, before, jar, hop, left)) == [] <==> !env.builds(client, RequestOf(env, jar, hop))
  {
    hide RequestOf, JarAfter;
    var xs := Trace(env, client, before, jar, hop, left);
    assert xs[0] == Turn(env, client, before, jar, hop);
    if !env.builds(client, RequestOf(env, jar, hop)) {
      assert xs == [xs[0]];
      RequestsFirst(env, client, xs[0], []);
    }
  }

  /** Whatever the clients make of header values, any reply not seen alike parts them somewhere:
      against a server that always gives it, and with some URL joining and some jar, they send
      different requests in one call or in the next, though both can build every request. */
  lemma SeenAlikeIsNeeded(views: Views, lines: Lines) returns (env: Env, left: nat)
    requires !SeenAlike(views, lines)
    ensures env.views == views && forall client: Client, request :: env.builds(client, request)
    ensures forall requests :: env.server(requests) == Answer(Raw(302, lines, ""))
    ensures var hop := Hop("GET", "u", None, map[]);
            var bridge, ureq := Trace(env, Bridge, [], [], hop, left), Trace(env, Ureq, [], [], hop, left);
            || Requests(env, Bridge, bridge) != Requests(env, Ureq, ureq)
            || RequestOf(env, JarAfter(env, Bridge, Last(bridge)), hop) != RequestOf(env, JarAfter(env, Ureq, Last(ureq)), hop)
  {
    ViewsAgreeIff(views, lines);
    var bridge, ureq := CookiesIn(views, CookiesOf(views, Bridge, lines)), CookiesIn(views, CookiesOf(views, Ureq, lines));
    if bridge != ureq {
      left := 0;
      var jar: Jar := [Stored("u", if bridge != [] then bridge else ureq)];
      env := Env(_ => Answer(Raw(302, lines, "")), (_, location) => Some(location), (held, _) => if held == jar then Some("c=1") else None,
                 _ => true, _ => ("", ""), "", names => Choose(names), views, (_, _) => true, (_, _) => "");
      PartedByCookies(env, lines, jar);
    } else {
      left := 1;
      env := Env(_ => Answer(Raw(302, lines, "")), (_, location) => Some(location), (_, _) => None,
                 _ => true, _ => ("", ""), "", names => Choose(names), views, (_, _) => true, (_, _) => "");
      PartedByLocation(env, lines);
    }
  }

  /** The jar shows in the next request. */
  lemma PartedByCookies(env: Env, lines: Lines, jar: Jar)
    requires var bridge, ureq := CookiesIn(env.views, CookiesOf(env.views, Bridge, lines)), CookiesIn(env.views, CookiesOf(env.views, Ureq, lines));
             bridge != ureq && jar == [Stored("u", if bridge != [] then bridge else ureq)]
    requires forall client: Client, request :: env.builds(client, request)
    requires forall requests :: env.server(requests) == Answer(Raw(302, lines, ""))
    requires env.parses("u") && forall held :: env.cookieText(held, "u") == if held == jar then Some("c=1") else None
    ensures var hop := Hop("GET", "u", None, map[]);
            var bridge, ureq := Trace(env, Bridge, [], [], hop, 0), Trace(env, Ureq, [], [], hop, 0);
            RequestOf(env, JarAfter(env, Bridge, Last(bridge)), hop) != RequestOf(env, JarAfter(env, Ureq, Last(ureq)), hop)
  {
    hide CookiesIn, CookiesOf;
    var hop := Hop("GET", "u", None, map[]);
    var x := Turn(env, Bridge, [], [], hop);
    assert Turn(env, Ureq, [], [], hop) == x;
    assert Trace(env, Bridge, [], [], hop, 0) == [x] && Trace(env, Ureq, [], [], hop, 0) == [x];
    var bridge, ureq := CookiesIn(env.views, CookiesOf(env.views, Bridge, lines)), CookiesIn(env.views, CookiesOf(env.views, Ureq, lines));
    assert JarAfter(env, Bridge, x) == if bridge == [] then [] else [Stored("u", bridge)];
    assert JarAfter(env, Ureq, x) == if ureq == [] then [] else [Stored("u", ureq)];
    assert (JarAfter(env, Bridge, x) == jar) != (JarAfter(env, Ureq, x) == jar);
    JarShows(env, jar, JarAfter(env, Bridge, x));
    JarShows(env, jar, JarAfter(env, Ureq, x));
    var a, b := RequestOf(env, JarAfter(env, Bridge, x), hop), RequestOf(env, JarAfter(env, Ureq, x), hop);
    assert ("Cookie" in a.headers) != ("Cookie" in b.headers);
  }

  lemma JarShows(env: Env, jar: Jar, held: Jar)
    requires env.parses("u") && env.cookieText(held, "u") == if held == jar then Some("c=1") else None
    ensures RequestOf(env, held, Hop("GET", "u", None, map[])).headers == if held == jar then map["Cookie" := "c=1"] else map[]
  {
  }

  lemma PartedByLocation(env: Env, lines: Lines)
    requires LocationOf(env.views, Bridge, lines) != LocationOf(env.views, Ureq, lines)
    requires forall client: Client, request :: env.builds(client, request)
    requires forall requests :: env.server(requests) == Answer(Raw(302, lines, ""))
    requires forall url, location :: env.join(url, location) == Some(location)
    requires forall url :: env.parses(url)
    ensures var hop := Hop("GET", "u", None, map[]);
            Requests(env, Bridge, Trace(env, Bridge, [], [], hop, 1)) != Requests(env, Ureq, Trace(env, Ureq, [], [], hop, 1))
  {
    hide WithJarCookies;
    var hop := Hop("GET", "u", None, map[]);
    assert LocationOf(env.views, Bridge, lines).Some?;
    hide LocationOf;
    SecondRequest(env, Bridge, lines);
    SecondRequest(env, Ureq, lines);
  }

  lemma SecondRequest(env: Env, client: Client, lines: Lines)
    requires forall client: Client, request :: env.builds(client, request)
    requires forall requests :: env.server(requests) == Answer(Raw(302, lines, ""))
    requires forall url, location :: env.join(url, location) == Some(location)
    requires forall url :: env.parses(url)
    ensures var requests, location := Requests(env, client, Trace(env, client, [], [], Hop("GET", "u", None, map[]), 1)), LocationOf(env.views, client, lines);
            if location.Some? then |requests| == 2 && requests[1].url == location.value else |requests| == 1
  {
    hide WithJarCookies, LocationOf;
    var hop := Hop("GET", "u", None, map[]);
    TraceIsRun(env, client, [], [], hop, 1);
  }
}
