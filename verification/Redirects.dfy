/**
 The redirect chain of the HTTP transport against an arbitrary server. URLs are as the URL parser leaves them: the
 port is absent when it is the scheme's own, so an origin is a scheme and a host.
 */
module Redirects {
  import opened Wrappers
  import opened Sequences

  datatype Scheme = Http | Https | OtherScheme(name: string)

  datatype Host = Host(name: string, port: Option<nat>)

  datatype Url = Url(scheme: Scheme, host: Host, path: string)

  datatype Header = Header(name: string, value: string)

  datatype RedirectMode = Follow | ErrorMode | Manual

  datatype HttpRequest = HttpRequest(
    verb: string,
    url: Url,
    headers: seq<Header>,
    body: Option<string>,
    mode: RedirectMode,
    maxRedirects: Option<int>,
    sensitiveHeaderNames: set<string>)

  /** A Location header resolved against the request's URL. */
  datatype Location = Unresolvable | Resolved(url: Url)

  /** What the server does to one send; `content` is the response body once read, or the failure to read it. */
  datatype Reply =
    | Unreachable(error: string)
    | Replied(status: Option<int>, location: Option<Location>, content: Result<string, string>)

  datatype Failure =
    | BadRedirectLimit
    | NoStatus
    | RedirectRejected(status: int)
    | TooManyRedirects
    | InvalidRedirectUrl
    | UnsupportedRedirectProtocol
    | TransportFailure(error: string)

  datatype HttpResponse = HttpResponse(status: int, body: string, finalUrl: Url, redirected: bool, redirectCount: nat)

  datatype Exchange = Exchange(sent: seq<HttpRequest>, result: Result<HttpResponse, Failure>)

  const DEFAULT_MAX_REDIRECTS := 20
  const MAX_SAFE_INTEGER := 0x1F_FFFF_FFFF_FFFF
  const REDIRECT_STATUSES: set<int> := {301, 302, 303, 307, 308}
  const SENSITIVE_HEADERS: set<string> := {"authorization", "cookie", "proxy-authorization"}
  const ENTITY_HEADERS: set<string> := {"content-length", "content-type", "transfer-encoding"}

  /** Header names are ASCII tokens (section 5.6.2 of RFC 9110). */
  function LowerChar(c: char): char {
    if 'A' <= c <= 'Z' then (c as int + 32) as char else c
  }

  function Lower(s: string): (r: string)
    ensures |r| == |s|
  {
    seq(|s|, i requires 0 <= i < |s| => LowerChar(s[i]))
  }

  predicate CrossOrigin(a: Url, b: Url) {
    a.scheme != b.scheme || a.host != b.host
  }

  predicate BecomesGet(verb: string, status: int) {
    status == 303 || ((status == 301 || status == 302) && verb == "POST")
  }

  predicate IsEntityHeader(h: Header) {
    Lower(h.name) in ENTITY_HEADERS
  }

  predicate IsListed(names: set<string>, h: Header) {
    Lower(h.name) in SENSITIVE_HEADERS || Lower(h.name) in names
  }

  predicate IsHostHeader(h: Header) {
    Lower(h.name) == "host"
  }

  function RedirectRequest(request: HttpRequest, status: int, url: Url): HttpRequest {
    var becomesGet := BecomesGet(request.verb, status);
    var afterEntity := if becomesGet then Filter(request.headers, h => !IsEntityHeader(h)) else request.headers;
    var afterOrigin :=
      if CrossOrigin(request.url, url) then Filter(afterEntity, h => !IsListed(request.sensitiveHeaderNames, h))
      else afterEntity;
    var headers := if request.url.host != url.host then Filter(afterOrigin, h => !IsHostHeader(h)) else afterOrigin;
    var next := request.(url := url, headers := headers);
    if becomesGet then next.(verb := "GET", body := None) else next
  }

  datatype Reaction = Finished(result: Result<HttpResponse, Failure>) | GoOn(status: int, url: Url)

  function HandleResponse(request: HttpRequest, reply: Reply, count: nat, limit: nat): (r: Reaction)
    ensures r.GoOn? ==> count < limit
  {
    match reply
    case Unreachable(error) => Finished(Err(TransportFailure(error)))
    case Replied(status, location, content) =>
      if status.None? then Finished(Err(NoStatus))
      else if status.value in REDIRECT_STATUSES && location.Some? && request.mode == ErrorMode then
        Finished(Err(RedirectRejected(status.value)))
      else if status.value in REDIRECT_STATUSES && location.Some? && request.mode == Follow then
        if count >= limit then Finished(Err(TooManyRedirects))
        else if location.value.Unresolvable? then Finished(Err(InvalidRedirectUrl))
        else if location.value.url.scheme != Http && location.value.url.scheme != Https then
          Finished(Err(UnsupportedRedirectProtocol))
        else GoOn(status.value, location.value.url)
      else
        match content
        case Err(error) => Finished(Err(TransportFailure(error)))
        case Ok(body) => Finished(Ok(HttpResponse(status.value, body, request.url, count > 0, count)))
  }

  /** The sends of one chain and its end; `replies(n)` is what the server does to send `n`. */
  function Send(request: HttpRequest, count: nat, limit: nat, replies: nat -> Reply): Exchange
    requires count <= limit
    decreases limit - count
  {
    match HandleResponse(request, replies(count), count, limit)
    case Finished(result) => Exchange([request], result)
    case GoOn(status, url) =>
      var rest := Send(RedirectRequest(request, status, url), count + 1, limit, replies);
      Exchange([request] + rest.sent, rest.result)
  }

  function RedirectLimit(request: HttpRequest): int {
    if request.maxRedirects.Some? then request.maxRedirects.value else DEFAULT_MAX_REDIRECTS
  }

  function Execute(request: HttpRequest, replies: nat -> Reply): Exchange {
    var limit := RedirectLimit(request);
    if !(0 <= limit <= MAX_SAFE_INTEGER) then Exchange([], Err(BadRedirectLimit))
    else Send(request, 0, limit, replies)
  }

  // ---- One hop ----

  /** What a hop takes away. */
  predicate Strips(request: HttpRequest, status: int, url: Url, h: Header) {
    || (BecomesGet(request.verb, status) && IsEntityHeader(h))
    || (CrossOrigin(request.url, url) && IsListed(request.sensitiveHeaderNames, h))
    || (request.url.host != url.host && IsHostHeader(h))
  }

  function Count(headers: seq<Header>, h: Header): nat {
    multiset(headers)[h]
  }

  lemma {:induction false} FilterCounts(s: seq<Header>, p: Header -> bool, h: Header)
    ensures Count(Filter(s, p), h) == if p(h) then Count(s, h) else 0
  {
    if s != [] {
      FilterCounts(s[..|s| - 1], p, h);
      assert s == s[..|s| - 1] + [s[|s| - 1]];
    }
  }

  lemma {:induction false} HopKeepsTheRest(request: HttpRequest, status: int, url: Url, h: Header)
    ensures Count(RedirectRequest(request, status, url).headers, h) ==
      if Strips(request, status, url, h) then 0 else Count(request.headers, h)
  {
    var p := (x: Header) => !IsEntityHeader(x);
    var q := (x: Header) => !IsListed(request.sensitiveHeaderNames, x);
    var r := (x: Header) => !IsHostHeader(x);
    var a := if BecomesGet(request.verb, status) then Filter(request.headers, p) else request.headers;
    var b := if CrossOrigin(request.url, url) then Filter(a, q) else a;
    var c := if request.url.host != url.host then Filter(b, r) else b;
    assert RedirectRequest(request, status, url).headers == c;
    FilterCounts(request.headers, p, h);
    FilterCounts(a, q, h);
    FilterCounts(b, r, h);
  }

  // ---- The chain ----

  /** Send `k + 1` of the chain is the redirect of send `k` that the server's reply asks for. */
  ghost predicate IsHop(sent: seq<HttpRequest>, k: nat, first: nat, limit: nat, replies: nat -> Reply) {
    && k + 1 < |sent|
    && var reaction := HandleResponse(sent[k], replies(first + k), first + k, limit);
    reaction.GoOn? && sent[k + 1] == RedirectRequest(sent[k], reaction.status, reaction.url)
  }

  ghost predicate ChainFrom(e: Exchange, request: HttpRequest, first: nat, limit: nat, replies: nat -> Reply) {
    && 1 <= |e.sent| <= limit - first + 1 && e.sent[0] == request
    && (forall k :: 0 <= k < |e.sent| - 1 ==> IsHop(e.sent, k, first, limit, replies))
    && EndsAt(e, first + |e.sent| - 1, limit, replies)
  }

  ghost predicate EndsAt(e: Exchange, last: nat, limit: nat, replies: nat -> Reply)
    requires e.sent != []
  {
    HandleResponse(e.sent[|e.sent| - 1], replies(last), last, limit) == Finished(e.result)
  }

  /** Each send but the first is the redirect the server asked for; the last reply ends the chain. */
  lemma {:induction false} ChainOfHops(request: HttpRequest, count: nat, limit: nat, replies: nat -> Reply)
    requires count <= limit
    ensures ChainFrom(Send(request, count, limit, replies), request, count, limit, replies)
    decreases limit - count
  {
    var reaction := HandleResponse(request, replies(count), count, limit);
    if reaction.GoOn? {
      var next := RedirectRequest(request, reaction.status, reaction.url);
      ChainOfHops(next, count + 1, limit, replies);
      ChainGrows(request, next, Send(next, count + 1, limit, replies), count, limit, replies);
    } else {
      var e := Send(request, count, limit, replies);
      assert e.sent == [request] && EndsAt(e, count, limit, replies);
    }
  }

  lemma ChainGrows(
      request: HttpRequest, next: HttpRequest, rest: Exchange, count: nat, limit: nat, replies: nat -> Reply)
    requires count < limit && ChainFrom(rest, next, count + 1, limit, replies)
    requires var reaction := HandleResponse(request, replies(count), count, limit);
      reaction.GoOn? && next == RedirectRequest(request, reaction.status, reaction.url)
    ensures ChainFrom(Exchange([request] + rest.sent, rest.result), request, count, limit, replies)
  {
    var sent := [request] + rest.sent;
    forall k | 0 <= k < |sent| - 1
      ensures IsHop(sent, k, count, limit, replies)
    {
      if k > 0 {
        assert IsHop(rest.sent, k - 1, count + 1, limit, replies);
      }
    }
    assert EndsAt(rest, count + 1 + |rest.sent| - 1, limit, replies);
  }

  ghost predicate Chain(sent: seq<HttpRequest>, limit: nat, replies: nat -> Reply) {
    sent != [] && forall k :: 0 <= k < |sent| - 1 ==> IsHop(sent, k, 0, limit, replies)
  }

  function StatusAt(replies: nat -> Reply, k: nat): int {
    if replies(k).Replied? && replies(k).status.Some? then replies(k).status.value else 0
  }

  /** Some earlier hop took this header away. */
  ghost predicate StrippedBefore(sent: seq<HttpRequest>, replies: nat -> Reply, k: nat, h: Header)
    requires k < |sent|
  {
    exists i :: 0 <= i < k && Strips(sent[i], StatusAt(replies, i), sent[i + 1].url, h)
  }

  /**
   The sends after a redirect limit that is no non-negative safe integer: none. Otherwise at most the limit and one.
   */
  lemma {:induction false} SendsAreBounded(request: HttpRequest, replies: nat -> Reply)
    ensures var e := Execute(request, replies);
      && |e.sent| <= Max(0, RedirectLimit(request) + 1)
      && (e.sent == [] <==> e.result == Err(BadRedirectLimit))
      && (e.sent != [] <==> 0 <= RedirectLimit(request) <= MAX_SAFE_INTEGER)
  {
    var limit := RedirectLimit(request);
    if 0 <= limit <= MAX_SAFE_INTEGER {
      ChainOfHops(request, 0, limit, replies);
    }
  }

  function Max(a: int, b: int): int {
    if a < b then b else a
  }

  /**
   A response names the last request's URL and the number of hops; the limit is an error exactly when one more hop
   is asked for.
   */
  lemma {:induction false} ResultMatchesChain(request: HttpRequest, replies: nat -> Reply)
    requires Execute(request, replies).sent != []
    ensures var e := Execute(request, replies);
      var hops := |e.sent| - 1;
      && e.sent[0] == request
      && (e.result.Ok? ==>
            && e.result.value.redirectCount == hops && (e.result.value.redirected <==> hops > 0)
            && e.result.value.finalUrl == e.sent[hops].url)
      && (e.result == Err(TooManyRedirects) <==>
            hops == RedirectLimit(request) && AsksForRedirect(e.sent[hops], replies(hops)))
  {
    var limit := RedirectLimit(request);
    ChainOfHops(request, 0, limit, replies);
    var e := Send(request, 0, limit, replies);
    EndMeans(e.sent[|e.sent| - 1], replies(|e.sent| - 1), |e.sent| - 1, limit, e.result);
  }

  lemma EndMeans(last: HttpRequest, reply: Reply, hops: nat, limit: nat, result: Result<HttpResponse, Failure>)
    requires hops <= limit && HandleResponse(last, reply, hops, limit) == Finished(result)
    ensures result.Ok? ==> result.value.redirectCount == hops && result.value.finalUrl == last.url
    ensures result.Ok? ==> (result.value.redirected <==> hops > 0)
    ensures result == Err(TooManyRedirects) <==> hops == limit && AsksForRedirect(last, reply)
  {
  }

  /** Redirects are followed under `follow` only, and a redirect comes back as a response under `manual` only. */
  lemma {:induction false} PolicyDecidesRedirects(request: HttpRequest, replies: nat -> Reply)
    requires Execute(request, replies).sent != []
    ensures var e := Execute(request, replies);
      && (request.mode != Follow ==> e.sent == [request])
      && (request.mode == ErrorMode && IsRedirect(replies(0)) ==>
            e.result == Err(RedirectRejected(replies(0).status.value)))
      && (e.result.Ok? && request.mode != Manual ==> !IsRedirect(replies(|e.sent| - 1)))
  {
    var limit := RedirectLimit(request);
    ChainOfHops(request, 0, limit, replies);
    var e := Send(request, 0, limit, replies);
    PolicyIsKept(e.sent, limit, replies, |e.sent| - 1);
    assert EndsAt(e, |e.sent| - 1, limit, replies);
  }

  predicate IsRedirect(reply: Reply) {
    reply.Replied? && reply.status.Some? && reply.location.Some? && reply.status.value in REDIRECT_STATUSES
  }

  predicate AsksForRedirect(request: HttpRequest, reply: Reply) {
    request.mode == Follow && IsRedirect(reply)
  }

  /** A hop changes where the request goes, never its policy; every redirect target is http or https. */
  lemma {:induction false} PolicyIsKept(sent: seq<HttpRequest>, limit: nat, replies: nat -> Reply, k: nat)
    requires Chain(sent, limit, replies) && k < |sent|
    ensures sent[k].sensitiveHeaderNames == sent[0].sensitiveHeaderNames
    ensures sent[k].mode == sent[0].mode && sent[k].maxRedirects == sent[0].maxRedirects
    ensures k > 0 ==> sent[k].mode == Follow && (sent[k].url.scheme == Http || sent[k].url.scheme == Https)
  {
    if k > 0 {
      PolicyIsKept(sent, limit, replies, k - 1);
      assert IsHop(sent, k - 1, 0, limit, replies);
    }
  }

  /** Over the whole chain a header is kept, as often as it stood, unless some hop strips it. */
  lemma {:induction false} HeadersOnlyShrink(
      sent: seq<HttpRequest>, limit: nat, replies: nat -> Reply, k: nat, h: Header)
    requires Chain(sent, limit, replies) && k < |sent|
    ensures Count(sent[k].headers, h) == if StrippedBefore(sent, replies, k, h) then 0 else Count(sent[0].headers, h)
  {
    if k > 0 {
      HeadersOnlyShrink(sent, limit, replies, k - 1, h);
      HopCounts(sent, limit, replies, k - 1, h);
      StrippedByLastOrBefore(sent, replies, k, h);
    }
  }

  lemma HopCounts(sent: seq<HttpRequest>, limit: nat, replies: nat -> Reply, k: nat, h: Header)
    requires Chain(sent, limit, replies) && k + 1 < |sent|
    ensures Count(sent[k + 1].headers, h) ==
      if Strips(sent[k], StatusAt(replies, k), sent[k + 1].url, h) then 0 else Count(sent[k].headers, h)
  {
    assert IsHop(sent, k, 0, limit, replies);
    HopKeepsTheRest(sent[k], StatusAt(replies, k), sent[k + 1].url, h);
  }

  lemma StrippedByLastOrBefore(sent: seq<HttpRequest>, replies: nat -> Reply, k: nat, h: Header)
    requires 0 < k < |sent|
    ensures StrippedBefore(sent, replies, k, h) <==>
      StrippedBefore(sent, replies, k - 1, h) || Strips(sent[k - 1], StatusAt(replies, k - 1), sent[k].url, h)
  {
  }

  /** Names meant as sensitive, whatever their case (section 5.1 of RFC 9110). */
  ghost predicate IsSensitive(names: set<string>, h: Header) {
    Lower(h.name) in SENSITIVE_HEADERS || exists n :: n in names && Lower(n) == Lower(h.name)
  }

  /** What the contract's lower-case rule comes to; a list of lower-case names meets it. */
  ghost predicate LowerCaseIsListed(names: set<string>) {
    forall n :: n in names ==> Lower(n) in SENSITIVE_HEADERS || Lower(n) in names
  }

  lemma SensitiveIsListed(names: set<string>, h: Header)
    requires LowerCaseIsListed(names) && IsSensitive(names, h)
    ensures IsListed(names, h)
  {
    if Lower(h.name) !in SENSITIVE_HEADERS {
      var n :| n in names && Lower(n) == Lower(h.name);
    }
  }

  /** After a cross-origin hop no later request carries a sensitive header, not even back at the first origin. */
  lemma {:induction false} NoSensitiveHeaderAfterLeaving(
      sent: seq<HttpRequest>, limit: nat, replies: nat -> Reply, i: nat, k: nat, h: Header)
    requires Chain(sent, limit, replies) && i < k < |sent|
    requires CrossOrigin(sent[i].url, sent[i + 1].url)
    requires LowerCaseIsListed(sent[0].sensitiveHeaderNames)
    requires IsSensitive(sent[0].sensitiveHeaderNames, h)
    ensures h !in sent[k].headers
  {
    PolicyIsKept(sent, limit, replies, i);
    SensitiveIsListed(sent[i].sensitiveHeaderNames, h);
    assert Strips(sent[i], StatusAt(replies, i), sent[i + 1].url, h);
    HeadersOnlyShrink(sent, limit, replies, k, h);
    assert Count(sent[k].headers, h) == 0;
  }

  /** The hop keeps no sensitive header, whatever else the request carries. */
  ghost predicate StripsEverySensitive(names: set<string>) {
    forall request: HttpRequest, status: int, url: Url, h: Header ::
      request.sensitiveHeaderNames == names && CrossOrigin(request.url, url) && IsSensitive(names, h) ==>
        h !in RedirectRequest(request, status, url).headers
  }

  /** Cross-origin hops strip every sensitive header exactly when each listed name is covered in lower case. */
  lemma {:induction false} SensitiveIsStrippedIff(names: set<string>)
    ensures StripsEverySensitive(names) <==> LowerCaseIsListed(names)
  {
    if LowerCaseIsListed(names) {
      forall request: HttpRequest, status: int, url: Url, h: Header
        | request.sensitiveHeaderNames == names && CrossOrigin(request.url, url) && IsSensitive(names, h)
        ensures h !in RedirectRequest(request, status, url).headers
      {
        SensitiveIsListed(names, h);
        HopKeepsTheRest(request, status, url, h);
        assert Count(RedirectRequest(request, status, url).headers, h) == 0;
      }
    } else {
      var n :| n in names && Lower(n) !in SENSITIVE_HEADERS && Lower(n) !in names;
      var h := Header(n, "");
      var url := Url(Https, Host("a", None), "/");
      var request := HttpRequest("GET", url.(scheme := Http), [h], None, Follow, None, names);
      HopKeepsTheRest(request, 307, url, h);
      assert Count(RedirectRequest(request, 307, url).headers, h) == Count([h], h) == 1;
      assert IsSensitive(names, h) && CrossOrigin(request.url, url);
      assert h in RedirectRequest(request, 307, url).headers;
    }
  }

  /** A name listed with a capital is not recognised. */
  lemma MixedCaseNameIsCarriedOver(request: HttpRequest, url: Url, value: string)
    requires request.sensitiveHeaderNames == {"X-Api-Key"} && request.headers == [Header("X-Api-Key", value)]
    requires CrossOrigin(request.url, url)
    ensures IsSensitive(request.sensitiveHeaderNames, request.headers[0])
    ensures request.headers[0] in RedirectRequest(request, 307, url).headers
  {
    var h := request.headers[0];
    assert Lower(h.name)[0] == 'x' && Lower(h.name)[1] == '-' && |Lower(h.name)| == 9;
    assert "X-Api-Key" in request.sensitiveHeaderNames;
    assert h in request.headers;
    HopKeepsTheRest(request, 307, url, h);
  }

  /** A Host header goes no further than the host it names. */
  lemma {:induction false} HostHeaderStaysWithHost(
      sent: seq<HttpRequest>, limit: nat, replies: nat -> Reply, k: nat, h: Header)
    requires Chain(sent, limit, replies) && k < |sent| && IsHostHeader(h) && h in sent[k].headers
    ensures h in sent[0].headers && sent[k].url.host == sent[0].url.host
  {
    if k > 0 {
      HopCounts(sent, limit, replies, k - 1, h);
      assert Count(sent[k].headers, h) > 0;
      HostHeaderStaysWithHost(sent, limit, replies, k - 1, h);
    }
  }

  /** Whether one of the first `k` hops rewrote the request to GET. */
  ghost predicate RewrittenBefore(sent: seq<HttpRequest>, replies: nat -> Reply, k: nat)
    requires k < |sent|
  {
    exists i :: 0 <= i < k && BecomesGet(sent[i].verb, StatusAt(replies, i))
  }

  /**
   Method and body are the caller's until a rewriting hop (section 15.4 of RFC 9110), and GET without a body for
   good after it.
   */
  lemma {:induction false} RewriteIsForGood(sent: seq<HttpRequest>, limit: nat, replies: nat -> Reply, k: nat)
    requires Chain(sent, limit, replies) && k < |sent|
    ensures if RewrittenBefore(sent, replies, k) then sent[k].verb == "GET" && sent[k].body == None
            else sent[k].verb == sent[0].verb && sent[k].body == sent[0].body
  {
    if k > 0 {
      RewriteIsForGood(sent, limit, replies, k - 1);
      assert IsHop(sent, k - 1, 0, limit, replies);
      assert RewrittenBefore(sent, replies, k) <==>
        RewrittenBefore(sent, replies, k - 1) || BecomesGet(sent[k - 1].verb, StatusAt(replies, k - 1));
    }
  }

  /** A chain of 307 and 308 replies keeps method and body (sections 15.4.8 and 15.4.9 of RFC 9110). */
  lemma {:induction false} PreservingChainKeepsMethodAndBody(
      sent: seq<HttpRequest>, limit: nat, replies: nat -> Reply, k: nat)
    requires Chain(sent, limit, replies) && k < |sent|
    requires forall i :: 0 <= i < k ==> StatusAt(replies, i) == 307 || StatusAt(replies, i) == 308
    ensures sent[k].verb == sent[0].verb && sent[k].body == sent[0].body
  {
    RewriteIsForGood(sent, limit, replies, k);
  }

  /** The sends of every execution that gets as far as sending form such a chain. */
  lemma {:induction false} ExecutionIsChain(request: HttpRequest, replies: nat -> Reply)
    requires Execute(request, replies).sent != []
    ensures Chain(Execute(request, replies).sent, RedirectLimit(request), replies)
  {
    ChainOfHops(request, 0, RedirectLimit(request), replies);
  }

  // ---- The rules in full, in terms of the requests and replies alone ----

  /** Names that differ in ASCII letter case at most (section 5.1 of RFC 9110). */
  predicate SameName(a: string, b: string) {
    |a| == |b| && forall i :: 0 <= i < |a| ==> SameLetter(a[i], b[i])
  }

  predicate SameLetter(a: char, b: char) {
    || a == b
    || ('A' <= a <= 'Z' && b as int - a as int == 32)
    || ('A' <= b <= 'Z' && a as int - b as int == 32)
  }

  lemma LowerIffSameName(a: string, b: string)
    ensures Lower(a) == Lower(b) <==> SameName(a, b)
  {
    if |a| == |b| {
      forall i | 0 <= i < |a|
        ensures Lower(a)[i] == Lower(b)[i] <==> SameLetter(a[i], b[i])
      {
      }
    }
  }

  /** A name in lower case is found whatever the case it is written in. */
  lemma FoundInAnyCase(name: string, lower: string)
    requires forall i :: 0 <= i < |lower| ==> !('A' <= lower[i] <= 'Z')
    ensures Lower(name) == lower <==> SameName(name, lower)
  {
    assert Lower(lower) == lower;
    LowerIffSameName(name, lower);
  }

  predicate IsSpelled(h: Header, name: string) {
    SameName(h.name, name)
  }

  lemma BuiltInNames(h: Header)
    ensures Lower(h.name) in SENSITIVE_HEADERS <==>
      IsSpelled(h, "authorization") || IsSpelled(h, "cookie") || IsSpelled(h, "proxy-authorization")
    ensures IsEntityHeader(h) <==>
      IsSpelled(h, "content-length") || IsSpelled(h, "content-type") || IsSpelled(h, "transfer-encoding")
    ensures IsHostHeader(h) <==> IsSpelled(h, "host")
  {
    FoundInAnyCase(h.name, "authorization");
    FoundInAnyCase(h.name, "cookie");
    FoundInAnyCase(h.name, "proxy-authorization");
    FoundInAnyCase(h.name, "content-length");
    FoundInAnyCase(h.name, "content-type");
    FoundInAnyCase(h.name, "transfer-encoding");
    FoundInAnyCase(h.name, "host");
  }

  /** The statuses that redirect (section 15.4 of RFC 9110), given with a Location. */
  predicate Redirects(reply: Reply, code: int) {
    && reply.Replied? && reply.status == Some(code) && reply.location.Some?
    && (code == 301 || code == 302 || code == 303 || code == 307 || code == 308)
  }

  /**
   A hop answers a redirecting status with a request for its Location: GET without a body after 303, and after 301 or
   302 to a POST; otherwise with the same method and body.
   */
  lemma {:induction false} HopMethodAndTarget(
      sent: seq<HttpRequest>, limit: nat, replies: nat -> Reply, i: nat, code: int)
    requires Chain(sent, limit, replies) && i + 1 < |sent|
    requires replies(i).Replied? ==> replies(i).status == Some(code) || replies(i).status == None
    ensures Redirects(replies(i), code) && replies(i).location == Some(Resolved(sent[i + 1].url))
    ensures sent[i + 1].url.scheme == Http || sent[i + 1].url.scheme == Https
    ensures sent[i].mode == Follow && i < limit
    ensures if code == 303 || (code == 301 && sent[i].verb == "POST") || (code == 302 && sent[i].verb == "POST") then
        sent[i + 1].verb == "GET" && sent[i + 1].body == None
      else sent[i + 1].verb == sent[i].verb && sent[i + 1].body == sent[i].body
  {
    assert IsHop(sent, i, 0, limit, replies);
  }

  /** Whether the method of the request is rewritten, in terms of the reply. */
  predicate Rewrites(verb: string, reply: Reply) {
    Redirects(reply, 303) || (verb == "POST" && (Redirects(reply, 301) || Redirects(reply, 302)))
  }

  /**
   A header goes on to the next request exactly when no rule takes it away: entity headers where the method is
   rewritten; authorization, cookie, proxy-authorization and the listed names where scheme or host change; host where
   the host does.
   */
  lemma {:induction false} HeaderGoesOnIff(
      sent: seq<HttpRequest>, limit: nat, replies: nat -> Reply, i: nat, h: Header)
    requires Chain(sent, limit, replies) && i + 1 < |sent|
    ensures h in sent[i + 1].headers <==>
      && h in sent[i].headers
      && (Rewrites(sent[i].verb, replies(i)) ==>
            !IsSpelled(h, "content-length") && !IsSpelled(h, "content-type") && !IsSpelled(h, "transfer-encoding"))
      && (sent[i].url.scheme != sent[i + 1].url.scheme || sent[i].url.host != sent[i + 1].url.host ==>
            && !IsSpelled(h, "authorization") && !IsSpelled(h, "cookie") && !IsSpelled(h, "proxy-authorization")
            && Lower(h.name) !in sent[0].sensitiveHeaderNames)
      && (sent[i].url.host != sent[i + 1].url.host ==> !IsSpelled(h, "host"))
  {
    assert IsHop(sent, i, 0, limit, replies);
    HopCounts(sent, limit, replies, i, h);
    PolicyIsKept(sent, limit, replies, i);
    BuiltInNames(h);
    assert h in sent[i + 1].headers <==> Count(sent[i + 1].headers, h) > 0;
    assert h in sent[i].headers <==> Count(sent[i].headers, h) > 0;
  }

  /** Twenty redirects unless the caller says otherwise; no send at all for a limit that is no safe count. */
  lemma {:induction false} LimitInFull(request: HttpRequest, replies: nat -> Reply)
    ensures var sends := |Execute(request, replies).sent|;
      match request.maxRedirects
      case None => 1 <= sends <= 21
      case Some(n) => if 0 <= n <= 9007199254740991 then 1 <= sends <= n + 1 else sends == 0
  {
    SendsAreBounded(request, replies);
  }

  /** A redirect is refused for its protocol only where that is neither http nor https. */
  lemma {:induction false} UnsupportedMeansScheme(request: HttpRequest, replies: nat -> Reply)
    requires Execute(request, replies).result == Err(UnsupportedRedirectProtocol)
    ensures Execute(request, replies).sent != []
    ensures var reply := replies(|Execute(request, replies).sent| - 1);
      && reply.Replied? && reply.location.Some? && reply.location.value.Resolved?
      && reply.location.value.url.scheme != Http && reply.location.value.url.scheme != Https
  {
    var limit := RedirectLimit(request);
    ChainOfHops(request, 0, limit, replies);
    var e := Send(request, 0, limit, replies);
    assert EndsAt(e, |e.sent| - 1, limit, replies);
  }

  /** How a chain of `hops` redirects under `limit` ends, by what the last reply was. */
  lemma {:induction false} EndInFull(request: HttpRequest, replies: nat -> Reply, code: int)
    requires Execute(request, replies).sent != []
    ensures var e := Execute(request, replies);
      var hops, limit := |e.sent| - 1, if request.maxRedirects.Some? then request.maxRedirects.value else 20;
      match replies(hops)
      case Unreachable(error) => e.result == Err(TransportFailure(error))
      case Replied(status, location, content) =>
        && (status == None ==> e.result == Err(NoStatus))
        && (Redirects(replies(hops), code) && request.mode == ErrorMode ==> e.result == Err(RedirectRejected(code)))
        && (Redirects(replies(hops), code) && request.mode == Follow ==>
              e.result == Err(
                if hops == limit then TooManyRedirects
                else if location.value.Unresolvable? then InvalidRedirectUrl
                else UnsupportedRedirectProtocol))
        && (status == Some(code) && (!Redirects(replies(hops), code) || request.mode == Manual) ==>
              e.result == match content
                case Err(error) => Err(TransportFailure(error))
                case Ok(body) => Ok(HttpResponse(code, body, e.sent[hops].url, hops > 0, hops)))
  {
    var limit := RedirectLimit(request);
    ChainOfHops(request, 0, limit, replies);
    var e := Send(request, 0, limit, replies);
    PolicyIsKept(e.sent, limit, replies, |e.sent| - 1);
    assert EndsAt(e, |e.sent| - 1, limit, replies);
  }
}
