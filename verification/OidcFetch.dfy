/**
 One refresh as it reaches the network: discovery, the declared key-set location, and every redirect
 either takes. The upstream is arbitrary and may answer differently each time, knowing every request
 made so far.
 */
module OidcFetch {
  import opened Common
  import opened Hex
  import opened Text

  const HTTP_MAX_REDIRECTS: nat := 3

  /** A parsed absolute URL. Port, path and query are in `rest`: no check looks at them. */
  datatype Url = Url(scheme: string, host: Option<string>, rest: string)

  // ----- Origins ---------------------------------------------------------------------------------

  /** Scheme and host of section 4 of RFC 6454, without the port. */
  predicate SameOrigin(a: Url, b: Url) {
    a.host.Some? && b.host.Some? && SameIgnoringCase(a.host.value, b.host.value) && a.scheme == b.scheme
  }

  datatype HopRefusal = OffHost | SchemeChanged

  /** Binds one redirect hop to the URL the request was made for. */
  function CheckHop(requested: Option<Url>, next: Url): (r: Result<(), HopRefusal>)
    ensures r.Ok? <==> requested.Some? && SameOrigin(requested.value, next)
    ensures r == Err(SchemeChanged) <==>
            && requested.Some? && !SameOrigin(requested.value, next)
            && SameOrigin(requested.value, next.(scheme := requested.value.scheme))
  {
    if requested == None then Err(OffHost)
    else if requested.value.host == None || next.host == None then Err(OffHost)
    else if !SameIgnoringCase(requested.value.host.value, next.host.value) then Err(OffHost)
    else if requested.value.scheme != next.scheme then Err(SchemeChanged)
    else Ok(())
  }

  datatype JwksUriCheckError = Unparsable | UriOffHost | SchemeMismatch

  /** Binds the declared key-set URL to the issuer, before anything is fetched from it. */
  function CheckJwksUriBound(issuer: Option<Url>, jwks: Option<Url>): (r: Result<(), JwksUriCheckError>)
    ensures r.Ok? <==> issuer.Some? && jwks.Some? && SameOrigin(issuer.value, jwks.value)
    ensures r == Err(Unparsable) <==> issuer == None || jwks == None || issuer.value.host == None || jwks.value.host == None
  {
    if issuer == None || jwks == None then Err(Unparsable)
    else if issuer.value.host == None || jwks.value.host == None then Err(Unparsable)
    else if !SameIgnoringCase(issuer.value.host.value, jwks.value.host.value) then Err(UriOffHost)
    else if issuer.value.scheme != jwks.value.scheme then Err(SchemeMismatch)
    else Ok(())
  }

  // ----- The capped body -------------------------------------------------------------------------

  datatype Chunk = Data(bytes: Bytes) | StreamError

  datatype FetchError = FetchFailed | BodyTooLarge

  function Body(chunks: seq<Chunk>): Bytes {
    if chunks == [] then []
    else Body(chunks[..|chunks| - 1]) + if chunks[|chunks| - 1].Data? then chunks[|chunks| - 1].bytes else []
  }

  ghost predicate Intact(chunks: seq<Chunk>) {
    forall i :: 0 <= i < |chunks| ==> chunks[i].Data?
  }

  /** A body is its chunks in the order they arrive. */
  lemma {:induction false} BodyInOrder(bytes: Bytes, rest: seq<Chunk>)
    ensures Body([Data(bytes)] + rest) == bytes + Body(rest) && Body([]) == []
    decreases rest
  {
    var chunks := [Data(bytes)] + rest;
    if rest == [] {
      assert chunks[..0] == [];
    } else {
      BodyInOrder(bytes, rest[..|rest| - 1]);
      assert chunks[..|chunks| - 1] == [Data(bytes)] + rest[..|rest| - 1];
    }
  }

  lemma {:induction false} BodyGrows(chunks: seq<Chunk>, n: nat)
    requires n <= |chunks|
    ensures |Body(chunks[..n])| <= |Body(chunks)|
  {
    if n < |chunks| {
      var front := chunks[..|chunks| - 1];
      BodyGrows(front, n);
      assert front[..n] == chunks[..n];
    } else {
      assert chunks[..n] == chunks;
    }
  }

  lemma IntactStopsAt(chunks: seq<Chunk>, i: nat, n: nat)
    requires i < |chunks| && n <= |chunks| && chunks[i].StreamError? && Intact(chunks[..n])
    ensures n <= i
  {
  }

  /** The whole body is returned exactly when the stream is intact and fits the cap; never a part of it. */
  method ReadCapped(chunks: seq<Chunk>, cap: nat) returns (r: Result<Bytes, FetchError>)
    ensures r.Ok? <==> Intact(chunks) && |Body(chunks)| <= cap
    ensures r.Ok? ==> r.value == Body(chunks)
    ensures r == Err(BodyTooLarge) <==>
            exists n :: 0 <= n <= |chunks| && Intact(chunks[..n]) && |Body(chunks[..n])| > cap
  {
    var buf: Bytes := [];
    for i := 0 to |chunks|
      invariant Intact(chunks[..i]) && buf == Body(chunks[..i]) && |buf| <= cap
    {
      assert chunks[..i + 1][..i] == chunks[..i];
      if chunks[i].StreamError? {
        forall n | 0 <= n <= |chunks| && Intact(chunks[..n]) ensures |Body(chunks[..n])| <= cap {
          IntactStopsAt(chunks, i, n);
          assert chunks[..i][..n] == chunks[..n];
          BodyGrows(chunks[..i], n);
        }
        return Err(FetchFailed);
      }
      if |buf| + |chunks[i].bytes| > cap {
        assert Intact(chunks[..i + 1]) && |Body(chunks[..i + 1])| > cap;
        BodyGrows(chunks, i + 1);
        return Err(BodyTooLarge);
      }
      buf := buf + chunks[i].bytes;
    }
    assert chunks[..|chunks|] == chunks;
    forall n | 0 <= n <= |chunks| ensures |Body(chunks[..n])| <= cap {
      BodyGrows(chunks, n);
    }
    return Ok(buf);
  }

  // ----- One GET, with its redirects -------------------------------------------------------------

  datatype Reply =
    | Redirect(to: Url)
    | Response(success: bool, chunks: seq<Chunk>)
    | NoReply

  /** What the upstream answers to the last request of a history. */
  type Upstream = seq<Url> -> Reply

  ghost predicate AllSameOrigin(urls: seq<Url>, origin: Url) {
    forall i :: 0 <= i < |urls| ==> SameOrigin(origin, urls[i])
  }

  /** Each request but the first is where the reply to the one before redirects, on the origin of the first. */
  ghost predicate Trail(start: Url, upstream: Upstream, before: seq<Url>, requests: seq<Url>) {
    && 1 <= |requests| <= HTTP_MAX_REDIRECTS + 1 && requests[0] == start && start.host.Some?
    && forall i :: 1 <= i < |requests| ==> upstream(before + requests[..i]) == Redirect(requests[i]) && SameOrigin(start, requests[i])
  }

  /** A trail that ends in a successful reply. */
  ghost predicate Answered(start: Url, upstream: Upstream, before: seq<Url>, requests: seq<Url>) {
    Trail(start, upstream, before, requests) && upstream(before + requests).Response? && upstream(before + requests).success
  }

  /** What the last reply carried, chunk by chunk. */
  ghost function Carried(upstream: Upstream, before: seq<Url>, requests: seq<Url>): seq<Chunk> {
    var last := upstream(before + requests);
    if last.Response? then last.chunks else []
  }

  /** A trail that ends in a successful reply, intact and within the cap. */
  ghost predicate Delivered(start: Url, cap: nat, upstream: Upstream, before: seq<Url>, requests: seq<Url>) {
    && Answered(start, upstream, before, requests)
    && Intact(Carried(upstream, before, requests)) && |Body(Carried(upstream, before, requests))| <= cap
  }

  /** Some intact part of the reply is already larger than the cap. */
  ghost predicate TooLarge(chunks: seq<Chunk>, cap: nat) {
    exists n :: 0 <= n <= |chunks| && Intact(chunks[..n]) && |Body(chunks[..n])| > cap
  }

  /** The upstream decides the trail: one that got an answer continues every other. */
  lemma {:induction false} TrailContinues(start: Url, upstream: Upstream, before: seq<Url>, part: seq<Url>, whole: seq<Url>, n: nat)
    requires Trail(start, upstream, before, part) && Answered(start, upstream, before, whole) && n <= |part|
    ensures part[..n] <= whole
  {
    if n > 0 {
      TrailContinues(start, upstream, before, part, whole, n - 1);
      if n > 1 {
        assert upstream(before + part[..n - 1]) == Redirect(part[n - 1]);
        assert part[..n - 1] == whole[..n - 1];
        assert |whole| == n - 1 || upstream(before + whole[..n - 1]) == Redirect(whole[n - 1]);
        assert whole[..|whole|] == whole;
      }
    }
  }

  /** Where a trail stops without an answer, there is none. */
  lemma StopsHere(start: Url, upstream: Upstream, before: seq<Url>, part: seq<Url>)
    requires Trail(start, upstream, before, part)
    requires var last := upstream(before + part);
             match last
             case NoReply => true
             case Response(success, _) => !success
             case Redirect(to) => !SameOrigin(start, to) || |part| > HTTP_MAX_REDIRECTS
    ensures forall whole :: !Answered(start, upstream, before, whole)
  {
    forall whole ensures !Answered(start, upstream, before, whole) {
      if Answered(start, upstream, before, whole) {
        TrailContinues(start, upstream, before, part, whole, |part|);
        assert part[..|part|] == part && whole[..|part|] == part;
        NoLonger(start, upstream, before, part, whole);
        assert false;
      }
    }
  }

  lemma NoLonger(start: Url, upstream: Upstream, before: seq<Url>, part: seq<Url>, whole: seq<Url>)
    requires Answered(start, upstream, before, whole) && part <= whole && part != []
    ensures part == whole || (|part| <= HTTP_MAX_REDIRECTS && upstream(before + part) == Redirect(whole[|part|]) && SameOrigin(start, whole[|part|]))
  {
    if part != whole {
      assert whole[..|part|] == part;
    }
  }

  /** There is one trail that gets an answer, if any. */
  lemma OneAnswer(start: Url, upstream: Upstream, before: seq<Url>, a: seq<Url>, b: seq<Url>)
    requires Answered(start, upstream, before, a) && Answered(start, upstream, before, b)
    ensures a == b
  {
    TrailContinues(start, upstream, before, a, b, |a|);
    TrailContinues(start, upstream, before, b, a, |b|);
    assert a[..|a|] == a && b[..|b|] == b;
  }

  /**
   GET `start`: at most four requests, every one on the origin of `start`. It gives the body of the last
   reply if and only if a trail of redirects on that origin ends in a successful reply, intact and within
   the cap.
   */
  method GetCappedBody(start: Url, cap: nat, upstream: Upstream, before: seq<Url>)
    returns (r: Result<Bytes, FetchError>, requests: seq<Url>)
    ensures |requests| <= HTTP_MAX_REDIRECTS + 1
    ensures AllSameOrigin(requests, start)
    ensures requests != [] ==> Trail(start, upstream, before, requests)
    ensures r.Ok? ==> Delivered(start, cap, upstream, before, requests) && r.value == Body(Carried(upstream, before, requests))
    ensures forall urls :: Delivered(start, cap, upstream, before, urls) ==> r.Ok? && requests == urls
    ensures r == Err(BodyTooLarge) <==> Answered(start, upstream, before, requests) && TooLarge(Carried(upstream, before, requests), cap)
  {
    if start.host == None {
      return Err(FetchFailed), [];
    }
    requests := [start];
    while true
      invariant Trail(start, upstream, before, requests)
      invariant AllSameOrigin(requests, start)
      decreases HTTP_MAX_REDIRECTS + 1 - |requests|
    {
      match upstream(before + requests) {
        case NoReply =>
          StopsHere(start, upstream, before, requests);
          return Err(FetchFailed), requests;
        case Response(success, chunks) =>
          if !success {
            StopsHere(start, upstream, before, requests);
            return Err(FetchFailed), requests;
          }
          r := ReadCapped(chunks, cap);
          forall urls | Delivered(start, cap, upstream, before, urls) ensures urls == requests {
            OneAnswer(start, upstream, before, urls, requests);
          }
          return r, requests;
        case Redirect(to) =>
          if CheckHop(Some(requests[0]), to).Err? || |requests| > HTTP_MAX_REDIRECTS {
            StopsHere(start, upstream, before, requests);
            return Err(FetchFailed), requests;
          }
          TrailOneMore(start, upstream, before, requests, to);
          requests := requests + [to];
      }
    }
  }

  lemma TrailOneMore(start: Url, upstream: Upstream, before: seq<Url>, requests: seq<Url>, to: Url)
    requires Trail(start, upstream, before, requests) && |requests| <= HTTP_MAX_REDIRECTS
    requires upstream(before + requests) == Redirect(to) && SameOrigin(start, to)
    ensures Trail(start, upstream, before, requests + [to])
  {
    var longer := requests + [to];
    forall i | 1 <= i < |longer| ensures upstream(before + longer[..i]) == Redirect(longer[i]) && SameOrigin(start, longer[i]) {
      if i < |requests| {
        assert longer[..i] == requests[..i];
      } else {
        assert longer[..i] == requests;
      }
    }
  }

  // ----- The refresh -----------------------------------------------------------------------------

  function TrimEndSlashes(s: string): (t: string)
    ensures t <= s && (t == [] || t[|t| - 1] != '/')
    ensures forall i :: |t| <= i < |s| ==> s[i] == '/'
  {
    if s != [] && s[|s| - 1] == '/' then TrimEndSlashes(s[..|s| - 1]) else s
  }

  /** The issuer without its trailing slashes, and the well-known path. */
  function DiscoveryUrl(issuer: string): (url: string)
    ensures exists n :: 0 <= n <= |issuer| && url == issuer[..n] + "/.well-known/openid-configuration"
                        && (forall i :: n <= i < |issuer| ==> issuer[i] == '/') && (n > 0 ==> issuer[n - 1] != '/')
  {
    var trimmed := TrimEndSlashes(issuer);
    assert issuer[..|trimmed|] == trimmed;
    trimmed + "/.well-known/openid-configuration"
  }

  /** What is assumed of the URL parser and the two JSON decoders. */
  datatype Library<Doc> = Library(
    parse: string -> Option<Url>,
    discovery: Bytes -> Option<string>,
    jwks: Bytes -> Option<Doc>)

  /** The discovery URL is on the issuer's own origin, as appending a path should leave it. */
  ghost predicate DiscoveryOnIssuer<Doc>(lib: Library<Doc>, issuer: string) {
    var d, i := lib.parse(DiscoveryUrl(issuer)), lib.parse(issuer);
    d.Some? ==> i.Some? && SameOrigin(i.value, d.value)
  }

  /**
   Two legs that make a refresh: discovery delivers a document that declares a location on the issuer's
   origin, and the leg that begins there delivers the key set.
   */
  ghost predicate Refreshes<Doc>(issuer: string, lib: Library<Doc>, cap: nat, upstream: Upstream, first: seq<Url>, second: seq<Url>) {
    && lib.parse(DiscoveryUrl(issuer)).Some? && lib.parse(issuer).Some?
    && Delivered(lib.parse(DiscoveryUrl(issuer)).value, cap, upstream, [], first)
    && var declared := lib.discovery(Body(Carried(upstream, [], first)));
    && declared.Some? && lib.parse(declared.value).Some? && SameOrigin(lib.parse(issuer).value, lib.parse(declared.value).value)
    && Delivered(lib.parse(declared.value).value, cap, upstream, first, second)
    && lib.jwks(Body(Carried(upstream, first, second))).Some?
  }

  /**
   Fetch the key set. At most eight requests; the discovery leg stays on the origin of the discovery
   URL and the key-set leg on the issuer's, whatever the upstream answers. The result is the key set that
   the last reply of the key-set leg holds, and there is one if and only if the two legs make a refresh.
   */
  method FetchJwks<Doc>(issuer: string, lib: Library<Doc>, cap: nat, upstream: Upstream)
    returns (r: Result<Doc, FetchError>, requests: seq<Url>, ghost discoveryLeg: nat)
    ensures |requests| <= 2 * (HTTP_MAX_REDIRECTS + 1)
    ensures discoveryLeg <= |requests|
    ensures discoveryLeg > 0 ==>
              && lib.parse(DiscoveryUrl(issuer)).Some?
              && AllSameOrigin(requests[..discoveryLeg], lib.parse(DiscoveryUrl(issuer)).value)
    ensures discoveryLeg < |requests| ==>
              lib.parse(issuer).Some? && AllSameOrigin(requests[discoveryLeg..], lib.parse(issuer).value)
    ensures r.Ok? ==>
              && Refreshes(issuer, lib, cap, upstream, requests[..discoveryLeg], requests[discoveryLeg..])
              && lib.jwks(Body(Carried(upstream, requests[..discoveryLeg], requests[discoveryLeg..]))) == Some(r.value)
    ensures forall first, second :: Refreshes(issuer, lib, cap, upstream, first, second) ==>
              r.Ok? && requests == first + second && discoveryLeg == |first|
    ensures r.Ok? ==> lib.parse(issuer).Some? && requests != [] && SameOrigin(lib.parse(issuer).value, requests[|requests| - 1])
    ensures DiscoveryOnIssuer(lib, issuer) && requests != [] ==>
              lib.parse(issuer).Some? && AllSameOrigin(requests, lib.parse(issuer).value)
  {
    requests, discoveryLeg := [], 0;
    var discoveryUrl := lib.parse(DiscoveryUrl(issuer));
    if discoveryUrl == None {
      return Err(FetchFailed), requests, discoveryLeg;
    }
    var body, first := GetCappedBody(discoveryUrl.value, cap, upstream, []);
    requests, discoveryLeg := first, |first|;
    assert requests[..discoveryLeg] == first;
    if DiscoveryOnIssuer(lib, issuer) {
      OnIssuer(lib.parse(issuer).value, discoveryUrl.value, first);
    }
    if body.Err? {
      return Err(body.error), requests, discoveryLeg;
    }
    var declared := lib.discovery(body.value);
    if declared == None || CheckJwksUriBound(lib.parse(issuer), lib.parse(declared.value)).Err? {
      return Err(FetchFailed), requests, discoveryLeg;
    }
    var keys, second := GetCappedBody(lib.parse(declared.value).value, cap, upstream, first);
    OnIssuer(lib.parse(issuer).value, lib.parse(declared.value).value, second);
    requests := first + second;
    assert requests[..discoveryLeg] == first && requests[discoveryLeg..] == second;
    if keys.Err? {
      return Err(keys.error), requests, discoveryLeg;
    }
    var doc := lib.jwks(keys.value);
    return if doc.Some? then Ok(doc.value) else Err(FetchFailed), requests, discoveryLeg;
  }

  lemma OnIssuer(issuer: Url, start: Url, urls: seq<Url>)
    requires SameOrigin(issuer, start) && AllSameOrigin(urls, start)
    ensures AllSameOrigin(urls, issuer)
  {
  }
}
