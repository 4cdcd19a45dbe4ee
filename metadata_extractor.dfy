/** The metadata extractor of the fetch-metadata edge function: the SSRF gate on the URL,
    the checks on the HTTP response, and the title/description fallbacks read from the
    parsed document. The URL parser, the network and the HTML parser are parameters. */
module MetadataExtractor {
  import opened Common
  import opened JsText

  const FETCH_TIMEOUT_MS := 10_000
  const MAX_RESPONSE_BYTES := 5_000_000
  const USER_AGENT := "Dogmatix/1.0 (+https://api.linkblog.in)"
  const MAX_TITLE_LENGTH := 500
  const MAX_DESCRIPTION_LENGTH := 1000

  /** What the extractor returns for one page. */
  datatype Metadata = Metadata(title: Option<string>, description: Option<string>)

  /** Every way `fetchMetadata` can throw; `Message` is the error's `message` text. */
  datatype FetchError =
    | InvalidUrl
    | SchemeNotAllowed(protocol: string)
    | LocalhostNotAllowed
    | PrivateIpNotAllowed
    | HttpStatus(status: nat, statusText: string)
    | UnsupportedContentType(contentType: string)
    | ResponseTooLarge
    | RequestFailed(message: string)
  {
    /** The errors `validateUrl` throws, before any request is made. */
    predicate IsUrlRejection() {
      InvalidUrl? || SchemeNotAllowed? || LocalhostNotAllowed? || PrivateIpNotAllowed?
    }

    function Message(): (m: string)
      ensures InvalidUrl? ==> m == "Invalid URL format"
      ensures SchemeNotAllowed? ==> m == "URL Scheme not allowed(not http or https): " + protocol
      ensures LocalhostNotAllowed? ==> m == "Localhost not allowed"
      ensures PrivateIpNotAllowed? ==> m == "Private IP address not allowed"
      ensures HttpStatus? ==> m == "HTTP " + DecimalString(status) + " " + statusText
      ensures UnsupportedContentType? ==> m == "Unsupported content type: " + contentType
      ensures ResponseTooLarge? ==> m == "Response too large"
      ensures RequestFailed? ==> m == message
    {
      match this
      case InvalidUrl => "Invalid URL format"
      case SchemeNotAllowed(p) => "URL Scheme not allowed(not http or https): " + p
      case LocalhostNotAllowed => "Localhost not allowed"
      case PrivateIpNotAllowed => "Private IP address not allowed"
      case HttpStatus(status, text) => "HTTP " + DecimalString(status) + " " + text
      case UnsupportedContentType(ct) => "Unsupported content type: " + ct
      case ResponseTooLarge => "Response too large"
      case RequestFailed(m) => m
    }
  }

  function Min(a: nat, b: nat): nat {
    if a <= b then a else b
  }

  /** `truncate(value, max)`: a missing or empty value becomes `None`; anything else is cut
      to its first `max` characters, with no marker. */
  function Truncate(value: Option<string>, max: nat): (r: Option<string>)
    ensures r.None? <==> !Truthy(value)
    ensures r.Some? ==> |r.value| == Min(|value.value|, max) && r.value <= value.value
    ensures Truthy(value) && |value.value| <= max ==> r == value
  {
    if !Truthy(value) then None
    else if |value.value| > max then Some(value.value[..max])
    else value
  }

  // ---------------------------------------------------------------------------------
  // URL gate

  /** What `new URL(url)` yields that the gate looks at; `protocol` keeps its colon. */
  datatype ParsedUrl = ParsedUrl(protocol: string, hostname: string)

  predicate SchemeAllowed(protocol: string) {
    protocol == "http:" || protocol == "https:"
  }

  predicate IsLoopbackName(host: string) {
    host == "localhost" || host == "127.0.0.1" || host == "::1"
  }

  /** `s.split('.')`: the maximal dot-free pieces of `s`, in order. */
  function SplitDots(s: string): (parts: seq<string>)
    ensures |parts| >= 1
    ensures forall i | 0 <= i < |parts| :: '.' !in parts[i]
    ensures s != [] && s[0] != '.' ==> parts[0] != [] && parts[0][0] == s[0]
    ensures JoinDots(parts) == s
  {
    if s == [] then [[]]
    else
      var rest := SplitDots(s[1..]);
      if s[0] == '.' then
        assert JoinDots([[]] + rest) == "." + JoinDots(rest);
        [[]] + rest
      else
        var parts := [[s[0]] + rest[0]] + rest[1..];
        assert |rest| > 1 ==> JoinDots(rest) == rest[0] + "." + JoinDots(rest[1..]);
        parts
  }

  /** `parts.join('.')`. */
  function JoinDots(parts: seq<string>): string
    requires |parts| >= 1
  {
    if |parts| == 1 then parts[0] else parts[0] + "." + JoinDots(parts[1..])
  }

  /** `\d{1,3}`: one to three ASCII digits. */
  predicate IsDigitGroup(g: string) {
    1 <= |g| <= 3 && AllDigits(g)
  }

  /** Four groups of one to three digits. */
  predicate IsQuad(gs: seq<string>) {
    |gs| == 4 && IsDigitGroup(gs[0]) && IsDigitGroup(gs[1]) && IsDigitGroup(gs[2])
    && IsDigitGroup(gs[3])
  }

  /** `gs` are the four groups of `/^(\d{1,3})\.(\d{1,3})\.(\d{1,3})\.(\d{1,3})$/` on `h`. */
  predicate IsDottedQuadOf(gs: seq<string>, h: string) {
    IsQuad(gs) && JoinDots(gs) == h
  }

  /** The match of the dotted-quad pattern on a host name: its four groups, or `None`. */
  function MatchDottedQuad(h: string): (m: Option<seq<string>>)
    ensures m.Some? ==> IsDottedQuadOf(m.value, h)
  {
    var parts := SplitDots(h);
    if |parts| == 4 && IsDigitGroup(parts[0]) && IsDigitGroup(parts[1])
      && IsDigitGroup(parts[2]) && IsDigitGroup(parts[3])
    then Some(parts)
    else None
  }

  lemma {:induction false} SplitDotFree(p: string)
    requires '.' !in p
    ensures SplitDots(p) == [p]
  {
    if p != [] {
      SplitDotFree(p[1..]);
      assert [p[0]] + p[1..] == p;
    }
  }

  lemma {:induction false} SplitAfterPiece(p: string, rest: string)
    requires '.' !in p
    ensures SplitDots(p + "." + rest) == [p] + SplitDots(rest)
  {
    if p == [] {
      assert p + "." + rest == "." + rest;
      assert ("." + rest)[1..] == rest;
    } else {
      var x := p + "." + rest;
      assert x[0] == p[0] && x[0] != '.';
      assert x[1..] == p[1..] + "." + rest;
      SplitAfterPiece(p[1..], rest);
      var r := SplitDots(x[1..]);
      assert r == [p[1..]] + SplitDots(rest);
      assert SplitDots(x) == [[x[0]] + r[0]] + r[1..];
      assert [p[0]] + p[1..] == p;
      assert r[1..] == SplitDots(rest);
    }
  }

  /** Splitting a join of dot-free pieces gives the pieces back. */
  lemma {:induction false} SplitJoin(parts: seq<string>)
    requires |parts| >= 1
    requires forall i | 0 <= i < |parts| :: '.' !in parts[i]
    ensures SplitDots(JoinDots(parts)) == parts
  {
    if |parts| == 1 {
      SplitDotFree(parts[0]);
    } else {
      SplitJoin(parts[1..]);
      SplitAfterPiece(parts[0], JoinDots(parts[1..]));
      assert [parts[0]] + parts[1..] == parts;
    }
  }

  /** The matcher finds every dotted quad, and with it exactly its four groups. */
  lemma MatchDottedQuadComplete(gs: seq<string>, h: string)
    requires IsDottedQuadOf(gs, h)
    ensures MatchDottedQuad(h) == Some(gs)
  {
    assert forall i | 0 <= i < 4 :: '.' !in gs[i];
    SplitJoin(gs);
  }

  /** The first two octets of a literal address fall in 10/8, 172.16/12, 192.168/16 or
      169.254/16. */
  predicate IsPrivateOctets(a: nat, b: nat) {
    a == 10 || (a == 172 && 16 <= b <= 31) || (a == 192 && b == 168) || (a == 169 && b == 254)
  }

  /** The literal-address part of the gate, stated on the pattern's meaning rather than on
      the matcher: `h` is a dotted quad whose first two octets are private. */
  ghost predicate IsPrivateLiteral(h: string) {
    exists gs :: IsDottedQuadOf(gs, h) && IsPrivateOctets(DigitsValue(gs[0]), DigitsValue(gs[1]))
  }

  /** `validateUrl(url)`, given what the URL parser made of `url`. */
  function ValidateUrl(parsed: Option<ParsedUrl>): (r: Outcome<FetchError>)
    ensures parsed.None? ==> r == Fail(InvalidUrl)
    ensures parsed.Some? && !SchemeAllowed(parsed.value.protocol) ==>
      r == Fail(SchemeNotAllowed(parsed.value.protocol))
    ensures (parsed.Some? && SchemeAllowed(parsed.value.protocol)
             && IsLoopbackName(ToLowerAscii(parsed.value.hostname))) ==> r == Fail(LocalhostNotAllowed)
    ensures r.Fail? ==> r.error.IsUrlRejection()
  {
    if parsed.None? then Fail(InvalidUrl)
    else
      var url := parsed.value;
      if !SchemeAllowed(url.protocol) then Fail(SchemeNotAllowed(url.protocol))
      else
        var host := ToLowerAscii(url.hostname);
        if IsLoopbackName(host) then Fail(LocalhostNotAllowed)
        else match MatchDottedQuad(host)
          case Some(groups) =>
            if IsPrivateOctets(DigitsValue(groups[0]), DigitsValue(groups[1]))
            then Fail(PrivateIpNotAllowed)
            else Pass
          case None => Pass
  }

  /** The gate as a policy: a URL passes exactly when it parses, its scheme is http or https,
      its lower-cased host is no loopback name and is no private dotted quad; and the
      private-address error is raised exactly for the last case. */
  lemma ValidateUrlPolicy(parsed: Option<ParsedUrl>)
    ensures ValidateUrl(parsed) == Pass <==>
      parsed.Some? && SchemeAllowed(parsed.value.protocol)
      && !IsLoopbackName(ToLowerAscii(parsed.value.hostname))
      && !IsPrivateLiteral(ToLowerAscii(parsed.value.hostname))
    ensures ValidateUrl(parsed) == Fail(PrivateIpNotAllowed) <==>
      parsed.Some? && SchemeAllowed(parsed.value.protocol)
      && !IsLoopbackName(ToLowerAscii(parsed.value.hostname))
      && IsPrivateLiteral(ToLowerAscii(parsed.value.hostname))
  {
    if parsed.Some? {
      var host := ToLowerAscii(parsed.value.hostname);
      if IsPrivateLiteral(host) {
        var gs :| IsDottedQuadOf(gs, host)
          && IsPrivateOctets(DigitsValue(gs[0]), DigitsValue(gs[1]));
        MatchDottedQuadComplete(gs, host);
      }
    }
  }

  /** The verdict on a dotted-quad host under an allowed scheme: 127.0.0.1 is the loopback
      name; otherwise only the values of the first two octets decide, so 172.32.x.x and
      8.8.8.8 pass and 10.x.x.x, 172.16-31.x.x, 192.168.x.x and 169.254.x.x do not. */
  lemma DottedQuadVerdict(protocol: string, gs: seq<string>)
    requires SchemeAllowed(protocol) && IsQuad(gs)
    ensures ValidateUrl(Some(ParsedUrl(protocol, JoinDots(gs)))) ==
      if JoinDots(gs) == "127.0.0.1" then Fail(LocalhostNotAllowed)
      else if IsPrivateOctets(DigitsValue(gs[0]), DigitsValue(gs[1])) then Fail(PrivateIpNotAllowed)
      else Pass
  {
    var h := JoinDots(gs);
    JoinFour(gs);
    assert IsDigit(h[0]);
    assert "localhost"[0] == 'l' && "::1"[0] == ':';
    assert ToLowerAscii(h) == h;
    MatchDottedQuadComplete(gs, h);
  }

  lemma JoinFour(gs: seq<string>)
    requires IsQuad(gs)
    ensures JoinDots(gs) == gs[0] + "." + gs[1] + "." + gs[2] + "." + gs[3]
    ensures forall i | 0 <= i < |JoinDots(gs)| :: IsDigit(JoinDots(gs)[i]) || JoinDots(gs)[i] == '.'
  {
    assert gs[1..][0] == gs[1] && gs[1..][1..] == gs[2..];
    assert gs[2..][0] == gs[2] && gs[2..][1..] == gs[3..];
    assert JoinDots(gs[3..]) == gs[3];
    var a, b, c, d := gs[0], gs[1], gs[2], gs[3];
    calc {
      JoinDots(gs);
      a + "." + JoinDots(gs[1..]);
      a + "." + (b + "." + JoinDots(gs[2..]));
      a + "." + (b + "." + (c + "." + d));
      { assert b + "." + (c + "." + d) == b + "." + c + "." + d; }
      a + "." + (b + "." + c + "." + d);
      a + "." + b + "." + c + "." + d;
    }
  }

  /** A host name holding any character other than a digit or a dot is no literal address,
      so the gate lets it through unless it is a loopback name. */
  lemma NamedHostPasses(protocol: string, hostname: string, i: nat)
    requires SchemeAllowed(protocol)
    requires i < |hostname| && !IsDigit(LowerAscii(hostname[i])) && LowerAscii(hostname[i]) != '.'
    requires !IsLoopbackName(ToLowerAscii(hostname))
    ensures ValidateUrl(Some(ParsedUrl(protocol, hostname))) == Pass
  {
    var host := ToLowerAscii(hostname);
    ValidateUrlPolicy(Some(ParsedUrl(protocol, hostname)));
    if IsPrivateLiteral(host) {
      var gs :| IsDottedQuadOf(gs, host) && IsPrivateOctets(DigitsValue(gs[0]), DigitsValue(gs[1]));
      JoinFour(gs);
    }
  }

  /** Other schemes are refused before the host is looked at; loopback names are refused
      in any letter case. */
  lemma SchemeAndLoopbackExamples()
    ensures ValidateUrl(None) == Fail(InvalidUrl)
    ensures ValidateUrl(Some(ParsedUrl("ftp:", "127.0.0.1"))) == Fail(SchemeNotAllowed("ftp:"))
    ensures ValidateUrl(Some(ParsedUrl("http:", "LOCALHOST"))) == Fail(LocalhostNotAllowed)
    ensures ValidateUrl(Some(ParsedUrl("https:", "127.0.0.1"))) == Fail(LocalhostNotAllowed)
  {
    assert ToLowerAscii("LOCALHOST") == "localhost";
    assert ToLowerAscii("127.0.0.1") == "127.0.0.1";
  }

  /** An address in 10/8 is refused. */
  lemma TenRangeRefused()
    ensures ValidateUrl(Some(ParsedUrl("https:", "10.1.2.3"))) == Fail(PrivateIpNotAllowed)
  {
    TwoDigits("10");
    QuadExample("https:", "10", "1", "2", "3", "10.1.2.3", 10, 1);
  }

  /** The top of 172.16/12 is refused. */
  lemma UpperPrivate172Refused()
    ensures ValidateUrl(Some(ParsedUrl("https:", "172.31.0.1"))) == Fail(PrivateIpNotAllowed)
  {
    ThreeDigits("172");
    TwoDigits("31");
    QuadExample("https:", "172", "31", "0", "1", "172.31.0.1", 172, 31);
  }

  /** The address just above 172.16/12 passes. */
  lemma Public172Passes()
    ensures ValidateUrl(Some(ParsedUrl("https:", "172.32.0.1"))) == Pass
  {
    ThreeDigits("172");
    TwoDigits("32");
    QuadExample("https:", "172", "32", "0", "1", "172.32.0.1", 172, 32);
  }

  /** A public address passes. */
  lemma PublicAddressPasses()
    ensures ValidateUrl(Some(ParsedUrl("http:", "8.8.8.8"))) == Pass
  {
    QuadExample("http:", "8", "8", "8", "8", "8.8.8.8", 8, 8);
  }

  /** A named host passes. */
  lemma NamedHostExample()
    ensures ValidateUrl(Some(ParsedUrl("https:", "example.com"))) == Pass
  {
    NamedHostPasses("https:", "example.com", 0);
  }

  lemma QuadExample(protocol: string, a: string, b: string, c: string, d: string, h: string, x: nat, y: nat)
    requires SchemeAllowed(protocol) && IsQuad([a, b, c, d])
    requires h == a + "." + b + "." + c + "." + d && h != "127.0.0.1"
    requires x == DigitsValue(a) && y == DigitsValue(b)
    ensures ValidateUrl(Some(ParsedUrl(protocol, h))) ==
      if IsPrivateOctets(x, y) then Fail(PrivateIpNotAllowed) else Pass
  {
    Quad(a, b, c, d);
    DottedQuadVerdict(protocol, [a, b, c, d]);
  }

  lemma TwoDigits(s: string)
    requires |s| == 2 && AllDigits(s)
    ensures DigitsValue(s) == 10 * DigitValue(s[0]) + DigitValue(s[1])
  {
    var first := s[..1];
    assert first[..0] == [] && first[0] == s[0];
    assert DigitsValue(first) == DigitValue(s[0]);
    assert s[..|s| - 1] == first;
  }

  lemma ThreeDigits(s: string)
    requires |s| == 3 && AllDigits(s)
    ensures DigitsValue(s) == 100 * DigitValue(s[0]) + 10 * DigitValue(s[1]) + DigitValue(s[2])
  {
    TwoDigits(s[..2]);
    assert s[..2][0] == s[0] && s[..2][1] == s[1];
  }

  lemma Quad(a: string, b: string, c: string, d: string)
    requires IsQuad([a, b, c, d])
    ensures JoinDots([a, b, c, d]) == a + "." + b + "." + c + "." + d
  {
    JoinFour([a, b, c, d]);
  }

  // ---------------------------------------------------------------------------------
  // Extraction from the parsed document

  /** What the four selectors find in the parsed page, before trimming: the `content` of
      `meta[property="og:title"]`, the text of `title`, the `content` of
      `meta[property="og:description"]` and that of `meta[name="description"]`. */
  datatype Document = Document(
    ogTitle: Option<string>,
    titleText: Option<string>,
    ogDescription: Option<string>,
    metaDescription: Option<string>)

  /** `v?.trim()` */
  function TrimOpt(v: Option<string>): Option<string> {
    if v.Some? then Some(Trim(v.value)) else None
  }

  /** The first truthy value of a list, or `None`: the fallback order stated on its own. */
  function FirstTruthy(vs: seq<Option<string>>): (r: Option<string>)
    ensures r.None? || Truthy(r)
    ensures Truthy(r) ==> r in vs
  {
    if vs == [] then None else if Truthy(vs[0]) then vs[0] else FirstTruthy(vs[1..])
  }

  /** `extractFromDocument(document, url)`, given the host name the URL parser gives for
      `url` (`None` when it throws). */
  function ExtractFromDocument(doc: Document, hostname: Option<string>): (m: Metadata)
    ensures m.title.Some? ==> 0 < |m.title.value| <= MAX_TITLE_LENGTH
    ensures m.description.Some? ==> 0 < |m.description.value| <= MAX_DESCRIPTION_LENGTH
    ensures Truthy(TrimOpt(doc.ogTitle)) ==> m.title == Truncate(TrimOpt(doc.ogTitle), MAX_TITLE_LENGTH)
    ensures Truthy(hostname) ==> m.title.Some?
    ensures doc == Document(None, None, None, None) ==>
      m == Metadata(Truncate(hostname, MAX_TITLE_LENGTH), None)
  {
    var title := Or(Or(TrimOpt(doc.ogTitle), TrimOpt(doc.titleText)), hostname);
    var description := Or(Or(TrimOpt(doc.ogDescription), TrimOpt(doc.metaDescription)), None);
    Metadata(Truncate(title, MAX_TITLE_LENGTH), Truncate(description, MAX_DESCRIPTION_LENGTH))
  }

  /** The title is the first non-empty of the trimmed og:title, the trimmed `<title>` text
      and the host name; the description the first non-empty of the trimmed og:description
      and the trimmed meta description; each then cut to its limit. */
  lemma ExtractionFallbackOrder(doc: Document, hostname: Option<string>)
    ensures ExtractFromDocument(doc, hostname).title ==
      Truncate(FirstTruthy([TrimOpt(doc.ogTitle), TrimOpt(doc.titleText), hostname]), MAX_TITLE_LENGTH)
    ensures ExtractFromDocument(doc, hostname).description ==
      Truncate(FirstTruthy([TrimOpt(doc.ogDescription), TrimOpt(doc.metaDescription)]), MAX_DESCRIPTION_LENGTH)
  {
    FirstOfThree(TrimOpt(doc.ogTitle), TrimOpt(doc.titleText), hostname);
    FirstOfTwo(TrimOpt(doc.ogDescription), TrimOpt(doc.metaDescription));
  }

  lemma FirstOfTwo(a: Option<string>, b: Option<string>)
    ensures Truncate(FirstTruthy([a, b]), MAX_DESCRIPTION_LENGTH)
         == Truncate(Or(Or(a, b), None), MAX_DESCRIPTION_LENGTH)
  {
    assert [a, b][1..] == [b] && [b][1..] == [];
  }

  lemma FirstOfThree(a: Option<string>, b: Option<string>, c: Option<string>)
    ensures Truncate(FirstTruthy([a, b, c]), MAX_TITLE_LENGTH) == Truncate(Or(Or(a, b), c), MAX_TITLE_LENGTH)
  {
    assert [a, b, c][1..] == [b, c] && [b, c][1..] == [c] && [c][1..] == [];
    assert FirstTruthy([c]) == if Truthy(c) then c else None;
    assert FirstTruthy([b, c]) == if Truthy(b) then b else FirstTruthy([c]);
  }

  /** Without og tags the `<title>` text and the meta description are used. */
  lemma TitleTagAndMetaDescriptionExample()
    ensures ExtractFromDocument(Document(None, Some("Example"), None, Some("hi")), Some("example.com"))
         == Metadata(Some("Example"), Some("hi"))
  {
    TrimUntouched("Example");
    TrimUntouched("hi");
  }

  // ---------------------------------------------------------------------------------
  // Response gate and the whole fetch

  /** The parts of the `fetch` response the extractor reads. */
  datatype Response = Response(
    status: nat,
    statusText: string,
    contentType: Option<string>,
    contentLength: Option<string>,
    body: string)
  {
    /** `response.ok` */
    predicate Ok() {
      200 <= status <= 299
    }
  }

  predicate IsHtmlContentType(contentType: string) {
    Includes(contentType, "text/html") || Includes(contentType, "application/xhtml")
  }

  /** `contentLength && parseInt(contentLength, 10) > MAX_RESPONSE_BYTES`; a `NaN` compares
      false. */
  predicate DeclaresTooLarge(contentLength: Option<string>) {
    Truthy(contentLength) &&
    match ParseInt(contentLength.value)
    case Some(n) => n > MAX_RESPONSE_BYTES
    case None => false
  }

  /** The three checks `fetchMetadata` makes on a response before reading its body. */
  function CheckResponse(resp: Response): (r: Outcome<FetchError>)
    ensures !resp.Ok() ==> r == Fail(HttpStatus(resp.status, resp.statusText))
    ensures resp.Ok() && !IsHtmlContentType(resp.contentType.GetOr("")) ==>
      r == Fail(UnsupportedContentType(resp.contentType.GetOr("")))
    ensures r == Pass <==>
      resp.Ok() && IsHtmlContentType(resp.contentType.GetOr("")) && !DeclaresTooLarge(resp.contentLength)
    ensures r.Fail? ==> !r.error.IsUrlRejection()
    ensures resp.Ok() && IsHtmlContentType(resp.contentType.GetOr("")) && DeclaresTooLarge(resp.contentLength) ==>
      r == Fail(ResponseTooLarge)
    ensures resp.contentLength.None? ==> r != Fail(ResponseTooLarge)
    ensures resp.contentLength.Some? && NoDigit(resp.contentLength.value) ==> r != Fail(ResponseTooLarge)
  {
    var contentType := resp.contentType.GetOr("");
    if !resp.Ok() then Fail(HttpStatus(resp.status, resp.statusText))
    else if !IsHtmlContentType(contentType) then Fail(UnsupportedContentType(contentType))
    else if DeclaresTooLarge(resp.contentLength) then Fail(ResponseTooLarge)
    else Pass
  }

  /** With an acceptable status and an HTML type, a declared length written in decimal is
      rejected exactly when it exceeds 5,000,000 bytes. */
  lemma ContentLengthLimit(resp: Response, n: nat)
    requires resp.Ok() && IsHtmlContentType(resp.contentType.GetOr(""))
    requires resp.contentLength == Some(DecimalString(n))
    ensures CheckResponse(resp) == Fail(ResponseTooLarge) <==> n > MAX_RESPONSE_BYTES
    ensures CheckResponse(resp) == Pass <==> n <= MAX_RESPONSE_BYTES
  {
    ParseIntDecimal(n);
  }

  /** A content type with parameters is accepted when it names HTML. */
  lemma HtmlWithCharsetAccepted()
    ensures CheckResponse(Response(200, "OK", Some("text/html; charset=utf-8"), None, "<html>")) == Pass
  {
    assert OccursAt("text/html; charset=utf-8", "text/html", 0);
  }

  /** The status line of a failed response becomes the error message. */
  lemma HttpErrorMessageExample()
    ensures HttpStatus(404, "Not Found").Message() == "HTTP 404 Not Found"
  {
    assert DecimalString(404) == "404" by {
      assert DecimalString(4) == "4";
      assert DecimalString(40) == "4" + "0";
    }
  }

  /** How the network answered the one request: a response, or a rejection (the 10 s abort,
      a DNS or TLS failure) with its message. */
  datatype FetchReply = Replied(response: Response) | Rejected(message: string)

  /** A GET request as `fetchMetadata` sends it: the URL, the `User-Agent` header, the
      delay after which the `AbortController` aborts it, and whether redirects are
      followed. */
  datatype Request = Request(url: string, userAgent: string, timeoutMs: nat, followRedirects: bool)

  /** The one request `fetchMetadata(url)` sends. */
  function RequestFor(url: string): Request {
    Request(url, USER_AGENT, FETCH_TIMEOUT_MS, true)
  }

  /** The foreign parts `fetchMetadata` relies on: the URL parser, the network and the HTML
      parser with its selectors. */
  datatype Web = Web(
    parseUrl: string -> Option<ParsedUrl>,
    transport: Request -> FetchReply,
    parseHtml: string -> Document)

  /** The requests one call made, and what it returned or threw. */
  datatype Attempt = Attempt(requests: seq<Request>, result: Result<Metadata, FetchError>)

  /** `fetchMetadata(url)`. */
  function FetchMetadata(url: string, web: Web): (a: Attempt)
    ensures a.requests == [] || a.requests == [RequestFor(url)]
    ensures a.requests == [] <==> a.result.Failure? && a.result.error.IsUrlRejection()
    ensures a.requests == [] ==>
      a.result.Failure? && ValidateUrl(web.parseUrl(url)) == Fail(a.result.error)
    ensures a.result.Success? ==>
      && web.transport(RequestFor(url)).Replied?
      && CheckResponse(web.transport(RequestFor(url)).response) == Pass
      && (a.result.value.title.Some? ==> 0 < |a.result.value.title.value| <= MAX_TITLE_LENGTH)
      && (a.result.value.description.Some? ==>
            0 < |a.result.value.description.value| <= MAX_DESCRIPTION_LENGTH)
      && web.parseUrl(url).Some?
      && (Truthy(Some(web.parseUrl(url).value.hostname)) ==> a.result.value.title.Some?)
  {
    var parsed := web.parseUrl(url);
    match ValidateUrl(parsed)
    case Fail(e) => Attempt([], Failure(e))
    case Pass =>
      match web.transport(RequestFor(url))
      case Rejected(message) => Attempt([RequestFor(url)], Failure(RequestFailed(message)))
      case Replied(resp) =>
        match CheckResponse(resp)
        case Fail(e) => Attempt([RequestFor(url)], Failure(e))
        case Pass =>
          var hostname := if parsed.Some? then Some(parsed.value.hostname) else None;
          Attempt([RequestFor(url)], Success(ExtractFromDocument(web.parseHtml(resp.body), hostname)))
  }

  /** The path of a fetch that gets through both gates. */
  lemma FetchGetsThrough(url: string, web: Web, parsed: ParsedUrl, resp: Response)
    requires web.parseUrl(url) == Some(parsed) && ValidateUrl(Some(parsed)) == Pass
    requires web.transport(RequestFor(url)) == Replied(resp) && CheckResponse(resp) == Pass
    ensures FetchMetadata(url, web) ==
      Attempt([RequestFor(url)], Success(ExtractFromDocument(web.parseHtml(resp.body), Some(parsed.hostname))))
  {
  }

  /** The path of a fetch whose request is aborted or fails. */
  lemma FetchAborted(url: string, web: Web, parsed: ParsedUrl, message: string)
    requires web.parseUrl(url) == Some(parsed) && ValidateUrl(Some(parsed)) == Pass
    requires web.transport(RequestFor(url)) == Rejected(message)
    ensures FetchMetadata(url, web) == Attempt([RequestFor(url)], Failure(RequestFailed(message)))
    ensures RequestFailed(message).Message() == message
  {
  }

  /** The path of a fetch whose reply fails one of the response checks: the error of the
      check is what is thrown. */
  lemma FetchRefusedReply(url: string, web: Web, parsed: ParsedUrl, resp: Response, e: FetchError)
    requires web.parseUrl(url) == Some(parsed) && ValidateUrl(Some(parsed)) == Pass
    requires web.transport(RequestFor(url)) == Replied(resp) && CheckResponse(resp) == Fail(e)
    ensures FetchMetadata(url, web) == Attempt([RequestFor(url)], Failure(e))
  {
  }
}
