# linkblog: link metadata and API-key guard, modelled in Dafny

linkblog is a personal link blog. Its API keeps a `links` table; an edge function called
`fetch-metadata` fills in the missing titles and summaries of saved links by fetching each
page and reading its `<title>` and `<meta>` tags, and a guard protects the API with a
shared key. This project models three pieces of that system and proves what they promise:

- **The metadata extractor** (`MetadataExtractor`). It has three parts:
  - the SSRF gate on the URL: only `http:`/`https:`, no loopback names, no private
    dotted-quad addresses;
  - the checks on the HTTP response: status, `Content-Type` and `Content-Length`, in that
    order;
  - the fallbacks that pick a title and a description from the parsed page, each cut to
    its limit.
- **The batch handler** (`FetchMetadataHandler`). It selects the links whose title is
  blank and processes them one after another. For each link it builds an update payload
  that never overwrites an existing summary. Each link ends up as exactly one `errors` or
  `details` entry, and the handler pauses between links but not after the last one.
  `ProcessCandidates` is the handler's `for` loop, written as a method whose loop
  invariants tie its accumulators to a specification (`BatchReport`, `PacedEffects`).
- **The API-key guard** (`ApiKeyGuard`): public routes pass; otherwise a missing header,
  then a missing configured key, then a key that differs from the configured one is
  refused, each with its own message. Keys are compared by their UTF-8 bytes.

Supporting modules:
- `JsText` gives the JavaScript string semantics the code relies on: truthiness, `||`,
  `trim`, `toLowerCase` on host names, `includes`, `parseInt(s, 10)` and the decimal
  rendering of numbers.
- `Utf8` gives the UTF-8 encoding that `Buffer.from` performs, with a proof that the
  encoding is injective.
- `Common` holds the `Option`, `Result` and `Outcome` datatypes.

Everything foreign becomes a parameter:
- The WHATWG URL parser, `fetch`, and linkedom's `parseHTML` with its selectors are the
  three functions of a `Web` value.
- The extractor and the store's `update` are the functions of a `Services` value.
- The store's `select` is a function from a `Selection` to a list of rows or an error
  message.
- An aborted or failed request is a `Rejected(message)` reply.
- The handler's calls to the outside world are returned as a trace of effects: extract,
  write, pause.

## Model

| member | source | states |
|---|---|---|
| `MetadataExtractor.Truncate` | supabase/functions/fetch-metadata/metadata-extractor.ts:14-17 | The result is null exactly when the input is null or empty. Otherwise it is a prefix of the input of length min(len, max), and an input no longer than max comes back unchanged. |
| `MetadataExtractor.SplitDots` | supabase/functions/fetch-metadata/metadata-extractor.ts:44 | The host name splits into dot-free pieces that join back to it. |
| `MetadataExtractor.MatchDottedQuad` | supabase/functions/fetch-metadata/metadata-extractor.ts:44 | Soundness of the `^(\d{1,3})\.(\d{1,3})\.(\d{1,3})\.(\d{1,3})$` match: any groups it returns are four 1-3 digit groups whose dotted join is the host name. |
| `MetadataExtractor.MatchDottedQuadComplete` | supabase/functions/fetch-metadata/metadata-extractor.ts:44 | Completeness of the same match: every host name made of four such groups is matched, and with exactly those groups. |
| `MetadataExtractor.SplitJoin` | supabase/functions/fetch-metadata/metadata-extractor.ts:44 | Splitting the dotted join of dot-free pieces gives the pieces back. |
| `MetadataExtractor.ValidateUrl` | supabase/functions/fetch-metadata/metadata-extractor.ts:19-56 | An unparsable URL fails with "Invalid URL format". A scheme other than `http:`/`https:` fails with the scheme error before the host is examined. A lower-cased host equal to `localhost`, `127.0.0.1` or `::1` fails with "Localhost not allowed". Every failure is a URL rejection. |
| `MetadataExtractor.ValidateUrlPolicy` | supabase/functions/fetch-metadata/metadata-extractor.ts:19-56 | A URL passes if and only if it parses, has an allowed scheme, and its lower-cased host is neither a loopback name nor a dotted quad with private first octets. The private-address error is raised exactly in that last case. |
| `MetadataExtractor.DottedQuadVerdict` | supabase/functions/fetch-metadata/metadata-extractor.ts:33-55 | On a dotted-quad host with an allowed scheme: `127.0.0.1` is refused as loopback. Otherwise the host is refused exactly when its first two octets fall in 10/8, 172.16/12, 192.168/16 or 169.254/16, and the other two octets play no part. |
| `MetadataExtractor.NamedHostPasses` | supabase/functions/fetch-metadata/metadata-extractor.ts:35-55 | A host with a character other than a digit or a dot, and which is no loopback name, passes the gate. |
| `MetadataExtractor.SchemeAndLoopbackExamples` | supabase/functions/fetch-metadata/metadata-extractor.ts:21-41 | An unparsable URL is refused. `ftp://127.0.0.1` is refused for its scheme, not as loopback. `LOCALHOST` and `127.0.0.1` are refused as loopback. |
| `MetadataExtractor.TenRangeRefused` | supabase/functions/fetch-metadata/metadata-extractor.ts:44-54 | `10.1.2.3` is refused as private. |
| `MetadataExtractor.UpperPrivate172Refused` | supabase/functions/fetch-metadata/metadata-extractor.ts:44-54 | `172.31.0.1` is refused as private. |
| `MetadataExtractor.Public172Passes` | supabase/functions/fetch-metadata/metadata-extractor.ts:44-55 | `172.32.0.1` passes. |
| `MetadataExtractor.PublicAddressPasses` | supabase/functions/fetch-metadata/metadata-extractor.ts:44-55 | `8.8.8.8` passes. |
| `MetadataExtractor.NamedHostExample` | supabase/functions/fetch-metadata/metadata-extractor.ts:33-55 | `https://example.com` passes. |
| `MetadataExtractor.ExtractFromDocument` | supabase/functions/fetch-metadata/metadata-extractor.ts:58-92 | Any title is non-empty and at most 500 characters; any description is non-empty and at most 1000. A non-empty trimmed og:title always wins. A non-empty host name guarantees a title. An empty page gives the truncated host name and no description. |
| `MetadataExtractor.ExtractionFallbackOrder` | supabase/functions/fetch-metadata/metadata-extractor.ts:59-91 | The title is the first non-empty value among trimmed og:title, trimmed `<title>` text and host name, truncated to 500. The description is the first non-empty value among trimmed og:description and trimmed meta description, truncated to 1000; with neither, it is null. |
| `MetadataExtractor.TitleTagAndMetaDescriptionExample` | supabase/functions/fetch-metadata/metadata-extractor.ts:65-91 | A page without og tags takes its title from `<title>` and its description from the meta description. |
| `MetadataExtractor.CheckResponse` | supabase/functions/fetch-metadata/metadata-extractor.ts:108-123 | A non-ok status fails with "HTTP status text" first. Then a content type without `text/html` or `application/xhtml` fails, a missing header counting as empty. A response passes exactly when it has an ok status, an HTML type and no declared length over 5,000,000. An ok HTML response that declares a larger length fails with "Response too large". A missing Content-Length, or one without any digit, is never "Response too large". |
| `MetadataExtractor.ContentLengthLimit` | supabase/functions/fetch-metadata/metadata-extractor.ts:120-123 | With an ok status and an HTML type, a decimal length n is refused as too large if and only if n > 5,000,000, and passes otherwise. |
| `MetadataExtractor.HtmlWithCharsetAccepted` | supabase/functions/fetch-metadata/metadata-extractor.ts:112-118 | `text/html; charset=utf-8` is accepted. |
| `MetadataExtractor.HttpErrorMessageExample` | supabase/functions/fetch-metadata/metadata-extractor.ts:108-110 | A 404 "Not Found" response throws "HTTP 404 Not Found". |
| `MetadataExtractor.FetchMetadata` | supabase/functions/fetch-metadata/metadata-extractor.ts:95-132 | A call makes at most one request: a GET of the URL itself with the fixed User-Agent, the 10,000 ms abort timer and redirects followed. It makes none exactly when it fails with a URL rejection, and then the error is the gate's. A success implies a reply that passed every response check, a parsed URL, length-bounded fields, and a title whenever the host name is non-empty. |
| `MetadataExtractor.FetchGetsThrough` | supabase/functions/fetch-metadata/metadata-extractor.ts:95-128 | When the URL passes the gate and the reply passes the checks, the one request is made and the result is the extraction from the parsed body. |
| `MetadataExtractor.FetchAborted` | supabase/functions/fetch-metadata/metadata-extractor.ts:98-106 | When the URL passes the gate but the request is aborted or fails, the one request is made and the error carries the rejection's message. |
| `MetadataExtractor.FetchRefusedReply` | supabase/functions/fetch-metadata/metadata-extractor.ts:108-123 | When the URL passes the gate but the reply fails a response check, the one request is made and the error thrown is that check's error. |
| `MetadataExtractor.FetchError.Message` | supabase/functions/fetch-metadata/metadata-extractor.ts:19-123 | Each error carries the message the source throws: "Invalid URL format", the scheme message with the scheme, "Localhost not allowed", "Private IP address not allowed", "HTTP status text", the content-type message with the type, "Response too large", and the message of an aborted or failed request as it is. |
| `FetchMetadataHandler.IsBlank` | supabase/functions/fetch-metadata/index.ts:6-8 | True exactly when the value is missing or made only of white space (the empty string included). |
| `FetchMetadataHandler.StoreFilterIsNarrower` | supabase/functions/fetch-metadata/index.ts:64-66 | The store filter (`title.is.null,title.eq.`) keeps only null and empty titles, all of them blank. It drops a white-space title that `isBlank` accepts. |
| `FetchMetadataHandler.Candidates` | supabase/functions/fetch-metadata/index.ts:83-86 | Every candidate has a blank title. Every queried link with a blank title is a candidate. Candidates come from the query and keep its order, each link as many times as the query returned it. |
| `FetchMetadataHandler.BlankRowsUnfiltered` | supabase/functions/fetch-metadata/index.ts:83-86 | Rows that all have blank titles pass the in-code filter unchanged. |
| `FetchMetadataHandler.StoreRowsUnfiltered` | supabase/functions/fetch-metadata/index.ts:64-86 | Rows that all pass the store filter `title.is.null,title.eq.` pass the in-code filter unchanged, so on the `limit` branch that filter removes nothing. |
| `FetchMetadataHandler.SelectionFor` | supabase/functions/fetch-metadata/index.ts:27-68 | A non-empty `link_id` selects one link by its parsed id and wins over `limit`. Otherwise the newest links with a null or empty title are selected, up to the parsed `limit`, or 20 when `limit` is absent or empty. |
| `FetchMetadataHandler.SelectionExamples` | supabase/functions/fetch-metadata/index.ts:27-68 | `?limit=n` asks for n links; `?link_id=n` selects link n whatever the limit; no parameter asks for 20. |
| `FetchMetadataHandler.QueryRows` | supabase/functions/fetch-metadata/index.ts:54-67 | A query returns the first min(`limit`, k) of the k rows that pass its title filter, in table order (newest first), so never more than `limit`. Under the limit it returns every row that passes the filter. |
| `FetchMetadataHandler.Kept` | supabase/functions/fetch-metadata/index.ts:54-66 | The rows kept pass the filter, come from the table in its order, and each passing row appears as many times as in the table. The in-code filter `Candidates` is `Kept` with `isBlank`. |
| `FetchMetadataHandler.WhiteSpaceTitleNeverQueried` | supabase/functions/fetch-metadata/index.ts:64-86 | As written, a link whose title is white space is blank but never becomes a candidate on the `limit` branch. |
| `FetchMetadataHandler.BlankQueryReachesEveryBlankLink` | supabase/functions/fetch-metadata/index.ts:64-86 | A query that filters on `isBlank` itself feeds the loop every row it returns. When fewer than `limit` links are blank, every blank-titled link is processed, white space included. |
| `FetchMetadataHandler.BuildPayload` | supabase/functions/fetch-metadata/index.ts:126-136 | The payload has a title exactly when the extracted title is non-empty. It has a summary exactly when the extracted description is non-empty and the link's summary is blank. The values are the extracted ones, so a link with a summary never gets one written. |
| `FetchMetadataHandler.ProcessLink` | supabase/functions/fetch-metadata/index.ts:117-180 | The body of the loop for one link returns that link's outcome and its calls (extract, then write if the payload is not empty), as `Outcome` and `LinkEffects` define them. |
| `FetchMetadataHandler.ProcessCandidates` | supabase/functions/fetch-metadata/index.ts:106-186 | The loop's accumulators equal `BatchReport` of the candidates. Its calls equal `PacedEffects`. The lemmas below prove what those two satisfy. |
| `FetchMetadataHandler.HandleRequest` | supabase/functions/fetch-metadata/index.ts:54-203 | A failed query answers with its message and makes no call. No candidates answers with processed 0, updated 0, no errors and "All links have set values" (no details list), and no fetch or write happens. Otherwise the answer is the report of the loop over the blank-titled links the query returned, on either branch (`link_id` or the newest `limit`). |
| `FetchMetadataHandler.OutcomeWellFormed` | supabase/functions/fetch-metadata/index.ts:138-175 | A link is reported as written exactly when its details entry has a title or a summary. An empty payload gives a details entry with both null and causes no write. A non-empty payload causes exactly one write after the extraction; when the store refuses it, the link gets an errors entry with the store's message. |
| `FetchMetadataHandler.Accounting` | supabase/functions/fetch-metadata/index.ts:146-179 | Over any run, the errors and details entries add up to the links. The write count equals the number of details entries with a field, and it is at most the number of details entries. |
| `FetchMetadataHandler.ReportAccounting` | supabase/functions/fetch-metadata/index.ts:106-199 | `processed` is the number of candidates and equals the number of errors plus details entries. `updated` equals the number of details entries with a written field, so it is at most `processed`. |
| `FetchMetadataHandler.BatchConcat` | supabase/functions/fetch-metadata/index.ts:115-186 | The report of `a + b` is the report of `a` followed by that of `b`. Both lists follow selection order, and nothing that happens to one link changes what is reported for later links. |
| `FetchMetadataHandler.EveryLinkReported` | supabase/functions/fetch-metadata/index.ts:176-180 | Every candidate's own error entry or details entry appears in the report, whatever happened to the other links. |
| `FetchMetadataHandler.SingleLinkReport` | supabase/functions/fetch-metadata/index.ts:115-186 | The report of a one-link run is that link's entry, with `updated` 1 exactly when it was written. |
| `FetchMetadataHandler.LinkEffectsShape` | supabase/functions/fetch-metadata/index.ts:118-145 | One link causes one extraction of its URL, possibly a write, and no pause. |
| `FetchMetadataHandler.PacedEffectsShape` | supabase/functions/fetch-metadata/index.ts:115-185 | After k of n links: k pauses, or n - 1 once the run is complete. The extractor was called on exactly the links' URLs, in selection order. |
| `FetchMetadataHandler.PaceStep` | supabase/functions/fetch-metadata/index.ts:182-185 | One more link adds its own pauses and URLs, plus one pause unless it is the last. |
| `FetchMetadataHandler.PacePauses` | supabase/functions/fetch-metadata/index.ts:182-185 | With pause-free groups, k groups give k pauses, or n - 1 once all n are done. |
| `FetchMetadataHandler.PaceUrls` | supabase/functions/fetch-metadata/index.ts:115-118 | The URLs extracted over k groups are the groups' URLs in order. |
| `FetchMetadataHandler.PacingBetweenItems` | supabase/functions/fetch-metadata/index.ts:182-185 | A run over n > 0 candidates pauses n - 1 times and never after the last link. |
| `FetchMetadataHandler.WritesRespectSummaries` | supabase/functions/fetch-metadata/index.ts:133-145 | Every write of a run belongs to one of its links and is not empty. It sets a summary only for a link whose summary was blank. |
| `FetchMetadataHandler.RefusedUrlRecorded` | supabase/functions/fetch-metadata/index.ts:117-180 | A link whose URL the gate refuses makes no request. It gets an errors entry carrying the gate's message. |
| `FetchMetadataHandler.AbortedFetchRecorded` | supabase/functions/fetch-metadata/index.ts:176-180 | A link whose request is aborted or fails gets an errors entry with that message. Its only call is the extraction, with no write. |
| `FetchMetadataHandler.RefusedReplyRecorded` | supabase/functions/fetch-metadata/index.ts:176-180 | A link whose reply fails a response check (an HTTP error, a type that is not HTML, a declared length over the cap) gets an errors entry with that check's message. Its only call is the extraction, with no write. |
| `FetchMetadataHandler.ExtractorService` | supabase/functions/fetch-metadata/index.ts:118-179 | The extractor the loop sees succeeds exactly when `fetchMetadata` does, with its metadata. When `fetchMetadata` throws, it fails with the error's message. |
| `FetchMetadataHandler.ExamplePageExtracted` | supabase/functions/fetch-metadata/metadata-extractor.ts:95-128 | An HTML page at `https://example.com` with title "Example" and meta description "hi" yields exactly those two fields. |
| `FetchMetadataHandler.ExampleRunWritesBoth` | supabase/functions/fetch-metadata/index.ts:126-165 | One blank link whose page yields both fields is written once. It is reported with both fields, with processed 1, updated 1 and no errors. |
| `ApiKeyGuard.TimingSafeEqual` | src/auth/api-key.guard.ts:52 | Two buffers of equal length are accepted exactly when every byte agrees. |
| `ApiKeyGuard.KeysMatch` | src/auth/api-key.guard.ts:44-53 | False whenever the byte lengths differ. Otherwise true exactly when the byte sequences are equal, which happens exactly when the two keys are the same string. |
| `ApiKeyGuard.CanActivate` | src/auth/api-key.guard.ts:14-42 | A public route is allowed. Otherwise the checks run in this order: a missing or empty header fails with "Missing x-api-key header"; then a missing or empty configured key fails with "API_KEY not configured". A non-public request is allowed if and only if both are present and equal. Every refusal carries one of the three messages. |
| `ApiKeyGuard.PublicIgnoresKeys` | src/auth/api-key.guard.ts:20-22 | A public route's verdict does not depend on the header or the configured key. |
| `ApiKeyGuard.WrongKeyIsInvalid` | src/auth/api-key.guard.ts:37-39 | A present key different from a present configured key fails with "Invalid API key". |
| `ApiKeyGuard.GuardAllowsCases` | src/auth/api-key.guard.spec.ts:37-49 | A public route without a header is allowed. The configured key `test-api-key-123` is allowed. |
| `ApiKeyGuard.GuardRefusesCases` | src/auth/api-key.guard.spec.ts:51-83 | A missing header, `wrong-key`, `short` (another length) and a missing configured key each fail with the message the tests expect. |
| `Utf8.EncodeChar` | src/auth/api-key.guard.ts:45-46 | One code point encodes to one to four bytes. |
| `Utf8.DecodeEncodeChar` | src/auth/api-key.guard.ts:45-46 | Decoding a code point's bytes gives the code point back. |
| `Utf8.LeadLengthOfChar` | src/auth/api-key.guard.ts:45-46 | The lead byte of an encoding announces its length. |
| `Utf8.EncodeInjective` | src/auth/api-key.guard.ts:45-52 | Two strings with the same UTF-8 bytes are equal, so comparing the buffers compares the keys. |
| `JsText.Trim` | supabase/functions/fetch-metadata/index.ts:7 | The result is a slice of the input with only white space before and after it. It is empty exactly when the input is all white space, and otherwise neither starts nor ends with white space. |
| `JsText.ToLowerAscii` | supabase/functions/fetch-metadata/metadata-extractor.ts:33 | Same length as the input; every ASCII capital becomes lower case and every other character is kept. |
| `JsText.Includes` | supabase/functions/fetch-metadata/metadata-extractor.ts:113-116 | True exactly when the substring occurs at some position. |
| `JsText.DecimalString` | supabase/functions/fetch-metadata/metadata-extractor.ts:109 | The rendering of a number is a non-empty string of digits with no leading zero, and it denotes the number. |
| `JsText.ParseInt` | supabase/functions/fetch-metadata/metadata-extractor.ts:121 | A string with no digit at all gives `NaN`. A negative result needs a minus sign in the text. |
| `JsText.ParseIntNaN` | supabase/functions/fetch-metadata/metadata-extractor.ts:121 | After the leading white space, a first character that is not a digit, or a sign not followed by a digit, gives `NaN` (so a `Content-Length` of `x5000001` declares nothing). |
| `JsText.ParseIntPrefix` | supabase/functions/fetch-metadata/metadata-extractor.ts:121 | Leading white space, an optional `+` or `-`, a run of digits, then anything not starting with a digit: the result is the run's value, negated after a `-`. |
| `JsText.ParseIntDigits` | supabase/functions/fetch-metadata/metadata-extractor.ts:121 | A non-empty string of digits parses to the number it denotes. |
| `Utf8.Encode` | src/auth/api-key.guard.ts:45-46 | A string encodes to at least as many bytes as it has code points. |
| `JsText.ParseIntDecimal` | supabase/functions/fetch-metadata/metadata-extractor.ts:121 | `parseInt(s, 10)` reads back the decimal form of every natural number. |

## Left out

- HTTP plumbing in `index.ts` is not modelled: `Deno.serve`, the 405 check on the method, the environment variables and the 500 answer when they are missing, JSON encoding of the answers, and `console.log`. `HandleRequest` starts after those checks.
- What the store does with a `NaN`, negative or zero `limit`, or a `NaN` id, is not modelled. `SelectionFor` passes the parsed value on, with `None` for `NaN`, and `select` is a parameter.
- The value of `updated_at` is not modelled, because it is the clock's value. A write is recorded with its title and summary only.
- The Supabase client is not modelled: query building (`.or`, `.order`, `.limit`, `.eq`) and the store's contents. `select` and `update` are functions passed in, so the newest-first order and the limit are whatever `select` returns. `QueryRows` models what `.or('title.is.null,title.eq.').limit(limit)` returns from a table listed newest first, for the finding below; `HandleRequest` does not assume that `select` behaves like `QueryRows`.
- `fetch` is not modelled. The request it is given (URL, User-Agent, abort delay, redirects followed) is a `Request` value, and the network is the `transport` function from it. A timeout appears as a `Rejected` reply.
- A failure of `response.text()` while the body is read is not modelled. The body is part of the reply.
- The WHATWG URL parser and linkedom's `parseHTML` with `querySelector` are not modelled; they are parameters. The loopback check compares with the literal `::1` as the code does. The real parser would give `[::1]` with brackets, and that is not re-derived.
- The constant-time behaviour of `timingSafeEqual` is not modelled; only its result is. NestJS's `Reflector` and `ConfigService` become the `isPublic` flag and the optional configured key.
- JsText.ToLowerAscii: it lowers ASCII letters only. Host names reach it from the URL parser, which has already lower-cased and punycode-encoded them, so no other letter can occur.
- MetadataExtractor.Truncate: lengths count Unicode scalar values, where JavaScript counts UTF-16 code units. A title with characters outside the Basic Multilingual Plane is cut at a different point than in the source.
- Utf8.Encode: it assumes strings of Unicode scalar values. A lone surrogate, which `Buffer.from` replaces with U+FFFD, cannot occur in the model.
- The extractor and the store are deterministic functions of their arguments. A page that answers differently on a retry, or a store that changes between calls, is not modelled.
- The rest of the repository is not part of this model: the links service and controller (a wrapper over the store that maps PGRST116 to "not found"), the RSS feed, the module wiring, the health controller and the browser extension.
- The blank-title filter at `index.ts:84-86` applies on the `link_id` branch too, so `link_id` cannot force a link whose title is set to be processed: such a link is answered with "All links have set values".
- The pause condition `linksToProcess.indexOf(link) < linksToProcess.length - 1` is modelled as the loop position being before the last. `indexOf` compares objects by identity and the query returns distinct objects, so the two agree.

## Findings

| source | as written | input that shows it | evidently intended | confidence | as-written member | corrected member |
|---|---|---|---|---|---|---|
| supabase/functions/fetch-metadata/index.ts:64-66 | On the `limit` branch the store query keeps only null and empty titles, so the `isBlank` filter after it never sees a white-space title there. | A link titled `"  "` among the newest 20: the query does not return it, so it is never processed without `link_id`. | The comment on line 65 says white-space titles are caught after the query, so they should be processed too: the query should select every title that `isBlank` accepts. | medium, not executed | `FetchMetadataHandler.WhiteSpaceTitleNeverQueried` | `FetchMetadataHandler.BlankQueryReachesEveryBlankLink` |
