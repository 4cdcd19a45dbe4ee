/** The batch handler of the fetch-metadata edge function: it selects the links whose title
    is blank, runs the extractor on each in turn, writes back the fields that qualify, and
    reports one entry per link. The link store and the extractor are parameters. */
module FetchMetadataHandler {
  import opened Common
  import opened JsText
  import MetadataExtractor

  type Metadata = MetadataExtractor.Metadata

  const DELAY_MS := 100
  const DEFAULT_LIMIT := 20
  const ALL_SET_MESSAGE := "All links have set values"

  /** `isBlank(value)`: missing, empty, or made only of white space. */
  function IsBlank(value: Option<string>): (r: bool)
    ensures r <==> value.None? || forall i | 0 <= i < |value.value| :: IsWhitespace(value.value[i])
  {
    !Truthy(value) || |Trim(value.value)| == 0
  }

  /** A row of the `links` table, as far as the handler reads it. */
  datatype LinkRecord = LinkRecord(id: int, url: string, title: Option<string>, summary: Option<string>)

  /** The store-side filter `title.is.null,title.eq.`: null or exactly empty. */
  predicate StoreTitleFilter(title: Option<string>) {
    title.None? || title.value == ""
  }

  /** The store filter keeps only null and empty titles, all of them blank. It drops a
      white-space title that `isBlank` accepts. */
  lemma StoreFilterIsNarrower(title: Option<string>)
    ensures StoreTitleFilter(title) ==> IsBlank(title)
    ensures IsBlank(Some("   ")) && !StoreTitleFilter(Some("   "))
  {
  }

  /** `a` keeps some of the elements of `b`, in their order. */
  ghost predicate IsSubsequence<T>(a: seq<T>, b: seq<T>)
    decreases |b|
  {
    a == [] || (b != [] && ((a[0] == b[0] && IsSubsequence(a[1..], b[1..])) || IsSubsequence(a, b[1..])))
  }

  /** `links.filter(link => isBlank(link.title))`: exactly the links with a blank title, in
      their order, each as often as it occurs in `links`. */
  function Candidates(links: seq<LinkRecord>): (c: seq<LinkRecord>)
    ensures forall i | 0 <= i < |c| :: IsBlank(c[i].title)
    ensures forall l | l in links && IsBlank(l.title) :: l in c
    ensures forall l | l in c :: l in links
    ensures forall l :: multiset(c)[l] == if IsBlank(l.title) then multiset(links)[l] else 0
    ensures IsSubsequence(c, links)
  {
    Kept(links, IsBlank)
  }

  /** The rows of `table` whose title passes `keep`, in table order, each as often as it
      occurs in `table`. */
  function Kept(table: seq<LinkRecord>, keep: Option<string> -> bool): (k: seq<LinkRecord>)
    ensures forall i | 0 <= i < |k| :: keep(k[i].title)
    ensures forall l | l in table && keep(l.title) :: l in k
    ensures forall l | l in k :: l in table
    ensures forall l :: multiset(k)[l] == if keep(l.title) then multiset(table)[l] else 0
    ensures IsSubsequence(k, table)
  {
    if table == [] then []
    else
      var rest := Kept(table[1..], keep);
      assert table == [table[0]] + table[1..];
      if keep(table[0].title) then
        var k := [table[0]] + rest;
        assert k[1..] == rest;
        k
      else
        rest
  }

  /** Rows that are all blank-titled pass the in-code filter unchanged. */
  lemma {:induction false} BlankRowsUnfiltered(links: seq<LinkRecord>)
    requires forall i | 0 <= i < |links| :: IsBlank(links[i].title)
    ensures Candidates(links) == links
  {
    if links != [] {
      BlankRowsUnfiltered(links[1..]);
    }
  }

  /** On the `limit` branch every row the store returns already passes `isBlank`, so the
      in-code filter drops nothing there. */
  lemma StoreRowsUnfiltered(links: seq<LinkRecord>)
    requires forall i | 0 <= i < |links| :: StoreTitleFilter(links[i].title)
    ensures Candidates(links) == links
  {
    forall i | 0 <= i < |links| ensures IsBlank(links[i].title) {
      StoreFilterIsNarrower(links[i].title);
    }
    BlankRowsUnfiltered(links);
  }

  /** The query parameters as they arrive: the text of `link_id` and of `limit`. */
  datatype Params = Params(linkId: Option<string>, limit: Option<string>)

  /** The query sent to the store: one link by id, or the newest `limit` links whose title
      is null or empty. `None` stands for the `NaN` that `parseInt` gives for text without
      digits. */
  datatype Selection = ById(id: Option<int>) | BlankTitled(limit: Option<int>)

  /** A non-empty `link_id` selects that one link and wins over `limit`; otherwise `limit`
      is parsed, 20 when absent or empty. */
  function SelectionFor(params: Params): (sel: Selection)
    ensures sel.ById? <==> Truthy(params.linkId)
    ensures sel.ById? ==> sel.id == ParseInt(params.linkId.value)
    ensures sel.BlankTitled? && !Truthy(params.limit) ==> sel.limit == Some(DEFAULT_LIMIT)
    ensures sel.BlankTitled? && Truthy(params.limit) ==> sel.limit == ParseInt(params.limit.value)
  {
    if Truthy(params.linkId) then ById(ParseInt(params.linkId.value))
    else BlankTitled(if Truthy(params.limit) then ParseInt(params.limit.value) else Some(DEFAULT_LIMIT))
  }

  /** `?limit=n` for a natural number `n` asks for `n` links, and `?link_id=n` for link `n`
      whatever the limit. */
  lemma SelectionExamples(n: nat, limit: Option<string>)
    ensures SelectionFor(Params(None, Some(DecimalString(n)))) == BlankTitled(Some(n))
    ensures SelectionFor(Params(Some(DecimalString(n)), limit)) == ById(Some(n))
    ensures SelectionFor(Params(None, None)) == BlankTitled(Some(20))
  {
    ParseIntDecimal(n);
  }

  // ---------------------------------------------------------------------------------
  // The store's `limit` query, as written and as its comment describes it

  /** The rows a `BlankTitled(limit)` query returns from a table listed newest first: the
      first `limit` rows whose title passes `keep`. */
  function QueryRows(table: seq<LinkRecord>, limit: nat, keep: Option<string> -> bool): (rows: seq<LinkRecord>)
    ensures rows <= Kept(table, keep)
    ensures |rows| == if limit < |Kept(table, keep)| then limit else |Kept(table, keep)|
    ensures |rows| <= limit
    ensures forall i | 0 <= i < |rows| :: keep(rows[i].title)
    ensures |rows| < limit ==> forall l | l in table && keep(l.title) :: l in rows
    ensures IsSubsequence(rows, table)
  {
    var kept := Kept(table, keep);
    var rows := kept[..if limit < |kept| then limit else |kept|];
    PrefixIsSubsequence(kept, table, |rows|);
    rows
  }

  /** A prefix of a subsequence is a subsequence. */
  lemma {:induction false} PrefixIsSubsequence<T>(a: seq<T>, b: seq<T>, n: nat)
    requires IsSubsequence(a, b) && n <= |a|
    ensures IsSubsequence(a[..n], b)
    decreases |b|
  {
    if n > 0 {
      if a[0] == b[0] && IsSubsequence(a[1..], b[1..]) {
        PrefixIsSubsequence(a[1..], b[1..], n - 1);
        assert a[..n][1..] == a[1..][..n - 1];
      } else {
        PrefixIsSubsequence(a, b[1..], n);
      }
    }
  }

  /** As written, the query keeps only null and empty titles, so a link whose title is
      white space is never a candidate on the `limit` branch, though `isBlank` holds of it. */
  lemma WhiteSpaceTitleNeverQueried()
    ensures var link := LinkRecord(7, "https://example.com", Some("  "), None);
      IsBlank(link.title) && Candidates(QueryRows([link], DEFAULT_LIMIT, StoreTitleFilter)) == []
  {
    StoreFilterIsNarrower(Some("  "));
  }

  /** With the query filtering on `isBlank` itself, every row it returns is processed, and
      when fewer than `limit` links are blank every blank-titled link is, white space
      included. */
  lemma BlankQueryReachesEveryBlankLink(table: seq<LinkRecord>, limit: nat)
    ensures Candidates(QueryRows(table, limit, IsBlank)) == QueryRows(table, limit, IsBlank)
    ensures |Candidates(table)| < limit ==>
      forall l | l in table && IsBlank(l.title) :: l in Candidates(QueryRows(table, limit, IsBlank))
  {
    var rows := QueryRows(table, limit, IsBlank);
    BlankRowsUnfiltered(rows);
  }

  /** The fields one update writes (the store adds `updated_at` with the clock's value). */
  datatype Payload = Payload(title: Option<string>, summary: Option<string>) {
    predicate IsEmpty() {
      title.None? && summary.None?
    }
  }

  /** The update payload for one link: the title when one was extracted; the summary when
      one was extracted and the link has none. */
  function BuildPayload(metadata: Metadata, link: LinkRecord): (p: Payload)
    ensures p.title.Some? <==> Truthy(metadata.title)
    ensures p.title.Some? ==> p.title == metadata.title
    ensures p.summary.Some? <==> Truthy(metadata.description) && IsBlank(link.summary)
    ensures p.summary.Some? ==> p.summary == metadata.description
    ensures !IsBlank(link.summary) ==> p.summary.None?
  {
    Payload(
      if Truthy(metadata.title) then metadata.title else None,
      if Truthy(metadata.description) && IsBlank(link.summary) then metadata.description else None)
  }

  datatype ErrorEntry = ErrorEntry(id: int, url: string, error: string)
  datatype DetailEntry = DetailEntry(id: int, url: string, title: Option<string>, summary: Option<string>)

  /** Where one link ends: an `errors` entry, or a `details` entry and whether it was written. */
  datatype LinkOutcome = Failed(entry: ErrorEntry) | Reported(detail: DetailEntry, written: bool)

  /** What the handler does to the outside world, in order. */
  datatype Effect = Extract(url: string) | Write(id: int, payload: Payload) | Pause(ms: nat)

  /** The store's answer to `update(payload).eq('id', id)`. */
  datatype StoreReply = Written | StoreError(message: string)

  /** The extractor (the message of what it throws on failure) and the store's update. */
  datatype Services = Services(
    extract: string -> Result<Metadata, string>,
    update: (int, Payload) -> StoreReply)

  /** The fate of one link. */
  function Outcome(link: LinkRecord, svc: Services): LinkOutcome {
    match svc.extract(link.url)
    case Failure(message) => Failed(ErrorEntry(link.id, link.url, message))
    case Success(metadata) =>
      var payload := BuildPayload(metadata, link);
      if payload.IsEmpty() then Reported(DetailEntry(link.id, link.url, None, None), false)
      else match svc.update(link.id, payload)
        case StoreError(message) => Failed(ErrorEntry(link.id, link.url, message))
        case Written => Reported(DetailEntry(link.id, link.url, payload.title, payload.summary), true)
  }

  /** The calls one link causes: the extraction, then the write when there is something to
      write. */
  function LinkEffects(link: LinkRecord, svc: Services): seq<Effect> {
    [Extract(link.url)] +
    match svc.extract(link.url)
    case Failure(_) => []
    case Success(metadata) =>
      var payload := BuildPayload(metadata, link);
      if payload.IsEmpty() then [] else [Write(link.id, payload)]
  }

  function Outcomes(links: seq<LinkRecord>, svc: Services): (os: seq<LinkOutcome>)
    ensures |os| == |links|
    ensures forall i | 0 <= i < |links| :: os[i] == Outcome(links[i], svc)
  {
    seq(|links|, i requires 0 <= i < |links| => Outcome(links[i], svc))
  }

  function Errors(os: seq<LinkOutcome>): seq<ErrorEntry> {
    if os == [] then []
    else Errors(os[..|os| - 1]) + if os[|os| - 1].Failed? then [os[|os| - 1].entry] else []
  }

  function Details(os: seq<LinkOutcome>): seq<DetailEntry> {
    if os == [] then []
    else Details(os[..|os| - 1]) + if os[|os| - 1].Reported? then [os[|os| - 1].detail] else []
  }

  function WrittenCount(os: seq<LinkOutcome>): nat {
    if os == [] then 0
    else WrittenCount(os[..|os| - 1]) + if os[|os| - 1].Reported? && os[|os| - 1].written then 1 else 0
  }

  /** Each link's calls, in selection order. */
  function LinkEffectsOf(links: seq<LinkRecord>, svc: Services): (cs: seq<seq<Effect>>)
    ensures |cs| == |links| && forall i | 0 <= i < |links| :: cs[i] == LinkEffects(links[i], svc)
  {
    seq(|links|, i requires 0 <= i < |links| => LinkEffects(links[i], svc))
  }

  /** The first `k` groups of calls, each followed by a pause unless it is the last group. */
  function Pace(chunks: seq<seq<Effect>>, k: nat): seq<Effect>
    requires k <= |chunks|
  {
    if k == 0 then []
    else Pace(chunks, k - 1) + chunks[k - 1] + if k < |chunks| then [Pause(DELAY_MS)] else []
  }

  /** The effects of the first `k` links of the batch: each link's calls, then a pause
      unless it is the last link. */
  function PacedEffects(links: seq<LinkRecord>, svc: Services, k: nat): seq<Effect>
    requires k <= |links|
  {
    Pace(LinkEffectsOf(links, svc), k)
  }

  /** The report of a run over the candidates. */
  datatype Report = Report(processed: nat, updated: nat, errors: seq<ErrorEntry>, details: seq<DetailEntry>)

  function BatchReport(links: seq<LinkRecord>, svc: Services): Report {
    var os := Outcomes(links, svc);
    Report(|links|, WrittenCount(os), Errors(os), Details(os))
  }

  /** Adding one more link to the processed prefix adds its entry and its calls. */
  lemma StepPrefix(links: seq<LinkRecord>, svc: Services, i: nat)
    requires i < |links|
    ensures var os := Outcomes(links, svc);
      && os[..i + 1][..i] == os[..i]
      && Errors(os[..i + 1]) == Errors(os[..i]) + (if os[i].Failed? then [os[i].entry] else [])
      && Details(os[..i + 1]) == Details(os[..i]) + (if os[i].Reported? then [os[i].detail] else [])
      && WrittenCount(os[..i + 1]) == WrittenCount(os[..i]) + (if os[i].Reported? && os[i].written then 1 else 0)
      && PacedEffects(links, svc, i + 1) ==
         PacedEffects(links, svc, i) + LinkEffects(links[i], svc) + (if i + 1 < |links| then [Pause(DELAY_MS)] else [])
  {
    var os := Outcomes(links, svc);
    assert os[..i + 1][..i] == os[..i];
  }

  /** The body of the loop for one link (the `try` block and its `catch`): extract, build
      the payload, write it when it is not empty. */
  method ProcessLink(link: LinkRecord, svc: Services) returns (outcome: LinkOutcome, effects: seq<Effect>)
    ensures outcome == Outcome(link, svc)
    ensures effects == LinkEffects(link, svc)
  {
    effects := [Extract(link.url)];
    var extracted := svc.extract(link.url);
    match extracted {
      case Failure(message) =>
        outcome := Failed(ErrorEntry(link.id, link.url, message));
      case Success(metadata) =>
        var title: Option<string> := None;
        var summary: Option<string> := None;
        if Truthy(metadata.title) {
          title := metadata.title;
        }
        if Truthy(metadata.description) && IsBlank(link.summary) {
          summary := metadata.description;
        }
        var payload := Payload(title, summary);
        if !payload.IsEmpty() {
          effects := effects + [Write(link.id, payload)];
          var reply := svc.update(link.id, payload);
          if reply.StoreError? {
            outcome := Failed(ErrorEntry(link.id, link.url, reply.message));
          } else {
            outcome := Reported(DetailEntry(link.id, link.url, payload.title, payload.summary), true);
          }
        } else {
          outcome := Reported(DetailEntry(link.id, link.url, None, None), false);
        }
    }
  }

  /** The loop over the candidates: each link's entry goes to `errors` or `details`,
      `updated` counts the writes that succeeded, and a pause follows every link but the
      last. */
  method ProcessCandidates(links: seq<LinkRecord>, svc: Services) returns (report: Report, trace: seq<Effect>)
    ensures report == BatchReport(links, svc)
    ensures trace == PacedEffects(links, svc, |links|)
  {
    var errors: seq<ErrorEntry> := [];
    var details: seq<DetailEntry> := [];
    var updated: nat := 0;
    trace := [];
    ghost var os := Outcomes(links, svc);
    for i := 0 to |links|
      invariant errors == Errors(os[..i])
      invariant details == Details(os[..i])
      invariant updated == WrittenCount(os[..i])
      invariant trace == PacedEffects(links, svc, i)
    {
      StepPrefix(links, svc, i);
      var outcome, effects := ProcessLink(links[i], svc);
      trace := trace + effects;
      match outcome {
        case Failed(entry) =>
          errors := errors + [entry];
        case Reported(detail, written) =>
          details := details + [detail];
          if written {
            updated := updated + 1;
          }
      }
      if i < |links| - 1 {
        trace := trace + [Pause(DELAY_MS)];
      }
    }
    assert os[..|links|] == os;
    report := Report(|links|, updated, errors, details);
  }

  /** What the handler answers: a failed query (500), nothing to do (200 with processed 0,
      updated 0, no errors and `ALL_SET_MESSAGE`), or the report of a run (200). */
  datatype HandlerResponse =
    | QueryFailed(details: string)
    | NothingToProcess(processed: nat, updated: nat, errors: seq<ErrorEntry>, message: string)
    | Completed(report: Report)

  /** The handler after its method and configuration checks: query the store, keep the
      blank-titled links, and run the loop over them. */
  method HandleRequest(
    params: Params, select: Selection -> Result<seq<LinkRecord>, string>, svc: Services)
    returns (response: HandlerResponse, trace: seq<Effect>)
    ensures select(SelectionFor(params)).Failure? ==>
      response == QueryFailed(select(SelectionFor(params)).error) && trace == []
    ensures select(SelectionFor(params)).Success? && Candidates(select(SelectionFor(params)).value) == [] ==>
      response == NothingToProcess(0, 0, [], ALL_SET_MESSAGE) && trace == []
    ensures select(SelectionFor(params)).Success? && Candidates(select(SelectionFor(params)).value) != [] ==>
      var candidates := Candidates(select(SelectionFor(params)).value);
      response == Completed(BatchReport(candidates, svc)) && trace == PacedEffects(candidates, svc, |candidates|)
  {
    var queried := select(SelectionFor(params));
    if queried.Failure? {
      return QueryFailed(queried.error), [];
    }
    var candidates := Candidates(queried.value);
    if |candidates| == 0 {
      return NothingToProcess(0, 0, [], ALL_SET_MESSAGE), [];
    }
    var report;
    report, trace := ProcessCandidates(candidates, svc);
    response := Completed(report);
  }

  // ---------------------------------------------------------------------------------
  // What the report and the calls satisfy

  /** A details entry that records a write carries a title or a summary. */
  predicate Filled(d: DetailEntry) {
    d.title.Some? || d.summary.Some?
  }

  function CountFilled(ds: seq<DetailEntry>): nat {
    if ds == [] then 0
    else CountFilled(ds[..|ds| - 1]) + if Filled(ds[|ds| - 1]) then 1 else 0
  }

  /** A link is reported as written exactly when its details entry carries a field. */
  predicate WellFormed(o: LinkOutcome) {
    o.Reported? ==> (o.written <==> Filled(o.detail))
  }

  /** Every link's outcome is well formed; a link whose metadata gives nothing to write is
      reported with empty fields and causes no write; a write the store refuses turns into
      an errors entry with the store's message. */
  lemma OutcomeWellFormed(link: LinkRecord, svc: Services)
    ensures WellFormed(Outcome(link, svc))
    ensures svc.extract(link.url).Success? && BuildPayload(svc.extract(link.url).value, link).IsEmpty() ==>
      && Outcome(link, svc) == Reported(DetailEntry(link.id, link.url, None, None), false)
      && LinkEffects(link, svc) == [Extract(link.url)]
    ensures svc.extract(link.url).Success? && !BuildPayload(svc.extract(link.url).value, link).IsEmpty() ==>
      var payload := BuildPayload(svc.extract(link.url).value, link);
      && LinkEffects(link, svc) == [Extract(link.url), Write(link.id, payload)]
      && (svc.update(link.id, payload).StoreError? ==>
            Outcome(link, svc) == Failed(ErrorEntry(link.id, link.url, svc.update(link.id, payload).message)))
  {
  }

  lemma {:induction false} Accounting(os: seq<LinkOutcome>)
    requires forall i | 0 <= i < |os| :: WellFormed(os[i])
    ensures |Errors(os)| + |Details(os)| == |os|
    ensures WrittenCount(os) == CountFilled(Details(os))
    ensures WrittenCount(os) <= |Details(os)|
  {
    if os != [] {
      var init := os[..|os| - 1];
      Accounting(init);
      var ds := Details(os);
      if os[|os| - 1].Reported? {
        assert ds[..|ds| - 1] == Details(init);
      } else {
        assert ds == Details(init);
      }
    }
  }

  /** Every candidate adds exactly one entry, to `errors` or to `details`; `updated` is the
      number of details entries that carry a written field, so it never exceeds
      `processed`. */
  lemma ReportAccounting(links: seq<LinkRecord>, svc: Services)
    ensures var r := BatchReport(links, svc);
      && r.processed == |links| == |r.errors| + |r.details|
      && r.updated == CountFilled(r.details)
      && r.updated <= r.processed
  {
    var os := Outcomes(links, svc);
    forall i | 0 <= i < |os| ensures WellFormed(os[i]) {
      OutcomeWellFormed(links[i], svc);
    }
    Accounting(os);
  }

  lemma {:induction false} ErrorsConcat(a: seq<LinkOutcome>, b: seq<LinkOutcome>)
    ensures Errors(a + b) == Errors(a) + Errors(b)
    ensures Details(a + b) == Details(a) + Details(b)
    ensures WrittenCount(a + b) == WrittenCount(a) + WrittenCount(b)
  {
    if b != [] {
      ErrorsConcat(a, b[..|b| - 1]);
      assert (a + b)[..|a + b| - 1] == a + b[..|b| - 1];
    } else {
      assert a + b == a;
    }
  }

  /** The run is a fold: the report for `a + b` is the report for `a` followed by the
      report for `b`, so what happens to a link never changes what is reported for the
      links after it. */
  lemma BatchConcat(a: seq<LinkRecord>, b: seq<LinkRecord>, svc: Services)
    ensures var ra, rb, r := BatchReport(a, svc), BatchReport(b, svc), BatchReport(a + b, svc);
      r == Report(ra.processed + rb.processed, ra.updated + rb.updated, ra.errors + rb.errors, ra.details + rb.details)
  {
    var oa, ob, os := Outcomes(a, svc), Outcomes(b, svc), Outcomes(a + b, svc);
    forall i | 0 <= i < |os| ensures os[i] == (oa + ob)[i] {
      if i < |a| { assert (a + b)[i] == a[i]; } else { assert (a + b)[i] == b[i - |a|]; }
    }
    assert os == oa + ob;
    ErrorsConcat(oa, ob);
  }

  /** Each candidate's own outcome is in the report, whatever happened to the others. */
  lemma EveryLinkReported(links: seq<LinkRecord>, svc: Services, j: nat)
    requires j < |links|
    ensures var o, r := Outcome(links[j], svc), BatchReport(links, svc);
      && (o.Failed? ==> o.entry in r.errors)
      && (o.Reported? ==> o.detail in r.details)
  {
    assert links == links[..j] + [links[j]] + links[j + 1..];
    BatchConcat(links[..j] + [links[j]], links[j + 1..], svc);
    BatchConcat(links[..j], [links[j]], svc);
    var single := Outcomes([links[j]], svc);
    assert single == [] + [Outcome(links[j], svc)];
  }

  function CountPauses(t: seq<Effect>): nat {
    if t == [] then 0 else CountPauses(t[..|t| - 1]) + if t[|t| - 1].Pause? then 1 else 0
  }

  function ExtractedUrls(t: seq<Effect>): seq<string> {
    if t == [] then [] else ExtractedUrls(t[..|t| - 1]) + if t[|t| - 1].Extract? then [t[|t| - 1].url] else []
  }

  function Urls(links: seq<LinkRecord>): (us: seq<string>)
    ensures |us| == |links| && forall i | 0 <= i < |links| :: us[i] == links[i].url
  {
    seq(|links|, i requires 0 <= i < |links| => links[i].url)
  }

  lemma {:induction false} EffectCountsConcat(a: seq<Effect>, b: seq<Effect>)
    ensures CountPauses(a + b) == CountPauses(a) + CountPauses(b)
    ensures ExtractedUrls(a + b) == ExtractedUrls(a) + ExtractedUrls(b)
  {
    if b != [] {
      EffectCountsConcat(a, b[..|b| - 1]);
      assert (a + b)[..|a + b| - 1] == a + b[..|b| - 1];
    } else {
      assert a + b == a;
    }
  }

  lemma LinkEffectsShape(link: LinkRecord, svc: Services)
    ensures CountPauses(LinkEffects(link, svc)) == 0
    ensures ExtractedUrls(LinkEffects(link, svc)) == [link.url]
    ensures LinkEffects(link, svc) != [] && !LinkEffects(link, svc)[|LinkEffects(link, svc)| - 1].Pause?
  {
    var t := LinkEffects(link, svc);
    assert t[0] == Extract(link.url);
    if |t| == 2 {
      assert t[1].Write?;
      assert t[..1] == [Extract(link.url)] && t[..1][..0] == [];
      assert ExtractedUrls(t[..1]) == ExtractedUrls(t[..1][..0]) + [link.url];
      assert CountPauses(t[..1]) == 0 && ExtractedUrls(t[..1]) == [link.url];
      assert t[..|t| - 1] == t[..1];
    } else {
      assert t[..0] == [];
    }
  }

  /** The pacing rule and the order of the fetches: after `k` links there is one pause per
      link except after the very last, and the extractor was called on the links' URLs in
      selection order. */
  lemma PacedEffectsShape(links: seq<LinkRecord>, svc: Services, k: nat)
    requires k <= |links|
    ensures CountPauses(PacedEffects(links, svc, k)) == if k == |links| && k > 0 then k - 1 else k
    ensures ExtractedUrls(PacedEffects(links, svc, k)) == Urls(links[..k])
  {
    var cs := LinkEffectsOf(links, svc);
    forall i | 0 <= i < |cs|
      ensures CountPauses(cs[i]) == 0 && ExtractedUrls(cs[i]) == [Urls(links)[i]]
    {
      LinkEffectsShape(links[i], svc);
    }
    PacePauses(cs, k);
    PaceUrls(cs, Urls(links), k);
    assert Urls(links)[..k] == Urls(links[..k]);
  }

  /** One step of `Pace`, counted: the group's own pauses and URLs, and the pause after it. */
  lemma PaceStep(cs: seq<seq<Effect>>, k: nat)
    requires 0 < k <= |cs|
    ensures CountPauses(Pace(cs, k))
         == CountPauses(Pace(cs, k - 1)) + CountPauses(cs[k - 1]) + if k < |cs| then 1 else 0
    ensures ExtractedUrls(Pace(cs, k)) == ExtractedUrls(Pace(cs, k - 1)) + ExtractedUrls(cs[k - 1])
  {
    var pause: seq<Effect> := if k < |cs| then [Pause(DELAY_MS)] else [];
    assert Pace(cs, k) == Pace(cs, k - 1) + cs[k - 1] + pause;
    PauseShape(pause);
    EffectCountsConcat(Pace(cs, k - 1), cs[k - 1]);
    EffectCountsConcat(Pace(cs, k - 1) + cs[k - 1], pause);
  }

  lemma {:induction false} PacePauses(cs: seq<seq<Effect>>, k: nat)
    requires k <= |cs|
    requires forall i {:trigger CountPauses(cs[i])} | 0 <= i < |cs| :: CountPauses(cs[i]) == 0
    ensures CountPauses(Pace(cs, k)) == if k == |cs| && k > 0 then k - 1 else k
  {
    if k > 0 {
      PacePauses(cs, k - 1);
      PaceStep(cs, k);
    }
  }

  lemma {:induction false} PaceUrls(cs: seq<seq<Effect>>, us: seq<string>, k: nat)
    requires k <= |cs| == |us|
    requires forall i {:trigger ExtractedUrls(cs[i])} | 0 <= i < |cs| :: ExtractedUrls(cs[i]) == [us[i]]
    ensures ExtractedUrls(Pace(cs, k)) == us[..k]
  {
    if k > 0 {
      calc {
        ExtractedUrls(Pace(cs, k));
        == { PaceStep(cs, k); }
        ExtractedUrls(Pace(cs, k - 1)) + ExtractedUrls(cs[k - 1]);
        == { PaceUrls(cs, us, k - 1); }
        us[..k - 1] + [us[k - 1]];
        == { assert us[..k] == us[..k - 1] + [us[k - 1]]; }
        us[..k];
      }
    }
  }

  lemma PauseShape(pause: seq<Effect>)
    requires pause == [] || pause == [Pause(DELAY_MS)]
    ensures CountPauses(pause) == |pause| && ExtractedUrls(pause) == []
  {
    assert pause == [] || pause[..0] == [];
  }

  /** A run over n > 0 candidates pauses n - 1 times and never after the last one. */
  lemma PacingBetweenItems(links: seq<LinkRecord>, svc: Services)
    requires |links| > 0
    ensures var t := PacedEffects(links, svc, |links|);
      CountPauses(t) == |links| - 1 && t != [] && !t[|t| - 1].Pause?
  {
    PacedEffectsShape(links, svc, |links|);
    LinkEffectsShape(links[|links| - 1], svc);
  }

  /** `e` is the write the handler makes for `link`: its payload built from what was
      extracted for that link, and not empty. */
  predicate WriteFor(link: LinkRecord, svc: Services, e: Effect) {
    && svc.extract(link.url).Success?
    && e == Write(link.id, BuildPayload(svc.extract(link.url).value, link))
    && !e.payload.IsEmpty()
  }

  /** Every write of a run belongs to one of its links, is not empty, and sets a summary
      only for a link whose summary was blank: an existing summary is never overwritten. */
  lemma {:induction false} WritesRespectSummaries(links: seq<LinkRecord>, svc: Services, k: nat)
    requires k <= |links|
    ensures forall e | e in PacedEffects(links, svc, k) && e.Write? ::
      exists j | 0 <= j < k :: WriteFor(links[j], svc, e) && (e.payload.summary.Some? ==> IsBlank(links[j].summary))
  {
    if k > 0 {
      var earlier := PacedEffects(links, svc, k - 1);
      var own := LinkEffects(links[k - 1], svc);
      var pause: seq<Effect> := if k < |links| then [Pause(DELAY_MS)] else [];
      assert PacedEffects(links, svc, k) == earlier + own + pause by {
        assert LinkEffectsOf(links, svc)[k - 1] == own;
      }
      WritesRespectSummaries(links, svc, k - 1);
      forall e | e in earlier + own + pause && e.Write?
        ensures exists j | 0 <= j < k :: WriteFor(links[j], svc, e) && (e.payload.summary.Some? ==> IsBlank(links[j].summary))
      {
        if e in earlier {
          var j :| 0 <= j < k - 1 && WriteFor(links[j], svc, e) && (e.payload.summary.Some? ==> IsBlank(links[j].summary));
        } else {
          assert e in own;
          assert WriteFor(links[k - 1], svc, e);
        }
      }
    }
  }

  // ---------------------------------------------------------------------------------
  // The handler with the real extractor

  /** The extractor as the loop sees it: `fetchMetadata`, with a thrown error turned into
      its message. */
  function ExtractorService(web: MetadataExtractor.Web): (extract: string -> Result<Metadata, string>)
    ensures forall url :: extract(url).Success? <==> MetadataExtractor.FetchMetadata(url, web).result.Success?
    ensures forall url | MetadataExtractor.FetchMetadata(url, web).result.Success? ::
      extract(url) == Success(MetadataExtractor.FetchMetadata(url, web).result.value)
    ensures forall url | MetadataExtractor.FetchMetadata(url, web).result.Failure? ::
      extract(url) == Failure(MetadataExtractor.FetchMetadata(url, web).result.error.Message())
  {
    url =>
      match MetadataExtractor.FetchMetadata(url, web).result
      case Success(m) => Success(m)
      case Failure(e) => Failure(e.Message())
  }

  /** A link whose URL the gate refuses gets an errors entry with the gate's message, and
      no request is made for it. */
  lemma RefusedUrlRecorded(link: LinkRecord, web: MetadataExtractor.Web, update: (int, Payload) -> StoreReply)
    requires MetadataExtractor.ValidateUrl(web.parseUrl(link.url)).Fail?
    ensures MetadataExtractor.FetchMetadata(link.url, web).requests == []
    ensures Outcome(link, Services(ExtractorService(web), update)) ==
      Failed(ErrorEntry(link.id, link.url, MetadataExtractor.ValidateUrl(web.parseUrl(link.url)).error.Message()))
  {
  }

  /** A link whose request is aborted by the timeout, or fails, gets an errors entry with
      that error's message and causes no write. */
  lemma AbortedFetchRecorded(link: LinkRecord, web: MetadataExtractor.Web, update: (int, Payload) -> StoreReply,
                             message: string)
    requires web.parseUrl(link.url).Some? && MetadataExtractor.ValidateUrl(web.parseUrl(link.url)) == Pass
    requires web.transport(MetadataExtractor.RequestFor(link.url)) == MetadataExtractor.Rejected(message)
    ensures MetadataExtractor.FetchMetadata(link.url, web).requests == [MetadataExtractor.RequestFor(link.url)]
    ensures Outcome(link, Services(ExtractorService(web), update)) == Failed(ErrorEntry(link.id, link.url, message))
    ensures LinkEffects(link, Services(ExtractorService(web), update)) == [Extract(link.url)]
  {
    MetadataExtractor.FetchAborted(link.url, web, web.parseUrl(link.url).value, message);
    var svc := Services(ExtractorService(web), update);
    assert svc.extract(link.url) == Failure(message);
  }

  /** A link whose reply fails a response check (an HTTP error status, a content type that
      is not HTML, a declared length over the cap) gets an errors entry with that check's
      message and causes no write. */
  lemma RefusedReplyRecorded(link: LinkRecord, web: MetadataExtractor.Web, update: (int, Payload) -> StoreReply,
                             resp: MetadataExtractor.Response, e: MetadataExtractor.FetchError)
    requires web.parseUrl(link.url).Some? && MetadataExtractor.ValidateUrl(web.parseUrl(link.url)) == Pass
    requires web.transport(MetadataExtractor.RequestFor(link.url)) == MetadataExtractor.Replied(resp)
    requires MetadataExtractor.CheckResponse(resp) == Fail(e)
    ensures MetadataExtractor.FetchMetadata(link.url, web).requests == [MetadataExtractor.RequestFor(link.url)]
    ensures Outcome(link, Services(ExtractorService(web), update)) == Failed(ErrorEntry(link.id, link.url, e.Message()))
    ensures LinkEffects(link, Services(ExtractorService(web), update)) == [Extract(link.url)]
  {
    MetadataExtractor.FetchRefusedReply(link.url, web, web.parseUrl(link.url).value, resp, e);
    var svc := Services(ExtractorService(web), update);
    assert svc.extract(link.url) == Failure(e.Message());
  }

  /** The page served for https://example.com in the run below. */
  function ExampleWeb(reply: MetadataExtractor.FetchReply): MetadataExtractor.Web {
    MetadataExtractor.Web(
      u => Some(MetadataExtractor.ParsedUrl("https:", "example.com")),
      q => reply,
      h => MetadataExtractor.Document(None, Some("Example"), None, Some("hi")))
  }

  /** The report of a run over a single link is that link's own entry. */
  lemma SingleLinkReport(link: LinkRecord, svc: Services)
    ensures var o := Outcome(link, svc);
      BatchReport([link], svc) == Report(1,
        if o.Reported? && o.written then 1 else 0,
        if o.Failed? then [o.entry] else [],
        if o.Reported? then [o.detail] else [])
  {
    var o := Outcome(link, svc);
    var os := Outcomes([link], svc);
    assert os == [o] && os[..|os| - 1] == [];
    assert Errors(os) == Errors([]) + (if o.Failed? then [o.entry] else []);
    assert Details(os) == Details([]) + (if o.Reported? then [o.detail] else []);
    assert WrittenCount(os) == WrittenCount([]) + (if o.Reported? && o.written then 1 else 0);
  }

  /** The page of the examples below, served with status 200 and an HTML content type. */
  function ExamplePage(): MetadataExtractor.Web {
    ExampleWeb(MetadataExtractor.Replied(
      MetadataExtractor.Response(200, "OK", Some("text/html; charset=utf-8"), None, "<html>")))
  }

  lemma ExamplePageExtracted()
    ensures ExtractorService(ExamplePage())("https://example.com")
         == Success(MetadataExtractor.Metadata(Some("Example"), Some("hi")))
  {
    var resp := MetadataExtractor.Response(200, "OK", Some("text/html; charset=utf-8"), None, "<html>");
    MetadataExtractor.NamedHostExample();
    MetadataExtractor.HtmlWithCharsetAccepted();
    MetadataExtractor.TitleTagAndMetaDescriptionExample();
    MetadataExtractor.FetchGetsThrough("https://example.com", ExamplePage(),
      MetadataExtractor.ParsedUrl("https:", "example.com"), resp);
  }

  /** One blank-titled link whose page has the title "Example" and the meta description
      "hi": one write, and a details entry with both fields. */
  lemma ExampleRunWritesBoth()
    ensures BatchReport([LinkRecord(1, "https://example.com", None, None)],
                        Services(ExtractorService(ExamplePage()), (id, p) => Written)) ==
      Report(1, 1, [], [DetailEntry(1, "https://example.com", Some("Example"), Some("hi"))])
  {
    var link := LinkRecord(1, "https://example.com", None, None);
    var svc := Services(ExtractorService(ExamplePage()), (id, p) => Written);
    ExamplePageExtracted();
    var meta := MetadataExtractor.Metadata(Some("Example"), Some("hi"));
    assert IsBlank(link.summary);
    assert BuildPayload(meta, link) == Payload(Some("Example"), Some("hi"));
    SingleLinkReport(link, svc);
  }
}
