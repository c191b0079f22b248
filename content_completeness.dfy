/** The content-completeness proof: every page of a generated layout needs a
    title-like text and a body-like text, and a successful export must also
    report the completeness and internal-terms gates as "pass". */
module ContentCompleteness {
  import opened PyJson
  import opened Transport

  // ------------------------------------------------------ one element

  /** `str(element.get("text", "")).strip()`: an explicit null text reads as "None". */
  function StrippedText(e: Json): string
    requires e.JObj?
  {
    Strip(PyStr(GetOr(e, "text", JStr(""))))
  }

  /** `str(element.get("id", "")).lower()` */
  function IdOf(e: Json): string
    requires e.JObj?
  {
    Lower(PyStr(GetOr(e, "id", JStr(""))))
  }

  /** A dict text element, not debug-only, whose stripped text has at least two characters. */
  predicate Considered(e: Json) {
    && e.JObj?
    && Get(e, "type") == JStr("text")
    && !Truthy(Get(e, "debugOnly"))
    && |StrippedText(e)| >= 2
  }

  /** The id names a title and not a subtitle. */
  predicate TitleLike(e: Json)
    requires e.JObj?
  {
    Contains(IdOf(e), "title") && !Contains(IdOf(e), "subtitle")
  }

  /** The id names body or callout copy, or the text is a "- " bullet. */
  predicate BodyLike(e: Json)
    requires e.JObj?
  {
    Contains(IdOf(e), "body") || Contains(IdOf(e), "callout") || StartsWith(StrippedText(e), "- ")
  }

  /** A considered title-like element: it adds one to `title_count`. */
  predicate CountsAsTitle(e: Json) {
    Considered(e) && TitleLike(e)
  }

  /** A considered body-like element: it adds one to `body_or_callout_count`. */
  predicate CountsAsBody(e: Json) {
    Considered(e) && BodyLike(e)
  }

  /** An id mentioning "subtitle" also mentions "title", and is never title-like. */
  lemma SubtitleIsNotTitle(e: Json)
    requires e.JObj? && Contains(IdOf(e), "subtitle")
    ensures Contains(IdOf(e), "title")
    ensures !TitleLike(e)
  {
    var id := IdOf(e);
    var i :| 0 <= i <= |id| - |"subtitle"| && OccursAt(id, "subtitle", i);
    assert id[i + 3..i + 8] == id[i..i + 8][3..8];
    assert OccursAt(id, "title", i + 3);
  }

  // --------------------------------------------------------- one page

  /** A page has minimum content: its `elements` is a list holding a
      considered title-like element and a considered body-like one (possibly
      the same element). */
  predicate HasMinimumContent(page: Json)
    requires page.JObj?
  {
    var elements := Get(page, "elements");
    && elements.JArr?
    && CountWhere(elements.items, CountsAsTitle) >= 1
    && CountWhere(elements.items, CountsAsBody) >= 1
  }

  /** One element moves the two counters of `page_has_minimum_content`. */
  lemma CountContentStep(es: seq<Json>, i: nat)
    requires i < |es|
    ensures CountWhere(es[..i + 1], CountsAsTitle)
              == CountWhere(es[..i], CountsAsTitle) + (if CountsAsTitle(es[i]) then 1 else 0)
    ensures CountWhere(es[..i + 1], CountsAsBody)
              == CountWhere(es[..i], CountsAsBody) + (if CountsAsBody(es[i]) then 1 else 0)
  {
    assert es[..i + 1][..i] == es[..i];
  }

  /** The body of the counting loop: a considered element is counted as
      title-like, as body-like, or both. */
  method VisitContent(e: Json, titleCount: nat, bodyOrCalloutCount: nat)
    returns (titleCount': nat, bodyOrCalloutCount': nat)
    ensures titleCount' == titleCount + (if CountsAsTitle(e) then 1 else 0)
    ensures bodyOrCalloutCount' == bodyOrCalloutCount + (if CountsAsBody(e) then 1 else 0)
  {
    titleCount', bodyOrCalloutCount' := titleCount, bodyOrCalloutCount;
    if Considered(e) {
      if TitleLike(e) {
        titleCount' := titleCount' + 1;
      }
      if BodyLike(e) {
        bodyOrCalloutCount' := bodyOrCalloutCount' + 1;
      }
    }
  }

  /** The counting loop of `page_has_minimum_content`. */
  method CountContent(es: seq<Json>) returns (titleCount: nat, bodyOrCalloutCount: nat)
    ensures titleCount == CountWhere(es, CountsAsTitle)
    ensures bodyOrCalloutCount == CountWhere(es, CountsAsBody)
  {
    titleCount, bodyOrCalloutCount := 0, 0;
    var i := 0;
    while i < |es|
      invariant 0 <= i <= |es|
      invariant titleCount == CountWhere(es[..i], CountsAsTitle)
      invariant bodyOrCalloutCount == CountWhere(es[..i], CountsAsBody)
    {
      CountContentStep(es, i);
      titleCount, bodyOrCalloutCount := VisitContent(es[i], titleCount, bodyOrCalloutCount);
      i := i + 1;
    }
    assert es[..i] == es;
  }

  /** `page_has_minimum_content`: two counters over the element list. */
  method PageHasMinimumContent(page: Json) returns (ok: bool)
    requires page.JObj?
    ensures ok == HasMinimumContent(page)
    ensures !Get(page, "elements").JArr? ==> !ok
  {
    var elements := Get(page, "elements");
    if !elements.JArr? {
      return false;
    }
    var titleCount, bodyOrCalloutCount := CountContent(elements.items);
    ok := titleCount >= 1 && bodyOrCalloutCount >= 1;
  }

  /** A page has minimum content exactly when its elements are a list with
      a considered title-like element and a considered body-like one. */
  lemma MinimumContentWitnesses(page: Json)
    requires page.JObj?
    ensures HasMinimumContent(page) <==>
              && Get(page, "elements").JArr?
              && (exists i | 0 <= i < |Get(page, "elements").items| :: CountsAsTitle(Get(page, "elements").items[i]))
              && (exists i | 0 <= i < |Get(page, "elements").items| :: CountsAsBody(Get(page, "elements").items[i]))
  {
    if Get(page, "elements").JArr? {
      CountWherePositive(Get(page, "elements").items, CountsAsTitle);
      CountWherePositive(Get(page, "elements").items, CountsAsBody);
    }
  }

  // ------------------------------------------------ query and payload

  /** One case of the script. `docKind` and `pageCount` may be missing. */
  datatype Case = Case(
    name: string,
    jobId: string,
    title: string,
    prompt: string,
    docKind: Option<string>,
    pageCount: Option<string>,
    variant: string,
    seed: string)

  /** `case.get(key)` is truthy: present and not empty. */
  predicate Supplied(o: Option<string>) {
    o.Some? && o.value != ""
  }

  /** The optional keys a case adds, to either dict. */
  function WithOptional(base: map<string, string>, c: Case): map<string, string> {
    var withKind := if Supplied(c.docKind) then base["docKind" := c.docKind.value] else base;
    if Supplied(c.pageCount) then withKind["pageCount" := c.pageCount.value] else withKind
  }

  /** The regenerate-trigger query. */
  function Query(c: Case): map<string, string> {
    WithOptional(map["jobId" := c.jobId, "title" := c.title, "prompt" := c.prompt,
                     "variantIndex" := c.variant, "seed" := c.seed, "size" := "A4P"], c)
  }

  /** The export form. */
  function Payload(c: Case): map<string, string> {
    WithOptional(map["jobId" := c.jobId, "title" := c.title, "prompt" := c.prompt,
                     "variantIndex" := c.variant, "seed" := c.seed,
                     "pageSizePreset" := "A4P", "pageWidthMm" := "210", "pageHeightMm" := "297",
                     "language" := "ko", "tone" := "concise"], c)
  }

  /** The keys the trigger query and the export form share. */
  const SharedKeys: set<string> := {"jobId", "title", "prompt", "variantIndex", "seed", "docKind", "pageCount"}

  /** The query and the form carry docKind / pageCount exactly when the case
      supplies a non-empty value, and agree on every shared key. */
  lemma QueryPayloadAgree(c: Case)
    ensures "docKind" in Query(c) <==> Supplied(c.docKind)
    ensures "docKind" in Payload(c) <==> Supplied(c.docKind)
    ensures "pageCount" in Query(c) <==> Supplied(c.pageCount)
    ensures "pageCount" in Payload(c) <==> Supplied(c.pageCount)
    ensures forall k | k in SharedKeys :: (k in Query(c) <==> k in Payload(c))
    ensures forall k | k in SharedKeys && k in Query(c) :: Query(c)[k] == Payload(c)[k]
    ensures Query(c)["jobId"] == c.jobId && Payload(c)["seed"] == c.seed
  {
  }

  /** Builds the query by inserting the optional keys into the fixed dict. */
  method BuildQuery(c: Case) returns (query: map<string, string>)
    ensures query == Query(c)
  {
    query := map["jobId" := c.jobId, "title" := c.title, "prompt" := c.prompt,
                 "variantIndex" := c.variant, "seed" := c.seed, "size" := "A4P"];
    if Supplied(c.docKind) {
      query := query["docKind" := c.docKind.value];
    }
    if Supplied(c.pageCount) {
      query := query["pageCount" := c.pageCount.value];
    }
  }

  /** Builds the export form by inserting the optional keys into the fixed dict. */
  method BuildPayload(c: Case) returns (payload: map<string, string>)
    ensures payload == Payload(c)
  {
    payload := map["jobId" := c.jobId, "title" := c.title, "prompt" := c.prompt,
                   "variantIndex" := c.variant, "seed" := c.seed,
                   "pageSizePreset" := "A4P", "pageWidthMm" := "210", "pageHeightMm" := "297",
                   "language" := "ko", "tone" := "concise"];
    if Supplied(c.docKind) {
      payload := payload["docKind" := c.docKind.value];
    }
    if Supplied(c.pageCount) {
      payload := payload["pageCount" := c.pageCount.value];
    }
  }

  // ------------------------------------------------------------ a case

  const InternalTermsHeader := "x-docfactory-content-internal-terms"
  const CompletenessHeader := "x-docfactory-content-completeness"
  const ReferenceUsageHeader := "x-docfactory-reference-usage"

  /** The gate headers of a successful export, each None when absent. */
  datatype GateProof = GateProof(internalTerms: Json, completeness: Json, referenceUsage: Json)

  /** The gate proof recorded for a successful export: its internal-terms,
      completeness and reference-usage headers. */
  function GateProofOf(resp: Response): (g: GateProof)
    ensures g.internalTerms.JStr? <==> InternalTermsHeader in resp.headers
    ensures g.completeness.JStr? <==> CompletenessHeader in resp.headers
    ensures g.referenceUsage.JStr? <==> ReferenceUsageHeader in resp.headers
    ensures g.completeness == JStr("pass") <==>
              CompletenessHeader in resp.headers && resp.headers[CompletenessHeader] == "pass"
    ensures g.internalTerms == JStr("pass") <==>
              InternalTermsHeader in resp.headers && resp.headers[InternalTermsHeader] == "pass"
  {
    GateProof(Header(resp, InternalTermsHeader), Header(resp, CompletenessHeader),
              Header(resp, ReferenceUsageHeader))
  }

  /** The pages checked: those of the layout named by a string request hash,
      when the layout is a dict whose `pages` is a list. */
  function CasePages(resp: Response, layouts: map<string, Json>): seq<Json> {
    var h := RequestHash(resp);
    if h.JStr? && h.s in layouts && layouts[h.s].JObj? && Get(layouts[h.s], "pages").JArr? then
      Get(layouts[h.s], "pages").items
    else []
  }

  /** `[page_has_minimum_content(page) for page in pages if isinstance(page, dict)]` */
  function PageChecks(pages: seq<Json>): seq<bool> {
    if pages == [] then []
    else
      var p := pages[|pages| - 1];
      PageChecks(pages[..|pages| - 1]) + (if p.JObj? then [HasMinimumContent(p)] else [])
  }

  predicate AllTrue(bs: seq<bool>) {
    forall k | 0 <= k < |bs| :: bs[k]
  }

  lemma AllTrueConcat(a: seq<bool>, b: seq<bool>)
    ensures AllTrue(a + b) <==> AllTrue(a) && AllTrue(b)
  {
    if AllTrue(a) && AllTrue(b) {
      forall k | 0 <= k < |a + b| ensures (a + b)[k] {
        if k < |a| { assert (a + b)[k] == a[k]; } else { assert (a + b)[k] == b[k - |a|]; }
      }
    }
    if AllTrue(a + b) {
      forall k | 0 <= k < |a| ensures a[k] { assert (a + b)[k] == a[k]; }
      forall k | 0 <= k < |b| ensures b[k] { assert (a + b)[|a| + k] == b[k]; }
    }
  }

  /** There is a check per dict page, and every check is true exactly when every dict page has minimum content. */
  lemma {:induction false} PageChecksSound(pages: seq<Json>)
    ensures |PageChecks(pages)| > 0 <==> exists i | 0 <= i < |pages| :: pages[i].JObj?
    ensures AllTrue(PageChecks(pages)) <==>
              forall i | 0 <= i < |pages| && pages[i].JObj? :: HasMinimumContent(pages[i])
  {
    if pages != [] {
      var init := pages[..|pages| - 1];
      PageChecksSound(init);
      assert forall i | 0 <= i < |init| :: init[i] == pages[i];
      var p := pages[|pages| - 1];
      var tail := if p.JObj? then [HasMinimumContent(p)] else [];
      assert PageChecks(pages) == PageChecks(init) + tail;
      AllTrueConcat(PageChecks(init), tail);
      if p.JObj? {
        assert tail[0] == HasMinimumContent(p);
      }
      assert AllTrue(tail) <==> (p.JObj? ==> HasMinimumContent(p));
      if AllTrue(PageChecks(pages)) {
        forall i | 0 <= i < |pages| && pages[i].JObj? ensures HasMinimumContent(pages[i]) {
          if i < |init| {
            assert init[i] == pages[i];
          }
        }
      }
    }
  }

  datatype CaseResult = CaseResult(
    name: string,
    status: int,
    requestHash: Json,
    pageChecks: seq<bool>,
    gateProof: Option<GateProof>,
    exportIssueCount: nat,
    passed: bool)

  /** A case result names its case, checks the dict pages of its response's
      layout, records the gate headers exactly for a successful export, and
      passes exactly when the export succeeded, some page was
      checked, every check holds and both gate headers read "pass". */
  predicate Reports(r: CaseResult, c: Case, resp: Response, layouts: map<string, Json>) {
    && r.name == c.name
    && r.pageChecks == PageChecks(CasePages(resp, layouts))
    && r.gateProof == (if resp.status == 200 then Some(GateProofOf(resp)) else None)
    && (r.passed <==>
          && resp.status == 200
          && |r.pageChecks| > 0 && AllTrue(r.pageChecks)
          && Header(resp, CompletenessHeader) == JStr("pass")
          && Header(resp, InternalTermsHeader) == JStr("pass"))
  }

  /** `run_case` after the export call: the checks, the gate headers and the verdict. */
  method RunCase(c: Case, resp: Response, layouts: map<string, Json>) returns (r: CaseResult)
    ensures r.name == c.name && r.status == resp.status
    ensures r.requestHash == RequestHash(resp)
    ensures r.pageChecks == PageChecks(CasePages(resp, layouts))
    ensures r.gateProof.Some? <==> resp.status == 200
    ensures r.gateProof.Some? ==> r.gateProof.value == GateProofOf(resp)
    ensures r.exportIssueCount == |IssueList(resp.body)|
    ensures r.passed <==>
              && resp.status == 200
              && |r.pageChecks| > 0 && AllTrue(r.pageChecks)
              && Header(resp, CompletenessHeader) == JStr("pass")
              && Header(resp, InternalTermsHeader) == JStr("pass")
    ensures Reports(r, c, resp, layouts)
  {
    var requestHash := RequestHash(resp);
    var pages := CasePages(resp, layouts);
    var pageChecks: seq<bool> := [];
    var i := 0;
    while i < |pages|
      invariant 0 <= i <= |pages|
      invariant pageChecks == PageChecks(pages[..i])
    {
      var page := pages[i];
      assert pages[..i + 1][..i] == pages[..i];
      if page.JObj? {
        var ok := PageHasMinimumContent(page);
        pageChecks := pageChecks + [ok];
      }
      i := i + 1;
    }
    assert pages[..i] == pages;

    var gateProof: Option<GateProof> := None;
    if resp.status == 200 {
      gateProof := Some(GateProofOf(resp));
    }

    var exportIssues := IssueList(resp.body);

    var passed := resp.status == 200 && |pageChecks| > 0 && AllTrue(pageChecks);
    if gateProof.Some? {
      passed := passed && gateProof.value.completeness == JStr("pass")
                       && gateProof.value.internalTerms == JStr("pass");
    }
    r := CaseResult(c.name, resp.status, requestHash, pageChecks, gateProof, |exportIssues|, passed);
  }

  /** A successful export passes exactly when it has a dict page, every dict
      page has minimum content and both gate headers read "pass"; a missing
      header fails it; any other status fails. */
  lemma CaseVerdict(resp: Response, layouts: map<string, Json>)
    ensures var pages := CasePages(resp, layouts);
      (&& resp.status == 200
       && |PageChecks(pages)| > 0 && AllTrue(PageChecks(pages))
       && Header(resp, CompletenessHeader) == JStr("pass")
       && Header(resp, InternalTermsHeader) == JStr("pass"))
      <==>
      (&& resp.status == 200
       && (exists i | 0 <= i < |pages| :: pages[i].JObj?)
       && (forall i | 0 <= i < |pages| && pages[i].JObj? :: HasMinimumContent(pages[i]))
       && CompletenessHeader in resp.headers && resp.headers[CompletenessHeader] == "pass"
       && InternalTermsHeader in resp.headers && resp.headers[InternalTermsHeader] == "pass")
  {
    PageChecksSound(CasePages(resp, layouts));
  }

  // --------------------------------------------------------------- main

  /** The three fixed cases. */
  const Cases: seq<Case> := [
    Case("empty-content", "qa-complete-empty", "QA_Content_Empty", "",
         Some("poster"), Some("exact(1)"), "1", "33001"),
    Case("poster-two-pages", "qa-complete-poster2", "QA_Content_Poster2",
         "\U{D3EC}\U{C2A4}\U{D130} 2\U{C7A5} \U{B9CC}\U{B4E4}\U{C5B4}\U{C918}",
         None, None, "1", "33002"),
    Case("friend-intro", "qa-complete-friend", "QA_Content_Friend",
         "\U{CE5C}\U{AD6C} \U{C18C}\U{AC1C} \U{D3EC}\U{C2A4}\U{D130} \U{B9CC}\U{B4E4}\U{C5B4}\U{C918}",
         None, None, "1", "33003")
  ]

  /** `main`: the script passes iff every case passes and exits with status 1 otherwise. */
  method RunProof(responses: seq<Response>, layouts: map<string, Json>)
    returns (results: seq<CaseResult>, passed: bool, exitCode: int)
    requires |responses| == |Cases|
    ensures |results| == |Cases|
    ensures forall k | 0 <= k < |results| :: Reports(results[k], Cases[k], responses[k], layouts)
    ensures passed <==> forall k | 0 <= k < |results| :: results[k].passed
    ensures exitCode == (if passed then 0 else 1)
  {
    results := [];
    var k := 0;
    while k < |Cases|
      invariant 0 <= k <= |Cases|
      invariant |results| == k
      invariant forall j | 0 <= j < k :: Reports(results[j], Cases[j], responses[j], layouts)
    {
      var c := Cases[k];
      var r := RunCase(c, responses[k], layouts);
      results := results + [r];
      k := k + 1;
    }
    passed := forall j | 0 <= j < |results| :: results[j].passed;
    exitCode := if passed then 0 else 1;
  }
}
