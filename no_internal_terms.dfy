/** The internal-terms proof: the visible text items of an export's layout are
    scanned for seven internal identifiers as case-insensitive whole words; a
    completed export passes when no item mentions one, a rejected export when
    the export gate reports the leakage. */
module NoInternalTerms {
  import opened PyJson
  import opened Transport

  // ------------------------------------------------------------ patterns

  /** The seven forbidden terms, in pattern-list order, each matched as
      `\b<term>\b` ignoring case. */
  const Terms: seq<string> := [
    "requestspec",
    "variantindex",
    "referencedigest",
    "layout",
    "validation",
    "theme-factory",
    "webapp-testing"
  ]

  /** `pattern.pattern`, the text a hit records. */
  function PatternText(term: string): string {
    "\\b" + term + "\\b"
  }

  /** A character of the regex class `\w`: ASCII letters, digits and the
      underscore, and Hangul syllables (other Unicode letters are not modelled). */
  predicate WordChar(c: char) {
    || 'a' <= c <= 'z' || 'A' <= c <= 'Z' || '0' <= c <= '9' || c == '_'
    || '\U{AC00}' <= c <= '\U{D7A3}'
  }

  /** The term occurs at i ignoring ASCII case, with a word boundary on both
      sides. Every term starts and ends with a letter, so each boundary means
      that the neighbouring character is absent or not a word character. */
  predicate WordMatchAt(s: string, term: string, i: int) {
    && 0 <= i <= |s| - |term|
    && Lower(s[i..i + |term|]) == term
    && (i == 0 || !WordChar(s[i - 1]))
    && (i + |term| == |s| || !WordChar(s[i + |term|]))
  }

  /** `pattern.search(s)` finds a match. */
  predicate Matches(s: string, term: string) {
    exists i | 0 <= i <= |s| - |term| :: WordMatchAt(s, term, i)
  }

  // ---------------------------------------------------------- text items

  /** `{"page": ..., "id": ..., "text": ...}` */
  datatype TextItem = TextItem(page: Json, id: Json, text: string)

  /** A dict element of type "text" that is not debug-only. */
  predicate Visible(e: Json) {
    e.JObj? && Get(e, "type") == JStr("text") && !Truthy(Get(e, "debugOnly"))
  }

  /** The item of a visible element: `str(element.get("text", ""))`, so a null
      text reads as "None". */
  function ItemOf(pageNumber: Json, e: Json): TextItem
    requires e.JObj?
  {
    TextItem(pageNumber, Get(e, "id"), PyStr(GetOr(e, "text", JStr(""))))
  }

  /** The items of a page's elements, in element order. */
  function ElementTexts(pageNumber: Json, es: seq<Json>): seq<TextItem> {
    if es == [] then []
    else
      var e := es[|es| - 1];
      ElementTexts(pageNumber, es[..|es| - 1]) + (if Visible(e) then [ItemOf(pageNumber, e)] else [])
  }

  /** A page's items; none when its `elements` is not a list. */
  function PageTexts(page: Json): seq<TextItem>
    requires page.JObj?
  {
    var elements := Get(page, "elements");
    if elements.JArr? then ElementTexts(Get(page, "pageNumber"), elements.items) else []
  }

  predicate AllDicts(pages: seq<Json>) {
    forall p | 0 <= p < |pages| :: pages[p].JObj?
  }

  /** The items of all pages, page by page. */
  function PagesTexts(pages: seq<Json>): seq<TextItem>
    requires AllDicts(pages)
  {
    if pages == [] then []
    else PagesTexts(pages[..|pages| - 1]) + PageTexts(pages[|pages| - 1])
  }

  /** A stored layout the reader can walk without raising: it is a dict, and
      when its pages are a list every page is a dict. */
  predicate LayoutReadable(layout: Json) {
    layout.JObj? && (Get(layout, "pages").JArr? ==> AllDicts(Get(layout, "pages").items))
  }

  /** `read_layout_texts(h)` opens only job `h`'s layout, so only that one has
      to be readable; other jobs' layouts may hold anything. */
  predicate StoredReadable(layouts: map<string, Json>, h: string) {
    h in layouts ==> LayoutReadable(layouts[h])
  }

  /** `read_layout_texts(h)` over the parsed layouts of the job directories:
      nothing when the layout is missing or unparsable (absent from the
      store) or its pages are not a list. */
  function LayoutTexts(layouts: map<string, Json>, h: string): seq<TextItem>
    requires StoredReadable(layouts, h)
  {
    if h !in layouts then []
    else
      assert LayoutReadable(layouts[h]);
      var pages := Get(layouts[h], "pages");
      if pages.JArr? then PagesTexts(pages.items) else []
  }

  /** An element contributes an item exactly when it is visible, and the item
      carries its page number, id and text. */
  lemma {:induction false} ElementTextsExact(pageNumber: Json, es: seq<Json>, t: TextItem)
    ensures t in ElementTexts(pageNumber, es) <==>
              exists k | 0 <= k < |es| :: Visible(es[k]) && t == ItemOf(pageNumber, es[k])
  {
    if es != [] {
      var init := es[..|es| - 1];
      ElementTextsExact(pageNumber, init, t);
      assert forall k | 0 <= k < |init| :: init[k] == es[k];
      if t in ElementTexts(pageNumber, init) {
        var k :| 0 <= k < |init| && Visible(init[k]) && t == ItemOf(pageNumber, init[k]);
        assert Visible(es[k]) && t == ItemOf(pageNumber, es[k]);
      }
    }
  }

  /** One item per visible element. */
  lemma {:induction false} ElementTextsCount(pageNumber: Json, es: seq<Json>)
    ensures |ElementTexts(pageNumber, es)| == CountWhere(es, Visible)
  {
    if es != [] {
      ElementTextsCount(pageNumber, es[..|es| - 1]);
    }
  }

  /** An item of the layout comes from exactly one of its pages' item lists. */
  lemma {:induction false} PagesTextsExact(pages: seq<Json>, t: TextItem)
    requires AllDicts(pages)
    ensures t in PagesTexts(pages) <==> exists p | 0 <= p < |pages| :: t in PageTexts(pages[p])
  {
    if pages != [] {
      var init := pages[..|pages| - 1];
      assert forall p | 0 <= p < |init| :: init[p] == pages[p];
      PagesTextsExact(init, t);
      if t in PagesTexts(init) {
        var p :| 0 <= p < |init| && t in PageTexts(init[p]);
        assert t in PageTexts(pages[p]);
      }
    }
  }

  /** The items are laid out page after page: the items of a run of pages are
      the items of its first part followed by those of the rest. */
  lemma {:induction false} PagesTextsAppend(a: seq<Json>, b: seq<Json>)
    requires AllDicts(a) && AllDicts(b)
    ensures AllDicts(a + b)
    ensures PagesTexts(a + b) == PagesTexts(a) + PagesTexts(b)
  {
    if b != [] {
      var b0 := b[..|b| - 1];
      assert (a + b)[..|a + b| - 1] == a + b0;
      PagesTextsAppend(a, b0);
    } else {
      assert a + b == a;
    }
  }

  /** The element loop of one page, appending to the items collected so far. */
  method AppendPageTexts(texts: seq<TextItem>, page: Json) returns (texts': seq<TextItem>)
    requires page.JObj?
    ensures texts' == texts + PageTexts(page)
  {
    texts' := texts;
    var pageNumber := Get(page, "pageNumber");
    var elements := Get(page, "elements");
    if !elements.JArr? {
      return;
    }
    var es := elements.items;
    var j := 0;
    while j < |es|
      invariant 0 <= j <= |es|
      invariant texts' == texts + ElementTexts(pageNumber, es[..j])
    {
      var element := es[j];
      assert es[..j + 1][..j] == es[..j];
      if element.JObj? && Get(element, "type") == JStr("text") && !Truthy(Get(element, "debugOnly")) {
        texts' := texts' + [ItemOf(pageNumber, element)];
      }
      j := j + 1;
    }
    assert es[..j] == es;
  }

  /** `read_layout_texts`: the text items of every page in page-then-element
      order. */
  method ReadLayoutTexts(layouts: map<string, Json>, h: string) returns (texts: seq<TextItem>)
    requires StoredReadable(layouts, h)
    ensures texts == LayoutTexts(layouts, h)
    ensures h !in layouts ==> texts == []
    ensures h in layouts && layouts[h].JObj? && !Get(layouts[h], "pages").JArr? ==> texts == []
  {
    if h !in layouts {
      return [];
    }
    var parsed := layouts[h];
    assert LayoutReadable(parsed);
    var pages := Get(parsed, "pages");
    if !pages.JArr? {
      return [];
    }
    var ps := pages.items;
    texts := [];
    var i := 0;
    while i < |ps|
      invariant 0 <= i <= |ps|
      invariant AllDicts(ps[..i])
      invariant texts == PagesTexts(ps[..i])
    {
      assert ps[..i + 1][..i] == ps[..i];
      texts := AppendPageTexts(texts, ps[i]);
      i := i + 1;
    }
    assert ps[..i] == ps;
  }

  // ---------------------------------------------------------------- hits

  /** `{"page": ..., "id": ..., "pattern": ..., "text": ...}` */
  datatype Hit = Hit(page: Json, id: Json, pattern: string, text: string)

  function HitOf(item: TextItem, term: string): Hit {
    Hit(item.page, item.id, PatternText(term), item.text)
  }

  /** The hits of one item, in pattern-list order. */
  function PatternHits(item: TextItem, terms: seq<string>): seq<Hit> {
    if terms == [] then []
    else
      var t := terms[|terms| - 1];
      PatternHits(item, terms[..|terms| - 1]) + (if Matches(item.text, t) then [HitOf(item, t)] else [])
  }

  /** The hits of all items, item by item. */
  function ForbiddenHits(items: seq<TextItem>): seq<Hit> {
    if items == [] then []
    else ForbiddenHits(items[..|items| - 1]) + PatternHits(items[|items| - 1], Terms)
  }

  /** One hit per matching pattern, recording that pattern and the item. */
  lemma {:induction false} PatternHitsExact(item: TextItem, terms: seq<string>, h: Hit)
    ensures h in PatternHits(item, terms) <==>
              exists k | 0 <= k < |terms| :: Matches(item.text, terms[k]) && h == HitOf(item, terms[k])
  {
    if terms != [] {
      var init := terms[..|terms| - 1];
      PatternHitsExact(item, init, h);
      assert forall k | 0 <= k < |init| :: init[k] == terms[k];
      if h in PatternHits(item, init) {
        var k :| 0 <= k < |init| && Matches(item.text, init[k]) && h == HitOf(item, init[k]);
        assert Matches(item.text, terms[k]) && h == HitOf(item, terms[k]);
      }
    }
  }

  /** A text yields as many hits as there are patterns it matches. */
  lemma {:induction false} PatternHitsCount(item: TextItem, terms: seq<string>)
    ensures |PatternHits(item, terms)| == CountWhere(terms, t => Matches(item.text, t))
  {
    if terms != [] {
      PatternHitsCount(item, terms[..|terms| - 1]);
    }
  }

  /** An item has no hit exactly when it matches no pattern. */
  lemma {:induction false} PatternHitsEmpty(item: TextItem, terms: seq<string>)
    ensures PatternHits(item, terms) == [] <==> forall k | 0 <= k < |terms| :: !Matches(item.text, terms[k])
  {
    if terms != [] {
      var init := terms[..|terms| - 1];
      PatternHitsEmpty(item, init);
      assert forall k | 0 <= k < |init| :: init[k] == terms[k];
    }
  }

  /** Hits are ordered by item: the hits of a list of items are those of its
      first part followed by those of the rest. */
  lemma {:induction false} ForbiddenHitsAppend(a: seq<TextItem>, b: seq<TextItem>)
    ensures ForbiddenHits(a + b) == ForbiddenHits(a) + ForbiddenHits(b)
  {
    if b != [] {
      var b0 := b[..|b| - 1];
      assert (a + b)[..|a + b| - 1] == a + b0;
      ForbiddenHitsAppend(a, b0);
    } else {
      assert a + b == a;
    }
  }

  /** A hit of the items is a hit of one of them. */
  lemma {:induction false} ForbiddenHitsPerItem(items: seq<TextItem>, h: Hit)
    ensures h in ForbiddenHits(items) <==> exists i | 0 <= i < |items| :: h in PatternHits(items[i], Terms)
  {
    if items != [] {
      var init := items[..|items| - 1];
      ForbiddenHitsPerItem(init, h);
      assert forall i | 0 <= i < |init| :: init[i] == items[i];
    }
  }

  /** A hit exists for an item and a pattern exactly when the item's text
      matches the pattern. */
  lemma ForbiddenHitsExact(items: seq<TextItem>, h: Hit)
    ensures h in ForbiddenHits(items) <==>
              exists i, k | 0 <= i < |items| && 0 <= k < |Terms| ::
                Matches(items[i].text, Terms[k]) && h == HitOf(items[i], Terms[k])
  {
    ForbiddenHitsPerItem(items, h);
    forall i | 0 <= i < |items| {
      PatternHitsExact(items[i], Terms, h);
    }
  }

  /** No hit at all exactly when no item matches any pattern. */
  lemma {:induction false} ForbiddenHitsEmpty(items: seq<TextItem>)
    ensures ForbiddenHits(items) == [] <==>
              forall i, k | 0 <= i < |items| && 0 <= k < |Terms| :: !Matches(items[i].text, Terms[k])
  {
    if items != [] {
      var init := items[..|items| - 1];
      var last := items[|items| - 1];
      ForbiddenHitsEmpty(init);
      PatternHitsEmpty(last, Terms);
      assert forall i | 0 <= i < |init| :: init[i] == items[i];
    }
  }

  /** The pattern loop of one item, appending to the hits found so far. */
  method AppendItemHits(hits: seq<Hit>, item: TextItem) returns (hits': seq<Hit>)
    ensures hits' == hits + PatternHits(item, Terms)
  {
    hits' := hits;
    var source := item.text;
    var k := 0;
    while k < |Terms|
      invariant 0 <= k <= |Terms|
      invariant hits' == hits + PatternHits(item, Terms[..k])
    {
      assert Terms[..k + 1][..k] == Terms[..k];
      var term := Terms[k];
      if Matches(source, term) {
        hits' := hits' + [Hit(item.page, item.id, PatternText(term), source)];
      }
      k := k + 1;
    }
    assert Terms[..k] == Terms;
  }

  /** `find_forbidden_hits` */
  method FindForbiddenHits(items: seq<TextItem>) returns (hits: seq<Hit>)
    ensures hits == ForbiddenHits(items)
  {
    hits := [];
    var i := 0;
    while i < |items|
      invariant 0 <= i <= |items|
      invariant hits == ForbiddenHits(items[..i])
    {
      assert items[..i + 1][..i] == items[..i];
      hits := AppendItemHits(hits, items[i]);
      i := i + 1;
    }
    assert items[..i] == items;
  }

  // -------------------------------------------------------------- verdict

  const GateMarker := "internal term leakage detected"

  /** `has_internal_term_gate_issue` */
  method HasInternalTermGateIssue(resp: Response) returns (found: bool)
    ensures found <==> MentionsMarker(resp.body, GateMarker)
  {
    found := ScanIssues(resp, GateMarker);
  }

  /** The status-dependent verdict: a completed export passes with no hit and
      a string request hash, a rejected one (400) when the gate reported the
      leakage, any other status never. */
  function Verdict(status: int, requestHash: Json, hits: seq<Hit>, gateIssue: bool): (passed: bool)
    ensures status != 200 && status != 400 ==> !passed
    ensures status == 200 ==> (passed <==> hits == [] && requestHash.JStr?)
    ensures status == 400 ==> (passed <==> gateIssue)
  {
    if status == 200 then hits == [] && requestHash.JStr?
    else if status == 400 then gateIssue
    else false
  }

  /** The layout the script reads for a response, if any, is readable. */
  predicate CaseReadable(resp: Response, layouts: map<string, Json>) {
    RequestHash(resp).JStr? ==> StoredReadable(layouts, RequestHash(resp).s)
  }

  /** The text items the script scans: those of the request hash's layout,
      none when the hash is not a string. */
  function ScannedTexts(resp: Response, layouts: map<string, Json>): seq<TextItem>
    requires CaseReadable(resp, layouts)
  {
    var h := RequestHash(resp);
    if h.JStr? then LayoutTexts(layouts, h.s) else []
  }

  /** Another job's layout, whatever it holds (a non-dict page included),
      neither makes a case unreadable nor changes the texts it scans. */
  lemma OtherLayoutsIgnored(resp: Response, layouts: map<string, Json>, other: string, layout: Json)
    requires CaseReadable(resp, layouts)
    requires RequestHash(resp).JStr? ==> other != RequestHash(resp).s
    ensures CaseReadable(resp, layouts[other := layout])
    ensures ScannedTexts(resp, layouts[other := layout]) == ScannedTexts(resp, layouts)
  {
  }

  datatype Outcome = Outcome(
    status: int,
    requestHash: Json,
    hits: seq<Hit>,
    blockedByGate: bool,
    passed: bool)

  /** `main` after the export call. */
  method RunProof(resp: Response, layouts: map<string, Json>) returns (out: Outcome, exitCode: int)
    requires CaseReadable(resp, layouts)
    ensures out.status == resp.status && out.requestHash == RequestHash(resp)
    ensures out.hits == ForbiddenHits(ScannedTexts(resp, layouts))
    ensures !out.requestHash.JStr? ==> out.hits == []
    ensures out.blockedByGate <==> MentionsMarker(resp.body, GateMarker)
    ensures out.passed == Verdict(resp.status, out.requestHash, out.hits, out.blockedByGate)
    ensures exitCode == (if out.passed then 0 else 1)
  {
    var requestHash := RequestHash(resp);
    var textItems: seq<TextItem> := [];
    if requestHash.JStr? {
      textItems := ReadLayoutTexts(layouts, requestHash.s);
    }
    var hits := FindForbiddenHits(textItems);
    var passed := false;
    if resp.status == 200 {
      passed := |hits| == 0 && requestHash.JStr?;
    } else if resp.status == 400 {
      passed := HasInternalTermGateIssue(resp);
    }
    var blocked := HasInternalTermGateIssue(resp);
    out := Outcome(resp.status, requestHash, hits, blocked, passed);
    exitCode := if passed then 0 else 1;
  }

  /** A completed export passes exactly when its hash is a string and no
      visible text of its layout mentions an internal term as a word. */
  lemma CompletedVerdict(resp: Response, layouts: map<string, Json>)
    requires CaseReadable(resp, layouts)
    requires resp.status == 200
    ensures var texts := ScannedTexts(resp, layouts);
      Verdict(200, RequestHash(resp), ForbiddenHits(texts), MentionsMarker(resp.body, GateMarker)) <==>
        && RequestHash(resp).JStr?
        && forall i, k | 0 <= i < |texts| && 0 <= k < |Terms| :: !Matches(texts[i].text, Terms[k])
  {
    ForbiddenHitsEmpty(ScannedTexts(resp, layouts));
  }
}
