/** The copy-density proof: per page, how much visible copy there is (collapsed
    characters and text blocks) and the smallest declared body font size;
    pages are checked against a case's thresholds, one failure at most each. */
module CopyDensity {
  import opened PyJson
  import opened Transport

  // ------------------------------------------------------------ elements

  /** `" ".join(str(element.get("text") or "").split()).strip()` */
  function CopyText(e: Json): string
    requires e.JObj?
  {
    Strip(Collapse(PyStr(Or(Get(e, "text"), JStr("")))))
  }

  /** A dict element of type "text", not debug-only, not a header, whose
      collapsed text is not empty. */
  predicate Counted(e: Json) {
    && e.JObj?
    && Get(e, "type") == JStr("text")
    && !Truthy(Get(e, "debugOnly"))
    && PyStr(Or(Get(e, "role"), JStr(""))) != "header"
    && CopyText(e) != ""
  }

  /** `str(element.get("id") or "").lower()` */
  function ElementId(e: Json): string
    requires e.JObj?
  {
    Lower(PyStr(Or(Get(e, "id"), JStr(""))))
  }

  /** The id marks body, callout, table or flow copy. */
  predicate BodyLike(e: Json)
    requires e.JObj?
  {
    var id := ElementId(e);
    Contains(id, "body") || Contains(id, "callout") || Contains(id, "table") || Contains(id, "flow")
  }

  /** A counted body-like element: its font size is tracked. */
  predicate FontTracked(e: Json) {
    Counted(e) && BodyLike(e)
  }

  /** `float(element.get("fontSizePt") or 0)` does not raise where it is evaluated. */
  predicate FontReadable(e: Json) {
    FontTracked(e) ==> Floatable(Get(e, "fontSizePt"))
  }

  function FontSize(e: Json): real
    requires FontTracked(e) && FontReadable(e)
  {
    FloatOr(Get(e, "fontSizePt"), 0.0)
  }

  function Min(a: real, b: real): real {
    if b < a then b else a
  }

  // ------------------------------------------- per-page accumulations

  /** Sum of the collapsed lengths of the counted elements. */
  function TextChars(es: seq<Json>): nat {
    if es == [] then 0
    else
      var e := es[|es| - 1];
      TextChars(es[..|es| - 1]) + (if Counted(e) then |CopyText(e)| else 0)
  }

  /** Number of counted elements. */
  function TextBlocks(es: seq<Json>): nat {
    if es == [] then 0
    else TextBlocks(es[..|es| - 1]) + (if Counted(es[|es| - 1]) then 1 else 0)
  }

  predicate AllFontReadable(es: seq<Json>) {
    forall i | 0 <= i < |es| :: FontReadable(es[i])
  }

  /** The tracked size of one element: its font size when it is counted and
      body-like, None otherwise. */
  function TrackedSize(e: Json): (t: Option<real>)
    requires FontReadable(e)
    ensures t.Some? <==> FontTracked(e)
  {
    if FontTracked(e) then Some(FontSize(e)) else None
  }

  function TrackedSizes(es: seq<Json>): (ts: seq<Option<real>>)
    requires AllFontReadable(es)
    ensures |ts| == |es|
  {
    seq(|es|, i requires 0 <= i < |es| && AllFontReadable(es) => TrackedSize(es[i]))
  }

  /** `value if m is None else min(m, value)`, for a present value. */
  function MinWith(m: Option<real>, t: Option<real>): Option<real> {
    if t.None? then m
    else if m.None? then t
    else Some(Min(m.value, t.value))
  }

  /** MinWith folded over the sizes. */
  function MinPresent(sizes: seq<Option<real>>): Option<real> {
    if sizes == [] then None
    else MinWith(MinPresent(sizes[..|sizes| - 1]), sizes[|sizes| - 1])
  }

  /** The smallest tracked font size, None when no element is tracked. */
  function BodyFontMin(es: seq<Json>): Option<real>
    requires AllFontReadable(es)
  {
    MinPresent(TrackedSizes(es))
  }

  /** The folded minimum is a lower bound of the present sizes and is one of
      them; it is absent exactly when no size is present. */
  lemma {:induction false} MinPresentIsMinimum(sizes: seq<Option<real>>)
    ensures MinPresent(sizes).None? <==> forall i | 0 <= i < |sizes| :: sizes[i].None?
    ensures MinPresent(sizes).Some? ==>
              && (forall i | 0 <= i < |sizes| && sizes[i].Some? :: MinPresent(sizes).value <= sizes[i].value)
              && (exists i | 0 <= i < |sizes| :: sizes[i] == MinPresent(sizes))
  {
    if sizes != [] {
      var init := sizes[..|sizes| - 1];
      var t := sizes[|sizes| - 1];
      assert forall i | 0 <= i < |init| :: init[i] == sizes[i];
      MinPresentIsMinimum(init);
      var m := MinPresent(init);
      if t.Some? && m.Some? {
        var k :| 0 <= k < |init| && init[k] == m;
        if t.value < m.value {
          assert sizes[|sizes| - 1] == MinPresent(sizes);
        } else {
          assert sizes[k] == MinPresent(sizes);
        }
      } else if t.Some? {
        assert sizes[|sizes| - 1] == MinPresent(sizes);
      } else if m.Some? {
        var k :| 0 <= k < |init| && init[k] == m;
        assert sizes[k] == MinPresent(sizes);
      }
    }
  }

  /** TrackedSizes lines up with the elements. */
  lemma TrackedSizesAt(es: seq<Json>, i: int)
    requires AllFontReadable(es) && 0 <= i < |es|
    ensures TrackedSizes(es)[i].Some? <==> FontTracked(es[i])
    ensures FontTracked(es[i]) ==> TrackedSizes(es)[i].value == FontSize(es[i])
  {
  }

  /** The page's body font minimum is absent exactly when no element is
      counted and body-like. */
  lemma BodyFontMinAbsent(es: seq<Json>)
    requires AllFontReadable(es)
    ensures BodyFontMin(es).None? <==> forall i | 0 <= i < |es| :: !FontTracked(es[i])
  {
    var ts := TrackedSizes(es);
    MinPresentIsMinimum(ts);
    if BodyFontMin(es).Some? {
      var k :| 0 <= k < |ts| && ts[k] == MinPresent(ts);
      TrackedSizesAt(es, k);
    } else {
      forall i | 0 <= i < |es| ensures !FontTracked(es[i]) {
        TrackedSizesAt(es, i);
      }
    }
  }

  /** The page's body font minimum is at most the size of one counted
      body-like element. */
  lemma BodyFontMinBelow(es: seq<Json>, i: int)
    requires AllFontReadable(es) && BodyFontMin(es).Some?
    requires 0 <= i < |es| && FontTracked(es[i])
    ensures BodyFontMin(es).value <= FontSize(es[i])
  {
    var ts := TrackedSizes(es);
    MinPresentIsMinimum(ts);
    TrackedSizesAt(es, i);
    assert ts[i].Some?;
  }

  /** The page's body font minimum is at most the size of every counted
      body-like element and equals the size of one of them. */
  lemma BodyFontMinIsMinimum(es: seq<Json>)
    requires AllFontReadable(es) && BodyFontMin(es).Some?
    ensures forall i | 0 <= i < |es| && FontTracked(es[i]) :: BodyFontMin(es).value <= FontSize(es[i])
    ensures exists i | 0 <= i < |es| :: FontTracked(es[i]) && FontSize(es[i]) == BodyFontMin(es).value
  {
    forall i | 0 <= i < |es| && FontTracked(es[i])
      ensures BodyFontMin(es).value <= FontSize(es[i])
    {
      BodyFontMinBelow(es, i);
    }
    var ts := TrackedSizes(es);
    MinPresentIsMinimum(ts);
    var k :| 0 <= k < |ts| && ts[k] == MinPresent(ts);
    TrackedSizesAt(es, k);
  }

  /** Every counted block has at least one character. */
  lemma {:induction false} CharsCoverBlocks(es: seq<Json>)
    ensures TextChars(es) >= TextBlocks(es)
  {
    if es != [] {
      var e := es[|es| - 1];
      CharsCoverBlocks(es[..|es| - 1]);
      if Counted(e) {
        assert |CopyText(e)| >= 1;
      }
    }
  }

  // ----------------------------------------------------------- one page

  datatype Density = Density(
    pageNumber: Json,
    template: Json,
    textChars: nat,
    textBlocks: nat,
    bodyFontMinPt: real)

  /** A dict page the density loop can read without raising. */
  predicate PageReadable(page: Json) {
    page.JObj? ==> ElementsIterable(page) && AllFontReadable(Elements(page))
  }

  /** `body_font_min_pt or 0`: a page without tracked elements reports 0. */
  function FontMinOrZero(m: Option<real>): real {
    if m.Some? then m.value else 0.0
  }

  function DensityOf(page: Json): Density
    requires page.JObj? && PageReadable(page)
  {
    var es := Elements(page);
    Density(Get(page, "pageNumber"), Get(page, "templateId"),
            TextChars(es), TextBlocks(es), FontMinOrZero(BodyFontMin(es)))
  }

  /** One more element adds its counted text. */
  lemma CountStep(es: seq<Json>, i: nat)
    requires i < |es|
    ensures TextChars(es[..i + 1]) == TextChars(es[..i]) + (if Counted(es[i]) then |CopyText(es[i])| else 0)
    ensures TextBlocks(es[..i + 1]) == TextBlocks(es[..i]) + (if Counted(es[i]) then 1 else 0)
  {
    assert es[..i + 1][..i] == es[..i];
  }

  /** One more element folds its tracked size into the minimum. */
  lemma FontStep(es: seq<Json>, i: nat)
    requires AllFontReadable(es) && i < |es|
    ensures AllFontReadable(es[..i]) && AllFontReadable(es[..i + 1])
    ensures BodyFontMin(es[..i + 1]) == MinWith(BodyFontMin(es[..i]), TrackedSize(es[i]))
  {
    var pre, next := es[..i], es[..i + 1];
    assert AllFontReadable(pre) && AllFontReadable(next) by {
      assert forall j | 0 <= j <= i :: next[j] == es[j];
      assert forall j | 0 <= j < i :: pre[j] == es[j];
    }
    var tp, tn := TrackedSizes(pre), TrackedSizes(next);
    assert tn[..i] == tp by {
      forall j | 0 <= j < i ensures tn[..i][j] == tp[j] {
        assert next[j] == es[j] == pre[j];
      }
    }
    assert tn[i] == TrackedSize(es[i]) by {
      assert next[i] == es[i];
    }
  }

  /** The body of the element loop, with its `continue`s as early returns. */
  method VisitElement(e: Json, textChars: nat, textBlocks: nat, bodyFontMin: Option<real>)
    returns (textChars': nat, textBlocks': nat, bodyFontMin': Option<real>)
    requires FontReadable(e)
    ensures textChars' == textChars + (if Counted(e) then |CopyText(e)| else 0)
    ensures textBlocks' == textBlocks + (if Counted(e) then 1 else 0)
    ensures bodyFontMin' == MinWith(bodyFontMin, TrackedSize(e))
  {
    textChars', textBlocks', bodyFontMin' := textChars, textBlocks, bodyFontMin;
    if !e.JObj? || Get(e, "type") != JStr("text") || Truthy(Get(e, "debugOnly")) {
      return;
    }
    var role := PyStr(Or(Get(e, "role"), JStr("")));
    if role == "header" {
      return;
    }
    var text := CopyText(e);
    if text == "" {
      return;
    }
    textChars' := textChars' + |text|;
    textBlocks' := textBlocks' + 1;
    if BodyLike(e) {
      var fontSize := FontSize(e);
      if bodyFontMin'.None? {
        bodyFontMin' := Some(fontSize);
      } else {
        bodyFontMin' := Some(Min(bodyFontMin'.value, fontSize));
      }
    }
  }

  /** Visiting element i carries the two counts from the first i elements
      to the first i + 1. */
  lemma CountVisitStep(es: seq<Json>, i: nat, c: nat, b: nat, c': nat, b': nat)
    requires i < |es| && c == TextChars(es[..i]) && b == TextBlocks(es[..i])
    requires c' == c + (if Counted(es[i]) then |CopyText(es[i])| else 0)
    requires b' == b + (if Counted(es[i]) then 1 else 0)
    ensures c' == TextChars(es[..i + 1]) && b' == TextBlocks(es[..i + 1])
  {
    CountStep(es, i);
  }

  /** Visiting element i carries the font minimum from the first i elements
      to the first i + 1. */
  lemma FontVisitStep(es: seq<Json>, i: nat, m: Option<real>, m': Option<real>)
    requires AllFontReadable(es) && i < |es| && AllFontReadable(es[..i]) && m == BodyFontMin(es[..i])
    requires m' == MinWith(m, TrackedSize(es[i]))
    ensures AllFontReadable(es[..i + 1]) && m' == BodyFontMin(es[..i + 1])
  {
    FontStep(es, i);
  }

  /** The element loop of `collect_page_density`. */
  method VisitElements(es: seq<Json>) returns (textChars: nat, textBlocks: nat, bodyFontMin: Option<real>)
    requires AllFontReadable(es)
    ensures textChars == TextChars(es) && textBlocks == TextBlocks(es)
    ensures bodyFontMin == BodyFontMin(es)
  {
    textChars, textBlocks := 0, 0;
    bodyFontMin := None;
    var i := 0;
    while i < |es|
      invariant 0 <= i <= |es| && AllFontReadable(es[..i])
      invariant textChars == TextChars(es[..i])
      invariant textBlocks == TextBlocks(es[..i])
      invariant bodyFontMin == BodyFontMin(es[..i])
    {
      var c, b, m := VisitElement(es[i], textChars, textBlocks, bodyFontMin);
      CountVisitStep(es, i, textChars, textBlocks, c, b);
      FontVisitStep(es, i, bodyFontMin, m);
      textChars, textBlocks, bodyFontMin := c, b, m;
      i := i + 1;
    }
    assert es[..i] == es;
  }

  /** `collect_page_density`: one pass over the elements with three
      accumulators; a page never has more blocks than characters. */
  method CollectPageDensity(page: Json) returns (d: Density)
    requires page.JObj? && PageReadable(page)
    ensures d == DensityOf(page)
    ensures d.textChars >= d.textBlocks
  {
    var es := Elements(page);
    var textChars, textBlocks, bodyFontMin := VisitElements(es);
    d := Density(Get(page, "pageNumber"), Get(page, "templateId"),
                 textChars, textBlocks, FontMinOrZero(bodyFontMin));
    CharsCoverBlocks(es);
  }

  // --------------------------------------------------------- thresholds

  datatype Threshold = Threshold(minChars: int, minBlocks: int, minBodyFontPt: real)

  /** The reason recorded with a failure, carrying the threshold it names. */
  datatype Reason = CharsBelow(minChars: int) | BlocksBelow(minBlocks: int) | FontBelow(minBodyFontPt: real)

  datatype Failure = Failure(density: Density, reason: Reason)

  predicate Meets(d: Density, th: Threshold) {
    d.textChars >= th.minChars && d.textBlocks >= th.minBlocks && d.bodyFontMinPt >= th.minBodyFontPt
  }

  /** The failure a page adds: characters are checked first, then blocks,
      then the body font; a page meeting all three adds none. */
  function PageFailure(d: Density, th: Threshold): (f: Option<Failure>)
    ensures f.None? <==> Meets(d, th)
    ensures f.Some? ==> f.value.density == d
    ensures f.Some? && f.value.reason == CharsBelow(th.minChars) <==> d.textChars < th.minChars
    ensures f.Some? && f.value.reason == BlocksBelow(th.minBlocks) <==>
              d.textChars >= th.minChars && d.textBlocks < th.minBlocks
    ensures f.Some? && f.value.reason == FontBelow(th.minBodyFontPt) <==>
              d.textChars >= th.minChars && d.textBlocks >= th.minBlocks && d.bodyFontMinPt < th.minBodyFontPt
  {
    if d.textChars < th.minChars then Some(Failure(d, CharsBelow(th.minChars)))
    else if d.textBlocks < th.minBlocks then Some(Failure(d, BlocksBelow(th.minBlocks)))
    else if d.bodyFontMinPt < th.minBodyFontPt then Some(Failure(d, FontBelow(th.minBodyFontPt)))
    else None
  }

  function Failures(ds: seq<Density>, th: Threshold): seq<Failure> {
    if ds == [] then []
    else
      var f := PageFailure(ds[|ds| - 1], th);
      Failures(ds[..|ds| - 1], th) + (if f.Some? then [f.value] else [])
  }

  /** At most one failure per page, none exactly when every page meets the
      thresholds, and each failure reports one of the pages. */
  lemma {:induction false} FailuresPerPage(ds: seq<Density>, th: Threshold)
    ensures |Failures(ds, th)| <= |ds|
    ensures Failures(ds, th) == [] <==> forall i | 0 <= i < |ds| :: Meets(ds[i], th)
    ensures forall f | f in Failures(ds, th) :: f.density in ds
  {
    if ds != [] {
      var init := ds[..|ds| - 1];
      FailuresPerPage(init, th);
      assert forall i | 0 <= i < |init| :: init[i] == ds[i];
      assert ds == init + [ds[|ds| - 1]];
    }
  }

  /** The threshold loop: every density is checked and the first failing
      check, if any, is recorded. */
  method CheckThresholds(densities: seq<Density>, th: Threshold) returns (failures: seq<Failure>)
    ensures failures == Failures(densities, th)
    ensures |failures| <= |densities|
    ensures failures == [] <==> forall i | 0 <= i < |densities| :: Meets(densities[i], th)
  {
    failures := [];
    var i := 0;
    while i < |densities|
      invariant 0 <= i <= |densities|
      invariant failures == Failures(densities[..i], th)
    {
      var d := densities[i];
      assert densities[..i + 1][..i] == densities[..i];
      if d.textChars < th.minChars {
        failures := failures + [Failure(d, CharsBelow(th.minChars))];
      } else if d.textBlocks < th.minBlocks {
        failures := failures + [Failure(d, BlocksBelow(th.minBlocks))];
      } else if d.bodyFontMinPt < th.minBodyFontPt {
        failures := failures + [Failure(d, FontBelow(th.minBodyFontPt))];
      }
      i := i + 1;
    }
    assert densities[..i] == densities;
    FailuresPerPage(densities, th);
  }

  // ------------------------------------------------------- issue lists

  /** `str(issue.get("message") or "")`: a null message reads as "". */
  function MessageOrEmpty(issue: Json): string
    requires issue.JObj?
  {
    PyStr(Or(Get(issue, "message"), JStr("")))
  }

  /** `str(issue.get("code") or "")` */
  function CodeOrEmpty(issue: Json): string
    requires issue.JObj?
  {
    PyStr(Or(Get(issue, "code"), JStr("")))
  }

  /** The non-empty messages of the dict issues, in order. */
  function IssueMessages(issues: seq<Json>): seq<string> {
    if issues == [] then []
    else
      var issue := issues[|issues| - 1];
      IssueMessages(issues[..|issues| - 1])
        + (if issue.JObj? && MessageOrEmpty(issue) != "" then [MessageOrEmpty(issue)] else [])
  }

  /** The non-empty codes of the dict issues, in order. */
  function IssueCodes(issues: seq<Json>): seq<string> {
    if issues == [] then []
    else
      var issue := issues[|issues| - 1];
      IssueCodes(issues[..|issues| - 1])
        + (if issue.JObj? && CodeOrEmpty(issue) != "" then [CodeOrEmpty(issue)] else [])
  }

  /** A page-error entry the code loop descends into: a dict whose `issues` is a list. */
  predicate ListsIssues(entry: Json) {
    entry.JObj? && Get(entry, "issues").JArr?
  }

  /** The `issues` list of a page-error entry, when the entry is a dict holding one. */
  function EntryIssues(entry: Json): seq<Json> {
    if ListsIssues(entry) then Get(entry, "issues").items else []
  }

  /** The codes one page-error entry contributes. */
  function EntryCodes(entry: Json): seq<string> {
    IssueCodes(EntryIssues(entry))
  }

  /** The codes of every page-error entry, entry by entry. */
  function PageErrorCodes(entries: seq<Json>): seq<string> {
    Gather(entries, ListsIssues, EntryCodes)
  }

  /** A message is listed exactly when some dict issue carries it and it is not empty. */
  lemma {:induction false} IssueMessagesExact(issues: seq<Json>, m: string)
    ensures m in IssueMessages(issues) <==>
              m != "" && exists i | 0 <= i < |issues| :: issues[i].JObj? && MessageOrEmpty(issues[i]) == m
  {
    if issues != [] {
      var init := issues[..|issues| - 1];
      IssueMessagesExact(init, m);
      assert forall i | 0 <= i < |init| :: init[i] == issues[i];
    }
  }

  /** A code is listed exactly when some dict issue carries it and it is not empty. */
  lemma {:induction false} IssueCodesExact(issues: seq<Json>, c: string)
    ensures c in IssueCodes(issues) <==>
              c != "" && exists i | 0 <= i < |issues| :: issues[i].JObj? && CodeOrEmpty(issues[i]) == c
  {
    if issues != [] {
      var init := issues[..|issues| - 1];
      IssueCodesExact(init, c);
      assert forall i | 0 <= i < |init| :: init[i] == issues[i];
    }
  }

  /** A dict issue inside the entry's `issues` list carries the code; never
      for an entry that is not a dict or has no such list. */
  predicate EntryCarries(entry: Json, c: string) {
    exists j | 0 <= j < |EntryIssues(entry)| :: EntryIssues(entry)[j].JObj? && CodeOrEmpty(EntryIssues(entry)[j]) == c
  }

  /** A page-error code is listed exactly when it is not empty and a dict
      issue inside some dict entry's `issues` list carries it. */
  lemma PageErrorCodesExact(entries: seq<Json>, c: string)
    ensures c in PageErrorCodes(entries) <==>
              c != "" && exists i | 0 <= i < |entries| :: EntryCarries(entries[i], c)
  {
    GatherMember(entries, ListsIssues, EntryCodes, c);
    forall i | 0 <= i < |entries|
      ensures ListsIssues(entries[i]) && c in EntryCodes(entries[i]) <==> c != "" && EntryCarries(entries[i], c)
    {
      IssueCodesExact(EntryIssues(entries[i]), c);
    }
  }

  /** The message loop over `exportAuditIssues`. */
  method CollectIssueMessages(issues: seq<Json>) returns (messages: seq<string>)
    ensures messages == IssueMessages(issues)
    ensures |messages| <= |issues|
    ensures forall k | 0 <= k < |messages| :: messages[k] != ""
  {
    messages := [];
    var i := 0;
    while i < |issues|
      invariant 0 <= i <= |issues|
      invariant messages == IssueMessages(issues[..i])
      invariant |messages| <= i
      invariant forall k | 0 <= k < |messages| :: messages[k] != ""
    {
      var issue := issues[i];
      assert issues[..i + 1][..i] == issues[..i];
      if issue.JObj? {
        var message := MessageOrEmpty(issue);
        if message != "" {
          messages := messages + [message];
        }
      }
      i := i + 1;
    }
    assert issues[..i] == issues;
  }

  /** The inner loop over one entry's `issues`, appending to the codes so far. */
  method AppendIssueCodes(codes: seq<string>, issues: seq<Json>) returns (result: seq<string>)
    requires forall k | 0 <= k < |codes| :: codes[k] != ""
    ensures result == codes + IssueCodes(issues)
    ensures forall k | 0 <= k < |result| :: result[k] != ""
  {
    result := codes;
    var j := 0;
    while j < |issues|
      invariant 0 <= j <= |issues|
      invariant result == codes + IssueCodes(issues[..j])
      invariant forall k | 0 <= k < |result| :: result[k] != ""
    {
      var issue := issues[j];
      assert issues[..j + 1][..j] == issues[..j];
      assert IssueCodes(issues[..j + 1]) == IssueCodes(issues[..j])
        + (if issue.JObj? && CodeOrEmpty(issue) != "" then [CodeOrEmpty(issue)] else []);
      if issue.JObj? {
        var code := CodeOrEmpty(issue);
        if code != "" {
          result := result + [code];
        }
      }
      j := j + 1;
    }
    assert issues[..j] == issues;
  }

  /** The nested loop over `pageErrors` and their `issues`. */
  method CollectPageErrorCodes(entries: seq<Json>) returns (codes: seq<string>)
    ensures codes == PageErrorCodes(entries)
    ensures forall k | 0 <= k < |codes| :: codes[k] != ""
  {
    codes := [];
    var i := 0;
    while i < |entries|
      invariant 0 <= i <= |entries|
      invariant codes == PageErrorCodes(entries[..i])
      invariant forall k | 0 <= k < |codes| :: codes[k] != ""
    {
      var entry := entries[i];
      GatherStep(entries, ListsIssues, EntryCodes, i);
      if entry.JObj? {
        var issues := Get(entry, "issues");
        if issues.JArr? {
          codes := AppendIssueCodes(codes, issues.items);
        }
      }
      i := i + 1;
    }
    assert entries[..i] == entries;
  }

  // ------------------------------------------------------------ a case

  /** `layout.get("pages")` can be looped over and each dict page read. */
  predicate LayoutReadable(layout: Json) {
    layout.JObj? ==>
      && Iterable(Get(layout, "pages"))
      && forall k | 0 <= k < |Items(Get(layout, "pages"))| :: PageReadable(Items(Get(layout, "pages"))[k])
  }

  /** `load_layout(hash)`: the parsed `layout.json` of that job, None when the
      file is missing or does not parse (absent from the store). */
  function LoadLayout(layouts: map<string, Json>, h: string): Json {
    if h in layouts then layouts[h] else JNull
  }

  /** Only the layout of the case's own request hash is loaded, so only that
      one has to be readable; other jobs' layouts may hold anything. */
  predicate CaseLayoutReadable(resp: Response, layouts: map<string, Json>) {
    RequestHash(resp).JStr? ==> LayoutReadable(LoadLayout(layouts, RequestHash(resp).s))
  }

  /** The pages a case measures: none unless the request hash is a string
      and its layout is a dict. */
  function CasePages(resp: Response, layouts: map<string, Json>): seq<Json>
    requires CaseLayoutReadable(resp, layouts)
  {
    var h := RequestHash(resp);
    if h.JStr? && h.s in layouts && layouts[h.s].JObj? then
      assert LayoutReadable(LoadLayout(layouts, h.s));
      Items(Get(layouts[h.s], "pages"))
    else []
  }

  /** Another job's layout, whatever it holds (a null `pages` included),
      neither makes a case unreadable nor changes the pages it measures. */
  lemma OtherLayoutsIgnored(resp: Response, layouts: map<string, Json>, other: string, layout: Json)
    requires CaseLayoutReadable(resp, layouts)
    requires RequestHash(resp).JStr? ==> other != RequestHash(resp).s
    ensures CaseLayoutReadable(resp, layouts[other := layout])
    ensures CasePages(resp, layouts[other := layout]) == CasePages(resp, layouts)
  {
  }

  predicate PagesReadable(pages: seq<Json>) {
    forall k | 0 <= k < |pages| :: PageReadable(pages[k])
  }

  /** `[collect_page_density(page) for page in pages if isinstance(page, dict)]` */
  function DensitiesOf(pages: seq<Json>): seq<Density>
    requires PagesReadable(pages)
  {
    if pages == [] then []
    else
      var p := pages[|pages| - 1];
      DensitiesOf(pages[..|pages| - 1]) + (if p.JObj? then [DensityOf(p)] else [])
  }

  datatype CaseResult = CaseResult(
    status: int,
    requestHash: Json,
    densities: seq<Density>,
    failures: seq<Failure>,
    exportIssueCount: nat,
    exportIssueMessages: seq<string>,
    pageErrorCount: nat,
    pageErrorCodes: seq<string>,
    passed: bool)

  /** `body["pageErrors"]` when the body is a dict holding a list. */
  function PageErrorList(body: Json): seq<Json> {
    if body.JObj? && Get(body, "pageErrors").JArr? then Get(body, "pageErrors").items else []
  }

  /** `run_case` after the export call: hash, densities, failures, issue
      extraction and the verdict. */
  method RunCase(resp: Response, layouts: map<string, Json>, th: Threshold) returns (r: CaseResult)
    requires CaseLayoutReadable(resp, layouts)
    ensures r.status == resp.status
    ensures r.requestHash == RequestHash(resp)
    ensures r.densities == DensitiesOf(CasePages(resp, layouts))
    ensures !r.requestHash.JStr? ==> r.densities == []
    ensures r.failures == Failures(r.densities, th)
    ensures r.exportIssueCount == |IssueList(resp.body)|
    ensures r.exportIssueMessages == IssueMessages(IssueList(resp.body))
    ensures r.pageErrorCount == |PageErrorList(resp.body)|
    ensures r.pageErrorCodes == PageErrorCodes(PageErrorList(resp.body))
    ensures r.passed <==> resp.status == 200 && |r.densities| > 0 && r.failures == []
    ensures r.passed ==> forall i | 0 <= i < |r.densities| :: Meets(r.densities[i], th)
    ensures Reports(r, resp, layouts, th)
  {
    var requestHash := RequestHash(resp);
    var layout := if requestHash.JStr? then LoadLayout(layouts, requestHash.s) else JNull;
    var pages := if layout.JObj? then Items(Get(layout, "pages")) else [];
    assert pages == CasePages(resp, layouts);
    assert PagesReadable(pages);

    var densities: seq<Density> := [];
    var i := 0;
    while i < |pages|
      invariant 0 <= i <= |pages|
      invariant densities == DensitiesOf(pages[..i])
    {
      var page := pages[i];
      assert pages[..i + 1][..i] == pages[..i];
      if page.JObj? {
        var d := CollectPageDensity(page);
        densities := densities + [d];
      }
      i := i + 1;
    }
    assert pages[..i] == pages;

    var failures := CheckThresholds(densities, th);
    var exportIssues := IssueList(resp.body);
    var messages := CollectIssueMessages(exportIssues);
    var pageErrors := PageErrorList(resp.body);
    var codes := CollectPageErrorCodes(pageErrors);
    var passed := resp.status == 200 && |densities| > 0 && |failures| == 0;
    r := CaseResult(resp.status, requestHash, densities, failures, |exportIssues|, messages,
                    |pageErrors|, codes, passed);
  }

  // --------------------------------------------------------------- main

  /** The two fixed cases and their thresholds (characters, blocks, body pt). */
  const Cases: seq<(string, Threshold)> := [
    ("poster_set_3p", Threshold(220, 4, 16.0)),
    ("onepager_1p", Threshold(180, 4, 12.0))
  ]

  /** A case result measures the pages of its response's layout, records the
      failures against its thresholds, and passes exactly when the export
      succeeded, some page was measured and none failed. */
  predicate Reports(r: CaseResult, resp: Response, layouts: map<string, Json>, th: Threshold)
    requires CaseLayoutReadable(resp, layouts)
  {
    && r.densities == DensitiesOf(CasePages(resp, layouts))
    && r.failures == Failures(r.densities, th)
    && (r.passed <==> resp.status == 200 && |r.densities| > 0 && r.failures == [])
  }

  /** `main`: every case is run, the script passes iff every case passes, and
      exits with status 1 otherwise. */
  method RunProof(responses: seq<Response>, layouts: map<string, Json>)
    returns (results: seq<CaseResult>, passed: bool, exitCode: int)
    requires |responses| == |Cases|
    requires forall k | 0 <= k < |responses| :: CaseLayoutReadable(responses[k], layouts)
    ensures |results| == |Cases|
    ensures forall k | 0 <= k < |results| :: Reports(results[k], responses[k], layouts, Cases[k].1)
    ensures passed <==> forall k | 0 <= k < |results| :: results[k].passed
    ensures exitCode == (if passed then 0 else 1)
  {
    results := [];
    var k := 0;
    while k < |Cases|
      invariant 0 <= k <= |Cases|
      invariant |results| == k
      invariant forall j | 0 <= j < k :: Reports(results[j], responses[j], layouts, Cases[j].1)
    {
      var th := Cases[k].1;
      var r := RunCase(responses[k], layouts, th);
      results := results + [r];
      k := k + 1;
    }
    passed := forall j | 0 <= j < |results| :: results[j].passed;
    exitCode := if passed then 0 else 1;
  }
}
