/** The layout-density proof: per page, the collapsed text length, the number
    of distinct content groups and the share of the page their largest
    members cover; each page is checked against the threshold of its class,
    and the latest job directory is the one whose layout changed last. */
module LayoutDensity {
  import opened PyJson

  function Max(a: real, b: real): real {
    if b > a then b else a
  }

  // ------------------------------------------------------ one element

  /** `str(element.get("role") or "")` */
  function RoleOf(e: Json): string
    requires e.JObj?
  {
    PyStr(Or(Get(e, "role"), JStr("")))
  }

  /** Roles whose elements are ignored entirely. */
  const IgnoredRoles: set<string> := {"background", "header", "footer", "decorative"}

  /** Debug-only (exactly `True`) or of an ignored role. */
  predicate Excluded(e: Json)
    requires e.JObj?
  {
    Get(e, "debugOnly") == JBool(true) || RoleOf(e) in IgnoredRoles
  }

  /** A dict element that contributes text and area. */
  predicate Included(e: Json) {
    e.JObj? && !Excluded(e)
  }

  predicate IsLine(e: Json)
    requires e.JObj?
  {
    Get(e, "type") == JStr("line")
  }

  /** The size fields `float(... or 0)` reads are numbers, booleans or falsy. */
  predicate SizeReadable(e: Json)
    requires e.JObj?
  {
    !IsLine(e) ==> Floatable(Get(e, "wMm")) && Floatable(Get(e, "hMm"))
  }

  /** `element_area`: lines cover nothing; otherwise width times height with
      missing or falsy sizes read as 0, never below 0. */
  function ElementArea(e: Json): (a: real)
    requires e.JObj? && SizeReadable(e)
    ensures a >= 0.0
    ensures IsLine(e) ==> a == 0.0
    ensures !Truthy(Get(e, "wMm")) || !Truthy(Get(e, "hMm")) ==> a == 0.0
    ensures (&& !IsLine(e) && Get(e, "wMm").JNum? && Get(e, "hMm").JNum?
             && Get(e, "wMm").n > 0.0 && Get(e, "hMm").n > 0.0) ==> a == Get(e, "wMm").n * Get(e, "hMm").n
  {
    if IsLine(e) then 0.0
    else Max(0.0, FloatOr(Get(e, "wMm"), 0.0) * FloatOr(Get(e, "hMm"), 0.0))
  }

  /** `str(element.get("collisionGroup") or "").strip()` */
  function CollisionOf(e: Json): string
    requires e.JObj?
  {
    Strip(PyStr(Or(Get(e, "collisionGroup"), JStr(""))))
  }

  /** `str(element.get("id") or "").strip()` */
  function StrippedId(e: Json): string
    requires e.JObj?
  {
    Strip(PyStr(Or(Get(e, "id"), JStr(""))))
  }

  /** `f"{element.get('type', 'unknown')}-{index}"` */
  function FallbackKey(e: Json, index: nat): string
    requires e.JObj?
  {
    PyStr(GetOr(e, "type", JStr("unknown"))) + "-" + NatToString(index)
  }

  /** `density_group_key`: the collision group, else the id, else type and position. */
  function DensityGroupKey(e: Json, index: nat): (k: string)
    requires e.JObj?
    ensures k != ""
  {
    var collision := CollisionOf(e);
    if collision != "" then collision
    else
      var id := StrippedId(e);
      if id != "" then id else FallbackKey(e, index)
  }

  /** Elements sharing a non-empty collision group land in one group,
      whatever their ids and positions. */
  lemma SameCollisionSameGroup(e1: Json, i1: nat, e2: Json, i2: nat)
    requires e1.JObj? && e2.JObj?
    requires CollisionOf(e1) == CollisionOf(e2) != ""
    ensures DensityGroupKey(e1, i1) == DensityGroupKey(e2, i2)
  {
  }

  predicate AllDigits(d: string) {
    forall i | 0 <= i < |d| :: '0' <= d[i] <= '9'
  }

  /** In `t + "-" + d` with `d` all digits, the last dash is the one before
      `d`, so the digits after it are determined by the whole text. */
  lemma DigitsAfterLastDash(t1: string, d1: string, t2: string, d2: string)
    requires AllDigits(d1) && AllDigits(d2)
    requires t1 + "-" + d1 == t2 + "-" + d2
    ensures d1 == d2
  {
    var k := t1 + "-" + d1;
    var k2 := t2 + "-" + d2;
    assert k[|t1|] == '-' && k2[|t2|] == '-';
    assert d1 == k[|k| - |d1|..];
    assert d2 == k2[|k2| - |d2|..];
  }

  /** Two elements with neither collision group nor id fall into different
      groups when their positions differ, whatever their types. */
  lemma FallbackKeysDistinct(e1: Json, i1: nat, e2: Json, i2: nat)
    requires e1.JObj? && e2.JObj?
    requires CollisionOf(e1) == "" && StrippedId(e1) == ""
    requires CollisionOf(e2) == "" && StrippedId(e2) == ""
    requires i1 != i2
    ensures DensityGroupKey(e1, i1) != DensityGroupKey(e2, i2)
  {
    if DensityGroupKey(e1, i1) == DensityGroupKey(e2, i2) {
      DigitsAfterLastDash(PyStr(GetOr(e1, "type", JStr("unknown"))), NatToString(i1),
                          PyStr(GetOr(e2, "type", JStr("unknown"))), NatToString(i2));
      NatToStringInjective(i1, i2);
    }
  }

  // ----------------------------------------------------------- groups

  /** The `groups` dict: the largest area per key, with its keys in
      insertion order. */
  datatype Groups = Groups(maxima: map<string, real>, order: seq<string>)

  /** `groups[key] = max(groups.get(key, 0.0), area)` */
  function Insert(g: Groups, key: string, area: real): Groups {
    var prev := if key in g.maxima then g.maxima[key] else 0.0;
    Groups(g.maxima[key := Max(prev, area)], if key in g.maxima then g.order else g.order + [key])
  }

  /** The groups built from a sequence of contributions, in order; None
      contributes nothing. */
  function GroupAll(cs: seq<Option<(string, real)>>): Groups {
    if cs == [] then Groups(map[], [])
    else
      var g := GroupAll(cs[..|cs| - 1]);
      var c := cs[|cs| - 1];
      if c.Some? then Insert(g, c.value.0, c.value.1) else g
  }

  predicate Distinct(s: seq<string>) {
    forall i, j | 0 <= i < j < |s| :: s[i] != s[j]
  }

  /** The order lists each key once, and every maximum is positive. */
  predicate GroupsWellFormed(g: Groups) {
    && Distinct(g.order)
    && (forall k | k in g.maxima :: k in g.order)
    && (forall k | k in g.order :: k in g.maxima)
    && (forall k | k in g.maxima :: g.maxima[k] > 0.0)
  }

  predicate PositiveAreas(cs: seq<Option<(string, real)>>) {
    forall i | 0 <= i < |cs| && cs[i].Some? :: cs[i].value.1 > 0.0
  }

  lemma {:induction false} GroupAllWellFormed(cs: seq<Option<(string, real)>>)
    requires PositiveAreas(cs)
    ensures GroupsWellFormed(GroupAll(cs))
  {
    if cs != [] {
      var init := cs[..|cs| - 1];
      assert forall i | 0 <= i < |init| :: init[i] == cs[i];
      GroupAllWellFormed(init);
      var g := GroupAll(init);
      var c := cs[|cs| - 1];
      if c.Some? {
        var h := Insert(g, c.value.0, c.value.1);
        assert h == GroupAll(cs);
        if c.value.0 !in g.maxima {
          forall i, j | 0 <= i < j < |h.order| ensures h.order[i] != h.order[j] {
            if j == |g.order| {
              assert h.order[i] == g.order[i];
            } else {
              assert h.order[i] == g.order[i] && h.order[j] == g.order[j];
            }
          }
        }
      }
    }
  }

  /** A key has a group exactly when some contribution carries it; its
      maximum bounds every contribution with that key and equals one of them. */
  lemma {:induction false} GroupAllMaxima(cs: seq<Option<(string, real)>>, k: string)
    requires PositiveAreas(cs)
    ensures k in GroupAll(cs).maxima <==> exists i | 0 <= i < |cs| :: cs[i].Some? && cs[i].value.0 == k
    ensures k in GroupAll(cs).maxima ==>
              && (forall i | 0 <= i < |cs| && cs[i].Some? && cs[i].value.0 == k ::
                    cs[i].value.1 <= GroupAll(cs).maxima[k])
              && (exists i | 0 <= i < |cs| :: cs[i] == Some((k, GroupAll(cs).maxima[k])))
  {
    if cs != [] {
      var init := cs[..|cs| - 1];
      assert forall i | 0 <= i < |init| :: init[i] == cs[i];
      GroupAllMaxima(init, k);
      var g := GroupAll(init);
      var c := cs[|cs| - 1];
      var n := |cs| - 1;
      if c.Some? && c.value.0 == k {
        if k in g.maxima && c.value.1 <= g.maxima[k] {
          var i :| 0 <= i < |init| && init[i] == Some((k, g.maxima[k]));
          assert cs[i] == Some((k, GroupAll(cs).maxima[k]));
        } else {
          assert cs[n] == Some((k, GroupAll(cs).maxima[k]));
        }
      } else if k in g.maxima {
        var i :| 0 <= i < |init| && init[i] == Some((k, g.maxima[k]));
        assert cs[i] == Some((k, GroupAll(cs).maxima[k]));
      }
    }
  }

  /** A list of distinct keys is as long as the set of its keys. */
  lemma {:induction false} DistinctCard(s: seq<string>)
    requires Distinct(s)
    ensures |set k | k in s| == |s|
  {
    if s != [] {
      var init := s[..|s| - 1];
      DistinctCard(init);
      var last := s[|s| - 1];
      assert (set k | k in s) == (set k | k in init) + {last};
      assert forall i | 0 <= i < |init| :: init[i] == s[i] && s[i] != last;
      assert last !in init;
    }
  }

  /** The number of groups is the number of keys in the insertion order. */
  lemma GroupCount(g: Groups)
    requires GroupsWellFormed(g)
    ensures |g.maxima| == |g.order|
  {
    DistinctCard(g.order);
    assert g.maxima.Keys == set k | k in g.order;
  }

  /** `sum(groups.values())`, summed in insertion order. */
  function SumValues(order: seq<string>, maxima: map<string, real>): real
    requires forall k | k in order :: k in maxima
  {
    if order == [] then 0.0
    else SumValues(order[..|order| - 1], maxima) + maxima[order[|order| - 1]]
  }

  /** With positive maxima the sum is positive exactly when there is a group. */
  lemma {:induction false} SumValuesPositive(order: seq<string>, maxima: map<string, real>)
    requires forall k | k in order :: k in maxima && maxima[k] > 0.0
    ensures SumValues(order, maxima) >= 0.0
    ensures SumValues(order, maxima) > 0.0 <==> order != []
  {
    if order != [] {
      var init := order[..|order| - 1];
      assert forall k | k in init :: k in order;
      SumValuesPositive(init, maxima);
    }
  }

  // --------------------------------------------------------- one page

  /** Each element the density loop visits can be read without raising. */
  predicate ElementReadable(e: Json) {
    Included(e) ==> SizeReadable(e)
  }

  /** The element's contribution to the groups: its key and area when it is
      included and covers a positive area. */
  function Contribution(e: Json, index: nat): (c: Option<(string, real)>)
    requires ElementReadable(e)
    ensures c.Some? ==> c.value.1 > 0.0
  {
    if Included(e) && ElementArea(e) > 0.0 then Some((DensityGroupKey(e, index), ElementArea(e))) else None
  }

  predicate AllReadable(es: seq<Json>) {
    forall i | 0 <= i < |es| :: ElementReadable(es[i])
  }

  function Contributions(es: seq<Json>): (cs: seq<Option<(string, real)>>)
    requires AllReadable(es)
    ensures |cs| == |es|
    ensures PositiveAreas(cs)
  {
    seq(|es|, i requires 0 <= i < |es| && AllReadable(es) => Contribution(es[i], i))
  }

  /** `len(" ".join(text.split()))` of an included text element, else 0. */
  function TextLength(e: Json): nat {
    if Included(e) && Get(e, "type") == JStr("text") then |Collapse(PyStr(Or(Get(e, "text"), JStr(""))))| else 0
  }

  /** The collapsed length of every included text element, whatever its area. */
  function TextTotal(es: seq<Json>): nat {
    if es == [] then 0 else TextTotal(es[..|es| - 1]) + TextLength(es[|es| - 1])
  }

  /** The page is a dict whose elements can be looped over and read, and
      whose sizes `float(... or 1)` accepts. */
  predicate PageReadable(page: Json) {
    && page.JObj?
    && ElementsIterable(page)
    && AllReadable(Elements(page))
    && Floatable(Get(page, "widthMm"))
    && Floatable(Get(page, "heightMm"))
  }

  /** `max(1, width) * max(1, height)`: never below 1. */
  function PageArea(page: Json): (a: real)
    requires PageReadable(page)
    ensures a >= 1.0
  {
    Max(1.0, FloatOr(Get(page, "widthMm"), 1.0)) * Max(1.0, FloatOr(Get(page, "heightMm"), 1.0))
  }

  datatype Density = Density(
    pageNumber: Json,
    role: string,
    template: string,
    textChars: nat,
    coverage: real,
    contentGroups: nat)

  function PageGroups(page: Json): Groups
    requires PageReadable(page)
  {
    GroupAll(Contributions(Elements(page)))
  }

  function DensityOf(page: Json): Density
    requires PageReadable(page)
  {
    var g := PageGroups(page);
    GroupAllWellFormed(Contributions(Elements(page)));
    Density(Get(page, "pageNumber"),
            PyStr(Or(Get(page, "pageRole"), JStr(""))),
            PyStr(Or(Get(page, "templateId"), JStr(""))),
            TextTotal(Elements(page)),
            SumValues(g.order, g.maxima) / PageArea(page),
            |g.maxima|)
  }

  /** Coverage is never negative, and it is positive exactly when the page
      has a content group; the group count is the number of distinct keys. */
  lemma DensityCoverage(page: Json)
    requires PageReadable(page)
    ensures DensityOf(page).coverage >= 0.0
    ensures DensityOf(page).coverage > 0.0 <==> DensityOf(page).contentGroups > 0
    ensures DensityOf(page).contentGroups == |PageGroups(page).order|
  {
    var g := PageGroups(page);
    GroupAllWellFormed(Contributions(Elements(page)));
    GroupCount(g);
    SumValuesPositive(g.order, g.maxima);
  }

  /** One more element extends the text total by its length and inserts its
      contribution, if any, into the groups. */
  lemma ScanStep(es: seq<Json>, idx: nat)
    requires AllReadable(es) && idx < |es|
    ensures TextTotal(es[..idx + 1]) == TextTotal(es[..idx]) + TextLength(es[idx])
    ensures GroupAll(Contributions(es)[..idx + 1])
         == if Included(es[idx]) && ElementArea(es[idx]) > 0.0
            then Insert(GroupAll(Contributions(es)[..idx]), DensityGroupKey(es[idx], idx), ElementArea(es[idx]))
            else GroupAll(Contributions(es)[..idx])
  {
    var cs := Contributions(es);
    assert es[..idx + 1][..idx] == es[..idx];
    assert cs[..idx + 1][..idx] == cs[..idx];
    assert cs[idx] == Contribution(es[idx], idx);
  }

  /** The body of the element loop: skip excluded elements, count the text
      of text elements, and fold a positive area into its group. */
  method VisitElement(e: Json, idx: nat, textChars: nat, groups: map<string, real>, order: seq<string>)
    returns (textChars': nat, groups': map<string, real>, order': seq<string>)
    requires ElementReadable(e)
    ensures textChars' == textChars + TextLength(e)
    ensures Groups(groups', order')
         == if Included(e) && ElementArea(e) > 0.0
            then Insert(Groups(groups, order), DensityGroupKey(e, idx), ElementArea(e))
            else Groups(groups, order)
  {
    textChars', groups', order' := textChars, groups, order;
    if !e.JObj? || Get(e, "debugOnly") == JBool(true) {
      return;
    }
    var role := PyStr(Or(Get(e, "role"), JStr("")));
    if role in IgnoredRoles {
      return;
    }
    if Get(e, "type") == JStr("text") {
      var text := PyStr(Or(Get(e, "text"), JStr("")));
      textChars' := textChars' + |Collapse(text)|;
    }
    var area := ElementArea(e);
    if area <= 0.0 {
      return;
    }
    var key := DensityGroupKey(e, idx);
    var prev := if key in groups' then groups'[key] else 0.0;
    if key !in groups' {
      order' := order' + [key];
    }
    groups' := groups'[key := Max(prev, area)];
  }

  /** `page_density`: one pass over the elements filling the groups dict and
      the text counter, then the coverage ratio. */
  method PageDensity(page: Json) returns (d: Density)
    requires PageReadable(page)
    ensures d == DensityOf(page)
  {
    var pageArea := Max(1.0, FloatOr(Get(page, "widthMm"), 1.0)) * Max(1.0, FloatOr(Get(page, "heightMm"), 1.0));
    var es := Elements(page);
    ghost var cs := Contributions(es);
    var textChars := 0;
    var groups: map<string, real> := map[];
    var order: seq<string> := [];
    var idx := 0;
    while idx < |es|
      invariant 0 <= idx <= |es|
      invariant textChars == TextTotal(es[..idx])
      invariant Groups(groups, order) == GroupAll(cs[..idx])
    {
      ScanStep(es, idx);
      textChars, groups, order := VisitElement(es[idx], idx, textChars, groups, order);
      idx := idx + 1;
    }
    assert es[..idx] == es;
    assert cs[..idx] == cs;
    GroupAllWellFormed(cs);
    ghost var g := PageGroups(page);
    assert groups == g.maxima && order == g.order;
    assert pageArea == PageArea(page);
    var coverage := SumValues(order, groups) / pageArea;
    assert coverage == SumValues(g.order, g.maxima) / PageArea(page);
    d := Density(Get(page, "pageNumber"),
                 PyStr(Or(Get(page, "pageRole"), JStr(""))),
                 PyStr(Or(Get(page, "templateId"), JStr(""))),
                 textChars, coverage, |groups|);
  }

  // ------------------------------------------------------- validation

  datatype PageClass = SectionDivider | TextOnly | General

  /** A section divider by template (upper-cased) or role (lower-cased)
      comes first; then the text-only role; everything else is general. */
  function ClassOf(d: Density): PageClass {
    if Upper(d.template) == "SECTION_DIVIDER" || Lower(d.role) == "section-divider" then SectionDivider
    else if Lower(d.role) == "text-only" then TextOnly
    else General
  }

  datatype Minimums = Minimums(chars: int, coverage: real, groups: int)

  /** The threshold table. */
  function MinimumsOf(c: PageClass): Minimums {
    match c
    case SectionDivider => Minimums(70, 0.22, 3)
    case TextOnly => Minimums(78, 0.22, 3)
    case General => Minimums(58, 0.18, 2)
  }

  function ReasonOf(c: PageClass): string {
    match c
    case SectionDivider => "section-divider density below threshold"
    case TextOnly => "text-only density below threshold"
    case General => "general density below threshold"
  }

  predicate Meets(d: Density, m: Minimums) {
    d.textChars >= m.chars && d.coverage >= m.coverage && d.contentGroups >= m.groups
  }

  /** `validate_page`: (passed, reason), the reason None exactly on a pass. */
  function ValidatePage(d: Density): (r: (bool, Option<string>))
    ensures r.0 <==> r.1.None?
  {
    var role := Lower(d.role);
    var template := Upper(d.template);
    if template == "SECTION_DIVIDER" || role == "section-divider" then
      if d.textChars < 70 || d.coverage < 0.22 || d.contentGroups < 3 then
        (false, Some("section-divider density below threshold"))
      else (true, None)
    else if role == "text-only" then
      if d.textChars < 78 || d.coverage < 0.22 || d.contentGroups < 3 then
        (false, Some("text-only density below threshold"))
      else (true, None)
    else if d.textChars < 58 || d.coverage < 0.18 || d.contentGroups < 2 then
      (false, Some("general density below threshold"))
    else (true, None)
  }

  /** A page passes exactly when it meets the minimums of its class, and a
      failing page names its class. */
  lemma ValidateMatchesTable(d: Density)
    ensures ValidatePage(d).0 <==> Meets(d, MinimumsOf(ClassOf(d)))
    ensures !ValidatePage(d).0 ==> ValidatePage(d).1 == Some(ReasonOf(ClassOf(d)))
  {
  }

  /** The section-divider template wins over any role. */
  lemma SectionDividerFirst(d: Density)
    requires Upper(d.template) == "SECTION_DIVIDER"
    ensures ClassOf(d) == SectionDivider
  {
  }

  /** More text, more coverage or more groups never turns a pass into a failure. */
  lemma ValidateMonotone(d: Density, e: Density)
    requires d.role == e.role && d.template == e.template
    requires d.textChars <= e.textChars && d.coverage <= e.coverage && d.contentGroups <= e.contentGroups
    ensures ValidatePage(d).0 ==> ValidatePage(e).0
  {

  }

  // ----------------------------------------------------- all the pages

  /** `meta.validation.issues` when each level has the right type, else []. */
  function ValidationIssues(page: Json): seq<Json>
    requires page.JObj?
  {
    var meta := Get(page, "meta");
    var validation := if meta.JObj? then Get(meta, "validation") else JNull;
    var issues := if validation.JObj? then Get(validation, "issues") else JNull;
    if issues.JArr? then issues.items else []
  }

  predicate IsDensityIssue(issue: Json) {
    issue.JObj? && Get(issue, "code") == JStr("content-density")
  }

  /** Some dict issue of the page's own validation has code "content-density". */
  predicate HasDensityIssue(page: Json)
    requires page.JObj?
  {
    exists i | 0 <= i < |ValidationIssues(page)| :: IsDensityIssue(ValidationIssues(page)[i])
  }

  predicate AllPagesReadable(pages: seq<Json>) {
    forall i | 0 <= i < |pages| :: pages[i].JObj? ==> PageReadable(pages[i])
  }

  function DensitiesOf(pages: seq<Json>): seq<Density>
    requires AllPagesReadable(pages)
  {
    if pages == [] then []
    else
      var p := pages[|pages| - 1];
      DensitiesOf(pages[..|pages| - 1]) + (if p.JObj? then [DensityOf(p)] else [])
  }

  /** The page numbers of the dict pages reporting a density issue. */
  function DensityIssuesOf(pages: seq<Json>): seq<Json> {
    if pages == [] then []
    else
      var p := pages[|pages| - 1];
      DensityIssuesOf(pages[..|pages| - 1]) + (if p.JObj? && HasDensityIssue(p) then [Get(p, "pageNumber")] else [])
  }

  datatype Failure = Failure(density: Density, reason: string)

  function FailuresOf(ds: seq<Density>): seq<Failure> {
    if ds == [] then []
    else
      var d := ds[|ds| - 1];
      var v := ValidatePage(d);
      FailuresOf(ds[..|ds| - 1]) + (if !v.0 then [Failure(d, v.1.value)] else [])
  }

  predicate IsDict(j: Json) {
    j.JObj?
  }

  /** One density per dict page. */
  lemma {:induction false} DensitiesCount(pages: seq<Json>)
    requires AllPagesReadable(pages)
    ensures |DensitiesOf(pages)| == CountWhere(pages, IsDict)
  {
    if pages != [] {
      DensitiesCount(pages[..|pages| - 1]);
    }
  }

  /** No failures exactly when every density validates. */
  lemma {:induction false} FailuresEmpty(ds: seq<Density>)
    ensures FailuresOf(ds) == [] <==> forall i | 0 <= i < |ds| :: ValidatePage(ds[i]).0
  {
    if ds != [] {
      var init := ds[..|ds| - 1];
      FailuresEmpty(init);
      assert forall i | 0 <= i < |init| :: init[i] == ds[i];
    }
  }

  /** No density issues exactly when no dict page reports one. */
  lemma {:induction false} DensityIssuesEmpty(pages: seq<Json>)
    ensures DensityIssuesOf(pages) == [] <==>
              forall i | 0 <= i < |pages| :: pages[i].JObj? ==> !HasDensityIssue(pages[i])
  {
    if pages != [] {
      var init := pages[..|pages| - 1];
      DensityIssuesEmpty(init);
      assert forall i | 0 <= i < |init| :: init[i] == pages[i];
    }
  }

  /** `any(isinstance(issue, dict) and issue.get("code") == "content-density" ...)` */
  method CheckDensityIssue(page: Json) returns (found: bool)
    requires page.JObj?
    ensures found == HasDensityIssue(page)
  {
    var issues := ValidationIssues(page);
    found := false;
    var i := 0;
    while i < |issues| && !found
      invariant 0 <= i <= |issues|
      invariant found <==> exists j | 0 <= j < i :: IsDensityIssue(issues[j])
    {
      found := IsDensityIssue(issues[i]);
      i := i + 1;
    }
  }

  /** One more page adds its density and, when it reports one, its density issue. */
  lemma MeasureStep(pages: seq<Json>, i: nat)
    requires AllPagesReadable(pages) && i < |pages|
    ensures DensitiesOf(pages[..i + 1])
         == DensitiesOf(pages[..i]) + (if pages[i].JObj? then [DensityOf(pages[i])] else [])
    ensures DensityIssuesOf(pages[..i + 1])
         == DensityIssuesOf(pages[..i])
            + (if pages[i].JObj? && HasDensityIssue(pages[i]) then [Get(pages[i], "pageNumber")] else [])
  {
    assert pages[..i + 1][..i] == pages[..i];
  }

  /** One more density adds its failure, if it has one. */
  lemma FailuresStep(ds: seq<Density>, d: Density)
    ensures FailuresOf(ds + [d])
         == FailuresOf(ds) + (if !ValidatePage(d).0 then [Failure(d, ValidatePage(d).1.value)] else [])
  {

  }

  /** The measuring loop of `main`: a density per dict page, the page number
      of each page whose validation reports a density issue, and a failure
      per density that does not validate. */
  method MeasurePages(pages: seq<Json>) returns (densities: seq<Density>, failures: seq<Failure>, densityIssues: seq<Json>)
    requires AllPagesReadable(pages)
    ensures densities == DensitiesOf(pages)
    ensures failures == FailuresOf(densities)
    ensures densityIssues == DensityIssuesOf(pages)
  {
    densities, failures, densityIssues := [], [], [];
    var i := 0;
    while i < |pages|
      invariant 0 <= i <= |pages|
      invariant densities == DensitiesOf(pages[..i])
      invariant failures == FailuresOf(densities)
      invariant densityIssues == DensityIssuesOf(pages[..i])
    {
      var page := pages[i];
      MeasureStep(pages, i);
      if page.JObj? {
        var density := PageDensity(page);
        FailuresStep(densities, density);
        densities := densities + [density];
        var hasDensityIssue := CheckDensityIssue(page);
        if hasDensityIssue {
          densityIssues := densityIssues + [Get(page, "pageNumber")];
        }
        var v := ValidatePage(density);
        if !v.0 {
          failures := failures + [Failure(density, v.1.value)];
        }
      }
      i := i + 1;
    }
    assert pages[..i] == pages;
  }

  /** `passed`: no failures, no density issues and at least four measured pages. */
  function Passed(densities: seq<Density>, failures: seq<Failure>, densityIssues: seq<Json>): bool {
    |failures| == 0 && |densityIssues| == 0 && |densities| >= 4
  }

  /** The layout passes exactly when it has at least four dict pages, every
      one of them validates and none reports a density issue. */
  lemma PassedMeaning(pages: seq<Json>)
    requires AllPagesReadable(pages)
    ensures var ds := DensitiesOf(pages);
      Passed(ds, FailuresOf(ds), DensityIssuesOf(pages)) <==>
        && CountWhere(pages, IsDict) >= 4
        && (forall i | 0 <= i < |ds| :: ValidatePage(ds[i]).0)
        && (forall i | 0 <= i < |pages| :: pages[i].JObj? ==> !HasDensityIssue(pages[i]))
  {
    DensitiesCount(pages);
    FailuresEmpty(DensitiesOf(pages));
    DensityIssuesEmpty(pages);
  }

  /** `layout.get("pages", [])` of a dict layout, which must be iterable. */
  predicate LayoutReadable(layout: Json) {
    layout.JObj? ==>
      && Iterable(GetOr(layout, "pages", JArr([])))
      && AllPagesReadable(Items(GetOr(layout, "pages", JArr([]))))
  }

  function LayoutPages(layout: Json): seq<Json>
    requires LayoutReadable(layout)
  {
    if layout.JObj? then Items(GetOr(layout, "pages", JArr([]))) else []
  }

  /** `main` after regeneration: no latest job (or an empty name) and a
      missing layout both fail; otherwise the pages are measured. */
  method RunProof(requestHash: Option<string>, layout: Option<Json>)
    returns (passed: bool, exitCode: int, densities: seq<Density>, failures: seq<Failure>, densityIssues: seq<Json>)
    requires layout.Some? ==> LayoutReadable(layout.value)
    ensures requestHash.None? || requestHash.value == "" || layout.None? ==> !passed
    ensures requestHash.Some? && requestHash.value != "" && layout.Some? ==>
              && densities == DensitiesOf(LayoutPages(layout.value))
              && failures == FailuresOf(densities)
              && densityIssues == DensityIssuesOf(LayoutPages(layout.value))
              && passed == Passed(densities, failures, densityIssues)
    ensures exitCode == (if passed then 0 else 1)
  {
    densities, failures, densityIssues := [], [], [];
    if requestHash.None? || requestHash.value == "" {
      return false, 1, densities, failures, densityIssues;
    }
    if layout.None? {
      return false, 1, densities, failures, densityIssues;
    }
    var pages := LayoutPages(layout.value);
    densities, failures, densityIssues := MeasurePages(pages);
    passed := |failures| == 0 && |densityIssues| == 0 && |densities| >= 4;
    exitCode := if passed then 0 else 1;
  }

  // ------------------------------------------------------- latest job

  /** A child of the jobs root: its name, whether it is a directory, and the
      modification time of its layout.json when that file exists. */
  datatype Child = Child(name: string, isDir: bool, layoutMtime: Option<real>)

  predicate IsCandidate(c: Child) {
    c.isDir && c.layoutMtime.Some?
  }

  /** `latest_job`: the first candidate (in directory order) whose layout
      has the greatest modification time, as the stable descending sort
      leaves it first; `(None, 0.0)` when the root is missing or holds no
      candidate. */
  method LatestJob(rootExists: bool, children: seq<Child>) returns (name: Option<string>, mtime: real)
    ensures name.None? <==> !rootExists || forall i | 0 <= i < |children| :: !IsCandidate(children[i])
    ensures name.None? ==> mtime == 0.0
    ensures name.Some? ==>
              exists i | 0 <= i < |children| ::
                && IsCandidate(children[i]) && children[i].name == name.value
                && children[i].layoutMtime.value == mtime
                && forall j | 0 <= j < i && IsCandidate(children[j]) :: children[j].layoutMtime.value < mtime
    ensures name.Some? ==>
              forall i | 0 <= i < |children| && IsCandidate(children[i]) :: children[i].layoutMtime.value <= mtime
  {
    if !rootExists {
      return None, 0.0;
    }
    var best: int := -1;
    var i := 0;
    while i < |children|
      invariant 0 <= i <= |children|
      invariant -1 <= best < i
      invariant best == -1 <==> forall j | 0 <= j < i :: !IsCandidate(children[j])
      invariant best >= 0 ==> IsCandidate(children[best])
      invariant best >= 0 ==> forall j | 0 <= j < i && IsCandidate(children[j]) ::
                                children[j].layoutMtime.value <= children[best].layoutMtime.value
      invariant best >= 0 ==> forall j | 0 <= j < best && IsCandidate(children[j]) ::
                                children[j].layoutMtime.value < children[best].layoutMtime.value
    {
      var c := children[i];
      if IsCandidate(c) && (best == -1 || c.layoutMtime.value > children[best].layoutMtime.value) {
        best := i;
      }
      i := i + 1;
    }
    if best == -1 {
      return None, 0.0;
    }
    name := Some(children[best].name);
    mtime := children[best].layoutMtime.value;
  }
}
