/** Parsed JSON values and the few pieces of Python semantics the QA scripts
    apply to them: `dict.get`, truthiness, `str()`, `float(x or d)`,
    `str.lower/upper/strip/split`, `" ".join(...)` and substring tests. */
module PyJson {

  datatype Option<+T> = None | Some(value: T)

  /** A value as `json.loads` produces it. `JNull` is Python's `None`, which is
      also what `dict.get` returns for a missing key. A number keeps whether
      its literal had a fraction or an exponent, which makes it a Python
      `float` rather than an `int`. */
  datatype Json =
    | JNull
    | JBool(b: bool)
    | JNum(n: real, isFloat: bool)
    | JStr(s: string)
    | JArr(items: seq<Json>)
    | JObj(fields: map<string, Json>)

  /** `d.get(key)` */
  function Get(d: Json, key: string): Json
    requires d.JObj?
  {
    if key in d.fields then d.fields[key] else JNull
  }

  /** `d.get(key, default)`: the default only when the key is absent, not when it holds null. */
  function GetOr(d: Json, key: string, default: Json): Json
    requires d.JObj?
  {
    if key in d.fields then d.fields[key] else default
  }

  /** Python truthiness. */
  predicate Truthy(j: Json) {
    match j
    case JNull => false
    case JBool(b) => b
    case JNum(n, _) => n != 0.0
    case JStr(s) => s != ""
    case JArr(a) => a != []
    case JObj(m) => m != map[]
  }

  /** `x or alt` */
  function Or(x: Json, alt: Json): (r: Json)
    ensures Truthy(x) ==> r == x
    ensures !Truthy(x) ==> r == alt
  {
    if Truthy(x) then x else alt
  }

  /** The numeric value Python compares a bool or a number by: `True == 1`. */
  function NumValue(j: Json): real
    requires j.JBool? || j.JNum?
  {
    if j.JBool? then (if j.b then 1.0 else 0.0) else j.n
  }

  /** Python's `==` on parsed values: booleans, ints and floats by numeric
      value (`1 == 1.0 == True`), lists element by element, dicts by key set
      and then value by value, anything else only within its own kind. */
  predicate PyEq(x: Json, y: Json) {
    if (x.JBool? || x.JNum?) && (y.JBool? || y.JNum?) then NumValue(x) == NumValue(y)
    else match x
      case JNull => y.JNull?
      case JStr(s) => y.JStr? && y.s == s
      case JArr(a) => y.JArr? && |a| == |y.items| && forall i | 0 <= i < |a| :: PyEq(a[i], y.items[i])
      case JObj(m) => y.JObj? && m.Keys == y.fields.Keys && forall k | k in m :: PyEq(m[k], y.fields[k])
      case _ => false
  }

  /** `x or {}` is only usable with `.get` when x is falsy or a dict. */
  predicate OrDict(x: Json) {
    !Truthy(x) || x.JObj?
  }

  /** `(x or {}).get(key)` */
  function GetOrEmpty(x: Json, key: string): Json
    requires OrDict(x)
  {
    if x.JObj? then Get(x, key) else JNull
  }

  function DigitChar(d: nat): char
    requires d < 10
  {
    (48 + d) as char
  }

  /** Decimal rendering of a natural number, as `str(n)`. */
  function NatToString(n: nat): (r: string)
    ensures |r| >= 1
    ensures forall i | 0 <= i < |r| :: '0' <= r[i] <= '9'
  {
    if n < 10 then [DigitChar(n)] else NatToString(n / 10) + [DigitChar(n % 10)]
  }

  /** Different numbers render differently. */
  lemma {:induction false} NatToStringInjective(a: nat, b: nat)
    requires NatToString(a) == NatToString(b)
    ensures a == b
  {
    var s := NatToString(a);
    if a >= 10 && b >= 10 {
      var pa := NatToString(a / 10);
      var pb := NatToString(b / 10);
      assert s == pa + [DigitChar(a % 10)] && s == pb + [DigitChar(b % 10)];
      assert pa == s[..|s| - 1] == pb;
      assert DigitChar(a % 10) == s[|s| - 1] == DigitChar(b % 10);
      NatToStringInjective(a / 10, b / 10);
    } else if a < 10 && b < 10 {
      assert s[0] == DigitChar(a) && s[0] == DigitChar(b);
    }
  }

  function IntToString(i: int): (r: string)
    ensures |r| >= 1
  {
    if i < 0 then "-" + NatToString(-i) else NatToString(i)
  }

  /** `str(x)` for a JSON value. Strings, None, booleans, ints and integral
      floats below 1e16 render as Python renders them (a float keeps its
      ".0"); any other float, a list or a dict is rendered as a fixed marker
      (Python's repr of those is not modelled). */
  function PyStr(j: Json): string {
    match j
    case JNull => "None"
    case JBool(b) => if b then "True" else "False"
    case JNum(n, isFloat) =>
      if n != n.Floor as real then "<float>"
      else if !isFloat then IntToString(n.Floor)
      else if -10000000000000000.0 < n < 10000000000000000.0 then IntToString(n.Floor) + ".0"
      else "<float>"
    case JStr(s) => s
    case JArr(_) => "<list>"
    case JObj(_) => "<dict>"
  }

  /** An int and a float with the same value render differently: `str(2)` is
      "2" and `str(2.0)` is "2.0"; `str(1e2)` is "100.0". */
  lemma PyStrOfNumbers()
    ensures PyStr(JNum(2.0, false)) == "2"
    ensures PyStr(JNum(2.0, true)) == "2.0"
    ensures PyStr(JNum(100.0, true)) == "100.0"
    ensures PyStr(JNum(-7.0, false)) == "-7"
  {
  }

  /** A rendered integer starts with a minus sign exactly when it is negative. */
  lemma IntToStringSign(a: int)
    ensures IntToString(a)[0] == '-' <==> a < 0
  {
  }

  /** Different integers render differently, with or without a sign. */
  lemma {:induction false} IntToStringInjective(a: int, b: int)
    requires IntToString(a) == IntToString(b)
    ensures a == b
  {
    var s := IntToString(a);
    IntToStringSign(a);
    IntToStringSign(b);
    if a < 0 {
      assert NatToString(-a) == s[1..] == NatToString(-b);
      NatToStringInjective(-a, -b);
    } else {
      NatToStringInjective(a, b);
    }
  }

  /** `str()` of a JSON integer is its decimal text, so different integers
      print differently, and an integral float below 1e16 in magnitude prints
      as the integer of the same value followed by ".0". */
  lemma PyStrOfIntegral(n: int, m: int)
    ensures PyStr(JNum(n as real, false)) == IntToString(n)
    ensures n != m ==> PyStr(JNum(n as real, false)) != PyStr(JNum(m as real, false))
    ensures -10000000000000000 < n < 10000000000000000 ==>
              PyStr(JNum(n as real, true)) == PyStr(JNum(n as real, false)) + ".0"
  {
    if PyStr(JNum(n as real, false)) == PyStr(JNum(m as real, false)) {
      assert IntToString(n) == PyStr(JNum(m as real, false)) == IntToString(m);
      IntToStringInjective(n, m);
    }
  }

  /** `float(x or d)` does not raise when x is falsy, a number or a boolean. */
  predicate Floatable(x: Json) {
    !Truthy(x) || x.JNum? || x.JBool?
  }

  /** `float(x or d)` */
  function FloatOr(x: Json, d: real): real
    requires Floatable(x)
  {
    if !Truthy(x) then d
    else match x
      case JNum(n, _) => n
      case JBool(_) => 1.0
  }

  /** Values a `for` loop can iterate without raising. */
  predicate Iterable(x: Json) {
    x.JArr? || x.JStr? || x.JObj?
  }

  /** The items a `for` loop visits that could be dicts. Iterating a string
      yields one-character strings and iterating a dict yields its keys; no
      loop of the QA scripts does anything with a non-dict item except skip
      it, so those iterations are modelled as visiting nothing. */
  function Items(x: Json): seq<Json>
    requires Iterable(x)
  {
    if x.JArr? then x.items else []
  }

  /** `page.get("elements", [])` can be looped over (null, numbers and
      booleans make the loop raise). */
  predicate ElementsIterable(page: Json)
    requires page.JObj?
  {
    Iterable(GetOr(page, "elements", JArr([])))
  }

  function Elements(page: Json): seq<Json>
    requires page.JObj? && ElementsIterable(page)
  {
    Items(GetOr(page, "elements", JArr([])))
  }

  // ---------------------------------------------------------------- text

  /** ASCII case mapping (non-ASCII case mapping is not modelled). */
  function LowerChar(c: char): char {
    if 'A' <= c <= 'Z' then (c as int + 32) as char else c
  }

  function UpperChar(c: char): char {
    if 'a' <= c <= 'z' then (c as int - 32) as char else c
  }

  function Lower(s: string): (r: string)
    ensures |r| == |s|
    ensures forall i | 0 <= i < |s| :: r[i] == LowerChar(s[i])
  {
    seq(|s|, i requires 0 <= i < |s| => LowerChar(s[i]))
  }

  function Upper(s: string): (r: string)
    ensures |r| == |s|
    ensures forall i | 0 <= i < |s| :: r[i] == UpperChar(s[i])
  {
    seq(|s|, i requires 0 <= i < |s| => UpperChar(s[i]))
  }

  lemma LowerIdempotent(s: string)
    ensures Lower(Lower(s)) == Lower(s)
  {
  }

  /** The characters for which Python's `str.isspace()` holds; `str.split()`,
      `str.strip()` and the regex class `\s` all use this set. */
  predicate IsSpace(c: char) {
    || '\t' <= c <= '\r'
    || '\U{1C}' <= c <= ' '
    || c == '\U{85}' || c == '\U{A0}' || c == '\U{1680}'
    || '\U{2000}' <= c <= '\U{200A}'
    || c == '\U{2028}' || c == '\U{2029}' || c == '\U{202F}' || c == '\U{205F}'
    || c == '\U{3000}'
  }

  predicate AllSpace(s: string) {
    forall i | 0 <= i < |s| :: IsSpace(s[i])
  }

  /** `s.lstrip()` */
  function DropLeading(s: string): (r: string)
    ensures |r| <= |s|
  {
    if s == [] || !IsSpace(s[0]) then s else DropLeading(s[1..])
  }

  /** `lstrip` removes a whitespace prefix and leaves a text that starts
      with a non-whitespace character, if any. */
  lemma {:induction false} DropLeadingShape(s: string)
    ensures DropLeading(s) == s[|s| - |DropLeading(s)|..]
    ensures DropLeading(s) == [] || !IsSpace(DropLeading(s)[0])
    ensures AllSpace(s[..|s| - |DropLeading(s)|])
  {
    if s != [] && IsSpace(s[0]) {
      var r := DropLeading(s[1..]);
      DropLeadingShape(s[1..]);
      assert s[..|s| - |r|] == [s[0]] + s[1..][..|s| - 1 - |r|];
      assert s[|s| - |r|..] == s[1..][|s| - 1 - |r|..];
    }
  }

  /** `s.rstrip()` */
  function DropTrailing(s: string): (r: string)
    ensures |r| <= |s|
  {
    if s == [] || !IsSpace(s[|s| - 1]) then s else DropTrailing(s[..|s| - 1])
  }

  /** `rstrip` removes a whitespace suffix and leaves a text that ends with a
      non-whitespace character, if any. */
  lemma {:induction false} DropTrailingShape(s: string)
    ensures DropTrailing(s) == s[..|DropTrailing(s)|]
    ensures DropTrailing(s) == [] || !IsSpace(DropTrailing(s)[|DropTrailing(s)| - 1])
    ensures AllSpace(s[|DropTrailing(s)|..])
  {
    if s != [] && IsSpace(s[|s| - 1]) {
      var r := DropTrailing(s[..|s| - 1]);
      DropTrailingShape(s[..|s| - 1]);
      assert s[|r|..] == s[..|s| - 1][|r|..] + [s[|s| - 1]];
    }
  }

  /** `s.strip()` */
  function Strip(s: string): string {
    DropTrailing(DropLeading(s))
  }

  /** The longest prefix of s without whitespace. */
  function TakeWord(s: string): (w: string)
    ensures |w| <= |s| && w == s[..|w|]
    ensures s != [] && !IsSpace(s[0]) ==> |w| >= 1
    ensures forall i | 0 <= i < |w| :: !IsSpace(w[i])
    ensures |w| < |s| ==> IsSpace(s[|w|])
  {
    if s == [] || IsSpace(s[0]) then [] else [s[0]] + TakeWord(s[1..])
  }

  predicate IsWord(w: string) {
    w != [] && forall i | 0 <= i < |w| :: !IsSpace(w[i])
  }

  /** `s.split()`: the maximal runs of non-whitespace characters, in order. */
  function Split(s: string): seq<string>
    decreases |s|
  {
    var t := DropLeading(s);
    if t == [] then []
    else
      DropLeadingShape(s);
      var w := TakeWord(t);
      assert w != [];
      [w] + Split(t[|w|..])
  }

  /** Every piece of a split is a word. */
  lemma {:induction false} SplitWords(s: string)
    ensures forall k | 0 <= k < |Split(s)| :: IsWord(Split(s)[k])
    decreases |s|
  {
    var t := DropLeading(s);
    if t != [] {
      DropLeadingShape(s);
      var w := TakeWord(t);
      var rest := t[|w|..];
      SplitWords(rest);
      assert Split(s) == [w] + Split(rest);
      forall k | 0 <= k < |Split(s)| ensures IsWord(Split(s)[k]) {
        if k > 0 {
          assert Split(s)[k] == Split(rest)[k - 1];
        }
      }
    }
  }

  /** `" ".join(words)` */
  function Join(ws: seq<string>): string {
    if ws == [] then "" else if |ws| == 1 then ws[0] else ws[0] + " " + Join(ws[1..])
  }

  /** `" ".join(s.split())`: every whitespace run becomes one space and the
      ends are trimmed. */
  function Collapse(s: string): string {
    Join(Split(s))
  }

  lemma SplitEmpty(s: string)
    ensures Split(s) == [] <==> AllSpace(s)
  {
    var t := DropLeading(s);
    DropLeadingShape(s);
    assert Split(s) == [] <==> t == [];
    if t == [] {
      assert s[..|s| - |t|] == s;
    } else {
      assert t[0] == s[|s| - |t|];
    }
  }

  lemma {:induction false} JoinEnds(ws: seq<string>)
    requires ws != []
    requires forall k | 0 <= k < |ws| :: IsWord(ws[k])
    ensures Join(ws) != []
    ensures !IsSpace(Join(ws)[0]) && !IsSpace(Join(ws)[|Join(ws)| - 1])
  {
    if |ws| > 1 {
      JoinEnds(ws[1..]);
      var rest := Join(ws[1..]);
      assert Join(ws) == ws[0] + " " + rest;
      assert Join(ws)[|Join(ws)| - 1] == rest[|rest| - 1];
    }
  }

  /** A collapsed text is empty exactly when the original is all whitespace. */
  lemma CollapseEmpty(s: string)
    ensures Collapse(s) == [] <==> AllSpace(s)
    ensures Collapse(s) != [] ==> !IsSpace(Collapse(s)[0]) && !IsSpace(Collapse(s)[|Collapse(s)| - 1])
  {
    var ws := Split(s);
    SplitEmpty(s);
    assert Collapse(s) == Join(ws);
    if ws != [] {
      SplitWords(s);
      JoinEnds(ws);
    }
  }

  /** `.strip()` after `" ".join(s.split())` changes nothing. */
  lemma StripCollapse(s: string)
    ensures Strip(Collapse(s)) == Collapse(s)
  {
    CollapseEmpty(s);
  }

  // ---------------------------------------------------------- substrings

  /** sub occurs in s starting at index i. */
  predicate OccursAt(s: string, sub: string, i: int) {
    0 <= i <= |s| - |sub| && s[i..i + |sub|] == sub
  }

  /** `sub in s` */
  predicate Contains(s: string, sub: string) {
    exists i | 0 <= i <= |s| - |sub| :: OccursAt(s, sub, i)
  }

  /** `s.startswith(p)` */
  predicate StartsWith(s: string, p: string) {
    |p| <= |s| && s[..|p|] == p
  }

  /** A substring test is preserved by extending the text on either side. */
  lemma ContainsExtend(pre: string, s: string, post: string, sub: string)
    requires Contains(s, sub)
    ensures Contains(pre + s + post, sub)
  {
    var i :| 0 <= i <= |s| - |sub| && OccursAt(s, sub, i);
    var t := pre + s + post;
    assert t[|pre| + i..|pre| + i + |sub|] == s[i..i + |sub|];
    assert OccursAt(t, sub, |pre| + i);
  }

  // ------------------------------------------------------------ counting

  /** How many items satisfy f. */
  function CountWhere<T>(xs: seq<T>, f: T -> bool): nat {
    if xs == [] then 0
    else CountWhere(xs[..|xs| - 1], f) + (if f(xs[|xs| - 1]) then 1 else 0)
  }

  /** A count is positive exactly when some item satisfies f. */
  lemma {:induction false} CountWherePositive<T>(xs: seq<T>, f: T -> bool)
    ensures CountWhere(xs, f) >= 1 <==> exists i | 0 <= i < |xs| :: f(xs[i])
  {
    if xs != [] {
      var init := xs[..|xs| - 1];
      CountWherePositive(init, f);
      assert forall i | 0 <= i < |init| :: init[i] == xs[i];
    }
  }

  /** The lists joined end to end, in order. */
  function Flatten<T>(xss: seq<seq<T>>): seq<T> {
    if xss == [] then [] else Flatten(xss[..|xss| - 1]) + xss[|xss| - 1]
  }

  /** An element of the joined list comes from one of the lists. */
  lemma {:induction false} FlattenMember<T>(xss: seq<seq<T>>, x: T)
    ensures x in Flatten(xss) <==> exists n | 0 <= n < |xss| :: x in xss[n]
  {
    if xss != [] {
      var m := |xss| - 1;
      var init := xss[..m];
      FlattenMember(init, x);
      if x in Flatten(init) {
        var n :| 0 <= n < m && x in init[n];
        assert init[n] == xss[n];
      }
      if exists n | 0 <= n < |xss| :: x in xss[n] {
        var n :| 0 <= n < |xss| && x in xss[n];
        if n < m {
          assert init[n] == xss[n];
        }
      }
    }
  }

  /** The joined list is empty exactly when every list is. */
  lemma {:induction false} FlattenEmpty<T>(xss: seq<seq<T>>)
    ensures Flatten(xss) == [] <==> forall n | 0 <= n < |xss| :: xss[n] == []
  {
    if xss != [] {
      var init := xss[..|xss| - 1];
      FlattenEmpty(init);
      assert forall n | 0 <= n < |init| :: init[n] == xss[n];
    }
  }

  /** The lists `each(x)` of the items x that `keep` selects, joined in
      item order. */
  function Gather<T, H>(xs: seq<T>, keep: T -> bool, each: T -> seq<H>): seq<H> {
    if xs == [] then []
    else
      var x := xs[|xs| - 1];
      Gather(xs[..|xs| - 1], keep, each) + (if keep(x) then each(x) else [])
  }

  /** Gathering one more item appends what it gives. */
  lemma GatherStep<T, H>(xs: seq<T>, keep: T -> bool, each: T -> seq<H>, i: nat)
    requires i < |xs|
    ensures Gather(xs[..i + 1], keep, each) == Gather(xs[..i], keep, each) + (if keep(xs[i]) then each(xs[i]) else [])
  {
    assert xs[..i + 1][..i] == xs[..i];
  }

  /** The same step after what was gathered before. */
  lemma GatherExtend<T, H>(acc: seq<H>, xs: seq<T>, keep: T -> bool, each: T -> seq<H>, i: nat)
    requires i < |xs|
    ensures acc + Gather(xs[..i + 1], keep, each) == acc + Gather(xs[..i], keep, each) + (if keep(xs[i]) then each(xs[i]) else [])
  {
    GatherStep(xs, keep, each, i);
  }

  /** Nothing is gathered exactly when every selected item gives nothing. */
  lemma {:induction false} GatherEmpty<T, H>(xs: seq<T>, keep: T -> bool, each: T -> seq<H>)
    ensures Gather(xs, keep, each) == [] <==> forall i | 0 <= i < |xs| && keep(xs[i]) :: each(xs[i]) == []
  {
    if xs != [] {
      var init := xs[..|xs| - 1];
      GatherEmpty(init, keep, each);
      assert forall i | 0 <= i < |init| :: init[i] == xs[i];
    }
  }

  /** An item is gathered exactly when some selected item gives it. */
  lemma {:induction false} GatherMember<T, H>(xs: seq<T>, keep: T -> bool, each: T -> seq<H>, y: H)
    ensures y in Gather(xs, keep, each) <==> exists i | 0 <= i < |xs| && keep(xs[i]) :: y in each(xs[i])
  {
    if xs != [] {
      var n := |xs| - 1;
      var init := xs[..n];
      GatherMember(init, keep, each, y);
      var tail := if keep(xs[n]) then each(xs[n]) else [];
      assert Gather(xs, keep, each) == Gather(init, keep, each) + tail;
      assert y in Gather(xs, keep, each) <==> y in Gather(init, keep, each) || y in tail;
      if y in Gather(init, keep, each) {
        var i :| 0 <= i < |init| && keep(init[i]) && y in each(init[i]);
        assert init[i] == xs[i];
      } else if keep(xs[n]) && y in each(xs[n]) {
        assert 0 <= n < |xs| && keep(xs[n]) && y in each(xs[n]);
      }
      if exists i | 0 <= i < |xs| && keep(xs[i]) :: y in each(xs[i]) {
        var i :| 0 <= i < |xs| && keep(xs[i]) && y in each(xs[i]);
        if i < n {
          assert init[i] == xs[i];
        }
      }
    }
  }

  /** Python's `==` on parsed values is reflexive. */
  lemma {:induction false} PyEqReflexive(x: Json)
    ensures PyEq(x, x)
  {
    match x
    case JArr(a) =>
      forall i | 0 <= i < |a| ensures PyEq(a[i], a[i]) { PyEqReflexive(a[i]); }
    case JObj(m) =>
      forall k | k in m ensures PyEq(m[k], m[k]) { PyEqReflexive(m[k]); }
    case _ =>
  }

  /** Python's `==` on parsed values is symmetric. */
  lemma {:induction false} PyEqSymmetric(x: Json, y: Json)
    requires PyEq(x, y)
    ensures PyEq(y, x)
  {
    if x.JArr? && y.JArr? {
      forall i | 0 <= i < |y.items| ensures PyEq(y.items[i], x.items[i]) { PyEqSymmetric(x.items[i], y.items[i]); }
    } else if x.JObj? && y.JObj? {
      forall k | k in y.fields ensures PyEq(y.fields[k], x.fields[k]) { PyEqSymmetric(x.fields[k], y.fields[k]); }
    }
  }

  /** Python's `==` on parsed values is transitive. */
  lemma {:induction false} PyEqTransitive(x: Json, y: Json, z: Json)
    requires PyEq(x, y) && PyEq(y, z)
    ensures PyEq(x, z)
  {
    if x.JArr? && y.JArr? && z.JArr? {
      forall i | 0 <= i < |x.items| ensures PyEq(x.items[i], z.items[i]) {
        PyEqTransitive(x.items[i], y.items[i], z.items[i]);
      }
    } else if x.JObj? && y.JObj? && z.JObj? {
      forall k | k in x.fields ensures PyEq(x.fields[k], z.fields[k]) {
        PyEqTransitive(x.fields[k], y.fields[k], z.fields[k]);
      }
    }
  }

  /** Against None or a string, Python's `==` is plain equality. Numbers
      compare by value whether they are ints or floats, `True` and `False`
      equal 1 and 0, and a string never equals a number or a bool. */
  lemma PyEqCases(x: Json, s: string, r: real, isFloat1: bool, isFloat2: bool, b: bool)
    ensures PyEq(x, JNull) <==> x == JNull
    ensures PyEq(x, JStr(s)) <==> x == JStr(s)
    ensures PyEq(JNum(r, isFloat1), JNum(r, isFloat2))
    ensures PyEq(JBool(b), JNum(r, isFloat1)) <==> r == (if b then 1.0 else 0.0)
    ensures !PyEq(JStr(s), JNum(r, isFloat1)) && !PyEq(JStr(s), JBool(b))
    ensures PyEq(JNum(1.0, false), JNum(1.0, true)) && PyEq(JBool(true), JNum(1.0, false))
    ensures !PyEq(JStr("1"), JNum(1.0, false)) && !PyEq(JNull, JBool(false))
  {
  }
}
