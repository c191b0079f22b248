/** POSIX path strings as `pathlib` reads them: the final component, its
    suffix, and the code-point order Python uses to sort strings. */
module Paths {
  import opened PyJson

  /** The index of the last occurrence of c, -1 when there is none. */
  function LastIndexOf(s: string, c: char): (r: int)
    ensures -1 <= r < |s|
  {
    if s == [] then -1
    else if s[|s| - 1] == c then |s| - 1
    else LastIndexOf(s[..|s| - 1], c)
  }

  /** The index found holds c and no later character does. */
  lemma {:induction false} LastIndexOfIsLast(s: string, c: char)
    ensures LastIndexOf(s, c) >= 0 ==> s[LastIndexOf(s, c)] == c
    ensures forall j | LastIndexOf(s, c) < j < |s| :: s[j] != c
  {
    if s != [] && s[|s| - 1] != c {
      LastIndexOfIsLast(s[..|s| - 1], c);
    }
  }

  /** `path.name`: the text after the last slash. */
  function Name(p: string): string {
    p[LastIndexOf(p, '/') + 1..]
  }

  /** `path.suffix`: from the last dot of the name, unless that dot opens the
      name or ends it, in which case there is no suffix. */
  function Suffix(p: string): string {
    var name := Name(p);
    var i := LastIndexOf(name, '.');
    if 0 < i < |name| - 1 then name[i..] else ""
  }

  /** The name holds no slash and ends the path. */
  lemma NameShape(p: string)
    ensures forall j | 0 <= j < |Name(p)| :: Name(p)[j] != '/'
    ensures |Name(p)| <= |p| && Name(p) == p[|p| - |Name(p)|..]
  {
    LastIndexOfIsLast(p, '/');
    var i := LastIndexOf(p, '/');
    assert forall j | 0 <= j < |Name(p)| :: Name(p)[j] == p[i + 1 + j];
  }

  /** A suffix, when there is one, ends the name, starts with its only dot
      and has at least one character after it. */
  lemma SuffixShape(p: string)
    ensures var name, sfx := Name(p), Suffix(p);
      && |sfx| <= |name| && sfx == name[|name| - |sfx|..]
      && (sfx != "" ==> 2 <= |sfx| && sfx[0] == '.')
      && (sfx != "" ==> forall j | 1 <= j < |sfx| :: sfx[j] != '.')
  {
    var name := Name(p);
    LastIndexOfIsLast(name, '.');
    var i := LastIndexOf(name, '.');
    if 0 < i < |name| - 1 {
      assert forall j | 1 <= j < |name| - i :: name[i..][j] == name[i + j];
    }
  }

  /** `path.suffix.lower() in extensions` */
  predicate HasExtension(p: string, extensions: set<string>) {
    Lower(Suffix(p)) in extensions
  }

  // -------------------------------------------------------- string order

  /** Python's `a < b` on strings: code point by code point, a proper prefix
      first. */
  predicate LexLess(a: string, b: string) {
    if a == [] then b != []
    else if b == [] then false
    else if a[0] != b[0] then a[0] < b[0]
    else LexLess(a[1..], b[1..])
  }

  lemma {:induction false} LexLessIrreflexive(a: string)
    ensures !LexLess(a, a)
  {
    if a != [] {
      LexLessIrreflexive(a[1..]);
    }
  }

  lemma {:induction false} LexLessAsymmetric(a: string, b: string)
    requires LexLess(a, b)
    ensures !LexLess(b, a)
  {
    if a != [] && b != [] && a[0] == b[0] {
      LexLessAsymmetric(a[1..], b[1..]);
    }
  }

  lemma {:induction false} LexLessTransitive(a: string, b: string, c: string)
    requires LexLess(a, b) && LexLess(b, c)
    ensures LexLess(a, c)
  {
    if a != [] && b != [] && c != [] && a[0] == b[0] && b[0] == c[0] {
      LexLessTransitive(a[1..], b[1..], c[1..]);
    }
  }

  /** Two different strings are ordered one way or the other. */
  lemma {:induction false} LexLessTotal(a: string, b: string)
    requires a != b
    ensures LexLess(a, b) || LexLess(b, a)
  {
    if a != [] && b != [] && a[0] == b[0] {
      assert a == [a[0]] + a[1..] && b == [b[0]] + b[1..];
      LexLessTotal(a[1..], b[1..]);
    }
  }
}
