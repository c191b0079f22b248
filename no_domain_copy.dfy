/** The domain-copy scan: the front-end sources under `src` and `app` must not
    contain campaign identifiers or Korean campaign phrases; every matching
    (line, pattern) pair is a finding, and any finding fails the scan. */
module NoDomainCopy {
  import opened PyJson
  import opened Paths

  // ------------------------------------------------------------ patterns

  /** A compiled pattern: its source text, the words it looks for (separated
      by any run of whitespace, `\s*`), and whether case is ignored. The
      case-insensitive patterns hold their words lower-cased. */
  datatype Pattern = Pattern(text: string, words: seq<string>, ignoreCase: bool)

  /** The seven patterns in list order; the Korean ones are kept in their
      source spelling with `\u` escapes as `pattern.pattern` reports them. */
  const Patterns: seq<Pattern> := [
    Pattern("NATURE_CAMPAIGN", ["nature_campaign"], true),
    Pattern("B2B_BROCHURE", ["b2b_brochure"], true),
    Pattern("B2B_SERVICE", ["b2b_service"], true),
    Pattern("\\uC790\\uC5F0\\uC744\\s*\\uC0AC\\uB791\\uD558\\uC790",
            ["\U{C790}\U{C5F0}\U{C744}", "\U{C0AC}\U{B791}\U{D558}\U{C790}"], false),
    Pattern("\\uC790\\uC5F0\\s*\\uCEA0\\uD398\\uC778",
            ["\U{C790}\U{C5F0}", "\U{CEA0}\U{D398}\U{C778}"], false),
    Pattern("\\uC784\\uC9C1\\uC6D0\\s*\\uB9DE\\uCDA4\\s*\\uAC74\\uAE30\\uC2DD",
            ["\U{C784}\U{C9C1}\U{C6D0}", "\U{B9DE}\U{CDA4}", "\U{AC74}\U{AE30}\U{C2DD}"], false),
    Pattern("\\uAC74\\uAE30\\uC2DD\\s*\\uC18C\\uBD84",
            ["\U{AC74}\U{AE30}\U{C2DD}", "\U{C18C}\U{BD84}"], false)
  ]

  /** The word's characters appear in s from index i on. */
  predicate CharsAt(s: string, w: string, i: nat)
    decreases |w|
  {
    w == [] || (i < |s| && s[i] == w[0] && CharsAt(s, w[1..], i + 1))
  }

  /** The words occur from index i on, each next one after a (possibly
      empty) run of whitespace. */
  predicate WordsAt(s: string, words: seq<string>, i: nat)
    decreases |words|, 0, 0
  {
    && |words| > 0
    && CharsAt(s, words[0], i)
    && (|words| == 1 || WordsAfterSpace(s, words[1..], i + |words[0]|))
  }

  /** `\s*` followed by the words: they occur at j, or s[j] is whitespace
      and they follow it. */
  predicate WordsAfterSpace(s: string, words: seq<string>, j: nat)
    decreases |words|, 1, |s| - j
  {
    && j <= |s|
    && (WordsAt(s, words, j) || (j < |s| && IsSpace(s[j]) && WordsAfterSpace(s, words, j + 1)))
  }

  /** The words occur at some index from i on. */
  predicate SearchFrom(s: string, words: seq<string>, i: nat)
    decreases |s| - i
  {
    && i <= |s|
    && (WordsAt(s, words, i) || (i < |s| && SearchFrom(s, words, i + 1)))
  }

  /** `pattern.search(line)` finds a match; a case-insensitive pattern is
      matched against the line with ASCII letters lower-cased. */
  predicate Matches(line: string, pat: Pattern) {
    SearchFrom(if pat.ignoreCase then Lower(line) else line, pat.words, 0)
  }

  // ----------------------------------------------------------- scan_file

  /** `{"file": ..., "line": ..., "pattern": ..., "snippet": ...}` */
  datatype Hit = Hit(file: string, line: int, pattern: string, snippet: string)

  /** The hit a matching line gives; `snip` turns the line into the
      snippet (the scan uses `Strip`). */
  function HitOf(path: string, number: int, line: string, pat: Pattern, snip: string -> string): Hit {
    Hit(path, number, pat.text, snip(line))
  }

  /** The hits of one line, in pattern-list order. */
  function LineHits(path: string, number: int, line: string, pats: seq<Pattern>, search: (string, Pattern) -> bool, snip: string -> string): seq<Hit> {
    if pats == [] then []
    else
      var pat := pats[|pats| - 1];
      LineHits(path, number, line, pats[..|pats| - 1], search, snip)
        + (if search(line, pat) then [HitOf(path, number, line, pat, snip)] else [])
  }

  /** The hits of a file's lines, numbered from 1, line by line. */
  function FileHits(path: string, lines: seq<string>, pats: seq<Pattern>, search: (string, Pattern) -> bool, snip: string -> string): seq<Hit> {
    if lines == [] then []
    else FileHits(path, lines[..|lines| - 1], pats, search, snip) + LineHits(path, |lines|, lines[|lines| - 1], pats, search, snip)
  }

  /** Every hit of a line carries that line's number, the file and the
      stripped line, and a hit exists for each matching pattern. */
  lemma {:induction false} LineHitsExact(path: string, number: int, line: string, pats: seq<Pattern>, search: (string, Pattern) -> bool, snip: string -> string, h: Hit)
    ensures h in LineHits(path, number, line, pats, search, snip) <==>
              exists k | 0 <= k < |pats| :: search(line, pats[k]) && h == HitOf(path, number, line, pats[k], snip)
  {
    if pats != [] {
      var m := |pats| - 1;
      var init := pats[..m];
      LineHitsExact(path, number, line, init, search, snip, h);
      assert LineHits(path, number, line, pats, search, snip) == LineHits(path, number, line, init, search, snip)
        + (if search(line, pats[m]) then [HitOf(path, number, line, pats[m], snip)] else []);
      if h in LineHits(path, number, line, init, search, snip) {
        var k :| 0 <= k < |init| && search(line, init[k]) && h == HitOf(path, number, line, init[k], snip);
        assert init[k] == pats[k];
      }
      if exists k | 0 <= k < |pats| :: search(line, pats[k]) && h == HitOf(path, number, line, pats[k], snip) {
        var k :| 0 <= k < |pats| && search(line, pats[k]) && h == HitOf(path, number, line, pats[k], snip);
        if k < m {
          assert init[k] == pats[k];
        }
      }
    }
  }

  /** One more pattern adds its hit when the line matches it. */
  lemma LineHitsStep(path: string, number: int, line: string, pats: seq<Pattern>, search: (string, Pattern) -> bool, snip: string -> string, k: nat)
    requires k < |pats|
    ensures LineHits(path, number, line, pats[..k + 1], search, snip) == LineHits(path, number, line, pats[..k], search, snip)
              + (if search(line, pats[k]) then [HitOf(path, number, line, pats[k], snip)] else [])
  {
    assert pats[..k + 1][..k] == pats[..k];
  }

  /** Within a line, hits follow the pattern list. */
  lemma {:induction false} LineHitsAppend(path: string, number: int, line: string, a: seq<Pattern>, b: seq<Pattern>, search: (string, Pattern) -> bool, snip: string -> string)
    ensures LineHits(path, number, line, a + b, search, snip) == LineHits(path, number, line, a, search, snip) + LineHits(path, number, line, b, search, snip)
  {
    if b != [] {
      var b0 := b[..|b| - 1];
      assert (a + b)[..|a + b| - 1] == a + b0;
      LineHitsAppend(path, number, line, a, b0, search, snip);
    } else {
      assert a + b == a;
    }
  }

  /** A line has no hit exactly when it matches no pattern. */
  lemma {:induction false} LineHitsEmpty(path: string, number: int, line: string, pats: seq<Pattern>, search: (string, Pattern) -> bool, snip: string -> string)
    ensures LineHits(path, number, line, pats, search, snip) == [] <==> forall k | 0 <= k < |pats| :: !search(line, pats[k])
  {
    if pats != [] {
      var init := pats[..|pats| - 1];
      LineHitsEmpty(path, number, line, init, search, snip);
      assert forall k | 0 <= k < |init| :: init[k] == pats[k];
    }
  }

  /** Every hit of a line carries that line's number. */
  lemma {:induction false} LineHitsNumbered(path: string, number: int, line: string, pats: seq<Pattern>, search: (string, Pattern) -> bool, snip: string -> string)
    ensures forall a | 0 <= a < |LineHits(path, number, line, pats, search, snip)| ::
              LineHits(path, number, line, pats, search, snip)[a].line == number && LineHits(path, number, line, pats, search, snip)[a].file == path
  {
    if pats != [] {
      LineHitsNumbered(path, number, line, pats[..|pats| - 1], search, snip);
    }
  }

  /** All hits name the file and a line between 1 and n. */
  predicate NumberedWithin(hs: seq<Hit>, path: string, n: int) {
    forall a | 0 <= a < |hs| :: 1 <= hs[a].line <= n && hs[a].file == path
  }

  /** Line numbers never decrease along the hits. */
  predicate LinesAscending(hs: seq<Hit>) {
    forall a, b | 0 <= a < b < |hs| :: hs[a].line <= hs[b].line
  }

  /** A file's hits carry 1-based line numbers within the file, in
      non-decreasing order, and all name the file. */
  lemma {:induction false} FileHitsOrdered(path: string, lines: seq<string>, pats: seq<Pattern>, search: (string, Pattern) -> bool, snip: string -> string)
    ensures NumberedWithin(FileHits(path, lines, pats, search, snip), path, |lines|)
    ensures LinesAscending(FileHits(path, lines, pats, search, snip))
  {
    if lines != [] {
      var n := |lines|;
      var init := lines[..n - 1];
      FileHitsOrdered(path, init, pats, search, snip);
      LineHitsNumbered(path, n, lines[n - 1], pats, search, snip);
      var front := FileHits(path, init, pats, search, snip);
      var back := LineHits(path, n, lines[n - 1], pats, search, snip);
      var hs := front + back;
      assert hs == FileHits(path, lines, pats, search, snip);
      assert NumberedWithin(front, path, n - 1);
      forall a | 0 <= a < |hs|
        ensures 1 <= hs[a].line <= n && hs[a].file == path
        ensures a < |front| ==> hs[a].line <= n - 1
        ensures a >= |front| ==> hs[a].line == n
      {
        if a < |front| {
          assert hs[a] == front[a];
        } else {
          assert hs[a] == back[a - |front|];
        }
      }
    }
  }

  /** The hits of each line, the line at index n carrying number n + 1. */
  function PerLineHits(path: string, lines: seq<string>, pats: seq<Pattern>, search: (string, Pattern) -> bool, snip: string -> string): (r: seq<seq<Hit>>)
    ensures |r| == |lines|
  {
    seq(|lines|, n requires 0 <= n < |lines| => LineHits(path, n + 1, lines[n], pats, search, snip))
  }

  /** A file's hits are its lines' hits joined in line order. */
  lemma {:induction false} FileHitsFlatten(path: string, lines: seq<string>, pats: seq<Pattern>, search: (string, Pattern) -> bool, snip: string -> string)
    ensures FileHits(path, lines, pats, search, snip) == Flatten(PerLineHits(path, lines, pats, search, snip))
  {
    if lines != [] {
      var m := |lines| - 1;
      FileHitsFlatten(path, lines[..m], pats, search, snip);
      assert PerLineHits(path, lines, pats, search, snip)[..m] == PerLineHits(path, lines[..m], pats, search, snip);
    }
  }

  /** A hit of the file is a hit of one of its lines, that line carrying its
      1-based number. */
  lemma FileHitsExact(path: string, lines: seq<string>, pats: seq<Pattern>, search: (string, Pattern) -> bool, snip: string -> string, h: Hit)
    ensures h in FileHits(path, lines, pats, search, snip) <==>
              exists n | 0 <= n < |lines| :: h in LineHits(path, n + 1, lines[n], pats, search, snip)
  {

  }

  /** So a file's hits are exactly one per matching (line, pattern) pair,
      recording the line's number and its stripped text. */
  lemma FileHitsMatch(path: string, lines: seq<string>, pats: seq<Pattern>, search: (string, Pattern) -> bool, snip: string -> string, h: Hit)
    ensures h in FileHits(path, lines, pats, search, snip) <==>
              exists n, k | 0 <= n < |lines| && 0 <= k < |pats| ::
                search(lines[n], pats[k]) && h == HitOf(path, n + 1, lines[n], pats[k], snip)
  {
    FileHitsExact(path, lines, pats, search, snip, h);
    forall n | 0 <= n < |lines| {
      LineHitsExact(path, n + 1, lines[n], pats, search, snip, h);
    }
  }

  /** A file has no hit exactly when none of its lines matches a pattern. */
  lemma FileHitsEmpty(path: string, lines: seq<string>, pats: seq<Pattern>, search: (string, Pattern) -> bool, snip: string -> string)
    ensures FileHits(path, lines, pats, search, snip) == [] <==>
              forall n, k | 0 <= n < |lines| && 0 <= k < |pats| :: !search(lines[n], pats[k])
  {
    FileHitsFlatten(path, lines, pats, search, snip);
    FlattenEmpty(PerLineHits(path, lines, pats, search, snip));
    forall n | 0 <= n < |lines| {
      LineHitsEmpty(path, n + 1, lines[n], pats, search, snip);
    }
  }

  /** The pattern loop of one line, appending to the hits found so far. */
  method AppendLineHits(hits: seq<Hit>, path: string, number: int, line: string) returns (hits': seq<Hit>)
    ensures hits' == hits + LineHits(path, number, line, Patterns, Matches, Strip)
  {
    hits' := hits;
    var k := 0;
    while k < |Patterns|
      invariant 0 <= k <= |Patterns|
      invariant hits' == hits + LineHits(path, number, line, Patterns[..k], Matches, Strip)
    {
      LineHitsStep(path, number, line, Patterns, Matches, Strip, k);
      var pattern := Patterns[k];
      if Matches(line, pattern) {
        hits' := hits' + [Hit(path, number, pattern.text, Strip(line))];
      }
      k := k + 1;
    }
    assert Patterns[..k] == Patterns;
  }

  /** `scan_file` over the file's lines as `splitlines` yields them. */
  method ScanFile(path: string, lines: seq<string>) returns (hits: seq<Hit>)
    ensures hits == FileHits(path, lines, Patterns, Matches, Strip)
  {
    hits := [];
    var index := 1;
    while index <= |lines|
      invariant 1 <= index <= |lines| + 1
      invariant hits == FileHits(path, lines[..index - 1], Patterns, Matches, Strip)
    {
      assert lines[..index][..index - 1] == lines[..index - 1];
      hits := AppendLineHits(hits, path, index, lines[index - 1]);
      index := index + 1;
    }
    assert lines[..index - 1] == lines;
  }

  // ---------------------------------------------------------------- main

  const TargetDirs: seq<string> := ["src", "app"]
  const AllowedExtensions: set<string> := {".ts", ".tsx", ".js", ".jsx"}

  /** One path a recursive walk yields: a file with its lines, or something
      that is not a file. */
  datatype Entry = Entry(path: string, isFile: bool, lines: seq<string>)

  /** A walked path that is scanned: a file with an allowed suffix, ignoring case. */
  predicate Scanned(e: Entry) {
    e.isFile && HasExtension(e.path, AllowedExtensions)
  }

  /** The hits of one walked file. */
  function EntryHits(e: Entry): seq<Hit> {
    FileHits(e.path, e.lines, Patterns, Matches, Strip)
  }

  /** The findings of one directory's walk, entry by entry. */
  function DirFindings(entries: seq<Entry>): seq<Hit> {
    Gather(entries, Scanned, EntryHits)
  }

  /** The findings of the target directories that exist (those present in
      the tree), in target order. */
  function Findings(tree: map<string, seq<Entry>>, dirs: seq<string>): seq<Hit> {
    if dirs == [] then []
    else
      var d := dirs[|dirs| - 1];
      Findings(tree, dirs[..|dirs| - 1]) + (if d in tree then DirFindings(tree[d]) else [])
  }

  /** A directory has no finding exactly when no scanned file has a matching line. */
  lemma DirFindingsEmpty(entries: seq<Entry>)
    ensures DirFindings(entries) == [] <==>
              forall i | 0 <= i < |entries| && Scanned(entries[i]) :: EntryHits(entries[i]) == []
  {
    GatherEmpty(entries, Scanned, EntryHits);
  }

  /** No finding at all exactly when every existing target directory's walk
      is clean. */
  lemma {:induction false} FindingsEmpty(tree: map<string, seq<Entry>>, dirs: seq<string>)
    ensures Findings(tree, dirs) == [] <==>
              forall i | 0 <= i < |dirs| && dirs[i] in tree :: DirFindings(tree[dirs[i]]) == []
  {
    if dirs != [] {
      var init := dirs[..|dirs| - 1];
      FindingsEmpty(tree, init);
      assert forall i | 0 <= i < |init| :: init[i] == dirs[i];
    }
  }

  /** The scan passes exactly when no line of a scanned file under an
      existing target directory matches any pattern. */
  lemma PassedMeansClean(tree: map<string, seq<Entry>>, d: string, e: Entry)
    requires Findings(tree, TargetDirs) == []
    requires d in TargetDirs && d in tree && e in tree[d] && Scanned(e)
    ensures forall n, k | 0 <= n < |e.lines| && 0 <= k < |Patterns| :: !Matches(e.lines[n], Patterns[k])
  {
    FindingsEmpty(tree, TargetDirs);
    var i :| 0 <= i < |TargetDirs| && TargetDirs[i] == d;
    DirFindingsEmpty(tree[d]);
    var j :| 0 <= j < |tree[d]| && tree[d][j] == e;
    FileHitsEmpty(e.path, e.lines, Patterns, Matches, Strip);
  }

  /** One walked path: a file with an allowed suffix is scanned and its hits
      extend the findings; anything else is passed over. */
  method ScanEntry(findings: seq<Hit>, path: Entry) returns (findings': seq<Hit>)
    ensures findings' == findings + (if Scanned(path) then EntryHits(path) else [])
  {
    findings' := findings;
    if path.isFile && Lower(Suffix(path.path)) in AllowedExtensions {
      var hits := ScanFile(path.path, path.lines);
      findings' := findings' + hits;
    }
  }

  /** The walk of one directory, extending the findings so far. */
  method ScanDir(findings: seq<Hit>, entries: seq<Entry>) returns (findings': seq<Hit>)
    ensures findings' == findings + DirFindings(entries)
  {
    findings' := findings;
    var i := 0;
    while i < |entries|
      invariant 0 <= i <= |entries|
      invariant findings' == findings + DirFindings(entries[..i])
    {
      GatherExtend(findings, entries, Scanned, EntryHits, i);
      findings' := ScanEntry(findings', entries[i]);
      i := i + 1;
    }
    assert entries[..i] == entries;
  }

  /** `main`: the findings of every scanned file, the verdict, the count and
      the exit status. */
  method RunProof(tree: map<string, seq<Entry>>)
    returns (passed: bool, findingCount: int, findings: seq<Hit>, exitCode: int)
    ensures findings == Findings(tree, TargetDirs)
    ensures passed <==> findings == []
    ensures findingCount == |findings|
    ensures exitCode == (if findings == [] then 0 else 1)
  {
    findings := [];
    var i := 0;
    while i < |TargetDirs|
      invariant 0 <= i <= |TargetDirs|
      invariant findings == Findings(tree, TargetDirs[..i])
    {
      assert TargetDirs[..i + 1][..i] == TargetDirs[..i];
      var directory := TargetDirs[i];
      if directory in tree {
        findings := ScanDir(findings, tree[directory]);
      }
      i := i + 1;
    }
    assert TargetDirs[..i] == TargetDirs;
    passed := |findings| == 0;
    findingCount := |findings|;
    exitCode := if |findings| > 0 then 1 else 0;
  }
}
