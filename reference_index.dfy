/** The reference-index proof: after one reference image is touched, an export
    must be rejected because the reference index is stale, and after a
    rebuild the export must go through again. */
module ReferenceIndex {
  import opened PyJson
  import opened Transport
  import opened Paths

  const ImageExtensions: set<string> := {".png", ".jpg", ".jpeg", ".webp"}

  /** A file `touch_one_reference` considers: an image by its lower-cased suffix. */
  predicate IsImage(p: string) {
    HasExtension(p, ImageExtensions)
  }

  /** The sort key: the lower-cased POSIX path. */
  function Key(p: string): string {
    Lower(p)
  }

  // ------------------------------------------------- reference selection

  /** The index of the first element of the present keys sorted in order,
      -1 when no key is present. Python's sort is stable, so among equal
      keys the earliest wins: a later key replaces the choice only when it
      is strictly smaller. */
  function FirstIndex(keys: seq<Option<string>>): (r: int)
    ensures -1 <= r < |keys|
    ensures r >= 0 ==> keys[r].Some?
  {
    if keys == [] then -1
    else
      var best := FirstIndex(keys[..|keys| - 1]);
      var key := keys[|keys| - 1];
      if key.None? then best
      else if best < 0 || LexLess(key.value, keys[best].value) then |keys| - 1
      else best
  }

  /** Key k is present and smallest, and every earlier present key is
      strictly larger: k heads the stably sorted keys. */
  predicate FirstMinimal(keys: seq<Option<string>>, k: int) {
    && 0 <= k < |keys|
    && keys[k].Some?
    && (forall j | 0 <= j < |keys| && keys[j].Some? :: !LexLess(keys[j].value, keys[k].value))
    && (forall j | 0 <= j < k && keys[j].Some? :: LexLess(keys[k].value, keys[j].value))
  }

  /** A new key strictly below the current choice heads the sorted keys. */
  lemma NewMinimum(keys: seq<Option<string>>, k: int)
    requires keys != [] && FirstMinimal(keys[..|keys| - 1], k)
    requires keys[|keys| - 1].Some? && LexLess(keys[|keys| - 1].value, keys[k].value)
    ensures FirstMinimal(keys, |keys| - 1)
  {
    var n := |keys| - 1;
    var init := keys[..n];
    var p := keys[n].value;
    forall j | 0 <= j < n && keys[j].Some?
      ensures LexLess(p, keys[j].value)
    {
      assert init[j] == keys[j];
      if keys[j].value != keys[k].value {
        LexLessTotal(keys[j].value, keys[k].value);
        LexLessTransitive(p, keys[k].value, keys[j].value);
      }
    }
    forall j | 0 <= j < |keys| && keys[j].Some?
      ensures !LexLess(keys[j].value, p)
    {
      if j < n {
        LexLessAsymmetric(p, keys[j].value);
      } else {
        LexLessIrreflexive(p);
      }
    }
  }

  /** A missing key, or one not strictly below the current choice, leaves
      the choice heading the sorted keys. */
  lemma KeepMinimum(keys: seq<Option<string>>, k: int)
    requires keys != [] && FirstMinimal(keys[..|keys| - 1], k)
    requires !(keys[|keys| - 1].Some? && LexLess(keys[|keys| - 1].value, keys[k].value))
    ensures FirstMinimal(keys, k)
  {

  }

  /** The chosen index is -1 exactly when no key is present, and otherwise
      heads the stably sorted present keys. */
  lemma {:induction false} FirstIndexIsFirstSorted(keys: seq<Option<string>>)
    ensures FirstIndex(keys) == -1 <==> forall j | 0 <= j < |keys| :: keys[j].None?
    ensures FirstIndex(keys) >= 0 ==> FirstMinimal(keys, FirstIndex(keys))
  {
    if keys != [] {
      var n := |keys| - 1;
      var init := keys[..n];
      assert forall j | 0 <= j < n :: init[j] == keys[j];
      FirstIndexIsFirstSorted(init);
      var best := FirstIndex(init);
      if best >= 0 {
        if keys[n].Some? && LexLess(keys[n].value, keys[best].value) {
          NewMinimum(keys, best);
        } else {
          KeepMinimum(keys, best);
        }
      } else if keys[n].Some? {
        LexLessIrreflexive(keys[n].value);
      }
    }
  }

  /** The sort keys of the candidates; None for a file that is not an image. */
  function ReferenceKeys(files: seq<string>): (keys: seq<Option<string>>)
    ensures |keys| == |files|
  {
    seq(|files|, j requires 0 <= j < |files| => if IsImage(files[j]) then Some(Key(files[j])) else None)
  }

  /** `touch_one_reference`'s target: the first image in key order, None
      when there is no image. */
  function FirstReference(files: seq<string>): Option<string> {
    var k := FirstIndex(ReferenceKeys(files));
    if k < 0 then None else Some(files[k])
  }

  predicate NoImage(files: seq<string>) {
    forall j | 0 <= j < |files| :: !IsImage(files[j])
  }

  /** The target is None exactly when no file is an image; otherwise it is
      the file whose key heads the stably sorted image keys: an image with
      the smallest key, every earlier image having a strictly larger one. */
  lemma FirstReferenceIsFirstSorted(files: seq<string>)
    ensures FirstReference(files).None? <==> NoImage(files)
    ensures FirstReference(files).Some? ==> exists k | 0 <= k < |files| ::
              FirstReference(files).value == files[k] && IsImage(files[k]) && FirstMinimal(ReferenceKeys(files), k)
  {
    var keys := ReferenceKeys(files);
    FirstIndexIsFirstSorted(keys);
    forall j | 0 <= j < |files| ensures keys[j].None? <==> !IsImage(files[j]) {
    }
    var k := FirstIndex(keys);
    if k >= 0 {
      assert IsImage(files[k]);
    }
  }

  // ----------------------------------------------------------- gate issue

  const FreshnessMarker := "reference index must be fresh"

  /** `has_reference_gate_issue` */
  method HasReferenceGateIssue(resp: Response) returns (found: bool)
    ensures found <==> MentionsMarker(resp.body, FreshnessMarker)
    ensures !HasIssueList(resp.body) ==> !found
  {
    found := ScanIssues(resp, FreshnessMarker);
  }

  // --------------------------------------------------------------- output

  /** `(index or {}).get("referenceCount")`; the index is None when the file
      is missing or does not parse. */
  function ReferenceCount(index: Json): (c: Json)
    requires OrDict(index)
    ensures index == JNull ==> c == JNull
    ensures index.JObj? ==> c == Get(index, "referenceCount")
  {
    GetOrEmpty(index, "referenceCount")
  }

  datatype Outcome = Outcome(
    referenceIndexExists: bool,
    referenceCount: Json,
    touchedReference: Option<string>,
    staleExportStatus: int,
    staleBlockedByReferenceGate: bool,
    rebuildExportStatus: int,
    rebuildUnblocked: bool,
    rebuildReferenceCount: Json,
    staleReferenceUsage: Json)

  /** `main` after its side effects: the index read before and after the
      rebuild, the files under `references` in walk order, and the two
      exports. */
  method RunProof(initialIndex: Json, files: seq<string>, stale: Response, rebuilt: Response, rebuiltIndex: Json)
    returns (out: Outcome)
    requires OrDict(initialIndex) && OrDict(rebuiltIndex) && OrDict(stale.body)
    ensures out.referenceIndexExists <==> initialIndex != JNull
    ensures out.referenceCount == ReferenceCount(initialIndex)
    ensures out.touchedReference == FirstReference(files)
    ensures out.staleExportStatus == stale.status
    ensures out.staleBlockedByReferenceGate <==> MentionsMarker(stale.body, FreshnessMarker)
    ensures out.rebuildExportStatus == rebuilt.status
    ensures out.rebuildUnblocked <==> rebuilt.status == 200
    ensures out.rebuildReferenceCount == ReferenceCount(rebuiltIndex)
    ensures out.staleReferenceUsage == GetOrEmpty(stale.body, "referenceUsageReport")
  {
    var touched := FirstReference(files);
    var blocked := HasReferenceGateIssue(stale);
    out := Outcome(
      initialIndex != JNull,
      ReferenceCount(initialIndex),
      touched,
      stale.status,
      blocked,
      rebuilt.status,
      rebuilt.status == 200,
      ReferenceCount(rebuiltIndex),
      GetOrEmpty(stale.body, "referenceUsageReport"));
  }
}
