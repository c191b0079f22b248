/** The job-isolation proof: two jobs that differ only in job id and seed are
    exported one after the other, and the flags record whether they got
    different hashes, whether the first job's files survived the second run
    unchanged, and whether each job's layout names its own request hash. */
module JobIsolation {
  import opened PyJson
  import opened Transport

  // ------------------------------------------------------------ payloads

  /** `qa_payload(job_id, seed)` */
  function QaPayload(jobId: string, seed: string): map<string, string> {
    map[
      "jobId" := jobId,
      "docKind" := "brochure",
      "pageCount" := "exact(2)",
      "title" := "QA_Job_Isolation",
      "language" := "ko",
      "tone" := "concise",
      "constraints" := "no-fabricated-numbers,bullet-centric-copy",
      "variantIndex" := "1",
      "seed" := seed,
      "pageSizePreset" := "A4P",
      "pageWidthMm" := "210",
      "pageHeightMm" := "297"
    ]
  }

  /** Two jobs' payloads have the same fields and differ at most in `jobId`
      and `seed`, which carry the arguments. */
  lemma PayloadsDifferOnlyInJobAndSeed(jobA: string, seedA: string, jobB: string, seedB: string)
    ensures QaPayload(jobA, seedA).Keys == QaPayload(jobB, seedB).Keys
    ensures forall k | k in QaPayload(jobA, seedA) && k != "jobId" && k != "seed" ::
              QaPayload(jobA, seedA)[k] == QaPayload(jobB, seedB)[k]
    ensures QaPayload(jobA, seedA)["jobId"] == jobA && QaPayload(jobA, seedA)["seed"] == seedA
    ensures QaPayload(jobB, seedB)["jobId"] == jobB && QaPayload(jobB, seedB)["seed"] == seedB
  {
  }

  /** The two regenerate queries differ likewise only in `jobId` and `seed`. */
  lemma TriggerQueriesDifferOnlyInJobAndSeed(jobA: string, seedA: string, jobB: string, seedB: string)
    ensures TriggerKeys <= QaPayload(jobA, seedA).Keys && TriggerKeys <= QaPayload(jobB, seedB).Keys
    ensures var qa, qb := TriggerQuery(QaPayload(jobA, seedA)), TriggerQuery(QaPayload(jobB, seedB));
      && qa.Keys == qb.Keys
      && (forall k | k in qa && k != "jobId" && k != "seed" :: qa[k] == qb[k])
      && qa["jobId"] == jobA && qb["jobId"] == jobB && qa["seed"] == seedA && qb["seed"] == seedB
  {
    PayloadsDifferOnlyInJobAndSeed(jobA, seedA, jobB, seedB);
  }

  // --------------------------------------------------------------- files

  const JobRoot := "src/generated/jobs"

  /** The directory of a job, `JOB_ROOT / h`. */
  function JobDir(h: string): string {
    JobRoot + "/" + h
  }

  const LayoutName := "layout.json"
  const AuditName := "export-audit.json"

  /** `job_files(h)`: the layout and the export audit of one job. */
  function JobFiles(h: string): (string, string) {
    (JobDir(h) + "/" + LayoutName, JobDir(h) + "/" + AuditName)
  }

  /** A name without a slash: one path component, or none when empty. */
  predicate SlashFree(h: string) {
    forall i | 0 <= i < |h| :: h[i] != '/'
  }

  /** A hash that pathlib joins as exactly one directory below the root: an
      empty name or "." would be dropped (so "" and "." share the root's
      files), and ".." would name the root's parent. */
  predicate PlainName(h: string) {
    h != "" && h != "." && h != ".." && SlashFree(h)
  }

  /** The index of the first slash, |s| when there is none. */
  function FirstSlash(s: string): (i: nat)
    ensures i <= |s|
  {
    if s == [] then 0
    else if s[0] == '/' then 0
    else 1 + FirstSlash(s[1..])
  }

  /** The first slash after a slash-free name is the one that follows it. */
  lemma {:induction false} FirstSlashAfterName(x: string, rest: string)
    requires SlashFree(x)
    ensures FirstSlash(x + "/" + rest) == |x|
  {
    if x != [] {
      assert (x + "/" + rest)[1..] == x[1..] + "/" + rest;
      FirstSlashAfterName(x[1..], rest);
    }
  }

  /** The path below the job root. */
  function BelowRoot(path: string): string {
    if |path| > |JobRoot| then path[|JobRoot| + 1..] else ""
  }

  /** The job directory a path below the root lies in. */
  function JobOf(path: string): string {
    var r := BelowRoot(path);
    r[..FirstSlash(r)]
  }

  /** The rest of a path after its job directory. */
  function FileOf(path: string): string {
    var r := BelowRoot(path);
    if FirstSlash(r) < |r| then r[FirstSlash(r) + 1..] else ""
  }

  /** A file of a slash-free job directory names that job and that file. */
  lemma JobFileParts(h: string, name: string)
    requires SlashFree(h)
    ensures JobOf(JobDir(h) + "/" + name) == h
    ensures FileOf(JobDir(h) + "/" + name) == name
  {
    var path := JobDir(h) + "/" + name;
    assert BelowRoot(path) == h + "/" + name;
    FirstSlashAfterName(h, name);
  }

  /** A job's two files are distinct, and no file of one plain-named job is
      a file of another. */
  lemma JobFilesIsolated(h1: string, h2: string)
    requires PlainName(h1) && PlainName(h2)
    ensures JobFiles(h1).0 != JobFiles(h1).1
    ensures JobFiles(h1).0 != JobFiles(h2).1
    ensures JobFiles(h1).0 == JobFiles(h2).0 ==> h1 == h2
    ensures JobFiles(h1).1 == JobFiles(h2).1 ==> h1 == h2
  {
    JobFileParts(h1, LayoutName);
    JobFileParts(h1, AuditName);
    JobFileParts(h2, LayoutName);
    JobFileParts(h2, AuditName);
    assert LayoutName[0] != AuditName[0];
  }

  /** A file of the job tree as the script can observe it: the SHA-256 hex
      digest of its bytes, and its content as `json.loads` parses it (None
      when it does not parse). */
  datatype StoredFile = StoredFile(digest: string, parsed: Option<Json>)

  /** The job tree at one moment: the files that exist, by path. */
  type Snapshot = map<string, StoredFile>

  /** `sha256_file(path)`: None when the file does not exist. */
  function Digest(fs: Snapshot, path: string): (d: Option<string>)
    ensures d.None? <==> path !in fs
  {
    if path in fs then Some(fs[path].digest) else None
  }

  /** A parsed layout on which `(parsed.get("params") or {}).get(...)` does not raise. */
  predicate ParamsReadable(j: Json) {
    j.JObj? && OrDict(Get(j, "params"))
  }

  /** The layout of job h, when it parses, can be read for its params. */
  predicate LayoutReadableFor(fs: Snapshot, h: Json) {
    h.JStr? && JobFiles(h.s).0 in fs && fs[JobFiles(h.s).0].parsed.Some? ==>
      ParamsReadable(fs[JobFiles(h.s).0].parsed.value)
  }

  /** `params.requestHash` of a parsed layout, None when params is missing. */
  function ParamsHash(j: Json): Json
    requires ParamsReadable(j)
  {
    GetOrEmpty(Get(j, "params"), "requestHash")
  }

  // --------------------------------------------------------------- flags

  datatype Flags = Flags(
    runA: RunRecord,
    runB: RunRecord,
    hashesDifferent: bool,
    jobAFilesStable: bool,
    jobBFilesExist: bool,
    layoutAHashMatches: bool,
    layoutBHashMatches: bool)

  /** The layout of job h exists in the snapshot, parses, and its params
      carry h as their request hash. */
  predicate LayoutNamesHash(fs: Snapshot, h: Json)
    requires LayoutReadableFor(fs, h)
  {
    && h.JStr?
    && JobFiles(h.s).0 in fs
    && fs[JobFiles(h.s).0].parsed.Some?
    && ParamsHash(fs[JobFiles(h.s).0].parsed.value) == h
  }

  /** The layout check of `main` for one job, after both exports. */
  method LayoutHashMatches(fs: Snapshot, h: Json) returns (matches: bool)
    requires LayoutReadableFor(fs, h)
    ensures matches <==> LayoutNamesHash(fs, h)
    ensures !h.JStr? ==> !matches
  {
    matches := false;
    if h.JStr? {
      var (layoutFile, _) := JobFiles(h.s);
      if layoutFile in fs {
        var parsed := fs[layoutFile].parsed;
        if parsed.Some? {
          matches := ParamsHash(parsed.value) == h;
        }
      }
    }
  }

  /** `main` after the two exports: `before` is the job tree after job A's
      export, `after` the tree after job B's. */
  method RunProof(replyA: Reply, replyB: Reply, before: Snapshot, after: Snapshot) returns (out: Flags)
    requires RecordableReply(replyA) && RecordableReply(replyB)
    requires LayoutReadableFor(after, Record(replyA).requestHash)
    requires LayoutReadableFor(after, Record(replyB).requestHash)
    ensures out.runA == Record(replyA) && out.runB == Record(replyB)
    ensures out.hashesDifferent <==>
              out.runA.requestHash.JStr? && out.runB.requestHash.JStr? && out.runA.requestHash != out.runB.requestHash
    ensures out.jobAFilesStable <==>
              && out.runA.requestHash.JStr?
              && var (layout, audit) := JobFiles(out.runA.requestHash.s);
                 && layout in before && audit in before && layout in after && audit in after
                 && before[layout].digest == after[layout].digest
                 && before[audit].digest == after[audit].digest
    ensures out.jobBFilesExist <==>
              && out.runB.requestHash.JStr?
              && JobFiles(out.runB.requestHash.s).0 in after
              && JobFiles(out.runB.requestHash.s).1 in after
    ensures out.layoutAHashMatches <==> LayoutNamesHash(after, out.runA.requestHash)
    ensures out.layoutBHashMatches <==> LayoutNamesHash(after, out.runB.requestHash)
  {
    var runA := Record(replyA);
    var hashA := runA.requestHash;
    var layoutABefore: Option<string> := None;
    var auditABefore: Option<string> := None;
    if hashA.JStr? {
      var (layoutFileA, auditFileA) := JobFiles(hashA.s);
      layoutABefore := Digest(before, layoutFileA);
      auditABefore := Digest(before, auditFileA);
    }

    var runB := Record(replyB);
    var hashB := runB.requestHash;

    var layoutAAfter: Option<string> := None;
    var auditAAfter: Option<string> := None;
    var layoutBExists := false;
    var auditBExists := false;
    if hashA.JStr? {
      var (layoutFileA, auditFileA) := JobFiles(hashA.s);
      layoutAAfter := Digest(after, layoutFileA);
      auditAAfter := Digest(after, auditFileA);
    }
    var layoutAHashMatches := LayoutHashMatches(after, hashA);
    if hashB.JStr? {
      var (layoutFileB, auditFileB) := JobFiles(hashB.s);
      layoutBExists := layoutFileB in after;
      auditBExists := auditFileB in after;
    }
    var layoutBHashMatches := LayoutHashMatches(after, hashB);

    out := Flags(
      runA, runB,
      hashA.JStr? && hashB.JStr? && hashA != hashB,
      layoutABefore.Some? && auditABefore.Some? && layoutABefore == layoutAAfter && auditABefore == auditAAfter,
      layoutBExists && auditBExists,
      layoutAHashMatches,
      layoutBHashMatches);
  }

  /** On two completed exports the hashes are the request-hash headers: the
      jobs count as different exactly when both headers are present and
      carry different values. */
  lemma CompletedHashesDifferent(rawA: seq<(string, string)>, rawB: seq<(string, string)>)
    ensures var a, b := Record(Completed(200, rawA)), Record(Completed(200, rawB));
      var ha, hb := Normalize(Completed(200, rawA)).headers, Normalize(Completed(200, rawB)).headers;
      (a.requestHash.JStr? && b.requestHash.JStr? && a.requestHash != b.requestHash) <==>
        (RequestHashHeader in ha && RequestHashHeader in hb && ha[RequestHashHeader] != hb[RequestHashHeader])
  {
  }
}
