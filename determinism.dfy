/** The determinism proof: the same payload is exported twice, and the run
    counts as deterministic when both exports completed and produced the same
    request hash and the same audit hash. */
module Determinism {
  import opened PyJson
  import opened Transport

  const ReferenceStatusHeader := "x-docfactory-reference-index-status"

  /** `qa_payload()` */
  const Payload: map<string, string> := map[
    "jobId" := "qa-determinism-1",
    "docKind" := "brochure",
    "pageCount" := "exact(2)",
    "title" := "QA_Determinism",
    "language" := "ko",
    "tone" := "concise",
    "constraints" := "no-fabricated-numbers,bullet-centric-copy",
    "variantIndex" := "1",
    "seed" := "424242",
    "pageSizePreset" := "A4P",
    "pageWidthMm" := "210",
    "pageHeightMm" := "297"
  ]

  /** The regenerate query copies the payload's job id, kind, page count,
      title, variant and seed and asks for the A4 portrait size. */
  lemma TriggerQueryOfPayload()
    ensures TriggerKeys <= Payload.Keys
    ensures var q := TriggerQuery(Payload);
      && q.Keys == {"jobId", "docKind", "pageCount", "title", "variantIndex", "seed", "size"}
      && q["jobId"] == "qa-determinism-1" && q["seed"] == "424242" && q["size"] == "A4P"
      && forall k | k in q && k != "size" :: k in Payload && q[k] == Payload[k]
  {
  }

  /** One export as this script records it. */
  datatype Run = Run(status: int, auditHash: Json, requestHash: Json, referenceStatus: Json)

  /** An error body on which `(parsed or {}).get("referenceUsageReport", {}).get(...)`
      does not raise: falsy, or a dict whose report is absent or a dict. */
  predicate RunReadable(reply: Reply) {
    && RecordableReply(reply)
    && var body := ParsedBody(reply);
       body.JObj? ==> GetOr(body, "referenceUsageReport", JObj(map[])).JObj?
  }

  /** `post_export` of this script: the hashes as in every export record, and
      the reference-index status from its header on success or from the
      body's `referenceUsageReport.referenceIndexStatus` on error. */
  function RunOf(reply: Reply): (r: Run)
    requires RunReadable(reply)
    ensures r.status == reply.status
    ensures r.requestHash == Record(reply).requestHash && r.auditHash == Record(reply).auditHash
    ensures reply.Completed? ==> r.referenceStatus == Header(Normalize(reply), ReferenceStatusHeader)
    ensures reply.Rejected? && !ParsedBody(reply).JObj? ==> r.referenceStatus == JNull
    ensures reply.Rejected? && ParsedBody(reply).JObj? ==>
              var report := GetOr(ParsedBody(reply), "referenceUsageReport", JObj(map[]));
              report.JObj? && r.referenceStatus == Get(report, "referenceIndexStatus")
  {
    var rec := Record(reply);
    var referenceStatus :=
      if reply.Completed? then Header(Normalize(reply), ReferenceStatusHeader)
      else
        var body := ParsedBody(reply);
        if body.JObj? then Get(GetOr(body, "referenceUsageReport", JObj(map[])), "referenceIndexStatus")
        else JNull;
    Run(rec.status, rec.auditHash, rec.requestHash, referenceStatus)
  }

  /** `same_request_hash`: run A has a hash and run B has one Python
      compares equal to it. */
  predicate SameRequestHash(a: Run, b: Run) {
    a.requestHash != JNull && PyEq(a.requestHash, b.requestHash)
  }

  /** `same_audit_hash`: run A has an audit hash and run B has the same one;
      only None is rejected, so two empty strings agree. */
  predicate SameAuditHash(a: Run, b: Run) {
    a.auditHash != JNull && PyEq(a.auditHash, b.auditHash)
  }

  /** `determinism_passed` */
  predicate DeterminismPassed(a: Run, b: Run) {
    a.status == 200 && b.status == 200 && SameRequestHash(a, b) && SameAuditHash(a, b)
  }

  /** The hash comparisons do not depend on which run came first, and a
      match means both runs carry the hash. */
  lemma SameHashSymmetric(a: Run, b: Run)
    ensures SameRequestHash(a, b) <==> SameRequestHash(b, a)
    ensures SameAuditHash(a, b) <==> SameAuditHash(b, a)
    ensures SameRequestHash(a, b) ==> b.requestHash != JNull
    ensures SameAuditHash(a, b) ==> b.auditHash != JNull
  {
    PyEqCases(a.requestHash, "", 0.0, false, false, false);
    PyEqCases(a.auditHash, "", 0.0, false, false, false);
    if SameRequestHash(a, b) { PyEqSymmetric(a.requestHash, b.requestHash); }
    if SameRequestHash(b, a) { PyEqSymmetric(b.requestHash, a.requestHash); }
    if SameAuditHash(a, b) { PyEqSymmetric(a.auditHash, b.auditHash); }
    if SameAuditHash(b, a) { PyEqSymmetric(b.auditHash, a.auditHash); }
  }

  /** Hashes are compared as Python compares them: a number hash matches
      any number of the same value, int or float, a bool hash matches 1 or 0,
      and a string hash matches only the same string. */
  lemma HashesCompareByPythonEquality(a: Run, b: Run)
    ensures a.requestHash.JNum? && b.requestHash.JNum? ==>
              (SameRequestHash(a, b) <==> a.requestHash.n == b.requestHash.n)
    ensures a.auditHash.JBool? && b.auditHash.JNum? ==>
              (SameAuditHash(a, b) <==> b.auditHash.n == (if a.auditHash.b then 1.0 else 0.0))
    ensures a.requestHash.JStr? ==> (SameRequestHash(a, b) <==> b.requestHash == a.requestHash)
    ensures a.auditHash.JStr? ==> (SameAuditHash(a, b) <==> b.auditHash == a.auditHash)
    ensures SameRequestHash(Run(400, JNull, JNum(1.0, false), JNull), Run(400, JNull, JNum(1.0, true), JNull))
    ensures SameAuditHash(Run(400, JBool(true), JNull, JNull), Run(400, JNum(1.0, false), JNull, JNull))
    ensures !SameRequestHash(Run(400, JNull, JStr("1"), JNull), Run(400, JNull, JNum(1.0, false), JNull))
  {
  }

  /** A deterministic verdict over two completed exports means both carried
      both hash headers, with the same values. */
  lemma PassedMeansMatchingHeaders(rawA: seq<(string, string)>, rawB: seq<(string, string)>)
    requires DeterminismPassed(RunOf(Completed(200, rawA)), RunOf(Completed(200, rawB)))
    ensures var ha, hb := Normalize(Completed(200, rawA)).headers, Normalize(Completed(200, rawB)).headers;
      && RequestHashHeader in ha && RequestHashHeader in hb && ha[RequestHashHeader] == hb[RequestHashHeader]
      && AuditHashHeader in ha && AuditHashHeader in hb && ha[AuditHashHeader] == hb[AuditHashHeader]
  {
  }

  /** The verdict needs both statuses to be 200 and both equalities, and
      holds whenever the server answers both exports with the same completed
      reply carrying both hash headers. */
  lemma DeterminismVerdict(a: Run, b: Run, raw: seq<(string, string)>)
    ensures DeterminismPassed(a, b) ==>
              a.status == 200 && b.status == 200
              && a.requestHash != JNull && b.requestHash != JNull && PyEq(a.requestHash, b.requestHash)
              && a.auditHash != JNull && b.auditHash != JNull && PyEq(a.auditHash, b.auditHash)
    ensures var h := Normalize(Completed(200, raw)).headers;
      RequestHashHeader in h && AuditHashHeader in h ==>
        DeterminismPassed(RunOf(Completed(200, raw)), RunOf(Completed(200, raw)))
  {
  }

  /** A rejected export is never deterministic, whatever its body holds. */
  lemma RejectedNeverPasses(a: Run, b: Run)
    requires a.status != 200 || b.status != 200
    ensures !DeterminismPassed(a, b)
  {
  }
}
