/** The reference-gate proof: an export with reference usage disabled must be
    rejected for both provenance reasons (style preset and layout plan not
    taken from references); the same export with references allowed is
    recorded alongside. */
module ReferenceGate {
  import opened PyJson
  import opened Transport

  /** The two provenance complaints the gate must report. */
  const Markers: seq<string> := [
    "stylePreset.source must be references",
    "layoutPlan.source must be references"
  ]

  /** `[str(issue.get("message", "")) for issue in issues if isinstance(issue, dict)]` */
  function Messages(issues: seq<Json>): seq<string> {
    if issues == [] then []
    else
      var issue := issues[|issues| - 1];
      Messages(issues[..|issues| - 1]) + (if issue.JObj? then [MessageText(issue)] else [])
  }

  /** Some message contains the marker. */
  predicate AnyContains(messages: seq<string>, marker: string) {
    exists i | 0 <= i < |messages| :: Contains(messages[i], marker)
  }

  /** `has_reference_source_gate_issue`: false unless the body is a dict whose
      issues are a list; then every marker is found in some dict issue's message. */
  predicate HasReferenceSourceGateIssue(resp: Response) {
    && HasIssueList(resp.body)
    && forall k | 0 <= k < |Markers| :: AnyContains(Messages(IssueList(resp.body)), Markers[k])
  }

  /** The messages are exactly those of the dict issues. */
  lemma {:induction false} MessagesExact(issues: seq<Json>, m: string)
    ensures m in Messages(issues) <==> exists i | 0 <= i < |issues| :: issues[i].JObj? && MessageText(issues[i]) == m
  {
    if issues != [] {
      var init := issues[..|issues| - 1];
      MessagesExact(init, m);
      assert forall i | 0 <= i < |init| :: init[i] == issues[i];
      if m in Messages(init) {
        var i :| 0 <= i < |init| && init[i].JObj? && MessageText(init[i]) == m;
        assert issues[i].JObj? && MessageText(issues[i]) == m;
      }
    }
  }

  /** Some dict issue's message contains the marker. */
  predicate IssueMentions(issues: seq<Json>, marker: string) {
    exists i | 0 <= i < |issues| :: issues[i].JObj? && Contains(MessageText(issues[i]), marker)
  }

  /** A marker is found exactly when some dict issue's message contains it. */
  lemma AnyContainsExact(issues: seq<Json>, marker: string)
    ensures AnyContains(Messages(issues), marker) <==> IssueMentions(issues, marker)
  {
    var ms := Messages(issues);
    if AnyContains(ms, marker) {
      var j :| 0 <= j < |ms| && Contains(ms[j], marker);
      MessagesExact(issues, ms[j]);
    }
    if IssueMentions(issues, marker) {
      var i :| 0 <= i < |issues| && issues[i].JObj? && Contains(MessageText(issues[i]), marker);
      MessagesExact(issues, MessageText(issues[i]));
      var j :| 0 <= j < |ms| && ms[j] == MessageText(issues[i]);
    }
  }

  /** The gate issue is present exactly when each marker appears in some dict
      issue's message; one message may carry both. */
  lemma GateIssueExact(resp: Response)
    ensures HasReferenceSourceGateIssue(resp) <==>
              && HasIssueList(resp.body)
              && forall k | 0 <= k < |Markers| :: IssueMentions(IssueList(resp.body), Markers[k])
  {
    forall k | 0 <= k < |Markers|
      ensures AnyContains(Messages(IssueList(resp.body)), Markers[k]) <==> IssueMentions(IssueList(resp.body), Markers[k])
    {
      AnyContainsExact(IssueList(resp.body), Markers[k]);
    }
  }

  /** A single dict issue whose message names both markers is enough. */
  lemma OneMessageSuffices(resp: Response, i: int)
    requires HasIssueList(resp.body)
    requires 0 <= i < |IssueList(resp.body)| && IssueList(resp.body)[i].JObj?
    requires forall k | 0 <= k < |Markers| :: Contains(MessageText(IssueList(resp.body)[i]), Markers[k])
    ensures HasReferenceSourceGateIssue(resp)
  {
    GateIssueExact(resp);
    forall k | 0 <= k < |Markers| ensures IssueMentions(IssueList(resp.body), Markers[k]) {
    }
  }

  /** Every message found among some issues is found among a list that
      contains them all. */
  lemma FoundInSuperset(issues: seq<Json>, more: seq<Json>, marker: string)
    requires forall i | 0 <= i < |issues| :: issues[i] in more
    requires AnyContains(Messages(issues), marker)
    ensures AnyContains(Messages(more), marker)
  {
    AnyContainsExact(issues, marker);
    AnyContainsExact(more, marker);
    assert IssueMentions(issues, marker);
    var i :| 0 <= i < |issues| && issues[i].JObj? && Contains(MessageText(issues[i]), marker);
    var j :| 0 <= j < |more| && more[j] == issues[i];
  }

  /** Reporting more issues, or the same issues in another order, never
      takes the gate issue away. */
  lemma GateIssueMonotone(resp: Response, resp': Response)
    requires HasIssueList(resp'.body)
    requires forall i | 0 <= i < |IssueList(resp.body)| :: IssueList(resp.body)[i] in IssueList(resp'.body)
    requires HasReferenceSourceGateIssue(resp)
    ensures HasReferenceSourceGateIssue(resp')
  {
    forall k | 0 <= k < |Markers|
      ensures AnyContains(Messages(IssueList(resp'.body)), Markers[k])
    {
      FoundInSuperset(IssueList(resp.body), IssueList(resp'.body), Markers[k]);
    }
  }

  /** Appending issues keeps the gate issue, and a reordering of the same
      issues gives the same answer. */
  lemma GateIssueAppendAndReorder(body: map<string, Json>, issues: seq<Json>, extra: seq<Json>, reordered: seq<Json>)
    requires multiset(reordered) == multiset(issues)
    ensures var r := Response(400, map[], JObj(body["exportAuditIssues" := JArr(issues)]));
      var r1 := Response(400, map[], JObj(body["exportAuditIssues" := JArr(issues + extra)]));
      var r2 := Response(400, map[], JObj(body["exportAuditIssues" := JArr(reordered)]));
      && (HasReferenceSourceGateIssue(r) ==> HasReferenceSourceGateIssue(r1))
      && (HasReferenceSourceGateIssue(r) <==> HasReferenceSourceGateIssue(r2))
  {
    var r := Response(400, map[], JObj(body["exportAuditIssues" := JArr(issues)]));
    var r1 := Response(400, map[], JObj(body["exportAuditIssues" := JArr(issues + extra)]));
    var r2 := Response(400, map[], JObj(body["exportAuditIssues" := JArr(reordered)]));
    assert IssueList(r.body) == issues;
    assert IssueList(r1.body) == issues + extra;
    assert IssueList(r2.body) == reordered;
    if HasReferenceSourceGateIssue(r) {
      assert forall i | 0 <= i < |issues| :: issues[i] == (issues + extra)[i];
      GateIssueMonotone(r, r1);
    }
    forall i | 0 <= i < |issues| ensures issues[i] in reordered {
      assert issues[i] in multiset(issues);
    }
    forall i | 0 <= i < |reordered| ensures reordered[i] in issues {
      assert reordered[i] in multiset(reordered);
    }
    if HasReferenceSourceGateIssue(r) {
      GateIssueMonotone(r, r2);
    }
    if HasReferenceSourceGateIssue(r2) {
      GateIssueMonotone(r2, r);
    }
  }

  // ------------------------------------------------------------- payloads

  const DisableFlag := "qaDisableReferenceUsage"

  /** The fields every export of this script sends. */
  const BasePayload: map<string, string> := map[
    "jobId" := "qa-reference-gate",
    "docKind" := "brochure",
    "pageCount" := "exact(2)",
    "title" := "QA_Reference_Gates",
    "language" := "ko",
    "tone" := "concise",
    "variantIndex" := "1",
    "seed" := "99991",
    "pageSizePreset" := "A4P",
    "pageWidthMm" := "210",
    "pageHeightMm" := "297"
  ]

  /** `export_payload(disable)`: the base fields, and the disable flag set to
      "1" only when asked for; nothing else differs between the two. */
  method ExportPayload(disableReferenceUsage: bool) returns (payload: map<string, string>)
    ensures DisableFlag in payload <==> disableReferenceUsage
    ensures disableReferenceUsage ==> payload[DisableFlag] == "1"
    ensures forall k | k != DisableFlag :: (k in payload <==> k in BasePayload)
    ensures forall k | k in payload && k != DisableFlag :: payload[k] == BasePayload[k]
  {
    payload := BasePayload;
    if disableReferenceUsage {
      payload := payload[DisableFlag := "1"];
    }
  }

  datatype Outcome = Outcome(
    blockedStatus: int,
    blockedByReferenceSourceGate: bool,
    blockedBody: Json,
    allowedStatus: int,
    allowedAuditHash: Json)

  /** The recorded outcome: the gate verdict is read from the blocked
      export's body alone, its status is only recorded next to it. */
  function OutcomeOf(blocked: Response, allowed: Response): (o: Outcome)
    ensures o.blockedStatus == blocked.status && o.allowedStatus == allowed.status
    ensures o.blockedBody == blocked.body
    ensures o.blockedByReferenceSourceGate <==>
              HasReferenceSourceGateIssue(Response(0, map[], blocked.body))
    ensures o.allowedAuditHash.JStr? <==> AuditHashHeader in allowed.headers
    ensures AuditHashHeader in allowed.headers ==> o.allowedAuditHash == JStr(allowed.headers[AuditHashHeader])
    ensures AuditHashHeader !in allowed.headers ==> o.allowedAuditHash == JNull
  {
    Outcome(blocked.status, HasReferenceSourceGateIssue(blocked), blocked.body,
            allowed.status, Header(allowed, AuditHashHeader))
  }
}
