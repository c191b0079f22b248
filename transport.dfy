/** The normalised record of one export call, the request-hash choice made
    from it, and the scan of a rejected export's issue list for a marker. */
module Transport {
  import opened PyJson

  const RequestHashHeader := "x-docfactory-request-hash"
  const AuditHashHeader := "x-docfactory-audit-hash"

  /** What the HTTP client observed for one export call: a completed response
      (status and raw header items), or an HTTP error whose body parsed to
      JSON or did not (`None`). */
  datatype Reply =
    | Completed(status: int, rawHeaders: seq<(string, string)>)
    | Rejected(status: int, rawHeaders: seq<(string, string)>, parsed: Option<Json>)

  /** `{"status": ..., "headers": {lower-cased name: value}, "body": ...}` */
  datatype Response = Response(status: int, headers: map<string, string>, body: Json)

  /** `{key.lower(): value for key, value in items}`: a later item wins over an
      earlier one with the same lower-cased name. */
  function LowerKeys(items: seq<(string, string)>): (m: map<string, string>)
    ensures forall i | 0 <= i < |items| :: Lower(items[i].0) in m
    ensures forall k | k in m :: exists i :: 0 <= i < |items| && Lower(items[i].0) == k
  {
    if items == [] then map[]
    else
      var last := items[|items| - 1];
      var m := LowerKeys(items[..|items| - 1]);
      assert forall i | 0 <= i < |items| - 1 :: items[..|items| - 1][i] == items[i];
      m[Lower(last.0) := last.1]
  }

  /** Every normalised header name is already lower-case. */
  lemma LowerKeysAreLower(items: seq<(string, string)>)
    ensures forall k | k in LowerKeys(items) :: Lower(k) == k
  {
    forall k | k in LowerKeys(items)
      ensures Lower(k) == k
    {
      var i :| 0 <= i < |items| && Lower(items[i].0) == k;
      LowerIdempotent(items[i].0);
    }
  }

  /** Item i supplies the value of its lower-cased name: no later item has the same name. */
  predicate LastWith(items: seq<(string, string)>, i: int, k: string) {
    && 0 <= i < |items| && Lower(items[i].0) == k
    && forall j | i < j < |items| :: Lower(items[j].0) != k
  }

  /** Every header value comes from the last raw item with that lower-cased name. */
  lemma {:induction false} LowerKeysLastWins(items: seq<(string, string)>, k: string)
    requires k in LowerKeys(items)
    ensures exists i :: LastWith(items, i, k) && LowerKeys(items)[k] == items[i].1
  {
    var n := |items|;
    assert n > 0;
    var init := items[..n - 1];
    var last := items[n - 1];
    assert LowerKeys(items) == LowerKeys(init)[Lower(last.0) := last.1];
    if Lower(last.0) == k {
      assert LastWith(items, n - 1, k);
    } else {
      assert k in LowerKeys(init);
      LowerKeysLastWins(init, k);
      var i :| LastWith(init, i, k) && LowerKeys(init)[k] == init[i].1;
      assert items[i] == init[i];
      forall j | i < j < n
        ensures Lower(items[j].0) != k
      {
        if j < n - 1 {
          assert items[j] == init[j];
        }
      }
      assert LastWith(items, i, k);
    }
  }

  /** The export client's normalisation: lower-cased headers always, and a
      body only on the error path (None when it did not parse). */
  function Normalize(reply: Reply): (r: Response)
    ensures r.status == reply.status
    ensures forall k | k in r.headers :: Lower(k) == k
    ensures reply.Completed? ==> r.body == JNull
    ensures reply.Rejected? && reply.parsed.None? ==> r.body == JNull
    ensures reply.Rejected? && reply.parsed.Some? ==> r.body == reply.parsed.value
  {
    LowerKeysAreLower(reply.rawHeaders);
    match reply
    case Completed(status, raw) => Response(status, LowerKeys(raw), JNull)
    case Rejected(status, raw, parsed) =>
      Response(status, LowerKeys(raw), if parsed.Some? then parsed.value else JNull)
  }

  /** `headers.get(name)` as a JSON value: the header's string, or None. */
  function Header(resp: Response, name: string): Json {
    if name in resp.headers then JStr(resp.headers[name]) else JNull
  }

  /** The request hash a script reads from an export: the request-hash header
      on status 200, otherwise the body's `requestHash` (None when the body is
      not a dict). */
  function RequestHash(resp: Response): (h: Json)
    ensures resp.status == 200 ==> (h.JStr? <==> RequestHashHeader in resp.headers)
    ensures resp.status == 200 && h.JStr? ==> h.s == resp.headers[RequestHashHeader]
    ensures resp.status == 200 && !h.JStr? ==> h == JNull
    ensures resp.status != 200 && !resp.body.JObj? ==> h == JNull
    ensures resp.status != 200 && resp.body.JObj? ==> h == Get(resp.body, "requestHash")
  {
    if resp.status == 200 then Header(resp, RequestHashHeader)
    else if resp.body.JObj? then Get(resp.body, "requestHash")
    else JNull
  }

  /** On a completed export the hash is found whatever the case of the header
      name on the wire, and it is the value of the last such header. */
  lemma SuccessHashIgnoresHeaderCase(items: seq<(string, string)>)
    ensures var h := RequestHash(Normalize(Completed(200, items)));
      && (h.JStr? <==> exists i | 0 <= i < |items| :: Lower(items[i].0) == RequestHashHeader)
      && (h.JStr? ==> exists i :: LastWith(items, i, RequestHashHeader) && h.s == items[i].1)
  {
    var h := RequestHash(Normalize(Completed(200, items)));
    if h.JStr? {
      LowerKeysLastWins(items, RequestHashHeader);
    }
  }

  /** The hash-only record some scripts keep of an export:
      `{"status", "request_hash", "audit_hash"}`. */
  datatype RunRecord = RunRecord(status: int, requestHash: Json, auditHash: Json)

  /** An error body is usable as `(parsed or {}).get(...)`. */
  predicate RecordableReply(reply: Reply) {
    reply.Rejected? && reply.parsed.Some? ==> OrDict(reply.parsed.value)
  }

  /** The body of a reply as `parsed`: None on success or when unparsable. */
  function ParsedBody(reply: Reply): Json {
    if reply.Rejected? && reply.parsed.Some? then reply.parsed.value else JNull
  }

  /** Hashes from the lower-cased headers on success, from the body's
      `requestHash` / `exportAuditHash` on error, None when the body did not
      parse or is not a dict. */
  function Record(reply: Reply): (r: RunRecord)
    requires RecordableReply(reply)
    ensures r.status == reply.status
    ensures reply.Completed? ==> r.requestHash == Header(Normalize(reply), RequestHashHeader)
    ensures reply.Completed? ==> r.auditHash == Header(Normalize(reply), AuditHashHeader)
    ensures reply.Rejected? && !ParsedBody(reply).JObj? ==> r.requestHash == JNull && r.auditHash == JNull
    ensures reply.Rejected? && ParsedBody(reply).JObj? ==>
              r.requestHash == Get(ParsedBody(reply), "requestHash")
              && r.auditHash == Get(ParsedBody(reply), "exportAuditHash")
  {
    match reply
    case Completed(status, raw) =>
      var headers := Normalize(reply);
      RunRecord(status, Header(headers, RequestHashHeader), Header(headers, AuditHashHeader))
    case Rejected(status, _, parsed) =>
      var body := ParsedBody(reply);
      RunRecord(status, GetOrEmpty(body, "requestHash"), GetOrEmpty(body, "exportAuditHash"))
  }

  // ------------------------------------------------------------ issue lists

  /** `str(issue.get("message", ""))`: a null message reads as "None". */
  function MessageText(issue: Json): string
    requires issue.JObj?
  {
    PyStr(GetOr(issue, "message", JStr("")))
  }

  /** `body["exportAuditIssues"]` when the body is a dict holding a list. */
  predicate HasIssueList(body: Json) {
    body.JObj? && Get(body, "exportAuditIssues").JArr?
  }

  function IssueList(body: Json): seq<Json> {
    if HasIssueList(body) then Get(body, "exportAuditIssues").items else []
  }

  /** Some dict issue's message contains the marker. */
  predicate MentionsMarker(body: Json, marker: string) {
    && HasIssueList(body)
    && exists i | 0 <= i < |IssueList(body)| ::
         IssueList(body)[i].JObj? && Contains(MessageText(IssueList(body)[i]), marker)
  }

  /** The early-return scan shared by the leakage and freshness gates: false
      when the body is not a dict or the issues are not a list, true at the
      first dict issue whose message contains the marker. */
  method ScanIssues(resp: Response, marker: string) returns (found: bool)
    ensures found <==> MentionsMarker(resp.body, marker)
    ensures !resp.body.JObj? ==> !found
  {
    var body := resp.body;
    if !body.JObj? {
      return false;
    }
    var issues := Get(body, "exportAuditIssues");
    if !issues.JArr? {
      return false;
    }
    var i := 0;
    while i < |issues.items|
      invariant 0 <= i <= |issues.items|
      invariant forall j | 0 <= j < i ::
                  !(issues.items[j].JObj? && Contains(MessageText(issues.items[j]), marker))
    {
      var issue := issues.items[i];
      if issue.JObj? {
        var message := MessageText(issue);
        if Contains(message, marker) {
          assert IssueList(body) == issues.items;
          return true;
        }
      }
      i := i + 1;
    }
    return false;
  }

  // ------------------------------------------------------- trigger query

  /** The payload fields a regenerate query copies. */
  const TriggerKeys: set<string> := {"jobId", "docKind", "pageCount", "title", "variantIndex", "seed"}

  /** The regenerate query sent before exporting a payload: six of its fields
      copied as they are, plus `size=A4P`. */
  function TriggerQuery(payload: map<string, string>): (q: map<string, string>)
    requires TriggerKeys <= payload.Keys
    ensures q.Keys == TriggerKeys + {"size"}
    ensures forall k | k in TriggerKeys :: q[k] == payload[k]
    ensures q["size"] == "A4P"
  {
    (map k | k in TriggerKeys :: payload[k])["size" := "A4P"]
  }
}
