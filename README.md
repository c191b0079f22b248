# doc-factory QA proofs: verdict logic

The QA proof scripts under `src/qa/` each drive the document factory through one
scenario. They trigger a regeneration, post an export, read the layout or
audit artifacts and print a JSON verdict. This project models the part of
those scripts that decides the verdict. It covers:

- the per-page metric extractors (copy density, minimum content, coverage and
  grouping) with their skip rules, accumulators and threshold tables;
- the normalisation of export replies (lower-cased headers, request and audit
  hashes from headers on success and from the body otherwise) and the scans of
  `exportAuditIssues` for marker messages;
- the forbidden-term and domain-copy text scanners, one hit per (text, pattern);
- the payload builders and the `passed` formulas, hash comparisons and
  isolation flags.

Everything around them is input. The export reply is given as a status with
raw header pairs and the parsed body (None when it does not parse). Layout
files are given as parsed JSON keyed by request hash. Directory walks are
given as lists of entries, and file digests as opaque values.

Modules, one per script, on three shared modules:

- `PyJson`: a JSON value, Python truthiness, `dict.get`, `str()`, `or`,
  `str.split`/`strip`, `" ".join(s.split())`, ASCII `lower`/`upper`, substring
  search, counting, and generic flatten/gather over sequences.
- `Transport`: `post_export` reply normalisation, the request-hash choice, the
  issue-marker scan and the regenerate query.
- `Paths`: `PurePath.name`/`suffix`, the extension filter, and Python string
  order (`LexLess`).
- `CopyDensity`, `ContentCompleteness`, `LayoutDensity`, `NoInternalTerms`,
  `JobIsolation`, `Determinism`, `ReferenceGate`, `ReferenceIndex`,
  `NoDomainCopy`: one per script.

Where a script works by updating accumulators in loops, the model is a method
with a loop. That method is proved equal to a recursive specification
function, and the script's promises are proved as lemmas about that function.
A script's `main` is `RunProof`, with two exceptions: the reference-gate
`main` is `ReferenceGate.OutcomeOf`, and the determinism `main` has no member
of its own, its three printed flags being the predicates `SameRequestHash`,
`SameAuditHash` and `DeterminismPassed`. A `main` that ends in `sys.exit(1)` gets
an exit code that is 1 exactly when the run did not pass. Scripts that only
print (job isolation, reference gate, reference index, determinism) get no
overall verdict, because the source computes none.

## Model

| member | source | states |
|---|---|---|
| PyJson.PyStrOfNumbers | src/qa/copy_density_proof.py:94 | four worked values: `str(2)` is "2", `str(2.0)` is "2.0", `str(100.0)` is "100.0" and `str(-7)` is "-7" |
| PyJson.PyStrOfIntegral | src/qa/copy_density_proof.py:94 | `str()` of every JSON integer is its decimal text, different integers print differently, and every integral float below 1e16 in magnitude prints as the integer of the same value followed by ".0" |
| PyJson.IntToStringInjective | src/qa/layout_density_proof.py:74 | `str()` of two integers gives the same text only when the integers are equal |
| PyJson.PyEqReflexive | src/qa/determinism_proof.py:86 | Python's `==` on parsed JSON values holds between a value and itself |
| PyJson.PyEqSymmetric | src/qa/determinism_proof.py:86 | Python's `==` on parsed JSON values does not depend on the order of its operands |
| PyJson.PyEqTransitive | src/qa/determinism_proof.py:91 | Python's `==` on parsed JSON values is transitive |
| PyJson.PyEqCases | src/qa/determinism_proof.py:84-92 | against None or a string `==` is plain equality; numbers of the same value are equal whether int or float; `True` and `False` equal exactly 1 and 0; a string never equals a number or a bool |
| PyJson.Or | src/qa/copy_density_proof.py:90 | `x or alt` is `x` when `x` is truthy and `alt` otherwise |
| PyJson.Lower | src/qa/copy_density_proof.py:101 | `str.lower()` keeps the length and maps every character by the ASCII case map |
| PyJson.Upper | src/qa/layout_density_proof.py:118 | `str.upper()` keeps the length and maps every character by the ASCII case map |
| PyJson.LowerIdempotent | src/qa/reference_index_proof.py:63 | lower-casing twice is lower-casing once |
| PyJson.DropLeadingShape | src/qa/content_completeness_proof.py:95 | the left strip is a suffix of its input, starts with a non-space (or is empty), and only whitespace was removed |
| PyJson.DropTrailingShape | src/qa/content_completeness_proof.py:95 | the right strip is a prefix of its input, ends with a non-space (or is empty), and only whitespace was removed |
| PyJson.TakeWord | src/qa/layout_density_proof.py:97 | a word taken by `split()` is a non-empty prefix without whitespace, followed by whitespace or the end |
| PyJson.SplitWords | src/qa/layout_density_proof.py:97 | every piece of `split()` is a non-empty run without whitespace |
| PyJson.SplitEmpty | src/qa/copy_density_proof.py:94-96 | `split()` is empty exactly when the text is all whitespace |
| PyJson.JoinEnds | src/qa/copy_density_proof.py:94 | joining non-empty words with spaces gives text that neither starts nor ends with whitespace |
| PyJson.CollapseEmpty | src/qa/copy_density_proof.py:94-96 | `" ".join(s.split())` is empty exactly when `s` is all whitespace, and otherwise has no whitespace at either end |
| PyJson.StripCollapse | src/qa/copy_density_proof.py:94 | the `.strip()` after `" ".join(s.split())` changes nothing |
| PyJson.ContainsExtend | src/qa/copy_density_proof.py:102 | a substring stays a substring of any text that extends it on both sides |
| Transport.LowerKeys | src/qa/copy_density_proof.py:43 | the header dict has the lower-cased form of every raw key and no other key |
| Transport.LowerKeysAreLower | src/qa/copy_density_proof.py:43 | every key of the header dict is already lower case |
| Transport.LowerKeysLastWins | src/qa/copy_density_proof.py:43 | each header's value is that of the last raw header with the same lower-cased name |
| Transport.Normalize | src/qa/copy_density_proof.py:37-63 | the normalised response keeps the status, has only lower-case header keys, has body None on success, and on error has the parsed body or None when it does not parse |
| Transport.RequestHash | src/qa/copy_density_proof.py:140-144 | on status 200 the hash is the `x-docfactory-request-hash` header (None when absent); otherwise it is the body's `requestHash` when the body is a dict, else None |
| Transport.SuccessHashIgnoresHeaderCase | src/qa/copy_density_proof.py:43 | on success the hash is present exactly when some raw header has that name in any letter case, and its value is the last such header's |
| Transport.Record | src/qa/job_isolation_proof.py:42-67 | the run record keeps the status; request and audit hashes come from the headers on success, from `requestHash`/`exportAuditHash` of a dict body on error, and are None when the error body is not a dict |
| Transport.ScanIssues | src/qa/reference_index_proof.py:74-88 | the early-return scan finds a marker exactly when the body is a dict, its `exportAuditIssues` is a list, and some dict issue's `str(message)` contains the marker; never for a non-dict body |
| Transport.TriggerQuery | src/qa/job_isolation_proof.py:103-113 | the regenerate query has exactly the six copied payload keys plus `size`, copies their values from the payload, and sets `size` to A4P |
| Paths.LastIndexOfIsLast | src/qa/reference_index_proof.py:62 | the index found holds the character and no later position does |
| Paths.NameShape | src/qa/reference_index_proof.py:62 | the file name is a slash-free tail of the path |
| Paths.SuffixShape | src/qa/no_domain_copy_proof.py:48 | the suffix is a tail of the name; when present it is a dot followed by at least one non-dot character |
| Paths.LexLessIrreflexive | src/qa/reference_index_proof.py:61-64 | no path key sorts before itself |
| Paths.LexLessAsymmetric | src/qa/reference_index_proof.py:61-64 | two path keys never each sort before the other |
| Paths.LexLessTransitive | src/qa/reference_index_proof.py:61-64 | the sort order on path keys is transitive |
| Paths.LexLessTotal | src/qa/reference_index_proof.py:61-64 | of two different path keys one sorts first |
| CopyDensity.TrackedSize | src/qa/copy_density_proof.py:101-104 | a counted element contributes a font size exactly when its lower-cased id contains body, callout, table or flow |
| CopyDensity.MinPresentIsMinimum | src/qa/copy_density_proof.py:105-108 | the running minimum is absent exactly when no size was seen; otherwise it is at most every size seen and equals one of them |
| CopyDensity.TrackedSizesAt | src/qa/copy_density_proof.py:101-104 | the size list holds an element's `fontSizePt` (missing read as 0) exactly at body-like counted elements |
| CopyDensity.BodyFontMinAbsent | src/qa/copy_density_proof.py:105-115 | no body font minimum exists exactly when no counted element is body-like |
| CopyDensity.BodyFontMinBelow | src/qa/copy_density_proof.py:105-108 | the body font minimum is at most the size of each body-like counted element |
| CopyDensity.BodyFontMinIsMinimum | src/qa/copy_density_proof.py:101-108 | the body font minimum is the smallest size of a body-like counted element and is attained |
| CopyDensity.CharsCoverBlocks | src/qa/copy_density_proof.py:94-99 | `text_chars >= text_blocks`, because every counted block has non-empty collapsed text |
| CopyDensity.CountStep | src/qa/copy_density_proof.py:82-99 | one more element adds its collapsed length and one block exactly when it is counted |
| CopyDensity.FontStep | src/qa/copy_density_proof.py:101-108 | one more element updates the body font minimum by `min` with its size when it is tracked |
| CopyDensity.VisitElement | src/qa/copy_density_proof.py:83-108 | one loop iteration: skip non-dict, non-text, debug-only, header-role and blank elements; otherwise add length and block, and fold a body-like size into the minimum |
| CopyDensity.CountVisitStep | src/qa/copy_density_proof.py:98-99 | the loop's character and block counters equal the counts over the elements visited so far |
| CopyDensity.FontVisitStep | src/qa/copy_density_proof.py:105-108 | the loop's font minimum equals the minimum over the elements visited so far |
| CopyDensity.VisitElements | src/qa/copy_density_proof.py:82-108 | the loop's results are the character sum, block count and body font minimum over the counted elements |
| CopyDensity.CollectPageDensity | src/qa/copy_density_proof.py:77-116 | the page density is that of the specification, with a missing font minimum read as 0, and has `text_chars >= text_blocks` |
| CopyDensity.PageFailure | src/qa/copy_density_proof.py:155-164 | a page fails exactly when it misses a threshold; the reason is chars when chars are short, else blocks when blocks are short, else font |
| CopyDensity.FailuresPerPage | src/qa/copy_density_proof.py:154-164 | at most one failure per page, failures only for measured pages, and none exactly when every page meets all three thresholds |
| CopyDensity.CheckThresholds | src/qa/copy_density_proof.py:154-164 | the loop's failure list is the specification's, with at most one entry per page and none exactly when all pages meet the thresholds |
| CopyDensity.IssueMessagesExact | src/qa/copy_density_proof.py:166-173 | a message is recorded exactly when it is the non-empty `str(message or "")` of some dict issue |
| CopyDensity.IssueCodesExact | src/qa/copy_density_proof.py:182-187 | a code is recorded exactly when it is the non-empty `str(code or "")` of some dict issue |
| CopyDensity.PageErrorCodesExact | src/qa/copy_density_proof.py:174-187 | a code is recorded exactly when it is non-empty and some dict issue inside the `issues` list of some dict page-error entry carries it |
| PyJson.GatherMember | src/qa/copy_density_proof.py:179-187 | an item is in the concatenation of the kept entries' lists exactly when some kept entry's list holds it |
| CopyDensity.CollectIssueMessages | src/qa/copy_density_proof.py:166-173 | the loop keeps, in order, the non-empty messages of the dict issues: never more than there are issues, and never an empty one |
| CopyDensity.AppendIssueCodes | src/qa/copy_density_proof.py:182-187 | the inner loop appends, in order, the non-empty codes of one entry's dict issues |
| CopyDensity.CollectPageErrorCodes | src/qa/copy_density_proof.py:174-187 | the nested loop lists, in order, the non-empty codes of dict issues inside dict `pageErrors` entries whose `issues` is a list |
| CopyDensity.OtherLayoutsIgnored | src/qa/copy_density_proof.py:146 | storing any value, even a layout with null `pages`, under another job's hash keeps the case readable and leaves the pages it measures unchanged |
| CopyDensity.RunCase | src/qa/copy_density_proof.py:137-204 | the case result has the response's status and request hash, densities of the dict pages of the layout loaded only for a string hash, the threshold failures, the issue counts, messages and codes, and passes iff status is 200, some page was measured and no page failed; only the layout of the case's own request hash has to be readable |
| CopyDensity.RunProof | src/qa/copy_density_proof.py:241-252 | every case is run with its own thresholds; the script passes iff every case passes and exits 1 otherwise; only the layouts of the cases' request hashes have to be readable |
| ContentCompleteness.SubtitleIsNotTitle | src/qa/content_completeness_proof.py:99-101 | an id containing "subtitle" contains "title" yet is never title-like |
| ContentCompleteness.CountContentStep | src/qa/content_completeness_proof.py:84-103 | one more element raises the title and body counters by one exactly when it counts as such |
| ContentCompleteness.VisitContent | src/qa/content_completeness_proof.py:85-103 | one loop iteration: an element is considered only if it is a non-debug dict text element whose stripped `str(text)` has at least two characters; title-like and body-like are counted separately, possibly both |
| ContentCompleteness.CountContent | src/qa/content_completeness_proof.py:84-103 | the loop's counters are the numbers of title-like and of body-like elements |
| ContentCompleteness.PageHasMinimumContent | src/qa/content_completeness_proof.py:79-105 | the page check is the specification's, and a page whose `elements` is not a list fails |
| ContentCompleteness.MinimumContentWitnesses | src/qa/content_completeness_proof.py:79-105 | a page passes iff its `elements` is a list holding at least one title-like and at least one body-like element |
| ContentCompleteness.QueryPayloadAgree | src/qa/content_completeness_proof.py:109-139 | `docKind` and `pageCount` are in the query and in the payload iff the case supplies them non-empty; the shared keys have the same values in both |
| ContentCompleteness.BuildQuery | src/qa/content_completeness_proof.py:109-120 | the regenerate query built key by key is the specification's query |
| ContentCompleteness.BuildPayload | src/qa/content_completeness_proof.py:124-139 | the export payload built key by key is the specification's payload |
| ContentCompleteness.AllTrueConcat | src/qa/content_completeness_proof.py:167-169 | `all` over two lists is `all` over each |
| ContentCompleteness.PageChecksSound | src/qa/content_completeness_proof.py:149-153 | the checks are non-empty iff some page is a dict, and all hold iff every dict page has minimum content |
| ContentCompleteness.GateProofOf | src/qa/content_completeness_proof.py:155-161 | each gate-proof field is a string exactly when its header is present, and the completeness and internal-terms fields are "pass" exactly when their headers say "pass" |
| ContentCompleteness.RunCase | src/qa/content_completeness_proof.py:143-179 | the case result has the response's status and hash, the page checks of the loaded layout, a gate proof exactly on status 200 holding the three content headers of the response, the issue count, and passes iff status is 200, some page was checked, all checks hold and both content headers equal "pass" |
| ContentCompleteness.CaseVerdict | src/qa/content_completeness_proof.py:155-169 | a case passes iff status is 200, some page is a dict, every dict page has minimum content, and both headers are present with value "pass" |
| ContentCompleteness.RunProof | src/qa/content_completeness_proof.py:213-223 | every case is reported; the script passes iff every case passes and exits 1 otherwise |
| LayoutDensity.ElementArea | src/qa/layout_density_proof.py:61-64 | the area is never negative, is 0 for lines and for falsy sizes, and is `wMm*hMm` for positive sizes |
| LayoutDensity.DensityGroupKey | src/qa/layout_density_proof.py:67-74 | the group key is never empty |
| LayoutDensity.SameCollisionSameGroup | src/qa/layout_density_proof.py:68-70 | elements with the same non-empty stripped `collisionGroup` share a group, whatever their ids and indexes |
| LayoutDensity.FallbackKeysDistinct | src/qa/layout_density_proof.py:74 | two elements without collision group or id fall into different groups when their indexes differ, whatever their types |
| LayoutDensity.DigitsAfterLastDash | src/qa/layout_density_proof.py:74 | in a fallback key `type-index` the digits after the last dash are fixed by the key, so equal keys mean equal indexes |
| LayoutDensity.GroupAllWellFormed | src/qa/layout_density_proof.py:99-103 | the group dict and its key order list the same keys, each once |
| LayoutDensity.GroupAllMaxima | src/qa/layout_density_proof.py:99-103 | a group exists exactly for keys of positive-area elements, and holds the largest area among its members, which some member has |
| LayoutDensity.GroupCount | src/qa/layout_density_proof.py:112 | `content_groups` counts the distinct keys |
| LayoutDensity.SumValuesPositive | src/qa/layout_density_proof.py:105 | the sum of group maxima is never negative and is positive iff there is a group |
| LayoutDensity.Contribution | src/qa/layout_density_proof.py:99-103 | an element contributes to a group only with a positive area |
| LayoutDensity.Contributions | src/qa/layout_density_proof.py:85-103 | one contribution per element, all of positive area |
| LayoutDensity.PageArea | src/qa/layout_density_proof.py:78-80 | the page area `max(1,widthMm) * max(1,heightMm)` is at least 1 |
| LayoutDensity.DensityCoverage | src/qa/layout_density_proof.py:99-112 | coverage is never negative, is positive iff the page has a content group, and `content_groups` is the number of groups |
| LayoutDensity.ScanStep | src/qa/layout_density_proof.py:85-103 | one more element adds its collapsed text length, and raises its group's maximum exactly when it is included with positive area |
| LayoutDensity.VisitElement | src/qa/layout_density_proof.py:86-103 | one loop iteration: excluded elements add nothing; included text adds its collapsed length even with zero area; a positive area raises its group's maximum |
| LayoutDensity.PageDensity | src/qa/layout_density_proof.py:77-113 | the loop's density is the specification's |
| LayoutDensity.ValidatePage | src/qa/layout_density_proof.py:116-136 | a page is valid exactly when no reason is given |
| LayoutDensity.ValidateMatchesTable | src/qa/layout_density_proof.py:116-136 | a page is valid iff it meets the minimums of its class (section divider 70/0.22/3, text-only 78/0.22/3, general 58/0.18/2), and otherwise carries its class's reason |
| LayoutDensity.SectionDividerFirst | src/qa/layout_density_proof.py:123 | an upper-cased template SECTION_DIVIDER makes the page a section divider whatever its role |
| LayoutDensity.ValidateMonotone | src/qa/layout_density_proof.py:116-136 | more text, coverage or groups never turn a valid page invalid |
| LayoutDensity.DensitiesCount | src/qa/layout_density_proof.py:176-181 | one density per dict page |
| LayoutDensity.FailuresEmpty | src/qa/layout_density_proof.py:190-200 | no failure exactly when every density validates |
| LayoutDensity.DensityIssuesEmpty | src/qa/layout_density_proof.py:183-188 | no density issue exactly when no dict page has a dict validation issue with code "content-density" |
| LayoutDensity.CheckDensityIssue | src/qa/layout_density_proof.py:183-186 | the scan of `meta.validation.issues` is the specification's density-issue test |
| LayoutDensity.MeasureStep | src/qa/layout_density_proof.py:176-188 | one more page adds its density when it is a dict, and its page number when it has a density issue |
| LayoutDensity.FailuresStep | src/qa/layout_density_proof.py:190-200 | one more density adds a failure with its reason exactly when it does not validate |
| LayoutDensity.MeasurePages | src/qa/layout_density_proof.py:172-200 | the page loop's densities, failures and density issues are the specification's |
| LayoutDensity.PassedMeaning | src/qa/layout_density_proof.py:202 | the run passes iff at least 4 pages are dicts, every density validates and no dict page has a density issue |
| LayoutDensity.RunProof | src/qa/layout_density_proof.py:159-221 | a missing or empty hash or a missing layout fails; otherwise the verdict is that of the measured pages; exit 1 iff not passed |
| LayoutDensity.LatestJob | src/qa/layout_density_proof.py:35-52 | None and 0.0 when the root is missing or no directory holds a layout; otherwise a directory with maximal layout mtime, the first in walk order among equals |
| NoInternalTerms.ElementTextsExact | src/qa/no_internal_terms_proof.py:97-113 | a page yields a text item exactly for each dict, type "text", non-debug element, with its page number and id |
| NoInternalTerms.ElementTextsCount | src/qa/no_internal_terms_proof.py:97-113 | a page yields as many items as it has such elements |
| NoInternalTerms.PagesTextsExact | src/qa/no_internal_terms_proof.py:93-113 | an item is read exactly when some page yields it |
| NoInternalTerms.PagesTextsAppend | src/qa/no_internal_terms_proof.py:93-113 | items are read page after page, in page order |
| NoInternalTerms.AppendPageTexts | src/qa/no_internal_terms_proof.py:95-113 | the inner loop appends one page's items in element order |
| NoInternalTerms.ReadLayoutTexts | src/qa/no_internal_terms_proof.py:80-113 | the loop reads the specification's items; none for a missing layout or a `pages` that is not a list; only job `h`'s layout has to be readable |
| NoInternalTerms.PatternHitsExact | src/qa/no_internal_terms_proof.py:116-131 | an item yields a hit exactly for each internal term it matches as a whole word |
| NoInternalTerms.PatternHitsCount | src/qa/no_internal_terms_proof.py:119-131 | an item yields as many hits as terms it matches, so one text can give several |
| NoInternalTerms.PatternHitsEmpty | src/qa/no_internal_terms_proof.py:119-131 | an item yields no hit exactly when it matches no term |
| NoInternalTerms.ForbiddenHitsAppend | src/qa/no_internal_terms_proof.py:116-131 | hits come item after item, in item order |
| NoInternalTerms.ForbiddenHitsPerItem | src/qa/no_internal_terms_proof.py:116-131 | a hit is reported exactly when some item yields it |
| NoInternalTerms.ForbiddenHitsExact | src/qa/no_internal_terms_proof.py:16-24 | a hit is reported exactly for each (item, term) pair where the item's text contains the term as a whole word, ignoring ASCII case |
| NoInternalTerms.ForbiddenHitsEmpty | src/qa/no_internal_terms_proof.py:116-131 | there is no hit exactly when no item matches any term |
| NoInternalTerms.AppendItemHits | src/qa/no_internal_terms_proof.py:119-131 | the inner loop appends one item's hits in term order |
| NoInternalTerms.FindForbiddenHits | src/qa/no_internal_terms_proof.py:116-131 | the nested loop's hits are the specification's |
| NoInternalTerms.HasInternalTermGateIssue | src/qa/no_internal_terms_proof.py:134-147 | true iff the body is a dict with an issue list holding a dict issue whose message contains "internal term leakage detected" |
| NoInternalTerms.Verdict | src/qa/no_internal_terms_proof.py:192-196 | status 200 passes iff there are no hits and the request hash is a string; status 400 passes iff the gate issue is present; any other status fails |
| NoInternalTerms.OtherLayoutsIgnored | src/qa/no_internal_terms_proof.py:189 | storing any value, even a layout with a non-dict page, under another job's hash keeps the case readable and leaves the texts it scans unchanged |
| NoInternalTerms.RunProof | src/qa/no_internal_terms_proof.py:183-209 | the outcome records status and hash, the hits of the texts read for a string hash (none otherwise), the gate flag and the verdict; exit 1 iff not passed; only the request hash's layout has to be readable |
| NoInternalTerms.CompletedVerdict | src/qa/no_internal_terms_proof.py:189-196 | a status-200 export passes iff it carries a request hash and no read text contains any internal term, whatever the other stored layouts hold |
| JobIsolation.PayloadsDifferOnlyInJobAndSeed | src/qa/job_isolation_proof.py:76-90 | two payloads have the same keys and differ at most in `jobId` and `seed`, which hold the given values |
| JobIsolation.TriggerQueriesDifferOnlyInJobAndSeed | src/qa/job_isolation_proof.py:103-134 | the two regenerate queries have the same keys and differ at most in `jobId` and `seed` |
| JobIsolation.FirstSlashAfterName | src/qa/job_isolation_proof.py:93-95 | in a job file path the first slash ends the job directory's name |
| JobIsolation.JobFileParts | src/qa/job_isolation_proof.py:93-95 | a job file path gives back the job's hash and the file name |
| JobIsolation.JobFilesIsolated | src/qa/job_isolation_proof.py:93-95 | a job's layout and audit files differ, never coincide with another job's file of the other kind, and equal files mean equal hashes |
| JobIsolation.Digest | src/qa/job_isolation_proof.py:70-73 | a file has a digest exactly when it exists |
| JobIsolation.LayoutHashMatches | src/qa/job_isolation_proof.py:150-166 | true iff the hash is a string and the job's layout exists, parses and has `params.requestHash` equal to it; never for a missing hash |
| JobIsolation.RunProof | src/qa/job_isolation_proof.py:114-176 | the flags: hashes differ iff both are strings and unequal; job A's files are stable iff both existed before and after with equal digests; job B's files exist iff both do; layout hash matches per job |
| JobIsolation.CompletedHashesDifferent | src/qa/job_isolation_proof.py:48-54 | for two successful exports the hashes differ iff both replies carry the request-hash header with different values |
| Determinism.TriggerQueryOfPayload | src/qa/determinism_proof.py:67-79 | the regenerate query copies job id, kind, page count, title, variant and seed from the payload and adds size A4P |
| Determinism.RunOf | src/qa/determinism_proof.py:19-46 | the run keeps the status and the record's hashes, and takes the reference-index status from its header on success and, on error, from `referenceIndexStatus` of the dict body's `referenceUsageReport` (None for a body that is not a dict) |
| Determinism.SameHashSymmetric | src/qa/determinism_proof.py:84-92 | both hash comparisons are symmetric and imply that run B's hash is not None |
| Determinism.HashesCompareByPythonEquality | src/qa/determinism_proof.py:84-92 | hashes compare by Python's `==`: a number hash matches any number of the same value, int or float; a bool hash matches exactly 1 or 0; a string hash matches only the same string |
| Determinism.PassedMeansMatchingHeaders | src/qa/determinism_proof.py:84-99 | a passing pair of successful exports carried both hash headers with equal values |
| Determinism.DeterminismVerdict | src/qa/determinism_proof.py:99 | passing implies both statuses are 200 and both hashes are not None and equal under Python's `==`; the same successful reply twice with both headers passes |
| Determinism.RejectedNeverPasses | src/qa/determinism_proof.py:99 | a non-200 export never passes |
| ReferenceGate.MessagesExact | src/qa/reference_gate_proof.py:81 | the message list holds exactly the `str(message)` of the dict issues |
| ReferenceGate.AnyContainsExact | src/qa/reference_gate_proof.py:81-82 | a marker is found in the messages iff some dict issue's message contains it |
| ReferenceGate.GateIssueExact | src/qa/reference_gate_proof.py:67-82 | the gate issue holds iff the body is a dict with an issue list and each provenance marker is in some dict issue's message |
| ReferenceGate.OneMessageSuffices | src/qa/reference_gate_proof.py:76-82 | one dict issue whose message holds both markers is enough |
| ReferenceGate.FoundInSuperset | src/qa/reference_gate_proof.py:81-82 | a marker found among some issues is found among any list containing them |
| ReferenceGate.GateIssueMonotone | src/qa/reference_gate_proof.py:81-82 | reporting more issues never takes the gate issue away |
| ReferenceGate.GateIssueAppendAndReorder | src/qa/reference_gate_proof.py:81-82 | appending issues keeps the gate issue, and reordering them does not change it |
| ReferenceGate.ExportPayload | src/qa/reference_gate_proof.py:85-101 | the disable flag is present, as "1", iff asked for; every other key and value is the base payload's |
| ReferenceGate.OutcomeOf | src/qa/reference_gate_proof.py:121-127 | the statuses are recorded; the gate verdict depends on the blocked body alone; the blocked body is kept as it came; the allowed audit hash is the audit-hash header's value when that header is present and None otherwise |
| ReferenceIndex.FirstIndex | src/qa/reference_index_proof.py:61-68 | the chosen index is -1 or a present key |
| ReferenceIndex.NewMinimum | src/qa/reference_index_proof.py:61-68 | a key strictly below the current choice heads the stably sorted keys |
| ReferenceIndex.KeepMinimum | src/qa/reference_index_proof.py:61-68 | a key not strictly below the current choice leaves it heading the sorted keys |
| ReferenceIndex.FirstIndexIsFirstSorted | src/qa/reference_index_proof.py:61-68 | the choice is -1 iff no key is present, and otherwise is the first element of the stably sorted keys |
| ReferenceIndex.ReferenceKeys | src/qa/reference_index_proof.py:62-63 | one sort key per file |
| ReferenceIndex.FirstReferenceIsFirstSorted | src/qa/reference_index_proof.py:60-71 | the touched reference is None iff no file is an image by lower-cased suffix; otherwise it is the image first in order of lower-cased path |
| ReferenceIndex.HasReferenceGateIssue | src/qa/reference_index_proof.py:74-88 | true iff the body is a dict with an issue list and some dict issue's message contains "reference index must be fresh" |
| ReferenceIndex.ReferenceCount | src/qa/reference_index_proof.py:49-57 | the reference count is None for a missing or unparsable index and `referenceCount` of a dict index |
| ReferenceIndex.RunProof | src/qa/reference_index_proof.py:118-128 | the outcome: index existence, both counts, the touched reference, the stale status and gate flag, `rebuild_unblocked` iff the rebuilt status is exactly 200, and the stale usage report |
| NoDomainCopy.LineHitsExact | src/qa/no_domain_copy_proof.py:27-37 | a line yields a hit exactly for each pattern it matches, carrying path, line number, pattern text and snippet |
| NoDomainCopy.LineHitsStep | src/qa/no_domain_copy_proof.py:27-37 | one more pattern adds its hit exactly when the line matches it |
| NoDomainCopy.LineHitsAppend | src/qa/no_domain_copy_proof.py:27-37 | a line's hits follow the pattern list's order |
| NoDomainCopy.LineHitsEmpty | src/qa/no_domain_copy_proof.py:27-29 | a line yields no hit exactly when it matches no pattern |
| NoDomainCopy.LineHitsNumbered | src/qa/no_domain_copy_proof.py:30-34 | every hit of a line carries that line's number and the file's path |
| NoDomainCopy.FileHitsOrdered | src/qa/no_domain_copy_proof.py:26-37 | hit line numbers lie in 1..number of lines and never decrease |
| NoDomainCopy.FileHitsFlatten | src/qa/no_domain_copy_proof.py:26-37 | a file's hits are its lines' hits, line after line |
| NoDomainCopy.FileHitsExact | src/qa/no_domain_copy_proof.py:26-37 | a hit is in the file's hits exactly when some line yields it with its 1-based number |
| NoDomainCopy.FileHitsMatch | src/qa/no_domain_copy_proof.py:21-38 | a hit is reported exactly for each (line, pattern) pair that matches, with 1-based line number and stripped snippet |
| NoDomainCopy.FileHitsEmpty | src/qa/no_domain_copy_proof.py:21-38 | a file has no hit exactly when no line matches any pattern |
| NoDomainCopy.AppendLineHits | src/qa/no_domain_copy_proof.py:27-37 | the inner loop appends one line's hits |
| NoDomainCopy.ScanFile | src/qa/no_domain_copy_proof.py:21-38 | the nested loop's hits are the specification's, with the stripped line as snippet |
| NoDomainCopy.DirFindingsEmpty | src/qa/no_domain_copy_proof.py:47-50 | a walk has no finding exactly when no scanned file has a hit |
| NoDomainCopy.FindingsEmpty | src/qa/no_domain_copy_proof.py:44-50 | there is no finding exactly when no existing target directory's walk has one |
| NoDomainCopy.PassedMeansClean | src/qa/no_domain_copy_proof.py:44-53 | a passing scan means no line of any scanned `.ts`/`.tsx`/`.js`/`.jsx` file under src or app matches any pattern |
| NoDomainCopy.ScanEntry | src/qa/no_domain_copy_proof.py:48-50 | a walked entry adds its hits iff it is a file whose lower-cased suffix is an allowed extension |
| NoDomainCopy.ScanDir | src/qa/no_domain_copy_proof.py:47-50 | a directory's walk adds the findings of its scanned entries in walk order |
| NoDomainCopy.RunProof | src/qa/no_domain_copy_proof.py:41-60 | findings are those of the existing target directories in order; passed iff there are none; `finding_count` is their number; exit 1 iff any |

## Left out

- HTTP: requests, timeouts, `HTTPError` and `urlencode` are not modelled. An export reply is given as its status, raw header pairs and parsed body.
- File-system I/O is not modelled: `ensure_test_images`, reading layouts, `rglob`/`iterdir` and `is_file`, `stat().st_mtime`, `os.utime` and `read_text`. Layouts are given keyed by request hash, walks as entry lists, and mtimes as numbers.
- `json.loads` is not modelled; its result is given, with None for a parse failure. `hashlib.sha256` digests are opaque values.
- Python's `re` engine is replaced by hand-written matchers. Internal terms are matched as whole words, with ASCII letters, digits, `_` and Hangul syllables as word characters. Domain-copy patterns are literal words joined by any run of whitespace.
- Case mapping covers ASCII only. `re.IGNORECASE`, `str.lower()` and `str.upper()` also map non-ASCII letters (for example the Kelvin sign and the long s); the model does not.
- `\s`, `str.split()` and `str.strip()` use a fixed whitespace set. Unicode separators outside it are not whitespace here.
- `str()` renders integers and integral floats below 1e16 in magnitude as Python does (a float keeps its ".0"); fractional or larger floats, lists and dicts give a fixed marker text instead of Python's repr, and JSON numbers are exact reals rather than doubles.
- `round(..., 2)` for `body_font_min_pt` and `round(..., 4)` for `coverage_ratio` are not modelled: values are exact reals. Rounding can move a value across a threshold boundary. `float()` and `int()` of strings are left out as well.
- `splitlines()` is not modelled; a file is given as its list of lines.
- `src/qa/runtime_gate_proof.py` drives a browser and has no verdict beyond a log-marker test. `src/qa/export_gate_proof.py` posts two fixed forms and prints the results. Neither is part of this model.
- Crash paths on malformed JSON are preconditions, not modelled behaviour. They are required only of the values a script actually reads: a case's own layout, not every layout in the store. Examples: `pages` or `elements` null, a non-dict page in the internal-terms reader, a null `referenceUsageReport`, a non-dict layout `params`.
- Printing, `json.dumps` and `sys.exit` are reduced to the recorded outcome and an exit code that is 1 exactly when the run did not pass.
- Payloads and queries are maps, so key insertion order is not kept. The layout-density group dict does keep its insertion order.
- Job file paths are decoded only for plain hashes: non-empty, without a slash, not "." or "..". Other hashes join differently under pathlib, so JobIsolation.JobFilesIsolated requires a plain hash.
- Iterating a value that is not a list visits nothing, matching the scripts' `isinstance` guards. Where the scripts iterate unguarded, a list is required instead.
- LayoutDensity.LatestJob models the stable descending sort by mtime followed by taking the first element, as a scan keeping the first maximum.
- Python string comparison is modelled as code-point lexicographic order (`Paths.LexLess`).
- The copy-density export payload and the `copywriter_*` header fields of a case result are fixed or only echoed; no verdict depends on them, and they are not modelled.
- The trigger-regenerate calls happen before any export and are not modelled; only the query they send is built.
