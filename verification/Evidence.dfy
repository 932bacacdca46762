/** Validation of data-minimum violation evidence: what is accepted, and that what
    is returned is accepted again as it is. */
module Evidence {
  import opened Characters
  import opened ReferenceGrammar
  import opened Splitting

  // ----- forbidden terms -----

  function LowerChar(c: char): char {
    if 'A' <= c <= 'Z' then (c as int + 32) as char else c
  }

  function Lower(s: string): (r: string)
    ensures |r| == |s|
  {
    seq(|s|, k requires 0 <= k < |s| => LowerChar(s[k]))
  }

  /** Upper-case letters become the lower-case ones at the same place of the alphabet;
      nothing else changes. */
  lemma LowerExactly(s: string, k: nat)
    requires k < |s|
    ensures s[k] !in UPPER ==> Lower(s)[k] == s[k]
    ensures forall i :: 0 <= i < 26 && s[k] == UPPER[i] ==> Lower(s)[k] == LOWER[i]
  {
    UpperLetters(s[k]);
    forall i | 0 <= i < 26 ensures LowerChar(UPPER[i]) == LOWER[i] {
      SamePlace(i);
    }
  }

  lemma SamePlace(i: nat)
    requires i < 26
    ensures LowerChar(UPPER[i]) == LOWER[i]
  {
  }

  /** `re.split(r"[._~-]+", text)`: cut at every maximal run of joiners. */
  function SplitRuns(text: string): (parts: seq<string>)
    ensures |parts| >= 1
  {
    if text == "" then [""]
    else
      var rest := SplitRuns(text[1..]);
      if !IsJoiner(text[0]) then [[text[0]] + rest[0]] + rest[1..]
      else if |text| > 1 && IsJoiner(text[1]) then rest
      else [""] + rest
  }

  ghost predicate JoinerFree(t: string) {
    forall k :: 0 <= k < |t| ==> !IsJoiner(t[k])
  }

  /** The non-empty `t` stands at `i`, between joiners or the ends of the text. */
  ghost predicate RunAt(text: string, i: nat, t: string) {
    && t != "" && JoinerFree(t)
    && i + |t| <= |text| && text[i..i + |t|] == t
    && (i == 0 || IsJoiner(text[i - 1]))
    && (i + |t| == |text| || IsJoiner(text[i + |t|]))
  }

  ghost predicate HasRun(text: string, low: nat, t: string) {
    exists i: nat :: low <= i && RunAt(text, i, t)
  }

  lemma {:induction false} FirstRun(text: string)
    ensures var lead := SplitRuns(text)[0];
      && |lead| <= |text| && text[..|lead|] == lead && JoinerFree(lead)
      && (|lead| == |text| || IsJoiner(text[|lead|]))
  {
    if text != "" {
      FirstRun(text[1..]);
    }
  }

  lemma RunShifts(text: string, i: nat, t: string)
    requires text != "" && i >= 1
    ensures RunAt(text, i + 1, t) <==> RunAt(text[1..], i, t)
  {
    var rest := text[1..];
    if i + |t| <= |rest| {
      var a, b := text[i + 1..i + 1 + |t|], rest[i..i + |t|];
      assert forall k :: 0 <= k < |t| ==> a[k] == b[k];
    }
  }

  lemma RunsShift(text: string, t: string)
    requires text != ""
    ensures HasRun(text, 2, t) <==> HasRun(text[1..], 1, t)
  {
    if HasRun(text, 2, t) {
      var i: nat :| 2 <= i && RunAt(text, i, t);
      RunShifts(text, i - 1, t);
    }
    if HasRun(text[1..], 1, t) {
      var i: nat :| 1 <= i && RunAt(text[1..], i, t);
      RunShifts(text, i, t);
    }
  }

  /** The run at the front is the first piece, and no other. */
  lemma LeadingRun(text: string, t: string)
    ensures RunAt(text, 0, t) <==> t != "" && t == SplitRuns(text)[0]
  {
    FirstRun(text);
    var lead := SplitRuns(text)[0];
    if RunAt(text, 0, t) {
      assert forall k :: 0 <= k < |t| ==> t[k] == text[k];
      assert forall k :: 0 <= k < |lead| ==> lead[k] == text[k];
      assert |t| == |lead|;
    }
  }

  lemma SecondRun(text: string, t: string)
    requires text != ""
    ensures RunAt(text, 1, t) <==> IsJoiner(text[0]) && RunAt(text[1..], 0, t)
  {
    if 1 + |t| <= |text| {
      assert text[1..1 + |t|] == text[1..][0..|t|];
    }
  }

  lemma {:induction false} LaterPieces(text: string, t: string)
    requires t != ""
    ensures t in SplitRuns(text)[1..] <==> HasRun(text, 1, t)
  {
    if text != "" {
      var rest := text[1..];
      var pieces := SplitRuns(rest);
      LaterPieces(rest, t);
      RunsShift(text, t);
      SecondRun(text, t);
      LeadingRun(rest, t);
      assert HasRun(text, 1, t) <==> RunAt(text, 1, t) || HasRun(text, 2, t);
      assert pieces == [pieces[0]] + pieces[1..];
      if IsJoiner(text[0]) && !(|text| > 1 && IsJoiner(text[1])) {
        assert SplitRuns(text)[1..] == pieces;
      } else if IsJoiner(text[0]) {
        FirstRun(rest);
      }
    }
  }

  /** The pieces are exactly the maximal joiner-free runs. */
  lemma PiecesAreRuns(text: string, t: string)
    requires t != ""
    ensures t in SplitRuns(text) <==> HasRun(text, 0, t)
  {
    var pieces := SplitRuns(text);
    LaterPieces(text, t);
    LeadingRun(text, t);
    assert pieces == [pieces[0]] + pieces[1..];
    assert HasRun(text, 0, t) <==> RunAt(text, 0, t) || HasRun(text, 1, t);
  }

  const FORBIDDEN: set<string> := {
    "alter", "api", "authorization", "bind", "create", "credential", "delete", "drop", "explain", "from", "insert",
    "password", "secret", "select", "sql", "token", "union", "update", "where"
  }

  function TermsOf(path: string): set<string> {
    set segment, term | segment in Split(Lower(path), '/') && term in SplitRuns(segment) :: term
  }

  predicate HasForbiddenTerm(path: string) {
    TermsOf(path) * FORBIDDEN != {}
  }

  /** A path is turned down exactly when, in lower case, a forbidden word fills the
      space between two joiners, slashes or ends; part of a longer word is fine. */
  lemma ForbiddenTermsAreWholeWords(path: string)
    ensures HasForbiddenTerm(path) <==>
      exists segment, t :: segment in Split(Lower(path), '/') && t in FORBIDDEN && HasRun(segment, 0, t)
  {
    assert "" !in FORBIDDEN;
    if HasForbiddenTerm(path) {
      var t :| t in TermsOf(path) * FORBIDDEN;
      var segment :| segment in Split(Lower(path), '/') && t in SplitRuns(segment);
      PiecesAreRuns(segment, t);
    }
    if segment, t :| segment in Split(Lower(path), '/') && t in FORBIDDEN && HasRun(segment, 0, t) {
      PiecesAreRuns(segment, t);
      assert t in TermsOf(path) * FORBIDDEN;
    }
  }

  // ----- values and results -----

  /** A decoded JSON value, or a Python tuple. */
  datatype Value =
    | Null
    | Bool(b: bool)
    | Int(n: int)
    | Str(s: string)
    | List(items: seq<Value>)
    | Tuple(items: seq<Value>)
    | Mapping(entries: map<string, Value>)

  datatype Error = InvalidFields | EvidenceRequired | InvalidFingerprint | InvalidSamples | InvalidSummary | InvalidReference

  datatype Result<+T> = Ok(value: T) | Err(error: Error)

  datatype Record = Record(
    fingerprint: string,
    samples: seq<string>,
    expected: map<string, int>,
    actual: map<string, int>,
    queryReference: string,
    planReference: string)

  datatype Evidence = Nothing | Recorded(record: Record)

  const MAX_LENGTH := 200
  const MAX_SAMPLES := 10
  const MAX_COUNTER := 9_223_372_036_854_775_807
  const QUERY_SCHEME := "query-template://"
  const PLAN_SCHEME := "plan://"

  const FIELDS: set<string> := {
    "fingerprint", "masked_samples", "expected_summary", "actual_summary", "query_reference", "plan_reference"
  }

  const COUNTERS: set<string> := {
    "population_count", "eligible_count", "evaluated_count", "passed_count", "failed_count", "excluded_count",
    "technical_error_count", "unknown_count"
  }

  // ----- the validators -----

  function ValidateOpaqueReference(value: Value, scheme: string): Result<string> {
    if !value.Str? || |value.s| > MAX_LENGTH || !StartsWith(value.s, scheme) then Err(InvalidReference)
    else
      var path := value.s[|scheme|..];
      if !IsPath(path) then Err(InvalidReference)
      else if HasForbiddenTerm(path) then Err(InvalidReference)
      else Ok(value.s)
  }

  function ValidateFingerprint(value: Value): Result<string> {
    if value.Str? && (IsSha256Digest(value.s) || IsHmacReference(value.s)) then Ok(value.s) else Err(InvalidFingerprint)
  }

  predicate IsSample(item: Value) {
    item.Str? && IsHmacReference(item.s)
  }

  function ValidateMaskedSamples(value: Value): Result<seq<string>> {
    if !(value.List? || value.Tuple?) || |value.items| > MAX_SAMPLES
       || exists k :: 0 <= k < |value.items| && !IsSample(value.items[k])
    then Err(InvalidSamples)
    else Ok(seq(|value.items|, k requires 0 <= k < |value.items| && IsSample(value.items[k]) => value.items[k].s))
  }

  predicate IsCount(value: Value) {
    value.Int? && 0 <= value.n <= MAX_COUNTER
  }

  function ValidateAggregateSummary(value: Value): Result<map<string, int>> {
    if !value.Mapping? || value.entries == map[] || |value.entries| > |COUNTERS| || !(value.entries.Keys <= COUNTERS)
       || exists name :: name in value.entries && !IsCount(value.entries[name])
    then Err(InvalidSummary)
    else Ok(map name | name in value.entries :: value.entries[name].n)
  }

  function ValidateFields(entries: map<string, Value>): Result<Record>
    requires entries.Keys == FIELDS
  {
    match ValidateFingerprint(entries["fingerprint"])
    case Err(e) => Err(e)
    case Ok(fingerprint) =>
      match ValidateMaskedSamples(entries["masked_samples"])
      case Err(e) => Err(e)
      case Ok(samples) =>
        match ValidateAggregateSummary(entries["expected_summary"])
        case Err(e) => Err(e)
        case Ok(expected) =>
          match ValidateAggregateSummary(entries["actual_summary"])
          case Err(e) => Err(e)
          case Ok(actual) =>
            match ValidateOpaqueReference(entries["query_reference"], QUERY_SCHEME)
            case Err(e) => Err(e)
            case Ok(query) =>
              match ValidateOpaqueReference(entries["plan_reference"], PLAN_SCHEME)
              case Err(e) => Err(e)
              case Ok(plan) => Ok(Record(fingerprint, samples, expected, actual, query, plan))
  }

  function ValidateViolationEvidence(evidence: Value, required: bool): Result<Evidence> {
    if !evidence.Mapping? then Err(InvalidFields)
    else if evidence.entries == map[] then if required then Err(EvidenceRequired) else Ok(Nothing)
    else if evidence.entries.Keys != FIELDS then Err(InvalidFields)
    else
      match ValidateFields(evidence.entries)
      case Err(e) => Err(e)
      case Ok(record) => Ok(Recorded(record))
  }

  // ----- what is accepted -----

  /** The three expressions a record is held against. */
  datatype Grammar = Grammar(path: Regex, digest: Regex, hmac: Regex)

  ghost const PATTERNS: Grammar := Grammar(PATH, SHA256_DIGEST, HMAC_REFERENCE)

  ghost predicate Describes(g: Grammar) {
    Accepts(g.path, IsPath) && Accepts(g.digest, IsSha256Digest) && Accepts(g.hmac, IsHmacReference)
  }

  lemma PatternsDescribe()
    ensures Describes(PATTERNS)
  {
    forall s ensures PATH(s) <==> IsPath(s) {
      PathGrammar(s);
    }
    forall s ensures SHA256_DIGEST(s) <==> IsSha256Digest(s) {
      Sha256Grammar(s);
    }
    forall s ensures HMAC_REFERENCE(s) <==> IsHmacReference(s) {
      HmacGrammar(s);
    }
  }

  ghost predicate NamesForbidden(path: string) {
    exists segment, t :: segment in Split(Lower(path), '/') && t in FORBIDDEN && HasRun(segment, 0, t)
  }

  ghost predicate AcceptsReference(g: Grammar, value: Value, scheme: string) {
    && value.Str? && |value.s| <= 200 && StartsWith(value.s, scheme)
    && g.path(value.s[|scheme|..]) && !NamesForbidden(value.s[|scheme|..])
  }

  ghost predicate AcceptsFingerprint(g: Grammar, value: Value) {
    value.Str? && (g.digest(value.s) || g.hmac(value.s))
  }

  ghost predicate AcceptsSamples(g: Grammar, value: Value) {
    && (value.List? || value.Tuple?) && |value.items| <= 10
    && forall k :: 0 <= k < |value.items| ==> value.items[k].Str? && g.hmac(value.items[k].s)
  }

  ghost predicate AcceptsSummary(value: Value) {
    && value.Mapping? && value.entries != map[] && value.entries.Keys <= COUNTERS
    && forall name :: name in value.entries ==> value.entries[name].Int? && 0 <= value.entries[name].n < 0x8000_0000_0000_0000
  }

  ghost predicate AcceptsFields(g: Grammar, entries: map<string, Value>)
    requires entries.Keys == FIELDS
  {
    && AcceptsFingerprint(g, entries["fingerprint"])
    && AcceptsSamples(g, entries["masked_samples"])
    && AcceptsSummary(entries["expected_summary"])
    && AcceptsSummary(entries["actual_summary"])
    && AcceptsReference(g, entries["query_reference"], QUERY_SCHEME)
    && AcceptsReference(g, entries["plan_reference"], PLAN_SCHEME)
  }

  lemma ReferenceAcceptedExactly(g: Grammar, value: Value, scheme: string)
    requires Describes(g)
    ensures ValidateOpaqueReference(value, scheme)
      == if AcceptsReference(g, value, scheme) then Ok(value.s) else Err(InvalidReference)
  {
    if value.Str? && StartsWith(value.s, scheme) {
      ForbiddenTermsAreWholeWords(value.s[|scheme|..]);
    }
  }

  lemma FingerprintAcceptedExactly(g: Grammar, value: Value)
    requires Describes(g)
    ensures ValidateFingerprint(value) == if AcceptsFingerprint(g, value) then Ok(value.s) else Err(InvalidFingerprint)
  {
  }

  function Strings(samples: seq<string>): (items: seq<Value>)
    ensures |items| == |samples|
  {
    seq(|samples|, k requires 0 <= k < |samples| => Str(samples[k]))
  }

  lemma SamplesAcceptedExactly(g: Grammar, value: Value)
    requires Describes(g)
    ensures ValidateMaskedSamples(value).Ok? <==> AcceptsSamples(g, value)
  {
    if value.List? || value.Tuple? {
      assert forall k :: 0 <= k < |value.items| ==> (IsSample(value.items[k]) <==>
          value.items[k].Str? && g.hmac(value.items[k].s));
    }
  }

  lemma SamplesAreReturned(value: Value)
    requires ValidateMaskedSamples(value).Ok?
    ensures Strings(ValidateMaskedSamples(value).value) == value.items
  {
  }

  function Counts(summary: map<string, int>): map<string, Value> {
    map name | name in summary :: Int(summary[name])
  }

  lemma SubsetIsNoLarger(a: set<string>, b: set<string>)
    requires a <= b
    ensures |a| <= |b|
  {
    assert b == a + (b - a);
  }

  lemma SummaryAcceptedExactly(value: Value)
    ensures ValidateAggregateSummary(value).Ok? <==> AcceptsSummary(value)
  {
    if value.Mapping? && value.entries.Keys <= COUNTERS {
      SubsetIsNoLarger(value.entries.Keys, COUNTERS);
      assert |value.entries| == |value.entries.Keys|;
    }
  }

  ghost predicate FieldsValidate(entries: map<string, Value>)
    requires entries.Keys == FIELDS
  {
    && ValidateFingerprint(entries["fingerprint"]).Ok?
    && ValidateMaskedSamples(entries["masked_samples"]).Ok?
    && ValidateAggregateSummary(entries["expected_summary"]).Ok?
    && ValidateAggregateSummary(entries["actual_summary"]).Ok?
    && ValidateOpaqueReference(entries["query_reference"], QUERY_SCHEME).Ok?
    && ValidateOpaqueReference(entries["plan_reference"], PLAN_SCHEME).Ok?
  }

  lemma FieldsAcceptedExactly(g: Grammar, entries: map<string, Value>)
    requires entries.Keys == FIELDS && Describes(g)
    ensures FieldsValidate(entries) <==> AcceptsFields(g, entries)
  {
    FingerprintAcceptedExactly(g, entries["fingerprint"]);
    SamplesAcceptedExactly(g, entries["masked_samples"]);
    SummaryAcceptedExactly(entries["expected_summary"]);
    SummaryAcceptedExactly(entries["actual_summary"]);
    ReferenceAcceptedExactly(g, entries["query_reference"], QUERY_SCHEME);
    ReferenceAcceptedExactly(g, entries["plan_reference"], PLAN_SCHEME);
  }

  lemma EvidenceNeedsEveryField(evidence: Value, required: bool)
    ensures ValidateViolationEvidence(evidence, required).Ok? <==>
      && evidence.Mapping?
      && if evidence.entries == map[] then !required
         else evidence.entries.Keys == FIELDS && FieldsValidate(evidence.entries)
  {
  }

  /** Evidence is accepted exactly when it is an empty mapping that may be missing,
      or has the six fields and each meets its own rule.  `PATTERNS` is such a
      grammar. */
  lemma EvidenceAcceptedExactly(g: Grammar, evidence: Value, required: bool)
    requires Describes(g)
    ensures ValidateViolationEvidence(evidence, required).Ok? <==>
      && evidence.Mapping?
      && if evidence.entries == map[] then !required
         else evidence.entries.Keys == FIELDS && AcceptsFields(g, evidence.entries)
  {
    EvidenceNeedsEveryField(evidence, required);
    if evidence.Mapping? && evidence.entries.Keys == FIELDS {
      FieldsAcceptedExactly(g, evidence.entries);
    }
  }

  // ----- what is returned -----

  function Entries(fingerprint: Value, samples: Value, expected: Value, actual: Value, query: Value, plan: Value)
    : map<string, Value>
  {
    map[
      "fingerprint" := fingerprint,
      "masked_samples" := samples,
      "expected_summary" := expected,
      "actual_summary" := actual,
      "query_reference" := query,
      "plan_reference" := plan
    ]
  }

  function FieldsOf(record: Record): map<string, Value> {
    Entries(Str(record.fingerprint), List(Strings(record.samples)), Mapping(Counts(record.expected)),
            Mapping(Counts(record.actual)), Str(record.queryReference), Str(record.planReference))
  }

  /** The returned evidence as a value. */
  function AsValue(evidence: Evidence): Value {
    match evidence
    case Nothing => Mapping(map[])
    case Recorded(record) => Mapping(FieldsOf(record))
  }

  /** The samples as a list; everything else as it was. */
  function Listed(entries: map<string, Value>): map<string, Value>
    requires "masked_samples" in entries
  {
    var samples := entries["masked_samples"];
    entries["masked_samples" := if samples.Tuple? then List(samples.items) else samples]
  }

  lemma SummaryIsReturned(value: Value)
    requires ValidateAggregateSummary(value).Ok?
    ensures Mapping(Counts(ValidateAggregateSummary(value).value)) == value
  {
  }

  lemma TextsAreReturned(value: Value, scheme: string)
    ensures ValidateFingerprint(value).Ok? ==> Str(ValidateFingerprint(value).value) == value
    ensures ValidateOpaqueReference(value, scheme).Ok? ==> Str(ValidateOpaqueReference(value, scheme).value) == value
  {
  }

  /** Replacing the samples leaves the other five entries. */
  lemma EntriesWithSamples(entries: map<string, Value>, samples: Value)
    requires entries.Keys == FIELDS
    ensures entries["masked_samples" := samples]
      == Entries(entries["fingerprint"], samples, entries["expected_summary"], entries["actual_summary"],
                 entries["query_reference"], entries["plan_reference"])
  {
    var replaced := entries["masked_samples" := samples];
    var spelled := Entries(entries["fingerprint"], samples, entries["expected_summary"], entries["actual_summary"],
                           entries["query_reference"], entries["plan_reference"]);
    assert replaced.Keys == FIELDS == spelled.Keys;
    forall name | name in FIELDS ensures replaced[name] == spelled[name] {
    }
  }

  lemma FieldsAreReturned(entries: map<string, Value>)
    requires entries.Keys == FIELDS && ValidateFields(entries).Ok?
    ensures FieldsOf(ValidateFields(entries).value) == Listed(entries)
  {
    var record, samples := ValidateFields(entries).value, entries["masked_samples"];
    var list := if samples.Tuple? then List(samples.items) else samples;
    TextsAreReturned(entries["fingerprint"], QUERY_SCHEME);
    TextsAreReturned(entries["query_reference"], QUERY_SCHEME);
    TextsAreReturned(entries["plan_reference"], PLAN_SCHEME);
    SamplesAreReturned(samples);
    SummaryIsReturned(entries["expected_summary"]);
    SummaryIsReturned(entries["actual_summary"]);
    assert List(Strings(record.samples)) == list;
    EntriesWithSamples(entries, list);
  }

  /** Accepted evidence comes back unchanged, except that a tuple of samples becomes
      a list. */
  lemma EvidenceIsReturned(evidence: Value, required: bool)
    requires ValidateViolationEvidence(evidence, required).Ok?
    ensures AsValue(ValidateViolationEvidence(evidence, required).value)
      == if evidence.entries == map[] then evidence else Mapping(Listed(evidence.entries))
  {
    if evidence.entries != map[] {
      FieldsAreReturned(evidence.entries);
    }
  }

  lemma ListedSamplesValidateAlike(value: Value)
    requires value.Tuple?
    ensures ValidateMaskedSamples(List(value.items)) == ValidateMaskedSamples(value)
  {
    var other := List(value.items);
    assert (exists k :: 0 <= k < |other.items| && !IsSample(other.items[k]))
      == (exists k :: 0 <= k < |value.items| && !IsSample(value.items[k]));
  }

  lemma ListedKeepsTheOthers(entries: map<string, Value>)
    requires entries.Keys == FIELDS
    ensures Listed(entries).Keys == FIELDS
    ensures forall name :: name in FIELDS && name != "masked_samples" ==> Listed(entries)[name] == entries[name]
    ensures ValidateMaskedSamples(Listed(entries)["masked_samples"]) == ValidateMaskedSamples(entries["masked_samples"])
  {
    if entries["masked_samples"].Tuple? {
      ListedSamplesValidateAlike(entries["masked_samples"]);
    }
  }

  lemma ListedValidatesAlike(entries: map<string, Value>)
    requires entries.Keys == FIELDS
    ensures Listed(entries).Keys == FIELDS && ValidateFields(Listed(entries)) == ValidateFields(entries)
  {
    ListedKeepsTheOthers(entries);
  }

  /** Validating what validation returned gives the same result again. */
  lemma ValidationIsIdempotent(evidence: Value, required: bool)
    requires ValidateViolationEvidence(evidence, required).Ok?
    ensures var first := ValidateViolationEvidence(evidence, required);
      ValidateViolationEvidence(AsValue(first.value), required) == first
  {
    EvidenceIsReturned(evidence, required);
    if evidence.entries != map[] {
      ListedValidatesAlike(evidence.entries);
    }
  }
}
