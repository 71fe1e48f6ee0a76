/** The survey routes (backend/routes/survey.routes.js): submission
    validation and acceptance, the filtered, sorted and paginated listing, and
    lookup and deletion by id, over a store of saved surveys. */
module SurveyRoutes {
  import opened Wrappers
  import opened Ordering
  import opened SurveyModel

  // ---------------------------------------------------------------- submissions

  /** A request body as received. A field the client left out of a required
      enum reads as `""`; `age` is `Some(n)` when the field is an integer
      (a number or an integer literal) and `None` otherwise; `sqdAnswers[q]`
      is the value given for SQDq; `submittedAt` is a client-supplied
      submission time, which the body spread passes on to the document. */
  datatype Submission = Submission(
    date: Option<int>,
    clientType: string,
    sex: string,
    age: Option<int>,
    region: Option<string>,
    cc1Answer: Option<string>,
    cc2Answer: Option<string>,
    cc3Answer: Option<string>,
    sqdAnswers: seq<Option<int>>,
    suggestions: Option<string>,
    submittedAt: Option<int>)

  /** The request fields the validator checks. */
  datatype Field = ClientTypeField | SexField | AgeField | RegionField | SuggestionsField

  /** The name an error reports for its field. */
  function FieldName(f: Field): string
  {
    match f
    case ClientTypeField => "clientType"
    case SexField => "sex"
    case AgeField => "age"
    case RegionField => "region"
    case SuggestionsField => "suggestions"
  }

  /** Each error names its own field: the five names differ. */
  lemma FieldNamesDistinct(a: Field, b: Field)
    ensures FieldName(a) == FieldName(b) <==> a == b
  {
  }

  /** One entry of the 400 response's `errors` array. */
  datatype FieldError = FieldError(field: Field, msg: string)

  /** The sanitisers of `validateSurvey`: `region` and `suggestions` are
      trimmed in the request body before their rules are checked, and the
      document is built from the trimmed body. */
  function Sanitize(raw: Submission): (sub: Submission)
    ensures Sanitized(sub)
    ensures sub.region == TrimOption(raw.region) && sub.suggestions == TrimOption(raw.suggestions)
    ensures sub.(region := raw.region, suggestions := raw.suggestions) == raw
  {
    TrimOptionTrimmed(raw.region);
    TrimOptionTrimmed(raw.suggestions);
    raw.(region := TrimOption(raw.region), suggestions := TrimOption(raw.suggestions))
  }

  /** The sanitised fields carry no white space at either end. */
  predicate Sanitized(sub: Submission)
  {
    IsTrimmed(sub.region) && IsTrimmed(sub.suggestions)
  }

  /** Sanitising a sanitised body changes nothing. */
  lemma SanitizeIdempotent(raw: Submission)
    ensures Sanitize(Sanitize(raw)) == Sanitize(raw)
  {
    var sub := Sanitize(raw);
    if sub.region.Some? {
      TrimTrimmed(sub.region.value);
    }
    if sub.suggestions.Some? {
      TrimTrimmed(sub.suggestions.value);
    }
  }

  lemma TrimOptionTrimmed(o: Option<string>)
    ensures IsTrimmed(TrimOption(o))
  {
    if o.Some? {
      assert TrimOption(o).value == Trim(o.value);
    }
  }

  lemma TrimOptionKeepsTrimmed(o: Option<string>)
    requires IsTrimmed(o)
    ensures TrimOption(o) == o
  {
    if o.Some? {
      TrimTrimmed(o.value);
    }
  }

  // The rules, each read on the sanitised body.
  predicate ClientTypeOk(sub: Submission) { ParseClientType(sub.clientType).Some? }
  predicate SexOk(sub: Submission) { ParseSex(sub.sex).Some? }
  predicate AgeOk(sub: Submission) { sub.age.Some? && MinAge <= sub.age.value <= MaxAge }
  predicate RegionOk(sub: Submission) { sub.region.Some? && sub.region.value != [] }
  predicate SuggestionsOk(sub: Submission)
  {
    sub.suggestions.None? || ValidatorLength(sub.suggestions.value) <= MaxSuggestionLength
  }

  /** The length `isLength` measures: one per character (a surrogate pair
      counts once), the variation selectors U+FE0E and U+FE0F not counted. */
  function ValidatorLength(s: string): (n: nat)
    ensures n <= |s|
  {
    if s == [] then 0
    else (if s[0] == '\U{FE0E}' || s[0] == '\U{FE0F}' then 0 else 1) + ValidatorLength(s[1..])
  }

  /** The validator never measures more than the schema does, and the two
      agree on text inside the Basic Multilingual Plane without variation
      selectors. */
  lemma {:induction false} LengthMeasuresAgree(s: string)
    ensures ValidatorLength(s) <= |s| <= Utf16Length(s)
    ensures (forall k :: 0 <= k < |s| ==> s[k] as int < 0x1_0000 && s[k] != '\U{FE0E}' && s[k] != '\U{FE0F}')
      ==> ValidatorLength(s) == Utf16Length(s)
  {
    if s != [] {
      assert forall k :: 0 <= k < |s| - 1 ==> s[1..][k] == s[k + 1];
      LengthMeasuresAgree(s[1..]);
    }
  }

  /** Characters outside the Basic Multilingual Plane count once for the
      validator and twice for the schema. */
  lemma {:induction false} AstralLengths(s: string)
    requires forall k :: 0 <= k < |s| ==> s[k] as int >= 0x1_0000
    ensures ValidatorLength(s) == |s| && Utf16Length(s) == 2 * |s|
  {
    if s != [] {
      assert forall k :: 0 <= k < |s| - 1 ==> s[1..][k] == s[k + 1];
      AstralLengths(s[1..]);
    }
  }

  /** The two length limits differ: suggestions of 1001 to 2000 characters
      outside the Basic Multilingual Plane (emoji, say) pass the validator's
      rule but exceed the schema's `maxlength`, so the submission is answered
      500 rather than 400. */
  lemma OverlongSuggestionPassesValidator(raw: Submission)
    requires raw.suggestions.Some? && 1000 < |raw.suggestions.value| <= MaxSuggestionLength
    requires forall k :: 0 <= k < |raw.suggestions.value| ==> raw.suggestions.value[k] as int >= 0x1_0000
    ensures SuggestionsOk(Sanitize(raw))
    ensures !SuggestionsFit(Sanitize(raw).suggestions)
  {
    var s := raw.suggestions.value;
    assert !IsWhitespace(s[0]) && !IsWhitespace(s[|s| - 1]);
    TrimTrimmed(s);
    AstralLengths(s);
  }

  /** On the body as received: the region rule holds exactly when a region
      is given that has a character other than white space, and the
      suggestions rule when suggestions are absent or at most 2000
      characters, as `isLength` counts them, remain after trimming. */
  lemma SanitizedRulesMeaning(raw: Submission)
    ensures RegionOk(Sanitize(raw)) <==>
      raw.region.Some? && exists i :: 0 <= i < |raw.region.value| && !IsWhitespace(raw.region.value[i])
    ensures SuggestionsOk(Sanitize(raw)) <==>
      raw.suggestions.None? || ValidatorLength(Trim(raw.suggestions.value)) <= MaxSuggestionLength
  {
    if raw.region.Some? {
      TrimEmpty(raw.region.value);
    }
  }

  /** All five rules of `validateSurvey` hold. */
  predicate Acceptable(sub: Submission)
  {
    ClientTypeOk(sub) && SexOk(sub) && AgeOk(sub) && RegionOk(sub) && SuggestionsOk(sub)
  }

  /** Some entry of `errors` names `field`. */
  predicate Flags(errors: seq<FieldError>, field: Field)
  {
    exists e :: e in errors && e.field == field
  }

  /** One validation rule: whether it holds, and the error it reports. */
  datatype Rule = Rule(ok: bool, field: Field, msg: string)

  /** The rules of `validateSurvey`, in the order they are checked, given
      whether each holds. */
  function RuleTable(clientTypeOk: bool, sexOk: bool, ageOk: bool, regionOk: bool, suggestionsOk: bool): (rs: seq<Rule>)
    ensures |rs| == 5
  {
    [ Rule(clientTypeOk, ClientTypeField, "Invalid client type"),
      Rule(sexOk, SexField, "Invalid sex"),
      Rule(ageOk, AgeField, "Age must be between 1 and 150"),
      Rule(regionOk, RegionField, "Region is required"),
      Rule(suggestionsOk, SuggestionsField, "Suggestions too long") ]
  }

  /** The errors of the failing rules, in rule order. */
  function Collect(rs: seq<Rule>): (errors: seq<FieldError>)
    ensures |errors| <= |rs|
  {
    if rs == [] then []
    else (if rs[0].ok then [] else [FieldError(rs[0].field, rs[0].msg)]) + Collect(rs[1..])
  }

  lemma {:induction false} CollectEmpty(rs: seq<Rule>)
    ensures Collect(rs) == [] <==> forall i :: 0 <= i < |rs| ==> rs[i].ok
  {
    if rs != [] {
      CollectEmpty(rs[1..]);
      assert forall i :: 1 <= i < |rs| ==> rs[i] == rs[1..][i - 1];
    }
  }

  /** A field is reported exactly when some rule for it fails. */
  lemma {:induction false} CollectFlags(rs: seq<Rule>, field: Field)
    ensures Flags(Collect(rs), field) <==> exists i :: 0 <= i < |rs| && !rs[i].ok && rs[i].field == field
  {
    if rs != [] {
      var head := if rs[0].ok then [] else [FieldError(rs[0].field, rs[0].msg)];
      var tail := rs[1..];
      CollectFlags(tail, field);
      assert Collect(rs) == head + Collect(tail);
      if Flags(Collect(rs), field) {
        var e :| e in head + Collect(tail) && e.field == field;
        if e in head {
          assert !rs[0].ok && rs[0].field == field;
        } else {
          assert Flags(Collect(tail), field);
          var i :| 0 <= i < |tail| && !tail[i].ok && tail[i].field == field;
          assert rs[i + 1] == tail[i];
        }
      }
      if exists i :: 0 <= i < |rs| && !rs[i].ok && rs[i].field == field {
        var i :| 0 <= i < |rs| && !rs[i].ok && rs[i].field == field;
        if i == 0 {
          assert FieldError(rs[0].field, rs[0].msg) in Collect(rs);
        } else {
          assert tail[i - 1] == rs[i];
          var e :| e in Collect(tail) && e.field == field;
          assert e in Collect(rs);
        }
      }
    }
  }

  /** Every reported field belongs to some failing rule. */
  lemma CollectFieldsFromRules(rs: seq<Rule>, k: nat)
    requires k < |Collect(rs)|
    ensures exists i :: 0 <= i < |rs| && !rs[i].ok && rs[i].field == Collect(rs)[k].field
  {
    var e := Collect(rs)[k];
    assert Flags(Collect(rs), e.field);
    CollectFlags(rs, e.field);
  }

  /** Rules with pairwise distinct fields report each field at most once. */
  lemma {:induction false} CollectDistinct(rs: seq<Rule>)
    requires forall i, j :: 0 <= i < j < |rs| ==> rs[i].field != rs[j].field
    ensures DistinctBy(Collect(rs), ErrorField)
  {
    if rs != [] {
      var tail := rs[1..];
      assert forall i, j :: 0 <= i < j < |tail| ==> tail[i].field == rs[i + 1].field && tail[j].field == rs[j + 1].field;
      CollectDistinct(tail);
      if !rs[0].ok {
        HeadFieldNotInTail(rs);
        DistinctCons(FieldError(rs[0].field, rs[0].msg), Collect(tail));
      }
    }
  }

  /** The first rule's field is not reported by the later rules. */
  lemma HeadFieldNotInTail(rs: seq<Rule>)
    requires rs != []
    requires forall i, j :: 0 <= i < j < |rs| ==> rs[i].field != rs[j].field
    ensures forall k :: 0 <= k < |Collect(rs[1..])| ==> Collect(rs[1..])[k].field != rs[0].field
  {
    var tail := rs[1..];
    forall k | 0 <= k < |Collect(tail)| ensures Collect(tail)[k].field != rs[0].field {
      CollectFieldsFromRules(tail, k);
      var i :| 0 <= i < |tail| && !tail[i].ok && tail[i].field == Collect(tail)[k].field;
      assert tail[i] == rs[i + 1];
    }
  }

  lemma DistinctCons(e: FieldError, errors: seq<FieldError>)
    requires DistinctBy(errors, ErrorField)
    requires forall k :: 0 <= k < |errors| ==> errors[k].field != e.field
    ensures DistinctBy([e] + errors, ErrorField)
  {
    var r := [e] + errors;
    forall i, j | 0 <= i < j < |r| ensures ErrorField(r[i]) != ErrorField(r[j]) {
      assert r[j] == errors[j - 1];
      if i > 0 {
        assert r[i] == errors[i - 1];
      }
    }
  }

  /** All five rules hold exactly when every entry of the table holds. */
  lemma RuleTableHolds(a: bool, b: bool, c: bool, d: bool, e: bool)
    ensures var rs := RuleTable(a, b, c, d, e);
      (forall i :: 0 <= i < |rs| ==> rs[i].ok) <==> a && b && c && d && e
  {
    var rs := RuleTable(a, b, c, d, e);
    assert rs[0].ok == a && rs[1].ok == b && rs[2].ok == c && rs[3].ok == d && rs[4].ok == e;
  }

  /** `validateSurvey`: every rule is checked and each failing one adds its
      error, in rule order; the list is empty exactly when all rules hold. */
  function Validate(sub: Submission): (errors: seq<FieldError>)
    ensures errors == [] <==> Acceptable(sub)
    ensures |errors| <= 5
  {
    var rs := RuleTable(ClientTypeOk(sub), SexOk(sub), AgeOk(sub), RegionOk(sub), SuggestionsOk(sub));
    CollectEmpty(rs);
    RuleTableHolds(ClientTypeOk(sub), SexOk(sub), AgeOk(sub), RegionOk(sub), SuggestionsOk(sub));
    Collect(rs)
  }

  function ErrorField(e: FieldError): Field { e.field }

  lemma RuleFieldsDistinct(a: bool, b: bool, c: bool, d: bool, e: bool)
    ensures var rs := RuleTable(a, b, c, d, e);
      forall i, j :: 0 <= i < j < |rs| ==> rs[i].field != rs[j].field
  {
  }

  /** The field of rule `k` is reported exactly when rule `k` fails. */
  lemma RuleTableFlags(a: bool, b: bool, c: bool, d: bool, e: bool, k: nat)
    requires k < 5
    ensures var rs := RuleTable(a, b, c, d, e);
      Flags(Collect(rs), rs[k].field) <==> !rs[k].ok
  {
    var rs := RuleTable(a, b, c, d, e);
    RuleFieldsDistinct(a, b, c, d, e);
    CollectFlags(rs, rs[k].field);
    if exists i :: 0 <= i < |rs| && !rs[i].ok && rs[i].field == rs[k].field {
      var i :| 0 <= i < |rs| && !rs[i].ok && rs[i].field == rs[k].field;
      assert i == k;
    }
  }

  /** Each rule's field is reported exactly when that rule fails, and no
      field is reported twice. */
  lemma ValidateReportsFailingRules(sub: Submission)
    ensures var errors := Validate(sub);
      && (Flags(errors, ClientTypeField) <==> !ClientTypeOk(sub))
      && (Flags(errors, SexField) <==> !SexOk(sub))
      && (Flags(errors, AgeField) <==> !AgeOk(sub))
      && (Flags(errors, RegionField) <==> !RegionOk(sub))
      && (Flags(errors, SuggestionsField) <==> !SuggestionsOk(sub))
      && DistinctBy(errors, ErrorField)
  {
    var a, b, c, d, e := ClientTypeOk(sub), SexOk(sub), AgeOk(sub), RegionOk(sub), SuggestionsOk(sub);
    assert Validate(sub) == Collect(RuleTable(a, b, c, d, e));
    RuleFieldsDistinct(a, b, c, d, e);
    CollectDistinct(RuleTable(a, b, c, d, e));
    RuleTableFlags(a, b, c, d, e, 0);
    RuleTableFlags(a, b, c, d, e, 1);
    RuleTableFlags(a, b, c, d, e, 2);
    RuleTableFlags(a, b, c, d, e, 3);
    RuleTableFlags(a, b, c, d, e, 4);
  }

  /** The validator looks at no rating: replacing `sqdAnswers` never changes
      its verdict. */
  lemma ValidateIgnoresRatings(sub: Submission, answers: seq<Option<int>>)
    ensures Validate(sub.(sqdAnswers := answers)) == Validate(sub)
  {
  }

  /** The nine SQD fields the schema keeps; any other key is dropped. */
  function SchemaSlots(answers: seq<Option<int>>): (slots: seq<Option<int>>)
    ensures |slots| == NumQuestions
    ensures forall q :: 0 <= q < NumQuestions ==> slots[q] == if q < |answers| then answers[q] else None
  {
    seq(NumQuestions, q requires 0 <= q < NumQuestions => if q < |answers| then answers[q] else None)
  }

  /** Every rating the schema keeps lies in [1,5]. */
  predicate RatingsInRange(answers: seq<Option<int>>)
  {
    forall q :: 0 <= q < |answers| && q < NumQuestions ==> RatingOk(answers[q])
  }

  /** The document built from an accepted, sanitised body: the schema trims
      the text fields and keeps the nine SQD slots; `date` and `submittedAt`
      default to now when the body gives none. Region and suggestions are
      already trimmed, so the schema's second trim cuts nothing there
      (`BuildRetrimsNothing`). */
  function Build(sub: Submission, id: nat, now: int): (s: Survey)
    requires Sanitized(sub) && Acceptable(sub)
    ensures s.id == id
    ensures s.submittedAt == sub.submittedAt.GetOr(now) && s.date == sub.date.GetOr(now)
    ensures ClientTypeName(s.clientType) == sub.clientType && SexName(s.sex) == sub.sex
    ensures s.age == sub.age.value
    ensures s.region == sub.region.value && s.suggestions == sub.suggestions
    ensures s.cc1Answer == TrimOption(sub.cc1Answer) && s.cc2Answer == TrimOption(sub.cc2Answer)
    ensures s.cc3Answer == TrimOption(sub.cc3Answer)
    ensures s.sqdAnswers == SchemaSlots(sub.sqdAnswers)
  {
    Survey(
      id,
      sub.date.GetOr(now),
      ParseClientType(sub.clientType).value,
      ParseSex(sub.sex).value,
      sub.age.value,
      sub.region.value,
      TrimOption(sub.cc1Answer),
      TrimOption(sub.cc2Answer),
      TrimOption(sub.cc3Answer),
      SchemaSlots(sub.sqdAnswers),
      sub.suggestions,
      sub.submittedAt.GetOr(now))
  }

  /** The schema's trim of region and suggestions leaves the built document
      as it is. */
  lemma BuildRetrimsNothing(sub: Submission, id: nat, now: int)
    requires Sanitized(sub) && Acceptable(sub)
    ensures Build(sub, id, now).region == Trim(sub.region.value)
    ensures Build(sub, id, now).suggestions == TrimOption(sub.suggestions)
  {
    TrimTrimmed(sub.region.value);
    TrimOptionKeepsTrimmed(sub.suggestions);
  }

  /** Apart from the ratings and the suggestions' UTF-16 length, the document
      built from an accepted body meets every schema constraint; its
      suggestions still pass the validator's length rule. */
  lemma BuildShapeValid(sub: Submission, id: nat, now: int)
    requires Sanitized(sub) && Acceptable(sub)
    ensures var s := Build(sub, id, now);
      && MinAge <= s.age <= MaxAge
      && s.region != [] && Trimmed(s.region)
      && |s.sqdAnswers| == NumQuestions
      && IsTrimmed(s.cc1Answer) && IsTrimmed(s.cc2Answer) && IsTrimmed(s.cc3Answer)
      && IsTrimmed(s.suggestions)
      && (s.suggestions.Some? ==> ValidatorLength(s.suggestions.value) <= MaxSuggestionLength)
  {
    var s := Build(sub, id, now);
    assert s.cc1Answer == TrimOption(sub.cc1Answer) && s.cc2Answer == TrimOption(sub.cc2Answer);
    assert s.cc3Answer == TrimOption(sub.cc3Answer) && s.suggestions == TrimOption(sub.suggestions);
    TrimOptionTrimmed(sub.cc1Answer);
    TrimOptionTrimmed(sub.cc2Answer);
    TrimOptionTrimmed(sub.cc3Answer);
    TrimOptionTrimmed(sub.suggestions);
  }

  /** An accepted body passes the schema exactly when the ratings it gives
      for SQD0..SQD8 lie in [1,5] and its suggestions fit in 2000 UTF-16
      code units: the rating bounds come from the schema alone, and the
      validator counts length differently. */
  lemma BuildSchemaValidIff(sub: Submission, id: nat, now: int)
    requires Sanitized(sub) && Acceptable(sub)
    ensures SchemaValid(Build(sub, id, now)) <==> RatingsInRange(sub.sqdAnswers) && SuggestionsFit(sub.suggestions)
  {
    var s := Build(sub, id, now);
    BuildShapeValid(sub, id, now);
    var slots := SchemaSlots(sub.sqdAnswers);
    assert s.sqdAnswers == slots;
    if !RatingsInRange(sub.sqdAnswers) {
      var q :| 0 <= q < |sub.sqdAnswers| && q < NumQuestions && !RatingOk(sub.sqdAnswers[q]);
      assert slots[q] == sub.sqdAnswers[q];
    } else {
      forall q | 0 <= q < |slots| ensures RatingOk(slots[q]) {
      }
    }
  }

  // ---------------------------------------------------------------- listing

  /** The query string of `GET /`, after coercion; `""` is an absent text
      parameter. `sortBy` is taken to be `submittedAt`. */
  datatype ListQuery = ListQuery(
    page: int,
    limit: int,
    clientType: string,
    region: string,
    startDate: Option<int>,
    endDate: Option<int>,
    order: string)

  /** The Mongo filter document: each part is present only when set. */
  datatype Filter = Filter(
    clientType: Option<string>,
    region: Option<string>,
    since: Option<int>,
    until: Option<int>)

  /** The filter a query asks for, declaratively. */
  function FilterOf(q: ListQuery): Filter
  {
    Filter(
      if q.clientType != [] then Some(q.clientType) else None,
      if q.region != [] then Some(q.region) else None,
      q.startDate,
      q.endDate)
  }

  /** The query builder: starts from the empty filter and adds one condition
      per supplied parameter. */
  method BuildFilter(q: ListQuery) returns (f: Filter)
    ensures f == FilterOf(q)
    ensures q.clientType == [] && q.region == [] && q.startDate.None? && q.endDate.None?
        ==> f == Filter(None, None, None, None)
  {
    f := Filter(None, None, None, None);
    if q.clientType != [] {
      f := f.(clientType := Some(q.clientType));
    }
    if q.region != [] {
      f := f.(region := Some(q.region));
    }
    if q.startDate.Some? || q.endDate.Some? {
      if q.startDate.Some? {
        f := f.(since := q.startDate);
      }
      if q.endDate.Some? {
        f := f.(until := q.endDate);
      }
    }
  }

  /** A survey satisfies the filter. `regionMatch(pattern, region)` stands for
      the case-insensitive regular-expression test. */
  predicate Matches(f: Filter, s: Survey, regionMatch: (string, string) -> bool)
  {
    && (f.clientType.Some? ==> ClientTypeName(s.clientType) == f.clientType.value)
    && (f.region.Some? ==> regionMatch(f.region.value, s.region))
    && (f.since.Some? ==> f.since.value <= s.submittedAt)
    && (f.until.Some? ==> s.submittedAt <= f.until.value)
  }

  /** What the filter of a query accepts: a condition per supplied parameter,
      the date bounds inclusive. */
  lemma FilterOfMeaning(q: ListQuery, s: Survey, regionMatch: (string, string) -> bool)
    ensures Matches(FilterOf(q), s, regionMatch) <==>
      && (q.clientType == [] || ClientTypeName(s.clientType) == q.clientType)
      && (q.region == [] || regionMatch(q.region, s.region))
      && (q.startDate.None? || q.startDate.value <= s.submittedAt)
      && (q.endDate.None? || s.submittedAt <= q.endDate.value)
  {
  }

  function SelectMatching(records: seq<Survey>, f: Filter, regionMatch: (string, string) -> bool): (r: seq<Survey>)
    ensures |r| <= |records|
    ensures forall s :: s in r <==> s in records && Matches(f, s, regionMatch)
  {
    if records == [] then []
    else
      assert records == [records[0]] + records[1..];
      (if Matches(f, records[0], regionMatch) then [records[0]] else [])
        + SelectMatching(records[1..], f, regionMatch)
  }

  function NegSubmittedAt(s: Survey): int { -s.submittedAt }

  /** `.sort({ submittedAt: order === 'desc' ? -1 : 1 })`. */
  function SortForListing(xs: seq<Survey>, order: string): (r: seq<Survey>)
    ensures multiset(r) == multiset(xs)
    ensures order == "desc" ==> NonIncreasing(r, SubmittedAtOf)
    ensures order != "desc" ==> NonIncreasing(r, NegSubmittedAt)
  {
    if order == "desc" then SortByRank(xs, SubmittedAtOf) else SortByRank(xs, NegSubmittedAt)
  }

  /** `(page - 1) * limit`. */
  function Skip(page: int, limit: int): int
  {
    (page - 1) * limit
  }

  const NegativeSkipError := "Error fetching surveys"

  /** `.limit(limit).skip(skip)`: a negative skip is refused by the database;
      a limit of 0 means no limit and a negative one is read as its absolute
      value. */
  function Paginate(xs: seq<Survey>, page: int, limit: int): (r: Result<seq<Survey>, string>)
    ensures r.Failure? <==> Skip(page, limit) < 0
    ensures r.Success? ==> limit != 0 ==> |r.value| <= if limit > 0 then limit else -limit
    ensures r.Success? && Skip(page, limit) <= |xs| ==>
      var from := Skip(page, limit);
      |r.value| == if limit == 0 then |xs| - from else Min(|xs| - from, if limit > 0 then limit else -limit)
    ensures r.Success? ==>
      var from := Skip(page, limit);
      forall k :: 0 <= k < |r.value| ==> from + k < |xs| && r.value[k] == xs[from + k]
  {
    var skip := Skip(page, limit);
    if skip < 0 then Failure(NegativeSkipError)
    else
      var rest := if skip <= |xs| then xs[skip..] else [];
      var n := if limit > 0 then limit else -limit;
      if limit == 0 || n >= |rest| then Success(rest) else Success(rest[..n])
  }

  function Min(a: int, b: int): int { if a <= b then a else b }

  /** `Math.ceil` on a real. */
  function Ceil(x: real): (c: int)
    ensures c as real - 1.0 < x <= c as real
  {
    -((-x).Floor)
  }

  /** `Math.ceil(count / limit)`; with limit 0 the quotient is Infinity or NaN,
      which the response serialises as `null`. */
  function TotalPages(count: nat, limit: int): (r: Option<int>)
    ensures r.None? <==> limit == 0
    ensures r.Some? ==> r.value as real - 1.0 < count as real / limit as real <= r.value as real
  {
    if limit == 0 then None else Some(Ceil(count as real / limit as real))
  }

  /** With a positive limit, `totalPages` is the least number of pages of
      `limit` records that holds all `count` records. */
  lemma TotalPagesBounds(count: nat, limit: int)
    requires limit > 0
    ensures TotalPages(count, limit).Some?
    ensures var tp := TotalPages(count, limit).value;
      && tp >= 0
      && (count == 0 <==> tp == 0)
      && (count > 0 ==> (tp - 1) * limit < count <= tp * limit)
  {
    var x := count as real / limit as real;
    var tp := Ceil(x);
    var fl := (-x).Floor;
    assert fl as real <= -x < fl as real + 1.0;
    assert tp as real - 1.0 < x <= tp as real;
    assert x * limit as real == count as real;
    MulMonotone(tp as real - 1.0, x, limit as real);
    MulMonotoneWeak(x, tp as real, limit as real);
    assert (tp - 1) as real * limit as real == ((tp - 1) * limit) as real;
    assert tp as real * limit as real == (tp * limit) as real;
  }

  lemma MulMonotone(a: real, b: real, c: real)
    requires a < b && c > 0.0
    ensures a * c < b * c
  {
  }

  lemma MulMonotoneWeak(a: real, b: real, c: real)
    requires a <= b && c > 0.0
    ensures a * c <= b * c
  {
  }

  /** With a positive limit, record number `i` of the result lies on page
      `i / limit + 1`, and that page is within `totalPages`. */
  lemma EveryRecordOnAPage(count: nat, limit: int, i: nat)
    requires limit > 0 && i < count
    ensures var page := i / limit + 1;
      && 1 <= page <= TotalPages(count, limit).value
      && Skip(page, limit) <= i < Skip(page, limit) + limit
  {
    TotalPagesBounds(count, limit);
    var page := i / limit + 1;
    var tp := TotalPages(count, limit).value;
    assert Skip(page, limit) == (i / limit) * limit;
    if page > tp {
      assert (i / limit) * limit >= tp * limit by {
        MulMonotoneInt(tp, i / limit, limit);
      }
    }
  }

  lemma MulMonotoneInt(a: int, b: int, c: int)
    requires a <= b && c > 0
    ensures a * c <= b * c
  {
  }

  /** The body of a successful `GET /` response. */
  datatype ListPage = ListPage(data: seq<Survey>, totalPages: Option<int>, currentPage: int, totalRecords: nat)

  // ---------------------------------------------------------------- the store

  function SurveyId(s: Survey): nat { s.id }

  /** `findById`. */
  function FindById(records: seq<Survey>, id: nat): (r: Option<Survey>)
    ensures r.None? <==> forall i :: 0 <= i < |records| ==> records[i].id != id
    ensures r.Some? ==> r.value in records && r.value.id == id
  {
    if records == [] then None
    else if records[0].id == id then Some(records[0])
    else
      var r := FindById(records[1..], id);
      assert forall i :: 1 <= i < |records| ==> records[i] == records[1..][i - 1];
      r
  }

  /** The records with any id but `id`. */
  function WithoutId(records: seq<Survey>, id: nat): (r: seq<Survey>)
    ensures |r| <= |records|
    ensures forall s :: s in r <==> s in records && s.id != id
  {
    if records == [] then []
    else
      assert records == [records[0]] + records[1..];
      (if records[0].id == id then [] else [records[0]]) + WithoutId(records[1..], id)
  }

  lemma {:induction false} WithoutAbsentId(records: seq<Survey>, id: nat)
    requires forall i :: 0 <= i < |records| ==> records[i].id != id
    ensures WithoutId(records, id) == records
  {
    if records != [] {
      WithoutAbsentId(records[1..], id);
    }
  }

  /** With distinct ids, removing a present id removes exactly one record. */
  lemma {:induction false} WithoutPresentId(records: seq<Survey>, id: nat)
    requires DistinctBy(records, SurveyId)
    requires exists i :: 0 <= i < |records| && records[i].id == id
    ensures |WithoutId(records, id)| == |records| - 1
  {
    if records[0].id == id {
      assert forall i :: 0 <= i < |records[1..]| ==> records[1..][i].id != id by {
        forall i | 0 <= i < |records[1..]| ensures records[1..][i].id != id {
          assert SurveyId(records[0]) != SurveyId(records[i + 1]);
        }
      }
      WithoutAbsentId(records[1..], id);
    } else {
      var i :| 0 <= i < |records| && records[i].id == id;
      assert records[1..][i - 1].id == id;
      WithoutPresentId(records[1..], id);
    }
  }

  /** Filtering by id keeps the remaining ids distinct. */
  lemma {:induction false} WithoutKeepsDistinct(records: seq<Survey>, id: nat)
    requires DistinctBy(records, SurveyId)
    ensures DistinctBy(WithoutId(records, id), SurveyId)
  {
    if records != [] {
      var rest := WithoutId(records[1..], id);
      WithoutKeepsDistinct(records[1..], id);
      if records[0].id != id {
        var r := [records[0]] + rest;
        forall i, j | 0 <= i < j < |r| ensures SurveyId(r[i]) != SurveyId(r[j]) {
          if i == 0 {
            assert r[j] in rest;
            assert r[j] in records[1..];
            var k :| 0 <= k < |records[1..]| && records[1..][k] == r[j];
            assert SurveyId(records[0]) != SurveyId(records[k + 1]);
          }
        }
      }
    }
  }

  /** Appending a record whose id exceeds every saved id keeps the ids
      distinct and below the next id. */
  lemma AppendFreshId(records: seq<Survey>, s: Survey, nextId: nat)
    requires IdsBelow(records, nextId)
    requires s.id == nextId
    ensures IdsBelow(records + [s], nextId + 1)
  {
    var r := records + [s];
    assert forall i :: 0 <= i < |r| ==> r[i].id < nextId + 1 by {
      forall i | 0 <= i < |r| ensures r[i].id < nextId + 1 {
        if i < |records| {
          assert r[i] == records[i];
        }
      }
    }
    forall i, j | 0 <= i < j < |r| ensures SurveyId(r[i]) != SurveyId(r[j]) {
      if j == |records| {
        assert r[i] == records[i];
      } else {
        assert r[i] == records[i] && r[j] == records[j];
      }
    }
  }

  /** The saved ids are distinct and all below `nextId`. */
  predicate IdsBelow(records: seq<Survey>, nextId: nat)
  {
    && (forall i :: 0 <= i < |records| ==> records[i].id < nextId)
    && DistinctBy(records, SurveyId)
  }

  /** Every saved survey has exactly the nine SQD slots. */
  predicate NineSlots(records: seq<Survey>)
  {
    forall s :: s in records ==> |s.sqdAnswers| == NumQuestions
  }

  lemma AppendNineSlots(records: seq<Survey>, s: Survey)
    requires NineSlots(records) && |s.sqdAnswers| == NumQuestions
    ensures NineSlots(records + [s])
  {
  }

  /** The saved surveys; `nextId` is the id the next saved survey gets. */
  class SurveyStore {
    var records: seq<Survey>
    var nextId: nat

    ghost predicate Valid()
      reads this
    {
      IdsBelow(records, nextId) && NineSlots(records)
    }

    constructor ()
      ensures Valid() && records == [] && nextId == 0
    {
      records := [];
      nextId := 0;
    }

    /** `POST /`: the body is sanitised; 400 with the error list when a rule
        fails; 500 when the schema rejects the document (a rating outside
        [1,5], or suggestions longer than 2000 UTF-16 code units); otherwise
        201 and the document is saved. Nothing is saved
        unless the status is 201. */
    method Submit(raw: Submission, now: int) returns (status: nat, errors: seq<FieldError>)
      requires Valid()
      modifies this
      ensures Valid()
      ensures errors == Validate(Sanitize(raw))
      ensures status in {201, 400, 500}
      ensures status == 400 <==> !Acceptable(Sanitize(raw))
      ensures status == 201 <==>
        Acceptable(Sanitize(raw)) && RatingsInRange(raw.sqdAnswers) && SuggestionsFit(Sanitize(raw).suggestions)
      ensures status == 201 ==>
        && records == old(records) + [Build(Sanitize(raw), old(nextId), now)]
        && SchemaValid(Build(Sanitize(raw), old(nextId), now))
        && nextId == old(nextId) + 1
      ensures status != 201 ==> records == old(records) && nextId == old(nextId)
    {
      var sub := Sanitize(raw);
      errors := Validate(sub);
      if errors != [] {
        status := 400;
        return;
      }
      var survey := Build(sub, nextId, now);
      BuildSchemaValidIff(sub, nextId, now);
      assert sub.sqdAnswers == raw.sqdAnswers;
      var ok := RatingsInRange(raw.sqdAnswers) && SuggestionsFit(sub.suggestions);
      assert SchemaValid(survey) <==> ok;
      if !ok {
        status := 500;
        return;
      }
      assert SchemaValid(survey);
      AppendFreshId(records, survey, nextId);
      AppendNineSlots(records, survey);
      records := records + [survey];
      nextId := nextId + 1;
      status := 201;
    }

    /** `GET /:id`: 200 and the survey, or 404 when no survey has that id. */
    method Get(id: nat) returns (status: nat, found: Option<Survey>)
      requires Valid()
      ensures status in {200, 404}
      ensures status == 404 <==> forall i :: 0 <= i < |records| ==> records[i].id != id
      ensures status == 404 ==> found.None?
      ensures status == 200 ==> found.Some? && found.value in records && found.value.id == id
    {
      found := FindById(records, id);
      status := if found.None? then 404 else 200;
    }

    /** `DELETE /:id`: 404 and no change when no survey has that id;
        otherwise 200 and exactly that survey is removed. */
    method Delete(id: nat) returns (status: nat)
      requires Valid()
      modifies this
      ensures Valid()
      ensures status in {200, 404}
      ensures status == 404 <==> forall i :: 0 <= i < |old(records)| ==> old(records)[i].id != id
      ensures status == 404 ==> records == old(records)
      ensures status == 200 ==> |records| == |old(records)| - 1
      ensures records == WithoutId(old(records), id)
      ensures forall s :: s in records <==> s in old(records) && s.id != id
      ensures nextId == old(nextId)
    {
      var found := FindById(records, id);
      if found.None? {
        WithoutAbsentId(records, id);
        status := 404;
        return;
      }
      WithoutPresentId(records, id);
      WithoutKeepsDistinct(records, id);
      records := WithoutId(records, id);
      status := 200;
    }

    /** `GET /`: build the filter, select and sort the matching surveys, cut
        out the requested page, and count the matches. */
    method List(q: ListQuery, regionMatch: (string, string) -> bool) returns (r: Result<ListPage, string>)
      requires Valid()
      ensures r.Failure? <==> Skip(q.page, q.limit) < 0
      ensures r.Success? ==>
        var matching := SelectMatching(records, FilterOf(q), regionMatch);
        && r.value.totalRecords == |matching|
        && r.value.totalPages == TotalPages(|matching|, q.limit)
        && r.value.currentPage == q.page
        && r.value.data == Paginate(SortForListing(matching, q.order), q.page, q.limit).value
      ensures r.Success? ==> forall s :: s in r.value.data ==> s in records && Matches(FilterOf(q), s, regionMatch)
      ensures r.Success? && q.limit > 0 ==> |r.value.data| <= q.limit
    {
      var filter := BuildFilter(q);
      var matching := SelectMatching(records, filter, regionMatch);
      var sorted := SortForListing(matching, q.order);
      var page := Paginate(sorted, q.page, q.limit);
      if page.Failure? {
        r := Failure(page.error);
        return;
      }
      forall s | s in page.value ensures s in matching {
        var k :| 0 <= k < |page.value| && page.value[k] == s;
        var x := sorted[Skip(q.page, q.limit) + k];
        assert x in multiset(sorted);
      }
      r := Success(ListPage(page.value, TotalPages(|matching|, q.limit), q.page, |matching|));
    }
  }
}
