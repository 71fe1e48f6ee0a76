/** The survey record (backend/models/Survey.model.js): its schema constraints,
    the `averageSQDScore` virtual and the `satisfactionLevel` virtual. */
module SurveyModel {
  import opened Wrappers

  /** Nine Service-Quality-Dimension questions, SQD0 .. SQD8. */
  const NumQuestions: nat := 9
  const MinRating := 1
  const MaxRating := 5
  const MinAge := 1
  const MaxAge := 150
  const MaxSuggestionLength := 2000

  datatype ClientType = Citizen | Business | Government
  datatype Sex = Male | Female

  /** A stored survey. `sqdAnswers[q]` is the rating for question SQDq, `None`
      when unanswered; `id` stands for the record's `_id`; times are
      milliseconds since the epoch. */
  datatype Survey = Survey(
    id: nat,
    date: int,
    clientType: ClientType,
    sex: Sex,
    age: int,
    region: string,
    cc1Answer: Option<string>,
    cc2Answer: Option<string>,
    cc3Answer: Option<string>,
    sqdAnswers: seq<Option<int>>,
    suggestions: Option<string>,
    submittedAt: int)

  // ---------------------------------------------------------------- enums

  function ClientTypeName(c: ClientType): string
  {
    match c
    case Citizen => "Citizen"
    case Business => "Business"
    case Government => "Government"
  }

  function SexName(x: Sex): string
  {
    match x
    case Male => "Male"
    case Female => "Female"
  }

  /** Case-sensitive match against the enum literals. */
  function ParseClientType(s: string): (r: Option<ClientType>)
    ensures r.Some? ==> ClientTypeName(r.value) == s
    ensures r.None? ==> forall c :: ClientTypeName(c) != s
  {
    if s == "Citizen" then Some(Citizen)
    else if s == "Business" then Some(Business)
    else if s == "Government" then Some(Government)
    else None
  }

  function ParseSex(s: string): (r: Option<Sex>)
    ensures r.Some? ==> SexName(r.value) == s
    ensures r.None? ==> forall x :: SexName(x) != s
  {
    if s == "Male" then Some(Male)
    else if s == "Female" then Some(Female)
    else None
  }

  lemma EnumNamesRoundTrip(c: ClientType, x: Sex)
    ensures ParseClientType(ClientTypeName(c)) == Some(c)
    ensures ParseSex(SexName(x)) == Some(x)
  {
  }

  // ---------------------------------------------------------------- trim

  /** The characters JavaScript's `trim` removes (white space and line
      terminators). */
  predicate IsWhitespace(c: char)
  {
    c in Whitespace
  }

  const Whitespace: set<char> :=
    {' ', '\t', '\n', '\r', '\U{000B}', '\U{000C}', '\U{00A0}', '\U{1680}',
     '\U{2000}', '\U{2001}', '\U{2002}', '\U{2003}', '\U{2004}', '\U{2005}',
     '\U{2006}', '\U{2007}', '\U{2008}', '\U{2009}', '\U{200A}',
     '\U{2028}', '\U{2029}', '\U{202F}', '\U{205F}', '\U{3000}', '\U{FEFF}'}

  /** `s` without its leading white space: a suffix of `s` whose first
      character is not white space, everything before it being white space. */
  function TrimStart(s: string): (r: string)
    ensures |r| <= |s| && r == s[|s| - |r|..]
    ensures r == [] || !IsWhitespace(r[0])
    ensures AllWhitespace(s[..|s| - |r|])
  {
    if s != [] && IsWhitespace(s[0]) then
      var r := TrimStart(s[1..]);
      WhitespaceCons(s, r);
      r
    else s
  }

  /** `s` without its trailing white space: a prefix of `s` whose last
      character is not white space, everything after it being white space. */
  function TrimEnd(s: string): (r: string)
    ensures |r| <= |s| && r == s[..|r|]
    ensures r == [] || !IsWhitespace(r[|r| - 1])
    ensures AllWhitespace(s[|r|..])
  {
    if s != [] && IsWhitespace(s[|s| - 1]) then
      var r := TrimEnd(s[..|s| - 1]);
      WhitespaceSnoc(s, |r|);
      r
    else s
  }

  /** `s` without leading and trailing white space: the slice `s[i..j]` that
      has white space only outside it and none at either of its ends. */
  function Trim(s: string): (r: string)
    ensures |r| <= |s|
    ensures Trimmed(r)
    ensures exists i :: SliceBetweenWhitespace(s, r, i)
  {
    TrimSlice(s);
    TrimEnd(TrimStart(s))
  }

  /** Trimming cuts white space from the front, then from the back. */
  lemma TrimSlice(s: string)
    ensures SliceBetweenWhitespace(s, TrimEnd(TrimStart(s)), |s| - |TrimStart(s)|)
  {
    var t := TrimStart(s);
    var r := TrimEnd(t);
    var i := |s| - |t|;
    PrefixOfSuffix(s, t, r, i);
  }

  /** A white-space-free prefix `r` of a suffix `t = s[i..]` is a slice of `s`
      with white space only outside it. */
  lemma PrefixOfSuffix(s: string, t: string, r: string, i: int)
    requires 0 <= i <= |s| && t == s[i..] && AllWhitespace(s[..i])
    requires |r| <= |t| && r == t[..|r|] && AllWhitespace(t[|r|..])
    ensures SliceBetweenWhitespace(s, r, i)
  {
    assert r == s[i..i + |r|];
    assert s[i + |r|..] == t[|r|..];
  }

  lemma WhitespaceCons(s: string, r: string)
    requires s != [] && IsWhitespace(s[0]) && |r| < |s|
    requires AllWhitespace(s[1..][..|s[1..]| - |r|])
    ensures AllWhitespace(s[..|s| - |r|])
  {
    assert s[..|s| - |r|] == [s[0]] + s[1..][..|s[1..]| - |r|];
  }

  lemma WhitespaceSnoc(s: string, n: int)
    requires 0 <= n < |s| && IsWhitespace(s[|s| - 1]) && AllWhitespace(s[..|s| - 1][n..])
    ensures AllWhitespace(s[n..])
  {
    assert s[n..] == s[..|s| - 1][n..] + [s[|s| - 1]];
  }

  /** `r` is `s[i..i + |r|]` and every character of `s` outside it is white
      space. */
  predicate SliceBetweenWhitespace(s: string, r: string, i: int)
  {
    && 0 <= i <= |s| - |r| && r == s[i..i + |r|]
    && AllWhitespace(s[..i]) && AllWhitespace(s[i + |r|..])
  }

  predicate AllWhitespace(s: string)
  {
    forall k :: 0 <= k < |s| ==> IsWhitespace(s[k])
  }

  /** Trimming a string without white space at either end changes nothing;
      in particular trimming is idempotent. */
  lemma TrimTrimmed(s: string)
    requires Trimmed(s)
    ensures Trim(s) == s
  {
    assert TrimStart(s) == s;
  }

  lemma TrimIdempotent(s: string)
    ensures Trim(Trim(s)) == Trim(s)
  {
    TrimTrimmed(Trim(s));
  }

  lemma {:induction false} TrimStartEmpty(s: string)
    ensures TrimStart(s) == [] <==> forall i :: 0 <= i < |s| ==> IsWhitespace(s[i])
  {
    if s != [] && IsWhitespace(s[0]) {
      TrimStartEmpty(s[1..]);
      assert forall i :: 1 <= i < |s| ==> s[i] == s[1..][i - 1];
    }
  }

  lemma {:induction false} TrimEndKeepsFirst(s: string)
    requires s != [] && !IsWhitespace(s[0])
    ensures TrimEnd(s) != []
  {
    if |s| > 1 && IsWhitespace(s[|s| - 1]) {
      TrimEndKeepsFirst(s[..|s| - 1]);
    }
  }

  /** A string trims to nothing exactly when it is all white space. */
  lemma TrimEmpty(s: string)
    ensures Trim(s) == [] <==> forall i :: 0 <= i < |s| ==> IsWhitespace(s[i])
  {
    TrimStartEmpty(s);
    var t := TrimStart(s);
    if t != [] {
      TrimEndKeepsFirst(t);
    }
  }

  function TrimOption(s: Option<string>): Option<string>
  {
    match s
    case None => None
    case Some(v) => Some(Trim(v))
  }

  // ---------------------------------------------------------------- schema

  predicate RatingOk(a: Option<int>)
  {
    a.None? || MinRating <= a.value <= MaxRating
  }

  /** No white space at either end. */
  predicate Trimmed(s: string)
  {
    s == [] || (!IsWhitespace(s[0]) && !IsWhitespace(s[|s| - 1]))
  }

  predicate IsTrimmed(s: Option<string>)
  {
    s.None? || Trimmed(s.value)
  }

  /** The record has the nine slots SQD0..SQD8 and every rating it gives
      lies in [1,5]. */
  predicate RatingsValid(s: Survey)
  {
    |s.sqdAnswers| == NumQuestions && forall q :: 0 <= q < |s.sqdAnswers| ==> RatingOk(s.sqdAnswers[q])
  }

  /** The length of a string in UTF-16 code units, JavaScript's `length`:
      a character outside the Basic Multilingual Plane takes two. */
  function Utf16Length(s: string): (n: nat)
    ensures |s| <= n <= 2 * |s|
  {
    if s == [] then 0 else (if s[0] as int >= 0x1_0000 then 2 else 1) + Utf16Length(s[1..])
  }

  /** What the schema enforces on a record it saves: age bounds, a required
      trimmed non-empty region, the nine optional ratings in [1,5], trimmed
      free text and the suggestions length limit. The enums are enforced by
      the `ClientType` and `Sex` types. */
  predicate SchemaValid(s: Survey)
  {
    && MinAge <= s.age <= MaxAge
    && s.region != [] && Trimmed(s.region)
    && RatingsValid(s)
    && IsTrimmed(s.cc1Answer) && IsTrimmed(s.cc2Answer) && IsTrimmed(s.cc3Answer)
    && IsTrimmed(s.suggestions)
    && SuggestionsFit(s.suggestions)
  }

  /** The schema's `maxlength: 2000` on suggestions, counted in UTF-16 code
      units. */
  predicate SuggestionsFit(suggestions: Option<string>)
  {
    suggestions.None? || Utf16Length(suggestions.value) <= MaxSuggestionLength
  }

  function SubmittedAtOf(s: Survey): int { s.submittedAt }

  // ---------------------------------------------------------------- averageSQDScore

  /** The ratings that are present, in question order. */
  function PresentScores(answers: seq<Option<int>>): (scores: seq<int>)
    ensures |scores| <= |answers|
    ensures forall x :: x in scores <==> Some(x) in answers
  {
    if answers == [] then []
    else
      assert answers == [answers[0]] + answers[1..];
      (if answers[0].Some? then [answers[0].value] else []) + PresentScores(answers[1..])
  }

  function Sum(xs: seq<int>): int
  {
    if xs == [] then 0 else xs[0] + Sum(xs[1..])
  }

  /** At least one SQD rating is present. */
  predicate Answered(s: Survey)
  {
    PresentScores(s.sqdAnswers) != []
  }

  /** The `averageSQDScore` virtual: the mean of the present ratings, 0 when
      none is present, so in [1,5] for an answered record whose ratings are. */
  function AverageSQDScore(s: Survey): (r: real)
    ensures !Answered(s) ==> r == 0.0
    ensures RatingsValid(s) && Answered(s) ==> 1.0 <= r <= 5.0
  {
    var scores := PresentScores(s.sqdAnswers);
    if |scores| == 0 then 0.0
    else
      PresentMeanInRange(s);
      Sum(scores) as real / |scores| as real
  }

  lemma AnsweredIffSomeRating(s: Survey)
    ensures Answered(s) <==> exists q :: 0 <= q < |s.sqdAnswers| && s.sqdAnswers[q].Some?
  {
    if Answered(s) {
      var x := PresentScores(s.sqdAnswers)[0];
      assert Some(x) in s.sqdAnswers;
    }
    if exists q :: 0 <= q < |s.sqdAnswers| && s.sqdAnswers[q].Some? {
      var q :| 0 <= q < |s.sqdAnswers| && s.sqdAnswers[q].Some?;
      var v := s.sqdAnswers[q].value;
      assert Some(v) in s.sqdAnswers;
      assert v in PresentScores(s.sqdAnswers);
    }
  }

  /** Slot by slot: the total of the ratings, a missing one adding 0. */
  function RatingTotal(answers: seq<Option<int>>): int
  {
    if answers == [] then 0 else answers[0].GetOr(0) + RatingTotal(answers[1..])
  }

  /** Slot by slot: how many ratings are present. */
  function RatingCount(answers: seq<Option<int>>): nat
  {
    if answers == [] then 0 else (if answers[0].Some? then 1 else 0) + RatingCount(answers[1..])
  }

  lemma {:induction false} PresentScoresSlots(answers: seq<Option<int>>)
    ensures Sum(PresentScores(answers)) == RatingTotal(answers)
    ensures |PresentScores(answers)| == RatingCount(answers)
  {
    if answers != [] {
      var head := if answers[0].Some? then [answers[0].value] else [];
      PresentScoresSlots(answers[1..]);
      assert PresentScores(answers) == head + PresentScores(answers[1..]);
      SumAppend(head, PresentScores(answers[1..]));
    }
  }

  lemma {:induction false} SumAppend(a: seq<int>, b: seq<int>)
    ensures Sum(a + b) == Sum(a) + Sum(b)
  {
    if a == [] {
      assert a + b == b;
    } else {
      assert (a + b)[1..] == a[1..] + b;
      SumAppend(a[1..], b);
    }
  }

  /** `averageSQDScore` counts only the present ratings: it is the total of
      the ratings divided by how many are present, and 0 when none is. */
  lemma AverageSQDScoreMeaning(s: Survey)
    ensures RatingCount(s.sqdAnswers) == 0 <==> !Answered(s)
    ensures AverageSQDScore(s)
      == if RatingCount(s.sqdAnswers) == 0 then 0.0
         else RatingTotal(s.sqdAnswers) as real / RatingCount(s.sqdAnswers) as real
  {
    PresentScoresSlots(s.sqdAnswers);
  }

  /** An unanswered survey scores exactly 0. */
  lemma UnansweredScoresZero(s: Survey)
    requires forall q :: 0 <= q < |s.sqdAnswers| ==> s.sqdAnswers[q].None?
    ensures !Answered(s) && AverageSQDScore(s) == 0.0
  {
    AnsweredIffSomeRating(s);
  }

  /** Sum of values that all lie in [lo, hi]. */
  lemma {:induction false} SumBounds(xs: seq<int>, lo: int, hi: int)
    requires forall x :: x in xs ==> lo <= x <= hi
    ensures |xs| * lo <= Sum(xs) <= |xs| * hi
  {
    if xs != [] {
      var rest := xs[1..];
      assert forall x :: x in rest ==> x in xs;
      SumBounds(rest, lo, hi);
      assert xs[0] in xs;
      MulSucc(|rest|, lo);
      MulSucc(|rest|, hi);
    }
  }

  lemma MulSucc(n: int, x: int)
    ensures (n + 1) * x == n * x + x
  {
  }

  /** A quotient of a sum of `n` values in [lo, hi] by `n` lies in [lo, hi]. */
  lemma MeanBounds(total: real, n: real, lo: real, hi: real)
    requires n > 0.0 && n * lo <= total <= n * hi
    ensures lo <= total / n <= hi
  {
    var m := total / n;
    assert total == n * m;
  }

  /** Ratings in [1,5] have a mean in [1,5]. */
  lemma PresentMeanInRange(s: Survey)
    ensures var scores := PresentScores(s.sqdAnswers);
      RatingsValid(s) && scores != [] ==> 1.0 <= Sum(scores) as real / |scores| as real <= 5.0
  {
    var scores := PresentScores(s.sqdAnswers);
    if RatingsValid(s) && scores != [] {
      forall x | x in scores ensures MinRating <= x <= MaxRating {
        assert Some(x) in s.sqdAnswers;
      }
      SumBounds(scores, MinRating, MaxRating);
      MeanBounds(Sum(scores) as real, |scores| as real, 1.0, 5.0);
    }
  }

  // ---------------------------------------------------------------- satisfactionLevel

  datatype Level = VerySatisfied | Satisfied | Neutral | Dissatisfied | VeryDissatisfied

  function LevelName(l: Level): string
  {
    match l
    case VerySatisfied => "Very Satisfied"
    case Satisfied => "Satisfied"
    case Neutral => "Neutral"
    case Dissatisfied => "Dissatisfied"
    case VeryDissatisfied => "Very Dissatisfied"
  }

  /** The five labels are five different strings, so the distribution has
      five separate keys. */
  lemma LevelNamesDistinct(a: Level, b: Level)
    ensures LevelName(a) == LevelName(b) <==> a == b
  {
  }

  /** Position of a label on the ordinal scale, 0 (lowest) to 4 (highest). */
  function Rank(l: Level): nat
  {
    match l
    case VeryDissatisfied => 0
    case Dissatisfied => 1
    case Neutral => 2
    case Satisfied => 3
    case VerySatisfied => 4
  }

  /** The closed lower bounds of the four upper labels, lowest first. */
  const LowerBounds: seq<real> := [1.5, 2.5, 3.5, 4.5]

  /** How many of `bounds` the average reaches. */
  function BoundsReached(bounds: seq<real>, avg: real): nat
  {
    if bounds == [] then 0
    else (if avg >= bounds[0] then 1 else 0) + BoundsReached(bounds[1..], avg)
  }

  /** The `satisfactionLevel` virtual, an if-chain from the highest bound down.
      Its rank is the number of closed lower bounds the average reaches. */
  function SatisfactionLevel(avg: real): (l: Level)
    ensures Rank(l) == BoundsReached(LowerBounds, avg)
  {
    LowerBoundsReached(avg);
    if avg >= 4.5 then VerySatisfied
    else if avg >= 3.5 then Satisfied
    else if avg >= 2.5 then Neutral
    else if avg >= 1.5 then Dissatisfied
    else VeryDissatisfied
  }

  lemma LowerBoundsReached(avg: real)
    ensures BoundsReached(LowerBounds, avg)
      == (if avg >= 1.5 then 1 else 0) + (if avg >= 2.5 then 1 else 0)
       + (if avg >= 3.5 then 1 else 0) + (if avg >= 4.5 then 1 else 0)
  {
    var b := LowerBounds;
    assert b[1..] == [2.5, 3.5, 4.5];
    assert b[1..][1..] == [3.5, 4.5];
    assert b[1..][1..][1..] == [4.5];
    assert b[1..][1..][1..][1..] == [];
    assert BoundsReached([4.5], avg) == if avg >= 4.5 then 1 else 0;
    assert BoundsReached([3.5, 4.5], avg) == (if avg >= 3.5 then 1 else 0) + BoundsReached([4.5], avg);
    assert BoundsReached([2.5, 3.5, 4.5], avg) == (if avg >= 2.5 then 1 else 0) + BoundsReached([3.5, 4.5], avg);
  }

  /** A larger average never gets a lower label. */
  lemma {:induction false} SatisfactionLevelMonotone(a: real, b: real)
    requires a <= b
    ensures Rank(SatisfactionLevel(a)) <= Rank(SatisfactionLevel(b))
  {
    BoundsReachedMonotone(LowerBounds, a, b);
  }

  lemma {:induction false} BoundsReachedMonotone(bounds: seq<real>, a: real, b: real)
    requires a <= b
    ensures BoundsReached(bounds, a) <= BoundsReached(bounds, b)
  {
    if bounds != [] {
      BoundsReachedMonotone(bounds[1..], a, b);
    }
  }

  /** A survey without answers is labelled Very Dissatisfied. */
  lemma UnansweredIsVeryDissatisfied(s: Survey)
    requires forall q :: 0 <= q < |s.sqdAnswers| ==> s.sqdAnswers[q].None?
    ensures SatisfactionLevel(AverageSQDScore(s)) == VeryDissatisfied
  {
    UnansweredScoresZero(s);
  }
}
