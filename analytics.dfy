/** The reductions behind backend/routes/analytics.routes.js. Each endpoint is
    a function of the corpus, given as a sequence of surveys; the satisfaction
    distribution, which the source builds with a counting loop, is a method
    proved against a specification function. */
module Analytics {
  import opened Wrappers
  import opened Ordering
  import opened SurveyModel

  // ---------------------------------------------------------------- $avg

  /** The present values, in order. */
  function PresentValues(xs: seq<Option<real>>): (vs: seq<real>)
    ensures |vs| <= |xs|
    ensures forall v :: v in vs <==> Some(v) in xs
  {
    if xs == [] then []
    else
      assert xs == [xs[0]] + xs[1..];
      (if xs[0].Some? then [xs[0].value] else []) + PresentValues(xs[1..])
  }

  function RealSum(xs: seq<real>): real
  {
    if xs == [] then 0.0 else xs[0] + RealSum(xs[1..])
  }

  lemma PresentValuesEmpty(xs: seq<Option<real>>)
    ensures PresentValues(xs) == [] <==> forall i :: 0 <= i < |xs| ==> xs[i].None?
  {
    if PresentValues(xs) != [] {
      var v := PresentValues(xs)[0];
      assert Some(v) in xs;
    }
    if exists i :: 0 <= i < |xs| && xs[i].Some? {
      var i :| 0 <= i < |xs| && xs[i].Some?;
      var v := xs[i].value;
      assert Some(v) in xs;
      assert v in PresentValues(xs);
    }
  }

  /** MongoDB's `$avg`: the mean of the present values, ignoring missing and
      null ones; null (`None`) when no value is present. */
  function Avg(xs: seq<Option<real>>): (r: Option<real>)
    ensures r.None? <==> forall i :: 0 <= i < |xs| ==> xs[i].None?
  {
    PresentValuesEmpty(xs);
    var vs := PresentValues(xs);
    if vs == [] then None else Some(RealSum(vs) / |vs| as real)
  }

  lemma {:induction false} RealSumBounds(xs: seq<real>, lo: real, hi: real)
    requires forall x :: x in xs ==> lo <= x <= hi
    ensures |xs| as real * lo <= RealSum(xs) <= |xs| as real * hi
  {
    if xs != [] {
      var rest := xs[1..];
      assert forall x :: x in rest ==> x in xs;
      RealSumBounds(rest, lo, hi);
      assert xs[0] in xs;
      assert RealSum(xs) == xs[0] + RealSum(rest);
      assert |xs| as real == |rest| as real + 1.0;
      RealBoundsStep(|rest| as real, xs[0], RealSum(rest), lo, hi);
    }
  }

  /** One more value in [lo, hi] keeps a total of n values within bounds. */
  lemma RealBoundsStep(n: real, x: real, total: real, lo: real, hi: real)
    requires n * lo <= total <= n * hi && lo <= x <= hi
    ensures (n + 1.0) * lo <= x + total <= (n + 1.0) * hi
  {
    RealMulSucc(n, lo);
    RealMulSucc(n, hi);
  }

  lemma RealMulSucc(n: real, x: real)
    ensures (n + 1.0) * x == n * x + x
  {
  }

  /** An average of values that all lie in [lo, hi] lies in [lo, hi]. */
  lemma AvgBounds(xs: seq<Option<real>>, lo: real, hi: real)
    requires forall i :: 0 <= i < |xs| && xs[i].Some? ==> lo <= xs[i].value <= hi
    ensures Avg(xs).Some? ==> lo <= Avg(xs).value <= hi
  {
    var vs := PresentValues(xs);
    if vs != [] {
      forall v | v in vs ensures lo <= v <= hi {
        assert Some(v) in xs;
      }
      RealSumBounds(vs, lo, hi);
      MeanBounds(RealSum(vs), |vs| as real, lo, hi);
    }
  }

  // ---------------------------------------------------------------- per-record average

  function ToReal(a: Option<int>): Option<real>
  {
    match a
    case None => None
    case Some(v) => Some(v as real)
  }

  function ToReals(answers: seq<Option<int>>): (r: seq<Option<real>>)
    ensures |r| == |answers|
    ensures forall i :: 0 <= i < |answers| ==> r[i] == ToReal(answers[i])
  {
    seq(|answers|, i requires 0 <= i < |answers| => ToReal(answers[i]))
  }

  function IntsToReals(xs: seq<int>): (r: seq<real>)
    ensures |r| == |xs|
    ensures forall i :: 0 <= i < |xs| ==> r[i] == xs[i] as real
  {
    seq(|xs|, i requires 0 <= i < |xs| => xs[i] as real)
  }

  lemma {:induction false} PresentOfReals(a: seq<Option<int>>)
    ensures PresentValues(ToReals(a)) == IntsToReals(PresentScores(a))
  {
    if a != [] {
      var head := if a[0].Some? then [a[0].value] else [];
      assert ToReals(a) == [ToReal(a[0])] + ToReals(a[1..]);
      assert ToReals(a)[1..] == ToReals(a[1..]);
      PresentOfReals(a[1..]);
      assert PresentScores(a) == head + PresentScores(a[1..]);
      assert IntsToReals(head + PresentScores(a[1..]))
          == IntsToReals(head) + IntsToReals(PresentScores(a[1..]));
    }
  }

  lemma {:induction false} RealSumOfInts(xs: seq<int>)
    ensures RealSum(IntsToReals(xs)) == Sum(xs) as real
  {
    if xs != [] {
      assert IntsToReals(xs)[1..] == IntsToReals(xs[1..]);
      RealSumOfInts(xs[1..]);
    }
  }

  /** `$avg` over integer ratings is their exact mean. */
  lemma AvgOfRatings(a: seq<Option<int>>)
    ensures var scores := PresentScores(a);
      Avg(ToReals(a)) == if scores == [] then None else Some(Sum(scores) as real / |scores| as real)
  {
    PresentOfReals(a);
    RealSumOfInts(PresentScores(a));
  }

  /** The per-record `$avg` over the nine SQD fields. It agrees with the
      `averageSQDScore` virtual on answered surveys, and is null (not 0) on
      unanswered ones. */
  function RecordAverage(s: Survey): (r: Option<real>)
    ensures r == if Answered(s) then Some(AverageSQDScore(s)) else None
  {
    AvgOfRatings(s.sqdAnswers);
    Avg(ToReals(s.sqdAnswers))
  }

  function RecordAverages(surveys: seq<Survey>): (r: seq<Option<real>>)
    ensures |r| == |surveys|
    ensures forall i :: 0 <= i < |surveys| ==> r[i] == RecordAverage(surveys[i])
  {
    seq(|surveys|, i requires 0 <= i < |surveys| => RecordAverage(surveys[i]))
  }

  /** The `$avg` of per-record averages is null exactly when no survey is
      answered, and lies in [1,5] when every rating lies in [1,5]. */
  lemma MeanOfRecordAverages(surveys: seq<Survey>)
    ensures Avg(RecordAverages(surveys)).None?
        <==> forall i :: 0 <= i < |surveys| ==> !Answered(surveys[i])
    ensures (forall i :: 0 <= i < |surveys| ==> RatingsValid(surveys[i]))
        ==> Avg(RecordAverages(surveys)).Some? ==> 1.0 <= Avg(RecordAverages(surveys)).value <= 5.0
  {
    var avgs := RecordAverages(surveys);
    forall i | 0 <= i < |surveys|
      ensures avgs[i].None? <==> !Answered(surveys[i])
      ensures RatingsValid(surveys[i]) && avgs[i].Some? ==> 1.0 <= avgs[i].value <= 5.0
    {
    }
    if forall i :: 0 <= i < |surveys| ==> RatingsValid(surveys[i]) {
      AvgBounds(avgs, 1.0, 5.0);
    }
  }

  // ---------------------------------------------------------------- /summary

  datatype SummaryData = SummaryData(totalResponses: nat, averageSatisfaction: real)

  /** Error reported with status 500. */
  const SummaryError := "Error fetching analytics summary"

  /** `/summary` as written: the count, and the `$avg` of the per-record
      `$avg`s, which skips unanswered surveys: the mean `averageSQDScore` of
      the answered surveys. The aggregate returns no row for an empty corpus
      (average 0); when every survey is unanswered its one row holds a null
      average and `toFixed` on it throws (status 500). */
  function Summary(surveys: seq<Survey>): (r: Result<SummaryData, string>)
    ensures r.Success? ==> r.value.totalResponses == |surveys|
    ensures surveys == [] ==> r == Success(SummaryData(0, 0.0))
    ensures r.Failure? <==> surveys != [] && forall i :: 0 <= i < |surveys| ==> !Answered(surveys[i])
    ensures r.Success? && surveys != [] ==>
      CountAnswered(surveys) > 0
      && r.value.averageSatisfaction == AnsweredTotal(surveys) / CountAnswered(surveys) as real
  {
    MeanOfRecordAverages(surveys);
    MeanOfAnswered(surveys);
    if surveys == [] then Success(SummaryData(0, 0.0))
    else
      match Avg(RecordAverages(surveys))
      case None => Failure(SummaryError)
      case Some(avg) => Success(SummaryData(|surveys|, avg))
  }

  /** When every rating lies in [1,5], a reported average is 0 (empty corpus) or in
      [1,5]. */
  lemma SummaryAverageInRange(surveys: seq<Survey>)
    requires forall i :: 0 <= i < |surveys| ==> RatingsValid(surveys[i])
    ensures Summary(surveys).Success? ==>
      var a := Summary(surveys).value.averageSatisfaction;
      (surveys == [] && a == 0.0) || (surveys != [] && 1.0 <= a <= 5.0)
  {
    MeanOfRecordAverages(surveys);
  }

  /** `/summary` with the null average read as 0, so it never fails. */
  function SummaryIntended(surveys: seq<Survey>): (r: SummaryData)
    ensures r.totalResponses == |surveys|
    ensures (forall i :: 0 <= i < |surveys| ==> !Answered(surveys[i])) ==> r.averageSatisfaction == 0.0
    ensures Summary(surveys).Success? ==> Summary(surveys).value == r
  {
    MeanOfRecordAverages(surveys);
    SummaryData(|surveys|, Avg(RecordAverages(surveys)).GetOr(0.0))
  }

  /** The failing input: one survey with no rating at all. */
  lemma SummaryFailsOnUnansweredCorpus(s: Survey)
    requires forall q :: 0 <= q < |s.sqdAnswers| ==> s.sqdAnswers[q].None?
    ensures Summary([s]).Failure?
    ensures SummaryIntended([s]) == SummaryData(1, 0.0)
  {
    UnansweredScoresZero(s);
  }

  // ---------------------------------------------------------------- /satisfaction-distribution

  const AllLevels: set<Level> := {VerySatisfied, Satisfied, Neutral, Dissatisfied, VeryDissatisfied}

  /** The distribution counts `s` under label `l`. */
  predicate InBucket(s: Survey, l: Level)
  {
    Answered(s) && SatisfactionLevel(AverageSQDScore(s)) == l
  }

  function CountInBucket(surveys: seq<Survey>, l: Level): nat
  {
    if surveys == [] then 0
    else CountInBucket(surveys[..|surveys| - 1], l) + (if InBucket(surveys[|surveys| - 1], l) then 1 else 0)
  }

  /** How many surveys are answered: none exactly when every survey is
      unanswered. */
  function CountAnswered(surveys: seq<Survey>): (n: nat)
    ensures n <= |surveys|
    ensures n == 0 <==> forall i :: 0 <= i < |surveys| ==> !Answered(surveys[i])
  {
    if surveys == [] then 0
    else
      var init := surveys[..|surveys| - 1];
      assert forall i :: 0 <= i < |init| ==> init[i] == surveys[i];
      CountAnswered(init) + (if Answered(surveys[|surveys| - 1]) then 1 else 0)
  }

  /** The total `averageSQDScore` of the answered surveys. */
  function AnsweredTotal(surveys: seq<Survey>): real
  {
    if surveys == [] then 0.0
    else
      var last := surveys[|surveys| - 1];
      AnsweredTotal(surveys[..|surveys| - 1]) + (if Answered(last) then AverageSQDScore(last) else 0.0)
  }

  lemma {:induction false} PresentValuesAppend(a: seq<Option<real>>, b: seq<Option<real>>)
    ensures PresentValues(a + b) == PresentValues(a) + PresentValues(b)
  {
    if a == [] {
      assert a + b == b;
    } else {
      assert (a + b)[1..] == a[1..] + b;
      PresentValuesAppend(a[1..], b);
    }
  }

  lemma {:induction false} RealSumAppend(a: seq<real>, b: seq<real>)
    ensures RealSum(a + b) == RealSum(a) + RealSum(b)
  {
    if a == [] {
      assert a + b == b;
    } else {
      assert (a + b)[1..] == a[1..] + b;
      RealSumAppend(a[1..], b);
    }
  }

  /** The present per-record averages are those of the answered surveys:
      as many as there are answered surveys, totalling their scores. */
  lemma {:induction false} AnsweredAverages(surveys: seq<Survey>)
    ensures |PresentValues(RecordAverages(surveys))| == CountAnswered(surveys)
    ensures RealSum(PresentValues(RecordAverages(surveys))) == AnsweredTotal(surveys)
  {
    if surveys != [] {
      var init := surveys[..|surveys| - 1];
      var last := surveys[|surveys| - 1];
      AnsweredAverages(init);
      RecordAveragesSnoc(surveys);
      var tail := PresentValues([RecordAverage(last)]);
      PresentValuesAppend(RecordAverages(init), [RecordAverage(last)]);
      LastAverage(last);
      RealSumAppend(PresentValues(RecordAverages(init)), tail);
    }
  }

  lemma RecordAveragesSnoc(surveys: seq<Survey>)
    requires surveys != []
    ensures RecordAverages(surveys)
      == RecordAverages(surveys[..|surveys| - 1]) + [RecordAverage(surveys[|surveys| - 1])]
  {
  }

  lemma LastAverage(s: Survey)
    ensures var vs := PresentValues([RecordAverage(s)]);
      && |vs| == (if Answered(s) then 1 else 0)
      && RealSum(vs) == (if Answered(s) then AverageSQDScore(s) else 0.0)
  {
    assert [RecordAverage(s)][1..] == [];
  }

  /** The `$avg` of the per-record averages is the mean `averageSQDScore` of
      the answered surveys, and null when none is answered. */
  lemma MeanOfAnswered(surveys: seq<Survey>)
    ensures Avg(RecordAverages(surveys))
      == if CountAnswered(surveys) == 0 then None
         else Some(AnsweredTotal(surveys) / CountAnswered(surveys) as real)
  {
    AnsweredAverages(surveys);
  }

  /** Specification of the distribution: for every label, the number of
      answered surveys whose average gets that label. */
  function DistributionOf(surveys: seq<Survey>): (d: map<Level, nat>)
    ensures d.Keys == AllLevels
  {
    map l | l in AllLevels :: CountInBucket(surveys, l)
  }

  /** Every label is a key, with count 0 on an empty corpus. */
  lemma DistributionHasAllLabels(surveys: seq<Survey>)
    ensures forall l: Level :: l in DistributionOf(surveys)
    ensures surveys == [] ==> forall l: Level :: DistributionOf(surveys)[l] == 0
  {
    forall l: Level ensures l in AllLevels {
      match l
      case VerySatisfied =>
      case Satisfied =>
      case Neutral =>
      case Dissatisfied =>
      case VeryDissatisfied =>
    }
  }

  /** Appending an unanswered survey changes nothing; appending an answered
      one increments exactly the bucket of its `satisfactionLevel`. */
  lemma DistributionStep(surveys: seq<Survey>, s: Survey)
    ensures !Answered(s) ==> DistributionOf(surveys + [s]) == DistributionOf(surveys)
    ensures Answered(s) ==>
      var l := SatisfactionLevel(AverageSQDScore(s));
      DistributionOf(surveys + [s]) == DistributionOf(surveys)[l := DistributionOf(surveys)[l] + 1]
  {
    assert (surveys + [s])[..|surveys|] == surveys;
  }

  /** `DistributionStep` for the prefix that ends at survey `i`. */
  lemma DistributionNext(surveys: seq<Survey>, i: nat)
    requires i < |surveys|
    ensures var d := DistributionOf(surveys[..i]);
      DistributionOf(surveys[..i + 1])
        == if Answered(surveys[i]) then d[SatisfactionLevel(AverageSQDScore(surveys[i])) := d[SatisfactionLevel(AverageSQDScore(surveys[i]))] + 1]
           else d
  {
    assert surveys[..i + 1] == surveys[..i] + [surveys[i]];
    DistributionStep(surveys[..i], surveys[i]);
  }

  /** The counts add up to the number of answered surveys. */
  lemma {:induction false} DistributionTotal(surveys: seq<Survey>)
    ensures var d := DistributionOf(surveys);
      d[VerySatisfied] + d[Satisfied] + d[Neutral] + d[Dissatisfied] + d[VeryDissatisfied]
        == CountAnswered(surveys)
  {
    if surveys != [] {
      var init := surveys[..|surveys| - 1];
      DistributionTotal(init);
    }
  }

  /** The if-chain of the `forEach` body: increments the counter of the label
      the closed lower bounds 4.5, 3.5, 2.5 and 1.5 give `avg`. */
  method CountAverage(d: map<Level, nat>, avg: real) returns (d': map<Level, nat>)
    requires d.Keys == AllLevels
    ensures d' == d[SatisfactionLevel(avg) := d[SatisfactionLevel(avg)] + 1]
  {
    if avg >= 4.5 {
      d' := d[VerySatisfied := d[VerySatisfied] + 1];
    } else if avg >= 3.5 {
      d' := d[Satisfied := d[Satisfied] + 1];
    } else if avg >= 2.5 {
      d' := d[Neutral := d[Neutral] + 1];
    } else if avg >= 1.5 {
      d' := d[Dissatisfied := d[Dissatisfied] + 1];
    } else {
      d' := d[VeryDissatisfied := d[VeryDissatisfied] + 1];
    }
  }

  /** The `forEach` loop of `/satisfaction-distribution`: all five counters
      start at 0; an answered survey's average is bucketed with the same
      closed lower bounds as `satisfactionLevel`; unanswered surveys are
      skipped. */
  method SatisfactionDistribution(surveys: seq<Survey>) returns (d: map<Level, nat>)
    ensures d == DistributionOf(surveys)
  {
    d := map[VerySatisfied := 0, Satisfied := 0, Neutral := 0, Dissatisfied := 0, VeryDissatisfied := 0];
    var i := 0;
    while i < |surveys|
      invariant 0 <= i <= |surveys|
      invariant d == DistributionOf(surveys[..i])
    {
      var survey := surveys[i];
      DistributionNext(surveys, i);
      var scores := PresentScores(survey.sqdAnswers);
      if |scores| > 0 {
        var avg := Sum(scores) as real / |scores| as real;
        assert Answered(survey) && avg == AverageSQDScore(survey);
        d := CountAverage(d, avg);
      }
      i := i + 1;
    }
    assert surveys[..i] == surveys;
  }

  // ---------------------------------------------------------------- /sqd-averages

  /** A survey's rating for question `q`; a missing field reads as null. */
  function AnswerTo(s: Survey, q: nat): Option<int>
  {
    if q < |s.sqdAnswers| then s.sqdAnswers[q] else None
  }

  /** The ratings the corpus gives question `q`, one slot per survey. */
  function Column(surveys: seq<Survey>, q: nat): (c: seq<Option<int>>)
    ensures |c| == |surveys|
    ensures forall i :: 0 <= i < |surveys| ==> c[i] == AnswerTo(surveys[i], q)
  {
    seq(|surveys|, i requires 0 <= i < |surveys| => AnswerTo(surveys[i], q))
  }

  /** `$avg` of field SQDq over the corpus. */
  function QuestionAverage(surveys: seq<Survey>, q: nat): Option<real>
  {
    Avg(ToReals(Column(surveys, q)))
  }

  /** The field each output entry averages, as written: entry 6 reads SQD7. */
  function FieldAveragedAsWritten(q: nat): nat
  {
    if q == 6 then 7 else q
  }

  /** `/sqd-averages` as written: no row (an empty object) for an empty
      corpus; otherwise nine entries, a null average reported as 0. */
  function SqdAverages(surveys: seq<Survey>): (r: Option<seq<real>>)
    ensures r.None? <==> surveys == []
    ensures r.Some? ==> |r.value| == NumQuestions
    ensures r.Some? ==> r.value[6] == r.value[7]
  {
    if surveys == [] then None
    else Some(seq(NumQuestions, q requires 0 <= q < NumQuestions => QuestionAverage(surveys, FieldAveragedAsWritten(q)).GetOr(0.0)))
  }

  /** For every question but SQD6, the entry is the exact mean of the ratings
      given to that question, over the surveys that answered it, and 0 when
      none did. */
  lemma SqdAverageEntry(surveys: seq<Survey>, q: nat)
    requires surveys != [] && q < NumQuestions && q != 6
    ensures var answers := PresentScores(Column(surveys, q));
      SqdAverages(surveys).value[q]
        == if answers == [] then 0.0 else Sum(answers) as real / |answers| as real
  {
    AvgOfRatings(Column(surveys, q));
  }

  /** When every rating lies in [1,5] an entry is 0 exactly when nobody answered its
      field, and lies in [1,5] otherwise. */
  lemma SqdAverageInRange(surveys: seq<Survey>, q: nat)
    requires surveys != [] && q < NumQuestions
    requires forall i :: 0 <= i < |surveys| ==> RatingsValid(surveys[i])
    ensures var a := SqdAverages(surveys).value[q];
      var f := FieldAveragedAsWritten(q);
      (a == 0.0 <==> forall i :: 0 <= i < |surveys| ==> AnswerTo(surveys[i], f).None?)
      && (a != 0.0 ==> 1.0 <= a <= 5.0)
  {
    var f := FieldAveragedAsWritten(q);
    var column := ToReals(Column(surveys, f));
    forall i | 0 <= i < |surveys| && column[i].Some?
      ensures 1.0 <= column[i].value <= 5.0
    {
      assert RatingOk(surveys[i].sqdAnswers[f]);
    }
    AvgBounds(column, 1.0, 5.0);
  }

  /** The SQD6 entry reports SQD7's ratings: a single survey rating SQD6 at 1
      and SQD7 at 5 gets 5 for SQD6. */
  lemma SqdSixReadsSqdSeven(s: Survey)
    requires |s.sqdAnswers| == NumQuestions
    requires s.sqdAnswers[6] == Some(1) && s.sqdAnswers[7] == Some(5)
    ensures SqdAverages([s]).value[6] == 5.0
    ensures SqdAveragesIntended([s])[6] == 1.0
  {
    AvgOfRatings(Column([s], 7));
    AvgOfRatings(Column([s], 6));
    assert Column([s], 7) == [Some(5)];
    assert Column([s], 6) == [Some(1)];
  }

  /** `/sqd-averages` with entry q averaging field SQDq for every q: every
      entry, SQD6 included, is the exact mean of the ratings given to its own
      question, and 0 when none was given. */
  function SqdAveragesIntended(surveys: seq<Survey>): (r: seq<real>)
    ensures |r| == NumQuestions
    ensures forall q :: 0 <= q < NumQuestions ==>
      var answers := PresentScores(Column(surveys, q));
      r[q] == if answers == [] then 0.0 else Sum(answers) as real / |answers| as real
  {
    var r := seq(NumQuestions, q requires 0 <= q < NumQuestions => QuestionAverage(surveys, q).GetOr(0.0));
    assert forall q :: 0 <= q < NumQuestions ==> r[q] == QuestionAverage(surveys, q).GetOr(0.0);
    ColumnMeans(surveys);
    r
  }

  lemma ColumnMeans(surveys: seq<Survey>)
    ensures forall q :: 0 <= q < NumQuestions ==>
      var answers := PresentScores(Column(surveys, q));
      QuestionAverage(surveys, q).GetOr(0.0) == if answers == [] then 0.0 else Sum(answers) as real / |answers| as real
  {
    forall q | 0 <= q < NumQuestions
      ensures var answers := PresentScores(Column(surveys, q));
        QuestionAverage(surveys, q).GetOr(0.0) == if answers == [] then 0.0 else Sum(answers) as real / |answers| as real
    {
      AvgOfRatings(Column(surveys, q));
    }
  }

  // ---------------------------------------------------------------- $group

  /** One output row of a `$group` stage: the group key, `count` and
      `avgSatisfaction` (null when no member is answered). */
  datatype Group<K> = Group(id: K, count: nat, avgSatisfaction: Option<real>)

  function GroupId<K>(g: Group<K>): K { g.id }
  function GroupCount<K>(g: Group<K>): int { g.count }

  /** `DistinctBy` with the identity as key, stated on the keys themselves so
      that the grouping proofs compare keys without applying a function. */
  predicate NoDuplicates<K(==)>(ks: seq<K>)
  {
    forall i, j :: 0 <= i < j < |ks| ==> ks[i] != ks[j]
  }

  /** The surveys whose key is `k`. */
  function Members<K(==)>(surveys: seq<Survey>, key: Survey -> K, k: K): (m: seq<Survey>)
    ensures |m| <= |surveys|
    ensures forall x :: x in m <==> x in surveys && key(x) == k
  {
    if surveys == [] then []
    else
      var init := surveys[..|surveys| - 1];
      var last := surveys[|surveys| - 1];
      assert surveys == init + [last];
      Members(init, key, k) + (if key(last) == k then [last] else [])
  }

  /** The distinct keys of the corpus, in order of first appearance. */
  function DistinctKeys<K(==)>(surveys: seq<Survey>, key: Survey -> K): (ks: seq<K>)
    ensures NoDuplicates(ks)
    ensures forall s :: s in surveys ==> key(s) in ks
  {
    if surveys == [] then []
    else
      var init := surveys[..|surveys| - 1];
      var last := surveys[|surveys| - 1];
      assert surveys == init + [last];
      var ks := DistinctKeys(init, key);
      if key(last) in ks then ks else ks + [key(last)]
  }

  /** Every distinct key has at least one member. */
  lemma {:induction false} KeysHaveMembers<K>(surveys: seq<Survey>, key: Survey -> K, k: K)
    requires k in DistinctKeys(surveys, key)
    ensures Members(surveys, key, k) != []
  {
    var init := surveys[..|surveys| - 1];
    var last := surveys[|surveys| - 1];
    if key(last) != k {
      KeysHaveMembers(init, key, k);
    }
  }

  /** The `$group` row of key `k`: its members' count and the mean
      `averageSQDScore` of its answered members, null when none is answered. */
  function MakeGroup<K(==)>(surveys: seq<Survey>, key: Survey -> K, k: K): (g: Group<K>)
    ensures var m := Members(surveys, key, k);
      && g.id == k && g.count == |m|
      && g.avgSatisfaction == if CountAnswered(m) == 0 then None
                              else Some(AnsweredTotal(m) / CountAnswered(m) as real)
  {
    var m := Members(surveys, key, k);
    MeanOfAnswered(m);
    Group(k, |m|, Avg(RecordAverages(m)))
  }

  function GroupsFor<K(==)>(surveys: seq<Survey>, key: Survey -> K, ks: seq<K>): (gs: seq<Group<K>>)
    ensures |gs| == |ks|
    ensures forall i :: 0 <= i < |ks| ==> gs[i] == MakeGroup(surveys, key, ks[i])
  {
    if ks == [] then [] else [MakeGroup(surveys, key, ks[0])] + GroupsFor(surveys, key, ks[1..])
  }

  /** The `$group` stage: one row per distinct key. */
  function GroupStats<K(==)>(surveys: seq<Survey>, key: Survey -> K): seq<Group<K>>
  {
    GroupsFor(surveys, key, DistinctKeys(surveys, key))
  }

  function Occurrences<K(==)>(ks: seq<K>, k: K): nat
  {
    if ks == [] then 0 else (if ks[0] == k then 1 else 0) + Occurrences(ks[1..], k)
  }

  lemma {:induction false} OccursOnce<K>(ks: seq<K>, k: K)
    requires NoDuplicates(ks) && k in ks
    ensures Occurrences(ks, k) == 1
  {
    if ks[0] == k {
      OccursNever(ks[1..], k);
    } else {
      OccursOnce(ks[1..], k);
    }
  }

  lemma {:induction false} OccursNever<K>(ks: seq<K>, k: K)
    requires k !in ks
    ensures Occurrences(ks, k) == 0
  {
    if ks != [] {
      OccursNever(ks[1..], k);
    }
  }

  lemma {:induction false} GroupSumEmpty<K>(key: Survey -> K, ks: seq<K>)
    ensures SumBy(GroupsFor([], key, ks), GroupCount) == 0
  {
    if ks != [] {
      var gs := GroupsFor([], key, ks);
      assert gs[1..] == GroupsFor([], key, ks[1..]);
      GroupSumEmpty(key, ks[1..]);
    }
  }

  /** Adding one survey adds one to the group count of each occurrence of its
      key. */
  lemma {:induction false} GroupSumStep<K>(surveys: seq<Survey>, key: Survey -> K, ks: seq<K>)
    requires surveys != []
    ensures SumBy(GroupsFor(surveys, key, ks), GroupCount)
      == SumBy(GroupsFor(surveys[..|surveys| - 1], key, ks), GroupCount)
       + Occurrences(ks, key(surveys[|surveys| - 1]))
  {
    if ks != [] {
      var init := surveys[..|surveys| - 1];
      assert GroupsFor(surveys, key, ks)[1..] == GroupsFor(surveys, key, ks[1..]);
      assert GroupsFor(init, key, ks)[1..] == GroupsFor(init, key, ks[1..]);
      GroupSumStep(surveys, key, ks[1..]);
    }
  }

  /** Group counts over distinct keys that cover the corpus add up to its
      size. */
  lemma {:induction false} GroupCountsAddUp<K>(surveys: seq<Survey>, key: Survey -> K, ks: seq<K>)
    requires NoDuplicates(ks)
    requires forall s :: s in surveys ==> key(s) in ks
    ensures SumBy(GroupsFor(surveys, key, ks), GroupCount) == |surveys|
  {
    if surveys == [] {
      GroupSumEmpty(key, ks);
    } else {
      var init := surveys[..|surveys| - 1];
      var last := surveys[|surveys| - 1];
      assert forall s :: s in init ==> s in surveys;
      GroupCountsAddUp(init, key, ks);
      GroupSumStep(surveys, key, ks);
      OccursOnce(ks, key(last));
    }
  }

  /** The `$group` rows have distinct keys. */
  lemma GroupKeysDistinct<K>(surveys: seq<Survey>, key: Survey -> K)
    ensures DistinctBy(GroupStats(surveys, key), GroupId)
  {
    var ks := DistinctKeys(surveys, key);
    var gs := GroupStats(surveys, key);
    forall i, j | 0 <= i < j < |gs| ensures GroupId(gs[i]) != GroupId(gs[j]) {
      assert gs[i].id == ks[i] && gs[j].id == ks[j];
    }
  }

  /** Every `$group` row is the non-empty group of its key, and every key of
      the corpus has a row. */
  lemma GroupRowsCoverKeys<K>(surveys: seq<Survey>, key: Survey -> K)
    ensures forall g :: g in GroupStats(surveys, key) ==> g == MakeGroup(surveys, key, g.id) && g.count > 0
    ensures forall s :: s in surveys ==> exists g :: g in GroupStats(surveys, key) && g.id == key(s)
  {
    var ks := DistinctKeys(surveys, key);
    var gs := GroupStats(surveys, key);
    forall g | g in gs ensures g == MakeGroup(surveys, key, g.id) && g.count > 0 {
      var i :| 0 <= i < |gs| && gs[i] == g;
      KeysHaveMembers(surveys, key, ks[i]);
    }
    forall s | s in surveys ensures exists g :: g in gs && g.id == key(s) {
      var i :| 0 <= i < |ks| && ks[i] == key(s);
      assert gs[i] in gs;
    }
  }

  /** Sorting the `$group` rows keeps their counts adding up to the corpus
      size. */
  lemma SortedGroupsCount<K>(surveys: seq<Survey>, key: Survey -> K, rank: Group<K> -> int)
    ensures SumBy(SortByRank(GroupStats(surveys, key), rank), GroupCount) == |surveys|
  {
    GroupCountsAddUp(surveys, key, DistinctKeys(surveys, key));
    SumBySort(GroupStats(surveys, key), rank, GroupCount);
  }

  /** Sorting the `$group` rows keeps one non-empty row per key. */
  lemma SortedGroupsRows<K>(surveys: seq<Survey>, key: Survey -> K, rank: Group<K> -> int)
    ensures var r := SortByRank(GroupStats(surveys, key), rank);
      && DistinctBy(r, GroupId)
      && (forall g :: g in r ==> g == MakeGroup(surveys, key, g.id) && g.count > 0)
      && (forall s :: s in surveys ==> exists g :: g in r && g.id == key(s))
  {
    var gs := GroupStats(surveys, key);
    var r := SortByRank(gs, rank);
    GroupKeysDistinct(surveys, key);
    SortKeepsDistinct(gs, rank, GroupId);
    GroupRowsCoverKeys(surveys, key);
    forall g | g in r ensures g == MakeGroup(surveys, key, g.id) && g.count > 0 {
      SortKeepsElement(gs, rank, g);
    }
    forall s | s in surveys ensures exists g :: g in r && g.id == key(s) {
      var g :| g in gs && g.id == key(s);
      SortKeepsElement(gs, rank, g);
    }
  }

  /** A `$group` stage followed by a `$sort` on `rank`: one non-empty group per
      distinct key, each with the count and average of its members, counts
      adding up to the corpus size, ordered by `rank`. */
  lemma SortedGroupsProperties<K>(surveys: seq<Survey>, key: Survey -> K, rank: Group<K> -> int)
    ensures var r := SortByRank(GroupStats(surveys, key), rank);
      && DistinctBy(r, GroupId)
      && (forall g :: g in r ==> g == MakeGroup(surveys, key, g.id) && g.count > 0)
      && (forall s :: s in surveys ==> exists g :: g in r && g.id == key(s))
      && SumBy(r, GroupCount) == |surveys|
      && NonIncreasing(r, rank)
  {
    SortedGroupsCount(surveys, key, rank);
    SortedGroupsRows(surveys, key, rank);
  }

  // ---------------------------------------------------------------- /by-client-type, /by-region

  function ClientTypeOf(s: Survey): ClientType { s.clientType }
  function RegionOf(s: Survey): string { s.region }

  /** `$group` by `key`, then `$sort: { count: -1 }`. */
  function GroupedByCount<K(==)>(surveys: seq<Survey>, key: Survey -> K): seq<Group<K>>
  {
    SortByRank(GroupStats(surveys, key), GroupCount)
  }

  /** `/by-client-type`: one group per client type present, counts adding up
      to the corpus size, largest group first. */
  function ByClientType(surveys: seq<Survey>): (r: seq<Group<ClientType>>)
    ensures DistinctBy(r, GroupId)
    ensures forall g :: g in r ==> g == MakeGroup(surveys, ClientTypeOf, g.id) && g.count > 0
    ensures forall s :: s in surveys ==> exists g :: g in r && g.id == s.clientType
    ensures SumBy(r, GroupCount) == |surveys|
    ensures NonIncreasing(r, GroupCount)
  {
    SortedGroupsProperties(surveys, ClientTypeOf, GroupCount);
    GroupedByCount(surveys, ClientTypeOf)
  }

  /** `/by-region`: one group per region present, counts adding up to the
      corpus size, largest group first. */
  function ByRegion(surveys: seq<Survey>): (r: seq<Group<string>>)
    ensures DistinctBy(r, GroupId)
    ensures forall g :: g in r ==> g == MakeGroup(surveys, RegionOf, g.id) && g.count > 0
    ensures forall s :: s in surveys ==> exists g :: g in r && g.id == s.region
    ensures SumBy(r, GroupCount) == |surveys|
    ensures NonIncreasing(r, GroupCount)
  {
    SortedGroupsProperties(surveys, RegionOf, GroupCount);
    GroupedByCount(surveys, RegionOf)
  }

  /** When every rating lies in [1,5] a group's average is null exactly when none of
      its members is answered, and otherwise lies in [1,5]. */
  lemma GroupAverageInRange<K>(surveys: seq<Survey>, key: Survey -> K, k: K)
    requires forall i :: 0 <= i < |surveys| ==> RatingsValid(surveys[i])
    ensures var g := MakeGroup(surveys, key, k);
      (g.avgSatisfaction.None? <==> forall s :: s in surveys && key(s) == k ==> !Answered(s))
      && (g.avgSatisfaction.Some? ==> 1.0 <= g.avgSatisfaction.value <= 5.0)
  {
    var m := Members(surveys, key, k);
    var a := Avg(RecordAverages(m));
    assert MakeGroup(surveys, key, k).avgSatisfaction == a;
    forall i | 0 <= i < |m| ensures RatingsValid(m[i]) {
      assert m[i] in m;
      var j :| 0 <= j < |surveys| && surveys[j] == m[i];
    }
    MeanOfRecordAverages(m);
    MembersAnswered(surveys, key, k);
  }

  /** Every member is unanswered exactly when every survey with the key is. */
  lemma MembersAnswered<K>(surveys: seq<Survey>, key: Survey -> K, k: K)
    ensures var m := Members(surveys, key, k);
      (forall i :: 0 <= i < |m| ==> !Answered(m[i]))
        <==> forall s :: s in surveys && key(s) == k ==> !Answered(s)
  {
    var m := Members(surveys, key, k);
    if forall i :: 0 <= i < |m| ==> !Answered(m[i]) {
      forall s | s in surveys && key(s) == k ensures !Answered(s) {
        assert s in m;
        var i :| 0 <= i < |m| && m[i] == s;
      }
    } else {
      var i :| 0 <= i < |m| && Answered(m[i]);
      assert m[i] in m;
    }
  }

  // ---------------------------------------------------------------- /trends

  const MsPerDay := 86400000

  /** The UTC calendar day of a timestamp, as a day number; its order is the
      order of the `%Y-%m-%d` strings. */
  function DayKey(t: int): int
  {
    t / MsPerDay
  }

  function DayOf(s: Survey): int { DayKey(s.submittedAt) }

  /** Sorting groups on the negated day puts the earliest day first. */
  function Earlier(g: Group<int>): int { -g.id }

  /** The `$match` stage: surveys submitted at or after `cutoff`. */
  function SubmittedSince(surveys: seq<Survey>, cutoff: int): (r: seq<Survey>)
    ensures |r| <= |surveys|
    ensures forall x :: x in r <==> x in surveys && x.submittedAt >= cutoff
  {
    if surveys == [] then []
    else
      assert surveys == [surveys[0]] + surveys[1..];
      (if surveys[0].submittedAt >= cutoff then [surveys[0]] else []) + SubmittedSince(surveys[1..], cutoff)
  }

  /** `now` moved back by `days` days. */
  function TrendsCutoff(now: int, days: int): int
  {
    now - days * MsPerDay
  }

  /** `/trends`: the surveys submitted at or after `now` minus `days` days,
      one group per day they fall on, each with the count and average of that
      day's surveys; counts add up to the number of recent surveys; days are
      strictly ascending. */
  function Trends(surveys: seq<Survey>, now: int, days: int): (r: seq<Group<int>>)
    ensures var recent := SubmittedSince(surveys, TrendsCutoff(now, days));
      && (forall s :: s in recent <==> s in surveys && s.submittedAt >= now - days * MsPerDay)
      && (forall i, j :: 0 <= i < j < |r| ==> r[i].id < r[j].id)
      && (forall g :: g in r ==> g == MakeGroup(recent, DayOf, g.id) && g.count > 0)
      && (forall s :: s in recent ==> exists g :: g in r && g.id == DayKey(s.submittedAt))
      && SumBy(r, GroupCount) == |recent|
  {
    var recent := SubmittedSince(surveys, TrendsCutoff(now, days));
    DaysAscending(recent);
    SortByRank(GroupStats(recent, DayOf), Earlier)
  }

  /** The day groups sorted earliest first: strictly ascending days, one
      non-empty group per day, counts adding up. */
  lemma DaysAscending(recent: seq<Survey>)
    ensures var r := SortByRank(GroupStats(recent, DayOf), Earlier);
      && (forall i, j :: 0 <= i < j < |r| ==> r[i].id < r[j].id)
      && (forall g :: g in r ==> g == MakeGroup(recent, DayOf, g.id) && g.count > 0)
      && (forall s :: s in recent ==> exists g :: g in r && g.id == DayKey(s.submittedAt))
      && SumBy(r, GroupCount) == |recent|
  {
    var r := SortByRank(GroupStats(recent, DayOf), Earlier);
    SortedGroupsProperties(recent, DayOf, Earlier);
    forall i, j | 0 <= i < j < |r| ensures r[i].id < r[j].id {
      assert Earlier(r[i]) >= Earlier(r[j]);
      assert GroupId(r[i]) != GroupId(r[j]);
    }
  }

  // ---------------------------------------------------------------- /export

  datatype ExportData = ExportData(count: nat, data: seq<Survey>)

  /** `/export`: every survey, newest first, with its count. */
  function Export(surveys: seq<Survey>): (r: ExportData)
    ensures r.count == |r.data| == |surveys|
    ensures multiset(r.data) == multiset(surveys)
    ensures NonIncreasing(r.data, SubmittedAtOf)
  {
    var data := SortByRank(surveys, SubmittedAtOf);
    ExportData(|data|, data)
  }
}
