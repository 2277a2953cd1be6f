/**
 Average precision of scored cases, ties included.  Scores are reals: rounding, infinities and NaN are not
 part of this model.
 */
module AveragePrecision {
  import opened Options
  import opened RealSums
  import opened Sorting

  datatype Case = Case(score: real, actual: bool)

  // ------------------------------------------------------------------ definition

  function AtLeast(threshold: real): Case -> real {
    (c: Case) => if threshold <= c.score then 1.0 else 0.0
  }

  function PositiveAtLeast(threshold: real): Case -> real {
    (c: Case) => if c.actual && threshold <= c.score then 1.0 else 0.0
  }

  function Positive(): Case -> real {
    (c: Case) => if c.actual then 1.0 else 0.0
  }

  /** The share of positives among the cases that score at least the threshold. */
  function Precision(cases: seq<Case>, threshold: real): real {
    if Sum(cases, AtLeast(threshold)) == 0.0 then 0.0
    else Sum(cases, PositiveAtLeast(threshold)) / Sum(cases, AtLeast(threshold))
  }

  /** The share of the positives that score at least the threshold. */
  function Recall(cases: seq<Case>, threshold: real): real
    requires Sum(cases, Positive()) != 0.0
  {
    Sum(cases, PositiveAtLeast(threshold)) / Sum(cases, Positive())
  }

  function LastRecall(cases: seq<Case>, thresholds: seq<real>): real
    requires Sum(cases, Positive()) != 0.0
  {
    if thresholds == [] then 0.0 else Recall(cases, thresholds[|thresholds| - 1])
  }

  /** Over the thresholds in turn, the gain in recall times the precision. */
  function ThresholdSum(cases: seq<Case>, thresholds: seq<real>): real
    requires Sum(cases, Positive()) != 0.0
  {
    if thresholds == [] then 0.0
    else
      var before, last := thresholds[..|thresholds| - 1], thresholds[|thresholds| - 1];
      ThresholdSum(cases, before) + (Recall(cases, last) - LastRecall(cases, before)) * Precision(cases, last)
  }

  predicate Descending(thresholds: seq<real>) {
    forall i, j :: 0 <= i < j < |thresholds| ==> thresholds[i] > thresholds[j]
  }

  /** The thresholds are exactly the scores, each once, from high to low. */
  ghost predicate AreScoresOf(thresholds: seq<real>, cases: seq<Case>) {
    Descending(thresholds) && forall t :: t in thresholds <==> exists c :: c in cases && c.score == t
  }

  /** There is only one such list. */
  lemma {:induction false} DescendingIsUnique(a: seq<real>, b: seq<real>)
    requires Descending(a) && Descending(b) && forall t :: t in a <==> t in b
    ensures a == b
  {
    assert (a != [] ==> a[0] in a) && (b != [] ==> b[0] in b);
    if a != [] {
      assert a[0] == b[0];
      forall t ensures t in a[1..] <==> t in b[1..] {
        assert t in a <==> t == a[0] || t in a[1..];
        assert t in b <==> t == b[0] || t in b[1..];
      }
      DescendingIsUnique(a[1..], b[1..]);
    }
  }

  /** The reference definition: the threshold sum over the distinct scores. */
  ghost predicate IsAveragePrecision(cases: seq<Case>, area: real) {
    && Sum(cases, Positive()) != 0.0
    && exists thresholds :: AreScoresOf(thresholds, cases) && area == ThresholdSum(cases, thresholds)
  }

  // --------------------------------------------------------------------- sorting

  function Higher(): (Case, Case) -> bool {
    (a: Case, b: Case) => b.score < a.score
  }

  /** A stable sort from high to low. */
  function Ranked(cases: seq<Case>): seq<Case> {
    Sort(cases, Higher())
  }

  predicate HighToLow(cases: seq<Case>) {
    forall i, j :: 0 <= i < j < |cases| ==> cases[i].score >= cases[j].score
  }

  lemma RankedIsSorted(cases: seq<Case>)
    ensures HighToLow(Ranked(cases)) && multiset(Ranked(cases)) == multiset(cases)
  {
    SortSorts(cases, Higher());
    var ranked := Ranked(cases);
    forall i, j | 0 <= i < j < |ranked| ensures ranked[i].score >= ranked[j].score {
      assert !Higher()(ranked[j], ranked[i]);
    }
  }

  // ---------------------------------------------------------------- the algorithm

  function CountPositives(cases: seq<Case>): nat {
    if cases == [] then 0
    else CountPositives(cases[..|cases| - 1]) + (if cases[|cases| - 1].actual then 1 else 0)
  }

  lemma {:induction false} CountIsSum(cases: seq<Case>)
    ensures CountPositives(cases) as real == Sum(cases, Positive())
    ensures CountPositives(cases) == 0 <==> forall c :: c in cases ==> !c.actual
  {
    if cases != [] {
      var front, last := cases[..|cases| - 1], cases[|cases| - 1];
      assert cases == front + [last];
      CountIsSum(front);
    }
  }

  lemma CasesFrom(ranked: seq<Case>, end: nat, score: real)
    requires end <= |ranked|
    requires forall k :: 0 <= k < end ==> ranked[k].score >= score
    requires forall k :: end <= k < |ranked| ==> ranked[k].score < score
    ensures Sum(ranked, AtLeast(score)) == end as real
  {
    var high, low := ranked[..end], ranked[end..];
    assert ranked == high + low;
    SumConcat(high, low, AtLeast(score));
    SumConstant(high, AtLeast(score), 1.0);
    SumZero(low, AtLeast(score));
  }

  lemma PositivesFrom(ranked: seq<Case>, end: nat, score: real)
    requires end <= |ranked|
    requires forall k :: 0 <= k < end ==> ranked[k].score >= score
    requires forall k :: end <= k < |ranked| ==> ranked[k].score < score
    ensures Sum(ranked, PositiveAtLeast(score)) == Sum(ranked[..end], Positive())
  {
    var high, low := ranked[..end], ranked[end..];
    assert ranked == high + low;
    hide RealSums.Sum;
    SumConcat(high, low, PositiveAtLeast(score));
    SumZero(low, PositiveAtLeast(score));
    SumCompare(high, PositiveAtLeast(score), Positive());
  }

  /** At the end of a group of equal scores, the counts so far give recall and precision at that score. */
  lemma GroupMeasures(ranked: seq<Case>, end: nat, score: real, truePositives: nat, positives: nat)
    requires 0 < end <= |ranked| && positives != 0 && Sum(ranked, Positive()) == positives as real
    requires truePositives == CountPositives(ranked[..end])
    requires forall k :: 0 <= k < end ==> ranked[k].score >= score
    requires forall k :: end <= k < |ranked| ==> ranked[k].score < score
    ensures Recall(ranked, score) == truePositives as real / positives as real
    ensures Precision(ranked, score) == truePositives as real / end as real
  {
    hide RealSums.Sum;
    CasesFrom(ranked, end, score);
    PositivesFrom(ranked, end, score);
    CountIsSum(ranked[..end]);
  }

  /** Counting through one group of equal scores, and where it ends. */
  method CountGroup(ranked: seq<Case>, start: nat, positivesBefore: nat) returns (end: nat, truePositives: nat)
    requires HighToLow(ranked) && start < |ranked| && positivesBefore == CountPositives(ranked[..start])
    ensures start < end <= |ranked| && truePositives == CountPositives(ranked[..end])
    ensures forall k :: start <= k < end ==> ranked[k].score == ranked[start].score
    ensures forall k :: end <= k < |ranked| ==> ranked[k].score < ranked[start].score
  {
    var score := ranked[start].score;
    end, truePositives := start, positivesBefore;
    while end < |ranked| && ranked[end].score == score
      invariant start <= end <= |ranked| && truePositives == CountPositives(ranked[..end])
      invariant forall k :: start <= k < end ==> ranked[k].score == score
    {
      assert ranked[..end + 1][..end] == ranked[..end];
      if ranked[end].actual {
        truePositives := truePositives + 1;
      }
      end := end + 1;
    }
  }

  /** `average_precision`. */
  method ComputeAveragePrecision(scored: seq<Case>) returns (result: Option<real>)
    ensures result.None? <==> forall c :: c in scored ==> !c.actual
    ensures result.Some? ==> IsAveragePrecision(scored, result.value)
  {
    hide Recall, Precision, ThresholdSum, LastRecall, Ranked, CountPositives, RealSums.Sum, AreScoresOf;
    var positives := CountPositives(scored);
    CountIsSum(scored);
    if positives == 0 {
      return None;
    }
    var ranked := Ranked(scored);
    RankedIsSorted(scored);
    SumPermutation(ranked, scored, Positive());
    var truePositives, processed, previousRecall, area := 0, 0, 0.0, 0.0;
    ghost var thresholds: seq<real> := [];
    NothingYet(ranked);
    while processed < |ranked|
      invariant processed <= |ranked| && truePositives == CountPositives(ranked[..processed])
      invariant AreScoresOf(thresholds, ranked[..processed])
      invariant processed < |ranked| ==> forall t :: t in thresholds ==> ranked[processed].score < t
      invariant previousRecall == LastRecall(ranked, thresholds)
      invariant area == ThresholdSum(ranked, thresholds)
    {
      var score := ranked[processed].score;
      var end, counted := CountGroup(ranked, processed, truePositives);
      truePositives := counted;
      var recall := truePositives as real / positives as real;
      var precision := truePositives as real / end as real;
      GroupMeasures(ranked, end, score, truePositives, positives);
      ThresholdAdded(ranked, thresholds, score, previousRecall, area);
      ListedOneMore(thresholds, ranked, processed, end);
      area := area + (recall - previousRecall) * precision;
      previousRecall := recall;
      thresholds := thresholds + [score];
      processed := end;
    }
    assert ranked[..|ranked|] == ranked;
    PermutedThresholdSum(ranked, scored, thresholds);
    ListedPermuted(thresholds, ranked, scored);
    result := Some(area);
  }

  lemma NothingYet(ranked: seq<Case>)
    requires Sum(ranked, Positive()) != 0.0
    ensures CountPositives(ranked[..0]) == 0 && AreScoresOf([], ranked[..0])
    ensures LastRecall(ranked, []) == 0.0 && ThresholdSum(ranked, []) == 0.0
  {
  }

  lemma ThresholdAdded(cases: seq<Case>, thresholds: seq<real>, score: real, previousRecall: real, area: real)
    requires Sum(cases, Positive()) != 0.0
    requires previousRecall == LastRecall(cases, thresholds) && area == ThresholdSum(cases, thresholds)
    ensures LastRecall(cases, thresholds + [score]) == Recall(cases, score)
    ensures ThresholdSum(cases, thresholds + [score])
      == area + (Recall(cases, score) - previousRecall) * Precision(cases, score)
  {
    hide Recall, Precision, RealSums.Sum;
    assert (thresholds + [score])[..|thresholds|] == thresholds;
  }

  lemma ListedOneMore(thresholds: seq<real>, ranked: seq<Case>, start: nat, end: nat)
    requires start < end <= |ranked| && AreScoresOf(thresholds, ranked[..start])
    requires forall t :: t in thresholds ==> ranked[start].score < t
    requires forall k :: start <= k < end ==> ranked[k].score == ranked[start].score
    ensures AreScoresOf(thresholds + [ranked[start].score], ranked[..end])
  {
    var score := ranked[start].score;
    var more := thresholds + [score];
    assert forall i :: 0 <= i < |thresholds| ==> thresholds[i] in thresholds;
    forall t ensures t in more <==> exists c :: c in ranked[..end] && c.score == t {
      if t in thresholds {
        var c :| c in ranked[..start] && c.score == t;
        assert c in ranked[..end];
      } else if t == score {
        assert ranked[start] in ranked[..end];
      }
      forall c | c in ranked[..end] && c.score == t ensures t in more {
        var k :| 0 <= k < end && ranked[k] == c;
        if k < start { assert c in ranked[..start]; }
      }
    }
  }

  lemma ListedPermuted(thresholds: seq<real>, a: seq<Case>, b: seq<Case>)
    requires multiset(a) == multiset(b) && AreScoresOf(thresholds, a)
    ensures AreScoresOf(thresholds, b)
  {
    forall c ensures c in a <==> c in b {
      assert c in multiset(a) <==> c in multiset(b);
    }
  }

  /** Recall, precision and so the threshold sum depend on the cases only as a collection. */
  lemma {:induction false} PermutedThresholdSum(a: seq<Case>, b: seq<Case>, thresholds: seq<real>)
    requires multiset(a) == multiset(b) && Sum(a, Positive()) != 0.0
    ensures Sum(b, Positive()) == Sum(a, Positive())
    ensures ThresholdSum(a, thresholds) == ThresholdSum(b, thresholds)
    ensures LastRecall(a, thresholds) == LastRecall(b, thresholds)
  {
    hide Recall, Precision;
    SumPermutation(a, b, Positive());
    if thresholds != [] {
      var before, last := thresholds[..|thresholds| - 1], thresholds[|thresholds| - 1];
      PermutedMeasures(a, b, last);
      PermutedThresholdSum(a, b, before);
    }
  }

  lemma PermutedMeasures(a: seq<Case>, b: seq<Case>, threshold: real)
    requires multiset(a) == multiset(b) && Sum(a, Positive()) == Sum(b, Positive()) != 0.0
    ensures Recall(a, threshold) == Recall(b, threshold) && Precision(a, threshold) == Precision(b, threshold)
  {
    SumPermutation(a, b, AtLeast(threshold));
    SumPermutation(a, b, PositiveAtLeast(threshold));
  }

  /** The order of the cases does not matter. */
  lemma AveragePrecisionIgnoresOrder(a: seq<Case>, b: seq<Case>, x: real, y: real)
    requires multiset(a) == multiset(b) && IsAveragePrecision(a, x) && IsAveragePrecision(b, y)
    ensures x == y
  {
    var ta :| AreScoresOf(ta, a) && x == ThresholdSum(a, ta);
    var tb :| AreScoresOf(tb, b) && y == ThresholdSum(b, tb);
    ListedPermuted(ta, a, b);
    DescendingIsUnique(ta, tb);
    PermutedThresholdSum(a, b, ta);
  }

  // ------------------------------------------------------- the mean over positives

  predicate Reached(thresholds: seq<real>, score: real) {
    thresholds != [] && thresholds[|thresholds| - 1] <= score
  }

  function PositiveReached(thresholds: seq<real>): Case -> real {
    (c: Case) => if c.actual && Reached(thresholds, c.score) then 1.0 else 0.0
  }

  function PrecisionReached(cases: seq<Case>, thresholds: seq<real>): Case -> real {
    (c: Case) => if c.actual && Reached(thresholds, c.score) then Precision(cases, c.score) else 0.0
  }

  function PositiveExactly(score: real): Case -> real {
    (c: Case) => if c.actual && c.score == score then 1.0 else 0.0
  }

  function PrecisionExactly(cases: seq<Case>, score: real): Case -> real {
    (c: Case) => if c.actual && c.score == score then Precision(cases, c.score) else 0.0
  }

  /** The precision at each positive's own score. */
  function PrecisionOfPositive(cases: seq<Case>): Case -> real {
    (c: Case) => if c.actual then Precision(cases, c.score) else 0.0
  }

  lemma LastRecallIsShare(cases: seq<Case>, thresholds: seq<real>)
    requires Sum(cases, Positive()) != 0.0
    ensures LastRecall(cases, thresholds) * Sum(cases, Positive()) == Sum(cases, PositiveReached(thresholds))
  {
    if thresholds == [] {
      SumZero(cases, PositiveReached(thresholds));
    } else {
      var last := thresholds[|thresholds| - 1];
      SumCompare(cases, PositiveAtLeast(last), PositiveReached(thresholds));
      Cancel(Sum(cases, PositiveAtLeast(last)), Sum(cases, Positive()));
    }
  }

  lemma Cancel(a: real, b: real)
    requires b != 0.0
    ensures a / b * b == a
  {
  }

  /** One threshold further, exactly the scores equal to it are reached in addition. */
  lemma ReachedOneMore(all: seq<real>, k: nat, score: real)
    requires Descending(all) && k < |all| && score in all
    ensures Reached(all[..k + 1], score) <==> Reached(all[..k], score) || score == all[k]
    ensures !(Reached(all[..k], score) && score == all[k])
  {
  }

  lemma {:induction false} ThresholdSumIsReached(cases: seq<Case>, all: seq<real>, k: nat)
    requires Sum(cases, Positive()) != 0.0 && AreScoresOf(all, cases) && k <= |all|
    ensures ThresholdSum(cases, all[..k]) * Sum(cases, Positive()) == Sum(cases, PrecisionReached(cases, all[..k]))
  {
    hide RealSums.Sum, Precision, Recall;
    if k == 0 {
      SumZero(cases, PrecisionReached(cases, all[..k]));
    } else {
      var before, now := all[..k - 1], all[..k];
      var score := all[k - 1];
      assert now[..k - 1] == before;
      ThresholdSumIsReached(cases, all, k - 1);
      StepOfReached(cases, all, k - 1);
      LastRecallIsShare(cases, before);
      LastRecallIsShare(cases, now);
      GainIsExact(
        LastRecall(cases, now), LastRecall(cases, before), Sum(cases, Positive()), Precision(cases, score),
        Sum(cases, PositiveExactly(score)), ThresholdSum(cases, before));
    }
  }

  lemma StepOfReached(cases: seq<Case>, all: seq<real>, k: nat)
    requires AreScoresOf(all, cases) && k < |all|
    ensures Sum(cases, PositiveReached(all[..k + 1]))
      == Sum(cases, PositiveReached(all[..k])) + Sum(cases, PositiveExactly(all[k]))
    ensures Sum(cases, PrecisionReached(cases, all[..k + 1]))
      == Sum(cases, PrecisionReached(cases, all[..k])) + Precision(cases, all[k]) * Sum(cases, PositiveExactly(all[k]))
  {
    hide RealSums.Sum, Precision, Reached;
    forall c | c in cases
      ensures PositiveReached(all[..k + 1])(c) == PositiveReached(all[..k])(c) + PositiveExactly(all[k])(c)
      ensures PrecisionReached(cases, all[..k + 1])(c)
        == PrecisionReached(cases, all[..k])(c) + PrecisionExactly(cases, all[k])(c)
    {
      ReachedOneMore(all, k, c.score);
    }
    SumAdd(cases, PositiveReached(all[..k + 1]), PositiveReached(all[..k]), PositiveExactly(all[k]));
    SumAdd(cases, PrecisionReached(cases, all[..k + 1]), PrecisionReached(cases, all[..k]), PrecisionExactly(cases, all[k]));
    SumScale(cases, PrecisionExactly(cases, all[k]), Precision(cases, all[k]), PositiveExactly(all[k]));
  }

  lemma GainIsExact(recall: real, before: real, positives: real, precision: real, exact: real, area: real)
    requires recall * positives == before * positives + exact
    ensures (area + (recall - before) * precision) * positives == area * positives + precision * exact
  {
  }

  /** The threshold sum is the mean, over the positives, of the precision at their scores. */
  lemma AveragePrecisionIsMean(cases: seq<Case>, area: real)
    requires IsAveragePrecision(cases, area)
    ensures area == Sum(cases, PrecisionOfPositive(cases)) / Sum(cases, Positive())
  {
    hide RealSums.Sum, Precision, Recall, ThresholdSum;
    var all :| AreScoresOf(all, cases) && area == ThresholdSum(cases, all);
    assert all[..|all|] == all;
    ThresholdSumIsReached(cases, all, |all|);
    forall c | c in cases ensures PrecisionReached(cases, all)(c) == PrecisionOfPositive(cases)(c) {
      assert c.score in all;
      var i :| 0 <= i < |all| && all[i] == c.score;
    }
    SumCompare(cases, PrecisionReached(cases, all), PrecisionOfPositive(cases));
    Cancel(area, Sum(cases, Positive()));
    DivideBack(area, Sum(cases, Positive()), Sum(cases, PrecisionOfPositive(cases)));
  }

  lemma DivideBack(a: real, b: real, c: real)
    requires b != 0.0 && a * b == c
    ensures a == c / b
  {
  }

  /** A positive's own precision is above zero and at most one; one exactly when nothing negative scores as high. */
  lemma PrecisionOfPositiveBounds(cases: seq<Case>, c: Case)
    requires c in cases && c.actual
    ensures 0.0 < Precision(cases, c.score) <= 1.0
    ensures Precision(cases, c.score) == 1.0 <==> forall n :: n in cases && !n.actual ==> n.score < c.score
  {
    hide RealSums.Sum;
    var hits, all := Sum(cases, PositiveAtLeast(c.score)), Sum(cases, AtLeast(c.score));
    SumCompare(cases, PositiveAtLeast(c.score), AtLeast(c.score));
    PositiveSum(cases, PositiveAtLeast(c.score), c);
    Share(hits, all);
    assert hits == all <==> forall n :: n in cases ==> PositiveAtLeast(c.score)(n) == AtLeast(c.score)(n);
  }

  lemma PositiveSum(cases: seq<Case>, f: Case -> real, c: Case)
    requires c in cases && f(c) > 0.0 && forall x :: x in cases ==> f(x) >= 0.0
    ensures Sum(cases, f) > 0.0
  {
    SumCompare(cases, (x: Case) => 0.0, f);
    SumZero(cases, (x: Case) => 0.0);
  }

  lemma Share(part: real, whole: real)
    requires 0.0 < part <= whole
    ensures 0.0 < part / whole <= 1.0 && (part / whole == 1.0 <==> part == whole)
  {
  }

  /**
   Where there is a positive, average precision lies above zero and at most at one, and it is one exactly
   when every positive scores above every negative.
   */
  lemma AveragePrecisionBounds(cases: seq<Case>, area: real)
    requires IsAveragePrecision(cases, area)
    ensures 0.0 < area <= 1.0
    ensures area == 1.0 <==>
      forall p, n :: p in cases && n in cases && p.actual && !n.actual ==> n.score < p.score
  {
    hide RealSums.Sum, Precision, Recall, ThresholdSum;
    AveragePrecisionIsMean(cases, area);
    var f, g := PrecisionOfPositive(cases), Positive();
    forall c | c in cases ensures f(c) <= g(c) && 0.0 <= f(c) && (c.actual ==> 0.0 < f(c)) {
      if c.actual { PrecisionOfPositiveBounds(cases, c); }
    }
    SumCompare(cases, f, g);
    SomePositive(cases);
    var p :| p in cases && p.actual;
    PositiveSum(cases, f, p);
    Share(Sum(cases, f), Sum(cases, g));
    forall c | c in cases
      ensures f(c) == g(c) <==> (c.actual ==> forall n :: n in cases && !n.actual ==> n.score < c.score)
    {
      if c.actual { PrecisionOfPositiveBounds(cases, c); }
    }
  }

  lemma SomePositive(cases: seq<Case>)
    requires Sum(cases, Positive()) != 0.0
    ensures exists p :: p in cases && p.actual
  {
  }
}
