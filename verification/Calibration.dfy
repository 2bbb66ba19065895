/** Fitting a cut-off to labelled scores, as backend/scripts/calibrate_thresholds.py does. */
module Calibration {
  import opened Sorting

  datatype Labelled = Labelled(score: real, relevance: int)
  datatype Candidate = Candidate(f1: real, threshold: real)

  const RELEVANT := 2
  const STEP := 0.01
  const LOWER := 0.30

  function Predicted(scored: seq<Labelled>, threshold: real): seq<Labelled> {
    if scored == [] then []
    else if scored[0].score >= threshold then [scored[0]] + Predicted(scored[1..], threshold)
    else Predicted(scored[1..], threshold)
  }

  function Hits(scored: seq<Labelled>): nat {
    if scored == [] then 0
    else (if scored[0].relevance >= RELEVANT then 1 else 0) + Hits(scored[1..])
  }

  function F1(scored: seq<Labelled>, threshold: real): real {
    var predicted := Predicted(scored, threshold);
    var hits := Hits(predicted);
    var relevant := Hits(scored);
    if predicted == [] || relevant == 0 || hits == 0 then 0.0
    else Balance(hits as real, |predicted| as real, relevant as real)
  }

  /** The harmonic mean of precision and recall. */
  function Balance(hits: real, predicted: real, relevant: real): real
    requires hits > 0.0 && predicted > 0.0 && relevant > 0.0
  {
    var precision, recall := hits / predicted, hits / relevant;
    PrecisionAndRecallArePositive(hits, predicted, relevant);
    2.0 * precision * recall / (precision + recall)
  }

  lemma PrecisionAndRecallArePositive(hits: real, predicted: real, relevant: real)
    requires hits > 0.0 && predicted > 0.0 && relevant > 0.0
    ensures hits / predicted > 0.0 && hits / relevant > 0.0
  {}

  function Grid(steps: nat): (r: seq<real>)
    ensures |r| == steps + 1
    ensures forall i :: 0 <= i <= steps ==> r[i] == LOWER + STEP * i as real
  {
    if steps == 0 then [LOWER] else Grid(steps - 1) + [LOWER + STEP * steps as real]
  }

  function Rate(scored: seq<Labelled>, grid: seq<real>): (r: seq<Candidate>)
    ensures |r| == |grid|
    ensures forall i :: 0 <= i < |grid| ==> r[i] == Candidate(F1(scored, grid[i]), grid[i])
  {
    if grid == [] then [] else [Candidate(F1(scored, grid[0]), grid[0])] + Rate(scored, grid[1..])
  }

  /** Tuples compare by F1 first and by cut-off second. */
  predicate Outranks(a: Candidate, b: Candidate) {
    a.f1 > b.f1 || (a.f1 == b.f1 && a.threshold >= b.threshold)
  }

  function Winner(scored: seq<Labelled>, steps: nat): Candidate {
    Sort(Rate(scored, Grid(steps)), Outranks)[0]
  }

  /** The nearest integer, and the even one of two that are as near. */
  function HalfEven(x: real): int {
    var low := x.Floor;
    var rest := x - low as real;
    if rest < 0.5 || (rest == 0.5 && low % 2 == 0) then low else low + 1
  }

  /** To a whole number of parts of one. */
  function Rounded(x: real, parts: int): real
    requires parts > 0
  {
    HalfEven(x * parts as real) as real / parts as real
  }

  function BestThreshold(scored: seq<Labelled>, steps: nat): Candidate {
    Candidate(Rounded(Winner(scored, steps).f1, 1000), Rounded(Winner(scored, steps).threshold, 100))
  }

  // ----- F1 --------------------------------------------------------------

  lemma {:induction false} HitsAreBounded(scored: seq<Labelled>, threshold: real)
    ensures Hits(Predicted(scored, threshold)) <= Hits(scored)
    ensures Hits(scored) <= |scored|
    ensures Hits(Predicted(scored, threshold)) <= |Predicted(scored, threshold)|
  {
    if scored != [] {
      HitsAreBounded(scored[1..], threshold);
      if scored[0].score >= threshold {
        assert Predicted(scored, threshold)[1..] == Predicted(scored[1..], threshold);
      }
    }
  }

  lemma BalanceIsDice(h: real, p: real, r: real)
    requires h > 0.0 && p > 0.0 && r > 0.0
    ensures Balance(h, p, r) == 2.0 * h / (p + r)
  {
    var x, y := h / p, h / r;
    PrecisionAndRecallArePositive(h, p, r);
    assert x * p == h && y * r == h;
    calc {
      2.0 * x * y * (p + r);
    ==
      2.0 * (x * p) * y + 2.0 * x * (y * r);
    ==
      2.0 * h * (x + y);
    }
    CrossDivide(2.0 * x * y, x + y, 2.0 * h, p + r);
  }

  lemma CrossDivide(a: real, b: real, c: real, d: real)
    requires b > 0.0 && d > 0.0 && a * d == c * b
    ensures a / b == c / d
  {
    assert (a / b) * b == a;
    assert (a / b) * d * b == c * b;
    assert (a / b) * d == c;
  }

  lemma Share(h: real, p: real, r: real)
    requires 0.0 < h <= p && h <= r
    ensures 0.0 <= 2.0 * h / (p + r) <= 1.0
    ensures 2.0 * h / (p + r) == 1.0 <==> h == p == r
  {
    var q := 2.0 * h / (p + r);
    assert q * (p + r) == 2.0 * h;
    if h == p == r {
      assert q * (2.0 * h) == 2.0 * h;
    }
  }

  /** F1 is twice the hits over everything predicted or relevant, zero without hits; it is
      a fraction, and 1 exactly when the cut-off separates the relevant from the rest. */
  lemma F1IsDice(scored: seq<Labelled>, threshold: real)
    ensures var predicted, relevant := Predicted(scored, threshold), Hits(scored);
            var hits := Hits(predicted);
            && (hits == 0 ==> F1(scored, threshold) == 0.0)
            && (hits > 0 ==> F1(scored, threshold) == 2.0 * hits as real / (|predicted| as real + relevant as real))
            && 0.0 <= F1(scored, threshold) <= 1.0
            && (F1(scored, threshold) == 1.0 <==> 0 < hits == |predicted| == relevant)
  {
    var predicted, relevant := Predicted(scored, threshold), Hits(scored);
    var hits := Hits(predicted);
    HitsAreBounded(scored, threshold);
    if hits > 0 {
      BalanceIsDice(hits as real, |predicted| as real, relevant as real);
      Share(hits as real, |predicted| as real, relevant as real);
    }
  }

  /** Found: relevant, and not below the cut-off. */
  predicate Found(x: Labelled, threshold: real) { x.relevance >= 2 && x.score >= threshold }

  lemma PredictedStep(scored: seq<Labelled>, threshold: real)
    requires scored != []
    ensures var rest, one := Predicted(scored[1..], threshold), if scored[0].score >= threshold then 1 else 0;
            && |Predicted(scored, threshold)| == one + |rest|
            && Hits(Predicted(scored, threshold)) == Hits(rest) + if Found(scored[0], threshold) then 1 else 0
  {
    if scored[0].score >= threshold {
      assert Predicted(scored, threshold)[1..] == Predicted(scored[1..], threshold);
    }
  }

  lemma {:induction false} NoneFoundIff(scored: seq<Labelled>, threshold: real)
    ensures Hits(Predicted(scored, threshold)) == 0 <==> forall x :: x in scored ==> !Found(x, threshold)
  {
    if scored != [] {
      NoneFoundIff(scored[1..], threshold);
      PredictedStep(scored, threshold);
      assert scored == [scored[0]] + scored[1..];
    }
  }

  lemma {:induction false} AllFoundIff(scored: seq<Labelled>, threshold: real)
    ensures Hits(Predicted(scored, threshold)) == Hits(scored)
            <==> forall x :: x in scored && x.relevance >= 2 ==> x.score >= threshold
  {
    if scored != [] {
      AllFoundIff(scored[1..], threshold);
      HitsAreBounded(scored[1..], threshold);
      PredictedStep(scored, threshold);
      assert scored == [scored[0]] + scored[1..];
    }
  }

  lemma {:induction false} OnlyRelevantIff(scored: seq<Labelled>, threshold: real)
    ensures Hits(Predicted(scored, threshold)) == |Predicted(scored, threshold)|
            <==> forall x :: x in scored && x.score >= threshold ==> x.relevance >= 2
  {
    if scored != [] {
      OnlyRelevantIff(scored[1..], threshold);
      HitsAreBounded(scored[1..], threshold);
      PredictedStep(scored, threshold);
      assert scored == [scored[0]] + scored[1..];
    }
  }

  /** F1 is 0 exactly when no relevant label reaches the cut-off, and 1 exactly when those that
      reach it are the relevant ones, of which there is one. */
  lemma F1ExtremesIff(scored: seq<Labelled>, threshold: real)
    ensures F1(scored, threshold) == 0.0 <==> forall x :: x in scored ==> !Found(x, threshold)
    ensures F1(scored, threshold) == 1.0 <==>
              && (exists x :: x in scored && Found(x, threshold))
              && (forall x :: x in scored ==> (x.score >= threshold <==> x.relevance >= 2))
  {
    NoneFoundIff(scored, threshold);
    AllFoundIff(scored, threshold);
    OnlyRelevantIff(scored, threshold);
    F1IsDice(scored, threshold);
    HitsAreBounded(scored, threshold);
    var predicted, relevant := Predicted(scored, threshold), Hits(scored);
    if Hits(predicted) > 0 {
      PositiveRatio(2.0 * Hits(predicted) as real, |predicted| as real + relevant as real);
    }
  }

  lemma PositiveRatio(x: real, y: real)
    requires x > 0.0 && y > 0.0
    ensures x / y > 0.0
  {}

  // ----- the search ------------------------------------------------------

  lemma WinnerIsHighestOfTheBest(scored: seq<Labelled>, steps: nat)
    ensures var best := Winner(scored, steps);
            && best.threshold in Grid(steps)
            && best.f1 == F1(scored, best.threshold)
            && forall t :: t in Grid(steps) ==>
                 && F1(scored, t) <= best.f1
                 && (F1(scored, t) == best.f1 ==> t <= best.threshold)
  {
    var grid := Grid(steps);
    var rated := Rate(scored, grid);
    HeadIsGreatest(rated, Outranks);
    forall t | t in grid
      ensures Outranks(Winner(scored, steps), Candidate(F1(scored, t), t))
    {
      var i :| 0 <= i < |grid| && grid[i] == t;
      assert rated[i] in rated;
    }
  }

  /** A grid point has two decimals already. */
  lemma GridPointsAreRound(steps: nat, t: real)
    requires t in Grid(steps)
    ensures Rounded(t, 100) == t
  {
    var i :| 0 <= i <= steps && Grid(steps)[i] == t;
    assert t * 100.0 == (30 + i) as real;
    assert HalfEven(t * 100.0) == 30 + i;
  }

  lemma RoundingIsClose(x: real)
    ensures -0.0005 <= Rounded(x, 1000) - x <= 0.0005
  {
    var y := x * 1000.0;
    assert -0.5 <= HalfEven(y) as real - y <= 0.5;
  }

  /** The fitted cut-off is a grid point; no grid point does better, and none that does as well
      lies higher. The score reported with it is its own to three decimals. */
  lemma BestThresholdIsHighestOfTheBest(scored: seq<Labelled>, steps: nat)
    ensures var fit := BestThreshold(scored, steps);
            && fit.threshold in Grid(steps)
            && -0.0005 <= fit.f1 - F1(scored, fit.threshold) <= 0.0005
            && forall t :: t in Grid(steps) ==>
                 && F1(scored, t) <= F1(scored, fit.threshold)
                 && (F1(scored, t) == F1(scored, fit.threshold) ==> t <= fit.threshold)
  {
    WinnerIsHighestOfTheBest(scored, steps);
    GridPointsAreRound(steps, Winner(scored, steps).threshold);
    RoundingIsClose(Winner(scored, steps).f1);
  }
}
