/** backend/app/modules/matching/scoring.py: from facet and chunk vectors to a similarity,
    a grade and a recommendation. Scores are exact reals. */
module Scoring {
  import opened Sorting
  import opened Clock
  import opened Wrappers

  type Vector = seq<real>

  datatype Facet = Facet(kind: string, title: string, vector: Vector)
  datatype Chunk = Chunk(kind: string, vector: Vector)
  datatype FacetScore = FacetScore(kind: string, title: string, score: real, chunk: string)
  datatype ScoreResult = ScoreResult(similarity: real, facets: seq<FacetScore>)
  datatype Scored = Success(value: ScoreResult) | DimensionMismatch

  datatype Thresholds = Thresholds(
    gradeS: real, gradeA: real, gradeB: real,
    maxWeight: real, meanWeight: real, topFacets: int, version: nat)

  const DEFAULT_THRESHOLDS := Thresholds(0.78, 0.70, 0.62, 0.6, 0.4, 3, 1)

  datatype Grade = S | A | B | C
  datatype Eligibility = Eligible | NeedsVerification | Ineligible
  datatype Recommendation = Bid | Hold | Skip
  datatype Urgency = Expired | Critical | High | Normal | Low | Undated

  const CRITICAL_DAYS := 3
  const HIGH_DAYS := 7
  const NORMAL_DAYS := 21

  // ----- specification ---------------------------------------------------

  function Dot(a: Vector, b: Vector): real
    requires |a| == |b|
  {
    if a == [] then 0.0 else a[0] * b[0] + Dot(a[1..], b[1..])
  }

  predicate Comparable(v: Vector, chunks: seq<Chunk>) {
    forall c :: c in chunks ==> |c.vector| == |v|
  }

  predicate AllComparable(facets: seq<Facet>, chunks: seq<Chunk>) {
    forall f :: f in facets ==> Comparable(f.vector, chunks)
  }

  datatype Best = Best(score: real, chunk: string)

  /** The best chunk for one vector; -1 and no chunk when none beats -1. */
  function BestChunk(v: Vector, chunks: seq<Chunk>): Best
    requires Comparable(v, chunks)
  {
    if chunks == [] then Best(-1.0, "")
    else
      var last := chunks[|chunks| - 1];
      var before := BestChunk(v, chunks[..|chunks| - 1]);
      var value := Dot(v, last.vector);
      if value > before.score then Best(value, last.kind) else before
  }

  function FacetScores(facets: seq<Facet>, chunks: seq<Chunk>): (r: seq<FacetScore>)
    requires AllComparable(facets, chunks)
    ensures |r| == |facets|
  {
    if facets == [] then []
    else
      var f := facets[0];
      var best := BestChunk(f.vector, chunks);
      [FacetScore(f.kind, f.title, best.score, best.chunk)] + FacetScores(facets[1..], chunks)
  }

  function Values(scored: seq<FacetScore>): (r: seq<real>)
    ensures |r| == |scored|
  {
    if scored == [] then [] else [scored[0].score] + Values(scored[1..])
  }

  function Sum(s: seq<real>): real {
    if s == [] then 0.0 else s[0] + Sum(s[1..])
  }

  function Mean(s: seq<real>): real
    requires s != []
  {
    Sum(s) / |s| as real
  }

  function Max(a: int, b: int): int { if a >= b then a else b }

  /** The highest `max(1, topFacets)` scores, best first. */
  function TopScores(scores: seq<real>, t: Thresholds): (r: seq<real>)
    requires scores != []
    ensures r != []
  {
    var ranked := Sort(scores, AtLeast);
    var n := Max(1, t.topFacets);
    if n <= |ranked| then ranked[..n] else ranked
  }

  function Weigh(best: real, mean: real, t: Thresholds): real { t.maxWeight * best + t.meanWeight * mean }

  function Blend(scores: seq<real>, t: Thresholds): real
    requires scores != []
  {
    Weigh(TopScores(scores, t)[0], Mean(TopScores(scores, t)), t)
  }

  function Clamp(x: real): (r: real)
    ensures -1.0 <= r <= 1.0
  {
    var low := if x < 1.0 then x else 1.0;
    if low > -1.0 then low else -1.0
  }

  function Scores(facets: seq<Facet>, chunks: seq<Chunk>): (r: seq<real>)
    requires AllComparable(facets, chunks)
    ensures |r| == |facets|
  {
    Values(FacetScores(facets, chunks))
  }

  function Similarity(facets: seq<Facet>, chunks: seq<Chunk>, t: Thresholds): real
    requires AllComparable(facets, chunks)
  {
    if facets == [] || chunks == [] then 0.0 else Clamp(Blend(Scores(facets, chunks), t))
  }

  function GradeFor(similarity: real, t: Thresholds): Grade {
    if similarity >= t.gradeS then S
    else if similarity >= t.gradeA then A
    else if similarity >= t.gradeB then B
    else C
  }

  function Matrix(grade: Grade, eligibility: Eligibility): Recommendation {
    match (grade, eligibility)
    case (S, Eligible) => Bid
    case (S, NeedsVerification) => Hold
    case (S, Ineligible) => Skip
    case (A, Eligible) => Bid
    case (A, NeedsVerification) => Hold
    case (A, Ineligible) => Skip
    case (B, Eligible) => Hold
    case (B, NeedsVerification) => Hold
    case (B, Ineligible) => Skip
    case (C, _) => Skip
  }

  function Recommend(grade: Grade, eligibility: Eligibility, urgency: Urgency): Recommendation {
    if urgency == Expired then Skip else Matrix(grade, eligibility)
  }

  function UrgencyFor(deadline: Option<int>, offset: int, now: int): Urgency {
    match deadline
    case None => Undated
    case Some(moment) =>
      if moment <= now then Expired
      else
        var days := LocalDate(moment, offset) - LocalDate(now, offset);
        if days <= CRITICAL_DAYS then Critical
        else if days <= HIGH_DAYS then High
        else if days <= NORMAL_DAYS then Normal
        else Low
  }

  // ----- the loops -------------------------------------------------------

  method ComputeDot(a: Vector, b: Vector) returns (equalLengths: bool, r: real)
    ensures equalLengths == (|a| == |b|)
    ensures equalLengths ==> r == Dot(a, b)
  {
    r := 0.0;
    equalLengths := |a| == |b|;
    if equalLengths {
      for i := 0 to |a|
        invariant r + Dot(a[i..], b[i..]) == Dot(a, b)
      {
        r := r + a[i] * b[i];
      }
    }
  }

  lemma ComparableAppend(a: seq<Facet>, b: seq<Facet>, chunks: seq<Chunk>)
    requires AllComparable(a, chunks) && AllComparable(b, chunks)
    ensures AllComparable(a + b, chunks)
  {
    forall f | f in a + b ensures Comparable(f.vector, chunks) {
      assert f in a || f in b;
    }
  }

  lemma {:induction false} FacetScoresAppend(a: seq<Facet>, b: seq<Facet>, chunks: seq<Chunk>)
    requires AllComparable(a, chunks) && AllComparable(b, chunks)
    ensures AllComparable(a + b, chunks)
    ensures FacetScores(a + b, chunks) == FacetScores(a, chunks) + FacetScores(b, chunks)
  {
    ComparableAppend(a, b, chunks);
    if a == [] {
      assert a + b == b;
    } else {
      assert forall f :: f in a[1..] ==> f in a;
      FacetScoresAppend(a[1..], b, chunks);
      assert (a + b)[1..] == a[1..] + b && (a + b)[0] == a[0];
    }
  }

  method FindBestChunk(v: Vector, chunks: seq<Chunk>) returns (ok: bool, best: Best)
    ensures ok == Comparable(v, chunks)
    ensures ok ==> best == BestChunk(v, chunks)
  {
    best := Best(-1.0, "");
    for j := 0 to |chunks|
      invariant Comparable(v, chunks[..j])
      invariant best == BestChunk(v, chunks[..j])
    {
      var equalLengths, value := ComputeDot(v, chunks[j].vector);
      if !equalLengths {
        return false, best;
      }
      assert chunks[..j + 1][..j] == chunks[..j];
      if value > best.score {
        best := Best(value, chunks[j].kind);
      }
    }
    assert chunks[..|chunks|] == chunks;
    ok := true;
  }

  method ScoreFacets(facets: seq<Facet>, chunks: seq<Chunk>, config: Thresholds) returns (r: Scored)
    ensures r.Success? <==> facets == [] || chunks == [] || AllComparable(facets, chunks)
    ensures r.Success? && (facets == [] || chunks == []) ==> r.value == ScoreResult(0.0, [])
    ensures r.Success? && facets != [] && chunks != [] ==>
              r.value == ScoreResult(Similarity(facets, chunks, config), FacetScores(facets, chunks))
  {
    if facets == [] || chunks == [] {
      return Success(ScoreResult(0.0, []));
    }
    var scored: seq<FacetScore> := [];
    for i := 0 to |facets|
      invariant AllComparable(facets[..i], chunks)
      invariant scored == FacetScores(facets[..i], chunks)
    {
      var facet := facets[i];
      var ok, best := FindBestChunk(facet.vector, chunks);
      if !ok {
        return DimensionMismatch;
      }
      FacetScoresAppend(facets[..i], [facet], chunks);
      assert facets[..i + 1] == facets[..i] + [facet];
      scored := scored + [FacetScore(facet.kind, facet.title, best.score, best.chunk)];
    }
    assert facets[..|facets|] == facets;
    r := Success(ScoreResult(Clamp(Blend(Values(scored), config)), scored));
  }

  // ----- one facet against its chunks ------------------------------------

  /** The chosen chunk is the first of the best, and no chunk is named exactly when none
      of them beats -1. */
  lemma {:induction false} BestChunkIsFirstBest(v: Vector, chunks: seq<Chunk>)
    requires Comparable(v, chunks)
    ensures var best := BestChunk(v, chunks);
            && best.score >= -1.0
            && (forall c :: c in chunks ==> Dot(v, c.vector) <= best.score)
            && (best.score == -1.0 ==> best.chunk == "")
            && (best.score > -1.0 ==>
                  exists i :: && 0 <= i < |chunks|
                              && Dot(v, chunks[i].vector) == best.score
                              && chunks[i].kind == best.chunk
                              && forall j :: 0 <= j < i ==> Dot(v, chunks[j].vector) < best.score)
  {
    if chunks != [] {
      var n := |chunks| - 1;
      BestChunkIsFirstBest(v, chunks[..n]);
      var before := BestChunk(v, chunks[..n]);
      assert chunks == chunks[..n] + [chunks[n]];
      if Dot(v, chunks[n].vector) > before.score {
        forall j | 0 <= j < n ensures Dot(v, chunks[j].vector) < BestChunk(v, chunks).score {
          assert chunks[j] in chunks[..n];
        }
      } else if before.score > -1.0 {
        var i :| && 0 <= i < n
                 && Dot(v, chunks[..n][i].vector) == before.score
                 && chunks[..n][i].kind == before.chunk
                 && forall j :: 0 <= j < i ==> Dot(v, chunks[..n][j].vector) < before.score;
        forall j | 0 <= j < i ensures Dot(v, chunks[j].vector) < before.score {
          assert chunks[..n][j] == chunks[j];
        }
        assert chunks[i] == chunks[..n][i];
      }
    }
  }

  /** More chunks to choose from, in any order, never give a facet a worse best score. */
  lemma MoreChunksScoreNoWorse(v: Vector, few: seq<Chunk>, many: seq<Chunk>)
    requires Comparable(v, many) && forall c :: c in few ==> c in many
    ensures Comparable(v, few) && BestChunk(v, few).score <= BestChunk(v, many).score
  {
    BestChunkIsFirstBest(v, few);
    BestChunkIsFirstBest(v, many);
  }

  lemma {:induction false} DotOfDifference(a: Vector, b: Vector, sign: real)
    requires |a| == |b| && (sign == 1.0 || sign == -1.0)
    ensures Dot(a, a) + Dot(b, b) + 2.0 * sign * Dot(a, b) >= 0.0
  {
    if a != [] {
      DotOfDifference(a[1..], b[1..], sign);
      Square(a[0] + sign * b[0]);
      assert (a[0] + sign * b[0]) * (a[0] + sign * b[0])
          == a[0] * a[0] + b[0] * b[0] + 2.0 * sign * (a[0] * b[0]);
    }
  }

  lemma Square(x: real)
    ensures x * x >= 0.0
  {}

  /** The dot product of two unit vectors lies in [-1, 1], so calling it a cosine is fair. */
  lemma CosineOfUnitVectors(a: Vector, b: Vector)
    requires |a| == |b| && Dot(a, a) == 1.0 && Dot(b, b) == 1.0
    ensures -1.0 <= Dot(a, b) <= 1.0
  {
    DotOfDifference(a, b, 1.0);
    DotOfDifference(a, b, -1.0);
  }
}
