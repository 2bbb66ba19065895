/** What the similarity promises: it ignores order, rises with its inputs, and stays
    between the mean of the top facets and the best one. */
module ScoringLaws {
  import opened Sorting
  import opened Clock
  import opened Wrappers
  import opened Scoring

  // ----- sums and means --------------------------------------------------

  lemma {:induction false} SumIsMonotone(a: seq<real>, b: seq<real>)
    requires |a| == |b| && Below(a, b)
    ensures Sum(a) <= Sum(b)
  {
    if a != [] {
      SumIsMonotone(a[1..], b[1..]);
    }
  }

  lemma {:induction false} SumIsBounded(a: seq<real>, low: real, high: real)
    requires forall i :: 0 <= i < |a| ==> low <= a[i] <= high
    ensures low * |a| as real <= Sum(a) <= high * |a| as real
  {
    if a != [] {
      SumIsBounded(a[1..], low, high);
      OneMore(low, |a| - 1);
      OneMore(high, |a| - 1);
    }
  }

  lemma OneMore(x: real, n: nat)
    ensures x * (n + 1) as real == x * n as real + x
  {
    assert (n + 1) as real == n as real + 1.0;
  }

  lemma MeanIsBounded(a: seq<real>, low: real, high: real)
    requires a != [] && forall i :: 0 <= i < |a| ==> low <= a[i] <= high
    ensures low <= Mean(a) <= high
  {
    SumIsBounded(a, low, high);
    DivideBounds(Sum(a), low, high, |a| as real);
  }

  lemma DivideBounds(x: real, low: real, high: real, n: real)
    requires n > 0.0 && low * n <= x <= high * n
    ensures low <= x / n <= high
  {}

  lemma {:induction false} SumOfInsert(x: real, a: seq<real>)
    ensures Sum(Insert(x, a, AtLeast)) == x + Sum(a)
  {
    if a != [] && x < a[0] {
      SumOfInsert(x, a[1..]);
    }
  }

  lemma {:induction false} SumOfSort(a: seq<real>)
    ensures Sum(Sort(a, AtLeast)) == Sum(a)
  {
    if a != [] {
      SumOfSort(a[1..]);
      SumOfInsert(a[0], Sort(a[1..], AtLeast));
    }
  }

  lemma Divide(x: real, y: real, n: real)
    requires n > 0.0
    ensures x <= y ==> x / n <= y / n
    ensures x < y <==> x / n < y / n
  {}

  lemma ScaleBy(x: real, y: real, w: real)
    requires x <= y && w >= 0.0
    ensures w * x <= w * y
    ensures x < y && w > 0.0 ==> w * x < w * y
  {}

  lemma MeanIsMonotone(a: seq<real>, b: seq<real>)
    requires a != [] && |a| == |b| && Below(a, b)
    ensures Mean(a) <= Mean(b)
  {
    SumIsMonotone(a, b);
    Divide(Sum(a), Sum(b), |a| as real);
  }

  lemma MeanIsAtMostHead(a: seq<real>)
    requires a != [] && Descending(a, AtLeast)
    ensures Mean(a) <= a[0]
  {
    var last := a[|a| - 1];
    forall i | 0 <= i < |a| ensures last <= a[i] <= a[0] {
      assert i > 0 ==> AtLeast(a[0], a[i]);
      assert i < |a| - 1 ==> AtLeast(a[i], last);
    }
    MeanIsBounded(a, last, a[0]);
  }

  // ----- blending --------------------------------------------------------

  lemma TopIsDescending(scores: seq<real>, t: Thresholds)
    requires scores != []
    ensures Descending(TopScores(scores, t), AtLeast)
    ensures TopScores(scores, t)[0] == Sort(scores, AtLeast)[0]
  {
    SortIsDescending(scores, AtLeast);
  }

  predicate NonNegativeWeights(t: Thresholds) {
    t.maxWeight >= 0.0 && t.meanWeight >= 0.0
  }

  lemma BlendFollowsTop(a: seq<real>, b: seq<real>, t: Thresholds)
    requires NonNegativeWeights(t) && a != [] && b != []
    requires TopScores(a, t)[0] <= TopScores(b, t)[0]
    requires Mean(TopScores(a, t)) <= Mean(TopScores(b, t))
    ensures Blend(a, t) <= Blend(b, t)
  {
    WeighingIsMonotone(TopScores(a, t)[0], TopScores(b, t)[0], Mean(TopScores(a, t)), Mean(TopScores(b, t)), t);
  }

  lemma WeighingIsMonotone(best: real, best': real, mean: real, mean': real, t: Thresholds)
    requires NonNegativeWeights(t) && best <= best' && mean <= mean'
    ensures Weigh(best, mean, t) <= Weigh(best', mean', t)
  {
    ScaleBy(best, best', t.maxWeight);
    ScaleBy(mean, mean', t.meanWeight);
  }

  lemma BlendIsMonotone(a: seq<real>, b: seq<real>, t: Thresholds)
    requires NonNegativeWeights(t) && a != [] && |a| == |b| && Below(a, b)
    ensures Blend(a, t) <= Blend(b, t)
  {
    SortIsMonotone(a, b);
    MeanIsMonotone(TopScores(a, t), TopScores(b, t));
    BlendFollowsTop(a, b, t);
  }

  // ----- order does not matter -------------------------------------------

  lemma ValuesCons(scored: seq<FacetScore>)
    requires scored != []
    ensures Values(scored) == [scored[0].score] + Values(scored[1..])
  {}

  lemma {:induction false} ValuesAppend(a: seq<FacetScore>, b: seq<FacetScore>)
    ensures Values(a + b) == Values(a) + Values(b)
  {
    if a == [] {
      assert a + b == b;
    } else {
      ValuesAppend(a[1..], b);
      ValuesCons(a);
      ValuesCons(a + b);
      assert (a + b)[1..] == a[1..] + b && (a + b)[0] == a[0];
    }
  }

  lemma ScoresAppend(a: seq<Facet>, b: seq<Facet>, chunks: seq<Chunk>)
    requires AllComparable(a, chunks) && AllComparable(b, chunks)
    ensures AllComparable(a + b, chunks)
    ensures Scores(a + b, chunks) == Scores(a, chunks) + Scores(b, chunks)
  {
    FacetScoresAppend(a, b, chunks);
    ValuesAppend(FacetScores(a, chunks), FacetScores(b, chunks));
  }

  lemma {:induction false} ScoreAt(facets: seq<Facet>, chunks: seq<Chunk>, i: nat)
    requires i < |facets| && AllComparable(facets, chunks)
    ensures Scores(facets, chunks)[i] == BestChunk(facets[i].vector, chunks).score
  {
    if i > 0 {
      ScoreAt(facets[1..], chunks, i - 1);
    }
  }

  lemma RemoveAt<T>(s: seq<T>, j: nat)
    requires j < |s|
    ensures multiset(s) == multiset(s[..j] + s[j + 1..]) + multiset{s[j]}
  {
    assert s == s[..j] + [s[j]] + s[j + 1..];
  }

  lemma ScoresOfRest(facets: seq<Facet>, chunks: seq<Chunk>, j: nat)
    requires j < |facets| && AllComparable(facets, chunks)
    ensures AllComparable(facets[..j] + facets[j + 1..], chunks)
    ensures var scores := Scores(facets, chunks);
            Scores(facets[..j] + facets[j + 1..], chunks) == scores[..j] + scores[j + 1..]
  {
    var left, right := facets[..j], facets[j + 1..];
    ScoresAppend(left, right, chunks);
    ScoresAppend([facets[j]], right, chunks);
    ScoresAppend(left, [facets[j]] + right, chunks);
    assert facets == left + ([facets[j]] + right);
  }

  lemma {:induction false} ScoresOfPermutation(a: seq<Facet>, b: seq<Facet>, chunks: seq<Chunk>)
    requires multiset(a) == multiset(b) && AllComparable(a, chunks) && AllComparable(b, chunks)
    ensures multiset(Scores(a, chunks)) == multiset(Scores(b, chunks))
  {
    if a == [] {
      assert |multiset(b)| == 0;
    } else {
      assert a[0] in multiset(b);
      var j :| 0 <= j < |b| && b[j] == a[0];
      DropHead(a);
      RemoveAt(b, j);
      ScoresOfRest(b, chunks, j);
      ScoresOfPermutation(a[1..], b[..j] + b[j + 1..], chunks);
      OneScoreMore(a, b, j, chunks);
    }
  }

  lemma OneScoreMore(a: seq<Facet>, b: seq<Facet>, j: nat, chunks: seq<Chunk>)
    requires AllComparable(a, chunks) && AllComparable(b, chunks) && a != [] && j < |b| && b[j] == a[0]
    requires var scores := Scores(b, chunks);
             multiset(Scores(a[1..], chunks)) == multiset(scores[..j] + scores[j + 1..])
    ensures multiset(Scores(a, chunks)) == multiset(Scores(b, chunks))
  {
    RemoveAt(Scores(b, chunks), j);
    DropHead(Scores(a, chunks));
    ScoreAt(b, chunks, j);
    ScoreAt(a, chunks, 0);
    assert Scores(a, chunks)[1..] == Scores(a[1..], chunks);
  }

  lemma ComparablePermutation(a: seq<Facet>, b: seq<Facet>, chunks: seq<Chunk>)
    requires multiset(a) == multiset(b) && AllComparable(a, chunks)
    ensures AllComparable(b, chunks) && |a| == |b|
  {
    forall f | f in b ensures Comparable(f.vector, chunks) {
      assert f in multiset(a);
    }
    assert |a| == |multiset(a)| == |multiset(b)| == |b|;
  }

  lemma BlendForgetsOrder(a: seq<real>, b: seq<real>, t: Thresholds)
    requires multiset(a) == multiset(b) && a != [] && b != []
    ensures Blend(a, t) == Blend(b, t)
  {
    SortForgetsOrder(a, b, AtLeast);
    assert TopScores(a, t) == TopScores(b, t);
  }

  lemma SimilarityIgnoresFacetOrder(a: seq<Facet>, b: seq<Facet>, chunks: seq<Chunk>, t: Thresholds)
    requires multiset(a) == multiset(b) && AllComparable(a, chunks)
    ensures AllComparable(b, chunks) && Similarity(a, chunks, t) == Similarity(b, chunks, t)
  {
    ComparablePermutation(a, b, chunks);
    ScoresOfPermutation(a, b, chunks);
    if a != [] && chunks != [] {
      BlendForgetsOrder(Scores(a, chunks), Scores(b, chunks), t);
    }
  }

  // ----- better inputs, no worse verdict ---------------------------------

  function GradeRank(g: Grade): int { match g case S => 3 case A => 2 case B => 1 case C => 0 }
  function RecommendationRank(r: Recommendation): int { match r case Bid => 2 case Hold => 1 case Skip => 0 }
  function EligibilityRank(e: Eligibility): int {
    match e case Eligible => 2 case NeedsVerification => 1 case Ineligible => 0
  }

  /** The matrix rewards a better grade and a better eligibility. */
  lemma RecommendIsMonotone(g: Grade, g': Grade, e: Eligibility, e': Eligibility, u: Urgency)
    requires GradeRank(g) <= GradeRank(g') && EligibilityRank(e) <= EligibilityRank(e')
    ensures RecommendationRank(Recommend(g, e, u)) <= RecommendationRank(Recommend(g', e', u))
  {}

  /** Every facet's best score rising or standing still leaves similarity, grade and
      recommendation no worse, whatever the cut-offs. */
  lemma DominanceSurvives(
    facets: seq<Facet>, chunks: seq<Chunk>, facets': seq<Facet>, chunks': seq<Chunk>,
    t: Thresholds, e: Eligibility, u: Urgency)
    requires NonNegativeWeights(t) && facets != [] && chunks != [] && chunks' != []
    requires AllComparable(facets, chunks) && AllComparable(facets', chunks')
    requires |facets| == |facets'|
    requires forall i :: 0 <= i < |facets| ==>
               BestChunk(facets[i].vector, chunks).score <= BestChunk(facets'[i].vector, chunks').score
    ensures var old_, new_ := Similarity(facets, chunks, t), Similarity(facets', chunks', t);
            && old_ <= new_
            && GradeRank(GradeFor(old_, t)) <= GradeRank(GradeFor(new_, t))
            && RecommendationRank(Recommend(GradeFor(old_, t), e, u))
               <= RecommendationRank(Recommend(GradeFor(new_, t), e, u))
  {
    var a, b := Scores(facets, chunks), Scores(facets', chunks');
    forall i | 0 <= i < |a| ensures a[i] <= b[i] {
      ScoreAt(facets, chunks, i);
      ScoreAt(facets', chunks', i);
    }
    BlendIsMonotone(a, b, t);
    var g, g' := GradeFor(Similarity(facets, chunks, t), t), GradeFor(Similarity(facets', chunks', t), t);
    RecommendIsMonotone(g, g', e, e, u);
  }

  /** More chunks, or the same ones reordered, never lower a similarity that had any. */
  lemma AddingChunksNeverLowers(facets: seq<Facet>, few: seq<Chunk>, many: seq<Chunk>, t: Thresholds)
    requires NonNegativeWeights(t) && few != [] && AllComparable(facets, many)
    requires forall c :: c in few ==> c in many
    ensures AllComparable(facets, few) && Similarity(facets, few, t) <= Similarity(facets, many, t)
  {
    assert few[0] in many;
    forall i | 0 <= i < |facets|
      ensures Comparable(facets[i].vector, few)
      ensures BestChunk(facets[i].vector, few).score <= BestChunk(facets[i].vector, many).score
    {
      MoreChunksScoreNoWorse(facets[i].vector, few, many);
    }
    if facets != [] {
      DominanceSurvives(facets, few, facets, many, t, Eligible, Undated);
    }
  }

  lemma SimilarityIgnoresChunkOrder(facets: seq<Facet>, a: seq<Chunk>, b: seq<Chunk>, t: Thresholds)
    requires multiset(a) == multiset(b) && AllComparable(facets, a)
    ensures AllComparable(facets, b) && Similarity(facets, a, t) == Similarity(facets, b, t)
  {
    forall c | c in b ensures c in a { assert c in multiset(a); }
    forall c | c in a ensures c in b { assert c in multiset(b); }
    assert |a| == |multiset(a)| == |multiset(b)| == |b|;
    forall i | 0 <= i < |facets| ensures Scores(facets, a)[i] == Scores(facets, b)[i] {
      MoreChunksScoreNoWorse(facets[i].vector, a, b);
      MoreChunksScoreNoWorse(facets[i].vector, b, a);
      ScoreAt(facets, a, i);
      ScoreAt(facets, b, i);
    }
    assert Scores(facets, a) == Scores(facets, b);
  }

  /** Nothing to compare scores 0, on either side; the first chunk, or the first facet, takes the
      similarity below that exactly when the weighted best and mean come out negative. */
  lemma FirstChunkLowersIff(facets: seq<Facet>, chunks: seq<Chunk>, t: Thresholds)
    requires facets != [] && chunks != [] && AllComparable(facets, chunks)
    ensures Similarity(facets, [], t) == 0.0 == Similarity([], chunks, t)
    ensures var top := TopScores(Scores(facets, chunks), t);
            Similarity(facets, chunks, t) < 0.0 <==> Weigh(top[0], Mean(top), t) < 0.0
  {}

  lemma WeighingKeepsSign(best: real, mean: real, t: Thresholds)
    requires NonNegativeWeights(t)
    ensures best >= 0.0 && mean >= 0.0 ==> Weigh(best, mean, t) >= 0.0
    ensures best < 0.0 && mean < 0.0 && t.maxWeight + t.meanWeight > 0.0 ==> Weigh(best, mean, t) < 0.0
  {
    if best >= 0.0 && mean >= 0.0 {
      ScaleBy(0.0, best, t.maxWeight);
      ScaleBy(0.0, mean, t.meanWeight);
    }
    if best < 0.0 && mean < 0.0 {
      ScaleBy(best, 0.0, t.maxWeight);
      ScaleBy(mean, 0.0, t.meanWeight);
    }
  }

  /** Facets that each find a chunk on their side never score below the 0 of having none; facets
      that all find every chunk on the other side always do. */
  lemma SignOfCosinesDecides(facets: seq<Facet>, chunks: seq<Chunk>, t: Thresholds)
    requires NonNegativeWeights(t) && facets != [] && chunks != [] && AllComparable(facets, chunks)
    ensures (forall f :: f in facets ==> BestChunk(f.vector, chunks).score >= 0.0) ==>
              Similarity(facets, chunks, t) >= Similarity(facets, [], t)
    ensures (forall f :: f in facets ==> BestChunk(f.vector, chunks).score < 0.0) ==>
              t.maxWeight + t.meanWeight > 0.0 ==> Similarity(facets, chunks, t) < Similarity(facets, [], t)
  {
    var top := TopScores(Scores(facets, chunks), t);
    TopIsDescending(Scores(facets, chunks), t);
    MeanIsAtMostHead(top);
    BestOfSome(facets, chunks, t, 0);
    if forall f :: f in facets ==> BestChunk(f.vector, chunks).score >= 0.0 {
      forall i | 0 <= i < |top| ensures 0.0 <= top[i] <= top[0] {
        BestOfSome(facets, chunks, t, i);
        assert i > 0 ==> AtLeast(top[0], top[i]);
      }
      MeanIsBounded(top, 0.0, top[0]);
    }
    WeighingKeepsSign(top[0], Mean(top), t);
    FirstChunkLowersIff(facets, chunks, t);
  }

  /** Every top score is the best score of some facet. */
  lemma BestOfSome(facets: seq<Facet>, chunks: seq<Chunk>, t: Thresholds, i: nat)
    requires facets != [] && AllComparable(facets, chunks) && i < |TopScores(Scores(facets, chunks), t)|
    ensures exists f :: f in facets && BestChunk(f.vector, chunks).score == TopScores(Scores(facets, chunks), t)[i]
  {
    var scores := Scores(facets, chunks);
    var ranked := Sort(scores, AtLeast);
    SortKeepsElements(scores, AtLeast);
    assert ranked[i] in multiset(ranked);
    assert ranked[i] in multiset(scores);
    var j :| 0 <= j < |scores| && scores[j] == ranked[i];
    ScoreAt(facets, chunks, j);
    assert facets[j] in facets;
  }

  /** One facet, and what its only score makes of it. */
  lemma OneScore(f: Facet, c: Chunk, score: real, t: Thresholds)
    requires |f.vector| == |c.vector| && Dot(f.vector, c.vector) == score > -1.0
    ensures AllComparable([f], [c]) && Scores([f], [c]) == [score]
    ensures TopScores([score], t) == [score] && Mean([score]) == score
  {
    var chunks := [c];
    assert chunks[..0] == [];
    assert BestChunk(f.vector, chunks).score == score;
    ScoreAt([f], chunks, 0);
    assert Sort([score], AtLeast) == [score];
    assert Sum([score][1..]) == 0.0;
  }

  lemma DotInPlane(a: real, b: real, c: real, d: real)
    ensures Dot([a, b], [c, d]) == a * c + b * d
  {
    assert [a, b][1..] == [b] && [c, d][1..] == [d];
    assert Dot([b], [d]) == b * d by { assert Dot([b][1..], [d][1..]) == 0.0; }
  }

  /** A first chunk that points away from the one facet. */
  lemma FirstChunkMayLower()
    ensures var facets, chunks := [Facet("service", "roads", [1.0, 0.0])], [Chunk("title_summary", [-0.6, 0.8])];
            && AllComparable(facets, chunks)
            && Similarity(facets, chunks, DEFAULT_THRESHOLDS) < Similarity(facets, [], DEFAULT_THRESHOLDS)
  {
    var f, c := Facet("service", "roads", [1.0, 0.0]), Chunk("title_summary", [-0.6, 0.8]);
    DotInPlane(1.0, 0.0, -0.6, 0.8);
    OneScore(f, c, -0.6, DEFAULT_THRESHOLDS);
    FirstChunkLowersIff([f], [c], DEFAULT_THRESHOLDS);
  }

  lemma TopOfAll(scores: seq<real>, t: Thresholds)
    requires scores != [] && |scores| <= Max(1, t.topFacets)
    ensures TopScores(scores, t) == Sort(scores, AtLeast)
    ensures Mean(TopScores(scores, t)) == Mean(scores) <= TopScores(scores, t)[0]
  {
    SumOfSort(scores);
    TopIsDescending(scores, t);
    MeanIsAtMostHead(TopScores(scores, t));
  }

  /** The best score and the mean after one more score, while all scores still count. */
  lemma OneMoreBelowTop(x: real, scores: seq<real>, t: Thresholds)
    requires scores != [] && |scores| < Max(1, t.topFacets)
    ensures var before, after := TopScores(scores, t), TopScores([x] + scores, t);
            && Mean(before) == Mean(scores) <= before[0]
            && Mean(after) == Mean([x] + scores)
            && after[0] == if x >= before[0] then x else before[0]
  {
    TopOfAll(scores, t);
    TopOfAll([x] + scores, t);
    assert ([x] + scores)[1..] == scores;
    var ranked := Sort(scores, AtLeast);
    assert Insert(x, ranked, AtLeast)[0] == if x >= ranked[0] then x else ranked[0];
  }

  lemma OneMoreAboveTop(x: real, scores: seq<real>, t: Thresholds)
    requires NonNegativeWeights(t) && scores != [] && |scores| >= Max(1, t.topFacets)
    ensures Blend([x] + scores, t) >= Blend(scores, t)
  {
    assert ([x] + scores)[1..] == scores;
    SortIsDescending(scores, AtLeast);
    InsertRaisesRanks(x, Sort(scores, AtLeast));
    MeanIsMonotone(TopScores(scores, t), TopScores([x] + scores, t));
    BlendFollowsTop(scores, [x] + scores, t);
  }

  lemma RatioWithOneMore(sum: real, x: real, n: real)
    requires n > 0.0
    ensures (sum + x) / (n + 1.0) < sum / n <==> x < sum / n
  {
    var mean := sum / n;
    assert mean * n == sum;
    assert (sum + mean) == mean * (n + 1.0);
    Divide(sum + x, sum + mean, n + 1.0);
    assert (mean * (n + 1.0)) / (n + 1.0) == mean;
  }

  lemma MeanWithOneMore(x: real, scores: seq<real>)
    requires scores != []
    ensures Mean([x] + scores) < Mean(scores) <==> x < Mean(scores)
  {
    assert ([x] + scores)[1..] == scores;
    RatioWithOneMore(Sum(scores), x, |scores| as real);
  }

  /** Exactly when one more score drags the blend down: there were fewer scores than the mean
      looks at, the mean counts, and the newcomer lies below it. */
  lemma OneMoreScoreLowersIff(x: real, scores: seq<real>, t: Thresholds)
    requires NonNegativeWeights(t) && scores != []
    ensures Blend([x] + scores, t) < Blend(scores, t) <==>
              |scores| < Max(1, t.topFacets) && t.meanWeight > 0.0 && x < Mean(scores)
  {
    if |scores| >= Max(1, t.topFacets) {
      OneMoreAboveTop(x, scores, t);
    } else {
      var before, after := TopScores(scores, t), TopScores([x] + scores, t);
      OneMoreBelowTop(x, scores, t);
      MeanWithOneMore(x, scores);
      if x < Mean(scores) {
        ScaleBy(Mean(after), Mean(before), t.meanWeight);
      } else {
        BlendFollowsTop(scores, [x] + scores, t);
      }
    }
  }

  lemma ScoresWithOneMore(f: Facet, facets: seq<Facet>, chunks: seq<Chunk>)
    requires AllComparable([f] + facets, chunks)
    ensures AllComparable(facets, chunks) && Comparable(f.vector, chunks)
    ensures Scores([f] + facets, chunks) == [BestChunk(f.vector, chunks).score] + Scores(facets, chunks)
  {
    assert f in [f] + facets;
    forall g | g in facets ensures Comparable(g.vector, chunks) {
      assert g in [f] + facets;
    }
    assert ([f] + facets)[1..] == facets;
  }

  /** One more facet lowers the similarity exactly when there were fewer facets than the mean looks
      at, the mean counts, the newcomer scores below it, and the clamp does not hide the fall. */
  lemma AddingFacetLowersIff(f: Facet, facets: seq<Facet>, chunks: seq<Chunk>, t: Thresholds)
    requires NonNegativeWeights(t) && facets != [] && chunks != [] && AllComparable([f] + facets, chunks)
    ensures AllComparable(facets, chunks) && Comparable(f.vector, chunks)
    ensures var scores, x := Scores(facets, chunks), BestChunk(f.vector, chunks).score;
            Similarity([f] + facets, chunks, t) < Similarity(facets, chunks, t)
            <==> (|facets| < Max(1, t.topFacets) && t.meanWeight > 0.0 && x < Mean(scores)
                  && Blend([x] + scores, t) < 1.0 && Blend(scores, t) > -1.0)
  {
    ScoresWithOneMore(f, facets, chunks);
    OneMoreScoreLowersIff(BestChunk(f.vector, chunks).score, Scores(facets, chunks), t);
  }

  predicate IsUnit(v: Vector) { Dot(v, v) == 1.0 }

  predicate UnitVectors(facets: seq<Facet>, chunks: seq<Chunk>) {
    (forall f :: f in facets ==> IsUnit(f.vector)) && (forall c :: c in chunks ==> IsUnit(c.vector))
  }

  /** Between unit vectors every best score is a cosine. */
  lemma UnitScores(facets: seq<Facet>, chunks: seq<Chunk>)
    requires AllComparable(facets, chunks) && UnitVectors(facets, chunks)
    ensures forall i :: 0 <= i < |facets| ==> -1.0 <= Scores(facets, chunks)[i] <= 1.0
  {
    forall i | 0 <= i < |facets| ensures -1.0 <= Scores(facets, chunks)[i] <= 1.0 {
      var v := facets[i].vector;
      ScoreAt(facets, chunks, i);
      BestChunkIsFirstBest(v, chunks);
      if BestChunk(v, chunks).score > -1.0 {
        var j :| 0 <= j < |chunks| && Dot(v, chunks[j].vector) == BestChunk(v, chunks).score;
        CosineOfUnitVectors(v, chunks[j].vector);
      }
    }
  }

  lemma TopComesFromScores(scores: seq<real>, t: Thresholds, low: real, high: real)
    requires scores != [] && forall i :: 0 <= i < |scores| ==> low <= scores[i] <= high
    ensures low <= Mean(TopScores(scores, t)) && TopScores(scores, t)[0] <= high
  {
    var ranked, top := Sort(scores, AtLeast), TopScores(scores, t);
    SortKeepsElements(scores, AtLeast);
    forall i | 0 <= i < |ranked| ensures low <= ranked[i] <= high {
      assert ranked[i] in multiset(ranked);
      assert ranked[i] in multiset(scores);
    }
    MeanIsBounded(top, low, high);
  }

  /** Stored vectors are of unit length and the weights sum to 1: then the clamp is idle. */
  lemma ClampIsIdle(facets: seq<Facet>, chunks: seq<Chunk>, t: Thresholds)
    requires NonNegativeWeights(t) && t.maxWeight + t.meanWeight == 1.0 && facets != []
    requires AllComparable(facets, chunks) && UnitVectors(facets, chunks)
    ensures -1.0 <= Blend(Scores(facets, chunks), t) <= 1.0
  {
    UnitScores(facets, chunks);
    TopComesFromScores(Scores(facets, chunks), t, -1.0, 1.0);
    BlendIsBetween(Scores(facets, chunks), t);
  }

  /** So for unit vectors and weights summing to 1 the first three conditions decide. */
  lemma AddingUnitFacetLowersIff(f: Facet, facets: seq<Facet>, chunks: seq<Chunk>, t: Thresholds)
    requires NonNegativeWeights(t) && t.maxWeight + t.meanWeight == 1.0
    requires facets != [] && chunks != [] && AllComparable([f] + facets, chunks) && UnitVectors([f] + facets, chunks)
    ensures AllComparable(facets, chunks) && Comparable(f.vector, chunks)
    ensures Similarity([f] + facets, chunks, t) < Similarity(facets, chunks, t)
            <==> (|facets| < Max(1, t.topFacets) && t.meanWeight > 0.0
                  && BestChunk(f.vector, chunks).score < Mean(Scores(facets, chunks)))
  {
    ScoresWithOneMore(f, facets, chunks);
    assert forall g :: g in facets ==> g in [f] + facets;
    ClampIsIdle([f] + facets, chunks, t);
    ClampIsIdle(facets, chunks, t);
    OneMoreScoreLowersIff(BestChunk(f.vector, chunks).score, Scores(facets, chunks), t);
  }

  /** A second facet at right angles to the notice drags a perfect first one down. */
  lemma SecondFacetMayLower()
    ensures var first, second := Facet("service", "roads", [1.0, 0.0]), Facet("service", "bridges", [0.0, 1.0]);
            var chunks := [Chunk("title_summary", [1.0, 0.0])];
            && AllComparable([second] + [first], chunks) && AllComparable([first], chunks)
            && UnitVectors([second] + [first], chunks)
            && Similarity([second] + [first], chunks, DEFAULT_THRESHOLDS) < Similarity([first], chunks,
                DEFAULT_THRESHOLDS)
  {
    var first, second := Facet("service", "roads", [1.0, 0.0]), Facet("service", "bridges", [0.0, 1.0]);
    var c := Chunk("title_summary", [1.0, 0.0]);
    DotInPlane(1.0, 0.0, 1.0, 0.0);
    DotInPlane(0.0, 1.0, 1.0, 0.0);
    DotInPlane(0.0, 1.0, 0.0, 1.0);
    OneScore(first, c, 1.0, DEFAULT_THRESHOLDS);
    OneScore(second, c, 0.0, DEFAULT_THRESHOLDS);
    ScoreAt([second], [c], 0);
    AddingUnitFacetLowersIff(second, [first], [c], DEFAULT_THRESHOLDS);
  }

  /** So from `max(1, topFacets)` facets on, adding one never lowers the similarity. */
  lemma AddingFacetNeverLowers(f: Facet, facets: seq<Facet>, chunks: seq<Chunk>, t: Thresholds)
    requires NonNegativeWeights(t) && chunks != [] && AllComparable([f] + facets, chunks)
    requires |facets| >= Max(1, t.topFacets)
    ensures AllComparable(facets, chunks)
    ensures Similarity(facets, chunks, t) <= Similarity([f] + facets, chunks, t)
  {
    AddingFacetLowersIff(f, facets, chunks, t);
  }

  lemma Between(low: real, high: real, w: real, v: real)
    requires low <= high && w >= 0.0 && v >= 0.0 && w + v == 1.0
    ensures low <= w * high + v * low <= high
  {
    var gap := high - low;
    Nonnegative(w, gap);
    Nonnegative(v, gap);
    Distribute(w, low, gap);
    Distribute(v, low, gap);
    Collect(w, v, low);
    Collect(w, v, high);
  }

  lemma Nonnegative(x: real, y: real)
    requires x >= 0.0 && y >= 0.0
    ensures x * y >= 0.0
  {}

  lemma Distribute(w: real, low: real, gap: real)
    ensures w * (low + gap) == w * low + w * gap
  {}

  lemma Collect(w: real, v: real, x: real)
    requires w + v == 1.0
    ensures w * x + v * x == x
  {
    assert w * x + v * x == (w + v) * x;
  }

  /** No facet scores below -1. */
  lemma TopIsAboveMinusOne(facets: seq<Facet>, chunks: seq<Chunk>, t: Thresholds)
    requires facets != [] && AllComparable(facets, chunks)
    ensures forall i :: 0 <= i < |TopScores(Scores(facets, chunks), t)| ==>
              -1.0 <= TopScores(Scores(facets, chunks), t)[i]
  {
    var scores := Scores(facets, chunks);
    var ranked := Sort(scores, AtLeast);
    SortKeepsElements(scores, AtLeast);
    forall i | 0 <= i < |ranked| ensures -1.0 <= ranked[i] {
      assert ranked[i] in multiset(scores);
      var j :| 0 <= j < |scores| && scores[j] == ranked[i];
      ScoreAt(facets, chunks, j);
      BestChunkIsFirstBest(facets[j].vector, chunks);
    }
  }

  lemma BlendIsBetween(scores: seq<real>, t: Thresholds)
    requires NonNegativeWeights(t) && t.maxWeight + t.meanWeight == 1.0 && scores != []
    ensures Mean(TopScores(scores, t)) <= Blend(scores, t) <= TopScores(scores, t)[0]
  {
    TopIsDescending(scores, t);
    MeanIsAtMostHead(TopScores(scores, t));
    Between(Mean(TopScores(scores, t)), TopScores(scores, t)[0], t.maxWeight, t.meanWeight);
  }

  /** With weights summing to 1 the similarity lies between the mean of the top facets and
      the best facet, both clamped; scores of unit vectors leave the clamp idle. */
  lemma SimilarityIsBetween(facets: seq<Facet>, chunks: seq<Chunk>, t: Thresholds)
    requires NonNegativeWeights(t) && t.maxWeight + t.meanWeight == 1.0
    requires facets != [] && chunks != [] && AllComparable(facets, chunks)
    ensures var top := TopScores(Scores(facets, chunks), t);
            && Clamp(Mean(top)) <= Similarity(facets, chunks, t) <= Clamp(top[0])
            && (top[0] <= 1.0 ==> Mean(top) <= Similarity(facets, chunks, t) <= top[0])
  {
    var top := TopScores(Scores(facets, chunks), t);
    BlendIsBetween(Scores(facets, chunks), t);
    TopIsAboveMinusOne(facets, chunks, t);
    TopIsDescending(Scores(facets, chunks), t);
    forall i | 0 <= i < |top| ensures -1.0 <= top[i] <= top[0] {
      assert i > 0 ==> AtLeast(top[0], top[i]);
    }
    MeanIsBounded(top, -1.0, top[0]);
  }

  // ----- which facets count ----------------------------------------------

  lemma SortOfParts(a: seq<real>, b: seq<real>)
    requires forall i, j :: 0 <= i < |a| && 0 <= j < |b| ==> a[i] >= b[j]
    ensures Sort(a + b, AtLeast) == Sort(a, AtLeast) + Sort(b, AtLeast)
  {
    var x, y := Sort(a, AtLeast), Sort(b, AtLeast);
    SortIsDescending(a, AtLeast);
    SortIsDescending(b, AtLeast);
    SortIsDescending(a + b, AtLeast);
    SortKeepsElements(a, AtLeast);
    SortKeepsElements(b, AtLeast);
    SortKeepsElements(a + b, AtLeast);
    forall i, j | 0 <= i < |x| && 0 <= j < |y| ensures x[i] >= y[j] {
      assert x[i] in multiset(a) && y[j] in multiset(b);
    }
    DescendingIsUnique(Sort(a + b, AtLeast), x + y, AtLeast);
  }

  /** Beyond the best max(1, top_facets) facets the others do not count. */
  lemma OnlyTheTopCounts(best: seq<Facet>, others: seq<Facet>, chunks: seq<Chunk>, t: Thresholds)
    requires AllComparable(best, chunks) && AllComparable(others, chunks) && |best| == Max(1, t.topFacets)
    requires forall f, g :: f in best && g in others ==>
               BestChunk(f.vector, chunks).score >= BestChunk(g.vector, chunks).score
    ensures AllComparable(best + others, chunks)
    ensures Similarity(best + others, chunks, t) == Similarity(best, chunks, t)
  {
    var a, b := Scores(best, chunks), Scores(others, chunks);
    ScoresAppend(best, others, chunks);
    forall i, j | 0 <= i < |a| && 0 <= j < |b| ensures a[i] >= b[j] {
      ScoreAt(best, chunks, i);
      ScoreAt(others, chunks, j);
    }
    SortOfParts(a, b);
    assert TopScores(a + b, t) == Sort(a, AtLeast) == TopScores(a, t);
  }

  lemma BestIsFirst(facets: seq<Facet>, chunks: seq<Chunk>, t: Thresholds, k: nat)
    requires AllComparable(facets, chunks) && k < |facets|
    requires forall f :: f in facets ==>
               BestChunk(f.vector, chunks).score <= BestChunk(facets[k].vector, chunks).score
    ensures TopScores(Scores(facets, chunks), t)[0] == BestChunk(facets[k].vector, chunks).score
  {
    var scores := Scores(facets, chunks);
    ScoreAt(facets, chunks, k);
    forall i | 0 <= i < |scores| ensures scores[i] <= scores[k] {
      ScoreAt(facets, chunks, i);
    }
    HeadIsGreatest(scores, AtLeast);
    assert AtLeast(Sort(scores, AtLeast)[0], scores[k]);
  }

  lemma WeighIs(best: real, mean: real, t: Thresholds, sum: real)
    requires sum == t.maxWeight * best + t.meanWeight * mean
    ensures Weigh(best, mean, t) == sum
  {}

  lemma ClampIs(sum: real)
    ensures Clamp(sum) == if sum < -1.0 then -1.0 else if sum > 1.0 then 1.0 else sum
  {}

  lemma FewAreWeighed(facets: seq<Facet>, chunks: seq<Chunk>, t: Thresholds, k: nat)
    requires AllComparable(facets, chunks) && chunks != [] && k < |facets| <= Max(1, t.topFacets)
    requires forall f :: f in facets ==>
               BestChunk(f.vector, chunks).score <= BestChunk(facets[k].vector, chunks).score
    ensures var best, mean := BestChunk(facets[k].vector, chunks).score, Sum(Scores(facets, chunks)) / |facets| as real;
            Similarity(facets, chunks, t) == Clamp(Weigh(best, mean, t))
  {
    BestIsFirst(facets, chunks, t, k);
    TopOfAll(Scores(facets, chunks), t);
  }

  /** Up to that many facets, the similarity weighs the best of their scores against the mean of
      them all. */
  lemma AllOfFewCount(facets: seq<Facet>, chunks: seq<Chunk>, t: Thresholds, k: nat, best: real, mean: real,
      sum: real)
    requires AllComparable(facets, chunks) && chunks != [] && k < |facets| <= Max(1, t.topFacets)
    requires best == BestChunk(facets[k].vector, chunks).score && mean == Sum(Scores(facets, chunks)) / |facets| as real
    requires forall f :: f in facets ==> BestChunk(f.vector, chunks).score <= best
    requires sum == t.maxWeight * best + t.meanWeight * mean
    ensures Similarity(facets, chunks, t) == if sum < -1.0 then -1.0 else if sum > 1.0 then 1.0 else sum
  {
    FewAreWeighed(facets, chunks, t, k);
    WeighIs(best, mean, t, sum);
    ClampIs(sum);
  }

  // ----- urgency ---------------------------------------------------------

  function UrgencyRank(u: Urgency): int {
    match u
    case Undated => -1
    case Low => 0
    case Normal => 1
    case High => 2
    case Critical => 3
    case Expired => 4
  }

  /** For a fixed deadline and zone the clock only tightens urgency, and expiry is final. */
  lemma UrgencyOnlyTightens(deadline: Option<int>, offset: int, earlier: int, later: int)
    requires earlier <= later
    ensures UrgencyRank(UrgencyFor(deadline, offset, earlier)) <= UrgencyRank(UrgencyFor(deadline, offset, later))
    ensures UrgencyFor(deadline, offset, earlier) == Expired ==> UrgencyFor(deadline, offset, later) == Expired
  {
    LocalDateIsMonotone(earlier, later, offset);
  }

  // ----- the tables ------------------------------------------------------

  /** Bid on a strong fit nothing stands against; skip what is past, weak or ineligible; hold the
      rest. */
  lemma RecommendIff(g: Grade, e: Eligibility, u: Urgency)
    ensures Recommend(g, e, u) == Bid <==> u != Expired && (g == S || g == A) && e == Eligible
    ensures Recommend(g, e, u) == Skip <==> u == Expired || g == C || e == Ineligible
  {}

  /** A cut-off belongs to the grade above it. */
  lemma GradeIff(similarity: real, t: Thresholds)
    requires t.gradeB <= t.gradeA <= t.gradeS
    ensures GradeFor(similarity, t) == S <==> t.gradeS <= similarity
    ensures GradeFor(similarity, t) in {S, A} <==> t.gradeA <= similarity
    ensures GradeFor(similarity, t) != C <==> t.gradeB <= similarity
  {}

  /** Local midnight `days` days after that of today. */
  function Midnight(now: int, days: int, offset: int): int { Combine(LocalDate(now, offset) + days, 0, offset) }

  /** A deadline is past from its own instant on; until then it is critical through the third
      local day after today, high through the seventh and normal through the twenty-first. */
  lemma UrgencyIff(moment: int, offset: int, now: int)
    ensures var u := UrgencyFor(Some(moment), offset, now);
            && (u == Expired <==> moment <= now)
            && (u == Critical <==> now < moment < Midnight(now, 4, offset))
            && (u == High <==> Midnight(now, 4, offset) <= moment < Midnight(now, 8, offset))
            && (u == Normal <==> Midnight(now, 8, offset) <= moment < Midnight(now, 22, offset))
            && (u == Low <==> Midnight(now, 22, offset) <= moment)
            && UrgencyFor(None, offset, now) == Undated
  {}
}
