/** The graded ranking metric of backend/scripts/eval_matching.py.

    The discount of position i is 1 / log2(i + 2) there; here it is any positive
    non-increasing sequence, which is all the bounds need. */
module Ndcg {
  import opened Sorting

  type Discount = nat -> real

  ghost predicate Discounting(d: Discount) {
    && (forall i :: d(i) > 0.0)
    && (forall i, j :: i < j ==> d(i) >= d(j))
  }

  /** As 1 / log2(i + 2) does, the discount falls at every step. */
  ghost predicate StrictlyDiscounting(d: Discount) {
    Discounting(d) && forall i, j :: i < j ==> d(i) > d(j)
  }

  function Pow2(n: nat): (r: int)
    ensures r >= 1
  {
    if n == 0 then 1 else 2 * Pow2(n - 1)
  }

  function Gain(relevance: nat): (g: real)
    ensures g >= 0.0
  {
    (Pow2(relevance) - 1) as real
  }

  predicate LabelAtLeast(a: nat, b: nat) { a >= b }

  function Top<T>(s: seq<T>, k: nat): seq<T> {
    if k <= |s| then s[..k] else s
  }

  /** What one label earns at a position. */
  function Credit(relevance: nat, d: Discount, at: nat): real { Gain(relevance) * d(at) }

  /** Discounted gain of the first `k` labels when the first of them sits at position `at`. */
  ghost function Dcg(labels: seq<nat>, k: nat, d: Discount, at: nat): real {
    if labels == [] || k == 0 then 0.0
    else Credit(labels[0], d, at) + Dcg(labels[1..], k - 1, d, at + 1)
  }

  ghost function NdcgAtK(ranked: seq<nat>, k: nat, d: Discount): real {
    var ideal := Dcg(Sort(ranked, LabelAtLeast), k, d, 0);
    if ideal == 0.0 then 0.0 else Dcg(ranked, k, d, 0) / ideal
  }

  lemma {:induction false} DcgOfTop(labels: seq<nat>, k: nat, d: Discount, at: nat)
    ensures Dcg(Top(labels, k), |Top(labels, k)|, d, at) == Dcg(labels, k, d, at)
  {
    if labels != [] && k != 0 {
      DcgOfTop(labels[1..], k - 1, d, at + 1);
      assert Top(labels, k)[1..] == Top(labels[1..], k - 1);
    }
  }

  lemma DcgStep(labels: seq<nat>, i: nat, d: Discount)
    requires i < |labels|
    ensures Dcg(labels[i..], |labels| - i, d, i)
         == Credit(labels[i], d, i) + Dcg(labels[i + 1..], |labels| - i - 1, d, i + 1)
  {
    assert labels[i..][1..] == labels[i + 1..];
  }

  method ComputeDcg(scores: seq<nat>, k: nat, d: Discount) returns (total: real)
    ensures total == Dcg(scores, k, d, 0)
  {
    total := 0.0;
    var top := Top(scores, k);
    DcgOfTop(scores, k, d, 0);
    for index := 0 to |top|
      invariant total + Dcg(top[index..], |top| - index, d, index) == Dcg(top, |top|, d, 0)
    {
      DcgStep(top, index, d);
      total := total + Gain(top[index]) * d(index);
    }
  }

  method ComputeNdcg(ranked: seq<nat>, k: nat, d: Discount) returns (r: real)
    ensures r == NdcgAtK(ranked, k, d)
  {
    var ideal := ComputeDcg(Sort(ranked, LabelAtLeast), k, d);
    if ideal == 0.0 {
      return 0.0;
    }
    var actual := ComputeDcg(ranked, k, d);
    r := actual / ideal;
  }

  lemma {:induction false} GainGrows(a: nat, b: nat)
    requires a < b
    ensures Gain(a) < Gain(b)
  {
    if a + 1 < b {
      GainGrows(a, b - 1);
    }
  }

  /** One label step doubles the gain and adds one, so it is worth more than all before it. */
  lemma GainDoubles(relevance: nat)
    ensures Gain(0) == 0.0 && Gain(relevance + 1) == 2.0 * Gain(relevance) + 1.0
  {}

  lemma {:induction false} CreditOfOneMore(labels: seq<nat>, relevance: nat, k: nat, d: Discount, at: nat)
    ensures Dcg(labels + [relevance], k, d, at)
         == Dcg(labels, k, d, at) + if |labels| < k then Credit(relevance, d, at + |labels|) else 0.0
  {
    if labels == [] {
      assert [] + [relevance] == [relevance] && [relevance][1..] == [];
    } else if k > 0 {
      CreditOfOneMore(labels[1..], relevance, k - 1, d, at + 1);
      assert (labels + [relevance])[1..] == labels[1..] + [relevance];
      assert at + 1 + |labels[1..]| == at + |labels|;
    }
  }

  /** Within the first k, each further label adds its gain times the discount of its position. */
  lemma DcgOfOneMore(labels: seq<nat>, relevance: nat, k: nat, d: Discount)
    ensures Dcg(labels + [relevance], k, d, 0)
         == Dcg(labels, k, d, 0) + if |labels| < k then Gain(relevance) * d(|labels|) else 0.0
  {
    CreditOfOneMore(labels, relevance, k, d, 0);
  }

  lemma {:induction false} DcgIsNonNegative(labels: seq<nat>, k: nat, d: Discount, at: nat)
    requires Discounting(d)
    ensures Dcg(labels, k, d, at) >= 0.0
  {
    if labels != [] && k != 0 {
      DcgIsNonNegative(labels[1..], k - 1, d, at + 1);
      Product(Gain(labels[0]), d(at));
    }
  }

  lemma Product(x: real, y: real)
    requires x >= 0.0 && y >= 0.0
    ensures x * y >= 0.0
  {}

  lemma PositiveProduct(x: real, y: real)
    requires x > 0.0 && y > 0.0
    ensures x * y > 0.0
  {}

  lemma Expand(a: real, b: real, c: real, d: real)
    ensures (a - b) * (c - d) == a * c + b * d - (b * c + a * d)
  {
    assert (a - b) * (c - d) == a * (c - d) - b * (c - d);
    assert a * (c - d) == a * c - a * d;
    assert b * (c - d) == b * c - b * d;
  }

  /** Two neighbours in the wrong order: putting the larger gain first never costs. */
  lemma Exchange(small: real, large: real, first: real, second: real)
    requires small <= large && first >= second
    ensures small * first + large * second <= large * first + small * second
    ensures small < large && first > second ==>
              small * first + large * second < large * first + small * second
  {
    Expand(large, small, first, second);
    Product(large - small, first - second);
    if small < large && first > second {
      PositiveProduct(large - small, first - second);
    }
  }

  lemma Scale(x: real, y: real, w: real)
    requires x < y && w > 0.0
    ensures x * w < y * w
  {}

  lemma DcgCons(x: nat, s: seq<nat>, k: nat, d: Discount, at: nat)
    requires k > 0
    ensures Dcg([x] + s, k, d, at) == Credit(x, d, at) + Dcg(s, k - 1, d, at + 1)
    ensures Top([x] + s, k) == [x] + Top(s, k - 1)
  {
    assert ([x] + s)[1..] == s;
  }

  /** The gain with two labels in front. */
  lemma DcgOfTwo(x: nat, y: nat, s: seq<nat>, k: nat, d: Discount, at: nat)
    requires k > 1
    ensures Dcg([x] + ([y] + s), k, d, at) == Credit(x, d, at) + Credit(y, d, at + 1) + Dcg(s, k - 2, d, at + 2)
  {
    DcgCons(x, [y] + s, k, d, at);
    DcgCons(y, s, k - 1, d, at + 1);
  }

  lemma DcgOfOne(x: nat, s: seq<nat>, k: nat, d: Discount, at: nat)
    requires k == 1
    ensures Dcg([x] + s, k, d, at) == Credit(x, d, at)
  {
    DcgCons(x, s, k, d, at);
    assert Dcg(s, k - 1, d, at + 1) == 0.0;
  }

  lemma SwapOne(x: nat, y: nat, s: seq<nat>, k: nat, d: Discount, at: nat)
    requires Discounting(d) && x < y && k == 1
    ensures Dcg([x] + ([y] + s), k, d, at) < Dcg([y] + ([x] + s), k, d, at)
  {
    GainGrows(x, y);
    DcgOfOne(x, [y] + s, k, d, at);
    DcgOfOne(y, [x] + s, k, d, at);
    Scale(Gain(x), Gain(y), d(at));
  }

  lemma SwapTwo(x: nat, y: nat, s: seq<nat>, k: nat, d: Discount, at: nat)
    requires Discounting(d) && x < y && k > 1
    ensures Dcg([x] + ([y] + s), k, d, at) <= Dcg([y] + ([x] + s), k, d, at)
    ensures d(at) > d(at + 1) ==> Dcg([x] + ([y] + s), k, d, at) < Dcg([y] + ([x] + s), k, d, at)
  {
    GainGrows(x, y);
    DcgOfTwo(x, y, s, k, d, at);
    DcgOfTwo(y, x, s, k, d, at);
    Exchange(Gain(x), Gain(y), d(at), d(at + 1));
  }

  /** Swapping an out-of-order front pair pays, strictly so under a falling discount. */
  lemma SwapFront(x: nat, y: nat, s: seq<nat>, k: nat, d: Discount, at: nat)
    requires Discounting(d) && x < y && k > 0
    ensures Dcg([x] + ([y] + s), k, d, at) <= Dcg([y] + ([x] + s), k, d, at)
    ensures StrictlyDiscounting(d) ==> Dcg([x] + ([y] + s), k, d, at) < Dcg([y] + ([x] + s), k, d, at)
  {
    if k == 1 {
      SwapOne(x, y, s, k, d, at);
    } else {
      SwapTwo(x, y, s, k, d, at);
    }
  }

  /** Bubbling one label into its place in a descending list never lowers the gain, and
      under a falling discount leaves it alone only by changing nothing in the top k. */
  lemma {:induction false} InsertImproves(x: nat, s: seq<nat>, k: nat, d: Discount, at: nat)
    requires Discounting(d)
    ensures Dcg([x] + s, k, d, at) <= Dcg(Insert(x, s, LabelAtLeast), k, d, at)
    ensures StrictlyDiscounting(d) && Dcg([x] + s, k, d, at) == Dcg(Insert(x, s, LabelAtLeast), k, d, at)
            ==> Top([x] + s, k) == Top(Insert(x, s, LabelAtLeast), k)
    decreases |s|
  {
    if s != [] && x < s[0] && k != 0 {
      var y, rest := s[0], s[1..];
      assert s == [y] + rest;
      InsertImproves(x, rest, k - 1, d, at + 1);
      SwapFront(x, y, rest, k, d, at);
      DcgCons(y, [x] + rest, k, d, at);
      DcgCons(y, Insert(x, rest, LabelAtLeast), k, d, at);
    }
  }

  lemma LabelsAreOrdered()
    ensures TotalOrder(LabelAtLeast)
  {}

  lemma PrependKeepsBound(x: nat, s: seq<nat>, t: seq<nat>, k: nat, d: Discount, at: nat)
    requires k > 0 && Dcg(s, k - 1, d, at + 1) <= Dcg(t, k - 1, d, at + 1)
    ensures Dcg([x] + s, k, d, at) <= Dcg([x] + t, k, d, at)
    ensures Dcg([x] + s, k, d, at) == Dcg([x] + t, k, d, at)
            ==> Dcg(s, k - 1, d, at + 1) == Dcg(t, k - 1, d, at + 1)
    ensures Top([x] + s, k) == Top([x] + t, k) <==> Top(s, k - 1) == Top(t, k - 1)
  {
    DcgCons(x, s, k, d, at);
    DcgCons(x, t, k, d, at);
    assert Top([x] + s, k)[1..] == Top(s, k - 1) && Top([x] + t, k)[1..] == Top(t, k - 1);
  }

  /** Descending order is the best there is, and with falling discounts it is the only
      best order of the part of the list that counts. */
  lemma {:induction false} SortIsIdeal(s: seq<nat>, k: nat, d: Discount, at: nat)
    requires Discounting(d)
    ensures Dcg(s, k, d, at) <= Dcg(Sort(s, LabelAtLeast), k, d, at)
    ensures StrictlyDiscounting(d) && Dcg(s, k, d, at) == Dcg(Sort(s, LabelAtLeast), k, d, at)
            ==> Top(s, k) == Top(Sort(s, LabelAtLeast), k)
    decreases |s|
  {
    if s != [] && k != 0 {
      var x, rest := s[0], s[1..];
      SortIsIdeal(rest, k - 1, d, at + 1);
      PrependKeepsBound(x, rest, Sort(rest, LabelAtLeast), k, d, at);
      InsertImproves(x, Sort(rest, LabelAtLeast), k, d, at);
      assert s == [x] + rest;
    }
  }

  /** No ordering of the same labels gains more in its top k than the descending one. */
  lemma NoOrderBeatsDescending(a: seq<nat>, b: seq<nat>, k: nat, d: Discount)
    requires Discounting(d) && multiset(a) == multiset(b)
    ensures Dcg(a, k, d, 0) <= Dcg(Sort(b, LabelAtLeast), k, d, 0)
  {
    SortIsIdeal(a, k, d, 0);
    LabelsAreOrdered();
    SortForgetsOrder(a, b, LabelAtLeast);
  }

  lemma Ratio(x: real, y: real)
    requires 0.0 <= x <= y && y > 0.0
    ensures 0.0 <= x / y <= 1.0
    ensures x / y == 1.0 <==> x == y
    ensures x / y == 0.0 <==> x == 0.0
  {}

  lemma NdcgIsAFraction(ranked: seq<nat>, k: nat, d: Discount)
    requires Discounting(d)
    ensures 0.0 <= NdcgAtK(ranked, k, d) <= 1.0
  {
    DcgIsNonNegative(ranked, k, d, 0);
    SortIsIdeal(ranked, k, d, 0);
    if Dcg(Sort(ranked, LabelAtLeast), k, d, 0) != 0.0 {
      Ratio(Dcg(ranked, k, d, 0), Dcg(Sort(ranked, LabelAtLeast), k, d, 0));
    }
  }

  /** Some label among those that count is positive. */
  ghost predicate AnyGain(labels: seq<nat>, k: nat) {
    exists x :: x in Top(labels, k) && x > 0
  }

  lemma {:induction false} PositiveGain(labels: seq<nat>, k: nat, d: Discount, at: nat)
    requires Discounting(d)
    ensures Dcg(labels, k, d, at) > 0.0 <==> AnyGain(labels, k)
  {
    if labels != [] && k != 0 {
      var x, rest := labels[0], labels[1..];
      assert labels == [x] + rest;
      DcgCons(x, rest, k, d, at);
      PositiveGain(rest, k - 1, d, at + 1);
      DcgIsNonNegative(rest, k - 1, d, at + 1);
      if x > 0 {
        GainGrows(0, x);
        Scale(0.0, Gain(x), d(at));
        assert x in Top(labels, k);
      } else {
        assert Credit(x, d, at) == 0.0;
        assert Top(labels, k) == [x] + Top(rest, k - 1);
        if AnyGain(rest, k - 1) {
          var y :| y in Top(rest, k - 1) && y > 0;
          assert y in Top(labels, k);
        }
        if AnyGain(labels, k) {
          var y :| y in Top(labels, k) && y > 0;
          assert y in Top(rest, k - 1);
        }
      }
    }
  }

  /** A ranking scores exactly 1 when its top k are the best k in descending order and at
      least one label is positive; the score is 0 exactly when the top k gain nothing. */
  lemma PerfectScoreIff(ranked: seq<nat>, k: nat, d: Discount)
    requires StrictlyDiscounting(d)
    ensures NdcgAtK(ranked, k, d) == 1.0 <==>
              && Top(ranked, k) == Top(Sort(ranked, LabelAtLeast), k)
              && AnyGain(ranked, k)
    ensures NdcgAtK(ranked, k, d) == 0.0 <==> !AnyGain(ranked, k)
  {
    var best := Sort(ranked, LabelAtLeast);
    var ideal := Dcg(best, k, d, 0);
    DcgIsNonNegative(ranked, k, d, 0);
    SortIsIdeal(ranked, k, d, 0);
    PositiveGain(ranked, k, d, 0);
    if ideal != 0.0 {
      Ratio(Dcg(ranked, k, d, 0), ideal);
      if Top(ranked, k) == Top(best, k) {
        DcgOfTop(ranked, k, d, 0);
        DcgOfTop(best, k, d, 0);
      }
    }
  }

  /** In particular a non-increasing list with a positive label within reach scores 1. */
  lemma DescendingScoresOne(ranked: seq<nat>, k: nat, d: Discount)
    requires Discounting(d) && Descending(ranked, LabelAtLeast)
    requires k > 0 && ranked != [] && ranked[0] > 0
    ensures NdcgAtK(ranked, k, d) == 1.0
  {
    SortFixesDescending(ranked, LabelAtLeast);
    assert ranked[0] in Top(ranked, k);
    PositiveGain(ranked, k, d, 0);
    Ratio(Dcg(ranked, k, d, 0), Dcg(ranked, k, d, 0));
  }
}
