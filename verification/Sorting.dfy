/** Python's `sorted(..., reverse=True)`: a stable descending sort by a total preorder,
    together with the facts the ranking code leans on. */
module Sorting {

  ghost predicate TotalPreorder<T(!new)>(ge: (T, T) -> bool) {
    && (forall x, y :: ge(x, y) || ge(y, x))
    && (forall x, y, z :: ge(x, y) && ge(y, z) ==> ge(x, z))
  }

  predicate Descending<T>(s: seq<T>, ge: (T, T) -> bool) {
    forall i, j :: 0 <= i < j < |s| ==> ge(s[i], s[j])
  }

  function Insert<T>(x: T, s: seq<T>, ge: (T, T) -> bool): (r: seq<T>)
    ensures |r| == |s| + 1
  {
    if s == [] then [x]
    else if ge(x, s[0]) then [x] + s
    else [s[0]] + Insert(x, s[1..], ge)
  }

  function Sort<T>(s: seq<T>, ge: (T, T) -> bool): (r: seq<T>)
    ensures |r| == |s|
  {
    if s == [] then [] else Insert(s[0], Sort(s[1..], ge), ge)
  }

  lemma ConsElements<T>(x: T, s: seq<T>)
    ensures multiset([x] + s) == multiset{x} + multiset(s)
  {}

  lemma {:induction false} InsertKeepsElements<T>(x: T, s: seq<T>, ge: (T, T) -> bool)
    ensures multiset(Insert(x, s, ge)) == multiset(s) + multiset{x}
  {
    if s != [] && !ge(x, s[0]) {
      InsertKeepsElements(x, s[1..], ge);
      ConsElements(s[0], s[1..]);
      ConsElements(s[0], Insert(x, s[1..], ge));
      assert s == [s[0]] + s[1..];
    } else {
      ConsElements(x, s);
    }
  }

  lemma {:induction false} InsertKeepsOrder<T(!new)>(x: T, s: seq<T>, ge: (T, T) -> bool)
    requires TotalPreorder(ge) && Descending(s, ge)
    ensures Descending(Insert(x, s, ge), ge)
  {
    if s != [] && !ge(x, s[0]) {
      InsertKeepsOrder(x, s[1..], ge);
      var r := Insert(x, s[1..], ge);
      InsertKeepsElements(x, s[1..], ge);
      forall j | 0 <= j < |r| ensures ge(s[0], r[j]) {
        assert r[j] in multiset(r);
        assert r[j] == x || r[j] in s[1..];
      }
    }
  }

  lemma {:induction false} SortKeepsElements<T>(s: seq<T>, ge: (T, T) -> bool)
    ensures multiset(Sort(s, ge)) == multiset(s)
  {
    if s != [] {
      SortKeepsElements(s[1..], ge);
      InsertKeepsElements(s[0], Sort(s[1..], ge), ge);
      assert s == [s[0]] + s[1..];
    }
  }

  lemma {:induction false} SortIsDescending<T(!new)>(s: seq<T>, ge: (T, T) -> bool)
    requires TotalPreorder(ge)
    ensures Descending(Sort(s, ge), ge)
  {
    if s != [] {
      SortIsDescending(s[1..], ge);
      InsertKeepsOrder(s[0], Sort(s[1..], ge), ge);
    }
  }

  /** A list that is already in order is returned as it stands. */
  lemma {:induction false} SortFixesDescending<T>(s: seq<T>, ge: (T, T) -> bool)
    requires Descending(s, ge)
    ensures Sort(s, ge) == s
  {
    if s != [] {
      SortFixesDescending(s[1..], ge);
      assert |s| > 1 ==> ge(s[0], s[1]);
    }
  }

  /** The head of the sorted list is an element that no element exceeds. */
  lemma HeadIsGreatest<T(!new)>(s: seq<T>, ge: (T, T) -> bool)
    requires TotalPreorder(ge) && s != []
    ensures Sort(s, ge)[0] in s
    ensures forall x :: x in s ==> ge(Sort(s, ge)[0], x)
  {
    var r := Sort(s, ge);
    SortKeepsElements(s, ge);
    SortIsDescending(s, ge);
    assert r[0] in multiset(r);
    forall x | x in s ensures ge(r[0], x) {
      assert x in multiset(r);
      var j :| 0 <= j < |r| && r[j] == x;
      assert ge(r[0], r[0]) && (j > 0 ==> ge(r[0], r[j]));
    }
  }

  /** A preorder under which only equal elements tie. */
  ghost predicate TotalOrder<T(!new)>(ge: (T, T) -> bool) {
    TotalPreorder(ge) && forall x, y :: ge(x, y) && ge(y, x) ==> x == y
  }

  lemma DescendingHead<T(!new)>(a: seq<T>, x: T, ge: (T, T) -> bool)
    requires TotalPreorder(ge) && Descending(a, ge) && x in multiset(a)
    ensures ge(a[0], x)
  {
    var i :| 0 <= i < |a| && a[i] == x;
    assert ge(a[0], a[0]) && (i > 0 ==> ge(a[0], a[i]));
  }

  lemma DropHead<T>(a: seq<T>)
    requires a != []
    ensures multiset(a[1..]) == multiset(a) - multiset{a[0]}
  {
    assert a == [a[0]] + a[1..];
  }

  lemma {:induction false} DescendingIsUnique<T(!new)>(a: seq<T>, b: seq<T>, ge: (T, T) -> bool)
    requires TotalOrder(ge) && Descending(a, ge) && Descending(b, ge)
    requires multiset(a) == multiset(b)
    ensures a == b
  {
    assert |a| == |multiset(a)| == |multiset(b)| == |b|;
    if a != [] {
      assert a[0] in multiset(a) && b[0] in multiset(b);
      DescendingHead(a, b[0], ge);
      DescendingHead(b, a[0], ge);
      DropHead(a);
      DropHead(b);
      DescendingIsUnique(a[1..], b[1..], ge);
      assert a == [a[0]] + a[1..] && b == [b[0]] + b[1..];
    }
  }

  /** Sorting by a total order forgets the order its input came in. */
  lemma SortForgetsOrder<T(!new)>(a: seq<T>, b: seq<T>, ge: (T, T) -> bool)
    requires TotalOrder(ge) && multiset(a) == multiset(b)
    ensures Sort(a, ge) == Sort(b, ge)
  {
    SortKeepsElements(a, ge);
    SortKeepsElements(b, ge);
    SortIsDescending(a, ge);
    SortIsDescending(b, ge);
    DescendingIsUnique(Sort(a, ge), Sort(b, ge), ge);
  }

  predicate AtLeast(a: real, b: real) { a >= b }

  /** `a` is nowhere above `b`, over the length of `a`. */
  predicate Below(a: seq<real>, b: seq<real>) {
    |a| <= |b| && forall i :: 0 <= i < |a| ==> a[i] <= b[i]
  }

  lemma BelowCons(x: real, a: seq<real>, y: real, b: seq<real>)
    requires x <= y && Below(a, b)
    ensures Below([x] + a, [y] + b)
  {}

  lemma {:induction false} InsertIsMonotone(x: real, a: seq<real>, y: real, b: seq<real>)
    requires x <= y && |a| == |b| && Below(a, b)
    requires Descending(a, AtLeast) && Descending(b, AtLeast)
    ensures Below(Insert(x, a, AtLeast), Insert(y, b, AtLeast))
    decreases |a|
  {
    if a != [] {
      if x >= a[0] && y < b[0] {
        InsertIsMonotone(a[0], a[1..], y, b[1..]);
        InsertHead(a);
        BelowCons(x, a, b[0], Insert(y, b[1..], AtLeast));
      } else if x < a[0] && y >= b[0] {
        InsertIsMonotone(x, a[1..], b[0], b[1..]);
        InsertHead(b);
        BelowCons(a[0], Insert(x, a[1..], AtLeast), y, b);
      } else if x < a[0] && y < b[0] {
        InsertIsMonotone(x, a[1..], y, b[1..]);
        BelowCons(a[0], Insert(x, a[1..], AtLeast), b[0], Insert(y, b[1..], AtLeast));
      } else {
        BelowCons(x, a, y, b);
      }
    }
  }

  lemma InsertHead(a: seq<real>)
    requires a != [] && Descending(a, AtLeast)
    ensures Insert(a[0], a[1..], AtLeast) == a
  {
    assert |a| > 1 ==> AtLeast(a[0], a[1]);
  }

  /** Raising elements in place raises every rank of the sorted list. */
  lemma {:induction false} SortIsMonotone(a: seq<real>, b: seq<real>)
    requires |a| == |b| && Below(a, b)
    ensures Below(Sort(a, AtLeast), Sort(b, AtLeast))
  {
    if a != [] {
      SortIsMonotone(a[1..], b[1..]);
      SortIsDescending(a[1..], AtLeast);
      SortIsDescending(b[1..], AtLeast);
      InsertIsMonotone(a[0], Sort(a[1..], AtLeast), b[0], Sort(b[1..], AtLeast));
    }
  }

  /** One more element lowers no rank. */
  lemma {:induction false} InsertRaisesRanks(x: real, a: seq<real>)
    requires Descending(a, AtLeast)
    ensures Below(a, Insert(x, a, AtLeast))
  {
    if a != [] && x < a[0] {
      InsertRaisesRanks(x, a[1..]);
    }
  }
}
