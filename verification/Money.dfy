/** Comparing money across currencies, after backend/app/modules/rules/engine.py. Amounts and
    rates are exact reals; a rate is units of its currency per unit of the base. */
module Money {

  import opened Wrappers

  /** A plain number, an amount with or without a currency, or something else. */
  datatype Price = Bare(number: real) | Tagged(amount: Option<real>, currency: string) | NotMoney

  type Rates = map<string, real>

  datatype Amount = Amount(amount: real, currency: string)
  datatype Pair = Pair(left: real, right: real)

  function UpperChar(c: char): char {
    if 'a' <= c <= 'z' then (c as int - 32) as char else c
  }

  function Upper(s: string): (r: string)
    ensures |r| == |s|
  {
    if s == "" then "" else [UpperChar(s[0])] + Upper(s[1..])
  }

  function AmountAndCurrency(price: Price, base: string): Option<Amount> {
    match price
    case Bare(x) => Some(Amount(x, Upper(base)))
    case Tagged(None, _) => None
    case Tagged(Some(x), currency) => Some(Amount(x, Upper(if currency != "" then currency else base)))
    case NotMoney => None
  }

  function Convert(a: Amount, fx: Rates, base: string): Option<real> {
    if a.currency == Upper(base) then Some(a.amount)
    else if a.currency !in fx || fx[a.currency] == 0.0 then None
    else Some(a.amount / fx[a.currency])
  }

  function ComparablePair(left: Price, right: Price, fx: Rates, base: string): Option<Pair> {
    var a, b := AmountAndCurrency(left, base), AmountAndCurrency(right, base);
    if a.None? || b.None? then None
    else if a.value.currency == b.value.currency then Some(Pair(a.value.amount, b.value.amount))
    else
      var x, y := Convert(a.value, fx, base), Convert(b.value, fx, base);
      if x.None? || y.None? then None else Some(Pair(x.value, y.value))
  }

  datatype MoneyOperator = Lte | Gte

  function CompareMoney(operator: MoneyOperator, price: Price, expected: Price, fx: Rates, base: string): Option<bool> {
    match ComparablePair(price, expected, fx, base)
    case None => None
    case Some(p) => Some(if operator == Lte then p.left <= p.right else p.left >= p.right)
  }

  function MoneyBetween(price: Price, low: Price, high: Price, fx: Rates, base: string): Option<bool> {
    var lowPair, highPair := ComparablePair(price, low, fx, base), ComparablePair(price, high, fx, base);
    if lowPair.None? && highPair.None? then None
    else if lowPair.Some? && lowPair.value.left < lowPair.value.right then Some(false)
    else Some(!(highPair.Some? && highPair.value.left > highPair.value.right))
  }

  // ----- what the comparison means ---------------------------------------

  ghost predicate PositiveRates(fx: Rates) {
    forall c :: c in fx ==> fx[c] > 0.0
  }

  predicate Readable(p: Price, base: string) { AmountAndCurrency(p, base).Some? }

  predicate Comparable(p: Price, q: Price, fx: Rates, base: string) {
    ComparablePair(p, q, fx, base).Some?
  }

  predicate AtMost(p: Price, q: Price, fx: Rates, base: string) {
    CompareMoney(Lte, p, q, fx, base) == Some(true)
  }

  /** What an amount is worth in the base currency, where a rate is known. */
  function Worth(p: Price, fx: Rates, base: string): Option<real> {
    match AmountAndCurrency(p, base)
    case None => None
    case Some(a) => Convert(a, fx, base)
  }

  lemma DividingKeepsOrder(x: real, y: real, rate: real)
    requires rate > 0.0
    ensures x <= y <==> x / rate <= y / rate
  {}

  lemma QuotientAgainst(x: real, rate: real, y: real)
    requires rate > 0.0
    ensures x / rate <= y <==> x <= y * rate
    ensures x / rate >= y <==> x >= y * rate
  {
    var q := x / rate;
    assert q * rate == x;
    assert (y - q) * rate == y * rate - x;
    SignOfProduct(y - q, rate);
  }

  lemma SignOfProduct(d: real, rate: real)
    requires rate > 0.0
    ensures d * rate >= 0.0 <==> d >= 0.0
    ensures d * rate <= 0.0 <==> d <= 0.0
  {}

  /** A currency other than the base, and how many units of it the base is worth. */
  predicate Foreign(c: string, rate: real, fx: Rates, base: string) {
    c != "" && Upper(c) != Upper(base) && Upper(c) in fx && fx[Upper(c)] == rate && rate > 0.0
  }

  /** An amount in another currency against a limit in the base: the rate multiplies the limit. */
  lemma LimitInTheBase(x: real, c: string, p: real, y: real, fx: Rates, base: string)
    requires Foreign(c, p, fx, base)
    ensures var price, limit := Tagged(Some(x), c), Tagged(Some(y), base);
            && CompareMoney(Lte, price, limit, fx, base) == Some(x <= y * p)
            && CompareMoney(Gte, price, limit, fx, base) == Some(x >= y * p)
  {
    QuotientAgainst(x, p, y);
  }

  lemma CrossMultiply(x: real, p: real, y: real, q: real)
    requires p > 0.0 && q > 0.0
    ensures x / p <= y / q <==> x * q <= y * p
    ensures x / p >= y / q <==> x * q >= y * p
  {
    var b := y / q;
    assert b * q == y;
    QuotientAgainst(x, p, b);
    assert (b * p - x) * q == b * q * p - x * q;
    SignOfProduct(b * p - x, q);
  }

  lemma ScaleKeepsOrder(x: real, p: real, y: real, q: real)
    requires p == q > 0.0
    ensures x <= y <==> x * q <= y * p
    ensures x >= y <==> x * q >= y * p
  {
    assert (y - x) * p == y * p - x * q;
    SignOfProduct(y - x, p);
  }

  /** Two amounts in currencies other than the base: each is weighed with the rate of the other. */
  lemma CrossRates(x: real, c: string, p: real, y: real, d: string, q: real, fx: Rates, base: string)
    requires Foreign(c, p, fx, base) && Foreign(d, q, fx, base)
    ensures var price, limit := Tagged(Some(x), c), Tagged(Some(y), d);
            && CompareMoney(Lte, price, limit, fx, base) == Some(x * q <= y * p)
            && CompareMoney(Gte, price, limit, fx, base) == Some(x * q >= y * p)
  {
    if Upper(c) == Upper(d) {
      ScaleKeepsOrder(x, p, y, q);
    } else {
      CrossMultiply(x, p, y, q);
    }
  }

  /** The base needs no rate; any other currency needs one that is not zero. */
  predicate HasRate(currency: string, fx: Rates, base: string) {
    Upper(currency) == Upper(base) || (Upper(currency) in fx && fx[Upper(currency)] != 0.0)
  }

  /** Amounts in one currency compare as they stand, whatever the rates; in two they compare
      exactly when each is the base or has a rate. */
  lemma CurrenciesCompareIff(x: real, c: string, y: real, d: string, fx: Rates, base: string)
    requires c != "" && d != ""
    ensures var price, limit := Tagged(Some(x), c), Tagged(Some(y), d);
            && (CompareMoney(Lte, price, limit, fx, base).Some?
                <==> Upper(c) == Upper(d) || (HasRate(c, fx, base) && HasRate(d, fx, base)))
            && (Upper(c) == Upper(d) ==>
                  forall op: MoneyOperator :: CompareMoney(op, price, limit, fx, base) 
                    == Some(if op == Lte then x <= y else x >= y))
  {}

  /** Two prices compare exactly when they share a currency or both have a worth. */
  lemma ComparableIff(p: Price, q: Price, fx: Rates, base: string)
    requires Readable(p, base) && Readable(q, base)
    ensures Comparable(p, q, fx, base) <==>
              || AmountAndCurrency(p, base).value.currency == AmountAndCurrency(q, base).value.currency
              || (Worth(p, fx, base).Some? && Worth(q, fx, base).Some?)
  {}

  /** The same-currency shortcut gives the answer that converting both sides would. */
  lemma ShortcutAgreesWithConverting(p: Price, q: Price, fx: Rates, base: string)
    requires PositiveRates(fx) && Worth(p, fx, base).Some? && Worth(q, fx, base).Some?
    ensures AtMost(p, q, fx, base) <==> Worth(p, fx, base).value <= Worth(q, fx, base).value
  {
    var a, b := AmountAndCurrency(p, base).value, AmountAndCurrency(q, base).value;
    if a.currency == b.currency && a.currency != Upper(base) {
      DividingKeepsOrder(a.amount, b.amount, fx[a.currency]);
    }
  }

  /** Comparability is an equivalence on readable prices, and within each class the order is
      total and transitive, across any mix of currencies. */
  lemma ComparisonIsAnOrder(p: Price, q: Price, r: Price, fx: Rates, base: string)
    requires PositiveRates(fx)
    ensures Readable(p, base) <==> Comparable(p, p, fx, base)
    ensures Comparable(p, q, fx, base) ==> Comparable(q, p, fx, base)
    ensures Comparable(p, q, fx, base) && Comparable(q, r, fx, base) ==> Comparable(p, r, fx, base)
    ensures Comparable(p, q, fx, base) ==> AtMost(p, q, fx, base) || AtMost(q, p, fx, base)
    ensures AtMost(p, q, fx, base) && AtMost(q, r, fx, base) ==> AtMost(p, r, fx, base)
    ensures CompareMoney(Gte, p, q, fx, base) == CompareMoney(Lte, q, p, fx, base)
  {
    if Comparable(p, q, fx, base) && Comparable(q, r, fx, base) {
      if Worth(q, fx, base).Some? {
        ShortcutAgreesWithConverting(p, q, fx, base);
        ShortcutAgreesWithConverting(q, r, fx, base);
        ShortcutAgreesWithConverting(p, r, fx, base);
      }
    }
  }

  /** A negative rate, which the refresh job never stores, would break the order. */
  lemma NegativeRateBreaksTheOrder()
    ensures exists p: Price, q: Price, r: Price, fx: Rates ::
              AtMost(p, q, fx, "USD") && AtMost(q, r, fx, "USD") && !AtMost(p, r, fx, "USD")
  {
    var fx: Rates := map["BDT" := -1.0];
    var p, q, r := Tagged(Some(1.0), "BDT"), Tagged(Some(2.0), "BDT"), Tagged(Some(-1.5), "USD");
    SpellCurrencies();
    assert AtMost(p, q, fx, "USD") && AtMost(q, r, fx, "USD") && !AtMost(p, r, fx, "USD");
  }

  lemma SpellCurrencies()
    ensures Upper("BDT") == "BDT" && Upper("USD") == "USD"
  {
    assert "BDT"[1..] == "DT" && "DT"[1..] == "T" && "T"[1..] == "";
    assert "USD"[1..] == "SD" && "SD"[1..] == "D" && "D"[1..] == "";
    assert Upper("T") == "T" && Upper("DT") == "DT";
    assert Upper("D") == "D" && Upper("SD") == "SD";
  }

  function And(a: Option<bool>, b: Option<bool>): Option<bool> {
    match (a, b)
    case (None, _) => b
    case (_, None) => a
    case (Some(x), Some(y)) => Some(x && y)
  }

  /** BETWEEN is the conjunction of whichever bounds compare, undecided when neither does. */
  lemma BetweenIsBothBounds(price: Price, low: Price, high: Price, fx: Rates, base: string)
    ensures MoneyBetween(price, low, high, fx, base)
         == And(CompareMoney(Gte, price, low, fx, base), CompareMoney(Lte, price, high, fx, base))
    ensures MoneyBetween(price, low, high, fx, base).None? <==>
              !Comparable(price, low, fx, base) && !Comparable(price, high, fx, base)
  {}

  /** A stated range that is satisfied puts the price between its bounds in worth. */
  lemma BetweenBoundsTheWorth(price: Price, low: Price, high: Price, fx: Rates, base: string)
    requires PositiveRates(fx)
    requires Worth(price, fx, base).Some? && Worth(low, fx, base).Some? && Worth(high, fx, base).Some?
    ensures MoneyBetween(price, low, high, fx, base) ==
              Some(Worth(low, fx, base).value <= Worth(price, fx, base).value <= Worth(high, fx, base).value)
  {
    ShortcutAgreesWithConverting(low, price, fx, base);
    ShortcutAgreesWithConverting(price, high, fx, base);
    ComparisonIsAnOrder(price, low, high, fx, base);
    BetweenIsBothBounds(price, low, high, fx, base);
  }
}
