/** Deciding whether a company may bid, after backend/app/modules/rules/engine.py. Letters are
    those of ASCII where case is folded; moments are whole seconds. */
module Rules {
  import opened Wrappers
  import opened Money
  import Clock
  import EmbeddingText
  import Scoring

  type Eligibility = Scoring.Eligibility

  datatype Severity = Hard | Soft
  datatype OnMissing = Verify | PassIt | FailIt
  datatype AttributeType = MoneyType | IntegerType | ListType | BooleanType | TextType | DateType
  datatype AttributeSource = PortalMetadata | AiExtraction | Derived
  datatype Operator =
    | AtMostOp | AtLeastOp | Between | In | NotIn | Intersects | SubsetOf | Eq
    | ContainsAny | NotContains | WithinDays | After

  /** A stored value. `Nothing` is an answer; a fact that was never found is absent. */
  datatype Value =
    | Nothing
    | Number(number: real)
    | Amount(amount: Option<real>, currency: string)
    | Flag(flag: bool)
    | Text(text: string)
    | Texts(items: seq<string>)
    | Range(low: Option<Value>, high: Option<Value>)
    | Moment(at: int)
    | Days(days: Value)
    | DaysFromNow(days: Value)

  datatype Expected = ProfileField(field: string) | Literal(value: Value)

  datatype Rule = Rule(
    id: string, attribute: string, kind: AttributeType, source: AttributeSource, operator: Operator,
    expected: Expected, severity: Severity, onMissing: OnMissing, enabled: bool)

  datatype TenderFacts = TenderFacts(values: map<string, Value>, confidence: map<string, real>)
  datatype Context = Context(profile: map<string, Value>, fx: Rates, base: string, now: int)

  datatype Status = Pass | Fail | Unknown | Warn
  datatype RuleStatus = RuleStatus(ruleId: string, severity: Severity, status: Status, overridden: bool)

  const MIN_USABLE_CONFIDENCE := 0.5

  // ----- normalisation ---------------------------------------------------

  function AsPrice(v: Value): Price {
    match v
    case Number(x) => Bare(x)
    case Flag(b) => Bare(if b then 1.0 else 0.0)
    case Amount(x, currency) => Tagged(x, currency)
    case _ => NotMoney
  }

  function AsNumber(v: Value): Option<real> {
    match v
    case Number(x) => Some(x)
    case Flag(b) => Some(if b then 1.0 else 0.0)
    case _ => None
  }

  function AsList(v: Value): Option<seq<string>> {
    match v
    case Nothing => Some([])
    case Text(t) => Some([t])
    case Texts(items) => Some(items)
    case _ => None
  }

  predicate IsAlphanumeric(c: char) { '0' <= c <= '9' || 'a' <= c <= 'z' || 'A' <= c <= 'Z' }

  /** The label up to its first colon, alphanumerics only, in upper case. */
  function ComparisonKey(label_: string): string {
    if label_ == "" || label_[0] == ':' then ""
    else if IsAlphanumeric(label_[0]) then [UpperChar(label_[0])] + ComparisonKey(label_[1..])
    else ComparisonKey(label_[1..])
  }

  function Fold(items: seq<string>): set<string> {
    set x | x in items && x != "" :: ComparisonKey(x)
  }

  // ----- operators -------------------------------------------------------

  function Bound(v: Value, low: bool): Value {
    match v
    case Range(Some(l), _) => if low then l else (if v.high.Some? then v.high.value else Nothing)
    case Range(None, Some(h)) => if low then Nothing else h
    case _ => Nothing
  }

  function IntegerBetween(x: real, bounds: Value): Option<bool> {
    var low, high := AsNumber(Bound(bounds, true)), AsNumber(Bound(bounds, false));
    if low.None? && high.None? then None
    else if low.Some? && x < low.value then Some(false)
    else Some(!(high.Some? && x > high.value))
  }

  function CompareLists(operator: Operator, left: set<string>, right: set<string>): Option<bool> {
    match operator
    case In => Some(left != {} && left <= right)
    case NotIn => Some(left * right == {})
    case Intersects => Some(left == {} || left * right != {})
    case SubsetOf => Some(left <= right)
    case _ => None
  }

  function LowerChar(c: char): char {
    if 'A' <= c <= 'Z' then (c as int + 32) as char else c
  }

  function Lower(s: string): (r: string)
    ensures |r| == |s|
  {
    if s == "" then "" else [LowerChar(s[0])] + Lower(s[1..])
  }

  predicate Occurs(needle: string, text: string) {
    needle <= text || (text != "" && Occurs(needle, text[1..]))
  }

  /** Some term that is not blank occurs in the text, case aside. */
  predicate Mentions(text: string, terms: seq<string>) {
    exists t :: t in terms && EmbeddingText.Strip(t) != "" && Occurs(EmbeddingText.Strip(Lower(t)), Lower(text))
  }

  function CompareText(operator: Operator, actual: Value, expected: Value): Option<bool> {
    var terms := AsList(expected);
    if !actual.Text? || terms.None? || terms.value == [] then None
    else Some(Mentions(actual.text, terms.value) == (operator == ContainsAny))
  }

  function CompareDate(operator: Operator, actual: Value, expected: Value, now: int): Option<bool> {
    if !actual.Moment? then None
    else
      var left := (actual.at - now) as real;
      match operator
      case WithinDays =>
        (match AsNumber(if expected.Days? then expected.days else expected)
         case None => None
         case Some(days) => Some(0.0 <= left <= days * Clock.DAY as real))
      case After =>
        (match expected
         case DaysFromNow(d) =>
           (match AsNumber(d)
            case None => None
            case Some(days) => Some(left >= days * Clock.DAY as real))
         case Moment(at) => Some(actual.at > at)
         case _ => None)
      case _ => None
  }

  /** Apply one operator; None when it cannot decide. */
  function Compare(operator: Operator, kind: AttributeType, actual: Value, expected: Value,
      ctx: Context): Option<bool> {
    match kind
    case MoneyType =>
      if operator == Between
      then MoneyBetween(AsPrice(actual), AsPrice(Bound(expected, true)), AsPrice(Bound(expected, false)), ctx.fx,
          ctx.base)
      else CompareMoney(if operator == AtMostOp then Lte else Gte, AsPrice(actual), AsPrice(expected), ctx.fx, ctx.base)
    case IntegerType =>
      var x := AsNumber(actual);
      if x.None? then None
      else if operator == Between then IntegerBetween(x.value, expected)
      else
        var y := AsNumber(expected);
        if y.None? then None
        else Some(if operator == AtMostOp then x.value <= y.value else x.value >= y.value)
    case ListType =>
      var left, right := AsList(actual), AsList(expected);
      if left.None? || right.None? then None
      else CompareLists(operator, Fold(left.value), Fold(right.value))
    case BooleanType =>
      if actual.Flag? && expected.Flag? then Some(actual.flag == expected.flag) else None
    case TextType => CompareText(operator, actual, expected)
    case DateType => CompareDate(operator, actual, expected, ctx.now)
  }

  // ----- evaluation ------------------------------------------------------

  function ResolveExpected(rule: Rule, ctx: Context): Option<Value> {
    match rule.expected
    case ProfileField(f) => if f in ctx.profile then Some(ctx.profile[f]) else None
    case Literal(v) => Some(v)
  }

  function UnknownStatus(rule: Rule): RuleStatus {
    var status := match rule.onMissing
                  case PassIt => Pass
                  case FailIt => Fail
                  case Verify => if rule.severity == Soft then Warn else Unknown;
    RuleStatus(rule.id, rule.severity, status, false)
  }

  function EvaluateRule(rule: Rule, tender: TenderFacts, ctx: Context): (r: RuleStatus)
    ensures r.ruleId == rule.id && r.severity == rule.severity
  {
    if rule.attribute !in tender.values then UnknownStatus(rule)
    else if rule.source == AiExtraction && rule.attribute in tender.confidence
            && tender.confidence[rule.attribute] < MIN_USABLE_CONFIDENCE then UnknownStatus(rule)
    else
      var expected := ResolveExpected(rule, ctx);
      if expected.None? then UnknownStatus(rule)
      else
        match Compare(rule.operator, rule.kind, tender.values[rule.attribute], expected.value, ctx)
        case None => UnknownStatus(rule)
        case Some(b) => RuleStatus(rule.id, rule.severity, if b then Pass else Fail, false)
  }

  function ActiveRules(rules: seq<Rule>): seq<Rule> {
    if rules == [] then []
    else (if rules[0].enabled then [rules[0]] else []) + ActiveRules(rules[1..])
  }

  function EvaluateAll(rules: seq<Rule>, tender: TenderFacts, ctx: Context): (r: seq<RuleStatus>)
    ensures |r| == |rules|
    ensures forall i :: 0 <= i < |rules| ==> r[i] == EvaluateRule(rules[i], tender, ctx)
  {
    if rules == [] then []
    else [EvaluateRule(rules[0], tender, ctx)] + EvaluateAll(rules[1..], tender, ctx)
  }

  function Evaluate(rules: seq<Rule>, tender: TenderFacts, ctx: Context): seq<RuleStatus> {
    EvaluateAll(ActiveRules(rules), tender, ctx)
  }

  predicate HasHard(results: seq<RuleStatus>, status: Status) {
    exists r :: r in results && r.severity == Hard && r.status == status
  }

  function StatusOf(results: seq<RuleStatus>): Eligibility {
    if HasHard(results, Fail) then Scoring.Ineligible
    else if HasHard(results, Unknown) then Scoring.NeedsVerification
    else Scoring.Eligible
  }

  // ----- overrides -------------------------------------------------------

  type Overrides = map<string, bool>

  predicate Unresolved(r: RuleStatus) { r.status == Unknown || r.status == Warn }

  function Overrule(r: RuleStatus, overrides: Overrides): RuleStatus {
    if r.ruleId in overrides && Unresolved(r)
    then r.(status := if overrides[r.ruleId] then Pass else Fail, overridden := true)
    else r
  }

  function Overruled(results: seq<RuleStatus>, overrides: Overrides): (r: seq<RuleStatus>)
    ensures |r| == |results|
    ensures forall i :: 0 <= i < |r| ==> r[i] == Overrule(results[i], overrides)
  {
    if results == [] then [] else [Overrule(results[0], overrides)] + Overruled(results[1..], overrides)
  }

  method ApplyOverrides(evaluation: seq<RuleStatus>, overrides: Overrides) returns (r: seq<RuleStatus>)
    ensures r == Overruled(evaluation, overrides)
  {
    if overrides == map[] {
      return evaluation;
    }
    r := [];
    for i := 0 to |evaluation|
      invariant |r| == i && forall j :: 0 <= j < i ==> r[j] == Overrule(evaluation[j], overrides)
    {
      var result := evaluation[i];
      if result.ruleId !in overrides || !Unresolved(result) {
        r := r + [result];
      } else {
        r := r + [result.(status := if overrides[result.ruleId] then Pass else Fail, overridden := true)];
      }
    }
  }

  // ----- the status of a set ---------------------------------------------

  function Rank(e: Eligibility): int {
    match e case Eligible => 0 case NeedsVerification => 1 case Ineligible => 2
  }

  function Worse(a: Eligibility, b: Eligibility): Eligibility {
    if Rank(a) >= Rank(b) then a else b
  }

  /** What one result alone would decide. */
  function Severest(r: RuleStatus): Eligibility {
    if r.severity == Soft then Scoring.Eligible
    else match r.status
         case Fail => Scoring.Ineligible
         case Unknown => Scoring.NeedsVerification
         case _ => Scoring.Eligible
  }

  function WorstOf(results: seq<RuleStatus>): Eligibility {
    if results == [] then Scoring.Eligible else Worse(Severest(results[0]), WorstOf(results[1..]))
  }

  lemma HasHardSplits(a: seq<RuleStatus>, b: seq<RuleStatus>, status: Status)
    ensures HasHard(a + b, status) <==> HasHard(a, status) || HasHard(b, status)
  {
    if HasHard(a + b, status) {
      var r :| r in a + b && r.severity == Hard && r.status == status;
      assert r in a || r in b;
    }
    if HasHard(a, status) {
      var r :| r in a && r.severity == Hard && r.status == status;
      assert r in a + b;
    }
    if HasHard(b, status) {
      var r :| r in b && r.severity == Hard && r.status == status;
      assert r in a + b;
    }
  }

  /** Two sets together are worth the worse of the two. */
  lemma StatusOfConcatenation(a: seq<RuleStatus>, b: seq<RuleStatus>)
    ensures StatusOf(a + b) == Worse(StatusOf(a), StatusOf(b))
  {
    HasHardSplits(a, b, Fail);
    HasHardSplits(a, b, Unknown);
  }

  /** The status is the worst outcome among the hard rules. */
  lemma {:induction false} StatusIsWorst(results: seq<RuleStatus>)
    ensures StatusOf(results) == WorstOf(results)
  {
    if results != [] {
      StatusIsWorst(results[1..]);
      assert results == [results[0]] + results[1..];
      StatusOfConcatenation([results[0]], results[1..]);
      assert results[0] in [results[0]];
      assert StatusOf([results[0]]) == Severest(results[0]);
    }
  }

  /** What a rule finds before `onMissing` has its say. */
  function Finding(rule: Rule, tender: TenderFacts, ctx: Context): Option<bool> {
    if rule.attribute !in tender.values then None
    else if rule.source == AiExtraction && rule.attribute in tender.confidence
            && tender.confidence[rule.attribute] < MIN_USABLE_CONFIDENCE then None
    else match ResolveExpected(rule, ctx)
         case None => None
         case Some(v) => Compare(rule.operator, rule.kind, tender.values[rule.attribute], v, ctx)
  }

  predicate Rejects(rule: Rule, tender: TenderFacts, ctx: Context) {
    && rule.enabled && rule.severity == Hard
    && match Finding(rule, tender, ctx)
       case Some(b) => !b
       case None => rule.onMissing == FailIt
  }

  predicate Asks(rule: Rule, tender: TenderFacts, ctx: Context) {
    rule.enabled && rule.severity == Hard && Finding(rule, tender, ctx).None? && rule.onMissing == Verify
  }

  predicate AnyRejects(rules: seq<Rule>, tender: TenderFacts, ctx: Context) {
    exists r :: r in rules && Rejects(r, tender, ctx)
  }

  predicate AnyAsks(rules: seq<Rule>, tender: TenderFacts, ctx: Context) {
    exists r :: r in rules && Asks(r, tender, ctx)
  }

  function EvaluateHead(rule: Rule, tender: TenderFacts, ctx: Context): seq<RuleStatus> {
    if rule.enabled then [EvaluateRule(rule, tender, ctx)] else []
  }

  lemma EvaluateSplits(rules: seq<Rule>, tender: TenderFacts, ctx: Context)
    requires rules != []
    ensures Evaluate(rules, tender, ctx) == EvaluateHead(rules[0], tender, ctx) + Evaluate(rules[1..], tender, ctx)
  {
    if rules[0].enabled {
      assert ActiveRules(rules)[1..] == ActiveRules(rules[1..]);
    }
  }

  lemma OutcomeOf(rule: Rule, tender: TenderFacts, ctx: Context)
    ensures HasHard(EvaluateHead(rule, tender, ctx), Fail) <==> Rejects(rule, tender, ctx)
    ensures HasHard(EvaluateHead(rule, tender, ctx), Unknown) <==> Asks(rule, tender, ctx)
  {
    if rule.enabled {
      assert EvaluateRule(rule, tender, ctx) in EvaluateHead(rule, tender, ctx);
    }
  }

  lemma AnySplits(rules: seq<Rule>, tender: TenderFacts, ctx: Context)
    requires rules != []
    ensures AnyRejects(rules, tender, ctx) <==> Rejects(rules[0], tender, ctx) || AnyRejects(rules[1..], tender, ctx)
    ensures AnyAsks(rules, tender, ctx) <==> Asks(rules[0], tender, ctx) || AnyAsks(rules[1..], tender, ctx)
  {
    assert rules == [rules[0]] + rules[1..];
  }

  lemma {:induction false} HardIff(rules: seq<Rule>, tender: TenderFacts, ctx: Context)
    ensures HasHard(Evaluate(rules, tender, ctx), Fail) <==> AnyRejects(rules, tender, ctx)
    ensures HasHard(Evaluate(rules, tender, ctx), Unknown) <==> AnyAsks(rules, tender, ctx)
  {
    if rules != [] {
      var head, rest := EvaluateHead(rules[0], tender, ctx), Evaluate(rules[1..], tender, ctx);
      HardIff(rules[1..], tender, ctx);
      AnySplits(rules, tender, ctx);
      EvaluateSplits(rules, tender, ctx);
      OutcomeOf(rules[0], tender, ctx);
      HasHardSplits(head, rest, Fail);
      HasHardSplits(head, rest, Unknown);
    }
  }

  /** A tender is ineligible exactly when some enabled hard rule is found false, or cannot be
      decided and says to fail; it is for a human exactly when none rejects and some asks. */
  lemma VerdictIff(rules: seq<Rule>, tender: TenderFacts, ctx: Context)
    ensures var status := StatusOf(Evaluate(rules, tender, ctx));
            && (status == Scoring.Ineligible <==> AnyRejects(rules, tender, ctx))
            && (status == Scoring.NeedsVerification <==>
                  !AnyRejects(rules, tender, ctx) && AnyAsks(rules, tender, ctx))
  {
    HardIff(rules, tender, ctx);
  }

  /** Two rule sets with the same enabled hard rules give the same verdict, in any order and
      whatever soft or disabled rules they carry. */
  lemma OnlyEnabledHardRulesCount(a: seq<Rule>, b: seq<Rule>, tender: TenderFacts, ctx: Context)
    requires forall r: Rule :: r.enabled && r.severity == Hard ==> (r in a <==> r in b)
    ensures StatusOf(Evaluate(a, tender, ctx)) == StatusOf(Evaluate(b, tender, ctx))
  {
    VerdictIff(a, tender, ctx);
    VerdictIff(b, tender, ctx);
    assert AnyRejects(a, tender, ctx) <==> AnyRejects(b, tender, ctx);
    assert AnyAsks(a, tender, ctx) <==> AnyAsks(b, tender, ctx);
  }

  // ----- what the operators mean -----------------------------------------

  /** On a list that says something, In is SubsetOf and NotIn is the opposite of Intersects; one
      that says nothing is in nothing, and otherwise restricts nobody. */
  lemma ListOperatorsRelate(left: set<string>, right: set<string>)
    ensures left != {} ==>
              && CompareLists(In, left, right) == CompareLists(SubsetOf, left, right)
              && (CompareLists(NotIn, left, right) == Some(true)
                  <==> CompareLists(Intersects, left, right) == Some(false))
              && (CompareLists(In, left, right) == Some(true) ==> CompareLists(Intersects, left, right) == Some(true))
    ensures left == {} ==>
              && CompareLists(In, left, right) == Some(false)
              && (forall op :: op in {NotIn, Intersects, SubsetOf} ==> CompareLists(op, left, right) == Some(true))
  {
    if left != {} && left <= right {
      var x :| x in left;
      assert x in left * right;
    }
  }

  /** A number lies in a range when it passes each bound there is; a range without any is no
      answer. */
  lemma IntegerBetweenIsBothBounds(x: real, low: Option<real>, high: Option<real>)
    ensures var bounds := Range(if low.Some? then Some(Number(low.value)) else None,
                                if high.Some? then Some(Number(high.value)) else None);
            && (IntegerBetween(x, bounds).None? <==> low.None? && high.None?)
            && (IntegerBetween(x, bounds) == Some(true) <==>
                  && (low.Some? || high.Some?)
                  && (low.Some? ==> low.value <= x) && (high.Some? ==> x <= high.value))
  {}

  /** Numbers, amounts of one currency and dates: the notice's value is on the left of the operator. */
  lemma OperatorsPointAtTheNotice(x: real, y: real, currency: string, at: int, date: int, ctx: Context)
    ensures Compare(AtMostOp, IntegerType, Number(x), Number(y), ctx) == Some(x <= y)
    ensures Compare(AtLeastOp, IntegerType, Number(x), Number(y), ctx) == Some(x >= y)
    ensures var actual, expected := Value.Amount(Some(x), currency), Value.Amount(Some(y), currency);
            && Compare(AtMostOp, MoneyType, actual, expected, ctx) == Some(x <= y)
            && Compare(AtLeastOp, MoneyType, actual, expected, ctx) == Some(x >= y)
    ensures Compare(After, DateType, Moment(at), Moment(date), ctx) == Some(at > date)
    ensures Compare(After, DateType, Moment(at), DaysFromNow(Number(x)), ctx)
         == Some(ctx.now as real + x * 86400.0 <= at as real)
    ensures Compare(WithinDays, DateType, Moment(at), Days(Number(x)), ctx)
         == Some(ctx.now <= at && at as real <= ctx.now as real + x * 86400.0)
  {}

  function AtBound(operator: Operator, kind: AttributeType, actual: Value, bound: Option<Value>,
      ctx: Context): Option<bool> {
    if bound.None? then None else Compare(operator, kind, actual, bound.value, ctx)
  }

  /** For numbers and money alike, a range asks at least its low end and at most its high one, of
      those ends that compare. */
  lemma BetweenIsBothOperators(kind: AttributeType, actual: Value, low: Option<Value>, high: Option<Value>,
      ctx: Context)
    requires kind == MoneyType || kind == IntegerType
    ensures Compare(Between, kind, actual, Range(low, high), ctx)
         == And(AtBound(AtLeastOp, kind, actual, low, ctx), AtBound(AtMostOp, kind, actual, high, ctx))
  {
    if kind == MoneyType {
      var l, h := Bound(Range(low, high), true), Bound(Range(low, high), false);
      BetweenIsBothBounds(AsPrice(actual), AsPrice(l), AsPrice(h), ctx.fx, ctx.base);
    }
  }

  lemma {:induction false} KeyOfConcatenation(a: string, b: string)
    requires ':' !in a
    ensures ComparisonKey(a + b) == ComparisonKey(a) + ComparisonKey(b)
  {
    if a == "" {
      assert a + b == b;
    } else {
      KeyOfConcatenation(a[1..], b);
      assert (a + b)[1..] == a[1..] + b && (a + b)[0] == a[0];
    }
  }

  lemma {:induction false} KeyIgnoresCase(a: string)
    ensures ComparisonKey(Lower(a)) == ComparisonKey(a)
  {
    if a != "" {
      KeyIgnoresCase(a[1..]);
      assert Lower(a)[1..] == Lower(a[1..]) && Lower(a)[0] == LowerChar(a[0]);
    }
  }

  /** Labels are read whatever their case and what follows their first colon. */
  lemma KeyReads(a: string, b: string)
    requires ':' !in a
    ensures ComparisonKey(a + (":" + b)) == ComparisonKey(a) == ComparisonKey(Lower(a))
  {
    KeyOfConcatenation(a, ":" + b);
    KeyIgnoresCase(a);
  }

  lemma {:induction false} KeyIsEmptyIff(a: string)
    requires ':' !in a
    ensures ComparisonKey(a) == "" <==> forall c :: c in a ==> !IsAlphanumeric(c)
  {
    if a != "" {
      KeyIsEmptyIff(a[1..]);
      assert a == [a[0]] + a[1..];
    }
  }

  /** A label is listed when one that is not blank reads the same. */
  predicate Listed(x: string, items: seq<string>) {
    exists y :: y in items && y != "" && ComparisonKey(x) == ComparisonKey(y)
  }

  predicate SaysSomething(items: seq<string>) { exists x :: x in items && x != "" }

  predicate AllListed(actual: seq<string>, expected: seq<string>) {
    forall x :: x in actual && x != "" ==> Listed(x, expected)
  }

  predicate AnyListed(actual: seq<string>, expected: seq<string>) {
    exists x :: x in actual && x != "" && Listed(x, expected)
  }

  lemma FoldIff(x: string, items: seq<string>)
    ensures ComparisonKey(x) in Fold(items) <==> Listed(x, items)
  {}

  lemma FoldIsEmptyIff(items: seq<string>)
    ensures Fold(items) == {} <==> !SaysSomething(items)
  {
    forall x | x in items && x != "" ensures ComparisonKey(x) in Fold(items) {}
  }

  lemma SubsetIff(actual: seq<string>, expected: seq<string>)
    ensures Fold(actual) <= Fold(expected) <==> AllListed(actual, expected)
  {
    forall x | x in actual && x != ""
      ensures ComparisonKey(x) in Fold(actual) && (ComparisonKey(x) in Fold(expected) <==> Listed(x, expected))
    {
      FoldIff(x, expected);
    }
  }

  lemma DisjointIff(actual: seq<string>, expected: seq<string>)
    ensures Fold(actual) * Fold(expected) == {} <==> !AnyListed(actual, expected)
  {
    forall x | x in actual && x != "" && Listed(x, expected)
      ensures ComparisonKey(x) in Fold(actual) * Fold(expected)
    {
      FoldIff(x, expected);
    }
    forall k | k in Fold(actual) * Fold(expected) ensures AnyListed(actual, expected) {
      var x :| x in actual && x != "" && ComparisonKey(x) == k;
      FoldIff(x, expected);
    }
  }

  /** The notice's labels are those looked up in the expected list: all of them for subset-of and
      in, any of them for intersects, none for not-in. */
  lemma ListsAreLookedUp(actual: seq<string>, expected: seq<string>, ctx: Context)
    ensures var left, right := Texts(actual), Texts(expected);
            var says, all, any := SaysSomething(actual), AllListed(actual, expected), AnyListed(actual, expected);
            && Compare(SubsetOf, ListType, left, right, ctx) == Some(all)
            && Compare(In, ListType, left, right, ctx) == Some(says && all)
            && Compare(Intersects, ListType, left, right, ctx) == Some(!says || any)
            && Compare(NotIn, ListType, left, right, ctx) == Some(!any)
  {
    FoldIsEmptyIff(actual);
    SubsetIff(actual, expected);
    DisjointIff(actual, expected);
  }

  /** Somewhere in the text. */
  predicate StandsIn(needle: string, text: string) { exists i :: 0 <= i <= |text| && needle <= text[i..] }

  lemma {:induction false} OccursIff(needle: string, text: string)
    ensures Occurs(needle, text) <==> StandsIn(needle, text)
  {
    if needle <= text {
      assert text[0..] == text;
    } else if text != "" {
      OccursIff(needle, text[1..]);
      forall i | 0 <= i <= |text| && needle <= text[i..] ensures StandsIn(needle, text[1..]) {
        assert i > 0 && text[i..] == text[1..][i - 1..];
      }
      if StandsIn(needle, text[1..]) {
        var i :| 0 <= i <= |text[1..]| && needle <= text[1..][i..];
        assert text[1..][i..] == text[i + 1..];
      }
    }
  }

  lemma MentionsOne(text: string, term: string)
    requires EmbeddingText.Strip(term) != ""
    ensures Mentions(text, [term]) <==> Occurs(EmbeddingText.Strip(Lower(term)), Lower(text))
  {
    assert term in [term];
  }

  lemma {:induction false} LowerIgnoresCase(s: string)
    ensures Lower(Upper(s)) == Lower(s) == Lower(Lower(s))
  {
    if s != "" {
      LowerIgnoresCase(s[1..]);
      assert Upper(s)[1..] == Upper(s[1..]) && Lower(s)[1..] == Lower(s[1..]);
    }
  }

  /** A text contains a term exactly when the stripped term stands somewhere in it, capitals or not. */
  lemma ContainsIff(text: string, term: string)
    requires EmbeddingText.Strip(term) != ""
    ensures CompareText(ContainsAny, Text(text), Texts([term]))
         == Some(StandsIn(EmbeddingText.Strip(Lower(term)), Lower(text)))
  {
    MentionsOne(text, term);
    OccursIff(EmbeddingText.Strip(Lower(term)), Lower(text));
  }

  lemma TextIgnoresCase(text: string, terms: seq<string>)
    ensures CompareText(ContainsAny, Text(Upper(text)), Texts(terms)) == CompareText(ContainsAny, Text(text),
        Texts(terms))
  {
    LowerIgnoresCase(text);
  }

  /** Text either mentions a term or does not: exactly one of the two operators holds once there
      are terms, and adding terms only helps the first. */
  lemma TextOperatorsAreOpposite(text: string, terms: seq<string>, more: seq<string>)
    requires terms != []
    ensures var has := CompareText(ContainsAny, Text(text), Texts(terms));
            && CompareText(NotContains, Text(text), Texts(terms)) == Some(has != Some(true))
            && (has == Some(true) ==> CompareText(ContainsAny, Text(text), Texts(terms + more)) == Some(true))
  {
    if Mentions(text, terms) {
      var t :| t in terms && EmbeddingText.Strip(t) != "" && Occurs(EmbeddingText.Strip(Lower(t)), Lower(text));
      assert t in terms + more;
    }
  }

  /** As the clock moves on, enough days left can only turn false, and a date within reach can
      only drop out by passing. */
  lemma DateRulesAge(at: int, days: real, earlier: int, later: int)
    requires earlier <= later
    ensures CompareDate(After, Moment(at), DaysFromNow(Number(days)), later) == Some(true)
            ==> CompareDate(After, Moment(at), DaysFromNow(Number(days)), earlier) == Some(true)
    ensures CompareDate(WithinDays, Moment(at), Days(Number(days)), earlier) == Some(true)
            ==> (CompareDate(WithinDays, Moment(at), Days(Number(days)), later) == Some(true) <==> later <= at)
  {}

  /** Of two instants in order, just one lies in [low, high]: exactly one of its ends was passed. */
  predicate CrossesOneEnd(low: real, high: real, earlier: int, later: int) {
    && low <= high
    && (earlier as real < low <= later as real) != (earlier as real <= high < later as real)
  }

  /** The date a rule reads off a notice, when it is stated and believed. */
  function DateOf(rule: Rule, tender: TenderFacts): Option<int> {
    if rule.attribute !in tender.values then None
    else if rule.source == AiExtraction && rule.attribute in tender.confidence
            && tender.confidence[rule.attribute] < MIN_USABLE_CONFIDENCE then None
    else if !tender.values[rule.attribute].Moment? then None
    else Some(tender.values[rule.attribute].at)
  }

  /** Between two instants in order an enabled date rule passes from one side of its boundary to
      the other: `at - days` and `at` bound WithinDays, `at - days` alone After, and a fixed date
      has none. */
  predicate Turns(rule: Rule, tender: TenderFacts, ctx: Context, earlier: int, later: int) {
    && rule.enabled && rule.kind == DateType
    && DateOf(rule, tender).Some? && ResolveExpected(rule, ctx).Some?
    && var at, expected := DateOf(rule, tender).value, ResolveExpected(rule, ctx).value;
    match rule.operator
    case WithinDays =>
      var days := AsNumber(if expected.Days? then expected.days else expected);
      days.Some? && CrossesOneEnd(at as real - days.value * Clock.DAY as real, at as real, earlier, later)
    case After =>
      && expected.DaysFromNow? && AsNumber(expected.days).Some?
      && earlier as real <= at as real - AsNumber(expected.days).value * Clock.DAY as real < later as real
    case _ => false
  }

  /** The rule does not turn between two instants, in whichever order they come. */
  predicate Stands(rule: Rule, tender: TenderFacts, ctx: Context, now: int) {
    if ctx.now <= now then !Turns(rule, tender, ctx, ctx.now, now) else !Turns(rule, tender, ctx, now, ctx.now)
  }

  predicate StandsStill(rules: seq<Rule>, tender: TenderFacts, ctx: Context, now: int) {
    forall r :: r in rules ==> Stands(r, tender, ctx, now)
  }

  lemma RuleStandsIff(rule: Rule, tender: TenderFacts, ctx: Context, now: int)
    requires rule.enabled && ctx.now <= now
    ensures EvaluateRule(rule, tender, ctx) == EvaluateRule(rule, tender, ctx.(now := now))
            <==> !Turns(rule, tender, ctx, ctx.now, now)
  {
    if rule.kind == DateType && DateOf(rule, tender).Some? && ResolveExpected(rule, ctx).Some? {
      DateStandsIff(rule, tender, ctx, now);
    }
  }

  lemma DateStandsIff(rule: Rule, tender: TenderFacts, ctx: Context, now: int)
    requires rule.enabled && rule.kind == DateType && ctx.now <= now
    requires DateOf(rule, tender).Some? && ResolveExpected(rule, ctx).Some?
    ensures var actual, expected := tender.values[rule.attribute], ResolveExpected(rule, ctx).value;
            CompareDate(rule.operator, actual, expected, ctx.now) == CompareDate(rule.operator, actual, expected, now)
            <==> !Turns(rule, tender, ctx, ctx.now, now)
  {}

  lemma TurningIgnoresTheClock(rule: Rule, tender: TenderFacts, ctx: Context, now: int, earlier: int, later: int)
    ensures Turns(rule, tender, ctx.(now := now), earlier, later) == Turns(rule, tender, ctx, earlier, later)
  {}

  lemma RuleStandsEitherWay(rule: Rule, tender: TenderFacts, ctx: Context, now: int)
    requires rule.enabled
    ensures EvaluateRule(rule, tender, ctx) == EvaluateRule(rule, tender, ctx.(now := now))
            <==> Stands(rule, tender, ctx, now)
  {
    if ctx.now <= now {
      RuleStandsIff(rule, tender, ctx, now);
    } else {
      RuleStandsIff(rule, tender, ctx.(now := now), ctx.now);
      TurningIgnoresTheClock(rule, tender, ctx, now, now, ctx.now);
      assert ctx.(now := now).(now := ctx.now) == ctx;
    }
  }

  lemma StandingSplits(rules: seq<Rule>, tender: TenderFacts, ctx: Context, now: int)
    requires rules != []
    ensures StandsStill(rules, tender, ctx, now)
            <==> Stands(rules[0], tender, ctx, now) && StandsStill(rules[1..], tender, ctx, now)
  {
    assert rules == [rules[0]] + rules[1..];
  }

  lemma HeadStandsIff(rule: Rule, tender: TenderFacts, ctx: Context, now: int)
    ensures EvaluateHead(rule, tender, ctx) == EvaluateHead(rule, tender, ctx.(now := now))
            <==> Stands(rule, tender, ctx, now)
  {
    if rule.enabled {
      RuleStandsEitherWay(rule, tender, ctx, now);
      assert EvaluateHead(rule, tender, ctx)[0] == EvaluateRule(rule, tender, ctx);
      assert EvaluateHead(rule, tender, ctx.(now := now))[0] == EvaluateRule(rule, tender, ctx.(now := now));
    }
  }

  /** An evaluation is the same at two instants exactly when no enabled date rule turns between
      them. */
  lemma {:induction false} EvaluationStandsIff(rules: seq<Rule>, tender: TenderFacts, ctx: Context, now: int)
    ensures Evaluate(rules, tender, ctx) == Evaluate(rules, tender, ctx.(now := now))
            <==> StandsStill(rules, tender, ctx, now)
  {
    if rules != [] {
      EvaluationStandsIff(rules[1..], tender, ctx, now);
      HeadStandsIff(rules[0], tender, ctx, now);
      StandingSplits(rules, tender, ctx, now);
      EvaluateSplits(rules, tender, ctx);
      EvaluateSplits(rules, tender, ctx.(now := now));
      ConcatenationsEqualIff(EvaluateHead(rules[0], tender, ctx), Evaluate(rules[1..], tender, ctx),
                             EvaluateHead(rules[0], tender, ctx.(now := now)), Evaluate(rules[1..], tender,
                                 ctx.(now := now)));
    }
  }

  lemma ConcatenationsEqualIff(a: seq<RuleStatus>, b: seq<RuleStatus>, c: seq<RuleStatus>, d: seq<RuleStatus>)
    requires |a| == |c|
    ensures a + b == c + d <==> a == c && b == d
  {
    assert a == (a + b)[..|a|] && b == (a + b)[|a|..];
    assert c == (c + d)[..|a|] && d == (c + d)[|a|..];
  }

  // ----- what a human may change -----------------------------------------

  /** Ruling twice is ruling once, and no decided result is touched. */
  lemma OverridesAreIdempotent(results: seq<RuleStatus>, overrides: Overrides)
    ensures Overruled(Overruled(results, overrides), overrides) == Overruled(results, overrides)
    ensures forall i :: 0 <= i < |results| && !Unresolved(results[i]) ==> Overruled(results, overrides)[i] == results[i]
  {
    var once := Overruled(results, overrides);
    forall i | 0 <= i < |results| ensures Overruled(once, overrides)[i] == once[i] {}
  }

  predicate LeftOpen(results: seq<RuleStatus>, overrides: Overrides) {
    exists r :: r in results && r.severity == Hard && r.status == Unknown && r.ruleId !in overrides
  }

  /** The engine warns about soft rules only and asks about hard ones only. */
  predicate FromEngine(results: seq<RuleStatus>) {
    forall r :: r in results ==> r.status != if r.severity == Hard then Warn else Unknown
  }

  lemma {:induction false} EvaluateIsFromEngine(rules: seq<Rule>, tender: TenderFacts, ctx: Context)
    ensures FromEngine(Evaluate(rules, tender, ctx))
  {
    if rules != [] {
      EvaluateIsFromEngine(rules[1..], tender, ctx);
      EvaluateSplits(rules, tender, ctx);
    }
  }

  lemma {:induction false} OverruledSplits(results: seq<RuleStatus>, overrides: Overrides)
    requires FromEngine(results)
    ensures HasHard(Overruled(results, overrides), Unknown) <==> LeftOpen(results, overrides)
    ensures HasHard(results, Fail) ==> HasHard(Overruled(results, overrides), Fail)
    ensures HasHard(Overruled(results, overrides), Fail) ==> HasHard(results, Fail) || HasHard(results, Unknown)
  {
    if results != [] {
      var head, rest := [results[0]], results[1..];
      assert results == head + rest;
      OverruledSplits(rest, overrides);
      assert Overruled(results, overrides) == [Overrule(results[0], overrides)] + Overruled(rest, overrides);
      assert results[0] in results && Overrule(results[0], overrides) in [Overrule(results[0], overrides)];
      HasHardSplits([Overrule(results[0], overrides)], Overruled(rest, overrides), Unknown);
      HasHardSplits([Overrule(results[0], overrides)], Overruled(rest, overrides), Fail);
      HasHardSplits(head, rest, Unknown);
      HasHardSplits(head, rest, Fail);
      assert results[0] in head;
    }
  }

  /** After rulings a verdict still needs verification exactly when nothing hard fails and a
      hard question is left without a ruling; no ruling rescues what a rule rejected, and none
      spoils a tender that was eligible. */
  lemma OverridesSettleIff(rules: seq<Rule>, tender: TenderFacts, ctx: Context, overrides: Overrides)
    ensures var results := Evaluate(rules, tender, ctx);
            var ruled := Overruled(results, overrides);
            && (StatusOf(ruled) == Scoring.NeedsVerification <==>
                  !HasHard(ruled, Fail) && LeftOpen(results, overrides))
            && (StatusOf(results) == Scoring.Ineligible ==> StatusOf(ruled) == Scoring.Ineligible)
            && (StatusOf(results) == Scoring.Eligible ==> StatusOf(ruled) == Scoring.Eligible)
  {
    EvaluateIsFromEngine(rules, tender, ctx);
    OverruledSplits(Evaluate(rules, tender, ctx), overrides);
  }

  /** A hard rule that is false once a human has ruled. */
  predicate RejectsRuled(rule: Rule, tender: TenderFacts, ctx: Context, overrides: Overrides) {
    Rejects(rule, tender, ctx) || (Asks(rule, tender, ctx) && rule.id in overrides && !overrides[rule.id])
  }

  /** A hard rule nobody has ruled on. */
  predicate AsksStill(rule: Rule, tender: TenderFacts, ctx: Context, overrides: Overrides) {
    Asks(rule, tender, ctx) && rule.id !in overrides
  }

  lemma OverruledAppend(a: seq<RuleStatus>, b: seq<RuleStatus>, overrides: Overrides)
    ensures Overruled(a + b, overrides) == Overruled(a, overrides) + Overruled(b, overrides)
  {}

  lemma RuledOutcomeOf(rule: Rule, tender: TenderFacts, ctx: Context, overrides: Overrides)
    ensures var ruled := Overruled(EvaluateHead(rule, tender, ctx), overrides);
            && (HasHard(ruled, Fail) <==> RejectsRuled(rule, tender, ctx, overrides))
            && (HasHard(ruled, Unknown) <==> AsksStill(rule, tender, ctx, overrides))
  {
    if rule.enabled {
      var ruled := Overruled(EvaluateHead(rule, tender, ctx), overrides);
      assert ruled == [Overrule(EvaluateRule(rule, tender, ctx), overrides)];
      assert ruled[0] in ruled;
    }
  }

  predicate AnyRejectsRuled(rules: seq<Rule>, tender: TenderFacts, ctx: Context, overrides: Overrides) {
    exists r :: r in rules && RejectsRuled(r, tender, ctx, overrides)
  }

  predicate AnyAsksStill(rules: seq<Rule>, tender: TenderFacts, ctx: Context, overrides: Overrides) {
    exists r :: r in rules && AsksStill(r, tender, ctx, overrides)
  }

  lemma AnyRuledSplits(rules: seq<Rule>, tender: TenderFacts, ctx: Context, overrides: Overrides)
    requires rules != []
    ensures AnyRejectsRuled(rules, tender, ctx, overrides)
            <==> RejectsRuled(rules[0], tender, ctx, overrides) || AnyRejectsRuled(rules[1..], tender, ctx, overrides)
    ensures AnyAsksStill(rules, tender, ctx, overrides)
            <==> AsksStill(rules[0], tender, ctx, overrides) || AnyAsksStill(rules[1..], tender, ctx, overrides)
  {
    assert rules == [rules[0]] + rules[1..];
  }

  lemma {:induction false} RuledHardIff(rules: seq<Rule>, tender: TenderFacts, ctx: Context, overrides: Overrides)
    ensures var ruled := Overruled(Evaluate(rules, tender, ctx), overrides);
            && (HasHard(ruled, Fail) <==> AnyRejectsRuled(rules, tender, ctx, overrides))
            && (HasHard(ruled, Unknown) <==> AnyAsksStill(rules, tender, ctx, overrides))
  {
    if rules != [] {
      var head, rest := EvaluateHead(rules[0], tender, ctx), Evaluate(rules[1..], tender, ctx);
      RuledHardIff(rules[1..], tender, ctx, overrides);
      EvaluateSplits(rules, tender, ctx);
      OverruledAppend(head, rest, overrides);
      RuledOutcomeOf(rules[0], tender, ctx, overrides);
      HasHardSplits(Overruled(head, overrides), Overruled(rest, overrides), Fail);
      HasHardSplits(Overruled(head, overrides), Overruled(rest, overrides), Unknown);
      AnyRuledSplits(rules, tender, ctx, overrides);
    }
  }

  /** With rulings: ineligible exactly when some enabled hard rule rejects, or asks and is ruled
      false; for a human exactly when none does and some asks without a ruling. */
  lemma RuledVerdictIff(rules: seq<Rule>, tender: TenderFacts, ctx: Context, overrides: Overrides)
    ensures var status := StatusOf(Overruled(Evaluate(rules, tender, ctx), overrides));
            && (status == Scoring.Ineligible <==> AnyRejectsRuled(rules, tender, ctx, overrides))
            && (status == Scoring.NeedsVerification <==>
                  !AnyRejectsRuled(rules, tender, ctx, overrides) && AnyAsksStill(rules, tender, ctx, overrides))
  {
    RuledHardIff(rules, tender, ctx, overrides);
  }
}
