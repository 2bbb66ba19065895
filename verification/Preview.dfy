/** Counting what a draft rule set would do to the pool, after
    backend/app/modules/rules/preview.py. */
module Preview {
  import opened Wrappers
  import opened Rules
  import Scoring

  datatype Counts = Counts(evaluated: nat, eligible: nat, needsVerification: nat, ineligible: nat)
  datatype Notice = Notice(id: nat, facts: TenderFacts)
  datatype Sample = Sample(notice: nat, status: Eligibility, failing: seq<string>, unresolved: seq<string>)

  const ZERO := Counts(0, 0, 0, 0)

  // ----- specification ---------------------------------------------------

  function TallyVerdict(c: Counts, status: Eligibility): Counts {
    var d := c.(evaluated := c.evaluated + 1);
    match status
    case Eligible => d.(eligible := d.eligible + 1)
    case NeedsVerification => d.(needsVerification := d.needsVerification + 1)
    case Ineligible => d.(ineligible := d.ineligible + 1)
  }

  function TallyResult(c: Counts, status: Status): Counts {
    var d := c.(evaluated := c.evaluated + 1);
    match status
    case Pass => d.(eligible := d.eligible + 1)
    case Fail => d.(ineligible := d.ineligible + 1)
    case _ => d.(needsVerification := d.needsVerification + 1)
  }

  function Verdict(rules: seq<Rule>, n: Notice, ctx: Context): Eligibility {
    StatusOf(Evaluate(rules, n.facts, ctx))
  }

  function Totals(rules: seq<Rule>, pool: seq<Notice>, ctx: Context): Counts {
    if pool == [] then ZERO
    else
      var n := |pool| - 1;
      TallyVerdict(Totals(rules, pool[..n], ctx), Verdict(rules, pool[n], ctx))
  }

  function Bucket(rule: Rule, pool: seq<Notice>, ctx: Context): Counts {
    if pool == [] then ZERO
    else
      var n := |pool| - 1;
      TallyResult(Bucket(rule, pool[..n], ctx), EvaluateRule(rule, pool[n].facts, ctx).status)
  }

  function Ids(results: seq<RuleStatus>, failing: bool): seq<string> {
    if results == [] then []
    else (if (if failing then results[0].status == Fail else Unresolved(results[0])) then [results[0].ruleId] else [])
         + Ids(results[1..], failing)
  }

  function SampleOf(rules: seq<Rule>, n: Notice, ctx: Context): Sample {
    var results := Evaluate(rules, n.facts, ctx);
    Sample(n.id, StatusOf(results), Ids(results, true), Ids(results, false))
  }

  /** The first `size` notices the draft would exclude or flag. */
  function Samples(rules: seq<Rule>, pool: seq<Notice>, ctx: Context, size: nat): seq<Sample> {
    if pool == [] then []
    else
      var n := |pool| - 1;
      var before := Samples(rules, pool[..n], ctx, size);
      if Verdict(rules, pool[n], ctx) != Scoring.Eligible && |before| < size
      then before + [SampleOf(rules, pool[n], ctx)] else before
  }

  predicate DistinctIds(rules: seq<Rule>) {
    forall i, j :: 0 <= i < j < |rules| ==> rules[i].id != rules[j].id
  }

  function RuleIds(rules: seq<Rule>): set<string> {
    set r | r in rules :: r.id
  }

  // ----- the loops -------------------------------------------------------

  /** Add one notice's per-rule results to the buckets. */
  method CountResults(rules: seq<Rule>, results: seq<RuleStatus>, perRule: map<string, Counts>)
    returns (updated: map<string, Counts>)
    requires DistinctIds(rules) && |results| == |rules|
    requires forall i :: 0 <= i < |rules| ==> results[i].ruleId == rules[i].id && rules[i].id in perRule
    ensures updated.Keys == perRule.Keys
    ensures forall i :: 0 <= i < |rules| ==>
              updated[rules[i].id] == TallyResult(perRule[rules[i].id], results[i].status)
  {
    updated := perRule;
    for i := 0 to |results|
      invariant updated.Keys == perRule.Keys
      invariant forall j :: 0 <= j < i ==>
                  updated[rules[j].id] == TallyResult(perRule[rules[j].id], results[j].status)
      invariant forall j :: i <= j < |rules| ==> updated[rules[j].id] == perRule[rules[j].id]
    {
      var id := results[i].ruleId;
      if id in updated {
        updated := updated[id := TallyResult(updated[id], results[i].status)];
      }
    }
  }

  /** What one more notice adds to each number. */
  lemma OneMore(definition: seq<Rule>, active: seq<Rule>, pool: seq<Notice>, i: nat, ctx: Context, size: nat)
    requires i < |pool|
    ensures Totals(definition, pool[..i + 1], ctx)
         == TallyVerdict(Totals(definition, pool[..i], ctx), Verdict(definition, pool[i], ctx))
    ensures forall j :: 0 <= j < |active| ==>
              Bucket(active[j], pool[..i + 1], ctx)
              == TallyResult(Bucket(active[j], pool[..i], ctx), EvaluateRule(active[j], pool[i].facts, ctx).status)
    ensures var before := Samples(definition, pool[..i], ctx, size);
            Samples(definition, pool[..i + 1], ctx, size)
            == if Verdict(definition, pool[i], ctx) != Scoring.Eligible && |before| < size
               then before + [SampleOf(definition, pool[i], ctx)] else before
  {
    assert pool[..i + 1][..i] == pool[..i];
  }

  method RunPreview(definition: seq<Rule>, pool: seq<Notice>, ctx: Context, sampleSize: nat)
    returns (counts: Counts, perRule: map<string, Counts>, samples: seq<Sample>)
    requires DistinctIds(ActiveRules(definition))
    ensures counts == Totals(definition, pool, ctx)
    ensures perRule.Keys == RuleIds(ActiveRules(definition))
    ensures forall r :: r in ActiveRules(definition) ==> perRule[r.id] == Bucket(r, pool, ctx)
    ensures samples == Samples(definition, pool, ctx, sampleSize)
  {
    var active := ActiveRules(definition);
    counts, samples := ZERO, [];
    var ids := RuleIds(active);
    perRule := map id | id in ids :: ZERO;
    for i := 0 to |pool|
      invariant counts == Totals(definition, pool[..i], ctx)
      invariant perRule.Keys == RuleIds(active)
      invariant forall j :: 0 <= j < |active| ==> perRule[active[j].id] == Bucket(active[j], pool[..i], ctx)
      invariant samples == Samples(definition, pool[..i], ctx, sampleSize)
    {
      OneMore(definition, active, pool, i, ctx, sampleSize);
      var results := Evaluate(definition, pool[i].facts, ctx);
      var status := StatusOf(results);
      counts := TallyVerdict(counts, status);
      perRule := CountResults(active, results, perRule);
      if status != Scoring.Eligible && |samples| < sampleSize {
        samples := samples + [Sample(pool[i].id, status, Ids(results, true), Ids(results, false))];
      }
    }
    assert pool[..|pool|] == pool;
  }

  // ----- how the numbers relate ------------------------------------------

  function Sum(c: Counts): nat { c.eligible + c.needsVerification + c.ineligible }

  /** Every notice lands in one total and in one column of every bucket. */
  lemma CountsAddUp(rules: seq<Rule>, rule: Rule, pool: seq<Notice>, ctx: Context)
    ensures Totals(rules, pool, ctx).evaluated == Sum(Totals(rules, pool, ctx)) == |pool|
    ensures Bucket(rule, pool, ctx).evaluated == Sum(Bucket(rule, pool, ctx)) == |pool|
  {
    TotalsAddUp(rules, pool, ctx);
    BucketAddsUp(rule, pool, ctx);
  }

  lemma {:induction false} TotalsAddUp(rules: seq<Rule>, pool: seq<Notice>, ctx: Context)
    ensures Totals(rules, pool, ctx).evaluated == Sum(Totals(rules, pool, ctx)) == |pool|
  {
    if pool != [] {
      TotalsAddUp(rules, pool[..|pool| - 1], ctx);
    }
  }

  lemma {:induction false} BucketAddsUp(rule: Rule, pool: seq<Notice>, ctx: Context)
    ensures Bucket(rule, pool, ctx).evaluated == Sum(Bucket(rule, pool, ctx)) == |pool|
  {
    if pool != [] {
      BucketAddsUp(rule, pool[..|pool| - 1], ctx);
    }
  }

  /** What the hard rules reject between them, counted once per rule. */
  function RejectedByRules(rules: seq<Rule>, pool: seq<Notice>, ctx: Context): nat {
    if rules == [] then 0
    else (if rules[0].enabled && rules[0].severity == Hard then Bucket(rules[0], pool, ctx).ineligible else 0)
         + RejectedByRules(rules[1..], pool, ctx)
  }

  /** How many rules reject one notice. */
  function Rejecting(rules: seq<Rule>, n: Notice, ctx: Context): nat {
    if rules == [] then 0
    else (if Rejects(rules[0], n.facts, ctx) then 1 else 0) + Rejecting(rules[1..], n, ctx)
  }

  lemma {:induction false} RejectingIff(rules: seq<Rule>, n: Notice, ctx: Context)
    ensures Rejecting(rules, n, ctx) > 0 <==> AnyRejects(rules, n.facts, ctx)
  {
    if rules != [] {
      RejectingIff(rules[1..], n, ctx);
      AnySplits(rules, n.facts, ctx);
    }
  }

  lemma {:induction false} OneNoticeMore(rules: seq<Rule>, pool: seq<Notice>, ctx: Context)
    requires pool != []
    ensures RejectedByRules(rules, pool, ctx)
         == RejectedByRules(rules, pool[..|pool| - 1], ctx) + Rejecting(rules, pool[|pool| - 1], ctx)
  {
    if rules != [] {
      OneNoticeMore(rules[1..], pool, ctx);
      BucketStep(rules[0], pool, ctx);
    }
  }

  lemma BucketStep(rule: Rule, pool: seq<Notice>, ctx: Context)
    requires pool != []
    ensures var n := |pool| - 1;
            rule.enabled && rule.severity == Hard ==>
              Bucket(rule, pool, ctx).ineligible
              == Bucket(rule, pool[..n], ctx).ineligible + if Rejects(rule, pool[n].facts, ctx) then 1 else 0
  {}

  /** One more notice counts for a rule as met, as failed or as open: by what the rule finds, and
      where it finds nothing by what it says of that. */
  lemma BucketGrows(rule: Rule, pool: seq<Notice>, ctx: Context)
    requires pool != []
    ensures var n := |pool| - 1;
            var before, after := Bucket(rule, pool[..n], ctx), Bucket(rule, pool, ctx);
            var found := Finding(rule, pool[n].facts, ctx);
            && after.eligible == before.eligible
               + (if found == Some(true) || (found.None? && rule.onMissing == PassIt) then 1 else 0)
            && after.ineligible == before.ineligible
               + (if found == Some(false) || (found.None? && rule.onMissing == FailIt) then 1 else 0)
            && after.needsVerification == before.needsVerification
               + (if found.None? && rule.onMissing == Verify then 1 else 0)
  {}

  lemma TotalsStep(rules: seq<Rule>, pool: seq<Notice>, ctx: Context)
    requires pool != []
    ensures var n := |pool| - 1;
            Totals(rules, pool, ctx).ineligible
            == Totals(rules, pool[..n], ctx).ineligible + if AnyRejects(rules, pool[n].facts, ctx) then 1 else 0
  {
    VerdictIff(rules, pool[|pool| - 1].facts, ctx);
  }

  /** The pool loses at least what any one hard rule rejects. */
  lemma {:induction false} EachHardRuleIsALowerBound(rules: seq<Rule>, rule: Rule, pool: seq<Notice>, ctx: Context)
    requires rule in rules && rule.enabled && rule.severity == Hard
    ensures Bucket(rule, pool, ctx).ineligible <= Totals(rules, pool, ctx).ineligible
  {
    if pool != [] {
      EachHardRuleIsALowerBound(rules, rule, pool[..|pool| - 1], ctx);
      BucketStep(rule, pool, ctx);
      TotalsStep(rules, pool, ctx);
    }
  }

  /** And at most what the hard rules reject between them, with equality exactly when no
      notice is rejected twice. */
  lemma {:induction false} HardRulesAreAnUpperBound(rules: seq<Rule>, pool: seq<Notice>, ctx: Context)
    ensures Totals(rules, pool, ctx).ineligible <= RejectedByRules(rules, pool, ctx)
    ensures Totals(rules, pool, ctx).ineligible == RejectedByRules(rules, pool, ctx) <==>
              forall n :: n in pool ==> Rejecting(rules, n, ctx) <= 1
  {
    if pool == [] {
      NothingRejected(rules, ctx);
    } else {
      var last := |pool| - 1;
      HardRulesAreAnUpperBound(rules, pool[..last], ctx);
      OneNoticeMore(rules, pool, ctx);
      RejectingIff(rules, pool[last], ctx);
      TotalsStep(rules, pool, ctx);
      assert pool == pool[..last] + [pool[last]];
    }
  }

  lemma {:induction false} NothingRejected(rules: seq<Rule>, ctx: Context)
    ensures RejectedByRules(rules, [], ctx) == 0
  {
    if rules != [] {
      NothingRejected(rules[1..], ctx);
    }
  }

  // ----- what the samples show -------------------------------------------

  /** How many notices the draft would exclude or flag. */
  function Flagged(rules: seq<Rule>, pool: seq<Notice>, ctx: Context): nat {
    Totals(rules, pool, ctx).needsVerification + Totals(rules, pool, ctx).ineligible
  }

  lemma FlaggedStep(rules: seq<Rule>, pool: seq<Notice>, ctx: Context)
    requires pool != []
    ensures var n := |pool| - 1;
            Flagged(rules, pool, ctx)
            == Flagged(rules, pool[..n], ctx) + if Verdict(rules, pool[n], ctx) != Scoring.Eligible then 1 else 0
  {}

  /** As many samples as there are notices flagged, up to the size asked for. */
  lemma {:induction false} SamplesAreCounted(rules: seq<Rule>, pool: seq<Notice>, ctx: Context, size: nat)
    ensures var flagged := Flagged(rules, pool, ctx);
            |Samples(rules, pool, ctx, size)| == if flagged <= size then flagged else size
  {
    if pool != [] {
      SamplesAreCounted(rules, pool[..|pool| - 1], ctx, size);
      FlaggedStep(rules, pool, ctx);
    }
  }

  lemma SamplesGrow(rules: seq<Rule>, pool: seq<Notice>, ctx: Context, size: nat)
    requires pool != []
    ensures var n := |pool| - 1;
            var before, after := Samples(rules, pool[..n], ctx, size), Samples(rules, pool, ctx, size);
            && before <= after
            && (Verdict(rules, pool[n], ctx) != Scoring.Eligible && |before| < size ==>
                  after == before + [SampleOf(rules, pool[n], ctx)])
  {}

  lemma LastSample(rules: seq<Rule>, pool: seq<Notice>, ctx: Context, size: nat)
    requires pool != [] && Verdict(rules, pool[|pool| - 1], ctx) != Scoring.Eligible
    requires Flagged(rules, pool[..|pool| - 1], ctx) < size
    ensures var n := |pool| - 1;
            Samples(rules, pool, ctx, size) == Samples(rules, pool[..n], ctx, size) + [SampleOf(rules, pool[n], ctx)]
            && |Samples(rules, pool[..n], ctx, size)| == Flagged(rules, pool[..n], ctx)
  {
    SamplesAreCounted(rules, pool[..|pool| - 1], ctx, size);
    SamplesGrow(rules, pool, ctx, size);
  }

  lemma {:induction false} SamplesStay(rules: seq<Rule>, pool: seq<Notice>, ctx: Context, size: nat, m: nat)
    requires m <= |pool|
    ensures Samples(rules, pool[..m], ctx, size) <= Samples(rules, pool, ctx, size)
    decreases |pool| - m
  {
    if m == |pool| {
      assert pool[..m] == pool;
    } else {
      SamplesStay(rules, pool, ctx, size, m + 1);
      SamplesGrow(rules, pool[..m + 1], ctx, size);
      assert pool[..m + 1][..m] == pool[..m];
    }
  }

  /** A notice flagged as one of the first `size` is the sample at its turn. */
  lemma SampleAt(rules: seq<Rule>, pool: seq<Notice>, ctx: Context, size: nat, i: nat)
    requires i < |pool| && Verdict(rules, pool[i], ctx) != Scoring.Eligible && Flagged(rules, pool[..i], ctx) < size
    ensures var samples, k := Samples(rules, pool, ctx, size), Flagged(rules, pool[..i], ctx);
            k < |samples| && samples[k] == SampleOf(rules, pool[i], ctx)
  {
    assert pool[..i + 1][..i] == pool[..i];
    LastSample(rules, pool[..i + 1], ctx, size);
    SamplesStay(rules, pool, ctx, size, i + 1);
  }

  /** A rule in force that is false of a notice, or that nothing decides and that then fails. */
  predicate IsFailing(rule: Rule, n: Notice, ctx: Context) {
    && rule.enabled
    && match Finding(rule, n.facts, ctx)
       case Some(b) => !b
       case None => rule.onMissing == FailIt
  }

  /** A rule in force that nothing decides and that then asks, hard or soft. */
  predicate IsUnresolved(rule: Rule, n: Notice, ctx: Context) {
    rule.enabled && Finding(rule, n.facts, ctx).None? && rule.onMissing == Verify
  }

  lemma IdsCons(results: seq<RuleStatus>, failing: bool)
    requires results != []
    ensures Ids(results, failing) == Ids([results[0]], failing) + Ids(results[1..], failing)
  {}

  lemma {:induction false} IdsAppend(a: seq<RuleStatus>, b: seq<RuleStatus>, failing: bool)
    ensures Ids(a + b, failing) == Ids(a, failing) + Ids(b, failing)
  {
    if a == [] {
      assert a + b == b;
    } else {
      IdsAppend(a[1..], b, failing);
      assert (a + b)[1..] == a[1..] + b && (a + b)[0] == a[0];
      IdsCons(a, failing);
      IdsCons(a + b, failing);
    }
  }

  lemma IdsOfHead(rule: Rule, n: Notice, ctx: Context)
    ensures Ids(EvaluateHead(rule, n.facts, ctx), true) == if IsFailing(rule, n, ctx) then [rule.id] else []
    ensures Ids(EvaluateHead(rule, n.facts, ctx), false) == if IsUnresolved(rule, n, ctx) then [rule.id] else []
  {
    if rule.enabled {
      assert EvaluateHead(rule, n.facts, ctx)[1..] == [];
    }
  }

  predicate AnyFailing(rules: seq<Rule>, n: Notice, ctx: Context, id: string) {
    exists r :: r in rules && r.id == id && IsFailing(r, n, ctx)
  }

  predicate AnyUnresolved(rules: seq<Rule>, n: Notice, ctx: Context, id: string) {
    exists r :: r in rules && r.id == id && IsUnresolved(r, n, ctx)
  }

  lemma AnyIdSplits(rules: seq<Rule>, n: Notice, ctx: Context, id: string)
    requires rules != []
    ensures AnyFailing(rules, n, ctx, id)
            <==> (rules[0].id == id && IsFailing(rules[0], n, ctx)) || AnyFailing(rules[1..], n, ctx, id)
    ensures AnyUnresolved(rules, n, ctx, id)
            <==> (rules[0].id == id && IsUnresolved(rules[0], n, ctx)) || AnyUnresolved(rules[1..], n, ctx, id)
  {
    assert rules == [rules[0]] + rules[1..];
  }

  lemma {:induction false} IdsTell(rules: seq<Rule>, n: Notice, ctx: Context, id: string)
    ensures id in Ids(Evaluate(rules, n.facts, ctx), true) <==> AnyFailing(rules, n, ctx, id)
    ensures id in Ids(Evaluate(rules, n.facts, ctx), false) <==> AnyUnresolved(rules, n, ctx, id)
  {
    if rules != [] {
      var head, rest := EvaluateHead(rules[0], n.facts, ctx), Evaluate(rules[1..], n.facts, ctx);
      IdsTell(rules[1..], n, ctx, id);
      EvaluateSplits(rules, n.facts, ctx);
      IdsAppend(head, rest, true);
      IdsAppend(head, rest, false);
      IdsOfHead(rules[0], n, ctx);
      AnyIdSplits(rules, n, ctx, id);
    }
  }

  /** The samples are the first notices flagged, in the order of the pool: each names its notice,
      its verdict, the rules that fail it and the rules that cannot decide. */
  lemma SamplesTell(rules: seq<Rule>, pool: seq<Notice>, ctx: Context, size: nat, i: nat, id: string)
    requires i < |pool| && Verdict(rules, pool[i], ctx) != Scoring.Eligible && Flagged(rules, pool[..i], ctx) < size
    ensures var samples, k := Samples(rules, pool, ctx, size), Flagged(rules, pool[..i], ctx);
            && k < |samples| && samples[k].notice == pool[i].id
            && (samples[k].status == Scoring.Ineligible <==> AnyRejects(rules, pool[i].facts, ctx))
            && samples[k].status != Scoring.Eligible
            && (id in samples[k].failing <==> AnyFailing(rules, pool[i], ctx, id))
            && (id in samples[k].unresolved <==> AnyUnresolved(rules, pool[i], ctx, id))
  {
    SampleAt(rules, pool, ctx, size, i);
    VerdictIff(rules, pool[i].facts, ctx);
    IdsTell(rules, pool[i], ctx, id);
  }
}
