/** Whole runs of edits and match calls for one organization and one tender: when skipping is
    as good as rescoring, and what the stored row always satisfies. */
module MatchingLaws {
  import opened Wrappers
  import opened Scoring
  import opened Matching
  import Extractions
  import Rules

  /** Every version ever written is kept: profile version v is `profiles[v - 1]`, a rule set
      version or extraction is named by its position, and thresholds are numbered from one.
      `basis` remembers what the fingerprint does not name, as of the latest scoring. */
  datatype World = World(
    profiles: seq<Facts>,
    ruleVersions: seq<seq<Rules.Rule>>, rulesInForce: Option<nat>,
    extractions: seq<Extractions.Row>,
    configs: seq<Thresholds>,
    contentHash: Hex, deadline: Option<int>, offset: int, isOpen: bool,
    ambient: Ambient, stored: Stored, basis: Option<Basis>)

  datatype Basis = Basis(configs: nat, ambient: Ambient, at: int)

  datatype Step =
    | EditProfile(facts: Facts)
    | SaveRules(rules: seq<Rules.Rule>)
    | ActivateRules(version: nat)
    | Extract(attempt: Extractions.Attempt)
    | Ingest(contentHash: Hex, deadline: Option<int>, isOpen: bool)
    | CloseTender
    | Calibrate(gradeS: real, gradeA: real, gradeB: real)
    | Drift(ambient: Ambient)
    | MatchNow(model: string, now: int, force: bool)
    | AgeUrgency(now: int)

  /** The thresholds in force: the latest stored row, else the defaults. */
  function InForce(configs: seq<Thresholds>): Thresholds {
    if configs == [] then DEFAULT_THRESHOLDS else configs[|configs| - 1]
  }

  /** Fitted thresholds are stored only in order; the first row is numbered 1 like the defaults. */
  function Calibrated(configs: seq<Thresholds>, s: real, a: real, b: real): seq<Thresholds> {
    if !(b < a < s) then configs
    else configs + [DEFAULT_THRESHOLDS.(
      gradeS := s, gradeA := a, gradeB := b,
      version := if configs == [] then 1 else InForce(configs).version + 1)]
  }

  function KeyOf(w: World, model: string): Key {
    Key(|w.profiles|, w.rulesInForce, Extractions.Current(w.extractions), model,
        InForce(w.configs).version, w.contentHash)
  }

  predicate InRange(w: World, k: Key) {
    && 0 < k.profileVersion <= |w.profiles|
    && (k.rules.Some? ==> k.rules.value < |w.ruleVersions|)
    && (k.extraction.Some? ==> k.extraction.value < |w.extractions|)
  }

  const NO_ATTRIBUTES := Rules.TenderFacts(map[], map[])

  /** Look up what a key names. `portal` gives the tender fields behind a content hash: it
      exists because the hash is injective. */
  function Lookup(portal: Hex -> Facts, w: World, k: Key, config: Thresholds, ambient: Ambient, now: int): Inputs
    requires InRange(w, k)
  {
    Inputs(
      w.profiles[k.profileVersion - 1],
      if k.rules.Some? then w.ruleVersions[k.rules.value] else [],
      if k.extraction.Some? then w.extractions[k.extraction.value].attributes else NO_ATTRIBUTES,
      k.model, config, portal(k.contentHash), ambient, now)
  }

  function UrgencyAt(w: World, now: int): Urgency { UrgencyFor(w.deadline, w.offset, now) }

  function CallIn(portal: Hex -> Facts, w: World, model: string, now: int, force: bool): (Stored, Outcome)
    requires InRange(w, KeyOf(w, model))
  {
    var k := KeyOf(w, model);
    Call(w.stored, k, Lookup(portal, w, k, InForce(w.configs), w.ambient, now), UrgencyAt(w, now), force)
  }

  predicate Sane(w: World) {
    && w.profiles != []
    && (w.rulesInForce.Some? ==> w.rulesInForce.value < |w.ruleVersions|)
    && Extractions.Valid(w.extractions)
    && (forall i :: 0 <= i < |w.configs| ==> w.configs[i].version == i + 1)
  }

  function Next(portal: Hex -> Facts, w: World, step: Step): (w': World)
    requires Sane(w)
  {
    match step
    case EditProfile(facts) => w.(profiles := w.profiles + [facts])
    case SaveRules(rules) =>
      w.(ruleVersions := w.ruleVersions + [rules], rulesInForce := Some(|w.ruleVersions|))
    case ActivateRules(v) => if v < |w.ruleVersions| then w.(rulesInForce := Some(v)) else w
    case Extract(attempt) => w.(extractions := Extractions.AfterExtraction(w.extractions, attempt))
    case Ingest(hash, deadline, isOpen) => w.(contentHash := hash, deadline := deadline, isOpen := isOpen)
    case CloseTender => w.(isOpen := false)
    case Calibrate(s, a, b) => w.(configs := Calibrated(w.configs, s, a, b))
    case Drift(ambient) => w.(ambient := ambient)
    case MatchNow(model, now, force) =>
      var (stored, outcome) := CallIn(portal, w, model, now, force);
      w.(stored := stored,
         basis := if outcome.Created? || outcome.Updated? then Some(Basis(|w.configs|, w.ambient, now)) else w.basis)
    case AgeUrgency(now) =>
      if w.stored.row.None? then w
      else w.(stored := w.stored.(row := Some(Aged(Joined(w.stored.row.value, w.deadline, w.offset, w.isOpen), now).m)))
  }

  // ----- where a stored verdict comes from -------------------------------

  /** The stored verdict is the assessment of what its key names, under the thresholds and the
      surroundings of its scoring. */
  predicate Explained(portal: Hex -> Facts, w: World) {
    w.stored.row.Some? ==>
      && w.basis.Some? && w.basis.value.configs <= |w.configs|
      && var m, b := w.stored.row.value, w.basis.value;
      && m.fingerprint == Digest(m.key) && InRange(w, m.key)
      && m.key.thresholdsVersion == InForce(w.configs[..b.configs]).version
      && Assess(Lookup(portal, w, m.key, InForce(w.configs[..b.configs]), b.ambient, b.at)) == Assessed(m.verdict)
  }

  predicate Inv(portal: Hex -> Facts, w: World) { Sane(w) && Explained(portal, w) }

  /** Nothing a key can name is ever rewritten. */
  predicate Extends(w: World, w': World) {
    && w.profiles <= w'.profiles && w.ruleVersions <= w'.ruleVersions && w.configs <= w'.configs
    && Extractions.Keeps(w.extractions, w'.extractions)
  }

  lemma NextExtends(portal: Hex -> Facts, w: World, step: Step)
    requires Sane(w)
    ensures Sane(Next(portal, w, step)) && Extends(w, Next(portal, w, step))
  {
    var w' := Next(portal, w, step);
    match step
    case Extract(attempt) => ExtractionsExtend(w, attempt);
    case MatchNow(_, _, _) => OtherTablesStand(w, w');
    case AgeUrgency(_) => OtherTablesStand(w, w');
    case Calibrate(_, _, _) => assert w' == w.(configs := w'.configs);
    case _ => assert w'.extractions == w.extractions && w'.configs == w.configs;
  }

  lemma ExtractionsExtend(w: World, attempt: Extractions.Attempt)
    requires Sane(w)
    ensures var w' := w.(extractions := Extractions.AfterExtraction(w.extractions, attempt));
            Sane(w') && Extends(w, w')
  {
    Extractions.MaxVersionIsLength(w.extractions);
  }

  lemma OtherTablesStand(w: World, w': World)
    requires Sane(w) && w' == w.(stored := w'.stored, basis := w'.basis)
    ensures Sane(w') && Extends(w, w')
  {}

  lemma LookupSurvives(portal: Hex -> Facts, w: World, w': World, k: Key, config: Thresholds, ambient: Ambient,
      now: int)
    requires Extends(w, w') && InRange(w, k)
    ensures InRange(w', k) && Lookup(portal, w', k, config, ambient, now) == Lookup(portal, w, k, config, ambient, now)
  {
    if k.extraction.Some? {
      var i := k.extraction.value;
      assert w'.extractions[i].(isCurrent := false).attributes == w.extractions[i].(isCurrent := false).attributes;
    }
  }

  lemma SettlingStores(s: Stored, key: Key, assessment: Assessment, urgency: Urgency, now: int)
    ensures var (after, outcome) := Settle(s, key, assessment, urgency, now);
            && (assessment.Assessed? <==> outcome.Created? || outcome.Updated?)
            && (assessment.Assessed? ==> after.row == Some(NewMatch(s.row, key, assessment.verdict, urgency, now)))
            && (!assessment.Assessed? ==> after == s)
  {}

  /** The row of a world that has just scored, or that kept the row it had. */
  lemma ScoredRowIsExplained(portal: Hex -> Facts, w: World, k: Key, m: Match, now: int)
    requires Sane(w) && InRange(w, k) && k.thresholdsVersion == InForce(w.configs).version
    requires w.stored.row == Some(m) && w.basis == Some(Basis(|w.configs|, w.ambient, now))
    requires m.key == k && m.fingerprint == Digest(k)
    requires Assess(Lookup(portal, w, k, InForce(w.configs), w.ambient, now)) == Assessed(m.verdict)
    ensures Explained(portal, w)
  {
    assert w.configs[..|w.configs|] == w.configs;
  }

  lemma ScoringKeepsExplained(portal: Hex -> Facts, w: World, step: Step)
    requires Inv(portal, w) && step.MatchNow? && !Skips(w.stored, KeyOf(w, step.model), step.force)
    ensures Explained(portal, Next(portal, w, step))
  {
    var k := KeyOf(w, step.model);
    var w' := Next(portal, w, step);
    var assessment := Assess(Lookup(portal, w, k, InForce(w.configs), w.ambient, step.now));
    SettlingStores(w.stored, k, assessment, UrgencyAt(w, step.now), step.now);
    if assessment.Assessed? {
      LookupSurvives(portal, w, w', k, InForce(w.configs), w.ambient, step.now);
      ScoredRowIsExplained(portal, w', k, w'.stored.row.value, step.now);
    } else {
      assert w'.stored == w.stored && w'.basis == w.basis;
    }
  }

  /** The basis stands, and the row is there as before with the verdict it had. */
  predicate KeepsVerdict(w: World, w': World) {
    && w'.basis == w.basis
    && (w'.stored.row.Some? ==>
          && w.stored.row.Some?
          && w'.stored.row.value.verdict == w.stored.row.value.verdict
          && w'.stored.row.value.fingerprint == w.stored.row.value.fingerprint
          && w'.stored.row.value.key == w.stored.row.value.key)
  }

  lemma OtherStepsKeepVerdict(portal: Hex -> Facts, w: World, step: Step)
    requires Sane(w) && (step.MatchNow? ==> Skips(w.stored, KeyOf(w, step.model), step.force))
    ensures KeepsVerdict(w, Next(portal, w, step))
  {}

  lemma SameVerdictIsExplained(portal: Hex -> Facts, w: World, w': World)
    requires Inv(portal, w) && Extends(w, w') && KeepsVerdict(w, w')
    ensures Explained(portal, w')
  {
    if w'.stored.row.Some? {
      var m, b := w.stored.row.value, w.basis.value;
      LookupSurvives(portal, w, w', m.key, InForce(w.configs[..b.configs]), b.ambient, b.at);
      assert w'.configs[..b.configs] == w.configs[..b.configs];
    }
  }

  lemma NextKeepsInv(portal: Hex -> Facts, w: World, step: Step)
    requires Inv(portal, w)
    ensures Inv(portal, Next(portal, w, step))
  {
    NextExtends(portal, w, step);
    if step.MatchNow? && !Skips(w.stored, KeyOf(w, step.model), step.force) {
      ScoringKeepsExplained(portal, w, step);
    } else {
      OtherStepsKeepVerdict(portal, w, step);
      SameVerdictIsExplained(portal, w, Next(portal, w, step));
    }
  }

  function Run(portal: Hex -> Facts, w: World, steps: seq<Step>): World
    requires Sane(w)
    decreases |steps|
  {
    if steps == [] then w
    else
      NextExtends(portal, w, steps[0]);
      Run(portal, Next(portal, w, steps[0]), steps[1..])
  }

  /** Before the first match call: any profile, rules, extractions, thresholds and tender. */
  predicate Unmatched(w: World) {
    Sane(w) && w.stored == Stored(None, [])
  }

  lemma {:induction false} RunKeepsInv(portal: Hex -> Facts, w: World, steps: seq<Step>)
    requires Inv(portal, w)
    ensures Inv(portal, Run(portal, w, steps))
    decreases |steps|
  {
    if steps != [] {
      NextKeepsInv(portal, w, steps[0]);
      RunKeepsInv(portal, Next(portal, w, steps[0]), steps[1..]);
    }
  }

  // ----- skipping is as good as rescoring --------------------------------

  /** The row was scored under the defaults and exactly one thresholds row was stored since. */
  predicate FirstCalibrationSince(w: World) {
    w.basis.Some? && w.basis.value.configs == 0 && |w.configs| == 1
  }

  /** A skipped call has the thresholds of the scoring still in force, except after the very
      first calibration when that changed any of them: its row reuses the defaults' version. */
  lemma ThresholdsAgreeIff(portal: Hex -> Facts, w: World, model: string)
    requires Inv(portal, w) && Skips(w.stored, KeyOf(w, model), false)
    ensures InForce(w.configs[..w.basis.value.configs]) == InForce(w.configs)
            <==> !(FirstCalibrationSince(w) && w.configs[0] != DEFAULT_THRESHOLDS)
  {
    DigestIsInjective(w.stored.row.value.key, KeyOf(w, model));
    var n := w.basis.value.configs;
    assert InForce(w.configs[..n]).version == if n == 0 then 1 else n;
    assert n == |w.configs| ==> w.configs[..n] == w.configs;
  }

  function ContextOf(i: Inputs): Rules.Context {
    Rules.Context(i.profile, i.ambient.fx, BASE_CURRENCY, i.now)
  }

  function FactsFor(i: Inputs): Rules.TenderFacts { FactsOf(i.extracted, i.portal, i.ambient.loose) }

  /** A ruling on a rule hides no turn of it: what turns was decided, and decided results stand. */
  lemma RuledTurnShows(rule: Rules.Rule, facts: Rules.TenderFacts, ctx: Rules.Context, now: int,
      overrides: Rules.Overrides)
    requires Rules.EvaluateRule(rule, facts, ctx) != Rules.EvaluateRule(rule, facts, ctx.(now := now))
    ensures Rules.Overrule(Rules.EvaluateRule(rule, facts, ctx), overrides)
         != Rules.Overrule(Rules.EvaluateRule(rule, facts, ctx.(now := now)), overrides)
  {}

  lemma ResultsStandIff(i: Inputs, now: int)
    ensures ResultsOf(i) == ResultsOf(i.(now := now))
            <==> Rules.StandsStill(i.rules, FactsFor(i), ContextOf(i), now)
  {
    var facts, ctx, overrides := FactsFor(i), ContextOf(i), i.ambient.overrides;
    Rules.EvaluationStandsIff(i.rules, facts, ctx, now);
    var active := Rules.ActiveRules(i.rules);
    var a, b := Rules.Evaluate(i.rules, facts, ctx), Rules.Evaluate(i.rules, facts, ctx.(now := now));
    if a != b {
      var k :| 0 <= k < |active| && a[k] != b[k];
      RuledTurnShows(active[k], facts, ctx, now, overrides);
      assert ResultsOf(i)[k] == Rules.Overrule(a[k], overrides);
      assert ResultsOf(i.(now := now))[k] == Rules.Overrule(b[k], overrides);
    }
  }

  /** An assessment is the same at two instants exactly when no enabled date rule turns between
      them; nothing else in it reads the clock. */
  lemma AssessmentStandsIff(i: Inputs, now: int)
    requires Assess(i).Assessed?
    ensures Assess(i.(now := now)).Assessed?
    ensures Assess(i.(now := now)).verdict.score == Assess(i).verdict.score
    ensures Assess(i.(now := now)) == Assess(i) <==> Rules.StandsStill(i.rules, FactsFor(i), ContextOf(i), now)
  {
    ResultsStandIff(i, now);
  }

  /** What the fingerprint omits, the clock apart, is as it was when the row was scored. */
  predicate Undisturbed(w: World) {
    w.basis.Some? && w.basis.value.ambient == w.ambient && !FirstCalibrationSince(w)
  }

  /** No date rule in force turned between the scoring and now. */
  predicate RulesStandStill(portal: Hex -> Facts, w: World, model: string, now: int)
    requires Sane(w) && w.basis.Some?
  {
    var i := Lookup(portal, w, KeyOf(w, model), InForce(w.configs), w.ambient, w.basis.value.at);
    Rules.StandsStill(i.rules, FactsFor(i), ContextOf(i), now)
  }

  lemma StoredVerdictStandsIff(portal: Hex -> Facts, w: World, model: string, now: int)
    requires Inv(portal, w) && Skips(w.stored, KeyOf(w, model), false) && Undisturbed(w)
    ensures var assessment := Assess(Lookup(portal, w, KeyOf(w, model), InForce(w.configs), w.ambient, now));
            && assessment.Assessed?
            && (assessment.verdict == w.stored.row.value.verdict <==> RulesStandStill(portal, w, model, now))
  {
    var k, b := KeyOf(w, model), w.basis.value;
    DigestIsInjective(w.stored.row.value.key, k);
    ThresholdsAgreeIff(portal, w, model);
    var i := Lookup(portal, w, k, InForce(w.configs), w.ambient, b.at);
    AssessmentStandsIff(i, now);
    assert i.(now := now) == Lookup(portal, w, k, InForce(w.configs), w.ambient, now);
  }

  /** In every run: when a call is skipped with stored vectors, rulings, rates and unhashed fields
      as they were at the scoring and no first calibration in between, then scoring again would
      store the very same similarity, breakdown, grade, eligibility, rule results, urgency and
      fingerprint exactly when no date rule in force turned since the scoring. */
  lemma SkippedMatchIsCurrentIff(portal: Hex -> Facts, start: World, steps: seq<Step>, model: string, now: int)
    requires Unmatched(start)
    requires var w := Run(portal, start, steps);
             Sane(w) && Skips(w.stored, KeyOf(w, model), false) && Undisturbed(w)
    ensures var w := Run(portal, start, steps);
            var (skipped, outcome) := CallIn(portal, w, model, now, false);
            var (rescored, outcome') := CallIn(portal, w, model, now, true);
            && outcome == Skipped && outcome' == Updated
            && skipped.row.Some? && rescored.row.Some? && skipped.history == w.stored.history
            && (skipped.row.value.(recommendation := rescored.row.value.recommendation) == rescored.row.value
                <==> RulesStandStill(portal, w, model, now))
  {
    var w := Run(portal, start, steps);
    var k := KeyOf(w, model);
    RunKeepsInv(portal, start, steps);
    DigestIsInjective(w.stored.row.value.key, k);
    StoredVerdictStandsIff(portal, w, model, now);
    SettlingStores(w.stored, k, Assess(Lookup(portal, w, k, InForce(w.configs), w.ambient, now)), UrgencyAt(w,
        now), now);
  }

  /** In every such run, ageing included, the skipped row and the rescored one are equal outright
      exactly when moreover the row's recommendation was right already or its urgency moves now. */
  lemma SkippedMatchEqualsRecomputationIff(portal: Hex -> Facts, start: World, steps: seq<Step>, model: string,
      now: int)
    requires Unmatched(start)
    requires var w := Run(portal, start, steps);
             Sane(w) && Skips(w.stored, KeyOf(w, model), false) && Undisturbed(w)
    ensures var w := Run(portal, start, steps);
            CallIn(portal, w, model, now, false).0.row == CallIn(portal, w, model, now, true).0.row
            <==> (RulesStandStill(portal, w, model, now)
                  && (FollowsMatrix(w.stored.row.value) || w.stored.row.value.urgency != UrgencyAt(w, now)))
  {
    var w := Run(portal, start, steps);
    var k := KeyOf(w, model);
    var i := Lookup(portal, w, k, InForce(w.configs), w.ambient, now);
    SkippedMatchIsCurrentIff(portal, start, steps, model, now);
    CallRepairsIff(w.stored, k, i, UrgencyAt(w, now), false);
    CallRepairsIff(w.stored, k, i, UrgencyAt(w, now), true);
  }

  /** The first call stores what it assesses, if it can. */
  lemma FirstCallStores(portal: Hex -> Facts, w: World, model: string, now: int)
    requires Unmatched(w)
    ensures var k := KeyOf(w, model);
            var assessment := Assess(Lookup(portal, w, k, InForce(w.configs), w.ambient, now));
            var w' := Next(portal, w, MatchNow(model, now, false));
            && w' == w.(stored := w'.stored, basis := w'.basis)
            && (assessment.Assessed? ==>
                  w'.stored.row == Some(NewMatch(None, k, assessment.verdict, UrgencyAt(w, now), now)))
  {
    var k := KeyOf(w, model);
    SettlingStores(w.stored, k, Assess(Lookup(portal, w, k, InForce(w.configs), w.ambient, now)), UrgencyAt(w,
        now), now);
  }

  /** And so does a forced one. */
  lemma ForcedCallStores(portal: Hex -> Facts, w: World, model: string, now: int)
    requires Sane(w)
    ensures var k := KeyOf(w, model);
            var assessment := Assess(Lookup(portal, w, k, InForce(w.configs), w.ambient, now));
            var after := CallIn(portal, w, model, now, true).0;
            assessment.Assessed? ==> after.row.Some? && after.row.value.verdict == assessment.verdict
  {
    var k := KeyOf(w, model);
    SettlingStores(w.stored, k, Assess(Lookup(portal, w, k, InForce(w.configs), w.ambient, now)), UrgencyAt(w,
        now), now);
  }

  // ----- what a scoring call stores --------------------------------------

  /** The eligibility that rules and rulings give: ineligible exactly when some enabled hard rule
      rejects, or asks and is ruled false; for a human exactly when none does and some asks without
      a ruling. */
  predicate Judged(e: Eligibility, i: Inputs) {
    var facts, ctx, ruled := FactsFor(i), ContextOf(i), i.ambient.overrides;
    var rejected :=
      || (exists r :: r in i.rules && Rules.Rejects(r, facts, ctx))
      || (exists r :: r in i.rules && Rules.Asks(r, facts, ctx) && r.id in ruled && !ruled[r.id]);
    && (e == Ineligible <==> rejected)
    && (e == NeedsVerification <==>
          !rejected && exists r :: r in i.rules && Rules.Asks(r, facts, ctx) && r.id !in ruled)
  }

  /** Both sides have vectors of the model, and all are of one length. */
  predicate Scorable(i: Inputs) {
    && i.model in i.ambient.facets && i.model in i.ambient.chunks
    && i.ambient.facets[i.model] != [] && i.ambient.chunks[i.model] != []
    && AllComparable(i.ambient.facets[i.model], i.ambient.chunks[i.model])
  }

  /** The similarity of the model's own vectors, and its grade. */
  predicate Graded(v: Verdict, i: Inputs) {
    && Scorable(i)
    && v.score.similarity == Similarity(i.ambient.facets[i.model], i.ambient.chunks[i.model], i.config)
    && v.grade == GradeFor(v.score.similarity, i.config)
  }

  lemma AssessedIff(i: Inputs)
    ensures Assess(i).Assessed? <==> Scorable(i)
  {}

  lemma AssessmentIsJudged(i: Inputs)
    requires Assess(i).Assessed?
    ensures Judged(Assess(i).verdict.eligibility, i) && Graded(Assess(i).verdict, i)
  {
    var facts, ctx, ruled := FactsFor(i), ContextOf(i), i.ambient.overrides;
    Rules.RuledVerdictIff(i.rules, facts, ctx, ruled);
    forall r | r in i.rules && Rules.RejectsRuled(r, facts, ctx, ruled)
      ensures Rules.AnyRejectsRuled(i.rules, facts, ctx, ruled)
    {}
    forall r | r in i.rules && Rules.AsksStill(r, facts, ctx, ruled)
      ensures Rules.AnyAsksStill(i.rules, facts, ctx, ruled)
    {}
  }

  /** A call that is not skipped stores something exactly when both sides have vectors of one
      length. */
  lemma CallStoresIff(s: Stored, key: Key, i: Inputs, urgency: Urgency, force: bool)
    requires !Skips(s, key, force)
    ensures var (after, outcome) := Call(s, key, i, urgency, force);
            if Scorable(i) then outcome == (if s.row.None? then Created else Updated)
            else outcome in {NotScorable, Failed} && after == s
  {
    SettlingStores(s, key, Assess(i), urgency, i.now);
    AssessedIff(i);
  }

  /** What it stores: the eligibility is that of rules and human rulings, the grade that of the
      model's vectors, and the recommendation the matrix's. */
  lemma StoredRowIsJudged(s: Stored, key: Key, i: Inputs, urgency: Urgency, force: bool)
    requires !Skips(s, key, force) && Scorable(i)
    ensures var row := Call(s, key, i, urgency, force).0.row;
            && row.Some? && row.value.key == key && row.value.urgency == urgency
            && var v := row.value.verdict;
            && Judged(v.eligibility, i) && Graded(v, i)
            && row.value.recommendation == Recommend(v.grade, v.eligibility, urgency)
  {
    SettlingStores(s, key, Assess(i), urgency, i.now);
    AssessedIff(i);
    AssessmentIsJudged(i);
  }

  /** In every run the stored eligibility and grade are those of what the row's key names, with
      the rulings, rates and vectors of its scoring. */
  lemma RowIsJudgedInEveryRun(portal: Hex -> Facts, start: World, steps: seq<Step>)
    requires Unmatched(start) && Run(portal, start, steps).stored.row.Some?
    ensures var w := Run(portal, start, steps);
            && w.basis.Some? && w.basis.value.configs <= |w.configs| && InRange(w, w.stored.row.value.key)
            && var m, b := w.stored.row.value, w.basis.value;
            && var i := Lookup(portal, w, m.key, InForce(w.configs[..b.configs]), b.ambient, b.at);
            && Judged(m.verdict.eligibility, i) && Graded(m.verdict, i)
  {
    RunKeepsInv(portal, start, steps);
    var w := Run(portal, start, steps);
    var m, b := w.stored.row.value, w.basis.value;
    AssessmentIsJudged(Lookup(portal, w, m.key, InForce(w.configs[..b.configs]), b.ambient, b.at));
  }

  /** A call writes one history record when the match is new or its grade, eligibility or
      recommendation moved, and none otherwise; the record says what the row now says. */
  lemma HistoryRecordsMoves(s: Stored, key: Key, i: Inputs, urgency: Urgency, force: bool)
    ensures var (after, outcome) := Call(s, key, i, urgency, force);
            var stores := outcome.Created? || outcome.Updated?;
            && (stores ==> after.row.Some?)
            && var moved := stores &&
                 (s.row.Some? ==>
                    || s.row.value.verdict.grade != after.row.value.verdict.grade
                    || s.row.value.verdict.eligibility != after.row.value.verdict.eligibility
                    || s.row.value.recommendation != after.row.value.recommendation);
            && (!moved ==> after.history == s.history)
            && (moved ==>
                  && after.history[..|after.history| - 1] == s.history
                  && var m, r := after.row.value, after.history[|after.history| - 1];
                  && r.similarity == m.verdict.score.similarity && r.grade == m.verdict.grade
                  && r.eligibility == m.verdict.eligibility && r.recommendation == m.recommendation)
  {
    if !Skips(s, key, force) {
      SettlingStores(s, key, Assess(i), urgency, i.now);
    }
  }

  // ----- what a rule reads -----------------------------------------------

  /** A rule reads the value of a loose column, else the portal's own, else the extracted one. How
      sure the extraction is counts only for a rule about extractions, and never for the portal's
      four attributes. */
  lemma PortalValueWins(rule: Rules.Rule, extracted: Rules.TenderFacts, portal: Facts, loose: Facts,
      ctx: Rules.Context)
    ensures var merged := Rules.Finding(rule, FactsOf(extracted, portal, loose), ctx);
            var trusted := rule.attribute in PORTAL_WINS || rule.source != Rules.AiExtraction;
            && (rule.attribute in loose && trusted ==>
                  merged == Rules.Finding(rule, Rules.TenderFacts(loose, map[]), ctx))
            && (rule.attribute in portal && rule.attribute !in loose && trusted ==>
                  merged == Rules.Finding(rule, Rules.TenderFacts(portal, map[]), ctx))
            && (rule.attribute !in portal && rule.attribute !in loose && trusted ==>
                  merged == Rules.Finding(rule, extracted.(confidence := map[]), ctx))
            && (rule.attribute !in portal && rule.attribute !in loose && !trusted ==>
                  merged == Rules.Finding(rule, extracted, ctx))
  {}

  // ----- which edits a match notices -------------------------------------

  /** What moves the fingerprint. The first thresholds row is numbered like the defaults, and so
      does not. */
  predicate MovesTheKey(w: World, step: Step) {
    match step
    case EditProfile(_) => true
    case SaveRules(_) => true
    case ActivateRules(v) => v < |w.ruleVersions| && w.rulesInForce != Some(v)
    case Extract(attempt) => !Extractions.IsRepeat(w.extractions, attempt)
    case Ingest(hash, _, _) => hash != w.contentHash
    case Calibrate(s, a, b) => b < a < s && w.configs != []
    case _ => false
  }

  /** A match that would be skipped is scored by the next call exactly when the step between them
      moved the fingerprint; vectors, rulings, rates, closing and ageing do not. */
  lemma StepIsNoticedIff(portal: Hex -> Facts, w: World, step: Step, model: string)
    requires Inv(portal, w) && Skips(w.stored, KeyOf(w, model), false) && !step.MatchNow?
    ensures var w' := Next(portal, w, step);
            Skips(w'.stored, KeyOf(w', model), false) <==> !MovesTheKey(w, step)
  {
    var k, k' := KeyOf(w, model), KeyOf(Next(portal, w, step), model);
    OtherStepsKeepVerdict(portal, w, step);
    RowStays(portal, w, step);
    DigestIsInjective(k, k');
    KeyMoves(portal, w, step, model);
  }

  lemma RowStays(portal: Hex -> Facts, w: World, step: Step)
    requires Sane(w) && w.stored.row.Some? && !step.MatchNow?
    ensures Next(portal, w, step).stored.row.Some?
  {}

  lemma KeyMoves(portal: Hex -> Facts, w: World, step: Step, model: string)
    requires Sane(w) && !step.MatchNow?
    ensures KeyOf(Next(portal, w, step), model) == KeyOf(w, model) <==> !MovesTheKey(w, step)
  {
    if step.Extract? {
      ExtractionsExtend(w, step.attempt);
      var after := Extractions.AfterExtraction(w.extractions, step.attempt);
      if !Extractions.IsRepeat(w.extractions, step.attempt) {
        Extractions.CurrentIsLast(after);
      }
    }
  }

  // ----- the recommendation ----------------------------------------------

  predicate FollowsMatrix(m: Match) {
    m.recommendation == Recommend(m.verdict.grade, m.verdict.eligibility, m.urgency)
  }

  /** What holds of the row in every run: no recommendation beyond the matrix's own or Skip,
      and a history that ends with the row's grade and eligibility. */
  predicate Accounted(s: Stored) {
    s.row.Some? ==>
      && var m := s.row.value;
      && m.recommendation in {Skip, Matrix(m.verdict.grade, m.verdict.eligibility)}
      && s.history != []
      && s.history[|s.history| - 1].grade == m.verdict.grade
      && s.history[|s.history| - 1].eligibility == m.verdict.eligibility
  }

  /** History is only added to, and a match keeps the time it was first made. */
  predicate Grows(s: Stored, s': Stored) {
    && s.history <= s'.history
    && (s.row.Some? ==> s'.row.Some? && s'.row.value.firstMatchedAt == s.row.value.firstMatchedAt)
  }

  lemma NextIsAccounted(portal: Hex -> Facts, w: World, step: Step)
    requires Sane(w) && Accounted(w.stored)
    ensures Accounted(Next(portal, w, step).stored) && Grows(w.stored, Next(portal, w, step).stored)
  {
    if step.MatchNow? {
      var k := KeyOf(w, step.model);
      var i := Lookup(portal, w, k, InForce(w.configs), w.ambient, step.now);
      var urgency := UrgencyAt(w, step.now);
      assert Next(portal, w, step).stored == Call(w.stored, k, i, urgency, step.force).0;
      if !Skips(w.stored, k, step.force) {
        SettlingIsAccounted(w.stored, k, Assess(i), urgency, step.now);
      }
    }
  }

  lemma SettlingIsAccounted(s: Stored, key: Key, assessment: Assessment, urgency: Urgency, now: int)
    requires Accounted(s)
    ensures var after := Settle(s, key, assessment, urgency, now).0;
            Accounted(after) && Grows(s, after)
  {}

  /** In every run the row is accounted for and grows. */
  lemma {:induction false} EveryRunIsAccounted(portal: Hex -> Facts, w: World, steps: seq<Step>)
    requires Sane(w) && Accounted(w.stored)
    ensures Accounted(Run(portal, w, steps).stored) && Grows(w.stored, Run(portal, w, steps).stored)
    decreases |steps|
  {
    if steps != [] {
      NextExtends(portal, w, steps[0]);
      NextIsAccounted(portal, w, steps[0]);
      EveryRunIsAccounted(portal, Next(portal, w, steps[0]), steps[1..]);
    }
  }

  /** The row's recommendation is what the matrix gives at some urgency. */
  predicate MeantAt(m: Match, urgency: Urgency) {
    m.recommendation == Recommend(m.verdict.grade, m.verdict.eligibility, urgency)
  }

  predicate RowMeantAt(w: World, urgency: Urgency) { w.stored.row.Some? ==> MeantAt(w.stored.row.value, urgency) }

  /** A call that scores, or finds the urgency moved, computes the recommendation anew. */
  predicate Recommends(portal: Hex -> Facts, w: World, step: Step)
    requires Sane(w)
  {
    step.MatchNow? &&
    match CallIn(portal, w, step.model, step.now, step.force).1
    case Created => true
    case Updated => true
    case Skipped => w.stored.row.Some? && w.stored.row.value.urgency != UrgencyAt(w, step.now)
    case _ => false
  }

  /** The urgency with which a run last computed the recommendation, `u` before its first. */
  function LastMeant(portal: Hex -> Facts, w: World, u: Urgency, steps: seq<Step>): Urgency
    requires Sane(w)
    decreases |steps|
  {
    if steps == [] then u
    else
      NextExtends(portal, w, steps[0]);
      LastMeant(portal, Next(portal, w, steps[0]),
                if Recommends(portal, w, steps[0]) then UrgencyAt(w, steps[0].now) else u, steps[1..])
  }

  lemma NextIsMeant(portal: Hex -> Facts, w: World, u: Urgency, step: Step)
    requires Sane(w) && RowMeantAt(w, u)
    ensures RowMeantAt(Next(portal, w, step), if Recommends(portal, w, step) then UrgencyAt(w, step.now) else u)
  {
    if step.MatchNow? && !Skips(w.stored, KeyOf(w, step.model), step.force) {
      var k := KeyOf(w, step.model);
      var assessment := Assess(Lookup(portal, w, k, InForce(w.configs), w.ambient, step.now));
      SettlingStores(w.stored, k, assessment, UrgencyAt(w, step.now), step.now);
    }
  }

  lemma {:induction false} RunIsMeant(portal: Hex -> Facts, w: World, u: Urgency, steps: seq<Step>)
    requires Sane(w) && RowMeantAt(w, u)
    ensures RowMeantAt(Run(portal, w, steps), LastMeant(portal, w, u, steps))
    decreases |steps|
  {
    if steps != [] {
      NextExtends(portal, w, steps[0]);
      NextIsMeant(portal, w, u, steps[0]);
      RunIsMeant(portal, Next(portal, w, steps[0]),
                 if Recommends(portal, w, steps[0]) then UrgencyAt(w, steps[0].now) else u, steps[1..]);
    }
  }

  /** A recommendation meant at one urgency is right at another exactly when both or neither are
      EXPIRED, or the matrix says Skip anyway. */
  lemma MeantIsRightIff(m: Match, u: Urgency)
    requires MeantAt(m, u)
    ensures FollowsMatrix(m)
            <==> (u.Expired? == m.urgency.Expired? || Matrix(m.verdict.grade, m.verdict.eligibility) == Skip)
  {}

  /** In every run from before the first call, ageing included: the recommendation is that of the
      matrix at the urgency it was last computed with, and it is right now exactly when that
      urgency and the present one agree on EXPIRED or the matrix says Skip. */
  lemma RunFollowsMatrixIff(portal: Hex -> Facts, start: World, steps: seq<Step>, any: Urgency)
    requires Unmatched(start) && Run(portal, start, steps).stored.row.Some?
    ensures var m, u := Run(portal, start, steps).stored.row.value, LastMeant(portal, start, any, steps);
            && m.recommendation == Recommend(m.verdict.grade, m.verdict.eligibility, u)
            && (FollowsMatrix(m)
                <==> (u.Expired? == m.urgency.Expired? || Matrix(m.verdict.grade, m.verdict.eligibility) == Skip))
  {
    RunIsMeant(portal, start, any, steps);
    MeantIsRightIff(Run(portal, start, steps).stored.row.value, LastMeant(portal, start, any, steps));
  }

  predicate RowFollowsMatrix(w: World) { w.stored.row.Some? ==> FollowsMatrix(w.stored.row.value) }

  /** An ageing step that takes the row into EXPIRED or out of it. */
  predicate Crosses(w: World, step: Step) {
    && step.AgeUrgency? && w.isOpen && w.stored.row.Some?
    && w.stored.row.value.urgency.Expired? != UrgencyAt(w, step.now).Expired?
  }

  predicate NeverCrosses(portal: Hex -> Facts, w: World, steps: seq<Step>)
    requires Sane(w)
    decreases |steps|
  {
    steps == [] ||
    (!Crosses(w, steps[0]) && Sane(Next(portal, w, steps[0])) && NeverCrosses(portal, Next(portal, w, steps[0]),
        steps[1..]))
  }

  /** One step keeps a right recommendation right exactly when it does not age the row across
      EXPIRED, or the matrix says Skip of it anyway. */
  lemma NextFollowsMatrixIff(portal: Hex -> Facts, w: World, step: Step)
    requires Sane(w) && RowFollowsMatrix(w)
    ensures RowFollowsMatrix(Next(portal, w, step))
            <==> (Crosses(w, step) ==>
                    Matrix(w.stored.row.value.verdict.grade, w.stored.row.value.verdict.eligibility) == Skip)
  {
    if step.MatchNow? && !Skips(w.stored, KeyOf(w, step.model), step.force) {
      var k := KeyOf(w, step.model);
      var assessment := Assess(Lookup(portal, w, k, InForce(w.configs), w.ambient, step.now));
      SettlingStores(w.stored, k, assessment, UrgencyAt(w, step.now), step.now);
    }
  }

  /** While ageing never crosses EXPIRED, the row always recommends what the matrix says of it. */
  lemma {:induction false} RunsFollowTheMatrix(portal: Hex -> Facts, w: World, steps: seq<Step>)
    requires Sane(w) && RowFollowsMatrix(w) && NeverCrosses(portal, w, steps)
    ensures RowFollowsMatrix(Run(portal, w, steps))
    decreases |steps|
  {
    if steps != [] {
      NextExtends(portal, w, steps[0]);
      NextFollowsMatrixIff(portal, w, steps[0]);
      RunsFollowTheMatrix(portal, Next(portal, w, steps[0]), steps[1..]);
    }
  }

  /** A skipped call leaves the recommendation right exactly when it was right already or the
      urgency moved: a row the ageing sweep got to first is not repaired. A scored one is. */
  lemma CallRepairsIff(s: Stored, key: Key, i: Inputs, urgency: Urgency, force: bool)
    requires s.row.Some?
    ensures var (after, outcome) := Call(s, key, i, urgency, force);
            && after.row.Some?
            && (outcome == Skipped ==>
                  (FollowsMatrix(after.row.value) <==> FollowsMatrix(s.row.value) || s.row.value.urgency != urgency))
            && (outcome == Updated ==> FollowsMatrix(after.row.value))
  {
    if !Skips(s, key, force) {
      SettlingStores(s, key, Assess(i), urgency, i.now);
    }
  }
}
