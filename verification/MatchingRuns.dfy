/** Concrete runs in which the stored match is not what a fresh one would be. */
module MatchingRuns {
  import opened Wrappers
  import opened Scoring
  import opened Matching
  import opened MatchingLaws
  import Clock
  import Rules

  const SURROUNDINGS: Ambient := Ambient(
    map["m" := [Facet("overview", "Company overview", [1.0, 0.0])]],
    map["m" := [Chunk("title_summary", [0.8, 0.6])]], map[], map[], map[])

  /** One facet and one chunk, both unit vectors, no rules, and a deadline in ten days, which is
      a field the content hash covers. */
  const START: World := World(
    [map[]], [], None, [], [], "hash", Some(10 * Clock.DAY), 0, true, SURROUNDINGS, Stored(None, []), None)

  const PORTAL: Hex -> Facts := (h: Hex) => map["deadline_at" := Rules.Moment(10 * Clock.DAY)]

  lemma FourFifths(t: Thresholds)
    requires t.maxWeight == 0.6 && t.meanWeight == 0.4
    ensures var facets, chunks := SURROUNDINGS.facets["m"], SURROUNDINGS.chunks["m"];
            AllComparable(facets, chunks) && Similarity(facets, chunks, t) == 0.8
  {
    var facets, chunks := SURROUNDINGS.facets["m"], SURROUNDINGS.chunks["m"];
    var v, c := [1.0, 0.0], [0.8, 0.6];
    assert Dot(v, c) == 0.8 by {
      assert v[1..] == [0.0] && c[1..] == [0.6];
      assert Dot([0.0], [0.6]) == 0.0 by { assert Dot([0.0][1..], [0.6][1..]) == 0.0; }
    }
    assert BestChunk(v, chunks) == Best(0.8, "title_summary") by {
      assert BestChunk(v, chunks[..0]) == Best(-1.0, "");
    }
    assert FacetScores(facets, chunks) == [FacetScore("overview", "Company overview", 0.8, "title_summary")];
    assert Scores(facets, chunks) == [0.8];
    assert TopScores([0.8], t) == [0.8];
    assert Sum([0.8]) == 0.8 && Mean([0.8]) == 0.8;
    assert Blend([0.8], t) == 0.8;
  }

  lemma RunCons(portal: Hex -> Facts, w: World, step: Step, rest: seq<Step>)
    requires Sane(w)
    ensures Sane(Next(portal, w, step))
    ensures Run(portal, w, [step] + rest) == Run(portal, Next(portal, w, step), rest)
  {
    NextExtends(portal, w, step);
    assert ([step] + rest)[1..] == rest;
  }

  /** The grade of one call among these surroundings. */
  lemma GradeIs(w: World, now: int)
    requires Sane(w) && w.ambient == SURROUNDINGS
    requires InForce(w.configs).maxWeight == 0.6 && InForce(w.configs).meanWeight == 0.4
    ensures var i := Lookup(PORTAL, w, KeyOf(w, "m"), InForce(w.configs), w.ambient, now);
            && Assess(i).Assessed? && Assess(i).verdict.grade == GradeFor(0.8, InForce(w.configs))
            && Assess(i).verdict.eligibility == Rules.StatusOf(ResultsOf(i))
  {
    FourFifths(InForce(w.configs));
  }

  // ----- the first calibration goes unseen -------------------------------

  /** Scored under the defaults, then calibrated for the first time: the next call is skipped
      and keeps an S where rescoring gives an A. */
  lemma FirstCalibrationGoesUnseen()
    ensures Unmatched(START)
    ensures var w := Run(PORTAL, START, [MatchNow("m", 0, false), Calibrate(0.85, 0.70, 0.62)]);
            Sane(w) &&
            var (skipped, outcome) := CallIn(PORTAL, w, "m", 0, false);
            var (rescored, _) := CallIn(PORTAL, w, "m", 0, true);
            && outcome == Skipped && skipped.row.Some? && rescored.row.Some?
            && skipped.row.value.verdict.grade == S && rescored.row.value.verdict.grade == A
  {
    var first, second := MatchNow("m", 0, false), Calibrate(0.85, 0.70, 0.62);
    var w1 := Next(PORTAL, START, first);
    assert [first, second] == [first] + ([second] + []);
    RunCons(PORTAL, START, first, [second] + []);
    RunCons(PORTAL, w1, second, []);
    GradeIs(START, 0);
    FirstCallStores(PORTAL, START, "m", 0);
    FirstCalibrationIsSkipped(w1, second);
  }

  /** From a row scored under the defaults, the first calibration leads to a skip. */
  lemma FirstCalibrationIsSkipped(w: World, step: Step)
    requires w.configs == [] && step.Calibrate? && step.gradeB < step.gradeA < step.gradeS
    requires Sane(w) && w.ambient == SURROUNDINGS && Skips(w.stored, KeyOf(w, "m"), false)
    ensures var w' := Next(PORTAL, w, step);
            && Sane(w')
            && var (skipped, outcome) := CallIn(PORTAL, w', "m", 0, false);
            var (rescored, _) := CallIn(PORTAL, w', "m", 0, true);
            && outcome == Skipped && skipped.row.Some?
            && skipped.row.value.verdict == w.stored.row.value.verdict
            && rescored.row.Some?
            && rescored.row.value.verdict.grade
               == GradeFor(0.8, DEFAULT_THRESHOLDS.(gradeS := step.gradeS, gradeA := step.gradeA,
                   gradeB := step.gradeB))
  {
    var w' := Next(PORTAL, w, step);
    assert KeyOf(w', "m") == KeyOf(w, "m");
    GradeIs(w', 0);
    ForcedCallStores(PORTAL, w', "m", 0);
  }

  // ----- date rules go stale ---------------------------------------------

  const WEEK_AHEAD := Rules.Rule(
    "r", "deadline_at", Rules.DateType, Rules.PortalMetadata, Rules.After,
    Rules.Literal(Rules.DaysFromNow(Rules.Number(7.0))), Rules.Hard, Rules.Verify, true)

  const DATED: World := START.(ruleVersions := [[WEEK_AHEAD]], rulesInForce := Some(0))

  lemma WeekAhead(facts: Rules.TenderFacts, ctx: Rules.Context)
    requires "deadline_at" in facts.values && facts.values["deadline_at"] == Rules.Moment(10 * Clock.DAY)
    ensures Rules.StatusOf(Rules.Overruled(Rules.Evaluate([WEEK_AHEAD], facts, ctx), map[]))
         == if ctx.now <= 3 * Clock.DAY then Eligible else Ineligible
  {
    Rules.VerdictIff([WEEK_AHEAD], facts, ctx);
    WeekAheadFinds(facts, ctx);
    OnlyRule(WEEK_AHEAD, facts, ctx);
    Unruled(Rules.Evaluate([WEEK_AHEAD], facts, ctx));
  }

  lemma WeekAheadFinds(facts: Rules.TenderFacts, ctx: Rules.Context)
    requires "deadline_at" in facts.values && facts.values["deadline_at"] == Rules.Moment(10 * Clock.DAY)
    ensures Rules.Finding(WEEK_AHEAD, facts, ctx) == Some(ctx.now <= 3 * Clock.DAY)
  {}

  lemma OnlyRule(rule: Rules.Rule, facts: Rules.TenderFacts, ctx: Rules.Context)
    ensures Rules.AnyRejects([rule], facts, ctx) == Rules.Rejects(rule, facts, ctx)
    ensures Rules.AnyAsks([rule], facts, ctx) == Rules.Asks(rule, facts, ctx)
  {
    assert rule in [rule];
  }

  lemma Unruled(results: seq<Rules.RuleStatus>)
    ensures Rules.Overruled(results, map[]) == results
  {}

  lemma DatedEligibility(w: World, now: int)
    requires Sane(w) && w == DATED.(stored := w.stored, basis := w.basis)
    ensures var i := Lookup(PORTAL, w, KeyOf(w, "m"), DEFAULT_THRESHOLDS, w.ambient, now);
            Assess(i).Assessed?
            && Assess(i).verdict.eligibility == if now <= 3 * Clock.DAY then Eligible else Ineligible
  {
    GradeIs(w, now);
    var i := Lookup(PORTAL, w, KeyOf(w, "m"), DEFAULT_THRESHOLDS, w.ambient, now);
    WeekAhead(FactsFor(i), ContextOf(i));
  }

  /** The clock is no input of the fingerprint: a rule asking for a week before the deadline is
      met at the scoring ten days ahead, and still counts as met five days later. */
  lemma DateRulesGoStale()
    ensures Unmatched(DATED)
    ensures var w := Run(PORTAL, DATED, [MatchNow("m", 0, false)]);
            Sane(w) &&
            var (skipped, outcome) := CallIn(PORTAL, w, "m", 5 * Clock.DAY, false);
            var (rescored, _) := CallIn(PORTAL, w, "m", 5 * Clock.DAY, true);
            && outcome == Skipped && skipped.row.Some? && rescored.row.Some?
            && skipped.row.value.verdict.eligibility == Eligible
            && rescored.row.value.verdict.eligibility == Ineligible
  {
    var first := MatchNow("m", 0, false);
    var w := Next(PORTAL, DATED, first);
    assert [first] == [first] + [];
    RunCons(PORTAL, DATED, first, []);
    FirstCallStores(PORTAL, DATED, "m", 0);
    DatedEligibility(DATED, 0);
    DatedEligibility(w, 5 * Clock.DAY);
    ForcedCallStores(PORTAL, w, "m", 5 * Clock.DAY);
  }

  // ----- an expired match still says Bid ---------------------------------

  lemma Unrestricted(w: World, now: int)
    requires Sane(w) && w == START.(stored := w.stored, basis := w.basis)
    ensures var i := Lookup(PORTAL, w, KeyOf(w, "m"), DEFAULT_THRESHOLDS, w.ambient, now);
            Assess(i).Assessed? && Assess(i).verdict.grade == S && Assess(i).verdict.eligibility == Eligible
  {
    GradeIs(w, now);
  }

  lemma ScoredAsBid()
    ensures var w := Next(PORTAL, START, MatchNow("m", 0, false));
            && w == START.(stored := w.stored, basis := w.basis) && w.stored.row.Some?
            && w.stored.row.value.fingerprint == Digest(KeyOf(START, "m"))
            && w.stored.row.value.recommendation == Bid
  {
    Unrestricted(START, 0);
    FirstCallStores(PORTAL, START, "m", 0);
    assert UrgencyAt(START, 0) == Normal;
  }

  lemma AgedPastDeadline(w: World)
    requires Sane(w) && w == START.(stored := w.stored, basis := w.basis) && w.stored.row.Some?
    ensures var after := Next(PORTAL, w, AgeUrgency(10 * Clock.DAY));
            after == w.(stored := w.stored.(row := Some(w.stored.row.value.(urgency := Expired))))
  {}

  lemma SkippedAfterDeadline(w: World)
    requires Sane(w) && w == START.(stored := w.stored, basis := w.basis)
    requires Skips(w.stored, KeyOf(w, "m"), false) && w.stored.row.value.urgency == Expired
    ensures Next(PORTAL, w, MatchNow("m", 11 * Clock.DAY, false)) == w
  {}

  /** Scored as a bid ten days ahead, aged when the deadline has come and called again a day
      later: the row is expired and still says Bid. */
  lemma ExpiredMatchStillBids()
    ensures Unmatched(START)
    ensures var steps := [MatchNow("m", 0, false), AgeUrgency(10 * Clock.DAY), MatchNow("m", 11 * Clock.DAY, false)];
            var stored := Run(PORTAL, START, steps).stored;
            && stored.row.Some? && stored.row.value.urgency == Expired && stored.row.value.recommendation == Bid
  {
    var first, second, third := MatchNow("m", 0, false), AgeUrgency(10 * Clock.DAY), MatchNow("m", 11 * Clock.DAY,
        false);
    var w1 := Next(PORTAL, START, first);
    ScoredAsBid();
    assert [first, second, third] == [first] + ([second] + ([third] + []));
    RunCons(PORTAL, START, first, [second] + ([third] + []));
    AgedPastDeadline(w1);
    var w2 := Next(PORTAL, w1, second);
    RunCons(PORTAL, w1, second, [third] + []);
    SkippedAfterDeadline(w2);
    RunCons(PORTAL, w2, third, []);
  }
}
