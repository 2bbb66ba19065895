/** One organization's verdict on one tender, after backend/app/modules/matching/service.py:
    a call scores the match unless its fingerprint is unchanged. */
module Matching {
  import opened Wrappers
  import opened Scoring
  import opened Fingerprint
  import Money
  import Rules

  type Facts = map<string, Rules.Value>
  type Hex = s: string | Plain(s) witness ""

  /** What a match reads although its fingerprint leaves it out: stored vectors, tender columns
      outside the content hash, human rulings and exchange rates. */
  datatype Ambient = Ambient(
    facets: map<string, seq<Facet>>, chunks: map<string, seq<Chunk>>,
    loose: Facts, overrides: Rules.Overrides, fx: Money.Rates)

  datatype Inputs = Inputs(
    profile: Facts, rules: seq<Rules.Rule>, extracted: Rules.TenderFacts, model: string,
    config: Thresholds, portal: Facts, ambient: Ambient, now: int)

  /** What the fingerprint names: versions and row numbers rather than contents. */
  datatype Key = Key(
    profileVersion: nat, rules: Option<nat>, extraction: Option<nat>,
    model: string, thresholdsVersion: nat, contentHash: Hex)

  datatype Verdict = Verdict(score: ScoreResult, grade: Grade, eligibility: Eligibility, results: seq<Rules.RuleStatus>)
  datatype Assessment = Assessed(verdict: Verdict) | NoVectors | Mismatch

  datatype Match = Match(
    verdict: Verdict, recommendation: Recommendation, urgency: Urgency,
    fingerprint: string, key: Key, firstMatchedAt: int)
  datatype Record = Record(similarity: real, grade: Grade, eligibility: Eligibility, recommendation: Recommendation)
  datatype Stored = Stored(row: Option<Match>, history: seq<Record>)
  datatype Outcome = Created | Updated | Skipped | NotScorable | Failed

  const BASE_CURRENCY := "USD"
  const PORTAL_WINS := {"deadline_at", "procurement_method", "procurement_category", "country"}

  // ----- specification ---------------------------------------------------

  function Id(row: Option<nat>): Option<string> {
    match row case None => None case Some(n) => Some(Decimal(n))
  }

  function PartsOf(k: Key): (p: Parts)
    ensures WellFormed(p)
  {
    Parts(k.profileVersion, Id(k.rules), Id(k.extraction), k.model, k.thresholdsVersion, k.contentHash)
  }

  function Digest(k: Key): string { InputsFingerprint(PartsOf(k)) }

  lemma DigestIsInjective(a: Key, b: Key)
    ensures Digest(a) == Digest(b) <==> a == b
  {
    FingerprintIsInjective(PartsOf(a), PartsOf(b));
    if PartsOf(a) == PartsOf(b) {
      if a.rules.Some? && b.rules.Some? { DecimalIsInjective(a.rules.value, b.rules.value); }
      if a.extraction.Some? && b.extraction.Some? { DecimalIsInjective(a.extraction.value, b.extraction.value); }
    }
  }

  function VectorsFor<T>(stored: map<string, seq<T>>, model: string): seq<T> {
    if model in stored then stored[model] else []
  }

  /** What rules may read about the tender; the portal's own value wins over an extracted one. */
  function FactsOf(extracted: Rules.TenderFacts, portal: Facts, loose: Facts): Rules.TenderFacts {
    Rules.TenderFacts(
      extracted.values + portal + loose,
      map k | k in extracted.confidence && k !in PORTAL_WINS :: extracted.confidence[k])
  }

  function ResultsOf(i: Inputs): seq<Rules.RuleStatus> {
    Rules.Overruled(
      Rules.Evaluate(i.rules, FactsOf(i.extracted, i.portal, i.ambient.loose),
                     Rules.Context(i.profile, i.ambient.fx, BASE_CURRENCY, i.now)),
      i.ambient.overrides)
  }

  function Assess(i: Inputs): Assessment {
    var facets, chunks := VectorsFor(i.ambient.facets, i.model), VectorsFor(i.ambient.chunks, i.model);
    if facets == [] || chunks == [] then NoVectors
    else if !AllComparable(facets, chunks) then Mismatch
    else
      var similarity := Similarity(facets, chunks, i.config);
      var results := ResultsOf(i);
      Assessed(Verdict(ScoreResult(similarity, FacetScores(facets, chunks)),
                       GradeFor(similarity, i.config), Rules.StatusOf(results), results))
  }

  function NewMatch(row: Option<Match>, key: Key, v: Verdict, urgency: Urgency, now: int): Match {
    Match(v, Recommend(v.grade, v.eligibility, urgency), urgency, Digest(key), key,
          if row.Some? then row.value.firstMatchedAt else now)
  }

  function RecordOf(m: Match): Record {
    Record(m.verdict.score.similarity, m.verdict.grade, m.verdict.eligibility, m.recommendation)
  }

  predicate SameVerdict(a: Match, b: Match) {
    a.verdict.grade == b.verdict.grade && a.verdict.eligibility == b.verdict.eligibility
    && a.recommendation == b.recommendation
  }

  function Refreshed(m: Match, urgency: Urgency): Match {
    if m.urgency == urgency then m
    else m.(urgency := urgency, recommendation := Recommend(m.verdict.grade, m.verdict.eligibility, urgency))
  }

  predicate Skips(s: Stored, key: Key, force: bool) {
    s.row.Some? && s.row.value.fingerprint == Digest(key) && !force
  }

  /** What a call stores once it has assessed the match; a dimension mismatch raises and leaves
      everything as it was. */
  function Settle(s: Stored, key: Key, assessment: Assessment, urgency: Urgency, now: int): (Stored, Outcome) {
    match assessment
    case NoVectors => (s, NotScorable)
    case Mismatch => (s, Failed)
    case Assessed(v) =>
      var m := NewMatch(s.row, key, v, urgency, now);
      if s.row.None? then (Stored(Some(m), s.history + [RecordOf(m)]), Created)
      else if SameVerdict(s.row.value, m) then (s.(row := Some(m)), Updated)
      else (Stored(Some(m), s.history + [RecordOf(m)]), Updated)
  }

  function Call(s: Stored, key: Key, i: Inputs, urgency: Urgency, force: bool): (Stored, Outcome) {
    if Skips(s, key, force) then (s.(row := Some(Refreshed(s.row.value, urgency))), Skipped)
    else Settle(s, key, Assess(i), urgency, i.now)
  }

  // ----- the store -------------------------------------------------------

  class MatchStore {
    var row: Option<Match>
    var history: seq<Record>

    ghost function Now(): Stored
      reads this
    {
      Stored(row, history)
    }

    constructor ()
      ensures Now() == Stored(None, [])
    {
      row, history := None, [];
    }

    method MatchTenderForOrg(key: Key, i: Inputs, deadline: Option<int>, offset: int, force: bool)
      returns (outcome: Outcome)
      modifies this
      ensures (Now(), outcome) == Call(old(Now()), key, i, UrgencyFor(deadline, offset, i.now), force)
    {
      var now := i.now;
      var fingerprint := Digest(key);
      var urgency := UrgencyFor(deadline, offset, now);
      if row.Some? && row.value.fingerprint == fingerprint && !force {
        if row.value.urgency != urgency {
          row := Some(row.value.(
            urgency := urgency,
            recommendation := Recommend(row.value.verdict.grade, row.value.verdict.eligibility, urgency)));
        }
        return Skipped;
      }
      var facets, chunks := VectorsFor(i.ambient.facets, i.model), VectorsFor(i.ambient.chunks, i.model);
      if facets == [] || chunks == [] {
        return NotScorable;
      }
      var scored := ScoreFacets(facets, chunks, i.config);
      if scored.DimensionMismatch? {
        return Failed;
      }
      var grade := GradeFor(scored.value.similarity, i.config);
      var evaluation := Rules.Evaluate(i.rules, FactsOf(i.extracted, i.portal, i.ambient.loose),
                                       Rules.Context(i.profile, i.ambient.fx, BASE_CURRENCY, i.now));
      var results := Rules.ApplyOverrides(evaluation, i.ambient.overrides);
      var eligibility := Rules.StatusOf(results);
      var recommendation := Recommend(grade, eligibility, urgency);
      var verdict := Verdict(scored.value, grade, eligibility, results);
      outcome := Store(verdict, recommendation, urgency, fingerprint, key, now);
    }

    /** Write the row, and a history record when the verdict is new or has moved. */
    method Store(v: Verdict, recommendation: Recommendation, urgency: Urgency, fingerprint: string, key: Key, now: int)
      returns (outcome: Outcome)
      modifies this
      ensures outcome == if old(row).None? then Created else Updated
      ensures row == Some(Match(v, recommendation, urgency, fingerprint, key,
                                if old(row).Some? then old(row).value.firstMatchedAt else now))
      ensures history == if old(row).Some? && SameVerdict(old(row).value, row.value) then old(history)
                         else old(history) + [RecordOf(row.value)]
    {
      var created := row.None?;
      var moved := false;
      var firstMatchedAt := now;
      if row.Some? {
        var was := row.value;
        firstMatchedAt := was.firstMatchedAt;
        moved := was.verdict.grade != v.grade || was.verdict.eligibility != v.eligibility
                 || was.recommendation != recommendation;
      }
      row := Some(Match(v, recommendation, urgency, fingerprint, key, firstMatchedAt));
      if created || moved {
        history := history + [Record(v.score.similarity, v.grade, v.eligibility, recommendation)];
      }
      outcome := if created then Created else Updated;
    }
  }

  // ----- ageing ----------------------------------------------------------

  datatype Joined = Joined(m: Match, deadline: Option<int>, offset: int, isOpen: bool)

  /** The ageing sweep moves urgency and nothing else. */
  function Aged(j: Joined, now: int): Joined {
    if j.isOpen then j.(m := j.m.(urgency := UrgencyFor(j.deadline, j.offset, now))) else j
  }

  function CountMoved(rows: seq<Joined>, now: int): nat {
    if rows == [] then 0
    else CountMoved(rows[..|rows| - 1], now) + if Aged(rows[|rows| - 1], now) != rows[|rows| - 1] then 1 else 0
  }

  class MatchTable {
    var rows: seq<Joined>

    /** Re-derive the urgency of every open match; returns how many moved. */
    method AgeMatchUrgency(now: int) returns (updated: nat)
      modifies this
      ensures |rows| == |old(rows)|
      ensures forall k :: 0 <= k < |rows| ==> rows[k] == Aged(old(rows)[k], now)
      ensures updated == CountMoved(old(rows), now)
    {
      updated := 0;
      ghost var before := rows;
      for i := 0 to |rows|
        invariant |rows| == |before|
        invariant forall k :: 0 <= k < i ==> rows[k] == Aged(before[k], now)
        invariant forall k :: i <= k < |rows| ==> rows[k] == before[k]
        invariant updated == CountMoved(before[..i], now)
      {
        assert before[..i + 1][..i] == before[..i];
        var j := rows[i];
        if j.isOpen {
          var urgency := UrgencyFor(j.deadline, j.offset, now);
          if j.m.urgency != urgency {
            rows := rows[i := j.(m := j.m.(urgency := urgency))];
            updated := updated + 1;
          }
        }
      }
      assert before[..|before|] == before;
    }
  }
}
