# TenderSense: derived state, proved

TenderSense scores public tenders for companies. Almost everything it stores is derived from
something else: a match from a profile, rules, an extraction and two sets of vectors; a vector from a
text; a version from a content hash; a notice from captured bytes. It also promises that things happen
once over long runs: one digest a day, one reminder per offset, one exchange per refresh token. This
project models that logic in Dafny and proves what the derived state and the promises amount to.

Every file is one module, named after the part of the backend it models. Code that updates stored rows
is a class whose methods are proved against a specification function; laws over whole runs are lemmas
about that function. `dafny verify dfyconfig.toml` checks everything.

| modules | part of the backend |
|---|---|
| `Sorting`, `Ndcg`, `Calibration` | the ranking metric and the threshold fit |
| `Clock`, `Scoring`, `ScoringLaws` | chunk, facet, similarity, grade, recommendation, urgency |
| `EmbeddingText`, `EmbeddingTextLaws`, `EmbeddingStore`, `EmbeddingLaws`, `EmbeddingVectors`, `SyncedScores` | the stored vectors of profiles and notices, and scoring from them |
| `Fingerprint`, `Extractions`, `Matching`, `MatchingLaws`, `MatchingRuns` | the match row and when it may be skipped |
| `Money`, `Rules`, `Preview` | the eligibility rules |
| `Sessions` | refresh-token rotation |
| `Digest`, `Reminders`, `Ledger` | the daily digest, deadline reminders and the send ledger |
| `Ingestion`, `IngestionLaws` | upserting a notice and replaying its stored payloads |
| `RateLimit` | the fixed-window limiter |

Numbers are exact: scores, amounts and rates are reals, times are whole seconds (reals in `RateLimit`), a
time zone is a fixed offset from UTC. Hashes are injective, so a text stands for its hash; a primary key
is the position of its row. The embedder is a function of model and prompt. Clocks, the database's ordering
of rows created together, the language model's answer and the portal's parser are parameters.

## Where the code and its promise part

The model follows the code. Each of these has a lemma that shows it fail and a lemma with the exact
condition under which it holds.

- A reminder for the last day (offset 0) can be missed by sweeps exactly 24 hours apart; every other
  offset is safe (`Reminders.DailySweepsCanMissTheLastDay`, `Reminders.PostedIff`).
- A digest queued before midnight and built after it leaves a gap up to the next digest's window
  (`Digest.DigestAfterMidnightLeavesAGap`, `Digest.NoGapIff`). A match stamped before a digest and committed
  after it can be in none, even with digests on time (`Digest.SlowCommitSlips`, `Digest.MissedIff`).
- The first stored thresholds row is numbered 1 like the built-in defaults, so matches scored before it
  are not re-graded (`MatchingRuns.FirstCalibrationGoesUnseen`, `MatchingLaws.ThresholdsAgreeIff`).
- A rule about a date may change its answer with the clock, which is no input of the fingerprint; a
  skipped match is stale exactly when one did (`MatchingRuns.DateRulesGoStale`,
  `MatchingLaws.SkippedMatchIsCurrentIff`, `Rules.EvaluationStandsIff`).
- The ageing sweep moves urgency without the recommendation, and the next skipped match call does not
  notice (`MatchingRuns.ExpiredMatchStillBids`, `MatchingLaws.RunFollowsMatrixIff`,
  `MatchingLaws.SkippedMatchEqualsRecomputationIff`, `MatchingLaws.CallRepairsIff`).
- An extraction that succeeds on the input the current one failed on is thrown away
  (`Extractions.SuccessIsThrownAway`, `Extractions.CurrentTellsTheAttemptIff`).
- A notice's vectors are not swept, a chunk whose text stands keeps a vector made under an earlier title,
  and a second row for one identity survives every sync (`EmbeddingLaws.DroppedChunkStays`,
  `EmbeddingLaws.RetitledChunkIsStale`, `EmbeddingVectors.TenderVectorsAreFreshIff`, `EmbeddingLaws.SyncIsFreshIff`).
- A payload that comes back is not stored again, so a replay brings the superseded notice back
  (`IngestionLaws.RecurringPayloadResurrectsTheOld`). The condition speaks of the latest ingest that stored
  something (`IngestionLaws.ReparseIsUnchangedIff`, `IngestionLaws.ReparseFollowsLastStored`); one that ends
  UNCHANGED stores nothing and neither repairs nor spoils the replay
  (`IngestionLaws.UnchangedIngestKeepsReplay`, `IngestionLaws.CosmeticPageIsNotStored`).
- One more facet can lower a similarity (`ScoringLaws.SecondFacetMayLower`,
  `ScoringLaws.AddingFacetLowersIff`), and a first chunk can lower it below the 0 of having none
  (`ScoringLaws.FirstChunkMayLower`, `ScoringLaws.FirstChunkLowersIff`, `ScoringLaws.SignOfCosinesDecides`).

## Model

| member | source | states |
|---|---|---|
| `Ndcg.ComputeDcg` | backend/scripts/eval_matching.py:76-80 | the loop computes the discounted gain of the first k labels |
| `Ndcg.ComputeNdcg` | backend/scripts/eval_matching.py:69-83 | the metric: gain over the gain of the descending order, 0 when that is 0 |
| `Ndcg.GainDoubles` | backend/scripts/eval_matching.py:79 | label 0 gains nothing, and one label step doubles the gain and adds one |
| `Ndcg.DcgOfOneMore` | backend/scripts/eval_matching.py:76-80 | within the first k each further label adds its gain times the discount of its position |
| `Ndcg.InsertImproves` | backend/scripts/eval_matching.py:76-83 | bubbling one label into its place never lowers the gain, and under falling discounts costs nothing only if the top k stay the same |
| `Ndcg.SortIsIdeal` | backend/scripts/eval_matching.py:80-83 | sorting descending never lowers the top-k gain; equality only when the top k were sorted already |
| `Ndcg.NoOrderBeatsDescending` | backend/scripts/eval_matching.py:80-83 | no ordering of the same labels gains more in its top k than the descending one |
| `Ndcg.NdcgIsAFraction` | backend/scripts/eval_matching.py:69-83 | the metric lies in [0, 1] for all labels, k and discounts |
| `Ndcg.PerfectScoreIff` | backend/scripts/eval_matching.py:69-83 | it is 1 exactly when the top k are the best k in order and some counted label is positive; 0 exactly when none is |
| `Ndcg.DescendingScoresOne` | backend/scripts/eval_matching.py:69-83 | a non-increasing list with a positive label scores 1 |
| `Calibration.F1IsDice` | backend/scripts/calibrate_thresholds.py:37-51 | F1 is 2·hits/(predicted + relevant), 0 without hits, in [0, 1], and 1 exactly when the cut-off separates relevant from not |
| `Calibration.F1ExtremesIff` | backend/scripts/calibrate_thresholds.py:37-51 | F1 is 0 exactly when no label of 2 or more reaches the cut-off, and 1 exactly when those that reach it are those labels and there is one |
| `Calibration.BestThresholdIsHighestOfTheBest` | backend/scripts/calibrate_thresholds.py:54-59 | the rounded cut-off is a grid point no grid point beats, and the highest of those that tie; the rounded score is within half a thousandth of its own |
| `Clock.LocalDateIsMonotone` | backend/app/core/time.py:15-22 | local dates never go back as time goes on |
| `Clock.DaysBetween` | backend/app/core/time.py:25-31 | whole days rounded down, also for a past end |
| `Scoring.ComputeDot` | backend/app/modules/matching/scoring.py:84-90 | the dot product, with unequal lengths rejected |
| `Scoring.FindBestChunk` | backend/app/modules/matching/scoring.py:111-121 | the inner loop finds the best chunk, or reports a mismatch exactly when some chunk has another length |
| `Scoring.ScoreFacets` | backend/app/modules/matching/scoring.py:93-131 | the nested loops compute every facet's best score and the clamped blend; no facets or chunks give 0 |
| `Scoring.BestChunkIsFirstBest` | backend/app/modules/matching/scoring.py:111-121 | the chosen chunk is the first among those of maximal cosine; none is named exactly when none beats -1 |
| `Scoring.MoreChunksScoreNoWorse` | backend/app/modules/matching/scoring.py:111-121 | a facet's best score over more chunks is no lower |
| `Scoring.CosineOfUnitVectors` | backend/app/modules/matching/scoring.py:84-90 | for unit vectors the dot product lies in [-1, 1] |
| `ScoringLaws.SimilarityIgnoresFacetOrder` | backend/app/modules/matching/scoring.py:107-131 | permuting facets leaves the similarity |
| `ScoringLaws.SimilarityIgnoresChunkOrder` | backend/app/modules/matching/scoring.py:107-131 | permuting chunks leaves the similarity |
| `ScoringLaws.RecommendIsMonotone` | backend/app/modules/matching/scoring.py:177-203 | a better grade and eligibility never recommend less |
| `ScoringLaws.DominanceSurvives` | backend/app/modules/matching/scoring.py:111-203 | if every facet's best cosine rises or stands, so do similarity, grade and recommendation, through sort, top-k mean and clamp |
| `ScoringLaws.AddingChunksNeverLowers` | backend/app/modules/matching/scoring.py:107-131 | more chunks never lower a similarity that had any |
| `ScoringLaws.FirstChunkLowersIff` | backend/app/modules/matching/scoring.py:107-131 | no facets or no chunks score 0, and having both scores below that exactly when the weighted best and top-k mean are negative |
| `ScoringLaws.SignOfCosinesDecides` | backend/app/modules/matching/scoring.py:107-131 | when every facet's best cosine is at least 0 the first chunk never lowers the similarity, and when all are negative it always does |
| `ScoringLaws.FirstChunkMayLower` | backend/app/modules/matching/scoring.py:107-131 | a unit-length first chunk that points away from the facet lowers the similarity below that of no chunks |
| `ScoringLaws.AddingFacetLowersIff` | backend/app/modules/matching/scoring.py:122-131 | one more facet lowers the similarity exactly when fewer than max(1, top_facets) exist, the mean has weight, it scores below the mean, and the clamp does not hide it |
| `ScoringLaws.AddingUnitFacetLowersIff` | backend/app/modules/matching/scoring.py:122-131 | for unit vectors and weights summing to 1 the first three conditions are exact |
| `ScoringLaws.SecondFacetMayLower` | backend/app/modules/matching/scoring.py:122-131 | a second facet at right angles to the notice lowers the similarity of a perfect first one |
| `ScoringLaws.AddingFacetNeverLowers` | backend/app/modules/matching/scoring.py:122-131 | from max(1, top_facets) facets on, adding one never lowers the similarity |
| `ScoringLaws.SimilarityIsBetween` | backend/app/modules/matching/scoring.py:122-131 | with weights summing to 1 the similarity lies between the top-k mean and the best facet |
| `ScoringLaws.OnlyTheTopCounts` | backend/app/modules/matching/scoring.py:122-131 | beyond the best max(1, top_facets) facets the others leave the similarity as it is |
| `ScoringLaws.AllOfFewCount` | backend/app/modules/matching/scoring.py:122-131 | up to that many facets it is max_weight times the best score plus mean_weight times the mean of all, clamped |
| `ScoringLaws.GradeIff` | backend/app/modules/matching/scoring.py:134-143 | each grade is reached exactly from its cut-off on |
| `ScoringLaws.RecommendIff` | backend/app/modules/matching/scoring.py:177-203 | BID exactly for S or A, eligible and not past; SKIP exactly for C, ineligible or past |
| `ScoringLaws.UrgencyIff` | backend/app/modules/matching/scoring.py:146-174 | expired from the deadline itself on; critical, high and normal end with the third, seventh and twenty-first local day after today |
| `ScoringLaws.UrgencyOnlyTightens` | backend/app/modules/matching/scoring.py:146-190 | for a fixed deadline time only tightens urgency, and expiry is final |
| `EmbeddingText.FacetsAreDistinct` | backend/app/ai/embeddings.py:86-142 | no two facets of a profile share an identity |
| `EmbeddingText.ChunksAreDistinct` | backend/app/ai/embeddings.py:145-189 | a notice always has its headline chunk, and its scope chunk exactly when the extraction says something; identities are distinct |
| `EmbeddingText.SamePromptIff` | backend/app/ai/base.py:118-125 | for one body, prompts differ exactly for chunks under different titles |
| `EmbeddingTextLaws.StripIs` | backend/app/ai/embeddings.py:38-43 | stripping takes white space off both ends and nothing else |
| `EmbeddingTextLaws.ServiceSays` | backend/app/ai/embeddings.py:116-126 | each service has the one facet that says its name, description and sector, stripped, in this order, one space between those not blank and cut to length; none when all are blank |
| `EmbeddingTextLaws.ProjectSays` | backend/app/ai/embeddings.py:128-140 | each past project likewise: title, description, client, sector, country |
| `EmbeddingTextLaws.OverviewSays` | backend/app/ai/embeddings.py:88-97 | the overview likewise |
| `EmbeddingTextLaws.LabelsSay` | backend/app/ai/embeddings.py:99-114 | one facet says the sectors, the geographies after "operating in", and the keywords |
| `EmbeddingTextLaws.SeparateAt` | backend/app/ai/embeddings.py:101-105 | such a list can be taken apart at any label: what is before it, the label, what is after it, commas between |
| `EmbeddingTextLaws.ChunksSay` | backend/app/ai/embeddings.py:156-187 | the headline says title, buyer, category, method, summary and description, the scope what was extracted |
| `EmbeddingTextLaws.EditShowsIff` | backend/app/ai/embeddings.py:42-43 | one field edited leaves the text as it was exactly when the field is the same, white space at its ends apart |
| `EmbeddingTextLaws.SentIff` | backend/app/ai/embeddings.py:215-233 | from a fresh table an item is sent to the model exactly when it is new or its text is |
| `EmbeddingTextLaws.EditedServiceIsSent` | backend/app/ai/embeddings.py:116-126 | after one field of a service was edited, the next sync sends just that facet, exactly when the field reads differently and neither text is cut |
| `EmbeddingTextLaws.EditedProjectIsSent` | backend/app/ai/embeddings.py:128-140 | the same of a past project |
| `EmbeddingTextLaws.EditedNoticeIsSent` | backend/app/ai/embeddings.py:156-171 | the same of a notice's own fields: just the headline is sent, after a new title too |
| `EmbeddingStore.PlanEmbeddings` | backend/app/ai/embeddings.py:215-233 | the plan splits items into those whose stored hash stands and those to embed, in order |
| `EmbeddingStore.IndexByIdentity` | backend/app/modules/matching/embedding_store.py:84-88 | the lookup by identity keeps the last row of the model for each |
| `EmbeddingStore.Table.WriteVectors` | backend/app/modules/matching/embedding_store.py:95-118 | the loop overwrites the rows of known identities and adds the rest |
| `EmbeddingStore.Table.DeleteRows` | backend/app/modules/matching/embedding_store.py:120-127 | exactly the rows not kept are removed, in order |
| `EmbeddingStore.Table.SyncEmbeddings` | backend/app/modules/matching/embedding_store.py:55-139 | one sync: plan, write, and for profiles sweep orphans and other models |
| `EmbeddingLaws.SyncIsFreshIff` | backend/app/modules/matching/embedding_store.py:76-189 | one sync leaves exactly one current row per item if and only if the table had no identity twice, no standing text under another title and, where orphans are not swept, no orphan |
| `EmbeddingLaws.HistoryKeepsKeysDistinct` | backend/app/modules/matching/embedding_store.py:76-189 | over every history of syncs no identity is stored twice for a model, and every vector is that of its text under the title it was embedded with |
| `EmbeddingLaws.ProfileSyncEqualsRebuild` | backend/app/modules/matching/embedding_store.py:76-129 | after any history of edits and model switches the profile's rows are those of deleting everything and re-embedding |
| `EmbeddingLaws.TenderSyncIsFreshIff` | backend/app/modules/matching/embedding_store.py:141-189 | after any history of a notice its rows are current, title included, exactly when no chunk of this model had disappeared and none whose text stands was embedded under another title |
| `EmbeddingVectors.TenderVectorsAreFreshIff` | backend/app/modules/matching/embedding_store.py:141-189 | the same of the stored columns alone: the vectors are those of embedding afresh for every embedder exactly under that condition |
| `EmbeddingVectors.SameAfter` | backend/app/modules/matching/embedding_store.py:76-189 | which rows a history leaves, with which hashes, does not depend on the embedder |
| `SyncedScores.FreshLooksRebuilt` | backend/app/modules/matching/embedding_store.py:192-213 | a fresh table shows scoring the same identities and vectors as one embedded from scratch |
| `SyncedScores.SyncedScoresEqualRebuilt` | backend/app/modules/matching/embedding_store.py:192-213 | over any histories of profile and notice, the similarity from incrementally synced vectors is that from embedding both afresh, given the notice's condition |
| `EmbeddingLaws.DroppedChunkStays` | backend/app/modules/matching/embedding_store.py:184-189 | a scope chunk that disappears beside the standing headline keeps its vector through the next sync |
| `EmbeddingLaws.RetitledChunkIsStale` | backend/app/modules/matching/embedding_store.py:159-182 | after a retitling the scope chunk keeps the vector made under the old title, where embedding afresh uses another prompt |
| `EmbeddingLaws.FreshNeedsNoEmbedding` | backend/app/ai/embeddings.py:215-233 | syncing a fresh table sends nothing to the model |
| `Fingerprint.DecimalIsInjective` | backend/app/modules/matching/scoring.py:222-229 | version numbers keep apart as text |
| `Fingerprint.FingerprintIsInjective` | backend/app/modules/matching/scoring.py:206-230 | equal fingerprints mean all six parts are equal, even for a model name that contains the separator |
| `Extractions.ExtractionTable.Retire` | backend/app/jobs/tasks/matching.py:82-83 | the loop clears every current flag and nothing else |
| `Extractions.ExtractionTable.RunExtraction` | backend/app/jobs/tasks/matching.py:59-105 | one attempt: the current row again for the same input, else a new current row |
| `Extractions.RunsKeepRows` | backend/app/jobs/tasks/matching.py:71-105 | over any attempts: one current row, the newest, versions without gaps, and no earlier row rewritten |
| `Extractions.AttemptIsStored` | backend/app/jobs/tasks/matching.py:79-105 | an attempt that is no repeat becomes the current row with its own answer, input and success under the next version, and whatever follows that row keeps them |
| `Extractions.AnswerIsReadIff` | backend/app/jobs/tasks/matching.py:79-105 | an attempt's answer is what the current row holds exactly when it is no repeat or that row held the same |
| `Extractions.CurrentTellsTheAttemptIff` | backend/app/jobs/tasks/matching.py:79-104 | the current row tells how the latest attempt went unless it succeeded on the input the current row failed on |
| `Extractions.SuccessIsThrownAway` | backend/app/jobs/tasks/matching.py:79-83 | a run that ends with the failed attempt current though the later one succeeded |
| `Matching.DigestIsInjective` | backend/app/modules/matching/service.py:118-125 | two match calls have the same fingerprint exactly when versions, row ids, model and content hash agree |
| `Matching.MatchStore.MatchTenderForOrg` | backend/app/modules/matching/service.py:96-246 | one call: skip and refresh urgency, or store nothing without vectors, or score, rule and store |
| `Matching.MatchStore.Store` | backend/app/modules/matching/service.py:187-235 | the row is written whole, first-match time kept, and history grows exactly when created or moved |
| `Matching.MatchTable.AgeMatchUrgency` | backend/app/jobs/tasks/maintenance.py:89-113 | every open row gets the urgency of now and nothing else changes; returns how many moved |
| `MatchingLaws.CallStoresIff` | backend/app/modules/matching/service.py:144-164 | a call not skipped stores something exactly when both sides have vectors and all are of one length |
| `MatchingLaws.StoredRowIsJudged` | backend/app/modules/matching/service.py:162-218 | what it stores: ineligible exactly when an enabled hard rule rejects, or asks and was ruled false; for a human exactly when none does and some asks without a ruling; the grade of the similarity of the stored vectors; and the recommendation of both |
| `MatchingLaws.RowIsJudgedInEveryRun` | backend/app/modules/matching/service.py:162-218 | in every run the stored eligibility and grade are those of what the row's key names, with the rulings, rates and vectors of its scoring |
| `MatchingLaws.HistoryRecordsMoves` | backend/app/modules/matching/service.py:200-235 | a call writes one history record exactly when the match is new or its grade, eligibility or recommendation moved, and the record says what the row says |
| `MatchingLaws.PortalValueWins` | backend/app/modules/rules/facts.py:44-115 | a rule reads the portal's value where there is one and the extracted one elsewhere; how sure the extraction is never counts for the portal's four attributes |
| `MatchingLaws.StepIsNoticedIff` | backend/app/modules/matching/service.py:118-133 | a match that would be skipped is scored again after an edit exactly when that edit moved the fingerprint; rulings, rates, vectors, closing and the first calibration do not |
| `MatchingLaws.NextExtends` | backend/app/modules/rules/service.py:212-267 | no step rewrites a profile version, rule set version, extraction or thresholds row |
| `MatchingLaws.NextKeepsInv` | backend/app/modules/matching/service.py:114-217 | after every step the stored verdict is what its recorded versions give, under the surroundings of its scoring |
| `MatchingLaws.SkippedMatchIsCurrentIff` | backend/app/modules/matching/service.py:114-142 | in every run where vectors, rulings, rates and unhashed fields are as at the scoring and no first calibration fell in between, a skipped call leaves the row rescoring would store (recommendation apart) exactly when no date rule in force turned since |
| `MatchingLaws.SkippedMatchEqualsRecomputationIff` | backend/app/modules/matching/service.py:114-142 | in every such run, ageing included, the two rows are equal outright exactly when moreover the recommendation was right already or the urgency moves now |
| `MatchingLaws.AssessmentStandsIff` | backend/app/modules/matching/service.py:162-176 | an assessment is the same at two instants exactly when no enabled date rule turns between them, whatever the rulings; the score never changes |
| `MatchingRuns.DateRulesGoStale` | backend/app/modules/matching/service.py:131-142 | a run where a skipped call keeps ELIGIBLE though the rule asking for a week before the deadline now rejects |
| `MatchingLaws.ThresholdsAgreeIff` | backend/app/modules/matching/service.py:62-84 | at a skip the thresholds are those of the scoring, except exactly after a first calibration that changed the defaults |
| `MatchingRuns.FirstCalibrationGoesUnseen` | backend/scripts/calibrate_thresholds.py:119-141 | a run where a skipped call keeps an S though rescoring under the first stored thresholds gives an A |
| `MatchingLaws.EveryRunIsAccounted` | backend/app/modules/matching/service.py:200-235 | in every run the row recommends Skip or what the matrix says, the last history row has its grade and eligibility, history only grows and the first-match time stays |
| `MatchingLaws.RunFollowsMatrixIff` | backend/app/modules/matching/service.py:131-142 | in every run, ageing included, the recommendation is recommend(grade, eligibility, u) for the urgency u it was last computed with, and right now exactly when u and the present urgency agree on EXPIRED or the matrix says Skip |
| `MatchingLaws.RunsFollowTheMatrix` | backend/app/jobs/tasks/maintenance.py:89-113 | while ageing never crosses EXPIRED, recommendation = recommend(grade, eligibility, urgency) in every run |
| `MatchingLaws.NextFollowsMatrixIff` | backend/app/jobs/tasks/maintenance.py:106-110 | a step keeps that equation exactly when it does not age the row across EXPIRED or the matrix says Skip |
| `MatchingRuns.ExpiredMatchStillBids` | backend/app/jobs/tasks/maintenance.py:106-110 | a run: scored BID, aged at the deadline, called again and skipped; the row is expired and still says BID |
| `MatchingLaws.CallRepairsIff` | backend/app/modules/matching/service.py:133-142 | a skipped call restores it only if urgency moved; a scored one always does |
| `Money.ComparableIff` | backend/app/modules/rules/engine.py:150-174 | two amounts compare exactly when currencies agree or both convert |
| `Money.LimitInTheBase` | backend/app/modules/rules/engine.py:139-174 | x of a currency is at most y of the base exactly when x <= y * rate |
| `Money.CrossRates` | backend/app/modules/rules/engine.py:139-174 | x of one currency is at most y of another exactly when x times the rate of the second is at most y times the rate of the first |
| `Money.CurrenciesCompareIff` | backend/app/modules/rules/engine.py:150-174 | amounts of one currency compare as they stand; of two, exactly when each is the base or has a rate that is not zero |
| `Money.ShortcutAgreesWithConverting` | backend/app/modules/rules/engine.py:150-174 | for positive rates the same-currency shortcut answers as converting would |
| `Money.ComparisonIsAnOrder` | backend/app/modules/rules/engine.py:127-174 | comparability is an equivalence and the order total and transitive within it, across currencies |
| `Money.NegativeRateBreaksTheOrder` | backend/app/modules/rules/engine.py:139-147 | positive rates are needed |
| `Money.BetweenIsBothBounds` | backend/app/modules/rules/engine.py:229-244 | BETWEEN is the conjunction of its comparable bounds, undecided exactly when neither compares |
| `Money.BetweenBoundsTheWorth` | backend/app/modules/rules/engine.py:229-244 | with both bounds known it says whether the worth lies between them |
| `Rules.ApplyOverrides` | backend/app/modules/rules/service.py:100-126 | the loop replaces unresolved results that have a ruling, and only those |
| `Rules.StatusOfConcatenation` | backend/app/modules/rules/engine.py:98-110 | the status of two sets together is the worse one |
| `Rules.StatusIsWorst` | backend/app/modules/rules/engine.py:98-110 | the status is the worst outcome among hard rules |
| `Rules.VerdictIff` | backend/app/modules/rules/engine.py:326-463 | ineligible exactly when an enabled hard rule is false or is undecided and says fail; for a human exactly when none rejects and some asks |
| `Rules.OnlyEnabledHardRulesCount` | backend/app/modules/rules/engine.py:98-110 | order, soft rules and disabled rules never change the status |
| `Rules.OperatorsPointAtTheNotice` | backend/app/modules/rules/engine.py:229-311 | the notice's number, amount or date is on the left of the operator, the expected one on the right |
| `Rules.BetweenIsBothOperators` | backend/app/modules/rules/engine.py:229-260 | for money and numbers a range is at-least its low end and at-most its high one, of those that compare |
| `Rules.ListsAreLookedUp` | backend/app/modules/rules/engine.py:261-278 | the notice's labels are looked up in the expected list: all for subset-of and in, any for intersects, none for not-in |
| `Rules.KeyReads` | backend/app/core/text.py:13-20 | labels read the same whatever their case and what follows their first colon |
| `Rules.KeyIsEmptyIff` | backend/app/core/text.py:13-20 | and nothing is left exactly of one without a letter or digit |
| `Rules.ContainsIff` | backend/app/modules/rules/engine.py:284-292 | a text contains a term exactly when the stripped term stands somewhere in it, capitals or not |
| `Rules.TextIgnoresCase` | backend/app/modules/rules/engine.py:284-292 | the text operators answer alike for a text in capitals |
| `Rules.ListOperatorsRelate` | backend/app/modules/rules/engine.py:261-278 | how the four list operators relate, and what an empty list means to each |
| `Rules.IntegerBetweenIsBothBounds` | backend/app/modules/rules/engine.py:246-260 | a number is between exactly when it passes every bound given; no bound is no answer |
| `Rules.TextOperatorsAreOpposite` | backend/app/modules/rules/engine.py:284-292 | with terms exactly one of the two text operators holds, and more terms only help the first |
| `Rules.DateRulesAge` | backend/app/modules/rules/engine.py:294-311 | as time goes on enough days left only turns false, and a date within reach drops out only by passing |
| `Rules.EvaluationStandsIff` | backend/app/modules/rules/engine.py:294-311 | an evaluation is the same at two instants exactly when no enabled date rule with a usable date and expectation passes its boundary between them |
| `Rules.OverridesAreIdempotent` | backend/app/modules/rules/service.py:100-126 | ruling twice is ruling once, and decided results stay |
| `Rules.OverridesSettleIff` | backend/app/modules/rules/service.py:100-126 | a ruled set still asks exactly when nothing hard fails and a hard question has no ruling; rulings neither rescue a rejection nor spoil an eligible tender |
| `Rules.RuledVerdictIff` | backend/app/modules/rules/service.py:100-181 | after rulings: ineligible exactly when an enabled hard rule rejects, or asks and is ruled false; for a human exactly when none does and some asks without a ruling |
| `Preview.CountResults` | backend/app/modules/rules/preview.py:110-120 | the inner loop adds each result to its own rule's bucket |
| `Preview.RunPreview` | backend/app/modules/rules/preview.py:84-135 | the loops compute totals, buckets and the first samples |
| `Preview.CountsAddUp` | backend/app/modules/rules/preview.py:84-120 | totals and every bucket sum to the pool |
| `Preview.BucketGrows` | backend/app/modules/rules/preview.py:110-120 | each notice counts for a rule as met, failed or open by what the rule finds, or says of finding nothing |
| `Preview.EachHardRuleIsALowerBound` | backend/app/modules/rules/preview.py:84-120 | total ineligible is at least each hard rule's count |
| `Preview.HardRulesAreAnUpperBound` | backend/app/modules/rules/preview.py:84-120 | and at most their sum, equal exactly when no notice is rejected twice |
| `Preview.SamplesAreCounted` | backend/app/modules/rules/preview.py:122-133 | there are as many samples as notices flagged or excluded, up to the size asked for |
| `Preview.SamplesTell` | backend/app/modules/rules/preview.py:122-133 | they are the first such notices in order, each with its verdict, exactly the rules that fail it and exactly those that cannot decide |
| `Sessions.AuthService.IssueSession` | backend/app/modules/auth/service.py:185-245 | one session is added, in the given family or a new one |
| `Sessions.AuthService.Login` | backend/app/modules/auth/service.py:158-245 | a new family for an active account, refusal otherwise |
| `Sessions.AuthService.RotateSession` | backend/app/modules/auth/service.py:258-306 | rotation with all its refusals; a revoked token revokes its family |
| `Sessions.AuthService.RevokeSession` | backend/app/modules/auth/service.py:309-314 | logout revokes the presented session only |
| `Sessions.AuthService.RevokeAllSessions` | backend/app/modules/auth/repository.py:86-97 | every unrevoked session of the user is revoked |
| `Sessions.StepKeepsValid` | backend/app/modules/auth/service.py:258-306 | every request keeps: each session links to the next of its family, and only a family's newest may be unrevoked |
| `Sessions.ChainIsTheFamily` | backend/app/modules/auth/service.py:294-305 | following links visits exactly the later sessions of the family and ends at the newest |
| `Sessions.FamiliesAreChains` | backend/app/modules/auth/service.py:185-318 | in every run a family has at most one unrevoked session, at the end of its one acyclic chain |
| `Sessions.DeadStaysDead` | backend/app/modules/auth/repository.py:71-97 | a family without an unrevoked session never gains one again |
| `Sessions.AcceptedIff` | backend/app/modules/auth/service.py:258-306 | in every run a token is accepted exactly when it is the newest of its family, unrevoked, unexpired and of an active account; only reuse changes state on refusal |
| `Sessions.TouchedIff` | backend/app/modules/auth/service.py:258-353 | a request revokes exactly the unrevoked sessions it is about, at its own time, and leaves every other as it was |
| `Sessions.RefusedBecause` | backend/app/modules/auth/service.py:265-292 | a refresh is refused for the first of: unknown token, revoked, expired, account disabled |
| `Sessions.SessionsAdded` | backend/app/modules/auth/service.py:185-306 | only a sign-in or a refresh that is answered adds a session, and it adds one |
| `Sessions.SignInIsAccepted` | backend/app/modules/auth/service.py:158-245 | signing in to an active account opens a family of its own, whose token is accepted for exactly thirty days |
| `Sessions.LogoutIsFinal` | backend/app/modules/auth/service.py:309-314 | in every run a token logged out is treated as stolen ever after |
| `Sessions.LogoutEndsTheFamily` | backend/app/modules/auth/service.py:309-314 | and if it was not revoked before, no token of its family is accepted again |
| `Sessions.DisabledIsShutOut` | backend/app/modules/auth/service.py:171-292 | an account disabled can neither sign in nor refresh until it is enabled; then it can sign in, and unrevoked unexpired sessions go on |
| `Sessions.OtherAccountsStand` | backend/app/modules/auth/service.py:171-292 | switching one account touches no session and no other account |
| `Sessions.TokenExchangedOnce` | backend/app/modules/auth/service.py:258-306 | after a token is exchanged every later presentation is treated as reuse |
| `Sessions.ReuseEndsTheFamily` | backend/app/modules/auth/service.py:271-285 | after a revoked token is presented no token of that family, old or new, is accepted |
| `Sessions.SigningOutEverywhereIsFinal` | backend/app/modules/auth/service.py:317-353 | logout-all and password reset end every family of the user |
| `Digest.OrgDigest.BuildDigest` | backend/app/jobs/tasks/notifications.py:359-421 | the selection: qualifying matches by similarity, the first picks and the first questions |
| `Digest.OrgDigest.SendDailyDigest` | backend/app/jobs/tasks/notifications.py:293-348 | one digest a date, stamped even when empty, built from the window since the last |
| `Digest.DigestReportsIff` | backend/app/jobs/tasks/notifications.py:367-383 | a digest counts exactly the stored matches that qualify in its window |
| `Digest.DigestShowsTheBest` | backend/app/jobs/tasks/notifications.py:386-411 | the picks are the five most similar of those counted and the questions the five most similar that need verification: one left out is no more similar than any listed |
| `Digest.WindowsReachBack` | backend/app/jobs/tasks/notifications.py:351-356 | every window opens at the digest time of the date of the digest before, the first at yesterday's |
| `Digest.OneDigestPerDate` | backend/app/jobs/tasks/notifications.py:301-315 | in every run at most one digest per local date, and one on each date the job runs |
| `Digest.NoGapIff` | backend/app/jobs/tasks/notifications.py:301-356 | windows cover every moment from the first window to the latest digest exactly when each digest but the latest was at or after its local time |
| `Digest.AtMostTwoDigests` | backend/app/jobs/tasks/notifications.py:351-356 | a match is in at most two windows, and those are neighbours |
| `Digest.MissedIff` | backend/app/jobs/tasks/notifications.py:301-383 | with stamp and commit apart, a match is in no digest exactly when it is committed after one was built and stamped before the window of the next |
| `Digest.OnlyOpenTransactionsSlip` | backend/app/jobs/tasks/notifications.py:301-383 | with digests on time only a match whose transaction was open while one was built can be missed |
| `Digest.SlowCommitSlips` | backend/app/jobs/tasks/notifications.py:301-383 | such a match |
| `Digest.DueMeansOnTime` | backend/app/jobs/tasks/notifications.py:268-279 | a queued digest is on time if built on the date it was queued |
| `Digest.DigestAfterMidnightLeavesAGap` | backend/app/jobs/tasks/notifications.py:268-356 | a run where a match is in no digest |
| `Reminders.ReminderStore.Claim` | backend/app/modules/notifications/service.py:334-370 | true the first time and false while the row stands |
| `Reminders.ReminderStore.DeadlineReminderSweep` | backend/app/jobs/tasks/notifications.py:467-540 | the sweep claims and posts each due reminder not yet in the ledger |
| `Reminders.ReminderStore.PurgeOldNotifications` | backend/app/jobs/tasks/maintenance.py:231-258 | exactly the ledger rows older than 180 days go |
| `Reminders.RepeatMeansDeadlineMoved` | backend/app/jobs/tasks/maintenance.py:231-258 | in any run the same reminder repeats only for a deadline moved by more than 179 days |
| `Reminders.SweepPostsIff` | backend/app/jobs/tasks/notifications.py:478-517 | a sweep posts a reminder once if it is due, wanted and not in the ledger, and not at all otherwise |
| `Reminders.PostedAgainIff` | backend/app/jobs/tasks/maintenance.py:229-254 | after a purge a reminder posted before is posted again exactly when that was more than 180 days before the purge |
| `Reminders.MovedDeadlineIsPostedAgain` | backend/app/jobs/tasks/maintenance.py:229-254 | the runs in which that happens for a deadline that moved |
| `Reminders.PostedAtMostOnce` | backend/app/jobs/tasks/notifications.py:493-517 | with a fixed deadline no reminder is posted twice, purges or not |
| `Reminders.PostedIffHit` | backend/app/jobs/tasks/notifications.py:478-517 | with a fixed deadline, however bid and settings come and go, an offset is posted exactly when some sweep finds the open bid that many days ahead while it is wanted |
| `Reminders.PostedIff` | backend/app/jobs/tasks/notifications.py:493-517 | with a bid that stands throughout, exactly when a sweep falls in the offset's day |
| `Reminders.EveryOffsetExactlyOnce` | backend/app/jobs/tasks/notifications.py:493-517 | from the first sweep that sees the bid, whatever came before: sweeps at most a day apart post every coming offset from 1 up exactly once; less than a day apart, offset 0 too |
| `Reminders.DailySweepsCanMissTheLastDay` | backend/app/jobs/tasks/notifications.py:488-498 | sweeps exactly a day apart that miss offset 0 |
| `Ledger.Session.Claim` | backend/app/modules/notifications/service.py:334-370 | a claim succeeds exactly when neither the table nor the transaction has the key |
| `Ledger.Session.SendToRecipients` | backend/app/modules/notifications/service.py:382-437 | claim first, then queue each recipient once; the count is what was added |
| `Ledger.OneBatchBetweenPurges` | backend/app/modules/notifications/service.py:349-362 | under every interleaving the committed batches of a key are its purged ledger rows plus the standing one |
| `Ledger.BatchesCommitWhole` | backend/app/modules/notifications/service.py:391-428 | ledger row and mail of a batch commit together or not at all |
| `Ledger.NoMailTwice` | backend/app/modules/notifications/service.py:411-428 | no recipient is queued the same message twice, even after its ledger row was purged |
| `Ledger.NothingIsResentUntilPurged` | backend/app/modules/notifications/service.py:334-370 | under every interleaving no second batch of a key is committed while no purge reaches back to the commit of the first, and its ledger row keeps that time |
| `Ledger.PurgedKeyIsFree` | backend/app/jobs/tasks/maintenance.py:229-254 | exactly the rows older than the cut-off go, and their keys can be claimed again |
| `Ledger.RolledBackClaimIsFree` | backend/app/modules/notifications/service.py:349-370 | a rollback sends nothing and frees its claims for a worker that had to wait |
| `Ledger.UninterruptedSend` | backend/app/modules/notifications/service.py:382-437 | the protocol's steps, left alone, do what one call does |
| `Ingestion.TenderStore.StoreDocuments` | backend/app/ingestion/service.py:47-95 | payloads are added unless the notice has the bytes already |
| `Ingestion.TenderStore.UpsertTender` | backend/app/ingestion/service.py:98-166 | created, updated with the next version, or unchanged and only seen |
| `Ingestion.TenderStore.LoadDocuments` | backend/app/ingestion/reprocess.py:55-97 | the first readable payload of each kind, newest first |
| `Ingestion.TenderStore.RebuildListing` | backend/app/ingestion/reprocess.py:108-119 | the first listing payload that is JSON decides; one that is no object gives no fields |
| `Ingestion.TenderStore.ReparseTender` | backend/app/ingestion/reprocess.py:131-170 | load, normalise, upsert without documents |
| `IngestionLaws.VersionCountsChanges` | backend/app/ingestion/service.py:112-146 | version is 1 plus the number of content changes in the ingest history |
| `IngestionLaws.StoredDataIsLastStored` | backend/app/ingestion/service.py:132-146 | over every history the stored fields are those of the latest capture that was created or updated, and the hash is theirs |
| `IngestionLaws.StoredDataIsLastWritten` | backend/app/ingestion/reprocess.py:131-170 | over every run of captures and replays, under parsers that change, the stored fields are what the parser of the latest event that wrote made of what it read, and the version counts those events |
| `IngestionLaws.LoadIsNewest` | backend/app/ingestion/reprocess.py:65-97 | loading gives the newest payload of each kind among those not lost, however the database orders rows created together |
| `IngestionLaws.StoredCaptureIsNewestIff` | backend/app/ingestion/service.py:64-95 | a stored capture is what loading gives back exactly when each payload is new or already the newest of its kind and no stored kind is missing |
| `IngestionLaws.PayloadsDecide` | backend/app/ingestion/reprocess.py:100-128 | equal payloads normalise to the same notice in any order |
| `IngestionLaws.FirstJsonDecides` | backend/app/ingestion/reprocess.py:108-119 | the first listing payload that is JSON decides, and one that is no object says nothing |
| `IngestionLaws.SurvivorReplays` | backend/app/ingestion/reprocess.py:144-157 | reparsing right after such a store is UNCHANGED for every parser and leaves version and payloads |
| `IngestionLaws.ReparseIsUnchangedIff` | backend/app/ingestion/reprocess.py:144-157 | the capture meets that condition exactly when every parser that has it stored reparses it as UNCHANGED |
| `IngestionLaws.UnchangedIngestKeepsReplay` | backend/app/ingestion/service.py:132-139 | an ingest that ends UNCHANGED leaves what any reparse gives as it was |
| `IngestionLaws.ReplayReadsLastStoredIff` | backend/app/ingestion/reprocess.py:55-97 | after any history a replay reads exactly the payloads of the latest stored capture if and only if that capture met the condition |
| `IngestionLaws.ReparseFollowsLastStored` | backend/app/ingestion/reprocess.py:131-170 | after any history a reparse is UNCHANGED, and keeps version and payloads, whenever the latest stored capture met the condition |
| `IngestionLaws.CosmeticPageIsNotStored` | backend/app/ingestion/reprocess.py:131-170 | after pages a, b, a, a page that parses like a is not stored and a reparse still brings b back |
| `IngestionLaws.ReparseRightAfterIngest` | backend/app/ingestion/reprocess.py:131-170 | after any history with constant kinds and no recurring payload, a reparse is UNCHANGED and keeps version and payloads |
| `IngestionLaws.RecurringPayloadResurrectsTheOld` | backend/app/ingestion/reprocess.py:131-170 | after pages a, b, a a reparse stores b as version 4, for every parser to which the two pages differ |
| `RateLimit.Limiter.EnforceRateLimit` | backend/app/core/rate_limit.py:31-47 | count, start a window on the first hit, refuse beyond the limit |
| `RateLimit.OneWindowAdmitsTheLimit` | backend/app/core/rate_limit.py:31-47 | one window admits at most the limit |
| `RateLimit.TwiceTheLimit` | backend/app/core/rate_limit.py:31-47 | any closed interval as long as the window admits at most twice the limit, from any counter and for any timing |
| `RateLimit.TwiceTheLimitIsReached` | backend/app/core/rate_limit.py:31-47 | for every limit some timing reaches that bound |

## Left out

- Rules.CompareText: case and white space are those of ASCII, not of Unicode.
- Calibration.BestThreshold: the grid has a number of exact steps as a parameter; in floating point the
  same loop yields 65 candidates instead of 66.
- Clock.LocalDate: a zone is a fixed offset, so daylight-saving shifts of local midnight are not modelled.
- EmbeddingTextLaws.EditedServiceIsSent: texts longer than 8000 characters are cut, so an edit behind the cut
  reaches no vector; the law asks that neither text is cut.
- Sessions.DisabledIsShutOut: no route of the backend switches an account; the request stands for an edit of
  its row.
- Matching.FactsOf: merges extracted and portal values with the portal winning; the type filters and the
  currency fallback applied to extracted values are not modelled.
- Matching.Verdict: carries no explanation text, `score_breakdown` cut-off or metrics.
- MatchingLaws.Next: one organization and one tender; rows of others share only the rules above.
- Ingestion.Normalize: a parser sees the identifier, the listing fields and the payloads; the title, link
  and dates that `rebuild_ref` copies from the notice as fallbacks are not modelled. No parser of the
  repository reads them (backend/app/ingestion/adapters/egp_bd.py:397-478, worldbank.py:236-290), and the
  browser adapter delegates to the former.
- IngestionLaws.ReparseIsUnchangedIff: every blob is readable; `LoadIsNewest` covers lost ones.
- Sessions.Step: requests are atomic, so two concurrent rotations of one token are not modelled; neither
  are passwords, the single-use action token behind a reset, access tokens or organization switching.
- Reminders.EveryOffsetExactlyOnce: in-app reminders; the mail beside them has its own ledger key and is
  covered by `Ledger`.
- Ledger.Enabled: an insert that would wait for another transaction is a step not yet enabled; deadlocks
  and the order in which waiters wake are not modelled, nor are outbox delivery and retries.
- Digest.Build: no mail context, labels or upcoming-bid list beyond whether it is empty.
- Ingestion.StoreOne: two payloads with the same bytes in one capture; the source's lookup does not see rows
  added in the same capture (`autoflush=False`), so its unique constraint raises where the model skips.
- MatchingLaws.Lookup: a content hash determines the tender facts filed under it; the source strips texts and
  rounds the estimated value before hashing, so a change and back can leave facts that differ in those.
- EmbeddingLaws.ProfileSyncEqualsRebuild: compares rows apart from their titles, which a sync leaves alone
  while the text stands.
- `precision_at_k` and `recall_at_k` of the evaluation script: plain ratios.
- Preview.RunPreview: one clock reading for the whole pool, where each date rule reads the clock anew.
- Preview's pool loading and the per-tender test endpoint: queries.
- Portal clients, HTML parsing, the language model, Redis, SMTP, routers, migrations and the frontend: I/O.
- Organization roles, invitations, bid decisions, slugs and profile completeness: easier members.
