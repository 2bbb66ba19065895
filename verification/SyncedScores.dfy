/** Scoring from incrementally synced vectors, as backend/app/modules/matching/embedding_store.py
    loads them, against scoring from vectors embedded afresh. */
module SyncedScores {
  import EmbeddingText
  import opened EmbeddingStore
  import opened EmbeddingLaws
  import Scoring
  import ScoringLaws
  import Sorting

  // ----- loading ---------------------------------------------------------

  function FacetName(identity: EmbeddingText.Identity): string {
    match identity
    case Facet(Overview, _) => "overview"
    case Facet(SectorGeo, _) => "sector_geo"
    case Facet(Service, _) => "service"
    case Facet(PastProject, _) => "past_project"
    case Chunk(_) => ""
  }

  function ChunkName(identity: EmbeddingText.Identity): string {
    match identity
    case Chunk(TitleSummary) => "title_summary"
    case Chunk(ScopeRequirements) => "scope_requirements"
    case Facet(_, _) => ""
  }

  function LoadProfileVectors(rows: seq<StoredRow>, model: string): seq<Scoring.Facet> {
    if rows == [] then []
    else
      (if rows[0].model == model then [Scoring.Facet(FacetName(rows[0].identity), rows[0].title,
          rows[0].vector)] else [])
      + LoadProfileVectors(rows[1..], model)
  }

  function LoadTenderVectors(rows: seq<StoredRow>, model: string): seq<Scoring.Chunk> {
    if rows == [] then []
    else
      (if rows[0].model == model then [Scoring.Chunk(ChunkName(rows[0].identity), rows[0].vector)] else [])
      + LoadTenderVectors(rows[1..], model)
  }

  // ----- what scoring sees of a row --------------------------------------

  datatype Sight = Sight(identity: EmbeddingText.Identity, vector: Vector)

  function Map<A, B>(f: A -> B, s: seq<A>): (r: seq<B>)
    ensures |r| == |s| && forall i :: 0 <= i < |s| ==> r[i] == f(s[i])
  {
    if s == [] then [] else [f(s[0])] + Map(f, s[1..])
  }

  function Without<A>(s: seq<A>, i: nat): (r: seq<A>)
    requires i < |s|
    ensures |r| == |s| - 1 && forall k :: 0 <= k < |r| ==> r[k] == s[if k < i then k else k + 1]
  {
    s[..i] + s[i + 1..]
  }

  lemma MapWithout<A, B>(f: A -> B, s: seq<A>, j: nat)
    requires j < |s|
    ensures Map(f, Without(s, j)) == Without(Map(f, s), j)
  {
    forall k | 0 <= k < |s| - 1 ensures Map(f, Without(s, j))[k] == Without(Map(f, s), j)[k] {
      assert Without(s, j)[k] == s[if k < j then k else k + 1];
    }
  }

  lemma MapRest<A, B>(f: A -> B, s: seq<A>, j: nat)
    requires j < |s|
    ensures multiset(Map(f, s)) == multiset(Map(f, Without(s, j))) + multiset{f(s[j])}
  {
    MapWithout(f, s, j);
    ScoringLaws.RemoveAt(Map(f, s), j);
  }

  const SightOf: StoredRow -> Sight := (r: StoredRow) => Sight(r.identity, r.vector)

  function Sights(rows: seq<StoredRow>): seq<Sight> { Map(SightOf, rows) }

  lemma DifferentRows(rows: seq<StoredRow>, i: nat, k: nat)
    requires DistinctKeys(rows) && i < |rows| && k < |rows| && i != k
    ensures rows[i].identity != rows[k].identity
  {
    assert i < k || k < i;
  }

  lemma HolderIsNotLast(row: StoredRow, items: seq<EmbeddingText.Item>, model: string, embed: Embedder)
    requires items != [] && row.identity != items[|items| - 1].identity && HoldsSome(row, items, model, embed)
    ensures HoldsSome(row, items[..|items| - 1], model, embed)
  {
    var x :| x in items && Holds(row, x, model, embed);
    assert items == items[..|items| - 1] + [items[|items| - 1]];
  }

  lemma RestRowHolds(rows: seq<StoredRow>, items: seq<EmbeddingText.Item>, i: nat, k: nat, model: string,
      embed: Embedder)
    requires Fresh(rows, items, model, embed) && items != [] && i < |rows| && k < |rows| && k != i
    requires Holds(rows[i], items[|items| - 1], model, embed)
    ensures HoldsSome(rows[k], items[..|items| - 1], model, embed)
  {
    DifferentRows(rows, i, k);
    assert rows[k] in rows;
    HolderIsNotLast(rows[k], items, model, embed);
  }

  lemma RestItemHeld(rows: seq<StoredRow>, items: seq<EmbeddingText.Item>, i: nat, k: nat, model: string,
      embed: Embedder)
    requires Fresh(rows, items, model, embed) && EmbeddingText.DistinctIdentities(items)
    requires i < |rows| && k < |items| - 1 && Holds(rows[i], items[|items| - 1], model, embed)
    ensures HeldBySome(Without(rows, i), items[k], model, embed)
  {
    var x := items[k];
    assert x in items && x.identity != items[|items| - 1].identity;
    assert HeldBySome(rows, x, model, embed);
    var r :| r in rows && Holds(r, x, model, embed);
    var j :| 0 <= j < |rows| && rows[j] == r;
    assert Without(rows, i)[if j < i then j else j - 1] == r;
  }

  /** A fresh table stays fresh when an item and its row go. */
  lemma FreshWithoutOne(rows: seq<StoredRow>, items: seq<EmbeddingText.Item>, i: nat, model: string, embed: Embedder)
    requires Fresh(rows, items, model, embed) && items != [] && i < |rows|
    requires EmbeddingText.DistinctIdentities(items) && Holds(rows[i], items[|items| - 1], model, embed)
    ensures Fresh(Without(rows, i), items[..|items| - 1], model, embed)
  {
    var rest, fewer := Without(rows, i), items[..|items| - 1];
    forall r | r in rest ensures HoldsSome(r, fewer, model, embed) {
      var k :| 0 <= k < |rest| && rest[k] == r;
      RestRowHolds(rows, items, i, if k < i then k else k + 1, model, embed);
    }
    forall x | x in fewer ensures HeldBySome(rest, x, model, embed) {
      var k :| 0 <= k < |fewer| && fewer[k] == x;
      RestItemHeld(rows, items, i, k, model, embed);
    }
  }

  lemma OnlyNothingIsFreshForNothing(rows: seq<StoredRow>, model: string, embed: Embedder)
    ensures rows != [] ==> !Fresh(rows, [], model, embed)
  {
    if rows != [] {
      assert rows[0] in rows && !HoldsSome(rows[0], [], model, embed);
    }
  }

  lemma RebuildWithoutLast(items: seq<EmbeddingText.Item>, model: string, embed: Embedder)
    requires items != []
    ensures Without(Rebuild(items, model, embed), |items| - 1) == Rebuild(items[..|items| - 1], model, embed)
  {}

  lemma OneSightMore(rows: seq<StoredRow>, items: seq<EmbeddingText.Item>, i: nat, model: string, embed: Embedder)
    requires items != [] && i < |rows| && Holds(rows[i], items[|items| - 1], model, embed)
    requires multiset(Sights(Without(rows, i))) == multiset(Sights(Rebuild(items[..|items| - 1], model, embed)))
    ensures multiset(Sights(rows)) == multiset(Sights(Rebuild(items, model, embed)))
  {
    MapRest(SightOf, rows, i);
    MapRest(SightOf, Rebuild(items, model, embed), |items| - 1);
    RebuildWithoutLast(items, model, embed);
  }

  /** A fresh table and one embedded from scratch show scoring the same. */
  lemma {:induction false} FreshLooksRebuilt(rows: seq<StoredRow>, items: seq<EmbeddingText.Item>, model: string,
      embed: Embedder)
    requires Fresh(rows, items, model, embed) && EmbeddingText.DistinctIdentities(items)
    ensures multiset(Sights(rows)) == multiset(Sights(Rebuild(items, model, embed)))
    decreases |items|
  {
    if items == [] {
      OnlyNothingIsFreshForNothing(rows, model, embed);
    } else {
      var n := |items| - 1;
      assert items[n] in items;
      var r :| r in rows && Holds(r, items[n], model, embed);
      var i :| 0 <= i < |rows| && rows[i] == r;
      FreshWithoutOne(rows, items, i, model, embed);
      FreshLooksRebuilt(Without(rows, i), items[..n], model, embed);
      OneSightMore(rows, items, i, model, embed);
    }
  }

  // ----- from sights to scores -------------------------------------------

  lemma OneMoreMapped<A, B>(f: A -> B, a: seq<A>, b: seq<A>, j: nat)
    requires a != [] && j < |b| && b[j] == a[0]
    requires multiset(Map(f, a[1..])) == multiset(Map(f, Without(b, j)))
    ensures multiset(Map(f, a)) == multiset(Map(f, b))
  {
    MapRest(f, a, 0);
    MapRest(f, b, j);
    assert Without(a, 0) == a[1..];
  }

  lemma {:induction false} MapOfPermutation<A, B>(f: A -> B, a: seq<A>, b: seq<A>)
    requires multiset(a) == multiset(b)
    ensures multiset(Map(f, a)) == multiset(Map(f, b))
  {
    if a == [] {
      assert |multiset(b)| == 0;
    } else {
      assert a[0] in multiset(b);
      var j :| 0 <= j < |b| && b[j] == a[0];
      Sorting.DropHead(a);
      ScoringLaws.RemoveAt(b, j);
      MapOfPermutation(f, a[1..], Without(b, j));
      OneMoreMapped(f, a, b, j);
    }
  }

  const AsFacet: Sight -> Scoring.Facet := (s: Sight) => Scoring.Facet(FacetName(s.identity), "", s.vector)
  const AsChunk: Sight -> Scoring.Chunk := (s: Sight) => Scoring.Chunk(ChunkName(s.identity), s.vector)

  predicate AllOf(rows: seq<StoredRow>, model: string) { forall r :: r in rows ==> r.model == model }

  function Unlabelled(facets: seq<Scoring.Facet>): (r: seq<Scoring.Facet>)
    ensures |r| == |facets| && forall i :: 0 <= i < |r| ==> r[i] == facets[i].(title := "")
  {
    if facets == [] then [] else [facets[0].(title := "")] + Unlabelled(facets[1..])
  }

  lemma {:induction false} LoadedFacets(rows: seq<StoredRow>, model: string)
    requires AllOf(rows, model)
    ensures Unlabelled(LoadProfileVectors(rows, model)) == Map(AsFacet, Sights(rows))
  {
    if rows != [] {
      assert rows[0] in rows;
      LoadedFacets(rows[1..], model);
      var head := Scoring.Facet(FacetName(rows[0].identity), rows[0].title, rows[0].vector);
      assert LoadProfileVectors(rows, model) == [head] + LoadProfileVectors(rows[1..], model);
      assert Sights(rows)[1..] == Sights(rows[1..]);
    }
  }

  lemma {:induction false} LoadedChunks(rows: seq<StoredRow>, model: string)
    requires AllOf(rows, model)
    ensures LoadTenderVectors(rows, model) == Map(AsChunk, Sights(rows))
  {
    if rows != [] {
      assert rows[0] in rows;
      LoadedChunks(rows[1..], model);
      assert Sights(rows)[1..] == Sights(rows[1..]);
    }
  }

  /** Labels are carried along and never scored. */
  lemma LabelsAreNotScored(facets: seq<Scoring.Facet>, chunks: seq<Scoring.Chunk>, t: Scoring.Thresholds)
    ensures Scoring.AllComparable(Unlabelled(facets), chunks) <==> Scoring.AllComparable(facets, chunks)
    ensures Scoring.AllComparable(facets, chunks) ==>
              Scoring.Similarity(Unlabelled(facets), chunks, t) == Scoring.Similarity(facets, chunks, t)
  {
    var bare := Unlabelled(facets);
    if Scoring.AllComparable(bare, chunks) {
      forall f | f in facets ensures Scoring.Comparable(f.vector, chunks) {
        var i :| 0 <= i < |facets| && facets[i] == f;
        assert bare[i] in bare;
      }
    }
    if Scoring.AllComparable(facets, chunks) {
      forall f | f in bare ensures Scoring.Comparable(f.vector, chunks) {
        var i :| 0 <= i < |bare| && bare[i] == f;
        assert facets[i] in facets;
      }
      forall i | 0 <= i < |facets| ensures Scoring.Scores(bare, chunks)[i] == Scoring.Scores(facets, chunks)[i] {
        ScoringLaws.ScoreAt(bare, chunks, i);
        ScoringLaws.ScoreAt(facets, chunks, i);
      }
      assert Scoring.Scores(bare, chunks) == Scoring.Scores(facets, chunks);
    }
  }

  // ----- the theorem -----------------------------------------------------

  predicate Comparables(profile: seq<StoredRow>, notice: seq<StoredRow>, model: string) {
    Scoring.AllComparable(LoadProfileVectors(profile, model), LoadTenderVectors(notice, model))
  }

  function SimilarityOf(profile: seq<StoredRow>, notice: seq<StoredRow>, model: string, t: Scoring.Thresholds): real
    requires Comparables(profile, notice, model)
  {
    Scoring.Similarity(LoadProfileVectors(profile, model), LoadTenderVectors(notice, model), t)
  }

  /** Tables that show scoring the same score the same. */
  lemma SameSightsScoreTheSame(p: seq<StoredRow>, q: seq<StoredRow>, m: seq<StoredRow>, n: seq<StoredRow>,
                               model: string, t: Scoring.Thresholds)
    requires AllOf(p, model) && AllOf(q, model) && AllOf(m, model) && AllOf(n, model)
    requires multiset(Sights(p)) == multiset(Sights(q)) && multiset(Sights(m)) == multiset(Sights(n))
    requires Comparables(q, n, model)
    ensures Comparables(p, m, model) && SimilarityOf(p, m, model, t) == SimilarityOf(q, n, model, t)
  {
    var facets, facets' := LoadProfileVectors(p, model), LoadProfileVectors(q, model);
    var chunks, chunks' := LoadTenderVectors(m, model), LoadTenderVectors(n, model);
    assert multiset(Unlabelled(facets)) == multiset(Unlabelled(facets')) by {
      LoadedFacets(p, model);
      LoadedFacets(q, model);
      MapOfPermutation(AsFacet, Sights(p), Sights(q));
    }
    assert multiset(chunks) == multiset(chunks') by {
      LoadedChunks(m, model);
      LoadedChunks(n, model);
      MapOfPermutation(AsChunk, Sights(m), Sights(n));
    }
    LabelsAreNotScored(facets', chunks', t);
    ScoringLaws.SimilarityIgnoresFacetOrder(Unlabelled(facets'), Unlabelled(facets), chunks', t);
    ScoringLaws.SimilarityIgnoresChunkOrder(Unlabelled(facets), chunks', chunks, t);
    LabelsAreNotScored(facets, chunks, t);
  }

  lemma FreshIsOfModel(rows: seq<StoredRow>, items: seq<EmbeddingText.Item>, model: string, embed: Embedder)
    requires Fresh(rows, items, model, embed)
    ensures AllOf(rows, model)
  {
    forall r | r in rows ensures r.model == model {
      assert HoldsSome(r, items, model, embed);
    }
  }

  lemma RebuiltIsOfModel(items: seq<EmbeddingText.Item>, model: string, embed: Embedder)
    ensures AllOf(Rebuild(items, model, embed), model)
  {}

  /** Over any histories of a profile and of a notice, synced last with one model: the similarity
      from the synced vectors is that from embedding both afresh, provided the notice's last sync
      found no vector of a vanished chunk and none under another title. */
  lemma SyncedScoresEqualRebuilt(profile: seq<Visit>, notice: seq<Visit>, embed: Embedder, t: Scoring.Thresholds)
    requires profile != [] && notice != [] && ProfileHistory(profile) && TenderHistory(notice)
    requires profile[|profile| - 1].model == notice[|notice| - 1].model
    requires var last := notice[|notice| - 1];
             var stored := After(notice[..|notice| - 1], embed, false);
             NoOrphans(stored, last.items, last.model) && NoneRetitled(stored, last.items, last.model)
    requires Comparables(Afresh(profile, embed), Afresh(notice, embed), notice[|notice| - 1].model)
    ensures var model := notice[|notice| - 1].model;
            && Comparables(After(profile, embed, true), After(notice, embed, false), model)
            && SimilarityOf(After(profile, embed, true), After(notice, embed, false), model, t)
               == SimilarityOf(Afresh(profile, embed), Afresh(notice, embed), model, t)
  {
    var p, n := profile[|profile| - 1], notice[|notice| - 1];
    ProfileSyncEqualsRebuild(profile, embed);
    TenderSyncIsFreshIff(notice, embed);
    ProfileHistoryIsDistinct(profile);
    TenderHistoryIsDistinct(notice);
    assert p in profile && n in notice;
    FreshLooksRebuilt(After(profile, embed, true), p.items, p.model, embed);
    FreshLooksRebuilt(After(notice, embed, false), n.items, n.model, embed);
    FreshIsOfModel(After(profile, embed, true), p.items, p.model, embed);
    FreshIsOfModel(After(notice, embed, false), n.items, n.model, embed);
    RebuiltIsOfModel(p.items, p.model, embed);
    RebuiltIsOfModel(n.items, n.model, embed);
    SameSightsScoreTheSame(After(profile, embed, true), Afresh(profile, embed),
                           After(notice, embed, false), Afresh(notice, embed), n.model, t);
  }

  /** The table that embedding the last visit from scratch would give. */
  function Afresh(history: seq<Visit>, embed: Embedder): seq<StoredRow>
    requires history != []
  {
    Rebuild(history[|history| - 1].items, history[|history| - 1].model, embed)
  }
}
