/** Freshness judged by the stored vectors alone, whatever the embedder makes of a prompt. */
module EmbeddingVectors {
  import opened EmbeddingText
  import opened EmbeddingStore
  import opened EmbeddingLaws

  /** The row holds what embedding the item afresh would store in its columns. */
  ghost predicate VectorHolds(row: StoredRow, item: Item, model: string, embed: Embedder) {
    && row.identity == item.identity && row.model == model
    && row.hash == Hash(item.text) && row.vector == embed(model, PromptOf(item))
  }

  ghost predicate VectorHoldsSome(row: StoredRow, items: seq<Item>, model: string, embed: Embedder) {
    exists x :: x in items && VectorHolds(row, x, model, embed)
  }

  ghost predicate VectorHeldBySome(rows: seq<StoredRow>, item: Item, model: string, embed: Embedder) {
    exists r :: r in rows && VectorHolds(r, item, model, embed)
  }

  ghost predicate VectorFresh(rows: seq<StoredRow>, items: seq<Item>, model: string, embed: Embedder) {
    && DistinctKeys(rows)
    && (forall r :: r in rows ==> VectorHoldsSome(r, items, model, embed))
    && (forall x :: x in items ==> VectorHeldBySome(rows, x, model, embed))
  }

  lemma HeldSomehow(row: StoredRow, items: seq<Item>, model: string, embed: Embedder)
    requires HoldsSome(row, items, model, embed)
    ensures VectorHoldsSome(row, items, model, embed)
  {
    var x :| x in items && Holds(row, x, model, embed);
    assert VectorHolds(row, x, model, embed);
  }

  lemma HeldSomewhere(rows: seq<StoredRow>, x: Item, model: string, embed: Embedder)
    requires HeldBySome(rows, x, model, embed)
    ensures VectorHeldBySome(rows, x, model, embed)
  {
    var r :| r in rows && Holds(r, x, model, embed);
    assert VectorHolds(r, x, model, embed);
  }

  lemma FreshIsVectorFresh(rows: seq<StoredRow>, items: seq<Item>, model: string, embed: Embedder)
    requires Fresh(rows, items, model, embed)
    ensures VectorFresh(rows, items, model, embed)
  {
    forall r | r in rows ensures VectorHoldsSome(r, items, model, embed) { HeldSomehow(r, items, model, embed); }
    forall x | x in items ensures VectorHeldBySome(rows, x, model, embed) { HeldSomewhere(rows, x, model, embed); }
  }

  // ----- an embedder that tells prompts apart ----------------------------

  function Letter(s: string, i: int): real { if 0 <= i < |s| then s[i] as int as real else 0.0 }

  const SPELL: Embedder := (model, prompt) => seq(|prompt|, i => Letter(prompt, i))

  lemma SpellingIsInjective(model: string, a: string, b: string)
    requires SPELL(model, a) == SPELL(model, b)
    ensures a == b
  {
    assert |SPELL(model, a)| == |a| && |SPELL(model, b)| == |b|;
    forall i | 0 <= i < |a| ensures a[i] == b[i] {
      assert SPELL(model, a)[i] == Letter(a, i) && SPELL(model, b)[i] == Letter(b, i);
    }
  }

  lemma SpelledRowHolds(row: StoredRow, item: Item, model: string)
    requires VectorFits(row, SPELL) && VectorHolds(row, item, model, SPELL)
    ensures Holds(row, item, model, SPELL)
  {
    SpellingIsInjective(model, RowPrompt(row), PromptOf(item));
    SamePromptIff(row.identity, row.title, item.title, row.hash);
  }

  lemma SpelledSomehow(row: StoredRow, items: seq<Item>, model: string)
    requires VectorFits(row, SPELL) && VectorHoldsSome(row, items, model, SPELL)
    ensures HoldsSome(row, items, model, SPELL)
  {
    var x :| x in items && VectorHolds(row, x, model, SPELL);
    SpelledRowHolds(row, x, model);
  }

  lemma SpelledSomewhere(rows: seq<StoredRow>, x: Item, model: string)
    requires Consistent(rows, SPELL) && VectorHeldBySome(rows, x, model, SPELL)
    ensures HeldBySome(rows, x, model, SPELL)
  {
    var r :| r in rows && VectorHolds(r, x, model, SPELL);
    SpelledRowHolds(r, x, model);
  }

  lemma SpelledIsFresh(rows: seq<StoredRow>, items: seq<Item>, model: string)
    requires Consistent(rows, SPELL) && VectorFresh(rows, items, model, SPELL)
    ensures Fresh(rows, items, model, SPELL)
  {
    forall r | r in rows ensures HoldsSome(r, items, model, SPELL) { SpelledSomehow(r, items, model); }
    forall x | x in items ensures HeldBySome(rows, x, model, SPELL) { SpelledSomewhere(rows, x, model); }
  }

  // ----- the embedder decides nothing but vectors ------------------------

  predicate SameButVectors(a: seq<StoredRow>, b: seq<StoredRow>) {
    |a| == |b| && forall i :: 0 <= i < |a| ==> a[i].(vector := []) == b[i].(vector := [])
  }

  lemma {:induction false} SameByIdentity(a: seq<StoredRow>, b: seq<StoredRow>, model: string)
    requires SameButVectors(a, b)
    ensures ByIdentity(a, model) == ByIdentity(b, model)
  {
    if a != [] {
      var n := |a| - 1;
      SameByIdentity(a[..n], b[..n], model);
      SameRow(a, b, n);
    }
  }

  lemma SameRow(a: seq<StoredRow>, b: seq<StoredRow>, i: nat)
    requires SameButVectors(a, b) && i < |a|
    ensures a[i].identity == b[i].identity && a[i].title == b[i].title
    ensures a[i].model == b[i].model && a[i].hash == b[i].hash
  {
    var x, y := a[i].(vector := []), b[i].(vector := []);
    assert x == y;
    assert x.identity == a[i].identity && y.identity == b[i].identity;
    assert x.title == a[i].title && y.title == b[i].title;
    assert x.model == a[i].model && y.model == b[i].model;
    assert x.hash == a[i].hash && y.hash == b[i].hash;
  }

  lemma SameHashes(a: seq<StoredRow>, b: seq<StoredRow>, held: map<Identity, nat>)
    requires SameButVectors(a, b) && forall k :: k in held ==> held[k] < |a|
    ensures Hashes(a, held) == Hashes(b, held)
  {
    forall k | k in held ensures a[held[k]].hash == b[held[k]].hash { SameRow(a, b, held[k]); }
  }

  lemma {:induction false} SameWrite(a: seq<StoredRow>, b: seq<StoredRow>, items: seq<Item>, held: map<Identity, nat>,
                                     model: string, e: Embedder, f: Embedder)
    requires SameButVectors(a, b) && forall k :: k in held ==> held[k] < |a|
    ensures SameButVectors(Write(a, items, held, model, e), Write(b, items, held, model, f))
  {
    if items != [] {
      var n := |items| - 1;
      SameWrite(a, b, items[..n], held, model, e, f);
      SameWriteOne(Write(a, items[..n], held, model, e), Write(b, items[..n], held, model, f), items[n], held,
          model, e, f);
    }
  }

  lemma SameWriteOne(a: seq<StoredRow>, b: seq<StoredRow>, item: Item, held: map<Identity, nat>,
                     model: string, e: Embedder, f: Embedder)
    requires SameButVectors(a, b) && forall k :: k in held ==> held[k] < |a|
    ensures SameButVectors(WriteOne(a, item, held, model, e), WriteOne(b, item, held, model, f))
  {
    if item.identity in held {
      SameRow(a, b, held[item.identity]);
    }
  }

  lemma {:induction false} SameSelect(a: seq<StoredRow>, b: seq<StoredRow>, positions: set<nat>)
    requires SameButVectors(a, b)
    ensures SameButVectors(Select(a, positions), Select(b, positions))
  {
    if a != [] {
      var n := |a| - 1;
      SameSelect(a[..n], b[..n], positions);
    }
  }

  lemma SamePositions(a: seq<StoredRow>, b: seq<StoredRow>, size: nat, held: map<Identity, nat>,
                      live: set<Identity>, model: string, sweep: bool)
    requires SameButVectors(a, b)
    ensures KeptPositions(a, size, held, live, model, sweep) == KeptPositions(b, size, held, live, model, sweep)
  {
    forall i: nat | i < size ensures Kept(a, i, held, live, model, sweep) == Kept(b, i, held, live, model, sweep) {
      if i < |a| { SameRow(a, b, i); }
    }
  }

  lemma SameSync(a: seq<StoredRow>, b: seq<StoredRow>, items: seq<Item>, model: string, e: Embedder, f: Embedder,
      sweep: bool)
    requires SameButVectors(a, b)
    ensures SameButVectors(Sync(a, items, model, e, sweep), Sync(b, items, model, f, sweep))
  {
    SameByIdentity(a, b, model);
    var held := ByIdentity(a, model);
    SameHashes(a, b, held);
    var todo := ToEmbed(items, Hashes(a, held));
    SameWrite(a, b, todo, held, model, e, f);
    var v, w := Write(a, todo, held, model, e), Write(b, todo, held, model, f);
    SamePositions(a, b, |v|, held, Live(items), model, sweep);
    SameSelect(v, w, KeptPositions(a, |v|, held, Live(items), model, sweep));
  }

  /** Which rows a history leaves, and under which hashes and titles, is the same for all embedders. */
  lemma {:induction false} SameAfter(history: seq<Visit>, e: Embedder, f: Embedder, sweep: bool)
    ensures SameButVectors(After(history, e, sweep), After(history, f, sweep))
  {
    if history != [] {
      var n := |history| - 1;
      SameAfter(history[..n], e, f, sweep);
      SameSync(After(history[..n], e, sweep), After(history[..n], f, sweep), history[n].items, history[n].model, e,
          f, sweep);
    }
  }

  lemma SameConditions(a: seq<StoredRow>, b: seq<StoredRow>, items: seq<Item>, model: string)
    requires SameButVectors(a, b)
    requires NoOrphans(a, items, model) && NoneRetitled(a, items, model)
    ensures NoOrphans(b, items, model) && NoneRetitled(b, items, model)
  {
    forall r | r in b && r.model == model
      ensures r.identity in Live(items)
      ensures forall x :: x in items && r.identity == x.identity && r.hash == Hash(x.text) ==> SameTitle(r, x)
    {
      var i :| 0 <= i < |b| && b[i] == r;
      SameRow(a, b, i);
      assert a[i] in a;
    }
  }

  // ----- the theorem -----------------------------------------------------

  /** What the last sync of a history found no trouble with. */
  predicate Untroubled(history: seq<Visit>, embed: Embedder)
    requires history != []
  {
    var n := |history| - 1;
    var stored := After(history[..n], embed, false);
    NoOrphans(stored, history[n].items, history[n].model) && NoneRetitled(stored, history[n].items, history[n].model)
  }

  ghost predicate AfreshBy(history: seq<Visit>, embed: Embedder)
    requires history != []
  {
    var last := history[|history| - 1];
    VectorFresh(After(history, embed, false), last.items, last.model, embed)
  }

  lemma TroubleIsTheSame(history: seq<Visit>, e: Embedder, f: Embedder)
    requires history != [] && Untroubled(history, e)
    ensures Untroubled(history, f)
  {
    var n := |history| - 1;
    SameAfter(history[..n], e, f, false);
    SameConditions(After(history[..n], e, false), After(history[..n], f, false), history[n].items, history[n].model);
  }

  lemma UntroubledIsAfresh(history: seq<Visit>, embed: Embedder)
    requires history != [] && TenderHistory(history) && Untroubled(history, embed)
    ensures AfreshBy(history, embed)
  {
    var last := history[|history| - 1];
    TenderSyncIsFreshIff(history, embed);
    FreshIsVectorFresh(After(history, embed, false), last.items, last.model, embed);
  }

  lemma SpelledAfreshIsUntroubled(history: seq<Visit>)
    requires history != [] && TenderHistory(history) && AfreshBy(history, SPELL)
    ensures Untroubled(history, SPELL)
  {
    var last := history[|history| - 1];
    TenderHistoryIsDistinct(history);
    HistoryKeepsKeysDistinct(history, SPELL, false);
    SpelledIsFresh(After(history, SPELL, false), last.items, last.model);
    TenderSyncIsFreshIff(history, SPELL);
  }

  /** After any history of a notice: whatever the embedder, the stored vectors are those of
      embedding the last chunks afresh, if and only if the last sync found no vector of this model
      for a chunk the notice no longer has and none whose text stands under another title. */
  lemma TenderVectorsAreFreshIff(history: seq<Visit>, any: Embedder)
    requires history != [] && TenderHistory(history)
    ensures (forall embed: Embedder :: AfreshBy(history, embed)) <==> Untroubled(history, any)
  {
    if Untroubled(history, any) {
      forall embed: Embedder ensures AfreshBy(history, embed) {
        TroubleIsTheSame(history, any, embed);
        UntroubledIsAfresh(history, embed);
      }
    }
    if forall embed: Embedder :: AfreshBy(history, embed) {
      SpelledAfreshIsUntroubled(history);
      TroubleIsTheSame(history, SPELL, any);
    }
  }
}
