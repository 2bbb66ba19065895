/** Incremental sync against deleting everything and embedding afresh. */
module EmbeddingLaws {
  import opened EmbeddingText
  import opened EmbeddingStore

  /** What a row's vector was made from. */
  function RowPrompt(r: StoredRow): string { Prompt(r.identity, r.title, r.hash) }

  ghost predicate VectorFits(r: StoredRow, embed: Embedder) { r.vector == embed(r.model, RowPrompt(r)) }

  /** Every stored vector is the embedding of the text its hash stands for, under its title. */
  ghost predicate Consistent(rows: seq<StoredRow>, embed: Embedder) {
    forall r :: r in rows ==> VectorFits(r, embed)
  }

  predicate Unique(rows: seq<StoredRow>, model: string) {
    forall i, j :: 0 <= i < j < |rows| && rows[i].model == model && rows[j].model == model ==>
                     rows[i].identity != rows[j].identity
  }

  predicate NoOrphans(rows: seq<StoredRow>, items: seq<Item>, model: string) {
    forall r :: r in rows && r.model == model ==> r.identity in Live(items)
  }

  /** A chunk was embedded under the item's title; a facet's title is no part of its prompt. */
  predicate SameTitle(row: StoredRow, item: Item) {
    item.identity.Chunk? ==> Strip(row.title) == Strip(item.title)
  }

  /** No row whose text stands was embedded under another title. */
  predicate NoneRetitled(rows: seq<StoredRow>, items: seq<Item>, model: string) {
    forall r, x :: r in rows && x in items && r.model == model && r.identity == x.identity && r.hash == Hash(x.text) ==>
      SameTitle(r, x)
  }

  /** The row holds the hash of the item's present text, and the vector of that text under the
      item's present title, for this model. */
  ghost predicate Holds(row: StoredRow, item: Item, model: string, embed: Embedder) {
    && row.identity == item.identity && row.model == model
    && row.hash == Hash(item.text) && SameTitle(row, item) && row.vector == embed(model, PromptOf(item))
  }

  ghost predicate HoldsSome(row: StoredRow, items: seq<Item>, model: string, embed: Embedder) {
    exists x :: x in items && Holds(row, x, model, embed)
  }

  ghost predicate HeldBySome(rows: seq<StoredRow>, item: Item, model: string, embed: Embedder) {
    exists r :: r in rows && Holds(r, item, model, embed)
  }

  predicate DistinctKeys(rows: seq<StoredRow>) {
    forall i, j :: 0 <= i < j < |rows| ==> rows[i].identity != rows[j].identity
  }

  /** Exactly one row per item, all for this model, each with the present hash and vector. */
  ghost predicate Fresh(rows: seq<StoredRow>, items: seq<Item>, model: string, embed: Embedder) {
    && DistinctKeys(rows)
    && (forall r :: r in rows ==> HoldsSome(r, items, model, embed))
    && (forall x :: x in items ==> HeldBySome(rows, x, model, embed))
  }

  /** What deleting everything and embedding afresh stores. */
  function Rebuild(items: seq<Item>, model: string, embed: Embedder): (r: seq<StoredRow>)
    ensures |r| == |items| && forall i :: 0 <= i < |r| ==> r[i] == RowFor(items[i], model, embed)
  {
    if items == [] then []
    else Rebuild(items[..|items| - 1], model, embed) + [RowFor(items[|items| - 1], model, embed)]
  }

  /** A row without its title, which sync leaves alone while the text stands. */
  function Untitled(rows: seq<StoredRow>): set<StoredRow> {
    set r | r in rows :: r.(title := "")
  }

  // ----- what writing does -----------------------------------------------

  lemma {:induction false} WriteAt(
    rows: seq<StoredRow>, items: seq<Item>, held: map<Identity, nat>, model: string, embed: Embedder, i: nat)
    requires forall k :: k in held ==> held[k] < |rows| && rows[held[k]].identity == k && rows[held[k]].model == model
    requires i < |rows| && DistinctIdentities(items)
    ensures var w := Write(rows, items, held, model, embed);
            && w[i].identity == rows[i].identity && w[i].model == rows[i].model
            && (forall x :: x in items && x.identity in held && held[x.identity] == i ==>
                  Holds(w[i], x, model, embed))
            && ((forall x :: x in items && x.identity in held ==> held[x.identity] != i) ==> w[i] == rows[i])
  {
    if items != [] {
      var n := |items| - 1;
      var last := items[n];
      WriteAt(rows, items[..n], held, model, embed, i);
      assert items == items[..n] + [last];
      if last.identity in held && held[last.identity] == i {
        forall x | x in items[..n] && x.identity in held ensures held[x.identity] != i {
          var j :| 0 <= j < n && items[..n][j] == x;
          assert items[j].identity != last.identity;
        }
      }
    }
  }

  function NotHeld(items: seq<Item>, held: map<Identity, nat>): seq<Item> {
    if items == [] then []
    else
      var n := |items| - 1;
      NotHeld(items[..n], held) + (if items[n].identity in held then [] else [items[n]])
  }

  lemma {:induction false} NotHeldMembers(items: seq<Item>, held: map<Identity, nat>)
    ensures forall x :: x in NotHeld(items, held) <==> x in items && x.identity !in held
  {
    if items != [] {
      var n := |items| - 1;
      NotHeldMembers(items[..n], held);
      assert items == items[..n] + [items[n]];
    }
  }

  lemma {:induction false} NotHeldIsDistinct(items: seq<Item>, held: map<Identity, nat>)
    requires DistinctIdentities(items)
    ensures DistinctIdentities(NotHeld(items, held))
  {
    if items != [] {
      var n := |items| - 1;
      NotHeldIsDistinct(items[..n], held);
      NotHeldMembers(items[..n], held);
      var before := NotHeld(items[..n], held);
      forall i | 0 <= i < |before| ensures before[i].identity != items[n].identity {
        assert before[i] in before;
        var j :| 0 <= j < n && items[..n][j] == before[i];
        assert items[j].identity != items[n].identity;
      }
    }
  }

  /** The rows added are those a fresh table would hold for the items not stored before. */
  lemma {:induction false} WriteNew(
    rows: seq<StoredRow>, items: seq<Item>, held: map<Identity, nat>, model: string, embed: Embedder)
    requires forall k :: k in held ==> held[k] < |rows|
    ensures Write(rows, items, held, model, embed)[|rows|..] == Rebuild(NotHeld(items, held), model, embed)
  {
    if items != [] {
      var n := |items| - 1;
      WriteNew(rows, items[..n], held, model, embed);
      OneMoreWritten(Write(rows, items[..n], held, model, embed), |rows|, items[n], held, model, embed);
      if items[n].identity in held {
        assert NotHeld(items, held) == NotHeld(items[..n], held);
      } else {
        RebuildAppend(NotHeld(items[..n], held), items[n], model, embed);
      }
    }
  }

  lemma OneMoreWritten(
    before: seq<StoredRow>, size: nat, item: Item, held: map<Identity, nat>, model: string, embed: Embedder)
    requires size <= |before| && forall k :: k in held ==> held[k] < size
    ensures WriteOne(before, item, held, model, embed)[size..]
         == before[size..] + if item.identity in held then [] else [RowFor(item, model, embed)]
  {}

  lemma RebuildAppend(items: seq<Item>, item: Item, model: string, embed: Embedder)
    ensures Rebuild(items + [item], model, embed) == Rebuild(items, model, embed) + [RowFor(item, model, embed)]
  {
    assert (items + [item])[..|items|] == items;
  }

  // ----- what deleting keeps ---------------------------------------------

  predicate DistinctAt(rows: seq<StoredRow>, positions: set<nat>) {
    forall i, j :: i in positions && j in positions && i < j < |rows| ==> rows[i].identity != rows[j].identity
  }

  predicate FoundAt(rows: seq<StoredRow>, positions: set<nat>, r: StoredRow) {
    exists i :: i in positions && i < |rows| && rows[i] == r
  }

  lemma {:induction false} SelectMembers(rows: seq<StoredRow>, positions: set<nat>)
    ensures forall r :: r in Select(rows, positions) <==> FoundAt(rows, positions, r)
  {
    if rows != [] {
      var n := |rows| - 1;
      SelectMembers(rows[..n], positions);
      assert rows == rows[..n] + [rows[n]];
      forall r ensures r in Select(rows, positions) <==> FoundAt(rows, positions, r) {
        if FoundAt(rows[..n], positions, r) {
          var i :| i in positions && i < n && rows[..n][i] == r;
          assert rows[i] == r;
        }
        if FoundAt(rows, positions, r) {
          var i :| i in positions && i < |rows| && rows[i] == r;
          assert i < n ==> rows[..n][i] == r;
        }
      }
    }
  }

  lemma {:induction false} DistinctAtMeansDistinct(rows: seq<StoredRow>, positions: set<nat>)
    requires DistinctAt(rows, positions)
    ensures DistinctKeys(Select(rows, positions))
  {
    if rows != [] {
      var n := |rows| - 1;
      DistinctAtMeansDistinct(rows[..n], positions);
      SelectMembers(rows[..n], positions);
      forall r | r in Select(rows[..n], positions) && n in positions ensures r.identity != rows[n].identity {
        assert FoundAt(rows[..n], positions, r);
      }
    }
  }

  lemma {:induction false} DistinctMeansDistinctAt(rows: seq<StoredRow>, positions: set<nat>)
    requires DistinctKeys(Select(rows, positions))
    ensures DistinctAt(rows, positions)
  {
    if rows != [] {
      var n := |rows| - 1;
      var before := Select(rows[..n], positions);
      assert before == Select(rows, positions)[..|before|];
      DistinctMeansDistinctAt(rows[..n], positions);
      SelectMembers(rows[..n], positions);
      forall i | i in positions && n in positions && i < n ensures rows[i].identity != rows[n].identity {
        assert FoundAt(rows[..n], positions, rows[..n][i]);
        var k :| 0 <= k < |before| && before[k] == rows[..n][i];
        assert Select(rows, positions)[k].identity != Select(rows, positions)[|before|].identity;
      }
    }
  }

  // ----- the theorem -----------------------------------------------------

  /** The rows before deletion, and which of them stay. */
  ghost function Written(stored: seq<StoredRow>, items: seq<Item>, model: string, embed: Embedder): (w: seq<StoredRow>)
    ensures |w| >= |stored|
  {
    var held := ByIdentity(stored, model);
    Write(stored, ToEmbed(items, Hashes(stored, held)), held, model, embed)
  }

  ghost function Staying(stored: seq<StoredRow>, items: seq<Item>, model: string, embed: Embedder, sweep: bool)
    : set<nat>
  {
    KeptPositions(stored, |Written(stored, items, model, embed)|, ByIdentity(stored, model), Live(items), model, sweep)
  }

  lemma SameItem(items: seq<Item>, x: Item, y: Item)
    requires DistinctIdentities(items) && x in items && y in items && x.identity == y.identity
    ensures x == y
  {
    var i :| 0 <= i < |items| && items[i] == x;
    var j :| 0 <= j < |items| && items[j] == y;
    assert i >= j && j >= i;
  }

  /** Nothing is written over a row whose text stands. */
  lemma UnchangedRowStands(stored: seq<StoredRow>, items: seq<Item>, model: string, embed: Embedder, x: Item)
    requires DistinctIdentities(items) && x in items && Unchanged(x, Hashes(stored, ByIdentity(stored, model)))
    ensures var i := ByIdentity(stored, model)[x.identity];
            Written(stored, items, model, embed)[i] == stored[i]
  {
    var held := ByIdentity(stored, model);
    var existing := Hashes(stored, held);
    ToEmbedMembers(items, existing);
    ToEmbedIsDistinct(items, existing);
    WriteAt(stored, ToEmbed(items, existing), held, model, embed, held[x.identity]);
    forall y | y in ToEmbed(items, existing) && y.identity in held ensures held[y.identity] != held[x.identity] {
      if y.identity == x.identity {
        SameItem(items, x, y);
      }
    }
  }

  /** A row whose text changed is written over. */
  lemma ChangedRowHolds(stored: seq<StoredRow>, items: seq<Item>, model: string, embed: Embedder, x: Item)
    requires DistinctIdentities(items) && x in items && x.identity in ByIdentity(stored, model)
    requires !Unchanged(x, Hashes(stored, ByIdentity(stored, model)))
    ensures Holds(Written(stored, items, model, embed)[ByIdentity(stored, model)[x.identity]], x, model, embed)
  {
    var held := ByIdentity(stored, model);
    var existing := Hashes(stored, held);
    ToEmbedMembers(items, existing);
    ToEmbedIsDistinct(items, existing);
    WriteAt(stored, ToEmbed(items, existing), held, model, embed, held[x.identity]);
  }

  lemma FittingRowHolds(row: StoredRow, x: Item, model: string, embed: Embedder)
    requires VectorFits(row, embed) && row.identity == x.identity && row.model == model && row.hash == Hash(x.text)
    ensures SameTitle(row, x) <==> Holds(row, x, model, embed)
  {
    SamePromptIff(x.identity, row.title, x.title, row.hash);
  }

  lemma HoldingRowFits(row: StoredRow, x: Item, model: string, embed: Embedder)
    requires Holds(row, x, model, embed)
    ensures VectorFits(row, embed)
  {
    SamePromptIff(x.identity, row.title, x.title, row.hash);
  }

  /** The stored row that stands for a live identity ends up current for its item. */
  lemma StoredRowHolds(stored: seq<StoredRow>, items: seq<Item>, model: string, embed: Embedder, x: Item)
    requires DistinctIdentities(items) && Consistent(stored, embed) && NoneRetitled(stored, items, model)
    requires x in items && x.identity in ByIdentity(stored, model)
    ensures Holds(Written(stored, items, model, embed)[ByIdentity(stored, model)[x.identity]], x, model, embed)
  {
    var held := ByIdentity(stored, model);
    if Unchanged(x, Hashes(stored, held)) {
      UnchangedRowStands(stored, items, model, embed, x);
      var row := stored[held[x.identity]];
      assert row in stored && SameTitle(row, x);
      FittingRowHolds(row, x, model, embed);
    } else {
      ChangedRowHolds(stored, items, model, embed, x);
    }
  }

  /** Written or not, a row's vector is that of its text under its title. */
  lemma WrittenRowFits(stored: seq<StoredRow>, items: seq<Item>, model: string, embed: Embedder, i: nat)
    requires DistinctIdentities(items) && Consistent(stored, embed) && i < |stored|
    ensures VectorFits(Written(stored, items, model, embed)[i], embed)
  {
    var held := ByIdentity(stored, model);
    var existing := Hashes(stored, held);
    var todo := ToEmbed(items, existing);
    ToEmbedIsDistinct(items, existing);
    WriteAt(stored, todo, held, model, embed, i);
    if x :| x in todo && x.identity in held && held[x.identity] == i {
      HoldingRowFits(Written(stored, items, model, embed)[i], x, model, embed);
    } else {
      assert stored[i] in stored;
    }
  }

  /** The items written as new rows. */
  ghost function Missing(stored: seq<StoredRow>, items: seq<Item>, model: string): seq<Item> {
    var held := ByIdentity(stored, model);
    NotHeld(ToEmbed(items, Hashes(stored, held)), held)
  }

  lemma MissingItems(stored: seq<StoredRow>, items: seq<Item>, model: string)
    requires DistinctIdentities(items)
    ensures DistinctIdentities(Missing(stored, items, model))
    ensures forall x :: x in Missing(stored, items, model) <==> x in items && x.identity !in ByIdentity(stored, model)
  {
    var held := ByIdentity(stored, model);
    var existing := Hashes(stored, held);
    ToEmbedMembers(items, existing);
    ToEmbedIsDistinct(items, existing);
    NotHeldMembers(ToEmbed(items, existing), held);
    NotHeldIsDistinct(ToEmbed(items, existing), held);
  }

  lemma RebuiltRow(items: seq<Item>, model: string, embed: Embedder, i: nat)
    requires i < |items|
    ensures Holds(Rebuild(items, model, embed)[i], items[i], model, embed)
    ensures Rebuild(items, model, embed)[i].identity == items[i].identity
  {}

  lemma RebuiltHolds(items: seq<Item>, model: string, embed: Embedder)
    ensures forall r :: r in Rebuild(items, model, embed) ==>
              exists x :: x in items && x.identity == r.identity && Holds(r, x, model, embed)
    ensures forall x :: x in items ==> HeldBySome(Rebuild(items, model, embed), x, model, embed)
  {
    var rows := Rebuild(items, model, embed);
    forall r | r in rows ensures exists x :: x in items && x.identity == r.identity && Holds(r, x, model, embed) {
      var i :| 0 <= i < |rows| && rows[i] == r;
      RebuiltRow(items, model, embed, i);
      assert items[i] in items;
    }
    forall x | x in items ensures HeldBySome(rows, x, model, embed) {
      var i :| 0 <= i < |items| && items[i] == x;
      RebuiltRow(items, model, embed, i);
      assert rows[i] in rows;
    }
  }

  lemma NewRows(stored: seq<StoredRow>, items: seq<Item>, model: string, embed: Embedder)
    requires DistinctIdentities(items)
    ensures var held, added := ByIdentity(stored, model), Written(stored, items, model, embed)[|stored|..];
            && DistinctKeys(added)
            && (forall r :: r in added ==> r.identity !in held && HoldsSome(r, items, model, embed))
            && (forall x :: x in items && x.identity !in held ==> HeldBySome(added, x, model, embed))
  {
    var held := ByIdentity(stored, model);
    var missing := Missing(stored, items, model);
    WriteNew(stored, ToEmbed(items, Hashes(stored, held)), held, model, embed);
    MissingItems(stored, items, model);
    RebuiltHolds(missing, model, embed);
    forall r | r in Rebuild(missing, model, embed) ensures r.identity !in held && HoldsSome(r, items, model, embed) {
      var x :| x in missing && x.identity == r.identity && Holds(r, x, model, embed);
      assert x in items;
    }
  }

  lemma StayingRow(stored: seq<StoredRow>, items: seq<Item>, model: string, embed: Embedder, sweep: bool, i: nat)
    requires DistinctIdentities(items) && Consistent(stored, embed) && Unique(stored, model)
    requires i < |stored| && i in Staying(stored, items, model, embed, sweep)
    ensures var held, w := ByIdentity(stored, model), Written(stored, items, model, embed);
            && w[i].identity == stored[i].identity && w[i].model == model
            && stored[i].identity in held && held[stored[i].identity] == i
  {
    var held := ByIdentity(stored, model);
    WriteKeepsKeys(stored, ToEmbed(items, Hashes(stored, held)), held, model, embed, i);
  }

  lemma LiveRowHolds(stored: seq<StoredRow>, items: seq<Item>, model: string, embed: Embedder, sweep: bool, i: nat)
    requires DistinctIdentities(items) && Consistent(stored, embed) && Unique(stored, model)
    requires NoneRetitled(stored, items, model)
    requires i < |stored| && i in Staying(stored, items, model, embed, sweep)
    requires sweep || stored[i].identity in Live(items)
    ensures HoldsSome(Written(stored, items, model, embed)[i], items, model, embed)
  {
    StayingRow(stored, items, model, embed, sweep, i);
    var x :| x in items && x.identity == stored[i].identity;
    StoredRowHolds(stored, items, model, embed, x);
  }

  lemma StayingAdded(stored: seq<StoredRow>, items: seq<Item>, model: string, embed: Embedder, sweep: bool, i: nat)
    requires DistinctIdentities(items)
    requires |stored| <= i < |Written(stored, items, model, embed)|
    ensures var held, w := ByIdentity(stored, model), Written(stored, items, model, embed);
            && w[i].identity !in held
            && HoldsSome(w[i], items, model, embed)
            && (forall j :: i < j < |w| ==> w[i].identity != w[j].identity)
  {
    NewRows(stored, items, model, embed);
    var w := Written(stored, items, model, embed);
    var added := w[|stored|..];
    assert w[i] == added[i - |stored|] && w[i] in added;
    forall j | i < j < |w| ensures w[i].identity != w[j].identity {
      assert w[j] == added[j - |stored|];
    }
  }

  lemma StaysFound(stored: seq<StoredRow>, items: seq<Item>, model: string, embed: Embedder, sweep: bool, i: nat,
      x: Item)
    requires i in Staying(stored, items, model, embed, sweep) && i < |Written(stored, items, model, embed)|
    requires Holds(Written(stored, items, model, embed)[i], x, model, embed)
    ensures HeldBySome(Sync(stored, items, model, embed, sweep), x, model, embed)
  {
    var w, stay := Written(stored, items, model, embed), Staying(stored, items, model, embed, sweep);
    SelectMembers(w, stay);
    assert FoundAt(w, stay, w[i]);
  }

  lemma CurrentRowStays(stored: seq<StoredRow>, items: seq<Item>, model: string, embed: Embedder, sweep: bool, x: Item)
    requires DistinctIdentities(items) && Consistent(stored, embed) && NoneRetitled(stored, items, model) && x in items
    ensures HeldBySome(Sync(stored, items, model, embed, sweep), x, model, embed)
  {
    if x.identity in ByIdentity(stored, model) {
      StoredRowHolds(stored, items, model, embed, x);
      StoredRowStays(stored, items, model, embed, sweep, x);
      StaysFound(stored, items, model, embed, sweep, ByIdentity(stored, model)[x.identity], x);
    } else {
      NewRows(stored, items, model, embed);
      NewRowFound(stored, items, model, embed, sweep, x);
    }
  }

  lemma StoredRowStays(stored: seq<StoredRow>, items: seq<Item>, model: string, embed: Embedder, sweep: bool, x: Item)
    requires x in items && x.identity in ByIdentity(stored, model)
    ensures ByIdentity(stored, model)[x.identity] in Staying(stored, items, model, embed, sweep)
  {
    assert x.identity in Live(items);
  }

  lemma NewRowFound(stored: seq<StoredRow>, items: seq<Item>, model: string, embed: Embedder, sweep: bool, x: Item)
    requires HeldBySome(Written(stored, items, model, embed)[|stored|..], x, model, embed)
    ensures HeldBySome(Sync(stored, items, model, embed, sweep), x, model, embed)
  {
    var added := Written(stored, items, model, embed)[|stored|..];
    var r :| r in added && Holds(r, x, model, embed);
    var i :| 0 <= i < |added| && added[i] == r;
    StaysFound(stored, items, model, embed, sweep, i + |stored|, x);
  }

  /** Whatever the table held, one row per identity in means one row per identity out, for
      this model only and consistent still. */
  lemma SyncKeepsKeysDistinct(stored: seq<StoredRow>, items: seq<Item>, model: string, embed: Embedder, sweep: bool)
    requires DistinctIdentities(items) && Consistent(stored, embed) && Unique(stored, model)
    ensures DistinctKeys(Sync(stored, items, model, embed, sweep))
  {
    var w, stay := Written(stored, items, model, embed), Staying(stored, items, model, embed, sweep);
    forall i, j | i in stay && j in stay && i < j < |w| ensures w[i].identity != w[j].identity {
      if i < |stored| {
        StayingRow(stored, items, model, embed, sweep, i);
        if j < |stored| {
          StayingRow(stored, items, model, embed, sweep, j);
        } else {
          StayingAdded(stored, items, model, embed, sweep, j);
        }
      } else {
        StayingAdded(stored, items, model, embed, sweep, i);
      }
    }
    DistinctAtMeansDistinct(w, stay);
  }

  lemma SyncKeepsConsistent(stored: seq<StoredRow>, items: seq<Item>, model: string, embed: Embedder, sweep: bool)
    requires DistinctIdentities(items) && Consistent(stored, embed)
    ensures Consistent(Sync(stored, items, model, embed, sweep), embed)
  {
    var w, stay := Written(stored, items, model, embed), Staying(stored, items, model, embed, sweep);
    SelectMembers(w, stay);
    forall r | r in Sync(stored, items, model, embed, sweep) ensures VectorFits(r, embed) {
      assert FoundAt(w, stay, r);
      var i :| i in stay && i < |w| && w[i] == r;
      if i < |stored| {
        WrittenRowFits(stored, items, model, embed, i);
      } else {
        StayingAdded(stored, items, model, embed, sweep, i);
        var x :| x in items && Holds(r, x, model, embed);
        HoldingRowFits(r, x, model, embed);
      }
    }
  }

  /** One sync leaves exactly one current row per item, provided the table held at most one
      row per identity of this model, none whose text stands under another title and, where
      orphans are not swept, no orphan. */
  lemma SyncIsFresh(stored: seq<StoredRow>, items: seq<Item>, model: string, embed: Embedder, sweep: bool)
    requires DistinctIdentities(items) && Consistent(stored, embed) && Unique(stored, model)
    requires NoneRetitled(stored, items, model) && (sweep || NoOrphans(stored, items, model))
    ensures Fresh(Sync(stored, items, model, embed, sweep), items, model, embed)
  {
    var w, stay := Written(stored, items, model, embed), Staying(stored, items, model, embed, sweep);
    var after := Sync(stored, items, model, embed, sweep);
    SyncKeepsKeysDistinct(stored, items, model, embed, sweep);
    SelectMembers(w, stay);
    forall r | r in after ensures HoldsSome(r, items, model, embed) {
      assert FoundAt(w, stay, r);
      var i :| i in stay && i < |w| && w[i] == r;
      if i < |stored| {
        assert stored[i] in stored;
        LiveRowHolds(stored, items, model, embed, sweep, i);
      } else {
        StayingAdded(stored, items, model, embed, sweep, i);
      }
    }
    forall x | x in items ensures HeldBySome(after, x, model, embed) {
      CurrentRowStays(stored, items, model, embed, sweep, x);
    }
  }

  /** The guard is exact: a second row for an identity, which nullable source ids let the
      database hold, an orphan that is not swept, or a chunk whose notice was retitled while its
      own text stands, outlives the sync. */
  lemma SyncIsFreshIff(stored: seq<StoredRow>, items: seq<Item>, model: string, embed: Embedder, sweep: bool)
    requires DistinctIdentities(items) && Consistent(stored, embed)
    ensures Fresh(Sync(stored, items, model, embed, sweep), items, model, embed)
            <==> (Unique(stored, model) && NoneRetitled(stored, items, model)
                  && (sweep || NoOrphans(stored, items, model)))
  {
    if Unique(stored, model) && NoneRetitled(stored, items, model) && (sweep || NoOrphans(stored, items, model)) {
      SyncIsFresh(stored, items, model, embed, sweep);
    } else if Fresh(Sync(stored, items, model, embed, sweep), items, model, embed) {
      if !Unique(stored, model) {
        DuplicateSpoils(stored, items, model, embed, sweep);
      } else if !NoneRetitled(stored, items, model) {
        RetitledSpoils(stored, items, model, embed, sweep);
      } else {
        OrphanSpoils(stored, items, model, embed);
      }
    }
  }

  lemma DuplicateSpoils(stored: seq<StoredRow>, items: seq<Item>, model: string, embed: Embedder, sweep: bool)
    requires !Unique(stored, model)
    ensures !Fresh(Sync(stored, items, model, embed, sweep), items, model, embed)
  {
    var held := ByIdentity(stored, model);
    var w, stay := Written(stored, items, model, embed), Staying(stored, items, model, embed, sweep);
    if Fresh(Sync(stored, items, model, embed, sweep), items, model, embed) {
      DistinctMeansDistinctAt(w, stay);
      var i, j :| 0 <= i < j < |stored| && stored[i].model == model == stored[j].model
                  && stored[i].identity == stored[j].identity;
      StaysLive(stored, items, model, embed, sweep, i);
      StaysLive(stored, items, model, embed, sweep, held[stored[i].identity]);
      assert false;
    }
  }

  lemma OrphanSpoils(stored: seq<StoredRow>, items: seq<Item>, model: string, embed: Embedder)
    requires !NoOrphans(stored, items, model)
    ensures !Fresh(Sync(stored, items, model, embed, false), items, model, embed)
  {
    if Fresh(Sync(stored, items, model, embed, false), items, model, embed) {
      var r :| r in stored && r.model == model && r.identity !in Live(items);
      var i :| 0 <= i < |stored| && stored[i] == r;
      StaysLive(stored, items, model, embed, false, i);
      assert false;
    }
  }

  /** A live row whose text stands comes out of the sync as it went in. */
  lemma UnchangedRowSurvives(stored: seq<StoredRow>, items: seq<Item>, model: string, embed: Embedder, sweep: bool,
      x: Item)
    requires DistinctIdentities(items) && x in items && Unchanged(x, Hashes(stored, ByIdentity(stored, model)))
    ensures stored[ByIdentity(stored, model)[x.identity]] in Sync(stored, items, model, embed, sweep)
  {
    var i := ByIdentity(stored, model)[x.identity];
    var w, stay := Written(stored, items, model, embed), Staying(stored, items, model, embed, sweep);
    UnchangedRowStands(stored, items, model, embed, x);
    StoredRowStays(stored, items, model, embed, sweep, x);
    SelectMembers(w, stay);
    assert FoundAt(w, stay, w[i]);
  }

  lemma RetitledSpoils(stored: seq<StoredRow>, items: seq<Item>, model: string, embed: Embedder, sweep: bool)
    requires DistinctIdentities(items) && Unique(stored, model) && !NoneRetitled(stored, items, model)
    ensures !Fresh(Sync(stored, items, model, embed, sweep), items, model, embed)
  {
    var r, x :| r in stored && x in items && r.model == model && r.identity == x.identity && r.hash == Hash(x.text)
                && !SameTitle(r, x);
    var i :| 0 <= i < |stored| && stored[i] == r;
    assert ByIdentity(stored, model)[x.identity] == i;
    UnchangedRowSurvives(stored, items, model, embed, sweep, x);
    forall y | y in items ensures !Holds(r, y, model, embed) {
      if r.identity == y.identity { SameItem(items, x, y); }
    }
  }

  /** A row that stays in a fresh table is live; rows that are not the filed one always stay. */
  lemma StaysLive(stored: seq<StoredRow>, items: seq<Item>, model: string, embed: Embedder, sweep: bool, i: nat)
    requires i < |stored| && stored[i].model == model
    requires Fresh(Sync(stored, items, model, embed, sweep), items, model, embed)
    ensures var held, w := ByIdentity(stored, model), Written(stored, items, model, embed);
            && w[i].identity == stored[i].identity
            && (!sweep || held[stored[i].identity] != i ==>
                  i in Staying(stored, items, model, embed, sweep) && stored[i].identity in Live(items))
            && (stored[i].identity in Live(items) ==> i in Staying(stored, items, model, embed, sweep))
  {
    var held := ByIdentity(stored, model);
    var w, stay := Written(stored, items, model, embed), Staying(stored, items, model, embed, sweep);
    WriteKeepsKeys(stored, ToEmbed(items, Hashes(stored, held)), held, model, embed, i);
    SelectMembers(w, stay);
    if i in stay {
      assert FoundAt(w, stay, w[i]);
      var x :| x in items && Holds(w[i], x, model, embed);
    }
  }

  // ----- every history ---------------------------------------------------

  datatype Visit = Visit(items: seq<Item>, model: string)

  /** The table after a history of syncs, over any edits and model switches between them. */
  function After(history: seq<Visit>, embed: Embedder, sweep: bool): seq<StoredRow> {
    if history == [] then []
    else
      var last := history[|history| - 1];
      Sync(After(history[..|history| - 1], embed, sweep), last.items, last.model, embed, sweep)
  }

  ghost predicate DistinctThroughout(history: seq<Visit>) {
    forall v :: v in history ==> DistinctIdentities(v.items)
  }

  lemma {:induction false} HistoryKeepsKeysDistinct(history: seq<Visit>, embed: Embedder, sweep: bool)
    requires DistinctThroughout(history)
    ensures DistinctKeys(After(history, embed, sweep)) && Consistent(After(history, embed, sweep), embed)
  {
    if history != [] {
      var n := |history| - 1;
      HistoryKeepsKeysDistinct(history[..n], embed, sweep);
      SyncKeepsKeysDistinct(After(history[..n], embed, sweep), history[n].items, history[n].model, embed, sweep);
      SyncKeepsConsistent(After(history[..n], embed, sweep), history[n].items, history[n].model, embed, sweep);
    }
  }

  lemma FreshMatchesRebuild(rows: seq<StoredRow>, items: seq<Item>, model: string, embed: Embedder)
    requires Fresh(rows, items, model, embed)
    ensures Untitled(rows) == Untitled(Rebuild(items, model, embed))
  {
    var rebuilt := Rebuild(items, model, embed);
    forall r | r in rows ensures r.(title := "") in Untitled(rebuilt) {
      var x :| x in items && Holds(r, x, model, embed);
      var i :| 0 <= i < |items| && items[i] == x;
      assert rebuilt[i] in rebuilt && rebuilt[i].(title := "") == r.(title := "");
    }
    forall r | r in rebuilt ensures r.(title := "") in Untitled(rows) {
      var i :| 0 <= i < |rebuilt| && rebuilt[i] == r;
      assert items[i] in items;
      var s :| s in rows && Holds(s, items[i], model, embed);
      assert s.(title := "") == r.(title := "");
    }
  }

  /** Every sync was given the facets of some state of the profile. */
  ghost predicate ProfileHistory(history: seq<Visit>) {
    forall v :: v in history ==> exists p :: DistinctRows(p) && v.items == ProfileFacets(p)
  }

  lemma ProfileHistoryIsDistinct(history: seq<Visit>)
    requires ProfileHistory(history)
    ensures DistinctThroughout(history)
  {
    forall v | v in history ensures DistinctIdentities(v.items) {
      var p :| DistinctRows(p) && v.items == ProfileFacets(p);
      FacetsAreDistinct(p);
    }
  }

  /** A facet's prompt leaves its label out, so relabelling one changes nothing. */
  lemma FacetsHaveNoTitles(rows: seq<StoredRow>, items: seq<Item>, model: string)
    requires forall x :: x in items ==> x.identity.Facet?
    ensures NoneRetitled(rows, items, model)
  {}

  /** After any history, a profile's table is what deleting everything and re-embedding the
      last facets would store: one row per facet, this model, the present hash and vector. */
  lemma ProfileSyncEqualsRebuild(history: seq<Visit>, embed: Embedder)
    requires history != [] && ProfileHistory(history)
    ensures var last := history[|history| - 1];
            var rows := After(history, embed, true);
            && Fresh(rows, last.items, last.model, embed)
            && Untitled(rows) == Untitled(Rebuild(last.items, last.model, embed))
  {
    var n := |history| - 1;
    var last := history[n];
    ProfileHistoryIsDistinct(history);
    assert history[n] in history;
    var p :| DistinctRows(p) && history[n].items == ProfileFacets(p);
    FacetsAreFacets(p);
    HistoryKeepsKeysDistinct(history[..n], embed, true);
    FacetsHaveNoTitles(After(history[..n], embed, true), history[n].items, last.model);
    SyncIsFresh(After(history[..n], embed, true), last.items, last.model, embed, true);
    FreshMatchesRebuild(After(history, embed, true), last.items, last.model, embed);
  }

  /** Every sync was given the chunks of some state of a notice. */
  ghost predicate TenderHistory(history: seq<Visit>) {
    forall v :: v in history ==> exists n :: HasCategory(n) && v.items == TenderChunks(n)
  }

  lemma TenderHistoryIsDistinct(history: seq<Visit>)
    requires TenderHistory(history)
    ensures DistinctThroughout(history)
  {
    forall v | v in history ensures DistinctIdentities(v.items) {
      var n :| HasCategory(n) && v.items == TenderChunks(n);
      ChunksAreDistinct(n);
    }
  }

  /** A notice's table is fresh after a sync exactly when it held no vector of this model for a
      chunk the notice no longer has, which nothing sweeps, and none for a chunk whose text
      stands while the notice has another title, which nothing re-embeds. */
  lemma TenderSyncIsFreshIff(history: seq<Visit>, embed: Embedder)
    requires history != [] && TenderHistory(history)
    ensures var n := |history| - 1;
            var stored := After(history[..n], embed, false);
            Fresh(After(history, embed, false), history[n].items, history[n].model, embed)
            <==> (NoOrphans(stored, history[n].items, history[n].model)
                  && NoneRetitled(stored, history[n].items, history[n].model))
  {
    var n := |history| - 1;
    TenderHistoryIsDistinct(history);
    HistoryKeepsKeysDistinct(history[..n], embed, false);
    SyncIsFreshIff(After(history[..n], embed, false), history[n].items, history[n].model, embed, false);
  }

  /** The first sync of a notice leaves its table fresh. */
  lemma FirstSyncIsFresh(n: Notice, model: string, embed: Embedder)
    requires HasCategory(n)
    ensures After([Visit(TenderChunks(n), model)], embed, false) == Sync([], TenderChunks(n), model, embed, false)
    ensures Fresh(Sync([], TenderChunks(n), model, embed, false), TenderChunks(n), model, embed)
  {
    ChunksAreDistinct(n);
    assert [Visit(TenderChunks(n), model)][..0] == [];
    SyncIsFresh([], TenderChunks(n), model, embed, false);
  }

  lemma TwoVisits(before: Notice, after: Notice, model: string, embed: Embedder)
    requires HasCategory(before) && HasCategory(after)
    ensures After([Visit(TenderChunks(before), model), Visit(TenderChunks(after), model)], embed, false)
         == Sync(Sync([], TenderChunks(before), model, embed, false), TenderChunks(after), model, embed, false)
  {
    var history := [Visit(TenderChunks(before), model), Visit(TenderChunks(after), model)];
    assert history[..1] == [history[0]];
    FirstSyncIsFresh(before, model, embed);
  }

  lemma DroppingSpoils(stored: seq<StoredRow>, was: seq<Item>, now: seq<Item>, x: Item, model: string, embed: Embedder)
    requires Fresh(stored, was, model, embed) && x in was && x.identity !in Live(now)
    ensures !Fresh(Sync(stored, now, model, embed, false), now, model, embed)
  {
    var r :| r in stored && Holds(r, x, model, embed);
    assert !NoOrphans(stored, now, model);
    OrphanSpoils(stored, now, model, embed);
  }

  lemma RetitlingSpoils(stored: seq<StoredRow>, was: seq<Item>, now: seq<Item>, x: Item, y: Item, model: string,
      embed: Embedder)
    requires Fresh(stored, was, model, embed) && DistinctIdentities(now) && x in was && y in now
    requires x.identity.Chunk? && x.identity == y.identity && x.text == y.text && Strip(x.title) != Strip(y.title)
    ensures !Fresh(Sync(stored, now, model, embed, false), now, model, embed)
    ensures exists r :: r in Sync(stored, now, model, embed, false) && Holds(r, x, model, embed)
  {
    var r :| r in stored && Holds(r, x, model, embed);
    var i :| 0 <= i < |stored| && stored[i] == r;
    assert Unique(stored, model);
    assert ByIdentity(stored, model)[y.identity] == i;
    UnchangedRowSurvives(stored, now, model, embed, false, y);
    assert !SameTitle(r, y);
    RetitledSpoils(stored, now, model, embed, false);
  }

  function AfterTwo(was: Notice, now: Notice, model: string, embed: Embedder): seq<StoredRow> {
    After([Visit(TenderChunks(was), model), Visit(TenderChunks(now), model)], embed, false)
  }

  /** A later extraction with nothing to say: the scope chunk disappears beside the standing
      headline, and its vector stays. */
  lemma DroppedChunkStays(n: Notice, later: Notice, model: string, embed: Embedder)
    requires HasCategory(n) && HasCategory(later) && Join(n.scope) != "" && Join(later.scope) == ""
    ensures !Fresh(AfterTwo(n, later, model, embed), TenderChunks(later), model, embed)
  {
    TwoVisits(n, later, model, embed);
    FirstSyncIsFresh(n, model, embed);
    ScopeIsLast(n);
    NoScope(later);
    DroppingSpoils(Sync([], TenderChunks(n), model, embed, false), TenderChunks(n), TenderChunks(later),
                   ScopeChunk(n), model, embed);
  }

  lemma NoScope(n: Notice)
    requires Join(n.scope) == ""
    ensures Chunk(ScopeRequirements) !in Live(TenderChunks(n))
  {}

  lemma ScopeIsLast(n: Notice)
    requires HasCategory(n) && Join(n.scope) != ""
    ensures ScopeChunk(n) in TenderChunks(n)
  {
    ChunksAreDistinct(n);
    assert TenderChunks(n)[1] == ScopeChunk(n);
  }

  /** A notice gets another title while its extracted scope stands: the table keeps the scope's
      vector, made under the old title, where embedding afresh would use the new one. */
  lemma RetitledChunkIsStale(n: Notice, title: string, model: string, embed: Embedder)
    requires HasCategory(n) && Join(n.scope) != "" && Strip(title) != Strip(n.title)
    ensures var later := n.(title := title);
            var rows := AfterTwo(n, later, model, embed);
            && !Fresh(rows, TenderChunks(later), model, embed)
            && (exists r :: r in rows && Holds(r, ScopeChunk(n), model, embed))
            && ScopeChunk(later) in TenderChunks(later)
            && PromptOf(ScopeChunk(later)) != PromptOf(ScopeChunk(n))
  {
    var later := n.(title := title);
    TwoVisits(n, later, model, embed);
    FirstSyncIsFresh(n, model, embed);
    ChunksAreDistinct(later);
    ScopeIsLast(n);
    ScopeIsLast(later);
    RetitlingSpoils(Sync([], TenderChunks(n), model, embed, false), TenderChunks(n), TenderChunks(later),
                    ScopeChunk(n), ScopeChunk(later), model, embed);
    SamePromptIff(Chunk(ScopeRequirements), title, n.title, Hash(ScopeChunk(n).text));
  }

  /** Syncing a fresh table sends nothing to the model. */
  lemma FreshNeedsNoEmbedding(rows: seq<StoredRow>, items: seq<Item>, model: string, embed: Embedder)
    requires Fresh(rows, items, model, embed)
    ensures ToEmbed(items, Hashes(rows, ByIdentity(rows, model))) == []
  {
    var existing := Hashes(rows, ByIdentity(rows, model));
    ToEmbedMembers(items, existing);
    forall x | x in items ensures Unchanged(x, existing) {
      var r :| r in rows && Holds(r, x, model, embed);
      var i :| 0 <= i < |rows| && rows[i] == r;
      var at := ByIdentity(rows, model)[x.identity];
      assert rows[at].identity == rows[i].identity;
      assert at == i;
    }
    if ToEmbed(items, existing) != [] {
      assert ToEmbed(items, existing)[0] in ToEmbed(items, existing);
    }
  }
}
