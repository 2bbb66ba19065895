/** Keeping stored vectors in step with the text they came from, after
    backend/app/modules/matching/embedding_store.py.

    A digest is injective, so the stored `hash` of a text is its stripped text; the embedder
    is any function of a model name and a prompt. A row remembers the title it was embedded
    under, which for a notice is no column. Rows are told apart by position. */
module EmbeddingStore {
  import opened EmbeddingText

  type Vector = seq<real>
  type Embedder = (string, string) -> Vector

  datatype StoredRow = StoredRow(identity: Identity, title: string, model: string, hash: string, vector: Vector)

  function Hash(text: string): string { Strip(text) }

  function PromptOf(item: Item): string { Prompt(item.identity, item.title, Hash(item.text)) }

  function RowFor(item: Item, model: string, embed: Embedder): StoredRow {
    StoredRow(item.identity, item.title, model, Hash(item.text), embed(model, PromptOf(item)))
  }

  // ----- specification ---------------------------------------------------

  /** Rows of the current model by identity; of two rows sharing one, the later is kept. */
  function ByIdentity(rows: seq<StoredRow>, model: string): (held: map<Identity, nat>)
    ensures forall k :: k in held ==>
              && held[k] < |rows| && rows[held[k]].identity == k && rows[held[k]].model == model
    ensures forall i :: 0 <= i < |rows| && rows[i].model == model ==>
              rows[i].identity in held && i <= held[rows[i].identity]
  {
    if rows == [] then map[]
    else
      var n := |rows| - 1;
      var before := ByIdentity(rows[..n], model);
      if rows[n].model == model then before[rows[n].identity := n] else before
  }

  predicate Unchanged(item: Item, existing: map<Identity, string>) {
    item.identity in existing && existing[item.identity] == Hash(item.text)
  }

  function ToEmbed(items: seq<Item>, existing: map<Identity, string>): seq<Item> {
    if items == [] then []
    else
      var n := |items| - 1;
      var before := ToEmbed(items[..n], existing);
      if Unchanged(items[n], existing) then before else before + [items[n]]
  }

  function Reusable(items: seq<Item>, existing: map<Identity, string>): seq<Item> {
    if items == [] then []
    else
      var n := |items| - 1;
      var before := Reusable(items[..n], existing);
      if Unchanged(items[n], existing) then before + [items[n]] else before
  }

  function Hashes(rows: seq<StoredRow>, held: map<Identity, nat>): (r: map<Identity, string>)
    requires forall k :: k in held ==> held[k] < |rows|
  {
    map k | k in held :: rows[held[k]].hash
  }

  function WriteOne(rows: seq<StoredRow>, item: Item, held: map<Identity, nat>, model: string, embed: Embedder)
    : seq<StoredRow>
    requires forall k :: k in held ==> held[k] < |rows|
  {
    if item.identity in held
    then rows[held[item.identity] := rows[held[item.identity]].(
           title := item.title, hash := Hash(item.text), vector := embed(model, PromptOf(item)))]
    else rows + [RowFor(item, model, embed)]
  }

  function Write(rows: seq<StoredRow>, items: seq<Item>, held: map<Identity, nat>, model: string, embed: Embedder)
    : (r: seq<StoredRow>)
    requires forall k :: k in held ==> held[k] < |rows|
    ensures |r| >= |rows|
  {
    if items == [] then rows
    else
      var n := |items| - 1;
      WriteOne(Write(rows, items[..n], held, model, embed), items[n], held, model, embed)
  }

  /** Whether position `i` survives: it is new, or of the current model and no orphan. */
  predicate Kept(stored: seq<StoredRow>, i: nat, held: map<Identity, nat>, live: set<Identity>,
                 model: string, sweep: bool)
  {
    i < |stored| ==>
      && stored[i].model == model
      && !(sweep && stored[i].identity in held && held[stored[i].identity] == i && stored[i].identity !in live)
  }

  function KeptPositions(stored: seq<StoredRow>, size: nat, held: map<Identity, nat>, live: set<Identity>,
                         model: string, sweep: bool): set<nat>
  {
    set i: nat | i < size && Kept(stored, i, held, live, model, sweep)
  }

  /** The rows at the given positions, in order. */
  function Select(rows: seq<StoredRow>, positions: set<nat>): seq<StoredRow> {
    if rows == [] then []
    else
      var n := |rows| - 1;
      Select(rows[..n], positions) + (if n in positions then [rows[n]] else [])
  }

  function Live(items: seq<Item>): set<Identity> {
    set x | x in items :: x.identity
  }

  /** The table after one sync. Profiles sweep orphans; tenders do not. */
  function Sync(stored: seq<StoredRow>, items: seq<Item>, model: string, embed: Embedder, sweep: bool)
    : seq<StoredRow>
  {
    var held := ByIdentity(stored, model);
    var written := Write(stored, ToEmbed(items, Hashes(stored, held)), held, model, embed);
    Select(written, KeptPositions(stored, |written|, held, Live(items), model, sweep))
  }

  // ----- the loops -------------------------------------------------------

  method IndexByIdentity(rows: seq<StoredRow>, model: string) returns (held: map<Identity, nat>)
    ensures held == ByIdentity(rows, model)
  {
    held := map[];
    for i := 0 to |rows|
      invariant held == ByIdentity(rows[..i], model)
    {
      assert rows[..i + 1][..i] == rows[..i];
      if rows[i].model == model {
        held := held[rows[i].identity := i];
      }
    }
    assert rows[..|rows|] == rows;
  }

  /** Split the items into those whose text changed and those that can be reused. */
  method PlanEmbeddings(items: seq<Item>, existing: map<Identity, string>)
    returns (toEmbed: seq<Item>, reusable: seq<Item>)
    ensures toEmbed == ToEmbed(items, existing) && reusable == Reusable(items, existing)
    ensures |toEmbed| + |reusable| == |items|
  {
    toEmbed, reusable := [], [];
    for i := 0 to |items|
      invariant toEmbed == ToEmbed(items[..i], existing) && reusable == Reusable(items[..i], existing)
      invariant |toEmbed| + |reusable| == i
    {
      assert items[..i + 1][..i] == items[..i];
      if Unchanged(items[i], existing) {
        reusable := reusable + [items[i]];
      } else {
        toEmbed := toEmbed + [items[i]];
      }
    }
    assert items[..|items|] == items;
  }

  class Table {
    var rows: seq<StoredRow>

    constructor ()
      ensures rows == []
    {
      rows := [];
    }

    /** Overwrite or add the row of every item that needs a new vector. */
    method WriteVectors(toEmbed: seq<Item>, held: map<Identity, nat>, model: string, embed: Embedder)
      requires forall k :: k in held ==> held[k] < |rows|
      modifies this
      ensures rows == Write(old(rows), toEmbed, held, model, embed)
    {
      for i := 0 to |toEmbed|
        invariant rows == Write(old(rows), toEmbed[..i], held, model, embed)
      {
        assert toEmbed[..i + 1][..i] == toEmbed[..i];
        var item := toEmbed[i];
        if item.identity in held {
          var at := held[item.identity];
          rows := rows[at := rows[at].(title := item.title, hash := Hash(item.text),
                                       vector := embed(model, PromptOf(item)))];
        } else {
          rows := rows + [RowFor(item, model, embed)];
        }
      }
      assert toEmbed[..|toEmbed|] == toEmbed;
    }

    /** Delete stored rows of other models and, when sweeping, orphans of this one. */
    method DeleteRows(ghost stored: seq<StoredRow>, count: nat, held: map<Identity, nat>,
                      live: set<Identity>, model: string, sweep: bool)
      returns (deleted: nat)
      requires count == |stored| <= |rows|
      requires forall i :: 0 <= i < count ==> rows[i].identity == stored[i].identity && rows[i].model == stored[i].model
      modifies this
      ensures rows == Select(old(rows), KeptPositions(stored, |old(rows)|, held, live, model, sweep))
      ensures |rows| + deleted == |old(rows)|
    {
      ghost var positions := KeptPositions(stored, |rows|, held, live, model, sweep);
      var kept: seq<StoredRow> := [];
      deleted := 0;
      for i := 0 to |rows|
        invariant rows == old(rows)
        invariant kept == Select(rows[..i], positions)
        invariant |kept| + deleted == i
      {
        assert rows[..i + 1][..i] == rows[..i];
        var row := rows[i];
        var orphan := sweep && row.identity in held && held[row.identity] == i && row.identity !in live;
        if i < count && (row.model != model || orphan) {
          deleted := deleted + 1;
        } else {
          kept := kept + [row];
        }
      }
      assert rows[..|rows|] == rows;
      rows := kept;
    }

    /** Bring the table in line with `items`; report how many texts went to the model. */
    method SyncEmbeddings(items: seq<Item>, model: string, embed: Embedder, sweep: bool)
      returns (embedded: nat, reused: nat, deleted: nat)
      modifies this
      ensures rows == Sync(old(rows), items, model, embed, sweep)
      ensures embedded == |ToEmbed(items, Hashes(old(rows), ByIdentity(old(rows), model)))|
      ensures embedded + reused == |items|
    {
      ghost var stored := rows;
      var count := |rows|;
      var held := IndexByIdentity(rows, model);
      var toEmbed, reusable := PlanEmbeddings(items, Hashes(rows, held));
      WriteVectors(toEmbed, held, model, embed);
      forall i: nat | i < count
        ensures rows[i].identity == stored[i].identity && rows[i].model == stored[i].model
      {
        WriteKeepsKeys(stored, toEmbed, held, model, embed, i);
      }
      deleted := DeleteRows(stored, count, held, Live(items), model, sweep);
      embedded, reused := |toEmbed|, |reusable|;
    }
  }

  lemma {:induction false} ToEmbedMembers(items: seq<Item>, existing: map<Identity, string>)
    ensures forall x :: x in ToEmbed(items, existing) <==> x in items && !Unchanged(x, existing)
  {
    if items != [] {
      var n := |items| - 1;
      ToEmbedMembers(items[..n], existing);
      assert items == items[..n] + [items[n]];
    }
  }

  lemma {:induction false} ToEmbedIsDistinct(items: seq<Item>, existing: map<Identity, string>)
    requires DistinctIdentities(items)
    ensures DistinctIdentities(ToEmbed(items, existing))
  {
    if items != [] {
      var n := |items| - 1;
      ToEmbedIsDistinct(items[..n], existing);
      ToEmbedMembers(items[..n], existing);
      var before := ToEmbed(items[..n], existing);
      forall i | 0 <= i < |before| ensures before[i].identity != items[n].identity {
        assert before[i] in before;
        var j :| 0 <= j < n && items[..n][j] == before[i];
        assert items[j].identity != items[n].identity;
      }
    }
  }

  /** Writing never changes what a stored row is filed under. */
  lemma {:induction false} WriteKeepsKeys(
    rows: seq<StoredRow>, items: seq<Item>, held: map<Identity, nat>, model: string, embed: Embedder, i: nat)
    requires forall k :: k in held ==> held[k] < |rows|
    requires i < |rows|
    ensures var w := Write(rows, items, held, model, embed);
            w[i].identity == rows[i].identity && w[i].model == rows[i].model
  {
    if items != [] {
      WriteKeepsKeys(rows, items[..|items| - 1], held, model, embed, i);
    }
  }
}
