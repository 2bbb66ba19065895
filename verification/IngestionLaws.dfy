/** What versions count, and when replaying stored payloads gives back the notice they came from. */
module IngestionLaws {
  import opened Wrappers
  import opened Ingestion

  // ----- versions --------------------------------------------------------

  datatype Capture = Capture(docs: seq<Document>, at: int)

  function Ingest(portal: Portal, history: seq<Capture>): Pool {
    if history == [] then Pool(None, [])
    else
      var n := |history| - 1;
      Upsert(Ingest(portal, history[..n]), Normalize(portal, history[n].docs), history[n].docs, history[n].at).0
  }

  function CoreOf(portal: Portal, c: Capture): string { Normalize(portal, c.docs).core }

  /** How often the hashed content differs from that of the capture before. */
  function Changes(portal: Portal, history: seq<Capture>): nat {
    if |history| <= 1 then 0
    else
      var n := |history| - 1;
      Changes(portal, history[..n]) + if CoreOf(portal, history[n]) != CoreOf(portal, history[n - 1]) then 1 else 0
  }

  /** The version is one more than the number of content changes in the ingest history. */
  lemma {:induction false} VersionCountsChanges(portal: Portal, history: seq<Capture>)
    requires history != []
    ensures var t := Ingest(portal, history).tender;
            && t.Some? && t.value.version == 1 + Changes(portal, history)
            && t.value.contentHash == CoreOf(portal, history[|history| - 1])
            && t.value.firstSeenAt == history[0].at && t.value.lastSeenAt == history[|history| - 1].at
  {
    var n := |history| - 1;
    if n > 0 {
      VersionCountsChanges(portal, history[..n]);
      assert history[..n][n - 1] == history[n - 1];
    }
  }

  // ----- the newest payload of a kind ------------------------------------

  function NewestOf(rows: seq<Row>, kind: Kind): Option<string> {
    if rows == [] then None
    else if rows[|rows| - 1].kind == kind then Some(rows[|rows| - 1].content)
    else NewestOf(rows[..|rows| - 1], kind)
  }

  /** Rows are added in the order of time, and a capture has one payload of a kind at most. */
  predicate InOrder(rows: seq<Row>) {
    && (forall i, j :: 0 <= i < j < |rows| ==> rows[i].createdAt <= rows[j].createdAt)
    && (forall i, j :: 0 <= i < j < |rows| && rows[i].kind == rows[j].kind ==> rows[i].createdAt < rows[j].createdAt)
  }

  predicate DistinctKinds(docs: seq<Document>) {
    forall i, j :: 0 <= i < j < |docs| ==> docs[i].kind != docs[j].kind
  }

  predicate Before(rows: seq<Row>, now: int) { forall r :: r in rows ==> r.createdAt < now }

  /** `r` is the latest row of its kind. */
  ghost predicate IsLatest(rows: seq<Row>, r: Row) {
    r in rows && forall q :: q in rows && q.kind == r.kind && q != r ==> q.createdAt < r.createdAt
  }

  lemma {:induction false} NewestIsLatest(rows: seq<Row>, kind: Kind)
    requires InOrder(rows)
    ensures match NewestOf(rows, kind)
            case None => forall r :: r in rows ==> r.kind != kind
            case Some(content) => exists r :: IsLatest(rows, r) && r.kind == kind && r.content == content
  {
    if rows != [] {
      var n := |rows| - 1;
      assert rows == rows[..n] + [rows[n]];
      if rows[n].kind == kind {
        assert IsLatest(rows, rows[n]);
      } else {
        NewestIsLatest(rows[..n], kind);
        if NewestOf(rows[..n], kind).Some? {
          var r :| IsLatest(rows[..n], r) && r.kind == kind && r.content == NewestOf(rows[..n], kind).value;
          assert IsLatest(rows, r);
        }
      }
    }
  }

  lemma {:induction false} PayloadAppend(docs: seq<Document>, d: Document, kind: Kind)
    ensures PayloadOf(docs + [d], kind)
         == if PayloadOf(docs, kind).Some? then PayloadOf(docs, kind)
            else if d.kind == kind then Some(d.content) else None
    ensures HasKind(docs, kind) <==> PayloadOf(docs, kind).Some?
  {
    if docs == [] {
      assert docs + [d] == [d];
      assert PayloadOf([d][1..], kind) == None;
    } else {
      PayloadAppend(docs[1..], d, kind);
      assert (docs + [d])[1..] == docs[1..] + [d];
      assert docs == [docs[0]] + docs[1..];
      if HasKind(docs[1..], kind) {
        var x :| x in docs[1..] && x.kind == kind;
        assert x in docs;
      }
      if docs[0].kind == kind { assert docs[0] in docs; }
    }
  }

  ghost predicate Descends(ordered: seq<Row>) {
    forall i, j :: 0 <= i < j < |ordered| ==> ordered[i].createdAt >= ordered[j].createdAt
  }

  /** Reading newest first, the first row of a kind is kept. */
  lemma {:induction false} LoadKeepsFirst(ordered: seq<Row>, kind: Kind, i: nat)
    requires i < |ordered| && ordered[i].kind == kind
    requires forall j :: 0 <= j < i ==> ordered[j].kind != kind
    ensures PayloadOf(Load(ordered, {}), kind) == Some(ordered[i].content)
  {
    var n := |ordered| - 1;
    var before, last := Load(ordered[..n], {}), ordered[n];
    PayloadAppend(before, Document(last.kind, last.content), kind);
    PayloadAppend(before, Document(last.kind, last.content), last.kind);
    if i == n {
      LoadLacks(ordered[..n], kind);
    } else {
      LoadKeepsFirst(ordered[..n], kind, i);
    }
  }

  lemma {:induction false} LoadLacks(ordered: seq<Row>, kind: Kind)
    requires forall j :: 0 <= j < |ordered| ==> ordered[j].kind != kind
    ensures PayloadOf(Load(ordered, {}), kind) == None
  {
    if ordered != [] {
      var n := |ordered| - 1;
      LoadLacks(ordered[..n], kind);
      PayloadAppend(Load(ordered[..n], {}), Document(ordered[n].kind, ordered[n].content), kind);
    }
  }

  lemma {:induction false} FirstOfKind(ordered: seq<Row>, kind: Kind) returns (i: nat)
    requires exists r :: r in ordered && r.kind == kind
    ensures i < |ordered| && ordered[i].kind == kind
    ensures forall j :: 0 <= j < i ==> ordered[j].kind != kind
  {
    if ordered[0].kind == kind {
      i := 0;
    } else {
      assert ordered == [ordered[0]] + ordered[1..];
      var rest := FirstOfKind(ordered[1..], kind);
      i := rest + 1;
    }
  }

  lemma LoadFindsNewest(ordered: seq<Row>, rows: seq<Row>, kind: Kind)
    requires InOrder(rows) && IsNewestFirst(ordered, rows)
    ensures PayloadOf(Load(ordered, {}), kind) == NewestOf(rows, kind)
  {
    NewestIsLatest(rows, kind);
    assert forall r :: r in ordered <==> r in multiset(ordered);
    assert forall r :: r in rows <==> r in multiset(rows);
    match NewestOf(rows, kind)
    case None =>
      forall j | 0 <= j < |ordered| ensures ordered[j].kind != kind {
        assert ordered[j] in ordered;
      }
      LoadLacks(ordered, kind);
    case Some(content) =>
      var r :| IsLatest(rows, r) && r.kind == kind && r.content == content;
      LatestComesFirst(ordered, r);
  }

  lemma LatestComesFirst(ordered: seq<Row>, r: Row)
    requires Descends(ordered) && IsLatest(ordered, r)
    ensures PayloadOf(Load(ordered, {}), r.kind) == Some(r.content)
  {
    var i := FirstOfKind(ordered, r.kind);
    assert ordered[i] in ordered;
    assert ordered[i] == r by {
      var k :| 0 <= k < |ordered| && ordered[k] == r;
      assert ordered[i].createdAt >= ordered[k].createdAt;
    }
    LoadKeepsFirst(ordered, r.kind, i);
  }

  /** The rows whose blob the store still has. */
  function Readable(rows: seq<Row>, lost: set<Row>): seq<Row> {
    if rows == [] then []
    else Readable(rows[..|rows| - 1], lost) + if rows[|rows| - 1] in lost then [] else [rows[|rows| - 1]]
  }

  lemma {:induction false} LoadSkipsLost(ordered: seq<Row>, lost: set<Row>)
    ensures Load(ordered, lost) == Load(Readable(ordered, lost), {})
  {
    if ordered != [] {
      var n := |ordered| - 1;
      LoadSkipsLost(ordered[..n], lost);
      if ordered[n] !in lost {
        assert Readable(ordered, lost)[..|Readable(ordered, lost)| - 1] == Readable(ordered[..n], lost);
      } else {
        assert Readable(ordered, lost) == Readable(ordered[..n], lost);
      }
    }
  }

  lemma SnocElements(s: seq<Row>, last: Row, r: Row)
    ensures multiset(s + [last])[r] == multiset(s)[r] + if last == r then 1 else 0
  {}

  lemma {:induction false} ReadableRows(rows: seq<Row>, lost: set<Row>, r: Row)
    ensures multiset(Readable(rows, lost))[r] == if r in lost then 0 else multiset(rows)[r]
  {
    if rows != [] {
      var n := |rows| - 1;
      ReadableRows(rows[..n], lost, r);
      assert rows == rows[..n] + [rows[n]];
      SnocElements(rows[..n], rows[n], r);
      if rows[n] !in lost {
        SnocElements(Readable(rows[..n], lost), rows[n], r);
      } else {
        assert Readable(rows, lost) == Readable(rows[..n], lost);
      }
    }
  }

  lemma ReadableMembers(rows: seq<Row>, lost: set<Row>)
    ensures forall r :: r in Readable(rows, lost) ==> r in rows
  {
    forall r | r in Readable(rows, lost) ensures r in rows {
      ReadableRows(rows, lost, r);
      assert r in multiset(Readable(rows, lost));
    }
  }

  lemma {:induction false} ReadableInOrder(rows: seq<Row>, lost: set<Row>)
    requires InOrder(rows)
    ensures InOrder(Readable(rows, lost))
  {
    if rows != [] {
      var n := |rows| - 1;
      var before := Readable(rows[..n], lost);
      ReadableInOrder(rows[..n], lost);
      ReadableMembers(rows[..n], lost);
      forall i | 0 <= i < |before|
        ensures before[i].createdAt <= rows[n].createdAt
        ensures before[i].kind == rows[n].kind ==> before[i].createdAt < rows[n].createdAt
      {
        assert before[i] in rows[..n];
      }
    }
  }

  lemma {:induction false} ReadableDescends(ordered: seq<Row>, lost: set<Row>)
    requires Descends(ordered)
    ensures Descends(Readable(ordered, lost))
  {
    if ordered != [] {
      var n := |ordered| - 1;
      var before := Readable(ordered[..n], lost);
      ReadableDescends(ordered[..n], lost);
      ReadableMembers(ordered[..n], lost);
      forall i | 0 <= i < |before| ensures before[i].createdAt >= ordered[n].createdAt {
        assert before[i] in ordered[..n];
      }
    }
  }

  /** Loading returns the newest payload of each kind among those the blob store still has,
      whatever order the database gives rows created together. */
  lemma LoadIsNewest(ordered: seq<Row>, rows: seq<Row>, lost: set<Row>, kind: Kind)
    requires InOrder(rows) && IsNewestFirst(ordered, rows)
    ensures PayloadOf(Load(ordered, lost), kind) == NewestOf(Readable(rows, lost), kind)
  {
    LoadSkipsLost(ordered, lost);
    ReadableInOrder(rows, lost);
    ReadableDescends(ordered, lost);
    assert multiset(Readable(ordered, lost)) == multiset(Readable(rows, lost)) by {
      forall r ensures multiset(Readable(ordered, lost))[r] == multiset(Readable(rows, lost))[r] {
        ReadableRows(ordered, lost, r);
        ReadableRows(rows, lost, r);
      }
    }
    LoadFindsNewest(Readable(ordered, lost), Readable(rows, lost), kind);
  }

  // ----- storing a capture -----------------------------------------------

  /** The bytes are new to the notice, and not those of an earlier payload of the capture. */
  predicate IsNew(rows: seq<Row>, docs: seq<Document>, i: nat)
    requires i < |docs|
  {
    !HasContent(rows, docs[i].content) && forall j :: 0 <= j < i ==> docs[j].content != docs[i].content
  }

  predicate InDocs(docs: seq<Document>, content: string) { exists d :: d in docs && d.content == content }

  lemma {:induction false} StoredContents(rows: seq<Row>, docs: seq<Document>, now: int, content: string)
    ensures HasContent(StoreAll(rows, docs, now), content) <==> HasContent(rows, content) || InDocs(docs, content)
    decreases |docs|
  {
    if docs != [] {
      var n := |docs| - 1;
      var before, after := StoreAll(rows, docs[..n], now), StoreAll(rows, docs, now);
      StoredContents(rows, docs[..n], now, content);
      assert docs == docs[..n] + [docs[n]];
      if HasContent(before, content) {
        var r :| r in before && r.content == content;
        assert r in after;
        if InDocs(docs[..n], content) {
          var d :| d in docs[..n] && d.content == content;
          assert d in docs;
        }
      } else if docs[n].content == content {
        assert Row(docs[n].kind, content, now) in after && docs[n] in docs;
      }
    }
  }

  lemma {:induction false} OtherKindsStay(rows: seq<Row>, docs: seq<Document>, now: int, kind: Kind)
    requires !HasKind(docs, kind)
    ensures NewestOf(StoreAll(rows, docs, now), kind) == NewestOf(rows, kind)
    decreases |docs|
  {
    if docs != [] {
      var n := |docs| - 1;
      assert docs[n] in docs && forall d :: d in docs[..n] ==> d in docs;
      OtherKindsStay(rows, docs[..n], now, kind);
      AppendedRow(StoreAll(rows, docs[..n], now), Row(docs[n].kind, docs[n].content, now), kind);
    }
  }

  lemma AppendedRow(rows: seq<Row>, r: Row, kind: Kind)
    ensures NewestOf(rows + [r], kind) == if r.kind == kind then Some(r.content) else NewestOf(rows, kind)
  {
    assert (rows + [r])[..|rows|] == rows;
  }

  lemma IsNewIff(rows: seq<Row>, docs: seq<Document>, now: int, n: nat)
    requires n < |docs|
    ensures IsNew(rows, docs, n) <==> !HasContent(StoreAll(rows, docs[..n], now), docs[n].content)
  {
    StoredContents(rows, docs[..n], now, docs[n].content);
    if InDocs(docs[..n], docs[n].content) {
      var d :| d in docs[..n] && d.content == docs[n].content;
      var j :| 0 <= j < n && docs[..n][j] == d;
      assert docs[j].content == docs[n].content;
    } else {
      forall j | 0 <= j < n ensures docs[j].content != docs[n].content {
        assert docs[j] in docs[..n];
      }
    }
  }

  lemma {:induction false} NewestAfterStoring(rows: seq<Row>, docs: seq<Document>, now: int, i: nat)
    requires DistinctKinds(docs) && i < |docs|
    ensures NewestOf(StoreAll(rows, docs, now), docs[i].kind)
         == if IsNew(rows, docs, i) then Some(docs[i].content) else NewestOf(rows, docs[i].kind)
    decreases |docs|
  {
    var n := |docs| - 1;
    var before := StoreAll(rows, docs[..n], now);
    AppendedRow(before, Row(docs[n].kind, docs[n].content, now), docs[i].kind);
    if i == n {
      IsNewIff(rows, docs, now, n);
      LastKindIsNew(docs);
      OtherKindsStay(rows, docs[..n], now, docs[n].kind);
    } else {
      NewestAfterStoring(rows, docs[..n], now, i);
      IsNewInPrefix(rows, docs, n, i);
    }
  }

  lemma IsNewInPrefix(rows: seq<Row>, docs: seq<Document>, n: nat, i: nat)
    requires i < n <= |docs|
    ensures IsNew(rows, docs[..n], i) == IsNew(rows, docs, i)
  {
    assert forall j :: 0 <= j <= i ==> docs[..n][j] == docs[j];
  }

  lemma LastKindIsNew(docs: seq<Document>)
    requires DistinctKinds(docs) && docs != []
    ensures !HasKind(docs[..|docs| - 1], docs[|docs| - 1].kind)
  {}

  // ----- loading gives the capture back ----------------------------------

  /** What a caller can check before storing a capture: every payload is new to the notice or the
      newest of its kind already, and no kind the notice has is missing. */
  predicate Survives(rows: seq<Row>, docs: seq<Document>) {
    && (forall i :: 0 <= i < |docs| ==> IsNew(rows, docs, i) || NewestOf(rows, docs[i].kind) == Some(docs[i].content))
    && (forall r :: r in rows ==> HasKind(docs, r.kind))
  }

  lemma {:induction false} PayloadAt(docs: seq<Document>, i: nat)
    requires DistinctKinds(docs) && i < |docs|
    ensures PayloadOf(docs, docs[i].kind) == Some(docs[i].content)
  {
    if i > 0 { PayloadAt(docs[1..], i - 1); }
  }

  lemma PayloadIffKind(docs: seq<Document>, kind: Kind)
    ensures PayloadOf(docs, kind).Some? <==> HasKind(docs, kind)
  {
    PayloadAppend(docs, Document(kind, ""), kind);
  }

  lemma {:induction false} NewestIffKind(rows: seq<Row>, kind: Kind)
    ensures NewestOf(rows, kind).Some? <==> exists r :: r in rows && r.kind == kind
  {
    if rows != [] {
      var n := |rows| - 1;
      assert rows == rows[..n] + [rows[n]];
      NewestIffKind(rows[..n], kind);
      if NewestOf(rows[..n], kind).Some? {
        var r :| r in rows[..n] && r.kind == kind;
        assert r in rows;
      }
    }
  }

  ghost predicate HoldsCapture(rows: seq<Row>, docs: seq<Document>) {
    forall kind :: NewestOf(rows, kind) == PayloadOf(docs, kind)
  }

  lemma HeldBySurviving(rows: seq<Row>, docs: seq<Document>, now: int, kind: Kind)
    requires DistinctKinds(docs) && Survives(rows, docs)
    ensures NewestOf(StoreAll(rows, docs, now), kind) == PayloadOf(docs, kind)
  {
    PayloadIffKind(docs, kind);
    NewestIffKind(rows, kind);
    if HasKind(docs, kind) {
      var d :| d in docs && d.kind == kind;
      var i :| 0 <= i < |docs| && docs[i] == d;
      NewestAfterStoring(rows, docs, now, i);
      PayloadAt(docs, i);
    } else {
      OtherKindsStay(rows, docs, now, kind);
    }
  }

  /** Storing a capture makes it the newest payload of every kind exactly when it survives. */
  lemma StoredCaptureIsNewestIff(rows: seq<Row>, docs: seq<Document>, now: int)
    requires DistinctKinds(docs)
    ensures HoldsCapture(StoreAll(rows, docs, now), docs) <==> Survives(rows, docs)
  {
    var after := StoreAll(rows, docs, now);
    if Survives(rows, docs) {
      forall kind ensures NewestOf(after, kind) == PayloadOf(docs, kind) {
        HeldBySurviving(rows, docs, now, kind);
      }
    }
    if HoldsCapture(after, docs) {
      forall i | 0 <= i < |docs| ensures IsNew(rows, docs, i) || NewestOf(rows, docs[i].kind) == Some(docs[i].content) {
        NewestAfterStoring(rows, docs, now, i);
        PayloadAt(docs, i);
        assert NewestOf(after, docs[i].kind) == PayloadOf(docs, docs[i].kind);
      }
      forall r | r in rows && !HasKind(docs, r.kind) ensures false {
        OtherKindsStay(rows, docs, now, r.kind);
        NewestIffKind(rows, r.kind);
        PayloadIffKind(docs, r.kind);
      }
    }
  }

  predicate StoredThen(rows: seq<Row>, docs: seq<Document>, now: int, r: Row) {
    r in rows || (r.createdAt == now && HasKind(docs, r.kind))
  }

  lemma {:induction false} StoredRows(rows: seq<Row>, docs: seq<Document>, now: int)
    ensures forall r :: r in StoreAll(rows, docs, now) ==> StoredThen(rows, docs, now, r)
    decreases |docs|
  {
    if docs != [] {
      var n := |docs| - 1;
      StoredRows(rows, docs[..n], now);
      forall r | r in StoreAll(rows, docs, now) ensures StoredThen(rows, docs, now, r) {
        if r in StoreAll(rows, docs[..n], now) && r !in rows {
          var d :| d in docs[..n] && d.kind == r.kind;
          assert d in docs;
        } else {
          assert docs[n] in docs;
        }
      }
    }
  }

  /** A row appended last, of a kind not stored at that time before. */
  lemma AppendKeepsOrder(before: seq<Row>, r: Row)
    requires InOrder(before)
    requires forall q :: q in before ==> q.createdAt <= r.createdAt && (q.kind == r.kind ==> q.createdAt < r.createdAt)
    ensures InOrder(before + [r])
  {
    forall i | 0 <= i < |before|
      ensures before[i].createdAt <= r.createdAt && (before[i].kind == r.kind ==> before[i].createdAt < r.createdAt)
    {
      assert before[i] in before;
    }
  }

  lemma {:induction false} StoringKeepsOrder(rows: seq<Row>, docs: seq<Document>, now: int)
    requires InOrder(rows) && Before(rows, now) && DistinctKinds(docs)
    ensures InOrder(StoreAll(rows, docs, now))
    decreases |docs|
  {
    if docs != [] {
      var n := |docs| - 1;
      var before := StoreAll(rows, docs[..n], now);
      StoringKeepsOrder(rows, docs[..n], now);
      StoredRows(rows, docs[..n], now);
      LastKindIsNew(docs);
      forall q | q in before ensures q.createdAt <= now && (q.kind == docs[n].kind ==> q.createdAt < now) {
        assert StoredThen(rows, docs[..n], now, q);
      }
      AppendKeepsOrder(before, Row(docs[n].kind, docs[n].content, now));
    }
  }

  lemma EqualPayloads(a: seq<Document>, b: seq<Document>)
    requires forall kind :: PayloadOf(a, kind) == PayloadOf(b, kind)
    ensures Payloads(a) == Payloads(b)
  {}

  // ----- replay ----------------------------------------------------------

  /** A capture carries its listing row in one form only. */
  predicate OneListing(docs: seq<Document>) { !(HasKind(docs, ListingRow) && HasKind(docs, ApiJson)) }

  function FieldsOf(portal: Portal, payload: Option<string>): string {
    if payload.None? then ""
    else match portal.decode(payload.value)
         case Object(fields) => fields
         case _ => ""
  }

  lemma {:induction false} ListingIs(portal: Portal, docs: seq<Document>, kind: Kind)
    requires DistinctKinds(docs) && IsListing(kind)
    requires forall i :: 0 <= i < |docs| && IsListing(docs[i].kind) ==> docs[i].kind == kind
    ensures ListingOf(portal, docs) == FieldsOf(portal, PayloadOf(docs, kind))
  {
    if docs != [] {
      ListingIs(portal, docs[1..], kind);
      PayloadIffKind(docs[1..], kind);
    }
  }

  /** The payload tells nothing about the listing: another kind, or no JSON. */
  predicate IsNoListing(portal: Portal, d: Document) { !IsListing(d.kind) || portal.decode(d.content).NotJson? }

  /** The first listing payload that is JSON at all decides, and one that is no object says nothing;
      without any, nothing is said. */
  lemma {:induction false} FirstJsonDecides(portal: Portal, docs: seq<Document>, i: nat)
    requires i <= |docs| && forall j :: 0 <= j < i ==> IsNoListing(portal, docs[j])
    requires i < |docs| ==> !IsNoListing(portal, docs[i])
    ensures ListingOf(portal, docs)
         == if i < |docs| && portal.decode(docs[i].content).Object? then portal.decode(docs[i].content).fields else ""
  {
    if i > 0 {
      assert IsNoListing(portal, docs[0]);
      forall j | 0 <= j < i - 1 ensures IsNoListing(portal, docs[1..][j]) {
        assert IsNoListing(portal, docs[j + 1]);
      }
      FirstJsonDecides(portal, docs[1..], i - 1);
    }
  }

  /** The one kind a listing row may have in these documents. */
  lemma OneListingKind(docs: seq<Document>, kind: Kind)
    requires OneListing(docs) && IsListing(kind) && (kind == ApiJson <==> HasKind(docs, ApiJson))
    ensures forall i :: 0 <= i < |docs| && IsListing(docs[i].kind) ==> docs[i].kind == kind
  {
    forall i | 0 <= i < |docs| && IsListing(docs[i].kind) ensures docs[i].kind == kind {
      assert docs[i] in docs && HasKind(docs, docs[i].kind);
    }
  }

  /** Equal payloads normalise to equal notices, in whatever order they are given. */
  lemma PayloadsDecide(portal: Portal, a: seq<Document>, b: seq<Document>)
    requires DistinctKinds(a) && DistinctKinds(b) && OneListing(b) && Payloads(a) == Payloads(b)
    ensures Normalize(portal, a) == Normalize(portal, b)
  {
    forall kind ensures HasKind(a, kind) <==> HasKind(b, kind) {
      SamePayload(a, b, kind);
      PayloadIffKind(a, kind);
      PayloadIffKind(b, kind);
    }
    var kind := if HasKind(b, ApiJson) then ApiJson else ListingRow;
    OneListingKind(a, kind);
    OneListingKind(b, kind);
    ListingIs(portal, a, kind);
    ListingIs(portal, b, kind);
    SamePayload(a, b, kind);
  }

  lemma {:induction false} LoadHasDistinctKinds(ordered: seq<Row>, lost: set<Row>)
    ensures DistinctKinds(Load(ordered, lost))
  {
    if ordered != [] {
      var n := |ordered| - 1;
      LoadHasDistinctKinds(ordered[..n], lost);
      var before := Load(ordered[..n], lost);
      forall i | 0 <= i < |before| && !HasKind(before, ordered[n].kind) ensures before[i].kind != ordered[n].kind {
        assert before[i] in before;
      }
    }
  }

  /** Reparsing a notice right after a capture of it was stored. */
  function ReparseAfter(p: Pool, portal: Portal, docs: seq<Document>, now: int, ordered: seq<Row>,
      later: int): (Pool, Reparse) {
    ReparseSpec(Upsert(p, Normalize(portal, docs), docs, now).0, portal, ordered, {}, later)
  }

  predicate Stores(p: Pool, portal: Portal, docs: seq<Document>) {
    p.tender.None? || p.tender.value.contentHash != Normalize(portal, docs).core
  }

  lemma LoadedPayloads(rows: seq<Row>, docs: seq<Document>, now: int, ordered: seq<Row>)
    requires InOrder(rows) && Before(rows, now) && DistinctKinds(docs)
    requires IsNewestFirst(ordered, StoreAll(rows, docs, now))
    ensures Payloads(Load(ordered, {})) == Payloads(docs) <==> Survives(rows, docs)
  {
    var after := StoreAll(rows, docs, now);
    StoringKeepsOrder(rows, docs, now);
    StoredCaptureIsNewestIff(rows, docs, now);
    forall kind ensures PayloadOf(Load(ordered, {}), kind) == NewestOf(after, kind) {
      LoadFindsNewest(ordered, after, kind);
    }
    if Payloads(Load(ordered, {})) == Payloads(docs) {
      forall kind ensures NewestOf(after, kind) == PayloadOf(docs, kind) {
        SamePayload(Load(ordered, {}), docs, kind);
      }
    } else if Survives(rows, docs) {
      EqualPayloads(Load(ordered, {}), docs);
    }
  }

  lemma SamePayload(a: seq<Document>, b: seq<Document>, kind: Kind)
    requires Payloads(a) == Payloads(b)
    ensures PayloadOf(a, kind) == PayloadOf(b, kind)
  {
    assert kind in Payloads(a) <==> kind in Payloads(b);
    if kind in Payloads(a) { assert Payloads(a)[kind] == Payloads(b)[kind]; }
  }

  lemma LoadIsEmptyIff(ordered: seq<Row>, docs: seq<Document>)
    requires Payloads(Load(ordered, {})) == Payloads(docs) && docs != []
    ensures Load(ordered, {}) != []
  {
    assert PayloadOf(docs, docs[0].kind) == Some(docs[0].content);
    SamePayload(Load(ordered, {}), docs, docs[0].kind);
  }

  /** Reparsing right after a surviving capture was stored leaves all but the time last seen. */
  lemma SurvivorReplays(p: Pool, portal: Portal, docs: seq<Document>, now: int, ordered: seq<Row>, later: int)
    requires docs != [] && DistinctKinds(docs) && OneListing(docs)
    requires InOrder(p.rows) && Before(p.rows, now) && Stores(p, portal, docs) && Survives(p.rows, docs)
    requires IsNewestFirst(ordered, StoreAll(p.rows, docs, now))
    ensures var stored := Upsert(p, Normalize(portal, docs), docs, now).0;
            var (after, r) := ReparseAfter(p, portal, docs, now, ordered, later);
            && r.Reparsed? && r.outcome == Unchanged && after.rows == stored.rows
            && after.tender == Some(stored.tender.value.(lastSeenAt := later))
  {
    LoadedPayloads(p.rows, docs, now, ordered);
    LoadIsEmptyIff(ordered, docs);
    LoadHasDistinctKinds(ordered, {});
    PayloadsDecide(portal, Load(ordered, {}), docs);
  }

  predicate ReplaysUnchanged(p: Pool, portal: Portal, docs: seq<Document>, now: int, ordered: seq<Row>, later: int) {
    var r := ReparseAfter(p, portal, docs, now, ordered, later).1;
    r.Reparsed? && r.outcome == Unchanged
  }

  /** A parser that sees something new in these payloads and the known content in all others. */
  function Discerning(docs: seq<Document>, known: string): Portal {
    Portal("notice", (id, listing, payloads) => Data(if payloads == Payloads(docs) then known + "!" else known, ""),
           content => NotJson)
  }

  lemma DiscerningParserIsNotFooled(p: Pool, docs: seq<Document>, now: int, ordered: seq<Row>, later: int)
    requires DistinctKinds(docs) && InOrder(p.rows) && Before(p.rows, now) && !Survives(p.rows, docs)
    requires IsNewestFirst(ordered, StoreAll(p.rows, docs, now))
    ensures var portal := Discerning(docs, if p.tender.Some? then p.tender.value.contentHash else "");
            Stores(p, portal, docs) && !ReplaysUnchanged(p, portal, docs, now, ordered, later)
  {
    var known := if p.tender.Some? then p.tender.value.contentHash else "";
    LoadedPayloads(p.rows, docs, now, ordered);
    assert |known + "!"| > |known|;
  }

  /** A capture survives exactly when every parser that has it stored reparses it as UNCHANGED. */
  lemma ReparseIsUnchangedIff(p: Pool, docs: seq<Document>, now: int, ordered: seq<Row>, later: int)
    requires docs != [] && DistinctKinds(docs) && OneListing(docs)
    requires InOrder(p.rows) && Before(p.rows, now)
    requires IsNewestFirst(ordered, StoreAll(p.rows, docs, now))
    ensures Survives(p.rows, docs)
            <==> (forall portal: Portal :: Stores(p, portal, docs) ==>
                    ReplaysUnchanged(p, portal, docs, now, ordered, later))
  {
    if Survives(p.rows, docs) {
      forall portal: Portal | Stores(p, portal, docs) ensures ReplaysUnchanged(p, portal, docs, now, ordered, later) {
        SurvivorReplays(p, portal, docs, now, ordered, later);
      }
    } else {
      DiscerningParserIsNotFooled(p, docs, now, ordered, later);
    }
  }

  // ----- ingests that store nothing --------------------------------------

  /** An ingest that ends UNCHANGED stores no payload, so a later reparse does what it would have
      done before: it gives the same outcome, version and content. */
  lemma UnchangedIngestKeepsReplay(p: Pool, portal: Portal, docs: seq<Document>, now: int,
                                   replay: Portal, ordered: seq<Row>, lost: set<Row>, later: int)
    requires !Stores(p, portal, docs)
    ensures var (after, outcome) := Upsert(p, Normalize(portal, docs), docs, now);
            var (was, r) := ReparseSpec(p, replay, ordered, lost, later);
            var (now_, r') := ReparseSpec(after, replay, ordered, lost, later);
            && outcome == Unchanged && after.rows == p.rows && r' == r && now_.rows == was.rows
            && now_.tender.Some? && was.tender.Some?
            && now_.tender.value.contentHash == was.tender.value.contentHash
  {}

  /** The captures whose payloads were stored: the first, and those that changed the content. */
  predicate IsStored(portal: Portal, history: seq<Capture>, i: nat)
    requires i < |history|
  {
    i == 0 || CoreOf(portal, history[i]) != CoreOf(portal, history[i - 1])
  }

  function LastStored(portal: Portal, history: seq<Capture>): (i: nat)
    requires history != []
    ensures i < |history|
  {
    if IsStored(portal, history, |history| - 1) then |history| - 1
    else LastStored(portal, history[..|history| - 1])
  }

  lemma {:induction false} LastStoredIsLast(portal: Portal, history: seq<Capture>)
    requires history != []
    ensures var i := LastStored(portal, history);
            IsStored(portal, history, i) && forall j :: i < j < |history| ==> !IsStored(portal, history, j)
  {
    var n := |history| - 1;
    if !IsStored(portal, history, n) {
      LastStoredIsLast(portal, history[..n]);
      forall j | 0 <= j < n ensures IsStored(portal, history, j) == IsStored(portal, history[..n], j) {}
    }
  }

  // ----- what is stored of a notice --------------------------------------

  /** The fields kept are those the hash covers. */
  predicate Honest(p: Pool) { p.tender.Some? ==> p.tender.value.data.core == p.tender.value.contentHash }

  /** Over every history: the fields stored are those of the latest capture that was created or
      updated, and the hash is theirs. */
  lemma {:induction false} StoredDataIsLastStored(portal: Portal, history: seq<Capture>)
    requires history != []
    ensures var p := Ingest(portal, history);
            && Honest(p) && p.tender.Some?
            && p.tender.value.data == Normalize(portal, history[LastStored(portal, history)].docs)
  {
    var n := |history| - 1;
    VersionCountsChanges(portal, history);
    if n > 0 {
      StoredDataIsLastStored(portal, history[..n]);
      VersionCountsChanges(portal, history[..n]);
      assert history[..n][n - 1] == history[n - 1];
    }
  }

  /** A capture or a replay, by whatever parser is deployed then. */
  datatype Event =
    | Captured(portal: Portal, docs: seq<Document>, at: int)
    | Replayed(portal: Portal, ordered: seq<Row>, lost: set<Row>, at: int)

  function Apply(p: Pool, e: Event): Pool {
    match e
    case Captured(portal, docs, at) => Upsert(p, Normalize(portal, docs), docs, at).0
    case Replayed(portal, ordered, lost, at) => ReparseSpec(p, portal, ordered, lost, at).0
  }

  function RunEvents(events: seq<Event>): Pool {
    if events == [] then Pool(None, []) else Apply(RunEvents(events[..|events| - 1]), events[|events| - 1])
  }

  /** What an event reads: a capture its own payloads, a replay those it can load. */
  function ReadBy(e: Event): seq<Document> {
    match e
    case Captured(_, docs, _) => docs
    case Replayed(_, ordered, lost, _) => Load(ordered, lost)
  }

  /** A replay that can load nothing does nothing. */
  predicate Reads(e: Event) { e.Replayed? ==> ReadBy(e) != [] }

  /** The event brought other content than the notice had, or was its first. */
  predicate Writes(events: seq<Event>, i: nat)
    requires i < |events|
  {
    var before := RunEvents(events[..i]).tender;
    && Reads(events[i])
    && (before.None? || before.value.contentHash != Normalize(events[i].portal, ReadBy(events[i])).core)
  }

  predicate LastWrite(events: seq<Event>, i: nat) {
    i < |events| && Writes(events, i) && forall j :: i < j < |events| ==> !Writes(events, j)
  }

  predicate AnyWrite(events: seq<Event>) { exists i :: 0 <= i < |events| && LastWrite(events, i) }

  /** How many events wrote. */
  function CountWrites(events: seq<Event>): nat {
    if events == [] then 0
    else CountWrites(events[..|events| - 1]) + if Writes(events, |events| - 1) then 1 else 0
  }

  lemma LastWriteOfPrefix(events: seq<Event>, i: nat)
    requires events != [] && !Writes(events, |events| - 1) && LastWrite(events[..|events| - 1], i)
    ensures LastWrite(events, i)
  {
    var n := |events| - 1;
    forall j | 0 <= j < n ensures Writes(events, j) == Writes(events[..n], j) {
      assert events[..n][..j] == events[..j];
    }
  }

  lemma WritingStores(events: seq<Event>)
    requires events != [] && Writes(events, |events| - 1)
    ensures var n := |events| - 1;
            var before, t := RunEvents(events[..n]).tender, RunEvents(events).tender;
            && t.Some? && t.value.data == Normalize(events[n].portal, ReadBy(events[n]))
            && t.value.contentHash == t.value.data.core
            && t.value.version == if before.Some? then before.value.version + 1 else 1
  {}

  /** The fields stored are what the latest write made of what it read. */
  predicate DataIsLastWritten(events: seq<Event>) {
    var t := RunEvents(events).tender;
    forall i :: 0 <= i < |events| && LastWrite(events, i) ==>
      t.Some? && t.value.data == Normalize(events[i].portal, ReadBy(events[i]))
  }

  lemma DataStays(events: seq<Event>)
    requires events != [] && !Writes(events, |events| - 1) && DataIsLastWritten(events[..|events| - 1])
    ensures DataIsLastWritten(events)
  {
    var n := |events| - 1;
    NothingWritten(events);
    forall i | 0 <= i < |events| && LastWrite(events, i)
      ensures LastWrite(events[..n], i) && events[..n][i] == events[i]
    {
      PrefixOfLastWrite(events, i);
    }
  }

  lemma DataIsWritten(events: seq<Event>)
    requires events != [] && Writes(events, |events| - 1)
    ensures DataIsLastWritten(events) && AnyWrite(events)
  {
    WritingStores(events);
    assert LastWrite(events, |events| - 1);
  }

  /** Over every run of captures and replays, parsers changing at will: the fields stored are what
      the parser of the latest event that wrote made of what it read, the hash is theirs, and the
      version counts the events that wrote. */
  lemma {:induction false} StoredDataIsLastWritten(events: seq<Event>)
    ensures var p := RunEvents(events);
            && Honest(p) && DataIsLastWritten(events)
            && (p.tender.Some? <==> AnyWrite(events))
            && (if p.tender.Some? then p.tender.value.version else 0) == CountWrites(events)
  {
    if events != [] {
      var n := |events| - 1;
      StoredDataIsLastWritten(events[..n]);
      if Writes(events, n) {
        WritingStores(events);
        DataIsWritten(events);
      } else {
        NothingWritten(events);
        AnyWriteStays(events);
        DataStays(events);
      }
    }
  }

  /** An event that does not write leaves all but the time last seen. */
  lemma NothingWritten(events: seq<Event>)
    requires events != [] && !Writes(events, |events| - 1)
    ensures var before, after := RunEvents(events[..|events| - 1]), RunEvents(events);
            && after.rows == before.rows && (after.tender.Some? <==> before.tender.Some?)
            && (before.tender.Some? ==>
                  && after.tender.value.data == before.tender.value.data
                  && after.tender.value.contentHash == before.tender.value.contentHash
                  && after.tender.value.version == before.tender.value.version)
  {}

  lemma AnyWriteStays(events: seq<Event>)
    requires events != [] && !Writes(events, |events| - 1)
    ensures AnyWrite(events) <==> AnyWrite(events[..|events| - 1])
  {
    var n := |events| - 1;
    if AnyWrite(events[..n]) {
      var i :| 0 <= i < n && LastWrite(events[..n], i);
      LastWriteOfPrefix(events, i);
    }
    if AnyWrite(events) {
      var i :| 0 <= i < |events| && LastWrite(events, i);
      PrefixOfLastWrite(events, i);
    }
  }

  lemma PrefixOfLastWrite(events: seq<Event>, i: nat)
    requires LastWrite(events, i) && i < |events| - 1
    ensures LastWrite(events[..|events| - 1], i)
  {
    var n := |events| - 1;
    forall j | 0 <= j < n ensures Writes(events, j) == Writes(events[..n], j) {
      assert events[..n][..j] == events[..j];
    }
  }

  /** Captures come one after another, and those stored have one payload of a kind at most. */
  predicate SoundlyStored(portal: Portal, history: seq<Capture>) {
    && (forall i, j :: 0 <= i < j < |history| ==> history[i].at < history[j].at)
    && (forall i :: 0 <= i < |history| && IsStored(portal, history, i) ==>
          history[i].docs != [] && DistinctKinds(history[i].docs) && OneListing(history[i].docs))
  }

  /** The table changes only with the content. */
  lemma IngestedRows(portal: Portal, history: seq<Capture>)
    requires history != []
    ensures var n := |history| - 1;
            var rows := Ingest(portal, history[..n]).rows;
            Ingest(portal, history).rows
            == if IsStored(portal, history, n) then StoreAll(rows, history[n].docs, history[n].at) else rows
  {
    var n := |history| - 1;
    if n > 0 {
      VersionCountsChanges(portal, history[..n]);
      assert history[..n][n - 1] == history[n - 1];
    }
  }

  lemma SoundPrefix(portal: Portal, history: seq<Capture>, n: nat)
    requires SoundlyStored(portal, history) && n <= |history|
    ensures SoundlyStored(portal, history[..n])
  {
    forall i | 0 <= i < n && IsStored(portal, history[..n], i)
      ensures history[i].docs != [] && DistinctKinds(history[i].docs) && OneListing(history[i].docs)
    {
      assert IsStored(portal, history, i);
    }
  }

  lemma {:induction false} HistoryInOrder(portal: Portal, history: seq<Capture>, now: int)
    requires SoundlyStored(portal, history)
    requires forall i :: 0 <= i < |history| ==> history[i].at < now
    ensures InOrder(Ingest(portal, history).rows) && Before(Ingest(portal, history).rows, now)
  {
    if history != [] {
      var n := |history| - 1;
      var rows := Ingest(portal, history[..n]).rows;
      SoundPrefix(portal, history, n);
      HistoryInOrder(portal, history[..n], history[n].at);
      IngestedRows(portal, history);
      if IsStored(portal, history, n) {
        StoringKeepsOrder(rows, history[n].docs, history[n].at);
        StoredRows(rows, history[n].docs, history[n].at);
        assert forall r :: r in Ingest(portal, history).rows ==> StoredThen(rows, history[n].docs, history[n].at, r);
      }
    }
  }

  /** A reparse of the notice changes nothing but when it was last seen. */
  ghost predicate ReplaysInPlace(portal: Portal, p: Pool, ordered: seq<Row>, later: int) {
    var (after, r) := ReparseSpec(p, portal, ordered, {}, later);
    && p.tender.Some? && r.Reparsed? && r.outcome == Unchanged && r.version == p.tender.value.version
    && after == p.(tender := Some(p.tender.value.(lastSeenAt := later)))
  }

  /** The table and the content are those left by the latest stored capture. */
  lemma {:induction false} NothingStoredSince(portal: Portal, history: seq<Capture>)
    requires history != []
    ensures var i := LastStored(portal, history);
            && Ingest(portal, history).rows
               == StoreAll(Ingest(portal, history[..i]).rows, history[i].docs, history[i].at)
            && CoreOf(portal, history[i]) == CoreOf(portal, history[|history| - 1])
  {
    var n := |history| - 1;
    IngestedRows(portal, history);
    if !IsStored(portal, history, n) {
      var i := LastStored(portal, history);
      NothingStoredSince(portal, history[..n]);
      assert history[..n][..i] == history[..i] && history[..n][i] == history[i];
      assert history[..n][n - 1] == history[n - 1];
    }
  }

  /** Documents that normalise to the notice's content replay in place. */
  lemma SameContentReplays(portal: Portal, p: Pool, ordered: seq<Row>, later: int)
    requires p.tender.Some? && Load(ordered, {}) != []
    requires Normalize(portal, Load(ordered, {})).core == p.tender.value.contentHash
    ensures ReplaysInPlace(portal, p, ordered, later)
  {}

  lemma SurvivorNormalizes(portal: Portal, rows: seq<Row>, c: Capture, ordered: seq<Row>)
    requires c.docs != [] && DistinctKinds(c.docs) && OneListing(c.docs)
    requires InOrder(rows) && Before(rows, c.at) && Survives(rows, c.docs)
    requires IsNewestFirst(ordered, StoreAll(rows, c.docs, c.at))
    ensures Load(ordered, {}) != [] && Normalize(portal, Load(ordered, {})) == Normalize(portal, c.docs)
  {
    LoadedPayloads(rows, c.docs, c.at, ordered);
    LoadIsEmptyIff(ordered, c.docs);
    LoadHasDistinctKinds(ordered, {});
    PayloadsDecide(portal, Load(ordered, {}), c.docs);
  }

  /** After any history a replay reads exactly the payloads of the latest capture that was stored if
      and only if that capture survived. */
  lemma ReplayReadsLastStoredIff(portal: Portal, history: seq<Capture>, ordered: seq<Row>)
    requires history != [] && SoundlyStored(portal, history)
    requires IsNewestFirst(ordered, Ingest(portal, history).rows)
    ensures var i := LastStored(portal, history);
            Payloads(Load(ordered, {})) == Payloads(history[i].docs)
            <==> Survives(Ingest(portal, history[..i]).rows, history[i].docs)
  {
    var i := LastStored(portal, history);
    LastStoredIsLast(portal, history);
    NothingStoredSince(portal, history);
    SoundPrefix(portal, history, i);
    HistoryInOrder(portal, history[..i], history[i].at);
    LoadedPayloads(Ingest(portal, history[..i]).rows, history[i].docs, history[i].at, ordered);
  }

  /** Whatever was ingested since without storing anything: a reparse is UNCHANGED, and keeps the
      version, whenever the latest capture that was stored survived. */
  lemma ReparseFollowsLastStored(portal: Portal, history: seq<Capture>, ordered: seq<Row>, later: int)
    requires history != [] && SoundlyStored(portal, history)
    requires var i := LastStored(portal, history);
             Survives(Ingest(portal, history[..i]).rows, history[i].docs)
    requires IsNewestFirst(ordered, Ingest(portal, history).rows)
    ensures ReplaysInPlace(portal, Ingest(portal, history), ordered, later)
  {
    var i := LastStored(portal, history);
    LastStoredIsLast(portal, history);
    NothingStoredSince(portal, history);
    SoundPrefix(portal, history, i);
    HistoryInOrder(portal, history[..i], history[i].at);
    SurvivorNormalizes(portal, Ingest(portal, history[..i]).rows, history[i], ordered);
    VersionCountsChanges(portal, history);
    SameContentReplays(portal, Ingest(portal, history), ordered, later);
  }

  // ----- whole histories -------------------------------------------------

  ghost predicate SameKinds(a: seq<Document>, b: seq<Document>) {
    forall kind :: HasKind(a, kind) <==> HasKind(b, kind)
  }

  /** The same bytes never come as two kinds. */
  predicate KindsApart(a: seq<Document>, b: seq<Document>) {
    forall d, e :: d in a && e in b && d.content == e.content ==> d.kind == e.kind
  }

  /** A payload of capture `i` and of capture `j` was there all the time between. */
  predicate Stays(history: seq<Capture>, i: nat, j: nat) {
    i < j < |history| ==>
      forall d :: d in history[i].docs && d in history[j].docs ==>
        forall k :: i <= k < j ==> d in history[k].docs
  }

  /** Every capture carries the same kinds, and no payload comes back after a different one. */
  ghost predicate NoRecurrence(history: seq<Capture>) {
    && (forall i, j :: 0 <= i < |history| && 0 <= j < |history| ==>
          SameKinds(history[i].docs, history[j].docs) && KindsApart(history[i].docs, history[j].docs))
    && (forall i, j :: 0 <= i < j < |history| ==> Stays(history, i, j))
  }

  predicate WellFormed(history: seq<Capture>) {
    && (forall i :: 0 <= i < |history| ==>
          history[i].docs != [] && DistinctKinds(history[i].docs) && OneListing(history[i].docs))
    && (forall i, j :: 0 <= i < j < |history| ==> history[i].at < history[j].at)
  }

  /** The captures seen so far and what the table holds of them: `last` was stored last. */
  ghost predicate Holds(portal: Portal, history: seq<Capture>, rows: seq<Row>, last: nat) {
    && last < |history| && InOrder(rows)
    && HoldsCapture(rows, history[last].docs)
    && CoreOf(portal, history[last]) == CoreOf(portal, history[|history| - 1])
    && (forall r :: r in rows ==> From(history, last, r))
    && (forall r :: r in rows ==> r.createdAt <= history[|history| - 1].at)
  }

  lemma {:induction false} StoredFrom(rows: seq<Row>, docs: seq<Document>, now: int)
    ensures forall r :: r in StoreAll(rows, docs, now) ==>
              r in rows || (Document(r.kind, r.content) in docs && r.createdAt == now)
    decreases |docs|
  {
    if docs != [] {
      var n := |docs| - 1;
      StoredFrom(rows, docs[..n], now);
      assert docs == docs[..n] + [docs[n]];
    }
  }

  /** A payload the table knows already is still the newest of its kind. */
  lemma KnownPayloadIsNewest(portal: Portal, history: seq<Capture>, rows: seq<Row>, last: nat, n: nat, d: Document)
    requires WellFormed(history) && NoRecurrence(history)
    requires 0 < n < |history| && Holds(portal, history[..n], rows, last)
    requires d in history[n].docs && HasContent(rows, d.content)
    ensures NewestOf(rows, d.kind) == Some(d.content)
  {
    var r :| r in rows && r.content == d.content;
    var k :| 0 <= k <= last && Document(r.kind, r.content) in history[..n][k].docs;
    assert KindsApart(history[k].docs, history[n].docs);
    assert d in history[k].docs;
    assert Stays(history, k, n);
    HeldPayload(rows, history[last].docs, d);
  }

  lemma HeldPayload(rows: seq<Row>, docs: seq<Document>, d: Document)
    requires HoldsCapture(rows, docs) && DistinctKinds(docs) && d in docs
    ensures NewestOf(rows, d.kind) == Some(d.content)
  {
    var m :| 0 <= m < |docs| && docs[m] == d;
    PayloadAt(docs, m);
    assert NewestOf(rows, d.kind) == PayloadOf(docs, d.kind);
  }

  /** A later capture of such a history survives. */
  lemma LaterCaptureSurvives(portal: Portal, history: seq<Capture>, rows: seq<Row>, last: nat, n: nat)
    requires WellFormed(history) && NoRecurrence(history)
    requires 0 < n < |history| && Holds(portal, history[..n], rows, last)
    ensures Survives(rows, history[n].docs)
  {
    var docs := history[n].docs;
    forall i | 0 <= i < |docs| ensures IsNew(rows, docs, i) || NewestOf(rows, docs[i].kind) == Some(docs[i].content) {
      if HasContent(rows, docs[i].content) {
        KnownPayloadIsNewest(portal, history, rows, last, n, docs[i]);
      } else {
        assert KindsApart(docs, docs);
        NothingTwice(docs, i);
      }
    }
    forall r | r in rows ensures HasKind(docs, r.kind) {
      var k :| 0 <= k <= last && Document(r.kind, r.content) in history[..n][k].docs;
      assert SameKinds(history[k].docs, docs) && HasKind(history[k].docs, r.kind);
    }
  }

  lemma NothingTwice(docs: seq<Document>, i: nat)
    requires DistinctKinds(docs) && KindsApart(docs, docs) && i < |docs|
    ensures forall j :: 0 <= j < i ==> docs[j].content != docs[i].content
  {
    forall j | 0 <= j < i ensures docs[j].content != docs[i].content {
      assert docs[j] in docs && docs[i] in docs && docs[j].kind != docs[i].kind;
    }
  }

  lemma {:induction false} HistoryHolds(portal: Portal, history: seq<Capture>) returns (last: nat)
    requires WellFormed(history) && NoRecurrence(history) && history != []
    ensures Holds(portal, history, Ingest(portal, history).rows, last)
  {
    var n := |history| - 1;
    IngestedRows(portal, history);
    if n == 0 {
      last := 0;
      FirstCaptureHolds(portal, history);
    } else {
      PrefixIsAsGood(history, n);
      var before := HistoryHolds(portal, history[..n]);
      last := NextCaptureHolds(portal, history, Ingest(portal, history[..n]).rows, before);
    }
  }

  lemma FirstCaptureHolds(portal: Portal, history: seq<Capture>)
    requires WellFormed(history) && NoRecurrence(history) && |history| == 1
    ensures Holds(portal, history, StoreAll([], history[0].docs, history[0].at), 0)
  {
    var docs := history[0].docs;
    assert KindsApart(history[0].docs, history[0].docs);
    forall i | 0 <= i < |docs| ensures IsNew([], docs, i) { NothingTwice(docs, i); }
    StoredCaptureHolds(portal, history, []);
  }

  lemma NextCaptureHolds(portal: Portal, history: seq<Capture>, rows: seq<Row>, before: nat) returns (last: nat)
    requires |history| > 1 && WellFormed(history) && NoRecurrence(history)
    requires Holds(portal, history[..|history| - 1], rows, before)
    ensures var n := |history| - 1;
            Holds(portal, history,
                  if CoreOf(portal, history[n]) == CoreOf(portal, history[n - 1]) then rows
                  else StoreAll(rows, history[n].docs, history[n].at), last)
  {
    var n := |history| - 1;
    if CoreOf(portal, history[n]) == CoreOf(portal, history[n - 1]) {
      last := before;
      UnchangedCaptureHolds(portal, history, rows, before);
    } else {
      last := n;
      LaterCaptureSurvives(portal, history, rows, before, n);
      RowsComeFromHistory(history, rows, before, n, n);
      assert Before(rows, history[n].at);
      StoredCaptureHolds(portal, history, rows);
    }
  }

  lemma UnchangedCaptureHolds(portal: Portal, history: seq<Capture>, rows: seq<Row>, last: nat)
    requires |history| > 1 && WellFormed(history) && Holds(portal, history[..|history| - 1], rows, last)
    requires CoreOf(portal, history[|history| - 1]) == CoreOf(portal, history[|history| - 2])
    ensures Holds(portal, history, rows, last)
  {
    var n := |history| - 1;
    RowsComeFromHistory(history, rows, last, n, last);
    assert history[..n][last] == history[last] && history[..n][n - 1] == history[n - 1];
  }

  predicate From(history: seq<Capture>, last: nat, r: Row) {
    exists i :: 0 <= i <= last && i < |history| && Document(r.kind, r.content) in history[i].docs
  }

  lemma RowsComeFromHistory(history: seq<Capture>, rows: seq<Row>, last: nat, n: nat, later: nat)
    requires last < n <= |history| && last <= later
    requires forall r :: r in rows ==> From(history[..n], last, r)
    ensures forall r :: r in rows ==> From(history, later, r)
  {
    forall r | r in rows ensures From(history, later, r) {
      var i :| 0 <= i <= last && Document(r.kind, r.content) in history[..n][i].docs;
      assert Document(r.kind, r.content) in history[i].docs;
    }
  }

  lemma StoredCaptureHolds(portal: Portal, history: seq<Capture>, rows: seq<Row>)
    requires history != [] && InOrder(rows)
    requires var c := history[|history| - 1];
             DistinctKinds(c.docs) && Before(rows, c.at) && Survives(rows, c.docs)
    requires forall r :: r in rows ==> From(history, |history| - 1, r)
    ensures var c := history[|history| - 1];
            Holds(portal, history, StoreAll(rows, c.docs, c.at), |history| - 1)
  {
    var n, c := |history| - 1, history[|history| - 1];
    StoringKeepsOrder(rows, c.docs, c.at);
    StoredFrom(rows, c.docs, c.at);
    StoredCaptureIsNewestIff(rows, c.docs, c.at);
    forall r | r in StoreAll(rows, c.docs, c.at) ensures From(history, n, r) {
      if r !in rows { assert Document(r.kind, r.content) in history[n].docs; }
    }
  }

  lemma PrefixIsAsGood(history: seq<Capture>, n: nat)
    requires WellFormed(history) && NoRecurrence(history) && n <= |history|
    ensures WellFormed(history[..n]) && NoRecurrence(history[..n])
  {
    forall i, j | 0 <= i < j < n ensures Stays(history[..n], i, j) {
      assert Stays(history, i, j);
    }
  }

  /** When every capture of a notice carries the same kinds, and no payload comes back after a
      different one or as another kind, reparsing right after ingest leaves everything but the
      time it was last seen. */
  lemma ReparseRightAfterIngest(portal: Portal, history: seq<Capture>, ordered: seq<Row>, later: int)
    requires history != [] && WellFormed(history) && NoRecurrence(history)
    requires IsNewestFirst(ordered, Ingest(portal, history).rows)
    ensures var p := Ingest(portal, history);
            var (after, r) := ReparseSpec(p, portal, ordered, {}, later);
            && p.tender.Some? && r.Reparsed? && r.outcome == Unchanged
            && after == p.(tender := Some(p.tender.value.(lastSeenAt := later)))
            && r.version == 1 + Changes(portal, history)
  {
    var p := Ingest(portal, history);
    var last := HistoryHolds(portal, history);
    VersionCountsChanges(portal, history);
    var docs := history[last].docs;
    forall kind ensures PayloadOf(Load(ordered, {}), kind) == PayloadOf(docs, kind) {
      LoadFindsNewest(ordered, p.rows, kind);
      assert NewestOf(p.rows, kind) == PayloadOf(docs, kind);
    }
    EqualPayloads(Load(ordered, {}), docs);
    LoadIsEmptyIff(ordered, docs);
    LoadHasDistinctKinds(ordered, {});
    PayloadsDecide(portal, Load(ordered, {}), docs);
  }

  /** A payload that comes back: after pages "a", "b" and "a" again, the table's newest page is
      "b", so a reparse by any parser for which they differ brings the superseded notice back as
      a new version. */
  lemma RecurringPayloadResurrectsTheOld(portal: Portal, ordered: seq<Row>, later: int)
    requires Normalize(portal, [Document(DetailHtml, "a")]).core != Normalize(portal, [Document(DetailHtml, "b")]).core
    requires IsNewestFirst(ordered, [Row(DetailHtml, "a", 1), Row(DetailHtml, "b", 2)])
    ensures var a, b := [Document(DetailHtml, "a")], [Document(DetailHtml, "b")];
            var p := Ingest(portal, [Capture(a, 1), Capture(b, 2), Capture(a, 3)]);
            && p.rows == [Row(DetailHtml, "a", 1), Row(DetailHtml, "b", 2)]
            && p.tender.Some? && p.tender.value.contentHash == Normalize(portal, a).core
            && var (after, r) := ReparseSpec(p, portal, ordered, {}, later);
            && r == Reparsed(Updated, 4, 1)
            && after.tender.Some? && after.tender.value.contentHash == Normalize(portal, b).core
            && p.tender.value.data == Normalize(portal, a) && after.tender.value.data == Normalize(portal, b)
  {
    var a, b := [Document(DetailHtml, "a")], [Document(DetailHtml, "b")];
    var ra, rb := Row(DetailHtml, "a", 1), Row(DetailHtml, "b", 2);
    ThreeCaptures(portal, a, b, ra, rb);
    assert ordered == [rb, ra] by {
      assert |multiset(ordered)| == |multiset([ra, rb])|;
      assert ordered[0] in multiset([ra, rb]) && ordered[1] in multiset([ra, rb]);
    }
    assert Load(ordered, {}) == b by {
      assert ordered[..1] == [rb] && ordered[..1][..0] == [];
      assert Load([rb], {}) == b;
      assert b[0] in b && HasKind(b, DetailHtml);
    }
  }

  lemma ThreeCaptures(portal: Portal, a: seq<Document>, b: seq<Document>, ra: Row, rb: Row)
    requires a == [Document(DetailHtml, "a")] && b == [Document(DetailHtml, "b")]
    requires ra == Row(DetailHtml, "a", 1) && rb == Row(DetailHtml, "b", 2)
    requires Normalize(portal, a).core != Normalize(portal, b).core
    ensures Ingest(portal, [Capture(a, 1), Capture(b, 2), Capture(a, 3)])
         == Pool(Some(Tender(Normalize(portal, a), Normalize(portal, a).core, 3, 1, 3)), [ra, rb])
  {
    var h := [Capture(a, 1), Capture(b, 2), Capture(a, 3)];
    assert h[..2] == [Capture(a, 1), Capture(b, 2)] && h[..2][..1] == [Capture(a, 1)] && h[..1][..0] == [];
    assert StoreAll([], a, 1) == [ra] by { assert StoreAll([], a[..0], 1) == []; }
    assert Ingest(portal, h[..1]) == Pool(Some(Tender(Normalize(portal, a), Normalize(portal, a).core, 1, 1, 1)), [ra]);
    assert StoreAll([ra], b, 2) == [ra, rb] by { assert StoreAll([ra], b[..0], 2) == [ra]; }
    assert Ingest(portal, h[..2]) == Pool(Some(Tender(Normalize(portal, b), Normalize(portal, b).core, 2, 1, 2)),
        [ra, rb]);
    assert StoreAll([ra, rb], a, 3) == [ra, rb] by {
      assert StoreAll([ra, rb], a[..0], 3) == [ra, rb];
      assert ra in [ra, rb];
    }
  }

  /** The recurring page again, and then a page that differs from it in nothing that counts: the
      new page would survive, but the ingest ends UNCHANGED and stores nothing, and the reparse
      still brings the superseded notice back. */
  lemma CosmeticPageIsNotStored(portal: Portal, ordered: seq<Row>, later: int)
    requires CoreOf(portal, PageA(1)) != CoreOf(portal, PageB(2))
    requires CoreOf(portal, PageC(4)) == CoreOf(portal, PageA(1))
    requires IsNewestFirst(ordered, [Row(DetailHtml, "a", 1), Row(DetailHtml, "b", 2)])
    ensures var before := Ingest(portal, [PageA(1), PageB(2), PageA(3)]);
            var (p, outcome) := Upsert(before, Normalize(portal, PageC(4).docs), PageC(4).docs, 4);
            && Survives(before.rows, PageC(4).docs) && outcome == Unchanged
            && ReparseSpec(p, portal, ordered, {}, later).1 == Reparsed(Updated, 4, 1)
  {
    var a, b, c := PageA(1).docs, PageB(2).docs, PageC(4).docs;
    var before := Ingest(portal, [PageA(1), PageB(2), PageA(3)]);
    RecurringPayloadResurrectsTheOld(portal, ordered, later);
    assert IsNew(before.rows, c, 0);
    assert HasKind(c, DetailHtml) by { assert c[0] in c; }
    UnchangedIngestKeepsReplay(before, portal, c, 4, portal, ordered, {}, later);
  }

  function PageA(at: int): Capture { Capture([Document(DetailHtml, "a")], at) }
  function PageB(at: int): Capture { Capture([Document(DetailHtml, "b")], at) }
  function PageC(at: int): Capture { Capture([Document(DetailHtml, "c")], at) }
}
