/** One notice in the shared pool, after backend/app/ingestion/service.py, and its replay from
    stored payloads, after backend/app/ingestion/reprocess.py. Content hashes and SHA-256 digests
    are taken to be injective, so what is hashed stands for its hash. */
module Ingestion {
  import opened Wrappers

  datatype Kind = ListingRow | DetailHtml | ApiJson | Attachment
  datatype Document = Document(kind: Kind, content: string)

  /** A normalised notice: `core` is what its content hash covers. */
  datatype Data = Data(core: string, extra: string)
  datatype Tender = Tender(data: Data, contentHash: string, version: nat, firstSeenAt: int, lastSeenAt: int)

  /** A stored payload; everything stored by one transaction has the same creation time. */
  datatype Row = Row(kind: Kind, content: string, createdAt: int)
  datatype Pool = Pool(tender: Option<Tender>, rows: seq<Row>)

  datatype Outcome = Created | Updated | Unchanged
  datatype Reparse = NoStoredDocuments | Reparsed(outcome: Outcome, version: nat, documents: nat)

  /** What decoding a listing payload as JSON gives. */
  datatype Json = NotJson | Object(fields: string) | OtherJson

  /** A portal's parser, over the notice's identifier, its listing fields and its payloads. */
  type Adapter = (string, string, map<Kind, string>) -> Data
  datatype Portal = Portal(id: string, adapter: Adapter, decode: string -> Json)

  // ----- specification ---------------------------------------------------

  predicate HasContent(rows: seq<Row>, content: string) { exists r :: r in rows && r.content == content }

  /** Store a payload unless the notice already has the same bytes, of whatever kind. */
  function StoreOne(rows: seq<Row>, d: Document, now: int): seq<Row> {
    if HasContent(rows, d.content) then rows else rows + [Row(d.kind, d.content, now)]
  }

  function StoreAll(rows: seq<Row>, docs: seq<Document>, now: int): seq<Row>
    decreases |docs|
  {
    if docs == [] then rows
    else StoreOne(StoreAll(rows, docs[..|docs| - 1], now), docs[|docs| - 1], now)
  }

  /** Unchanged content stores nothing, not even new payloads. */
  function Upsert(p: Pool, data: Data, docs: seq<Document>, now: int): (Pool, Outcome) {
    match p.tender
    case None => (Pool(Some(Tender(data, data.core, 1, now, now)), StoreAll(p.rows, docs, now)), Created)
    case Some(t) =>
      if t.contentHash == data.core then (p.(tender := Some(t.(lastSeenAt := now))), Unchanged)
      else (Pool(Some(Tender(data, data.core, t.version + 1, t.firstSeenAt, now)), StoreAll(p.rows, docs, now)),
          Updated)
  }

  predicate HasKind(docs: seq<Document>, kind: Kind) { exists d :: d in docs && d.kind == kind }

  /** Rows newest first to payloads: the first readable one of each kind. */
  function Load(rows: seq<Row>, lost: set<Row>): seq<Document> {
    if rows == [] then []
    else
      var before, r := Load(rows[..|rows| - 1], lost), rows[|rows| - 1];
      if HasKind(before, r.kind) || r in lost then before else before + [Document(r.kind, r.content)]
  }

  predicate IsListing(kind: Kind) { kind == ListingRow || kind == ApiJson }

  /** The fields of the first listing payload that is JSON at all. */
  function ListingOf(portal: Portal, docs: seq<Document>): string {
    if docs == [] then ""
    else if !IsListing(docs[0].kind) then ListingOf(portal, docs[1..])
    else match portal.decode(docs[0].content)
         case NotJson => ListingOf(portal, docs[1..])
         case Object(fields) => fields
         case OtherJson => ""
  }

  function PayloadOf(docs: seq<Document>, kind: Kind): Option<string> {
    if docs == [] then None
    else if docs[0].kind == kind then Some(docs[0].content)
    else PayloadOf(docs[1..], kind)
  }

  function Payloads(docs: seq<Document>): map<Kind, string> {
    map k: Kind | PayloadOf(docs, k).Some? :: PayloadOf(docs, k).value
  }

  function Normalize(portal: Portal, docs: seq<Document>): Data {
    portal.adapter(portal.id, ListingOf(portal, docs), Payloads(docs))
  }

  /** `ordered` is the table newest first; the order of rows created together is the database's. */
  ghost predicate IsNewestFirst(ordered: seq<Row>, rows: seq<Row>) {
    && multiset(ordered) == multiset(rows)
    && forall i, j :: 0 <= i < j < |ordered| ==> ordered[i].createdAt >= ordered[j].createdAt
  }

  function ReparseSpec(p: Pool, portal: Portal, ordered: seq<Row>, lost: set<Row>, now: int): (Pool, Reparse) {
    var docs := Load(ordered, lost);
    if docs == [] then (p, NoStoredDocuments)
    else
      var (after, outcome) := Upsert(p, Normalize(portal, docs), [], now);
      (after, Reparsed(outcome, if after.tender.Some? then after.tender.value.version else 0, |docs|))
  }

  // ----- the store -------------------------------------------------------

  class TenderStore {
    var tender: Option<Tender>
    var rows: seq<Row>

    ghost function Now(): Pool
      reads this
    {
      Pool(tender, rows)
    }

    constructor ()
      ensures Now() == Pool(None, [])
    {
      tender, rows := None, [];
    }

    method StoreDocuments(docs: seq<Document>, now: int) returns (stored: nat)
      modifies this`rows
      ensures rows == StoreAll(old(rows), docs, now)
      ensures |rows| == |old(rows)| + stored
    {
      stored := 0;
      for i := 0 to |docs|
        invariant rows == StoreAll(old(rows), docs[..i], now)
        invariant |rows| == |old(rows)| + stored
      {
        assert docs[..i + 1][..i] == docs[..i];
        if !HasContent(rows, docs[i].content) {
          rows := rows + [Row(docs[i].kind, docs[i].content, now)];
          stored := stored + 1;
        }
      }
      assert docs[..|docs|] == docs;
    }

    method UpsertTender(data: Data, docs: seq<Document>, now: int) returns (outcome: Outcome)
      modifies this
      ensures (Now(), outcome) == Upsert(old(Now()), data, docs, now)
      ensures tender.Some?
    {
      match tender {
        case None =>
          tender := Some(Tender(data, data.core, 1, now, now));
          outcome := Created;
        case Some(t) =>
          if t.contentHash == data.core {
            tender := Some(t.(lastSeenAt := now));
            return Unchanged;
          }
          tender := Some(Tender(data, data.core, t.version + 1, t.firstSeenAt, now));
          outcome := Updated;
      }
      if docs != [] {
        var _ := StoreDocuments(docs, now);
      }
    }

    method LoadDocuments(ordered: seq<Row>, lost: set<Row>) returns (docs: seq<Document>)
      ensures docs == Load(ordered, lost)
    {
      docs := [];
      var seenKinds: set<Kind> := {};
      for i := 0 to |ordered|
        invariant docs == Load(ordered[..i], lost)
        invariant forall k :: k in seenKinds <==> HasKind(docs, k)
      {
        assert ordered[..i + 1][..i] == ordered[..i];
        var row := ordered[i];
        if row.kind !in seenKinds && row !in lost {
          HasKindAppend(docs, Document(row.kind, row.content));
          seenKinds := seenKinds + {row.kind};
          docs := docs + [Document(row.kind, row.content)];
        }
      }
      assert ordered[..|ordered|] == ordered;
    }

    method RebuildListing(portal: Portal, docs: seq<Document>) returns (listing: string)
      ensures listing == ListingOf(portal, docs)
    {
      listing := "";
      for i := 0 to |docs|
        invariant listing == "" && ListingOf(portal, docs[i..]) == ListingOf(portal, docs)
      {
        if IsListing(docs[i].kind) {
          match portal.decode(docs[i].content) {
            case NotJson =>
            case Object(fields) => return fields;
            case OtherJson => return "";
          }
        }
      }
    }

    method ReparseTender(portal: Portal, ordered: seq<Row>, lost: set<Row>, now: int) returns (r: Reparse)
      requires IsNewestFirst(ordered, rows)
      modifies this
      ensures (Now(), r) == ReparseSpec(old(Now()), portal, ordered, lost, now)
    {
      var docs := LoadDocuments(ordered, lost);
      if docs == [] {
        return NoStoredDocuments;
      }
      var listing := RebuildListing(portal, docs);
      var data := portal.adapter(portal.id, listing, Payloads(docs));
      var outcome := UpsertTender(data, [], now);
      r := Reparsed(outcome, tender.value.version, |docs|);
    }
  }

  lemma HasKindAppend(docs: seq<Document>, d: Document)
    ensures forall k :: HasKind(docs + [d], k) <==> HasKind(docs, k) || k == d.kind
  {
    forall k ensures HasKind(docs + [d], k) <==> HasKind(docs, k) || k == d.kind {
      if HasKind(docs, k) {
        var x :| x in docs && x.kind == k;
        assert x in docs + [d];
      }
      if k == d.kind {
        assert d in docs + [d];
      }
    }
  }
}
