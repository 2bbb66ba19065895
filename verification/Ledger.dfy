/** Sending one thing once, after backend/app/modules/notifications/service.py: workers claim a
    ledger row and queue mail inside transactions that interleave, commit and roll back. */
module Ledger {

  /** What a message is about; unique in the ledger. */
  datatype Key = Key(org: nat, kind: string, subject: string)
  /** A recipient's identifier tells its organization. */
  datatype Recipient = Recipient(org: nat, id: nat)
  /** The deduplication key of a queued mail. */
  datatype Mail = Mail(kind: string, subject: string, recipient: Recipient)
  datatype Batch = Batch(key: Key, recipients: seq<Recipient>)

  /** What one transaction has claimed and queued; `todo` is what its latest batch still lacks. */
  datatype Txn = Txn(batches: seq<Batch>, mails: seq<Mail>, todo: seq<Recipient>)

  const EMPTY := Txn([], [], [])

  // ----- specification ---------------------------------------------------

  function MailFor(key: Key, r: Recipient): Mail { Mail(key.kind, key.subject, r) }

  function KeyOf(m: Mail): Key { Key(m.recipient.org, m.kind, m.subject) }

  predicate Holds(t: Txn, key: Key) { exists b :: b in t.batches && b.key == key }

  /** Queue one mail; a deduplication key that exists makes this a no-op. */
  function EnqueueOne(t: Txn, outbox: seq<Mail>, mail: Mail): Txn {
    if mail in outbox || mail in t.mails then t else t.(mails := t.mails + [mail])
  }

  function EnqueueAll(t: Txn, outbox: seq<Mail>, key: Key, recipients: seq<Recipient>): Txn
    decreases |recipients|
  {
    if recipients == [] then t
    else
      var n := |recipients| - 1;
      EnqueueOne(EnqueueAll(t, outbox, key, recipients[..n]), outbox, MailFor(key, recipients[n]))
  }

  datatype Delivery = NoVerifiedRecipients | AlreadySent | Queued(count: nat)

  // ----- one worker alone ------------------------------------------------

  /** A transaction as its worker sees it, over the rows committed so far. */
  class Session {
    const ledger: set<Key>
    const outbox: seq<Mail>
    var t: Txn

    constructor (ledger: set<Key>, outbox: seq<Mail>)
      ensures this.ledger == ledger && this.outbox == outbox && t == EMPTY
    {
      this.ledger, this.outbox := ledger, outbox;
      t := EMPTY;
    }

    method Claim(key: Key, recipients: seq<Recipient>) returns (claimed: bool)
      modifies this
      ensures claimed == (key !in ledger && !Holds(old(t), key))
      ensures t == if claimed then old(t).(batches := old(t).batches + [Batch(key, recipients)]) else old(t)
    {
      claimed := key !in ledger && !Holds(t, key);
      if claimed {
        t := t.(batches := t.batches + [Batch(key, recipients)]);
      }
    }

    method Enqueue(mail: Mail) returns (stored: bool)
      modifies this
      ensures t == EnqueueOne(old(t), outbox, mail)
      ensures stored == (|t.mails| == |old(t).mails| + 1)
      ensures !stored ==> |t.mails| == |old(t).mails|
    {
      stored := mail !in outbox && mail !in t.mails;
      if stored {
        t := t.(mails := t.mails + [mail]);
      }
    }

    /** Claim first, then queue: what is counted is what this call added. */
    method SendToRecipients(key: Key, recipients: seq<Recipient>) returns (d: Delivery)
      modifies this
      ensures recipients == [] <==> d == NoVerifiedRecipients
      ensures d == AlreadySent <==> recipients != [] && (key in ledger || Holds(old(t), key))
      ensures d.Queued? ==>
                && t == EnqueueAll(old(t).(batches := old(t).batches + [Batch(key, recipients)]), outbox, key,
                    recipients)
                && d.count == |t.mails| - |old(t).mails|
      ensures !d.Queued? ==> t == old(t)
    {
      if recipients == [] {
        return NoVerifiedRecipients;
      }
      var claimed := Claim(key, recipients);
      if !claimed {
        return AlreadySent;
      }
      ghost var t0 := t;
      var queued := 0;
      for i := 0 to |recipients|
        invariant t == EnqueueAll(t0, outbox, key, recipients[..i])
        invariant queued == |t.mails| - |old(t).mails|
      {
        assert recipients[..i + 1][..i] == recipients[..i];
        var stored := Enqueue(MailFor(key, recipients[i]));
        if stored {
          queued := queued + 1;
        }
      }
      assert recipients[..|recipients|] == recipients;
      d := Queued(queued);
    }
  }

  // ----- many workers ----------------------------------------------------

  /** Committed tables, one transaction per worker, every batch ever committed, and every ledger
      row ever purged. */
  datatype State = State(
    ledger: map<Key, int>, outbox: seq<Mail>, txns: seq<Txn>, sent: seq<Batch>, purged: multiset<Key>)

  datatype Step =
    | Start(worker: nat, key: Key, recipients: seq<Recipient>)
    | EnqueueNext(worker: nat)
    | Commit(worker: nat, now: int)
    | Rollback(worker: nat)
    | Purge(cutoff: int)

  /** Inserting a key another transaction has inserted waits until that one ends. */
  predicate KeyIsFree(s: State, worker: nat, key: Key) {
    forall v :: 0 <= v < |s.txns| && v != worker ==> !Holds(s.txns[v], key)
  }

  predicate MailIsFree(s: State, worker: nat, mail: Mail) {
    forall v :: 0 <= v < |s.txns| && v != worker ==> mail !in s.txns[v].mails
  }

  function NextMail(t: Txn): Mail
    requires t.batches != [] && t.todo != []
  {
    MailFor(t.batches[|t.batches| - 1].key, t.todo[0])
  }

  /** Whether a worker can take the step now rather than wait. */
  predicate Enabled(s: State, step: Step) {
    match step
    case Start(w, key, recipients) =>
      && w < |s.txns| && s.txns[w].todo == [] && recipients != []
      && (forall r :: r in recipients ==> r.org == key.org)
      && KeyIsFree(s, w, key)
    case EnqueueNext(w) =>
      && w < |s.txns| && s.txns[w].todo != [] && s.txns[w].batches != []
      && MailIsFree(s, w, NextMail(s.txns[w]))
    case Commit(w, _) => w < |s.txns| && s.txns[w].todo == []
    case Rollback(w) => w < |s.txns|
    case Purge(_) => true
  }

  function Record(ledger: map<Key, int>, batches: seq<Batch>, now: int): map<Key, int> {
    if batches == [] then ledger
    else Record(ledger, batches[..|batches| - 1], now)[batches[|batches| - 1].key := now]
  }

  function Old(ledger: map<Key, int>, cutoff: int): set<Key> {
    set k | k in ledger && ledger[k] < cutoff
  }

  function Next(s: State, step: Step): State {
    if !Enabled(s, step) then s
    else
      match step
      case Start(w, key, recipients) =>
        if key in s.ledger || Holds(s.txns[w], key) then s
        else s.(txns := s.txns[w := s.txns[w].(
          batches := s.txns[w].batches + [Batch(key, recipients)], todo := recipients)])
      case EnqueueNext(w) =>
        var t := s.txns[w];
        s.(txns := s.txns[w := EnqueueOne(t, s.outbox, NextMail(t)).(todo := t.todo[1..])])
      case Commit(w, now) =>
        var t := s.txns[w];
        State(Record(s.ledger, t.batches, now), s.outbox + t.mails, s.txns[w := EMPTY], s.sent + t.batches, s.purged)
      case Rollback(w) => s.(txns := s.txns[w := EMPTY])
      case Purge(cutoff) =>
        s.(ledger := s.ledger - Old(s.ledger, cutoff), purged := s.purged + multiset(Old(s.ledger, cutoff)))
  }

  function Run(s: State, steps: seq<Step>): State
    decreases |steps|
  {
    if steps == [] then s else Run(Next(s, steps[0]), steps[1..])
  }

  function Idle(workers: nat): State {
    State(map[], [], seq(workers, _ => EMPTY), [], multiset{})
  }

  // ----- claims ----------------------------------------------------------

  function Count(batches: seq<Batch>, key: Key): nat {
    if batches == [] then 0
    else Count(batches[..|batches| - 1], key) + if batches[|batches| - 1].key == key then 1 else 0
  }

  predicate DistinctKeys(batches: seq<Batch>) {
    forall i, j :: 0 <= i < j < |batches| ==> batches[i].key != batches[j].key
  }

  /** A pending claim is held by one transaction only, and is not in the ledger. */
  predicate ClaimsAreExclusive(s: State) {
    && (forall w :: 0 <= w < |s.txns| ==> DistinctKeys(s.txns[w].batches))
    && (forall w, b :: 0 <= w < |s.txns| && b in s.txns[w].batches ==> b.key !in s.ledger)
    && (forall v, w, b :: 0 <= v < |s.txns| && 0 <= w < |s.txns| && v != w && b in s.txns[v].batches ==>
          !Holds(s.txns[w], b.key))
  }

  /** Conservation: the batches committed for a key are its purged ledger rows, plus the one
      still in the ledger if there is one. */
  predicate Conserved(s: State, key: Key) {
    Count(s.sent, key) == s.purged[key] + if key in s.ledger then 1 else 0
  }

  lemma {:induction false} CountAppend(a: seq<Batch>, b: seq<Batch>, key: Key)
    ensures Count(a + b, key) == Count(a, key) + Count(b, key)
  {
    if b == [] {
      assert a + b == a;
    } else {
      CountAppend(a, b[..|b| - 1], key);
      assert (a + b)[..|a + b| - 1] == a + b[..|b| - 1];
    }
  }

  predicate Has(batches: seq<Batch>, key: Key) { exists b :: b in batches && b.key == key }

  lemma {:induction false} CountOfDistinct(batches: seq<Batch>, key: Key)
    requires DistinctKeys(batches)
    ensures Count(batches, key) == if Has(batches, key) then 1 else 0
  {
    if batches != [] {
      var n := |batches| - 1;
      assert batches == batches[..n] + [batches[n]];
      CountOfDistinct(batches[..n], key);
      if Has(batches[..n], key) {
        var b :| b in batches[..n] && b.key == key;
        assert b in batches;
      } else if batches[n].key == key {
        assert batches[n] in batches;
      }
    }
  }

  lemma {:induction false} RecordHas(ledger: map<Key, int>, batches: seq<Batch>, now: int, key: Key)
    ensures key in Record(ledger, batches, now) <==> key in ledger || Has(batches, key)
  {
    if batches != [] {
      var n := |batches| - 1;
      assert batches == batches[..n] + [batches[n]];
      RecordHas(ledger, batches[..n], now, key);
      if Has(batches[..n], key) {
        var b :| b in batches[..n] && b.key == key;
        assert b in batches;
      } else if batches[n].key == key {
        assert batches[n] in batches;
      }
    }
  }

  lemma StepConserves(s: State, step: Step, key: Key)
    requires ClaimsAreExclusive(s) && Conserved(s, key)
    ensures Conserved(Next(s, step), key)
  {
    if step.Commit? && Enabled(s, step) {
      var t := s.txns[step.worker];
      CountAppend(s.sent, t.batches, key);
      CountOfDistinct(t.batches, key);
      RecordHas(s.ledger, t.batches, step.now, key);
    }
  }

  lemma StepKeepsClaims(s: State, step: Step)
    requires ClaimsAreExclusive(s)
    ensures ClaimsAreExclusive(Next(s, step))
  {
    if Enabled(s, step) {
      match step
      case Start(w, key, recipients) => StartKeepsClaims(s, w, key, recipients);
      case EnqueueNext(w) => FewerClaims(s, Next(s, step));
      case Commit(w, now) => CommitKeepsClaims(s, w, now);
      case Rollback(w) => FewerClaims(s, Next(s, step));
      case Purge(cutoff) => FewerClaims(s, Next(s, step));
    }
  }

  /** Nothing claimed anew and nothing entered in the ledger. */
  lemma FewerClaims(s: State, s': State)
    requires ClaimsAreExclusive(s) && |s'.txns| == |s.txns| && s'.ledger.Keys <= s.ledger.Keys
    requires forall w :: 0 <= w < |s.txns| ==> s'.txns[w].batches in {[], s.txns[w].batches}
    ensures ClaimsAreExclusive(s')
  {
    forall v, w, b | 0 <= v < |s'.txns| && 0 <= w < |s'.txns| && v != w && b in s'.txns[v].batches
      ensures !Holds(s'.txns[w], b.key)
    {
      assert b in s.txns[v].batches && !Holds(s.txns[w], b.key);
    }
  }

  lemma StartKeepsClaims(s: State, w: nat, key: Key, recipients: seq<Recipient>)
    requires ClaimsAreExclusive(s) && Enabled(s, Start(w, key, recipients))
    ensures ClaimsAreExclusive(Next(s, Start(w, key, recipients)))
  {
    var s' := Next(s, Start(w, key, recipients));
    if s' != s {
      forall v, u, b | 0 <= v < |s'.txns| && 0 <= u < |s'.txns| && v != u && b in s'.txns[v].batches
        ensures !Holds(s'.txns[u], b.key)
      {
        assert b in s.txns[v].batches || b == Batch(key, recipients);
        if b in s.txns[v].batches {
          assert !Holds(s.txns[u], b.key);
          assert b.key != key by {
            if v == w { assert !Holds(s.txns[w], key); }
          }
        }
      }
    }
  }

  lemma CommitKeepsClaims(s: State, w: nat, now: int)
    requires ClaimsAreExclusive(s) && Enabled(s, Commit(w, now))
    ensures ClaimsAreExclusive(Next(s, Commit(w, now)))
  {
    var t, s' := s.txns[w], Next(s, Commit(w, now));
    forall v, b | 0 <= v < |s'.txns| && b in s'.txns[v].batches ensures b.key !in s'.ledger {
      RecordHas(s.ledger, t.batches, now, b.key);
      assert b in s.txns[v].batches && !Holds(t, b.key);
      assert !Has(t.batches, b.key);
    }
  }

  // ----- mail ------------------------------------------------------------

  predicate Distinct(mails: seq<Mail>) {
    forall i, j :: 0 <= i < j < |mails| ==> mails[i] != mails[j]
  }

  /** No mail is queued twice: not in the outbox, not in a transaction, not across them. */
  predicate MailsAreExclusive(s: State) {
    && Distinct(s.outbox)
    && (forall w :: 0 <= w < |s.txns| ==> Distinct(s.txns[w].mails))
    && (forall w, m :: 0 <= w < |s.txns| && m in s.txns[w].mails ==> m !in s.outbox)
    && (forall v, w, m :: 0 <= v < |s.txns| && 0 <= w < |s.txns| && v != w && m in s.txns[v].mails ==>
          m !in s.txns[w].mails)
  }

  lemma StepKeepsMails(s: State, step: Step)
    requires MailsAreExclusive(s)
    ensures MailsAreExclusive(Next(s, step))
  {
    if step.Commit? && Enabled(s, step) {
      CommitKeepsMails(s, step.worker, step.now);
    } else if step.EnqueueNext? && Enabled(s, step) {
      EnqueueKeepsMails(s, step.worker);
    }
  }

  lemma EnqueueKeepsMails(s: State, w: nat)
    requires MailsAreExclusive(s) && Enabled(s, EnqueueNext(w))
    ensures MailsAreExclusive(Next(s, EnqueueNext(w)))
  {
    var t, s' := s.txns[w], Next(s, EnqueueNext(w));
    forall v, u, m | 0 <= v < |s'.txns| && 0 <= u < |s'.txns| && v != u && m in s'.txns[v].mails
      ensures m !in s'.txns[u].mails
    {
      assert m in s.txns[v].mails || (v == w && m == NextMail(t));
      assert m in s.txns[v].mails ==> m !in s.txns[u].mails;
    }
  }

  lemma CommitKeepsMails(s: State, w: nat, now: int)
    requires MailsAreExclusive(s) && Enabled(s, Commit(w, now))
    ensures MailsAreExclusive(Next(s, Commit(w, now)))
  {
    var t, s' := s.txns[w], Next(s, Commit(w, now));
    forall i, j | 0 <= i < j < |s'.outbox| ensures s'.outbox[i] != s'.outbox[j] {
      var n := |s.outbox|;
      if i < n <= j {
        assert t.mails[j - n] in t.mails && s.outbox[i] in s.outbox;
      } else if n <= i {
        assert t.mails[i - n] != t.mails[j - n];
      }
    }
    forall v, m | 0 <= v < |s'.txns| && m in s'.txns[v].mails ensures m !in s'.outbox {
      assert m in s.txns[v].mails && m !in t.mails;
    }
  }

  // ----- a batch is committed whole --------------------------------------

  predicate BatchNames(b: Batch, m: Mail) { b.key == KeyOf(m) && m.recipient in b.recipients }

  predicate Named(batches: seq<Batch>, m: Mail) { exists b :: b in batches && BatchNames(b, m) }

  /** Every mail of every batch is queued, save what `todo` says of the latest. */
  predicate Complete(batches: seq<Batch>, queued: seq<Mail>, todo: seq<Recipient>) {
    forall i :: 0 <= i < |batches| ==>
      forall r :: r in batches[i].recipients ==>
        MailFor(batches[i].key, r) in queued || (i == |batches| - 1 && r in todo)
  }

  predicate OwnRecipients(batches: seq<Batch>) {
    forall b :: b in batches ==> forall r :: r in b.recipients ==> r.org == b.key.org
  }

  predicate Backed(batches: seq<Batch>, mails: seq<Mail>) {
    forall m :: m in mails ==> Named(batches, m)
  }

  predicate TodoIsOwn(t: Txn) {
    t.todo != [] ==> t.batches != [] && forall r :: r in t.todo ==> r in t.batches[|t.batches| - 1].recipients
  }

  predicate TxnIsWhole(t: Txn, outbox: seq<Mail>) {
    && TodoIsOwn(t) && OwnRecipients(t.batches)
    && Backed(t.batches, t.mails) && Complete(t.batches, outbox + t.mails, t.todo)
  }

  predicate Whole(s: State) {
    && OwnRecipients(s.sent) && Backed(s.sent, s.outbox) && Complete(s.sent, s.outbox, [])
    && forall w :: 0 <= w < |s.txns| ==> TxnIsWhole(s.txns[w], s.outbox)
  }

  lemma NamedStays(a: seq<Batch>, b: seq<Batch>, m: Mail)
    requires Named(a, m) || Named(b, m)
    ensures Named(a + b, m)
  {
    if Named(a, m) {
      var x :| x in a && BatchNames(x, m);
      assert x in a + b;
    } else {
      var x :| x in b && BatchNames(x, m);
      assert x in a + b;
    }
  }

  lemma StartKeepsWhole(t: Txn, outbox: seq<Mail>, key: Key, recipients: seq<Recipient>)
    requires TxnIsWhole(t, outbox) && t.todo == [] && forall r :: r in recipients ==> r.org == key.org
    ensures TxnIsWhole(t.(batches := t.batches + [Batch(key, recipients)], todo := recipients), outbox)
  {
    var batches := t.batches + [Batch(key, recipients)];
    forall m | m in t.mails ensures Named(batches, m) {
      NamedStays(t.batches, [Batch(key, recipients)], m);
    }
    forall i, r | 0 <= i < |batches| && r in batches[i].recipients
      ensures MailFor(batches[i].key, r) in outbox + t.mails || (i == |batches| - 1 && r in recipients)
    {
      if i < |t.batches| {
        assert MailFor(t.batches[i].key, r) in outbox + t.mails;
      }
    }
  }

  lemma EnqueueKeepsWhole(t: Txn, outbox: seq<Mail>)
    requires TxnIsWhole(t, outbox) && t.todo != []
    ensures TxnIsWhole(EnqueueOne(t, outbox, NextMail(t)).(todo := t.todo[1..]), outbox)
  {
    var mail := NextMail(t);
    var t' := EnqueueOne(t, outbox, mail).(todo := t.todo[1..]);
    var last := t.batches[|t.batches| - 1];
    assert t.todo[0] in t.todo && last in t.batches;
    assert t.todo[0] in last.recipients && t.todo[0].org == last.key.org;
    assert BatchNames(last, mail);
    assert mail in outbox + t'.mails;
    assert Backed(t.batches, t'.mails) by {
      forall m | m in t'.mails ensures Named(t.batches, m) {
        assert m == mail || m in t.mails;
      }
    }
    assert TodoIsOwn(t') by {
      forall r | r in t'.todo ensures r in last.recipients {
        assert r in t.todo;
      }
    }
    forall i, r | 0 <= i < |t.batches| && r in t.batches[i].recipients
      ensures MailFor(t.batches[i].key, r) in outbox + t'.mails || (i == |t.batches| - 1 && r in t'.todo)
    {
      if MailFor(t.batches[i].key, r) !in outbox + t.mails {
        assert r == t.todo[0] || r in t.todo[1..];
      }
    }
  }

  lemma GrowingOutboxKeepsWhole(t: Txn, outbox: seq<Mail>, more: seq<Mail>)
    requires TxnIsWhole(t, outbox)
    ensures TxnIsWhole(t, outbox + more)
  {
    forall i, r | 0 <= i < |t.batches| && r in t.batches[i].recipients
      ensures MailFor(t.batches[i].key, r) in outbox + more + t.mails || (i == |t.batches| - 1 && r in t.todo)
    {
      assert MailFor(t.batches[i].key, r) in outbox + t.mails || (i == |t.batches| - 1 && r in t.todo);
    }
  }

  lemma CommitKeepsWhole(s: State, w: nat, now: int)
    requires Whole(s) && Enabled(s, Commit(w, now))
    ensures Whole(Next(s, Commit(w, now)))
  {
    var t, s' := s.txns[w], Next(s, Commit(w, now));
    assert TxnIsWhole(t, s.outbox);
    forall m | m in s'.outbox ensures Named(s'.sent, m) {
      NamedStays(s.sent, t.batches, m);
    }
    forall i, r | 0 <= i < |s'.sent| && r in s'.sent[i].recipients ensures MailFor(s'.sent[i].key, r) in s'.outbox {
      if i < |s.sent| {
        assert MailFor(s.sent[i].key, r) in s.outbox;
      } else {
        assert s'.sent[i] == t.batches[i - |s.sent|];
      }
    }
    forall v | 0 <= v < |s'.txns| ensures TxnIsWhole(s'.txns[v], s'.outbox) {
      if v != w { GrowingOutboxKeepsWhole(s.txns[v], s.outbox, t.mails); }
    }
  }

  lemma StepKeepsWhole(s: State, step: Step)
    requires Whole(s)
    ensures Whole(Next(s, step))
  {
    if Enabled(s, step) {
      match step
      case Start(w, key, recipients) =>
        StartKeepsWhole(s.txns[w], s.outbox, key, recipients);
      case EnqueueNext(w) =>
        EnqueueKeepsWhole(s.txns[w], s.outbox);
      case Commit(w, now) =>
        CommitKeepsWhole(s, w, now);
      case Rollback(w) =>
      case Purge(_) =>
    }
  }

  // ----- every interleaving ----------------------------------------------

  predicate Inv(s: State) { ClaimsAreExclusive(s) && MailsAreExclusive(s) && Whole(s) }

  lemma {:induction false} RunKeepsInv(s: State, steps: seq<Step>)
    requires Inv(s)
    ensures Inv(Run(s, steps))
    decreases |steps|
  {
    if steps != [] {
      StepKeepsClaims(s, steps[0]);
      StepKeepsMails(s, steps[0]);
      StepKeepsWhole(s, steps[0]);
      RunKeepsInv(Next(s, steps[0]), steps[1..]);
    }
  }

  lemma {:induction false} RunConserves(s: State, steps: seq<Step>, key: Key)
    requires ClaimsAreExclusive(s) && Conserved(s, key)
    ensures Conserved(Run(s, steps), key)
    decreases |steps|
  {
    if steps != [] {
      StepKeepsClaims(s, steps[0]);
      StepConserves(s, steps[0], key);
      RunConserves(Next(s, steps[0]), steps[1..], key);
    }
  }

  /** However workers interleave, commit and roll back: a key has as many committed batches as
      purged ledger rows and standing ones together, so at most one between purges. */
  lemma OneBatchBetweenPurges(workers: nat, steps: seq<Step>, key: Key)
    ensures var s := Run(Idle(workers), steps);
            && Count(s.sent, key) == s.purged[key] + (if key in s.ledger then 1 else 0)
            && Count(s.sent, key) <= s.purged[key] + 1
  {
    RunConserves(Idle(workers), steps, key);
  }

  /** A batch's ledger row and its mail are committed together: every mail of every committed batch
      is in the outbox, and no mail is there without its batch. */
  lemma BatchesCommitWhole(workers: nat, steps: seq<Step>)
    ensures var s := Run(Idle(workers), steps);
            && (forall b, r :: b in s.sent && r in b.recipients ==> MailFor(b.key, r) in s.outbox)
            && (forall m :: m in s.outbox ==> exists b :: b in s.sent && BatchNames(b, m))
            && (forall k :: k in s.ledger ==> exists b :: b in s.sent && b.key == k)
  {
    RunKeepsInv(Idle(workers), steps);
    var s := Run(Idle(workers), steps);
    forall b, r | b in s.sent && r in b.recipients ensures MailFor(b.key, r) in s.outbox {
      var i :| 0 <= i < |s.sent| && s.sent[i] == b;
    }
    forall m | m in s.outbox ensures exists b :: b in s.sent && BatchNames(b, m) {
      assert Named(s.sent, m);
    }
    forall k | k in s.ledger ensures exists b :: b in s.sent && b.key == k {
      RunConserves(Idle(workers), steps, k);
      CountMeansBatch(s.sent, k);
    }
  }

  lemma {:induction false} CountMeansBatch(batches: seq<Batch>, key: Key)
    requires Count(batches, key) > 0
    ensures Has(batches, key)
  {
    var n := |batches| - 1;
    assert batches == batches[..n] + [batches[n]];
    if batches[n].key == key {
      assert batches[n] in batches;
    } else {
      CountMeansBatch(batches[..n], key);
      var b :| b in batches[..n] && b.key == key;
      assert b in batches;
    }
  }

  /** No recipient is ever queued the same message twice, even after its ledger row was purged. An
      address removed and added again is another recipient. */
  lemma NoMailTwice(workers: nat, steps: seq<Step>, i: nat, j: nat)
    requires var s := Run(Idle(workers), steps); i < |s.outbox| && j < |s.outbox| && s.outbox[i] == s.outbox[j]
    ensures i == j
  {
    RunKeepsInv(Idle(workers), steps);
  }

  // ----- a worker nobody gets in the way of ------------------------------

  function Drain(worker: nat, n: nat): seq<Step> {
    if n == 0 then [] else [EnqueueNext(worker)] + Drain(worker, n - 1)
  }

  lemma {:induction false} EnqueueAllFromFront(t: Txn, outbox: seq<Mail>, key: Key, recipients: seq<Recipient>)
    requires recipients != []
    ensures EnqueueAll(t, outbox, key, recipients)
         == EnqueueAll(EnqueueOne(t, outbox, MailFor(key, recipients[0])), outbox, key, recipients[1..])
    decreases |recipients|
  {
    var n := |recipients| - 1;
    if n > 0 {
      EnqueueAllFromFront(t, outbox, key, recipients[..n]);
      assert recipients[..n][1..] == recipients[1..][..n - 1];
    }
  }

  lemma {:induction false} DrainingQueuesAll(s: State, w: nat, key: Key, recipients: seq<Recipient>)
    requires w < |s.txns| && s.txns[w].todo == recipients
    requires s.txns[w].batches != [] && s.txns[w].batches[|s.txns[w].batches| - 1].key == key
    requires forall r :: r in recipients ==> MailIsFree(s, w, MailFor(key, r))
    ensures Run(s, Drain(w, |recipients|))
         == s.(txns := s.txns[w := EnqueueAll(s.txns[w].(todo := []), s.outbox, key, recipients)])
    decreases |recipients|
  {
    if recipients == [] {
      assert s.txns[w := s.txns[w].(todo := [])] == s.txns;
    } else {
      var t, s' := s.txns[w], Next(s, EnqueueNext(w));
      assert recipients[0] in recipients && Enabled(s, EnqueueNext(w));
      EnqueueAllFromFront(t.(todo := []), s.outbox, key, recipients);
      forall r | r in recipients[1..] ensures MailIsFree(s', w, MailFor(key, r)) {
        assert MailIsFree(s, w, MailFor(key, r));
      }
      DrainingQueuesAll(s', w, key, recipients[1..]);
      assert s'.txns[w := Run(s', Drain(w, |recipients| - 1)).txns[w]] == s.txns[w := Run(s', Drain(w,
          |recipients| - 1)).txns[w]];
    }
  }

  /** Left alone, the steps of the protocol do what one call of `SendToRecipients` does. */
  lemma UninterruptedSend(s: State, w: nat, key: Key, recipients: seq<Recipient>)
    requires Enabled(s, Start(w, key, recipients)) && key !in s.ledger && !Holds(s.txns[w], key)
    requires forall r :: r in recipients ==> MailIsFree(s, w, MailFor(key, r))
    ensures var txns := Run(s, [Start(w, key, recipients)] + Drain(w, |recipients|)).txns;
            |txns| == |s.txns| && txns[w] ==
            EnqueueAll(s.txns[w].(batches := s.txns[w].batches + [Batch(key, recipients)]), s.outbox, key, recipients)
  {
    var s' := Next(s, Start(w, key, recipients));
    forall r | r in recipients ensures MailIsFree(s', w, MailFor(key, r)) {
      assert MailIsFree(s, w, MailFor(key, r));
    }
    assert ([Start(w, key, recipients)] + Drain(w, |recipients|))[1..] == Drain(w, |recipients|);
    DrainingQueuesAll(s', w, key, recipients);
    assert s'.txns[w].(todo := []) == s.txns[w].(batches := s.txns[w].batches + [Batch(key, recipients)]);
  }

  // ----- how long a key stands -------------------------------------------

  /** The rows a committed transaction leaves are stamped with the time of its commit. */
  lemma {:induction false} RecordStamps(ledger: map<Key, int>, batches: seq<Batch>, now: int, key: Key)
    ensures key in Record(ledger, batches, now) <==> key in ledger || Has(batches, key)
    ensures Has(batches, key) ==> Record(ledger, batches, now)[key] == now
    ensures !Has(batches, key) && key in ledger ==> Record(ledger, batches, now)[key] == ledger[key]
  {
    RecordHas(ledger, batches, now, key);
    if batches != [] {
      var n := |batches| - 1;
      RecordStamps(ledger, batches[..n], now, key);
      assert batches == batches[..n] + [batches[n]];
      if batches[n].key == key {
        assert batches[n] in batches;
      } else if Has(batches[..n], key) {
        var b :| b in batches[..n] && b.key == key;
        assert b in batches;
      }
    }
  }

  /** No purge reaches back to a moment. */
  predicate Spares(steps: seq<Step>, at: int) {
    forall i :: 0 <= i < |steps| && steps[i].Purge? ==> steps[i].cutoff <= at
  }

  lemma StepLeavesRow(s: State, step: Step, key: Key)
    requires ClaimsAreExclusive(s) && key in s.ledger && (step.Purge? ==> step.cutoff <= s.ledger[key])
    ensures var s' := Next(s, step);
            key in s'.ledger && s'.ledger[key] == s.ledger[key] && Count(s'.sent, key) == Count(s.sent, key)
  {
    if step.Commit? && Enabled(s, step) {
      var t := s.txns[step.worker];
      assert !Has(t.batches, key);
      RecordStamps(s.ledger, t.batches, step.now, key);
      CountAppend(s.sent, t.batches, key);
      CountOfDistinct(t.batches, key);
    }
  }

  lemma {:induction false} RunLeavesRow(s: State, steps: seq<Step>, key: Key)
    requires ClaimsAreExclusive(s) && key in s.ledger && Spares(steps, s.ledger[key])
    ensures var s' := Run(s, steps);
            key in s'.ledger && s'.ledger[key] == s.ledger[key] && Count(s'.sent, key) == Count(s.sent, key)
    decreases |steps|
  {
    if steps != [] {
      StepLeavesRow(s, steps[0], key);
      StepKeepsClaims(s, steps[0]);
      RunLeavesRow(Next(s, steps[0]), steps[1..], key);
    }
  }

  /** Under every interleaving: once a batch is committed at `now`, and as long as no purge reaches
      back to that moment, its key stands in the ledger and no second batch of it is committed. */
  lemma NothingIsResentUntilPurged(workers: nat, before: seq<Step>, w: nat, now: int, key: Key, after: seq<Step>)
    requires var s := Run(Idle(workers), before);
             Enabled(s, Commit(w, now)) && Holds(s.txns[w], key) && Spares(after, now)
    ensures var s := Run(Idle(workers), before);
            var s' := Run(Next(s, Commit(w, now)), after);
            && Count(s'.sent, key) == Count(s.sent, key) + 1
            && key in s'.ledger && s'.ledger[key] == now
  {
    var s := Run(Idle(workers), before);
    var committed := Next(s, Commit(w, now));
    RunKeepsInv(Idle(workers), before);
    StepKeepsClaims(s, Commit(w, now));
    var b :| b in s.txns[w].batches && b.key == key;
    assert Has(s.txns[w].batches, key);
    RecordStamps(s.ledger, s.txns[w].batches, now, key);
    CountAppend(s.sent, s.txns[w].batches, key);
    CountOfDistinct(s.txns[w].batches, key);
    RunLeavesRow(committed, after, key);
  }

  lemma StartClaims(s: State, w: nat, key: Key, recipients: seq<Recipient>)
    requires Enabled(s, Start(w, key, recipients)) && key !in s.ledger && !Holds(s.txns[w], key)
    ensures Holds(Next(s, Start(w, key, recipients)).txns[w], key)
  {
    var batches := s.txns[w].batches + [Batch(key, recipients)];
    assert batches[|s.txns[w].batches|] == Batch(key, recipients) && batches[|s.txns[w].batches|] in batches;
  }

  /** A purge removes exactly the rows older than its cut-off, and a key purged can be claimed again
      by any worker that is free. */
  lemma PurgedKeyIsFree(workers: nat, before: seq<Step>, cutoff: int, key: Key, w: nat, recipients: seq<Recipient>)
    requires var s := Run(Idle(workers), before); key in s.ledger && w < |s.txns| && s.txns[w].todo == []
    requires recipients != [] && forall r :: r in recipients ==> r.org == key.org
    ensures var s := Run(Idle(workers), before);
            var s' := Next(s, Purge(cutoff));
            && (key in s'.ledger <==> s.ledger[key] >= cutoff)
            && Enabled(s', Start(w, key, recipients))
            && (Holds(Next(s', Start(w, key, recipients)).txns[w], key) <==> s.ledger[key] < cutoff)
  {
    RunKeepsInv(Idle(workers), before);
    var s := Run(Idle(workers), before);
    forall v | 0 <= v < |s.txns| ensures !Holds(s.txns[v], key) {
      forall b | b in s.txns[v].batches ensures b.key != key {}
    }
    var s' := Next(s, Purge(cutoff));
    if key !in s'.ledger { StartClaims(s', w, key, recipients); }
  }

  lemma ClaimExcludes(s: State, w: nat, key: Key)
    requires ClaimsAreExclusive(s) && w < |s.txns| && Holds(s.txns[w], key)
    ensures key !in s.ledger && forall u :: 0 <= u < |s.txns| && u != w ==> !Holds(s.txns[u], key)
  {
    var claim :| claim in s.txns[w].batches && claim.key == key;
    forall u | 0 <= u < |s.txns| && u != w ensures !Holds(s.txns[u], key) {
      assert !Holds(s.txns[u], claim.key);
    }
  }

  /** Rolling back gives every claim of the transaction up: nothing of it was sent, and any free
      worker can claim the key at once, where before it had to wait. */
  lemma RolledBackClaimIsFree(workers: nat, before: seq<Step>, w: nat, key: Key, v: nat, recipients: seq<Recipient>)
    requires var s := Run(Idle(workers), before);
             && w < |s.txns| && v < |s.txns| && v != w && Holds(s.txns[w], key) && s.txns[v].todo == []
    requires recipients != [] && forall r :: r in recipients ==> r.org == key.org
    ensures var s := Run(Idle(workers), before);
            var s' := Next(s, Rollback(w));
            && s'.sent == s.sent && s'.outbox == s.outbox && s'.ledger == s.ledger
            && !Enabled(s, Start(v, key, recipients)) && Enabled(s', Start(v, key, recipients))
            && Holds(Next(s', Start(v, key, recipients)).txns[v], key)
  {
    RunKeepsInv(Idle(workers), before);
    var s := Run(Idle(workers), before);
    ClaimExcludes(s, w, key);
    assert !KeyIsFree(s, v, key);
    var s' := Next(s, Rollback(w));
    assert KeyIsFree(s', v, key);
    StartClaims(s', v, key, recipients);
  }
}
