/** Deadline reminders of one organization, after backend/app/jobs/tasks/notifications.py, and the
    purge of their send ledger, after backend/app/jobs/tasks/maintenance.py. In-app reminders
    only; the mail beside them is the business of the Ledger module. */
module Reminders {
  import opened Wrappers
  import opened Clock

  /** A tender the organization currently bids on. */
  datatype Bid = Bid(tender: nat, deadline: Option<int>, isOpen: bool)
  datatype Preferences = Preferences(enabled: bool, inapp: bool, offsets: seq<int>)
  datatype Subject = Subject(tender: nat, daysLeft: int)
  datatype Posted = Posted(subject: Subject, at: int, deadline: int)

  /** The ledger holds one creation time per subject; the log is every notice ever posted. */
  datatype State = State(ledger: map<Subject, int>, log: seq<Posted>)

  const RETENTION_DAYS := 180

  // ----- specification ---------------------------------------------------

  predicate IsDue(b: Bid, p: Preferences, now: int) {
    && p.enabled && b.isOpen && b.deadline.Some? && b.deadline.value > now
    && DaysBetween(now, b.deadline.value) in p.offsets
  }

  function SubjectOf(b: Bid, now: int): Subject
    requires b.deadline.Some?
  {
    Subject(b.tender, DaysBetween(now, b.deadline.value))
  }

  function Remind(s: State, b: Bid, p: Preferences, now: int): State {
    if !IsDue(b, p, now) || !p.inapp || SubjectOf(b, now) in s.ledger then s
    else State(s.ledger[SubjectOf(b, now) := now], s.log + [Posted(SubjectOf(b, now), now, b.deadline.value)])
  }

  function Sweep(s: State, bids: seq<Bid>, p: Preferences, now: int): State
    decreases |bids|
  {
    if bids == [] then s else Remind(Sweep(s, bids[..|bids| - 1], p, now), bids[|bids| - 1], p, now)
  }

  function Purge(s: State, now: int): State {
    s.(ledger := map k | k in s.ledger && s.ledger[k] >= now - RETENTION_DAYS * DAY :: s.ledger[k])
  }

  function CountDue(bids: seq<Bid>, p: Preferences, now: int): nat {
    if bids == [] then 0
    else CountDue(bids[..|bids| - 1], p, now) + if IsDue(bids[|bids| - 1], p, now) then 1 else 0
  }

  // ----- the jobs --------------------------------------------------------

  class ReminderStore {
    var ledger: map<Subject, int>
    var log: seq<Posted>

    ghost function Now(): State
      reads this
    {
      State(ledger, log)
    }

    constructor ()
      ensures Now() == State(map[], [])
    {
      ledger, log := map[], [];
    }

    /** Reserve the right to post one thing, once. */
    method Claim(subject: Subject, now: int) returns (claimed: bool)
      modifies this`ledger
      ensures claimed == (subject !in old(ledger))
      ensures ledger == if claimed then old(ledger)[subject := now] else old(ledger)
    {
      claimed := subject !in ledger;
      if claimed {
        ledger := ledger[subject := now];
      }
    }

    method DeadlineReminderSweep(bids: seq<Bid>, p: Preferences, now: int) returns (reminders: nat)
      modifies this
      ensures Now() == Sweep(old(Now()), bids, p, now)
      ensures reminders == CountDue(bids, p, now)
    {
      reminders := 0;
      for i := 0 to |bids|
        invariant Now() == Sweep(old(Now()), bids[..i], p, now)
        invariant reminders == CountDue(bids[..i], p, now)
      {
        assert bids[..i + 1][..i] == bids[..i];
        var b := bids[i];
        if p.enabled && b.isOpen && b.deadline.Some? && b.deadline.value > now {
          var daysLeft := DaysBetween(now, b.deadline.value);
          if daysLeft in p.offsets {
            if p.inapp {
              var claimed := Claim(Subject(b.tender, daysLeft), now);
              if claimed {
                log := log + [Posted(Subject(b.tender, daysLeft), now, b.deadline.value)];
              }
            }
            reminders := reminders + 1;
          }
        }
      }
      assert bids[..|bids|] == bids;
    }

    method PurgeOldNotifications(now: int)
      modifies this
      ensures Now() == Purge(old(Now()), now)
    {
      var cutoff := now - RETENTION_DAYS * DAY;
      ledger := map k | k in ledger && ledger[k] >= cutoff :: ledger[k];
    }
  }

  // ----- runs ------------------------------------------------------------

  datatype Event = SweepAt(now: int, bids: seq<Bid>, p: Preferences) | PurgeAt(now: int)

  function Apply(s: State, e: Event): State {
    match e
    case SweepAt(now, bids, p) => Sweep(s, bids, p, now)
    case PurgeAt(now) => Purge(s, now)
  }

  function Run(events: seq<Event>): State {
    if events == [] then State(map[], []) else Apply(Run(events[..|events| - 1]), events[|events| - 1])
  }

  predicate Ascending(events: seq<Event>) {
    forall i, j :: 0 <= i < j < |events| ==> events[i].now <= events[j].now
  }

  predicate WasPosted(log: seq<Posted>, subject: Subject) {
    exists k :: 0 <= k < |log| && log[k].subject == subject
  }

  predicate OnOffset(e: Posted) {
    e.at < e.deadline && DaysBetween(e.at, e.deadline) == e.subject.daysLeft
  }

  /** The ledger still knows a notice, or the notice is older than the ledger is kept. */
  predicate Remembered(s: State, e: Posted, now: int) {
    (e.subject in s.ledger && s.ledger[e.subject] >= e.at) || e.at < now - RETENTION_DAYS * DAY
  }

  /** Two notices of the same subject are further apart than the ledger is kept. */
  predicate Apart(log: seq<Posted>) {
    forall i, j :: 0 <= i < j < |log| && log[i].subject == log[j].subject ==>
      log[i].at + RETENTION_DAYS * DAY < log[j].at
  }

  predicate Inv(s: State, now: int) {
    && (forall k :: k in s.ledger ==> WasPosted(s.log, k))
    && (forall i :: 0 <= i < |s.log| ==> OnOffset(s.log[i]) && Remembered(s, s.log[i], now))
    && Apart(s.log)
  }

  lemma RemindKeepsInv(s: State, b: Bid, p: Preferences, now: int)
    requires Inv(s, now)
    ensures Inv(Remind(s, b, p, now), now)
    ensures s.log <= Remind(s, b, p, now).log
  {
    var s' := Remind(s, b, p, now);
    if s' != s {
      var subject := SubjectOf(b, now);
      forall k | k in s'.ledger ensures WasPosted(s'.log, k) {
        if k in s.ledger {
          var i :| 0 <= i < |s.log| && s.log[i].subject == k;
          assert s'.log[i].subject == k;
        } else {
          assert s'.log[|s.log|].subject == k;
        }
      }
      forall i | 0 <= i < |s'.log| ensures Remembered(s', s'.log[i], now) {
        if i < |s.log| { assert Remembered(s, s.log[i], now); }
      }
      forall i | 0 <= i < |s.log| && s.log[i].subject == subject
        ensures s.log[i].at + RETENTION_DAYS * DAY < now
      {
        assert Remembered(s, s.log[i], now);
      }
    }
  }

  lemma {:induction false} SweepKeepsInv(s: State, bids: seq<Bid>, p: Preferences, now: int)
    requires Inv(s, now)
    ensures Inv(Sweep(s, bids, p, now), now)
    ensures s.log <= Sweep(s, bids, p, now).log
    decreases |bids|
  {
    if bids != [] {
      SweepKeepsInv(s, bids[..|bids| - 1], p, now);
      RemindKeepsInv(Sweep(s, bids[..|bids| - 1], p, now), bids[|bids| - 1], p, now);
    }
  }

  lemma TimePasses(s: State, earlier: int, now: int)
    requires Inv(s, earlier) && earlier <= now
    ensures Inv(s, now)
  {
    forall i | 0 <= i < |s.log| ensures Remembered(s, s.log[i], now) {
      assert Remembered(s, s.log[i], earlier);
    }
  }

  lemma PurgeKeepsInv(s: State, now: int)
    requires Inv(s, now)
    ensures Inv(Purge(s, now), now)
  {
    forall i | 0 <= i < |s.log| ensures Remembered(Purge(s, now), s.log[i], now) {
      assert Remembered(s, s.log[i], now);
    }
  }

  lemma ApplyKeepsInv(s: State, earlier: int, e: Event)
    requires Inv(s, earlier) && earlier <= e.now
    ensures Inv(Apply(s, e), e.now) && s.log <= Apply(s, e).log
  {
    TimePasses(s, earlier, e.now);
    match e
    case SweepAt(now, bids, p) => SweepKeepsInv(s, bids, p, now);
    case PurgeAt(now) => PurgeKeepsInv(s, now);
  }

  lemma {:induction false} RunKeepsInv(events: seq<Event>)
    requires Ascending(events) && events != []
    ensures Inv(Run(events), events[|events| - 1].now)
    ensures Run(events[..|events| - 1]).log <= Run(events).log
  {
    var n := |events| - 1;
    if n > 0 {
      RunKeepsInv(events[..n]);
      ApplyKeepsInv(Run(events[..n]), events[n - 1].now, events[n]);
    } else {
      ApplyKeepsInv(State(map[], []), events[n].now, events[n]);
    }
  }

  /** In any run, whatever bids, settings, deadlines and purges come and go: the same reminder is
      posted again only for a deadline moved by more than 179 days. */
  lemma RepeatMeansDeadlineMoved(events: seq<Event>, i: nat, j: nat)
    requires Ascending(events)
    requires var log := Run(events).log; i < j < |log| && log[i].subject == log[j].subject
    ensures var log := Run(events).log;
            log[j].deadline - log[i].deadline > (RETENTION_DAYS - 1) * DAY
  {
    RunKeepsInv(events);
    var log := Run(events).log;
    assert OnOffset(log[i]) && OnOffset(log[j]);
    assert log[i].at + RETENTION_DAYS * DAY < log[j].at;
  }

  // ----- after a purge ---------------------------------------------------

  /** How often a reminder was posted. */
  function Times(log: seq<Posted>, subject: Subject): nat {
    if log == [] then 0
    else Times(log[..|log| - 1], subject) + if log[|log| - 1].subject == subject then 1 else 0
  }

  lemma TimesOfOneMore(log: seq<Posted>, e: Posted, subject: Subject)
    ensures Times(log + [e], subject) == Times(log, subject) + if e.subject == subject then 1 else 0
  {
    assert (log + [e])[..|log|] == log;
  }

  predicate AnyDue(bids: seq<Bid>, p: Preferences, now: int, subject: Subject) {
    exists b :: b in bids && IsDue(b, p, now) && SubjectOf(b, now) == subject
  }

  lemma AnyDueSplits(bids: seq<Bid>, p: Preferences, now: int, subject: Subject)
    requires bids != []
    ensures var n := |bids| - 1;
            AnyDue(bids, p, now, subject)
            <==> (AnyDue(bids[..n], p, now, subject)
                  || (IsDue(bids[n], p, now) && SubjectOf(bids[n], now) == subject))
  {
    assert bids == bids[..|bids| - 1] + [bids[|bids| - 1]];
  }

  /** A sweep posts a reminder once if it is due, wanted in the app and not in the ledger, and not
      at all otherwise; the ledger has it then. */
  lemma {:induction false} SweepPostsIff(s: State, bids: seq<Bid>, p: Preferences, now: int, subject: Subject)
    ensures var after := Sweep(s, bids, p, now);
            var posts := AnyDue(bids, p, now, subject) && p.inapp && subject !in s.ledger;
            && Times(after.log, subject) == Times(s.log, subject) + (if posts then 1 else 0)
            && (subject in after.ledger <==> subject in s.ledger || posts)
    decreases |bids|
  {
    if bids != [] {
      var n := |bids| - 1;
      var before := Sweep(s, bids[..n], p, now);
      SweepPostsIff(s, bids[..n], p, now, subject);
      AnyDueSplits(bids, p, now, subject);
      if Remind(before, bids[n], p, now) != before {
        TimesOfOneMore(before.log, Posted(SubjectOf(bids[n], now), now, bids[n].deadline.value), subject);
      }
    }
  }

  /** After a purge a reminder that was posted before is posted again, when it is due and wanted
      again, exactly when it was posted more than 180 days before the purge. */
  lemma PostedAgainIff(s: State, at: int, bids: seq<Bid>, p: Preferences, now: int, subject: Subject)
    requires subject in s.ledger && AnyDue(bids, p, now, subject) && p.inapp
    ensures Times(Sweep(Purge(s, at), bids, p, now).log, subject)
         == Times(s.log, subject) + if s.ledger[subject] + 180 * DAY < at then 1 else 0
  {
    SweepPostsIff(Purge(s, at), bids, p, now, subject);
  }

  lemma FirstSweep(b: Bid, p: Preferences, now: int)
    requires IsDue(b, p, now) && p.inapp
    ensures Run([SweepAt(now, [b], p)])
         == State(map[SubjectOf(b, now) := now], [Posted(SubjectOf(b, now), now, b.deadline.value)])
  {
    var e := SweepAt(now, [b], p);
    assert [e][..0] == [] && [b][..0] == [];
    assert Run([e]) == Sweep(State(map[], []), [b], p, now);
    assert Sweep(State(map[], []), [b][..0], p, now) == State(map[], []);
  }

  lemma RunOfOneMore(events: seq<Event>, e: Event)
    ensures Run(events + [e]) == Apply(Run(events), e)
  {
    assert (events + [e])[..|events|] == events;
  }

  /** A reminder that falls due again because its deadline moved, with a purge in between: it is
      posted again exactly when more than 180 days passed before the purge. */
  lemma MovedDeadlineIsPostedAgain(b: Bid, c: Bid, p: Preferences, first: int, purge: int, second: int)
    requires IsDue(b, p, first) && IsDue(c, p, second) && p.inapp && SubjectOf(b, first) == SubjectOf(c, second)
    ensures Times(Run([SweepAt(first, [b], p)] + [PurgeAt(purge)] + [SweepAt(second, [c], p)]).log, SubjectOf(b, first))
         == if first + 180 * DAY < purge then 2 else 1
  {
    var one, two := [SweepAt(first, [b], p)], [SweepAt(first, [b], p)] + [PurgeAt(purge)];
    var subject := SubjectOf(b, first);
    FirstSweep(b, p, first);
    RunOfOneMore(one, PurgeAt(purge));
    RunOfOneMore(two, SweepAt(second, [c], p));
    TimesOfOneMore([], Posted(subject, first, b.deadline.value), subject);
    assert [] + [Posted(subject, first, b.deadline.value)] == Run(one).log;
    assert c in [c];
    PostedAgainIff(Run(one), purge, [c], p, second, subject);
  }

  // ----- a standing bid with a fixed deadline ----------------------------

  /** Every sweep that sees the tender sees it with this deadline. */
  predicate Fixed(events: seq<Event>, tender: nat, deadline: int) {
    forall i :: 0 <= i < |events| && events[i].SweepAt? ==>
      forall b :: b in events[i].bids && b.tender == tender ==> b.deadline == Some(deadline)
  }

  predicate DeadlineIs(log: seq<Posted>, tender: nat, deadline: int) {
    forall k :: 0 <= k < |log| && log[k].subject.tender == tender ==> log[k].deadline == deadline
  }

  lemma {:induction false} SweepKeepsDeadline(s: State, bids: seq<Bid>, p: Preferences, now: int, tender: nat,
      deadline: int)
    requires DeadlineIs(s.log, tender, deadline)
    requires forall b :: b in bids && b.tender == tender ==> b.deadline == Some(deadline)
    ensures DeadlineIs(Sweep(s, bids, p, now).log, tender, deadline)
    decreases |bids|
  {
    if bids != [] {
      SweepKeepsDeadline(s, bids[..|bids| - 1], p, now, tender, deadline);
      assert bids[|bids| - 1] in bids;
    }
  }

  lemma {:induction false} RunKeepsDeadline(events: seq<Event>, tender: nat, deadline: int)
    requires Fixed(events, tender, deadline)
    ensures DeadlineIs(Run(events).log, tender, deadline)
  {
    if events != [] {
      var n := |events| - 1;
      RunKeepsDeadline(events[..n], tender, deadline);
      if events[n].SweepAt? {
        SweepKeepsDeadline(Run(events[..n]), events[n].bids, events[n].p, events[n].now, tender, deadline);
      }
    }
  }

  /** With a fixed deadline no reminder is ever posted twice, purges or not. */
  lemma PostedAtMostOnce(events: seq<Event>, tender: nat, deadline: int, i: nat, j: nat)
    requires Ascending(events) && Fixed(events, tender, deadline)
    requires var log := Run(events).log;
             i < |log| && j < |log| && log[i].subject == log[j].subject && log[i].subject.tender == tender
    ensures i == j
  {
    RunKeepsDeadline(events, tender, deadline);
    if i < j { RepeatMeansDeadlineMoved(events, i, j); }
    if j < i { RepeatMeansDeadlineMoved(events, j, i); }
  }

  /** A sweep that finds the tender with `offset` whole days left. */
  predicate Hits(e: Event, tender: nat, offset: int, deadline: int) {
    && e.SweepAt? && e.p.enabled && e.p.inapp && offset in e.p.offsets
    && Bid(tender, Some(deadline), true) in e.bids
    && e.now < deadline && DaysBetween(e.now, deadline) == offset
  }

  lemma {:induction false} SweepPosts(s: State, bids: seq<Bid>, p: Preferences, now: int, b: Bid)
    requires Inv(s, now) && b in bids && IsDue(b, p, now) && p.inapp
    ensures WasPosted(Sweep(s, bids, p, now).log, SubjectOf(b, now))
    decreases |bids|
  {
    var n := |bids| - 1;
    var before := Sweep(s, bids[..n], p, now);
    SweepKeepsInv(s, bids[..n], p, now);
    if b == bids[n] {
      if SubjectOf(b, now) !in before.ledger {
        assert Sweep(s, bids, p, now).log[|before.log|].subject == SubjectOf(b, now);
      }
    } else {
      assert bids == bids[..n] + [bids[n]];
      SweepPosts(s, bids[..n], p, now, b);
      RemindKeepsInv(before, bids[n], p, now);
      PostedStays(before.log, Sweep(s, bids, p, now).log, SubjectOf(b, now));
    }
  }

  lemma PostedStays(log: seq<Posted>, log': seq<Posted>, subject: Subject)
    requires WasPosted(log, subject) && log <= log'
    ensures WasPosted(log', subject)
  {
    var k :| 0 <= k < |log| && log[k].subject == subject;
    assert log'[k].subject == subject;
  }

  lemma {:induction false} HitIsPosted(events: seq<Event>, tender: nat, offset: int, deadline: int, i: nat)
    requires Ascending(events) && i < |events| && Hits(events[i], tender, offset, deadline)
    ensures WasPosted(Run(events).log, Subject(tender, offset))
  {
    var n := |events| - 1;
    RunKeepsInv(events);
    if i == n {
      var e := events[n];
      if n > 0 {
        RunKeepsInv(events[..n]);
        TimePasses(Run(events[..n]), events[n - 1].now, e.now);
      }
      SweepPosts(Run(events[..n]), e.bids, e.p, e.now, Bid(tender, Some(deadline), true));
    } else {
      HitIsPosted(events[..n], tender, offset, deadline, i);
      PostedStays(Run(events[..n]).log, Run(events).log, Subject(tender, offset));
    }
  }

  /** From event `first` on, every sweep before the deadline sees the bid open, with the reminder
      wanted. */
  predicate Standing(events: seq<Event>, first: nat, tender: nat, offset: int, deadline: int) {
    forall i :: first <= i < |events| && events[i].SweepAt? && events[i].now < deadline ==>
      && events[i].p.enabled && events[i].p.inapp && offset in events[i].p.offsets
      && Bid(tender, Some(deadline), true) in events[i].bids
  }

  predicate SweptBetween(events: seq<Event>, first: nat, after: int, until: int) {
    exists i :: first <= i < |events| && events[i].SweepAt? && after < events[i].now <= until
  }

  predicate AnyHit(events: seq<Event>, tender: nat, offset: int, deadline: int) {
    exists i :: 0 <= i < |events| && Hits(events[i], tender, offset, deadline)
  }

  lemma {:induction false} SweepPostsOnlyItsDay(s: State, bids: seq<Bid>, p: Preferences, now: int, subject: Subject)
    requires WasPosted(Sweep(s, bids, p, now).log, subject)
    ensures WasPosted(s.log, subject)
            || (p.inapp && exists b :: b in bids && IsDue(b, p, now) && SubjectOf(b, now) == subject)
    decreases |bids|
  {
    if bids != [] {
      var n := |bids| - 1;
      var before, after := Sweep(s, bids[..n], p, now), Sweep(s, bids, p, now);
      var k :| 0 <= k < |after.log| && after.log[k].subject == subject;
      if k < |before.log| {
        assert before.log[k].subject == subject;
        SweepPostsOnlyItsDay(s, bids[..n], p, now, subject);
      } else {
        assert bids[n] in bids && IsDue(bids[n], p, now) && SubjectOf(bids[n], now) == subject;
      }
    }
  }

  lemma {:induction false} PostedMeansHit(events: seq<Event>, tender: nat, offset: int, deadline: int)
    requires Fixed(events, tender, deadline)
    requires WasPosted(Run(events).log, Subject(tender, offset))
    ensures AnyHit(events, tender, offset, deadline)
  {
    var n := |events| - 1;
    var e := events[n];
    if WasPosted(Run(events[..n]).log, Subject(tender, offset)) {
      PostedMeansHit(events[..n], tender, offset, deadline);
      var i :| 0 <= i < n && Hits(events[..n][i], tender, offset, deadline);
      assert Hits(events[i], tender, offset, deadline);
    } else {
      SweepPostsOnlyItsDay(Run(events[..n]), e.bids, e.p, e.now, Subject(tender, offset));
      assert Hits(events[n], tender, offset, deadline);
    }
  }

  /** In any run in which the tender's deadline is fixed, whenever the bid and the wish for the
      reminder come and go: the reminder `offset` days ahead is posted exactly when some sweep
      finds the open bid with that many whole days left while the reminder is wanted. */
  lemma PostedIffHit(events: seq<Event>, tender: nat, offset: int, deadline: int)
    requires Ascending(events) && Fixed(events, tender, deadline)
    ensures WasPosted(Run(events).log, Subject(tender, offset)) <==> AnyHit(events, tender, offset, deadline)
  {
    if WasPosted(Run(events).log, Subject(tender, offset)) {
      PostedMeansHit(events, tender, offset, deadline);
    }
    if AnyHit(events, tender, offset, deadline) {
      var i :| 0 <= i < |events| && Hits(events[i], tender, offset, deadline);
      HitIsPosted(events, tender, offset, deadline, i);
    }
  }

  /** With a bid that stands throughout, it is posted exactly when a sweep falls in its day: after
      the same time one day nearer the start, up to `offset` days before the deadline, and before
      the deadline itself. */
  lemma PostedIff(events: seq<Event>, tender: nat, offset: nat, deadline: int)
    requires Ascending(events) && Standing(events, 0, tender, offset, deadline) && Fixed(events, tender, deadline)
    ensures WasPosted(Run(events).log, Subject(tender, offset))
            <==> SweptBetween(events, 0, deadline - (offset + 1) * DAY, LastMoment(offset, deadline))
  {
    PostedIffHit(events, tender, offset, deadline);
    if AnyHit(events, tender, offset, deadline) {
      var i :| 0 <= i < |events| && Hits(events[i], tender, offset, deadline);
      assert events[i].SweepAt?;
    }
    if SweptBetween(events, 0, deadline - (offset + 1) * DAY, LastMoment(offset, deadline)) {
      SweptIsHit(events, 0, tender, offset, deadline);
    }
  }

  lemma SweptIsHit(events: seq<Event>, first: nat, tender: nat, offset: nat, deadline: int)
    requires Standing(events, first, tender, offset, deadline)
    requires SweptBetween(events, first, deadline - (offset + 1) * DAY, LastMoment(offset, deadline))
    ensures AnyHit(events, tender, offset, deadline)
  {
    var i :| first <= i < |events| && events[i].SweepAt?
             && deadline - (offset + 1) * DAY < events[i].now <= LastMoment(offset, deadline);
    assert DaysBetween(events[i].now, deadline) == offset;
    assert Hits(events[i], tender, offset, deadline);
  }

  /** The last moment of an offset's day; that of offset 0 ends just before the deadline. */
  function LastMoment(offset: nat, deadline: int): int {
    if offset == 0 then deadline - 1 else deadline - offset * DAY
  }

  // ----- regular sweeps miss nothing -------------------------------------

  /** `j` is a sweep later in the run than `i`, and comes within `gap` of it. */
  predicate NextSweepWithin(events: seq<Event>, i: nat, j: nat, gap: int) {
    i < j < |events| && events[j].SweepAt? && events[j].now - events[i].now <= gap
  }

  /** From event `first` on, each sweep before `until` is followed by another within `gap`. */
  predicate Regular(events: seq<Event>, first: nat, until: int, gap: int) {
    forall i :: first <= i < |events| && events[i].SweepAt? && events[i].now < until ==>
      exists j :: 0 <= j < |events| && NextSweepWithin(events, i, j, gap)
  }

  lemma {:induction false} RegularSweepsReach(events: seq<Event>, first: nat, i: nat, until: int, gap: int)
    requires Regular(events, first, until, gap) && gap > 0
    requires first <= i < |events| && events[i].SweepAt? && events[i].now <= until
    ensures SweptBetween(events, first, until - gap, until)
    decreases |events| - i
  {
    if events[i].now <= until - gap {
      var j :| 0 <= j < |events| && NextSweepWithin(events, i, j, gap);
      RegularSweepsReach(events, first, j, until, gap);
    } else {
      assert until - gap < events[i].now <= until;
    }
  }

  /** Once a sweep has seen the bid: sweeps at most a day apart post every reminder at least one day
      ahead whose day has not passed by then, exactly once, whatever the run did before; sweeps
      less than a day apart also post the one for the last day. */
  lemma EveryOffsetExactlyOnce(events: seq<Event>, first: nat, tender: nat, offset: nat, deadline: int)
    requires Ascending(events) && Fixed(events, tender, deadline)
    requires first < |events| && events[first].SweepAt? && events[first].now <= LastMoment(offset, deadline)
    requires Standing(events, first, tender, offset, deadline)
    requires Regular(events, first, LastMoment(offset, deadline), if offset == 0 then DAY - 1 else DAY)
    ensures var log := Run(events).log;
            exists k :: 0 <= k < |log| && IsOnly(log, k, Subject(tender, offset))
  {
    RegularSweepsReach(events, first, first, LastMoment(offset, deadline), if offset == 0 then DAY - 1 else DAY);
    SweptIsHit(events, first, tender, offset, deadline);
    PostedIffHit(events, tender, offset, deadline);
    var log := Run(events).log;
    var k :| 0 <= k < |log| && log[k].subject == Subject(tender, offset);
    forall j | 0 <= j < |log| && log[j].subject == Subject(tender, offset) ensures j == k {
      PostedAtMostOnce(events, tender, deadline, j, k);
    }
    assert IsOnly(log, k, Subject(tender, offset));
  }

  predicate IsOnly(log: seq<Posted>, k: nat, subject: Subject) {
    && k < |log| && log[k].subject == subject
    && forall j :: 0 <= j < |log| && log[j].subject == subject ==> j == k
  }

  /** Exactly a day apart is not enough for the last day: sweeps one day before the deadline and at
      the deadline never post offset 0. */
  lemma DailySweepsCanMissTheLastDay(tender: nat, deadline: int)
    ensures var p := Preferences(true, true, [0]);
            var bids := [Bid(tender, Some(deadline), true)];
            !WasPosted(Run([SweepAt(deadline - DAY, bids, p), SweepAt(deadline, bids, p)]).log, Subject(tender, 0))
  {
    var p := Preferences(true, true, [0]);
    var bids := [Bid(tender, Some(deadline), true)];
    var events := [SweepAt(deadline - DAY, bids, p), SweepAt(deadline, bids, p)];
    assert Standing(events, 0, tender, 0, deadline) && Fixed(events, tender, deadline);
    PostedIff(events, tender, 0, deadline);
  }
}
