/** The daily digest of one organization, after backend/app/jobs/tasks/notifications.py: one per
    local date, each reporting what was first matched since the digest before it. */
module Digest {
  import opened Wrappers
  import opened Clock
  import opened Scoring
  import Sorting

  datatype Row = Row(id: nat, firstMatchedAt: Option<int>, isOpen: bool, grade: Grade, eligibility: Eligibility,
      similarity: real)

  /** When an organization wants its digest; fixed while it runs. */
  datatype Preferences = Preferences(digestTime: int, offset: int, minGrade: Grade) {
    predicate Valid() { 0 <= digestTime < DAY }
  }

  datatype Content = Content(since: int, scored: seq<Row>, picks: seq<Row>, verify: seq<Row>)
  datatype SendResult = AlreadySent | NothingToReport(content: Content) | Sent(content: Content)

  const DIGEST_PICKS := 5
  const DIGEST_VERIFY_ITEMS := 5

  // ----- specification ---------------------------------------------------

  function GradeOrder(g: Grade): nat { match g case S => 0 case A => 1 case B => 2 case C => 3 }

  predicate GradeAtLeast(grade: Grade, minimum: Grade) { GradeOrder(grade) <= GradeOrder(minimum) }

  predicate Qualifies(row: Row, p: Preferences, since: int) {
    && row.firstMatchedAt.Some? && row.firstMatchedAt.value >= since && row.isOpen
    && GradeAtLeast(row.grade, p.minGrade) && row.eligibility != Ineligible
  }

  predicate MoreSimilar(a: Row, b: Row) { a.similarity >= b.similarity }

  function Filter(rows: seq<Row>, keep: Row -> bool): seq<Row> {
    if rows == [] then []
    else Filter(rows[..|rows| - 1], keep) + if keep(rows[|rows| - 1]) then [rows[|rows| - 1]] else []
  }

  function Chosen(rows: seq<Row>, p: Preferences, since: int): seq<Row> {
    Filter(Sorting.Sort(rows, MoreSimilar), r => Qualifies(r, p, since))
  }

  function Take(rows: seq<Row>, n: nat): seq<Row> { if |rows| <= n then rows else rows[..n] }

  function Build(rows: seq<Row>, p: Preferences, since: int): Content {
    var scored := Chosen(rows, p, since);
    Content(since, scored, Take(scored, DIGEST_PICKS),
            Take(Filter(scored, (r: Row) => r.eligibility == NeedsVerification), DIGEST_VERIFY_ITEMS))
  }

  function WindowStart(last: Option<int>, today: int, p: Preferences): int {
    Combine(if last.Some? then last.value else today - 1, p.digestTime, p.offset)
  }

  /** Whether the dispatcher queues a digest. */
  predicate IsDue(last: Option<int>, p: Preferences, now: int) {
    last != Some(LocalDate(now, p.offset)) && LocalTime(now, p.offset) >= p.digestTime
  }

  // ----- the job ---------------------------------------------------------

  lemma {:induction false} FilterKeeps(rows: seq<Row>, keep: Row -> bool, row: Row)
    ensures row in Filter(rows, keep) <==> row in rows && keep(row)
  {
    if rows != [] {
      FilterKeeps(rows[..|rows| - 1], keep, row);
      assert rows == rows[..|rows| - 1] + [rows[|rows| - 1]];
    }
  }

  class OrgDigest {
    const p: Preferences
    var lastSentFor: Option<int>

    constructor (p: Preferences)
      ensures this.p == p && lastSentFor == None
    {
      this.p := p;
      lastSentFor := None;
    }

    method BuildDigest(rows: seq<Row>, since: int) returns (content: Content)
      ensures content == Build(rows, p, since)
    {
      var ranked := Sorting.Sort(rows, MoreSimilar);
      var scored: seq<Row> := [];
      var verify: seq<Row> := [];
      ghost var qualifies := (r: Row) => Qualifies(r, p, since);
      ghost var unsure := (r: Row) => r.eligibility == NeedsVerification;
      for i := 0 to |ranked|
        invariant scored == Filter(ranked[..i], qualifies)
        invariant verify == Filter(scored, unsure)
      {
        assert ranked[..i + 1][..i] == ranked[..i];
        if Qualifies(ranked[i], p, since) {
          assert (scored + [ranked[i]])[..|scored|] == scored;
          scored := scored + [ranked[i]];
          if ranked[i].eligibility == NeedsVerification {
            verify := verify + [ranked[i]];
          }
        }
      }
      assert ranked[..|ranked|] == ranked;
      content := Content(since, scored, Take(scored, DIGEST_PICKS), Take(verify, DIGEST_VERIFY_ITEMS));
    }

    /** Build today's digest unless it was built already; a quiet day counts as sent. */
    method SendDailyDigest(rows: seq<Row>, upcoming: nat, now: int) returns (r: SendResult)
      modifies this
      ensures lastSentFor == Some(LocalDate(now, p.offset))
      ensures r == AlreadySent <==> old(lastSentFor) == Some(LocalDate(now, p.offset))
      ensures !r.AlreadySent? ==> r.content == Build(rows, p, WindowStart(old(lastSentFor), LocalDate(now,
          p.offset), p))
      ensures r.NothingToReport? ==> r.content.scored == [] && upcoming == 0
      ensures r.Sent? ==> r.content.scored != [] || upcoming != 0
    {
      var today := LocalDate(now, p.offset);
      if lastSentFor == Some(today) {
        return AlreadySent;
      }
      var content := BuildDigest(rows, WindowStart(lastSentFor, today, p));
      lastSentFor := Some(today);
      if content.scored == [] && upcoming == 0 {
        return NothingToReport(content);
      }
      r := Sent(content);
    }
  }

  // ----- runs ------------------------------------------------------------

  datatype Window = Window(sentAt: int, date: int, since: int)

  /** The digests built when the job runs at `times`. */
  function Windows(last: Option<int>, times: seq<int>, p: Preferences): seq<Window>
    decreases |times|
  {
    if times == [] then []
    else
      var today := LocalDate(times[0], p.offset);
      if last == Some(today) then Windows(last, times[1..], p)
      else [Window(times[0], today, WindowStart(last, today, p))] + Windows(Some(today), times[1..], p)
  }

  /** Clocks do not run backwards. */
  predicate Ascending(times: seq<int>) { forall i, j :: 0 <= i < j < |times| ==> times[i] <= times[j] }

  predicate NotAhead(last: Option<int>, times: seq<int>, p: Preferences) {
    last.Some? ==> forall i :: 0 <= i < |times| ==> last.value <= LocalDate(times[i], p.offset)
  }

  predicate Follows(a: Window, b: Window, p: Preferences) {
    a.date < b.date && a.sentAt < b.sentAt && b.since == Combine(a.date, p.digestTime, p.offset)
  }

  predicate WellFormed(r: seq<Window>, p: Preferences) {
    && (forall i :: 0 <= i < |r| ==> r[i].date == LocalDate(r[i].sentAt, p.offset))
    && (forall i :: 0 <= i < |r| - 1 ==> Follows(r[i], r[i + 1], p))
    && (r != [] ==> r[0].since < DAY * r[0].date - p.offset)
  }

  lemma {:induction false} WindowsAreWellFormed(last: Option<int>, times: seq<int>, p: Preferences)
    requires p.Valid() && Ascending(times) && NotAhead(last, times, p)
    ensures var r := Windows(last, times, p);
            && WellFormed(r, p)
            && (r != [] ==> r[0].sentAt in times && r[0].since == WindowStart(last, r[0].date, p))
            && (r != [] && last.Some? ==> last.value < r[0].date)
    decreases |times|
  {
    if times != [] {
      var now, today := times[0], LocalDate(times[0], p.offset);
      forall i | 0 <= i < |times| ensures today <= LocalDate(times[i], p.offset) {
        assert i > 0 ==> times[0] <= times[i];
        LocalDateIsMonotone(now, times[i], p.offset);
      }
      if last == Some(today) {
        WindowsAreWellFormed(last, times[1..], p);
      } else {
        assert NotAhead(Some(today), times[1..], p);
        WindowsAreWellFormed(Some(today), times[1..], p);
        var rest := Windows(Some(today), times[1..], p);
        if rest != [] {
          assert Follows(Windows(last, times, p)[0], rest[0], p);
        }
      }
    }
  }

  lemma {:induction false} DatesAscend(r: seq<Window>, p: Preferences, i: nat, j: nat)
    requires p.Valid() && WellFormed(r, p) && i < j < |r|
    ensures r[i].date < r[j].date && r[i].sentAt < r[j].sentAt && r[i].since < r[j].since
    decreases j
  {
    if i + 1 < j {
      DatesAscend(r, p, i, j - 1);
    }
    assert Follows(r[j - 1], r[j], p);
    if j >= 2 { assert Follows(r[j - 2], r[j - 1], p); }
  }

  predicate ReportedOn(last: Option<int>, r: seq<Window>, date: int) {
    last == Some(date) || exists i :: 0 <= i < |r| && r[i].date == date
  }

  /** At most one digest per local date, and one on every date the job runs. */
  lemma {:induction false} OneDigestPerDate(last: Option<int>, times: seq<int>, p: Preferences)
    requires p.Valid() && Ascending(times) && NotAhead(last, times, p)
    ensures var r := Windows(last, times, p);
            && (forall i, j :: 0 <= i < j < |r| ==> r[i].date < r[j].date)
            && (forall k :: 0 <= k < |times| ==> ReportedOn(last, r, LocalDate(times[k], p.offset)))
  {
    WindowsAreWellFormed(last, times, p);
    var r := Windows(last, times, p);
    forall i, j | 0 <= i < j < |r| ensures r[i].date < r[j].date { DatesAscend(r, p, i, j); }
    forall k | 0 <= k < |times| ensures ReportedOn(last, r, LocalDate(times[k], p.offset)) {
      EveryRunIsReported(last, times, p, k);
    }
  }

  lemma {:induction false} EveryRunIsReported(last: Option<int>, times: seq<int>, p: Preferences, k: nat)
    requires k < |times|
    ensures ReportedOn(last, Windows(last, times, p), LocalDate(times[k], p.offset))
    decreases |times|
  {
    var today := LocalDate(times[0], p.offset);
    var r := Windows(last, times, p);
    if last == Some(today) {
      if k > 0 { EveryRunIsReported(last, times[1..], p, k - 1); }
    } else {
      assert r[0].date == today;
      if k > 0 {
        EveryRunIsReported(Some(today), times[1..], p, k - 1);
        var rest := Windows(Some(today), times[1..], p);
        forall i | 0 <= i < |rest| ensures r[i + 1] == rest[i] {}
      }
    }
  }

  // ----- nothing falls between two digests -------------------------------

  /** A match first stored at `moment`, before the digest was built, is in its window. */
  predicate Covers(w: Window, moment: int) { w.since <= moment < w.sentAt }

  predicate Covered(r: seq<Window>, moment: int) {
    exists i :: 0 <= i < |r| && Covers(r[i], moment)
  }

  predicate InSpan(r: seq<Window>, moment: int) {
    r != [] && r[0].since <= moment < r[|r| - 1].sentAt
  }

  predicate OnTime(w: Window, p: Preferences) { LocalTime(w.sentAt, p.offset) >= p.digestTime }

  lemma {:induction false} FindWindow(r: seq<Window>, p: Preferences, moment: int, i: nat)
    requires WellFormed(r, p) && i < |r| && r[i].since <= moment < r[|r| - 1].sentAt
    requires forall k :: 0 <= k < |r| - 1 ==> OnTime(r[k], p)
    ensures Covered(r, moment)
    decreases |r| - i
  {
    if i < |r| - 1 {
      assert Follows(r[i], r[i + 1], p);
      assert OnTime(r[i], p);
      if r[i + 1].since <= moment {
        FindWindow(r, p, moment, i + 1);
      } else {
        assert Covers(r[i], moment);
      }
    } else {
      assert Covers(r[i], moment);
    }
  }

  lemma EarlyDigestLeavesAGap(r: seq<Window>, p: Preferences, i: nat)
    requires p.Valid() && WellFormed(r, p) && i < |r| - 1 && !OnTime(r[i], p)
    ensures InSpan(r, r[i].sentAt) && !Covered(r, r[i].sentAt)
  {
    var moment := r[i].sentAt;
    assert Follows(r[i], r[i + 1], p);
    DatesAscend(r, p, i, |r| - 1);
    if i > 0 { DatesAscend(r, p, 0, i); }
    forall j | 0 <= j < |r| ensures !Covers(r[j], moment) {
      if j < i { DatesAscend(r, p, j, i); }
      if i + 1 < j { DatesAscend(r, p, i + 1, j); }
    }
  }

  /** Over any run: every moment from the first window's start to the latest digest is in some
      window if and only if every digest but the latest was built at or after its local time. */
  lemma NoGapIff(last: Option<int>, times: seq<int>, p: Preferences)
    requires p.Valid() && Ascending(times) && NotAhead(last, times, p)
    ensures var r := Windows(last, times, p);
            (forall moment: int :: InSpan(r, moment) ==> Covered(r, moment))
            <==> (forall i :: 0 <= i < |r| - 1 ==> OnTime(r[i], p))
  {
    WindowsAreWellFormed(last, times, p);
    var r := Windows(last, times, p);
    if forall i :: 0 <= i < |r| - 1 ==> OnTime(r[i], p) {
      forall moment: int | InSpan(r, moment) ensures Covered(r, moment) {
        FindWindow(r, p, moment, 0);
      }
    } else {
      var i :| 0 <= i < |r| - 1 && !OnTime(r[i], p);
      EarlyDigestLeavesAGap(r, p, i);
    }
  }

  // ----- stamped before, committed after ---------------------------------

  /** A digest lists a match when its window reaches back to the stamp and the match was committed
      before the digest was built. */
  predicate Reports(w: Window, stamped: int, committed: int) { w.since <= stamped && committed < w.sentAt }

  predicate Reported(r: seq<Window>, stamped: int, committed: int) {
    exists i :: 0 <= i < |r| && Reports(r[i], stamped, committed)
  }

  /** Committed once digest `k` was built, and stamped before the window of the next opens. */
  predicate Slips(r: seq<Window>, k: nat, stamped: int, committed: int) {
    k + 1 < |r| && r[k].sentAt <= committed < r[k + 1].sentAt && stamped < r[k + 1].since
  }

  lemma {:induction false} FirstBuiltAfter(r: seq<Window>, committed: int) returns (i: nat)
    requires r != [] && committed < r[|r| - 1].sentAt
    ensures i < |r| && committed < r[i].sentAt && (i > 0 ==> r[i - 1].sentAt <= committed)
  {
    var n := |r| - 1;
    if n == 0 || r[n - 1].sentAt <= committed {
      i := n;
    } else {
      i := FirstBuiltAfter(r[..n], committed);
    }
  }

  /** Over any run, with the match stamped after the first window opens and committed before the
      latest digest is built: it is in no digest exactly when it slips between two, committed after
      the one and stamped before the window of the other. */
  lemma MissedIff(last: Option<int>, times: seq<int>, p: Preferences, stamped: int, committed: int)
    requires p.Valid() && Ascending(times) && NotAhead(last, times, p)
    requires var r := Windows(last, times, p);
             r != [] && r[0].since <= stamped && committed < r[|r| - 1].sentAt
    ensures var r := Windows(last, times, p);
            !Reported(r, stamped, committed) <==> exists k :: 0 <= k < |r| && Slips(r, k, stamped, committed)
  {
    WindowsAreWellFormed(last, times, p);
    var r := Windows(last, times, p);
    var i := FirstBuiltAfter(r, committed);
    if !Reports(r[i], stamped, committed) {
      assert Slips(r, i - 1, stamped, committed);
    }
    forall k | 0 <= k < |r| && Slips(r, k, stamped, committed) ensures !Reported(r, stamped, committed) {
      forall j | 0 <= j < |r| ensures !Reports(r[j], stamped, committed) {
        if j < k { DatesAscend(r, p, j, k); }
        if k + 1 < j { DatesAscend(r, p, k + 1, j); }
      }
    }
  }

  /** When digests are built on time, only a match whose transaction was open while one was built
      can slip. */
  lemma OnlyOpenTransactionsSlip(r: seq<Window>, p: Preferences, k: nat, stamped: int, committed: int)
    requires p.Valid() && WellFormed(r, p) && Slips(r, k, stamped, committed) && OnTime(r[k], p)
    ensures stamped < r[k].sentAt <= committed
  {
    assert Follows(r[k], r[k + 1], p);
  }

  /** Stamped a second before 08:00, with the digest built at 08:00 and the commit a second later: in
      neither that digest nor the next. */
  lemma SlowCommitSlips()
    ensures var p := Preferences(8 * 3600, 0, C);
            var r := Windows(Some(9), [10 * DAY + 8 * 3600, 11 * DAY + 8 * 3600], p);
            !Reported(r, 10 * DAY + 8 * 3600 - 1, 10 * DAY + 8 * 3600 + 1)
  {
    var p := Preferences(8 * 3600, 0, C);
    var times := [10 * DAY + 8 * 3600, 11 * DAY + 8 * 3600];
    assert times[1..] == [11 * DAY + 8 * 3600];
    assert LocalDate(times[0], 0) == 10 && LocalDate(times[1], 0) == 11;
    assert Windows(Some(10), times[1..], p) == [Window(times[1], 11, Combine(10, p.digestTime, 0))] by {
      assert Windows(Some(11), times[1..][1..], p) == [];
    }
    var r := Windows(Some(9), times, p);
    assert r == [Window(times[0], 10, Combine(9, p.digestTime, 0)), Window(times[1], 11, Combine(10, p.digestTime, 0))];
    assert Combine(10, p.digestTime, 0) == 10 * DAY + 8 * 3600;
  }

  /** A match is never in more than two windows, and those two are neighbours. */
  lemma AtMostTwoDigests(last: Option<int>, times: seq<int>, p: Preferences, moment: int, i: nat, j: nat)
    requires p.Valid() && Ascending(times) && NotAhead(last, times, p)
    requires var r := Windows(last, times, p);
             i < j < |r| && Covers(r[i], moment) && Covers(r[j], moment)
    ensures j == i + 1
  {
    WindowsAreWellFormed(last, times, p);
    var r := Windows(last, times, p);
    if i + 1 < j {
      assert Follows(r[j - 1], r[j], p);
      DatesAscend(r, p, i, j - 1);
    }
  }

  /** A queued digest is built on time whenever the job starts on the local date it was queued. */
  lemma DueMeansOnTime(last: Option<int>, p: Preferences, queuedAt: int, builtAt: int)
    requires IsDue(last, p, queuedAt) && queuedAt <= builtAt
    requires LocalDate(queuedAt, p.offset) == LocalDate(builtAt, p.offset)
    ensures OnTime(Window(builtAt, LocalDate(builtAt, p.offset), WindowStart(last, LocalDate(builtAt, p.offset), p)), p)
  {}

  /** Queued at 23:59:59 and built a second after midnight, a digest for 08:00 leaves a gap until
      08:00 of that day: a match stored at 01:00 is in neither that digest nor the next. */
  lemma DigestAfterMidnightLeavesAGap()
    ensures var p := Preferences(8 * 3600, 0, C);
            var r := Windows(Some(9), [11 * DAY + 1, 12 * DAY + 8 * 3600], p);
            && IsDue(Some(9), p, 11 * DAY - 1)
            && InSpan(r, 11 * DAY + 3600) && !Covered(r, 11 * DAY + 3600)
  {
    var p := Preferences(8 * 3600, 0, C);
    var times := [11 * DAY + 1, 12 * DAY + 8 * 3600];
    assert times[1..] == [12 * DAY + 8 * 3600];
    var r := Windows(Some(9), times, p);
    assert LocalDate(times[0], 0) == 11 && LocalDate(times[1], 0) == 12;
    assert Windows(Some(11), times[1..], p) == [Window(times[1], 12, Combine(11, p.digestTime, 0))] by {
      assert Windows(Some(12), times[1..][1..], p) == [];
    }
    assert r == [Window(11 * DAY + 1, 11, Combine(9, p.digestTime, 0)),
                 Window(12 * DAY + 8 * 3600, 12, Combine(11, p.digestTime, 0))];
  }

  lemma CountedIff(rows: seq<Row>, p: Preferences, since: int, row: Row)
    ensures row in Build(rows, p, since).scored <==> row in rows && Qualifies(row, p, since)
  {
    FilterKeeps(Sorting.Sort(rows, MoreSimilar), r => Qualifies(r, p, since), row);
    Sorting.SortKeepsElements(rows, MoreSimilar);
    assert row in rows <==> row in multiset(rows);
    assert row in Sorting.Sort(rows, MoreSimilar) <==> row in multiset(Sorting.Sort(rows, MoreSimilar));
  }

  predicate GoodEnough(grade: Grade, minimum: Grade) {
    match minimum
    case S => grade == S
    case A => grade == S || grade == A
    case B => grade != C
    case C => true
  }

  /** A digest counts exactly the stored matches first made in its window, whose notice is open, at
      least as good as the organization asks and not ineligible. */
  lemma DigestReportsIff(rows: seq<Row>, p: Preferences, since: int, row: Row)
    ensures row in Build(rows, p, since).scored <==>
              && row in rows
              && row.firstMatchedAt.Some? && since <= row.firstMatchedAt.value
              && row.isOpen && GoodEnough(row.grade, p.minGrade)
              && (row.eligibility == Eligible || row.eligibility == NeedsVerification)
  {
    CountedIff(rows, p, since, row);
  }

  // ----- what it shows ---------------------------------------------------

  predicate Wanted(row: Row, unsure: bool) { unsure ==> row.eligibility == NeedsVerification }

  /** The most similar of those wanted, best first: one of them is left out only when the list is
      full of others no less similar. */
  predicate BestOf(listed: seq<Row>, pool: seq<Row>, unsure: bool, n: nat) {
    && |listed| <= n && Sorting.Descending(listed, MoreSimilar) && multiset(listed) <= multiset(pool)
    && (forall x :: x in listed ==> Wanted(x, unsure))
    && forall row :: row in pool && Wanted(row, unsure) && row !in listed ==>
         |listed| == n && forall x :: x in listed ==> x.similarity >= row.similarity
  }

  lemma {:induction false} FilterKeepsOrder(rows: seq<Row>, keep: Row -> bool)
    requires Sorting.Descending(rows, MoreSimilar)
    ensures Sorting.Descending(Filter(rows, keep), MoreSimilar)
  {
    if rows != [] {
      var n := |rows| - 1;
      var before := Filter(rows[..n], keep);
      FilterKeepsOrder(rows[..n], keep);
      forall i | 0 <= i < |before| ensures MoreSimilar(before[i], rows[n]) {
        FilterKeeps(rows[..n], keep, before[i]);
        assert before[i] in rows[..n];
      }
    }
  }

  lemma {:induction false} FilterIsPart(rows: seq<Row>, keep: Row -> bool)
    ensures multiset(Filter(rows, keep)) <= multiset(rows)
  {
    if rows != [] {
      FilterIsPart(rows[..|rows| - 1], keep);
      assert rows == rows[..|rows| - 1] + [rows[|rows| - 1]];
    }
  }

  lemma LeftOutIsNoBetter(sorted: seq<Row>, n: nat, row: Row)
    requires Sorting.Descending(sorted, MoreSimilar) && row in sorted && row !in Take(sorted, n)
    ensures |Take(sorted, n)| == n
    ensures forall x :: x in Take(sorted, n) ==> x.similarity >= row.similarity
  {
    var listed := Take(sorted, n);
    var k :| 0 <= k < |sorted| && sorted[k] == row;
    forall i | 0 <= i < |sorted| && i < n ensures sorted[i] in listed {
      assert listed[i] == sorted[i];
    }
    forall x | x in listed ensures x.similarity >= row.similarity {
      var i :| 0 <= i < |listed| && listed[i] == x;
      assert MoreSimilar(sorted[i], sorted[k]);
    }
  }

  lemma TakeIsPart(rows: seq<Row>, n: nat)
    requires Sorting.Descending(rows, MoreSimilar)
    ensures multiset(Take(rows, n)) <= multiset(rows) && Sorting.Descending(Take(rows, n), MoreSimilar)
    ensures forall x :: x in Take(rows, n) ==> x in rows
  {
    assert rows == Take(rows, n) + rows[|Take(rows, n)|..];
  }

  lemma HeadIsBest(sorted: seq<Row>, pool: seq<Row>, unsure: bool, n: nat)
    requires Sorting.Descending(sorted, MoreSimilar)
    requires multiset(sorted) <= multiset(pool) && forall x :: x in sorted <==> x in pool && Wanted(x, unsure)
    ensures BestOf(Take(sorted, n), pool, unsure, n)
  {
    TakeIsPart(sorted, n);
    forall row | row in pool && Wanted(row, unsure) && row !in Take(sorted, n)
      ensures |Take(sorted, n)| == n && forall x :: x in Take(sorted, n) ==> x.similarity >= row.similarity
    {
      LeftOutIsNoBetter(sorted, n, row);
    }
  }

  /** The picks are the five most similar matches counted, and the questions the five most similar
      of those that need verification. */
  lemma DigestShowsTheBest(rows: seq<Row>, p: Preferences, since: int)
    ensures var c := Build(rows, p, since);
            && Sorting.Descending(c.scored, MoreSimilar)
            && BestOf(c.picks, c.scored, false, 5) && BestOf(c.verify, c.scored, true, 5)
  {
    var scored := Chosen(rows, p, since);
    var asks := (r: Row) => r.eligibility == NeedsVerification;
    Sorting.SortIsDescending(rows, MoreSimilar);
    FilterKeepsOrder(Sorting.Sort(rows, MoreSimilar), r => Qualifies(r, p, since));
    FilterKeepsOrder(scored, asks);
    forall x ensures x in Filter(scored, asks) <==> x in scored && asks(x) {
      FilterKeeps(scored, asks, x);
    }
    FilterIsPart(scored, asks);
    HeadIsBest(scored, scored, false, DIGEST_PICKS);
    HeadIsBest(Filter(scored, asks), scored, true, DIGEST_VERIFY_ITEMS);
  }

  /** The first digest looks back to yesterday's digest time, every later one to that of the date
      of the digest before it. */
  lemma WindowsReachBack(last: Option<int>, times: seq<int>, p: Preferences, k: nat)
    requires p.Valid() && Ascending(times) && NotAhead(last, times, p) && k < |Windows(last, times, p)|
    ensures var r := Windows(last, times, p);
            var back := if k > 0 then r[k - 1].date else if last.Some? then last.value else r[0].date - 1;
            && LocalDate(r[k].since, p.offset) == back && LocalTime(r[k].since, p.offset) == p.digestTime
            && r[k].date == LocalDate(r[k].sentAt, p.offset) && r[k].sentAt in times
  {
    WindowsAreWellFormed(last, times, p);
    SentWhenRun(last, times, p, k);
    var r := Windows(last, times, p);
    if k > 0 { assert Follows(r[k - 1], r[k], p); }
  }

  lemma {:induction false} SentWhenRun(last: Option<int>, times: seq<int>, p: Preferences, k: nat)
    requires k < |Windows(last, times, p)|
    ensures Windows(last, times, p)[k].sentAt in times
    decreases |times|
  {
    var today := LocalDate(times[0], p.offset);
    assert forall t :: t in times[1..] ==> t in times;
    if last == Some(today) {
      SentWhenRun(last, times[1..], p, k);
    } else if k > 0 {
      SentWhenRun(Some(today), times[1..], p, k - 1);
    }
  }
}
