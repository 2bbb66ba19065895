/** Stored AI extractions of one tender, after backend/app/jobs/tasks/matching.py. */
module Extractions {
  import opened Wrappers
  import Rules

  datatype Row = Row(version: nat, attributes: Rules.TenderFacts, inputHash: string, succeeded: bool, isCurrent: bool)
  datatype Attempt = Attempt(attributes: Option<Rules.TenderFacts>, inputHash: string, succeeded: bool)

  // ----- specification ---------------------------------------------------

  /** The first row flagged current. */
  function Current(rows: seq<Row>): (r: Option<nat>)
    ensures r.Some? ==> r.value < |rows| && rows[r.value].isCurrent
    ensures r.None? ==> forall i :: 0 <= i < |rows| ==> !rows[i].isCurrent
  {
    if rows == [] then None
    else if rows[0].isCurrent then Some(0)
    else match Current(rows[1..])
         case None => None
         case Some(i) => Some(i + 1)
  }

  function Retired(rows: seq<Row>): (r: seq<Row>)
    ensures |r| == |rows|
    ensures forall i :: 0 <= i < |rows| ==> r[i] == rows[i].(isCurrent := false)
  {
    if rows == [] then [] else [rows[0].(isCurrent := false)] + Retired(rows[1..])
  }

  function MaxVersion(rows: seq<Row>): nat {
    if rows == [] then 0
    else
      var rest := MaxVersion(rows[..|rows| - 1]);
      if rows[|rows| - 1].version > rest then rows[|rows| - 1].version else rest
  }

  function NewRow(rows: seq<Row>, attempt: Attempt): Row {
    var attributes := match attempt.attributes
                      case None => Rules.TenderFacts(map[], map[])
                      case Some(a) => a;
    Row(MaxVersion(rows) + 1, attributes, attempt.inputHash, attempt.succeeded, true)
  }

  predicate IsRepeat(rows: seq<Row>, attempt: Attempt) {
    Current(rows).Some? && rows[Current(rows).value].inputHash == attempt.inputHash && attempt.succeeded
  }

  function AfterExtraction(rows: seq<Row>, attempt: Attempt): seq<Row> {
    if IsRepeat(rows, attempt) then rows else Retired(rows) + [NewRow(rows, attempt)]
  }

  // ----- the store -------------------------------------------------------

  class ExtractionTable {
    var rows: seq<Row>

    /** Clear the current flag of every row. */
    method Retire()
      modifies this
      ensures rows == Retired(old(rows))
    {
      ghost var before, after := rows, Retired(rows);
      for i := 0 to |rows|
        invariant |rows| == |before|
        invariant forall k :: i <= k < |rows| ==> rows[k] == before[k]
        invariant forall k :: 0 <= k < i ==> rows[k] == after[k]
      {
        rows := rows[i := rows[i].(isCurrent := false)];
      }
    }

    /** Store one attempt; `chosen` is the row handed back to the pipeline. */
    method RunExtraction(attempt: Attempt) returns (chosen: nat)
      modifies this
      ensures rows == AfterExtraction(old(rows), attempt)
      ensures chosen < |rows| && Current(rows) == Some(chosen)
    {
      var current := Current(rows);
      if current.Some? && rows[current.value].inputHash == attempt.inputHash && attempt.succeeded {
        return current.value;
      }
      var row := NewRow(rows, attempt);
      Retire();
      chosen := |rows|;
      rows := rows + [row];
      CurrentIsLast(rows);
    }
  }

  lemma {:induction false} CurrentIsLast(rows: seq<Row>)
    requires rows != [] && rows[|rows| - 1].isCurrent
    requires forall i :: 0 <= i < |rows| - 1 ==> !rows[i].isCurrent
    ensures Current(rows) == Some(|rows| - 1)
  {
    if |rows| > 1 {
      CurrentIsLast(rows[1..]);
    }
  }

  // ----- what every attempt keeps ----------------------------------------

  /** Versions count up from one, and only the newest row may be current. */
  predicate Valid(rows: seq<Row>) {
    forall i :: 0 <= i < |rows| ==> rows[i].version == i + 1 && rows[i].isCurrent == (i == |rows| - 1)
  }

  /** `r` still holds every row of `s`, equal but for the current flag. */
  predicate Keeps(s: seq<Row>, r: seq<Row>) {
    |s| <= |r| && forall i :: 0 <= i < |s| ==> r[i].(isCurrent := false) == s[i].(isCurrent := false)
  }

  lemma {:induction false} MaxVersionIsLength(rows: seq<Row>)
    requires forall i :: 0 <= i < |rows| ==> rows[i].version == i + 1
    ensures MaxVersion(rows) == |rows|
  {
    if rows != [] {
      MaxVersionIsLength(rows[..|rows| - 1]);
    }
  }

  function RunAll(rows: seq<Row>, attempts: seq<Attempt>): seq<Row>
    decreases |attempts|
  {
    if attempts == [] then rows else RunAll(AfterExtraction(rows, attempts[0]), attempts[1..])
  }

  /** Over any attempts: exactly one current row once there is one, versions without gaps,
      and no earlier row rewritten. */
  lemma {:induction false} RunsKeepRows(rows: seq<Row>, attempts: seq<Attempt>)
    requires Valid(rows)
    ensures Valid(RunAll(rows, attempts)) && Keeps(rows, RunAll(rows, attempts))
    decreases |attempts|
  {
    if attempts != [] {
      MaxVersionIsLength(rows);
      RunsKeepRows(AfterExtraction(rows, attempts[0]), attempts[1..]);
    }
  }

  /** What an attempt answered; one that gave no answer has none. */
  function Answer(attempt: Attempt): Rules.TenderFacts {
    if attempt.attributes.Some? then attempt.attributes.value else Rules.TenderFacts(map[], map[])
  }

  /** Right after an attempt that is no repeat the current row holds its answer, input and success
      under the next version; and whatever comes later, that row keeps them. */
  lemma AttemptIsStored(rows: seq<Row>, attempt: Attempt, later: seq<Attempt>)
    requires Valid(rows) && !IsRepeat(rows, attempt)
    ensures var at, after := |rows|, RunAll(AfterExtraction(rows, attempt), later);
            && Current(AfterExtraction(rows, attempt)) == Some(at)
            && at < |after|
            && after[at].attributes == Answer(attempt) && after[at].version == at + 1
            && after[at].inputHash == attempt.inputHash && after[at].succeeded == attempt.succeeded
  {
    MaxVersionIsLength(rows);
    var stored := AfterExtraction(rows, attempt);
    CurrentIsLast(stored);
    RunsKeepRows(stored, later);
    var after := RunAll(stored, later);
    assert after[|rows|].(isCurrent := false) == stored[|rows|].(isCurrent := false);
    assert stored[|rows|].(isCurrent := false).attributes == stored[|rows|].attributes;
  }

  /** The rules read an attempt's own answer from then on exactly when it is no repeat, or the
      current row held the same answer. */
  lemma AnswerIsReadIff(rows: seq<Row>, attempt: Attempt)
    requires Valid(rows)
    ensures var after := AfterExtraction(rows, attempt);
            && Current(after).Some?
            && (after[Current(after).value].attributes == Answer(attempt)
                <==> (IsRepeat(rows, attempt) ==> rows[Current(rows).value].attributes == Answer(attempt)))
  {
    if !IsRepeat(rows, attempt) { AttemptIsStored(rows, attempt, []); }
  }

  /** The row left current tells how the latest attempt went, except when an attempt succeeds
      on the input the current row failed on: then the failure stays current. */
  lemma CurrentTellsTheAttemptIff(rows: seq<Row>, attempt: Attempt)
    requires Valid(rows)
    ensures var after := AfterExtraction(rows, attempt);
            && after != [] && Current(after) == Some(|after| - 1)
            && (after[|after| - 1].succeeded == attempt.succeeded
                <==> !(rows != [] && attempt.succeeded && !rows[|rows| - 1].succeeded
                       && rows[|rows| - 1].inputHash == attempt.inputHash))
  {
    if rows != [] {
      CurrentIsLast(rows);
    }
    CurrentIsLast(AfterExtraction(rows, attempt));
  }

  /** Two attempts on the same input, the first failed: the answer of the second is thrown away
      and the failure stays current. */
  lemma SuccessIsThrownAway(answer: Rules.TenderFacts)
    ensures var rows := RunAll([], [Attempt(None, "input", false), Attempt(Some(answer), "input", true)]);
            rows == [Row(1, Rules.TenderFacts(map[], map[]), "input", false, true)]
  {
    var first, second := Attempt(None, "input", false), Attempt(Some(answer), "input", true);
    var rows := [Row(1, Rules.TenderFacts(map[], map[]), "input", false, true)];
    assert AfterExtraction([], first) == rows;
    assert Current(rows) == Some(0);
    assert [first, second][1..] == [second] && [second][1..] == [];
    assert RunAll(rows, [second]) == rows;
  }
}
