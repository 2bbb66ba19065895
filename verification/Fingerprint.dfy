/** The digest that lets a match be skipped, after backend/app/modules/matching/scoring.py.
    SHA-256 is taken to be injective, so the joined text stands for its digest. */
module Fingerprint {
  import opened Wrappers

  const SEPARATOR := '\U{241F}'

  /** Identifiers and hexadecimal digests never contain the separator; a model name may. */
  predicate Plain(s: string) { SEPARATOR !in s }

  function Digit(n: nat): char
    requires n < 10
  {
    "0123456789"[n]
  }

  /** A number as text. Row numbers in this form stand for the UUIDs of rows. */
  function Decimal(n: nat): (s: string)
    ensures s != [] && Plain(s)
  {
    if n < 10 then [Digit(n)] else Decimal(n / 10) + [Digit(n % 10)]
  }

  function Joined(parts: seq<string>): string
    requires parts != []
  {
    if |parts| == 1 then parts[0] else parts[0] + [SEPARATOR] + Joined(parts[1..])
  }

  datatype Parts = Parts(
    profileVersion: nat, ruleVersion: Option<string>, extraction: Option<string>,
    model: string, thresholdsVersion: nat, contentHash: string)

  function OrEmpty(id: Option<string>): string {
    match id case None => "" case Some(s) => s
  }

  function InputsFingerprint(p: Parts): string {
    Joined([Decimal(p.profileVersion), OrEmpty(p.ruleVersion), OrEmpty(p.extraction),
            p.model, Decimal(p.thresholdsVersion), p.contentHash])
  }

  predicate IsId(id: Option<string>) {
    id.Some? ==> id.value != "" && Plain(id.value)
  }

  predicate WellFormed(p: Parts) {
    IsId(p.ruleVersion) && IsId(p.extraction) && Plain(p.contentHash)
  }

  // ----- no two inputs share a digest ------------------------------------

  lemma {:induction false} DecimalIsInjective(a: nat, b: nat)
    requires Decimal(a) == Decimal(b)
    ensures a == b
  {
    var x, y := Decimal(a), Decimal(b);
    assert x[|x| - 1] == Digit(a % 10) && y[|y| - 1] == Digit(b % 10);
    if a >= 10 || b >= 10 {
      assert |x| > 1 && |y| > 1 by {
        if a >= 10 { assert Decimal(a / 10) != []; }
        if b >= 10 { assert Decimal(b / 10) != []; }
      }
      assert Decimal(a / 10) == x[..|x| - 1] && Decimal(b / 10) == y[..|y| - 1];
      DecimalIsInjective(a / 10, b / 10);
    }
  }

  /** Text cut at its first separator. */
  lemma SplitFirst(a: string, rest: string, b: string, other: string)
    requires Plain(a) && Plain(b)
    requires a + [SEPARATOR] + rest == b + [SEPARATOR] + other
    ensures a == b && rest == other
  {
    var s := a + [SEPARATOR] + rest;
    SeparatorAt(a, rest);
    SeparatorAt(b, other);
    assert |a| == |b|;
    assert a == s[..|a|] && b == s[..|b|];
    assert rest == s[|a| + 1..] && other == s[|b| + 1..];
  }

  lemma SeparatorAt(a: string, rest: string)
    requires Plain(a)
    ensures var s := a + [SEPARATOR] + rest;
            s[|a|] == SEPARATOR && forall i :: 0 <= i < |a| ==> s[i] != SEPARATOR
  {}

  /** Text cut at its last separator. */
  lemma SplitLast(rest: string, a: string, other: string, b: string)
    requires Plain(a) && Plain(b)
    requires rest + [SEPARATOR] + a == other + [SEPARATOR] + b
    ensures a == b && rest == other
  {
    var s := rest + [SEPARATOR] + a;
    SeparatorBefore(rest, a);
    SeparatorBefore(other, b);
    assert |rest| == |other|;
    assert rest == s[..|rest|] && other == s[..|other|];
    assert a == s[|rest| + 1..] && b == s[|other| + 1..];
  }

  lemma SeparatorBefore(rest: string, a: string)
    requires Plain(a)
    ensures var s := rest + [SEPARATOR] + a;
            s[|rest|] == SEPARATOR && forall i :: |rest| < i < |s| ==> s[i] != SEPARATOR
  {
    var s := rest + [SEPARATOR] + a;
    forall i | |rest| < i < |s| ensures s[i] != SEPARATOR {
      assert s[i] == a[i - |rest| - 1];
    }
  }

  function Tail(p: Parts): string {
    p.model + [SEPARATOR] + Decimal(p.thresholdsVersion) + [SEPARATOR] + p.contentHash
  }

  function AfterVersion(p: Parts): string {
    OrEmpty(p.ruleVersion) + [SEPARATOR] + (OrEmpty(p.extraction) + [SEPARATOR] + Tail(p))
  }

  lemma FingerprintSpelledOut(p: Parts)
    ensures InputsFingerprint(p) == Decimal(p.profileVersion) + [SEPARATOR] + AfterVersion(p)
  {
    var v, r, e, m, t, h := Decimal(p.profileVersion), OrEmpty(p.ruleVersion), OrEmpty(p.extraction),
                            p.model, Decimal(p.thresholdsVersion), p.contentHash;
    assert [v, r, e, m, t, h][1..] == [r, e, m, t, h];
    assert [r, e, m, t, h][1..] == [e, m, t, h];
    assert [e, m, t, h][1..] == [m, t, h];
    assert [m, t, h][1..] == [t, h];
    assert [t, h][1..] == [h];
    assert Joined([t, h]) == t + [SEPARATOR] + h;
    assert Joined([m, t, h]) == m + [SEPARATOR] + (t + [SEPARATOR] + h);
    assert m + [SEPARATOR] + (t + [SEPARATOR] + h) == Tail(p);
    assert Joined([e, m, t, h]) == e + [SEPARATOR] + Tail(p);
    assert Joined([r, e, m, t, h]) == r + [SEPARATOR] + (e + [SEPARATOR] + Tail(p));
  }

  /** Equal fingerprints come from equal inputs, even for a model name with separators in it. */
  lemma FingerprintIsInjective(p: Parts, q: Parts)
    requires WellFormed(p) && WellFormed(q)
    ensures InputsFingerprint(p) == InputsFingerprint(q) <==> p == q
  {
    if InputsFingerprint(p) == InputsFingerprint(q) {
      FingerprintSpelledOut(p);
      FingerprintSpelledOut(q);
      SplitFirst(Decimal(p.profileVersion), AfterVersion(p), Decimal(q.profileVersion), AfterVersion(q));
      SplitFirst(OrEmpty(p.ruleVersion), OrEmpty(p.extraction) + [SEPARATOR] + Tail(p),
                 OrEmpty(q.ruleVersion), OrEmpty(q.extraction) + [SEPARATOR] + Tail(q));
      SplitFirst(OrEmpty(p.extraction), Tail(p), OrEmpty(q.extraction), Tail(q));
      SplitLast(p.model + [SEPARATOR] + Decimal(p.thresholdsVersion), p.contentHash,
                q.model + [SEPARATOR] + Decimal(q.thresholdsVersion), q.contentHash);
      SplitLast(p.model, Decimal(p.thresholdsVersion), q.model, Decimal(q.thresholdsVersion));
      DecimalIsInjective(p.profileVersion, q.profileVersion);
      DecimalIsInjective(p.thresholdsVersion, q.thresholdsVersion);
    }
  }
}
