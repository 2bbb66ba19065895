/** The fixed-window limiter of backend/app/core/rate_limit.py, for one key and with the
    counter store answering every call. Time is real-valued seconds. */
module RateLimit {

  /** The stored counter, which vanishes when its expiry is reached. */
  datatype Counter = Absent | Live(hits: nat, expiresAt: real)

  function Present(c: Counter, now: real): Counter {
    if c.Live? && now < c.expiresAt then c else Absent
  }

  /** INCR, then EXPIRE when this was the first hit of a window. */
  function Count(c: Counter, now: real, window: real): (r: Counter)
    ensures r.Live? && r.hits >= 1
  {
    match Present(c, now)
    case Absent => Live(1, now + window)
    case Live(hits, expiresAt) => Live(hits + 1, expiresAt)
  }

  class Limiter {
    var counter: Counter

    constructor ()
      ensures counter == Absent
    {
      counter := Absent;
    }

    /** Count one hit; refuse it once the limit is exceeded. */
    method EnforceRateLimit(limit: int, window: real, now: real) returns (allowed: bool)
      modifies this
      ensures counter == Count(old(counter), now, window)
      ensures allowed <==> counter.hits <= limit
    {
      if counter.Live? && counter.expiresAt <= now {
        counter := Absent;
      }
      var hits := 1;
      match counter {
        case Absent => counter := Live(1, now + window);
        case Live(before, expiresAt) =>
          hits := before + 1;
          counter := Live(hits, expiresAt);
      }
      allowed := hits <= limit;
    }
  }

  predicate InOrder(hits: seq<real>) {
    forall i, j :: 0 <= i < j < |hits| ==> hits[i] <= hits[j]
  }

  /** How many of the hits that fall in [low, high] are admitted, starting from `c`. */
  function Admitted(c: Counter, hits: seq<real>, limit: int, window: real, low: real, high: real): nat
    decreases |hits|
  {
    if hits == [] then 0
    else
      var c' := Count(c, hits[0], window);
      (if c'.hits <= limit && low <= hits[0] <= high then 1 else 0)
      + Admitted(c', hits[1..], limit, window, low, high)
  }

  function Left(limit: int, used: nat): nat {
    if used < limit then limit - used else 0
  }

  lemma Tail(hits: seq<real>)
    requires InOrder(hits) && hits != []
    ensures InOrder(hits[1..])
    ensures forall t :: t in hits[1..] ==> hits[0] <= t
  {
    forall t | t in hits[1..] ensures hits[0] <= t {
      var i :| 0 <= i < |hits[1..]| && hits[1..][i] == t;
      assert hits[1..][i] == hits[i + 1];
    }
  }

  lemma {:induction false} NothingAfter(c: Counter, hits: seq<real>, limit: int, window: real, low: real, high: real)
    requires forall t :: t in hits ==> t > high
    ensures Admitted(c, hits, limit, window, low, high) == 0
    decreases |hits|
  {
    if hits != [] {
      assert hits[0] in hits;
      forall t | t in hits[1..] ensures t > high { assert t in hits; }
      NothingAfter(Count(c, hits[0], window), hits[1..], limit, window, low, high);
    }
  }

  /** A window that outlasts the interval admits what it has left. */
  lemma {:induction false} OneWindow(c: Counter, hits: seq<real>, limit: int, window: real, low: real, high: real)
    requires c.Live? && c.expiresAt > high && InOrder(hits)
    ensures Admitted(c, hits, limit, window, low, high) <= Left(limit, c.hits)
    decreases |hits|
  {
    if hits != [] {
      Tail(hits);
      if hits[0] > high {
        forall t | t in hits[1..] ensures t > high {}
        NothingAfter(Count(c, hits[0], window), hits[1..], limit, window, low, high);
      } else {
        OneWindow(Count(c, hits[0], window), hits[1..], limit, window, low, high);
      }
    }
  }

  /** Once no window is open past `low`, whatever opens next outlasts the interval. */
  lemma {:induction false} FirstWindowInside(c: Counter, hits: seq<real>, limit: int, window: real, low: real,
      high: real)
    requires InOrder(hits) && high - low <= window
    requires forall t :: t in hits ==> t > low && Present(c, t) == Absent
    ensures Admitted(c, hits, limit, window, low, high) <= Left(limit, 0)
  {
    if hits != [] {
      assert hits[0] in hits;
      Tail(hits);
      OneWindow(Count(c, hits[0], window), hits[1..], limit, window, low, high);
    }
  }

  /** A window open past `low` is followed by at most one more in reach. */
  lemma {:induction false} OpenWindow(c: Counter, hits: seq<real>, limit: int, window: real, low: real, high: real)
    requires c.Live? && c.expiresAt > low && InOrder(hits) && high - low <= window
    ensures Admitted(c, hits, limit, window, low, high) <= Left(limit, c.hits) + Left(limit, 0)
    decreases |hits|
  {
    if hits != [] {
      Tail(hits);
      if hits[0] < c.expiresAt {
        OpenWindow(Count(c, hits[0], window), hits[1..], limit, window, low, high);
      } else {
        forall t | t in hits ensures t > low && Present(c, t) == Absent {
          assert t == hits[0] || t in hits[1..];
        }
        FirstWindowInside(c, hits, limit, window, low, high);
      }
    }
  }

  /** Any stretch no longer than the window admits at most twice the limit, from any state of
      the counter and for any timing of hits; the stretch may include both its ends. */
  lemma {:induction false} TwiceTheLimit(c: Counter, hits: seq<real>, limit: int, window: real, low: real, high: real)
    requires InOrder(hits) && window > 0.0 && high - low <= window
    ensures Admitted(c, hits, limit, window, low, high) <= 2 * Left(limit, 0)
    decreases |hits|
  {
    if c.Live? && c.expiresAt > low {
      OpenWindow(c, hits, limit, window, low, high);
    } else if hits != [] {
      Tail(hits);
      var c' := Count(c, hits[0], window);
      if hits[0] > low {
        forall t | t in hits ensures t > low && Present(c, t) == Absent {
          assert t == hits[0] || t in hits[1..];
        }
        FirstWindowInside(c, hits, limit, window, low, high);
      } else if hits[0] == low {
        assert c'.expiresAt > low;
        OpenWindow(c', hits[1..], limit, window, low, high);
      } else {
        TwiceTheLimit(c', hits[1..], limit, window, low, high);
      }
    }
  }

  /** Within one window, from its first hit up to its expiry, at most the limit gets through. */
  lemma OneWindowAdmitsTheLimit(c: Counter, hits: seq<real>, limit: int, window: real, high: real)
    requires InOrder(hits) && hits != [] && window > 0.0
    requires Present(c, hits[0]) == Absent && high < hits[0] + window
    ensures Admitted(c, hits, limit, window, hits[0], high) <= Left(limit, 0)
  {
    Tail(hits);
    OneWindow(Count(c, hits[0], window), hits[1..], limit, window, hits[0], high);
  }

  function Repeat(t: real, n: nat): (r: seq<real>)
    ensures |r| == n && forall x :: x in r ==> x == t
  {
    if n == 0 then [] else [t] + Repeat(t, n - 1)
  }

  lemma {:induction false} BurstInWindow(c: Counter, t: real, n: nat, rest: seq<real>, limit: int, window: real,
      low: real, high: real)
    requires c.Live? && t < c.expiresAt && low <= t <= high && c.hits + n <= limit
    ensures Admitted(c, Repeat(t, n) + rest, limit, window, low, high)
         == n + Admitted(Live(c.hits + n, c.expiresAt), rest, limit, window, low, high)
    decreases n
  {
    if n == 0 {
      assert Repeat(t, n) + rest == rest;
    } else {
      assert (Repeat(t, n) + rest)[1..] == Repeat(t, n - 1) + rest;
      BurstInWindow(Live(c.hits + 1, c.expiresAt), t, n - 1, rest, limit, window, low, high);
    }
  }

  /** One hit opens a window, a burst fills it late, and another burst fills the next. */
  function TwoBursts(limit: nat, window: real): seq<real>
    requires limit >= 1
  {
    [0.0] + (Repeat(window / 2.0, limit - 1) + ([window] + (Repeat(window, limit - 1) + [])))
  }

  /** The bound is reached. */
  lemma TwiceTheLimitIsReached(limit: nat, window: real)
    requires limit >= 1 && window > 0.0
    ensures InOrder(TwoBursts(limit, window))
    ensures Admitted(Absent, TwoBursts(limit, window), limit, window, 0.0, window) == 2 * limit
  {
    var half := window / 2.0;
    var early, late := Repeat(half, limit - 1), Repeat(window, limit - 1);
    var hits, second := TwoBursts(limit, window), [window] + (late + []);
    assert hits[1..] == early + second && second[1..] == late + [];
    BurstInWindow(Live(1, window), half, limit - 1, second, limit, window, 0.0, window);
    BurstInWindow(Live(1, window + window), window, limit - 1, [], limit, window, 0.0, window);
    forall i | 0 <= i < |hits|
      ensures hits[i] == if i == 0 then 0.0 else if i < limit then half else window
    {
      if 0 < i < limit {
        assert hits[i] == early[i - 1] && early[i - 1] in early;
      } else if i > limit {
        assert hits[i] == late[i - limit - 1] && late[i - limit - 1] in late;
      }
    }
  }
}
