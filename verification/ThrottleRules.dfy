/**
 The rules of login throttling: a ban after `maxFailures` failures in a row, each ban twice as long as the one before,
 up to a cap. Durations are 64-bit, so doubling wraps around.
 */
module ThrottleRules {
  import opened Options

  const TWO_62: int := 0x4000_0000_0000_0000

  type Int64 = x: int | -2 * TWO_62 <= x < 2 * TWO_62

  datatype Settings = Settings(
    enabled: bool,
    maxFailures: int,
    failureWindow: Time,
    baseBan: Int64,
    maxBan: Int64,
    offenseReset: Time)

  /** A row of `login_attempts`. */
  datatype Attempts = Attempts(failCount: int, banLevel: int, lastFailure: Option<Time>, bannedUntil: Option<Time>)

  /** An address without a row. */
  const NO_ROW := Attempts(0, 0, None, None)

  // ----- The length of a ban -----

  /** Doubling in 64 bits wraps around. */
  function Twice(d: Int64): Int64 {
    if 2 * d >= 2 * TWO_62 then 2 * d - 4 * TWO_62
    else if 2 * d < -2 * TWO_62 then 2 * d + 4 * TWO_62
    else 2 * d
  }

  function Pow2(n: nat): nat {
    if n == 0 then 1 else 2 * Pow2(n - 1)
  }

  function Min(a: int, b: int): int {
    if a < b then a else b
  }

  /** Doubled `n` times as the code does it: with wrap-around, stopping at the cap. */
  function DoubledUpTo(d: Int64, cap: Int64, n: nat): Int64
    decreases n
  {
    if n == 0 then (if d > cap then cap else d)
    else if Twice(d) >= cap then cap
    else DoubledUpTo(Twice(d), cap, n - 1)
  }

  function BanFor(s: Settings, level: int): Int64 {
    DoubledUpTo(s.baseBan, s.maxBan, if level < 1 then 0 else level - 1)
  }

  /** The values the loop forms on its way, before wrap-around. */
  function Formed(d: Int64, cap: Int64, n: nat): (vs: seq<int>)
    decreases n
  {
    if n == 0 then []
    else [2 * d] + if Twice(d) >= cap then [] else Formed(Twice(d), cap, n - 1)
  }

  /** One turn of the loop. */
  lemma OneTurn(d: Int64, cap: Int64, n: nat, formed: seq<int>)
    requires n > 0
    ensures var e := Twice(d);
            if e >= cap then DoubledUpTo(d, cap, n) == cap && formed + Formed(d, cap, n) == formed + [2 * d]
            else DoubledUpTo(d, cap, n) == DoubledUpTo(e, cap, n - 1) &&
                 formed + Formed(d, cap, n) == formed + [2 * d] + Formed(e, cap, n - 1)
  {
    var e := Twice(d);
    if e < cap {
      assert formed + ([2 * d] + Formed(e, cap, n - 1)) == formed + [2 * d] + Formed(e, cap, n - 1);
    }
  }

  /** `formed` is what the loop formed on its way. */
  method BanDuration(s: Settings, level: int) returns (d: Int64, ghost formed: seq<int>)
    ensures d == BanFor(s, level)
    ensures formed == Formed(s.baseBan, s.maxBan, if level < 1 then 0 else level - 1)
  {
    var n := if level < 1 then 1 else level;
    d, formed := s.baseBan, [];
    var i := 1;
    while i < n
      invariant 1 <= i <= n
      invariant DoubledUpTo(d, s.maxBan, n - i) == BanFor(s, level)
      invariant formed + Formed(d, s.maxBan, n - i) == Formed(s.baseBan, s.maxBan, n - 1)
    {
      OneTurn(d, s.maxBan, n - i, formed);
      formed := formed + [2 * d];
      d := Twice(d);
      if d >= s.maxBan {
        return s.maxBan, formed;
      }
      i := i + 1;
    }
    if d > s.maxBan {
      return s.maxBan, formed;
    }
  }

  /** The one doubling of `d` between 2^62 and 2^63. */
  function TopDoubling(d: int): int
    requires 0 < d
    decreases TWO_62 - d
  {
    if d >= TWO_62 then d else TopDoubling(2 * d)
  }

  /** No doubling overflows before it reaches the cap. */
  predicate Fits(d: Time, cap: Time) {
    d == 0 || (0 < d < TWO_62 && cap <= TopDoubling(d))
  }

  /** A doubling that stays below the cap fits again. */
  lemma FitsOn(d: Int64, cap: Int64)
    requires Fits(d, cap)
    ensures Twice(d) == 2 * d
    ensures 2 * d < cap ==> Fits(2 * d, cap)
  {
    assert d > 0 ==> TopDoubling(d) == TopDoubling(2 * d);
  }

  lemma PowStep(d: int, n: nat)
    requires n > 0
    ensures d * Pow2(n) == (2 * d) * Pow2(n - 1)
  {
  }

  lemma {:induction false} DoublingIsExact(d: Int64, cap: Int64, n: nat)
    requires Fits(d, cap)
    ensures DoubledUpTo(d, cap, n) == Min(d * Pow2(n), cap)
    decreases n
  {
    if n > 0 {
      FitsOn(d, cap);
      PowStep(d, n);
      if 2 * d >= cap {
        PowPositive(n - 1, 2 * d);
      } else {
        DoublingIsExact(2 * d, cap, n - 1);
      }
    }
  }

  lemma {:induction false} PowPositive(n: nat, x: nat)
    ensures x <= x * Pow2(n)
  {
    if n > 0 {
      PowPositive(n - 1, x);
      assert x * Pow2(n) == 2 * (x * Pow2(n - 1));
    }
  }

  /** A cap above the top doubling is missed: the next doubling turns negative. */
  lemma {:induction false} DoublingOverflows(d: Int64, cap: Int64) returns (n: nat)
    requires 0 < d && TopDoubling(d) < cap
    ensures DoubledUpTo(d, cap, n) < 0
    decreases TWO_62 - d
  {
    if d >= TWO_62 {
      n := 1;
      assert DoubledUpTo(d, cap, 1) == DoubledUpTo(Twice(d), cap, 0);
    } else {
      TopIsAbove(2 * d);
      n := DoublingOverflows(2 * d, cap);
      n := n + 1;
    }
  }

  lemma {:induction false} TopIsAbove(d: int)
    requires 0 < d
    ensures d <= TopDoubling(d) && TWO_62 <= TopDoubling(d)
    decreases TWO_62 - d
  {
    if d < TWO_62 {
      TopIsAbove(2 * d);
    }
  }

  /** None of them overflows, and none is above twice the larger setting. */
  lemma {:induction false} FormedStaysSmall(d: Int64, cap: Int64, n: nat, i: nat)
    requires Fits(d, cap) && i < |Formed(d, cap, n)|
    ensures 0 <= Formed(d, cap, n)[i] < 2 * TWO_62
    ensures Formed(d, cap, n)[i] <= 2 * d || Formed(d, cap, n)[i] <= 2 * cap
    decreases n
  {
    FitsOn(d, cap);
    if i > 0 {
      FormedStaysSmall(2 * d, cap, n - 1, i - 1);
    }
  }

  /** Ban number `level` by the rule: the base doubled `level - 1` times, at most the cap. */
  predicate IsRuled(s: Settings, level: int)
    requires level >= 1
  {
    BanFor(s, level) == Min(s.baseBan * Pow2(level - 1), s.maxBan)
  }

  /**
   All bans follow the rule if and only if the base is zero, or below 2^62 and the cap is not above its doubling
   between 2^62 and 2^63. Otherwise some ban is negative. Both settings below 2^62 (about 146 years) are enough.
   */
  lemma BansRuledIffFits(s: Settings)
    requires 0 <= s.baseBan && 0 <= s.maxBan
    ensures (forall level :: level >= 1 ==> IsRuled(s, level)) <==> Fits(s.baseBan, s.maxBan)
    ensures !Fits(s.baseBan, s.maxBan) ==> exists level :: level >= 1 && BanFor(s, level) < 0
    ensures s.baseBan < TWO_62 && s.maxBan < TWO_62 ==> Fits(s.baseBan, s.maxBan)
  {
    var d, cap := s.baseBan, s.maxBan;
    if d > 0 {
      TopIsAbove(d);
    }
    if Fits(d, cap) {
      forall level | level >= 1 ensures IsRuled(s, level) {
        DoublingIsExact(d, cap, level - 1);
      }
    } else if d >= TWO_62 {
      assert Twice(d) == 2 * d - 4 * TWO_62;
      assert BanFor(s, 2) == DoubledUpTo(d, cap, 1) == DoubledUpTo(Twice(d), cap, 0) < 0;
      assert Pow2(1) == 2;
      assert !IsRuled(s, 2);
    } else {
      var n := DoublingOverflows(d, cap);
      PowPositive(n, d);
      assert BanFor(s, n + 1) == DoubledUpTo(d, cap, n);
      assert !IsRuled(s, n + 1);
    }
  }

  /** Later bans are no shorter. */
  lemma BansGrow(s: Settings, level: int)
    requires Fits(s.baseBan, s.maxBan) && level >= 1
    ensures Min(s.baseBan, s.maxBan) <= BanFor(s, level) <= BanFor(s, level + 1) <= s.maxBan
  {
    var p := s.baseBan * Pow2(level - 1);
    assert s.baseBan * Pow2(level) == 2 * p;
    PowPositive(level - 1, s.baseBan);
    DoublingIsExact(s.baseBan, s.maxBan, level - 1);
    DoublingIsExact(s.baseBan, s.maxBan, level);
  }

  // ----- One row -----

  /** Consecutive failures and level as they stand when a failure at `now` comes in. */
  function Decayed(s: Settings, a: Attempts, now: Time): (int, int) {
    if a.lastFailure.None? then (a.failCount, a.banLevel)
    else
      var gap := now - a.lastFailure.value;
      (if gap > s.failureWindow then 0 else a.failCount, if gap > s.offenseReset then 0 else a.banLevel)
  }

  predicate Bans(s: Settings, a: Attempts, now: Time) {
    Decayed(s, a, now).0 + 1 >= s.maxFailures
  }

  function Failed(s: Settings, a: Attempts, now: Time): Attempts {
    var (count, level) := Decayed(s, a, now);
    if Bans(s, a, now)
    then Attempts(0, level + 1, Some(now), Some(now + BanFor(s, level + 1)))
    else Attempts(count + 1, level, Some(now), a.bannedUntil)
  }

  predicate Allowed(a: Attempts, now: Time) {
    a.bannedUntil.None? || a.bannedUntil.value <= now
  }

  // ----- A history of one address -----

  datatype Event = Failure(at: Time) | Success

  /** The row after a history of failures and successes of one address. */
  function RowAfter(s: Settings, h: seq<Event>): Attempts {
    if h == [] then NO_ROW
    else match h[|h| - 1]
      case Success => NO_ROW
      case Failure(at) => Failed(s, RowAfter(s, h[..|h| - 1]), at)
  }

  lemma RowAfterOneMore(s: Settings, h: seq<Event>, e: Event)
    ensures RowAfter(s, h + [e]) == if e.Success? then NO_ROW else Failed(s, RowAfter(s, h), e.at)
  {
    assert (h + [e])[..|h|] == h;
  }
}
