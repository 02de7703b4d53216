/** What the counters of one address mean in terms of everything that happened to it. */
module ThrottleHistory {
  import opened Options
  import opened ThrottleRules

  // ----- Chains of failures -----

  /** Event `i` is a failure that follows a failure within `span`. */
  predicate Follows(h: seq<Event>, i: nat, span: Time) {
    0 < i < |h| && h[i - 1].Failure? && h[i].Failure? && h[i].at - h[i - 1].at <= span
  }

  /** The last `k` events are failures, each within the window of the one before. */
  ghost predicate IsChain(s: Settings, h: seq<Event>, k: nat) {
    && k <= |h|
    && (forall i :: |h| - k <= i < |h| ==> h[i].Failure?)
    && forall i: nat :: |h| - k < i < |h| ==> Follows(h, i, s.failureWindow)
  }

  ghost predicate IsLongestChain(s: Settings, h: seq<Event>, k: nat) {
    IsChain(s, h, k) && !IsChain(s, h, k + 1)
  }

  /** The length of the longest chain, computed. */
  function Chain(s: Settings, h: seq<Event>): nat {
    if h == [] || h[|h| - 1].Success? then 0
    else if Follows(h, |h| - 1, s.failureWindow) then Chain(s, h[..|h| - 1]) + 1
    else 1
  }

  lemma {:induction false} ChainIsLongest(s: Settings, h: seq<Event>)
    ensures IsLongestChain(s, h, Chain(s, h))
  {
    assert h != [] && IsChain(s, h, 2) ==> Follows(h, |h| - 1, s.failureWindow);
    if h != [] && h[|h| - 1].Failure? && Follows(h, |h| - 1, s.failureWindow) {
      var p := h[..|h| - 1];
      var k := Chain(s, p);
      forall i: nat | 0 < i < |p| ensures Follows(p, i, s.failureWindow) == Follows(h, i, s.failureWindow) {
      }
      assert IsChain(s, h, k + 2) ==> IsChain(s, p, k + 1);
      ChainIsLongest(s, p);
    }
  }

  lemma NextMultiple(c: nat, m: nat)
    requires m >= 1
    ensures (c + 1) % m == if c % m + 1 == m then 0 else c % m + 1
  {
    var q := c / m;
    assert c == m * q + c % m;
    if c % m + 1 == m {
      assert c + 1 == m * (q + 1);
      ModUnique(c + 1, m, q + 1, 0);
    } else {
      ModUnique(c + 1, m, q, c % m + 1);
    }
  }

  lemma ModUnique(x: nat, m: nat, q: nat, r: nat)
    requires m >= 1 && x == m * q + r && r < m
    ensures x % m == r
  {
    var q', r' := x / m, x % m;
    assert x == m * q' + r';
    Multiple(m, q' - q);
    Multiple(m, q - q');
    assert m * (q' - q) == m * q' - m * q;
    assert m * (q - q') == m * q - m * q';
  }

  lemma Multiple(m: nat, k: int)
    ensures k >= 1 ==> m * k >= m
    ensures k == 0 ==> m * k == 0
  {
    if k >= 1 {
      assert m * k == m + m * (k - 1);
    }
  }

  /** A count from 0 that starts again at `m`. */
  function Counted(n: nat, m: nat): (c: nat)
    requires m >= 1
    ensures c < m
  {
    if n == 0 || Counted(n - 1, m) + 1 == m then 0 else Counted(n - 1, m) + 1
  }

  lemma {:induction false} CountedIsRest(n: nat, m: nat)
    requires m >= 1
    ensures Counted(n, m) == n % m
  {
    if n > 0 {
      CountedIsRest(n - 1, m);
      NextMultiple(n - 1, m);
    }
  }

  /** The row remembers the latest failure and counts the chain up to the limit. */
  lemma {:induction false} CountsChain(s: Settings, h: seq<Event>)
    requires s.maxFailures >= 1
    ensures var a := RowAfter(s, h);
            && a.failCount == Counted(Chain(s, h), s.maxFailures)
            && a.lastFailure == (if h != [] && h[|h| - 1].Failure? then Some(h[|h| - 1].at) else None)
    ensures h != [] && h[|h| - 1].Failure? ==>
              (Bans(s, RowAfter(s, h[..|h| - 1]), h[|h| - 1].at) <==> Counted(Chain(s, h), s.maxFailures) == 0)
  {
    if h != [] && h[|h| - 1].Failure? {
      var p := h[..|h| - 1];
      CountsChain(s, p);
      assert Counted(1, s.maxFailures) == if s.maxFailures == 1 then 0 else 1;
      assert p == [] || p[|p| - 1] == h[|h| - 2];
    }
  }

  // ----- Bans -----

  /** Event `i` is a failure whose chain is a multiple of the limit. */
  predicate BanAt(s: Settings, h: seq<Event>, i: nat)
    requires s.maxFailures >= 1
  {
    i < |h| && h[i].Failure? && Counted(Chain(s, h[..i + 1]), s.maxFailures) == 0
  }

  /** A failure bans exactly when the longest chain it ends has a length divisible by the limit. */
  lemma BansIffChainMultiple(s: Settings, h: seq<Event>, i: nat, k: nat)
    requires s.maxFailures >= 1 && i < |h| && h[i].Failure? && IsLongestChain(s, h[..i + 1], k)
    ensures Bans(s, RowAfter(s, h[..i]), h[i].at) <==> k % s.maxFailures == 0
    ensures BanAt(s, h, i) <==> k % s.maxFailures == 0
  {
    var p := h[..i + 1];
    CountsChain(s, p);
    assert p[..|p| - 1] == h[..i];
    ChainIsLongest(s, p);
    CountedIsRest(k, s.maxFailures);
  }

  /** Event `i` clears the level: a success, or a failure after a longer pause than `offenseReset`. */
  predicate ResetAt(s: Settings, h: seq<Event>, i: nat) {
    i < |h| && (h[i].Success? || (0 < i && h[i - 1].Failure? && h[i].at - h[i - 1].at > s.offenseReset))
  }

  /** The latest event that clears the level, or the beginning. */
  ghost predicate IsLevelStart(s: Settings, h: seq<Event>, p: nat) {
    && (p == 0 || ResetAt(s, h, p))
    && forall i: nat :: p < i < |h| ==> !ResetAt(s, h, i)
  }

  function BansSince(s: Settings, h: seq<Event>, p: nat): set<nat>
    requires s.maxFailures >= 1
  {
    set i: nat | p <= i < |h| && BanAt(s, h, i)
  }

  lemma PrefixAgrees(s: Settings, h: seq<Event>, n: nat)
    requires s.maxFailures >= 1 && n <= |h|
    ensures forall i: nat :: i < n ==>
              (BanAt(s, h[..n], i) == BanAt(s, h, i)) && (ResetAt(s, h[..n], i) == ResetAt(s, h, i))
  {
    forall i: nat | i < n ensures BanAt(s, h[..n], i) == BanAt(s, h, i) {
      assert h[..n][..i + 1] == h[..i + 1];
    }
  }

  /** How the last event moves the level. */
  lemma LevelStep(s: Settings, h: seq<Event>)
    requires s.maxFailures >= 1 && h != [] && h[|h| - 1].Failure?
    ensures var n := |h| - 1;
            RowAfter(s, h).banLevel ==
            (if ResetAt(s, h, n) then 0 else RowAfter(s, h[..n]).banLevel) + (if BanAt(s, h, n) then 1 else 0)
  {
    var n := |h| - 1;
    CountsChain(s, h);
    CountsChain(s, h[..n]);
    assert h[..n + 1] == h;
    assert n > 0 ==> h[..n][n - 1] == h[n - 1];
  }

  lemma BansSinceStep(s: Settings, h: seq<Event>, p: nat)
    requires s.maxFailures >= 1 && p < |h|
    ensures var n := |h| - 1;
            |BansSince(s, h, p)| == |BansSince(s, h[..n], p)| + (if BanAt(s, h, n) then 1 else 0)
  {
    var n := |h| - 1;
    PrefixAgrees(s, h, n);
    var before := BansSince(s, h[..n], p);
    assert BansSince(s, h, p) == if BanAt(s, h, n) then before + {n} else before;
  }

  /** The level is the number of bans since the level was last cleared. */
  lemma {:induction false} LevelCountsBans(s: Settings, h: seq<Event>, p: nat)
    requires s.maxFailures >= 1 && IsLevelStart(s, h, p)
    ensures RowAfter(s, h).banLevel == |BansSince(s, h, p)|
  {
    if h == [] {
      assert BansSince(s, h, p) == {};
    } else {
      var n := |h| - 1;
      assert ResetAt(s, h, n) ==> p == n;
      if h[n].Success? {
        assert BansSince(s, h, p) == {};
      } else {
        LevelStep(s, h);
        BansSinceStep(s, h, p);
        if ResetAt(s, h, n) {
          assert BansSince(s, h[..n], n) == {};
        } else {
          PrefixAgrees(s, h, n);
          LevelCountsBans(s, h[..n], p);
        }
      }
    }
  }

  /** Event `j` is the latest ban, with no success after it. */
  ghost predicate IsLatestBan(s: Settings, h: seq<Event>, j: nat)
    requires s.maxFailures >= 1
  {
    BanAt(s, h, j) && forall i: nat :: j < i < |h| ==> h[i].Failure? && !BanAt(s, h, i)
  }

  lemma LatestBanStep(s: Settings, h: seq<Event>, j: nat)
    requires s.maxFailures >= 1 && h != [] && h[|h| - 1].Failure?
    ensures var n := |h| - 1;
            IsLatestBan(s, h, j) <==> if BanAt(s, h, n) then j == n else IsLatestBan(s, h[..n], j)
  {
    var n := |h| - 1;
    PrefixAgrees(s, h, n);
    if j < n && IsLatestBan(s, h[..n], j) && !BanAt(s, h, n) {
      forall i: nat | j < i < |h| ensures h[i].Failure? && !BanAt(s, h, i) {
        assert i < n ==> h[..n][i] == h[i];
      }
    }
    if IsLatestBan(s, h, j) && !BanAt(s, h, n) {
      forall i: nat | j < i < n ensures h[..n][i].Failure? && !BanAt(s, h[..n], i) {
        assert h[..n][i] == h[i];
      }
    }
  }

  lemma NoBanKeepsDate(s: Settings, h: seq<Event>)
    requires s.maxFailures >= 1 && h != [] && h[|h| - 1].Failure? && !BanAt(s, h, |h| - 1)
    ensures RowAfter(s, h).bannedUntil == RowAfter(s, h[..|h| - 1]).bannedUntil
  {
    assert h[..|h| - 1 + 1] == h;
    CountsChain(s, h);
  }

  lemma {:induction false} LatestBanKeepsDate(s: Settings, h: seq<Event>, j: nat)
    requires s.maxFailures >= 1 && IsLatestBan(s, h, j)
    ensures RowAfter(s, h).bannedUntil == RowAfter(s, h[..j + 1]).bannedUntil
  {
    if j == |h| - 1 {
      assert h[..j + 1] == h;
    } else {
      var q := h[..|h| - 1];
      LatestBanStep(s, h, j);
      LatestBanKeepsDate(s, q, j);
      NoBanKeepsDate(s, h);
      assert q[..j + 1] == h[..j + 1];
    }
  }

  lemma BanSetsDate(s: Settings, h: seq<Event>)
    requires s.maxFailures >= 1 && h != [] && BanAt(s, h, |h| - 1)
    ensures var a := RowAfter(s, h); a.bannedUntil == Some(h[|h| - 1].at + BanFor(s, a.banLevel))
  {
    assert h[..|h| - 1 + 1] == h;
    CountsChain(s, h);
  }

  /** An address is banned until its latest ban's time plus that ban's length, and a success lifts every ban. */
  lemma BannedUntilLatestBan(s: Settings, h: seq<Event>, j: nat)
    requires s.maxFailures >= 1 && IsLatestBan(s, h, j)
    ensures RowAfter(s, h).bannedUntil == Some(h[j].at + BanFor(s, RowAfter(s, h[..j + 1]).banLevel))
  {
    LatestBanKeepsDate(s, h, j);
    var q := h[..j + 1];
    assert q[..j + 1] == q;
    BanSetsDate(s, q);
  }

  lemma {:induction false} NotBannedWithoutBan(s: Settings, h: seq<Event>)
    requires s.maxFailures >= 1 && forall j: nat :: !IsLatestBan(s, h, j)
    ensures RowAfter(s, h).bannedUntil.None?
  {
    if h != [] && h[|h| - 1].Failure? {
      var n := |h| - 1;
      assert h[..n + 1] == h;
      assert BanAt(s, h, n) ==> IsLatestBan(s, h, n);
      CountsChain(s, h);
      forall j: nat ensures !IsLatestBan(s, h[..n], j) {
        LatestBanStep(s, h, j);
      }
      NotBannedWithoutBan(s, h[..n]);
    }
  }

  /** When a ban ends. */
  function BanEnd(s: Settings, h: seq<Event>, j: nat): Time
    requires j < |h| && h[j].Failure?
  {
    h[j].at + BanFor(s, RowAfter(s, h[..j + 1]).banLevel)
  }

  /** The latest ban, if no success has lifted it, has not ended. */
  ghost predicate IsBanned(s: Settings, h: seq<Event>, now: Time)
    requires s.maxFailures >= 1
  {
    exists j :: IsLatestBan(s, h, j) && now < BanEnd(s, h, j)
  }

  /** The row knows all there is to know about it. */
  lemma BannedByRow(s: Settings, h: seq<Event>, now: Time)
    requires s.maxFailures >= 1
    ensures var until := RowAfter(s, h).bannedUntil;
            && (IsBanned(s, h, now) <==> until.Some? && now < until.value)
            && forall j :: IsLatestBan(s, h, j) ==> until == Some(BanEnd(s, h, j))
    ensures RowAfter(s, h).bannedUntil.Some? ==> exists j :: IsLatestBan(s, h, j)
  {
    forall j | IsLatestBan(s, h, j) ensures RowAfter(s, h).bannedUntil == Some(BanEnd(s, h, j)) {
      BannedUntilLatestBan(s, h, j);
    }
    if forall j: nat :: !IsLatestBan(s, h, j) {
      NotBannedWithoutBan(s, h);
    }
  }

  /** A failure that comes in now. */
  lemma BannedNow(s: Settings, h: seq<Event>, now: Time)
    requires s.maxFailures >= 1
    ensures var g := h + [Failure(now)];
            && (Bans(s, RowAfter(s, h), now) <==> BanAt(s, g, |h|))
            && (BanAt(s, g, |h|) ==> RowAfter(s, g).bannedUntil == Some(BanEnd(s, g, |h|)))
  {
    var g := h + [Failure(now)];
    assert g[..|h|] == h && g[..|h| + 1] == g;
    CountsChain(s, g);
    if BanAt(s, g, |h|) {
      BanSetsDate(s, g);
    }
  }

  // ----- Rates -----

  /** The login page asks `Allow` before it records a failure, and time does not run backwards. */
  ghost predicate Guarded(s: Settings, h: seq<Event>) {
    Asked(s, h) && Ascending(h)
  }

  ghost predicate Asked(s: Settings, h: seq<Event>) {
    forall i :: 0 <= i < |h| && h[i].Failure? ==> Allowed(RowAfter(s, h[..i]), h[i].at)
  }

  ghost predicate Ascending(h: seq<Event>) {
    forall i, j :: 0 <= i < j < |h| && h[i].Failure? && h[j].Failure? ==> h[i].at <= h[j].at
  }

  /** Along failures that follow each other within the window the chain grows by one each. */
  lemma {:induction false} ChainGrows(s: Settings, h: seq<Event>, i: nat, j: nat)
    requires i <= j < |h| && h[i].Failure?
    requires forall k: nat :: i < k <= j ==> Follows(h, k, s.failureWindow)
    ensures Chain(s, h[..j + 1]) == Chain(s, h[..i + 1]) + (j - i)
    decreases j
  {
    if i < j {
      ChainGrows(s, h, i, j - 1);
      assert Follows(h, j, s.failureWindow);
      var p := h[..j + 1];
      assert p[..j] == h[..j] && p[j] == h[j] && p[j - 1] == h[j - 1];
    }
  }

  /** A ban keeps the next failure away for at least the shortest ban. */
  lemma BanDelays(s: Settings, h: seq<Event>, j: nat)
    requires s.maxFailures >= 1 && Fits(s.baseBan, s.maxBan) && Guarded(s, h)
    requires j + 1 < |h| && h[j + 1].Failure? && BanAt(s, h, j)
    ensures h[j].at + Min(s.baseBan, s.maxBan) <= h[j + 1].at
  {
    var p := h[..j + 1];
    CountsChain(s, p);
    assert p[..j] == h[..j];
    LevelNonNegative(s, h[..j]);
    BansGrow(s, RowAfter(s, p).banLevel);
    assert Allowed(RowAfter(s, h[..j + 1]), h[j + 1].at);
  }

  lemma {:induction false} LevelNonNegative(s: Settings, h: seq<Event>)
    ensures RowAfter(s, h).banLevel >= 0
  {
    if h != [] {
      LevelNonNegative(s, h[..|h| - 1]);
    }
  }

  /** The count is zero again in less than `m` steps. */
  lemma NextZero(c: nat, m: nat) returns (n: nat)
    requires m >= 1
    ensures n < m && Counted(c + n, m) == 0
  {
    n := 0;
    while Counted(c + n, m) != 0
      invariant n + (m - Counted(c + n, m)) == m - Counted(c, m) || Counted(c + n, m) == 0
      invariant Counted(c + n, m) == 0 ==> n == 0 || n == m - Counted(c, m)
      invariant Counted(c, m) == 0 ==> n == 0
      decreases if Counted(c + n, m) == 0 then 0 else m - Counted(c + n, m)
    {
      n := n + 1;
    }
  }

  /** `maxFailures` failures in one chain contain a ban. */
  lemma BanWithin(s: Settings, h: seq<Event>, i: nat) returns (j: nat)
    requires s.maxFailures >= 1 && i + s.maxFailures <= |h| && h[i].Failure?
    requires forall k: nat :: i < k < i + s.maxFailures ==> Follows(h, k, s.failureWindow)
    ensures i <= j < i + s.maxFailures && BanAt(s, h, j)
  {
    var m := s.maxFailures;
    var c := Chain(s, h[..i + 1]);
    var n := NextZero(c, m);
    j := i + n;
    ChainGrows(s, h, i, j);
    assert j > i ==> Follows(h, j, s.failureWindow);
  }

  lemma ChainDelays(s: Settings, h: seq<Event>, i: nat)
    requires s.maxFailures >= 1 && Fits(s.baseBan, s.maxBan) && Guarded(s, h) && i + s.maxFailures < |h|
    requires forall k :: i <= k <= i + s.maxFailures ==> h[k].Failure?
    requires forall k: nat :: i < k < i + s.maxFailures ==> Follows(h, k, s.failureWindow)
    ensures h[i + s.maxFailures].at - h[i].at >= Min(s.baseBan, s.maxBan)
  {
    var j := BanWithin(s, h, i);
    BanDelays(s, h, j);
  }

  /** Any `maxFailures + 1` consecutive failures of one address take at least a window or a shortest ban. */
  lemma RateBound(s: Settings, h: seq<Event>, i: nat)
    requires s.maxFailures >= 1 && Fits(s.baseBan, s.maxBan) && Guarded(s, h) && i + s.maxFailures < |h|
    requires forall k :: i <= k <= i + s.maxFailures ==> h[k].Failure?
    ensures h[i + s.maxFailures].at - h[i].at >= Min(s.failureWindow, Min(s.baseBan, s.maxBan))
  {
    if forall k: nat :: i < k < i + s.maxFailures ==> Follows(h, k, s.failureWindow) {
      ChainDelays(s, h, i);
    }
  }

  /** The lengths of the first `n` bans together. */
  function BansUpTo(s: Settings, n: nat): Time {
    if n == 0 then 0 else BansUpTo(s, n - 1) + BanFor(s, n)
  }

  /** From event `p` on: failures without a success or a long pause, and a level that starts at zero. */
  ghost predicate IsSeries(s: Settings, h: seq<Event>, p: nat) {
    && p < |h|
    && (p == 0 || h[p - 1].Success? || ResetAt(s, h, p))
    && (forall i :: p <= i < |h| ==> h[i].Failure?)
    && forall i: nat :: p < i < |h| ==> !ResetAt(s, h, i)
  }

  lemma SeriesPrefix(s: Settings, h: seq<Event>, p: nat, n: nat)
    requires s.maxFailures >= 1 && Guarded(s, h) && IsSeries(s, h, p) && p < n <= |h|
    ensures Guarded(s, h[..n]) && IsSeries(s, h[..n], p)
  {
    PrefixAgrees(s, h, n);
    forall j | 0 <= j < n ensures h[..n][..j] == h[..j] {
    }
  }

  /** A series starts from level zero. */
  lemma SeriesStart(s: Settings, h: seq<Event>, p: nat)
    requires s.maxFailures >= 1 && IsSeries(s, h, p) && |h| == p + 1
    ensures RowAfter(s, h).banLevel == if BanAt(s, h, p) then 1 else 0
  {
    LevelStep(s, h);
    assert p > 0 ==> h[..p][p - 1] == h[p - 1];
  }

  /** By the time of a failure at level `n`, the bans before it have been sat out in full. */
  lemma {:induction false} BansAddUp(s: Settings, h: seq<Event>, p: nat)
    requires s.maxFailures >= 1 && Guarded(s, h) && IsSeries(s, h, p)
    ensures var a, n := RowAfter(s, h), |h| - 1;
            && a.banLevel >= 0
            && (a.banLevel > 0 ==> a.bannedUntil.Some? && h[p].at + BansUpTo(s, a.banLevel) <= a.bannedUntil.value)
            && (BanAt(s, h, n) ==> a.banLevel > 0 && h[p].at + BansUpTo(s, a.banLevel - 1) <= h[n].at)
  {
    var n := |h| - 1;
    CountsChain(s, h);
    assert h[..n + 1] == h;
    if n == p {
      SeriesStart(s, h, p);
    } else {
      LevelStep(s, h);
      SeriesPrefix(s, h, p, n);
      BansAddUp(s, h[..n], p);
      assert Allowed(RowAfter(s, h[..n]), h[n].at);
    }
  }

  /** The level of a series counts its own bans. */
  lemma SeriesLevel(s: Settings, h: seq<Event>, p: nat)
    requires s.maxFailures >= 1 && IsSeries(s, h, p)
    ensures RowAfter(s, h).banLevel == |BansSince(s, h, p)|
  {
    if p > 0 && h[p - 1].Success? {
      LevelCountsBans(s, h, p - 1);
      assert BansSince(s, h, p - 1) == BansSince(s, h, p);
    } else {
      LevelCountsBans(s, h, p);
    }
  }

  /**
   The k-th ban of a series comes no sooner than all earlier bans together after its first failure. The history ends
   with that ban; what comes later does not matter.
   */
  lemma KthBanTime(s: Settings, h: seq<Event>, p: nat)
    requires s.maxFailures >= 1 && Guarded(s, h) && IsSeries(s, h, p) && BanAt(s, h, |h| - 1)
    ensures var k := |BansSince(s, h, p)|; k >= 1 && h[p].at + BansUpTo(s, k - 1) <= h[|h| - 1].at
  {
    BansAddUp(s, h, p);
    SeriesLevel(s, h, p);
  }
}
