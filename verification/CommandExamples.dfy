/** Runs that show where the bounds of the other modules are reached and where stronger statements fail. */
module CommandExamples {
  import opened Options
  import opened CommandTypes
  import opened CommandStore
  import opened CommandReaper
  import opened CommandService
  import opened CommandMachine
  import opened CommandSafety
  import opened CommandTiming
  import opened CommandFairness
  import opened CommandStories

  // ----- Second deliveries -----

  /** A command with a timeout of a minute that gets no answer is pulled a second time. */
  lemma PulledTwice(cfg: Settings, id: Id, d: Id, q: string) returns (y: Story)
    requires Usual(cfg, 2)
    ensures var order := Message(d, DeliverPayload(id, "", "", 60));
            && Told(cfg, id, y)
            && y.s.log == [Delivery(id, 1, ViaPull, true, order), Delivery(id, 2, ViaPull, true, order)]
  {
    y := ThenCreate(cfg, id, d, 60);
    y := ThenPull(cfg, id, y, q, 0);
    y := ThenRetry(cfg, id, y, 61 * SECOND);
    y := ThenPull(cfg, id, y, q, 71 * SECOND);
  }

  /** Written to the WebSocket first, and pulled after the retry. */
  lemma DeliveredByBothChannels(cfg: Settings, id: Id, d: Id, q: string) returns (y: Story)
    requires Usual(cfg, 2)
    ensures var order := Message(d, DeliverPayload(id, "", "", 60));
            && Told(cfg, id, y)
            && y.s.log == [Delivery(id, 1, ViaWs, true, order), Delivery(id, 2, ViaPull, true, order)]
  {
    y := ThenCreate(cfg, id, d, 60);
    y := ThenDelivered(cfg, id, y, 0, true, 0);
    y := ThenRetry(cfg, id, y, 61 * SECOND);
    y := ThenPull(cfg, id, y, q, 71 * SECOND);
  }

  // ----- Attempts that are cut short -----

  /**
   The first attempt is acknowledged and gets no result. The second one is timed out a second after its lease, although
   the command has a minute.
   */
  lemma CutShort(cfg: Settings, id: Id, d: Id, q: string) returns (y: Story, z: Story)
    requires Usual(cfg, 2)
    ensures Told(cfg, id, y) && y.r.c.status.Sent? && y.r.h.ackedBefore
    ensures TimeoutOf(y.r.c) == 60 * SECOND && y.r.h.leases != [] && LastLease(y.r) == 72 * SECOND
    ensures Told(cfg, id, z) && z.steps == y.steps + [Reap(73 * SECOND)] && z.r.c.status.Timeout?
    ensures CutShortBy(cfg, y.s, id, [], Reap(73 * SECOND))
  {
    y := AckedAndRetried(cfg, id, d, q, SECOND, 62 * SECOND);
    y := ThenPull(cfg, id, y, q, 72 * SECOND);
    z := ThenTimeout(cfg, id, y, 73 * SECOND);
    TimeoutIsCut(cfg, id, y, 73 * SECOND);
  }

  lemma TimeoutIsCut(cfg: Settings, id: Id, y: Story, now: Time)
    requires y.s.rows == map[id := y.r] && y.s.phase.Idle? && y.s.clock <= now
    requires IsStuck(y.r.c, now) && y.r.c.attempts >= y.r.c.maxAttempts
    requires y.r.h.leases != [] && now <= LastLease(y.r) + TimeoutOf(y.r.c)
    ensures CutShortBy(cfg, y.s, id, [], Reap(now))
  {
    SweepDo(y.r, cfg.retryBackoff, now);
  }

  /**
   A write that outlives its lease: the pass has read the row as leased and takes it out of `sent` at the very moment
   it is sent, a minute after the lease and whatever the timeout.
   */
  lemma SentDuringPass(cfg: Settings, id: Id, d: Id, timeoutSec: nat) returns (y: Story, z: Story)
    requires Usual(cfg, 2)
    ensures Told(cfg, id, y) && y.r.c.status.Sent? && y.r.c.sentAt == Some(60 * SECOND)
    ensures Told(cfg, id, z) && z.steps == y.steps + [ReapNext(id, 60 * SECOND)] && z.r.c.status.Pending?
    ensures !y.r.h.ackedBefore && y.r.h.leases != [] && LastLease(y.r) == 0 && y.r.c.timeoutSec == timeoutSec
    ensures timeoutSec >= 60 ==> CutShortBy(cfg, y.s, id, [], ReapNext(id, 60 * SECOND))
  {
    var seen;
    y, seen := LeasedAndScanned(cfg, id, d, timeoutSec);
    y := ThenWrite(cfg, id, y, 0, true, 60 * SECOND);
    y := ThenDone(cfg, id, y, 0, true, 60 * SECOND);
    z := ThenRetryScanned(cfg, id, y, seen, 60 * SECOND);
    if timeoutSec >= 60 {
      SeenStuckIsCut(cfg, y.s, id);
    }
  }

  // ----- Where the bounds on leases are reached -----

  /** A pass that takes as long as the backoff: the command is leased twice at one instant. */
  lemma SlowPassBreaksSpacing(cfg: Settings, id: Id, d: Id) returns (y: Story)
    requires Usual(cfg, 3)
    ensures Told(cfg, id, y) && |y.r.h.leases| == 3
    ensures y.r.h.leases[1].at == y.r.h.leases[2].at == y.s.clock == y.s.scanAt + cfg.retryBackoff
    ensures y.s.flights.Keys == {1, 2} && y.s.flights[1] == Flight(id, 2, y.s.clock, None) && y.r.c.status.Leased?
    ensures y.s.clock == 70 * SECOND
  {
    var seen;
    y, seen := ReleasedInPass(cfg, id, d);
    y := ThenLease(cfg, id, y, 1, 70 * SECOND);
    y := ThenRetryScanned(cfg, id, y, seen, 70 * SECOND);
    y := ThenLease(cfg, id, y, 2, 70 * SECOND);
  }

  /** The same slow pass: a delivery that ends at once marks someone else's lease as sent. */
  lemma SlowPassBreaksOwnLease(cfg: Settings, id: Id, d: Id) returns (y: Story, z: Story)
    requires Usual(cfg, 3)
    ensures Told(cfg, id, y) && 1 in y.s.flights && y.s.flights[1].at == y.s.clock == 70 * SECOND
    ensures y.r.c.status.Leased? && !HoldsLease(y.s, y.s.flights[1])
    ensures Told(cfg, id, z) && z.steps == y.steps + [WsDone(1, 70 * SECOND)] && z.r.c.status.Sent?
  {
    y := SlowPassBreaksSpacing(cfg, id, d);
    y := ThenWrite(cfg, id, y, 1, true, 70 * SECOND);
    z := ThenDone(cfg, id, y, 1, true, 70 * SECOND);
  }

  /** And it takes a row out of an attempt at the instant of its lease, on account of the attempt before. */
  lemma SlowPassBreaksFairness(cfg: Settings, id: Id, d: Id) returns (y: Story, z: Story)
    requires Usual(cfg, 3)
    ensures Told(cfg, id, y) && y.r.c.status.Leased? && y.r.h.leases != [] && LastLease(y.r) == 70 * SECOND
    ensures Told(cfg, id, z) && z.steps == y.steps + [ReapNext(id, 70 * SECOND)] && z.r.c.status.Pending?
  {
    var seen;
    y, seen := ReleasedInPass(cfg, id, d);
    y := ThenLease(cfg, id, y, 1, 70 * SECOND);
    z := ThenRetryScanned(cfg, id, y, seen, 70 * SECOND);
  }

  /** A delivery that ends one backoff after its lease marks someone else's lease as sent. */
  lemma LateEndHitsOthers(cfg: Settings, id: Id, d: Id, q: string) returns (y: Story, z: Story)
    requires Usual(cfg, 3)
    ensures Told(cfg, id, y) && 0 in y.s.flights && y.s.flights[0].at + cfg.retryBackoff == 81 * SECOND
    ensures y.r.c.status.Leased? && !HoldsLease(y.s, y.s.flights[0])
    ensures Told(cfg, id, z) && z.steps == y.steps + [WsDone(0, 81 * SECOND)] && z.r.c.status.Sent?
  {
    y := AckedAndRetried(cfg, id, d, q, 0, 61 * SECOND);
    y := LeasedAckedRetried(cfg, id, y, 71 * SECOND);
    y := ThenLease(cfg, id, y, 1, 81 * SECOND);
    y := ThenWrite(cfg, id, y, 0, true, 81 * SECOND);
    z := ThenDone(cfg, id, y, 0, true, 81 * SECOND);
  }

  // ----- Where the bounds on attempts and deliveries are reached -----

  /**
   For every limit and every number of failed writes there is a run with as many attempts as the ledger allows:
   all retries are used up, then come the failed writes, then one more lease.
   */
  lemma LedgerBoundReached(cfg: Settings, id: Id, d: Id, releases: nat) returns (y: Story)
    requires cfg.defaultMaxAttempts >= 1 && cfg.retryBackoff >= 0
    requires (cfg.defaultMaxAttempts - 1) * (LeaseTime(cfg) + cfg.retryBackoff) < cfg.pendingTtl
    ensures Told(cfg, id, y) && y.r.h.releases == releases
    ensures y.r.c.attempts == y.r.c.maxAttempts + releases == cfg.defaultMaxAttempts + releases
  {
    TimesIs(cfg.defaultMaxAttempts - 1, LeaseTime(cfg) + cfg.retryBackoff);
    y := OnlyRetries(cfg, id, d, cfg.defaultMaxAttempts - 1);
    y := ThenReleases(cfg, id, y, releases);
    var until := if y.r.c.leaseUntil.Some? then y.r.c.leaseUntil.value else 0;
    y := ThenLease(cfg, id, y, y.r.c.attempts, if until < y.s.clock then y.s.clock else until);
  }

  /** For every limit there is a run with as many hand-overs without an error. */
  lemma CleanWritesReachLimit(cfg: Settings, id: Id, d: Id, q: string) returns (y: Story)
    requires cfg.defaultMaxAttempts >= 1 && cfg.retryBackoff >= 0
    requires (cfg.defaultMaxAttempts - 1) * (61 * SECOND + cfg.retryBackoff) < cfg.pendingTtl
    ensures Told(cfg, id, y) && |CleanWrites(y.s.log, id)| == y.r.c.maxAttempts == cfg.defaultMaxAttempts
  {
    var n := cfg.defaultMaxAttempts - 1;
    TimesIs(n, 61 * SECOND + cfg.retryBackoff);
    y := PulledAndRetried(cfg, id, d, q, n);
    y := ThenPull(cfg, id, y, q, y.s.clock + cfg.retryBackoff);
    AllClean(y.s.log, id);
  }
}
