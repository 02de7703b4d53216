/**
 Runs in which a command stays open for ever longer. They show that the deadline needs an interval shorter than the
 backoff, or else prompt passes and no late release.
 */
module CommandEndless {
  import opened Options
  import opened CommandTypes
  import opened CommandStore
  import opened CommandReaper
  import opened CommandService
  import opened CommandMachine
  import opened CommandSafety
  import opened CommandDeadline
  import opened CommandStories

  // ----- Late releases -----

  /**
   With an interval of one backoff the deadline does not hold: late releases keep a command open past it. All passes
   are undisturbed.
   */
  lemma LateReleasesMissDeadline(cfg: Settings, id: Id, d: Id, timeoutSec: nat) returns (y: Story)
    requires cfg.retryBackoff > 0
    ensures Patrolled(cfg, id, y, cfg.retryBackoff) && AllPrompt(cfg, Init(0), y.steps)
    ensures forall e :: e in y.steps && e.Create? ==> e.timeoutSec >= 0
    ensures y.r.c.status.Pending? && y.r.c.expiresAt.Some? && y.s.clock > Deadline(cfg, y.r.c, cfg.retryBackoff)
  {
    var c := NewCommand(cfg, d, "", "", timeoutSec, 0);
    var end := Deadline(cfg, c, cfg.retryBackoff);
    var n := if end < 0 then 0 else end + 1;
    y := ReleasedForLong(cfg, id, d, timeoutSec, n);
    TimesIs(n, cfg.retryBackoff);
    assert n * cfg.retryBackoff >= n;
    UndisturbedIsPrompt(cfg, Init(0), y.steps);
  }

  // ----- Slow passes -----

  /**
   With passes that take a backoff the deadline does not hold either, though nothing is released: if the limit allows
   `n` retries, a command can be open at the time of the n-th pass.
   */
  lemma SlowPassesMissDeadline(cfg: Settings, id: Id, d: Id, q: string, n: nat) returns (y: Story)
    requires cfg.retryBackoff >= 0 && n < cfg.defaultMaxAttempts
    requires n * (cfg.retryBackoff + 1) > cfg.pendingTtl + LeaseTime(cfg) + 4 * (2 * cfg.retryBackoff + 1)
    ensures var gap := 2 * cfg.retryBackoff + 1;
            && Patrolled(cfg, id, y, gap) && NoLateReleases(cfg, Init(0), y.steps, id)
            && y.r.c.status.Sent? && y.r.c.expiresAt.Some? && y.s.clock > Deadline(cfg, y.r.c, gap)
    ensures forall e :: e in y.steps && e.Create? ==> e.timeoutSec >= 0
  {
    TimesIs(n, cfg.retryBackoff + 1);
    y := PulledForLong(cfg, id, d, q, n);
    NoReleaseNoLateRelease(cfg, Init(0), y.steps, id);
  }
}
