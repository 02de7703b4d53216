/**
 Every command ends. If a reaper pass is read and carried out in every interval of length `gap`, a command is closed by
 expiry + lease + 2 timeouts + 4 gaps, provided that `gap` is shorter than the retry backoff. With longer intervals this
 still holds in runs whose passes end within one backoff and in which no release puts the command back in the queue at
 or after its expiry. Other parties may act at any point of a pass.
 */
module CommandDeadline {
  import opened Options
  import opened CommandTypes
  import opened CommandStore
  import opened CommandReaper
  import opened CommandService
  import opened CommandMachine
  import opened CommandSafety

  /** No step comes later than one gap after the clock reading of the last pass that has ended. */
  ghost predicate OnTime(s: Sys, e: Step, gap: Time) {
    e.now <= s.lastPass + gap
  }

  /** The step does not put command `id` back in the queue at or after its expiry. */
  ghost predicate NoLateRelease(s: Sys, e: Step, id: Id) {
    e.WsDone? && e.ticket in s.flights && s.flights[e.ticket].id == id && s.flights[e.ticket].outcome == Some(false)
    && id in s.rows && s.rows[id].c.status.Leased? && s.rows[id].c.expiresAt.Some?
    ==> e.now < s.rows[id].c.expiresAt.value
  }

  ghost predicate AllOnTime(cfg: Settings, s: Sys, steps: seq<Step>, gap: Time)
    requires IsRun(cfg, s, steps)
    decreases |steps|
  {
    steps == [] || (OnTime(s, steps[0], gap) && AllOnTime(cfg, Next(cfg, s, steps[0]), steps[1..], gap))
  }

  ghost predicate NoLateReleases(cfg: Settings, s: Sys, steps: seq<Step>, id: Id)
    requires IsRun(cfg, s, steps)
    decreases |steps|
  {
    steps == [] || (NoLateRelease(s, steps[0], id) && NoLateReleases(cfg, Next(cfg, s, steps[0]), steps[1..], id))
  }

  /** Latest time a WebSocket or Pull hand-over can happen, counted from the expiry. */
  function SentBy(cfg: Settings, c: Command, gap: Time): Time
    requires c.expiresAt.Some?
  {
    c.expiresAt.value + LeaseTime(cfg) + 2 * gap
  }

  /** An acknowledgement extends an attempt once, by at most one timeout and one gap. */
  function AckedBy(cfg: Settings, c: Command, gap: Time): Time
    requires c.expiresAt.Some?
  {
    SentBy(cfg, c, gap) + TimeoutOf(c) + gap
  }

  function Deadline(cfg: Settings, c: Command, gap: Time): Time
    requires c.expiresAt.Some?
  {
    c.expiresAt.value + LeaseTime(cfg) + 2 * TimeoutOf(c) + 4 * gap
  }

  /** How late an open command can be, given that a pass read at `pass` has dealt with it. */
  ghost predicate Bounded(cfg: Settings, c: Command, gap: Time, pass: Time) {
    && c.expiresAt.Some?
    && c.startedAt.None?
    && c.timeoutSec >= 0
    && (c.ackedAt.Some? ==> c.ackedAt.value <= AckedBy(cfg, c, gap))
    && match c.status
       case Pending => pass <= c.expiresAt.value || Parked(cfg, c, gap, pass)
       case Leased =>
         && c.leaseUntil.Some?
         && pass < c.leaseUntil.value <= c.expiresAt.value + gap + LeaseTime(cfg)
       case Sent | Acked =>
         var start := EffectiveStart(c);
         && start.Some?
         && (c.status.Acked? ==> c.ackedAt.Some?)
         && (c.ackedAt.None? ==> start.value <= SentBy(cfg, c, gap))
         && (pass <= start.value + TimeoutOf(c) || pass <= SentBy(cfg, c, gap))
       case Running => false
       case _ => true
  }

  /** Released after its expiry, with a backoff that outlasts the next pass. */
  ghost predicate Parked(cfg: Settings, c: Command, gap: Time, pass: Time)
    requires c.expiresAt.Some?
  {
    c.leaseUntil.Some? && pass + gap < c.leaseUntil.value && pass + gap <= Deadline(cfg, c, gap)
  }

  ghost predicate OpenBounded(cfg: Settings, c: Command, gap: Time, pass: Time) {
    !IsTerminal(c.status) ==> Bounded(cfg, c, gap, pass)
  }

  /** The bound meets the deadline. */
  lemma BoundedMeetsDeadline(cfg: Settings, c: Command, gap: Time, pass: Time, clock: Time)
    requires Bounded(cfg, c, gap, pass) && gap >= 0 && !IsTerminal(c.status) && clock <= pass + gap
    ensures clock <= Deadline(cfg, c, gap)
  {
  }

  /** A late release does no harm if its backoff outlasts the next pass. */
  ghost predicate Quiet(cfg: Settings, s: Sys, e: Step, gap: Time, id: Id) {
    gap < cfg.retryBackoff || NoLateRelease(s, e, id)
  }

  /** What other parties may do to an open row between two passes. */
  ghost predicate OrderlyOp(cfg: Settings, c: Command, op: Op, gap: Time, now: Time) {
    match op
    case Lease(_, until) => until == now + LeaseTime(cfg)
    case ReleaseLease(until) =>
      c.status.Leased? ==> now + gap < until || (c.expiresAt.Some? && now < c.expiresAt.value)
    case RetryToPending(_, _) => false
    case ApplyResultStatus(status, _, _) => status in {Succeeded, Failed, Timeout}
    case _ => true
  }

  lemma OpKeepsBound(cfg: Settings, c: Command, op: Op, gap: Time, pass: Time, now: Time)
    requires OpenBounded(cfg, c, gap, pass) && gap >= 0
    requires pass <= now <= pass + gap && OrderlyOp(cfg, c, op, gap, now)
    ensures OpenBounded(cfg, Exec(c, op, now), gap, pass)
  {
  }

  /** A Pull takes a row from pending to sent at once. */
  lemma PullKeepsBound(cfg: Settings, c: Command, requestId: string, gap: Time, pass: Time, now: Time)
    requires OpenBounded(cfg, c, gap, pass) && gap >= 0
    requires pass <= now <= pass + gap && Available(c, now)
    ensures OpenBounded(cfg, ExecAll(c, PullOps(cfg, requestId, now), now), gap, pass)
  {
    ExecShort(c, PullOps(cfg, requestId, now), now);
  }

  /** An undisturbed pass leaves no stuck row, and returns a row to the queue only before its expiry. */
  lemma PassKeepsBound(cfg: Settings, c: Command, gap: Time, pass: Time, now: Time)
    requires OpenBounded(cfg, c, gap, pass) && gap >= 0
    requires pass <= now <= pass + gap
    ensures var d := Swept(c, cfg.retryBackoff, now);
            && OpenBounded(cfg, d, gap, now)
            && !IsStuck(d, now)
            && (IsActive(c.status) && d.status.Pending? ==> now < c.expiresAt.value)
  {
    SweepRow(c, cfg.retryBackoff, now);
  }

  // ----- Passes that others disturb -----

  /** The pass under way still has to deal with the row. */
  ghost predicate Due(s: Sys, id: Id)
    requires id in s.rows
  {
    || (s.phase.Retrying? && id in s.todo && IsStuck(s.todo[id], s.scanAt))
    || OverdueHere(s, id)
  }

  ghost predicate OverdueHere(s: Sys, id: Id)
    requires id in s.rows
  {
    !s.phase.Idle? && ExpiredPending(s.rows[id].c, s.scanAt) && (s.phase.Expiring? ==> id in s.overdue)
  }

  /** Put back by the pass under way after its expiry: nobody can take the row before the pass expires it. */
  ghost predicate Doomed(cfg: Settings, s: Sys, gap: Time, id: Id)
    requires id in s.rows
  {
    && OverdueHere(s, id)
    && s.rows[id].c.leaseUntil.Some? && s.scanAt + cfg.retryBackoff <= s.rows[id].c.leaseUntil.value
    && s.lastPass + gap <= Deadline(cfg, s.rows[id].c, gap)
  }

  /** Bounded by the last pass, and by the one under way unless that has yet to deal with the row. */
  ghost predicate RowInTime(cfg: Settings, s: Sys, gap: Time, id: Id)
    requires id in s.rows
  {
    && (OpenBounded(cfg, s.rows[id].c, gap, s.lastPass) || Doomed(cfg, s, gap, id))
    && (!s.phase.Idle? ==> OpenBounded(cfg, s.rows[id].c, gap, s.scanAt) || Due(s, id))
  }

  ghost predicate ClocksInTime(s: Sys, gap: Time) {
    && s.lastPass <= s.clock <= s.lastPass + gap
    && (!s.phase.Idle? ==> s.lastPass <= s.scanAt <= s.clock)
  }

  ghost predicate InTime(cfg: Settings, s: Sys, gap: Time, id: Id) {
    ClocksInTime(s, gap) && (id in s.rows ==> RowInTime(cfg, s, gap, id))
  }

  /** A row that is overdue for the pass under way and is taken before the pass reaches it. */
  lemma TakenInPass(cfg: Settings, c: Command, op: Op, gap: Time, pass: Time, scanAt: Time, now: Time)
    requires Bounded(cfg, c, gap, pass) && Available(c, now) && gap >= 0
    requires pass <= scanAt <= now <= pass + gap
    requires op.Lease? && op.until == now + LeaseTime(cfg)
    ensures Bounded(cfg, Effect(c, op, now), gap, scanAt)
  {
  }

  lemma PulledInPass(cfg: Settings, c: Command, requestId: string, gap: Time, pass: Time, scanAt: Time, now: Time)
    requires Bounded(cfg, c, gap, pass) && Available(c, now) && gap >= 0
    requires pass <= scanAt <= now <= pass + gap
    ensures Bounded(cfg, ExecAll(c, PullOps(cfg, requestId, now), now), gap, scanAt)
  {
    ExecShort(c, PullOps(cfg, requestId, now), now);
  }

  /** Steps of other parties than the reaper and Pull run at most one statement on a row, and that an orderly one. */
  lemma StepOpsOrderly(cfg: Settings, s: Sys, e: Step, gap: Time, id: Id)
    requires Enabled(cfg, s, e) && Quiet(cfg, s, e, gap, id) && id in s.rows && s.rows[id].c.expiresAt.Some?
    requires !e.Pull? && !e.Reap? && !e.ReapNext? && !e.ExpireNext?
    ensures var ops := RowOps(cfg, s, e, id);
            ops == [] || (|ops| == 1 && OrderlyOp(cfg, s.rows[id].c, ops[0], gap, e.now) && !ops[0].RetryToPending?)
  {
  }

  /** The steps of other parties than the reaper. */
  predicate IsForeign(e: Step) {
    !e.Reap? && !e.ScanActive? && !e.ReapNext? && !e.ScanExpired? && !e.ExpireNext? && !e.EndPass?
  }

  /** One orderly statement on a row, in or between passes. */
  lemma OrderlyKeepsRow(cfg: Settings, s: Sys, s': Sys, gap: Time, id: Id, op: Op)
    requires SamePass(s, s') && ClocksInTime(s, gap) && ClocksInTime(s', gap) && gap >= 0
    requires id in s.rows && id in s'.rows && RowInTime(cfg, s, gap, id) && s.rows[id].c.expiresAt.Some?
    requires !s.phase.Idle? ==> s'.clock < s.scanAt + cfg.retryBackoff
    requires OrderlyOp(cfg, s.rows[id].c, op, gap, s'.clock) && s'.rows[id].c == Exec(s.rows[id].c, op, s'.clock)
    ensures RowInTime(cfg, s', gap, id)
  {
    var c, now := s.rows[id].c, s'.clock;
    if OpenBounded(cfg, c, gap, s.lastPass) {
      OpKeepsBound(cfg, c, op, gap, s.lastPass, now);
    }
    if !s.phase.Idle? {
      if OpenBounded(cfg, c, gap, s.scanAt) {
        OpKeepsBound(cfg, c, op, gap, s.scanAt, now);
      } else if op.Lease? && Available(c, now) && OverdueHere(s, id) {
        TakenInPass(cfg, c, op, gap, s.lastPass, s.scanAt, now);
      }
    }
  }

  lemma PullKeepsRow(cfg: Settings, s: Sys, s': Sys, gap: Time, id: Id, requestId: string)
    requires SamePass(s, s') && ClocksInTime(s, gap) && ClocksInTime(s', gap) && gap >= 0
    requires id in s.rows && id in s'.rows && RowInTime(cfg, s, gap, id) && s.rows[id].c.expiresAt.Some?
    requires !s.phase.Idle? ==> s'.clock < s.scanAt + cfg.retryBackoff
    requires Available(s.rows[id].c, s'.clock)
    requires s'.rows[id].c == ExecAll(s.rows[id].c, PullOps(cfg, requestId, s'.clock), s'.clock)
    ensures RowInTime(cfg, s', gap, id)
  {
    var c, now := s.rows[id].c, s'.clock;
    assert !Doomed(cfg, s, gap, id);
    PullKeepsBound(cfg, c, requestId, gap, s.lastPass, now);
    if !s.phase.Idle? {
      PulledInPass(cfg, c, requestId, gap, s.lastPass, s.scanAt, now);
    }
  }

  predicate SamePass(s: Sys, s': Sys) {
    && s'.phase == s.phase && s'.scanAt == s.scanAt && s'.todo == s.todo && s'.overdue == s.overdue
    && s'.lastPass == s.lastPass && s.clock <= s'.clock
  }

  lemma ForeignKeepsRow(cfg: Settings, s: Sys, e: Step, gap: Time, id: Id)
    requires Enabled(cfg, s, e) && Prompt(cfg, s, e) && OnTime(s, e, gap) && Quiet(cfg, s, e, gap, id) && IsForeign(e)
    requires RowsOk(s) && InTime(cfg, s, gap, id) && gap >= 0 && id in s.rows
    ensures RowInTime(cfg, Next(cfg, s, e), gap, id)
  {
    var s', c, ops := Next(cfg, s, e), s.rows[id].c, RowOps(cfg, s, e, id);
    assert RowOk(s.rows[id]);
    DoAllExecutes(s.rows[id], ops, e.now);
    if e.Pull? {
      if id in e.ids {
        assert id in EligibleIds(Table(s), e.deviceId, e.now);
        PullKeepsRow(cfg, s, s', gap, id, e.requestId);
      }
    } else {
      StepOpsOrderly(cfg, s, e, gap, id);
      ExecShort(c, ops, e.now);
      if ops != [] {
        OrderlyKeepsRow(cfg, s, s', gap, id, ops[0]);
      }
    }
  }

  /** The start of a pass changes no row. */
  lemma ScanKeepsRow(cfg: Settings, s: Sys, e: Step, gap: Time, id: Id)
    requires Enabled(cfg, s, e) && OnTime(s, e, gap) && e.ScanActive?
    requires RowsOk(s) && InTime(cfg, s, gap, id) && id in s.rows
    ensures RowInTime(cfg, Next(cfg, s, e), gap, id)
  {
    assert RowOk(s.rows[id]);
    DoShort(s.rows[id], RowOps(cfg, s, e, id), e.now);
  }

  /** Neither do the second scan and the end of the pass. */
  lemma LaterScanKeepsRow(cfg: Settings, s: Sys, e: Step, gap: Time, id: Id)
    requires Enabled(cfg, s, e) && (e.ScanExpired? || e.EndPass?)
    requires InTime(cfg, s, gap, id) && id in s.rows
    ensures RowInTime(cfg, Next(cfg, s, e), gap, id)
  {
    DoShort(s.rows[id], RowOps(cfg, s, e, id), e.now);
  }

  lemma ReapNextKeepsRow(cfg: Settings, s: Sys, e: Step, gap: Time, id: Id)
    requires Enabled(cfg, s, e) && e.ReapNext?
    requires InTime(cfg, s, gap, id) && gap >= 0 && id in s.rows && RowOk(s.rows[id])
    ensures RowInTime(cfg, Next(cfg, s, e), gap, id)
  {
    var s', c, ops := Next(cfg, s, e), s.rows[id].c, RowOps(cfg, s, e, id);
    DoShort(s.rows[id], ops, s.scanAt);
  }

  lemma ExpireNextKeepsRow(cfg: Settings, s: Sys, e: Step, gap: Time, id: Id)
    requires Enabled(cfg, s, e) && e.ExpireNext?
    requires InTime(cfg, s, gap, id) && id in s.rows
    ensures RowInTime(cfg, Next(cfg, s, e), gap, id)
  {
    DoShort(s.rows[id], RowOps(cfg, s, e, id), s.scanAt);
  }

  lemma ReapKeepsRow(cfg: Settings, s: Sys, e: Step, gap: Time, id: Id)
    requires Enabled(cfg, s, e) && e.Reap? && OnTime(s, e, gap)
    requires InTime(cfg, s, gap, id) && gap >= 0 && id in s.rows
    ensures RowInTime(cfg, Next(cfg, s, e), gap, id)
  {
    var c := s.rows[id].c;
    DoAllExecutes(s.rows[id], RowOps(cfg, s, e, id), e.now);
    PassKeepsBound(cfg, c, gap, s.lastPass, e.now);
  }

  lemma StepKeepsRowInTime(cfg: Settings, s: Sys, e: Step, gap: Time, id: Id)
    requires Enabled(cfg, s, e) && Prompt(cfg, s, e) && OnTime(s, e, gap) && Quiet(cfg, s, e, gap, id)
    requires RowsOk(s) && InTime(cfg, s, gap, id) && gap >= 0 && id in s.rows
    ensures RowInTime(cfg, Next(cfg, s, e), gap, id)
  {
    assert RowOk(s.rows[id]);
    if e.Reap? {
      ReapKeepsRow(cfg, s, e, gap, id);
    } else if e.ReapNext? {
      ReapNextKeepsRow(cfg, s, e, gap, id);
    } else if e.ExpireNext? {
      ExpireNextKeepsRow(cfg, s, e, gap, id);
    } else if IsForeign(e) {
      ForeignKeepsRow(cfg, s, e, gap, id);
    } else if e.ScanActive? {
      ScanKeepsRow(cfg, s, e, gap, id);
    } else {
      LaterScanKeepsRow(cfg, s, e, gap, id);
    }
  }

  lemma StepKeepsInTime(cfg: Settings, s: Sys, e: Step, gap: Time, id: Id)
    requires Enabled(cfg, s, e) && Prompt(cfg, s, e) && OnTime(s, e, gap) && Quiet(cfg, s, e, gap, id)
    requires RowsOk(s) && InTime(cfg, s, gap, id) && gap >= 0 && cfg.pendingTtl >= 0
    requires e.Create? ==> e.timeoutSec >= 0
    ensures InTime(cfg, Next(cfg, s, e), gap, id)
  {
    if id in s.rows {
      StepKeepsRowInTime(cfg, s, e, gap, id);
    }
  }

  /** Whatever the other parties do, an open command is never older than its deadline. */
  lemma EveryCommandEnds(cfg: Settings, start: Time, steps: seq<Step>, gap: Time, id: Id)
    requires IsRun(cfg, Init(start), steps) && AllOnTime(cfg, Init(start), steps, gap)
    requires gap < cfg.retryBackoff ||
             (AllPrompt(cfg, Init(start), steps) && NoLateReleases(cfg, Init(start), steps, id))
    requires gap >= 0 && cfg.pendingTtl >= 0
    requires forall e :: e in steps && e.Create? ==> e.timeoutSec >= 0
    requires id in Run(cfg, Init(start), steps).rows
    ensures var s := Run(cfg, Init(start), steps);
            var c := s.rows[id].c;
            c.expiresAt.Some? && (s.clock > Deadline(cfg, c, gap) ==> IsTerminal(c.status))
  {
    RunKeepsInTime(cfg, Init(start), steps, gap, id);
    RunIsSafe(cfg, Init(start), steps);
    var s := Run(cfg, Init(start), steps);
    assert RowOk(s.rows[id]);
    if !IsTerminal(s.rows[id].c.status) && !Doomed(cfg, s, gap, id) {
      BoundedMeetsDeadline(cfg, s.rows[id].c, gap, s.lastPass, s.clock);
    }
  }

  lemma {:induction false} RunKeepsInTime(cfg: Settings, s: Sys, steps: seq<Step>, gap: Time, id: Id)
    requires IsRun(cfg, s, steps) && AllOnTime(cfg, s, steps, gap)
    requires gap < cfg.retryBackoff || (AllPrompt(cfg, s, steps) && NoLateReleases(cfg, s, steps, id))
    requires RowsOk(s) && InTime(cfg, s, gap, id) && gap >= 0 && cfg.pendingTtl >= 0
    requires forall e :: e in steps && e.Create? ==> e.timeoutSec >= 0
    ensures InTime(cfg, Run(cfg, s, steps), gap, id)
    decreases |steps|
  {
    if steps != [] {
      assert steps[0] in steps;
      assert Prompt(cfg, s, steps[0]);
      StepKeepsRows(cfg, s, steps[0]);
      StepKeepsInTime(cfg, s, steps[0], gap, id);
      RunKeepsInTime(cfg, Next(cfg, s, steps[0]), steps[1..], gap, id);
    }
  }
}
