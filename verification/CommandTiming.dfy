/**
 Times of leases, in runs whose reaper passes end within one backoff of their scan. Other parties may act at any point
 of a pass.
 */
module CommandTiming {
  import opened Options
  import opened CommandTypes
  import opened CommandReaper
  import opened CommandService
  import opened CommandMachine
  import opened CommandSafety

  function LastLease(r: Row): Time
    requires r.h.leases != []
  {
    r.h.leases[|r.h.leases| - 1].at
  }

  /** Successive leases of a row lie at least one backoff apart. */
  ghost predicate Spaced(r: Row, backoff: Time) {
    forall i :: 0 < i < |r.h.leases| ==> r.h.leases[i - 1].at + backoff <= r.h.leases[i].at
  }

  /** An acknowledgement lies before the lease that follows it. */
  predicate AckedEarlier(ackedAt: Time, lease: Time, backoff: Time) {
    backoff > 0 ==> ackedAt < lease
  }

  /** Nothing in the row lies in the future, and a pending row carries its backoff. */
  ghost predicate Dated(r: Row, backoff: Time, clock: Time) {
    && (forall i :: 0 <= i < |r.h.leases| ==> r.h.leases[i].at <= clock)
    && (r.c.ackedAt.Some? ==> r.c.ackedAt.value <= clock)
    && (r.c.status.Pending? && r.h.leases != [] ==>
          && r.c.leaseUntil.Some?
          && LastLease(r) + backoff <= r.c.leaseUntil.value
          && (r.c.ackedAt.Some? ==> AckedEarlier(r.c.ackedAt.value, r.c.leaseUntil.value, backoff)))
  }

  /** Where the time stamps of the current attempt come from. */
  ghost predicate Stamped(r: Row, backoff: Time) {
    && (r.c.ackedAt.Some? <==> r.h.ackedNow || r.h.ackedBefore)
    && (r.c.status.Leased? || r.c.status.Sent? ==> !r.h.ackedNow)
    && (r.c.status.Acked? ==> r.h.ackedNow)
    && (r.h.leases == [] ==> r.c.ackedAt.None?)
    && (IsActive(r.c.status) && r.h.leases != [] ==>
          && (r.h.ackedBefore ==> AckedEarlier(r.c.ackedAt.value, LastLease(r), backoff))
          && (r.h.ackedNow && !r.h.ackedBefore ==> LastLease(r) <= r.c.ackedAt.value)
          && (r.c.status.Sent? ==> r.c.sentAt.Some? && LastLease(r) <= r.c.sentAt.value))
  }

  ghost predicate Timely(r: Row, backoff: Time, clock: Time) {
    Spaced(r, backoff) && Dated(r, backoff, clock) && Stamped(r, backoff)
  }

  /** The backoff every statement that returns a row to the queue carries. */
  predicate BacksOff(op: Op, backoff: Time, now: Time) {
    && (op.ReleaseLease? ==> op.retryAfter == now + backoff)
    && (op.RetryToPending? ==> op.retryAfter == now + backoff)
  }

  lemma OpKeepsTimely(r: Row, op: Op, backoff: Time, clock: Time, now: Time)
    requires RowOk(r) && Timely(r, backoff, clock) && clock <= now && IsQueueOp(op) && BacksOff(op, backoff, now)
    ensures Timely(Do(r, op, now), backoff, now)
  {
  }

  lemma {:induction false} OpsKeepTimely(r: Row, ops: seq<Op>, backoff: Time, clock: Time, now: Time)
    requires RowOk(r) && Timely(r, backoff, clock) && clock <= now
    requires forall op :: op in ops ==> IsQueueOp(op) && BacksOff(op, backoff, now)
    ensures Timely(DoAll(r, ops, now), backoff, now)
    decreases |ops|
  {
    if ops != [] {
      assert ops[0] in ops;
      OpKeepsRow(r, ops[0], now);
      OpKeepsTimely(r, ops[0], backoff, clock, now);
      OpsKeepTimely(Do(r, ops[0], now), ops[1..], backoff, now, now);
    }
  }

  /** A row left leased was leased by the WebSocket dispatcher, for its lease duration. */
  ghost predicate LeaseLength(cfg: Settings, r: Row) {
    r.c.status.Leased? && r.h.leases != [] ==> r.c.leaseUntil == Some(LastLease(r) + LeaseTime(cfg))
  }

  lemma {:induction false} OpsKeepLeaseLength(cfg: Settings, r: Row, ops: seq<Op>, now: Time)
    requires LeaseLength(cfg, r)
    requires forall op :: op in ops ==> IsQueueOp(op) && (op.Lease? ==> op.until == now + LeaseTime(cfg))
    ensures LeaseLength(cfg, DoAll(r, ops, now))
    decreases |ops|
  {
    if ops != [] {
      assert ops[0] in ops;
      OpsKeepLeaseLength(cfg, Do(r, ops[0], now), ops[1..], now);
    }
  }

  // ----- What a pass has read -----

  /** Time that had passed since the lease of an attempt when the reaper read the row in status `seen`. */
  ghost predicate WaitedLongEnough(cfg: Settings, seen: Status, r: Row, at: Time) {
    && r.h.leases != []
    && (seen.Leased? ==> at >= LastLease(r) + LeaseTime(cfg))
    && (!seen.Leased? && !r.h.ackedBefore ==> at - LastLease(r) > TimeoutOf(r.c))
  }

  lemma StuckWaited(cfg: Settings, r: Row, clock: Time, now: Time)
    requires RowOk(r) && Timely(r, cfg.retryBackoff, clock) && LeaseLength(cfg, r) && IsStuck(r.c, now)
    ensures WaitedLongEnough(cfg, r.c.status, r, now)
  {
  }

  /** Until the pass handles it, a row it has read is in the attempt it read, or keeps its backoff. */
  ghost predicate SeenRow(cfg: Settings, r: Row, seen: Command, scanAt: Time) {
    && r.h.leases != [] && LastLease(r) <= scanAt
    && (r.c.status.Pending? ==> r.c.leaseUntil.Some? && scanAt + cfg.retryBackoff <= r.c.leaseUntil.value)
    && (IsStuck(seen, scanAt) ==> WaitedLongEnough(cfg, seen.status, r, scanAt))
  }

  lemma {:induction false} OpsKeepSeenRow(cfg: Settings, r: Row, ops: seq<Op>, seen: Command, scanAt: Time, now: Time)
    requires SeenRow(cfg, r, seen, scanAt) && scanAt <= now < scanAt + cfg.retryBackoff
    requires forall op :: op in ops ==> IsQueueOp(op) && BacksOff(op, cfg.retryBackoff, now)
    ensures SeenRow(cfg, DoAll(r, ops, now), seen, scanAt)
    decreases |ops|
  {
    if ops != [] {
      assert ops[0] in ops;
      OpsKeepSeenRow(cfg, Do(r, ops[0], now), ops[1..], seen, scanAt, now);
    }
  }

  ghost predicate SeenTimely(cfg: Settings, s: Sys) {
    && (!s.phase.Idle? ==> s.scanAt <= s.clock && (cfg.retryBackoff > 0 ==> s.clock < s.scanAt + cfg.retryBackoff))
    && forall id :: id in s.todo ==> id in s.rows && SeenRow(cfg, s.rows[id], s.todo[id], s.scanAt)
  }

  ghost predicate RowTimely(cfg: Settings, r: Row, clock: Time) {
    Timely(r, cfg.retryBackoff, clock) && LeaseLength(cfg, r)
  }

  ghost predicate RowsTimely(cfg: Settings, s: Sys) {
    forall id :: id in s.rows ==> RowTimely(cfg, s.rows[id], s.clock)
  }

  ghost predicate AllTimely(cfg: Settings, s: Sys) {
    RowsTimely(cfg, s) && SeenTimely(cfg, s)
  }

  lemma StepBacksOff(cfg: Settings, s: Sys, e: Step, id: Id)
    requires Enabled(cfg, s, e) && id in s.rows && !e.ReapNext? && !e.ExpireNext?
    ensures forall op :: op in RowOps(cfg, s, e, id) ==> BacksOff(op, cfg.retryBackoff, e.now)
    ensures !e.Pull? ==> forall op :: op in RowOps(cfg, s, e, id) ==> op.Lease? ==> op.until == e.now + LeaseTime(cfg)
  {
  }

  /** The updates of a pass carry the clock reading of its scan. */
  lemma LaterUpdateKeepsTimely(cfg: Settings, r: Row, op: Op, clock: Time, scanAt: Time, now: Time)
    requires RowOk(r) && RowTimely(cfg, r, clock) && scanAt <= clock <= now < scanAt + cfg.retryBackoff
    requires op.MarkTimeout? || op.MarkExpired? ||
             (op == Op.RetryToPending(REASON, scanAt + cfg.retryBackoff) && r.h.leases != [] && LastLease(r) <= scanAt)
    ensures RowTimely(cfg, Do(r, op, scanAt), now)
  {
  }

  /** The updates of a pass, on a row it has read. */
  lemma PassUpdateKeepsTimely(cfg: Settings, s: Sys, e: Step, id: Id)
    requires Enabled(cfg, s, e) && Prompt(cfg, s, e) && (e.ReapNext? || e.ExpireNext?) && id in s.rows
    requires RowOk(s.rows[id]) && RowTimely(cfg, s.rows[id], s.clock) && s.scanAt <= s.clock
    requires id in s.todo ==> SeenRow(cfg, s.rows[id], s.todo[id], s.scanAt)
    ensures RowTimely(cfg, Next(cfg, s, e).rows[id], e.now)
  {
    var r, ops := s.rows[id], RowOps(cfg, s, e, id);
    DoShort(r, ops, s.scanAt);
    if ops != [] {
      LaterUpdateKeepsTimely(cfg, r, ops[0], s.clock, s.scanAt, e.now);
    }
  }

  /** A Pull leaves no row leased. */
  lemma PullKeepsTimely(cfg: Settings, r: Row, requestId: string, clock: Time, now: Time)
    requires RowOk(r) && RowTimely(cfg, r, clock) && clock <= now
    ensures RowTimely(cfg, DoAll(r, PullOps(cfg, requestId, now), now), now)
  {
    var ops := PullOps(cfg, requestId, now);
    OpsKeepTimely(r, ops, cfg.retryBackoff, clock, now);
    DoShort(r, ops, now);
  }

  lemma OtherStepKeepsTimely(cfg: Settings, s: Sys, e: Step, id: Id)
    requires Enabled(cfg, s, e) && !e.ReapNext? && !e.ExpireNext? && id in s.rows
    requires RowOk(s.rows[id]) && RowTimely(cfg, s.rows[id], s.clock)
    ensures RowTimely(cfg, Next(cfg, s, e).rows[id], e.now)
  {
    var r, ops := s.rows[id], RowOps(cfg, s, e, id);
    if ops != [] && e.Pull? {
      PullKeepsTimely(cfg, r, e.requestId, s.clock, e.now);
    } else {
      StepBacksOff(cfg, s, e, id);
      RowOpsAreQueueOps(cfg, s, e, id);
      OpsKeepTimely(r, ops, cfg.retryBackoff, s.clock, e.now);
      OpsKeepLeaseLength(cfg, r, ops, e.now);
    }
  }

  /** A scan reads every active row as it is. */
  lemma ScanSees(cfg: Settings, s: Sys, e: Step, id: Id)
    requires Enabled(cfg, s, e) && e.ScanActive? && id in NextTodo(s, e)
    requires id in s.rows ==> RowOk(s.rows[id]) && RowTimely(cfg, s.rows[id], s.clock)
    ensures id in s.rows && SeenRow(cfg, Next(cfg, s, e).rows[id], NextTodo(s, e)[id], e.now)
  {
    var r := s.rows[id];
    DoShort(r, RowOps(cfg, s, e, id), e.now);
    if IsStuck(r.c, e.now) {
      StuckWaited(cfg, r, s.clock, e.now);
    }
  }

  lemma StepKeepsSeenRow(cfg: Settings, s: Sys, e: Step, id: Id)
    requires Enabled(cfg, s, e) && Prompt(cfg, s, e) && !e.ScanActive? && s.phase.Retrying? && s.scanAt <= s.clock
    requires id in s.rows && id in NextTodo(s, e) && id in s.todo && SeenRow(cfg, s.rows[id], s.todo[id], s.scanAt)
    ensures SeenRow(cfg, Next(cfg, s, e).rows[id], s.todo[id], s.scanAt)
  {
    var r, ops := s.rows[id], RowOps(cfg, s, e, id);
    if e.ReapNext? {
      DoShort(r, ops, s.scanAt);
    } else {
      StepBacksOff(cfg, s, e, id);
      RowOpsAreQueueOps(cfg, s, e, id);
      OpsKeepSeenRow(cfg, r, ops, s.todo[id], s.scanAt, e.now);
    }
  }

  lemma StepKeepsRowsTimely(cfg: Settings, s: Sys, e: Step)
    requires Enabled(cfg, s, e) && Prompt(cfg, s, e) && RowsOk(s) && AllTimely(cfg, s)
    ensures RowsTimely(cfg, Next(cfg, s, e))
  {
    var s' := Next(cfg, s, e);
    forall id | id in s'.rows ensures RowTimely(cfg, s'.rows[id], s'.clock) {
      if id in s.rows {
        assert RowOk(s.rows[id]) && RowTimely(cfg, s.rows[id], s.clock);
        if e.ReapNext? || e.ExpireNext? {
          PassUpdateKeepsTimely(cfg, s, e, id);
        } else {
          OtherStepKeepsTimely(cfg, s, e, id);
        }
      }
    }
  }

  lemma StepKeepsSeenTimely(cfg: Settings, s: Sys, e: Step)
    requires Enabled(cfg, s, e) && Prompt(cfg, s, e) && RowsOk(s) && RetriesOk(s) && AllTimely(cfg, s)
    ensures SeenTimely(cfg, Next(cfg, s, e))
  {
    var s' := Next(cfg, s, e);
    forall id | id in s'.todo ensures id in s'.rows && SeenRow(cfg, s'.rows[id], s'.todo[id], s'.scanAt) {
      if e.ScanActive? {
        assert RowOk(s.rows[id]) && RowTimely(cfg, s.rows[id], s.clock);
        ScanSees(cfg, s, e, id);
      } else {
        StepKeepsSeenRow(cfg, s, e, id);
      }
    }
  }

  lemma StepKeepsTimely(cfg: Settings, s: Sys, e: Step)
    requires Enabled(cfg, s, e) && Prompt(cfg, s, e) && Safe(s) && AllTimely(cfg, s)
    ensures AllTimely(cfg, Next(cfg, s, e))
  {
    StepKeepsRowsTimely(cfg, s, e);
    StepKeepsSeenTimely(cfg, s, e);
  }

  lemma {:induction false} RunIsTimely(cfg: Settings, s: Sys, steps: seq<Step>)
    requires IsRun(cfg, s, steps) && AllPrompt(cfg, s, steps) && Safe(s) && AllTimely(cfg, s)
    ensures Safe(Run(cfg, s, steps)) && AllTimely(cfg, Run(cfg, s, steps))
    decreases |steps|
  {
    if steps != [] {
      StepIsSafe(cfg, s, steps[0]);
      StepKeepsTimely(cfg, s, steps[0]);
      RunIsTimely(cfg, Next(cfg, s, steps[0]), steps[1..]);
    }
  }

  // ----- Exclusive leases -----

  /** Two successive leases of one command, by whichever channels, are at least the retry backoff apart. */
  lemma LeasesApart(cfg: Settings, start: Time, steps: seq<Step>, id: Id, i: nat)
    requires IsRun(cfg, Init(start), steps) && AllPrompt(cfg, Init(start), steps)
    requires id in Run(cfg, Init(start), steps).rows
    requires i + 1 < |Run(cfg, Init(start), steps).rows[id].h.leases|
    ensures var l := Run(cfg, Init(start), steps).rows[id].h.leases; l[i].at + cfg.retryBackoff <= l[i + 1].at
  {
    RunIsTimely(cfg, Init(start), steps);
    var s := Run(cfg, Init(start), steps);
    assert RowTimely(cfg, s.rows[id], s.clock) && Spaced(s.rows[id], cfg.retryBackoff);
  }

  /** The flight's attempt is still the latest of its command. */
  ghost predicate HoldsLease(s: Sys, f: Flight) {
    && f.id in s.rows
    && 0 < f.attempt == s.rows[f.id].c.attempts == |s.rows[f.id].h.leases|
    && LastLease(s.rows[f.id]) == f.at
  }

  /** An attempt that has a successor is at least one backoff old. */
  lemma SupersededIsOld(r: Row, backoff: Time, clock: Time, attempt: nat)
    requires Timely(r, backoff, clock) && 0 < attempt < |r.h.leases|
    ensures r.h.leases[attempt - 1].at + backoff <= clock
  {
    assert r.h.leases[attempt].at <= clock;
  }

  lemma YoungFlight(r: Row, f: Flight, backoff: Time, clock: Time)
    requires Ledger(r) && Timely(r, backoff, clock)
    requires 1 <= f.attempt <= |r.h.leases| && r.h.leases[f.attempt - 1].at == f.at
    requires clock < f.at + backoff
    ensures f.attempt == |r.h.leases|
  {
    if f.attempt < |r.h.leases| {
      SupersededIsOld(r, backoff, clock, f.attempt);
    }
  }

  lemma YoungFlightHolds(cfg: Settings, s: Sys, f: Flight)
    requires FlightOk(s, f) && RowOk(s.rows[f.id]) && Timely(s.rows[f.id], cfg.retryBackoff, s.clock)
    requires s.clock < f.at + cfg.retryBackoff
    ensures HoldsLease(s, f)
  {
    YoungFlight(s.rows[f.id], f, cfg.retryBackoff, s.clock);
  }

  /**
   A delivery that ends sooner than one backoff after its lease never marks or releases a lease taken by someone
   else: whatever its last statement changes is the row of that very attempt.
   */
  lemma OwnLeaseOnly(cfg: Settings, start: Time, steps: seq<Step>, e: Step)
    requires IsRun(cfg, Init(start), steps) && AllPrompt(cfg, Init(start), steps)
    requires Enabled(cfg, Run(cfg, Init(start), steps), e) && e.WsDone?
    requires e.now < Run(cfg, Init(start), steps).flights[e.ticket].at + cfg.retryBackoff
    ensures HoldsLease(Run(cfg, Init(start), steps), Run(cfg, Init(start), steps).flights[e.ticket])
  {
    RunIsTimely(cfg, Init(start), steps);
    var s := Run(cfg, Init(start), steps);
    assert FlightOk(s, s.flights[e.ticket]) && RowTimely(cfg, s.rows[s.flights[e.ticket].id], s.clock);
    YoungFlightHolds(cfg, s, s.flights[e.ticket]);
  }

  // ----- Fair timeouts -----

  /** The row as the reaper read it, and when. */
  function ReadBy(s: Sys, e: Step, id: Id): (Status, Time)
    requires id in s.rows
  {
    if e.ReapNext? && id in s.todo then (s.todo[id].status, s.scanAt) else (s.rows[id].c.status, e.now)
  }

  /** A row that the reaper takes out of an attempt was stuck when the reaper read it. */
  lemma TakenWasStuck(cfg: Settings, s: Sys, e: Step, id: Id)
    requires Enabled(cfg, s, e) && (e.Reap? || e.ReapNext?) && id in s.rows
    requires IsActive(s.rows[id].c.status) && Next(cfg, s, e).rows[id].c.status != s.rows[id].c.status
    ensures if e.Reap? then IsStuck(s.rows[id].c, e.now) else e.id == id && IsStuck(s.todo[id], s.scanAt)
  {
    var r := s.rows[id];
    if e.Reap? {
      DoAllExecutes(r, SweepOps(r.c, cfg.retryBackoff, e.now), e.now);
      SweepRow(r.c, cfg.retryBackoff, e.now);
    } else {
      DoShort(r, RowOps(cfg, s, e, id), s.scanAt);
    }
  }

  /** What the reaper needs before it takes a row out of an attempt: waiting time since the lease of that attempt. */
  lemma TimeoutFairness(cfg: Settings, start: Time, steps: seq<Step>, e: Step, id: Id)
    requires IsRun(cfg, Init(start), steps) && AllPrompt(cfg, Init(start), steps)
    requires Enabled(cfg, Run(cfg, Init(start), steps), e) && (e.Reap? || e.ReapNext?)
    requires id in Run(cfg, Init(start), steps).rows
    requires var s := Run(cfg, Init(start), steps);
             IsActive(s.rows[id].c.status) && Next(cfg, s, e).rows[id].c.status != s.rows[id].c.status
    ensures var s := Run(cfg, Init(start), steps);
            var (seen, at) := ReadBy(s, e, id);
            at <= e.now && WaitedLongEnough(cfg, seen, s.rows[id], at)
  {
    RunIsTimely(cfg, Init(start), steps);
    var s := Run(cfg, Init(start), steps);
    TakenWasStuck(cfg, s, e, id);
    assert RowOk(s.rows[id]) && RowTimely(cfg, s.rows[id], s.clock);
    if e.Reap? {
      StuckWaited(cfg, s.rows[id], s.clock, e.now);
    } else {
      assert SeenRow(cfg, s.rows[id], s.todo[id], s.scanAt);
    }
  }
}
