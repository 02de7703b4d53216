/** Every step of the machine, column by column, without the terms of the statements. */
module CommandColumns {
  import opened Options
  import opened CommandTypes
  import CommandStore
  import opened CommandReaper
  import opened CommandService
  import opened CommandMachine

  /** Nobody holds the row and its backoff is over. */
  predicate IsFree(c: Command, now: Time) {
    c.status == Pending && (c.leaseUntil == None || c.leaseUntil.value <= now)
  }

  predicate IsTaken(c: Command) {
    c.status in {Leased, Sent, Acked, Running}
  }

  predicate IsOpen(c: Command) {
    c.status !in {Succeeded, Failed, Timeout, Canceled, Expired}
  }

  /** The lease is over, or the timeout is, counted from the start, else the acknowledgement, else the write. */
  predicate IsOverdue(c: Command, now: Time) {
    var start := if c.startedAt != None then c.startedAt else if c.ackedAt != None then c.ackedAt else c.sentAt;
    if c.status == Leased || (c.status in {Sent, Acked, Running} && start == None)
    then c.leaseUntil != None && c.leaseUntil.value <= now
    else c.status in {Sent, Acked, Running} && now - start.value > c.timeoutSec * 1_000_000_000
  }

  predicate IsExpired(c: Command, now: Time) {
    c.status == Pending && c.expiresAt != None && c.expiresAt.value <= now
  }

  function LeasedRow(c: Command, holder: string, until: Time, now: Time): Command {
    c.(status := Status.Leased, leasedBy := Some(holder), leaseUntil := Some(until), attempts := c.attempts + 1,
       updatedAt := now)
  }

  /** What the reaper does to a row it has read as `seen`, at the clock reading of its scan. */
  function ReapedRow(c: Command, seen: Command, backoff: Time, scanAt: Time): Command {
    if !IsOverdue(seen, scanAt) || !IsTaken(c) then c
    else if seen.attempts < seen.maxAttempts then
      c.(status := Pending, leasedBy := None, leaseUntil := Some(scanAt + backoff),
         lastError := Some("delivery lease/timeout, retry"), updatedAt := scanAt)
    else c.(status := Timeout, finishedAt := Some(scanAt), updatedAt := scanAt)
  }

  function ExpiredRow(c: Command, scanAt: Time): Command {
    c.(status := Expired, finishedAt := Some(scanAt), updatedAt := scanAt)
  }

  /** Row `id` after a step. */
  ghost function RowAfterStep(cfg: Settings, s: Sys, e: Step, id: Id): Command
    requires Enabled(cfg, s, e) && id in s.rows
  {
    var c := s.rows[id].c;
    match e
    case WsLease(_, target, now) =>
      if id == target && IsFree(c, now)
      then
        var length := if cfg.leaseDuration <= 0 then 60_000_000_000 else cfg.leaseDuration;
        LeasedRow(c, "ws:" + cfg.instanceId, now + length, now)
      else c
    case WsDone(ticket, now) =>
      var f := s.flights[ticket];
      if id != f.id || c.status != Leased then c
      else if f.outcome == Some(true) then c.(status := Sent, sentAt := Some(now), updatedAt := now)
      else c.(status := Pending, leasedBy := None, leaseUntil := Some(now + cfg.retryBackoff), updatedAt := now)
    case Pull(_, requestId, _, ids, now) =>
      if id in ids
      then LeasedRow(c, "pull:" + requestId, now + cfg.leaseDuration, now).(status := Sent, sentAt := Some(now))
      else c
    case Ack(deviceId, target, accepted, _, now) =>
      if id != target || c.deviceId != deviceId then c
      else if accepted then
        if c.status in {Leased, Sent, Acked}
        then c.(status := Acked, ackedAt := if c.ackedAt == None then Some(now) else c.ackedAt, updatedAt := now)
        else c
      else if IsOpen(c) then c.(status := Failed, finishedAt := Some(now), updatedAt := now) else c
    case Report(deviceId, target, input, now) =>
      if id != target || c.deviceId != deviceId || !IsOpen(c) then c
      else
        c.(status := if input.status == "succeeded" then Succeeded
                     else if input.status == "timeout" then Timeout else Failed,
           startedAt := if input.startedAt == None then c.startedAt else input.startedAt,
           finishedAt := input.finishedAt, updatedAt := now)
    case CancelStep(target, now) =>
      if id == target && IsOpen(c) then c.(status := Canceled, finishedAt := Some(now), updatedAt := now) else c
    case Reap(now) =>
      var d := ReapedRow(c, c, cfg.retryBackoff, now);
      if IsExpired(d, now) then ExpiredRow(d, now) else d
    case ReapNext(target, _) =>
      if id == target then ReapedRow(c, s.todo[id], cfg.retryBackoff, s.scanAt) else c
    case ExpireNext(target, _) => if id == target && c.status == Pending then ExpiredRow(c, s.scanAt) else c
    case _ => c
  }

  lemma SweepInColumns(c: Command, backoff: Time, now: Time)
    ensures var d := ReapedRow(c, c, backoff, now);
            Swept(c, backoff, now) == if IsExpired(d, now) then ExpiredRow(d, now) else d
  {
    SweptInTwo(c, backoff, now);
  }

  /** One statement, or none: every step but a Pull and a whole pass. */
  lemma SingleInColumns(cfg: Settings, s: Sys, e: Step, id: Id)
    requires Enabled(cfg, s, e) && id in s.rows && !e.Pull? && !e.Reap?
    ensures ExecAll(s.rows[id].c, RowOps(cfg, s, e, id), OpTime(s, e)) == RowAfterStep(cfg, s, e, id)
  {
    ExecShort(s.rows[id].c, RowOps(cfg, s, e, id), OpTime(s, e));
  }

  /** Each step changes each row of the table to exactly these columns. */
  lemma StepInColumns(cfg: Settings, s: Sys, e: Step, id: Id)
    requires Enabled(cfg, s, e) && id in s.rows
    ensures id in Next(cfg, s, e).rows && Next(cfg, s, e).rows[id].c == RowAfterStep(cfg, s, e, id)
  {
    var r, ops, t := s.rows[id], RowOps(cfg, s, e, id), OpTime(s, e);
    DoAllExecutes(r, ops, t);
    if e.Reap? {
      SweepInColumns(r.c, cfg.retryBackoff, e.now);
    } else if e.Pull? {
      PullInColumns(cfg, s, e, id);
    } else {
      SingleInColumns(cfg, s, e, id);
    }
  }

  lemma PullInColumns(cfg: Settings, s: Sys, e: Step, id: Id)
    requires Enabled(cfg, s, e) && id in s.rows && e.Pull?
    ensures ExecAll(s.rows[id].c, RowOps(cfg, s, e, id), e.now) == RowAfterStep(cfg, s, e, id)
    ensures id in e.ids ==> IsFree(s.rows[id].c, e.now) && s.rows[id].c.deviceId == e.deviceId
  {
    ExecShort(s.rows[id].c, RowOps(cfg, s, e, id), e.now);
    assert id in e.ids ==> id in CommandStore.EligibleIds(Table(s), e.deviceId, e.now);
  }

  /** An undisturbed delivery: three statements on one row. */
  lemma TriedInColumns(cfg: Settings, c: Command, a: Attempt)
    ensures var length := if cfg.leaseDuration <= 0 then 60_000_000_000 else cfg.leaseDuration;
            var l := LeasedRow(c, "ws:" + cfg.instanceId, a.leaseAt + length, a.leaseAt);
            Tried(cfg, c, a) ==
            if !IsFree(c, a.leaseAt) then c
            else if a.clean then l.(status := Sent, sentAt := Some(a.doneAt), updatedAt := a.doneAt)
            else l.(status := Pending, leasedBy := None, leaseUntil := Some(a.failedAt + cfg.retryBackoff),
                    updatedAt := a.doneAt)
  {
  }

  /** A new row: queued, never leased, with nothing but its order in it. */
  lemma CreatedInColumns(cfg: Settings, s: Sys, e: Step)
    requires Enabled(cfg, s, e) && e.Create?
    ensures e.id !in s.rows && e.id in Next(cfg, s, e).rows
    ensures Next(cfg, s, e).rows[e.id].c ==
            Command(e.deviceId, e.action, e.params, Pending, 100, e.timeoutSec, 0,
                    if cfg.defaultMaxAttempts < 1 then 1 else cfg.defaultMaxAttempts,
                    None, None, None, None, None, None, Some(e.now + cfg.pendingTtl), None, e.now, e.now)
  {
  }
}
