/**
 Runs with one command, told step by step.

 A story is a run from the empty state, the state it ends in and the row of its only command. A lemma named `Then...`
 adds one step to a story and says what the row and the rest of the state are afterwards: a creation, a Pull, a lease by
 the dispatcher, a write, the end of a delivery, an acknowledgement, a whole reaper pass that retries, times out or does
 nothing, and the scans and updates of a pass under way. Longer pieces are put together from them: deliveries that fail,
 attempts used up one after the other, and passes that keep a given interval. The examples of `CommandExamples` and
 `CommandEndless` are told with these lemmas.
 */
module CommandStories {
  import opened Options
  import opened CommandTypes
  import opened CommandStore
  import opened CommandReaper
  import opened CommandService
  import opened CommandMachine
  import opened CommandSafety
  import opened CommandDeadline

  // ----- A run and its only command -----

  /** The state in which `steps` end, if they are a run. */
  ghost function Outcome(cfg: Settings, steps: seq<Step>): Option<Sys> {
    if IsRun(cfg, Init(0), steps) then Some(Run(cfg, Init(0), steps)) else None
  }

  /** A run so far: its steps, its state and the row of its only command. */
  datatype Story = Story(steps: seq<Step>, s: Sys, r: Row)

  ghost predicate Told(cfg: Settings, id: Id, y: Story) {
    Outcome(cfg, y.steps) == Some(y.s) && y.s.rows == map[id := y.r]
  }

  /** The state `s` with its only command in row `r`, at time `now`. */
  function With(s: Sys, id: Id, r: Row, now: Time): Sys {
    s.(rows := map[id := r], clock := now)
  }

  /** A minute of lease, ten seconds of backoff, an hour in the queue. */
  predicate Usual(cfg: Settings, limit: int) {
    && cfg.leaseDuration == 60 * SECOND
    && cfg.retryBackoff == 10 * SECOND
    && cfg.pendingTtl == 3600 * SECOND
    && cfg.defaultMaxAttempts == limit >= 1
  }

  // ----- One more step -----

  lemma {:induction false} RunExtended(cfg: Settings, s: Sys, steps: seq<Step>, e: Step)
    requires IsRun(cfg, s, steps) && Enabled(cfg, Run(cfg, s, steps), e)
    ensures IsRun(cfg, s, steps + [e]) && Run(cfg, s, steps + [e]) == Next(cfg, Run(cfg, s, steps), e)
    decreases |steps|
  {
    if steps == [] {
      assert [e][1..] == [] && steps + [e] == [e];
      assert IsRun(cfg, Next(cfg, s, e), []);
    } else {
      assert (steps + [e])[1..] == steps[1..] + [e];
      RunExtended(cfg, Next(cfg, s, steps[0]), steps[1..], e);
    }
  }

  lemma NextOutcome(cfg: Settings, steps: seq<Step>, s: Sys, e: Step)
    requires Outcome(cfg, steps) == Some(s) && Enabled(cfg, s, e)
    ensures Outcome(cfg, steps + [e]) == Some(Next(cfg, s, e))
  {
    RunExtended(cfg, Init(0), steps, e);
  }

  /** A step that turns the only row into `r`. */
  lemma After(cfg: Settings, id: Id, y: Story, e: Step, r: Row) returns (y': Story)
    requires Told(cfg, id, y) && Enabled(cfg, y.s, e) && !e.Create?
    requires DoAll(y.r, RowOps(cfg, y.s, e, id), OpTime(y.s, e)) == r
    ensures Told(cfg, id, y') && y' == Story(y.steps + [e], Next(cfg, y.s, e), r)
  {
    assert NextRows(cfg, y.s, e).Keys == {id};
    NextOutcome(cfg, y.steps, y.s, e);
    y' := Story(y.steps + [e], Next(cfg, y.s, e), r);
  }

  /** A step with one statement on the only command. */
  lemma AfterStatement(cfg: Settings, id: Id, y: Story, e: Step, op: Op) returns (y': Story)
    requires Told(cfg, id, y) && Enabled(cfg, y.s, e) && !e.Create? && RowOps(cfg, y.s, e, id) == [op]
    ensures Told(cfg, id, y')
    ensures y' == Story(y.steps + [e], Next(cfg, y.s, e), Do(y.r, op, OpTime(y.s, e)))
  {
    DoShort(y.r, [op], OpTime(y.s, e));
    y' := After(cfg, id, y, e, Do(y.r, op, OpTime(y.s, e)));
  }

  lemma ThenCreate(cfg: Settings, id: Id, d: Id, timeoutSec: int) returns (y: Story)
    ensures Told(cfg, id, y)
    ensures var r := Row(NewCommand(cfg, d, "", "", timeoutSec, 0), UNUSED);
            y == Story([Create(id, d, "", "", timeoutSec, 0)], With(Init(0), id, r, 0), r)
  {
    var e := Create(id, d, "", "", timeoutSec, 0);
    NextOutcome(cfg, [], Init(0), e);
    assert [] + [e] == [e];
    y := Story([e], Next(cfg, Init(0), e), Row(NewCommand(cfg, d, "", "", timeoutSec, 0), UNUSED));
  }

  function AfterPull(cfg: Settings, r: Row, q: string, now: Time): Row {
    Do(Do(r, PullOps(cfg, q, now)[0], now), Op.MarkSent, now)
  }

  function PullEntry(id: Id, r: Row): Delivery {
    Delivery(id, |r.h.leases| + 1, ViaPull, true, Message(r.c.deviceId, PayloadOf(id, r.c)))
  }

  lemma PullEnabled(cfg: Settings, s: Sys, id: Id, r: Row, q: string, now: Time)
    requires s.rows == map[id := r] && s.clock <= now && Available(r.c, now)
    ensures Enabled(cfg, s, Pull(r.c.deviceId, q, 1, [id], now))
  {
    assert EligibleIds(Table(s), r.c.deviceId, now) == {id};
    assert PullLimit(cfg, 1) == 1;
  }

  lemma ThenPull(cfg: Settings, id: Id, y: Story, q: string, now: Time) returns (y': Story)
    requires Told(cfg, id, y) && y.s.clock <= now && Available(y.r.c, now)
    ensures Told(cfg, id, y')
    ensures var r := AfterPull(cfg, y.r, q, now);
            y' == Story(y.steps + [Pull(y.r.c.deviceId, q, 1, [id], now)],
                        With(y.s, id, r, now).(log := y.s.log + [PullEntry(id, y.r)]), r)
  {
    PullEnabled(cfg, y.s, id, y.r, q, now);
    DoShort(y.r, PullOps(cfg, q, now), now);
    assert PulledDeliveries(y.s, y.r.c.deviceId, [id]) == [PullEntry(id, y.r)];
    y' := After(cfg, id, y, Pull(y.r.c.deviceId, q, 1, [id], now), AfterPull(cfg, y.r, q, now));
  }

  lemma ThenLease(cfg: Settings, id: Id, y: Story, ticket: nat, now: Time) returns (y': Story)
    requires Told(cfg, id, y) && y.s.clock <= now && ticket !in y.s.flights && Available(y.r.c, now)
    ensures Told(cfg, id, y')
    ensures var r := Do(y.r, WsLeaseOp(cfg, now), now);
            var f := Flight(id, |y.r.h.leases| + 1, now, None);
            y' == Story(y.steps + [WsLease(ticket, id, now)],
                        With(y.s, id, r, now).(flights := y.s.flights[ticket := f]), r)
  {
    y' := AfterStatement(cfg, id, y, WsLease(ticket, id, now), WsLeaseOp(cfg, now));
  }

  function WsEntry(s: Sys, f: Flight, clean: bool): Delivery {
    Delivery(f.id, f.attempt, ViaWs, clean, WsMessage(s, f.id))
  }

  lemma ThenWrite(cfg: Settings, id: Id, y: Story, ticket: nat, clean: bool, now: Time) returns (y': Story)
    requires Told(cfg, id, y) && y.s.clock <= now
    requires ticket in y.s.flights && y.s.flights[ticket].outcome.None?
    ensures Told(cfg, id, y')
    ensures var f := y.s.flights[ticket];
            y' == Story(y.steps + [WsDeliver(ticket, clean, now)],
                        With(y.s, id, y.r, now).(flights := y.s.flights[ticket := f.(outcome := Some(clean))],
                                                 log := y.s.log + [WsEntry(y.s, f, clean)]), y.r)
  {
    y' := After(cfg, id, y, WsDeliver(ticket, clean, now), y.r);
  }

  lemma ThenDone(cfg: Settings, id: Id, y: Story, ticket: nat, clean: bool, now: Time) returns (y': Story)
    requires Told(cfg, id, y) && y.s.clock <= now
    requires ticket in y.s.flights && y.s.flights[ticket].id == id && y.s.flights[ticket].outcome == Some(clean)
    ensures Told(cfg, id, y')
    ensures var r := Do(y.r, WsDoneOp(cfg, clean, now), now);
            y' == Story(y.steps + [WsDone(ticket, now)],
                        With(y.s, id, r, now).(flights := y.s.flights - {ticket}), r)
  {
    y' := AfterStatement(cfg, id, y, WsDone(ticket, now), WsDoneOp(cfg, clean, now));
  }

  lemma ThenAck(cfg: Settings, id: Id, y: Story, now: Time) returns (y': Story)
    requires Told(cfg, id, y) && y.s.clock <= now
    ensures Told(cfg, id, y')
    ensures var r := Do(y.r, Op.MarkAcked, now);
            y' == Story(y.steps + [Ack(y.r.c.deviceId, id, true, [], now)], With(y.s, id, r, now), r)
  {
    y' := AfterStatement(cfg, id, y, Ack(y.r.c.deviceId, id, true, [], now), Op.MarkAcked);
  }

  /** A pass that finds the command stuck without attempts left. */
  lemma ThenTimeout(cfg: Settings, id: Id, y: Story, now: Time) returns (y': Story)
    requires Told(cfg, id, y) && y.s.phase.Idle? && y.s.clock <= now
    requires IsStuck(y.r.c, now) && y.r.c.attempts >= y.r.c.maxAttempts
    ensures Told(cfg, id, y')
    ensures var r := Do(y.r, Op.MarkTimeout, now);
            y' == Story(y.steps + [Reap(now)], With(y.s, id, r, now).(lastPass := now), r)
  {
    SweepDo(y.r, cfg.retryBackoff, now);
    y' := After(cfg, id, y, Reap(now), Do(y.r, Op.MarkTimeout, now));
  }

  function RetryOp(cfg: Settings, now: Time): Op {
    Op.RetryToPending(REASON, now + cfg.retryBackoff)
  }

  /** A pass that finds the command stuck, with attempts left and before its expiry. */
  lemma ThenRetry(cfg: Settings, id: Id, y: Story, now: Time) returns (y': Story)
    requires Told(cfg, id, y) && y.s.phase.Idle? && y.s.clock <= now
    requires IsStuck(y.r.c, now) && y.r.c.attempts < y.r.c.maxAttempts
    requires y.r.c.expiresAt.Some? && now < y.r.c.expiresAt.value
    ensures Told(cfg, id, y')
    ensures var r := Do(y.r, RetryOp(cfg, now), now);
            y' == Story(y.steps + [Reap(now)], With(y.s, id, r, now).(lastPass := now), r)
  {
    SweepDo(y.r, cfg.retryBackoff, now);
    y' := After(cfg, id, y, Reap(now), Do(y.r, RetryOp(cfg, now), now));
  }

  /** A pass that finds nothing to do. */
  lemma ThenIdlePass(cfg: Settings, id: Id, y: Story, now: Time) returns (y': Story)
    requires Told(cfg, id, y) && y.s.phase.Idle? && y.s.clock <= now
    requires !IsStuck(y.r.c, now) && !ExpiredPending(y.r.c, now)
    ensures Told(cfg, id, y') && y' == Story(y.steps + [Reap(now)], With(y.s, id, y.r, now).(lastPass := now), y.r)
  {
    SweepDo(y.r, cfg.retryBackoff, now);
    y' := After(cfg, id, y, Reap(now), y.r);
  }

  lemma ThenScan(cfg: Settings, id: Id, y: Story, now: Time) returns (y': Story)
    requires Told(cfg, id, y) && y.s.phase.Idle? && y.s.clock <= now && IsActive(y.r.c.status)
    ensures Told(cfg, id, y')
    ensures y' == Story(y.steps + [ScanActive(now)],
                        With(y.s, id, y.r, now).(phase := Retrying, scanAt := now, todo := map[id := y.r.c]), y.r)
  {
    y' := After(cfg, id, y, ScanActive(now), y.r);
    assert ActiveIds(Table(y.s)) == {id};
    assert NextTodo(y.s, ScanActive(now)).Keys == {id};
  }

  lemma ThenRetryScanned(cfg: Settings, id: Id, y: Story, seen: Command, now: Time) returns (y': Story)
    requires Told(cfg, id, y) && y.s.phase.Retrying? && y.s.clock <= now && y.s.todo == map[id := seen]
    requires IsStuck(seen, y.s.scanAt) && seen.attempts < seen.maxAttempts
    ensures Told(cfg, id, y')
    ensures var r := Do(y.r, RetryOp(cfg, y.s.scanAt), y.s.scanAt);
            y' == Story(y.steps + [ReapNext(id, now)], With(y.s, id, r, now).(todo := map[]), r)
  {
    y' := AfterStatement(cfg, id, y, ReapNext(id, now), RetryOp(cfg, y.s.scanAt));
  }

  /** A whole WebSocket delivery at one instant. */
  lemma ThenDelivered(cfg: Settings, id: Id, y: Story, ticket: nat, clean: bool, now: Time) returns (y': Story)
    requires Told(cfg, id, y) && y.s.clock <= now && ticket !in y.s.flights && Available(y.r.c, now)
    ensures Told(cfg, id, y') && y'.r == Do(Do(y.r, WsLeaseOp(cfg, now), now), WsDoneOp(cfg, clean, now), now)
    ensures y'.s == With(y.s, id, y'.r, now).(log := y'.s.log)
    ensures |y'.s.log| == |y.s.log| + 1 && y'.s.log[..|y.s.log|] == y.s.log
    ensures var d := y'.s.log[|y.s.log|];
            && d.id == id && d.attempt == |y.r.h.leases| + 1 && d.channel.ViaWs? && d.clean == clean
            && d.message == Message(y.r.c.deviceId, PayloadOf(id, y.r.c))
  {
    y' := ThenLease(cfg, id, y, ticket, now);
    y' := ThenWrite(cfg, id, y', ticket, clean, now);
    y' := ThenDone(cfg, id, y', ticket, clean, now);
    assert y'.s.flights == y.s.flights;
  }

  // ----- Pieces of runs -----

  /** Pulled at once, acknowledged, never answered and put back by the reaper. */
  lemma AckedAndRetried(cfg: Settings, id: Id, d: Id, q: string, ackAt: Time, retryAt: Time) returns (y: Story)
    requires cfg.defaultMaxAttempts >= 2 && 0 <= ackAt && ackAt + 60 * SECOND < retryAt < cfg.pendingTtl
    ensures Told(cfg, id, y) && y.s == With(Init(0), id, y.r, retryAt).(log := y.s.log, lastPass := retryAt)
    ensures var c := y.r.c;
            && c.status.Pending? && c.attempts == 1 && c.maxAttempts == cfg.defaultMaxAttempts && c.timeoutSec == 60
            && c.leaseUntil == Some(retryAt + cfg.retryBackoff) && c.ackedAt == Some(ackAt) && c.startedAt.None?
            && c.expiresAt == Some(cfg.pendingTtl)
    ensures |y.r.h.leases| == 1 && y.r.h.ackedNow
  {
    y := ThenCreate(cfg, id, d, 60);
    y := ThenPull(cfg, id, y, q, 0);
    y := ThenAck(cfg, id, y, ackAt);
    y := ThenRetry(cfg, id, y, retryAt);
  }

  /** Leased at time 0 and still on its way when a pass reads the row at the end of the lease. */
  lemma LeasedAndScanned(cfg: Settings, id: Id, d: Id, timeoutSec: int) returns (y: Story, seen: Command)
    requires cfg.defaultMaxAttempts >= 2
    ensures var end := LeaseTime(cfg);
            && Told(cfg, id, y) && y.s.phase.Retrying? && y.s.scanAt == y.s.clock == end && y.s.lastPass == 0
            && y.s.flights == map[0 := Flight(id, 1, 0, None)] && y.s.todo == map[id := seen]
            && seen.status.Leased? && IsStuck(seen, end) && seen.attempts < seen.maxAttempts
    ensures var c := y.r.c;
            c.status.Leased? && c.attempts == 1 && c.ackedAt.None? && c.startedAt.None? && c.timeoutSec == timeoutSec
    ensures |y.r.h.leases| == 1 && y.r.h.leases[0].at == 0 && !y.r.h.ackedBefore
  {
    y := ThenCreate(cfg, id, d, timeoutSec);
    y := ThenLease(cfg, id, y, 0, 0);
    y := ThenScan(cfg, id, y, LeaseTime(cfg));
    seen := y.r.c;
  }

  /** Read as leased by a pass, and given back before the pass handles it. */
  lemma ReleasedInPass(cfg: Settings, id: Id, d: Id) returns (y: Story, seen: Command)
    requires Usual(cfg, 3)
    ensures Told(cfg, id, y) && y.s.phase.Retrying? && y.s.scanAt == y.s.clock == 60 * SECOND && y.s.flights == map[]
    ensures y.s.todo == map[id := seen] && seen.status.Leased? && IsStuck(seen, y.s.scanAt)
    ensures seen.attempts < seen.maxAttempts && Available(y.r.c, 70 * SECOND) && |y.r.h.leases| == 1
  {
    y, seen := LeasedAndScanned(cfg, id, d, 60);
    y := ThenWrite(cfg, id, y, 0, false, 60 * SECOND);
    y := ThenDone(cfg, id, y, 0, false, 60 * SECOND);
  }

  /** An acknowledgement that keeps an old time lets the reaper end an attempt at the instant of its lease. */
  lemma LeasedAckedRetried(cfg: Settings, id: Id, y: Story, now: Time) returns (y': Story)
    requires Told(cfg, id, y) && y.s.phase.Idle? && y.s.clock <= now && y.s.flights == map[]
    requires Available(y.r.c, now) && y.r.c.startedAt.None? && y.r.c.attempts + 1 < y.r.c.maxAttempts
    requires y.r.c.ackedAt.Some? && now - y.r.c.ackedAt.value > TimeoutOf(y.r.c)
    requires y.r.c.expiresAt.Some? && now < y.r.c.expiresAt.value
    ensures Told(cfg, id, y') && y'.s.phase.Idle? && y'.s.clock == now
    ensures y'.s.flights == map[0 := Flight(id, |y.r.h.leases| + 1, now, None)]
    ensures y'.r.c.status.Pending? && y'.r.c.leaseUntil == Some(now + cfg.retryBackoff)
    ensures |y'.r.h.leases| == |y.r.h.leases| + 1
  {
    y' := ThenLease(cfg, id, y, 0, now);
    y' := ThenAck(cfg, id, y', now);
    y' := ThenRetry(cfg, id, y', now);
  }

  // ----- Attempts used up one after the other -----

  /** `n * step`, one step at a time. */
  function Times(n: nat, step: int): int {
    if n == 0 then 0 else Times(n - 1, step) + step
  }

  lemma {:induction false} TimesIs(n: nat, step: int)
    ensures Times(n, step) == n * step
  {
    if n > 0 {
      TimesIs(n - 1, step);
      assert n * step == (n - 1) * step + step;
    }
  }

  /** Attempts that all ended in a retry, from time 0 on, each a lease and a backoff after the one before. */
  lemma {:induction false} OnlyRetries(cfg: Settings, id: Id, d: Id, n: nat) returns (y: Story)
    requires cfg.retryBackoff >= 0 && Times(n, LeaseTime(cfg) + cfg.retryBackoff) < cfg.pendingTtl
    requires n < cfg.defaultMaxAttempts
    ensures Told(cfg, id, y) && y.s.phase.Idle? && y.r.c.maxAttempts == cfg.defaultMaxAttempts
    ensures y.r.h.retries == y.r.c.attempts == n && y.r.h.releases == 0 && y.r.c.expiresAt == Some(cfg.pendingTtl)
    ensures y.s.clock <= Times(n, LeaseTime(cfg) + cfg.retryBackoff)
    ensures Available(y.r.c, Times(n, LeaseTime(cfg) + cfg.retryBackoff))
    ensures forall k :: k in y.s.flights ==> k < n
  {
    if n == 0 {
      y := ThenCreate(cfg, id, d, 60);
    } else {
      var step := LeaseTime(cfg) + cfg.retryBackoff;
      y := OnlyRetries(cfg, id, d, n - 1);
      y := ThenLease(cfg, id, y, n - 1, Times(n - 1, step));
      y := ThenRetry(cfg, id, y, Times(n - 1, step) + LeaseTime(cfg));
    }
  }

  lemma {:induction false} ThenReleases(cfg: Settings, id: Id, y: Story, k: nat) returns (y': Story)
    requires Told(cfg, id, y) && cfg.retryBackoff >= 0 && y.r.c.status.Pending?
    requires forall t :: t in y.s.flights ==> t < y.r.c.attempts
    requires y.r.c.attempts >= 0
    ensures Told(cfg, id, y') && y'.r.c.status.Pending? && y'.r.c.maxAttempts == y.r.c.maxAttempts
    ensures y'.r.c.attempts == y.r.c.attempts + k && y'.r.h.releases == y.r.h.releases + k
    ensures y'.r.h.retries == y.r.h.retries
    ensures forall t :: t in y'.s.flights ==> t < y'.r.c.attempts
  {
    y' := y;
    if k > 0 {
      y' := ThenReleases(cfg, id, y, k - 1);
      var until := if y'.r.c.leaseUntil.Some? then y'.r.c.leaseUntil.value else 0;
      var now := if until < y'.s.clock then y'.s.clock else until;
      var ticket := y'.r.c.attempts;
      y' := ThenDelivered(cfg, id, y', ticket, false, now);
    }
  }

  /** `n` times pulled, with a timeout of a minute, and put back by the reaper a second too late for an answer. */
  lemma {:induction false} PulledAndRetried(cfg: Settings, id: Id, d: Id, q: string, n: nat) returns (y: Story)
    requires cfg.retryBackoff >= 0 && Times(n, 61 * SECOND + cfg.retryBackoff) < cfg.pendingTtl
    requires n < cfg.defaultMaxAttempts
    ensures Told(cfg, id, y) && y.s.phase.Idle? && y.r.c.maxAttempts == cfg.defaultMaxAttempts
    ensures y.r.c.attempts == n && y.r.c.expiresAt == Some(cfg.pendingTtl) && y.r.c.timeoutSec == 60
    ensures y.r.c.ackedAt.None? && y.r.c.startedAt.None?
    ensures y.s.clock <= Times(n, 61 * SECOND + cfg.retryBackoff) && Available(y.r.c, y.s.clock + cfg.retryBackoff)
    ensures |y.s.log| == n && forall i :: 0 <= i < n ==> y.s.log[i].id == id && y.s.log[i].clean
  {
    if n == 0 {
      y := ThenCreate(cfg, id, d, 60);
    } else {
      y := PulledAndRetried(cfg, id, d, q, n - 1);
      var now := y.s.clock + cfg.retryBackoff;
      y := ThenPull(cfg, id, y, q, now);
      y := ThenRetry(cfg, id, y, now + 61 * SECOND);
    }
  }

  lemma {:induction false} AllClean(log: seq<Delivery>, id: Id)
    requires forall d :: d in log ==> d.id == id && d.clean
    ensures |CleanWrites(log, id)| == |log|
  {
    if log == [] {
      assert CleanWrites(log, id) == {};
    } else {
      var n := |log| - 1;
      AllClean(log[..n], id);
      assert log[n] in log;
      assert CleanWrites(log, id) == CleanWrites(log[..n], id) + {n};
    }
  }

  // ----- Passes at intervals -----

  /** A run of the only command with a pass in every interval of length `gap`. */
  ghost predicate Patrolled(cfg: Settings, id: Id, y: Story, gap: Time) {
    Told(cfg, id, y) && AllOnTime(cfg, Init(0), y.steps, gap)
  }

  lemma {:induction false} OnTimeExtended(cfg: Settings, s: Sys, steps: seq<Step>, e: Step, gap: Time)
    requires IsRun(cfg, s, steps) && AllOnTime(cfg, s, steps, gap)
    requires Enabled(cfg, Run(cfg, s, steps), e) && OnTime(Run(cfg, s, steps), e, gap)
    ensures IsRun(cfg, s, steps + [e]) && AllOnTime(cfg, s, steps + [e], gap)
    decreases |steps|
  {
    RunExtended(cfg, s, steps, e);
    if steps == [] {
      assert [e][1..] == [] && steps + [e] == [e];
    } else {
      assert (steps + [e])[1..] == steps[1..] + [e];
      OnTimeExtended(cfg, Next(cfg, s, steps[0]), steps[1..], e, gap);
    }
  }

  /** `z` is `y` and one more step. */
  lemma PatrolledOn(cfg: Settings, id: Id, y: Story, z: Story, e: Step, gap: Time)
    requires Patrolled(cfg, id, y, gap) && Told(cfg, id, z) && z.steps == y.steps + [e]
    requires Enabled(cfg, y.s, e) && OnTime(y.s, e, gap)
    ensures Patrolled(cfg, id, z, gap)
  {
    OnTimeExtended(cfg, Init(0), y.steps, e, gap);
  }

  /** Leased, passed by and given back at one instant. */
  lemma LeasedPassedReleased(cfg: Settings, id: Id, y: Story, now: Time, gap: Time) returns (y': Story)
    requires Patrolled(cfg, id, y, gap) && y.s.phase.Idle? && y.s.clock <= now <= y.s.lastPass + gap && gap >= 0
    requires Available(y.r.c, now) && y.s.flights == map[]
    ensures Patrolled(cfg, id, y', gap) && y'.s.phase.Idle? && y'.s.clock == y'.s.lastPass == now
    ensures y'.s.flights == map[] && y'.r.c.status.Pending?
    ensures y'.r.c.leaseUntil == Some(now + cfg.retryBackoff)
    ensures SameOrder(y.r.c, y'.r.c)
    ensures y'.steps == y.steps + [WsLease(0, id, now)] + [Reap(now)] + [WsDeliver(0, false, now)] + [WsDone(0, now)]
  {
    var y1 := ThenLease(cfg, id, y, 0, now);
    PatrolledOn(cfg, id, y, y1, WsLease(0, id, now), gap);
    var y2 := ThenIdlePass(cfg, id, y1, now);
    PatrolledOn(cfg, id, y1, y2, Reap(now), gap);
    y' := WrittenAndReleased(cfg, id, y2, now, gap);
  }

  lemma WrittenAndReleased(cfg: Settings, id: Id, y: Story, now: Time, gap: Time) returns (y': Story)
    requires Patrolled(cfg, id, y, gap) && y.s.clock == y.s.lastPass == now && gap >= 0
    requires y.r.c.status.Leased? && 0 in y.s.flights && y.s.flights[0].id == id && y.s.flights[0].outcome.None?
    ensures Patrolled(cfg, id, y', gap) && y'.s.phase == y.s.phase && y'.s.clock == y'.s.lastPass == now
    ensures y'.s.flights == y.s.flights - {0}
    ensures y'.r.c == Effect(y.r.c, Op.ReleaseLease(now + cfg.retryBackoff), now)
    ensures y'.steps == y.steps + [WsDeliver(0, false, now)] + [WsDone(0, now)]
  {
    var z := ThenWrite(cfg, id, y, 0, false, now);
    PatrolledOn(cfg, id, y, z, WsDeliver(0, false, now), gap);
    y' := ThenDone(cfg, id, z, 0, false, now);
    PatrolledOn(cfg, id, z, y', WsDone(0, now), gap);
    assert y'.s.flights == y.s.flights - {0};
  }

  /** Passes every backoff, and at each of them the command is leased; each time the write fails afterwards. */
  lemma {:induction false} ReleasedForLong(cfg: Settings, id: Id, d: Id, timeoutSec: nat, n: nat) returns (y: Story)
    requires cfg.retryBackoff > 0
    ensures Patrolled(cfg, id, y, cfg.retryBackoff) && y.s.phase.Idle?
    ensures y.s.clock == y.s.lastPass == Times(n, cfg.retryBackoff)
    ensures y.r.c.status.Pending? && SameOrder(NewCommand(cfg, d, "", "", timeoutSec, 0), y.r.c)
    ensures y.s.flights == map[] && Available(y.r.c, y.s.clock + cfg.retryBackoff)
    ensures forall e :: e in y.steps ==> !e.ScanActive? && (e.Create? ==> e.timeoutSec >= 0)
  {
    var b := cfg.retryBackoff;
    if n == 0 {
      y := ThenCreate(cfg, id, d, timeoutSec);
      assert AllOnTime(cfg, Init(0), [], b) && [] + y.steps == y.steps;
      OnTimeExtended(cfg, Init(0), [], y.steps[0], b);
    } else {
      var z := ReleasedForLong(cfg, id, d, timeoutSec, n - 1);
      y := LeasedPassedReleased(cfg, id, z, z.s.clock + b, b);
    }
  }

  /** A pass of exactly one backoff, during which the command it retries is pulled again. */
  lemma SlowPass(cfg: Settings, id: Id, y: Story, q: string, gap: Time) returns (y': Story)
    requires cfg.retryBackoff >= 0 && gap == 2 * cfg.retryBackoff + 1
    requires Patrolled(cfg, id, y, gap) && y.s.phase.Idle? && y.s.clock <= y.s.lastPass + cfg.retryBackoff
    requires var c := y.r.c;
             && c.status.Sent? && c.sentAt == Some(y.s.clock) && c.ackedAt.None? && c.startedAt.None?
             && c.timeoutSec == 0 && c.attempts < c.maxAttempts
    ensures Patrolled(cfg, id, y', gap) && y'.s.phase.Idle? && y'.s.clock == y.s.clock + 1 + cfg.retryBackoff
    ensures y'.s.clock <= y'.s.lastPass + cfg.retryBackoff
    ensures var c := y'.r.c;
            && c.status.Sent? && c.sentAt == Some(y'.s.clock) && c.ackedAt.None? && c.startedAt.None?
            && c.attempts == y.r.c.attempts + 1 && SameOrder(y.r.c, c)
    ensures forall e :: e in y'.steps ==> e in y.steps || (!e.WsDone? && !e.Create?)
  {
    var p := y.s.clock + 1;
    var now := p + cfg.retryBackoff;
    var y1 := ThenScan(cfg, id, y, p);
    PatrolledOn(cfg, id, y, y1, ScanActive(p), gap);
    assert IsStuck(y.r.c, p) && y1.steps == y.steps + [ScanActive(p)];
    var y2 := RetriedAndPulled(cfg, id, y1, q, now, gap);
    y' := PassEnded(cfg, id, y2, now, gap);
  }

  lemma RetriedAndPulled(cfg: Settings, id: Id, y: Story, q: string, now: Time, gap: Time) returns (y': Story)
    requires Patrolled(cfg, id, y, gap) && y.s.phase.Retrying? && y.s.clock <= now <= y.s.lastPass + gap
    requires y.s.todo == map[id := y.r.c] && now == y.s.scanAt + cfg.retryBackoff
    requires IsStuck(y.r.c, y.s.scanAt) && y.r.c.attempts < y.r.c.maxAttempts && y.r.c.status.Sent?
    ensures Patrolled(cfg, id, y', gap) && y'.s == With(y.s, id, y'.r, now).(todo := map[], log := y'.s.log)
    ensures var c := y'.r.c;
            && c.status.Sent? && c.sentAt == Some(now) && c.ackedAt == y.r.c.ackedAt && c.startedAt == y.r.c.startedAt
            && c.attempts == y.r.c.attempts + 1 && SameOrder(y.r.c, c)
    ensures y'.steps == y.steps + [ReapNext(id, now)] + [Pull(y.r.c.deviceId, q, 1, [id], now)]
  {
    var z := ThenRetryScanned(cfg, id, y, y.r.c, now);
    PatrolledOn(cfg, id, y, z, ReapNext(id, now), gap);
    PullEnabled(cfg, z.s, id, z.r, q, now);
    y' := ThenPull(cfg, id, z, q, now);
    PatrolledOn(cfg, id, z, y', Pull(z.r.c.deviceId, q, 1, [id], now), gap);
  }

  lemma PassEnded(cfg: Settings, id: Id, y: Story, now: Time, gap: Time) returns (y': Story)
    requires Patrolled(cfg, id, y, gap) && y.s.phase.Retrying? && y.s.clock == now <= y.s.lastPass + gap
    requires y.s.todo == map[] && !y.r.c.status.Pending?
    ensures Patrolled(cfg, id, y', gap) && y'.r == y.r && y'.s.phase.Idle? && y'.s.clock == now
    ensures y'.s.lastPass == y.s.scanAt && y'.steps == y.steps + [ScanExpired(now)] + [EndPass(now)]
  {
    var e1, e2 := ScanExpired(now), EndPass(now);
    assert ExpiredIds(Table(y.s), y.s.scanAt) == {};
    var z := After(cfg, id, y, e1, y.r);
    assert z.s.todo == map[];
    PatrolledOn(cfg, id, y, z, e1, gap);
    y' := After(cfg, id, z, e2, z.r);
    PatrolledOn(cfg, id, z, y', e2, gap);
  }

  /** A command without a timeout is put back and pulled again by each of `n` slow passes. */
  lemma {:induction false} PulledForLong(cfg: Settings, id: Id, d: Id, q: string, n: nat) returns (y: Story)
    requires cfg.retryBackoff >= 0 && n < cfg.defaultMaxAttempts
    ensures Patrolled(cfg, id, y, 2 * cfg.retryBackoff + 1) && y.s.phase.Idle?
    ensures y.s.clock == Times(n, cfg.retryBackoff + 1) && y.s.clock <= y.s.lastPass + cfg.retryBackoff
    ensures var c := y.r.c;
            && c.status.Sent? && c.sentAt == Some(y.s.clock) && c.ackedAt.None? && c.startedAt.None?
            && c.attempts == n + 1 && SameOrder(NewCommand(cfg, d, "", "", 0, 0), c)
    ensures forall e :: e in y.steps ==> !e.WsDone? && (e.Create? ==> e.timeoutSec == 0)
  {
    var gap := 2 * cfg.retryBackoff + 1;
    if n == 0 {
      var z := ThenCreate(cfg, id, d, 0);
      assert AllOnTime(cfg, Init(0), [], gap) && [] + z.steps == z.steps;
      OnTimeExtended(cfg, Init(0), [], z.steps[0], gap);
      PullEnabled(cfg, z.s, id, z.r, q, 0);
      y := ThenPull(cfg, id, z, q, 0);
      PatrolledOn(cfg, id, z, y, Pull(d, q, 1, [id], 0), gap);
    } else {
      var z := PulledForLong(cfg, id, d, q, n - 1);
      y := SlowPass(cfg, id, z, q, gap);
    }
  }

  /** Without a release there is no late one. */
  lemma {:induction false} NoReleaseNoLateRelease(cfg: Settings, s: Sys, steps: seq<Step>, id: Id)
    requires IsRun(cfg, s, steps) && forall e :: e in steps ==> !e.WsDone?
    ensures NoLateReleases(cfg, s, steps, id)
    decreases |steps|
  {
    if steps != [] {
      assert steps[0] in steps;
      NoReleaseNoLateRelease(cfg, Next(cfg, s, steps[0]), steps[1..], id);
    }
  }
}
