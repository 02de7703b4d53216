/**
 The queue as a state machine. Its five parties (WebSocket dispatch, Pull, agent answers, admin, reaper) interleave
 freely; a step is one statement or one transaction. Every row carries the history of the statements that
 changed it.
 */
module CommandMachine {
  import opened Options
  import opened CommandTypes
  import opened CommandStore
  import opened CommandReaper
  import opened CommandService
  import opened Utf8Truncate

  datatype LeaseRec = LeaseRec(at: Time, holder: string)

  /**
   What happened to a row. `charged`: its latest lease was neither released nor retried. `ackedNow`,
   `ackedBefore`: an acknowledgement arrived during the latest attempt, during an earlier one. `closedFrom`: the
   status in which the row was closed.
   */
  datatype History = History(
    leases: seq<LeaseRec>,
    releases: nat,
    retries: nat,
    charged: bool,
    ackedNow: bool,
    ackedBefore: bool,
    closedFrom: Option<Status>)

  datatype Row = Row(c: Command, h: History)

  const UNUSED := History([], 0, 0, false, false, false, None)

  function Record(h: History, from: Status, op: Op, now: Time): History {
    match op
    case Lease(holder, _) =>
      h.(leases := h.leases + [LeaseRec(now, holder)], charged := true,
         ackedBefore := h.ackedBefore || h.ackedNow, ackedNow := false)
    case ReleaseLease(_) => h.(releases := h.releases + 1, charged := false)
    case RetryToPending(_, _) => h.(retries := h.retries + 1, charged := false)
    case MarkAcked => h.(ackedNow := true)
    case MarkSent => h
    case _ => h.(closedFrom := Some(from))
  }

  /** One statement against a row, remembered when it takes effect. */
  function Do(r: Row, op: Op, now: Time): Row {
    if Guard(r.c, op, now) then Row(Effect(r.c, op, now), Record(r.h, r.c.status, op, now)) else r
  }

  function DoAll(r: Row, ops: seq<Op>, now: Time): Row
    decreases |ops|
  {
    if ops == [] then r else DoAll(Do(r, ops[0], now), ops[1..], now)
  }

  /** A `TryDeliver` call between its lease and its last statement. */
  datatype Flight = Flight(id: Id, attempt: nat, at: Time, outcome: Option<bool>)

  datatype Channel = ViaWs | ViaPull

  /**
   Attempt `attempt` of a command was handed to a channel: what went to which device; `clean`: the write returned no
   error.
   */
  datatype Delivery = Delivery(id: Id, attempt: nat, channel: Channel, clean: bool, message: Message)

  /** Where a reaper pass stands: none under way, handling what it scanned as active, or as expired. */
  datatype Phase = Idle | Retrying | Expiring

  /**
   A pass reads the clock once, `scanAt`. `todo` holds the active rows it has not handled yet, as it read them;
   `overdue` the expired ones. `lastPass` is the clock reading of the last pass that has ended.
   */
  datatype Sys = Sys(
    rows: map<Id, Row>,
    results: Results,
    flights: map<nat, Flight>,
    log: seq<Delivery>,
    phase: Phase,
    scanAt: Time,
    todo: Commands,
    overdue: set<Id>,
    clock: Time,
    lastPass: Time)

  datatype Step =
    | Create(id: Id, deviceId: Id, action: string, params: string, timeoutSec: int, now: Time)
    | WsLease(ticket: nat, id: Id, now: Time)
    | WsDeliver(ticket: nat, clean: bool, now: Time)
    | WsDone(ticket: nat, now: Time)
    | Pull(deviceId: Id, requestId: string, limit: int, ids: seq<Id>, now: Time)
    | Ack(deviceId: Id, id: Id, accepted: bool, message: Bytes, now: Time)
    | Report(deviceId: Id, id: Id, input: ResultInput, now: Time)
    | CancelStep(id: Id, now: Time)
    | Reap(now: Time)
    | ScanActive(now: Time)
    | ReapNext(id: Id, now: Time)
    | ScanExpired(now: Time)
    | ExpireNext(id: Id, now: Time)
    | EndPass(now: Time)

  function Table(s: Sys): Commands {
    map id | id in s.rows :: s.rows[id].c
  }

  function Init(now: Time): Sys {
    Sys(map[], map[], map[], [], Idle, now, map[], {}, now, now)
  }

  /** There is one reaper: it starts a pass only when the previous one has ended. */
  ghost predicate Enabled(cfg: Settings, s: Sys, e: Step) {
    && s.clock <= e.now
    && match e
       case Create(id, _, _, _, _, _) => id !in s.rows
       case WsLease(ticket, id, _) => ticket !in s.flights
       case WsDeliver(ticket, _, _) => ticket in s.flights && s.flights[ticket].outcome.None?
       case WsDone(ticket, _) => ticket in s.flights && s.flights[ticket].outcome.Some?
       case Pull(deviceId, _, limit, ids, now) =>
         FirstOf(Table(s), EligibleIds(Table(s), deviceId, now), PullLimit(cfg, limit), ids)
       case Reap(_) => s.phase.Idle?
       case ScanActive(_) => s.phase.Idle?
       case ReapNext(id, _) => s.phase.Retrying? && id in s.todo
       case ScanExpired(_) => s.phase.Retrying? && s.todo == map[]
       case ExpireNext(id, _) => s.phase.Expiring? && id in s.overdue
       case EndPass(_) => s.phase.Expiring? && s.overdue == {}
       case _ => true
  }

  /** The clock reading a step's statements carry; the updates of a split pass keep the one of its scan. */
  function OpTime(s: Sys, e: Step): Time {
    if e.ReapNext? || e.ExpireNext? then s.scanAt else e.now
  }

  /** The statements a step runs on row `id`. */
  ghost function RowOps(cfg: Settings, s: Sys, e: Step, id: Id): seq<Op>
    requires id in s.rows && Enabled(cfg, s, e)
  {
    var c := s.rows[id].c;
    match e
    case WsLease(_, target, now) => if id == target then [WsLeaseOp(cfg, now)] else []
    case WsDone(ticket, now) =>
      if id == s.flights[ticket].id then [WsDoneOp(cfg, s.flights[ticket].outcome.value, now)] else []
    case Pull(_, requestId, _, ids, now) => if id in ids then PullOps(cfg, requestId, now) else []
    case Ack(deviceId, target, accepted, _, now) =>
      if id == target && c.deviceId == deviceId then [AckOp(accepted, now)] else []
    case Report(deviceId, target, input, _) =>
      if id == target && c.deviceId == deviceId then [ResultOp(input)] else []
    case CancelStep(target, _) => if id == target then [Op.Cancel] else []
    case Reap(now) => SweepOps(c, cfg.retryBackoff, now)
    case ReapNext(target, _) =>
      if id == target && IsStuck(s.todo[id], s.scanAt) then [StuckOp(s.todo[id], cfg.retryBackoff, s.scanAt)] else []
    case ExpireNext(target, _) => if id == target then [Op.MarkExpired] else []
    case _ => []
  }

  function NextResults(cfg: Settings, s: Sys, e: Step): Results {
    match e
    case Ack(deviceId, id, accepted, message, now) =>
      if accepted then s.results
      else OwnedInsert(Table(s), s.results, deviceId, id, Rejection(deviceId, message, now))
    case Report(deviceId, id, input, now) =>
      OwnedInsert(Table(s), s.results, deviceId, id, ResultRecord(cfg.resultMaxBytes, deviceId, input, now))
    case _ => s.results
  }

  /** A lease that takes effect starts a flight; its last statement ends it. */
  ghost function NextFlights(cfg: Settings, s: Sys, e: Step): map<nat, Flight>
    requires Enabled(cfg, s, e)
  {
    match e
    case WsLease(ticket, id, now) =>
      if id in s.rows && Available(s.rows[id].c, now)
      then s.flights[ticket := Flight(id, |s.rows[id].h.leases| + 1, now, None)]
      else s.flights
    case WsDeliver(ticket, clean, _) => s.flights[ticket := s.flights[ticket].(outcome := Some(clean))]
    case WsDone(ticket, _) => s.flights - {ticket}
    case _ => s.flights
  }

  function PayloadAt(s: Sys, id: Id): DeliverPayload {
    if id in s.rows then PayloadOf(id, s.rows[id].c) else DeliverPayload(id, "", "", 0)
  }

  function WsMessage(s: Sys, id: Id): Message {
    Message(if id in s.rows then s.rows[id].c.deviceId else "", PayloadAt(s, id))
  }

  function PulledDeliveries(s: Sys, deviceId: Id, ids: seq<Id>): (out: seq<Delivery>)
    ensures |out| == |ids|
    ensures forall i :: 0 <= i < |out| ==> out[i].id == ids[i] && out[i].clean
    ensures forall i :: 0 <= i < |out| ==> out[i].message == Message(deviceId, PayloadAt(s, ids[i]))
    ensures forall i :: 0 <= i < |out| && ids[i] in s.rows ==> out[i].attempt == |s.rows[ids[i]].h.leases| + 1
  {
    seq(|ids|, i requires 0 <= i < |ids| =>
      Delivery(ids[i], if ids[i] in s.rows then |s.rows[ids[i]].h.leases| + 1 else 0, ViaPull, true,
               Message(deviceId, PayloadAt(s, ids[i]))))
  }

  ghost function NextLog(cfg: Settings, s: Sys, e: Step): seq<Delivery>
    requires Enabled(cfg, s, e)
  {
    match e
    case WsDeliver(ticket, clean, _) =>
      var f := s.flights[ticket];
      s.log + [Delivery(f.id, f.attempt, ViaWs, clean, WsMessage(s, f.id))]
    case Pull(deviceId, _, _, ids, _) => s.log + PulledDeliveries(s, deviceId, ids)
    case _ => s.log
  }

  ghost function NextRows(cfg: Settings, s: Sys, e: Step): map<Id, Row>
    requires Enabled(cfg, s, e)
  {
    var rows := map id | id in s.rows :: DoAll(s.rows[id], RowOps(cfg, s, e, id), OpTime(s, e));
    if e.Create?
    then rows[e.id := Row(NewCommand(cfg, e.deviceId, e.action, e.params, e.timeoutSec, e.now), UNUSED)]
    else rows
  }

  function NextPhase(s: Sys, e: Step): Phase {
    match e
    case ScanActive(_) => Retrying
    case ScanExpired(_) => Expiring
    case EndPass(_) => Idle
    case _ => s.phase
  }

  function NextTodo(s: Sys, e: Step): Commands {
    match e
    case ScanActive(_) => map id | id in ActiveIds(Table(s)) :: s.rows[id].c
    case ReapNext(id, _) => s.todo - {id}
    case _ => s.todo
  }

  function NextOverdue(s: Sys, e: Step): set<Id> {
    match e
    case ScanExpired(_) => ExpiredIds(Table(s), s.scanAt)
    case ExpireNext(id, _) => s.overdue - {id}
    case _ => s.overdue
  }

  ghost function Next(cfg: Settings, s: Sys, e: Step): Sys
    requires Enabled(cfg, s, e)
  {
    Sys(NextRows(cfg, s, e),
        NextResults(cfg, s, e),
        NextFlights(cfg, s, e),
        NextLog(cfg, s, e),
        NextPhase(s, e),
        if e.ScanActive? then e.now else s.scanAt,
        NextTodo(s, e),
        NextOverdue(s, e),
        e.now,
        if e.Reap? then e.now else if e.EndPass? then s.scanAt else s.lastPass)
  }

  // ----- Runs -----

  ghost predicate IsRun(cfg: Settings, s: Sys, steps: seq<Step>)
    decreases |steps|
  {
    steps == [] || (Enabled(cfg, s, steps[0]) && IsRun(cfg, Next(cfg, s, steps[0]), steps[1..]))
  }

  ghost function Run(cfg: Settings, s: Sys, steps: seq<Step>): Sys
    requires IsRun(cfg, s, steps)
    decreases |steps|
  {
    if steps == [] then s else Run(cfg, Next(cfg, s, steps[0]), steps[1..])
  }

  /** While a pass is under way, less than one backoff has gone by since its scan. */
  ghost predicate Prompt(cfg: Settings, s: Sys, e: Step) {
    !s.phase.Idle? ==> e.now < s.scanAt + cfg.retryBackoff
  }

  /** Every pass ends within one backoff of its scan. */
  ghost predicate AllPrompt(cfg: Settings, s: Sys, steps: seq<Step>)
    requires IsRun(cfg, s, steps)
    decreases |steps|
  {
    steps == [] || (Prompt(cfg, s, steps[0]) && AllPrompt(cfg, Next(cfg, s, steps[0]), steps[1..]))
  }

  /** So it is in runs whose passes nobody disturbs. */
  lemma {:induction false} UndisturbedIsPrompt(cfg: Settings, s: Sys, steps: seq<Step>)
    requires IsRun(cfg, s, steps) && s.phase.Idle? && forall e :: e in steps ==> !e.ScanActive?
    ensures AllPrompt(cfg, s, steps)
    decreases |steps|
  {
    if steps != [] {
      assert steps[0] in steps;
      UndisturbedIsPrompt(cfg, Next(cfg, s, steps[0]), steps[1..]);
    }
  }

  lemma DoShort(r: Row, ops: seq<Op>, now: Time)
    ensures ops == [] ==> DoAll(r, ops, now) == r
    ensures |ops| == 1 ==> DoAll(r, ops, now) == Do(r, ops[0], now)
    ensures |ops| == 2 ==> DoAll(r, ops, now) == Do(Do(r, ops[0], now), ops[1], now)
  {
    if |ops| == 1 {
      assert ops[1..] == [];
      assert DoAll(r, ops, now) == DoAll(Do(r, ops[0], now), [], now);
    } else if |ops| == 2 {
      var d := Do(r, ops[0], now);
      assert ops[1..] == [ops[1]] && [ops[1]][1..] == [];
      assert DoAll(d, [ops[1]], now) == DoAll(Do(d, ops[1], now), [], now);
    }
  }

  lemma {:induction false} DoAllAppend(r: Row, a: seq<Op>, b: seq<Op>, now: Time)
    ensures DoAll(r, a + b, now) == DoAll(DoAll(r, a, now), b, now)
    decreases |a|
  {
    if a == [] {
      assert a + b == b;
    } else {
      assert (a + b)[1..] == a[1..] + b;
      DoAllAppend(Do(r, a[0], now), a[1..], b, now);
    }
  }

  lemma {:induction false} DoAllExecutes(r: Row, ops: seq<Op>, now: Time)
    ensures DoAll(r, ops, now).c == ExecAll(r.c, ops, now)
    decreases |ops|
  {
    if ops != [] {
      DoAllExecutes(Do(r, ops[0], now), ops[1..], now);
    }
  }

  /** A pass over a row and its history: the two scans one after the other. */
  lemma SweepDo(r: Row, backoff: Time, now: Time)
    ensures var mid := if IsStuck(r.c, now) then Do(r, StuckOp(r.c, backoff, now), now) else r;
            DoAll(r, SweepOps(r.c, backoff, now), now) ==
            if ExpiredPending(mid.c, now) then Do(mid, Op.MarkExpired, now) else mid
  {
    var first := SweepStuck(r.c, backoff, now);
    DoAllExecutes(r, first, now);
    DoShort(r, first, now);
    var mid := DoAll(r, first, now);
    var second := SweepExpired(mid.c, now);
    DoAllAppend(r, first, second, now);
    DoShort(mid, second, now);
  }

  /** The `commands` table after a step, in the terms of the methods of `Store` and `Service`. */
  ghost function Promised(cfg: Settings, s: Sys, e: Step): Commands
    requires Enabled(cfg, s, e)
  {
    var t := Table(s);
    match e
    case Create(id, deviceId, action, params, timeoutSec, now) =>
      t[id := NewCommand(cfg, deviceId, action, params, timeoutSec, now)]
    case WsLease(_, id, now) => ExecAt(t, id, WsLeaseOp(cfg, now), now)
    case WsDone(ticket, now) =>
      ExecAt(t, s.flights[ticket].id, WsDoneOp(cfg, s.flights[ticket].outcome.value, now), now)
    case Pull(_, requestId, _, ids, now) => PulledTable(cfg, t, ids, requestId, now)
    case Ack(deviceId, id, accepted, _, now) => OwnedExec(t, deviceId, id, AckOp(accepted, now), now)
    case Report(deviceId, id, input, now) => OwnedExec(t, deviceId, id, ResultOp(input), now)
    case CancelStep(id, now) => ExecAt(t, id, Op.Cancel, now)
    case Reap(now) => SweptTable(t, cfg.retryBackoff, now)
    case ReapNext(id, _) =>
      if IsStuck(s.todo[id], s.scanAt)
      then ExecAt(t, id, StuckOp(s.todo[id], cfg.retryBackoff, s.scanAt), s.scanAt)
      else t
    case ExpireNext(id, _) => ExecAt(t, id, Op.MarkExpired, s.scanAt)
    case _ => t
  }

  lemma PromisedRow(cfg: Settings, s: Sys, e: Step, id: Id)
    requires Enabled(cfg, s, e) && id in s.rows
    ensures id in Promised(cfg, s, e)
    ensures NextRows(cfg, s, e)[id].c == Promised(cfg, s, e)[id]
  {
    var ops := RowOps(cfg, s, e, id);
    DoAllExecutes(s.rows[id], ops, OpTime(s, e));
    if !e.Pull? && !e.Reap? {
      assert |ops| <= 1;
      ExecShort(s.rows[id].c, ops, OpTime(s, e));
    }
  }

  lemma PromisedKeys(cfg: Settings, s: Sys, e: Step)
    requires Enabled(cfg, s, e)
    ensures Promised(cfg, s, e).Keys == NextRows(cfg, s, e).Keys
  {
  }

  /** The rows of a step and the table of `Promised` agree. */
  lemma StepsAreMethods(cfg: Settings, s: Sys, e: Step)
    requires Enabled(cfg, s, e)
    ensures Table(Next(cfg, s, e)) == Promised(cfg, s, e)
  {
    PromisedKeys(cfg, s, e);
    var t, p := Table(Next(cfg, s, e)), Promised(cfg, s, e);
    assert t.Keys == NextRows(cfg, s, e).Keys;
    forall id | id in t ensures t[id] == p[id] {
      if id in s.rows {
        PromisedRow(cfg, s, e, id);
      }
    }
  }

  /** The new entries of the log are the answer to a device. */
  ghost predicate Answered(device: Id, before: seq<Delivery>, after: seq<Delivery>, answer: seq<DeliverPayload>) {
    && before <= after && |after| == |before| + |answer|
    && forall i :: 0 <= i < |answer| ==> after[|before| + i].message == Message(device, answer[i])
  }

  lemma PullAnswered(cfg: Settings, s: Sys, e: Step, answer: seq<DeliverPayload>)
    requires Enabled(cfg, s, e) && e.Pull? && PayloadIds(answer) == e.ids
    requires forall i :: 0 <= i < |answer| ==>
               var id := answer[i].commandId; id in s.rows && answer[i] == PayloadOf(id, s.rows[id].c)
    ensures Answered(e.deviceId, s.log, NextLog(cfg, s, e), answer)
  {
  }

  /**
   A step carried out by the methods of `Store` and `Service`: whatever they do is what the machine does. Which rows a
   Pull returns is up to the method, so `done` is `e` with those rows. What the devices are sent is what the log of the
   machine says.
   */
  method Perform(svc: Service, s: Sys, e: Step) returns (done: Step, answer: seq<DeliverPayload>)
    requires svc.store.commands == Table(s) && svc.store.results == s.results
    requires e.Pull? || Enabled(svc.cfg, s, e)
    requires s.clock <= e.now
    requires e.WsDeliver? ==> s.flights[e.ticket].id in s.rows
    modifies svc.store, svc`written
    ensures done == if e.Pull? && done.Pull? then e.(ids := done.ids) else e
    ensures Enabled(svc.cfg, s, done)
    ensures svc.store.commands == Table(Next(svc.cfg, s, done))
    ensures svc.store.results == Next(svc.cfg, s, done).results
    ensures var log := Next(svc.cfg, s, done).log;
            match done
            case WsDeliver(_, _, _) => svc.written == old(svc.written) + [log[|s.log|].message]
            case Pull(deviceId, _, _, _, _) =>
              svc.written == old(svc.written) && Answered(deviceId, s.log, log, answer)
            case _ => svc.written == old(svc.written) && log == s.log
  {
    var store := svc.store;
    done, answer := e, [];
    match e {
      case Create(id, deviceId, action, params, timeoutSec, now) =>
        var _ := store.Insert(id, NewCommand(svc.cfg, deviceId, action, params, timeoutSec, now));
      case WsLease(_, id, now) =>
        var _ := svc.TakeLease(id, now);
      case WsDeliver(ticket, _, _) =>
        svc.Deliver(s.flights[ticket].id, s.rows[s.flights[ticket].id].c);
      case WsDone(ticket, now) =>
        var f := s.flights[ticket];
        var _ := svc.Finish(f.id, f.outcome.value, now, now);
      case Pull(deviceId, requestId, limit, _, now) =>
        answer := svc.LeaseForPull(deviceId, requestId, limit, now);
        done := e.(ids := PayloadIds(answer));
        PullAnswered(svc.cfg, s, done, answer);
      case Ack(deviceId, id, accepted, message, now) =>
        svc.HandleAck(deviceId, id, accepted, message, now);
      case Report(deviceId, id, input, now) =>
        svc.HandleResult(deviceId, id, input, now);
      case CancelStep(id, now) =>
        var _ := svc.CancelCommand(id, now);
      case Reap(now) =>
        svc.ReapOnce(now);
      case ScanActive(_) =>
        var ids := store.FindActive();
        assert forall id :: id in ids <==> id in NextTodo(s, e);
      case ReapNext(id, _) =>
        svc.ReapSeen(id, s.todo[id], s.scanAt);
      case ScanExpired(_) =>
        var ids := store.FindExpiredPending(s.scanAt);
        assert forall id :: id in ids <==> id in NextOverdue(s, e);
      case ExpireNext(id, _) =>
        var _ := store.MarkExpired(id, s.scanAt);
      case EndPass(_) =>
    }
    StepsAreMethods(svc.cfg, s, done);
  }
}
