/** The use cases of the queue. Each method body between two statements of the store runs in one transaction. */
module CommandService {
  import opened Options
  import opened CommandTypes
  import opened CommandStore
  import opened CommandReaper
  import opened Utf8Truncate

  datatype Settings = Settings(
    resultMaxBytes: nat,
    pendingTtl: Time,
    defaultMaxAttempts: int,
    leaseDuration: Time,
    retryBackoff: Time,
    pullMaxCommands: int,
    instanceId: string)

  datatype DeliverPayload = DeliverPayload(commandId: Id, action: string, params: string, timeoutSec: int)

  /** A payload on its way to a device. */
  datatype Message = Message(device: Id, payload: DeliverPayload)

  function PayloadOf(id: Id, c: Command): DeliverPayload {
    DeliverPayload(id, c.action, c.params, c.timeoutSec)
  }

  datatype ResultInput = ResultInput(
    status: string,
    exitCode: Option<int>,
    stdout: Bytes,
    stderr: Bytes,
    result: Bytes,
    errorMessage: Bytes,
    startedAt: Option<Time>,
    finishedAt: Option<Time>)

  datatype Hint = DeliveredViaWs | QueuedForRetry | OfflineWaitForPull

  datatype CancelOutcome = CommandCanceled | CommandNotFound | CommandNotCancelable

  /**
   One WebSocket attempt: when the lease is taken, whether the write returns no error (`clean`), and the clock readings
   at its end: the first one for the backoff of a failed write, the second one for the last statement.
   */
  datatype Attempt = Attempt(leaseAt: Time, clean: bool, failedAt: Time, doneAt: Time)

  const MAX_MESSAGE: nat := 1024
  const MAX_DISPATCH_PER_RECONNECT: int := 50

  /** The dispatcher replaces a non-positive lease duration by one minute; Pull uses the setting as it is. */
  function LeaseTime(cfg: Settings): Time {
    if cfg.leaseDuration <= 0 then 60 * SECOND else cfg.leaseDuration
  }

  // ----- Creating and delivering -----

  function NewCommand(cfg: Settings, deviceId: Id, action: string, params: string, timeoutSec: int, now: Time): Command
  {
    Command(deviceId, action, params, Pending, 100, timeoutSec, 0,
            if cfg.defaultMaxAttempts < 1 then 1 else cfg.defaultMaxAttempts,
            None, None, None, None, None, None, Some(now + cfg.pendingTtl), None, now, now)
  }

  function WsLeaseOp(cfg: Settings, now: Time): Op {
    Op.Lease("ws:" + cfg.instanceId, now + LeaseTime(cfg))
  }

  function WsDoneOp(cfg: Settings, clean: bool, now: Time): Op {
    if clean then Op.MarkSent else Op.ReleaseLease(now + cfg.retryBackoff)
  }

  /** An undisturbed delivery attempt on one row. */
  function Tried(cfg: Settings, c: Command, a: Attempt): Command {
    if Available(c, a.leaseAt)
    then Exec(Exec(c, WsLeaseOp(cfg, a.leaseAt), a.leaseAt), WsDoneOp(cfg, a.clean, a.failedAt), a.doneAt)
    else c
  }

  /** What an attempt sends to a device, if it gets the lease. */
  function Written(id: Id, c: Command, a: Attempt): seq<Message> {
    if Available(c, a.leaseAt) then [Message(c.deviceId, PayloadOf(id, c))] else []
  }

  /** What the attempts on several rows send, one after the other. */
  function AllWritten(t: Commands, ids: seq<Id>, plan: Id -> Attempt): seq<Message> {
    if ids == [] then []
    else
      var last := ids[|ids| - 1];
      AllWritten(t, ids[..|ids| - 1], plan) + if last in t then Written(last, t[last], plan(last)) else []
  }

  /** Rows that wait at `now` are all sent for, in order. */
  lemma {:induction false} AllWrittenInOrder(t: Commands, ids: seq<Id>, plan: Id -> Attempt, now: Time)
    requires forall id :: id in ids ==> id in t && Available(t[id], now) && now <= plan(id).leaseAt
    ensures |AllWritten(t, ids, plan)| == |ids|
    ensures forall i :: 0 <= i < |ids| ==> AllWritten(t, ids, plan)[i].payload.commandId == ids[i]
    decreases |ids|
  {
    if ids != [] {
      AllWrittenInOrder(t, ids[..|ids| - 1], plan, now);
      assert ids[|ids| - 1] in ids;
    }
  }

  /** Undisturbed attempts on several rows. */
  function TriedTable(cfg: Settings, t: Commands, ids: seq<Id>, plan: Id -> Attempt): Commands {
    map id | id in t :: if id in ids then Tried(cfg, t[id], plan(id)) else t[id]
  }

  lemma TriedOneMore(cfg: Settings, t: Commands, ids: seq<Id>, id: Id, plan: Id -> Attempt)
    requires id in t && id !in ids
    ensures TriedTable(cfg, t, ids, plan)[id] == t[id]
    ensures TriedTable(cfg, t, ids + [id], plan) == TriedTable(cfg, t, ids, plan)[id := Tried(cfg, t[id], plan(id))]
    ensures AllWritten(t, ids + [id], plan) == AllWritten(t, ids, plan) + Written(id, t[id], plan(id))
  {
    assert (ids + [id])[..|ids|] == ids;
  }

  // ----- Pull -----

  function PullLimit(cfg: Settings, limit: int): nat {
    var n := AtLeastOne(limit);
    if cfg.pullMaxCommands > 0 && n > cfg.pullMaxCommands then cfg.pullMaxCommands else n
  }

  function PullOps(cfg: Settings, requestId: string, now: Time): seq<Op> {
    [Op.Lease("pull:" + requestId, now + cfg.leaseDuration), Op.MarkSent]
  }

  function PulledTable(cfg: Settings, t: Commands, ids: seq<Id>, requestId: string, now: Time): Commands {
    map id | id in t :: if id in ids then ExecAll(t[id], PullOps(cfg, requestId, now), now) else t[id]
  }

  function PayloadIds(out: seq<DeliverPayload>): (ids: seq<Id>)
    ensures |ids| == |out| && forall i :: 0 <= i < |ids| ==> ids[i] == out[i].commandId
  {
    seq(|out|, i requires 0 <= i < |out| => out[i].commandId)
  }

  // ----- Answers of the agent -----

  /** An agent may only answer for its own commands. */
  predicate Owned(t: Commands, deviceId: Id, id: Id) {
    id in t && t[id].deviceId == deviceId
  }

  function AckOp(accepted: bool, now: Time): Op {
    if accepted then Op.MarkAcked else Op.ApplyResultStatus(Failed, None, Some(now))
  }

  function Rejection(deviceId: Id, message: Bytes, now: Time): CommandResult {
    CommandResult(deviceId, Failed, None, None, None, None, Some(Truncated(message, MAX_MESSAGE)), false, None,
                  Some(now), now)
  }

  function NonEmpty(s: Bytes): Option<Bytes> {
    if s == [] then None else Some(s)
  }

  function ResultRecord(max: nat, deviceId: Id, r: ResultInput, now: Time): CommandResult {
    CommandResult(deviceId, ReportedStatus(r.status), r.exitCode,
                  NonEmpty(Truncated(r.stdout, max)), NonEmpty(Truncated(r.stderr, max)),
                  NonEmpty(Truncated(r.result, max)), NonEmpty(Truncated(r.errorMessage, MAX_MESSAGE)),
                  |r.stdout| > max || |r.stderr| > max || |r.result| > max,
                  r.startedAt, r.finishedAt, now)
  }

  /** A stored text is the text sent, or the part of it within the limit; an empty one is stored as NULL. */
  ghost predicate StoredOf(stored: Option<Bytes>, sent: Bytes, max: nat) {
    if stored.None? then sent == [] || max <= 3
    else stored.value != [] && stored.value <= sent && |stored.value| <= max && (|sent| <= max ==> stored.value == sent)
  }

  /** The flag tells exactly whether output was lost; a shortened error message alone does not set it. */
  lemma ResultRecordFits(max: nat, deviceId: Id, r: ResultInput, now: Time)
    ensures var rec := ResultRecord(max, deviceId, r, now);
            && StoredOf(rec.stdout, r.stdout, max)
            && StoredOf(rec.stderr, r.stderr, max)
            && StoredOf(rec.resultJson, r.result, max)
            && StoredOf(rec.errorMessage, r.errorMessage, MAX_MESSAGE)
            && (!rec.truncated <==>
                rec.stdout == NonEmpty(r.stdout) && rec.stderr == NonEmpty(r.stderr) &&
                rec.resultJson == NonEmpty(r.result))
  {
  }

  function ResultOp(r: ResultInput): Op {
    Op.ApplyResultStatus(ReportedStatus(r.status), r.startedAt, r.finishedAt)
  }

  function OwnedExec(t: Commands, deviceId: Id, id: Id, op: Op, now: Time): Commands {
    if Owned(t, deviceId, id) then ExecAt(t, id, op, now) else t
  }

  function OwnedInsert(t: Commands, r: Results, deviceId: Id, id: Id, rec: CommandResult): Results {
    if Owned(t, deviceId, id) then InsertedIfAbsent(r, id, rec) else r
  }

  class Service {
    const cfg: Settings
    const store: Store
    /** What was given to the connections so far. */
    ghost var written: seq<Message>

    constructor (cfg: Settings, store: Store)
      ensures this.cfg == cfg && this.store == store && written == []
    {
      this.cfg, this.store, written := cfg, store, [];
    }

    /** The first step of a delivery. */
    method TakeLease(id: Id, now: Time) returns (leased: bool)
      modifies store`commands
      ensures store.commands == ExecAt(old(store.commands), id, WsLeaseOp(cfg, now), now)
      ensures leased == Affects(old(store.commands), id, WsLeaseOp(cfg, now), now)
    {
      leased := store.Lease(id, "ws:" + cfg.instanceId, now + LeaseTime(cfg), now);
    }

    /** The write to the connection of the device. */
    method Deliver(id: Id, c: Command)
      modifies this`written
      ensures written == old(written) + [Message(c.deviceId, PayloadOf(id, c))]
    {
      written := written + [Message(c.deviceId, DeliverPayload(id, c.action, c.params, c.timeoutSec))];
    }

    /** The last step of a delivery, whatever happened to the row since its lease. */
    method Finish(id: Id, clean: bool, failedAt: Time, now: Time) returns (delivered: bool)
      modifies store`commands
      ensures store.commands == ExecAt(old(store.commands), id, WsDoneOp(cfg, clean, failedAt), now)
      ensures delivered <==> clean && Affects(old(store.commands), id, Op.MarkSent, now)
    {
      if !clean {
        store.ReleaseLease(id, failedAt + cfg.retryBackoff, now);
        return false;
      }
      delivered := store.MarkSent(id, now);
    }

    /** Lease, deliver, then mark sent or give the lease back; undisturbed by other writers. */
    method TryDeliver(id: Id, a: Attempt) returns (delivered: bool)
      modifies store`commands, this`written
      ensures store.commands ==
              if id in old(store.commands) then old(store.commands)[id := Tried(cfg, old(store.commands)[id], a)]
              else old(store.commands)
      ensures delivered <==> id in old(store.commands) && Available(old(store.commands)[id], a.leaseAt) && a.clean
      ensures written == old(written) +
                        if id in old(store.commands) then Written(id, old(store.commands)[id], a) else []
    {
      var leased := TakeLease(id, a.leaseAt);
      if !leased {
        return false;
      }
      Deliver(id, store.commands[id]);
      delivered := Finish(id, a.clean, a.failedAt, a.doneAt);
    }

    /** What goes to the device is the order as stored; the row stays queued unless the write returns no error. */
    method CreateCommand(id: Id, deviceId: Id, action: string, params: string, timeoutSec: int, now: Time,
                         online: bool, a: Attempt)
      returns (hint: Hint)
      requires id !in store.commands
      modifies store`commands, this`written
      ensures store.commands.Keys == old(store.commands).Keys + {id}
      ensures forall k :: k in old(store.commands) ==> store.commands[k] == old(store.commands)[k]
      ensures var row := NewCommand(cfg, deviceId, action, params, timeoutSec, now);
              && store.commands[id] == (if online then Tried(cfg, row, a) else row)
              && written == old(written) +
                            if online then [Message(deviceId, DeliverPayload(id, action, params, timeoutSec))] else []
      ensures hint == if !online then OfflineWaitForPull else if a.clean then DeliveredViaWs else QueuedForRetry
      ensures store.commands[id].status == if hint == DeliveredViaWs then Sent else Pending
    {
      var c := NewCommand(cfg, deviceId, action, params, timeoutSec, now);
      var inserted := store.Insert(id, c);
      hint := OfflineWaitForPull;
      if online {
        var delivered := TryDeliver(id, a);
        hint := if delivered then DeliveredViaWs else QueuedForRetry;
      }
    }

    /** After a reconnect the device gets up to fifty queued commands, earliest first. */
    method DispatchPending(deviceId: Id, now: Time, plan: Id -> Attempt) returns (ids: seq<Id>)
      modifies store`commands, this`written
      ensures FirstOf(old(store.commands), EligibleIds(old(store.commands), deviceId, now),
                      MAX_DISPATCH_PER_RECONNECT, ids)
      ensures |ids| <= 50
      ensures forall id :: id in old(store.commands) && Eligible(old(store.commands)[id], deviceId, now) ==>
                id in ids || |ids| == 50
      ensures (forall id :: id in ids ==> now <= plan(id).leaseAt) ==>
                && |written| == |old(written)| + |ids|
                && forall i :: 0 <= i < |ids| ==> written[|old(written)| + i].payload.commandId == ids[i]
      ensures store.commands == TriedTable(cfg, old(store.commands), ids, plan)
      ensures written == old(written) + AllWritten(old(store.commands), ids, plan)
    {
      ids := store.ListPending(deviceId, now, MAX_DISPATCH_PER_RECONNECT);
      assert Distinct(ids) && forall id :: id in ids ==> id in store.commands;
      assert forall id :: id in ids ==> id in EligibleIds(store.commands, deviceId, now);
      if forall id :: id in ids ==> now <= plan(id).leaseAt {
        AllWrittenInOrder(store.commands, ids, plan, now);
      }
      TryAll(ids, plan);
    }

    method TryAll(ids: seq<Id>, plan: Id -> Attempt)
      requires Distinct(ids) && forall id :: id in ids ==> id in store.commands
      modifies store`commands, this`written
      ensures store.commands == TriedTable(cfg, old(store.commands), ids, plan)
      ensures written == old(written) + AllWritten(old(store.commands), ids, plan)
    {
      var i := 0;
      while i < |ids|
        invariant 0 <= i <= |ids|
        invariant store.commands == TriedTable(cfg, old(store.commands), ids[..i], plan)
        invariant written == old(written) + AllWritten(old(store.commands), ids[..i], plan)
      {
        assert ids[i] in old(store.commands) && ids[i] !in ids[..i];
        TriedOneMore(cfg, old(store.commands), ids[..i], ids[i], plan);
        assert ids[..i + 1] == ids[..i] + [ids[i]];
        var _ := TryDeliver(ids[i], plan(ids[i]));
        i := i + 1;
      }
      assert ids[..i] == ids;
    }

    /** The first eligible commands of the device are leased, marked sent and returned, in one transaction. */
    method LeaseForPull(deviceId: Id, requestId: string, limit: int, now: Time) returns (out: seq<DeliverPayload>)
      modifies store`commands
      ensures FirstOf(old(store.commands), EligibleIds(old(store.commands), deviceId, now), PullLimit(cfg, limit),
                      PayloadIds(out))
      ensures forall i :: 0 <= i < |out| ==>
                out[i] == PayloadOf(out[i].commandId, old(store.commands)[out[i].commandId])
      ensures store.commands == PulledTable(cfg, old(store.commands), PayloadIds(out), requestId, now)
    {
      var n := if limit <= 0 then 1 else limit;
      if cfg.pullMaxCommands > 0 && n > cfg.pullMaxCommands {
        n := cfg.pullMaxCommands;
      }
      var cmds := store.LeasePendingCommands(deviceId, "pull:" + requestId, now + cfg.leaseDuration, now, n);
      out := MarkPulled(cmds, now);
      PullTwoPhases(cfg, old(store.commands), PayloadIds(out), requestId, now);
    }

    /** The second half of a Pull: every leased row becomes sent and goes into the answer. */
    method MarkPulled(cmds: seq<(Id, Command)>, now: Time) returns (out: seq<DeliverPayload>)
      requires Distinct(LeasedIds(cmds))
      modifies store`commands
      ensures PayloadIds(out) == LeasedIds(cmds)
      ensures forall i :: 0 <= i < |out| ==> out[i] == PayloadOf(cmds[i].0, cmds[i].1)
      ensures store.commands == ExecOn(old(store.commands), LeasedIds(cmds), Op.MarkSent, now)
    {
      ghost var ids := LeasedIds(cmds);
      out := [];
      var i := 0;
      while i < |cmds|
        invariant 0 <= i <= |cmds| && |out| == i
        invariant forall k :: 0 <= k < i ==> out[k] == PayloadOf(cmds[k].0, cmds[k].1)
        invariant store.commands == ExecOn(old(store.commands), ids[..i], Op.MarkSent, now)
      {
        assert ids[i] !in ids[..i];
        assert ids[..i + 1] == ids[..i] + [ids[i]];
        var _ := store.MarkSent(cmds[i].0, now);
        out := out + [PayloadOf(cmds[i].0, cmds[i].1)];
        i := i + 1;
      }
      assert ids[..i] == ids;
    }

    method HandleAck(deviceId: Id, id: Id, accepted: bool, message: Bytes, now: Time)
      modifies store
      ensures store.commands == OwnedExec(old(store.commands), deviceId, id, AckOp(accepted, now), now)
      ensures store.results == if accepted then old(store.results)
                               else OwnedInsert(old(store.commands), old(store.results), deviceId, id,
                                                Rejection(deviceId, message, now))
    {
      if id !in store.commands || store.commands[id].deviceId != deviceId {
        return;
      }
      if accepted {
        var _ := store.MarkAcked(id, now);
        return;
      }
      var _ := store.ApplyResultStatus(id, Failed, None, Some(now), now);
      var text, _ := Truncate(message, MAX_MESSAGE);
      var _ := store.InsertIfAbsent(id, CommandResult(deviceId, Failed, None, None, None, None, Some(text), false, None,
                                                      Some(now), now));
    }

    method HandleResult(deviceId: Id, id: Id, r: ResultInput, now: Time)
      modifies store
      ensures store.commands == OwnedExec(old(store.commands), deviceId, id, ResultOp(r), now)
      ensures store.results == OwnedInsert(old(store.commands), old(store.results), deviceId, id,
                                           ResultRecord(cfg.resultMaxBytes, deviceId, r, now))
    {
      if id !in store.commands || store.commands[id].deviceId != deviceId {
        return;
      }
      var status := if r.status == "succeeded" then Succeeded else if r.status == "timeout" then Timeout else Failed;
      var stdout, t1 := Truncate(r.stdout, cfg.resultMaxBytes);
      var stderr, t2 := Truncate(r.stderr, cfg.resultMaxBytes);
      var json, t3 := Truncate(r.result, cfg.resultMaxBytes);
      var message, _ := Truncate(r.errorMessage, MAX_MESSAGE);
      var rec := CommandResult(deviceId, status, r.exitCode, NonEmpty(stdout), NonEmpty(stderr), NonEmpty(json),
                               NonEmpty(message), t1 || t2 || t3, r.startedAt, r.finishedAt, now);
      var _ := store.InsertIfAbsent(id, rec);
      var _ := store.ApplyResultStatus(id, status, r.startedAt, r.finishedAt, now);
    }

    method CancelCommand(id: Id, now: Time) returns (outcome: CancelOutcome)
      modifies store`commands
      ensures store.commands == ExecAt(old(store.commands), id, Op.Cancel, now)
      ensures outcome == if id !in old(store.commands) then CommandNotFound
                         else if IsTerminal(old(store.commands)[id].status) then CommandNotCancelable
                         else CommandCanceled
    {
      if id !in store.commands {
        return CommandNotFound;
      }
      var canceled := store.Cancel(id, now);
      return if canceled then CommandCanceled else CommandNotCancelable;
    }

    /** One reaper pass at one clock reading, undisturbed by other writers. */
    method ReapOnce(now: Time)
      modifies store`commands
      ensures store.commands == SweptTable(old(store.commands), cfg.retryBackoff, now)
    {
      ReapStuck(now);
      ReapExpired(now);
      forall id | id in old(store.commands)
        ensures store.commands[id] == Swept(old(store.commands)[id], cfg.retryBackoff, now)
      {
        SweptInTwo(old(store.commands)[id], cfg.retryBackoff, now);
      }
    }

    method ReapStuck(now: Time)
      modifies store`commands
      ensures store.commands ==
              map id | id in old(store.commands) :: StuckSwept(old(store.commands)[id], cfg.retryBackoff, now)
    {
      var active := store.FindActive();
      var seen := store.commands;
      var i := 0;
      while i < |active|
        invariant 0 <= i <= |active|
        invariant store.commands.Keys == seen.Keys
        invariant forall id :: id in seen ==>
                    store.commands[id] == if id in active[..i] then StuckSwept(seen[id], cfg.retryBackoff, now)
                                          else seen[id]
      {
        var id := active[i];
        assert id in ActiveIds(seen) && id !in active[..i];
        assert active[..i + 1] == active[..i] + [id];
        ReapSeen(id, seen[id], now);
        i := i + 1;
      }
      assert active[..i] == active;
      assert forall id :: id in seen && id !in active ==> id !in ActiveIds(seen);
    }

    /** A row the scan read as stuck is retried while it has attempts left, and times out after that. */
    method ReapSeen(id: Id, seen: Command, now: Time)
      modifies store`commands
      ensures store.commands ==
              if IsStuck(seen, now) then ExecAt(old(store.commands), id, StuckOp(seen, cfg.retryBackoff, now), now)
              else old(store.commands)
    {
      if IsStuck(seen, now) {
        if seen.attempts < seen.maxAttempts {
          var _ := store.RetryToPending(id, REASON, now + cfg.retryBackoff, now);
        } else {
          var _ := store.MarkTimeout(id, now);
        }
      }
    }

    method ReapExpired(now: Time)
      modifies store`commands
      ensures store.commands == map id | id in old(store.commands) :: ExpirySwept(old(store.commands)[id], now)
    {
      var expired := store.FindExpiredPending(now);
      ghost var before := store.commands;
      var i := 0;
      while i < |expired|
        invariant 0 <= i <= |expired|
        invariant store.commands == ExecOn(before, expired[..i], Op.MarkExpired, now)
      {
        assert expired[i] in ExpiredIds(before, now) && expired[i] !in expired[..i];
        assert expired[..i + 1] == expired[..i] + [expired[i]];
        var _ := store.MarkExpired(expired[i], now);
        i := i + 1;
      }
      assert expired[..i] == expired;
      assert forall id :: id in before && id !in expired ==> id !in ExpiredIds(before, now);
    }
  }

  /** Leasing all rows and then marking all sent is the same as treating row after row. */
  lemma PullTwoPhases(cfg: Settings, t: Commands, ids: seq<Id>, requestId: string, now: Time)
    ensures ExecOn(ExecOn(t, ids, PullOps(cfg, requestId, now)[0], now), ids, Op.MarkSent, now) ==
            PulledTable(cfg, t, ids, requestId, now)
  {
    forall id | id in t
      ensures ExecAll(t[id], PullOps(cfg, requestId, now), now) ==
              Exec(Exec(t[id], PullOps(cfg, requestId, now)[0], now), Op.MarkSent, now)
    {
      ExecShort(t[id], PullOps(cfg, requestId, now), now);
    }
  }
}
