/** What holds in every state of every run, whatever the interleaving: the ledger of attempts and the two tables. */
module CommandSafety {
  import opened Options
  import opened CommandTypes
  import opened CommandStore
  import opened CommandReaper
  import opened CommandService
  import opened CommandMachine

  // ----- Rows -----

  /** Each lease is paid back by a release, a reaper retry, or is the one still charged. */
  ghost predicate Ledger(r: Row) {
    && r.c.attempts == |r.h.leases|
    && r.c.attempts == r.h.releases + r.h.retries + (if r.h.charged then 1 else 0)
    && (r.h.charged <==> HoldsAttempt(r))
    && (r.h.closedFrom.Some? <==> IsTerminal(r.c.status))
  }

  /** The row is active, or was until it was closed. */
  predicate HoldsAttempt(r: Row) {
    IsActive(r.c.status) || (r.h.closedFrom.Some? && IsActive(r.h.closedFrom.value))
  }

  ghost predicate RowOk(r: Row) {
    && Ledger(r)
    && !r.c.status.Running?
    && r.c.maxAttempts >= 1
    && r.c.expiresAt.Some?
    && (!IsTerminal(r.c.status) ==> r.c.startedAt.None? && r.c.finishedAt.None?)
    && (r.c.status.Pending? ==> r.c.leasedBy.None?)
    && (IsActive(r.c.status) ==> r.c.leasedBy == Some(r.h.leases[|r.h.leases| - 1].holder))
    && (r.c.status in {Canceled, Expired} ==> r.c.finishedAt.Some?)
  }

  /** Statements the queue runs: a result has one of the three reportable statuses. */
  predicate IsQueueOp(op: Op) {
    op.ApplyResultStatus? ==> op.status in {Succeeded, Failed, Timeout}
  }

  /** Columns that no statement writes. */
  predicate SameOrder(c: Command, d: Command) {
    d.deviceId == c.deviceId && d.action == c.action && d.params == c.params && d.priority == c.priority &&
    d.timeoutSec == c.timeoutSec && d.maxAttempts == c.maxAttempts && d.expiresAt == c.expiresAt &&
    d.createdAt == c.createdAt
  }

  /** The first acknowledgement of a command is the one whose time is kept, through every retry. */
  predicate FirstAckStays(c: Command, d: Command) {
    c.ackedAt.Some? ==> d.ackedAt == c.ackedAt
  }

  lemma OpKeepsRow(r: Row, op: Op, now: Time)
    requires RowOk(r) && IsQueueOp(op)
    ensures RowOk(Do(r, op, now))
    ensures SameOrder(r.c, Do(r, op, now).c)
    ensures IsTerminal(r.c.status) ==> Do(r, op, now) == r
    ensures r.h.leases <= Do(r, op, now).h.leases
    ensures FirstAckStays(r.c, Do(r, op, now).c)
  {
  }

  lemma {:induction false} OpsKeepRow(r: Row, ops: seq<Op>, now: Time)
    requires RowOk(r) && forall op :: op in ops ==> IsQueueOp(op)
    ensures RowOk(DoAll(r, ops, now))
    ensures SameOrder(r.c, DoAll(r, ops, now).c)
    ensures IsTerminal(r.c.status) ==> DoAll(r, ops, now) == r
    ensures r.h.leases <= DoAll(r, ops, now).h.leases
    ensures FirstAckStays(r.c, DoAll(r, ops, now).c)
    decreases |ops|
  {
    if ops != [] {
      OpKeepsRow(r, ops[0], now);
      OpsKeepRow(Do(r, ops[0], now), ops[1..], now);
    }
  }

  lemma RowOpsAreQueueOps(cfg: Settings, s: Sys, e: Step, id: Id)
    requires Enabled(cfg, s, e) && id in s.rows
    ensures forall op :: op in RowOps(cfg, s, e, id) ==> IsQueueOp(op)
  {
  }

  ghost predicate RowsOk(s: Sys) {
    forall id :: id in s.rows ==> RowOk(s.rows[id])
  }

  lemma StepKeepsRow(cfg: Settings, s: Sys, e: Step, id: Id)
    requires Enabled(cfg, s, e) && RowsOk(s) && id in s.rows
    ensures var r, r' := s.rows[id], Next(cfg, s, e).rows[id];
            && RowOk(r') && SameOrder(r.c, r'.c)
            && (IsTerminal(r.c.status) ==> r' == r)
            && r.h.leases <= r'.h.leases
            && FirstAckStays(r.c, r'.c)
  {
    RowOpsAreQueueOps(cfg, s, e, id);
    OpsKeepRow(s.rows[id], RowOps(cfg, s, e, id), OpTime(s, e));
  }

  lemma StepKeepsRows(cfg: Settings, s: Sys, e: Step)
    requires Enabled(cfg, s, e) && RowsOk(s)
    ensures RowsOk(Next(cfg, s, e)) && s.rows.Keys <= Next(cfg, s, e).rows.Keys
  {
    forall id | id in s.rows ensures RowOk(Next(cfg, s, e).rows[id]) {
      StepKeepsRow(cfg, s, e, id);
    }
  }

  // ----- The reaper's reading of a row -----

  /**
   Retries stay below the limit, even between the scan of a pass and its updates: what the scan read has at
   least one attempt more than the retries made so far.
   */
  ghost predicate RetriesOk(s: Sys) {
    && (!s.phase.Retrying? ==> s.todo == map[])
    && (forall id :: id in s.rows ==> s.rows[id].h.retries < s.rows[id].c.maxAttempts)
    && forall id :: id in s.todo ==>
         id in s.rows && SeenOk(s, id)
  }

  /** A single lease, retry or result statement explains every change of the history and every reported end. */
  lemma {:induction false} OpsFrame(r: Row, ops: seq<Op>, now: Time)
    ensures (forall op :: op in ops ==> !op.Lease?) ==> DoAll(r, ops, now).h.leases == r.h.leases
    ensures (forall op :: op in ops ==> !op.ReleaseLease?) ==> DoAll(r, ops, now).h.releases == r.h.releases
    ensures (forall op :: op in ops ==> !op.RetryToPending?) ==> DoAll(r, ops, now).h.retries == r.h.retries
    ensures (forall op :: op in ops ==> !op.ApplyResultStatus?) && r.c.status !in {Succeeded, Failed} ==>
              DoAll(r, ops, now).c.status !in {Succeeded, Failed}
    decreases |ops|
  {
    if ops != [] {
      assert ops[0] in ops;
      OpsFrame(Do(r, ops[0], now), ops[1..], now);
    }
  }

  /** Which steps run which statements. */
  lemma OpKinds(cfg: Settings, s: Sys, e: Step, id: Id)
    requires Enabled(cfg, s, e) && id in s.rows
    ensures forall op :: op in RowOps(cfg, s, e, id) ==>
              && (op.Lease? ==> (e.WsLease? && e.id == id) || (e.Pull? && id in e.ids))
              && (op.ReleaseLease? ==> e.WsDone? && s.flights[e.ticket].id == id &&
                                       s.flights[e.ticket].outcome == Some(false))
              && (op.RetryToPending? ==> e.Reap? || e == ReapNext(id, e.now))
              && (op.ApplyResultStatus? ==> e.Ack? || e.Report?)
  {
  }

  ghost predicate SeenOk(s: Sys, id: Id)
    requires id in s.rows && id in s.todo
  {
    s.todo[id].maxAttempts == s.rows[id].c.maxAttempts && s.rows[id].h.retries < s.todo[id].attempts
  }

  lemma RetryCount(cfg: Settings, s: Sys, e: Step, id: Id)
    requires Enabled(cfg, s, e) && id in s.rows
    requires Ledger(s.rows[id]) && s.rows[id].h.retries < s.rows[id].c.maxAttempts
    requires id in s.todo ==> SeenOk(s, id)
    ensures var n, r' := s.rows[id].h.retries, NextRows(cfg, s, e)[id];
            && n <= r'.h.retries < s.rows[id].c.maxAttempts
            && (n < r'.h.retries ==> e.Reap? || e == ReapNext(id, e.now))
  {
    var r, ops := s.rows[id], RowOps(cfg, s, e, id);
    if e.Reap? {
      SweepRetries(r, cfg.retryBackoff, e.now);
    } else if e.ReapNext? && e.id == id {
      DoShort(r, ops, s.scanAt);
      assert ops != [] ==> ops == [StuckOp(s.todo[id], cfg.retryBackoff, s.scanAt)];
    } else {
      OpKinds(cfg, s, e, id);
      OpsFrame(r, ops, OpTime(s, e));
    }
  }

  lemma SweepRetries(r: Row, backoff: Time, now: Time)
    requires Ledger(r) && r.h.retries < r.c.maxAttempts
    ensures r.h.retries <= DoAll(r, SweepOps(r.c, backoff, now), now).h.retries < r.c.maxAttempts
  {
    SweepDo(r, backoff, now);
  }

  lemma StepKeepsSeen(cfg: Settings, s: Sys, e: Step, id: Id)
    requires Enabled(cfg, s, e) && RowsOk(s) && RetriesOk(s) && id in Next(cfg, s, e).todo
    ensures id in Next(cfg, s, e).rows && SeenOk(Next(cfg, s, e), id)
  {
    assert id in s.rows && RowOk(s.rows[id]);
    assert id in s.todo ==> SeenOk(s, id);
    RetryCount(cfg, s, e, id);
    StepKeepsRow(cfg, s, e, id);
  }

  lemma StepKeepsRetries(cfg: Settings, s: Sys, e: Step)
    requires Enabled(cfg, s, e) && RowsOk(s) && RetriesOk(s)
    ensures RetriesOk(Next(cfg, s, e))
  {
    var s' := Next(cfg, s, e);
    forall id | id in s'.rows ensures s'.rows[id].h.retries < s'.rows[id].c.maxAttempts {
      if id in s.rows {
        assert RowOk(s.rows[id]);
        assert id in s.todo ==> SeenOk(s, id);
        RetryCount(cfg, s, e, id);
        StepKeepsRow(cfg, s, e, id);
      }
    }
    forall id | id in s'.todo ensures id in s'.rows && SeenOk(s', id) {
      StepKeepsSeen(cfg, s, e, id);
    }
  }

  // ----- Results -----

  /** A stored result ends its command; success and failure are always backed by a result that says so. */
  ghost predicate TablesAgree(s: Sys) {
    && (forall id :: id in s.results ==>
          && id in s.rows
          && IsTerminal(s.rows[id].c.status)
          && s.results[id].deviceId == s.rows[id].c.deviceId
          && s.results[id].status in {Succeeded, Failed, Timeout})
    && forall id :: id in s.rows && s.rows[id].c.status in {Succeeded, Failed} ==>
         id in s.results && s.results[id].status == s.rows[id].c.status
  }

  /** The agent's message a step carries for row `id`: the status it asks for. */
  ghost function Reported(s: Sys, e: Step, id: Id): Option<Status>
    requires id in s.rows
  {
    match e
    case Ack(deviceId, target, accepted, _, _) =>
      if id == target && s.rows[id].c.deviceId == deviceId && !accepted then Some(Failed) else None
    case Report(deviceId, target, input, _) =>
      if id == target && s.rows[id].c.deviceId == deviceId then Some(ReportedStatus(input.status)) else None
    case _ => None
  }

  lemma AnswerObeyed(cfg: Settings, s: Sys, e: Step, id: Id)
    requires Enabled(cfg, s, e) && id in s.rows && !IsTerminal(s.rows[id].c.status) && (e.Ack? || e.Report?)
    ensures var d, told := Next(cfg, s, e).rows[id].c, Reported(s, e, id);
            if told.Some? then d.status == told.value else d.status !in {Succeeded, Failed}
  {
    DoShort(s.rows[id], RowOps(cfg, s, e, id), e.now);
  }

  /** Success and failure come from such a message only, and it is always obeyed while the command is open. */
  lemma EndOfRow(cfg: Settings, s: Sys, e: Step, id: Id)
    requires Enabled(cfg, s, e) && id in s.rows && !IsTerminal(s.rows[id].c.status)
    ensures var d, told := Next(cfg, s, e).rows[id].c, Reported(s, e, id);
            if told.Some? then d.status == told.value else d.status !in {Succeeded, Failed}
  {
    if e.Ack? || e.Report? {
      AnswerObeyed(cfg, s, e, id);
    } else {
      OpKinds(cfg, s, e, id);
      OpsFrame(s.rows[id], RowOps(cfg, s, e, id), OpTime(s, e));
    }
  }

  /** The results table after a step: a message for an open or closed command is stored once. */
  lemma ResultsAfter(cfg: Settings, s: Sys, e: Step)
    requires Enabled(cfg, s, e)
    ensures forall id :: id in s.results ==> id in NextResults(cfg, s, e) && NextResults(cfg, s, e)[id] == s.results[id]
    ensures forall id :: id in s.rows && Reported(s, e, id).Some? ==> id in NextResults(cfg, s, e)
    ensures forall id :: id in NextResults(cfg, s, e) && id !in s.results ==>
              && id in s.rows
              && Reported(s, e, id) == Some(NextResults(cfg, s, e)[id].status)
              && NextResults(cfg, s, e)[id].deviceId == s.rows[id].c.deviceId
  {
  }

  lemma StepKeepsAgreement(cfg: Settings, s: Sys, e: Step)
    requires Enabled(cfg, s, e) && RowsOk(s) && TablesAgree(s)
    ensures TablesAgree(Next(cfg, s, e))
  {
    var s' := Next(cfg, s, e);
    ResultsAfter(cfg, s, e);
    forall id | id in s'.results
      ensures id in s'.rows && IsTerminal(s'.rows[id].c.status)
      ensures s'.results[id].deviceId == s'.rows[id].c.deviceId && s'.results[id].status in {Succeeded, Failed, Timeout}
    {
      StepKeepsRow(cfg, s, e, id);
      if !IsTerminal(s.rows[id].c.status) {
        EndOfRow(cfg, s, e, id);
      }
    }
    forall id | id in s'.rows && s'.rows[id].c.status in {Succeeded, Failed}
      ensures id in s'.results && s'.results[id].status == s'.rows[id].c.status
    {
      if id in s.rows {
        StepKeepsRow(cfg, s, e, id);
        if !IsTerminal(s.rows[id].c.status) {
          EndOfRow(cfg, s, e, id);
        }
      }
    }
  }

  // ----- Deliveries -----

  /** A flight remembers a lease of its row. */
  ghost predicate FlightsOk(s: Sys) {
    forall k :: k in s.flights ==> FlightOk(s, s.flights[k])
  }

  ghost predicate FlightOk(s: Sys, f: Flight) {
    && f.id in s.rows
    && 1 <= f.attempt <= |s.rows[f.id].h.leases|
    && s.rows[f.id].h.leases[f.attempt - 1].at == f.at
  }

  predicate SameAttempt(f: Flight, id: Id, attempt: nat) {
    f.id == id && f.attempt == attempt
  }

  /** No attempt is in two flights, in a flight and handed over already, or handed over twice. */
  ghost predicate HandedOnce(s: Sys) {
    FlightsApart(s) && WaitingNotHanded(s) && LogLeased(s) && NumbersDiffer(s.log)
  }

  predicate Same(d: Delivery, f: Delivery) {
    d.id == f.id && d.attempt == f.attempt
  }

  /** No two deliveries of one command, by whichever channels, carry the same number. */
  predicate NumbersDiffer(log: seq<Delivery>) {
    forall i, j :: 0 <= i < j < |log| ==> !Same(log[i], log[j])
  }

  ghost predicate FlightsApart(s: Sys) {
    forall j, k :: j in s.flights && k in s.flights && j != k ==>
      !SameAttempt(s.flights[j], s.flights[k].id, s.flights[k].attempt)
  }

  ghost predicate WaitingNotHanded(s: Sys) {
    forall k, d :: k in s.flights && s.flights[k].outcome.None? && d in s.log ==>
      !SameAttempt(s.flights[k], d.id, d.attempt)
  }

  ghost predicate LogLeased(s: Sys) {
    forall d :: d in s.log ==> Leased(s, d)
  }

  ghost predicate Leased(s: Sys, d: Delivery) {
    d.id in s.rows && 1 <= d.attempt <= |s.rows[d.id].h.leases|
  }

  /** The lease a step takes on a row, if any. */
  ghost predicate TakesLease(cfg: Settings, s: Sys, e: Step, id: Id)
    requires Enabled(cfg, s, e)
  {
    && id in s.rows
    && ( || (e.WsLease? && e.id == id && Available(s.rows[id].c, e.now))
         || (e.Pull? && id in e.ids))
  }

  lemma LeaseHistory(cfg: Settings, s: Sys, e: Step, id: Id)
    requires Enabled(cfg, s, e) && id in s.rows
    ensures var l, l' := s.rows[id].h.leases, Next(cfg, s, e).rows[id].h.leases;
            if TakesLease(cfg, s, e, id)
            then Available(s.rows[id].c, e.now) && |l'| == |l| + 1 && l'[..|l|] == l && l'[|l|].at == e.now
            else l' == l
  {
    var r, ops, t := s.rows[id], RowOps(cfg, s, e, id), OpTime(s, e);
    OpKinds(cfg, s, e, id);
    OpsFrame(r, ops, t);
    if e.WsLease? || e.Pull? {
      DoShort(r, ops, t);
      assert e.Pull? && id in e.ids ==> id in EligibleIds(Table(s), e.deviceId, e.now);
    }
  }

  lemma StepKeepsFlights(cfg: Settings, s: Sys, e: Step)
    requires Enabled(cfg, s, e) && FlightsOk(s)
    ensures FlightsOk(Next(cfg, s, e))
  {
    var s' := Next(cfg, s, e);
    forall k | k in s'.flights ensures FlightOk(s', s'.flights[k]) {
      var f := s'.flights[k];
      if k in s.flights {
        assert FlightOk(s, s.flights[k]);
      }
      LeaseHistory(cfg, s, e, f.id);
      var l := s.rows[f.id].h.leases;
      assert f.attempt <= |l| ==> s'.rows[f.id].h.leases[..|l|][f.attempt - 1] == l[f.attempt - 1];
    }
  }

  /** What a step hands over: attempts just taken, or the attempt of a waiting flight. */
  ghost predicate HandedNow(cfg: Settings, s: Sys, e: Step, d: Delivery)
    requires Enabled(cfg, s, e)
  {
    if e.WsDeliver? then SameAttempt(s.flights[e.ticket], d.id, d.attempt)
    else e.Pull? && TakesLease(cfg, s, e, d.id) && d.attempt == |s.rows[d.id].h.leases| + 1
  }

  lemma NewDeliveries(cfg: Settings, s: Sys, e: Step) returns (added: seq<Delivery>)
    requires Enabled(cfg, s, e)
    ensures Next(cfg, s, e).log == s.log + added && NumbersDiffer(added)
    ensures forall d :: d in added ==> HandedNow(cfg, s, e, d)
  {
    added := [];
    if e.WsDeliver? {
      var f := s.flights[e.ticket];
      added := [Delivery(f.id, f.attempt, ViaWs, e.clean, WsMessage(s, f.id))];
    } else if e.Pull? {
      added := PulledDeliveries(s, e.deviceId, e.ids);
      assert forall id :: id in e.ids ==> id in EligibleIds(Table(s), e.deviceId, e.now);
    }
  }

  /** Numbers of attempts never taken before. */
  lemma FreshAttempts(cfg: Settings, s: Sys, e: Step)
    requires Enabled(cfg, s, e)
    ensures forall id :: id in s.rows ==> |s.rows[id].h.leases| <= |Next(cfg, s, e).rows[id].h.leases|
    ensures forall id :: TakesLease(cfg, s, e, id) ==> |Next(cfg, s, e).rows[id].h.leases| == |s.rows[id].h.leases| + 1
  {
    forall id | id in s.rows
      ensures |s.rows[id].h.leases| <= |Next(cfg, s, e).rows[id].h.leases|
      ensures TakesLease(cfg, s, e, id) ==> |Next(cfg, s, e).rows[id].h.leases| == |s.rows[id].h.leases| + 1
    {
      LeaseHistory(cfg, s, e, id);
    }
  }

  lemma StepKeepsLog(cfg: Settings, s: Sys, e: Step)
    requires Enabled(cfg, s, e) && FlightsOk(s) && HandedOnce(s)
    ensures LogLeased(Next(cfg, s, e)) && NumbersDiffer(Next(cfg, s, e).log)
  {
    var s' := Next(cfg, s, e);
    FreshAttempts(cfg, s, e);
    var added := NewDeliveries(cfg, s, e);
    assert s'.log == s.log + added;
    forall d | d in s.log ensures Leased(s', d) {
      assert Leased(s, d);
    }
    forall d | d in added ensures Leased(s', d) && forall f :: f in s.log ==> !Same(f, d) {
      HandedIsNew(cfg, s, e, d);
    }
    NumbersDifferConcat(s.log, added);
  }

  lemma HandedIsNew(cfg: Settings, s: Sys, e: Step, d: Delivery)
    requires Enabled(cfg, s, e) && FlightsOk(s) && HandedOnce(s) && HandedNow(cfg, s, e, d)
    ensures Leased(Next(cfg, s, e), d) && forall f :: f in s.log ==> !Same(f, d)
  {
    LeaseHistory(cfg, s, e, d.id);
    if e.WsDeliver? {
      assert FlightOk(s, s.flights[e.ticket]);
    }
    forall f | f in s.log ensures !Same(f, d) {
      assert Leased(s, f);
    }
  }

  lemma NumbersDifferConcat(a: seq<Delivery>, b: seq<Delivery>)
    requires NumbersDiffer(a) && NumbersDiffer(b) && forall d, f :: d in a && f in b ==> !Same(d, f)
    ensures NumbersDiffer(a + b)
  {
    forall i, j | 0 <= i < j < |a + b| ensures !Same((a + b)[i], (a + b)[j]) {
      assert j >= |a| ==> (a + b)[j] in b;
      assert i < |a| ==> (a + b)[i] in a;
    }
  }

  lemma StepKeepsFlightsApart(cfg: Settings, s: Sys, e: Step)
    requires Enabled(cfg, s, e) && FlightsOk(s) && HandedOnce(s)
    ensures FlightsApart(Next(cfg, s, e))
  {
    assert forall k :: k in s.flights ==> FlightOk(s, s.flights[k]);
  }

  lemma StepKeepsWaiting(cfg: Settings, s: Sys, e: Step)
    requires Enabled(cfg, s, e) && FlightsOk(s) && HandedOnce(s)
    ensures WaitingNotHanded(Next(cfg, s, e))
  {
    var s' := Next(cfg, s, e);
    var added := NewDeliveries(cfg, s, e);
    forall k, d | k in s'.flights && s'.flights[k].outcome.None? && d in s'.log
      ensures !SameAttempt(s'.flights[k], d.id, d.attempt)
    {
      if d in s.log {
        assert Leased(s, d);
      } else {
        assert HandedNow(cfg, s, e, d);
        assert k in s.flights && FlightOk(s, s.flights[k]);
      }
    }
  }

  /** Every attempt taken was handed over or is on its way. */
  ghost predicate AllAccounted(s: Sys) {
    forall id, n: nat :: id in s.rows && 1 <= n <= |s.rows[id].h.leases| ==> Accounted(s, id, n)
  }

  ghost predicate Accounted(s: Sys, id: Id, n: nat) {
    || (exists d :: d in s.log && d.id == id && d.attempt == n)
    || (exists k :: IsWaiting(s, k, id) && s.flights[k].attempt == n)
  }

  /** Delivery `k` of the command is between its lease and its write. */
  predicate IsWaiting(s: Sys, k: nat, id: Id) {
    k in s.flights && s.flights[k].outcome.None? && s.flights[k].id == id
  }

  lemma StillAccounted(cfg: Settings, s: Sys, e: Step, id: Id, n: nat)
    requires Enabled(cfg, s, e) && Accounted(s, id, n)
    ensures Accounted(Next(cfg, s, e), id, n)
  {
    var s' := Next(cfg, s, e);
    if d :| d in s.log && d.id == id && d.attempt == n {
      assert d in s'.log;
    } else {
      var k :| IsWaiting(s, k, id) && s.flights[k].attempt == n;
      if e.WsDeliver? && e.ticket == k {
        assert Delivery(id, n, ViaWs, e.clean, WsMessage(s, id)) in s'.log;
      } else {
        assert IsWaiting(s', k, id) && s'.flights[k].attempt == n;
      }
    }
  }

  lemma NewlyAccounted(cfg: Settings, s: Sys, e: Step, id: Id)
    requires Enabled(cfg, s, e) && TakesLease(cfg, s, e, id)
    ensures Accounted(Next(cfg, s, e), id, |s.rows[id].h.leases| + 1)
  {
    var s', n := Next(cfg, s, e), |s.rows[id].h.leases| + 1;
    if e.WsLease? {
      assert IsWaiting(s', e.ticket, id) && s'.flights[e.ticket].attempt == n;
    } else {
      var i :| 0 <= i < |e.ids| && e.ids[i] == id;
      var d := PulledDeliveries(s, e.deviceId, e.ids)[i];
      assert d.id == id && d.attempt == n && d in s'.log;
    }
  }

  lemma StepKeepsAccounts(cfg: Settings, s: Sys, e: Step)
    requires Enabled(cfg, s, e) && AllAccounted(s)
    ensures AllAccounted(Next(cfg, s, e))
  {
    var s' := Next(cfg, s, e);
    forall id, n: nat | id in s'.rows && 1 <= n <= |s'.rows[id].h.leases| ensures Accounted(s', id, n) {
      if id in s.rows {
        LeaseHistory(cfg, s, e, id);
        if n <= |s.rows[id].h.leases| {
          StillAccounted(cfg, s, e, id, n);
        } else {
          NewlyAccounted(cfg, s, e, id);
        }
      }
    }
  }

  // ----- Failed writes -----

  /** Hand-overs of the command whose write failed. */
  function FailedWrites(log: seq<Delivery>, id: Id): set<nat> {
    set i: nat | i < |log| && log[i].id == id && !log[i].clean
  }

  /** Failed deliveries of the command that have yet to give their lease back. */
  function FailedFlights(s: Sys, id: Id): set<nat> {
    set k | k in s.flights && s.flights[k].id == id && s.flights[k].outcome == Some(false)
  }

  /** Every release goes back to a failed write of its own. */
  ghost predicate ReleasesBacked(s: Sys) {
    forall id :: id in s.rows ==> Backed(s, id)
  }

  ghost predicate Backed(s: Sys, id: Id)
    requires id in s.rows
  {
    s.rows[id].h.releases + |FailedFlights(s, id)| <= |FailedWrites(s.log, id)|
  }

  /** Which failed writes and failed flights a step adds or ends. */
  lemma FailuresAfter(cfg: Settings, s: Sys, e: Step, id: Id)
    requires Enabled(cfg, s, e)
    ensures var s' := Next(cfg, s, e);
            var fails := e.WsDeliver? && !e.clean && s.flights[e.ticket].id == id;
            var ends := e.WsDone? && s.flights[e.ticket].id == id && s.flights[e.ticket].outcome == Some(false);
            && FailedWrites(s'.log, id) == FailedWrites(s.log, id) + (if fails then {|s.log|} else {})
            && FailedFlights(s', id) ==
               FailedFlights(s, id) + (if fails then {e.ticket} else {}) - (if ends then {e.ticket} else {})
            && (fails ==> e.ticket !in FailedFlights(s, id)) && (ends ==> e.ticket in FailedFlights(s, id))
  {
    var s' := Next(cfg, s, e);
    assert s.log <= s'.log;
    var fails := e.WsDeliver? && !e.clean && s.flights[e.ticket].id == id;
    forall i: nat | i < |s'.log| && i >= |s.log| ensures !s'.log[i].clean ==> e.WsDeliver? && !e.clean {
      assert e.Pull? ==> s'.log[i] == PulledDeliveries(s, e.deviceId, e.ids)[i - |s.log|];
    }
  }

  lemma StepKeepsBacked(cfg: Settings, s: Sys, e: Step, id: Id)
    requires Enabled(cfg, s, e) && id in s.rows && Backed(s, id)
    ensures Backed(Next(cfg, s, e), id)
  {
    var r, ops, t := s.rows[id], RowOps(cfg, s, e, id), OpTime(s, e);
    FailuresAfter(cfg, s, e, id);
    OpKinds(cfg, s, e, id);
    OpsFrame(r, ops, t);
    if e.WsDone? {
      DoShort(r, ops, t);
    }
  }

  lemma StepKeepsReleasesBacked(cfg: Settings, s: Sys, e: Step)
    requires Enabled(cfg, s, e) && FlightsOk(s) && ReleasesBacked(s)
    ensures ReleasesBacked(Next(cfg, s, e))
  {
    var s' := Next(cfg, s, e);
    forall id | id in s'.rows ensures Backed(s', id) {
      if id in s.rows {
        StepKeepsBacked(cfg, s, e, id);
      } else {
        assert FailedFlights(s', id) == {} by {
          assert forall k :: k in s.flights ==> FlightOk(s, s.flights[k]);
        }
      }
    }
  }

  // ----- All of it, over whole runs -----

  ghost predicate Safe(s: Sys) {
    RowsOk(s) && RetriesOk(s) && TablesAgree(s) && FlightsOk(s) && HandedOnce(s) && AllAccounted(s) && ReleasesBacked(s)
  }

  lemma StepIsSafe(cfg: Settings, s: Sys, e: Step)
    requires Enabled(cfg, s, e) && Safe(s)
    ensures Safe(Next(cfg, s, e))
  {
    StepKeepsRows(cfg, s, e);
    StepKeepsRetries(cfg, s, e);
    StepKeepsAgreement(cfg, s, e);
    StepKeepsFlights(cfg, s, e);
    StepKeepsLog(cfg, s, e);
    StepKeepsFlightsApart(cfg, s, e);
    StepKeepsWaiting(cfg, s, e);
    StepKeepsAccounts(cfg, s, e);
    StepKeepsReleasesBacked(cfg, s, e);
  }

  lemma {:induction false} RunIsSafe(cfg: Settings, s: Sys, steps: seq<Step>)
    requires IsRun(cfg, s, steps) && Safe(s)
    ensures Safe(Run(cfg, s, steps))
    decreases |steps|
  {
    if steps != [] {
      StepIsSafe(cfg, s, steps[0]);
      RunIsSafe(cfg, Next(cfg, s, steps[0]), steps[1..]);
    }
  }

  /**
   Attempts of a command in any run, including runs in which other parties act between the reaper's scan and its
   updates: each lease was released, retried, or is the one the row holds now or held when it was closed. Retries stay
   below the limit, so only releases can push `attempts` past it.
   */
  lemma AttemptsLedger(cfg: Settings, start: Time, steps: seq<Step>, id: Id)
    requires IsRun(cfg, Init(start), steps) && id in Run(cfg, Init(start), steps).rows
    ensures var r := Run(cfg, Init(start), steps).rows[id];
            var open := if HoldsAttempt(r) then 1 else 0;
            && r.c.attempts == |r.h.leases| == r.h.releases + r.h.retries + open
            && (r.h.closedFrom.Some? <==> IsTerminal(r.c.status))
            && r.h.retries <= r.c.maxAttempts - 1
            && r.c.attempts <= r.c.maxAttempts + r.h.releases
            && (r.c.attempts > r.c.maxAttempts <==> r.h.releases > r.c.maxAttempts - r.h.retries - open)
  {
    RunIsSafe(cfg, Init(start), steps);
    var r := Run(cfg, Init(start), steps).rows[id];
    assert RowOk(r);
  }

  /** The two tables agree in every reachable state. */
  lemma ReachableTablesAgree(cfg: Settings, start: Time, steps: seq<Step>)
    requires IsRun(cfg, Init(start), steps)
    ensures var s := Run(cfg, Init(start), steps);
            && TablesAgree(s)
            && forall id :: id in s.rows ==>
                 var c := s.rows[id].c;
                 && !c.status.Running?
                 && (!IsTerminal(c.status) ==> id !in s.results && c.startedAt.None? && c.finishedAt.None?)
                 && (c.status in {Canceled, Expired} ==> c.finishedAt.Some?)
  {
    RunIsSafe(cfg, Init(start), steps);
    var s := Run(cfg, Init(start), steps);
    assert forall id :: id in s.rows ==> RowOk(s.rows[id]);
  }

  /** Once closed, a row never changes again in any column; once stored, a result stays; orders are never rewritten. */
  lemma {:induction false} ClosedForever(cfg: Settings, s: Sys, steps: seq<Step>, id: Id)
    requires IsRun(cfg, s, steps) && RowsOk(s) && id in s.rows
    ensures var s' := Run(cfg, s, steps);
            && id in s'.rows
            && SameOrder(s.rows[id].c, s'.rows[id].c)
            && FirstAckStays(s.rows[id].c, s'.rows[id].c)
            && (IsTerminal(s.rows[id].c.status) ==> s'.rows[id].c == s.rows[id].c)
            && (id in s.results ==> id in s'.results && s'.results[id] == s.results[id])
    decreases |steps|
  {
    if steps != [] {
      StepKeepsRow(cfg, s, steps[0], id);
      StepKeepsRows(cfg, s, steps[0]);
      ResultsAfter(cfg, s, steps[0]);
      ClosedForever(cfg, Next(cfg, s, steps[0]), steps[1..], id);
    }
  }

  /** No attempt of a command is handed to two channels, or twice to one. */
  lemma EachAttemptHandedOnce(cfg: Settings, start: Time, steps: seq<Step>, i: nat, j: nat)
    requires IsRun(cfg, Init(start), steps) && i < j < |Run(cfg, Init(start), steps).log|
    ensures var log := Run(cfg, Init(start), steps).log; log[i].id == log[j].id ==> log[i].attempt != log[j].attempt
  {
    RunIsSafe(cfg, Init(start), steps);
  }

  function HandOvers(log: seq<Delivery>, id: Id): set<nat> {
    set i: nat | i < |log| && log[i].id == id
  }

  function Waiting(s: Sys, id: Id): set<nat> {
    set k | k in s.flights && IsWaiting(s, k, id)
  }

  /**
   Positions in the log and waiting deliveries whose numbers are different and make up 1 to `n` are `n` together.
   */
  lemma {:induction false} NumbersCount(s: Sys, positions: set<nat>, tickets: set<nat>, n: nat)
    requires forall i :: i in positions ==> i < |s.log| && 1 <= s.log[i].attempt <= n
    requires forall k :: k in tickets ==> k in s.flights && 1 <= s.flights[k].attempt <= n
    requires forall i, j :: i in positions && j in positions && i != j ==> s.log[i].attempt != s.log[j].attempt
    requires forall k, l :: k in tickets && l in tickets && k != l ==> s.flights[k].attempt != s.flights[l].attempt
    requires forall i, k :: i in positions && k in tickets ==> s.log[i].attempt != s.flights[k].attempt
    requires forall m: nat :: 1 <= m <= n ==> IsNumber(s, positions, tickets, m)
    ensures |positions| + |tickets| == n
    decreases n
  {
    if n == 0 {
      assert positions == {} && tickets == {};
    } else {
      assert IsNumber(s, positions, tickets, n);
      if top :| top in positions && s.log[top].attempt == n {
        forall m: nat | 1 <= m <= n - 1 ensures IsNumber(s, positions - {top}, tickets, m) {
          assert IsNumber(s, positions, tickets, m);
        }
        NumbersCount(s, positions - {top}, tickets, n - 1);
      } else {
        var last :| last in tickets && s.flights[last].attempt == n;
        forall m: nat | 1 <= m <= n - 1 ensures IsNumber(s, positions, tickets - {last}, m) {
          assert IsNumber(s, positions, tickets, m);
        }
        NumbersCount(s, positions, tickets - {last}, n - 1);
      }
    }
  }

  ghost predicate IsNumber(s: Sys, positions: set<nat>, tickets: set<nat>, m: nat)
    requires forall i :: i in positions ==> i < |s.log|
    requires forall k :: k in tickets ==> k in s.flights
  {
    || (exists i :: i in positions && s.log[i].attempt == m)
    || (exists k :: k in tickets && s.flights[k].attempt == m)
  }

  lemma HandOversCounted(s: Sys, id: Id)
    requires FlightsOk(s) && HandedOnce(s) && AllAccounted(s) && id in s.rows
    ensures |HandOvers(s.log, id)| + |Waiting(s, id)| == |s.rows[id].h.leases|
  {
    var positions, tickets, n := HandOvers(s.log, id), Waiting(s, id), |s.rows[id].h.leases|;
    forall i | i in positions ensures 1 <= s.log[i].attempt <= n {
      assert Leased(s, s.log[i]);
    }
    forall k | k in tickets ensures 1 <= s.flights[k].attempt <= n {
      assert FlightOk(s, s.flights[k]);
    }
    forall i, j | i in positions && j in positions && i != j ensures s.log[i].attempt != s.log[j].attempt {
      assert !Same(s.log[if i < j then i else j], s.log[if i < j then j else i]);
    }
    forall k, l | k in tickets && l in tickets && k != l ensures s.flights[k].attempt != s.flights[l].attempt {
      assert !SameAttempt(s.flights[k], s.flights[l].id, s.flights[l].attempt);
    }
    forall i, k | i in positions && k in tickets ensures s.log[i].attempt != s.flights[k].attempt {
      assert s.log[i] in s.log && !SameAttempt(s.flights[k], s.log[i].id, s.log[i].attempt);
    }
    forall m: nat | 1 <= m <= n ensures IsNumber(s, positions, tickets, m) {
      assert Accounted(s, id, m);
      if d :| d in s.log && d.id == id && d.attempt == m {
        var i :| 0 <= i < |s.log| && s.log[i] == d;
        assert i in positions;
      } else {
        var k :| IsWaiting(s, k, id) && s.flights[k].attempt == m;
        assert k in tickets;
      }
    }
    NumbersCount(s, positions, tickets, n);
  }

  /** Hand-overs of the command that returned no error: writes to a socket and answers to a Pull. */
  function CleanWrites(log: seq<Delivery>, id: Id): set<nat> {
    set i: nat | i < |log| && log[i].id == id && log[i].clean
  }

  /**
   How often a command is handed over: once for each attempt that is not still on its way. With nothing on its way, it
   has been handed over more than once if and only if its `attempts` are at least two, that is, after a release or a
   retry. It is handed over without an error at most once more than it is retried, so never more than `max_attempts`
   times: at least as many writes as there are attempts beyond the limit returned an error.
   */
  lemma HandOversExact(cfg: Settings, start: Time, steps: seq<Step>, id: Id)
    requires IsRun(cfg, Init(start), steps) && id in Run(cfg, Init(start), steps).rows
    ensures var s := Run(cfg, Init(start), steps);
            var r, n := s.rows[id], |HandOvers(s.log, id)|;
            && n + |Waiting(s, id)| == r.c.attempts
            && n == |CleanWrites(s.log, id)| + |FailedWrites(s.log, id)|
            && n <= r.h.releases + r.h.retries + 1
            && n <= r.c.maxAttempts + r.h.releases
            && (Waiting(s, id) == {} ==> (n >= 2 <==> r.c.attempts >= 2))
            && |CleanWrites(s.log, id)| <= r.h.retries + (if HoldsAttempt(r) then 1 else 0) <= r.c.maxAttempts
  {
    AttemptsLedger(cfg, start, steps, id);
    RunIsSafe(cfg, Init(start), steps);
    var s := Run(cfg, Init(start), steps);
    HandOversCounted(s, id);
    assert Backed(s, id);
    assert HandOvers(s.log, id) == CleanWrites(s.log, id) + FailedWrites(s.log, id);
    assert CleanWrites(s.log, id) !! FailedWrites(s.log, id);
  }
}
