/**
 Where rows, messages, results and endings come from, told by the steps of a run alone: orders from `Create`, results
 from the first answer of the device, endings from the step that closed the row.
 */
module CommandOrigin {
  import opened Options
  import opened Utf8Truncate
  import opened CommandTypes
  import opened CommandStore
  import opened CommandService
  import opened CommandMachine
  import opened CommandSafety
  import opened CommandColumns

  // ----- The states of a run -----

  lemma {:induction false} RunSplit(cfg: Settings, s: Sys, steps: seq<Step>, k: nat)
    requires IsRun(cfg, s, steps) && k <= |steps|
    ensures IsRun(cfg, s, steps[..k]) && IsRun(cfg, Run(cfg, s, steps[..k]), steps[k..])
    ensures Run(cfg, s, steps) == Run(cfg, Run(cfg, s, steps[..k]), steps[k..])
    decreases k
  {
    if k > 0 {
      RunSplit(cfg, Next(cfg, s, steps[0]), steps[1..], k - 1);
      assert steps[..k][1..] == steps[1..][..k - 1] && steps[1..][k - 1..] == steps[k..];
    } else {
      assert steps[0..] == steps;
    }
  }

  /** The state before step `k`. */
  ghost function StateAt(cfg: Settings, start: Time, steps: seq<Step>, k: nat): Sys
    requires IsRun(cfg, Init(start), steps) && k <= |steps|
  {
    RunSplit(cfg, Init(start), steps, k);
    Run(cfg, Init(start), steps[..k])
  }

  lemma StateAfter(cfg: Settings, start: Time, steps: seq<Step>, k: nat)
    requires IsRun(cfg, Init(start), steps) && k < |steps|
    ensures Enabled(cfg, StateAt(cfg, start, steps, k), steps[k])
    ensures StateAt(cfg, start, steps, k + 1) == Next(cfg, StateAt(cfg, start, steps, k), steps[k])
  {
    var p := steps[..k + 1];
    RunSplit(cfg, Init(start), steps, k);
    RunSplit(cfg, Init(start), steps, k + 1);
    RunSplit(cfg, Init(start), p, k);
    assert p[..k] == steps[..k] && p[k..] == [steps[k]] && [steps[k]][1..] == [];
    assert steps[k..][0] == steps[k];
    var s := Run(cfg, Init(start), steps[..k]);
    assert Run(cfg, s, [steps[k]]) == Run(cfg, Next(cfg, s, steps[k]), []);
  }

  lemma LastState(cfg: Settings, start: Time, steps: seq<Step>)
    requires IsRun(cfg, Init(start), steps)
    ensures StateAt(cfg, start, steps, |steps|) == Run(cfg, Init(start), steps)
  {
    assert steps[..|steps|] == steps;
  }

  lemma SafeAt(cfg: Settings, start: Time, steps: seq<Step>, k: nat)
    requires IsRun(cfg, Init(start), steps) && k <= |steps|
    ensures Safe(StateAt(cfg, start, steps, k))
  {
    RunSplit(cfg, Init(start), steps, k);
    RunIsSafe(cfg, Init(start), steps[..k]);
  }

  /** What holds of rows and results from one state of a run to a later one. */
  lemma LaterState(cfg: Settings, start: Time, steps: seq<Step>, j: nat, k: nat, id: Id)
    requires IsRun(cfg, Init(start), steps) && j <= k <= |steps| && id in StateAt(cfg, start, steps, j).rows
    ensures var s, t := StateAt(cfg, start, steps, j), StateAt(cfg, start, steps, k);
            && id in t.rows && SameOrder(s.rows[id].c, t.rows[id].c)
            && (!IsOpen(s.rows[id].c) ==> t.rows[id].c == s.rows[id].c)
            && (id in s.results ==> id in t.results && t.results[id] == s.results[id])
  {
    SafeAt(cfg, start, steps, j);
    RunSplit(cfg, Init(start), steps, k);
    RunSplit(cfg, Init(start), steps[..k], j);
    assert steps[..k][..j] == steps[..j];
    ClosedForever(cfg, StateAt(cfg, start, steps, j), steps[..k][j..], id);
  }

  // ----- Orders -----

  /** Step `k` orders the command. */
  predicate IsOrder(steps: seq<Step>, k: nat, id: Id) {
    k < |steps| && steps[k].Create? && steps[k].id == id
  }

  /** A row is what its `Create` ordered, and stays so. */
  lemma OrderIsKept(cfg: Settings, start: Time, steps: seq<Step>, k: nat, n: nat)
    requires IsRun(cfg, Init(start), steps) && k < n <= |steps| && steps[k].Create?
    ensures var e, rows := steps[k], StateAt(cfg, start, steps, n).rows;
            && e.id in rows
            && var c := rows[e.id].c;
            && c.deviceId == e.deviceId && c.action == e.action && c.params == e.params
            && c.timeoutSec == e.timeoutSec && c.priority == 100 && c.createdAt == e.now
            && c.expiresAt == Some(e.now + cfg.pendingTtl)
            && c.maxAttempts == if cfg.defaultMaxAttempts < 1 then 1 else cfg.defaultMaxAttempts
  {
    StateAfter(cfg, start, steps, k);
    LaterState(cfg, start, steps, k + 1, n, steps[k].id);
  }

  /** Every row was ordered, and by one step only. */
  lemma {:induction false} RowIsOrdered(cfg: Settings, start: Time, steps: seq<Step>, n: nat, id: Id) returns (k: nat)
    requires IsRun(cfg, Init(start), steps) && n <= |steps| && id in StateAt(cfg, start, steps, n).rows
    ensures k < n && IsOrder(steps, k, id)
    decreases n
  {
    assert steps[..0] == [];
    StateAfter(cfg, start, steps, n - 1);
    if IsOrder(steps, n - 1, id) {
      k := n - 1;
    } else {
      k := RowIsOrdered(cfg, start, steps, n - 1, id);
    }
  }

  lemma OrderedOnce(cfg: Settings, start: Time, steps: seq<Step>, j: nat, k: nat, id: Id)
    requires IsRun(cfg, Init(start), steps) && IsOrder(steps, j, id) && IsOrder(steps, k, id)
    ensures j == k
  {
    var a, b := if j < k then j else k, if j < k then k else j;
    if a < b {
      OrderIsKept(cfg, start, steps, a, b);
      StateAfter(cfg, start, steps, b);
    }
  }

  // ----- What devices are told -----

  /** Every entry of the log carries the order of its command and went to its device. */
  ghost predicate LogTold(s: Sys) {
    forall i :: 0 <= i < |s.log| ==> Told(s, s.log[i])
  }

  ghost predicate Told(s: Sys, d: Delivery) {
    && d.id in s.rows
    && var c := s.rows[d.id].c;
    d.message == Message(c.deviceId, DeliverPayload(d.id, c.action, c.params, c.timeoutSec))
  }

  lemma ToldStays(cfg: Settings, s: Sys, e: Step, d: Delivery)
    requires Enabled(cfg, s, e) && RowsOk(s) && Told(s, d)
    ensures Told(Next(cfg, s, e), d)
  {
    StepKeepsRow(cfg, s, e, d.id);
  }

  lemma PulledTold(cfg: Settings, s: Sys, e: Step, i: nat)
    requires Enabled(cfg, s, e) && RowsOk(s) && e.Pull? && i < |e.ids|
    ensures Told(Next(cfg, s, e), PulledDeliveries(s, e.deviceId, e.ids)[i])
  {
    assert e.ids[i] in e.ids && e.ids[i] in EligibleIds(Table(s), e.deviceId, e.now);
    StepKeepsRow(cfg, s, e, e.ids[i]);
  }

  lemma StepKeepsTold(cfg: Settings, s: Sys, e: Step)
    requires Enabled(cfg, s, e) && RowsOk(s) && FlightsOk(s) && LogTold(s)
    ensures LogTold(Next(cfg, s, e))
  {
    var t := Next(cfg, s, e);
    forall i | 0 <= i < |t.log| ensures Told(t, t.log[i]) {
      if i < |s.log| {
        assert t.log[i] == s.log[i];
        ToldStays(cfg, s, e, s.log[i]);
      } else if e.Pull? {
        PulledTold(cfg, s, e, i - |s.log|);
      }
    }
  }

  lemma {:induction false} AlwaysTold(cfg: Settings, start: Time, steps: seq<Step>, n: nat)
    requires IsRun(cfg, Init(start), steps) && n <= |steps|
    ensures LogTold(StateAt(cfg, start, steps, n))
    decreases n
  {
    if n == 0 {
      assert steps[..0] == [];
    } else {
      AlwaysTold(cfg, start, steps, n - 1);
      ToldNext(cfg, start, steps, n - 1);
    }
  }

  lemma ToldNext(cfg: Settings, start: Time, steps: seq<Step>, n: nat)
    requires IsRun(cfg, Init(start), steps) && n < |steps| && LogTold(StateAt(cfg, start, steps, n))
    ensures LogTold(StateAt(cfg, start, steps, n + 1))
  {
    SafeAt(cfg, start, steps, n);
    StateAfter(cfg, start, steps, n);
    StepKeepsTold(cfg, StateAt(cfg, start, steps, n), steps[n]);
  }

  /** Whatever is sent for a command, by either channel, says what was ordered and goes to the right device. */
  lemma ToldAsOrdered(cfg: Settings, start: Time, steps: seq<Step>, k: nat, i: nat)
    requires IsRun(cfg, Init(start), steps) && i < |Run(cfg, Init(start), steps).log|
    requires IsOrder(steps, k, Run(cfg, Init(start), steps).log[i].id)
    ensures Run(cfg, Init(start), steps).log[i].message ==
            Message(steps[k].deviceId,
                    DeliverPayload(steps[k].id, steps[k].action, steps[k].params, steps[k].timeoutSec))
  {
    LastState(cfg, start, steps);
    AlwaysTold(cfg, start, steps, |steps|);
    assert Told(StateAt(cfg, start, steps, |steps|), StateAt(cfg, start, steps, |steps|).log[i]);
    OrderIsKept(cfg, start, steps, k, |steps|);
  }

  // ----- First in, first out -----

  ghost predicate Precedes(ids: seq<Id>, a: Id, b: Id) {
    exists x, y :: 0 <= x < y < |ids| && ids[x] == a && ids[y] == b
  }

  /**
   An answer of the queue to device `d` in a reachable state, to a Pull or at a reconnect: of two commands for `d`, the
   later one is never handed over while the earlier one is waiting, unless that one comes first.
   */
  lemma OldestFirst(cfg: Settings, start: Time, steps: seq<Step>, n: nat, d: Id, now: Time, limit: nat, ids: seq<Id>,
                    i: nat, j: nat)
    requires IsRun(cfg, Init(start), steps) && i < n <= |steps| && j < n
    requires steps[i].Create? && steps[j].Create? && steps[i].deviceId == steps[j].deviceId == d
    requires steps[i].now < steps[j].now
    requires var t := Table(StateAt(cfg, start, steps, n)); FirstOf(t, EligibleIds(t, d, now), limit, ids)
    requires steps[j].id in ids
    requires steps[i].id in StateAt(cfg, start, steps, n).rows ==>
               IsFree(StateAt(cfg, start, steps, n).rows[steps[i].id].c, now)
    ensures Precedes(ids, steps[i].id, steps[j].id)
  {
    var t := Table(StateAt(cfg, start, steps, n));
    var a, b := steps[i].id, steps[j].id;
    OrderIsKept(cfg, start, steps, i, n);
    OrderIsKept(cfg, start, steps, j, n);
    assert a in EligibleIds(t, d, now) && !Before(t[b], t[a]);
    var y :| 0 <= y < |ids| && ids[y] == b;
    assert a in ids;
    var x :| 0 <= x < |ids| && ids[x] == a;
    assert x != y && !(y < x);
  }

  /** A Pull of a run answers with the oldest commands of the device first. */
  lemma PullOldestFirst(cfg: Settings, start: Time, steps: seq<Step>, n: nat, i: nat, j: nat)
    requires IsRun(cfg, Init(start), steps) && n < |steps| && steps[n].Pull? && i < n && j < n
    requires steps[i].Create? && steps[j].Create? && steps[i].now < steps[j].now
    requires steps[i].deviceId == steps[j].deviceId == steps[n].deviceId && steps[j].id in steps[n].ids
    requires steps[i].id in StateAt(cfg, start, steps, n).rows ==>
               IsFree(StateAt(cfg, start, steps, n).rows[steps[i].id].c, steps[n].now)
    ensures Precedes(steps[n].ids, steps[i].id, steps[j].id)
  {
    StateAfter(cfg, start, steps, n);
    var e := steps[n];
    OldestFirst(cfg, start, steps, n, e.deviceId, e.now, PullLimit(cfg, e.limit), e.ids, i, j);
  }

  /** It answers with waiting commands of that device only, none twice, as many as asked for, or all there are. */
  lemma PullAnswers(cfg: Settings, start: Time, steps: seq<Step>, n: nat)
    requires IsRun(cfg, Init(start), steps) && n < |steps| && steps[n].Pull?
    ensures var e, rows := steps[n], StateAt(cfg, start, steps, n).rows;
            var asked := if e.limit < 1 then 1 else e.limit;
            var most := if 0 < cfg.pullMaxCommands < asked then cfg.pullMaxCommands else asked;
            && (forall id :: id in e.ids ==>
                  id in rows && rows[id].c.deviceId == e.deviceId && IsFree(rows[id].c, e.now))
            && (forall x, y :: 0 <= x < y < |e.ids| ==> e.ids[x] != e.ids[y])
            && |e.ids| <= most
            && (|e.ids| == most ||
                forall id :: id in rows && rows[id].c.deviceId == e.deviceId && IsFree(rows[id].c, e.now) ==>
                  id in e.ids)
  {
    StateAfter(cfg, start, steps, n);
    var t := Table(StateAt(cfg, start, steps, n));
    assert FirstOf(t, EligibleIds(t, steps[n].deviceId, steps[n].now), PullLimit(cfg, steps[n].limit), steps[n].ids);
    forall id | id in t && t[id].deviceId == steps[n].deviceId && IsFree(t[id], steps[n].now)
      ensures id in EligibleIds(t, steps[n].deviceId, steps[n].now)
    {
    }
  }

  // ----- Results -----

  /** The step is an answer of device `d` for command `id`: a result or a rejection. */
  predicate Says(e: Step, d: Id, id: Id) {
    (e.Report? || (e.Ack? && !e.accepted)) && e.deviceId == d && e.id == id
  }

  /** Step `k` is an answer for a command that has been ordered, by the device it was ordered for. */
  ghost predicate IsAnswer(steps: seq<Step>, k: nat, id: Id) {
    k < |steps| && exists j: nat :: j < k && IsOrder(steps, j, id) && Says(steps[k], steps[j].deviceId, id)
  }

  ghost predicate IsFirstAnswer(steps: seq<Step>, k: nat, id: Id) {
    IsAnswer(steps, k, id) && forall i: nat :: i < k ==> !IsAnswer(steps, i, id)
  }

  /** An answer, as the state before it sees it. */
  lemma AnswerInState(cfg: Settings, start: Time, steps: seq<Step>, k: nat, id: Id)
    requires IsRun(cfg, Init(start), steps) && k < |steps|
    ensures var s := StateAt(cfg, start, steps, k);
            IsAnswer(steps, k, id) <==> id in s.rows && Says(steps[k], s.rows[id].c.deviceId, id)
  {
    var s := StateAt(cfg, start, steps, k);
    if j: nat :| j < k && IsOrder(steps, j, id) {
      OrderIsKept(cfg, start, steps, j, k);
      forall i: nat | i < k && IsOrder(steps, i, id) ensures i == j {
        OrderedOnce(cfg, start, steps, i, j, id);
      }
    } else if id in s.rows {
      var i := RowIsOrdered(cfg, start, steps, k, id);
    }
  }

  /** The result an answer leaves behind, field by field. */
  ghost predicate Records(rec: CommandResult, max: nat, e: Step)
    requires e.Report? || e.Ack?
  {
    match e
    case Report(d, _, input, now) =>
      && rec.deviceId == d && rec.exitCode == input.exitCode
      && rec.startedAt == input.startedAt && rec.finishedAt == input.finishedAt && rec.receivedAt == now
      && rec.status == (if input.status == "succeeded" then Succeeded
                        else if input.status == "timeout" then Timeout else Failed)
      && StoredOf(rec.stdout, input.stdout, max) && StoredOf(rec.stderr, input.stderr, max)
      && StoredOf(rec.resultJson, input.result, max) && StoredOf(rec.errorMessage, input.errorMessage, 1024)
      && (rec.truncated <==> |input.stdout| > max || |input.stderr| > max || |input.result| > max)
    case Ack(d, _, _, message, now) =>
      && rec.deviceId == d && rec.status == Failed && rec.exitCode == None && rec.startedAt == None
      && rec.finishedAt == Some(now) && rec.receivedAt == now && !rec.truncated
      && rec.stdout == rec.stderr == rec.resultJson == None
      && rec.errorMessage.Some? && rec.errorMessage.value <= message
      && |rec.errorMessage.value| <= 1024 <= |rec.errorMessage.value| + 3 + (if |message| <= 1024 then 1024 else 0)
      && (|message| <= 1024 ==> rec.errorMessage.value == message)
  }

  lemma ReportRecorded(cfg: Settings, d: Id, id: Id, input: ResultInput, now: Time)
    ensures Records(ResultRecord(cfg.resultMaxBytes, d, input, now), cfg.resultMaxBytes, Report(d, id, input, now))
  {
    ResultRecordFits(cfg.resultMaxBytes, d, input, now);
  }

  /** One step and the result of one command: the first answer is recorded, later ones are not. */
  lemma StepResult(cfg: Settings, s: Sys, e: Step, id: Id)
    requires Enabled(cfg, s, e)
    ensures var t := Next(cfg, s, e);
            if id in s.results then id in t.results && t.results[id] == s.results[id]
            else if id in s.rows && Says(e, s.rows[id].c.deviceId, id)
            then id in t.results && Records(t.results[id], cfg.resultMaxBytes, e)
            else id !in t.results
  {
    if e.Report? {
      ReportRecorded(cfg, e.deviceId, e.id, e.input, e.now);
    }
  }

  /** One of the first `n` steps is an answer. */
  ghost predicate HasAnswer(steps: seq<Step>, n: nat, id: Id) {
    exists k: nat :: k < n && IsAnswer(steps, k, id)
  }

  lemma ResultNext(cfg: Settings, start: Time, steps: seq<Step>, n: nat, id: Id)
    requires IsRun(cfg, Init(start), steps) && n < |steps|
    ensures id in StateAt(cfg, start, steps, n + 1).results <==>
            id in StateAt(cfg, start, steps, n).results || IsAnswer(steps, n, id)
  {
    StateAfter(cfg, start, steps, n);
    StepResult(cfg, StateAt(cfg, start, steps, n), steps[n], id);
    AnswerInState(cfg, start, steps, n, id);
  }

  lemma {:induction false} ResultIffAnswer(cfg: Settings, start: Time, steps: seq<Step>, n: nat, id: Id)
    requires IsRun(cfg, Init(start), steps) && n <= |steps|
    ensures id in StateAt(cfg, start, steps, n).results <==> HasAnswer(steps, n, id)
    decreases n
  {
    if n == 0 {
      assert steps[..0] == [];
    } else {
      ResultIffAnswer(cfg, start, steps, n - 1, id);
      ResultNext(cfg, start, steps, n - 1, id);
    }
  }

  /**
   A command has a result if and only if its device has answered, and the result is what the first answer said: its
   exit code, its times and its texts within the limits.
   */
  lemma ResultIsFirstAnswer(cfg: Settings, start: Time, steps: seq<Step>, id: Id)
    requires IsRun(cfg, Init(start), steps)
    ensures var results := Run(cfg, Init(start), steps).results;
            && (id in results <==> exists k: nat :: IsAnswer(steps, k, id))
            && forall k: nat :: IsFirstAnswer(steps, k, id) ==>
                 id in results && Records(results[id], cfg.resultMaxBytes, steps[k])
  {
    LastState(cfg, start, steps);
    ResultIffAnswer(cfg, start, steps, |steps|, id);
    forall k: nat | IsFirstAnswer(steps, k, id)
      ensures var results := Run(cfg, Init(start), steps).results;
              id in results && Records(results[id], cfg.resultMaxBytes, steps[k])
    {
      FirstAnswerRecorded(cfg, start, steps, k, id);
    }
  }

  lemma FirstAnswerRecorded(cfg: Settings, start: Time, steps: seq<Step>, k: nat, id: Id)
    requires IsRun(cfg, Init(start), steps) && IsFirstAnswer(steps, k, id)
    ensures var results := Run(cfg, Init(start), steps).results;
            id in results && Records(results[id], cfg.resultMaxBytes, steps[k])
  {
    RecordedNext(cfg, start, steps, k, id);
    ResultKept(cfg, start, steps, k + 1, id);
  }

  lemma ResultKept(cfg: Settings, start: Time, steps: seq<Step>, k: nat, id: Id)
    requires IsRun(cfg, Init(start), steps) && k <= |steps|
    requires id in StateAt(cfg, start, steps, k).rows && id in StateAt(cfg, start, steps, k).results
    ensures id in Run(cfg, Init(start), steps).results
    ensures Run(cfg, Init(start), steps).results[id] == StateAt(cfg, start, steps, k).results[id]
  {
    LaterState(cfg, start, steps, k, |steps|, id);
    LastState(cfg, start, steps);
  }

  lemma RecordedNext(cfg: Settings, start: Time, steps: seq<Step>, k: nat, id: Id)
    requires IsRun(cfg, Init(start), steps) && IsFirstAnswer(steps, k, id)
    ensures var t := StateAt(cfg, start, steps, k + 1);
            id in t.rows && id in t.results && Records(t.results[id], cfg.resultMaxBytes, steps[k])
  {
    ResultIffAnswer(cfg, start, steps, k, id);
    AnswerInState(cfg, start, steps, k, id);
    StateAfter(cfg, start, steps, k);
    StepResult(cfg, StateAt(cfg, start, steps, k), steps[k], id);
  }

  // ----- Endings -----

  /** Step `e` closed the row and left it like this. */
  ghost predicate Ends(s: Sys, e: Step, id: Id, c: Command) {
    match e
    case CancelStep(target, now) =>
      target == id && c.status == Canceled && c.startedAt == None && c.finishedAt == Some(now) && c.updatedAt == now
    case Reap(now) =>
      c.status in {Timeout, Expired} && c.startedAt == None && c.finishedAt == Some(now) && c.updatedAt == now
    case ReapNext(target, _) =>
      target == id && c.status == Timeout && c.startedAt == None && c.finishedAt == Some(s.scanAt) &&
      c.updatedAt == s.scanAt
    case ExpireNext(target, _) =>
      target == id && c.status == Expired && c.startedAt == None && c.finishedAt == Some(s.scanAt) &&
      c.updatedAt == s.scanAt
    case Report(d, target, input, now) =>
      && target == id && d == c.deviceId && c.startedAt == input.startedAt && c.finishedAt == input.finishedAt
      && c.updatedAt == now
      && c.status == if input.status == "succeeded" then Succeeded
                     else if input.status == "timeout" then Timeout else Failed
    case Ack(d, target, accepted, _, now) =>
      target == id && d == c.deviceId && !accepted && c.status == Failed && c.startedAt == None &&
      c.finishedAt == Some(now) && c.updatedAt == now
    case _ => false
  }

  lemma ClosingStep(cfg: Settings, s: Sys, e: Step, id: Id)
    requires Enabled(cfg, s, e) && id in s.rows && s.rows[id].c.startedAt == None
    requires IsOpen(s.rows[id].c) && !IsOpen(RowAfterStep(cfg, s, e, id))
    ensures Ends(s, e, id, RowAfterStep(cfg, s, e, id))
  {
  }

  /** Step `k` of the run closed the row, and nothing has changed it since. */
  ghost predicate EndedAt(cfg: Settings, start: Time, steps: seq<Step>, k: nat, id: Id, c: Command)
    requires IsRun(cfg, Init(start), steps)
  {
    && k < |steps|
    && var s := StateAt(cfg, start, steps, k);
    id in s.rows && IsOpen(s.rows[id].c) && Ends(s, steps[k], id, c)
  }

  /** The last step closed the row, or it was closed before. */
  lemma EndedNowOrBefore(cfg: Settings, start: Time, steps: seq<Step>, n: nat, id: Id)
    requires IsRun(cfg, Init(start), steps) && n < |steps| && id in StateAt(cfg, start, steps, n + 1).rows
    requires !IsOpen(StateAt(cfg, start, steps, n + 1).rows[id].c)
    ensures var s, c := StateAt(cfg, start, steps, n), StateAt(cfg, start, steps, n + 1).rows[id].c;
            && id in s.rows
            && if IsOpen(s.rows[id].c) then Ends(s, steps[n], id, c) else c == s.rows[id].c
  {
    StateAfter(cfg, start, steps, n);
    SafeAt(cfg, start, steps, n);
    var s := StateAt(cfg, start, steps, n);
    assert id in s.rows;
    assert RowOk(s.rows[id]);
    if IsOpen(s.rows[id].c) {
      StepInColumns(cfg, s, steps[n], id);
      ClosingStep(cfg, s, steps[n], id);
    } else {
      StepKeepsRow(cfg, s, steps[n], id);
    }
  }

  /**
   A closed row was closed by one step. If that was the server's, the row ends at the clock reading of the statement; if
   it was the device's, the row carries the times the device gave.
   */
  lemma {:induction false} RowEnded(cfg: Settings, start: Time, steps: seq<Step>, n: nat, id: Id) returns (k: nat)
    requires IsRun(cfg, Init(start), steps) && n <= |steps|
    requires id in StateAt(cfg, start, steps, n).rows && !IsOpen(StateAt(cfg, start, steps, n).rows[id].c)
    ensures k < n && EndedAt(cfg, start, steps, k, id, StateAt(cfg, start, steps, n).rows[id].c)
    decreases n
  {
    assert steps[..0] == [];
    EndedNowOrBefore(cfg, start, steps, n - 1, id);
    if IsOpen(StateAt(cfg, start, steps, n - 1).rows[id].c) {
      k := n - 1;
    } else {
      k := RowEnded(cfg, start, steps, n - 1, id);
    }
  }
}
