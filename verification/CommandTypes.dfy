/**
 The rows of the command queue and the guarded UPDATE statements on them.

 Every state change of a command is one statement `UPDATE commands SET ... WHERE id = ? AND status ...`.
 `Op` lists those statements, `Guard` is the WHERE clause and `Effect` the SET clause on the row it selects.
 */
module CommandTypes {
  import opened Options
  import opened Utf8Truncate

  type Id = string

  datatype Status =
    | Pending | Leased | Sent | Acked | Running
    | Succeeded | Failed | Timeout | Canceled | Expired

  /** Statuses that are never left again. */
  predicate IsTerminal(s: Status) {
    s.Succeeded? || s.Failed? || s.Timeout? || s.Canceled? || s.Expired?
  }

  /** Statuses of a command that some channel has taken. */
  predicate IsActive(s: Status) {
    s.Leased? || s.Sent? || s.Acked? || s.Running?
  }

  /** What an agent may report; any other text is read as a failure. */
  function ReportedStatus(text: string): (s: Status)
    ensures s == Succeeded <==> text == "succeeded"
    ensures s == Timeout <==> text == "timeout"
    ensures s in {Succeeded, Failed, Timeout}
  {
    if text == "succeeded" then Succeeded else if text == "timeout" then Timeout else Failed
  }

  datatype Command = Command(
    deviceId: Id,
    action: string,
    params: string,
    status: Status,
    priority: int,
    timeoutSec: int,
    attempts: int,
    maxAttempts: int,
    leasedBy: Option<string>,
    leaseUntil: Option<Time>,
    sentAt: Option<Time>,
    ackedAt: Option<Time>,
    startedAt: Option<Time>,
    finishedAt: Option<Time>,
    expiresAt: Option<Time>,
    lastError: Option<string>,
    createdAt: Time,
    updatedAt: Time)

  datatype CommandResult = CommandResult(
    deviceId: Id,
    status: Status,
    exitCode: Option<int>,
    stdout: Option<Bytes>,
    stderr: Option<Bytes>,
    resultJson: Option<Bytes>,
    errorMessage: Option<Bytes>,
    truncated: bool,
    startedAt: Option<Time>,
    finishedAt: Option<Time>,
    receivedAt: Time)

  type Commands = map<Id, Command>
  type Results = map<Id, CommandResult>

  datatype Op =
    | Lease(holder: string, until: Time)
    | ReleaseLease(retryAfter: Time)
    | MarkSent
    | RetryToPending(reason: string, retryAfter: Time)
    | MarkAcked
    | ApplyResultStatus(status: Status, startedAt: Option<Time>, finishedAt: Option<Time>)
    | Cancel
    | MarkTimeout
    | MarkExpired

  /** A pending row that no lease and no backoff protects at `now`. */
  predicate Available(c: Command, now: Time) {
    c.status.Pending? && (c.leaseUntil.None? || c.leaseUntil.value <= now)
  }

  /** The WHERE clause of each statement. */
  predicate Guard(c: Command, op: Op, now: Time) {
    match op
    case Lease(_, _) => Available(c, now)
    case ReleaseLease(_) => c.status.Leased?
    case MarkSent => c.status.Leased?
    case RetryToPending(_, _) => IsActive(c.status)
    case MarkAcked => c.status in {Sent, Status.Leased, Acked}
    case ApplyResultStatus(_, _, _) => !IsTerminal(c.status)
    case Cancel => !IsTerminal(c.status)
    case MarkTimeout => IsActive(c.status)
    case MarkExpired => c.status.Pending?
  }

  /** The SET clause of each statement. */
  function Effect(c: Command, op: Op, now: Time): Command {
    match op
    case Lease(holder, until) =>
      c.(status := Leased, leasedBy := Some(holder), leaseUntil := Some(until), attempts := c.attempts + 1,
         updatedAt := now)
    case ReleaseLease(retryAfter) =>
      c.(status := Pending, leasedBy := None, leaseUntil := Some(retryAfter), updatedAt := now)
    case MarkSent =>
      c.(status := Sent, sentAt := Some(now), updatedAt := now)
    case RetryToPending(reason, retryAfter) =>
      c.(status := Pending, leasedBy := None, leaseUntil := Some(retryAfter), lastError := Some(reason),
         updatedAt := now)
    case MarkAcked =>
      c.(status := Acked, ackedAt := Coalesce(c.ackedAt, Some(now)), updatedAt := now)
    case ApplyResultStatus(status, startedAt, finishedAt) =>
      c.(status := status, startedAt := Coalesce(startedAt, c.startedAt), finishedAt := finishedAt, updatedAt := now)
    case Cancel =>
      c.(status := Canceled, finishedAt := Some(now), updatedAt := now)
    case MarkTimeout =>
      c.(status := Timeout, finishedAt := Some(now), updatedAt := now)
    case MarkExpired =>
      c.(status := Expired, finishedAt := Some(now), updatedAt := now)
  }

  /** One statement against one row. */
  function Exec(c: Command, op: Op, now: Time): Command {
    if Guard(c, op, now) then Effect(c, op, now) else c
  }

  /** Several statements in one transaction. */
  function ExecAll(c: Command, ops: seq<Op>, now: Time): Command
    decreases |ops|
  {
    if ops == [] then c else ExecAll(Exec(c, ops[0], now), ops[1..], now)
  }

  lemma ExecShort(c: Command, ops: seq<Op>, now: Time)
    ensures |ops| == 1 ==> ExecAll(c, ops, now) == Exec(c, ops[0], now)
    ensures |ops| == 2 ==> ExecAll(c, ops, now) == Exec(Exec(c, ops[0], now), ops[1], now)
  {
    if |ops| == 1 {
      assert ops[1..] == [];
      assert ExecAll(c, ops, now) == ExecAll(Exec(c, ops[0], now), [], now);
    } else if |ops| == 2 {
      var d := Exec(c, ops[0], now);
      assert ops[1..] == [ops[1]] && [ops[1]][1..] == [];
      assert ExecAll(d, [ops[1]], now) == ExecAll(Exec(d, ops[1], now), [], now);
    }
  }

  /** One statement against the table, and whether it changed a row. */
  function ExecAt(t: Commands, id: Id, op: Op, now: Time): Commands {
    if id in t then t[id := Exec(t[id], op, now)] else t
  }

  predicate Affects(t: Commands, id: Id, op: Op, now: Time) {
    id in t && Guard(t[id], op, now)
  }

  /** `ON CONFLICT(command_id) DO NOTHING`. */
  function InsertedIfAbsent(r: Results, id: Id, rec: CommandResult): Results {
    if id in r then r else r[id := rec]
  }
}
