/**
 The `commands` and `command_results` tables and the statements the queue runs on them.
 Each method is one SQL statement, so one atomic step of the system.
 */
module CommandStore {
  import opened Options
  import opened CommandTypes

  // ----- What the queries promise -----

  predicate Eligible(c: Command, deviceId: Id, now: Time) {
    c.deviceId == deviceId && Available(c, now)
  }

  function EligibleIds(t: Commands, deviceId: Id, now: Time): set<Id> {
    set id | id in t && Eligible(t[id], deviceId, now)
  }

  function ActiveIds(t: Commands): set<Id> {
    set id | id in t && IsActive(t[id].status)
  }

  predicate ExpiredPending(c: Command, now: Time) {
    c.status.Pending? && c.expiresAt.Some? && c.expiresAt.value <= now
  }

  function ExpiredIds(t: Commands, now: Time): set<Id> {
    set id | id in t && ExpiredPending(t[id], now)
  }

  /** `ORDER BY priority ASC, created_at ASC`. */
  predicate Before(c: Command, d: Command) {
    c.priority < d.priority || (c.priority == d.priority && c.createdAt <= d.createdAt)
  }

  predicate Distinct<T(==)>(s: seq<T>) {
    forall i, j :: 0 <= i < j < |s| ==> s[i] != s[j]
  }

  ghost predicate Ordered(t: Commands, ids: seq<Id>) {
    && (forall id :: id in ids ==> id in t)
    && forall i, j :: 0 <= i < j < |ids| ==> Before(t[ids[i]], t[ids[j]])
  }

  /**
   `ids` answers `SELECT ... ORDER BY priority, created_at LIMIT n` over the rows `pool`. Rows with equal keys
   may come in any order.
   */
  ghost predicate FirstOf(t: Commands, pool: set<Id>, n: nat, ids: seq<Id>) {
    && (forall id :: id in ids ==> id in pool)
    && Distinct(ids)
    && Ordered(t, ids)
    && |ids| <= n
    && (|ids| < n ==> forall id :: id in pool ==> id in ids)
    && forall id, i :: id in pool && id in t && id !in ids && 0 <= i < |ids| ==> Before(t[ids[i]], t[id])
  }

  function AtLeastOne(limit: int): nat {
    if limit <= 0 then 1 else limit
  }

  ghost predicate IsEnumeration<T(!new)>(s: set<T>, out: seq<T>) {
    Distinct(out) && forall x :: x in s <==> x in out
  }

  /** Rows of an unordered query, in some order. */
  method Enumerate(ids: set<Id>) returns (out: seq<Id>)
    ensures IsEnumeration(ids, out)
  {
    out := [];
    var rest := ids;
    while rest != {}
      invariant Distinct(out) && rest <= ids
      invariant forall x :: x in ids <==> x in rest || x in out
      invariant forall x :: x in out ==> x !in rest
      decreases rest
    {
      var x :| x in rest;
      out := out + [x];
      rest := rest - {x};
    }
  }

  class Store {
    var commands: Commands
    var results: Results

    constructor ()
      ensures commands == map[] && results == map[]
    {
      commands, results := map[], map[];
    }

    /** Fails on a duplicate primary key. */
    method Insert(id: Id, c: Command) returns (ok: bool)
      modifies this`commands
      ensures ok <==> id !in old(commands)
      ensures commands == if ok then old(commands)[id := c] else old(commands)
    {
      if id in commands {
        return false;
      }
      commands := commands[id := c];
      return true;
    }

    method Lease(id: Id, leasedBy: string, leaseUntil: Time, now: Time) returns (ok: bool)
      modifies this`commands
      ensures commands == ExecAt(old(commands), id, Op.Lease(leasedBy, leaseUntil), now)
      ensures ok == Affects(old(commands), id, Op.Lease(leasedBy, leaseUntil), now)
    {
      if id !in commands { return false; }
      var c := commands[id];
      if c.status != Pending || !(c.leaseUntil == None || c.leaseUntil.value <= now) { return false; }
      commands := commands[id := c.(status := Leased, leasedBy := Some(leasedBy), leaseUntil := Some(leaseUntil),
                                    attempts := c.attempts + 1, updatedAt := now)];
      return true;
    }

    method ReleaseLease(id: Id, retryAfter: Time, now: Time)
      modifies this`commands
      ensures commands == ExecAt(old(commands), id, Op.ReleaseLease(retryAfter), now)
    {
      if id in commands && commands[id].status == Leased {
        commands := commands[id := commands[id].(status := Pending, leasedBy := None,
                                                 leaseUntil := Some(retryAfter), updatedAt := now)];
      }
    }

    method MarkSent(id: Id, now: Time) returns (ok: bool)
      modifies this`commands
      ensures commands == ExecAt(old(commands), id, Op.MarkSent, now)
      ensures ok == Affects(old(commands), id, Op.MarkSent, now)
    {
      if id !in commands || commands[id].status != Leased { return false; }
      commands := commands[id := commands[id].(status := Sent, sentAt := Some(now), updatedAt := now)];
      return true;
    }

    method RetryToPending(id: Id, reason: string, retryAfter: Time, now: Time) returns (ok: bool)
      modifies this`commands
      ensures commands == ExecAt(old(commands), id, Op.RetryToPending(reason, retryAfter), now)
      ensures ok == Affects(old(commands), id, Op.RetryToPending(reason, retryAfter), now)
    {
      if id !in commands || commands[id].status !in {Leased, Sent, Acked, Running} { return false; }
      commands := commands[id := commands[id].(status := Pending, leasedBy := None, leaseUntil := Some(retryAfter),
                                               lastError := Some(reason), updatedAt := now)];
      return true;
    }

    method MarkAcked(id: Id, now: Time) returns (ok: bool)
      modifies this`commands
      ensures commands == ExecAt(old(commands), id, Op.MarkAcked, now)
      ensures ok == Affects(old(commands), id, Op.MarkAcked, now)
    {
      if id !in commands || commands[id].status !in {Sent, Leased, Acked} { return false; }
      var c := commands[id];
      var ackedAt := if c.ackedAt == None then Some(now) else c.ackedAt;
      commands := commands[id := c.(status := Acked, ackedAt := ackedAt, updatedAt := now)];
      return true;
    }

    method ApplyResultStatus(id: Id, status: Status, startedAt: Option<Time>, finishedAt: Option<Time>, now: Time)
      returns (ok: bool)
      modifies this`commands
      ensures commands == ExecAt(old(commands), id, Op.ApplyResultStatus(status, startedAt, finishedAt), now)
      ensures ok == Affects(old(commands), id, Op.ApplyResultStatus(status, startedAt, finishedAt), now)
    {
      if id !in commands || commands[id].status in {Succeeded, Failed, Timeout, Canceled, Expired} { return false; }
      var c := commands[id];
      commands := commands[id := c.(status := status, finishedAt := finishedAt, updatedAt := now,
                                    startedAt := if startedAt.Some? then startedAt else c.startedAt)];
      return true;
    }

    method Cancel(id: Id, now: Time) returns (ok: bool)
      modifies this`commands
      ensures commands == ExecAt(old(commands), id, Op.Cancel, now)
      ensures ok == Affects(old(commands), id, Op.Cancel, now)
    {
      if id !in commands || commands[id].status in {Succeeded, Failed, Timeout, Canceled, Expired} { return false; }
      commands := commands[id := commands[id].(status := Canceled, finishedAt := Some(now), updatedAt := now)];
      return true;
    }

    method MarkTimeout(id: Id, now: Time) returns (ok: bool)
      modifies this`commands
      ensures commands == ExecAt(old(commands), id, Op.MarkTimeout, now)
      ensures ok == Affects(old(commands), id, Op.MarkTimeout, now)
    {
      if id !in commands || commands[id].status !in {Leased, Sent, Acked, Running} { return false; }
      commands := commands[id := commands[id].(status := Timeout, finishedAt := Some(now), updatedAt := now)];
      return true;
    }

    method MarkExpired(id: Id, now: Time) returns (ok: bool)
      modifies this`commands
      ensures commands == ExecAt(old(commands), id, Op.MarkExpired, now)
      ensures ok == Affects(old(commands), id, Op.MarkExpired, now)
    {
      if id !in commands || commands[id].status != Pending { return false; }
      commands := commands[id := commands[id].(status := Expired, finishedAt := Some(now), updatedAt := now)];
      return true;
    }

    /** `command_results.command_id` is unique: the first result of a command stays. */
    method InsertIfAbsent(id: Id, rec: CommandResult) returns (inserted: bool)
      modifies this`results
      ensures results == InsertedIfAbsent(old(results), id, rec)
      ensures inserted <==> id !in old(results)
    {
      if id in results { return false; }
      results := results[id := rec];
      return true;
    }

    method FindActive() returns (ids: seq<Id>)
      ensures IsEnumeration(ActiveIds(commands), ids)
    {
      ids := Enumerate(ActiveIds(commands));
    }

    method FindExpiredPending(now: Time) returns (ids: seq<Id>)
      ensures IsEnumeration(ExpiredIds(commands, now), ids)
    {
      ids := Enumerate(ExpiredIds(commands, now));
    }

    method ListPending(deviceId: Id, now: Time, limit: int) returns (ids: seq<Id>)
      ensures FirstOf(commands, EligibleIds(commands, deviceId, now), AtLeastOne(limit), ids)
      ensures forall x, y :: 0 <= x < y < |ids| ==>
                var c, d := commands[ids[x]], commands[ids[y]];
                c.priority < d.priority || (c.priority == d.priority && c.createdAt <= d.createdAt)
      ensures |ids| <= if limit <= 0 then 1 else limit
    {
      var n := AtLeastOne(limit);
      var rest := EligibleIds(commands, deviceId, now);
      ids := [];
      while rest != {} && |ids| < n
        invariant |ids| <= n && Distinct(ids)
        invariant rest <= EligibleIds(commands, deviceId, now)
        invariant forall id :: id in EligibleIds(commands, deviceId, now) <==> id in rest || id in ids
        invariant forall id :: id in ids ==> id !in rest
        invariant Ordered(commands, ids)
        invariant forall id, i :: id in rest && 0 <= i < |ids| ==> Before(commands[ids[i]], commands[id])
        decreases rest
      {
        var first := Earliest(rest);
        ids := ids + [first];
        rest := rest - {first};
      }
    }

    method Earliest(pool: set<Id>) returns (first: Id)
      requires pool != {} && pool <= commands.Keys
      ensures first in pool && forall id :: id in pool ==> Before(commands[first], commands[id])
    {
      first :| first in pool;
      var rest := pool - {first};
      while rest != {}
        invariant first in pool && rest <= pool
        invariant forall id :: id in pool && id !in rest ==> Before(commands[first], commands[id])
        decreases rest
      {
        var id :| id in rest;
        if !Before(commands[first], commands[id]) {
          first := id;
        }
        rest := rest - {id};
      }
    }

    /** The rows as the Pull transaction sees them: read before the lease, with status and attempts corrected. */
    method LeasePendingCommands(deviceId: Id, leasedBy: string, leaseUntil: Time, now: Time, limit: int)
      returns (leased: seq<(Id, Command)>)
      modifies this`commands
      ensures FirstOf(old(commands), EligibleIds(old(commands), deviceId, now), AtLeastOne(limit), LeasedIds(leased))
      ensures forall i :: 0 <= i < |leased| ==>
                leased[i].1 == old(commands)[leased[i].0].(status := Leased,
                                                           attempts := old(commands)[leased[i].0].attempts + 1)
      ensures commands == ExecOn(old(commands), LeasedIds(leased), Op.Lease(leasedBy, leaseUntil), now)
    {
      var candidates := ListPending(deviceId, now, limit);
      assert forall id :: id in candidates ==> id in EligibleIds(commands, deviceId, now);
      leased := LeaseAll(candidates, leasedBy, leaseUntil, now);
    }

    method LeaseAll(candidates: seq<Id>, leasedBy: string, leaseUntil: Time, now: Time)
      returns (leased: seq<(Id, Command)>)
      requires Distinct(candidates) && forall id :: id in candidates ==> id in commands && Available(commands[id], now)
      modifies this`commands
      ensures LeasedIds(leased) == candidates
      ensures forall i :: 0 <= i < |leased| ==>
                leased[i].1 == old(commands)[leased[i].0].(status := Leased,
                                                           attempts := old(commands)[leased[i].0].attempts + 1)
      ensures commands == ExecOn(old(commands), candidates, Op.Lease(leasedBy, leaseUntil), now)
    {
      leased := [];
      var i := 0;
      while i < |candidates|
        invariant 0 <= i <= |candidates|
        invariant LeasedIds(leased) == candidates[..i]
        invariant forall k :: 0 <= k < |leased| ==>
                    leased[k].1 == old(commands)[leased[k].0].(status := Leased,
                                                               attempts := old(commands)[leased[k].0].attempts + 1)
        invariant commands == ExecOn(old(commands), candidates[..i], Op.Lease(leasedBy, leaseUntil), now)
      {
        var id := candidates[i];
        var c := commands[id];
        assert id !in candidates[..i];
        assert candidates[..i + 1] == candidates[..i] + [id];
        var ok := Lease(id, leasedBy, leaseUntil, now);
        if ok {
          leased := leased + [(id, c.(status := Leased, attempts := c.attempts + 1))];
        }
        i := i + 1;
      }
      assert candidates[..i] == candidates;
    }
  }

  function LeasedIds(leased: seq<(Id, Command)>): (ids: seq<Id>)
    ensures |ids| == |leased| && forall i :: 0 <= i < |ids| ==> ids[i] == leased[i].0
  {
    seq(|leased|, i requires 0 <= i < |leased| => leased[i].0)
  }

  /** One statement on each of several rows. */
  function ExecOn(t: Commands, ids: seq<Id>, op: Op, now: Time): Commands {
    map id | id in t :: if id in ids then Exec(t[id], op, now) else t[id]
  }
}
