/** When the reaper steps in, and what one pass does to a row. */
module CommandReaper {
  import opened Options
  import opened CommandTypes
  import opened CommandStore

  const REASON := "delivery lease/timeout, retry"

  function EffectiveStart(c: Command): Option<Time> {
    if c.startedAt.Some? then c.startedAt
    else if c.ackedAt.Some? then c.ackedAt
    else c.sentAt
  }

  function TimeoutOf(c: Command): Time {
    c.timeoutSec * SECOND
  }

  predicate LeaseOver(c: Command, now: Time) {
    c.leaseUntil.Some? && c.leaseUntil.value <= now
  }

  predicate IsStuck(c: Command, now: Time) {
    match c.status
    case Leased => LeaseOver(c, now)
    case Sent | Acked | Running =>
      var start := EffectiveStart(c);
      if start.None? then LeaseOver(c, now) else now - start.value > TimeoutOf(c)
    case _ => false
  }

  /** The statement chosen for a stuck row, from the attempts the scan saw. */
  function StuckOp(seen: Command, backoff: Time, now: Time): Op {
    if seen.attempts < seen.maxAttempts then Op.RetryToPending(REASON, now + backoff) else Op.MarkTimeout
  }

  function SweepStuck(c: Command, backoff: Time, now: Time): seq<Op> {
    if IsStuck(c, now) then [StuckOp(c, backoff, now)] else []
  }

  function SweepExpired(c: Command, now: Time): seq<Op> {
    if ExpiredPending(c, now) then [Op.MarkExpired] else []
  }

  /** One pass over one row: the stuck scan first, then the expiry scan on what it left. */
  function SweepOps(c: Command, backoff: Time, now: Time): seq<Op> {
    var first := SweepStuck(c, backoff, now);
    first + SweepExpired(ExecAll(c, first, now), now)
  }

  function Swept(c: Command, backoff: Time, now: Time): Command {
    ExecAll(c, SweepOps(c, backoff, now), now)
  }

  function SweptTable(t: Commands, backoff: Time, now: Time): Commands {
    map id | id in t :: Swept(t[id], backoff, now)
  }

  /** After a pass nothing is left to do at that instant, and rows with nothing due were not touched. */
  lemma SweepComplete(t: Commands, backoff: Time, now: Time)
    ensures SweptTable(t, backoff, now).Keys == t.Keys
    ensures forall id :: id in t ==>
              var c, d := t[id], SweptTable(t, backoff, now)[id];
              && !IsStuck(d, now)
              && !ExpiredPending(d, now)
              && (!IsStuck(c, now) && !ExpiredPending(c, now) ==> d == c)
              && (d.status.Timeout? && !c.status.Timeout? ==> IsStuck(c, now) && c.attempts >= c.maxAttempts)
              && (d.status.Expired? && !c.status.Expired? ==> c.expiresAt.Some? && c.expiresAt.value <= now)
    ensures SweptTable(SweptTable(t, backoff, now), backoff, now) == SweptTable(t, backoff, now)
  {
    forall id | id in t
      ensures var c, d := t[id], SweptTable(t, backoff, now)[id];
              && !IsStuck(d, now) && !ExpiredPending(d, now)
              && (!IsStuck(c, now) && !ExpiredPending(c, now) ==> d == c)
              && (d.status.Timeout? && !c.status.Timeout? ==> IsStuck(c, now) && c.attempts >= c.maxAttempts)
              && (d.status.Expired? && !c.status.Expired? ==> c.expiresAt.Some? && c.expiresAt.value <= now)
    {
      SweepRow(t[id], backoff, now);
    }
    var once := SweptTable(t, backoff, now);
    forall id | id in once ensures Swept(once[id], backoff, now) == once[id] {
      SweepRow(t[id], backoff, now);
      SweepRow(once[id], backoff, now);
    }
  }

  function StuckSwept(c: Command, backoff: Time, now: Time): Command {
    if IsStuck(c, now) then Exec(c, StuckOp(c, backoff, now), now) else c
  }

  function ExpirySwept(c: Command, now: Time): Command {
    if ExpiredPending(c, now) then Exec(c, Op.MarkExpired, now) else c
  }

  /** The two scans one after the other. */
  lemma SweptInTwo(c: Command, backoff: Time, now: Time)
    ensures Swept(c, backoff, now) == ExpirySwept(StuckSwept(c, backoff, now), now)
  {
    var first := SweepStuck(c, backoff, now);
    var mid := ExecAll(c, first, now);
    var second := SweepExpired(mid, now);
    ExecShort(c, first, now);
    ExecShort(mid, second, now);
    ExecAllAppend(c, first, second, now);
  }

  /** What one pass does to a row, case by case. */
  lemma SweepRow(c: Command, backoff: Time, now: Time)
    ensures var d := Swept(c, backoff, now);
            var due := c.expiresAt.Some? && c.expiresAt.value <= now;
            if IsStuck(c, now) then
              if c.attempts >= c.maxAttempts then d == Exec(c, Op.MarkTimeout, now) && d.status.Timeout?
              else if due then d.status.Expired? && d.finishedAt == Some(now)
              else d == Exec(c, Op.RetryToPending(REASON, now + backoff), now) && d.status.Pending?
            else if c.status.Pending? && due then d == Exec(c, Op.MarkExpired, now) && d.status.Expired?
            else d == c
  {
    SweptInTwo(c, backoff, now);
  }

  lemma {:induction false} ExecAllAppend(c: Command, a: seq<Op>, b: seq<Op>, now: Time)
    ensures ExecAll(c, a + b, now) == ExecAll(ExecAll(c, a, now), b, now)
    decreases |a|
  {
    if a == [] {
      assert a + b == b;
    } else {
      assert (a + b)[1..] == a[1..] + b;
      ExecAllAppend(Exec(c, a[0], now), a[1..], b, now);
    }
  }
}
