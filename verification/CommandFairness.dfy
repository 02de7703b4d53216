/** When an attempt is sure of its whole timeout, whatever the parties do from now on. */
module CommandFairness {
  import opened Options
  import opened CommandTypes
  import opened CommandReaper
  import opened CommandService
  import opened CommandMachine
  import opened CommandSafety
  import opened CommandTiming

  /** The pass under way has read the row as stuck and not handled it yet. */
  ghost predicate SeenStuck(s: Sys, id: Id) {
    s.phase.Retrying? && id in s.todo && IsStuck(s.todo[id], s.scanAt)
  }

  /**
   After the steps `more`, step `e` of the reaper takes the command out of the attempt it is in now, before the attempt
   has had its timeout.
   */
  ghost predicate CutShortBy(cfg: Settings, s: Sys, id: Id, more: seq<Step>, e: Step)
    requires id in s.rows && s.rows[id].h.leases != []
  {
    && IsRun(cfg, s, more) && AllPrompt(cfg, s, more)
    && var t := Run(cfg, s, more);
    && Enabled(cfg, t, e) && Prompt(cfg, t, e) && (e.Reap? || e.ReapNext?)
    && id in t.rows && IsActive(t.rows[id].c.status) && t.rows[id].h.leases == s.rows[id].h.leases
    && Next(cfg, t, e).rows[id].c.status != t.rows[id].c.status
    && e.now - LastLease(s.rows[id]) <= TimeoutOf(s.rows[id].c)
  }

  /** No continuation with prompt passes cuts the attempt short. */
  ghost predicate IsSure(cfg: Settings, s: Sys, id: Id)
    requires id in s.rows && s.rows[id].h.leases != []
  {
    forall more, e :: !CutShortBy(cfg, s, id, more, e)
  }

  // ----- Attempts that are sure -----

  /** Whatever the reaper still reads about this attempt, it reads after the attempt was sent. */
  ghost predicate Calm(s: Sys, id: Id, leases: seq<LeaseRec>)
    requires id in s.rows
  {
    var r := s.rows[id];
    && leases <= r.h.leases
    && (r.h.leases == leases && IsActive(r.c.status) ==>
          && r.c.status in {Sent, Acked} && !r.h.ackedBefore
          && (SeenStuck(s, id) ==> !s.todo[id].status.Leased?))
  }

  /** Only a lease starts a new attempt, and only a new attempt remembers earlier acknowledgements. */
  lemma {:induction false} OpsStayCalm(r: Row, ops: seq<Op>, now: Time)
    requires !r.c.status.Leased? && !r.c.status.Running? && forall op :: op in ops ==> IsQueueOp(op)
    requires DoAll(r, ops, now).h.leases == r.h.leases
    ensures var r' := DoAll(r, ops, now);
            && (IsActive(r'.c.status) ==> IsActive(r.c.status) && r'.c.status in {Sent, Acked})
            && r'.h.ackedBefore == r.h.ackedBefore
    decreases |ops|
  {
    if ops != [] {
      var d := Do(r, ops[0], now);
      assert ops[0] in ops;
      LeasesOnlyGrow(d, ops[1..], now);
      OpsStayCalm(d, ops[1..], now);
    }
  }

  lemma {:induction false} LeasesOnlyGrow(r: Row, ops: seq<Op>, now: Time)
    ensures r.h.leases <= DoAll(r, ops, now).h.leases
    decreases |ops|
  {
    if ops != [] {
      LeasesOnlyGrow(Do(r, ops[0], now), ops[1..], now);
    }
  }

  lemma StepStaysCalm(cfg: Settings, s: Sys, e: Step, id: Id, leases: seq<LeaseRec>)
    requires Enabled(cfg, s, e) && RowsOk(s) && id in s.rows && Calm(s, id, leases)
    ensures Calm(Next(cfg, s, e), id, leases)
  {
    var s', r, ops := Next(cfg, s, e), s.rows[id], RowOps(cfg, s, e, id);
    assert RowOk(r);
    LeasesOnlyGrow(r, ops, OpTime(s, e));
    RowOpsAreQueueOps(cfg, s, e, id);
    if s'.rows[id].h.leases == leases {
      assert r.h.leases == leases;
      OpsStayCalm(r, ops, OpTime(s, e));
    }
  }

  lemma {:induction false} RunStaysCalm(cfg: Settings, s: Sys, more: seq<Step>, id: Id, leases: seq<LeaseRec>)
    requires IsRun(cfg, s, more) && RowsOk(s) && id in s.rows && Calm(s, id, leases)
    ensures var t := Run(cfg, s, more); id in t.rows && Calm(t, id, leases) && SameOrder(s.rows[id].c, t.rows[id].c)
    decreases |more|
  {
    if more != [] {
      StepKeepsRows(cfg, s, more[0]);
      StepKeepsRow(cfg, s, more[0], id);
      StepStaysCalm(cfg, s, more[0], id, leases);
      RunStaysCalm(cfg, Next(cfg, s, more[0]), more[1..], id, leases);
    }
  }

  /** What `AllTimely` says about one row. */
  ghost predicate TimelyHere(cfg: Settings, s: Sys, id: Id)
    requires id in s.rows
  {
    && RowTimely(cfg, s.rows[id], s.clock)
    && (!s.phase.Idle? ==> s.scanAt <= s.clock)
    && (id in s.todo ==> SeenRow(cfg, s.rows[id], s.todo[id], s.scanAt))
  }

  /** A calm row that the reaper has found stuck has waited, counted from any earlier state `r`. */
  lemma CalmStuckWaited(cfg: Settings, r: Row, s: Sys, id: Id, e: Step)
    requires id in s.rows && RowOk(s.rows[id]) && TimelyHere(cfg, s, id) && s.clock <= e.now
    requires r.h.leases == s.rows[id].h.leases != [] && SameOrder(r.c, s.rows[id].c) && Calm(s, id, r.h.leases)
    requires IsActive(s.rows[id].c.status)
    requires if e.Reap? then IsStuck(s.rows[id].c, e.now) else SeenStuck(s, id)
    ensures e.now - LastLease(r) > TimeoutOf(r.c)
  {
    if e.Reap? {
      StuckWaited(cfg, s.rows[id], s.clock, e.now);
    }
  }

  lemma CalmIsSure(cfg: Settings, s: Sys, id: Id, more: seq<Step>, e: Step)
    requires Safe(s) && AllTimely(cfg, s) && id in s.rows && s.rows[id].h.leases != []
    requires Calm(s, id, s.rows[id].h.leases)
    ensures !CutShortBy(cfg, s, id, more, e)
  {
    if CutShortBy(cfg, s, id, more, e) {
      RunIsTimely(cfg, s, more);
      RunStaysCalm(cfg, s, more, id, s.rows[id].h.leases);
      var t := Run(cfg, s, more);
      assert RowOk(t.rows[id]) && TimelyHere(cfg, t, id);
      TakenWasStuck(cfg, t, e, id);
      CalmStuckWaited(cfg, s.rows[id], t, id, e);
    }
  }

  // ----- Attempts that are not -----

  /** A pass under way can go on at once; a row it has not read as stuck and that is sent stays as it is. */
  lemma PassGoesOn(cfg: Settings, s: Sys, id: Id) returns (e: Step)
    requires id in s.rows && s.rows[id].c.status in {Sent, Acked} && !SeenStuck(s, id) && !s.phase.Idle?
    ensures Enabled(cfg, s, e) && e.now == s.clock
    ensures var s' := Next(cfg, s, e);
            && s'.rows[id] == s.rows[id] && !SeenStuck(s', id) && s'.scanAt == s.scanAt
            && if s.phase.Retrying? && s'.phase.Retrying? then |s'.todo| < |s.todo|
               else if s.phase.Expiring? && s'.phase.Expiring? then s'.todo == s.todo && |s'.overdue| < |s.overdue|
               else s'.todo == s.todo && s'.phase == if s.phase.Retrying? then Expiring else Idle
  {
    if s.phase.Retrying? {
      if s.todo == map[] {
        e := ScanExpired(s.clock);
      } else {
        var next :| next in s.todo.Keys;
        e := ReapNext(next, s.clock);
        assert (s.todo - {next}).Keys == s.todo.Keys - {next};
      }
    } else if s.overdue == {} {
      e := EndPass(s.clock);
    } else {
      var next :| next in s.overdue;
      e := ExpireNext(next, s.clock);
    }
    DoShort(s.rows[id], RowOps(cfg, s, e, id), OpTime(s, e));
  }

  lemma {:induction false} FinishPass(cfg: Settings, s: Sys, id: Id) returns (more: seq<Step>)
    requires id in s.rows && s.rows[id].c.status in {Sent, Acked} && !SeenStuck(s, id)
    requires !s.phase.Idle? ==> s.clock < s.scanAt + cfg.retryBackoff
    ensures IsRun(cfg, s, more) && AllPrompt(cfg, s, more)
    ensures var t := Run(cfg, s, more);
            t.phase.Idle? && t.clock == s.clock && id in t.rows && t.rows[id] == s.rows[id]
    decreases if s.phase.Retrying? then 2 else if s.phase.Expiring? then 1 else 0, |s.todo|, |s.overdue|
  {
    if s.phase.Idle? {
      more := [];
    } else {
      var e := PassGoesOn(cfg, s, id);
      var rest := FinishPass(cfg, Next(cfg, s, e), id);
      more := [e] + rest;
      assert more[1..] == rest;
    }
  }

  lemma {:induction false} ClockGrows(cfg: Settings, s: Sys, more: seq<Step>)
    requires IsRun(cfg, s, more)
    ensures s.clock <= Run(cfg, s, more).clock
    decreases |more|
  {
    if more != [] {
      ClockGrows(cfg, Next(cfg, s, more[0]), more[1..]);
    }
  }

  lemma LateIsSure(cfg: Settings, s: Sys, id: Id, more: seq<Step>, e: Step)
    requires id in s.rows && s.rows[id].h.leases != []
    requires s.clock > LastLease(s.rows[id]) + TimeoutOf(s.rows[id].c)
    ensures !CutShortBy(cfg, s, id, more, e)
  {
    if IsRun(cfg, s, more) {
      ClockGrows(cfg, s, more);
    }
  }

  /** The pass under way handles the row now. */
  lemma SeenStuckIsCut(cfg: Settings, s: Sys, id: Id)
    requires id in s.rows && s.rows[id].c.status in {Sent, Acked} && s.rows[id].h.leases != [] && SeenStuck(s, id)
    requires s.clock < s.scanAt + cfg.retryBackoff
    requires s.clock <= LastLease(s.rows[id]) + TimeoutOf(s.rows[id].c)
    ensures CutShortBy(cfg, s, id, [], ReapNext(id, s.clock))
  {
    var e := ReapNext(id, s.clock);
    DoShort(s.rows[id], RowOps(cfg, s, e, id), s.scanAt);
  }

  /** A pass that runs when the old acknowledgement has used up the timeout. */
  lemma OldAckIsCut(cfg: Settings, s: Sys, id: Id) returns (more: seq<Step>, e: Step)
    requires id in s.rows && RowOk(s.rows[id]) && s.rows[id].c.status in {Sent, Acked} && s.rows[id].h.leases != []
    requires !SeenStuck(s, id) && (!s.phase.Idle? ==> s.clock < s.scanAt + cfg.retryBackoff)
    requires s.rows[id].c.ackedAt.Some? && s.rows[id].c.ackedAt.value < LastLease(s.rows[id])
    requires s.clock <= LastLease(s.rows[id]) + TimeoutOf(s.rows[id].c)
    ensures CutShortBy(cfg, s, id, more, e)
  {
    var r := s.rows[id];
    var over := r.c.ackedAt.value + TimeoutOf(r.c) + 1;
    more := FinishPass(cfg, s, id);
    e := Reap(if over < s.clock then s.clock else over);
    var t := Run(cfg, s, more);
    DoAllExecutes(r, SweepOps(r.c, cfg.retryBackoff, e.now), e.now);
    SweepRow(r.c, cfg.retryBackoff, e.now);
  }

  /**
   An attempt that is sent or acknowledged is sure of its whole timeout if and only if it has had it already, or no
   earlier attempt was acknowledged and the pass under way, if any, has not read the row as stuck.
   */
  lemma FullTimeoutIff(cfg: Settings, start: Time, steps: seq<Step>, id: Id)
    requires IsRun(cfg, Init(start), steps) && AllPrompt(cfg, Init(start), steps) && cfg.retryBackoff > 0
    requires id in Run(cfg, Init(start), steps).rows
    requires Run(cfg, Init(start), steps).rows[id].c.status in {Sent, Acked}
    ensures var s := Run(cfg, Init(start), steps);
            var r := s.rows[id];
            && r.h.leases != []
            && (IsSure(cfg, s, id) <==>
                s.clock > LastLease(r) + TimeoutOf(r.c) || (!r.h.ackedBefore && !SeenStuck(s, id)))
  {
    RunIsTimely(cfg, Init(start), steps);
    SureIff(cfg, Run(cfg, Init(start), steps), id);
  }

  lemma SureIff(cfg: Settings, s: Sys, id: Id)
    requires Safe(s) && AllTimely(cfg, s) && cfg.retryBackoff > 0 && id in s.rows
    requires s.rows[id].c.status in {Sent, Acked}
    ensures var r := s.rows[id];
            && r.h.leases != []
            && (IsSure(cfg, s, id) <==>
                s.clock > LastLease(r) + TimeoutOf(r.c) || (!r.h.ackedBefore && !SeenStuck(s, id)))
  {
    var r := s.rows[id];
    assert RowOk(r) && RowTimely(cfg, r, s.clock);
    if s.clock > LastLease(r) + TimeoutOf(r.c) {
      forall more, e ensures !CutShortBy(cfg, s, id, more, e) {
        LateIsSure(cfg, s, id, more, e);
      }
    } else if SeenStuck(s, id) {
      SeenStuckIsCut(cfg, s, id);
    } else if r.h.ackedBefore {
      var more, e := OldAckIsCut(cfg, s, id);
    } else {
      forall more, e ensures !CutShortBy(cfg, s, id, more, e) {
        CalmIsSure(cfg, s, id, more, e);
      }
    }
  }
}
