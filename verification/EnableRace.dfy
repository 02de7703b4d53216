/**
 `EnableDevice` counts the credentials and writes the status in separate statements. Here other calls may come in
 between. `GeneratePairingCode` and `DisableDevice` also read first and write later; their writes are steps of their own
 that may happen at any time, whatever was read, which is more than the code allows. `Enroll` is one transaction.
 */
module EnableRace {
  import opened Options
  import opened DeviceEnroll

  /**
   A call of `EnableDevice` after its count. `raced`: the device has enrolled since, which no column shows.
   */
  datatype Call = Call(device: Id, target: Status, raced: bool)

  datatype Sys = Sys(t: Tables, calls: map<nat, Call>)

  datatype SplitStep =
    | Whole(e: Step)
    | InsertCode(device: Id, hash: string, expiresAt: Time)
    | WriteDisabled(device: Id)
    | EnableCount(ticket: nat, device: Id)
    | EnableWrite(ticket: nat)

  ghost predicate Enabled(s: Sys, e: SplitStep) {
    match e
    case Whole(step) => Fresh(s.t, step) && !step.Enable?
    case InsertCode(d, hash, _) => d in s.t.devices && hash !in s.t.codes
    case WriteDisabled(d) => d in s.t.devices
    case EnableCount(ticket, d) => ticket !in s.calls && d in s.t.devices
    case EnableWrite(ticket) => ticket in s.calls
  }

  function Target(t: Tables, d: Id): Status {
    if ActiveCreds(t, d) != {} then Status.Enabled else Pending
  }

  function Enrols(t: Tables, e: Step, d: Id): bool {
    e.Enroll? && EnrollCheck(t, e.code, e.now) == Ok(d)
  }

  function Written(t: Tables, c: Call): Tables {
    t.(devices := t.devices[c.device := c.target])
  }

  ghost function NextSys(ttl: Time, s: Sys, e: SplitStep): Sys
    requires Enabled(s, e)
  {
    match e
    case Whole(step) =>
      Sys(Next(ttl, s.t, step),
          map k | k in s.calls :: s.calls[k].(raced := s.calls[k].raced || Enrols(s.t, step, s.calls[k].device)))
    case InsertCode(d, hash, expiresAt) =>
      s.(t := s.t.(codes := s.t.codes[hash := PairingCode(d, expiresAt, None)]))
    case WriteDisabled(d) => s.(t := s.t.(devices := s.t.devices[d := Disabled]))
    case EnableCount(ticket, d) => s.(calls := s.calls[ticket := Call(d, Target(s.t, d), false)])
    case EnableWrite(ticket) => Sys(Written(s.t, s.calls[ticket]), s.calls - {ticket})
  }

  ghost predicate IsSplitRun(ttl: Time, s: Sys, steps: seq<SplitStep>)
    decreases |steps|
  {
    steps == [] || (Enabled(s, steps[0]) && IsSplitRun(ttl, NextSys(ttl, s, steps[0]), steps[1..]))
  }

  ghost function SplitRun(ttl: Time, s: Sys, steps: seq<SplitStep>): Sys
    requires IsSplitRun(ttl, s, steps)
    decreases |steps|
  {
    if steps == [] then s else SplitRun(ttl, NextSys(ttl, s, steps[0]), steps[1..])
  }

  const START := Sys(Tables(map[], map[], map[]), map[])

  // ----- What every interleaving keeps -----

  /** As many credentials as used codes, and at least one where the device is enabled. */
  ghost predicate Balanced(t: Tables) {
    && RowsLinked(t)
    && forall d :: d in t.devices ==>
         && |AllCreds(t, d)| == |UsedCodes(t, d)|
         && (t.devices[d].Enabled? ==> AllCreds(t, d) != {})
         && !t.devices[d].Deleted?
  }

  ghost predicate CallsBalanced(s: Sys) {
    forall k :: k in s.calls ==>
      && s.calls[k].device in s.t.devices
      && (s.calls[k].target.Enabled? ==> AllCreds(s.t, s.calls[k].device) != {})
      && s.calls[k].target in {Status.Enabled, Pending}
  }

  lemma WholeKeepsBalance(ttl: Time, t: Tables, e: Step, d: Id)
    requires Balanced(t) && Fresh(t, e) && !e.Enable? && d in Next(ttl, t, e).devices
    ensures var t' := Next(ttl, t, e);
            && |AllCreds(t', d)| == |UsedCodes(t', d)|
            && (t'.devices[d].Enabled? ==> AllCreds(t', d) != {})
            && !t'.devices[d].Deleted?
            && AllCreds(t, d) <= AllCreds(t', d)
  {
    if e.Enroll? && EnrollCheck(t, e.code, e.now).Ok? {
      EnrollAdds(t, e.code, e.token, e.now, d);
      OneMore(AllCreds(t, d), e.token);
      OneMore(UsedCodes(t, d), e.code.value);
    } else {
      OtherStepsCount(ttl, t, e, d);
    }
  }

  /** A new code is unused, and writing a status touches neither codes nor credentials. */
  lemma SameCounts(ttl: Time, s: Sys, e: SplitStep)
    requires Enabled(s, e) && (e.InsertCode? || e.WriteDisabled? || e.EnableWrite?)
    ensures forall d :: AllCreds(NextSys(ttl, s, e).t, d) == AllCreds(s.t, d) &&
                        UsedCodes(NextSys(ttl, s, e).t, d) == UsedCodes(s.t, d)
  {
  }

  lemma WholeStepKeepsBalance(ttl: Time, s: Sys, e: SplitStep)
    requires Balanced(s.t) && CallsBalanced(s) && Enabled(s, e) && e.Whole?
    ensures Balanced(NextSys(ttl, s, e).t) && CallsBalanced(NextSys(ttl, s, e))
  {
    var s' := NextSys(ttl, s, e);
    StepKeepsLinks(ttl, s.t, e.e);
    forall d | d in s'.t.devices
      ensures |AllCreds(s'.t, d)| == |UsedCodes(s'.t, d)| && !s'.t.devices[d].Deleted?
      ensures s'.t.devices[d].Enabled? ==> AllCreds(s'.t, d) != {}
      ensures AllCreds(s.t, d) <= AllCreds(s'.t, d)
    {
      WholeKeepsBalance(ttl, s.t, e.e, d);
    }
  }

  lemma WriteKeepsBalance(ttl: Time, s: Sys, e: SplitStep)
    requires Balanced(s.t) && CallsBalanced(s) && Enabled(s, e)
    requires e.InsertCode? || e.WriteDisabled? || e.EnableWrite?
    ensures Balanced(NextSys(ttl, s, e).t) && CallsBalanced(NextSys(ttl, s, e))
  {
    SameCounts(ttl, s, e);
    assert RowsLinked(NextSys(ttl, s, e).t);
  }

  lemma CountKeepsBalance(ttl: Time, s: Sys, e: SplitStep)
    requires Balanced(s.t) && CallsBalanced(s) && Enabled(s, e) && e.EnableCount?
    ensures Balanced(NextSys(ttl, s, e).t) && CallsBalanced(NextSys(ttl, s, e))
  {
    ActiveIsAll(s.t, e.device);
  }

  lemma StepKeepsBalance(ttl: Time, s: Sys, e: SplitStep)
    requires Balanced(s.t) && CallsBalanced(s) && Enabled(s, e)
    ensures Balanced(NextSys(ttl, s, e).t) && CallsBalanced(NextSys(ttl, s, e))
  {
    match e {
      case Whole(_) => WholeStepKeepsBalance(ttl, s, e);
      case EnableCount(_, _) => CountKeepsBalance(ttl, s, e);
      case _ => WriteKeepsBalance(ttl, s, e);
    }
  }

  lemma {:induction false} RunKeepsBalance(ttl: Time, s: Sys, steps: seq<SplitStep>)
    requires Balanced(s.t) && CallsBalanced(s) && IsSplitRun(ttl, s, steps)
    ensures Balanced(SplitRun(ttl, s, steps).t)
    decreases |steps|
  {
    if steps != [] {
      StepKeepsBalance(ttl, s, steps[0]);
      RunKeepsBalance(ttl, NextSys(ttl, s, steps[0]), steps[1..]);
    }
  }

  /** In every interleaving the credentials of a device are as many as its used codes, and an enabled one has some. */
  lemma AlwaysBalanced(ttl: Time, steps: seq<SplitStep>, d: Id)
    requires IsSplitRun(ttl, START, steps) && d in SplitRun(ttl, START, steps).t.devices
    ensures var t := SplitRun(ttl, START, steps).t;
            && |ActiveCreds(t, d)| == |UsedCodes(t, d)|
            && (t.devices[d].Enabled? ==> |ActiveCreds(t, d)| >= 1)
  {
    RunKeepsBalance(ttl, START, steps);
    var t := SplitRun(ttl, START, steps).t;
    ActiveIsAll(t, d);
    assert AllCreds(t, d) != {} ==> |AllCreds(t, d)| >= 1;
  }

  // ----- What only a race breaks -----

  /** What a call has counted still holds unless the device has enrolled since. */
  ghost predicate CallsKnown(s: Sys) {
    forall k :: k in s.calls ==> CallKnown(s.t, s.calls[k])
  }

  ghost predicate CallKnown(t: Tables, c: Call) {
    && c.device in t.devices
    && c.target in {Status.Enabled, Pending}
    && (c.target.Pending? <==> AllCreds(t, c.device) == {} || c.raced)
    && (c.raced ==> AllCreds(t, c.device) != {})
  }

  lemma WholeKeepsCall(ttl: Time, t: Tables, e: Step, c: Call)
    requires Conserved(t) && Fresh(t, e) && CallKnown(t, c)
    ensures CallKnown(Next(ttl, t, e), c.(raced := c.raced || Enrols(t, e, c.device)))
  {
    StepKeepsLinks(ttl, t, e);
    assert DeviceOk(t, c.device);
    if e.Enroll? && EnrollCheck(t, e.code, e.now).Ok? {
      EnrollAdds(t, e.code, e.token, e.now, c.device);
    } else {
      OtherStepsCount(ttl, t, e, c.device);
    }
  }

  /** Writing what was counted is harmless exactly if the device has not enrolled in between. */
  lemma WriteConservesIffNoRace(t: Tables, c: Call)
    requires Conserved(t) && CallKnown(t, c)
    ensures Conserved(Written(t, c)) <==> !c.raced
  {
    var t' := Written(t, c);
    assert forall d :: AllCreds(t', d) == AllCreds(t, d) && UsedCodes(t', d) == UsedCodes(t, d);
    assert RowsLinked(t');
    forall d | d in t.devices ensures DeviceOk(t', d) <==> d != c.device || !c.raced {
      assert DeviceOk(t, d);
    }
  }

  lemma WholeStepKeepsKnown(ttl: Time, s: Sys, e: SplitStep)
    requires Conserved(s.t) && CallsKnown(s) && Enabled(s, e) && e.Whole?
    ensures Conserved(NextSys(ttl, s, e).t) && CallsKnown(NextSys(ttl, s, e))
  {
    var s' := NextSys(ttl, s, e);
    StepConserves(ttl, s.t, e.e);
    forall k | k in s'.calls ensures CallKnown(s'.t, s'.calls[k]) {
      WholeKeepsCall(ttl, s.t, e.e, s.calls[k]);
    }
  }

  lemma StepKeepsKnown(ttl: Time, s: Sys, e: SplitStep)
    requires Conserved(s.t) && CallsKnown(s) && Enabled(s, e)
    requires e.EnableWrite? ==> !s.calls[e.ticket].raced
    ensures Conserved(NextSys(ttl, s, e).t) && CallsKnown(NextSys(ttl, s, e))
  {
    match e {
      case Whole(_) => WholeStepKeepsKnown(ttl, s, e);
      case EnableCount(_, d) => ActiveIsAll(s.t, d);
      case EnableWrite(ticket) =>
        SameCounts(ttl, s, e);
        WriteConservesIffNoRace(s.t, s.calls[ticket]);
      case _ =>
        SameCounts(ttl, s, e);
        assert forall d :: d in s.t.devices ==> DeviceOk(s.t, d);
    }
  }

  /** No call writes after its device has enrolled since the count. */
  ghost predicate RaceFree(ttl: Time, s: Sys, steps: seq<SplitStep>)
    requires IsSplitRun(ttl, s, steps)
    decreases |steps|
  {
    steps == [] ||
    ( && (steps[0].EnableWrite? ==> !s.calls[steps[0].ticket].raced)
      && RaceFree(ttl, NextSys(ttl, s, steps[0]), steps[1..]))
  }

  lemma {:induction false} RunKeepsKnown(ttl: Time, s: Sys, steps: seq<SplitStep>)
    requires Conserved(s.t) && CallsKnown(s) && IsSplitRun(ttl, s, steps) && RaceFree(ttl, s, steps)
    ensures Conserved(SplitRun(ttl, s, steps).t) && CallsKnown(SplitRun(ttl, s, steps))
    decreases |steps|
  {
    if steps != [] {
      StepKeepsKnown(ttl, s, steps[0]);
      RunKeepsKnown(ttl, NextSys(ttl, s, steps[0]), steps[1..]);
    }
  }

  /**
   Up to the first race everything is conserved as if enabling were one step, and the first raced write is exactly what
   breaks it.
   */
  lemma FirstRaceBreaks(ttl: Time, steps: seq<SplitStep>, ticket: nat)
    requires IsSplitRun(ttl, START, steps) && RaceFree(ttl, START, steps)
    requires ticket in SplitRun(ttl, START, steps).calls
    ensures var s := SplitRun(ttl, START, steps);
            Conserved(s.t) && (Conserved(NextSys(ttl, s, EnableWrite(ticket)).t) <==> !s.calls[ticket].raced)
  {
    RunKeepsKnown(ttl, START, steps);
    var s := SplitRun(ttl, START, steps);
    WriteConservesIffNoRace(s.t, s.calls[ticket]);
  }

  lemma {:induction false} SplitRunExtended(ttl: Time, s: Sys, steps: seq<SplitStep>, e: SplitStep)
    requires IsSplitRun(ttl, s, steps) && Enabled(SplitRun(ttl, s, steps), e)
    ensures IsSplitRun(ttl, s, steps + [e])
    ensures SplitRun(ttl, s, steps + [e]) == NextSys(ttl, SplitRun(ttl, s, steps), e)
    decreases |steps|
  {
    if steps == [] {
      assert [e][1..] == [] && steps + [e] == [e];
      assert IsSplitRun(ttl, NextSys(ttl, s, e), []);
    } else {
      assert (steps + [e])[1..] == steps[1..] + [e];
      SplitRunExtended(ttl, NextSys(ttl, s, steps[0]), steps[1..], e);
    }
  }

  /** A device with two codes, and a call that has counted no credential. */
  lemma TwoCodesCounted(ttl: Time, d: Id, h1: string, h2: string) returns (steps: seq<SplitStep>)
    requires h1 != h2
    ensures IsSplitRun(ttl, START, steps)
    ensures SplitRun(ttl, START, steps) ==
            Sys(Tables(map[d := Pending],
                       map[h1 := PairingCode(d, ttl, None), h2 := PairingCode(d, ttl, None)], map[]),
                map[0 := Call(d, Pending, false)])
  {
    var e1, e2, e3 := Whole(Create(d)), Whole(Generate(d, h1, 0)), Whole(Generate(d, h2, 0));
    SplitRunExtended(ttl, START, [], e1);
    SplitRunExtended(ttl, START, [] + [e1], e2);
    SplitRunExtended(ttl, START, [] + [e1] + [e2], e3);
    SplitRunExtended(ttl, START, [] + [e1] + [e2] + [e3], EnableCount(0, d));
    steps := [] + [e1] + [e2] + [e3] + [EnableCount(0, d)];
  }

  /** After a race the device is pending again and a second code gives it a second credential. */
  lemma RaceEnrolsTwice(ttl: Time, d: Id, h1: string, h2: string, k1: string, k2: string)
    returns (steps: seq<SplitStep>)
    requires ttl > 0 && h1 != h2 && k1 != k2
    ensures IsSplitRun(ttl, START, steps) && ActiveCreds(SplitRun(ttl, START, steps).t, d) == {k1, k2}
  {
    var first := TwoCodesCounted(ttl, d, h1, h2);
    var e1, e2, e3 := Whole(Enroll(Some(h1), k1, 0)), EnableWrite(0), Whole(Enroll(Some(h2), k2, 0));
    SplitRunExtended(ttl, START, first, e1);
    SplitRunExtended(ttl, START, first + [e1], e2);
    SplitRunExtended(ttl, START, first + [e1] + [e2], e3);
    steps := first + [e1] + [e2] + [e3];
  }
}
