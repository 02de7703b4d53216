/** When a device code enrols and what status a device has, told by the calls made so far. */
module EnrollHistory {
  import opened Options
  import opened DeviceEnroll

  const NOTHING := Tables(map[], map[], map[])

  lemma {:induction false} RunSplit(ttl: Time, t: Tables, steps: seq<Step>, k: nat)
    requires IsRun(ttl, t, steps) && k <= |steps|
    ensures IsRun(ttl, t, steps[..k]) && IsRun(ttl, Run(ttl, t, steps[..k]), steps[k..])
    ensures Run(ttl, t, steps) == Run(ttl, Run(ttl, t, steps[..k]), steps[k..])
    decreases k
  {
    if k > 0 {
      var first, rest := steps[0], steps[1..];
      RunSplit(ttl, Next(ttl, t, first), rest, k - 1);
      assert steps[..k][0] == first && steps[..k][1..] == rest[..k - 1] && rest[k - 1..] == steps[k..];
      assert Run(ttl, t, steps[..k]) == Run(ttl, Next(ttl, t, first), rest[..k - 1]);
    } else {
      assert steps[0..] == steps;
    }
  }

  /** The tables before call `k`. */
  function TablesAt(ttl: Time, steps: seq<Step>, k: nat): Tables
    requires k <= |steps|
  {
    Run(ttl, NOTHING, steps[..k])
  }

  lemma TablesAfter(ttl: Time, steps: seq<Step>, k: nat)
    requires IsRun(ttl, NOTHING, steps) && k < |steps|
    ensures Fresh(TablesAt(ttl, steps, k), steps[k])
    ensures TablesAt(ttl, steps, k + 1) == Next(ttl, TablesAt(ttl, steps, k), steps[k])
  {
    var p := steps[..k + 1];
    RunSplit(ttl, NOTHING, steps, k);
    RunSplit(ttl, NOTHING, steps, k + 1);
    RunSplit(ttl, NOTHING, p, k);
    assert p[..k] == steps[..k] && p[k..] == [steps[k]] && [steps[k]][1..] == [];
    assert steps[k..][0] == steps[k];
    var t := Run(ttl, NOTHING, steps[..k]);
    assert Run(ttl, t, [steps[k]]) == Run(ttl, Next(ttl, t, steps[k]), []);
  }

  // ----- What the calls have done -----

  /** Call `k` gave out code `h` for the pending device `d`. */
  predicate GivesOut(ttl: Time, steps: seq<Step>, k: nat, h: string, d: Id, at: Time) {
    && k < |steps| && steps[k] == Generate(d, h, at)
    && d in TablesAt(ttl, steps, k).devices && TablesAt(ttl, steps, k).devices[d] == Pending
  }

  /** Call `k` enrolled with code `h`: its token is a credential afterwards. */
  predicate EnrolsWith(ttl: Time, steps: seq<Step>, k: nat, h: string) {
    k < |steps| && steps[k].Enroll? && steps[k].code == Some(h) && steps[k].token in TablesAt(ttl, steps, k + 1).creds
  }

  /** Call `k` enrolled device `d`. */
  predicate EnrolsDevice(ttl: Time, steps: seq<Step>, k: nat, d: Id) {
    && k < |steps| && steps[k].Enroll?
    && var creds := TablesAt(ttl, steps, k + 1).creds;
    steps[k].token in creds && creds[steps[k].token].deviceId == d
  }

  /** Which codes there are, and for whom and until when, follows from the calls. */
  ghost predicate GivenKnown(ttl: Time, steps: seq<Step>, n: nat, h: string)
    requires n <= |steps|
  {
    var t := TablesAt(ttl, steps, n);
    && (h in t.codes ==> exists k: nat, d, at :: k < n && GivesOut(ttl, steps, k, h, d, at))
    && forall k: nat, d, at :: k < n && GivesOut(ttl, steps, k, h, d, at) ==>
         h in t.codes && t.codes[h].deviceId == d && t.codes[h].expiresAt == at + ttl
  }

  /** And so does which of them are used. */
  ghost predicate UseKnown(ttl: Time, steps: seq<Step>, n: nat, h: string)
    requires n <= |steps|
  {
    var t := TablesAt(ttl, steps, n);
    (exists j: nat :: j < n && EnrolsWith(ttl, steps, j, h)) <==> h in t.codes && t.codes[h].usedAt.Some?
  }

  lemma GivenKnownNext(ttl: Time, steps: seq<Step>, n: nat, h: string)
    requires IsRun(ttl, NOTHING, steps) && n < |steps| && GivenKnown(ttl, steps, n, h)
    ensures GivenKnown(ttl, steps, n + 1, h)
  {
    var t, e := TablesAt(ttl, steps, n), steps[n];
    TablesAfter(ttl, steps, n);
    var given := e.Generate? && e.hash == h && e.id in t.devices && t.devices[e.id] == Pending;
    assert given ==> GivesOut(ttl, steps, n, h, e.id, e.now);
  }

  lemma UseKnownNext(ttl: Time, steps: seq<Step>, n: nat, h: string)
    requires IsRun(ttl, NOTHING, steps) && n < |steps| && UseKnown(ttl, steps, n, h)
    ensures UseKnown(ttl, steps, n + 1, h)
  {
    TablesAfter(ttl, steps, n);
    var t', e := TablesAt(ttl, steps, n + 1), steps[n];
    assert EnrolsWith(ttl, steps, n, h) <==> e.Enroll? && e.code == Some(h) && e.token in t'.creds;
    if h in t'.codes && t'.codes[h].usedAt.Some? && !EnrolsWith(ttl, steps, n, h) {
      var j: nat :| j < n && EnrolsWith(ttl, steps, j, h);
      assert j < n + 1;
    }
  }

  lemma {:induction false} GivenIsKnown(ttl: Time, steps: seq<Step>, n: nat, h: string)
    requires IsRun(ttl, NOTHING, steps) && n <= |steps|
    ensures GivenKnown(ttl, steps, n, h)
    decreases n
  {
    if n == 0 {
      assert steps[..0] == [];
    } else {
      GivenIsKnown(ttl, steps, n - 1, h);
      GivenKnownNext(ttl, steps, n - 1, h);
    }
  }

  lemma {:induction false} UseIsKnown(ttl: Time, steps: seq<Step>, n: nat, h: string)
    requires IsRun(ttl, NOTHING, steps) && n <= |steps|
    ensures UseKnown(ttl, steps, n, h)
    decreases n
  {
    if n == 0 {
      assert steps[..0] == [];
    } else {
      UseIsKnown(ttl, steps, n - 1, h);
      UseKnownNext(ttl, steps, n - 1, h);
    }
  }

  /** Some earlier call gave out the code, to whichever device. */
  ghost predicate WasGivenOut(ttl: Time, steps: seq<Step>, h: string) {
    exists k: nat, d, at :: GivesOut(ttl, steps, k, h, d, at)
  }

  ghost predicate WasUsed(ttl: Time, steps: seq<Step>, h: string) {
    exists j: nat :: EnrolsWith(ttl, steps, j, h)
  }

  /** The status of a device that was created. */
  function StatusNow(ttl: Time, steps: seq<Step>, d: Id): Status {
    var devices := TablesAt(ttl, steps, |steps|).devices;
    if d in devices then devices[d] else Deleted
  }

  /** How a code that was given out for device `d` at `at` is answered at `now`. */
  ghost predicate IsAnswer(ttl: Time, steps: seq<Step>, h: string, d: Id, at: Time, now: Time, r: Outcome<Id>) {
    r == if WasUsed(ttl, steps, h) then Err(UsedPairingCode)
         else if now >= at + ttl then Err(ExpiredPairingCode)
         else if StatusNow(ttl, steps, d) == Disabled then Err(DeviceDisabled)
         else if StatusNow(ttl, steps, d) == Status.Enabled then Err(DeviceAlreadyEnrolled)
         else Ok(d)
  }

  lemma AnswerByHistory(ttl: Time, steps: seq<Step>, h: string, now: Time)
    requires IsRun(ttl, NOTHING, steps)
    ensures var r := EnrollCheck(TablesAt(ttl, steps, |steps|), Some(h), now);
            && (!WasGivenOut(ttl, steps, h) ==> r == Err(InvalidPairingCode))
            && forall k: nat, d, at :: GivesOut(ttl, steps, k, h, d, at) ==>
                 && IsAnswer(ttl, steps, h, d, at, now, r)
                 && (r == Ok(d) ==> StatusNow(ttl, steps, d) == Pending)
  {
    var n := |steps|;
    assert steps[..n] == steps;
    GivenIsKnown(ttl, steps, n, h);
    UseIsKnown(ttl, steps, n, h);
    RunConserves(ttl, NOTHING, steps);
    var t := TablesAt(ttl, steps, n);
    assert forall d :: d in t.devices ==> DeviceOk(t, d);
    assert WasGivenOut(ttl, steps, h) <==> exists k: nat, d, at :: k < n && GivesOut(ttl, steps, k, h, d, at);
    assert WasUsed(ttl, steps, h) <==> exists j: nat :: j < n && EnrolsWith(ttl, steps, j, h);
  }

  /**
   After any calls: a code enrols if and only if it was given out for a device that is pending, its lifetime is not
   over and nobody has enrolled with it. Otherwise the answer says why not.
   */
  method EnrollAfter(svc: Service, steps: seq<Step>, code: Option<string>, token: string, now: Time)
    returns (r: Outcome<Id>)
    requires IsRun(svc.pairingTtl, NOTHING, steps) && svc.State() == TablesAt(svc.pairingTtl, steps, |steps|)
    requires token !in svc.creds
    modifies svc
    ensures code.None? || !WasGivenOut(svc.pairingTtl, steps, code.value) ==> r == Err(InvalidPairingCode)
    ensures code.Some? ==> forall k: nat, d, at :: GivesOut(svc.pairingTtl, steps, k, code.value, d, at) ==>
                             IsAnswer(svc.pairingTtl, steps, code.value, d, at, now, r)
    ensures forall d :: r == Ok(d) <==>
              && code.Some? && !WasUsed(svc.pairingTtl, steps, code.value)
              && StatusNow(svc.pairingTtl, steps, d) == Pending
              && exists k: nat, at :: GivesOut(svc.pairingTtl, steps, k, code.value, d, at) && now < at + svc.pairingTtl
    ensures if r.Ok?
            then svc.devices == old(svc.devices)[r.value := Status.Enabled] &&
                 svc.creds == old(svc.creds)[token := Credential(r.value, true, None)] &&
                 code.value in old(svc.codes) &&
                 svc.codes == old(svc.codes)[code.value := old(svc.codes)[code.value].(usedAt := Some(now))]
            else svc.State() == old(svc.State())
  {
    if code.Some? {
      AnswerByHistory(svc.pairingTtl, steps, code.value, now);
    }
    r := svc.Enroll(code, token, now);
  }

  // ----- The status of a device -----

  /** Some call has enrolled the device. */
  ghost predicate HasEnrolled(ttl: Time, steps: seq<Step>, n: nat, d: Id) {
    exists j: nat :: j < n && EnrolsDevice(ttl, steps, j, d)
  }

  /** The status the latest of the first `n` calls about the device has left. */
  ghost function StatusByCalls(ttl: Time, steps: seq<Step>, n: nat, d: Id): Option<Status>
    requires n <= |steps|
  {
    if n == 0 then None
    else
      var before := StatusByCalls(ttl, steps, n - 1, d);
      match steps[n - 1]
      case Create(id) => if id == d then Some(Pending) else before
      case Disable(id) => if id == d && before.Some? then Some(Disabled) else before
      case Enable(id) =>
        if id == d && before.Some?
        then Some(if HasEnrolled(ttl, steps, n - 1, d) then Status.Enabled else Pending) else before
      case Enroll(_, _, _) => if EnrolsDevice(ttl, steps, n - 1, d) then Some(Status.Enabled) else before
      case Generate(_, _, _) => before
  }

  lemma CredsNext(ttl: Time, steps: seq<Step>, n: nat, d: Id)
    requires IsRun(ttl, NOTHING, steps) && n < |steps|
    requires RowsLinked(TablesAt(ttl, steps, n))
    ensures ActiveCreds(TablesAt(ttl, steps, n + 1), d) != {} <==>
            ActiveCreds(TablesAt(ttl, steps, n), d) != {} || EnrolsDevice(ttl, steps, n, d)
  {
    var t, e := TablesAt(ttl, steps, n), steps[n];
    TablesAfter(ttl, steps, n);
    if e.Enroll? && EnrollCheck(t, e.code, e.now).Ok? {
      EnrollAdds(t, e.code, e.token, e.now, d);
      StepKeepsLinks(ttl, t, e);
      ActiveIsAll(t, d);
      ActiveIsAll(Next(ttl, t, e), d);
    } else {
      assert Next(ttl, t, e).creds == t.creds;
      assert ActiveCreds(Next(ttl, t, e), d) == ActiveCreds(t, d);
    }
  }

  lemma {:induction false} CredsByCalls(ttl: Time, steps: seq<Step>, n: nat, d: Id)
    requires IsRun(ttl, NOTHING, steps) && n <= |steps|
    ensures RowsLinked(TablesAt(ttl, steps, n))
    ensures ActiveCreds(TablesAt(ttl, steps, n), d) != {} <==> HasEnrolled(ttl, steps, n, d)
    decreases n
  {
    if n == 0 {
      assert steps[..0] == [];
      assert ActiveCreds(NOTHING, d) == {};
    } else {
      CredsByCalls(ttl, steps, n - 1, d);
      CredsNext(ttl, steps, n - 1, d);
      TablesAfter(ttl, steps, n - 1);
      StepKeepsLinks(ttl, TablesAt(ttl, steps, n - 1), steps[n - 1]);
    }
  }

  /** A device has the status that the latest call about it has left, and exists once created. */
  lemma {:induction false} StatusIsByCalls(ttl: Time, steps: seq<Step>, n: nat, d: Id)
    requires IsRun(ttl, NOTHING, steps) && n <= |steps|
    ensures var devices, status := TablesAt(ttl, steps, n).devices, StatusByCalls(ttl, steps, n, d);
            if status.Some? then d in devices && devices[d] == status.value else d !in devices
    decreases n
  {
    if n == 0 {
      assert steps[..0] == [];
    } else {
      StatusIsByCalls(ttl, steps, n - 1, d);
      CredsByCalls(ttl, steps, n - 1, d);
      TablesAfter(ttl, steps, n - 1);
      var t, e := TablesAt(ttl, steps, n - 1), steps[n - 1];
      assert EnrolsDevice(ttl, steps, n - 1, d) <==> e.Enroll? && EnrollCheck(t, e.code, e.now) == Ok(d);
    }
  }
}
