/**
 One-time pairing codes, credentials and device status. Hashes and ids are opaque values; each method is one
 transaction or one admin call.
 */
module DeviceEnroll {
  import opened Options

  type Id = string

  datatype Status = Pending | Enabled | Disabled | Deleted

  datatype PairingCode = PairingCode(deviceId: Id, expiresAt: Time, usedAt: Option<Time>)

  datatype Credential = Credential(deviceId: Id, active: bool, revokedAt: Option<Time>)

  /** Codes and credentials are keyed by their hashes, which are unique columns. */
  datatype Tables = Tables(
    devices: map<Id, Status>,
    codes: map<string, PairingCode>,
    creds: map<string, Credential>)

  datatype Error =
    | DeviceNotFound
    | PairingNotAllowed
    | InvalidPairingCode
    | UsedPairingCode
    | ExpiredPairingCode
    | DeviceDisabled
    | DeviceAlreadyEnrolled

  datatype Outcome<+T> = Ok(value: T) | Err(error: Error)

  function ActiveCreds(t: Tables, d: Id): set<string> {
    set k | k in t.creds && t.creds[k].deviceId == d && t.creds[k].active && t.creds[k].revokedAt.None?
  }

  function UsedCodes(t: Tables, d: Id): set<string> {
    set k | k in t.codes && t.codes[k].deviceId == d && t.codes[k].usedAt.Some?
  }

  function AllCreds(t: Tables, d: Id): set<string> {
    set k | k in t.creds && t.creds[k].deviceId == d
  }

  // ----- What the calls decide -----

  function PairingCheck(t: Tables, d: Id): Outcome<()> {
    if d !in t.devices then Err(DeviceNotFound)
    else if !t.devices[d].Pending? then Err(PairingNotAllowed)
    else Ok(())
  }

  /** A code that was not signed by this server has no hash. */
  function EnrollCheck(t: Tables, hash: Option<string>, now: Time): Outcome<Id> {
    if hash.None? || hash.value !in t.codes then Err(InvalidPairingCode)
    else
      var pc := t.codes[hash.value];
      if pc.usedAt.Some? then Err(UsedPairingCode)
      else if pc.expiresAt <= now then Err(ExpiredPairingCode)
      else if pc.deviceId !in t.devices then Err(InvalidPairingCode)
      else match t.devices[pc.deviceId]
        case Disabled => Err(DeviceDisabled)
        case Enabled => Err(DeviceAlreadyEnrolled)
        case _ => Ok(pc.deviceId)
  }

  /** Code used, credential added, device enabled: all or nothing. */
  function Enrolled(t: Tables, hash: Option<string>, token: string, now: Time): Tables {
    var r := EnrollCheck(t, hash, now);
    if r.Err? then t
    else Tables(t.devices[r.value := Enabled],
                t.codes[hash.value := t.codes[hash.value].(usedAt := Some(now))],
                t.creds[token := Credential(r.value, true, None)])
  }

  // ----- The calls as steps -----

  datatype Step =
    | Create(id: Id)
    | Generate(id: Id, hash: string, now: Time)
    | Enroll(code: Option<string>, token: string, now: Time)
    | Disable(id: Id)
    | Enable(id: Id)

  /** New ids, codes and tokens are random, so they have not been seen before. */
  predicate Fresh(t: Tables, e: Step) {
    match e
    case Create(id) => id !in t.devices
    case Generate(_, hash, _) => hash !in t.codes
    case Enroll(_, token, _) => token !in t.creds
    case _ => true
  }

  function Next(ttl: Time, t: Tables, e: Step): Tables {
    match e
    case Create(id) => t.(devices := t.devices[id := Pending])
    case Generate(id, hash, now) =>
      if PairingCheck(t, id).Ok? then t.(codes := t.codes[hash := PairingCode(id, now + ttl, None)]) else t
    case Enroll(code, token, now) => Enrolled(t, code, token, now)
    case Disable(id) => if id in t.devices then t.(devices := t.devices[id := Disabled]) else t
    case Enable(id) =>
      if id in t.devices
      then t.(devices := t.devices[id := if ActiveCreds(t, id) != {} then Enabled else Pending]) else t
  }

  class Service {
    const pairingTtl: Time
    var devices: map<Id, Status>
    var codes: map<string, PairingCode>
    var creds: map<string, Credential>

    function State(): Tables
      reads this
    {
      Tables(devices, codes, creds)
    }

    constructor (pairingTtl: Time)
      ensures this.pairingTtl == pairingTtl && State() == Tables(map[], map[], map[])
    {
      this.pairingTtl, devices, codes, creds := pairingTtl, map[], map[], map[];
    }

    method CreateDevice(id: Id)
      requires id !in devices
      modifies this`devices
      ensures State() == Next(pairingTtl, old(State()), Create(id))
    {
      devices := devices[id := Pending];
    }

    method GeneratePairingCode(d: Id, hash: string, now: Time) returns (r: Outcome<Time>)
      requires hash !in codes
      modifies this`codes
      ensures r == if d !in devices then Err(DeviceNotFound)
                   else if devices[d] != Pending then Err(PairingNotAllowed)
                   else Ok(now + pairingTtl)
      ensures State() == Next(pairingTtl, old(State()), Generate(d, hash, now))
    {
      if d !in devices {
        return Err(DeviceNotFound);
      }
      if devices[d] != Pending {
        return Err(PairingNotAllowed);
      }
      codes := codes[hash := PairingCode(d, now + pairingTtl, None)];
      return Ok(now + pairingTtl);
    }

    /** The gate between concurrent enrolments: only one caller can flip a code to used. */
    method MarkUsedIfUnused(hash: string, now: Time) returns (marked: bool)
      modifies this`codes
      ensures marked <==> hash in old(codes) && old(codes)[hash].usedAt.None?
      ensures codes == if marked then old(codes)[hash := old(codes)[hash].(usedAt := Some(now))] else old(codes)
    {
      if hash !in codes || codes[hash].usedAt != None {
        return false;
      }
      codes := codes[hash := codes[hash].(usedAt := Some(now))];
      return true;
    }

    method CountActiveByDevice(d: Id) returns (n: nat)
      ensures n == |ActiveCreds(State(), d)|
    {
      n := |ActiveCreds(State(), d)|;
    }

    method Enroll(code: Option<string>, token: string, now: Time) returns (r: Outcome<Id>)
      requires token !in creds
      modifies this
      ensures r == EnrollCheck(old(State()), code, now)
      ensures State() == Next(pairingTtl, old(State()), Step.Enroll(code, token, now))
    {
      if code == None {
        return Err(InvalidPairingCode);
      }
      var hash := code.value;
      if hash !in codes {
        return Err(InvalidPairingCode);
      }
      var pc := codes[hash];
      if pc.usedAt != None {
        return Err(UsedPairingCode);
      }
      if pc.expiresAt <= now {
        return Err(ExpiredPairingCode);
      }
      if pc.deviceId !in devices {
        return Err(InvalidPairingCode);
      }
      if devices[pc.deviceId] == Disabled {
        return Err(DeviceDisabled);
      }
      if devices[pc.deviceId] == Enabled {
        return Err(DeviceAlreadyEnrolled);
      }
      var marked := MarkUsedIfUnused(hash, now);
      if !marked {
        return Err(UsedPairingCode);
      }
      creds := creds[token := Credential(pc.deviceId, true, None)];
      devices := devices[pc.deviceId := Enabled];
      return Ok(pc.deviceId);
    }

    method UpdateStatus(d: Id, status: Status)
      modifies this`devices
      ensures devices == if d in old(devices) then old(devices)[d := status] else old(devices)
    {
      if d in devices {
        devices := devices[d := status];
      }
    }

    method DisableDevice(d: Id) returns (r: Outcome<()>)
      modifies this`devices
      ensures r == if d in old(devices) then Ok(()) else Err(DeviceNotFound)
      ensures State() == Next(pairingTtl, old(State()), Disable(d))
    {
      if d !in devices {
        return Err(DeviceNotFound);
      }
      if devices[d] != Disabled {
        UpdateStatus(d, Disabled);
      }
      return Ok(());
    }

    /** Back to enabled if a credential exists, to pending if the device never enrolled. */
    method EnableDevice(d: Id) returns (r: Outcome<()>)
      modifies this`devices
      ensures r == if d in old(devices) then Ok(()) else Err(DeviceNotFound)
      ensures State() == Next(pairingTtl, old(State()), Enable(d))
    {
      if d !in devices {
        return Err(DeviceNotFound);
      }
      var n := CountActiveByDevice(d);
      UpdateStatus(d, if n > 0 then Enabled else Pending);
      return Ok(());
    }
  }

  // ----- Runs -----

  ghost predicate IsRun(ttl: Time, t: Tables, steps: seq<Step>)
    decreases |steps|
  {
    steps == [] || (Fresh(t, steps[0]) && IsRun(ttl, Next(ttl, t, steps[0]), steps[1..]))
  }

  function Run(ttl: Time, t: Tables, steps: seq<Step>): Tables
    decreases |steps|
  {
    if steps == [] then t else Run(ttl, Next(ttl, t, steps[0]), steps[1..])
  }

  /** Each device has as many credentials as used codes: none while pending, one once enrolled. */
  ghost predicate DeviceOk(t: Tables, d: Id)
    requires d in t.devices
  {
    && |AllCreds(t, d)| == |UsedCodes(t, d)| <= 1
    && (t.devices[d].Pending? ==> AllCreds(t, d) == {})
    && (t.devices[d].Enabled? ==> AllCreds(t, d) != {})
    && !t.devices[d].Deleted?
  }

  ghost predicate Conserved(t: Tables) {
    && (forall d :: d in t.devices ==> DeviceOk(t, d))
    && RowsLinked(t)
  }

  /** Codes and credentials belong to known devices, and no credential is ever revoked. */
  ghost predicate RowsLinked(t: Tables) {
    && (forall k :: k in t.codes ==> t.codes[k].deviceId in t.devices)
    && (forall k :: k in t.creds ==>
          t.creds[k].deviceId in t.devices && t.creds[k].active && t.creds[k].revokedAt.None?)
  }

  /** A successful enrolment adds one credential and one used code, both to the same device. */
  lemma EnrollAdds(t: Tables, code: Option<string>, token: string, now: Time, d: Id)
    requires token !in t.creds && EnrollCheck(t, code, now).Ok?
    ensures var t' := Enrolled(t, code, token, now);
            if d == EnrollCheck(t, code, now).value
            then AllCreds(t', d) == AllCreds(t, d) + {token} && UsedCodes(t', d) == UsedCodes(t, d) + {code.value}
            else AllCreds(t', d) == AllCreds(t, d) && UsedCodes(t', d) == UsedCodes(t, d)
    ensures token !in AllCreds(t, d) && code.value !in UsedCodes(t, d)
  {
  }

  lemma EnrollCounts(t: Tables, code: Option<string>, token: string, now: Time, d: Id)
    requires token !in t.creds && EnrollCheck(t, code, now).Ok? && d in t.devices && DeviceOk(t, d)
    ensures d in Enrolled(t, code, token, now).devices && DeviceOk(Enrolled(t, code, token, now), d)
  {
    EnrollAdds(t, code, token, now, d);
    OneMore(AllCreds(t, d), token);
    OneMore(UsedCodes(t, d), code.value);
  }

  lemma OneMore<T>(s: set<T>, x: T)
    requires x !in s
    ensures |s + {x}| == |s| + 1 && s + {x} != {}
  {
    assert x in s + {x};
  }

  lemma StepKeepsLinks(ttl: Time, t: Tables, e: Step)
    requires RowsLinked(t)
    ensures RowsLinked(Next(ttl, t, e)) && t.devices.Keys <= Next(ttl, t, e).devices.Keys
  {
  }

  lemma ActiveIsAll(t: Tables, d: Id)
    requires RowsLinked(t)
    ensures ActiveCreds(t, d) == AllCreds(t, d)
  {
  }

  lemma OtherStepsCount(ttl: Time, t: Tables, e: Step, d: Id)
    requires RowsLinked(t) && Fresh(t, e) && (e.Enroll? ==> EnrollCheck(t, e.code, e.now).Err?)
    ensures AllCreds(Next(ttl, t, e), d) == AllCreds(t, d) && UsedCodes(Next(ttl, t, e), d) == UsedCodes(t, d)
    ensures d !in t.devices ==> AllCreds(t, d) == {} && UsedCodes(t, d) == {}
  {
  }

  lemma StepConserves(ttl: Time, t: Tables, e: Step)
    requires Conserved(t) && Fresh(t, e)
    ensures Conserved(Next(ttl, t, e))
  {
    StepKeepsLinks(ttl, t, e);
    forall d | d in Next(ttl, t, e).devices ensures DeviceOk(Next(ttl, t, e), d) {
      StepKeepsDevice(ttl, t, e, d);
    }
  }

  lemma StepKeepsDevice(ttl: Time, t: Tables, e: Step, d: Id)
    requires RowsLinked(t) && Fresh(t, e) && d in Next(ttl, t, e).devices
    requires d in t.devices ==> DeviceOk(t, d)
    ensures DeviceOk(Next(ttl, t, e), d)
  {
    if e.Enroll? && EnrollCheck(t, e.code, e.now).Ok? {
      EnrollCounts(t, e.code, e.token, e.now, d);
    } else {
      OtherStepsCount(ttl, t, e, d);
      ActiveIsAll(t, d);
    }
  }

  lemma {:induction false} RunConserves(ttl: Time, t: Tables, steps: seq<Step>)
    requires Conserved(t) && IsRun(ttl, t, steps)
    ensures Conserved(Run(ttl, t, steps))
    decreases |steps|
  {
    if steps != [] {
      StepConserves(ttl, t, steps[0]);
      RunConserves(ttl, Next(ttl, t, steps[0]), steps[1..]);
    }
  }

  /** In every reachable state. */
  lemma ReachableConserved(ttl: Time, steps: seq<Step>, d: Id)
    requires IsRun(ttl, Tables(map[], map[], map[]), steps)
    requires d in Run(ttl, Tables(map[], map[], map[]), steps).devices
    ensures var t := Run(ttl, Tables(map[], map[], map[]), steps);
            && |ActiveCreds(t, d)| == |UsedCodes(t, d)| <= 1
            && (t.devices[d].Pending? ==> |ActiveCreds(t, d)| == 0)
            && (t.devices[d].Enabled? ==> |ActiveCreds(t, d)| == 1)
  {
    var empty := Tables(map[], map[], map[]);
    RunConserves(ttl, empty, steps);
    var t := Run(ttl, empty, steps);
    assert DeviceOk(t, d);
    ActiveIsAll(t, d);
  }

  /** A used code stays used, with its time ... */
  lemma {:induction false} UsedForever(ttl: Time, t: Tables, steps: seq<Step>, hash: string)
    requires IsRun(ttl, t, steps) && hash in t.codes && t.codes[hash].usedAt.Some?
    ensures hash in Run(ttl, t, steps).codes && Run(ttl, t, steps).codes[hash] == t.codes[hash]
    decreases |steps|
  {
    if steps != [] {
      UsedForever(ttl, Next(ttl, t, steps[0]), steps[1..], hash);
    }
  }

  /** ... so after one successful enrolment the same code never enrols again. */
  lemma CodeConsumedOnce(ttl: Time, t: Tables, first: Step, steps: seq<Step>, token: string, now: Time)
    requires first.Enroll? && Fresh(t, first) && EnrollCheck(t, first.code, first.now).Ok?
    requires IsRun(ttl, Next(ttl, t, first), steps)
    ensures var t' := Run(ttl, Next(ttl, t, first), steps);
            EnrollCheck(t', first.code, now) == Err(UsedPairingCode) && Enrolled(t', first.code, token, now) == t'
  {
    UsedForever(ttl, Next(ttl, t, first), steps, first.code.value);
  }

  /** Disabling and enabling again restores the status the device had. */
  lemma DisableEnableRestores(ttl: Time, t: Tables, d: Id)
    requires Conserved(t) && d in t.devices && !t.devices[d].Disabled?
    ensures Next(ttl, Next(ttl, t, Disable(d)), Enable(d)) == t
  {
    var mid := Next(ttl, t, Disable(d));
    assert DeviceOk(t, d);
    ActiveIsAll(t, d);
    assert ActiveCreds(mid, d) == ActiveCreds(t, d);
    assert t.devices[d := Disabled][d := t.devices[d]] == t.devices;
  }
}
