/**
 The registry with a clock: agents are heard from, and a pass of the heartbeat reaper takes a snapshot of the registry
 and then looks at one connection after the other, while everything else goes on.
 */
module HubHeartbeat {
  import opened Options
  import HubRuns

  /** `beats`: the last heartbeat of each connection. `unchecked`: what a pass still has to look at. */
  datatype Sys = Sys(
    hub: HubRuns.State,
    beats: map<string, Time>,
    passAt: Time,
    unchecked: set<string>,
    clock: Time)

  datatype Step =
    | Connect(id: string, device: string, now: Time)
    | Hear(id: string, now: Time)
    | Other(e: HubRuns.Step, now: Time)
    | StartPass(now: Time)
    | Check(id: string, now: Time)

  /** There is one reaper, and it ends a pass before the next one. Other closings are steps of the registry. */
  predicate Enabled(s: Sys, e: Step) {
    && s.clock <= e.now
    && match e
       case Connect(id, device, _) => HubRuns.Enabled(s.hub, HubRuns.Register(id, device))
       case Hear(id, _) => id in s.hub.all
       case Other(step, _) => !step.Register? && HubRuns.Enabled(s.hub, step)
       case StartPass(_) => s.unchecked == {}
       case Check(id, _) => id in s.unchecked && id in s.hub.all
  }

  /** A pass reads the clock once; what it finds silent for longer it closes. */
  predicate ClosesIt(offlineAfter: Time, s: Sys, e: Step) {
    e.Check? && e.id in s.beats && s.passAt - s.beats[e.id] > offlineAfter
  }

  function Next(offlineAfter: Time, s: Sys, e: Step): Sys
    requires Enabled(s, e)
  {
    match e
    case Connect(id, device, now) =>
      s.(hub := HubRuns.Next(s.hub, HubRuns.Register(id, device)), beats := s.beats[id := now], clock := now)
    case Hear(id, now) => s.(beats := s.beats[id := now], clock := now)
    case Other(step, now) => s.(hub := HubRuns.Next(s.hub, step), clock := now)
    case StartPass(now) => s.(passAt := now, unchecked := s.hub.registry.Values, clock := now)
    case Check(id, now) =>
      s.(hub := if ClosesIt(offlineAfter, s, e) then HubRuns.Next(s.hub, HubRuns.CloseFromOutside(id)) else s.hub,
         unchecked := s.unchecked - {id}, clock := now)
  }

  ghost predicate IsRun(offlineAfter: Time, s: Sys, steps: seq<Step>)
    decreases |steps|
  {
    steps == [] || (Enabled(s, steps[0]) && IsRun(offlineAfter, Next(offlineAfter, s, steps[0]), steps[1..]))
  }

  ghost function Run(offlineAfter: Time, s: Sys, steps: seq<Step>): Sys
    requires IsRun(offlineAfter, s, steps)
    decreases |steps|
  {
    if steps == [] then s else Run(offlineAfter, Next(offlineAfter, s, steps[0]), steps[1..])
  }

  function Start(now: Time): Sys {
    Sys(HubRuns.EMPTY, map[], now, {}, now)
  }

  // ----- When a connection was last heard from -----

  predicate IsHeard(e: Step, id: string) {
    (e.Connect? || e.Hear?) && e.id == id
  }

  /** Step `k` is the last one in which the connection was heard from. */
  ghost predicate LastHeard(steps: seq<Step>, k: nat, id: string) {
    k < |steps| && IsHeard(steps[k], id) && forall i :: k < i < |steps| ==> !IsHeard(steps[i], id)
  }

  /** What every reachable state knows: the heartbeats, and the connections of the registry. */
  ghost predicate Inv(s: Sys) {
    && HubRuns.Inv(s.hub)
    && s.beats.Keys == s.hub.all.Keys
    && s.passAt <= s.clock
    && (forall id :: id in s.beats ==> s.beats[id] <= s.clock)
    && (forall d :: d in s.hub.registry ==> s.hub.registry[d] in s.hub.all)
    && forall id :: id in s.unchecked ==> id in s.hub.all
  }

  lemma StepKeepsInv(offlineAfter: Time, s: Sys, e: Step)
    requires Enabled(s, e) && Inv(s)
    ensures Inv(Next(offlineAfter, s, e))
  {
    match e {
      case Connect(id, device, _) => KeepsHub(s.hub, HubRuns.Register(id, device));
      case Other(step, _) => KeepsHub(s.hub, step);
      case Check(id, _) => KeepsHub(s.hub, HubRuns.CloseFromOutside(id));
      case _ =>
    }
  }

  lemma KeepsHub(s: HubRuns.State, e: HubRuns.Step)
    requires HubRuns.Enabled(s, e) && HubRuns.Inv(s)
    ensures HubRuns.Inv(HubRuns.Next(s, e))
  {
    HubRuns.StepKeepsEntry(s, e);
    HubRuns.StepLeavesNoStray(s, e);
  }

  lemma {:induction false} RunExtended(offlineAfter: Time, s: Sys, steps: seq<Step>)
    requires steps != [] && IsRun(offlineAfter, s, steps)
    ensures var p := steps[..|steps| - 1];
            && IsRun(offlineAfter, s, p) && Enabled(Run(offlineAfter, s, p), steps[|steps| - 1])
            && Run(offlineAfter, s, steps) == Next(offlineAfter, Run(offlineAfter, s, p), steps[|steps| - 1])
    decreases |steps|
  {
    var p := steps[..|steps| - 1];
    if |steps| == 1 {
      assert steps[1..] == [] && p == [];
      assert Run(offlineAfter, s, steps) == Run(offlineAfter, Next(offlineAfter, s, steps[0]), []);
    } else {
      RunExtended(offlineAfter, Next(offlineAfter, s, steps[0]), steps[1..]);
      assert p[1..] == steps[1..][..|steps| - 2] && p[0] == steps[0];
    }
  }

  lemma {:induction false} RunKeepsInv(offlineAfter: Time, s: Sys, steps: seq<Step>)
    requires IsRun(offlineAfter, s, steps) && Inv(s)
    ensures Inv(Run(offlineAfter, s, steps))
    decreases |steps|
  {
    if steps != [] {
      StepKeepsInv(offlineAfter, s, steps[0]);
      RunKeepsInv(offlineAfter, Next(offlineAfter, s, steps[0]), steps[1..]);
    }
  }

  /** The connection was heard from in the last step, or before it. */
  lemma HeardNowOrBefore(steps: seq<Step>, k: nat, id: string)
    requires LastHeard(steps, k, id)
    ensures k == |steps| - 1 || (!IsHeard(steps[|steps| - 1], id) && LastHeard(steps[..|steps| - 1], k, id))
  {
  }

  lemma BeatAfterStep(offlineAfter: Time, s: Sys, e: Step, id: string)
    requires Enabled(s, e)
    ensures var t := Next(offlineAfter, s, e);
            if IsHeard(e, id) then id in t.beats && t.beats[id] == e.now
            else id in s.beats ==> id in t.beats && t.beats[id] == s.beats[id]
  {
  }

  /** The heartbeat of a connection is the time of the step in which it was last heard from. */
  lemma {:induction false} BeatIsLastHeard(offlineAfter: Time, start: Time, steps: seq<Step>, k: nat, id: string)
    requires IsRun(offlineAfter, Start(start), steps) && LastHeard(steps, k, id)
    ensures Inv(Run(offlineAfter, Start(start), steps))
    ensures var s := Run(offlineAfter, Start(start), steps); id in s.beats && s.beats[id] == steps[k].now
    decreases |steps|
  {
    RunKeepsInv(offlineAfter, Start(start), steps);
    var n := |steps| - 1;
    var p := steps[..n];
    RunExtended(offlineAfter, Start(start), steps);
    HeardNowOrBefore(steps, k, id);
    BeatAfterStep(offlineAfter, Run(offlineAfter, Start(start), p), steps[n], id);
    if k < n {
      BeatIsLastHeard(offlineAfter, start, p, k, id);
    }
  }

  /**
   The reaper closes a connection only if it was silent for longer than the threshold at the clock reading of its pass:
   one that is heard from within every threshold is never closed by it.
   */
  lemma OnlySilentOnesAreClosed(offlineAfter: Time, start: Time, steps: seq<Step>, e: Step, k: nat, id: string)
    requires IsRun(offlineAfter, Start(start), steps) && Enabled(Run(offlineAfter, Start(start), steps), e)
    requires !e.Other? && LastHeard(steps, k, id) && id in Run(offlineAfter, Start(start), steps).hub.all
    requires var s := Run(offlineAfter, Start(start), steps);
             s.hub.all[id].open && !Next(offlineAfter, s, e).hub.all[id].open
    ensures var s := Run(offlineAfter, Start(start), steps);
            e == Check(id, e.now) && s.passAt - steps[k].now > offlineAfter
  {
    BeatIsLastHeard(offlineAfter, start, steps, k, id);
  }

  /** A check of a pass closes its connection if that has been silent for longer, and else changes nothing. */
  lemma SilentOnesAreClosed(offlineAfter: Time, start: Time, steps: seq<Step>, e: Step, k: nat)
    requires IsRun(offlineAfter, Start(start), steps) && Enabled(Run(offlineAfter, Start(start), steps), e)
    requires e.Check? && LastHeard(steps, k, e.id)
    ensures var s := Run(offlineAfter, Start(start), steps);
            var t := Next(offlineAfter, s, e);
            && (s.passAt - steps[k].now > offlineAfter ==> !t.hub.all[e.id].open)
            && (s.passAt - steps[k].now <= offlineAfter ==> t.hub == s.hub)
  {
    BeatIsLastHeard(offlineAfter, start, steps, k, e.id);
  }

  /** A pass looks at every connection that is registered when it starts: as many checks as it takes. */
  lemma PassCoversRegistry(offlineAfter: Time, s: Sys, now: Time, d: string)
    requires Enabled(s, StartPass(now)) && d in s.hub.registry
    ensures var t := Next(offlineAfter, s, StartPass(now)); t.passAt == now && s.hub.registry[d] in t.unchecked
  {
  }

  lemma {:induction false} CheckedUntil(offlineAfter: Time, s: Sys, more: seq<Step>, id: string)
    requires IsRun(offlineAfter, s, more) && id in s.unchecked && forall e :: e in more ==> !e.StartPass?
    ensures id in Run(offlineAfter, s, more).unchecked || exists e :: e in more && e.Check? && e.id == id
    decreases |more|
  {
    if more != [] {
      assert more[0] in more && forall e :: e in more[1..] ==> e in more;
      if more[0] != Check(id, more[0].now) {
        CheckedUntil(offlineAfter, Next(offlineAfter, s, more[0]), more[1..], id);
      }
    }
  }

  /** Before the next pass starts, this one has checked every connection that was registered when it started. */
  lemma PassChecksAll(offlineAfter: Time, s: Sys, now: Time, more: seq<Step>, next: Step, d: string)
    requires Enabled(s, StartPass(now)) && d in s.hub.registry
    requires var t := Next(offlineAfter, s, StartPass(now));
             && IsRun(offlineAfter, t, more) && (forall e :: e in more ==> !e.StartPass?)
             && Enabled(Run(offlineAfter, t, more), next) && next.StartPass?
    ensures exists e :: e in more && e.Check? && e.id == s.hub.registry[d]
  {
    CheckedUntil(offlineAfter, Next(offlineAfter, s, StartPass(now)), more, s.hub.registry[d]);
  }

  /** What `IsOnline` answers: there is an entry, and it was heard from within the threshold. */
  predicate IsOnline(offlineAfter: Time, s: Sys, d: string, now: Time) {
    d in s.hub.registry && s.hub.registry[d] in s.beats && now - s.beats[s.hub.registry[d]] <= offlineAfter
  }

  /**
   A device is online exactly if the connection it registered last has not unregistered and was heard from within the
   threshold.
   */
  lemma OnlineIffHeard(offlineAfter: Time, start: Time, steps: seq<Step>, d: string, k: nat, now: Time)
    requires IsRun(offlineAfter, Start(start), steps) && d in Run(offlineAfter, Start(start), steps).hub.latest
    requires LastHeard(steps, k, Run(offlineAfter, Start(start), steps).hub.latest[d])
    ensures var s := Run(offlineAfter, Start(start), steps);
            var id := s.hub.latest[d];
            && id in s.hub.all
            && (IsOnline(offlineAfter, s, d, now) <==>
                !HubRuns.HasLeft(s.hub.all[id]) && now - steps[k].now <= offlineAfter)
  {
    BeatIsLastHeard(offlineAfter, start, steps, k, Run(offlineAfter, Start(start), steps).hub.latest[d]);
  }
}
