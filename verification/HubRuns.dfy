/**
 Connections of one process as goroutines over the shared registry. Each goroutine registers, closes the connection
 it replaced, reads until an error, unregisters and closes itself; other parties may close any connection at any time.
 */
module HubRuns {
  import opened Hub

  /** Where the goroutine of a connection stands. */
  datatype Phase =
    | ClosingReplaced(previous: string)
    | Reading
    | Leaving
    | ClosingSelf
    | Done

  datatype Conn = Conn(device: string, phase: Phase, open: bool)

  /** `latest`: the most recently registered connection of each device. */
  datatype State = State(registry: Registry, all: map<string, Conn>, latest: map<string, string>)

  const EMPTY := State(map[], map[], map[])

  datatype Step =
    | Register(id: string, device: string)
    | CloseReplaced(id: string)
    | EndRead(id: string)
    | Unregister(id: string)
    | CloseSelf(id: string)
    | CloseFromOutside(id: string)

  /** Connection ids are never used twice. */
  predicate Enabled(s: State, e: Step) {
    match e
    case Register(id, _) => id !in s.all
    case CloseReplaced(id) => id in s.all && s.all[id].phase.ClosingReplaced? && s.all[id].phase.previous in s.all
    case EndRead(id) => id in s.all && s.all[id].phase.Reading?
    case Unregister(id) => id in s.all && s.all[id].phase.Leaving?
    case CloseSelf(id) => id in s.all && s.all[id].phase.ClosingSelf?
    case CloseFromOutside(id) => id in s.all
  }

  function WithPhase(all: map<string, Conn>, id: string, p: Phase): map<string, Conn>
    requires id in all
  {
    all[id := all[id].(phase := p)]
  }

  function Closed(all: map<string, Conn>, id: string): map<string, Conn>
    requires id in all
  {
    all[id := all[id].(open := false)]
  }

  function Next(s: State, e: Step): State
    requires Enabled(s, e)
  {
    match e
    case Register(id, device) =>
      State(Registered(s.registry, device, id),
            s.all[id := Conn(device,
                             if device in s.registry then ClosingReplaced(s.registry[device]) else Reading, true)],
            s.latest[device := id])
    case CloseReplaced(id) => s.(all := WithPhase(Closed(s.all, s.all[id].phase.previous), id, Reading))
    case EndRead(id) => s.(all := WithPhase(s.all, id, Leaving))
    case Unregister(id) =>
      s.(registry := Unregistered(s.registry, s.all[id].device, id), all := WithPhase(s.all, id, ClosingSelf))
    case CloseSelf(id) => s.(all := WithPhase(Closed(s.all, id), id, Done))
    case CloseFromOutside(id) => s.(all := Closed(s.all, id))
  }

  predicate HasLeft(c: Conn) {
    c.phase.ClosingSelf? || c.phase.Done?
  }

  /** The entry of a device is its latest connection, unless that one has unregistered; then there is none. */
  ghost predicate LatestHoldsEntry(s: State) {
    && s.registry.Keys <= s.latest.Keys
    && (forall d :: d in s.latest ==> s.latest[d] in s.all && s.all[s.latest[d]].device == d)
    && forall d :: d in s.latest ==>
         if HasLeft(s.all[s.latest[d]]) then d !in s.registry else d in s.registry && s.registry[d] == s.latest[d]
  }

  ghost predicate InRegistry(s: State, id: string)
    requires id in s.all
  {
    s.all[id].device in s.registry && s.registry[s.all[id].device] == id
  }

  /** Some goroutine is about to close connection `id`. */
  ghost predicate ClosePending(s: State, id: string)
    requires id in s.all
  {
    || s.all[id].phase.ClosingSelf?
    || exists other :: other in s.all && s.all[other].phase == ClosingReplaced(id)
  }

  ghost predicate NoStray(s: State) {
    && (forall id :: id in s.all && s.all[id].open ==> InRegistry(s, id) || ClosePending(s, id))
    && forall id :: id in s.all && s.all[id].phase.ClosingReplaced? ==>
         s.all[id].phase.previous in s.all && s.all[id].phase.previous != id
  }

  ghost predicate Inv(s: State) {
    LatestHoldsEntry(s) && NoStray(s)
  }

  lemma StepKeepsEntry(s: State, e: Step)
    requires Enabled(s, e) && Inv(s)
    ensures LatestHoldsEntry(Next(s, e))
  {
  }

  lemma StepLeavesNoStray(s: State, e: Step)
    requires Enabled(s, e) && Inv(s)
    ensures NoStray(Next(s, e))
  {
    var s' := Next(s, e);
    forall id | id in s'.all && s'.all[id].open ensures InRegistry(s', id) || ClosePending(s', id) {
      if id in s.all && ClosePending(s, id) && !s.all[id].phase.ClosingSelf? {
        var other :| other in s.all && s.all[other].phase == ClosingReplaced(id);
        assert s'.all[other].phase == ClosingReplaced(id) || e == CloseReplaced(other);
      } else if id in s.all && InRegistry(s, id) && e.Register? && e.device == s.all[id].device {
        assert s'.all[e.id].phase == ClosingReplaced(id);
      }
    }
  }

  ghost predicate IsRun(s: State, steps: seq<Step>)
    decreases |steps|
  {
    steps == [] || (Enabled(s, steps[0]) && IsRun(Next(s, steps[0]), steps[1..]))
  }

  ghost function Run(s: State, steps: seq<Step>): State
    requires IsRun(s, steps)
    decreases |steps|
  {
    if steps == [] then s else Run(Next(s, steps[0]), steps[1..])
  }

  lemma {:induction false} RunKeepsInv(s: State, steps: seq<Step>)
    requires IsRun(s, steps) && Inv(s)
    ensures Inv(Run(s, steps))
    decreases |steps|
  {
    if steps != [] {
      StepKeepsEntry(s, steps[0]);
      StepLeavesNoStray(s, steps[0]);
      RunKeepsInv(Next(s, steps[0]), steps[1..]);
    }
  }

  /** In every interleaving the registry points to the latest connection that has not left. */
  lemma RegistryIsCurrent(steps: seq<Step>, d: string)
    requires IsRun(EMPTY, steps)
    ensures var s := Run(EMPTY, steps);
            d in s.latest ==> s.latest[d] in s.all && s.all[s.latest[d]].device == d
    ensures var s := Run(EMPTY, steps);
            if d in s.latest && !HasLeft(s.all[s.latest[d]])
            then d in s.registry && s.registry[d] == s.latest[d]
            else d !in s.registry
  {
    RunKeepsInv(EMPTY, steps);
  }

  /** When no goroutine is about to close a connection, a device has at most one open connection. */
  lemma AtMostOneOpen(steps: seq<Step>, a: string, b: string)
    requires IsRun(EMPTY, steps)
    requires var s := Run(EMPTY, steps);
             && a in s.all && b in s.all && s.all[a].open && s.all[b].open && s.all[a].device == s.all[b].device
             && !ClosePending(s, a) && !ClosePending(s, b)
    ensures a == b
  {
    RunKeepsInv(EMPTY, steps);
  }
}
