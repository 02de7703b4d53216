/** The registry of open WebSocket connections, one entry per device. */
module Hub {
  import opened Options

  // ----- The registry as a map from device to connection id -----

  type Registry = map<string, string>

  function Registered(r: Registry, deviceId: string, connId: string): Registry {
    r[deviceId := connId]
  }

  /** Only the connection that holds the entry may remove it. */
  function Unregistered(r: Registry, deviceId: string, connId: string): Registry {
    if deviceId in r && r[deviceId] == connId then r - {deviceId} else r
  }

  class Connection {
    const deviceId: string
    const connId: string
    var lastHeartbeat: Time
    var closed: bool
    /** How often the underlying socket was closed. */
    ghost var socketCloses: nat

    ghost predicate Valid()
      reads this
    {
      socketCloses == if closed then 1 else 0
    }

    constructor (deviceId: string, connId: string, now: Time)
      ensures this.deviceId == deviceId && this.connId == connId && lastHeartbeat == now && !closed && Valid()
    {
      this.deviceId, this.connId, lastHeartbeat, closed, socketCloses := deviceId, connId, now, false, 0;
    }

    method MarkHeartbeat(t: Time)
      modifies this`lastHeartbeat
      ensures lastHeartbeat == t
    {
      lastHeartbeat := t;
    }

    /** However often it is called, the socket is closed once. */
    method Close()
      requires Valid()
      modifies this`closed, this`socketCloses
      ensures Valid() && closed && socketCloses == 1
    {
      if !closed {
        closed, socketCloses := true, socketCloses + 1;
      }
    }
  }

  class Hub {
    const offlineAfter: Time
    var conns: map<string, Connection>
    var stopped: bool

    ghost predicate Valid()
      reads this, conns.Values
    {
      forall d :: d in conns ==> conns[d].deviceId == d && conns[d].Valid()
    }

    function Ids(): Registry
      reads this
    {
      map d | d in conns :: conns[d].connId
    }

    constructor (offlineAfter: Time)
      ensures this.offlineAfter == offlineAfter && conns == map[] && !stopped && Valid()
    {
      this.offlineAfter, conns, stopped := offlineAfter, map[], false;
    }

    /** Closing the replaced connection is left to the caller, outside the lock. */
    method Register(c: Connection) returns (replaced: Connection?)
      requires Valid() && c.Valid()
      modifies this`conns
      ensures Valid()
      ensures conns == old(conns)[c.deviceId := c]
      ensures Ids() == Registered(old(Ids()), c.deviceId, c.connId)
      ensures replaced == if c.deviceId in old(conns) then old(conns)[c.deviceId] else null
    {
      replaced := if c.deviceId in conns then conns[c.deviceId] else null;
      conns := conns[c.deviceId := c];
    }

    method Unregister(deviceId: string, connId: string)
      requires Valid()
      modifies this`conns
      ensures Valid()
      ensures Ids() == Unregistered(old(Ids()), deviceId, connId)
      ensures forall d :: d in conns ==> d in old(conns) && conns[d] == old(conns)[d]
    {
      if deviceId in conns && conns[deviceId].connId == connId {
        conns := conns - {deviceId};
      }
    }

    method Get(deviceId: string) returns (c: Connection?)
      ensures c == if deviceId in conns then conns[deviceId] else null
    {
      c := if deviceId in conns then conns[deviceId] else null;
    }

    method IsOnline(deviceId: string, now: Time) returns (online: bool)
      ensures online <==> deviceId in conns && now - conns[deviceId].lastHeartbeat <= offlineAfter
    {
      if deviceId !in conns {
        return false;
      }
      return now - conns[deviceId].lastHeartbeat <= offlineAfter;
    }

    method SnapshotConns() returns (out: seq<Connection>)
      requires Valid()
      ensures forall c :: c in out <==> c in conns.Values
      ensures forall i, j :: 0 <= i < j < |out| ==> out[i] != out[j]
    {
      out := [];
      var rest := conns.Keys;
      while rest != {}
        invariant rest <= conns.Keys
        invariant forall c :: c in out <==> exists d :: d in conns.Keys - rest && conns[d] == c
        invariant forall i, j :: 0 <= i < j < |out| ==> out[i] != out[j]
        decreases rest
      {
        var d :| d in rest;
        assert forall c :: c in out ==> c.deviceId !in rest;
        out := out + [conns[d]];
        rest := rest - {d};
        assert conns.Keys - rest == (conns.Keys - (rest + {d})) + {d};
      }
    }

    /** Closes the stale connections and no others; entries are removed by the connections themselves. */
    method ReapOnce(now: Time)
      requires Valid()
      modifies conns.Values
      ensures Valid() && conns == old(conns)
      ensures forall c :: c in conns.Values ==>
                && c.lastHeartbeat == old(c.lastHeartbeat)
                && (c.closed <==> old(c.closed) || now - c.lastHeartbeat > offlineAfter)
    {
      var snapshot := SnapshotConns();
      var i := 0;
      while i < |snapshot|
        invariant 0 <= i <= |snapshot|
        invariant Valid() && conns == old(conns)
        invariant forall c :: c in conns.Values ==> c.lastHeartbeat == old(c.lastHeartbeat)
        invariant forall c :: c in conns.Values ==>
                    (c.closed <==> old(c.closed) || (c in snapshot[..i] && now - c.lastHeartbeat > offlineAfter))
      {
        var c := snapshot[i];
        assert c in conns.Values;
        assert snapshot[..i + 1] == snapshot[..i] + [c];
        if now - c.lastHeartbeat > offlineAfter {
          c.Close();
        }
        i := i + 1;
      }
      assert snapshot[..i] == snapshot;
    }

    /** Idempotent shutdown. */
    method Stop()
      requires Valid()
      modifies this`stopped, conns.Values
      ensures Valid() && conns == old(conns) && stopped
      ensures forall c :: c in conns.Values ==> c.lastHeartbeat == old(c.lastHeartbeat)
      ensures forall c :: c in conns.Values ==> (c.closed <==> old(c.closed) || !old(stopped))
    {
      if stopped {
        return;
      }
      stopped := true;
      var snapshot := SnapshotConns();
      var i := 0;
      while i < |snapshot|
        invariant 0 <= i <= |snapshot|
        invariant Valid() && conns == old(conns) && stopped
        invariant forall c :: c in conns.Values ==> c.lastHeartbeat == old(c.lastHeartbeat)
        invariant forall c :: c in conns.Values ==> (c.closed <==> old(c.closed) || c in snapshot[..i])
      {
        var c := snapshot[i];
        assert c in conns.Values;
        assert snapshot[..i + 1] == snapshot[..i] + [c];
        c.Close();
        i := i + 1;
      }
      assert snapshot[..i] == snapshot;
    }
  }
}
