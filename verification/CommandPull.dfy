/** Pull drains a device's queue in order, however the agent sizes its requests. */
module CommandPull {
  import opened Options
  import opened CommandTypes
  import opened CommandStore
  import opened CommandService

  /** One Pull and the ids it was answered. */
  datatype PullCall = PullCall(requestId: string, limit: nat, ids: seq<Id>)

  function After(cfg: Settings, t: Commands, call: PullCall, now: Time): Commands {
    PulledTable(cfg, t, call.ids, call.requestId, now)
  }

  /** Successive Pulls of one device at one instant, each answered as `Service.LeaseForPull` promises. */
  ghost predicate Pulls(cfg: Settings, t: Commands, deviceId: Id, now: Time, calls: seq<PullCall>)
    decreases |calls|
  {
    calls == [] ||
    ( && FirstOf(t, EligibleIds(t, deviceId, now), calls[0].limit, calls[0].ids)
      && Pulls(cfg, After(cfg, t, calls[0], now), deviceId, now, calls[1..]))
  }

  function AllIds(calls: seq<PullCall>): seq<Id> {
    if calls == [] then [] else calls[0].ids + AllIds(calls[1..])
  }

  function Total(calls: seq<PullCall>): nat {
    if calls == [] then 0 else calls[0].limit + Total(calls[1..])
  }

  function Drained(cfg: Settings, t: Commands, calls: seq<PullCall>, now: Time): Commands
    decreases |calls|
  {
    if calls == [] then t else Drained(cfg, After(cfg, t, calls[0], now), calls[1..], now)
  }

  /** Two answers in a row are one longer answer. */
  lemma AnswersConcatenate(t: Commands, pool: set<Id>, n: nat, a: seq<Id>, m: nat, b: seq<Id>)
    requires FirstOf(t, pool, n, a) && FirstOf(t, pool - (set id | id in a), m, b)
    ensures FirstOf(t, pool, n + m, a + b)
  {
    var c := a + b;
    forall i, j | 0 <= i < j < |c| ensures c[i] != c[j] {
      assert j >= |a| ==> c[j] in b;
      assert i < |a| ==> c[i] in a;
    }
    forall i, j | 0 <= i < j < |c| ensures c[i] in t && c[j] in t && Before(t[c[i]], t[c[j]]) {
      assert j >= |a| ==> c[j] in b && c[j] !in a;
    }
    forall id, i | id in pool && id in t && id !in c && 0 <= i < |c| ensures Before(t[c[i]], t[id]) {
      assert id !in a && id !in b;
    }
    if |c| < n + m {
      forall id | id in pool ensures id in c {
        assert |a| == n ==> |b| < m;
        assert id !in a ==> id in b;
      }
    }
  }

  /** A Pull takes exactly the rows it returns out of the eligible ones, and keeps every sort key. */
  lemma PullShrinksQueue(cfg: Settings, t: Commands, deviceId: Id, now: Time, call: PullCall)
    requires FirstOf(t, EligibleIds(t, deviceId, now), call.limit, call.ids)
    ensures var t' := After(cfg, t, call, now);
            && t'.Keys == t.Keys
            && EligibleIds(t', deviceId, now) == EligibleIds(t, deviceId, now) - (set id | id in call.ids)
            && (forall id :: id in t ==> t'[id].priority == t[id].priority && t'[id].createdAt == t[id].createdAt)
            && (forall id :: id in t && id !in call.ids ==> t'[id] == t[id])
            && (forall id :: id in t && id in call.ids ==> Handed(t[id], t'[id], now))
  {
    var t' := After(cfg, t, call, now);
    forall id | id in t && id in call.ids ensures Handed(t[id], t'[id], now) {
      assert id in EligibleIds(t, deviceId, now);
      ExecShort(t[id], PullOps(cfg, call.requestId, now), now);
    }
  }

  /** Row `d` is row `c` handed to the device once at `now`. */
  predicate Handed(c: Command, d: Command, now: Time) {
    && c.status.Pending? && d.status.Sent?
    && d.attempts == c.attempts + 1
    && d.sentAt == Some(now)
    && d.priority == c.priority && d.createdAt == c.createdAt && d.deviceId == c.deviceId
  }

  /**
   The answers of successive Pulls are disjoint and, one after the other, are the first `Total` commands of the
   queue as it stood before the first of them. Each was handed over once; no other row changed.
   */
  lemma {:induction false} PullsDrainInOrder(cfg: Settings, t: Commands, deviceId: Id, now: Time, calls: seq<PullCall>)
    requires Pulls(cfg, t, deviceId, now, calls)
    ensures FirstOf(t, EligibleIds(t, deviceId, now), Total(calls), AllIds(calls))
    ensures var t' := Drained(cfg, t, calls, now);
            && t'.Keys == t.Keys
            && forall id :: id in t ==> if id in AllIds(calls) then Handed(t[id], t'[id], now) else t'[id] == t[id]
    decreases |calls|
  {
    if calls != [] {
      var mid := After(cfg, t, calls[0], now);
      PullShrinksQueue(cfg, t, deviceId, now, calls[0]);
      PullsDrainInOrder(cfg, mid, deviceId, now, calls[1..]);
      var rest := EligibleIds(mid, deviceId, now);
      AnswersConcatenate(t, EligibleIds(t, deviceId, now), calls[0].limit, calls[0].ids,
                         Total(calls[1..]), AllIds(calls[1..]));
      forall id | id in calls[0].ids ensures id !in AllIds(calls[1..]) {
        assert id !in rest;
      }
    }
  }

  /** No two eligible rows tie. */
  ghost predicate NoTies(t: Commands, pool: set<Id>) {
    && pool <= t.Keys
    && forall a, b :: a in pool && b in pool && a != b ==> !(Before(t[a], t[b]) && Before(t[b], t[a]))
  }

  /** Without ties the shorter answer is a prefix of the longer one. */
  lemma AnswerIsPrefix(t: Commands, pool: set<Id>, n: nat, a: seq<Id>, m: nat, b: seq<Id>)
    requires NoTies(t, pool) && FirstOf(t, pool, n, a) && FirstOf(t, pool, m, b) && n <= m
    ensures a <= b
  {
    var i := 0;
    while i < |a|
      invariant 0 <= i <= |a| && i <= |b| && a[..i] == b[..i]
    {
      assert a[i] in pool && (a[i] in b || |b| == m);
      SameAtPosition(t, pool, n, a, m, b, i);
      i := i + 1;
    }
    assert a[..i] == a;
  }

  lemma SameAtPosition(t: Commands, pool: set<Id>, n: nat, a: seq<Id>, m: nat, b: seq<Id>, i: nat)
    requires NoTies(t, pool) && FirstOf(t, pool, n, a) && FirstOf(t, pool, m, b)
    requires i < |a| && i < |b| && a[..i] == b[..i]
    ensures a[i] == b[i]
  {
    NotEarlier(t, pool, n, a, m, b, i);
    NotEarlier(t, pool, m, b, n, a, i);
  }

  lemma NotEarlier(t: Commands, pool: set<Id>, n: nat, a: seq<Id>, m: nat, b: seq<Id>, i: nat)
    requires pool <= t.Keys && FirstOf(t, pool, n, a) && FirstOf(t, pool, m, b)
    requires i < |a| && i < |b| && a[..i] == b[..i]
    ensures a[i] == b[i] || Before(t[b[i]], t[a[i]])
  {
    assert a[i] in pool;
    if a[i] in b {
      var j :| i <= j < |b| && b[j] == a[i];
      assert i < j ==> Before(t[b[i]], t[b[j]]);
    }
  }

  /** Chunk sizes do not matter: equal totals give the same commands in the same order. */
  lemma ChunkingIrrelevant(cfg: Settings, t: Commands, deviceId: Id, now: Time, c: seq<PullCall>, d: seq<PullCall>)
    requires Pulls(cfg, t, deviceId, now, c) && Pulls(cfg, t, deviceId, now, d)
    requires NoTies(t, EligibleIds(t, deviceId, now)) && Total(c) == Total(d)
    ensures AllIds(c) == AllIds(d)
  {
    PullsDrainInOrder(cfg, t, deviceId, now, c);
    PullsDrainInOrder(cfg, t, deviceId, now, d);
    var pool := EligibleIds(t, deviceId, now);
    AnswerIsPrefix(t, pool, Total(c), AllIds(c), Total(d), AllIds(d));
    AnswerIsPrefix(t, pool, Total(d), AllIds(d), Total(c), AllIds(c));
  }
}
