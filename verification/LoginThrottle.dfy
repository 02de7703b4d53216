/** Login throttling per source address, with one row of state for each address that has failed. */
module LoginThrottle {
  import opened Options
  import opened ThrottleRules
  import opened ThrottleHistory

  class Throttle {
    const settings: Settings
    /** Public addresses; loopback, private and unparsable ones are never banned. */
    const bannable: string -> bool
    var rows: map<string, Attempts>
    /** Everything recorded for each address so far. */
    ghost var histories: map<string, seq<Event>>

    /** Each row is what the history of its address makes it. */
    ghost predicate Valid()
      reads this
    {
      && settings.maxFailures >= 1
      && forall ip :: Row(ip) == RowAfter(settings, HistoryOf(ip))
    }

    ghost function HistoryOf(ip: string): seq<Event>
      reads this
    {
      if ip in histories then histories[ip] else []
    }

    constructor (settings: Settings, bannable: string -> bool)
      ensures this.settings == settings.(maxFailures := if settings.maxFailures < 1 then 1 else settings.maxFailures)
      ensures this.bannable == bannable && rows == map[]
      ensures Valid() && forall ip :: HistoryOf(ip) == []
    {
      this.settings := if settings.maxFailures < 1 then settings.(maxFailures := 1) else settings;
      this.bannable := bannable;
      rows, histories := map[], map[];
    }

    function Row(ip: string): Attempts
      reads this
    {
      if ip in rows then rows[ip] else NO_ROW
    }

    /** Refuses exactly while the latest ban in the history runs, and says for how long. */
    method Allow(ip: string, now: Time) returns (allowed: bool, retryAfter: Time)
      requires Valid()
      ensures !allowed <==> settings.enabled && bannable(ip) && IsBanned(settings, HistoryOf(ip), now)
      ensures if allowed then retryAfter == 0
              else exists j :: IsLatestBan(settings, HistoryOf(ip), j) &&
                               retryAfter == BanEnd(settings, HistoryOf(ip), j) - now
    {
      BannedByRow(settings, HistoryOf(ip), now);
      if !settings.enabled || !bannable(ip) || ip !in rows {
        return true, 0;
      }
      var a := rows[ip];
      if a.bannedUntil.Some? && a.bannedUntil.value > now {
        return false, a.bannedUntil.value - now;
      }
      return true, 0;
    }

    method RecordFailure(ip: string, now: Time) returns (banned: bool, banFor: Time)
      requires Valid()
      modifies this`rows, this`histories
      ensures Valid()
      ensures histories == if settings.enabled && bannable(ip)
                           then old(histories)[ip := old(HistoryOf(ip)) + [Failure(now)]] else old(histories)
      ensures if settings.enabled && bannable(ip)
              then rows == old(rows)[ip := Failed(settings, old(Row(ip)), now)] &&
                   (banned <==> BanAt(settings, HistoryOf(ip), |HistoryOf(ip)| - 1)) &&
                   (banned ==> now + banFor == BanEnd(settings, HistoryOf(ip), |HistoryOf(ip)| - 1))
              else rows == old(rows) && !banned
      ensures !banned ==> banFor == 0
    {
      banned, banFor := false, 0;
      if !settings.enabled || !bannable(ip) {
        return;
      }
      var a;
      a, banned, banFor := CountFailure(Row(ip), now);
      RowAfterOneMore(settings, HistoryOf(ip), Failure(now));
      BannedNow(settings, HistoryOf(ip), now);
      rows := rows[ip := a];
      histories := histories[ip := HistoryOf(ip) + [Failure(now)]];
      assert forall k :: k != ip ==> Row(k) == old(Row(k)) && HistoryOf(k) == old(HistoryOf(k));
    }

    /** The row after one more failure. */
    method CountFailure(before: Attempts, now: Time) returns (a: Attempts, banned: bool, banFor: Time)
      ensures a == Failed(settings, before, now)
      ensures banned <==> Bans(settings, before, now)
      ensures if banned then a.bannedUntil == Some(now + banFor) else banFor == 0
    {
      a, banned, banFor := before, false, 0;
      if a.lastFailure.Some? {
        var gap := now - a.lastFailure.value;
        if gap > settings.failureWindow {
          a := a.(failCount := 0);
        }
        if gap > settings.offenseReset {
          a := a.(banLevel := 0);
        }
      }
      a := a.(failCount := a.failCount + 1, lastFailure := Some(now));
      if a.failCount >= settings.maxFailures {
        ghost var formed;
        banFor, formed := BanDuration(settings, a.banLevel + 1);
        a := a.(banLevel := a.banLevel + 1, bannedUntil := Some(now + banFor), failCount := 0);
        banned := true;
      }
    }

    method RecordSuccess(ip: string)
      requires Valid()
      modifies this`rows, this`histories
      ensures Valid()
      ensures histories == if settings.enabled && bannable(ip)
                           then old(histories)[ip := old(HistoryOf(ip)) + [Success]] else old(histories)
      ensures rows == if settings.enabled && bannable(ip) then old(rows) - {ip} else old(rows)
      ensures settings.enabled && bannable(ip) ==> Row(ip) == NO_ROW
    {
      if settings.enabled && bannable(ip) {
        RowAfterOneMore(settings, HistoryOf(ip), Success);
        rows := rows - {ip};
        histories := histories[ip := HistoryOf(ip) + [Success]];
        assert forall k :: k != ip ==> Row(k) == old(Row(k)) && HistoryOf(k) == old(HistoryOf(k));
      }
    }
  }
}
