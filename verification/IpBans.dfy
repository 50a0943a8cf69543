/**
 * Automatic and manual bans, `src/net/ip_ban.rs`. Instants are nanoseconds on a monotone clock
 * handed to every call.
 */
module IpBans {
  import opened Bytes

  const MAX_TRACKED_IPS := 250_000
  const FORGET_AFTER := 3_600_000_000_000

  datatype Offender = Offender(since: int, count: nat, bannedUntil: Option<int>)

  /** What has been decided about an IP: a ban until some instant, by hand or triggered, or its lifting. */
  datatype Decision = Banned(ip: string, until: int) | Unbanned(ip: string)

  /** When the ban an IP is under runs out: the latest ban not followed by an unban. */
  function BanExpiry(history: seq<Decision>, ip: string): Option<int> {
    if history == [] then None
    else
      var d := history[|history| - 1];
      if d.ip != ip then BanExpiry(history[..|history| - 1], ip)
      else if d.Banned? then Some(d.until)
      else None
  }

  lemma BanExpiryAfter(history: seq<Decision>, d: Decision, ip: string)
    ensures BanExpiry(history + [d], ip) ==
            if d.ip != ip then BanExpiry(history, ip) else if d.Banned? then Some(d.until) else None
  {
  }

  /** Whether the history has `ip` banned at `now`. */
  predicate UnderBan(history: seq<Decision>, ip: string, now: int) {
    BanExpiry(history, ip).Some? && BanExpiry(history, ip).value > now
  }

  function Entry(offenders: map<string, Offender>, ip: string): Option<Offender> {
    if ip in offenders then Some(offenders[ip]) else None
  }

  function TimesOf(violations: map<string, seq<int>>, ip: string): seq<int> {
    if ip in violations then violations[ip] else []
  }

  /**
   * One IP's entry against what happened to it: a ban that still counts is there, and only that
   * one; and the last `count` recorded violations all happened since its window began.
   */
  ghost predicate Tracks(entry: Option<Offender>, expiry: Option<int>, times: seq<int>, clock: int) {
    && (entry.Some? && entry.value.bannedUntil.Some? ==> expiry == entry.value.bannedUntil)
    && (expiry.Some? && expiry.value > clock ==> entry.Some? && entry.value.bannedUntil == expiry)
    && (entry.Some? ==>
          && entry.value.since <= clock && entry.value.count <= |times|
          && (forall k :: |times| - entry.value.count <= k < |times| ==> entry.value.since <= times[k]))
  }

  lemma TracksLater(entry: Option<Offender>, expiry: Option<int>, times: seq<int>, clock: int, now: int)
    requires Tracks(entry, expiry, times, clock) && clock <= now
    ensures Tracks(entry, expiry, times, now)
    ensures entry.None? || (entry.value.bannedUntil.Some? ==> entry.value.bannedUntil.value <= now) ==> Tracks(None, expiry, times, now)
  {
  }

  datatype Outcome = Outcome(offender: Offender, triggered: bool)

  /** What one violation does to an IP's entry. */
  function Violate(entry: Option<Offender>, maxViolations: nat, window: nat, banDuration: nat, now: int): Outcome {
    var o := if entry.Some? then entry.value else Offender(now, 0, None);
    var rolled := if now - o.since >= window then o.(since := now, count := 0) else o;
    var counted := rolled.(count := rolled.count + 1);
    if counted.count >= maxViolations then Outcome(Offender(now, 0, Some(now + banDuration)), true)
    else Outcome(counted, false)
  }

  /** The last `n` of `times` lie within less than `window` before `now`. */
  ghost predicate Recent(times: seq<int>, n: nat, window: nat, now: int) {
    n <= |times| && forall k :: |times| - n <= k < |times| ==> now - times[k] < window || (window == 0 && times[k] == now)
  }

  lemma ViolateTracks(entry: Option<Offender>, expiry: Option<int>, times: seq<int>, clock: int,
                      maxViolations: nat, window: nat, banDuration: nat, now: int)
    requires Tracks(entry, expiry, times, clock) && clock <= now
    ensures var v := Violate(entry, maxViolations, window, banDuration, now);
            && Tracks(Some(v.offender), if v.triggered then Some(now + banDuration) else expiry, times + [now], now)
            && (v.triggered ==> Recent(times + [now], maxViolations, window, now))
  {
  }

  /** An IP's entry after violations at `times`, none of which is looked at further. */
  function AfterAll(entry: Option<Offender>, times: seq<int>, maxViolations: nat, window: nat, banDuration: nat): Option<Offender>
    decreases |times|
  {
    if times == [] then entry
    else
      var next := Violate(entry, maxViolations, window, banDuration, times[0]).offender;
      AfterAll(Some(next), times[1..], maxViolations, window, banDuration)
  }

  lemma {:induction false} CountsUp(o: Offender, times: seq<int>, maxViolations: nat, window: nat, banDuration: nat)
    requires o.count + |times| < maxViolations
    requires forall k :: 0 <= k < |times| ==> times[k] - o.since < window
    ensures AfterAll(Some(o), times, maxViolations, window, banDuration) == Some(o.(count := o.count + |times|))
    decreases |times|
  {
    if times != [] {
      var next := o.(count := o.count + 1);
      assert Violate(Some(o), maxViolations, window, banDuration, times[0]) == Outcome(next, false);
      CountsUp(next, times[1..], maxViolations, window, banDuration);
    }
  }

  /** How many violations an entry brings along to one at `now`: none once its window is over. */
  function Carried(entry: Option<Offender>, window: nat, now: int): nat {
    if entry.Some? && now - entry.value.since < window then entry.value.count else 0
  }

  /** Since when the violations that count at `now` have been counted. */
  function CountedSince(entry: Option<Offender>, window: nat, now: int): int {
    if entry.Some? && now - entry.value.since < window then entry.value.since else now
  }

  /**
   * The limit is reached on time, whatever is on file for the IP (nothing, a window still open
   * or one that is over, a ban before): of violations within one window, those the entry brings
   * along included, exactly the one that makes `maxViolations` triggers the ban. It starts a
   * fresh count; any other violation adds one to the count and leaves the ban on file alone.
   */
  lemma TriggersAtTheLimit(entry: Option<Offender>, times: seq<int>, now: int, maxViolations: nat, window: nat, banDuration: nat)
    requires var first := (times + [now])[0];
             && (times != [] ==> Carried(entry, window, first) + |times| < maxViolations)
             && forall k :: 0 <= k <= |times| ==> (times + [now])[k] - CountedSince(entry, window, first) < window || k == 0
    ensures var first := (times + [now])[0];
            var count := Carried(entry, window, first) + |times| + 1;
            var v := Violate(AfterAll(entry, times, maxViolations, window, banDuration), maxViolations, window, banDuration, now);
            && (v.triggered <==> count >= maxViolations)
            && (times != [] ==> (v.triggered <==> count == maxViolations))
            && v.offender == if v.triggered then Offender(now, 0, Some(now + banDuration))
                             else Offender(CountedSince(entry, window, first), count, if entry.Some? then entry.value.bannedUntil else None)
  {
    if times != [] {
      var all := times + [now];
      assert all[0] == times[0] && all[|times|] == now;
      assert forall k :: 0 <= k < |times| ==> all[k] == times[k];
      var until := if entry.Some? then entry.value.bannedUntil else None;
      var next := Offender(CountedSince(entry, window, times[0]), Carried(entry, window, times[0]) + 1, until);
      assert Violate(entry, maxViolations, window, banDuration, times[0]) == Outcome(next, false);
      CountsUp(next, times[1..], maxViolations, window, banDuration);
    }
  }

  /**
   * After a ban a full count is needed again: violations within one window of the one that
   * triggered it (at `banAt`) trigger the next exactly at the `maxViolations`-th of them.
   */
  lemma FullCountAfterBan(entry: Option<Offender>, banAt: int, times: seq<int>, now: int,
                          maxViolations: nat, window: nat, banDuration: nat)
    requires Violate(entry, maxViolations, window, banDuration, banAt).triggered
    requires |times| < maxViolations
    requires forall k :: 0 <= k <= |times| ==> (times + [now])[k] - banAt < window
    ensures var before := AfterAll(entry, [banAt] + times, maxViolations, window, banDuration);
            Violate(before, maxViolations, window, banDuration, now).triggered <==> |times| + 1 == maxViolations
  {
    var banned := Offender(banAt, 0, Some(banAt + banDuration));
    assert Violate(entry, maxViolations, window, banDuration, banAt).offender == banned;
    AfterFirst(entry, banAt, times, maxViolations, window, banDuration);
    hide Violate, AfterAll;
    var all := times + [now];
    assert all[|times|] == now;
    assert forall k :: 0 <= k < |times| ==> all[k] == times[k];
    CountsUp(banned, times, maxViolations, window, banDuration);
    JudgedAt(banned.(count := |times|), now, maxViolations, window, banDuration);
  }

  lemma AfterFirst(entry: Option<Offender>, at: int, times: seq<int>, maxViolations: nat, window: nat, banDuration: nat)
    ensures AfterAll(entry, [at] + times, maxViolations, window, banDuration) ==
            AfterAll(Some(Violate(entry, maxViolations, window, banDuration, at).offender), times, maxViolations, window, banDuration)
  {
    hide Violate;
    assert ([at] + times)[1..] == times;
  }

  lemma JudgedAt(o: Offender, now: int, maxViolations: nat, window: nat, banDuration: nat)
    requires now - o.since < window
    ensures Violate(Some(o), maxViolations, window, banDuration, now).triggered <==> o.count + 1 >= maxViolations
  {
  }

  ghost predicate AllTracked(offenders: map<string, Offender>, history: seq<Decision>, violations: map<string, seq<int>>, clock: int) {
    forall ip :: Tracks(Entry(offenders, ip), BanExpiry(history, ip), TimesOf(violations, ip), clock)
  }

  lemma ViolationTracked(offenders: map<string, Offender>, history: seq<Decision>, violations: map<string, seq<int>>, clock: int,
                         ip: string, maxViolations: nat, window: nat, banDuration: nat, now: int)
    requires AllTracked(offenders, history, violations, clock) && clock <= now
    ensures var v := Violate(Entry(offenders, ip), maxViolations, window, banDuration, now);
            var times := TimesOf(violations, ip) + [now];
            && AllTracked(offenders[ip := v.offender], if v.triggered then history + [Banned(ip, now + banDuration)] else history,
                          violations[ip := times], now)
            && (v.triggered ==> Recent(times, maxViolations, window, now))
  {
    hide Tracks, Recent, Violate, BanExpiry;
    var v := Violate(Entry(offenders, ip), maxViolations, window, banDuration, now);
    ViolateTracks(Entry(offenders, ip), BanExpiry(history, ip), TimesOf(violations, ip), clock, maxViolations, window, banDuration, now);
    var history' := if v.triggered then history + [Banned(ip, now + banDuration)] else history;
    var offenders', violations' := offenders[ip := v.offender], violations[ip := TimesOf(violations, ip) + [now]];
    forall x ensures Tracks(Entry(offenders', x), BanExpiry(history', x), TimesOf(violations', x), now) {
      BanExpiryAfter(history, Banned(ip, now + banDuration), x);
      if x == ip {
        assert Entry(offenders', x) == Some(v.offender) && TimesOf(violations', x) == TimesOf(violations, ip) + [now];
      } else {
        assert Entry(offenders', x) == Entry(offenders, x) && TimesOf(violations', x) == TimesOf(violations, x);
        TracksLater(Entry(offenders, x), BanExpiry(history, x), TimesOf(violations, x), clock, now);
      }
    }
  }

  class IpBanList {
    var offenders: map<string, Offender>
    ghost var history: seq<Decision>
    /** The times of each IP's recorded violations. */
    ghost var violations: map<string, seq<int>>
    ghost var clock: int

    ghost predicate Valid()
      reads this
    {
      AllTracked(offenders, history, violations, clock)
    }

    constructor ()
      ensures Valid() && offenders == map[] && history == [] && violations == map[]
    {
      offenders, history, violations, clock := map[], [], map[], 0;
    }

    /** Banned exactly when the history says so, whatever was dropped lazily or swept meanwhile. */
    method IsBanned(ip: string, now: int) returns (banned: bool)
      requires Valid() && clock <= now
      modifies `offenders, `clock
      ensures Valid() && clock == now
      ensures banned == UnderBan(history, ip, now)
      ensures var entry := Entry(old(offenders), ip);
              offenders == if entry.Some? && entry.value.bannedUntil.Some? && !banned then old(offenders) - {ip} else old(offenders)
    {
      hide BanExpiry;
      assert Tracks(Entry(offenders, ip), BanExpiry(history, ip), TimesOf(violations, ip), clock);
      banned := false;
      if ip in offenders && offenders[ip].bannedUntil.Some? {
        if offenders[ip].bannedUntil.value > now {
          banned := true;
        } else {
          offenders := offenders - {ip};
        }
      }
      clock := now;
      StillTracked(old(offenders), old(clock));
    }

    /** Entries that were dropped had no ban left; the others did not change. */
    ghost method StillTracked(before: map<string, Offender>, earlier: int)
      requires earlier <= clock
      requires forall ip :: Tracks(Entry(before, ip), BanExpiry(history, ip), TimesOf(violations, ip), earlier)
      requires forall ip :: ip in offenders ==> ip in before && offenders[ip] == before[ip]
      requires forall ip :: ip in before && ip !in offenders ==> before[ip].bannedUntil.None? || before[ip].bannedUntil.value <= clock
      ensures Valid()
    {
      hide BanExpiry, Tracks;
      forall ip ensures Tracks(Entry(offenders, ip), BanExpiry(history, ip), TimesOf(violations, ip), clock) {
        TracksLater(Entry(before, ip), BanExpiry(history, ip), TimesOf(violations, ip), earlier, clock);
      }
    }

    method Ban(ip: string, duration: nat, now: int)
      requires Valid() && clock <= now
      modifies this
      ensures Valid() && clock == now
      ensures history == old(history) + [Banned(ip, now + duration)] && violations == old(violations)
      ensures var was := Entry(old(offenders), ip);
              var o := if was.Some? then was.value else Offender(now, 0, None);
              offenders == old(offenders)[ip := o.(bannedUntil := Some(now + duration))]
    {
      var o := if ip in offenders then offenders[ip] else Offender(now, 0, None);
      offenders := offenders[ip := o.(bannedUntil := Some(now + duration))];
      history, clock := history + [Banned(ip, now + duration)], now;
      forall x ensures Tracks(Entry(offenders, x), BanExpiry(history, x), TimesOf(violations, x), clock) {
        assert Tracks(Entry(old(offenders), x), BanExpiry(old(history), x), TimesOf(violations, x), old(clock));
        BanExpiryAfter(old(history), Banned(ip, now + duration), x);
        hide BanExpiry;
      }
    }

    /**
     * Records one violation, unless the table is full of other IPs. It triggers a ban only if
     * the IP's last `maxViolations` recorded violations, this one included, lie within less
     * than one window (with a zero window: at this very instant).
     */
    method RecordViolation(ip: string, maxViolations: nat, window: nat, banDuration: nat, now: int) returns (triggered: bool)
      requires Valid() && clock <= now
      modifies this
      ensures Valid() && clock == now
      ensures history == if triggered then old(history) + [Banned(ip, now + banDuration)] else old(history)
      ensures triggered ==> Recent(TimesOf(violations, ip), maxViolations, window, now)
      ensures if |old(offenders)| >= 250_000 && ip !in old(offenders) then
                !triggered && offenders == old(offenders) && violations == old(violations)
              else
                && violations == old(violations)[ip := TimesOf(old(violations), ip) + [now]]
                && var v := Violate(Entry(old(offenders), ip), maxViolations, window, banDuration, now);
                   triggered == v.triggered && offenders == old(offenders)[ip := v.offender]
    {
      hide Tracks, Recent, BanExpiry;
      if |offenders| >= MAX_TRACKED_IPS && ip !in offenders {
        clock := now;
        StillTracked(old(offenders), old(clock));
        return false;
      }
      ViolationTracked(offenders, history, violations, clock, ip, maxViolations, window, banDuration, now);
      var o := if ip in offenders then offenders[ip] else Offender(now, 0, None);
      if now - o.since >= window {
        o := o.(since := now, count := 0);
      }
      o := o.(count := o.count + 1);
      triggered := o.count >= maxViolations;
      if triggered {
        o := Offender(now, 0, Some(now + banDuration));
      }
      offenders := offenders[ip := o];
      violations := violations[ip := TimesOf(violations, ip) + [now]];
      history := if triggered then history + [Banned(ip, now + banDuration)] else history;
      clock := now;
      assert o == Violate(Entry(old(offenders), ip), maxViolations, window, banDuration, now).offender;
    }

    method Unban(ip: string, now: int) returns (wasBanned: bool)
      requires Valid() && clock <= now
      modifies this
      ensures Valid() && clock == now && violations == old(violations)
      ensures wasBanned == UnderBan(old(history), ip, now)
      ensures history == old(history) + [Unbanned(ip)] && offenders == old(offenders) - {ip}
    {
      assert Tracks(Entry(offenders, ip), BanExpiry(history, ip), TimesOf(violations, ip), clock);
      wasBanned := false;
      if ip in offenders {
        var until := offenders[ip].bannedUntil;
        wasBanned := until.Some? && until.value > now;
        offenders := offenders - {ip};
      }
      history, clock := history + [Unbanned(ip)], now;
      forall x ensures Tracks(Entry(offenders, x), BanExpiry(history, x), TimesOf(violations, x), clock) {
        assert Tracks(Entry(old(offenders), x), BanExpiry(old(history), x), TimesOf(violations, x), old(clock));
        BanExpiryAfter(old(history), Unbanned(ip), x);
        hide BanExpiry;
      }
    }

    /** The sweep drops offenders with nothing left to remember; no ban answer changes. */
    method Sweep(now: int)
      requires Valid() && clock <= now
      modifies `offenders, `clock
      ensures Valid() && clock == now
      ensures forall ip :: ip in offenders ==> ip in old(offenders) && offenders[ip] == old(offenders)[ip]
      ensures forall ip :: ip in old(offenders) ==>
                (ip in offenders <==> UnderBan(history, ip, now) || now - old(offenders)[ip].since < 3600 * 1_000_000_000)
    {
      assert forall ip :: ip in offenders ==>
          Tracks(Entry(offenders, ip), BanExpiry(history, ip), TimesOf(violations, ip), clock);
      offenders := map ip | ip in offenders
                         && ((offenders[ip].bannedUntil.Some? && offenders[ip].bannedUntil.value > now)
                             || now - offenders[ip].since < FORGET_AFTER) :: offenders[ip];
      clock := now;
      StillTracked(old(offenders), old(clock));
    }
  }
}
