/**
 * Runs of the connection-rate table (`src/net/flood_control.rs`) that reach its bound, and runs
 * that pass what one window's allowance promises: windows outlived by the sweeper, and a table
 * too full to track an IP.
 */
module RateRuns {
  import opened Bytes
  import opened StatusKeys
  import opened ConnectionRate

  /** `n` attempts at one instant. */
  function Burst(ip: string, t: int, n: nat): (r: seq<Event>) {
    if n == 0 then [] else [Attempt(ip, t)] + Burst(ip, t, n - 1)
  }

  lemma {:induction false} BurstIs(ip: string, t: int, n: nat)
    ensures |Burst(ip, t, n)| == n && forall k :: 0 <= k < n ==> Burst(ip, t, n)[k] == Attempt(ip, t)
  {
    if n > 0 {
      BurstIs(ip, t, n - 1);
    }
  }

  lemma BurstHead(ip: string, t: int, n: nat, more: seq<Event>)
    ensures var events := Burst(ip, t, n) + more;
            if n == 0 then events == more
            else events != [] && events[0] == Attempt(ip, t) && events[1..] == Burst(ip, t, n - 1) + more
  {
    if n == 0 {
      assert [] + more == more;
    } else {
      assert ([Attempt(ip, t)] + Burst(ip, t, n - 1) + more)[1..] == Burst(ip, t, n - 1) + more;
    }
  }

  // ----- runs of a single IP -----

  ghost predicate Only(events: seq<Event>, ip: string) {
    forall e :: e in events && e.Attempt? ==> e.ip == ip
  }

  lemma {:induction false} LoneIsTracked(windows: map<string, Window>, events: seq<Event>, ip: string, max: u32, window: nat)
    requires Only(events, ip) && (forall x :: x in windows ==> x == ip)
    ensures Tracked(windows, events, ip, max, window)
    decreases |events|
  {
    hide Judge;
    if events != [] {
      if ip !in windows {
        assert windows == map[];
      }
      var after := AfterEvent(windows, events[0], max, window);
      assert forall x :: x in after ==> x == ip;
      hide AfterEvent;
      LoneIsTracked(after, events[1..], ip, max, window);
    }
  }

  lemma LoneRun(events: seq<Event>, ip: string, max: u32, window: nat, from: int, length: nat)
    requires Ordered(events) && Only(events, ip) && NoWrap(None, events, ip, max, window)
    ensures Proper(events, ip, max, window)
    ensures AdmittedIn(events, ip, max, window, from, length) == LoneAdmitted(None, events, ip, max, window, from, length)
  {
    LoneIsTracked(map[], events, ip, max, window);
    AnswersAreOnesOwn(map[], events, ip, max, window);
  }

  /** A burst within an open window that has room for it. */
  lemma {:induction false} BurstInside(w: Window, ip: string, t: int, n: nat, more: seq<Event>,
                                       max: u32, window: nat, from: int, length: nat)
    requires w.start <= t < w.start + window && w.count + n <= max && from <= t < from + length
    ensures LoneAdmitted(Some(w), Burst(ip, t, n) + more, ip, max, window, from, length)
            == n + LoneAdmitted(Some(Window(w.start, w.count + n)), more, ip, max, window, from, length)
    ensures NoWrap(Some(Window(w.start, w.count + n)), more, ip, max, window)
            ==> NoWrap(Some(w), Burst(ip, t, n) + more, ip, max, window)
    decreases n
  {
    hide LoneAdmitted, Judge, Burst;
    var events := Burst(ip, t, n) + more;
    BurstHead(ip, t, n, more);
    if n > 0 {
      Counts(Some(w), max, window, t);
      LoneStep(Some(w), events, ip, max, window, from, length);
      BurstInside(Window(w.start, w.count + 1), ip, t, n - 1, more, max, window, from, length);
    }
  }

  /** A burst that opens a window of its own. */
  lemma FreshBurst(w: Option<Window>, ip: string, t: int, n: nat, more: seq<Event>, max: u32, window: nat, from: int, length: nat)
    requires (w.None? || t - w.value.start >= window) && 1 <= n <= max && window > 0 && from <= t < from + length
    ensures LoneAdmitted(w, Burst(ip, t, n) + more, ip, max, window, from, length)
            == n + LoneAdmitted(Some(Window(t, n)), more, ip, max, window, from, length)
    ensures NoWrap(Some(Window(t, n)), more, ip, max, window) ==> NoWrap(w, Burst(ip, t, n) + more, ip, max, window)
  {
    hide LoneAdmitted, Judge, Burst;
    var events := Burst(ip, t, n) + more;
    BurstHead(ip, t, n, more);
    Counts(w, max, window, t);
    LoneStep(w, events, ip, max, window, from, length);
    BurstInside(Window(t, 1), ip, t, n - 1, more, max, window, from, length);
  }

  lemma SweptOut(w: Window, ip: string, t: int, more: seq<Event>, max: u32, window: nat, from: int, length: nat)
    ensures var w' := Kept(Some(w), t);
            && LoneAdmitted(Some(w), [Sweep(t)] + more, ip, max, window, from, length)
               == LoneAdmitted(w', more, ip, max, window, from, length)
            && (NoWrap(w', more, ip, max, window) ==> NoWrap(Some(w), [Sweep(t)] + more, ip, max, window))
  {
    hide LoneAdmitted;
    var events := [Sweep(t)] + more;
    assert events[1..] == more;
    LoneStep(Some(w), events, ip, max, window, from, length);
  }

  lemma OrderedJoin(a: seq<Event>, b: seq<Event>, t: int)
    requires Ordered(a) && Ordered(b) && NotBefore(b, t) && forall k :: 0 <= k < |a| ==> a[k].at <= t
    ensures Ordered(a + b)
  {
  }

  // ----- the bound is reached -----

  /** An attempt opens a window; the rest of its allowance is used in its last instant, and a full one right after. */
  function TwoWindows(ip: string, max: u32, length: nat): seq<Event>
    requires max >= 1 && length >= 2
  {
    Burst(ip, 0, 1) + (Burst(ip, length - 1, max - 1) + ([Sweep(length)] + (Burst(ip, length, max) + [])))
  }

  lemma TwoWindowsAdmit(ip: string, max: u32, window: nat)
    requires max >= 1 && window >= 2
    ensures var length := Lasting(window);
            var events := TwoWindows(ip, max, length);
            && NoWrap(None, events, ip, max, window)
            && LoneAdmitted(None, events, ip, max, window, length - 1, length) == 2 * max - 1
  {
    hide LoneAdmitted, Judge, Burst;
    var length := Lasting(window);
    var from := length - 1;
    var last := Burst(ip, length, max) + [];
    var swept := [Sweep(length)] + last;
    LoneNothing(Some(Window(length, max)), ip, max, window, from, length);
    FreshBurst(Kept(Some(Window(0, max)), length), ip, length, max, [], max, window, from, length);
    SweptOut(Window(0, max), ip, length, last, max, window, from, length);
    BurstInside(Window(0, 1), ip, from, max - 1, swept, max, window, from, length);
    FirstAttempt(ip, Burst(ip, from, max - 1) + swept, max, window, from, length);
  }

  /** A first attempt ahead of the interval. */
  lemma FirstAttempt(ip: string, more: seq<Event>, max: u32, window: nat, from: int, length: nat)
    requires max >= 1 && from > 0
    ensures LoneAdmitted(None, Burst(ip, 0, 1) + more, ip, max, window, from, length)
            == LoneAdmitted(Some(Window(0, 1)), more, ip, max, window, from, length)
    ensures NoWrap(Some(Window(0, 1)), more, ip, max, window) ==> NoWrap(None, Burst(ip, 0, 1) + more, ip, max, window)
  {
    hide LoneAdmitted, Judge;
    var events := Burst(ip, 0, 1) + more;
    BurstHead(ip, 0, 1, more);
    BurstHead(ip, 0, 0, more);
    Counts(None, max, window, 0);
    LoneStep(None, events, ip, max, window, from, length);
  }

  lemma OnlyJoin(a: seq<Event>, b: seq<Event>, ip: string)
    requires Only(a, ip) && Only(b, ip)
    ensures Only(a + b, ip)
  {
  }

  lemma TwoWindowsOrdered(ip: string, max: u32, length: nat)
    requires max >= 1 && length >= 2
    ensures Ordered(TwoWindows(ip, max, length)) && Only(TwoWindows(ip, max, length), ip)
  {
    var first, late, last := Burst(ip, 0, 1), Burst(ip, length - 1, max - 1), Burst(ip, length, max) + [];
    var sweep := [Sweep(length)];
    BurstIs(ip, 0, 1);
    BurstIs(ip, length - 1, max - 1);
    BurstIs(ip, length, max);
    assert Only(first, ip) && Only(late, ip) && Only(last, ip) && Only(sweep, ip);
    hide Burst, Only;
    OnlyJoin(sweep, last, ip);
    OnlyJoin(late, sweep + last, ip);
    OnlyJoin(first, late + (sweep + last), ip);
    OrderedJoin(sweep, last, length);
    OrderedJoin(late, sweep + last, length);
    OrderedJoin(first, late + (sweep + last), 1);
  }

  /** For every limit and window there is a proper run that reaches the bound. */
  lemma RateBoundReached(ip: string, max: u32, window: nat) returns (events: seq<Event>, from: int)
    ensures Proper(events, ip, max, window)
    ensures AdmittedIn(events, ip, max, window, from, Lasting(window)) == RateBound(max, Lasting(window))
  {
    hide LoneAdmitted, AdmittedIn;
    var length := Lasting(window);
    events, from := [], 0;
    LoneNothing(None, ip, max, window, from, length);
    if max > 0 && length == 1 {
      events := Burst(ip, 0, max) + [];
      BurstIs(ip, 0, max);
      FreshBurst(None, ip, 0, max, [], max, window, from, length);
      LoneNothing(Some(Window(0, max)), ip, max, window, from, length);
    } else if max > 0 && length > 1 {
      events, from := TwoWindows(ip, max, length), length - 1;
      TwoWindowsOrdered(ip, max, length);
      TwoWindowsAdmit(ip, max, window);
    }
    LoneRun(events, ip, max, window, from, length);
  }

  // ----- windows that outlive the sweeper -----

  const LASTS := SWEEP_CUTOFF + 1

  /** `n` full allowances from `t` on, each as soon as a sweep has forgotten the one before. */
  function Bursts(ip: string, max: u32, t: int, n: nat): seq<Event>
    decreases n
  {
    if n == 0 then [] else [Sweep(t)] + (Burst(ip, t, max) + Bursts(ip, max, t + LASTS, n - 1))
  }

  lemma {:induction false} BurstsAdmit(w: Option<Window>, ip: string, max: u32, t: nat, n: nat, window: nat, length: nat)
    requires max >= 1 && window > 0 && (n > 0 ==> t + (n - 1) * LASTS < length) && (w.Some? ==> w.value.start + LASTS <= t)
    ensures LoneAdmitted(w, Bursts(ip, max, t, n), ip, max, window, 0, length) == n * max
    ensures NoWrap(w, Bursts(ip, max, t, n), ip, max, window)
    decreases n
  {
    hide LoneAdmitted, Judge, Burst;
    LoneNothing(w, ip, max, window, 0, length);
    if n > 0 {
      var more := Bursts(ip, max, t + LASTS, n - 1);
      var events := [Sweep(t)] + (Burst(ip, t, max) + more);
      assert events[1..] == Burst(ip, t, max) + more;
      LoneStep(w, events, ip, max, window, 0, length);
      assert Kept(w, t).None?;
      BurstsAdmit(Some(Window(t, max)), ip, max, t + LASTS, n - 1, window, length);
      FreshBurst(None, ip, t, max, more, max, window, 0, length);
      assert n * max == max + (n - 1) * max;
    }
  }

  lemma BurstIsOrdered(ip: string, t: int, n: nat)
    ensures var burst := Burst(ip, t, n);
            Ordered(burst) && NotBefore(burst, t) && Only(burst, ip) && forall k :: 0 <= k < |burst| ==> burst[k].at <= t
  {
    BurstIs(ip, t, n);
  }

  lemma NotBeforeJoin(a: seq<Event>, b: seq<Event>, t: int, later: int)
    requires NotBefore(a, t) && NotBefore(b, later) && t <= later
    ensures NotBefore(a + b, t)
  {
  }

  lemma {:induction false} BurstsOrdered(ip: string, max: u32, t: int, n: nat)
    ensures Ordered(Bursts(ip, max, t, n)) && NotBefore(Bursts(ip, max, t, n), t)
    decreases n
  {
    hide Burst;
    if n > 0 {
      var more := Bursts(ip, max, t + LASTS, n - 1);
      BurstsOrdered(ip, max, t + LASTS, n - 1);
      BurstIsOrdered(ip, t, max);
      hide Bursts;
      OneBurstMore(Burst(ip, t, max), more, t);
    }
  }

  lemma OneBurstMore(burst: seq<Event>, more: seq<Event>, t: int)
    requires Ordered(burst) && NotBefore(burst, t) && Ordered(more) && NotBefore(more, t + LASTS)
    requires forall k :: 0 <= k < |burst| ==> burst[k].at <= t
    ensures Ordered([Sweep(t)] + (burst + more)) && NotBefore([Sweep(t)] + (burst + more), t)
  {
    hide Ordered, NotBefore;
    SweepIsOrdered(t);
    NotBeforeJoin(burst, more, t, t + LASTS);
    NotBeforeJoin([Sweep(t)], burst + more, t, t);
    OrderedJoin(burst, more, t + LASTS);
    OrderedJoin([Sweep(t)], burst + more, t);
  }

  lemma SweepIsOrdered(t: int)
    ensures Ordered([Sweep(t)]) && NotBefore([Sweep(t)], t)
  {
  }

  lemma {:induction false} BurstsOnly(ip: string, max: u32, t: int, n: nat)
    ensures Only(Bursts(ip, max, t, n), ip)
    decreases n
  {
    if n > 0 {
      var more := Bursts(ip, max, t + LASTS, n - 1);
      BurstsOnly(ip, max, t + LASTS, n - 1);
      BurstIsOrdered(ip, t, max);
      hide Burst, Bursts;
      OnlyJoin(Burst(ip, t, max), more, ip);
      OnlyJoin([Sweep(t)], Burst(ip, t, max) + more, ip);
    }
  }

  /**
   * The sweeper forgets windows older than ten minutes, however long they are meant to last: a
   * window longer than n - 1 times that admits n full allowances within one window's length.
   */
  lemma LongWindowsAdmitMore(ip: string, max: u32, window: nat, n: nat)
    requires max >= 1 && n >= 1 && window > (n - 1) * LASTS
    ensures Proper(Bursts(ip, max, 0, n), ip, max, window)
    ensures AdmittedIn(Bursts(ip, max, 0, n), ip, max, window, 0, window) == n * max
  {
    hide LoneAdmitted, AdmittedIn;
    BurstsAdmit(None, ip, max, 0, n, window, window);
    BurstsOrdered(ip, max, 0, n);
    BurstsOnly(ip, max, 0, n);
    LoneRun(Bursts(ip, max, 0, n), ip, max, window, 0, window);
  }

  /** Every interval of one window's length stays within the bound. */
  ghost predicate Limited(events: seq<Event>, ip: string, max: u32, window: nat) {
    forall from :: AdmittedIn(events, ip, max, window, from, window) <= RateBound(max, window)
  }

  lemma {:induction false} NoneAdmitted(w: Option<Window>, events: seq<Event>, ip: string, window: nat, from: int, length: nat)
    requires NoWrap(w, events, ip, 0, window)
    ensures LoneAdmitted(w, events, ip, 0, window, from, length) == 0
    decreases |events|
  {
    hide LoneAdmitted, Judge;
    LoneNothing(w, ip, 0, window, from, length);
    if events != [] {
      var e := events[0];
      if e.Attempt? && e.ip == ip {
        Counts(w, 0, window, e.at);
      }
      LoneStep(w, events, ip, 0, window, from, length);
      NoneAdmitted(EntryAfter(w, e, ip, 0, window), events[1..], ip, window, from, length);
    }
  }

  /**
   * Exactly when the bound holds over a window's own length, in all proper runs: the sweeper
   * does not outrun the window, or nothing is allowed at all.
   */
  lemma WindowBoundIff(max: u32, window: nat)
    ensures (forall events, ip :: Proper(events, ip, max, window) ==> Limited(events, ip, max, window))
            <==> window <= 600_000_000_001 || max == 0
  {
    hide Proper, AdmittedIn;
    if window <= SWEEP_CUTOFF + 1 {
      forall events, ip | Proper(events, ip, max, window) ensures Limited(events, ip, max, window) {
        forall from ensures AdmittedIn(events, ip, max, window, from, window) <= RateBound(max, window) {
          RateLimitBound(events, ip, max, window, from);
        }
      }
    } else if max == 0 {
      forall events, ip | Proper(events, ip, max, window) ensures Limited(events, ip, max, window) {
        forall from ensures AdmittedIn(events, ip, max, window, from, window) <= RateBound(max, window) {
          ZeroAdmitsNone(events, ip, window, from);
        }
      }
    } else {
      LongWindowsAdmitMore("", max, window, 2);
      var events := Bursts("", max, 0, 2);
      assert AdmittedIn(events, "", max, window, 0, window) > RateBound(max, window);
      assert !Limited(events, "", max, window);
    }
  }

  lemma ZeroAdmitsNone(events: seq<Event>, ip: string, window: nat, from: int)
    requires Proper(events, ip, 0, window)
    ensures AdmittedIn(events, ip, 0, window, from, window) == 0
  {
    AnswersAreOnesOwn(map[], events, ip, 0, window);
    NoneAdmitted(None, events, ip, window, from, window);
  }

  // ----- when sweeps show -----

  lemma AnswerStep(w: Option<Window>, events: seq<Event>, ip: string, max: u32, window: nat)
    requires events != [] && events[0].Attempt? && events[0].ip == ip
    ensures var v := Judge(w, max, window, events[0].at);
            LoneAnswers(w, events, ip, max, window) == [v.ok] + LoneAnswers(Some(v.window), events[1..], ip, max, window)
  {
    hide Judge;
  }

  lemma Shifted(b: bool, answers: seq<bool>, n: nat)
    requires n >= 1
    ensures |answers| >= n - 1 ==> ([b] + answers)[n..] == answers[n - 1..]
  {
  }

  /** Behind a burst the entry has counted it; the answers to what follows come from there. */
  lemma {:induction false} BehindBurst(w: Window, ip: string, t: int, n: nat, more: seq<Event>, max: u32, window: nat)
    requires w.start <= t < w.start + window && w.count + n < TWO_32
    ensures var answers := LoneAnswers(Some(w), Burst(ip, t, n) + more, ip, max, window);
            |answers| >= n && answers[n..] == LoneAnswers(Some(Window(w.start, w.count + n)), more, ip, max, window)
    decreases n
  {
    hide Judge, Burst, LoneAnswers, AttemptTimes;
    var events := Burst(ip, t, n) + more;
    BurstHead(ip, t, n, more);
    if n > 0 {
      Counts(Some(w), max, window, t);
      AnswerStep(Some(w), events, ip, max, window);
      Shifted(Judge(Some(w), max, window, t).ok, LoneAnswers(Some(Window(w.start, w.count + 1)), events[1..], ip, max, window), n);
      BehindBurst(Window(w.start, w.count + 1), ip, t, n - 1, more, max, window);
    }
  }

  lemma BehindFreshBurst(ip: string, n: nat, more: seq<Event>, max: u32, window: nat)
    requires 1 <= n < TWO_32 && window > 0
    ensures var answers := LoneAnswers(None, Burst(ip, 0, n) + more, ip, max, window);
            |answers| >= n && answers[n..] == LoneAnswers(Some(Window(0, n)), more, ip, max, window)
  {
    hide Judge, Burst, LoneAnswers, AttemptTimes;
    var events := Burst(ip, 0, n) + more;
    BurstHead(ip, 0, n, more);
    Counts(None, max, window, 0);
    AnswerStep(None, events, ip, max, window);
    Shifted(Judge(None, max, window, 0).ok, LoneAnswers(Some(Window(0, 1)), events[1..], ip, max, window), n);
    BehindBurst(Window(0, 1), ip, 0, n - 1, more, max, window);
  }

  lemma {:induction false} BurstWithoutSweeps(ip: string, t: int, n: nat, more: seq<Event>)
    ensures WithoutSweeps(Burst(ip, t, n) + more) == Burst(ip, t, n) + WithoutSweeps(more)
    decreases n
  {
    BurstHead(ip, t, n, more);
    BurstHead(ip, t, n, WithoutSweeps(more));
    if n > 0 {
      BurstWithoutSweeps(ip, t, n - 1, more);
    }
  }

  /** A window used up, then the sweep that forgets it, then one more attempt. */
  function Forgotten(ip: string, n: nat): seq<Event> {
    Burst(ip, 0, n) + [Sweep(LASTS), Attempt(ip, LASTS)]
  }

  lemma ForgottenRun(ip: string, n: nat)
    ensures Ordered(Forgotten(ip, n)) && Only(Forgotten(ip, n), ip)
    ensures WithoutSweeps(Forgotten(ip, n)) == Burst(ip, 0, n) + [Attempt(ip, LASTS)]
  {
    var tail := [Sweep(LASTS), Attempt(ip, LASTS)];
    BurstIs(ip, 0, n);
    OrderedJoin(Burst(ip, 0, n), tail, LASTS);
    BurstWithoutSweeps(ip, 0, n, tail);
    var last := [Attempt(ip, LASTS)];
    assert tail[1..] == last && last[1..] == [];
    assert WithoutSweeps(last) == last + WithoutSweeps([]) == last;
    assert WithoutSweeps(tail) == last;
  }

  lemma {:induction false} BurstTimes(ip: string, t: int, n: nat, more: seq<Event>)
    ensures |AttemptTimes(Burst(ip, t, n) + more, ip)| == n + |AttemptTimes(more, ip)|
    decreases n
  {
    hide Burst;
    BurstHead(ip, t, n, more);
    if n > 0 {
      BurstTimes(ip, t, n - 1, more);
    }
  }

  lemma OneMoreAttempt(ip: string, n: nat)
    ensures |AttemptTimes(Forgotten(ip, n), ip)| == |AttemptTimes(Burst(ip, 0, n) + [Attempt(ip, LASTS)], ip)| == n + 1
  {
    hide Burst;
    var tail, last := [Sweep(LASTS), Attempt(ip, LASTS)], [Attempt(ip, LASTS)];
    assert tail[1..] == last && last[1..] == [];
    assert |AttemptTimes(last, ip)| == 1 && |AttemptTimes(tail, ip)| == 1;
    BurstTimes(ip, 0, n, tail);
    BurstTimes(ip, 0, n, last);
  }

  /** The last attempt of that run is judged afresh with the sweep, and by the used window without it. */
  lemma SweepShows(ip: string, n: nat, max: u32, window: nat)
    requires 1 <= n < TWO_32 && window > LASTS
    ensures var with := LoneAnswers(None, Forgotten(ip, n), ip, max, window);
            var without := LoneAnswers(None, Burst(ip, 0, n) + [Attempt(ip, LASTS)], ip, max, window);
            && |with| == |without| == n + 1
            && with[n] == (1 <= max) && without[n] == ((n + 1) % TWO_32 <= max)
  {
    hide Burst;
    OneMoreAttempt(ip, n);
    var tail, last := [Sweep(LASTS), Attempt(ip, LASTS)], [Attempt(ip, LASTS)];
    BehindFreshBurst(ip, n, tail, max, window);
    BehindFreshBurst(ip, n, last, max, window);
    assert tail[1..] == last && last[1..] == [];
    var w := Some(Window(0, n));
    assert LoneAnswers(w, last, ip, max, window) == [Judge(w, max, window, LASTS).ok] + [];
    assert LoneAnswers(None, last, ip, max, window) == [Judge(None, max, window, LASTS).ok] + [];
    assert LoneAnswers(w, tail, ip, max, window) == LoneAnswers(None, last, ip, max, window);
  }

  ghost predicate SameAnswers(events: seq<Event>, ip: string, max: u32, window: nat) {
    Answers(map[], events, ip, max, window) == Answers(map[], WithoutSweeps(events), ip, max, window)
  }

  /** Runs in which the IP is tracked, with the sweeps and without. */
  ghost predicate TrackedEitherWay(events: seq<Event>, ip: string, max: u32, window: nat) {
    Ordered(events) && Tracked(map[], events, ip, max, window) && Tracked(map[], WithoutSweeps(events), ip, max, window)
  }

  lemma {:induction false} AllAllowed(w: Option<Window>, w': Option<Window>, events: seq<Event>, ip: string, window: nat)
    ensures LoneAnswers(w, events, ip, TWO_32 - 1, window) == LoneAnswers(w', WithoutSweeps(events), ip, TWO_32 - 1, window)
    decreases |events|
  {
    if events != [] {
      var e, rest := events[0], events[1..];
      var max: u32 := TWO_32 - 1;
      if e.Sweep? {
        AllAllowed(EntryAfter(w, e, ip, max, window), w', rest, ip, window);
      } else {
        assert ([e] + WithoutSweeps(rest))[1..] == WithoutSweeps(rest);
        AllAllowed(EntryAfter(w, e, ip, max, window), EntryAfter(w', e, ip, max, window), rest, ip, window);
      }
    }
  }

  /**
   * Exactly when sweeps never change an answer to a tracked IP: the window is over before it is
   * old enough to be swept, or the limit is one no 32-bit count passes.
   */
  lemma SweepInvisibleIff(max: u32, window: nat)
    ensures (forall events, ip :: TrackedEitherWay(events, ip, max, window) ==> SameAnswers(events, ip, max, window))
            <==> window <= 600_000_000_001 || max == 0xFFFF_FFFF
  {
    if window <= SWEEP_CUTOFF + 1 || max == TWO_32 - 1 {
      forall events, ip | TrackedEitherWay(events, ip, max, window) ensures SameAnswers(events, ip, max, window) {
        if window <= SWEEP_CUTOFF + 1 {
          SweepIsInvisible(map[], events, ip, max, window);
        } else {
          AnswersAreOnesOwn(map[], events, ip, max, window);
          AnswersAreOnesOwn(map[], WithoutSweeps(events), ip, max, window);
          AllAllowed(None, None, events, ip, window);
        }
      }
    } else {
      SweepSeen("", max, window);
    }
  }

  lemma SweepSeen(ip: string, max: u32, window: nat)
    requires window > LASTS && max < TWO_32 - 1
    ensures exists events :: TrackedEitherWay(events, ip, max, window) && !SameAnswers(events, ip, max, window)
  {
    hide Tracked, Answers, LoneAnswers, Burst, Forgotten;
    var n := if max == 0 then TWO_32 - 1 else max;
    var events := Forgotten(ip, n);
    ForgottenRun(ip, n);
    var plain := Burst(ip, 0, n) + [Attempt(ip, LASTS)];
    assert Only(plain, ip) by { PlainRun(ip, n); }
    hide Only;
    LoneIsTracked(map[], events, ip, max, window);
    LoneIsTracked(map[], plain, ip, max, window);
    AnswersAreOnesOwn(map[], events, ip, max, window);
    AnswersAreOnesOwn(map[], plain, ip, max, window);
    SweepShows(ip, n, max, window);
    assert TrackedEitherWay(events, ip, max, window) && !SameAnswers(events, ip, max, window);
  }

  lemma PlainRun(ip: string, n: nat)
    ensures Only(Burst(ip, 0, n) + [Attempt(ip, LASTS)], ip)
  {
    BurstIs(ip, 0, n);
  }

  // ----- a counter that wraps -----

  lemma {:induction false} BurstDenied(w: Window, ip: string, t: int, n: nat, more: seq<Event>,
                                       max: u32, window: nat, from: int, length: nat)
    requires w.start <= t < w.start + window && max <= w.count && w.count + n < TWO_32
    ensures LoneAdmitted(Some(w), Burst(ip, t, n) + more, ip, max, window, from, length)
            == LoneAdmitted(Some(Window(w.start, w.count + n)), more, ip, max, window, from, length)
    decreases n
  {
    hide LoneAdmitted, Judge, Burst;
    BurstHead(ip, t, n, more);
    if n > 0 {
      Counts(Some(w), max, window, t);
      LoneStep(Some(w), Burst(ip, t, n) + more, ip, max, window, from, length);
      BurstDenied(Window(w.start, w.count + 1), ip, t, n - 1, more, max, window, from, length);
    }
  }

  lemma WrapStep(ip: string, more: seq<Event>, max: u32, window: nat, length: nat)
    requires window > 0 && length > 0
    ensures var w := Some(Window(0, TWO_32 - 1));
            LoneAdmitted(w, [Attempt(ip, 0)] + more, ip, max, window, 0, length)
            == 1 + LoneAdmitted(Some(Window(0, 0)), more, ip, max, window, 0, length)
  {
    var w := Some(Window(0, TWO_32 - 1));
    assert Judge(w, max, window, 0) == Verdict(Window(0, 0), true);
    hide LoneAdmitted, Judge;
    assert ([Attempt(ip, 0)] + more)[1..] == more;
    LoneStep(w, [Attempt(ip, 0)] + more, ip, max, window, 0, length);
  }

  /** An allowance, attempts refused until the 32-bit counter is full, one that wraps it, and an allowance again. */
  function WrappingRun(ip: string, max: u32): seq<Event> {
    Burst(ip, 0, max) + (Burst(ip, 0, TWO_32 - 1 - max) + ([Attempt(ip, 0)] + (Burst(ip, 0, max) + [])))
  }

  lemma WrappingRunOrdered(ip: string, max: u32)
    ensures Ordered(WrappingRun(ip, max)) && Only(WrappingRun(ip, max), ip)
  {
    BurstIs(ip, 0, max);
    BurstIs(ip, 0, TWO_32 - 1 - max);
    assert forall k :: 0 <= k < |WrappingRun(ip, max)| ==> WrappingRun(ip, max)[k] == Attempt(ip, 0);
  }

  /** A window that counts 2^32 attempts lets the counter wrap, and admits more than the bound. */
  lemma WrapPassesTheBound(ip: string, max: u32, window: nat)
    requires max >= 1 && window > 0
    ensures var events := WrappingRun(ip, max);
            && Ordered(events) && Tracked(map[], events, ip, max, window)
            && AdmittedIn(events, ip, max, window, 0, Lasting(window)) == 2 * max + 1 > RateBound(max, Lasting(window))
  {
    hide LoneAdmitted, Judge, Burst, Only, Tracked;
    var length := Lasting(window);
    var last := Burst(ip, 0, max) + [];
    var wrap := [Attempt(ip, 0)] + last;
    LoneNothing(Some(Window(0, max)), ip, max, window, 0, length);
    BurstInside(Window(0, 0), ip, 0, max, [], max, window, 0, length);
    WrapStep(ip, last, max, window, length);
    BurstDenied(Window(0, max), ip, 0, TWO_32 - 1 - max, wrap, max, window, 0, length);
    FreshBurst(None, ip, 0, max, Burst(ip, 0, TWO_32 - 1 - max) + wrap, max, window, 0, length);
    WrappingRunOrdered(ip, max);
    LoneIsTracked(map[], WrappingRun(ip, max), ip, max, window);
    AnswersAreOnesOwn(map[], WrappingRun(ip, max), ip, max, window);
    LoneAdmittedIs(WrappingRun(ip, max), ip, max, window, 0, length);
  }

  lemma LoneAdmittedIs(events: seq<Event>, ip: string, max: u32, window: nat, from: int, length: nat)
    requires Answers(map[], events, ip, max, window) == LoneAnswers(None, events, ip, max, window)
    ensures AdmittedIn(events, ip, max, window, from, length) == LoneAdmitted(None, events, ip, max, window, from, length)
  {
  }

  // ----- a full table -----

  /** `n` attempts of as many IPs. */
  function Crowd(n: nat): seq<Event> {
    if n == 0 then [] else Crowd(n - 1) + [Attempt(Decimal(n - 1), 0)]
  }

  function TableAfter(windows: map<string, Window>, events: seq<Event>, max: u32, window: nat): map<string, Window>
    decreases |events|
  {
    if events == [] then windows else TableAfter(AfterEvent(windows, events[0], max, window), events[1..], max, window)
  }

  lemma {:induction false} TableSnoc(windows: map<string, Window>, events: seq<Event>, e: Event, max: u32, window: nat)
    ensures TableAfter(windows, events + [e], max, window) == AfterEvent(TableAfter(windows, events, max, window), e, max, window)
    decreases |events|
  {
    hide AfterEvent;
    if events == [] {
      assert (events + [e])[1..] == [];
    } else {
      assert (events + [e])[1..] == events[1..] + [e];
      TableSnoc(AfterEvent(windows, events[0], max, window), events[1..], e, max, window);
    }
  }

  ghost predicate InCrowd(ip: string, n: nat) {
    exists k: nat :: k < n && ip == Decimal(k)
  }

  ghost predicate CrowdTable(table: map<string, Window>, n: nat) {
    |table| == n && forall ip :: ip in table ==> InCrowd(ip, n)
  }

  lemma NewName(n: nat)
    ensures !InCrowd(Decimal(n), n) && InCrowd(Decimal(n), n + 1)
  {
    hide Decimal;
    if InCrowd(Decimal(n), n) {
      var k: nat :| k < n && Decimal(n) == Decimal(k);
      DecimalInjective(n, k);
    }
  }

  lemma CrowdStays(ip: string, n: nat)
    requires InCrowd(ip, n)
    ensures InCrowd(ip, n + 1)
  {
    hide Decimal;
  }

  /** A table of a crowd grows by the next one's name. */
  lemma CrowdGrows(table: map<string, Window>, n: nat, w: Window)
    requires CrowdTable(table, n)
    ensures Decimal(n) !in table && CrowdTable(table[Decimal(n) := w], n + 1)
  {
    hide Decimal, InCrowd;
    NewName(n);
    var after := table[Decimal(n) := w];
    assert after.Keys == table.Keys + {Decimal(n)};
    forall ip | ip in after ensures InCrowd(ip, n + 1) {
      if ip in table {
        CrowdStays(ip, n);
      }
    }
  }

  lemma {:induction false} CrowdFills(n: nat, max: u32, window: nat)
    requires n <= MAX_TRACKED_IPS
    ensures CrowdTable(TableAfter(map[], Crowd(n), max, window), n)
  {
    hide Judge, Decimal, CrowdTable;
    if n == 0 {
      EmptyCrowd();
    } else {
      CrowdFills(n - 1, max, window);
      var table := TableAfter(map[], Crowd(n - 1), max, window);
      var name := Decimal(n - 1);
      TableSnoc(map[], Crowd(n - 1), Attempt(name, 0), max, window);
      CrowdGrows(table, n - 1, Judge(Get(table, name), max, window, 0).window);
      CrowdSize(table, n - 1);
    }
  }

  lemma EmptyCrowd()
    ensures CrowdTable(map[], 0)
  {
  }

  lemma CrowdSize(table: map<string, Window>, n: nat)
    requires CrowdTable(table, n)
    ensures |table| == n
  {
  }

  lemma {:induction false} AnswersBehind(windows: map<string, Window>, a: seq<Event>, b: seq<Event>, ip: string, max: u32, window: nat)
    requires forall k :: 0 <= k < |a| ==> a[k].Attempt? && a[k].ip != ip
    ensures Answers(windows, a + b, ip, max, window) == Answers(TableAfter(windows, a, max, window), b, ip, max, window)
    ensures AttemptTimes(a + b, ip) == AttemptTimes(b, ip)
    decreases |a|
  {
    hide AfterEvent, Allowed;
    if a == [] {
      assert a + b == b;
    } else {
      assert (a + b)[1..] == a[1..] + b;
      AnswersBehind(AfterEvent(windows, a[0], max, window), a[1..], b, ip, max, window);
    }
  }

  lemma {:induction false} FailOpenBurst(windows: map<string, Window>, ip: string, n: nat, max: u32, window: nat, length: nat)
    requires FailsOpen(windows, ip) && length > 0
    ensures Admitted(AttemptTimes(Burst(ip, 0, n), ip), Answers(windows, Burst(ip, 0, n), ip, max, window), 0, length) == n
    decreases n
  {
    hide Judge;
    if n > 0 {
      var events := Burst(ip, 0, n);
      assert events[1..] == Burst(ip, 0, n - 1);
      FailOpenBurst(windows, ip, n - 1, max, window, length);
      var times, answers := AttemptTimes(events, ip), Answers(windows, events, ip, max, window);
      assert times[1..] == AttemptTimes(Burst(ip, 0, n - 1), ip) && answers[1..] == Answers(windows, Burst(ip, 0, n - 1), ip, max, window);
    }
  }

  lemma {:induction false} CrowdIs(n: nat)
    ensures |Crowd(n)| == n && forall k :: 0 <= k < n ==> Crowd(n)[k].Attempt? && Crowd(n)[k].at == 0 && Crowd(n)[k].ip != "-"
  {
    if n > 0 {
      CrowdIs(n - 1);
      DecimalIsDigits(n - 1);
      assert Decimal(n - 1)[0] != '-';
    }
  }

  /**
   * Once the table is full of other IPs, an untracked one is let through as often as it likes,
   * whatever the limit: the bound does need the IP to be tracked.
   */
  lemma FailOpenAdmitsAll(n: nat, max: u32, window: nat, length: nat)
    requires length > 0
    ensures var events := Crowd(250_000) + Burst("-", 0, n);
            Ordered(events) && AdmittedIn(events, "-", max, window, 0, length) == n
  {
    hide Crowd, Burst, TableAfter, Answers, AttemptTimes, Admitted;
    var crowd, burst := Crowd(MAX_TRACKED_IPS), Burst("-", 0, n);
    BurstIs("-", 0, n);
    CrowdIs(MAX_TRACKED_IPS);
    CrowdFills(MAX_TRACKED_IPS, max, window);
    var table := TableAfter(map[], crowd, max, window);
    assert "-" !in table by {
      if "-" in table {
        var k: nat :| k < MAX_TRACKED_IPS && "-" == Decimal(k);
        DecimalIsDigits(k);
        assert !IsDigit(Decimal(k)[0]);
      }
    }
    AnswersBehind(map[], crowd, burst, "-", max, window);
    FailOpenBurst(table, "-", n, max, window, length);
  }
}
