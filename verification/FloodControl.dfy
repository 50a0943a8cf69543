/** Connection-rate windows and the process-wide connection cap, `src/net/flood_control.rs`. */
module ConnectionRate {
  import opened Bytes

  const MAX_TRACKED_IPS := 250_000
  /** 600 seconds, in the nanoseconds instants are measured in. */
  const SWEEP_CUTOFF := 600_000_000_000

  datatype Window = Window(start: int, count: u32)

  datatype Verdict = Verdict(window: Window, ok: bool)

  /** The limiter for one tracked IP: roll the window if it is over, then count and compare. */
  function Judge(w: Option<Window>, max: u32, window: nat, now: int): Verdict {
    var current := if w.None? || now - w.value.start >= window then Window(now, 0) else w.value;
    var count := (current.count + 1) % TWO_32;
    Verdict(Window(current.start, count), count <= max)
  }

  function Get(windows: map<string, Window>, ip: string): Option<Window> {
    if ip in windows then Some(windows[ip]) else None
  }

  predicate FailsOpen(windows: map<string, Window>, ip: string) {
    |windows| >= 250_000 && ip !in windows
  }

  function AfterAttempt(windows: map<string, Window>, ip: string, max: u32, window: nat, now: int): map<string, Window> {
    if FailsOpen(windows, ip) then windows else windows[ip := Judge(Get(windows, ip), max, window, now).window]
  }

  predicate Allowed(windows: map<string, Window>, ip: string, max: u32, window: nat, now: int) {
    FailsOpen(windows, ip) || Judge(Get(windows, ip), max, window, now).ok
  }

  /** Windows that began up to 600 seconds ago stay. */
  function Swept(windows: map<string, Window>, now: int): map<string, Window> {
    map ip | ip in windows && now - windows[ip].start <= 600 * 1_000_000_000 :: windows[ip]
  }

  class ConnectionRates {
    var windows: map<string, Window>

    constructor ()
      ensures windows == map[]
    {
      windows := map[];
    }

    method TryAcquire(ip: string, max: u32, window: nat, now: int) returns (ok: bool)
      modifies this
      ensures windows == AfterAttempt(old(windows), ip, max, window, now)
      ensures ok == Allowed(old(windows), ip, max, window, now)
    {
      if |windows| >= MAX_TRACKED_IPS && ip !in windows {
        return true;
      }
      if ip in windows && now - windows[ip].start >= window {
        windows := windows[ip := Window(now, 0)];
      }
      if ip !in windows {
        windows := windows[ip := Window(now, 0)];
      }
      var count := (windows[ip].count + 1) % TWO_32;
      windows := windows[ip := Window(windows[ip].start, count)];
      ok := count <= max;
    }

    method Sweep(now: int)
      modifies this
      ensures windows == Swept(old(windows), now)
    {
      windows := map ip | ip in windows && windows[ip].start >= now - SWEEP_CUTOFF :: windows[ip];
    }
  }

  // ----- runs -----

  datatype Event = Attempt(ip: string, at: int) | Sweep(at: int)

  ghost predicate Ordered(events: seq<Event>) {
    forall i, j :: 0 <= i < j < |events| ==> events[i].at <= events[j].at
  }

  function AfterEvent(windows: map<string, Window>, e: Event, max: u32, window: nat): map<string, Window> {
    match e
    case Attempt(ip, at) => AfterAttempt(windows, ip, max, window, at)
    case Sweep(at) => Swept(windows, at)
  }

  function AttemptTimes(events: seq<Event>, ip: string): seq<int> {
    if events == [] then []
    else if events[0].Attempt? && events[0].ip == ip then [events[0].at] + AttemptTimes(events[1..], ip)
    else AttemptTimes(events[1..], ip)
  }

  /** The answers given to `ip`'s attempts over a run, in order. */
  function Answers(windows: map<string, Window>, events: seq<Event>, ip: string, max: u32, window: nat): (r: seq<bool>)
    ensures |r| == |AttemptTimes(events, ip)|
    decreases events
  {
    if events == [] then []
    else
      var e := events[0];
      var rest := Answers(AfterEvent(windows, e, max, window), events[1..], ip, max, window);
      if e.Attempt? && e.ip == ip then [Allowed(windows, ip, max, window, e.at)] + rest else rest
  }

  /** How many attempts with a time in [from, from + length) were admitted. */
  function Admitted(times: seq<int>, answers: seq<bool>, from: int, length: nat): nat
    requires |times| == |answers|
  {
    if times == [] then 0
    else (if answers[0] && from <= times[0] < from + length then 1 else 0) + Admitted(times[1..], answers[1..], from, length)
  }

  /** The same for one IP in a run of the whole table from empty. */
  function AdmittedIn(events: seq<Event>, ip: string, max: u32, window: nat, from: int, length: nat): nat {
    Admitted(AttemptTimes(events, ip), Answers(map[], events, ip, max, window), from, length)
  }

  /** No attempt of `ip` meets a table full of other IPs. */
  ghost predicate Tracked(windows: map<string, Window>, events: seq<Event>, ip: string, max: u32, window: nat)
    decreases |events|
  {
    events == [] ||
    (&& (events[0].Attempt? && events[0].ip == ip ==> !FailsOpen(windows, ip))
     && Tracked(AfterEvent(windows, events[0], max, window), events[1..], ip, max, window))
  }

  // ----- one IP's entry on its own -----

  /** What a sweep leaves of an entry. */
  function Kept(w: Option<Window>, now: int): Option<Window> {
    if w.Some? && w.value.start < now - SWEEP_CUTOFF then None else w
  }

  /** One IP's entry over a run: only its own attempts and the sweeps matter. */
  function EntryAfter(w: Option<Window>, e: Event, ip: string, max: u32, window: nat): Option<Window> {
    match e
    case Attempt(other, at) => if other == ip then Some(Judge(w, max, window, at).window) else w
    case Sweep(at) => Kept(w, at)
  }

  function LoneAnswers(w: Option<Window>, events: seq<Event>, ip: string, max: u32, window: nat): (r: seq<bool>)
    ensures |r| == |AttemptTimes(events, ip)|
    decreases events
  {
    if events == [] then []
    else
      var e := events[0];
      var rest := LoneAnswers(EntryAfter(w, e, ip, max, window), events[1..], ip, max, window);
      if e.Attempt? && e.ip == ip then [Judge(w, max, window, e.at).ok] + rest else rest
  }

  /** What the shared table answers to a tracked IP depends on its own attempts and the sweeps alone. */
  lemma {:induction false} AnswersAreOnesOwn(windows: map<string, Window>, events: seq<Event>, ip: string, max: u32, window: nat)
    requires Tracked(windows, events, ip, max, window)
    ensures Answers(windows, events, ip, max, window) == LoneAnswers(Get(windows, ip), events, ip, max, window)
    decreases |events|
  {
    hide Judge;
    if events != [] {
      var after := AfterEvent(windows, events[0], max, window);
      EntryFollows(windows, events[0], ip, max, window);
      hide AfterEvent, EntryAfter;
      AnswersAreOnesOwn(after, events[1..], ip, max, window);
    }
  }

  lemma EntryFollows(windows: map<string, Window>, e: Event, ip: string, max: u32, window: nat)
    requires e.Attempt? && e.ip == ip ==> !FailsOpen(windows, ip)
    ensures Get(AfterEvent(windows, e, max, window), ip) == EntryAfter(Get(windows, ip), e, ip, max, window)
  {
    hide Judge;
  }

  ghost predicate NotBefore(events: seq<Event>, from: int) {
    forall k :: 0 <= k < |events| ==> from <= events[k].at
  }

  lemma Later(events: seq<Event>)
    requires Ordered(events) && events != []
    ensures Ordered(events[1..]) && NotBefore(events[1..], events[0].at)
  {
  }

  // ----- sweeps -----

  function WithoutSweeps(events: seq<Event>): seq<Event> {
    if events == [] then []
    else if events[0].Sweep? then WithoutSweeps(events[1..])
    else [events[0]] + WithoutSweeps(events[1..])
  }

  /** A window that is over by the next attempt might as well not be there. */
  lemma {:induction false} StaleIsForgotten(w: Window, events: seq<Event>, ip: string, max: u32, window: nat)
    requires NotBefore(events, w.start + window)
    ensures LoneAnswers(Some(w), events, ip, max, window) == LoneAnswers(None, events, ip, max, window)
    decreases |events|
  {
    if events != [] && !(events[0].Attempt? && events[0].ip == ip) {
      assert NotBefore(events[1..], w.start + window);
      StaleIsForgotten(w, events[1..], ip, max, window);
    }
  }

  lemma {:induction false} SweepsDoNotMatter(w: Option<Window>, events: seq<Event>, ip: string, max: u32, window: nat)
    requires Ordered(events) && window <= SWEEP_CUTOFF + 1
    ensures LoneAnswers(w, events, ip, max, window) == LoneAnswers(w, WithoutSweeps(events), ip, max, window)
    decreases |events|
  {
    hide Judge;
    if events != [] {
      var e, rest := events[0], events[1..];
      Later(events);
      SweepsDoNotMatter(EntryAfter(w, e, ip, max, window), rest, ip, max, window);
      if e.Attempt? {
        assert ([e] + WithoutSweeps(rest))[1..] == WithoutSweeps(rest);
      } else if Kept(w, e.at) != w {
        StaleIsForgotten(w.value, rest, ip, max, window);
        SweepsDoNotMatter(w, rest, ip, max, window);
      }
    }
  }

  /** Sweeping at any moments of a run changes no answer to an IP that is tracked either way, for windows of up to ten minutes. */
  lemma SweepIsInvisible(windows: map<string, Window>, events: seq<Event>, ip: string, max: u32, window: nat)
    requires Ordered(events) && window <= SWEEP_CUTOFF + 1
    requires Tracked(windows, events, ip, max, window) && Tracked(windows, WithoutSweeps(events), ip, max, window)
    ensures Answers(windows, events, ip, max, window) == Answers(windows, WithoutSweeps(events), ip, max, window)
  {
    AnswersAreOnesOwn(windows, events, ip, max, window);
    AnswersAreOnesOwn(windows, WithoutSweeps(events), ip, max, window);
    SweepsDoNotMatter(Get(windows, ip), events, ip, max, window);
  }

  // ----- how many get in -----

  /** A counter about to pass 32 bits in an open window. */
  predicate Wraps(w: Option<Window>, window: nat, now: int) {
    w.Some? && now - w.value.start < window && w.value.count + 1 == TWO_32
  }

  /** No window counts 2^32 attempts of the IP. */
  ghost predicate NoWrap(w: Option<Window>, events: seq<Event>, ip: string, max: u32, window: nat)
    decreases |events|
  {
    events == [] ||
    (&& (events[0].Attempt? && events[0].ip == ip ==> !Wraps(w, window, events[0].at))
     && NoWrap(EntryAfter(w, events[0], ip, max, window), events[1..], ip, max, window))
  }

  function LoneAdmitted(w: Option<Window>, events: seq<Event>, ip: string, max: u32, window: nat, from: int, length: nat): nat {
    Admitted(AttemptTimes(events, ip), LoneAnswers(w, events, ip, max, window), from, length)
  }

  lemma LoneStep(w: Option<Window>, events: seq<Event>, ip: string, max: u32, window: nat, from: int, length: nat)
    requires events != []
    ensures var e := events[0];
            LoneAdmitted(w, events, ip, max, window, from, length) ==
            (if e.Attempt? && e.ip == ip && Judge(w, max, window, e.at).ok && from <= e.at < from + length then 1 else 0)
            + LoneAdmitted(EntryAfter(w, e, ip, max, window), events[1..], ip, max, window, from, length)
  {
    hide Judge, EntryAfter;
    var e, rest := events[0], events[1..];
    if e.Attempt? && e.ip == ip {
      var answers := LoneAnswers(EntryAfter(w, e, ip, max, window), rest, ip, max, window);
      assert ([e.at] + AttemptTimes(rest, ip))[1..] == AttemptTimes(rest, ip);
      assert ([Judge(w, max, window, e.at).ok] + answers)[1..] == answers;
    }
  }

  lemma LoneNothing(w: Option<Window>, ip: string, max: u32, window: nat, from: int, length: nat)
    ensures LoneAdmitted(w, [], ip, max, window, from, length) == 0
  {
  }

  /** Counting, as long as the counter does not wrap. */
  lemma Counts(w: Option<Window>, max: u32, window: nat, now: int)
    requires !Wraps(w, window, now)
    ensures var current := if w.None? || now - w.value.start >= window then Window(now, 0) else w.value;
            Judge(w, max, window, now) == Verdict(Window(current.start, current.count + 1), current.count + 1 <= max)
  {
  }

  lemma {:induction false} NothingLater(w: Option<Window>, events: seq<Event>, ip: string, max: u32, window: nat, from: int, length: nat)
    requires NotBefore(events, from + length)
    ensures LoneAdmitted(w, events, ip, max, window, from, length) == 0
    decreases |events|
  {
    hide Judge, LoneAdmitted, EntryAfter;
    LoneNothing(w, ip, max, window, from, length);
    if events != [] {
      LoneStep(w, events, ip, max, window, from, length);
      NothingLater(EntryAfter(w, events[0], ip, max, window), events[1..], ip, max, window, from, length);
    }
  }

  /** How long a window is sure to last: until it is over, or old enough for a sweep. */
  function Lasting(window: nat): nat {
    if window <= SWEEP_CUTOFF + 1 then window else SWEEP_CUTOFF + 1
  }

  function Remaining(max: u32, count: u32): nat {
    if count < max then max - count else 0
  }

  /** Once a window has opened inside the interval, only what that window has left can follow. */
  lemma {:induction false} AdmittedInside(w: Window, events: seq<Event>, ip: string, max: u32, window: nat, from: int)
    requires Ordered(events) && NotBefore(events, w.start) && NoWrap(Some(w), events, ip, max, window) && from <= w.start
    ensures LoneAdmitted(Some(w), events, ip, max, window, from, Lasting(window)) <= Remaining(max, w.count)
    decreases |events|
  {
    hide Judge, LoneAdmitted;
    var length := Lasting(window);
    LoneNothing(Some(w), ip, max, window, from, length);
    if events != [] {
      var e, rest := events[0], events[1..];
      var next := EntryAfter(Some(w), e, ip, max, window);
      LoneStep(Some(w), events, ip, max, window, from, length);
      Later(events);
      if e.Attempt? && e.ip == ip {
        Counts(Some(w), max, window, e.at);
      }
      if e.at >= from + length {
        NothingLater(next, rest, ip, max, window, from, length);
      } else {
        assert next.Some? && next.value.start == w.start;
        AdmittedInside(next.value, rest, ip, max, window, from);
      }
    }
  }

  /** With no window open at the interval's start: one allowance. */
  lemma {:induction false} AdmittedFresh(events: seq<Event>, ip: string, max: u32, window: nat, from: int)
    requires Ordered(events) && NotBefore(events, from) && NoWrap(None, events, ip, max, window)
    ensures LoneAdmitted(None, events, ip, max, window, from, Lasting(window)) <= max
    decreases |events|
  {
    hide Judge, LoneAdmitted;
    var length := Lasting(window);
    LoneNothing(None, ip, max, window, from, length);
    if events != [] {
      var e, rest := events[0], events[1..];
      LoneStep(None, events, ip, max, window, from, length);
      Later(events);
      if e.Attempt? && e.ip == ip {
        Counts(None, max, window, e.at);
        AdmittedInside(Window(e.at, 1), rest, ip, max, window, from);
      } else {
        AdmittedFresh(rest, ip, max, window, from);
      }
    }
  }

  /** With a window open: what it has left, and one more allowance. */
  lemma {:induction false} AdmittedAcross(w: Window, events: seq<Event>, ip: string, max: u32, window: nat, from: int)
    requires Ordered(events) && NotBefore(events, from) && NoWrap(Some(w), events, ip, max, window) && w.start < from
    ensures LoneAdmitted(Some(w), events, ip, max, window, from, Lasting(window)) <= Remaining(max, w.count) + max
    ensures window == 1 ==> LoneAdmitted(Some(w), events, ip, max, window, from, Lasting(window)) <= max
    decreases |events|
  {
    hide Judge, LoneAdmitted;
    var length := Lasting(window);
    LoneNothing(Some(w), ip, max, window, from, length);
    if events != [] {
      var e, rest := events[0], events[1..];
      var next := EntryAfter(Some(w), e, ip, max, window);
      LoneStep(Some(w), events, ip, max, window, from, length);
      Later(events);
      if e.Attempt? && e.ip == ip {
        Counts(Some(w), max, window, e.at);
      }
      if next.None? {
        AdmittedFresh(rest, ip, max, window, from);
      } else if next.value.start >= from {
        AdmittedInside(next.value, rest, ip, max, window, from);
      } else {
        AdmittedAcross(next.value, rest, ip, max, window, from);
      }
    }
  }

  /** Two windows meet in an interval unless it is a single instant long. */
  function RateBound(max: u32, length: nat): nat {
    if max == 0 || length == 0 then 0 else if length == 1 then max else 2 * max - 1
  }

  lemma {:induction false} AdmittedEver(w: Option<Window>, events: seq<Event>, ip: string, max: u32, window: nat, from: int)
    requires Ordered(events) && NoWrap(w, events, ip, max, window) && window > 0
    requires w.Some? ==> w.value.count >= 1 && w.value.start < from
    ensures LoneAdmitted(w, events, ip, max, window, from, Lasting(window)) <= RateBound(max, Lasting(window))
    decreases |events|
  {
    hide Judge, LoneAdmitted;
    var length := Lasting(window);
    LoneNothing(w, ip, max, window, from, length);
    if events != [] {
      var e := events[0];
      Later(events);
      if e.at < from {
        LoneStep(w, events, ip, max, window, from, length);
        if e.Attempt? && e.ip == ip {
          Counts(w, max, window, e.at);
        }
        AdmittedEver(EntryAfter(w, e, ip, max, window), events[1..], ip, max, window, from);
      } else if w.None? {
        AdmittedFresh(events, ip, max, window, from);
      } else {
        AdmittedAcross(w.value, events, ip, max, window, from);
      }
    }
  }

  lemma {:induction false} NothingInEmptyInterval(times: seq<int>, answers: seq<bool>, from: int)
    requires |times| == |answers|
    ensures Admitted(times, answers, from, 0) == 0
  {
    if times != [] {
      NothingInEmptyInterval(times[1..], answers[1..], from);
    }
  }

  /** The runs the limit is made for: the IP is tracked, and no window counts 2^32 of its attempts. */
  ghost predicate Proper(events: seq<Event>, ip: string, max: u32, window: nat) {
    Ordered(events) && Tracked(map[], events, ip, max, window) && NoWrap(None, events, ip, max, window)
  }

  /**
   * The rate bound, for every limit and window, sweeps included: no half-open interval as long
   * as the window, or as the sweeper lets a window last if that is shorter, admits more than
   * 2*max - 1 connections from one IP (max when it is one instant, none when it is empty).
   */
  lemma RateLimitBound(events: seq<Event>, ip: string, max: u32, window: nat, from: int)
    requires Proper(events, ip, max, window)
    ensures AdmittedIn(events, ip, max, window, from, Lasting(window)) <= RateBound(max, Lasting(window))
  {
    AnswersAreOnesOwn(map[], events, ip, max, window);
    if window == 0 {
      NothingInEmptyInterval(AttemptTimes(events, ip), Answers(map[], events, ip, max, window), from);
    } else {
      AdmittedEver(None, events, ip, max, window, from);
    }
  }

}

/** The process-wide cap with its add and compensating subtract as separate atomic steps. */
module GlobalCap {
  /** Threads between the over-limit add and its undo are `rejecting`. */
  datatype State = State(count: int, held: set<nat>, rejecting: set<nat>)

  datatype Step = Add(id: nat) | Undo(id: nat) | Release(id: nat)

  const INIT := State(0, {}, {})

  ghost predicate Enabled(s: State, step: Step) {
    match step
    case Add(id) => id !in s.held && id !in s.rejecting
    case Undo(id) => id in s.rejecting
    case Release(id) => id in s.held
  }

  function Apply(max: int, s: State, step: Step): State {
    match step
    case Add(id) =>
      if s.count + 1 > max then s.(count := s.count + 1, rejecting := s.rejecting + {id})
      else s.(count := s.count + 1, held := s.held + {id})
    case Undo(id) => s.(count := s.count - 1, rejecting := s.rejecting - {id})
    case Release(id) => s.(count := s.count - 1, held := s.held - {id})
  }

  ghost predicate Follows(max: int, s: State, s': State) {
    exists step :: Enabled(s, step) && s' == Apply(max, s, step)
  }

  ghost predicate Run(max: int, run: seq<State>) {
    run != [] && run[0] == INIT && forall k :: 0 <= k < |run| - 1 ==> Follows(max, run[k], run[k + 1])
  }

  ghost predicate Inv(max: int, s: State) {
    s.held !! s.rejecting && s.count == |s.held| + |s.rejecting| && |s.held| <= max
  }

  lemma StepKeepsInv(max: int, s: State, step: Step)
    requires Inv(max, s) && Enabled(s, step)
    ensures Inv(max, Apply(max, s, step))
  {
  }

  /**
   * In every interleaving the counter is the guards held plus the rejections not yet undone,
   * and the guards held never exceed the cap.
   */
  lemma {:induction false} CapHolds(max: int, run: seq<State>, k: nat)
    requires max > 0 && Run(max, run) && k < |run|
    ensures Inv(max, run[k])
  {
    if k > 0 {
      CapHolds(max, run, k - 1);
      assert Follows(max, run[k - 1], run[k - 1 + 1]);
      var step :| Enabled(run[k - 1], step) && run[k] == Apply(max, run[k - 1], step);
      StepKeepsInv(max, run[k - 1], step);
    }
  }

  // ----- a run without its rejected attempts -----

  ghost predicate Possible(max: int, s: State, steps: seq<Step>)
    decreases |steps|
  {
    steps == [] || (Enabled(s, steps[0]) && Possible(max, Apply(max, s, steps[0]), steps[1..]))
  }

  /** Whether `step` is part of a rejected attempt: an add over the cap, or the undo of one. */
  predicate OfRejection(max: int, s: State, step: Step) {
    step.Undo? || (step.Add? && s.count + 1 > max)
  }

  function WithoutRejections(max: int, s: State, steps: seq<Step>): seq<Step>
    decreases |steps|
  {
    if steps == [] then []
    else
      var rest := WithoutRejections(max, Apply(max, s, steps[0]), steps[1..]);
      if OfRejection(max, s, steps[0]) then rest else [steps[0]] + rest
  }

  /** The guards held after each step of a run that is not part of a rejected attempt. */
  function HeldAfter(max: int, s: State, steps: seq<Step>): seq<set<nat>>
    decreases |steps|
  {
    if steps == [] then []
    else
      var next := Apply(max, s, steps[0]);
      var rest := HeldAfter(max, next, steps[1..]);
      if OfRejection(max, s, steps[0]) then rest else [next.held] + rest
  }

  function Final(max: int, s: State, steps: seq<Step>): State
    decreases |steps|
  {
    if steps == [] then s else Final(max, Apply(max, s, steps[0]), steps[1..])
  }

  /** The state with the pending rejections taken out. */
  function Settled(s: State): State {
    State(|s.held|, s.held, {})
  }

  lemma {:induction false} ErasedFrom(max: int, s: State, steps: seq<Step>)
    requires Inv(max, s) && Possible(max, s, steps)
    ensures var kept := WithoutRejections(max, s, steps);
            && Possible(max, Settled(s), kept)
            && HeldAfter(max, Settled(s), kept) == HeldAfter(max, s, steps)
            && Final(max, Settled(s), kept) == Settled(Final(max, s, steps))
    decreases |steps|
  {
    if steps != [] {
      var step, rest := steps[0], steps[1..];
      var next := Apply(max, s, step);
      StepKeepsInv(max, s, step);
      ErasedFrom(max, next, rest);
      if OfRejection(max, s, step) {
        assert Settled(next) == Settled(s);
      } else {
        SettledStep(max, s, step);
        var kept := [step] + WithoutRejections(max, next, rest);
        assert kept[0] == step && kept[1..] == WithoutRejections(max, next, rest);
      }
    }
  }

  lemma SettledStep(max: int, s: State, step: Step)
    requires Inv(max, s) && Enabled(s, step) && !OfRejection(max, s, step)
    ensures Enabled(Settled(s), step) && !OfRejection(max, Settled(s), step)
    ensures Apply(max, Settled(s), step) == Settled(Apply(max, s, step))
  {
    if step.Release? {
      assert |s.held - {step.id}| == |s.held| - 1;
    }
  }

  /**
   * Rejected attempts leave nothing behind: a run without the adds that were rejected and
   * without their undos is a run too, with the same guards held after every step that is left,
   * and it ends with a counter of exactly the guards held.
   */
  lemma RejectionLeavesNothing(max: int, steps: seq<Step>)
    requires max > 0 && Possible(max, INIT, steps)
    ensures var kept := WithoutRejections(max, INIT, steps);
            && Possible(max, INIT, kept)
            && HeldAfter(max, INIT, kept) == HeldAfter(max, INIT, steps)
            && Final(max, INIT, kept) == Settled(Final(max, INIT, steps))
  {
    assert Settled(INIT) == INIT;
    ErasedFrom(max, INIT, steps);
  }

  /** Exactly when an attempt is granted: rejections in flight count against the cap as well. */
  lemma GrantedIff(max: int, s: State, id: nat)
    requires Inv(max, s) && Enabled(s, Add(id))
    ensures id in Apply(max, s, Add(id)).held <==> |s.held| + |s.rejecting| < max
  {
  }

  /** So a free slot can be refused: the holder leaves before a rejected attempt has undone its add. */
  lemma SpuriousRejection()
    ensures var s0 := INIT;
            var s1 := Apply(1, s0, Add(1));
            var s2 := Apply(1, s1, Add(2));
            var s3 := Apply(1, s2, Release(1));
            var s4 := Apply(1, s3, Add(3));
            Run(1, [s0, s1, s2, s3, s4]) && s3.held == {} && 3 in s4.rejecting
  {
  }
}
