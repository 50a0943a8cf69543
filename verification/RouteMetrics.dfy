/**
 * Byte accounting per route and its dirty-flag persistence, `src/state/route_metrics_store.rs`,
 * with every atomic access of adders, flushers and resets a step of its own.
 */
module RouteMetrics {
  datatype Totals = Totals(upload: int, download: int)

  /** Where a flush or a reset stands. */
  datatype Flusher =
    | Swapped                            // flag taken; upload not read yet
    | ReadUpload(upload: int)
    | ReadBoth(upload: int, download: int) // about to write and rename the file
    | WriteFailed                        // about to raise the flag again
    | ResetUpload                        // about to store 0
    | ResetDownload
    | ResetMark                          // about to raise the flag

  /** `marking` are the adders between their fetch_add and their store to the flag. */
  datatype State = State(
    totals: Totals,
    dirty: bool,
    persisted: Totals,
    marking: set<nat>,
    flushers: map<nat, Flusher>)

  /** An add comes with what its look at the direction's `enabled` flag showed. */
  datatype Step =
    | Add(adder: nat, toUpload: bool, bytes: int, enabled: bool)
    | Mark(adder: nat)
    | BeginFlush(id: nat, force: bool)
    | BeginReset(id: nat)
    | Work(id: nat, writeOk: bool)

  predicate IsFlush(f: Flusher) {
    f.Swapped? || f.ReadUpload? || f.ReadBoth? || f.WriteFailed?
  }

  ghost predicate Flushing(s: State) {
    exists id :: id in s.flushers && IsFlush(s.flushers[id])
  }

  /** `alone`: a flush only begins when no other is under way; resets may begin at any time. */
  ghost predicate Enabled(alone: bool, s: State, step: Step) {
    match step
    case Add(adder, _, _, _) => adder !in s.marking
    case Mark(adder) => adder in s.marking
    case BeginFlush(id, _) => id !in s.flushers && (alone ==> !Flushing(s))
    case BeginReset(id) => id !in s.flushers
    case Work(id, _) => id in s.flushers
  }

  function WorkStep(s: State, id: nat, writeOk: bool): State
    requires id in s.flushers
  {
    match s.flushers[id]
    case Swapped => s.(flushers := s.flushers[id := ReadUpload(s.totals.upload)])
    case ReadUpload(u) => s.(flushers := s.flushers[id := ReadBoth(u, s.totals.download)])
    case ReadBoth(u, d) =>
      if writeOk then s.(persisted := Totals(u, d), flushers := s.flushers - {id})
      else s.(flushers := s.flushers[id := WriteFailed])
    case WriteFailed => s.(dirty := true, flushers := s.flushers - {id})
    case ResetUpload => s.(totals := s.totals.(upload := 0), flushers := s.flushers[id := ResetDownload])
    case ResetDownload => s.(totals := s.totals.(download := 0), flushers := s.flushers[id := ResetMark])
    case ResetMark => s.(dirty := true, flushers := s.flushers - {id})
  }

  function Apply(s: State, step: Step): State
    requires step.Work? ==> step.id in s.flushers
  {
    match step
    case Add(adder, toUpload, bytes, enabled) =>
      if !enabled || bytes <= 0 then s
      else s.(totals := if toUpload then s.totals.(upload := s.totals.upload + bytes) else s.totals.(download := s.totals.download + bytes),
              marking := s.marking + {adder})
    case Mark(adder) => s.(dirty := true, marking := s.marking - {adder})
    case BeginFlush(id, force) =>
      if force || s.dirty then s.(dirty := false, flushers := s.flushers[id := Swapped]) else s
    case BeginReset(id) => s.(flushers := s.flushers[id := ResetUpload])
    case Work(id, writeOk) => WorkStep(s, id, writeOk)
  }

  /** A counter freshly loaded from its file (or from none, all zero). */
  ghost predicate Init(s: State) {
    s.persisted == s.totals && !s.dirty && s.marking == {} && s.flushers == map[]
  }

  ghost predicate Follows(alone: bool, s: State, s': State) {
    exists step :: Enabled(alone, s, step) && s' == Apply(s, step)
  }

  ghost predicate Run(alone: bool, run: seq<State>) {
    run != [] && Init(run[0]) && forall k :: 0 <= k < |run| - 1 ==> Follows(alone, run[k], run[k + 1])
  }

  ghost predicate Resetting(s: State) {
    exists id :: id in s.flushers && !IsFlush(s.flushers[id])
  }

  /** A change may not have been persisted, but somebody will still see to it. */
  ghost predicate Announced(s: State) {
    s.dirty || s.marking != {} || Resetting(s)
  }

  /** What a flush has read so far is still current, unless a later change is announced. */
  ghost predicate FlushInv(s: State, f: Flusher) {
    match f
    case ReadUpload(u) => Announced(s) || u == s.totals.upload
    case ReadBoth(u, d) => Announced(s) || Totals(u, d) == s.totals
    case _ => true
  }

  ghost predicate Inv(s: State) {
    && (forall id, id' :: id in s.flushers && id' in s.flushers && IsFlush(s.flushers[id]) && IsFlush(s.flushers[id']) ==> id == id')
    && (forall id :: id in s.flushers ==> FlushInv(s, s.flushers[id]))
    && (!Flushing(s) ==> Announced(s) || s.persisted == s.totals)
  }

  /** A reset that `id`'s step does not concern is still under way behind it. */
  lemma StillResetting(s: State, id: nat, s': State)
    requires Resetting(s) && id in s.flushers && IsFlush(s.flushers[id])
    requires forall x :: x in s.flushers && x != id ==> x in s'.flushers && s'.flushers[x] == s.flushers[x]
    ensures Resetting(s')
  {
    var x :| x in s.flushers && !IsFlush(s.flushers[x]);
    assert x in s'.flushers && !IsFlush(s'.flushers[x]);
  }

  lemma FlushWorkKeepsInv(s: State, id: nat, writeOk: bool)
    requires Inv(s) && id in s.flushers && IsFlush(s.flushers[id])
    ensures Inv(WorkStep(s, id, writeOk))
  {
    hide Resetting, Flushing;
    var s' := WorkStep(s, id, writeOk);
    if Resetting(s) {
      StillResetting(s, id, s');
    }
    if id in s'.flushers {
      FlushSeen(s', id);
    }
  }

  lemma FlushSeen(s: State, id: nat)
    requires id in s.flushers
    ensures if IsFlush(s.flushers[id]) then Flushing(s) else Resetting(s)
  {
  }

  lemma ResetWorkKeepsInv(s: State, id: nat, writeOk: bool)
    requires Inv(s) && id in s.flushers && !IsFlush(s.flushers[id])
    ensures Inv(WorkStep(s, id, writeOk))
  {
    hide Resetting, Flushing;
    var s' := WorkStep(s, id, writeOk);
    if id in s'.flushers {
      FlushSeen(s', id);
    }
  }

  lemma WorkKeepsInv(s: State, id: nat, writeOk: bool)
    requires Inv(s) && id in s.flushers
    ensures Inv(WorkStep(s, id, writeOk))
  {
    hide Inv, WorkStep;
    if IsFlush(s.flushers[id]) {
      FlushWorkKeepsInv(s, id, writeOk);
    } else {
      ResetWorkKeepsInv(s, id, writeOk);
    }
  }

  lemma StepKeepsInv(s: State, step: Step)
    requires Inv(s) && Enabled(true, s, step)
    ensures Inv(Apply(s, step))
  {
    var s' := Apply(s, step);
    match step
    case Add(_, _, _, _) =>
    case Mark(_) =>
    case BeginFlush(id, _) =>
      assert forall x :: x in s.flushers ==> x in s'.flushers && s'.flushers[x] == s.flushers[x];
    case BeginReset(id) =>
      assert forall x :: x in s.flushers ==> x in s'.flushers && s'.flushers[x] == s.flushers[x];
      assert id in s'.flushers && !IsFlush(s'.flushers[id]);
    case Work(id, writeOk) => WorkKeepsInv(s, id, writeOk);
  }

  lemma {:induction false} InvAlways(run: seq<State>, k: nat)
    requires Run(true, run) && k < |run|
    ensures Inv(run[k])
  {
    if k > 0 {
      InvAlways(run, k - 1);
      assert Follows(true, run[k - 1], run[k - 1 + 1]);
      var step :| Enabled(true, run[k - 1], step) && run[k] == Apply(run[k - 1], step);
      hide Inv;
      StepKeepsInv(run[k - 1], step);
    }
  }

  /**
   * No totals are lost: in every run with one flush at a time, with adds and resets at any
   * moment, whenever nobody is in the middle of anything and the flag is down, the file holds
   * the counters.
   */
  lemma PersistedWhenClean(run: seq<State>, k: nat)
    requires Run(true, run) && k < |run|
    requires !run[k].dirty && run[k].marking == {} && run[k].flushers == map[]
    ensures run[k].persisted == run[k].totals
  {
    InvAlways(run, k);
    assert !Flushing(run[k]) && !Resetting(run[k]);
  }

  // ----- what the totals are -----

  /** `steps` are what led along `run`. */
  ghost predicate Traced(alone: bool, run: seq<State>, steps: seq<Step>) {
    && |run| == |steps| + 1 && Init(run[0])
    && forall k :: 0 <= k < |steps| ==> Enabled(alone, run[k], steps[k]) && run[k + 1] == Apply(run[k], steps[k])
  }

  /** The bytes a step counts in one direction: only positive amounts, and only if it is enabled. */
  function BytesOf(step: Step, upload: bool): nat {
    if step.Add? && step.enabled && step.bytes > 0 && step.toUpload == upload then step.bytes else 0
  }

  function Sum(steps: seq<Step>, upload: bool): nat {
    if steps == [] then 0 else Sum(steps[..|steps| - 1], upload) + BytesOf(steps[|steps| - 1], upload)
  }

  /** A reset gets to one direction with this step. */
  predicate Zeroes(s: State, step: Step, upload: bool) {
    step.Work? && step.id in s.flushers && s.flushers[step.id] == if upload then ResetUpload else ResetDownload
  }

  /** When the counter last started over by `k`: after its latest reset, or at 0 without one. */
  ghost predicate LastStart(run: seq<State>, steps: seq<Step>, upload: bool, start: nat, k: nat)
    requires |run| == |steps| + 1 && k <= |steps|
  {
    && start <= k && (start > 0 ==> Zeroes(run[start - 1], steps[start - 1], upload))
    && forall j :: start <= j < k ==> !Zeroes(run[j], steps[j], upload)
  }

  function Total(s: State, upload: bool): int {
    if upload then s.totals.upload else s.totals.download
  }

  lemma StepCounts(s: State, step: Step, upload: bool)
    requires Enabled(false, s, step)
    ensures Total(Apply(s, step), upload) == if Zeroes(s, step, upload) then 0 else Total(s, upload) + BytesOf(step, upload)
  {
  }

  /**
   * The totals are the traffic: at every moment of every run, flushes side by side or not, a
   * counter is the sum of the bytes added in its direction since its latest reset, on top of the
   * loaded total if there was none.
   */
  lemma {:induction false} TotalsAreSums(run: seq<State>, steps: seq<Step>, upload: bool, start: nat, k: nat)
    requires Traced(false, run, steps) && k <= |steps| && LastStart(run, steps, upload, start, k)
    ensures Total(run[k], upload) == (if start == 0 then Total(run[0], upload) else 0) + Sum(steps[start..k], upload)
    decreases k
  {
    if k > 0 {
      assert Enabled(false, run[k - 1], steps[k - 1]) && run[k - 1 + 1] == Apply(run[k - 1], steps[k - 1]);
      StepCounts(run[k - 1], steps[k - 1], upload);
      if start < k {
        TotalsAreSums(run, steps, upload, start, k - 1);
        assert steps[start..k][..k - start - 1] == steps[start..k - 1];
      }
    }
  }

  /** There is always such a latest start, so the sum is always defined. */
  lemma {:induction false} AlwaysStarted(run: seq<State>, steps: seq<Step>, upload: bool, k: nat)
    requires |run| == |steps| + 1 && k <= |steps|
    ensures exists start :: LastStart(run, steps, upload, start, k)
  {
    if k == 0 {
      assert LastStart(run, steps, upload, 0, 0);
    } else if Zeroes(run[k - 1], steps[k - 1], upload) {
      assert LastStart(run, steps, upload, k, k);
    } else {
      AlwaysStarted(run, steps, upload, k - 1);
      var start :| LastStart(run, steps, upload, start, k - 1);
      assert LastStart(run, steps, upload, start, k);
    }
  }

  // ----- two flushes at once -----

  /** `steps` lead from `s` to `end`. */
  ghost predicate Leads(alone: bool, s: State, steps: seq<Step>, end: State)
    decreases |steps|
  {
    if steps == [] then s == end else Enabled(alone, s, steps[0]) && Leads(alone, Apply(s, steps[0]), steps[1..], end)
  }

  lemma OneMore(s: State, step: Step, steps: seq<Step>, end: State)
    requires Enabled(false, s, step) && Leads(false, Apply(s, step), steps, end)
    ensures Leads(false, s, [step] + steps, end)
  {
  }

  /** What the slow flush read before the add, and what is there after it. */
  function SlowFlush(s: State): State {
    s.(dirty := false, flushers := map[0 := ReadBoth(s.totals.upload, s.totals.download)])
  }

  function Overtaken(s: State): State {
    SlowFlush(s).(totals := s.totals.(upload := s.totals.upload + 1), persisted := s.totals.(upload := s.totals.upload + 1))
  }

  lemma SlowFlushBegins(s: State, steps: seq<Step>, end: State)
    requires Init(s) && Leads(false, SlowFlush(s), steps, end)
    ensures Leads(false, s, [BeginFlush(0, true), Work(0, true), Work(0, true)] + steps, end)
  {
    var s1 := Apply(s, BeginFlush(0, true));
    var s2 := Apply(s1, Work(0, true));
    assert s2.flushers == map[0 := ReadUpload(s.totals.upload)];
    assert Apply(s2, Work(0, true)).flushers == SlowFlush(s).flushers;
    assert Apply(s2, Work(0, true)) == SlowFlush(s);
    OneMore(s2, Work(0, true), steps, end);
    OneMore(s1, Work(0, true), [Work(0, true)] + steps, end);
    OneMore(s, BeginFlush(0, true), [Work(0, true)] + ([Work(0, true)] + steps), end);
    assert [BeginFlush(0, true)] + ([Work(0, true)] + ([Work(0, true)] + steps))
        == [BeginFlush(0, true), Work(0, true), Work(0, true)] + steps;
  }

  lemma SecondFlushPasses(s: State, steps: seq<Step>, end: State)
    requires Init(s) && Leads(false, Overtaken(s), steps, end)
    ensures Leads(false, SlowFlush(s),
                  [Add(0, true, 1, true), Mark(0)] + ([BeginFlush(1, true), Work(1, true)] + ([Work(1, true), Work(1, true)] + steps)), end)
  {
    var t := SlowFlush(s);
    var slow := t.flushers;
    var t1 := Apply(t, Add(0, true, 1, true));
    var t2 := Apply(t1, Mark(0));
    var t3 := Apply(t2, BeginFlush(1, true));
    var t4 := Apply(t3, Work(1, true));
    var t5 := Apply(t4, Work(1, true));
    var more := t1.totals;
    assert t5.flushers[1] == ReadBoth(more.upload, more.download);
    assert t5.flushers - {1} == slow;
    assert t2.marking == {} == s.marking;
    assert Apply(t5, Work(1, true)) == Overtaken(s);
    OneMore(t5, Work(1, true), steps, end);
    OneMore(t4, Work(1, true), [Work(1, true)] + steps, end);
    var u := [Work(1, true), Work(1, true)] + steps;
    assert [Work(1, true)] + ([Work(1, true)] + steps) == u;
    OneMore(t3, Work(1, true), u, end);
    OneMore(t2, BeginFlush(1, true), [Work(1, true)] + u, end);
    var v := [BeginFlush(1, true), Work(1, true)] + u;
    assert [BeginFlush(1, true)] + ([Work(1, true)] + u) == v;
    OneMore(t1, Mark(0), v, end);
    OneMore(t, Add(0, true, 1, true), [Mark(0)] + v, end);
    assert [Add(0, true, 1, true)] + ([Mark(0)] + v) == [Add(0, true, 1, true), Mark(0)] + v;
  }

  /**
   * With two flushes at once (a console reset's forced flush beside the ticker's) the older
   * one can write last: everything is at rest, the flag is down, and the file is behind.
   */
  lemma TwoFlushersLoseAnAdd(s: State)
    requires Init(s)
    ensures exists steps, end ::
              && Leads(false, s, steps, end) && !end.dirty && end.marking == {} && end.flushers == map[]
              && end.persisted != end.totals
  {
    var end := Apply(Overtaken(s), Work(0, true));
    assert Leads(false, end, [], end);
    OneMore(Overtaken(s), Work(0, true), [], end);
    var last := [Work(0, true)] + [];
    SecondFlushPasses(s, last, end);
    var rest := [Add(0, true, 1, true), Mark(0)] + ([BeginFlush(1, true), Work(1, true)] + ([Work(1, true), Work(1, true)] + last));
    SlowFlushBegins(s, rest, end);
    assert end.flushers == map[];
    assert end.persisted == s.totals;
  }

  // ----- one flush or reset from beginning to end -----

  /** Where the four accesses of a flush or a reset lead when nothing comes between them. */
  function Alone(s: State, begin: Step, writeOk: bool): State
    requires begin.BeginFlush? || begin.BeginReset?
    requires begin.BeginFlush? ==> begin.force || s.dirty
  {
    var id := begin.id;
    var s1 := Apply(s, begin);
    var s2 := WorkStep(s1, id, true);
    var s3 := WorkStep(s2, id, true);
    WorkStep(s3, id, writeOk)
  }

  /** A flush, forced or of changed totals, puts the counters on file and takes the flag down. */
  lemma FlushWrites(s: State, id: nat, force: bool)
    requires id !in s.flushers && (force || s.dirty)
    ensures Alone(s, BeginFlush(id, force), true) == s.(persisted := s.totals, dirty := false)
  {
    var end := Alone(s, BeginFlush(id, force), true);
    assert end.flushers == s.flushers;
  }

  /** If the file cannot be written, one more access raises the flag again, and nothing else has changed. */
  lemma FailedFlushKeepsFlag(s: State, id: nat, force: bool)
    requires id !in s.flushers && (force || s.dirty)
    ensures var failed := Alone(s, BeginFlush(id, force), false);
            id in failed.flushers && WorkStep(failed, id, true) == s.(dirty := true)
  {
    var failed := Alone(s, BeginFlush(id, force), false);
    assert WorkStep(failed, id, true).flushers == s.flushers;
  }

  /** A reset brings both counters to zero and raises the flag. */
  lemma ResetZeroes(s: State, id: nat)
    requires id !in s.flushers
    ensures Alone(s, BeginReset(id), true) == s.(totals := Totals(0, 0), dirty := true)
  {
    var end := Alone(s, BeginReset(id), true);
    assert end.flushers == s.flushers;
  }

  // ----- scheduled resets -----

  /** What a tick does to the reset time: past due, it moves on by whole intervals. */
  function Tick(resetAt: int, interval: int, now: int): int {
    if interval <= 0 || resetAt <= 0 || now < resetAt then resetAt
    else resetAt + ((now - resetAt) / interval + 1) * interval
  }

  ghost predicate Congruent(a: int, b: int, interval: int) {
    exists k: int :: b == a + k * interval
  }

  /** A due reset moves to the one instant in (now, now + interval] that keeps the schedule. */
  lemma TickIsNextBoundary(resetAt: int, interval: int, now: int)
    requires interval > 0 && 0 < resetAt <= now
    ensures var next := Tick(resetAt, interval, now);
            && now < next <= now + interval && Congruent(resetAt, next, interval)
            && forall other :: now < other <= now + interval && Congruent(resetAt, other, interval) ==> other == next
  {
    var q := (now - resetAt) / interval;
    var next := Tick(resetAt, interval, now);
    assert now - resetAt == q * interval + (now - resetAt) % interval;
    assert next == resetAt + (q + 1) * interval == resetAt + q * interval + interval;
    forall other | now < other <= now + interval && Congruent(resetAt, other, interval) ensures other == next {
      var k :| other == resetAt + k * interval;
      SameWindow(k, q + 1, interval, now - resetAt);
    }
  }

  lemma SameWindow(k: int, m: int, interval: int, d: int)
    requires interval > 0 && d < k * interval <= d + interval && d < m * interval <= d + interval
    ensures k == m
  {
    assert (k - m) * interval == k * interval - m * interval;
    SmallMultiple(k - m, interval);
  }

  lemma SmallMultiple(x: int, interval: int)
    requires interval > 0 && -interval < x * interval < interval
    ensures x == 0
  {
  }

  function Ticks(resetAt: int, interval: int, nows: seq<int>): int
    decreases nows
  {
    if nows == [] then resetAt else Ticks(Tick(resetAt, interval, nows[0]), interval, nows[1..])
  }

  /** However many ticks there are, late or early, the schedule keeps its anchor and never moves back. */
  lemma {:induction false} TicksKeepAnchor(resetAt: int, interval: int, nows: seq<int>)
    requires interval > 0 && resetAt > 0
    ensures Congruent(resetAt, Ticks(resetAt, interval, nows), interval) && Ticks(resetAt, interval, nows) >= resetAt
    decreases |nows|
  {
    if nows == [] {
      assert resetAt == resetAt + 0 * interval;
    } else {
      var next := Tick(resetAt, interval, nows[0]);
      if nows[0] >= resetAt {
        TickIsNextBoundary(resetAt, interval, nows[0]);
      } else {
        assert next == resetAt + 0 * interval;
      }
      TicksKeepAnchor(next, interval, nows[1..]);
      var a :| next == resetAt + a * interval;
      var b :| Ticks(next, interval, nows[1..]) == next + b * interval;
      assert a * interval + b * interval == (a + b) * interval;
    }
  }

  // ----- reloads and manual resets in between -----

  /** What `apply_config` makes of the reset time. */
  function Configure(resetAt: int, interval: int, now: int): int {
    if interval <= 0 then 0
    else if resetAt == 0 || resetAt > now + interval then now + interval
    else resetAt
  }

  /** The reset time and the interval in force; no interval, no reset time. */
  datatype Schedule = Schedule(resetAt: int, interval: int)

  /** A reload brings its own interval. */
  datatype Occasion = Reload(at: int, interval: int) | TickerRuns(at: int) | Zeroed(at: int)

  function AfterOccasion(s: Schedule, o: Occasion): Schedule {
    match o
    case Reload(at, interval) => Schedule(Configure(s.resetAt, interval, at), interval)
    case TickerRuns(at) => s.(resetAt := Tick(s.resetAt, s.interval, at))
    case Zeroed(at) => if s.interval > 0 then s.(resetAt := at + s.interval) else s
  }

  function AfterOccasions(s: Schedule, os: seq<Occasion>): Schedule
    decreases |os|
  {
    if os == [] then s else AfterOccasions(AfterOccasion(s, os[0]), os[1..])
  }

  /** Times do not go back, from `clock` on. */
  ghost predicate InOrder(os: seq<Occasion>, clock: int)
    decreases |os|
  {
    os == [] || (clock <= os[0].at && InOrder(os[1..], os[0].at))
  }

  function LastTime(os: seq<Occasion>, clock: int): int {
    if os == [] then clock else os[|os| - 1].at
  }

  /** With an interval, the next reset is at most that far away; without one, there is none. */
  predicate Near(s: Schedule, now: int) {
    if s.interval > 0 then 0 < s.resetAt <= now + s.interval else s.resetAt == 0
  }

  /**
   * Whatever reloads (each with an interval of its own), ticks and manual resets follow each
   * other, the next reset is never further away than the interval now in force, there is none
   * when there is no interval, and right after a tick or a reset it lies in the future.
   */
  lemma {:induction false} ScheduleStaysNear(s: Schedule, os: seq<Occasion>, clock: int)
    requires clock > 0 && Near(s, clock) && InOrder(os, clock)
    ensures var end := AfterOccasions(s, os);
            && Near(end, LastTime(os, clock))
            && (os != [] && !os[|os| - 1].Reload? && end.interval > 0 ==> LastTime(os, clock) < end.resetAt)
    decreases |os|
  {
    if os != [] {
      OccasionIsNear(s, os[0], clock);
      ScheduleStaysNear(AfterOccasion(s, os[0]), os[1..], os[0].at);
    }
  }

  lemma OccasionIsNear(s: Schedule, o: Occasion, clock: int)
    requires 0 < clock <= o.at && Near(s, clock)
    ensures var next := AfterOccasion(s, o);
            Near(next, o.at) && (!o.Reload? && next.interval > 0 ==> o.at < next.resetAt)
  {
    if o.TickerRuns? && s.interval > 0 && s.resetAt <= o.at {
      TickIsNextBoundary(s.resetAt, s.interval, o.at);
    }
  }

  /** A reload that keeps the interval changes nothing; one that shortens it below the wait moves the reset up. */
  lemma ReloadMovesUpIff(s: Schedule, o: Occasion, clock: int)
    requires 0 < clock <= o.at && Near(s, clock) && o.Reload? && s.interval > 0 && o.interval > 0
    ensures AfterOccasion(s, o).resetAt == (if s.resetAt - o.at > o.interval then o.at + o.interval else s.resetAt)
    ensures AfterOccasion(s, o).resetAt != s.resetAt <==> s.resetAt - o.at > o.interval
    ensures o.interval >= s.interval ==> AfterOccasion(s, o).resetAt == s.resetAt
  {
  }

  /** A first load brings any stored time of zero or more into that range, and no other. */
  lemma LoadedScheduleIff(stored: int, interval: int, now: int)
    requires interval > 0 && now > 0
    ensures 0 < Configure(stored, interval, now) <= now + interval <==> stored >= 0
    ensures stored < 0 ==> forall later :: Tick(Configure(stored, interval, now), interval, later) == stored
  {
  }
}
