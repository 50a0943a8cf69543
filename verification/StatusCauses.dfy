/**
 * Why `handle_status` (`src/net/server.rs`) does what it does: a monitor beside the status
 * machine keeps the failures and clearings of each backend, the fetches' results and the refused
 * slots, and every backend passed over or asked, and every answer, has its cause there.
 */
module StatusCauses {
  import opened Bytes
  import opened SlotCounts
  import opened StatusKeys
  import opened PingCaches
  import opened StatusPing

  /** A key was marked down, or cleared by a put. */
  datatype Mark = Failed(key: string, at: int) | Cleared(key: string)

  /** A task's turn at one of its backends. */
  datatype Turn = Turn(id: nat, i: nat)

  datatype History = History(
    marks: seq<Mark>,
    outcomes: map<Turn, Option<string>>,   // what the task's own fetch gave
    refused: set<Turn>)                    // turns in which no slot was free

  const NOTHING := History([], map[], {})

  function TurnOf(id: nat, t: Task): Turn {
    Turn(id, t.i)
  }

  /** What the monitor adds when task `id` goes from `t` to `t'`. */
  ghost function Noted(h: History, now: int, id: nat, t: Task, t': Task): History {
    if !Busy(t) then h
    else
      match t.pc
      case NoteDown => h.(marks := h.marks + [Failed(BackendKey(Here(t)), now)])
      case ClearResponse(_) => h.(marks := h.marks + [Cleared(ResponseKey(t))])
      case ClearLastKnown(_) => h.(marks := h.marks + [Cleared(BackendKey(Here(t)))])
      case Dialing => if t'.pc.EndDial? then h.(outcomes := h.outcomes[TurnOf(id, t) := t'.pc.result]) else h
      case TryDial => if t'.pc.Dialing? then h else h.(refused := h.refused + {TurnOf(id, t)})
      case PollDial => if t'.pc.Dialing? then h else h.(refused := h.refused + {TurnOf(id, t)})
      case _ => h
  }

  ghost function After(h: History, s: State, step: Step, s': State): History {
    if step.Move? && step.mover in s.tasks && step.mover in s'.tasks then
      Noted(h, s.now, step.mover, s.tasks[step.mover], s'.tasks[step.mover])
    else h
  }

  // ----- what the monitor's records are worth -----

  function LastMark(marks: seq<Mark>, key: string): Option<Mark> {
    if marks == [] then None
    else if marks[|marks| - 1].key == key then Some(marks[|marks| - 1])
    else LastMark(marks[..|marks| - 1], key)
  }

  lemma LastMarkAfter(marks: seq<Mark>, m: Mark, key: string)
    ensures LastMark(marks + [m], key) == if m.key == key then Some(m) else LastMark(marks, key)
  {
    assert (marks + [m])[..|marks|] == marks;
  }

  /** The key's last event is a failure no more than five seconds old. */
  predicate FailedLately(marks: seq<Mark>, key: string, now: int) {
    var last := LastMark(marks, key);
    last.Some? && last.value.Failed? && now <= last.value.at + 5_000_000_000
  }

  /** The down table says of every key what its last event says, from now on. */
  ghost predicate DownOk(marks: seq<Mark>, downUntil: map<string, int>, now: int) {
    forall key, later :: now <= later ==> (Down(downUntil, key, later) <==> FailedLately(marks, key, later))
  }

  ghost predicate TaskCaused(h: History, id: nat, t: Task) {
    var turn := TurnOf(id, t);
    match t.pc
    case EndDial(result) => turn in h.outcomes && h.outcomes[turn] == result
    case NoteDown => turn in h.outcomes && h.outcomes[turn] == None
    case ClearResponse(json) => turn in h.outcomes && h.outcomes[turn] == Some(json)
    case PutResponse(json) => turn in h.outcomes && h.outcomes[turn] == Some(json)
    case ClearLastKnown(json) => turn in h.outcomes && h.outcomes[turn] == Some(json)
    case PutLastKnown(json) => turn in h.outcomes && h.outcomes[turn] == Some(json)
    case LastKnown => turn in h.refused
    case Polling => turn in h.refused
    case PollDial => turn in h.refused
    case Finished => !Busy(t)
    case _ => true
  }

  ghost predicate AllCaused(h: History, tasks: map<nat, Task>) {
    forall id :: id in tasks ==> TaskCaused(h, id, tasks[id])
  }

  ghost predicate Kept(h: History, s: State) {
    DownOk(h.marks, s.downUntil, s.now) && AllCaused(h, s.tasks)
  }

  // ----- every step keeps the records right -----

  lemma DownSame(marks: seq<Mark>, downUntil: map<string, int>, now: int, after: map<string, int>, to: int)
    requires DownOk(marks, downUntil, now) && now <= to
    requires forall key :: key in after ==> key in downUntil && after[key] == downUntil[key]
    requires forall key :: key in downUntil && key !in after ==> downUntil[key] < to
    ensures DownOk(marks, after, to)
  {
    hide FailedLately;
    forall key, later | to <= later ensures Down(after, key, later) <==> FailedLately(marks, key, later) {
      assert Down(downUntil, key, later) <==> FailedLately(marks, key, later);
    }
  }

  lemma DownMarked(marks: seq<Mark>, downUntil: map<string, int>, now: int, key: string)
    requires DownOk(marks, downUntil, now)
    ensures DownOk(marks + [Failed(key, now)], downUntil[key := now + FAILURE_TTL], now)
    ensures DownOk(marks + [Cleared(key)], downUntil - {key}, now)
  {
    forall k, later | now <= later
      ensures Down(downUntil[key := now + FAILURE_TTL], k, later) <==> FailedLately(marks + [Failed(key, now)], k, later)
      ensures Down(downUntil - {key}, k, later) <==> FailedLately(marks + [Cleared(key)], k, later)
    {
      LastMarkAfter(marks, Failed(key, now), k);
      LastMarkAfter(marks, Cleared(key), k);
      assert Down(downUntil, k, later) <==> FailedLately(marks, k, later);
      hide LastMark;
    }
  }

  /** Nothing noted about other tasks' turns changes what was noted about this one's. */
  lemma StillCaused(h: History, h': History, id: nat, t: Task, mover: nat)
    requires TaskCaused(h, id, t) && id != mover && h.refused <= h'.refused
    requires forall turn :: turn in h.outcomes && turn.id != mover ==> turn in h'.outcomes && h'.outcomes[turn] == h.outcomes[turn]
    ensures TaskCaused(h', id, t)
  {
  }

  ghost predicate OnlyNotes(h: History, h': History, mover: nat) {
    && h.refused <= h'.refused
    && forall turn :: turn in h.outcomes && turn.id != mover ==> turn in h'.outcomes && h'.outcomes[turn] == h.outcomes[turn]
  }

  lemma NotedOnly(h: History, now: int, id: nat, t: Task, t': Task)
    ensures OnlyNotes(h, Noted(h, now, id, t, t'), id)
  {
    hide BackendKey, ResponseKey;
  }

  lemma MoveCaused(h: History, h': History, tasks: map<nat, Task>, id: nat, t': Task)
    requires AllCaused(h, tasks) && OnlyNotes(h, h', id) && TaskCaused(h', id, t')
    ensures AllCaused(h', tasks[id := t'])
  {
    hide TaskCaused;
    var after := tasks[id := t'];
    forall x | x in after ensures TaskCaused(h', x, after[x]) {
      if x != id {
        StillCaused(h, h', x, tasks[x], id);
      }
    }
  }

  /** A move and what it notes keep the down table true to the marks. */
  lemma MoveKeepsDown(version: string -> Option<int>, s: State, id: nat, s': State, h: History)
    requires DownOk(h.marks, s.downUntil, s.now) && id in s.tasks && TaskMove(version, s, id, s.tasks[id], s') && id in s'.tasks
    ensures s'.now == s.now && DownOk(Noted(h, s.now, id, s.tasks[id], s'.tasks[id]).marks, s'.downUntil, s'.now)
  {
    hide DownOk, Lookup, AfterGet, Acquire, Release, PutResult, BackendKey, StatusKey;
    var t := s.tasks[id];
    if t.pc.NoteDown? || t.pc.ClearLastKnown? {
      DownMarked(h.marks, s.downUntil, s.now, BackendKey(Here(t)));
    } else if t.pc.ClearResponse? {
      DownMarked(h.marks, s.downUntil, s.now, ResponseKey(t));
    } else if t.pc.CheckDown? {
      DownSame(h.marks, s.downUntil, s.now, s'.downUntil, s.now);
    }
  }

  /** A move changes its own task alone, and of that neither route nor host, protocol, backends or TTL. */
  ghost predicate OwnMove(s: State, id: nat, s': State)
    requires id in s.tasks
  {
    && id in s'.tasks && s'.tasks == s.tasks[id := s'.tasks[id]]
    && var t, t' := s.tasks[id], s'.tasks[id];
       t'.route == t.route && t'.host == t.host && t'.protocol == t.protocol && t'.backends == t.backends && t'.ttl == t.ttl
  }

  ghost predicate CausedAfter(h: History, s: State, id: nat, s': State)
    requires id in s.tasks
  {
    id in s'.tasks && TaskCaused(Noted(h, s.now, id, s.tasks[id], s'.tasks[id]), id, s'.tasks[id])
  }

  lemma LookupCause(version: string -> Option<int>, s: State, id: nat, s': State, h: History)
    requires id in s.tasks && TaskMove(version, s, id, s.tasks[id], s') && TaskCaused(h, id, s.tasks[id])
    requires var pc := s.tasks[id].pc; pc.LookUp? || pc.LastKnown?
    ensures OwnMove(s, id, s') && CausedAfter(h, s, id, s')
  {
    hide Lookup, AfterGet, Acquire, Release, PutResult, BackendKey, StatusKey, Down, AfterDownCheck;
  }

  lemma PollingCause(version: string -> Option<int>, s: State, id: nat, s': State, h: History)
    requires id in s.tasks && TaskMove(version, s, id, s.tasks[id], s') && TaskCaused(h, id, s.tasks[id])
    requires var pc := s.tasks[id].pc; pc.Polling? || pc.CheckDown?
    ensures OwnMove(s, id, s') && CausedAfter(h, s, id, s')
  {
    hide Lookup, AfterGet, Acquire, Release, PutResult, BackendKey, StatusKey, Down, AfterDownCheck;
  }

  lemma SlotCause(version: string -> Option<int>, s: State, id: nat, s': State, h: History)
    requires id in s.tasks && TaskMove(version, s, id, s.tasks[id], s') && TaskCaused(h, id, s.tasks[id])
    requires var pc := s.tasks[id].pc; pc.TryDial? || pc.PollDial?
    ensures OwnMove(s, id, s') && CausedAfter(h, s, id, s')
  {
    hide Lookup, AfterGet, Acquire, Release, PutResult, BackendKey, StatusKey, Down, AfterDownCheck;
  }

  lemma FetchCause(version: string -> Option<int>, s: State, id: nat, s': State, h: History)
    requires id in s.tasks && TaskMove(version, s, id, s.tasks[id], s') && TaskCaused(h, id, s.tasks[id])
    requires var pc := s.tasks[id].pc; pc.Dialing? || pc.EndDial?
    ensures OwnMove(s, id, s') && CausedAfter(h, s, id, s')
  {
    hide Lookup, AfterGet, Acquire, Release, PutResult, BackendKey, StatusKey, Down, AfterDownCheck;
  }

  lemma PutCause(version: string -> Option<int>, s: State, id: nat, s': State, h: History)
    requires id in s.tasks && TaskMove(version, s, id, s.tasks[id], s') && TaskCaused(h, id, s.tasks[id])
    requires var pc := s.tasks[id].pc; pc.PutResponse? || pc.PutLastKnown?
    ensures OwnMove(s, id, s') && CausedAfter(h, s, id, s')
  {
    hide Lookup, AfterGet, Acquire, Release, PutResult, BackendKey, StatusKey, Down, AfterDownCheck;
  }

  lemma MarkCause(version: string -> Option<int>, s: State, id: nat, s': State, h: History)
    requires id in s.tasks && TaskMove(version, s, id, s.tasks[id], s') && TaskCaused(h, id, s.tasks[id])
    requires var pc := s.tasks[id].pc; pc.ClearResponse? || pc.ClearLastKnown? || pc.NoteDown?
    ensures OwnMove(s, id, s') && CausedAfter(h, s, id, s')
  {
    hide Lookup, AfterGet, Acquire, Release, PutResult, BackendKey, StatusKey, Down, AfterDownCheck;
  }

  lemma MoveKeepsCause(version: string -> Option<int>, s: State, id: nat, s': State, h: History)
    requires id in s.tasks && TaskMove(version, s, id, s.tasks[id], s') && TaskCaused(h, id, s.tasks[id])
    ensures OwnMove(s, id, s') && CausedAfter(h, s, id, s')
  {
    var pc := s.tasks[id].pc;
    assert !pc.Answered? && !pc.Finished?;
    hide TaskMove, TaskCaused, OwnMove, CausedAfter;
    if pc.LookUp? || pc.LastKnown? {
      LookupCause(version, s, id, s', h);
    } else if pc.Polling? || pc.CheckDown? {
      PollingCause(version, s, id, s', h);
    } else if pc.TryDial? || pc.PollDial? {
      SlotCause(version, s, id, s', h);
    } else if pc.Dialing? || pc.EndDial? {
      FetchCause(version, s, id, s', h);
    } else if pc.PutResponse? || pc.PutLastKnown? {
      PutCause(version, s, id, s', h);
    } else {
      MarkCause(version, s, id, s', h);
    }
  }

  lemma StepKeeps(version: string -> Option<int>, s: State, step: Step, s': State, h: History)
    requires Kept(h, s) && NextBy(version, s, step, s')
    ensures Kept(After(h, s, step, s'), s')
  {
    hide TaskMove, DownOk, TaskCaused, Noted;
    match step {
      case Spawn(id, task) =>
        FreshCaused(h, id, task);
      case Tick(to) => DownSame(h.marks, s.downUntil, s.now, s'.downUntil, to);
      case SweepCache => DownSame(h.marks, s.downUntil, s.now, s'.downUntil, s.now);
      case Move(id) =>
        MoveKeepsCause(version, s, id, s', h);
        MoveKeepsDown(version, s, id, s', h);
        NotedOnly(h, s.now, id, s.tasks[id], s'.tasks[id]);
        MoveCaused(h, Noted(h, s.now, id, s.tasks[id], s'.tasks[id]), s.tasks, id, s'.tasks[id]);
    }
  }

  lemma FreshCaused(h: History, id: nat, task: Task)
    requires task.pc == LookUp
    ensures TaskCaused(h, id, task)
  {
  }

  // ----- runs -----

  ghost predicate Traced(version: string -> Option<int>, run: seq<State>, steps: seq<Step>) {
    && |run| == |steps| + 1 && Init(run[0])
    && forall k :: 0 <= k < |steps| ==> NextBy(version, run[k], steps[k], run[k + 1])
  }

  /** The monitor's records after `k` steps. */
  ghost function Records(run: seq<State>, steps: seq<Step>, k: nat): History
    requires |run| == |steps| + 1 && k <= |steps|
  {
    if k == 0 then NOTHING else After(Records(run, steps, k - 1), run[k - 1], steps[k - 1], run[k])
  }

  lemma {:induction false} KeptAlways(version: string -> Option<int>, run: seq<State>, steps: seq<Step>, k: nat)
    requires Traced(version, run, steps) && k < |run|
    ensures Kept(Records(run, steps, k), run[k])
  {
    hide NextBy, After;
    if k > 0 {
      KeptAlways(version, run, steps, k - 1);
      hide Kept;
      assert NextBy(version, run[k - 1], steps[k - 1], run[k - 1 + 1]);
      StepKeeps(version, run[k - 1], steps[k - 1], run[k], Records(run, steps, k - 1));
    }
  }

  // ----- passing over a backend -----

  /**
   * Why a backend may be passed over: its last event was a failure of the last five seconds,
   * this task's own fetch from it failed, or no slot was free for this task and it gave up.
   */
  predicate PassedFor(h: History, s: State, id: nat, t: Task)
    requires Busy(t)
  {
    || FailedLately(h.marks, BackendKey(Here(t)), s.now)
    || (TurnOf(id, t) in h.outcomes && h.outcomes[TurnOf(id, t)] == None)
    || TurnOf(id, t) in h.refused
  }

  lemma MovePasses(version: string -> Option<int>, s: State, id: nat, s': State, h: History)
    requires Kept(h, s) && id in s.tasks && TaskMove(version, s, id, s.tasks[id], s') && id in s'.tasks
    requires s'.tasks[id].i != s.tasks[id].i
    ensures var t := s.tasks[id]; Busy(t) && s'.tasks[id] == Failover(t) && PassedFor(h, s, id, t)
  {
    hide Lookup, AfterGet, Acquire, Release, PutResult, BackendKey, StatusKey, AfterDownCheck, LastMark, Down;
    var t := s.tasks[id];
    assert TaskCaused(h, id, t);
    if t.pc.CheckDown? {
      DownMeans(h, s, BackendKey(Here(t)));
    }
  }

  lemma DownMeans(h: History, s: State, key: string)
    requires Kept(h, s)
    ensures Down(s.downUntil, key, s.now) <==> FailedLately(h.marks, key, s.now)
  {
  }

  /** A task stays the task of its route, host and backends, and its turns only go up, each for a cause. */
  lemma StepPasses(version: string -> Option<int>, s: State, step: Step, s': State, h: History, id: nat)
    requires Kept(h, s) && NextBy(version, s, step, s') && id in s.tasks
    ensures id in s'.tasks && s'.tasks[id].backends == s.tasks[id].backends
    ensures s'.tasks[id].i != s.tasks[id].i ==> Busy(s.tasks[id]) && s'.tasks[id].i == s.tasks[id].i + 1 && PassedFor(h, s, id, s.tasks[id])
  {
    hide TaskMove, TaskCaused, PassedFor, DownOk, CausedAfter;
    if step.Move? {
      MoveKeepsCause(version, s, step.mover, s', h);
      if step.mover == id && s'.tasks[id].i != s.tasks[id].i {
        MovePasses(version, s, id, s', h);
      }
    }
  }

  /** At moment `m` of the run the task stood at its backend `j`, and had a cause to pass it over. */
  ghost predicate PassedAt(run: seq<State>, steps: seq<Step>, m: nat, id: nat, j: nat)
    requires |run| == |steps| + 1 && m <= |steps|
  {
    && id in run[m].tasks && run[m].tasks[id].i == j && Busy(run[m].tasks[id])
    && PassedFor(Records(run, steps, m), run[m], id, run[m].tasks[id])
  }

  /** In every run, each backend a task has left behind was passed over for a cause. */
  lemma {:induction false} PassedOverForCause(version: string -> Option<int>, run: seq<State>, steps: seq<Step>, k: nat, id: nat, j: nat)
    requires Traced(version, run, steps) && k < |run| && id in run[k].tasks && j < run[k].tasks[id].i
    ensures exists m: nat :: m < k && PassedAt(run, steps, m, id, j)
    decreases k
  {
    hide PassedFor, Records, NextBy, Kept;
    assert k > 0;
    var s, s', h := run[k - 1], run[k], Records(run, steps, k - 1);
    assert NextBy(version, s, steps[k - 1], run[k - 1 + 1]);
    KeptAlways(version, run, steps, k - 1);
    if id in s.tasks {
      StepPasses(version, s, steps[k - 1], s', h, id);
      if s.tasks[id].i == j {
        assert PassedAt(run, steps, k - 1, id, j);
      } else {
        PassedOverForCause(version, run, steps, k - 1, id, j);
      }
    } else {
      NewTask(version, s, steps[k - 1], s', h, id);
    }
  }

  lemma NewTask(version: string -> Option<int>, s: State, step: Step, s': State, h: History, id: nat)
    requires Kept(h, s) && NextBy(version, s, step, s') && id !in s.tasks && id in s'.tasks
    ensures s'.tasks[id].i == 0 && s'.tasks[id].pc == LookUp
  {
    hide TaskMove, TaskCaused, DownOk, CausedAfter;
    if step.Move? {
      MoveKeepsCause(version, s, step.mover, s', h);
    }
  }

  /** A task that ends without an answer has passed over all of its backends. */
  lemma FinishedPassedAll(version: string -> Option<int>, run: seq<State>, steps: seq<Step>, k: nat, id: nat, j: nat)
    requires Traced(version, run, steps) && k < |run| && id in run[k].tasks && run[k].tasks[id].pc.Finished?
    requires j < |run[k].tasks[id].backends|
    ensures exists m: nat :: m < k && PassedAt(run, steps, m, id, j)
  {
    KeptAlways(version, run, steps, k);
    assert TaskCaused(Records(run, steps, k), id, run[k].tasks[id]);
    hide PassedAt, Traced, Kept;
    PassedOverForCause(version, run, steps, k, id, j);
  }

  // ----- asking a backend -----

  /** An unexpired response is cached under the key. */
  predicate Cached(s: State, key: string, json: string) {
    key in s.entries && s.entries[key].json == json && s.now <= s.entries[key].expiresAt
  }

  predicate Uncached(s: State, key: string) {
    key in s.entries ==> s.entries[key].expiresAt < s.now
  }

  /** The task has found no cached response of this backend for itself. */
  predicate PastLookup(t: Task) {
    Busy(t) && !t.pc.LookUp? && !t.pc.Answered? && !t.pc.Finished?
  }

  /** And has found the backend not to be down. */
  predicate PastDownCheck(t: Task) {
    PastLookup(t) && !t.pc.CheckDown?
  }

  lemma MoveGoesOn(version: string -> Option<int>, s: State, id: nat, s': State, h: History)
    requires Kept(h, s) && id in s.tasks && TaskMove(version, s, id, s.tasks[id], s') && id in s'.tasks
    ensures var t, t' := s.tasks[id], s'.tasks[id];
            && (PastLookup(t') ==> t'.i == t.i && (PastLookup(t) || (Busy(t) && Uncached(s, ResponseKey(t)))))
            && (PastDownCheck(t') ==>
                t'.i == t.i && (PastDownCheck(t) || (Busy(t) && !FailedLately(h.marks, BackendKey(Here(t)), s.now))))
  {
    hide AfterGet, Acquire, Release, PutResult, BackendKey, StatusKey, AfterDownCheck, LastMark, Down, FailedLately;
    var t := s.tasks[id];
    if t.pc.CheckDown? {
      DownMeans(h, s, BackendKey(Here(t)));
    }
    hide Kept;
  }

  /** At moment `m` the task stood at its backend `j`, and no unexpired response was cached for it. */
  ghost predicate MissedAt(run: seq<State>, m: nat, id: nat, j: nat)
    requires m < |run|
  {
    && id in run[m].tasks && run[m].tasks[id].i == j && Busy(run[m].tasks[id])
    && Uncached(run[m], ResponseKey(run[m].tasks[id]))
  }

  /** At moment `m` it stood there, and the backend's last event was no failure of the last five seconds. */
  ghost predicate UpAt(run: seq<State>, steps: seq<Step>, m: nat, id: nat, j: nat)
    requires |run| == |steps| + 1 && m <= |steps|
  {
    && id in run[m].tasks && run[m].tasks[id].i == j && Busy(run[m].tasks[id])
    && !FailedLately(Records(run, steps, m).marks, BackendKey(Here(run[m].tasks[id])), run[m].now)
  }

  lemma StepGoesOn(version: string -> Option<int>, s: State, step: Step, s': State, h: History, id: nat)
    requires Kept(h, s) && NextBy(version, s, step, s') && id in s'.tasks && PastLookup(s'.tasks[id])
    ensures id in s.tasks
    ensures var t, t' := s.tasks[id], s'.tasks[id];
            && t'.i == t.i && (PastLookup(t) || (Busy(t) && Uncached(s, ResponseKey(t))))
            && (PastDownCheck(t') ==> PastDownCheck(t) || (Busy(t) && !FailedLately(h.marks, BackendKey(Here(t)), s.now)))
  {
    hide TaskMove, TaskCaused, DownOk, CausedAfter, FailedLately, Uncached, ResponseKey, BackendKey;
    if id !in s.tasks {
      NewTask(version, s, step, s', h, id);
    } else if step.Move? {
      MoveKeepsCause(version, s, step.mover, s', h);
      if step.mover == id {
        MoveGoesOn(version, s, id, s', h);
      }
    }
  }

  /**
   * In every run, a task that has gone on to its backend, to the point of dialling it, found no
   * unexpired response cached and, unless it is about to check, the backend not known to be down.
   */
  lemma {:induction false} AskedForCause(version: string -> Option<int>, run: seq<State>, steps: seq<Step>, k: nat, id: nat)
    requires Traced(version, run, steps) && k < |run| && id in run[k].tasks && PastLookup(run[k].tasks[id])
    ensures exists m: nat :: m < k && MissedAt(run, m, id, run[k].tasks[id].i)
    ensures PastDownCheck(run[k].tasks[id]) ==> exists m: nat :: m < k && UpAt(run, steps, m, id, run[k].tasks[id].i)
    decreases k
  {
    hide Records, FailedLately, Uncached, ResponseKey, BackendKey;
    assert k > 0;
    var s, s', h := run[k - 1], run[k], Records(run, steps, k - 1);
    assert NextBy(version, s, steps[k - 1], run[k - 1 + 1]);
    KeptAlways(version, run, steps, k - 1);
    StepGoesOn(version, s, steps[k - 1], s', h, id);
    hide NextBy, Kept;
    var t := s.tasks[id];
    if PastLookup(t) {
      AskedForCause(version, run, steps, k - 1, id);
    } else {
      assert MissedAt(run, k - 1, id, t.i);
    }
    if PastDownCheck(s'.tasks[id]) && !PastDownCheck(t) {
      assert UpAt(run, steps, k - 1, id, t.i);
    }
  }

  // ----- waiting for a slot -----

  predicate Waiting(t: Task) {
    t.pc.Polling? || t.pc.PollDial?
  }

  /** The backend's last known response is of no use to the task: none, expired, or for another version. */
  predicate NoneUsable(version: string -> Option<int>, s: State, t: Task)
    requires Busy(t)
  {
    var key := BackendKey(Here(t));
    key in s.entries ==> s.entries[key].expiresAt < s.now || version(s.entries[key].json) != Some(t.protocol)
  }

  lemma EarlyDoesNotWait(version: string -> Option<int>, s: State, id: nat, s': State)
    requires id in s.tasks && TaskMove(version, s, id, s.tasks[id], s') && id in s'.tasks
    requires var pc := s.tasks[id].pc; pc.LookUp? || pc.CheckDown? || pc.TryDial?
    ensures !Waiting(s'.tasks[id])
  {
    hide AfterGet, Lookup, Acquire, Release, PutResult, BackendKey, StatusKey, AfterDownCheck, Down;
  }

  lemma LateDoesNotWait(version: string -> Option<int>, s: State, id: nat, s': State)
    requires id in s.tasks && TaskMove(version, s, id, s.tasks[id], s') && id in s'.tasks
    requires var t := s.tasks[id]; !t.pc.LookUp? && !t.pc.CheckDown? && !t.pc.TryDial? && !t.pc.LastKnown? && !Waiting(t)
    ensures !Waiting(s'.tasks[id])
  {
    hide AfterGet, Lookup, Acquire, Release, PutResult, BackendKey, StatusKey, AfterDownCheck, Down;
  }

  lemma WaitsFrom(version: string -> Option<int>, s: State, id: nat, s': State)
    requires id in s.tasks && TaskMove(version, s, id, s.tasks[id], s') && id in s'.tasks && Waiting(s'.tasks[id])
    ensures var t := s.tasks[id]; Busy(t) && s'.tasks[id].i == t.i && (t.pc.LastKnown? || Waiting(t))
  {
    hide TaskMove;
    var t := s.tasks[id];
    if t.pc.LookUp? || t.pc.CheckDown? || t.pc.TryDial? {
      EarlyDoesNotWait(version, s, id, s');
    } else if t.pc.LastKnown? || Waiting(t) {
      WaitingStays(version, s, id, s');
    } else {
      LateDoesNotWait(version, s, id, s');
    }
  }

  lemma WaitingStays(version: string -> Option<int>, s: State, id: nat, s': State)
    requires id in s.tasks && TaskMove(version, s, id, s.tasks[id], s') && id in s'.tasks && Waiting(s'.tasks[id])
    requires s.tasks[id].pc.LastKnown? || Waiting(s.tasks[id])
    ensures Busy(s.tasks[id]) && s'.tasks[id].i == s.tasks[id].i
  {
    hide AfterGet, Lookup, Acquire, Release, PutResult, BackendKey, StatusKey, AfterDownCheck, Down;
  }

  lemma LastKnownWaits(version: string -> Option<int>, s: State, id: nat, s': State)
    requires id in s.tasks && s.tasks[id].pc.LastKnown? && Busy(s.tasks[id])
    requires LastKnownMove(version, s, id, s.tasks[id], s') && id in s'.tasks && Waiting(s'.tasks[id])
    ensures NoneUsable(version, s, s.tasks[id]) && s'.tasks[id].pc.Polling?
  {
    hide AfterGet, BackendKey;
  }

  lemma PollingWaits(s: State, id: nat, s': State)
    requires id in s.tasks && s.tasks[id].pc.Polling? && Busy(s.tasks[id])
    requires PollingMove(s, id, s.tasks[id], s') && id in s'.tasks && s'.tasks[id].pc.PollDial?
    ensures Uncached(s, ResponseKey(s.tasks[id]))
  {
    hide AfterGet, StatusKey;
  }

  /** How a task comes to wait, and to try again: it could not use the last known response, or its own was still not cached. */
  lemma MoveWaits(version: string -> Option<int>, s: State, id: nat, s': State)
    requires id in s.tasks && TaskMove(version, s, id, s.tasks[id], s') && id in s'.tasks && Waiting(s'.tasks[id])
    ensures var t, t' := s.tasks[id], s'.tasks[id];
            && Busy(t) && t'.i == t.i && (Waiting(t) || NoneUsable(version, s, t))
            && (t'.pc.PollDial? ==> Uncached(s, ResponseKey(t)))
  {
    WaitsFrom(version, s, id, s');
    hide LastKnownMove, PollingMove, LookUpMove, FetchMove, CheckDownMove, Acquire, NoneUsable, Uncached, ResponseKey;
    var t := s.tasks[id];
    if t.pc.LastKnown? {
      LastKnownWaits(version, s, id, s');
    } else if t.pc.Polling? && s'.tasks[id].pc.PollDial? {
      PollingWaits(s, id, s');
    }
  }

  lemma StepWaits(version: string -> Option<int>, s: State, step: Step, s': State, h: History, id: nat)
    requires Kept(h, s) && NextBy(version, s, step, s') && id in s'.tasks && Waiting(s'.tasks[id])
    ensures id in s.tasks
    ensures var t, t' := s.tasks[id], s'.tasks[id];
            t' == t || (Busy(t) && t'.i == t.i && (Waiting(t) || NoneUsable(version, s, t))
                        && (t'.pc.PollDial? ==> Uncached(s, ResponseKey(t))))
  {
    hide TaskMove, TaskCaused, DownOk, CausedAfter, Uncached, NoneUsable, ResponseKey;
    if id !in s.tasks {
      NewTask(version, s, step, s', h, id);
    } else if step.Move? {
      MoveKeepsCause(version, s, step.mover, s', h);
      if step.mover == id {
        MoveWaits(version, s, id, s');
      }
    }
  }

  /** At moment `m` the task stood at its backend `j` and could not use the last known response. */
  ghost predicate UselessAt(version: string -> Option<int>, run: seq<State>, m: nat, id: nat, j: nat)
    requires m < |run|
  {
    id in run[m].tasks && run[m].tasks[id].i == j && Busy(run[m].tasks[id]) && NoneUsable(version, run[m], run[m].tasks[id])
  }

  /** In every run, a task waits for a slot only after it could not use the backend's last known response. */
  lemma {:induction false} WaitedForCause(version: string -> Option<int>, run: seq<State>, steps: seq<Step>, k: nat, id: nat)
    requires Traced(version, run, steps) && k < |run| && id in run[k].tasks && Waiting(run[k].tasks[id])
    ensures exists m: nat :: m < k && UselessAt(version, run, m, id, run[k].tasks[id].i)
    decreases k
  {
    hide Records, NextBy, Kept, NoneUsable, Uncached, ResponseKey;
    assert k > 0;
    var s, s', h := run[k - 1], run[k], Records(run, steps, k - 1);
    assert NextBy(version, s, steps[k - 1], run[k - 1 + 1]);
    KeptAlways(version, run, steps, k - 1);
    StepWaits(version, s, steps[k - 1], s', h, id);
    if Waiting(s.tasks[id]) {
      WaitedForCause(version, run, steps, k - 1, id);
    } else {
      assert UselessAt(version, run, k - 1, id, s'.tasks[id].i);
    }
  }

  // ----- answering -----

  /** A response may be answered with: cached for the task, last known with its version, or its own fetch's result. */
  predicate AnswerFor(version: string -> Option<int>, h: History, s: State, id: nat, t: Task, json: string)
    requires Busy(t)
  {
    || Cached(s, ResponseKey(t), json)
    || (Cached(s, BackendKey(Here(t)), json) && version(json) == Some(t.protocol))
    || (TurnOf(id, t) in h.outcomes && h.outcomes[TurnOf(id, t)] == Some(json))
  }

  lemma AnswersFrom(version: string -> Option<int>, s: State, id: nat, s': State)
    requires id in s.tasks && TaskMove(version, s, id, s.tasks[id], s') && id in s'.tasks && s'.tasks[id].pc.Answered?
    ensures var t := s.tasks[id];
            && Busy(t) && s'.tasks[id].i == t.i && (t.pc.LookUp? || t.pc.LastKnown? || t.pc.Polling? || t.pc.PutLastKnown?)
            && (t.pc.PutLastKnown? ==> s'.tasks[id].pc.json == t.pc.json)
  {
    hide AfterGet, Lookup, Acquire, Release, PutResult, BackendKey, StatusKey, AfterDownCheck, Down;
  }

  lemma LookupAnswers(version: string -> Option<int>, s: State, id: nat, s': State)
    requires id in s.tasks && Busy(s.tasks[id]) && id in s'.tasks && s'.tasks[id].pc.Answered?
    requires var t := s.tasks[id];
             || LookUpMove(s, id, t, s') || LastKnownMove(version, s, id, t, s') || (t.pc.Polling? && PollingMove(s, id, t, s'))
    ensures var t, json := s.tasks[id], s'.tasks[id].pc.json;
            Cached(s, ResponseKey(t), json) || (Cached(s, BackendKey(Here(t)), json) && version(json) == Some(t.protocol))
  {
    hide AfterGet, BackendKey, StatusKey;
  }

  lemma MoveAnswers(version: string -> Option<int>, s: State, id: nat, s': State, h: History)
    requires Kept(h, s) && id in s.tasks && TaskMove(version, s, id, s.tasks[id], s') && id in s'.tasks
    requires s'.tasks[id].pc.Answered?
    ensures var t := s.tasks[id]; Busy(t) && s'.tasks[id].i == t.i && AnswerFor(version, h, s, id, t, s'.tasks[id].pc.json)
  {
    AnswersFrom(version, s, id, s');
    assert TaskCaused(h, id, s.tasks[id]);
    hide LastKnownMove, PollingMove, LookUpMove, FetchMove, CheckDownMove, PutMove, Acquire, DownOk, Cached, ResponseKey, BackendKey;
    if !s.tasks[id].pc.PutLastKnown? {
      LookupAnswers(version, s, id, s');
    }
  }

  ghost predicate AnsweredAt(version: string -> Option<int>, run: seq<State>, steps: seq<Step>, m: nat, id: nat, j: nat, json: string)
    requires |run| == |steps| + 1 && m <= |steps|
  {
    && id in run[m].tasks && run[m].tasks[id].i == j && Busy(run[m].tasks[id])
    && AnswerFor(version, Records(run, steps, m), run[m], id, run[m].tasks[id], json)
  }

  lemma StepAnswers(version: string -> Option<int>, s: State, step: Step, s': State, h: History, id: nat)
    requires Kept(h, s) && NextBy(version, s, step, s') && id in s'.tasks && s'.tasks[id].pc.Answered?
    ensures id in s.tasks
    ensures var t, t' := s.tasks[id], s'.tasks[id];
            t' == t || (Busy(t) && t'.i == t.i && AnswerFor(version, h, s, id, t, t'.pc.json))
  {
    hide TaskMove, TaskCaused, DownOk, CausedAfter, AnswerFor;
    if id !in s.tasks {
      NewTask(version, s, step, s', h, id);
    } else if step.Move? {
      MoveKeepsCause(version, s, step.mover, s', h);
      if step.mover == id {
        MoveAnswers(version, s, id, s', h);
      }
    }
  }

  /** In every run, an answer was cached and unexpired at the moment it was taken, or is the task's own fetch's result. */
  lemma {:induction false} AnsweredForCause(version: string -> Option<int>, run: seq<State>, steps: seq<Step>, k: nat, id: nat)
    requires Traced(version, run, steps) && k < |run| && id in run[k].tasks && run[k].tasks[id].pc.Answered?
    ensures var t := run[k].tasks[id];
            exists m: nat :: m < k && AnsweredAt(version, run, steps, m, id, t.i, t.pc.json)
    decreases k
  {
    hide Records, AnswerFor;
    assert k > 0;
    var s, s', h := run[k - 1], run[k], Records(run, steps, k - 1);
    assert NextBy(version, s, steps[k - 1], run[k - 1 + 1]);
    KeptAlways(version, run, steps, k - 1);
    StepAnswers(version, s, steps[k - 1], s', h, id);
    hide NextBy, Kept;
    if s'.tasks[id] == s.tasks[id] {
      AnsweredForCause(version, run, steps, k - 1, id);
    } else {
      assert AnsweredAt(version, run, steps, k - 1, id, s'.tasks[id].i, s'.tasks[id].pc.json);
    }
  }

  // ----- refused slots -----

  /** The tasks that hold a slot of the backend. */
  ghost function Dialling(s: State, slot: Slot): set<nat> {
    set id | id in s.tasks && Holding(s.tasks[id]) && SlotOf(s.tasks[id]) == slot
  }

  lemma MoveRefused(version: string -> Option<int>, s: State, id: nat, s': State, h: History)
    requires Inv(version, s) && id in s.tasks && TaskMove(version, s, id, s.tasks[id], s') && id in s'.tasks
    requires var t := s.tasks[id]; Noted(h, s.now, id, t, s'.tasks[id]).refused != h.refused
    ensures var t := s.tasks[id]; Busy(t) && |Dialling(s, SlotOf(t))| == 8
    ensures Noted(h, s.now, id, s.tasks[id], s'.tasks[id]).refused == h.refused + {TurnOf(id, s.tasks[id])}
  {
    hide Lookup, AfterGet, Release, PutResult, BackendKey, StatusKey, AfterDownCheck, Down, AllSourced, TaskOk, Acquire;
    var t := s.tasks[id];
    assert t.pc.TryDial? || t.pc.PollDial?;
    assert id !in Holders(s.tasks);
    assert HoldersOf(Holders(s.tasks), SlotOf(t)) == Dialling(s, SlotOf(t));
    AcquireKeepsExact(s.dials, Holders(s.tasks), id, SlotOf(t), MAX_CONCURRENT_STATUS_DIALS);
    FullAtEight(s.dials, Holders(s.tasks), SlotOf(t));
  }

  lemma FullAtEight(dials: map<Slot, int>, holders: map<nat, Slot>, slot: Slot)
    requires Exact(dials, holders) && Within(dials, MAX_CONCURRENT_STATUS_DIALS)
    ensures |HoldersOf(holders, slot)| <= 8
  {
  }

  lemma TracedInv(version: string -> Option<int>, run: seq<State>, steps: seq<Step>, k: nat)
    requires Traced(version, run, steps) && k < |run|
    ensures Inv(version, run[k])
  {
    hide NextBy, Inv;
    forall j | 0 <= j < |run| - 1 ensures Next(version, run[j], run[j + 1]) {
      assert NextBy(version, run[j], steps[j], run[j + 1]);
    }
    InvAlways(version, run, k);
  }

  /** At moment `m` the task stood at its backend `j`, and eight tasks of its route were dialling that. */
  ghost predicate FullAt(run: seq<State>, m: nat, id: nat, j: nat)
    requires m < |run|
  {
    && id in run[m].tasks && run[m].tasks[id].i == j && Busy(run[m].tasks[id])
    && |Dialling(run[m], SlotOf(run[m].tasks[id]))| == 8
  }

  lemma RecordsGrow(run: seq<State>, steps: seq<Step>, k: nat)
    requires |run| == |steps| + 1 && k <= |steps|
    ensures if k == 0 then Records(run, steps, k).refused == {}
            else Records(run, steps, k) == After(Records(run, steps, k - 1), run[k - 1], steps[k - 1], run[k])
  {
    hide After;
  }

  lemma StepRefused(version: string -> Option<int>, s: State, step: Step, s': State, h: History, turn: Turn)
    requires Inv(version, s) && NextBy(version, s, step, s') && turn !in h.refused && turn in After(h, s, step, s').refused
    ensures turn.id in s.tasks && s.tasks[turn.id].i == turn.i && Busy(s.tasks[turn.id])
    ensures |Dialling(s, SlotOf(s.tasks[turn.id]))| == 8
  {
    hide Inv, TaskMove, Noted, Dialling;
    MoveRefused(version, s, step.mover, s', h);
  }

  lemma RefusedAt(version: string -> Option<int>, run: seq<State>, steps: seq<Step>, k: nat, turn: Turn)
    requires Traced(version, run, steps) && k < |steps|
    requires turn !in Records(run, steps, k).refused && turn in Records(run, steps, k + 1).refused
    ensures FullAt(run, k, turn.id, turn.i)
  {
    RecordsGrow(run, steps, k + 1);
    hide Inv, NextBy, After, Dialling, Records;
    assert NextBy(version, run[k], steps[k], run[k + 1]);
    TracedInv(version, run, steps, k);
    hide Traced;
    StepRefused(version, run[k], steps[k], run[k + 1], Records(run, steps, k), turn);
  }

  /** In every run, a task was refused a slot only while all eight were taken. */
  lemma {:induction false} RefusedWhenFull(version: string -> Option<int>, run: seq<State>, steps: seq<Step>, k: nat, turn: Turn)
    requires Traced(version, run, steps) && k < |run| && turn in Records(run, steps, k).refused
    ensures exists m: nat :: m < k && FullAt(run, m, turn.id, turn.i)
    decreases k
  {
    hide NextBy, After, Records, FullAt;
    RecordsGrow(run, steps, k);
    if turn in Records(run, steps, k - 1).refused {
      RefusedWhenFull(version, run, steps, k - 1, turn);
    } else {
      RefusedAt(version, run, steps, k - 1, turn);
    }
  }
}
