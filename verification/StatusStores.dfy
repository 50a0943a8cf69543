/**
 * What `handle_status` (`src/net/server.rs`) leaves in the ping cache: a response it fetched is
 * stored under both of its keys before it is answered.
 */
module StatusStores {
  import opened Bytes
  import opened SlotCounts
  import opened StatusKeys
  import opened PingCaches
  import opened StatusPing
  import opened StatusCauses

  /** The move at `m` stored the response under the key, for the TTL of the task's route. */
  ghost predicate StoredAt(run: seq<State>, m: nat, id: nat, key: string, json: string)
    requires m + 1 < |run|
  {
    id in run[m].tasks && PutResult(run[m].entries, key, json, run[m].tasks[id].ttl, run[m].now, run[m + 1].entries)
  }

  /** The task is between storing a response for its own host and protocol and as last known. */
  predicate HalfStored(t: Task) {
    t.pc.ClearLastKnown? || t.pc.PutLastKnown?
  }

  /** The task has not dialled its current backend yet. */
  predicate BeforeDial(t: Task) {
    t.pc.LookUp? || t.pc.CheckDown? || t.pc.TryDial? || t.pc.LastKnown? || t.pc.Polling? || t.pc.PollDial?
  }

  /** How a task comes to have stored the first copy. */
  ghost predicate FirstCopy(s: State, t: Task, t': Task, s': State) {
    HalfStored(t') ==>
      && Busy(t) && t'.i == t.i
      && ((HalfStored(t) && t'.pc.json == t.pc.json)
          || PutResult(s.entries, ResponseKey(t), t'.pc.json, t.ttl, s.now, s'.entries))
  }

  /** How a task comes to answer: without having dialled, or by storing the second copy. */
  ghost predicate SecondCopy(s: State, t: Task, t': Task, s': State) {
    t'.pc.Answered? ==>
      && Busy(t) && t'.i == t.i
      && (BeforeDial(t)
          || (HalfStored(t) && t.pc.json == t'.pc.json
              && PutResult(s.entries, BackendKey(Here(t)), t'.pc.json, t.ttl, s.now, s'.entries)))
  }

  ghost predicate Forward(t: Task, t': Task) {
    t'.i >= t.i && (BeforeDial(t') && t'.i == t.i ==> BeforeDial(t))
  }

  ghost predicate Stores(s: State, t: Task, t': Task, s': State) {
    FirstCopy(s, t, t', s') && SecondCopy(s, t, t', s') && Forward(t, t')
  }

  lemma LookStores(version: string -> Option<int>, s: State, id: nat, s': State)
    requires id in s.tasks && TaskMove(version, s, id, s.tasks[id], s') && id in s'.tasks
    requires var pc := s.tasks[id].pc; pc.LookUp? || pc.LastKnown?
    ensures Stores(s, s.tasks[id], s'.tasks[id], s')
  {
    hide AfterGet, Lookup, Acquire, Release, PutResult, BackendKey, StatusKey, AfterDownCheck, Down;
  }

  lemma PollStores(version: string -> Option<int>, s: State, id: nat, s': State)
    requires id in s.tasks && TaskMove(version, s, id, s.tasks[id], s') && id in s'.tasks
    requires var pc := s.tasks[id].pc; pc.Polling? || pc.CheckDown?
    ensures Stores(s, s.tasks[id], s'.tasks[id], s')
  {
    hide AfterGet, Lookup, Acquire, Release, PutResult, BackendKey, StatusKey, AfterDownCheck, Down;
  }

  lemma SlotStores(version: string -> Option<int>, s: State, id: nat, s': State)
    requires id in s.tasks && TaskMove(version, s, id, s.tasks[id], s') && id in s'.tasks
    requires var pc := s.tasks[id].pc; pc.TryDial? || pc.PollDial?
    ensures Stores(s, s.tasks[id], s'.tasks[id], s')
  {
    hide AfterGet, Lookup, Acquire, Release, PutResult, BackendKey, StatusKey, AfterDownCheck, Down;
  }

  lemma FetchStores(version: string -> Option<int>, s: State, id: nat, s': State)
    requires id in s.tasks && TaskMove(version, s, id, s.tasks[id], s') && id in s'.tasks
    requires var pc := s.tasks[id].pc; pc.Dialing? || pc.EndDial?
    ensures Stores(s, s.tasks[id], s'.tasks[id], s')
  {
    hide AfterGet, Lookup, Acquire, Release, PutResult, BackendKey, StatusKey, AfterDownCheck, Down;
  }

  lemma MarkStores(version: string -> Option<int>, s: State, id: nat, s': State)
    requires id in s.tasks && TaskMove(version, s, id, s.tasks[id], s') && id in s'.tasks
    requires var pc := s.tasks[id].pc; pc.NoteDown? || pc.ClearResponse? || pc.ClearLastKnown?
    ensures Stores(s, s.tasks[id], s'.tasks[id], s')
  {
    hide AfterGet, Lookup, Acquire, Release, PutResult, BackendKey, StatusKey, AfterDownCheck, Down;
  }

  lemma PutStores(version: string -> Option<int>, s: State, id: nat, s': State)
    requires id in s.tasks && TaskMove(version, s, id, s.tasks[id], s') && id in s'.tasks
    requires var pc := s.tasks[id].pc; pc.PutResponse? || pc.PutLastKnown?
    ensures Stores(s, s.tasks[id], s'.tasks[id], s')
  {
    hide AfterGet, Lookup, Acquire, Release, PutResult, BackendKey, StatusKey, AfterDownCheck, Down;
  }

  lemma MoveStores(version: string -> Option<int>, s: State, id: nat, s': State)
    requires id in s.tasks && TaskMove(version, s, id, s.tasks[id], s') && id in s'.tasks
    ensures Stores(s, s.tasks[id], s'.tasks[id], s')
  {
    var pc := s.tasks[id].pc;
    assert !pc.Answered? && !pc.Finished?;
    hide TaskMove, Stores;
    if pc.LookUp? || pc.LastKnown? {
      LookStores(version, s, id, s');
    } else if pc.Polling? || pc.CheckDown? {
      PollStores(version, s, id, s');
    } else if pc.TryDial? || pc.PollDial? {
      SlotStores(version, s, id, s');
    } else if pc.Dialing? || pc.EndDial? {
      FetchStores(version, s, id, s');
    } else if pc.PutResponse? || pc.PutLastKnown? {
      PutStores(version, s, id, s');
    } else {
      MarkStores(version, s, id, s');
    }
  }

  /** What one step of anybody means for a task: nothing, or its own move. */
  lemma StepStores(version: string -> Option<int>, s: State, step: Step, s': State, h: History, id: nat)
    requires Kept(h, s) && NextBy(version, s, step, s') && id in s.tasks
    ensures id in s'.tasks
    ensures var t, t' := s.tasks[id], s'.tasks[id];
            && t'.host == t.host && t'.protocol == t.protocol && t'.backends == t.backends && t'.ttl == t.ttl
            && (t' == t || Stores(s, t, t', s'))
  {
    hide TaskMove, TaskCaused, DownOk, CausedAfter, Stores;
    if step.Move? {
      MoveKeepsCause(version, s, step.mover, s', h);
      if step.mover == id {
        MoveStores(version, s, id, s');
      }
    }
  }

  lemma {:induction false} FirstCopyStored(version: string -> Option<int>, run: seq<State>, steps: seq<Step>, k: nat, id: nat)
    requires Traced(version, run, steps) && k < |run| && id in run[k].tasks && HalfStored(run[k].tasks[id])
    ensures var t := run[k].tasks[id];
            Busy(t) && exists m: nat :: m < k && StoredAt(run, m, id, ResponseKey(t), t.pc.json)
    decreases k
  {
    hide Records, PutResult, StatusKey, NextBy, Kept, SecondCopy, Forward;
    assert k > 0;
    var s, s', h := run[k - 1], run[k], Records(run, steps, k - 1);
    assert NextBy(version, s, steps[k - 1], run[k - 1 + 1]);
    KeptAlways(version, run, steps, k - 1);
    if id !in s.tasks {
      NewTask(version, s, steps[k - 1], s', h, id);
    } else {
      StepStores(version, s, steps[k - 1], s', h, id);
      hide Traced;
      if HalfStored(s.tasks[id]) && s.tasks[id].pc.json == s'.tasks[id].pc.json {
        FirstCopyStored(version, run, steps, k - 1, id);
        assert ResponseKey(s.tasks[id]) == ResponseKey(s'.tasks[id]);
      } else {
        assert ResponseKey(s.tasks[id]) == ResponseKey(s'.tasks[id]);
        assert StoredAt(run, k - 1, id, ResponseKey(s.tasks[id]), s'.tasks[id].pc.json);
      }
    }
  }

  /** A task that has not dialled its current backend has stood there since it came to it. */
  lemma {:induction false} NotDialledYet(version: string -> Option<int>, run: seq<State>, steps: seq<Step>, k: nat, id: nat, m: nat)
    requires Traced(version, run, steps) && m <= k < |run| && id in run[m].tasks
    ensures id in run[k].tasks && run[m].tasks[id].i <= run[k].tasks[id].i
    ensures BeforeDial(run[k].tasks[id]) && run[m].tasks[id].i == run[k].tasks[id].i ==> BeforeDial(run[m].tasks[id])
    decreases k
  {
    hide Records, NextBy, Kept, FirstCopy, SecondCopy;
    if m < k {
      NotDialledYet(version, run, steps, k - 1, id, m);
      assert NextBy(version, run[k - 1], steps[k - 1], run[k - 1 + 1]);
      KeptAlways(version, run, steps, k - 1);
      StepStores(version, run[k - 1], steps[k - 1], run[k], Records(run, steps, k - 1), id);
    }
  }

  /** The task was dialling the backend it is at now. */
  predicate DialledAt(run: seq<State>, m: nat, id: nat, i: nat)
    requires m < |run|
  {
    id in run[m].tasks && run[m].tasks[id].i == i && run[m].tasks[id].pc.Dialing?
  }

  /**
   * In every run, a task that dialled its backend and was answered had stored that answer
   * before, for its route's TTL, both for its own host and protocol and as last known.
   */
  lemma {:induction false} FetchedIsStored(version: string -> Option<int>, run: seq<State>, steps: seq<Step>, k: nat, id: nat, m: nat)
    requires Traced(version, run, steps) && m < k < |run| && id in run[k].tasks && run[k].tasks[id].pc.Answered?
    requires DialledAt(run, m, id, run[k].tasks[id].i)
    ensures var t := run[k].tasks[id];
            && Busy(t)
            && (exists a: nat :: a < k && StoredAt(run, a, id, ResponseKey(t), t.pc.json))
            && (exists b: nat :: b < k && StoredAt(run, b, id, BackendKey(Here(t)), t.pc.json))
    decreases k
  {
    hide Records, PutResult, StatusKey, BackendKey, NextBy, Kept, FirstCopy, Forward;
    var s, s', h := run[k - 1], run[k], Records(run, steps, k - 1);
    assert NextBy(version, s, steps[k - 1], run[k - 1 + 1]);
    KeptAlways(version, run, steps, k - 1);
    NotDialledYet(version, run, steps, k - 1, id, m);
    StepStores(version, s, steps[k - 1], s', h, id);
    if s'.tasks[id] == s.tasks[id] {
      FetchedIsStored(version, run, steps, k - 1, id, m);
    } else {
      FirstCopyStored(version, run, steps, k - 1, id);
      hide Traced;
      assert ResponseKey(s.tasks[id]) == ResponseKey(s'.tasks[id]);
      assert StoredAt(run, k - 1, id, BackendKey(Here(s.tasks[id])), s'.tasks[id].pc.json);
    }
  }
}
