/**
 * The status ping path of `src/net/server.rs` as interleaved steps of any number of tasks over
 * the shared ping cache and each route's table of in-flight status dials (`src/state.rs`).
 */
module StatusPing {
  import opened Bytes
  import opened StatusKeys
  import opened PingCaches
  import opened SlotCounts

  const MAX_CONCURRENT_STATUS_DIALS := 8

  // ----- the per-route dial table -----

  class RouteRuntime {
    var statusDials: map<Addr, int>

    ghost predicate Valid()
      reads this
    {
      forall a :: a in statusDials ==> statusDials[a] > 0
    }

    constructor ()
      ensures Valid() && statusDials == map[]
    {
      statusDials := map[];
    }

    method TryBeginStatusDial(addr: Addr, max: int) returns (ok: bool)
      requires Valid()
      modifies this
      ensures Valid()
      ensures statusDials == Acquire(old(statusDials), addr, max).table && ok == Acquire(old(statusDials), addr, max).ok
      ensures !ok ==> statusDials == old(statusDials)
    {
      var count := if addr in statusDials then statusDials[addr] else 0;
      statusDials := statusDials[addr := count + 1];
      if statusDials[addr] > max {
        statusDials := statusDials[addr := statusDials[addr] - 1];
        if statusDials[addr] <= 0 {
          statusDials := statusDials - {addr};
        }
        return false;
      }
      return true;
    }

    method EndStatusDial(addr: Addr)
      requires Valid()
      modifies this
      ensures Valid() && statusDials == Release(old(statusDials), addr)
    {
      if addr in statusDials {
        statusDials := statusDials[addr := statusDials[addr] - 1];
        if statusDials[addr] <= 0 {
          statusDials := statusDials - {addr};
        }
      }
    }
  }

  // ----- the machine -----

  /** Where a task stands; each constructor names the next shared access it will make. */
  datatype Pc =
    | LookUp                        // get(response key), or the fallback when no backend is left
    | CheckDown                     // is_known_down(backend key)
    | TryDial                       // try_begin_status_dial
    | LastKnown                     // get(backend key)
    | Polling                       // wait loop: get(response key), or give up waiting
    | PollDial                      // wait loop: try_begin_status_dial
    | Dialing                       // holding a slot, fetching
    | EndDial(result: Option<string>) // holding a slot, end_status_dial
    | ClearResponse(json: string)   // put(response key): forget its down marker
    | PutResponse(json: string)     // put(response key): insert
    | ClearLastKnown(json: string)  // put(backend key): forget its down marker
    | PutLastKnown(json: string)    // put(backend key): insert
    | NoteDown                      // mark_down(backend key)
    | Answered(json: string)
    | Finished                      // fallback served, or connection closed

  /** One status ping; `ttl` is its route's `cache_ping_ttl_millis`. */
  datatype Task = Task(route: nat, host: string, protocol: int, backends: seq<Addr>, ttl: int, i: nat, pc: Pc)

  datatype Slot = Slot(route: nat, addr: Addr)

  /** A response a backend gave when asked as this host and protocol. */
  datatype Fetch = Fetch(addr: Addr, host: string, protocol: int, json: string)

  datatype State = State(
    tasks: map<nat, Task>,
    entries: map<string, Entry>,
    downUntil: map<string, int>,
    dials: map<Slot, int>,
    fetched: set<Fetch>,
    now: int)

  predicate Busy(t: Task) {
    t.i < |t.backends|
  }

  function Here(t: Task): Addr
    requires Busy(t)
  {
    t.backends[t.i]
  }

  function ResponseKey(t: Task): string
    requires Busy(t)
  {
    StatusKey(Here(t), t.host, t.protocol)
  }

  function SlotOf(t: Task): Slot
    requires Busy(t)
  {
    Slot(t.route, Here(t))
  }

  function FetchOf(t: Task, json: string): Fetch
    requires Busy(t)
  {
    Fetch(Here(t), t.host, t.protocol, json)
  }

  /** The loop over backends moves on. */
  function Failover(t: Task): Task {
    t.(i := t.i + 1, pc := LookUp)
  }

  function Goto(s: State, id: nat, t: Task): State {
    s.(tasks := s.tasks[id := t])
  }

  ghost predicate Init(s: State) {
    s.tasks == map[] && s.entries == map[] && s.downUntil == map[] && s.dials == map[] && s.fetched == {}
  }

  datatype Step = Spawn(id: nat, task: Task) | Tick(to: int) | SweepCache | Move(mover: nat)

  /** `version` is `status_protocol`: the `version.protocol` a response text carries, if any. */
  ghost predicate NextBy(version: string -> Option<int>, s: State, step: Step, s': State) {
    match step
    case Spawn(id, task) =>
      && id !in s.tasks && task.pc == LookUp && task.i == 0
      && (forall k :: 0 <= k < |task.backends| ==> Printable(task.backends[k]))
      && s' == Goto(s, id, task)
    case Tick(to) => s.now <= to && s' == s.(now := to)
    case SweepCache =>
      s' == s.(entries := (map k | k in s.entries && s.entries[k].expiresAt >= s.now :: s.entries[k]),
               downUntil := (map k | k in s.downUntil && s.downUntil[k] >= s.now :: s.downUntil[k]))
    case Move(id) => id in s.tasks && TaskMove(version, s, id, s.tasks[id], s')
  }

  ghost predicate Next(version: string -> Option<int>, s: State, s': State) {
    exists step :: NextBy(version, s, step, s')
  }

  ghost predicate TaskMove(version: string -> Option<int>, s: State, id: nat, t: Task, s': State) {
    match t.pc
    case LookUp => LookUpMove(s, id, t, s')
    case CheckDown => Busy(t) && CheckDownMove(s, id, t, s')
    case TryDial => Busy(t) && DialMove(s, id, t, LastKnown, s')
    case LastKnown => Busy(t) && LastKnownMove(version, s, id, t, s')
    case Polling => Busy(t) && PollingMove(s, id, t, s')
    case PollDial => Busy(t) && DialMove(s, id, t, Polling, s')
    case Dialing => Busy(t) && FetchMove(s, id, t, s')
    case EndDial(result) =>
      && Busy(t)
      && s' == Goto(s, id, t.(pc := if result.Some? then ClearResponse(result.value) else NoteDown))
               .(dials := Release(s.dials, SlotOf(t)))
    case ClearResponse(json) =>
      Busy(t) && s' == Goto(s, id, t.(pc := PutResponse(json))).(downUntil := s.downUntil - {ResponseKey(t)})
    case PutResponse(json) => Busy(t) && PutMove(s, id, t, ResponseKey(t), json, ClearLastKnown(json), s')
    case ClearLastKnown(json) =>
      Busy(t) && s' == Goto(s, id, t.(pc := PutLastKnown(json))).(downUntil := s.downUntil - {BackendKey(Here(t))})
    case PutLastKnown(json) => Busy(t) && PutMove(s, id, t, BackendKey(Here(t)), json, Answered(json), s')
    case NoteDown =>
      Busy(t) && s' == Goto(s, id, Failover(t)).(downUntil := s.downUntil[BackendKey(Here(t)) := s.now + FAILURE_TTL])
    case Answered(_) => false
    case Finished => false
  }

  ghost predicate LookUpMove(s: State, id: nat, t: Task, s': State) {
    if !Busy(t) then s' == Goto(s, id, t.(pc := Finished))
    else
      var found := Lookup(s.entries, ResponseKey(t), s.now);
      s' == Goto(s, id, t.(pc := if found.Some? then Answered(found.value) else CheckDown))
            .(entries := AfterGet(s.entries, ResponseKey(t), s.now))
  }

  ghost predicate CheckDownMove(s: State, id: nat, t: Task, s': State)
    requires Busy(t)
  {
    var key := BackendKey(Here(t));
    s' == Goto(s, id, if Down(s.downUntil, key, s.now) then Failover(t) else t.(pc := TryDial))
          .(downUntil := AfterDownCheck(s.downUntil, key, s.now))
  }

  ghost predicate DialMove(s: State, id: nat, t: Task, refused: Pc, s': State)
    requires Busy(t)
  {
    var a := Acquire(s.dials, SlotOf(t), MAX_CONCURRENT_STATUS_DIALS);
    s' == Goto(s, id, t.(pc := if a.ok then Dialing else refused)).(dials := a.table)
  }

  ghost predicate LastKnownMove(version: string -> Option<int>, s: State, id: nat, t: Task, s': State)
    requires Busy(t)
  {
    var key := BackendKey(Here(t));
    var found := Lookup(s.entries, key, s.now);
    var usable := found.Some? && version(found.value) == Some(t.protocol);
    s' == Goto(s, id, t.(pc := if usable then Answered(found.value) else Polling))
          .(entries := AfterGet(s.entries, key, s.now))
  }

  ghost predicate PollingMove(s: State, id: nat, t: Task, s': State)
    requires Busy(t)
  {
    var found := Lookup(s.entries, ResponseKey(t), s.now);
    || s' == Goto(s, id, Failover(t))
    || s' == Goto(s, id, t.(pc := if found.Some? then Answered(found.value) else PollDial))
             .(entries := AfterGet(s.entries, ResponseKey(t), s.now))
  }

  ghost predicate FetchMove(s: State, id: nat, t: Task, s': State)
    requires Busy(t)
  {
    || s' == Goto(s, id, t.(pc := EndDial(None)))
    || exists json :: s' == Goto(s, id, t.(pc := EndDial(Some(json)))).(fetched := s.fetched + {FetchOf(t, json)})
  }

  ghost predicate PutMove(s: State, id: nat, t: Task, key: string, json: string, after: Pc, s': State) {
    && PutResult(s.entries, key, json, t.ttl, s.now, s'.entries)
    && s' == Goto(s, id, t.(pc := after)).(entries := s'.entries)
  }

  // ----- the invariant -----

  predicate Holding(t: Task) {
    (t.pc.Dialing? || t.pc.EndDial?) && Busy(t)
  }

  /** The slot each dialling task holds. */
  ghost function Holders(tasks: map<nat, Task>): map<nat, Slot> {
    map id | id in tasks && Holding(tasks[id]) :: SlotOf(tasks[id])
  }

  /** A cached text was fetched from the backend its key names, as the host and protocol it names. */
  ghost predicate Sourced(fetched: set<Fetch>, key: string, json: string) {
    exists f :: f in fetched && f.json == json && Printable(f.addr) && FetchKey(f, key)
  }

  ghost predicate FetchKey(f: Fetch, key: string) {
    key == BackendKey(f.addr) || key == StatusKey(f.addr, f.host, f.protocol)
  }

  ghost predicate AllSourced(fetched: set<Fetch>, entries: map<string, Entry>) {
    forall k :: k in entries ==> Sourced(fetched, k, entries[k].json)
  }

  /**
   * An answer this client may be shown: fetched from the backend it was asking for, either for
   * the same case-folded host and protocol, or carrying the client's own protocol as its version.
   */
  ghost predicate Legitimate(version: string -> Option<int>, fetched: set<Fetch>, here: Addr, host: string, protocol: int, json: string) {
    exists f :: f in fetched && f.json == json && f.addr == here && RightVersion(version, f, host, protocol)
  }

  ghost predicate RightVersion(version: string -> Option<int>, f: Fetch, host: string, protocol: int) {
    (SameHost(f.host, host) && f.protocol == protocol) || version(f.json) == Some(protocol)
  }

  ghost predicate TaskOk(version: string -> Option<int>, fetched: set<Fetch>, t: Task) {
    && (forall k :: 0 <= k < |t.backends| ==> Printable(t.backends[k]))
    && (Busy(t) || t.pc.LookUp? || t.pc.Finished?)
    && match t.pc
       case EndDial(result) => result.Some? ==> FetchOf(t, result.value) in fetched
       case ClearResponse(json) => FetchOf(t, json) in fetched
       case PutResponse(json) => FetchOf(t, json) in fetched
       case ClearLastKnown(json) => FetchOf(t, json) in fetched
       case PutLastKnown(json) => FetchOf(t, json) in fetched
       case Answered(json) => Legitimate(version, fetched, Here(t), t.host, t.protocol, json)
       case _ => true
  }

  ghost predicate Inv(version: string -> Option<int>, s: State) {
    && (forall id :: id in s.tasks ==> TaskOk(version, s.fetched, s.tasks[id]))
    && AllSourced(s.fetched, s.entries)
    && Exact(s.dials, Holders(s.tasks)) && Within(s.dials, MAX_CONCURRENT_STATUS_DIALS)
  }

  lemma HoldersAfter(tasks: map<nat, Task>, id: nat, t: Task)
    ensures Holders(tasks[id := t]) == if Holding(t) then Holders(tasks)[id := SlotOf(t)] else Holders(tasks) - {id}
  {
  }

  lemma HoldersUnchanged(tasks: map<nat, Task>, id: nat, t: Task)
    requires id in tasks && !Holding(tasks[id]) && !Holding(t)
    ensures id !in Holders(tasks) && Holders(tasks[id := t]) == Holders(tasks)
  {
  }

  lemma AllSourcedMonotone(fetched: set<Fetch>, more: set<Fetch>, entries: map<string, Entry>, fewer: map<string, Entry>)
    requires AllSourced(fetched, entries) && fetched <= more
    requires forall k :: k in fewer ==> k in entries && fewer[k] == entries[k]
    ensures AllSourced(more, fewer)
  {
  }

  /** What a move of one task must keep for the invariant to hold after it. */
  lemma MoveKeepsInv(version: string -> Option<int>, s: State, id: nat, t': Task, s': State)
    requires Inv(version, s) && s'.tasks == s.tasks[id := t'] && s.fetched <= s'.fetched
    requires TaskOk(version, s'.fetched, t') && AllSourced(s'.fetched, s'.entries)
    requires Exact(s'.dials, Holders(s'.tasks)) && Within(s'.dials, MAX_CONCURRENT_STATUS_DIALS)
    ensures Inv(version, s')
  {
  }

  /** Moves that touch neither a slot nor the fetch log, and at most drop cache entries. */
  lemma QuietMove(version: string -> Option<int>, s: State, id: nat, t': Task, s': State)
    requires Inv(version, s) && id in s.tasks && !Holding(s.tasks[id]) && !Holding(t')
    requires s'.tasks == s.tasks[id := t'] && s'.fetched == s.fetched && s'.dials == s.dials
    requires forall k :: k in s'.entries ==> k in s.entries && s'.entries[k] == s.entries[k]
    requires TaskOk(version, s.fetched, t')
    ensures Inv(version, s')
  {
    hide TaskOk;
    HoldersUnchanged(s.tasks, id, t');
    AllSourcedMonotone(s.fetched, s'.fetched, s.entries, s'.entries);
    hide Exact, AllSourced, Holders;
    MoveKeepsInv(version, s, id, t', s');
  }

  /** A response found under this task's own response key is legitimate for it. */
  lemma CachedIsLegitimate(version: string -> Option<int>, s: State, t: Task, json: string)
    requires Inv(version, s) && TaskOk(version, s.fetched, t) && Busy(t)
    requires Lookup(s.entries, ResponseKey(t), s.now) == Some(json)
    ensures Legitimate(version, s.fetched, Here(t), t.host, t.protocol, json)
  {
    hide TaskOk, Exact, Holders, StatusKey, BackendKey;
    var key := ResponseKey(t);
    var f :| f in s.fetched && f.json == json && Printable(f.addr) && FetchKey(f, key);
    assert Printable(Here(t)) by { PrintableHere(version, s.fetched, t); }
    if key == BackendKey(f.addr) {
      StatusKeyIsNoBackendKey(Here(t), t.host, t.protocol, f.addr);
      assert false;
    }
    StatusKeyIff(f.addr, f.host, f.protocol, Here(t), t.host, t.protocol);
    assert f.addr == Here(t) && RightVersion(version, f, t.host, t.protocol);
  }

  lemma PrintableHere(version: string -> Option<int>, fetched: set<Fetch>, t: Task)
    requires TaskOk(version, fetched, t) && Busy(t)
    ensures Printable(Here(t))
  {
  }

  /** A last-known response that carries the client's protocol is legitimate for it. */
  lemma LastKnownIsLegitimate(version: string -> Option<int>, s: State, t: Task, json: string)
    requires Inv(version, s) && TaskOk(version, s.fetched, t) && Busy(t)
    requires Lookup(s.entries, BackendKey(Here(t)), s.now) == Some(json) && version(json) == Some(t.protocol)
    ensures Legitimate(version, s.fetched, Here(t), t.host, t.protocol, json)
  {
    hide TaskOk, Exact, Holders, StatusKey, BackendKey;
    var key := BackendKey(Here(t));
    var f :| f in s.fetched && f.json == json && Printable(f.addr) && FetchKey(f, key);
    if key == StatusKey(f.addr, f.host, f.protocol) {
      PrintableHere(version, s.fetched, t);
      StatusKeyIsNoBackendKey(f.addr, f.host, f.protocol, Here(t));
      assert false;
    }
    BackendKeyInjective(Here(t), f.addr);
    assert f.addr == Here(t) && RightVersion(version, f, t.host, t.protocol);
  }

  lemma SlotMove(version: string -> Option<int>, s: State, id: nat, s': State, refused: Pc)
    requires Inv(version, s) && id in s.tasks && Busy(s.tasks[id]) && !Holding(s.tasks[id])
    requires DialMove(s, id, s.tasks[id], refused, s') && (refused == LastKnown || refused == Polling)
    ensures Inv(version, s')
  {
    hide Exact, AllSourced, Acquire;
    var t := s.tasks[id];
    var a := Acquire(s.dials, SlotOf(t), MAX_CONCURRENT_STATUS_DIALS);
    var t' := t.(pc := if a.ok then Dialing else refused);
    assert TaskOk(version, s.fetched, t') by { assert TaskOk(version, s.fetched, t); }
    hide TaskOk;
    assert id !in Holders(s.tasks);
    AcquireKeepsExact(s.dials, Holders(s.tasks), id, SlotOf(t), MAX_CONCURRENT_STATUS_DIALS);
    if a.ok {
      HoldersAfter(s.tasks, id, t');
    } else {
      HoldersUnchanged(s.tasks, id, t');
    }
    MoveKeepsInv(version, s, id, t', s');
  }

  lemma ReleaseMove(version: string -> Option<int>, s: State, id: nat, t': Task, s': State)
    requires Inv(version, s) && id in s.tasks && Holding(s.tasks[id]) && !Holding(t')
    requires s' == Goto(s, id, t').(dials := Release(s.dials, SlotOf(s.tasks[id])))
    requires TaskOk(version, s.fetched, t')
    ensures Inv(version, s')
  {
    hide TaskOk;
    ReleaseKeepsExact(s.dials, Holders(s.tasks), id, MAX_CONCURRENT_STATUS_DIALS);
    HoldersAfter(s.tasks, id, t');
    hide Exact, AllSourced, Holders, Release;
    MoveKeepsInv(version, s, id, t', s');
  }

  lemma FetchedTaskOk(version: string -> Option<int>, s: State, id: nat, s': State)
    requires id in s.tasks && Busy(s.tasks[id]) && s.tasks[id].pc.Dialing? && TaskOk(version, s.fetched, s.tasks[id])
    requires FetchMove(s, id, s.tasks[id], s')
    ensures id in s'.tasks && s'.tasks == s.tasks[id := s'.tasks[id]] && s.fetched <= s'.fetched
    ensures s'.entries == s.entries && s'.dials == s.dials
    ensures Holding(s'.tasks[id]) && SlotOf(s'.tasks[id]) == SlotOf(s.tasks[id]) && TaskOk(version, s'.fetched, s'.tasks[id])
  {
    hide Legitimate;
  }

  lemma StillHolding(tasks: map<nat, Task>, id: nat, t: Task)
    requires id in tasks && Holding(tasks[id]) && Holding(t) && SlotOf(t) == SlotOf(tasks[id])
    ensures Holders(tasks[id := t]) == Holders(tasks)
  {
    HoldersAfter(tasks, id, t);
  }

  lemma FetchKeepsInv(version: string -> Option<int>, s: State, id: nat, s': State)
    requires Inv(version, s) && id in s.tasks && s.tasks[id].pc.Dialing? && Busy(s.tasks[id])
    requires FetchMove(s, id, s.tasks[id], s')
    ensures Inv(version, s')
  {
    hide Exact, AllSourced, Holders, TaskOk, FetchMove, Within;
    FetchedTaskOk(version, s, id, s');
    StillHolding(s.tasks, id, s'.tasks[id]);
    AllSourcedMonotone(s.fetched, s'.fetched, s.entries, s'.entries);
    MoveKeepsInv(version, s, id, s'.tasks[id], s');
  }

  lemma PutKeepsInv(version: string -> Option<int>, s: State, id: nat, key: string, json: string, after: Pc, s': State)
    requires Inv(version, s) && id in s.tasks && Busy(s.tasks[id]) && !Holding(s.tasks[id])
    requires FetchOf(s.tasks[id], json) in s.fetched && FetchKey(FetchOf(s.tasks[id], json), key)
    requires PutMove(s, id, s.tasks[id], key, json, after, s') && (after == ClearLastKnown(json) || after == Answered(json))
    ensures Inv(version, s')
  {
    var t := s.tasks[id];
    var t' := t.(pc := after);
    var f := FetchOf(t, json);
    assert TaskOk(version, s.fetched, t') by {
      assert TaskOk(version, s.fetched, t);
      assert f.addr == Here(t) && RightVersion(version, f, t.host, t.protocol);
    }
    assert AllSourced(s.fetched, s'.entries) by {
      PutIsSubmap(s.entries, key, json, t.ttl, s.now, s'.entries);
      PrintableHere(version, s.fetched, t);
      hide FetchKey, PutResult;
      forall k | k in s'.entries ensures Sourced(s.fetched, k, s'.entries[k].json) {
      }
    }
    HoldersUnchanged(s.tasks, id, t');
    hide Exact, AllSourced, Holders, TaskOk;
    MoveKeepsInv(version, s, id, t', s');
  }

  /** Lookups answer legitimately or move on. */
  lemma LookupMovesKeepInv(version: string -> Option<int>, s: State, id: nat, s': State)
    requires Inv(version, s) && id in s.tasks && TaskMove(version, s, id, s.tasks[id], s')
    requires s.tasks[id].pc.LookUp? || s.tasks[id].pc.Polling? || s.tasks[id].pc.LastKnown?
    ensures Inv(version, s')
  {
    hide Exact, AllSourced, Holders, Legitimate, StatusKey, BackendKey, Acquire, Release, PutResult;
    var t := s.tasks[id];
    assert TaskOk(version, s.fetched, t);
    if Busy(t) && t.pc.LastKnown? {
      var found := Lookup(s.entries, BackendKey(Here(t)), s.now);
      if found.Some? && version(found.value) == Some(t.protocol) {
        LastKnownIsLegitimate(version, s, t, found.value);
      }
    } else if Busy(t) {
      var found := Lookup(s.entries, ResponseKey(t), s.now);
      if found.Some? {
        CachedIsLegitimate(version, s, t, found.value);
      }
    }
    QuietMove(version, s, id, s'.tasks[id], s');
  }

  /** Down markers and released slots. */
  lemma BookkeepingKeepsInv(version: string -> Option<int>, s: State, id: nat, s': State)
    requires Inv(version, s) && id in s.tasks && TaskMove(version, s, id, s.tasks[id], s')
    requires var pc := s.tasks[id].pc;
             pc.CheckDown? || pc.EndDial? || pc.ClearResponse? || pc.ClearLastKnown? || pc.NoteDown?
    ensures Inv(version, s')
  {
    hide Exact, AllSourced, Holders, Legitimate, StatusKey, BackendKey, Release;
    var t := s.tasks[id];
    assert TaskOk(version, s.fetched, t);
    var t' := s'.tasks[id];
    assert TaskOk(version, s.fetched, t');
    hide TaskOk;
    if t.pc.EndDial? {
      ReleaseMove(version, s, id, t', s');
    } else {
      QuietMove(version, s, id, t', s');
    }
  }

  /** Publishing a fetched response under its two keys. */
  lemma PublishingKeepsInv(version: string -> Option<int>, s: State, id: nat, s': State)
    requires Inv(version, s) && id in s.tasks && TaskMove(version, s, id, s.tasks[id], s')
    requires s.tasks[id].pc.PutResponse? || s.tasks[id].pc.PutLastKnown?
    ensures Inv(version, s')
  {
    hide Exact, AllSourced, Holders, Legitimate, StatusKey, BackendKey, PutMove;
    var t := s.tasks[id];
    assert TaskOk(version, s.fetched, t);
    var json := t.pc.json;
    if t.pc.PutResponse? {
      PutKeepsInv(version, s, id, ResponseKey(t), json, ClearLastKnown(json), s');
    } else {
      PutKeepsInv(version, s, id, BackendKey(Here(t)), json, Answered(json), s');
    }
  }

  /** Every step of every task keeps the invariant. */
  lemma TaskMoveKeepsInv(version: string -> Option<int>, s: State, id: nat, s': State)
    requires Inv(version, s) && id in s.tasks && TaskMove(version, s, id, s.tasks[id], s')
    ensures Inv(version, s')
  {
    hide Inv, DialMove, FetchMove, LookUpMove, LastKnownMove, PollingMove, CheckDownMove, PutMove;
    var t := s.tasks[id];
    match t.pc {
      case LookUp => LookupMovesKeepInv(version, s, id, s');
      case LastKnown => LookupMovesKeepInv(version, s, id, s');
      case Polling => LookupMovesKeepInv(version, s, id, s');
      case TryDial => SlotMove(version, s, id, s', LastKnown);
      case PollDial => SlotMove(version, s, id, s', Polling);
      case Dialing => FetchKeepsInv(version, s, id, s');
      case PutResponse(_) => PublishingKeepsInv(version, s, id, s');
      case PutLastKnown(_) => PublishingKeepsInv(version, s, id, s');
      case Answered(_) =>
      case Finished =>
      case _ => BookkeepingKeepsInv(version, s, id, s');
    }
  }

  lemma FreshTaskOk(version: string -> Option<int>, fetched: set<Fetch>, task: Task)
    requires task.pc == LookUp && forall k :: 0 <= k < |task.backends| ==> Printable(task.backends[k])
    ensures TaskOk(version, fetched, task)
  {
  }

  lemma NextKeepsInv(version: string -> Option<int>, s: State, s': State)
    requires Inv(version, s) && Next(version, s, s')
    ensures Inv(version, s')
  {
    hide TaskMove, TaskOk;
    var step :| NextBy(version, s, step, s');
    match step {
      case Spawn(id, task) =>
        FreshTaskOk(version, s.fetched, task);
        HoldersAfter(s.tasks, id, task);
        assert Holders(s.tasks) - {id} == Holders(s.tasks);
        MoveKeepsInv(version, s, id, task, s');
      case Tick(_) =>
      case SweepCache =>
        AllSourcedMonotone(s.fetched, s'.fetched, s.entries, s'.entries);
      case Move(id) =>
        hide Inv;
        TaskMoveKeepsInv(version, s, id, s');
    }
  }

  // ----- whole runs -----

  ghost predicate Run(version: string -> Option<int>, run: seq<State>) {
    run != [] && Init(run[0]) && forall k :: 0 <= k < |run| - 1 ==> Next(version, run[k], run[k + 1])
  }

  lemma {:induction false} InvAlways(version: string -> Option<int>, run: seq<State>, k: nat)
    requires Run(version, run) && k < |run|
    ensures Inv(version, run[k])
  {
    if k == 0 {
      assert Holders(run[0].tasks) == map[];
    } else {
      InvAlways(version, run, k - 1);
      hide Inv, Next;
      assert Next(version, run[k - 1], run[k - 1 + 1]);
      NextKeepsInv(version, run[k - 1], run[k]);
    }
  }

  /**
   * In every run, a task is only ever answered with a response legitimate for its host and
   * protocol, whatever other hosts and versions fill the shared cache meanwhile.
   */
  lemma AnswersAreLegitimate(version: string -> Option<int>, run: seq<State>, k: nat, id: nat)
    requires Run(version, run) && k < |run| && id in run[k].tasks && run[k].tasks[id].pc.Answered?
    ensures Busy(run[k].tasks[id])
    ensures var t := run[k].tasks[id]; Legitimate(version, run[k].fetched, Here(t), t.host, t.protocol, t.pc.json)
  {
    hide Run, Exact, AllSourced, Holders, Legitimate;
    InvAlways(version, run, k);
    assert TaskOk(version, run[k].fetched, run[k].tasks[id]);
  }

  /**
   * In every run, each route's in-flight count for a backend is the number of tasks dialling
   * it, at most eight, and there is no entry for a backend nobody is dialling: every slot
   * taken, in the wait loop too, is given back exactly once.
   */
  lemma DialSlotsBalance(version: string -> Option<int>, run: seq<State>, k: nat, slot: Slot)
    requires Run(version, run) && k < |run|
    ensures var dialling := set id | id in run[k].tasks && Holding(run[k].tasks[id]) && SlotOf(run[k].tasks[id]) == slot;
            && |dialling| == (if slot in run[k].dials then run[k].dials[slot] else 0)
            && |dialling| <= 8
            && (slot in run[k].dials ==> run[k].dials[slot] > 0)
  {
    hide Run, AllSourced, TaskOk;
    InvAlways(version, run, k);
    var dialling := set id | id in run[k].tasks && Holding(run[k].tasks[id]) && SlotOf(run[k].tasks[id]) == slot;
    assert HoldersOf(Holders(run[k].tasks), slot) == dialling;
  }
}
