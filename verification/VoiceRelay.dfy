/**
 * The session tables of the UDP voice relay, `src/udp/voice_relay.rs`: one packet loop, and any
 * number of closers (the reaper's sweeps and the logout hook), interleaved one lock section at
 * a time. The configured caps do not change during a run.
 */
module VoiceRelay {
  import opened Bytes
  import opened StatusKeys
  import opened SlotCounts

  type Sid = nat

  /** Where a session is in its life; a session counts against its IP until it is Closed. */
  datatype Stage = Creating | Live | Closing | Closed

  /** The packet loop's next shared access. */
  datatype Loop =
    | Idle
    | ByVia(source: Addr)                              // header-less datagram: by_via.get
    | Find(client: Addr, source: Addr, again: nat)     // sessions.get, `again` more times if absent
    | CapCheck(client: Addr, source: Addr)             // sessions.len against the global cap
    | TakeSlot(client: Addr, source: Addr)             // acquire_ip_slot
    | Bind(sid: Sid, source: Addr)                     // opening the backend socket
    | Insert(sid: Sid, source: Addr)                   // sessions.insert
    | LinkVia(sid: Sid, source: Addr)                  // by_via.insert
    | Repoint(sid: Sid, source: Addr)                  // repoint_via
    | Send(sid: Sid, source: Addr, headerless: bool)   // forward, after its `dead` check

  /** One `disconnect_client` call or one reaper sweep, working through the addresses it collected. */
  datatype Closer =
    | Removing(addrs: seq<Addr>)                       // sessions.remove
    | Unlink(sid: Sid, addrs: seq<Addr>)               // close_session: by_via.retain
    | Kill(sid: Sid, addrs: seq<Addr>)                 // close_session: dead.store
    | Free(sid: Sid, addrs: seq<Addr>)                 // close_session: release_ip_slot

  /** A datagram sent on to a backend, with the session's state at that moment. */
  datatype Delivery = Delivery(sid: Sid, source: Addr, headerless: bool, via: Addr, dead: bool)

  datatype Config = Config(proxy: bool, globalCap: int, perIpCap: int)

  /**
   * The three tables, then each session's fields by session id: its client address, `via`,
   * `dead`, its stage, and how often `close_session` has been entered for it.
   */
  datatype State = State(
    sessions: map<Addr, Sid>,
    byVia: map<Addr, Sid>,
    perIp: map<string, int>,
    client: map<Sid, Addr>,
    via: map<Sid, Addr>,
    dead: map<Sid, bool>,
    stage: map<Sid, Stage>,
    closes: map<Sid, nat>,
    loop: Loop,
    closers: map<nat, Closer>,
    delivered: seq<Delivery>)

  ghost predicate Init(s: State) {
    s == State(map[], map[], map[], map[], map[], map[], map[], map[], Idle, map[], [])
  }

  predicate Known(s: State, sid: Sid) {
    sid in s.client && sid in s.via && sid in s.dead && sid in s.stage && sid in s.closes
  }

  datatype Step =
    | Receive(from: Addr, header: Option<Addr>)  // a datagram, with the PROXY header's address if it has one
    | Work(unused: Sid)                           // the packet loop's next access
    | Drop                                       // no route, failed bind or over a cap is decided here
    | StartClose(newCloser: nat, targets: seq<Addr>)
    | CloseWork(closer: nat)

  ghost predicate LoopEnabled(c: Config, s: State, unused: Sid) {
    match s.loop
    case Idle => false
    case ByVia(_) => true
    case Find(_, _, _) => true
    case CapCheck(_, _) => c.globalCap <= 0 || |s.sessions| < c.globalCap
    case TakeSlot(_, _) => unused !in s.stage
    case Bind(sid, _) => Known(s, sid)
    case Insert(sid, _) => Known(s, sid)
    case LinkVia(sid, _) => Known(s, sid)
    case Repoint(sid, _) => Known(s, sid)
    case Send(sid, _, _) => Known(s, sid)
  }

  ghost predicate Enabled(c: Config, s: State, step: Step) {
    match step
    case Receive(_, header) => s.loop.Idle? && (!c.proxy ==> header.None?)
    case Work(unused) => LoopEnabled(c, s, unused)
    case Drop => s.loop.CapCheck? || (s.loop.Bind? && Known(s, s.loop.sid))
    case StartClose(id, _) => id !in s.closers
    case CloseWork(id) =>
      id in s.closers
      && match s.closers[id]
         case Removing(addrs) => addrs != [] && addrs[0] in s.sessions ==> Known(s, s.sessions[addrs[0]])
         case Unlink(sid, _) => Known(s, sid)
         case Kill(sid, _) => Known(s, sid)
         case Free(sid, _) => Known(s, sid)
  }

  function Arrival(c: Config, from: Addr, header: Option<Addr>): Loop {
    if !c.proxy then Find(from, from, 1)
    else if header.Some? then Find(header.value, from, 2)
    else ByVia(from)
  }

  function Without(byVia: map<Addr, Sid>, sid: Sid): map<Addr, Sid> {
    map k | k in byVia && byVia[k] != sid :: byVia[k]
  }

  /** A cap of zero or less means no per-IP limit, and then nothing is counted. */
  function AcquireIpSlot(perIp: map<string, int>, ip: string, cap: int): Attempt<string> {
    if cap <= 0 then Attempt(perIp, true) else Acquire(perIp, ip, cap)
  }

  /** Steps of the loop that only look something up. */
  predicate Looking(l: Loop) {
    l.ByVia? || l.Find? || l.CapCheck? || l.Bind?
  }

  function Look(s: State): Loop
    requires Looking(s.loop)
  {
    match s.loop
    case ByVia(source) => if source in s.byVia then Send(s.byVia[source], source, true) else Idle
    case Find(client, source, again) =>
      if client in s.sessions then Repoint(s.sessions[client], source)
      else if again > 0 then Find(client, source, again - 1)
      else CapCheck(client, source)
    case CapCheck(client, source) => TakeSlot(client, source)
    case Bind(sid, source) => Insert(sid, source)
  }

  function LoopStep(c: Config, s: State, unused: Sid): State
    requires LoopEnabled(c, s, unused)
  {
    if Looking(s.loop) then s.(loop := Look(s)) else Act(c, s, unused)
  }

  function Act(c: Config, s: State, unused: Sid): State
    requires LoopEnabled(c, s, unused) && !Looking(s.loop)
  {
    match s.loop
    case TakeSlot(client, source) =>
      var a := AcquireIpSlot(s.perIp, client.ip, c.perIpCap);
      if a.ok then Create(s, a.table, unused, client, source) else s.(perIp := a.table, loop := Idle)
    case Insert(sid, source) =>
      s.(sessions := s.sessions[s.client[sid] := sid], stage := s.stage[sid := Live],
         loop := if c.proxy then LinkVia(sid, source) else Send(sid, source, false))
    case LinkVia(sid, source) => s.(byVia := s.byVia[source := sid], loop := Send(sid, source, false))
    case Repoint(sid, source) =>
      s.(byVia := if !c.proxy || s.via[sid] == source then s.byVia else (s.byVia - {s.via[sid]})[source := sid],
         via := s.via[sid := source], loop := Send(sid, source, false))
    case Send(sid, source, headerless) =>
      if s.dead[sid] then s.(loop := Idle)
      else s.(loop := Idle, delivered := s.delivered + [Delivery(sid, source, headerless, s.via[sid], s.dead[sid])])
  }

  function Create(s: State, perIp: map<string, int>, sid: Sid, client: Addr, source: Addr): State {
    s.(perIp := perIp, client := s.client[sid := client], via := s.via[sid := source], dead := s.dead[sid := false],
       stage := s.stage[sid := Creating], closes := s.closes[sid := 0], loop := Bind(sid, source))
  }

  /** A failed bind gives the slot back; every other drop changes nothing. */
  function DropStep(s: State): State
    requires s.loop.Bind? ==> Known(s, s.loop.sid)
  {
    if s.loop.Bind? then
      s.(perIp := Release(s.perIp, s.client[s.loop.sid].ip), stage := s.stage[s.loop.sid := Closed], loop := Idle)
    else s.(loop := Idle)
  }

  function CloseStep(s: State, id: nat): State
    requires id in s.closers
    requires match s.closers[id]
             case Removing(addrs) => addrs != [] && addrs[0] in s.sessions ==> Known(s, s.sessions[addrs[0]])
             case Unlink(sid, _) => Known(s, sid)
             case Kill(sid, _) => Known(s, sid)
             case Free(sid, _) => Known(s, sid)
  {
    match s.closers[id]
    case Removing(addrs) =>
      if addrs == [] then s.(closers := s.closers - {id})
      else if addrs[0] in s.sessions then TakeOut(s, id, addrs[0], addrs[1..])
      else s.(closers := s.closers[id := Removing(addrs[1..])])
    case Unlink(sid, addrs) => s.(byVia := Without(s.byVia, sid), closers := s.closers[id := Kill(sid, addrs)])
    case Kill(sid, addrs) => s.(dead := s.dead[sid := true], closers := s.closers[id := Free(sid, addrs)])
    case Free(sid, addrs) =>
      s.(perIp := Release(s.perIp, s.client[sid].ip), stage := s.stage[sid := Closed],
         closers := s.closers[id := Removing(addrs)])
  }

  function TakeOut(s: State, id: nat, addr: Addr, rest: seq<Addr>): State
    requires addr in s.sessions && Known(s, s.sessions[addr])
  {
    var sid := s.sessions[addr];
    s.(sessions := s.sessions - {addr}, stage := s.stage[sid := Closing], closes := s.closes[sid := s.closes[sid] + 1],
       closers := s.closers[id := Unlink(sid, rest)])
  }

  function Apply(c: Config, s: State, step: Step): State
    requires Enabled(c, s, step)
  {
    match step
    case Receive(from, header) => s.(loop := Arrival(c, from, header))
    case Work(unused) => LoopStep(c, s, unused)
    case Drop => DropStep(s)
    case StartClose(id, addrs) => s.(closers := s.closers[id := Removing(addrs)])
    case CloseWork(id) => CloseStep(s, id)
  }

  // ----- the invariant, one table at a time -----

  function CreatingSid(l: Loop): Option<Sid> {
    if l.Bind? || l.Insert? then Some(l.sid) else None
  }

  function ClosingSid(c: Closer): Option<Sid> {
    if c.Removing? then None else Some(c.sid)
  }

  ghost predicate FieldsInv(s: State) {
    s.client.Keys == s.stage.Keys && s.via.Keys == s.stage.Keys && s.dead.Keys == s.stage.Keys && s.closes.Keys == s.stage.Keys
  }

  /** `sessions` holds exactly the live sessions, each under its own client address. */
  ghost predicate SessionsInv(sessions: map<Addr, Sid>, client: map<Sid, Addr>, stage: map<Sid, Stage>) {
    && (forall a :: a in sessions ==>
          var sid := sessions[a]; sid in stage && stage[sid] == Live && sid in client && client[sid] == a)
    && (forall sid :: sid in stage && stage[sid] == Live ==>
          sid in client && client[sid] in sessions && sessions[client[sid]] == sid)
  }

  /** A `by_via` entry points at a session whose current via is its key. */
  ghost predicate ViaInv(proxy: bool, byVia: map<Addr, Sid>, via: map<Sid, Addr>) {
    forall k :: k in byVia ==> proxy && byVia[k] in via && via[byVia[k]] == k
  }

  ghost predicate InHand(closers: map<nat, Closer>, sid: Sid) {
    exists id :: id in closers && ClosingSid(closers[id]) == Some(sid)
  }

  /** Each closing session is in the hands of exactly one closer. */
  ghost predicate ClosersInv(closers: map<nat, Closer>, stage: map<Sid, Stage>) {
    && (forall id :: id in closers && ClosingSid(closers[id]).Some? ==>
          var sid := ClosingSid(closers[id]).value; sid in stage && stage[sid] == Closing)
    && (forall id, id' :: id in closers && id' in closers && id != id' && ClosingSid(closers[id]).Some? ==>
          ClosingSid(closers[id]) != ClosingSid(closers[id']))
    && (forall sid :: sid in stage && stage[sid] == Closing ==> InHand(closers, sid))
  }

  /** The only session being created is the packet loop's. */
  ghost predicate CreatingInv(loop: Loop, stage: map<Sid, Stage>) {
    && (forall sid :: sid in stage && stage[sid] == Creating ==> CreatingSid(loop) == Some(sid))
    && (CreatingSid(loop).Some? ==> CreatingSid(loop).value in stage && stage[CreatingSid(loop).value] == Creating)
  }

  /** What the packet loop has found out still holds when it acts on it. */
  ghost predicate LoopInv(proxy: bool, loop: Loop, client: map<Sid, Addr>, via: map<Sid, Addr>, sessions: map<Addr, Sid>) {
    match loop
    case Idle => true
    case ByVia(_) => proxy
    case Find(_, _, _) => true
    case CapCheck(a, _) => a !in sessions
    case TakeSlot(a, _) => a !in sessions
    case Bind(sid, source) => sid in via && via[sid] == source && sid in client && client[sid] !in sessions
    case Insert(sid, source) => sid in via && via[sid] == source && sid in client && client[sid] !in sessions
    case LinkVia(sid, source) => proxy && sid in via && via[sid] == source
    case Repoint(sid, _) => sid in via
    case Send(sid, source, _) => sid in via && via[sid] == source
  }

  ghost predicate CapInv(cap: int, loop: Loop, size: nat) {
    cap > 0 ==> size <= cap && (loop.TakeSlot? || loop.Bind? || loop.Insert? ==> size < cap)
  }

  /** The IP every session that is not closed counts against. */
  ghost function Counted(client: map<Sid, Addr>, stage: map<Sid, Stage>): map<Sid, string> {
    map sid | sid in stage && stage[sid] != Closed && sid in client :: client[sid].ip
  }

  ghost predicate SlotsInv(cap: int, perIp: map<string, int>, counted: map<Sid, string>) {
    if cap <= 0 then perIp == map[] else Exact(perIp, counted) && Within(perIp, cap)
  }

  ghost predicate ClosesInv(closes: map<Sid, nat>, stage: map<Sid, Stage>) {
    forall sid :: sid in stage ==>
      sid in closes && closes[sid] == (if stage[sid] == Closing || (stage[sid] == Closed && closes[sid] != 0) then 1 else 0)
  }

  ghost predicate DeliveredInv(delivered: seq<Delivery>) {
    forall k :: 0 <= k < |delivered| ==> delivered[k].via == delivered[k].source && !delivered[k].dead
  }

  ghost predicate Inv(c: Config, s: State) {
    && FieldsInv(s)
    && SessionsInv(s.sessions, s.client, s.stage)
    && ViaInv(c.proxy, s.byVia, s.via)
    && ClosersInv(s.closers, s.stage)
    && CreatingInv(s.loop, s.stage)
    && LoopInv(c.proxy, s.loop, s.client, s.via, s.sessions)
    && CapInv(c.globalCap, s.loop, |s.sessions|)
    && SlotsInv(c.perIpCap, s.perIp, Counted(s.client, s.stage))
    && ClosesInv(s.closes, s.stage)
    && DeliveredInv(s.delivered)
  }

  // ----- what each change does to each part -----

  lemma SessionsCreate(sessions: map<Addr, Sid>, client: map<Sid, Addr>, stage: map<Sid, Stage>, sid: Sid, a: Addr)
    requires SessionsInv(sessions, client, stage) && sid !in stage
    ensures SessionsInv(sessions, client[sid := a], stage[sid := Creating])
  {
  }

  lemma SessionsOther(sessions: map<Addr, Sid>, client: map<Sid, Addr>, stage: map<Sid, Stage>, sid: Sid, to: Stage)
    requires SessionsInv(sessions, client, stage) && sid in stage && stage[sid] != Live && to != Live
    ensures SessionsInv(sessions, client, stage[sid := to])
  {
  }

  lemma SessionsInsert(sessions: map<Addr, Sid>, client: map<Sid, Addr>, stage: map<Sid, Stage>, sid: Sid)
    requires SessionsInv(sessions, client, stage) && sid in stage && stage[sid] != Live
    requires sid in client && client[sid] !in sessions
    ensures SessionsInv(sessions[client[sid] := sid], client, stage[sid := Live])
    ensures |sessions[client[sid] := sid]| == |sessions| + 1
  {
  }

  lemma SessionsRemove(sessions: map<Addr, Sid>, client: map<Sid, Addr>, stage: map<Sid, Stage>, a: Addr)
    requires SessionsInv(sessions, client, stage) && a in sessions
    ensures sessions[a] in stage && stage[sessions[a]] == Live && |sessions - {a}| == |sessions| - 1
    ensures SessionsInv(sessions - {a}, client, stage[sessions[a] := Closing])
  {
  }

  lemma CreatingIs(loop: Loop, stage: map<Sid, Stage>)
    requires CreatingInv(loop, stage) && CreatingSid(loop).Some?
    ensures CreatingSid(loop).value in stage && stage[CreatingSid(loop).value] == Creating
  {
  }

  lemma CreatingStarts(loop: Loop, stage: map<Sid, Stage>, sid: Sid, to: Loop)
    requires CreatingInv(loop, stage) && CreatingSid(loop).None? && CreatingSid(to) == Some(sid)
    ensures CreatingInv(to, stage[sid := Creating])
  {
  }

  lemma CreatingEnds(loop: Loop, stage: map<Sid, Stage>, sid: Sid, to: Loop, end: Stage)
    requires CreatingInv(loop, stage) && CreatingSid(loop) == Some(sid) && CreatingSid(to).None? && end != Creating
    ensures CreatingInv(to, stage[sid := end])
  {
  }

  lemma CreatingOther(loop: Loop, stage: map<Sid, Stage>, sid: Sid, to: Stage)
    requires CreatingInv(loop, stage) && sid in stage && stage[sid] != Creating && to != Creating
    ensures CreatingInv(loop, stage[sid := to])
  {
  }

  lemma LoopMovesOn(loop: Loop, stage: map<Sid, Stage>, to: Loop)
    requires CreatingInv(loop, stage) && CreatingSid(to) == CreatingSid(loop)
    ensures CreatingInv(to, stage)
  {
  }

  lemma LoopForgets(proxy: bool, loop: Loop, client: map<Sid, Addr>, via: map<Sid, Addr>, sessions: map<Addr, Sid>, a: Addr)
    requires LoopInv(proxy, loop, client, via, sessions)
    ensures LoopInv(proxy, loop, client, via, sessions - {a})
  {
  }

  lemma CapShrinks(cap: int, loop: Loop, size: nat, smaller: nat)
    requires CapInv(cap, loop, size) && smaller <= size
    ensures CapInv(cap, loop, smaller)
  {
  }

  lemma ClosesCreate(closes: map<Sid, nat>, stage: map<Sid, Stage>, sid: Sid)
    requires ClosesInv(closes, stage) && sid !in stage
    ensures ClosesInv(closes[sid := 0], stage[sid := Creating])
  {
  }

  lemma ClosesStart(closes: map<Sid, nat>, stage: map<Sid, Stage>, sid: Sid)
    requires ClosesInv(closes, stage) && sid in stage && stage[sid] == Live
    ensures sid in closes && ClosesInv(closes[sid := closes[sid] + 1], stage[sid := Closing])
  {
  }

  lemma ClosesSame(closes: map<Sid, nat>, stage: map<Sid, Stage>, sid: Sid, to: Stage)
    requires ClosesInv(closes, stage) && sid in stage
    requires (stage[sid] == Creating && (to == Live || to == Closed)) || (stage[sid] == Closing && to == Closed)
    ensures ClosesInv(closes, stage[sid := to])
  {
  }

  lemma ClosingIs(closers: map<nat, Closer>, stage: map<Sid, Stage>, id: nat)
    requires ClosersInv(closers, stage) && id in closers && !closers[id].Removing?
    ensures closers[id].sid in stage && stage[closers[id].sid] == Closing
  {
  }

  lemma ClosersOther(closers: map<nat, Closer>, stage: map<Sid, Stage>, sid: Sid, to: Stage)
    requires ClosersInv(closers, stage) && to != Closing && (sid in stage ==> stage[sid] != Closing)
    ensures ClosersInv(closers, stage[sid := to])
  {
  }

  lemma ClosersTake(closers: map<nat, Closer>, stage: map<Sid, Stage>, id: nat, to: Closer)
    requires ClosersInv(closers, stage) && id in closers && closers[id].Removing? && !to.Removing?
    requires to.sid in stage && stage[to.sid] == Live
    ensures ClosersInv(closers[id := to], stage[to.sid := Closing])
  {
    var closers', stage' := closers[id := to], stage[to.sid := Closing];
    assert ClosingSid(closers'[id]) == Some(to.sid);
    forall sid | sid in stage' && stage'[sid] == Closing ensures InHand(closers', sid) {
      if sid != to.sid {
        var other :| other in closers && ClosingSid(closers[other]) == Some(sid);
        assert other in closers' && closers'[other] == closers[other];
      }
    }
  }

  /** A closer going on with the session it has in hand, or with none. */
  lemma ClosersGoOn(closers: map<nat, Closer>, stage: map<Sid, Stage>, id: nat, to: Closer)
    requires ClosersInv(closers, stage)
    requires if id in closers then ClosingSid(to) == ClosingSid(closers[id]) else ClosingSid(to).None?
    ensures ClosersInv(closers[id := to], stage)
  {
    var closers' := closers[id := to];
    forall sid | sid in stage && stage[sid] == Closing ensures InHand(closers', sid) {
      var other :| other in closers && ClosingSid(closers[other]) == Some(sid);
      assert other in closers' && ClosingSid(closers'[other]) == Some(sid);
    }
  }

  lemma CloserLeaves(closers: map<nat, Closer>, stage: map<Sid, Stage>, id: nat)
    requires ClosersInv(closers, stage) && id in closers && closers[id].Removing?
    ensures ClosersInv(closers - {id}, stage)
  {
    forall sid | sid in stage && stage[sid] == Closing ensures InHand(closers - {id}, sid) {
      var other :| other in closers && ClosingSid(closers[other]) == Some(sid);
      assert other in closers - {id};
    }
  }

  lemma ClosersLetGo(closers: map<nat, Closer>, stage: map<Sid, Stage>, id: nat, to: Closer)
    requires ClosersInv(closers, stage) && id in closers && !closers[id].Removing? && to.Removing?
    ensures ClosersInv(closers[id := to], stage[closers[id].sid := Closed])
  {
    var gone := closers[id].sid;
    assert ClosingSid(closers[id]) == Some(gone);
    var closers', stage' := closers[id := to], stage[gone := Closed];
    forall sid | sid in stage' && stage'[sid] == Closing ensures InHand(closers', sid) {
      var other :| other in closers && ClosingSid(closers[other]) == Some(sid);
      assert other in closers' && closers'[other] == closers[other];
    }
  }

  lemma SlotsSame(client: map<Sid, Addr>, stage: map<Sid, Stage>, sid: Sid, to: Stage)
    requires sid in stage && sid in client && stage[sid] != Closed && to != Closed
    ensures Counted(client, stage[sid := to]) == Counted(client, stage)
  {
  }

  lemma SlotsAcquire(cap: int, perIp: map<string, int>, client: map<Sid, Addr>, stage: map<Sid, Stage>, sid: Sid, a: Addr)
    requires SlotsInv(cap, perIp, Counted(client, stage)) && sid !in stage
    ensures var r := AcquireIpSlot(perIp, a.ip, cap);
            if r.ok then SlotsInv(cap, r.table, Counted(client[sid := a], stage[sid := Creating])) else r.table == perIp
  {
    var counted := Counted(client, stage);
    if cap > 0 {
      AcquireKeepsExact(perIp, counted, sid, a.ip, cap);
    }
    assert Counted(client[sid := a], stage[sid := Creating]) == counted[sid := a.ip];
  }

  lemma SlotsRelease(cap: int, perIp: map<string, int>, client: map<Sid, Addr>, stage: map<Sid, Stage>, sid: Sid)
    requires SlotsInv(cap, perIp, Counted(client, stage)) && sid in stage && stage[sid] != Closed && sid in client
    ensures SlotsInv(cap, Release(perIp, client[sid].ip), Counted(client, stage[sid := Closed]))
  {
    var counted := Counted(client, stage);
    if cap > 0 {
      ReleaseKeepsExact(perIp, counted, sid, cap);
    }
    assert Counted(client, stage[sid := Closed]) == counted - {sid};
  }

  // ----- each step keeps the invariant -----

  lemma LoopMoves(c: Config, s: State, l: Loop)
    requires Inv(c, s) && CreatingSid(l) == CreatingSid(s.loop)
    requires LoopInv(c.proxy, l, s.client, s.via, s.sessions) && CapInv(c.globalCap, l, |s.sessions|)
    ensures Inv(c, s.(loop := l))
  {
  }

  lemma CreateKeeps(c: Config, s: State, sid: Sid)
    requires Inv(c, s) && s.loop.TakeSlot? && sid !in s.stage
    ensures Inv(c, LoopStep(c, s, sid))
  {
    hide SessionsInv, ViaInv, ClosersInv, CreatingInv, LoopInv, CapInv, SlotsInv, ClosesInv, DeliveredInv, Counted, Exact, Within;
    hide AcquireIpSlot;
    var a, source := s.loop.client, s.loop.source;
    SlotsAcquire(c.perIpCap, s.perIp, s.client, s.stage, sid, a);
    if AcquireIpSlot(s.perIp, a.ip, c.perIpCap).ok {
      SessionsCreate(s.sessions, s.client, s.stage, sid, a);
      ClosersOther(s.closers, s.stage, sid, Creating);
      CreatingStarts(s.loop, s.stage, sid, Bind(sid, source));
      ClosesCreate(s.closes, s.stage, sid);
      BoundLoop(c, s, sid);
      NewVia(c.proxy, s.byVia, s.via, sid, source);
    } else {
      assert LoopStep(c, s, sid) == s.(loop := Idle);
      IdleIsFine(c, s);
    }
  }

  lemma NewVia(proxy: bool, byVia: map<Addr, Sid>, via: map<Sid, Addr>, sid: Sid, source: Addr)
    requires ViaInv(proxy, byVia, via) && sid !in via
    ensures ViaInv(proxy, byVia, via[sid := source])
  {
  }

  lemma BoundLoop(c: Config, s: State, sid: Sid)
    requires s.loop.TakeSlot? && LoopInv(c.proxy, s.loop, s.client, s.via, s.sessions)
    requires CapInv(c.globalCap, s.loop, |s.sessions|)
    ensures LoopInv(c.proxy, Bind(sid, s.loop.source), s.client[sid := s.loop.client], s.via[sid := s.loop.source], s.sessions)
    ensures CapInv(c.globalCap, Bind(sid, s.loop.source), |s.sessions|)
  {
  }

  lemma IdleLoop(c: Config, s: State)
    requires CapInv(c.globalCap, s.loop, |s.sessions|)
    ensures LoopInv(c.proxy, Idle, s.client, s.via, s.sessions) && CapInv(c.globalCap, Idle, |s.sessions|)
  {
  }

  /** The loop may fall idle whenever it is not creating a session. */
  lemma IdleIsFine(c: Config, s: State)
    requires Inv(c, s) && CreatingSid(s.loop).None?
    ensures Inv(c, s.(loop := Idle))
  {
  }

  lemma DropBindKeeps(c: Config, s: State)
    requires Inv(c, s) && s.loop.Bind? && Known(s, s.loop.sid)
    ensures Inv(c, DropStep(s))
  {
    hide SessionsInv, ViaInv, ClosersInv, CreatingInv, LoopInv, CapInv, SlotsInv, ClosesInv, DeliveredInv, Counted, Exact, Within;
    IdleLoop(c, s);
    hide Release;
    var sid := s.loop.sid;
    CreatingIs(s.loop, s.stage);
    SlotsRelease(c.perIpCap, s.perIp, s.client, s.stage, sid);
    SessionsOther(s.sessions, s.client, s.stage, sid, Closed);
    ClosersOther(s.closers, s.stage, sid, Closed);
    CreatingEnds(s.loop, s.stage, sid, Idle, Closed);
    ClosesSame(s.closes, s.stage, sid, Closed);
  }

  lemma InsertKeeps(c: Config, s: State, unused: Sid)
    requires Inv(c, s) && s.loop.Insert? && Known(s, s.loop.sid)
    ensures Inv(c, LoopStep(c, s, unused))
  {
    hide SessionsInv, ViaInv, ClosersInv, CreatingInv, LoopInv, CapInv, SlotsInv, ClosesInv, DeliveredInv, Counted, Exact, Within;
    var sid := s.loop.sid;
    InsertedLoop(c, s, unused);
    CreatingIs(s.loop, s.stage);
    SessionsInsert(s.sessions, s.client, s.stage, sid);
    SlotsSame(s.client, s.stage, sid, Live);
    ClosersOther(s.closers, s.stage, sid, Live);
    CreatingEnds(s.loop, s.stage, sid, LoopStep(c, s, unused).loop, Live);
    ClosesSame(s.closes, s.stage, sid, Live);
  }

  lemma InsertedLoop(c: Config, s: State, unused: Sid)
    requires s.loop.Insert? && Known(s, s.loop.sid)
    requires LoopInv(c.proxy, s.loop, s.client, s.via, s.sessions) && CapInv(c.globalCap, s.loop, |s.sessions|)
    ensures s.client[s.loop.sid] !in s.sessions
    ensures var s' := LoopStep(c, s, unused);
            LoopInv(c.proxy, s'.loop, s'.client, s'.via, s'.sessions) && CapInv(c.globalCap, s'.loop, |s.sessions| + 1)
  {
  }

  lemma ViaMovesKeep(c: Config, s: State, unused: Sid)
    requires Inv(c, s) && (s.loop.LinkVia? || s.loop.Repoint?) && Known(s, s.loop.sid)
    ensures Inv(c, LoopStep(c, s, unused))
  {
    hide SessionsInv, ViaInv, ClosersInv, CreatingInv, LoopInv, CapInv, SlotsInv, ClosesInv, DeliveredInv, Counted, Exact, Within;
    var s' := LoopStep(c, s, unused);
    Relinked(c, s, unused);
    LoopMovesOn(s.loop, s.stage, s'.loop);
  }

  lemma Relinked(c: Config, s: State, unused: Sid)
    requires (s.loop.LinkVia? || s.loop.Repoint?) && Known(s, s.loop.sid)
    requires ViaInv(c.proxy, s.byVia, s.via) && LoopInv(c.proxy, s.loop, s.client, s.via, s.sessions)
    requires CapInv(c.globalCap, s.loop, |s.sessions|)
    ensures var s' := LoopStep(c, s, unused);
            && ViaInv(c.proxy, s'.byVia, s'.via)
            && LoopInv(c.proxy, s'.loop, s'.client, s'.via, s'.sessions) && CapInv(c.globalCap, s'.loop, |s'.sessions|)
  {
  }

  lemma SendKeeps(c: Config, s: State, unused: Sid)
    requires Inv(c, s) && s.loop.Send? && Known(s, s.loop.sid)
    ensures Inv(c, LoopStep(c, s, unused))
  {
    hide LoopInv, CapInv, DeliveredInv;
    IdleIsFine(c, s);
    Delivered(c, s, unused);
    if !s.dead[s.loop.sid] {
      LogGrows(c, s.(loop := Idle), LoopStep(c, s, unused).delivered);
    }
  }

  lemma LogGrows(c: Config, s: State, delivered: seq<Delivery>)
    requires Inv(c, s) && DeliveredInv(delivered)
    ensures Inv(c, s.(delivered := delivered))
  {
  }

  lemma Delivered(c: Config, s: State, unused: Sid)
    requires s.loop.Send? && Known(s, s.loop.sid) && DeliveredInv(s.delivered)
    requires LoopInv(c.proxy, s.loop, s.client, s.via, s.sessions)
    ensures DeliveredInv(LoopStep(c, s, unused).delivered)
  {
    hide Look, Create, AcquireIpSlot;
    var sid := s.loop.sid;
    var sent := Delivery(sid, s.loop.source, s.loop.headerless, s.via[sid], s.dead[sid]);
    assert LoopStep(c, s, unused).delivered == if s.dead[sid] then s.delivered else s.delivered + [sent];
  }

  /** Steps that only look things up leave everything but the loop's own position alone. */
  lemma LookingKeeps(c: Config, s: State, unused: Sid)
    requires Inv(c, s) && LoopEnabled(c, s, unused) && Looking(s.loop)
    ensures Inv(c, LoopStep(c, s, unused))
  {
    hide SessionsInv, ViaInv, ClosersInv, CreatingInv, LoopInv, CapInv, SlotsInv, ClosesInv, DeliveredInv, Counted, Exact, Within;
    hide Look, FieldsInv;
    Looked(c, s, unused);
    LoopMoves(c, s, Look(s));
  }

  lemma Looked(c: Config, s: State, unused: Sid)
    requires LoopEnabled(c, s, unused) && Looking(s.loop)
    requires FieldsInv(s) && SessionsInv(s.sessions, s.client, s.stage) && ViaInv(c.proxy, s.byVia, s.via)
    requires LoopInv(c.proxy, s.loop, s.client, s.via, s.sessions) && CapInv(c.globalCap, s.loop, |s.sessions|)
    ensures CreatingSid(Look(s)) == CreatingSid(s.loop)
    ensures LoopInv(c.proxy, Look(s), s.client, s.via, s.sessions) && CapInv(c.globalCap, Look(s), |s.sessions|)
  {
    hide SessionsInv, ViaInv;
    if s.loop.ByVia? && s.loop.source in s.byVia {
      LinkedVia(c.proxy, s.byVia, s.via, s.loop.source);
    } else if s.loop.Find? && s.loop.client in s.sessions {
      SessionsRemove(s.sessions, s.client, s.stage, s.loop.client);
    }
  }

  lemma LinkedVia(proxy: bool, byVia: map<Addr, Sid>, via: map<Sid, Addr>, source: Addr)
    requires ViaInv(proxy, byVia, via) && source in byVia
    ensures byVia[source] in via && via[byVia[source]] == source
  {
  }

  lemma LoopStepKeeps(c: Config, s: State, unused: Sid)
    requires Inv(c, s) && LoopEnabled(c, s, unused)
    ensures Inv(c, LoopStep(c, s, unused))
  {
    hide Inv, LoopStep;
    match s.loop {
      case TakeSlot(_, _) => CreateKeeps(c, s, unused);
      case Insert(_, _) => InsertKeeps(c, s, unused);
      case LinkVia(_, _) => ViaMovesKeep(c, s, unused);
      case Repoint(_, _) => ViaMovesKeep(c, s, unused);
      case Send(_, _, _) => SendKeeps(c, s, unused);
      case _ => LookingKeeps(c, s, unused);
    }
  }

  lemma TakeOutKeeps(c: Config, s: State, id: nat, a: Addr, rest: seq<Addr>)
    requires Inv(c, s) && id in s.closers && s.closers[id].Removing? && a in s.sessions && Known(s, s.sessions[a])
    ensures Inv(c, TakeOut(s, id, a, rest))
  {
    hide SessionsInv, ViaInv, ClosersInv, CreatingInv, LoopInv, CapInv, SlotsInv, ClosesInv, DeliveredInv, Counted, Exact, Within;
    var sid := s.sessions[a];
    SessionsRemove(s.sessions, s.client, s.stage, a);
    SlotsSame(s.client, s.stage, sid, Closing);
    ClosersTake(s.closers, s.stage, id, Unlink(sid, rest));
    CreatingOther(s.loop, s.stage, sid, Closing);
    LoopForgets(c.proxy, s.loop, s.client, s.via, s.sessions, a);
    CapShrinks(c.globalCap, s.loop, |s.sessions|, |s.sessions - {a}|);
    ClosesStart(s.closes, s.stage, sid);
  }

  lemma FreeKeeps(c: Config, s: State, id: nat)
    requires Inv(c, s) && id in s.closers && s.closers[id].Free? && Known(s, s.closers[id].sid)
    ensures Inv(c, CloseStep(s, id))
  {
    hide SessionsInv, ViaInv, ClosersInv, CreatingInv, LoopInv, CapInv, SlotsInv, ClosesInv, DeliveredInv, Counted, Exact, Within;
    hide Release;
    var sid, to := s.closers[id].sid, Removing(s.closers[id].addrs);
    ClosingIs(s.closers, s.stage, id);
    SlotsRelease(c.perIpCap, s.perIp, s.client, s.stage, sid);
    ClosersLetGo(s.closers, s.stage, id, to);
    SessionsOther(s.sessions, s.client, s.stage, sid, Closed);
    CreatingOther(s.loop, s.stage, sid, Closed);
    ClosesSame(s.closes, s.stage, sid, Closed);
  }

  lemma ViaUnlink(proxy: bool, byVia: map<Addr, Sid>, via: map<Sid, Addr>, sid: Sid)
    requires ViaInv(proxy, byVia, via)
    ensures ViaInv(proxy, Without(byVia, sid), via)
  {
  }

  lemma CloseStepKeeps(c: Config, s: State, id: nat)
    requires Inv(c, s) && Enabled(c, s, CloseWork(id))
    ensures Inv(c, CloseStep(s, id))
  {
    hide SessionsInv, ViaInv, ClosersInv, CreatingInv, LoopInv, CapInv, SlotsInv, ClosesInv, DeliveredInv, Counted, Exact, Within;
    match s.closers[id] {
      case Removing(addrs) =>
        if addrs == [] {
          CloserLeaves(s.closers, s.stage, id);
        } else if addrs[0] in s.sessions {
          TakeOutKeeps(c, s, id, addrs[0], addrs[1..]);
        } else {
          ClosersGoOn(s.closers, s.stage, id, Removing(addrs[1..]));
        }
      case Unlink(sid, addrs) =>
        ViaUnlink(c.proxy, s.byVia, s.via, sid);
        ClosersGoOn(s.closers, s.stage, id, Kill(sid, addrs));
      case Kill(sid, addrs) =>
        ClosersGoOn(s.closers, s.stage, id, Free(sid, addrs));
      case Free(_, _) =>
        FreeKeeps(c, s, id);
    }
  }

  lemma ReceiveKeeps(c: Config, s: State, from: Addr, header: Option<Addr>)
    requires Inv(c, s) && s.loop.Idle?
    ensures Inv(c, s.(loop := Arrival(c, from, header)))
  {
    var l := Arrival(c, from, header);
    assert LoopInv(c.proxy, l, s.client, s.via, s.sessions);
    assert CapInv(c.globalCap, l, |s.sessions|) by { assert CapInv(c.globalCap, s.loop, |s.sessions|); }
    hide SessionsInv, ViaInv, ClosersInv, CreatingInv, LoopInv, CapInv, SlotsInv, ClosesInv, DeliveredInv, Counted, Exact, Within;
    LoopMoves(c, s, l);
  }

  lemma StartCloseKeeps(c: Config, s: State, id: nat, addrs: seq<Addr>)
    requires Inv(c, s) && id !in s.closers
    ensures Inv(c, s.(closers := s.closers[id := Removing(addrs)]))
  {
    hide SessionsInv, ViaInv, ClosersInv, CreatingInv, LoopInv, CapInv, SlotsInv, ClosesInv, DeliveredInv, Counted, Exact, Within;
    ClosersGoOn(s.closers, s.stage, id, Removing(addrs));
  }

  /** Every step of the packet loop and of every closer keeps every table's invariant. */
  lemma StepKeepsInv(c: Config, s: State, step: Step)
    requires Inv(c, s) && Enabled(c, s, step)
    ensures Inv(c, Apply(c, s, step))
  {
    hide Inv, LoopStep, CloseStep;
    match step {
      case Receive(from, header) => ReceiveKeeps(c, s, from, header);
      case Work(unused) => LoopStepKeeps(c, s, unused);
      case Drop =>
        if s.loop.Bind? { DropBindKeeps(c, s); } else { IdleIsFine(c, s); }
      case StartClose(id, addrs) => StartCloseKeeps(c, s, id, addrs);
      case CloseWork(id) => CloseStepKeeps(c, s, id);
    }
  }

  // ----- whole runs -----

  /** `run` starts empty and every state follows from the one before by some step. */
  ghost predicate Run(c: Config, run: seq<State>) {
    run != [] && Init(run[0]) && forall k :: 0 <= k < |run| - 1 ==> Follows(c, run[k], run[k + 1])
  }

  ghost predicate Follows(c: Config, s: State, s': State) {
    exists step :: Enabled(c, s, step) && s' == Apply(c, s, step)
  }

  lemma {:induction false} InvAlways(c: Config, run: seq<State>, k: nat)
    requires Run(c, run) && k < |run|
    ensures Inv(c, run[k])
  {
    if k == 0 {
      assert Counted(map[], map[]) == map[];
    } else {
      InvAlways(c, run, k - 1);
      hide Inv;
      assert Follows(c, run[k - 1], run[k - 1 + 1]);
      var step :| Enabled(c, run[k - 1], step) && run[k] == Apply(c, run[k - 1], step);
      hide Enabled, Apply;
      StepKeepsInv(c, run[k - 1], step);
    }
  }

  /** Sessions of an IP that are live, being created, or in the hands of a closer. */
  ghost function OpenSessions(s: State, ip: string): set<Sid> {
    set sid | sid in s.client && s.client[sid].ip == ip
              && (sid in s.sessions.Values || CreatingSid(s.loop) == Some(sid) || InHand(s.closers, sid))
  }

  lemma StageMeans(c: Config, s: State, sid: Sid)
    requires Inv(c, s) && sid in s.client
    ensures (sid in s.sessions.Values || CreatingSid(s.loop) == Some(sid) || InHand(s.closers, sid)) <==> s.stage[sid] != Closed
  {
  }

  /**
   * In every state of every run: an entry of `by_via` names a session whose via is its key;
   * there are never more sessions than the global cap; with a per-IP cap, an IP's count is the
   * number of its sessions that are live, being created or being closed, and within the cap;
   * and no session is closed twice.
   */
  lemma TablesAgree(c: Config, run: seq<State>, k: nat)
    requires Run(c, run) && k < |run|
    ensures var s := run[k];
            && (forall v :: v in s.byVia ==> s.byVia[v] in s.via && s.via[s.byVia[v]] == v)
            && (c.globalCap > 0 ==> |s.sessions| <= c.globalCap)
            && (forall sid :: sid in s.closes ==> s.closes[sid] <= 1)
    ensures c.perIpCap > 0 ==> forall ip ::
              |OpenSessions(run[k], ip)| == (if ip in run[k].perIp then run[k].perIp[ip] else 0)
              && |OpenSessions(run[k], ip)| <= c.perIpCap
  {
    hide Run;
    InvAlways(c, run, k);
    var s := run[k];
    if c.perIpCap > 0 {
      forall ip
        ensures |OpenSessions(s, ip)| == (if ip in s.perIp then s.perIp[ip] else 0) && |OpenSessions(s, ip)| <= c.perIpCap
      {
        CountsAreOpenSessions(c, s, ip);
      }
    }
    hide SlotsInv, Counted, OpenSessions;
  }

  lemma CountsAreOpenSessions(c: Config, s: State, ip: string)
    requires Inv(c, s) && c.perIpCap > 0
    ensures |OpenSessions(s, ip)| == (if ip in s.perIp then s.perIp[ip] else 0)
    ensures |OpenSessions(s, ip)| <= c.perIpCap
  {
    OpenIsCounted(c, s, ip);
    hide SessionsInv, ClosersInv, CreatingInv, LoopInv, ViaInv, CapInv, ClosesInv, DeliveredInv, InHand, OpenSessions, Counted, HoldersOf;
  }

  lemma OpenIsCounted(c: Config, s: State, ip: string)
    requires Inv(c, s)
    ensures HoldersOf(Counted(s.client, s.stage), ip) == OpenSessions(s, ip)
  {
    hide SessionsInv, ClosersInv, CreatingInv, LoopInv, ViaInv, CapInv, ClosesInv, DeliveredInv, SlotsInv, InHand;
    forall sid ensures sid in HoldersOf(Counted(s.client, s.stage), ip) <==> sid in OpenSessions(s, ip) {
      if sid in s.client {
        StageMeans(c, s, sid);
      }
    }
  }

  /**
   * In every run, whatever reaches a backend was sent through a session that was not dead and
   * whose via was the datagram's own source; in particular for datagrams without a header.
   */
  lemma DeliveriesFollowVia(c: Config, run: seq<State>, k: nat, d: nat)
    requires Run(c, run) && k < |run| && d < |run[k].delivered|
    ensures var sent := run[k].delivered[d]; sent.via == sent.source && !sent.dead
  {
    hide Run, SessionsInv, ViaInv, ClosersInv, CreatingInv, LoopInv, CapInv, SlotsInv, ClosesInv, Counted;
    InvAlways(c, run, k);
  }
}
