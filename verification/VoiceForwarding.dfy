/**
 * What becomes of each datagram the voice relay receives, `src/udp/voice_relay.rs`: from its
 * arrival until the packet loop is idle again, with closers at work in between.
 */
module VoiceForwarding {
  import opened Bytes
  import opened StatusKeys
  import opened VoiceRelay
  import VoiceRest

  // ----- open sessions are not dead -----

  predicate Open(stage: Stage) {
    stage.Creating? || stage.Live?
  }

  ghost predicate OpenAlive(dead: map<Sid, bool>, stage: map<Sid, Stage>) {
    forall sid :: sid in stage && Open(stage[sid]) ==> sid in dead && !dead[sid]
  }

  lemma AliveCreate(dead: map<Sid, bool>, stage: map<Sid, Stage>, sid: Sid)
    requires OpenAlive(dead, stage)
    ensures OpenAlive(dead[sid := false], stage[sid := Creating])
  {
  }

  lemma AliveStage(dead: map<Sid, bool>, stage: map<Sid, Stage>, sid: Sid, to: Stage)
    requires OpenAlive(dead, stage) && sid in stage && (Open(to) ==> Open(stage[sid]))
    ensures OpenAlive(dead, stage[sid := to])
  {
  }

  lemma AliveKill(dead: map<Sid, bool>, stage: map<Sid, Stage>, sid: Sid)
    requires OpenAlive(dead, stage) && sid in stage && !Open(stage[sid])
    ensures OpenAlive(dead[sid := true], stage)
  {
  }

  lemma CreateKeepsAlive(c: Config, s: State, unused: Sid)
    requires OpenAlive(s.dead, s.stage) && LoopEnabled(c, s, unused) && s.loop.TakeSlot?
    ensures var s' := LoopStep(c, s, unused); OpenAlive(s'.dead, s'.stage)
  {
    hide OpenAlive, AcquireIpSlot;
    AliveCreate(s.dead, s.stage, unused);
  }

  lemma InsertKeepsAlive(c: Config, s: State, unused: Sid)
    requires CreatingInv(s.loop, s.stage) && OpenAlive(s.dead, s.stage) && LoopEnabled(c, s, unused) && s.loop.Insert?
    ensures var s' := LoopStep(c, s, unused); OpenAlive(s'.dead, s'.stage)
  {
    hide OpenAlive;
    assert s.stage[s.loop.sid] == Creating;
    hide CreatingInv;
    AliveStage(s.dead, s.stage, s.loop.sid, Live);
  }

  lemma LookKeepsStages(c: Config, s: State, unused: Sid)
    requires LoopEnabled(c, s, unused) && Looking(s.loop)
    ensures var s' := LoopStep(c, s, unused); s'.dead == s.dead && s'.stage == s.stage
  {
    hide Look, Act;
  }

  lemma SendKeepsStages(c: Config, s: State, unused: Sid)
    requires LoopEnabled(c, s, unused) && s.loop.Send?
    ensures var s' := LoopStep(c, s, unused); s'.dead == s.dead && s'.stage == s.stage
  {
    hide Look;
    var s' := LoopStep(c, s, unused);
    if s.dead[s.loop.sid] {
      assert s' == s.(loop := Idle);
    } else {
      assert s' == s.(loop := Idle, delivered := s'.delivered);
    }
  }

  lemma LinkKeepsStages(c: Config, s: State, unused: Sid)
    requires LoopEnabled(c, s, unused) && (s.loop.LinkVia? || s.loop.Repoint?)
    ensures var s' := LoopStep(c, s, unused); s'.dead == s.dead && s'.stage == s.stage
  {
    hide Look;
  }

  lemma RemovingKeepsAlive(c: Config, s: State, id: nat)
    requires OpenAlive(s.dead, s.stage) && Enabled(c, s, CloseWork(id)) && s.closers[id].Removing?
    ensures var s' := CloseStep(s, id); OpenAlive(s'.dead, s'.stage)
  {
    hide OpenAlive;
    var addrs := s.closers[id].addrs;
    if addrs != [] && addrs[0] in s.sessions {
      AliveStage(s.dead, s.stage, s.sessions[addrs[0]], Closing);
    }
  }

  lemma CloserKeepsAlive(c: Config, s: State, id: nat)
    requires ClosersInv(s.closers, s.stage) && OpenAlive(s.dead, s.stage)
    requires Enabled(c, s, CloseWork(id)) && !s.closers[id].Removing?
    ensures var s' := CloseStep(s, id); OpenAlive(s'.dead, s'.stage)
  {
    var sid := s.closers[id].sid;
    ClosingIs(s.closers, s.stage, id);
    hide OpenAlive, ClosersInv;
    AliveKill(s.dead, s.stage, sid);
    AliveStage(s.dead, s.stage, sid, Closed);
  }

  lemma InvParts(c: Config, s: State)
    requires Inv(c, s)
    ensures CreatingInv(s.loop, s.stage) && ClosersInv(s.closers, s.stage)
    ensures SessionsInv(s.sessions, s.client, s.stage) && LoopInv(c.proxy, s.loop, s.client, s.via, s.sessions)
  {
    hide CreatingInv, ClosersInv, SessionsInv, LoopInv, ViaInv, CapInv, SlotsInv, ClosesInv, DeliveredInv, Counted;
  }

  lemma StepKeepsAlive(c: Config, s: State, step: Step)
    requires Inv(c, s) && OpenAlive(s.dead, s.stage) && Enabled(c, s, step)
    ensures var s' := Apply(c, s, step); OpenAlive(s'.dead, s'.stage)
  {
    InvParts(c, s);
    hide Inv, LoopStep, CloseStep, OpenAlive, CreatingInv, ClosersInv, SessionsInv, LoopInv;
    match step
    case Work(unused) =>
      if s.loop.TakeSlot? {
        CreateKeepsAlive(c, s, unused);
      } else if s.loop.Insert? {
        InsertKeepsAlive(c, s, unused);
      } else if Looking(s.loop) {
        LookKeepsStages(c, s, unused);
      } else if s.loop.Send? {
        SendKeepsStages(c, s, unused);
      } else {
        LinkKeepsStages(c, s, unused);
      }
    case Drop =>
      if s.loop.Bind? {
        AliveStage(s.dead, s.stage, s.loop.sid, Closed);
      }
    case CloseWork(id) =>
      if s.closers[id].Removing? {
        RemovingKeepsAlive(c, s, id);
      } else {
        CloserKeepsAlive(c, s, id);
      }
    case _ =>
  }

  lemma {:induction false} AliveAlways(c: Config, run: seq<State>, steps: seq<Step>, k: nat)
    requires VoiceRest.Traced(c, run, steps) && k <= |steps|
    ensures OpenAlive(run[k].dead, run[k].stage)
  {
    if k > 0 {
      AliveAlways(c, run, steps, k - 1);
      hide Inv, OpenAlive, Apply;
      assert Enabled(c, run[k - 1], steps[k - 1]) && run[k - 1 + 1] == Apply(c, run[k - 1], steps[k - 1]);
      VoiceRest.MarkedAlways(c, run, steps, k - 1);
      hide Enabled, VoiceRest.Traced;
      StepKeepsAlive(c, run[k - 1], steps[k - 1]);
    }
  }

  /** What is needed of the tables while a datagram is handled. */
  ghost predicate Sound(c: Config, s: State) {
    && SessionsInv(s.sessions, s.client, s.stage) && LoopInv(c.proxy, s.loop, s.client, s.via, s.sessions)
    && OpenAlive(s.dead, s.stage)
  }

  lemma SoundAlways(c: Config, run: seq<State>, steps: seq<Step>, k: nat)
    requires VoiceRest.Traced(c, run, steps) && k <= |steps|
    ensures Sound(c, run[k])
  {
    hide Inv, OpenAlive, SessionsInv, LoopInv, CreatingInv, ClosersInv;
    AliveAlways(c, run, steps, k);
    VoiceRest.MarkedAlways(c, run, steps, k);
    InvParts(c, run[k]);
  }

  // ----- one datagram -----

  /** A datagram, and what had been delivered before it: whose it is, unless only its source says so. */
  datatype Datagram = Datagram(from: Addr, client: Option<Addr>, before: seq<Delivery>)

  function Passed(d: Datagram, sid: Sid): Delivery {
    Delivery(sid, d.from, d.client.None?, d.from, false)
  }

  /** The live session a datagram belongs to: its client's, or the one linked to its source. */
  function Owner(s: State, d: Datagram): Option<Sid> {
    if d.client.Some? then if d.client.value in s.sessions then Some(s.sessions[d.client.value]) else None
    else if d.from in s.byVia && s.byVia[d.from] in s.stage && s.stage[s.byVia[d.from]].Live? then Some(s.byVia[d.from])
    else None
  }

  /** The session in the packet loop's hands is the datagram's, and still its owner's if it has one. */
  ghost predicate InWork(s: State, d: Datagram, sid: Sid, source: Addr) {
    && source == d.from && s.delivered == d.before
    && (d.client.Some? ==> sid in s.client && s.client[sid] == d.client.value)
    && (Owner(s, d).Some? ==> Owner(s, d) == Some(sid))
  }

  /** Handled: passed on once, to the datagram's session, or not at all; and surely if it has a live one. */
  ghost predicate Done(s: State, d: Datagram) {
    && (s.delivered == d.before
        || exists sid ::
             s.delivered == d.before + [Passed(d, sid)] && (d.client.Some? ==> sid in s.client && s.client[sid] == d.client.value))
    && (Owner(s, d).Some? ==> s.delivered == d.before + [Passed(d, Owner(s, d).value)])
  }

  ghost predicate Handling(s: State, d: Datagram) {
    match s.loop
    case Idle => Done(s, d)
    case ByVia(source) => source == d.from && d.client.None? && s.delivered == d.before
    case Find(a, source, _) => d.client == Some(a) && source == d.from && s.delivered == d.before
    case CapCheck(a, source) => d.client == Some(a) && source == d.from && s.delivered == d.before
    case TakeSlot(a, source) => d.client == Some(a) && source == d.from && s.delivered == d.before
    case Bind(sid, source) => d.client.Some? && InWork(s, d, sid, source)
    case Insert(sid, source) => d.client.Some? && InWork(s, d, sid, source)
    case LinkVia(sid, source) => d.client.Some? && InWork(s, d, sid, source)
    case Repoint(sid, source) => d.client.Some? && InWork(s, d, sid, source)
    case Send(sid, source, headerless) => headerless == d.client.None? && InWork(s, d, sid, source)
  }

  lemma LookHandles(c: Config, s: State, d: Datagram, unused: Sid)
    requires Sound(c, s) && Handling(s, d) && LoopEnabled(c, s, unused) && Looking(s.loop)
    ensures Handling(LoopStep(c, s, unused), d)
  {
    hide OpenAlive;
    var s' := LoopStep(c, s, unused);
    assert Owner(s', d) == Owner(s, d);
  }

  lemma CreateHandles(c: Config, s: State, d: Datagram, unused: Sid)
    requires Sound(c, s) && Handling(s, d) && LoopEnabled(c, s, unused) && s.loop.TakeSlot?
    ensures Handling(LoopStep(c, s, unused), d)
  {
    hide OpenAlive, SessionsInv;
    var client, source := s.loop.client, s.loop.source;
    var s' := LoopStep(c, s, unused);
    SlotTaken(c, s, unused);
    hide LoopStep, LoopEnabled;
    assert Owner(s', d).None?;
  }

  lemma SlotTaken(c: Config, s: State, unused: Sid)
    requires LoopEnabled(c, s, unused) && s.loop.TakeSlot?
    ensures var s' := LoopStep(c, s, unused);
            && s'.sessions == s.sessions && s'.delivered == s.delivered
            && (s'.loop.Idle? || (s'.loop == Bind(unused, s.loop.source) && s'.client == s.client[unused := s.loop.client]))
  {
    hide AcquireIpSlot, Look;
    var a := AcquireIpSlot(s.perIp, s.loop.client.ip, c.perIpCap);
    assert LoopStep(c, s, unused) ==
           if a.ok then Create(s, a.table, unused, s.loop.client, s.loop.source) else s.(perIp := a.table, loop := Idle);
  }

  lemma LinkHandles(c: Config, s: State, d: Datagram, unused: Sid)
    requires Sound(c, s) && Handling(s, d) && LoopEnabled(c, s, unused) && (s.loop.LinkVia? || s.loop.Repoint? || s.loop.Insert?)
    ensures Handling(LoopStep(c, s, unused), d)
  {
    hide OpenAlive, SessionsInv;
    var s' := LoopStep(c, s, unused);
    assert s'.delivered == s.delivered && s'.client == s.client && d.client.Some?;
    assert s.loop.Insert? || s'.sessions == s.sessions;
  }

  lemma SendHandles(c: Config, s: State, d: Datagram, unused: Sid)
    requires Sound(c, s) && Handling(s, d) && LoopEnabled(c, s, unused) && s.loop.Send?
    ensures Handling(LoopStep(c, s, unused), d)
  {
    var sid := s.loop.sid;
    OwnerIsAlive(c, s, d);
    hide OpenAlive, SessionsInv;
    var s' := LoopStep(c, s, unused);
    assert Owner(s', d) == Owner(s, d);
    if !s.dead[sid] {
      assert s'.delivered == d.before + [Passed(d, sid)];
    }
  }

  lemma OwnerIsAlive(c: Config, s: State, d: Datagram)
    requires Sound(c, s)
    ensures Owner(s, d).Some? ==> var sid := Owner(s, d).value; sid in s.dead && !s.dead[sid]
  {
    hide LoopInv;
  }

  /** Nothing but entries and live sessions going away, as closers do it. */
  ghost predicate Shrinks(s: State, s': State) {
    && s'.loop == s.loop && s'.delivered == s.delivered && s'.client == s.client
    && (forall a :: a in s'.sessions ==> a in s.sessions && s'.sessions[a] == s.sessions[a])
    && (forall v :: v in s'.byVia ==> v in s.byVia && s'.byVia[v] == s.byVia[v])
    && (forall sid :: sid in s'.stage && s'.stage[sid].Live? ==> sid in s.stage && s.stage[sid].Live?)
  }

  lemma TakeOutShrinks(s: State, id: nat, addr: Addr, rest: seq<Addr>)
    requires addr in s.sessions && Known(s, s.sessions[addr])
    ensures Shrinks(s, TakeOut(s, id, addr, rest))
  {
    var s' := TakeOut(s, id, addr, rest);
    assert s'.stage == s.stage[s.sessions[addr] := Closing] && s'.byVia == s.byVia && s'.sessions == s.sessions - {addr};
  }

  lemma SameShrinks(s: State, closers: map<nat, Closer>)
    ensures Shrinks(s, s.(closers := closers))
  {
  }

  lemma RemovingShrinks(c: Config, s: State, id: nat)
    requires Enabled(c, s, CloseWork(id)) && s.closers[id].Removing?
    ensures Shrinks(s, CloseStep(s, id))
  {
    hide Shrinks, TakeOut;
    var addrs := s.closers[id].addrs;
    if addrs != [] && addrs[0] in s.sessions {
      TakeOutShrinks(s, id, addrs[0], addrs[1..]);
    } else {
      SameShrinks(s, CloseStep(s, id).closers);
    }
  }

  lemma UnlinkShrinks(c: Config, s: State, id: nat)
    requires Enabled(c, s, CloseWork(id)) && s.closers[id].Unlink?
    ensures Shrinks(s, CloseStep(s, id))
  {
    var s', sid := CloseStep(s, id), s.closers[id].sid;
    assert s'.byVia == Without(s.byVia, sid);
    assert s'.loop == s.loop && s'.delivered == s.delivered && s'.client == s.client;
    assert s'.sessions == s.sessions && s'.stage == s.stage;
  }

  lemma FreeShrinks(c: Config, s: State, id: nat)
    requires Enabled(c, s, CloseWork(id)) && (s.closers[id].Kill? || s.closers[id].Free?)
    ensures Shrinks(s, CloseStep(s, id))
  {
    var s', sid := CloseStep(s, id), s.closers[id].sid;
    assert s'.loop == s.loop && s'.delivered == s.delivered && s'.client == s.client;
    assert s'.sessions == s.sessions && s'.byVia == s.byVia;
    assert s'.stage == s.stage || s'.stage == s.stage[sid := Closed];
  }

  lemma CloserShrinks(c: Config, s: State, id: nat)
    requires Enabled(c, s, CloseWork(id))
    ensures Shrinks(s, CloseStep(s, id))
  {
    hide CloseStep, Shrinks;
    if s.closers[id].Removing? {
      RemovingShrinks(c, s, id);
    } else if s.closers[id].Unlink? {
      UnlinkShrinks(c, s, id);
    } else {
      FreeShrinks(c, s, id);
    }
  }

  lemma ShrinkHandles(s: State, s': State, d: Datagram)
    requires Handling(s, d) && !s.loop.Idle? && Shrinks(s, s')
    ensures Handling(s', d)
  {
    assert Owner(s', d).Some? ==> Owner(s', d) == Owner(s, d);
    assert s'.loop == s.loop && s'.delivered == s.delivered && s'.client == s.client;
    hide Shrinks, Owner;
  }

  lemma DropHandles(c: Config, s: State, d: Datagram)
    requires Sound(c, s) && Handling(s, d) && Enabled(c, s, Drop)
    ensures Handling(DropStep(s), d)
  {
    hide OpenAlive, SessionsInv;
    var s' := DropStep(s);
    assert s'.sessions == s.sessions && s'.delivered == s.delivered && Owner(s', d).None?;
  }

  lemma WorkHandles(c: Config, s: State, d: Datagram, unused: Sid)
    requires Sound(c, s) && Handling(s, d) && LoopEnabled(c, s, unused)
    ensures Handling(LoopStep(c, s, unused), d)
  {
    hide Sound, Handling, LoopStep;
    if Looking(s.loop) {
      LookHandles(c, s, d, unused);
    } else if s.loop.Send? {
      SendHandles(c, s, d, unused);
    } else if s.loop.TakeSlot? {
      CreateHandles(c, s, d, unused);
    } else {
      LinkHandles(c, s, d, unused);
    }
  }

  lemma StepHandles(c: Config, s: State, d: Datagram, step: Step)
    requires Sound(c, s) && Handling(s, d) && !s.loop.Idle? && Enabled(c, s, step)
    ensures Handling(Apply(c, s, step), d)
  {
    hide Sound, Handling, LoopStep, CloseStep, DropStep;
    match step
    case Work(unused) => WorkHandles(c, s, d, unused);
    case Drop => DropHandles(c, s, d);
    case StartClose(_, _) => ShrinkHandles(s, Apply(c, s, step), d);
    case CloseWork(id) =>
      CloserShrinks(c, s, id);
      hide Shrinks;
      ShrinkHandles(s, CloseStep(s, id), d);
  }

  /** The datagram a receive step brings. */
  function Brought(c: Config, step: Step, before: seq<Delivery>): Datagram
    requires step.Receive?
  {
    Datagram(step.from, if !c.proxy then Some(step.from) else step.header, before)
  }

  /** From its arrival at `i` the packet loop has been busy with the datagram, at least until `j`. */
  ghost predicate BusyUntil(run: seq<State>, i: nat, j: nat) {
    i < j < |run| && forall m :: i < m < j ==> !run[m].loop.Idle?
  }

  lemma ArrivalHandles(c: Config, s: State, step: Step)
    requires step.Receive? && Enabled(c, s, step)
    ensures Handling(Apply(c, s, step), Brought(c, step, s.delivered))
  {
  }

  lemma {:induction false} HandlingAlways(c: Config, run: seq<State>, steps: seq<Step>, i: nat, j: nat)
    requires VoiceRest.Traced(c, run, steps) && BusyUntil(run, i, j) && steps[i].Receive?
    ensures Handling(run[j], Brought(c, steps[i], run[i].delivered))
    decreases j
  {
    hide Handling, Apply, Brought;
    var d := Brought(c, steps[i], run[i].delivered);
    assert Enabled(c, run[j - 1], steps[j - 1]) && run[j - 1 + 1] == Apply(c, run[j - 1], steps[j - 1]);
    if j == i + 1 {
      ArrivalHandles(c, run[i], steps[i]);
    } else {
      HandlingAlways(c, run, steps, i, j - 1);
      SoundAlways(c, run, steps, j - 1);
      hide VoiceRest.Traced, Sound, Enabled;
      StepHandles(c, run[j - 1], d, steps[j - 1]);
    }
  }

  /**
   * No datagram of a live session is lost or doubled. In every run, once the packet loop is idle
   * again after a datagram, it has passed it on at most once, from the datagram's own source and
   * only to a session of its client; and if the client (or, without a header, the source) then
   * has a live session, old or created for it, exactly once and to that one.
   */
  lemma DatagramReachesItsSession(c: Config, run: seq<State>, steps: seq<Step>, i: nat, j: nat)
    requires VoiceRest.Traced(c, run, steps) && BusyUntil(run, i, j) && run[j].loop.Idle?
    requires steps[i].Receive?
    ensures var d := Brought(c, steps[i], run[i].delivered);
            && (Owner(run[j], d).Some? ==> run[j].delivered == run[i].delivered + [Passed(d, Owner(run[j], d).value)])
            && (Owner(run[j], d).None? ==> run[j].delivered == run[i].delivered || exists sid ::
                  && run[j].delivered == run[i].delivered + [Passed(d, sid)]
                  && (d.client.Some? ==> sid in run[j].client && run[j].client[sid] == d.client.value))
  {
    HandlingAlways(c, run, steps, i, j);
  }

  // ----- the source a session answers to -----

  /** The session is linked to the datagram's source, or had that as its via before. */
  ghost predicate LinkedTo(s: State, d: Datagram, via: map<Sid, Addr>, sid: Sid) {
    || (sid in via && via[sid] == d.from)
    || (sid in s.stage && s.stage[sid].Live? ==> d.from in s.byVia && s.byVia[d.from] == sid)
  }

  /** How far a datagram with a header has come towards linking its source, from the vias there were before. */
  ghost predicate Linking(s: State, d: Datagram, via: map<Sid, Addr>) {
    match s.loop
    case Idle => Owner(s, d).Some? ==> LinkedTo(s, d, via, Owner(s, d).value)
    case Send(sid, _, _) => LinkedTo(s, d, via, sid)
    case Bind(_, _) => true
    case Insert(_, _) => true
    case LinkVia(_, _) => true
    case _ => s.via == via
  }

  lemma LookLinks(c: Config, s: State, d: Datagram, via: map<Sid, Addr>, unused: Sid)
    requires Handling(s, d) && Linking(s, d, via) && d.client.Some? && LoopEnabled(c, s, unused) && Looking(s.loop)
    ensures Linking(LoopStep(c, s, unused), d, via)
  {
    hide InWork, Done;
  }

  lemma CreateLinks(c: Config, s: State, d: Datagram, via: map<Sid, Addr>, unused: Sid)
    requires Handling(s, d) && LoopEnabled(c, s, unused) && s.loop.TakeSlot?
    requires LoopInv(c.proxy, s.loop, s.client, s.via, s.sessions)
    ensures Linking(LoopStep(c, s, unused), d, via)
  {
    SlotTaken(c, s, unused);
    hide LoopStep;
  }

  lemma InsertLinks(c: Config, s: State, d: Datagram, via: map<Sid, Addr>, unused: Sid)
    requires c.proxy && LoopEnabled(c, s, unused) && s.loop.Insert?
    ensures Linking(LoopStep(c, s, unused), d, via)
  {
    hide Look, Linking;
    var s' := LoopStep(c, s, unused);
    assert s'.loop.LinkVia?;
    LinkViaIsLinking(s', d, via);
  }

  lemma LinkViaIsLinking(s: State, d: Datagram, via: map<Sid, Addr>)
    requires s.loop.LinkVia?
    ensures Linking(s, d, via)
  {
    hide Owner, LinkedTo;
  }

  lemma ViaLinks(c: Config, s: State, d: Datagram, via: map<Sid, Addr>, unused: Sid)
    requires c.proxy && Handling(s, d) && Linking(s, d, via) && LoopEnabled(c, s, unused) && (s.loop.LinkVia? || s.loop.Repoint?)
    ensures Linking(LoopStep(c, s, unused), d, via)
  {
    hide Owner;
    var s', sid := LoopStep(c, s, unused), s.loop.sid;
    if s.loop.LinkVia? || s.via[sid] != d.from {
      assert s'.byVia[d.from] == sid;
    }
  }

  lemma SendKeepsTables(c: Config, s: State, unused: Sid)
    requires LoopEnabled(c, s, unused) && s.loop.Send?
    ensures var s' := LoopStep(c, s, unused); s'.loop.Idle? && s'.byVia == s.byVia && s'.sessions == s.sessions
  {
    hide Look;
    var s' := LoopStep(c, s, unused);
    if s.dead[s.loop.sid] {
      assert s' == s.(loop := Idle);
    } else {
      assert s' == s.(loop := Idle, delivered := s'.delivered);
    }
  }

  lemma SendLinks(c: Config, s: State, d: Datagram, via: map<Sid, Addr>, unused: Sid)
    requires Handling(s, d) && Linking(s, d, via) && LoopEnabled(c, s, unused) && s.loop.Send?
    ensures Linking(LoopStep(c, s, unused), d, via)
  {
    hide LoopStep;
    var s' := LoopStep(c, s, unused);
    SendKeepsStages(c, s, unused);
    SendKeepsTables(c, s, unused);
    assert Owner(s', d) == Owner(s, d);
    hide LoopEnabled, Owner;
  }

  lemma WorkLinks(c: Config, s: State, d: Datagram, via: map<Sid, Addr>, unused: Sid)
    requires c.proxy && Sound(c, s) && Handling(s, d) && Linking(s, d, via) && d.client.Some? && LoopEnabled(c, s, unused)
    ensures Linking(LoopStep(c, s, unused), d, via)
  {
    hide Handling, Linking, LoopStep, SessionsInv, OpenAlive, LoopInv;
    if Looking(s.loop) {
      LookLinks(c, s, d, via, unused);
    } else if s.loop.Send? {
      SendLinks(c, s, d, via, unused);
    } else if s.loop.TakeSlot? {
      CreateLinks(c, s, d, via, unused);
    } else if s.loop.Insert? {
      InsertLinks(c, s, d, via, unused);
    } else {
      ViaLinks(c, s, d, via, unused);
    }
  }

  /** A closer takes no entry of `by_via` from a session that stays live. */
  lemma CloserKeepsLinks(c: Config, s: State, id: nat)
    requires ClosersInv(s.closers, s.stage) && Enabled(c, s, CloseWork(id))
    ensures var s' := CloseStep(s, id);
            && s'.via == s.via
            && forall v :: v in s.byVia && s.byVia[v] in s'.stage && s'.stage[s.byVia[v]].Live? ==>
                 v in s'.byVia && s'.byVia[v] == s.byVia[v]
  {
    var s' := CloseStep(s, id);
    if s.closers[id].Unlink? {
      ClosingIs(s.closers, s.stage, id);
      hide ClosersInv;
      assert s'.stage == s.stage && s'.via == s.via && s'.byVia == Without(s.byVia, s.closers[id].sid);
    } else {
      hide ClosersInv, CloseStep;
      if s.closers[id].Removing? {
        RemovingVias(c, s, id);
      } else if s.closers[id].Kill? {
        KillVias(c, s, id);
      } else {
        FreeVias(c, s, id);
      }
    }
  }

  lemma RemovingVias(c: Config, s: State, id: nat)
    requires Enabled(c, s, CloseWork(id)) && s.closers[id].Removing?
    ensures CloseStep(s, id).via == s.via && CloseStep(s, id).byVia == s.byVia
  {
    hide TakeOut;
    var addrs := s.closers[id].addrs;
    if addrs != [] && addrs[0] in s.sessions {
      TakeOutVias(s, id, addrs[0], addrs[1..]);
    }
  }

  lemma KillVias(c: Config, s: State, id: nat)
    requires Enabled(c, s, CloseWork(id)) && s.closers[id].Kill?
    ensures CloseStep(s, id).via == s.via && CloseStep(s, id).byVia == s.byVia
  {
    hide TakeOut;
    var s' := CloseStep(s, id);
    assert s' == s.(dead := s'.dead, closers := s'.closers);
  }

  lemma FreeVias(c: Config, s: State, id: nat)
    requires Enabled(c, s, CloseWork(id)) && s.closers[id].Free?
    ensures CloseStep(s, id).via == s.via && CloseStep(s, id).byVia == s.byVia
  {
    hide TakeOut;
    var s' := CloseStep(s, id);
    assert s' == s.(perIp := s'.perIp, stage := s'.stage, closers := s'.closers);
  }

  lemma TakeOutVias(s: State, id: nat, addr: Addr, rest: seq<Addr>)
    requires addr in s.sessions && Known(s, s.sessions[addr])
    ensures var s' := TakeOut(s, id, addr, rest); s'.via == s.via && s'.byVia == s.byVia
  {
  }

  lemma CloserLinks(c: Config, s: State, d: Datagram, via: map<Sid, Addr>, id: nat)
    requires ClosersInv(s.closers, s.stage) && Enabled(c, s, CloseWork(id)) && Linking(s, d, via) && !s.loop.Idle?
    ensures Linking(CloseStep(s, id), d, via)
  {
    CloserKeepsLinks(c, s, id);
    CloserShrinks(c, s, id);
    hide CloseStep, Owner, ClosersInv;
  }

  lemma StepLinks(c: Config, s: State, d: Datagram, via: map<Sid, Addr>, step: Step)
    requires c.proxy && Sound(c, s) && ClosersInv(s.closers, s.stage) && Handling(s, d) && Linking(s, d, via) && d.client.Some?
    requires !s.loop.Idle? && Enabled(c, s, step)
    ensures Linking(Apply(c, s, step), d, via)
  {
    hide Handling, LoopStep, CloseStep, Sound, ClosersInv;
    match step
    case Work(unused) => WorkLinks(c, s, d, via, unused);
    case Drop => DropLinks(c, s, d, via);
    case StartClose(_, _) =>
    case CloseWork(id) => CloserLinks(c, s, d, via, id);
  }

  lemma DropLinks(c: Config, s: State, d: Datagram, via: map<Sid, Addr>)
    requires Sound(c, s) && Handling(s, d) && Enabled(c, s, Drop)
    ensures Linking(DropStep(s), d, via)
  {
    hide OpenAlive, SessionsInv;
    assert Owner(DropStep(s), d).None?;
  }

  lemma {:induction false} LinkingAlways(c: Config, run: seq<State>, steps: seq<Step>, i: nat, j: nat)
    requires c.proxy && VoiceRest.Traced(c, run, steps) && BusyUntil(run, i, j) && steps[i].Receive? && steps[i].header.Some?
    ensures Linking(run[j], Brought(c, steps[i], run[i].delivered), run[i].via)
    decreases j
  {
    hide Handling, Linking, Apply;
    var d := Brought(c, steps[i], run[i].delivered);
    assert Enabled(c, run[j - 1], steps[j - 1]) && run[j - 1 + 1] == Apply(c, run[j - 1], steps[j - 1]);
    if j == i + 1 {
      ArrivalLinks(c, run[i], steps[i]);
    } else {
      LinkingAlways(c, run, steps, i, j - 1);
      HandlingAlways(c, run, steps, i, j - 1);
      SoundAlways(c, run, steps, j - 1);
      hide Inv, Sound, ClosersInv, Enabled;
      VoiceRest.MarkedAlways(c, run, steps, j - 1);
      InvParts(c, run[j - 1]);
      hide VoiceRest.Traced, CreatingInv, SessionsInv, LoopInv;
      StepLinks(c, run[j - 1], d, run[i].via, steps[j - 1]);
    }
  }

  lemma ArrivalLinks(c: Config, s: State, step: Step)
    requires c.proxy && step.Receive? && step.header.Some? && Enabled(c, s, step)
    ensures Linking(Apply(c, s, step), Brought(c, step, s.delivered), s.via)
  {
  }

  /**
   * A datagram with a header makes its source known: in every run, once it is handled and its
   * client has a live session, datagrams without a header from that source go to that session,
   * unless that source was its via all along (another session may have taken the entry over).
   */
  lemma DatagramLinksItsSource(c: Config, run: seq<State>, steps: seq<Step>, i: nat, j: nat)
    requires c.proxy && VoiceRest.Traced(c, run, steps) && BusyUntil(run, i, j) && run[j].loop.Idle?
    requires steps[i].Receive? && steps[i].header.Some? && steps[i].header.value in run[j].sessions
    ensures var sid, from := run[j].sessions[steps[i].header.value], steps[i].from;
            || (sid in run[i].via && run[i].via[sid] == from)
            || (from in run[j].byVia && run[j].byVia[from] == sid)
  {
    LinkingAlways(c, run, steps, i, j);
    SoundAlways(c, run, steps, j);
    hide LoopInv, OpenAlive;
  }

  // ----- refused sessions -----

  lemma RefusedByCount(c: Config, s: State, unused: Sid)
    requires s.loop.TakeSlot? && LoopEnabled(c, s, unused)
    ensures LoopStep(c, s, unused).loop.Idle? <==> !AcquireIpSlot(s.perIp, s.loop.client.ip, c.perIpCap).ok
  {
    hide AcquireIpSlot, Look;
    var a := AcquireIpSlot(s.perIp, s.loop.client.ip, c.perIpCap);
    assert LoopStep(c, s, unused).loop == if a.ok then Bind(unused, s.loop.source) else Idle;
  }

  /** In every run, a new session is refused for its IP exactly if there is a per-IP cap and it is reached. */
  lemma SessionRefusedIff(c: Config, run: seq<State>, k: nat, unused: Sid)
    requires Run(c, run) && k < |run| && run[k].loop.TakeSlot? && LoopEnabled(c, run[k], unused)
    ensures LoopStep(c, run[k], unused).loop.Idle? <==>
            c.perIpCap > 0 && |OpenSessions(run[k], run[k].loop.client.ip)| >= c.perIpCap
  {
    hide Inv, OpenSessions, LoopStep, Run;
    InvAlways(c, run, k);
    RefusedByCount(c, run[k], unused);
    if c.perIpCap > 0 {
      CountsAreOpenSessions(c, run[k], run[k].loop.client.ip);
    }
  }
}
