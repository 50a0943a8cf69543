/**
 * When the voice relay's tables agree at rest: `by_via` keeps an entry for a closed session for
 * good if that session was unlinked before the packet loop linked it.
 */
module VoiceRest {
  import opened Bytes
  import opened StatusKeys
  import opened VoiceRelay

  predicate Swept(c: Closer, sid: Sid) {
    (c.Kill? || c.Free?) && c.sid == sid
  }

  /** `close_session` has already swept `by_via` for this session. */
  ghost predicate PastUnlink(stage: map<Sid, Stage>, closers: map<nat, Closer>, sid: Sid) {
    (sid in stage && stage[sid] == Closed) || exists id :: id in closers && Swept(closers[id], sid)
  }

  /** The packet loop is about to link a session behind its unlinking. */
  ghost predicate LateLink(s: State, step: Step) {
    step.Work? && (s.loop.LinkVia? || s.loop.Repoint?) && PastUnlink(s.stage, s.closers, s.loop.sid)
  }

  /** The step writes an entry of `by_via`, at the packet loop's source. */
  predicate Links(c: Config, s: State, step: Step) {
    step.Work? && (s.loop.LinkVia? || (s.loop.Repoint? && c.proxy && s.loop.sid in s.via && s.via[s.loop.sid] != s.loop.source))
  }

  /** For each key of `by_via`, whether the last step that wrote it linked a session behind its unlinking. */
  ghost function LateAfter(c: Config, s: State, step: Step, late: map<Addr, bool>): map<Addr, bool> {
    if Links(c, s, step) then late[s.loop.source := LateLink(s, step)] else late
  }

  /** `run` is what `steps` make of an initial state. */
  ghost predicate Traced(c: Config, run: seq<State>, steps: seq<Step>) {
    && |run| == |steps| + 1 && Init(run[0])
    && forall k :: 0 <= k < |steps| ==> Enabled(c, run[k], steps[k]) && run[k + 1] == Apply(c, run[k], steps[k])
  }

  ghost function Late(c: Config, run: seq<State>, steps: seq<Step>, k: nat): map<Addr, bool>
    requires k <= |steps| && |run| == |steps| + 1
  {
    if k == 0 then map[] else LateAfter(c, run[k - 1], steps[k - 1], Late(c, run, steps, k - 1))
  }

  // ----- what keeps the marks right -----

  ghost predicate MarkedSid(stage: map<Sid, Stage>, closers: map<nat, Closer>, sid: Sid, late: bool) {
    sid in stage && stage[sid] != Creating && (late <==> PastUnlink(stage, closers, sid))
  }

  /** An entry is of a session past its unlinking exactly if it was written late. */
  ghost predicate Marked(byVia: map<Addr, Sid>, stage: map<Sid, Stage>, closers: map<nat, Closer>, late: map<Addr, bool>) {
    forall v :: v in byVia ==> v in late && MarkedSid(stage, closers, byVia[v], late[v])
  }

  lemma MarkedStage(byVia: map<Addr, Sid>, stage: map<Sid, Stage>, closers: map<nat, Closer>, late: map<Addr, bool>, sid: Sid, to: Stage)
    requires Marked(byVia, stage, closers, late)
    requires || sid !in stage || stage[sid] == Creating || (PastUnlink(stage, closers, sid) && to == Closed)
             || (to == Closing && stage[sid] == Live)
    ensures Marked(byVia, stage[sid := to], closers, late)
  {
    forall v | v in byVia ensures v in late && MarkedSid(stage[sid := to], closers, byVia[v], late[v]) {
      assert MarkedSid(stage, closers, byVia[v], late[v]);
    }
  }

  /** A closer moves on: what it had swept stays past unlinking, and what it has swept now has no entry. */
  lemma MarkedCloser(byVia: map<Addr, Sid>, stage: map<Sid, Stage>, closers: map<nat, Closer>, late: map<Addr, bool>, id: nat, to: Closer)
    requires Marked(byVia, stage, closers, late)
    requires forall v :: v in byVia && Swept(to, byVia[v]) ==> PastUnlink(stage, closers, byVia[v])
    requires forall v :: v in byVia && id in closers && Swept(closers[id], byVia[v]) ==>
               Swept(to, byVia[v]) || (byVia[v] in stage && stage[byVia[v]] == Closed)
    ensures Marked(byVia, stage, closers[id := to], late)
  {
    forall v | v in byVia ensures v in late && MarkedSid(stage, closers[id := to], byVia[v], late[v]) {
      assert MarkedSid(stage, closers, byVia[v], late[v]);
      SamePast(stage, closers, id, to, byVia[v]);
    }
  }

  lemma SamePast(stage: map<Sid, Stage>, closers: map<nat, Closer>, id: nat, to: Closer, sid: Sid)
    requires Swept(to, sid) ==> PastUnlink(stage, closers, sid)
    requires id in closers && Swept(closers[id], sid) ==> Swept(to, sid) || (sid in stage && stage[sid] == Closed)
    ensures PastUnlink(stage, closers[id := to], sid) <==> PastUnlink(stage, closers, sid)
  {
    var after := closers[id := to];
    if x :| x in closers && Swept(closers[x], sid) {
      assert x in after && (x != id ==> Swept(after[x], sid));
      assert id in after;
    }
    if x :| x in after && Swept(after[x], sid) {
      assert x != id ==> x in closers && Swept(closers[x], sid);
    }
  }

  lemma MarkedLeave(byVia: map<Addr, Sid>, stage: map<Sid, Stage>, closers: map<nat, Closer>, late: map<Addr, bool>, id: nat)
    requires Marked(byVia, stage, closers, late) && id in closers && closers[id].Removing?
    ensures Marked(byVia, stage, closers - {id}, late)
  {
    forall v | v in byVia ensures v in late && MarkedSid(stage, closers - {id}, byVia[v], late[v]) {
      assert MarkedSid(stage, closers, byVia[v], late[v]);
      PastWithout(stage, closers, id, byVia[v]);
    }
  }

  lemma PastWithout(stage: map<Sid, Stage>, closers: map<nat, Closer>, id: nat, sid: Sid)
    requires id in closers && closers[id].Removing?
    ensures PastUnlink(stage, closers - {id}, sid) <==> PastUnlink(stage, closers, sid)
  {
    var after := closers - {id};
    if x :| x in closers && Swept(closers[x], sid) {
      assert x in after && Swept(after[x], sid);
    }
    if x :| x in after && Swept(after[x], sid) {
      assert x in closers && Swept(closers[x], sid);
    }
  }

  lemma MarkedEntry(byVia: map<Addr, Sid>, stage: map<Sid, Stage>, closers: map<nat, Closer>, late: map<Addr, bool>,
                    gone: set<Addr>, v: Addr, sid: Sid, mark: bool)
    requires Marked(byVia, stage, closers, late) && MarkedSid(stage, closers, sid, mark)
    ensures Marked((byVia - gone)[v := sid], stage, closers, late[v := mark])
  {
    hide MarkedSid;
  }

  lemma MarkedWithout(byVia: map<Addr, Sid>, stage: map<Sid, Stage>, closers: map<nat, Closer>, late: map<Addr, bool>, sid: Sid)
    requires Marked(byVia, stage, closers, late)
    ensures Marked(Without(byVia, sid), stage, closers, late)
    ensures forall v :: v in Without(byVia, sid) ==> Without(byVia, sid)[v] != sid
  {
    hide MarkedSid;
  }

  lemma SweptIsPast(stage: map<Sid, Stage>, closers: map<nat, Closer>, id: nat)
    requires id in closers && (closers[id].Kill? || closers[id].Free?)
    ensures PastUnlink(stage, closers, closers[id].sid)
  {
    assert Swept(closers[id], closers[id].sid);
  }

  // ----- every step keeps the marks right -----

  ghost predicate MarkedState(s: State, late: map<Addr, bool>) {
    Marked(s.byVia, s.stage, s.closers, late)
  }

  lemma LinkingKeepsMarks(c: Config, s: State, unused: Sid, late: map<Addr, bool>)
    requires CreatingInv(s.loop, s.stage) && MarkedState(s, late)
    requires LoopEnabled(c, s, unused) && (s.loop.Repoint? || (s.loop.LinkVia? && c.proxy))
    ensures MarkedState(Act(c, s, unused), LateAfter(c, s, Work(unused), late))
  {
    hide Marked, PastUnlink;
    var sid, step := s.loop.sid, Work(unused);
    assert s.stage[sid] != Creating;
    if Links(c, s, step) {
      var gone := if s.loop.LinkVia? then {} else {s.via[sid]};
      assert s.byVia - {} == s.byVia;
      MarkedEntry(s.byVia, s.stage, s.closers, late, gone, s.loop.source, sid, LateLink(s, step));
    }
  }

  lemma CreatingKeepsMarks(c: Config, s: State, unused: Sid, late: map<Addr, bool>)
    requires CreatingInv(s.loop, s.stage) && MarkedState(s, late)
    requires LoopEnabled(c, s, unused) && (s.loop.TakeSlot? || s.loop.Insert?)
    ensures MarkedState(Act(c, s, unused), late)
  {
    hide Marked, PastUnlink, AcquireIpSlot;
    if s.loop.TakeSlot? {
      MarkedStage(s.byVia, s.stage, s.closers, late, unused, Creating);
    } else {
      MarkedStage(s.byVia, s.stage, s.closers, late, s.loop.sid, Live);
    }
  }

  lemma SendKeepsMarks(c: Config, s: State, unused: Sid, late: map<Addr, bool>)
    requires MarkedState(s, late) && LoopEnabled(c, s, unused) && s.loop.Send?
    ensures MarkedState(Act(c, s, unused), late)
  {
    hide Marked;
  }

  lemma ActKeepsMarks(c: Config, s: State, unused: Sid, late: map<Addr, bool>)
    requires CreatingInv(s.loop, s.stage) && MarkedState(s, late) && (s.loop.LinkVia? ==> c.proxy)
    requires LoopEnabled(c, s, unused) && !Looking(s.loop)
    ensures MarkedState(Act(c, s, unused), LateAfter(c, s, Work(unused), late))
  {
    hide MarkedState, Act, CreatingInv, LateLink;
    if s.loop.LinkVia? || s.loop.Repoint? {
      LinkingKeepsMarks(c, s, unused, late);
    } else if s.loop.Send? {
      SendKeepsMarks(c, s, unused, late);
    } else {
      CreatingKeepsMarks(c, s, unused, late);
    }
  }

  lemma DropKeepsMarks(c: Config, s: State, late: map<Addr, bool>)
    requires CreatingInv(s.loop, s.stage) && MarkedState(s, late) && Enabled(c, s, Drop)
    ensures MarkedState(DropStep(s), late)
  {
    hide Marked, PastUnlink;
    if s.loop.Bind? {
      MarkedStage(s.byVia, s.stage, s.closers, late, s.loop.sid, Closed);
    }
  }

  lemma RemovingKeepsMarks(c: Config, s: State, id: nat, late: map<Addr, bool>)
    requires SessionsInv(s.sessions, s.client, s.stage) && MarkedState(s, late)
    requires Enabled(c, s, CloseWork(id)) && s.closers[id].Removing?
    ensures MarkedState(CloseStep(s, id), late)
  {
    hide Marked, PastUnlink;
    var addrs := s.closers[id].addrs;
    if addrs == [] {
      MarkedLeave(s.byVia, s.stage, s.closers, late, id);
    } else if addrs[0] in s.sessions {
      var sid := s.sessions[addrs[0]];
      MarkedStage(s.byVia, s.stage, s.closers, late, sid, Closing);
      MarkedCloser(s.byVia, s.stage[sid := Closing], s.closers, late, id, Unlink(sid, addrs[1..]));
    } else {
      MarkedCloser(s.byVia, s.stage, s.closers, late, id, Removing(addrs[1..]));
    }
  }

  lemma UnlinkMarks(byVia: map<Addr, Sid>, stage: map<Sid, Stage>, closers: map<nat, Closer>, late: map<Addr, bool>, id: nat)
    requires Marked(byVia, stage, closers, late) && id in closers && closers[id].Unlink?
    ensures var Unlink(sid, addrs) := closers[id];
            Marked(Without(byVia, sid), stage, closers[id := Kill(sid, addrs)], late)
  {
    hide Marked, PastUnlink;
    var Unlink(sid, addrs) := closers[id];
    MarkedWithout(byVia, stage, closers, late, sid);
    MarkedCloser(Without(byVia, sid), stage, closers, late, id, Kill(sid, addrs));
  }

  lemma KillMarks(byVia: map<Addr, Sid>, stage: map<Sid, Stage>, closers: map<nat, Closer>, late: map<Addr, bool>, id: nat)
    requires Marked(byVia, stage, closers, late) && id in closers && closers[id].Kill?
    ensures var Kill(sid, addrs) := closers[id]; Marked(byVia, stage, closers[id := Free(sid, addrs)], late)
  {
    hide Marked, PastUnlink;
    var Kill(sid, addrs) := closers[id];
    SweptIsPast(stage, closers, id);
    MarkedCloser(byVia, stage, closers, late, id, Free(sid, addrs));
  }

  lemma FreeMarks(byVia: map<Addr, Sid>, stage: map<Sid, Stage>, closers: map<nat, Closer>, late: map<Addr, bool>, id: nat)
    requires Marked(byVia, stage, closers, late) && id in closers && closers[id].Free?
    ensures var Free(sid, addrs) := closers[id]; Marked(byVia, stage[sid := Closed], closers[id := Removing(addrs)], late)
  {
    hide Marked, PastUnlink;
    var Free(sid, addrs) := closers[id];
    SweptIsPast(stage, closers, id);
    MarkedStage(byVia, stage, closers, late, sid, Closed);
    MarkedCloser(byVia, stage[sid := Closed], closers, late, id, Removing(addrs));
  }

  lemma UnlinkKeepsMarks(s: State, id: nat, late: map<Addr, bool>)
    requires MarkedState(s, late) && id in s.closers && s.closers[id].Unlink? && Known(s, s.closers[id].sid)
    ensures MarkedState(CloseStep(s, id), late)
  {
    hide Marked, Without, TakeOut;
    UnlinkMarks(s.byVia, s.stage, s.closers, late, id);
  }

  lemma KillKeepsMarks(s: State, id: nat, late: map<Addr, bool>)
    requires MarkedState(s, late) && id in s.closers && s.closers[id].Kill? && Known(s, s.closers[id].sid)
    ensures MarkedState(CloseStep(s, id), late)
  {
    hide Marked, Without, TakeOut;
    KillMarks(s.byVia, s.stage, s.closers, late, id);
  }

  lemma FreeKeepsMarks(s: State, id: nat, late: map<Addr, bool>)
    requires MarkedState(s, late) && id in s.closers && s.closers[id].Free? && Known(s, s.closers[id].sid)
    ensures MarkedState(CloseStep(s, id), late)
  {
    hide Marked, Without, TakeOut;
    FreeMarks(s.byVia, s.stage, s.closers, late, id);
  }

  lemma CloseKeepsMarks(c: Config, s: State, id: nat, late: map<Addr, bool>)
    requires SessionsInv(s.sessions, s.client, s.stage) && MarkedState(s, late) && Enabled(c, s, CloseWork(id))
    ensures MarkedState(CloseStep(s, id), late)
  {
    hide MarkedState, SessionsInv, CloseStep, Known;
    if s.closers[id].Removing? {
      RemovingKeepsMarks(c, s, id, late);
    } else if s.closers[id].Unlink? {
      UnlinkKeepsMarks(s, id, late);
    } else if s.closers[id].Kill? {
      KillKeepsMarks(s, id, late);
    } else {
      FreeKeepsMarks(s, id, late);
    }
  }

  lemma InvParts(c: Config, s: State)
    requires Inv(c, s)
    ensures CreatingInv(s.loop, s.stage) && SessionsInv(s.sessions, s.client, s.stage) && ClosersInv(s.closers, s.stage)
    ensures ViaInv(c.proxy, s.byVia, s.via) && (s.loop.LinkVia? ==> c.proxy)
  {
    hide SlotsInv, CapInv, ClosesInv, DeliveredInv, Counted, ViaInv, SessionsInv, ClosersInv, CreatingInv;
  }

  lemma StepKeepsMarks(c: Config, s: State, step: Step, late: map<Addr, bool>)
    requires Inv(c, s) && MarkedState(s, late) && Enabled(c, s, step)
    ensures MarkedState(Apply(c, s, step), LateAfter(c, s, step, late))
  {
    InvParts(c, s);
    hide Inv, Marked, PastUnlink, Act, DropStep, CloseStep, Look, CreatingInv, SessionsInv;
    match step {
      case Work(unused) =>
        if !Looking(s.loop) {
          ActKeepsMarks(c, s, unused, late);
        }
      case Drop => DropKeepsMarks(c, s, late);
      case CloseWork(id) => CloseKeepsMarks(c, s, id, late);
      case Receive(_, _) =>
      case StartClose(id, addrs) => MarkedCloser(s.byVia, s.stage, s.closers, late, id, Removing(addrs));
    }
  }

  lemma {:induction false} MarkedAlways(c: Config, run: seq<State>, steps: seq<Step>, k: nat)
    requires Traced(c, run, steps) && k < |run|
    ensures Inv(c, run[k]) && MarkedState(run[k], Late(c, run, steps, k))
  {
    if k == 0 {
      assert Counted(map[], map[]) == map[];
    } else {
      MarkedAlways(c, run, steps, k - 1);
      hide Inv, Marked, Apply, LateLink;
      assert Enabled(c, run[k - 1], steps[k - 1]) && run[k - 1 + 1] == Apply(c, run[k - 1], steps[k - 1]);
      hide Enabled;
      StepKeepsInv(c, run[k - 1], steps[k - 1]);
      StepKeepsMarks(c, run[k - 1], steps[k - 1], Late(c, run, steps, k - 1));
    }
  }

  // ----- at rest -----

  predicate AtRest(s: State) {
    s.loop.Idle? && s.closers == map[]
  }

  /**
   * In every run, at rest: an entry of `by_via` names a closed session exactly if the last step
   * that wrote it linked late; otherwise it names a live session, in the table under its
   * client, whose via is the entry's key.
   */
  lemma ClosedIffLate(c: Config, run: seq<State>, steps: seq<Step>, k: nat, v: Addr)
    requires Traced(c, run, steps) && k < |run| && AtRest(run[k]) && v in run[k].byVia
    ensures v in Late(c, run, steps, k)
    ensures var s, late := run[k], Late(c, run, steps, k)[v];
            var sid := s.byVia[v];
            && sid in s.stage && (s.stage[sid] == Closed <==> late)
            && (!late ==> sid in s.client && s.client[sid] in s.sessions && s.sessions[s.client[sid]] == sid)
            && sid in s.via && s.via[sid] == v
  {
    MarkedAlways(c, run, steps, k);
    var s, late := run[k], Late(c, run, steps, k);
    hide Traced, Late, Inv, PastUnlink;
    InvParts(c, s);
    assert MarkedSid(s.stage, s.closers, s.byVia[v], late[v]);
    StageAtRest(s, s.byVia[v]);
  }

  lemma {:induction false} NeverLate(c: Config, run: seq<State>, steps: seq<Step>, k: nat, v: Addr)
    requires Traced(c, run, steps) && k <= |steps| && (forall i :: 0 <= i < k ==> !LateLink(run[i], steps[i]))
    ensures v in Late(c, run, steps, k) ==> !Late(c, run, steps, k)[v]
  {
    hide Traced, LateLink, Links;
    if k > 0 {
      NeverLate(c, run, steps, k - 1, v);
    }
  }

  /** So in a run without late links, at rest each entry of `by_via` is of a live session, with that via. */
  lemma TablesAgreeAtRest(c: Config, run: seq<State>, steps: seq<Step>, k: nat, v: Addr)
    requires Traced(c, run, steps) && k < |run| && AtRest(run[k]) && v in run[k].byVia
    requires forall i :: 0 <= i < k ==> !LateLink(run[i], steps[i])
    ensures var s := run[k];
            var sid := s.byVia[v];
            && sid in s.client && s.client[sid] in s.sessions && s.sessions[s.client[sid]] == sid
            && sid in s.via && s.via[sid] == v
  {
    hide LateLink, Late, Links;
    ClosedIffLate(c, run, steps, k, v);
    NeverLate(c, run, steps, k, v);
  }

  lemma StageAtRest(s: State, sid: Sid)
    requires AtRest(s) && CreatingInv(s.loop, s.stage) && ClosersInv(s.closers, s.stage) && sid in s.stage
    ensures s.stage[sid] == Live || s.stage[sid] == Closed
    ensures PastUnlink(s.stage, s.closers, sid) <==> s.stage[sid] == Closed
  {
  }

  // ----- a late link -----

  /** `steps` lead from `s` to `end`. */
  ghost predicate Leads(c: Config, s: State, steps: seq<Step>, end: State)
    decreases |steps|
  {
    if steps == [] then s == end else Enabled(c, s, steps[0]) && Leads(c, Apply(c, s, steps[0]), steps[1..], end)
  }

  ghost predicate Reaches(c: Config, s: State, end: State) {
    exists steps :: Leads(c, s, steps, end)
  }

  lemma Before(c: Config, s: State, step: Step, s': State, end: State)
    requires Enabled(c, s, step) && s' == Apply(c, s, step) && Reaches(c, s', end)
    ensures Reaches(c, s, end)
  {
    var steps :| Leads(c, s', steps, end);
    assert ([step] + steps)[1..] == steps;
    assert Leads(c, s, [step] + steps, end);
  }

  const OPEN := Config(true, 0, 0)

  const EMPTY := State(map[], map[], map[], map[], map[], map[], map[], map[], Idle, map[], [])

  /** Client `a`'s session has been closed with the packet loop about to link it. */
  function Removed(v: Addr, a: Addr): State {
    EMPTY.(client := map[0 := a], via := map[0 := v], dead := map[0 := true],
           stage := map[0 := Closed], closes := map[0 := 1], loop := LinkVia(0, v))
  }

  function Behind(v: Addr, a: Addr): State {
    Removed(v, a).(byVia := map[v := 0], loop := Idle)
  }

  /** The session in the hands of a closer, with the packet loop still about to link it. */
  function InHands(v: Addr, a: Addr, dead: bool, closer: Closer): State {
    Removed(v, a).(dead := map[0 := dead], stage := map[0 := Closing], closers := map[0 := closer])
  }

  lemma TakenOut(v: Addr, a: Addr, end: State)
    requires Reaches(OPEN, InHands(v, a, false, Unlink(0, [])), end)
    ensures Reaches(OPEN, Unlinked(EMPTY, 0, a, v), end)
  {
    hide Reaches;
    var s := Unlinked(EMPTY, 0, a, v).(closers := map[0 := Removing([a])]);
    assert [a][1..] == [] && map[a := 0] - {a} == map[];
    assert Apply(OPEN, s, CloseWork(0)) == InHands(v, a, false, Unlink(0, []));
    Before(OPEN, s, CloseWork(0), InHands(v, a, false, Unlink(0, [])), end);
    Before(OPEN, Unlinked(EMPTY, 0, a, v), StartClose(0, [a]), s, end);
  }

  lemma Killed(v: Addr, a: Addr, end: State)
    requires Reaches(OPEN, InHands(v, a, true, Free(0, [])), end)
    ensures Reaches(OPEN, InHands(v, a, false, Unlink(0, [])), end)
  {
    hide Reaches;
    var s := InHands(v, a, false, Kill(0, []));
    assert Apply(OPEN, s, CloseWork(0)) == InHands(v, a, true, Free(0, []));
    Before(OPEN, s, CloseWork(0), InHands(v, a, true, Free(0, [])), end);
    assert Apply(OPEN, InHands(v, a, false, Unlink(0, [])), CloseWork(0)) == s;
    Before(OPEN, InHands(v, a, false, Unlink(0, [])), CloseWork(0), s, end);
  }

  lemma Freed(v: Addr, a: Addr, end: State)
    requires Reaches(OPEN, Removed(v, a), end)
    ensures Reaches(OPEN, InHands(v, a, true, Free(0, [])), end)
  {
    hide Reaches;
    var s := Removed(v, a).(closers := map[0 := Removing([])]);
    assert Apply(OPEN, s, CloseWork(0)) == Removed(v, a);
    Before(OPEN, s, CloseWork(0), Removed(v, a), end);
    assert Apply(OPEN, InHands(v, a, true, Free(0, [])), CloseWork(0)) == s;
    Before(OPEN, InHands(v, a, true, Free(0, [])), CloseWork(0), s, end);
  }

  lemma LinkedLate(v: Addr, a: Addr)
    ensures Reaches(OPEN, Removed(v, a), Behind(v, a))
  {
    assert Leads(OPEN, Behind(v, a), [], Behind(v, a));
    var s := Behind(v, a).(loop := Send(0, v, false));
    hide Reaches, Leads;
    assert Apply(OPEN, s, Work(0)) == Behind(v, a);
    Before(OPEN, s, Work(0), Behind(v, a), Behind(v, a));
    assert Apply(OPEN, Removed(v, a), Work(0)) == s;
    Before(OPEN, Removed(v, a), Work(0), s, Behind(v, a));
  }

  /**
   * The logout hook can close a session between its insertion and its linking: then everything
   * is at rest, no session is left, and `by_via` still names the closed one.
   */
  lemma LateLinkStays(v: Addr, a: Addr)
    ensures var end := Behind(v, a);
            && Init(EMPTY) && Reaches(OPEN, EMPTY, end) && AtRest(end) && end.sessions == map[]
            && end.byVia == map[v := 0] && end.stage == map[0 := Closed]
  {
    hide Reaches;
    var end := Behind(v, a);
    LinkedLate(v, a);
    Freed(v, a, end);
    Killed(v, a, end);
    TakenOut(v, a, end);
    Inserts(EMPTY, 0, a, v, end);
    Opens(EMPTY, 0, a, v, end);
    FindsNothing(EMPTY, a, v, end);
  }

  // ----- two clients behind one via -----

  /** `s` with a session `n` for client `a`, opened by a datagram from `v`. */
  function Added(s: State, n: Sid, a: Addr, v: Addr): State {
    s.(sessions := s.sessions[a := n], byVia := s.byVia[v := n], client := s.client[n := a], via := s.via[n := v],
       dead := s.dead[n := false], stage := s.stage[n := Live], closes := s.closes[n := 0],
       delivered := s.delivered + [Delivery(n, v, false, v, false)])
  }

  /** The same before it is linked. */
  function Unlinked(s: State, n: Sid, a: Addr, v: Addr): State {
    s.(sessions := s.sessions[a := n], client := s.client[n := a], via := s.via[n := v],
       dead := s.dead[n := false], stage := s.stage[n := Live], closes := s.closes[n := 0], loop := LinkVia(n, v))
  }

  lemma FindsNothing(s: State, a: Addr, v: Addr, end: State)
    requires s.loop.Idle? && a !in s.sessions && Reaches(OPEN, s.(loop := CapCheck(a, v)), end)
    ensures Reaches(OPEN, s, end)
  {
    hide Reaches;
    Before(OPEN, s.(loop := Find(a, v, 0)), Work(0), s.(loop := CapCheck(a, v)), end);
    Before(OPEN, s.(loop := Find(a, v, 1)), Work(0), s.(loop := Find(a, v, 0)), end);
    Before(OPEN, s.(loop := Find(a, v, 2)), Work(0), s.(loop := Find(a, v, 1)), end);
    Before(OPEN, s, Receive(v, Some(a)), s.(loop := Find(a, v, 2)), end);
  }

  function Opened(s: State, n: Sid, a: Addr, v: Addr, loop: Loop): State {
    s.(client := s.client[n := a], via := s.via[n := v], dead := s.dead[n := false],
       stage := s.stage[n := Creating], closes := s.closes[n := 0], loop := loop)
  }

  lemma Opens(s: State, n: Sid, a: Addr, v: Addr, end: State)
    requires n !in s.stage && Reaches(OPEN, Opened(s, n, a, v, Insert(n, v)), end)
    ensures Reaches(OPEN, s.(loop := CapCheck(a, v)), end)
  {
    hide Reaches;
    var bind, take := Opened(s, n, a, v, Bind(n, v)), s.(loop := TakeSlot(a, v));
    Before(OPEN, bind, Work(n), Opened(s, n, a, v, Insert(n, v)), end);
    assert Apply(OPEN, take, Work(n)) == bind;
    Before(OPEN, take, Work(n), bind, end);
    Before(OPEN, s.(loop := CapCheck(a, v)), Work(n), take, end);
  }

  lemma Inserts(s: State, n: Sid, a: Addr, v: Addr, end: State)
    requires Reaches(OPEN, Unlinked(s, n, a, v), end)
    ensures Reaches(OPEN, Opened(s, n, a, v, Insert(n, v)), end)
  {
    hide Reaches;
    var insert := Opened(s, n, a, v, Insert(n, v));
    assert insert.stage[n := Live] == s.stage[n := Live];
    assert Apply(OPEN, insert, Work(n)) == Unlinked(s, n, a, v);
    Before(OPEN, insert, Work(n), Unlinked(s, n, a, v), end);
  }

  lemma LinksIt(s: State, n: Sid, a: Addr, v: Addr, end: State)
    requires s.loop.Idle? && Reaches(OPEN, Added(s, n, a, v), end)
    ensures Reaches(OPEN, Unlinked(s, n, a, v), end)
  {
    hide Reaches;
    var send := Unlinked(s, n, a, v).(byVia := s.byVia[v := n], loop := Send(n, v, false));
    assert Apply(OPEN, send, Work(n)) == Added(s, n, a, v);
    Before(OPEN, send, Work(n), Added(s, n, a, v), end);
    Before(OPEN, Unlinked(s, n, a, v), Work(n), send, end);
  }

  lemma AddsSession(s: State, n: Sid, a: Addr, v: Addr, end: State)
    requires s.loop.Idle? && a !in s.sessions && n !in s.stage && Reaches(OPEN, Added(s, n, a, v), end)
    ensures Reaches(OPEN, s, end)
  {
    hide Reaches;
    LinksIt(s, n, a, v, end);
    Inserts(s, n, a, v, end);
    Opens(s, n, a, v, end);
    FindsNothing(s, a, v, end);
  }

  function Both(a: Addr, b: Addr, v: Addr): State {
    Added(Added(EMPTY, 0, a, v), 1, b, v)
  }

  /** The first client's next datagram comes from `w`: its session moves there. */
  function Moved(a: Addr, b: Addr, v: Addr, w: Addr): State {
    var s := Both(a, b, v);
    s.(byVia := map[w := 0], via := s.via[0 := w], delivered := s.delivered + [Delivery(0, w, false, w, false)])
  }

  /** `s` after a datagram of client `a`, whose session is `n`, from a new via. */
  function Repointed(s: State, n: Sid, w: Addr): State
    requires n in s.via
  {
    s.(byVia := (s.byVia - {s.via[n]})[w := n], via := s.via[n := w], delivered := s.delivered + [Delivery(n, w, false, w, false)])
  }

  lemma Repoints(s: State, n: Sid, a: Addr, w: Addr, end: State)
    requires s.loop.Idle? && a in s.sessions && s.sessions[a] == n && Known(s, n) && s.via[n] != w && !s.dead[n]
    requires Reaches(OPEN, Repointed(s, n, w), end)
    ensures Reaches(OPEN, s, end)
  {
    hide Reaches;
    RepointsAndSends(s, n, w, end);
    Before(OPEN, s.(loop := Find(a, w, 2)), Work(0), s.(loop := Repoint(n, w)), end);
    Before(OPEN, s, Receive(w, Some(a)), s.(loop := Find(a, w, 2)), end);
  }

  lemma RepointsAndSends(s: State, n: Sid, w: Addr, end: State)
    requires s.loop.Idle? && Known(s, n) && s.via[n] != w && !s.dead[n] && Reaches(OPEN, Repointed(s, n, w), end)
    ensures Reaches(OPEN, s.(loop := Repoint(n, w)), end)
  {
    hide Reaches;
    var send := s.(byVia := (s.byVia - {s.via[n]})[w := n], via := s.via[n := w], loop := Send(n, w, false));
    assert Apply(OPEN, send, Work(0)) == Repointed(s, n, w);
    Before(OPEN, send, Work(0), Repointed(s, n, w), end);
    Before(OPEN, s.(loop := Repoint(n, w)), Work(0), send, end);
  }

  lemma MovesAway(a: Addr, b: Addr, v: Addr, w: Addr)
    requires a != b && v != w
    ensures Reaches(OPEN, Both(a, b, v), Moved(a, b, v, w))
  {
    var s, end := Both(a, b, v), Moved(a, b, v, w);
    assert Leads(OPEN, end, [], end);
    hide Reaches, Leads;
    assert (s.byVia - {v})[w := 0] == map[w := 0];
    assert Repointed(s, 0, w) == end;
    Repoints(s, 0, a, w, end);
  }

  /**
   * The other way round the tables need not agree: of two clients whose datagrams came from one
   * via, the first moves to another, and `repoint_via` takes the entry the second still uses.
   */
  lemma SharedViaLosesEntry(a: Addr, b: Addr, v: Addr, w: Addr)
    requires a != b && v != w
    ensures var end := Moved(a, b, v, w);
            && Init(EMPTY) && Reaches(OPEN, EMPTY, end) && AtRest(end)
            && end.sessions == map[a := 0, b := 1] && end.via[1] == v && end.stage[1] == Live && v !in end.byVia
  {
    hide Reaches;
    var end := Moved(a, b, v, w);
    MovesAway(a, b, v, w);
    AddsSession(Added(EMPTY, 0, a, v), 1, b, v, end);
    AddsSession(EMPTY, 0, a, v, end);
  }
}
