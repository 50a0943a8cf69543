/**
 * The bounded queue and writer thread of `src/state/connection_tracker.rs`, interleaved one
 * channel operation at a time.
 */
module ConnectionTracking {
  datatype ConnectionRecord = ConnectionRecord(
    uuid: string, name: string, ip: string, host: string, protocolVersion: int,
    bytesSent: int, bytesReceived: int, connectedAt: int, disconnectedAt: int)

  /** The writer thread's next operation. */
  datatype Writer =
    | Select                         // waiting on the queue, the shutdown signal or the timer
    | Filling                        // try_recv until the batch is full or the queue is empty
    | Writing                        // write_batch
    | Draining                       // after shutdown: try_recv until empty
    | FinalWriting                   // write_batch of what was drained
    | Done

  /**
   * `enabled`: `inner` is present, so `record` can still reach the queue. `offered` are the
   * records that came while it was, `taken` which of them the queue took; `batches` are the
   * writes so far, each with its success.
   */
  datatype State = State(
    enabled: bool,
    shutdown: bool,
    queue: seq<ConnectionRecord>,
    batch: seq<ConnectionRecord>,
    rows: seq<ConnectionRecord>,
    batches: seq<Batch>,
    writer: Writer,
    offered: seq<ConnectionRecord>,
    taken: seq<bool>,
    dropped: nat)

  datatype Batch = Batch(records: seq<ConnectionRecord>, ok: bool)

  datatype Step =
    | Record(rec: ConnectionRecord)     // a finished session
    | Stop               // stop_internal: take `inner`
    | Signal             // stop_internal: send the shutdown signal
    | Write(ok: bool)    // the writer's next operation
    | SeeShutdown        // the writer picks the shutdown signal, or the closed queue

  datatype Config = Config(capacity: nat, batchSize: nat)

  ghost predicate Init(s: State) {
    s == State(true, false, [], [], [], [], Select, [], [], 0)
  }

  ghost predicate Enabled(c: Config, s: State, step: Step) {
    match step
    case Record(_) => true
    case Stop => s.enabled
    case Signal => !s.enabled
    case Write(_) => !s.writer.Done? && (s.writer.Select? ==> s.queue != [])
    case SeeShutdown => s.writer.Select? && s.shutdown
  }

  function BatchLimit(c: Config): nat {
    if c.batchSize < 1 then 1 else c.batchSize
  }

  function Capacity(c: Config): nat {
    if c.capacity < 1 then 1 else c.capacity
  }

  function RecordStep(c: Config, s: State, rec: ConnectionRecord): State {
    if !s.enabled then s
    else if |s.queue| >= Capacity(c) then s.(offered := s.offered + [rec], taken := s.taken + [false], dropped := s.dropped + 1)
    else s.(offered := s.offered + [rec], taken := s.taken + [true], queue := s.queue + [rec])
  }

  function Receive(s: State): State
    requires s.queue != []
  {
    s.(queue := s.queue[1..], batch := s.batch + [s.queue[0]])
  }

  function Commit(s: State, ok: bool): State {
    s.(rows := if ok then s.rows + s.batch else s.rows, batches := s.batches + [Batch(s.batch, ok)], batch := [])
  }

  function WriteStep(c: Config, s: State, ok: bool): State
    requires s.writer.Select? ==> s.queue != []
  {
    match s.writer
    case Select => Receive(s).(writer := Filling)
    case Filling => if |s.batch| < BatchLimit(c) && s.queue != [] then Receive(s) else s.(writer := Writing)
    case Writing => Commit(s, ok).(writer := Select)
    case Draining => if s.queue != [] then Receive(s) else s.(writer := FinalWriting)
    case FinalWriting => Commit(s, ok).(writer := Done)
    case Done => s
  }

  function Apply(c: Config, s: State, step: Step): State
    requires Enabled(c, s, step)
  {
    match step
    case Record(rec) => RecordStep(c, s, rec)
    case Stop => s.(enabled := false)
    case Signal => s.(shutdown := true)
    case Write(ok) => WriteStep(c, s, ok)
    case SeeShutdown => s.(writer := Draining)
  }

  ghost predicate Follows(c: Config, s: State, s': State) {
    exists step :: Enabled(c, s, step) && s' == Apply(c, s, step)
  }

  ghost predicate Run(c: Config, run: seq<State>) {
    run != [] && Init(run[0]) && forall k :: 0 <= k < |run| - 1 ==> Follows(c, run[k], run[k + 1])
  }

  /** The offered records that were taken, in the order they came. */
  function Accepted(offered: seq<ConnectionRecord>, taken: seq<bool>): seq<ConnectionRecord> {
    if offered == [] || taken == [] then []
    else (if taken[0] then [offered[0]] else []) + Accepted(offered[1..], taken[1..])
  }

  function Refused(taken: seq<bool>): nat {
    if taken == [] then 0 else (if taken[0] then 0 else 1) + Refused(taken[1..])
  }

  /** The records of all writes, in order. */
  function Attempted(batches: seq<Batch>): seq<ConnectionRecord> {
    if batches == [] then [] else batches[0].records + Attempted(batches[1..])
  }

  /** The records of the writes that succeeded, in order. */
  function Committed(batches: seq<Batch>): seq<ConnectionRecord> {
    if batches == [] then [] else (if batches[0].ok then batches[0].records else []) + Committed(batches[1..])
  }

  lemma {:induction false} AcceptedSnoc(offered: seq<ConnectionRecord>, taken: seq<bool>, rec: ConnectionRecord, ok: bool)
    requires |offered| == |taken|
    ensures Accepted(offered + [rec], taken + [ok]) == Accepted(offered, taken) + if ok then [rec] else []
    ensures Refused(taken + [ok]) == Refused(taken) + if ok then 0 else 1
    decreases |offered|
  {
    if offered != [] {
      assert (offered + [rec])[1..] == offered[1..] + [rec] && (taken + [ok])[1..] == taken[1..] + [ok];
      AcceptedSnoc(offered[1..], taken[1..], rec, ok);
    }
  }

  lemma {:induction false} AcceptedCount(offered: seq<ConnectionRecord>, taken: seq<bool>)
    requires |offered| == |taken|
    ensures |offered| == |Accepted(offered, taken)| + Refused(taken)
    decreases |offered|
  {
    if offered != [] {
      AcceptedCount(offered[1..], taken[1..]);
    }
  }

  lemma {:induction false} BatchesSnoc(batches: seq<Batch>, b: Batch)
    ensures Attempted(batches + [b]) == Attempted(batches) + b.records
    ensures Committed(batches + [b]) == Committed(batches) + if b.ok then b.records else []
    decreases |batches|
  {
    if batches != [] {
      assert (batches + [b])[1..] == batches[1..] + [b];
      BatchesSnoc(batches[1..], b);
    }
  }

  /** Every accepted record is in exactly one place, and the places are in acceptance order. */
  ghost predicate Conserved(accepted: seq<ConnectionRecord>, attempted: seq<ConnectionRecord>,
                            batch: seq<ConnectionRecord>, queue: seq<ConnectionRecord>) {
    accepted == attempted + batch + queue
  }

  ghost predicate Inv(c: Config, s: State) {
    && |s.offered| == |s.taken| && s.dropped == Refused(s.taken)
    && |s.queue| <= Capacity(c)
    && Conserved(Accepted(s.offered, s.taken), Attempted(s.batches), s.batch, s.queue)
    && s.rows == Committed(s.batches)
    && (s.shutdown ==> !s.enabled)
    && (s.writer.Draining? || s.writer.FinalWriting? || s.writer.Done? ==> !s.enabled)
    && (s.writer.FinalWriting? || s.writer.Done? ==> s.queue == [])
    && (s.writer.Select? || s.writer.Done? ==> s.batch == [])
  }

  lemma RecordKeepsInv(c: Config, s: State, rec: ConnectionRecord)
    requires Inv(c, s)
    ensures Inv(c, RecordStep(c, s, rec))
  {
    hide Accepted, Refused, Attempted, Committed;
    AcceptedSnoc(s.offered, s.taken, rec, |s.queue| < Capacity(c));
    var attempted := Attempted(s.batches);
    assert attempted + s.batch + (s.queue + [rec]) == attempted + s.batch + s.queue + [rec];
  }

  lemma ReceiveConserves(accepted: seq<ConnectionRecord>, attempted: seq<ConnectionRecord>,
                         batch: seq<ConnectionRecord>, queue: seq<ConnectionRecord>)
    requires Conserved(accepted, attempted, batch, queue) && queue != []
    ensures Conserved(accepted, attempted, batch + [queue[0]], queue[1..])
  {
    assert attempted + batch + queue == attempted + (batch + [queue[0]]) + queue[1..];
  }

  /** Taking one record off the queue, on the way to any state that may hold a batch. */
  lemma ReceiveKeepsInv(c: Config, s: State, to: Writer)
    requires Inv(c, s) && s.queue != [] && ((s.writer.Select? && to.Filling?) || (to == s.writer && (to.Filling? || to.Draining?)))
    ensures Inv(c, Receive(s).(writer := to))
  {
    hide Conserved, Accepted, Refused, Attempted, Committed;
    ReceiveConserves(Accepted(s.offered, s.taken), Attempted(s.batches), s.batch, s.queue);
  }

  lemma CommitKeepsInv(c: Config, s: State, ok: bool, to: Writer)
    requires Inv(c, s) && ((s.writer.Writing? && to.Select?) || (s.writer.FinalWriting? && to.Done?))
    ensures Inv(c, Commit(s, ok).(writer := to))
  {
    hide Accepted, Refused, Attempted, Committed;
    BatchesSnoc(s.batches, Batch(s.batch, ok));
    assert Attempted(s.batches) + s.batch + [] == Attempted(s.batches) + s.batch;
    assert Committed(s.batches) + [] == Committed(s.batches);
  }

  lemma WriteKeepsInv(c: Config, s: State, ok: bool)
    requires Inv(c, s) && (s.writer.Select? ==> s.queue != [])
    ensures Inv(c, WriteStep(c, s, ok))
  {
    hide Conserved, Commit, Receive, Accepted, Refused, Attempted, Committed;
    match s.writer {
      case Select => ReceiveKeepsInv(c, s, Filling);
      case Filling =>
        if |s.batch| < BatchLimit(c) && s.queue != [] {
          ReceiveKeepsInv(c, s, Filling);
          SameWriter(s);
        }
      case Writing => CommitKeepsInv(c, s, ok, Select);
      case Draining =>
        if s.queue != [] {
          ReceiveKeepsInv(c, s, Draining);
          SameWriter(s);
        }
      case FinalWriting => CommitKeepsInv(c, s, ok, Done);
      case Done =>
    }
  }

  lemma SameWriter(s: State)
    requires s.queue != []
    ensures Receive(s).(writer := s.writer) == Receive(s)
  {
  }

  lemma {:induction false} InvAlways(c: Config, run: seq<State>, k: nat)
    requires Run(c, run) && k < |run|
    ensures Inv(c, run[k])
  {
    if k > 0 {
      InvAlways(c, run, k - 1);
      var s := run[k - 1];
      assert Follows(c, s, run[k - 1 + 1]);
      var step :| Enabled(c, s, step) && run[k] == Apply(c, s, step);
      match step {
        case Record(rec) => RecordKeepsInv(c, s, rec);
        case Write(ok) => WriteKeepsInv(c, s, ok);
        case _ =>
      }
    }
  }

  /**
   * In every run, the records offered while tracking is on divide, in the order they came, into
   * those the queue took and those counted as dropped, and the queue never exceeds its capacity.
   */
  lemma OfferedIsAcceptedOrDropped(c: Config, run: seq<State>, k: nat)
    requires Run(c, run) && k < |run|
    ensures var s := run[k];
            && |s.offered| == |Accepted(s.offered, s.taken)| + s.dropped
            && Accepted(s.offered, s.taken) == Attempted(s.batches) + s.batch + s.queue
            && |s.queue| <= AtLeastOne(c.capacity)
  {
    hide Accepted, Refused, Attempted, Committed;
    InvAlways(c, run, k);
    AcceptedCount(run[k].offered, run[k].taken);
  }

  lemma {:induction false} AllCommitted(batches: seq<Batch>)
    requires forall i :: 0 <= i < |batches| ==> batches[i].ok
    ensures Committed(batches) == Attempted(batches)
  {
    if batches != [] {
      AllCommitted(batches[1..]);
    }
  }

  /**
   * In every run, once the writer thread has ended (which `stop_internal` waits for), the
   * accepted records are the records of the writes, in acceptance order, and the rows are the
   * same without the writes that failed; with none failed, the rows are the accepted records.
   */
  lemma StoppedWithNothingLeft(c: Config, run: seq<State>, k: nat)
    requires Run(c, run) && k < |run| && run[k].writer.Done?
    ensures var s := run[k];
            && Accepted(s.offered, s.taken) == Attempted(s.batches)
            && s.rows == Committed(s.batches)
            && ((forall i :: 0 <= i < |s.batches| ==> s.batches[i].ok) ==> s.rows == Accepted(s.offered, s.taken))
            && !s.enabled
  {
    hide Accepted, Refused, Attempted, Committed;
    InvAlways(c, run, k);
    var s := run[k];
    assert Attempted(s.batches) + [] + [] == Attempted(s.batches);
    if forall i :: 0 <= i < |s.batches| ==> s.batches[i].ok {
      AllCommitted(s.batches);
    }
  }

  // ----- what is dropped, and how much is written at once -----

  function AtLeastOne(n: nat): nat {
    if n < 1 then 1 else n
  }

  /** At moment `m` the run's next offer was the `j`-th, and the queue had room for it or not. */
  ghost predicate OfferedAt(c: Config, run: seq<State>, m: nat, j: nat, room: bool)
    requires m < |run|
  {
    && run[m].enabled && |run[m].offered| == j
    && (if room then |run[m].queue| < AtLeastOne(c.capacity) else |run[m].queue| == AtLeastOne(c.capacity))
  }

  lemma OfferStep(c: Config, s: State, s': State)
    requires Inv(c, s) && Follows(c, s, s')
    ensures s'.taken == s.taken
            || (s.enabled && s'.taken == s.taken + [|s.queue| < AtLeastOne(c.capacity)] && |s.queue| <= AtLeastOne(c.capacity))
  {
    hide Accepted, Refused, Attempted, Committed, Conserved;
    var step :| Enabled(c, s, step) && s' == Apply(c, s, step);
    if step.Write? {
      assert s'.taken == s.taken;
    }
  }

  /** In every run, an offered record was taken exactly if the queue was below its capacity, and dropped at it. */
  lemma {:induction false} TakenIffRoom(c: Config, run: seq<State>, k: nat, j: nat)
    requires Run(c, run) && k < |run| && j < |run[k].taken|
    ensures exists m: nat :: m < k && OfferedAt(c, run, m, j, run[k].taken[j])
    decreases k
  {
    assert k > 0;
    hide Inv, Follows;
    assert Follows(c, run[k - 1], run[k - 1 + 1]);
    InvAlways(c, run, k - 1);
    OfferStep(c, run[k - 1], run[k]);
    if j < |run[k - 1].taken| {
      TakenIffRoom(c, run, k - 1, j);
      assert run[k].taken[j] == run[k - 1].taken[j];
    } else {
      OfferedSoFar(c, run[k - 1]);
      assert OfferedAt(c, run, k - 1, j, run[k].taken[j]);
    }
  }

  lemma OfferedSoFar(c: Config, s: State)
    requires Inv(c, s)
    ensures |s.offered| == |s.taken|
  {
    hide Accepted, Refused, Attempted, Committed, Conserved;
  }

  predicate Sized(b: Batch, limit: nat) {
    1 <= |b.records| <= limit
  }

  /** Batches in the making and written, but for the one drained at the end. */
  ghost predicate Bounded(s: State, limit: nat) {
    && (s.writer.Select? ==> s.batch == [])
    && (s.writer.Filling? || s.writer.Writing? ==> 1 <= |s.batch| <= limit)
    && forall i :: 0 <= i < |s.batches| - (if s.writer.Done? then 1 else 0) ==> Sized(s.batches[i], limit)
  }

  lemma StepBounded(c: Config, s: State, s': State)
    requires Bounded(s, AtLeastOne(c.batchSize)) && Follows(c, s, s')
    ensures Bounded(s', AtLeastOne(c.batchSize))
  {
    var step :| Enabled(c, s, step) && s' == Apply(c, s, step);
    var limit := AtLeastOne(c.batchSize);
    if step.Write? && (s.writer.Writing? || s.writer.FinalWriting?) {
      var b := Batch(s.batch, step.ok);
      assert s'.batches == s.batches + [b];
      assert s.writer.Writing? ==> Sized(b, limit);
    } else {
      assert s'.batches == s.batches;
    }
  }

  /** In every run, no write but the last one of all is empty or larger than the batch size. */
  lemma {:induction false} WritesAreBounded(c: Config, run: seq<State>, k: nat)
    requires Run(c, run) && k < |run|
    ensures Bounded(run[k], AtLeastOne(c.batchSize))
  {
    if k > 0 {
      WritesAreBounded(c, run, k - 1);
      assert Follows(c, run[k - 1], run[k - 1 + 1]);
      hide Bounded, Follows;
      StepBounded(c, run[k - 1], run[k]);
    }
  }
}
