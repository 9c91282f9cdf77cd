/** One duplex stream of the RPC dispatcher: a record under a lock, a write loop that borrows the
    record's write half, and `remove`, which may take it away. Every lock section, every write and
    every shutdown is one atomic step, so a run is an arbitrary interleaving. */
module Streams {
  import opened Common

  type Buffer = seq<Byte>

  /** The right to write to a stream and to shut it down. */
  datatype Half = Half(stream: nat)

  /** `StreamRec`. */
  datatype Rec = Rec(write: Option<Half>, q: seq<Buffer>, ended: bool)

  /** Where a spawned `write_loop` is: before its lock section, draining a batch, or about to shut down. */
  datatype Phase = AtLock | Draining(items: seq<Buffer>) | Closing
  datatype Loop = Loop(w: Half, phase: Phase)

  /** What has reached the far end of the half. */
  datatype Sink = Sink(delivered: seq<Byte>, broken: bool, shutdowns: nat)

  /** History: buffers accepted by `write`, those the loop is done with (written, failed, or dropped
      with the rest of a failed batch), and how many had been accepted when `remove` was first called. */
  datatype Log = Log(accepted: seq<Buffer>, finished: seq<Buffer>, removedAt: Option<nat>)

  datatype Stream = Stream(rec: Option<Rec>, loop: Option<Loop>, remover: Option<Half>, sink: Sink, log: Log)

  // ------------------------------------------------------------------ steps

  datatype Outcome = Wrote | Failed(partial: nat)

  datatype Step =
    | Write(buf: Buffer)
    | Remove
    | LockSection
    | WriteItem(outcome: Outcome)
    | LoopShutdown
    | RemoverShutdown

  function Inserted(id: nat): Stream {
    Stream(Some(Rec(Some(Half(id)), [], false)), None, None, Sink([], false, 0), Log([], [], None))
  }

  /** `Streams::write`: queue, and start a loop if the record still has the half. */
  function Written(s: Stream, buf: Buffer): Stream {
    if s.rec.None? then s
    else
      var r := s.rec.value;
      var log := s.log.(accepted := s.log.accepted + [buf]);
      if r.write.Some? then
        s.(rec := Some(Rec(None, r.q + [buf], r.ended)), loop := Some(Loop(r.write.value, AtLock)), log := log)
      else s.(rec := Some(r.(q := r.q + [buf])), log := log)
  }

  /** The lock section of `Streams::remove`. */
  function Removed(s: Stream): Stream {
    if s.rec.None? then s
    else
      var r := s.rec.value;
      var log := if s.log.removedAt.Some? then s.log else s.log.(removedAt := Some(|s.log.accepted|));
      if r.write.Some? then s.(rec := None, remover := r.write, log := log)
      else s.(rec := Some(r.(ended := true)), log := log)
  }

  /** The lock section of `write_loop`. */
  function Locked(s: Stream): Stream
    requires s.loop.Some? && s.loop.value.phase.AtLock?
  {
    var w := s.loop.value.w;
    if s.rec.None? then s.(loop := Some(Loop(w, Closing)))
    else
      var r := s.rec.value;
      if r.q == [] then
        if r.ended then s.(rec := None, loop := Some(Loop(w, Closing)))
        else s.(rec := Some(r.(write := Some(w))), loop := None)
      else s.(rec := Some(r.(q := [])), loop := Some(Loop(w, Draining(r.q))))
  }

  /** One round of the drain: the end of the batch, a write that succeeds, or one that fails after
      some bytes, which drops the rest of the batch. */
  function ItemWritten(s: Stream, outcome: Outcome): Stream
    requires s.loop.Some? && s.loop.value.phase.Draining?
  {
    var w, items := s.loop.value.w, s.loop.value.phase.items;
    if items == [] then s.(loop := Some(Loop(w, AtLock)))
    else match outcome
      case Wrote =>
        s.(loop := Some(Loop(w, Draining(items[1..]))),
           sink := s.sink.(delivered := s.sink.delivered + items[0]),
           log := s.log.(finished := s.log.finished + [items[0]]))
      case Failed(n) =>
        s.(loop := Some(Loop(w, AtLock)),
           sink := s.sink.(delivered := s.sink.delivered + (if n <= |items[0]| then items[0][..n] else items[0]),
                           broken := true),
           log := s.log.(finished := s.log.finished + items))
  }

  function LoopShut(s: Stream): Stream {
    s.(loop := None, sink := s.sink.(shutdowns := s.sink.shutdowns + 1))
  }

  function RemoverShut(s: Stream): Stream {
    s.(remover := None, sink := s.sink.(shutdowns := s.sink.shutdowns + 1))
  }

  /** Outcomes a write can have: nothing to write always succeeds, a failure leaves part of the buffer
      unwritten, and a half that has failed once writes nothing more. */
  predicate Possible(sink: Sink, item: Buffer, outcome: Outcome) {
    match outcome
    case Wrote => item == [] || !sink.broken
    case Failed(n) => n < |item| && (sink.broken ==> n == 0)
  }

  predicate Enabled(s: Stream, a: Step) {
    match a
    case Write(_) => true
    case Remove => true
    case LockSection => s.loop.Some? && s.loop.value.phase.AtLock?
    case WriteItem(o) => s.loop.Some? && s.loop.value.phase.Draining? &&
      (s.loop.value.phase.items == [] || Possible(s.sink, s.loop.value.phase.items[0], o))
    case LoopShutdown => s.loop.Some? && s.loop.value.phase.Closing?
    case RemoverShutdown => s.remover.Some?
  }

  function Apply(s: Stream, a: Step): Stream
    requires Enabled(s, a)
  {
    match a
    case Write(buf) => Written(s, buf)
    case Remove => Removed(s)
    case LockSection => Locked(s)
    case WriteItem(o) => ItemWritten(s, o)
    case LoopShutdown => LoopShut(s)
    case RemoverShutdown => RemoverShut(s)
  }

  // ------------------------------------------------------------------ invariant

  function Batch(s: Stream): seq<Buffer> {
    if s.loop.Some? && s.loop.value.phase.Draining? then s.loop.value.phase.items else []
  }

  function Queue(s: Stream): seq<Buffer> {
    if s.rec.Some? then s.rec.value.q else []
  }

  /** How many places hold the half, a finished shutdown included. */
  function Owners(s: Stream): nat {
    (if s.rec.Some? && s.rec.value.write.Some? then 1 else 0)
    + (if s.loop.Some? then 1 else 0)
    + (if s.remover.Some? then 1 else 0)
    + s.sink.shutdowns
  }

  /** The record is there and idle, there and lent to a running loop, or gone for good. */
  predicate Ownership(s: Stream) {
    && Owners(s) == 1
    && (s.rec.Some? && s.rec.value.write.Some? ==> s.rec.value.q == [] && !s.rec.value.ended)
    && (s.loop.Some? ==> (s.loop.value.phase.Closing? <==> s.rec.None?))
    && (s.remover.Some? ==> s.rec.None?)
    && (s.sink.shutdowns > 0 ==> s.rec.None?)
  }

  /** Buffers are finished in the order accepted, and what is delivered is what is finished. */
  predicate Fifo(s: Stream) {
    && s.log.accepted == s.log.finished + Batch(s) + Queue(s)
    && s.sink.delivered <= Concat(s.log.finished)
    && (!s.sink.broken ==> s.sink.delivered == Concat(s.log.finished))
  }

  predicate Removal(s: Stream) {
    && (s.rec.None? ==> s.log.removedAt.Some?)
    && (s.log.removedAt.Some? ==> s.log.removedAt.value <= |s.log.accepted|)
    && (s.rec.Some? ==> (s.rec.value.ended <==> s.log.removedAt.Some?))
  }

  predicate Inv(s: Stream) {
    Ownership(s) && Fifo(s) && Removal(s)
  }

  // ------------------------------------------------------------------ proofs

  lemma {:induction false} ConcatAppend(a: seq<Buffer>, b: seq<Buffer>)
    ensures Concat(a + b) == Concat(a) + Concat(b)
  {
    if b == [] {
      assert a + b == a;
    } else {
      ConcatAppend(a, b[..|b| - 1]);
      assert (a + b)[..|a + b| - 1] == a + b[..|b| - 1];
    }
  }

  lemma ConcatSnoc(a: seq<Buffer>, x: Buffer)
    ensures Concat(a + [x]) == Concat(a) + x
  {
    assert (a + [x])[..|a|] == a;
  }

  lemma WroteKeepsFifo(s: Stream)
    requires Fifo(s) && Batch(s) != [] && (s.sink.broken ==> Batch(s)[0] == [])
    ensures Fifo(ItemWritten(s, Wrote))
  {
    hide Concat;
    var items, finished := Batch(s), s.log.finished;
    ConcatSnoc(finished, items[0]);
    assert finished + items == finished + [items[0]] + items[1..];
    if s.sink.broken { assert s.sink.delivered + items[0] == s.sink.delivered; }
  }

  lemma FailedKeepsFifo(s: Stream, n: nat)
    requires Fifo(s) && Batch(s) != [] && n < |Batch(s)[0]| && (s.sink.broken ==> n == 0)
    ensures Fifo(ItemWritten(s, Failed(n)))
  {
    hide Concat;
    var items, finished := Batch(s), s.log.finished;
    ConcatSnoc(finished, items[0]);
    ConcatAppend(finished + [items[0]], items[1..]);
    assert finished + items == finished + [items[0]] + items[1..];
    PrefixOfWrite(s.sink.delivered, Concat(finished), items[0], n, s.sink.broken);
    assert finished + items + [] == finished + items;
  }

  lemma WriteItemKeepsFifo(s: Stream, outcome: Outcome)
    requires Inv(s) && Enabled(s, WriteItem(outcome))
    ensures Fifo(ItemWritten(s, outcome))
  {
    hide Concat, Ownership, Removal;
    if Batch(s) != [] {
      match outcome
      case Wrote => WroteKeepsFifo(s);
      case Failed(n) => FailedKeepsFifo(s, n);
    }
  }

  lemma PrefixOfWrite(delivered: seq<Byte>, finished: seq<Byte>, item: Buffer, n: nat, broken: bool)
    requires delivered <= finished && (!broken ==> delivered == finished) && n < |item| && (broken ==> n == 0)
    ensures delivered + item[..n] <= finished + item
  {
    if broken { assert delivered + item[..n] == delivered; }
  }

  lemma WriteKeepsInv(s: Stream, buf: Buffer)
    requires Inv(s)
    ensures Inv(Written(s, buf))
  {
    hide Concat;
    assert s.log.finished + Batch(s) + Queue(s) + [buf] == s.log.finished + Batch(s) + (Queue(s) + [buf]);
  }

  lemma LockSectionKeepsInv(s: Stream)
    requires Inv(s) && Enabled(s, LockSection)
    ensures Inv(Locked(s))
  {
    hide Concat;
    var finished := s.log.finished;
    assert finished + [] + Queue(s) == finished + Queue(s) + [];
    assert finished + [] + [] == finished;
  }

  lemma StepKeepsInv(s: Stream, a: Step)
    requires Inv(s) && Enabled(s, a)
    ensures Inv(Apply(s, a))
  {
    hide Concat;
    match a
    case Write(buf) => WriteKeepsInv(s, buf);
    case LockSection => LockSectionKeepsInv(s);
    case WriteItem(o) => WriteItemKeepsFifo(s, o);
    case _ =>
  }

  lemma InsertedInv(id: nat)
    ensures Inv(Inserted(id))
  {
    assert Concat([]) == [];
    assert Inserted(id).log.accepted == [] + Batch(Inserted(id)) + Queue(Inserted(id));
  }

  predicate IsRun(s: Stream, steps: seq<Step>)
    decreases |steps|
  {
    steps == [] || (Enabled(s, steps[0]) && IsRun(Apply(s, steps[0]), steps[1..]))
  }

  function After(s: Stream, steps: seq<Step>): Stream
    requires IsRun(s, steps)
    decreases |steps|
  {
    if steps == [] then s else After(Apply(s, steps[0]), steps[1..])
  }

  lemma {:induction false} RunKeepsInv(s: Stream, steps: seq<Step>)
    requires Inv(s) && IsRun(s, steps)
    ensures Inv(After(s, steps))
    decreases |steps|
  {
    hide Inv, Enabled, Apply;
    if steps != [] {
      StepKeepsInv(s, steps[0]);
      RunKeepsInv(Apply(s, steps[0]), steps[1..]);
    }
  }

  /** What the calls of `write` in a run passed while the stream had a record, whole and in order. */
  function Passed(s: Stream, steps: seq<Step>): seq<Buffer>
    requires IsRun(s, steps)
    decreases |steps|
  {
    if steps == [] then []
    else
      (if steps[0].Write? && s.rec.Some? then [steps[0].buf] else []) + Passed(Apply(s, steps[0]), steps[1..])
  }

  /** A write of the loop has failed. */
  predicate Fails(a: Step) {
    a.WriteItem? && a.outcome.Failed?
  }

  /** The log of a stream holds just what was passed, and its half breaks only when a write fails. */
  lemma {:induction false} LogsWhatIsPassed(s: Stream, steps: seq<Step>)
    requires IsRun(s, steps)
    ensures After(s, steps).log.accepted == s.log.accepted + Passed(s, steps)
    ensures After(s, steps).sink.broken ==> s.sink.broken || exists a :: a in steps && Fails(a)
    decreases |steps|
  {
    if steps != [] {
      StepLogs(s, steps[0]);
      assert forall a :: a in steps[1..] ==> a in steps;
      hide Enabled, Apply;
      LogsWhatIsPassed(Apply(s, steps[0]), steps[1..]);
    }
  }

  lemma StepLogs(s: Stream, a: Step)
    requires Enabled(s, a)
    ensures Apply(s, a).log.accepted == s.log.accepted + if a.Write? && s.rec.Some? then [a.buf] else []
    ensures Apply(s, a).sink.broken ==> s.sink.broken || Fails(a)
  {
  }

  /** In every interleaving: what reaches the half is a prefix, in order and without loss or duplication,
      of what `write` was passed; as long as no write of the loop has failed, only the batch being
      drained and the queue are missing. */
  lemma DeliversInOrder(id: nat, steps: seq<Step>)
    requires IsRun(Inserted(id), steps)
    ensures var s, passed := After(Inserted(id), steps), Passed(Inserted(id), steps);
      && s.sink.delivered <= Concat(passed)
      && ((forall a :: a in steps ==> !Fails(a)) ==>
            Concat(passed) == s.sink.delivered + Concat(Batch(s)) + Concat(Queue(s)))
  {
    hide IsRun, After, Ownership, Removal, Passed, Fails;
    InsertedInv(id);
    RunKeepsInv(Inserted(id), steps);
    LogsWhatIsPassed(Inserted(id), steps);
    var s := After(Inserted(id), steps);
    assert s.log.accepted == Passed(Inserted(id), steps);
    ConcatAppend(s.log.finished + Batch(s), Queue(s));
    ConcatAppend(s.log.finished, Batch(s));
  }

  /** In every interleaving the half has one owner, an idle record has an empty queue, and a loop in
      its lock section finds the record: the branch for a missing record is never taken. */
  lemma OneOwner(id: nat, steps: seq<Step>)
    requires IsRun(Inserted(id), steps)
    ensures var s := After(Inserted(id), steps);
      && Owners(s) == 1
      && (s.rec.Some? && s.rec.value.write.Some? ==> s.rec.value.q == [] && !s.rec.value.ended)
      && (s.loop.Some? && s.loop.value.phase.AtLock? ==> s.rec.Some?)
  {
    hide IsRun, After, Fifo, Removal;
    InsertedInv(id);
    RunKeepsInv(Inserted(id), steps);
  }

  /** In every interleaving there is at most one shutdown, only after a removal, and by then the loop is
      done with everything `write` was passed: all that was passed before the removal, and after it. */
  lemma DrainsBeforeShutdown(id: nat, steps: seq<Step>)
    requires IsRun(Inserted(id), steps)
    ensures var s, passed := After(Inserted(id), steps), Passed(Inserted(id), steps);
      && s.sink.shutdowns <= 1
      && (s.sink.shutdowns == 1 || s.remover.Some? || (s.loop.Some? && s.loop.value.phase.Closing?) ==>
           && Remove in steps && s.log.finished == passed
           && ((forall a :: a in steps ==> !Fails(a)) ==> s.sink.delivered == Concat(passed)))
  {
    hide IsRun, After, Concat, Passed, Fails;
    InsertedInv(id);
    RunKeepsInv(Inserted(id), steps);
    LogsWhatIsPassed(Inserted(id), steps);
    RemovedByRemove(Inserted(id), steps);
    assert After(Inserted(id), steps).log.accepted == Passed(Inserted(id), steps);
  }

  /** A stream is marked as removed exactly by a call of `remove`. */
  lemma {:induction false} RemovedByRemove(s: Stream, steps: seq<Step>)
    requires Inv(s) && IsRun(s, steps)
    ensures After(s, steps).log.removedAt.Some? <==> s.log.removedAt.Some? || Remove in steps
    decreases |steps|
  {
    hide Inv, Enabled, Apply;
    if steps != [] {
      StepKeepsInv(s, steps[0]);
      StepRemoves(s, steps[0]);
      RemovedByRemove(Apply(s, steps[0]), steps[1..]);
      assert steps == [steps[0]] + steps[1..];
    }
  }

  lemma StepRemoves(s: Stream, a: Step)
    requires Inv(s) && Enabled(s, a)
    ensures Apply(s, a).log.removedAt.Some? <==> s.log.removedAt.Some? || a == Remove
  {
    hide Concat;
  }

  // ------------------------------------------------------------------ progress

  /** The steps the runtime takes by itself, without another call into `Streams`. */
  predicate TaskStep(a: Step) {
    !a.Write? && !a.Remove?
  }

  function Work(s: Stream): nat {
    4 * |Queue(s)| + 2 * |Batch(s)|
    + (if s.remover.Some? then 1 else 0)
    + (if s.loop.None? then 0 else match s.loop.value.phase case AtLock => 2 case Draining(_) => 3 case Closing => 1)
  }

  /** Tasks never run for ever. */
  lemma TaskStepsTerminate(s: Stream, a: Step)
    requires Inv(s) && Enabled(s, a) && TaskStep(a)
    ensures Work(Apply(s, a)) < Work(s)
  {
    hide Concat;
  }

  /** At the end of any run that leaves the tasks nothing to do: the stream has been shut down, once, if and
      only if `remove` was called, the loop is done with everything passed, and unless a write of it failed
      all of that was delivered. */
  lemma AtRest(id: nat, steps: seq<Step>)
    requires IsRun(Inserted(id), steps)
    requires forall a :: TaskStep(a) ==> !Enabled(After(Inserted(id), steps), a)
    ensures var s, passed := After(Inserted(id), steps), Passed(Inserted(id), steps);
      && s.sink.shutdowns == (if Remove in steps then 1 else 0)
      && s.log.finished == passed
      && ((forall a :: a in steps ==> !Fails(a)) ==> s.sink.delivered == Concat(passed))
  {
    hide IsRun, After, Concat, Passed, Fails;
    InsertedInv(id);
    RunKeepsInv(Inserted(id), steps);
    LogsWhatIsPassed(Inserted(id), steps);
    RemovedByRemove(Inserted(id), steps);
    RestIsIdle(After(Inserted(id), steps));
    assert After(Inserted(id), steps).log.accepted == Passed(Inserted(id), steps);
  }

  lemma RestIsIdle(s: Stream)
    requires Inv(s)
    requires forall a :: TaskStep(a) ==> !Enabled(s, a)
    ensures s.log.finished == s.log.accepted
    ensures s.sink.shutdowns == if s.log.removedAt.Some? then 1 else 0
  {
    hide Concat;
    assert TaskStep(LockSection) && TaskStep(LoopShutdown) && TaskStep(RemoverShutdown);
    assert TaskStep(WriteItem(Wrote)) && TaskStep(WriteItem(Failed(0)));
  }

  /** The assumption on failures is needed: if a write can succeed after one has failed, the rest of the
      failed batch is missing in the middle of what is delivered. */
  lemma RecoveryLeavesAGap()
    ensures var s0 := Written(Written(Inserted(0), [1]), [2]);
      var s1 := ItemWritten(Locked(s0), Failed(0));
      var s2 := Locked(Written(s1, [3]));
      var s3 := ItemWritten(s2, Wrote);
      && Batch(Locked(s0)) == [[1], [2]] && Batch(s2) == [[3]]
      && !(s3.sink.delivered <= Concat(s3.log.accepted))
  {
    var s0 := Written(Written(Inserted(0), [1]), [2]);
    assert s0.rec.value.q == [[1], [2]];
    var s1 := ItemWritten(Locked(s0), Failed(0));
    assert s1.sink.delivered == [] && s1.rec.value.q == [];
    var s2 := Locked(Written(s1, [3]));
    assert s2.log.accepted == [[1], [2], [3]];
    assert ItemWritten(s2, Wrote).sink.delivered == [3];
    ConcatSnoc([[1], [2]], [3]);
    ConcatSnoc([[1]], [2]);
    ConcatSnoc([], [1]);
    assert [[1], [2]] + [[3]] == [[1], [2], [3]] && [[1]] + [[2]] == [[1], [2]] && [] + [[1]] == [[1]];
    assert Concat([[1], [2], [3]])[0] == 1;
  }
}
