/** The other direction: `register_stream` announces the streams of a call and spawns a reader for
    each; all of them send on one channel, whose receiver may go away at any time. */
module OutgoingStreams {
  import opened Common

  type Id = nat

  const BUFFER_SIZE: nat := 4096

  datatype Message =
    | StreamsStarted(ids: seq<Id>)
    | StreamData(id: Id, segment: seq<Byte>)
    | StreamEnded(id: Id)

  /** A spawned reader: waiting for data, holding a segment to send, at the end of its input, or returned. */
  datatype Phase = Reading | Sending(segment: seq<Byte>) | Ending | Returned

  /** A reader with all it has read from the duplex. */
  datatype Reader = Reader(phase: Phase, taken: seq<Byte>)

  datatype Stage = Announcing | Spawning(next: nat) | Abandoned

  /** `sent` is what the channel has accepted, in order; `open` is lost for good. */
  datatype State = State(ids: seq<Id>, stage: Stage, readers: map<Id, Reader>, sent: seq<Message>, open: bool)

  function Initial(ids: seq<Id>): State {
    State(ids, Announcing, map[], [], true)
  }

  datatype Step =
    | Announce
    | Spawn
    | Read(id: Id, segment: seq<Byte>)
    | ReadStops(id: Id)            // end of the input or an error
    | SendSegment(id: Id)
    | SendEnd(id: Id)
    | ReceiverGone

  predicate InPhase(s: State, id: Id, p: Phase) {
    id in s.readers && s.readers[id].phase == p
  }

  predicate Enabled(s: State, a: Step) {
    match a
    case Announce => s.stage.Announcing?
    case Spawn => s.stage.Spawning? && s.stage.next < |s.ids|
    case Read(id, segment) => InPhase(s, id, Reading) && 0 < |segment| <= BUFFER_SIZE
    case ReadStops(id) => InPhase(s, id, Reading)
    case SendSegment(id) => id in s.readers && s.readers[id].phase.Sending?
    case SendEnd(id) => InPhase(s, id, Ending)
    case ReceiverGone => true
  }

  function Apply(s: State, a: Step): State
    requires Enabled(s, a)
  {
    match a
    case Announce =>
      if s.open then s.(stage := Spawning(0), sent := s.sent + [StreamsStarted(s.ids)]) else s.(stage := Abandoned)
    case Spawn =>
      s.(stage := Spawning(s.stage.next + 1), readers := s.readers[s.ids[s.stage.next] := Reader(Reading, [])])
    case Read(id, segment) =>
      s.(readers := s.readers[id := Reader(Sending(segment), s.readers[id].taken + segment)])
    case ReadStops(id) => s.(readers := s.readers[id := s.readers[id].(phase := Ending)])
    case SendSegment(id) =>
      var r := s.readers[id];
      if s.open then
        s.(readers := s.readers[id := r.(phase := Reading)], sent := s.sent + [StreamData(id, r.phase.segment)])
      else s.(readers := s.readers[id := r.(phase := Returned)])
    case SendEnd(id) =>
      var s' := s.(readers := s.readers[id := s.readers[id].(phase := Returned)]);
      if s.open then s'.(sent := s.sent + [StreamEnded(id)]) else s'
    case ReceiverGone => s.(open := false)
  }

  /** The segments sent for one stream, joined. */
  function Payload(sent: seq<Message>, id: Id): seq<Byte> {
    if sent == [] then []
    else
      var m := sent[|sent| - 1];
      Payload(sent[..|sent| - 1], id) + (if m.StreamData? && m.id == id then m.segment else [])
  }

  predicate About(m: Message, id: Id) {
    match m
    case StreamsStarted(_) => false
    case StreamData(i, _) => i == id
    case StreamEnded(i) => i == id
  }

  ghost predicate Inv(s: State) {
    && (forall i, j :: 0 <= i < j < |s.ids| ==> s.ids[i] != s.ids[j])
    && (s.stage.Spawning? ==> s.stage.next <= |s.ids|)
    && (forall id :: id in s.readers <==> s.stage.Spawning? && id in s.ids[..s.stage.next])
    && (!s.stage.Spawning? ==> s.sent == [])
    && (s.stage.Spawning? ==> |s.sent| > 0 && s.sent[0] == StreamsStarted(s.ids))
    && (forall k :: 1 <= k < |s.sent| ==> !s.sent[k].StreamsStarted?)
    && (forall k, id :: 0 <= k < |s.sent| && About(s.sent[k], id) ==> id in s.readers)
    && (forall id :: id in s.readers ==> StreamInv(s, id))
  }

  ghost predicate StreamInv(s: State, id: Id)
    requires id in s.readers
  {
    var r := s.readers[id];
    && Payload(s.sent, id) <= r.taken
    && (!r.phase.Returned? ==> r.taken == Payload(s.sent, id) + (if r.phase.Sending? then r.phase.segment else []))
    && (r.phase.Returned? && s.open ==> StreamEnded(id) in s.sent)
    && (forall k :: 0 <= k < |s.sent| && s.sent[k] == StreamEnded(id) ==>
          && r.phase.Returned? && Payload(s.sent, id) == r.taken
          && (forall l :: k < l < |s.sent| ==> !About(s.sent[l], id)))
  }

  lemma PayloadSnoc(sent: seq<Message>, m: Message, id: Id)
    ensures Payload(sent + [m], id) == Payload(sent, id) + (if m.StreamData? && m.id == id then m.segment else [])
  {
    assert (sent + [m])[..|sent|] == sent;
  }

  /** A message about one stream changes nothing for another. */
  lemma OtherStream(s: State, s': State, id: Id, other: Id)
    requires other in s.readers && other in s'.readers && s'.readers[other] == s.readers[other] && other != id
    requires s'.open ==> s.open
    requires s'.sent == s.sent || exists m :: About(m, id) && s'.sent == s.sent + [m]
    requires StreamInv(s, other)
    ensures StreamInv(s', other)
  {
    hide Payload;
    if s'.sent != s.sent {
      var m :| About(m, id) && s'.sent == s.sent + [m];
      PayloadSnoc(s.sent, m, other);
    }
  }

  lemma SameStream(s: State, s': State, id: Id)
    requires id in s.readers && id in s'.readers && StreamInv(s, id)
    requires exists a: Step :: Enabled(s, a) && s' == Apply(s, a) && ReaderStep(a) && a.id == id
    ensures StreamInv(s', id)
  {
    hide Payload;
    if s'.sent != s.sent { PayloadSnoc(s.sent, s'.sent[|s.sent|], id); }
  }

  predicate ReaderStep(a: Step) {
    a.Read? || a.ReadStops? || a.SendSegment? || a.SendEnd?
  }

  /** What a reader's step changes outside its own record: at most one message about its stream. */
  lemma ReaderStepEffect(s: State, a: Step)
    requires Enabled(s, a) && ReaderStep(a)
    ensures var s' := Apply(s, a);
      && a.id in s.readers && s'.readers == s.readers[a.id := s'.readers[a.id]]
      && s'.ids == s.ids && s'.stage == s.stage && s'.open == s.open
      && (s'.sent == s.sent || exists m :: About(m, a.id) && s'.sent == s.sent + [m])
  {
    var s' := Apply(s, a);
    if s'.sent != s.sent { assert About(s'.sent[|s.sent|], a.id) && s'.sent == s.sent + [s'.sent[|s.sent|]]; }
  }

  lemma ReaderStepKeepsInv(s: State, a: Step)
    requires Inv(s) && Enabled(s, a) && ReaderStep(a)
    ensures Inv(Apply(s, a))
  {
    var s' := Apply(s, a);
    ReaderStepEffect(s, a);
    forall id | id in s'.readers ensures StreamInv(s', id) {
      hide Payload, StreamInv, Enabled, Apply;
      if id == a.id { SameStream(s, s', id); } else { OtherStream(s, s', a.id, id); }
    }
    SentStaysShaped(s, s', a.id);
  }

  lemma SentStaysShaped(s: State, s': State, id: Id)
    requires Inv(s) && id in s.readers && s'.readers.Keys == s.readers.Keys && s'.ids == s.ids && s'.stage == s.stage
    requires s'.sent == s.sent || exists m :: About(m, id) && s'.sent == s.sent + [m]
    requires forall i :: i in s'.readers ==> StreamInv(s', i)
    ensures Inv(s')
  {
    hide Payload, StreamInv;
  }

  lemma SpawnKeepsInv(s: State)
    requires Inv(s) && Enabled(s, Spawn)
    ensures Inv(Apply(s, Spawn))
  {
    hide Payload, StreamInv;
    var s', joining := Apply(s, Spawn), s.ids[s.stage.next];
    assert s.ids[..s.stage.next + 1] == s.ids[..s.stage.next] + [joining];
    assert joining !in s.ids[..s.stage.next] by {
      forall i | 0 <= i < s.stage.next ensures s.ids[..s.stage.next][i] != joining {
        assert s.ids[i] != s.ids[s.stage.next];
      }
    }
    NothingSent(s.sent, joining);
    forall id | id in s'.readers ensures StreamInv(s', id) {
      if id == joining { FreshStream(s', id); } else { OtherStream(s, s', joining, id); }
    }
  }

  lemma FreshStream(s: State, id: Id)
    requires id in s.readers && s.readers[id] == Reader(Reading, []) && Payload(s.sent, id) == []
    requires forall k :: 0 <= k < |s.sent| ==> !About(s.sent[k], id)
    ensures StreamInv(s, id)
  {
  }

  lemma {:induction false} NothingSent(sent: seq<Message>, id: Id)
    requires forall k :: 0 <= k < |sent| ==> !About(sent[k], id)
    ensures Payload(sent, id) == []
  {
    if sent != [] {
      assert !About(sent[|sent| - 1], id);
      NothingSent(sent[..|sent| - 1], id);
    }
  }

  lemma StepKeepsInv(s: State, a: Step)
    requires Inv(s) && Enabled(s, a)
    ensures Inv(Apply(s, a))
  {
    hide Payload;
    match a
    case Announce =>
    case Spawn => SpawnKeepsInv(s);
    case ReceiverGone =>
      forall id | id in s.readers ensures StreamInv(Apply(s, a), id) { assert StreamInv(s, id); }
    case _ => ReaderStepKeepsInv(s, a);
  }

  predicate IsRun(s: State, steps: seq<Step>)
    decreases |steps|
  {
    steps == [] || (Enabled(s, steps[0]) && IsRun(Apply(s, steps[0]), steps[1..]))
  }

  function After(s: State, steps: seq<Step>): State
    requires IsRun(s, steps)
    decreases |steps|
  {
    if steps == [] then s else After(Apply(s, steps[0]), steps[1..])
  }

  lemma {:induction false} RunKeepsInv(s: State, steps: seq<Step>)
    requires Inv(s) && IsRun(s, steps)
    ensures Inv(After(s, steps))
    decreases |steps|
  {
    hide Inv, Enabled, Apply;
    if steps != [] {
      StepKeepsInv(s, steps[0]);
      RunKeepsInv(Apply(s, steps[0]), steps[1..]);
    }
  }

  /** All that a run's reads took from one stream, joined. */
  function Yielded(steps: seq<Step>, id: Id): seq<Byte> {
    if steps == [] then []
    else
      var a := steps[|steps| - 1];
      Yielded(steps[..|steps| - 1], id) + (if a.Read? && a.id == id then a.segment else [])
  }

  /** A run of one step more. */
  lemma {:induction false} RunSnoc(s: State, steps: seq<Step>, a: Step)
    requires IsRun(s, steps + [a])
    ensures IsRun(s, steps) && Enabled(After(s, steps), a) && After(s, steps + [a]) == Apply(After(s, steps), a)
    decreases |steps|
  {
    hide Enabled, Apply;
    if steps == [] {
      assert [] + [a] == [a] && [a][1..] == [];
    } else {
      assert (steps + [a])[1..] == steps[1..] + [a];
      RunSnoc(Apply(s, steps[0]), steps[1..], a);
    }
  }

  /** What a run has done with one stream: nothing was read before its reader was there, the reader has
      taken just what the reads of the run yielded, it has come to the end of its input only if a read
      said so, and the channel is open until the receiver goes away. */
  ghost predicate Accounted(s: State, steps: seq<Step>, id: Id) {
    && (id !in s.readers ==> Yielded(steps, id) == [] && ReadStops(id) !in steps)
    && (id in s.readers ==>
          && s.readers[id].taken == Yielded(steps, id)
          && (s.readers[id].phase.Ending? || StreamEnded(id) in s.sent ==> ReadStops(id) in steps)
          && (ReadStops(id) in steps ==> s.readers[id].phase.Ending? || s.readers[id].phase.Returned?))
    && (StreamEnded(id) in s.sent ==> id in s.readers)
    && (s.open <==> ReceiverGone !in steps)
  }

  lemma YieldedSnoc(steps: seq<Step>, a: Step, id: Id)
    ensures Yielded(steps + [a], id) == Yielded(steps, id) + (if a.Read? && a.id == id then a.segment else [])
  {
    assert (steps + [a])[..|steps|] == steps;
  }

  lemma StepAccounts(s: State, steps: seq<Step>, a: Step, id: Id)
    requires Inv(s) && Enabled(s, a) && Accounted(s, steps, id)
    ensures Accounted(Apply(s, a), steps + [a], id)
  {
    hide Yielded, Payload, StreamInv;
    YieldedSnoc(steps, a, id);
    if a.Spawn? { SpawnsAnother(s); }
  }

  /** The reader to be spawned is not there yet. */
  lemma SpawnsAnother(s: State)
    requires Inv(s) && Enabled(s, Spawn)
    ensures s.ids[s.stage.next] !in s.readers
  {
    hide Payload, StreamInv;
    forall i | 0 <= i < s.stage.next ensures s.ids[..s.stage.next][i] != s.ids[s.stage.next] {
      assert s.ids[i] != s.ids[s.stage.next];
    }
  }

  lemma {:induction false} RunAccounts(ids: seq<Id>, steps: seq<Step>, id: Id)
    requires forall i, j :: 0 <= i < j < |ids| ==> ids[i] != ids[j]
    requires IsRun(Initial(ids), steps)
    ensures Inv(After(Initial(ids), steps)) && Accounted(After(Initial(ids), steps), steps, id)
    decreases |steps|
  {
    hide Enabled, Apply, Payload, StreamInv, Yielded;
    if steps == [] {
      NothingYielded(id);
    } else {
      var init, a := steps[..|steps| - 1], steps[|steps| - 1];
      assert steps == init + [a];
      RunSnoc(Initial(ids), init, a);
      RunAccounts(ids, init, id);
      hide Inv, Accounted, IsRun, After;
      StepKeepsInv(After(Initial(ids), init), a);
      StepAccounts(After(Initial(ids), init), init, a, id);
    }
  }

  lemma NothingYielded(id: Id)
    ensures Yielded([], id) == []
  {
  }

  /** In every interleaving: the announcement is the first message and the only one of its kind; what is
      sent for a stream is a prefix of what the reads of the run yielded; and a stream's end is sent at
      most once, after all its data, when its input has ended and everything read has been sent. */
  lemma OutgoingOrder(ids: seq<Id>, steps: seq<Step>, k: nat, id: Id)
    requires forall i, j :: 0 <= i < j < |ids| ==> ids[i] != ids[j]
    requires IsRun(Initial(ids), steps)
    requires var s := After(Initial(ids), steps); k < |s.sent| && About(s.sent[k], id)
    ensures var s := After(Initial(ids), steps);
      && k > 0 && s.sent[0] == StreamsStarted(ids) && id in ids && id in s.readers
      && (forall l :: 1 <= l < |s.sent| ==> !s.sent[l].StreamsStarted?)
      && Payload(s.sent, id) <= Yielded(steps, id)
      && (s.sent[k] == StreamEnded(id) ==>
            && ReadStops(id) in steps && Payload(s.sent, id) == Yielded(steps, id)
            && forall l :: k < l < |s.sent| ==> !About(s.sent[l], id))
  {
    hide IsRun, After, Payload, Yielded;
    RunAccounts(ids, steps, id);
    IdsNeverChange(Initial(ids), steps);
    var s := After(Initial(ids), steps);
    assert StreamInv(s, id);
    assert id in s.ids[..s.stage.next];
  }

  /** As long as the receiver is there, nothing that was read is missing but the segment being sent; a
      reader has returned only at the end of its input, with all of it and the end sent. */
  lemma NothingIsMissing(ids: seq<Id>, steps: seq<Step>, id: Id)
    requires forall i, j :: 0 <= i < j < |ids| ==> ids[i] != ids[j]
    requires IsRun(Initial(ids), steps) && ReceiverGone !in steps
    requires id in After(Initial(ids), steps).readers
    ensures var s := After(Initial(ids), steps);
      var r := s.readers[id];
      && Yielded(steps, id) == Payload(s.sent, id) + (if r.phase.Sending? then r.phase.segment else [])
      && (r.phase.Returned? ==> ReadStops(id) in steps && StreamEnded(id) in s.sent)
  {
    hide IsRun, After, Payload, Yielded;
    RunAccounts(ids, steps, id);
    var s := After(Initial(ids), steps);
    assert StreamInv(s, id);
    if s.readers[id].phase.Returned? {
      var k :| 0 <= k < |s.sent| && s.sent[k] == StreamEnded(id);
    } else if !s.readers[id].phase.Sending? {
      assert Payload(s.sent, id) + [] == Payload(s.sent, id);
    }
  }

  /** And a segment that has been sent leaves its reader ready to read on; one that the channel does not
      accept is the last. */
  lemma SendingGoesOn(s: State, id: Id)
    requires Enabled(s, SendSegment(id))
    ensures var s' := Apply(s, SendSegment(id));
      && (s.open ==>
            && s'.sent == s.sent + [StreamData(id, s.readers[id].phase.segment)]
            && Enabled(s', ReadStops(id)) && forall segment :: 0 < |segment| <= 4096 ==> Enabled(s', Read(id, segment)))
      && (!s.open ==> s'.sent == s.sent && InPhase(s', id, Returned))
  {
  }

  /** The steps the tasks take by themselves; what a read comes to is up to the other end. */
  predicate TaskStep(a: Step) {
    a.Announce? || a.Spawn? || a.SendSegment? || a.SendEnd?
  }

  /** Whenever the tasks have nothing left to do and the receiver is still there: every stream has been
      announced and has its reader, everything it yielded has been sent, and its end has been sent exactly
      if its input has ended. */
  lemma AllIsSent(ids: seq<Id>, steps: seq<Step>, id: Id)
    requires forall i, j :: 0 <= i < j < |ids| ==> ids[i] != ids[j]
    requires IsRun(Initial(ids), steps) && ReceiverGone !in steps && id in ids
    requires forall a :: TaskStep(a) ==> !Enabled(After(Initial(ids), steps), a)
    ensures var s := After(Initial(ids), steps);
      && |s.sent| > 0 && s.sent[0] == StreamsStarted(ids) && id in s.readers
      && Payload(s.sent, id) == Yielded(steps, id)
      && (StreamEnded(id) in s.sent <==> ReadStops(id) in steps)
  {
    hide IsRun, After, Payload, Yielded;
    RunAccounts(ids, steps, id);
    IdsNeverChange(Initial(ids), steps);
    NeverAbandoned(Initial(ids), steps);
    var s := After(Initial(ids), steps);
    assert TaskStep(Announce) && TaskStep(Spawn) && TaskStep(SendSegment(id)) && TaskStep(SendEnd(id));
    assert s.ids[..|s.ids|] == s.ids;
    NothingIsMissing(ids, steps, id);
    assert Payload(s.sent, id) + [] == Payload(s.sent, id);
  }

  lemma {:induction false} NeverAbandoned(s: State, steps: seq<Step>)
    requires IsRun(s, steps) && ReceiverGone !in steps && s.open && !s.stage.Abandoned?
    ensures !After(s, steps).stage.Abandoned?
    decreases |steps|
  {
    if steps != [] {
      assert ReceiverGone !in steps[1..] && steps[0] in steps;
      NeverAbandoned(Apply(s, steps[0]), steps[1..]);
    }
  }

  lemma {:induction false} IdsNeverChange(s: State, steps: seq<Step>)
    requires IsRun(s, steps)
    ensures After(s, steps).ids == s.ids
    decreases |steps|
  {
    if steps != [] { IdsNeverChange(Apply(s, steps[0]), steps[1..]); }
  }
}
