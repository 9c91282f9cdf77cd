/** The table of streams and the tasks around it. Each method is one atomic section of the Rust code:
    the runtime may call them for any streams in any order in which they are enabled. */
module StreamTable {
  import opened Common
  import opened Streams

  function Lookup<V>(m: map<nat, V>, id: nat): Option<V> {
    if id in m then Some(m[id]) else None
  }

  class StreamsTable {
    /** The records, under the mutex. */
    var records: map<nat, Rec>
    /** Spawned write loops, and `remove` calls that have taken a half and not shut it down yet. */
    var loops: map<nat, Loop>
    var removers: map<nat, Half>
    /** The far ends. */
    var sinks: map<nat, Sink>
    ghost var logs: map<nat, Log>

    ghost predicate Known()
      reads this
    {
      && logs.Keys == sinks.Keys
      && records.Keys <= sinks.Keys && loops.Keys <= sinks.Keys && removers.Keys <= sinks.Keys
    }

    ghost function At(id: nat): Stream
      requires Known() && id in sinks
      reads this
    {
      Stream(Lookup(records, id), Lookup(loops, id), Lookup(removers, id), sinks[id], logs[id])
    }

    ghost predicate Valid()
      reads this
    {
      Known() && forall id :: id in sinks ==> Inv(At(id))
    }

    /** Only the stream id has changed. */
    twostate predicate OnlyChanges(id: nat)
      requires old(Known()) && Known()
      reads this
    {
      && old(sinks.Keys) <= sinks.Keys && sinks.Keys <= old(sinks.Keys) + {id}
      && forall other :: other in old(sinks) && other != id ==> At(other) == old(At(other))
    }

    lemma OnlyKnown()
      requires Valid()
      ensures Known()
    {
    }

    lemma InvAt(id: nat)
      requires Valid() && id in sinks
      ensures Known() && Inv(At(id))
    {
    }

    /** One stream has changed and keeps its invariant, so the table does. */
    twostate lemma StaysValid(id: nat)
      requires old(Valid()) && Known() && OnlyChanges(id)
      requires id in sinks ==> Inv(At(id))
      ensures Valid()
    {
      hide Inv;
      forall other | other in sinks ensures Inv(At(other)) {
        if other != id { assert At(other) == old(At(other)); }
      }
    }

    constructor ()
      ensures Valid() && sinks == map[]
    {
      records, loops, removers, sinks, logs := map[], map[], map[], map[], map[];
    }

    /** `Streams::insert`, for an id not used before. */
    method Insert(id: nat)
      requires Valid() && id !in sinks
      modifies this
      ensures Valid() && OnlyChanges(id) && id in sinks && At(id) == Inserted(id)
    {
      hide Inv, Valid;
      OnlyKnown();
      records := records[id := Rec(Some(Half(id)), [], false)];
      sinks := sinks[id := Sink([], false, 0)];
      logs := logs[id := Log([], [], None)];
      InsertedInv(id);
      StaysValid(id);
    }

    /** `Streams::write`. A buffer for an unknown or removed stream is dropped. */
    method Write(id: nat, buf: Buffer)
      requires Valid()
      modifies this
      ensures Valid() && OnlyChanges(id)
      ensures id in sinks <==> id in old(sinks)
      ensures id in sinks ==> At(id) == Written(old(At(id)), buf)
      ensures id in old(records) ==>
        && id in sinks && logs[id].accepted == old(logs[id].accepted) + [buf]
        && id in records && records[id] == Rec(None, old(records[id].q) + [buf], old(records[id].ended))
        && (old(records[id].write).Some? ==> loops == old(loops)[id := Loop(old(records[id].write).value, AtLock)])
      ensures id !in old(records) ==> records == old(records) && logs == old(logs) && loops == old(loops)
    {
      hide Inv, Valid;
      OnlyKnown();
      if id in sinks { InvAt(id); StepKeepsInv(At(id), Step.Write(buf)); }
      if id in records {
        var s := records[id];
        s := s.(q := s.q + [buf]);
        if s.write.Some? {
          loops := loops[id := Loop(s.write.value, AtLock)];
          s := s.(write := None);
        }
        records := records[id := s];
        logs := logs[id := logs[id].(accepted := logs[id].accepted + [buf])];
      }
      StaysValid(id);
    }

    /** The lock section of `Streams::remove`; a half that was taken is shut down in a later step. */
    method Remove(id: nat)
      requires Valid()
      modifies this
      ensures Valid() && OnlyChanges(id)
      ensures id in sinks <==> id in old(sinks)
      ensures id in sinks ==> At(id) == Removed(old(At(id)))
      ensures id in old(records) && old(records[id].write).Some? ==>
        records == old(records) - {id} && removers == old(removers)[id := old(records[id].write).value]
      ensures id in old(records) && old(records[id].write).None? ==>
        removers == old(removers) && records == old(records)[id := Rec(None, old(records[id].q), true)]
      ensures id !in old(records) ==> records == old(records) && removers == old(removers)
    {
      hide Inv, Valid;
      OnlyKnown();
      if id in sinks { InvAt(id); StepKeepsInv(At(id), Step.Remove); }
      if id in records {
        var s := records[id];
        if s.write.Some? {
          removers := removers[id := s.write.value];
          records := records - {id};
        } else {
          records := records[id := s.(ended := true)];
        }
        if logs[id].removedAt.None? {
          logs := logs[id := logs[id].(removedAt := Some(|logs[id].accepted|))];
        }
      }
      StaysValid(id);
    }

    method RemoverShutdown(id: nat)
      requires Valid() && id in removers
      modifies this
      ensures Valid() && OnlyChanges(id) && id in sinks && At(id) == RemoverShut(old(At(id)))
    {
      hide Inv, Valid;
      OnlyKnown();
      InvAt(id);
      StepKeepsInv(At(id), Step.RemoverShutdown);
      removers := removers - {id};
      sinks := sinks[id := sinks[id].(shutdowns := sinks[id].shutdowns + 1)];
      StaysValid(id);
    }

    /** The lock section at the top of `write_loop`. */
    method WriteLoopLock(id: nat)
      requires Valid() && id in loops && loops[id].phase.AtLock?
      modifies this
      ensures Valid() && OnlyChanges(id) && id in sinks && At(id) == Locked(old(At(id)))
      ensures id in old(records) && old(records[id].q) != [] ==>
        && id in records && records[id].q == []
        && id in loops && loops[id] == Loop(old(loops[id].w), Draining(old(records[id].q)))
      ensures id in old(records) && old(records[id].q) == [] && !old(records[id].ended) ==>
        && id in records && records[id].write == Some(old(loops[id].w)) && id !in loops
      ensures id in old(records) && old(records[id].q) == [] && old(records[id].ended) ==>
        && id !in records && id in loops && loops[id] == Loop(old(loops[id].w), Closing)
    {
      hide Inv, Valid;
      OnlyKnown();
      InvAt(id);
      StepKeepsInv(At(id), LockSection);
      var w := loops[id].w;
      if id !in records {
        loops := loops[id := Loop(w, Closing)];
      } else {
        var streamRec := records[id];
        if streamRec.q == [] {
          if streamRec.ended {
            records := records - {id};
            loops := loops[id := Loop(w, Closing)];
          } else {
            records := records[id := streamRec.(write := Some(w))];
            loops := loops - {id};
          }
        } else {
          records := records[id := streamRec.(q := [])];
          loops := loops[id := Loop(w, Draining(streamRec.q))];
        }
      }
      StaysValid(id);
    }

    /** One round of the drain over the batch taken from the queue. */
    method WriteLoopItem(id: nat, outcome: Outcome)
      requires Valid() && id in loops && loops[id].phase.Draining?
      requires loops[id].phase.items == [] || (id in sinks && Possible(sinks[id], loops[id].phase.items[0], outcome))
      modifies this
      ensures Valid() && OnlyChanges(id) && id in sinks && At(id) == ItemWritten(old(At(id)), outcome)
      ensures outcome == Wrote && old(loops[id].phase.items) != [] ==>
        && id in old(sinks) && sinks[id].delivered == old(sinks[id].delivered) + old(loops[id].phase.items)[0]
        && id in loops && loops[id] == Loop(old(loops[id].w), Draining(old(loops[id].phase.items)[1..]))
    {
      hide Inv, Valid;
      OnlyKnown();
      InvAt(id);
      StepKeepsInv(At(id), WriteItem(outcome));
      var w, items := loops[id].w, loops[id].phase.items;
      if items == [] {
        loops := loops[id := Loop(w, AtLock)];
      } else {
        var item := items[0];
        match outcome {
          case Wrote =>
            sinks := sinks[id := sinks[id].(delivered := sinks[id].delivered + item)];
            loops := loops[id := Loop(w, Draining(items[1..]))];
            logs := logs[id := logs[id].(finished := logs[id].finished + [item])];
          case Failed(n) =>
            sinks := sinks[id := sinks[id].(delivered := sinks[id].delivered + item[..n], broken := true)];
            loops := loops[id := Loop(w, AtLock)];
            logs := logs[id := logs[id].(finished := logs[id].finished + items)];
        }
      }
      StaysValid(id);
    }

    method WriteLoopShutdown(id: nat)
      requires Valid() && id in loops && loops[id].phase.Closing?
      modifies this
      ensures Valid() && OnlyChanges(id) && id in sinks && At(id) == LoopShut(old(At(id)))
    {
      hide Inv, Valid;
      OnlyKnown();
      InvAt(id);
      StepKeepsInv(At(id), Step.LoopShutdown);
      loops := loops - {id};
      sinks := sinks[id := sinks[id].(shutdowns := sinks[id].shutdowns + 1)];
      StaysValid(id);
    }
  }
}
