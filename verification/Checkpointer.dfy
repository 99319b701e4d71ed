/** The one-slot checkpoint store of an agent session (app/graphs/checkpointer.py) and the interrupt ids a
    resume is built from (app/services/agent_service.py). Each method is one locked transaction. */
module Checkpointer {
  import opened Wrappers
  import opened Recency

  /** A stored value: interrupts by id ("" for one without), or anything else. */
  datatype Value = Interrupts(ids: seq<string>) | Other(payload: string)

  datatype Write = Write(task: string, channel: string, value: Value, checkpoint: Option<string>)

  datatype CheckpointTuple = CheckpointTuple(id: Option<string>, data: string, writes: seq<Write>)

  const INTERRUPT_CHANNEL := "__interrupt__"

  function Dump(task: string, writes: seq<(string, Value)>, checkpoint: Option<string>): seq<Write> {
    seq(|writes|, i requires 0 <= i < |writes| => Write(task, writes[i].0, writes[i].1, checkpoint))
  }

  // ----- the abstract log: every write ever recorded, and every checkpoint put

  datatype Event = Put(id: string) | Record(writes: seq<Write>)

  function LastPut(log: seq<Event>): Option<string> {
    if log == [] then None
    else match log[|log| - 1]
      case Put(id) => Some(id)
      case Record(_) => LastPut(log[..|log| - 1])
  }

  /** The events after the last put of a checkpoint other than `c`. */
  function SinceOther(log: seq<Event>, c: Option<string>): seq<Event> {
    if log == [] then []
    else
      var e := log[|log| - 1];
      if e.Put? && c != Some(e.id) then [] else SinceOther(log[..|log| - 1], c) + [e]
  }

  function Recorded(log: seq<Event>): seq<Write> {
    if log == [] then []
    else Recorded(log[..|log| - 1]) + (if log[|log| - 1].Record? then log[|log| - 1].writes else [])
  }

  function Tagged(writes: seq<Write>, c: Option<string>): seq<Write> {
    if writes == [] then []
    else if writes[0].checkpoint == c then [writes[0]] + Tagged(writes[1..], c)
    else Tagged(writes[1..], c)
  }

  /** The writes of checkpoint `c` that count: tagged `c`, recorded since another checkpoint was put. */
  function Visible(log: seq<Event>, c: Option<string>): seq<Write> {
    Tagged(Recorded(SinceOther(log, c)), c)
  }

  // ----- interrupt ids

  /** The interrupt ids carried by `writes`, in order. */
  function CarriedIds(writes: seq<Write>): seq<string> {
    if writes == [] then []
    else if writes[0].channel == INTERRUPT_CHANNEL && writes[0].value.Interrupts?
    then writes[0].value.ids + CarriedIds(writes[1..])
    else CarriedIds(writes[1..])
  }

  predicate Carries(w: Write, id: string) {
    w.channel == INTERRUPT_CHANNEL && w.value.Interrupts? && id in w.value.ids
  }

  function IdKey(id: string): Option<string> {
    if id == "" then None else Some(id)
  }

  /** The distinct interrupt ids of `writes`, each at its last occurrence. */
  function InterruptIds(writes: seq<Write>): seq<string> {
    Latest(CarriedIds(writes), IdKey)
  }

  /** The inner scan over one write's ids, latest first; `later` are the ids of the later writes. */
  method CollectIds(interrupts: seq<string>, reversedBefore: seq<string>, seenBefore: set<string>,
                    ghost later: seq<string>)
    returns (reversedIds: seq<string>, seen: set<string>)
    requires Collected(reversedBefore, seenBefore, later)
    ensures Collected(reversedIds, seen, interrupts + later)
  {
    reversedIds, seen := reversedBefore, seenBefore;
    assert interrupts[|interrupts|..] + later == later;
    for m := |interrupts| downto 0
      invariant Collected(reversedIds, seen, interrupts[m..] + later)
    {
      var id := interrupts[m];
      assert interrupts[m..] + later == [id] + (interrupts[m + 1..] + later);
      CollectedCons(reversedIds, seen, id, interrupts[m + 1..] + later);
      if id == "" || id in seen {
        continue;
      }
      seen := seen + {id};
      reversedIds := reversedIds + [id];
    }
    assert interrupts[0..] == interrupts;
  }

  // ----- the slot

  class Slot {
    var data: Option<string>
    var checkpointId: Option<string>
    var pendingWrites: seq<Write>
    ghost var log: seq<Event>

    /** The slot stands for the log: of each checkpoint it holds exactly the visible writes. */
    ghost predicate Refines()
      reads this
    {
      && checkpointId == LastPut(log)
      && (data.Some? <==> checkpointId.Some?)
      && forall c :: Tagged(pendingWrites, c) == Visible(log, c)
    }

    constructor ()
      ensures Refines() && log == []
    {
      data, checkpointId, pendingWrites, log := None, None, [], [];
    }

    method APut(id: string, checkpoint: string)
      requires Refines()
      modifies this
      ensures Refines() && log == old(log) + [Put(id)]
      ensures data == Some(checkpoint)
    {
      var kept := Tagged(pendingWrites, Some(id));
      forall c ensures Tagged(kept, c) == Visible(log + [Put(id)], c) {
        TaggedTwice(pendingWrites, Some(id), c);
        VisibleSnoc(log, Put(id), c);
      }
      data, checkpointId, pendingWrites := Some(checkpoint), Some(id), kept;
      log := log + [Put(id)];
    }

    /** `configured` is the checkpoint id of the run's config; without one the slot's own id is used. */
    method APutWrites(configured: string, task: string, writes: seq<(string, Value)>)
      requires Refines()
      modifies this`pendingWrites, this`log
      ensures Refines()
      ensures var c := if configured != "" then Some(configured) else old(checkpointId);
        log == old(log) + [Record(Dump(task, writes, c))]
      ensures |pendingWrites| == |old(pendingWrites)| + |writes| && old(pendingWrites) <= pendingWrites
      ensures log == old(log) + [Record(pendingWrites[|old(pendingWrites)|..])]
      ensures forall i :: 0 <= i < |writes| ==>
        var row := pendingWrites[|old(pendingWrites)| + i];
        && row.task == task && row.channel == writes[i].0 && row.value == writes[i].1
        && row.checkpoint == (if configured != "" then Some(configured) else old(checkpointId))
    {
      var cid := if configured != "" then Some(configured) else checkpointId;
      var dumped := Dump(task, writes, cid);
      RecordVisible(pendingWrites, log, dumped);
      pendingWrites := pendingWrites + dumped;
      log := log + [Record(dumped)];
      assert pendingWrites[|old(pendingWrites)|..] == dumped;
    }

    /** Reading yields the current checkpoint with exactly its visible writes, in the order recorded. */
    method AGetTuple() returns (r: Option<CheckpointTuple>)
      requires Refines()
      ensures r.None? <==> LastPut(log).None?
      ensures r.Some? ==> r.value.id == LastPut(log) && Some(r.value.data) == data
      ensures r.Some? ==> r.value.writes == Visible(log, LastPut(log))
    {
      if data.None? {
        return None;
      }
      return Some(CheckpointTuple(checkpointId, data.value, Tagged(pendingWrites, checkpointId)));
    }

    /** The ids a resume answers: the distinct interrupt ids of the current checkpoint's visible writes. */
    method PendingInterruptIds() returns (ids: seq<string>)
      requires Refines()
      ensures LastPut(log).Some? ==> ids == InterruptIds(Visible(log, LastPut(log)))
      ensures LastPut(log).None? ==> ids == InterruptIds(pendingWrites)
    {
      var reversedIds: seq<string> := [];
      var seen: set<string> := {};
      for n := |pendingWrites| downto 0
        invariant Collected(reversedIds, seen, CarriedIds(Relevant(pendingWrites[n..], checkpointId)))
      {
        var item := pendingWrites[n];
        assert pendingWrites[n..][1..] == pendingWrites[n + 1..];
        ghost var later := CarriedIds(Relevant(pendingWrites[n + 1..], checkpointId));
        RelevantCons(pendingWrites[n..], checkpointId);
        if checkpointId.Some? && item.checkpoint != checkpointId {
          continue;
        }
        if item.channel != INTERRUPT_CHANNEL || item.value.Other? {
          continue;
        }
        reversedIds, seen := CollectIds(item.value.ids, reversedIds, seen, later);
      }
      ids := Reversed(reversedIds);
      assert pendingWrites[0..] == pendingWrites;
    }
  }

  // ----- facts about the log

  lemma {:induction false} TaggedAppend(a: seq<Write>, b: seq<Write>, c: Option<string>)
    ensures Tagged(a + b, c) == Tagged(a, c) + Tagged(b, c)
  {
    if a == [] {
      assert a + b == b;
    } else {
      assert (a + b)[1..] == a[1..] + b;
      TaggedAppend(a[1..], b, c);
    }
  }

  lemma {:induction false} TaggedTwice(writes: seq<Write>, c: Option<string>, d: Option<string>)
    ensures Tagged(Tagged(writes, c), d) == if c == d then Tagged(writes, c) else []
  {
    if writes != [] {
      TaggedTwice(writes[1..], c, d);
      if writes[0].checkpoint == c {
        assert ([writes[0]] + Tagged(writes[1..], c))[1..] == Tagged(writes[1..], c);
      }
    }
  }

  lemma {:induction false} VisibleSnoc(log: seq<Event>, e: Event, c: Option<string>)
    ensures Visible(log + [e], c) ==
      if e.Record? then Visible(log, c) + Tagged(e.writes, c)
      else if c == Some(e.id) then Visible(log, c)
      else []
  {
    assert (log + [e])[..|log|] == log;
    var since := SinceOther(log, c);
    if !(e.Put? && c != Some(e.id)) {
      assert (since + [e])[..|since|] == since;
      if e.Record? {
        TaggedAppend(Recorded(since), e.writes, c);
      } else {
        assert Recorded(since) + [] == Recorded(since);
      }
    }
  }

  lemma {:induction false} RecordVisible(pending: seq<Write>, log: seq<Event>, writes: seq<Write>)
    requires forall c :: Tagged(pending, c) == Visible(log, c)
    ensures forall c :: Tagged(pending + writes, c) == Visible(log + [Record(writes)], c)
  {
    forall c ensures Tagged(pending + writes, c) == Visible(log + [Record(writes)], c) {
      TaggedAppend(pending, writes, c);
      VisibleSnoc(log, Record(writes), c);
    }
  }

  // ----- facts about the id scan

  function Relevant(writes: seq<Write>, current: Option<string>): seq<Write> {
    if current.Some? then Tagged(writes, current) else writes
  }

  lemma {:induction false} RelevantCons(writes: seq<Write>, current: Option<string>)
    requires writes != []
    ensures var rest := CarriedIds(Relevant(writes[1..], current));
      CarriedIds(Relevant(writes, current)) ==
        if current.Some? && writes[0].checkpoint != current then rest
        else if writes[0].channel == INTERRUPT_CHANNEL && writes[0].value.Interrupts? then writes[0].value.ids + rest
        else rest
  {
    if current.Some? && writes[0].checkpoint == current {
      assert ([writes[0]] + Tagged(writes[1..], current))[1..] == Tagged(writes[1..], current);
    }
  }

  /** The scan has collected, backwards, the distinct ids of `ids`. */
  ghost predicate Collected(reversedIds: seq<string>, seen: set<string>, ids: seq<string>) {
    && Reversed(reversedIds) == Latest(ids, IdKey)
    && forall id :: id in seen <==> HasKey(ids, IdKey, id)
  }

  lemma {:induction false} CollectedCons(reversedIds: seq<string>, seen: set<string>, id: string, ids: seq<string>)
    requires Collected(reversedIds, seen, ids)
    ensures if id == "" || id in seen then Collected(reversedIds, seen, [id] + ids)
            else Collected(reversedIds + [id], seen + {id}, [id] + ids)
  {
    assert ([id] + ids)[1..] == ids;
    ReversedSnoc(reversedIds, id);
    forall k {
      HasKeyCons([id] + ids, IdKey, k);
    }
  }

  /** Ids are distinct, and each was carried by a visible write of the current checkpoint: an interrupt
      recorded only under superseded checkpoints never reaches a resume. */
  lemma {:induction false} ResumeAnswersCurrentCheckpoint(log: seq<Event>, current: string)
    requires LastPut(log) == Some(current)
    ensures var ids := InterruptIds(Visible(log, Some(current)));
      && DistinctKeys(ids, IdKey)
      && (forall id :: id in ids <==>
            id != "" && exists w :: w in Recorded(SinceOther(log, Some(current))) && w.checkpoint == Some(current)
                                    && Carries(w, id))
  {
    var writes := Visible(log, Some(current));
    var carried := CarriedIds(writes);
    LatestKeys(carried, IdKey);
    var at := LatestPositions(carried, IdKey);
    forall id ensures id in InterruptIds(writes) <==> id != "" && id in carried {
      if id in InterruptIds(writes) {
        var i :| 0 <= i < |InterruptIds(writes)| && InterruptIds(writes)[i] == id;
        assert carried[at[i]] == id;
      }
      if id != "" && id in carried {
        var i :| 0 <= i < |carried| && carried[i] == id;
        assert HasKey(carried, IdKey, id);
        assert HasKey(InterruptIds(writes), IdKey, id);
      }
    }
    CarriedMeaning(writes);
    TaggedMeaning(Recorded(SinceOther(log, Some(current))), Some(current));
  }

  /** An interrupt recorded under the current checkpoint is pending: each of its ids reaches the resume, until
      another checkpoint is put. */
  lemma {:induction false} RecordedInterruptIsPending(log: seq<Event>, writes: seq<Write>, w: Write, id: string)
    requires w in writes && w.channel == "__interrupt__" && w.value.Interrupts? && id in w.value.ids && id != ""
    requires w.checkpoint.Some? && LastPut(log) == w.checkpoint
    ensures var after := log + [Record(writes)];
      LastPut(after) == w.checkpoint && id in InterruptIds(Visible(after, w.checkpoint))
  {
    var after := log + [Record(writes)];
    assert after[..|log|] == log;
    VisibleSnoc(log, Record(writes), w.checkpoint);
    TaggedMeaning(writes, w.checkpoint);
    assert w in Visible(after, w.checkpoint) && Carries(w, id);
    VisibleIsRecorded(after, w.checkpoint);
    ResumeAnswersCurrentCheckpoint(after, w.checkpoint.value);
  }

  lemma {:induction false} VisibleIsRecorded(log: seq<Event>, c: Option<string>)
    ensures forall w :: w in Visible(log, c) <==> w in Recorded(SinceOther(log, c)) && w.checkpoint == c
  {
    TaggedMeaning(Recorded(SinceOther(log, c)), c);
  }

  /** Putting a checkpoint keeps the writes recorded ahead for it, and no others. */
  lemma {:induction false} PutKeepsOwnWrites(log: seq<Event>, id: string)
    ensures LastPut(log + [Put(id)]) == Some(id)
    ensures Visible(log + [Put(id)], Some(id)) == Visible(log, Some(id))
    ensures forall c :: c != Some(id) ==> Visible(log + [Put(id)], c) == []
  {
    VisibleSnoc(log, Put(id), Some(id));
    assert (log + [Put(id)])[..|log|] == log;
    forall c | c != Some(id) {
      VisibleSnoc(log, Put(id), c);
    }
  }

  lemma {:induction false} CarriedMeaning(writes: seq<Write>)
    ensures forall id :: id in CarriedIds(writes) <==>
      exists w :: w in writes && Carries(w, id)
  {
    if writes != [] {
      CarriedMeaning(writes[1..]);
      assert forall w :: w in writes <==> w == writes[0] || w in writes[1..];
      forall id ensures id in CarriedIds(writes) <==> Carries(writes[0], id) || id in CarriedIds(writes[1..]) {}
    }
  }

  lemma {:induction false} TaggedMeaning(writes: seq<Write>, c: Option<string>)
    ensures forall w :: w in Tagged(writes, c) <==> w in writes && w.checkpoint == c
  {
    if writes != [] {
      TaggedMeaning(writes[1..], c);
    }
  }

  /** Where `SinceOther` starts: right after the last put of another checkpoint, or at the beginning. */
  lemma {:induction false} SinceOtherMeaning(log: seq<Event>, c: Option<string>) returns (k: nat)
    ensures k <= |log| && SinceOther(log, c) == log[k..]
    ensures forall i :: k <= i < |log| && log[i].Put? ==> c == Some(log[i].id)
    ensures k > 0 ==> log[k - 1].Put? && c != Some(log[k - 1].id)
    decreases |log|
  {
    if log == [] {
      k := 0;
    } else {
      var n := |log| - 1;
      if log[n].Put? && c != Some(log[n].id) {
        k := |log|;
      } else {
        k := SinceOtherMeaning(log[..n], c);
        assert log[k..] == log[..n][k..] + [log[n]];
        forall i | k <= i < |log| && log[i].Put? ensures c == Some(log[i].id) {
          assert i == n || log[..n][i] == log[i];
        }
      }
    }
  }
}
