/**
 * SJob: per-job data slots, one per stage id.  The slot vector starts
 * with five NULLs and is extended with NULLs whenever a stage id beyond
 * its end is read or written.  A slot holds None for NULL.
 */
module Jobs {
  import opened CText

  /** The number of slots a new job has. */
  const InitialSlots: nat := 5

  /** n NULL slots. */
  function Nulls<D>(n: nat): (r: seq<Option<D>>)
    ensures |r| == n && forall k :: 0 <= k < n ==> r[k].None?
  {
    if n == 0 then [] else Nulls(n - 1) + [None]
  }

  /** The push_back loop: NULLs appended until slot id exists. */
  function Extended<D>(slots: seq<Option<D>>, id: nat): seq<Option<D>> {
    if id < |slots| then slots else slots + Nulls(id + 1 - |slots|)
  }

  /** Extending makes slot id exist, keeps every existing slot, and adds only NULLs. */
  lemma {:induction false} ExtendedShape<D>(slots: seq<Option<D>>, id: nat)
    ensures var r := Extended(slots, id);
      |r| == (if id < |slots| then |slots| else id + 1) &&
      r[..|slots|] == slots &&
      (forall k :: |slots| <= k < |r| ==> r[k].None?)
  {
    if id >= |slots| {
      var r := Extended(slots, id);
      assert r[..|slots|] == slots;
    }
  }

  /** Extending again to the same id changes nothing. */
  lemma {:induction false} ExtendedIdempotent<D>(slots: seq<Option<D>>, id: nat)
    ensures Extended(Extended(slots, id), id) == Extended(slots, id)
  {
    ExtendedShape(slots, id);
  }

  /** What GetStageData returns for stage id. */
  function SlotValue<D>(slots: seq<Option<D>>, id: nat): Option<D> {
    if id < |slots| then slots[id] else None
  }

  /** The vector after SetStageData(id, data). */
  function WithSlot<D>(slots: seq<Option<D>>, id: nat, data: Option<D>): seq<Option<D>> {
    Extended(slots, id)[id := data]
  }

  /** GetStageData returns the slot's value, NULL beyond the end; extending does not change any stage's value. */
  lemma {:induction false} ExtendedValues<D>(slots: seq<Option<D>>, id: nat, k: nat)
    ensures SlotValue(Extended(slots, id), k) == SlotValue(slots, k)
    ensures id < |Extended(slots, id)| && Extended(slots, id)[id] == SlotValue(slots, id)
  {
    ExtendedShape(slots, id);
    if k < |slots| {
      assert Extended(slots, id)[k] == Extended(slots, id)[..|slots|][k];
    }
    if id < |slots| {
    } else {
      assert Extended(slots, id)[id].None?;
    }
  }

  /** After SetStageData(id, data), stage id reads data and every other stage reads what it did before. */
  lemma {:induction false} SetThenGet<D>(slots: seq<Option<D>>, id: nat, data: Option<D>, k: nat)
    ensures SlotValue(WithSlot(slots, id, data), k) == if k == id then data else SlotValue(slots, k)
  {
    ExtendedValues(slots, id, k);
  }

  /** Sets applied in order to a new job's slots. */
  function Replay<D>(ops: seq<(nat, Option<D>)>): seq<Option<D>>
    decreases |ops|
  {
    if ops == [] then Nulls(InitialSlots)
    else
      var last := ops[|ops| - 1];
      WithSlot(Replay(ops[..|ops| - 1]), last.0, last.1)
  }

  /** The data of the last set of stage k, or NULL when it was never set. */
  function LastSet<D>(ops: seq<(nat, Option<D>)>, k: nat): Option<D>
    decreases |ops|
  {
    if ops == [] then None
    else if ops[|ops| - 1].0 == k then ops[|ops| - 1].1
    else LastSet(ops[..|ops| - 1], k)
  }

  /** After any sequence of sets, every stage reads the last data set for it, and NULL if none was. */
  lemma {:induction false} ReplayReadsLastSet<D>(ops: seq<(nat, Option<D>)>, k: nat)
    ensures SlotValue(Replay(ops), k) == LastSet(ops, k)
    decreases |ops|
  {
    if ops == [] {
    } else {
      var last := ops[|ops| - 1];
      ReplayReadsLastSet(ops[..|ops| - 1], k);
      SetThenGet(Replay(ops[..|ops| - 1]), last.0, last.1, k);
    }
  }

  class Job<D> {
    /** stageData */
    var stageData: seq<Option<D>>

    /** SJob(): room for the first five stages, all NULL. */
    constructor ()
      ensures stageData == Nulls(InitialSlots)
    {
      stageData := [];
      new;
      var i := 0;
      while i < 5
        invariant 0 <= i <= 5 && stageData == Nulls(i)
      {
        stageData := stageData + [None];
        i := i + 1;
      }
    }

    /** The push_back loop shared by GetStageData and SetStageData. */
    method Extend(id: nat)
      modifies this
      ensures stageData == Extended(old(stageData), id)
    {
      var size := |stageData|;
      var i := size;
      while i <= id
        invariant size <= i && (i <= id + 1 || i == size)
        invariant stageData == old(stageData) + Nulls(i - size)
        decreases id + 1 - i
      {
        stageData := stageData + [None];
        i := i + 1;
      }
    }

    /** GetStageData(stage): extend to the stage's slot and return it. */
    method GetStageData(id: nat) returns (d: Option<D>)
      modifies this
      ensures stageData == Extended(old(stageData), id)
      ensures d == SlotValue(old(stageData), id)
    {
      Extend(id);
      ExtendedValues(old(stageData), id, id);
      d := stageData[id];
    }

    /** SetStageData(stage, data): extend to the stage's slot and overwrite it. */
    method SetStageData(id: nat, data: Option<D>)
      modifies this
      ensures stageData == WithSlot(old(stageData), id, data)
    {
      Extend(id);
      ExtendedValues(old(stageData), id, id);
      stageData := stageData[id := data];
    }
  }
}
