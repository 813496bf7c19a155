/** The bounded ring of recent edges kept for each input. */
module EdgeRing {
  import opened Ticks
  import opened DecoderModel
  import opened DecoderRuns

  /** Slot of the `i`-th retained edge, oldest first, when `head` is the next slot to be written. */
  function Slot(head: nat, count: nat, i: nat): (slot: nat)
    requires head < MAX_EDGES_PER_INPUT && i < count <= MAX_EDGES_PER_INPUT
    ensures slot == if count <= head + i then head + i - count else head + i - count + MAX_EDGES_PER_INPUT
  {
    ((head + MAX_EDGES_PER_INPUT - count) % MAX_EDGES_PER_INPUT + i) % MAX_EDGES_PER_INPUT
  }

  ghost function Unrolled(slots: seq<Tick>, head: nat, count: nat): (edges: seq<int>)
    requires |slots| == MAX_EDGES_PER_INPUT && head < MAX_EDGES_PER_INPUT && count <= MAX_EDGES_PER_INPUT
    ensures |edges| == count
  {
    seq(count, i requires 0 <= i < count => slots[Slot(head, count, i)])
  }

  lemma OverwriteOldest(slots: seq<Tick>, head: nat, count: nat, at: Tick)
    requires |slots| == MAX_EDGES_PER_INPUT && head < MAX_EDGES_PER_INPUT && count <= MAX_EDGES_PER_INPUT
    ensures Unrolled(slots[head := at], (head + 1) % MAX_EDGES_PER_INPUT,
                     if count < MAX_EDGES_PER_INPUT then count + 1 else count)
         == DecoderRuns.PushEdge(Unrolled(slots, head, count), at)
  {
    hide Slot;
    var next := (head + 1) % MAX_EDGES_PER_INPUT;
    var before := Unrolled(slots, head, count);
    var after := Unrolled(slots[head := at], next, if count < MAX_EDGES_PER_INPUT then count + 1 else count);
    var dropped := if count < MAX_EDGES_PER_INPUT then 0 else 1;
    forall i | 0 <= i < |after| - 1 ensures after[i] == before[i + dropped] {
      assert Slot(next, |after|, i) == Slot(head, count, i + dropped) != head;
    }
    assert Slot(next, |after|, |after| - 1) == head;
  }

  class EdgeHistory {
    const timestamps: array<Tick>
    var head: nat
    var count: nat

    ghost predicate Valid()
      reads this
    {
      timestamps.Length == MAX_EDGES_PER_INPUT && head < MAX_EDGES_PER_INPUT && count <= MAX_EDGES_PER_INPUT
    }

    /** The retained edges, oldest first. */
    ghost function Contents(): (edges: seq<int>)
      requires Valid()
      reads this, timestamps
      ensures |edges| == count
    {
      Unrolled(timestamps[..], head, count)
    }

    constructor ()
      ensures Valid() && fresh(timestamps) && Contents() == []
    {
      timestamps := new Tick[MAX_EDGES_PER_INPUT](_ => 0);
      head, count := 0, 0;
    }

    method EdgeAt(logicalIndex: nat) returns (at: Tick)
      requires Valid() && logicalIndex < count
      ensures at == Contents()[logicalIndex]
    {
      var oldest := (head + MAX_EDGES_PER_INPUT - count) % MAX_EDGES_PER_INPUT;
      at := timestamps[(oldest + logicalIndex) % MAX_EDGES_PER_INPUT];
    }

    method PushEdge(at: Tick)
      requires Valid()
      modifies this, timestamps
      ensures Valid() && Contents() == DecoderRuns.PushEdge(old(Contents()), at)
    {
      OverwriteOldest(timestamps[..], head, count, at);
      timestamps[head] := at;
      head := (head + 1) % MAX_EDGES_PER_INPUT;
      if count < MAX_EDGES_PER_INPUT {
        count := count + 1;
      }
    }
  }
}
