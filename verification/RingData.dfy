/** source/core/pif_ring_data.c: a queue of records in a ring of slots, one of which is always spare. The writer moves
    only the head and the reader only the tail, so that the one may interrupt the other between any two steps. */
module RingData {
  import opened Seqs

  class RingData<T(0)> {
    const slots: array<T>
    var head: nat
    var tail: nat

    function Count(): nat
      reads this
      requires tail <= slots.Length
    {
      if head >= tail then head - tail else slots.Length - tail + head
    }

    ghost predicate Valid()
      reads this
    {
      slots.Length >= 2 && head < slots.Length && tail < slots.Length
    }

    /** Records the queue can hold. */
    function Capacity(): nat
      reads this
      requires Valid()
    {
      slots.Length - 1
    }

    function Wrap(i: nat): nat
      reads this
      requires i < 2 * slots.Length
    {
      if i >= slots.Length then i - slots.Length else i
    }

    /** The records from the oldest to the newest. */
    ghost function Contents(): (r: seq<T>)
      reads this, slots
      requires Valid()
      ensures |r| == Count() <= Capacity()
      ensures forall k {:trigger r[k]} :: 0 <= k < |r| ==> r[k] == slots[Wrap(tail + k)]
    {
      seq(Count(), k requires Valid() && 0 <= k < Count() reads this, slots => slots[Wrap(tail + k)])
    }

    constructor (count: nat)
      requires 0 < count < 0xFFFF
      ensures Valid() && fresh(slots) && Capacity() == count && Contents() == []
    {
      slots := new T[count + 1];
      head, tail := 0, 0;
    }

    /** pifRingData_BeginAdd: the slot for the next record, or None when the queue is full. */
    method BeginAdd() returns (full: bool, slot: nat)
      requires Valid()
      ensures full == (|Contents()| == Capacity()) && slot == head
    {
      full := Wrap(head + 1) == tail;
      slot := head;
    }

    /** pifRingData_CommitAdd: what was written to the slot in between becomes the newest record. Before that nothing
        in the slot is seen by the reader. A full queue stays as it is. */
    method CommitAdd()
      requires Valid()
      modifies `head
      ensures Valid()
      ensures Contents() == old(Contents()) + (if |old(Contents())| < Capacity() then [slots[old(head)]] else [])
    {
      ghost var before, n, at := Contents(), Count(), head;
      var next := Wrap(head + 1);
      if next != tail {
        head := next;
        assert Count() == n + 1 && Wrap(tail + n) == at;
        forall k | 0 <= k < n
          ensures Contents()[k] == before[k]
        {
        }
        assert Contents()[n] == slots[at];
      } else {
        Units(before);
      }
    }

    /** Writing to the slot that BeginAdd gave does not change the records. */
    method WriteSlot(slot: nat, x: T)
      requires Valid() && slot == head && |Contents()| < Capacity()
      modifies slots
      ensures Contents() == old(Contents()) && slots[head] == x
    {
      ghost var before := Contents();
      slots[slot] := x;
      forall k | 0 <= k < Count()
        ensures Contents()[k] == before[k]
      {
        assert Wrap(tail + k) != head;
      }
    }

    /** pifRingData_GetData: the slot of the record at an index counted from the oldest one, if there is one. */
    method GetData(index: nat) returns (found: bool, slot: nat)
      requires Valid()
      ensures found == (index < |Contents()|) && slot < slots.Length
      ensures found ==> slots[slot] == Contents()[index] && slot == Wrap(tail + index)
    {
      if index >= Count() {
        return false, 0;
      }
      slot := tail + index;
      if slot >= slots.Length {
        slot := slot - slots.Length;
      }
      found := true;
      assert Contents()[index] == slots[Wrap(tail + index)];
    }

    /** pifRingData_Remove: drops the oldest record, if there is one. */
    method Remove()
      requires Valid()
      modifies `tail
      ensures Valid() && Contents() == if old(Contents()) == [] then [] else old(Contents())[1..]
    {
      if head == tail {
        return;
      }
      ghost var before, n, from := Contents(), Count(), tail;
      tail := Wrap(tail + 1);
      assert Count() == n - 1;
      forall k | 0 <= k < n - 1
        ensures Contents()[k] == before[k + 1]
      {
        assert before[k + 1] == slots[Wrap(from + (k + 1))];
        assert Wrap(tail + k) == Wrap(from + (k + 1));
      }
    }
  }
}
