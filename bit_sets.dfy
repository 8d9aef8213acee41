/** BitSets.add: sets a bit in the caller's java.util.BitSet and reports
    whether it was clear. A BitSet is the set of its set indices. */
module BitSets {
  import opened Wrappers

  class BitSet {
    var bits: set<nat>

    constructor ()
      ensures bits == {}
    {
      bits := {};
    }
  }

  /** add(bitSet, index): a null bit set is a NullPointerException and a
      negative index an IndexOutOfBoundsException (from BitSet.get);
      otherwise true iff the bit was clear, and afterwards it is set while
      every other bit keeps its value. */
  method Add(bitSet: BitSet?, index: int) returns (r: Result<bool>)
    modifies bitSet
    ensures bitSet == null ==> r == Err(NullPointer)
    ensures bitSet != null && index < 0 ==> r == Err(IndexOutOfBounds) && bitSet.bits == old(bitSet.bits)
    ensures bitSet != null && index >= 0 ==> r.Ok? && (r.value <==> index !in old(bitSet.bits))
    ensures bitSet != null && index >= 0 ==> bitSet.bits == old(bitSet.bits) + {index}
    ensures bitSet != null && index >= 0 ==> forall i :: i != index ==> (i in bitSet.bits <==> i in old(bitSet.bits))
  {
    if bitSet == null {
      return Err(NullPointer);
    }
    if index < 0 {
      return Err(IndexOutOfBounds);
    }
    var cleared := index !in bitSet.bits;
    if cleared {
      bitSet.bits := bitSet.bits + {index};
    }
    r := Ok(cleared);
  }

  /** Adding the same index a second time answers false and changes
      nothing. */
  method AddTwice(bitSet: BitSet, index: nat) returns (first: bool, second: bool)
    modifies bitSet
    ensures first <==> index !in old(bitSet.bits)
    ensures !second
    ensures bitSet.bits == old(bitSet.bits) + {index}
  {
    var r1 := Add(bitSet, index);
    ghost var afterFirst := bitSet.bits;
    var r2 := Add(bitSet, index);
    assert bitSet.bits == afterFirst;
    first := r1.value;
    second := r2.value;
  }
}
