/**
 The caller-supplied array into which a constant sequence is written (`int32 v[4]`,
 `int32 *v`).  `Emit` demands room, so whoever calls it proves that the fixed size
 is never exceeded.
 */
module Buffers {
  import opened Arm

  class InstrBuffer {
    var slots: array<Instr>
    var len: nat

    ghost predicate Valid()
      reads this
    {
      len <= slots.Length
    }

    ghost function Contents(): Code
      reads this, slots
      requires Valid()
    {
      slots[..len]
    }

    constructor (size: nat)
      ensures Valid() && fresh(slots) && slots.Length == size && Contents() == []
    {
      slots := new Instr[size](_ => Transfer(true, 0, 0, 0, Offset));
      len := 0;
    }

    method Emit(i: Instr)
      requires Valid() && len < slots.Length
      modifies this`len, slots
      ensures Valid() && Contents() == old(Contents()) + [i]
    {
      slots[len] := i;
      len := len + 1;
    }
  }
}
