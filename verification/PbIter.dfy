/** The field iterator: a cursor over a descriptor table that keeps the data
    address, the size address and the required-field index up to date. */
module PbIter {
  import opened Wrappers
  import opened PbMessages

  /** Bytes an entry takes in the struct. */
  function StoredSize(f: Field): nat {
    if f.htype.REPEATED? then f.dataSize * f.arraySize else f.dataSize
  }

  /** What entry `q` adds to the running address: nothing inside a union, else
      the end of the entry before it and the padding. */
  function Advance(d: Desc, q: nat): nat
    requires q < |d.fields|
  {
    if Joins(d, q) then 0
    else d.fields[q].dataOffset + if q == 0 then 0 else StoredSize(d.fields[q - 1])
  }

  function DataOffset(d: Desc, p: nat): nat
    requires p < |d.fields|
  {
    Advance(d, p) + if p == 0 then 0 else DataOffset(d, p - 1)
  }

  /** All members of a union are at one address, the address of its slot. */
  lemma {:induction false} UnionSharesAddress(d: Desc, p: nat)
    requires p < |d.fields|
    ensures DataOffset(d, p) == DataOffset(d, Head(d, p))
  {
    if Joins(d, p) { UnionSharesAddress(d, p - 1); }
  }

  /** No two slots overlap: whatever the last entry of a slot stores ends before every
      later entry begins, member of a union or not. */
  lemma {:induction false} SlotsInOrder(d: Desc, p: nat, q: nat)
    requires p < q < |d.fields| && !Joins(d, p + 1)
    ensures DataOffset(d, p) + StoredSize(d.fields[p]) <= DataOffset(d, q)
  {
    if p + 1 < q { SlotsInOrder(d, p, q - 1); }
  }

  /** No element of an array reaches the next entry. */
  lemma ElementsInOrder(d: Desc, p: nat, k: nat, q: nat)
    requires p < q < |d.fields| && d.fields[p].htype.REPEATED? && k < d.fields[p].arraySize
    ensures DataOffset(d, p) + k * d.fields[p].dataSize + d.fields[p].dataSize <= DataOffset(d, q)
  {
    SlotsInOrder(d, p, q);
    hide DataOffset;
    ElementFits(k, d.fields[p].arraySize, d.fields[p].dataSize);
    Commute(d.fields[p].dataSize, d.fields[p].arraySize);
  }

  lemma Commute(a: nat, b: nat)
    ensures a * b == b * a
  {}

  lemma {:induction false} ElementFits(k: nat, count: nat, size: nat)
    requires k < count
    ensures k * size + size <= count * size
    decreases count
  {
    if k < count - 1 { ElementFits(k, count - 1, size); }
    assert count * size == (count - 1) * size + size;
  }

  class FieldIter {
    const desc: Desc
    const destStruct: int
    var pos: nat
    var requiredFieldIndex: nat
    var pData: int
    var pSize: int

    /** The cursor rests on an entry, or on the terminator of an empty table. */
    ghost predicate Valid()
      reads this
    {
      if desc.fields == [] then pos == 0 && requiredFieldIndex == 0
      else
        && pos < |desc.fields|
        && requiredFieldIndex == RequiredBefore(desc, pos)
        && pData == destStruct + DataOffset(desc, pos)
        && pSize == pData + desc.fields[Head(desc, pos)].sizeOffset
    }

    /** pb_field_iter_begin; afterwards the cursor is on the first entry. */
    constructor (d: Desc, dest: int)
      ensures Valid() && desc == d && destStruct == dest && pos == 0
    {
      desc, destStruct := d, dest;
      pos, requiredFieldIndex := 0, 0;
      pData, pSize := dest, dest;
      if d.fields != [] {
        pData := dest + d.fields[0].dataOffset;
        pSize := dest + d.fields[0].dataOffset + d.fields[0].sizeOffset;
      }
    }

    method Rewind()
      requires desc.fields != []
      modifies this
      ensures Valid() && pos == 0
    {
      pos, requiredFieldIndex := 0, 0;
      pData := destStruct + desc.fields[0].dataOffset;
      pSize := pData + desc.fields[0].sizeOffset;
    }

    /** pb_field_iter_next: false when it wraps to the beginning. */
    method Next() returns (more: bool)
      requires Valid()
      modifies this
      ensures Valid()
      ensures more == (old(pos) + 1 < |desc.fields|)
      ensures pos == if more then old(pos) + 1 else 0
    {
      if desc.fields == [] { return false; }
      var prev := desc.fields[pos];
      if pos + 1 == |desc.fields| {
        Rewind();
        return false;
      }
      pos := pos + 1;
      var cur := desc.fields[pos];
      var prevSize := prev.dataSize;
      if prev.htype.ONEOF? && cur.htype.ONEOF? && cur.dataOffset == PB_SIZE_MAX {
        return true;  // the pointers stay where they are inside a union
      } else if prev.htype.REPEATED? {
        prevSize := prevSize * prev.arraySize;
      }
      if prev.htype.REQUIRED? {
        requiredFieldIndex := requiredFieldIndex + 1;
      }
      pData := pData + prevSize + cur.dataOffset;
      pSize := pData + cur.sizeOffset;
      return true;
    }

    /** pb_field_iter_find: from wherever the cursor is, once around the table.
        On an empty table it stops at the terminator, whose tag is 0. */
    method Find(tag: nat) returns (found: bool)
      requires Valid()
      modifies this
      ensures Valid()
      ensures found <==> PbMessages.Find(desc, tag).Some? || (desc.fields == [] && tag == 0)
      ensures found && desc.fields != [] ==> desc.fields[pos].tag == tag
      ensures !found ==> pos == old(pos)
    {
      if desc.fields == [] { return tag == 0; }
      ghost var n := |desc.fields|;
      var start := pos;
      ghost var steps := 0;
      while true
        invariant Valid() && steps < n
        invariant pos == if start + steps < n then start + steps else start + steps - n
        invariant forall q :: start <= q < start + steps && q < n ==> desc.fields[q].tag != tag
        invariant forall q :: 0 <= q < start + steps - n ==> desc.fields[q].tag != tag
        decreases n - steps
      {
        if desc.fields[pos].tag == tag { return true; }
        var _ := Next();
        steps := steps + 1;
        if pos == start { break; }
      }
      return false;
    }
  }

  /** With distinct tags the entry that is found does not depend on where the
      cursor was. */
  lemma FoundIsUnique(d: Desc, pos: nat, tag: nat)
    requires WellFormed(d) && pos < |d.fields| && d.fields[pos].tag == tag
    ensures Find(d, tag) == Some(pos)
  {}
}
