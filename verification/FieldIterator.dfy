/**
 The field iterator (pb_common.c): it walks a descriptor in a circle and keeps, by adding
 relative offsets only, a pointer to the data of the field it stands on.
 */
module FieldIterator {
  import opened Wrappers
  import opened Descriptor
  import opened Decoding

  /** Bytes the member occupies in the struct: what the generator's pb_membersize is. */
  function Extent(f: Field): nat {
    if f.htype.Repeated? then f.dataSize * f.arraySize else f.dataSize
  }

  /**
   The descriptor was generated for a struct whose slot k lies at offsets[k]: each
   data_offset is the distance from the end of the previous member.
   */
  ghost predicate LaidOut(fields: Fields, offsets: seq<int>) {
    && WellFormed(fields) && |offsets| == SlotCount(fields)
    && forall i :: 0 <= i < |fields| ==> Placed(fields, offsets, i)
  }

  /** Member i lies where its predecessor and its relative offset put it. */
  ghost predicate Placed(fields: Fields, o: seq<int>, i: nat)
    requires i < |fields|
  {
    && fields[i].slot < |o|
    && (if i == 0 then o[0] == fields[0].dataOffset
        else fields[i - 1].slot < |o| &&
             (InUnion(fields, i) ||
              o[fields[i].slot] == o[fields[i - 1].slot] + Extent(fields[i - 1]) + fields[i].dataOffset))
  }

  /** The struct offsets a descriptor describes, slot by slot. */
  ghost function OffsetsUpTo(fields: Fields, n: nat): seq<int>
    requires n <= |fields|
  {
    if n == 0 then []
    else
      var prev := OffsetsUpTo(fields, n - 1);
      if InUnion(fields, n - 1) then prev
      else prev + [if n == 1 || prev == [] then fields[n - 1].dataOffset
                   else prev[|prev| - 1] + Extent(fields[n - 2]) + fields[n - 1].dataOffset]
  }

  ghost function Offsets(fields: Fields): seq<int> {
    OffsetsUpTo(fields, |fields|)
  }

  /** Every well-formed descriptor describes a struct. */
  lemma OffsetsLaidOut(fields: Fields)
    requires WellFormed(fields)
    ensures LaidOut(fields, Offsets(fields))
  {
    OffsetsPrefix(fields, |fields|);
  }

  lemma {:induction false} OffsetsPrefix(fields: Fields, n: nat)
    requires WellFormed(fields) && n <= |fields|
    ensures var o := OffsetsUpTo(fields, n);
            && |o| == (if n == 0 then 0 else fields[n - 1].slot + 1)
            && forall i :: 0 <= i < n ==> Placed(fields, o, i)
  {
    hide WellFormed, Extent;
    if n > 0 {
      OffsetsPrefix(fields, n - 1);
      SlotStep(fields, n - 1);
      var o, prev := OffsetsUpTo(fields, n), OffsetsUpTo(fields, n - 1);
      forall i | 0 <= i < n - 1 ensures Placed(fields, o, i) {
        assert Placed(fields, prev, i);
      }
    }
  }

  /** The offsets are those of the struct the descriptor was generated for. */
  lemma LayoutIsUnique(fields: Fields, offsets: seq<int>)
    requires LaidOut(fields, offsets)
    ensures offsets == Offsets(fields)
  {
    hide WellFormed, OffsetsUpTo;
    OffsetsLaidOut(fields);
    SlotsCovered(fields, offsets, |fields|);
  }

  lemma {:induction false} SlotsCovered(fields: Fields, offsets: seq<int>, n: nat)
    requires LaidOut(fields, offsets) && n <= |fields|
    ensures LaidOut(fields, Offsets(fields))
    ensures n > 0 ==> forall k :: 0 <= k <= fields[n - 1].slot ==> k < |offsets| && offsets[k] == Offsets(fields)[k]
  {
    hide WellFormed, OffsetsUpTo, Extent;
    OffsetsLaidOut(fields);
    if n > 0 {
      assert Placed(fields, offsets, n - 1) && Placed(fields, Offsets(fields), n - 1);
    }
    if n == 1 {
      FirstSlot(fields);
    } else if n > 1 {
      SlotsCovered(fields, offsets, n - 1);
      SlotStep(fields, n - 1);
      SlotBelowCount(fields, n - 1);
    }
  }

  class FieldIter {
    const fields: Fields
    const destStruct: int
    var pos: nat
    var pData: int
    var pSize: int
    var requiredFieldIndex: nat

    /** The pointers and the counter are those of the field the iterator stands on. */
    ghost predicate Exact()
      reads this
    {
      && WellFormed(fields)
      && (if fields == [] then pos == 0 && requiredFieldIndex == 0 else pos < |fields|)
      && (pos < |fields| ==>
            && requiredFieldIndex == RequiredBefore(fields, pos)
            && fields[pos].slot < |Offsets(fields)| && pData == destStruct + Offsets(fields)[fields[pos].slot]
            && pSize == pData + fields[pos].sizeOffset)
    }

    /** pb_field_iter_begin; Tag() == 0 afterwards means the message type is empty. */
    constructor (fields: Fields, destStruct: int)
      requires WellFormed(fields)
      ensures this.fields == fields && this.destStruct == destStruct && pos == 0 && requiredFieldIndex == 0
      ensures Exact()
    {
      this.fields := fields;
      this.destStruct := destStruct;
      pos := 0;
      requiredFieldIndex := 0;
      pData := destStruct + if fields == [] then 0 else fields[0].dataOffset;
      pSize := destStruct + if fields == [] then 0 else fields[0].dataOffset + fields[0].sizeOffset;
      new;
      OffsetsLaidOut(fields);
      if fields != [] { FirstSlot(fields); assert Placed(fields, Offsets(fields), 0); }
    }

    /** The tag of the current field, zero on the terminator. */
    function Tag(): nat
      reads this
    {
      if pos < |fields| then fields[pos].tag else 0
    }

    method Rewind()
      requires WellFormed(fields) && fields != []
      modifies this
      ensures pos == 0 && Exact()
    {
      pos := 0;
      requiredFieldIndex := 0;
      pData := destStruct + fields[0].dataOffset;
      pSize := pData + fields[0].sizeOffset;
      OffsetsLaidOut(fields);
      FirstSlot(fields);
      assert Placed(fields, Offsets(fields), 0);
    }

    /** pb_field_iter_next: one step round the circle; false when it came back to the start. */
    method Next() returns (more: bool)
      requires Exact()
      modifies this
      ensures Exact()
      ensures more == (old(pos) + 1 < |fields|)
      ensures pos == if more then old(pos) + 1 else 0
    {
      if pos >= |fields| {
        return false;   // on the terminator of an empty message type
      }
      hide WellFormed, OffsetsUpTo;
      OffsetsLaidOut(fields);
      var prev := fields[pos];
      if pos + 1 == |fields| {
        Rewind();
        return false;
      }
      pos := pos + 1;
      assert Placed(fields, Offsets(fields), pos);
      SlotStep(fields, pos);
      var prevSize := prev.dataSize;
      if prev.htype.Oneof? && fields[pos].htype.Oneof? && fields[pos].dataOffset == PB_SIZE_MAX {
        return true;   // the pointers stay inside the union
      } else if prev.htype.Repeated? {
        prevSize := prevSize * prev.arraySize;
      }
      if prev.htype.Required? {
        requiredFieldIndex := requiredFieldIndex + 1;
      }
      pData := pData + prevSize + fields[pos].dataOffset;
      pSize := pData + fields[pos].sizeOffset;
      return true;
    }

    /**
     pb_field_iter_find: succeeds from every starting point exactly when the tag occurs, and
     a failed search leaves the iterator where it was.
     */
    method Find(tag: nat) returns (found: bool)
      requires Exact()
      modifies this
      ensures Exact()
      ensures fields != [] ==> found == FindField(fields, tag).Some?
      ensures fields != [] && found ==> FindField(fields, tag) == Some(pos)
      ensures fields == [] ==> found == (tag == 0)
      ensures !found ==> pos == old(pos)
    {
      var start := pos;
      ghost var wrapped := false;
      while true
        invariant Exact() && (wrapped ==> pos < start) && (!wrapped ==> start <= pos)
        invariant fields == [] ==> pos == start
        invariant forall i :: 0 <= i < |fields| && (if wrapped then start <= i || i < pos else start <= i < pos) ==>
                    fields[i].tag != tag
        decreases if wrapped then start - pos else |fields| + start - pos
      {
        if Tag() == tag {
          return true;
        }
        var more := Next();
        wrapped := wrapped || !more;
        if pos == start {
          break;
        }
      }
      return false;
    }
  }
}
