/** The cyclic field cursor that encoder and decoder walk a descriptor with. */
module PbCursor {
  import opened Common
  import opened PbDescriptor

  /** Members of a union find the which-tag at the same distance from their data. */
  predicate UnionSizesAgree(fields: seq<Field>)
  {
    forall i :: 0 <= i < |fields| && SharesUnion(fields, i) ==> fields[i].sizeOffset == fields[i - 1].sizeOffset
  }

  /** pb_field_iter_t: addresses are integers, `dest` is the address of the struct. */
  class FieldIter {
    var fields: seq<Field>
    var pos: nat
    var requiredIndex: nat
    var dest: int
    var pData: int
    var pSize: int

    /** The cursor stands on field i and its three derived fields say so. With no fields it stands on the terminator. */
    ghost predicate At(i: nat)
      reads this
    {
      && pos == i
      && UnionSizesAgree(fields)
      && (if fields == [] then i == 0
          else i < |fields| && pData == dest + Offset(fields, i) && pSize == pData + fields[i].sizeOffset
               && requiredIndex == RequiredBefore(fields, i))
    }

    constructor (fields: seq<Field>, dest: int)
      requires UnionSizesAgree(fields)
      ensures this.fields == fields && this.dest == dest && At(0)
    {
      this.fields := fields;
      this.dest := dest;
      pos, requiredIndex := 0, 0;
      pData := if fields == [] then dest else dest + fields[0].dataOffset;
      pSize := if fields == [] then dest else dest + fields[0].dataOffset + fields[0].sizeOffset;
    }

    /** pb_field_iter_begin on the same descriptor and struct */
    method Begin() returns (any: bool)
      requires UnionSizesAgree(fields)
      modifies this
      ensures fields == old(fields) && dest == old(dest)
      ensures At(0) && any == (fields != [])
    {
      pos, requiredIndex := 0, 0;
      pData := if fields == [] then dest else dest + fields[0].dataOffset;
      pSize := if fields == [] then pData else pData + fields[0].sizeOffset;
      any := fields != [];
    }

    /** pb_field_iter_next: true unless it wrapped to the first field. */
    method Next() returns (more: bool)
      requires At(pos)
      modifies this
      ensures fields == old(fields) && dest == old(dest)
      ensures more == (old(pos) + 1 < |fields|)
      ensures At(if more then old(pos) + 1 else 0)
    {
      if fields == [] {
        return false;
      }
      var prev := fields[pos];
      pos := pos + 1;
      if pos == |fields| {
        var _ := Begin();
        return false;
      }
      if prev.htype.OneOf? && fields[pos].htype.OneOf? && fields[pos].dataOffset == PB_SIZE_MAX {
        // All members of a union lie at the same address.
        assert SharesUnion(fields, pos);
        return true;
      }
      var prevSize := prev.dataSize;
      if prev.htype.Repeated? {
        prevSize := prevSize * prev.arraySize;
      }
      if prev.htype.Required? {
        requiredIndex := requiredIndex + 1;
      }
      pData := pData + prevSize + fields[pos].dataOffset;
      pSize := pData + fields[pos].sizeOffset;
      return true;
    }

    /** pb_field_iter_find: from wherever the cursor stands it reaches the field with this tag, and its
        derived fields are those of that field. Without such a field the cursor comes back to where it was. */
    method Find(tag: nat) returns (found: bool)
      requires At(pos)
      modifies this
      ensures fields == old(fields) && dest == old(dest)
      ensures found == if fields == [] then tag == 0 else FindField(fields, tag).Some?
      ensures At(pos)
      ensures found && fields != [] ==> fields[pos].tag == tag
      ensures found && fields != [] && DistinctTags(fields) ==> Some(pos) == FindField(fields, tag)
      ensures !found ==> pos == old(pos)
    {
      var start, n := pos, |fields|;
      ghost var wrapped := false;
      while true
        invariant fields == old(fields) && dest == old(dest) && n == |fields| && At(pos)
        invariant !wrapped ==> start <= pos && forall j :: start <= j < pos ==> fields[j].tag != tag
        invariant wrapped ==> pos < start < n
        invariant wrapped ==> forall j :: start <= j < n || 0 <= j < pos ==> fields[j].tag != tag
        decreases !wrapped, n - pos
      {
        if (if n == 0 then 0 else fields[pos].tag) == tag {
          if DistinctTags(fields) && n > 0 { FindUnique(fields, pos); }
          return true;
        }
        var more := Next();
        if !more { wrapped := true; }
        if pos == start {
          return false;
        }
      }
    }

    /** The walk that pb_decode_noinit makes to its end to count the required fields. */
    method CountRequired() returns (count: nat)
      requires At(pos)
      modifies this
      ensures fields == old(fields) && dest == old(dest)
      ensures count == RequiredBefore(fields, |fields|)
    {
      var lastRequired := false;
      var more := true;
      count := 0;
      while more
        invariant fields == old(fields) && dest == old(dest) && At(pos)
        invariant !more ==> pos == 0 && (fields == [] ==> count == 0)
        invariant !more && fields != [] ==> count == RequiredBefore(fields, |fields| - 1) && lastRequired == fields[|fields| - 1].htype.Required?
        decreases more, |fields| - pos
      {
        count := if fields == [] then 0 else requiredIndex;
        lastRequired := fields != [] && fields[pos].htype.Required?;
        more := Next();
      }
      // The terminator's tag is 0; in a non-empty message the cursor never stands on it.
      if lastRequired && fields != [] {
        count := count + 1;
      }
    }
  }
}
