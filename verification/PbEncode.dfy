/** pb_ostream_t and the encoder that writes through it, proved against the byte strings of PbCodec. */
module PbEncode {
  import opened Bits
  import opened Common
  import opened PbVarint
  import opened PbDescriptor
  import opened PbCursor
  import opened PbCodec

  /** What a caller can see of an output stream: the bytes before the write position, and the bytes of
      the buffer past its limit. A sizing stream (no callback) has neither. */
  datatype Sink = Sink(writes: bool, maxSize: nat, bytesWritten: nat, out: seq<byte>, beyond: seq<byte>)
  {
    predicate Room(n: nat) { !writes || bytesWritten + n <= maxSize }
  }

  /** From s0 to s1 an encoder that owes the bytes `e` reported `ok`. It succeeds exactly when there is an
      encoding and room for it, and then appends those bytes and counts them; otherwise the bytes written
      before stay. Nothing past the limit is touched. */
  predicate Emits(s0: Sink, e: Option<seq<byte>>, s1: Sink, ok: bool)
  {
    && s1.writes == s0.writes && s1.maxSize == s0.maxSize && s1.beyond == s0.beyond
    && ok == (e.Some? && s0.Room(|e.value|))
    && (ok ==> s1.bytesWritten == s0.bytesWritten + |e.value|)
    && (ok ==> s1.out == if s0.writes then s0.out + e.value else s0.out)
    && (!ok ==> s0.out <= s1.out)
  }

  lemma EmitsNothing(s: Sink)
    ensures Emits(s, Some([]), s, true) <==> (s.writes ==> s.bytesWritten <= s.maxSize)
  {
    assert s.out + [] == s.out;
  }

  lemma EmitsThen(s0: Sink, e0: Option<seq<byte>>, s1: Sink, e1: Option<seq<byte>>, s2: Sink, ok: bool)
    requires Emits(s0, e0, s1, true) && Emits(s1, e1, s2, ok)
    ensures Emits(s0, Cat(e0, e1), s2, ok)
  {
    if ok && s0.writes {
      assert s0.out + (e0.value + e1.value) == s0.out + e0.value + e1.value;
    }
  }

  lemma EmitsFailed(s0: Sink, e0: Option<seq<byte>>, s1: Sink, e1: Option<seq<byte>>)
    requires Emits(s0, e0, s1, false)
    ensures Emits(s0, Cat(e0, e1), s1, false)
  {
  }

  lemma CatAssoc(a: Option<seq<byte>>, b: Option<seq<byte>>, c: Option<seq<byte>>)
    ensures Cat(Cat(a, b), c) == Cat(a, Cat(b, c))
  {
    if a.Some? && b.Some? && c.Some? {
      assert (a.value + b.value) + c.value == a.value + (b.value + c.value);
    }
  }

  lemma EmitsGivesUp(s0: Sink, e0: Option<seq<byte>>, s1: Sink)
    requires Emits(s0, e0, s1, true)
    ensures Emits(s0, None, s1, false)
  {
  }

  lemma EncFromStep(fields: seq<Field>, st: Struct, i: nat)
    requires i <= |fields|
    ensures i == 0 ==> EncMessage(fields, st) == Cat(Some([]), EncFrom(fields, st, i))
    ensures i == |fields| ==> EncFrom(fields, st, i) == Some([])
    ensures i < |fields| && Offset(fields, i) !in st ==> EncFrom(fields, st, i) == None
    ensures i < |fields| && Offset(fields, i) in st ==>
      EncFrom(fields, st, i) == Cat(EncField(fields[i], st[Offset(fields, i)]), EncFrom(fields, st, i + 1))
  {
    if EncFrom(fields, st, 0).Some? {
      assert [] + EncFrom(fields, st, 0).value == EncFrom(fields, st, 0).value;
    }
  }

  lemma CatNone(e: Option<seq<byte>>)
    ensures Cat(e, None) == None
  {
  }

  lemma CatNothing(e: Option<seq<byte>>)
    ensures Cat(Some([]), e) == e == Cat(e, Some([]))
  {
    if e.Some? { assert [] + e.value == e.value == e.value + []; }
  }

  /** A descriptor the cursor can walk, at every level; tags are 32-bit. */
  ghost predicate Walkable(fields: seq<Field>)
    decreases fields, 1
  {
    UnionSizesAgree(fields) && forall i :: 0 <= i < |fields| ==> WalkableField(fields[i])
  }

  ghost predicate WalkableField(f: Field)
    decreases f, 0
  {
    f.tag < TWO_32 && (f.ltype.Submessage? ==> Walkable(f.ltype.fields))
  }

  ghost predicate Short(e: Option<seq<byte>>) { e.Some? ==> |e.value| < TWO_64 }

  /** What C guarantees of a struct in memory: every length fits in a size_t, a fixed-width word holds its width. */
  ghost predicate Storable(fields: seq<Field>, st: Struct)
    decreases fields, 3
  {
    && Short(EncMessage(fields, st))
    && forall i :: 0 <= i < |fields| && Offset(fields, i) in st ==> StorableSlot(fields[i], st[Offset(fields, i)])
  }

  ghost predicate StorableSlot(f: Field, slot: Slot)
    decreases f, 2
  {
    if slot.Rep? then |slot.items| <= f.arraySize ==> StorableItems(f, slot.items)
    else if (slot.One? && slot.which != f.tag) || (slot.Opt? && !slot.has) then true    // never looked at
    else StorableValue(f, slot.v)
  }

  ghost predicate StorableItems(f: Field, items: seq<Value>)
    decreases f, 1
  {
    Short(EncItems(f, [], items)) && forall i :: 0 <= i < |items| ==> StorableValue(f, items[i])
  }

  ghost predicate StorableValue(f: Field, v: Value)
    decreases f, 0
  {
    && (f.ltype.Fixed32? ==> v.Int? && 0 <= v.i < TWO_32)
    && (f.ltype.Fixed64? ==> v.Int? && 0 <= v.i < TWO_64)
    && (v.Data? ==> |v.bytes| < TWO_64)
    && (v.Msg? && f.ltype.Submessage? ==> Storable(f.ltype.fields, v.m))
  }

  lemma EncItemsStep(f: Field, prefix: seq<byte>, items: seq<Value>, i: nat)
    requires i <= |items|
    ensures i == 0 ==> EncItems(f, prefix, items) == Cat(Some([]), EncItems(f, prefix, items[i..]))
    ensures i == |items| ==> EncItems(f, prefix, items[i..]) == Some([])
    ensures i < |items| ==> EncItems(f, prefix, items[i..]) == Cat(Some(prefix), Cat(EncValue(f, items[i]), EncItems(f, prefix, items[i + 1..])))
  {
    hide EncValue;
    CatNothing(EncItems(f, prefix, items));
    assert i == 0 ==> items[i..] == items;
    if i < |items| {
      assert items[i..][1..] == items[i + 1..];
      CatAssoc(Some(prefix), EncValue(f, items[i]), EncItems(f, prefix, items[i + 1..]));
    }
  }

  function EncDelimited(e: Option<seq<byte>>): Option<seq<byte>>
  {
    if e.Some? then Some(Delimited(e.value)) else None
  }

  /** A packed array whose entries encode to `e`. */
  function EncPacked(tag: nat, e: Option<seq<byte>>): Option<seq<byte>>
  {
    if e.Some? then Some(EncTag(tag, WT_STRING) + Delimited(e.value)) else None
  }

  lemma EncPackedParts(tag: nat, e: Option<seq<byte>>)
    ensures EncPacked(tag, e) == Cat(Some(EncTag(tag, WT_STRING)), EncDelimited(e))
    ensures e.Some? ==> EncPacked(tag, e) == Cat(Cat(Some(EncTag(tag, WT_STRING)), Some(EncVarint(|e.value|))), e)
    ensures e.None? ==> EncPacked(tag, e) == None
  {
    if e.Some? {
      CatAssoc(Some(EncTag(tag, WT_STRING)), Some(EncVarint(|e.value|)), e);
    }
  }

  /** A sizing stream fails only when there is no encoding, and otherwise holds its length. */
  lemma EmitsSizing(e: Option<seq<byte>>, s: Sink, ok: bool)
    requires Emits(Sink(false, 0, 0, [], []), e, s, ok)
    ensures ok == e.Some? && (ok ==> s.bytesWritten == |e.value|)
  {
  }

  /** The size shortcut of encode_array for fixed-width words. */
  lemma {:induction false} FixedItemsSize(f: Field, items: seq<Value>)
    requires f.ltype.Fixed32? || f.ltype.Fixed64?
    requires forall i :: 0 <= i < |items| ==> StorableValue(f, items[i])
    ensures EncItems(f, [], items).Some?
    ensures |EncItems(f, [], items).value| == (if f.ltype.Fixed32? then 4 else 8) * |items|
  {
    if items != [] {
      FixedItemsSize(f, items[1..]);
      assert EncValue(f, items[0]).Some?;
    }
  }

  /** The groups that the loop of pb_encode_varint stores: all have the top bit set. */
  function Groups(v: nat): (r: seq<byte>)
  {
    if v == 0 then [] else [128 + v % 128] + Groups(v / 128)
  }

  lemma GroupsStep(v: nat)
    ensures Groups(v) == if v == 0 then [] else [128 + v % 128] + Groups(v / 128)
  {
  }

  lemma GroupsNext(sofar: seq<byte>, v: nat)
    requires v > 0
    ensures sofar + Groups(v) == (sofar + [128 + v % 128]) + Groups(v / 128)
    ensures v / 128 < v && |Groups(v)| == 1 + |Groups(v / 128)|
  {
    GroupsStep(v);
    hide Groups;
  }

  /** Clearing the top bit of the last group gives the varint. */
  lemma {:induction false} GroupsAreVarint(v: nat)
    requires v > 0
    ensures |Groups(v)| == |EncVarint(v)|
    ensures EncVarint(v) == Groups(v)[|Groups(v)| - 1 := Groups(v)[|Groups(v)| - 1] % 128]
  {
    if v < 128 {
      assert Groups(v / 128) == [];
    } else {
      GroupsAreVarint(v / 128);
      var g := Groups(v / 128);
      assert |g| > 0;
      assert Groups(v) == [128 + v % 128] + g;
    }
  }

  class OStream {
    const dest: array<byte>      // where a buffer stream writes
    const writes: bool           // callback != NULL
    var state: nat               // index of the next byte in dest
    var maxSize: nat
    var bytesWritten: nat

    ghost predicate Valid()
      reads this
    {
      writes ==> bytesWritten <= maxSize && state + maxSize - bytesWritten <= dest.Length
    }

    ghost function View(): Sink
      requires Valid()
      reads this, dest
    {
      if writes then Sink(true, maxSize, bytesWritten, dest[..state], dest[state + maxSize - bytesWritten..])
      else Sink(false, maxSize, bytesWritten, [], [])
    }

    /** pb_ostream_from_buffer, and the substream of pb_encode_submessage */
    constructor OnBuffer(dest: array<byte>, state: nat, maxSize: nat)
      requires state + maxSize <= dest.Length
      ensures Valid() && View() == Sink(true, maxSize, 0, dest[..state], dest[state + maxSize..])
      ensures this.dest == dest && this.state == state && writes && bytesWritten == 0 && this.maxSize == maxSize
    {
      this.dest, this.writes, this.state, this.maxSize, this.bytesWritten := dest, true, state, maxSize, 0;
    }

    /** PB_OSTREAM_SIZING */
    constructor Sizing()
      ensures Valid() && View() == Sink(false, 0, 0, [], []) && fresh(dest) && !writes
    {
      dest := new byte[0];
      writes, state, maxSize, bytesWritten := false, 0, 0, 0;
    }

    /** pb_write of `buf[..count]`; the loop is buf_write */
    method Write(buf: array<byte>, count: nat) returns (ok: bool)
      requires Valid() && count <= buf.Length && buf != dest
      modifies this, dest
      ensures Valid() && Emits(old(View()), Some(buf[..count]), View(), ok)
    {
      if writes {
        if bytesWritten + count > maxSize {
          return false;
        }
        ghost var before, limit, end := dest[..state], dest[state + maxSize - bytesWritten..], state + maxSize - bytesWritten;
        var at := state;
        state := at + count;
        for i := 0 to count
          invariant dest[..at] == before && dest[end..] == limit && dest[at..at + i] == buf[..i]
          modifies dest
        {
          dest[at + i] := buf[i];
        }
        assert dest[..at + count] == before + buf[..count];
      }
      bytesWritten := bytesWritten + count;
      return true;
    }

    /** Writing bytes the caller holds as a value. */
    method WriteBytes(bytes: seq<byte>) returns (ok: bool)
      requires Valid()
      modifies this, dest
      ensures Valid() && Emits(old(View()), Some(bytes), View(), ok)
    {
      var buf := new byte[|bytes|](i requires 0 <= i < |bytes| => bytes[i]);
      assert buf[..|bytes|] == bytes;
      ok := Write(buf, |bytes|);
    }

    /** pb_write(stream, NULL, size) of a sizing stream: it stands for any bytes of that length. */
    method Count(size: nat, ghost bytes: seq<byte>) returns (ok: bool)
      requires Valid() && !writes && |bytes| == size
      modifies this`bytesWritten
      ensures Valid() && ok && Emits(old(View()), Some(bytes), View(), ok)
    {
      bytesWritten := bytesWritten + size;
      ok := true;
    }

    /** pb_encode_varint */
    method EncodeVarint(value: nat) returns (ok: bool)
      requires Valid() && value < TWO_64
      modifies this, dest
      ensures Valid() && Emits(old(View()), Some(EncVarint(value)), View(), ok)
    {
      var buffer := new byte[10];
      var i := 1;
      if value <= 0x7F {
        buffer[0] := value;
        assert buffer[..1] == EncVarint(value);
      } else {
        i := FillVarint(buffer, value);
      }
      hide EncVarint;
      ok := Write(buffer, i);
    }

    /** The loop of pb_encode_varint over its ten-byte buffer. */
    static method FillVarint(buffer: array<byte>, value: nat) returns (i: nat)
      requires 0 < value < TWO_64 && buffer.Length == 10
      modifies buffer
      ensures i <= 10 && buffer[..i] == EncVarint(value)
    {
      hide EncVarint, Groups;
      VarintAtMostTenBytes(value);
      GroupsAreVarint(value);
      i := 0;
      var v := value;
      while v != 0
        invariant i <= 10 && i + |Groups(v)| == |Groups(value)| && buffer[..i] + Groups(v) == Groups(value)
        decreases v
      {
        ghost var sofar := buffer[..i];
        GroupsNext(sofar, v);
        buffer[i] := v % 128 + 128;
        assert buffer[..i + 1] == sofar + [128 + v % 128];
        v := v / 128;
        i := i + 1;
      }
      GroupsStep(0);
      ghost var groups := buffer[..i];
      assert groups == Groups(value) && |groups| == i;
      buffer[i - 1] := buffer[i - 1] % 128;     // &= 0x7F
      assert buffer[..i] == groups[i - 1 := groups[i - 1] % 128];
    }

    /** pb_encode_svarint */
    method EncodeSvarint(value: int) returns (ok: bool)
      requires Valid() && -TWO_63 <= value < TWO_63
      modifies this, dest
      ensures Valid() && Emits(old(View()), Some(EncVarint(ZigZag(value))), View(), ok)
    {
      ZigZagRoundTrip(value);
      ok := EncodeVarint(ZigZag(value));
    }

    /** pb_encode_fixed32 and pb_encode_fixed64 */
    method EncodeFixed(value: nat, n: nat) returns (ok: bool)
      requires Valid()
      modifies this, dest
      ensures Valid() && Emits(old(View()), Some(EncFixed(value, n)), View(), ok)
    {
      var bytes := new byte[n];
      var v := value;
      for i := 0 to n
        invariant bytes[..i] + EncFixed(v, n - i) == EncFixed(value, n)
        modifies bytes
      {
        ghost var sofar := bytes[..i];
        bytes[i] := v % 256;
        assert bytes[..i + 1] == sofar + [v % 256];
        v := v / 256;
      }
      assert bytes[..n] == EncFixed(value, n);
      ok := Write(bytes, n);
    }

    /** pb_encode_tag; the three low bits of the shifted field number are free for the wire type */
    method EncodeTag(wt: nat, tag: nat) returns (ok: bool)
      requires Valid() && tag < TWO_32 && wt < 8
      modifies this, dest
      ensures Valid() && Emits(old(View()), Some(EncTag(tag, wt)), View(), ok)
    {
      ok := EncodeVarint(tag * 8 + wt);
    }

    /** pb_encode_string */
    method EncodeString(bytes: seq<byte>) returns (ok: bool)
      requires Valid() && |bytes| < TWO_64
      modifies this, dest
      ensures Valid() && Emits(old(View()), Some(Delimited(bytes)), View(), ok)
    {
      hide EncVarint;
      ghost var s0 := View();
      ok := EncodeVarint(|bytes|);
      ghost var s1 := View();
      if !ok {
        EmitsFailed(s0, Some(EncVarint(|bytes|)), s1, Some(bytes));
        return;
      }
      ok := WriteBytes(bytes);
      EmitsThen(s0, Some(EncVarint(|bytes|)), s1, Some(bytes), View(), ok);
    }

    /** pb_encode: walk the fields with the cursor. */
    method PbEncode(fields: seq<Field>, st: Struct) returns (ok: bool)
      requires Valid() && Walkable(fields) && Storable(fields, st)
      modifies this, dest
      ensures Valid() && Emits(old(View()), EncMessage(fields, st), View(), ok)
      decreases fields, 5
    {
      hide Emits, EncField, EncFrom, EncMessage, StorableSlot, WalkableField, UnionSizesAgree, Cat, Offset;
      EmitsNothing(View());
      EncFromStep(fields, st, 0);
      var iter := new FieldIter(fields, 0);
      var any := iter.Begin();
      if !any {
        CatNothing(Some([]));
        return true;
      }
      ghost var s0 := View();
      ghost var done: Option<seq<byte>> := Some([]);
      var more := true;
      while more
        invariant Valid() && fresh(iter) && iter.fields == fields && iter.dest == 0 && iter.At(iter.pos)
        invariant Emits(s0, done, View(), true)
        invariant EncMessage(fields, st) == if more then Cat(done, EncFrom(fields, st, iter.pos)) else done
        decreases more, |fields| - iter.pos
      {
        ghost var i, s1 := iter.pos, View();
        EncFromStep(fields, st, i);
        if iter.pData !in st {
          CatNone(done);
          EmitsGivesUp(s0, done, View());
          return false;
        }
        ok := EncodeBasicField(fields[iter.pos], st[iter.pData]);
        ghost var e := EncField(fields[i], st[Offset(fields, i)]);
        CatAssoc(done, e, EncFrom(fields, st, i + 1));
        EmitsThen(s0, done, s1, e, View(), ok);
        done := Cat(done, e);
        if !ok {
          EmitsFailed(s0, done, View(), EncFrom(fields, st, i + 1));
          return false;
        }
        more := iter.Next();
        if !more {
          EncFromStep(fields, st, i + 1);
          CatNothing(done);
        }
      }
      return true;
    }

    /** encode_basic_field */
    method EncodeBasicField(f: Field, slot: Slot) returns (ok: bool)
      requires Valid() && WalkableField(f) && StorableSlot(f, slot)
      modifies this, dest
      ensures Valid() && Emits(old(View()), EncField(f, slot), View(), ok)
      decreases f, 3
    {
      hide Emits, EncValue, EncItems, EncArray, IsDefault, StorableValue;
      EmitsNothing(View());
      EmitsGivesUp(View(), Some([]), View());
      var has := true;
      match f.htype {
        case Required =>
          if !slot.Single? { return false; }
        case Optional =>
          if f.sizeOffset != 0 {
            if !slot.Opt? { return false; }
            has := slot.has;
          } else {
            if !slot.Single? { return false; }
            var zero := CheckDefault(f, slot);
            has := !zero;
          }
        case Repeated =>
          if !slot.Rep? { return false; }
          ok := EncodeArray(f, slot.items);
          return;
        case OneOf =>
          if !slot.One? { return false; }
          has := slot.which == f.tag;
      }
      if has {
        ok := EncodeTagged(f, slot.v);
      } else {
        ok := true;
      }
    }

    /** pb_encode_tag_for_field and then the field's encoder */
    method EncodeTagged(f: Field, v: Value) returns (ok: bool)
      requires Valid() && WalkableField(f) && StorableValue(f, v)
      modifies this, dest
      ensures Valid() && Emits(old(View()), Cat(Some(EncTag(f.tag, WireType(f.ltype))), EncValue(f, v)), View(), ok)
      decreases f, 1
    {
      hide EncValue, StorableValue, Emits, EncTag, Cat;
      ghost var s0, tag := View(), Some(EncTag(f.tag, WireType(f.ltype)));
      ok := EncodeTag(WireType(f.ltype), f.tag);
      ghost var s1 := View();
      if !ok {
        EmitsFailed(s0, tag, s1, EncValue(f, v));
        return;
      }
      ok := EncodeValue(f, v);
      EmitsThen(s0, tag, s1, EncValue(f, v), View(), ok);
    }

    /** pb_check_proto3_default_value: a walk of its own over a submessage */
    static method CheckDefault(f: Field, slot: Slot) returns (zero: bool)
      requires WalkableField(f)
      ensures zero == IsDefault(f, slot)
      decreases f, 0
    {
      match (f.htype, slot)
      case (Required, _) => zero := false;
      case (Repeated, Rep(items)) => zero := items == [];
      case (OneOf, One(which, _)) => zero := which == 0;
      case (Optional, Opt(has, _)) => zero := !has;
      case (Optional, Single(v)) =>
        match (f.ltype, v) {
          case (Bytes, Data(b)) => zero := b == [];
          case (String, Data(b)) => zero := b == [];
          case (FixedLengthBytes, _) => zero := f.dataSize == 0;
          case (Submessage(sub), Msg(m)) => zero := CheckAllDefault(sub, m);
          case (_, Int(i)) => zero := i == 0;
          case _ => zero := false;
        }
      case _ => zero := false;
    }

    static method CheckAllDefault(fields: seq<Field>, st: Struct) returns (zero: bool)
      requires Walkable(fields)
      ensures zero == AllDefault(fields, st, 0)
      decreases fields, 1
    {
      hide IsDefault;
      var iter := new FieldIter(fields, 0);
      var more := iter.Begin();
      while more
        invariant iter.fields == fields && iter.dest == 0 && iter.At(iter.pos)
        invariant if more then iter.pos < |fields| && AllDefault(fields, st, 0) == AllDefault(fields, st, iter.pos) else AllDefault(fields, st, 0)
        decreases more, |fields| - iter.pos
      {
        if iter.pData !in st {
          return false;
        }
        var default := CheckDefault(fields[iter.pos], st[iter.pData]);
        if !default {
          return false;
        }
        more := iter.Next();
      }
      return true;
    }

    /** encode_array */
    method EncodeArray(f: Field, items: seq<Value>) returns (ok: bool)
      requires Valid() && WalkableField(f) && StorableSlot(f, Rep(items))
      modifies this, dest
      ensures Valid() && Emits(old(View()), EncArray(f, items), View(), ok)
      decreases f, 2
    {
      hide Emits, EncItems, EncTag, Delimited, WalkableField, StorableValue;
      EmitsNothing(View());
      EmitsGivesUp(View(), Some([]), View());
      if |items| == 0 {
        return true;
      }
      if |items| > f.arraySize {
        return false;
      }
      if f.ltype.Packable() {
        ok := EncodePacked(f, items);
      } else {
        ok := EncodeItems(f, true, items);
      }
    }

    /** The packed form: the size is computed before the data is written. */
    method EncodePacked(f: Field, items: seq<Value>) returns (ok: bool)
      requires Valid() && WalkableField(f) && StorableItems(f, items) && f.ltype.Packable()
      modifies this, dest
      ensures Valid() && Emits(old(View()), EncPacked(f.tag, EncItems(f, [], items)), View(), ok)
      decreases f, 1, |items| + 1
    {
      hide Emits, EncItems, EncTag, Walkable, StorableValue, EncPacked;
      ghost var s0, tag, e := View(), Some(EncTag(f.tag, WT_STRING)), EncItems(f, [], items);
      EncPackedParts(f.tag, e);
      ok := EncodeTag(WT_STRING, f.tag);
      ghost var s1 := View();
      if !ok {
        EmitsFailed(s0, tag, s1, EncDelimited(e));
        return;
      }
      var size;
      if f.ltype.Fixed32? || f.ltype.Fixed64? {
        FixedItemsSize(f, items);
        size := (if f.ltype.Fixed32? then 4 else 8) * |items|;
      } else {
        var sizes := new OStream.Sizing();
        ok := sizes.EncodeItems(f, false, items);
        EmitsSizing(e, sizes.View(), ok);
        if !ok {
          EmitsGivesUp(s0, tag, s1);
          return;
        }
        size := sizes.bytesWritten;
      }
      ok := EncodeVarint(size);
      ghost var s2 := View();
      EmitsThen(s0, tag, s1, Some(EncVarint(size)), s2, ok);
      if !ok {
        EmitsFailed(s0, Cat(tag, Some(EncVarint(size))), s2, e);
        return;
      }
      if !writes {
        ok := Count(size, e.value);
      } else {
        ok := EncodeItems(f, false, items);
      }
      EmitsThen(s0, Cat(tag, Some(EncVarint(size))), s2, e, View(), ok);
    }

    /** The entry loops of encode_array: with a tag before each entry, or packed. */
    method EncodeItems(f: Field, tagged: bool, items: seq<Value>) returns (ok: bool)
      requires Valid() && WalkableField(f) && forall i :: 0 <= i < |items| ==> StorableValue(f, items[i])
      modifies this, dest
      ensures Valid()
      ensures Emits(old(View()), EncItems(f, if tagged then EncTag(f.tag, WireType(f.ltype)) else [], items), View(), ok)
      decreases f, 1, |items|
    {
      hide Emits, EncItems, EncValue, Cat, EncTag, Walkable, StorableValue;
      ghost var s0, prefix := View(), if tagged then EncTag(f.tag, WireType(f.ltype)) else [];
      ghost var done: Option<seq<byte>> := Some([]);
      EmitsNothing(View());
      EncItemsStep(f, prefix, items, 0);
      for i := 0 to |items|
        invariant Valid() && Emits(s0, done, View(), true)
        invariant EncItems(f, prefix, items) == Cat(done, EncItems(f, prefix, items[i..]))
      {
        EncItemsStep(f, prefix, items, i);
        ghost var s1, e, rest := View(), EncValue(f, items[i]), EncItems(f, prefix, items[i + 1..]);
        CatAssoc(done, Some(prefix), Cat(e, rest));
        CatAssoc(Cat(done, Some(prefix)), e, rest);
        if tagged {
          ok := EncodeTag(WireType(f.ltype), f.tag);
          EmitsThen(s0, done, s1, Some(prefix), View(), ok);
          if !ok {
            EmitsFailed(s0, Cat(done, Some(prefix)), View(), Cat(e, rest));
            return;
          }
        } else {
          CatNothing(done);
        }
        ghost var s2 := View();
        ok := EncodeValue(f, items[i]);
        EmitsThen(s0, Cat(done, Some(prefix)), s2, e, View(), ok);
        if !ok {
          EmitsFailed(s0, Cat(Cat(done, Some(prefix)), e), View(), rest);
          return;
        }
        done := Cat(Cat(done, Some(prefix)), e);
      }
      EncItemsStep(f, prefix, items, |items|);
      CatNothing(done);
      return true;
    }

    /** pb_encode_submessage */
    method EncodeSubmessage(fields: seq<Field>, st: Struct) returns (ok: bool)
      requires Valid() && Walkable(fields) && Storable(fields, st)
      modifies this, dest
      ensures Valid() && Emits(old(View()), EncDelimited(EncMessage(fields, st)), View(), ok)
      decreases fields, 7
    {
      hide Emits, EncMessage, EncVarint, UnionSizesAgree, WalkableField, StorableSlot;
      ghost var s0, e := View(), EncMessage(fields, st);
      EmitsNothing(s0);
      EmitsGivesUp(s0, Some([]), s0);
      var sizes := new OStream.Sizing();
      ok := sizes.PbEncode(fields, st);
      EmitsSizing(e, sizes.View(), ok);
      if !ok {
        return;
      }
      var size := sizes.bytesWritten;
      ok := EncodeVarint(size);
      ghost var s1 := View();
      if !ok {
        EmitsFailed(s0, Some(EncVarint(size)), s1, e);
        return;
      }
      if !writes {
        ok := Count(size, e.value);
      } else {
        ok := EncodeSized(fields, st, size);
      }
      EmitsThen(s0, Some(EncVarint(size)), s1, e, View(), ok);
    }

    /** The second pass of pb_encode_submessage, through a substream limited to `size` bytes. */
    method EncodeSized(fields: seq<Field>, st: Struct, size: nat) returns (ok: bool)
      requires Valid() && writes && Walkable(fields) && Storable(fields, st)
      requires EncMessage(fields, st).Some? && size == |EncMessage(fields, st).value|
      modifies this, dest
      ensures Valid() && Emits(old(View()), EncMessage(fields, st), View(), ok)
      decreases fields, 6
    {
      hide EncMessage, Walkable, Storable;
      if bytesWritten + size > maxSize {
        return false;
      }
      ghost var end, beyond := state + maxSize - bytesWritten, dest[state + maxSize - bytesWritten..];
      var substream := new OStream.OnBuffer(dest, state, size);
      ghost var room := dest[state + size..];
      assert beyond == room[end - state - size..];
      ok := substream.PbEncode(fields, st);
      bytesWritten := bytesWritten + substream.bytesWritten;
      state := substream.state;
      if substream.bytesWritten != size {
        assert false;                   // "submsg size changed" never fires
      }
      assert beyond == dest[end..];
    }

    /** The field encoders pb_enc_* */
    method EncodeValue(f: Field, v: Value) returns (ok: bool)
      requires Valid() && WalkableField(f) && StorableValue(f, v)
      modifies this, dest
      ensures Valid() && Emits(old(View()), EncValue(f, v), View(), ok)
      decreases f, 0
    {
      hide Emits, EncMessage, EncVarint, EncFixed, Walkable, Storable, ZigZag;
      EmitsNothing(View());
      EmitsGivesUp(View(), Some([]), View());
      match (f.ltype, v)
      case (Varint, Int(i)) =>
        if !FitsSigned(i, f.dataSize) { return false; }
        ok := EncodeVarint(i % TWO_64);                // the cast to uint64_t
      case (Uvarint, Int(i)) =>
        if !FitsUnsigned(i, f.dataSize) { return false; }
        ok := EncodeVarint(i);
      case (Svarint, Int(i)) =>
        if !FitsSigned(i, f.dataSize) { return false; }
        ok := EncodeSvarint(i);
      case (Fixed32, Int(i)) => ok := EncodeFixed(i, 4);
      case (Fixed64, Int(i)) => ok := EncodeFixed(i, 8);
      case (Bytes, Data(b)) =>
        if |b| + BYTES_HEADER > f.dataSize { return false; }
        ok := EncodeString(b);
      case (String, Data(b)) =>
        if !IsCString(b, f.dataSize) { return false; }
        var size := 0;
        while size < f.dataSize && size < |b| && b[size] != 0
          invariant size <= |b|
        {
          size := size + 1;
        }
        assert b[..size] == b;
        ok := EncodeString(b[..size]);
      case (FixedLengthBytes, Data(b)) =>
        if |b| != f.dataSize { return false; }
        ok := EncodeString(b);
      case (Submessage(sub), Msg(m)) => ok := EncodeSubmessage(sub, m);
      case _ => ok := false;
    }
  }

  /** pb_get_encoded_size */
  method GetEncodedSize(fields: seq<Field>, st: Struct) returns (size: Option<nat>)
    requires Walkable(fields) && Storable(fields, st)
    ensures size == match EncMessage(fields, st) case None => None case Some(e) => Some(|e|)
  {
    hide Walkable, Storable, EncMessage;
    var stream := new OStream.Sizing();
    var ok := stream.PbEncode(fields, st);
    EmitsSizing(EncMessage(fields, st), stream.View(), ok);
    size := if ok then Some(stream.bytesWritten) else None;
  }

  /** Sizing equals writing: encoding into the first `n` bytes of a buffer succeeds exactly when the sizing
      pass does with at most `n`, and then it writes that many bytes, which are the message. */
  method EncodeIntoBuffer(buf: array<byte>, n: nat, fields: seq<Field>, st: Struct) returns (ok: bool, size: Option<nat>, written: nat)
    requires n <= buf.Length && Walkable(fields) && Storable(fields, st)
    modifies buf
    ensures ok == (size.Some? && size.value <= n)
    ensures ok ==> written == size.value && EncMessage(fields, st) == Some(buf[..written])
    ensures buf[n..] == old(buf[n..])
  {
    hide Walkable, Storable, EncMessage;
    size := GetEncodedSize(fields, st);
    var stream := new OStream.OnBuffer(buf, 0, n);
    ok := stream.PbEncode(fields, st);
    written := stream.bytesWritten;
    if ok { assert buf[..0] + EncMessage(fields, st).value == EncMessage(fields, st).value; }
  }
}
