/** Decoding an encoded message restores everything its has-flags, counts and which-tags make visible. */
module PbRoundTrip {
  import opened Bits
  import opened Common
  import opened PbVarint
  import opened PbDescriptor
  import opened PbCodec

  // ---------------------------------------------------------------- well-formed descriptors and structs

  const MAX_TAG: int := 0x2000_0000     // a field number has 29 bits on the wire

  predicate WfField(f: Field)
    decreases f
  {
    && 0 < f.tag < MAX_TAG
    && f.dataSize <= PB_SIZE_MAX
    && (f.htype.Repeated? || f.htype.OneOf? ==> f.sizeOffset != 0)
    && (f.ltype.Varint? || f.ltype.Uvarint? || f.ltype.Svarint? ==> IntSize(f.dataSize))
    && (f.htype.Optional? && f.sizeOffset == 0 && !f.ltype.Submessage? ==> IsZero(f, f.dflt))
    && (f.ltype.Submessage? ==> WfFields(f.ltype.fields))
  }

  /** Tags are distinct and only the members of a union share an offset. */
  predicate WfFields(fields: seq<Field>)
    decreases fields
  {
    && DistinctTags(fields)
    && NoOverlap(fields)
    && forall i :: 0 <= i < |fields| ==> WfField(fields[i])
  }

  predicate NoOverlap(fields: seq<Field>)
  {
    forall i, j :: 0 <= i < j < |fields| && Offset(fields, i) == Offset(fields, j) ==>
      fields[i].htype.OneOf? && fields[j].htype.OneOf?
  }

  /** A length prefix is read back as 32 bits. */
  predicate ReadableLength(e: Option<seq<byte>>) { e.Some? ==> |e.value| < TWO_32 }

  /** A value that C can hold in the field. A string leaves room for its terminator. */
  predicate ValueOk(f: Field, v: Value)
    decreases f, 0
  {
    match (f.ltype, v)
    case (Varint, Int(i)) => FitsSigned(i, f.dataSize)
    case (Uvarint, Int(i)) => FitsUnsigned(i, f.dataSize)
    case (Svarint, Int(i)) => FitsSigned(i, f.dataSize)
    case (Fixed32, Int(i)) => 0 <= i < TWO_32
    case (Fixed64, Int(i)) => 0 <= i < TWO_64
    case (Bytes, Data(b)) => |b| + BYTES_HEADER <= f.dataSize
    case (String, Data(b)) => IsCString(b, f.dataSize) && |b| < f.dataSize
    case (FixedLengthBytes, Data(b)) => |b| == f.dataSize
    case (Submessage(sub), Msg(m)) => StructOk(sub, m) && ReadableLength(EncMessage(sub, m))
    case _ => false
  }

  /** A slot that C can hold; what stands behind a has flag or a which-tag that is not set does not matter. */
  predicate SlotOk(f: Field, slot: Slot)
    decreases f, 1
  {
    match f.htype
    case Required => slot.Single? && ValueOk(f, slot.v)
    case Optional => if f.sizeOffset != 0 then slot.Opt? && (slot.has ==> ValueOk(f, slot.v)) else slot.Single? && ValueOk(f, slot.v)
    case Repeated =>
      && slot.Rep? && |slot.items| <= f.arraySize
      && (f.ltype.Packable() ==> ReadableLength(EncItems(f, [], slot.items)))
      && forall k :: 0 <= k < |slot.items| ==> ValueOk(f, slot.items[k])
    case OneOf => slot.One? && (slot.which == f.tag ==> ValueOk(f, slot.v))
  }

  /** The which-tag of a union is 0 or names one of its members. */
  predicate WhichOk(fields: seq<Field>, off: int, which: nat)
  {
    which == 0 || (FindField(fields, which).Some? && Offset(fields, FindField(fields, which).value) == off)
  }

  predicate StructOk(fields: seq<Field>, st: Struct)
    decreases fields, 2
  {
    forall i :: 0 <= i < |fields| ==>
      && Offset(fields, i) in st
      && SlotOk(fields[i], st[Offset(fields, i)])
      && (fields[i].htype.OneOf? ==> WhichOk(fields, Offset(fields, i), st[Offset(fields, i)].which))
  }

  // ---------------------------------------------------------------- what a reader of the struct can see

  predicate SameValue(f: Field, v: Value, w: Value)
    decreases f, 0
  {
    if f.ltype.Submessage? then v.Msg? && w.Msg? && Same(f.ltype.fields, v.m, w.m) else v == w
  }

  predicate SameSlot(f: Field, a: Slot, b: Slot)
    decreases f, 1
  {
    match (a, b)
    case (Single(v), Single(w)) => SameValue(f, v, w)
    case (Opt(h, v), Opt(k, w)) => h == k && (h ==> SameValue(f, v, w))
    case (Rep(xs), Rep(ys)) => |xs| == |ys| && forall k :: 0 <= k < |xs| ==> SameValue(f, xs[k], ys[k])
    case (One(p, v), One(q, w)) => p == q && (p == f.tag ==> SameValue(f, v, w))
    case _ => false
  }

  /** Equal has-flags, counts and which-tags, and equal data wherever those say there is data. */
  predicate Same(fields: seq<Field>, a: Struct, b: Struct)
    decreases fields, 2
  {
    forall i :: 0 <= i < |fields| ==>
      && Offset(fields, i) in a && Offset(fields, i) in b
      && SameSlot(fields[i], a[Offset(fields, i)], b[Offset(fields, i)])
  }

  // ---------------------------------------------------------------- freshly initialised structs

  predicate FreshValue(f: Field, v: Value)
    decreases f, 0
  {
    if f.ltype.Submessage? then v.Msg? && Fresh(f.ltype.fields, v.m) else v == f.dflt
  }

  predicate FreshSlot(f: Field, slot: Slot)
    decreases f, 1
  {
    match f.htype
    case Required => slot.Single? && FreshValue(f, slot.v)
    case Optional => if f.sizeOffset != 0 then slot.Opt? && !slot.has && FreshValue(f, slot.v) else slot.Single? && FreshValue(f, slot.v)
    case Repeated => slot == Rep([])
    case OneOf => slot.One? && slot.which == 0
  }

  predicate Fresh(fields: seq<Field>, st: Struct)
    decreases fields, 2
  {
    forall i :: 0 <= i < |fields| ==> Offset(fields, i) in st && FreshSlot(fields[i], st[Offset(fields, i)])
  }

  /** pb_message_set_to_defaults makes any struct fresh. */
  lemma {:induction false} DefaultsAreFresh(fields: seq<Field>, st: Struct, n: nat)
    requires WfFields(fields) && n <= |fields|
    ensures var r := SetDefaultsUpTo(fields, st, n);
            forall i :: 0 <= i < n ==> Offset(fields, i) in r && FreshSlot(fields[i], r[Offset(fields, i)])
    decreases fields, n, 0
  {
    hide FreshSlot, DefaultSlot, WfField, SlotAt, Offset;
    if n > 0 {
      DefaultsAreFresh(fields, st, n - 1);
      var prev := SetDefaultsUpTo(fields, st, n - 1);
      var off := Offset(fields, n - 1);
      var slot := DefaultSlot(fields[n - 1], SlotAt(prev, off));
      DefaultSlotIsFresh(fields[n - 1], SlotAt(prev, off));
      forall i | 0 <= i < n - 1 && Offset(fields, i) == off ensures FreshSlot(fields[i], slot) {
        UnionDefault(fields[i], fields[n - 1], SlotAt(prev, off));
      }
    }
  }

  lemma UnionDefault(f: Field, g: Field, was: Slot)
    requires f.htype.OneOf? && g.htype.OneOf?
    ensures FreshSlot(f, DefaultSlot(g, was))
  {
  }

  lemma {:induction false} DefaultSlotIsFresh(f: Field, was: Slot)
    requires WfField(f)
    ensures FreshSlot(f, DefaultSlot(f, was))
    decreases f, 1
  {
    DefaultValueIsFresh(f, was.Content());
  }

  lemma {:induction false} DefaultValueIsFresh(f: Field, was: Value)
    requires WfField(f)
    ensures FreshValue(f, DefaultValue(f, was))
    decreases f, 0
  {
    if f.ltype.Submessage? {
      DefaultsAreFresh(f.ltype.fields, if was.Msg? then was.m else map[], |f.ltype.fields|);
    }
  }

  // ---------------------------------------------------------------- what pb_encode leaves out is what a fresh struct holds

  lemma {:induction false} DefaultReadsFresh(f: Field, a: Slot, b: Slot)
    requires WfField(f) && SlotOk(f, a) && IsDefault(f, a) && FreshSlot(f, b)
    ensures SameSlot(f, a, b)
    decreases f, 1
  {
    if f.htype.Optional? && f.sizeOffset == 0 && f.ltype.Submessage? {
      AllDefaultReadsFresh(f.ltype.fields, a.v.m, b.v.m, 0);
    }
  }

  lemma {:induction false} AllDefaultReadsFresh(fields: seq<Field>, a: Struct, b: Struct, i: nat)
    requires WfFields(fields) && StructOk(fields, a) && Fresh(fields, b)
    requires i <= |fields| && AllDefault(fields, a, i)
    ensures forall j :: i <= j < |fields| ==> SameSlot(fields[j], a[Offset(fields, j)], b[Offset(fields, j)])
    decreases fields, |fields| - i
  {
    hide SameSlot, SlotOk, FreshSlot, IsDefault, WfField, Offset, WhichOk;
    if i < |fields| {
      AllDefaultReadsFresh(fields, a, b, i + 1);
      DefaultReadsFresh(fields[i], a[Offset(fields, i)], b[Offset(fields, i)]);
    }
  }

  // ---------------------------------------------------------------- keys, lengths and scalars

  lemma KeyRoundTrip(tag: nat, wt: nat, rest: seq<byte>)
    requires 0 < tag < MAX_TAG && wt < 8
    ensures EncTag(tag, wt) + rest != [] && DecTag(EncTag(tag, wt) + rest) == Ok(Tag(tag, wt), rest)
  {
    assert EncTag(tag, wt) != [];
    hide EncVarint, DecVarint32;
    Varint32RoundTrip(8 * tag + wt, rest);
  }

  lemma DelimitedRoundTrip(e: seq<byte>, rest: seq<byte>)
    requires |e| < TWO_32
    ensures DecVarint32(Delimited(e) + rest) == Ok(|e|, e + rest)
    ensures DecDelimited(Delimited(e) + rest) == Ok(e, rest)
  {
    assert Delimited(e) + rest == EncVarint(|e|) + (e + rest);
    Varint32RoundTrip(|e|, e + rest);
    assert (e + rest)[..|e|] == e && (e + rest)[|e|..] == rest;
  }

  lemma {:induction false} CStringOfNonZero(b: seq<byte>)
    requires forall k :: 0 <= k < |b| ==> b[k] != 0
    ensures CString(b) == b
  {
    if b != [] { CStringOfNonZero(b[1..]); }
  }

  lemma SignedNarrow(i: int, n: nat)
    requires FitsSigned(i, n)
    ensures 0 <= i % TWO_64 < TWO_64
    ensures (if n == 8 then ToInt64(i % TWO_64) else ToInt32(i % TWO_64)) == i
  {
    if i < 0 { assert i % TWO_64 == i + TWO_64; }
  }

  lemma IntegerRoundTrip(f: Field, v: Value, rest: seq<byte>)
    requires f.ltype.Varint? || f.ltype.Uvarint? || f.ltype.Svarint?
    requires ValueOk(f, v)
    ensures EncValue(f, v).Some? && DecInteger(f, EncValue(f, v).value + rest) == Ok(v, rest)
  {
    if f.ltype.Varint? {
      SignedNarrow(v.i, f.dataSize);
      VarintRoundTrip(v.i % TWO_64, rest);
    } else if f.ltype.Uvarint? {
      VarintRoundTrip(v.i, rest);
    } else {
      SvarintRoundTrip(v.i, rest);
      VarintRoundTrip(ZigZag(v.i), rest);
    }
  }

  lemma FixedValueRoundTrip(f: Field, v: Value, rest: seq<byte>)
    requires f.ltype.Fixed32? || f.ltype.Fixed64?
    requires ValueOk(f, v)
    ensures EncValue(f, v).Some? && DecValue(f, EncValue(f, v).value + rest, v) == Ok(v, rest)
  {
    Pow2Values();
    if f.ltype.Fixed32? { FixedRoundTrip(v.i, 4, rest); } else { FixedRoundTrip(v.i, 8, rest); }
  }

  lemma DataRoundTrip(f: Field, v: Value, rest: seq<byte>)
    requires f.ltype.Bytes? || f.ltype.String? || f.ltype.FixedLengthBytes?
    requires ValueOk(f, v) && f.dataSize <= PB_SIZE_MAX
    ensures EncValue(f, v).Some? && DecData(f, EncValue(f, v).value + rest) == Ok(v, rest)
  {
    DelimitedRoundTrip(v.bytes, rest);
    assert (v.bytes + rest)[..|v.bytes|] == v.bytes && (v.bytes + rest)[|v.bytes|..] == rest;
    if f.ltype.String? { CStringOfNonZero(v.bytes); }
    if v.bytes == [] { assert seq(0, _ => 0) == v.bytes && v.bytes + rest == rest; }
  }

  // ---------------------------------------------------------------- one value

  lemma {:induction false} ValueRoundTrip(f: Field, v: Value, cur: Value, rest: seq<byte>) returns (w: Value)
    requires WfField(f) && ValueOk(f, v) && (f.ltype.Submessage? ==> FreshValue(f, cur))
    requires EncValue(f, v).Some?
    ensures DecValue(f, EncValue(f, v).value + rest, cur) == Ok(w, rest) && SameValue(f, v, w)
    decreases f, 0
  {
    w := v;
    match f.ltype
    case Varint | Uvarint | Svarint => IntegerRoundTrip(f, v, rest);
    case Fixed32 | Fixed64 => FixedValueRoundTrip(f, v, rest);
    case Bytes | String | FixedLengthBytes => DataRoundTrip(f, v, rest);
    case Submessage(sub) =>
      var e := EncMessage(sub, v.m).value;
      DelimitedRoundTrip(e, rest);
      var m := MessageRoundTrip(sub, v.m, cur.m);
      w := Msg(m);
  }

  // ---------------------------------------------------------------- the state of a struct half way through its message

  /** Field `FindField(w)` is among the first i. */
  predicate Emitted(fields: seq<Field>, i: nat, w: nat)
  {
    FindField(fields, w).Some? && FindField(fields, w).value < i
  }

  /** What the decoder has put at field j's offset once the encodings of the first i fields are read. */
  predicate InvSlot(fields: seq<Field>, i: nat, f: Field, j: nat, a: Slot, slot: Slot)
  {
    if f.htype.OneOf? then
      && slot.One? && a.One?
      && (if Emitted(fields, i, a.which) then slot.which == a.which && (f.tag == a.which ==> SameValue(f, a.v, slot.v))
          else slot.which == 0)
    else if j < i then SameSlot(f, a, slot)
    else FreshSlot(f, slot)
  }

  predicate Inv(fields: seq<Field>, src: Struct, i: nat, st: Struct)
  {
    forall j :: 0 <= j < |fields| ==>
      && Offset(fields, j) in src && Offset(fields, j) in st
      && InvSlot(fields, i, fields[j], j, src[Offset(fields, j)], st[Offset(fields, j)])
  }

  lemma FreshInv(fields: seq<Field>, src: Struct, st: Struct)
    requires StructOk(fields, src) && Fresh(fields, st)
    ensures Inv(fields, src, 0, st)
  {
    hide SameSlot, Offset, FindField, WfField;
  }

  lemma InvDone(fields: seq<Field>, src: Struct, st: Struct)
    requires WfFields(fields) && StructOk(fields, src) && Inv(fields, src, |fields|, st)
    ensures Same(fields, src, st)
  {
    hide Offset, FreshSlot;
    forall j | 0 <= j < |fields| ensures SameSlot(fields[j], src[Offset(fields, j)], st[Offset(fields, j)]) {
      var a, slot := src[Offset(fields, j)], st[Offset(fields, j)];
      assert SlotOk(fields[j], a) && InvSlot(fields, |fields|, fields[j], j, a, slot) && WfField(fields[j]);
    }
  }

  /** Field i wrote nothing: its slot is still fresh, and that is what the source shows. */
  predicate Silent(f: Field, a: Slot)
  {
    match f.htype
    case Required => false
    case Optional => if f.sizeOffset != 0 then a.Opt? && !a.has else IsDefault(f, a)
    case Repeated => a == Rep([])
    case OneOf => a.One? && a.which != f.tag
  }

  lemma SilentReadsFresh(f: Field, a: Slot, slot: Slot)
    requires WfField(f) && SlotOk(f, a) && Silent(f, a) && FreshSlot(f, slot) && !f.htype.OneOf?
    ensures SameSlot(f, a, slot)
  {
    if f.htype.Optional? && f.sizeOffset == 0 { DefaultReadsFresh(f, a, slot); }
  }

  lemma WfTag(fields: seq<Field>, i: nat)
    requires WfFields(fields) && i < |fields|
    ensures WfField(fields[i]) && 0 < fields[i].tag < MAX_TAG
  {
    hide Offset;
  }

  lemma EmittedNext(fields: seq<Field>, i: nat, w: nat)
    requires i < |fields| && DistinctTags(fields)
    ensures Emitted(fields, i + 1, w) <==> Emitted(fields, i, w) || w == fields[i].tag
  {
    FindUnique(fields, i);
  }

  lemma InvSkip(fields: seq<Field>, src: Struct, i: nat, st: Struct)
    requires WfFields(fields) && StructOk(fields, src) && i < |fields| && Inv(fields, src, i, st)
    requires Silent(fields[i], src[Offset(fields, i)])
    ensures Inv(fields, src, i + 1, st)
  {
    hide Offset, SameSlot, FreshSlot, FindField, WfField;
    forall j | 0 <= j < |fields|
      ensures InvSlot(fields, i + 1, fields[j], j, src[Offset(fields, j)], st[Offset(fields, j)])
    {
      var a, slot := src[Offset(fields, j)], st[Offset(fields, j)];
      assert InvSlot(fields, i, fields[j], j, a, slot);
      assert WfField(fields[i]) && fields[i].tag > 0 by { WfTag(fields, i); }
      if fields[j].htype.OneOf? {
        if Offset(fields, i) == Offset(fields, j) { assert i != j ==> fields[i].htype.OneOf?; }
        UnionSkip(fields, i, Offset(fields, j), a.which);
      } else if j == i {
        SilentReadsFresh(fields[i], a, slot);
      }
    }
  }

  /** A silent field, or a field elsewhere, does not change whether the union at `off` has been written. */
  lemma UnionSkip(fields: seq<Field>, i: nat, off: int, w: nat)
    requires DistinctTags(fields) && i < |fields| && fields[i].tag > 0 && WhichOk(fields, off, w)
    requires Offset(fields, i) != off || w != fields[i].tag
    ensures Emitted(fields, i + 1, w) <==> Emitted(fields, i, w)
  {
    hide Offset;
    EmittedNext(fields, i, w);
    FindUnique(fields, i);
  }

  /** Field i was written as `slot`, which shows what the source shows. */
  lemma InvStore(fields: seq<Field>, src: Struct, i: nat, st: Struct, slot: Slot)
    requires WfFields(fields) && StructOk(fields, src) && i < |fields| && Inv(fields, src, i, st)
    requires SameSlot(fields[i], src[Offset(fields, i)], slot)
    requires fields[i].htype.OneOf? ==> src[Offset(fields, i)].which == fields[i].tag
    ensures Inv(fields, src, i + 1, st[Offset(fields, i) := slot])
  {
    hide Offset, FreshSlot, FindField, WfField;
    var st' := st[Offset(fields, i) := slot];
    forall j | 0 <= j < |fields|
      ensures InvSlot(fields, i + 1, fields[j], j, src[Offset(fields, j)], st'[Offset(fields, j)])
    {
      assert InvSlot(fields, i, fields[j], j, src[Offset(fields, j)], st[Offset(fields, j)]);
      if Offset(fields, j) == Offset(fields, i) {
        if j != i { assert fields[i].htype.OneOf? && fields[j].htype.OneOf?; }
        EmittedNext(fields, i, fields[i].tag);
        assert fields[j].tag == fields[i].tag ==> j == i;
      } else if fields[j].htype.OneOf? {
        WfTag(fields, i);
        UnionSkip(fields, i, Offset(fields, j), src[Offset(fields, j)].which);
      }
    }
  }

  // ---------------------------------------------------------------- one field

  /** One turn of the pb_decode_noinit loop on the key of field i. */
  lemma LoopStep(fields: seq<Field>, i: nat, wt: nat, x: seq<byte>, d: Decoded, slot: Slot, rest: seq<byte>)
    requires DistinctTags(fields) && i < |fields| && 0 < fields[i].tag < MAX_TAG && wt < 8
    requires Offset(fields, i) in d.st
    requires DecField(fields, fields[i], wt, x, d.st[Offset(fields, i)]) == Ok(slot, rest)
    ensures DecLoop(fields, EncTag(fields[i].tag, wt) + x, d) == DecLoop(fields, rest, Store(fields, i, slot, d))
  {
    hide DecField, DecTag, EncTag, Offset, FindField, SkipField;
    KeyRoundTrip(fields[i].tag, wt, x);
    FindUnique(fields, i);
  }

  /** Pointwise SameValue. */
  predicate SameItems(f: Field, xs: seq<Value>, ys: seq<Value>)
  {
    |xs| == |ys| && forall k :: 0 <= k < |xs| ==> SameValue(f, xs[k], ys[k])
  }

  predicate ItemsOk(f: Field, items: seq<Value>)
  {
    forall k :: 0 <= k < |items| ==> ValueOk(f, items[k])
  }

  lemma {:induction false} PackedRoundTrip(f: Field, items: seq<Value>, done: seq<Value>)
    requires WfField(f) && f.ltype.Packable() && ItemsOk(f, items) && |done| + |items| <= f.arraySize
    requires EncItems(f, [], items).Some?
    ensures DecPacked(f, EncItems(f, [], items).value, done) == Ok(done + items, [])
    decreases |items|
  {
    if items == [] {
      assert done + items == done;
    } else {
      var e, tail := EncValue(f, items[0]).value, EncItems(f, [], items[1..]).value;
      assert EncItems(f, [], items).value == e + tail;
      ScalarRoundTrip(f, items[0], f.dflt, tail);
      PackedRoundTrip(f, items[1..], done + [items[0]]);
      assert done + [items[0]] + items[1..] == done + items;
    }
  }

  lemma ScalarRoundTrip(f: Field, v: Value, cur: Value, rest: seq<byte>)
    requires WfField(f) && f.ltype.Packable() && ValueOk(f, v)
    ensures EncValue(f, v).Some? && EncValue(f, v).value != [] && DecValue(f, EncValue(f, v).value + rest, cur) == Ok(v, rest)
  {
    if f.ltype.Fixed32? || f.ltype.Fixed64? { FixedValueRoundTrip(f, v, rest); } else { IntegerRoundTrip(f, v, rest); }
  }

  /** A packed array is read by one turn of the loop. */
  lemma PackedStep(fields: seq<Field>, i: nat, items: seq<Value>, d: Decoded, x: seq<byte>)
    requires WfFields(fields) && i < |fields|
    requires var f := fields[i]; f.htype.Repeated? && f.ltype.Packable() && ItemsOk(f, items) && 0 < |items| <= f.arraySize
    requires Offset(fields, i) in d.st && d.st[Offset(fields, i)] == Rep([])
    requires EncArray(fields[i], items).Some? && (fields[i].ltype.Packable() ==> ReadableLength(EncItems(fields[i], [], items)))
    ensures DecLoop(fields, EncArray(fields[i], items).value + x, d) == DecLoop(fields, x, Store(fields, i, Rep(items), d))
  {
    hide DecLoop, DecPacked, EncItems, Offset, EncTag;
    var f := fields[i];
    WfTag(fields, i);
    var e := EncItems(f, [], items).value;
    var y := Delimited(e) + x;
    PackedRoundTrip(f, items, []);
    assert [] + items == items;
    DelimitedRoundTrip(e, x);
    assert EncArray(f, items).value + x == EncTag(f.tag, WT_STRING) + y;
    LoopStep(fields, i, WT_STRING, y, d, Rep(items), x);
  }

  /** An unpacked array takes one turn of the loop for each entry. */
  lemma {:induction false} ItemsStep(fields: seq<Field>, i: nat, items: seq<Value>, d: Decoded, x: seq<byte>)
    returns (got: seq<Value>)
    requires WfFields(fields) && i < |fields| && fields[i].htype.Repeated? && !fields[i].ltype.Packable()
    requires ItemsOk(fields[i], items)
    requires Offset(fields, i) in d.st && d.st[Offset(fields, i)].Rep?
    requires |d.st[Offset(fields, i)].items| + |items| <= fields[i].arraySize
    requires EncItems(fields[i], EncTag(fields[i].tag, WT_STRING), items).Some?
    ensures SameItems(fields[i], items, got)
    ensures DecLoop(fields, EncItems(fields[i], EncTag(fields[i].tag, WT_STRING), items).value + x, d)
         == DecLoop(fields, x, Store(fields, i, Rep(d.st[Offset(fields, i)].items + got), d))
    decreases fields[i], 2, |items|
  {
    hide DecLoop, Offset, EncTag, ValueOk, EncValue, DecValue, SameValue, DefaultValue, FreshValue;
    var f, off := fields[i], Offset(fields, i);
    var prefix := EncTag(f.tag, WT_STRING);
    var done := d.st[off].items;
    WfTag(fields, i);
    if items == [] {
      got := [];
      assert done + got == done && d.st[off := Rep(done)] == d.st;
      assert Store(fields, i, Rep(done), d) == d;
      assert [] + x == x;
    } else {
      var e, tail := EncValue(f, items[0]).value, EncItems(f, prefix, items[1..]).value;
      assert EncItems(f, prefix, items).value == prefix + e + tail;
      DefaultValueIsFresh(f, Int(0));
      var w := ValueRoundTrip(f, items[0], DefaultValue(f, Int(0)), tail + x);
      assert prefix + e + tail + x == prefix + (e + (tail + x));
      LoopStep(fields, i, WT_STRING, e + (tail + x), d, Rep(done + [w]), tail + x);
      var d' := Store(fields, i, Rep(done + [w]), d);
      var more := ItemsStep(fields, i, items[1..], d', x);
      got := [w] + more;
      assert done + [w] + more == done + got;
      assert d'.st[off := Rep(done + got)] == d.st[off := Rep(done + got)];
    }
  }

  lemma WireTypeRange(lt: LType)
    ensures WireType(lt) < 8
  {
  }

  /** A written required, optional or union field is read back by one turn of the loop. */
  lemma {:induction false} SingleStep(fields: seq<Field>, i: nat, a: Slot, d: Decoded, x: seq<byte>) returns (slot: Slot)
    requires WfFields(fields) && i < |fields| && !fields[i].htype.Repeated?
    requires SlotOk(fields[i], a) && !Silent(fields[i], a)
    requires Offset(fields, i) in d.st && FreshSlot(fields[i], d.st[Offset(fields, i)])
    requires EncField(fields[i], a).Some?
    ensures SameSlot(fields[i], a, slot)
    ensures DecLoop(fields, EncField(fields[i], a).value + x, d) == DecLoop(fields, x, Store(fields, i, slot, d))
    decreases fields[i], 3
  {
    hide DecLoop, Offset, EncTag, ValueOk, EncValue, DecValue, SameValue, DefaultValue, FreshValue, WireType;
    var f := fields[i];
    WfTag(fields, i);
    WireTypeRange(f.ltype);
    var cur := d.st[Offset(fields, i)];
    var e := EncValue(f, a.v).value;
    var at := if f.htype.OneOf? && f.ltype.Submessage? then DefaultValue(f, Int(0)) else cur.v;
    if f.ltype.Submessage? { DefaultValueIsFresh(f, Int(0)); }
    assert f.ltype.Submessage? ==> FreshValue(f, at);
    var w := ValueRoundTrip(f, a.v, at, x);
    slot := if f.htype.OneOf? then One(f.tag, w) else if f.htype.Optional? && f.sizeOffset != 0 then Opt(true, w) else Single(w);
    assert EncField(f, a).value + x == EncTag(f.tag, WireType(f.ltype)) + (e + x);
    LoopStep(fields, i, WireType(f.ltype), e + x, d, slot, x);
  }

  /** Reading back the whole encoding of field i, written or not. */
  lemma {:induction false} FieldStep(fields: seq<Field>, src: Struct, i: nat, d: Decoded, x: seq<byte>) returns (d': Decoded)
    requires WfFields(fields) && StructOk(fields, src) && i < |fields| && Inv(fields, src, i, d.st)
    requires EncField(fields[i], src[Offset(fields, i)]).Some?
    ensures DecLoop(fields, EncField(fields[i], src[Offset(fields, i)]).value + x, d) == DecLoop(fields, x, d')
    ensures Inv(fields, src, i + 1, d'.st)
    ensures d.seen <= d'.seen <= d.seen + {i} && (fields[i].htype.Required? ==> i in d'.seen)
    ensures forall off :: off in d.st && off != Offset(fields, i) ==> off in d'.st && d'.st[off] == d.st[off]
    decreases fields[i], 4
  {
    hide DecLoop, Offset, SameValue, ValueOk, EncValue, IsDefault, WfField, FreshValue, Emitted, FindField;
    var f, a := fields[i], src[Offset(fields, i)];
    assert InvSlot(fields, i, f, i, a, d.st[Offset(fields, i)]) && SlotOk(f, a);
    NotYetWritten(fields, i, a, d.st[Offset(fields, i)]);
    if Silent(f, a) {
      assert [] + x == x;
      d' := d;
      InvSkip(fields, src, i, d.st);
    } else if f.htype.Repeated? {
      d' := ArrayStep(fields, i, a.items, d, x);
      InvStore(fields, src, i, d.st, d'.st[Offset(fields, i)]);
    } else {
      var slot := SingleStep(fields, i, a, d, x);
      d' := Store(fields, i, slot, d);
      InvStore(fields, src, i, d.st, slot);
    }
  }

  lemma NotYetWritten(fields: seq<Field>, i: nat, a: Slot, slot: Slot)
    requires DistinctTags(fields) && i < |fields| && InvSlot(fields, i, fields[i], i, a, slot)
    requires fields[i].htype.OneOf? ==> Silent(fields[i], a) || a.which == fields[i].tag
    ensures Silent(fields[i], a) || FreshSlot(fields[i], slot)
  {
    hide SameSlot, SameValue, FreshValue, IsDefault;
    FindUnique(fields, i);
  }

  lemma {:induction false} ArrayStep(fields: seq<Field>, i: nat, items: seq<Value>, d: Decoded, x: seq<byte>) returns (d': Decoded)
    requires WfFields(fields) && i < |fields| && fields[i].htype.Repeated?
    requires ItemsOk(fields[i], items) && 0 < |items| <= fields[i].arraySize
    requires Offset(fields, i) in d.st && d.st[Offset(fields, i)] == Rep([])
    requires EncArray(fields[i], items).Some? && (fields[i].ltype.Packable() ==> ReadableLength(EncItems(fields[i], [], items)))
    ensures exists got :: SameItems(fields[i], items, got) && d' == Store(fields, i, Rep(got), d)
    ensures DecLoop(fields, EncArray(fields[i], items).value + x, d) == DecLoop(fields, x, d')
    decreases fields[i], 3
  {
    hide DecLoop, Offset, ValueOk, EncValue, EncTag;
    if fields[i].ltype.Packable() {
      PackedStep(fields, i, items, d, x);
      assert SameItems(fields[i], items, items);
      d' := Store(fields, i, Rep(items), d);
    } else {
      var got := ItemsStep(fields, i, items, d, x);
      assert [] + got == got;
      d' := Store(fields, i, Rep(got), d);
    }
  }

  // ---------------------------------------------------------------- the whole message

  lemma {:induction false} FromRoundTrip(fields: seq<Field>, src: Struct, i: nat, d: Decoded) returns (d': Decoded)
    requires WfFields(fields) && StructOk(fields, src) && i <= |fields| && Inv(fields, src, i, d.st)
    requires EncFrom(fields, src, i).Some?
    ensures DecLoop(fields, EncFrom(fields, src, i).value, d) == Ok(d', [])
    ensures Inv(fields, src, |fields|, d'.st)
    ensures d.seen <= d'.seen && forall j :: i <= j < |fields| && fields[j].htype.Required? ==> j in d'.seen
    decreases fields, |fields| - i
  {
    hide WfFields, StructOk, Inv, Offset, EncField;
    if i == |fields| {
      d' := d;
    } else {
      var e := EncField(fields[i], src[Offset(fields, i)]).value;
      var tail := EncFrom(fields, src, i + 1).value;
      var mid := FieldStep(fields, src, i, d, tail);
      d' := FromRoundTrip(fields, src, i + 1, mid);
    }
  }

  /** Decoding the encoding of `src` into a fresh struct. */
  lemma {:induction false} MessageRoundTrip(fields: seq<Field>, src: Struct, st: Struct) returns (r: Struct)
    requires WfFields(fields) && StructOk(fields, src) && Fresh(fields, st)
    requires EncMessage(fields, src).Some?
    ensures DecMessage(fields, EncMessage(fields, src).value, st) == Ok(r, []) && Same(fields, src, r)
    decreases fields, |fields| + 1
  {
    hide WfFields, StructOk, Inv, Fresh, Same, DecLoop, EncFrom;
    FreshInv(fields, src, st);
    var d := FromRoundTrip(fields, src, 0, Decoded(st, {}));
    r := d.st;
    InvDone(fields, src, r);
  }

  // ---------------------------------------------------------------- well-formed structs do encode

  lemma {:induction false} ValueEncodes(f: Field, v: Value)
    requires WfField(f) && ValueOk(f, v)
    ensures EncValue(f, v).Some?
    decreases f, 0
  {
    if f.ltype.Submessage? { MessageEncodes(f.ltype.fields, v.m, 0); }
  }

  lemma {:induction false} ItemsEncode(f: Field, prefix: seq<byte>, items: seq<Value>)
    requires WfField(f) && ItemsOk(f, items)
    ensures EncItems(f, prefix, items).Some?
    decreases f, 1, |items|
  {
    hide ValueOk, EncValue;
    if items != [] {
      ValueEncodes(f, items[0]);
      ItemsEncode(f, prefix, items[1..]);
    }
  }

  lemma {:induction false} FieldEncodes(f: Field, a: Slot)
    requires WfField(f) && SlotOk(f, a)
    ensures EncField(f, a).Some?
    decreases f, 2
  {
    hide ValueOk, EncValue, EncTag, WfField, IsDefault;
    if f.htype.Repeated? {
      ItemsEncode(f, [], a.items);
      ItemsEncode(f, EncTag(f.tag, WireType(f.ltype)), a.items);
    } else if (f.htype.OneOf? && a.which != f.tag) || (a.Opt? && !a.has) {
    } else {
      ValueEncodes(f, a.v);
    }
  }

  /** pb_encode fails on no struct that its descriptor allows. */
  lemma {:induction false} MessageEncodes(fields: seq<Field>, src: Struct, i: nat)
    requires WfFields(fields) && StructOk(fields, src) && i <= |fields|
    ensures EncFrom(fields, src, i).Some?
    decreases fields, |fields| - i
  {
    hide SlotOk, EncField, Offset;
    if i < |fields| {
      WfTag(fields, i);
      FieldEncodes(fields[i], src[Offset(fields, i)]);
      MessageEncodes(fields, src, i + 1);
    }
  }

  // ---------------------------------------------------------------- main result

  /** pb_encode then pb_decode, into any struct: the bytes are all used and every visible field is restored. */
  lemma RoundTrip(fields: seq<Field>, src: Struct, dest: Struct)
    requires WfFields(fields) && StructOk(fields, src)
    ensures EncMessage(fields, src).Some?
    ensures var d := Decode(fields, EncMessage(fields, src).value, dest);
            d.Ok? && d.rest == [] && Same(fields, src, d.value)
  {
    hide WfFields, StructOk, Same, EncFrom, DecMessage;
    MessageEncodes(fields, src, 0);
    DefaultsAreFresh(fields, dest, |fields|);
    var r := MessageRoundTrip(fields, src, SetDefaults(fields, dest));
  }

  /** A string always encodes, and is read back exactly when its array has room for the terminator. */
  lemma StringNeedsTerminator(f: Field, b: seq<byte>, cur: Value, rest: seq<byte>)
    requires f.ltype.String? && f.dataSize <= PB_SIZE_MAX && IsCString(b, f.dataSize)
    ensures EncValue(f, Data(b)).Some?
    ensures DecValue(f, EncValue(f, Data(b)).value + rest, cur) == (if |b| < f.dataSize then Ok(Data(b), rest) else Fail)
  {
    DelimitedRoundTrip(b, rest);
    if |b| < f.dataSize { DataRoundTrip(f, Data(b), rest); }
  }
}
