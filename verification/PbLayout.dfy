/** The wire format in numbers: which bytes the encoder writes, and which bytes the decoder passes over. */
module PbLayout {
  import opened Bits
  import opened Common
  import opened PbVarint
  import opened PbDescriptor
  import opened PbCodec
  import opened PbRoundTrip
  import opened PbHomomorphism

  // ---------------------------------------------------------------- varints and fixed words, byte by byte

  /** v without its lowest k groups of seven bits. */
  function Groups7(v: nat, k: nat): nat { if k == 0 then v else Groups7(v / 128, k - 1) }

  /** v without its lowest k bytes. */
  function Groups8(v: nat, k: nat): nat { if k == 0 then v else Groups8(v / 256, k - 1) }

  /** Byte k of a varint holds the k-th group of seven bits, and its top bit says whether more follow. */
  lemma {:induction false} VarintBytes(v: nat, k: nat)
    requires k < |EncVarint(v)|
    ensures EncVarint(v)[k] % 128 == Groups7(v, k) % 128
    ensures EncVarint(v)[k] >= 128 <==> k + 1 < |EncVarint(v)|
    ensures k + 1 < |EncVarint(v)| <==> Groups7(v, k) >= 128
    decreases k
  {
    if v >= 128 {
      assert EncVarint(v) == [128 + v % 128] + EncVarint(v / 128);
      if k > 0 { VarintBytes(v / 128, k - 1); }
    }
  }

  /** Byte k of a fixed word is its k-th byte, lowest first. */
  lemma {:induction false} FixedBytes(v: nat, n: nat, k: nat)
    requires k < n
    ensures EncFixed(v, n)[k] == Groups8(v, k) % 256
    decreases k
  {
    if k > 0 { FixedBytes(v / 256, n - 1, k - 1); }
  }

  // ---------------------------------------------------------------- keys

  predicate IsVarintType(lt: LType) { lt.Varint? || lt.Uvarint? || lt.Svarint? }

  /** What a single value of the field is written as: a key of eight times the tag plus 0 for the varint types, 5 for
      four-byte words, 1 for eight-byte words and 2 for everything with a length, and then the value. */
  function Keyed(f: Field, e: seq<byte>): seq<byte>
  {
    EncVarint(8 * f.tag + if IsVarintType(f.ltype) then 0 else if f.ltype.Fixed32? then 5 else if f.ltype.Fixed64? then 1 else 2) + e
  }

  lemma KeyOf(f: Field)
    ensures forall e: seq<byte> :: EncTag(f.tag, WireType(f.ltype)) + e == Keyed(f, e)
  {
  }

  lemma SingleKey(f: Field, slot: Slot)
    requires EncField(f, slot).Some? && EncField(f, slot).value != [] && !slot.Rep?
    ensures EncValue(f, slot.v).Some? && EncField(f, slot).value == Keyed(f, EncValue(f, slot.v).value)
  {
    KeyOf(f);
    hide EncValue, EncTag, WireType, IsDefault;
  }

  /** A packed array has a key of wire type 2 and the length of all its items; other arrays repeat the key. */
  lemma ArrayKey(f: Field, items: seq<Value>)
    requires items != [] && EncArray(f, items).Some?
    ensures |items| <= f.arraySize
    ensures f.ltype.Packable() ==> EncItems(f, [], items).Some?
    ensures f.ltype.Packable() ==> EncArray(f, items).value == EncVarint(8 * f.tag + 2) + Framed(EncItems(f, [], items).value)
    ensures !f.ltype.Packable() ==> EncArray(f, items) == EncItems(f, EncVarint(8 * f.tag + 2), items)
  {
    hide EncItems;
  }

  // ---------------------------------------------------------------- what is passed over

  /** The bytes of one value of the given wire type. */
  ghost predicate ValueLayout(wt: nat, body: seq<byte>)
  {
    if wt == 0 then body != [] && body[|body| - 1] < 128 && forall k :: 0 <= k < |body| - 1 ==> body[k] >= 128
    else if wt == 1 then |body| == 8
    else if wt == 5 then |body| == 4
    else wt == 2 && DelimitedLayout(body)
  }

  /** A length below 2^32 as a varint, and that many bytes. */
  ghost predicate DelimitedLayout(body: seq<byte>) { exists data: seq<byte> :: |data| < TWO_32 && body == Framed(data) }

  function Framed(data: seq<byte>): seq<byte> { EncVarint(|data|) + data }

  lemma {:induction false} SkipsVarint(body: seq<byte>, x: seq<byte>)
    requires ValueLayout(0, body)
    ensures SkipVarint(body + x) == Ok((), x)
    decreases |body|
  {
    if |body| == 1 {
      assert (body + x)[1..] == x;
    } else {
      assert body[0] >= 128 && (body + x)[1..] == body[1..] + x;
      SkipsVarint(body[1..], x);
    }
  }

  /** A value of its wire type's layout is passed over, and nothing more. */
  lemma SkipsLayout(wt: nat, body: seq<byte>, x: seq<byte>)
    requires ValueLayout(wt, body)
    ensures SkipField(wt, body + x) == Ok((), x)
  {
    if wt == 0 {
      SkipsVarint(body, x);
    } else if wt == 2 {
      var data: seq<byte> :| |data| < TWO_32 && body == Framed(data);
      DelimitedRoundTrip(data, x);
    } else {
      assert (body + x)[|body|..] == x;
    }
  }

  lemma {:induction false} SkipVarintPasses(b: seq<byte>)
    requires SkipVarint(b).Ok?
    ensures var n := |b| - |SkipVarint(b).rest|; SkipVarint(b).rest == b[n..] && ValueLayout(0, b[..n])
    decreases |b|
  {
    if b[0] >= 128 {
      SkipVarintPasses(b[1..]);
      var n := |b| - |SkipVarint(b).rest|;
      assert b[1..][..n - 1] == b[..n][1..] && b[1..][n - 1..] == b[n..];
      forall k | 0 <= k < n - 1 ensures b[..n][k] >= 128 { if k > 0 { assert b[..n][k] == b[1..][..n - 1][k - 1]; } }
      assert b[..n][n - 1] == b[1..][..n - 1][n - 2];
    }
  }

  /** And only that is: wire type 0 up to the first byte below 128, wire type 1 eight bytes, wire type 5 four, wire type 2
      a length and that many bytes; there are no other wire types. */
  lemma SkipsOnly(wt: nat, b: seq<byte>)
    requires SkipField(wt, b).Ok?
    ensures wt == 0 || wt == 1 || wt == 2 || wt == 5
    ensures var n := |b| - |SkipField(wt, b).rest|;
      && SkipField(wt, b).rest == b[n..] && (wt != 2 ==> ValueLayout(wt, b[..n]))
      && (wt == 2 ==> DecVarint32(b).Ok? && n == |b| - |DecVarint32(b).rest| + DecVarint32(b).value)
  {
    if wt == 0 { SkipVarintPasses(b); }
    if wt == 2 { LengthSuffix(b); DecVarint32Shorter(b); }
  }

  lemma {:induction false} Varint32Suffix(b: seq<byte>, bitpos: nat, acc: nat)
    requires Varint32From(b, bitpos, acc).Ok?
    ensures var r := Varint32From(b, bitpos, acc).rest; |r| <= |b| && r == b[|b| - |r|..]
    decreases |b|
  {
    if b[0] >= 128 {
      Varint32Suffix(b[1..], (bitpos + 7) % 256, if bitpos >= 32 then acc else Or(acc, Shl32(b[0] % 128, bitpos)));
    }
  }

  lemma LengthSuffix(b: seq<byte>)
    requires DecVarint32(b).Ok?
    ensures var r := DecVarint32(b).rest; |r| <= |b| && r == b[|b| - |r|..]
  {
    if b[0] >= 128 { Varint32Suffix(b[1..], 7, b[0] % 128); }
  }

  // ---------------------------------------------------------------- unknown fields, by their layout

  /** A key and a value of its wire type. */
  function FieldBytes(tag: nat, wt: nat, body: seq<byte>): seq<byte> { EncVarint(8 * tag + wt) + body }

  lemma LayoutIsUnknown(fields: seq<Field>, tag: nat, wt: nat, body: seq<byte>)
    requires 0 < tag < MAX_TAG && FindField(fields, tag).None? && ValueLayout(wt, body)
    ensures UnknownField(fields, FieldBytes(tag, wt, body))
  {
    hide ValueLayout, EncVarint, SkipField;
    assert wt < 8 by { WireTypesAre(wt, body); }
    KeyRoundTrip(tag, wt, body);
    SkipsLayout(wt, body, []);
    assert body + [] == body;
  }

  lemma WireTypesAre(wt: nat, body: seq<byte>)
    requires ValueLayout(wt, body)
    ensures wt < 8
  {
  }

  /** A field whose tag the message does not know, given by its bytes, changes nothing between two parts of it. */
  lemma UnknownBytesInserted(fields: seq<Field>, s1: seq<byte>, tag: nat, wt: nat, body: seq<byte>, s2: seq<byte>, st: Struct)
    requires DecLoop(fields, s1, Decoded(st, {})).Ok? && !MeetsZeroKey(fields, s1, Decoded(st, {}))
    requires 0 < tag < MAX_TAG && (forall i :: 0 <= i < |fields| ==> fields[i].tag != tag) && ValueLayout(wt, body)
    ensures DecMessage(fields, s1 + FieldBytes(tag, wt, body) + s2, st) == DecMessage(fields, s1 + s2, st)
  {
    LayoutIsUnknown(fields, tag, wt, body);
    hide DecLoop, MeetsZeroKey, ValueLayout, UnknownField, FieldBytes;
    UnknownInserted(fields, s1, FieldBytes(tag, wt, body), s2, st);
  }

  // ---------------------------------------------------------------- what one version writes another passes over

  function Number(lt: LType): nat { if IsVarintType(lt) then 0 else if lt.Fixed32? then 5 else if lt.Fixed64? then 1 else 2 }

  lemma VarintLayout(v: nat)
    ensures ValueLayout(0, EncVarint(v))
  {
    var e := EncVarint(v);
    forall k | 0 <= k < |e| ensures e[k] >= 128 <==> k < |e| - 1 { VarintBytes(v, k); }
  }

  /** Every value is written in the layout of its wire type. */
  lemma ValueHasLayout(f: Field, v: Value)
    requires WfField(f) && ValueOk(f, v) && EncValue(f, v).Some?
    ensures ValueLayout(Number(f.ltype), EncValue(f, v).value)
  {
    hide EncVarint, EncFixed, EncMessage, WfFields, StructOk;
    if IsVarintType(f.ltype) {
      VarintLayout(v.i % TWO_64);
      VarintLayout(if f.ltype.Uvarint? then v.i else 0);
      VarintLayout(if f.ltype.Svarint? && -TWO_63 <= v.i < TWO_63 then ZigZag(v.i) else 0);
    } else if f.ltype.Submessage? {
      assert EncValue(f, v).value == Framed(EncMessage(f.ltype.fields, v.m).value);
    } else if v.Data? {
      assert EncValue(f, v).value == Framed(v.bytes);
    }
  }

  /** One field passed over. */
  lemma BytesSkipped(fields: seq<Field>, tag: nat, wt: nat, body: seq<byte>, x: seq<byte>, d: Decoded)
    requires 0 < tag < MAX_TAG && FindField(fields, tag).None? && ValueLayout(wt, body)
    ensures DecLoop(fields, FieldBytes(tag, wt, body) + x, d) == DecLoop(fields, x, d)
  {
    LayoutIsUnknown(fields, tag, wt, body);
    hide DecLoop, ValueLayout, UnknownField, FieldBytes;
    UnknownSkipped(fields, FieldBytes(tag, wt, body), x, d);
  }

  lemma {:induction false} ItemsSkipped(fields: seq<Field>, f: Field, items: seq<Value>, x: seq<byte>, d: Decoded)
    requires WfField(f) && ItemsOk(f, items) && EncItems(f, EncTag(f.tag, WireType(f.ltype)), items).Some?
    requires FindField(fields, f.tag).None?
    ensures DecLoop(fields, EncItems(f, EncTag(f.tag, WireType(f.ltype)), items).value + x, d) == DecLoop(fields, x, d)
    decreases |items|
  {
    hide DecLoop, ValueOk, EncValue, ValueLayout, FindField, EncTag, WireType;
    var prefix := EncTag(f.tag, WireType(f.ltype));
    if items == [] {
      assert [] + x == x;
    } else {
      var e, tail := EncValue(f, items[0]).value, EncItems(f, prefix, items[1..]).value;
      ValueHasLayout(f, items[0]);
      ItemsSkipped(fields, f, items[1..], x, d);
      TagBytes(f, e);
      BytesSkipped(fields, f.tag, Number(f.ltype), e, tail + x, d);
      assert prefix + e + tail + x == (prefix + e) + (tail + x);
    }
  }

  lemma TagBytes(f: Field, e: seq<byte>)
    ensures EncTag(f.tag, WireType(f.ltype)) + e == FieldBytes(f.tag, Number(f.ltype), e)
  {
  }

  /** Forward compatibility: whatever is written for a field is passed over, whole, by every message type that does not
      have its tag. */
  lemma FieldSkipped(fields: seq<Field>, f: Field, slot: Slot, x: seq<byte>, d: Decoded)
    requires WfField(f) && SlotOk(f, slot) && EncField(f, slot).Some? && FindField(fields, f.tag).None?
    ensures DecLoop(fields, EncField(f, slot).value + x, d) == DecLoop(fields, x, d)
  {
    hide DecLoop, ValueOk, EncValue, ValueLayout, FindField, EncTag, WireType, EncItems, IsDefault;
    if EncField(f, slot).value == [] {
      assert [] + x == x;
    } else if slot.Rep? {
      ArraySkipped(fields, f, slot.items, x, d);
    } else {
      ValueHasLayout(f, slot.v);
      TagBytes(f, EncValue(f, slot.v).value);
      BytesSkipped(fields, f.tag, Number(f.ltype), EncValue(f, slot.v).value, x, d);
    }
  }

  lemma ArraySkipped(fields: seq<Field>, f: Field, items: seq<Value>, x: seq<byte>, d: Decoded)
    requires WfField(f) && items != [] && ItemsOk(f, items) && EncArray(f, items).Some? && FindField(fields, f.tag).None?
    requires f.ltype.Packable() ==> ReadableLength(EncItems(f, [], items))
    ensures DecLoop(fields, EncArray(f, items).value + x, d) == DecLoop(fields, x, d)
  {
    hide DecLoop, ValueOk, FindField, EncItems;
    ArrayKey(f, items);
    if f.ltype.Packable() {
      assert ValueLayout(2, Framed(EncItems(f, [], items).value));
      BytesSkipped(fields, f.tag, 2, Framed(EncItems(f, [], items).value), x, d);
    } else {
      ItemsSkipped(fields, f, items, x, d);
    }
  }

  /** A whole message is passed over by a message type that shares no tag with it. */
  lemma {:induction false} MessageSkipped(fields: seq<Field>, others: seq<Field>, src: Struct, i: nat, d: Decoded)
    requires WfFields(others) && StructOk(others, src) && i <= |others| && EncFrom(others, src, i).Some?
    requires forall j :: 0 <= j < |others| ==> FindField(fields, others[j].tag).None?
    ensures DecLoop(fields, EncFrom(others, src, i).value, d) == Ok(d, [])
    decreases |others| - i
  {
    hide DecLoop, EncField, Offset, FindField, SlotOk;
    if i == |others| {
      LoopEnd(fields, d);
    } else {
      WfTag(others, i);
      var tail := EncFrom(others, src, i + 1).value;
      FieldSkipped(fields, others[i], src[Offset(others, i)], tail, d);
      MessageSkipped(fields, others, src, i + 1, d);
    }
  }

  lemma LoopEnd(fields: seq<Field>, d: Decoded)
    ensures DecLoop(fields, [], d) == Ok(d, [])
  {
  }
}
