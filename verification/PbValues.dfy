/** Values in numbers: what each type of field can hold on the wire, what it writes, and what it refuses. */
module PbValues {
  import opened Bits
  import opened Common
  import opened PbVarint
  import opened PbDescriptor
  import opened PbCodec
  import opened PbRoundTrip
  import opened PbHomomorphism
  import opened PbLayout

  /** The bounds of an integer of n bytes. */
  predicate InSigned(v: int, n: nat)
  {
    || (n == 1 && -128 <= v <= 127) || (n == 2 && -32768 <= v <= 32767)
    || (n == 4 && -0x8000_0000 <= v <= 0x7fff_ffff) || (n == 8 && -0x8000_0000_0000_0000 <= v <= 0x7fff_ffff_ffff_ffff)
  }

  predicate InUnsigned(v: int, n: nat)
  {
    || (n == 1 && 0 <= v <= 255) || (n == 2 && 0 <= v <= 65535)
    || (n == 4 && 0 <= v <= 0xffff_ffff) || (n == 8 && 0 <= v <= 0xffff_ffff_ffff_ffff)
  }

  // ---------------------------------------------------------------- writing

  /** Signed integers are written if and only if they fit the field, negative ones as 64-bit two's complement. */
  lemma SignedWritten(f: Field, v: int)
    requires f.ltype.Varint?
    ensures EncValue(f, Int(v)).Some? <==> InSigned(v, f.dataSize)
    ensures InSigned(v, f.dataSize) ==> EncValue(f, Int(v)).value == EncVarint(if v >= 0 then v else v + 0x1_0000_0000_0000_0000)
  {
    hide EncVarint;
  }

  /** Unsigned integers are written as they are if and only if they fit the field. */
  lemma UnsignedWritten(f: Field, v: int)
    requires f.ltype.Uvarint?
    ensures EncValue(f, Int(v)).Some? <==> InUnsigned(v, f.dataSize)
    ensures InUnsigned(v, f.dataSize) ==> EncValue(f, Int(v)).value == EncVarint(v)
  {
    hide EncVarint;
  }

  /** The ZigZag image of an int64, in numbers. */
  lemma ZigZagIs(v: int)
    requires -TWO_63 <= v < TWO_63
    ensures ZigZag(v) == if v >= 0 then 2 * v else -2 * v - 1
  {
  }

  /** ZigZag integers are written as 2v, negative ones as -2v - 1, if and only if they fit the field. */
  lemma ZigZagWritten(f: Field, v: int)
    requires f.ltype.Svarint?
    ensures EncValue(f, Int(v)).Some? <==> InSigned(v, f.dataSize)
    ensures InSigned(v, f.dataSize) ==> EncValue(f, Int(v)).value == EncVarint(if v >= 0 then 2 * v else -2 * v - 1)
  {
    hide EncVarint, ZigZag;
    if InSigned(v, f.dataSize) { ZigZagIs(v); }
  }

  /** Words are written if and only if they are of their width, lowest byte first. */
  lemma WordWritten(f: Field, v: int)
    requires f.ltype.Fixed32? || f.ltype.Fixed64?
    ensures EncValue(f, Int(v)).Some? <==> 0 <= v <= if f.ltype.Fixed32? then 0xffff_ffff else 0xffff_ffff_ffff_ffff
    ensures EncValue(f, Int(v)).Some? ==> EncValue(f, Int(v)).value == EncFixed(v, if f.ltype.Fixed32? then 4 else 8)
  {
    hide EncFixed;
  }

  /** Data is written, with its length in front, if and only if it fits the field. */
  lemma DataWritten(f: Field, b: seq<byte>)
    requires f.ltype.Bytes? || f.ltype.String? || f.ltype.FixedLengthBytes?
    ensures EncValue(f, Data(b)).Some? <==>
      if f.ltype.Bytes? then |b| + 4 <= f.dataSize
      else if f.ltype.String? then |b| <= f.dataSize && forall k :: 0 <= k < |b| ==> b[k] != 0
      else |b| == f.dataSize
    ensures EncValue(f, Data(b)).Some? ==> EncValue(f, Data(b)).value == Framed(b)
  {
    hide EncVarint;
  }

  /** A singular proto3 field writes nothing exactly if it holds zero, no bytes, or a message of nothing but defaults. */
  lemma SingularWritten(f: Field, v: Value)
    requires f.htype.Optional? && f.sizeOffset == 0 && EncField(f, Single(v)).Some? && EncValue(f, v).Some?
    ensures EncField(f, Single(v)) == Some([]) <==>
      match v
      case Int(i) => i == 0
      case Data(b) => b == []
      case Msg(m) => AllDefault(f.ltype.fields, m, 0)
  {
    hide EncVarint, EncFixed, EncMessage, AllDefault;
    assert |EncTag(f.tag, WireType(f.ltype))| >= 1;
  }

  // ---------------------------------------------------------------- reading

  /** The number a 64-bit varint stands for in a field of the type: two's complement of 64 bits, or of the low 32 bits in
      fields below eight bytes; the number itself; or its ZigZag preimage. */
  function Meaning(f: Field, u: nat): int
  {
    if f.ltype.Uvarint? then u
    else if f.ltype.Svarint? then if u % 2 == 0 then u / 2 else -(u / 2) - 1
    else if f.dataSize == 8 then if u < 0x8000_0000_0000_0000 then u else u - 0x1_0000_0000_0000_0000
    else if u % 0x1_0000_0000 < 0x8000_0000 then u % 0x1_0000_0000 else u % 0x1_0000_0000 - 0x1_0000_0000
  }

  lemma UnZigZagIs(u: nat)
    requires u < TWO_64
    ensures UnZigZag(u) == if u % 2 == 0 then u / 2 else -(u / 2) - 1
  {
  }

  /** An integer is accepted if and only if what its varint stands for fits the field, and is then stored unchanged. */
  lemma IntegerRead(f: Field, b: seq<byte>)
    requires IsVarintType(f.ltype) && DecVarint(b).Ok?
    ensures
      var v := Meaning(f, DecVarint(b).value);
      DecInteger(f, b) ==
        if (if f.ltype.Uvarint? then InUnsigned(v, f.dataSize) else InSigned(v, f.dataSize))
        then Ok(Int(v), DecVarint(b).rest) else Fail
  {
    hide VarintFrom, UnZigZag;
    VarintFromInWord(b, 0, 0);
    UnZigZagIs(DecVarint(b).value);
  }

  /** The bytes before the first NUL: none of them is NUL, and a NUL or the end follows. */
  lemma {:induction false} CStringIs(b: seq<byte>)
    ensures |CString(b)| <= |b| && CString(b) == b[..|CString(b)|]
    ensures forall k :: 0 <= k < |CString(b)| ==> b[k] != 0
    ensures |CString(b)| < |b| ==> b[|CString(b)|] == 0
  {
    if b != [] && b[0] != 0 { CStringIs(b[1..]); }
  }

  /** Data of n bytes is accepted if and only if all of them are there and they fit the field: four bytes for the
      count, one for the terminator, or the size itself, where no bytes at all stand for zeros. */
  lemma DataRead(f: Field, b: seq<byte>)
    requires (f.ltype.Bytes? || f.ltype.String? || f.ltype.FixedLengthBytes?) && DecVarint32(b).Ok?
    ensures
      var n, rest := DecVarint32(b).value, DecVarint32(b).rest;
      DecData(f, b) ==
        if f.ltype.Bytes? then if n + 4 <= f.dataSize && n <= |rest| then Ok(Data(rest[..n]), rest[n..]) else Fail
        else if f.ltype.String? then if n < f.dataSize && n <= |rest| then Ok(Data(CString(rest[..n])), rest[n..]) else Fail
        else if n == 0 then Ok(Data(seq(f.dataSize, _ => 0)), rest)
        else if n == f.dataSize && n <= |rest| then Ok(Data(rest[..n]), rest[n..])
        else Fail
  {
    hide DecVarint32;
  }

  // ---------------------------------------------------------------- a field that occurs again

  /** A submessage that occurs twice is merged: it is read as one occurrence of both contents together. */
  lemma SubmessagesMerge(f: Field, b1: seq<byte>, b2: seq<byte>, x: seq<byte>, m: Struct)
    requires f.ltype.Submessage? && NoRequired(f.ltype.fields) && |b1| + |b2| < TWO_32
    requires DecMessage(f.ltype.fields, b1, m).Ok? && !MeetsZeroKey(f.ltype.fields, b1, Decoded(m, {}))
    ensures
      var first := DecValue(f, Framed(b1) + (Framed(b2) + x), Msg(m));
      first.Ok? && first.rest == Framed(b2) + x
      && DecValue(f, first.rest, first.value) == DecValue(f, Framed(b1 + b2) + x, Msg(m))
  {
    hide DecMessage, MeetsZeroKey, EncVarint, DecDelimited;
    DecodeConcat(f.ltype.fields, b1, b2, m);
    DelimitedRoundTrip(b1, Framed(b2) + x);
    DelimitedRoundTrip(b2, x);
    DelimitedRoundTrip(b1 + b2, x);
  }

  /** The items of a slot, if it is an array. */
  function Items(slot: Slot): seq<Value> { if slot.Rep? then slot.items else [] }

  /** What a slot is after a field was read into it: a flagged field has its flag, a union has the field's tag, and an
      array has what it had followed by the items read, never more than it can hold. */
  lemma SlotRead(fields: seq<Field>, f: Field, wt: nat, b: seq<byte>, slot: Slot)
    requires DecField(fields, f, wt, b, slot).Ok? && |Items(slot)| <= f.arraySize
    ensures
      var slot' := DecField(fields, f, wt, b, slot).value;
      && (slot.Opt? ==> slot'.Opt? && slot'.has)
      && (slot.One? ==> slot'.One? && slot'.which == f.tag)
      && (slot.Single? ==> slot'.Single?)
      && (slot.Rep? ==> slot'.Rep? && Items(slot) <= Items(slot') && |Items(slot')| <= f.arraySize)
      && (slot.Rep? && !(f.ltype.Packable() && wt == 2) ==> |Items(slot')| == |Items(slot)| + 1)
  {
    hide DecValue, DecPacked, FindField, DefaultValue;
    if slot.Rep? && f.ltype.Packable() && wt == WT_STRING && DecDelimited(b).Ok? { PackedAppends(f, DecDelimited(b).value, slot.items); }
  }

  lemma {:induction false} PackedAppends(f: Field, b: seq<byte>, items: seq<Value>)
    requires DecPacked(f, b, items).Ok? && |items| <= f.arraySize
    ensures items <= DecPacked(f, b, items).value && |DecPacked(f, b, items).value| <= f.arraySize
    decreases |b|
  {
    hide DecValue;
    if b != [] && |items| < f.arraySize { PackedAppends(f, DecValue(f, b, f.dflt).rest, items + [DecValue(f, b, f.dflt).value]); }
  }

  /** An item that is not packed is refused if and only if the array is full or the item itself is not accepted. */
  lemma ItemRefused(fields: seq<Field>, f: Field, wt: nat, b: seq<byte>, items: seq<Value>)
    requires f.htype.Repeated? && !(f.ltype.Packable() && wt == 2)
    ensures DecField(fields, f, wt, b, Rep(items)).Fail? <==> |items| >= f.arraySize || DecValue(f, b, DefaultValue(f, Int(0))).Fail?
  {
    hide DecValue, DefaultValue;
  }

  /** A submessage in a union starts from its defaults, whatever the union held; a union that holds a tag of no field
      is refused. */
  lemma UnionRestarts(fields: seq<Field>, f: Field, wt: nat, b: seq<byte>, which: nat, v: Value)
    requires f.htype.OneOf? && f.ltype.Submessage?
    ensures DecField(fields, f, wt, b, One(which, v)) ==
      if which == 0 || which == f.tag || FindField(fields, which).Some? then DecField(fields, f, wt, b, One(0, Msg(map[]))) else Fail
  {
    hide DecValue, DefaultValue, FindField;
  }
}
