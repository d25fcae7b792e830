/** The nanopb wire codec as functions on byte strings: what pb_encode writes and what pb_decode reads.
    Ill-typed structs, which C's type system excludes, encode to None and are refused by the decoder. */
module PbCodec {
  import opened Bits
  import opened Common
  import opened PbVarint
  import opened PbDescriptor

  const WT_VARINT: nat := 0
  const WT_64BIT: nat := 1
  const WT_STRING: nat := 2
  const WT_32BIT: nat := 5

  predicate IntSize(n: nat) { n == 1 || n == 2 || n == 4 || n == 8 }

  /** Half of the range of an integer of `n` bytes: 2^(8n-1). */
  function HalfRange(n: nat): int
    requires IntSize(n)
  {
    if n == 1 then 0x80 else if n == 2 then 0x8000 else if n == 4 then TWO_31 else TWO_63
  }

  predicate FitsSigned(v: int, n: nat) { IntSize(n) && -HalfRange(n) <= v < HalfRange(n) }
  predicate FitsUnsigned(v: int, n: nat) { IntSize(n) && 0 <= v < 2 * HalfRange(n) }

  // ---------------------------------------------------------------- encoding

  function WireType(lt: LType): nat
  {
    match lt
    case Varint | Uvarint | Svarint => WT_VARINT
    case Fixed32 => WT_32BIT
    case Fixed64 => WT_64BIT
    case _ => WT_STRING
  }

  function EncTag(tag: nat, wt: nat): seq<byte> { EncVarint(8 * tag + wt) }

  function Delimited(e: seq<byte>): seq<byte> { EncVarint(|e|) + e }

  /** Concatenation of two encodings that may have failed. */
  function Cat(a: Option<seq<byte>>, b: Option<seq<byte>>): Option<seq<byte>>
  {
    if a.Some? && b.Some? then Some(a.value + b.value) else None
  }

  /** The field encoders pb_enc_*. */
  function EncValue(f: Field, v: Value): Option<seq<byte>>
    decreases f, 0
  {
    match (f.ltype, v)
    case (Varint, Int(i)) => if FitsSigned(i, f.dataSize) then Some(EncVarint(i % TWO_64)) else None
    case (Uvarint, Int(i)) => if FitsUnsigned(i, f.dataSize) then Some(EncVarint(i)) else None
    case (Svarint, Int(i)) => if FitsSigned(i, f.dataSize) then Some(EncVarint(ZigZag(i))) else None
    case (Fixed32, Int(i)) => if 0 <= i < TWO_32 then Some(EncFixed(i, 4)) else None
    case (Fixed64, Int(i)) => if 0 <= i < TWO_64 then Some(EncFixed(i, 8)) else None
    case (Bytes, Data(b)) => if |b| + BYTES_HEADER > f.dataSize then None else Some(Delimited(b))
    case (String, Data(b)) => if IsCString(b, f.dataSize) then Some(Delimited(b)) else None
    case (FixedLengthBytes, Data(b)) => if |b| == f.dataSize then Some(Delimited(b)) else None
    case (Submessage(sub), Msg(m)) => (match EncMessage(sub, m) case None => None case Some(e) => Some(Delimited(e)))
    case _ => None
  }

  /** The content of a char array of `size` bytes, up to its first NUL or its end. */
  predicate IsCString(b: seq<byte>, size: nat)
  {
    |b| <= size && forall k :: 0 <= k < |b| ==> b[k] != 0
  }

  /** Encodings of array entries, one after the other. */
  function EncItems(f: Field, prefix: seq<byte>, items: seq<Value>): Option<seq<byte>>
    decreases f, 1, |items|
  {
    if items == [] then Some([])
    else Cat(Cat(Some(prefix), EncValue(f, items[0])), EncItems(f, prefix, items[1..]))
  }

  /** encode_array */
  function EncArray(f: Field, items: seq<Value>): Option<seq<byte>>
    decreases f, 2
  {
    if items == [] then Some([])
    else if |items| > f.arraySize then None
    else if f.ltype.Packable() then
      match EncItems(f, [], items)
      case None => None
      case Some(e) => Some(EncTag(f.tag, WT_STRING) + Delimited(e))
    else EncItems(f, EncTag(f.tag, WireType(f.ltype)), items)
  }

  /** encode_basic_field */
  function EncField(f: Field, slot: Slot): Option<seq<byte>>
    decreases f, 3
  {
    var tag := EncTag(f.tag, WireType(f.ltype));
    match (f.htype, slot)
    case (Required, Single(v)) => Cat(Some(tag), EncValue(f, v))
    case (Optional, Opt(has, v)) => if f.sizeOffset == 0 then None else if has then Cat(Some(tag), EncValue(f, v)) else Some([])
    case (Optional, Single(v)) => if f.sizeOffset != 0 then None else if !IsDefault(f, slot) then Cat(Some(tag), EncValue(f, v)) else Some([])
    case (Repeated, Rep(items)) => EncArray(f, items)
    case (OneOf, One(which, v)) => if which == f.tag then Cat(Some(tag), EncValue(f, v)) else Some([])
    case _ => None
  }

  /** The pb_encode loop from field i on. */
  function EncFrom(fields: seq<Field>, st: Struct, i: nat): Option<seq<byte>>
    requires i <= |fields|
    decreases fields, 4, |fields| - i
  {
    if i == |fields| then Some([])
    else if Offset(fields, i) !in st then None
    else Cat(EncField(fields[i], st[Offset(fields, i)]), EncFrom(fields, st, i + 1))
  }

  function EncMessage(fields: seq<Field>, st: Struct): Option<seq<byte>>
    decreases fields, 5
  {
    EncFrom(fields, st, 0)
  }

  /** pb_check_proto3_default_value */
  predicate IsDefault(f: Field, slot: Slot)
    decreases f, 0
  {
    match (f.htype, slot)
    case (Required, _) => false
    case (Repeated, Rep(items)) => items == []
    case (OneOf, One(which, _)) => which == 0
    case (Optional, Opt(has, _)) => !has
    case (Optional, Single(v)) =>
      (match (f.ltype, v)
       case (Bytes, Data(b)) => b == []
       case (String, Data(b)) => b == []
       case (FixedLengthBytes, _) => f.dataSize == 0
       case (Submessage(sub), Msg(m)) => AllDefault(sub, m, 0)
       case (_, Int(i)) => i == 0
       case _ => false)
    case _ => false
  }

  predicate AllDefault(fields: seq<Field>, st: Struct, i: nat)
    requires i <= |fields|
    decreases fields, 1, |fields| - i
  {
    i == |fields| || (Offset(fields, i) in st && IsDefault(fields[i], st[Offset(fields, i)]) && AllDefault(fields, st, i + 1))
  }

  // ---------------------------------------------------------------- decoding

  datatype Tag = Tag(tag: nat, wt: nat) | Eof

  /** pb_decode_tag on a stream that is not at its end. A zero key ends the message. */
  function DecTag(b: seq<byte>): (r: Parsed<Tag>)
    requires b != []
    ensures r.Ok? ==> |r.rest| < |b|
  {
    DecVarint32Shorter(b);
    match DecVarint32(b)
    case Fail => Fail
    case Ok(key, rest) => if key == 0 then Ok(Eof, rest) else Ok(Tag(key / 8, key % 8), rest)
  }

  function Take(b: seq<byte>, n: nat): (r: Parsed<seq<byte>>)
    ensures r.Ok? ==> |r.value| == n && b == r.value + r.rest
  {
    if |b| < n then Fail else Ok(b[..n], b[n..])
  }

  /** A varint32 length and that many bytes. */
  function DecDelimited(b: seq<byte>): (r: Parsed<seq<byte>>)
    ensures r.Ok? ==> |r.value| + |r.rest| < |b|
  {
    DecVarint32Shorter(b);
    match DecVarint32(b)
    case Fail => Fail
    case Ok(n, rest) => Take(rest, n)
  }

  /** pb_skip_varint has no length limit. */
  function SkipVarint(b: seq<byte>): (r: Parsed<()>)
    ensures r.Ok? ==> |r.rest| < |b|
  {
    if b == [] then Fail
    else if b[0] >= 128 then SkipVarint(b[1..])
    else Ok((), b[1..])
  }

  /** pb_skip_field */
  function SkipField(wt: nat, b: seq<byte>): (r: Parsed<()>)
    ensures r.Ok? ==> |r.rest| < |b|
  {
    if wt == WT_VARINT then SkipVarint(b)
    else if wt == WT_64BIT then (if |b| < 8 then Fail else Ok((), b[8..]))
    else if wt == WT_STRING then (match DecDelimited(b) case Fail => Fail case Ok(_, rest) => Ok((), rest))
    else if wt == WT_32BIT then (if |b| < 4 then Fail else Ok((), b[4..]))
    else Fail
  }

  /** The bytes before the first NUL. */
  function CString(b: seq<byte>): seq<byte>
  {
    if b == [] || b[0] == 0 then [] else [b[0]] + CString(b[1..])
  }

  /** Accept a decoded value if a condition holds. */
  function Check<T>(ok: bool, v: T, rest: seq<byte>): Parsed<T> { if ok then Ok(v, rest) else Fail }

  /** pb_dec_varint, pb_dec_uvarint, pb_dec_svarint: narrow the 64-bit value to the field, refusing overflow. */
  function DecInteger(f: Field, b: seq<byte>): (r: Parsed<Value>)
    ensures r.Ok? ==> |r.rest| < |b|
  {
    DecVarintShorter(b);
    match DecVarint(b)
    case Fail => Fail
    case Ok(u, rest) =>
      if f.ltype.Varint? then
        var s := if f.dataSize == 8 then ToInt64(u) else ToInt32(u);
        Check(FitsSigned(s, f.dataSize), Int(s), rest)
      else if f.ltype.Uvarint? then
        Check(FitsUnsigned(u, f.dataSize), Int(u), rest)
      else
        var s := UnZigZag(u % TWO_64);
        Check(FitsSigned(s, f.dataSize), Int(s), rest)
  }

  /** pb_dec_bytes, pb_dec_string, pb_dec_fixed_length_bytes. The length is checked before the data is read. */
  function DecData(f: Field, b: seq<byte>): (r: Parsed<Value>)
    ensures r.Ok? ==> |r.rest| < |b|
  {
    DecVarint32Shorter(b);
    match DecVarint32(b)
    case Fail => Fail
    case Ok(n, rest) =>
      if f.ltype.FixedLengthBytes? && n == 0 then Ok(Data(seq(f.dataSize, _ => 0)), rest)
      else if f.ltype.FixedLengthBytes? && n != f.dataSize then Fail
      else if f.ltype.Bytes? && n + BYTES_HEADER > f.dataSize then Fail
      else if f.ltype.String? && n + 1 > f.dataSize then Fail
      else
        match Take(rest, n)
        case Fail => Fail
        case Ok(data, rest') => Ok(Data(if f.ltype.String? then CString(data) else data), rest')
  }

  /** The field decoders pb_dec_*; `cur` is the value already stored at the destination. */
  function DecValue(f: Field, b: seq<byte>, cur: Value): (r: Parsed<Value>)
    ensures r.Ok? ==> |r.rest| < |b|
    decreases f, |b|, 0
  {
    match f.ltype
    case Varint | Uvarint | Svarint => DecInteger(f, b)
    case Fixed32 => (match DecFixed(b, 4) case Fail => Fail case Ok(i, rest) => Ok(Int(i), rest))
    case Fixed64 => (match DecFixed(b, 8) case Fail => Fail case Ok(i, rest) => Ok(Int(i), rest))
    case Bytes | String | FixedLengthBytes => DecData(f, b)
    case Submessage(sub) =>
      match DecDelimited(b)
      case Fail => Fail
      case Ok(body, rest) =>
        if !cur.Msg? then Fail
        else
          match DecMessage(sub, body, cur.m)
          case Fail => Fail
          case Ok(m, _) => Ok(Msg(m), rest)     // pb_close_string_substream skips what is left
  }

  /** The packed-array loop; it stops when the bytes or the array are used up. */
  function DecPacked(f: Field, b: seq<byte>, items: seq<Value>): Parsed<seq<Value>>
    decreases f, |b|, 1
  {
    if b == [] || |items| >= f.arraySize then Check(b == [], items, [])
    else
      match DecValue(f, b, f.dflt)
      case Fail => Fail
      case Ok(v, rest) => DecPacked(f, rest, items + [v])
  }

  /** decode_static_field: the new slot at the field's offset. `known` says which tags the message has:
      a union whose which-tag names no field is refused when another member arrives. */
  function DecField(fields: seq<Field>, f: Field, wt: nat, b: seq<byte>, slot: Slot): (r: Parsed<Slot>)
    ensures r.Ok? ==> |r.rest| < |b|
    decreases f, |b|, 2
  {
    match (f.htype, slot)
    case (Required, Single(v)) => MapSlot(DecValue(f, b, v), x => Single(x))
    case (Optional, Opt(_, v)) => if f.sizeOffset == 0 then Fail else MapSlot(DecValue(f, b, v), x => Opt(true, x))
    case (Optional, Single(v)) => if f.sizeOffset != 0 then Fail else MapSlot(DecValue(f, b, v), x => Single(x))
    case (Repeated, Rep(items)) =>
      if wt == WT_STRING && f.ltype.Packable() then
        match DecDelimited(b)
        case Fail => Fail
        case Ok(body, rest) =>
          (match DecPacked(f, body, items) case Fail => Fail case Ok(items', _) => Ok(Rep(items'), rest))
      else if |items| >= f.arraySize then Fail
      else MapSlot(DecValue(f, b, DefaultValue(f, Int(0))), x => Rep(items + [x]))
    case (OneOf, One(which, v)) =>
      if which != 0 && which != f.tag && FindField(fields, which).None? then Fail
      else MapSlot(DecValue(f, b, if f.ltype.Submessage? then DefaultValue(f, Int(0)) else v), x => One(f.tag, x))
    case _ => Fail
  }

  function MapSlot(p: Parsed<Value>, wrap: Value -> Slot): Parsed<Slot>
  {
    match p
    case Fail => Fail
    case Ok(v, rest) => Ok(wrap(v), rest)
  }

  datatype Decoded = Decoded(st: Struct, seen: set<nat>)

  /** The pb_decode_noinit loop: the struct, the indices of the required fields seen, and the unread bytes. */
  function DecLoop(fields: seq<Field>, b: seq<byte>, d: Decoded): Parsed<Decoded>
    decreases fields, |b|, 3
  {
    if b == [] then Ok(d, [])
    else
      match DecTag(b)
      case Fail => Fail
      case Ok(Eof, rest) => Ok(d, rest)
      case Ok(Tag(tag, wt), rest) =>
        if fields == [] && tag == 0 then Fail      // the terminator entry has tag 0 and matches
        else
          match FindField(fields, tag)
          case None =>
            (match SkipField(wt, rest) case Fail => Fail case Ok(_, rest') => DecLoop(fields, rest', d))
          case Some(i) =>
            if Offset(fields, i) !in d.st then Fail
            else
              match DecField(fields, fields[i], wt, rest, d.st[Offset(fields, i)])
              case Fail => Fail
              case Ok(slot, rest') => DecLoop(fields, rest', Store(fields, i, slot, d))
  }

  /** Field i was decoded into `slot`. */
  function Store(fields: seq<Field>, i: nat, slot: Slot, d: Decoded): Decoded
    requires i < |fields|
  {
    Decoded(d.st[Offset(fields, i) := slot], if fields[i].htype.Required? then d.seen + {i} else d.seen)
  }

  /** Every required field (of the first 64) has been seen. */
  predicate RequiredSeen(fields: seq<Field>, seen: set<nat>)
  {
    forall i :: 0 <= i < |fields| && fields[i].htype.Required? && RequiredBefore(fields, i) < MAX_REQUIRED_FIELDS ==> i in seen
  }

  /** pb_decode_noinit: decode into an existing struct. */
  function DecMessage(fields: seq<Field>, b: seq<byte>, st: Struct): Parsed<Struct>
    decreases fields, |b|, 4
  {
    match DecLoop(fields, b, Decoded(st, {}))
    case Fail => Fail
    case Ok(d, rest) => Check(RequiredSeen(fields, d.seen), d.st, rest)
  }

  /** pb_decode */
  function Decode(fields: seq<Field>, b: seq<byte>, st: Struct): Parsed<Struct>
  {
    DecMessage(fields, b, SetDefaults(fields, st))
  }

  // ---------------------------------------------------------------- readers consume at least one byte

  lemma {:induction false} VarintFromShorter(b: seq<byte>, bitpos: nat, acc: nat)
    ensures VarintFrom(b, bitpos, acc).Ok? ==> |VarintFrom(b, bitpos, acc).rest| < |b|
    decreases |b|
  {
    if bitpos < 64 && b != [] && b[0] >= 128 { VarintFromShorter(b[1..], bitpos + 7, Or(acc, Shl64(b[0] % 128, bitpos))); }
  }

  lemma DecVarintShorter(b: seq<byte>)
    ensures DecVarint(b).Ok? ==> |DecVarint(b).rest| < |b|
  {
    VarintFromShorter(b, 0, 0);
  }

  lemma {:induction false} Varint32FromShorter(b: seq<byte>, bitpos: nat, acc: nat)
    ensures Varint32From(b, bitpos, acc).Ok? ==> |Varint32From(b, bitpos, acc).rest| < |b|
    decreases |b|
  {
    if b != [] && b[0] >= 128 {
      Varint32FromShorter(b[1..], (bitpos + 7) % 256, if bitpos >= 32 then acc else Or(acc, Shl32(b[0] % 128, bitpos)));
    }
  }

  lemma DecVarint32Shorter(b: seq<byte>)
    ensures DecVarint32(b).Ok? ==> |DecVarint32(b).rest| < |b|
  {
    if b != [] { Varint32FromShorter(b[1..], 7, b[0] % 128); }
  }
}
