/** Field descriptors and the message structs they describe.
    A struct is a tree: a map from the byte offset of a field's data to the typed slot stored there.
    The has-flag, count or which-tag that C keeps at pSize is part of the slot. */
module PbDescriptor {
  import opened Common

  const PB_SIZE_MAX: int := 0xFFFF_FFFF        // pb_size_t is uint32_t in this build
  const BYTES_HEADER: int := 4                 // offsetof(pb_bytes_array_t, bytes)
  const MAX_REQUIRED_FIELDS: int := 64         // PB_MAX_REQUIRED_FIELDS

  datatype HType = Required | Optional | Repeated | OneOf

  datatype LType =
    | Varint | Uvarint | Svarint | Fixed32 | Fixed64
    | Bytes | String | FixedLengthBytes
    | Submessage(fields: seq<Field>)
  {
    /** LTYPE <= PB_LTYPE_LAST_PACKABLE */
    predicate Packable() { Varint? || Uvarint? || Svarint? || Fixed32? || Fixed64? }
  }

  /** One pb_field_t. `sizeOffset == 0` means there is no has-flag or count; `dflt` is the value that
      pb_message_set_to_defaults gives a scalar field (ptr's bytes, or zeros). */
  datatype Field = Field(tag: nat, htype: HType, ltype: LType, dataOffset: nat, sizeOffset: int,
                         dataSize: nat, arraySize: nat, dflt: Value)

  datatype Value = Int(i: int) | Data(bytes: seq<byte>) | Msg(m: Struct)

  datatype Slot =
    | Single(v: Value)                // required, or proto3 singular
    | Opt(has: bool, v: Value)        // optional with a has-flag
    | Rep(items: seq<Value>)          // the counted entries of an array
    | One(which: nat, v: Value)       // a union and its which-tag
  {
    /** The bytes stored in the slot, whatever its kind. */
    function Content(): Value { if Rep? then Int(0) else v }
  }

  type Struct = map<int, Slot>

  /** Size of the field in the struct: an array has `arraySize` entries of `dataSize` bytes. */
  function StorageSize(f: Field): nat
  {
    if f.htype.Repeated? then f.dataSize * f.arraySize else f.dataSize
  }

  /** Whether field i lives in the same union as field i-1. */
  predicate SharesUnion(fields: seq<Field>, i: nat)
    requires i < |fields|
  {
    i > 0 && fields[i - 1].htype.OneOf? && fields[i].htype.OneOf? && fields[i].dataOffset == PB_SIZE_MAX
  }

  /** Byte offset of field i's data from the start of the struct. */
  function Offset(fields: seq<Field>, i: nat): int
    requires i < |fields|
  {
    if i == 0 then fields[0].dataOffset
    else if SharesUnion(fields, i) then Offset(fields, i - 1)
    else Offset(fields, i - 1) + StorageSize(fields[i - 1]) + fields[i].dataOffset
  }

  /** Number of required fields before field i. */
  function RequiredBefore(fields: seq<Field>, i: nat): nat
    requires i <= |fields|
  {
    if i == 0 then 0 else RequiredBefore(fields, i - 1) + (if fields[i - 1].htype.Required? then 1 else 0)
  }

  predicate DistinctTags(fields: seq<Field>)
  {
    forall i, j :: 0 <= i < j < |fields| ==> fields[i].tag != fields[j].tag
  }

  /** The index of the field with this tag, if any. */
  function FindField(fields: seq<Field>, tag: nat): (r: Option<nat>)
    ensures r.Some? ==> r.value < |fields| && fields[r.value].tag == tag
    ensures r.None? ==> forall i :: 0 <= i < |fields| ==> fields[i].tag != tag
  {
    FindFrom(fields, tag, 0)
  }

  function FindFrom(fields: seq<Field>, tag: nat, i: nat): (r: Option<nat>)
    requires i <= |fields|
    ensures r.Some? ==> i <= r.value < |fields| && fields[r.value].tag == tag
    ensures r.None? ==> forall j :: i <= j < |fields| ==> fields[j].tag != tag
    decreases |fields| - i
  {
    if i == |fields| then None
    else if fields[i].tag == tag then Some(i)
    else FindFrom(fields, tag, i + 1)
  }

  lemma FindUnique(fields: seq<Field>, i: nat)
    requires i < |fields| && DistinctTags(fields)
    ensures FindField(fields, fields[i].tag) == Some(i)
  {
  }

  /** The value a zeroed or default-initialised scalar holds. */
  predicate IsZero(f: Field, v: Value)
  {
    match f.ltype
    case Bytes | String => v == Data([])
    case FixedLengthBytes => v == Data(seq(f.dataSize, _ => 0))
    case Submessage(_) => false
    case _ => v == Int(0)
  }

  /** pb_message_set_to_defaults: every field of `st` gets its default. The data of a union and the
      entries of an array are not touched; their which-tag and count become 0. */
  function SetDefaults(fields: seq<Field>, st: Struct): Struct
    decreases fields, |fields|, 1
  {
    SetDefaultsUpTo(fields, st, |fields|)
  }

  function SetDefaultsUpTo(fields: seq<Field>, st: Struct, n: nat): Struct
    requires n <= |fields|
    decreases fields, n, 0
  {
    if n == 0 then st
    else
      var prev := SetDefaultsUpTo(fields, st, n - 1);
      prev[Offset(fields, n - 1) := DefaultSlot(fields[n - 1], SlotAt(prev, Offset(fields, n - 1)))]
  }

  /** The slot stored at an offset; memory that was never written reads as an empty union. */
  function SlotAt(st: Struct, off: int): Slot
  {
    if off in st then st[off] else One(0, Int(0))
  }

  /** pb_field_set_to_default */
  function DefaultSlot(f: Field, was: Slot): Slot
    decreases f, 1
  {
    match f.htype
    case Required => Single(DefaultValue(f, was.Content()))
    case Optional => if f.sizeOffset != 0 then Opt(false, DefaultValue(f, was.Content())) else Single(DefaultValue(f, was.Content()))
    case Repeated => Rep([])
    case OneOf => One(0, was.Content())
  }

  function DefaultValue(f: Field, was: Value): Value
    decreases f, 0
  {
    match f.ltype
    case Submessage(sub) => Msg(SetDefaults(sub, if was.Msg? then was.m else map[]))
    case _ => f.dflt
  }
}
