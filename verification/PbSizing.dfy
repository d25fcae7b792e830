/** The encoder covers every struct that the round trip covers: what is well formed can be sized and written. */
module PbSizing {
  import opened Bits
  import opened Common
  import opened PbVarint
  import opened PbDescriptor
  import opened PbCodec
  import opened PbCursor
  import opened PbEncode
  import opened PbRoundTrip

  /** Without the keys in between, the items of an array take no more bytes. */
  lemma {:induction false} KeysAddBytes(f: Field, prefix: seq<byte>, items: seq<Value>)
    requires EncItems(f, prefix, items).Some?
    ensures EncItems(f, [], items).Some? && |EncItems(f, [], items).value| <= |EncItems(f, prefix, items).value|
    decreases |items|
  {
    hide EncValue;
    if items != [] { KeysAddBytes(f, prefix, items[1..]); }
  }

  /** No field takes more bytes than the message from there on. */
  lemma {:induction false} FieldFitsMessage(fields: seq<Field>, st: Struct, i: nat, j: nat)
    requires i <= j < |fields| && EncFrom(fields, st, i).Some?
    ensures Offset(fields, j) in st && EncField(fields[j], st[Offset(fields, j)]).Some?
    ensures |EncField(fields[j], st[Offset(fields, j)]).value| <= |EncFrom(fields, st, i).value|
    decreases j - i
  {
    hide EncField, Offset;
    if i < j { FieldFitsMessage(fields, st, i + 1, j); }
  }

  lemma {:induction false} WellFormedValue(f: Field, v: Value)
    requires WfField(f) && ValueOk(f, v)
    ensures StorableValue(f, v)
    decreases f, 0
  {
    hide EncMessage, StructOk, Storable;
    if f.ltype.Submessage? { WellFormedStruct(f.ltype.fields, v.m); }
  }

  lemma {:induction false} WellFormedSlot(f: Field, slot: Slot)
    requires WfField(f) && SlotOk(f, slot) && EncField(f, slot).Some? && |EncField(f, slot).value| < TWO_64
    ensures StorableSlot(f, slot)
    decreases f, 1
  {
    hide ValueOk, StorableValue, EncValue, WfField;
    if slot.Rep? {
      if slot.items != [] { ArrayFits(f, slot.items); }
      forall i | 0 <= i < |slot.items| ensures StorableValue(f, slot.items[i]) { WellFormedValue(f, slot.items[i]); }
    } else if !((slot.One? && slot.which != f.tag) || (slot.Opt? && !slot.has)) {
      WellFormedValue(f, slot.v);
    }
  }

  lemma ArrayFits(f: Field, items: seq<Value>)
    requires items != [] && EncArray(f, items).Some? && |EncArray(f, items).value| < TWO_64
    ensures Short(EncItems(f, [], items))
  {
    hide EncItems, EncTag;
    if !f.ltype.Packable() { KeysAddBytes(f, EncTag(f.tag, WireType(f.ltype)), items); }
  }

  /** Every well-formed struct whose encoding fits in memory can be sized and written. */
  lemma {:induction false} WellFormedStruct(fields: seq<Field>, st: Struct)
    requires WfFields(fields) && StructOk(fields, st) && Short(EncMessage(fields, st))
    ensures Storable(fields, st)
    decreases fields, 2
  {
    hide SlotOk, StorableSlot, EncField, Offset, WfField, WhichOk, EncFrom;
    MessageEncodes(fields, st, 0);
    forall i | 0 <= i < |fields| ensures StorableSlot(fields[i], st[Offset(fields, i)]) {
      FieldFitsMessage(fields, st, 0, i);
      WellFormedSlot(fields[i], st[Offset(fields, i)]);
    }
  }
}
