/** Required fields: a message is accepted exactly if its keys name them, whatever else it holds. */
module PbRequired {
  import opened Bits
  import opened Common
  import opened PbVarint
  import opened PbDescriptor
  import opened PbCodec
  import opened PbRoundTrip

  /** The tags that the keys of a message name, up to a zero key, its end, or what cannot be read. */
  function KeysMet(fields: seq<Field>, b: seq<byte>, st: Struct): set<nat>
    decreases |b|
  {
    if b == [] || DecTag(b).Fail? || DecTag(b).value.Eof? then {}
    else
      var tag, wt, rest := DecTag(b).value.tag, DecTag(b).value.wt, DecTag(b).rest;
      match FindField(fields, tag)
      case None => if SkipField(wt, rest).Fail? then {} else {tag} + KeysMet(fields, SkipField(wt, rest).rest, st)
      case Some(i) =>
        if Offset(fields, i) !in st then {}
        else
          match DecField(fields, fields[i], wt, rest, st[Offset(fields, i)])
          case Fail => {}
          case Ok(slot, rest') => {tag} + KeysMet(fields, rest', st[Offset(fields, i) := slot])
  }

  /** What the loop has seen are the required fields that the keys name. */
  lemma {:induction false} SeenIsMet(fields: seq<Field>, b: seq<byte>, d: Decoded, i: nat)
    requires DistinctTags(fields) && DecLoop(fields, b, d).Ok? && i < |fields|
    ensures i in DecLoop(fields, b, d).value.seen <==> i in d.seen || (fields[i].htype.Required? && fields[i].tag in KeysMet(fields, b, d.st))
    decreases |b|
  {
    hide DecTag, DecField, SkipField, FindField, Offset;
    if b != [] && DecTag(b).value.Tag? {
      var tag, wt, rest := DecTag(b).value.tag, DecTag(b).value.wt, DecTag(b).rest;
      FindUnique(fields, i);
      if FindField(fields, tag).None? {
        SeenIsMet(fields, SkipField(wt, rest).rest, d, i);
      } else {
        var k := FindField(fields, tag).value;
        var r := DecField(fields, fields[k], wt, rest, d.st[Offset(fields, k)]);
        SeenIsMet(fields, r.rest, Store(fields, k, r.value, d), i);
      }
    }
  }

  /** pb_decode_noinit accepts what its loop accepts, if and only if each of the first 64 required fields is named by a
      key of the message. */
  lemma RequiredExactly(fields: seq<Field>, b: seq<byte>, st: Struct)
    requires DistinctTags(fields)
    ensures var loop := DecLoop(fields, b, Decoded(st, {}));
      DecMessage(fields, b, st).Ok? <==>
        loop.Ok? && forall i :: 0 <= i < |fields| && fields[i].htype.Required? && RequiredBefore(fields, i) < 64 ==> fields[i].tag in KeysMet(fields, b, st)
    ensures var loop, message := DecLoop(fields, b, Decoded(st, {})), DecMessage(fields, b, st);
      message.Ok? ==> message == Ok(loop.value.st, loop.rest)
  {
    var loop := DecLoop(fields, b, Decoded(st, {}));
    if loop.Ok? {
      forall i | 0 <= i < |fields| && fields[i].htype.Required?
        ensures i in loop.value.seen <==> fields[i].tag in KeysMet(fields, b, st)
      {
        SeenIsMet(fields, b, Decoded(st, {}), i);
      }
    }
    hide DecLoop, KeysMet;
  }

  /** An empty input is refused by a descriptor with a required field among the first 64. */
  lemma EmptyRefused(fields: seq<Field>, i: nat, st: Struct)
    requires DistinctTags(fields) && i < |fields| && fields[i].htype.Required? && RequiredBefore(fields, i) < 64
    ensures DecMessage(fields, [], st) == Fail
  {
    RequiredExactly(fields, [], st);
  }

  // ---------------------------------------------------------------- leaving out a required field

  /** The encoding of a message from field j on, without field i. */
  function EncWithout(fields: seq<Field>, st: Struct, i: nat, j: nat): Option<seq<byte>>
    requires j <= |fields|
    decreases |fields| - j
  {
    if j == |fields| then Some([])
    else if j == i then EncWithout(fields, st, i, j + 1)
    else if Offset(fields, j) !in st then None
    else Cat(EncField(fields[j], st[Offset(fields, j)]), EncWithout(fields, st, i, j + 1))
  }

  lemma {:induction false} SameAsItself(f: Field, v: Value)
    requires WfField(f) && ValueOk(f, v)
    ensures SameValue(f, v, v)
    decreases f, 0
  {
    if f.ltype.Submessage? { SameStruct(f.ltype.fields, v.m); }
  }

  lemma {:induction false} SameStruct(fields: seq<Field>, st: Struct)
    requires WfFields(fields) && StructOk(fields, st)
    ensures Same(fields, st, st)
    decreases fields, 2
  {
    hide ValueOk, SameValue, WfField, Offset;
    forall i | 0 <= i < |fields| ensures SameSlot(fields[i], st[Offset(fields, i)], st[Offset(fields, i)]) {
      SameSlotAsItself(fields[i], st[Offset(fields, i)]);
    }
  }

  lemma {:induction false} SameSlotAsItself(f: Field, a: Slot)
    requires WfField(f) && SlotOk(f, a)
    ensures SameSlot(f, a, a)
    decreases f, 1
  {
    hide ValueOk, SameValue, WfField;
    if a.Rep? {
      forall k | 0 <= k < |a.items| ensures SameValue(f, a.items[k], a.items[k]) { SameAsItself(f, a.items[k]); }
    } else if (a.Opt? ==> a.has) && (a.One? ==> a.which == f.tag) {
      SameAsItself(f, a.v);
    }
  }

  lemma {:induction false} WithoutSeen(fields: seq<Field>, src: Struct, i: nat, j: nat, d: Decoded)
    requires WfFields(fields) && StructOk(fields, src) && i < |fields| && j <= |fields| && fields[i].htype.Required?
    requires Inv(fields, src, j, d.st) && i !in d.seen && EncWithout(fields, src, i, j).Some?
    requires j <= i ==> d.st[Offset(fields, i)] == src[Offset(fields, i)]
    ensures DecLoop(fields, EncWithout(fields, src, i, j).value, d).Ok? && i !in DecLoop(fields, EncWithout(fields, src, i, j).value, d).value.seen
    decreases |fields| - j
  {
    hide StructOk, Offset, EncField, SlotOk, WfField, DecTag, DecField, SkipField, Emitted, SameSlot, InvSlot;
    if j < |fields| {
      if j == i {
        assert SlotOk(fields[i], src[Offset(fields, i)]) by { SlotOf(fields, src, i); }
        WfTag(fields, i);
        SameSlotAsItself(fields[i], src[Offset(fields, i)]);
        InvStore(fields, src, i, d.st, src[Offset(fields, i)]);
        assert d.st[Offset(fields, i) := src[Offset(fields, i)]] == d.st;
        WithoutSeen(fields, src, i, j + 1, d);
      } else {
        var tail := EncWithout(fields, src, i, j + 1).value;
        var d' := FieldStep(fields, src, j, d, tail);
        assert Offset(fields, j) != Offset(fields, i) by { OnlyUnionsOverlap(fields, i, j); }
        WithoutSeen(fields, src, i, j + 1, d');
      }
    }
  }

  lemma SlotOf(fields: seq<Field>, src: Struct, i: nat)
    requires StructOk(fields, src) && i < |fields|
    ensures Offset(fields, i) in src && SlotOk(fields[i], src[Offset(fields, i)])
  {
    hide Offset, SlotOk;
  }

  lemma OnlyUnionsOverlap(fields: seq<Field>, i: nat, j: nat)
    requires WfFields(fields) && i < |fields| && j < |fields| && i != j && !fields[i].htype.OneOf?
    ensures Offset(fields, i) != Offset(fields, j)
  {
    hide Offset, WfField;
  }

  /** The same encoding when the slot left out is replaced. */
  lemma {:induction false} WithoutIgnores(fields: seq<Field>, src: Struct, i: nat, j: nat, slot: Slot)
    requires WfFields(fields) && i < |fields| && j <= |fields| && !fields[i].htype.OneOf?
    ensures EncWithout(fields, src[Offset(fields, i) := slot], i, j) == EncWithout(fields, src, i, j)
    decreases |fields| - j
  {
    hide Offset, EncField, WfFields;
    if j < |fields| {
      if j != i { OnlyUnionsOverlap(fields, i, j); }
      WithoutIgnores(fields, src, i, j + 1, slot);
    }
  }

  lemma {:induction false} WithoutEncodes(fields: seq<Field>, src: Struct, i: nat, j: nat)
    requires WfFields(fields) && StructOk(fields, src) && i < |fields| && j <= |fields|
    ensures EncWithout(fields, src, i, j).Some?
    decreases |fields| - j
  {
    hide SlotOk, EncField, Offset, StructOk;
    if j < |fields| {
      SlotOf(fields, src, j);
      WfTag(fields, j);
      FieldEncodes(fields[j], src[Offset(fields, j)]);
      WithoutEncodes(fields, src, i, j + 1);
    }
  }

  /** The encoding of any struct without one of its first 64 required fields is refused. */
  lemma LeftOutRefused(fields: seq<Field>, src: Struct, i: nat, st: Struct)
    requires WfFields(fields) && StructOk(fields, src) && i < |fields| && fields[i].htype.Required? && RequiredBefore(fields, i) < 64
    requires Fresh(fields, st) && SlotOk(fields[i], st[Offset(fields, i)])
    ensures EncWithout(fields, src, i, 0).Some? && DecMessage(fields, EncWithout(fields, src, i, 0).value, st) == Fail
  {
    WithoutEncodes(fields, src, i, 0);
    var src' := src[Offset(fields, i) := st[Offset(fields, i)]];
    WithoutIgnores(fields, src, i, 0, st[Offset(fields, i)]);
    Replaced(fields, src, i, st[Offset(fields, i)]);
    FreshInv(fields, src', st);
    hide DecLoop, EncWithout, Offset, WfFields, StructOk, Fresh, Inv, SlotOk;
    WithoutSeen(fields, src', i, 0, Decoded(st, {}));
  }

  lemma Replaced(fields: seq<Field>, src: Struct, i: nat, slot: Slot)
    requires WfFields(fields) && StructOk(fields, src) && i < |fields| && !fields[i].htype.OneOf? && SlotOk(fields[i], slot)
    ensures StructOk(fields, src[Offset(fields, i) := slot])
  {
    hide Offset, SlotOk, WfField, WhichOk;
    forall j | 0 <= j < |fields| && j != i ensures Offset(fields, j) != Offset(fields, i) { OnlyUnionsOverlap(fields, i, j); }
  }
}
