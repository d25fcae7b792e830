/** Decoding is a homomorphism: reading the concatenation of two messages is reading one after the other
    into the same struct, and unknown fields may be inserted anywhere between fields. */
module PbHomomorphism {
  import opened Bits
  import opened Common
  import opened PbVarint
  import opened PbDescriptor
  import opened PbCodec

  // ---------------------------------------------------------------- readers do not look past what they consume

  /** `q` is `p` with `x` appended to the unread bytes. */
  predicate Extends<T(==)>(p: Parsed<T>, q: Parsed<T>, x: seq<byte>)
  {
    p.Ok? ==> q == Ok(p.value, p.rest + x)
  }

  lemma {:induction false} VarintFromExt(b: seq<byte>, bitpos: nat, acc: nat, x: seq<byte>)
    ensures Extends(VarintFrom(b, bitpos, acc), VarintFrom(b + x, bitpos, acc), x)
    decreases |b|
  {
    hide Or, Shl;
    if b != [] && bitpos < 64 {
      assert (b + x)[1..] == b[1..] + x;
      if b[0] >= 128 { VarintFromExt(b[1..], bitpos + 7, Or(acc, Shl64(b[0] % 128, bitpos)), x); }
    }
  }

  lemma {:induction false} Varint32FromExt(b: seq<byte>, bitpos: nat, acc: nat, x: seq<byte>)
    ensures Extends(Varint32From(b, bitpos, acc), Varint32From(b + x, bitpos, acc), x)
    decreases |b|
  {
    hide Or, Shl;
    if b != [] {
      assert (b + x)[1..] == b[1..] + x;
      if b[0] >= 128 {
        Varint32FromExt(b[1..], (bitpos + 7) % 256, if bitpos >= 32 then acc else Or(acc, Shl32(b[0] % 128, bitpos)), x);
      }
    }
  }

  lemma DecVarint32Ext(b: seq<byte>, x: seq<byte>)
    ensures Extends(DecVarint32(b), DecVarint32(b + x), x)
  {
    if b != [] {
      assert (b + x)[1..] == b[1..] + x;
      Varint32FromExt(b[1..], 7, b[0] % 128, x);
    }
  }

  lemma TakeExt(b: seq<byte>, n: nat, x: seq<byte>)
    ensures Extends(Take(b, n), Take(b + x, n), x)
  {
    if n <= |b| { assert (b + x)[..n] == b[..n] && (b + x)[n..] == b[n..] + x; }
  }

  lemma DecFixedExt(b: seq<byte>, n: nat, x: seq<byte>)
    ensures Extends(DecFixed(b, n), DecFixed(b + x, n), x)
  {
    if n <= |b| { assert (b + x)[..n] == b[..n] && (b + x)[n..] == b[n..] + x; }
  }

  lemma DecDelimitedExt(b: seq<byte>, x: seq<byte>)
    ensures Extends(DecDelimited(b), DecDelimited(b + x), x)
  {
    hide DecVarint32;
    DecVarint32Ext(b, x);
    if DecVarint32(b).Ok? { TakeExt(DecVarint32(b).rest, DecVarint32(b).value, x); }
  }

  lemma DecTagExt(b: seq<byte>, x: seq<byte>)
    requires b != []
    ensures Extends(DecTag(b), DecTag(b + x), x)
  {
    hide DecVarint32;
    DecVarint32Ext(b, x);
  }

  lemma {:induction false} SkipVarintExt(b: seq<byte>, x: seq<byte>)
    ensures Extends(SkipVarint(b), SkipVarint(b + x), x)
  {
    if b != [] {
      assert (b + x)[1..] == b[1..] + x;
      SkipVarintExt(b[1..], x);
    }
  }

  lemma SkipFieldExt(wt: nat, b: seq<byte>, x: seq<byte>)
    ensures Extends(SkipField(wt, b), SkipField(wt, b + x), x)
  {
    hide SkipVarint, DecDelimited;
    SkipVarintExt(b, x);
    DecDelimitedExt(b, x);
    if 8 <= |b| { assert (b + x)[8..] == b[8..] + x; }
    if 4 <= |b| { assert (b + x)[4..] == b[4..] + x; }
  }

  lemma DecIntegerExt(f: Field, b: seq<byte>, x: seq<byte>)
    ensures Extends(DecInteger(f, b), DecInteger(f, b + x), x)
  {
    hide VarintFrom, FitsSigned, FitsUnsigned, ToInt32, ToInt64, UnZigZag;
    VarintFromExt(b, 0, 0, x);
  }

  lemma DecDataExt(f: Field, b: seq<byte>, x: seq<byte>)
    ensures Extends(DecData(f, b), DecData(f, b + x), x)
  {
    hide DecVarint32, CString;
    DecVarint32Ext(b, x);
    if DecVarint32(b).Ok? { TakeExt(DecVarint32(b).rest, DecVarint32(b).value, x); }
  }

  lemma DecValueExt(f: Field, b: seq<byte>, cur: Value, x: seq<byte>)
    ensures Extends(DecValue(f, b, cur), DecValue(f, b + x, cur), x)
  {
    hide DecInteger, DecFixed, DecData, DecDelimited, DecMessage;
    DecIntegerExt(f, b, x);
    DecFixedExt(b, 4, x);
    DecFixedExt(b, 8, x);
    DecDataExt(f, b, x);
    DecDelimitedExt(b, x);
  }

  lemma DecFieldExt(fields: seq<Field>, f: Field, wt: nat, b: seq<byte>, slot: Slot, x: seq<byte>)
    ensures Extends(DecField(fields, f, wt, b, slot), DecField(fields, f, wt, b + x, slot), x)
  {
    hide DecValue, DecDelimited, DecPacked, FindField, DefaultValue;
    DecDelimitedExt(b, x);
    if !slot.Rep? { DecValueExt(f, b, slot.v, x); }
    DecValueExt(f, b, DefaultValue(f, Int(0)), x);
  }

  // ---------------------------------------------------------------- the loop

  /** The loop over `b` meets a zero key, which ends the message early. */
  predicate MeetsZeroKey(fields: seq<Field>, b: seq<byte>, d: Decoded)
    decreases |b|
  {
    b != [] && DecTag(b).Ok? &&
    match DecTag(b).value
    case Eof => true
    case Tag(tag, wt) =>
      var rest := DecTag(b).rest;
      match FindField(fields, tag)
      case None => (match SkipField(wt, rest) case Fail => false case Ok(_, rest') => MeetsZeroKey(fields, rest', d))
      case Some(i) =>
        Offset(fields, i) in d.st &&
        match DecField(fields, fields[i], wt, rest, d.st[Offset(fields, i)])
        case Fail => false
        case Ok(slot, rest') => MeetsZeroKey(fields, rest', Store(fields, i, slot, d))
  }

  /** Once `s1` is read without meeting a zero key, the loop over s1 ++ s2 goes on exactly as over s2. */
  lemma {:induction false} LoopConcat(fields: seq<Field>, s1: seq<byte>, s2: seq<byte>, d: Decoded)
    requires DecLoop(fields, s1, d).Ok? && !MeetsZeroKey(fields, s1, d)
    ensures DecLoop(fields, s1, d).rest == []
    ensures DecLoop(fields, s1 + s2, d) == DecLoop(fields, s2, DecLoop(fields, s1, d).value)
    decreases |s1|
  {
    hide DecTag, DecField, SkipField, FindField, Offset, Store;
    if s1 == [] {
      assert s1 + s2 == s2;
    } else {
      DecTagExt(s1, s2);
      var tag, wt, rest := DecTag(s1).value.tag, DecTag(s1).value.wt, DecTag(s1).rest;
      if FindField(fields, tag).None? {
        SkipFieldExt(wt, rest, s2);
        LoopConcat(fields, SkipField(wt, rest).rest, s2, d);
      } else {
        var i := FindField(fields, tag).value;
        var r := DecField(fields, fields[i], wt, rest, d.st[Offset(fields, i)]);
        DecFieldExt(fields, fields[i], wt, rest, d.st[Offset(fields, i)], s2);
        LoopConcat(fields, r.rest, s2, Store(fields, i, r.value, d));
      }
    }
  }

  predicate NoRequired(fields: seq<Field>) { forall i :: 0 <= i < |fields| ==> !fields[i].htype.Required? }

  lemma {:induction false} SeenUnused(fields: seq<Field>, b: seq<byte>, d: Decoded)
    requires NoRequired(fields)
    ensures DecLoop(fields, b, d).Ok? ==> DecLoop(fields, b, d).value.seen == d.seen
    decreases |b|
  {
    hide DecTag, DecField, SkipField, FindField, Offset;
    if b != [] && DecTag(b).Ok? && DecTag(b).value.Tag? {
      var tag, wt, rest := DecTag(b).value.tag, DecTag(b).value.wt, DecTag(b).rest;
      if FindField(fields, tag).None? {
        if SkipField(wt, rest).Ok? { SeenUnused(fields, SkipField(wt, rest).rest, d); }
      } else {
        var i := FindField(fields, tag).value;
        if Offset(fields, i) in d.st {
          var r := DecField(fields, fields[i], wt, rest, d.st[Offset(fields, i)]);
          if r.Ok? { SeenUnused(fields, r.rest, Store(fields, i, r.value, d)); }
        }
      }
    }
  }

  /** pb_decode_noinit of s1 ++ s2 is pb_decode_noinit of s1 and then of s2, into the same struct. */
  lemma DecodeConcat(fields: seq<Field>, s1: seq<byte>, s2: seq<byte>, st: Struct)
    requires NoRequired(fields)
    requires DecMessage(fields, s1, st).Ok? && !MeetsZeroKey(fields, s1, Decoded(st, {}))
    ensures DecMessage(fields, s1 + s2, st) == DecMessage(fields, s2, DecMessage(fields, s1, st).value)
  {
    hide DecLoop, MeetsZeroKey;
    LoopConcat(fields, s1, s2, Decoded(st, {}));
    SeenUnused(fields, s1, Decoded(st, {}));
  }

  // ---------------------------------------------------------------- unknown fields

  /** A key that names no field of the message, followed by one well-formed value of its wire type. */
  predicate UnknownField(fields: seq<Field>, u: seq<byte>)
  {
    && u != [] && DecTag(u).Ok? && DecTag(u).value.Tag?
    && (fields == [] ==> DecTag(u).value.tag != 0)
    && FindField(fields, DecTag(u).value.tag).None?
    && SkipField(DecTag(u).value.wt, DecTag(u).rest) == Ok((), [])
  }

  lemma UnknownSkipped(fields: seq<Field>, u: seq<byte>, s: seq<byte>, d: Decoded)
    requires UnknownField(fields, u)
    ensures DecLoop(fields, u + s, d) == DecLoop(fields, s, d)
  {
    hide DecTag, DecField, SkipField, FindField, Offset;
    DecTagExt(u, s);
    SkipFieldExt(DecTag(u).value.wt, DecTag(u).rest, s);
    assert [] + s == s;
  }

  /** An unknown field between two parts of a message changes nothing, required fields or not. */
  lemma UnknownInserted(fields: seq<Field>, s1: seq<byte>, u: seq<byte>, s2: seq<byte>, st: Struct)
    requires DecLoop(fields, s1, Decoded(st, {})).Ok? && !MeetsZeroKey(fields, s1, Decoded(st, {}))
    requires UnknownField(fields, u)
    ensures DecMessage(fields, s1 + u + s2, st) == DecMessage(fields, s1 + s2, st)
  {
    hide DecLoop, MeetsZeroKey, UnknownField;
    var d := DecLoop(fields, s1, Decoded(st, {})).value;
    assert s1 + u + s2 == s1 + (u + s2);
    LoopConcat(fields, s1, u + s2, Decoded(st, {}));
    LoopConcat(fields, s1, s2, Decoded(st, {}));
    UnknownSkipped(fields, u, s2, d);
  }
}
