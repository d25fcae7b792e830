/** pb_istream_t and the decoder that reads through it, proved against the readers of PbCodec.
    Destination storage is passed in and out as values. */
module PbDecode {
  import opened Bits
  import opened Common
  import opened PbVarint
  import opened PbDescriptor
  import opened PbCursor
  import opened PbCodec
  import opened PbSeen

  /** A reader reported `ok` and the value `v`, and left `rest` unread: that is what `p` says. */
  predicate Reads<T(==)>(p: Parsed<T>, ok: bool, v: T, rest: seq<byte>)
  {
    ok == p.Ok? && (ok ==> v == p.value && rest == p.rest)
  }

  /** A reader never moves the end of its stream outwards, and keeps it when it succeeds. */
  predicate Kept(end0: nat, end1: nat, ok: bool) { end1 <= end0 && (ok ==> end1 == end0) }

  /** A descriptor the decoder can walk and search, at every level. */
  ghost predicate Searchable(fields: seq<Field>)
    decreases fields, 1
  {
    UnionSizesAgree(fields) && DistinctTags(fields) && forall i :: 0 <= i < |fields| ==> SearchableField(fields[i])
  }

  ghost predicate SearchableField(f: Field)
    decreases f, 0
  {
    f.ltype.Submessage? ==> Searchable(f.ltype.fields)
  }

  /** pb_field_set_to_default for one field */
  method FieldDefault(f: Field, was: Slot) returns (slot: Slot)
    requires SearchableField(f)
    ensures slot == DefaultSlot(f, was)
    decreases f, 1
  {
    hide SetDefaults;
    if f.htype.Repeated? {
      return Rep([]);
    } else if f.htype.OneOf? {
      return One(0, was.Content());
    }
    var v := ValueDefault(f, was.Content());
    if f.htype.Optional? && f.sizeOffset != 0 {
      return Opt(false, v);
    }
    return Single(v);
  }

  method ValueDefault(f: Field, was: Value) returns (v: Value)
    requires SearchableField(f)
    ensures v == DefaultValue(f, was)
    decreases f, 0
  {
    hide SetDefaults;
    if f.ltype.Submessage? {
      var m := SetToDefaults(f.ltype.fields, if was.Msg? then was.m else map[]);
      return Msg(m);
    }
    return f.dflt;
  }

  /** pb_message_set_to_defaults */
  method SetToDefaults(fields: seq<Field>, st: Struct) returns (st': Struct)
    requires Searchable(fields)
    ensures st' == SetDefaults(fields, st)
    decreases fields, 1
  {
    hide DefaultSlot, Offset, SearchableField;
    st' := st;
    var iter := new FieldIter(fields, 0);
    var more := iter.Begin();
    while more
      invariant iter.fields == fields && iter.dest == 0 && iter.At(iter.pos)
      invariant if more then iter.pos < |fields| && st' == SetDefaultsUpTo(fields, st, iter.pos) else st' == SetDefaults(fields, st)
      decreases more, |fields| - iter.pos
    {
      var slot := FieldDefault(fields[iter.pos], SlotAt(st', iter.pData));
      st' := st'[iter.pData := slot];
      more := iter.Next();
    }
  }

  class IStream {
    const buf: seq<byte>         // the message being read
    var state: nat               // index of the next byte in buf
    var bytesLeft: nat

    ghost predicate Valid()
      reads this
    {
      state + bytesLeft <= |buf|
    }

    ghost function Rest(): seq<byte>
      requires Valid()
      reads this
    {
      buf[state..state + bytesLeft]
    }

    ghost function End(): nat
      reads this
    {
      state + bytesLeft
    }

    /** pb_istream_from_buffer, and the copy that pb_make_string_substream makes */
    constructor (buf: seq<byte>, state: nat, size: nat)
      requires state + size <= |buf|
      ensures Valid() && this.buf == buf && this.state == state && bytesLeft == size
    {
      this.buf, this.state, bytesLeft := buf, state, size;
    }

    /** pb_readbyte */
    method ReadByte() returns (ok: bool, b: byte)
      requires Valid()
      modifies this
      ensures Valid() && End() == old(End()) && ok == (old(Rest()) != [])
      ensures ok ==> b == old(Rest())[0] && Rest() == old(Rest())[1..] && bytesLeft < old(bytesLeft)
    {
      if bytesLeft == 0 {
        return false, 0;
      }
      b := buf[state];
      state, bytesLeft := state + 1, bytesLeft - 1;
      ok := true;
    }

    /** pb_read into `dest[0..count)`; the loop is buf_read */
    method Read(dest: array<byte>, count: nat) returns (ok: bool)
      requires Valid() && count <= dest.Length
      modifies this, dest
      ensures Valid() && Kept(old(End()), End(), ok) && Reads(Take(old(Rest()), count), ok, dest[..count], Rest())
      ensures dest[count..] == old(dest[count..])
    {
      if bytesLeft < count {
        return false;
      }
      var source := state;
      state := state + count;
      for i := 0 to count
        invariant dest[..i] == buf[source..source + i] && dest[count..] == old(dest[count..])
        modifies dest
      {
        dest[i] := buf[source + i];
      }
      bytesLeft := bytesLeft - count;
      assert old(Rest())[..count] == buf[source..source + count] == dest[..count];
      return true;
    }

    /** pb_read with no destination */
    method Skip(count: nat) returns (ok: bool)
      requires Valid()
      modifies this
      ensures Valid() && End() == old(End()) && ok == (count <= |old(Rest())|)
      ensures ok ==> Rest() == old(Rest())[count..] && bytesLeft == old(bytesLeft) - count
    {
      if bytesLeft < count {
        return false;
      }
      state, bytesLeft := state + count, bytesLeft - count;
      return true;
    }

    /** pb_decode_varint32_eof */
    method DecodeVarint32() returns (ok: bool, value: nat)
      requires Valid()
      modifies this
      ensures Valid() && Kept(old(End()), End(), ok) && Reads(DecVarint32(old(Rest())), ok, value, Rest())
    {
      hide Or, Shl;
      var b;
      ok, b := ReadByte();
      if !ok || b < 128 {
        return ok, b;
      }
      var result: nat, bitpos: nat := b % 128, 7;
      var more := true;
      while more
        invariant Valid() && End() == old(End()) && (more ==> DecVarint32(old(Rest())) == Varint32From(Rest(), bitpos, result))
        invariant !more ==> DecVarint32(old(Rest())) == if bitpos == 35 && b % 128 / 16 != 0 then Fail else Ok(result, Rest())
        decreases more, bytesLeft
      {
        ok, b := ReadByte();
        if !ok {
          return false, 0;
        }
        if bitpos >= 32 {
          var signExtension := if bitpos < 63 then 0xFF else 0x01;
          if b % 128 != 0 && (result / TWO_31 == 0 || b != signExtension) {
            return false, 0;
          }
        } else {
          result := Or(result, Shl32(b % 128, bitpos));
        }
        bitpos := (bitpos + 7) % 256;          // uint_fast8_t
        more := b >= 128;
      }
      if bitpos == 35 && b % 128 / 16 != 0 {
        return false, 0;
      }
      return true, result;
    }

    /** pb_decode_varint */
    method DecodeVarint() returns (ok: bool, value: nat)
      requires Valid()
      modifies this
      ensures Valid() && Kept(old(End()), End(), ok) && Reads(DecVarint(old(Rest())), ok, value, Rest())
    {
      hide Or, Shl64;
      var bitpos: nat := 0;
      value := 0;
      var more := true;
      while more
        invariant Valid() && End() == old(End()) && DecVarint(old(Rest())) == if more then VarintFrom(Rest(), bitpos, value) else Ok(value, Rest())
        decreases more, bytesLeft
      {
        if bitpos >= 64 {
          return false, 0;
        }
        var b;
        ok, b := ReadByte();
        if !ok {
          return false, 0;
        }
        value := Or(value, Shl64(b % 128, bitpos));
        bitpos := bitpos + 7;
        more := b >= 128;
      }
      ok := true;
    }

    /** pb_decode_tag on a stream with bytes left */
    method DecodeTag() returns (ok: bool, tag: nat, wt: nat, eof: bool)
      requires Valid() && bytesLeft > 0
      modifies this
      ensures Valid() && Kept(old(End()), End(), ok || eof) && !(ok && eof)
      ensures DecTag(old(Rest())) == if ok then Ok(Tag(tag, wt), Rest()) else if eof then Ok(Eof, Rest()) else Fail
      ensures ok ==> bytesLeft < old(bytesLeft)
    {
      hide DecVarint32;
      DecVarint32Shorter(Rest());
      var temp;
      ok, temp := DecodeVarint32();
      if !ok {
        return false, 0, 0, false;
      }
      if temp == 0 {
        return false, 0, 0, true;
      }
      return true, temp / 8, temp % 8, false;
    }

    /** pb_skip_varint */
    method DoSkipVarint() returns (ok: bool)
      requires Valid()
      modifies this
      ensures Valid() && Kept(old(End()), End(), ok) && Reads(SkipVarint(old(Rest())), ok, (), Rest())
    {
      var b := 0x80;
      while b >= 128
        invariant Valid() && End() == old(End()) && SkipVarint(old(Rest())) == if b >= 128 then SkipVarint(Rest()) else Ok((), Rest())
        decreases b >= 128, bytesLeft
      {
        ok, b := ReadByte();
        if !ok {
          return false;
        }
      }
      ok := true;
    }

    /** pb_skip_field, with pb_skip_string */
    method DoSkipField(wt: nat) returns (ok: bool)
      requires Valid()
      modifies this
      ensures Valid() && Kept(old(End()), End(), ok) && Reads(SkipField(wt, old(Rest())), ok, (), Rest())
    {
      hide SkipVarint, DecVarint32;
      if wt == WT_VARINT {
        ok := DoSkipVarint();
      } else if wt == WT_64BIT {
        ok := Skip(8);
      } else if wt == WT_STRING {
        var length;
        ok, length := DecodeVarint32();
        if !ok {
          return;
        }
        ok := Skip(length);
      } else if wt == WT_32BIT {
        ok := Skip(4);
      } else {
        ok := false;
      }
    }

    /** pb_make_string_substream: the substream covers the delimited bytes; this stream gives them up but
        still stands before them until the substream is closed. */
    method MakeSubstream() returns (ok: bool, sub: IStream)
      requires Valid()
      modifies this
      ensures Valid() && End() <= old(End()) && ok == DecDelimited(old(Rest())).Ok?
      ensures ok ==> fresh(sub) && sub.Valid() && sub.buf == buf && sub.Rest() == DecDelimited(old(Rest())).value
      ensures ok ==> sub.End() + bytesLeft == old(End())
      ensures ok ==> buf[sub.End()..sub.End() + bytesLeft] == DecDelimited(old(Rest())).rest
    {
      hide DecVarint32;
      var size;
      ok, size := DecodeVarint32();
      if !ok || bytesLeft < size {
        ok, sub := false, this;
        return;
      }
      ghost var rest := Rest();
      sub := new IStream(buf, state, size);
      bytesLeft := bytesLeft - size;
      assert rest[..size] == sub.Rest() && rest[size..] == buf[state + size..state + size + bytesLeft];
    }

    /** pb_close_string_substream: skip what is left of the substream and continue after it. */
    method CloseSubstream(sub: IStream) returns (ok: bool)
      requires sub != this && sub.Valid() && sub.buf == buf && sub.End() + bytesLeft <= |buf|
      modifies this, sub
      ensures ok && Valid() && bytesLeft == old(bytesLeft) && state == old(sub.End())
    {
      if sub.bytesLeft > 0 {
        ok := sub.Skip(sub.bytesLeft);
        assert ok;
      }
      state := sub.state;
      ok := true;
    }

    /** pb_dec_varint, pb_dec_uvarint, pb_dec_svarint */
    method DecodeInteger(f: Field) returns (ok: bool, v: Value)
      requires Valid()
      modifies this
      ensures Valid() && Kept(old(End()), End(), ok) && Reads(DecInteger(f, old(Rest())), ok, v, Rest())
    {
      hide VarintFrom, ToInt32, ToInt64, UnZigZag, FitsSigned, FitsUnsigned;
      VarintFromInWord(Rest(), 0, 0);
      var u;
      ok, u := DecodeVarint();
      v := Int(0);
      if !ok {
        return;
      }
      if f.ltype.Varint? {
        // Fields of at most 32 bits accept a negative value sign-extended from 32 bits.
        var s := if f.dataSize == 8 then ToInt64(u) else ToInt32(u);
        ok, v := FitsSigned(s, f.dataSize), Int(s);
      } else if f.ltype.Uvarint? {
        ok, v := FitsUnsigned(u, f.dataSize), Int(u);
      } else {
        var s := UnZigZag(u);
        ok, v := FitsSigned(s, f.dataSize), Int(s);
      }
    }

    /** pb_decode_fixed32 and pb_decode_fixed64 */
    method DecodeFixed(n: nat) returns (ok: bool, value: nat)
      requires Valid()
      modifies this
      ensures Valid() && Kept(old(End()), End(), ok) && Reads(DecFixed(old(Rest()), n), ok, value, Rest())
    {
      var bytes := new byte[n];
      ok := Read(bytes, n);
      value := 0;
      if !ok {
        return;
      }
      for i := n downto 0
        invariant value == FixedValue(bytes[i..n])
      {
        assert bytes[i..n] == [bytes[i]] + bytes[i + 1..n];
        value := bytes[i] + 256 * value;
      }
      assert bytes[0..n] == bytes[..n];
    }

    /** pb_dec_bytes, pb_dec_string, pb_dec_fixed_length_bytes */
    method DecodeData(f: Field) returns (ok: bool, v: Value)
      requires Valid() && (f.ltype.Bytes? || f.ltype.String? || f.ltype.FixedLengthBytes?)
      modifies this
      ensures Valid() && Kept(old(End()), End(), ok) && Reads(DecData(f, old(Rest())), ok, v, Rest())
    {
      hide DecVarint32, CString;
      var size;
      ok, size := DecodeVarint32();
      v := Data([]);
      if !ok {
        return;
      }
      match f.ltype {
        case FixedLengthBytes =>
          if size == 0 {
            v := Data(seq(f.dataSize, _ => 0));
            return;
          }
          if size != f.dataSize {
            return false, v;
          }
        case Bytes =>
          if size + BYTES_HEADER > f.dataSize {
            return false, v;
          }
        case _ =>
          if size + 1 > f.dataSize {           // space for the terminator
            return false, v;
          }
      }
      var dest := new byte[size];
      ok := Read(dest, size);
      v := Data(if f.ltype.String? then CString(dest[..size]) else dest[..size]);
    }

    /** The field decoders pb_dec_*; `cur` is what the destination holds. */
    method DecodeValue(f: Field, cur: Value) returns (ok: bool, v: Value)
      requires Valid() && SearchableField(f)
      modifies this
      ensures Valid() && Kept(old(End()), End(), ok) && Reads(DecValue(f, old(Rest()), cur), ok, v, Rest())
      decreases f, 0
    {
      hide DecInteger, DecData, DecFixed, DecDelimited, DecMessage, Searchable;
      match f.ltype
      case Varint | Uvarint | Svarint => ok, v := DecodeInteger(f);
      case Fixed32 =>
        var i;
        ok, i := DecodeFixed(4);
        v := Int(i);
      case Fixed64 =>
        var i;
        ok, i := DecodeFixed(8);
        v := Int(i);
      case Bytes | String | FixedLengthBytes => ok, v := DecodeData(f);
      case Submessage(sub) => ok, v := DecodeSubmessage(sub, cur);
    }

    /** pb_dec_submessage into a struct that holds `cur` */
    method DecodeSubmessage(fields: seq<Field>, cur: Value) returns (ok: bool, v: Value)
      requires Valid() && Searchable(fields)
      modifies this
      ensures Valid() && Kept(old(End()), End(), ok) && Reads(DecSubmessage(fields, old(Rest()), cur), ok, v, Rest())
      decreases fields, 4
    {
      hide DecDelimited, DecMessage, Searchable;
      var sub;
      v := cur;
      ok, sub := MakeSubstream();
      if !ok || !cur.Msg? {
        return false, v;
      }
      var m;
      ok, m := sub.PbDecodeNoinit(fields, cur.m);
      var closed := CloseSubstream(sub);
      ok := closed && ok;
      v := Msg(m);
    }

    /** The packed branch of decode_static_field, on its substream */
    method DecodePacked(f: Field, items: seq<Value>) returns (ok: bool, items': seq<Value>)
      requires Valid() && SearchableField(f)
      modifies this
      ensures Valid() && Kept(old(End()), End(), ok) && Reads(DecPacked(f, old(Rest()), items), ok, items', Rest())
      decreases f, 1, 0
    {
      hide DecValue, SearchableField;
      items' := items;
      while bytesLeft > 0 && |items'| < f.arraySize
        invariant Valid() && End() == old(End()) && DecPacked(f, old(Rest()), items) == DecPacked(f, Rest(), items')
        decreases bytesLeft
      {
        ghost var b := Rest();
        var v;
        ok, v := DecodeValue(f, f.dflt);
        if !ok {
          return;
        }
        items' := items' + [v];
      }
      ok := bytesLeft == 0;
    }

    /** decode_field: release a union that holds another member, then decode_static_field. */
    method DecodeOneField(fields: seq<Field>, f: Field, wt: nat, slot: Slot) returns (ok: bool, slot': Slot)
      requires Valid() && SearchableField(f) && DistinctTags(fields) && UnionSizesAgree(fields) && fields != []
      modifies this
      ensures Valid() && Kept(old(End()), End(), ok) && Reads(DecField(fields, f, wt, old(Rest()), slot), ok, slot', Rest())
      decreases f, 2
    {
      hide DecValue, DecPacked, DecDelimited, DefaultValue, SearchableField, FindField;
      slot' := slot;
      var v;
      match (f.htype, slot) {
        case (Required, Single(cur)) =>
          ok, v := DecodeValue(f, cur);
          slot' := Single(v);
        case (Optional, Opt(_, cur)) =>
          if f.sizeOffset == 0 { return false, slot'; }
          ok, v := DecodeValue(f, cur);
          slot' := Opt(true, v);
        case (Optional, Single(cur)) =>
          if f.sizeOffset != 0 { return false, slot'; }
          ok, v := DecodeValue(f, cur);
          slot' := Single(v);
        case (Repeated, Rep(items)) =>
          if wt == WT_STRING && f.ltype.Packable() {
            ok, slot' := DecodePackedField(f, items);
          } else {
            if |items| >= f.arraySize { return false, slot'; }
            v := ValueDefault(f, Int(0));
            ok, v := DecodeValue(f, v);
            slot' := Rep(items + [v]);
          }
        case (OneOf, One(which, cur)) =>
          if which != 0 && which != f.tag {
            var iter := new FieldIter(fields, 0);
            var found := iter.Find(which);
            if !found { return false, slot'; }
          }
          v := cur;
          if f.ltype.Submessage? {
            v := ValueDefault(f, Int(0));
          }
          ok, v := DecodeValue(f, v);
          slot' := One(f.tag, v);
        case _ => ok := false;
      }
    }

    /** The packed branch: a substream, its loop, and closing it. */
    method DecodePackedField(f: Field, items: seq<Value>) returns (ok: bool, slot: Slot)
      requires Valid() && SearchableField(f)
      modifies this
      ensures Valid() && Kept(old(End()), End(), ok)
      ensures Reads(match DecDelimited(old(Rest()))
                    case Fail => Fail
                    case Ok(body, rest) => (match DecPacked(f, body, items) case Fail => Fail case Ok(items', _) => Ok(Rep(items'), rest)),
                    ok, slot, Rest())
      decreases f, 1, 1
    {
      hide DecPacked, DecDelimited, SearchableField;
      var sub;
      slot := Rep(items);
      ok, sub := MakeSubstream();
      if !ok {
        return;
      }
      var items';
      ok, items' := sub.DecodePacked(f, items);
      slot := Rep(items');
      if !ok {
        return;
      }
      ok := CloseSubstream(sub);
    }

    /** pb_decode_noinit */
    method PbDecodeNoinit(fields: seq<Field>, st: Struct) returns (ok: bool, st': Struct)
      requires Valid() && Searchable(fields)
      modifies this
      ensures Valid() && Kept(old(End()), End(), ok) && Reads(DecMessage(fields, old(Rest()), st), ok, st', Rest())
      decreases fields, 3
    {
      hide DecTag, DecField, FindField, SkipField, DecLoop, Offset, RequiredSeen, SearchableField, Or, Pow2, Tracks, WordsComplete, UnionSizesAgree;
      var fieldsSeen := new nat[2] [0, 0];
      ghost var seen: set<nat> := {};
      NothingSeen(fields);
      assert fieldsSeen[..] == [0, 0];
      st' := st;
      var iter := new FieldIter(fields, 0);
      var eof := false;
      while bytesLeft > 0 && !eof
        invariant Valid() && End() == old(End()) && fresh(iter) && iter.fields == fields && iter.dest == 0 && iter.At(iter.pos)
        invariant fieldsSeen.Length == 2 && fresh(fieldsSeen) && Tracks(fields, seen, fieldsSeen[..])
        invariant DecLoop(fields, old(Rest()), Decoded(st, {})) == if eof then Ok(Decoded(st', seen), Rest()) else DecLoop(fields, Rest(), Decoded(st', seen))
        decreases !eof, bytesLeft
      {
        DecLoopStep(fields, Rest(), Decoded(st', seen));
        var tag, wt;
        ok, tag, wt, eof := DecodeTag();
        if !ok && !eof {
          return;
        }
        if !eof {
          var found := iter.Find(tag);
          if !found {
            ok := DoSkipField(wt);
            if !ok {
              return;
            }
          } else if fields == [] || iter.pData !in st' {
            return false, st';
          } else {
            if fields[iter.pos].htype.Required? {
              MarkSeen(fields, seen, fieldsSeen[..], iter.pos);
              seen := seen + {iter.pos};
              if iter.requiredIndex < MAX_REQUIRED_FIELDS {
                var k := iter.requiredIndex / 32;
                ghost var words := fieldsSeen[..];
                fieldsSeen[k] := Or(fieldsSeen[k], Pow2(iter.requiredIndex % 32));
                assert fieldsSeen[..] == words[k := Or(words[k], Pow2(iter.requiredIndex % 32))];
              }
            }
            var slot;
            ok, slot := DecodeOneField(fields, fields[iter.pos], wt, st'[iter.pData]);
            if !ok {
              return;
            }
            st' := st'[iter.pData := slot];
          }
        }
      }
      DecLoopDone(fields, Rest(), Decoded(st', seen));
      ok := CheckRequired(fields, iter, fieldsSeen, seen);
    }

    /** The required-field test at the end of pb_decode_noinit */
    static method CheckRequired(fields: seq<Field>, iter: FieldIter, words: array<nat>, ghost seen: set<nat>) returns (ok: bool)
      requires iter.fields == fields && iter.At(iter.pos) && words.Length == 2 && Tracks(fields, seen, words[..])
      modifies iter
      ensures ok == RequiredSeen(fields, seen)
    {
      hide RequiredSeen, Tracks, Pow2, UnionSizesAgree, RequiredBefore;
      var count := iter.CountRequired();
      if count > MAX_REQUIRED_FIELDS {
        count := MAX_REQUIRED_FIELDS;
      }
      CompleteIsSeen(fields, seen, words[..], count);
      for i := 0 to count / 32
        invariant forall k :: 0 <= k < i ==> words[..][k] == ALLBITS
      {
        if words[i] != ALLBITS {
          assert words[..][i] != ALLBITS;
          return false;
        }
      }
      ok := count % 32 != 0 ==> words[count / 32] == Pow2(count % 32) - 1;
    }

    /** pb_decode */
    method PbDecode(fields: seq<Field>, st: Struct) returns (ok: bool, st': Struct)
      requires Valid() && Searchable(fields)
      modifies this
      ensures Valid() && Kept(old(End()), End(), ok) && Reads(Decode(fields, old(Rest()), st), ok, st', Rest())
    {
      hide DecMessage, SetDefaults, Searchable;
      st' := SetToDefaults(fields, st);
      ok, st' := PbDecodeNoinit(fields, st');
    }
  }

  /** One round of the loop and what follows it. */
  function DecRound(fields: seq<Field>, b: seq<byte>, d: Decoded): Parsed<Decoded>
    requires b != []
  {
    match DecTag(b)
    case Fail => Fail
    case Ok(Eof, rest) => Ok(d, rest)
    case Ok(Tag(tag, wt), rest) =>
      if fields == [] && tag == 0 then Fail
      else
        match FindField(fields, tag)
        case None => (match SkipField(wt, rest) case Fail => Fail case Ok(_, rest') => DecLoop(fields, rest', d))
        case Some(i) =>
          if Offset(fields, i) !in d.st then Fail
          else
            match DecField(fields, fields[i], wt, rest, d.st[Offset(fields, i)])
            case Fail => Fail
            case Ok(slot, rest') => DecLoop(fields, rest', Store(fields, i, slot, d))
  }

  lemma DecLoopStep(fields: seq<Field>, b: seq<byte>, d: Decoded)
    requires b != []
    ensures DecLoop(fields, b, d) == DecRound(fields, b, d)
  {
  }

  lemma DecLoopDone(fields: seq<Field>, b: seq<byte>, d: Decoded)
    ensures b == [] ==> DecLoop(fields, b, d) == Ok(d, b)
  {
  }

  function DecSubmessage(fields: seq<Field>, b: seq<byte>, cur: Value): Parsed<Value>
  {
    match DecDelimited(b)
    case Fail => Fail
    case Ok(body, rest) =>
      if !cur.Msg? then Fail
      else match DecMessage(fields, body, cur.m) case Fail => Fail case Ok(m, _) => Ok(Msg(m), rest)
  }
}
