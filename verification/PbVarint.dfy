/** Integer wire formats of nanopb: base-128 varints, ZigZag, little-endian fixed words.
    Unsigned C operators are written arithmetically: `x & 0x7f` is `x % 128`, `x >> 7` is `x / 128`,
    a left shift keeps the low bits of the word, and `|` is the bitwise Or below. */
module PbVarint {
  import opened Bits
  import opened Common

  /** What reading a value from the front of a byte string gives. */
  datatype Parsed<+T> = Fail | Ok(value: T, rest: seq<byte>)

  // ---------------------------------------------------------------- encoding

  function EncVarint(v: nat): (r: seq<byte>)
    ensures |r| >= 1
  {
    if v < 128 then [v] else [128 + v % 128] + EncVarint(v / 128)
  }

  /** The ZigZag image of a signed 64-bit value (an unsigned 64-bit value). */
  function ZigZag(v: int): nat
    requires -TWO_63 <= v < TWO_63
  {
    var u := v % TWO_64;                 // (uint64_t)value
    var doubled := u * 2 % TWO_64;       // << 1
    if v < 0 then TWO_64 - 1 - doubled else doubled
  }

  function EncFixed(v: nat, n: nat): (r: seq<byte>)
    ensures |r| == n
  {
    if n == 0 then [] else [v % 256] + EncFixed(v / 256, n - 1)
  }

  // ---------------------------------------------------------------- decoding

  /** The loop of pb_decode_varint, entered with `bitpos` and `result`. */
  function VarintFrom(b: seq<byte>, bitpos: nat, result: nat): Parsed<nat>
  {
    if bitpos >= 64 || b == [] then Fail
    else
      var result' := Or(result, Shl64(b[0] % 128, bitpos));
      if b[0] >= 128 then VarintFrom(b[1..], bitpos + 7, result') else Ok(result', b[1..])
  }

  function DecVarint(b: seq<byte>): Parsed<nat> { VarintFrom(b, 0, 0) }

  /** The multi-byte loop of pb_decode_varint32_eof; `bitpos` is an 8-bit counter and wraps. */
  function Varint32From(b: seq<byte>, bitpos: nat, result: nat): Parsed<nat>
  {
    if b == [] then Fail
    else
      var payload := b[0] % 128;
      if bitpos >= 32 && payload != 0 && (result / TWO_31 == 0 || b[0] != (if bitpos < 63 then 0xFF else 0x01)) then Fail
      else
        var result' := if bitpos >= 32 then result else Or(result, Shl32(payload, bitpos));
        var bitpos' := (bitpos + 7) % 256;
        if b[0] >= 128 then Varint32From(b[1..], bitpos', result')
        else if bitpos' == 35 && payload / 16 != 0 then Fail
        else Ok(result', b[1..])
  }

  function DecVarint32(b: seq<byte>): Parsed<nat>
  {
    if b == [] then Fail
    else if b[0] < 128 then Ok(b[0], b[1..])
    else Varint32From(b[1..], 7, b[0] % 128)
  }

  function UnZigZag(u: nat): int
    requires u < TWO_64
  {
    if u % 2 == 1 then -(u / 2) - 1 else u / 2    // (int64_t)~(u >> 1) and (int64_t)(u >> 1)
  }

  function DecSvarint(b: seq<byte>): Parsed<int>
  {
    match DecVarint(b)
    case Fail => Fail
    case Ok(u, rest) => Ok(UnZigZag(u % TWO_64), rest)
  }

  function FixedValue(b: seq<byte>): nat
  {
    if b == [] then 0 else b[0] + 256 * FixedValue(b[1..])
  }

  function DecFixed(b: seq<byte>, n: nat): Parsed<nat>
  {
    if |b| < n then Fail else Ok(FixedValue(b[..n]), b[n..])
  }

  /** `(int32_t)value` of an unsigned 64-bit value. */
  function ToInt32(u: nat): int
  {
    var low := u % TWO_32;
    if low < TWO_31 then low else low - TWO_32
  }

  function ToInt64(u: nat): int
  {
    var low := u % TWO_64;
    if low < TWO_63 then low else low - TWO_64
  }

  // ---------------------------------------------------------------- round trips

  /** The next digit of `v` keeps the accumulator below its weight and leaves room for the rest. */
  lemma DigitStep(v: nat, bitpos: nat, acc: nat)
    requires acc < Pow2(bitpos) && Shl(v, bitpos) < TWO_64
    ensures Shl64(v % 128, bitpos) == Shl(v % 128, bitpos)
    ensures acc + Shl(v % 128, bitpos) < Pow2(bitpos + 7)
    ensures Shl(v % 128, bitpos) + Shl(v / 128, bitpos + 7) == Shl(v, bitpos)
    ensures v >= 128 ==> bitpos + 7 < 64
  {
    ShlAdd(v % 128, 128 * (v / 128), bitpos);
    Shl7(v / 128, bitpos);
    Shl7(1, bitpos);
    ShlMono(v % 128, 127, bitpos);
    ShlAdd(127, 1, bitpos);
    if v >= 128 {
      ShlMono(1, v / 128, bitpos + 7);
      Pow2Values();
      if bitpos + 7 >= 64 {
        Pow2Mono(64, bitpos + 7);
        assert false;
      }
    }
  }

  /** One byte of the pb_decode_varint loop with its continuation bit set. */
  lemma VarintMore(d: nat, tail: seq<byte>, bitpos: nat, acc: nat)
    requires d < 128 && bitpos < 64
    ensures VarintFrom([128 + d] + tail, bitpos, acc) == VarintFrom(tail, bitpos + 7, Or(acc, Shl64(d, bitpos)))
  {
    assert ([128 + d] + tail)[1..] == tail;
  }

  lemma VarintLast(d: nat, tail: seq<byte>, bitpos: nat, acc: nat)
    requires d < 128 && bitpos < 64
    ensures VarintFrom([d] + tail, bitpos, acc) == Ok(Or(acc, Shl64(d, bitpos)), tail)
  {
    assert ([d] + tail)[1..] == tail;
  }

  lemma EncMore(w: nat, rest: seq<byte>)
    requires w >= 128
    ensures EncVarint(w) + rest == [128 + w % 128] + (EncVarint(w / 128) + rest)
  {
  }

  lemma {:induction false} VarintFromEnc(v: nat, bitpos: nat, acc: nat, rest: seq<byte>)
    requires acc < Pow2(bitpos) && bitpos < 64 && Shl(v, bitpos) < TWO_64
    ensures VarintFrom(EncVarint(v) + rest, bitpos, acc) == Ok(acc + Shl(v, bitpos), rest)
    decreases v
  {
    hide VarintFrom, Or, Shl;
    DigitStep(v, bitpos, acc);
    OrDisjoint(acc, v % 128, bitpos);
    if v < 128 {
      ShlZero(bitpos + 7);
      VarintLast(v, rest, bitpos, acc);
    } else {
      EncMore(v, rest);
      VarintMore(v % 128, EncVarint(v / 128) + rest, bitpos, acc);
      VarintFromEnc(v / 128, bitpos + 7, acc + Shl(v % 128, bitpos), rest);
    }
  }

  lemma {:induction false} ShlZero(n: nat)
    ensures Shl(0, n) == 0
  {
    if n > 0 { ShlZero(n - 1); }
  }

  /** Every uint64 survives pb_encode_varint and pb_decode_varint, and what follows it is left alone. */
  lemma VarintRoundTrip(v: nat, rest: seq<byte>)
    requires v < TWO_64
    ensures DecVarint(EncVarint(v) + rest) == Ok(v, rest)
  {
    VarintFromEnc(v, 0, 0, rest);
  }

  /** Encoded length, as the number of 7-bit digits. */
  lemma {:induction false} EncVarintLength(v: nat, k: nat)
    requires k >= 1
    ensures |EncVarint(v)| <= k <==> v < Pow2(7 * k)
    decreases k
  {
    Pow2Values();
    if k > 1 {
      assert 7 * k == 7 * (k - 1) + 7;
      Shl7(1, 7 * (k - 1));
      ShlShl(1, 7, 7 * (k - 1));
      Pow2Of128(7 * (k - 1));
      if v < 128 {
        Pow2Mono(7, 7 * k);
      } else {
        EncVarintLength(v / 128, k - 1);
      }
    }
  }

  lemma {:induction false} Pow2Of128(n: nat)
    ensures Pow2(n + 7) == 128 * Pow2(n)
  {
    if n == 0 { Pow2Values(); } else { Pow2Of128(n - 1); }
  }

  /** A uint64 takes 1 to 10 bytes. */
  lemma VarintAtMostTenBytes(v: nat)
    requires v < TWO_64
    ensures 1 <= |EncVarint(v)| <= 10
  {
    Pow2Values();
    Pow2Mono(64, 70);
    EncVarintLength(v, 10);
  }

  lemma ShlDigitBound(d: nat, bitpos: nat)
    requires d < 128
    ensures Shl64(d, bitpos) <= Shl(d, bitpos) < Pow2(bitpos + 7)
  {
    Shl7(1, bitpos);
    ShlStrict(d, 128, bitpos);
  }

  /** An accepted varint of k bytes has a value below 2^(7k). */
  lemma {:induction false} VarintFromBound(b: seq<byte>, bitpos: nat, acc: nat)
    requires acc < Pow2(bitpos)
    requires VarintFrom(b, bitpos, acc).Ok?
    ensures var r := VarintFrom(b, bitpos, acc);
            |r.rest| < |b| && r.value < Pow2(bitpos + 7 * (|b| - |r.rest|))
    decreases |b|
  {
    var r := VarintFrom(b, bitpos, acc);
    var shifted := Shl64(b[0] % 128, bitpos);
    ShlDigitBound(b[0] % 128, bitpos);
    Pow2Mono(bitpos, bitpos + 7);
    OrBound(acc, shifted, bitpos + 7);
    if b[0] >= 128 {
      VarintFromBound(b[1..], bitpos + 7, Or(acc, shifted));
      assert bitpos + 7 + 7 * (|b[1..]| - |r.rest|) == bitpos + 7 * (|b| - |r.rest|);
    }
  }

  /** Whatever is accepted fits the word. */
  lemma {:induction false} VarintFromInWord(b: seq<byte>, bitpos: nat, acc: nat)
    requires acc < TWO_64
    ensures VarintFrom(b, bitpos, acc).Ok? ==> VarintFrom(b, bitpos, acc).value < TWO_64
    decreases |b|
  {
    if bitpos < 64 && b != [] {
      var shifted := Shl64(b[0] % 128, bitpos);
      Pow2Values();
      OrBound(acc, shifted, 64);
      if b[0] >= 128 { VarintFromInWord(b[1..], bitpos + 7, Or(acc, shifted)); }
    }
  }

  /** The encoding is minimal: whatever pb_decode_varint accepts as `v` is at least as long. */
  lemma VarintMinimal(b: seq<byte>, v: nat, rest: seq<byte>)
    requires DecVarint(b) == Ok(v, rest)
    ensures |EncVarint(v)| <= |b| - |rest|
  {
    VarintFromBound(b, 0, 0);
    EncVarintLength(v, |b| - |rest|);
  }

  // ---------------------------------------------------------------- 32-bit varints

  predicate IsDigitPos(bitpos: nat) { bitpos == 7 || bitpos == 14 || bitpos == 21 || bitpos == 28 }

  lemma Shl28(x: nat)
    ensures Shl(x, 28) == 0x1000_0000 * x
  {
    ShlShl(x, 7, 7); ShlShl(x, 14, 7); ShlShl(x, 21, 7);
    Shl7(x, 0); Shl7(128 * x, 0); Shl7(0x4000 * x, 0); Shl7(0x20_0000 * x, 0);
  }

  lemma ShlSmall(d: nat, bitpos: nat)
    requires d < 128 && bitpos <= 21
    ensures Shl32(d, bitpos) == Shl(d, bitpos)
  {
    ShlDigitBound(d, bitpos);
    Pow2Mono(bitpos + 7, 28);
    Pow2Values();
  }

  /** One byte with its continuation bit set, below bit 32. */
  lemma Varint32More(d: nat, tail: seq<byte>, bitpos: nat, acc: nat)
    requires d < 128 && bitpos < 32
    ensures Varint32From([128 + d] + tail, bitpos, acc) == Varint32From(tail, bitpos + 7, Or(acc, Shl32(d, bitpos)))
  {
    assert ([128 + d] + tail)[1..] == tail;
  }

  /** A last byte below bit 32. */
  lemma Varint32Last(d: nat, tail: seq<byte>, bitpos: nat, acc: nat)
    requires d < 128 && bitpos < 32 && (bitpos == 28 ==> d < 16)
    ensures Varint32From([d] + tail, bitpos, acc) == Ok(Or(acc, Shl32(d, bitpos)), tail)
  {
    assert ([d] + tail)[1..] == tail;
  }

  lemma Shl32Small(x: nat, n: nat)
    requires Shl(x, n) < TWO_32
    ensures Shl32(x, n) == Shl(x, n)
  {
  }

  lemma Room32(w: nat, bitpos: nat)
    requires IsDigitPos(bitpos) && Shl(w, bitpos) < TWO_32
    ensures bitpos == 28 ==> w < 16
    ensures w >= 128 ==> IsDigitPos(bitpos + 7)
  {
    if bitpos == 28 { Shl28(w); }
  }

  /** The low digit of a value below 2^32 is not cut by the 32-bit word. */
  lemma Digit32(w: nat, bitpos: nat, acc: nat)
    requires acc < Pow2(bitpos) && Shl(w, bitpos) < TWO_32
    ensures Or(acc, Shl32(w % 128, bitpos)) == acc + Shl(w % 128, bitpos) < Pow2(bitpos + 7)
    ensures Shl(w % 128, bitpos) + Shl(w / 128, bitpos + 7) == Shl(w, bitpos)
  {
    ShlMono(w % 128, w, bitpos);
    Shl32Small(w % 128, bitpos);
    OrDisjoint(acc, w % 128, bitpos);
    DigitStep(w, bitpos, acc);
  }

  lemma {:induction false} Varint32FromEnc(w: nat, bitpos: nat, acc: nat, rest: seq<byte>)
    requires IsDigitPos(bitpos) && acc < Pow2(bitpos) && Shl(w, bitpos) < TWO_32
    ensures Varint32From(EncVarint(w) + rest, bitpos, acc) == Ok(acc + Shl(w, bitpos), rest)
    decreases w
  {
    hide Varint32From, Or, Shl;
    Digit32(w, bitpos, acc);
    Room32(w, bitpos);
    if w < 128 {
      Varint32Last(w, rest, bitpos, acc);
    } else {
      EncMore(w, rest);
      Varint32More(w % 128, EncVarint(w / 128) + rest, bitpos, acc);
      Varint32FromEnc(w / 128, bitpos + 7, acc + Shl(w % 128, bitpos), rest);
    }
  }

  lemma Varint32First(v: nat, rest: seq<byte>)
    requires v >= 128
    ensures DecVarint32(EncVarint(v) + rest) == Varint32From(EncVarint(v / 128) + rest, 7, v % 128)
  {
    hide Varint32From;
    assert EncVarint(v) == [128 + v % 128] + EncVarint(v / 128);
    hide EncVarint;
    assert (EncVarint(v) + rest)[1..] == EncVarint(v / 128) + rest;
  }

  /** Every uint32 survives pb_encode_varint and pb_decode_varint32. */
  lemma Varint32RoundTrip(v: nat, rest: seq<byte>)
    requires v < TWO_32
    ensures DecVarint32(EncVarint(v) + rest) == Ok(v, rest)
  {
    if v < 128 {
      assert (EncVarint(v) + rest)[1..] == rest;
    } else {
      Varint32First(v, rest);
      Shl7(v / 128, 0);
      Pow2Values();
      Varint32FromEnc(v / 128, 7, v % 128, rest);
    }
  }

  /** A sign-extension byte is accepted above bit 32 of a negative result and changes nothing. */
  lemma SignByte(tail: seq<byte>, bitpos: nat, acc: nat)
    requires TWO_31 <= acc < TWO_32 && 32 <= bitpos < 63
    ensures Varint32From([0xFF] + tail, bitpos, acc) == Varint32From(tail, bitpos + 7, acc)
  {
    assert ([0xFF] + tail)[1..] == tail;
  }

  lemma LastSignByte(rest: seq<byte>, acc: nat)
    requires TWO_31 <= acc < TWO_32
    ensures Varint32From([0x01] + rest, 63, acc) == Ok(acc, rest)
  {
    assert ([0x01] + rest)[1..] == rest;
  }

  /** The five bytes that sign-extend a negative int32 to 64 bits. */
  lemma SignExtensionTail(acc: nat, rest: seq<byte>)
    requires TWO_31 <= acc < TWO_32
    ensures Varint32From(EncVarint(0x1FFF_FFFF) + rest, 35, acc) == Ok(acc, rest)
  {
    hide Varint32From, EncVarint;
    SignDigits(rest);
    var last := [0x01] + rest;
    LastSignByte(rest, acc);
    SignByte(last, 56, acc);
    SignByte([0xFF] + last, 49, acc);
    SignByte([0xFF] + ([0xFF] + last), 42, acc);
    SignByte([0xFF] + ([0xFF] + ([0xFF] + last)), 35, acc);
  }

  lemma SignDigits(rest: seq<byte>)
    ensures EncVarint(0x1FFF_FFFF) + rest == [0xFF] + ([0xFF] + ([0xFF] + ([0xFF] + ([0x01] + rest))))
  {
    hide EncVarint;
    EncMore(0x1FFF_FFFF, rest);
    EncMore(0x3F_FFFF, rest);
    EncMore(0x7FFF, rest);
    EncMore(0xFF, rest);
    EncOne(rest);
  }

  lemma EncOne(rest: seq<byte>)
    ensures EncVarint(1) + rest == [0x01] + rest
  {
  }

  /** The byte at bit 28 of a sign-extended negative int32: only its low 4 bits land in the word. */
  lemma TopDigit(u: nat, acc: nat, rest: seq<byte>)
    requires acc < Pow2(28) && u / 16 == 0xFFFF_FFFF && u % 16 >= 8
    ensures Varint32From(EncVarint(u) + rest, 28, acc) == Ok(acc + Shl(u % 16, 28), rest)
  {
    hide Varint32From, EncVarint, Or;
    assert u / 128 == 0x1FFF_FFFF && u % 128 == 112 + u % 16;
    EncMore(u, rest);
    Shl28(u % 128); Shl28(u % 16);
    assert Shl32(u % 128, 28) == Shl(u % 16, 28);
    OrDisjoint(acc, u % 16, 28);
    Pow2Values();
    Varint32More(u % 128, EncVarint(u / 128) + rest, 28, acc);
    SignExtensionTail(acc + Shl(u % 16, 28), rest);
  }

  lemma {:induction false} SignExtendedFrom(u: nat, bitpos: nat, acc: nat, rest: seq<byte>)
    requires IsDigitPos(bitpos) && acc < Pow2(bitpos)
    requires TWO_64 - TWO_31 <= Shl(u, bitpos) < TWO_64
    ensures Varint32From(EncVarint(u) + rest, bitpos, acc) == Ok(acc + Shl(u, bitpos) - (TWO_64 - TWO_32), rest)
    decreases 28 - bitpos
  {
    hide Varint32From, Or, Shl;
    if bitpos == 28 {
      SignExtendedLast(u, acc, rest);
    } else {
      DigitStep(u, bitpos, acc);
      OrDisjoint(acc, u % 128, bitpos);
      ShlSmall(u % 128, bitpos);
      ShlLargeSource(u, bitpos);
      SignExtendedDigit(u, bitpos);
      EncMore(u, rest);
      Varint32More(u % 128, EncVarint(u / 128) + rest, bitpos, acc);
      SignExtendedFrom(u / 128, bitpos + 7, acc + Shl(u % 128, bitpos), rest);
    }
  }

  lemma SignExtendedLast(u: nat, acc: nat, rest: seq<byte>)
    requires acc < Pow2(28) && TWO_64 - TWO_31 <= Shl(u, 28) < TWO_64
    ensures Varint32From(EncVarint(u) + rest, 28, acc) == Ok(acc + Shl(u, 28) - (TWO_64 - TWO_32), rest)
  {
    Shl28(u); Shl28(u % 16);
    assert u / 16 == 0xFFFF_FFFF;
    TopDigit(u, acc, rest);
  }

  lemma ShlLargeSource(u: nat, bitpos: nat)
    requires bitpos <= 21 && Shl(u, bitpos) >= TWO_63
    ensures u >= 128
  {
    if u < 128 {
      ShlDigitBound(u, bitpos);
      Pow2Mono(bitpos + 7, 28);
      Pow2Values();
      assert false;
    }
  }

  /** Dropping the low digit keeps the value in the sign-extended range. */
  lemma SignExtendedDigit(u: nat, bitpos: nat)
    requires IsDigitPos(bitpos) && bitpos < 28 && TWO_64 - TWO_31 <= Shl(u, bitpos) < TWO_64
    ensures TWO_64 - TWO_31 <= Shl(u / 128, bitpos + 7) < TWO_64
  {
    Pow2Values();
    Shl7(u / 128, bitpos);
    ShlAs7(u, bitpos);
    ShlAs7(128 * (u / 128), bitpos);
  }

  lemma ShlAs7(x: nat, bitpos: nat)
    requires IsDigitPos(bitpos) && bitpos < 28
    ensures Shl(x, bitpos) == (if bitpos == 7 then 128 * x else if bitpos == 14 then 0x4000 * x else 0x20_0000 * x)
  {
    ShlShl(x, 7, 7); ShlShl(x, 14, 7);
    Shl7(x, 0); Shl7(128 * x, 0); Shl7(0x4000 * x, 0);
  }

  /** The 10-byte form of a negative int32 reads back, as 32 bits, to its two's complement. */
  lemma Varint32SignExtended(v: int, rest: seq<byte>)
    requires -TWO_31 <= v < 0
    ensures |EncVarint(v + TWO_64)| == 10
    ensures DecVarint32(EncVarint(v + TWO_64) + rest) == Ok(v + TWO_32, rest)
  {
    var u := v + TWO_64;
    hide Varint32From, DecVarint32, EncVarint;
    Varint32First(u, rest);
    Shl7(u / 128, 0);
    Pow2Values();
    SignExtendedFrom(u / 128, 7, u % 128, rest);
    SignExtendedLength(u);
  }

  lemma SignExtendedLength(u: nat)
    requires TWO_63 <= u < TWO_64
    ensures |EncVarint(u)| == 10
  {
    VarintAtMostTenBytes(u);
    EncVarintLength(u, 9);
    Pow2Values();
    assert Pow2(64) == 2 * Pow2(63);
  }

  lemma ZigZagRoundTrip(v: int)
    requires -TWO_63 <= v < TWO_63
    ensures ZigZag(v) < TWO_64 && UnZigZag(ZigZag(v)) == v
    ensures ZigZag(v) == if v >= 0 then 2 * v else -2 * v - 1
  {
    if v < 0 { assert v % TWO_64 == v + TWO_64; }
  }

  lemma UnZigZagRoundTrip(u: nat)
    requires u < TWO_64
    ensures -TWO_63 <= UnZigZag(u) < TWO_63 && ZigZag(UnZigZag(u)) == u
  {
    ZigZagRoundTrip(UnZigZag(u));
  }

  lemma SvarintRoundTrip(v: int, rest: seq<byte>)
    requires -TWO_63 <= v < TWO_63
    ensures DecSvarint(EncVarint(ZigZag(v)) + rest) == Ok(v, rest)
  {
    ZigZagRoundTrip(v);
    VarintRoundTrip(ZigZag(v), rest);
  }

  lemma {:induction false} Pow2Of256(n: nat)
    ensures Pow2(n + 8) == 256 * Pow2(n)
  {
    if n == 0 { Pow2Values(); } else { Pow2Of256(n - 1); }
  }

  lemma {:induction false} FixedRoundTrip(v: nat, n: nat, rest: seq<byte>)
    requires v < Pow2(8 * n)
    ensures DecFixed(EncFixed(v, n) + rest, n) == Ok(v, rest)
    decreases n
  {
    var b := EncFixed(v, n) + rest;
    assert b[..n] == EncFixed(v, n) && b[n..] == rest;
    if n > 0 {
      Pow2Of256(8 * (n - 1));
      FixedRoundTrip(v / 256, n - 1, []);
      var inner := EncFixed(v / 256, n - 1);
      assert inner + [] == inner && inner[..n - 1] == inner;
      assert b[..n][1..] == inner;
    }
  }
}
