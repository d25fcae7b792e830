/** Reassembly of one DTLS handshake message: the byte-packed bit mask of hm_fragment. */
module DtlsReassembly {
  import opened Bits
  import opened Common
  import opened DtlsWire

  /** bit_range: the bits start..end of a byte, `~((1 << start) - 1) & ((1 << end) - 1)`. */
  function BitRange(start: nat, end: nat): (r: byte)
    requires end <= 8
  {
    ByteBound(end);
    Pow2Positive(start);
    AndNot(Pow2(end) - 1, Pow2(start) - 1)
  }

  lemma ByteBound(n: nat)
    requires n <= 8
    ensures 1 <= Pow2(n) <= 256 && Pow2(8) == 256
  {
    Pow2Positive(n);
    Pow2Values();
    Pow2Mono(n, 8);
  }

  lemma BitRangeBits(start: nat, end: nat, k: nat)
    requires end <= 8
    ensures TestBit(BitRange(start, end), k) <==> start <= k < end
  {
    hide TestBit, AndNot, Pow2;
    OnesExactly(end, k);
    OnesExactly(start, k);
    AndNotBits(Pow2(end) - 1, Pow2(start) - 1, k);
  }

  function OrByte(a: byte, b: byte): byte
  {
    ByteBound(8);
    OrBound(a, b, 8);
    Or(a, b)
  }

  /** Bit k of a mask. */
  predicate BitAt(mask: seq<byte>, k: nat)
    requires k < 8 * |mask|
  {
    TestBit(mask[k / 8], k % 8)
  }

  /** Byte q of the mask got exactly the bits of start..end that fall into it. */
  ghost predicate ByteMarked(before: byte, after: byte, q: nat, start: nat, end: nat)
  {
    forall j: nat :: j < 8 ==> (TestBit(after, j) <==> TestBit(before, j) || start <= 8 * q + j < end)
  }

  /** Or-ing in a bit range marks a byte. */
  lemma OrMarks(before: byte, q: nat, s: nat, e: nat, start: nat, end: nat)
    requires s == if start <= 8 * q then 0 else start - 8 * q
    requires e <= 8 && e == if 8 * q + 8 <= end then 8 else end - 8 * q
    ensures ByteMarked(before, OrByte(before, BitRange(s, e)), q, start, end)
  {
    hide TestBit, Or, BitRange;
    forall j: nat | j < 8
      ensures TestBit(OrByte(before, BitRange(s, e)), j) <==> TestBit(before, j) || start <= 8 * q + j < end
    {
      OrBits(before, BitRange(s, e), j);
      BitRangeBits(s, e, j);
    }
  }

  lemma AllMarks(before: byte, q: nat, start: nat, end: nat)
    requires start <= 8 * q && 8 * q + 8 <= end
    ensures ByteMarked(before, 0xff, q, start, end)
  {
    hide TestBit;
    forall j: nat | j < 8 ensures TestBit(0xff, j) { ByteBound(8); OnesExactly(8, j); }
  }

  /** Setting the bits start..end of a mask in place. */
  method MarkBits(mask: array<byte>, start: nat, end: nat)
    requires start < end <= 8 * mask.Length
    modifies mask
    ensures forall q :: 0 <= q < mask.Length ==> ByteMarked(old(mask[q]), mask[q], q, start, end)
  {
    hide ByteMarked, BitRange, Or, OrByte;
    ghost var b := mask[..];
    var first, last := start / 8, end / 8;
    if first == last {
      OrMarks(mask[first], first, start % 8, end % 8, start, end);
      mask[first] := OrByte(mask[first], BitRange(start % 8, end % 8));
    } else {
      OrMarks(mask[first], first, start % 8, 8, start, end);
      mask[first] := OrByte(mask[first], BitRange(start % 8, 8));
      for i := first + 1 to last
        invariant forall q :: first <= q < i ==> ByteMarked(b[q], mask[q], q, start, end)
        invariant forall q :: 0 <= q < first || i <= q < mask.Length ==> mask[q] == b[q]
      {
        AllMarks(b[i], i, start, end);
        mask[i] := 0xff;
      }
      if end % 8 != 0 {
        OrMarks(mask[last], last, 0, end % 8, start, end);
        mask[last] := OrByte(mask[last], BitRange(0, end % 8));
      }
    }
    forall q | 0 <= q < mask.Length && (q < first || q > last || (q == last && end % 8 == 0))
      ensures ByteMarked(b[q], mask[q], q, start, end)
    {
      Untouched(b[q], q, start, end);
    }
  }

  lemma Untouched(b: byte, q: nat, start: nat, end: nat)
    requires q < start / 8 || 8 * q >= end
    ensures ByteMarked(b, b, q, start, end)
  {
  }

  /** All bits below msgLen are set. */
  ghost predicate MaskFull(mask: seq<byte>, msgLen: nat)
    requires msgLen <= 8 * |mask|
  {
    forall k: nat :: k < msgLen ==> BitAt(mask, k)
  }

  /** The completeness test: whole bytes against 0xff, the rest against a bit range. Bits at or past msgLen
      are never set, so the comparison is exact. */
  method CheckFull(mask: array<byte>, msgLen: nat) returns (full: bool)
    requires mask.Length == (msgLen + 7) / 8
    requires forall k: nat :: msgLen <= k < 8 * mask.Length ==> !BitAt(mask[..], k)
    ensures full == MaskFull(mask[..], msgLen)
  {
    hide TestBit, BitRange;
    for i := 0 to msgLen / 8
      invariant forall q :: 0 <= q < i ==> mask[q] == 0xff
    {
      if mask[i] != 0xff {
        WholeByte(mask[..], msgLen, i);
        return false;
      }
    }
    if msgLen % 8 != 0 && mask[msgLen / 8] != BitRange(0, msgLen % 8) {
      LastByte(mask[..], msgLen);
      return false;
    }
    AllBytes(mask[..], msgLen);
    return true;
  }

  lemma WholeByte(mask: seq<byte>, msgLen: nat, i: nat)
    requires |mask| == (msgLen + 7) / 8 && i < msgLen / 8 && mask[i] != 0xff
    ensures !MaskFull(mask, msgLen)
  {
    hide TestBit;
    if MaskFull(mask, msgLen) {
      ByteBound(8);
      forall k: nat | k >= 8 ensures !TestBit(mask[i], k) { SmallBits(mask[i], 8, k); }
      forall k: nat | k < 8 ensures TestBit(mask[i], k) { assert BitAt(mask, 8 * i + k); }
      AllOnes(mask[i], 8);
    }
  }

  lemma LastByte(mask: seq<byte>, msgLen: nat)
    requires |mask| == (msgLen + 7) / 8 && msgLen % 8 != 0 && mask[msgLen / 8] != BitRange(0, msgLen % 8)
    requires forall k: nat :: msgLen <= k < 8 * |mask| ==> !BitAt(mask, k)
    ensures !MaskFull(mask, msgLen)
  {
    hide TestBit;
    if MaskFull(mask, msgLen) {
      var w, n := mask[msgLen / 8], msgLen % 8;
      ByteBound(8);
      forall k: nat | k >= n ensures !TestBit(w, k) {
        if k >= 8 { SmallBits(w, 8, k); } else { assert !BitAt(mask, msgLen / 8 * 8 + k); }
      }
      forall k: nat | k < n ensures TestBit(w, k) { assert BitAt(mask, msgLen / 8 * 8 + k); }
      AllOnes(w, n);
      AndNotZero(Pow2(n) - 1);
    }
  }

  lemma {:induction false} AndNotZero(a: nat)
    ensures AndNot(a, 0) == a
  {
    if a > 0 { AndNotZero(a / 2); }
  }

  lemma AllBytes(mask: seq<byte>, msgLen: nat)
    requires |mask| == (msgLen + 7) / 8 && forall q :: 0 <= q < msgLen / 8 ==> mask[q] == 0xff
    requires msgLen % 8 != 0 ==> mask[msgLen / 8] == BitRange(0, msgLen % 8)
    ensures MaskFull(mask, msgLen)
  {
    hide TestBit, BitRange;
    forall k: nat | k < msgLen ensures BitAt(mask, k) {
      ByteBound(8);
      OnesExactly(8, k % 8);
      BitRangeBits(0, msgLen % 8, k % 8);
    }
  }

  // ---------------------------------------------------------------- one incoming message

  predicate Between(start: nat, k: nat, end: nat) { start <= k < end }

  ghost function Range(start: nat, end: nat): set<nat> { set k: nat | start <= k < end && Between(start, k, end) }

  /** The bytes of a fragment at their positions in the body. */
  ghost function Placed(off: nat, body: seq<byte>): map<nat, byte>
  {
    var end := off + |body|;
    map k: nat | off <= k < end && Between(off, k, end) :: body[k - off]
  }

  ghost predicate Covers(received: set<nat>, msgLen: nat) { forall k: nat :: k < msgLen ==> k in received }

  /** hm_fragment. `received` is the set of all body positions marked so far. */
  class HmFragment {
    const msgType: byte
    const seqNo: nat
    const msgLen: nat
    const data: array<byte>                    // header and body
    var reassembly: array?<byte>               // NULL once the message is complete
    ghost var received: set<nat>

    /** The mask is exactly the received set; it is NULL exactly when everything has been received. */
    ghost predicate Valid()
      reads this, reassembly
    {
      && data.Length == HEADER_LENGTH + msgLen
      && (forall k :: k in received ==> k < msgLen)
      && (reassembly == null <==> Covers(received, msgLen))
      && (reassembly != null ==>
            reassembly != data && reassembly.Length == (msgLen + 7) / 8
            && forall k: nat :: k < 8 * reassembly.Length ==> (BitAt(reassembly[..], k) <==> k in received))
    }

    /** The body bytes that have arrived. */
    ghost function Bytes(): map<nat, byte>
      requires Valid()
      reads this, data, reassembly
    {
      map k: nat | k in received :: data[HEADER_LENGTH + k]
    }

    /** dtls1_hm_fragment_new */
    constructor (h: Header)
      requires h.Valid()
      ensures Valid() && received == {} && msgType == h.msgType && seqNo == h.seqNo && msgLen == h.msgLen
      ensures fresh(data) && (reassembly != null ==> fresh(reassembly))
      ensures data[..HEADER_LENGTH] == SerializeHeader(h.(fragOff := 0, fragLen := h.msgLen))
    {
      msgType, seqNo, msgLen, received := h.msgType, h.seqNo, h.msgLen, {};
      var d := new byte[HEADER_LENGTH + h.msgLen];
      var bytes := SerializeHeader(h.(fragOff := 0, fragLen := h.msgLen));
      forall i | 0 <= i < HEADER_LENGTH { d[i] := bytes[i]; }
      data := d;
      var mask: array?<byte> := null;
      if h.msgLen > 0 {
        mask := new byte[(h.msgLen + 7) / 8](_ => 0);
      }
      reassembly := mask;
      new;
      assert data[..HEADER_LENGTH] == bytes;
      if reassembly != null {
        assert 0 !in received;
        forall k: nat | k < 8 * reassembly.Length ensures !BitAt(reassembly[..], k) { ZeroBits(k % 8); }
      }
    }

    /** Copying a piece of the body into place and marking it, as dtls1_open_handshake does. */
    method Fill(off: nat, body: seq<byte>)
      requires Valid() && reassembly != null && off + |body| <= msgLen
      modifies this, data, reassembly
      ensures Valid() && Bytes() == old(Bytes()) + Placed(off, body)
      ensures reassembly == null || reassembly == old(reassembly)
      ensures data[..HEADER_LENGTH] == old(data[..HEADER_LENGTH])
    {
      hide BitAt, Placed, Range, Covers;
      var at := HEADER_LENGTH + off;
      ghost var was := data[..];
      for i := 0 to |body|
        invariant data[..at] == was[..at] && data[at..at + i] == body[..i] && data[at + i..] == was[at + i..]
        modifies data
      {
        ghost var done := data[at..at + i];
        data[at + i] := body[i];
        assert data[at..at + i + 1] == done + [body[i]];
      }
      ghost var filled, before := data[..], received;
      Mark(off, off + |body|);
      FilledBytes(was, filled, before, off, body, msgLen);
      assert filled[..at][..HEADER_LENGTH] == was[..at][..HEADER_LENGTH];
    }

    /** dtls1_hm_fragment_mark */
    method Mark(start: nat, end: nat)
      requires Valid() && reassembly != null && start <= end <= msgLen
      modifies this, reassembly
      ensures Valid() && received == old(received) + Range(start, end)
      ensures reassembly == null || reassembly == old(reassembly)
    {
      hide BitAt, ByteMarked;
      if start == end {
        assert Range(start, end) == {};
        return;
      }
      ghost var b := reassembly[..];
      MarkBits(reassembly, start, end);
      received := received + Range(start, end);
      forall k: nat | k < 8 * reassembly.Length ensures BitAt(reassembly[..], k) <==> k in received {
        MarkedBit(b, reassembly[..], k, start, end);
      }
      var full := CheckFull(reassembly, msgLen);
      if full {
        reassembly := null;
      }
    }
  }

  lemma MarkedBit(before: seq<byte>, after: seq<byte>, k: nat, start: nat, end: nat)
    requires |before| == |after| && k < 8 * |before| && ByteMarked(before[k / 8], after[k / 8], k / 8, start, end)
    ensures BitAt(after, k) <==> BitAt(before, k) || start <= k < end
  {
    assert k == 8 * (k / 8) + k % 8;
  }

  lemma FilledByte(was: seq<byte>, filled: seq<byte>, at: nat, body: seq<byte>, i: nat)
    requires |filled| == |was| && at + |body| <= |was| && i < |was|
    requires filled[..at] == was[..at] && filled[at..at + |body|] == body && filled[at + |body|..] == was[at + |body|..]
    ensures filled[i] == if at <= i < at + |body| then body[i - at] else was[i]
  {
    if i < at {
      assert filled[..at][i] == was[..at][i];
    } else if i < at + |body| {
      assert filled[at..at + |body|][i - at] == body[i - at];
    } else {
      assert filled[at + |body|..][i - at - |body|] == was[at + |body|..][i - at - |body|];
    }
  }

  lemma FilledBytes(was: seq<byte>, filled: seq<byte>, received: set<nat>, off: nat, body: seq<byte>, msgLen: nat)
    requires |filled| == |was| == HEADER_LENGTH + msgLen && off + |body| <= msgLen
    requires forall k :: k in received ==> k < msgLen
    requires var at := HEADER_LENGTH + off;
      filled[..at] == was[..at] && filled[at..at + |body|] == body && filled[at + |body|..] == was[at + |body|..]
    ensures var received' := received + Range(off, off + |body|);
      (forall k :: k in received' ==> k < msgLen)
      && (map k: nat | k in received' :: filled[HEADER_LENGTH + k]) == (map k: nat | k in received :: was[HEADER_LENGTH + k]) + Placed(off, body)
  {
    var received' := received + Range(off, off + |body|);
    forall k: nat | k in received'
      ensures filled[HEADER_LENGTH + k] == if off <= k < off + |body| then body[k - off] else was[HEADER_LENGTH + k]
    {
      FilledByte(was, filled, HEADER_LENGTH + off, body, HEADER_LENGTH + k);
    }
  }
}
