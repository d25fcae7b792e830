/** The DTLS handshake receiver as functions on values: fragments go into a ring of seven partial messages
    (RFC 6347 sections 4.2.2 and 4.2.3). */
module DtlsReceive {
  import opened BigEndianBytes
  import opened Common
  import opened DtlsReassembly
  import opened DtlsWire

  /** A message of which `bytes` has arrived, by position in the body. */
  datatype Partial = Partial(msgType: byte, seqNo: nat, len: nat, bytes: map<nat, byte>)
  {
    ghost predicate Complete() { forall k: nat :: k < len ==> k in bytes }

    /** The assembled body. */
    ghost function Body(): seq<byte>
      requires Complete()
    {
      seq(len, k requires 0 <= k < len => bytes[k])
    }
  }

  datatype Alert = DecodeError | IllegalParameter | UnexpectedMessage | InternalError
  datatype Status = Ok | Error(alert: Alert)

  /** handshake_read_seq, r_epoch, the longest message allowed, and incoming_messages. */
  datatype Receiver = Receiver(readSeq: nat, epoch: nat, limit: nat, slots: seq<Option<Partial>>)

  /** What holds in every run: the ring has seven slots, and slot i holds a message with number i mod 7 from
      the window that starts at handshake_read_seq. */
  ghost predicate WindowInv(rx: Receiver)
  {
    && |rx.slots| == FLIGHT && rx.readSeq < TWO_16
    && forall i :: 0 <= i < FLIGHT && rx.slots[i].Some? ==> InWindow(rx.readSeq, i, rx.slots[i].value)
  }

  predicate InWindow(readSeq: nat, i: nat, p: Partial)
  {
    p.seqNo % FLIGHT == i && readSeq <= p.seqNo < readSeq + FLIGHT && p.seqNo < TWO_16
  }

  ghost function Merge(p: Partial, f: Fragment): (r: Partial)
    ensures r.msgType == p.msgType && r.seqNo == p.seqNo && r.len == p.len
  {
    if p.Complete() then p else p.(bytes := p.bytes + Placed(f.header.fragOff, f.body))
  }

  /** One round of the fragment loop of dtls1_open_handshake, with dtls1_get_incoming_message. */
  ghost function Deposit(rx: Receiver, f: Fragment): (r: (Receiver, Status))
    requires |rx.slots| == FLIGHT
    ensures |r.0.slots| == FLIGHT && r.0.limit == rx.limit && r.0.epoch == rx.epoch
  {
    var h := f.header;
    if h.fragOff + h.fragLen > h.msgLen || h.msgLen > rx.limit then (rx, Error(IllegalParameter))
    else if rx.epoch == 1 && h.seqNo != rx.readSeq then (rx, Error(UnexpectedMessage))
    else if h.seqNo < rx.readSeq || h.seqNo > rx.readSeq + FLIGHT then (rx, Ok)
    else if h.seqNo - rx.readSeq >= FLIGHT then (rx, Error(InternalError))
    else
      var i := h.seqNo % FLIGHT;
      match rx.slots[i]
      case Some(p) =>
        if p.msgType != h.msgType || p.len != h.msgLen then (rx, Error(IllegalParameter))
        else (rx.(slots := rx.slots[i := Some(Merge(p, f))]), Ok)
      case None =>
        (rx.(slots := rx.slots[i := Some(Merge(Partial(h.msgType, h.seqNo, h.msgLen, map[]), f))]), Ok)
  }

  /** The fragment loop of dtls1_open_handshake over one record. */
  ghost function OpenRecord(rx: Receiver, record: seq<byte>): (r: (Receiver, Status))
    requires |rx.slots| == FLIGHT
    ensures |r.0.slots| == FLIGHT && r.0.limit == rx.limit && r.0.epoch == rx.epoch
    decreases |record|
  {
    if record == [] then (rx, Ok)
    else
      match Parse(record)
      case None => (rx, Error(DecodeError))
      case Some((f, rest)) =>
        var (rx', status) := Deposit(rx, f);
        if status.Error? then (rx', status) else OpenRecord(rx', rest)
  }

  /** The current message, if it is complete. */
  ghost function Current(rx: Receiver): (r: Option<Partial>)
    requires |rx.slots| == FLIGHT
    ensures r.Some? ==> r.value.Complete()
  {
    match rx.slots[rx.readSeq % FLIGHT]
    case None => None
    case Some(p) => if p.Complete() then Some(p) else None
  }

  /** dtls1_next_message */
  ghost function Next(rx: Receiver): Receiver
    requires |rx.slots| == FLIGHT
  {
    rx.(slots := rx.slots[rx.readSeq % FLIGHT := None], readSeq := (rx.readSeq + 1) % TWO_16)
  }

  // ---------------------------------------------------------------- the window

  lemma ResidueUnique(a: nat, b: nat, lo: nat)
    requires lo <= a < lo + FLIGHT && lo <= b < lo + FLIGHT && a % FLIGHT == b % FLIGHT
    ensures a == b
  {
  }

  /** The assertion of dtls1_get_incoming_message: an occupied slot holds the fragment's own message. */
  lemma SlotMatches(rx: Receiver, seqNo: nat)
    requires WindowInv(rx) && rx.readSeq <= seqNo < rx.readSeq + FLIGHT
    ensures var slot := rx.slots[seqNo % FLIGHT]; slot.Some? ==> slot.value.seqNo == seqNo
  {
    var slot := rx.slots[seqNo % FLIGHT];
    if slot.Some? { ResidueUnique(slot.value.seqNo, seqNo, rx.readSeq); }
  }

  lemma DepositKeeps(rx: Receiver, f: Fragment)
    requires WindowInv(rx) && f.Valid()
    ensures WindowInv(Deposit(rx, f).0)
  {
    hide Merge;
  }

  /** What the fragment does not agree with: a different type or length than the message's first fragment had. */
  ghost predicate Mismatch(rx: Receiver, h: Header)
  {
    exists p :: Some(p) in rx.slots && p.seqNo == h.seqNo && (p.msgType != h.msgType || p.len != h.msgLen)
  }

  /** The message that the number names. */
  ghost predicate Named(rx: Receiver, n: nat, p: Partial) { Some(p) in rx.slots && p.seqNo == n }

  /** When a fragment is refused, and with which alert; when it is passed over; and that nothing changes then. */
  lemma DepositRefuses(rx: Receiver, f: Fragment)
    requires WindowInv(rx)
    ensures
      var h, (rx', status) := f.header, Deposit(rx, f);
      var tooLong := h.fragOff + h.fragLen > h.msgLen || h.msgLen > rx.limit;
      var wrongEpoch := !tooLong && rx.epoch == 1 && h.seqNo != rx.readSeq;
      var ahead := h.seqNo - rx.readSeq;
      && (status == Error(UnexpectedMessage) <==> wrongEpoch)
      && (status == Error(InternalError) <==> !tooLong && !wrongEpoch && ahead == 7)
      && (status == Error(IllegalParameter) <==> tooLong || (!wrongEpoch && 0 <= ahead < 7 && Mismatch(rx, h)))
      && status != Error(DecodeError)
      && (status.Error? || ahead < 0 || ahead > 7 ==> rx' == rx)
  {
    hide Merge;
    var h := f.header;
    if rx.readSeq <= h.seqNo < rx.readSeq + 7 { SlotIsNamed(rx, h.seqNo); }
  }

  /** In the window, a message is in the slot of its number or in none. */
  lemma SlotIsNamed(rx: Receiver, n: nat)
    requires WindowInv(rx) && rx.readSeq <= n < rx.readSeq + FLIGHT
    ensures forall p :: Named(rx, n, p) <==> rx.slots[n % FLIGHT] == Some(p)
  {
    SlotMatches(rx, n);
    forall p | Named(rx, n, p) ensures rx.slots[n % FLIGHT] == Some(p) {
      var i :| 0 <= i < FLIGHT && rx.slots[i] == Some(p);
      assert InWindow(rx.readSeq, i, rx.slots[i].value);
    }
  }

  /** What has arrived of the message that the number names. */
  ghost function Arrived(rx: Receiver, n: nat): map<nat, byte>
    requires |rx.slots| == FLIGHT
  {
    if rx.slots[n % FLIGHT].Some? then rx.slots[n % FLIGHT].value.bytes else map[]
  }

  /** A fragment that is merged puts its bytes at their positions, unless the message was already complete; the rest of
      the message and all other messages stay as they are. */
  lemma DepositMerges(rx: Receiver, f: Fragment)
    requires WindowInv(rx) && f.Valid() && Deposit(rx, f).1.Ok? && 0 <= f.header.seqNo - rx.readSeq < 7
    ensures
      var h, rx', was := f.header, Deposit(rx, f).0, Arrived(rx, f.header.seqNo);
      var whole := forall k: nat :: k < h.msgLen ==> k in was;
      exists p ::
        && rx' == rx.(slots := rx.slots[h.seqNo % 7 := Some(p)])
        && p.msgType == h.msgType && p.seqNo == h.seqNo && p.len == h.msgLen
        && forall k: nat ::
             var put := !whole && h.fragOff <= k < h.fragOff + h.fragLen;
             && (k in p.bytes <==> put || k in was)
             && (k in p.bytes ==> p.bytes[k] == if put then f.body[k - h.fragOff] else was[k])
  {
    var h, rx', was := f.header, Deposit(rx, f).0, Arrived(rx, f.header.seqNo);
    SlotMatches(rx, h.seqNo);
    var p := rx'.slots[h.seqNo % FLIGHT].value;
    assert rx' == rx.(slots := rx.slots[h.seqNo % 7 := Some(p)]);
    var placed := Placed(h.fragOff, f.body);
    assert forall k: nat :: k in placed <==> h.fragOff <= k < h.fragOff + h.fragLen by { hide Deposit; }
    assert p.bytes == if forall k: nat :: k < h.msgLen ==> k in was then was else was + placed;
    hide Deposit, Merge, Placed, WindowInv, Arrived;
  }

  lemma {:induction false} OpenRecordKeeps(rx: Receiver, record: seq<byte>)
    requires WindowInv(rx)
    ensures WindowInv(OpenRecord(rx, record).0)
    decreases |record|
  {
    assert |rx.slots| == FLIGHT;
    hide WindowInv, Deposit, Parse;
    if record != [] && Parse(record).Some? {
      SerializeOfParse(record);
      var (f, rest) := Parse(record).value;
      DepositKeeps(rx, f);
      if Deposit(rx, f).1.Ok? { OpenRecordKeeps(Deposit(rx, f).0, rest); }
    }
  }

  /** Consuming the current message drops it and nothing else, also when handshake_read_seq wraps to 0. */
  lemma NextKeeps(rx: Receiver)
    requires WindowInv(rx) && Current(rx).Some?
    ensures WindowInv(Next(rx))
    ensures forall i :: 0 <= i < FLIGHT ==> Next(rx).slots[i] == if i == rx.readSeq % FLIGHT then None else rx.slots[i]
    ensures Current(rx).value.seqNo == rx.readSeq
  {
    hide Partial.Complete;
    var cur := rx.readSeq % FLIGHT;
    SlotMatches(rx, rx.readSeq);
    forall i | 0 <= i < FLIGHT && Next(rx).slots[i].Some? ensures InWindow(Next(rx).readSeq, i, rx.slots[i].value) {
      assert i != cur && InWindow(rx.readSeq, i, rx.slots[i].value);
    }
  }
}
