/** The DTLS handshake receiver as it is in memory: a ring of fragments, each with its own buffer and mask. */
module DtlsReceiver {
  import opened BigEndianBytes
  import opened Common
  import opened DtlsReassembly
  import opened DtlsReceive
  import opened DtlsWire

  ghost predicate Represents(fr: HmFragment?, slot: Option<Partial>)
    reads if fr == null then {} else {fr, fr.data, fr.reassembly}
  {
    if fr == null then slot == None
    else fr.Valid() && slot == Some(Partial(fr.msgType, fr.seqNo, fr.msgLen, fr.Bytes()))
  }

  /** Two fragments share no storage. */
  ghost predicate Apart(a: HmFragment, b: HmFragment)
    reads a, b
  {
    && a != b && a.data != b.data && a.data != b.reassembly && b.data != a.reassembly
    && (a.reassembly != null ==> a.reassembly != b.reassembly)
  }

  class DtlsReceiver {
    const limit: nat                           // ssl_max_handshake_message_len
    const ring: array<HmFragment?>             // incoming_messages
    var readSeq: nat                           // handshake_read_seq
    var epoch: nat                             // r_epoch
    var hasMessage: bool
    ghost var repr: set<object>
    ghost var model: Receiver

    ghost predicate Owned(i: nat)
      requires i < ring.Length
      reads this, ring, ring[i]
    {
      ring[i] != null ==> ring[i] in repr && ring[i].data in repr && (ring[i].reassembly != null ==> ring[i].reassembly in repr)
    }

    ghost predicate Valid()
      reads this, repr
    {
      && this !in repr && ring in repr && ring.Length == FLIGHT
      && (forall i: nat :: i < FLIGHT ==> (ring[i] != null ==> ring[i] in repr) && Owned(i))
      && (forall i: nat, j: nat :: i < j < FLIGHT && ring[i] != null && ring[j] != null ==> Apart(ring[i], ring[j]))
      && |model.slots| == FLIGHT && WindowInv(model) && model.readSeq == readSeq && model.epoch == epoch && model.limit == limit
      && (forall i: nat :: i < FLIGHT ==> Represents(ring[i], model.slots[i]))
      && (hasMessage ==> Current(model).Some?)
    }

    constructor (limit: nat)
      ensures Valid() && fresh(repr) && model == Receiver(0, 0, limit, [None, None, None, None, None, None, None])
    {
      this.limit := limit;
      var r: array<HmFragment?> := new HmFragment?[FLIGHT](_ => null);
      ring := r;
      readSeq, epoch, hasMessage := 0, 0, false;
      repr := {r};
      model := Receiver(0, 0, limit, [None, None, None, None, None, None, None]);
    }

    /** dtls1_is_current_message_complete */
    method IsCurrentComplete() returns (complete: bool)
      requires Valid()
      ensures complete == Current(model).Some?
      ensures complete ==> ring[readSeq % FLIGHT] != null
    {
      var fr := ring[readSeq % FLIGHT];
      complete := fr != null && fr.reassembly == null;
      assert Represents(fr, model.slots[readSeq % FLIGHT]);
      if fr != null { CompleteIsNull(fr, model.slots[readSeq % FLIGHT].value); }
    }

    /** The fragment loop of dtls1_open_handshake, over the plaintext of one handshake record */
    method OpenHandshake(record: seq<byte>) returns (status: Status)
      requires Valid()
      modifies this, repr
      ensures Valid() && fresh(repr - old(repr)) && (model, status) == OpenRecord(old(model), record)
    {
      hide WindowInv, Deposit, Parse, Represents, Current;
      var cbs := record;
      while cbs != []
        invariant Valid() && fresh(repr - old(repr)) && OpenRecord(old(model), record) == OpenRecord(model, cbs)
        decreases |cbs|
      {
        var parsed := Parse(cbs);
        if parsed.None? {
          return Error(DecodeError);
        }
        SerializeOfParse(cbs);
        status := Receive(parsed.value.0);
        if status.Error? {
          return;
        }
        cbs := parsed.value.1;
      }
      return Ok;
    }

    /** dtls1_get_message: the current message, type and body, if it is complete */
    method GetMessage() returns (message: Option<(byte, seq<byte>)>)
      requires Valid()
      modifies this`hasMessage
      ensures Valid() && hasMessage == (message.Some? || old(hasMessage))
      ensures message == match Current(model) case None => None case Some(p) => Some((p.msgType, p.Body()))
    {
      hide WindowInv, HmFragment.Valid;
      var complete := IsCurrentComplete();
      if !complete {
        return None;
      }
      var fr := ring[readSeq % FLIGHT];
      assert Represents(fr, model.slots[readSeq % FLIGHT]);
      CompleteIsNull(fr, Current(model).value);
      var body := fr.data[HEADER_LENGTH..HEADER_LENGTH + fr.msgLen];
      assert body == fr.data[HEADER_LENGTH..];
      hasMessage := true;
      return Some((fr.msgType, body));
    }

    /** dtls1_next_message */
    method NextMessage()
      requires Valid() && hasMessage
      modifies this, ring
      ensures Valid() && !hasMessage && repr == old(repr) && model == Next(old(model))
    {
      hide WindowInv, Current, Represents;
      NextKeeps(model);
      var idx := readSeq % FLIGHT;
      ring[idx] := null;
      readSeq := (readSeq + 1) % TWO_16;
      hasMessage := false;
      model := Next(model);
      assert Represents(null, None) by { EmptyRepresents(); }
    }

    /** One round of the fragment loop of dtls1_open_handshake, with dtls1_get_incoming_message */
    method Receive(f: Fragment) returns (status: Status)
      requires Valid() && f.Valid()
      modifies this, repr
      ensures Valid() && fresh(repr - old(repr)) && (model, status) == Deposit(old(model), f)
    {
      hide WindowInv, Merge, Represents;
      var h := f.header;
      status := Ok;
      if h.fragOff + h.fragLen > h.msgLen || h.msgLen > limit {
        return Error(IllegalParameter);
      }
      if epoch == 1 && h.seqNo != readSeq {
        return Error(UnexpectedMessage);
      }
      if h.seqNo < readSeq || h.seqNo > readSeq + FLIGHT {
        return;                                // ignored
      }
      status := Insert(f);
    }

    /** dtls1_get_incoming_message, and the copy into its result */
    method Insert(f: Fragment) returns (status: Status)
      requires Valid() && f.Valid() && f.header.fragOff + f.header.fragLen <= f.header.msgLen <= limit
      requires readSeq <= f.header.seqNo <= readSeq + FLIGHT && (epoch == 1 ==> f.header.seqNo == readSeq)
      modifies this, repr
      ensures Valid() && fresh(repr - old(repr)) && (model, status) == Deposit(old(model), f)
    {
      hide WindowInv, Merge;
      var h := f.header;
      if h.seqNo - readSeq >= FLIGHT {
        return Error(InternalError);
      }
      var idx := h.seqNo % FLIGHT;
      var fr := ring[idx];
      ghost var slot := model.slots[idx];
      assert Represents(fr, slot);
      DepositKeeps(model, f);
      if fr != null {
        SlotMatches(model, h.seqNo);
        assert fr.seqNo == h.seqNo;
        if fr.msgType != h.msgType || fr.msgLen != h.msgLen {
          return Error(IllegalParameter);
        }
      } else {
        NewSlot(h);
      }
      ghost var rx := model;
      FillSlot(idx, f);
      assert model.slots == old(model).slots[idx := Some(Merge(rx.slots[idx].value, f))];
      return Ok;
    }

    /** The first fragment of a message gets an empty slot. */
    method NewSlot(h: Header)
      requires Valid() && h.Valid() && readSeq <= h.seqNo < readSeq + FLIGHT && ring[h.seqNo % FLIGHT] == null
      modifies this`model, this`repr, ring
      ensures Valid() && fresh(repr - old(repr)) && ring[h.seqNo % FLIGHT] != null && ring[h.seqNo % FLIGHT].msgLen == h.msgLen
      ensures model == old(model).(slots := old(model).slots[h.seqNo % FLIGHT := Some(Partial(h.msgType, h.seqNo, h.msgLen, map[]))])
    {
      hide Represents, WindowInv, Current;
      var idx := h.seqNo % FLIGHT;
      var fr := new HmFragment(h);
      ghost var p := Partial(h.msgType, h.seqNo, h.msgLen, map[]);
      NewRepresents(fr, p);
      OccupiedSlot(ring[idx], model.slots[idx]);
      NewInWindow(model, p);
      ring[idx] := fr;
      repr := repr + {fr, fr.data} + if fr.reassembly == null then {} else {fr.reassembly};
      model := model.(slots := model.slots[idx := Some(p)]);
    }

    /** The body of a fragment is copied and marked unless the message is already assembled. */
    method FillSlot(idx: nat, f: Fragment)
      requires Valid() && f.Valid() && idx < FLIGHT && ring[idx] != null && ring[idx].msgLen == f.header.msgLen
      requires f.header.fragOff + f.header.fragLen <= f.header.msgLen
      modifies this`model, repr
      ensures Valid() && repr == old(repr) && model.slots[idx].Some?
      ensures old(model).slots[idx].Some? && model == old(model).(slots := old(model).slots[idx := Some(Merge(old(model).slots[idx].value, f))])
    {
      hide WindowInv, Represents, Merge, Current;
      var fr := ring[idx];
      OccupiedSlot(fr, model.slots[idx]);
      ghost var p := model.slots[idx].value;
      FillFragment(fr, f, p);
      MergeInWindow(model, idx, f);
      model := model.(slots := model.slots[idx := Some(Merge(p, f))]);
    }
  }

  method FillFragment(fr: HmFragment, f: Fragment, ghost p: Partial)
    requires Represents(fr, Some(p)) && f.Valid() && fr.msgLen == f.header.msgLen
    requires f.header.fragOff + f.header.fragLen <= f.header.msgLen
    modifies fr, fr.data, fr.reassembly
    ensures Represents(fr, Some(Merge(p, f))) && (fr.reassembly == null || fr.reassembly == old(fr.reassembly))
  {
    hide HmFragment.Valid;
    CompleteIsNull(fr, p);
    if fr.reassembly != null {
      fr.Fill(f.header.fragOff, f.body);
    }
  }

  lemma OccupiedSlot(fr: HmFragment?, slot: Option<Partial>)
    requires Represents(fr, slot)
    ensures slot.Some? <==> fr != null
  {
  }

  lemma EmptyRepresents()
    ensures Represents(null, None)
  {
  }

  lemma NewRepresents(fr: HmFragment, p: Partial)
    requires fr.Valid() && fr.received == {} && p == Partial(fr.msgType, fr.seqNo, fr.msgLen, map[])
    ensures Represents(fr, Some(p))
  {
    assert fr.Bytes() == map[];
  }

  lemma NewInWindow(rx: Receiver, p: Partial)
    requires WindowInv(rx) && rx.readSeq <= p.seqNo < rx.readSeq + FLIGHT && p.seqNo < TWO_16
    requires rx.slots[p.seqNo % FLIGHT] == None
    ensures var rx' := rx.(slots := rx.slots[p.seqNo % FLIGHT := Some(p)]);
      WindowInv(rx') && (Current(rx).Some? ==> Current(rx').Some?)
  {
  }

  lemma MergeInWindow(rx: Receiver, idx: nat, f: Fragment)
    requires WindowInv(rx) && idx < FLIGHT && rx.slots[idx].Some?
    ensures var rx' := rx.(slots := rx.slots[idx := Some(Merge(rx.slots[idx].value, f))]);
      WindowInv(rx') && (Current(rx).Some? ==> Current(rx').Some?)
  {
  }

  /** A fragment without a mask is a complete message. */
  lemma CompleteIsNull(fr: HmFragment, p: Partial)
    requires fr.Valid() && p == Partial(fr.msgType, fr.seqNo, fr.msgLen, fr.Bytes())
    ensures p.Complete() <==> fr.reassembly == null
    ensures fr.data.Length == HEADER_LENGTH + fr.msgLen
    ensures p.Complete() ==> p.Body() == fr.data[HEADER_LENGTH..]
  {
    assert forall k: nat :: k in fr.Bytes() <==> k in fr.received;
    if p.Complete() {
      forall k: nat | k < fr.msgLen ensures k in fr.received { assert k in p.bytes; }
    }
    if fr.reassembly == null {
      forall k: nat | k < fr.msgLen ensures k in p.bytes { assert k in fr.received; }
    }
  }
}
