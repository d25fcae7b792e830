/** The sender of DTLS handshake flights: packing fragments into packets of at most the MTU, rewinding after a
    transport failure, and retransmission (RFC 6347 sections 4.2.3 and 4.2.4). */
module DtlsSender {
  import opened BigEndianBytes
  import opened Common
  import opened DtlsPacking
  import opened DtlsTiling
  import opened DtlsWire

  const MIN_MTU: nat := 228                    // kMinMTU
  const DEFAULT_MTU: nat := 1472               // kDefaultMTU

  /** A packet handed to the transport and accepted by it. */
  datatype Packet = Packet(length: nat, mtu: nat, pieces: seq<Piece>)

  ghost function AllPieces(packets: seq<Packet>): seq<Piece>
  {
    if packets == [] then [] else AllPieces(packets[..|packets| - 1]) + packets[|packets| - 1].pieces
  }

  datatype SealResult = SealError | NoProgress | Partial | Success

  /** What becomes of one packet. */
  datatype Outcome = Accepted | NotTaken | NotSealed

  /** The result of seal_next_message is the planned one, given what sealing answers. */
  predicate Follows(plan: Planned, msgs: seq<Outgoing>, answer: Option<nat>, ret: SealResult, outLen: nat, piece: Piece, to: (nat, nat))
  {
    match plan
    case Refused => ret == SealError
    case NoRoom => ret == NoProgress
    case Try(p, bound) =>
      if answer.None? then ret == SealError
      else
        && (ret == Success || ret == Partial) && p == piece && outLen == answer.value <= bound
        && piece.index < |msgs| && to == After(msgs, piece) && (ret == Partial <==> to.0 == piece.index)
  }

  lemma FillFollows(msgs: seq<Outgoing>, keys: Keys, p: Packing, answer: Option<nat>, ret: SealResult, outLen: nat, piece: Piece, to: (nat, nat))
    requires p.status.Open? && p.at.0 < |msgs| && Follows(Plan(msgs, keys, p.at, p.room), msgs, answer, ret, outLen, piece, to)
    requires ret == SealError || ret == NoProgress ==> to == p.at
    requires ret == Success || ret == Partial ==> outLen <= p.room
    ensures Fill(msgs, keys, p, answer) ==
      match ret
      case SealError => p.(status := Broken)
      case NoProgress => p.(status := Full)
      case Partial => Packing(to, p.room - outLen, p.pieces + [piece], Full)
      case Success => Packing(to, p.room - outLen, p.pieces + [piece], Open)
  {
    hide After;
  }

  lemma PackNothing(msgs: seq<Outgoing>, keys: Keys, at: (nat, nat), mtu: nat)
    ensures Pack(msgs, keys, at, mtu, []) == Packing(at, mtu, [], Open)
  {
  }

  lemma PackOneMore(msgs: seq<Outgoing>, keys: Keys, at: (nat, nat), mtu: nat, answers: seq<Option<nat>>, answer: Option<nat>)
    ensures Pack(msgs, keys, at, mtu, answers + [answer]) == Fill(msgs, keys, Pack(msgs, keys, at, mtu, answers), answer)
  {
    hide Fill;
    assert (answers + [answer])[..|answers|] == answers;
  }

  lemma SendOneMore(msgs: seq<Outgoing>, keys: Keys, f: Flight, rounds: seq<Attempt>, a: Attempt)
    ensures SendAll(msgs, keys, f, rounds + [a]) == Send(msgs, keys, SendAll(msgs, keys, f, rounds), a)
  {
    hide Send;
    assert (rounds + [a])[..|rounds|] == rounds;
  }

  /** dtls_seal_record, whose cryptography may fail and whose output is at most the input plus the overhead. */
  method Seal(inLen: nat, aead: Aead) returns (outLen: Option<nat>)
    ensures outLen.Some? ==> outLen.value <= RECORD_HEADER + aead.maxOverhead + inLen
  {
    var ok: bool := *;
    var n: nat := *;
    outLen := if ok && n <= RECORD_HEADER + aead.maxOverhead + inLen then Some(n) else None;
  }

  /** BIO_write and BIO_flush: any result. */
  method Transport() returns (ret: int)
  {
    ret := *;
  }

  class DtlsSender {
    var msgs: seq<Outgoing>                    // outgoing_messages
    var written: nat                           // outgoing_written
    var offset: nat                            // outgoing_offset
    var complete: bool                         // outgoing_messages_complete
    var flightHasReply: bool
    var writeEpoch: nat
    var writeSeqNo: nat                        // handshake_write_seq
    var mtu: nat
    var shutdown: bool                         // write_shutdown != ssl_shutdown_none
    var aead: Aead                             // aead_write_ctx
    var lastAead: Aead                         // last_aead_write_ctx
    ghost var packets: seq<Packet>             // accepted by the transport since the last rewind to the start
    ghost var intact: bool                     // no sealed fragment has been lost to a sealing failure since then
    ghost var lost: nat                        // otherwise the message of the first one lost

    /** Every packet is at most its MTU. Unless a sealing failure lost part of a packet, the accepted pieces lead
        from the start of the flight to the current position; if one did, there is a gap in a message passed. */
    ghost predicate Valid()
      reads this
    {
      && |msgs| <= FLIGHT && Placed() && writeSeqNo < TWO_16 && writeEpoch < TWO_16
      && aead.Valid() && lastAead.Valid()
      && (forall p :: p in packets ==> p.length <= p.mtu)
      && if intact then Leads(msgs, (0, 0), AllPieces(packets), (written, offset)) else lost < written && Gap(msgs, AllPieces(packets), lost)
    }

    ghost function KeysNow(): Keys
      reads this
    {
      Keys(writeEpoch, aead, lastAead)
    }

    /** Where the flight stands. */
    ghost function Stands(): Flight
      reads this
    {
      Flight((written, offset), AllPieces(packets))
    }

    /** The position lies in the flight. */
    ghost predicate Placed()
      reads this
    {
      && written <= |msgs|
      && (written == |msgs| ==> offset == 0)
      && (written < |msgs| ==> offset <= |msgs[written].data| && (msgs[written].isCcs ==> offset == 0) && (offset > 0 ==> offset < BodyLength(msgs[written])))
    }

    constructor (aead: Aead)
      requires aead.Valid()
      ensures Valid() && msgs == [] && intact
    {
      msgs, written, offset, complete, flightHasReply := [], 0, 0, false, false;
      writeEpoch, writeSeqNo, mtu, shutdown := 0, 0, 0, false;
      this.aead, lastAead := aead, aead;
      packets, intact, lost := [], true, 0;
    }

    /** dtls_clear_outgoing_messages */
    method Clear()
      requires Valid()
      modifies this
      ensures Valid() && msgs == [] && written == 0 && offset == 0 && !complete && !flightHasReply && packets == [] && intact
      ensures writeSeqNo == old(writeSeqNo) && writeEpoch == old(writeEpoch) && mtu == old(mtu) && shutdown == old(shutdown)
      ensures aead == old(aead) && lastAead == old(lastAead)
    {
      msgs, written, offset, complete, flightHasReply := [], 0, 0, false, false;
      packets, intact := [], true;
    }

    /** add_outgoing: a message for the current flight, or for a new one if the flight was completed */
    method AddOutgoing(isCcs: bool, data: seq<byte>) returns (ok: bool)
      requires Valid()
      modifies this
      ensures Valid() && writeEpoch == old(writeEpoch)
      ensures var before := if old(complete) then [] else old(msgs);
        ok == (|before| < FLIGHT && |data| <= 0xFFFF_FFFF)
        && msgs == if ok then before + [Outgoing(isCcs, old(writeEpoch), data)] else before
      ensures writeSeqNo == if ok && !isCcs then (old(writeSeqNo) + 1) % TWO_16 else old(writeSeqNo)
      ensures !complete && (written, offset, packets, intact) == if old(complete) then (0, 0, [], true) else old((written, offset, packets, intact))
    {
      hide Leads;
      if complete {
        Clear();
      }
      if |msgs| >= FLIGHT || |data| > 0xFFFF_FFFF {
        return false;
      }
      if !isCcs {
        writeSeqNo := (writeSeqNo + 1) % TWO_16;
      }
      var msg := Outgoing(isCcs, writeEpoch, data);
      if intact {
        LeadsGrows(msgs, msg, (0, 0), AllPieces(packets), (written, offset));
      } else {
        GapGrows(msgs, msg, AllPieces(packets), lost);
      }
      msgs := msgs + [msg];
      return true;
    }

    /** seal_next_message into `maxOut` bytes: it does what is planned for the position, unless sealing fails, and
        moves the position over exactly the piece that was sealed. */
    method SealNextMessage(maxOut: nat) returns (ret: SealResult, outLen: nat, ghost piece: Piece, ghost answer: Option<nat>)
      requires Placed() && KeysNow().Valid() && written < |msgs|
      modifies this`offset
      ensures ret != Success ==> Placed()
      ensures ret == SealError || ret == NoProgress ==> offset == old(offset)
      ensures ret == Success || ret == Partial ==>
        outLen <= maxOut && Leads(msgs, (written, old(offset)), [piece], if ret == Success then (written + 1, 0) else (written, offset))
      ensures ret == Success ==> offset == 0
      ensures ret == Partial ==> old(offset) < offset
      ensures Follows(Plan(msgs, KeysNow(), (written, old(offset)), maxOut), msgs, answer, ret, outLen, piece,
                      if ret == Success then (written + 1, 0) else (written, offset))
    {
      hide Leads, Stored;
      ret, outLen, piece, answer := SealError, 0, Ccs(written), None;
      var msg := msgs[written];
      var use := aead;
      if writeEpoch >= 1 && msg.epoch == writeEpoch - 1 {
        use := lastAead;
      } else if msg.epoch != writeEpoch {
        return;
      }
      var overhead := RECORD_HEADER + use.maxOverhead;
      var prefix := RECORD_HEADER + use.nonceLen;

      if msg.isCcs {
        if maxOut < 1 + overhead {
          ret := NoProgress;
          return;
        }
        var sealed := Seal(1, use);
        answer := sealed;
        if sealed.Some? {
          ret, outLen := Success, sealed.value;
          CcsLeads(msgs, written);
        }
        return;
      }

      var stored := Stored(msg);
      if stored.None? || offset > |stored.value.body| {
        return;
      }
      if maxOut < HEADER_LENGTH + 1 + overhead || maxOut < prefix {
        ret := NoProgress;
        return;
      }
      var left := |stored.value.body| - offset;
      var todo := left;
      if todo > maxOut - HEADER_LENGTH - overhead {
        todo := maxOut - HEADER_LENGTH - overhead;
      }
      assert HEADER_LENGTH + todo <= maxOut - prefix;       // the fragment fits behind the record prefix
      var sealed := Seal(HEADER_LENGTH + todo, use);
      answer, piece := sealed, Piece(written, offset, todo);
      if sealed.None? {
        return;
      }
      outLen := sealed.value;
      PieceLeads(msgs, piece);
      if todo == left {
        offset := 0;
        ret := Success;
      } else {
        offset := offset + todo;
        ret := Partial;
      }
    }

    /** seal_next_packet into `maxOut` bytes; `answers` is what its calls of seal_next_message came to. */
    method SealNextPacket(maxOut: nat) returns (ok: bool, outLen: nat, ghost pieces: seq<Piece>, ghost answers: seq<Option<nat>>)
      requires Placed() && KeysNow().Valid() && written < |msgs|
      modifies this`offset, this`written
      ensures Placed()
      ensures ok ==> outLen <= maxOut && Leads(msgs, (old(written), old(offset)), pieces, (written, offset))
      ensures ok ==> written > old(written) || (written == old(written) < |msgs| && offset > old(offset))
      ensures !ok ==> (written, offset) == old((written, offset)) || (written > old(written) && offset == 0)
      ensures var p := Pack(msgs, KeysNow(), (old(written), old(offset)), maxOut, answers);
        p.at == (written, offset) && p.pieces == pieces && ok == Ready(msgs, p)
    {
      hide Leads, Plan, Pack, Fill, Follows, BodyLength;
      PackNothing(msgs, KeysNow(), (written, offset), maxOut);
      ok, outLen, pieces, answers := false, 0, [], [];
      var madeProgress, full := false, false;
      ghost var start := (written, offset);
      LeadsNowhere(msgs, start);
      while written < |msgs| && !full
        invariant Placed() && outLen <= maxOut && Leads(msgs, start, pieces, (written, offset))
        invariant written > old(written) || (written == old(written) && offset >= old(offset))
        invariant madeProgress <==> (written, offset) != start
        invariant madeProgress <==> pieces != []
        invariant madeProgress && !full ==> written > old(written) && offset == 0
        invariant Pack(msgs, KeysNow(), start, maxOut, answers) == Packing((written, offset), maxOut - outLen, pieces, if full then Full else Open)
        decreases !full, |msgs| - written
      {
        ghost var at := (written, offset);
        ghost var before := Packing(at, maxOut - outLen, pieces, Open);
        var ret, len;
        ghost var piece, answer;
        ret, len, piece, answer := SealNextMessage(maxOut - outLen);
        PackOneMore(msgs, KeysNow(), start, maxOut, answers, answer);
        FillFollows(msgs, KeysNow(), before, answer, ret, len, piece, if ret == Success then (written + 1, 0) else (written, offset));
        answers := answers + [answer];
        match ret {
          case SealError => return;
          case NoProgress => full := true;
          case Partial =>
            LeadsThen(msgs, start, pieces, at, [piece], (written, offset));
            outLen, pieces, madeProgress, full := outLen + len, pieces + [piece], true, true;
          case Success =>
            LeadsThen(msgs, start, pieces, at, [piece], (written + 1, 0));
            outLen, pieces, madeProgress := outLen + len, pieces + [piece], true;
            written := written + 1;
        }
      }
      ok := madeProgress;                                    // otherwise the MTU is too small
    }

    /** dtls1_update_mtu; `queried` is what the transport reports, if it may be asked */
    method UpdateMtu(queried: Option<int>)
      requires Valid() && (mtu < MIN_MTU ==> queried.Some?)
      modifies this`mtu
      ensures mtu >= MIN_MTU && (old(mtu) >= MIN_MTU ==> mtu == old(mtu))
    {
      if mtu < MIN_MTU && queried.Some? {
        var q := queried.value;
        mtu := if MIN_MTU <= q <= 0x4000_0000 then q else DEFAULT_MTU;
      }
    }

    /** One round of send_flight: seal a packet and hand it to the transport. A transport failure rewinds to
        the start of the packet; a sealing failure does not, and loses what had been sealed into it. */
    method SendPacket() returns (outcome: Outcome, ret: int, ghost a: Attempt)
      requires Valid() && written < |msgs|
      modifies this`written, this`offset, this`packets, this`intact, this`lost
      ensures Valid() && (outcome == Accepted || ret <= 0) && a.mtu == mtu
      ensures outcome == Accepted ==> written > old(written) || (written == old(written) < |msgs| && offset > old(offset))
      ensures outcome == Accepted ==> |packets| == |old(packets)| + 1 && packets[..|old(packets)|] == old(packets) && intact == old(intact)
      ensures outcome == NotTaken ==> (written, offset) == old((written, offset)) && packets == old(packets) && intact == old(intact)
      ensures outcome == NotSealed ==> packets == old(packets) && intact == (old(intact) && (written, offset) == old((written, offset)))
      ensures outcome == NotSealed ==> (written, offset) == old((written, offset)) || (written > old(written) && offset == 0)
      ensures Stands() == Send(msgs, KeysNow(), old(Stands()), a)
    {
      hide Leads, Stored, BodyLength, AllPieces, Gap, Pack;
      var oldWritten, oldOffset := written, offset;
      var ok, length;
      ghost var pieces, answers;
      ok, length, pieces, answers := SealNextPacket(mtu);
      if !ok {
        a := Attempt(mtu, answers, false);
        if intact && (written, offset) != (oldWritten, oldOffset) {
          GapOpens(msgs, AllPieces(packets), (oldWritten, oldOffset));
          intact, lost := false, oldWritten;
        }
        return NotSealed, -1, a;
      }
      var bioRet := Transport();
      a := Attempt(mtu, answers, bioRet > 0);
      if bioRet <= 0 {
        // The packet is sealed again in the next round.
        written, offset := oldWritten, oldOffset;
        return NotTaken, bioRet, a;
      }
      ghost var packet := Packet(length, mtu, pieces);
      if intact {
        LeadsThen(msgs, (0, 0), AllPieces(packets), (oldWritten, oldOffset), pieces, (written, offset));
      } else {
        GapStays(msgs, AllPieces(packets), lost, (oldWritten, oldOffset), pieces, (written, offset));
      }
      AllPiecesAppend(packets, packet);
      packets := packets + [packet];
      return Accepted, 1, a;
    }

    /** All messages of the flight are on the wire whole and exactly once. */
    ghost predicate Complete()
      reads this
    {
      forall i :: 0 <= i < |msgs| ==> Whole(msgs, AllPieces(packets), i)
    }

    /** At the end of the flight that is so exactly if nothing has been lost. */
    lemma IntactIsComplete()
      requires Valid() && written == |msgs|
      ensures intact <==> Complete()
    {
      hide Leads, Whole, Gap;
      if intact { FlightTiled(msgs, AllPieces(packets)); } else { GapNotWhole(msgs, AllPieces(packets), lost); }
    }

    /** send_flight: success means that the whole flight has been passed, and then all of it is on the wire exactly if
        no sealing failure has lost a part of it. */
    method SendFlight(queried: Option<int>) returns (ret: int, ghost rounds: seq<Attempt>)
      requires Valid() && (mtu < MIN_MTU ==> queried.Some?)
      modifies this`mtu, this`written, this`offset, this`packets, this`intact, this`lost
      ensures Valid()
      ensures ret == 1 ==> written == |msgs| && offset == 0 && (intact <==> Complete())
      ensures Stands() == SendAll(msgs, KeysNow(), old(Stands()), rounds)
    {
      hide Leads, Whole, Stored, BodyLength, AllPieces, Gap, Send;
      rounds := [];
      if shutdown {
        return -1, rounds;
      }
      UpdateMtu(queried);
      while written < |msgs|
        invariant Valid() && Stands() == SendAll(msgs, KeysNow(), old(Stands()), rounds)
        decreases |msgs| - written, if written < |msgs| then |msgs[written].data| - offset else 0
      {
        var outcome;
        ghost var a;
        outcome, ret, a := SendPacket();
        SendOneMore(msgs, KeysNow(), old(Stands()), rounds, a);
        rounds := rounds + [a];
        if outcome != Accepted {
          return;
        }
      }
      var flushed := Transport();
      if flushed <= 0 {
        return -1, rounds;
      }
      IntactIsComplete();
      return 1, rounds;
    }

    /** dtls1_flush_flight */
    method FlushFlight(queried: Option<int>) returns (ret: int, ghost rounds: seq<Attempt>)
      requires Valid() && (mtu < MIN_MTU ==> queried.Some?)
      modifies this
      ensures Valid() && msgs == old(msgs) && complete
      ensures ret == 1 ==> written == |msgs| && offset == 0 && (intact <==> Complete())
      ensures Stands() == SendAll(msgs, KeysNow(), old(Stands()), rounds)
    {
      hide Leads, Whole, Complete, SendAll, Gap;
      complete := true;
      ret, rounds := SendFlight(queried);
    }

    /** dtls1_retransmit_outgoing_messages: from the start again, whatever happened before */
    method Retransmit(queried: Option<int>) returns (ret: int, ghost rounds: seq<Attempt>)
      requires Valid() && (mtu < MIN_MTU ==> queried.Some?)
      modifies this
      ensures Valid() && msgs == old(msgs)
      ensures ret == 1 ==> written == |msgs| && offset == 0 && (intact <==> Complete())
      ensures Stands() == SendAll(msgs, KeysNow(), Flight((0, 0), []), rounds)
      ensures ret == 1 ==> (Complete() <==> !Dropped(msgs, KeysNow(), Flight((0, 0), []), rounds))
    {
      hide Whole, SendAll, Gap, Dropped;
      written, offset := 0, 0;
      packets, intact := [], true;
      ret, rounds := SendFlight(queried);
      if ret == 1 { FlightExactly(msgs, KeysNow(), rounds); }
    }
  }

  lemma AllPiecesAppend(packets: seq<Packet>, p: Packet)
    ensures AllPieces(packets + [p]) == AllPieces(packets) + p.pieces
  {
    assert (packets + [p])[..|packets|] == packets;
  }
}
