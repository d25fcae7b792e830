/** How send_flight packs a flight: what each call of seal_next_message would seal, how calls fill a packet, and where
    an attempt to send a packet leaves the flight. What sealing and the transport answer is an argument. */
module DtlsPacking {
  import opened BigEndianBytes
  import opened Common
  import opened DtlsTiling
  import opened DtlsWire

  const RECORD_HEADER: nat := 13               // DTLS1_RT_HEADER_LENGTH

  /** What the packet code needs to know about an AEAD: its overhead includes its explicit nonce. */
  datatype Aead = Aead(maxOverhead: nat, nonceLen: nat)
  {
    predicate Valid() { nonceLen <= maxOverhead }
  }

  /** The write epoch, and the ciphers of this epoch and the one before. */
  datatype Keys = Keys(epoch: nat, aead: Aead, lastAead: Aead)
  {
    predicate Valid() { aead.Valid() && lastAead.Valid() }
    function For(m: Outgoing): Option<Aead>
    {
      if epoch >= 1 && m.epoch == epoch - 1 then Some(lastAead) else if m.epoch == epoch then Some(aead) else None
    }
  }

  /** What seal_next_message would do at a position: it gives up, finds too little room, or seals a piece. */
  datatype Planned = Refused | NoRoom | Try(piece: Piece, bound: nat)

  function Plan(msgs: seq<Outgoing>, keys: Keys, at: (nat, nat), room: nat): Planned
    requires at.0 < |msgs|
  {
    var m := msgs[at.0];
    match keys.For(m)
    case None => Refused
    case Some(aead) =>
      var overhead, prefix := RECORD_HEADER + aead.maxOverhead, RECORD_HEADER + aead.nonceLen;
      if m.isCcs then if room < 1 + overhead then NoRoom else Try(Ccs(at.0), 1 + overhead)
      else
        match Stored(m)
        case None => Refused
        case Some(f) =>
          if at.1 > |f.body| then Refused
          else if room < HEADER_LENGTH + 1 + overhead || room < prefix then NoRoom
          else
            var todo := Min(|f.body| - at.1, room - HEADER_LENGTH - overhead);
            Try(Piece(at.0, at.1, todo), HEADER_LENGTH + todo + overhead)
  }

  /** A message of the current epoch is sealed with the current cipher and one of the epoch before with the last one; no
      other message is sent. A piece is not tried if and only if one byte of it might not fit, and it is as long as can
      be: it ends the message, or with 13 + 12 bytes of headers and the greatest overhead it fills the room. */
  lemma PlansLargest(msgs: seq<Outgoing>, keys: Keys, at: (nat, nat), room: nat)
    requires at.0 < |msgs| && keys.Valid()
    ensures
      var m, plan := msgs[at.0], Plan(msgs, keys, at, room);
      var use := if m.epoch == keys.epoch then keys.aead else keys.lastAead;
      var left := |m.data| - 12 - at.1;
      && (plan == Refused <==>
            || (m.epoch != keys.epoch && m.epoch + 1 != keys.epoch)
            || (!m.isCcs && (Stored(m).None? || left < 0)))
      && (plan == NoRoom ==> room < 13 + use.maxOverhead + if m.isCcs then 1 else 13)
      && (plan.Try? ==> room >= 13 + use.maxOverhead + if m.isCcs then 1 else 13)
      && (plan.Try? && m.isCcs ==> plan.piece == Ccs(at.0))
      && (plan.Try? && !m.isCcs ==>
            var len := plan.piece.len;
            plan.piece == Piece(at.0, at.1, len) && (len == left || (0 < len < left && len + 25 + use.maxOverhead == room))
            && len + 25 + use.maxOverhead <= room)
  {
    hide Stored;
  }

  /** A packet being filled: the position it has reached, the room left, the pieces in it. */
  datatype Packing = Packing(at: (nat, nat), room: nat, pieces: seq<Piece>, status: Status)
  datatype Status = Open | Full | Broken

  /** One call of seal_next_message; `answer` is the length of the sealed record, or nothing. */
  function Fill(msgs: seq<Outgoing>, keys: Keys, p: Packing, answer: Option<nat>): Packing
  {
    if !p.status.Open? || p.at.0 >= |msgs| then p
    else
      match Plan(msgs, keys, p.at, p.room)
      case Refused => p.(status := Broken)
      case NoRoom => p.(status := Full)
      case Try(piece, bound) =>
        if answer.None? || answer.value > bound || answer.value > p.room then p.(status := Broken)
        else
          var next := After(msgs, piece);
          Packing(next, p.room - answer.value, p.pieces + [piece], if next.0 == p.at.0 then Full else Open)
  }

  /** seal_next_packet, with one answer for each call. */
  function Pack(msgs: seq<Outgoing>, keys: Keys, at: (nat, nat), mtu: nat, answers: seq<Option<nat>>): Packing
  {
    if answers == [] then Packing(at, mtu, [], Open)
    else Fill(msgs, keys, Pack(msgs, keys, at, mtu, answers[..|answers| - 1]), answers[|answers| - 1])
  }

  /** A packet is sent if it is complete and holds anything. */
  predicate Ready(msgs: seq<Outgoing>, p: Packing)
  {
    p.pieces != [] && (p.status.Full? || (p.status.Open? && p.at.0 >= |msgs|))
  }

  /** One round of send_flight: the MTU, what sealing answers, and whether the transport takes the packet. */
  datatype Attempt = Attempt(mtu: nat, answers: seq<Option<nat>>, taken: bool)

  /** The position in the flight, and the pieces that the transport has accepted. */
  datatype Flight = Flight(at: (nat, nat), accepted: seq<Piece>)

  /** A packet that the transport does not take is rewound; one that is not sealed is not. */
  function Send(msgs: seq<Outgoing>, keys: Keys, f: Flight, a: Attempt): Flight
  {
    var p := Pack(msgs, keys, f.at, a.mtu, a.answers);
    if !Ready(msgs, p) then f.(at := p.at)
    else if !a.taken then f
    else Flight(p.at, f.accepted + p.pieces)
  }

  /** Consecutive rounds of one or more calls of send_flight. */
  function SendAll(msgs: seq<Outgoing>, keys: Keys, f: Flight, rounds: seq<Attempt>): Flight
  {
    if rounds == [] then f
    else Send(msgs, keys, SendAll(msgs, keys, f, rounds[..|rounds| - 1]), rounds[|rounds| - 1])
  }

  // ---------------------------------------------------------------- a gap never closes

  /** The pieces pass message `lost` only in part: those up to k lead into it, and all later ones are of later messages. */
  ghost predicate GapAt(msgs: seq<Outgoing>, ps: seq<Piece>, lost: nat, k: nat, off: nat)
  {
    && lost < |msgs| && k <= |ps| && Leads(msgs, (0, 0), ps[..k], (lost, off))
    && forall i :: k <= i < |ps| ==> ps[i].index > lost
  }

  ghost predicate Gap(msgs: seq<Outgoing>, ps: seq<Piece>, lost: nat)
  {
    exists k: nat, off: nat :: GapAt(msgs, ps, lost, k, off)
  }

  lemma {:induction false} NonePiecesOf(ps: seq<Piece>, k: nat, i: nat)
    requires k <= |ps| && forall j :: k <= j < |ps| ==> ps[j].index != i
    ensures PiecesOf(ps, i) == PiecesOf(ps[..k], i)
    decreases |ps|
  {
    if k == |ps| {
      assert ps[..k] == ps;
    } else {
      var n := |ps| - 1;
      NonePiecesOf(ps[..n], k, i);
      assert ps[..n][..k] == ps[..k];
    }
  }

  /** The message at the gap is not whole on the wire. */
  lemma GapNotWhole(msgs: seq<Outgoing>, ps: seq<Piece>, lost: nat)
    requires Gap(msgs, ps, lost)
    ensures lost < |msgs| && !Whole(msgs, ps, lost)
  {
    var k: nat, off: nat :| GapAt(msgs, ps, lost, k, off);
    NonePiecesOf(ps, k, lost);
    LeadsTiles(msgs, ps[..k], (lost, off), lost);
    if off > 0 { LeadsShort(msgs, ps[..k], (0, 0), (lost, off)); }
    hide Leads;
    TileOnce(PiecesOf(ps, lost), off, BodyLength(msgs[lost]));
  }

  /** A position inside a message lies before the end of its body. */
  lemma LeadsShort(msgs: seq<Outgoing>, ps: seq<Piece>, from: (nat, nat), to: (nat, nat))
    requires Leads(msgs, from, ps, to) && to.1 > 0 && from.1 == 0 && to.0 < |msgs|
    ensures to.1 < BodyLength(msgs[to.0]) && !msgs[to.0].isCcs
  {
    hide Stored, BodyLength;
  }

  /** Fragments tile up to one end only. */
  lemma TileOnce(ts: seq<Piece>, a: nat, b: nat)
    requires Tile(ts, a)
    ensures Tile(ts, b) ==> a == b
  {
  }

  /** Pieces only go forward. */
  lemma {:induction false} LeadsForward(msgs: seq<Outgoing>, from: (nat, nat), ps: seq<Piece>, to: (nat, nat))
    requires Leads(msgs, from, ps, to)
    ensures from.0 <= to.0 && forall i :: 0 <= i < |ps| ==> ps[i].index >= from.0
    decreases |ps|
  {
    hide Fits, BodyLength;
    if ps != [] {
      var p := ps[|ps| - 1];
      LeadsForward(msgs, from, ps[..|ps| - 1], if p.Ccs? then (p.index, 0) else (p.index, p.off));
    }
  }

  lemma GapOpens(msgs: seq<Outgoing>, ps: seq<Piece>, at: (nat, nat))
    requires Leads(msgs, (0, 0), ps, at) && at.0 < |msgs|
    ensures Gap(msgs, ps, at.0)
  {
    hide Leads;
    assert ps[..|ps|] == ps;
    assert GapAt(msgs, ps, at.0, |ps|, at.1);
  }

  lemma GapStays(msgs: seq<Outgoing>, ps: seq<Piece>, lost: nat, from: (nat, nat), qs: seq<Piece>, to: (nat, nat))
    requires Gap(msgs, ps, lost) && Leads(msgs, from, qs, to) && lost < from.0
    ensures Gap(msgs, ps + qs, lost)
  {
    LeadsForward(msgs, from, qs, to);
    hide Leads;
    var k: nat, off: nat :| GapAt(msgs, ps, lost, k, off);
    assert (ps + qs)[..k] == ps[..k];
    assert GapAt(msgs, ps + qs, lost, k, off);
  }

  lemma GapGrows(msgs: seq<Outgoing>, m: Outgoing, ps: seq<Piece>, lost: nat)
    requires Gap(msgs, ps, lost)
    ensures Gap(msgs + [m], ps, lost)
  {
    var k: nat, off: nat :| GapAt(msgs, ps, lost, k, off);
    LeadsGrows(msgs, m, (0, 0), ps[..k], (lost, off));
    hide Leads;
    assert GapAt(msgs + [m], ps, lost, k, off);
  }

  // ---------------------------------------------------------------- exactly when flights are complete

  /** A position in the flight. */
  predicate InFlight(msgs: seq<Outgoing>, at: (nat, nat))
  {
    && at.0 <= |msgs| && (at.0 == |msgs| ==> at.1 == 0)
    && (at.0 < |msgs| && at.1 > 0 ==> !msgs[at.0].isCcs && at.1 < BodyLength(msgs[at.0]))
  }

  lemma CcsLeads(msgs: seq<Outgoing>, i: nat)
    requires i < |msgs| && msgs[i].isCcs
    ensures Leads(msgs, (i, 0), [Ccs(i)], (i + 1, 0))
  {
    hide Stored;
    assert [Ccs(i)][..0] == [];
  }

  lemma PieceLeads(msgs: seq<Outgoing>, p: Piece)
    requires p.Piece? && Fits(msgs, p) && (p.len == 0 ==> p.off == |Stored(msgs[p.index]).value.body|)
    requires p.off == |Stored(msgs[p.index]).value.body| ==> p.off == 0
    ensures Leads(msgs, (p.index, p.off), [p], After(msgs, p))
    ensures BodyLength(msgs[p.index]) == |Stored(msgs[p.index]).value.body|
  {
    hide Stored;
    assert [p][..0] == [];
  }

  /** What is sealed at a position is the piece that leads on from it. */
  lemma PlanLeads(msgs: seq<Outgoing>, keys: Keys, at: (nat, nat), room: nat)
    requires InFlight(msgs, at) && at.0 < |msgs| && Plan(msgs, keys, at, room).Try?
    ensures var p := Plan(msgs, keys, at, room).piece;
      p.index == at.0 && Leads(msgs, at, [p], After(msgs, p)) && InFlight(msgs, After(msgs, p)) && After(msgs, p) != at
    ensures Plan(msgs, keys, at, room).bound <= room
  {
    hide Leads, Stored;
    var p := Plan(msgs, keys, at, room).piece;
    if p.Ccs? { CcsLeads(msgs, at.0); } else { PieceLeads(msgs, p); }
  }

  /** The pieces of a packet lead from its start to the position it has reached. */
  lemma {:induction false} PackLeads(msgs: seq<Outgoing>, keys: Keys, at: (nat, nat), mtu: nat, answers: seq<Option<nat>>)
    requires InFlight(msgs, at)
    ensures var p := Pack(msgs, keys, at, mtu, answers);
      InFlight(msgs, p.at) && Leads(msgs, at, p.pieces, p.at) && (p.pieces == [] ==> p.at == at)
      && (p.pieces != [] && !p.status.Full? ==> p.at.0 > at.0)
    decreases |answers|
  {
    hide Leads, Plan, InFlight;
    LeadsNowhere(msgs, at);
    if answers != [] {
      var before, answer := Pack(msgs, keys, at, mtu, answers[..|answers| - 1]), answers[|answers| - 1];
      PackLeads(msgs, keys, at, mtu, answers[..|answers| - 1]);
      FillLeads(msgs, keys, at, before, answer);
    }
  }

  lemma LeadsNowhere(msgs: seq<Outgoing>, at: (nat, nat))
    ensures Leads(msgs, at, [], at)
  {
  }

  lemma TryLeads(msgs: seq<Outgoing>, keys: Keys, at: (nat, nat), p: Packing)
    requires InFlight(msgs, p.at) && Leads(msgs, at, p.pieces, p.at) && p.at.0 < |msgs| && Plan(msgs, keys, p.at, p.room).Try?
    ensures var piece := Plan(msgs, keys, p.at, p.room).piece; var next := After(msgs, piece);
      InFlight(msgs, next) && Leads(msgs, at, p.pieces + [piece], next) && at.0 <= p.at.0 <= next.0
  {
    hide Leads, Plan, InFlight, After;
    LeadsForward(msgs, at, p.pieces, p.at);
    PlanLeads(msgs, keys, p.at, p.room);
    var piece := Plan(msgs, keys, p.at, p.room).piece;
    LeadsThen(msgs, at, p.pieces, p.at, [piece], After(msgs, piece));
    LeadsForward(msgs, p.at, [piece], After(msgs, piece));
  }

  lemma FillLeads(msgs: seq<Outgoing>, keys: Keys, at: (nat, nat), p: Packing, answer: Option<nat>)
    requires InFlight(msgs, p.at) && Leads(msgs, at, p.pieces, p.at) && (p.pieces == [] ==> p.at == at)
    requires p.pieces != [] && !p.status.Full? ==> p.at.0 > at.0
    ensures var q := Fill(msgs, keys, p, answer);
      InFlight(msgs, q.at) && Leads(msgs, at, q.pieces, q.at) && (q.pieces == [] ==> q.at == at)
      && (q.pieces != [] && !q.status.Full? ==> q.at.0 > at.0)
  {
    hide Leads, Plan, InFlight, After;
    if p.status.Open? && p.at.0 < |msgs| && Plan(msgs, keys, p.at, p.room).Try? { TryLeads(msgs, keys, at, p); }
  }

  /** A round that has sealed something and does not send it. */
  predicate Drops(msgs: seq<Outgoing>, keys: Keys, f: Flight, a: Attempt)
  {
    var p := Pack(msgs, keys, f.at, a.mtu, a.answers); !Ready(msgs, p) && p.pieces != []
  }

  ghost predicate Dropped(msgs: seq<Outgoing>, keys: Keys, f: Flight, rounds: seq<Attempt>)
  {
    exists k :: 0 <= k < |rounds| && Drops(msgs, keys, SendAll(msgs, keys, f, rounds[..k]), rounds[k])
  }

  lemma DroppedSnoc(msgs: seq<Outgoing>, keys: Keys, f: Flight, rounds: seq<Attempt>)
    requires rounds != []
    ensures var n := |rounds| - 1;
      Dropped(msgs, keys, f, rounds) <==> Dropped(msgs, keys, f, rounds[..n]) || Drops(msgs, keys, SendAll(msgs, keys, f, rounds[..n]), rounds[n])
  {
    hide SendAll, Drops;
    var n := |rounds| - 1;
    assert forall k :: 0 <= k < n ==> rounds[..n][..k] == rounds[..k];
    if Dropped(msgs, keys, f, rounds[..n]) {
      var k :| 0 <= k < n && Drops(msgs, keys, SendAll(msgs, keys, f, rounds[..n][..k]), rounds[..n][k]);
      assert Drops(msgs, keys, SendAll(msgs, keys, f, rounds[..k]), rounds[k]);
    }
  }

  /** As long as nothing has been dropped the accepted pieces lead to the position; afterwards there is a gap. */
  ghost predicate Tracked(msgs: seq<Outgoing>, f: Flight, dropped: bool)
  {
    && InFlight(msgs, f.at)
    && if dropped then exists lost :: 0 <= lost < f.at.0 && Gap(msgs, f.accepted, lost) else Leads(msgs, (0, 0), f.accepted, f.at)
  }

  lemma SendTracked(msgs: seq<Outgoing>, keys: Keys, f: Flight, a: Attempt, dropped: bool)
    requires Tracked(msgs, f, dropped)
    ensures Tracked(msgs, Send(msgs, keys, f, a), dropped || Drops(msgs, keys, f, a))
  {
    PackLeads(msgs, keys, f.at, a.mtu, a.answers);
    hide Pack, Leads, Gap, InFlight;
    var p := Pack(msgs, keys, f.at, a.mtu, a.answers);
    LeadsForward(msgs, f.at, p.pieces, p.at);
    if dropped {
      var lost :| 0 <= lost < f.at.0 && Gap(msgs, f.accepted, lost);
      GapStays(msgs, f.accepted, lost, f.at, p.pieces, p.at);
    } else if Drops(msgs, keys, f, a) {
      assert f.at.0 < |msgs| by { hide Drops; PositionBefore(msgs, f.at, p.at); }
      GapOpens(msgs, f.accepted, f.at);
    } else {
      LeadsThen(msgs, (0, 0), f.accepted, f.at, p.pieces, p.at);
    }
  }

  lemma PositionBefore(msgs: seq<Outgoing>, a: (nat, nat), b: (nat, nat))
    requires InFlight(msgs, b) && a.0 < b.0
    ensures a.0 < |msgs|
  {
  }

  lemma {:induction false} SendAllTracked(msgs: seq<Outgoing>, keys: Keys, f: Flight, rounds: seq<Attempt>)
    requires Tracked(msgs, f, false)
    ensures Tracked(msgs, SendAll(msgs, keys, f, rounds), Dropped(msgs, keys, f, rounds))
    decreases |rounds|
  {
    hide Tracked, Send, Drops;
    if rounds != [] {
      var n := |rounds| - 1;
      SendAllTracked(msgs, keys, f, rounds[..n]);
      DroppedSnoc(msgs, keys, f, rounds);
      hide Dropped;
      SendTracked(msgs, keys, SendAll(msgs, keys, f, rounds[..n]), rounds[n], Dropped(msgs, keys, f, rounds[..n]));
    }
  }

  /** When a flight has been sent to its end, over any number of attempts, every message is on the wire whole and
      exactly once if and only if no round failed to seal after it had sealed something. */
  lemma FlightExactly(msgs: seq<Outgoing>, keys: Keys, rounds: seq<Attempt>)
    requires SendAll(msgs, keys, Flight((0, 0), []), rounds).at == (|msgs|, 0)
    ensures var start := Flight((0, 0), []);
      var f := SendAll(msgs, keys, start, rounds);
      (forall i :: 0 <= i < |msgs| ==> Whole(msgs, f.accepted, i)) <==> !Dropped(msgs, keys, start, rounds)
  {
    var start := Flight((0, 0), []);
    LeadsNowhere(msgs, (0, 0));
    SendAllTracked(msgs, keys, start, rounds);
    hide SendAll, Whole, Leads, Gap, Dropped;
    var f := SendAll(msgs, keys, start, rounds);
    if Dropped(msgs, keys, start, rounds) {
      var lost :| 0 <= lost < f.at.0 && Gap(msgs, f.accepted, lost);
      GapNotWhole(msgs, f.accepted, lost);
    } else {
      FlightTiled(msgs, f.accepted);
    }
  }

  // ---------------------------------------------------------------- a flight that loses a message

  /** A handshake message that fits into one record of a packet of the given room. */
  predicate Small(m: Outgoing, keys: Keys, room: nat)
  {
    && !m.isCcs && Stored(m).Some? && keys.For(m).Some? && keys.Valid()
    && HEADER_LENGTH + |Stored(m).value.body| + 1 + RECORD_HEADER + keys.For(m).value.maxOverhead <= room
  }

  lemma SmallPlan(msgs: seq<Outgoing>, keys: Keys, i: nat, room: nat)
    requires i < |msgs| && Small(msgs[i], keys, room)
    ensures Plan(msgs, keys, (i, 0), room).Try? && Plan(msgs, keys, (i, 0), room).piece == WholePiece(msgs, i)
    ensures Plan(msgs, keys, (i, 0), room).bound <= room
    ensures After(msgs, WholePiece(msgs, i)) == (i + 1, 0)
  {
    hide Stored;
  }

  /** One record, sealed or not. */
  lemma FillSmall(msgs: seq<Outgoing>, keys: Keys, p: Packing, answer: Option<nat>)
    requires p.status.Open? && p.at.1 == 0 && p.at.0 < |msgs| && Small(msgs[p.at.0], keys, p.room)
    requires answer.Some? ==> answer.value <= Plan(msgs, keys, p.at, p.room).bound
    ensures Plan(msgs, keys, p.at, p.room).Try? && Plan(msgs, keys, p.at, p.room).bound <= p.room
    ensures Fill(msgs, keys, p, answer) ==
      if answer.None? then p.(status := Broken)
      else Packing((p.at.0 + 1, 0), p.room - answer.value, p.pieces + [WholePiece(msgs, p.at.0)], Open)
  {
    SmallPlan(msgs, keys, p.at.0, p.room);
    hide Plan, Small, BodyLength;
  }

  /** Two small messages. The first is sealed, sealing the second one fails, and the packet is dropped. The next
      attempt starts with the second message and succeeds: the flight is done, and the first message was never sent. */
  lemma LosesMessage(msgs: seq<Outgoing>, keys: Keys, mtu: nat, len: nat, len': nat)
    requires |msgs| == 2 && Small(msgs[0], keys, mtu) && Small(msgs[1], keys, mtu) && len <= Plan(msgs, keys, (0, 0), mtu).bound
    requires len <= mtu && Small(msgs[1], keys, mtu - len) && len' <= Plan(msgs, keys, (1, 0), mtu).bound
    ensures var rounds := [Attempt(mtu, [Some(len), None], true), Attempt(mtu, [Some(len')], true)];
      var f := SendAll(msgs, keys, Flight((0, 0), []), rounds);
      f.at == (2, 0) && f.accepted == [WholePiece(msgs, 1)] && !Whole(msgs, f.accepted, 0)
  {
    var a, b := Attempt(mtu, [Some(len), None], true), Attempt(mtu, [Some(len')], true);
    BrokenPacket(msgs, keys, mtu, len);
    WholePacket(msgs, keys, mtu, len');
    hide Pack, Small, Plan, WholePiece, BodyLength;
    TwoRounds(msgs, keys, Flight((0, 0), []), a, b);
    assert [] + [WholePiece(msgs, 1)] == [WholePiece(msgs, 1)];
    LostFirst(msgs);
  }

  lemma BrokenPacket(msgs: seq<Outgoing>, keys: Keys, mtu: nat, len: nat)
    requires |msgs| == 2 && Small(msgs[0], keys, mtu) && len <= Plan(msgs, keys, (0, 0), mtu).bound
    requires len <= mtu && Small(msgs[1], keys, mtu - len)
    ensures Pack(msgs, keys, (0, 0), mtu, [Some(len), None]) == Packing((1, 0), mtu - len, [WholePiece(msgs, 0)], Broken)
  {
    var start, q := Packing((0, 0), mtu, [], Open), Packing((1, 0), mtu - len, [WholePiece(msgs, 0)], Open);
    FillSmall(msgs, keys, start, Some(len));
    FillSmall(msgs, keys, q, None);
    hide Fill, Small, Plan, WholePiece;
    assert [] + [WholePiece(msgs, 0)] == [WholePiece(msgs, 0)];
    assert [Some(len), None][..1] == [Some(len)] && [Some(len)][..0] == [];
    assert Pack(msgs, keys, (0, 0), mtu, []) == start;
    assert Pack(msgs, keys, (0, 0), mtu, [Some(len)]) == q;
  }

  lemma WholePacket(msgs: seq<Outgoing>, keys: Keys, mtu: nat, len: nat)
    requires |msgs| == 2 && Small(msgs[1], keys, mtu) && len <= Plan(msgs, keys, (1, 0), mtu).bound
    ensures len <= mtu && Pack(msgs, keys, (1, 0), mtu, [Some(len)]) == Packing((2, 0), mtu - len, [WholePiece(msgs, 1)], Open)
  {
    var start := Packing((1, 0), mtu, [], Open);
    FillSmall(msgs, keys, start, Some(len));
    hide Fill, Small, Plan, WholePiece;
    assert [] + [WholePiece(msgs, 1)] == [WholePiece(msgs, 1)];
    assert [Some(len)][..0] == [] && Pack(msgs, keys, (1, 0), mtu, []) == start;
  }

  lemma TwoRounds(msgs: seq<Outgoing>, keys: Keys, f: Flight, a: Attempt, b: Attempt)
    ensures SendAll(msgs, keys, f, [a, b]) == Send(msgs, keys, Send(msgs, keys, f, a), b)
  {
    hide Send;
    assert [a, b][..1] == [a] && [a][..0] == [];
    assert SendAll(msgs, keys, f, [a]) == Send(msgs, keys, f, a);
  }

  lemma LostFirst(msgs: seq<Outgoing>)
    requires |msgs| == 2 && !msgs[0].isCcs
    ensures !Whole(msgs, [WholePiece(msgs, 1)], 0)
  {
    assert [WholePiece(msgs, 1)][..0] == [];
    assert PiecesOf([WholePiece(msgs, 1)], 0) == [];
  }

  /** Such flights exist: two messages with a body of one byte. */
  function Tiny(number: nat): Outgoing
    requires number < TWO_16
  {
    Outgoing(false, 0, Serialize(Fragment(Header(0, 1, number, 0, 1), [0])))
  }

  lemma TinyLost()
    ensures var msgs, keys := [Tiny(0), Tiny(1)], Keys(0, Aead(0, 0), Aead(0, 0));
      var rounds := [Attempt(1472, [Some(26), None], true), Attempt(1472, [Some(26)], true)];
      var f := SendAll(msgs, keys, Flight((0, 0), []), rounds);
      f.at == (2, 0) && !Whole(msgs, f.accepted, 0)
  {
    var msgs, keys := [Tiny(0), Tiny(1)], Keys(0, Aead(0, 0), Aead(0, 0));
    TinySmall(0, 1446);
    TinySmall(1, 1446);
    TinySmall(0, 1472);
    TinySmall(1, 1472);
    hide Tiny, Stored, Small;
    TinyBound(msgs, keys, 0);
    TinyBound(msgs, keys, 1);
    hide Plan, SendAll, Whole;
    LosesMessage(msgs, keys, 1472, 26, 26);
  }

  lemma TinySmall(number: nat, room: nat)
    requires number < TWO_16 && room >= 27
    ensures Small(Tiny(number), Keys(0, Aead(0, 0), Aead(0, 0)), room)
  {
    TinyStored(number);
    hide Tiny, Stored;
  }

  lemma TinyBound(msgs: seq<Outgoing>, keys: Keys, i: nat)
    requires i < |msgs| && i < TWO_16 && msgs[i] == Tiny(i) && keys == Keys(0, Aead(0, 0), Aead(0, 0))
    ensures Plan(msgs, keys, (i, 0), 1472).Try? && Plan(msgs, keys, (i, 0), 1472).bound == 26
  {
    TinyStored(i);
    hide Tiny, Stored;
  }

  lemma TinyStored(number: nat)
    requires number < TWO_16
    ensures !Tiny(number).isCcs && Tiny(number).epoch == 0 && Stored(Tiny(number)).Some? && |Stored(Tiny(number)).value.body| == 1
  {
    var f := Fragment(Header(0, 1, number, 0, 1), [0]);
    ParseOfSerialize(f, []);
    assert Serialize(f) + [] == Serialize(f);
    hide Parse, SerializeHeader;
  }
}
