/** What a DTLS flight has to look like on the wire: each message cut into fragments that tile its body. */
module DtlsTiling {
  import opened Common
  import opened DtlsWire

  /** DTLS_OUTGOING_MESSAGE; a handshake message is stored as one unfragmented fragment. */
  datatype Outgoing = Outgoing(isCcs: bool, epoch: nat, data: seq<byte>)

  /** The plaintext of one sealed record: the ChangeCipherSpec, or `len` body bytes of message `index` from `off`. */
  datatype Piece = Ccs(index: nat) | Piece(index: nat, off: nat, len: nat)

  /** The header and body of a stored message, if dtls1_parse_fragment and the checks after it accept it. */
  function Stored(m: Outgoing): (r: Option<Fragment>)
    ensures r.Some? ==> |r.value.body| + HEADER_LENGTH == |m.data|
  {
    match Parse(m.data)
    case None => None
    case Some((f, rest)) =>
      if f.header.fragOff != 0 || f.header.msgLen != |f.body| || rest != [] then None else Some(f)
  }

  function BodyLength(m: Outgoing): nat
  {
    match Stored(m) case None => 0 case Some(f) => |f.body|
  }

  /** The bytes of a piece before sealing. */
  function Plaintext(msgs: seq<Outgoing>, p: Piece): seq<byte>
    requires Fits(msgs, p)
  {
    match p
    case Ccs(_) => [1]
    case Piece(i, off, len) =>
      var f := Stored(msgs[i]).value;
      Serialize(Fragment(f.header.(fragOff := off, fragLen := len), f.body[off..off + len]))
  }

  /** All of message i in one fragment. */
  function WholePiece(msgs: seq<Outgoing>, i: nat): Piece
    requires i < |msgs|
  {
    Piece(i, 0, BodyLength(msgs[i]))
  }

  predicate Fits(msgs: seq<Outgoing>, p: Piece)
  {
    && p.index < |msgs|
    && msgs[p.index].isCcs == p.Ccs?
    && (p.Piece? ==> Stored(msgs[p.index]).Some? && p.off + p.len <= |Stored(msgs[p.index]).value.body|)
  }

  /** The position after a piece, as (message, offset). */
  function After(msgs: seq<Outgoing>, p: Piece): (nat, nat)
    requires p.index < |msgs|
  {
    if p.Ccs? || p.off + p.len >= BodyLength(msgs[p.index]) then (p.index + 1, 0) else (p.index, p.off + p.len)
  }

  /** The pieces lead from position `from` to position `to`, each starting where the one before ended, and
      none empty except for an empty body. */
  ghost predicate Leads(msgs: seq<Outgoing>, from: (nat, nat), ps: seq<Piece>, to: (nat, nat))
    decreases |ps|
  {
    if ps == [] then from == to
    else
      var p := ps[|ps| - 1];
      && Fits(msgs, p) && (p.Piece? && p.len == 0 ==> BodyLength(msgs[p.index]) == 0)
      && Leads(msgs, from, ps[..|ps| - 1], if p.Ccs? then (p.index, 0) else (p.index, p.off))
      && to == After(msgs, p)
  }

  lemma {:induction false} LeadsThen(msgs: seq<Outgoing>, a: (nat, nat), ps: seq<Piece>, b: (nat, nat), qs: seq<Piece>, c: (nat, nat))
    requires Leads(msgs, a, ps, b) && Leads(msgs, b, qs, c)
    ensures Leads(msgs, a, ps + qs, c)
    decreases |qs|
  {
    hide Fits, After, BodyLength;
    if qs == [] {
      assert ps + qs == ps;
    } else {
      var n := |qs| - 1;
      var mid := if qs[n].Ccs? then (qs[n].index, 0) else (qs[n].index, qs[n].off);
      LeadsThen(msgs, a, ps, b, qs[..n], mid);
      assert (ps + qs)[..|ps + qs| - 1] == ps + qs[..n];
    }
  }

  /** Adding messages to the flight does not disturb what has been sent. */
  lemma {:induction false} LeadsGrows(msgs: seq<Outgoing>, m: Outgoing, a: (nat, nat), ps: seq<Piece>, b: (nat, nat))
    requires Leads(msgs, a, ps, b)
    ensures Leads(msgs + [m], a, ps, b)
    decreases |ps|
  {
    hide Stored;
    if ps != [] {
      var p := ps[|ps| - 1];
      LeadsGrows(msgs, m, a, ps[..|ps| - 1], if p.Ccs? then (p.index, 0) else (p.index, p.off));
    }
  }

  // ---------------------------------------------------------------- the tiles of one message

  /** The pieces of message i, in the order sent. */
  function PiecesOf(ps: seq<Piece>, i: nat): seq<Piece>
  {
    if ps == [] then []
    else
      var front := PiecesOf(ps[..|ps| - 1], i);
      if ps[|ps| - 1].index == i then front + [ps[|ps| - 1]] else front
  }

  /** Fragments that tile [0, end) in order without gap or overlap. */
  predicate Tile(ts: seq<Piece>, end: nat)
  {
    if ts == [] then end == 0
    else
      var t := ts[|ts| - 1];
      t.Piece? && t.off + t.len == end && Tile(ts[..|ts| - 1], t.off)
  }

  /** Message i is on the wire exactly once: a ChangeCipherSpec as one record, a body as tiles of [0, len),
      an empty body as one empty fragment. */
  ghost predicate Whole(msgs: seq<Outgoing>, ps: seq<Piece>, i: nat)
    requires i < |msgs|
  {
    var ts := PiecesOf(ps, i);
    if msgs[i].isCcs then ts == [Ccs(i)]
    else
      && Tile(ts, BodyLength(msgs[i]))
      && (if BodyLength(msgs[i]) == 0 then |ts| == 1 else forall k :: 0 <= k < |ts| ==> ts[k].Piece? && ts[k].len > 0)
  }

  /** What the pieces from the start to position (j, off) say about message i. */
  ghost predicate Sent(msgs: seq<Outgoing>, ps: seq<Piece>, to: (nat, nat), i: nat)
    requires i < |msgs|
  {
    if i < to.0 then Whole(msgs, ps, i)
    else if i == to.0 && to.1 > 0 then
      var ts := PiecesOf(ps, i);
      Tile(ts, to.1) && forall k :: 0 <= k < |ts| ==> ts[k].Piece? && ts[k].len > 0
    else PiecesOf(ps, i) == []
  }

  /** The chain of pieces from the start of the flight tiles every message it has passed. */
  lemma {:induction false} LeadsTiles(msgs: seq<Outgoing>, ps: seq<Piece>, to: (nat, nat), i: nat)
    requires Leads(msgs, (0, 0), ps, to) && i < |msgs|
    ensures Sent(msgs, ps, to, i)
    decreases |ps|
  {
    hide Fits, BodyLength;
    if ps != [] {
      var n := |ps| - 1;
      var p := ps[n];
      LeadsTiles(msgs, ps[..n], if p.Ccs? then (p.index, 0) else (p.index, p.off), i);
      OneMore(msgs, ps, to, i);
    }
  }

  lemma OneMore(msgs: seq<Outgoing>, ps: seq<Piece>, to: (nat, nat), i: nat)
    requires ps != [] && i < |msgs| && Leads(msgs, (0, 0), ps, to)
    requires var p := ps[|ps| - 1]; Sent(msgs, ps[..|ps| - 1], if p.Ccs? then (p.index, 0) else (p.index, p.off), i)
    ensures Sent(msgs, ps, to, i)
  {
    hide Stored, BodyLength, Tile;
    var n := |ps| - 1;
    var p, front := ps[n], PiecesOf(ps[..n], i);
    assert Fits(msgs, p) && (p.Piece? && p.len == 0 ==> BodyLength(msgs[p.index]) == 0) && to == After(msgs, p);
    FitsLength(msgs, p);
    hide Leads, Fits;
    if p.index != i {
      assert PiecesOf(ps, i) == front;
    } else {
      assert PiecesOf(ps, i) == front + [p];
      if p.Piece? {
        TileAppend(front, p);
        assert Tile([], 0) by { EmptyTile(); }
      }
    }
  }

  lemma FitsLength(msgs: seq<Outgoing>, p: Piece)
    requires Fits(msgs, p)
    ensures msgs[p.index].isCcs == p.Ccs?
    ensures p.Piece? ==> p.off + p.len <= BodyLength(msgs[p.index])
  {
    hide Stored;
  }

  lemma EmptyTile()
    ensures Tile([], 0)
  {
  }

  lemma TileAppend(ts: seq<Piece>, p: Piece)
    requires p.Piece?
    ensures Tile(ts, p.off) ==> Tile(ts + [p], p.off + p.len)
  {
    assert (ts + [p])[..|ts|] == ts;
  }

  /** The bytes carried by tiles, one after the other. */
  function Carried(body: seq<byte>, ts: seq<Piece>, end: nat): seq<byte>
    requires Tile(ts, end) && end <= |body|
  {
    if ts == [] then []
    else
      var t := ts[|ts| - 1];
      Carried(body, ts[..|ts| - 1], t.off) + body[t.off..t.off + t.len]
  }

  /** Tiles of [0, len) carry exactly the body. */
  lemma {:induction false} TilesCarryBody(body: seq<byte>, ts: seq<Piece>, end: nat)
    requires Tile(ts, end) && end <= |body|
    ensures Carried(body, ts, end) == body[..end]
  {
    if ts != [] {
      var t := ts[|ts| - 1];
      TilesCarryBody(body, ts[..|ts| - 1], t.off);
      assert body[..t.off] + body[t.off..end] == body[..end];
    }
  }

  /** A flight sent from start to end has every message on the wire exactly once and complete. */
  lemma FlightTiled(msgs: seq<Outgoing>, ps: seq<Piece>)
    requires Leads(msgs, (0, 0), ps, (|msgs|, 0))
    ensures forall i :: 0 <= i < |msgs| ==> Whole(msgs, ps, i)
  {
    forall i | 0 <= i < |msgs| ensures Whole(msgs, ps, i) { LeadsTiles(msgs, ps, (|msgs|, 0), i); }
  }
}
