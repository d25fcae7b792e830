/** DTLS handshake transport from end to end: a flight cut into fragments by the sender, a network that loses,
    duplicates and reorders them, and the receiver that hands out messages. */
module DtlsEndToEnd {
  import opened BigEndianBytes
  import opened Common
  import opened DtlsReassembly
  import opened DtlsReceive
  import opened DtlsTiling
  import opened DtlsWire

  /** A flight of handshake messages numbered from `first`, each short enough for the receiver. */
  ghost predicate Flight(msgs: seq<Outgoing>, first: nat, limit: nat)
  {
    && |msgs| <= FLIGHT && first < TWO_16
    && forall i :: 0 <= i < |msgs| ==> Numbered(msgs[i], Number(first, i), limit)
  }

  function Number(first: nat, i: nat): nat { (first + i) % TWO_16 }

  ghost predicate Numbered(m: Outgoing, number: nat, limit: nat)
  {
    !m.isCcs && Stored(m).Some? && Stored(m).value.header.seqNo == number && |Stored(m).value.body| <= limit
  }

  /** A handshake message as the sender's state machine meant it. */
  datatype Message = Message(msgType: byte, body: seq<byte>)

  function MessageOf(m: Outgoing): Message
  {
    match Stored(m) case None => Message(0, []) case Some(f) => Message(f.header.msgType, f.body)
  }

  function Messages(msgs: seq<Outgoing>): (r: seq<Message>)
    ensures |r| == |msgs|
  {
    seq(|msgs|, i requires 0 <= i < |msgs| => MessageOf(msgs[i]))
  }

  /** Either a record with one piece of the flight arrives, any number of times and in any order, or the
      receiver takes the current message if there is one. */
  datatype Event = Deliver(piece: Piece) | Consume

  datatype Run = Run(rx: Receiver, handed: seq<Message>, failed: bool)

  ghost predicate Possible(msgs: seq<Outgoing>, es: seq<Event>)
  {
    forall k :: 0 <= k < |es| && es[k].Deliver? ==> Fits(msgs, es[k].piece)
  }

  ghost function Step(msgs: seq<Outgoing>, run: Run, e: Event): (r: Run)
    requires |run.rx.slots| == FLIGHT && (e.Deliver? ==> Fits(msgs, e.piece))
    ensures |r.rx.slots| == FLIGHT && r.rx.limit == run.rx.limit && r.rx.epoch == run.rx.epoch
  {
    if run.failed then run
    else
      match e
      case Deliver(p) =>
        var (rx', status) := OpenRecord(run.rx, Plaintext(msgs, p));
        Run(rx', run.handed, status.Error?)
      case Consume =>
        match Current(run.rx)
        case None => run
        case Some(p) => Run(Next(run.rx), run.handed + [Message(p.msgType, p.Body())], false)
  }

  /** A run from a receiver that expects message `first` and holds nothing. */
  ghost function Outcome(msgs: seq<Outgoing>, start: Receiver, es: seq<Event>): (run: Run)
    requires |start.slots| == FLIGHT && Possible(msgs, es)
    ensures |run.rx.slots| == FLIGHT && run.rx.limit == start.limit && run.rx.epoch == start.epoch
    decreases |es|
  {
    if es == [] then Run(start, [], false)
    else Step(msgs, Outcome(msgs, start, es[..|es| - 1]), es[|es| - 1])
  }

  predicate Fresh(start: Receiver, first: nat, limit: nat)
  {
    start.readSeq == first && start.limit == limit && start.slots == [None, None, None, None, None, None, None]
  }

  // ---------------------------------------------------------------- one record is one fragment

  /** The fragment that the receiver sees for a piece. */
  function FragmentOf(msgs: seq<Outgoing>, p: Piece): Fragment
    requires Fits(msgs, p) && p.Piece?
  {
    var f := Stored(msgs[p.index]).value;
    Fragment(f.header.(fragOff := p.off, fragLen := p.len), f.body[p.off..p.off + p.len])
  }

  lemma StoredHeader(m: Outgoing)
    requires Stored(m).Some?
    ensures Stored(m).value.Valid() && Stored(m).value.header.msgLen == |Stored(m).value.body|
  {
    hide Parse;
    SerializeOfParse(m.data);
  }

  lemma PieceIsFragment(msgs: seq<Outgoing>, rx: Receiver, p: Piece)
    requires |rx.slots| == FLIGHT && Fits(msgs, p) && p.Piece?
    ensures FragmentOf(msgs, p).Valid()
    ensures OpenRecord(rx, Plaintext(msgs, p)) == Deposit(rx, FragmentOf(msgs, p))
  {
    hide Stored, Parse, Deposit, SerializeHeader;
    StoredHeader(msgs[p.index]);
    var f := FragmentOf(msgs, p);
    ParseOfSerialize(f, []);
    assert Serialize(f) + [] == Serialize(f) == Plaintext(msgs, p);
  }

  // ---------------------------------------------------------------- safety

  /** A partial message holds bytes of one message of the flight that has not been handed out. */
  ghost predicate PartOf(m: Outgoing, number: nat, p: Partial)
  {
    && p.seqNo == number && p.msgType == MessageOf(m).msgType && p.len == |MessageOf(m).body|
    && forall k :: k in p.bytes ==> k < p.len && p.bytes[k] == MessageOf(m).body[k]
  }

  ghost predicate Genuine(msgs: seq<Outgoing>, first: nat, c: nat, p: Partial)
  {
    exists i :: c <= i < |msgs| && PartOf(msgs[i], Number(first, i), p)
  }

  ghost predicate Inv(msgs: seq<Outgoing>, first: nat, run: Run)
  {
    && WindowInv(run.rx)
    && |run.handed| <= |msgs| && run.handed == Messages(msgs)[..|run.handed|]
    && (!run.failed ==> run.rx.readSeq == Number(first, |run.handed|))
    && forall i :: 0 <= i < FLIGHT && run.rx.slots[i].Some? ==> Genuine(msgs, first, |run.handed|, run.rx.slots[i].value)
  }

  lemma NumberUnique(first: nat, i: nat, j: nat)
    requires first < TWO_16 && i <= FLIGHT && j <= FLIGHT && Number(first, i) == Number(first, j)
    ensures i == j
  {
  }

  lemma WindowAhead(first: nat, c: nat, i: nat)
    requires first < TWO_16 && c <= FLIGHT && i <= FLIGHT
    requires Number(first, c) <= Number(first, i) < Number(first, c) + FLIGHT
    ensures c <= i
  {
  }

  lemma MergeGenuine(msgs: seq<Outgoing>, piece: Piece, number: nat, p: Partial)
    requires Fits(msgs, piece) && piece.Piece? && PartOf(msgs[piece.index], number, p)
    ensures PartOf(msgs[piece.index], number, Merge(p, FragmentOf(msgs, piece)))
  {
    hide Stored;
  }

  lemma DeliverKeeps(msgs: seq<Outgoing>, first: nat, run: Run, p: Piece)
    requires Flight(msgs, first, run.rx.limit) && Inv(msgs, first, run) && !run.failed && Fits(msgs, p)
    ensures Inv(msgs, first, Step(msgs, run, Deliver(p)))
  {
    hide Merge, Plaintext, OpenRecord, Stored, Messages;
    var c, i := |run.handed|, p.index;
    assert Numbered(msgs[i], Number(first, i), run.rx.limit);
    PieceIsFragment(msgs, run.rx, p);
    var f := FragmentOf(msgs, p);
    DepositKeeps(run.rx, f);
    var (rx', status) := Deposit(run.rx, f);
    if rx' != run.rx {
      var idx := f.header.seqNo % FLIGHT;
      WindowAhead(first, c, i);
      StoredHeader(msgs[i]);
      var was := match run.rx.slots[idx] case Some(q) => q case None => Partial(f.header.msgType, f.header.seqNo, f.header.msgLen, map[]);
      assert PartOf(msgs[i], Number(first, i), was) by {
        if run.rx.slots[idx].Some? {
          SlotMatches(run.rx, f.header.seqNo);
          var j :| c <= j < |msgs| && PartOf(msgs[j], Number(first, j), was);
          NumberUnique(first, i, j);
        }
      }
      MergeGenuine(msgs, p, Number(first, i), was);
      assert rx'.slots == run.rx.slots[idx := Some(Merge(was, f))];
      assert Genuine(msgs, first, c, Merge(was, f));
    }
  }

  lemma ConsumeKeeps(msgs: seq<Outgoing>, first: nat, run: Run)
    requires Flight(msgs, first, run.rx.limit) && Inv(msgs, first, run) && !run.failed
    ensures Inv(msgs, first, Step(msgs, run, Consume))
  {
    hide Stored, Partial.Complete, Genuine;
    if Current(run.rx).Some? {
      var c, p := |run.handed|, Current(run.rx).value;
      NextKeeps(run.rx);
      assert Genuine(msgs, first, c, p);
      CurrentIsNext(msgs, first, c, p);
      assert Message(p.msgType, p.Body()) == Messages(msgs)[c];
      forall k | 0 <= k < FLIGHT && Next(run.rx).slots[k].Some? ensures Genuine(msgs, first, c + 1, Next(run.rx).slots[k].value) {
        assert k != run.rx.readSeq % FLIGHT && InWindow(run.rx.readSeq, k, run.rx.slots[k].value);
        StillAhead(msgs, first, c, k, run.rx.slots[k].value);
      }
    }
  }

  /** A message in another slot than that of message c is a later one. */
  lemma StillAhead(msgs: seq<Outgoing>, first: nat, c: nat, k: nat, q: Partial)
    requires Genuine(msgs, first, c, q) && InWindow(Number(first, c), k, q) && k != Number(first, c) % FLIGHT
    ensures Genuine(msgs, first, c + 1, q)
  {
    hide Stored;
    var j :| c <= j < |msgs| && PartOf(msgs[j], Number(first, j), q);
    assert j != c;
  }

  /** A complete message with the expected number is message c itself. */
  lemma CurrentIsNext(msgs: seq<Outgoing>, first: nat, c: nat, p: Partial)
    requires first < TWO_16 && |msgs| <= FLIGHT && c <= |msgs|
    requires Genuine(msgs, first, c, p) && p.seqNo == Number(first, c) && p.Complete()
    ensures c < |msgs| && Message(p.msgType, p.Body()) == MessageOf(msgs[c])
  {
    hide Stored;
    var i :| c <= i < |msgs| && PartOf(msgs[i], Number(first, i), p);
    NumberUnique(first, i, c);
    assert p.Body() == MessageOf(msgs[c]).body;
  }

  lemma {:induction false} RunKeeps(msgs: seq<Outgoing>, first: nat, start: Receiver, es: seq<Event>)
    requires Fresh(start, first, start.limit) && Flight(msgs, first, start.limit) && Possible(msgs, es)
    ensures Inv(msgs, first, Outcome(msgs, start, es)) && Outcome(msgs, start, es).rx.limit == start.limit
    decreases |es|
  {
    hide Inv, OpenRecord, Plaintext, Stored, Genuine;
    if es == [] {
      StartInv(msgs, first, start);
    } else {
      RunKeeps(msgs, first, start, es[..|es| - 1]);
      var run, e := Outcome(msgs, start, es[..|es| - 1]), es[|es| - 1];
      if !run.failed {
        match e {
          case Deliver(p) => DeliverKeeps(msgs, first, run, p); PieceIsFragment(msgs, run.rx, p);
          case Consume => ConsumeKeeps(msgs, first, run);
        }
      }
    }
  }

  lemma StartInv(msgs: seq<Outgoing>, first: nat, start: Receiver)
    requires Fresh(start, first, start.limit) && first < TWO_16
    ensures Inv(msgs, first, Run(start, [], false))
  {
  }

  /** Whatever the network does, the messages handed out are the first ones sent, in order, byte for byte and
      each once. This needs no bound on the message numbers and holds in every epoch. */
  lemma HandedIsPrefix(msgs: seq<Outgoing>, first: nat, start: Receiver, es: seq<Event>)
    requires Fresh(start, first, start.limit) && Flight(msgs, first, start.limit) && Possible(msgs, es)
    ensures Outcome(msgs, start, es).handed <= Messages(msgs)
  {
    hide Stored;
    RunKeeps(msgs, first, start, es);
  }

  // ---------------------------------------------------------------- availability

  /** Some fragment of message j has arrived. */
  predicate Heard(es: seq<Event>, j: nat)
  {
    es != [] && (Heard(es[..|es| - 1], j) || (es[|es| - 1].Deliver? && es[|es| - 1].piece.index == j))
  }

  /** The body positions of message j that have arrived. */
  ghost function Arrived(es: seq<Event>, j: nat): set<nat>
  {
    if es == [] then {}
    else
      var e, before := es[|es| - 1], Arrived(es[..|es| - 1], j);
      if e.Deliver? && e.piece.Piece? && e.piece.index == j then before + Range(e.piece.off, e.piece.off + e.piece.len) else before
  }

  ghost predicate SlotExact(slot: Option<Partial>, heard: bool, arrived: set<nat>)
  {
    slot.Some? == heard && (heard ==> slot.value.bytes.Keys == arrived)
  }

  /** Every message not yet handed out has exactly its arrived bytes in its slot. */
  ghost predicate Exact(msgs: seq<Outgoing>, first: nat, run: Run, es: seq<Event>)
    requires |run.rx.slots| == FLIGHT
  {
    && !run.failed
    && forall j :: |run.handed| <= j < |msgs| ==> SlotExact(run.rx.slots[(first + j) % FLIGHT], Heard(es, j), Arrived(es, j))
  }

  /** The numbers of the flight do not wrap, and the epoch is not the one that holds a single message. */
  predicate Plain(msgs: seq<Outgoing>, first: nat, epoch: nat) { first + |msgs| <= TWO_16 && epoch != 1 }

  lemma PlacedKeys(p: Partial, f: Fragment, arrived: set<nat>)
    requires p.bytes.Keys == arrived && f.Valid() && f.header.fragOff + f.header.fragLen <= p.len
    requires forall k :: k in arrived ==> k < p.len
    ensures Merge(p, f).bytes.Keys == arrived + Range(f.header.fragOff, f.header.fragOff + f.header.fragLen)
  {
    assert Placed(f.header.fragOff, f.body).Keys == Range(f.header.fragOff, f.header.fragOff + f.header.fragLen);
    if p.Complete() {
      assert forall k :: k in Range(f.header.fragOff, f.header.fragOff + f.header.fragLen) ==> k in arrived;
    }
  }

  lemma Snoc(es: seq<Event>, e: Event)
    ensures (es + [e])[..|es|] == es
    ensures forall j :: Heard(es + [e], j) == (Heard(es, j) || (e.Deliver? && e.piece.index == j))
    ensures forall j :: (Arrived(es + [e], j) ==
      if e.Deliver? && e.piece.Piece? && e.piece.index == j then Arrived(es, j) + Range(e.piece.off, e.piece.off + e.piece.len) else Arrived(es, j))
  {
    assert (es + [e])[..|es|] == es;
  }

  /** The slot of message i holds, if anything, a part of message i. */
  lemma SlotIsPart(msgs: seq<Outgoing>, first: nat, run: Run, i: nat)
    requires first < TWO_16 && |msgs| <= FLIGHT && Inv(msgs, first, run)
    requires i < |msgs| && run.rx.readSeq <= Number(first, i) < run.rx.readSeq + FLIGHT
    ensures var slot := run.rx.slots[Number(first, i) % FLIGHT];
      slot.Some? ==> PartOf(msgs[i], Number(first, i), slot.value)
  {
    hide Stored, Messages;
    var slot := run.rx.slots[Number(first, i) % FLIGHT];
    if slot.Some? {
      SlotMatches(run.rx, Number(first, i));
      var j :| |run.handed| <= j < |msgs| && PartOf(msgs[j], Number(first, j), slot.value);
      NumberUnique(first, i, j);
    }
  }

  /** A fragment inside the window that agrees with its slot adds its bytes there. */
  lemma DepositLands(rx: Receiver, f: Fragment, arrived: set<nat>)
    requires |rx.slots| == FLIGHT && f.Valid() && rx.epoch != 1
    requires f.header.fragOff + f.header.fragLen <= f.header.msgLen <= rx.limit
    requires rx.readSeq <= f.header.seqNo < rx.readSeq + FLIGHT
    requires forall k :: k in arrived ==> k < f.header.msgLen
    requires match rx.slots[f.header.seqNo % FLIGHT]
             case None => arrived == {}
             case Some(q) => q.msgType == f.header.msgType && q.len == f.header.msgLen && q.bytes.Keys == arrived
    ensures var (rx', status) := Deposit(rx, f);
      status.Ok? && var idx := f.header.seqNo % FLIGHT;
      rx'.slots[idx].Some? && rx' == rx.(slots := rx.slots[idx := rx'.slots[idx]])
      && rx'.slots[idx].value.bytes.Keys == arrived + Range(f.header.fragOff, f.header.fragOff + f.header.fragLen)
  {
    hide Merge, Range;
    match rx.slots[f.header.seqNo % FLIGHT]
    case None => PlacedKeys(Partial(f.header.msgType, f.header.seqNo, f.header.msgLen, map[]), f, {});
    case Some(q) => PlacedKeys(q, f, arrived);
  }

  /** A fragment of a message still expected lands in that message's slot. */
  lemma DeliverLands(msgs: seq<Outgoing>, first: nat, run: Run, es: seq<Event>, p: Piece)
    requires Flight(msgs, first, run.rx.limit) && Plain(msgs, first, run.rx.epoch)
    requires Inv(msgs, first, run) && Exact(msgs, first, run, es) && Fits(msgs, p) && p.index >= |run.handed|
    ensures var (rx', status) := Deposit(run.rx, FragmentOf(msgs, p));
      status.Ok? && var idx := (first + p.index) % FLIGHT;
      rx'.slots[idx].Some? && rx' == run.rx.(slots := run.rx.slots[idx := rx'.slots[idx]])
      && rx'.slots[idx].value.bytes.Keys == Arrived(es, p.index) + Range(p.off, p.off + p.len)
  {
    hide Stored, WindowInv, Deposit, Number, Range, Arrived, Heard, FragmentOf, MessageOf, Genuine, Messages, Numbered;
    FragmentFields(msgs, first, run.rx.limit, p);
    var i, f := p.index, FragmentOf(msgs, p);
    PlainPosition(msgs, first, run, i);
    NothingArrived(es, i);
    assert SlotExact(run.rx.slots[(first + i) % FLIGHT], Heard(es, i), Arrived(es, i));
    SlotIsPart(msgs, first, run, i);
    hide Inv, Exact, Flight;
    DepositLands(run.rx, f, Arrived(es, i));
  }

  /** Without wrap-around, positions in the flight are positions in the window. */
  lemma PlainPosition(msgs: seq<Outgoing>, first: nat, run: Run, i: nat)
    requires Flight(msgs, first, run.rx.limit) && Plain(msgs, first, run.rx.epoch) && Inv(msgs, first, run) && !run.failed
    requires |run.handed| <= i < |msgs|
    ensures |run.rx.slots| == FLIGHT && Number(first, i) == first + i && run.rx.readSeq <= first + i < run.rx.readSeq + FLIGHT
  {
    hide Messages, Genuine, Numbered;
  }

  lemma FragmentFields(msgs: seq<Outgoing>, first: nat, limit: nat, p: Piece)
    requires Flight(msgs, first, limit) && Fits(msgs, p)
    ensures p.Piece?
    ensures var f := FragmentOf(msgs, p);
      f.Valid() && f.header.seqNo == Number(first, p.index) && f.header.msgType == MessageOf(msgs[p.index]).msgType
      && f.header.fragOff == p.off && f.header.fragLen == p.len && p.off + p.len <= f.header.msgLen <= limit
      && f.header.msgLen == |MessageOf(msgs[p.index]).body|
  {
    hide Stored;
    assert Numbered(msgs[p.index], Number(first, p.index), limit);
    StoredHeader(msgs[p.index]);
  }

  lemma {:induction false} NothingArrived(es: seq<Event>, j: nat)
    ensures !Heard(es, j) ==> Arrived(es, j) == {}
  {
    if es != [] { NothingArrived(es[..|es| - 1], j); }
  }

  lemma DeliverExact(msgs: seq<Outgoing>, first: nat, run: Run, es: seq<Event>, p: Piece)
    requires Flight(msgs, first, run.rx.limit) && Plain(msgs, first, run.rx.epoch)
    requires Inv(msgs, first, run) && Exact(msgs, first, run, es) && Fits(msgs, p)
    ensures Exact(msgs, first, Step(msgs, run, Deliver(p)), es + [Deliver(p)])
  {
    hide Stored, Messages, Plaintext, OpenRecord, Arrived, Heard;
    assert Numbered(msgs[p.index], Number(first, p.index), run.rx.limit);
    PieceIsFragment(msgs, run.rx, p);
    Snoc(es, Deliver(p));
    var run' := Step(msgs, run, Deliver(p));
    if p.index >= |run.handed| {
      DeliverLands(msgs, first, run, es, p);
      hide Deposit;
      forall j | |run.handed| <= j < |msgs|
        ensures SlotExact(run'.rx.slots[(first + j) % FLIGHT], Heard(es + [Deliver(p)], j), Arrived(es + [Deliver(p)], j))
      {
        assert SlotExact(run.rx.slots[(first + j) % FLIGHT], Heard(es, j), Arrived(es, j));
        if j != p.index { OtherSlot(first, j, p.index); }
      }
    } else {
      PastIgnored(msgs, first, run, p);
    }
  }

  lemma OtherSlot(first: nat, i: nat, j: nat)
    requires i < FLIGHT && j < FLIGHT && i != j
    ensures (first + i) % FLIGHT != (first + j) % FLIGHT
  {
    if (first + i) % FLIGHT == (first + j) % FLIGHT { ResidueUnique(first + i, first + j, first); }
  }

  lemma PastIgnored(msgs: seq<Outgoing>, first: nat, run: Run, p: Piece)
    requires Flight(msgs, first, run.rx.limit) && Plain(msgs, first, run.rx.epoch)
    requires Inv(msgs, first, run) && !run.failed && Fits(msgs, p) && p.index < |run.handed|
    ensures Deposit(run.rx, FragmentOf(msgs, p)) == (run.rx, Ok)
  {
    hide Merge, Stored, Messages;
    assert Numbered(msgs[p.index], Number(first, p.index), run.rx.limit);
    StoredHeader(msgs[p.index]);
  }

  lemma ConsumeExact(msgs: seq<Outgoing>, first: nat, run: Run, es: seq<Event>)
    requires Flight(msgs, first, run.rx.limit) && Plain(msgs, first, run.rx.epoch)
    requires Inv(msgs, first, run) && Exact(msgs, first, run, es)
    ensures Exact(msgs, first, Step(msgs, run, Consume), es + [Consume])
  {
    hide Stored, Messages, Partial.Complete, Arrived, Heard, Genuine, SlotExact;
    Snoc(es, Consume);
    var run', c := Step(msgs, run, Consume), |run.handed|;
    if Current(run.rx).Some? {
      assert |run'.handed| == c + 1 && run'.rx == Next(run.rx);
      forall j | c + 1 <= j < |msgs|
        ensures SlotExact(run'.rx.slots[(first + j) % FLIGHT], Heard(es + [Consume], j), Arrived(es + [Consume], j))
      {
        LaterSlotStays(msgs, first, run, j);
        assert SlotExact(run.rx.slots[(first + j) % FLIGHT], Heard(es, j), Arrived(es, j));
      }
    }
  }

  /** Handing out a message leaves the slots of the later ones alone. */
  lemma LaterSlotStays(msgs: seq<Outgoing>, first: nat, run: Run, j: nat)
    requires Flight(msgs, first, run.rx.limit) && Plain(msgs, first, run.rx.epoch)
    requires Inv(msgs, first, run) && !run.failed && |run.handed| < j < |msgs| && Current(run.rx).Some?
    ensures Next(run.rx).slots[(first + j) % FLIGHT] == run.rx.slots[(first + j) % FLIGHT]
  {
    hide Stored, Messages, Partial.Complete, Genuine;
    NextKeeps(run.rx);
    OtherSlot(first, j, |run.handed|);
  }

  lemma {:induction false} RunExact(msgs: seq<Outgoing>, first: nat, start: Receiver, es: seq<Event>)
    requires Fresh(start, first, start.limit) && Flight(msgs, first, start.limit) && Possible(msgs, es)
    requires Plain(msgs, first, start.epoch)
    ensures Exact(msgs, first, Outcome(msgs, start, es), es)
    decreases |es|
  {
    hide Exact, Inv, Plaintext, OpenRecord, Stored, Genuine, Step;
    if es == [] {
      NothingYet(msgs, first, start);
    } else {
      var before := es[..|es| - 1];
      RunKeeps(msgs, first, start, before);
      RunExact(msgs, first, start, before);
      assert es == before + [es[|es| - 1]];
      match es[|es| - 1] {
        case Deliver(p) => DeliverExact(msgs, first, Outcome(msgs, start, before), before, p);
        case Consume => ConsumeExact(msgs, first, Outcome(msgs, start, before), before);
      }
    }
  }

  lemma NothingYet(msgs: seq<Outgoing>, first: nat, start: Receiver)
    requires Fresh(start, first, start.limit)
    ensures Exact(msgs, first, Run(start, [], false), [])
  {
  }

  /** The body of message j has arrived completely. */
  ghost predicate Covered(msgs: seq<Outgoing>, es: seq<Event>, j: nat)
    requires j < |msgs|
  {
    forall k: nat :: k < |MessageOf(msgs[j]).body| ==> k in Arrived(es, j)
  }

  /** Message j is available exactly when all messages before it have been taken and the fragments that have
      arrived, in whatever order and however often, cover its body. */
  ghost predicate Available(msgs: seq<Outgoing>, start: Receiver, es: seq<Event>, j: nat)
    requires |start.slots| == FLIGHT && Possible(msgs, es) && j < |msgs|
  {
    var run := Outcome(msgs, start, es);
    !run.failed && (Current(run.rx).Some? && j == |run.handed| <==>
      j == |run.handed| && Heard(es, j) && Covered(msgs, es, j))
  }

  /** The numbers of the flight not wrapping, and outside epoch 1, that is so in every run. */
  lemma AvailableExactly(msgs: seq<Outgoing>, first: nat, start: Receiver, es: seq<Event>, j: nat)
    requires Fresh(start, first, start.limit) && Flight(msgs, first, start.limit) && Possible(msgs, es)
    requires Plain(msgs, first, start.epoch) && j < |msgs|
    ensures Available(msgs, start, es, j)
  {
    assert first < TWO_16 && |msgs| <= FLIGHT;
    hide Inv, Exact, Flight, Covered, Heard, Outcome, Current;
    RunKeeps(msgs, first, start, es);
    RunExact(msgs, first, start, es);
    AvailableNow(msgs, first, Outcome(msgs, start, es), es, j);
  }

  lemma AvailableNow(msgs: seq<Outgoing>, first: nat, run: Run, es: seq<Event>, j: nat)
    requires Inv(msgs, first, run) && Exact(msgs, first, run, es) && first < TWO_16 && |msgs| <= FLIGHT
    requires Plain(msgs, first, run.rx.epoch) && j < |msgs|
    ensures !run.failed && (j == |run.handed| ==>
      (Current(run.rx).Some? <==> Heard(es, j) && Covered(msgs, es, j)))
  {
    hide Stored, Arrived, Heard, Genuine, MessageOf, Current;
    if j == |run.handed| {
      assert SlotExact(run.rx.slots[(first + j) % FLIGHT], Heard(es, j), Arrived(es, j));
      assert run.rx.readSeq == first + j == Number(first, j);
      SlotIsPart(msgs, first, run, j);
      hide Inv, Exact, Number, PartOf, SlotExact;
      CompleteIsCovered(msgs[j], first + j, run.rx, Heard(es, j), Arrived(es, j));
    }
  }

  lemma CompleteIsCovered(m: Outgoing, number: nat, rx: Receiver, heard: bool, arrived: set<nat>)
    requires |rx.slots| == FLIGHT && rx.readSeq == number && SlotExact(rx.slots[number % FLIGHT], heard, arrived)
    requires rx.slots[number % FLIGHT].Some? ==> PartOf(m, number, rx.slots[number % FLIGHT].value)
    ensures Current(rx).Some? <==> heard && forall k: nat :: k < |MessageOf(m).body| ==> k in arrived
  {
    hide MessageOf;
    if heard {
      var p := rx.slots[number % FLIGHT].value;
      assert p.Complete() <==> forall k: nat :: k < |MessageOf(m).body| ==> k in arrived;
    }
  }

  // ---------------------------------------------------------------- what the sender sends is enough

  /** Everything the sender puts into packets is a possible delivery. */
  lemma {:induction false} SentPiecesFit(msgs: seq<Outgoing>, from: (nat, nat), ps: seq<Piece>, to: (nat, nat))
    requires Leads(msgs, from, ps, to)
    ensures forall p :: p in ps ==> Fits(msgs, p)
    decreases |ps|
  {
    hide Fits, After;
    if ps != [] {
      var n := |ps| - 1;
      SentPiecesFit(msgs, from, ps[..n], if ps[n].Ccs? then (ps[n].index, 0) else (ps[n].index, ps[n].off));
    }
  }

  lemma {:induction false} DeliveredArrives(es: seq<Event>, p: Piece)
    requires p.Piece? && Deliver(p) in es
    ensures Heard(es, p.index) && forall k: nat :: Between(p.off, k, p.off + p.len) ==> k in Arrived(es, p.index)
  {
    var n := |es| - 1;
    if es[n] != Deliver(p) {
      assert Deliver(p) in es[..n];
      DeliveredArrives(es[..n], p);
    }
  }

  lemma {:induction false} TileContains(ts: seq<Piece>, end: nat, k: nat) returns (t: Piece)
    requires Tile(ts, end) && k < end
    ensures t in ts && t.Piece? && Between(t.off, k, t.off + t.len)
  {
    t := ts[|ts| - 1];
    if k < t.off { t := TileContains(ts[..|ts| - 1], t.off, k); }
  }

  lemma {:induction false} PiecesOfSubset(ps: seq<Piece>, j: nat)
    ensures forall p :: p in PiecesOf(ps, j) ==> p in ps && p.index == j
  {
    if ps != [] { PiecesOfSubset(ps[..|ps| - 1], j); }
  }

  /** Once every piece of one pass over the flight has been delivered, in any order and mixed with anything else,
      every message is covered: taking messages one after the other hands out the whole flight. */
  lemma OnePassCovers(msgs: seq<Outgoing>, first: nat, limit: nat, ps: seq<Piece>, es: seq<Event>, j: nat)
    requires Flight(msgs, first, limit) && Leads(msgs, (0, 0), ps, (|msgs|, 0)) && j < |msgs|
    requires forall p :: p in ps ==> Deliver(p) in es
    ensures Heard(es, j) && Covered(msgs, es, j)
  {
    hide Stored, Leads, Heard, Arrived, PiecesOf, Tile;
    assert Numbered(msgs[j], Number(first, j), limit);
    FlightTiled(msgs, ps);
    assert Whole(msgs, ps, j);
    PiecesOfSubset(ps, j);
    var ts := PiecesOf(ps, j);
    assert ts != [] by { if ts == [] { EmptyTileEnd(BodyLength(msgs[j])); } }
    assert ts[0] in ts && ts[0].Piece?  by { FirstIsPiece(ts, BodyLength(msgs[j])); }
    DeliveredArrives(es, ts[0]);
    forall k: nat | k < |MessageOf(msgs[j]).body| ensures k in Arrived(es, j) {
      var t := TileContains(ts, BodyLength(msgs[j]), k);
      DeliveredArrives(es, t);
    }
  }

  lemma EmptyTileEnd(end: nat)
    ensures Tile([], end) ==> end == 0
  {
  }

  lemma {:induction false} FirstIsPiece(ts: seq<Piece>, end: nat)
    requires Tile(ts, end) && ts != []
    ensures ts[0].Piece?
  {
    if |ts| > 1 { FirstIsPiece(ts[..|ts| - 1], ts[|ts| - 1].off); }
  }

  // ---------------------------------------------------------------- where the guarantee stops

  /** In epoch 1 a handshake record is an error exactly when its message is not the expected one, so a late
      duplicate ends the connection there. */
  lemma EpochOne(msgs: seq<Outgoing>, first: nat, run: Run, p: Piece)
    requires Flight(msgs, first, run.rx.limit) && Inv(msgs, first, run) && !run.failed && run.rx.epoch == 1
    requires Fits(msgs, p)
    ensures Step(msgs, run, Deliver(p)).failed <==> p.index != |run.handed|
  {
    hide Stored, Plaintext, OpenRecord, Messages, Merge;
    assert Numbered(msgs[p.index], Number(first, p.index), run.rx.limit);
    PieceIsFragment(msgs, run.rx, p);
    StoredHeader(msgs[p.index]);
    if p.index == |run.handed| {
      SlotIsPart(msgs, first, run, p.index);
    } else if Number(first, p.index) == Number(first, |run.handed|) {
      NumberUnique(first, p.index, |run.handed|);
    }
  }

  lemma FitsWhole(msgs: seq<Outgoing>, i: nat)
    requires i < |msgs| && !msgs[i].isCcs && Stored(msgs[i]).Some?
    ensures Fits(msgs, WholePiece(msgs, i)) && BodyLength(msgs[i]) == |Stored(msgs[i]).value.body|
  {
    hide Stored;
  }

  ghost predicate AlwaysAvailable(msgs: seq<Outgoing>, start: Receiver)
    requires |start.slots| == FLIGHT
  {
    forall es, j: nat :: Possible(msgs, es) && j < |msgs| ==> Available(msgs, start, es, j)
  }

  /** One more event. */
  lemma OneMore(msgs: seq<Outgoing>, start: Receiver, es: seq<Event>, e: Event)
    requires |start.slots| == FLIGHT && Possible(msgs, es) && (e.Deliver? ==> Fits(msgs, e.piece))
    ensures Possible(msgs, es + [e]) && Outcome(msgs, start, es + [e]) == Step(msgs, Outcome(msgs, start, es), e)
  {
    assert (es + [e])[..|es|] == es;
    hide Step;
  }

  lemma WholeCovers(msgs: seq<Outgoing>, es: seq<Event>, i: nat)
    requires i < |msgs| && !msgs[i].isCcs && Stored(msgs[i]).Some?
    ensures Heard(es + [Deliver(WholePiece(msgs, i))], i) && Covered(msgs, es + [Deliver(WholePiece(msgs, i))], i)
  {
    FitsWhole(msgs, i);
    Snoc(es, Deliver(WholePiece(msgs, i)));
    hide Arrived, Heard, Stored;
    forall k: nat | k < |MessageOf(msgs[i]).body| ensures k in Arrived(es + [Deliver(WholePiece(msgs, i))], i) {
      assert Between(0, k, BodyLength(msgs[i]));
    }
  }

  /** If messages were always available in time, the next one could be delivered and taken. */
  lemma DeliverAndTake(msgs: seq<Outgoing>, first: nat, start: Receiver, es: seq<Event>, i: nat) returns (es': seq<Event>)
    requires Fresh(start, first, start.limit) && Flight(msgs, first, start.limit) && AlwaysAvailable(msgs, start)
    requires Possible(msgs, es) && i < |msgs| && |Outcome(msgs, start, es).handed| == i
    ensures Possible(msgs, es') && |Outcome(msgs, start, es').handed| == i + 1
    ensures es' == es + [Deliver(WholePiece(msgs, i))] + [Consume]
    ensures Outcome(msgs, start, es') == Step(msgs, Outcome(msgs, start, es + [Deliver(WholePiece(msgs, i))]), Consume)
  {
    assert Numbered(msgs[i], Number(first, i), start.limit);
    FitsWhole(msgs, i);
    hide Stored, OpenRecord, Plaintext, Flight, Heard, Covered, Arrived, Outcome;
    var d := Deliver(WholePiece(msgs, i));
    OneMore(msgs, start, es, d);
    OneMore(msgs, start, es + [d], Consume);
    WholeCovers(msgs, es, i);
    assert Available(msgs, start, es, i) && Available(msgs, start, es + [d], i);
    es' := es + [d] + [Consume];
  }

  /** In epoch 1 a duplicate of a message already taken is an error. */
  lemma EpochOneFails(msgs: seq<Outgoing>, first: nat, start: Receiver)
    requires Fresh(start, first, start.limit) && Flight(msgs, first, start.limit) && msgs != [] && start.epoch == 1
    ensures !AlwaysAvailable(msgs, start)
  {
    if AlwaysAvailable(msgs, start) {
      assert Outcome(msgs, start, []) == Run(start, [], false);
      var es := DeliverAndTake(msgs, first, start, [], 0);
      RunKeeps(msgs, first, start, es);
      assert Numbered(msgs[0], Number(first, 0), start.limit);
      FitsWhole(msgs, 0);
      hide Outcome, Step, Inv, Stored, Flight;
      OneMore(msgs, start, es, Deliver(WholePiece(msgs, 0)));
      assert Available(msgs, start, es, 0) && Available(msgs, start, es + [Deliver(WholePiece(msgs, 0))], 0);
      EpochOne(msgs, first, Outcome(msgs, start, es), WholePiece(msgs, 0));
    }
  }

  /** The first message after the wrap arrives first; then the messages before it are delivered and taken. */
  lemma {:induction false} TakeUpTo(msgs: seq<Outgoing>, first: nat, start: Receiver, late: nat, i: nat) returns (es: seq<Event>)
    requires Fresh(start, first, start.limit) && Flight(msgs, first, start.limit) && AlwaysAvailable(msgs, start)
    requires i < late < |msgs|
    ensures Possible(msgs, es) && |Outcome(msgs, start, es).handed| == i && Heard(es, late) && Covered(msgs, es, late)
    decreases i
  {
    assert Numbered(msgs[late], Number(first, late), start.limit);
    FitsWhole(msgs, late);
    hide Stored, Flight, AlwaysAvailable, Step, MessageOf;
    if i == 0 {
      es := [Deliver(WholePiece(msgs, late))];
      assert [] + es == es && Outcome(msgs, start, []) == Run(start, [], false);
      OneMore(msgs, start, [], es[0]);
      WholeCovers(msgs, [], late);
      DeliverHandsNothing(msgs, Outcome(msgs, start, []), WholePiece(msgs, late));
    } else {
      var before := TakeUpTo(msgs, first, start, late, i - 1);
      es := DeliverAndTake(msgs, first, start, before, i - 1);
      KeepsCovered(msgs, before, Deliver(WholePiece(msgs, i - 1)), late);
      KeepsCovered(msgs, before + [Deliver(WholePiece(msgs, i - 1))], Consume, late);
    }
  }

  lemma DeliverHandsNothing(msgs: seq<Outgoing>, run: Run, p: Piece)
    requires |run.rx.slots| == FLIGHT && Fits(msgs, p)
    ensures Step(msgs, run, Deliver(p)).handed == run.handed
  {
    hide OpenRecord, Plaintext, Stored;
  }

  lemma KeepsCovered(msgs: seq<Outgoing>, es: seq<Event>, e: Event, j: nat)
    requires j < |msgs| && Heard(es, j) && Covered(msgs, es, j)
    ensures Heard(es + [e], j) && Covered(msgs, es + [e], j)
  {
    Snoc(es, e);
    hide Arrived, Heard, MessageOf;
  }

  /** When the 16-bit numbers wrap inside a flight, fragments from after the wrap are ignored until the messages
      before it have been taken: once they have, every slot is empty. */
  lemma WrapEmpties(rx: Receiver)
    requires WindowInv(rx) && rx.readSeq == TWO_16 - 1 && Current(rx).Some?
    ensures Current(Next(rx)).None?
  {
    NextKeeps(rx);
    hide Partial.Complete;
    var next := Next(rx);
    assert rx.slots[0].Some? ==> InWindow(rx.readSeq, 0, rx.slots[0].value);
    assert next.slots[0].Some? ==> InWindow(next.readSeq, 0, next.slots[0].value);
  }

  lemma NowCurrent(msgs: seq<Outgoing>, start: Receiver, es: seq<Event>, j: nat)
    requires |start.slots| == FLIGHT && AlwaysAvailable(msgs, start) && Possible(msgs, es) && j < |msgs|
    requires |Outcome(msgs, start, es).handed| == j && Heard(es, j) && Covered(msgs, es, j)
    ensures Current(Outcome(msgs, start, es).rx).Some?
  {
    hide Outcome, Heard, Covered, Current;
    assert Available(msgs, start, es, j);
  }

  /** Taking message 65535 leaves nothing to take. */
  lemma AtWrap(msgs: seq<Outgoing>, first: nat, run: Run)
    requires Inv(msgs, first, run) && first + |run.handed| == TWO_16 - 1
    ensures Step(msgs, run, Consume).handed != run.handed ==> Current(Step(msgs, run, Consume).rx).None?
  {
    hide Genuine, Messages;
    if !run.failed && Current(run.rx).Some? { WrapEmpties(run.rx); }
  }

  lemma WrapFails(msgs: seq<Outgoing>, first: nat, start: Receiver)
    requires Fresh(start, first, start.limit) && Flight(msgs, first, start.limit) && first + |msgs| > TWO_16
    ensures !AlwaysAvailable(msgs, start)
  {
    if AlwaysAvailable(msgs, start) {
      var late: nat := TWO_16 - first;
      assert first < TWO_16;
      var es := TakeUpTo(msgs, first, start, late, late - 1);
      var d := Deliver(WholePiece(msgs, late - 1));
      var es' := DeliverAndTake(msgs, first, start, es, late - 1);
      KeepsCovered(msgs, es, d, late);
      KeepsCovered(msgs, es + [d], Consume, late);
      RunKeeps(msgs, first, start, es + [d]);
      WholeCovers(msgs, es, late - 1) by { assert Numbered(msgs[late - 1], Number(first, late - 1), start.limit); }
      hide Step, Stored, Flight, Heard, Covered, OpenRecord, Plaintext, Genuine, Messages;
      NowCurrent(msgs, start, es', late);
      AtWrap(msgs, first, Outcome(msgs, start, es + [d]));
    }
  }

  /** Messages are always available exactly when their fragments have arrived if and only if the numbers of the
      flight do not wrap and the epoch is not the one that holds a single message. */
  lemma AvailableIff(msgs: seq<Outgoing>, first: nat, start: Receiver)
    requires Fresh(start, first, start.limit) && Flight(msgs, first, start.limit)
    ensures AlwaysAvailable(msgs, start) <==> msgs == [] || Plain(msgs, first, start.epoch)
  {
    hide Flight, Available;
    if msgs != [] && Plain(msgs, first, start.epoch) {
      forall es, j: nat | Possible(msgs, es) && j < |msgs| ensures Available(msgs, start, es, j) {
        AvailableExactly(msgs, first, start, es, j);
      }
    } else if msgs != [] {
      if start.epoch == 1 { EpochOneFails(msgs, first, start); } else { WrapFails(msgs, first, start); }
    }
  }
}
