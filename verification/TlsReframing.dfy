/** Re-framing of TLS handshake messages: records are appended to a buffer from which whole messages are taken
    (RFC 5246 section 7.4). */
module TlsReframing {
  import opened BigEndianBytes
  import opened Common

  const HEADER: nat := 4                       // type and 24-bit length

  datatype Message = Message(msgType: byte, body: seq<byte>)
  {
    predicate Valid() { |body| < TWO_24 }
  }

  /** The message as ssl3_init_message and ssl3_finish_message lay it out. */
  function Frame(m: Message): (r: seq<byte>)
    ensures |r| == HEADER + |m.body|
  {
    [m.msgType] + ToBytes(|m.body|, 3) + m.body
  }

  datatype Parse = Need(bytes: nat) | Got(message: Message, rest: seq<byte>)

  /** parse_message: the message at the front, or how many bytes it takes to see it. */
  function ParseMessage(b: seq<byte>): (r: Parse)
    ensures r.Got? ==> |r.rest| < |b|
    ensures r.Need? ==> r.bytes > |b|
  {
    if |b| < HEADER then Need(HEADER)
    else
      var len := BigEndian(b[1..4]);
      if |b| < HEADER + len then Need(HEADER + len) else Got(Message(b[0], b[4..4 + len]), b[4 + len..])
  }

  function Stream(msgs: seq<Message>): seq<byte>
  {
    if msgs == [] then [] else Frame(msgs[0]) + Stream(msgs[1..])
  }

  ghost predicate AllValid(msgs: seq<Message>) { forall m :: m in msgs ==> m.Valid() }

  lemma Scale3()
    ensures Scale(1, 3) == TWO_24
  {
    assert Scale(1, 1) == 256 && Scale(1, 2) == 0x1_0000;
  }

  /** On the wire: the type, three bytes of length with the highest first, and the body. */
  lemma FrameLayout(m: Message)
    requires m.Valid()
    ensures var b := Frame(m);
      b[0] == m.msgType && (b[1] as int) * 0x1_0000 + (b[2] as int) * 256 + b[3] as int == |m.body| && b[4..] == m.body
  {
    hide ToBytes;
    BytesInOrder(|m.body|);
  }

  lemma ParseOfFrame(m: Message, rest: seq<byte>)
    requires m.Valid()
    ensures ParseMessage(Frame(m) + rest) == Got(m, rest)
  {
    Scale3();
    ToBytesValue(|m.body|, 3);
    hide ToBytes, BigEndian, Scale;
    var b := Frame(m) + rest;
    assert b[1..4] == ToBytes(|m.body|, 3);
    assert b[4..4 + |m.body|] == m.body && b[4 + |m.body|..] == rest;
  }

  lemma FrameOfParse(b: seq<byte>)
    ensures ParseMessage(b).Got? ==> ParseMessage(b).message.Valid() && Frame(ParseMessage(b).message) + ParseMessage(b).rest == b
  {
    if ParseMessage(b).Got? {
      Scale3();
      BytesOfValue(b[1..4]);
      hide ToBytes, BigEndian, Scale;
      assert b == [b[0]] + b[1..4] + b[4..];
    }
  }

  /** A proper part of the frames of a list is not yet a message of its own: what can be parsed from it is the
      first message of the list. */
  lemma ParsePrefix(b: seq<byte>, more: seq<byte>)
    ensures ParseMessage(b).Got? ==> ParseMessage(b + more) == Got(ParseMessage(b).message, ParseMessage(b).rest + more)
  {
    if ParseMessage(b).Got? {
      FrameOfParse(b);
      var m, rest := ParseMessage(b).message, ParseMessage(b).rest;
      hide ParseMessage, Frame;
      assert b + more == Frame(m) + (rest + more);
      ParseOfFrame(m, rest + more);
    }
  }

  // ---------------------------------------------------------------- every interleaving

  datatype Op = Append(record: seq<byte>) | Take

  /** The reader: what is in hs_buf, and what has been handed out. */
  datatype Reader = Reader(buf: seq<byte>, taken: seq<Message>)

  function Step(r: Reader, op: Op): Reader
  {
    match op
    case Append(record) => Reader(r.buf + record, r.taken)
    case Take => (match ParseMessage(r.buf) case Need(_) => r case Got(m, rest) => Reader(rest, r.taken + [m]))
  }

  function Run(r: Reader, ops: seq<Op>): Reader
    decreases |ops|
  {
    if ops == [] then r else Run(Step(r, ops[0]), ops[1..])
  }

  function Appended(ops: seq<Op>): seq<byte>
  {
    if ops == [] then [] else (if ops[0].Append? then ops[0].record else []) + Appended(ops[1..])
  }

  lemma {:induction false} StreamAppend(msgs: seq<Message>, m: Message)
    ensures Stream(msgs + [m]) == Stream(msgs) + Frame(m)
  {
    hide Frame;
    if msgs == [] {
      assert Stream([m]) == Frame(m) + Stream([m][1..]);
    } else {
      assert (msgs + [m])[1..] == msgs[1..] + [m];
      StreamAppend(msgs[1..], m);
    }
  }

  lemma StepConserves(r: Reader, op: Op)
    requires AllValid(r.taken)
    ensures AllValid(Step(r, op).taken)
    ensures Stream(Step(r, op).taken) + Step(r, op).buf == Stream(r.taken) + r.buf + (if op.Append? then op.record else [])
  {
    hide Frame, ParseMessage, Stream;
    if op.Take? {
      FrameOfParse(r.buf);
      if ParseMessage(r.buf).Got? { StreamAppend(r.taken, ParseMessage(r.buf).message); }
    }
  }

  /** Nothing is lost or made up: the frames handed out and the buffer are exactly the bytes appended. */
  lemma {:induction false} RunConserves(r: Reader, ops: seq<Op>)
    requires AllValid(r.taken)
    ensures AllValid(Run(r, ops).taken)
    ensures Stream(Run(r, ops).taken) + Run(r, ops).buf == Stream(r.taken) + r.buf + Appended(ops)
    decreases |ops|
  {
    hide Stream, Step, AllValid;
    if ops != [] {
      StepConserves(r, ops[0]);
      RunConserves(Step(r, ops[0]), ops[1..]);
    }
  }

  /** Two lists of messages whose bytes agree start with the same message. */
  lemma SameFirst(msgs: seq<Message>, taken: seq<Message>, rest: seq<byte>)
    requires AllValid(msgs) && AllValid(taken) && taken != [] && msgs != [] && Stream(taken) + rest == Stream(msgs)
    ensures taken[0] == msgs[0] && Stream(taken[1..]) + rest == Stream(msgs[1..])
  {
    hide Frame, ParseMessage;
    ParseOfFrame(msgs[0], Stream(msgs[1..]));
    ParseOfFrame(taken[0], Stream(taken[1..]) + rest);
    assert Frame(taken[0]) + (Stream(taken[1..]) + rest) == Stream(taken) + rest;
  }

  /** Streams of messages are uniquely readable. */
  lemma {:induction false} StreamUnique(msgs: seq<Message>, taken: seq<Message>, buf: seq<byte>)
    requires AllValid(msgs) && AllValid(taken) && Stream(taken) + buf == Stream(msgs) && ParseMessage(buf).Need?
    ensures taken == msgs && buf == []
  {
    hide Frame, ParseMessage;
    assert [] + buf == buf;
    if msgs != [] {
      ParseOfFrame(msgs[0], Stream(msgs[1..]));
      if taken != [] {
        SameFirst(msgs, taken, buf);
        StreamUnique(msgs[1..], taken[1..], buf);
        assert taken == [taken[0]] + taken[1..] && msgs == [msgs[0]] + msgs[1..];
      }
    }
  }

  /** However the bytes of a list of messages are cut into records, and however appending and taking alternate,
      once no further message can be taken exactly that list has been handed out and the buffer is empty. */
  lemma Reframed(msgs: seq<Message>, ops: seq<Op>)
    requires AllValid(msgs) && Appended(ops) == Stream(msgs)
    ensures var r := Run(Reader([], []), ops);
      ParseMessage(r.buf).Need? ==> r == Reader([], msgs)
  {
    var start := Reader([], []);
    RunConserves(start, ops);
    assert Stream(start.taken) + start.buf + Appended(ops) == Stream(msgs);
    var r := Run(start, ops);
    if ParseMessage(r.buf).Need? { StreamUnique(msgs, r.taken, r.buf); }
  }

  /** And while bytes are still missing, what has been handed out is a prefix of the list. */
  lemma {:induction false} TakenIsPrefix(msgs: seq<Message>, taken: seq<Message>, rest: seq<byte>)
    requires AllValid(msgs) && AllValid(taken) && Stream(taken) + rest == Stream(msgs)
    ensures taken <= msgs
  {
    hide Frame, ParseMessage;
    if taken != [] {
      ParseOfFrame(taken[0], Stream(taken[1..]) + rest);
      assert Frame(taken[0]) + (Stream(taken[1..]) + rest) == Stream(taken) + rest;
      assert msgs != [];
      SameFirst(msgs, taken, rest);
      TakenIsPrefix(msgs[1..], taken[1..], rest);
      assert taken == [taken[0]] + taken[1..] && msgs == [msgs[0]] + msgs[1..];
    }
  }

  // ---------------------------------------------------------------- the split that the sender makes

  /** Records that carry each message in consecutive pieces of its own, as ssl3_add_message cuts them. */
  ghost predicate CutFrom(msgs: seq<Message>, cuts: seq<seq<seq<byte>>>)
  {
    |cuts| == |msgs| && forall i :: 0 <= i < |msgs| ==> Flatten(cuts[i]) == Frame(msgs[i])
  }

  lemma {:induction false} FlattenConcat<T>(a: seq<seq<T>>, b: seq<seq<T>>)
    ensures Flatten(a + b) == Flatten(a) + Flatten(b)
  {
    if a == [] {
      assert a + b == b;
    } else {
      assert (a + b)[1..] == a[1..] + b;
      FlattenConcat(a[1..], b);
      assert a[0] + (Flatten(a[1..]) + Flatten(b)) == a[0] + Flatten(a[1..]) + Flatten(b);
    }
  }

  lemma {:induction false} CutsAreStream(msgs: seq<Message>, cuts: seq<seq<seq<byte>>>)
    requires CutFrom(msgs, cuts)
    ensures Flatten(Flatten(cuts)) == Stream(msgs)
  {
    hide Frame;
    if msgs != [] {
      FlattenConcat(cuts[0], Flatten(cuts[1..]));
      CutsAreStream(msgs[1..], cuts[1..]);
    }
  }

  /** Appending each record and taking all that can be taken after it. */
  function Drive(buf: seq<byte>, records: seq<seq<byte>>): (seq<Message>, seq<byte>)
    decreases |records|, |buf|
  {
    match ParseMessage(buf)
    case Got(m, rest) => var (ms, end) := Drive(rest, records); ([m] + ms, end)
    case Need(_) => if records == [] then ([], buf) else Drive(buf + records[0], records[1..])
  }

  /** The receive loop delivers what the sender cut up: the same messages, in order, and nothing left over. */
  lemma SenderToReader(msgs: seq<Message>, cuts: seq<seq<seq<byte>>>)
    requires AllValid(msgs) && CutFrom(msgs, cuts)
    ensures Drive([], Flatten(cuts)) == (msgs, [])
  {
    CutsAreStream(msgs, cuts);
    assert [] + Flatten(Flatten(cuts)) == Stream(msgs);
    DriveAll(msgs, [], Flatten(cuts));
  }

  lemma {:induction false} DriveAll(msgs: seq<Message>, buf: seq<byte>, records: seq<seq<byte>>)
    requires AllValid(msgs) && buf + Flatten(records) == Stream(msgs)
    ensures Drive(buf, records) == (msgs, [])
    decreases |records|, |buf|
  {
    hide Frame, ParseMessage;
    match ParseMessage(buf)
    case Got(m, rest) =>
      FrameOfParse(buf);
      assert Frame(m) + (rest + Flatten(records)) == Stream(msgs);
      FirstMessage(msgs, m, rest + Flatten(records));
      DriveAll(msgs[1..], rest, records);
      assert msgs == [msgs[0]] + msgs[1..];
    case Need(_) =>
      if records == [] {
        assert buf + [] == buf == Stream([]) + buf;
        StreamUnique(msgs, [], buf);
      } else {
        assert buf + records[0] + Flatten(records[1..]) == buf + Flatten(records);
        DriveAll(msgs, buf + records[0], records[1..]);
      }
  }

  lemma FirstMessage(msgs: seq<Message>, m: Message, rest: seq<byte>)
    requires AllValid(msgs) && m.Valid() && Frame(m) + rest == Stream(msgs)
    ensures msgs != [] && m == msgs[0] && rest == Stream(msgs[1..])
  {
    hide ParseMessage;
    if msgs != [] {
      ParseOfFrame(msgs[0], Stream(msgs[1..]));
      ParseOfFrame(m, rest);
    }
  }

  // ---------------------------------------------------------------- the object that is updated in place

  class HandshakeReader {
    const limit: nat                           // ssl_max_handshake_message_len
    var buf: Option<seq<byte>>                 // hs_buf
    var hasMessage: bool
    ghost var model: Reader

    ghost predicate Valid()
      reads this
    {
      model.buf == (if buf.Some? then buf.value else []) && (hasMessage ==> ParseMessage(model.buf).Got?)
    }

    constructor (limit: nat)
      ensures Valid() && model == Reader([], []) && this.limit == limit
    {
      this.limit, buf, hasMessage, model := limit, None, false, Reader([], []);
    }

    /** tls_can_accept_handshake_data, and the append of ssl3_open_handshake */
    method OpenHandshake(record: seq<byte>) returns (ok: bool)
      requires Valid()
      modifies this
      ensures Valid() && hasMessage == old(hasMessage)
      ensures ok <==> ParseMessage(old(model.buf)).Need? && ParseMessage(old(model.buf)).bytes <= HEADER + limit
      ensures model == if ok then Step(old(model), Append(record)) else old(model)
    {
      hide ParseMessage;
      var b := if buf.Some? then buf.value else [];
      var parsed := ParseMessage(b);
      if parsed.Got? || parsed.bytes > HEADER + limit {
        return false;
      }
      buf := Some(b + record);
      model := Step(model, Append(record));
      return true;
    }

    /** ssl3_get_message */
    method GetMessage() returns (message: Option<Message>)
      requires Valid()
      modifies this`hasMessage
      ensures Valid() && hasMessage == (old(hasMessage) || message.Some?)
      ensures message == match ParseMessage(model.buf) case Need(_) => None case Got(m, _) => Some(m)
    {
      hide ParseMessage;
      var parsed := ParseMessage(if buf.Some? then buf.value else []);
      if parsed.Need? {
        return None;
      }
      hasMessage := true;
      return Some(parsed.message);
    }

    /** ssl3_next_message; outside the handshake an empty buffer is released */
    method NextMessage(inInit: bool)
      requires Valid() && ParseMessage(model.buf).Got?
      modifies this
      ensures Valid() && !hasMessage && model == Step(old(model), Take)
    {
      hide ParseMessage;
      var parsed := ParseMessage(if buf.Some? then buf.value else []);
      buf := Some(parsed.rest);
      hasMessage := false;
      if !inInit && |parsed.rest| == 0 {
        buf := None;
      }
      model := Step(model, Take);
    }
  }

  /** Messages within the limit are never refused: whatever part of them is in the buffer, the bytes needed stay
      within the limit. */
  lemma WithinLimit(msgs: seq<Message>, b: seq<byte>, more: seq<byte>, limit: nat)
    requires AllValid(msgs) && b + more == Stream(msgs) && forall m :: m in msgs ==> |m.body| <= limit
    ensures ParseMessage(b).Need? ==> ParseMessage(b).bytes <= HEADER + limit
  {
    if ParseMessage(b).Need? && |b| >= HEADER {
      ParseOfFrame(msgs[0], Stream(msgs[1..]));
      assert b[1..4] == (b + more)[1..4];
      assert ParseMessage(b + more).Got? && ParseMessage(b + more).message == msgs[0];
    }
  }
}
