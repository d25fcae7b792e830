/** The DTLS handshake fragment: a 12-byte header and a piece of the message body (RFC 6347 section 4.2.2). */
module DtlsWire {
  import opened BigEndianBytes
  import opened Common

  const HEADER_LENGTH: nat := 12               // DTLS1_HM_HEADER_LENGTH
  const FLIGHT: nat := 7                       // SSL_MAX_HANDSHAKE_FLIGHT

  /** hm_header_st */
  datatype Header = Header(msgType: byte, msgLen: nat, seqNo: nat, fragOff: nat, fragLen: nat)
  {
    predicate Valid() { msgLen < TWO_24 && seqNo < TWO_16 && fragOff < TWO_24 && fragLen < TWO_24 }
  }

  datatype Fragment = Fragment(header: Header, body: seq<byte>)
  {
    predicate Valid() { header.Valid() && |body| == header.fragLen }
  }

  function SerializeHeader(h: Header): (r: seq<byte>)
    ensures |r| == HEADER_LENGTH
  {
    [h.msgType] + ToBytes(h.msgLen, 3) + ToBytes(h.seqNo, 2) + ToBytes(h.fragOff, 3) + ToBytes(h.fragLen, 3)
  }

  function Serialize(f: Fragment): seq<byte> { SerializeHeader(f.header) + f.body }

  /** dtls1_parse_fragment: the fragment at the front and what follows it. */
  function Parse(b: seq<byte>): (r: Option<(Fragment, seq<byte>)>)
    ensures r.Some? ==> |r.value.1| + HEADER_LENGTH <= |b|
  {
    if |b| < HEADER_LENGTH then None
    else
      var h := Header(b[0], BigEndian(b[1..4]), BigEndian(b[4..6]), BigEndian(b[6..9]), BigEndian(b[9..12]));
      if |b| < HEADER_LENGTH + h.fragLen then None
      else Some((Fragment(h, b[HEADER_LENGTH..HEADER_LENGTH + h.fragLen]), b[HEADER_LENGTH + h.fragLen..]))
  }

  lemma SmallScales()
    ensures Scale(1, 2) == TWO_16 && Scale(1, 3) == TWO_24
  {
    assert Scale(1, 1) == 256;
  }

  lemma HeaderFields(h: Header, x: seq<byte>)
    ensures var b := SerializeHeader(h) + x;
      b[0] == h.msgType && b[1..4] == ToBytes(h.msgLen, 3) && b[4..6] == ToBytes(h.seqNo, 2)
      && b[6..9] == ToBytes(h.fragOff, 3) && b[9..12] == ToBytes(h.fragLen, 3) && b[12..] == x
  {
    hide ToBytes;
  }

  /** Where each field stands, highest byte first: the type, three bytes of message length, two of message number, three
      of offset, three of fragment length, and then the bytes of the fragment. */
  lemma FragmentLayout(f: Fragment)
    requires f.Valid()
    ensures var b, h := Serialize(f), f.header;
      && |b| == 12 + h.fragLen && b[0] == h.msgType && b[12..] == f.body
      && (b[1] as int) * 0x1_0000 + (b[2] as int) * 256 + b[3] as int == h.msgLen
      && (b[4] as int) * 256 + b[5] as int == h.seqNo
      && (b[6] as int) * 0x1_0000 + (b[7] as int) * 256 + b[8] as int == h.fragOff
      && (b[9] as int) * 0x1_0000 + (b[10] as int) * 256 + b[11] as int == h.fragLen
  {
    hide ToBytes;
    BytesInOrder(f.header.msgLen);
    BytesInOrder(f.header.seqNo);
    BytesInOrder(f.header.fragOff);
    BytesInOrder(f.header.fragLen);
  }

  /** Whatever is written as one fragment is read back as that fragment, with what follows untouched. */
  lemma ParseOfSerialize(f: Fragment, rest: seq<byte>)
    requires f.Valid()
    ensures Parse(Serialize(f) + rest) == Some((f, rest))
  {
    hide ToBytes, BigEndian, SerializeHeader, Scale;
    var b := Serialize(f) + rest;
    assert b == SerializeHeader(f.header) + (f.body + rest);
    HeaderFields(f.header, f.body + rest);
    SmallScales();
    ToBytesValue(f.header.msgLen, 3);
    ToBytesValue(f.header.seqNo, 2);
    ToBytesValue(f.header.fragOff, 3);
    ToBytesValue(f.header.fragLen, 3);
    var n := f.header.fragLen;
    assert b[12..12 + n] == b[12..][..n] == f.body && b[12 + n..] == b[12..][n..] == rest;
  }

  /** And nothing else is read: what parses is the serialization of what it parses to. */
  lemma SerializeOfParse(b: seq<byte>)
    ensures Parse(b).Some? ==> Parse(b).value.0.Valid() && Serialize(Parse(b).value.0) + Parse(b).value.1 == b
  {
    if Parse(b).Some? {
      var h := Parse(b).value.0.header;
      SmallScales();
      BytesOfValue(b[1..4]);
      BytesOfValue(b[4..6]);
      BytesOfValue(b[6..9]);
      BytesOfValue(b[9..12]);
      hide ToBytes, BigEndian, Scale;
      assert SerializeHeader(h) == b[..12];
    }
  }
}
