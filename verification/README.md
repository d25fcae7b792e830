# Verified models of the protocol code in wer2's dependencies

The app's own Swift code is screens and database calls. What it relies on is vendored under `wer2/Pods`: the
nanopb Protocol Buffers codec and the TLS/DTLS implementation of BoringSSL. This project models the parts of
them that carry the protocol logic and proves what those parts are for. `dafny verify dfyconfig.toml` checks
everything.

Each part has a specification on values (functions on byte strings, windows, slots, states) about which the
properties are proved, and imperative code (classes, arrays, loops) in the form of the original that is proved
to do what the specification says.

**nanopb.** `PbVarint`, `PbDescriptor`, `PbCodec` say what encoding and decoding mean; a struct is a map from
abstract offsets to typed slots. `PbRoundTrip` proves that decoding undoes encoding, `PbHomomorphism` that
decoding distributes over concatenation and passes over unknown fields. `PbLayout` and `PbValues` give the wire format in
numbers, what every version passes over, and which values are written and accepted; `PbRequired` says which messages are
refused for missing fields. `PbCursor`, `PbEncode`, `PbSeen` and
`PbDecode` are the cursor, the encoder with its sizing pass (`PbSizing`: it covers every well-formed struct), the bit words that record required fields, and the
decoder.

**DTLS** (RFC 6347). `DtlsReplay` is the replay window of section 4.1.2.6, `DtlsSeal` the sequence numbers of
sealed records, `DtlsWire` the fragment header of section 4.2.2. `DtlsReassembly`, `DtlsReceive` and
`DtlsReceiver` reassemble messages in a ring of seven slots (section 4.2.3); `DtlsTiling`, `DtlsPacking` and `DtlsSender` cut a
flight into packets and send it again (section 4.2.4). `DtlsEndToEnd` joins sender and receiver by a network
that loses, duplicates and reorders.

**TLS streams.** `SslBuffer` is the buffer with 16-bit offsets, `TlsAppData` the bookkeeping of application writes, `TlsWriter` the outgoing
queues, `TlsReframing` the way from records back to handshake messages, `CipherChoice` the server's choice of a
cipher suite.

**TLS 1.0 to 1.2 handshake** (RFC 5246, sections 7.3 and 7.4.9). `HsModel` gives every state of client and server
as a function on the endpoint, with messages as an abstract datatype and a Finished as a free term over the
transcript; what callbacks, parsers and cryptography decide is an argument. `HsMachine` is the handshake object
with its loops. `HsSafety` proves what one endpoint guarantees against any peer, and
`HsFailures` that no failure goes unnoticed. `HsScript`, `HsFollow`,
`HsCourse`, `HsJoint` and `HsOutcome` prove that two endpoints that agree complete the handshake in every fair
run, and exactly when they can; `HsFigure` that what they exchange is the message flow of RFC 5246, spelled out from
the settings of both.

`Common`, `Bits` and `BigEndianBytes` hold shared definitions; C's unsigned operators are written arithmetically.

## Findings

The code does not do everything one might expect of it. Each exception is stated with its exact condition, and with a
run that shows it.

- A DTLS message is available as soon as its predecessors are taken and its fragments are in, in every run, if
  and only if the flight is empty, or its numbers do not wrap past 65535 and the epoch is not 1
  (`DtlsEndToEnd.AvailableIff`; wer2/Pods/BoringSSL-GRPC/ssl/d1_both.cc:373-385). Across the wrap early fragments are dropped; in epoch 1 a
  record for any message but the expected one is an error (`DtlsEndToEnd.EpochOne`). That messages are handed out
  in order and unchanged holds without that condition.
- A flight that has been sent to its end is complete on the wire if and only if no round failed to seal after it had
  sealed something (`DtlsPacking.FlightExactly`; wer2/Pods/BoringSSL-GRPC/ssl/d1_both.cc:797-815): only transport
  failures rewind. `DtlsPacking.TinyLost` is a flight that loses its first message.
- Retried application writes send exactly the caller's bytes if and only if no call has a length below what the
  caller has been told (`TlsAppData.ExactlyOnce`; wer2/Pods/BoringSSL-GRPC/ssl/s3_pkt.cc:144-157): such a call forgets
  how much was written. `TlsAppData.SentTwice` and `TlsAppData.Misplaced` are sequences of calls that go wrong.
- A string that `pb_enc_string` accepts is read back if and only if it is shorter than its field
  (`PbRoundTrip.StringNeedsTerminator`; wer2/Pods/nanopb/pb_decode.c:1428-1461).
- `SSLBuffer::Consume` keeps the remaining contents if and only if the offset stays below 2^16 or everything is
  consumed (`SslBuffer.ConsumeExact`; wer2/Pods/BoringSSL-GRPC/ssl/ssl_buffer.cc:90-97). So a full buffer can be written in any
  pieces if and only if its capacity and the alignment slack stay within 16 bits (`SslBuffer.KeepsExactly`); wire order
  (`TlsWriter.TlsWriter.Ordered`) is kept by every write that meets this or is refused, and all else holds without it.
- DTLS records share a (cipher, number) pair if and only if some cipher is used for more than 2^48 of them
  (`DtlsSeal.ReusedExactly`; wer2/Pods/BoringSSL-GRPC/ssl/dtls_record.cc:330-336); `DtlsSeal.WrapReuses` is a run that does.
- A preference list whose last group is not closed by a 0 flag hides that group from the choice: nothing is chosen if
  and only if all usable ciphers are in such groups (`CipherChoice.ChooseFrom`, `CipherChoice.UnendedGroup`; wer2/Pods/BoringSSL-GRPC/ssl/handshake_server.cc:357-424); the
  comment on the list in wer2/Pods/BoringSSL-GRPC/ssl/internal.h:1860-1894 rules such lists out.

## Model

| member | source | states |
|---|---|---|
| `PbVarint.VarintRoundTrip` | wer2/Pods/nanopb/pb_encode.c:574-594 | every uint64 that `pb_encode_varint` writes is read back by `pb_decode_varint`, and the bytes behind it are left untouched |
| `PbVarint.VarintAtMostTenBytes` | wer2/Pods/nanopb/pb_encode.c:574-594 | a uint64 takes between 1 and 10 bytes, so the 10-byte buffer never overflows |
| `PbVarint.EncVarintLength` | wer2/Pods/nanopb/pb_encode.c:574-594 | a value takes at most k bytes if and only if it is below 2^(7k) |
| `PbVarint.VarintMinimal` | wer2/Pods/nanopb/pb_decode.c:250-270 | the encoding is minimal: any byte string that `pb_decode_varint` reads as v is at least as long |
| `PbVarint.VarintFromInWord` | wer2/Pods/nanopb/pb_decode.c:250-270 | whatever `pb_decode_varint` accepts fits in 64 bits, over-long forms included |
| `PbVarint.Varint32RoundTrip` | wer2/Pods/nanopb/pb_decode.c:182-242 | every uint32 written as a varint is read back by the 32-bit reader, trailing bytes untouched |
| `PbVarint.Varint32SignExtended` | wer2/Pods/nanopb/pb_decode.c:182-242 | the sign-extended form of every negative int32 is 10 bytes long and the 32-bit reader accepts it, giving the low 32 bits |
| `PbVarint.ZigZagRoundTrip` | wer2/Pods/nanopb/pb_encode.c:596-605 | ZigZag maps int64 into uint64 as 2v or -2v-1, and decoding undoes it |
| `PbVarint.UnZigZagRoundTrip` | wer2/Pods/nanopb/pb_decode.c:1240-1252 | and the other way round: every uint64 is the ZigZag image of what it decodes to |
| `PbVarint.SvarintRoundTrip` | wer2/Pods/nanopb/pb_decode.c:1240-1252 | every int64 survives `pb_encode_svarint` and `pb_decode_svarint`, trailing bytes untouched |
| `PbVarint.FixedRoundTrip` | wer2/Pods/nanopb/pb_decode.c:1269-1286 | n-byte little-endian words survive encoding and decoding, trailing bytes untouched |
| `PbDescriptor.FindField` | wer2/Pods/nanopb/pb_common.c:78-95 | the search gives a field that has the tag, and nothing only if no field has it |
| `PbDescriptor.FindUnique` | wer2/Pods/nanopb/pb_common.c:78-95 | with distinct tags the search finds the one field that has the tag |
| `PbRoundTrip.DefaultsAreFresh` | wer2/Pods/nanopb/pb_decode.c:884-895 | after setting defaults every field up to n reads as unset: no has flag, count 0, which 0, scalar defaults, recursively in submessages |
| `PbRoundTrip.RoundTrip` | wer2/Pods/nanopb/pb_decode.c:1051-1063 | the main result: for every recursive descriptor of static fields with distinct tags and every well-formed struct, encoding succeeds, and decoding its bytes into any destination succeeds, consumes all of them and restores everything that has flags, counts and which fields make visible |
| `PbRoundTrip.MessageRoundTrip` | wer2/Pods/nanopb/pb_decode.c:901-1049 | decoding without initialisation into any struct whose fields read as unset gives back the encoded struct and consumes every byte |
| `PbRoundTrip.MessageEncodes` | wer2/Pods/nanopb/pb_encode.c:494-516 | encoding a well-formed struct never fails |
| `PbRoundTrip.PackedRoundTrip` | wer2/Pods/nanopb/pb_decode.c:401-475 | the packed loop reads back every item in order and appends it to those already there |
| `PbRoundTrip.ValueRoundTrip` | wer2/Pods/nanopb/pb_decode.c:1289-1505 | a value of every type is read back as what was written; a submessage as one with the same visible contents |
| `PbRoundTrip.FieldStep` | wer2/Pods/nanopb/pb_encode.c:416-431 | the decoding loop passes over the bytes written for one field, none if it is silent, and then holds that field as in the source struct, with all later fields still unset |
| `PbRoundTrip.StringNeedsTerminator` | wer2/Pods/nanopb/pb_decode.c:1428-1461 | a string that `pb_enc_string` accepts is read back exactly if it is shorter than the field; one that fills it is refused |
| `PbHomomorphism.DecodeConcat` | wer2/Pods/nanopb/pb_decode.c:901-1049 | without required fields: if s1 is accepted and holds no zero tag, decoding s1 followed by s2 is decoding s1 and then s2 into the same struct, with the same success or failure |
| `PbHomomorphism.LoopConcat` | wer2/Pods/nanopb/pb_decode.c:901-1049 | the same for the decoding loop with any descriptor, including the record of required fields seen |
| `PbHomomorphism.UnknownInserted` | wer2/Pods/nanopb/pb_decode.c:316-326 | a well-formed unknown field inserted at any field boundary changes nothing; `PbLayout.SkipsOnly` and `PbLayout.UnknownBytesInserted` say in bytes what well-formed is |
| `PbRequired.RequiredExactly` | wer2/Pods/nanopb/pb_decode.c:1006-1045 | for all descriptors with distinct tags, all inputs and structs: a message is accepted if and only if its loop is and each of the first 64 required fields is named by one of its keys, up to a zero key; and the struct is the one of the loop |
| `PbRequired.SeenIsMet` | wer2/Pods/nanopb/pb_decode.c:988-993 | what the loop has recorded are exactly the required fields that the keys of the input name |
| `PbRequired.EmptyRefused` | wer2/Pods/nanopb/pb_decode.c:1006-1045 | the empty input is refused as soon as one of the first 64 required fields exists |
| `PbRequired.LeftOutRefused` | wer2/Pods/nanopb/pb_decode.c:1006-1045 | the encoding of any well-formed struct with one of its first 64 required fields left out is refused |
| `PbLayout.VarintBytes` | wer2/Pods/nanopb/pb_encode.c:574-594 | byte k of a varint holds the k-th group of seven bits, lowest first, with 128 added if and only if higher groups remain |
| `PbLayout.FixedBytes` | wer2/Pods/nanopb/pb_encode.c:619-632 | byte k of a fixed word is its k-th byte, lowest first |
| `PbLayout.SingleKey` | wer2/Pods/nanopb/pb_encode.c:653-659 | what a single value is written as starts with the varint of 8 times the tag plus 0 for the three varint types, 5 for fixed32, 1 for fixed64 and 2 otherwise, and goes on with the value |
| `PbLayout.ArrayKey` | wer2/Pods/nanopb/pb_encode.c:126-211 | a packed array has one key of wire type 2 and the length of its items; other arrays repeat the key |
| `PbLayout.SkipsLayout` | wer2/Pods/nanopb/pb_decode.c:316-326 | a value in the layout of its wire type is passed over whole, whatever follows: type 0 up to the first byte below 128, type 1 eight bytes, type 5 four bytes, type 2 a length below 2^32 and that many bytes |
| `PbLayout.SkipsOnly` | wer2/Pods/nanopb/pb_decode.c:316-326 | and nothing else is: if anything is passed over the wire type is 0, 1, 2 or 5 and it has just that layout |
| `PbLayout.UnknownBytesInserted` | wer2/Pods/nanopb/pb_decode.c:316-326 | a field given by its bytes, a key whose tag the message does not have and a value in that layout, changes nothing at any field boundary |
| `PbLayout.FieldSkipped` | wer2/Pods/nanopb/pb_encode.c:653-659 | forward compatibility: what is written for any field and any contents is passed over, whole, by every message type without its tag |
| `PbLayout.MessageSkipped` | wer2/Pods/nanopb/pb_decode.c:901-1049 | a whole encoded message is passed over by a message type that shares no tag with it, and leaves its struct as it was |
| `PbValues.SignedWritten` | wer2/Pods/nanopb/pb_encode.c:734-755 | a signed integer is written if and only if it fits its 1, 2, 4 or 8 bytes; negative ones as 64-bit two's complement |
| `PbValues.UnsignedWritten` | wer2/Pods/nanopb/pb_encode.c:757-773 | an unsigned integer is written as it is, if and only if it fits |
| `PbValues.ZigZagWritten` | wer2/Pods/nanopb/pb_encode.c:775-791 | a ZigZag integer v is written as 2v or -2v - 1, if and only if it fits |
| `PbValues.WordWritten` | wer2/Pods/nanopb/pb_encode.c:804-808 | words are written lowest byte first in 4 or 8 bytes |
| `PbValues.DataWritten` | wer2/Pods/nanopb/pb_encode.c:800-869 | bytes are written with their length in front if and only if they and a 4-byte header fit the field, strings without NUL if they fit it, fixed-length bytes if they fill it |
| `PbValues.SingularWritten` | wer2/Pods/nanopb/pb_encode.c:215-303 | a proto3 singular field is silent if and only if it holds 0, no bytes, or a message of nothing but defaults |
| `PbValues.IntegerRead` | wer2/Pods/nanopb/pb_decode.c:1289-1372 | what a varint stands for, in numbers, is stored unchanged if and only if it fits the field, else refused: sizes below 8 look at the low 32 bits |
| `PbValues.DataRead` | wer2/Pods/nanopb/pb_decode.c:1391-1461 | data of n bytes is accepted if and only if all n are there and n + 4 (bytes) or n + 1 (strings) is at most the size, or n is the size (fixed-length) or 0, which stands for zeros; strings end at their first NUL |
| `PbValues.CStringIs` | wer2/Pods/nanopb/pb_decode.c:1428-1461 | the part of a string that is visible ends before its first NUL |
| `PbValues.SubmessagesMerge` | wer2/Pods/nanopb/pb_decode.c:1463-1485 | without required fields, two occurrences of a submessage are read as one occurrence of their contents put together |
| `PbValues.SlotRead` | wer2/Pods/nanopb/pb_decode.c:401-475 | after a field was read its flag is set, its union has its tag, and its array has the items it had followed by those read, never more than fit |
| `PbValues.ItemRefused` | wer2/Pods/nanopb/pb_decode.c:401-475 | an item that is not packed is refused if and only if the array is full or the item is not accepted |
| `PbValues.UnionRestarts` | wer2/Pods/nanopb/pb_decode.c:401-475 | a submessage in a union starts from its defaults whatever the union held; a union that holds a tag of no field is refused |
| `PbHomomorphism.DecFieldExt` | wer2/Pods/nanopb/pb_decode.c:401-475 | a field that has been read from the front of the input is read the same when more input follows |
| `PbCursor.FieldIter.Begin` | wer2/Pods/nanopb/pb_common.c:8-18 | the cursor stands on field 0 with its derived addresses and required index; false only without fields |
| `PbCursor.FieldIter.Next` | wer2/Pods/nanopb/pb_common.c:20-76 | the cursor moves to the next field, or wraps to the first with false; data and size addresses and the required index are those of the field, also inside unions |
| `PbCursor.FieldIter.Find` | wer2/Pods/nanopb/pb_common.c:78-95 | from every position the search gives the same field with the same addresses, and false with the cursor back where it was if there is none |
| `PbCursor.FieldIter.CountRequired` | wer2/Pods/nanopb/pb_decode.c:1006-1023 | walking the cursor to the end counts the required fields |
| `PbEncode.OStream.Write` | wer2/Pods/nanopb/pb_encode.c:101-119 | a sizing stream counts the bytes; a buffer stream puts them behind what is there if they fit and fails otherwise, and what was written before stays |
| `PbEncode.OStream.EncodeVarint` | wer2/Pods/nanopb/pb_encode.c:574-594 | the loop over the 10-byte buffer emits exactly the varint of the value |
| `PbEncode.OStream.FillVarint` | wer2/Pods/nanopb/pb_encode.c:574-594 | the in-place loop, whose last continuation bit is cleared afterwards, leaves the varint in the buffer |
| `PbEncode.GroupsAreVarint` | wer2/Pods/nanopb/pb_encode.c:574-594 | the 7-bit groups with every continuation bit set differ from the varint in that last bit only |
| `PbEncode.OStream.EncodeSvarint` | wer2/Pods/nanopb/pb_encode.c:596-605 | the stream receives the varint of the ZigZag image |
| `PbEncode.OStream.EncodeFixed` | wer2/Pods/nanopb/pb_encode.c:619-632 | the stream receives the little-endian word |
| `PbEncode.OStream.EncodeTag` | wer2/Pods/nanopb/pb_encode.c:635-639 | the stream receives the key of tag and wire type |
| `PbEncode.OStream.EncodeString` | wer2/Pods/nanopb/pb_encode.c:674-680 | the stream receives length and bytes |
| `PbEncode.OStream.CheckDefault` | wer2/Pods/nanopb/pb_encode.c:215-303 | decides exactly whether a proto3 singular field holds its default, recursively for submessages |
| `PbEncode.OStream.EncodeBasicField` | wer2/Pods/nanopb/pb_encode.c:307-392 | the stream receives the encoding of the field, required, optional, proto3 singular, repeated or oneof, with the keys that `PbLayout.SingleKey` gives in numbers |
| `PbEncode.OStream.EncodeArray` | wer2/Pods/nanopb/pb_encode.c:126-211 | the stream receives a packed field or one tagged item after the other, and nothing for an empty array; too many items fail |
| `PbEncode.OStream.EncodePacked` | wer2/Pods/nanopb/pb_encode.c:126-211 | the size computed for a packed field is the size of the items then written |
| `PbEncode.OStream.EncodeItems` | wer2/Pods/nanopb/pb_encode.c:126-211 | the item loop emits all items in order |
| `PbEncode.OStream.EncodeSubmessage` | wer2/Pods/nanopb/pb_encode.c:682-730 | sizing pass, length and contents: the stream receives the delimited submessage, or fails as a whole |
| `PbEncode.OStream.EncodeSized` | wer2/Pods/nanopb/pb_encode.c:682-730 | the substream limited to the computed size takes exactly the submessage: "submsg size changed" is never the outcome |
| `PbEncode.OStream.EncodeValue` | wer2/Pods/nanopb/pb_encode.c:734-869 | the per-type encoders emit the encoding of the value or fail exactly when it has none |
| `PbEncode.OStream.PbEncode` | wer2/Pods/nanopb/pb_encode.c:494-516 | the field loop emits the encoding of the message, on sizing and on buffer streams alike |
| `PbEncode.GetEncodedSize` | wer2/Pods/nanopb/pb_encode.c:533-542 | the size reported is the number of bytes of the encoding, and none if there is no encoding |
| `PbEncode.EncodeIntoBuffer` | wer2/Pods/nanopb/pb_encode.c:494-516 | sizing equals writing: encoding into n bytes succeeds if and only if the sizing pass succeeds with at most n, both report the same count, the bytes are the encoding, and nothing past n is touched |
| `PbSizing.WellFormedStruct` | wer2/Pods/nanopb/pb_encode.c:494-516 | every well-formed struct whose encoding fits in memory is covered by the encoder: set or not, and at every level, no member of a union and no optional field without its flag is looked at |
| `PbSeen.MarkSeen` | wer2/Pods/nanopb/pb_decode.c:988-993 | or-ing a bit into `fields_seen` records one more required field and loses none, beyond the 64 tracked ones changes nothing |
| `PbSeen.CompleteIsSeen` | wer2/Pods/nanopb/pb_decode.c:1006-1045 | the final test, whole words against all ones and the last word against a shifted mask, holds if and only if every tracked required field was seen |
| `PbDecode.SetToDefaults` | wer2/Pods/nanopb/pb_decode.c:884-895 | the loop over fields and submessages computes the struct of defaults |
| `PbDecode.IStream.Read` | wer2/Pods/nanopb/pb_decode.c:100-132 | reads exactly the bytes asked for, or fails at the end of the stream |
| `PbDecode.IStream.Skip` | wer2/Pods/nanopb/pb_decode.c:100-132 | reading without a buffer moves over exactly that many bytes |
| `PbDecode.IStream.DecodeVarint32` | wer2/Pods/nanopb/pb_decode.c:182-242 | accepts, rejects and returns exactly what the specification says, including the 8-bit position counter that wraps |
| `PbDecode.IStream.DecodeVarint` | wer2/Pods/nanopb/pb_decode.c:250-270 | accepts exactly what the specification accepts, with its value |
| `PbDecode.IStream.DecodeTag` | wer2/Pods/nanopb/pb_decode.c:293-314 | gives tag and wire type, or end of input for an empty stream and for a zero key |
| `PbDecode.IStream.DoSkipField` | wer2/Pods/nanopb/pb_decode.c:316-326 | passes over exactly what the specification does, whose layouts `PbLayout.SkipsLayout` and `PbLayout.SkipsOnly` give in numbers, and fails where it does |
| `PbDecode.IStream.MakeSubstream` | wer2/Pods/nanopb/pb_decode.c:367-380 | the substream holds exactly the delimited bytes and the stream keeps what follows them |
| `PbDecode.IStream.CloseSubstream` | wer2/Pods/nanopb/pb_decode.c:382-395 | closing skips the rest of the substream, so that the stream goes on right behind it |
| `PbDecode.IStream.DecodeInteger` | wer2/Pods/nanopb/pb_decode.c:1289-1372 | the integer readers accept exactly the values that fit the field, and return them |
| `PbDecode.IStream.DecodeData` | wer2/Pods/nanopb/pb_decode.c:1391-1461 | bytes, strings and fixed-length bytes are taken exactly if they fit the field |
| `PbDecode.IStream.DecodeSubmessage` | wer2/Pods/nanopb/pb_decode.c:1463-1485 | decodes exactly the delimited bytes into the submessage that is there, and goes on behind them |
| `PbDecode.IStream.DecodePackedField` | wer2/Pods/nanopb/pb_decode.c:401-475 | a packed field fills the array from the substream and fails if it does not fit |
| `PbDecode.IStream.DecodeOneField` | wer2/Pods/nanopb/pb_decode.c:401-475 | stores the field as the specification says, with its has flag, count or which field |
| `PbDecode.IStream.PbDecodeNoinit` | wer2/Pods/nanopb/pb_decode.c:901-1049 | the loop over tags, the cursor, the seen words and the final check accept exactly what the specification accepts, with the same struct: `PbRequired.RequiredExactly` says when |
| `PbDecode.IStream.CheckRequired` | wer2/Pods/nanopb/pb_decode.c:1006-1045 | the check over the words succeeds if and only if every tracked required field was seen |
| `PbDecode.IStream.PbDecode` | wer2/Pods/nanopb/pb_decode.c:1051-1063 | defaults first, then decoding: exactly the specified result |
| `DtlsReplay.DiscardExact` | wer2/Pods/BoringSSL-GRPC/ssl/dtls_record.cc:140-150 | a number is discarded if and only if it was recorded or lies at least 64 below the maximum |
| `DtlsReplay.RecordRefines` | wer2/Pods/BoringSSL-GRPC/ssl/dtls_record.cc:155-175 | recording adds exactly that number to the set the window stands for, for every shift including those of 64 and more |
| `DtlsReplay.NeverReplayed` | wer2/Pods/BoringSSL-GRPC/ssl/dtls_record.cc:177-272 | in every run no sequence number is accepted twice under one cipher, hence no (epoch, sequence) pair until the 16-bit epoch wraps |
| `DtlsReplay.AcceptsExactly` | wer2/Pods/BoringSSL-GRPC/ssl/dtls_record.cc:177-272 | in every run an authentic record of the current epoch is accepted if and only if its number is new and less than 64 below every number accepted under the current cipher |
| `DtlsReplay.Verdicts` | wer2/Pods/BoringSSL-GRPC/ssl/dtls_record.cc:177-272 | in every run: a record is dropped silently if and only if its header, version or epoch is wrong, its number was accepted or lies 64 or more below an accepted one, or it does not authenticate; otherwise it is a fatal error if and only if it is longer than 16384 bytes |
| `DtlsReplay.ToU64` | wer2/Pods/BoringSSL-GRPC/ssl/dtls_record.cc:128-136 | the big-endian value of eight bytes, whose upper 16 bits are the epoch |
| `DtlsReplay.EpochBytes` | wer2/Pods/BoringSSL-GRPC/ssl/dtls_record.cc:225-233 | the epoch of a record is the value of its first two sequence bytes |
| `DtlsReplay.DtlsReader.DoShouldDiscard` | wer2/Pods/BoringSSL-GRPC/ssl/dtls_record.cc:140-150 | on the 64 map bits: a number is discarded if and only if it was accepted under the current cipher or lies at least 64 below one that was |
| `DtlsReplay.DtlsReader.DoRecord` | wer2/Pods/BoringSSL-GRPC/ssl/dtls_record.cc:155-175 | shifting and or-ing the map in place makes it stand for exactly one number more, with the larger maximum |
| `DtlsReplay.DtlsReader.OpenRecord` | wer2/Pods/BoringSSL-GRPC/ssl/dtls_record.cc:177-272 | epoch and replay gate, opening and recording make one step of the run; only authentic records are recorded |
| `DtlsReplay.DtlsReader.SetReadState` | wer2/Pods/BoringSSL-GRPC/ssl/dtls_method.cc:81-95 | a new read cipher means a new epoch and an empty window, and is refused while handshake data is unprocessed |
| `DtlsSeal.NeverReused` | wer2/Pods/BoringSSL-GRPC/ssl/dtls_record.cc:294-351 | in every interleaving of writes, retransmissions under the previous epoch and cipher changes, no sealed records share a (cipher, number) pair until a counter wraps, nor an (epoch, number) pair until the epoch wraps too |
| `DtlsSeal.WrapReuses` | wer2/Pods/BoringSSL-GRPC/ssl/dtls_record.cc:294-351 | the bound is sharp: after 2^48 records the counter restarts and number 0 is used again |
| `DtlsSeal.ReusedExactly` | wer2/Pods/BoringSSL-GRPC/ssl/dtls_record.cc:294-351 | in every interleaving of writes, retransmissions and cipher changes, with ciphertexts that fit a record, some (cipher, number) pair is used twice if and only if some cipher is used for more than 2^48 records |
| `DtlsSeal.DtlsWriter.SequenceUpdate` | wer2/Pods/BoringSSL-GRPC/ssl/dtls_record.cc:330-336 | incrementing the six low bytes in place is adding 1, with failure exactly on wrap-around; the epoch bytes stay |
| `DtlsSeal.DtlsWriter.SealRecord` | wer2/Pods/BoringSSL-GRPC/ssl/dtls_record.cc:294-351 | the record carries the right epoch and the counter of the epoch chosen, and only that counter advances |
| `DtlsSeal.DtlsWriter.SetWriteState` | wer2/Pods/BoringSSL-GRPC/ssl/dtls_method.cc:97-107 | the current counter becomes the previous one, and the new epoch starts at 0 |
| `DtlsWire.ParseOfSerialize` | wer2/Pods/BoringSSL-GRPC/ssl/d1_both.cc:459-473 | a fragment written with its 12-byte header is read back, with what follows untouched |
| `DtlsWire.SerializeOfParse` | wer2/Pods/BoringSSL-GRPC/ssl/d1_both.cc:459-473 | and whatever parses is the serialization of what it parses to |
| `DtlsWire.FragmentLayout` | wer2/Pods/BoringSSL-GRPC/ssl/d1_both.cc:459-473 | the header byte by byte: type, 3 bytes of length, 2 of message number, 3 of offset, 3 of fragment length, each highest byte first, and then the fragment |
| `DtlsReassembly.BitRangeBits` | wer2/Pods/BoringSSL-GRPC/ssl/d1_both.cc:203-205 | bit k of the mask byte is set if and only if start <= k < end |
| `DtlsReassembly.MarkBits` | wer2/Pods/BoringSSL-GRPC/ssl/d1_both.cc:226-236 | marking sets exactly the bits start to end of the mask, within its bounds, and keeps the others |
| `DtlsReassembly.CheckFull` | wer2/Pods/BoringSSL-GRPC/ssl/d1_both.cc:238-250 | the byte-wise completeness test is true if and only if all bits below the message length are set |
| `DtlsReassembly.HmFragment.Mark` | wer2/Pods/BoringSSL-GRPC/ssl/d1_both.cc:211-251 | after any marks bit k is set exactly for the bytes received, none at or past the length, and the mask is dropped at the first mark after which everything has been received and not before |
| `DtlsReassembly.HmFragment.Fill` | wer2/Pods/BoringSSL-GRPC/ssl/d1_both.cc:399-402 | copying a piece into place adds exactly its bytes to those received; earlier bytes that overlap take the new value, all others stay |
| `DtlsReceive.DepositKeeps` | wer2/Pods/BoringSSL-GRPC/ssl/d1_both.cc:265-295 | a fragment of any kind keeps the window: slot i holds a message whose number is i mod 7 and lies less than 7 above `handshake_read_seq` |
| `DtlsReceive.OpenRecordKeeps` | wer2/Pods/BoringSSL-GRPC/ssl/d1_both.cc:297-406 | a record of any bytes keeps the window |
| `DtlsReceive.NextKeeps` | wer2/Pods/BoringSSL-GRPC/ssl/d1_both.cc:426-438 | consuming the current message drops it and nothing else, and keeps the window also across the 16-bit wrap |
| `DtlsReceive.SlotMatches` | wer2/Pods/BoringSSL-GRPC/ssl/d1_both.cc:255-295 | so an occupied slot holds the very message that is looked up: the assertion in the code never fails |
| `DtlsReceive.DepositRefuses` | wer2/Pods/BoringSSL-GRPC/ssl/d1_both.cc:352-403 | exactly when a fragment is an error and which: too long, over the limit, or another type or length than the message had is illegal_parameter; another message in epoch 1 unexpected_message; exactly 7 ahead internal_error; an error, and a number before the window or more than 7 ahead, changes nothing |
| `DtlsReceive.DepositMerges` | wer2/Pods/BoringSSL-GRPC/ssl/d1_both.cc:281-295 | any other fragment puts its bytes at their positions unless the message was complete; the rest of the message and all other messages stay as they are |
| `DtlsReceiver.DtlsReceiver.OpenHandshake` | wer2/Pods/BoringSSL-GRPC/ssl/d1_both.cc:297-406 | the loop over fragments in the ring of fragment objects does to the ring what the specification does to its slots, with the same status |
| `DtlsReceiver.DtlsReceiver.Receive` | wer2/Pods/BoringSSL-GRPC/ssl/d1_both.cc:352-403 | one fragment: too long, wrong epoch, outside the window, 7 ahead (an error), mismatching or merged, as in the code |
| `DtlsReceiver.DtlsReceiver.Insert` | wer2/Pods/BoringSSL-GRPC/ssl/d1_both.cc:265-295 | finds or creates the slot and merges; a fragment exactly 7 ahead is an internal error |
| `DtlsReceiver.DtlsReceiver.GetMessage` | wer2/Pods/BoringSSL-GRPC/ssl/d1_both.cc:408-424 | gives type and body of the expected message exactly if it is complete |
| `DtlsReceiver.DtlsReceiver.NextMessage` | wer2/Pods/BoringSSL-GRPC/ssl/d1_both.cc:426-438 | frees the current slot and moves the window by one, mod 2^16 |
| `DtlsTiling.LeadsTiles` | wer2/Pods/BoringSSL-GRPC/ssl/d1_both.cc:644-734 | however the chain of sealed pieces was cut, the messages passed are on the wire complete and the rest not at all |
| `DtlsTiling.FlightTiled` | wer2/Pods/BoringSSL-GRPC/ssl/d1_both.cc:782-827 | pieces from the start of the flight to its end tile every body [0, len) without gap or overlap, with one empty fragment for an empty body and one record for a ChangeCipherSpec |
| `DtlsTiling.TilesCarryBody` | wer2/Pods/BoringSSL-GRPC/ssl/d1_both.cc:644-734 | and the bytes of such tiles, put together, are the body |
| `DtlsPacking.FlightExactly` | wer2/Pods/BoringSSL-GRPC/ssl/d1_both.cc:782-827 | over any number of attempts, with whatever sealing and transport answer: when the flight has been passed, every message is on the wire whole and exactly once if and only if no round failed to seal after it had sealed something |
| `DtlsPacking.GapNotWhole` | wer2/Pods/BoringSSL-GRPC/ssl/d1_both.cc:782-827 | a message that was passed only in part is never completed by what is sent later |
| `DtlsPacking.LosesMessage` | wer2/Pods/BoringSSL-GRPC/ssl/d1_both.cc:797-815 | two small messages, the second one not sealed: the next attempt succeeds and the first message has never been sent |
| `DtlsPacking.TinyLost` | wer2/Pods/BoringSSL-GRPC/ssl/d1_both.cc:797-815 | the same at a concrete flight of two messages with one byte each |
| `DtlsPacking.PackLeads` | wer2/Pods/BoringSSL-GRPC/ssl/d1_both.cc:739-780 | the pieces put into a packet lead from its start to the position reached, each starting where the one before ended |
| `DtlsPacking.PlansLargest` | wer2/Pods/BoringSSL-GRPC/ssl/d1_both.cc:644-734 | only messages of the current and the previous epoch are sealed, each with its own cipher; a piece is as long as the room allows, with 25 bytes of headers and the greatest overhead, and is not tried if and only if one byte might not fit |
| `DtlsPacking.SendAllTracked` | wer2/Pods/BoringSSL-GRPC/ssl/d1_both.cc:782-827 | in every sequence of rounds: the accepted pieces lead to the position, or there is a gap in a message before it, according to whether something sealed was dropped |
| `DtlsSender.DtlsSender.AddOutgoing` | wer2/Pods/BoringSSL-GRPC/ssl/d1_both.cc:555-594 | appends to the flight, or starts a new one if the last was complete; fails on the eighth message; only handshake messages take a number |
| `DtlsSender.DtlsSender.SealNextMessage` | wer2/Pods/BoringSSL-GRPC/ssl/d1_both.cc:644-734 | what is planned for the position is done unless sealing fails: what is sealed fits the room and is exactly the piece that the position moves over; without progress the position stays |
| `DtlsSender.DtlsSender.SealNextPacket` | wer2/Pods/BoringSSL-GRPC/ssl/d1_both.cc:739-780 | a packet fits the room, holds consecutive pieces, and advances (messages left, bytes left) lexicographically; a packet that is not sealed leaves the position where it was or at the start of a later message |
| `DtlsSender.DtlsSender.SendPacket` | wer2/Pods/BoringSSL-GRPC/ssl/d1_both.cc:797-815 | three outcomes: a packet taken by the transport advances; one not taken restores the position; one not sealed leaves the position where sealing stopped, and has lost what was sealed if that moved it |
| `DtlsSender.DtlsSender.SendFlight` | wer2/Pods/BoringSSL-GRPC/ssl/d1_both.cc:782-827 | terminates; success means the flight has been passed, and then every message is on the wire exactly once, as tiles, if and only if no sealing failure has lost a part of the flight |
| `DtlsSender.DtlsSender.FlushFlight` | wer2/Pods/BoringSSL-GRPC/ssl/d1_both.cc:829-834 | marks the flight complete and sends what is left of it, with the same if and only if |
| `DtlsSender.DtlsSender.Retransmit` | wer2/Pods/BoringSSL-GRPC/ssl/d1_both.cc:836-845 | sends the whole flight again from its start whatever happened before; on success it is all on the wire if and only if no round failed to seal after it had sealed something |
| `DtlsSender.DtlsSender.UpdateMtu` | wer2/Pods/BoringSSL-GRPC/ssl/d1_both.cc:615-632 | the MTU ends at or above the minimum and a valid one is kept |
| `DtlsEndToEnd.HandedIsPrefix` | wer2/Pods/BoringSSL-GRPC/ssl/d1_both.cc:297-438 | whatever is lost, duplicated, overlapped and reordered, the messages handed out are a prefix of those sent, in order, byte for byte and each once, also across the wrap of the numbers |
| `DtlsEndToEnd.AvailableExactly` | wer2/Pods/BoringSSL-GRPC/ssl/d1_both.cc:373-424 | message j is available if and only if its predecessors were taken and its received fragments cover it, and no fragment of the flight is an error |
| `DtlsEndToEnd.AvailableIff` | wer2/Pods/BoringSSL-GRPC/ssl/d1_both.cc:373-385 | that holds in every run if and only if the flight is empty, or its numbers do not wrap and the epoch is not 1 |
| `DtlsEndToEnd.EpochOne` | wer2/Pods/BoringSSL-GRPC/ssl/d1_both.cc:373-378 | in epoch 1 a fragment of the flight is an error if and only if its message is not the expected one |
| `DtlsEndToEnd.SentPiecesFit` | wer2/Pods/BoringSSL-GRPC/ssl/d1_both.cc:739-780 | everything the sender puts into packets is one of the pieces that the network may deliver in these runs |
| `DtlsEndToEnd.OnePassCovers` | wer2/Pods/BoringSSL-GRPC/ssl/d1_both.cc:782-827 | once every piece of one pass of the sender has been delivered, in any order and mixed with anything, every message is covered |
| `SslBuffer.ConsumeExact` | wer2/Pods/BoringSSL-GRPC/ssl/ssl_buffer.cc:90-97 | with a 16-bit offset, consuming leaves exactly the rest of the contents if and only if the offset stays below 2^16 or nothing is left |
| `SslBuffer.SafeConsume` | wer2/Pods/BoringSSL-GRPC/ssl/ssl_buffer.cc:90-97 | a buffer whose offset and capacity sum to at most 2^16 stays such, and consuming from it loses nothing |
| `SslBuffer.KeepsExactly` | wer2/Pods/BoringSSL-GRPC/ssl/ssl_buffer.cc:47-81 | a full buffer loses nothing, however it is aligned and consumed, if and only if its capacity and the alignment slack stay within 16 bits |
| `SslBuffer.SslBuffer.EnsureCap` | wer2/Pods/BoringSSL-GRPC/ssl/ssl_buffer.cc:47-81 | the contents survive reallocation, the payload is aligned, and it fails exactly from 2^16 on |
| `SslBuffer.SslBuffer.Append` | wer2/Pods/BoringSSL-GRPC/ssl/ssl_buffer.cc:83-88 | what is written behind the contents is appended to them |
| `SslBuffer.SslBuffer.Consume` | wer2/Pods/BoringSSL-GRPC/ssl/ssl_buffer.cc:90-97 | drops the first n bytes, unless the offset wraps and something is left |
| `SslBuffer.SslBuffer.DiscardConsumed` | wer2/Pods/BoringSSL-GRPC/ssl/ssl_buffer.cc:99-103 | releases the memory exactly when nothing is left |
| `TlsWriter.TlsWriter.AddRecordToFlight` | wer2/Pods/BoringSSL-GRPC/ssl/s3_both.cc:135-165 | wire order is kept: bytes on the wire, buffer and unsent flight together are all sealed records in sealing order |
| `TlsWriter.TlsWriter.AddMessage` | wer2/Pods/BoringSSL-GRPC/ssl/s3_both.cc:184-205 | the message is cut into records of exactly `max_send_fragment`, but for the last, that concatenate to it; an empty one into one empty record |
| `TlsWriter.TlsWriter.FlushBuffer` | wer2/Pods/BoringSSL-GRPC/ssl/ssl_buffer.cc:239-252 | for any pattern of partial writes wire order is kept, and it succeeds if and only if the buffer ends empty |
| `TlsWriter.TlsWriter.FlushFlight` | wer2/Pods/BoringSSL-GRPC/ssl/s3_both.cc:231-279 | for any pattern of partial writes wire order is kept; success means everything sealed is on the wire; a partly written flight means an empty buffer |
| `TlsWriter.TlsWriter.WritePending` | wer2/Pods/BoringSSL-GRPC/ssl/s3_pkt.cc:202-218 | succeeds if and only if it is the same write, by type, length and (unless buffers may move) address, and the buffer ends empty; another write leaves wire and buffer as they are |
| `TlsWriter.TlsWriter.TakeFlight` | wer2/Pods/BoringSSL-GRPC/ssl/s3_pkt.cc:237-266 | an unsent flight is moved in front of the record in the buffer, in order; what exceeds 16 bits is refused and nothing moves; wire order is kept if the buffer has room with its alignment slack |
| `TlsWriter.TlsWriter.SealIntoBuffer` | wer2/Pods/BoringSSL-GRPC/ssl/s3_pkt.cc:237-274 | one record more in the buffer behind the flight, or none; wire order is kept if there is room with the alignment slack, or none at all |
| `TlsWriter.TlsWriter.DoWrite` | wer2/Pods/BoringSSL-GRPC/ssl/s3_pkt.cc:221-289 | for application data and alerts: a record is sealed once and stays pending while the transport fails; a retry with another type, a shorter length or, unless buffers may move, another address fails and changes nothing; wire order is kept if a new record has room with the alignment slack, or none at all |
| `TlsWriter.TlsWriter.WriteFrom` | wer2/Pods/BoringSSL-GRPC/ssl/s3_pkt.cc:162-199 | the send loop writes record after record until one fails, and remembers how far it got |
| `TlsWriter.TlsWriter.WriteAppData` | wer2/Pods/BoringSSL-GRPC/ssl/s3_pkt.cc:129-200 | success means that all of the data has been told to the caller and nothing is pending; every length from wnum on keeps the account of what was sealed, also one too short for the pending record; a length below wnum forgets that many bytes, and then no data accounts for what has been sealed |
| `TlsWriter.TlsWriter.WriteWithRetries` | wer2/Pods/BoringSSL-GRPC/ssl/s3_pkt.cc:129-200 | retrying at any address and with any lengths until a call succeeds: the plaintexts sealed since the first call are exactly the bytes of the successful one if and only if no call had a length below what the caller had been told; lengths that never shrink are such |
| `TlsAppData.ExactlyOnce` | wer2/Pods/BoringSSL-GRPC/ssl/s3_pkt.cc:129-200 | exactly once, for every sequence of calls and whatever becomes of each record: when a call succeeds, the application plaintexts sealed since the first one concatenate to exactly its bytes, each non-empty and at most `max_send_fragment`, if and only if no call had a length below a wnum it met |
| `TlsAppData.RunLedger` | wer2/Pods/BoringSSL-GRPC/ssl/s3_pkt.cc:129-200 | conservation: bytes sealed are those forgotten, those told to the caller and those pending; a call forgets bytes exactly if its length is below wnum |
| `TlsAppData.WriteLedger` | wer2/Pods/BoringSSL-GRPC/ssl/s3_pkt.cc:221-289 | one record keeps that account: what is told grows by what is returned |
| `TlsAppData.NeverShrinks` | wer2/Pods/BoringSSL-GRPC/ssl/s3_pkt.cc:129-200 | a caller whose lengths never shrink forgets nothing |
| `TlsAppData.AllGoesOut` | wer2/Pods/BoringSSL-GRPC/ssl/s3_pkt.cc:162-199 | a call in which every record goes out writes all its data, also when a record is left over from a failed call with the same data |
| `TlsAppData.FullRecords` | wer2/Pods/BoringSSL-GRPC/ssl/s3_pkt.cc:162-199 | the records that a call adds have full size, except that the last one may end the data |
| `TlsAppData.SentTwice` | wer2/Pods/BoringSSL-GRPC/ssl/s3_pkt.cc:144-157 | a concrete sequence of calls: after a length below wnum the next calls send the first byte a second time |
| `TlsAppData.Misplaced` | wer2/Pods/BoringSSL-GRPC/ssl/s3_pkt.cc:202-217 | with moving buffers, a record pending when its bytes were forgotten is later taken for the first bytes of the data |
| `TlsReframing.ParseOfFrame` | wer2/Pods/BoringSSL-GRPC/ssl/s3_both.cc:399-425 | a message with its 4-byte header is read back, what follows untouched |
| `TlsReframing.FrameOfParse` | wer2/Pods/BoringSSL-GRPC/ssl/s3_both.cc:399-425 | and what parses is the frame of what it parses to |
| `TlsReframing.FrameLayout` | wer2/Pods/BoringSSL-GRPC/ssl/s3_both.cc:399-425 | on the wire: the type, three bytes of length with the highest first, and the body |
| `TlsReframing.ParsePrefix` | wer2/Pods/BoringSSL-GRPC/ssl/s3_both.cc:399-425 | a message that can be taken stays the same when more bytes are appended |
| `TlsReframing.RunConserves` | wer2/Pods/BoringSSL-GRPC/ssl/s3_both.cc:553-583 | in every alternation of appending and taking, frames taken and buffer together are the bytes appended |
| `TlsReframing.StreamUnique` | wer2/Pods/BoringSSL-GRPC/ssl/s3_both.cc:399-425 | the bytes of a list of messages can be read as that list only |
| `TlsReframing.Reframed` | wer2/Pods/BoringSSL-GRPC/ssl/s3_both.cc:553-583 | however the bytes of a list of messages are cut into records and appending and taking alternate, when nothing more can be taken exactly the list was handed out and the buffer is empty |
| `TlsReframing.TakenIsPrefix` | wer2/Pods/BoringSSL-GRPC/ssl/s3_both.cc:427-439 | and before that, what was handed out is a prefix of the list |
| `TlsReframing.SenderToReader` | wer2/Pods/BoringSSL-GRPC/ssl/s3_both.cc:184-205 | the records that `ssl3_add_message` cuts make the receive loop hand out exactly the messages, buffer empty at the end |
| `TlsReframing.HandshakeReader.OpenHandshake` | wer2/Pods/BoringSSL-GRPC/ssl/s3_both.cc:441-560 | appends the record exactly if no message is waiting and the one in progress is within the limit |
| `TlsReframing.HandshakeReader.GetMessage` | wer2/Pods/BoringSSL-GRPC/ssl/s3_both.cc:427-439 | gives the message at the front of the buffer exactly if it is complete, and does not take it |
| `TlsReframing.HandshakeReader.NextMessage` | wer2/Pods/BoringSSL-GRPC/ssl/s3_both.cc:562-583 | takes exactly the message at the front |
| `TlsReframing.WithinLimit` | wer2/Pods/BoringSSL-GRPC/ssl/s3_both.cc:441-459 | a list of messages within the limit is never refused, wherever its bytes are cut |
| `CipherChoice.ChooseFrom` | wer2/Pods/BoringSSL-GRPC/ssl/handshake_server.cc:357-424 | the choice is the usable cipher listed earliest by the other side among the first closed equal-preference group that holds a usable one; nothing is chosen if and only if every usable cipher is in a group without an end |
| `CipherChoice.ChooseCipher` | wer2/Pods/BoringSSL-GRPC/ssl/handshake_server.cc:357-424 | in server-preference mode that choice by the server's groups, and none if and only if every usable cipher is in a group without an end; in client-preference mode the client's first usable cipher, and none if and only if none is usable |
| `CipherChoice.ChoiceMeets` | wer2/Pods/BoringSSL-GRPC/ssl/handshake_server.cc:387-392 | any such choice is in both lists, its versions include the one negotiated, and its key exchange and authentication bits meet the masks |
| `CipherChoice.NothingMeets` | wer2/Pods/BoringSSL-GRPC/ssl/handshake_server.cc:387-392 | and where nothing is chosen, every cipher of both lists misses the version, has nothing in common with one of the masks, or is in a group without an end |
| `CipherChoice.UnendedGroup` | wer2/Pods/BoringSSL-GRPC/ssl/internal.h:1860-1894 | without that condition a usable cipher can be missed |
| `HsSafety.CompletesSafely` | wer2/Pods/BoringSSL-GRPC/ssl/handshake_server.cc:1365-1537 | against any peer and any failures and retries: when a handshake is done, own ChangeCipherSpec and Finished were queued exactly once, in this order and the Finished under the new keys; the peer's Finished was taken exactly once, after its ChangeCipherSpec had switched the read cipher, and covered exactly the messages before it; the transcript is every message once in order |
| `HsSafety.MovesKeep` | wer2/Pods/BoringSSL-GRPC/ssl/handshake_client.cc:1457-1705 | the invariant behind it, in every state of every run |
| `HsSafety.MoveKeeps` | wer2/Pods/BoringSSL-GRPC/ssl/handshake.cc:491-628 | every event keeps the invariant, and a failed handshake never changes again |
| `HsSafety.CompleteAtDone` | wer2/Pods/BoringSSL-GRPC/ssl/handshake_client.cc:1674-1705 | a state that satisfies the invariant and is done has a complete record |
| `HsSafety.ActsOnce` | wer2/Pods/BoringSSL-GRPC/ssl/handshake.cc:491-628 | a step that waits or asks to be retried has hashed and queued nothing; any other step that does not fail leaves its state for good, so nothing is hashed or queued twice |
| `HsSafety.AppendSound` | wer2/Pods/BoringSSL-GRPC/ssl/handshake.cc:380-475 | a Finished computed over, or checked against, the current transcript is in its place in the record |
| `HsSafety.GetFinishedKeeps` | wer2/Pods/BoringSSL-GRPC/ssl/handshake.cc:380-429 | the peer's Finished is taken only if it covers the transcript so far, and then once |
| `HsSafety.ClientFinishedKeeps` | wer2/Pods/BoringSSL-GRPC/ssl/handshake_client.cc:1457-1512 | ChangeCipherSpec, cipher switch, NextProto and Channel ID under the new keys and Finished keep the invariant |
| `HsSafety.ServerFinishedKeeps` | wer2/Pods/BoringSSL-GRPC/ssl/handshake_server.cc:1463-1509 | a ticket if due, ChangeCipherSpec, cipher switch and Finished keep the invariant |
| `HsSafety.SwitchStepKeeps` | wer2/Pods/BoringSSL-GRPC/ssl/handshake_server.cc:1370-1377 | the read cipher is switched only after the peer's ChangeCipherSpec has arrived |
| `HsFailures.FailureCaught` | wer2/Pods/BoringSSL-GRPC/ssl/handshake_server.cc:1343-1347 | in each of the states of client and server: if something due is at hand, a message to parse, a signature or a certificate to verify, an operation to do, and it fails, the step fails the handshake |
| `HsFailures.FailureIsFatal` | wer2/Pods/BoringSSL-GRPC/ssl/handshake.cc:491-628 | so a run in which anything due ever failed ends in failure, whatever else happens: a handshake that is done has had every signature, certificate, message and operation that was due succeed |
| `HsMachine.Handshake.RunHandshake` | wer2/Pods/BoringSSL-GRPC/ssl/handshake.cc:491-628 | the loop over waits makes a run of the specified events; an error is sticky; when it reports completion the guarantees of a finished handshake hold |
| `HsMachine.Handshake.DoHandshake` | wer2/Pods/BoringSSL-GRPC/ssl/handshake_client.cc:1707-1789 | the state loop terminates and makes a run of steps; it stops with a wait, an error or done |
| `HsMachine.Handshake.ResolveWait` | wer2/Pods/BoringSSL-GRPC/ssl/handshake.cc:491-560 | a read accepts only the kind of record waited for; anything else fails the handshake |
| `HsMachine.Handshake.ComeBack` | wer2/Pods/BoringSSL-GRPC/ssl/handshake.cc:558-600 | an asynchronous wait is reported once and then over |
| `HsMachine.Handshake.AddMessage` | wer2/Pods/BoringSSL-GRPC/ssl/handshake.cc:176-184 | queues exactly this message, under the current keys, and hashes it; nothing is taken |
| `HsMachine.Handshake.GetFinished` | wer2/Pods/BoringSSL-GRPC/ssl/handshake.cc:380-429 | goes on if and only if the current message is the Finished of the peer over the transcript before it; then it is hashed and taken; waiting or failing changes nothing |
| `HsMachine.Handshake.SendFinished` | wer2/Pods/BoringSSL-GRPC/ssl/handshake.cc:431-476 | queues exactly one message, a Finished over the transcript before it |
| `HsMachine.Handshake.ReadServerHello` | wer2/Pods/BoringSSL-GRPC/ssl/handshake_client.cc:535-759 | goes on if and only if the current message is a ServerHello and nothing fails; exactly that message is hashed and taken, and settles the facts and where to go; waiting changes nothing |
| `HsMachine.Handshake.ReadServerCertificate` | wer2/Pods/BoringSSL-GRPC/ssl/handshake_client.cc:771-819 | goes on if and only if the suite does without certificates, or the current message is a non-empty Certificate and nothing fails, and then it alone is hashed and taken |
| `HsMachine.Handshake.ReadCertificateStatus` | wer2/Pods/BoringSSL-GRPC/ssl/handshake_client.cc:821-869 | an announced CertificateStatus is taken if it is there and passed over if it is not; it fails if and only if one that is there does |
| `HsMachine.Handshake.VerifyServerCertificate` | wer2/Pods/BoringSSL-GRPC/ssl/handshake_client.cc:871-889 | takes, queues and hashes nothing; goes on if and only if the suite has no certificates or the verification neither fails nor is retried |
| `HsMachine.Handshake.ReadServerKeyExchange` | wer2/Pods/BoringSSL-GRPC/ssl/handshake_client.cc:891-1071 | a ServerKeyExchange is taken if and only if its parameters and signature are good, never with RSA key exchange; anything else is left alone, only for suites that do not require one |
| `HsMachine.Handshake.ReadCertificateRequest` | wer2/Pods/BoringSSL-GRPC/ssl/handshake_client.cc:1073-1143 | a CertificateRequest is taken and remembered if and only if nothing fails, for certificate suites only; a ServerHelloDone is left for the next state |
| `HsMachine.Handshake.ReadServerHelloDone` | wer2/Pods/BoringSSL-GRPC/ssl/handshake_client.cc:1145-1167 | goes on if and only if the current message is ServerHelloDone and nothing fails, and then hashes and takes it |
| `HsMachine.Handshake.SendClientCertificate` | wer2/Pods/BoringSSL-GRPC/ssl/handshake_client.cc:1169-1215 | queues one Certificate, empty without a certificate, if and only if one was requested; a retry finds everything unchanged |
| `HsMachine.Handshake.SendClientKeyExchange` | wer2/Pods/BoringSSL-GRPC/ssl/handshake_client.cc:1220-1371 | queues exactly one ClientKeyExchange |
| `HsMachine.Handshake.SendClientCertificateVerify` | wer2/Pods/BoringSSL-GRPC/ssl/handshake_client.cc:1373-1455 | queues one CertificateVerify if and only if a certificate was requested and sent; a retry finds everything unchanged |
| `HsMachine.Handshake.SendClientFinished` | wer2/Pods/BoringSSL-GRPC/ssl/handshake_client.cc:1457-1512 | ChangeCipherSpec, then NextProto and Channel ID as negotiated, then a Finished over everything before it, all in one step; a retry for the Channel ID finds everything unchanged |
| `HsMachine.Handshake.FinishFlight` | wer2/Pods/BoringSSL-GRPC/ssl/handshake_client.cc:1538-1564 | touches no message; a resumption is finished here, a full handshake reads on |
| `HsMachine.Handshake.ReadSessionTicket` | wer2/Pods/BoringSSL-GRPC/ssl/handshake_client.cc:1566-1647 | takes a NewSessionTicket if and only if one was announced and nothing fails, then waits for the ChangeCipherSpec; never goes straight on |
| `HsMachine.Handshake.ReadClientHello` | wer2/Pods/BoringSSL-GRPC/ssl/handshake_server.cc:432-510 | goes on if and only if the current message is a ClientHello and nothing fails or is retried, and leaves it current and unhashed; a retry finds everything unchanged |
| `HsMachine.Handshake.SelectCertificate` | wer2/Pods/BoringSSL-GRPC/ssl/handshake_server.cc:512-560 | leaves the ClientHello current and unhashed, also when retried, and settles the suite; fails if and only if the certificate callback or the choice of a cipher does |
| `HsMachine.Handshake.SelectParameters` | wer2/Pods/BoringSSL-GRPC/ssl/handshake_server.cc:572-684 | hashes and takes the ClientHello, once; settles every fact from the negotiation, and asks for a certificate if and only if the handshake is full, the suite has certificates, and the settings demand it |
| `HsMachine.Handshake.SendServerHello` | wer2/Pods/BoringSSL-GRPC/ssl/handshake_server.cc:686-752 | queues exactly one ServerHello with the facts settled: ticket, OCSP, NPN, suite and resumption stay as they were, and Channel ID if and only if it was agreed, the suite is ECDHE, and on resumption the original hash is known |
| `HsMachine.Handshake.SendServerCertificate` | wer2/Pods/BoringSSL-GRPC/ssl/handshake_server.cc:754-840 | queues Certificate, and CertificateStatus with it, as the suite and the facts say, and nothing else |
| `HsMachine.Handshake.SendServerKeyExchange` | wer2/Pods/BoringSSL-GRPC/ssl/handshake_server.cc:842-912 | queues one ServerKeyExchange if and only if parameters were prepared, and uses them up; a retry finds everything unchanged |
| `HsMachine.Handshake.SendServerHelloDone` | wer2/Pods/BoringSSL-GRPC/ssl/handshake_server.cc:914-947 | queues CertificateRequest if wanted and ServerHelloDone, in this order, and flushes |
| `HsMachine.Handshake.ReadClientCertificate` | wer2/Pods/BoringSSL-GRPC/ssl/handshake_server.cc:949-1040 | takes a Certificate if and only if one was requested and nothing fails, and remembers whether it was empty; goes on without one only where none is required |
| `HsMachine.Handshake.VerifyClientCertificate` | wer2/Pods/BoringSSL-GRPC/ssl/handshake_server.cc:1042-1056 | touches no message; goes on if and only if there is no peer certificate or the verification neither fails nor is retried |
| `HsMachine.Handshake.ReadClientKeyExchange` | wer2/Pods/BoringSSL-GRPC/ssl/handshake_server.cc:1058-1267 | goes on if and only if it takes a ClientKeyExchange that is good; a retry of the decryption leaves it current |
| `HsMachine.Handshake.ReadClientCertificateVerify` | wer2/Pods/BoringSSL-GRPC/ssl/handshake_server.cc:1269-1363 | goes on if and only if there is no peer certificate, or the current message is a CertificateVerify whose signature is good; only then is it hashed and taken; a bad signature fails the handshake |
| `HsMachine.Handshake.ReadNextProto` | wer2/Pods/BoringSSL-GRPC/ssl/handshake_server.cc:1379-1413 | takes a NextProto if and only if negotiated; fails if and only if one is due and another message or a bad one is there |
| `HsMachine.Handshake.ReadChannelId` | wer2/Pods/BoringSSL-GRPC/ssl/handshake_server.cc:1415-1437 | takes a Channel ID if and only if negotiated; fails if and only if one is due and another message or a bad one is there |
| `HsMachine.Handshake.SendServerFinished` | wer2/Pods/BoringSSL-GRPC/ssl/handshake_server.cc:1463-1509 | a ticket under the old keys if one is due, ChangeCipherSpec, then a Finished over everything before it, all in one step |
| `HsScript.SameCourse` | wer2/Pods/BoringSSL-GRPC/ssl/handshake_server.cc:1539-1621 | for every choice of negotiated facts the server's states and the client's states go through the same sequence of messages, in full and in abbreviated handshakes |
| `HsFigure.ScriptIsFigure` | wer2/Pods/BoringSSL-GRPC/ssl/handshake_server.cc:1539-1621 | for all settings of client and server this sequence is the message flow of RFC 5246, figures 1 and 2, with every optional message spelled out from the settings |
| `HsFigure.RunsFollowFigure` | wer2/Pods/BoringSSL-GRPC/ssl/handshake_client.cc:1707-1789 | in every run in which both ends get done, what has been exchanged is that message flow, item by item |
| `HsFigure.ExchangedExactly` | wer2/Pods/BoringSSL-GRPC/ssl/handshake_server.cc:613-752 | when both are done, each message has been exchanged if and only if it is due by the settings: a NewSessionTicket exactly with tickets, a NextProto exactly with NPN, a CertificateStatus exactly in full handshakes with certificates and OCSP, a CertificateRequest exactly if the server verifies the peer in a full handshake with certificates (and with no Channel ID, where that is the condition), and so on for every kind |
| `HsFollow.StepFollows` | wer2/Pods/BoringSSL-GRPC/ssl/handshake_client.cc:1707-1789 | in each of the states of client and server, a step without failure deals with exactly the next items of that sequence, waits for the next one, or asks to be retried |
| `HsCourse.RunFollows` | wer2/Pods/BoringSSL-GRPC/ssl/handshake_server.cc:1539-1621 | such a step keeps an endpoint on the common course: done and left make up the script, and the current message is its next item |
| `HsCourse.MessageFollows` | wer2/Pods/BoringSSL-GRPC/ssl/handshake.cc:504-548 | an awaited message keeps it there, under the right keys |
| `HsCourse.CcsFollows` | wer2/Pods/BoringSSL-GRPC/ssl/handshake.cc:504-548 | and so does the ChangeCipherSpec |
| `HsJoint.StepKeeps` | wer2/Pods/BoringSSL-GRPC/ssl/handshake.cc:491-628 | every turn of client, server and channels keeps both on the common course, with what one has done more exactly in flight to the other; and unless an operation is retried it leaves less to do |
| `HsJoint.NoDeadlock` | wer2/Pods/BoringSSL-GRPC/ssl/handshake.cc:491-628 | as long as not both are done, some turn changes something |
| `HsJoint.RunBounded` | wer2/Pods/BoringSSL-GRPC/ssl/handshake.cc:491-628 | the number of effective turns of any run is bounded by the work at its start and the number of retries |
| `HsJoint.FairRunsFinish` | wer2/Pods/BoringSSL-GRPC/ssl/handshake_client.cc:1707-1789 | every fair run ends with client and server done, however often asynchronous operations are retried |
| `HsJoint.RunsAgree` | wer2/Pods/BoringSSL-GRPC/ssl/handshake.cc:380-475 | in every run neither side ever fails, so no message-type check fails; and when both are done they have gone through the same items, with every Finished computed and checked over the same transcript |
| `HsOutcome.FinishesExactly` | wer2/Pods/BoringSSL-GRPC/ssl/handshake_server.cc:949-1040 | some run completes the handshake if and only if a server that insists on a client certificate gets one |

## Left out

- nanopb callbacks, extensions, malloc and pointer fields, fixed-count arrays, `PB_WITHOUT_64BIT`, custom streams and raw struct layout: a struct is a map from abstract offsets to typed slots.
- nanopb: what a failed decode has written so far, bytes behind a string's terminator, and array storage past the count are not part of a struct's visible contents.
- nanopb: `uint_fast8_t` is taken as 8 bits. The lengths of what is encoded are taken to fit in `size_t`, and fixed-width words to hold their width (`Storable`, which PbSizing.WellFormedStruct derives for every well-formed struct whose encoding is below 2^64 bytes).
- PbHomomorphism.UnknownInserted: for unknown fields as a whole; unknown fields cut short at the end of the input are errors in the code and not treated separately.
- Cryptography: opening and sealing either fail or give the plaintext back with a bounded overhead; the bytes of records are abstract where only their order matters.
- DTLS timers, alerts, `has_change_cipher_spec`, the cookie exchange and `dtls1_on_handshake_complete`: no part in fragmentation, reassembly or numbering.
- DtlsEndToEnd.AvailableExactly: for flights within one epoch without ChangeCipherSpec; records are taken as opened, so the replay window of DtlsReplay does not appear in these runs.
- DtlsReassembly.HmFragment.Fill: allocation failure is not modelled.
- TlsWriter.TlsWriter.WriteAppData: outside early data and partial-write mode.
- TlsWriter.TlsWriter.WriteWithRetries: renegotiation checks and the pending handshake that a write may have to finish first are left out; alerts are written by DoWrite, but when they are sent is not modelled.
- TlsReframing: V2ClientHello, key updates and the check for excess handshake data at a cipher change.
- CipherChoice.ChooseCipher: the masks of key exchange and authentication methods that the configuration supports are arguments.
- Handshake: TLS 1.3, early data, SSL 3.0, False Start, renegotiation, handoff, HelloVerifyRequest and info callbacks.
- Handshake: messages carry only what decides the course; parsing, signatures, key derivation and callbacks are arguments of a step, and a Finished is a free term over the transcript instead of a MAC.
- Handshake: a read yields one message, so record boundaries and the reuse of buffered messages are the business of TlsReframing; a flush sends the whole flight, partial writes are the business of TlsWriter; an unexpected record fails the handshake in place of the read side's own sticky error.
- Handshake: a step that fails is taken to have changed nothing; the code may have queued part of a flight before failing, which is never sent as part of a completed handshake.
- HsMachine.Handshake.ReadSessionTicket: an empty ticket only matters for later sessions, so that it clears `ticket_expected` is not modelled.
- HsJoint.FairRunsFinish: the negotiated facts are the ones the server chose and announced; that a client might refuse them is an injected failure and excluded here. It is included in HsSafety.
- The Swift sources, gRPC, Firestore, X.509, session serialisation and the remaining BoringSSL files.
