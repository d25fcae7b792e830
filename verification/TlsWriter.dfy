/** The TLS output stream: handshake records collected in a flight, application records in the write buffer,
    and non-blocking writes that accept any part of what they are given. */
module TlsWriter {
  import opened BigEndianBytes
  import opened Common
  import opened SslBuffer
  import opened TlsAppData

  const INT_MAX: nat := 0x7fff_ffff

  /** A record that tls_seal_record produced: what went in and what came out. */
  datatype Record = Record(kind: Kind, plain: seq<byte>, bytes: seq<byte>)

  /** All sealed bytes in sealing order. */
  ghost function Sealed(records: seq<Record>): seq<byte>
  {
    if records == [] then [] else Sealed(records[..|records| - 1]) + records[|records| - 1].bytes
  }

  /** The plaintexts of the records of one kind, in sealing order. */
  ghost function Plains(records: seq<Record>, kind: Kind): seq<seq<byte>>
  {
    if records == [] then []
    else
      var front, r := Plains(records[..|records| - 1], kind), records[|records| - 1];
      if r.kind == kind then front + [r.plain] else front
  }

  lemma OneMoreRecord(records: seq<Record>, r: Record)
    ensures Sealed(records + [r]) == Sealed(records) + r.bytes
    ensures forall kind :: Plains(records + [r], kind) == if r.kind == kind then Plains(records, kind) + [r.plain] else Plains(records, kind)
  {
    assert (records + [r])[..|records|] == records;
  }

  /** The sealed bytes are what is on the wire, what waits in the write buffer and what is left of the flight. */
  ghost predicate InOrder(sealed: seq<byte>, wire: seq<byte>, view: seq<byte>, unsent: seq<byte>)
  {
    sealed == wire + view + unsent
  }

  lemma DrainBuffer(sealed: seq<byte>, wire: seq<byte>, view: seq<byte>, n: nat, unsent: seq<byte>)
    requires n <= |view|
    ensures InOrder(sealed, wire, view, unsent) ==> InOrder(sealed, wire + view[..n], view[n..], unsent)
  {
    assert view == view[..n] + view[n..];
  }

  lemma DrainFlight(sealed: seq<byte>, wire: seq<byte>, unsent: seq<byte>, n: nat)
    requires n <= |unsent|
    ensures InOrder(sealed, wire, [], unsent) ==> InOrder(sealed, wire + unsent[..n], [], unsent[n..])
  {
    assert unsent == unsent[..n] + unsent[n..];
  }

  /** The rest of the flight moves into an empty buffer. */
  lemma FlightToBuffer(sealed: seq<byte>, wire: seq<byte>, unsent: seq<byte>)
    ensures InOrder(sealed, wire, [], unsent) ==> InOrder(sealed, wire, [] + unsent, [])
  {
    assert wire + [] + unsent == wire + unsent + [];
  }

  lemma SealAfterBuffer(sealed: seq<byte>, wire: seq<byte>, view: seq<byte>, bytes: seq<byte>)
    ensures InOrder(sealed, wire, view, []) ==> InOrder(sealed + bytes, wire, view + bytes, [])
  {
    assert wire + view + [] == wire + view;
  }

  lemma SealAfterFlight(sealed: seq<byte>, wire: seq<byte>, view: seq<byte>, unsent: seq<byte>, bytes: seq<byte>)
    ensures InOrder(sealed, wire, view, unsent) ==> InOrder(sealed + bytes, wire, view, unsent + bytes)
  {
  }

  lemma AllOut(sealed: seq<byte>, wire: seq<byte>)
    ensures InOrder(sealed, wire, [], []) <==> sealed == wire
  {
    assert wire + [] + [] == wire;
  }

  /** A record of n bytes behind `unsent` bytes: the buffer stays within 16 bits even with alignment slack, or is
      refused because it exceeds 16 bits without it. */
  predicate RoomIn(unsent: nat, overhead: nat, n: nat)
  {
    unsent + n + overhead + ALIGN_PAYLOAD - 1 <= TWO_16 || unsent + n + overhead >= TWO_16
  }

  ghost predicate AlwaysRoom(unsent: nat, overhead: nat, limit: nat)
  {
    forall n: nat :: 0 < n <= limit ==> RoomIn(unsent, overhead, n)
  }

  /** tls_seal_record: the record, of bounded length, or failure. */
  method Seal(plain: seq<byte>, maxOut: nat) returns (bytes: Option<seq<byte>>)
    ensures bytes.Some? ==> |bytes.value| <= maxOut
  {
    var ok: bool := *;
    var b: seq<byte> := *;
    bytes := if ok && |b| <= maxOut then Some(b) else None;
  }

  class TlsWriter {
    const maxSendFragment: nat
    const overhead: nat                        // SSL_max_seal_overhead
    const acceptMoving: bool                   // SSL_MODE_ACCEPT_MOVING_WRITE_BUFFER
    const buffer: SslBuffer                    // write_buffer
    var flight: Option<seq<byte>>              // pending_flight
    var flightOffset: nat
    var wnum: nat
    var wpendPending: bool
    var wpendTot: nat
    var wpendBuf: int                          // the address of the data of the pending record
    var wpendType: Kind
    var wpendRet: nat
    var shutdown: bool                         // write_shutdown != ssl_shutdown_none
    ghost var wire: seq<byte>                  // what the transport has accepted
    ghost var records: seq<Record>             // what has been sealed

    ghost function Unsent(): seq<byte>
      reads this
    {
      if flight.Some? && flightOffset <= |flight.value| then flight.value[flightOffset..] else []
    }

    ghost predicate Valid()
      reads this, buffer, buffer.buf
    {
      && 0 < maxSendFragment <= MAX_PLAIN_LENGTH && maxSendFragment + overhead + ALIGN_PAYLOAD <= TWO_16
      && buffer.Valid()
      && flightOffset <= (if flight.Some? then |flight.value| else 0)
      && (flightOffset > 0 ==> buffer.View() == [])
      && (wpendPending ==> 0 < wpendTot == wpendRet)
    }

    /** Wire order: accepted bytes, then the write buffer, then the rest of the flight are all the sealed
        records in sealing order. A flight that is partly out implies an empty write buffer, by Valid(). */
    ghost predicate Ordered()
      requires Valid()
      reads this, buffer, buffer.buf
    {
      Safe(buffer.fields) && InOrder(Sealed(records), wire, buffer.View(), Unsent())
    }

    /** Wire order, and room for whatever record comes next. */
    ghost predicate Orderly()
      requires Valid()
      reads this, buffer, buffer.buf
    {
      Ordered() && Room()
    }

    constructor (maxSendFragment: nat, overhead: nat, acceptMoving: bool)
      requires 0 < maxSendFragment <= MAX_PLAIN_LENGTH && maxSendFragment + overhead + ALIGN_PAYLOAD <= TWO_16
      ensures Valid() && Orderly() && wire == [] && records == [] && flight == None && !wpendPending && wnum == 0
      ensures fresh(buffer) && fresh(buffer.buf) && this.maxSendFragment == maxSendFragment
    {
      this.maxSendFragment, this.overhead, this.acceptMoving := maxSendFragment, overhead, acceptMoving;
      buffer := new SslBuffer();
      flight, flightOffset, wnum, shutdown := None, 0, 0, false;
      wpendPending, wpendTot, wpendBuf, wpendType, wpendRet := false, 0, 0, ApplicationData, 0;
      wire, records := [], [];
    }

    /** BIO_write: takes some of the bytes, or none and reports failure. */
    method BioWrite(data: seq<byte>) returns (ret: int)
      modifies this`wire
      ensures ret <= |data| && wire == old(wire) + if ret > 0 then data[..ret] else []
    {
      ret := *;
      if ret > |data| { ret := |data|; }
      wire := wire + if ret > 0 then data[..ret] else [];
    }

    /** One round of tls_write_buffer_flush */
    method WriteSome() returns (ret: int)
      requires Valid() && buffer.fields.size > 0
      modifies this`wire, buffer`fields
      ensures Valid() && (old(Ordered()) ==> Ordered()) && if ret > 0 then buffer.fields.size < old(buffer.fields.size) else buffer.fields == old(buffer.fields)
    {
      hide Sealed, Consumed, InOrder;
      ghost var view, before := buffer.View(), wire;
      ret := BioWrite(buffer.buf[buffer.fields.offset..buffer.fields.offset + buffer.fields.size]);
      if ret <= 0 {
        assert before + [] == before;
        return;
      }
      if Safe(buffer.fields) { SafeConsume(buffer.fields, ret); }
      buffer.Consume(ret);
      DrainBuffer(Sealed(records), before, view, ret, Unsent());
      assert buffer.fields.size < old(buffer.fields.size) by { ConsumedSize(old(buffer.fields), ret); }
    }

    /** tls_write_buffer_flush */
    method FlushBuffer() returns (ret: int)
      requires Valid()
      modifies this`wire, buffer
      ensures Valid() && (old(Ordered()) ==> Ordered()) && (ret > 0 ==> ret == 1) && (ret > 0 <==> buffer.View() == [])
      ensures fresh(buffer.buf) || buffer.buf == old(buffer.buf)
    {
      hide Sealed, Safe, InOrder;
      ghost var ordered := Ordered();
      while buffer.fields.size > 0
        invariant Valid() && (ordered ==> Ordered()) && buffer.buf == old(buffer.buf)
        decreases buffer.fields.size
      {
        ret := WriteSome();
        if ret <= 0 {
          return;
        }
      }
      assert buffer.View() == [];
      SafeEmpty();
      buffer.Clear();
      return 1;
    }

    /** add_record_to_flight; no flight is being written out while records are added */
    method AddRecordToFlight(kind: Kind, plain: seq<byte>) returns (ok: bool)
      requires Valid() && flightOffset == 0
      modifies this`flight, this`records
      ensures Valid() && (old(Ordered()) ==> Ordered()) && (ok <==> |records| == |old(records)| + 1) && (!ok ==> records == old(records))
      ensures ok ==> records[..|old(records)|] == old(records) && records[|old(records)|].kind == kind && records[|old(records)|].plain == plain
    {
      hide Sealed, Plains, InOrder;
      if flight == None {
        flight := Some([]);
      }
      var bytes := Seal(plain, |plain| + overhead);
      if bytes.None? {
        return false;
      }
      ghost var r := Record(kind, plain, bytes.value);
      OneMoreRecord(records, r);
      SealAfterFlight(Sealed(records), wire, buffer.View(), flight.value, bytes.value);
      records := records + [r];
      assert flight.value[0..] == flight.value;
      flight := Some(flight.value + bytes.value);
      assert flight.value[0..] == flight.value;
      return true;
    }

    /** ssl3_add_message: one record for each piece of at most max_send_fragment bytes, and at least one */
    method AddMessage(msg: seq<byte>) returns (ok: bool, ghost chunks: seq<seq<byte>>)
      requires Valid() && flightOffset == 0
      modifies this`flight, this`records
      ensures Valid() && (old(Ordered()) ==> Ordered()) && Plains(records, Handshake) == old(Plains(records, Handshake)) + chunks
      ensures ok ==> Flatten(chunks) == msg && chunks != [] && forall c :: c in chunks ==> |c| <= maxSendFragment
      ensures forall i :: 0 <= i < |chunks| - 1 ==> |chunks[i]| == maxSendFragment
    {
      hide Valid, Ordered, Sealed, Plains, Flatten;
      ghost var ordered := Ordered();
      var rest := msg;
      chunks := [];
      ghost var before := Plains(records, Handshake);
      assert Flatten<byte>([]) + rest == msg by { FlattenNothing(msg); }
      var more := true;
      while more
        invariant Valid() && (ordered ==> Ordered()) && Plains(records, Handshake) == before + chunks && Flatten(chunks) + rest == msg
        invariant forall i :: 0 <= i < |chunks| ==> |chunks[i]| <= maxSendFragment
        invariant forall i :: 0 <= i < |chunks| - (if more then 0 else 1) ==> |chunks[i]| == maxSendFragment
        invariant if more then chunks == [] || rest != [] else rest == [] && chunks != []
        decreases more, |rest|
      {
        assert maxSendFragment > 0 by { FragmentBound(); }
        var n := if |rest| < maxSendFragment then |rest| else maxSendFragment;
        var chunk := rest[..n];
        ghost var was, left := records, rest;
        rest := rest[n..];
        ok := AddRecordToFlight(Handshake, chunk);
        if !ok {
          return;
        }
        assert records == was + [records[|was|]];
        OneMoreRecord(was, records[|was|]);
        FlattenAppend(chunks, chunk);
        assert Flatten(chunks) + chunk + rest == Flatten(chunks) + left;
        assert before + chunks + [chunk] == before + (chunks + [chunk]);
        chunks := chunks + [chunk];
        more := rest != [];
      }
      assert Flatten(chunks) + [] == Flatten(chunks);
      return true, chunks;
    }

    lemma FragmentBound()
      requires Valid()
      ensures 0 < maxSendFragment <= MAX_PLAIN_LENGTH
    {
    }

    /** One round of the write loop of ssl3_flush_flight */
    method WriteFlightSome() returns (ret: int)
      requires Valid() && flight.Some? && flightOffset < |flight.value| && buffer.View() == []
      modifies this`wire, this`flightOffset
      ensures Valid() && (old(Ordered()) ==> Ordered()) && flightOffset >= old(flightOffset) && (ret > 0 ==> flightOffset > old(flightOffset))
    {
      hide Sealed, Safe, InOrder;
      ghost var before, unsent := wire, Unsent();
      ret := BioWrite(flight.value[flightOffset..]);
      if ret <= 0 {
        assert before + [] == before;
        return;
      }
      flightOffset := flightOffset + ret;
      assert unsent[ret..] == Unsent();
      DrainFlight(Sealed(records), before, unsent, ret);
    }

    /** ssl3_flush_flight: the write buffer goes first. Success means that everything sealed is on the wire. */
    method FlushFlight() returns (ret: int)
      requires Valid()
      modifies this`wire, this`flightOffset, this`flight, buffer
      ensures Valid() && (old(Ordered()) ==> Ordered()) && if ret == 1 then flight == None && flightOffset == 0 else flight == old(flight)
      ensures fresh(buffer.buf) || buffer.buf == old(buffer.buf)
      ensures ret == 1 && old(flight).Some? ==> buffer.View() == [] && (old(Ordered()) ==> wire == Sealed(records))
    {
      hide Sealed, Safe, InOrder;
      ghost var ordered := Ordered();
      if flight == None {
        return 1;
      }
      if shutdown || |flight.value| > INT_MAX {
        return -1;
      }
      if buffer.fields.size > 0 {
        ret := FlushBuffer();
        if ret <= 0 {
          return;
        }
      }
      assert buffer.View() == [];
      while flightOffset < |flight.value|
        invariant Valid() && (ordered ==> Ordered()) && flight == old(flight) && buffer.View() == [] && (fresh(buffer.buf) || buffer.buf == old(buffer.buf))
        decreases |flight.value| - flightOffset
        modifies this`wire, this`flightOffset
      {
        ret := WriteFlightSome();
        if ret <= 0 {
          return;
        }
      }
      assert Unsent() == [];
      AllOut(Sealed(records), wire);
      ret := *;                                // BIO_flush
      if ret <= 0 {
        return -1;
      }
      flight, flightOffset := None, 0;
      return 1;
    }

    // -------------------------------------------------------------- application data

    /** The bookkeeping of application writes. */
    ghost function View(): App
      reads this
    {
      App(wnum, if wpendPending then Some(Pend(wpendTot, wpendBuf, wpendType)) else None, Plains(records, ApplicationData))
    }

    ghost function Rules(): Mode { Mode(maxSendFragment, acceptMoving) }

    ghost predicate RoomFor(n: nat)
      reads this
    {
      RoomIn(|Unsent()|, overhead, n)
    }

    /** Room, whatever the length of the next record. */
    ghost predicate Room()
      reads this
    {
      AlwaysRoom(|Unsent()|, overhead, maxSendFragment)
    }

    /** Once the flight is gone there is always room. */
    lemma RoomKept(before: nat)
      requires Valid() && (Unsent() == [] || |Unsent()| == before) && AlwaysRoom(before, overhead, maxSendFragment)
      ensures Room()
    {
      hide InOrder, Sealed, Safe;
    }

    /** ssl3_write_pending for `len` bytes at address `ptr` */
    method WritePending(kind: Kind, ptr: int, len: nat) returns (ret: int)
      requires Valid() && wpendPending
      modifies this`wire, this`wpendPending, buffer
      ensures Valid() && (old(Ordered()) ==> Ordered()) && (fresh(buffer.buf) || buffer.buf == old(buffer.buf))
      ensures ret > 0 ==> !wpendPending && ret == wpendRet && buffer.View() == []
      ensures ret <= 0 ==> wpendPending
      ensures ret > 0 <==> wpendTot <= len && (acceptMoving || wpendBuf == ptr) && wpendType == kind && buffer.View() == []
      ensures wpendTot > len || (!acceptMoving && wpendBuf != ptr) || wpendType != kind ==> wire == old(wire) && buffer.View() == old(buffer.View())
    {
      hide Sealed, Safe, InOrder;
      if wpendTot > len || (!acceptMoving && wpendBuf != ptr) || wpendType != kind {
        return -1;
      }
      ret := FlushBuffer();
      if ret <= 0 {
        return;
      }
      wpendPending := false;
      return wpendRet;
    }

    /** The first half of do_ssl3_write: room for the rest of the flight and `maxOut` more bytes, and the rest
        of the flight moved in front. What does not fit 16 bits is refused, and then nothing moves. */
    method TakeFlight(maxOut: nat) returns (ok: bool)
      requires Valid() && buffer.fields.size == 0
      modifies this`flight, this`flightOffset, buffer, buffer.buf
      ensures Valid() && (fresh(buffer.buf) || buffer.buf == old(buffer.buf))
      ensures ok == (|old(Unsent())| + maxOut < TWO_16)
      ensures if ok then flight == None && flightOffset == 0 && buffer.fields.cap - buffer.fields.size >= maxOut
              else flight == old(flight) && flightOffset == old(flightOffset)
      ensures old(Ordered()) && (ok ==> |old(Unsent())| + maxOut + ALIGN_PAYLOAD - 1 <= TWO_16) ==> Ordered()
    {
      hide Sealed, Plains, InOrder;
      var rest := if flight.Some? then flight.value[flightOffset..] else [];
      var address: nat :| true;
      var prefixLen: nat :| true;              // ssl_seal_align_prefix_len
      ok := buffer.EnsureCap(|rest| + prefixLen, maxOut + |rest|, address);
      if !ok {
        return;
      }
      assert buffer.View() == [];
      FlightToBuffer(Sealed(records), wire, rest);
      if flight.Some? {
        buffer.Append(rest);
        flight, flightOffset := None, 0;
      }
    }

    /** What do_ssl3_write puts into the buffer: the rest of the flight, then a new record. */
    method SealIntoBuffer(kind: Kind, plain: seq<byte>) returns (ok: bool)
      requires Valid() && buffer.fields.size == 0
      modifies this`flight, this`flightOffset, this`records, buffer, buffer.buf
      ensures Valid() && (old(Ordered() && RoomFor(|plain|)) ==> Ordered())
      ensures (Unsent() == [] || Unsent() == old(Unsent())) && (fresh(buffer.buf) || buffer.buf == old(buffer.buf))
      ensures ok ==> |records| == |old(records)| + 1 && records[..|old(records)|] == old(records)
                     && records[|old(records)|].kind == kind && records[|old(records)|].plain == plain
      ensures !ok ==> records == old(records)
    {
      hide Sealed, Plains, Safe, InOrder;
      ok := TakeFlight(|plain| + overhead);
      if !ok {
        return;
      }
      var bytes := Seal(plain, |plain| + overhead);
      if bytes.None? {
        return false;
      }
      ghost var r := Record(kind, plain, bytes.value);
      OneMoreRecord(records, r);
      SealAfterBuffer(Sealed(records), wire, buffer.View(), bytes.value);
      SafeAppend(buffer.fields, |bytes.value|);
      buffer.Append(bytes.value);
      records := records + [r];
      return true;
    }

    /** The second half of do_ssl3_write before the flush: the record is sealed and remembered for the check of
        a retry. */
    method StartRecord(kind: Kind, plain: seq<byte>, ptr: int) returns (ok: bool)
      requires Valid() && 0 < |plain| && buffer.fields.size == 0 && !wpendPending
      modifies this, buffer, buffer.buf
      ensures Valid() && (old(Ordered() && RoomFor(|plain|)) ==> Ordered())
      ensures shutdown == old(shutdown) && (fresh(buffer.buf) || buffer.buf == old(buffer.buf))
      ensures Unsent() == [] || Unsent() == old(Unsent())
      ensures View() == if !ok then old(View())
        else old(View()).(plains := if kind.ApplicationData? then old(View().plains) + [plain] else old(View().plains),
                          pend := Some(Pend(|plain|, ptr, kind)))
      ensures ok ==> wpendRet == |plain|
    {
      hide Sealed, Plains, Safe, InOrder, RoomIn, Valid;
      ghost var was := records;
      ok := SealIntoBuffer(kind, plain);
      if !ok {
        return;
      }
      assert records == was + [records[|was|]];
      OneMoreRecord(was, records[|was|]);
      Memorize(kind, |plain|, ptr);
    }

    /** The arguments of the write, for the check of a retry */
    method Memorize(kind: Kind, len: nat, ptr: int)
      requires Valid() && len > 0
      modifies this`wpendTot, this`wpendBuf, this`wpendType, this`wpendRet, this`wpendPending
      ensures Valid() && (old(Ordered()) ==> Ordered()) && wpendRet == len && View() == old(View()).(pend := Some(Pend(len, ptr, kind)))
    {
      hide Sealed, Plains, Safe, InOrder;
      wpendTot, wpendBuf, wpendType, wpendRet, wpendPending := len, ptr, kind, len, true;
    }

    /** do_ssl3_write, for application data and for alerts; `answer` is what became of the attempt. */
    method DoWrite(kind: Kind, plain: seq<byte>, ptr: int) returns (ret: int, ghost answer: Answer)
      requires Valid()
      modifies this, buffer, buffer.buf
      ensures Valid() && (old(Ordered() && (!wpendPending && buffer.fields.size == 0 && 0 < |plain| <= MAX_PLAIN_LENGTH ==> RoomFor(|plain|))) ==> Ordered())
      ensures shutdown == old(shutdown) && (fresh(buffer.buf) || buffer.buf == old(buffer.buf))
      ensures Unsent() == [] || Unsent() == old(Unsent())
      ensures (View(), Count(ret)) == Write(old(View()), Rules(), kind, plain, ptr, answer)
      ensures answer.Held? ==>                 // the transport left bytes, or the retry is of another write
        buffer.View() != [] || (old(wpendPending) && (wpendTot > |plain| || (!acceptMoving && wpendBuf != ptr) || wpendType != kind))
    {
      hide Sealed, Plains, Safe, InOrder;
      answer := NotSealed;
      if wpendPending {
        ret := WritePending(kind, ptr, |plain|);
        answer := if ret > 0 then Out else Held;
        return;
      }
      if |plain| > MAX_PLAIN_LENGTH || buffer.fields.size > 0 {
        return -1, answer;
      }
      if |plain| == 0 {
        return 0, answer;
      }
      var ok := StartRecord(kind, plain, ptr);
      if !ok {
        return -1, answer;
      }
      ret := WritePending(kind, ptr, |plain|);
      answer := if ret > 0 then Out else Held;
    }

    /** ssl3_write_app_data of `len` bytes at `ptr`, the first ones of the caller's data, outside early data and
        partial-write mode. The account of what has been sealed since `start` is kept, except that a length below
        wnum forgets that many bytes: no data then accounts for what has been sealed. */
    method WriteAppData(ptr: int, data: seq<byte>, len: int, ghost whole: seq<byte>, ghost start: nat, ghost forgotten: nat)
      returns (ret: int, ghost c: Call)
      requires Valid() && len <= |whole| && (len >= 0 ==> data == whole[..len])
      modifies this, buffer, buffer.buf
      ensures Valid() && (old(Orderly()) ==> Orderly()) && shutdown == old(shutdown) && (fresh(buffer.buf) || buffer.buf == old(buffer.buf))
      ensures c.ptr == ptr && c.len == len
      ensures if shutdown then ret == -1 && View() == old(View()) else (View(), Count(ret)) == Run(old(View()), Rules(), whole, c)
      ensures !shutdown && old(Ledger(View(), Rules(), whole, start, forgotten, wnum)) ==>
        Ledger(View(), Rules(), whole, start, if len < old(wnum) then forgotten + old(wnum) else forgotten, if ret > 0 then ret else wnum)
      ensures ret > 0 ==> ret == len && wnum == 0 && !wpendPending
      ensures ret <= 0 && 0 <= old(wnum) <= len ==> wnum <= len
      ensures !shutdown && len < old(wnum) ==>             // a bad length forgets how much was written
        ret == -1 && wnum == 0 && records == old(records) && wire == old(wire) && wpendPending == old(wpendPending)
      ensures !shutdown && len < old(wnum) && old(wnum) > 0 && old(Ledger(View(), Rules(), whole, start, forgotten, wnum)) ==>
        forall other: seq<byte> :: !Ledger(View(), Rules(), other, start, 0, 0)
    {
      hide Sealed, Plains, Safe, InOrder, Ledger, Run, TlsAppData.WriteFrom, Write;
      c := Call(ptr, len, []);
      if shutdown {
        return -1, c;
      }
      ghost var before := View();
      var tot := wnum;
      wnum := 0;
      if len < 0 || len < tot {
        ret := -1;
      } else {
        ghost var answers;
        ret, answers := WriteFrom(ptr, data, tot);
        c := Call(ptr, len, answers);
        FromResult(before.(wnum := 0), Rules(), ptr, data, tot, answers);
      }
      assert (View(), Count(ret)) == Run(before, Rules(), whole, c) by { RunIs(before, Rules(), whole, c); }
      if Ledger(before, Rules(), whole, start, forgotten, before.wnum) {
        RunLedger(before, Rules(), whole, c, start, forgotten);
        if len < before.wnum && before.wnum > 0 { NothingAccounts(View(), Rules(), whole, start, forgotten + before.wnum); }
      }
    }

    /** The loop of ssl3_write_app_data from `from` on */
    method WriteFrom(ptr: int, data: seq<byte>, from: nat) returns (ret: int, ghost answers: seq<Answer>)
      requires Valid() && from <= |data|
      modifies this, buffer, buffer.buf
      ensures Valid() && (old(Orderly()) ==> Orderly()) && shutdown == old(shutdown) && (fresh(buffer.buf) || buffer.buf == old(buffer.buf))
      ensures (View(), Count(ret)) == TlsAppData.WriteFrom(old(View()), Rules(), ptr, data, from, answers)
    {
      hide Valid, Orderly, Rounds, TlsAppData.WriteFrom, View, Rules;
      ghost var v0, orderly := View(), Orderly();
      RoundsNone(v0, Rules(), ptr, data, from);
      var tot, n := from, |data| - from;
      answers := [];
      while true
        invariant Valid() && (orderly ==> Orderly()) && shutdown == old(shutdown) && (fresh(buffer.buf) || buffer.buf == old(buffer.buf))
        invariant 0 <= n && tot + n == |data| && Rounds(v0, Rules(), ptr, data, from, answers, View(), tot)
        decreases n
      {
        ghost var answer;
        ret, answer := NextRound(v0, ptr, data, from, answers, tot);
        answers := answers + [answer];
        if ret <= 0 {
          return;
        }
        if ret == n {
          return tot + ret, answers;
        }
        n := n - ret;
        tot := tot + ret;
      }
    }

    /** One round of the loop; it ends the call, or leads on. */
    method NextRound(ghost v0: App, ptr: int, data: seq<byte>, ghost from: nat, ghost answers: seq<Answer>, tot: nat)
      returns (ret: int, ghost answer: Answer)
      requires Valid() && from <= |data| && tot <= |data| && Rounds(v0, Rules(), ptr, data, from, answers, View(), tot)
      modifies this, buffer, buffer.buf
      ensures Valid() && (old(Orderly()) ==> Orderly()) && shutdown == old(shutdown) && (fresh(buffer.buf) || buffer.buf == old(buffer.buf))
      ensures ret <= |data| - tot
      ensures
        if ret <= 0 || ret == |data| - tot then TlsAppData.WriteFrom(v0, Rules(), ptr, data, from, answers + [answer]) == (View(), if ret <= 0 then 0 else |data|)
        else Rounds(v0, Rules(), ptr, data, from, answers + [answer], View(), tot + ret)
    {
      hide Sealed, Plains, Safe, InOrder, Write, TlsAppData.WriteFrom, AlwaysRoom, Rounds;
      ghost var before := View();
      var n := |data| - tot;
      var nw := if n > maxSendFragment then maxSendFragment else n;
      ret, answer := WriteRound(data[tot..tot + nw], ptr + tot);
      RoundsThen(v0, Rules(), ptr, data, from, answers, before, tot, answer);
      if ret <= 0 {
        wnum := tot;
      }
    }

    /** A caller that tries again and again with the first bytes of its data, at any address and of any length, until
        a call succeeds. Whatever the transport does, the application records sealed by then carry exactly the bytes
        of that call, once each, if and only if no call had a length below what the caller had been told of. */
    method WriteWithRetries(whole: seq<byte>, attempts: seq<(int, int)>) returns (ret: int, k: nat, ghost calls: seq<Call>)
      requires Valid() && Begins(View(), Rules()) && forall i :: 0 <= i < |attempts| ==> attempts[i].1 <= |whole|
      modifies this, buffer, buffer.buf
      ensures Valid() && (old(Orderly()) ==> Orderly()) && Fits(whole, calls) && View() == RunAll(old(View()), Rules(), whole, calls).0
      ensures |calls| <= |attempts| && forall i :: 0 <= i < |calls| ==> (calls[i].ptr, calls[i].len) == attempts[i]
      ensures ret > 0 ==>
        var start := |old(View().plains)|;
        k < |attempts| && |calls| == k + 1 && ret == attempts[k].1 && start <= |View().plains|
        && (Since(View(), start) == whole[..ret] <==> !BadLength(old(View()), Rules(), whole, calls))
        && forall i :: start <= i < |View().plains| ==> 0 < |View().plains[i]| <= maxSendFragment
      ensures ret > 0 && (forall i, j :: 0 <= i < j <= k ==> attempts[i].1 <= attempts[j].1) ==>
        Since(View(), |old(View().plains)|) == whole[..ret]
    {
      hide Valid, Orderly, RunAll, BadLength, Since, Ledger, Run, Retrying;
      ret, k, calls := -1, 0, [];
      ghost var v0, orderly := View(), Orderly();
      NoCalls(v0, Rules(), whole);
      if shutdown {
        return;
      }
      while k < |attempts|
        invariant k <= |attempts| && Valid() && (orderly ==> Orderly()) && !shutdown && ret <= 0 && (fresh(buffer.buf) || buffer.buf == old(buffer.buf))
        invariant |calls| == k && Fits(whole, calls) && Retrying(v0, Rules(), whole, calls)
        invariant RunAll(v0, Rules(), whole, calls) == (View(), 0)
        invariant forall i :: 0 <= i < |calls| ==> (calls[i].ptr, calls[i].len) == attempts[i]
        decreases |attempts| - k
      {
        var (ptr, len) := attempts[k];
        ghost var c;
        ret, c := WriteAppData(ptr, if len >= 0 then whole[..len] else [], len, whole, |v0.plains|, 0);
        OneMoreCall(v0, Rules(), whole, calls, c);
        calls := calls + [c];
        if ret > 0 {
          ExactlyOnce(v0, Rules(), whole, calls);
          if forall i, j :: 0 <= i < j <= k ==> attempts[i].1 <= attempts[j].1 { NeverShrinks(v0, Rules(), whole, calls); }
          return;
        }
        k := k + 1;
      }
    }

    /** One round, with room again afterwards */
    method WriteRound(plain: seq<byte>, ptr: int) returns (ret: int, ghost answer: Answer)
      requires Valid() && |plain| <= maxSendFragment
      modifies this, buffer, buffer.buf
      ensures Valid() && (old(Orderly()) ==> Orderly()) && shutdown == old(shutdown) && (fresh(buffer.buf) || buffer.buf == old(buffer.buf))
      ensures (View(), Count(ret)) == Write(old(View()), Rules(), ApplicationData, plain, ptr, answer)
    {
      hide Sealed, Plains, Safe, InOrder, Write;
      ghost var unsent := |Unsent()|;
      ret, answer := DoWrite(ApplicationData, plain, ptr);
      if AlwaysRoom(unsent, overhead, maxSendFragment) { RoomKept(unsent); }
    }
  }

  function Count(ret: int): nat { if ret > 0 then ret else 0 }

  lemma FlattenNothing(msg: seq<byte>)
    ensures Flatten<byte>([]) + msg == msg
  {
  }

  lemma SafeEmpty()
    ensures Safe(Fields(0, 0, 0))
  {
  }

  lemma ConsumedSize(f: Fields, n: nat)
    requires n <= f.size <= f.cap
    ensures Consumed(f, n).size == f.size - n
  {
  }

  lemma SafeAppend(f: Fields, n: nat)
    ensures Safe(f.(size := f.size + n)) == Safe(f)
  {
  }
}
