/** Anti-replay of DTLS records (RFC 6347 section 4.1.2.6): the 64-entry sliding window, and the gate of
    dtls_open_record that consults it. The epoch is the top 16 bits of the 64-bit sequence number. */
module DtlsReplay {
  import opened BigEndianBytes
  import opened Bits
  import opened Common

  const WINDOW: nat := 64                      // bits in DTLS1_BITMAP.map

  /** DTLS1_BITMAP: bit i of `bits` is the number max - i. */
  datatype Window = Window(bits: nat, max: nat)

  /** dtls1_bitmap_should_discard */
  predicate ShouldDiscard(w: Window, s: nat)
  {
    s <= w.max && (w.max - s >= WINDOW || TestBit(w.bits, w.max - s))
  }

  /** dtls1_bitmap_record */
  function Recorded(w: Window, s: nat): Window
  {
    var shift := s - w.max;
    var slid := if shift <= 0 then w else Window(if shift >= WINDOW then 0 else Shl64(w.bits, shift), s);
    var idx := slid.max - s;
    if idx < WINDOW then slid.(bits := Or(slid.bits, Pow2(idx))) else slid
  }

  /** What the window stands for: a set of recorded numbers with maximum `max`. */
  ghost predicate Represents(w: Window, recorded: set<nat>)
  {
    && (forall s :: s in recorded ==> s <= w.max)
    && forall i: nat :: i < WINDOW ==> (TestBit(w.bits, i) <==> i <= w.max && w.max - i in recorded)
  }

  lemma EmptyWindow()
    ensures Represents(Window(0, 0), {})
  {
    forall i: nat ensures !TestBit(0, i) { ZeroBits(i); }
  }

  /** A number is discarded exactly when it was recorded or lies at least 64 below the maximum. */
  lemma DiscardExact(w: Window, recorded: set<nat>, s: nat)
    requires Represents(w, recorded)
    ensures ShouldDiscard(w, s) <==> s in recorded || s + WINDOW <= w.max
  {
    hide TestBit;
    if s <= w.max && w.max - s < WINDOW {
      assert TestBit(w.bits, w.max - s) <==> w.max - (w.max - s) in recorded;
    }
  }

  /** Recording a number, a stale one included, adds it to the set; the window may slide by any distance. */
  lemma RecordRefines(w: Window, recorded: set<nat>, s: nat)
    requires Represents(w, recorded)
    ensures Represents(Recorded(w, s), recorded + {s})
  {
    hide TestBit, Or, Shl64, Pow2;
    var w' := Recorded(w, s);
    forall i: nat | i < WINDOW ensures TestBit(w'.bits, i) <==> i <= w'.max && w'.max - i in recorded + {s} {
      RecordBit(w, recorded, s, i);
    }
  }

  lemma RecordedMax(w: Window, s: nat)
    ensures Recorded(w, s).max == if s > w.max then s else w.max
  {
  }

  lemma RecordBit(w: Window, recorded: set<nat>, s: nat, i: nat)
    requires Represents(w, recorded) && i < WINDOW
    ensures var w' := Recorded(w, s); TestBit(w'.bits, i) <==> i <= w'.max && (w'.max - i in recorded || w'.max - i == s)
  {
    hide TestBit, Or, Shl64, Pow2;
    var shift := s - w.max;
    var slid := if shift <= 0 then w.bits else if shift >= WINDOW then 0 else Shl64(w.bits, shift);
    var max' := if shift <= 0 then w.max else s;
    assert TestBit(slid, i) <==> i <= max' && max' - i in recorded by {
      if shift > 0 {
        ZeroBits(i);
        Shl64Bit(w.bits, shift, i);
        if i >= shift { assert TestBit(w.bits, i - shift) <==> i - shift <= w.max && w.max - (i - shift) in recorded; }
      }
    }
    if max' - s < WINDOW {
      OrBits(slid, Pow2(max' - s), i);
      Pow2Bits(max' - s, i);
    }
  }

  // ---------------------------------------------------------------- the gate of dtls_open_record

  function Epoch(sequence: nat): nat { sequence / TWO_48 }

  /** A parsed record as the gate sees it: whether header and version were acceptable, its 64-bit epoch and
      sequence number, and the length of the plaintext if the AEAD opens it. */
  datatype Record = Record(headerOk: bool, versionOk: bool, sequence: nat, plain: Option<nat>)

  datatype Verdict = Accepted | Discarded | Overflow

  /** The receiving half of the record layer. */
  datatype Reader = Reader(epoch: nat, window: Window)

  function Gate(r: Reader, rec: Record): Verdict
  {
    if !rec.headerOk || !rec.versionOk then Discarded
    else if Epoch(rec.sequence) != r.epoch || ShouldDiscard(r.window, rec.sequence) then Discarded
    else if rec.plain.None? then Discarded
    else if rec.plain.value > MAX_PLAIN_LENGTH then Overflow
    else Accepted
  }

  datatype Event = Incoming(rec: Record) | NewReadState

  /** A run of the reader: how often the cipher changed, and what was accepted under which cipher. */
  datatype Run = Run(r: Reader, generation: nat, accepted: seq<(nat, nat)>)

  const START: Run := Run(Reader(0, Window(0, 0)), 0, [])

  function Step(run: Run, e: Event): Run
  {
    match e
    case Incoming(rec) =>
      if Gate(run.r, rec) == Accepted
      then Run(Reader(run.r.epoch, Recorded(run.r.window, rec.sequence)), run.generation, run.accepted + [(run.generation, rec.sequence)])
      else run
    case NewReadState =>       // r_epoch is 16 bits wide; the window restarts from zero
      Run(Reader((run.r.epoch + 1) % TWO_16, Window(0, 0)), run.generation + 1, run.accepted)
  }

  function Steps(run: Run, es: seq<Event>): Run
    decreases |es|
  {
    if es == [] then run else Steps(Step(run, es[0]), es[1..])
  }

  /** The sequence numbers accepted under the current cipher. */
  ghost function Current(run: Run): set<nat>
  {
    set i | 0 <= i < |run.accepted| && run.accepted[i].0 == run.generation :: run.accepted[i].1
  }

  ghost predicate Distinct(accepted: seq<(nat, nat)>)
  {
    forall i, j :: 0 <= i < j < |accepted| ==> accepted[i] != accepted[j]
  }

  ghost predicate Inv(run: Run)
  {
    && run.r.epoch == run.generation % TWO_16
    && Distinct(run.accepted)
    && (forall i :: 0 <= i < |run.accepted| ==> run.accepted[i].0 <= run.generation && Epoch(run.accepted[i].1) == run.accepted[i].0 % TWO_16)
    && Represents(run.r.window, Current(run)) && (run.r.window.max == 0 || run.r.window.max in Current(run))
  }

  lemma StepKeeps(run: Run, e: Event)
    requires Inv(run)
    ensures Inv(Step(run, e))
  {
    hide ShouldDiscard, Recorded, Represents;
    var run' := Step(run, e);
    match e {
      case NewReadState =>
        EmptyWindow();
        assert Current(run') == {};
      case Incoming(rec) =>
        if Gate(run.r, rec) == Accepted {
          DiscardExact(run.r.window, Current(run), rec.sequence);
          RecordRefines(run.r.window, Current(run), rec.sequence);
          CurrentGrows(run, rec.sequence, run'.r);
          RecordedMax(run.r.window, rec.sequence);
        }
    }
  }

  lemma CurrentGrows(run: Run, s: nat, r: Reader)
    ensures Current(Run(r, run.generation, run.accepted + [(run.generation, s)])) == Current(run) + {s}
  {
    var acc' := run.accepted + [(run.generation, s)];
    assert acc'[|run.accepted|] == (run.generation, s);
    forall x | x in Current(run) ensures x in Current(Run(r, run.generation, acc')) {
      var i :| 0 <= i < |run.accepted| && run.accepted[i].0 == run.generation && run.accepted[i].1 == x;
      assert acc'[i] == run.accepted[i];
    }
  }

  lemma {:induction false} StepsKeep(run: Run, es: seq<Event>)
    requires Inv(run)
    ensures Inv(Steps(run, es))
    decreases |es|
  {
    if es != [] {
      StepKeeps(run, es[0]);
      StepsKeep(Step(run, es[0]), es[1..]);
    }
  }

  /** No record is accepted twice under one cipher, whatever arrives; hence no (epoch, sequence) pair is
      accepted twice until the 16-bit epoch wraps. */
  lemma NeverReplayed(es: seq<Event>)
    ensures Distinct(Steps(START, es).accepted)
    ensures var run := Steps(START, es);
      run.generation < TWO_16 ==> forall i, j :: 0 <= i < j < |run.accepted| ==> run.accepted[i].1 != run.accepted[j].1
  {
    EmptyWindow();
    assert Current(START) == {};
    StepsKeep(START, es);
  }

  /** Nothing else is lost: an authentic record of the current epoch is accepted exactly when it is new and
      less than 64 below every one accepted under the current cipher. */
  lemma AcceptsExactly(es: seq<Event>, rec: Record)
    ensures var run := Steps(START, es);
      Gate(run.r, rec) == Accepted <==>
        && rec.headerOk && rec.versionOk && rec.plain.Some? && rec.plain.value <= MAX_PLAIN_LENGTH
        && Epoch(rec.sequence) == run.r.epoch
        && (run.generation, rec.sequence) !in run.accepted
        && forall s :: (run.generation, s) in run.accepted ==> s < rec.sequence + WINDOW
  {
    hide ShouldDiscard, Represents;
    EmptyWindow();
    assert Current(START) == {};
    StepsKeep(START, es);
    var run := Steps(START, es);
    DiscardExact(run.r.window, Current(run), rec.sequence);
    CurrentIs(run);
    MaximumBounds(run.r.window, Current(run), rec.sequence + WINDOW);
  }

  /** The record whose header and version are acceptable is of the current epoch, and its number was not yet accepted
      and is less than 64 below every number accepted under the current cipher. */
  ghost predicate Fresh(run: Run, rec: Record)
  {
    && rec.headerOk && rec.versionOk && rec.sequence / 0x1_0000_0000_0000 == run.generation % 0x1_0000
    && (run.generation, rec.sequence) !in run.accepted
    && forall s :: (run.generation, s) in run.accepted ==> s < rec.sequence + 64
  }

  /** In every run: a record that is not fresh or does not authenticate is dropped silently, and a fresh authentic one
      is a fatal error if and only if it is longer than 2^14 bytes. */
  lemma Verdicts(es: seq<Event>, rec: Record)
    ensures var run := Steps(START, es); var verdict := Gate(run.r, rec);
      && (verdict == Discarded <==> !Fresh(run, rec) || rec.plain.None?)
      && (verdict == Overflow <==> Fresh(run, rec) && rec.plain.Some? && rec.plain.value > 16384)
      && (verdict == Accepted <==> Fresh(run, rec) && rec.plain.Some? && rec.plain.value <= 16384)
  {
    hide ShouldDiscard, Represents;
    EmptyWindow();
    assert Current(START) == {};
    StepsKeep(START, es);
    AcceptsExactly(es, rec.(plain := Some(0)));
  }

  lemma CurrentIs(run: Run)
    ensures forall s :: s in Current(run) <==> (run.generation, s) in run.accepted
  {
  }

  /** What is below the maximum of a window is below all numbers recorded in it. */
  lemma MaximumBounds(w: Window, recorded: set<nat>, bound: nat)
    requires Represents(w, recorded) && (w.max == 0 || w.max in recorded) && bound > 0
    ensures w.max < bound <==> forall s :: s in recorded ==> s < bound
  {
    hide TestBit;
  }

  // ---------------------------------------------------------------- the objects that are updated in place

  /** to_u64_be */
  method ToU64(bytes: seq<byte>) returns (value: nat)
    requires |bytes| == 8
    ensures value == BigEndian(bytes)
    ensures Epoch(value) == 256 * (bytes[0] as int) + bytes[1]
  {
    value := 0;
    for i := 0 to 8
      invariant value == BigEndian(bytes[..i])
    {
      assert bytes[..i + 1][..i] == bytes[..i];
      value := value * 256 + bytes[i];
    }
    assert bytes[..8] == bytes;
    EpochBytes(bytes);
  }

  lemma EpochBytes(bytes: seq<byte>)
    requires |bytes| == 8
    ensures Epoch(BigEndian(bytes)) == 256 * (bytes[0] as int) + bytes[1] < TWO_16
  {
    BigEndianSplit(bytes, 2);
    assert bytes[..2][..1] == bytes[..1] && bytes[..1][..0] == [];
    var x := BigEndian(bytes[..2]);
    assert BigEndian(bytes[..1]) == bytes[0];
    assert x == 256 * (bytes[0] as int) + bytes[1];
    Scale6(x);
    Scale6(1);
    hide BigEndian, Scale;
    assert BigEndian(bytes) == TWO_48 * x + BigEndian(bytes[2..]);
  }

  class DtlsReader {
    var epoch: nat
    var bits: nat
    var maxSeq: nat
    ghost var run: Run

    ghost predicate Valid()
      reads this
    {
      Inv(run) && run.r == Reader(epoch, Window(bits, maxSeq))
    }

    constructor ()
      ensures Valid() && run == START
    {
      epoch, bits, maxSeq, run := 0, 0, 0, START;
      new;
      EmptyWindow();
      assert Current(START) == {};
    }

    /** dtls1_bitmap_should_discard: what was accepted under this cipher, and what is 64 or more below such a number */
    method DoShouldDiscard(s: nat) returns (discard: bool)
      requires Valid()
      ensures discard == ShouldDiscard(run.r.window, s)
      ensures discard <==> s in Current(run) || exists m :: m in Current(run) && s + WINDOW <= m
    {
      DiscardExact(run.r.window, Current(run), s);
      MaximumBounds(run.r.window, Current(run), s + WINDOW);
      hide Represents;
      if s > maxSeq {
        return false;
      }
      var idx := maxSeq - s;
      return idx >= WINDOW || TestBit(bits, idx);
    }

    /** dtls1_bitmap_record: the window stands for one number more */
    method DoRecord(s: nat)
      requires Valid()
      modifies this
      ensures Represents(Window(bits, maxSeq), Current(run) + {s}) && maxSeq == if s > old(maxSeq) then s else old(maxSeq)
      ensures Window(bits, maxSeq) == Recorded(old(Window(bits, maxSeq)), s) && epoch == old(epoch) && run == old(run)
    {
      RecordRefines(Window(bits, maxSeq), Current(run), s);
      hide Represents, Inv;
      if s > maxSeq {
        var shift := s - maxSeq;
        if shift >= WINDOW {
          bits := 0;
        } else {
          bits := Shl64(bits, shift);
        }
        maxSeq := s;
      }
      var idx := maxSeq - s;
      if idx < WINDOW {
        bits := Or(bits, Pow2(idx));
      }
    }

    /** dtls_open_record, up to the processing of alerts */
    method OpenRecord(rec: Record) returns (verdict: Verdict)
      requires Valid()
      modifies this
      ensures Valid() && run == Step(old(run), Incoming(rec)) && verdict == Gate(old(run.r), rec)
    {
      hide Recorded, ShouldDiscard, Inv;
      if !rec.headerOk || !rec.versionOk {
        return Discarded;
      }
      var discard := true;
      if Epoch(rec.sequence) == epoch {
        discard := DoShouldDiscard(rec.sequence);
      }
      if discard || rec.plain.None? {
        return Discarded;
      }
      if rec.plain.value > MAX_PLAIN_LENGTH {
        return Overflow;
      }
      DoRecord(rec.sequence);
      StepKeeps(run, Incoming(rec));
      run := Step(run, Incoming(rec));
      return Accepted;
    }

    /** The record-layer part of dtls1_set_read_state; it is refused while handshake data is unprocessed. */
    method SetReadState(unprocessed: bool) returns (ok: bool)
      requires Valid()
      modifies this
      ensures Valid() && ok == !unprocessed && run == if ok then Step(old(run), NewReadState) else old(run)
    {
      if unprocessed {
        return false;
      }
      epoch := (epoch + 1) % TWO_16;
      bits, maxSeq := 0, 0;
      StepKeeps(run, NewReadState);
      run := Step(run, NewReadState);
      return true;
    }
  }
}
