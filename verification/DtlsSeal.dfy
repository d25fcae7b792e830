/** Record numbering of the DTLS sender: dtls_seal_record under the current and the previous epoch, and the
    cipher change that turns one into the other (RFC 6347 section 4.1). */
module DtlsSeal {
  import opened BigEndianBytes
  import opened Common

  /** w_epoch, and the 48-bit counters write_sequence and last_write_sequence. */
  datatype Writer = Writer(epoch: nat, cur: nat, last: nat)

  /** Sealing names the epoch to use and what the AEAD gives: the length of the ciphertext, or nothing. */
  datatype Op = Seal(previous: bool, ciphertext: Option<nat>) | NewWriteState

  /** A run of the writer: how often the cipher changed, whether a counter has wrapped, and under which
      cipher and number each record was sealed successfully. */
  datatype Run = Run(w: Writer, generation: nat, wrapped: bool, sealed: seq<(nat, nat)>)

  const START: Run := Run(Writer(0, 0, 0), 0, false, [])

  /** The previous epoch exists only after a cipher change; dtls_seal_record asserts it. */
  predicate Allowed(w: Writer, op: Op) { op.Seal? && op.previous ==> w.epoch >= 1 }

  function Counter(w: Writer, previous: bool): nat { if previous then w.last else w.cur }

  function Step(run: Run, op: Op): Run
  {
    match op
    case NewWriteState => Run(Writer((run.w.epoch + 1) % TWO_16, 0, run.w.cur), run.generation + 1, run.wrapped, run.sealed)
    case Seal(previous, ciphertext) =>
      if !Allowed(run.w, op) || ciphertext.None? then run
      else
        var n := Counter(run.w, previous);
        var next := (n + 1) % TWO_48;
        var w' := if previous then run.w.(last := next) else run.w.(cur := next);
        var ok := next != 0 && ciphertext.value < TWO_16;
        var entry := (if previous then run.generation - 1 else run.generation, n);
        Run(w', run.generation, run.wrapped || next == 0, if ok && entry.0 >= 0 then run.sealed + [entry] else run.sealed)
  }

  function Steps(run: Run, ops: seq<Op>): Run
    decreases |ops|
  {
    if ops == [] then run else Steps(Step(run, ops[0]), ops[1..])
  }

  ghost predicate Distinct(sealed: seq<(nat, nat)>)
  {
    forall i, j :: 0 <= i < j < |sealed| ==> sealed[i] != sealed[j]
  }

  /** While no counter has wrapped, every counter is above all numbers used under its cipher. */
  ghost predicate Inv(run: Run)
  {
    && run.w.epoch == run.generation % TWO_16
    && run.w.cur < TWO_48 && run.w.last < TWO_48
    && (forall i :: 0 <= i < |run.sealed| ==> run.sealed[i].0 <= run.generation)
    && (!run.wrapped ==> Distinct(run.sealed) && forall i :: 0 <= i < |run.sealed| ==> Below(run, run.sealed[i]))
  }

  predicate Below(run: Run, e: (nat, nat))
  {
    && (e.0 == run.generation ==> e.1 < run.w.cur)
    && (e.0 + 1 == run.generation ==> e.1 < run.w.last)
  }

  lemma StepKeeps(run: Run, op: Op)
    requires Inv(run)
    ensures Inv(Step(run, op))
  {
  }

  lemma {:induction false} StepsKeep(run: Run, ops: seq<Op>)
    requires Inv(run)
    ensures Inv(Steps(run, ops))
    decreases |ops|
  {
    if ops != [] {
      StepKeeps(run, ops[0]);
      StepsKeep(Step(run, ops[0]), ops[1..]);
    }
  }

  /** Until a counter wraps, every record sealed in a run has its own (cipher, number) pair, whatever the
      interleaving of current writes, retransmissions under the previous epoch and cipher changes; and until
      the 16-bit epoch wraps too, its own (epoch, number) pair on the wire. */
  lemma NeverReused(ops: seq<Op>)
    ensures var run := Steps(START, ops);
      !run.wrapped ==> Distinct(run.sealed)
    ensures var run := Steps(START, ops);
      !run.wrapped && run.generation < TWO_16 ==>
        forall i, j :: 0 <= i < j < |run.sealed| ==>
          (run.sealed[i].0 % TWO_16, run.sealed[i].1) != (run.sealed[j].0 % TWO_16, run.sealed[j].1)
  {
    StepsKeep(START, ops);
  }

  // ---------------------------------------------------------------- after a wrap the numbers repeat

  const PLAIN_SEAL: Op := Seal(false, Some(1))

  lemma {:induction false} SealMany(n: nat, ops: seq<Op>)
    requires n < TWO_48 && |ops| == n && forall k :: 0 <= k < n ==> ops[k] == PLAIN_SEAL
    ensures var run := Steps(START, ops); run.w == Writer(0, n, 0) && run.generation == 0 && |run.sealed| == n && !run.wrapped
    ensures n > 0 ==> Steps(START, ops).sealed[0] == (0, 0)
  {
    if n > 0 {
      SealMany(n - 1, ops[..n - 1]);
      StepsAppend(START, ops[..n - 1], PLAIN_SEAL);
      assert ops == ops[..n - 1] + [PLAIN_SEAL];
    }
  }

  lemma {:induction false} StepsAppend(run: Run, ops: seq<Op>, op: Op)
    ensures Steps(run, ops + [op]) == Step(Steps(run, ops), op)
    decreases |ops|
  {
    if ops == [] {
      assert Steps(run, [op]) == Steps(Step(run, op), []);
    } else {
      assert (ops + [op])[1..] == ops[1..] + [op];
      StepsAppend(Step(run, ops[0]), ops[1..], op);
    }
  }

  /** The limit is sharp: sealing 2^48 + 1 times under one cipher uses number 0 twice. The call that wraps
      the counter reports failure, but the counter restarts at 0. */
  lemma WrapReuses()
    ensures var run := Steps(START, seq(TWO_48 + 1, _ => PLAIN_SEAL)); run.wrapped && !Distinct(run.sealed)
  {
    var ops, n := seq(TWO_48 + 1, _ => PLAIN_SEAL), TWO_48 - 1;
    SealMany(n, ops[..n]);
    var run := Steps(START, ops[..n]);
    var run' := Step(run, PLAIN_SEAL);
    var run'' := Step(run', PLAIN_SEAL);
    StepsAppend(START, ops[..n], PLAIN_SEAL);
    StepsAppend(START, ops[..n] + [PLAIN_SEAL], PLAIN_SEAL);
    assert ops == ops[..n] + [PLAIN_SEAL] + [PLAIN_SEAL];
    assert run''.sealed[0] == (0, 0) == run''.sealed[n];
  }

  // ---------------------------------------------------------------- exactly when numbers repeat

  /** The cipher that an operation seals under, if it does. */
  function CipherUsed(run: Run, op: Op): Option<nat>
  {
    if op.NewWriteState? || !Allowed(run.w, op) || op.ciphertext.None? then None
    else if !op.previous then Some(run.generation)
    else if run.generation > 0 then Some(run.generation - 1)
    else None
  }

  /** How often cipher g has been sealed under. */
  function Tally(ops: seq<Op>, g: nat): nat
  {
    if ops == [] then 0
    else
      var n := |ops| - 1;
      Tally(ops[..n], g) + if CipherUsed(Steps(START, ops[..n]), ops[n]) == Some(g) then 1 else 0
  }

  /** Ciphertexts, where there are any, fit into a record. */
  predicate Short(ops: seq<Op>)
  {
    forall k :: 0 <= k < |ops| && ops[k].Seal? && ops[k].ciphertext.Some? ==> ops[k].ciphertext.value < TWO_16
  }

  /** Number n has been used after `count` records under its cipher; the last number only wraps the counter. */
  predicate Reached(count: nat, n: nat) { n < count && n < TWO_48 - 1 }

  /** No cipher is used for more than 2^48 records. */
  ghost predicate Within(ops: seq<Op>) { forall g: nat :: Tally(ops, g) <= TWO_48 }

  /** The counters are the tallies, and what has been sealed follows from them. */
  ghost predicate Tallied(run: Run, ops: seq<Op>)
  {
    && run.w.epoch == run.generation % TWO_16
    && run.w.cur == Tally(ops, run.generation) % TWO_48
    && run.w.last == (if run.generation == 0 then 0 else Tally(ops, run.generation - 1) % TWO_48)
    && (forall g: nat :: g > run.generation ==> Tally(ops, g) == 0)
    && (forall g: nat, n: nat :: (g, n) in run.sealed <==> Reached(Tally(ops, g), n))
    && (Distinct(run.sealed) <==> Within(ops))
  }

  lemma TallySnoc(ops: seq<Op>, op: Op)
    ensures forall g: nat :: Tally(ops + [op], g) == Tally(ops, g) + if CipherUsed(Steps(START, ops), op) == Some(g) then 1 else 0
  {
    assert (ops + [op])[..|ops|] == ops;
  }

  lemma DistinctSnoc(sealed: seq<(nat, nat)>, e: (nat, nat))
    ensures Distinct(sealed + [e]) <==> Distinct(sealed) && e !in sealed
  {
    var more := sealed + [e];
    assert forall i :: 0 <= i < |sealed| ==> more[i] == sealed[i];
    assert more[|sealed|] == e;
    if e in sealed {
      var i :| 0 <= i < |sealed| && sealed[i] == e;
      assert more[i] == more[|sealed|];
    }
    if Distinct(more) {
      forall i, j | 0 <= i < j < |sealed| ensures sealed[i] != sealed[j] { assert more[i] != more[j]; }
    }
  }

  /** A step that seals under no cipher. */
  lemma IdleTallied(run: Run, ops: seq<Op>, op: Op)
    requires Tallied(run, ops) && run == Steps(START, ops) && CipherUsed(run, op) == None
    ensures Tallied(Step(run, op), ops + [op])
  {
    TallySnoc(ops, op);
    hide Tally, Distinct, Reached, Steps;
    assert forall g: nat :: Tally(ops + [op], g) == Tally(ops, g);
  }

  /** Sealing under cipher g uses the next number, and writes it down unless the counter wraps. */
  lemma SealStep(run: Run, op: Op, g: nat)
    requires CipherUsed(run, op) == Some(g) && op.ciphertext.value < TWO_16
    ensures var r, n := Step(run, op), Counter(run.w, op.previous);
      && r.w == (if op.previous then run.w.(last := (n + 1) % TWO_48) else run.w.(cur := (n + 1) % TWO_48))
      && r.generation == run.generation && g == (if op.previous then run.generation - 1 else run.generation)
      && r.sealed == if (n + 1) % TWO_48 == 0 then run.sealed else run.sealed + [(g, n)]
  {
  }

  lemma SealTallied(run: Run, ops: seq<Op>, op: Op, g: nat)
    requires Tallied(run, ops) && run == Steps(START, ops) && CipherUsed(run, op) == Some(g)
    requires op.ciphertext.value < TWO_16
    ensures Tallied(Step(run, op), ops + [op])
  {
    hide Tally, Distinct, Steps, Step, Counter, Reached, Within, Tallied, Allowed;
    var r, more, previous := Step(run, op), ops + [op], op.previous;
    SealStep(run, op, g);
    OneMoreTally(ops, op, g);
    SealKeeps(run, ops, more, previous, g, r);
  }

  lemma SealKeeps(run: Run, ops: seq<Op>, more: seq<Op>, previous: bool, g: nat, r: Run)
    requires Tallied(run, ops) && Tally(more, g) == Tally(ops, g) + 1 && forall h: nat :: h != g ==> Tally(more, h) == Tally(ops, h)
    requires r.generation == run.generation && g == if previous then run.generation - 1 else run.generation
    requires var n := Counter(run.w, previous);
      && r.w == (if previous then run.w.(last := (n + 1) % TWO_48) else run.w.(cur := (n + 1) % TWO_48))
      && r.sealed == if (n + 1) % TWO_48 == 0 then run.sealed else run.sealed + [(g, n)]
    ensures Tallied(r, more)
  {
    hide Tally, Distinct, Counter, Reached, Within, Tallied;
    SealCounters(run, ops, more, previous, g, r);
    SealNumbers(run, ops, more, previous, g, r);
    TalliedAgain(r, more);
  }

  lemma OneMoreTally(ops: seq<Op>, op: Op, g: nat)
    requires CipherUsed(Steps(START, ops), op) == Some(g)
    ensures Tally(ops + [op], g) == Tally(ops, g) + 1 && forall h: nat :: h != g ==> Tally(ops + [op], h) == Tally(ops, h)
  {
    TallySnoc(ops, op);
    hide Tally, Steps, CipherUsed;
  }

  lemma TalliedAgain(run: Run, ops: seq<Op>)
    requires run.w.epoch == run.generation % TWO_16 && run.w.cur == Tally(ops, run.generation) % TWO_48
    requires run.w.last == if run.generation == 0 then 0 else Tally(ops, run.generation - 1) % TWO_48
    requires forall g: nat :: g > run.generation ==> Tally(ops, g) == 0
    requires forall g: nat, n: nat :: (g, n) in run.sealed <==> Reached(Tally(ops, g), n)
    requires Distinct(run.sealed) <==> Within(ops)
    ensures Tallied(run, ops)
  {
    hide Tally, Distinct, Within, Reached;
  }

  /** The counters after sealing. */
  lemma SealCounters(run: Run, ops: seq<Op>, more: seq<Op>, previous: bool, g: nat, r: Run)
    requires Tallied(run, ops) && Tally(more, g) == Tally(ops, g) + 1 && forall h: nat :: h != g ==> Tally(more, h) == Tally(ops, h)
    requires var n := (Counter(run.w, previous) + 1) % TWO_48; r.w == if previous then run.w.(last := n) else run.w.(cur := n)
    requires r.generation == run.generation && g == if previous then run.generation - 1 else run.generation
    ensures r.w.epoch == r.generation % TWO_16 && r.w.cur == Tally(more, r.generation) % TWO_48
    ensures r.w.last == if r.generation == 0 then 0 else Tally(more, r.generation - 1) % TWO_48
    ensures forall h: nat :: h > r.generation ==> Tally(more, h) == 0
  {
    hide Tally, Distinct, Reached, Within;
    CountStep(Tally(ops, g));
  }

  /** The numbers after sealing. */
  lemma SealNumbers(run: Run, ops: seq<Op>, more: seq<Op>, previous: bool, g: nat, r: Run)
    requires Tallied(run, ops) && Tally(more, g) == Tally(ops, g) + 1 && forall h: nat :: h != g ==> Tally(more, h) == Tally(ops, h)
    requires g == if previous then run.generation - 1 else run.generation
    requires var n := Counter(run.w, previous); r.sealed == if (n + 1) % TWO_48 == 0 then run.sealed else run.sealed + [(g, n)]
    ensures forall h: nat, m: nat :: (h, m) in r.sealed <==> Reached(Tally(more, h), m)
    ensures Distinct(r.sealed) <==> Within(more)
  {
    var count, n := Tally(ops, g), Counter(run.w, previous);
    hide Tally, Distinct, Reached, Within;
    assert n == count % TWO_48;
    SealedSet(run.sealed, r.sealed, count, n, g);
    DistinctSnoc(run.sealed, (g, n));
    LimitStep(ops, more, g, run.sealed, r.sealed);
  }

  /** What has been sealed grows by the next number of g. */
  lemma SealedSet(sealed: seq<(nat, nat)>, sealed': seq<(nat, nat)>, count: nat, n: nat, g: nat)
    requires n == count % TWO_48 && sealed' == if (n + 1) % TWO_48 == 0 then sealed else sealed + [(g, n)]
    requires forall m: nat :: (g, m) in sealed <==> Reached(count, m)
    ensures forall m: nat :: (g, m) in sealed' <==> Reached(count + 1, m)
    ensures forall h: nat, m: nat :: h != g ==> ((h, m) in sealed' <==> (h, m) in sealed)
  {
    CountStep(count);
    hide Reached;
  }

  /** The numbers stay distinct as long as no cipher is used too often. */
  lemma LimitStep(ops: seq<Op>, more: seq<Op>, g: nat, sealed: seq<(nat, nat)>, sealed': seq<(nat, nat)>)
    requires Tally(more, g) == Tally(ops, g) + 1 && forall h: nat :: h != g ==> Tally(more, h) == Tally(ops, h)
    requires Distinct(sealed) <==> Within(ops)
    requires var n := Tally(ops, g) % TWO_48;
      if (n + 1) % TWO_48 == 0 then sealed' == sealed
      else (Distinct(sealed') <==> Distinct(sealed) && (g, n) !in sealed) && ((g, n) in sealed <==> Reached(Tally(ops, g), n))
    ensures Distinct(sealed') <==> Within(more)
  {
    hide Tally, Distinct, Reached;
    var count := Tally(ops, g);
    GrowsWithin(ops, more, g);
    if count <= TWO_48 { OverLimit(count); }
  }

  lemma GrowsWithin(ops: seq<Op>, more: seq<Op>, g: nat)
    requires Tally(more, g) == Tally(ops, g) + 1 && forall h: nat :: h != g ==> Tally(more, h) == Tally(ops, h)
    ensures Within(more) <==> Within(ops) && Tally(ops, g) < TWO_48
  {
    hide Tally;
    if Within(more) {
      forall h: nat ensures Tally(ops, h) <= TWO_48 { assert Tally(more, h) <= TWO_48; }
      assert Tally(more, g) <= TWO_48;
    }
  }

  /** Within the limit, a number has been used before exactly if the counter has wrapped to it. */
  lemma OverLimit(count: nat)
    requires count <= TWO_48
    ensures (count % TWO_48 + 1) % TWO_48 != 0 ==> (Reached(count, count % TWO_48) <==> count == TWO_48)
    ensures (count % TWO_48 + 1) % TWO_48 == 0 ==> count < TWO_48
  {
    if count < TWO_48 { assert count % TWO_48 == count; }
  }

  /** Arithmetic of one more record. */
  lemma CountStep(count: nat)
    ensures (count + 1) % TWO_48 == (count % TWO_48 + 1) % TWO_48
    ensures forall m: nat :: Reached(count + 1, m) <==> Reached(count, m) || (m == count % TWO_48 && (m + 1) % TWO_48 != 0)
  {
    forall m: nat ensures Reached(count + 1, m) <==> Reached(count, m) || (m == count % TWO_48 && (m + 1) % TWO_48 != 0) {
      ReachStep(count, m, count % TWO_48);
    }
  }

  lemma ReachStep(count: nat, m: nat, n: nat)
    requires n == count % TWO_48
    ensures Reached(count + 1, m) <==> Reached(count, m) || (m == n && (m + 1) % TWO_48 != 0)
  {
    assert n < TWO_48 && (count < TWO_48 ==> n == count);
    if m == n { assert (m + 1) % TWO_48 != 0 <==> m < TWO_48 - 1; }
  }

  lemma {:induction false} StepsTallied(ops: seq<Op>)
    requires Short(ops)
    ensures Tallied(Steps(START, ops), ops)
    decreases |ops|
  {
    if ops != [] {
      var n := |ops| - 1;
      StepsTallied(ops[..n]);
      StepsAppend(START, ops[..n], ops[n]);
      assert ops == ops[..n] + [ops[n]];
      hide Tallied;
      match CipherUsed(Steps(START, ops[..n]), ops[n])
      case None => IdleTallied(Steps(START, ops[..n]), ops[..n], ops[n]);
      case Some(g) => SealTallied(Steps(START, ops[..n]), ops[..n], ops[n], g);
    }
  }

  /** Some (cipher, number) pair is used twice if and only if some cipher is used for more than 2^48 records. */
  lemma ReusedExactly(ops: seq<Op>)
    requires Short(ops)
    ensures Distinct(Steps(START, ops).sealed) <==> Within(ops)
  {
    StepsTallied(ops);
  }

  // ---------------------------------------------------------------- the object that is updated in place

  class DtlsWriter {
    var epoch: nat
    var writeSequence: array<byte>
    var lastWriteSequence: array<byte>
    ghost var run: Run

    ghost predicate Valid()
      reads this, writeSequence, lastWriteSequence
    {
      && writeSequence.Length == 8 && lastWriteSequence.Length == 8 && writeSequence != lastWriteSequence
      && Inv(run)
      && run.w == Writer(epoch, BigEndian(writeSequence[2..]), BigEndian(lastWriteSequence[2..]))
    }

    constructor ()
      ensures Valid() && run == START && fresh(writeSequence) && fresh(lastWriteSequence)
    {
      epoch, run := 0, START;
      writeSequence := new byte[8](_ => 0);
      lastWriteSequence := new byte[8](_ => 0);
      new;
      Zeros(writeSequence[2..]);
      Zeros(lastWriteSequence[2..]);
    }

    /** ssl_record_sequence_update(&seq[2], 6) */
    static method SequenceUpdate(s: array<byte>) returns (ok: bool)
      requires s.Length == 8
      modifies s
      ensures s[..2] == old(s[..2]) && (s[2..], ok) == Increment(old(s[2..]))
    {
      ghost var b := s[2..];
      assert b[..6] == b && s[8..] == [] && Increment(b).0 + [] == Increment(b).0;
      var i := 8;
      while i > 2
        invariant 2 <= i <= 8 && s[..2] == old(s[..2]) && s[2..i] == b[..i - 2]
        invariant Increment(b) == (Increment(b[..i - 2]).0 + s[i..], Increment(b[..i - 2]).1)
        decreases i
      {
        ghost var front, tail := b[..i - 3], s[i..];
        i := i - 1;
        assert b[..i - 1] == front + [s[i]] && (front + [s[i]])[..i - 2] == front;
        s[i] := if s[i] == 255 then 0 else s[i] + 1;      // ++ of a uint8_t
        assert s[i..] == [s[i]] + tail && s[2..i] == front;
        if s[i] != 0 {
          assert s[2..] == front + [s[i]] + tail;
          return true;
        }
        assert Increment(front).0 + [0] + tail == Increment(front).0 + s[i..];
      }
      assert b[..0] == [] && s[2..] == [] + s[i..];
      return false;
    }

    /** dtls_seal_record: the sequence bytes it puts into the header, and whether it succeeds. */
    method SealRecord(previous: bool, ciphertext: Option<nat>) returns (ok: bool, header: seq<byte>)
      requires Valid() && (previous ==> epoch >= 1)
      modifies this, writeSequence, lastWriteSequence
      ensures Valid() && writeSequence == old(writeSequence) && lastWriteSequence == old(lastWriteSequence)
      ensures run == Step(old(run), Seal(previous, ciphertext))
      ensures ok == (ciphertext.Some? && ciphertext.value < TWO_16 && Counter(old(run.w), previous) + 1 < TWO_48)
      ensures |header| == 8
      ensures 256 * (header[0] as int) + header[1] == if previous then old(run.w.epoch) - 1 else old(run.w.epoch)
      ensures BigEndian(header[2..]) == Counter(old(run.w), previous)
    {
      hide Increment, BigEndian, Inv, Distinct;
      var e := epoch;
      var s := writeSequence;
      if previous {
        e := epoch - 1;
        s := lastWriteSequence;
      }
      assert epoch < TWO_16 by { EpochBound(run); }
      header := [e / 256, e % 256] + s[2..];
      assert header[2..] == s[2..];
      ghost var op := Seal(previous, ciphertext);
      StepKeeps(run, op);
      if ciphertext.None? {
        return false, header;
      }
      ghost var b, other := s[2..], if previous then writeSequence[2..] else lastWriteSequence[2..];
      ok := SequenceUpdate(s);
      Incremented(b, s[2..], ok);
      assert other == if previous then writeSequence[2..] else lastWriteSequence[2..];
      run := Step(run, op);
      ok := ok && ciphertext.value < TWO_16;
    }

    /** dtls1_set_write_state */
    method SetWriteState()
      requires Valid()
      modifies this, writeSequence, lastWriteSequence
      ensures Valid() && writeSequence == old(writeSequence) && lastWriteSequence == old(lastWriteSequence)
      ensures run == Step(old(run), NewWriteState)
    {
      hide BigEndian, Inv;
      StepKeeps(run, NewWriteState);
      ghost var cur := writeSequence[2..];
      epoch := (epoch + 1) % TWO_16;
      forall i | 0 <= i < 8 { lastWriteSequence[i] := writeSequence[i]; }
      assert lastWriteSequence[2..] == cur;
      forall i | 0 <= i < 8 { writeSequence[i] := 0; }
      Zeros(writeSequence[2..]);
      assert lastWriteSequence[2..] == cur;
      run := Step(run, NewWriteState);
    }
  }

  lemma EpochBound(run: Run)
    requires Inv(run)
    ensures run.w.epoch < TWO_16
  {
  }

  /** The 48-bit counter wraps to zero, and then the update reports failure. */
  lemma Incremented(b: seq<byte>, b': seq<byte>, ok: bool)
    requires |b| == 6 && (b', ok) == Increment(b)
    ensures BigEndian(b') == (BigEndian(b) + 1) % TWO_48
    ensures ok == (BigEndian(b) + 1 < TWO_48)
  {
    hide Increment, BigEndian, Scale;
    IncrementValue(b);
    SixBytes(b);
    SixBytes(b');
  }

  lemma SixBytes(b: seq<byte>)
    requires |b| == 6
    ensures BigEndian(b) < TWO_48 == Scale(1, |b|)
  {
    BytesOfValue(b);
    Scale6(1);
  }

  lemma {:induction false} Zeros(b: seq<byte>)
    requires forall i :: 0 <= i < |b| ==> b[i] == 0
    ensures BigEndian(b) == 0
  {
    if b != [] { Zeros(b[..|b| - 1]); }
  }
}
