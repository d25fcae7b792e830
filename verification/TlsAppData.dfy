/** The bookkeeping of application writes: how ssl3_write_app_data and do_ssl3_write remember across calls what has
    been written, and exactly when the data goes out once. What sealing and flushing come to is an argument. */
module TlsAppData {
  import opened BigEndianBytes
  import opened Common

  datatype Kind = Handshake | ChangeCipherSpec | Alert | ApplicationData

  /** wpend_*: a sealed record that has not been flushed, and the write that it came from. */
  datatype Pend = Pend(tot: nat, buf: int, kind: Kind)

  /** wnum, the pending record if there is one, and the application plaintexts sealed so far. */
  datatype App = App(wnum: nat, pend: Option<Pend>, plains: seq<seq<byte>>)

  /** max_send_fragment, and whether a retry may come with another buffer. */
  datatype Mode = Mode(limit: nat, moving: bool)

  /** What one attempt to write a record comes to: it is not sealed, it is held back, or it is all out. */
  datatype Answer = NotSealed | Held | Out

  /** do_ssl3_write of `plain` at address `ptr`: the number of bytes written, 0 for any failure. */
  function Write(a: App, mode: Mode, kind: Kind, plain: seq<byte>, ptr: int, answer: Answer): (r: (App, nat))
    ensures r.1 <= |plain|
  {
    match a.pend
    case Some(p) =>
      if p.tot > |plain| || (!mode.moving && p.buf != ptr) || p.kind != kind || !answer.Out? then (a, 0)
      else (a.(pend := None), p.tot)
    case None =>
      if plain == [] || answer.NotSealed? then (a, 0)
      else
        var sealed := if kind.ApplicationData? then a.(plains := a.plains + [plain]) else a;
        if answer.Out? then (sealed, |plain|) else (sealed.(pend := Some(Pend(|plain|, ptr, kind))), 0)
  }

  /** The loop of ssl3_write_app_data from `tot` on, with one answer for each round. */
  function WriteFrom(a: App, mode: Mode, ptr: int, data: seq<byte>, tot: nat, answers: seq<Answer>): (App, nat)
    requires tot <= |data|
    decreases |answers|
  {
    if answers == [] then (a.(wnum := tot), 0)
    else
      var nw := Min(|data| - tot, mode.limit);
      var (a', ret) := Write(a, mode, ApplicationData, data[tot..tot + nw], ptr + tot, answers[0]);
      if ret == 0 then (a'.(wnum := tot), 0)
      else if ret == |data| - tot then (a', |data|)
      else WriteFrom(a', mode, ptr, data, tot + ret, answers[1..])
  }

  /** A call with the first `len` bytes of the caller's data, found at `ptr`. */
  datatype Call = Call(ptr: int, len: int, answers: seq<Answer>)

  /** ssl3_write_app_data, which forgets wnum before it checks the length. */
  function Run(a: App, mode: Mode, whole: seq<byte>, c: Call): (App, nat)
    requires c.len <= |whole|
  {
    if c.len < 0 || c.len < a.wnum then (a.(wnum := 0), 0)
    else WriteFrom(a.(wnum := 0), mode, c.ptr, whole[..c.len], a.wnum, c.answers)
  }

  predicate Fits(whole: seq<byte>, calls: seq<Call>) { forall c :: c in calls ==> c.len <= |whole| }

  /** The state after a sequence of calls, and what the last one returned. */
  function RunAll(a: App, mode: Mode, whole: seq<byte>, calls: seq<Call>): (App, nat)
    requires Fits(whole, calls)
  {
    if calls == [] then (a, 0)
    else
      var n := |calls| - 1;
      Run(RunAll(a, mode, whole, calls[..n]).0, mode, whole, calls[n])
  }

  /** The wnum that call k meets. */
  function Met(a: App, mode: Mode, whole: seq<byte>, calls: seq<Call>, k: nat): nat
    requires k < |calls| && Fits(whole, calls)
  {
    RunAll(a, mode, whole, calls[..k]).0.wnum
  }

  /** Rounds that have led from `from` to `tot`, all of them successful: whatever answers follow. */
  ghost predicate Rounds(a: App, mode: Mode, ptr: int, data: seq<byte>, from: nat, answers: seq<Answer>, b: App, tot: nat)
    requires from <= |data| && tot <= |data|
  {
    forall more: seq<Answer> :: WriteFrom(a, mode, ptr, data, from, answers + more) == WriteFrom(b, mode, ptr, data, tot, more)
  }

  lemma RoundsNone(a: App, mode: Mode, ptr: int, data: seq<byte>, from: nat)
    requires from <= |data|
    ensures Rounds(a, mode, ptr, data, from, [], a, from)
  {
    hide WriteFrom;
    forall more: seq<Answer> ensures WriteFrom(a, mode, ptr, data, from, [] + more) == WriteFrom(a, mode, ptr, data, from, more) {
      assert [] + more == more;
    }
  }

  /** One round more: it ends the call, or it leads on. */
  lemma RoundsThen(a: App, mode: Mode, ptr: int, data: seq<byte>, from: nat, answers: seq<Answer>, b: App, tot: nat, answer: Answer)
    requires from <= |data| && tot <= |data| && Rounds(a, mode, ptr, data, from, answers, b, tot)
    ensures var nw := Min(|data| - tot, mode.limit);
      var (b', ret) := Write(b, mode, ApplicationData, data[tot..tot + nw], ptr + tot, answer);
      if ret == 0 then WriteFrom(a, mode, ptr, data, from, answers + [answer]) == (b'.(wnum := tot), 0)
      else if ret == |data| - tot then WriteFrom(a, mode, ptr, data, from, answers + [answer]) == (b', |data|)
      else Rounds(a, mode, ptr, data, from, answers + [answer], b', tot + ret)
  {
    hide Write;
    var nw := Min(|data| - tot, mode.limit);
    var (b', ret) := Write(b, mode, ApplicationData, data[tot..tot + nw], ptr + tot, answer);
    assert WriteFrom(a, mode, ptr, data, from, answers + [answer]) == WriteFrom(b, mode, ptr, data, tot, [answer]);
    if 0 < ret < |data| - tot {
      forall more: seq<Answer>
        ensures WriteFrom(a, mode, ptr, data, from, answers + [answer] + more) == WriteFrom(b', mode, ptr, data, tot + ret, more)
      {
        assert answers + [answer] + more == answers + ([answer] + more);
        assert ([answer] + more)[1..] == more;
      }
    }
  }

  lemma {:induction false} FromResult(a: App, mode: Mode, ptr: int, data: seq<byte>, tot: nat, answers: seq<Answer>)
    requires tot <= |data|
    ensures var (a', ret) := WriteFrom(a, mode, ptr, data, tot, answers);
      if ret > 0 then ret == |data| && a'.wnum == a.wnum && a'.pend.None? else a'.wnum <= |data|
    decreases |answers|
  {
    if answers != [] {
      var nw := Min(|data| - tot, mode.limit);
      var (a', ret) := Write(a, mode, ApplicationData, data[tot..tot + nw], ptr + tot, answers[0]);
      WriteResult(a, mode, data[tot..tot + nw], ptr + tot, answers[0]);
      hide Write;
      if 0 < ret < |data| - tot { FromResult(a', mode, ptr, data, tot + ret, answers[1..]); }
    }
  }

  lemma WriteResult(a: App, mode: Mode, plain: seq<byte>, ptr: int, answer: Answer)
    ensures var (a', ret) := Write(a, mode, ApplicationData, plain, ptr, answer); a'.wnum == a.wnum && (ret > 0 ==> a'.pend.None?)
  {
  }

  /** Nothing is pending, or a record that the first piece to be written fits. */
  predicate MayGoOn(a: App, mode: Mode, ptr: int, n: nat)
  {
    a.pend.Some? ==>
      && 0 < a.pend.value.tot <= n && (mode.moving || a.pend.value.buf == ptr) && a.pend.value.kind.ApplicationData?
  }

  /** A call writes all its data if every record goes out: the record left over from a failed call, too. */
  lemma {:induction false} AllGoesOut(a: App, mode: Mode, ptr: int, data: seq<byte>, tot: nat, answers: seq<Answer>)
    requires mode.limit > 0 && tot < |data| <= tot + |answers| && (forall x :: x in answers ==> x.Out?)
    requires MayGoOn(a, mode, ptr + tot, Min(|data| - tot, mode.limit))
    ensures WriteFrom(a, mode, ptr, data, tot, answers).1 == |data|
    decreases |answers|
  {
    var nw := Min(|data| - tot, mode.limit);
    var (a', ret) := Write(a, mode, ApplicationData, data[tot..tot + nw], ptr + tot, answers[0]);
    assert answers[0] in answers;
    if ret < |data| - tot { AllGoesOut(a', mode, ptr, data, tot + ret, answers[1..]); }
  }

  /** The records that a call adds are of full size, except that the last may end the data. */
  lemma {:induction false} FullRecords(a: App, mode: Mode, ptr: int, data: seq<byte>, tot: nat, answers: seq<Answer>)
    requires tot <= |data| && a.pend.None?
    ensures var a' := WriteFrom(a, mode, ptr, data, tot, answers).0;
      && a.plains <= a'.plains
      && (forall i :: |a.plains| <= i < |a'.plains| - 1 ==> |a'.plains[i]| == mode.limit)
      && (|a'.plains| > |a.plains| ==>
            var last := a'.plains[|a'.plains| - 1];
            |last| <= |data| && (|last| == mode.limit || last == data[|data| - |last|..]))
    decreases |answers|
  {
    if answers != [] {
      var nw := Min(|data| - tot, mode.limit);
      var (a', ret) := Write(a, mode, ApplicationData, data[tot..tot + nw], ptr + tot, answers[0]);
      if 0 < ret < |data| - tot { FullRecords(a', mode, ptr, data, tot + ret, answers[1..]); }
    }
  }

  lemma RunIs(a: App, mode: Mode, whole: seq<byte>, c: Call)
    requires c.len <= |whole|
    ensures Run(a, mode, whole, c) == if c.len < 0 || c.len < a.wnum then (a.(wnum := 0), 0)
      else WriteFrom(a.(wnum := 0), mode, c.ptr, whole[..c.len], a.wnum, c.answers)
  {
  }

  // ---------------------------------------------------------------- conservation

  function Pending(a: App): nat
  {
    if a.pend.Some? && a.pend.value.kind.ApplicationData? then a.pend.value.tot else 0
  }

  /** What has been sealed since the log held `start` plaintexts. */
  function Since(a: App, start: nat): seq<byte>
    requires start <= |a.plains|
  {
    Flatten(a.plains[start..])
  }

  /** All bytes sealed are accounted for: those forgotten, those told to the caller, those pending. Unless some
      were forgotten they are the caller's data, in order. */
  ghost predicate Ledger(a: App, mode: Mode, whole: seq<byte>, start: nat, forgotten: nat, told: nat)
  {
    && mode.limit > 0 && start <= |a.plains| && told + Pending(a) <= |whole|
    && |Since(a, start)| == forgotten + told + Pending(a)
    && (forgotten == 0 ==> Since(a, start) == whole[..told + Pending(a)])
    && (forall i :: start <= i < |a.plains| ==> 0 < |a.plains[i]| <= mode.limit)
    && (a.pend.Some? ==> 0 < a.pend.value.tot)
  }

  lemma SealMore(a: App, mode: Mode, whole: seq<byte>, start: nat, forgotten: nat, told: nat, plain: seq<byte>)
    requires Ledger(a, mode, whole, start, forgotten, told) && a.pend.None?
    requires 0 < |plain| <= mode.limit && told + |plain| <= |whole| && plain == whole[told..told + |plain|]
    ensures Ledger(a.(plains := a.plains + [plain]), mode, whole, start, forgotten, told + |plain|)
  {
    assert (a.plains + [plain])[start..] == a.plains[start..] + [plain];
    FlattenAppend(a.plains[start..], plain);
    assert whole[..told] + plain == whole[..told + |plain|];
  }

  /** One record: what is told to the caller grows by what is returned. */
  lemma WriteLedger(a: App, mode: Mode, whole: seq<byte>, start: nat, forgotten: nat, told: nat, plain: seq<byte>, ptr: int, answer: Answer)
    requires Ledger(a, mode, whole, start, forgotten, told) && |plain| <= mode.limit
    requires told + |plain| <= |whole| && plain == whole[told..told + |plain|]
    ensures var (a', ret) := Write(a, mode, ApplicationData, plain, ptr, answer);
      Ledger(a', mode, whole, start, forgotten, told + ret) && (ret > 0 ==> a'.pend.None?) && a'.wnum == a.wnum
  {
    if a.pend.None? && plain != [] {
      SealMore(a, mode, whole, start, forgotten, told, plain);
    }
    hide Flatten;
  }

  lemma {:induction false} FromLedger(a: App, mode: Mode, ptr: int, whole: seq<byte>, len: nat, tot: nat, answers: seq<Answer>, start: nat, forgotten: nat)
    requires Ledger(a, mode, whole, start, forgotten, tot) && tot <= len <= |whole| && a.wnum == 0
    ensures var (a', ret) := WriteFrom(a, mode, ptr, whole[..len], tot, answers);
      && Ledger(a', mode, whole, start, forgotten, if ret > 0 then ret else a'.wnum)
      && (ret == 0 ==> a'.wnum <= len) && (ret > 0 ==> ret == len && a'.wnum == 0 && a'.pend.None?)
    decreases |answers|
  {
    hide Ledger;
    if answers != [] {
      var nw := Min(len - tot, mode.limit);
      assert whole[..len][tot..tot + nw] == whole[tot..tot + nw];
      WriteLedger(a, mode, whole, start, forgotten, tot, whole[tot..tot + nw], ptr + tot, answers[0]);
      var (a', ret) := Write(a, mode, ApplicationData, whole[tot..tot + nw], ptr + tot, answers[0]);
      hide Write, Since;
      if ret == 0 { SetWnum(a', mode, whole, start, forgotten, tot, tot); }
      else if ret < len - tot { FromLedger(a', mode, ptr, whole, len, tot + ret, answers[1..], start, forgotten); }
    } else {
      SetWnum(a, mode, whole, start, forgotten, tot, tot);
    }
  }

  lemma SetWnum(a: App, mode: Mode, whole: seq<byte>, start: nat, forgotten: nat, told: nat, wnum: nat)
    requires Ledger(a, mode, whole, start, forgotten, told)
    ensures Ledger(a.(wnum := wnum), mode, whole, start, forgotten, told)
  {
    hide Flatten;
  }

  /** A call with a bad length forgets wnum bytes; any other call keeps the account and what has been told. */
  lemma RunLedger(a: App, mode: Mode, whole: seq<byte>, c: Call, start: nat, forgotten: nat)
    requires Ledger(a, mode, whole, start, forgotten, a.wnum) && c.len <= |whole|
    ensures var (a', ret) := Run(a, mode, whole, c);
      && Ledger(a', mode, whole, start, if c.len < a.wnum then forgotten + a.wnum else forgotten, if ret > 0 then ret else a'.wnum)
      && (ret > 0 ==> ret == c.len && a'.wnum == 0 && a'.pend.None?)
      && (if c.len < a.wnum then ret == 0 && a'.wnum == 0 else a'.wnum <= c.len)
  {
    if c.len < 0 || c.len < a.wnum {
      hide Flatten;
    } else {
      SetWnum(a, mode, whole, start, forgotten, a.wnum, 0);
      FromLedger(a.(wnum := 0), mode, c.ptr, whole, c.len, a.wnum, c.answers, start, forgotten);
      assert Run(a, mode, whole, c) == WriteFrom(a.(wnum := 0), mode, c.ptr, whole[..c.len], a.wnum, c.answers);
      hide Ledger, WriteFrom;
    }
  }

  /** With bytes forgotten, no data accounts for what has been sealed. */
  lemma NothingAccounts(a: App, mode: Mode, whole: seq<byte>, start: nat, forgotten: nat)
    requires Ledger(a, mode, whole, start, forgotten, 0) && forgotten > 0
    ensures forall other: seq<byte> :: !Ledger(a, mode, other, start, 0, 0)
  {
    hide Since;
  }

  predicate Forgets(c: Call, wnum: nat) { wnum > 0 && c.len < wnum }

  /** Some call had a length below the number of bytes that the caller had been told of. */
  ghost predicate BadLength(a: App, mode: Mode, whole: seq<byte>, calls: seq<Call>)
    requires Fits(whole, calls)
  {
    exists k :: 0 <= k < |calls| && Forgets(calls[k], Met(a, mode, whole, calls, k))
  }

  /** No call but perhaps the last has succeeded. */
  ghost predicate Retrying(a: App, mode: Mode, whole: seq<byte>, calls: seq<Call>)
    requires Fits(whole, calls)
  {
    forall k :: 0 < k < |calls| ==> RunAll(a, mode, whole, calls[..k]).1 == 0
  }

  /** A write begins: nothing is left over from the application data before. */
  predicate Begins(a: App, mode: Mode)
  {
    && mode.limit > 0 && a.wnum == 0
    && (a.pend.Some? ==> !a.pend.value.kind.ApplicationData? && 0 < a.pend.value.tot)
  }

  lemma ShorterRetrying(a: App, mode: Mode, whole: seq<byte>, calls: seq<Call>)
    requires Fits(whole, calls) && Retrying(a, mode, whole, calls) && calls != []
    ensures var before := calls[..|calls| - 1];
      Fits(whole, before) && Retrying(a, mode, whole, before) && RunAll(a, mode, whole, before).1 == 0
  {
    var before := calls[..|calls| - 1];
    forall k | 0 < k < |before| ensures RunAll(a, mode, whole, before[..k]).1 == 0 {
      assert before[..k] == calls[..k];
    }
    hide Run;
  }

  lemma BadLengthSnoc(a: App, mode: Mode, whole: seq<byte>, calls: seq<Call>)
    requires Fits(whole, calls) && calls != []
    ensures var n := |calls| - 1;
      BadLength(a, mode, whole, calls) <==> BadLength(a, mode, whole, calls[..n]) || Forgets(calls[n], RunAll(a, mode, whole, calls[..n]).0.wnum)
  {
    hide RunAll;
    var n := |calls| - 1;
    forall k | 0 <= k < n ensures Met(a, mode, whole, calls, k) == Met(a, mode, whole, calls[..n], k) {
      assert calls[..n][..k] == calls[..k];
    }
    if BadLength(a, mode, whole, calls[..n]) {
      var k :| 0 <= k < n && Forgets(calls[..n][k], Met(a, mode, whole, calls[..n], k));
      assert Forgets(calls[k], Met(a, mode, whole, calls, k));
    }
    if Forgets(calls[n], RunAll(a, mode, whole, calls[..n]).0.wnum) { assert Forgets(calls[n], Met(a, mode, whole, calls, n)); }
  }

  lemma {:induction false} RunAllLedger(a: App, mode: Mode, whole: seq<byte>, calls: seq<Call>) returns (forgotten: nat)
    requires Begins(a, mode) && Fits(whole, calls) && Retrying(a, mode, whole, calls)
    ensures var (a', ret) := RunAll(a, mode, whole, calls);
      && Ledger(a', mode, whole, |a.plains|, forgotten, if ret > 0 then ret else a'.wnum)
      && (calls != [] && ret > 0 ==> ret == calls[|calls| - 1].len && a'.wnum == 0 && a'.pend.None?)
    ensures forgotten > 0 <==> BadLength(a, mode, whole, calls)
    decreases |calls|
  {
    if calls == [] {
      forgotten := 0;
      assert a.plains[|a.plains|..] == [];
    } else {
      var n := |calls| - 1;
      var before := calls[..n];
      ShorterRetrying(a, mode, whole, calls);
      forgotten := RunAllLedger(a, mode, whole, before);
      var mid := RunAll(a, mode, whole, before).0;
      RunLedger(mid, mode, whole, calls[n], |a.plains|, forgotten);
      BadLengthSnoc(a, mode, whole, calls);
      if calls[n].len < mid.wnum { forgotten := forgotten + mid.wnum; }
    }
  }

  lemma NoCalls(a: App, mode: Mode, whole: seq<byte>)
    ensures Fits(whole, []) && Retrying(a, mode, whole, []) && RunAll(a, mode, whole, []) == (a, 0)
  {
  }

  /** One call more, after calls that have failed. */
  lemma OneMoreCall(a: App, mode: Mode, whole: seq<byte>, calls: seq<Call>, c: Call)
    requires Fits(whole, calls) && Retrying(a, mode, whole, calls) && RunAll(a, mode, whole, calls).1 == 0 && c.len <= |whole|
    ensures Fits(whole, calls + [c]) && Retrying(a, mode, whole, calls + [c])
    ensures RunAll(a, mode, whole, calls + [c]) == Run(RunAll(a, mode, whole, calls).0, mode, whole, c)
  {
    OneCall(a, mode, whole, calls, c);
    forall k | 0 < k < |calls + [c]| ensures RunAll(a, mode, whole, (calls + [c])[..k]).1 == 0 {
      assert (calls + [c])[..k] == calls[..k];
      if k == |calls| { assert calls[..k] == calls; }
    }
  }

  /** However often a write is retried, whatever its lengths and addresses and whatever becomes of its records: when
      a call succeeds, the records sealed for it carry exactly its bytes, once each and in order, if and only if no
      call had a length below the number of bytes that had been told to the caller. */
  lemma ExactlyOnce(a: App, mode: Mode, whole: seq<byte>, calls: seq<Call>)
    requires Begins(a, mode) && Fits(whole, calls) && Retrying(a, mode, whole, calls)
    requires calls != [] && RunAll(a, mode, whole, calls).1 > 0
    ensures var (a', ret) := RunAll(a, mode, whole, calls);
      && ret == calls[|calls| - 1].len && |a.plains| <= |a'.plains|
      && (Since(a', |a.plains|) == whole[..ret] <==> !BadLength(a, mode, whole, calls))
      && forall i :: |a.plains| <= i < |a'.plains| ==> 0 < |a'.plains[i]| <= mode.limit
  {
    var forgotten := RunAllLedger(a, mode, whole, calls);
    hide RunAll, BadLength, Flatten;
  }

  /** Lengths that never shrink forget nothing. */
  lemma {:induction false} NeverShrinks(a: App, mode: Mode, whole: seq<byte>, calls: seq<Call>)
    requires Begins(a, mode) && Fits(whole, calls) && Retrying(a, mode, whole, calls)
    requires forall i, j :: 0 <= i < j < |calls| ==> calls[i].len <= calls[j].len
    ensures !BadLength(a, mode, whole, calls)
    decreases |calls|
  {
    if calls != [] {
      var n := |calls| - 1;
      var before := calls[..n];
      ShorterRetrying(a, mode, whole, calls);
      NeverShrinks(a, mode, whole, before);
      BadLengthSnoc(a, mode, whole, calls);
      if n > 0 { ToldAtMost(a, mode, whole, before); }
    }
  }

  /** What a caller has been told of is never more than it asked for last. */
  lemma ToldAtMost(a: App, mode: Mode, whole: seq<byte>, calls: seq<Call>)
    requires Begins(a, mode) && Fits(whole, calls) && Retrying(a, mode, whole, calls) && calls != []
    requires RunAll(a, mode, whole, calls).1 == 0
    ensures var wnum := RunAll(a, mode, whole, calls).0.wnum; wnum == 0 || wnum <= calls[|calls| - 1].len
  {
    var n := |calls| - 1;
    ShorterRetrying(a, mode, whole, calls);
    var forgotten := RunAllLedger(a, mode, whole, calls[..n]);
    RunLedger(RunAll(a, mode, whole, calls[..n]).0, mode, whole, calls[n], |a.plains|, forgotten);
    hide Ledger, Run;
  }

  /** Of two bytes one goes out; a call with length 0 forgets it; then a retry sends both, and so the first one twice. */
  lemma SentTwice(mode: Mode, whole: seq<byte>, ptr: int)
    requires mode.limit == 1 && |whole| == 2
    ensures var start, calls := App(0, None, []), [Call(ptr, 2, [Out, NotSealed]), Call(ptr, 0, []), Call(ptr, 2, [Out, Out])];
      && Begins(start, mode) && Fits(whole, calls) && Retrying(start, mode, whole, calls)
      && RunAll(start, mode, whole, calls) == (App(0, None, [[whole[0]], [whole[0]], [whole[1]]]), 2)
  {
    var start, x, y := App(0, None, []), [whole[0]], [whole[1]];
    var c1, c2, c3 := Call(ptr, 2, [Out, NotSealed]), Call(ptr, 0, []), Call(ptr, 2, [Out, Out]);
    assert whole[..2] == whole;
    FirstCall(start, mode, ptr, whole);
    LastCall(App(0, None, [x]), mode, ptr, whole);
    hide WriteFrom;
    assert Run(start, mode, whole, c1) == (App(1, None, [x]), 0) by { assert [] + [x] == [x]; }
    assert Run(App(1, None, [x]), mode, whole, c2) == (App(0, None, [x]), 0);
    assert Run(App(0, None, [x]), mode, whole, c3) == (App(0, None, [x, x, y]), 2) by { assert [x] + [x] + [y] == [x, x, y]; }
    hide Run;
    assert [c1, c2, c3][..2] == [c1, c2] && [c1, c2, c3][..1] == [c1];
    OneCall(start, mode, whole, [], c1);
    OneCall(start, mode, whole, [c1], c2);
    OneCall(start, mode, whole, [c1, c2], c3);
    assert [] + [c1] == [c1] && [c1] + [c2] == [c1, c2] && [c1, c2] + [c3] == [c1, c2, c3];
  }

  /** With moving buffers a record that was pending when its bytes were forgotten is later taken for the first bytes:
      here the second byte goes out twice and the third call is told that all is well. */
  lemma Misplaced(mode: Mode, whole: seq<byte>, ptr: int)
    requires mode.limit == 1 && mode.moving && |whole| == 2
    ensures var start, calls := App(0, None, []), [Call(ptr, 2, [Out, Held]), Call(ptr, 0, []), Call(ptr, 2, [Out, Out])];
      && Begins(start, mode) && Fits(whole, calls) && Retrying(start, mode, whole, calls)
      && RunAll(start, mode, whole, calls) == (App(0, None, [[whole[0]], [whole[1]], [whole[1]]]), 2)
  {
    var start, x, y := App(0, None, []), [whole[0]], [whole[1]];
    var held := Some(Pend(1, ptr + 1, ApplicationData));
    var c1, c2, c3 := Call(ptr, 2, [Out, Held]), Call(ptr, 0, []), Call(ptr, 2, [Out, Out]);
    assert whole[..2] == whole;
    HeldCall(start, mode, ptr, whole);
    CreditedCall(App(0, held, [x, y]), mode, ptr, whole);
    hide WriteFrom;
    assert Run(start, mode, whole, c1) == (App(1, held, [x, y]), 0) by { assert [] + [x] + [y] == [x, y]; }
    assert Run(App(1, held, [x, y]), mode, whole, c2) == (App(0, held, [x, y]), 0);
    assert Run(App(0, held, [x, y]), mode, whole, c3) == (App(0, None, [x, y, y]), 2) by { assert [x, y] + [y] == [x, y, y]; }
    hide Run;
    assert [c1, c2, c3][..2] == [c1, c2] && [c1, c2, c3][..1] == [c1];
    OneCall(start, mode, whole, [], c1);
    OneCall(start, mode, whole, [c1], c2);
    OneCall(start, mode, whole, [c1, c2], c3);
    assert [] + [c1] == [c1] && [c1] + [c2] == [c1, c2] && [c1, c2] + [c3] == [c1, c2, c3];
  }

  lemma HeldCall(a: App, mode: Mode, ptr: int, whole: seq<byte>)
    requires mode.limit == 1 && |whole| == 2 && a.pend == None
    ensures WriteFrom(a, mode, ptr, whole, 0, [Out, Held])
      == (a.(wnum := 1, plains := a.plains + [[whole[0]]] + [[whole[1]]], pend := Some(Pend(1, ptr + 1, ApplicationData))), 0)
  {
    assert [Out, Held][1..] == [Held];
    assert whole[0..1] == [whole[0]] && whole[1..2] == [whole[1]];
  }

  lemma CreditedCall(a: App, mode: Mode, ptr: int, whole: seq<byte>)
    requires mode.limit == 1 && mode.moving && |whole| == 2 && a.pend.Some? && a.pend.value.tot == 1 && a.pend.value.kind == ApplicationData
    ensures WriteFrom(a, mode, ptr, whole, 0, [Out, Out]) == (a.(plains := a.plains + [[whole[1]]], pend := None), 2)
  {
    assert [Out, Out][1..] == [Out];
    assert whole[1..2] == [whole[1]];
  }

  lemma OneCall(a: App, mode: Mode, whole: seq<byte>, calls: seq<Call>, c: Call)
    requires Fits(whole, calls + [c])
    ensures Fits(whole, calls) && RunAll(a, mode, whole, calls + [c]) == Run(RunAll(a, mode, whole, calls).0, mode, whole, c)
  {
    hide Run;
    assert (calls + [c])[..|calls|] == calls;
    assert forall d :: d in calls ==> d in calls + [c];
  }

  lemma FirstCall(a: App, mode: Mode, ptr: int, whole: seq<byte>)
    requires mode.limit == 1 && |whole| == 2 && a.pend == None
    ensures WriteFrom(a, mode, ptr, whole, 0, [Out, NotSealed]) == (a.(wnum := 1, plains := a.plains + [[whole[0]]]), 0)
  {
    assert [Out, NotSealed][1..] == [NotSealed];
    assert whole[0..1] == [whole[0]];
  }

  lemma LastCall(a: App, mode: Mode, ptr: int, whole: seq<byte>)
    requires mode.limit == 1 && |whole| == 2 && a.pend == None
    ensures WriteFrom(a, mode, ptr, whole, 0, [Out, Out]) == (a.(plains := a.plains + [[whole[0]]] + [[whole[1]]]), 2)
  {
    assert [Out, Out][1..] == [Out];
    assert whole[0..1] == [whole[0]] && whole[1..2] == [whole[1]];
  }
}
