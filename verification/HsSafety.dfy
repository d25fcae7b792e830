/** What one endpoint of the handshake guarantees against an arbitrary peer, whatever callbacks, parsers and the
    network do. */
module HsSafety {
  import opened Common
  import opened HsModel

  /** What can happen to an endpoint: its state machine runs, a record arrives, a flight goes out, or the caller
      comes back after an asynchronous wait. Anything that does not fit the current wait changes nothing. */
  datatype Event = Runs(env: Env) | Arrives(body: Body) | FlushDone | Reenter

  function Move(hs: Hs, cfg: Config, e: Event): Hs
  {
    match e
    case Runs(env) => if hs.wait.Continue? && hs.state != DONE then Do(hs, cfg, env) else hs
    case Arrives(body) => if hs.wait.ReadsMessage() || hs.wait.WaitCcs? then Resolve(hs, body) else hs
    case FlushDone => if hs.wait.Flush? then Flushed(hs) else hs
    case Reenter => if hs.wait.Async? then Reentered(hs) else hs
  }

  function Moves(hs: Hs, cfg: Config, es: seq<Event>): Hs
    decreases |es|
  {
    if es == [] then hs else Moves(Move(hs, cfg, es[0]), cfg, es[1..])
  }

  // ---------------------------------------------------------------- what a trace records

  function CcsCount(trace: seq<Item>, sender: Role): nat
  {
    if trace == [] then 0
    else
      var last := trace[|trace| - 1];
      CcsCount(trace[..|trace| - 1], sender) + if last.sender == sender && last.body.Ccs? then 1 else 0
  }

  predicate IsFinished(body: Body) { body.Message? && body.m.Finished? }

  function FinishedCount(trace: seq<Item>, sender: Role): nat
  {
    if trace == [] then 0
    else
      var last := trace[|trace| - 1];
      FinishedCount(trace[..|trace| - 1], sender) + if last.sender == sender && IsFinished(last.body) then 1 else 0
  }

  /** The item at i is in its place: a ChangeCipherSpec is sent in the clear; what is secured follows its
      sender's ChangeCipherSpec; a Finished is secured and computed by its sender over all messages before it. */
  ghost predicate InPlace(trace: seq<Item>, i: nat)
    requires i < |trace|
  {
    var item := trace[i];
    && (item.body.Ccs? ==> !item.secured)
    && (item.secured ==> Item(item.sender, false, Ccs) in trace[..i])
    && (IsFinished(item.body) ==> item.secured && item.body.m == Finished(item.sender, Messages(trace[..i])))
  }

  /** The part of an endpoint's state that records what it has done. */
  datatype Core = Core(role: Role, readSecured: bool, writeSecured: bool, transcript: seq<Msg>, trace: seq<Item>)

  function CoreOf(hs: Hs): Core { Core(hs.role, hs.readSecured, hs.writeSecured, hs.transcript, hs.trace) }

  /** Hashing follows the trace exactly, everything is in its place, and a cipher is switched only after the
      ChangeCipherSpec of its sender. */
  ghost predicate Sound(c: Core)
  {
    && c.transcript == Messages(c.trace)
    && (forall i :: 0 <= i < |c.trace| ==> InPlace(c.trace, i))
    && (c.readSecured ==> Item(c.role.Peer(), false, Ccs) in c.trace)
    && (c.writeSecured ==> Item(c.role, false, Ccs) in c.trace)
  }

  lemma Append(trace: seq<Item>, item: Item)
    ensures Messages(trace + [item]) == if item.body.Message? then Messages(trace) + [item.body.m] else Messages(trace)
    ensures forall s :: CcsCount(trace + [item], s) == CcsCount(trace, s) + if item.sender == s && item.body.Ccs? then 1 else 0
    ensures forall s :: FinishedCount(trace + [item], s) == FinishedCount(trace, s) + if item.sender == s && IsFinished(item.body) then 1 else 0
    ensures forall i :: 0 <= i < |trace| && InPlace(trace, i) ==> InPlace(trace + [item], i)
  {
    assert (trace + [item])[..|trace|] == trace;
    forall i | 0 <= i < |trace| && InPlace(trace, i) ensures InPlace(trace + [item], i) {
      assert (trace + [item])[..i] == trace[..i];
    }
  }

  datatype Tally = Tally(ownCcs: nat, ownFinished: nat, peerCcs: nat, peerFinished: nat)

  function TallyOf(c: Core): Tally
  {
    Tally(CcsCount(c.trace, c.role), FinishedCount(c.trace, c.role),
          CcsCount(c.trace, c.role.Peer()), FinishedCount(c.trace, c.role.Peer()))
  }

  /** The core after one more item. */
  function Extended(c: Core, item: Item): Core
  {
    c.(trace := c.trace + [item], transcript := if item.body.Message? then c.transcript + [item.body.m] else c.transcript,
       writeSecured := c.writeSecured || item == Item(c.role, false, Ccs))
  }

  /** One more item in its place keeps the endpoint sound. */
  lemma AppendSound(c: Core, item: Item)
    requires Sound(c)
    requires item.body.Ccs? ==> !item.secured
    requires item.secured ==> Item(item.sender, false, Ccs) in c.trace
    requires IsFinished(item.body) ==> item.secured && item.body.m == Finished(item.sender, c.transcript)
    ensures Sound(Extended(c, item))
    ensures var t := TallyOf(c); var own := item.sender == c.role;
      TallyOf(Extended(c, item)) ==
        if item.body.Ccs? then if own then t.(ownCcs := t.ownCcs + 1) else t.(peerCcs := t.peerCcs + 1)
        else if IsFinished(item.body) then if own then t.(ownFinished := t.ownFinished + 1) else t.(peerFinished := t.peerFinished + 1)
        else t
  {
    hide Messages;
    Append(c.trace, item);
    var trace' := c.trace + [item];
    assert trace'[..|c.trace|] == c.trace;
    assert InPlace(trace', |c.trace|);
  }

  // ---------------------------------------------------------------- how far each state has come

  /** Own ChangeCipherSpec and Finished have been queued. */
  predicate Wrote(role: Role, s: State, resumed: bool)
  {
    if role.Client? then if resumed then s == FINISH_FLIGHT || s >= FINISH_CLIENT_HANDSHAKE else s >= FINISH_FLIGHT
    else if resumed then s >= READ_CHANGE_CIPHER_SPEC && s != SEND_SERVER_FINISHED else s >= FINISH_SERVER_HANDSHAKE
  }

  /** The peer's Finished has been taken. */
  predicate GotFinished(role: Role, s: State, resumed: bool)
  {
    if role.Client? then s >= FINISH_CLIENT_HANDSHAKE || (resumed && SEND_CLIENT_FINISHED <= s <= FINISH_FLIGHT)
    else s >= FINISH_SERVER_HANDSHAKE || (!resumed && s == SEND_SERVER_FINISHED)
  }

  /** The peer's ChangeCipherSpec has switched the read cipher. */
  predicate Switched(role: Role, s: State, resumed: bool)
  {
    GotFinished(role, s, resumed) || (if role.Client? then s == READ_SERVER_FINISHED else READ_NEXT_PROTO <= s <= READ_CLIENT_FINISHED)
  }

  function ProcessCcs(role: Role): State { if role.Client? then CLIENT_PROCESS_CCS else SERVER_PROCESS_CCS }

  /** The peer's ChangeCipherSpec has arrived. */
  predicate GotCcs(role: Role, s: State, wait: Wait, resumed: bool)
  {
    Switched(role, s, resumed) || (s == ProcessCcs(role) && !wait.WaitCcs?)
  }

  function One(b: bool): nat { if b then 1 else 0 }

  /** How far an endpoint has come, in the respects that are counted. */
  function Phase(role: Role, s: State, wait: Wait, resumed: bool): Tally
  {
    var wrote := One(Wrote(role, s, resumed));
    Tally(wrote, wrote, One(GotCcs(role, s, wait, resumed)), One(GotFinished(role, s, resumed)))
  }

  ghost predicate Counted(hs: Hs)
  {
    && TallyOf(CoreOf(hs)) == Phase(hs.role, hs.state, hs.wait, hs.facts.resumed)
    && hs.writeSecured == Wrote(hs.role, hs.state, hs.facts.resumed) && hs.readSecured == Switched(hs.role, hs.state, hs.facts.resumed)
  }

  /** All states but those of HelloVerifyRequest and TLS 1.3. */
  predicate Entered(role: Role, s: State)
  {
    s <= DONE && if role.Client? then s != 2 && s != 4 else s != 3
  }

  /** States of the full handshake that a resumption skips. */
  predicate FullOnly(role: Role, s: State)
  {
    if role.Client? then READ_SERVER_CERTIFICATE <= s <= SEND_CLIENT_CERTIFICATE_VERIFY
    else SEND_SERVER_CERTIFICATE <= s <= READ_CLIENT_CERTIFICATE_VERIFY
  }

  /** A ChangeCipherSpec is waited for only where it switches the cipher; the ClientHello stays current while the
      server looks at it. */
  predicate Fits(hs: Hs)
  {
    && Entered(hs.role, hs.state)
    && (hs.wait.WaitCcs? ==> hs.state == ProcessCcs(hs.role))
    && (FullOnly(hs.role, hs.state) ==> !hs.facts.resumed)
    && (hs.role.Server? && (hs.state == SELECT_CERTIFICATE || hs.state == SELECT_PARAMETERS) ==> hs.inbox == Some(ClientHello))
  }

  ghost predicate Inv(hs: Hs) { Sound(CoreOf(hs)) && (hs.wait != Failed ==> Fits(hs) && Counted(hs)) }

  // ---------------------------------------------------------------- what the primitives do to it

  lemma AddMessageKeeps(hs: Hs, m: Msg)
    requires Sound(CoreOf(hs)) && !m.Finished?
    ensures Sound(CoreOf(AddMessage(hs, m))) && TallyOf(CoreOf(AddMessage(hs, m))) == TallyOf(CoreOf(hs))
  {
    AppendSound(CoreOf(hs), Item(hs.role, hs.writeSecured, Message(m)));
  }

  lemma HashAndTakeKeeps(hs: Hs)
    requires Sound(CoreOf(hs)) && hs.inbox.Some? && !hs.inbox.value.Finished?
    ensures Sound(CoreOf(HashAndTake(hs))) && TallyOf(CoreOf(HashAndTake(hs))) == TallyOf(CoreOf(hs))
  {
    AppendSound(CoreOf(hs), Item(hs.role.Peer(), hs.readSecured, Message(hs.inbox.value)));
  }

  lemma ChangeWriteKeeps(hs: Hs)
    requires Sound(CoreOf(hs)) && !hs.writeSecured
    ensures Sound(CoreOf(ChangeWriteCipher(hs)))
    ensures var t := TallyOf(CoreOf(hs)); TallyOf(CoreOf(ChangeWriteCipher(hs))) == t.(ownCcs := t.ownCcs + 1)
  {
    AppendSound(CoreOf(hs), Item(hs.role, false, Ccs));
  }

  lemma SendFinishedKeeps(hs: Hs)
    requires Sound(CoreOf(hs)) && hs.writeSecured
    ensures Sound(CoreOf(SendFinished(hs)))
    ensures var t := TallyOf(CoreOf(hs)); TallyOf(CoreOf(SendFinished(hs))) == t.(ownFinished := t.ownFinished + 1)
  {
    AppendSound(CoreOf(hs), Item(hs.role, true, Message(Finished(hs.role, hs.transcript))));
  }

  lemma TakeFinishedKeeps(hs: Hs)
    requires Sound(CoreOf(hs)) && hs.readSecured && hs.inbox == Some(Finished(hs.role.Peer(), hs.transcript))
    ensures Sound(CoreOf(HashAndTake(hs)))
    ensures var t := TallyOf(CoreOf(hs)); TallyOf(CoreOf(HashAndTake(hs))) == t.(peerFinished := t.peerFinished + 1)
  {
    AppendSound(CoreOf(hs), Item(hs.role.Peer(), true, Message(hs.inbox.value)));
  }

  lemma ReadCcsKeeps(hs: Hs)
    requires Sound(CoreOf(hs)) && !hs.readSecured && hs.wait.WaitCcs?
    ensures Sound(CoreOf(Resolve(hs, Ccs)))
    ensures var t := TallyOf(CoreOf(hs)); TallyOf(CoreOf(Resolve(hs, Ccs))) == t.(peerCcs := t.peerCcs + 1)
  {
    AppendSound(CoreOf(hs), Item(hs.role.Peer(), false, Ccs));
  }

  lemma {:induction false} CountedCcs(trace: seq<Item>, sender: Role)
    requires CcsCount(trace, sender) > 0 && forall i :: 0 <= i < |trace| ==> InPlace(trace, i)
    ensures Item(sender, false, Ccs) in trace
  {
    hide Messages;
    var n := |trace| - 1;
    if trace[n].sender == sender && trace[n].body.Ccs? {
      assert InPlace(trace, n);
    } else {
      forall i | 0 <= i < n ensures InPlace(trace[..n], i) {
        assert InPlace(trace, i) && trace[..n][..i] == trace[..i];
      }
      CountedCcs(trace[..n], sender);
    }
  }

  // ---------------------------------------------------------------- every step keeps it

  /** States whose step neither changes a cipher nor handles a Finished. In both numberings the others are 14,
      17, 18 and the last. */
  predicate Ordinary(s: State) { s != 14 && s != 17 && s != 18 && s < DONE }

  /** What has been recorded is sound and has the same tally as before. */
  ghost predicate Kept(c: Core, hs: Hs)
  {
    Sound(c) && TallyOf(c) == TallyOf(CoreOf(hs)) && c.role == hs.role && c.readSecured == hs.readSecured && c.writeSecured == hs.writeSecured
  }

  lemma EffectKeeps(hs: Hs, hs': Hs)
    requires Sound(CoreOf(hs)) && Effect(hs, hs')
    ensures Kept(CoreOf(hs'), hs)
  {
    hide Sound, TallyOf;
    if hs.inbox.Some? && !hs.inbox.value.Finished? { HashAndTakeKeeps(hs); }
    if hs'.transcript != [] {
      var m := hs'.transcript[|hs'.transcript| - 1];
      if Queues(hs, hs', m) { AddMessageKeeps(hs, m); }
    }
  }

  /** An ordinary step may take or add messages, but no Finished, and no ChangeCipherSpec. */
  lemma OrdinaryClient(hs: Hs, cfg: Config, env: Env)
    requires Sound(CoreOf(hs)) && Ordinary(hs.state)
    ensures Kept(CoreOf(DoClient(hs, cfg, env).0), hs)
  {
    assert Effect(hs, DoClient(hs, cfg, env).0) by {
      hide DoReadServerHello, DoReadServerCertificate, DoReadCertificateStatus, DoVerifyServerCertificate,
        DoReadServerKeyExchange, DoReadCertificateRequest, DoReadServerHelloDone, DoSendClientCertificate,
        DoSendClientKeyExchange, DoSendClientCertificateVerify, DoFinishFlight, DoReadSessionTicket;
    }
    EffectKeeps(hs, DoClient(hs, cfg, env).0);
  }

  lemma OrdinaryServer(hs: Hs, cfg: Config, env: Env)
    requires Sound(CoreOf(hs)) && Ordinary(hs.state)
    requires hs.state == SELECT_PARAMETERS ==> hs.inbox == Some(ClientHello)
    ensures Kept(CoreOf(DoServer(hs, cfg, env).0), hs)
  {
    hide Sound, Effect, TallyOf, DoReadClientHello, DoSelectCertificate, DoSelectParameters, DoSendServerHello,
      DoSendServerKeyExchange, DoReadClientCertificate, DoVerifyClientCertificate, DoReadClientKeyExchange,
      DoReadClientCertificateVerify, DoReadNextProto, DoReadChannelId, DoSendServerCertificate, DoSendServerHelloDone;
    if hs.state == SEND_SERVER_CERTIFICATE {
      SendCertificateKeeps(hs, cfg, env);
    } else if hs.state == SEND_SERVER_HELLO_DONE {
      HelloDoneKeeps(hs, env);
    } else {
      ServerEffect(hs, cfg, env);
      EffectKeeps(hs, DoServer(hs, cfg, env).0);
    }
  }

  lemma ServerEffect(hs: Hs, cfg: Config, env: Env)
    requires Ordinary(hs.state) && hs.state != SEND_SERVER_CERTIFICATE && hs.state != SEND_SERVER_HELLO_DONE
    requires hs.state == SELECT_PARAMETERS ==> hs.inbox == Some(ClientHello)
    ensures Effect(hs, DoServer(hs, cfg, env).0)
  {
    hide DoReadClientHello, DoSelectCertificate, DoSelectParameters, DoSendServerHello, DoSendServerKeyExchange,
      DoReadClientCertificate, DoVerifyClientCertificate, DoReadClientKeyExchange, DoReadClientCertificateVerify,
      DoReadNextProto, DoReadChannelId, DoSendServerCertificate, DoSendServerHelloDone;
  }

  lemma SendCertificateKeeps(hs: Hs, cfg: Config, env: Env)
    requires Sound(CoreOf(hs))
    ensures Kept(CoreOf(DoSendServerCertificate(hs, cfg, env).0), hs)
  {
    hide Sound, TallyOf;
    AddMessageKeeps(hs, Certificate(false));
    AddMessageKeeps(AddMessage(hs, Certificate(false)), CertificateStatus);
  }

  lemma HelloDoneKeeps(hs: Hs, env: Env)
    requires Sound(CoreOf(hs))
    ensures Kept(CoreOf(DoSendServerHelloDone(hs, env).0), hs)
  {
    hide Sound, TallyOf;
    AddMessageKeeps(hs, CertificateRequest);
    AddMessageKeeps(hs, ServerHelloDone);
    AddMessageKeeps(AddMessage(hs, CertificateRequest), ServerHelloDone);
  }

  // ---------------------------------------------------------------- where the states lead

  /** Where an ordinary state leads when its step succeeds; for the two that settle resumption, afterwards. */
  function NextState(role: Role, s: State, resumed: bool): State
  {
    if role.Client? then
      if s == ENTER_EARLY_DATA then READ_SERVER_HELLO
      else if s == READ_SERVER_HELLO then if resumed then READ_SESSION_TICKET else READ_SERVER_CERTIFICATE
      else if s == FINISH_FLIGHT && resumed then FINISH_CLIENT_HANDSHAKE
      else s + 1
    else
      if s == SELECT_CERTIFICATE then SELECT_PARAMETERS
      else if s == SEND_SERVER_HELLO && resumed then SEND_SERVER_FINISHED
      else s + 1
  }

  predicate Settles(role: Role, s: State) { s == if role.Client? then READ_SERVER_HELLO else SELECT_PARAMETERS }

  predicate BeforeCcs(role: Role, s: State) { s == if role.Client? then READ_SESSION_TICKET else READ_CHANGE_CIPHER_SPEC }

  /** A step stays where it is, or goes to the next state; the wait for a ChangeCipherSpec comes with the state
      that it belongs to. */
  predicate Advances(hs: Hs, hs': Hs, wait: Wait)
  {
    || ((wait.Failed? || wait.ReadsMessage() || wait.Async?) && hs' == hs)
    || (hs'.state == NextState(hs.role, hs.state, hs'.facts.resumed) && (wait.Continue? || wait.Flush? || wait.WaitCcs?)
        && (!Settles(hs.role, hs.state) ==> hs'.facts.resumed == hs.facts.resumed)
        && (wait.WaitCcs? <==> BeforeCcs(hs.role, hs.state)))
  }

  lemma ClientAdvances(hs: Hs, cfg: Config, env: Env)
    requires hs.role.Client? && Ordinary(hs.state) && Entered(hs.role, hs.state)
    ensures Advances(hs, DoClient(hs, cfg, env).0, DoClient(hs, cfg, env).1)
  {
    hide DoReadServerHello, DoReadServerCertificate, DoReadCertificateStatus, DoVerifyServerCertificate,
      DoReadServerKeyExchange, DoReadCertificateRequest, DoReadServerHelloDone, DoSendClientCertificate,
      DoSendClientKeyExchange, DoSendClientCertificateVerify, DoFinishFlight, DoReadSessionTicket, Effect;
  }

  lemma ServerAdvances(hs: Hs, cfg: Config, env: Env)
    requires hs.role.Server? && Ordinary(hs.state) && Entered(hs.role, hs.state)
    ensures Advances(hs, DoServer(hs, cfg, env).0, DoServer(hs, cfg, env).1)
  {
    hide DoReadClientHello, DoSelectCertificate, DoSelectParameters, DoSendServerHello, DoSendServerKeyExchange,
      DoReadClientCertificate, DoVerifyClientCertificate, DoReadClientKeyExchange, DoReadClientCertificateVerify,
      DoReadNextProto, DoReadChannelId, DoSendServerCertificate, DoSendServerHelloDone, Effect;
  }

  /** An ordinary transition does not change what has been written, switched or received. */
  lemma SamePhase(role: Role, s: State, resumed: bool, before: bool, wait: Wait)
    requires Ordinary(s) && Entered(role, s) && (FullOnly(role, s) ==> !resumed) && (!Settles(role, s) ==> before == resumed)
    requires wait.WaitCcs? <==> BeforeCcs(role, s)
    ensures var s' := NextState(role, s, resumed);
      && Phase(role, s', wait, resumed) == Phase(role, s, Continue, before)
      && Switched(role, s', resumed) == Switched(role, s, before) && Wrote(role, s', resumed) == Wrote(role, s, before)
      && (FullOnly(role, s') ==> !resumed) && Entered(role, s')
      && (wait.WaitCcs? ==> s' == ProcessCcs(role))
  {
  }

  // ---------------------------------------------------------------- every move keeps the invariant

  lemma OrdinaryKeeps(hs: Hs, cfg: Config, env: Env)
    requires Inv(hs) && hs.wait.Continue? && Ordinary(hs.state)
    ensures Inv(Do(hs, cfg, env)) && Do(hs, cfg, env).role == hs.role
  {
    hide Sound, TallyOf, Kept, Phase, Wrote, Switched, DoClient, DoServer;
    if hs.role.Client? {
      OrdinaryClient(hs, cfg, env);
      ClientAdvances(hs, cfg, env);
      StepKeeps(hs, DoClient(hs, cfg, env).0, DoClient(hs, cfg, env).1);
    } else {
      OrdinaryServer(hs, cfg, env);
      ServerAdvances(hs, cfg, env);
      HelloStays(hs, cfg, env);
      StepKeeps(hs, DoServer(hs, cfg, env).0, DoServer(hs, cfg, env).1);
    }
  }

  lemma StepKeeps(hs: Hs, hs': Hs, wait: Wait)
    requires Inv(hs) && hs.wait.Continue? && Ordinary(hs.state) && Kept(CoreOf(hs'), hs) && Advances(hs, hs', wait)
    requires hs'.role.Server? && (hs'.state == SELECT_CERTIFICATE || hs'.state == SELECT_PARAMETERS) ==> hs'.inbox == Some(ClientHello)
    ensures Inv(hs'.(wait := wait)) && hs'.role == hs.role
  {
    hide Sound, TallyOf, Phase, Wrote, Switched;
    assert CoreOf(hs'.(wait := wait)) == CoreOf(hs');
    if hs' != hs {
      SamePhase(hs.role, hs.state, hs'.facts.resumed, hs.facts.resumed, wait);
    } else if wait != Failed {
      IdlePhase(hs.role, hs.state, wait, hs.facts.resumed);
    }
  }

  lemma IdlePhase(role: Role, s: State, wait: Wait, resumed: bool)
    requires !wait.WaitCcs?
    ensures Phase(role, s, wait, resumed) == Phase(role, s, Continue, resumed)
  {
  }

  /** The ClientHello stays current until it is taken. */
  lemma HelloStays(hs: Hs, cfg: Config, env: Env)
    requires hs.role.Server? && Fits(hs) && Ordinary(hs.state)
    ensures var hs' := DoServer(hs, cfg, env).0;
      hs'.state == SELECT_CERTIFICATE || hs'.state == SELECT_PARAMETERS ==> hs'.inbox == Some(ClientHello)
  {
    ServerAdvances(hs, cfg, env);
    hide DoSendServerHello, DoSendServerKeyExchange, DoReadClientCertificate, DoVerifyClientCertificate,
      DoReadClientKeyExchange, DoReadClientCertificateVerify, DoReadNextProto, DoReadChannelId, DoSendServerCertificate,
      DoSendServerHelloDone, DoSelectParameters, Effect;
  }

  /** After a step of GetFinished the peer's Finished has been taken, or nothing has happened. */
  lemma GetFinishedKeeps(hs: Hs, env: Env, next: State)
    requires Sound(CoreOf(hs)) && hs.readSecured
    ensures var (hs', wait) := GetFinished(hs, env, next);
      ((wait.Failed? || wait.WaitMessage?) && hs' == hs)
      || (wait.Continue? && hs'.state == next && Sound(CoreOf(hs')) && hs'.role == hs.role && hs'.facts == hs.facts
          && hs'.readSecured == hs.readSecured && hs'.writeSecured == hs.writeSecured
          && var t := TallyOf(CoreOf(hs)); TallyOf(CoreOf(hs')) == t.(peerFinished := t.peerFinished + 1))
  {
    hide Sound, TallyOf;
    if hs.inbox == Some(Finished(hs.role.Peer(), hs.transcript)) { TakeFinishedKeeps(hs); SameCore(HashAndTake(hs), next); }
  }

  lemma SameCore(hs: Hs, next: State)
    ensures CoreOf(Goto(hs, next).0) == CoreOf(hs)
  {
  }

  lemma FinishedStepKeeps(hs: Hs, cfg: Config, env: Env)
    requires Inv(hs) && hs.wait.Continue? && hs.state == if hs.role.Client? then READ_SERVER_FINISHED else READ_CLIENT_FINISHED
    ensures Inv(Do(hs, cfg, env)) && Do(hs, cfg, env).role == hs.role
  {
    hide Sound, TallyOf, GetFinished;
    GetFinishedKeeps(hs, env, if hs.role.Client? then if hs.facts.resumed then SEND_CLIENT_FINISHED else FINISH_CLIENT_HANDSHAKE
                              else if hs.facts.resumed then FINISH_SERVER_HANDSHAKE else SEND_SERVER_FINISHED);
  }

  lemma DoSwitch(hs: Hs, cfg: Config, env: Env)
    requires hs.state == ProcessCcs(hs.role)
    ensures var (hs', wait) := ChangeReadCipher(hs, env, if hs.role.Client? then READ_SERVER_FINISHED else READ_NEXT_PROTO);
      Do(hs, cfg, env) == hs'.(wait := wait)
  {
  }

  /** A cipher may be switched once the peer's ChangeCipherSpec is in. */
  lemma SwitchSound(c: Core)
    requires Sound(c) && TallyOf(c).peerCcs == 1
    ensures Sound(c.(readSecured := true)) && TallyOf(c.(readSecured := true)) == TallyOf(c)
  {
    CountedCcs(c.trace, c.role.Peer());
    hide CcsCount, FinishedCount, Messages, InPlace;
  }

  lemma SwitchStepKeeps(hs: Hs, cfg: Config, env: Env)
    requires Inv(hs) && hs.wait.Continue? && hs.state == ProcessCcs(hs.role)
    ensures Inv(Do(hs, cfg, env)) && Do(hs, cfg, env).role == hs.role
  {
    DoSwitch(hs, cfg, env);
    hide Sound, TallyOf, Do;
    SwitchSound(CoreOf(hs));
    var next := if hs.role.Client? then READ_SERVER_FINISHED else READ_NEXT_PROTO;
    assert CoreOf(hs.(readSecured := true, state := next, wait := Continue)) == CoreOf(hs).(readSecured := true);
  }

  /** The core of do_send_client_finished: ChangeCipherSpec, optional messages under the new keys, Finished. */
  lemma FinishedFlight(hs: Hs, npn: bool, channelId: bool) returns (end: Hs)
    requires Sound(CoreOf(hs)) && !hs.writeSecured
    ensures var hs1 := ChangeWriteCipher(hs);
      var hs2 := if npn then AddMessage(hs1, NextProto) else hs1;
      var hs3 := if channelId then AddMessage(hs2, ChannelId) else hs2;
      end == SendFinished(hs3)
    ensures Sound(CoreOf(end)) && end.role == hs.role && end.writeSecured && end.readSecured == hs.readSecured
    ensures var t := TallyOf(CoreOf(hs)); TallyOf(CoreOf(end)) == t.(ownCcs := t.ownCcs + 1, ownFinished := t.ownFinished + 1)
  {
    hide Sound, TallyOf;
    var hs1 := ChangeWriteCipher(hs);
    ChangeWriteKeeps(hs);
    var hs2 := if npn then AddMessage(hs1, NextProto) else hs1;
    AddMessageKeeps(hs1, NextProto);
    var hs3 := if channelId then AddMessage(hs2, ChannelId) else hs2;
    AddMessageKeeps(hs2, ChannelId);
    SendFinishedKeeps(hs3);
    end := SendFinished(hs3);
  }

  lemma ClientFinishedKeeps(hs: Hs, cfg: Config, env: Env)
    requires Inv(hs) && hs.role.Client? && hs.wait.Continue? && hs.state == SEND_CLIENT_FINISHED
    ensures Inv(Do(hs, cfg, env)) && Do(hs, cfg, env).role == hs.role
  {
    hide Sound, TallyOf;
    var end := FinishedFlight(hs, hs.facts.npn, hs.facts.channelId);
    DoClientFinished(hs, cfg, env);
    hide Do, SendFinished, AddMessage, ChangeWriteCipher;
    assert CoreOf(end.(state := FINISH_FLIGHT, wait := Flush)) == CoreOf(end);
  }

  lemma DoClientFinished(hs: Hs, cfg: Config, env: Env)
    requires hs.role.Client? && hs.state == SEND_CLIENT_FINISHED
    ensures var hs1 := ChangeWriteCipher(hs);
      var hs2 := if hs.facts.npn then AddMessage(hs1, NextProto) else hs1;
      var hs3 := if hs.facts.channelId then AddMessage(hs2, ChannelId) else hs2;
      var r := Do(hs, cfg, env);
      r == hs.(wait := Failed) || r == hs.(wait := Async)
      || (r == SendFinished(hs3).(state := FINISH_FLIGHT, wait := Flush) && SendFinished(hs3).facts == hs.facts)
  {
  }

  lemma DoServerFinished(hs: Hs, cfg: Config, env: Env)
    requires hs.role.Server? && hs.state == SEND_SERVER_FINISHED
    ensures var hs1 := if hs.facts.ticket then AddMessage(hs, NewSessionTicket(cfg.emptyTicket)) else hs;
      var end := SendFinished(ChangeWriteCipher(hs1));
      var r := Do(hs, cfg, env);
      r == hs.(wait := Failed)
      || (r == end.(state := if hs.facts.resumed then READ_CHANGE_CIPHER_SPEC else FINISH_SERVER_HANDSHAKE, wait := Flush) && end.facts == hs.facts)
  {
  }

  /** The core of do_send_server_finished: a ticket if one is due, ChangeCipherSpec, Finished. */
  lemma ServerFlight(hs: Hs, cfg: Config) returns (end: Hs)
    requires Sound(CoreOf(hs)) && !hs.writeSecured
    ensures var hs1 := if hs.facts.ticket then AddMessage(hs, NewSessionTicket(cfg.emptyTicket)) else hs;
      end == SendFinished(ChangeWriteCipher(hs1))
    ensures Sound(CoreOf(end)) && end.role == hs.role && end.writeSecured && end.readSecured == hs.readSecured
    ensures var t := TallyOf(CoreOf(hs)); TallyOf(CoreOf(end)) == t.(ownCcs := t.ownCcs + 1, ownFinished := t.ownFinished + 1)
  {
    hide Sound, TallyOf;
    AddMessageKeeps(hs, NewSessionTicket(cfg.emptyTicket));
    var hs1 := if hs.facts.ticket then AddMessage(hs, NewSessionTicket(cfg.emptyTicket)) else hs;
    end := FinishedFlight(hs1, false, false);
  }

  lemma ServerFinishedKeeps(hs: Hs, cfg: Config, env: Env)
    requires Inv(hs) && hs.role.Server? && hs.wait.Continue? && hs.state == SEND_SERVER_FINISHED
    ensures Inv(Do(hs, cfg, env)) && Do(hs, cfg, env).role == hs.role
  {
    hide Sound, TallyOf;
    var end := ServerFlight(hs, cfg);
    DoServerFinished(hs, cfg, env);
    hide Do, SendFinished, AddMessage, ChangeWriteCipher;
    var next := if hs.facts.resumed then READ_CHANGE_CIPHER_SPEC else FINISH_SERVER_HANDSHAKE;
    assert CoreOf(end.(state := next, wait := Flush)) == CoreOf(end);
  }

  lemma ResolveKeeps(hs: Hs, body: Body)
    requires Inv(hs) && (hs.wait.ReadsMessage() || hs.wait.WaitCcs?)
    ensures Inv(Resolve(hs, body)) && Resolve(hs, body).role == hs.role
  {
    hide Sound, TallyOf;
    if hs.wait.WaitCcs? && body.Ccs? { ReadCcsKeeps(hs); }
  }

  lemma MoveKeeps(hs: Hs, cfg: Config, e: Event)
    requires Inv(hs)
    ensures Inv(Move(hs, cfg, e)) && Move(hs, cfg, e).role == hs.role && (hs.wait.Failed? ==> Move(hs, cfg, e) == hs)
  {
    hide Do, Resolve, Sound, TallyOf;
    match e
    case Runs(env) =>
      if hs.wait.Continue? && hs.state != DONE {
        if Ordinary(hs.state) { OrdinaryKeeps(hs, cfg, env); }
        else if hs.state == ProcessCcs(hs.role) { SwitchStepKeeps(hs, cfg, env); }
        else if hs.role.Client? && hs.state == SEND_CLIENT_FINISHED { ClientFinishedKeeps(hs, cfg, env); }
        else if hs.role.Server? && hs.state == SEND_SERVER_FINISHED { ServerFinishedKeeps(hs, cfg, env); }
        else { FinishedStepKeeps(hs, cfg, env); }
      }
    case Arrives(body) => if hs.wait.ReadsMessage() || hs.wait.WaitCcs? { ResolveKeeps(hs, body); }
    case FlushDone =>
    case Reenter =>
  }

  lemma {:induction false} MovesKeep(hs: Hs, cfg: Config, es: seq<Event>)
    requires Inv(hs)
    ensures Inv(Moves(hs, cfg, es)) && Moves(hs, cfg, es).role == hs.role
    decreases |es|
  {
    hide Inv, Move;
    if es != [] {
      MoveKeeps(hs, cfg, es[0]);
      MovesKeep(Move(hs, cfg, es[0]), cfg, es[1..]);
    }
  }

  // ---------------------------------------------------------------- the guarantees

  /** The record of a finished handshake: each side one ChangeCipherSpec and one Finished, everything in place. */
  ghost predicate Complete(trace: seq<Item>)
  {
    && (forall side: Role :: CcsCount(trace, side) == 1 && FinishedCount(trace, side) == 1)
    && forall i :: 0 <= i < |trace| ==> InPlace(trace, i)
  }

  /** Against any peer, and whatever fails or has to be retried: when a handshake completes, our ChangeCipherSpec
      was queued exactly once in the clear and our Finished exactly once under the new keys after it; the peer's
      Finished was taken exactly once, after its ChangeCipherSpec had switched the read cipher, and it was the one
      for the messages exchanged before it; and what was hashed is every message exchanged, once, in order. */
  lemma CompletesSafely(role: Role, cfg: Config, es: seq<Event>)
    ensures var hs := Moves(Start(role), cfg, es);
      hs.state == DONE && hs.wait != Failed ==> Complete(hs.trace) && hs.transcript == Messages(hs.trace) && hs.readSecured && hs.writeSecured
  {
    assert Inv(Start(role));
    MovesKeep(Start(role), cfg, es);
    hide Moves, Complete, Messages, Inv;
    var hs := Moves(Start(role), cfg, es);
    if hs.state == DONE && hs.wait != Failed { CompleteAtDone(hs); }
  }

  lemma CompleteAtDone(hs: Hs)
    requires Inv(hs) && hs.state == DONE && hs.wait != Failed
    ensures Complete(hs.trace) && hs.transcript == Messages(hs.trace) && hs.readSecured && hs.writeSecured
  {
    hide Messages, CcsCount, FinishedCount, InPlace;
    assert TallyOf(CoreOf(hs)) == Tally(1, 1, 1, 1);
    forall side: Role ensures CcsCount(hs.trace, side) == 1 && FinishedCount(hs.trace, side) == 1 {
      assert side == hs.role || side == hs.role.Peer();
    }
  }

  /** How many states may still be visited. Full handshakes visit them in order of their numbers. */
  function Rank(role: Role, s: State, resumed: bool): nat
    requires s <= DONE
  {
    if role.Client? && resumed && READ_SESSION_TICKET <= s <= READ_SERVER_FINISHED then 22 - s
    else if role.Client? && resumed && SEND_CLIENT_FINISHED <= s <= FINISH_FLIGHT then 17 - s
    else if role.Server? && resumed && s == SEND_SERVER_FINISHED then 8
    else 20 - s
  }

  /** Nothing has been done, or the state has been left for good. */
  predicate Acts(hs: Hs, r: Hs)
  {
    if r.wait.Failed? || r.wait.ReadsMessage() || r.wait.Async? then r == hs.(wait := r.wait)
    else r.state <= DONE && hs.state <= DONE && Rank(hs.role, r.state, r.facts.resumed) < Rank(hs.role, hs.state, hs.facts.resumed)
  }

  /** A step that waits or fails has done nothing, so coming back to it hashes and queues nothing twice; any other
      step leaves its state for good. */
  lemma ActsOnce(hs: Hs, cfg: Config, env: Env)
    requires Fits(hs) && hs.wait.Continue? && hs.state != DONE
    ensures Acts(hs, Do(hs, cfg, env))
  {
    if Ordinary(hs.state) {
      if hs.role.Client? { ClientAdvances(hs, cfg, env); } else { ServerAdvances(hs, cfg, env); }
      hide DoClient, DoServer, NextState, Rank;
      var (hs', wait) := if hs.role.Client? then DoClient(hs, cfg, env) else DoServer(hs, cfg, env);
      if hs' != hs { RankFalls(hs.role, hs.state, hs'.facts.resumed, hs.facts.resumed); }
    } else {
      SpecialActs(hs, cfg, env);
    }
  }

  lemma RankFalls(role: Role, s: State, resumed: bool, before: bool)
    requires Ordinary(s) && Entered(role, s) && (FullOnly(role, s) ==> !resumed) && (!Settles(role, s) ==> before == resumed)
    ensures var s' := NextState(role, s, resumed); s' <= DONE && Rank(role, s', resumed) < Rank(role, s, before)
  {
  }

  lemma SpecialActs(hs: Hs, cfg: Config, env: Env)
    requires Fits(hs) && hs.wait.Continue? && !Ordinary(hs.state) && hs.state != DONE
    ensures Acts(hs, Do(hs, cfg, env))
  {
    hide Acts, Do;
    if hs.state == ProcessCcs(hs.role) { SwitchActs(hs, cfg, env); }
    else if hs.role.Client? && hs.state == SEND_CLIENT_FINISHED { ClientFinishedActs(hs, cfg, env); }
    else if hs.role.Server? && hs.state == SEND_SERVER_FINISHED { ServerFinishedActs(hs, cfg, env); }
    else { GetFinishedActs(hs, cfg, env); }
  }

  lemma SwitchActs(hs: Hs, cfg: Config, env: Env)
    requires hs.state == ProcessCcs(hs.role)
    ensures Acts(hs, Do(hs, cfg, env))
  {
    DoSwitch(hs, cfg, env);
    hide Do;
  }

  lemma ClientFinishedActs(hs: Hs, cfg: Config, env: Env)
    requires hs.role.Client? && hs.state == SEND_CLIENT_FINISHED
    ensures Acts(hs, Do(hs, cfg, env))
  {
    DoClientFinished(hs, cfg, env);
    hide Do, SendFinished, AddMessage, ChangeWriteCipher;
  }

  lemma ServerFinishedActs(hs: Hs, cfg: Config, env: Env)
    requires hs.role.Server? && hs.state == SEND_SERVER_FINISHED
    ensures Acts(hs, Do(hs, cfg, env))
  {
    DoServerFinished(hs, cfg, env);
    hide Do, SendFinished, AddMessage, ChangeWriteCipher;
  }

  lemma GetFinishedActs(hs: Hs, cfg: Config, env: Env)
    requires hs.state == if hs.role.Client? then READ_SERVER_FINISHED else READ_CLIENT_FINISHED
    ensures Acts(hs, Do(hs, cfg, env))
  {
    DoGetFinished(hs, cfg, env);
    hide Do, GetFinished;
  }

  lemma DoGetFinished(hs: Hs, cfg: Config, env: Env)
    requires hs.state == if hs.role.Client? then READ_SERVER_FINISHED else READ_CLIENT_FINISHED
    ensures var next := if hs.role.Client? then if hs.facts.resumed then SEND_CLIENT_FINISHED else FINISH_CLIENT_HANDSHAKE
                        else if hs.facts.resumed then FINISH_SERVER_HANDSHAKE else SEND_SERVER_FINISHED;
      var (hs', wait) := GetFinished(hs, env, next);
      Do(hs, cfg, env) == hs'.(wait := wait)
  {
  }
}
