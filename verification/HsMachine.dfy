/** SSL_HANDSHAKE as an object whose fields the states of the handshake update, with the loops that run it. Each
    state is proved to do what its function in HsModel says, and each loop to make a run of such steps. */
module HsMachine {
  import opened Common
  import opened HsModel
  import opened HsSafety

  // ---------------------------------------------------------------- what a step may do to the messages

  /** A step that waits, is to be repeated or fails leaves everything as it was. */
  predicate Repeatable(hs: Hs, hs': Hs, r: Wait)
  {
    r.ReadsMessage() || r.Async? || r.Failed? ==> hs' == hs
  }

  /** The current message is m, and it is hashed and taken; nothing is queued. */
  predicate TakesCurrent(hs: Hs, hs': Hs, m: Msg)
  {
    && hs.inbox == Some(m) && hs'.inbox.None? && hs'.pending == hs.pending && hs'.transcript == hs.transcript + [m]
    && hs'.trace == hs.trace + [Item(hs.role.Peer(), hs.readSecured, Message(m))]
  }

  function ItemsOf(sender: Role, secured: bool, ms: seq<Msg>): (r: seq<Item>)
    ensures |r| == |ms|
  {
    seq(|ms|, i requires 0 <= i < |ms| => Item(sender, secured, Message(ms[i])))
  }

  /** Messages are queued and hashed in order, all under the same keys; nothing is taken. */
  predicate QueuesAll(hs: Hs, hs': Hs, ms: seq<Msg>)
  {
    && hs'.role == hs.role && hs'.writeSecured == hs.writeSecured && hs'.inbox == hs.inbox
    && hs'.pending == hs.pending + Bodies(ItemsOf(hs.role, hs.writeSecured, ms)) && hs'.transcript == hs.transcript + ms
    && hs'.trace == hs.trace + ItemsOf(hs.role, hs.writeSecured, ms)
  }

  /** A last flight: messages under the old keys, the ChangeCipherSpec, messages under the new keys, and a Finished over
      everything before it. */
  predicate Switches(hs: Hs, hs': Hs, before: seq<Msg>, after: seq<Msg>)
  {
    var heard := hs.transcript + before + after;
    && hs'.inbox == hs.inbox && hs'.writeSecured && hs'.transcript == heard + [Finished(hs.role, heard)]
    && hs'.pending == hs.pending + Bodies(ItemsOf(hs.role, hs.writeSecured, before)) + [Ccs]
                      + Bodies(ItemsOf(hs.role, true, after)) + [Message(Finished(hs.role, heard))]
  }

  lemma MaybeQueues(hs: Hs, b: bool, m: Msg)
    ensures QueuesAll(hs, if b then HsModel.AddMessage(hs, m) else hs, Opt(b, m))
  {
    assert Bodies(ItemsOf(hs.role, hs.writeSecured, [m])) == [Message(m)];
  }

  lemma QueuesNone(hs: Hs)
    ensures QueuesAll(hs, hs, [])
  {
    MaybeQueues(hs, false, ServerHelloDone);
  }

  lemma QueuesMore(a: Hs, b: Hs, c: Hs, ms: seq<Msg>, more: seq<Msg>)
    requires QueuesAll(a, b, ms) && QueuesAll(b, c, more)
    ensures QueuesAll(a, c, ms + more)
  {
    assert ItemsOf(a.role, a.writeSecured, ms + more) == ItemsOf(a.role, a.writeSecured, ms) + ItemsOf(a.role, a.writeSecured, more);
    assert Bodies(ItemsOf(a.role, a.writeSecured, ms + more))
      == Bodies(ItemsOf(a.role, a.writeSecured, ms)) + Bodies(ItemsOf(a.role, a.writeSecured, more));
  }

  /** Queueing, switching, queueing again and a Finished make a last flight. */
  lemma LastFlight(hs: Hs, hs1: Hs, hs2: Hs, before: seq<Msg>, after: seq<Msg>)
    requires QueuesAll(hs, hs1, before) && QueuesAll(HsModel.ChangeWriteCipher(hs1), hs2, after)
    ensures Switches(hs, HsModel.SendFinished(hs2), before, after)
  {
    hide Bodies, ItemsOf;
  }

  class Handshake {
    const role: Role
    const cfg: Config
    var state: State
    var wait: Wait
    var facts: Facts
    var certRequest: bool
    var peerCert: bool
    var params: bool
    var readSecured: bool
    var writeSecured: bool
    var inbox: Option<Msg>
    var pending: seq<Body>
    var transcript: seq<Msg>
    ghost var trace: seq<Item>

    constructor (role: Role, cfg: Config)
      ensures View() == Start(role) && this.cfg == cfg
    {
      this.role, this.cfg := role, cfg;
      state, wait, facts := 0, Continue, NO_FACTS;
      certRequest, peerCert, params, readSecured, writeSecured := false, false, false, false, false;
      inbox, pending, transcript, trace := None, [], [], [];
    }

    ghost function View(): Hs
      reads this
    {
      Hs(role, state, wait, facts, certRequest, peerCert, params, readSecured, writeSecured, inbox, pending, transcript, trace)
    }

    // -------------------------------------------------------------- primitives

    method AddMessage(m: Msg)
      modifies this`pending, this`transcript, this`trace
      ensures View() == HsModel.AddMessage(old(View()), m)
      ensures QueuesAll(old(View()), View(), [m])
    {
      pending := pending + [Message(m)];
      transcript := transcript + [m];
      trace := trace + [Item(role, writeSecured, Message(m))];
    }

    method ChangeWriteCipher()
      modifies this`pending, this`trace, this`writeSecured
      ensures View() == HsModel.ChangeWriteCipher(old(View()))
    {
      pending := pending + [Ccs];
      trace := trace + [Item(role, writeSecured, Ccs)];
      writeSecured := true;
    }

    method HashAndTake()
      requires inbox.Some?
      modifies this`inbox, this`transcript, this`trace
      ensures View() == HsModel.HashAndTake(old(View()))
    {
      transcript := transcript + [inbox.value];
      trace := trace + [Item(role.Peer(), readSecured, Message(inbox.value))];
      inbox := None;
    }

    method SendFinished()
      modifies this`pending, this`transcript, this`trace
      ensures View() == HsModel.SendFinished(old(View()))
      ensures QueuesAll(old(View()), View(), [Finished(role, old(transcript))])
    {
      AddMessage(Finished(role, transcript));
    }

    /** The comparison is with what the peer should have sent for the messages so far. */
    method GetFinished(env: Env, next: State) returns (r: Wait)
      modifies this`state, this`inbox, this`transcript, this`trace
      ensures (View(), r) == HsModel.GetFinished(old(View()), env, next) && wait == old(wait)
      ensures Repeatable(old(View()), View(), r) && (r.Continue? || r.WaitMessage? || r.Failed?)
      ensures r.WaitMessage? <==> old(inbox).None?
      ensures r.Continue? <==> old(inbox) == Some(Finished(role.Peer(), old(transcript))) && !env.fail
      ensures r.Continue? ==> TakesCurrent(old(View()), View(), Finished(role.Peer(), old(transcript))) && state == next
    {
      if inbox.None? { return WaitMessage; }
      if !inbox.value.Finished? || env.fail { return Failed; }
      var expected := Finished(role.Peer(), transcript);
      if inbox.value != expected { return Failed; }
      HashAndTake();
      state := next;
      return Continue;
    }

    method ChangeReadCipher(env: Env, next: State) returns (r: Wait)
      modifies this`state, this`readSecured
      ensures (View(), r) == HsModel.ChangeReadCipher(old(View()), env, next) && wait == old(wait)
      ensures Repeatable(old(View()), View(), r) && (r.Continue? || r.Failed?)
      ensures r.Continue? <==> !env.fail && old(inbox).None?
      ensures Untouched(old(View()), View()) && (r.Continue? ==> readSecured && state == next)
    {
      if env.fail || inbox.Some? { return Failed; }
      readSecured := true;
      state := next;
      return Continue;
    }

    // -------------------------------------------------------------- client states

    method ReadServerHello(env: Env) returns (r: Wait)
      modifies this`state, this`inbox, this`transcript, this`trace, this`facts
      ensures (View(), r) == DoReadServerHello(old(View()), env) && wait == old(wait)
      ensures Repeatable(old(View()), View(), r) && (r.Continue? || r.WaitServerHello? || r.Failed?)
      ensures r.WaitServerHello? <==> old(inbox).None?
      ensures r.Continue? <==> old(inbox).Some? && old(inbox).value.ServerHello? && !env.fail
      ensures r.Continue? ==> TakesCurrent(old(View()), View(), ServerHello(facts)) && state == if facts.resumed then READ_SESSION_TICKET else READ_SERVER_CERTIFICATE
    {
      if inbox.None? { return WaitServerHello; }
      if !inbox.value.ServerHello? || env.fail { return Failed; }
      facts := inbox.value.facts;
      HashAndTake();
      state := if facts.resumed then READ_SESSION_TICKET else READ_SERVER_CERTIFICATE;
      return Continue;
    }

    method ReadServerCertificate(env: Env) returns (r: Wait)
      modifies this`state, this`inbox, this`transcript, this`trace
      ensures (View(), r) == DoReadServerCertificate(old(View()), env) && wait == old(wait)
      ensures Repeatable(old(View()), View(), r) && (r.Continue? || r.WaitMessage? || r.Failed?)
      ensures r.WaitMessage? <==> facts.suite.UsesCert() && old(inbox).None?
      ensures r.Continue? <==> !facts.suite.UsesCert() || (old(inbox) == Some(Certificate(false)) && !env.fail)
      ensures r.Continue? ==> state == READ_CERTIFICATE_STATUS
      ensures r.Continue? ==> if facts.suite.UsesCert() then TakesCurrent(old(View()), View(), Certificate(false)) else Untouched(old(View()), View())
    {
      if !facts.suite.UsesCert() {
        state := READ_CERTIFICATE_STATUS;
        return Continue;
      }
      if inbox.None? { return WaitMessage; }
      if !inbox.value.Certificate? || env.fail || inbox.value.empty { return Failed; }
      HashAndTake();
      state := READ_CERTIFICATE_STATUS;
      return Continue;
    }

    method ReadCertificateStatus(env: Env) returns (r: Wait)
      modifies this`state, this`inbox, this`transcript, this`trace
      ensures (View(), r) == DoReadCertificateStatus(old(View()), env) && wait == old(wait)
      ensures Repeatable(old(View()), View(), r) && (r.Continue? || r.WaitMessage? || r.Failed?)
      ensures r.WaitMessage? <==> facts.ocsp && old(inbox).None?
      ensures r.Failed? <==> facts.ocsp && old(inbox) == Some(CertificateStatus) && env.fail
      ensures r.Continue? ==> state == VERIFY_SERVER_CERTIFICATE
      ensures r.Continue? ==>
        if facts.ocsp && old(inbox) == Some(CertificateStatus) then TakesCurrent(old(View()), View(), CertificateStatus) else Untouched(old(View()), View())
    {
      if !facts.ocsp {
        state := VERIFY_SERVER_CERTIFICATE;
        return Continue;
      }
      if inbox.None? { return WaitMessage; }
      if !inbox.value.CertificateStatus? {
        state := VERIFY_SERVER_CERTIFICATE;
        return Continue;
      }
      if env.fail { return Failed; }
      HashAndTake();
      state := VERIFY_SERVER_CERTIFICATE;
      return Continue;
    }

    method VerifyServerCertificate(env: Env) returns (r: Wait)
      modifies this`state
      ensures (View(), r) == DoVerifyServerCertificate(old(View()), env) && wait == old(wait)
      ensures Repeatable(old(View()), View(), r) && Untouched(old(View()), View()) && (r.Continue? || r.Async? || r.Failed?)
      ensures r.Failed? <==> facts.suite.UsesCert() && env.fail
      ensures r.Async? <==> facts.suite.UsesCert() && !env.fail && env.retry
      ensures r.Continue? ==> state == READ_SERVER_KEY_EXCHANGE
    {
      if facts.suite.UsesCert() {
        if env.fail { return Failed; }
        if env.retry { return Async; }
      }
      state := READ_SERVER_KEY_EXCHANGE;
      return Continue;
    }

    method ReadServerKeyExchange(env: Env) returns (r: Wait)
      modifies this`state, this`inbox, this`transcript, this`trace
      ensures (View(), r) == DoReadServerKeyExchange(old(View()), env) && wait == old(wait)
      ensures Repeatable(old(View()), View(), r) && (r.Continue? || r.WaitMessage? || r.Failed?)
      ensures r.WaitMessage? <==> old(inbox).None?
      ensures r.Failed? <==>
        old(inbox).Some? && if old(inbox) == Some(ServerKeyExchange) then env.fail || facts.suite.RsaCert? else facts.suite.RequiresKeyExchange()
      ensures r.Continue? ==> state == READ_CERTIFICATE_REQUEST
      ensures r.Continue? ==> if old(inbox) == Some(ServerKeyExchange) then TakesCurrent(old(View()), View(), ServerKeyExchange) else Untouched(old(View()), View())
    {
      if inbox.None? { return WaitMessage; }
      if !inbox.value.ServerKeyExchange? {
        if facts.suite.RequiresKeyExchange() { return Failed; }
        state := READ_CERTIFICATE_REQUEST;
        return Continue;
      }
      if env.fail || facts.suite.RsaCert? { return Failed; }
      HashAndTake();
      state := READ_CERTIFICATE_REQUEST;
      return Continue;
    }

    method ReadCertificateRequest(env: Env) returns (r: Wait)
      modifies this`state, this`inbox, this`transcript, this`trace, this`certRequest
      ensures (View(), r) == DoReadCertificateRequest(old(View()), env) && wait == old(wait)
      ensures Repeatable(old(View()), View(), r) && (r.Continue? || r.WaitMessage? || r.Failed?)
      ensures r.WaitMessage? <==> facts.suite.UsesCert() && old(inbox).None?
      ensures r.Continue? <==> !facts.suite.UsesCert() || old(inbox) == Some(ServerHelloDone) || (old(inbox) == Some(CertificateRequest) && !env.fail)
      ensures r.Continue? ==> state == READ_SERVER_HELLO_DONE
      ensures r.Continue? ==>
        if facts.suite.UsesCert() && old(inbox) == Some(CertificateRequest) then TakesCurrent(old(View()), View(), CertificateRequest) && certRequest
        else Untouched(old(View()), View()) && certRequest == old(certRequest)
    {
      if !facts.suite.UsesCert() {
        state := READ_SERVER_HELLO_DONE;
        return Continue;
      }
      if inbox.None? { return WaitMessage; }
      if inbox.value.ServerHelloDone? {
        state := READ_SERVER_HELLO_DONE;
        return Continue;
      }
      if !inbox.value.CertificateRequest? || env.fail { return Failed; }
      certRequest := true;
      HashAndTake();
      state := READ_SERVER_HELLO_DONE;
      return Continue;
    }

    method ReadServerHelloDone(env: Env) returns (r: Wait)
      modifies this`state, this`inbox, this`transcript, this`trace
      ensures (View(), r) == DoReadServerHelloDone(old(View()), env) && wait == old(wait)
      ensures Repeatable(old(View()), View(), r) && (r.Continue? || r.WaitMessage? || r.Failed?)
      ensures r.WaitMessage? <==> old(inbox).None?
      ensures r.Continue? <==> old(inbox) == Some(ServerHelloDone) && !env.fail
      ensures r.Continue? ==> TakesCurrent(old(View()), View(), ServerHelloDone) && state == SEND_CLIENT_CERTIFICATE
    {
      if inbox.None? { return WaitMessage; }
      if !inbox.value.ServerHelloDone? || env.fail { return Failed; }
      HashAndTake();
      state := SEND_CLIENT_CERTIFICATE;
      return Continue;
    }

    method SendClientCertificate(env: Env) returns (r: Wait)
      modifies this`state, this`pending, this`transcript, this`trace
      ensures (View(), r) == DoSendClientCertificate(old(View()), cfg, env) && wait == old(wait)
      ensures Repeatable(old(View()), View(), r) && (r.Continue? || r.Async? || r.Failed?)
      ensures r.Failed? <==> certRequest && env.fail
      ensures r.Async? <==> certRequest && !env.fail && env.retry
      ensures r.Continue? ==> state == SEND_CLIENT_KEY_EXCHANGE
      ensures r.Continue? ==> if certRequest then QueuesAll(old(View()), View(), [Certificate(!cfg.hasCert)]) else Untouched(old(View()), View())
    {
      if certRequest {
        if env.fail { return Failed; }
        if env.retry { return Async; }
        AddMessage(Certificate(!cfg.hasCert));
      }
      state := SEND_CLIENT_KEY_EXCHANGE;
      return Continue;
    }

    method SendClientKeyExchange(env: Env) returns (r: Wait)
      modifies this`state, this`pending, this`transcript, this`trace
      ensures (View(), r) == DoSendClientKeyExchange(old(View()), env) && wait == old(wait)
      ensures Repeatable(old(View()), View(), r) && (r.Continue? || r.Failed?) && (r.Failed? <==> env.fail)
      ensures r.Continue? ==> QueuesAll(old(View()), View(), [ClientKeyExchange]) && state == SEND_CLIENT_CERTIFICATE_VERIFY
    {
      if env.fail { return Failed; }
      AddMessage(ClientKeyExchange);
      state := SEND_CLIENT_CERTIFICATE_VERIFY;
      return Continue;
    }

    method SendClientCertificateVerify(env: Env) returns (r: Wait)
      modifies this`state, this`pending, this`transcript, this`trace
      ensures (View(), r) == DoSendClientCertificateVerify(old(View()), cfg, env) && wait == old(wait)
      ensures Repeatable(old(View()), View(), r) && (r.Continue? || r.Async? || r.Failed?)
      ensures r.Failed? <==> certRequest && cfg.hasCert && env.fail
      ensures r.Async? <==> certRequest && cfg.hasCert && !env.fail && env.retry
      ensures r.Continue? ==> state == SEND_CLIENT_FINISHED
      ensures r.Continue? ==> if certRequest && cfg.hasCert then QueuesAll(old(View()), View(), [CertificateVerify]) else Untouched(old(View()), View())
    {
      if certRequest && cfg.hasCert {
        if env.fail { return Failed; }
        if env.retry { return Async; }
        AddMessage(CertificateVerify);
      }
      state := SEND_CLIENT_FINISHED;
      return Continue;
    }

    method SendClientFinished(env: Env) returns (r: Wait)
      modifies this`state, this`pending, this`transcript, this`trace, this`writeSecured
      ensures (View(), r) == DoSendClientFinished(old(View()), env) && wait == old(wait)
      ensures Repeatable(old(View()), View(), r) && (r.Flush? || r.Async? || r.Failed?)
      ensures (r.Failed? <==> env.fail) && (r.Async? <==> !env.fail && facts.channelId && env.retry)
      ensures r.Flush? ==> state == FINISH_FLIGHT && Switches(old(View()), View(), [], Opt(facts.npn, NextProto) + Opt(facts.channelId, ChannelId))
    {
      hide Bodies, ItemsOf;
      if env.fail { return Failed; }
      if facts.channelId && env.retry { return Async; }
      ghost var start := View();
      ChangeWriteCipher();
      ghost var switched := View();
      if facts.npn { AddMessage(NextProto); }
      ghost var mid := View();
      if facts.channelId { AddMessage(ChannelId); }
      ghost var end := View();
      MaybeQueues(switched, facts.npn, NextProto);
      MaybeQueues(mid, facts.channelId, ChannelId);
      QueuesMore(switched, mid, end, Opt(facts.npn, NextProto), Opt(facts.channelId, ChannelId));
      QueuesNone(start);
      LastFlight(start, start, end, [], Opt(facts.npn, NextProto) + Opt(facts.channelId, ChannelId));
      SendFinished();
      state := FINISH_FLIGHT;
      return Flush;
    }

    method FinishFlight(env: Env) returns (r: Wait)
      modifies this`state
      ensures (View(), r) == DoFinishFlight(old(View()), env) && wait == old(wait)
      ensures Repeatable(old(View()), View(), r) && Untouched(old(View()), View()) && (r.Continue? || r.Failed?)
      ensures r.Failed? <==> !facts.resumed && env.fail
      ensures r.Continue? ==> state == if facts.resumed then FINISH_CLIENT_HANDSHAKE else READ_SESSION_TICKET
    {
      if facts.resumed {
        state := FINISH_CLIENT_HANDSHAKE;
        return Continue;
      }
      if env.fail { return Failed; }
      state := READ_SESSION_TICKET;
      return Continue;
    }

    method ReadSessionTicket(env: Env) returns (r: Wait)
      modifies this`state, this`inbox, this`transcript, this`trace
      ensures (View(), r) == DoReadSessionTicket(old(View()), env) && wait == old(wait)
      ensures Repeatable(old(View()), View(), r) && (r.WaitCcs? || r.WaitMessage? || r.Failed?)
      ensures r.WaitMessage? <==> facts.ticket && old(inbox).None?
      ensures r.WaitCcs? <==> !facts.ticket || (old(inbox).Some? && old(inbox).value.NewSessionTicket? && !env.fail)
      ensures r.WaitCcs? ==> state == CLIENT_PROCESS_CCS
      ensures r.WaitCcs? ==> if facts.ticket then TakesCurrent(old(View()), View(), old(inbox).value) else Untouched(old(View()), View())
    {
      if facts.ticket {
        if inbox.None? { return WaitMessage; }
        if !inbox.value.NewSessionTicket? || env.fail { return Failed; }
        HashAndTake();
      }
      state := CLIENT_PROCESS_CCS;
      return WaitCcs;
    }

    // -------------------------------------------------------------- server states

    method ReadClientHello(env: Env) returns (r: Wait)
      modifies this`state
      ensures (View(), r) == DoReadClientHello(old(View()), env) && wait == old(wait)
      ensures Repeatable(old(View()), View(), r) && Untouched(old(View()), View()) && (r.Continue? || r.WaitMessage? || r.Async? || r.Failed?)
      ensures r.WaitMessage? <==> old(inbox).None?
      ensures r.Async? <==> old(inbox) == Some(ClientHello) && env.retry
      ensures r.Continue? <==> old(inbox) == Some(ClientHello) && !env.retry && !env.fail
      ensures r.Continue? ==> state == SELECT_CERTIFICATE
    {
      if inbox.None? { return WaitMessage; }
      if !inbox.value.ClientHello? { return Failed; }
      if env.retry { return Async; }
      if env.fail { return Failed; }
      state := SELECT_CERTIFICATE;
      return Continue;
    }

    method SelectCertificate(env: Env) returns (r: Wait)
      modifies this`state, this`facts
      ensures (View(), r) == DoSelectCertificate(old(View()), cfg, env) && wait == old(wait)
      ensures Repeatable(old(View()), View(), r) && Untouched(old(View()), View()) && (r.Continue? || r.WaitMessage? || r.Async? || r.Failed?)
      ensures r.WaitMessage? <==> old(inbox).None?
      ensures r.Failed? <==> old(inbox).Some? && env.fail
      ensures r.Async? <==> old(inbox).Some? && !env.fail && env.retry
      ensures r.Continue? ==> state == SELECT_PARAMETERS && facts == old(facts).(suite := cfg.choice.suite)
    {
      if inbox.None? { return WaitMessage; }
      if env.fail { return Failed; }
      if env.retry { return Async; }
      facts := facts.(suite := cfg.choice.suite);
      state := SELECT_PARAMETERS;
      return Continue;
    }

    method SelectParameters(env: Env) returns (r: Wait)
      modifies this`state, this`inbox, this`transcript, this`trace, this`facts, this`certRequest
      ensures (View(), r) == DoSelectParameters(old(View()), cfg, env) && wait == old(wait)
      ensures Repeatable(old(View()), View(), r) && (r.Continue? || r.WaitMessage? || r.Async? || r.Failed?)
      ensures r.WaitMessage? <==> old(inbox).None?
      ensures r.Async? <==> old(inbox).Some? && env.retry
      ensures r.Failed? <==> old(inbox).Some? && !env.retry && env.fail
      ensures r.Continue? ==> state == SEND_SERVER_HELLO && TakesCurrent(old(View()), View(), old(inbox).value) && facts == cfg.choice.(suite := old(facts).suite)
      ensures r.Continue? ==>
        (certRequest <==> !cfg.choice.resumed && cfg.verifyPeer && !(cfg.ifNoChannelId && cfg.choice.channelId) && facts.suite.UsesCert())
    {
      if inbox.None? { return WaitMessage; }
      if env.retry { return Async; }
      if env.fail { return Failed; }
      certRequest := !cfg.choice.resumed && cfg.verifyPeer && !(cfg.ifNoChannelId && cfg.choice.channelId) && facts.suite.UsesCert();
      facts := cfg.choice.(suite := facts.suite);
      HashAndTake();
      state := SEND_SERVER_HELLO;
      return Continue;
    }

    method SendServerHello(env: Env) returns (r: Wait)
      modifies this`state, this`pending, this`transcript, this`trace, this`facts
      ensures (View(), r) == DoSendServerHello(old(View()), cfg, env) && wait == old(wait)
      ensures Repeatable(old(View()), View(), r) && (r.Continue? || r.Failed?) && (r.Failed? <==> env.fail)
      ensures r.Continue? ==> QueuesAll(old(View()), View(), [ServerHello(facts)]) && state == if facts.resumed then SEND_SERVER_FINISHED else SEND_SERVER_CERTIFICATE
      ensures facts.resumed == old(facts).resumed && facts.ticket == old(facts).ticket && facts.ocsp == old(facts).ocsp
      ensures facts.npn == old(facts).npn && facts.suite == old(facts).suite
      ensures r.Continue? ==> (facts.channelId <==> old(facts).channelId && facts.suite.Ecdhe() && (facts.resumed ==> cfg.originalHash))
    {
      if env.fail { return Failed; }
      facts := FinalFacts(facts, cfg);
      AddMessage(ServerHello(facts));
      state := if facts.resumed then SEND_SERVER_FINISHED else SEND_SERVER_CERTIFICATE;
      return Continue;
    }

    method SendServerCertificate(env: Env) returns (r: Wait)
      modifies this`state, this`pending, this`transcript, this`trace, this`params
      ensures (View(), r) == DoSendServerCertificate(old(View()), cfg, env) && wait == old(wait)
      ensures Repeatable(old(View()), View(), r) && (r.Continue? || r.Failed?) && (r.Failed? <==> env.fail)
      ensures r.Continue? ==> state == SEND_SERVER_KEY_EXCHANGE
      ensures r.Continue? ==> (params <==> facts.suite.RequiresKeyExchange() || (!facts.suite.UsesCert() && cfg.pskHint))
      ensures r.Continue? ==> QueuesAll(old(View()), View(),
        Opt(facts.suite.UsesCert(), Certificate(false)) + Opt(facts.suite.UsesCert() && facts.ocsp, CertificateStatus))
    {
      hide Bodies, ItemsOf;
      if env.fail { return Failed; }
      ghost var start := View();
      MaybeQueues(start, facts.suite.UsesCert(), Certificate(false));
      ghost var mid := if facts.suite.UsesCert() then HsModel.AddMessage(start, Certificate(false)) else start;
      MaybeQueues(mid, facts.suite.UsesCert() && facts.ocsp, CertificateStatus);
      if facts.suite.UsesCert() {
        AddMessage(Certificate(false));
        if facts.ocsp { AddMessage(CertificateStatus); }
      }
      QueuesMore(start, mid, View(), Opt(facts.suite.UsesCert(), Certificate(false)), Opt(facts.suite.UsesCert() && facts.ocsp, CertificateStatus));
      params := facts.suite.RequiresKeyExchange() || (!facts.suite.UsesCert() && cfg.pskHint);
      state := SEND_SERVER_KEY_EXCHANGE;
      return Continue;
    }

    method SendServerKeyExchange(env: Env) returns (r: Wait)
      modifies this`state, this`pending, this`transcript, this`trace, this`params
      ensures (View(), r) == DoSendServerKeyExchange(old(View()), env) && wait == old(wait)
      ensures Repeatable(old(View()), View(), r) && (r.Continue? || r.Async? || r.Failed?)
      ensures r.Failed? <==> old(params) && env.fail
      ensures r.Async? <==> old(params) && !env.fail && facts.suite.UsesCert() && env.retry
      ensures r.Continue? ==> state == SEND_SERVER_HELLO_DONE && !params
      ensures r.Continue? ==> if old(params) then QueuesAll(old(View()), View(), [ServerKeyExchange]) else Untouched(old(View()), View())
    {
      if params {
        if env.fail { return Failed; }
        if facts.suite.UsesCert() && env.retry { return Async; }
        AddMessage(ServerKeyExchange);
        params := false;
      }
      state := SEND_SERVER_HELLO_DONE;
      return Continue;
    }

    method SendServerHelloDone(env: Env) returns (r: Wait)
      modifies this`state, this`pending, this`transcript, this`trace
      ensures (View(), r) == DoSendServerHelloDone(old(View()), env) && wait == old(wait)
      ensures Repeatable(old(View()), View(), r) && (r.Flush? || r.Failed?) && (r.Failed? <==> env.fail)
      ensures r.Flush? ==> state == READ_CLIENT_CERTIFICATE
      ensures r.Flush? ==> QueuesAll(old(View()), View(), Opt(certRequest, CertificateRequest) + [ServerHelloDone])
    {
      hide Bodies, ItemsOf;
      if env.fail { return Failed; }
      ghost var start := View();
      if certRequest { AddMessage(CertificateRequest); }
      ghost var mid := View();
      AddMessage(ServerHelloDone);
      MaybeQueues(start, certRequest, CertificateRequest);
      MaybeQueues(mid, true, ServerHelloDone);
      QueuesMore(start, mid, View(), Opt(certRequest, CertificateRequest), [ServerHelloDone]);
      state := READ_CLIENT_CERTIFICATE;
      return Flush;
    }

    method ReadClientCertificate(env: Env) returns (r: Wait)
      modifies this`state, this`inbox, this`transcript, this`trace, this`peerCert
      ensures (View(), r) == DoReadClientCertificate(old(View()), cfg, env) && wait == old(wait)
      ensures Repeatable(old(View()), View(), r) && (r.Continue? || r.WaitMessage? || r.Failed?)
      ensures r.WaitMessage? <==> certRequest && old(inbox).None?
      ensures r.Continue? <==>
        !certRequest || (!env.fail && (old(inbox) == Some(Certificate(false)) || (old(inbox) == Some(Certificate(true)) && !cfg.requireCert)))
      ensures r.Continue? ==> state == VERIFY_CLIENT_CERTIFICATE
      ensures r.Continue? ==> if certRequest then TakesCurrent(old(View()), View(), Certificate(!peerCert)) else Untouched(old(View()), View())
    {
      if !certRequest {
        state := VERIFY_CLIENT_CERTIFICATE;
        return Continue;
      }
      if inbox.None? { return WaitMessage; }
      if !inbox.value.Certificate? || env.fail || (inbox.value.empty && cfg.requireCert) { return Failed; }
      peerCert := !inbox.value.empty;
      HashAndTake();
      state := VERIFY_CLIENT_CERTIFICATE;
      return Continue;
    }

    method VerifyClientCertificate(env: Env) returns (r: Wait)
      modifies this`state
      ensures (View(), r) == DoVerifyClientCertificate(old(View()), env) && wait == old(wait)
      ensures Repeatable(old(View()), View(), r) && Untouched(old(View()), View()) && (r.Continue? || r.Async? || r.Failed?)
      ensures r.Failed? <==> peerCert && env.fail
      ensures r.Async? <==> peerCert && !env.fail && env.retry
      ensures r.Continue? ==> state == READ_CLIENT_KEY_EXCHANGE
    {
      if peerCert {
        if env.fail { return Failed; }
        if env.retry { return Async; }
      }
      state := READ_CLIENT_KEY_EXCHANGE;
      return Continue;
    }

    method ReadClientKeyExchange(env: Env) returns (r: Wait)
      modifies this`state, this`inbox, this`transcript, this`trace
      ensures (View(), r) == DoReadClientKeyExchange(old(View()), env) && wait == old(wait)
      ensures Repeatable(old(View()), View(), r) && (r.Continue? || r.WaitMessage? || r.Async? || r.Failed?)
      ensures r.WaitMessage? <==> old(inbox).None?
      ensures r.Failed? <==> old(inbox).Some? && (old(inbox) != Some(ClientKeyExchange) || env.fail)
      ensures r.Async? <==> old(inbox) == Some(ClientKeyExchange) && !env.fail && facts.suite.RsaCert? && env.retry
      ensures r.Continue? ==> TakesCurrent(old(View()), View(), ClientKeyExchange) && state == READ_CLIENT_CERTIFICATE_VERIFY
    {
      if inbox.None? { return WaitMessage; }
      if !inbox.value.ClientKeyExchange? || env.fail { return Failed; }
      if facts.suite.RsaCert? && env.retry { return Async; }
      HashAndTake();
      state := READ_CLIENT_CERTIFICATE_VERIFY;
      return Continue;
    }

    method ReadClientCertificateVerify(env: Env) returns (r: Wait)
      modifies this`state, this`inbox, this`transcript, this`trace
      ensures (View(), r) == DoReadClientCertificateVerify(old(View()), env) && wait == old(wait)
      ensures Repeatable(old(View()), View(), r) && (r.Continue? || r.WaitMessage? || r.Failed?)
      ensures r.WaitMessage? <==> peerCert && old(inbox).None?
      ensures r.Continue? <==> !peerCert || (old(inbox) == Some(CertificateVerify) && !env.fail)
      ensures r.Continue? ==> state == READ_CHANGE_CIPHER_SPEC
      ensures r.Continue? ==> if peerCert then TakesCurrent(old(View()), View(), CertificateVerify) else Untouched(old(View()), View())
    {
      if !peerCert {
        state := READ_CHANGE_CIPHER_SPEC;
        return Continue;
      }
      if inbox.None? { return WaitMessage; }
      if !inbox.value.CertificateVerify? || env.fail { return Failed; }
      HashAndTake();
      state := READ_CHANGE_CIPHER_SPEC;
      return Continue;
    }

    method ReadNextProto(env: Env) returns (r: Wait)
      modifies this`state, this`inbox, this`transcript, this`trace
      ensures (View(), r) == DoReadNextProto(old(View()), env) && wait == old(wait)
      ensures Repeatable(old(View()), View(), r) && (r.Continue? || r.WaitMessage? || r.Failed?)
      ensures r.WaitMessage? <==> facts.npn && old(inbox).None?
      ensures r.Continue? <==> !facts.npn || (old(inbox) == Some(NextProto) && !env.fail)
      ensures r.Continue? ==> state == READ_CHANNEL_ID
      ensures r.Continue? ==> if facts.npn then TakesCurrent(old(View()), View(), NextProto) else Untouched(old(View()), View())
    {
      if !facts.npn {
        state := READ_CHANNEL_ID;
        return Continue;
      }
      if inbox.None? { return WaitMessage; }
      if !inbox.value.NextProto? || env.fail { return Failed; }
      HashAndTake();
      state := READ_CHANNEL_ID;
      return Continue;
    }

    method ReadChannelId(env: Env) returns (r: Wait)
      modifies this`state, this`inbox, this`transcript, this`trace
      ensures (View(), r) == DoReadChannelId(old(View()), env) && wait == old(wait)
      ensures Repeatable(old(View()), View(), r) && (r.Continue? || r.WaitMessage? || r.Failed?)
      ensures r.WaitMessage? <==> facts.channelId && old(inbox).None?
      ensures r.Continue? <==> !facts.channelId || (old(inbox) == Some(ChannelId) && !env.fail)
      ensures r.Continue? ==> state == READ_CLIENT_FINISHED
      ensures r.Continue? ==> if facts.channelId then TakesCurrent(old(View()), View(), ChannelId) else Untouched(old(View()), View())
    {
      if !facts.channelId {
        state := READ_CLIENT_FINISHED;
        return Continue;
      }
      if inbox.None? { return WaitMessage; }
      if !inbox.value.ChannelId? || env.fail { return Failed; }
      HashAndTake();
      state := READ_CLIENT_FINISHED;
      return Continue;
    }

    method SendServerFinished(env: Env) returns (r: Wait)
      modifies this`state, this`pending, this`transcript, this`trace, this`writeSecured
      ensures (View(), r) == DoSendServerFinished(old(View()), cfg, env) && wait == old(wait)
      ensures Repeatable(old(View()), View(), r) && (r.Flush? || r.Failed?) && (r.Failed? <==> env.fail)
      ensures r.Flush? ==> state == if facts.resumed then READ_CHANGE_CIPHER_SPEC else FINISH_SERVER_HANDSHAKE
      ensures r.Flush? ==> Switches(old(View()), View(), Opt(facts.ticket, NewSessionTicket(cfg.emptyTicket)), [])
    {
      hide Bodies, ItemsOf;
      if env.fail { return Failed; }
      ghost var start := View();
      if facts.ticket { AddMessage(NewSessionTicket(cfg.emptyTicket)); }
      ghost var mid := View();
      MaybeQueues(start, facts.ticket, NewSessionTicket(cfg.emptyTicket));
      ChangeWriteCipher();
      QueuesNone(View());
      LastFlight(start, mid, View(), Opt(facts.ticket, NewSessionTicket(cfg.emptyTicket)), []);
      SendFinished();
      state := if facts.resumed then READ_CHANGE_CIPHER_SPEC else FINISH_SERVER_HANDSHAKE;
      return Flush;
    }

    // -------------------------------------------------------------- the loops

    method ClientState(env: Env) returns (r: Wait)
      modifies this
      ensures (View(), r) == DoClient(old(View()), cfg, env) && wait == old(wait)
    {
      hide DoReadServerHello, DoReadServerCertificate, DoReadCertificateStatus, DoVerifyServerCertificate,
        DoReadServerKeyExchange, DoReadCertificateRequest, DoReadServerHelloDone, DoSendClientCertificate,
        DoSendClientKeyExchange, DoSendClientCertificateVerify, DoFinishFlight, DoReadSessionTicket, DoSendClientFinished,
        HsModel.GetFinished, HsModel.ChangeReadCipher, Effect, LeadsTo;
      if state == START_CONNECT {
        if env.fail { return Failed; }
        AddMessage(ClientHello);
        state := ENTER_EARLY_DATA;
        return Flush;
      } else if state == ENTER_EARLY_DATA {
        state := READ_SERVER_HELLO;
        return Continue;
      }
      else if state == READ_SERVER_HELLO { r := ReadServerHello(env); }
      else if state == READ_SERVER_CERTIFICATE { r := ReadServerCertificate(env); }
      else if state == READ_CERTIFICATE_STATUS { r := ReadCertificateStatus(env); }
      else if state == VERIFY_SERVER_CERTIFICATE { r := VerifyServerCertificate(env); }
      else if state == READ_SERVER_KEY_EXCHANGE { r := ReadServerKeyExchange(env); }
      else if state == READ_CERTIFICATE_REQUEST { r := ReadCertificateRequest(env); }
      else if state == READ_SERVER_HELLO_DONE { r := ReadServerHelloDone(env); }
      else if state == SEND_CLIENT_CERTIFICATE { r := SendClientCertificate(env); }
      else if state == SEND_CLIENT_KEY_EXCHANGE { r := SendClientKeyExchange(env); }
      else if state == SEND_CLIENT_CERTIFICATE_VERIFY { r := SendClientCertificateVerify(env); }
      else if state == SEND_CLIENT_FINISHED { r := SendClientFinished(env); }
      else if state == FINISH_FLIGHT { r := FinishFlight(env); }
      else if state == READ_SESSION_TICKET { r := ReadSessionTicket(env); }
      else if state == CLIENT_PROCESS_CCS { r := ChangeReadCipher(env, READ_SERVER_FINISHED); }
      else if state == READ_SERVER_FINISHED { r := GetFinished(env, if facts.resumed then SEND_CLIENT_FINISHED else FINISH_CLIENT_HANDSHAKE); }
      else if state == FINISH_CLIENT_HANDSHAKE && !env.fail {
        state := DONE;
        return Continue;
      }
      else { return Failed; }
    }

    method ServerState(env: Env) returns (r: Wait)
      modifies this
      ensures (View(), r) == DoServer(old(View()), cfg, env) && wait == old(wait)
    {
      hide DoReadClientHello, DoSelectCertificate, DoSelectParameters, DoSendServerHello, DoSendServerKeyExchange,
        DoReadClientCertificate, DoVerifyClientCertificate, DoReadClientKeyExchange, DoReadClientCertificateVerify,
        DoReadNextProto, DoReadChannelId, DoSendServerCertificate, DoSendServerHelloDone, DoSendServerFinished,
        HsModel.GetFinished, HsModel.ChangeReadCipher, Effect, LeadsTo;
      if state == START_ACCEPT {
        state := READ_CLIENT_HELLO;
        return Continue;
      }
      else if state == READ_CLIENT_HELLO { r := ReadClientHello(env); }
      else if state == SELECT_CERTIFICATE { r := SelectCertificate(env); }
      else if state == SELECT_PARAMETERS { r := SelectParameters(env); }
      else if state == SEND_SERVER_HELLO { r := SendServerHello(env); }
      else if state == SEND_SERVER_CERTIFICATE { r := SendServerCertificate(env); }
      else if state == SEND_SERVER_KEY_EXCHANGE { r := SendServerKeyExchange(env); }
      else if state == SEND_SERVER_HELLO_DONE { r := SendServerHelloDone(env); }
      else if state == READ_CLIENT_CERTIFICATE { r := ReadClientCertificate(env); }
      else if state == VERIFY_CLIENT_CERTIFICATE { r := VerifyClientCertificate(env); }
      else if state == READ_CLIENT_KEY_EXCHANGE { r := ReadClientKeyExchange(env); }
      else if state == READ_CLIENT_CERTIFICATE_VERIFY { r := ReadClientCertificateVerify(env); }
      else if state == READ_CHANGE_CIPHER_SPEC {
        state := SERVER_PROCESS_CCS;
        return WaitCcs;
      }
      else if state == SERVER_PROCESS_CCS { r := ChangeReadCipher(env, READ_NEXT_PROTO); }
      else if state == READ_NEXT_PROTO { r := ReadNextProto(env); }
      else if state == READ_CHANNEL_ID { r := ReadChannelId(env); }
      else if state == READ_CLIENT_FINISHED { r := GetFinished(env, if facts.resumed then FINISH_SERVER_HANDSHAKE else SEND_SERVER_FINISHED); }
      else if state == SEND_SERVER_FINISHED { r := SendServerFinished(env); }
      else if state == FINISH_SERVER_HANDSHAKE && !env.fail {
        state := DONE;
        return Continue;
      }
      else { return Failed; }
    }

    /** ssl_client_handshake and ssl_server_handshake: states are run until one does not go straight on. */
    method DoHandshake() returns (r: Wait, ghost es: seq<Event>)
      requires Inv(View()) && wait.Continue?
      modifies this
      ensures View().(wait := r) == Moves(old(View()), cfg, es) && Inv(View().(wait := r)) && (r.Continue? ==> state == DONE)
    {
      es := [];
      assert state <= DONE;
      hide Inv, Moves, Rank;
      assert View() == Moves(old(View()), cfg, es) by { MovesNone(View(), cfg); }
      while state != DONE
        invariant Inv(View()) && wait.Continue? && state <= DONE && View() == Moves(old(View()), cfg, es)
        decreases Rank(role, state, facts.resumed)
      {
        var env: Env := *;
        ghost var before := View();
        if role.Client? { r := ClientState(env); } else { r := ServerState(env); }
        RunStep(old(View()), before, View(), r, cfg, es, env);
        es := es + [Runs(env)];
        if !r.Continue? { return; }
        assert View() == View().(wait := r);
      }
      assert View() == View().(wait := Continue);
      return Continue, es;
    }

    /** The events so far have led here from `start`. */
    ghost predicate Ran(start: Hs, es: seq<Event>)
      reads this
    {
      Inv(View()) && View() == Moves(start, cfg, es)
    }

    /** The operation that the handshake was waiting on has come back with `e`. */
    method ResolveWait(e: Event)
      requires Answers(wait, e)
      modifies this
      ensures View() == Move(old(View()), cfg, e) && (wait.Continue? || wait.Failed?)
      ensures old(wait).Flush? ==> wait.Continue? && pending == []
      ensures old(wait).ReadsMessage() ==> (wait.Continue? <==> e.body.Message? && old(inbox).None?)
      ensures old(wait).ReadsMessage() && wait.Continue? ==> inbox == Some(e.body.m)
      ensures old(wait).WaitCcs? ==> (wait.Continue? <==> e.body.Ccs?)
    {
      if wait.Flush? {
        pending, wait := [], Continue;
      } else if wait.ReadsMessage() && e.body.Message? && inbox.None? {
        inbox, wait := Some(e.body.m), Continue;
      } else if wait.WaitCcs? && e.body.Ccs? {
        trace, wait := trace + [Item(role.Peer(), readSecured, Ccs)], Continue;
      } else {
        wait := Failed;
      }
    }

    method ResolveNext(e: Event, ghost start: Hs, ghost es: seq<Event>)
      requires Answers(wait, e) && Ran(start, es)
      modifies this
      ensures Ran(start, es + [e]) && (wait.Continue? || wait.Failed?)
    {
      hide Inv, Moves, Move, Answers;
      MoveKeeps(View(), cfg, e);
      MovesSnoc(start, cfg, es, e);
      ResolveWait(e);
    }

    /** An asynchronous wait is reported once and then over. */
    method ComeBack(ghost start: Hs, ghost es: seq<Event>)
      requires wait.Async? && Ran(start, es)
      modifies this
      ensures Ran(start, es + [Reenter])
    {
      MoveKeeps(View(), cfg, Reenter);
      MovesSnoc(start, cfg, es, Reenter);
      hide Inv, Moves;
      wait := Continue;
    }

    method RunStates(ghost start: Hs, ghost es: seq<Event>) returns (ghost all: seq<Event>)
      requires wait.Continue? && Ran(start, es)
      modifies this
      ensures Ran(start, all) && (wait.Continue? ==> state == DONE)
    {
      hide Inv, Moves;
      var r, more := DoHandshake();
      wait := r;
      MovesAppend(start, cfg, es, more);
      all := es + more;
    }

    lemma RanDone(start: Hs, es: seq<Event>)
      requires Ran(start, es) && state == DONE && wait.Continue?
      ensures Complete(trace) && transcript == Messages(trace) && readSecured && writeSecured
    {
      hide Inv, Complete, Messages, Moves;
      CompleteAtDone(View());
    }

    /** ssl_run_handshake, until it needs something that the transport does not have for it: `io` is what flushing
        and reading yield, one entry a call. An error is sticky. */
    method RunHandshake(io: seq<Event>) returns (done: bool, ghost es: seq<Event>)
      requires Inv(View())
      modifies this
      ensures View() == Moves(old(View()), cfg, es) && Inv(View())
      ensures old(wait).Failed? ==> !done && View() == old(View())
      ensures done ==> state == DONE && Complete(trace) && transcript == Messages(trace) && readSecured && writeSecured
    {
      es := [];
      ghost var start := View();
      MovesNone(start, cfg);
      assert Ran(start, es);
      if wait.Failed? { return false, es; }
      done, es := Loop(io, start);
    }

    method Loop(io: seq<Event>, ghost start: Hs) returns (done: bool, ghost es: seq<Event>)
      requires Ran(start, [])
      modifies this
      ensures Ran(start, es)
      ensures done ==> state == DONE && Complete(trace) && transcript == Messages(trace) && readSecured && writeSecured
    {
      hide Ran, Complete, Messages;
      es := [];
      var n := 0;
      while !wait.Failed?
        invariant 0 <= n <= |io| && Ran(start, es)
        decreases |io| - n, if wait.Continue? then 1 else 0
      {
        if wait.Async? {
          ComeBack(start, es);
          return false, es + [Reenter];
        }
        if !wait.Continue? {
          if n == |io| || !Answers(wait, io[n]) { return false, es; }
          ResolveNext(io[n], start, es);
          es, n := es + [io[n]], n + 1;
          if wait.Failed? { return false, es; }
        }
        es := RunStates(start, es);
        if wait.Continue? {
          RanDone(start, es);
          return true, es;
        }
      }
      return false, es;
    }
  }

  /** What the transport yields fits the wait. */
  predicate Answers(wait: Wait, e: Event)
  {
    if wait.Flush? then e.FlushDone? else (wait.ReadsMessage() || wait.WaitCcs?) && e.Arrives?
  }

  lemma {:induction false} MovesAppend(hs: Hs, cfg: Config, a: seq<Event>, b: seq<Event>)
    ensures Moves(hs, cfg, a + b) == Moves(Moves(hs, cfg, a), cfg, b)
    decreases |a|
  {
    hide Move;
    if a == [] {
      assert a + b == b;
    } else {
      assert (a + b)[1..] == a[1..] + b;
      MovesAppend(Move(hs, cfg, a[0]), cfg, a[1..], b);
    }
  }

  lemma MovesNone(hs: Hs, cfg: Config)
    ensures Moves(hs, cfg, []) == hs
  {
  }

  lemma MovesSnoc(hs: Hs, cfg: Config, es: seq<Event>, e: Event)
    ensures Moves(hs, cfg, es + [e]) == Move(Moves(hs, cfg, es), cfg, e)
  {
    hide Move;
    MovesAppend(hs, cfg, es, [e]);
    assert Moves(Moves(hs, cfg, es), cfg, [e]) == Moves(Move(Moves(hs, cfg, es), cfg, e), cfg, []);
  }

  /** One state of the loop is one move, and when it goes straight on the state has been left for good. */
  lemma RunStep(start: Hs, before: Hs, after: Hs, r: Wait, cfg: Config, es: seq<Event>, env: Env)
    requires before == Moves(start, cfg, es) && Inv(before) && before.wait.Continue? && before.state != DONE
    requires after.wait == before.wait
    requires (after, r) == if before.role.Client? then DoClient(before, cfg, env) else DoServer(before, cfg, env)
    ensures after.(wait := r) == Moves(start, cfg, es + [Runs(env)]) && Inv(after.(wait := r)) && after.wait.Continue?
    ensures r.Continue? ==> after.state <= DONE
    ensures r.Continue? ==>
      Rank(before.role, after.state, after.facts.resumed) < Rank(before.role, before.state, before.facts.resumed)
  {
    hide DoClient, DoServer;
    MovesSnoc(start, cfg, es, Runs(env));
    MoveKeeps(before, cfg, Runs(env));
    ActsOnce(before, cfg, env);
  }
}
