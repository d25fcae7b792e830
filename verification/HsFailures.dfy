/** No failure goes unnoticed: when something due is parsed, verified, computed or queued and that fails, the handshake
    fails for good. */
module HsFailures {
  import opened Common
  import opened HsModel
  import opened HsSafety

  /** A client in this state has something at hand that its step must check or do. */
  predicate ClientAtWork(hs: Hs, cfg: Config)
  {
    var s := hs.state;
    || s == START_CONNECT || s == SEND_CLIENT_KEY_EXCHANGE || s == CLIENT_PROCESS_CCS || s == FINISH_CLIENT_HANDSHAKE
    || s == SEND_CLIENT_FINISHED
    || (hs.inbox.Some? && (s == READ_SERVER_HELLO || s == READ_SERVER_HELLO_DONE || s == READ_SERVER_FINISHED))
    || (hs.inbox.Some? && s == READ_SERVER_CERTIFICATE && hs.facts.suite.UsesCert())
    || (hs.inbox == Some(CertificateStatus) && s == READ_CERTIFICATE_STATUS && hs.facts.ocsp)
    || (s == VERIFY_SERVER_CERTIFICATE && hs.facts.suite.UsesCert())
    || (hs.inbox == Some(ServerKeyExchange) && s == READ_SERVER_KEY_EXCHANGE)
    || (hs.inbox == Some(CertificateRequest) && s == READ_CERTIFICATE_REQUEST && hs.facts.suite.UsesCert())
    || (s == SEND_CLIENT_CERTIFICATE && hs.certRequest)
    || (s == SEND_CLIENT_CERTIFICATE_VERIFY && hs.certRequest && cfg.hasCert)
    || (s == FINISH_FLIGHT && !hs.facts.resumed)
    || (hs.inbox.Some? && s == READ_SESSION_TICKET && hs.facts.ticket)
  }

  /** Two server states ask to be retried before they look for failures. */
  predicate ServerAtWork(hs: Hs, env: Env)
  {
    var s := hs.state;
    || s == SEND_SERVER_HELLO || s == SEND_SERVER_CERTIFICATE || s == SEND_SERVER_HELLO_DONE || s == SERVER_PROCESS_CCS
    || s == SEND_SERVER_FINISHED || s == FINISH_SERVER_HANDSHAKE
    || (hs.inbox.Some? && !env.retry && (s == READ_CLIENT_HELLO || s == SELECT_PARAMETERS))
    || (hs.inbox.Some? && (s == SELECT_CERTIFICATE || s == READ_CLIENT_KEY_EXCHANGE || s == READ_CLIENT_FINISHED))
    || (s == SEND_SERVER_KEY_EXCHANGE && hs.params)
    || (hs.inbox.Some? && s == READ_CLIENT_CERTIFICATE && hs.certRequest)
    || (s == VERIFY_CLIENT_CERTIFICATE && hs.peerCert)
    || (hs.inbox.Some? && s == READ_CLIENT_CERTIFICATE_VERIFY && hs.peerCert)
    || (hs.inbox.Some? && s == READ_NEXT_PROTO && hs.facts.npn)
    || (hs.inbox.Some? && s == READ_CHANNEL_ID && hs.facts.channelId)
  }

  predicate AtWork(hs: Hs, cfg: Config, env: Env) { if hs.role.Client? then ClientAtWork(hs, cfg) else ServerAtWork(hs, env) }

  lemma ClientHelloFails(hs: Hs, cfg: Config, env: Env)
    requires hs.role.Client? && ClientAtWork(hs, cfg) && env.fail && hs.state <= VERIFY_SERVER_CERTIFICATE
    ensures Do(hs, cfg, env).wait == Failed
  {
    hide DoServer, Effect, LeadsTo;
  }

  lemma ClientReadsFail(hs: Hs, cfg: Config, env: Env)
    requires hs.role.Client? && ClientAtWork(hs, cfg) && env.fail && VERIFY_SERVER_CERTIFICATE < hs.state <= SEND_CLIENT_CERTIFICATE
    ensures Do(hs, cfg, env).wait == Failed
  {
    hide DoServer, Effect, LeadsTo;
  }

  lemma ClientEndFails(hs: Hs, cfg: Config, env: Env)
    requires hs.role.Client? && ClientAtWork(hs, cfg) && env.fail && SEND_CLIENT_CERTIFICATE < hs.state
    ensures Do(hs, cfg, env).wait == Failed
  {
    hide DoServer, Effect, LeadsTo;
  }

  lemma ServerHelloFails(hs: Hs, cfg: Config, env: Env)
    requires hs.role.Server? && ServerAtWork(hs, env) && env.fail && hs.state <= SEND_SERVER_CERTIFICATE
    ensures Do(hs, cfg, env).wait == Failed
  {
    hide DoClient, Effect, LeadsTo;
  }

  lemma ServerReadsFail(hs: Hs, cfg: Config, env: Env)
    requires hs.role.Server? && ServerAtWork(hs, env) && env.fail && SEND_SERVER_CERTIFICATE < hs.state <= READ_CLIENT_KEY_EXCHANGE
    ensures Do(hs, cfg, env).wait == Failed
  {
    hide DoClient, Effect, LeadsTo;
  }

  lemma ServerEndFails(hs: Hs, cfg: Config, env: Env)
    requires hs.role.Server? && ServerAtWork(hs, env) && env.fail && READ_CLIENT_KEY_EXCHANGE < hs.state
    ensures Do(hs, cfg, env).wait == Failed
  {
    hide DoClient, Effect, LeadsTo;
  }

  lemma FailureCaught(hs: Hs, cfg: Config, env: Env)
    requires AtWork(hs, cfg, env) && env.fail
    ensures Do(hs, cfg, env).wait == Failed
  {
    hide Do, ClientAtWork, ServerAtWork;
    if hs.role.Client? {
      if hs.state <= VERIFY_SERVER_CERTIFICATE { ClientHelloFails(hs, cfg, env); }
      else if hs.state <= SEND_CLIENT_CERTIFICATE { ClientReadsFail(hs, cfg, env); }
      else { ClientEndFails(hs, cfg, env); }
    } else {
      if hs.state <= SEND_SERVER_CERTIFICATE { ServerHelloFails(hs, cfg, env); }
      else if hs.state <= READ_CLIENT_KEY_EXCHANGE { ServerReadsFail(hs, cfg, env); }
      else { ServerEndFails(hs, cfg, env); }
    }
  }

  /** The event is a step in which something at hand fails. */
  predicate Fails(hs: Hs, cfg: Config, e: Event)
  {
    e.Runs? && e.env.fail && hs.wait.Continue? && hs.state != DONE && AtWork(hs, cfg, e.env)
  }

  lemma {:induction false} StaysFailed(hs: Hs, cfg: Config, es: seq<Event>)
    requires hs.wait == Failed
    ensures Moves(hs, cfg, es) == hs
    decreases |es|
  {
    if es != [] { StaysFailed(hs, cfg, es[1..]); }
  }

  /** A run in which anything due has failed ends in failure: what completes has had every signature, certificate,
      message and operation that was due succeed. */
  lemma {:induction false} FailureIsFatal(hs: Hs, cfg: Config, es: seq<Event>, i: nat)
    requires i < |es| && Fails(Moves(hs, cfg, es[..i]), cfg, es[i])
    ensures Moves(hs, cfg, es).wait == Failed
    decreases |es|
  {
    if i == 0 {
      assert es[..0] == [];
      FailureCaught(hs, cfg, es[0].env);
      hide Do, AtWork;
      StaysFailed(Move(hs, cfg, es[0]), cfg, es[1..]);
    } else {
      assert es[..i][1..] == es[1..][..i - 1];
      hide Move, Fails;
      FailureIsFatal(Move(hs, cfg, es[0]), cfg, es[1..], i - 1);
    }
  }
}
