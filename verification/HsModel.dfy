/** The TLS 1.0 to 1.2 handshake (RFC 5246 section 7.3) as seen by one endpoint: messages are abstract, the
    verify_data of a Finished message stands for the transcript it was computed over, and what callbacks,
    parsers and cryptography decide is an argument of each step. */
module HsModel {
  import opened Common

  datatype Role = Client | Server
  {
    function Peer(): Role { if Client? then Server else Client }
  }

  /** What matters of a cipher suite: its key exchange and whether certificates authenticate the server. */
  datatype Suite = RsaCert | EcdheCert | EcdhePsk | PlainPsk
  {
    predicate UsesCert() { RsaCert? || EcdheCert? }                  // ssl_cipher_uses_certificate_auth
    predicate Ecdhe() { EcdheCert? || EcdhePsk? }                    // SSL_kECDHE
    predicate RequiresKeyExchange() { Ecdhe() }                      // ssl_cipher_requires_server_key_exchange
  }

  /** What the ServerHello settles. */
  datatype Facts = Facts(resumed: bool, ticket: bool, ocsp: bool, npn: bool, channelId: bool, suite: Suite)

  datatype Msg =
    | ClientHello
    | ServerHello(facts: Facts)
    | Certificate(empty: bool)
    | CertificateStatus
    | ServerKeyExchange
    | CertificateRequest
    | ServerHelloDone
    | ClientKeyExchange
    | CertificateVerify
    | NewSessionTicket(empty: bool)
    | NextProto
    | ChannelId
    | Finished(sender: Role, over: seq<Msg>)
    | OtherMessage

  /** A handshake message or a ChangeCipherSpec. */
  datatype Body = Message(m: Msg) | Ccs

  /** One thing an endpoint has queued or taken in: by whom, and whether under the new keys. */
  datatype Item = Item(sender: Role, secured: bool, body: Body)

  /** States are numbered as in ssl_client_hs_state_t and ssl_server_hs_state_t; both end at 20. The states of
      TLS 1.3 and of HelloVerifyRequest are not entered. */
  type State = nat

  const START_CONNECT: State := 0
  const ENTER_EARLY_DATA: State := 1
  const READ_SERVER_HELLO: State := 3
  const READ_SERVER_CERTIFICATE: State := 5
  const READ_CERTIFICATE_STATUS: State := 6
  const VERIFY_SERVER_CERTIFICATE: State := 7
  const READ_SERVER_KEY_EXCHANGE: State := 8
  const READ_CERTIFICATE_REQUEST: State := 9
  const READ_SERVER_HELLO_DONE: State := 10
  const SEND_CLIENT_CERTIFICATE: State := 11
  const SEND_CLIENT_KEY_EXCHANGE: State := 12
  const SEND_CLIENT_CERTIFICATE_VERIFY: State := 13
  const SEND_CLIENT_FINISHED: State := 14
  const FINISH_FLIGHT: State := 15
  const READ_SESSION_TICKET: State := 16
  const CLIENT_PROCESS_CCS: State := 17
  const READ_SERVER_FINISHED: State := 18
  const FINISH_CLIENT_HANDSHAKE: State := 19

  const START_ACCEPT: State := 0
  const READ_CLIENT_HELLO: State := 1
  const SELECT_CERTIFICATE: State := 2
  const SELECT_PARAMETERS: State := 4
  const SEND_SERVER_HELLO: State := 5
  const SEND_SERVER_CERTIFICATE: State := 6
  const SEND_SERVER_KEY_EXCHANGE: State := 7
  const SEND_SERVER_HELLO_DONE: State := 8
  const READ_CLIENT_CERTIFICATE: State := 9
  const VERIFY_CLIENT_CERTIFICATE: State := 10
  const READ_CLIENT_KEY_EXCHANGE: State := 11
  const READ_CLIENT_CERTIFICATE_VERIFY: State := 12
  const READ_CHANGE_CIPHER_SPEC: State := 13
  const SERVER_PROCESS_CCS: State := 14
  const READ_NEXT_PROTO: State := 15
  const READ_CHANNEL_ID: State := 16
  const READ_CLIENT_FINISHED: State := 17
  const SEND_SERVER_FINISHED: State := 18
  const FINISH_SERVER_HANDSHAKE: State := 19

  const DONE: State := 20

  /** ssl_hs_wait_t; Async stands for every wait on a callback or an external operation. */
  datatype Wait = Continue | WaitMessage | WaitServerHello | WaitCcs | Flush | Async | Failed
  {
    predicate ReadsMessage() { WaitMessage? || WaitServerHello? }
  }

  /** SSL_HANDSHAKE and the parts of SSL3_STATE it works on. `inbox` is the message that get_message returns,
      `pending` the flight not yet flushed, `trace` everything queued and taken in so far. */
  datatype Hs = Hs(role: Role, state: State, wait: Wait, facts: Facts, certRequest: bool, peerCert: bool, params: bool,
                   readSecured: bool, writeSecured: bool, inbox: Option<Msg>, pending: seq<Body>,
                   transcript: seq<Msg>, trace: seq<Item>)

  /** The endpoint's settings. For a client only `hasCert` matters; `choice` is what the server's negotiation gives. */
  datatype Config = Config(hasCert: bool, choice: Facts, verifyPeer: bool, ifNoChannelId: bool, requireCert: bool,
                           pskHint: bool, originalHash: bool, emptyTicket: bool)

  /** What happens inside one step: something in it fails, or an operation asks to be retried later. */
  datatype Env = Env(fail: bool, retry: bool)

  const NO_FACTS: Facts := Facts(false, false, false, false, false, RsaCert)

  function Start(role: Role): Hs
  {
    Hs(role, if role.Client? then START_CONNECT else START_ACCEPT, Continue, NO_FACTS, false, false, false,
       false, false, None, [], [], [])
  }

  /** The handshake messages of a trace, in order. */
  function Messages(trace: seq<Item>): seq<Msg>
  {
    if trace == [] then []
    else
      var front, last := Messages(trace[..|trace| - 1]), trace[|trace| - 1];
      if last.body.Message? then front + [last.body.m] else front
  }

  function Bodies(items: seq<Item>): seq<Body> { seq(|items|, i requires 0 <= i < |items| => items[i].body) }

  // ---------------------------------------------------------------- primitives

  /** ssl_add_message_cbb: queue a message and hash it. */
  function AddMessage(hs: Hs, m: Msg): Hs
  {
    hs.(pending := hs.pending + [Message(m)], transcript := hs.transcript + [m],
        trace := hs.trace + [Item(hs.role, hs.writeSecured, Message(m))])
  }

  /** add_change_cipher_spec, and then the switch of the write cipher. */
  function ChangeWriteCipher(hs: Hs): Hs
  {
    hs.(pending := hs.pending + [Ccs], trace := hs.trace + [Item(hs.role, hs.writeSecured, Ccs)], writeSecured := true)
  }

  /** ssl_hash_message and next_message for the current message. */
  function HashAndTake(hs: Hs): Hs
    requires hs.inbox.Some?
  {
    hs.(transcript := hs.transcript + [hs.inbox.value], inbox := None,
        trace := hs.trace + [Item(hs.role.Peer(), hs.readSecured, Message(hs.inbox.value))])
  }

  /** What an ordinary step may do to the records of an endpoint: nothing, take the current message, or queue one. */
  ghost predicate Effect(hs: Hs, hs': Hs)
  {
    && hs'.role == hs.role && hs'.readSecured == hs.readSecured && hs'.writeSecured == hs.writeSecured
    && (Untouched(hs, hs') || (hs.inbox.Some? && !hs.inbox.value.Finished? && Untouched(HashAndTake(hs), hs'))
        || (hs'.transcript != [] && Queues(hs, hs', hs'.transcript[|hs'.transcript| - 1])))
  }

  predicate Queues(hs: Hs, hs': Hs, m: Msg) { !m.Finished? && Untouched(AddMessage(hs, m), hs') }

  /** The same messages in, out and hashed. */
  predicate Untouched(hs: Hs, hs': Hs)
  {
    hs'.inbox == hs.inbox && hs'.pending == hs.pending && hs'.transcript == hs.transcript && hs'.trace == hs.trace
  }

  /** Where a step leads: it fails, it waits where it is, or it goes on to `next`. */
  predicate LeadsTo(hs: Hs, r: (Hs, Wait), next: State)
  {
    ((r.1.Failed? || r.1.ReadsMessage() || r.1.Async?) && r.0 == hs) || (r.0.state == next && r.1.Continue?)
  }

  function Goto(hs: Hs, state: State): (Hs, Wait) { (hs.(state := state), Continue) }

  function Stop(hs: Hs, wait: Wait): (Hs, Wait) { (hs, wait) }

  /** ssl_send_finished */
  function SendFinished(hs: Hs): Hs { AddMessage(hs, Finished(hs.role, hs.transcript)) }

  /** ssl_get_finished, going on to `next` if the peer's Finished is the one for our transcript. */
  function GetFinished(hs: Hs, env: Env, next: State): (r: (Hs, Wait))
    ensures LeadsTo(hs, r, next) && r.0.role == hs.role && r.0.facts == hs.facts
    ensures r.1.Continue? ==> hs.inbox == Some(Finished(hs.role.Peer(), hs.transcript))
  {
    if hs.inbox.None? then Stop(hs, WaitMessage)
    else if !hs.inbox.value.Finished? || env.fail then Stop(hs, Failed)
    else if hs.inbox.value != Finished(hs.role.Peer(), hs.transcript) then Stop(hs, Failed)
    else Goto(HashAndTake(hs), next)
  }

  /** Switching the read cipher; it is refused while a message is still unprocessed. */
  function ChangeReadCipher(hs: Hs, env: Env, next: State): (Hs, Wait)
  {
    if env.fail || hs.inbox.Some? then Stop(hs, Failed) else Goto(hs.(readSecured := true), next)
  }

  // ---------------------------------------------------------------- client states

  function DoReadServerHello(hs: Hs, env: Env): (r: (Hs, Wait))
    ensures Effect(hs, r.0)
    ensures LeadsTo(hs, r, if r.0.facts.resumed then READ_SESSION_TICKET else READ_SERVER_CERTIFICATE)
  {
    if hs.inbox.None? then Stop(hs, WaitServerHello)
    else if !hs.inbox.value.ServerHello? || env.fail then Stop(hs, Failed)
    else
      var facts := hs.inbox.value.facts;
      Goto(HashAndTake(hs).(facts := facts), if facts.resumed then READ_SESSION_TICKET else READ_SERVER_CERTIFICATE)
  }

  function DoReadServerCertificate(hs: Hs, env: Env): (r: (Hs, Wait))
    ensures Effect(hs, r.0)
    ensures LeadsTo(hs, r, READ_CERTIFICATE_STATUS) && r.0.facts.resumed == hs.facts.resumed
  {
    if !hs.facts.suite.UsesCert() then Goto(hs, READ_CERTIFICATE_STATUS)
    else if hs.inbox.None? then Stop(hs, WaitMessage)
    else if !hs.inbox.value.Certificate? || env.fail || hs.inbox.value.empty then Stop(hs, Failed)
    else Goto(HashAndTake(hs), READ_CERTIFICATE_STATUS)
  }

  /** A server may announce CertificateStatus and then not send it. */
  function DoReadCertificateStatus(hs: Hs, env: Env): (r: (Hs, Wait))
    ensures Effect(hs, r.0)
    ensures LeadsTo(hs, r, VERIFY_SERVER_CERTIFICATE) && r.0.facts.resumed == hs.facts.resumed
  {
    if !hs.facts.ocsp then Goto(hs, VERIFY_SERVER_CERTIFICATE)
    else if hs.inbox.None? then Stop(hs, WaitMessage)
    else if !hs.inbox.value.CertificateStatus? then Goto(hs, VERIFY_SERVER_CERTIFICATE)
    else if env.fail then Stop(hs, Failed)
    else Goto(HashAndTake(hs), VERIFY_SERVER_CERTIFICATE)
  }

  function DoVerifyServerCertificate(hs: Hs, env: Env): (r: (Hs, Wait))
    ensures Effect(hs, r.0)
    ensures LeadsTo(hs, r, READ_SERVER_KEY_EXCHANGE) && r.0.facts.resumed == hs.facts.resumed
  {
    if !hs.facts.suite.UsesCert() then Goto(hs, READ_SERVER_KEY_EXCHANGE)
    else if env.fail then Stop(hs, Failed)
    else if env.retry then Stop(hs, Async)
    else Goto(hs, READ_SERVER_KEY_EXCHANGE)
  }

  function DoReadServerKeyExchange(hs: Hs, env: Env): (r: (Hs, Wait))
    ensures Effect(hs, r.0)
    ensures LeadsTo(hs, r, READ_CERTIFICATE_REQUEST) && r.0.facts.resumed == hs.facts.resumed
  {
    if hs.inbox.None? then Stop(hs, WaitMessage)
    else if !hs.inbox.value.ServerKeyExchange? then
      if hs.facts.suite.RequiresKeyExchange() then Stop(hs, Failed) else Goto(hs, READ_CERTIFICATE_REQUEST)
    else if env.fail || hs.facts.suite.RsaCert? then Stop(hs, Failed)
    else Goto(HashAndTake(hs), READ_CERTIFICATE_REQUEST)
  }

  function DoReadCertificateRequest(hs: Hs, env: Env): (r: (Hs, Wait))
    ensures Effect(hs, r.0)
    ensures LeadsTo(hs, r, READ_SERVER_HELLO_DONE) && r.0.facts.resumed == hs.facts.resumed
  {
    if !hs.facts.suite.UsesCert() then Goto(hs, READ_SERVER_HELLO_DONE)
    else if hs.inbox.None? then Stop(hs, WaitMessage)
    else if hs.inbox.value.ServerHelloDone? then Goto(hs, READ_SERVER_HELLO_DONE)
    else if !hs.inbox.value.CertificateRequest? || env.fail then Stop(hs, Failed)
    else Goto(HashAndTake(hs).(certRequest := true), READ_SERVER_HELLO_DONE)
  }

  function DoReadServerHelloDone(hs: Hs, env: Env): (r: (Hs, Wait))
    ensures Effect(hs, r.0)
    ensures LeadsTo(hs, r, SEND_CLIENT_CERTIFICATE) && r.0.facts.resumed == hs.facts.resumed
  {
    if hs.inbox.None? then Stop(hs, WaitMessage)
    else if !hs.inbox.value.ServerHelloDone? || env.fail then Stop(hs, Failed)
    else Goto(HashAndTake(hs), SEND_CLIENT_CERTIFICATE)
  }

  function DoSendClientCertificate(hs: Hs, cfg: Config, env: Env): (r: (Hs, Wait))
    ensures Effect(hs, r.0)
    ensures LeadsTo(hs, r, SEND_CLIENT_KEY_EXCHANGE) && r.0.facts.resumed == hs.facts.resumed
  {
    if !hs.certRequest then Goto(hs, SEND_CLIENT_KEY_EXCHANGE)
    else if env.fail then Stop(hs, Failed)
    else if env.retry then Stop(hs, Async)
    else Goto(AddMessage(hs, Certificate(!cfg.hasCert)), SEND_CLIENT_KEY_EXCHANGE)
  }

  function DoSendClientKeyExchange(hs: Hs, env: Env): (r: (Hs, Wait))
    ensures Effect(hs, r.0)
    ensures LeadsTo(hs, r, SEND_CLIENT_CERTIFICATE_VERIFY) && r.0.facts.resumed == hs.facts.resumed
  {
    if env.fail then Stop(hs, Failed) else Goto(AddMessage(hs, ClientKeyExchange), SEND_CLIENT_CERTIFICATE_VERIFY)
  }

  function DoSendClientCertificateVerify(hs: Hs, cfg: Config, env: Env): (r: (Hs, Wait))
    ensures Effect(hs, r.0)
    ensures LeadsTo(hs, r, SEND_CLIENT_FINISHED) && r.0.facts.resumed == hs.facts.resumed
  {
    if !hs.certRequest || !cfg.hasCert then Goto(hs, SEND_CLIENT_FINISHED)
    else if env.fail then Stop(hs, Failed)
    else if env.retry then Stop(hs, Async)
    else Goto(AddMessage(hs, CertificateVerify), SEND_CLIENT_FINISHED)
  }

  /** The lookup of the Channel ID comes first, before anything that must not be done twice. */
  function DoSendClientFinished(hs: Hs, env: Env): (Hs, Wait)
  {
    if env.fail then Stop(hs, Failed)
    else if hs.facts.channelId && env.retry then Stop(hs, Async)
    else
      var hs1 := ChangeWriteCipher(hs);
      var hs2 := if hs.facts.npn then AddMessage(hs1, NextProto) else hs1;
      var hs3 := if hs.facts.channelId then AddMessage(hs2, ChannelId) else hs2;
      (SendFinished(hs3).(state := FINISH_FLIGHT), Flush)
  }

  function DoFinishFlight(hs: Hs, env: Env): (r: (Hs, Wait))
    ensures Effect(hs, r.0)
    ensures LeadsTo(hs, r, if hs.facts.resumed then FINISH_CLIENT_HANDSHAKE else READ_SESSION_TICKET) && r.0.facts.resumed == hs.facts.resumed
  {
    if hs.facts.resumed then Goto(hs, FINISH_CLIENT_HANDSHAKE)
    else if env.fail then Stop(hs, Failed)
    else Goto(hs, READ_SESSION_TICKET)
  }

  function DoReadSessionTicket(hs: Hs, env: Env): (r: (Hs, Wait))
    ensures Effect(hs, r.0)
    ensures ((r.1.Failed? || r.1.WaitMessage?) && r.0 == hs) || (r.0.state == CLIENT_PROCESS_CCS && r.1.WaitCcs?)
    ensures r.0.facts.resumed == hs.facts.resumed
  {
    if !hs.facts.ticket then (hs.(state := CLIENT_PROCESS_CCS), WaitCcs)
    else if hs.inbox.None? then Stop(hs, WaitMessage)
    else if !hs.inbox.value.NewSessionTicket? || env.fail then Stop(hs, Failed)
    else (HashAndTake(hs).(state := CLIENT_PROCESS_CCS), WaitCcs)
  }

  function DoClient(hs: Hs, cfg: Config, env: Env): (Hs, Wait)
  {
    if hs.state == START_CONNECT then if env.fail then Stop(hs, Failed) else (AddMessage(hs, ClientHello).(state := ENTER_EARLY_DATA), Flush)
    else if hs.state == ENTER_EARLY_DATA then Goto(hs, READ_SERVER_HELLO)
    else if hs.state == READ_SERVER_HELLO then DoReadServerHello(hs, env)
    else if hs.state == READ_SERVER_CERTIFICATE then DoReadServerCertificate(hs, env)
    else if hs.state == READ_CERTIFICATE_STATUS then DoReadCertificateStatus(hs, env)
    else if hs.state == VERIFY_SERVER_CERTIFICATE then DoVerifyServerCertificate(hs, env)
    else if hs.state == READ_SERVER_KEY_EXCHANGE then DoReadServerKeyExchange(hs, env)
    else if hs.state == READ_CERTIFICATE_REQUEST then DoReadCertificateRequest(hs, env)
    else if hs.state == READ_SERVER_HELLO_DONE then DoReadServerHelloDone(hs, env)
    else if hs.state == SEND_CLIENT_CERTIFICATE then DoSendClientCertificate(hs, cfg, env)
    else if hs.state == SEND_CLIENT_KEY_EXCHANGE then DoSendClientKeyExchange(hs, env)
    else if hs.state == SEND_CLIENT_CERTIFICATE_VERIFY then DoSendClientCertificateVerify(hs, cfg, env)
    else if hs.state == SEND_CLIENT_FINISHED then DoSendClientFinished(hs, env)
    else if hs.state == FINISH_FLIGHT then DoFinishFlight(hs, env)
    else if hs.state == READ_SESSION_TICKET then DoReadSessionTicket(hs, env)
    else if hs.state == CLIENT_PROCESS_CCS then ChangeReadCipher(hs, env, READ_SERVER_FINISHED)
    else if hs.state == READ_SERVER_FINISHED then GetFinished(hs, env, if hs.facts.resumed then SEND_CLIENT_FINISHED else FINISH_CLIENT_HANDSHAKE)
    else if hs.state == FINISH_CLIENT_HANDSHAKE then if env.fail then Stop(hs, Failed) else Goto(hs, DONE)
    else Stop(hs, Failed)
  }

  // ---------------------------------------------------------------- server states

  function DoReadClientHello(hs: Hs, env: Env): (r: (Hs, Wait))
    ensures Effect(hs, r.0)
    ensures LeadsTo(hs, r, SELECT_CERTIFICATE) && r.0.facts.resumed == hs.facts.resumed
  {
    if hs.inbox.None? then Stop(hs, WaitMessage)
    else if !hs.inbox.value.ClientHello? then Stop(hs, Failed)
    else if env.retry then Stop(hs, Async)
    else if env.fail then Stop(hs, Failed)
    else Goto(hs, SELECT_CERTIFICATE)
  }

  function DoSelectCertificate(hs: Hs, cfg: Config, env: Env): (r: (Hs, Wait))
    ensures Effect(hs, r.0)
    ensures LeadsTo(hs, r, SELECT_PARAMETERS) && r.0.facts.resumed == hs.facts.resumed
  {
    if hs.inbox.None? then Stop(hs, WaitMessage)
    else if env.fail then Stop(hs, Failed)
    else if env.retry then Stop(hs, Async)
    else Goto(hs.(facts := hs.facts.(suite := cfg.choice.suite)), SELECT_PARAMETERS)
  }

  /** The ClientHello, looked at in three states, is hashed and taken here. */
  function DoSelectParameters(hs: Hs, cfg: Config, env: Env): (r: (Hs, Wait))
    ensures hs.inbox == Some(ClientHello) ==> Effect(hs, r.0)
    ensures LeadsTo(hs, r, SEND_SERVER_HELLO)
  {
    if hs.inbox.None? then Stop(hs, WaitMessage)
    else if env.retry then Stop(hs, Async)
    else if env.fail then Stop(hs, Failed)
    else
      var request := !cfg.choice.resumed && cfg.verifyPeer && !(cfg.ifNoChannelId && cfg.choice.channelId) && hs.facts.suite.UsesCert();
      Goto(HashAndTake(hs).(facts := cfg.choice.(suite := hs.facts.suite), certRequest := request), SEND_SERVER_HELLO)
  }

  /** Channel IDs are accepted only with ECDHE, and on resumption only if the original hash is known. */
  function FinalFacts(facts: Facts, cfg: Config): Facts
  {
    facts.(channelId := facts.channelId && facts.suite.Ecdhe() && (facts.resumed ==> cfg.originalHash))
  }

  function DoSendServerHello(hs: Hs, cfg: Config, env: Env): (r: (Hs, Wait))
    ensures Effect(hs, r.0)
    ensures LeadsTo(hs, r, if r.0.facts.resumed then SEND_SERVER_FINISHED else SEND_SERVER_CERTIFICATE) && r.0.facts.resumed == hs.facts.resumed
  {
    if env.fail then Stop(hs, Failed)
    else
      var facts := FinalFacts(hs.facts, cfg);
      Goto(AddMessage(hs.(facts := facts), ServerHello(facts)), if facts.resumed then SEND_SERVER_FINISHED else SEND_SERVER_CERTIFICATE)
  }

  function DoSendServerCertificate(hs: Hs, cfg: Config, env: Env): (r: (Hs, Wait))
    ensures LeadsTo(hs, r, SEND_SERVER_KEY_EXCHANGE) && r.0.facts.resumed == hs.facts.resumed
  {
    if env.fail then Stop(hs, Failed)
    else
      var hs1 := if hs.facts.suite.UsesCert() then AddMessage(hs, Certificate(false)) else hs;
      var hs2 := if hs.facts.suite.UsesCert() && hs.facts.ocsp then AddMessage(hs1, CertificateStatus) else hs1;
      var params := hs.facts.suite.RequiresKeyExchange() || (!hs.facts.suite.UsesCert() && cfg.pskHint);
      Goto(hs2.(params := params), SEND_SERVER_KEY_EXCHANGE)
  }

  function DoSendServerKeyExchange(hs: Hs, env: Env): (r: (Hs, Wait))
    ensures Effect(hs, r.0)
    ensures LeadsTo(hs, r, SEND_SERVER_HELLO_DONE) && r.0.facts.resumed == hs.facts.resumed
  {
    if !hs.params then Goto(hs, SEND_SERVER_HELLO_DONE)
    else if env.fail then Stop(hs, Failed)
    else if hs.facts.suite.UsesCert() && env.retry then Stop(hs, Async)
    else Goto(AddMessage(hs, ServerKeyExchange).(params := false), SEND_SERVER_HELLO_DONE)
  }

  function DoSendServerHelloDone(hs: Hs, env: Env): (r: (Hs, Wait))
    ensures (r.1.Failed? && r.0 == hs) || (r.0.state == READ_CLIENT_CERTIFICATE && r.1.Flush?)
    ensures r.0.facts == hs.facts
  {
    if env.fail then Stop(hs, Failed)
    else
      var hs1 := if hs.certRequest then AddMessage(hs, CertificateRequest) else hs;
      (AddMessage(hs1, ServerHelloDone).(state := READ_CLIENT_CERTIFICATE), Flush)
  }

  function DoReadClientCertificate(hs: Hs, cfg: Config, env: Env): (r: (Hs, Wait))
    ensures Effect(hs, r.0)
    ensures LeadsTo(hs, r, VERIFY_CLIENT_CERTIFICATE) && r.0.facts.resumed == hs.facts.resumed
  {
    if !hs.certRequest then Goto(hs, VERIFY_CLIENT_CERTIFICATE)
    else if hs.inbox.None? then Stop(hs, WaitMessage)
    else if !hs.inbox.value.Certificate? || env.fail || (hs.inbox.value.empty && cfg.requireCert) then Stop(hs, Failed)
    else Goto(HashAndTake(hs).(peerCert := !hs.inbox.value.empty), VERIFY_CLIENT_CERTIFICATE)
  }

  function DoVerifyClientCertificate(hs: Hs, env: Env): (r: (Hs, Wait))
    ensures Effect(hs, r.0)
    ensures LeadsTo(hs, r, READ_CLIENT_KEY_EXCHANGE) && r.0.facts.resumed == hs.facts.resumed
  {
    if !hs.peerCert then Goto(hs, READ_CLIENT_KEY_EXCHANGE)
    else if env.fail then Stop(hs, Failed)
    else if env.retry then Stop(hs, Async)
    else Goto(hs, READ_CLIENT_KEY_EXCHANGE)
  }

  function DoReadClientKeyExchange(hs: Hs, env: Env): (r: (Hs, Wait))
    ensures Effect(hs, r.0)
    ensures LeadsTo(hs, r, READ_CLIENT_CERTIFICATE_VERIFY) && r.0.facts.resumed == hs.facts.resumed
  {
    if hs.inbox.None? then Stop(hs, WaitMessage)
    else if !hs.inbox.value.ClientKeyExchange? || env.fail then Stop(hs, Failed)
    else if hs.facts.suite.RsaCert? && env.retry then Stop(hs, Async)
    else Goto(HashAndTake(hs), READ_CLIENT_CERTIFICATE_VERIFY)
  }

  function DoReadClientCertificateVerify(hs: Hs, env: Env): (r: (Hs, Wait))
    ensures Effect(hs, r.0)
    ensures LeadsTo(hs, r, READ_CHANGE_CIPHER_SPEC) && r.0.facts.resumed == hs.facts.resumed
  {
    if !hs.peerCert then Goto(hs, READ_CHANGE_CIPHER_SPEC)
    else if hs.inbox.None? then Stop(hs, WaitMessage)
    else if !hs.inbox.value.CertificateVerify? || env.fail then Stop(hs, Failed)
    else Goto(HashAndTake(hs), READ_CHANGE_CIPHER_SPEC)
  }

  function DoReadNextProto(hs: Hs, env: Env): (r: (Hs, Wait))
    ensures Effect(hs, r.0)
    ensures LeadsTo(hs, r, READ_CHANNEL_ID) && r.0.facts.resumed == hs.facts.resumed
  {
    if !hs.facts.npn then Goto(hs, READ_CHANNEL_ID)
    else if hs.inbox.None? then Stop(hs, WaitMessage)
    else if !hs.inbox.value.NextProto? || env.fail then Stop(hs, Failed)
    else Goto(HashAndTake(hs), READ_CHANNEL_ID)
  }

  function DoReadChannelId(hs: Hs, env: Env): (r: (Hs, Wait))
    ensures Effect(hs, r.0)
    ensures LeadsTo(hs, r, READ_CLIENT_FINISHED) && r.0.facts.resumed == hs.facts.resumed
  {
    if !hs.facts.channelId then Goto(hs, READ_CLIENT_FINISHED)
    else if hs.inbox.None? then Stop(hs, WaitMessage)
    else if !hs.inbox.value.ChannelId? || env.fail then Stop(hs, Failed)
    else Goto(HashAndTake(hs), READ_CLIENT_FINISHED)
  }

  function DoSendServerFinished(hs: Hs, cfg: Config, env: Env): (Hs, Wait)
  {
    if env.fail then Stop(hs, Failed)
    else
      var hs1 := if hs.facts.ticket then AddMessage(hs, NewSessionTicket(cfg.emptyTicket)) else hs;
      var hs2 := SendFinished(ChangeWriteCipher(hs1));
      (hs2.(state := if hs.facts.resumed then READ_CHANGE_CIPHER_SPEC else FINISH_SERVER_HANDSHAKE), Flush)
  }

  function DoServer(hs: Hs, cfg: Config, env: Env): (Hs, Wait)
  {
    if hs.state == START_ACCEPT then Goto(hs, READ_CLIENT_HELLO)
    else if hs.state == READ_CLIENT_HELLO then DoReadClientHello(hs, env)
    else if hs.state == SELECT_CERTIFICATE then DoSelectCertificate(hs, cfg, env)
    else if hs.state == SELECT_PARAMETERS then DoSelectParameters(hs, cfg, env)
    else if hs.state == SEND_SERVER_HELLO then DoSendServerHello(hs, cfg, env)
    else if hs.state == SEND_SERVER_CERTIFICATE then DoSendServerCertificate(hs, cfg, env)
    else if hs.state == SEND_SERVER_KEY_EXCHANGE then DoSendServerKeyExchange(hs, env)
    else if hs.state == SEND_SERVER_HELLO_DONE then DoSendServerHelloDone(hs, env)
    else if hs.state == READ_CLIENT_CERTIFICATE then DoReadClientCertificate(hs, cfg, env)
    else if hs.state == VERIFY_CLIENT_CERTIFICATE then DoVerifyClientCertificate(hs, env)
    else if hs.state == READ_CLIENT_KEY_EXCHANGE then DoReadClientKeyExchange(hs, env)
    else if hs.state == READ_CLIENT_CERTIFICATE_VERIFY then DoReadClientCertificateVerify(hs, env)
    else if hs.state == READ_CHANGE_CIPHER_SPEC then (hs.(state := SERVER_PROCESS_CCS), WaitCcs)
    else if hs.state == SERVER_PROCESS_CCS then ChangeReadCipher(hs, env, READ_NEXT_PROTO)
    else if hs.state == READ_NEXT_PROTO then DoReadNextProto(hs, env)
    else if hs.state == READ_CHANNEL_ID then DoReadChannelId(hs, env)
    else if hs.state == READ_CLIENT_FINISHED then GetFinished(hs, env, if hs.facts.resumed then FINISH_SERVER_HANDSHAKE else SEND_SERVER_FINISHED)
    else if hs.state == SEND_SERVER_FINISHED then DoSendServerFinished(hs, cfg, env)
    else if hs.state == FINISH_SERVER_HANDSHAKE then if env.fail then Stop(hs, Failed) else Goto(hs, DONE)
    else Stop(hs, Failed)
  }

  /** One round of ssl_client_handshake or ssl_server_handshake, with the result left in `wait`. */
  function Do(hs: Hs, cfg: Config, env: Env): Hs
  {
    var (hs', wait) := if hs.role.Client? then DoClient(hs, cfg, env) else DoServer(hs, cfg, env);
    hs'.(wait := wait)
  }

  /** ssl_run_handshake resolves a read: a record of the kind waited for, anything else is an error. A received
      ChangeCipherSpec is accounted for here, a message when it is taken. */
  function Resolve(hs: Hs, body: Body): Hs
  {
    if hs.wait.ReadsMessage() && body.Message? && hs.inbox.None? then hs.(inbox := Some(body.m), wait := Continue)
    else if hs.wait.WaitCcs? && body.Ccs? then
      hs.(trace := hs.trace + [Item(hs.role.Peer(), hs.readSecured, Ccs)], wait := Continue)
    else hs.(wait := Failed)
  }

  /** ssl_run_handshake flushes the flight. */
  function Flushed(hs: Hs): Hs { hs.(pending := [], wait := Continue) }

  /** The caller comes back after an asynchronous wait. */
  function Reentered(hs: Hs): Hs { hs.(wait := Continue) }
}
