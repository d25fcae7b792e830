/** An endpoint that meets no failure works through the script: each step deals with the next items of it. */
module HsFollow {
  import opened Common
  import opened HsModel
  import opened HsSafety
  import opened HsScript

  /** The endpoint's settings are those that the plan was made from, and suffice for it. */
  predicate Suits(p: Plan, role: Role, cfg: Config)
  {
    && (p.keyExchange ==> !p.facts.suite.RsaCert?) && (p.facts.suite.RequiresKeyExchange() ==> p.keyExchange)
    && (p.certRequest ==> p.SendsCert() && !p.facts.resumed)
    && if role.Client? then p.hasCert == cfg.hasCert
    else p == PlanOf(Config(p.hasCert, cfg.choice, false, false, false, false, false, false), cfg) && (p.certRequest && cfg.requireCert ==> p.hasCert)
  }

  /** What the endpoint has settled so far is what the plan says. */
  predicate Agrees(hs: Hs, p: Plan, cfg: Config)
  {
    var s := hs.state;
    if hs.role.Client? then
      (s > READ_SERVER_HELLO ==> hs.facts == p.facts) && hs.certRequest == (p.certRequest && s >= READ_SERVER_HELLO_DONE)
    else
      && (s == SELECT_PARAMETERS ==> hs.facts.suite == cfg.choice.suite)
      && (s == SEND_SERVER_HELLO ==> hs.facts == cfg.choice)
      && (s > SEND_SERVER_HELLO ==> hs.facts == p.facts)
      && (s >= SEND_SERVER_HELLO ==> hs.certRequest == p.certRequest)
      && hs.peerCert == (p.SendsVerify() && s >= VERIFY_CLIENT_CERTIFICATE)
      && (s == SEND_SERVER_KEY_EXCHANGE ==> hs.params == p.keyExchange)
  }

  predicate Secured(hs: Hs, p: Plan)
  {
    hs.readSecured == Switched(hs.role, hs.state, p.facts.resumed) && hs.writeSecured == Wrote(hs.role, hs.state, p.facts.resumed)
  }

  /** What the current step still has to deal with: the ChangeCipherSpec was dealt with when it arrived. */
  function Todo(hs: Hs, p: Plan): seq<Kind>
  {
    if hs.state == ProcessCcs(hs.role) && !hs.wait.WaitCcs? then [] else Head(p, hs.role, hs.state)
  }

  /** The item is the current message. */
  predicate IsCurrent(hs: Hs, k: Kind)
  {
    hs.inbox.Some? && Real(k, hs.transcript) == Item(hs.role.Peer(), hs.readSecured, Message(hs.inbox.value))
  }

  /** States that look at a message which a later state takes. */
  predicate Peeks(role: Role, s: State)
  {
    if role.Client? then READ_CERTIFICATE_STATUS <= s <= READ_CERTIFICATE_REQUEST
    else READ_CLIENT_HELLO <= s <= SELECT_CERTIFICATE
  }

  /** The messages that a state which may leave the current message alone can meet in the script. */
  predicate MayPeek(p: Plan, role: Role, s: State, k: Kind)
  {
    if role.Server? then k == FromClient(ClientHello)
    else if s == READ_CERTIFICATE_REQUEST then k == FromServer(ServerHelloDone)
    else
      || k == FromServer(ServerHelloDone) || k == FromServer(CertificateRequest)
      || (s == READ_CERTIFICATE_STATUS && k == FromServer(ServerKeyExchange) && p.keyExchange)
      || (s == VERIFY_SERVER_CERTIFICATE && k == FromServer(ServerKeyExchange) && p.keyExchange)
  }

  /** The current message, if there is one, is the next one of the script. */
  ghost predicate Expected(hs: Hs, p: Plan)
  {
    hs.inbox.Some? ==>
      if Todo(hs, p) != [] then IsCurrent(hs, Todo(hs, p)[0])
      else if Peeks(hs.role, hs.state) then exists k :: MayPeek(p, hs.role, hs.state, k) && IsCurrent(hs, k)
      else hs.state != ProcessCcs(hs.role)
  }

  /** States in which a flight is being put together. */
  predicate Sending(role: Role, s: State)
  {
    if role.Client? then SEND_CLIENT_KEY_EXCHANGE <= s <= SEND_CLIENT_FINISHED
    else SEND_SERVER_CERTIFICATE <= s <= SEND_SERVER_HELLO_DONE || s == SEND_SERVER_FINISHED
  }

  predicate FlushesInTime(hs: Hs) { hs.pending != [] ==> hs.wait.Flush? || Sending(hs.role, hs.state) }

  /** Ready for a step in which nothing fails. */
  ghost predicate Ready(hs: Hs, p: Plan, cfg: Config, env: Env)
  {
    && hs.wait.Continue? && hs.state != DONE && Fits(hs) && Visited(p, hs.role, hs.state) && !env.fail
    && Suits(p, hs.role, cfg) && Agrees(hs, p, cfg) && Secured(hs, p) && Expected(hs, p) && FlushesInTime(hs)
  }

  // ---------------------------------------------------------------- effects

  /** From hs to r the endpoint has gone through `kinds`. */
  predicate Goes(hs: Hs, r: Hs, kinds: seq<Kind>)
  {
    r.role == hs.role && r.trace == hs.trace + Fill(hs.transcript, kinds) && r.transcript == HeardAll(hs.transcript, kinds)
  }

  predicate Sends(hs: Hs, r: Hs, kinds: seq<Kind>)
  {
    Goes(hs, r, kinds) && r.inbox == hs.inbox && r.pending == hs.pending + Bodies(Fill(hs.transcript, kinds))
    && forall i :: 0 <= i < |kinds| ==> kinds[i].sender == hs.role
  }

  predicate Takes(hs: Hs, r: Hs, kinds: seq<Kind>)
  {
    Goes(hs, r, kinds) && |kinds| == 1 && IsCurrent(hs, kinds[0]) && r.inbox.None? && r.pending == hs.pending
  }

  lemma AddMessageSends(hs: Hs, m: Msg)
    ensures Sends(hs, AddMessage(hs, m), [Plain(hs.role, hs.writeSecured, m)])
  {
    var k := Plain(hs.role, hs.writeSecured, m);
    assert Fill(hs.transcript, [k]) == [Real(k, hs.transcript)];
    assert Bodies([Real(k, hs.transcript)]) == [Message(m)];
  }

  lemma ChangeCipherSends(hs: Hs)
    requires !hs.writeSecured
    ensures Sends(hs, ChangeWriteCipher(hs), [CcsBy(hs.role)])
  {
    var k := CcsBy(hs.role);
    assert Fill(hs.transcript, [k]) == [Real(k, hs.transcript)];
    assert Bodies([Real(k, hs.transcript)]) == [Ccs];
  }

  lemma FinishedSends(hs: Hs)
    requires hs.writeSecured
    ensures Sends(hs, SendFinished(hs), [FinishedBy(hs.role)])
  {
    var k := FinishedBy(hs.role);
    assert Fill(hs.transcript, [k]) == [Real(k, hs.transcript)];
    assert Bodies([Real(k, hs.transcript)]) == [Message(Finished(hs.role, hs.transcript))];
  }

  lemma TakeTakes(hs: Hs, k: Kind)
    requires IsCurrent(hs, k)
    ensures Takes(hs, HashAndTake(hs), [k])
  {
    assert Fill(hs.transcript, [k]) == [Real(k, hs.transcript)];
  }

  lemma {:induction false} HeardAppend(transcript: seq<Msg>, a: seq<Kind>, b: seq<Kind>)
    ensures HeardAll(transcript, a + b) == HeardAll(HeardAll(transcript, a), b)
    decreases |a|
  {
    if a == [] {
      assert a + b == b;
    } else {
      assert (a + b)[1..] == a[1..] + b;
      HeardAppend(Heard(transcript, Real(a[0], transcript)), a[1..], b);
    }
  }

  lemma SendsNothing(hs: Hs)
    ensures Sends(hs, hs, [])
  {
  }

  lemma SendsMore(hs: Hs, mid: Hs, r: Hs, a: seq<Kind>, b: seq<Kind>)
    requires Sends(hs, mid, a) && Sends(mid, r, b)
    ensures Sends(hs, r, a + b)
  {
    FillAppend(hs.transcript, a, b);
    HeardAppend(hs.transcript, a, b);
    hide Fill, HeardAll;
    var fa, fb := Fill(hs.transcript, a), Fill(mid.transcript, b);
    assert Bodies(fa + fb) == Bodies(fa) + Bodies(fb);
  }

  // ---------------------------------------------------------------- one step

  predicate Awaited(k: Kind, role: Role) { k.sender == role.Peer() && !k.CcsBy? }

  /** The step is done: what the state deals with has been dealt with. */
  ghost predicate Advanced(hs: Hs, r: Hs, p: Plan, cfg: Config)
  {
    && (Sends(hs, r, Todo(hs, p)) || Takes(hs, r, Todo(hs, p)))
    && r.state == Succ(p, hs.role, hs.state) && Agrees(r, p, cfg) && FlushesInTime(r)
    && (r.wait.Continue? || r.wait.Flush? || r.wait.WaitCcs?) && (r.wait.WaitCcs? <==> BeforeCcs(hs.role, hs.state))
    && (r.state == DONE ==> r.wait.Continue?)
  }

  /** The step has to be repeated, waits for the next item of the script, or is done. */
  ghost predicate Progress(hs: Hs, r: Hs, p: Plan, cfg: Config, env: Env)
  {
    || (env.retry && r == hs.(wait := Async))
    || (r.wait.ReadsMessage() && r == hs.(wait := r.wait) && hs.inbox.None?
        && if Todo(hs, p) == [] then Peeks(hs.role, hs.state) else Awaited(Todo(hs, p)[0], hs.role))
    || Advanced(hs, r, p, cfg)
  }

  lemma TakesFirst(hs: Hs, p: Plan, cfg: Config, env: Env)
    requires Ready(hs, p, cfg, env) && hs.inbox.Some? && |Todo(hs, p)| == 1
    ensures Takes(hs, HashAndTake(hs), Todo(hs, p))
  {
    TakeTakes(hs, Todo(hs, p)[0]);
  }

  lemma ReadServerHelloStep(hs: Hs, p: Plan, cfg: Config, env: Env)
    requires Ready(hs, p, cfg, env) && hs.role.Client? && hs.state == READ_SERVER_HELLO
    ensures Progress(hs, Do(hs, cfg, env), p, cfg, env)
  {
    hide Fill, HeardAll;
    if hs.inbox.Some? { TakesFirst(hs, p, cfg, env); }
    SendsNothing(hs);
  }

  lemma ClientTakes(hs: Hs, p: Plan, cfg: Config, env: Env)
    requires Ready(hs, p, cfg, env) && hs.role.Client?
    requires (hs.state == READ_SERVER_CERTIFICATE || hs.state == READ_SERVER_HELLO_DONE || hs.state == READ_SESSION_TICKET)
    ensures Progress(hs, Do(hs, cfg, env), p, cfg, env)
  {
    hide Fill, HeardAll, DoServer, ServerHead;
    if hs.inbox.Some? && Todo(hs, p) != [] { TakesFirst(hs, p, cfg, env); }
    SendsNothing(hs);
  }

  lemma ClientPeeks(hs: Hs, p: Plan, cfg: Config, env: Env)
    requires Ready(hs, p, cfg, env) && hs.role.Client?
    requires (hs.state == READ_CERTIFICATE_STATUS || hs.state == READ_SERVER_KEY_EXCHANGE || hs.state == READ_CERTIFICATE_REQUEST)
    ensures Progress(hs, Do(hs, cfg, env), p, cfg, env)
  {
    hide Fill, HeardAll, DoServer, ServerHead;
    if hs.inbox.Some? && Todo(hs, p) != [] { TakesFirst(hs, p, cfg, env); }
    SendsNothing(hs);
  }

  lemma ClientPasses(hs: Hs, p: Plan, cfg: Config, env: Env)
    requires Ready(hs, p, cfg, env) && hs.role.Client?
    requires hs.state == ENTER_EARLY_DATA || hs.state == VERIFY_SERVER_CERTIFICATE || hs.state == FINISH_FLIGHT || hs.state == FINISH_CLIENT_HANDSHAKE
    ensures Progress(hs, Do(hs, cfg, env), p, cfg, env)
  {
    hide Fill, HeardAll, DoServer, ServerHead;
    SendsNothing(hs);
  }

  lemma ClientSends(hs: Hs, p: Plan, cfg: Config, env: Env)
    requires Ready(hs, p, cfg, env) && hs.role.Client?
    requires hs.state == START_CONNECT || SEND_CLIENT_CERTIFICATE <= hs.state <= SEND_CLIENT_CERTIFICATE_VERIFY
    ensures Progress(hs, Do(hs, cfg, env), p, cfg, env)
  {
    hide Fill, HeardAll, DoServer, ServerHead;
    SendsNothing(hs);
    AddMessageSends(hs, if hs.state == START_CONNECT then ClientHello else if hs.state == SEND_CLIENT_CERTIFICATE then Certificate(!cfg.hasCert)
                        else if hs.state == SEND_CLIENT_KEY_EXCHANGE then ClientKeyExchange else CertificateVerify);
  }

  /** Queueing a message or not, as the plan has it. */
  lemma MaybeSends(hs: Hs, b: bool, m: Msg)
    ensures Sends(hs, if b then AddMessage(hs, m) else hs, Opt(b, Plain(hs.role, hs.writeSecured, m)))
  {
    if b { AddMessageSends(hs, m); } else { SendsNothing(hs); }
  }

  lemma ClientFlightSends(hs: Hs, p: Plan)
    requires hs.role.Client? && !hs.writeSecured
    ensures var hs1 := ChangeWriteCipher(hs);
      var hs2 := if p.facts.npn then AddMessage(hs1, NextProto) else hs1;
      var hs3 := if p.facts.channelId then AddMessage(hs2, ChannelId) else hs2;
      Sends(hs, SendFinished(hs3), LastFromClient(p))
  {
    var hs1 := ChangeWriteCipher(hs);
    var hs2 := if p.facts.npn then AddMessage(hs1, NextProto) else hs1;
    var hs3 := if p.facts.channelId then AddMessage(hs2, ChannelId) else hs2;
    var npn, channelId := Opt(p.facts.npn, Plain(Client, true, NextProto)), Opt(p.facts.channelId, Plain(Client, true, ChannelId));
    hide Sends, Opt;
    ChangeCipherSends(hs);
    MaybeSends(hs1, p.facts.npn, NextProto);
    MaybeSends(hs2, p.facts.channelId, ChannelId);
    FinishedSends(hs3);
    SendsMore(hs2, hs3, SendFinished(hs3), channelId, [FinishedBy(Client)]);
    SendsMore(hs1, hs2, SendFinished(hs3), npn, channelId + [FinishedBy(Client)]);
    SendsMore(hs, hs1, SendFinished(hs3), [CcsBy(Client)], npn + (channelId + [FinishedBy(Client)]));
  }

  lemma ClientFinishes(hs: Hs, p: Plan, cfg: Config, env: Env)
    requires Ready(hs, p, cfg, env) && hs.role.Client? && hs.state == SEND_CLIENT_FINISHED
    ensures Progress(hs, Do(hs, cfg, env), p, cfg, env)
  {
    DoClientFinished(hs, cfg, env);
    ClientFlightSends(hs, p);
    hide Fill, HeardAll, LastFromClient, Expected, DoServer, ServerHead;
  }

  lemma ServerFlightSends(hs: Hs, p: Plan)
    requires hs.role.Server? && !hs.writeSecured
    ensures var hs1 := if p.facts.ticket then AddMessage(hs, NewSessionTicket(p.emptyTicket)) else hs;
      Sends(hs, SendFinished(ChangeWriteCipher(hs1)), LastFromServer(p))
  {
    var hs1 := if p.facts.ticket then AddMessage(hs, NewSessionTicket(p.emptyTicket)) else hs;
    var hs2 := ChangeWriteCipher(hs1);
    hide Sends, Opt;
    MaybeSends(hs, p.facts.ticket, NewSessionTicket(p.emptyTicket));
    ChangeCipherSends(hs1);
    FinishedSends(hs2);
    SendsMore(hs1, hs2, SendFinished(hs2), [CcsBy(Server)], [FinishedBy(Server)]);
    SendsMore(hs, hs1, SendFinished(hs2), Opt(p.facts.ticket, FromServer(NewSessionTicket(p.emptyTicket))), [CcsBy(Server)] + [FinishedBy(Server)]);
    assert [CcsBy(Server)] + [FinishedBy(Server)] == [CcsBy(Server), FinishedBy(Server)];
  }

  lemma ServerFinishes(hs: Hs, p: Plan, cfg: Config, env: Env)
    requires Ready(hs, p, cfg, env) && hs.role.Server? && hs.state == SEND_SERVER_FINISHED
    ensures Progress(hs, Do(hs, cfg, env), p, cfg, env)
  {
    DoServerFinished(hs, cfg, env);
    ServerFlightSends(hs, p);
    hide Fill, HeardAll, LastFromServer, Expected, DoClient, ClientHead;
  }

  lemma ServerPasses(hs: Hs, p: Plan, cfg: Config, env: Env)
    requires Ready(hs, p, cfg, env) && hs.role.Server?
    requires hs.state in {START_ACCEPT, VERIFY_CLIENT_CERTIFICATE, READ_CHANGE_CIPHER_SPEC, SERVER_PROCESS_CCS, FINISH_SERVER_HANDSHAKE}
    ensures Progress(hs, Do(hs, cfg, env), p, cfg, env)
  {
    hide Fill, HeardAll, DoClient, ClientHead;
    SendsNothing(hs);
  }

  /** Three states look at the ClientHello, the last one takes it. */
  lemma ServerReadsHello(hs: Hs, p: Plan, cfg: Config, env: Env)
    requires Ready(hs, p, cfg, env) && hs.role.Server?
    requires hs.state in {READ_CLIENT_HELLO, SELECT_CERTIFICATE}
    ensures Progress(hs, Do(hs, cfg, env), p, cfg, env)
  {
    hide Fill, HeardAll, DoClient, ClientHead;
    SendsNothing(hs);
  }

  lemma ServerSelects(hs: Hs, p: Plan, cfg: Config, env: Env)
    requires Ready(hs, p, cfg, env) && hs.role.Server? && hs.state == SELECT_PARAMETERS
    ensures Progress(hs, Do(hs, cfg, env), p, cfg, env)
  {
    hide Fill, HeardAll, DoClient, ClientHead;
    if hs.inbox.Some? { TakesFirst(hs, p, cfg, env); }
  }

  lemma ServerSendsOne(hs: Hs, p: Plan, cfg: Config, env: Env)
    requires Ready(hs, p, cfg, env) && hs.role.Server?
    requires hs.state in {SEND_SERVER_HELLO, SEND_SERVER_KEY_EXCHANGE}
    ensures Progress(hs, Do(hs, cfg, env), p, cfg, env)
  {
    hide Fill, HeardAll, DoClient, ClientHead;
    SendsNothing(hs);
    AddMessageSends(hs, ServerKeyExchange);
    AddMessageSends(hs.(facts := p.facts), ServerHello(p.facts));
  }

  lemma CertificateSends(hs: Hs, p: Plan)
    requires hs.role.Server? && !hs.writeSecured
    ensures var hs1 := if p.SendsCert() then AddMessage(hs, Certificate(false)) else hs;
      var hs2 := if p.SendsStatus() then AddMessage(hs1, CertificateStatus) else hs1;
      Sends(hs, hs2, Opt(p.SendsCert(), FromServer(Certificate(false))) + Opt(p.SendsStatus(), FromServer(CertificateStatus)))
  {
    var hs1 := if p.SendsCert() then AddMessage(hs, Certificate(false)) else hs;
    var hs2 := if p.SendsStatus() then AddMessage(hs1, CertificateStatus) else hs1;
    hide Sends, Opt;
    MaybeSends(hs, p.SendsCert(), Certificate(false));
    MaybeSends(hs1, p.SendsStatus(), CertificateStatus);
    SendsMore(hs, hs1, hs2, Opt(p.SendsCert(), FromServer(Certificate(false))), Opt(p.SendsStatus(), FromServer(CertificateStatus)));
  }

  lemma ServerSendsCertificate(hs: Hs, p: Plan, cfg: Config, env: Env)
    requires Ready(hs, p, cfg, env) && hs.role.Server? && hs.state == SEND_SERVER_CERTIFICATE
    ensures Progress(hs, Do(hs, cfg, env), p, cfg, env)
  {
    CertificateSends(hs, p);
    hide Fill, HeardAll, DoClient, ClientHead, Expected, Opt;
  }

  lemma HelloDoneSends(hs: Hs, p: Plan)
    requires hs.role.Server? && !hs.writeSecured
    ensures var hs1 := if p.certRequest then AddMessage(hs, CertificateRequest) else hs;
      Sends(hs, AddMessage(hs1, ServerHelloDone), Opt(p.certRequest, FromServer(CertificateRequest)) + [FromServer(ServerHelloDone)])
  {
    var hs1 := if p.certRequest then AddMessage(hs, CertificateRequest) else hs;
    hide Sends, Opt;
    MaybeSends(hs, p.certRequest, CertificateRequest);
    AddMessageSends(hs1, ServerHelloDone);
    SendsMore(hs, hs1, AddMessage(hs1, ServerHelloDone), Opt(p.certRequest, FromServer(CertificateRequest)), [FromServer(ServerHelloDone)]);
  }

  lemma ServerSendsHelloDone(hs: Hs, p: Plan, cfg: Config, env: Env)
    requires Ready(hs, p, cfg, env) && hs.role.Server? && hs.state == SEND_SERVER_HELLO_DONE
    ensures Progress(hs, Do(hs, cfg, env), p, cfg, env)
  {
    HelloDoneSends(hs, p);
    hide Fill, HeardAll, DoClient, ClientHead, Expected, Opt;
  }

  lemma ServerTakesCertificate(hs: Hs, p: Plan, cfg: Config, env: Env)
    requires Ready(hs, p, cfg, env) && hs.role.Server? && hs.state == READ_CLIENT_CERTIFICATE
    ensures Progress(hs, Do(hs, cfg, env), p, cfg, env)
  {
    hide Fill, HeardAll, DoClient, ClientHead;
    if hs.inbox.Some? && Todo(hs, p) != [] { TakesFirst(hs, p, cfg, env); }
    SendsNothing(hs);
  }

  lemma ServerTakesKeyExchange(hs: Hs, p: Plan, cfg: Config, env: Env)
    requires Ready(hs, p, cfg, env) && hs.role.Server? && hs.state == READ_CLIENT_KEY_EXCHANGE
    ensures Progress(hs, Do(hs, cfg, env), p, cfg, env)
  {
    hide Fill, HeardAll, DoClient, ClientHead;
    if hs.inbox.Some? && Todo(hs, p) != [] { TakesFirst(hs, p, cfg, env); }
    SendsNothing(hs);
  }

  lemma ServerTakesVerify(hs: Hs, p: Plan, cfg: Config, env: Env)
    requires Ready(hs, p, cfg, env) && hs.role.Server? && hs.state == READ_CLIENT_CERTIFICATE_VERIFY
    ensures Progress(hs, Do(hs, cfg, env), p, cfg, env)
  {
    hide Fill, HeardAll, DoClient, ClientHead;
    if hs.inbox.Some? && Todo(hs, p) != [] { TakesFirst(hs, p, cfg, env); }
    SendsNothing(hs);
  }

  lemma ServerTakesNextProto(hs: Hs, p: Plan, cfg: Config, env: Env)
    requires Ready(hs, p, cfg, env) && hs.role.Server? && hs.state == READ_NEXT_PROTO
    ensures Progress(hs, Do(hs, cfg, env), p, cfg, env)
  {
    hide Fill, HeardAll, DoClient, ClientHead;
    if hs.inbox.Some? && Todo(hs, p) != [] { TakesFirst(hs, p, cfg, env); }
    SendsNothing(hs);
  }

  lemma ServerTakesChannelId(hs: Hs, p: Plan, cfg: Config, env: Env)
    requires Ready(hs, p, cfg, env) && hs.role.Server? && hs.state == READ_CHANNEL_ID
    ensures Progress(hs, Do(hs, cfg, env), p, cfg, env)
  {
    hide Fill, HeardAll, DoClient, ClientHead;
    if hs.inbox.Some? && Todo(hs, p) != [] { TakesFirst(hs, p, cfg, env); }
    SendsNothing(hs);
  }

  lemma ClientSwitches(hs: Hs, p: Plan, cfg: Config, env: Env)
    requires Ready(hs, p, cfg, env) && hs.role.Client? && hs.state == CLIENT_PROCESS_CCS
    ensures Progress(hs, Do(hs, cfg, env), p, cfg, env)
  {
    hide Fill, HeardAll, DoServer, ServerHead;
    SendsNothing(hs);
  }

  lemma GetsFinished(hs: Hs, p: Plan, cfg: Config, env: Env)
    requires Ready(hs, p, cfg, env) && hs.state == if hs.role.Client? then READ_SERVER_FINISHED else READ_CLIENT_FINISHED
    ensures Progress(hs, Do(hs, cfg, env), p, cfg, env)
  {
    hide Fill, HeardAll;
    if hs.inbox.Some? { TakesFirst(hs, p, cfg, env); }
    DoGetFinished(hs, cfg, env);
  }

  /** A step in which nothing fails does what the script says. */
  lemma StepFollows(hs: Hs, p: Plan, cfg: Config, env: Env)
    requires Ready(hs, p, cfg, env)
    ensures Progress(hs, Do(hs, cfg, env), p, cfg, env)
  {
    var s := hs.state;
    assert Entered(hs.role, s);
    hide Ready, Progress;
    if s == if hs.role.Client? then READ_SERVER_FINISHED else READ_CLIENT_FINISHED { GetsFinished(hs, p, cfg, env); }
    else if hs.role.Client? {
      if s == READ_SERVER_HELLO { ReadServerHelloStep(hs, p, cfg, env); }
      else if s == READ_SERVER_CERTIFICATE || s == READ_SERVER_HELLO_DONE || s == READ_SESSION_TICKET { ClientTakes(hs, p, cfg, env); }
      else if s == READ_CERTIFICATE_STATUS || s == READ_SERVER_KEY_EXCHANGE || s == READ_CERTIFICATE_REQUEST { ClientPeeks(hs, p, cfg, env); }
      else if s == ENTER_EARLY_DATA || s == VERIFY_SERVER_CERTIFICATE || s == FINISH_FLIGHT || s == FINISH_CLIENT_HANDSHAKE { ClientPasses(hs, p, cfg, env); }
      else if s == START_CONNECT || SEND_CLIENT_CERTIFICATE <= s <= SEND_CLIENT_CERTIFICATE_VERIFY { ClientSends(hs, p, cfg, env); }
      else if s == SEND_CLIENT_FINISHED { ClientFinishes(hs, p, cfg, env); }
      else { ClientSwitches(hs, p, cfg, env); }
    } else {
      if s == READ_CLIENT_HELLO || s == SELECT_CERTIFICATE { ServerReadsHello(hs, p, cfg, env); }
      else if s == SELECT_PARAMETERS { ServerSelects(hs, p, cfg, env); }
      else if s == SEND_SERVER_HELLO || s == SEND_SERVER_KEY_EXCHANGE { ServerSendsOne(hs, p, cfg, env); }
      else if s == SEND_SERVER_CERTIFICATE { ServerSendsCertificate(hs, p, cfg, env); }
      else if s == SEND_SERVER_HELLO_DONE { ServerSendsHelloDone(hs, p, cfg, env); }
      else if s == READ_CLIENT_CERTIFICATE { ServerTakesCertificate(hs, p, cfg, env); }
      else if s == READ_CLIENT_KEY_EXCHANGE { ServerTakesKeyExchange(hs, p, cfg, env); }
      else if s == READ_CLIENT_CERTIFICATE_VERIFY { ServerTakesVerify(hs, p, cfg, env); }
      else if s == READ_NEXT_PROTO { ServerTakesNextProto(hs, p, cfg, env); }
      else if s == READ_CHANNEL_ID { ServerTakesChannelId(hs, p, cfg, env); }
      else if s == SEND_SERVER_FINISHED { ServerFinishes(hs, p, cfg, env); }
      else { ServerPasses(hs, p, cfg, env); }
    }
  }
}
