/** Exactly when two endpoints can complete a handshake in which nothing fails. */
module HsOutcome {
  import opened Common
  import opened HsModel
  import opened HsSafety
  import opened HsScript
  import opened HsJoint

  predicate Clean(queue: seq<Body>) { Message(Certificate(false)) !in queue }

  /** A server that has asked, or will ask, for a certificate that it insists on and does not get. */
  predicate Stuck(hs: Hs, cfg: Config)
  {
    && hs.role.Server? && hs.state <= READ_CLIENT_CERTIFICATE && hs.inbox != Some(Certificate(false))
    && (hs.state == SELECT_PARAMETERS ==> hs.facts.suite == cfg.choice.suite)
    && (hs.state == SEND_SERVER_HELLO ==> !hs.facts.resumed) && (hs.state >= SEND_SERVER_HELLO ==> hs.certRequest)
  }

  /** The queue stays clean. */
  predicate CleanStep(hs: Hs, hs': Hs) { hs'.role == hs.role && (Clean(hs.pending) ==> Clean(hs'.pending)) }

  lemma QuietClean(hs: Hs, hs': Hs)
    requires hs'.role == hs.role && hs'.pending == hs.pending
    ensures CleanStep(hs, hs')
  {
  }

  lemma EarlyReadsClean(hs: Hs, env: Env)
    ensures CleanStep(hs, DoReadServerHello(hs, env).0) && CleanStep(hs, DoReadServerCertificate(hs, env).0)
  {
    hide Effect, LeadsTo, CleanStep;
    QuietClean(hs, DoReadServerHello(hs, env).0);
    QuietClean(hs, DoReadServerCertificate(hs, env).0);
  }

  lemma StatusReadClean(hs: Hs, env: Env)
    ensures CleanStep(hs, DoReadCertificateStatus(hs, env).0)
  {
    hide Effect, LeadsTo, CleanStep;
    QuietClean(hs, DoReadCertificateStatus(hs, env).0);
  }

  lemma VerifyClean(hs: Hs, env: Env)
    ensures CleanStep(hs, DoVerifyServerCertificate(hs, env).0)
  {
    hide Effect, LeadsTo, CleanStep;
    QuietClean(hs, DoVerifyServerCertificate(hs, env).0);
  }

  lemma KeyReadClean(hs: Hs, env: Env)
    ensures CleanStep(hs, DoReadServerKeyExchange(hs, env).0)
  {
    hide Effect, LeadsTo, CleanStep;
    QuietClean(hs, DoReadServerKeyExchange(hs, env).0);
  }

  lemma RequestReadClean(hs: Hs, env: Env)
    ensures CleanStep(hs, DoReadCertificateRequest(hs, env).0)
  {
    hide Effect, LeadsTo, CleanStep;
    QuietClean(hs, DoReadCertificateRequest(hs, env).0);
  }

  lemma LateReadsClean(hs: Hs, env: Env)
    ensures CleanStep(hs, DoReadServerHelloDone(hs, env).0) && CleanStep(hs, DoFinishFlight(hs, env).0)
    ensures CleanStep(hs, DoReadSessionTicket(hs, env).0)
  {
    hide Effect, LeadsTo, CleanStep;
    QuietClean(hs, DoReadServerHelloDone(hs, env).0);
    QuietClean(hs, DoFinishFlight(hs, env).0);
    QuietClean(hs, DoReadSessionTicket(hs, env).0);
  }

  lemma SwitchClean(hs: Hs, env: Env, next: State)
    ensures CleanStep(hs, GetFinished(hs, env, next).0) && CleanStep(hs, ChangeReadCipher(hs, env, next).0)
  {
    hide LeadsTo;
  }

  lemma RepliesClean(hs: Hs, cfg: Config, env: Env)
    requires !cfg.hasCert
    ensures CleanStep(hs, DoSendClientCertificate(hs, cfg, env).0) && CleanStep(hs, DoSendClientKeyExchange(hs, env).0)
    ensures CleanStep(hs, DoSendClientCertificateVerify(hs, cfg, env).0)
  {
    hide Effect, LeadsTo;
  }

  lemma FinishedClean(hs: Hs, env: Env)
    ensures CleanStep(hs, DoSendClientFinished(hs, env).0)
  {
  }

  lemma OthersClean(hs: Hs, cfg: Config, env: Env)
    requires hs.state in {START_CONNECT, ENTER_EARLY_DATA, 2, 4} || hs.state >= FINISH_CLIENT_HANDSHAKE
    ensures CleanStep(hs, DoClient(hs, cfg, env).0)
  {
    hide DoReadServerHello, DoReadServerCertificate, DoReadCertificateStatus, DoVerifyServerCertificate, DoReadServerKeyExchange,
      DoReadCertificateRequest, DoReadServerHelloDone, DoFinishFlight, DoReadSessionTicket, DoSendClientCertificate,
      DoSendClientKeyExchange, DoSendClientCertificateVerify, DoSendClientFinished, GetFinished, ChangeReadCipher, Effect, LeadsTo;
  }

  lemma ClientStepClean(hs: Hs, cfg: Config, env: Env)
    requires !cfg.hasCert
    ensures CleanStep(hs, DoClient(hs, cfg, env).0)
  {
    hide DoReadServerHello, DoReadServerCertificate, DoReadCertificateStatus, DoVerifyServerCertificate, DoReadServerKeyExchange,
      DoReadCertificateRequest, DoReadServerHelloDone, DoFinishFlight, DoReadSessionTicket, DoSendClientCertificate,
      DoSendClientKeyExchange, DoSendClientCertificateVerify, DoSendClientFinished, GetFinished, ChangeReadCipher, Effect, LeadsTo, CleanStep;
    var s := hs.state;
    if s == READ_SERVER_HELLO || s == READ_SERVER_CERTIFICATE { EarlyReadsClean(hs, env); }
    else if s == READ_CERTIFICATE_STATUS { StatusReadClean(hs, env); }
    else if s == VERIFY_SERVER_CERTIFICATE { VerifyClean(hs, env); }
    else if s == READ_SERVER_KEY_EXCHANGE { KeyReadClean(hs, env); }
    else if s == READ_CERTIFICATE_REQUEST { RequestReadClean(hs, env); }
    else if s == READ_SERVER_HELLO_DONE || s == FINISH_FLIGHT || s == READ_SESSION_TICKET { LateReadsClean(hs, env); }
    else if s == CLIENT_PROCESS_CCS { SwitchClean(hs, env, READ_SERVER_FINISHED); }
    else if s == READ_SERVER_FINISHED { SwitchClean(hs, env, if hs.facts.resumed then SEND_CLIENT_FINISHED else FINISH_CLIENT_HANDSHAKE); }
    else if s == SEND_CLIENT_FINISHED { FinishedClean(hs, env); }
    else if SEND_CLIENT_CERTIFICATE <= s <= SEND_CLIENT_CERTIFICATE_VERIFY { RepliesClean(hs, cfg, env); }
    else { OthersClean(hs, cfg, env); }
  }

  lemma ClientStaysClean(hs: Hs, cfg: Config, env: Env)
    requires hs.role.Client? && !cfg.hasCert
    ensures CleanStep(hs, Do(hs, cfg, env))
  {
    hide DoClient, Clean;
    ClientStepClean(hs, cfg, env);
  }

  lemma HelloStaysStuck(hs: Hs, cfg: Config, env: Env)
    requires Stuck(hs, cfg)
    ensures hs.state == READ_CLIENT_HELLO ==> Stuck(DoReadClientHello(hs, env).0, cfg)
    ensures hs.state == SELECT_CERTIFICATE ==> Stuck(DoSelectCertificate(hs, cfg, env).0, cfg)
  {
    hide Effect, LeadsTo;
  }

  lemma ParametersStayStuck(hs: Hs, cfg: Config, env: Env)
    requires Stuck(hs, cfg) && PlanOf(cfg, cfg).certRequest
    ensures hs.state == SELECT_PARAMETERS ==> Stuck(DoSelectParameters(hs, cfg, env).0, cfg)
    ensures hs.state == SEND_SERVER_HELLO ==> Stuck(DoSendServerHello(hs, cfg, env).0, cfg)
  {
    hide Effect, LeadsTo;
  }

  lemma FlightStaysStuck(hs: Hs, cfg: Config, env: Env)
    requires Stuck(hs, cfg) && hs.state > SEND_SERVER_HELLO
    ensures Stuck(DoSendServerCertificate(hs, cfg, env).0, cfg) && Stuck(DoSendServerKeyExchange(hs, env).0, cfg)
    ensures Stuck(DoSendServerHelloDone(hs, env).0, cfg)
    ensures cfg.requireCert && hs.state == READ_CLIENT_CERTIFICATE ==> Stuck(DoReadClientCertificate(hs, cfg, env).0, cfg)
  {
    hide Effect, LeadsTo;
  }

  lemma ServerStaysStuck(hs: Hs, cfg: Config, env: Env)
    requires Stuck(hs, cfg) && PlanOf(cfg, cfg).certRequest && cfg.requireCert
    ensures Stuck(Do(hs, cfg, env), cfg)
  {
    hide DoReadClientHello, DoSelectCertificate, DoSelectParameters, DoSendServerHello, DoSendServerCertificate,
      DoSendServerKeyExchange, DoSendServerHelloDone, DoReadClientCertificate, PlanOf, Effect, LeadsTo, DoClient;
    if hs.state <= SELECT_CERTIFICATE { HelloStaysStuck(hs, cfg, env); }
    else if hs.state <= SEND_SERVER_HELLO { ParametersStayStuck(hs, cfg, env); }
    else { FlightStaysStuck(hs, cfg, env); }
  }

  /** Neither end can get a certificate to the server. */
  predicate Hopeless(net: Net, both: Settings)
  {
    net.client.role.Client? && Clean(net.client.pending) && Clean(net.toServer) && Stuck(net.server, both.server)
  }

  lemma ClientPlays(hs: Hs, cfg: Config, act: Act, mine: seq<Body>, theirs: seq<Body>)
    requires hs.role.Client? && !cfg.hasCert && Clean(hs.pending) && Clean(theirs)
    ensures var r := Play(hs, cfg, act, mine, theirs); r.0.role.Client? && Clean(r.0.pending) && Clean(r.2)
  {
    if act.Run? { ClientStaysClean(hs, cfg, Env(false, act.retry)); }
    hide Do;
  }

  lemma ServerPlays(hs: Hs, cfg: Config, act: Act, mine: seq<Body>, theirs: seq<Body>)
    requires Stuck(hs, cfg) && PlanOf(cfg, cfg).certRequest && cfg.requireCert && Clean(mine)
    ensures var r := Play(hs, cfg, act, mine, theirs); Stuck(r.0, cfg) && Clean(r.1)
  {
    if act.Run? { ServerStaysStuck(hs, cfg, Env(false, act.retry)); }
    hide Do, PlanOf;
  }

  lemma HopelessTurn(net: Net, both: Settings, turn: Turn)
    requires Hopeless(net, both) && !both.Agree()
    ensures Hopeless(Step(net, both, turn), both)
  {
    if turn.role.Client? { ClientPlays(net.client, both.client, turn.act, net.toClient, net.toServer); }
    else { ServerPlays(net.server, both.server, turn.act, net.toServer, net.toClient); }
    hide Play, Stuck, Clean;
  }

  lemma {:induction false} StaysHopeless(net: Net, both: Settings, turns: seq<Turn>)
    requires Hopeless(net, both) && !both.Agree()
    ensures Hopeless(Steps(net, both, turns), both)
    decreases |turns|
  {
    hide Step, Hopeless;
    if turns != [] {
      HopelessTurn(net, both, turns[0]);
      StaysHopeless(Step(net, both, turns[0]), both, turns[1..]);
    }
  }

  /** Every act once at either end. */
  function Round(): seq<Turn>
  {
    [Turn(Client, Run(false)), Turn(Client, Receive), Turn(Client, SendOut), Turn(Client, Return),
     Turn(Server, Run(false)), Turn(Server, Receive), Turn(Server, SendOut), Turn(Server, Return)]
  }

  function Rounds(n: nat): seq<seq<Turn>> { if n == 0 then [] else [Round()] + Rounds(n - 1) }

  lemma RoundFair()
    ensures Fair(Round()) && Retries(Round()) == 0
  {
    forall turn: Turn | turn.act != Run(true) ensures turn in Round() {
      var k := match turn.act
        case Run(_) => 0
        case Receive => 1
        case SendOut => 2
        case Return => 3;
      assert turn == Round()[if turn.role.Client? then k else k + 4];
    }
    assert Retries(Round()[4..]) == 0;
  }

  lemma {:induction false} RoundsFair(n: nat)
    ensures |Rounds(n)| == n && (forall round <- Rounds(n) :: Fair(round)) && Retries(Flat(Rounds(n))) == 0
  {
    if n > 0 {
      RoundsFair(n - 1);
      RoundFair();
      hide Round, Fair;
      StepsAppend(StartNet(), Settings(NO_CONFIG, NO_CONFIG), Round(), Flat(Rounds(n - 1)));
    }
  }

  const NO_CONFIG: Config := Config(false, NO_FACTS, false, false, false, false, false, false)

  lemma EnoughRounds(both: Settings, n: nat)
    requires both.Agree() && n > 206
    ensures BothDone(Steps(StartNet(), both, Flat(Rounds(n))))
  {
    hide Fair, Flat, Rounds, BothDone, Steps;
    RoundsFair(n);
    FairRunsFinish(both, Rounds(n));
  }

  lemma HopelessFrom(both: Settings, turns: seq<Turn>)
    requires !both.Agree()
    ensures !BothDone(Steps(StartNet(), both, turns))
  {
    assert Hopeless(StartNet(), both);
    StaysHopeless(StartNet(), both, turns);
    hide Steps;
  }

  /** Some order of turns completes the handshake exactly if a server that insists on a client certificate gets one. */
  lemma FinishesExactly(both: Settings)
    ensures both.Agree() <==> exists turns :: BothDone(Steps(StartNet(), both, turns))
  {
    hide Steps, BothDone;
    if both.Agree() {
      EnoughRounds(both, 207);
    } else {
      forall turns ensures !BothDone(Steps(StartNet(), both, turns)) {
        HopelessFrom(both, turns);
      }
    }
  }
}
