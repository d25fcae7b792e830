/** Which messages a completed handshake consists of, spelled out from the settings of both ends (RFC 5246 section 7.3,
    figures 1 and 2), independently of the states that produce them. */
module HsFigure {
  import opened Common
  import opened HsModel
  import opened HsSafety
  import opened HsScript
  import opened HsJoint

  /** The conditions on which the optional messages depend. */
  predicate WithCertificates(s: Suite) { s == RsaCert || s == EcdheCert }
  predicate Ephemeral(s: Suite) { s == EcdheCert || s == EcdhePsk }

  predicate Requests(server: Config)
  {
    && !server.choice.resumed && server.verifyPeer && WithCertificates(server.choice.suite)
    && (server.ifNoChannelId ==> !server.choice.channelId)
  }

  predicate Exchanges(server: Config)
  {
    !server.choice.resumed && (Ephemeral(server.choice.suite) || (server.choice.suite == PlainPsk && server.pskHint))
  }

  predicate UsesChannelId(server: Config)
  {
    server.choice.channelId && Ephemeral(server.choice.suite) && (server.choice.resumed ==> server.originalHash)
  }

  function Hellos(server: Config): seq<Kind>
  {
    var c := server.choice;
    [FromClient(ClientHello), FromServer(ServerHello(Facts(c.resumed, c.ticket, c.ocsp, c.npn, UsesChannelId(server), c.suite)))]
  }

  function ServerPart(server: Config): seq<Kind>
  {
    var cert := WithCertificates(server.choice.suite);
    Opt(cert, FromServer(Certificate(false))) + (Opt(cert && server.choice.ocsp, FromServer(CertificateStatus))
    + (Opt(Exchanges(server), FromServer(ServerKeyExchange)) + (Opt(Requests(server), FromServer(CertificateRequest)) + [FromServer(ServerHelloDone)])))
  }

  function ClientPart(client: Config, server: Config): seq<Kind>
  {
    Opt(Requests(server), FromClient(Certificate(!client.hasCert)))
    + ([FromClient(ClientKeyExchange)] + Opt(Requests(server) && client.hasCert, FromClient(CertificateVerify)))
  }

  function ClientEnding(server: Config): seq<Kind>
  {
    [CcsBy(Client)] + (Opt(server.choice.npn, Plain(Client, true, NextProto))
    + (Opt(UsesChannelId(server), Plain(Client, true, ChannelId)) + [FinishedBy(Client)]))
  }

  function ServerEnding(server: Config): seq<Kind>
  {
    Opt(server.choice.ticket, FromServer(NewSessionTicket(server.emptyTicket))) + [CcsBy(Server), FinishedBy(Server)]
  }

  function Figure(client: Config, server: Config): seq<Kind>
  {
    if server.choice.resumed then Hellos(server) + (ServerEnding(server) + ClientEnding(server))
    else Hellos(server) + (ServerPart(server) + (ClientPart(client, server) + (ClientEnding(server) + ServerEnding(server))))
  }

  // ---------------------------------------------------------------- the script is the figure

  lemma Endings(client: Config, server: Config)
    ensures var p := PlanOf(client, server);
      LastFromClient(p) == ClientEnding(server) && LastFromServer(p) == ServerEnding(server)
  {
    hide Opt;
  }

  lemma ClientCourse(client: Config, server: Config)
    requires !server.choice.resumed
    ensures var p := PlanOf(client, server);
      Rest(p, Client, SEND_CLIENT_CERTIFICATE) == ClientPart(client, server) + Rest(p, Client, SEND_CLIENT_FINISHED)
  {
    hide Rest, Opt;
    var p := PlanOf(client, server);
    var cert, verify := Opt(p.certRequest, FromClient(Certificate(!p.hasCert))), Opt(p.SendsVerify(), FromClient(CertificateVerify));
    Unfold(p, Client, SEND_CLIENT_CERTIFICATE_VERIFY, SEND_CLIENT_FINISHED, verify);
    Unfold(p, Client, SEND_CLIENT_KEY_EXCHANGE, SEND_CLIENT_CERTIFICATE_VERIFY, [FromClient(ClientKeyExchange)]);
    Unfold(p, Client, SEND_CLIENT_CERTIFICATE, SEND_CLIENT_KEY_EXCHANGE, cert);
    assert p.certRequest == Requests(server);
    Regroup3(cert, [FromClient(ClientKeyExchange)], verify, Rest(p, Client, SEND_CLIENT_FINISHED));
    hide Succ, Rank, NextState, Head;
  }

  lemma Regroup3(a: seq<Kind>, b: seq<Kind>, c: seq<Kind>, rest: seq<Kind>)
    ensures a + (b + (c + rest)) == (a + (b + c)) + rest
  {
  }

  lemma Regroup5(a: seq<Kind>, b: seq<Kind>, c: seq<Kind>, d: seq<Kind>, e: seq<Kind>, rest: seq<Kind>)
    ensures a + (b + (c + (d + (e + rest)))) == (a + (b + (c + (d + e)))) + rest
  {
  }

  lemma ServerCourse(client: Config, server: Config)
    requires !server.choice.resumed
    ensures var p := PlanOf(client, server);
      Rest(p, Client, READ_SERVER_CERTIFICATE) == ServerPart(server) + Rest(p, Client, SEND_CLIENT_CERTIFICATE)
  {
    hide Rest, Opt;
    var p := PlanOf(client, server);
    var cert, status := Opt(p.SendsCert(), FromServer(Certificate(false))), Opt(p.SendsStatus(), FromServer(CertificateStatus));
    var exchange, request := Opt(p.keyExchange, FromServer(ServerKeyExchange)), Opt(p.certRequest, FromServer(CertificateRequest));
    Unfold(p, Client, READ_SERVER_HELLO_DONE, SEND_CLIENT_CERTIFICATE, [FromServer(ServerHelloDone)]);
    Unfold(p, Client, READ_CERTIFICATE_REQUEST, READ_SERVER_HELLO_DONE, request);
    Unfold(p, Client, READ_SERVER_KEY_EXCHANGE, READ_CERTIFICATE_REQUEST, exchange);
    Unfold(p, Client, VERIFY_SERVER_CERTIFICATE, READ_SERVER_KEY_EXCHANGE, []);
    Unfold(p, Client, READ_CERTIFICATE_STATUS, VERIFY_SERVER_CERTIFICATE, status);
    Unfold(p, Client, READ_SERVER_CERTIFICATE, READ_CERTIFICATE_STATUS, cert);
    assert p.certRequest == Requests(server) && p.keyExchange == Exchanges(server);
    Regroup5(cert, status, exchange, request, [FromServer(ServerHelloDone)], Rest(p, Client, SEND_CLIENT_CERTIFICATE));
    hide Succ, Rank, NextState, Head;
  }

  lemma HelloCourse(client: Config, server: Config)
    ensures var p := PlanOf(client, server);
      Rest(p, Client, START_CONNECT) == Hellos(server) + Rest(p, Client, if server.choice.resumed then READ_SESSION_TICKET else READ_SERVER_CERTIFICATE)
  {
    hide Rest, Opt;
    var p := PlanOf(client, server);
    var next := if p.facts.resumed then READ_SESSION_TICKET else READ_SERVER_CERTIFICATE;
    Unfold(p, Client, START_CONNECT, ENTER_EARLY_DATA, [FromClient(ClientHello)]);
    Unfold(p, Client, ENTER_EARLY_DATA, READ_SERVER_HELLO, []);
    Unfold(p, Client, READ_SERVER_HELLO, next, [FromServer(ServerHello(p.facts))]);
    assert Hellos(server) == [FromClient(ClientHello)] + [FromServer(ServerHello(p.facts))];
    Associate([FromClient(ClientHello)], [FromServer(ServerHello(p.facts))], Rest(p, Client, next));
    hide Succ, Rank, NextState, Head;
  }

  /** What both ends work through is the figure. */
  lemma ScriptIsFigure(client: Config, server: Config)
    ensures Script(PlanOf(client, server)) == Fill([], Figure(client, server))
  {
    var p := PlanOf(client, server);
    hide Rest, Opt, Fill, Hellos, ServerPart, ClientPart, ClientEnding, ServerEnding;
    Endings(client, server);
    HelloCourse(client, server);
    ServerEnd(p);
    ClientEnd(p);
    if !server.choice.resumed {
      ServerCourse(client, server);
      ClientCourse(client, server);
      assert ServerEnding(server) + [] == ServerEnding(server);
    } else {
      assert ClientEnding(server) + [] == ClientEnding(server);
    }
    hide LastFromClient, LastFromServer, PlanOf;
  }

  /** In every run in which both ends get done, the items exchanged are those of the figure. */
  lemma RunsFollowFigure(both: Settings, turns: seq<Turn>)
    requires both.Agree()
    ensures var net := Steps(StartNet(), both, turns);
      BothDone(net) ==> net.client.trace == net.server.trace == Fill([], Figure(both.client, both.server))
  {
    RunsAgree(both, turns);
    ScriptIsFigure(both.client, both.server);
  }

  // ---------------------------------------------------------------- each optional message exactly when it is due

  predicate Names(k: Kind, sender: Role, m: Msg) { k.Plain? && k.sender == sender && k.m == m }

  predicate Has(kinds: seq<Kind>, sender: Role, m: Msg) { exists k :: 0 <= k < |kinds| && Names(kinds[k], sender, m) }

  predicate IsItem(item: Item, sender: Role, m: Msg) { item.sender == sender && item.body == Message(m) }

  /** The message was exchanged. */
  predicate Exchanged(trace: seq<Item>, sender: Role, m: Msg) { exists i :: 0 <= i < |trace| && IsItem(trace[i], sender, m) }

  lemma {:induction false} FillHas(transcript: seq<Msg>, kinds: seq<Kind>, sender: Role, m: Msg)
    requires !m.Finished?
    ensures Exchanged(Fill(transcript, kinds), sender, m) <==> Has(kinds, sender, m)
    decreases |kinds|
  {
    if kinds != [] {
      var item := Real(kinds[0], transcript);
      var rest, tail := kinds[1..], Fill(Heard(transcript, item), kinds[1..]);
      FillHas(Heard(transcript, item), rest, sender, m);
      hide Fill, Heard;
      HasConcat([kinds[0]], rest, sender, m);
      ExchangedConcat(item, tail, sender, m);
      assert [kinds[0]] + rest == kinds;
      HasOne(kinds[0], sender, m);
      hide Has, Exchanged;
      assert IsItem(item, sender, m) <==> Names(kinds[0], sender, m);
      assert Fill(transcript, kinds) == [item] + tail by { FillStep(transcript, kinds); }
    }
  }

  lemma FillStep(transcript: seq<Msg>, kinds: seq<Kind>)
    requires kinds != []
    ensures var item := Real(kinds[0], transcript); Fill(transcript, kinds) == [item] + Fill(Heard(transcript, item), kinds[1..])
  {
  }

  lemma ExchangedConcat(item: Item, tail: seq<Item>, sender: Role, m: Msg)
    ensures Exchanged([item] + tail, sender, m) <==> IsItem(item, sender, m) || Exchanged(tail, sender, m)
  {
    var all := [item] + tail;
    if IsItem(item, sender, m) { assert IsItem(all[0], sender, m); }
    if Exchanged(tail, sender, m) {
      var i :| 0 <= i < |tail| && IsItem(tail[i], sender, m);
      assert IsItem(all[i + 1], sender, m);
    }
  }

  lemma HasConcat(a: seq<Kind>, b: seq<Kind>, sender: Role, m: Msg)
    ensures Has(a + b, sender, m) <==> Has(a, sender, m) || Has(b, sender, m)
  {
    if Has(a, sender, m) {
      var k :| 0 <= k < |a| && Names(a[k], sender, m);
      assert Names((a + b)[k], sender, m);
    }
    if Has(b, sender, m) {
      var k :| 0 <= k < |b| && Names(b[k], sender, m);
      assert Names((a + b)[|a| + k], sender, m);
    }
  }

  lemma HasOne(k: Kind, sender: Role, m: Msg)
    ensures Has([k], sender, m) <==> Names(k, sender, m)
  {
    assert [k][0] == k;
  }

  lemma HasOpt(b: bool, k: Kind, sender: Role, m: Msg)
    ensures Has(Opt(b, k), sender, m) <==> b && Names(k, sender, m)
  {
    if b { HasOne(k, sender, m); }
  }

  /** The messages that are due, with their senders. */
  predicate Due(client: Config, server: Config, sender: Role, m: Msg)
  {
    var c := server.choice;
    match m
    case ClientHello => sender == Client
    case ServerHello(facts) => sender == Server && facts == Facts(c.resumed, c.ticket, c.ocsp, c.npn, UsesChannelId(server), c.suite)
    case Certificate(empty) =>
      if sender == Server then !c.resumed && WithCertificates(c.suite) && !empty else Requests(server) && empty == !client.hasCert
    case CertificateStatus => sender == Server && !c.resumed && WithCertificates(c.suite) && c.ocsp
    case ServerKeyExchange => sender == Server && Exchanges(server)
    case CertificateRequest => sender == Server && Requests(server)
    case ServerHelloDone => sender == Server && !c.resumed
    case ClientKeyExchange => sender == Client && !c.resumed
    case CertificateVerify => sender == Client && Requests(server) && client.hasCert
    case NewSessionTicket(empty) => sender == Server && c.ticket && empty == server.emptyTicket
    case NextProto => sender == Client && c.npn
    case ChannelId => sender == Client && UsesChannelId(server)
    case Finished(_, _) => false
    case OtherMessage => false
  }

  lemma ServerPartHas(server: Config, sender: Role, m: Msg)
    ensures Has(ServerPart(server), sender, m) <==>
      sender == Server
      && ((m == Certificate(false) && WithCertificates(server.choice.suite))
          || (m == CertificateStatus && WithCertificates(server.choice.suite) && server.choice.ocsp)
          || (m == ServerKeyExchange && Exchanges(server)) || (m == CertificateRequest && Requests(server)) || m == ServerHelloDone)
  {
    var cert := WithCertificates(server.choice.suite);
    var a, b := Opt(cert, FromServer(Certificate(false))), Opt(cert && server.choice.ocsp, FromServer(CertificateStatus));
    var c, d, e := Opt(Exchanges(server), FromServer(ServerKeyExchange)), Opt(Requests(server), FromServer(CertificateRequest)), [FromServer(ServerHelloDone)];
    HasOpt(cert, FromServer(Certificate(false)), sender, m);
    HasOpt(cert && server.choice.ocsp, FromServer(CertificateStatus), sender, m);
    HasOpt(Exchanges(server), FromServer(ServerKeyExchange), sender, m);
    HasOpt(Requests(server), FromServer(CertificateRequest), sender, m);
    HasOne(FromServer(ServerHelloDone), sender, m);
    HasConcat(d, e, sender, m);
    HasConcat(c, d + e, sender, m);
    HasConcat(b, c + (d + e), sender, m);
    HasConcat(a, b + (c + (d + e)), sender, m);
    hide Opt, Requests, Exchanges, WithCertificates, Has;
  }

  lemma ClientPartHas(client: Config, server: Config, sender: Role, m: Msg)
    ensures Has(ClientPart(client, server), sender, m) <==>
      sender == Client
      && ((m == Certificate(!client.hasCert) && Requests(server)) || m == ClientKeyExchange
          || (m == CertificateVerify && Requests(server) && client.hasCert))
  {
    var a, b := Opt(Requests(server), FromClient(Certificate(!client.hasCert))), [FromClient(ClientKeyExchange)];
    var c := Opt(Requests(server) && client.hasCert, FromClient(CertificateVerify));
    HasOpt(Requests(server), FromClient(Certificate(!client.hasCert)), sender, m);
    HasOne(FromClient(ClientKeyExchange), sender, m);
    HasOpt(Requests(server) && client.hasCert, FromClient(CertificateVerify), sender, m);
    HasConcat(b, c, sender, m);
    HasConcat(a, b + c, sender, m);
    hide Opt, Requests, Has;
  }

  lemma EndingsHave(server: Config, sender: Role, m: Msg)
    ensures Has(ClientEnding(server), sender, m) <==>
      sender == Client && ((m == NextProto && server.choice.npn) || (m == ChannelId && UsesChannelId(server)))
    ensures Has(ServerEnding(server), sender, m) <==> sender == Server && m == NewSessionTicket(server.emptyTicket) && server.choice.ticket
  {
    var a, b := Opt(server.choice.npn, Plain(Client, true, NextProto)), Opt(UsesChannelId(server), Plain(Client, true, ChannelId));
    HasOne(CcsBy(Client), sender, m);
    HasOne(FinishedBy(Client), sender, m);
    HasOpt(server.choice.npn, Plain(Client, true, NextProto), sender, m);
    HasOpt(UsesChannelId(server), Plain(Client, true, ChannelId), sender, m);
    HasConcat(b, [FinishedBy(Client)], sender, m);
    HasConcat(a, b + [FinishedBy(Client)], sender, m);
    HasConcat([CcsBy(Client)], a + (b + [FinishedBy(Client)]), sender, m);
    var t, last := Opt(server.choice.ticket, FromServer(NewSessionTicket(server.emptyTicket))), [CcsBy(Server), FinishedBy(Server)];
    HasOpt(server.choice.ticket, FromServer(NewSessionTicket(server.emptyTicket)), sender, m);
    assert !Names(CcsBy(Server), sender, m) && !Names(FinishedBy(Server), sender, m);
    assert !Has(last, sender, m);
    HasConcat(t, last, sender, m);
    hide Opt, UsesChannelId, Has;
  }

  lemma HellosHave(server: Config, sender: Role, m: Msg)
    ensures var c := server.choice;
      Has(Hellos(server), sender, m) <==>
        (sender == Client && m == ClientHello)
        || (sender == Server && m == ServerHello(Facts(c.resumed, c.ticket, c.ocsp, c.npn, UsesChannelId(server), c.suite)))
  {
    var c := server.choice;
    var a, b := FromClient(ClientHello), FromServer(ServerHello(Facts(c.resumed, c.ticket, c.ocsp, c.npn, UsesChannelId(server), c.suite)));
    assert Hellos(server) == [a] + [b];
    HasOne(a, sender, m);
    HasOne(b, sender, m);
    HasConcat([a], [b], sender, m);
    hide Has, UsesChannelId;
  }

  lemma FigureHas(client: Config, server: Config, sender: Role, m: Msg)
    ensures Has(Figure(client, server), sender, m) <==> Due(client, server, sender, m)
  {
    HellosHave(server, sender, m);
    EndingsHave(server, sender, m);
    ServerPartHas(server, sender, m);
    ClientPartHas(client, server, sender, m);
    var h, s, c, e, f := Hellos(server), ServerPart(server), ClientPart(client, server), ClientEnding(server), ServerEnding(server);
    HasConcat(f, e, sender, m);
    HasConcat(h, f + e, sender, m);
    HasConcat(e, f, sender, m);
    HasConcat(c, e + f, sender, m);
    HasConcat(s, c + (e + f), sender, m);
    HasConcat(h, s + (c + (e + f)), sender, m);
    hide Has, Hellos, ServerPart, ClientPart, ClientEnding, ServerEnding, UsesChannelId, WithCertificates;
  }

  /** When both ends are done, each kind of message has been exchanged if and only if the settings make it due: a
      ticket exactly if the server chose to issue one, a certificate request exactly under the conditions of the
      server, and so on. */
  lemma ExchangedExactly(both: Settings, turns: seq<Turn>, sender: Role, m: Msg)
    requires both.Agree() && !m.Finished?
    ensures var net := Steps(StartNet(), both, turns);
      BothDone(net) ==> (Exchanged(net.client.trace, sender, m) <==> Due(both.client, both.server, sender, m))
  {
    RunsFollowFigure(both, turns);
    FillHas([], Figure(both.client, both.server), sender, m);
    FigureHas(both.client, both.server, sender, m);
    hide Steps, Figure, Due, Has, Exchanged, Fill, BothDone;
  }
}
