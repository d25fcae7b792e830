/** The course of a successful handshake between two endpoints that agree on the negotiated facts (RFC 5246
    section 7.3, figures 1 and 2), as one list of items that both endpoints work through in order. */
module HsScript {
  import opened Common
  import opened HsModel
  import opened HsSafety

  /** Everything that decides which messages are exchanged. */
  datatype Plan = Plan(facts: Facts, certRequest: bool, hasCert: bool, keyExchange: bool, emptyTicket: bool)
  {
    predicate SendsCert() { facts.suite.UsesCert() }
    predicate SendsStatus() { facts.suite.UsesCert() && facts.ocsp }
    predicate SendsVerify() { certRequest && hasCert }
  }

  function PlanOf(client: Config, server: Config): Plan
  {
    var c := server.choice;
    Plan(FinalFacts(c, server),
         !c.resumed && server.verifyPeer && !(server.ifNoChannelId && c.channelId) && c.suite.UsesCert(),
         client.hasCert, c.suite.RequiresKeyExchange() || (!c.suite.UsesCert() && server.pskHint), server.emptyTicket)
  }

  /** An item before the transcript that a Finished covers is known. */
  datatype Kind = Plain(sender: Role, secured: bool, m: Msg) | CcsBy(sender: Role) | FinishedBy(sender: Role)

  function Real(k: Kind, transcript: seq<Msg>): Item
  {
    match k
    case Plain(sender, secured, m) => Item(sender, secured, Message(m))
    case CcsBy(sender) => Item(sender, false, Ccs)
    case FinishedBy(sender) => Item(sender, true, Message(Finished(sender, transcript)))
  }

  function Heard(transcript: seq<Msg>, item: Item): seq<Msg>
  {
    if item.body.Message? then transcript + [item.body.m] else transcript
  }

  /** The items for a list of kinds that starts after `transcript`. */
  function Fill(transcript: seq<Msg>, kinds: seq<Kind>): (r: seq<Item>)
    ensures |r| == |kinds|
    decreases |kinds|
  {
    if kinds == [] then []
    else
      var item := Real(kinds[0], transcript);
      [item] + Fill(Heard(transcript, item), kinds[1..])
  }

  /** The transcript after them. */
  function HeardAll(transcript: seq<Msg>, kinds: seq<Kind>): seq<Msg>
    decreases |kinds|
  {
    if kinds == [] then transcript else HeardAll(Heard(transcript, Real(kinds[0], transcript)), kinds[1..])
  }

  lemma {:induction false} FillAppend(transcript: seq<Msg>, a: seq<Kind>, b: seq<Kind>)
    ensures Fill(transcript, a + b) == Fill(transcript, a) + Fill(HeardAll(transcript, a), b)
    decreases |a|
  {
    if a == [] {
      assert a + b == b;
    } else {
      assert (a + b)[1..] == a[1..] + b;
      FillAppend(Heard(transcript, Real(a[0], transcript)), a[1..], b);
    }
  }

  // ---------------------------------------------------------------- what each state deals with

  function FromServer(m: Msg): Kind { Plain(Server, false, m) }
  function FromClient(m: Msg): Kind { Plain(Client, false, m) }

  /** What do_send_client_finished queues. */
  function LastFromClient(p: Plan): seq<Kind>
  {
    var npn, channelId := Opt(p.facts.npn, Plain(Client, true, NextProto)), Opt(p.facts.channelId, Plain(Client, true, ChannelId));
    [CcsBy(Client)] + (npn + (channelId + [FinishedBy(Client)]))
  }

  /** What do_send_server_finished queues. */
  function LastFromServer(p: Plan): seq<Kind>
  {
    Opt(p.facts.ticket, FromServer(NewSessionTicket(p.emptyTicket))) + [CcsBy(Server), FinishedBy(Server)]
  }

  function ClientHead(p: Plan, s: State): seq<Kind>
  {
    if s == START_CONNECT then [FromClient(ClientHello)]
    else if s == READ_SERVER_HELLO then [FromServer(ServerHello(p.facts))]
    else if s == READ_SERVER_CERTIFICATE then Opt(p.SendsCert(), FromServer(Certificate(false)))
    else if s == READ_CERTIFICATE_STATUS then Opt(p.SendsStatus(), FromServer(CertificateStatus))
    else if s == READ_SERVER_KEY_EXCHANGE then Opt(p.keyExchange, FromServer(ServerKeyExchange))
    else if s == READ_CERTIFICATE_REQUEST then Opt(p.certRequest, FromServer(CertificateRequest))
    else if s == READ_SERVER_HELLO_DONE then [FromServer(ServerHelloDone)]
    else if s == SEND_CLIENT_CERTIFICATE then Opt(p.certRequest, FromClient(Certificate(!p.hasCert)))
    else if s == SEND_CLIENT_KEY_EXCHANGE then [FromClient(ClientKeyExchange)]
    else if s == SEND_CLIENT_CERTIFICATE_VERIFY then Opt(p.SendsVerify(), FromClient(CertificateVerify))
    else if s == SEND_CLIENT_FINISHED then LastFromClient(p)
    else if s == READ_SESSION_TICKET then Opt(p.facts.ticket, FromServer(NewSessionTicket(p.emptyTicket)))
    else if s == CLIENT_PROCESS_CCS then [CcsBy(Server)]
    else if s == READ_SERVER_FINISHED then [FinishedBy(Server)]
    else []
  }

  function ServerHead(p: Plan, s: State): seq<Kind>
  {
    if s == SELECT_PARAMETERS then [FromClient(ClientHello)]
    else if s == SEND_SERVER_HELLO then [FromServer(ServerHello(p.facts))]
    else if s == SEND_SERVER_CERTIFICATE then
      Opt(p.SendsCert(), FromServer(Certificate(false))) + Opt(p.SendsStatus(), FromServer(CertificateStatus))
    else if s == SEND_SERVER_KEY_EXCHANGE then Opt(p.keyExchange, FromServer(ServerKeyExchange))
    else if s == SEND_SERVER_HELLO_DONE then Opt(p.certRequest, FromServer(CertificateRequest)) + [FromServer(ServerHelloDone)]
    else if s == READ_CLIENT_CERTIFICATE then Opt(p.certRequest, FromClient(Certificate(!p.hasCert)))
    else if s == READ_CLIENT_KEY_EXCHANGE then [FromClient(ClientKeyExchange)]
    else if s == READ_CLIENT_CERTIFICATE_VERIFY then Opt(p.SendsVerify(), FromClient(CertificateVerify))
    else if s == SERVER_PROCESS_CCS then [CcsBy(Client)]
    else if s == READ_NEXT_PROTO then Opt(p.facts.npn, Plain(Client, true, NextProto))
    else if s == READ_CHANNEL_ID then Opt(p.facts.channelId, Plain(Client, true, ChannelId))
    else if s == READ_CLIENT_FINISHED then [FinishedBy(Client)]
    else if s == SEND_SERVER_FINISHED then LastFromServer(p)
    else []
  }

  function Head(p: Plan, role: Role, s: State): seq<Kind> { if role.Client? then ClientHead(p, s) else ServerHead(p, s) }

  /** The state after s. */
  function Succ(p: Plan, role: Role, s: State): State
  {
    var resumed := p.facts.resumed;
    if role.Client? && s == READ_SERVER_FINISHED then if resumed then SEND_CLIENT_FINISHED else FINISH_CLIENT_HANDSHAKE
    else if role.Server? && s == READ_CLIENT_FINISHED then if resumed then FINISH_SERVER_HANDSHAKE else SEND_SERVER_FINISHED
    else if role.Server? && s == SEND_SERVER_FINISHED then if resumed then READ_CHANGE_CIPHER_SPEC else FINISH_SERVER_HANDSHAKE
    else NextState(role, s, resumed)
  }

  lemma SuccRank(p: Plan, role: Role, s: State)
    requires Visited(p, role, s) && s < DONE
    ensures Visited(p, role, Succ(p, role, s)) && Rank(role, Succ(p, role, s), p.facts.resumed) < Rank(role, s, p.facts.resumed)
  {
  }

  predicate Visited(p: Plan, role: Role, s: State) { Entered(role, s) && (FullOnly(role, s) ==> !p.facts.resumed) }

  /** What is left from state s on. */
  function Rest(p: Plan, role: Role, s: State): seq<Kind>
    requires Visited(p, role, s)
    decreases Rank(role, s, p.facts.resumed)
  {
    if s == DONE then []
    else
      SuccRank(p, role, s);
      Head(p, role, s) + Rest(p, role, Succ(p, role, s))
  }

  /** The whole course. */
  function Script(p: Plan): seq<Item> { Fill([], Rest(p, Client, START_CONNECT)) }

  // ---------------------------------------------------------------- both endpoints have the same course

  /** States that deal with nothing can be passed over. */
  lemma Unfold(p: Plan, role: Role, s: State, s': State, head: seq<Kind>)
    requires Visited(p, role, s) && s < DONE && s' == Succ(p, role, s) && head == Head(p, role, s)
    ensures Visited(p, role, s') && Rest(p, role, s) == head + Rest(p, role, s')
    ensures head == [] ==> Rest(p, role, s) == Rest(p, role, s')
  {
    SuccRank(p, role, s);
  }

  lemma Last(p: Plan, role: Role)
    ensures Rest(p, role, 19) == []
  {
    Unfold(p, role, 19, DONE, []);
  }

  lemma Associate(a: seq<Kind>, b: seq<Kind>, rest: seq<Kind>)
    ensures a + (b + rest) == (a + b) + rest
  {
  }

  lemma Regroup(a: seq<Kind>, b: seq<Kind>, c: seq<Kind>, d: seq<Kind>, rest: seq<Kind>)
    ensures a + (b + (c + rest)) == (a + (b + c)) + rest
    ensures a + (b + (c + (d + rest))) == (a + (b + (c + d))) + rest
  {
  }

  lemma ServerEnd(p: Plan)
    ensures p.facts.resumed ==> Rest(p, Client, READ_SESSION_TICKET) == LastFromServer(p) + Rest(p, Client, SEND_CLIENT_FINISHED)
    ensures !p.facts.resumed ==> Rest(p, Client, READ_SESSION_TICKET) == LastFromServer(p) + []
    ensures Rest(p, Server, SEND_SERVER_FINISHED) == LastFromServer(p) + if p.facts.resumed then Rest(p, Server, READ_CHANGE_CIPHER_SPEC) else []
  {
    hide Rest, Opt;
    var resumed := p.facts.resumed;
    var after := if resumed then SEND_CLIENT_FINISHED else FINISH_CLIENT_HANDSHAKE;
    var ticket := Opt(p.facts.ticket, FromServer(NewSessionTicket(p.emptyTicket)));
    assert Rest(p, Server, SEND_SERVER_FINISHED) == LastFromServer(p) + if p.facts.resumed then Rest(p, Server, READ_CHANGE_CIPHER_SPEC) else [] by {
      Last(p, Server);
      Unfold(p, Server, SEND_SERVER_FINISHED, if resumed then READ_CHANGE_CIPHER_SPEC else FINISH_SERVER_HANDSHAKE, LastFromServer(p));
    }
    Unfold(p, Client, READ_SESSION_TICKET, CLIENT_PROCESS_CCS, ticket);
    Unfold(p, Client, CLIENT_PROCESS_CCS, READ_SERVER_FINISHED, [CcsBy(Server)]);
    Unfold(p, Client, READ_SERVER_FINISHED, after, [FinishedBy(Server)]);
    Last(p, Client);
    Regroup(ticket, [CcsBy(Server)], [FinishedBy(Server)], [], Rest(p, Client, after));
    hide Succ, Rank, NextState, Head;
  }

  lemma ServerReadsFlight(p: Plan)
    ensures Rest(p, Server, READ_CHANGE_CIPHER_SPEC) == LastFromClient(p) + if p.facts.resumed then [] else Rest(p, Server, SEND_SERVER_FINISHED)
  {
    hide Rest, Opt, ClientHead;
    Last(p, Server);
    var after := if p.facts.resumed then FINISH_SERVER_HANDSHAKE else SEND_SERVER_FINISHED;
    var npn, channelId := Opt(p.facts.npn, Plain(Client, true, NextProto)), Opt(p.facts.channelId, Plain(Client, true, ChannelId));
    Unfold(p, Server, READ_CHANGE_CIPHER_SPEC, SERVER_PROCESS_CCS, []);
    Unfold(p, Server, SERVER_PROCESS_CCS, READ_NEXT_PROTO, [CcsBy(Client)]);
    Unfold(p, Server, READ_NEXT_PROTO, READ_CHANNEL_ID, npn);
    Unfold(p, Server, READ_CHANNEL_ID, READ_CLIENT_FINISHED, channelId);
    Unfold(p, Server, READ_CLIENT_FINISHED, after, [FinishedBy(Client)]);
    hide Succ, Rank, NextState, Head;
    Regroup([CcsBy(Client)], npn, channelId, [FinishedBy(Client)], Rest(p, Server, after));
  }

  lemma ClientEnd(p: Plan)
    ensures Rest(p, Client, SEND_CLIENT_FINISHED) == LastFromClient(p) + if p.facts.resumed then [] else Rest(p, Client, READ_SESSION_TICKET)
  {
    hide Rest, Opt;
    Last(p, Client);
    Unfold(p, Client, SEND_CLIENT_FINISHED, FINISH_FLIGHT, LastFromClient(p));
    Unfold(p, Client, FINISH_FLIGHT, if p.facts.resumed then FINISH_CLIENT_HANDSHAKE else READ_SESSION_TICKET, []);
  }

  lemma FullMiddle(p: Plan)
    requires !p.facts.resumed && Rest(p, Client, SEND_CLIENT_FINISHED) == Rest(p, Server, READ_CHANGE_CIPHER_SPEC)
    ensures Rest(p, Client, SEND_CLIENT_CERTIFICATE) == Rest(p, Server, READ_CLIENT_CERTIFICATE)
  {
    hide Rest, Opt;
    var cert, verify := Opt(p.certRequest, FromClient(Certificate(!p.hasCert))), Opt(p.SendsVerify(), FromClient(CertificateVerify));
    Unfold(p, Client, SEND_CLIENT_CERTIFICATE_VERIFY, SEND_CLIENT_FINISHED, verify);
    Unfold(p, Client, SEND_CLIENT_KEY_EXCHANGE, SEND_CLIENT_CERTIFICATE_VERIFY, [FromClient(ClientKeyExchange)]);
    Unfold(p, Client, SEND_CLIENT_CERTIFICATE, SEND_CLIENT_KEY_EXCHANGE, cert);
    Unfold(p, Server, READ_CLIENT_CERTIFICATE_VERIFY, READ_CHANGE_CIPHER_SPEC, verify);
    Unfold(p, Server, READ_CLIENT_KEY_EXCHANGE, READ_CLIENT_CERTIFICATE_VERIFY, [FromClient(ClientKeyExchange)]);
    Unfold(p, Server, VERIFY_CLIENT_CERTIFICATE, READ_CLIENT_KEY_EXCHANGE, []);
    Unfold(p, Server, READ_CLIENT_CERTIFICATE, VERIFY_CLIENT_CERTIFICATE, cert);
    hide Succ, Rank, NextState, Head;
  }

  lemma FullStart(p: Plan)
    requires !p.facts.resumed && Rest(p, Client, SEND_CLIENT_CERTIFICATE) == Rest(p, Server, READ_CLIENT_CERTIFICATE)
    ensures Rest(p, Client, READ_SERVER_CERTIFICATE) == Rest(p, Server, SEND_SERVER_CERTIFICATE)
  {
    hide Rest, Opt;
    var cert, status := Opt(p.SendsCert(), FromServer(Certificate(false))), Opt(p.SendsStatus(), FromServer(CertificateStatus));
    var exchange, request := Opt(p.keyExchange, FromServer(ServerKeyExchange)), Opt(p.certRequest, FromServer(CertificateRequest));
    Unfold(p, Client, READ_SERVER_HELLO_DONE, SEND_CLIENT_CERTIFICATE, [FromServer(ServerHelloDone)]);
    Unfold(p, Client, READ_CERTIFICATE_REQUEST, READ_SERVER_HELLO_DONE, request);
    Unfold(p, Client, READ_SERVER_KEY_EXCHANGE, READ_CERTIFICATE_REQUEST, exchange);
    Unfold(p, Client, VERIFY_SERVER_CERTIFICATE, READ_SERVER_KEY_EXCHANGE, []);
    Unfold(p, Client, READ_CERTIFICATE_STATUS, VERIFY_SERVER_CERTIFICATE, status);
    Unfold(p, Client, READ_SERVER_CERTIFICATE, READ_CERTIFICATE_STATUS, cert);
    Unfold(p, Server, SEND_SERVER_HELLO_DONE, READ_CLIENT_CERTIFICATE, request + [FromServer(ServerHelloDone)]);
    Unfold(p, Server, SEND_SERVER_KEY_EXCHANGE, SEND_SERVER_HELLO_DONE, exchange);
    Unfold(p, Server, SEND_SERVER_CERTIFICATE, SEND_SERVER_KEY_EXCHANGE, cert + status);
    hide Succ, Rank, NextState, Head;
    Associate(request, [FromServer(ServerHelloDone)], Rest(p, Server, READ_CLIENT_CERTIFICATE));
    Associate(cert, status, Rest(p, Server, SEND_SERVER_KEY_EXCHANGE));
  }

  /** Client and server have the same course to go. */
  lemma SameCourse(p: Plan)
    ensures Rest(p, Client, START_CONNECT) == Rest(p, Server, START_ACCEPT)
  {
    hide Rest, Opt;
    ServerEnd(p);
    ClientEnd(p);
    ServerReadsFlight(p);
    if !p.facts.resumed {
      FullMiddle(p);
      FullStart(p);
    }
    var s := if p.facts.resumed then SEND_SERVER_FINISHED else SEND_SERVER_CERTIFICATE;
    var c := if p.facts.resumed then READ_SESSION_TICKET else READ_SERVER_CERTIFICATE;
    Unfold(p, Client, START_CONNECT, ENTER_EARLY_DATA, [FromClient(ClientHello)]);
    Unfold(p, Client, ENTER_EARLY_DATA, READ_SERVER_HELLO, []);
    Unfold(p, Client, READ_SERVER_HELLO, c, [FromServer(ServerHello(p.facts))]);
    Unfold(p, Server, START_ACCEPT, READ_CLIENT_HELLO, []);
    Unfold(p, Server, READ_CLIENT_HELLO, SELECT_CERTIFICATE, []);
    Unfold(p, Server, SELECT_CERTIFICATE, SELECT_PARAMETERS, []);
    Unfold(p, Server, SELECT_PARAMETERS, SEND_SERVER_HELLO, [FromClient(ClientHello)]);
    Unfold(p, Server, SEND_SERVER_HELLO, s, [FromServer(ServerHello(p.facts))]);
    hide Succ, Rank, NextState, Head;
  }
}
