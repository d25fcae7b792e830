/** A client and a server joined by lossless channels. With agreeing settings and nothing failing, every fair run
    ends with both handshakes done, both having gone through the same items. */
module HsJoint {
  import opened Common
  import opened HsModel
  import opened HsSafety
  import opened HsScript
  import opened HsFollow
  import opened HsCourse

  /** Both endpoints, and what is on its way to each of them. */
  datatype Net = Net(client: Hs, server: Hs, toClient: seq<Body>, toServer: seq<Body>)
  {
    function End(role: Role): Hs { if role.Client? then client else server }
    function Line(role: Role): seq<Body> { if role.Client? then toClient else toServer }
    /** The end of `role` becomes hs, with `mine` on the way to it and `theirs` on the way to its peer. */
    function With(role: Role, hs: Hs, mine: seq<Body>, theirs: seq<Body>): Net
    {
      if role.Client? then Net(hs, server, mine, theirs) else Net(client, hs, theirs, mine)
    }
  }

  datatype Settings = Settings(client: Config, server: Config)
  {
    function Of(role: Role): Config { if role.Client? then client else server }
    function Plan(): Plan { PlanOf(client, server) }
    /** A server that insists on a client certificate gets one. */
    predicate Agree() { Plan().certRequest && server.requireCert ==> client.hasCert }
  }

  /** Running the state machine (in which an operation may ask to be repeated), receiving a record, flushing a
      flight, or coming back after an operation asked to be repeated. */
  datatype Act = Run(retry: bool) | Receive | SendOut | Return
  datatype Turn = Turn(role: Role, act: Act)

  /** One endpoint acts, with `mine` on the way to it and `theirs` to its peer. What does not apply changes nothing. */
  function Play(hs: Hs, cfg: Config, act: Act, mine: seq<Body>, theirs: seq<Body>): (Hs, seq<Body>, seq<Body>)
  {
    match act
    case Run(retry) => (Move(hs, cfg, Runs(Env(false, retry))), mine, theirs)
    case Receive =>
      if (hs.wait.ReadsMessage() || hs.wait.WaitCcs?) && mine != [] then (Move(hs, cfg, Arrives(mine[0])), mine[1..], theirs)
      else (hs, mine, theirs)
    case SendOut => if hs.wait.Flush? then (Move(hs, cfg, FlushDone), mine, theirs + hs.pending) else (hs, mine, theirs)
    case Return => (Move(hs, cfg, Reenter), mine, theirs)
  }

  function Step(net: Net, both: Settings, turn: Turn): Net
  {
    var role := turn.role;
    var (hs, mine, theirs) := Play(net.End(role), both.Of(role), turn.act, net.Line(role), net.Line(role.Peer()));
    net.With(role, hs, mine, theirs)
  }

  function Steps(net: Net, both: Settings, turns: seq<Turn>): Net
    decreases |turns|
  {
    if turns == [] then net else Steps(Step(net, both, turns[0]), both, turns[1..])
  }

  function StartNet(): Net { Net(Start(Client), Start(Server), [], []) }

  // ---------------------------------------------------------------- what is in flight

  function Queue(inbox: Option<Msg>): seq<Body> { if inbox.Some? then [Message(inbox.value)] else [] }

  /** If a has come at least as far as b, then what a has done more is what is in flight to b, and a did it all by
      itself; nothing is in flight to a. */
  predicate Linked(a: Hs, b: Hs, toB: seq<Body>, toA: seq<Body>)
  {
    |b.trace| <= |a.trace| ==>
      && b.trace == a.trace[..|b.trace|]
      && (forall i :: |b.trace| <= i < |a.trace| ==> a.trace[i].sender == a.role)
      && Bodies(a.trace[|b.trace|..]) == Queue(b.inbox) + toB + a.pending
      && toA == [] && b.pending == [] && a.inbox.None?
  }

  /** Two endpoints that follow the script together. */
  ghost predicate Pair(a: Hs, b: Hs, toA: seq<Body>, toB: seq<Body>, p: Plan, cfgA: Config, cfgB: Config)
  {
    b.role == a.role.Peer() && Follows(a, p, cfgA) && Follows(b, p, cfgB) && Linked(a, b, toB, toA) && Linked(b, a, toA, toB)
  }

  ghost predicate Joined(net: Net, both: Settings)
  {
    net.client.role == Client && Pair(net.client, net.server, net.toClient, net.toServer, both.Plan(), both.client, both.server)
  }

  /** The next item of the script, and how far it goes. */
  lemma NextItem(hs: Hs, p: Plan, cfg: Config)
    requires Follows(hs, p, cfg)
    ensures hs.trace == Script(p)[..|hs.trace|] && |hs.trace| <= |Script(p)|
    ensures Left(hs, p) == [] ==> hs.trace == Script(p)
    ensures Left(hs, p) != [] ==> |hs.trace| < |Script(p)| && Script(p)[|hs.trace|] == Real(Left(hs, p)[0], hs.transcript)
  {
    hide Inv, Left, Script, Visited, Suits, Agrees, IsCurrent, Awaits;
  }

  lemma Prefixes(a: Hs, b: Hs, p: Plan, cfgA: Config, cfgB: Config)
    requires Follows(a, p, cfgA) && Follows(b, p, cfgB)
    ensures |b.trace| <= |a.trace| ==> b.trace == a.trace[..|b.trace|]
  {
    NextItem(a, p, cfgA);
    NextItem(b, p, cfgB);
    hide Follows, Script;
  }

  /** Nobody is ahead of an endpoint that can go on by itself. */
  lemma SenderLeads(a: Hs, b: Hs, toB: seq<Body>, toA: seq<Body>, p: Plan, cfgA: Config, cfgB: Config)
    requires Follows(a, p, cfgA) && Follows(b, p, cfgB) && Linked(b, a, toA, toB) && b.role == a.role.Peer()
    requires Left(a, p) != [] && Left(a, p)[0].sender == a.role
    ensures |b.trace| <= |a.trace|
  {
    NextItem(a, p, cfgA);
    NextItem(b, p, cfgB);
    hide Follows, Script, Left;
  }

  // ---------------------------------------------------------------- moves keep the channels in step

  lemma BodiesAppend(a: seq<Item>, b: seq<Item>)
    ensures Bodies(a + b) == Bodies(a) + Bodies(b)
  {
  }

  /** Queueing items at the end that leads. */
  lemma SendLinks(a: Hs, r: Hs, b: Hs, toB: seq<Body>, toA: seq<Body>, kinds: seq<Kind>)
    requires Linked(a, b, toB, toA) && Linked(b, a, toA, toB) && Sends(a, r, kinds)
    requires kinds != [] ==> |b.trace| <= |a.trace|
    ensures Linked(r, b, toB, toA) && Linked(b, r, toA, toB)
  {
    var more := Fill(a.transcript, kinds);
    SendersFilled(a.transcript, kinds);
    hide Fill, HeardAll;
    if |b.trace| <= |a.trace| {
      assert r.trace[|b.trace|..] == a.trace[|b.trace|..] + more;
      BodiesAppend(a.trace[|b.trace|..], more);
    }
  }

  lemma {:induction false} SendersFilled(transcript: seq<Msg>, kinds: seq<Kind>)
    ensures forall i :: 0 <= i < |kinds| ==> Fill(transcript, kinds)[i].sender == kinds[i].sender
    decreases |kinds|
  {
    if kinds != [] { SendersFilled(Heard(transcript, Real(kinds[0], transcript)), kinds[1..]); }
  }

  /** Taking the current message. */
  lemma TakeLinks(a: Hs, r: Hs, b: Hs, toB: seq<Body>, toA: seq<Body>, item: Item)
    requires Linked(a, b, toB, toA) && Linked(b, a, toA, toB) && a.inbox.Some?
    requires r.role == a.role && r.trace == a.trace + [item] && r.inbox.None? && r.pending == a.pending
    requires |r.trace| <= |b.trace| ==> r.trace == b.trace[..|r.trace|]
    ensures Linked(r, b, toB, toA) && Linked(b, r, toA, toB)
  {
    DropBody(b.trace, |a.trace|);
    assert (Queue(a.inbox) + toA + b.pending)[1..] == [] + toA + b.pending;
  }

  lemma DropBody(trace: seq<Item>, n: nat)
    requires n < |trace|
    ensures Bodies(trace[n..]) != [] && Bodies(trace[n..])[0] == trace[n].body && Bodies(trace[n..])[1..] == Bodies(trace[n + 1..])
  {
  }

  /** A message arrives at the end that trails. */
  lemma MessageLinks(a: Hs, r: Hs, b: Hs, toB: seq<Body>, toA: seq<Body>)
    requires Linked(a, b, toB, toA) && Linked(b, a, toA, toB) && a.inbox.None? && toA != []
    requires r.role == a.role && r.trace == a.trace && r.pending == a.pending && Queue(r.inbox) == [toA[0]]
    ensures Linked(r, b, toB, toA[1..]) && Linked(b, r, toA[1..], toB)
  {
    assert [toA[0]] + toA[1..] == toA == Queue(a.inbox) + toA;
  }

  /** A ChangeCipherSpec arrives. */
  lemma CcsLinks(a: Hs, r: Hs, b: Hs, toB: seq<Body>, toA: seq<Body>, item: Item)
    requires Linked(a, b, toB, toA) && Linked(b, a, toA, toB) && a.inbox.None? && toA != []
    requires r.role == a.role && r.trace == a.trace + [item] && r.pending == a.pending && r.inbox.None?
    requires |r.trace| <= |b.trace| ==> r.trace == b.trace[..|r.trace|]
    ensures Linked(r, b, toB, toA[1..]) && Linked(b, r, toA[1..], toB)
  {
    MiddleMessage(a, b, toB, toA);
    DropBody(b.trace, |a.trace|);
    assert (Queue(a.inbox) + toA + b.pending)[1..] == [] + toA[1..] + b.pending;
  }

  /** What arrives is the body of the item that the receiver has not gone through yet. */
  lemma MiddleMessage(a: Hs, b: Hs, toB: seq<Body>, toA: seq<Body>)
    requires Linked(a, b, toB, toA) && Linked(b, a, toA, toB) && a.inbox.None? && toA != []
    ensures |a.trace| < |b.trace| && toA[0] == b.trace[|a.trace|].body
  {
    assert Bodies(b.trace[|a.trace|..])[0] == (Queue(a.inbox) + toA + b.pending)[0] == toA[0];
  }

  /** A flight goes out. */
  lemma FlushLinks(a: Hs, r: Hs, b: Hs, toB: seq<Body>, toA: seq<Body>)
    requires Linked(a, b, toB, toA) && Linked(b, a, toA, toB)
    requires r.role == a.role && r.trace == a.trace && r.inbox == a.inbox && r.pending == []
    ensures Linked(r, b, toB + a.pending, toA) && Linked(b, r, toA, toB + a.pending)
  {
    assert Queue(b.inbox) + (toB + a.pending) + [] == Queue(b.inbox) + toB + a.pending;
    assert toB == [] && a.pending == [] ==> toB + a.pending == [];
  }

  // ---------------------------------------------------------------- every turn keeps the pair together

  lemma SendPair(a: Hs, r: Hs, b: Hs, toA: seq<Body>, toB: seq<Body>, p: Plan, cfgA: Config, cfgB: Config, kinds: seq<Kind>)
    requires Pair(a, b, toA, toB, p, cfgA, cfgB) && Follows(r, p, cfgA) && Sends(a, r, kinds) && (kinds != [] ==> kinds <= Left(a, p))
    ensures Pair(r, b, toA, toB, p, cfgA, cfgB)
  {
    hide Follows, Linked, Left;
    if kinds != [] { SenderLeads(a, b, toB, toA, p, cfgA, cfgB); }
    SendLinks(a, r, b, toB, toA, kinds);
  }

  lemma TakePair(a: Hs, r: Hs, b: Hs, toA: seq<Body>, toB: seq<Body>, p: Plan, cfgA: Config, cfgB: Config, kinds: seq<Kind>)
    requires Pair(a, b, toA, toB, p, cfgA, cfgB) && Follows(r, p, cfgA) && Takes(a, r, kinds)
    ensures Pair(r, b, toA, toB, p, cfgA, cfgB)
  {
    Prefixes(b, r, p, cfgB, cfgA);
    assert Fill(a.transcript, kinds) == [Real(kinds[0], a.transcript)];
    hide Follows, Linked, HeardAll, Fill;
    TakeLinks(a, r, b, toB, toA, Real(kinds[0], a.transcript));
  }

  lemma AdvancePair(a: Hs, r: Hs, b: Hs, toA: seq<Body>, toB: seq<Body>, p: Plan, cfgA: Config, cfgB: Config)
    requires Pair(a, b, toA, toB, p, cfgA, cfgB) && Follows(r, p, cfgA) && a.state != DONE && Advanced(a, r, p, cfgA)
    ensures Pair(r, b, toA, toB, p, cfgA, cfgB)
  {
    assert Todo(a, p) <= Left(a, p);
    hide Pair, Follows, Todo, Sends, Takes;
    if Sends(a, r, Todo(a, p)) {
      SendPair(a, r, b, toA, toB, p, cfgA, cfgB, Todo(a, p));
    } else {
      TakePair(a, r, b, toA, toB, p, cfgA, cfgB, Todo(a, p));
    }
  }

  lemma WaitPair(a: Hs, wait: Wait, b: Hs, toA: seq<Body>, toB: seq<Body>, p: Plan, cfgA: Config, cfgB: Config)
    requires Pair(a, b, toA, toB, p, cfgA, cfgB) && Follows(a.(wait := wait), p, cfgA)
    ensures Pair(a.(wait := wait), b, toA, toB, p, cfgA, cfgB)
  {
    hide Follows;
  }

  /** How much an endpoint has still to do. */
  function Work(hs: Hs, p: Plan): nat
    requires hs.state <= DONE
  {
    5 * Rank(hs.role, hs.state, p.facts.resumed)
    + match hs.wait
      case Continue => if hs.state == DONE then 0 else if hs.inbox.None? then 3 else 1
      case WaitMessage | WaitServerHello => 2
      case _ => 4
  }

  lemma RunPair(a: Hs, b: Hs, toA: seq<Body>, toB: seq<Body>, p: Plan, cfgA: Config, cfgB: Config, retry: bool)
    requires Pair(a, b, toA, toB, p, cfgA, cfgB) && a.wait.Continue? && a.state != DONE
    ensures var r := Do(a, cfgA, Env(false, retry));
      Pair(r, b, toA, toB, p, cfgA, cfgB) && (Work(r, p) < Work(a, p) || (retry && Work(r, p) <= Work(a, p) + 3))
  {
    var r := Do(a, cfgA, Env(false, retry));
    RunFollows(a, p, cfgA, Env(false, retry));
    WaitsOnly(a, r, p, cfgA, Env(false, retry));
    hide Do, Pair, Follows;
    if Advanced(a, r, p, cfgA) {
      AdvancePair(a, r, b, toA, toB, p, cfgA, cfgB);
      AdvanceWork(a, r, p, cfgA);
    } else {
      WaitPair(a, r.wait, b, toA, toB, p, cfgA, cfgB);
      hide Advanced, Awaits;
    }
  }

  lemma AdvanceWork(a: Hs, r: Hs, p: Plan, cfg: Config)
    requires Follows(a, p, cfg) && a.wait.Continue? && a.state != DONE && Advanced(a, r, p, cfg)
    ensures Work(r, p) < Work(a, p)
  {
    SuccRank(p, a.role, a.state);
    hide Rank, Succ, Follows, Todo, Agrees, FlushesInTime;
  }

  lemma ReceivePair(a: Hs, b: Hs, toA: seq<Body>, toB: seq<Body>, p: Plan, cfgA: Config, cfgB: Config)
    requires Pair(a, b, toA, toB, p, cfgA, cfgB) && (a.wait.ReadsMessage() || a.wait.WaitCcs?) && toA != []
    ensures var r := Move(a, cfgA, Arrives(toA[0])); Pair(r, b, toA[1..], toB, p, cfgA, cfgB) && Work(r, p) < Work(a, p)
  {
    ReceivesItem(a, b, toA, toB, p, cfgA, cfgB);
    if a.wait.WaitCcs? {
      var r := Move(a, cfgA, Arrives(Ccs));
      CcsFollows(a, p, cfgA);
      Prefixes(b, r, p, cfgB, cfgA);
      hide Follows, Linked, Move, Rank;
      CcsLinks(a, r, b, toB, toA, Item(a.role.Peer(), false, Ccs));
    } else {
      MessageFollows(a, p, cfgA, toA[0].m);
      hide Follows, Linked, Move, Rank;
      MessageLinks(a, a.(inbox := Some(toA[0].m), wait := Continue), b, toB, toA);
    }
  }

  lemma ReadingNext(a: Hs, p: Plan, cfg: Config)
    requires Follows(a, p, cfg) && Reading(a)
    ensures a.inbox.None? && a.state != DONE && Left(a, p) != [] && (Left(a, p)[0].CcsBy? <==> a.wait.WaitCcs?)
  {
    hide Rest, Sound, Counted, Suits, Agrees, Fill;
  }

  /** What arrives is what is waited for. */
  lemma ReceivesItem(a: Hs, b: Hs, toA: seq<Body>, toB: seq<Body>, p: Plan, cfgA: Config, cfgB: Config)
    requires Pair(a, b, toA, toB, p, cfgA, cfgB) && (a.wait.ReadsMessage() || a.wait.WaitCcs?) && toA != []
    ensures a.inbox.None? && a.state != DONE
    ensures if a.wait.WaitCcs? then toA[0] == Ccs else toA[0].Message? && toA[0] == Real(Left(a, p)[0], a.transcript).body
  {
    NextItem(a, p, cfgA);
    NextItem(b, p, cfgB);
    ReadingNext(a, p, cfgA);
    hide Script, Linked, Follows, Left;
    MiddleMessage(a, b, toB, toA);
  }

  lemma PairInRange(a: Hs, b: Hs, toA: seq<Body>, toB: seq<Body>, p: Plan, cfgA: Config, cfgB: Config)
    requires Pair(a, b, toA, toB, p, cfgA, cfgB)
    ensures a.state <= DONE && b.state <= DONE && b.role == a.role.Peer() && (!a.wait.Continue? ==> a.state != DONE)
    ensures Follows(a, p, cfgA) && Follows(b, p, cfgB)
  {
    hide Inv, Linked;
  }

  lemma FlushPair(a: Hs, b: Hs, toA: seq<Body>, toB: seq<Body>, p: Plan, cfgA: Config, cfgB: Config)
    requires Pair(a, b, toA, toB, p, cfgA, cfgB) && a.wait.Flush?
    ensures var r := Move(a, cfgA, FlushDone); Pair(r, b, toA, toB + a.pending, p, cfgA, cfgB) && Work(r, p) < Work(a, p)
  {
    hide Follows, Rank, Linked;
    PairInRange(a, b, toA, toB, p, cfgA, cfgB);
    FlushFollows(a, p, cfgA);
    FlushLinks(a, Move(a, cfgA, FlushDone), b, toB, toA);
  }

  lemma ReturnPair(a: Hs, b: Hs, toA: seq<Body>, toB: seq<Body>, p: Plan, cfgA: Config, cfgB: Config)
    requires Pair(a, b, toA, toB, p, cfgA, cfgB) && a.wait.Async?
    ensures var r := Move(a, cfgA, Reenter); Pair(r, b, toA, toB, p, cfgA, cfgB) && Work(r, p) < Work(a, p)
  {
    hide Pair, Follows, Rank;
    PairInRange(a, b, toA, toB, p, cfgA, cfgB);
    ReturnFollows(a, p, cfgA);
    WaitPair(a, Continue, b, toA, toB, p, cfgA, cfgB);
  }

  lemma Swap(a: Hs, b: Hs, toA: seq<Body>, toB: seq<Body>, p: Plan, cfgA: Config, cfgB: Config)
    requires Pair(a, b, toA, toB, p, cfgA, cfgB)
    ensures Pair(b, a, toB, toA, p, cfgB, cfgA)
  {
    hide Follows, Linked;
  }

  lemma JoinedPair(net: Net, both: Settings, role: Role)
    requires Joined(net, both)
    ensures Pair(net.End(role), net.End(role.Peer()), net.Line(role), net.Line(role.Peer()), both.Plan(), both.Of(role), both.Of(role.Peer()))
  {
    Swap(net.client, net.server, net.toClient, net.toServer, both.Plan(), both.client, both.server);
    hide Pair;
  }

  lemma JoinedRoles(net: Net, both: Settings)
    requires Joined(net, both)
    ensures net.client.role == Client && net.server.role == Server && InRange(net)
  {
    PairInRange(net.client, net.server, net.toClient, net.toServer, both.Plan(), both.client, both.server);
  }

  lemma PairJoined(net: Net, both: Settings, role: Role)
    requires net.client.role == Client
    requires Pair(net.End(role), net.End(role.Peer()), net.Line(role), net.Line(role.Peer()), both.Plan(), both.Of(role), both.Of(role.Peer()))
    ensures Joined(net, both)
  {
    if role.Server? { Swap(net.server, net.client, net.toServer, net.toClient, both.Plan(), both.server, both.client); }
    hide Pair;
  }

  predicate InRange(net: Net) { net.client.state <= DONE && net.server.state <= DONE }

  function TotalWork(net: Net, both: Settings): nat
    requires InRange(net)
  {
    Work(net.client, both.Plan()) + Work(net.server, both.Plan())
  }

  lemma WorkSplit(net: Net, both: Settings, role: Role)
    requires InRange(net)
    ensures TotalWork(net, both) == Work(net.End(role), both.Plan()) + Work(net.End(role.Peer()), both.Plan())
  {
    hide Work;
  }

  /** The act keeps the pair together; and if it does anything it leaves less to do, unless it was asked to be repeated. */
  ghost predicate Plays(a: Hs, b: Hs, toA: seq<Body>, toB: seq<Body>, p: Plan, cfgA: Config, cfgB: Config, act: Act)
  {
    var (r, mine, theirs) := Play(a, cfgA, act, toA, toB);
    && Pair(r, b, mine, theirs, p, cfgA, cfgB) && a.state <= DONE && r.state <= DONE
    && ((r, mine, theirs) == (a, toA, toB) || Work(r, p) < Work(a, p) || (act == Run(true) && Work(r, p) <= Work(a, p) + 3))
  }

  lemma RunPlays(a: Hs, b: Hs, toA: seq<Body>, toB: seq<Body>, p: Plan, cfgA: Config, cfgB: Config, retry: bool)
    requires Pair(a, b, toA, toB, p, cfgA, cfgB)
    ensures Plays(a, b, toA, toB, p, cfgA, cfgB, Run(retry))
  {
    PairInRange(a, b, toA, toB, p, cfgA, cfgB);
    hide Pair, Follows, Do, Resolve, Rank, Work;
    if a.wait.Continue? && a.state != DONE {
      var r := Do(a, cfgA, Env(false, retry));
      RunPair(a, b, toA, toB, p, cfgA, cfgB, retry);
      PairInRange(r, b, toA, toB, p, cfgA, cfgB);
    }
  }

  predicate Reading(hs: Hs) { hs.wait.ReadsMessage() || hs.wait.WaitCcs? }

  /** What the acts other than Run come to. */
  lemma PlayIs(a: Hs, cfg: Config, toA: seq<Body>, toB: seq<Body>)
    ensures Play(a, cfg, Receive, toA, toB)
      == if Reading(a) && toA != [] then (Move(a, cfg, Arrives(toA[0])), toA[1..], toB) else (a, toA, toB)
    ensures Play(a, cfg, SendOut, toA, toB) == if a.wait.Flush? then (Move(a, cfg, FlushDone), toA, toB + a.pending) else (a, toA, toB)
    ensures Play(a, cfg, Return, toA, toB) == if a.wait.Async? then (Move(a, cfg, Reenter), toA, toB) else (a, toA, toB)
  {
    hide Do, Resolve;
  }

  lemma ReceivePlays(a: Hs, b: Hs, toA: seq<Body>, toB: seq<Body>, p: Plan, cfgA: Config, cfgB: Config)
    requires Pair(a, b, toA, toB, p, cfgA, cfgB)
    ensures Plays(a, b, toA, toB, p, cfgA, cfgB, Receive)
  {
    hide Play, Move, Pair, Follows, Rank, Work;
    PlayIs(a, cfgA, toA, toB);
    PairInRange(a, b, toA, toB, p, cfgA, cfgB);
    if Reading(a) && toA != [] {
      ReceivePair(a, b, toA, toB, p, cfgA, cfgB);
      PairInRange(Move(a, cfgA, Arrives(toA[0])), b, toA[1..], toB, p, cfgA, cfgB);
    }
  }

  lemma SendOutPlays(a: Hs, b: Hs, toA: seq<Body>, toB: seq<Body>, p: Plan, cfgA: Config, cfgB: Config)
    requires Pair(a, b, toA, toB, p, cfgA, cfgB)
    ensures Plays(a, b, toA, toB, p, cfgA, cfgB, SendOut)
  {
    hide Play, Move, Pair, Follows, Rank, Work;
    PlayIs(a, cfgA, toA, toB);
    PairInRange(a, b, toA, toB, p, cfgA, cfgB);
    if a.wait.Flush? {
      FlushPair(a, b, toA, toB, p, cfgA, cfgB);
      PairInRange(Move(a, cfgA, FlushDone), b, toA, toB + a.pending, p, cfgA, cfgB);
    }
  }

  lemma ReturnPlays(a: Hs, b: Hs, toA: seq<Body>, toB: seq<Body>, p: Plan, cfgA: Config, cfgB: Config)
    requires Pair(a, b, toA, toB, p, cfgA, cfgB)
    ensures Plays(a, b, toA, toB, p, cfgA, cfgB, Return)
  {
    hide Play, Move, Pair, Follows, Rank, Work;
    PlayIs(a, cfgA, toA, toB);
    PairInRange(a, b, toA, toB, p, cfgA, cfgB);
    if a.wait.Async? {
      ReturnPair(a, b, toA, toB, p, cfgA, cfgB);
      PairInRange(Move(a, cfgA, Reenter), b, toA, toB, p, cfgA, cfgB);
    }
  }

  lemma PlayPair(a: Hs, b: Hs, toA: seq<Body>, toB: seq<Body>, p: Plan, cfgA: Config, cfgB: Config, act: Act)
    requires Pair(a, b, toA, toB, p, cfgA, cfgB)
    ensures Plays(a, b, toA, toB, p, cfgA, cfgB, act)
  {
    hide Pair, Plays;
    match act
    case Run(retry) => RunPlays(a, b, toA, toB, p, cfgA, cfgB, retry);
    case Receive => ReceivePlays(a, b, toA, toB, p, cfgA, cfgB);
    case SendOut => SendOutPlays(a, b, toA, toB, p, cfgA, cfgB);
    case Return => ReturnPlays(a, b, toA, toB, p, cfgA, cfgB);
  }

  lemma StepIs(net: Net, both: Settings, turn: Turn)
    requires net.client.role == Client && net.server.role == Server
    ensures var role, next := turn.role, Step(net, both, turn);
      var (hs, mine, theirs) := Play(net.End(role), both.Of(role), turn.act, net.Line(role), net.Line(role.Peer()));
      && next.End(role) == hs && next.End(role.Peer()) == net.End(role.Peer()) && next.Line(role) == mine && next.Line(role.Peer()) == theirs
      && ((hs, mine, theirs) == (net.End(role), net.Line(role), net.Line(role.Peer())) ==> next == net)
  {
    hide Play;
  }

  /** Every turn keeps the pair together; and if it does anything it leaves less to do, unless it was asked to be
      repeated. */
  lemma StepKeeps(net: Net, both: Settings, turn: Turn)
    requires Joined(net, both)
    ensures var r := Step(net, both, turn);
      Joined(r, both) && InRange(net) && InRange(r)
      && (r == net || TotalWork(r, both) < TotalWork(net, both)
          || (turn.act == Run(true) && TotalWork(r, both) <= TotalWork(net, both) + 3))
  {
    var role, next := turn.role, Step(net, both, turn);
    JoinedPair(net, both, role);
    JoinedRoles(net, both);
    StepIs(net, both, turn);
    hide Joined, Pair, Play, Step, Work, TotalWork, Follows;
    var a, b, toA, toB, cfgA, cfgB := net.End(role), net.End(role.Peer()), net.Line(role), net.Line(role.Peer()), both.Of(role), both.Of(role.Peer());
    PlayPair(a, b, toA, toB, both.Plan(), cfgA, cfgB, turn.act);
    PairInRange(a, b, toA, toB, both.Plan(), cfgA, cfgB);
    assert next.client.role == Client by { PairInRange(next.End(role), b, next.Line(role), next.Line(role.Peer()), both.Plan(), cfgA, cfgB); }
    PairJoined(next, both, role);
    WorkSplit(net, both, role);
    WorkSplit(next, both, role);
  }

  // ---------------------------------------------------------------- no deadlock

  predicate Resting(hs: Hs) { Reading(hs) || hs.state == DONE }

  /** What an endpoint does next if it need not wait for its peer. */
  function NextAct(hs: Hs): Act
  {
    match hs.wait
    case Continue => Run(false)
    case Flush => SendOut
    case Async => Return
    case _ => Receive
  }

  lemma RestingQuiet(a: Hs, p: Plan, cfg: Config)
    requires Follows(a, p, cfg) && Resting(a)
    ensures a.pending == []
    ensures Reading(a) ==> a.inbox.None? && a.state != DONE && Left(a, p) != [] && Left(a, p)[0].sender == a.role.Peer()
    ensures !Reading(a) ==> Left(a, p) == []
  {
    hide Rest, Sound, Counted, Suits, Agrees, Fill;
  }

  /** Two endpoints at rest have something on its way to one that reads. */
  lemma RestingInFlight(a: Hs, b: Hs, toA: seq<Body>, toB: seq<Body>, p: Plan, cfgA: Config, cfgB: Config)
    requires Pair(a, b, toA, toB, p, cfgA, cfgB) && Reading(a) && Resting(b)
    ensures toA != [] || (Reading(b) && toB != [])
  {
    NextItem(a, p, cfgA);
    NextItem(b, p, cfgB);
    RestingQuiet(a, p, cfgA);
    RestingQuiet(b, p, cfgB);
    hide Follows, Script, Left;
    if |a.trace| < |b.trace| {
      DropBody(b.trace, |a.trace|);
    } else {
      assert |b.trace| < |a.trace|;
      DropBody(a.trace, |b.trace|);
    }
  }

  /** An endpoint that need not wait, or has something to receive, can act. */
  lemma Acts(a: Hs, b: Hs, toA: seq<Body>, toB: seq<Body>, p: Plan, cfgA: Config, cfgB: Config)
    requires Pair(a, b, toA, toB, p, cfgA, cfgB) && (!Resting(a) || (Reading(a) && toA != []))
    ensures Play(a, cfgA, NextAct(a), toA, toB) != (a, toA, toB)
  {
    PairInRange(a, b, toA, toB, p, cfgA, cfgB);
    assert a.wait != Failed by { hide Pair; }
    hide Pair, Follows, Do, Resolve, Rank, Work, Flushed, Reentered;
    match NextAct(a)
    case Run(_) => RunPair(a, b, toA, toB, p, cfgA, cfgB, false);
    case Receive => ReceivePair(a, b, toA, toB, p, cfgA, cfgB);
    case SendOut => FlushPair(a, b, toA, toB, p, cfgA, cfgB);
    case Return => ReturnPair(a, b, toA, toB, p, cfgA, cfgB);
  }

  // ---------------------------------------------------------------- all runs

  predicate BothDone(net: Net) { net.client.state == DONE && net.server.state == DONE }

  /** As long as not both handshakes are done, there is a turn that changes something. */
  lemma NoDeadlock(net: Net, both: Settings) returns (turn: Turn)
    requires Joined(net, both) && !BothDone(net)
    ensures turn.act != Run(true) && Step(net, both, turn) != net
  {
    var p := both.Plan();
    var a, b := net.client, net.server;
    var role := if !Resting(a) || (Reading(a) && net.toClient != []) then Client else Server;
    assert Pair(b, a, net.toServer, net.toClient, p, both.server, both.client) by { JoinedPair(net, both, Server); }
    assert !Resting(b) || (Reading(b) && net.toServer != []) || role == Client by {
      hide Pair;
      if Resting(a) && Resting(b) {
        if Reading(a) { RestingInFlight(a, b, net.toClient, net.toServer, p, both.client, both.server); }
        else { RestingInFlight(b, a, net.toServer, net.toClient, p, both.server, both.client); }
      }
    }
    JoinedPair(net, both, role);
    JoinedRoles(net, both);
    hide Pair, Play, Joined, Resting, Reading;
    turn := Turn(role, NextAct(net.End(role)));
    Acts(net.End(role), net.End(role.Peer()), net.Line(role), net.Line(role.Peer()), p, both.Of(role), both.Of(role.Peer()));
    StepIs(net, both, turn);
  }

  lemma StartJoined(both: Settings)
    requires both.Agree()
    ensures Joined(StartNet(), both)
  {
    var p := both.Plan();
    assert Suits(p, Client, both.client) && Suits(p, Server, both.server);
    SameCourse(p);
    hide Follows, PlanOf, Rest, Suits;
    StartFollows(p, Client, both.client);
    StartFollows(p, Server, both.server);
    assert Bodies([]) == [];
  }

  lemma StartLeft(p: Plan, role: Role)
    ensures Left(Start(role), p) == Rest(p, role, 0)
  {
  }

  lemma StartFollows(p: Plan, role: Role, cfg: Config)
    requires Suits(p, role, cfg) && Rest(p, Client, START_CONNECT) == Rest(p, role, 0)
    ensures Follows(Start(role), p, cfg)
  {
    assert Inv(Start(role));
    StartLeft(p, role);
    hide Rest, Fill, Suits, Inv, Left;
  }

  lemma {:induction false} StepsKeep(net: Net, both: Settings, turns: seq<Turn>)
    requires Joined(net, both)
    ensures Joined(Steps(net, both, turns), both)
    decreases |turns|
  {
    if turns != [] {
      StepKeeps(net, both, turns[0]);
      StepsKeep(Step(net, both, turns[0]), both, turns[1..]);
    }
  }

  /** How many turns change something, and how many ask an operation to be repeated. */
  function Changes(net: Net, both: Settings, turns: seq<Turn>): nat
    decreases |turns|
  {
    if turns == [] then 0
    else (if Step(net, both, turns[0]) == net then 0 else 1) + Changes(Step(net, both, turns[0]), both, turns[1..])
  }

  function Retries(turns: seq<Turn>): nat
  {
    if turns == [] then 0 else (if turns[0].act == Run(true) then 1 else 0) + Retries(turns[1..])
  }

  /** Every run is bounded by the work there is and the number of operations repeated. */
  lemma {:induction false} RunBounded(net: Net, both: Settings, turns: seq<Turn>)
    requires Joined(net, both)
    ensures Joined(Steps(net, both, turns), both) && InRange(net) && InRange(Steps(net, both, turns))
    ensures Changes(net, both, turns) + TotalWork(Steps(net, both, turns), both) <= TotalWork(net, both) + 4 * Retries(turns)
    decreases |turns|
  {
    JoinedRoles(net, both);
    hide Joined, Step, TotalWork;
    if turns != [] {
      StepKeeps(net, both, turns[0]);
      RunBounded(Step(net, both, turns[0]), both, turns[1..]);
    }
  }

  /** Every turn but a repeated operation comes up. */
  ghost predicate Fair(round: seq<Turn>)
  {
    forall turn: Turn :: turn.act != Run(true) ==> turn in round
  }

  lemma {:induction false} SomeChange(net: Net, both: Settings, turns: seq<Turn>, turn: Turn)
    requires turn in turns && Step(net, both, turn) != net
    ensures Changes(net, both, turns) > 0
    decreases |turns|
  {
    hide Step;
    if Step(net, both, turns[0]) == net { SomeChange(net, both, turns[1..], turn); }
  }

  lemma {:induction false} StepsAppend(net: Net, both: Settings, a: seq<Turn>, b: seq<Turn>)
    ensures Steps(net, both, a + b) == Steps(Steps(net, both, a), both, b) && Retries(a + b) == Retries(a) + Retries(b)
    decreases |a|
  {
    hide Step;
    if a == [] {
      assert a + b == b;
    } else {
      assert (a + b)[1..] == a[1..] + b;
      StepsAppend(Step(net, both, a[0]), both, a[1..], b);
    }
  }

  function Flat(rounds: seq<seq<Turn>>): seq<Turn> { if rounds == [] then [] else rounds[0] + Flat(rounds[1..]) }

  lemma {:induction false} FinishedStays(net: Net, both: Settings, turns: seq<Turn>)
    requires Joined(net, both) && BothDone(net)
    ensures Steps(net, both, turns) == net
    decreases |turns|
  {
    if turns != [] {
      DoneStays(net, both, turns[0]);
      hide Joined, Step;
      FinishedStays(net, both, turns[1..]);
    }
  }

  lemma DoneStays(net: Net, both: Settings, turn: Turn)
    requires Joined(net, both) && BothDone(net)
    ensures Step(net, both, turn) == net
  {
    JoinedPair(net, both, turn.role);
    JoinedRoles(net, both);
    StepIs(net, both, turn);
    hide Joined, Step;
    var role := turn.role;
    DoneIdle(net.End(role), both.Of(role), turn.act, net.Line(role), net.Line(role.Peer())) by { hide Inv, Linked; }
  }

  lemma DoneIdle(hs: Hs, cfg: Config, act: Act, mine: seq<Body>, theirs: seq<Body>)
    requires hs.state == DONE && hs.wait.Continue?
    ensures Play(hs, cfg, act, mine, theirs) == (hs, mine, theirs)
  {
    hide Do, Resolve;
  }

  lemma {:induction false} RoundsFinish(net: Net, both: Settings, rounds: seq<seq<Turn>>)
    requires Joined(net, both) && InRange(net) && forall round <- rounds :: Fair(round)
    requires |rounds| > TotalWork(net, both) + 4 * Retries(Flat(rounds))
    ensures BothDone(Steps(net, both, Flat(rounds)))
    decreases |rounds|
  {
    hide Joined, Step, TotalWork, Fair;
    if BothDone(net) {
      FinishedStays(net, both, Flat(rounds));
    } else {
      RunBounded(net, both, rounds[0]);
      RoundChanges(net, both, rounds[0]);
      StepsAppend(net, both, rounds[0], Flat(rounds[1..]));
      RoundsFinish(Steps(net, both, rounds[0]), both, rounds[1..]);
    }
  }

  lemma RoundChanges(net: Net, both: Settings, round: seq<Turn>)
    requires Joined(net, both) && !BothDone(net) && Fair(round)
    ensures Changes(net, both, round) > 0
  {
    hide Joined, Step;
    var turn := NoDeadlock(net, both);
    SomeChange(net, both, round, turn);
  }

  /** With agreeing settings and nothing failing, every fair run ends with both handshakes done, however often
      asynchronous operations have to be repeated. */
  lemma FairRunsFinish(both: Settings, rounds: seq<seq<Turn>>)
    requires both.Agree() && (forall round <- rounds :: Fair(round)) && |rounds| > 206 + 4 * Retries(Flat(rounds))
    ensures BothDone(Steps(StartNet(), both, Flat(rounds)))
  {
    StartJoined(both);
    RoundsFinish(StartNet(), both, rounds);
  }

  /** In every run, whatever the order of turns, neither end fails; and when both are done they have gone through
      the same items, in which every Finished covers exactly the messages before it. */
  lemma RunsAgree(both: Settings, turns: seq<Turn>)
    requires both.Agree()
    ensures var net := Steps(StartNet(), both, turns);
      && net.client.wait != Failed && net.server.wait != Failed
      && (BothDone(net) ==>
            net.client.trace == net.server.trace == Script(both.Plan()) && Complete(net.client.trace)
            && net.client.transcript == net.server.transcript == Messages(net.client.trace))
  {
    StartJoined(both);
    StepsKeep(StartNet(), both, turns);
    var net := Steps(StartNet(), both, turns);
    JoinedPair(net, both, Client);
    hide Steps, Joined, Linked, StartNet;
    if BothDone(net) {
      DoneComplete(net.client, both.Plan(), both.client);
      DoneComplete(net.server, both.Plan(), both.server);
    }
  }

  lemma DoneComplete(hs: Hs, p: Plan, cfg: Config)
    requires Follows(hs, p, cfg) && hs.state == DONE
    ensures hs.trace == Script(p) && Complete(hs.trace) && hs.transcript == Messages(hs.trace)
  {
    NextItem(hs, p, cfg);
    hide Script, Suits, Agrees, Inv, Complete;
    CompleteAtDone(hs);
  }
}
