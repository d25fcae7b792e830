/** The invariant of one endpoint in a successful handshake: what it has done and what it has still to do make up
    the script, and the message it holds, if any, is the next item. */
module HsCourse {
  import opened Common
  import opened HsModel
  import opened HsSafety
  import opened HsScript
  import opened HsFollow

  function Left(hs: Hs, p: Plan): seq<Kind>
    requires Visited(p, hs.role, hs.state)
  {
    if hs.state == DONE then []
    else
      SuccRank(p, hs.role, hs.state);
      Todo(hs, p) + Rest(p, hs.role, Succ(p, hs.role, hs.state))
  }

  /** The state looks for a message, and the next item is one from the peer. */
  predicate Awaits(hs: Hs, p: Plan)
    requires Visited(p, hs.role, hs.state)
  {
    && hs.state != ProcessCcs(hs.role) && Left(hs, p) != [] && Awaited(Left(hs, p)[0], hs.role)
    && (Todo(hs, p) != [] || Peeks(hs.role, hs.state))
  }

  ghost predicate Follows(hs: Hs, p: Plan, cfg: Config)
  {
    && Inv(hs) && hs.wait != Failed && Visited(p, hs.role, hs.state) && Suits(p, hs.role, cfg) && Agrees(hs, p, cfg)
    && hs.trace + Fill(hs.transcript, Left(hs, p)) == Script(p)
    && (hs.inbox.Some? ==> Left(hs, p) != [] && IsCurrent(hs, Left(hs, p)[0]) && hs.state != ProcessCcs(hs.role))
    && (hs.wait.ReadsMessage() ==> hs.inbox.None? && Awaits(hs, p))
    && FlushesInTime(hs) && (hs.state == DONE ==> hs.wait.Continue?)
  }

  lemma FollowsSecured(hs: Hs, p: Plan, cfg: Config)
    requires Fits(hs) && Counted(hs) && Visited(p, hs.role, hs.state) && Agrees(hs, p, cfg)
    ensures Secured(hs, p)
  {
    hide TallyOf, Phase;
  }

  /** What a state that leaves the current message alone can meet. */
  lemma {:induction false} Upcoming(p: Plan, role: Role, s: State)
    requires Visited(p, role, s) && Peeks(role, s) && Head(p, role, s) == []
    ensures var s' := Succ(p, role, s); Visited(p, role, s') && Rest(p, role, s') != [] && MayPeek(p, role, s, Rest(p, role, s')[0])
    decreases DONE - s
  {
    var s' := Succ(p, role, s);
    SuccRank(p, role, s);
    Unfold(p, role, s', Succ(p, role, s'), Head(p, role, s'));
    hide Rest;
    if Head(p, role, s') == [] { Upcoming(p, role, s'); }
  }

  lemma FollowsReady(hs: Hs, p: Plan, cfg: Config, env: Env)
    requires Follows(hs, p, cfg) && hs.wait.Continue? && hs.state != DONE && !env.fail
    ensures Ready(hs, p, cfg, env)
  {
    FollowsSecured(hs, p, cfg);
    if Todo(hs, p) == [] && Peeks(hs.role, hs.state) && hs.inbox.Some? { Upcoming(p, hs.role, hs.state); }
    hide Inv, Suits, Agrees, Secured, Rest, Rank, Succ, Fill;
  }

  /** What remains is the rest from the next state on. */
  lemma LeftAfter(hs: Hs, r: Hs, p: Plan)
    requires Visited(p, hs.role, hs.state) && hs.state != DONE && r.role == hs.role && r.state == Succ(p, hs.role, hs.state)
    requires r.wait.WaitCcs? <==> BeforeCcs(hs.role, hs.state)
    ensures Visited(p, r.role, r.state) && Left(hs, p) == Todo(hs, p) + Left(r, p)
    ensures hs.state != ProcessCcs(hs.role) && Todo(hs, p) == [] ==>
      Switched(r.role, r.state, p.facts.resumed) == Switched(hs.role, hs.state, p.facts.resumed)
  {
    SuccRank(p, hs.role, hs.state);
  }

  lemma AdvancedScript(hs: Hs, r: Hs, p: Plan, cfg: Config)
    requires Follows(hs, p, cfg) && hs.wait.Continue? && hs.state != DONE && Advanced(hs, r, p, cfg)
    ensures Visited(p, r.role, r.state) && r.trace + Fill(r.transcript, Left(r, p)) == Script(p)
  {
    LeftAfter(hs, r, p);
    FillAppend(hs.transcript, Todo(hs, p), Left(r, p));
    hide Left, Fill, HeardAll, Todo, Rest, Inv, Suits, Agrees, IsCurrent;
    Associate3(hs.trace, Fill(hs.transcript, Todo(hs, p)), Fill(r.transcript, Left(r, p)));
  }

  lemma Associate3(a: seq<Item>, b: seq<Item>, c: seq<Item>)
    ensures a + (b + c) == (a + b) + c
  {
  }

  lemma AdvancedInbox(hs: Hs, r: Hs, p: Plan, cfg: Config)
    requires Follows(hs, p, cfg) && Inv(r) && hs.wait.Continue? && hs.state != DONE && Advanced(hs, r, p, cfg) && r.inbox.Some?
    ensures Visited(p, r.role, r.state) && Left(r, p) != [] && IsCurrent(r, Left(r, p)[0]) && r.state != ProcessCcs(r.role)
  {
    LeftAfter(hs, r, p);
    FollowsSecured(hs, p, cfg);
    FollowsSecured(r, p, cfg);
    hide Inv, Suits, Agrees, Rest, Rank, Succ, Fill, Sound, Counted, Switched, Wrote;
    assert Todo(hs, p) == [];
  }

  lemma AdvancedFollows(hs: Hs, r: Hs, p: Plan, cfg: Config)
    requires Follows(hs, p, cfg) && Inv(r) && hs.wait.Continue? && hs.state != DONE && Advanced(hs, r, p, cfg)
    ensures Follows(r, p, cfg)
  {
    AdvancedScript(hs, r, p, cfg);
    if r.inbox.Some? { AdvancedInbox(hs, r, p, cfg); }
    hide Rest, Inv, Fill, Agrees, Suits, Sends, Takes, Todo, Succ, IsCurrent;
  }

  lemma SameLeft(hs: Hs, wait: Wait, p: Plan)
    requires Visited(p, hs.role, hs.state) && !hs.wait.WaitCcs? && !wait.WaitCcs?
    ensures Left(hs.(wait := wait), p) == Left(hs, p)
  {
  }

  /** A change of the wait alone. */
  lemma WaitFollows(hs: Hs, wait: Wait, p: Plan, cfg: Config)
    requires Follows(hs, p, cfg) && hs.state != DONE && !hs.wait.WaitCcs? && Inv(hs.(wait := wait))
    requires wait.Continue? || wait.Async? || (wait.ReadsMessage() && hs.inbox.None? && Awaits(hs, p))
    requires hs.wait.Flush? ==> hs.pending == []
    ensures Follows(hs.(wait := wait), p, cfg)
  {
    SameLeft(hs, wait, p);
    hide Rest, Inv, Fill, Suits, Left, Todo, Visited;
  }

  lemma ReadAwaits(hs: Hs, r: Hs, p: Plan, cfg: Config, env: Env)
    requires Follows(hs, p, cfg) && hs.wait.Continue? && hs.state != DONE && Progress(hs, r, p, cfg, env)
    requires !Advanced(hs, r, p, cfg) && r.wait.ReadsMessage()
    ensures hs.inbox.None? && Awaits(hs, p)
  {
    if Todo(hs, p) == [] { Upcoming(p, hs.role, hs.state); }
    hide Rest, Inv, Fill, Agrees, Suits, Advanced, IsCurrent, Head;
  }

  lemma WaitsOnly(hs: Hs, r: Hs, p: Plan, cfg: Config, env: Env)
    requires Progress(hs, r, p, cfg, env)
    ensures Advanced(hs, r, p, cfg) || (r == hs.(wait := r.wait) && (r.wait.Async? || r.wait.ReadsMessage()))
  {
    hide Advanced;
  }

  lemma RunFollows(hs: Hs, p: Plan, cfg: Config, env: Env)
    requires Follows(hs, p, cfg) && hs.wait.Continue? && hs.state != DONE && !env.fail
    ensures Follows(Do(hs, cfg, env), p, cfg) && Progress(hs, Do(hs, cfg, env), p, cfg, env)
  {
    var r := Do(hs, cfg, env);
    FollowsReady(hs, p, cfg, env);
    StepFollows(hs, p, cfg, env);
    assert r == Move(hs, cfg, Runs(env));
    MoveKeeps(hs, cfg, Runs(env));
    hide Do, Ready, Follows, Inv, Advanced, Progress;
    WaitsOnly(hs, r, p, cfg, env);
    if Advanced(hs, r, p, cfg) { AdvancedFollows(hs, r, p, cfg); } else {
      if r.wait.ReadsMessage() { ReadAwaits(hs, r, p, cfg, env); }
      WaitFollows(hs, r.wait, p, cfg);
    }
  }

  // ---------------------------------------------------------------- the other moves

  lemma HeadSecured(p: Plan, role: Role, s: State, transcript: seq<Msg>)
    requires Visited(p, role, s) && Head(p, role, s) != [] && Awaited(Head(p, role, s)[0], role)
    ensures Real(Head(p, role, s)[0], transcript).secured == Switched(role, s, p.facts.resumed)
  {
  }

  /** A message that arrives where one is read is the awaited item, and under the right keys. */
  lemma AwaitedSecured(hs: Hs, p: Plan, cfg: Config)
    requires Follows(hs, p, cfg) && hs.wait.ReadsMessage()
    ensures Real(Left(hs, p)[0], hs.transcript).secured == hs.readSecured
  {
    FollowsSecured(hs, p, cfg);
    hide Inv, Fill, Suits, Agrees, Head, Wrote;
    if Todo(hs, p) == [] {
      Upcoming(p, hs.role, hs.state);
    } else {
      HeadSecured(p, hs.role, hs.state, hs.transcript);
      hide Switched, Peeks;
    }
  }

  lemma MessageFollows(hs: Hs, p: Plan, cfg: Config, m: Msg)
    requires Follows(hs, p, cfg) && hs.wait.ReadsMessage() && Real(Left(hs, p)[0], hs.transcript).body == Message(m)
    ensures Move(hs, cfg, Arrives(Message(m))) == hs.(inbox := Some(m), wait := Continue)
    ensures Follows(hs.(inbox := Some(m), wait := Continue), p, cfg)
  {
    MoveKeeps(hs, cfg, Arrives(Message(m)));
    AwaitedSecured(hs, p, cfg);
    assert Left(hs.(inbox := Some(m), wait := Continue), p) == Left(hs, p);
    hide Inv, Suits, Left, Todo, Visited, Fill;
  }

  lemma CcsLeft(hs: Hs, r: Hs, p: Plan)
    requires Visited(p, hs.role, hs.state) && hs.state == ProcessCcs(hs.role) && hs.wait.WaitCcs? && !r.wait.WaitCcs?
    requires r.role == hs.role && r.state == hs.state
    ensures Left(hs, p) == [CcsBy(hs.role.Peer())] + Left(r, p)
  {
  }

  lemma CcsScript(hs: Hs, r: Hs, p: Plan)
    requires Visited(p, hs.role, hs.state) && hs.state == ProcessCcs(hs.role) && hs.wait.WaitCcs? && !r.wait.WaitCcs?
    requires r.role == hs.role && r.state == hs.state
    requires r.trace == hs.trace + [Item(hs.role.Peer(), false, Ccs)] && r.transcript == hs.transcript
    ensures hs.trace + Fill(hs.transcript, Left(hs, p)) == r.trace + Fill(r.transcript, Left(r, p))
  {
    CcsLeft(hs, r, p);
    hide Left;
    assert Fill(hs.transcript, Left(hs, p)) == [Item(hs.role.Peer(), false, Ccs)] + Fill(hs.transcript, Left(r, p));
    Associate3(hs.trace, [Item(hs.role.Peer(), false, Ccs)], Fill(hs.transcript, Left(r, p)));
  }

  lemma CcsFollows(hs: Hs, p: Plan, cfg: Config)
    requires Follows(hs, p, cfg) && hs.wait.WaitCcs?
    ensures Move(hs, cfg, Arrives(Ccs)) == hs.(trace := hs.trace + [Item(hs.role.Peer(), false, Ccs)], wait := Continue)
    ensures Follows(Move(hs, cfg, Arrives(Ccs)), p, cfg)
  {
    hide Visited, Suits;
    MoveKeeps(hs, cfg, Arrives(Ccs));
    assert !hs.readSecured && hs.state == ProcessCcs(hs.role) by {
      FollowsSecured(hs, p, cfg);
      hide Sound, Rest, Fill;
    }
    CcsScript(hs, Move(hs, cfg, Arrives(Ccs)), p);
    hide Inv, Suits, Left, Todo, Visited, Fill;
  }

  lemma FlushFollows(hs: Hs, p: Plan, cfg: Config)
    requires Follows(hs, p, cfg) && hs.wait.Flush?
    ensures Follows(Move(hs, cfg, FlushDone), p, cfg)
  {
    MoveKeeps(hs, cfg, FlushDone);
    assert Left(Move(hs, cfg, FlushDone), p) == Left(hs, p);
    hide Inv, Suits, Left, Todo, Visited, Fill;
  }

  lemma ReturnFollows(hs: Hs, p: Plan, cfg: Config)
    requires Follows(hs, p, cfg) && hs.wait.Async?
    ensures Follows(Move(hs, cfg, Reenter), p, cfg)
  {
    MoveKeeps(hs, cfg, Reenter);
    assert hs.state != DONE;
    WaitFollows(hs, Continue, p, cfg);
  }
}
