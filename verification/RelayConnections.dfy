/** Who is connected, over every run of the relay, and what a command to a connected node can reach. */
module RelayConnections {
  import opened Options
  import opened RelayTables
  import opened RelayProtocol
  import opened RelaySafety
  import opened RelayProgress

  // ---------------------------------------------------------------- runs, one event more

  lemma {:induction false} ExecJoin(st: State, a: seq<Event>, b: seq<Event>)
    requires Legal(st, a) && Legal(Exec(st, a), b)
    ensures Legal(st, a + b) && Exec(st, a + b) == Exec(Exec(st, a), b)
    decreases |a|
  {
    hide Apply, Enabled;
    if a == [] {
      assert a + b == b;
    } else {
      assert (a + b)[1..] == a[1..] + b;
      ExecJoin(Apply(st, a[0]), a[1..], b);
    }
  }

  lemma {:induction false} ExecSnoc(st: State, es: seq<Event>, e: Event)
    requires Legal(st, es + [e])
    ensures Legal(st, es) && Enabled(Exec(st, es), e) && Exec(st, es + [e]) == Apply(Exec(st, es), e)
    decreases |es|
  {
    hide Apply, Enabled;
    if es == [] {
      assert es + [e] == [e] && [e][1..] == [];
    } else {
      assert (es + [e])[1..] == es[1..] + [e];
      ExecSnoc(Apply(st, es[0]), es[1..], e);
    }
  }

  lemma {:induction false} LastOf(es: seq<Event>)
    requires Legal(INIT, es) && es != []
    ensures var front, e := es[..|es| - 1], es[|es| - 1];
      Legal(INIT, front) && Enabled(Exec(INIT, front), e) && Exec(INIT, es) == Apply(Exec(INIT, front), e)
  {
    hide *;
    var front, e := es[..|es| - 1], es[|es| - 1];
    assert es == front + [e];
    ExecSnoc(INIT, front, e);
  }

  // ---------------------------------------------------------------- who is connected

  /** The node whose agent opened session `s`. */
  function NodeOf(es: seq<Event>, s: nat): Option<string> {
    if es == [] then None
    else
      match es[|es| - 1]
      case Connect(t, node) => if t == s then Some(node) else NodeOf(es[..|es| - 1], s)
      case _ => NodeOf(es[..|es| - 1], s)
  }

  /** The session of the last connect of `n`, unless some session of `n` has disconnected since. */
  function SessionFor(es: seq<Event>, n: string): Option<nat> {
    if es == [] then None
    else
      var front := es[..|es| - 1];
      match es[|es| - 1]
      case Connect(s, node) => if node == n then Some(s) else SessionFor(front, n)
      case Disconnect(s) => if NodeOf(front, s) == Some(n) then None else SessionFor(front, n)
      case _ => SessionFor(front, n)
  }

  ghost predicate NodeKnown(st: State, s: nat, node: Option<string>) {
    (s in st.sessions <==> node.Some?) && (s in st.sessions ==> node == Some(st.sessions[s].node))
  }

  lemma {:induction false} NodeStep(st: State, e: Event, s: nat, node: Option<string>)
    requires NodeKnown(st, s, node) && Enabled(st, e) && ConnectionsOk(st) && IssuedOk(st)
    ensures NodeKnown(Apply(st, e), s, if e.Connect? && e.session == s then Some(e.node) else node)
  {
    if s in st.sessions {
      SessionGrows(st, e, s);
    }
  }

  lemma {:induction false} NodesOfSessions(es: seq<Event>, s: nat)
    requires Legal(INIT, es)
    ensures NodeKnown(Exec(INIT, es), s, NodeOf(es, s))
    decreases |es|
  {
    hide Apply, Enabled, Exec, Legal, NodeKnown;
    if es == [] {
      NobodyAtFirst(s);
    } else {
      var front := es[..|es| - 1];
      LastOf(es);
      NodesOfSessions(front, s);
      StartsWell();
      InvRun(INIT, front);
      NodeStep(Exec(INIT, front), es[|es| - 1], s, NodeOf(front, s));
    }
  }

  lemma {:induction false} NobodyAtFirst(s: nat)
    ensures Exec(INIT, []) == INIT && NodeKnown(INIT, s, None)
  {
  }

  ghost predicate Entry(st: State, n: string, session: Option<nat>) {
    (n in st.relay.connections <==> session.Some?)
    && (n in st.relay.connections ==> session == Some(st.relay.connections[n]))
  }

  lemma {:induction false} EntryStep(st: State, e: Event, n: string, session: Option<nat>)
    requires Entry(st, n, session) && Enabled(st, e)
    ensures Entry(Apply(st, e), n,
      if e.Connect? && e.node == n then Some(e.session)
      else if e.Disconnect? && st.sessions[e.session].node == n then None else session)
  {
  }

  /** In every run a node is in the connection table exactly if the last connect or disconnect about it
      is a connect, and then with that connect's session. */
  lemma {:induction false} ConnectedExactly(es: seq<Event>, n: string)
    requires Legal(INIT, es)
    ensures var connections := Exec(INIT, es).relay.connections;
      && (n in connections <==> SessionFor(es, n).Some?)
      && (n in connections ==> Some(connections[n]) == SessionFor(es, n))
    decreases |es|
  {
    if es != [] {
      var front, e := es[..|es| - 1], es[|es| - 1];
      LastOf(es);
      ConnectedExactly(front, n);
      if e.Disconnect? {
        NodesOfSessions(front, e.session);
      }
      EntryStep(Exec(INIT, front), e, n, SessionFor(front, n));
    }
  }

  ghost predicate OpenConnections(st: State) {
    forall n :: n in st.relay.connections ==>
      st.relay.connections[n] in st.sessions && st.sessions[st.relay.connections[n]].open
      && st.sessions[st.relay.connections[n]].node == n
  }

  lemma {:induction false} OpenStep(st: State, e: Event)
    requires OpenConnections(st) && Enabled(st, e)
    ensures OpenConnections(Apply(st, e))
  {
  }

  /** The table never points to a session that has ended. */
  lemma {:induction false} ConnectedIsOpen(st: State, es: seq<Event>)
    requires OpenConnections(st) && Legal(st, es)
    ensures OpenConnections(Exec(st, es))
    decreases |es|
  {
    hide Apply, Enabled, OpenConnections;
    if es != [] {
      OpenStep(st, es[0]);
      ConnectedIsOpen(Apply(st, es[0]), es[1..]);
    }
  }

  // ---------------------------------------------------------------- a command to a connected node

  /** Connecting makes a node reachable: a command with a fresh id is issued for the new session. */
  lemma {:induction false} ConnectThenIssue(st: State, s: nat, n: string, c: string, command: string)
    requires s !in st.sessions && c !in st.issued
    ensures Enabled(st, Event.Connect(s, n)) && Enabled(Apply(st, Event.Connect(s, n)), Issue(c, n, command))
    ensures Apply(Apply(st, Event.Connect(s, n)), Issue(c, n, command)).issued[c] == Request(n, command, s)
  {
  }

  /** Issuing and posting a command to a connected node puts it on the node's session, behind whatever
      is there, its future waiting. */
  lemma {:induction false} IssueAndPost(st: State, n: string, c: string, command: string)
    requires OpenConnections(st) && n in st.relay.connections && c !in st.issued
    ensures Enabled(st, Issue(c, n, command)) && Enabled(Apply(st, Issue(c, n, command)), Post(c))
    ensures var s := st.relay.connections[n]; var after := Apply(Apply(st, Issue(c, n, command)), Post(c));
      && s in after.sessions && after.sessions[s].open
      && after.sessions[s].toAgent == st.sessions[s].toAgent + [RunCommand(c, command)]
      && after.sessions[s].agentRead == st.sessions[s].agentRead
      && c in after.calls && after.calls[c] == Awaiting && c in after.relay.pending
      && c in after.issued && after.issued[c] == Request(n, command, s)
  {
  }

  /** The session's own steps bring an unread command to its end with whatever output it prints. */
  lemma {:induction false} CompletesWith(st: State, c: string, s: nat, i: nat, o: Output)
    returns (es: seq<Event>, j: nat)
    requires Inv(st) && At(st, c, Down(s, i)) && st.sessions[s].open
    ensures Legal(st, es) && At(Exec(st, es), c, Done(s, j)) && Exec(st, es).sessions[s].toHub[j].output == o
    ensures Exec(st, es).relay.pending.Keys == st.relay.pending.Keys
    ensures Exec(st, es).calls == st.calls && Exec(st, es).issued == st.issued
  {
    hide Exec, Legal, StepsLeft, CanRun, Run, Inv;
    WithinLogs(st, s);
    var ms;
    ms, j := FromDown(st.sessions[s], c, s, i, o);
    es := EventsOf(s, ms);
    LiftRun(st, s, ms);
  }

  lemma {:induction false} ReturnsResult(st: State, c: string, s: nat, j: nat)
    requires Inv(st) && At(st, c, Done(s, j)) && c in st.calls && st.calls[c] == Awaiting
    ensures Enabled(st, Return(c))
    ensures var after := Apply(st, Return(c));
      c in after.returned && after.returned[c] == st.sessions[s].toHub[j].output && after.issued == st.issued
  {
    assert CallsOk(st);
    ResolvedWith(st, c, s, j);
  }

  /** From a state with `n` connected: issue, post, the session's own steps, return. */
  lemma {:induction false} RoundTripFrom(st: State, n: string, c: string, command: string, o: Output)
    returns (es: seq<Event>)
    requires Inv(st) && OpenConnections(st) && n in st.relay.connections && c !in st.issued
    ensures Legal(st, es) && es != [] && es[0] == Issue(c, n, command)
    ensures var after := Exec(st, es);
      && c in after.returned && after.returned[c] == o
      && c in after.issued && after.issued[c] == Request(n, command, st.relay.connections[n])
  {
    hide Exec, Legal, Inv, At, Apply, Enabled;
    var s := st.relay.connections[n];
    assert s in st.sessions;
    var issue, post := Issue(c, n, command), Post(c);
    WithinLogs(st, s);
    IssueAndPost(st, n, c, command);
    InvStep(st, issue);
    InvStep(Apply(st, issue), post);
    var posted := Apply(Apply(st, issue), post);
    LastIsUnread(posted, c, command, s);
    var own, j := CompletesWith(posted, c, s, |posted.sessions[s].toAgent| - 1, o);
    var done := Exec(posted, own);
    InvRun(posted, own);
    ReturnsResult(done, c, s, j);
    OneStep(done, Return(c));
    ExecJoin(posted, own, [Return(c)]);
    FirstSteps(st, issue, post, own + [Return(c)]);
    es := [issue, post] + (own + [Return(c)]);
  }

  lemma {:induction false} LastIsUnread(st: State, c: string, command: string, s: nat)
    requires Inv(st) && s in st.sessions && st.sessions[s].toAgent != []
    requires st.sessions[s].toAgent[|st.sessions[s].toAgent| - 1] == RunCommand(c, command)
    requires st.sessions[s].agentRead < |st.sessions[s].toAgent|
    ensures At(st, c, Down(s, |st.sessions[s].toAgent| - 1))
  {
  }

  lemma {:induction false} OneStep(st: State, e: Event)
    requires Enabled(st, e)
    ensures Legal(st, [e]) && Exec(st, [e]) == Apply(st, e)
  {
    hide Apply, Enabled;
    assert [e][1..] == [];
  }

  lemma {:induction false} FirstSteps(st: State, a: Event, b: Event, es: seq<Event>)
    requires Enabled(st, a) && Enabled(Apply(st, a), b) && Legal(Apply(Apply(st, a), b), es)
    ensures Legal(st, [a, b] + es) && Exec(st, [a, b] + es) == Exec(Apply(Apply(st, a), b), es)
  {
    hide Apply, Enabled;
    assert ([a, b] + es)[1..] == [b] + es && ([b] + es)[1..] == es;
  }

  /** The whole trip: in every reachable state, if the last connect or disconnect about `n` is a
      connect, then a command with a fresh id can be sent to `n`, run there on that connect's session,
      and return exactly what it prints. */
  lemma {:induction false} CommandRoundTrip(before: seq<Event>, n: string, c: string, command: string, o: Output)
    returns (es: seq<Event>)
    requires Legal(INIT, before) && SessionFor(before, n).Some? && c !in Exec(INIT, before).issued
    ensures Legal(Exec(INIT, before), es) && es != [] && es[0] == Issue(c, n, command)
    ensures var after := Exec(Exec(INIT, before), es);
      && c in after.returned && after.returned[c] == o
      && c in after.issued && after.issued[c] == Request(n, command, SessionFor(before, n).value)
  {
    hide Exec, Legal, Inv, OpenConnections;
    StartsWell();
    NothingOpen();
    InvRun(INIT, before);
    ConnectedIsOpen(INIT, before);
    ConnectedExactly(before, n);
    es := RoundTripFrom(Exec(INIT, before), n, c, command, o);
  }

  lemma {:induction false} NothingOpen()
    ensures OpenConnections(INIT)
  {
  }

  // ---------------------------------------------------------------- a command given up

  /** A caller can give up at any moment; from then on nothing is kept for it and nothing returns. */
  lemma {:induction false} GivenUp(st: State, c: string)
    requires Inv(st) && c in st.calls && c !in st.returned
    ensures Enabled(st, Abandon(c)) && Gone(Apply(st, Abandon(c)), c)
  {
  }

  ghost predicate Gone(st: State, c: string) {
    c in st.issued && c !in st.calls && c !in st.relay.pending && c !in st.returned
  }

  lemma {:induction false} GoneStep(st: State, e: Event, c: string)
    requires Gone(st, c) && Enabled(st, e)
    ensures Gone(Apply(st, e), c)
  {
  }

  lemma {:induction false} StaysGone(st: State, es: seq<Event>, c: string)
    requires Gone(st, c) && Legal(st, es)
    ensures Gone(Exec(st, es), c)
    decreases |es|
  {
    hide Apply, Enabled, Gone;
    if es != [] {
      GoneStep(st, es[0], c);
      StaysGone(Apply(st, es[0]), es[1..], c);
    }
  }
}
