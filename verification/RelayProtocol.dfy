/** The command relay as a protocol: the hub's session loop (`server.py`), the agent's heartbeat
    loop (`agent.py`) and `send_command` (`executor.py`), running against each other over two
    FIFO channels a session.  Every interleaving of their steps is a run. */
module RelayProtocol {
  import opened Options
  import opened RelayTables

  datatype Down = Ok | RunCommand(cmdId: string, command: string)
  datatype Up = Heartbeat | CommandResult(cmdId: string, output: Output)

  /** Where the agent's loop stands: about to send a heartbeat, in `recv`, or running a command. */
  datatype AgentAt = Top | Receiving | Running(cmdId: string, command: string)

  /** A channel is the log of everything put into it and how much of that has been read; `owing`
      says the hub has taken a message and not yet answered it. */
  datatype Session = Session(
    node: string, open: bool,
    toAgent: seq<Down>, agentRead: nat, toHub: seq<Up>, hubRead: nat, agent: AgentAt, owing: bool)

  function NewSession(node: string): Session {
    Session(node, true, [], 0, [], 0, Top, false)
  }

  // ---------------------------------------------------------------- steps of one session

  /** A heartbeat goes out at the top of each iteration. */
  function AgentSends(x: Session): Session
    requires x.agent.Top?
  {
    x.(toHub := x.toHub + [Heartbeat], agent := Receiving)
  }

  predicate CanReceive(x: Session) {
    x.agent.Receiving? && x.agentRead < |x.toAgent|
  }

  /** Exactly one message is read an iteration; a command is run at once. */
  function AgentReceives(x: Session): Session
    requires CanReceive(x)
  {
    var m := x.toAgent[x.agentRead];
    x.(agentRead := x.agentRead + 1, agent := if m.RunCommand? then Running(m.cmdId, m.command) else Top)
  }

  function AgentAnswers(x: Session, output: Output): Session
    requires x.agent.Running?
  {
    x.(toHub := x.toHub + [CommandResult(x.agent.cmdId, output)], agent := Top)
  }

  predicate CanTake(x: Session) {
    x.open && !x.owing && x.hubRead < |x.toHub|
  }

  function HubTakes(x: Session): Session
    requires CanTake(x)
  {
    x.(hubRead := x.hubRead + 1, owing := true)
  }

  /** One `{"status": "ok"}` for every message, results included. */
  function HubAnswers(x: Session): Session
    requires x.open && x.owing
  {
    x.(toAgent := x.toAgent + [Ok], owing := false)
  }

  function HubPosts(x: Session, cmdId: string, command: string): Session
    requires x.open
  {
    x.(toAgent := x.toAgent + [RunCommand(cmdId, command)])
  }

  // ---------------------------------------------------------------- what a session keeps

  function CommandIds(log: seq<Down>): seq<string> {
    if log == [] then []
    else
      var m := log[|log| - 1];
      CommandIds(log[..|log| - 1]) + (if m.RunCommand? then [m.cmdId] else [])
  }

  function ResultIds(log: seq<Up>): seq<string> {
    if log == [] then []
    else
      var m := log[|log| - 1];
      ResultIds(log[..|log| - 1]) + (if m.CommandResult? then [m.cmdId] else [])
  }

  predicate NoDup(s: seq<string>) {
    forall i, j :: 0 <= i < j < |s| ==> s[i] != s[j]
  }

  function InHand(agent: AgentAt): seq<string> {
    if agent.Running? then [agent.cmdId] else []
  }

  /** The loop invariant of a session: every message the hub took was answered once, every message
      the agent read was paid for with one heartbeat, and the commands read are, in order, the
      commands answered and then the one in hand. */
  ghost predicate SessionInv(x: Session) {
    && x.agentRead <= |x.toAgent| && x.hubRead <= |x.toHub|
    && |x.toAgent| == |CommandIds(x.toAgent)| + x.hubRead - (if x.owing then 1 else 0)
    && |x.toHub| == |ResultIds(x.toHub)| + x.agentRead + (if x.agent.Receiving? then 1 else 0)
    && CommandIds(x.toAgent[..x.agentRead]) == ResultIds(x.toHub) + InHand(x.agent)
    && NoDup(CommandIds(x.toAgent))
  }

  lemma {:induction false} CommandIdsSnoc(log: seq<Down>, m: Down)
    ensures CommandIds(log + [m]) == CommandIds(log) + (if m.RunCommand? then [m.cmdId] else [])
  {
    assert (log + [m])[..|log|] == log;
  }

  lemma {:induction false} ResultIdsSnoc(log: seq<Up>, m: Up)
    ensures ResultIds(log + [m]) == ResultIds(log) + (if m.CommandResult? then [m.cmdId] else [])
  {
    assert (log + [m])[..|log|] == log;
  }

  /** The ids of a prefix are a prefix of the ids. */
  lemma {:induction false} CommandIdsPrefix(log: seq<Down>, k: nat)
    requires k <= |log|
    ensures CommandIds(log[..k]) <= CommandIds(log)
  {
    if k == |log| {
      assert log[..k] == log;
    } else {
      var front := log[..|log| - 1];
      CommandIdsPrefix(front, k);
      assert front[..k] == log[..k];
    }
  }

  lemma {:induction false} ResultIdsPrefix(log: seq<Up>, k: nat)
    requires k <= |log|
    ensures ResultIds(log[..k]) <= ResultIds(log)
  {
    if k == |log| {
      assert log[..k] == log;
    } else {
      var front := log[..|log| - 1];
      ResultIdsPrefix(front, k);
      assert front[..k] == log[..k];
    }
  }

  lemma {:induction false} CommandIdAt(log: seq<Down>, c: string)
    ensures c in CommandIds(log) <==> exists i :: 0 <= i < |log| && log[i].RunCommand? && log[i].cmdId == c
  {
    if log != [] {
      var front := log[..|log| - 1];
      CommandIdAt(front, c);
      if c in CommandIds(log) && c in CommandIds(front) {
        var i :| 0 <= i < |front| && front[i].RunCommand? && front[i].cmdId == c;
        assert log[i].RunCommand?;
      }
      if i :| 0 <= i < |log| && log[i].RunCommand? && log[i].cmdId == c && i < |front| {
        assert front[i] == log[i];
      }
    }
  }

  lemma {:induction false} ResultIdAt(log: seq<Up>, c: string)
    ensures c in ResultIds(log) <==> exists j :: 0 <= j < |log| && log[j].CommandResult? && log[j].cmdId == c
  {
    if log != [] {
      var front := log[..|log| - 1];
      ResultIdAt(front, c);
      if c in ResultIds(log) && c in ResultIds(front) {
        var j :| 0 <= j < |front| && front[j].CommandResult? && front[j].cmdId == c;
        assert log[j].CommandResult?;
      }
      if j :| 0 <= j < |log| && log[j].CommandResult? && log[j].cmdId == c && j < |front| {
        assert front[j] == log[j];
      }
    }
  }

  lemma {:induction false} NoDupPrefix(p: seq<string>, s: seq<string>)
    requires p <= s && NoDup(s)
    ensures NoDup(p)
  {
  }

  lemma {:induction false} FreshAtEnd(p: seq<string>, c: string)
    requires NoDup(p + [c])
    ensures c !in p
  {
    var s := p + [c];
    forall k | 0 <= k < |p| ensures p[k] != c {
      assert s[k] != s[|p|];
    }
  }

  /** Without duplicate ids a command has one position in its log. */
  lemma {:induction false} OneCommandPosition(log: seq<Down>, i: nat, j: nat)
    requires NoDup(CommandIds(log)) && i < j < |log|
    requires log[i].RunCommand? && log[j].RunCommand?
    ensures log[i].cmdId != log[j].cmdId
  {
    var front, last := log[..|log| - 1], log[|log| - 1];
    var ids := CommandIds(front);
    assert CommandIds(log) == ids + (if last.RunCommand? then [last.cmdId] else []);
    NoDupPrefix(ids, CommandIds(log));
    assert front[i] == log[i];
    if j < |front| {
      OneCommandPosition(front, i, j);
    } else {
      CommandIdAt(front, log[i].cmdId);
      FreshAtEnd(ids, last.cmdId);
    }
  }

  lemma {:induction false} OneResultPosition(log: seq<Up>, i: nat, j: nat)
    requires NoDup(ResultIds(log)) && i < j < |log|
    requires log[i].CommandResult? && log[j].CommandResult?
    ensures log[i].cmdId != log[j].cmdId
  {
    var front, last := log[..|log| - 1], log[|log| - 1];
    var ids := ResultIds(front);
    assert ResultIds(log) == ids + (if last.CommandResult? then [last.cmdId] else []);
    NoDupPrefix(ids, ResultIds(log));
    assert front[i] == log[i];
    if j < |front| {
      OneResultPosition(front, i, j);
    } else {
      ResultIdAt(front, log[i].cmdId);
      FreshAtEnd(ids, last.cmdId);
    }
  }

  // ---------------------------------------------------------------- each step keeps it

  lemma {:induction false} AgentSendsInv(x: Session)
    requires SessionInv(x) && x.agent.Top?
    ensures SessionInv(AgentSends(x))
  {
    ResultIdsSnoc(x.toHub, Heartbeat);
  }

  lemma {:induction false} AgentReceivesInv(x: Session)
    requires SessionInv(x) && CanReceive(x)
    ensures SessionInv(AgentReceives(x))
  {
    var k := x.agentRead;
    assert x.toAgent[..k + 1] == x.toAgent[..k] + [x.toAgent[k]];
    CommandIdsSnoc(x.toAgent[..k], x.toAgent[k]);
  }

  lemma {:induction false} AgentAnswersInv(x: Session, output: Output)
    requires SessionInv(x) && x.agent.Running?
    ensures SessionInv(AgentAnswers(x, output))
  {
    ResultIdsSnoc(x.toHub, CommandResult(x.agent.cmdId, output));
  }

  lemma {:induction false} HubTakesInv(x: Session)
    requires SessionInv(x) && CanTake(x)
    ensures SessionInv(HubTakes(x))
  {
  }

  lemma {:induction false} HubPutsInv(x: Session, m: Down)
    requires SessionInv(x)
    ensures CommandIds(x.toAgent + [m]) == CommandIds(x.toAgent) + (if m.RunCommand? then [m.cmdId] else [])
    ensures CommandIds((x.toAgent + [m])[..x.agentRead]) == CommandIds(x.toAgent[..x.agentRead])
  {
    CommandIdsSnoc(x.toAgent, m);
    assert (x.toAgent + [m])[..x.agentRead] == x.toAgent[..x.agentRead];
  }

  lemma {:induction false} HubAnswersInv(x: Session)
    requires SessionInv(x) && x.open && x.owing
    ensures SessionInv(HubAnswers(x))
  {
    HubPutsInv(x, Ok);
  }

  lemma {:induction false} HubPostsInv(x: Session, c: string, command: string)
    requires SessionInv(x) && x.open && c !in CommandIds(x.toAgent)
    ensures SessionInv(HubPosts(x, c, command))
  {
    HubPutsInv(x, RunCommand(c, command));
  }

  // ---------------------------------------------------------------- conservation and progress

  function InFlight(x: Session): int {
    |x.toAgent| - x.agentRead + |x.toHub| - x.hubRead + (if x.owing then 1 else 0)
  }

  /** Nothing is lost or doubled on an open session: the messages in flight in both directions are
      the commands sent plus the results sent, and one more while the agent is in `recv`. */
  lemma {:induction false} Conservation(x: Session)
    requires SessionInv(x)
    ensures InFlight(x) ==
      |CommandIds(x.toAgent)| + |ResultIds(x.toHub)| + (if x.agent.Receiving? then 1 else 0)
  {
  }

  /** No deadlock: an agent waiting in `recv` can receive, or the hub can take or answer. */
  lemma {:induction false} NoDeadlock(x: Session)
    requires SessionInv(x) && x.open && x.agent.Receiving?
    ensures CanReceive(x) || CanTake(x) || x.owing
  {
    Conservation(x);
  }

  // ---------------------------------------------------------------- the whole system

  /** A `send_command` activation: its future is stored, and then its message is on the socket. */
  datatype Stage = Storing | Awaiting

  datatype Request = Request(node: string, command: string, session: nat)

  datatype Execution = Execution(session: nat, cmdId: string, command: string)

  /** `issued`, `runs`, `outputs` and `returned` remember what was asked for, what agents started,
      what their commands printed, and what `send_command` returned. */
  datatype State = State(
    relay: Relay, sessions: map<nat, Session>, calls: map<string, Stage>,
    issued: map<string, Request>, runs: seq<Execution>,
    outputs: map<string, Output>, returned: map<string, Output>)

  const INIT := State(EMPTY_RELAY, map[], map[], map[], [], map[], map[])

  datatype Event =
    | Connect(session: nat, node: string)
    | Disconnect(session: nat)
    | Issue(cmdId: string, node: string, command: string)
    | Post(cmdId: string)
    | Return(cmdId: string)
    | Abandon(cmdId: string)
    | AgentSend(session: nat)
    | AgentReceive(session: nat)
    | AgentAnswer(session: nat, output: Output)
    | HubTake(session: nat)
    | HubAnswer(session: nat)

  ghost predicate Enabled(st: State, e: Event) {
    match e
    case Connect(s, _) => s !in st.sessions
    case Disconnect(s) => s in st.sessions && st.sessions[s].open
    case Issue(c, node, _) => c !in st.issued && node in st.relay.connections
    case Post(c) =>
      && c in st.calls && st.calls[c] == Storing && c in st.issued && st.issued[c].session in st.sessions
      && st.sessions[st.issued[c].session].open
    case Return(c) => c in st.calls && st.calls[c] == Awaiting && c in st.relay.pending && st.relay.pending[c].Some?
    case Abandon(c) => c in st.calls
    case AgentSend(s) => s in st.sessions && st.sessions[s].agent.Top?
    case AgentReceive(s) => s in st.sessions && CanReceive(st.sessions[s])
    case AgentAnswer(s, _) => s in st.sessions && st.sessions[s].agent.Running?
    case HubTake(s) => s in st.sessions && CanTake(st.sessions[s])
    case HubAnswer(s) => s in st.sessions && st.sessions[s].open && st.sessions[s].owing
  }

  function NextRelay(st: State, e: Event): Relay
    requires Enabled(st, e)
  {
    match e
    case Connect(s, node) => Register(st.relay, node, s)
    case Disconnect(s) => Unregister(st.relay, st.sessions[s].node)
    case Issue(c, _, _) => StoreFuture(st.relay, c)
    case Return(c) => Forget(st.relay, c)
    case Abandon(c) => Forget(st.relay, c)
    case HubTake(s) =>
      var m := st.sessions[s].toHub[st.sessions[s].hubRead];
      if m.CommandResult? then Deliver(st.relay, m.cmdId, m.output) else st.relay
    case _ => st.relay
  }

  /** The one session a step works on, if any. */
  function Target(st: State, e: Event): Option<nat>
    requires Enabled(st, e)
  {
    match e
    case Connect(s, _) => Some(s)
    case Disconnect(s) => Some(s)
    case Post(c) => Some(st.issued[c].session)
    case AgentSend(s) => Some(s)
    case AgentReceive(s) => Some(s)
    case AgentAnswer(s, _) => Some(s)
    case HubTake(s) => Some(s)
    case HubAnswer(s) => Some(s)
    case _ => None
  }

  function NextSession(st: State, e: Event): Session
    requires Enabled(st, e) && Target(st, e).Some?
  {
    match e
    case Connect(_, node) => NewSession(node)
    case Disconnect(s) => st.sessions[s].(open := false)
    case Post(c) => HubPosts(st.sessions[st.issued[c].session], c, st.issued[c].command)
    case AgentSend(s) => AgentSends(st.sessions[s])
    case AgentReceive(s) => AgentReceives(st.sessions[s])
    case AgentAnswer(s, output) => AgentAnswers(st.sessions[s], output)
    case HubTake(s) => HubTakes(st.sessions[s])
    case HubAnswer(s) => HubAnswers(st.sessions[s])
  }

  function NextSessions(st: State, e: Event): map<nat, Session>
    requires Enabled(st, e)
  {
    if Target(st, e).Some? then st.sessions[Target(st, e).value := NextSession(st, e)] else st.sessions
  }

  function NextCalls(st: State, e: Event): map<string, Stage>
    requires Enabled(st, e)
  {
    match e
    case Issue(c, _, _) => st.calls[c := Storing]
    case Post(c) => st.calls[c := Awaiting]
    case Return(c) => st.calls - {c}
    case Abandon(c) => st.calls - {c}
    case _ => st.calls
  }

  function NextRuns(st: State, e: Event): seq<Execution>
    requires Enabled(st, e)
  {
    if e.AgentReceive? then
      var x := st.sessions[e.session];
      var m := x.toAgent[x.agentRead];
      if m.RunCommand? then st.runs + [Execution(e.session, m.cmdId, m.command)] else st.runs
    else st.runs
  }

  function Apply(st: State, e: Event): State
    requires Enabled(st, e)
  {
    State(
      NextRelay(st, e), NextSessions(st, e), NextCalls(st, e),
      if e.Issue? then st.issued[e.cmdId := Request(e.node, e.command, st.relay.connections[e.node])] else st.issued,
      NextRuns(st, e),
      if e.AgentAnswer? then st.outputs[st.sessions[e.session].agent.cmdId := e.output] else st.outputs,
      if e.Return? then st.returned[e.cmdId := st.relay.pending[e.cmdId].value] else st.returned)
  }

  ghost predicate Legal(st: State, es: seq<Event>)
    decreases |es|
  {
    es == [] || (Enabled(st, es[0]) && Legal(Apply(st, es[0]), es[1..]))
  }

  ghost function Exec(st: State, es: seq<Event>): State
    requires Legal(st, es)
    decreases |es|
  {
    if es == [] then st else Exec(Apply(st, es[0]), es[1..])
  }
}
