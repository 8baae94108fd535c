/** The agent's heartbeat loop (`agent.py`) as code, and its agreement with the protocol. */
module AgentLoop {
  import opened Options
  import opened RelayTables
  import opened RelayProtocol
  import opened RelaySafety

  /** What an agent has to say to the messages in `log`: a heartbeat before each, and after a command
      its result.  `answer` tells what running the command with a given id printed. */
  function Transcript(log: seq<Down>, answer: string -> Output): seq<Up> {
    if log == [] then []
    else
      var m := log[|log| - 1];
      Transcript(log[..|log| - 1], answer) + [Heartbeat]
        + (if m.RunCommand? then [CommandResult(m.cmdId, answer(m.cmdId))] else [])
  }

  /** The loop on one connection, until `recv` finds it closed after the messages in `inbox`. */
  method HeartbeatLoop(inbox: seq<Down>, answer: string -> Output) returns (sent: seq<Up>)
    ensures sent == Transcript(inbox, answer) + [Heartbeat]
  {
    sent := [];
    var read := 0;
    while true
      invariant 0 <= read <= |inbox| && sent == Transcript(inbox[..read], answer)
      decreases |inbox| - read
    {
      sent := sent + [Heartbeat];
      if read == |inbox| {
        assert inbox[..read] == inbox;
        return;
      }
      var response := inbox[read];
      assert inbox[..read + 1][..read] == inbox[..read];
      read := read + 1;
      if response.RunCommand? {
        sent := sent + [CommandResult(response.cmdId, answer(response.cmdId))];
      }
    }
  }

  // ---------------------------------------------------------------- agreement with the protocol

  function Printed(outputs: map<string, Output>): string -> Output {
    c => if c in outputs then outputs[c] else Output("", "", 0)
  }

  /** What the protocol's agent has sent is what the loop sends on the messages it has read, up to
      where it stands in its iteration. */
  ghost predicate FollowsLoop(x: Session, outputs: map<string, Output>) {
    x.agentRead <= |x.toAgent| &&
    var read := x.toAgent[..x.agentRead];
    match x.agent
    case Top => x.toHub == Transcript(read, Printed(outputs))
    case Receiving => x.toHub == Transcript(read, Printed(outputs)) + [Heartbeat]
    case Running(c, _) =>
      && x.agentRead > 0 && x.toAgent[x.agentRead - 1].RunCommand? && x.toAgent[x.agentRead - 1].cmdId == c
      && x.toHub == Transcript(x.toAgent[..x.agentRead - 1], Printed(outputs)) + [Heartbeat]
  }

  ghost predicate AllFollow(st: State) {
    forall s :: s in st.sessions ==> FollowsLoop(st.sessions[s], st.outputs)
  }

  lemma {:induction false} SameTranscript(log: seq<Down>, c: string, outputs: map<string, Output>, o: Output)
    requires c !in CommandIds(log)
    ensures Transcript(log, Printed(outputs[c := o])) == Transcript(log, Printed(outputs))
  {
    if log != [] {
      SameTranscript(log[..|log| - 1], c, outputs, o);
    }
  }

  lemma {:induction false} ReceiveFollows(x: Session, outputs: map<string, Output>)
    requires FollowsLoop(x, outputs) && CanReceive(x)
    ensures FollowsLoop(AgentReceives(x), outputs)
  {
    var k := x.agentRead;
    assert x.toAgent[..k + 1][..k] == x.toAgent[..k];
  }

  /** More messages for the agent, or more read by the hub, change nothing the agent has said. */
  lemma {:induction false} GrownFollows(x: Session, y: Session, outputs: map<string, Output>)
    requires FollowsLoop(x, outputs) && Grows(x, y)
    requires y.agentRead == x.agentRead && y.toHub == x.toHub && y.agent == x.agent
    ensures FollowsLoop(y, outputs)
  {
    assert y.toAgent[..x.agentRead] == x.toAgent[..x.agentRead];
    if x.agentRead > 0 {
      assert y.toAgent[..x.agentRead - 1] == x.toAgent[..x.agentRead - 1];
    }
  }

  /** The output of a command not read here changes nothing either. */
  lemma {:induction false} ForeignFollows(x: Session, outputs: map<string, Output>, c: string, o: Output)
    requires FollowsLoop(x, outputs) && c !in CommandIds(x.toAgent)
    ensures FollowsLoop(x, outputs[c := o])
  {
    CommandIdsPrefix(x.toAgent, x.agentRead);
    SameTranscript(x.toAgent[..x.agentRead], c, outputs, o);
    if x.agentRead > 0 {
      CommandIdsPrefix(x.toAgent, x.agentRead - 1);
      SameTranscript(x.toAgent[..x.agentRead - 1], c, outputs, o);
    }
  }

  lemma {:induction false} AnswerFollows(x: Session, outputs: map<string, Output>, o: Output)
    requires SessionInv(x) && FollowsLoop(x, outputs) && x.agent.Running?
    ensures FollowsLoop(AgentAnswers(x, o), outputs[x.agent.cmdId := o])
  {
    var k, c := x.agentRead - 1, x.agent.cmdId;
    assert x.toAgent[..k + 1][..k] == x.toAgent[..k];
    CommandIdsPrefix(x.toAgent, k + 1);
    NoDupPrefix(CommandIds(x.toAgent[..k + 1]), CommandIds(x.toAgent));
    FreshAtEnd(CommandIds(x.toAgent[..k]), c);
    SameTranscript(x.toAgent[..k], c, outputs, o);
  }

  lemma {:induction false} TargetFollows(st: State, e: Event, s: nat)
    requires SessionsOk(st) && Enabled(st, e) && Target(st, e) == Some(s) && s in st.sessions
    requires FollowsLoop(st.sessions[s], st.outputs)
    ensures FollowsLoop(NextSession(st, e), Apply(st, e).outputs)
  {
    hide Transcript, CommandIds, ResultIds;
    var x := st.sessions[s];
    match e
    case AgentSend(_) =>
    case AgentReceive(_) => ReceiveFollows(x, st.outputs);
    case AgentAnswer(_, o) => AnswerFollows(x, st.outputs, o);
    case HubTake(_) =>
    case HubAnswer(_) => GrownFollows(x, HubAnswers(x), st.outputs);
    case Disconnect(_) =>
    case Post(c) => GrownFollows(x, HubPosts(x, c, st.issued[c].command), st.outputs);
  }

  lemma {:induction false} BystanderFollows(st: State, e: Event, s: nat)
    requires SessionsOk(st) && PostsOk(st) && ResultsOk(st) && Enabled(st, e)
    requires s in st.sessions && Target(st, e) != Some(s) && FollowsLoop(st.sessions[s], st.outputs)
    ensures FollowsLoop(st.sessions[s], Apply(st, e).outputs)
  {
    if e.AgentAnswer? {
      var c := st.sessions[e.session].agent.cmdId;
      FirstAnswer(st, e);
      if c in CommandIds(st.sessions[s].toAgent) {
        PostedIsIssued(st, s, c);
      }
      ForeignFollows(st.sessions[s], st.outputs, c, e.output);
    }
  }

  lemma {:induction false} FollowStep(st: State, e: Event)
    requires Base(st) && AllFollow(st) && Enabled(st, e)
    ensures AllFollow(Apply(st, e))
  {
    hide CommandIds, ResultIds;
    var next := Apply(st, e);
    forall s | s in next.sessions ensures FollowsLoop(next.sessions[s], next.outputs) {
      if s !in st.sessions {
        assert next.sessions[s].toAgent[..0] == [];
      } else if Target(st, e) == Some(s) {
        TargetFollows(st, e, s);
      } else {
        BystanderFollows(st, e, s);
      }
    }
  }

  lemma {:induction false} FollowRun(st: State, es: seq<Event>)
    requires Base(st) && AllFollow(st) && Legal(st, es)
    ensures AllFollow(Exec(st, es))
    decreases |es|
  {
    if es != [] {
      FollowStep(st, es[0]);
      BaseStep(st, es[0]);
      FollowRun(Apply(st, es[0]), es[1..]);
    }
  }

  /** In every run, every agent sends exactly what its loop sends on what it has read. */
  lemma {:induction false} ProtocolRunsTheLoop(es: seq<Event>)
    requires Legal(INIT, es)
    ensures AllFollow(Exec(INIT, es))
  {
    FollowRun(INIT, es);
  }
}
