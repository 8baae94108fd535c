/** What every run of the relay keeps: one place for each command, at most one execution, results
    that come from the right node running the right command, and an exact table of futures. */
module RelaySafety {
  import opened Options
  import opened RelayProtocol

  // ---------------------------------------------------------------- the invariant

  ghost predicate SessionsOk(st: State) {
    forall s :: s in st.sessions ==> SessionInv(st.sessions[s])
  }

  ghost predicate ConnectionsOk(st: State) {
    forall n :: n in st.relay.connections ==>
      st.relay.connections[n] in st.sessions && st.sessions[st.relay.connections[n]].node == n
  }

  ghost predicate IssuedOk(st: State) {
    forall c :: c in st.issued ==>
      st.issued[c].session in st.sessions && st.sessions[st.issued[c].session].node == st.issued[c].node
  }

  ghost predicate CallsOk(st: State) {
    st.calls.Keys == st.relay.pending.Keys && st.calls.Keys <= st.issued.Keys
  }

  /** A posted command was issued for this very session, and its caller has gone on to wait. */
  ghost predicate PostOk(st: State, s: nat, m: Down) {
    m.RunCommand? ==>
      && m.cmdId in st.issued && st.issued[m.cmdId].session == s && st.issued[m.cmdId].command == m.command
      && (m.cmdId in st.calls ==> st.calls[m.cmdId] == Awaiting)
  }

  ghost predicate PostsOk(st: State) {
    forall s, m :: s in st.sessions && m in st.sessions[s].toAgent ==> PostOk(st, s, m)
  }

  ghost predicate ResultOk(st: State, s: nat, m: Up) {
    m.CommandResult? ==>
      && m.cmdId in st.issued && st.issued[m.cmdId].session == s
      && m.cmdId in st.outputs && st.outputs[m.cmdId] == m.output
  }

  ghost predicate ResultsOk(st: State) {
    forall s, m :: s in st.sessions && m in st.sessions[s].toHub ==> ResultOk(st, s, m)
  }

  function TakenIds(x: Session): seq<string> {
    if x.hubRead <= |x.toHub| then ResultIds(x.toHub[..x.hubRead]) else []
  }

  /** The hub has taken the result of `c` off its session's channel. */
  predicate Delivered(st: State, c: string) {
    && c in st.issued && st.issued[c].session in st.sessions
    && c in TakenIds(st.sessions[st.issued[c].session])
  }

  ghost predicate FutureOk(st: State, c: string)
    requires c in st.relay.pending
  {
    if Delivered(st, c) then c in st.outputs && st.relay.pending[c] == Some(st.outputs[c])
    else st.relay.pending[c] == None
  }

  ghost predicate PendingOk(st: State) {
    forall c :: c in st.relay.pending ==> FutureOk(st, c)
  }

  ghost predicate ReturnOk(st: State, c: string)
    requires c in st.returned
  {
    c !in st.calls && Delivered(st, c) && c in st.outputs && st.returned[c] == st.outputs[c]
  }

  ghost predicate ReturnedOk(st: State) {
    forall c :: c in st.returned ==> ReturnOk(st, c)
  }

  ghost predicate Base(st: State) {
    SessionsOk(st) && ConnectionsOk(st) && IssuedOk(st) && CallsOk(st) && PostsOk(st) && ResultsOk(st)
  }

  ghost predicate Inv(st: State) {
    Base(st) && PendingOk(st) && ReturnedOk(st) && RunsOk(st)
  }

  function ReadIds(x: Session): seq<string> {
    if x.agentRead <= |x.toAgent| then CommandIds(x.toAgent[..x.agentRead]) else []
  }

  ghost predicate RunOk(st: State, r: Execution) {
    && r.session in st.sessions && r.cmdId in ReadIds(st.sessions[r.session])
    && r.cmdId in st.issued && st.issued[r.cmdId].session == r.session && st.issued[r.cmdId].command == r.command
  }

  ghost predicate Ran(runs: seq<Execution>, c: string) {
    exists k :: 0 <= k < |runs| && runs[k].cmdId == c
  }

  ghost predicate RunsOk(st: State) {
    && (forall r :: r in st.runs ==> RunOk(st, r))
    && (forall i, j :: 0 <= i < j < |st.runs| ==> st.runs[i].cmdId != st.runs[j].cmdId)
    && (forall s, c :: s in st.sessions && c in ReadIds(st.sessions[s]) ==> Ran(st.runs, c))
  }

  // ---------------------------------------------------------------- facts used at several steps

  /** Everything posted on a session is about commands issued for it. */
  lemma {:induction false} PostedIsIssued(st: State, s: nat, c: string)
    requires PostsOk(st) && s in st.sessions && c in CommandIds(st.sessions[s].toAgent)
    ensures c in st.issued && st.issued[c].session == s && (c in st.calls ==> st.calls[c] == Awaiting)
  {
    var log := st.sessions[s].toAgent;
    CommandIdAt(log, c);
    var i :| 0 <= i < |log| && log[i].RunCommand? && log[i].cmdId == c;
    assert PostOk(st, s, log[i]);
  }

  lemma {:induction false} AnsweredIsIssued(st: State, s: nat, c: string)
    requires ResultsOk(st) && s in st.sessions && c in ResultIds(st.sessions[s].toHub)
    ensures c in st.issued && st.issued[c].session == s && c in st.outputs
  {
    var log := st.sessions[s].toHub;
    ResultIdAt(log, c);
    var j :| 0 <= j < |log| && log[j].CommandResult? && log[j].cmdId == c;
    assert ResultOk(st, s, log[j]);
  }

  /** The command in hand was posted on the session, read last, and has not been answered. */
  lemma {:induction false} InHandFacts(x: Session)
    requires SessionInv(x) && x.agent.Running?
    ensures x.agent.cmdId in CommandIds(x.toAgent) && x.agent.cmdId !in ResultIds(x.toHub)
  {
    CommandIdsPrefix(x.toAgent, x.agentRead);
    var ids, c := CommandIds(x.toAgent[..x.agentRead]), x.agent.cmdId;
    assert ids == ResultIds(x.toHub) + [c];
    assert ids[|ids| - 1] == c;
    NoDupPrefix(ids, CommandIds(x.toAgent));
    FreshAtEnd(ResultIds(x.toHub), c);
  }

  lemma {:induction false} NextUnread(x: Session)
    requires SessionInv(x) && CanReceive(x) && x.toAgent[x.agentRead].RunCommand?
    ensures x.toAgent[x.agentRead].cmdId !in ReadIds(x)
    ensures ReadIds(AgentReceives(x)) == ReadIds(x) + [x.toAgent[x.agentRead].cmdId]
  {
    var k := x.agentRead;
    assert x.toAgent[..k + 1] == x.toAgent[..k] + [x.toAgent[k]];
    CommandIdsSnoc(x.toAgent[..k], x.toAgent[k]);
    CommandIdsPrefix(x.toAgent, k + 1);
    NoDupPrefix(CommandIds(x.toAgent[..k + 1]), CommandIds(x.toAgent));
    FreshAtEnd(CommandIds(x.toAgent[..k]), x.toAgent[k].cmdId);
  }

  lemma {:induction false} ResultsDistinct(x: Session)
    requires SessionInv(x)
    ensures NoDup(ResultIds(x.toHub))
  {
    CommandIdsPrefix(x.toAgent, x.agentRead);
    NoDupPrefix(CommandIds(x.toAgent[..x.agentRead]), CommandIds(x.toAgent));
    NoDupPrefix(ResultIds(x.toHub), CommandIds(x.toAgent[..x.agentRead]));
  }

  lemma {:induction false} NextUntaken(x: Session)
    requires SessionInv(x) && CanTake(x)
    ensures var m := x.toHub[x.hubRead];
      && ResultIds(x.toHub[..x.hubRead + 1]) ==
           ResultIds(x.toHub[..x.hubRead]) + (if m.CommandResult? then [m.cmdId] else [])
      && (m.CommandResult? ==> m.cmdId !in ResultIds(x.toHub[..x.hubRead]))
  {
    var k := x.hubRead;
    assert x.toHub[..k + 1] == x.toHub[..k] + [x.toHub[k]];
    ResultIdsSnoc(x.toHub[..k], x.toHub[k]);
    ResultIdsPrefix(x.toHub, k + 1);
    ResultsDistinct(x);
    NoDupPrefix(ResultIds(x.toHub[..k + 1]), ResultIds(x.toHub));
    if x.toHub[k].CommandResult? {
      FreshAtEnd(ResultIds(x.toHub[..k]), x.toHub[k].cmdId);
    }
  }

  // ---------------------------------------------------------------- the base invariant

  lemma {:induction false} TargetInv(st: State, e: Event)
    requires SessionsOk(st) && PostsOk(st) && Enabled(st, e) && Target(st, e).Some?
    ensures SessionInv(NextSession(st, e))
  {
    match e
    case Connect(_, _) =>
    case Disconnect(_) =>
    case AgentSend(s) => AgentSendsInv(st.sessions[s]);
    case AgentReceive(s) => AgentReceivesInv(st.sessions[s]);
    case AgentAnswer(s, output) => AgentAnswersInv(st.sessions[s], output);
    case HubTake(s) => HubTakesInv(st.sessions[s]);
    case HubAnswer(s) => HubAnswersInv(st.sessions[s]);
    case Post(c) =>
      var s := st.issued[c].session;
      if c in CommandIds(st.sessions[s].toAgent) {
        PostedIsIssued(st, s, c);
      }
      HubPostsInv(st.sessions[s], c, st.issued[c].command);
  }

  /** What a step can do to a session that is already there. */
  ghost predicate Grows(x: Session, y: Session) {
    && x.node == y.node && x.toAgent <= y.toAgent && x.toHub <= y.toHub
    && x.agentRead <= y.agentRead && x.hubRead <= y.hubRead
  }

  lemma {:induction false} SessionGrows(st: State, e: Event, s: nat)
    requires Enabled(st, e) && s in st.sessions
    ensures s in NextSessions(st, e) && Grows(st.sessions[s], NextSessions(st, e)[s])
  {
  }

  lemma {:induction false} SessionsStep(st: State, e: Event)
    requires SessionsOk(st) && PostsOk(st) && Enabled(st, e)
    ensures SessionsOk(Apply(st, e))
  {
    if Target(st, e).Some? {
      TargetInv(st, e);
    }
    forall s | s in NextSessions(st, e) ensures SessionInv(NextSessions(st, e)[s]) {
      if Target(st, e) != Some(s) {
        assert NextSessions(st, e)[s] == st.sessions[s];
      }
    }
  }

  lemma {:induction false} IssuedStep(st: State, e: Event)
    requires IssuedOk(st) && ConnectionsOk(st) && Enabled(st, e)
    ensures IssuedOk(Apply(st, e))
  {
    var next := Apply(st, e);
    forall c | c in next.issued
      ensures next.issued[c].session in next.sessions
        && next.sessions[next.issued[c].session].node == next.issued[c].node
    {
      SessionGrows(st, e, next.issued[c].session);
    }
  }

  lemma {:induction false} ConnectionsStep(st: State, e: Event)
    requires ConnectionsOk(st) && Enabled(st, e)
    ensures ConnectionsOk(Apply(st, e))
  {
    var next := Apply(st, e);
    forall n | n in next.relay.connections
      ensures next.relay.connections[n] in next.sessions && next.sessions[next.relay.connections[n]].node == n
    {
      if n in st.relay.connections && next.relay.connections[n] == st.relay.connections[n] {
        SessionGrows(st, e, st.relay.connections[n]);
      }
    }
  }

  lemma {:induction false} CallsStep(st: State, e: Event)
    requires CallsOk(st) && Enabled(st, e)
    ensures CallsOk(Apply(st, e))
  {
  }

  lemma {:induction false} PostStep(st: State, e: Event, s: nat, m: Down)
    requires CallsOk(st) && PostOk(st, s, m) && Enabled(st, e)
    ensures PostOk(Apply(st, e), s, m)
  {
  }

  lemma {:induction false} PostsStep(st: State, e: Event)
    requires CallsOk(st) && PostsOk(st) && Enabled(st, e)
    ensures PostsOk(Apply(st, e))
  {
    var next := Apply(st, e);
    forall s, m | s in next.sessions && m in next.sessions[s].toAgent ensures PostOk(next, s, m) {
      if s in st.sessions && m in st.sessions[s].toAgent {
        PostStep(st, e, s, m);
      } else {
        assert Target(st, e) == Some(s);
      }
    }
  }

  /** The answer an agent gives is the first for that command. */
  lemma {:induction false} FirstAnswer(st: State, e: Event)
    requires SessionsOk(st) && PostsOk(st) && ResultsOk(st) && Enabled(st, e) && e.AgentAnswer?
    ensures var c := st.sessions[e.session].agent.cmdId;
      && c in st.issued && st.issued[c].session == e.session
      && forall s :: s in st.sessions ==> c !in ResultIds(st.sessions[s].toHub)
  {
    var c := st.sessions[e.session].agent.cmdId;
    InHandFacts(st.sessions[e.session]);
    PostedIsIssued(st, e.session, c);
    forall s | s in st.sessions ensures c !in ResultIds(st.sessions[s].toHub) {
      if c in ResultIds(st.sessions[s].toHub) {
        AnsweredIsIssued(st, s, c);
      }
    }
  }

  lemma {:induction false} ResultStep(st: State, e: Event, s: nat, m: Up)
    requires ResultOk(st, s, m) && Enabled(st, e)
    requires e.AgentAnswer? && m.CommandResult? ==> m.cmdId != st.sessions[e.session].agent.cmdId
    ensures ResultOk(Apply(st, e), s, m)
  {
  }

  lemma {:induction false} ResultsStep(st: State, e: Event)
    requires SessionsOk(st) && PostsOk(st) && ResultsOk(st) && Enabled(st, e)
    ensures ResultsOk(Apply(st, e))
  {
    var next := Apply(st, e);
    if e.AgentAnswer? {
      FirstAnswer(st, e);
    }
    forall s, m | s in next.sessions && m in next.sessions[s].toHub ensures ResultOk(next, s, m) {
      if s in st.sessions && m in st.sessions[s].toHub {
        if m.CommandResult? {
          ResultIdAt(st.sessions[s].toHub, m.cmdId);
        }
        ResultStep(st, e, s, m);
      } else {
        assert Target(st, e) == Some(s);
      }
    }
  }

  lemma {:induction false} BaseStep(st: State, e: Event)
    requires Base(st) && Enabled(st, e)
    ensures Base(Apply(st, e))
  {
    SessionsStep(st, e);
    IssuedStep(st, e);
    ConnectionsStep(st, e);
    CallsStep(st, e);
    PostsStep(st, e);
    ResultsStep(st, e);
  }

  // ---------------------------------------------------------------- futures and returns

  /** The step hands the hub the result of `c`. */
  predicate Hands(st: State, e: Event, c: string)
    requires Enabled(st, e)
  {
    e.HubTake? &&
      var m := st.sessions[e.session].toHub[st.sessions[e.session].hubRead];
      m.CommandResult? && m.cmdId == c
  }

  lemma {:induction false} TakenStep(st: State, e: Event, s: nat, c: string)
    requires SessionsOk(st) && Enabled(st, e) && s in st.sessions
    ensures s in NextSessions(st, e)
    ensures c in TakenIds(NextSessions(st, e)[s]) <==>
      c in TakenIds(st.sessions[s]) || (Target(st, e) == Some(s) && Hands(st, e, c))
  {
    if e.HubTake? && e.session == s {
      TakesOne(st.sessions[s]);
    } else {
      TakenFrame(st, e, s);
    }
  }

  lemma {:induction false} TakesOne(x: Session)
    requires SessionInv(x) && CanTake(x)
    ensures var m := x.toHub[x.hubRead];
      TakenIds(HubTakes(x)) == TakenIds(x) + (if m.CommandResult? then [m.cmdId] else [])
  {
    NextUntaken(x);
  }

  lemma {:induction false} TakenFrame(st: State, e: Event, s: nat)
    requires SessionsOk(st) && Enabled(st, e) && s in st.sessions && !(e.HubTake? && e.session == s)
    ensures s in NextSessions(st, e) && TakenIds(NextSessions(st, e)[s]) == TakenIds(st.sessions[s])
  {
    SessionGrows(st, e, s);
    TakenSame(st.sessions[s], NextSessions(st, e)[s]);
  }

  lemma {:induction false} TakenSame(x: Session, y: Session)
    requires Grows(x, y) && y.hubRead == x.hubRead <= |x.toHub|
    ensures TakenIds(y) == TakenIds(x)
  {
    assert y.toHub[..y.hubRead] == x.toHub[..x.hubRead];
  }

  lemma {:induction false} HandedIsNew(st: State, e: Event, c: string)
    requires SessionsOk(st) && ResultsOk(st) && Enabled(st, e) && Hands(st, e, c)
    ensures c in st.issued && st.issued[c].session == e.session && !Delivered(st, c)
    ensures c in st.outputs && st.outputs[c] == st.sessions[e.session].toHub[st.sessions[e.session].hubRead].output
  {
    var x := st.sessions[e.session];
    assert ResultOk(st, e.session, x.toHub[x.hubRead]);
    NextUntaken(x);
  }

  /** Only being handed over makes a command delivered, and nothing makes it undelivered. */
  lemma {:induction false} DeliveredStep(st: State, e: Event, c: string)
    requires SessionsOk(st) && IssuedOk(st) && ResultsOk(st) && Enabled(st, e)
    ensures Delivered(Apply(st, e), c) <==> Delivered(st, c) || Hands(st, e, c)
  {
    var next := Apply(st, e);
    if Hands(st, e, c) {
      HandedIsNew(st, e, c);
    }
    if c in st.issued {
      TakenStep(st, e, st.issued[c].session, c);
    } else if c in next.issued && next.issued[c].session in st.sessions {
      var x := st.sessions[next.issued[c].session];
      ResultIdsPrefix(x.toHub, x.hubRead);
      if c in TakenIds(x) {
        AnsweredIsIssued(st, next.issued[c].session, c);
      }
    }
  }

  lemma {:induction false} DeliveredHasOutput(st: State, c: string)
    requires SessionsOk(st) && ResultsOk(st) && Delivered(st, c)
    ensures c in st.outputs && c in ResultIds(st.sessions[st.issued[c].session].toHub)
  {
    var x := st.sessions[st.issued[c].session];
    ResultIdsPrefix(x.toHub, x.hubRead);
    AnsweredIsIssued(st, st.issued[c].session, c);
  }

  lemma {:induction false} OutputStays(st: State, e: Event, c: string)
    requires SessionsOk(st) && PostsOk(st) && ResultsOk(st) && Enabled(st, e) && Delivered(st, c)
    ensures c in st.outputs && c in Apply(st, e).outputs && Apply(st, e).outputs[c] == st.outputs[c]
  {
    DeliveredHasOutput(st, c);
    if e.AgentAnswer? {
      FirstAnswer(st, e);
    }
  }

  /** A future that is not resolved for `c` by this step keeps its content. */
  lemma {:induction false} PendingFrame(st: State, e: Event, c: string)
    requires Enabled(st, e) && c in NextRelay(st, e).pending && !Hands(st, e, c)
    ensures (e.Issue? && e.cmdId == c && NextRelay(st, e).pending[c] == None)
      || (c in st.relay.pending && NextRelay(st, e).pending[c] == st.relay.pending[c])
  {
  }

  lemma {:induction false} FutureStep(st: State, e: Event, c: string)
    requires Base(st) && PendingOk(st) && Enabled(st, e) && c in NextRelay(st, e).pending
    ensures FutureOk(Apply(st, e), c)
  {
    DeliveredStep(st, e, c);
    if Hands(st, e, c) {
      FutureHanded(st, e, c);
    } else {
      PendingFrame(st, e, c);
      if Delivered(st, c) {
        OutputStays(st, e, c);
      }
    }
  }

  lemma {:induction false} FutureHanded(st: State, e: Event, c: string)
    requires Base(st) && PendingOk(st) && Enabled(st, e) && c in NextRelay(st, e).pending && Hands(st, e, c)
    ensures c in Apply(st, e).outputs && NextRelay(st, e).pending[c] == Some(Apply(st, e).outputs[c])
  {
    HandedIsNew(st, e, c);
    assert FutureOk(st, c);
  }

  lemma {:induction false} PendingStep(st: State, e: Event)
    requires Base(st) && PendingOk(st) && Enabled(st, e)
    ensures PendingOk(Apply(st, e))
  {
    forall c | c in Apply(st, e).relay.pending ensures FutureOk(Apply(st, e), c) {
      FutureStep(st, e, c);
    }
  }

  lemma {:induction false} ReturnedStep(st: State, e: Event)
    requires Base(st) && PendingOk(st) && ReturnedOk(st) && Enabled(st, e)
    ensures ReturnedOk(Apply(st, e))
  {
    forall c | c in Apply(st, e).returned ensures ReturnOk(Apply(st, e), c) {
      ReturnStep(st, e, c);
    }
  }

  lemma {:induction false} ReturnStep(st: State, e: Event, c: string)
    requires Base(st) && PendingOk(st) && Enabled(st, e) && c in Apply(st, e).returned
    requires c in st.returned ==> ReturnOk(st, c)
    ensures ReturnOk(Apply(st, e), c)
  {
    if e.Return? && e.cmdId == c {
      assert FutureOk(st, c);
    }
    DeliveredStep(st, e, c);
    OutputStays(st, e, c);
  }

  // ---------------------------------------------------------------- executions

  /** The step has an agent read the command `c` on session `s`. */
  predicate Reads(st: State, e: Event, s: nat)
    requires Enabled(st, e)
  {
    e.AgentReceive? && e.session == s && st.sessions[s].toAgent[st.sessions[s].agentRead].RunCommand?
  }

  lemma {:induction false} ReadIdsStep(st: State, e: Event, s: nat)
    requires SessionsOk(st) && Enabled(st, e) && s in st.sessions
    ensures s in NextSessions(st, e)
    ensures ReadIds(NextSessions(st, e)[s]) ==
      if Reads(st, e, s) then ReadIds(st.sessions[s]) + [st.sessions[s].toAgent[st.sessions[s].agentRead].cmdId]
      else ReadIds(st.sessions[s])
  {
    SessionGrows(st, e, s);
    var x, y := st.sessions[s], NextSessions(st, e)[s];
    if e.AgentReceive? && e.session == s {
      ReadsOn(x);
    } else {
      ReadsFrame(x, y);
    }
  }

  lemma {:induction false} ReadsOn(x: Session)
    requires CanReceive(x)
    ensures ReadIds(AgentReceives(x)) ==
      ReadIds(x) + (if x.toAgent[x.agentRead].RunCommand? then [x.toAgent[x.agentRead].cmdId] else [])
  {
    var k := x.agentRead;
    assert x.toAgent[..k + 1] == x.toAgent[..k] + [x.toAgent[k]];
    CommandIdsSnoc(x.toAgent[..k], x.toAgent[k]);
  }

  lemma {:induction false} ReadsFrame(x: Session, y: Session)
    requires Grows(x, y) && y.agentRead == x.agentRead <= |x.toAgent|
    ensures ReadIds(y) == ReadIds(x)
  {
    assert y.toAgent[..y.agentRead] == x.toAgent[..x.agentRead];
  }

  /** A command about to be read has not run yet, on this session or any other. */
  lemma {:induction false} NotYetRun(st: State, e: Event, s: nat)
    requires SessionsOk(st) && PostsOk(st) && RunsOk(st) && Enabled(st, e) && Reads(st, e, s)
    ensures var m := st.sessions[s].toAgent[st.sessions[s].agentRead];
      && m.cmdId in st.issued && st.issued[m.cmdId] == Request(st.issued[m.cmdId].node, m.command, s)
      && forall r :: r in st.runs ==> r.cmdId != m.cmdId
  {
    var x := st.sessions[s];
    var m := x.toAgent[x.agentRead];
    assert m in x.toAgent;
    assert PostOk(st, s, m);
    NextUnread(x);
    forall r | r in st.runs ensures r.cmdId != m.cmdId {
      assert RunOk(st, r);
    }
  }

  lemma {:induction false} RunStep(st: State, e: Event, r: Execution)
    requires SessionsOk(st) && Enabled(st, e) && RunOk(st, r)
    ensures RunOk(Apply(st, e), r)
  {
    ReadIdsStep(st, e, r.session);
  }

  lemma {:induction false} NewRun(st: State, e: Event, r: Execution)
    requires SessionsOk(st) && PostsOk(st) && RunsOk(st) && Enabled(st, e)
    requires r in Apply(st, e).runs && r !in st.runs
    ensures RunOk(Apply(st, e), r)
  {
    NotYetRun(st, e, e.session);
    ReadIdsStep(st, e, e.session);
  }

  lemma {:induction false} RanStep(st: State, e: Event, s: nat, c: string)
    requires SessionsOk(st) && Enabled(st, e) && s in NextSessions(st, e) && c in ReadIds(NextSessions(st, e)[s])
    requires s in st.sessions && c in ReadIds(st.sessions[s]) ==> Ran(st.runs, c)
    ensures Ran(NextRuns(st, e), c)
  {
    var runs := NextRuns(st, e);
    if s in st.sessions {
      ReadIdsStep(st, e, s);
      if c in ReadIds(st.sessions[s]) {
        var k :| 0 <= k < |st.runs| && st.runs[k].cmdId == c;
        assert runs[k].cmdId == c;
      } else {
        assert runs[|st.runs|].cmdId == c;
      }
    }
  }

  lemma {:induction false} RunsDistinctStep(st: State, e: Event)
    requires SessionsOk(st) && PostsOk(st) && RunsOk(st) && Enabled(st, e)
    ensures forall i, j :: 0 <= i < j < |NextRuns(st, e)| ==> NextRuns(st, e)[i].cmdId != NextRuns(st, e)[j].cmdId
  {
    if e.AgentReceive? && Reads(st, e, e.session) {
      NotYetRun(st, e, e.session);
    }
  }

  lemma {:induction false} RunsStep(st: State, e: Event)
    requires SessionsOk(st) && PostsOk(st) && RunsOk(st) && Enabled(st, e)
    ensures RunsOk(Apply(st, e))
  {
    var next := Apply(st, e);
    RunsDistinctStep(st, e);
    forall r | r in next.runs ensures RunOk(next, r) {
      if r in st.runs {
        RunStep(st, e, r);
      } else {
        NewRun(st, e, r);
      }
    }
    forall s, c | s in next.sessions && c in ReadIds(next.sessions[s]) ensures Ran(next.runs, c) {
      RanStep(st, e, s, c);
    }
  }

  lemma {:induction false} InvStep(st: State, e: Event)
    requires Inv(st) && Enabled(st, e)
    ensures Inv(Apply(st, e))
  {
    BaseStep(st, e);
    PendingStep(st, e);
    ReturnedStep(st, e);
    RunsStep(st, e);
  }

  lemma {:induction false} InvRun(st: State, es: seq<Event>)
    requires Inv(st) && Legal(st, es)
    ensures Inv(Exec(st, es))
    decreases |es|
  {
    if es != [] {
      InvStep(st, es[0]);
      InvRun(Apply(st, es[0]), es[1..]);
    }
  }

  // ---------------------------------------------------------------- the theorems

  /** Where a command can be: not on any socket yet, on its way down, in an agent's hand, on its way
      back, or handed to the hub.  What sits in a channel of a closed session is lost there. */
  datatype Place = Unsent | Down(s: nat, i: nat) | Hand(s: nat) | Up(s: nat, j: nat) | Done(s: nat, j: nat)

  ghost predicate At(st: State, c: string, p: Place) {
    match p
    case Unsent => forall s :: s in st.sessions ==> c !in CommandIds(st.sessions[s].toAgent)
    case Down(s, i) =>
      && s in st.sessions && st.sessions[s].agentRead <= i < |st.sessions[s].toAgent|
      && st.sessions[s].toAgent[i].RunCommand? && st.sessions[s].toAgent[i].cmdId == c
    case Hand(s) => s in st.sessions && st.sessions[s].agent.Running? && st.sessions[s].agent.cmdId == c
    case Up(s, j) =>
      && s in st.sessions && st.sessions[s].hubRead <= j < |st.sessions[s].toHub|
      && st.sessions[s].toHub[j].CommandResult? && st.sessions[s].toHub[j].cmdId == c
    case Done(s, j) =>
      && s in st.sessions && j < st.sessions[s].hubRead && j < |st.sessions[s].toHub|
      && st.sessions[s].toHub[j].CommandResult? && st.sessions[s].toHub[j].cmdId == c
  }

  /** Being anywhere but `Unsent` means having been posted on the session the command was issued for,
      and tells how far that session has got with it. */
  lemma {:induction false} PlaceFacts(st: State, c: string, p: Place)
    requires Base(st) && At(st, c, p) && !p.Unsent?
    ensures c in st.issued && st.issued[c].session == p.s && c in CommandIds(st.sessions[p.s].toAgent)
    ensures p.Down? <==> c !in ReadIds(st.sessions[p.s])
    ensures p.Hand? || p.Down? <==> c !in ResultIds(st.sessions[p.s].toHub)
  {
    var x := st.sessions[p.s];
    CommandIdsPrefix(x.toAgent, x.agentRead);
    assert ReadIds(x) == ResultIds(x.toHub) + InHand(x.agent);
    match p
    case Down(s, i) =>
      CommandIdAt(x.toAgent, c);
      if c in ReadIds(x) {
        CommandIdAt(x.toAgent[..x.agentRead], c);
        var read := x.toAgent[..x.agentRead];
        var k :| 0 <= k < |read| && read[k].RunCommand? && read[k].cmdId == c;
        OneCommandPosition(x.toAgent, k, i);
      }
      PostedIsIssued(st, s, c);
    case Hand(s) =>
      InHandFacts(x);
      PostedIsIssued(st, s, c);
    case Up(s, j) =>
      ResultIdAt(x.toHub, c);
      AnsweredIsRead(x, c);
      PostedIsIssued(st, s, c);
    case Done(s, j) =>
      ResultIdAt(x.toHub, c);
      AnsweredIsRead(x, c);
      PostedIsIssued(st, s, c);
  }

  lemma {:induction false} AnsweredIsRead(x: Session, c: string)
    requires SessionInv(x) && c in ResultIds(x.toHub)
    ensures c in ReadIds(x) && c in CommandIds(x.toAgent)
  {
    CommandIdsPrefix(x.toAgent, x.agentRead);
    assert ReadIds(x) == ResultIds(x.toHub) + InHand(x.agent);
  }

  lemma {:induction false} SamePlace(st: State, c: string, p: Place, q: Place)
    requires Base(st) && At(st, c, p) && At(st, c, q)
    ensures p == q
  {
    if !p.Unsent? { PlaceFacts(st, c, p); }
    if !q.Unsent? { PlaceFacts(st, c, q); }
    if p.Unsent? || q.Unsent? {
    } else if p.Down? {
      if p.i < q.i { OneCommandPosition(st.sessions[p.s].toAgent, p.i, q.i); }
      if q.i < p.i { OneCommandPosition(st.sessions[p.s].toAgent, q.i, p.i); }
    } else if p.Up? || p.Done? {
      ResultsDistinct(st.sessions[p.s]);
      if p.j < q.j { OneResultPosition(st.sessions[p.s].toHub, p.j, q.j); }
      if q.j < p.j { OneResultPosition(st.sessions[p.s].toHub, q.j, p.j); }
    }
  }

  /** A command neither answered nor in hand has not been read. */
  lemma {:induction false} UnreadPosition(x: Session, i: nat)
    requires SessionInv(x) && i < |x.toAgent| && x.toAgent[i].RunCommand?
    requires x.toAgent[i].cmdId !in ResultIds(x.toHub) && x.toAgent[i].cmdId !in InHand(x.agent)
    ensures x.agentRead <= i
  {
    var read := x.toAgent[..x.agentRead];
    CommandIdAt(read, x.toAgent[i].cmdId);
    assert forall k :: 0 <= k < |read| ==> read[k] == x.toAgent[k];
  }

  lemma {:induction false} SomePlace(st: State, c: string)
    requires Base(st) && c in st.issued
    ensures exists p :: At(st, c, p)
  {
    var s := st.issued[c].session;
    var x := st.sessions[s];
    if c in ResultIds(x.toHub) {
      ResultIdAt(x.toHub, c);
      var j :| 0 <= j < |x.toHub| && x.toHub[j].CommandResult? && x.toHub[j].cmdId == c;
      assert At(st, c, if j < x.hubRead then Done(s, j) else Up(s, j));
    } else if c in InHand(x.agent) {
      assert At(st, c, Hand(s));
    } else if c in CommandIds(x.toAgent) {
      CommandIdAt(x.toAgent, c);
      var i :| 0 <= i < |x.toAgent| && x.toAgent[i].RunCommand? && x.toAgent[i].cmdId == c;
      UnreadPosition(x, i);
      assert At(st, c, Down(s, i));
    } else {
      forall t | t in st.sessions ensures c !in CommandIds(st.sessions[t].toAgent) {
        if c in CommandIds(st.sessions[t].toAgent) {
          PostedIsIssued(st, t, c);
        }
      }
      assert At(st, c, Unsent);
    }
  }

  /** In every reachable state each issued command is in exactly one place. */
  lemma {:induction false} OnePlace(es: seq<Event>, c: string)
    requires Legal(INIT, es) && c in Exec(INIT, es).issued
    ensures exists p :: At(Exec(INIT, es), c, p) && forall q :: At(Exec(INIT, es), c, q) ==> q == p
  {
    InvRun(INIT, es);
    SomePlace(Exec(INIT, es), c);
    var p :| At(Exec(INIT, es), c, p);
    forall q | At(Exec(INIT, es), c, q) ensures q == p {
      SamePlace(Exec(INIT, es), c, p, q);
    }
  }

  /** Every session of every reachable state conserves its messages, and never deadlocks: while its
      agent waits in `recv`, the agent or the hub has a step to take on that session. */
  lemma {:induction false} SessionsConserve(es: seq<Event>, s: nat)
    requires Legal(INIT, es) && s in Exec(INIT, es).sessions
    ensures var st := Exec(INIT, es); var x := st.sessions[s];
      && InFlight(x) == |CommandIds(x.toAgent)| + |ResultIds(x.toHub)| + (if x.agent.Receiving? then 1 else 0)
      && (x.open && x.agent.Receiving? ==>
           Enabled(st, AgentReceive(s)) || Enabled(st, HubTake(s)) || Enabled(st, HubAnswer(s)))
  {
    hide SessionInv, CommandIds, ResultIds, Exec, Legal;
    InvRun(INIT, es);
    var x := Exec(INIT, es).sessions[s];
    assert SessionInv(x);
    Conservation(x);
    if x.open && x.agent.Receiving? {
      NoDeadlock(x);
    }
  }

  /** Each command is run at most once in any run. */
  lemma {:induction false} AtMostOnce(es: seq<Event>, i: nat, j: nat)
    requires Legal(INIT, es)
    requires i < |Exec(INIT, es).runs| && j < |Exec(INIT, es).runs|
    requires Exec(INIT, es).runs[i].cmdId == Exec(INIT, es).runs[j].cmdId
    ensures i == j
  {
    InvRun(INIT, es);
  }

  /** A result that `send_command(node, command)` returned is the output of the one execution of
      that command, and that execution was of `command`, on a session of `node`. */
  lemma {:induction false} ResultsAreGenuine(es: seq<Event>, c: string)
    requires Legal(INIT, es) && c in Exec(INIT, es).returned
    ensures var st := Exec(INIT, es);
      && c in st.issued && c in st.outputs && st.returned[c] == st.outputs[c]
      && (exists k :: 0 <= k < |st.runs| && st.runs[k] == Execution(st.issued[c].session, c, st.issued[c].command))
      && st.issued[c].session in st.sessions && st.sessions[st.issued[c].session].node == st.issued[c].node
  {
    InvRun(INIT, es);
    GenuineIn(Exec(INIT, es), c);
  }

  lemma {:induction false} GenuineIn(st: State, c: string)
    requires SessionsOk(st) && IssuedOk(st) && ResultsOk(st) && ReturnedOk(st) && RunsOk(st) && c in st.returned
    ensures c in st.issued && c in st.outputs && st.returned[c] == st.outputs[c]
    ensures exists k :: 0 <= k < |st.runs| && st.runs[k] == Execution(st.issued[c].session, c, st.issued[c].command)
    ensures st.issued[c].session in st.sessions && st.sessions[st.issued[c].session].node == st.issued[c].node
  {
    assert ReturnOk(st, c);
    DeliveredHasOutput(st, c);
    var x := st.sessions[st.issued[c].session];
    assert ReadIds(x) == ResultIds(x.toHub) + InHand(x.agent);
    assert Ran(st.runs, c);
    var k :| 0 <= k < |st.runs| && st.runs[k].cmdId == c;
    assert RunOk(st, st.runs[k]);
  }

  /** The pending table is exact: its keys are the `send_command` calls in flight, and a future is
      resolved precisely when the hub has taken the command's result, which it then holds.  Since
      the future is stored before the message goes out, no result arriving in time is ever lost. */
  lemma {:induction false} PendingIsExact(es: seq<Event>)
    requires Legal(INIT, es)
    ensures var st := Exec(INIT, es);
      && st.relay.pending.Keys == st.calls.Keys
      && (forall c :: c in st.relay.pending ==> (st.relay.pending[c].Some? <==> IsDone(st, c)))
      && (forall c, s: nat, j: nat :: c in st.relay.pending && At(st, c, Done(s, j)) ==>
           st.relay.pending[c] == Some(st.sessions[s].toHub[j].output))
  {
    InvRun(INIT, es);
    var st := Exec(INIT, es);
    forall c | c in st.relay.pending ensures st.relay.pending[c].Some? <==> IsDone(st, c) {
      ResolvedIffDone(st, c);
    }
    forall c, s: nat, j: nat | c in st.relay.pending && At(st, c, Done(s, j))
      ensures st.relay.pending[c] == Some(st.sessions[s].toHub[j].output)
    {
      ResolvedWith(st, c, s, j);
    }
  }

  lemma {:induction false} ResolvedIffDone(st: State, c: string)
    requires Base(st) && PendingOk(st) && c in st.relay.pending
    ensures st.relay.pending[c].Some? <==> IsDone(st, c)
  {
    assert FutureOk(st, c);
    DeliveredIsDone(st, c);
  }

  lemma {:induction false} ResolvedWith(st: State, c: string, s: nat, j: nat)
    requires Base(st) && PendingOk(st) && c in st.relay.pending && At(st, c, Done(s, j))
    ensures st.relay.pending[c] == Some(st.sessions[s].toHub[j].output)
  {
    ResolvedIffDone(st, c);
    assert FutureOk(st, c);
    assert st.sessions[s].toHub[j] in st.sessions[s].toHub;
    assert ResultOk(st, s, st.sessions[s].toHub[j]);
  }

  ghost predicate IsDone(st: State, c: string) {
    exists s: nat, j: nat :: At(st, c, Done(s, j))
  }

  lemma {:induction false} DeliveredIsDone(st: State, c: string)
    requires Base(st) && c in st.issued
    ensures Delivered(st, c) <==> IsDone(st, c)
  {
    var s := st.issued[c].session;
    var x := st.sessions[s];
    var taken := x.toHub[..x.hubRead];
    ResultIdAt(taken, c);
    if Delivered(st, c) {
      var j :| 0 <= j < |taken| && taken[j].CommandResult? && taken[j].cmdId == c;
      assert At(st, c, Done(s, j));
    }
    if s': nat, j: nat :| At(st, c, Done(s', j)) {
      PlaceFacts(st, c, Done(s', j));
      assert taken[j] == x.toHub[j];
    }
  }
}
