/** Every posted command can be completed: from any reachable state an open session's own steps, in a
    number known beforehand, run it and hand its result to the caller. */
module RelayProgress {
  import opened Options
  import opened RelayTables
  import opened RelayProtocol
  import opened RelaySafety

  // ---------------------------------------------------------------- schedules of one session

  /** A step of the session itself: its agent's three, its hub handler's two. */
  datatype Move = Send | Receive | Answer(output: Output) | Take | Confirm

  predicate CanMove(x: Session, m: Move) {
    match m
    case Send => x.agent.Top?
    case Receive => CanReceive(x)
    case Answer(_) => x.agent.Running?
    case Take => CanTake(x)
    case Confirm => x.open && x.owing
  }

  function Moved(x: Session, m: Move): Session
    requires CanMove(x, m)
  {
    match m
    case Send => AgentSends(x)
    case Receive => AgentReceives(x)
    case Answer(output) => AgentAnswers(x, output)
    case Take => HubTakes(x)
    case Confirm => HubAnswers(x)
  }

  predicate CanRun(x: Session, ms: seq<Move>)
    decreases |ms|
  {
    ms == [] || (CanMove(x, ms[0]) && CanRun(Moved(x, ms[0]), ms[1..]))
  }

  function Run(x: Session, ms: seq<Move>): Session
    requires CanRun(x, ms)
    decreases |ms|
  {
    if ms == [] then x else Run(Moved(x, ms[0]), ms[1..])
  }

  lemma {:induction false} RunJoin(x: Session, a: seq<Move>, b: seq<Move>)
    requires CanRun(x, a) && CanRun(Run(x, a), b)
    ensures CanRun(x, a + b) && Run(x, a + b) == Run(Run(x, a), b)
    decreases |a|
  {
    if a == [] {
      assert a + b == b;
    } else {
      assert (a + b)[1..] == a[1..] + b;
      RunJoin(Moved(x, a[0]), a[1..], b);
    }
  }

  lemma {:induction false} RunFirst(x: Session, m: Move, ms: seq<Move>)
    requires CanMove(x, m) && CanRun(Moved(x, m), ms)
    ensures CanRun(x, [m] + ms) && Run(x, [m] + ms) == Run(Moved(x, m), ms)
  {
    assert ([m] + ms)[1..] == ms;
  }

  // ---------------------------------------------------------------- the agent reads on

  /** Steps until the agent has read position `i`: three a message, fewer in the middle of one. */
  function StepsToRead(x: Session, i: nat): int {
    3 * (i - x.agentRead) + (match x.agent case Receiving => 1 case Top => 2 case Running(_, _) => 3)
  }

  /** The agent by itself has read exactly up to position `i`, a command there being in its hand. */
  predicate HasRead(x: Session, y: Session, i: nat)
    requires i < |x.toAgent|
  {
    && y == x.(agentRead := i + 1, toHub := y.toHub, agent := y.agent)
    && x.toHub <= y.toHub && |y.toHub| <= |x.toHub| + 2 * (i + 1 - x.agentRead)
    && (x.toAgent[i].RunCommand? ==> y.agent == Running(x.toAgent[i].cmdId, x.toAgent[i].command))
  }

  lemma {:induction false} ReadUpTo(x: Session, i: nat) returns (ms: seq<Move>)
    requires x.agentRead <= i < |x.toAgent|
    ensures CanRun(x, ms) && |ms| <= StepsToRead(x, i) && HasRead(x, Run(x, ms), i)
    ensures x.agent.Receiving? ==> |Run(x, ms).toHub| <= |x.toHub| + 2 * (i - x.agentRead)
    ensures x.agent.Top? ==> |Run(x, ms).toHub| <= |x.toHub| + 2 * (i - x.agentRead) + 1
    decreases StepsToRead(x, i)
  {
    var m := match x.agent case Top => Send case Receiving => Receive case Running(_, _) => Answer(Output("", "", 0));
    if x.agent.Receiving? && x.agentRead == i {
      ms := [];
    } else {
      ms := ReadUpTo(Moved(x, m), i);
    }
    RunFirst(x, m, ms);
    ms := [m] + ms;
  }

  // ---------------------------------------------------------------- the hub catches up

  lemma {:induction false} TakeUpTo(x: Session, j: nat) returns (ms: seq<Move>)
    requires x.open && x.hubRead <= j < |x.toHub|
    ensures CanRun(x, ms) && |ms| <= 2 * (j - x.hubRead) + (if x.owing then 2 else 1)
    ensures var y := Run(x, ms); y == x.(hubRead := j + 1, owing := true, toAgent := y.toAgent)
    decreases 2 * (j - x.hubRead) + (if x.owing then 1 else 0)
  {
    var m := if x.owing then Confirm else Take;
    if !x.owing && x.hubRead == j {
      ms := [];
    } else {
      ms := TakeUpTo(Moved(x, m), j);
    }
    RunFirst(x, m, ms);
    ms := [m] + ms;
  }

  // ---------------------------------------------------------------- one command

  /** Where a command is on its own session; `At` without the other sessions. */
  predicate OnSession(x: Session, c: string, p: Place) {
    match p
    case Unsent => false
    case Down(_, i) => x.agentRead <= i < |x.toAgent| && x.toAgent[i].RunCommand? && x.toAgent[i].cmdId == c
    case Hand(_) => x.agent.Running? && x.agent.cmdId == c
    case Up(_, j) => x.hubRead <= j < |x.toHub| && x.toHub[j].CommandResult? && x.toHub[j].cmdId == c
    case Done(_, j) => j < x.hubRead && j < |x.toHub| && x.toHub[j].CommandResult? && x.toHub[j].cmdId == c
  }

  /** Steps that suffice from each place. */
  function StepsLeft(x: Session, p: Place): int {
    match p
    case Unsent => 0
    case Down(_, i) => 7 * (i + 1 - x.agentRead) + 3 + 2 * (|x.toHub| - x.hubRead)
    case Hand(_) => 3 + 2 * (|x.toHub| - x.hubRead)
    case Up(_, j) => 2 * (j + 1 - x.hubRead)
    case Done(_, _) => 0
  }

  lemma {:induction false} FromUp(x: Session, c: string, s: nat, j: nat) returns (ms: seq<Move>)
    requires x.open && OnSession(x, c, Up(s, j))
    ensures CanRun(x, ms) && |ms| <= StepsLeft(x, Up(s, j)) && OnSession(Run(x, ms), c, Done(s, j))
    ensures Run(x, ms).toHub == x.toHub
  {
    ms := TakeUpTo(x, j);
  }

  /** The command may print anything. */
  lemma {:induction false} FromHand(x: Session, c: string, s: nat, o: Output) returns (ms: seq<Move>, j: nat)
    requires x.open && x.hubRead <= |x.toHub| && OnSession(x, c, Hand(s))
    ensures CanRun(x, ms) && |ms| <= StepsLeft(x, Hand(s)) && OnSession(Run(x, ms), c, Done(s, j))
    ensures Run(x, ms).toHub[j].output == o
  {
    j := |x.toHub|;
    var m := Answer(o);
    ms := FromUp(Moved(x, m), c, s, j);
    RunFirst(x, m, ms);
    ms := [m] + ms;
  }

  lemma {:induction false} FromDown(x: Session, c: string, s: nat, i: nat, o: Output) returns (ms: seq<Move>, j: nat)
    requires x.open && x.hubRead <= |x.toHub| && OnSession(x, c, Down(s, i))
    ensures CanRun(x, ms) && |ms| <= StepsLeft(x, Down(s, i)) && OnSession(Run(x, ms), c, Done(s, j))
    ensures Run(x, ms).toHub[j].output == o
  {
    var read := ReadUpTo(x, i);
    var rest;
    rest, j := FromHand(Run(x, read), c, s, o);
    RunJoin(x, read, rest);
    ms := read + rest;
  }

  // ---------------------------------------------------------------- in the whole system

  function EventOf(s: nat, m: Move): Event {
    match m
    case Send => AgentSend(s)
    case Receive => AgentReceive(s)
    case Answer(output) => AgentAnswer(s, output)
    case Take => HubTake(s)
    case Confirm => HubAnswer(s)
  }

  function EventsOf(s: nat, ms: seq<Move>): (es: seq<Event>)
    ensures |es| == |ms|
    ensures forall k :: 0 <= k < |ms| ==> es[k] == EventOf(s, ms[k])
  {
    seq(|ms|, k requires 0 <= k < |ms| => EventOf(s, ms[k]))
  }

  lemma {:induction false} LiftMove(st: State, s: nat, m: Move)
    requires s in st.sessions && CanMove(st.sessions[s], m)
    ensures Enabled(st, EventOf(s, m))
    ensures var next := Apply(st, EventOf(s, m));
      && s in next.sessions && next.sessions[s] == Moved(st.sessions[s], m)
      && next.relay.pending.Keys == st.relay.pending.Keys && next.calls == st.calls && next.issued == st.issued
  {
  }

  lemma {:induction false} LiftRun(st: State, s: nat, ms: seq<Move>)
    requires s in st.sessions && CanRun(st.sessions[s], ms)
    ensures Legal(st, EventsOf(s, ms))
    ensures var after := Exec(st, EventsOf(s, ms));
      && s in after.sessions && after.sessions[s] == Run(st.sessions[s], ms)
      && after.relay.pending.Keys == st.relay.pending.Keys && after.calls == st.calls && after.issued == st.issued
    decreases |ms|
  {
    if ms != [] {
      LiftMove(st, s, ms[0]);
      LiftRun(Apply(st, EventOf(s, ms[0])), s, ms[1..]);
      assert EventsOf(s, ms)[1..] == EventsOf(s, ms[1..]);
    }
  }

  ghost predicate OwnSteps(es: seq<Event>, s: nat) {
    forall k :: 0 <= k < |es| ==>
      (es[k].AgentSend? || es[k].AgentReceive? || es[k].AgentAnswer? || es[k].HubTake? || es[k].HubAnswer?)
      && es[k].session == s
  }

  lemma {:induction false} Schedule(x: Session, c: string, p: Place) returns (ms: seq<Move>, j: nat)
    requires x.open && x.hubRead <= |x.toHub| && !p.Unsent? && OnSession(x, c, p)
    ensures CanRun(x, ms) && |ms| <= StepsLeft(x, p) && OnSession(Run(x, ms), c, Done(p.s, j))
  {
    match p
    case Down(s, i) => ms, j := FromDown(x, c, s, i, Output("", "", 0));
    case Hand(s) => ms, j := FromHand(x, c, s, Output("", "", 0));
    case Up(s, i) => ms := FromUp(x, c, s, i); j := i;
    case Done(_, i) => ms, j := [], i;
  }

  /** The schedule of an unread command in detail: the agent's next reads, up to the command's own. */
  lemma {:induction false} CommandIsRead(before: seq<Event>, c: string, s: nat, i: nat) returns (es: seq<Event>)
    requires Legal(INIT, before) && At(Exec(INIT, before), c, Down(s, i))
    ensures OwnSteps(es, s) && Legal(Exec(INIT, before), es)
    ensures var st := Exec(INIT, before); var after := Exec(st, es);
      && |es| <= 3 * (i + 1 - st.sessions[s].agentRead) && At(after, c, Hand(s))
      && after.sessions[s].agentRead == i + 1
  {
    var st := Exec(INIT, before);
    var ms := ReadUpTo(st.sessions[s], i);
    LiftRun(st, s, ms);
    es := EventsOf(s, ms);
  }

  /** From every reachable state, a command posted on a session that is still open can be brought to
      its end by that session's own steps, as many as `StepsLeft` says: it is read, run and answered,
      the hub takes the result, and if its caller still waits the future is resolved. */
  lemma {:induction false} CommandCompletes(before: seq<Event>, c: string, p: Place) returns (es: seq<Event>)
    requires Legal(INIT, before) && At(Exec(INIT, before), c, p) && !p.Unsent?
    requires Exec(INIT, before).sessions[p.s].open
    ensures OwnSteps(es, p.s) && Legal(Exec(INIT, before), es)
    ensures var st := Exec(INIT, before); var after := Exec(st, es);
      && |es| <= StepsLeft(st.sessions[p.s], p) && IsDone(after, c)
      && (c in st.relay.pending ==> c in after.relay.pending && after.relay.pending[c].Some?)
  {
    hide Exec, Legal, Inv, IsDone, StepsLeft, OwnSteps;
    StartsWell();
    InvRun(INIT, before);
    es := CompletesFrom(Exec(INIT, before), c, p);
    InvRun(Exec(INIT, before), es);
    DoneMeansResolved(Exec(Exec(INIT, before), es), c);
  }

  lemma {:induction false} StartsWell()
    ensures Inv(INIT)
  {
  }

  lemma {:induction false} DoneMeansResolved(st: State, c: string)
    requires Inv(st) && IsDone(st, c)
    ensures c in st.relay.pending ==> st.relay.pending[c].Some?
  {
    hide SessionsOk, IssuedOk, CallsOk, PostsOk, ResultsOk, IsDone;
    if c in st.relay.pending {
      ResolvedIffDone(st, c);
    }
  }

  lemma {:induction false} WithinLogs(st: State, s: nat)
    requires Inv(st) && s in st.sessions
    ensures st.sessions[s].agentRead <= |st.sessions[s].toAgent| && st.sessions[s].hubRead <= |st.sessions[s].toHub|
  {
    assert SessionInv(st.sessions[s]);
  }

  lemma {:induction false} CompletesFrom(st: State, c: string, p: Place) returns (es: seq<Event>)
    requires Inv(st) && At(st, c, p) && !p.Unsent? && st.sessions[p.s].open
    ensures OwnSteps(es, p.s) && Legal(st, es) && |es| <= StepsLeft(st.sessions[p.s], p)
    ensures IsDone(Exec(st, es), c) && Exec(st, es).relay.pending.Keys == st.relay.pending.Keys
  {
    hide Exec, Legal, StepsLeft, CanRun, Run, Inv;
    WithinLogs(st, p.s);
    var ms, j := Schedule(st.sessions[p.s], c, p);
    es := EventsOf(p.s, ms);
    LiftRun(st, p.s, ms);
    assert At(Exec(st, es), c, Done(p.s, j));
  }
}
