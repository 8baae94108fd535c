/** How long a command waits.  Replies to heartbeats and to results share the command's channel and
    the agent reads one message an iteration, so every command ever completed on a session delays
    the later ones. */
module RelayLatency {
  import opened RelayProtocol
  import opened RelaySafety

  lemma {:induction false} GrowsInRun(st: State, es: seq<Event>, s: nat)
    requires Legal(st, es) && s in st.sessions
    ensures s in Exec(st, es).sessions && Grows(st.sessions[s], Exec(st, es).sessions[s])
    decreases |es|
  {
    if es != [] {
      SessionGrows(st, es[0], s);
      GrowsInRun(Apply(st, es[0]), es[1..], s);
    }
  }

  /** A command at position `p` of its channel has been read once more than `p` messages have. */
  lemma {:induction false} ReadWhenReached(x: Session, p: nat)
    requires SessionInv(x) && p < |x.toAgent| && x.toAgent[p].RunCommand?
    ensures x.toAgent[p].cmdId in ReadIds(x) <==> p < x.agentRead
  {
    var read, c := x.toAgent[..x.agentRead], x.toAgent[p].cmdId;
    CommandIdAt(read, c);
    if p < x.agentRead {
      assert read[p] == x.toAgent[p];
    } else if c in ReadIds(x) {
      var k :| 0 <= k < |read| && read[k].RunCommand? && read[k].cmdId == c;
      OneCommandPosition(x.toAgent, k, p);
    }
  }

  /** How many of the agent's iterations will end before the one that reads a command posted now. */
  function Backlog(x: Session): int {
    |CommandIds(x.toAgent)| + |ResultIds(x.toHub)| + (if x.agent.Receiving? then 1 else 0)
      - (|x.toHub| - x.hubRead) - (if x.owing then 1 else 0)
  }

  /** The wait of a command, exactly, in every later state of every run: it has been read if and
      only if the agent has read more messages than the session's backlog when it was posted. */
  lemma {:induction false} ExactWait(st: State, c: string, es: seq<Event>)
    requires Inv(st) && Enabled(st, Post(c)) && Legal(Apply(st, Post(c)), es)
    ensures var s := st.issued[c].session; var later := Exec(Apply(st, Post(c)), es);
      && s in later.sessions
      && (c in ReadIds(later.sessions[s]) <==>
           later.sessions[s].agentRead - st.sessions[s].agentRead > Backlog(st.sessions[s]))
  {
    var s := st.issued[c].session;
    var x := st.sessions[s];
    var posted := Apply(st, Post(c));
    var later := Exec(posted, es);
    InvStep(st, Post(c));
    InvRun(posted, es);
    GrowsInRun(posted, es, s);
    assert posted.sessions[s].toAgent[|x.toAgent|] == RunCommand(c, st.issued[c].command);
    ReadWhenReached(later.sessions[s], |x.toAgent|);
    Conservation(x);
  }

  /** With the hub caught up and `n` commands completed on the session, the next command is read on
      exactly the (2n+1)-th iteration after it was posted. */
  lemma {:induction false} WaitAfterCompleted(st: State, c: string, n: nat, es: seq<Event>)
    requires Inv(st) && Enabled(st, Post(c)) && Legal(Apply(st, Post(c)), es)
    requires var x := st.sessions[st.issued[c].session];
      && x.agent.Top? && !x.owing && x.hubRead == |x.toHub|
      && |CommandIds(x.toAgent)| == |ResultIds(x.toHub)| == n
    ensures var s := st.issued[c].session; var later := Exec(Apply(st, Post(c)), es);
      && s in later.sessions
      && (c in ReadIds(later.sessions[s]) <==>
           later.sessions[s].agentRead - st.sessions[s].agentRead >= 2 * n + 1)
  {
    ExactWait(st, c, es);
  }

  /** On an open session an agent in `recv` gets its message after at most two steps of the hub. */
  lemma {:induction false} RecvCompletes(x: Session)
    requires SessionInv(x) && x.open && x.agent.Receiving?
    ensures CanReceive(x)
      || (x.owing && CanReceive(HubAnswers(x)))
      || (CanTake(x) && CanReceive(HubAnswers(HubTakes(x))))
  {
    NoDeadlock(x);
  }
}
