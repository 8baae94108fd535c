/** The hub's session handler (`server.py`): the message loop of one session as code, and all
    sessions together, statement by statement, as a state machine. */
module SessionLoop {
  import opened Options
  import opened Timestamps
  import T = Tables
  import R = RelayTables
  import opened Database
  import opened HubControl
  import opened CommandRelays

  datatype Message =
    | NotJson
    | Result(cmdId: Option<string>, output: R.Output)
    | Snapshot(claimedId: Option<string>, payload: T.Payload)

  datatype Reply = StatusOk | InvalidJson

  /** A message and the hub's clock when it is handled. */
  datatype Arrival = Arrival(message: Message, now: nat)

  /** What a session has done so far; `rejected` once its first snapshot named another node. */
  datatype Progress = Progress(store: T.Store, relay: R.Relay, first: bool, replies: seq<Reply>, rejected: bool)

  ghost predicate Readable(inbox: seq<Arrival>) {
    forall i :: 0 <= i < |inbox| ==> T.Writable(inbox[i].now)
  }

  function Handle(v: Progress, nodeId: string, m: Message, stamp: string): Progress {
    if v.rejected then v else
    match m
    case NotJson => v.(replies := v.replies + [InvalidJson])
    case Result(cmdId, output) =>
      v.(relay := if cmdId.Some? && cmdId.value != "" then R.Deliver(v.relay, cmdId.value, output) else v.relay,
         replies := v.replies + [StatusOk])
    case Snapshot(claimedId, p) =>
      if v.first && claimedId != Some(nodeId) then v.(rejected := true)
      else v.(store := if v.first then T.RegisterNode(v.store, nodeId, p, stamp)
                       else T.ProcessHeartbeat(v.store, nodeId, p, stamp),
              first := false, replies := v.replies + [StatusOk])
  }

  ghost function HandleAll(v: Progress, nodeId: string, inbox: seq<Arrival>): Progress
    requires Readable(inbox)
  {
    if inbox == [] then v
    else
      var front, last := inbox[..|inbox| - 1], inbox[|inbox| - 1];
      Handle(HandleAll(v, nodeId, front), nodeId, last.message, Stamp(T.WholeSecond(last.now)))
  }

  lemma {:induction false} RejectedStays(v: Progress, nodeId: string, inbox: seq<Arrival>, k: nat)
    requires Readable(inbox) && k <= |inbox| && HandleAll(v, nodeId, inbox[..k]).rejected
    ensures HandleAll(v, nodeId, inbox) == HandleAll(v, nodeId, inbox[..k])
    decreases |inbox|
  {
    if k == |inbox| {
      assert inbox[..k] == inbox;
    } else {
      var front := inbox[..|inbox| - 1];
      assert front[..k] == inbox[..k];
      RejectedStays(v, nodeId, front, k);
    }
  }

  ghost function Standing(hub: Hub, relay: CommandRelay, first: bool, replies: seq<Reply>): Progress
    reads hub.db, relay, relay.pending.Values
  {
    Progress(hub.db.Contents(), relay.Contents(), first, replies, false)
  }

  /** One turn of the loop. */
  method HandleMessage(
    hub: Hub, relay: CommandRelay, nodeId: string, first: bool, m: Message, now: nat, ghost v: Progress)
    returns (stillFirst: bool, reply: Option<Reply>)
    requires relay.Valid() && T.Writable(now) && v == Standing(hub, relay, first, v.replies)
    modifies hub.db, relay.pending.Values
    ensures relay.Valid() && relay.pending == old(relay.pending)
    ensures Handle(v, nodeId, m, Stamp(T.WholeSecond(now))) ==
      if reply.None? then Standing(hub, relay, first, v.replies).(rejected := true)
      else Standing(hub, relay, stillFirst, v.replies + [reply.value])
  {
    stillFirst, reply := first, Some(StatusOk);
    match m {
      case NotJson =>
        reply := Some(InvalidJson);
      case Result(cmdId, output) =>
        if cmdId.Some? && cmdId.value != "" {
          relay.DeliverResult(cmdId.value, output);
        }
      case Snapshot(claimedId, p) =>
        if first {
          if claimedId != Some(nodeId) {
            return first, None;
          }
          hub.RegisterNode(nodeId, p, now);
          stillFirst := false;
        } else {
          hub.ProcessHeartbeat(nodeId, p, now);
        }
    }
  }

  /** The loop of `websocket_heartbeat` until the peer disconnects after `inbox`, or names another
      node; only a disconnect takes the session out of the relay. */
  method WebsocketHeartbeat(hub: Hub, relay: CommandRelay, nodeId: string, session: nat, inbox: seq<Arrival>)
    returns (replies: seq<Reply>, rejected: bool)
    requires relay.Valid() && Readable(inbox)
    modifies hub.db, relay`connections, relay.pending.Values
    ensures relay.Valid()
    ensures var registered := R.Register(old(relay.Contents()), nodeId, session);
      var start := Progress(old(hub.db.Contents()), registered, true, [], false);
      var end := HandleAll(start, nodeId, inbox);
      && hub.db.Contents() == end.store && replies == end.replies && rejected == end.rejected
      && relay.Contents() == if rejected then end.relay else R.Unregister(end.relay, nodeId)
  {
    replies, rejected := [], false;
    var firstMessage := true;
    relay.Register(nodeId, session);
    ghost var start := Standing(hub, relay, true, []);
    for i := 0 to |inbox|
      invariant relay.Valid() && relay.pending == old(relay.pending) && !rejected
      invariant HandleAll(start, nodeId, inbox[..i]) == Standing(hub, relay, firstMessage, replies)
    {
      HandleNext(start, nodeId, inbox, i);
      var reply;
      firstMessage, reply := HandleMessage(hub, relay, nodeId, firstMessage, inbox[i].message, inbox[i].now,
                                           Standing(hub, relay, firstMessage, replies));
      if reply == None {
        rejected := true;
        RejectedStays(start, nodeId, inbox, i + 1);
        return;
      }
      replies := replies + [reply.value];
    }
    assert inbox[..|inbox|] == inbox;
    relay.Unregister(nodeId);
  }

  lemma {:induction false} HandleNext(v: Progress, nodeId: string, inbox: seq<Arrival>, i: nat)
    requires Readable(inbox) && i < |inbox|
    ensures HandleAll(v, nodeId, inbox[..i + 1]) ==
      Handle(HandleAll(v, nodeId, inbox[..i]), nodeId, inbox[i].message, Stamp(T.WholeSecond(inbox[i].now)))
  {
    assert inbox[..i + 1][..i] == inbox[..i];
  }

  function ReplyTo(m: Message): Reply {
    if m.NotJson? then InvalidJson else StatusOk
  }

  function RepliesTo(inbox: seq<Arrival>): (r: seq<Reply>)
    ensures |r| == |inbox|
    ensures forall i :: 0 <= i < |inbox| ==> r[i] == ReplyTo(inbox[i].message)
  {
    seq(|inbox|, i requires 0 <= i < |inbox| => ReplyTo(inbox[i].message))
  }

  lemma {:induction false} RepliesSnoc(front: seq<Arrival>, last: Arrival)
    ensures RepliesTo(front + [last]) == RepliesTo(front) + [ReplyTo(last.message)]
  {
  }

  lemma {:induction false} OneReply(v: Progress, nodeId: string, m: Message, stamp: string)
    requires !Handle(v, nodeId, m, stamp).rejected
    ensures !v.rejected
    ensures Handle(v, nodeId, m, stamp).replies == v.replies + [ReplyTo(m)]
  {
  }

  /** Every message is answered exactly once, in order, unless the session is rejected. */
  lemma {:induction false} OneReplyEach(v: Progress, nodeId: string, inbox: seq<Arrival>)
    requires Readable(inbox) && !HandleAll(v, nodeId, inbox).rejected
    ensures HandleAll(v, nodeId, inbox).replies ==
      v.replies + RepliesTo(inbox)
  {
    if inbox != [] {
      var front, last := inbox[..|inbox| - 1], inbox[|inbox| - 1];
      OneReply(HandleAll(v, nodeId, front), nodeId, last.message, Stamp(T.WholeSecond(last.now)));
      OneReplyEach(v, nodeId, front);
      RepliesSnoc(front, last);
      assert inbox == front + [last];
    }
  }
}

/** Heartbeat rows across all sessions, with their statements interleaved. */
module HeartbeatIntegrity {
  import opened Options
  import opened Tables

  /** Which statement of the message in hand a session has reached. */
  datatype Phase = Idle | Upserted(payload: Payload) | WentOnline(payload: Payload) | Touched(payload: Payload)

  datatype Link = Link(node: string, first: bool, open: bool, phase: Phase)

  /** `accepted` counts, by the id in the session's token, the heartbeat messages that got past the
      session's check, whatever becomes of them afterwards. */
  datatype State = State(store: Store, links: map<nat, Link>, accepted: multiset<string>)

  const INIT := State(EMPTY_STORE, map[], multiset{})

  datatype Event =
    | Open(session: nat, node: string)
    | Arrive(session: nat, claimedId: Option<string>, payload: Payload, stamp: string)
    | Advance(session: nat)
    | Close(session: nat)
    | Sweep(ids: set<string>)
    | Elect(winner: string)

  predicate Enabled(s: State, e: Event) {
    match e
    case Open(l, _) => l !in s.links
    case Arrive(l, _, _, _) => l in s.links && s.links[l].open && s.links[l].phase.Idle?
    case Advance(l) => l in s.links && s.links[l].open && !s.links[l].phase.Idle?
    case Close(l) => l in s.links
    case _ => true
  }

  /** A message is accepted unless it is a session's first and names another node; its first
      statement runs at once. */
  function Arrived(s: State, l: nat, claimedId: Option<string>, p: Payload, stamp: string): State
    requires l in s.links
  {
    var link := s.links[l];
    if link.first && claimedId != Some(link.node) then
      s.(links := s.links[l := link.(open := false)])
    else if link.first then
      State(UpsertNode(s.store, link.node, p, stamp), s.links[l := link.(phase := Upserted(p))],
            s.accepted + multiset{link.node})
    else
      State(Touch(s.store, link.node, stamp), s.links[l := link.(phase := Touched(p))],
            s.accepted + multiset{link.node})
  }

  function Advanced(s: State, l: nat): State
    requires l in s.links && !s.links[l].phase.Idle?
  {
    var link := s.links[l];
    if link.phase.Upserted? then
      s.(store := SetOnline(s.store, link.node), links := s.links[l := link.(phase := WentOnline(link.phase.payload))])
    else
      s.(store := InsertHeartbeat(s.store, HeartbeatOf(link.node, link.phase.payload)),
         links := s.links[l := link.(phase := Idle, first := false)])
  }

  function Apply(s: State, e: Event): State
    requires Enabled(s, e)
  {
    match e
    case Open(l, node) => s.(links := s.links[l := Link(node, true, true, Idle)])
    case Arrive(l, claimedId, p, stamp) => Arrived(s, l, claimedId, p, stamp)
    case Advance(l) => Advanced(s, l)
    case Close(l) => s.(links := s.links[l := s.links[l].(open := false)])
    case Sweep(ids) => s.(store := MarkStale(s.store, ids))
    case Elect(winner) => s.(store := AssignHub(s.store, winner))
  }

  predicate Legal(s: State, es: seq<Event>)
    decreases |es|
  {
    es == [] || (Enabled(s, es[0]) && Legal(Apply(s, es[0]), es[1..]))
  }

  function Exec(s: State, es: seq<Event>): State
    requires Legal(s, es)
    decreases |es|
  {
    if es == [] then s else Exec(Apply(s, es[0]), es[1..])
  }

  /** Every heartbeat row names a node of the table, as does every session past its check. */
  ghost predicate Inv(s: State) {
    && (forall l :: l in s.links && (!s.links[l].first || !s.links[l].phase.Idle?) ==> s.links[l].node in s.store.nodes)
    && (forall h :: h in s.store.heartbeats ==> h.nodeId in s.store.nodes)
  }

  lemma {:induction false} InvStep(s: State, e: Event)
    requires Inv(s) && Enabled(s, e)
    ensures Inv(Apply(s, e))
  {
  }

  function RowsOf(rows: seq<HeartbeatRow>, id: string): nat {
    if rows == [] then 0
    else RowsOf(rows[..|rows| - 1], id) + (if rows[|rows| - 1].nodeId == id then 1 else 0)
  }

  /** Sessions of `id` with a message accepted and its row not yet written; a session cut off in the
      middle of a message stays here. */
  function MidMessage(links: map<nat, Link>, id: string): set<nat> {
    set l | l in links && links[l].node == id && !links[l].phase.Idle?
  }

  ghost predicate Balanced(s: State, id: string) {
    RowsOf(s.store.heartbeats, id) + |MidMessage(s.links, id)| == s.accepted[id]
  }

  lemma {:induction false} RowsSnoc(rows: seq<HeartbeatRow>, row: HeartbeatRow, id: string)
    ensures RowsOf(rows + [row], id) == RowsOf(rows, id) + (if row.nodeId == id then 1 else 0)
  {
    assert (rows + [row])[..|rows|] == rows;
  }

  /** A session that goes from idle into a message, or back, joins or leaves the set. */
  lemma {:induction false} MidAfter(links: map<nat, Link>, l: nat, link: Link, id: string)
    requires l in links ==> links[l].node == link.node
    ensures var was := l in links && !links[l].phase.Idle?; var now := !link.phase.Idle?;
      |MidMessage(links[l := link], id)| == |MidMessage(links, id)|
        + (if link.node == id && now && !was then 1 else 0) - (if link.node == id && was && !now then 1 else 0)
  {
    OthersMid(links, l, link, id);
    Without(MidMessage(links, id), l);
    Without(MidMessage(links[l := link], id), l);
  }

  lemma {:induction false} OthersMid(links: map<nat, Link>, l: nat, link: Link, id: string)
    ensures MidMessage(links[l := link], id) - {l} == MidMessage(links, id) - {l}
    ensures l in MidMessage(links[l := link], id) <==> link.node == id && !link.phase.Idle?
  {
  }

  lemma {:induction false} Without(s: set<nat>, l: nat)
    ensures |s| == |s - {l}| + (if l in s then 1 else 0)
  {
    if l !in s {
      assert s - {l} == s;
    }
  }

  lemma {:induction false} BalancedArrive(
    s: State, l: nat, claimedId: Option<string>, p: Payload, stamp: string, id: string)
    requires l in s.links && s.links[l].phase.Idle? && Balanced(s, id)
    ensures Balanced(Arrived(s, l, claimedId, p, stamp), id)
  {
    MidAfter(s.links, l, Arrived(s, l, claimedId, p, stamp).links[l], id);
  }

  lemma {:induction false} BalancedAdvance(s: State, l: nat, id: string)
    requires l in s.links && !s.links[l].phase.Idle? && Balanced(s, id)
    ensures Balanced(Advanced(s, l), id)
  {
    var link := s.links[l];
    MidAfter(s.links, l, Advanced(s, l).links[l], id);
    RowsSnoc(s.store.heartbeats, HeartbeatOf(link.node, link.phase.payload), id);
  }

  lemma {:induction false} BalancedStep(s: State, e: Event, id: string)
    requires Balanced(s, id) && Enabled(s, e)
    ensures Balanced(Apply(s, e), id)
  {
    match e
    case Open(l, node) => MidAfter(s.links, l, Link(node, true, true, Idle), id);
    case Arrive(l, claimedId, p, stamp) => BalancedArrive(s, l, claimedId, p, stamp, id);
    case Advance(l) => BalancedAdvance(s, l, id);
    case Close(l) => MidAfter(s.links, l, s.links[l].(open := false), id);
    case _ =>
  }

  lemma {:induction false} BothRun(s: State, es: seq<Event>, id: string)
    requires Inv(s) && Balanced(s, id) && Legal(s, es)
    ensures Inv(Exec(s, es)) && Balanced(Exec(s, es), id)
    decreases |es|
  {
    if es != [] {
      InvStep(s, es[0]);
      BalancedStep(s, es[0], id);
      BothRun(Apply(s, es[0]), es[1..], id);
    }
  }

  /** Although no foreign key is enforced, every heartbeat row names a node of the table.  A node's
      rows are the messages accepted on sessions whose token carries its id, but for those whose row
      is still to come; so with no session of the node in the middle of a message they are as many. */
  lemma {:induction false} HeartbeatsAreAccounted(es: seq<Event>, id: string)
    requires Legal(INIT, es)
    ensures var s := Exec(INIT, es);
      && (forall h :: h in s.store.heartbeats ==> h.nodeId in s.store.nodes)
      && RowsOf(s.store.heartbeats, id) + |MidMessage(s.links, id)| == s.accepted[id]
      && (MidMessage(s.links, id) == {} ==> RowsOf(s.store.heartbeats, id) == s.accepted[id])
  {
    assert MidMessage(INIT.links, id) == {};
    BothRun(INIT, es, id);
  }

  // ---------------------------------------------------------------- a message and its statements

  lemma {:induction false} OneStep(s: State, e: Event)
    requires Enabled(s, e)
    ensures Legal(s, [e]) && Exec(s, [e]) == Apply(s, e)
  {
    assert [e][1..] == [];
  }

  lemma {:induction false} Steps(s: State, e: Event, es: seq<Event>)
    requires Enabled(s, e) && Legal(Apply(s, e), es)
    ensures Legal(s, [e] + es) && Exec(s, [e] + es) == Exec(Apply(s, e), es)
  {
    assert ([e] + es)[1..] == es;
  }

  /** A session's first message that names its own node runs to a registration if nothing comes between. */
  lemma {:induction false} FirstMessageRegisters(s: State, l: nat, p: Payload, stamp: string)
    requires l in s.links && s.links[l].open && s.links[l].first && s.links[l].phase.Idle?
    ensures var es := [Arrive(l, Some(s.links[l].node), p, stamp)] + ([Advance(l)] + [Advance(l)]);
      && Legal(s, es) && Exec(s, es).store == RegisterNode(s.store, s.links[l].node, p, stamp)
      && Exec(s, es).links == s.links[l := s.links[l].(first := false)]
  {
    hide Legal, Exec;
    var arrive, advance := Arrive(l, Some(s.links[l].node), p, stamp), Advance(l);
    var s1 := Apply(s, arrive);
    var s2 := Apply(s1, advance);
    OneStep(s2, advance);
    Steps(s1, advance, [advance]);
    Steps(s, arrive, [advance] + [advance]);
  }

  /** Any later message runs to a heartbeat. */
  lemma {:induction false} LaterMessageBeats(s: State, l: nat, claimedId: Option<string>, p: Payload, stamp: string)
    requires l in s.links && s.links[l].open && !s.links[l].first && s.links[l].phase.Idle?
    ensures var es := [Arrive(l, claimedId, p, stamp)] + [Advance(l)];
      && Legal(s, es) && Exec(s, es).store == ProcessHeartbeat(s.store, s.links[l].node, p, stamp)
      && Exec(s, es).links == s.links
  {
    hide Legal, Exec;
    var arrive, advance := Arrive(l, claimedId, p, stamp), Advance(l);
    var s1 := Apply(s, arrive);
    OneStep(s1, advance);
    Steps(s, arrive, [advance]);
  }
}
