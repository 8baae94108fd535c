/** The node registry as a state machine over single SQL statements.  Statements of different
    requests, of the stale sweep and of elections interleave freely; only the body of the role
    transaction is one step. */
module Registry {
  import opened Options
  import opened TextOrder
  import opened Timestamps
  import opened Capability
  import opened Election
  import opened Tables

  // ---------------------------------------------------------------- the election's view of the table

  function CandidateOf(id: string, row: NodeRow): Candidate {
    Candidate(id, row.name, Hundredths(RowScore(row.ramTotalMb, row.storageTotalGb)) as real / 100.0,
              row.role == HubRole)
  }

  /** The list `HubElection.elect` builds from the rows in the order the query returned them. */
  function Ballot(nodes: map<string, NodeRow>, order: seq<string>): (b: seq<Candidate>)
    requires forall id :: id in order ==> id in nodes
    ensures |b| == |order|
    ensures forall i :: 0 <= i < |b| ==> b[i] == CandidateOf(order[i], nodes[order[i]])
  {
    seq(|order|, i requires 0 <= i < |order| => CandidateOf(order[i], nodes[order[i]]))
  }

  /** `order` lists each member of `ids` once. */
  ghost predicate Enumerates(order: seq<string>, ids: set<string>) {
    && (forall id :: id in order <==> id in ids)
    && (forall i, j :: 0 <= i < j < |order| ==> order[i] != order[j])
  }

  lemma {:induction false} EmptyListing(order: seq<string>, ids: set<string>)
    requires Enumerates(order, ids)
    ensures order == [] <==> ids == {}
  {
    if order != [] {
      assert order[0] in order;
    } else {
      assert ids == {};
    }
  }

  lemma {:induction false} BallotMembers(nodes: map<string, NodeRow>, order: seq<string>)
    requires forall id :: id in order ==> id in nodes
    ensures forall c: Candidate :: c in Ballot(nodes, order) <==> c.id in order && c == CandidateOf(c.id, nodes[c.id])
    ensures Identified(Ballot(nodes, order))
  {
    var b := Ballot(nodes, order);
    forall c: Candidate | c.id in order && c == CandidateOf(c.id, nodes[c.id]) ensures c in b {
      var i :| 0 <= i < |order| && order[i] == c.id;
      assert b[i] == c;
    }
  }

  // ---------------------------------------------------------------- the machine

  datatype Sweep = Sweep(cutoff: string, ids: set<string>)

  /** `running` is a total kept up incrementally; `lastWinner` remembers the last committed election. */
  datatype State = State(
    store: Store, sweep: Option<Sweep>, ballots: seq<string>, running: Totals, lastWinner: Option<string>)

  datatype Event =
    | Upsert(id: string, payload: Payload, at: nat)
    | GoOnline(id: string)
    | Beat(id: string, at: nat)
    | Record(row: HeartbeatRow)
    | SweepSelect(at: nat, timeout: nat)
    | SweepMark
    | ElectSelect(order: seq<string>)
    | ElectCommit(ballot: nat)

  const INIT := State(EMPTY_STORE, None, [], ZERO, None)

  ghost predicate Enabled(s: State, e: Event) {
    match e
    case Upsert(_, _, at) => Writable(at)
    case Beat(_, at) => Writable(at)
    case SweepSelect(at, timeout) => s.sweep.None? && Writable(at, timeout)
    case SweepMark => s.sweep.Some?
    case ElectSelect(order) => Enumerates(order, OnlineIds(s.store.nodes))
    case ElectCommit(ballot) => ballot < |s.ballots|
    case _ => true
  }

  function Joining(nodes: map<string, NodeRow>, id: string): Totals {
    if id in nodes && nodes[id].status != Online then Share(nodes[id]) else ZERO
  }

  function NextStore(s: State, e: Event): Store
    requires Enabled(s, e)
  {
    match e
    case Upsert(id, p, at) => UpsertNode(s.store, id, p, Stamp(WholeSecond(at)))
    case GoOnline(id) => SetOnline(s.store, id)
    case Beat(id, at) => Touch(s.store, id, Stamp(WholeSecond(at)))
    case Record(row) => InsertHeartbeat(s.store, row)
    case SweepMark => MarkStale(s.store, s.sweep.value.ids)
    case ElectCommit(ballot) => AssignHub(s.store, s.ballots[ballot])
    case _ => s.store
  }

  function NextSweep(s: State, e: Event): Option<Sweep>
    requires Enabled(s, e)
  {
    match e
    case SweepSelect(at, timeout) =>
      var cutoff := Stamp(SecondsEarlier(at, timeout));
      Some(Sweep(cutoff, Overdue(s.store.nodes, cutoff)))
    case SweepMark => None
    case _ => s.sweep
  }

  function NextBallots(s: State, e: Event): seq<string>
    requires Enabled(s, e)
  {
    if e.ElectSelect? && e.order != [] then s.ballots + [Elected(Ballot(s.store.nodes, e.order))] else s.ballots
  }

  /** New minus old on re-registration, the stored row when a heartbeat revives a node, and minus
      exactly the ids a sweep reports. */
  ghost function NextRunning(s: State, e: Event): Totals
    requires Enabled(s, e)
  {
    var nodes := s.store.nodes;
    match e
    case Upsert(id, _, _) =>
      if id in OnlineIds(nodes) then s.running.Minus(Share(nodes[id])).Plus(Share(NextStore(s, e).nodes[id]))
      else s.running
    case GoOnline(id) => s.running.Plus(Joining(nodes, id))
    case Beat(id, _) => s.running.Plus(Joining(nodes, id))
    case SweepMark => s.running.Minus(SumShares(nodes, s.sweep.value.ids * nodes.Keys))
    case _ => s.running
  }

  function NextWinner(s: State, e: Event): Option<string>
    requires Enabled(s, e)
  {
    if e.ElectCommit? then Some(s.ballots[e.ballot]) else s.lastWinner
  }

  ghost function Apply(s: State, e: Event): State
    requires Enabled(s, e)
  {
    State(NextStore(s, e), NextSweep(s, e), NextBallots(s, e), NextRunning(s, e), NextWinner(s, e))
  }

  ghost predicate Legal(s: State, es: seq<Event>)
    decreases |es|
  {
    es == [] || (Enabled(s, es[0]) && Legal(Apply(s, es[0]), es[1..]))
  }

  ghost function Exec(s: State, es: seq<Event>): State
    requires Legal(s, es)
    decreases |es|
  {
    if es == [] then s else Exec(Apply(s, es[0]), es[1..])
  }

  // ---------------------------------------------------------------- the invariant

  ghost predicate HubsAre(nodes: map<string, NodeRow>, w: Option<string>) {
    && (forall id :: id in nodes ==> (nodes[id].role == HubRole <==> w == Some(id)))
    && (w.Some? ==> w.value in nodes)
  }

  ghost predicate BallotsKnown(nodes: map<string, NodeRow>, ballots: seq<string>) {
    forall w :: w in ballots ==> w in nodes
  }

  ghost predicate SweepOnline(nodes: map<string, NodeRow>, sweep: Option<Sweep>) {
    sweep.Some? ==> forall id :: id in sweep.value.ids ==> id in nodes && nodes[id].status == Online
  }

  ghost predicate Inv(s: State) {
    && BallotsKnown(s.store.nodes, s.ballots)
    && HubsAre(s.store.nodes, s.lastWinner)
    && SweepOnline(s.store.nodes, s.sweep)
  }

  lemma {:induction false} ElectedIsOnline(nodes: map<string, NodeRow>, order: seq<string>)
    requires Enumerates(order, OnlineIds(nodes)) && order != []
    ensures Elected(Ballot(nodes, order)) in OnlineIds(nodes)
  {
    WinnerIsListed(Ballot(nodes, order), None, HYSTERESIS_MARGIN);
    BallotMembers(nodes, order);
  }

  lemma {:induction false} NodesStay(s: State, e: Event)
    requires Enabled(s, e)
    ensures s.store.nodes.Keys <= NextStore(s, e).nodes.Keys
  {
  }

  lemma {:induction false} BallotsStep(s: State, e: Event)
    requires BallotsKnown(s.store.nodes, s.ballots) && Enabled(s, e)
    ensures BallotsKnown(NextStore(s, e).nodes, NextBallots(s, e))
  {
    NodesStay(s, e);
    if e.ElectSelect? && e.order != [] {
      ElectedIsOnline(s.store.nodes, e.order);
    }
  }

  lemma {:induction false} HubsStep(s: State, e: Event)
    requires BallotsKnown(s.store.nodes, s.ballots) && HubsAre(s.store.nodes, s.lastWinner) && Enabled(s, e)
    ensures HubsAre(NextStore(s, e).nodes, NextWinner(s, e))
  {
    if e.ElectCommit? {
      assert s.ballots[e.ballot] in s.store.nodes;
    }
  }

  lemma {:induction false} SweepStep(s: State, e: Event)
    requires SweepOnline(s.store.nodes, s.sweep) && Enabled(s, e)
    ensures SweepOnline(NextStore(s, e).nodes, NextSweep(s, e))
  {
  }

  /** Turning a known row online, its hardware unchanged, adds what it was not yet counted for. */
  lemma {:induction false} TotalsAfterJoin(nodes: map<string, NodeRow>, id: string, row: NodeRow)
    requires id in nodes && row.status == Online && Share(row) == Share(nodes[id])
    ensures OnlineTotals(nodes[id := row]) == OnlineTotals(nodes).Plus(Joining(nodes, id))
  {
    TotalsAfterWrite(nodes, id, row);
    assert id in OnlineIds(nodes) <==> nodes[id].status == Online;
    MinusPlus(OnlineTotals(nodes), Share(row));
  }

  lemma {:induction false} TotalsAfterOnline(st: Store, id: string)
    ensures OnlineTotals(SetOnline(st, id).nodes) == OnlineTotals(st.nodes).Plus(Joining(st.nodes, id))
  {
    if id in st.nodes {
      TotalsAfterJoin(st.nodes, id, st.nodes[id].(status := Online));
    } else {
      PlusLaws(OnlineTotals(st.nodes), ZERO, ZERO);
    }
  }

  lemma {:induction false} TotalsAfterTouch(st: Store, id: string, mark: string)
    ensures OnlineTotals(Touch(st, id, mark).nodes) == OnlineTotals(st.nodes).Plus(Joining(st.nodes, id))
  {
    if id in st.nodes {
      TotalsAfterJoin(st.nodes, id, st.nodes[id].(lastHeartbeat := mark, status := Online));
    } else {
      PlusLaws(OnlineTotals(st.nodes), ZERO, ZERO);
    }
  }

  /** New minus old for an online row; a row that is not online stays uncounted. */
  lemma {:induction false} TotalsAfterUpsert(st: Store, id: string, p: Payload, mark: string)
    ensures var after := UpsertNode(st, id, p, mark).nodes;
      OnlineTotals(after) ==
        if id in OnlineIds(st.nodes) then OnlineTotals(st.nodes).Minus(Share(st.nodes[id])).Plus(Share(after[id]))
        else OnlineTotals(st.nodes)
  {
    var after := UpsertNode(st, id, p, mark).nodes;
    assert after == st.nodes[id := after[id]];
    TotalsAfterWrite(st.nodes, id, after[id]);
    PlusLaws(OnlineTotals(st.nodes), ZERO, ZERO);
  }

  lemma {:induction false} RunningAfterMark(s: State)
    requires SweepOnline(s.store.nodes, s.sweep) && s.running == OnlineTotals(s.store.nodes) && s.sweep.Some?
    ensures NextRunning(s, SweepMark) == OnlineTotals(NextStore(s, SweepMark).nodes)
  {
    var ids := s.sweep.value.ids;
    assert ids * s.store.nodes.Keys == ids;
    TotalsAfterMark(s.store, ids);
  }

  lemma {:induction false} RunningAfterCommit(st: Store, w: string)
    ensures OnlineTotals(AssignHub(st, w).nodes) == OnlineTotals(st.nodes)
  {
    var after := AssignHub(st, w).nodes;
    assert OnlineIds(after) == OnlineIds(st.nodes);
    SameShares(st.nodes, after, OnlineIds(st.nodes));
  }

  lemma {:induction false} RunningStep(s: State, e: Event)
    requires SweepOnline(s.store.nodes, s.sweep) && s.running == OnlineTotals(s.store.nodes) && Enabled(s, e)
    ensures NextRunning(s, e) == OnlineTotals(NextStore(s, e).nodes)
  {
    match e
    case Upsert(id, p, at) => TotalsAfterUpsert(s.store, id, p, Stamp(WholeSecond(at)));
    case GoOnline(id) => TotalsAfterOnline(s.store, id);
    case Beat(id, at) => TotalsAfterTouch(s.store, id, Stamp(WholeSecond(at)));
    case SweepMark => RunningAfterMark(s);
    case ElectCommit(i) => RunningAfterCommit(s.store, s.ballots[i]);
    case _ =>
  }

  lemma {:induction false} InvStep(s: State, e: Event)
    requires Inv(s) && Enabled(s, e)
    ensures Inv(Apply(s, e))
  {
    BallotsStep(s, e);
    HubsStep(s, e);
    SweepStep(s, e);
  }

  lemma {:induction false} InvRun(s: State, es: seq<Event>)
    requires Inv(s) && Legal(s, es)
    ensures Inv(Exec(s, es))
    decreases |es|
  {
    if es != [] {
      InvStep(s, es[0]);
      InvRun(Apply(s, es[0]), es[1..]);
    }
  }

  // ---------------------------------------------------------------- hub uniqueness

  /** In every reachable state at most one row is the hub, and the lookup of `send_to_hub` has at
      most one row to return: the last committed winner, exactly while that node is online. */
  lemma {:induction false} HubUniqueness(es: seq<Event>)
    requires Legal(INIT, es)
    ensures var s := Exec(INIT, es); var nodes := s.store.nodes;
      && (forall a, b :: a in nodes && b in nodes && nodes[a].role == nodes[b].role == HubRole ==> a == b)
      && (s.lastWinner.None? ==> OnlineHubs(nodes) == {})
      && (s.lastWinner.Some? ==> s.lastWinner.value in nodes)
      && (s.lastWinner.Some? ==>
           OnlineHubs(nodes) == if nodes[s.lastWinner.value].status == Online then {s.lastWinner.value} else {})
  {
    InvRun(INIT, es);
  }

  /** A whole election: the query and, with nothing in between, its transaction. */
  ghost function Elect(s: State, order: seq<string>): State
    requires Enabled(s, ElectSelect(order)) && order != []
  {
    Apply(Apply(s, ElectSelect(order)), ElectCommit(|s.ballots|))
  }

  /** A non-empty election leaves exactly one hub, and it is online. */
  lemma {:induction false} ElectionSeatsOne(s: State, order: seq<string>)
    requires Inv(s) && Enabled(s, ElectSelect(order)) && order != []
    ensures var s' := Elect(s, order); var w := Elected(Ballot(s.store.nodes, order));
      && Inv(s') && s'.lastWinner == Some(w)
      && (forall id :: id in s'.store.nodes ==> (s'.store.nodes[id].role == HubRole <==> id == w))
      && OnlineHubs(s'.store.nodes) == {w}
  {
    InvStep(s, ElectSelect(order));
    InvStep(Apply(s, ElectSelect(order)), ElectCommit(|s.ballots|));
    ElectedIsOnline(s.store.nodes, order);
  }

  /** The seat is kept through any statements but another commit: the lookup can go blank while a
      sweep has the node marked stale, but it never finds anyone else. */
  lemma {:induction false} SeatIsKept(s: State, w: string, es: seq<Event>)
    requires Inv(s) && s.lastWinner == Some(w) && Legal(s, es)
    requires forall e :: e in es ==> !e.ElectCommit?
    ensures Exec(s, es).lastWinner == Some(w) && OnlineHubs(Exec(s, es).store.nodes) <= {w}
    decreases |es|
  {
    if es != [] {
      assert es[0] in es;
      InvStep(s, es[0]);
      SeatIsKept(Apply(s, es[0]), w, es[1..]);
    }
  }

  /** The step turns `w` stale. */
  ghost predicate Marks(s: State, e: Event, w: string)
    requires Enabled(s, e)
  {
    e.SweepMark? && w in s.sweep.value.ids
  }

  /** Whether `w` is up after the run if it is `up` before: the last sweep that marked it, or statement
      of its own that set it online, decides. */
  ghost predicate UpAfter(s: State, es: seq<Event>, w: string, up: bool)
    requires Legal(s, es)
    decreases |es|
  {
    if es == [] then up
    else
      var sets := (es[0].GoOnline? || es[0].Beat?) && es[0].id == w;
      UpAfter(Apply(s, es[0]), es[1..], w, if Marks(s, es[0], w) then false else up || sets)
  }

  lemma {:induction false} OnlineStep(s: State, e: Event, w: string)
    requires Enabled(s, e) && w in s.store.nodes
    ensures w in OnlineIds(NextStore(s, e).nodes) <==>
      !Marks(s, e, w) && (w in OnlineIds(s.store.nodes) || ((e.GoOnline? || e.Beat?) && e.id == w))
  {
  }

  lemma {:induction false} OnlineIsUp(s: State, es: seq<Event>, w: string)
    requires Legal(s, es) && w in s.store.nodes
    ensures w in Exec(s, es).store.nodes
    ensures w in OnlineIds(Exec(s, es).store.nodes) <==> UpAfter(s, es, w, w in OnlineIds(s.store.nodes))
    decreases |es|
  {
    if es != [] {
      NodesStay(s, es[0]);
      OnlineStep(s, es[0], w);
      OnlineIsUp(Apply(s, es[0]), es[1..], w);
    }
  }

  lemma {:induction false} OneHubFound(nodes: map<string, NodeRow>, w: string)
    requires HubsAre(nodes, Some(w)) && w in OnlineIds(nodes)
    ensures OnlineHubs(nodes) == {w}
  {
  }

  /** No other election is committed, and no sweep marks `w`. */
  ghost predicate Undisturbed(s: State, es: seq<Event>, w: string)
    requires Legal(s, es)
    decreases |es|
  {
    es == [] || (!es[0].ElectCommit? && !Marks(s, es[0], w) && Undisturbed(Apply(s, es[0]), es[1..], w))
  }

  /** The lookup keeps finding the winner until a sweep marks it or another election is committed,
      whatever else the run does, marking other nodes included. */
  lemma {:induction false} SeatIsFound(s: State, w: string, es: seq<Event>)
    requires Inv(s) && s.lastWinner == Some(w) && w in OnlineIds(s.store.nodes)
    requires Legal(s, es) && Undisturbed(s, es, w)
    ensures OnlineHubs(Exec(s, es).store.nodes) == {w}
    decreases |es|
  {
    if es == [] {
      OneHubFound(s.store.nodes, w);
    } else {
      InvStep(s, es[0]);
      OnlineStep(s, es[0], w);
      SeatIsFound(Apply(s, es[0]), w, es[1..]);
    }
  }

  lemma {:induction false} BallotStays(s: State, es: seq<Event>, i: nat)
    requires Legal(s, es) && i < |s.ballots|
    ensures i < |Exec(s, es).ballots| && Exec(s, es).ballots[i] == s.ballots[i]
    decreases |es|
  {
    if es != [] {
      BallotStays(Apply(s, es[0]), es[1..], i);
    }
  }

  /** An election with anything between its query and its transaction, other elections and sweeps
      included: afterwards the node it chose is the one hub, and the lookup finds it exactly if no
      sweep in between has marked it for good. */
  lemma {:induction false} InterleavedElection(s: State, order: seq<string>, gap: seq<Event>)
    requires Inv(s) && Enabled(s, ElectSelect(order)) && order != []
    requires Legal(Apply(s, ElectSelect(order)), gap)
    ensures var s1 := Apply(s, ElectSelect(order)); var s2 := Exec(s1, gap); var commit := ElectCommit(|s.ballots|);
      && Enabled(s2, commit)
      && (var w, nodes := Elected(Ballot(s.store.nodes, order)), Apply(s2, commit).store.nodes;
        && w in nodes && (forall id :: id in nodes ==> (nodes[id].role == HubRole <==> id == w))
        && OnlineHubs(nodes) == if UpAfter(s1, gap, w, true) then {w} else {})
  {
    var s1 := Apply(s, ElectSelect(order));
    var w := Elected(Ballot(s.store.nodes, order));
    ElectedIsOnline(s.store.nodes, order);
    InvStep(s, ElectSelect(order));
    InvRun(s1, gap);
    BallotStays(s1, gap, |s.ballots|);
    OnlineIsUp(s1, gap, w);
    CommitSeats(Exec(s1, gap), |s.ballots|, w);
  }

  lemma {:induction false} CommitSeats(s: State, i: nat, w: string)
    requires Inv(s) && i < |s.ballots| && s.ballots[i] == w
    ensures var nodes := Apply(s, ElectCommit(i)).store.nodes;
      && w in nodes && (forall id :: id in nodes ==> (nodes[id].role == HubRole <==> id == w))
      && OnlineHubs(nodes) == if w in OnlineIds(s.store.nodes) then {w} else {}
  {
    InvStep(s, ElectCommit(i));
  }

  lemma {:induction false} ElectDoes(s: State, order: seq<string>)
    requires Enabled(s, ElectSelect(order)) && order != []
    ensures var s' := Elect(s, order); var w := Elected(Ballot(s.store.nodes, order));
      s'.store == AssignHub(s.store, w) && s'.lastWinner == Some(w)
  {
  }

  /** Electing again with nothing changed elects the same node, whatever order the rows come in,
      and leaves the tables exactly as they are. */
  lemma {:induction false} ReelectionIsIdle(s: State, order: seq<string>, again: seq<string>)
    requires Inv(s) && Enabled(s, ElectSelect(order)) && order != []
    requires Enumerates(again, OnlineIds(s.store.nodes))
    ensures var s' := Elect(s, order);
      && Enabled(s', ElectSelect(again)) && again != []
      && Elect(s', again).store == s'.store && Elect(s', again).lastWinner == s'.lastWinner
  {
    var s' := Elect(s, order);
    var w := Elected(Ballot(s.store.nodes, order));
    ElectionSeatsOne(s, order);
    ElectDoes(s, order);
    AssignKeepsOnline(s.store, w);
    assert order[0] in again;
    SameBallotAgain(s.store, order, again);
    AssignIsIdle(s'.store, w);
    ElectDoes(s', again);
  }

  lemma {:induction false} AssignKeepsOnline(st: Store, w: string)
    ensures OnlineIds(AssignHub(st, w).nodes) == OnlineIds(st.nodes)
  {
  }

  lemma {:induction false} AssignIsIdle(st: Store, w: string)
    requires HubsAre(st.nodes, Some(w))
    ensures AssignHub(st, w) == st
  {
    assert AssignHub(st, w).nodes == st.nodes;
  }

  lemma {:induction false} BallotAfterAssign(st: Store, order: seq<string>, w: string)
    requires w in st.nodes && forall id :: id in order ==> id in st.nodes
    ensures AssignHub(st, w).nodes.Keys == st.nodes.Keys
    ensures Ballot(AssignHub(st, w).nodes, order) == Reflag(Ballot(st.nodes, order), w)
  {
    var after := AssignHub(st, w).nodes;
    forall i | 0 <= i < |order| ensures Ballot(after, order)[i] == Reflag(Ballot(st.nodes, order), w)[i] {
      assert order[i] in order;
      var id := order[i];
      assert CandidateOf(id, after[id]) == CandidateOf(id, st.nodes[id]).(isHub := id == w);
    }
  }

  lemma {:induction false} SameBallotAgain(st: Store, order: seq<string>, again: seq<string>)
    requires Enumerates(order, OnlineIds(st.nodes)) && order != []
    requires Enumerates(again, OnlineIds(st.nodes)) && again != []
    ensures var w := Elected(Ballot(st.nodes, order)); var nodes' := AssignHub(st, w).nodes;
      && nodes'.Keys == st.nodes.Keys && Elected(Ballot(nodes', again)) == w
  {
    var w := Elected(Ballot(st.nodes, order));
    ElectedIsOnline(st.nodes, order);
    BallotMembers(st.nodes, order);
    Reelection(Ballot(st.nodes, order), HYSTERESIS_MARGIN);
    BallotAfterAssign(st, order, w);
    AnyOrder(AssignHub(st, w).nodes, order, again, w);
  }

  lemma {:induction false} AnyOrder(nodes: map<string, NodeRow>, order: seq<string>, again: seq<string>, w: string)
    requires order != [] && again != [] && forall id :: id in order <==> id in again
    requires forall id :: id in order ==> id in nodes && (nodes[id].role == HubRole <==> id == w)
    ensures Elected(Ballot(nodes, again)) == Elected(Ballot(nodes, order))
  {
    BallotMembers(nodes, order);
    BallotMembers(nodes, again);
    OrderIndependence(Ballot(nodes, order), Ballot(nodes, again), None, HYSTERESIS_MARGIN);
  }

  /** Elections over the table are the rounds the transfer bound speaks of: if the last committed
      winner is still online with no lower a score, the next ballot succeeds the one it won. */
  lemma {:induction false} BallotsSucceed(before: map<string, NodeRow>, order: seq<string>, s: State, next: seq<string>)
    requires Enumerates(order, OnlineIds(before)) && order != []
    requires Inv(s) && s.lastWinner == Some(Elected(Ballot(before, order)))
    requires s.lastWinner.value in OnlineIds(s.store.nodes)
    requires Enumerates(next, OnlineIds(s.store.nodes))
    requires forall id :: id in s.store.nodes ==> id != "" && s.store.nodes[id].storageTotalGb >= 0.0
    requires var w := s.lastWinner.value; w in before ==>
      CandidateOf(w, before[w]).capability <= CandidateOf(w, s.store.nodes[w]).capability
    ensures next != [] && RoundOk(Ballot(s.store.nodes, next))
    ensures Succeeds(Ballot(before, order), Ballot(s.store.nodes, next))
  {
    var w := s.lastWinner.value;
    var nodes := s.store.nodes;
    assert w in next;
    BallotMembers(before, order);
    BallotMembers(nodes, next);
    ElectedIsOnline(before, order);
    assert CandidateOf(w, nodes[w]) in Ballot(nodes, next);
    BallotScores(nodes, next);
  }

  lemma {:induction false} BallotScores(nodes: map<string, NodeRow>, order: seq<string>)
    requires forall id :: id in order ==> id in nodes
    requires forall id :: id in nodes ==> id != "" && nodes[id].storageTotalGb >= 0.0
    ensures forall n :: n in Ballot(nodes, order) ==> n.id != "" && IsScore(n.capability)
  {
    forall n | n in Ballot(nodes, order) ensures n.id != "" && IsScore(n.capability) {
      BallotMembers(nodes, order);
      var row := nodes[n.id];
      ScoreRange(row.ramTotalMb, 0, row.storageTotalGb, false);
      HundredthsAreScores(Hundredths(RowScore(row.ramTotalMb, row.storageTotalGb)));
    }
  }

  // ---------------------------------------------------------------- an election over rows

  /** A row's score in hundredths. */
  function Points(row: NodeRow): int {
    Hundredths(RowScore(row.ramTotalMb, row.storageTotalGb))
  }

  /** `w` is online, and every online row scores less, or as much under a later name, or as much under the
      same name with an id no earlier. */
  ghost predicate FirstRow(nodes: map<string, NodeRow>, w: string) {
    && w in nodes && nodes[w].status == Online
    && forall n :: n in nodes && nodes[n].status == Online ==>
         || Points(nodes[n]) < Points(nodes[w])
         || (Points(nodes[n]) == Points(nodes[w]) && Less(nodes[w].name, nodes[n].name))
         || (Points(nodes[n]) == Points(nodes[w]) && nodes[n].name == nodes[w].name && !Less(n, w))
  }

  lemma {:induction false} FirstRowIsFirst(nodes: map<string, NodeRow>, order: seq<string>, w: string)
    requires Enumerates(order, OnlineIds(nodes))
    ensures FirstRow(nodes, w) <==> w in order && FirstRanked(Ballot(nodes, order), CandidateOf(w, nodes[w]))
  {
    hide Points, RowScore, Hundredths;
    BallotMembers(nodes, order);
    var b := Ballot(nodes, order);
    if w in order {
      forall n | n in order
        ensures CandidateOf(n, nodes[n]) in b
        ensures CandidateOf(n, nodes[n]).capability < CandidateOf(w, nodes[w]).capability <==>
          Points(nodes[n]) < Points(nodes[w])
        ensures CandidateOf(n, nodes[n]).capability == CandidateOf(w, nodes[w]).capability <==>
          Points(nodes[n]) == Points(nodes[w])
      {
        SameScale(n, nodes[n], w, nodes[w]);
      }
    }
  }

  lemma {:induction false} SameScale(n: string, a: NodeRow, w: string, b: NodeRow)
    ensures CandidateOf(n, a).capability < CandidateOf(w, b).capability <==> Points(a) < Points(b)
    ensures CandidateOf(n, a).capability == CandidateOf(w, b).capability <==> Points(a) == Points(b)
    ensures CandidateOf(n, a).capability <= CandidateOf(w, b).capability * (1.0 + HYSTERESIS_MARGIN) <==>
      5 * Points(a) <= 6 * Points(b)
  {
    var x, y := Points(a), Points(b);
    assert CandidateOf(n, a).capability == x as real / 100.0 && CandidateOf(w, b).capability == y as real / 100.0;
    hide Points, CandidateOf;
    assert y as real / 100.0 * (1.0 + HYSTERESIS_MARGIN) == y as real * 1.2 / 100.0;
  }

  /** Whom an election over the table elects, in terms of its rows: the first row, unless the last
      elected node is online with an id and the first row does not exceed it by more than a fifth. */
  lemma {:induction false} ElectionByRows(s: State, order: seq<string>, w: string)
    requires Inv(s) && Enabled(s, ElectSelect(order)) && FirstRow(s.store.nodes, w)
    ensures order != []
    ensures Elected(Ballot(s.store.nodes, order)) == if Keeps(s, w) then s.lastWinner.value else w
  {
    hide FirstRow, Keeps, FirstRanked, HubsAre;
    FirstRowIsFirst(s.store.nodes, order, w);
    ElectedRow(s, order, w);
  }

  /** There is a first row if any row is online. */
  lemma {:induction false} SomeFirstRow(nodes: map<string, NodeRow>, order: seq<string>)
    requires Enumerates(order, OnlineIds(nodes)) && order != []
    ensures exists w :: FirstRow(nodes, w)
  {
    hide FirstRow, FirstRanked;
    BallotMembers(nodes, order);
    ElectionMeans(Ballot(nodes, order), None, HYSTERESIS_MARGIN);
    var c :| FirstRanked(Ballot(nodes, order), c);
    FirstRankedIsRow(nodes, order, c);
  }

  lemma {:induction false} FirstRankedIsRow(nodes: map<string, NodeRow>, order: seq<string>, c: Candidate)
    requires Enumerates(order, OnlineIds(nodes)) && FirstRanked(Ballot(nodes, order), c)
    ensures FirstRow(nodes, c.id)
  {
    BallotMembers(nodes, order);
    FirstRowIsFirst(nodes, order, c.id);
  }

  /** The incumbent row stays hub against the first row. */
  ghost predicate Keeps(s: State, w: string)
    requires w in s.store.nodes
  {
    && s.lastWinner.Some? && s.lastWinner.value in OnlineIds(s.store.nodes)
    && s.lastWinner.value != "" && s.lastWinner.value != w
    && 5 * Points(s.store.nodes[w]) <= 6 * Points(s.store.nodes[s.lastWinner.value])
  }

  lemma {:induction false} ElectedRow(s: State, order: seq<string>, w: string)
    requires Inv(s) && Enabled(s, ElectSelect(order)) && w in order
    requires FirstRanked(Ballot(s.store.nodes, order), CandidateOf(w, s.store.nodes[w]))
    ensures Elected(Ballot(s.store.nodes, order)) == if Keeps(s, w) then s.lastWinner.value else w
  {
    hide FirstRanked, Points;
    var nodes := s.store.nodes;
    var b := Ballot(nodes, order);
    BallotMembers(nodes, order);
    ElectionMeans(b, None, HYSTERESIS_MARGIN);
    if s.lastWinner.Some? && s.lastWinner.value in OnlineIds(nodes) && s.lastWinner.value != "" {
      var h := s.lastWinner.value;
      FlaggedIsIncumbent(b, CandidateOf(h, nodes[h]));
      SameScale(w, nodes[w], h, nodes[h]);
    } else {
      forall g | g in b ensures !IsIncumbent(b, None, g) {
        assert g.isHub ==> s.lastWinner == Some(g.id);
      }
    }
  }

  lemma {:induction false} FlaggedIsIncumbent(b: seq<Candidate>, g: Candidate)
    requires g in b && g.isHub && g.id != "" && forall n :: n in b && n.isHub ==> n == g
    ensures IsIncumbent(b, None, g)
  {
    FirstHubIs(b);
    var k :| 0 <= k < |b| && b[k] == g;
    assert FirstHub(b).Some?;
    var i :| 0 <= i < |b| && FirstFlagged(b, i) && FirstHub(b) == Some(b[i].id);
    assert b[i] in b;
  }

  // ---------------------------------------------------------------- totals

  lemma {:induction false} RunningRun(s: State, es: seq<Event>)
    requires Inv(s) && s.running == OnlineTotals(s.store.nodes) && Legal(s, es)
    ensures Exec(s, es).running == OnlineTotals(Exec(s, es).store.nodes)
    decreases |es|
  {
    if es != [] {
      InvStep(s, es[0]);
      RunningStep(s, es[0]);
      RunningRun(Apply(s, es[0]), es[1..]);
    }
  }

  /** The incremental total is the query's answer in every reachable state. */
  lemma {:induction false} RunningTotalIsQuery(es: seq<Event>)
    requires Legal(INIT, es)
    ensures Exec(INIT, es).running == OnlineTotals(Exec(INIT, es).store.nodes)
  {
    assert OnlineIds(INIT.store.nodes) == {};
    RunningRun(INIT, es);
  }

  // ---------------------------------------------------------------- the sweep's two statements

  predicate Refreshes(e: Event, id: string) {
    (e.Upsert? || e.Beat?) && e.id == id
  }

  lemma {:induction false} RowStep(s: State, e: Event, id: string)
    requires Enabled(s, e) && !Refreshes(e, id) && id in s.store.nodes
    ensures id in NextStore(s, e).nodes
    ensures NextStore(s, e).nodes[id].lastHeartbeat == s.store.nodes[id].lastHeartbeat
  {
  }

  /** Between a sweep's SELECT and its UPDATE. */
  lemma {:induction false} GapKeepsRow(s: State, gap: seq<Event>, id: string)
    requires id in s.store.nodes && Legal(s, gap)
    requires forall e :: e in gap ==> !Refreshes(e, id)
    ensures id in Exec(s, gap).store.nodes
    ensures Exec(s, gap).store.nodes[id].lastHeartbeat == s.store.nodes[id].lastHeartbeat
    decreases |gap|
  {
    if gap != [] {
      assert gap[0] in gap;
      RowStep(s, gap[0], id);
      GapKeepsRow(Apply(s, gap[0]), gap[1..], id);
    }
  }

  /** A sweep at statement granularity, with anything in the gap: the nodes it turns stale are the
      ones that were online and overdue at its SELECT, whatever happened since; and one of them can
      come out stale yet fresh only if a registration or heartbeat of its own landed in the gap. */
  lemma {:induction false} SweepInTwoStatements(s: State, at: nat, timeout: nat, gap: seq<Event>)
    requires Inv(s) && Enabled(s, SweepSelect(at, timeout))
    requires Legal(Apply(s, SweepSelect(at, timeout)), gap)
    requires forall e :: e in gap ==> !e.SweepMark?
    ensures var s1 := Apply(s, SweepSelect(at, timeout)); var s2 := Exec(s1, gap);
      && Enabled(s2, SweepMark)
      && (var after, cutoff := Apply(s2, SweepMark).store.nodes, Stamp(SecondsEarlier(at, timeout));
        && after.Keys == s2.store.nodes.Keys
        && (forall id :: id in after ==> (s2.store.nodes[id].status == Online && after[id].status == Stale
             <==> id in Overdue(s.store.nodes, cutoff)))
        && (forall id :: id in Overdue(s.store.nodes, cutoff) ==> id in after)
        && (forall id :: id in Overdue(s.store.nodes, cutoff) ==>
             Less(after[id].lastHeartbeat, cutoff) || exists e :: e in gap && Refreshes(e, id)))
  {
    var s1 := Apply(s, SweepSelect(at, timeout));
    InvStep(s, SweepSelect(at, timeout));
    MarkAfterGap(s1, gap, Stamp(SecondsEarlier(at, timeout)));
  }

  lemma {:induction false} MarkAfterGap(s: State, gap: seq<Event>, cutoff: string)
    requires Inv(s) && Legal(s, gap) && s.sweep == Some(Sweep(cutoff, Overdue(s.store.nodes, cutoff)))
    requires forall e :: e in gap ==> !e.SweepMark?
    ensures var s2 := Exec(s, gap);
      && Enabled(s2, SweepMark)
      && (var after := Apply(s2, SweepMark).store.nodes;
        && after.Keys == s2.store.nodes.Keys
        && (forall id :: id in after ==> (s2.store.nodes[id].status == Online && after[id].status == Stale
             <==> id in Overdue(s.store.nodes, cutoff)))
        && (forall id :: id in Overdue(s.store.nodes, cutoff) ==> id in after)
        && (forall id :: id in Overdue(s.store.nodes, cutoff) ==>
             Less(after[id].lastHeartbeat, cutoff) || exists e :: e in gap && Refreshes(e, id)))
  {
    InvRun(s, gap);
    SweepStays(s, gap);
    MarkTurnsStale(Exec(s, gap), Overdue(s.store.nodes, cutoff));
    FreshOnlyByGap(s, gap, cutoff);
  }

  lemma {:induction false} FreshOnlyByGap(s: State, gap: seq<Event>, cutoff: string)
    requires Legal(s, gap)
    ensures forall id :: id in Overdue(s.store.nodes, cutoff) && id in Exec(s, gap).store.nodes ==>
      Less(Exec(s, gap).store.nodes[id].lastHeartbeat, cutoff) || exists e :: e in gap && Refreshes(e, id)
  {
    forall id | id in Overdue(s.store.nodes, cutoff) && !exists e :: e in gap && Refreshes(e, id)
      ensures id in Exec(s, gap).store.nodes && Less(Exec(s, gap).store.nodes[id].lastHeartbeat, cutoff)
    {
      GapKeepsRow(s, gap, id);
    }
  }

  lemma {:induction false} MarkTurnsStale(s: State, ids: set<string>)
    requires s.sweep.Some? && s.sweep.value.ids == ids && SweepOnline(s.store.nodes, s.sweep)
    ensures var nodes, after := s.store.nodes, NextStore(s, SweepMark).nodes;
      && after.Keys == nodes.Keys && ids <= after.Keys
      && (forall id :: id in after ==> (nodes[id].status == Online && after[id].status == Stale <==> id in ids))
      && (forall id :: id in after ==> after[id].lastHeartbeat == nodes[id].lastHeartbeat)
  {
  }

  lemma {:induction false} SweepStays(s: State, gap: seq<Event>)
    requires s.sweep.Some? && Legal(s, gap)
    requires forall e :: e in gap ==> !e.SweepMark?
    ensures Exec(s, gap).sweep == s.sweep
    decreases |gap|
  {
    if gap != [] {
      assert gap[0] in gap;
      SweepStays(Apply(s, gap[0]), gap[1..]);
    }
  }

  /** A node marked stale by mistake is online again after its next heartbeat. */
  lemma {:induction false} NextHeartbeatRevives(s: State, id: string, at: nat)
    requires Inv(s) && id in s.store.nodes && Enabled(s, Beat(id, at))
    ensures id in OnlineIds(Apply(s, Beat(id, at)).store.nodes)
    ensures s.store.nodes[id].status != Online ==>
      OnlineTotals(Apply(s, Beat(id, at)).store.nodes) == OnlineTotals(s.store.nodes).Plus(Share(s.store.nodes[id]))
  {
    hide OnlineTotals;
    TotalsAfterTouch(s.store, id, Stamp(WholeSecond(at)));
  }

  // ---------------------------------------------------------------- whole requests are runs

  lemma {:induction false} OneStep(s: State, e: Event)
    requires Enabled(s, e)
    ensures Legal(s, [e]) && Exec(s, [e]) == Apply(s, e)
  {
    hide Apply, Enabled;
    assert [e][1..] == [];
  }

  lemma {:induction false} Steps(s: State, e: Event, es: seq<Event>)
    requires Enabled(s, e) && Legal(Apply(s, e), es)
    ensures Legal(s, [e] + es) && Exec(s, [e] + es) == Exec(Apply(s, e), es)
  {
    hide Apply, Enabled;
    assert ([e] + es)[1..] == es;
  }

  /** A registration with nothing in between is a run of the machine, in any state. */
  lemma {:induction false} RegistrationIsRun(s: State, id: string, p: Payload, at: nat)
    requires Writable(at)
    ensures var es := [Upsert(id, p, at)] + ([GoOnline(id)] + [Record(HeartbeatOf(id, p))]);
      Legal(s, es) && Exec(s, es).store == RegisterNode(s.store, id, p, Stamp(WholeSecond(at)))
  {
    hide Legal, Exec;
    var upsert, online, record := Upsert(id, p, at), GoOnline(id), Record(HeartbeatOf(id, p));
    var s1 := Apply(s, upsert);
    var s2 := Apply(s1, online);
    OneStep(s2, record);
    Steps(s1, online, [record]);
    Steps(s, upsert, [online] + [record]);
  }

  lemma {:induction false} HeartbeatIsRun(s: State, id: string, p: Payload, at: nat)
    requires Writable(at)
    ensures var es := [Beat(id, at)] + [Record(HeartbeatOf(id, p))];
      Legal(s, es) && Exec(s, es).store == ProcessHeartbeat(s.store, id, p, Stamp(WholeSecond(at)))
  {
    hide Legal, Exec;
    OneStep(Apply(s, Beat(id, at)), Record(HeartbeatOf(id, p)));
    Steps(s, Beat(id, at), [Record(HeartbeatOf(id, p))]);
  }

  /** So is a sweep whenever none is under way. */
  lemma {:induction false} SweepIsRun(s: State, at: nat, timeout: nat)
    requires Writable(at, timeout) && s.sweep.None?
    ensures var es := [SweepSelect(at, timeout)] + [SweepMark];
      Legal(s, es) && Exec(s, es).store == MarkOverdue(s.store, Stamp(SecondsEarlier(at, timeout)))
  {
    hide Legal, Exec;
    OneStep(Apply(s, SweepSelect(at, timeout)), SweepMark);
    Steps(s, SweepSelect(at, timeout), [SweepMark]);
  }

  /** So is an election over any listing of the online rows. */
  lemma {:induction false} ElectionIsRun(s: State, order: seq<string>)
    requires Enumerates(order, OnlineIds(s.store.nodes)) && order != []
    ensures var es := [ElectSelect(order)] + [ElectCommit(|s.ballots|)];
      Legal(s, es) && Exec(s, es) == Elect(s, order)
      && Exec(s, es).store == AssignHub(s.store, Elected(Ballot(s.store.nodes, order)))
  {
    hide Legal, Exec;
    ElectDoes(s, order);
    OneStep(Apply(s, ElectSelect(order)), ElectCommit(|s.ballots|));
    Steps(s, ElectSelect(order), [ElectCommit(|s.ballots|)]);
  }
}
