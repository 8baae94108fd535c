/** `Hub` (`hub.py`): registration, heartbeats, the stale sweep and the cluster totals. */
module HubControl {
  import opened Timestamps
  import T = Tables
  import D = Detector
  import opened Registry
  import opened Database

  /** The text a sweep at instant `at` compares last heartbeats with. */
  function Cutoff(at: nat, timeout: nat): string
    requires T.Writable(at, timeout)
  {
    Stamp(T.SecondsEarlier(at, timeout))
  }

  /** The text comparison finds the online rows heard of before the timeout, to the second. */
  lemma {:induction false} OverdueMeans(nodes: map<string, T.NodeRow>, now: nat, timeout: nat)
    requires T.Writable(now, timeout)
    ensures forall id, h :: InRange(h) && id in nodes && nodes[id].lastHeartbeat == Stamp(h) ==>
      (id in T.Overdue(nodes, Cutoff(now, timeout)) <==>
        nodes[id].status == T.Online && T.WholeSecond(now) - h > timeout)
  {
    hide Stamp;
    forall id, h | InRange(h) && id in nodes && nodes[id].lastHeartbeat == Stamp(h)
      ensures id in T.Overdue(nodes, Cutoff(now, timeout)) <==>
        nodes[id].status == T.Online && T.WholeSecond(now) - h > timeout
    {
      StampOrder(h, T.SecondsEarlier(now, timeout));
    }
  }

  class Hub {
    const db: MeshDB

    constructor (db: MeshDB)
      ensures this.db == db
    {
      this.db := db;
    }

    method RegisterNode(id: string, p: T.Payload, now: nat)
      requires T.Writable(now)
      modifies db
      ensures db.Contents() == T.RegisterNode(old(db.Contents()), id, p, Stamp(T.WholeSecond(now)))
    {
      var stamp := Stamp(T.WholeSecond(now));
      db.UpsertNode(id, p, stamp);
      db.SetOnline(id);
      db.InsertHeartbeat(T.HeartbeatOf(id, p));
    }

    method ProcessHeartbeat(id: string, p: T.Payload, now: nat)
      requires T.Writable(now)
      modifies db
      ensures db.Contents() == T.ProcessHeartbeat(old(db.Contents()), id, p, Stamp(T.WholeSecond(now)))
    {
      var stamp := Stamp(T.WholeSecond(now));
      db.Touch(id, stamp);
      db.InsertHeartbeat(T.HeartbeatOf(id, p));
    }

    method MarkStaleNodes(timeout: nat, now: nat) returns (staleIds: seq<string>)
      requires T.Writable(now, timeout)
      modifies db
      ensures Enumerates(staleIds, T.Overdue(old(db.nodes), Cutoff(now, timeout)))
      ensures db.Contents() == T.MarkOverdue(old(db.Contents()), Cutoff(now, timeout))
      ensures forall id, h :: InRange(h) && id in old(db.nodes) && old(db.nodes)[id].lastHeartbeat == Stamp(h) ==>
        (id in staleIds <==> old(db.nodes)[id].status == T.Online && T.WholeSecond(now) - h > timeout)
      ensures forall id :: id in staleIds ==> id in old(db.nodes)
      ensures db.heartbeats == old(db.heartbeats) && db.nodes.Keys == old(db.nodes).Keys
      ensures forall id :: id in db.nodes ==>
        db.nodes[id] == if id in staleIds then old(db.nodes)[id].(status := T.Stale) else old(db.nodes)[id]
    {
      var cutoff := Stamp(T.SecondsEarlier(now, timeout));
      OverdueMeans(db.nodes, now, timeout);
      staleIds := db.FetchOverdue(cutoff);
      ghost var ids := T.Overdue(db.nodes, cutoff);
      assert ids == set id | id in staleIds;
      if staleIds != [] {
        db.MarkStale(staleIds);
      } else {
        EmptyListing(staleIds, ids);
        assert T.MarkStale(db.Contents(), ids).nodes == db.nodes;
      }
    }

    method ClusterTotals() returns (t: T.Totals)
      ensures t == T.OnlineTotals(db.nodes)
    {
      t := T.ZERO;
      var order := db.FetchOnline();
      ghost var seen: set<string> := {};
      for i := 0 to |order|
        invariant seen <= T.OnlineIds(db.nodes)
        invariant forall id :: id in seen <==> id in order[..i]
        invariant t == T.SumShares(db.nodes, seen)
      {
        assert order[i] in order && order[i] !in order[..i];
        assert order[..i + 1] == order[..i] + [order[i]];
        t := t.Plus(T.Share(db.nodes[order[i]]));
        T.AddOne(db.nodes, seen, order[i]);
        seen := seen + {order[i]};
      }
      assert order[..|order|] == order;
      assert seen == T.OnlineIds(db.nodes);
    }
  }

  // ---------------------------------------------------------------- the sweep loop

  /** One turn of the sweep loop: the messages other coroutines handle while it sleeps, and its wake-up.
      `fails` if the database does then, before anything is written. */
  datatype Turn = Turn(messages: seq<D.Event>, at: nat, fails: bool)

  /** What a turn does, in the failure detector's terms. */
  function EventsOf(t: Turn): seq<D.Event> {
    t.messages + (if t.fails then [] else [D.Sweep(t.at)])
  }

  function AllEvents(turns: seq<Turn>): seq<D.Event> {
    if turns == [] then [] else AllEvents(turns[..|turns| - 1]) + EventsOf(turns[|turns| - 1])
  }

  /** Everything that happens in a turn is there, in its place: the turns before it, its messages, its
      sweep if that does not fail, and the turns after it. */
  lemma {:induction false} TurnsInPlace(turns: seq<Turn>, k: nat) returns (rest: seq<D.Event>)
    requires k < |turns|
    ensures AllEvents(turns) ==
      AllEvents(turns[..k]) + (turns[k].messages + (if turns[k].fails then [] else [D.Sweep(turns[k].at)])) + rest
    decreases |turns|
  {
    var front := turns[..|turns| - 1];
    if k < |front| {
      var middle := TurnsInPlace(front, k);
      assert front[..k] == turns[..k] && front[k] == turns[k];
      rest := middle + EventsOf(turns[|turns| - 1]);
      JoinAgain(AllEvents(turns[..k]) + EventsOf(turns[k]), middle, EventsOf(turns[|turns| - 1]));
    } else {
      rest := [];
      assert AllEvents(turns) + [] == AllEvents(turns);
    }
  }

  lemma {:induction false} JoinAgain(a: seq<D.Event>, b: seq<D.Event>, c: seq<D.Event>)
    ensures a + b + c == a + (b + c)
  {
  }

  ghost predicate TurnOk(t: Turn, interval: nat) {
    T.Writable(t.at, interval) && forall e :: e in t.messages ==> !e.Sweep? && T.Writable(e.at, interval)
  }

  ghost predicate TurnsOk(turns: seq<Turn>, interval: nat) {
    forall i :: 0 <= i < |turns| ==> TurnOk(turns[i], interval)
  }

  lemma {:induction false} EventsWritten(turns: seq<Turn>, interval: nat)
    requires TurnsOk(turns, interval)
    ensures D.Written(AllEvents(turns), interval)
  {
    if turns != [] {
      var front, last := turns[..|turns| - 1], turns[|turns| - 1];
      EventsWritten(front, interval);
      assert TurnOk(last, interval);
      forall i | 0 <= i < |AllEvents(turns)| ensures T.Writable(AllEvents(turns)[i].at, interval) {
        if i >= |AllEvents(front)| + |last.messages| {
          assert AllEvents(turns)[i] == D.Sweep(last.at);
        } else if i >= |AllEvents(front)| {
          assert AllEvents(turns)[i] in last.messages;
        }
      }
    }
  }

  /** The tables after the events, from any tables. */
  ghost function RunFrom(st: T.Store, es: seq<D.Event>, interval: nat): T.Store
    requires D.Written(es, interval)
  {
    if es == [] then st
    else
      var e := es[|es| - 1];
      D.Apply(RunFrom(st, es[..|es| - 1], interval), e, D.Mark(e, interval))
  }

  lemma {:induction false} RunSnoc(st: T.Store, es: seq<D.Event>, e: D.Event, interval: nat)
    requires D.Written(es, interval) && T.Writable(e.at, interval)
    ensures D.Written(es + [e], interval)
    ensures RunFrom(st, es + [e], interval) == D.Apply(RunFrom(st, es, interval), e, D.Mark(e, interval))
  {
    assert (es + [e])[..|es|] == es;
  }

  /** From the tables some earlier run left, it is that run gone on. */
  lemma {:induction false} RunGoesOn(prior: seq<D.Event>, es: seq<D.Event>, interval: nat)
    requires D.Written(prior, interval) && D.Written(es, interval)
    ensures D.Written(prior + es, interval)
    ensures RunFrom(D.Exec(prior, interval), es, interval) == D.Exec(prior + es, interval)
    decreases |es|
  {
    hide D.Apply, D.Mark;
    if es == [] {
      assert prior + es == prior;
    } else {
      RunGoesOn(prior, es[..|es| - 1], interval);
      assert (prior + es)[..|prior + es| - 1] == prior + es[..|es| - 1];
    }
  }

  /** A message the hub handles while the loop sleeps. */
  method HandleMessage(hub: Hub, e: D.Event, interval: nat)
    requires !e.Sweep? && T.Writable(e.at, interval)
    modifies hub.db
    ensures hub.db.Contents() == D.Apply(old(hub.db.Contents()), e, D.Mark(e, interval))
  {
    match e
    case Register(id, p, at) => hub.RegisterNode(id, p, at);
    case Heartbeat(id, p, at) => hub.ProcessHeartbeat(id, p, at);
  }

  /** One turn, after the events `done`. */
  method SweepTurn(hub: Hub, interval: nat, t: Turn, ghost st: T.Store, ghost done: seq<D.Event>)
    requires TurnOk(t, interval) && D.Written(done, interval) && hub.db.Contents() == RunFrom(st, done, interval)
    modifies hub.db
    ensures D.Written(done + EventsOf(t), interval)
    ensures hub.db.Contents() == RunFrom(st, done + EventsOf(t), interval)
  {
    hide D.Apply, RunFrom, D.Mark;
    assert done + [] == done;
    for i := 0 to |t.messages|
      invariant D.Written(done + t.messages[..i], interval)
      invariant hub.db.Contents() == RunFrom(st, done + t.messages[..i], interval)
    {
      assert t.messages[i] in t.messages;
      HandleMessage(hub, t.messages[i], interval);
      RunSnoc(st, done + t.messages[..i], t.messages[i], interval);
      assert done + t.messages[..i + 1] == done + t.messages[..i] + [t.messages[i]];
    }
    assert t.messages[..|t.messages|] == t.messages;
    if t.fails {
      assert done + EventsOf(t) == done + t.messages;
    } else {
      var _ := hub.MarkStaleNodes(interval, t.at);
      RunSnoc(st, done + t.messages, D.Sweep(t.at), interval);
      SweepIsMarked(RunFrom(st, done + t.messages, interval), t.at, interval);
      assert done + EventsOf(t) == done + t.messages + [D.Sweep(t.at)];
    }
  }

  lemma {:induction false} SweepIsMarked(st: T.Store, at: nat, interval: nat)
    requires T.Writable(at, interval)
    ensures D.Apply(st, D.Sweep(at), D.Mark(D.Sweep(at), interval)) == T.MarkOverdue(st, Cutoff(at, interval))
  {
  }

  /** `_stale_sweep_loop` until it is cancelled: the interval it sleeps is also its timeout, and it goes
      on after a sweep that fails. */
  method StaleSweepLoop(hub: Hub, interval: nat, turns: seq<Turn>)
    requires TurnsOk(turns, interval)
    modifies hub.db
    ensures D.Written(AllEvents(turns), interval)
    ensures hub.db.Contents() == RunFrom(old(hub.db.Contents()), AllEvents(turns), interval)
  {
    for i := 0 to |turns|
      invariant D.Written(AllEvents(turns[..i]), interval)
      invariant hub.db.Contents() == RunFrom(old(hub.db.Contents()), AllEvents(turns[..i]), interval)
    {
      assert TurnOk(turns[i], interval);
      SweepTurn(hub, interval, turns[i], old(hub.db.Contents()), AllEvents(turns[..i]));
      assert turns[..i + 1][..i] == turns[..i];
    }
    assert turns[..|turns|] == turns;
  }

  // ---------------------------------------------------------------- how soon the loop finds a silent node

  /** The loop wakes up, sweeps without failure, and does so again before `gap` has passed. */
  ghost predicate Regular(turns: seq<Turn>, gap: nat) {
    && (forall i :: 0 <= i < |turns| ==> !turns[i].fails)
    && (forall i :: 0 < i < |turns| ==> turns[i - 1].at <= turns[i].at <= turns[i - 1].at + gap)
  }

  lemma {:induction false} SweepsAreThere(turns: seq<Turn>, k: nat)
    requires k < |turns| && !turns[k].fails
    ensures D.Sweep(turns[k].at) in AllEvents(turns)
    decreases |turns|
  {
    var front := turns[..|turns| - 1];
    if k < |front| {
      assert front[k] == turns[k];
      SweepsAreThere(front, k);
    }
  }

  /** From a regular loop's first wake-up (or one gap before) to its last and one gap beyond, every
      stretch of one gap contains a sweep. */
  lemma {:induction false} RegularLoopSweeps(
    prior: seq<D.Event>, turns: seq<Turn>, gap: nat, from: nat, until: nat)
    requires Regular(turns, gap) && turns != []
    requires turns[0].at < from + gap && until <= turns[|turns| - 1].at + gap
    ensures D.Swept(prior + AllEvents(turns), gap, from, until)
  {
    var es := prior + AllEvents(turns);
    forall t: nat | from <= t && t + gap <= until ensures D.SweepIn(es, t, gap) {
      var k := FirstFrom(turns, gap, t);
      SweepsAreThere(turns, k);
      assert D.Sweep(turns[k].at) in es;
      var i :| 0 <= i < |es| && es[i] == D.Sweep(turns[k].at);
    }
  }

  lemma {:induction false} FirstFrom(turns: seq<Turn>, gap: nat, t: nat) returns (k: nat)
    requires Regular(turns, gap) && turns != []
    requires turns[0].at < t + gap && t <= turns[|turns| - 1].at
    ensures k < |turns| && t <= turns[k].at < t + gap
  {
    k := 0;
    while turns[k].at < t
      invariant k < |turns| && turns[k].at < t + gap
      invariant t <= turns[|turns| - 1].at
      decreases |turns| - k
    {
      k := k + 1;
    }
  }

  /** The hub's sweep loop finds every silent node.  Whatever run `prior` left the tables it starts
      from, if the loop is regular and an accepted message of `id` is its last, then within the timeout,
      one gap and one second of that message the tables have `id` stale. */
  lemma {:induction false} LoopFindsSilentNode(
    prior: seq<D.Event>, turns: seq<Turn>, interval: nat, gap: nat, k: nat, id: string, until: nat)
    requires D.Written(prior, interval) && TurnsOk(turns, interval) && Regular(turns, gap) && turns != []
    requires var es := prior + AllEvents(turns);
      && D.Written(es, interval) && D.InOrder(es) && k < |es| && D.Accepted(D.Exec(es[..k], interval), es[k], id)
      && (forall i :: k < i < |es| ==> D.SaysNothing(es[i], id))
      && turns[0].at < es[k].at + gap
      && es[k].at + (interval + 1) * T.SECOND + gap <= until <= turns[|turns| - 1].at + gap
    ensures D.Written(AllEvents(turns), interval)
    ensures var nodes := RunFrom(D.Exec(prior, interval), AllEvents(turns), interval).nodes;
      id in nodes && nodes[id].status == T.Stale
  {
    hide D.Exec, RunFrom;
    var es := prior + AllEvents(turns);
    EventsWritten(turns, interval);
    RegularLoopSweeps(prior, turns, gap, es[k].at, until);
    D.SilentNodeGoesStale(es, interval, gap, k, id, until);
    RunGoesOn(prior, AllEvents(turns), interval);
  }
}
