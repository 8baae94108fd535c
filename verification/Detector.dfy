/** The failure detector on a real clock: registrations, heartbeats and the periodic sweep, each
    request whole, over microsecond instants that the tables only keep to the second and as text. */
module Detector {
  import opened Options
  import opened TextOrder
  import opened Timestamps
  import opened Tables

  datatype Event =
    | Register(id: string, payload: Payload, at: nat)
    | Heartbeat(id: string, payload: Payload, at: nat)
    | Sweep(at: nat)

  /** What the event's own clock reading is written as: its second, or for a sweep the cutoff. */
  function Mark(e: Event, interval: nat): string
    requires Writable(e.at, interval)
  {
    Stamp(if e.Sweep? then SecondsEarlier(e.at, interval) else WholeSecond(e.at))
  }

  function Apply(st: Store, e: Event, mark: string): Store {
    match e
    case Register(id, p, _) => RegisterNode(st, id, p, mark)
    case Heartbeat(id, p, _) => ProcessHeartbeat(st, id, p, mark)
    case Sweep(_) => MarkOverdue(st, mark)
  }

  /** Every clock reading of the run can be written in the tables' format. */
  ghost predicate Written(es: seq<Event>, interval: nat) {
    forall i :: 0 <= i < |es| ==> Writable(es[i].at, interval)
  }

  /** The clock never goes back. */
  ghost predicate InOrder(es: seq<Event>) {
    forall i, j :: 0 <= i < j < |es| ==> es[i].at <= es[j].at
  }

  ghost function Exec(es: seq<Event>, interval: nat): Store
    requires Written(es, interval)
  {
    if es == [] then EMPTY_STORE
    else Apply(Exec(es[..|es| - 1], interval), es[|es| - 1], Mark(es[|es| - 1], interval))
  }

  /** `e` is a message of `id` that the tables take notice of. */
  predicate Accepted(st: Store, e: Event, id: string) {
    || (e.Register? && e.id == id)
    || (e.Heartbeat? && e.id == id && id in st.nodes)
  }

  /** When the last accepted message of `id` really came in. */
  ghost function LastHeard(es: seq<Event>, interval: nat, id: string): Option<nat>
    requires Written(es, interval)
  {
    if es == [] then None
    else
      var front, last := es[..|es| - 1], es[|es| - 1];
      if Accepted(Exec(front, interval), last, id) then Some(last.at) else LastHeard(front, interval, id)
  }

  ghost predicate Faithful(st: Store, id: string, heard: Option<nat>) {
    id in st.nodes ==>
      && heard.Some? && Writable(heard.value)
      && st.nodes[id].lastHeartbeat == Stamp(WholeSecond(heard.value))
      && st.nodes[id].status != Offline
  }

  lemma {:induction false} RowAfterAccepted(st: Store, e: Event, mark: string, id: string)
    requires Accepted(st, e, id)
    ensures var nodes := Apply(st, e, mark).nodes;
      id in nodes && nodes[id].lastHeartbeat == mark && nodes[id].status == Online
  {
  }

  lemma {:induction false} RowAfterOther(st: Store, e: Event, mark: string, id: string)
    requires !Accepted(st, e, id)
    ensures var nodes := Apply(st, e, mark).nodes;
      && (id in nodes <==> id in st.nodes)
      && (id in nodes ==>
           && nodes[id].lastHeartbeat == st.nodes[id].lastHeartbeat
           && nodes[id].status == if e.Sweep? && id in Overdue(st.nodes, mark) then Stale else st.nodes[id].status)
  {
  }

  /** What the table remembers of a node is the second of its last accepted message. */
  lemma {:induction false} TableIsFaithful(es: seq<Event>, interval: nat, id: string)
    requires Written(es, interval)
    ensures Faithful(Exec(es, interval), id, LastHeard(es, interval, id))
  {
    if es != [] {
      var front, last := es[..|es| - 1], es[|es| - 1];
      TableIsFaithful(front, interval, id);
      if Accepted(Exec(front, interval), last, id) {
        RowAfterAccepted(Exec(front, interval), last, Mark(last, interval), id);
      } else {
        RowAfterOther(Exec(front, interval), last, Mark(last, interval), id);
      }
    }
  }

  lemma {:induction false} WholeSecondBounds(s: nat, t: nat, d: nat)
    ensures WholeSecond(t) - WholeSecond(s) > d ==> t - s > d * SECOND
    ensures t - s >= (d + 1) * SECOND ==> WholeSecond(t) - WholeSecond(s) > d
  {
    var q, r := s / SECOND, s % SECOND;
    var q', r' := t / SECOND, t % SECOND;
    assert s == q * SECOND + r && t == q' * SECOND + r';
  }

  lemma {:induction false} SweepOfRow(st: Store, id: string, heard: nat, at: nat, interval: nat)
    requires Writable(at, interval) && Faithful(st, id, Some(heard)) && id in OnlineIds(st.nodes)
    ensures id in Overdue(st.nodes, Mark(Sweep(at), interval)) <==> WholeSecond(at) - WholeSecond(heard) > interval
  {
    OverdueByText(st.nodes, id, Mark(Sweep(at), interval));
    StampOrder(WholeSecond(heard), SecondsEarlier(at, interval));
  }

  lemma {:induction false} OverdueByText(nodes: map<string, NodeRow>, id: string, cutoff: string)
    requires id in OnlineIds(nodes) && nodes[id].lastHeartbeat != ""
    ensures id in Overdue(nodes, cutoff) <==> Less(nodes[id].lastHeartbeat, cutoff)
  {
  }

  /** One sweep, exactly: an online node turns stale just when more than `interval` whole seconds
      separate the second of its last message from that of the sweep.  Hence it is marked only if
      strictly more than the timeout has really passed, and always once a second more has. */
  lemma {:induction false} SweepIsExact(es: seq<Event>, interval: nat, at: nat, id: string)
    requires Written(es, interval)
    requires Writable(at, interval) && id in OnlineIds(Exec(es, interval).nodes)
    ensures LastHeard(es, interval, id).Some?
    ensures var heard := LastHeard(es, interval, id).value;
      var after := Apply(Exec(es, interval), Sweep(at), Mark(Sweep(at), interval)).nodes;
      && id in after
      && (after[id].status == Stale <==> WholeSecond(at) - WholeSecond(heard) > interval)
      && (after[id].status == Stale ==> at - heard > interval * SECOND)
      && (at - heard >= (interval + 1) * SECOND ==> after[id].status == Stale)
  {
    var st := Exec(es, interval);
    TableIsFaithful(es, interval, id);
    var heard := LastHeard(es, interval, id).value;
    SweepOfRow(st, id, heard, at, interval);
    RowAfterOther(st, Sweep(at), Mark(Sweep(at), interval), id);
    WholeSecondBounds(heard, at, interval);
  }

  /** Every half-open stretch of `gap` microseconds between the two instants contains a sweep. */
  ghost predicate Swept(es: seq<Event>, gap: nat, from: nat, until: nat) {
    forall t: nat {:trigger SweepIn(es, t, gap)} :: from <= t && t + gap <= until ==> SweepIn(es, t, gap)
  }

  ghost predicate SweepIn(es: seq<Event>, t: nat, gap: nat) {
    exists i :: 0 <= i < |es| && es[i].Sweep? && t <= es[i].at < t + gap
  }

  predicate SaysNothing(e: Event, id: string) {
    e.Sweep? || e.id != id
  }

  /** While a node says nothing, its row is only ever turned stale. */
  lemma {:induction false} Silence(es: seq<Event>, interval: nat, k: nat, id: string)
    requires Written(es, interval) && k <= |es|
    requires forall i :: k <= i < |es| ==> SaysNothing(es[i], id)
    requires id in Exec(es[..k], interval).nodes
    ensures var before, after := Exec(es[..k], interval).nodes, Exec(es, interval).nodes;
      && id in after && after[id].lastHeartbeat == before[id].lastHeartbeat
      && (after[id].status == before[id].status || after[id].status == Stale)
    decreases |es|
  {
    if k == |es| {
      assert es[..k] == es;
    } else {
      var front, last := es[..|es| - 1], es[|es| - 1];
      assert front[..k] == es[..k];
      Silence(front, interval, k, id);
      SilentStep(Exec(front, interval), last, Mark(last, interval), id);
    }
  }

  lemma {:induction false} SilentStep(st: Store, e: Event, mark: string, id: string)
    requires SaysNothing(e, id) && id in st.nodes
    ensures var nodes := Apply(st, e, mark).nodes;
      && id in nodes && nodes[id].lastHeartbeat == st.nodes[id].lastHeartbeat
      && (nodes[id].status == st.nodes[id].status || nodes[id].status == Stale)
  {
    RowAfterOther(st, e, mark, id);
  }

  lemma {:induction false} ExecPrefix(es: seq<Event>, interval: nat, k: nat)
    requires Written(es, interval) && k < |es|
    ensures Exec(es[..k + 1], interval) == Apply(Exec(es[..k], interval), es[k], Mark(es[k], interval))
  {
    assert es[..k + 1][..k] == es[..k];
  }

  /** The message itself, then silence up to event `i`, as far as the row goes. */
  lemma {:induction false} HeardThenSilent(es: seq<Event>, interval: nat, k: nat, i: nat, id: string)
    requires Written(es, interval) && k < i <= |es|
    requires Accepted(Exec(es[..k], interval), es[k], id)
    requires forall j :: k < j < i ==> SaysNothing(es[j], id)
    ensures var nodes := Exec(es[..i], interval).nodes;
      id in nodes && nodes[id].lastHeartbeat == Mark(es[k], interval) && nodes[id].status != Offline
  {
    var upTo := es[..i];
    assert upTo[..k + 1] == es[..k + 1];
    JustHeard(es, interval, k, id);
    Silence(upTo, interval, k + 1, id);
  }

  lemma {:induction false} JustHeard(es: seq<Event>, interval: nat, k: nat, id: string)
    requires Written(es, interval) && k < |es|
    requires Accepted(Exec(es[..k], interval), es[k], id)
    ensures var nodes := Exec(es[..k + 1], interval).nodes;
      id in nodes && nodes[id].lastHeartbeat == Mark(es[k], interval) && nodes[id].status == Online
  {
    ExecPrefix(es, interval, k);
    RowAfterAccepted(Exec(es[..k], interval), es[k], Mark(es[k], interval), id);
  }

  /** A sweep that comes late enough finds the silent node, or found it stale already. */
  lemma {:induction false} LateSweepFinds(st: Store, interval: nat, heard: nat, at: nat, id: string)
    requires Writable(at, interval) && Faithful(st, id, Some(heard)) && id in st.nodes
    requires WholeSecond(at) > WholeSecond(heard) + interval
    ensures var nodes := Apply(st, Sweep(at), Mark(Sweep(at), interval)).nodes;
      id in nodes && nodes[id].status == Stale
  {
    if st.nodes[id].status == Online {
      SweepOfRow(st, id, heard, at, interval);
    }
    RowAfterOther(st, Sweep(at), Mark(Sweep(at), interval), id);
  }

  lemma {:induction false} LateWindow(heard: nat, at: nat, interval: nat)
    requires (WholeSecond(heard) + interval + 1) * SECOND <= at
    ensures WholeSecond(at) > WholeSecond(heard) + interval && at > heard
  {
    var q, r := at / SECOND, at % SECOND;
    assert at == q * SECOND + r;
    assert heard == WholeSecond(heard) * SECOND + heard % SECOND;
  }

  lemma {:induction false} LateSweep(es: seq<Event>, interval: nat, gap: nat, k: nat, until: nat) returns (i: nat)
    requires InOrder(es) && k < |es| && Swept(es, gap, es[k].at, until)
    requires until >= es[k].at + (interval + 1) * SECOND + gap
    ensures k < i < |es| && es[i].Sweep? && WholeSecond(es[i].at) > WholeSecond(es[k].at) + interval
  {
    var heard := es[k].at;
    var t := (WholeSecond(heard) + interval + 1) * SECOND;
    assert heard == WholeSecond(heard) * SECOND + heard % SECOND;
    assert SweepIn(es, t, gap);
    i :| 0 <= i < |es| && es[i].Sweep? && t <= es[i].at < t + gap;
    LateWindow(heard, es[i].at, interval);
  }

  /** A node that falls silent is stale within the timeout, one gap between sweeps and one second of
      its last message, whatever else happens: two intervals and a second when sweeps come once an
      interval. */
  lemma {:induction false} SilentNodeGoesStale(
    es: seq<Event>, interval: nat, gap: nat, k: nat, id: string, until: nat)
    requires Written(es, interval) && InOrder(es) && k < |es|
    requires Accepted(Exec(es[..k], interval), es[k], id)
    requires forall i :: k < i < |es| ==> SaysNothing(es[i], id)
    requires Swept(es, gap, es[k].at, until)
    requires until >= es[k].at + (interval + 1) * SECOND + gap
    ensures id in Exec(es, interval).nodes && Exec(es, interval).nodes[id].status == Stale
  {
    var i := LateSweep(es, interval, gap, k, until);
    FoundBy(es, interval, k, i, id);
    Silence(es, interval, i + 1, id);
  }

  lemma {:induction false} FoundBy(es: seq<Event>, interval: nat, k: nat, i: nat, id: string)
    requires Written(es, interval) && k < i < |es| && es[i].Sweep?
    requires Accepted(Exec(es[..k], interval), es[k], id)
    requires forall j :: k < j < i ==> SaysNothing(es[j], id)
    requires WholeSecond(es[i].at) > WholeSecond(es[k].at) + interval
    ensures var nodes := Exec(es[..i + 1], interval).nodes; id in nodes && nodes[id].status == Stale
  {
    HeardThenSilent(es, interval, k, i, id);
    LateSweepFinds(Exec(es[..i], interval), interval, es[k].at, es[i].at, id);
    ExecPrefix(es, interval, i);
  }
}
