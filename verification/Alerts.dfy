/** `generate_alerts` (`dashboard.py`): edge detection over successive snapshots of the node list. */
module Alerts {
  import opened Options

  /** A node as the hub's API reports it; any key may be missing. */
  datatype NodeView = NodeView(id: Option<string>, name: Option<string>, status: Option<string>, ram: Option<real>)

  datatype Kind = Appeared | WentStale | CameOnline | HighRam(percent: real)

  /** The message names the node; the id it is about is kept beside it here. */
  datatype Alert = Alert(nodeId: string, name: string, kind: Kind)

  const HIGH_RAM := 85.0

  function StatusOf(n: NodeView): string {
    if n.status.Some? then n.status.value else "offline"
  }

  function RamOf(n: NodeView): real {
    if n.ram.Some? then n.ram.value else 0.0
  }

  // ---------------------------------------------------------------- specification

  /** Ids in the order in which they first occur. */
  function Ids(nodes: seq<NodeView>): seq<string> {
    if nodes == [] then []
    else
      var before, n := Ids(nodes[..|nodes| - 1]), nodes[|nodes| - 1];
      if n.id.Some? && n.id.value !in before then before + [n.id.value] else before
  }

  /** The last entry with a given id. */
  function Entry(nodes: seq<NodeView>, id: string): Option<NodeView> {
    if nodes == [] then None
    else if nodes[|nodes| - 1].id == Some(id) then Some(nodes[|nodes| - 1])
    else Entry(nodes[..|nodes| - 1], id)
  }

  function NameOf(id: string, n: NodeView): string {
    if n.name.Some? then n.name.value else id
  }

  function If(condition: bool, a: Alert): seq<Alert> {
    if condition then [a] else []
  }

  function AlertsFor(id: string, was: Option<NodeView>, now: NodeView): seq<Alert> {
    var name := NameOf(id, now);
    if was.None? then [Alert(id, name, Appeared)]
    else
      var before, after := StatusOf(was.value), StatusOf(now);
      If(before == "online" && after == "stale", Alert(id, name, WentStale))
        + If((before == "stale" || before == "offline") && after == "online", Alert(id, name, CameOnline))
        + If(RamOf(was.value) <= HIGH_RAM && RamOf(now) > HIGH_RAM, Alert(id, name, HighRam(RamOf(now))))
  }

  /** What a poll has to say about one node: nothing unless it lists the node. */
  function AlertsOf(id: string, was: seq<NodeView>, now: seq<NodeView>): seq<Alert> {
    if Entry(now, id).Some? then AlertsFor(id, Entry(was, id), Entry(now, id).value) else []
  }

  function AlertsAmong(ids: seq<string>, was: seq<NodeView>, now: seq<NodeView>): seq<Alert> {
    if ids == [] then []
    else AlertsAmong(ids[..|ids| - 1], was, now) + AlertsOf(ids[|ids| - 1], was, now)
  }

  function AlertsBetween(was: seq<NodeView>, now: seq<NodeView>): seq<Alert> {
    AlertsAmong(Ids(now), was, now)
  }

  lemma {:induction false} IdsAreEntries(nodes: seq<NodeView>, id: string)
    ensures id in Ids(nodes) <==> Entry(nodes, id).Some?
  {
    if nodes != [] {
      IdsAreEntries(nodes[..|nodes| - 1], id);
    }
  }

  ghost predicate FirstUnder(nodes: seq<NodeView>, i: nat, id: string)
    requires i < |nodes|
  {
    nodes[i].id == Some(id) && forall j :: 0 <= j < i ==> nodes[j].id != Some(id)
  }

  lemma {:induction false} FirstSeen(nodes: seq<NodeView>, id: string) returns (i: nat)
    requires id in Ids(nodes)
    ensures i < |nodes| && FirstUnder(nodes, i, id)
  {
    var front := nodes[..|nodes| - 1];
    if id in Ids(front) {
      i := FirstSeen(front, id);
    } else {
      i := |nodes| - 1;
      forall j | 0 <= j < i ensures nodes[j].id != Some(id) {
        if nodes[j].id == Some(id) {
          SeenIsListed(front, j, id);
        }
      }
    }
  }

  lemma {:induction false} SeenIsListed(nodes: seq<NodeView>, j: nat, id: string)
    requires j < |nodes| && nodes[j].id == Some(id)
    ensures id in Ids(nodes)
  {
    if j < |nodes| - 1 {
      SeenIsListed(nodes[..|nodes| - 1], j, id);
    }
  }

  /** Ids are listed in the order in which they first occur. */
  lemma {:induction false} IdsInOrder(nodes: seq<NodeView>, a: nat, b: nat, i: nat, j: nat)
    requires a < b < |Ids(nodes)| && i < |nodes| && j < |nodes|
    requires FirstUnder(nodes, i, Ids(nodes)[a]) && FirstUnder(nodes, j, Ids(nodes)[b])
    ensures i < j
  {
    var front := nodes[..|nodes| - 1];
    IdsDistinct(nodes);
    assert Ids(nodes)[a] != Ids(nodes)[b];
    if b < |Ids(front)| {
      var k := FirstSeen(front, Ids(nodes)[a]);
      var l := FirstSeen(front, Ids(nodes)[b]);
      assert nodes[k] == front[k] && nodes[l] == front[l];
      IdsInOrder(front, a, b, k, l);
    } else {
      var k := FirstSeen(front, Ids(nodes)[a]);
      assert nodes[k] == front[k];
      if j < |nodes| - 1 {
        SeenIsListed(front, j, Ids(nodes)[b]);
        IdsDistinct(front);
      }
    }
  }

  // ---------------------------------------------------------------- the code

  method IndexById(nodes: seq<NodeView>) returns (order: seq<string>, byId: map<string, NodeView>)
    ensures order == Ids(nodes)
    ensures forall id :: id in byId <==> Entry(nodes, id).Some?
    ensures forall id :: id in byId ==> Entry(nodes, id) == Some(byId[id])
  {
    order, byId := [], map[];
    for i := 0 to |nodes|
      invariant order == Ids(nodes[..i])
      invariant forall id :: id in order <==> id in byId
      invariant forall id :: id in byId <==> Entry(nodes[..i], id).Some?
      invariant forall id :: id in byId ==> Entry(nodes[..i], id) == Some(byId[id])
    {
      assert nodes[..i + 1][..i] == nodes[..i];
      var n := nodes[i];
      if n.id.Some? {
        if n.id.value !in byId {
          order := order + [n.id.value];
        }
        byId := byId[n.id.value := n];
      }
    }
    assert nodes[..|nodes|] == nodes;
  }

  /** The three tests on a node that was listed before. */
  method Changes(nid: string, oldNode: NodeView, newNode: NodeView) returns (alerts: seq<Alert>)
    ensures alerts == AlertsFor(nid, Some(oldNode), newNode)
  {
    alerts := [];
    var name := NameOf(nid, newNode);
    var oldStatus, newStatus := StatusOf(oldNode), StatusOf(newNode);
    if oldStatus == "online" && newStatus == "stale" {
      alerts := alerts + [Alert(nid, name, WentStale)];
    }
    if (oldStatus == "stale" || oldStatus == "offline") && newStatus == "online" {
      alerts := alerts + [Alert(nid, name, CameOnline)];
    }
    if RamOf(oldNode) <= HIGH_RAM && RamOf(newNode) > HIGH_RAM {
      alerts := alerts + [Alert(nid, name, HighRam(RamOf(newNode)))];
    }
  }

  method GenerateAlerts(oldNodes: seq<NodeView>, newNodes: seq<NodeView>) returns (alerts: seq<Alert>)
    ensures alerts == AlertsBetween(oldNodes, newNodes)
  {
    alerts := [];
    var _, oldById := IndexById(oldNodes);
    var order, newById := IndexById(newNodes);
    for i := 0 to |order|
      invariant alerts == AlertsAmong(order[..i], oldNodes, newNodes)
    {
      assert order[..i + 1][..i] == order[..i];
      var nid := order[i];
      assert nid in order;
      IdsAreEntries(newNodes, nid);
      var newNode := newById[nid];
      if nid !in oldById {
        alerts := alerts + [Alert(nid, NameOf(nid, newNode), Appeared)];
        continue;
      }
      var changes := Changes(nid, oldById[nid], newNode);
      alerts := alerts + changes;
    }
    assert order[..|order|] == order;
  }

  // ---------------------------------------------------------------- alerts about one node

  /** The alerts about `id`, in order. */
  function About(alerts: seq<Alert>, id: string): seq<Alert> {
    if alerts == [] then []
    else About(alerts[..|alerts| - 1], id) + (if alerts[|alerts| - 1].nodeId == id then [alerts[|alerts| - 1]] else [])
  }

  lemma {:induction false} AboutJoin(a: seq<Alert>, b: seq<Alert>, id: string)
    ensures About(a + b, id) == About(a, id) + About(b, id)
  {
    if b == [] {
      assert a + b == a;
    } else {
      AboutJoin(a, b[..|b| - 1], id);
      assert (a + b)[..|a + b| - 1] == a + b[..|b| - 1];
    }
  }

  lemma {:induction false} AboutOwn(alerts: seq<Alert>, owner: string, id: string)
    requires forall i :: 0 <= i < |alerts| ==> alerts[i].nodeId == owner
    ensures About(alerts, id) == if owner == id then alerts else []
  {
    if alerts != [] {
      AboutOwn(alerts[..|alerts| - 1], owner, id);
    }
  }

  predicate Distinct(ids: seq<string>) {
    forall i, j :: 0 <= i < j < |ids| ==> ids[i] != ids[j]
  }

  lemma {:induction false} IdsDistinct(nodes: seq<NodeView>)
    ensures Distinct(Ids(nodes))
  {
    if nodes != [] {
      IdsDistinct(nodes[..|nodes| - 1]);
    }
  }

  lemma {:induction false} AlertsForOwned(owner: string, was: Option<NodeView>, now: NodeView, i: nat)
    requires i < |AlertsFor(owner, was, now)|
    ensures AlertsFor(owner, was, now)[i].nodeId == owner
  {
  }

  lemma {:induction false} AboutAlertsOf(owner: string, was: seq<NodeView>, now: seq<NodeView>, id: string)
    ensures About(AlertsOf(owner, was, now), id) == if owner == id then AlertsOf(id, was, now) else []
  {
    var alerts := AlertsOf(owner, was, now);
    forall i | 0 <= i < |alerts| ensures alerts[i].nodeId == owner {
      AlertsForOwned(owner, Entry(was, owner), Entry(now, owner).value, i);
    }
    AboutOwn(alerts, owner, id);
  }

  lemma {:induction false} DistinctFront(front: seq<string>, last: string)
    requires Distinct(front + [last])
    ensures Distinct(front) && last !in front
  {
    var ids := front + [last];
    assert forall i :: 0 <= i < |front| ==> ids[i] == front[i];
    assert ids[|front|] == last;
  }

  lemma {:induction false} AboutAmong(ids: seq<string>, was: seq<NodeView>, now: seq<NodeView>, id: string)
    requires Distinct(ids)
    ensures About(AlertsAmong(ids, was, now), id) == if id in ids then AlertsOf(id, was, now) else []
  {
    if ids != [] {
      var front, last := ids[..|ids| - 1], ids[|ids| - 1];
      assert ids == front + [last];
      DistinctFront(front, last);
      AboutAmong(front, was, now, id);
      AboutAlertsOf(last, was, now, id);
      AboutJoin(AlertsAmong(front, was, now), AlertsOf(last, was, now), id);
    }
  }

  /** A poll says about a node exactly what the change of its own entry calls for, once, however
      often and in whatever order nodes are listed. */
  lemma {:induction false} AboutPoll(was: seq<NodeView>, now: seq<NodeView>, id: string)
    ensures About(AlertsBetween(was, now), id) == AlertsOf(id, was, now)
  {
    IdsDistinct(now);
    IdsAreEntries(now, id);
    AboutAmong(Ids(now), was, now, id);
  }

  ghost predicate LastUnder(nodes: seq<NodeView>, i: nat, id: string)
    requires i < |nodes|
  {
    nodes[i].id == Some(id) && forall j :: i < j < |nodes| ==> nodes[j].id != Some(id)
  }

  /** An id's entry is the last one listed under it. */
  lemma {:induction false} EntryIsLast(nodes: seq<NodeView>, id: string)
    ensures Entry(nodes, id).None? <==> forall i :: 0 <= i < |nodes| ==> nodes[i].id != Some(id)
    ensures Entry(nodes, id).Some? ==>
      exists i :: 0 <= i < |nodes| && nodes[i] == Entry(nodes, id).value && LastUnder(nodes, i, id)
  {
    if nodes != [] {
      var front := nodes[..|nodes| - 1];
      EntryIsLast(front, id);
      if nodes[|nodes| - 1].id == Some(id) {
        assert LastUnder(nodes, |nodes| - 1, id);
      } else if Entry(front, id).Some? {
        var i :| 0 <= i < |front| && front[i] == Entry(front, id).value && LastUnder(front, i, id);
        assert LastUnder(nodes, i, id);
      }
    }
  }

  /** The change of a node's entry that calls for an alert of the kind. */
  ghost predicate CalledFor(was: Option<NodeView>, now: NodeView, kind: Kind) {
    match kind
    case Appeared => was.None?
    case WentStale => was.Some? && was.value.status == Some("online") && now.status == Some("stale")
    case CameOnline =>
      was.Some? && now.status == Some("online")
      && (was.value.status.None? || was.value.status == Some("stale") || was.value.status == Some("offline"))
    case HighRam(percent) =>
      was.Some? && (was.value.ram.None? || was.value.ram.value <= 85.0) && now.ram == Some(percent) && percent > 85.0
  }

  lemma {:induction false} RaisedFor(id: string, was: Option<NodeView>, now: NodeView, a: Alert)
    ensures a in AlertsFor(id, was, now) <==>
      && a.nodeId == id && a.name == (if now.name.Some? then now.name.value else id)
      && CalledFor(was, now, a.kind)
  {
    if was.Some? {
      var before, after, name := StatusOf(was.value), StatusOf(now), NameOf(id, now);
      var x := If(before == "online" && after == "stale", Alert(id, name, WentStale));
      var y := If((before == "stale" || before == "offline") && after == "online", Alert(id, name, CameOnline));
      var z := If(RamOf(was.value) <= HIGH_RAM && RamOf(now) > HIGH_RAM, Alert(id, name, HighRam(RamOf(now))));
      assert AlertsFor(id, was, now) == x + y + z;
      assert a in x + y + z <==> a in x || a in y || a in z;
    }
  }

  /** An alert is in a poll's list if and only if the poll lists its node, it bears the node's name, or its
      id for want of one, and the node's entry has changed as the kind says; a node's entry is its last. */
  lemma {:induction false} AlertsExactly(was: seq<NodeView>, now: seq<NodeView>, a: Alert)
    ensures a in AlertsBetween(was, now) <==>
      && Entry(now, a.nodeId).Some?
      && a.name == (var n := Entry(now, a.nodeId).value; if n.name.Some? then n.name.value else a.nodeId)
      && CalledFor(Entry(was, a.nodeId), Entry(now, a.nodeId).value, a.kind)
  {
    AboutPoll(was, now, a.nodeId);
    AboutMembers(AlertsBetween(was, now), a.nodeId, a);
    if Entry(now, a.nodeId).Some? {
      RaisedFor(a.nodeId, Entry(was, a.nodeId), Entry(now, a.nodeId).value, a);
    }
  }

  // ---------------------------------------------------------------- runs of polls

  function OfKind(alerts: seq<Alert>, kind: Kind): nat {
    if alerts == [] then 0
    else OfKind(alerts[..|alerts| - 1], kind) + (if alerts[|alerts| - 1].kind == kind then 1 else 0)
  }

  /** How many alerts of a kind a run of polls raises about a node. */
  function Raised(polls: seq<seq<NodeView>>, id: string, kind: Kind): nat {
    if |polls| < 2 then 0
    else
      Raised(polls[..|polls| - 1], id, kind)
        + OfKind(About(AlertsBetween(polls[|polls| - 2], polls[|polls| - 1]), id), kind)
  }

  ghost predicate Present(polls: seq<seq<NodeView>>, id: string) {
    forall i :: 0 <= i < |polls| ==> Entry(polls[i], id).Some?
  }

  function Status(poll: seq<NodeView>, id: string): string
    requires Entry(poll, id).Some?
  {
    StatusOf(Entry(poll, id).value)
  }

  function Up(poll: seq<NodeView>, id: string): int
    requires Entry(poll, id).Some?
  {
    if Status(poll, id) == "online" then 1 else 0
  }

  /** Changes of the online flag that raise no alert: online to something else than stale counts
      up, and online out of a status that is neither stale nor offline counts down. */
  ghost function Unannounced(polls: seq<seq<NodeView>>, id: string): int
    requires Present(polls, id)
  {
    if |polls| < 2 then 0
    else
      var before, after := Status(polls[|polls| - 2], id), Status(polls[|polls| - 1], id);
      Unannounced(polls[..|polls| - 1], id)
        + (if before == "online" && after != "online" && after != "stale" then 1 else 0)
        - (if before != "online" && before != "stale" && before != "offline" && after == "online" then 1 else 0)
  }

  lemma {:induction false} PollBalance(was: seq<NodeView>, now: seq<NodeView>, id: string)
    requires Entry(was, id).Some? && Entry(now, id).Some?
    ensures var about := About(AlertsBetween(was, now), id);
      var before, after := Status(was, id), Status(now, id);
      && (OfKind(about, CameOnline) == if (before == "stale" || before == "offline") && after == "online" then 1 else 0)
      && (OfKind(about, WentStale) == if before == "online" && after == "stale" then 1 else 0)
  {
    AboutPoll(was, now, id);
    KindsOf(id, Entry(was, id).value, Entry(now, id).value);
  }

  lemma {:induction false} KindsJoin(a: seq<Alert>, b: seq<Alert>, kind: Kind)
    ensures OfKind(a + b, kind) == OfKind(a, kind) + OfKind(b, kind)
  {
    if b == [] {
      assert a + b == a;
    } else {
      KindsJoin(a, b[..|b| - 1], kind);
      assert (a + b)[..|a + b| - 1] == a + b[..|b| - 1];
    }
  }

  lemma {:induction false} KindsOf(id: string, was: NodeView, now: NodeView)
    ensures var a := AlertsFor(id, Some(was), now); var before, after := StatusOf(was), StatusOf(now);
      && (OfKind(a, CameOnline) == if (before == "stale" || before == "offline") && after == "online" then 1 else 0)
      && (OfKind(a, WentStale) == if before == "online" && after == "stale" then 1 else 0)
  {
    hide StatusOf, RamOf, NameOf, OfKind;
    var name := NameOf(id, now);
    var before, after := StatusOf(was), StatusOf(now);
    var x := If(before == "online" && after == "stale", Alert(id, name, WentStale));
    var y := If((before == "stale" || before == "offline") && after == "online", Alert(id, name, CameOnline));
    var z := If(RamOf(was) <= HIGH_RAM && RamOf(now) > HIGH_RAM, Alert(id, name, HighRam(RamOf(now))));
    assert AlertsFor(id, Some(was), now) == x + y + z;
    ThreeParts(x, y, z, CameOnline);
    ThreeParts(x, y, z, WentStale);
  }

  lemma {:induction false} ThreeParts(x: seq<Alert>, y: seq<Alert>, z: seq<Alert>, kind: Kind)
    requires |x| <= 1 && |y| <= 1 && |z| <= 1
    ensures OfKind(x + y + z, kind) == (if x != [] && x[0].kind == kind then 1 else 0)
      + (if y != [] && y[0].kind == kind then 1 else 0) + (if z != [] && z[0].kind == kind then 1 else 0)
  {
    KindsJoin(x + y, z, kind);
    KindsJoin(x, y, kind);
    AtMostOne(x, kind);
    AtMostOne(y, kind);
    AtMostOne(z, kind);
  }

  lemma {:induction false} AtMostOne(x: seq<Alert>, kind: Kind)
    requires |x| <= 1
    ensures OfKind(x, kind) == if x != [] && x[0].kind == kind then 1 else 0
  {
    if x != [] {
      assert x[..0] == [];
    }
  }

  /** Over any run of polls that always list the node, came-online alerts minus went-stale alerts are
      the change of its online flag, corrected by the changes that raise no alert. */
  lemma {:induction false} AlertsTelescope(polls: seq<seq<NodeView>>, id: string)
    requires polls != [] && Present(polls, id)
    ensures Raised(polls, id, CameOnline) - Raised(polls, id, WentStale) ==
      Up(polls[|polls| - 1], id) - Up(polls[0], id) + Unannounced(polls, id)
  {
    if |polls| >= 2 {
      AlertsTelescope(polls[..|polls| - 1], id);
      PollBalance(polls[|polls| - 2], polls[|polls| - 1], id);
    }
  }

  /** With nothing but online and stale, what the hub itself assigns, the balance is exact. */
  lemma {:induction false} AlertsBalance(polls: seq<seq<NodeView>>, id: string)
    requires polls != [] && Present(polls, id)
    requires forall i :: 0 <= i < |polls| ==> Status(polls[i], id) == "online" || Status(polls[i], id) == "stale"
    ensures Raised(polls, id, CameOnline) - Raised(polls, id, WentStale) ==
      Up(polls[|polls| - 1], id) - Up(polls[0], id)
  {
    AlertsTelescope(polls, id);
    NothingUnannounced(polls, id);
  }

  lemma {:induction false} NothingUnannounced(polls: seq<seq<NodeView>>, id: string)
    requires Present(polls, id)
    requires forall i :: 0 <= i < |polls| ==> Status(polls[i], id) == "online" || Status(polls[i], id) == "stale"
    ensures Unannounced(polls, id) == 0
  {
    if |polls| >= 2 {
      var front := polls[..|polls| - 1];
      assert forall i :: 0 <= i < |front| ==> Status(front[i], id) == Status(polls[i], id);
      NothingUnannounced(front, id);
    }
  }

  ghost predicate RamAlert(was: seq<NodeView>, now: seq<NodeView>, id: string) {
    exists a :: a in AlertsBetween(was, now) && a.nodeId == id && a.kind.HighRam?
  }

  lemma {:induction false} AboutMembers(alerts: seq<Alert>, id: string, a: Alert)
    ensures a in About(alerts, id) <==> a in alerts && a.nodeId == id
  {
    if alerts != [] {
      AboutMembers(alerts[..|alerts| - 1], id, a);
      assert alerts == alerts[..|alerts| - 1] + [alerts[|alerts| - 1]];
    }
  }

  /** A high-RAM alert is raised exactly when the node's reading crosses 85 upwards; so between two
      of them some poll read at most 85. */
  lemma {:induction false} RamAlertsAreCrossings(polls: seq<seq<NodeView>>, id: string, i: nat, j: nat)
    requires Present(polls, id) && i < j < |polls| - 1
    ensures RamAlert(polls[j], polls[j + 1], id) <==>
      RamOf(Entry(polls[j], id).value) <= 85.0 < RamOf(Entry(polls[j + 1], id).value)
    ensures RamAlert(polls[i], polls[i + 1], id) && RamAlert(polls[j], polls[j + 1], id) ==>
      exists k :: i < k <= j && RamOf(Entry(polls[k], id).value) <= 85.0
  {
    RamCrossing(polls[j], polls[j + 1], id);
  }

  lemma {:induction false} RamCrossing(was: seq<NodeView>, now: seq<NodeView>, id: string)
    requires Entry(was, id).Some? && Entry(now, id).Some?
    ensures RamAlert(was, now, id) <==> RamOf(Entry(was, id).value) <= HIGH_RAM < RamOf(Entry(now, id).value)
  {
    var view := Entry(now, id).value;
    var a := Alert(id, NameOf(id, view), HighRam(RamOf(view)));
    AboutPoll(was, now, id);
    AboutMembers(AlertsBetween(was, now), id, a);
    if RamAlert(was, now, id) {
      var b :| b in AlertsBetween(was, now) && b.nodeId == id && b.kind.HighRam?;
      AboutMembers(AlertsBetween(was, now), id, b);
    }
  }
}
