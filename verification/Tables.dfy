/** The `nodes` and `heartbeats` tables and what each SQL statement of `db.py`, `hub.py` and
    `election.py` does to them, one function a statement. */
module Tables {
  import opened TextOrder
  import opened Timestamps

  datatype Role = HubRole | AgentRole
  datatype Status = Offline | Online | Stale

  datatype NodeRow = NodeRow(
    accountId: string, name: string, host: string, port: int, role: Role, platform: string, arch: string,
    cpuCores: nat, ramTotalMb: nat, storageTotalGb: real, status: Status, lastHeartbeat: string)

  datatype HeartbeatRow = HeartbeatRow(
    nodeId: string, cpuUsagePercent: real, cpuLoad1m: real, ramAvailableMb: int, ramUsedPercent: real,
    storageFreeGb: real)

  datatype Store = Store(nodes: map<string, NodeRow>, heartbeats: seq<HeartbeatRow>)

  const EMPTY_STORE := Store(map[], [])

  datatype Mount = Mount(totalGb: real, freeGb: real)

  /** A heartbeat message's payload, its missing keys already replaced by their defaults. */
  datatype Payload = Payload(
    name: string, host: string, port: int, platform: string, arch: string,
    cores: nat, usagePercent: real, loadAvg1m: real, totalMb: nat, availableMb: int, usedPercent: real,
    mounts: seq<Mount>)

  function TotalGb(mounts: seq<Mount>): real {
    if mounts == [] then 0.0 else mounts[0].totalGb + TotalGb(mounts[1..])
  }

  function FreeGb(mounts: seq<Mount>): real {
    if mounts == [] then 0.0 else mounts[0].freeGb + FreeGb(mounts[1..])
  }

  function HeartbeatOf(id: string, p: Payload): HeartbeatRow {
    HeartbeatRow(id, p.usagePercent, p.loadAvg1m, p.availableMb, p.usedPercent, FreeGb(p.mounts))
  }

  // ---------------------------------------------------------------- statements that write

  /** `INSERT ... ON CONFLICT(id) DO UPDATE`: a new row takes the column defaults, an old one keeps
      its account, role and status. */
  function UpsertNode(st: Store, id: string, p: Payload, stamp: string): Store {
    var row := if id in st.nodes then st.nodes[id]
               else NodeRow("", "", "", 8340, AgentRole, "", "", 0, 0, 0.0, Offline, "");
    st.(nodes := st.nodes[id := row.(name := p.name, host := p.host, port := p.port, platform := p.platform,
                                     arch := p.arch, cpuCores := p.cores, ramTotalMb := p.totalMb,
                                     storageTotalGb := TotalGb(p.mounts), lastHeartbeat := stamp)])
  }

  /** `UPDATE nodes SET status = 'online' WHERE id = ?`. */
  function SetOnline(st: Store, id: string): Store {
    if id in st.nodes then st.(nodes := st.nodes[id := st.nodes[id].(status := Online)]) else st
  }

  /** `UPDATE nodes SET last_heartbeat = ?, status = 'online' WHERE id = ?`. */
  function Touch(st: Store, id: string, stamp: string): Store {
    if id in st.nodes then st.(nodes := st.nodes[id := st.nodes[id].(lastHeartbeat := stamp, status := Online)])
    else st
  }

  /** `INSERT INTO heartbeats`; the declared foreign key is not enforced. */
  function InsertHeartbeat(st: Store, h: HeartbeatRow): Store {
    st.(heartbeats := st.heartbeats + [h])
  }

  /** `UPDATE nodes SET status = 'stale' WHERE id IN (...)`. */
  function MarkStale(st: Store, ids: set<string>): Store {
    st.(nodes := map id | id in st.nodes :: if id in ids then st.nodes[id].(status := Stale) else st.nodes[id])
  }

  /** The transaction of `HubElection.elect`: demote every other hub, then promote the winner. */
  function AssignHub(st: Store, winner: string): Store {
    PromoteWinner(DemoteOthers(st, winner), winner)
  }

  function DemoteOthers(st: Store, winner: string): Store {
    st.(nodes := map id | id in st.nodes ::
      if st.nodes[id].role == HubRole && id != winner then st.nodes[id].(role := AgentRole) else st.nodes[id])
  }

  function PromoteWinner(st: Store, winner: string): Store {
    if winner in st.nodes then st.(nodes := st.nodes[winner := st.nodes[winner].(role := HubRole)]) else st
  }

  /** `UPDATE nodes SET account_id = ? WHERE id = ?`. */
  function SetAccount(st: Store, id: string, account: string): Store {
    if id in st.nodes then st.(nodes := st.nodes[id := st.nodes[id].(accountId := account)]) else st
  }

  // ---------------------------------------------------------------- statements that read

  function OnlineIds(nodes: map<string, NodeRow>): set<string> {
    set id | id in nodes && nodes[id].status == Online
  }

  /** `WHERE status = 'online' AND last_heartbeat < ? AND last_heartbeat != ''`. */
  function Overdue(nodes: map<string, NodeRow>, cutoff: string): set<string> {
    set id | id in nodes && nodes[id].status == Online
      && Less(nodes[id].lastHeartbeat, cutoff) && nodes[id].lastHeartbeat != ""
  }

  /** `WHERE role = 'hub' AND status = 'online'`. */
  function OnlineHubs(nodes: map<string, NodeRow>): set<string> {
    set id | id in nodes && nodes[id].role == HubRole && nodes[id].status == Online
  }

  // ---------------------------------------------------------------- clocks

  const SECOND: nat := 1_000_000

  /** The whole second in which an instant given in microseconds falls. */
  function WholeSecond(at: nat): nat {
    at / SECOND
  }

  /** The second in which the instant `timeout` seconds earlier falls: the code subtracts from the
      exact instant and truncates then, which comes to subtracting from the second. */
  function SecondsEarlier(at: nat, timeout: nat): (second: int)
    ensures second == WholeSecond(at) - timeout
  {
    CutoffSecond(at, timeout);
    (at - timeout * SECOND) / SECOND
  }

  /** The clock can be written in the table's format, now and `timeout` seconds ago. */
  predicate Writable(at: nat, timeout: nat := 0) {
    InRange(SecondsEarlier(at, timeout)) && InRange(WholeSecond(at))
  }

  /** Truncating after subtracting whole seconds is subtracting after truncating. */
  lemma {:induction false} CutoffSecond(at: nat, timeout: nat)
    ensures (at - timeout * SECOND) / SECOND == WholeSecond(at) - timeout
  {
    var q, r := at / SECOND, at % SECOND;
    assert at - timeout * SECOND == (q - timeout) * SECOND + r;
    DivUnique(at - timeout * SECOND, SECOND, q - timeout, r);
  }

  // ---------------------------------------------------------------- whole requests

  /** `Hub.register_node`, its three statements in a row. */
  function RegisterNode(st: Store, id: string, p: Payload, stamp: string): Store {
    InsertHeartbeat(SetOnline(UpsertNode(st, id, p, stamp), id), HeartbeatOf(id, p))
  }

  /** `Hub.process_heartbeat`, its two statements in a row. */
  function ProcessHeartbeat(st: Store, id: string, p: Payload, stamp: string): Store {
    InsertHeartbeat(Touch(st, id, stamp), HeartbeatOf(id, p))
  }

  /** `Hub.mark_stale_nodes`, its two statements in a row. */
  function MarkOverdue(st: Store, cutoff: string): Store {
    MarkStale(st, Overdue(st.nodes, cutoff))
  }

  // ---------------------------------------------------------------- which value goes where

  lemma {:induction false} TotalGbJoin(a: seq<Mount>, b: seq<Mount>)
    ensures TotalGb(a + b) == TotalGb(a) + TotalGb(b)
  {
    if a == [] {
      assert a + b == b;
    } else {
      assert (a + b)[1..] == a[1..] + b;
      TotalGbJoin(a[1..], b);
    }
  }

  lemma {:induction false} FreeGbJoin(a: seq<Mount>, b: seq<Mount>)
    ensures FreeGb(a + b) == FreeGb(a) + FreeGb(b)
  {
    if a == [] {
      assert a + b == b;
    } else {
      assert (a + b)[1..] == a[1..] + b;
      FreeGbJoin(a[1..], b);
    }
  }

  /** A node's storage is the sum over its mounts: nothing for none, a mount's own size for one, and
      additive over any split; total and free sizes are not mixed up. */
  lemma {:induction false} MountsAddUp(a: seq<Mount>, b: seq<Mount>, m: Mount)
    ensures TotalGb([]) == FreeGb([]) == 0.0
    ensures TotalGb([m]) == m.totalGb && FreeGb([m]) == m.freeGb
    ensures TotalGb(a + b) == TotalGb(a) + TotalGb(b) && FreeGb(a + b) == FreeGb(a) + FreeGb(b)
  {
    TotalGbJoin(a, b);
    FreeGbJoin(a, b);
  }

  /** The row a registration leaves: the payload's values, column by column, online as of now, and what
      a known node had besides. */
  ghost predicate Registered(row: NodeRow, was: map<string, NodeRow>, id: string, p: Payload, stamp: string) {
    && row.name == p.name && row.host == p.host && row.port == p.port
    && row.platform == p.platform && row.arch == p.arch
    && row.cpuCores == p.cores && row.ramTotalMb == p.totalMb && row.storageTotalGb == TotalGb(p.mounts)
    && row.status == Online && row.lastHeartbeat == stamp
    && row.role == (if id in was then was[id].role else AgentRole)
    && row.accountId == (if id in was then was[id].accountId else "")
  }

  /** The heartbeat row a payload leaves. */
  ghost predicate Recorded(h: HeartbeatRow, id: string, p: Payload) {
    && h.nodeId == id && h.cpuUsagePercent == p.usagePercent && h.cpuLoad1m == p.loadAvg1m
    && h.ramAvailableMb == p.availableMb && h.ramUsedPercent == p.usedPercent && h.storageFreeGb == FreeGb(p.mounts)
  }

  ghost predicate SameBut(before: map<string, NodeRow>, after: map<string, NodeRow>, id: string) {
    forall other :: other != id ==>
      (other in after <==> other in before) && (other in before ==> after[other] == before[other])
  }

  lemma {:induction false} RegisterWrites(st: Store, id: string, p: Payload, stamp: string)
    ensures var after := RegisterNode(st, id, p, stamp);
      && id in after.nodes && Registered(after.nodes[id], st.nodes, id, p, stamp)
      && SameBut(st.nodes, after.nodes, id)
      && |after.heartbeats| == |st.heartbeats| + 1 && after.heartbeats[..|st.heartbeats|] == st.heartbeats
      && Recorded(after.heartbeats[|st.heartbeats|], id, p)
  {
  }

  /** A heartbeat moves a known node's time and status, leaves every other column and row, and leaves
      its own row whether the node is known or not. */
  lemma {:induction false} HeartbeatWrites(st: Store, id: string, p: Payload, stamp: string)
    ensures var after := ProcessHeartbeat(st, id, p, stamp);
      && after.nodes.Keys == st.nodes.Keys && SameBut(st.nodes, after.nodes, id)
      && (id in st.nodes ==> after.nodes[id] == st.nodes[id].(lastHeartbeat := stamp, status := Online))
      && |after.heartbeats| == |st.heartbeats| + 1 && after.heartbeats[..|st.heartbeats|] == st.heartbeats
      && Recorded(after.heartbeats[|st.heartbeats|], id, p)
  {
  }

  // ---------------------------------------------------------------- totals

  datatype Totals = Totals(nodesOnline: int, cpuCores: int, ramTotalMb: int, storageTotalGb: real) {
    function Plus(t: Totals): Totals {
      Totals(nodesOnline + t.nodesOnline, cpuCores + t.cpuCores, ramTotalMb + t.ramTotalMb,
             storageTotalGb + t.storageTotalGb)
    }

    function Minus(t: Totals): Totals {
      Totals(nodesOnline - t.nodesOnline, cpuCores - t.cpuCores, ramTotalMb - t.ramTotalMb,
             storageTotalGb - t.storageTotalGb)
    }
  }

  const ZERO := Totals(0, 0, 0, 0.0)

  /** What one online row contributes. */
  function Share(row: NodeRow): Totals {
    Totals(1, row.cpuCores, row.ramTotalMb, row.storageTotalGb)
  }

  ghost function SumShares(nodes: map<string, NodeRow>, ids: set<string>): Totals
    requires ids <= nodes.Keys
  {
    if ids == {} then ZERO else
      var id :| id in ids;
      Share(nodes[id]).Plus(SumShares(nodes, ids - {id}))
  }

  /** `SELECT COUNT(*), SUM(...) FROM nodes WHERE status = 'online'`. */
  ghost function OnlineTotals(nodes: map<string, NodeRow>): Totals {
    SumShares(nodes, OnlineIds(nodes))
  }

  lemma {:induction false} PlusLaws(a: Totals, b: Totals, c: Totals)
    ensures a.Plus(b.Plus(c)) == b.Plus(a.Plus(c)) == a.Plus(b).Plus(c)
    ensures a.Plus(b) == b.Plus(a) && a.Plus(ZERO) == a && a.Minus(ZERO) == a
    ensures a.Plus(b).Minus(b) == a
  {
  }

  lemma {:induction false} MinusPlus(a: Totals, b: Totals)
    ensures a.Minus(b).Plus(b) == a.Plus(ZERO) && a.Minus(ZERO).Plus(b) == a.Plus(b)
  {
  }

  /** Any member may be taken out of the sum first. */
  lemma {:induction false} TakeOut(nodes: map<string, NodeRow>, ids: set<string>, id: string)
    requires ids <= nodes.Keys && id in ids
    ensures SumShares(nodes, ids) == Share(nodes[id]).Plus(SumShares(nodes, ids - {id}))
    decreases ids
  {
    var first :| first in ids && SumShares(nodes, ids) == Share(nodes[first]).Plus(SumShares(nodes, ids - {first}));
    if first != id {
      TakeOut(nodes, ids - {first}, id);
      TakeOut(nodes, ids - {id}, first);
      assert ids - {first} - {id} == ids - {id} - {first};
      PlusLaws(Share(nodes[first]), Share(nodes[id]), SumShares(nodes, ids - {first} - {id}));
    }
  }

  lemma {:induction false} AddOne(nodes: map<string, NodeRow>, ids: set<string>, id: string)
    requires ids <= nodes.Keys && id in nodes && id !in ids
    ensures SumShares(nodes, ids + {id}) == SumShares(nodes, ids).Plus(Share(nodes[id]))
  {
    TakeOut(nodes, ids + {id}, id);
    assert ids + {id} - {id} == ids;
    PlusLaws(Share(nodes[id]), SumShares(nodes, ids), ZERO);
  }

  /** The sum only looks at the rows it adds up. */
  lemma {:induction false} SameShares(a: map<string, NodeRow>, b: map<string, NodeRow>, ids: set<string>)
    requires ids <= a.Keys && ids <= b.Keys
    requires forall id :: id in ids ==> Share(a[id]) == Share(b[id])
    ensures SumShares(a, ids) == SumShares(b, ids)
    decreases ids
  {
    if ids != {} {
      var id :| id in ids;
      TakeOut(a, ids, id);
      TakeOut(b, ids, id);
      SameShares(a, b, ids - {id});
    }
  }

  lemma {:induction false} SplitShares(nodes: map<string, NodeRow>, ids: set<string>, part: set<string>)
    requires part <= ids <= nodes.Keys
    ensures SumShares(nodes, ids) == SumShares(nodes, ids - part).Plus(SumShares(nodes, part))
    decreases part
  {
    if part == {} {
      assert ids - part == ids;
      PlusLaws(SumShares(nodes, ids), ZERO, ZERO);
    } else {
      var id :| id in part;
      var rest := ids - part;
      assert ids - {id} - (part - {id}) == rest;
      TakeOut(nodes, ids, id);
      TakeOut(nodes, part, id);
      SplitShares(nodes, ids - {id}, part - {id});
      PlusLaws(Share(nodes[id]), SumShares(nodes, rest), SumShares(nodes, part - {id}));
    }
  }

  /** Replacing or adding one row moves the totals by that row's old and new share. */
  lemma {:induction false} TotalsAfterWrite(nodes: map<string, NodeRow>, id: string, row: NodeRow)
    ensures OnlineTotals(nodes[id := row]) ==
      OnlineTotals(nodes)
        .Minus(if id in OnlineIds(nodes) then Share(nodes[id]) else ZERO)
        .Plus(if row.status == Online then Share(row) else ZERO)
  {
    var rest := SumShares(nodes, OnlineIds(nodes) - {id});
    var before := if id in OnlineIds(nodes) then Share(nodes[id]) else ZERO;
    RestUntouched(nodes, id, row);
    TakeOutOptional(nodes, id);
    TakeOutOptional(nodes[id := row], id);
    PlusLaws(rest, before, ZERO);
  }

  lemma {:induction false} RestUntouched(nodes: map<string, NodeRow>, id: string, row: NodeRow)
    ensures SumShares(nodes[id := row], OnlineIds(nodes[id := row]) - {id}) == SumShares(nodes, OnlineIds(nodes) - {id})
    ensures id in OnlineIds(nodes[id := row]) <==> row.status == Online
  {
    var rest := OnlineIds(nodes) - {id};
    assert OnlineIds(nodes[id := row]) - {id} == rest;
    SameShares(nodes, nodes[id := row], rest);
  }

  lemma {:induction false} TakeOutOptional(nodes: map<string, NodeRow>, id: string)
    ensures OnlineTotals(nodes) ==
      SumShares(nodes, OnlineIds(nodes) - {id}).Plus(if id in OnlineIds(nodes) then Share(nodes[id]) else ZERO)
  {
    var rest := OnlineIds(nodes) - {id};
    if id in OnlineIds(nodes) {
      TakeOut(nodes, OnlineIds(nodes), id);
      PlusLaws(Share(nodes[id]), SumShares(nodes, rest), ZERO);
    } else {
      assert OnlineIds(nodes) == rest;
      PlusLaws(SumShares(nodes, rest), ZERO, ZERO);
    }
  }

  /** A sweep takes exactly the shares of the online ids it marks out of the totals. */
  lemma {:induction false} TotalsAfterMark(st: Store, ids: set<string>)
    requires ids <= OnlineIds(st.nodes)
    ensures OnlineTotals(MarkStale(st, ids).nodes) == OnlineTotals(st.nodes).Minus(SumShares(st.nodes, ids))
  {
    var left := OnlineIds(st.nodes) - ids;
    SplitShares(st.nodes, OnlineIds(st.nodes), ids);
    LeftOnline(st, ids);
    PlusLaws(SumShares(st.nodes, left), SumShares(st.nodes, ids), ZERO);
  }

  lemma {:induction false} LeftOnline(st: Store, ids: set<string>)
    requires ids <= OnlineIds(st.nodes)
    ensures OnlineTotals(MarkStale(st, ids).nodes) == SumShares(st.nodes, OnlineIds(st.nodes) - ids)
  {
    var after := MarkStale(st, ids).nodes;
    var left := OnlineIds(st.nodes) - ids;
    assert OnlineIds(after) == left;
    SameShares(st.nodes, after, left);
  }

  // ---------------------------------------------------------------- totals, one listing at a time

  function CoresOf(nodes: map<string, NodeRow>, order: seq<string>): int
    requires forall id :: id in order ==> id in nodes
  {
    if order == [] then 0
    else CoresOf(nodes, order[..|order| - 1]) + nodes[order[|order| - 1]].cpuCores
  }

  function RamOf(nodes: map<string, NodeRow>, order: seq<string>): int
    requires forall id :: id in order ==> id in nodes
  {
    if order == [] then 0
    else RamOf(nodes, order[..|order| - 1]) + nodes[order[|order| - 1]].ramTotalMb
  }

  function StorageOf(nodes: map<string, NodeRow>, order: seq<string>): real
    requires forall id :: id in order ==> id in nodes
  {
    if order == [] then 0.0
    else StorageOf(nodes, order[..|order| - 1]) + nodes[order[|order| - 1]].storageTotalGb
  }

  ghost predicate Listed(order: seq<string>, ids: set<string>) {
    && (forall id :: id in ids <==> id in order)
    && (forall i, j :: 0 <= i < j < |order| ==> order[i] != order[j])
  }

  lemma {:induction false} SumOfListing(nodes: map<string, NodeRow>, order: seq<string>, ids: set<string>)
    requires ids <= nodes.Keys && Listed(order, ids)
    ensures forall id :: id in order ==> id in nodes
    ensures SumShares(nodes, ids) ==
      Totals(|order|, CoresOf(nodes, order), RamOf(nodes, order), StorageOf(nodes, order))
    decreases |order|
  {
    if order == [] {
      assert ids == {};
    } else {
      var front, last := order[..|order| - 1], order[|order| - 1];
      assert order == front + [last];
      ListedFront(front, last, ids);
      SumOfListing(nodes, front, ids - {last});
      AddOne(nodes, ids - {last}, last);
      assert ids - {last} + {last} == ids;
    }
  }

  lemma {:induction false} ListedFront(front: seq<string>, last: string, ids: set<string>)
    requires Listed(front + [last], ids)
    ensures Listed(front, ids - {last}) && last in ids
  {
    var order := front + [last];
    assert order[|front|] == last;
    assert forall i :: 0 <= i < |front| ==> order[i] == front[i];
    forall id | id in front ensures id in ids - {last} {
      var i :| 0 <= i < |front| && front[i] == id;
      assert order[i] != order[|front|];
      assert id in order;
    }
    forall id | id in ids - {last} ensures id in front {
      assert id in order;
    }
  }

  /** The query's answer, column by column, for any listing of the rows whose status is online: their
      number, and the sums of their cores, memory and storage. */
  lemma {:induction false} TotalsOfListing(nodes: map<string, NodeRow>, order: seq<string>)
    requires forall id :: id in order <==> id in nodes && nodes[id].status == Online
    requires forall i, j :: 0 <= i < j < |order| ==> order[i] != order[j]
    ensures OnlineTotals(nodes) ==
      Totals(|order|, CoresOf(nodes, order), RamOf(nodes, order), StorageOf(nodes, order))
  {
    SumOfListing(nodes, order, OnlineIds(nodes));
  }
}
