/** `MeshDB` (`db.py`): the two node tables as mutable state, one method a statement.  What a
    statement does to the tables is the function of the same purpose in `Tables`. */
module Database {
  import opened Options
  import T = Tables
  import opened Registry

  /** The rows a query returns, in whatever order the engine finds them. */
  method Listing(ids: set<string>) returns (order: seq<string>)
    ensures Enumerates(order, ids)
  {
    order := [];
    var rest := ids;
    while rest != {}
      invariant rest <= ids
      invariant forall id :: id in order <==> id in ids - rest
      invariant forall i, j :: 0 <= i < j < |order| ==> order[i] != order[j]
    {
      var id :| id in rest;
      assert id !in order;
      assert forall other :: other in order + [id] <==> other in order || other == id;
      order := order + [id];
      rest := rest - {id};
    }
  }

  class MeshDB {
    var nodes: map<string, T.NodeRow>
    var heartbeats: seq<T.HeartbeatRow>

    ghost function Contents(): T.Store
      reads this
    {
      T.Store(nodes, heartbeats)
    }

    constructor ()
      ensures Contents() == T.EMPTY_STORE
    {
      nodes := map[];
      heartbeats := [];
    }

    method UpsertNode(id: string, p: T.Payload, stamp: string)
      modifies this
      ensures Contents() == T.UpsertNode(old(Contents()), id, p, stamp)
    {
      var row := T.NodeRow("", "", "", 8340, T.AgentRole, "", "", 0, 0, 0.0, T.Offline, "");
      if id in nodes {
        row := nodes[id];
      }
      nodes := nodes[id := row.(name := p.name, host := p.host, port := p.port, platform := p.platform,
                               arch := p.arch, cpuCores := p.cores, ramTotalMb := p.totalMb,
                               storageTotalGb := T.TotalGb(p.mounts), lastHeartbeat := stamp)];
    }

    method SetOnline(id: string)
      modifies this
      ensures Contents() == T.SetOnline(old(Contents()), id)
    {
      if id in nodes {
        nodes := nodes[id := nodes[id].(status := T.Online)];
      }
    }

    method Touch(id: string, stamp: string)
      modifies this
      ensures Contents() == T.Touch(old(Contents()), id, stamp)
    {
      if id in nodes {
        nodes := nodes[id := nodes[id].(lastHeartbeat := stamp, status := T.Online)];
      }
    }

    method InsertHeartbeat(row: T.HeartbeatRow)
      modifies this
      ensures Contents() == T.InsertHeartbeat(old(Contents()), row)
    {
      heartbeats := heartbeats + [row];
    }

    method MarkStale(ids: seq<string>)
      modifies this
      ensures Contents() == T.MarkStale(old(Contents()), set id | id in ids)
    {
      nodes := map id | id in nodes :: if id in ids then nodes[id].(status := T.Stale) else nodes[id];
    }

    method SetAccount(id: string, account: string)
      modifies this
      ensures Contents() == T.SetAccount(old(Contents()), id, account)
    {
      if id in nodes {
        nodes := nodes[id := nodes[id].(accountId := account)];
      }
    }

    method AssignHub(winner: string)
      modifies this
      ensures Contents() == T.AssignHub(old(Contents()), winner)
    {
      nodes := map id | id in nodes ::
        if nodes[id].role == T.HubRole && id != winner then nodes[id].(role := T.AgentRole) else nodes[id];
      if winner in nodes {
        nodes := nodes[winner := nodes[winner].(role := T.HubRole)];
      }
    }

    method FetchOverdue(cutoff: string) returns (ids: seq<string>)
      ensures Enumerates(ids, T.Overdue(nodes, cutoff))
    {
      ids := Listing(T.Overdue(nodes, cutoff));
    }

    method FetchOnline() returns (ids: seq<string>)
      ensures Enumerates(ids, T.OnlineIds(nodes))
    {
      ids := Listing(T.OnlineIds(nodes));
    }

    /** One row of the answer, if there is any. */
    method FetchHub() returns (id: Option<string>)
      ensures id.None? <==> T.OnlineHubs(nodes) == {}
      ensures id.Some? ==> id.value in T.OnlineHubs(nodes)
    {
      var ids := Listing(T.OnlineHubs(nodes));
      if ids == [] {
        return None;
      }
      assert ids[0] in ids;
      return Some(ids[0]);
    }
  }
}
