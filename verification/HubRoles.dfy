/** Who is hub: `HubElection.elect` against the database and `MeshTransport.send_to_hub` looking
    the winner up. */
module HubRoles {
  import opened Options
  import opened Election
  import T = Tables
  import opened Registry
  import opened Database

  /** Without a database, or without online rows, the local node takes itself for the hub and the
      tables stay as they are; otherwise the winner of the online rows gets the role. */
  method Elect(local: NodeInfo, db: MeshDB?) returns (winnerId: string)
    modifies local`isHub, db
    ensures db == null ==> winnerId == local.id && local.isHub
    ensures db != null && T.OnlineIds(old(db.nodes)) == {} ==>
      winnerId == local.id && local.isHub && db.Contents() == old(db.Contents())
    ensures db != null && T.OnlineIds(old(db.nodes)) != {} ==>
      && (exists order :: Enumerates(order, T.OnlineIds(old(db.nodes))) && order != []
           && winnerId == Elected(Ballot(old(db.nodes), order)))
      && db.Contents() == T.AssignHub(old(db.Contents()), winnerId)
      && db.nodes.Keys == old(db.nodes).Keys && db.heartbeats == old(db.heartbeats)
      && (forall id :: id in db.nodes ==>
           db.nodes[id] == old(db.nodes)[id].(role := if id == winnerId then T.HubRole else T.AgentRole))
      && local.isHub == (winnerId == local.id)
  {
    hide T.AssignHub, Winner;
    if db == null {
      local.isHub := true;
      return local.id;
    }
    var rows := db.FetchOnline();
    EmptyListing(rows, T.OnlineIds(db.nodes));
    if rows == [] {
      local.isHub := true;
      return local.id;
    }
    var allNodes := [];
    for i := 0 to |rows|
      invariant |allNodes| == i
      invariant forall j :: 0 <= j < i ==> allNodes[j] == Ballot(db.nodes, rows)[j]
    {
      assert rows[i] in rows;
      allNodes := allNodes + [CandidateOf(rows[i], db.nodes[rows[i]])];
    }
    assert allNodes == Ballot(db.nodes, rows);
    ElectedIsOnline(db.nodes, rows);
    RolesAfter(db.Contents(), Elected(allNodes));
    var r := ElectHub(allNodes);
    winnerId := r.value;
    db.AssignHub(winnerId);
    local.isHub := winnerId == local.id;
  }

  lemma {:induction false} RolesAfter(st: T.Store, w: string)
    requires w in st.nodes
    ensures var after := T.AssignHub(st, w);
      && after.nodes.Keys == st.nodes.Keys && after.heartbeats == st.heartbeats
      && forall id :: id in st.nodes ==>
           after.nodes[id] == st.nodes[id].(role := if id == w then T.HubRole else T.AgentRole)
  {
  }

  const MAX_MESSAGE_SIZE := 1_048_576

  datatype Outcome = Sent | NoHubAvailable | NoConnection(peerId: string) | TooLarge

  lemma {:induction false} OnlineHubIs(nodes: map<string, T.NodeRow>, w: Option<string>)
    requires HubsAre(nodes, w)
    ensures T.OnlineHubs(nodes) == if w.Some? && w.value in T.OnlineIds(nodes) then {w.value} else {}
  {
  }

  class MeshTransport {
    const db: MeshDB
    var connections: set<string>
    var wire: seq<(string, string)>

    constructor (db: MeshDB)
      ensures this.db == db && connections == {} && wire == []
    {
      this.db := db;
      connections, wire := {}, [];
    }

    /** `message` is the encoded JSON text. */
    method Send(peerId: string, message: string) returns (o: Outcome)
      modifies this`wire
      ensures o == if peerId !in connections then NoConnection(peerId)
                   else if |message| > 1_048_576 then TooLarge else Sent
      ensures wire == if o == Sent then old(wire) + [(peerId, message)] else old(wire)
    {
      if peerId !in connections {
        return NoConnection(peerId);
      }
      if |message| > MAX_MESSAGE_SIZE {
        return TooLarge;
      }
      wire := wire + [(peerId, message)];
      return Sent;
    }

    /** Over any table, the message goes to one online hub or nowhere, and fails for want of a hub
        exactly if there is none.  In a state the registry can reach, where `w` is the last elected
        node, that hub is `w`, found exactly while it is online. */
    method SendToHub(message: string, ghost w: Option<string>) returns (o: Outcome)
      modifies this`wire
      ensures o == NoHubAvailable <==> T.OnlineHubs(db.nodes) == {}
      ensures o.NoConnection? ==> o.peerId in T.OnlineHubs(db.nodes) && o.peerId !in connections
      ensures o == TooLarge ==> |message| > MAX_MESSAGE_SIZE
      ensures o == Sent ==>
        && |message| <= MAX_MESSAGE_SIZE
        && exists h :: h in T.OnlineHubs(db.nodes) && h in connections && wire == old(wire) + [(h, message)]
      ensures o != Sent ==> wire == old(wire)
      ensures HubsAre(db.nodes, w) ==>
        && (o == NoHubAvailable <==> w.None? || w.value !in T.OnlineIds(db.nodes))
        && (o == Sent <==>
             w.Some? && w.value in T.OnlineIds(db.nodes) && w.value in connections && |message| <= MAX_MESSAGE_SIZE)
        && (o == Sent ==> wire == old(wire) + [(w.value, message)])
    {
      var hub := db.FetchHub();
      if HubsAre(db.nodes, w) {
        OnlineHubIs(db.nodes, w);
      }
      if hub == None {
        return NoHubAvailable;
      }
      o := Send(hub.value, message);
    }
  }
}
