/** Hub election with hysteresis (`election.py`). */
module Election {
  import opened Options
  import opened TextOrder
  import opened Capability

  datatype Candidate = Candidate(id: string, name: string, capability: real, isHub: bool)

  datatype Result<T> = Ok(value: T) | EmptyNodeList

  const HYSTERESIS_MARGIN := 0.2

  // ---------------------------------------------------------------- specification

  /** The sort key (-capability, name, id) of `a` is strictly below that of `b`. */
  predicate Before(a: Candidate, b: Candidate) {
    || a.capability > b.capability
    || (a.capability == b.capability && Less(a.name, b.name))
    || (a.capability == b.capability && a.name == b.name && Less(a.id, b.id))
  }

  /** Stable sort by that key. */
  function Sorted(nodes: seq<Candidate>): (s: seq<Candidate>)
    ensures |s| == |nodes|
  {
    if nodes == [] then [] else Insert(nodes[|nodes| - 1], Sorted(nodes[..|nodes| - 1]))
  }

  function Insert(n: Candidate, s: seq<Candidate>): (r: seq<Candidate>)
    ensures |r| == |s| + 1
  {
    if s == [] then [n]
    else if Before(n, s[0]) then [n] + s
    else [s[0]] + Insert(n, s[1..])
  }

  function FirstHub(nodes: seq<Candidate>): Option<string> {
    if nodes == [] then None
    else if nodes[0].isHub then Some(nodes[0].id)
    else FirstHub(nodes[1..])
  }

  function Find(nodes: seq<Candidate>, id: string): Option<Candidate> {
    if nodes == [] then None
    else if nodes[0].id == id then Some(nodes[0])
    else Find(nodes[1..], id)
  }

  /** The incumbent: named by the caller, else the first node flagged as hub. An empty id is no incumbent. */
  function Incumbent(nodes: seq<Candidate>, named: Option<string>): Option<Candidate> {
    var hubId := if named.Some? then named else FirstHub(nodes);
    if hubId.None? || hubId.value == "" then None else Find(nodes, hubId.value)
  }

  function Winner(nodes: seq<Candidate>, named: Option<string>, hysteresis: real): string
    requires nodes != []
  {
    Decide(Sorted(nodes)[0], Incumbent(nodes, named), 1.0 + hysteresis)
  }

  function Decide(top: Candidate, incumbent: Option<Candidate>, factor: real): string {
    match incumbent
    case None => top.id
    case Some(hub) => if hub.id == top.id || top.capability > hub.capability * factor then top.id else hub.id
  }

  // ---------------------------------------------------------------- the code

  method ElectHub(nodes: seq<Candidate>, currentHubId: Option<string> := None, hysteresis: real := HYSTERESIS_MARGIN)
    returns (r: Result<string>)
    ensures r == if nodes == [] then EmptyNodeList else Ok(Winner(nodes, currentHubId, hysteresis))
  {
    hide Sorted;
    if nodes == [] {
      return EmptyNodeList;
    }
    var hubId := currentHubId;
    if hubId == None {
      for i := 0 to |nodes|
        invariant hubId == None && FirstHub(nodes[i..]) == FirstHub(nodes)
      {
        assert nodes[i..][0] == nodes[i] && nodes[i..][1..] == nodes[i + 1..];
        if nodes[i].isHub {
          hubId := Some(nodes[i].id);
          break;
        }
      }
    }
    var currentHub := None;
    if hubId.Some? && hubId.value != "" {
      for i := 0 to |nodes|
        invariant currentHub == None && Find(nodes[i..], hubId.value) == Find(nodes, hubId.value)
      {
        assert nodes[i..][0] == nodes[i] && nodes[i..][1..] == nodes[i + 1..];
        if nodes[i].id == hubId.value {
          currentHub := Some(nodes[i]);
          break;
        }
      }
    }
    var candidates := Sorted(nodes);
    var top := candidates[0];
    if currentHub.Some? && currentHub.value.id != top.id {
      var threshold := currentHub.value.capability * (1.0 + hysteresis);
      if top.capability > threshold {
        return Ok(top.id);
      }
      return Ok(currentHub.value.id);
    }
    return Ok(top.id);
  }

  /** The part of a node's own record that an election reads and writes. */
  class NodeInfo {
    const id: string
    var isHub: bool

    constructor (id: string)
      ensures this.id == id && !isHub
    {
      this.id := id;
      isHub := false;
    }
  }

  /** Whether a node that ran an election over `nodes` ends up with `is_hub` set. */
  predicate EndsAsHub(localId: string, nodes: seq<Candidate>) {
    nodes == [] || Winner(nodes, None, HYSTERESIS_MARGIN) == localId
  }

  method Run(local: NodeInfo, allNodes: seq<Candidate>) returns (winnerId: string)
    modifies local`isHub
    ensures local.isHub == EndsAsHub(local.id, allNodes)
    ensures local.isHub <==> winnerId == local.id
    ensures winnerId == if allNodes == [] then local.id else Winner(allNodes, None, HYSTERESIS_MARGIN)
  {
    if allNodes == [] {
      local.isHub := true;
      return local.id;
    }
    var r := ElectHub(allNodes);
    winnerId := r.value;
    local.isHub := winnerId == local.id;
  }

  // ---------------------------------------------------------------- facts about the pieces

  ghost predicate IsTop(nodes: seq<Candidate>, t: Candidate) {
    t in nodes && forall n :: n in nodes ==> !Before(n, t)
  }

  lemma {:induction false} BeforeIsOrder(a: Candidate, b: Candidate, c: Candidate)
    ensures !Before(a, a)
    ensures Before(a, b) && Before(b, c) ==> Before(a, c)
    ensures Before(a, b) ==> !Before(b, a)
    ensures !Before(a, b) && !Before(b, a) ==> a.id == b.id && a.capability == b.capability
    ensures !Before(b, a) && !Before(c, b) ==> !Before(c, a)
  {
    Irreflexive(a.name);
    Irreflexive(a.id);
    Total(a.name, b.name);
    Total(a.id, b.id);
    Total(b.name, c.name);
    Total(b.id, c.id);
    if Less(a.name, b.name) && Less(b.name, a.name) { Transitive(a.name, b.name, a.name); }
    if Less(a.id, b.id) && Less(b.id, a.id) { Transitive(a.id, b.id, a.id); }
    if Less(a.name, b.name) && Less(b.name, c.name) { Transitive(a.name, b.name, c.name); }
    if Less(a.id, b.id) && Less(b.id, c.id) { Transitive(a.id, b.id, c.id); }
    if Less(c.name, a.name) && Less(a.name, b.name) { Transitive(c.name, a.name, b.name); }
    if Less(c.id, a.id) && Less(a.id, b.id) { Transitive(c.id, a.id, b.id); }
    Irreflexive(b.name);
    Irreflexive(b.id);
    if Less(b.name, c.name) && Less(c.name, a.name) { Transitive(b.name, c.name, a.name); }
    if Less(b.id, c.id) && Less(c.id, a.id) { Transitive(b.id, c.id, a.id); }
    if Less(c.name, b.name) && Less(b.name, c.name) { Transitive(c.name, b.name, c.name); Irreflexive(c.name); }
    if Less(c.id, b.id) && Less(b.id, c.id) { Transitive(c.id, b.id, c.id); Irreflexive(c.id); }
  }

  ghost predicate Ordered(s: seq<Candidate>) {
    forall i, j :: 0 <= i < j < |s| ==> !Before(s[j], s[i])
  }

  lemma {:induction false} InsertKeepsOrder(n: Candidate, s: seq<Candidate>)
    requires Ordered(s)
    ensures Ordered(Insert(n, s)) && multiset(Insert(n, s)) == multiset{n} + multiset(s)
  {
    if s != [] {
      assert s == [s[0]] + s[1..];
      if Before(n, s[0]) {
        forall j | 0 <= j < |s| ensures !Before(s[j], n) {
          BeforeIsOrder(n, s[0], s[j]);
        }
      } else {
        InsertKeepsOrder(n, s[1..]);
        var r := Insert(n, s[1..]);
        forall j | 0 <= j < |r| ensures !Before(r[j], s[0]) {
          assert r[j] in multiset(r);
          assert r[j] == n || r[j] in s[1..];
        }
      }
    }
  }

  lemma {:induction false} SortedSorts(nodes: seq<Candidate>)
    ensures Ordered(Sorted(nodes)) && multiset(Sorted(nodes)) == multiset(nodes)
  {
    if nodes != [] {
      var front, last := nodes[..|nodes| - 1], nodes[|nodes| - 1];
      assert nodes == front + [last];
      SortedSorts(front);
      InsertKeepsOrder(last, Sorted(front));
    }
  }

  lemma {:induction false} SortedHeadIsTop(nodes: seq<Candidate>)
    requires nodes != []
    ensures IsTop(nodes, Sorted(nodes)[0])
  {
    SortedSorts(nodes);
    var s := Sorted(nodes);
    assert s[0] in multiset(s);
    forall n | n in nodes ensures !Before(n, s[0]) {
      assert n in multiset(nodes);
      assert n in s;
      BeforeIsOrder(s[0], s[0], s[0]);
    }
  }

  lemma {:induction false} FindFinds(nodes: seq<Candidate>, id: string)
    ensures Find(nodes, id).Some? ==> Find(nodes, id).value in nodes && Find(nodes, id).value.id == id
    ensures Find(nodes, id).None? ==> forall n :: n in nodes ==> n.id != id
  {
    if nodes != [] {
      FindFinds(nodes[1..], id);
      assert nodes == [nodes[0]] + nodes[1..];
    }
  }

  lemma {:induction false} FirstHubFinds(nodes: seq<Candidate>)
    ensures FirstHub(nodes).Some? ==> exists n :: n in nodes && n.isHub && FirstHub(nodes) == Some(n.id)
    ensures FirstHub(nodes).None? ==> forall n :: n in nodes ==> !n.isHub
  {
    if nodes != [] {
      FirstHubFinds(nodes[1..]);
      assert nodes == [nodes[0]] + nodes[1..];
      if nodes[0].isHub {
        assert nodes[0] in nodes;
      } else if FirstHub(nodes).Some? {
        var n :| n in nodes[1..] && n.isHub && FirstHub(nodes[1..]) == Some(n.id);
        assert n in nodes;
      }
    }
  }

  // ---------------------------------------------------------------- order independence and agreement

  /** An id names one node: what distinct ids come to, and all the theorems need. */
  ghost predicate Identified(nodes: seq<Candidate>) {
    forall a, b :: a in nodes && b in nodes && a.id == b.id ==> a == b
  }

  ghost predicate AtMostOneHub(nodes: seq<Candidate>) {
    forall a, b :: a in nodes && b in nodes && a.isHub && b.isHub ==> a.id == b.id
  }

  ghost predicate SameNodes(a: seq<Candidate>, b: seq<Candidate>) {
    forall n :: n in a <==> n in b
  }

  lemma {:induction false} PermutationHasSameNodes(a: seq<Candidate>, b: seq<Candidate>)
    requires multiset(a) == multiset(b)
    ensures SameNodes(a, b)
  {
    forall n ensures n in a <==> n in b {
      assert n in a <==> n in multiset(a);
      assert n in b <==> n in multiset(b);
    }
  }

  lemma {:induction false} SameIncumbent(a: seq<Candidate>, b: seq<Candidate>, named: Option<string>)
    requires SameNodes(a, b) && Identified(a) && (named.Some? || AtMostOneHub(a))
    ensures Incumbent(a, named) == Incumbent(b, named)
  {
    FirstHubFinds(a);
    FirstHubFinds(b);
    var hubId := if named.Some? then named else FirstHub(a);
    assert named.None? ==> FirstHub(a) == FirstHub(b);
    if hubId.Some? {
      FindFinds(a, hubId.value);
      FindFinds(b, hubId.value);
    }
  }

  lemma {:induction false} SameTop(a: seq<Candidate>, b: seq<Candidate>)
    requires a != [] && b != [] && SameNodes(a, b)
    ensures Sorted(a)[0].id == Sorted(b)[0].id && Sorted(a)[0].capability == Sorted(b)[0].capability
  {
    SortedHeadIsTop(a);
    SortedHeadIsTop(b);
    BeforeIsOrder(Sorted(a)[0], Sorted(b)[0], Sorted(a)[0]);
  }

  /** `g` keeps the role if it is the flagged node that is found first. */
  ghost predicate CouldKeep(nodes: seq<Candidate>, g: Candidate, hysteresis: real)
    requires nodes != []
  {
    var top := Sorted(nodes)[0];
    g in nodes && g.isHub && g.id != "" && g.id != top.id && top.capability <= g.capability * (1.0 + hysteresis)
  }

  /** The flags leave one outcome: one node is flagged, or none that is could keep the role. */
  ghost predicate OrderFree(nodes: seq<Candidate>, hysteresis: real)
    requires nodes != []
  {
    AtMostOneHub(nodes) || forall g :: g in nodes ==> !CouldKeep(nodes, g, hysteresis)
  }

  /** When no flagged node could keep the role, the top-ranked node wins. */
  lemma {:induction false} TopWins(nodes: seq<Candidate>, hysteresis: real)
    requires nodes != [] && forall g :: g in nodes ==> !CouldKeep(nodes, g, hysteresis)
    requires Identified(nodes)
    ensures Winner(nodes, None, hysteresis) == Sorted(nodes)[0].id
  {
    FirstHubFinds(nodes);
    if Incumbent(nodes, None).Some? {
      FindFinds(nodes, FirstHub(nodes).value);
    }
  }

  lemma {:induction false} SameKeepers(a: seq<Candidate>, b: seq<Candidate>, hysteresis: real)
    requires a != [] && b != [] && SameNodes(a, b)
    requires forall g :: g in a ==> !CouldKeep(a, g, hysteresis)
    ensures forall g :: g in b ==> !CouldKeep(b, g, hysteresis)
  {
    SameTop(a, b);
  }

  /** Every order in which the same nodes are listed elects the same hub: always when the hub is
      named, and otherwise when the flags leave one outcome. */
  lemma {:induction false} OrderIndependence(
    a: seq<Candidate>, b: seq<Candidate>, named: Option<string>, hysteresis: real)
    requires a != [] && b != [] && SameNodes(a, b) && Identified(a)
    requires named.Some? || OrderFree(a, hysteresis)
    ensures Winner(a, named, hysteresis) == Winner(b, named, hysteresis)
  {
    SameTop(a, b);
    if named.Some? || AtMostOneHub(a) {
      SameIncumbent(a, b, named);
    } else {
      SameKeepers(a, b, hysteresis);
      TopWins(a, hysteresis);
      TopWins(b, hysteresis);
    }
  }

  ghost predicate Permutation(a: seq<Candidate>, b: seq<Candidate>) {
    multiset(a) == multiset(b)
  }

  ghost predicate SameWinner(a: seq<Candidate>, b: seq<Candidate>, hysteresis: real) {
    a != [] && b != [] && Winner(a, None, hysteresis) == Winner(b, None, hysteresis)
  }

  /** The exact condition: all permutations of a list elect one node, and so do all lists of the same
      nodes, if and only if at most one node is flagged or no flagged node could keep the role. */
  lemma {:induction false} OrderIndependentExactly(a: seq<Candidate>, hysteresis: real)
    requires a != [] && Identified(a)
    ensures OrderFree(a, hysteresis) <==> forall b :: Permutation(a, b) ==> SameWinner(a, b, hysteresis)
    ensures OrderFree(a, hysteresis) <==> forall b :: SameNodes(a, b) ==> SameWinner(a, b, hysteresis)
  {
    if OrderFree(a, hysteresis) {
      forall b | SameNodes(a, b) ensures SameWinner(a, b, hysteresis) {
        assert a[0] in b;
        OrderIndependence(a, b, None, hysteresis);
      }
      forall b | Permutation(a, b) ensures SameNodes(a, b) {
        PermutationHasSameNodes(a, b);
      }
    } else {
      var b := Disagreement(a, hysteresis);
      PermutationHasSameNodes(a, b);
    }
  }

  /** The list with the node at `i` moved to the front. */
  function ToFront(a: seq<Candidate>, i: nat): seq<Candidate>
    requires i < |a|
  {
    [a[i]] + a[..i] + a[i + 1..]
  }

  lemma {:induction false} ToFrontPermutes(a: seq<Candidate>, i: nat)
    requires i < |a|
    ensures Permutation(a, ToFront(a, i)) && SameNodes(a, ToFront(a, i))
  {
    assert a == a[..i] + [a[i]] + a[i + 1..];
    PermutationHasSameNodes(a, ToFront(a, i));
  }

  /** A flagged node at the front is the incumbent, unless its id is empty. */
  lemma {:induction false} FrontIsIncumbent(a: seq<Candidate>, i: nat, hysteresis: real)
    requires i < |a| && a[i].isHub
    ensures Winner(ToFront(a, i), None, hysteresis) ==
      Decide(Sorted(a)[0], if a[i].id == "" then None else Some(a[i]), 1.0 + hysteresis)
  {
    hide Sorted, SameNodes, Permutation;
    ToFrontPermutes(a, i);
    SameTop(a, ToFront(a, i));
    DecideSame(Sorted(a)[0], Sorted(ToFront(a, i))[0], Incumbent(ToFront(a, i), None), 1.0 + hysteresis);
  }

  lemma {:induction false} DecideSame(top: Candidate, top': Candidate, hub: Option<Candidate>, factor: real)
    requires top.id == top'.id && top.capability == top'.capability
    ensures Decide(top, hub, factor) == Decide(top', hub, factor)
  {
  }

  lemma {:induction false} Disagreement(a: seq<Candidate>, hysteresis: real) returns (b: seq<Candidate>)
    requires a != [] && !OrderFree(a, hysteresis)
    ensures Permutation(a, b) && !SameWinner(a, b, hysteresis)
  {
    hide CouldKeep, Winner, ToFront, Permutation, SameNodes;
    var g :| g in a && CouldKeep(a, g, hysteresis);
    var h :| h in a && h.isHub && h.id != g.id;
    var i :| 0 <= i < |a| && a[i] == g;
    var j :| 0 <= j < |a| && a[j] == h;
    FrontsDiffer(a, i, j, hysteresis);
    ToFrontPermutes(a, i);
    ToFrontPermutes(a, j);
    b := if SameWinner(a, ToFront(a, i), hysteresis) then ToFront(a, j) else ToFront(a, i);
  }

  lemma {:induction false} FrontsDiffer(a: seq<Candidate>, i: nat, j: nat, hysteresis: real)
    requires i < |a| && j < |a| && CouldKeep(a, a[i], hysteresis) && a[j].isHub && a[j].id != a[i].id
    ensures Winner(ToFront(a, i), None, hysteresis) != Winner(ToFront(a, j), None, hysteresis)
  {
    hide Sorted, Winner, ToFront;
    FrontIsIncumbent(a, i, hysteresis);
    FrontIsIncumbent(a, j, hysteresis);
  }

  /** Two nodes flagged as hub for which the order does matter. */
  lemma {:induction false} TwoHubsDisagree()
    ensures exists a, b ::
      && multiset(a) == multiset(b) && Identified(a) && a != [] && b != []
      && Winner(a, None, HYSTERESIS_MARGIN) != Winner(b, None, HYSTERESIS_MARGIN)
  {
    var x, y := Candidate("x", "n", 10.0, true), Candidate("y", "n", 11.0, true);
    var a, b := [x, y], [y, x];
    assert multiset(a) == multiset(b);
    assert a[..1] == [x] && a[..0] == [] && b[..1] == [y] && b[..0] == [];
    assert Sorted([x]) == [x] && Sorted([y]) == [y];
    assert Sorted(a) == [y, x];
    assert Sorted(b) == [y, x] by {
      assert !Before(x, y);
      assert Insert(x, [y]) == [y] + Insert(x, []);
    }
    assert Winner(a, None, HYSTERESIS_MARGIN) == "x" && Winner(b, None, HYSTERESIS_MARGIN) == "y";
  }

  lemma {:induction false} WinnerIsListed(nodes: seq<Candidate>, named: Option<string>, hysteresis: real)
    requires nodes != []
    ensures exists n :: n in nodes && n.id == Winner(nodes, named, hysteresis)
  {
    SortedHeadIsTop(nodes);
    match Incumbent(nodes, named)
    case None =>
    case Some(hub) =>
      FindFinds(nodes, (if named.Some? then named else FirstHub(nodes)).value);
  }

  /** Agreement: when every listed node runs the election on its own ordering of one list,
      exactly one of them comes out with `is_hub` set. */
  lemma {:induction false} Agreement(all: seq<Candidate>, views: map<string, seq<Candidate>>)
    requires all != [] && Identified(all) && OrderFree(all, HYSTERESIS_MARGIN)
    requires forall n :: n in all ==> n.id in views
    requires forall id :: id in views ==> SameNodes(all, views[id])
    ensures exists w :: w in views && forall id :: id in views ==> (EndsAsHub(id, views[id]) <==> id == w)
  {
    var w := Winner(all, None, HYSTERESIS_MARGIN);
    WinnerIsListed(all, None, HYSTERESIS_MARGIN);
    assert w in views;
    forall id | id in views ensures EndsAsHub(id, views[id]) <==> id == w {
      assert all[0] in views[id];
      OrderIndependence(all, views[id], None, HYSTERESIS_MARGIN);
    }
  }

  // ---------------------------------------------------------------- what an election means

  /** `w` is listed, and every listed node scores less, or as much under a later name, or as much under
      the same name with an id no earlier. */
  ghost predicate FirstRanked(nodes: seq<Candidate>, w: Candidate) {
    w in nodes && forall n :: n in nodes ==>
      || n.capability < w.capability
      || (n.capability == w.capability && Less(w.name, n.name))
      || (n.capability == w.capability && n.name == w.name && !Less(n.id, w.id))
  }

  lemma {:induction false} NotBefore(n: Candidate, w: Candidate)
    ensures !Before(n, w) <==>
      || n.capability < w.capability
      || (n.capability == w.capability && Less(w.name, n.name))
      || (n.capability == w.capability && n.name == w.name && !Less(n.id, w.id))
  {
    Total(n.name, w.name);
    Irreflexive(n.name);
    if Less(n.name, w.name) && Less(w.name, n.name) {
      Transitive(n.name, w.name, n.name);
    }
  }

  lemma {:induction false} TopIsFirstRanked(nodes: seq<Candidate>, t: Candidate)
    requires IsTop(nodes, t)
    ensures FirstRanked(nodes, t)
  {
    forall n | n in nodes
      ensures n.capability < t.capability || (n.capability == t.capability && Less(t.name, n.name))
        || (n.capability == t.capability && n.name == t.name && !Less(n.id, t.id))
    {
      NotBefore(n, t);
    }
  }

  lemma {:induction false} OneFirstRanked(nodes: seq<Candidate>, v: Candidate, w: Candidate)
    requires FirstRanked(nodes, v) && FirstRanked(nodes, w)
    ensures v.id == w.id && v.capability == w.capability
  {
    NotBefore(v, w);
    NotBefore(w, v);
    BeforeIsOrder(v, w, v);
  }

  /** The incumbent: the named node, or the first that is flagged; an empty id names nobody. */
  ghost predicate IsIncumbent(nodes: seq<Candidate>, named: Option<string>, g: Candidate) {
    && g in nodes && g.id != ""
    && match named
       case Some(id) => g.id == id
       case None => exists i :: 0 <= i < |nodes| && nodes[i] == g && FirstFlagged(nodes, i)
  }

  ghost predicate FirstFlagged(nodes: seq<Candidate>, i: nat)
    requires i < |nodes|
  {
    nodes[i].isHub && forall j :: 0 <= j < i ==> !nodes[j].isHub
  }

  lemma {:induction false} FirstHubIs(nodes: seq<Candidate>)
    ensures FirstHub(nodes).Some? ==>
      exists i :: 0 <= i < |nodes| && FirstFlagged(nodes, i) && FirstHub(nodes) == Some(nodes[i].id)
    ensures FirstHub(nodes).None? ==> forall i :: 0 <= i < |nodes| ==> !nodes[i].isHub
  {
    if nodes != [] {
      FirstHubIs(nodes[1..]);
      if nodes[0].isHub {
        assert FirstFlagged(nodes, 0);
      } else if FirstHub(nodes).Some? {
        var i :| 0 <= i < |nodes[1..]| && FirstFlagged(nodes[1..], i) && FirstHub(nodes[1..]) == Some(nodes[1..][i].id);
        assert FirstFlagged(nodes, i + 1) by {
          forall j | 0 <= j < i + 1 ensures !nodes[j].isHub {
            if j > 0 {
              assert nodes[1..][j - 1] == nodes[j];
            }
          }
        }
      }
    }
  }

  lemma {:induction false} IncumbentIs(nodes: seq<Candidate>, named: Option<string>, g: Candidate)
    requires Identified(nodes)
    ensures Incumbent(nodes, named) == Some(g) <==> IsIncumbent(nodes, named, g)
  {
    match named
    case Some(id) => FindFinds(nodes, id);
    case None =>
      FirstHubIs(nodes);
      if FirstHub(nodes).Some? {
        var i :| 0 <= i < |nodes| && FirstFlagged(nodes, i) && FirstHub(nodes) == Some(nodes[i].id);
        FindFinds(nodes, nodes[i].id);
        assert nodes[i] in nodes;
      }
  }

  /** The election in full: the first-ranked node, of which there is one, wins unless another node is the
      incumbent and is not beaten by the margin; then the incumbent does. */
  lemma {:induction false} ElectionMeans(nodes: seq<Candidate>, named: Option<string>, hysteresis: real)
    requires nodes != [] && Identified(nodes)
    ensures exists w :: FirstRanked(nodes, w)
    ensures (forall g :: g in nodes ==> !IsIncumbent(nodes, named, g)) ==>
      forall w :: FirstRanked(nodes, w) ==> Winner(nodes, named, hysteresis) == w.id
    ensures forall g, w :: IsIncumbent(nodes, named, g) && FirstRanked(nodes, w) ==>
      Winner(nodes, named, hysteresis) ==
        if g.id != w.id && w.capability <= g.capability * (1.0 + hysteresis) then g.id else w.id
  {
    hide Sorted, Incumbent, FirstRanked, IsIncumbent, IsTop, Identified;
    var top := Sorted(nodes)[0];
    SortedHeadIsTop(nodes);
    TopIsFirstRanked(nodes, top);
    if Incumbent(nodes, named).Some? {
      IncumbentIs(nodes, named, Incumbent(nodes, named).value);
      IncumbentListed(nodes, named);
    }
    forall g, w | IsIncumbent(nodes, named, g) && FirstRanked(nodes, w)
      ensures Winner(nodes, named, hysteresis) ==
        if g.id != w.id && w.capability <= g.capability * (1.0 + hysteresis) then g.id else w.id
    {
      IncumbentIs(nodes, named, g);
      OneFirstRanked(nodes, w, top);
    }
    forall w | FirstRanked(nodes, w) ensures w.id == top.id {
      OneFirstRanked(nodes, w, top);
    }
  }

  // ---------------------------------------------------------------- hysteresis

  /** The margin from both sides: the role moves away from an incumbent exactly when some node
      beats it by more than the margin, and it moves to a node no listed node is ranked before. */
  lemma {:induction false} RoleMoves(nodes: seq<Candidate>, named: Option<string>, hysteresis: real)
    requires nodes != [] && Identified(nodes) && hysteresis >= 0.0
    requires Incumbent(nodes, named).Some? && Incumbent(nodes, named).value.capability >= 0.0
    ensures var hub := Incumbent(nodes, named).value; var w := Winner(nodes, named, hysteresis);
      && (w != hub.id <==> exists n :: n in nodes && n.capability > hub.capability * (1.0 + hysteresis))
      && (w != hub.id ==> exists t :: IsTop(nodes, t) && t.id == w)
  {
    hide Sorted, FirstHub, Find;
    var hub := Incumbent(nodes, named).value;
    SortedHeadIsTop(nodes);
    IncumbentListed(nodes, named);
    Margin(hub.capability, hysteresis);
    DecideMoves(nodes, Sorted(nodes)[0], hub, 1.0 + hysteresis);
  }

  lemma {:induction false} IncumbentListed(nodes: seq<Candidate>, named: Option<string>)
    requires Incumbent(nodes, named).Some?
    ensures Incumbent(nodes, named).value in nodes
  {
    FindFinds(nodes, (if named.Some? then named else FirstHub(nodes)).value);
  }

  lemma {:induction false} Margin(capability: real, hysteresis: real)
    requires capability >= 0.0 && hysteresis >= 0.0
    ensures capability <= capability * (1.0 + hysteresis)
  {
    assert capability * hysteresis >= 0.0;
  }

  lemma {:induction false} DecideMoves(nodes: seq<Candidate>, top: Candidate, hub: Candidate, factor: real)
    requires IsTop(nodes, top) && hub in nodes && Identified(nodes) && hub.capability <= hub.capability * factor
    ensures Decide(top, Some(hub), factor) != hub.id <==>
      exists n :: n in nodes && n.capability > hub.capability * factor
    ensures Decide(top, Some(hub), factor) != hub.id ==> Decide(top, Some(hub), factor) == top.id
  {
    TopScores(nodes, top);
    AboveThreshold(nodes, top, hub, hub.capability * factor);
  }

  lemma {:induction false} TopScores(nodes: seq<Candidate>, top: Candidate)
    requires IsTop(nodes, top)
    ensures forall n :: n in nodes ==> n.capability <= top.capability
  {
    forall n | n in nodes ensures n.capability <= top.capability {
      assert !Before(n, top);
    }
  }

  lemma {:induction false} AboveThreshold(nodes: seq<Candidate>, top: Candidate, hub: Candidate, threshold: real)
    requires top in nodes && hub in nodes && Identified(nodes)
    requires forall n :: n in nodes ==> n.capability <= top.capability
    ensures top.capability > threshold <==> exists n :: n in nodes && n.capability > threshold
    ensures threshold >= hub.capability && top.capability > threshold ==> hub.id != top.id
  {
  }

  /** Whichever branch decided, no listed node exceeds the winner by more than the margin. */
  lemma {:induction false} NobodyFarAhead(
    nodes: seq<Candidate>, named: Option<string>, hysteresis: real, w: Candidate, n: Candidate)
    requires Identified(nodes) && w in nodes && n in nodes && hysteresis >= 0.0
    requires forall m :: m in nodes ==> m.capability >= 0.0
    requires w.id == Winner(nodes, named, hysteresis)
    ensures n.capability <= w.capability * (1.0 + hysteresis)
  {
    SortedHeadIsTop(nodes);
    TopScores(nodes, Sorted(nodes)[0]);
    Margin(w.capability, hysteresis);
    if Incumbent(nodes, named).Some? {
      IncumbentListed(nodes, named);
    }
  }

  ghost predicate RoundedFrom(raw: real, capability: real) {
    capability >= 0.0 && exists r :: Rounds(raw, r) && capability == r as real / 100.0
  }

  /** Rounding the scores before the comparison costs at most 0.011 points of real capability. */
  lemma {:induction false} RoundingBound(nodes: seq<Candidate>, raw: map<string, real>, w: Candidate, n: Candidate)
    requires Identified(nodes) && w in nodes && n in nodes
    requires w.id == Winner(nodes, None, HYSTERESIS_MARGIN)
    requires forall m :: m in nodes ==> m.id in raw && RoundedFrom(raw[m.id], m.capability)
    ensures raw[n.id] <= 1.2 * raw[w.id] + 0.011
  {
    NobodyFarAhead(nodes, None, HYSTERESIS_MARGIN, w, n);
    var rw :| Rounds(raw[w.id], rw) && w.capability == rw as real / 100.0;
    var rn :| Rounds(raw[n.id], rn) && n.capability == rn as real / 100.0;
    assert rn as real <= 1.2 * rw as real;
  }

  // ---------------------------------------------------------------- re-election

  /** The list as the next election sees it once `w` alone holds the hub role. */
  function Reflag(nodes: seq<Candidate>, w: string): (r: seq<Candidate>)
    ensures |r| == |nodes|
    ensures forall i :: 0 <= i < |r| ==> r[i] == nodes[i].(isHub := nodes[i].id == w)
  {
    seq(|nodes|, i requires 0 <= i < |nodes| => nodes[i].(isHub := nodes[i].id == w))
  }

  /** Electing again when nothing but the role has changed keeps the winner. */
  lemma {:induction false} Reelection(nodes: seq<Candidate>, hysteresis: real)
    requires nodes != [] && Identified(nodes)
    ensures var w := Winner(nodes, None, hysteresis); Winner(Reflag(nodes, w), None, hysteresis) == w
  {
    var w := Winner(nodes, None, hysteresis);
    ReflagTop(nodes, w);
    WinnerIsListed(nodes, None, hysteresis);
    ReflagIncumbent(nodes, w);
    WinnerIsIncumbent(nodes, hysteresis);
    DecideAgain(Sorted(nodes)[0], Incumbent(nodes, None), Sorted(Reflag(nodes, w))[0],
                Incumbent(Reflag(nodes, w), None), 1.0 + hysteresis);
  }

  /** A winner who is not at the top was the incumbent, and has a name. */
  lemma {:induction false} WinnerIsIncumbent(nodes: seq<Candidate>, hysteresis: real)
    requires nodes != [] && Identified(nodes)
    ensures var w := Winner(nodes, None, hysteresis);
      w != Sorted(nodes)[0].id ==>
        && Incumbent(nodes, None).Some? && Incumbent(nodes, None).value in nodes
        && Incumbent(nodes, None).value.id == w != ""
  {
    if Incumbent(nodes, None).Some? {
      FindFinds(nodes, FirstHub(nodes).value);
    }
  }

  /** The decision depends on ids and scores only, and is settled once its outcome is the incumbent. */
  lemma {:induction false} DecideAgain(
    top: Candidate, hub: Option<Candidate>, top': Candidate, hub': Option<Candidate>, factor: real)
    requires top.id == top'.id && top.capability == top'.capability
    requires hub'.Some? ==> hub'.value.id == Decide(top, hub, factor)
    requires Decide(top, hub, factor) != top.id ==>
      hub.Some? && hub'.Some? && hub'.value.capability == hub.value.capability
    ensures hub'.Some? || Decide(top, hub, factor) == top.id ==> Decide(top', hub', factor) == Decide(top, hub, factor)
  {
  }

  lemma {:induction false} ReflagTop(nodes: seq<Candidate>, w: string)
    requires nodes != []
    ensures Sorted(Reflag(nodes, w))[0].id == Sorted(nodes)[0].id
    ensures Sorted(Reflag(nodes, w))[0].capability == Sorted(nodes)[0].capability
  {
    var again := Reflag(nodes, w);
    var top, top' := Sorted(nodes)[0], Sorted(again)[0];
    SortedHeadIsTop(nodes);
    SortedHeadIsTop(again);
    var i :| 0 <= i < |nodes| && nodes[i] == top;
    var j :| 0 <= j < |again| && again[j] == top';
    assert again[i] in again && nodes[j] in nodes;
    assert !Before(again[i], top') && !Before(nodes[j], top);
    BeforeIsOrder(top, top', top);
  }

  lemma {:induction false} ReflagIncumbent(nodes: seq<Candidate>, w: string)
    requires Identified(nodes) && exists n :: n in nodes && n.id == w
    ensures w == "" ==> Incumbent(Reflag(nodes, w), None) == None
    ensures w != "" ==>
      exists n :: n in nodes && n.id == w && Incumbent(Reflag(nodes, w), None) == Some(n.(isHub := true))
  {
    var again := Reflag(nodes, w);
    var n :| n in nodes && n.id == w;
    var k :| 0 <= k < |nodes| && nodes[k] == n;
    assert again[k].isHub && again[k] in again;
    FirstHubFinds(again);
    assert FirstHub(again) == Some(w);
    FindFinds(again, w);
    if w != "" {
      var h := Find(again, w).value;
      var j :| 0 <= j < |again| && again[j] == h;
      assert nodes[j] in nodes;
    }
  }

  // ---------------------------------------------------------------- bounded transfers

  /** A score in 0..60 with two decimals. */
  predicate IsScore(c: real) {
    0.0 <= c <= 60.0 && 100.0 * c == (100.0 * c).Floor as real
  }

  function Elected(nodes: seq<Candidate>): string
    requires nodes != []
  {
    Winner(nodes, None, HYSTERESIS_MARGIN)
  }

  /** Successive elections: each list flags exactly the previous winner as hub, who is still
      listed and whose score has not dropped since. */
  ghost predicate Tenures(rounds: seq<seq<Candidate>>) {
    var k := |rounds| - 1;
    rounds != [] ==>
      && RoundOk(rounds[k])
      && (k > 0 ==> Tenures(rounds[..k]) && rounds[k - 1] != [] && Succeeds(rounds[k - 1], rounds[k]))
  }

  ghost predicate RoundOk(nodes: seq<Candidate>) {
    && nodes != [] && Identified(nodes)
    && (forall n :: n in nodes ==> n.id != "" && IsScore(n.capability))
  }

  ghost predicate Succeeds(before: seq<Candidate>, after: seq<Candidate>)
    requires before != []
  {
    && (exists n :: n in after && n.id == Elected(before))
    && (forall n :: n in after ==> (n.isHub <==> n.id == Elected(before)))
    && (forall m, n :: m in before && n in after && m.id == n.id == Elected(before) ==> m.capability <= n.capability)
  }

  ghost function Transfers(rounds: seq<seq<Candidate>>): nat
    requires Tenures(rounds)
  {
    var k := |rounds| - 1;
    if k <= 0 then 0
    else Transfers(rounds[..k]) + (if Elected(rounds[k]) != Elected(rounds[k - 1]) then 1 else 0)
  }

  /** The least score in hundredths that can hold the role after `k` transfers. */
  function Least(k: nat): nat {
    if k == 0 then 0 else 6 * Least(k - 1) / 5 + 1
  }

  lemma {:induction false} LeastGrows(j: nat, k: nat)
    requires j <= k
    ensures Least(j) <= Least(k)
    decreases k
  {
    if j < k {
      LeastGrows(j, k - 1);
    }
  }

  lemma {:induction false} ThreeRungs(k: nat, a: nat, b: nat, c: nat, d: nat)
    requires Least(k) == a && b == 6 * a / 5 + 1 && c == 6 * b / 5 + 1 && d == 6 * c / 5 + 1
    ensures Least(k + 2) == c && Least(k + 3) == d
  {
    LeastNext(k);
    LeastNext(k + 1);
    LeastNext(k + 2);
  }

  lemma {:induction false} LeastLadder()
    ensures Least(41) == 5719 && Least(42) == 6863
  {
    hide Least;
    LeastZero();
    ThreeRungs(0, 0, 1, 2, 3);
    ThreeRungs(3, 3, 4, 5, 7);
    ThreeRungs(6, 7, 9, 11, 14);
    ThreeRungs(9, 14, 17, 21, 26);
    ThreeRungs(12, 26, 32, 39, 47);
    ThreeRungs(15, 47, 57, 69, 83);
    ThreeRungs(18, 83, 100, 121, 146);
    ThreeRungs(21, 146, 176, 212, 255);
    ThreeRungs(24, 255, 307, 369, 443);
    ThreeRungs(27, 443, 532, 639, 767);
    ThreeRungs(30, 767, 921, 1106, 1328);
    ThreeRungs(33, 1328, 1594, 1913, 2296);
    ThreeRungs(36, 2296, 2756, 3308, 3970);
    ThreeRungs(39, 3970, 4765, 5719, 6863);
  }

  lemma {:induction false} LeastZero()
    ensures Least(0) == 0
  {
  }

  /** One step of a tenure: keeping the role keeps the score, a transfer raises it past 6/5. */
  lemma {:induction false} TenureStep(before: seq<Candidate>, after: seq<Candidate>, v: Candidate, w: Candidate)
    requires RoundOk(before) && RoundOk(after) && Succeeds(before, after)
    requires v in before && v.id == Elected(before) && w in after && w.id == Elected(after)
    ensures v.capability <= w.capability
    ensures v.id != w.id ==> 5.0 * w.capability > 6.0 * v.capability
  {
    var hub :| hub in after && hub.id == Elected(before);
    FirstHubFinds(after);
    assert FirstHub(after) == Some(hub.id);
    FindFinds(after, hub.id);
    assert Incumbent(after, None) == Some(hub);
    assert v.capability <= hub.capability;
    SortedHeadIsTop(after);
  }

  lemma {:induction false} HubScoreLadder(rounds: seq<seq<Candidate>>, w: Candidate)
    requires rounds != [] && Tenures(rounds)
    requires w in rounds[|rounds| - 1] && w.id == Elected(rounds[|rounds| - 1])
    ensures Least(Transfers(rounds)) as real <= 100.0 * w.capability
    decreases |rounds|
  {
    hide Winner, Succeeds, Identified;
    var k := |rounds| - 1;
    if k == 0 {
      assert RoundOk(rounds[0]) && IsScore(w.capability);
    } else {
      var earlier, before := rounds[..k], rounds[k - 1];
      LastRound(rounds);
      WinnerIsListed(before, None, HYSTERESIS_MARGIN);
      var v :| v in before && v.id == Elected(before);
      HubScoreLadder(earlier, v);
      ClimbLeast(Transfers(earlier), before, rounds[k], v, w);
    }
  }

  lemma {:induction false} ClimbLeast(k: nat, before: seq<Candidate>, after: seq<Candidate>, v: Candidate, w: Candidate)
    requires RoundOk(before) && RoundOk(after) && Succeeds(before, after)
    requires v in before && v.id == Elected(before) && w in after && w.id == Elected(after)
    requires Least(k) as real <= 100.0 * v.capability
    ensures Least(k + if Elected(after) != Elected(before) then 1 else 0) as real <= 100.0 * w.capability
  {
    Climb(Least(k), before, after, v, w);
    LeastNext(k);
  }

  lemma {:induction false} LastRound(rounds: seq<seq<Candidate>>)
    requires |rounds| > 1 && Tenures(rounds)
    ensures var k := |rounds| - 1; var before, after := rounds[k - 1], rounds[k];
      && Tenures(rounds[..k]) && rounds[..k][k - 1] == before
      && RoundOk(before) && RoundOk(after) && Succeeds(before, after)
      && Transfers(rounds) == Transfers(rounds[..k]) + if Elected(after) != Elected(before) then 1 else 0
  {
    var k := |rounds| - 1;
    assert rounds[..k][k - 1] == rounds[k - 1];
  }

  lemma {:induction false} LeastNext(k: nat)
    ensures Least(k + 1) == 6 * Least(k) / 5 + 1
  {
  }

  lemma {:induction false} Climb(l: nat, before: seq<Candidate>, after: seq<Candidate>, v: Candidate, w: Candidate)
    requires RoundOk(before) && RoundOk(after) && Succeeds(before, after)
    requires v in before && v.id == Elected(before) && w in after && w.id == Elected(after)
    requires l as real <= 100.0 * v.capability
    ensures (if v.id != w.id then 6 * l / 5 + 1 else l) as real <= 100.0 * w.capability
  {
    TenureStep(before, after, v, w);
    assert IsScore(w.capability);
    if v.id != w.id {
      ScoreStep(l, 100.0 * v.capability, 100.0 * w.capability);
    }
  }

  lemma {:induction false} ScoreStep(l: nat, v: real, w: real)
    requires l as real <= v && 5.0 * w > 6.0 * v && w == w.Floor as real
    ensures (6 * l / 5 + 1) as real <= w
  {
    assert 5 * w.Floor > 6 * l;
  }

  /** While incumbents stay online and do not shrink, the role changes hands at most 41 times. */
  lemma {:induction false} BoundedTransfers(rounds: seq<seq<Candidate>>)
    requires Tenures(rounds)
    ensures Transfers(rounds) <= 41
  {
    if rounds != [] {
      var last := rounds[|rounds| - 1];
      WinnerIsListed(last, None, HYSTERESIS_MARGIN);
      var w :| w in last && w.id == Elected(last);
      HubScoreLadder(rounds, w);
      assert IsScore(w.capability);
      LeastLadder();
      if Transfers(rounds) > 41 {
        LeastGrows(42, Transfers(rounds));
      }
    }
  }

  function LadderId(i: nat): string {
    if i % 2 == 0 then "a" else "b"
  }

  /** Two nodes overtaking each other by the smallest margin that counts. */
  function Rung(i: nat): seq<Candidate> {
    var challenger := Candidate(LadderId(i), "", Least(i) as real / 100.0, false);
    if i == 0 then [challenger]
    else [challenger, Candidate(LadderId(i - 1), "", Least(i - 1) as real / 100.0, true)]
  }

  lemma {:induction false} RungIsRound(i: nat)
    requires i <= 41
    ensures RoundOk(Rung(i))
  {
    RungScore(i);
    if i > 0 {
      RungScore(i - 1);
      LadderIdsDiffer(i);
      PairIsRound(Rung(i)[0], Rung(i)[1]);
    }
  }

  lemma {:induction false} PairIsRound(a: Candidate, b: Candidate)
    requires a.id != b.id && a.id != "" && b.id != "" && IsScore(a.capability) && IsScore(b.capability)
    ensures RoundOk([a, b])
  {
  }

  lemma {:induction false} LadderIdsDiffer(i: nat)
    requires i > 0
    ensures LadderId(i) != LadderId(i - 1)
  {
    assert LadderId(i)[0] != LadderId(i - 1)[0];
  }

  lemma {:induction false} RungScore(i: nat)
    requires i <= 41
    ensures IsScore(Least(i) as real / 100.0)
  {
    LeastLadder();
    LeastGrows(i, 41);
    HundredthsAreScores(Least(i));
  }

  lemma {:induction false} HundredthsAreScores(l: nat)
    requires l <= 6000
    ensures IsScore(l as real / 100.0)
  {
    assert 100.0 * (l as real / 100.0) == l as real;
  }

  lemma {:induction false} RungElects(i: nat)
    ensures Elected(Rung(i)) == LadderId(i)
  {
    var r := Rung(i);
    SortedHeadIsTop(r);
    if i == 0 {
      assert Sorted(r)[0] == r[0];
      assert r[1..] == [];
      assert FirstHub(r) == FirstHub(r[1..]) == None;
    } else {
      var l, p := Least(i), Least(i - 1);
      assert 5 * l > 6 * p;
      assert l as real / 100.0 > (p as real / 100.0) * 1.2;
      assert Before(r[0], r[1]);
      assert Sorted(r)[0] == r[0];
      assert r[1..] == [r[1]];
      assert FirstHub(r) == FirstHub(r[1..]) == Some(r[1].id);
      assert Find(r, r[1].id) == Find(r[1..], r[1].id) == Some(r[1]);
    }
  }

  lemma {:induction false} RungSucceeds(i: nat)
    requires 1 <= i
    ensures Succeeds(Rung(i - 1), Rung(i))
  {
    hide Elected, Least;
    RungElects(i - 1);
    var before, after := Rung(i - 1), Rung(i);
    assert after[1] in after && after[1].id == Elected(before);
  }

  function Ladder(n: nat): seq<seq<Candidate>> {
    if n == 0 then [] else Ladder(n - 1) + [Rung(n - 1)]
  }

  lemma {:induction false} LadderTransfers(n: nat)
    requires 1 <= n <= 42
    ensures |Ladder(n)| == n && Ladder(n)[n - 1] == Rung(n - 1)
    ensures Tenures(Ladder(n)) && Transfers(Ladder(n)) == n - 1
  {
    RungIsRound(n - 1);
    assert Ladder(n)[..|Ladder(n - 1)|] == Ladder(n - 1);
    if n > 1 {
      LadderTransfers(n - 1);
      RungElects(n - 1);
      RungElects(n - 2);
      RungSucceeds(n - 1);
    } else {
      assert Ladder(1) == [Rung(0)];
    }
  }

  /** The bound is exact: some history of elections does transfer the role 41 times. */
  lemma {:induction false} BoundReached()
    ensures exists rounds :: Tenures(rounds) && Transfers(rounds) == 41
  {
    LadderTransfers(42);
  }
}
