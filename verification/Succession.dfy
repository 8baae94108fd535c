/** Whole histories of the registry, election after election: how often the role can change hands,
    and how good a hub the elected node is. */
module Succession {
  import opened Options
  import opened Capability
  import opened Election
  import opened Tables
  import opened Registry

  /** Statements of any kind but a commit, and then an election over the rows in the given order. */
  datatype Term = Term(gap: seq<Event>, order: seq<string>)

  ghost predicate Lawful(terms: seq<Term>)
    decreases |terms|, 0
  {
    terms == [] ||
    var front, last := terms[..|terms| - 1], terms[|terms| - 1];
    && Lawful(front) && Legal(After(front), last.gap) && last.order != []
    && (forall e :: e in last.gap ==> !e.ElectCommit?)
    && Enabled(Exec(After(front), last.gap), ElectSelect(last.order))
  }

  ghost function After(terms: seq<Term>): State
    requires Lawful(terms)
    decreases |terms|, 2
  {
    if terms == [] then INIT else Elect(Polled(terms), terms[|terms| - 1].order)
  }

  /** The state the last election reads. */
  ghost function Polled(terms: seq<Term>): State
    requires Lawful(terms) && terms != []
    decreases |terms|, 1
  {
    Exec(After(terms[..|terms| - 1]), terms[|terms| - 1].gap)
  }

  ghost function LastBallot(terms: seq<Term>): (b: seq<Candidate>)
    requires Lawful(terms) && terms != []
    ensures b != []
  {
    Ballot(Polled(terms).store.nodes, terms[|terms| - 1].order)
  }

  ghost predicate Plausible(nodes: map<string, NodeRow>) {
    forall id :: id in nodes ==> id != "" && nodes[id].storageTotalGb >= 0.0
  }

  /** A node's score as an election computes it. */
  function ScoreOf(nodes: map<string, NodeRow>, id: string): real
    requires id in nodes
  {
    CandidateOf(id, nodes[id]).capability
  }

  /** At each election the incumbent is online and scores no lower than when it was elected. */
  ghost predicate Steady(terms: seq<Term>)
    requires Lawful(terms)
    decreases |terms|
  {
    terms == [] ||
    var front, nodes := terms[..|terms| - 1], Polled(terms).store.nodes;
    && Steady(front) && Plausible(nodes)
    && (front != [] ==>
         var w, before := Elected(LastBallot(front)), Polled(front).store.nodes;
         w in OnlineIds(nodes) && (w in before ==> ScoreOf(before, w) <= ScoreOf(nodes, w)))
  }

  /** How often the last committed winner changes from one election to the next. */
  ghost function HubChanges(terms: seq<Term>): nat
    requires Lawful(terms)
    decreases |terms|
  {
    if |terms| <= 1 then 0
    else
      var front := terms[..|terms| - 1];
      HubChanges(front) + (if After(terms).lastWinner != After(front).lastWinner then 1 else 0)
  }

  ghost function Ballots(terms: seq<Term>): (bs: seq<seq<Candidate>>)
    requires Lawful(terms)
    ensures |bs| == |terms|
    ensures terms != [] ==> bs[|terms| - 1] == LastBallot(terms)
    decreases |terms|
  {
    if terms == [] then [] else Ballots(terms[..|terms| - 1]) + [LastBallot(terms)]
  }

  /** After a lawful history the invariant holds, and the winner of its last ballot is the hub. */
  lemma {:induction false} HistoryInv(terms: seq<Term>)
    requires Lawful(terms)
    ensures Inv(After(terms))
    ensures terms != [] ==> Inv(Polled(terms)) && After(terms).lastWinner == Some(Elected(LastBallot(terms)))
    decreases |terms|
  {
    if terms != [] {
      var front, last := terms[..|terms| - 1], terms[|terms| - 1];
      HistoryInv(front);
      InvRun(After(front), last.gap);
      ElectionSeatsOne(Polled(terms), last.order);
    }
  }

  lemma {:induction false} WinnerStays(s: State, gap: seq<Event>)
    requires Legal(s, gap) && forall e :: e in gap ==> !e.ElectCommit?
    ensures Exec(s, gap).lastWinner == s.lastWinner
    decreases |gap|
  {
    if gap != [] {
      assert gap[0] in gap;
      WinnerStays(Apply(s, gap[0]), gap[1..]);
    }
  }

  lemma {:induction false} BallotIsRound(terms: seq<Term>)
    requires Lawful(terms) && terms != [] && Plausible(Polled(terms).store.nodes)
    ensures RoundOk(LastBallot(terms))
  {
    var nodes, order := Polled(terms).store.nodes, terms[|terms| - 1].order;
    BallotMembers(nodes, order);
    BallotScores(nodes, order);
  }

  lemma {:induction false} BallotFollows(terms: seq<Term>)
    requires Lawful(terms) && |terms| > 1 && Steady(terms)
    ensures Succeeds(LastBallot(terms[..|terms| - 1]), LastBallot(terms))
  {
    var front, last := terms[..|terms| - 1], terms[|terms| - 1];
    HistoryInv(front);
    HistoryInv(terms);
    WinnerStays(After(front), last.gap);
    BallotsSucceed(Polled(front).store.nodes, front[|front| - 1].order, Polled(terms), last.order);
  }

  /** One more round. */
  lemma {:induction false} TenuresSnoc(rounds: seq<seq<Candidate>>, next: seq<Candidate>)
    requires Tenures(rounds) && RoundOk(next)
    requires rounds != [] ==> rounds[|rounds| - 1] != [] && Succeeds(rounds[|rounds| - 1], next)
    ensures Tenures(rounds + [next])
    ensures Transfers(rounds + [next]) == Transfers(rounds)
      + if rounds != [] && Elected(next) != Elected(rounds[|rounds| - 1]) then 1 else 0
  {
    hide RoundOk, Succeeds, Elected;
    var all := rounds + [next];
    assert all[..|rounds|] == rounds;
    if rounds != [] {
      assert all[|rounds| - 1] == rounds[|rounds| - 1];
    }
  }

  lemma {:induction false} RoundsAreTenures(terms: seq<Term>)
    requires Lawful(terms) && Steady(terms)
    ensures Tenures(Ballots(terms)) && Transfers(Ballots(terms)) == HubChanges(terms)
    decreases |terms|
  {
    hide Tenures, Transfers, RoundOk, Succeeds, Elected, After, Polled, LastBallot;
    if terms == [] {
      NoRounds();
    } else {
      var front := terms[..|terms| - 1];
      RoundsAreTenures(front);
      BallotIsRound(terms);
      if front != [] {
        BallotFollows(terms);
        HistoryInv(terms);
        HistoryInv(front);
      }
      TenuresSnoc(Ballots(front), LastBallot(terms));
    }
  }

  lemma {:induction false} NoRounds()
    ensures Tenures([]) && Transfers([]) == 0
  {
  }

  /** Over any number of elections, with registrations, heartbeats and sweeps between them: while each
      incumbent is online at the next election and has not shrunk, the hub changes at most 41 times. */
  lemma {:induction false} HubChangesBounded(terms: seq<Term>)
    requires Lawful(terms) && Steady(terms)
    ensures HubChanges(terms) <= 41
  {
    RoundsAreTenures(terms);
    BoundedTransfers(Ballots(terms));
  }

  /** No online row's real score exceeds 1.2 times the elected row's by more than 0.011. */
  lemma {:induction false} ElectedIsGoodEnough(nodes: map<string, NodeRow>, order: seq<string>, id: string)
    requires Enumerates(order, OnlineIds(nodes)) && id in order
    requires forall n :: n in nodes ==> nodes[n].storageTotalGb >= 0.0
    ensures var w := Elected(Ballot(nodes, order));
      && w in nodes
      && RowScore(nodes[id].ramTotalMb, nodes[id].storageTotalGb)
           <= 1.2 * RowScore(nodes[w].ramTotalMb, nodes[w].storageTotalGb) + 0.011
  {
    var b := Ballot(nodes, order);
    var w := Elected(b);
    ElectedIsOnline(nodes, order);
    BallotMembers(nodes, order);
    var raw := map n | n in nodes :: RowScore(nodes[n].ramTotalMb, nodes[n].storageTotalGb);
    forall m | m in b ensures m.id in raw && RoundedFrom(raw[m.id], m.capability) {
      ScoreIsRounded(m.id, nodes[m.id]);
    }
    RoundingBound(b, raw, CandidateOf(w, nodes[w]), CandidateOf(id, nodes[id]));
  }

  lemma {:induction false} ScoreIsRounded(id: string, row: NodeRow)
    requires row.storageTotalGb >= 0.0
    ensures RoundedFrom(RowScore(row.ramTotalMb, row.storageTotalGb), CandidateOf(id, row).capability)
  {
    ScoreRange(row.ramTotalMb, 0, row.storageTotalGb, false);
    var r := Hundredths(RowScore(row.ramTotalMb, row.storageTotalGb));
    assert Rounds(RowScore(row.ramTotalMb, row.storageTotalGb), r);
  }
}
