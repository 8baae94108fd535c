/** What a whole session comes to, read off its messages alone: whom it lets in, what it answers, which
    futures it resolves and what it leaves in the tables. */
module SessionMeaning {
  import opened Options
  import opened Timestamps
  import T = Tables
  import R = RelayTables
  import opened SessionLoop

  // ---------------------------------------------------------------- the messages a session takes

  /** Position of the first snapshot, the length if there is none. */
  function FirstSnapshot(inbox: seq<Arrival>): (k: nat)
    ensures k <= |inbox|
  {
    if inbox == [] then 0
    else
      var k := FirstSnapshot(inbox[..|inbox| - 1]);
      if k < |inbox| - 1 || inbox[|inbox| - 1].message.Snapshot? then k else |inbox|
  }

  lemma {:induction false} FirstSnapshotIs(inbox: seq<Arrival>)
    ensures forall i :: 0 <= i < FirstSnapshot(inbox) ==> !inbox[i].message.Snapshot?
    ensures FirstSnapshot(inbox) < |inbox| ==> inbox[FirstSnapshot(inbox)].message.Snapshot?
  {
    if inbox != [] {
      FirstSnapshotIs(inbox[..|inbox| - 1]);
    }
  }

  /** Everything up to a first snapshot that does not name the session's own node. */
  function Taken(inbox: seq<Arrival>, nodeId: string): (taken: seq<Arrival>)
    ensures taken <= inbox
  {
    var k := FirstSnapshot(inbox);
    if k < |inbox| && inbox[k].message.Snapshot? && inbox[k].message.claimedId != Some(nodeId) then inbox[..k]
    else inbox
  }

  function FirstOutput(taken: seq<Arrival>, c: string): Option<R.Output> {
    if taken == [] then None
    else
      var before, m := FirstOutput(taken[..|taken| - 1], c), taken[|taken| - 1].message;
      if before.Some? then before else if m.Result? && m.cmdId == Some(c) then Some(m.output) else None
  }

  function Snapshots(taken: seq<Arrival>): seq<Arrival> {
    if taken == [] then []
    else
      Snapshots(taken[..|taken| - 1]) + (if taken[|taken| - 1].message.Snapshot? then [taken[|taken| - 1]] else [])
  }

  /** Adding one more message: either nothing changes after a rejection, or it rejects, or it is taken. */
  lemma {:induction false} TakenNext(inbox: seq<Arrival>, nodeId: string)
    requires inbox != []
    ensures var front, last := inbox[..|inbox| - 1], inbox[|inbox| - 1];
      Taken(inbox, nodeId) ==
        if Taken(front, nodeId) != front then Taken(front, nodeId)
        else if last.message.Snapshot? && FirstSnapshot(front) == |front| && last.message.claimedId != Some(nodeId)
        then front else inbox
  {
    var front := inbox[..|inbox| - 1];
    FirstSnapshotIs(front);
    if FirstSnapshot(front) < |front| {
      assert inbox[FirstSnapshot(front)] == front[FirstSnapshot(front)];
      assert inbox[..FirstSnapshot(front)] == front[..FirstSnapshot(front)];
    }
  }

  lemma {:induction false} SnapshotsNext(inbox: seq<Arrival>, nodeId: string)
    requires inbox != []
    ensures var front, last := inbox[..|inbox| - 1], inbox[|inbox| - 1];
      Snapshots(Taken(inbox, nodeId)) == Snapshots(Taken(front, nodeId))
        + (if last.message.Snapshot? && Taken(inbox, nodeId) == inbox then [last] else [])
  {
    hide Taken;
    TakenNext(inbox, nodeId);
  }

  lemma {:induction false} NoSnapshots(inbox: seq<Arrival>)
    ensures Snapshots(inbox) == [] <==> FirstSnapshot(inbox) == |inbox|
  {
    if inbox != [] {
      NoSnapshots(inbox[..|inbox| - 1]);
    }
  }

  // ---------------------------------------------------------------- one message more

  ghost predicate Fresh(v: Progress) {
    v.first && !v.rejected
  }

  function StampAt(a: Arrival): string
    requires T.Writable(a.now)
  {
    Stamp(T.WholeSecond(a.now))
  }

  lemma {:induction false} HandleLast(v: Progress, nodeId: string, inbox: seq<Arrival>)
    requires Readable(inbox) && inbox != []
    ensures var front, last := inbox[..|inbox| - 1], inbox[|inbox| - 1];
      Readable(front) && HandleAll(v, nodeId, inbox) ==
        Handle(HandleAll(v, nodeId, front), nodeId, last.message, StampAt(last))
  {
  }

  /** A session is rejected exactly at a first snapshot that names another node, and waits for its
      first snapshot exactly as long as it has taken none. */
  lemma {:induction false} WhoIsLetIn(v: Progress, nodeId: string, inbox: seq<Arrival>)
    requires Readable(inbox) && Fresh(v)
    ensures HandleAll(v, nodeId, inbox).rejected <==> Taken(inbox, nodeId) != inbox
    ensures HandleAll(v, nodeId, inbox).first <==> Snapshots(Taken(inbox, nodeId)) == []
  {
    if inbox != [] {
      var front, last := inbox[..|inbox| - 1], inbox[|inbox| - 1];
      WhoIsLetIn(v, nodeId, front);
      HandleLast(v, nodeId, inbox);
      TakenNext(inbox, nodeId);
      NoSnapshots(front);
      LetInNext(HandleAll(v, nodeId, front), nodeId, last.message, StampAt(last));
    }
  }

  lemma {:induction false} LetInNext(v: Progress, nodeId: string, m: Message, stamp: string)
    ensures var after := Handle(v, nodeId, m, stamp);
      && after.rejected == (v.rejected || (m.Snapshot? && v.first && m.claimedId != Some(nodeId)))
      && after.first == (v.first && !(m.Snapshot? && !after.rejected))
  {
  }

  // ---------------------------------------------------------------- what it answers

  /** Every message taken is answered once, in order, and nothing else is. */
  lemma {:induction false} Answers(v: Progress, nodeId: string, inbox: seq<Arrival>)
    requires Readable(inbox) && Fresh(v)
    ensures HandleAll(v, nodeId, inbox).replies == v.replies + RepliesTo(Taken(inbox, nodeId))
  {
    hide Handle, HandleAll, Taken, Stamp;
    if inbox == [] {
      NoAnswers(v, nodeId, inbox);
    } else {
      var front, last := inbox[..|inbox| - 1], inbox[|inbox| - 1];
      Answers(v, nodeId, front);
      WhoIsLetIn(v, nodeId, front);
      WhoIsLetIn(v, nodeId, inbox);
      HandleLast(v, nodeId, inbox);
      TakenNext(inbox, nodeId);
      AnswerNext(HandleAll(v, nodeId, front), nodeId, last.message, StampAt(last));
      RepliesSnoc(front, last);
      assert inbox == front + [last];
    }
  }

  lemma {:induction false} NoAnswers(v: Progress, nodeId: string, inbox: seq<Arrival>)
    requires inbox == []
    ensures Readable(inbox) && HandleAll(v, nodeId, inbox) == v && RepliesTo(Taken(inbox, nodeId)) == []
  {
  }

  lemma {:induction false} AnswerNext(v: Progress, nodeId: string, m: Message, stamp: string)
    ensures var after := Handle(v, nodeId, m, stamp);
      after.replies == if after.rejected then v.replies else v.replies + [ReplyTo(m)]
  {
  }

  // ---------------------------------------------------------------- which futures it resolves

  /** What a future pending at the start holds in the end: what it held, or else the output of the first
      result taken under its id. */
  function FutureAfter(was: Option<R.Output>, taken: seq<Arrival>, c: string): Option<R.Output> {
    if was.Some? || c == "" then was else FirstOutput(taken, c)
  }

  ghost predicate Resolved(was: R.Relay, now: R.Relay, taken: seq<Arrival>) {
    && now.connections == was.connections && now.pending.Keys == was.pending.Keys
    && forall c :: c in was.pending ==> now.pending[c] == FutureAfter(was.pending[c], taken, c)
  }

  lemma {:induction false} ResolvedNext(was: R.Relay, v: Progress, nodeId: string, taken: seq<Arrival>, a: Arrival)
    requires Resolved(was, v.relay, taken) && T.Writable(a.now)
    ensures var after := Handle(v, nodeId, a.message, StampAt(a));
      Resolved(was, after.relay, if v.rejected || after.rejected then taken else taken + [a])
  {
    hide Stamp;
    assert (taken + [a])[..|taken|] == taken;
  }

  /** Command results reach their callers: over every inbox, each future pending at the start ends up
      with the output of the first result taken under its non-empty id, a resolved one keeps what it
      has, and no entry comes or goes. */
  lemma {:induction false} ResultsReachCallers(v: Progress, nodeId: string, inbox: seq<Arrival>)
    requires Readable(inbox) && Fresh(v)
    ensures Resolved(v.relay, HandleAll(v, nodeId, inbox).relay, Taken(inbox, nodeId))
  {
    hide Resolved, Handle, Stamp;
    if inbox == [] {
      NothingResolved(v.relay);
    } else {
      var front, last := inbox[..|inbox| - 1], inbox[|inbox| - 1];
      ResultsReachCallers(v, nodeId, front);
      WhoIsLetIn(v, nodeId, front);
      WhoIsLetIn(v, nodeId, inbox);
      HandleLast(v, nodeId, inbox);
      TakenNext(inbox, nodeId);
      ResolvedNext(v.relay, HandleAll(v, nodeId, front), nodeId, Taken(front, nodeId), last);
      assert inbox == front + [last];
    }
  }

  lemma {:induction false} NothingResolved(r: R.Relay)
    ensures Resolved(r, r, [])
  {
  }

  // ---------------------------------------------------------------- what it leaves in the tables

  /** After the given snapshots: the first one's hardware, the last one's time, a heartbeat row each,
      and nobody else's row touched. */
  ghost predicate Stored(was: T.Store, now: T.Store, nodeId: string, ss: seq<Arrival>)
    requires Readable(ss)
    requires forall i :: 0 <= i < |ss| ==> ss[i].message.Snapshot?
  {
    && T.SameBut(was.nodes, now.nodes, nodeId)
    && (ss == [] ==> now.nodes == was.nodes)
    && (ss != [] ==> nodeId in now.nodes)
    && (ss != [] ==>
         T.Registered(now.nodes[nodeId], was.nodes, nodeId, ss[0].message.payload, StampAt(ss[|ss| - 1])))
    && |now.heartbeats| == |was.heartbeats| + |ss| && now.heartbeats[..|was.heartbeats|] == was.heartbeats
    && forall i :: 0 <= i < |ss| ==> T.Recorded(now.heartbeats[|was.heartbeats| + i], nodeId, ss[i].message.payload)
  }

  lemma {:induction false} SnapshotsAre(taken: seq<Arrival>)
    requires Readable(taken)
    ensures Readable(Snapshots(taken))
    ensures forall i :: 0 <= i < |Snapshots(taken)| ==> Snapshots(taken)[i].message.Snapshot?
  {
    if taken != [] {
      SnapshotsAre(taken[..|taken| - 1]);
    }
  }

  lemma {:induction false} StoredFirst(was: T.Store, now: T.Store, nodeId: string, a: Arrival)
    requires T.Writable(a.now) && a.message.Snapshot? && Stored(was, now, nodeId, [])
    ensures Stored(was, T.RegisterNode(now, nodeId, a.message.payload, StampAt(a)), nodeId, [a])
  {
    hide T.RegisterNode, Stamp;
    T.RegisterWrites(now, nodeId, a.message.payload, StampAt(a));
  }

  lemma {:induction false} StoredLater(was: T.Store, now: T.Store, nodeId: string, ss: seq<Arrival>, a: Arrival)
    requires Readable(ss) && forall i :: 0 <= i < |ss| ==> ss[i].message.Snapshot?
    requires ss != [] && Stored(was, now, nodeId, ss) && T.Writable(a.now) && a.message.Snapshot?
    ensures Stored(was, T.ProcessHeartbeat(now, nodeId, a.message.payload, StampAt(a)), nodeId, ss + [a])
  {
    hide T.ProcessHeartbeat, T.Recorded, Stamp;
    T.HeartbeatWrites(now, nodeId, a.message.payload, StampAt(a));
    var after := T.ProcessHeartbeat(now, nodeId, a.message.payload, StampAt(a));
    assert forall i :: 0 <= i < |now.heartbeats| ==> after.heartbeats[i] == now.heartbeats[i];
    assert after.heartbeats[..|was.heartbeats|] == now.heartbeats[..|was.heartbeats|];
  }

  lemma {:induction false} StoreNext(v: Progress, nodeId: string, m: Message, stamp: string)
    ensures var after := Handle(v, nodeId, m, stamp);
      after.store ==
        if after.rejected || !m.Snapshot? then v.store
        else if v.first then T.RegisterNode(v.store, nodeId, m.payload, stamp)
        else T.ProcessHeartbeat(v.store, nodeId, m.payload, stamp)
  {
  }

  /** The tables after a session, from its snapshots alone. */
  lemma {:induction false} SnapshotsAreStored(v: Progress, nodeId: string, inbox: seq<Arrival>)
    requires Readable(inbox) && Fresh(v)
    ensures var ss := Snapshots(Taken(inbox, nodeId));
      && Readable(ss) && (forall i :: 0 <= i < |ss| ==> ss[i].message.Snapshot?)
      && Stored(v.store, HandleAll(v, nodeId, inbox).store, nodeId, ss)
  {
    hide Handle, Stored, Stamp;
    SnapshotsAre(Taken(inbox, nodeId));
    if inbox == [] {
      NothingStored(v.store, nodeId);
      assert Snapshots(Taken(inbox, nodeId)) == [] && HandleAll(v, nodeId, inbox) == v;
    } else {
      var front, last := inbox[..|inbox| - 1], inbox[|inbox| - 1];
      SnapshotsAreStored(v, nodeId, front);
      WhoIsLetIn(v, nodeId, front);
      WhoIsLetIn(v, nodeId, inbox);
      HandleLast(v, nodeId, inbox);
      SnapshotsNext(inbox, nodeId);
      StoredNext(v, nodeId, front, last);
    }
  }

  lemma {:induction false} NothingStored(st: T.Store, nodeId: string)
    ensures Stored(st, st, nodeId, [])
  {
  }

  lemma {:induction false} StoredNext(v: Progress, nodeId: string, front: seq<Arrival>, a: Arrival)
    requires Readable(front) && T.Writable(a.now)
    requires Readable(Snapshots(Taken(front, nodeId)))
    requires var ss := Snapshots(Taken(front, nodeId));
      && (forall i :: 0 <= i < |ss| ==> ss[i].message.Snapshot?)
      && Stored(v.store, HandleAll(v, nodeId, front).store, nodeId, ss)
      && (HandleAll(v, nodeId, front).first <==> ss == [])
    ensures var before := HandleAll(v, nodeId, front); var after := Handle(before, nodeId, a.message, StampAt(a));
      var ss := Snapshots(Taken(front, nodeId)) + (if a.message.Snapshot? && !after.rejected then [a] else []);
      && Readable(ss) && (forall i :: 0 <= i < |ss| ==> ss[i].message.Snapshot?)
      && Stored(v.store, after.store, nodeId, ss)
  {
    hide Stored, Handle, HandleAll, Stamp, T.RegisterNode, T.ProcessHeartbeat;
    var before, ss := HandleAll(v, nodeId, front), Snapshots(Taken(front, nodeId));
    StoreNext(before, nodeId, a.message, StampAt(a));
    var after := Handle(before, nodeId, a.message, StampAt(a));
    if after.rejected || !a.message.Snapshot? {
      assert ss + [] == ss;
    } else if before.first {
      StoredFirst(v.store, before.store, nodeId, a);
      assert ss + [a] == [a];
    } else {
      StoredLater(v.store, before.store, nodeId, ss, a);
    }
  }
}
