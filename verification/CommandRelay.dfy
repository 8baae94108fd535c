/** `CommandRelay` (`executor.py`): the connection table and the table of pending futures. */
module RelayTables {
  import opened Options

  datatype Output = Output(stdout: string, stderr: string, exitCode: int)

  /** `pending` maps a command id to what its future holds so far. */
  datatype Relay = Relay(connections: map<string, nat>, pending: map<string, Option<Output>>)

  const EMPTY_RELAY := Relay(map[], map[])

  function Register(r: Relay, nodeId: string, session: nat): Relay {
    r.(connections := r.connections[nodeId := session])
  }

  function Unregister(r: Relay, nodeId: string): Relay {
    r.(connections := r.connections - {nodeId})
  }

  function StoreFuture(r: Relay, cmdId: string): Relay {
    r.(pending := r.pending[cmdId := None])
  }

  /** The first result resolves the future; a later one, or one nobody waits for, changes nothing. */
  function Deliver(r: Relay, cmdId: string, output: Output): Relay {
    if cmdId in r.pending && r.pending[cmdId].None? then r.(pending := r.pending[cmdId := Some(output)]) else r
  }

  function Forget(r: Relay, cmdId: string): Relay {
    r.(pending := r.pending - {cmdId})
  }

  // ---------------------------------------------------------------- everything that happens to them

  datatype Op =
    | Connect(nodeId: string, session: nat)
    | Disconnect(nodeId: string)
    | Begin(cmdId: string)
    | Result(cmdId: string, output: Output)
    | End(cmdId: string)

  function Step(r: Relay, op: Op): Relay {
    match op
    case Connect(nodeId, session) => Register(r, nodeId, session)
    case Disconnect(nodeId) => Unregister(r, nodeId)
    case Begin(c) => StoreFuture(r, c)
    case Result(c, output) => Deliver(r, c, output)
    case End(c) => Forget(r, c)
  }

  function Steps(r: Relay, ops: seq<Op>): Relay {
    if ops == [] then r else Step(Steps(r, ops[..|ops| - 1]), ops[|ops| - 1])
  }

  function Entry(r: Relay, n: string): Option<nat> {
    if n in r.connections then Some(r.connections[n]) else None
  }

  /** Where `n` is connected: at the session of the last connect about it, unless a disconnect about it
      came later, and as before if there is neither. */
  function ConnectionAfter(before: Option<nat>, ops: seq<Op>, n: string): Option<nat> {
    if ops == [] then before
    else
      var front := ops[..|ops| - 1];
      match ops[|ops| - 1]
      case Connect(m, session) => if m == n then Some(session) else ConnectionAfter(before, front, n)
      case Disconnect(m) => if m == n then None else ConnectionAfter(before, front, n)
      case _ => ConnectionAfter(before, front, n)
  }

  /** The last connect or disconnect about a node decides, over any sequence of operations. */
  lemma {:induction false} LastConnectionCounts(r: Relay, ops: seq<Op>, n: string)
    ensures Entry(Steps(r, ops), n) == ConnectionAfter(Entry(r, n), ops, n)
  {
    if ops != [] {
      LastConnectionCounts(r, ops[..|ops| - 1], n);
    }
  }

  // ---------------------------------------------------------------- the life of one future

  /** Command ids are fresh: nothing but its own call begins or ends `c`. */
  predicate LeavesAlone(ops: seq<Op>, c: string) {
    Begin(c) !in ops && End(c) !in ops
  }

  function FirstResult(ops: seq<Op>, c: string): Option<Output> {
    if ops == [] then None
    else if ops[0].Result? && ops[0].cmdId == c then Some(ops[0].output)
    else FirstResult(ops[1..], c)
  }

  lemma {:induction false} FirstResultSnoc(ops: seq<Op>, op: Op, c: string)
    ensures FirstResult(ops + [op], c) ==
      if FirstResult(ops, c).Some? then FirstResult(ops, c)
      else if op.Result? && op.cmdId == c then Some(op.output) else None
  {
    if ops != [] {
      assert (ops + [op])[1..] == ops[1..] + [op];
      FirstResultSnoc(ops[1..], op, c);
    }
  }

  /** However many results come in for `c` and whatever else happens to the tables meanwhile, its
      future ends up holding the first of them, and nothing if there is none. */
  lemma {:induction false} FirstDeliveryWins(r: Relay, c: string, ops: seq<Op>)
    requires LeavesAlone(ops, c)
    ensures var after := Steps(StoreFuture(r, c), ops);
      c in after.pending && after.pending[c] == FirstResult(ops, c)
  {
    if ops != [] {
      var front, last := ops[..|ops| - 1], ops[|ops| - 1];
      assert ops == front + [last];
      FirstDeliveryWins(r, c, front);
      FirstResultSnoc(front, last, c);
    }
  }

  /** A call leaves no trace: once it has ended the tables are what the others alone make of them, and
      results for it that come outside its life change nothing. */
  lemma {:induction false} NoTrace(r: Relay, c: string, ops: seq<Op>)
    requires LeavesAlone(ops, c) && c !in r.pending
    ensures Forget(Steps(StoreFuture(r, c), ops), c) == Steps(r, ops)
    ensures c !in Steps(r, ops).pending
  {
    if ops == [] {
      assert Forget(StoreFuture(r, c), c).pending == r.pending;
    } else {
      var front, last := ops[..|ops| - 1], ops[|ops| - 1];
      assert ops == front + [last];
      NoTrace(r, c, front);
      ForgetLast(Steps(StoreFuture(r, c), front), c, last);
    }
  }

  lemma {:induction false} ForgetLast(r: Relay, c: string, op: Op)
    requires op != Begin(c) && op != End(c)
    ensures Forget(Step(r, op), c) == Step(Forget(r, c), op)
  {
    assert Forget(Step(r, op), c).pending == Step(Forget(r, c), op).pending;
  }
}

module CommandRelays {
  import opened Options
  import R = RelayTables

  class Future {
    var outcome: Option<R.Output>

    constructor ()
      ensures outcome == None
    {
      outcome := None;
    }

    /** Resolving a future twice is an error in asyncio. */
    method SetResult(output: R.Output)
      requires outcome == None
      modifies this
      ensures outcome == Some(output)
    {
      outcome := Some(output);
    }
  }

  datatype Ticket = NotConnected | Issued(session: nat, future: Future)

  /** A `run_command` message handed to a session's socket. */
  datatype Posting = Posting(session: nat, cmdId: string, command: string)

  datatype Reply = UnknownNode | SendFailed | TimedOut | Returned(output: R.Output)

  class CommandRelay {
    var connections: map<string, nat>
    var pending: map<string, Future>

    /** No two commands share a future. */
    ghost predicate Valid()
      reads this
    {
      forall c, d :: c in pending && d in pending && c != d ==> pending[c] != pending[d]
    }

    ghost function Contents(): R.Relay
      reads this, pending.Values
    {
      R.Relay(connections, map c | c in pending :: pending[c].outcome)
    }

    constructor ()
      ensures Valid() && Contents() == R.EMPTY_RELAY
    {
      connections, pending := map[], map[];
    }

    method Register(nodeId: string, session: nat)
      requires Valid()
      modifies this`connections
      ensures nodeId in connections && connections[nodeId] == session
      ensures Valid() && Contents() == R.Register(old(Contents()), nodeId, session)
    {
      connections := connections[nodeId := session];
    }

    method Unregister(nodeId: string)
      requires Valid()
      modifies this`connections
      ensures Valid() && Contents() == R.Unregister(old(Contents()), nodeId)
    {
      connections := connections - {nodeId};
    }

    method Get(nodeId: string) returns (session: Option<nat>)
      ensures session == if nodeId in connections then Some(connections[nodeId]) else None
    {
      if nodeId in connections {
        return Some(connections[nodeId]);
      }
      return None;
    }

    /** `send_command` up to its first await: look the node up, then store a new future before
        anything is sent. */
    method BeginCommand(nodeId: string, cmdId: string) returns (t: Ticket)
      requires Valid() && cmdId !in pending
      modifies this`pending
      ensures Valid()
      ensures t.NotConnected? <==> nodeId !in connections
      ensures t.NotConnected? ==> Contents() == old(Contents())
      ensures t.Issued? ==>
        && t.session == connections[nodeId] && fresh(t.future)
        && Contents() == R.StoreFuture(old(Contents()), cmdId)
        && pending == old(pending)[cmdId := t.future]
    {
      var session := Get(nodeId);
      if session == None {
        return NotConnected;
      }
      var future := Store(cmdId);
      return Issued(session.value, future);
    }

    method Store(cmdId: string) returns (future: Future)
      requires Valid()
      modifies this`pending
      ensures Valid() && fresh(future) && pending == old(pending)[cmdId := future]
      ensures Contents() == R.StoreFuture(old(Contents()), cmdId)
    {
      future := new Future();
      pending := pending[cmdId := future];
      assert Contents().pending == R.StoreFuture(old(Contents()), cmdId).pending;
    }

    /** The `finally` of `send_command`, on return, timeout and failure alike. */
    method EndCommand(cmdId: string)
      requires Valid()
      modifies this`pending
      ensures Valid() && pending == old(pending) - {cmdId} && Contents() == R.Forget(old(Contents()), cmdId)
    {
      pending := pending - {cmdId};
      assert Contents().pending == R.Forget(old(Contents()), cmdId).pending;
    }

    method DeliverResult(cmdId: string, output: R.Output)
      requires Valid()
      modifies pending.Values
      ensures Valid() && pending == old(pending) && Contents() == R.Deliver(old(Contents()), cmdId, output)
    {
      if cmdId in pending {
        var future := pending[cmdId];
        if future.outcome == None {
          future.SetResult(output);
        }
      }
      assert Contents().pending == R.Deliver(old(Contents()), cmdId, output).pending;
    }

    /** One thing another coroutine does. */
    method Perform(op: R.Op)
      requires Valid()
      modifies this, pending.Values
      ensures Valid() && Contents() == R.Step(old(Contents()), op)
      ensures forall c :: c in pending ==> fresh(pending[c]) || (c in old(pending) && pending[c] == old(pending)[c])
      ensures forall c :: c in old(pending) && op != R.Begin(c) && op != R.End(c) ==>
        c in pending && pending[c] == old(pending)[c]
    {
      match op
      case Connect(nodeId, session) => Register(nodeId, session);
      case Disconnect(nodeId) => Unregister(nodeId);
      case Begin(c) => var _ := Store(c);
      case Result(c, output) => DeliverResult(c, output);
      case End(c) => EndCommand(c);
    }

    /** `send_command` whole.  `meanwhile` is what other coroutines do to the tables from the start of
        the send until this one resumes: with the result, at its timeout, or because the send failed. */
    method SendCommand(nodeId: string, command: string, cmdId: string, sendFails: bool, meanwhile: seq<R.Op>)
      returns (r: Reply, posted: Option<Posting>)
      requires Valid() && cmdId !in pending && R.LeavesAlone(meanwhile, cmdId)
      modifies this, pending.Values
      ensures Valid()
      ensures nodeId !in old(connections) ==> r == UnknownNode && posted == None && Contents() == old(Contents())
      ensures nodeId in old(connections) ==>
        && posted == Some(Posting(old(connections)[nodeId], cmdId, command))
        && Contents() == R.Steps(old(Contents()), meanwhile)
        && r == (if sendFails then SendFailed
                 else match R.FirstResult(meanwhile, cmdId) case Some(output) => Returned(output) case None => TimedOut)
    {
      var t := BeginCommand(nodeId, cmdId);
      if t.NotConnected? {
        return UnknownNode, None;
      }
      posted := Some(Posting(t.session, cmdId, command));
      ghost var stored := Contents();
      for i := 0 to |meanwhile|
        invariant Valid() && cmdId in pending && pending[cmdId] == t.future
        invariant forall c :: c in pending ==> fresh(pending[c]) || pending[c] in old(pending.Values)
        invariant Contents() == R.Steps(stored, meanwhile[..i])
      {
        assert meanwhile[..i + 1][..i] == meanwhile[..i];
        assert meanwhile[i] in meanwhile;
        Perform(meanwhile[i]);
      }
      assert meanwhile[..|meanwhile|] == meanwhile;
      R.FirstDeliveryWins(old(Contents()), cmdId, meanwhile);
      R.NoTrace(old(Contents()), cmdId, meanwhile);
      assert t.future.outcome == Contents().pending[cmdId];
      r := if sendFails then SendFailed else
        match t.future.outcome case Some(output) => Returned(output) case None => TimedOut;
      EndCommand(cmdId);
    }
  }
}
