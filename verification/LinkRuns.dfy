/** Whole generations and redemptions one after the other: what `linking.py` promises of a code. */
module LinkRuns {
  import opened Options
  import opened Timestamps
  import opened Linking
  import C = LinkCodes

  /** A call, with the whole seconds its statements read. */
  datatype Act =
    | Generation(accountId: string, code: string, inserted: int, collected: int)
    | Redemption(code: string, ip: string, clock: Clock)

  predicate ActOk(a: Act) {
    match a
    case Generation(_, _, inserted, collected) =>
      inserted <= collected && InRange(inserted) && InRange(collected) && InRange(collected + LIFETIME)
    case Redemption(_, _, clock) => Ticks(clock) && InRange(clock.lookup + LIFETIME)
  }

  function Starts(a: Act): int {
    if a.Generation? then a.inserted else a.clock.lookup
  }

  function Ends(a: Act): int {
    if a.Generation? then a.collected else a.clock.lookup
  }

  /** The calls run one after the other and draw fresh codes. */
  ghost predicate Run(acts: seq<Act>) {
    && (forall i :: 0 <= i < |acts| ==> ActOk(acts[i]))
    && (forall i, j :: 0 <= i < j < |acts| ==> Ends(acts[i]) <= Starts(acts[j]))
    && (forall i, j :: 0 <= i < j < |acts| && acts[i].Generation? && acts[j].Generation? ==>
         acts[i].code != acts[j].code)
  }

  const NO_LINKS := Links(map[], [], None)

  function Did(l: Links, a: Act): Links
    requires ActOk(a)
  {
    match a
    case Generation(accountId, code, inserted, collected) =>
      Generate(l, accountId, code, Stamp(inserted + LIFETIME), Stamp(collected))
    case Redemption(code, ip, clock) => Redeem(l, code, ip, MarksOf(clock)).0
  }

  function Answer(l: Links, a: Act): Option<string>
    requires ActOk(a)
  {
    if a.Redemption? then Redeem(l, a.code, a.ip, MarksOf(a.clock)).1 else None
  }

  ghost function After(acts: seq<Act>): Links
    requires Run(acts)
  {
    if acts == [] then NO_LINKS else Did(After(acts[..|acts| - 1]), acts[|acts| - 1])
  }

  /** The limiter lets the redemption through to the lookup. */
  predicate LetThrough(l: Links, a: Act)
    requires ActOk(a) && a.Redemption?
  {
    Admitted(l.attempts, a.ip, MarksOf(a.clock))
  }

  // ---------------------------------------------------------------- what was made and what was redeemed

  ghost predicate Makes(acts: seq<Act>, i: int, c: string) {
    0 <= i < |acts| && acts[i].Generation? && acts[i].code == c
  }

  /** The call at `i` redeems `c` and is given an account. */
  ghost predicate RedeemsAt(acts: seq<Act>, i: int, c: string)
    requires Run(acts)
  {
    0 <= i < |acts| && acts[i].Redemption? && acts[i].code == c && Answer(After(acts[..i]), acts[i]).Some?
  }

  ghost predicate Redeemed(acts: seq<Act>, c: string)
    requires Run(acts)
  {
    exists i :: RedeemsAt(acts, i, c)
  }

  lemma {:induction false} RunFront(acts: seq<Act>)
    requires Run(acts) && acts != []
    ensures Run(acts[..|acts| - 1]) && ActOk(acts[|acts| - 1])
  {
  }

  lemma {:induction false} RedeemedSnoc(acts: seq<Act>, c: string)
    requires Run(acts) && acts != []
    ensures var front, a := acts[..|acts| - 1], acts[|acts| - 1];
      Redeemed(acts, c) <==> Redeemed(front, c) || (a.Redemption? && a.code == c && Answer(After(front), a).Some?)
  {
    hide Answer, After;
    var front, a := acts[..|acts| - 1], acts[|acts| - 1];
    if Redeemed(front, c) {
      var i :| RedeemsAt(front, i, c);
      assert acts[..i] == front[..i] && acts[i] == front[i];
      assert RedeemsAt(acts, i, c);
    }
    if a.Redemption? && a.code == c && Answer(After(front), a).Some? {
      assert RedeemsAt(acts, |front|, c);
    }
    if Redeemed(acts, c) {
      var i :| RedeemsAt(acts, i, c);
      if i < |front| {
        assert acts[..i] == front[..i] && acts[i] == front[i];
        assert RedeemsAt(front, i, c);
      }
    }
  }

  // ---------------------------------------------------------------- the statements behind the calls

  /** The statements a call runs on the code table. */
  function EventsOf(l: Links, a: Act): seq<C.Event>
    requires ActOk(a)
  {
    match a
    case Generation(accountId, code, inserted, collected) =>
      [C.Insert(code, accountId, inserted), C.Collect(collected)]
    case Redemption(code, ip, clock) =>
      if !LetThrough(l, a) then []
      else if Answer(l, a) == None then [C.Lookup(code, clock.lookup)]
      else [C.Lookup(code, clock.lookup), C.Remove(code, clock.lookup)]
  }

  ghost function Events(acts: seq<Act>): seq<C.Event>
    requires Run(acts)
  {
    if acts == [] then []
    else Events(acts[..|acts| - 1]) + EventsOf(After(acts[..|acts| - 1]), acts[|acts| - 1])
  }

  lemma {:induction false} OneMore(es: seq<C.Event>, e: C.Event)
    requires C.Legal(es, true) && C.Enabled(C.Exec(es, true), e)
    ensures C.Legal(es + [e], true) && C.Exec(es + [e], true) == C.Apply(C.Exec(es, true), e, true)
  {
    hide C.Apply, C.Enabled;
    assert (es + [e])[..|es|] == es;
  }

  lemma {:induction false} TwoMore(es: seq<C.Event>, d: C.Event, e: C.Event)
    requires C.Legal(es, true) && C.Enabled(C.Exec(es, true), d)
    requires C.Enabled(C.Apply(C.Exec(es, true), d, true), e)
    ensures C.Legal(es + [d, e], true)
    ensures C.Exec(es + [d, e], true) == C.Apply(C.Apply(C.Exec(es, true), d, true), e, true)
  {
    hide C.Apply, C.Enabled, C.Legal, C.Exec;
    OneMore(es, d);
    OneMore(es + [d], e);
    assert es + [d] + [e] == es + [d, e];
  }

  lemma {:induction false} GenerationRuns(es: seq<C.Event>, l: Links, a: Act)
    requires C.Legal(es, true) && C.Exec(es, true).codes == l.codes
    requires a.Generation? && ActOk(a) && a.code !in C.Exec(es, true).made
    ensures C.Legal(es + EventsOf(l, a), true)
    ensures var s, after := C.Exec(es, true), C.Exec(es + EventsOf(l, a), true);
      && after.codes == Did(l, a).codes
      && after.made == s.made[a.code := C.Made(a.inserted, Stamp(a.inserted + LIFETIME))]
  {
    hide C.Legal, C.Exec, Stamp;
    TwoMore(es, C.Insert(a.code, a.accountId, a.inserted), C.Collect(a.collected));
  }

  lemma {:induction false} RedemptionRuns(es: seq<C.Event>, l: Links, a: Act)
    requires C.Legal(es, true) && C.Exec(es, true).codes == l.codes && a.Redemption? && ActOk(a)
    ensures C.Legal(es + EventsOf(l, a), true)
    ensures var s, after := C.Exec(es, true), C.Exec(es + EventsOf(l, a), true);
      after.codes == Did(l, a).codes && after.made == s.made
    ensures C.Enabled(C.Exec(es, true), C.Lookup(a.code, a.clock.lookup))
    ensures LetThrough(l, a) ==> Answer(l, a) == C.Answer(C.Exec(es, true), C.Lookup(a.code, a.clock.lookup))
    ensures !LetThrough(l, a) ==> Answer(l, a) == None
  {
    hide C.Legal, C.Exec, Stamp, Admitted;
    var lookup, remove := C.Lookup(a.code, a.clock.lookup), C.Remove(a.code, a.clock.lookup);
    if !LetThrough(l, a) {
      assert es + [] == es;
    } else if Answer(l, a) == None {
      OneMore(es, lookup);
    } else {
      TwoMore(es, lookup, remove);
    }
  }

  /** Adding events later than all others keeps the order. */
  lemma {:induction false} OrderJoin(es: seq<C.Event>, more: seq<C.Event>, from: int)
    requires C.InOrder(es) && C.InOrder(more)
    requires forall i :: 0 <= i < |es| ==> es[i].at <= from
    requires forall i :: 0 <= i < |more| ==> from <= more[i].at
    ensures C.InOrder(es + more)
  {
  }

  lemma {:induction false} EventsInOrder(acts: seq<Act>)
    requires Run(acts)
    ensures C.InOrder(Events(acts))
    ensures acts != [] ==> forall e :: e in Events(acts) ==> e.at <= Ends(acts[|acts| - 1])
  {
    if acts != [] {
      var front, a := acts[..|acts| - 1], acts[|acts| - 1];
      RunFront(acts);
      EventsInOrder(front);
      var es, more := Events(front), EventsOf(After(front), a);
      CallInOrder(After(front), a);
      forall i | 0 <= i < |es| ensures es[i].at <= Starts(a) {
        assert es[i] in es;
        assert Ends(acts[|front| - 1]) <= Starts(acts[|front|]);
      }
      OrderJoin(es, more, Starts(a));
      forall e | e in es + more ensures e.at <= Ends(a) {
        if e in es {
          var i :| 0 <= i < |es| && es[i] == e;
        }
      }
    }
  }

  lemma {:induction false} CallInOrder(l: Links, a: Act)
    requires ActOk(a)
    ensures C.InOrder(EventsOf(l, a)) && Starts(a) <= Ends(a)
    ensures forall e :: e in EventsOf(l, a) ==> Starts(a) <= e.at <= Ends(a)
    ensures forall i :: 0 <= i < |EventsOf(l, a)| ==> Starts(a) <= EventsOf(l, a)[i].at
  {
  }

  /** What the statements remember of a code is what the calls did with it. */
  ghost predicate Agree(acts: seq<Act>, c: string)
    requires Run(acts)
  {
    && C.Legal(Events(acts), true) && C.Exec(Events(acts), true).codes == After(acts).codes
    && (c in C.Exec(Events(acts), true).made ==>
         exists i :: Makes(acts, i, c) && acts[i].inserted == C.Exec(Events(acts), true).made[c].at)
    && (c !in C.Exec(Events(acts), true).made ==> forall i :: !Makes(acts, i, c))
    && (C.Removed(Events(acts), c) <==> Redeemed(acts, c))
    && (c in After(acts).codes ==> exists i :: Makes(acts, i, c) && acts[i].accountId == After(acts).codes[c].accountId)
  }

  lemma {:induction false} MakesSnoc(acts: seq<Act>, c: string)
    requires acts != []
    ensures forall i :: Makes(acts[..|acts| - 1], i, c) ==> Makes(acts, i, c) && acts[i] == acts[..|acts| - 1][i]
    ensures forall i :: Makes(acts, i, c) ==> i == |acts| - 1 || Makes(acts[..|acts| - 1], i, c)
    ensures acts[|acts| - 1].Generation? && acts[|acts| - 1].code == c ==> Makes(acts, |acts| - 1, c)
  {
    var front := acts[..|acts| - 1];
    forall i | Makes(acts, i, c) ensures i == |acts| - 1 || Makes(front, i, c) {
      if i < |front| {
        assert front[i] == acts[i];
      }
    }
  }

  lemma {:induction false} RemovedJoin(es: seq<C.Event>, l: Links, a: Act, c: string)
    requires ActOk(a)
    ensures C.Removed(es + EventsOf(l, a), c) <==>
      C.Removed(es, c) || (a.Redemption? && a.code == c && LetThrough(l, a) && Answer(l, a).Some?)
  {
    hide C.Removed, Answer, LetThrough;
    match a
    case Generation(accountId, code, inserted, collected) =>
      C.RemovedSnoc(es, C.Insert(code, accountId, inserted), c);
      C.RemovedSnoc(es + [C.Insert(code, accountId, inserted)], C.Collect(collected), c);
      assert es + [C.Insert(code, accountId, inserted)] + [C.Collect(collected)] == es + EventsOf(l, a);
    case Redemption(code, ip, clock) =>
      var lookup, remove := C.Lookup(code, clock.lookup), C.Remove(code, clock.lookup);
      C.RemovedSnoc(es, lookup, c);
      C.RemovedSnoc(es + [lookup], remove, c);
      assert es + [lookup] + [remove] == es + [lookup, remove];
      assert es + [] == es;
  }

  lemma {:induction false} AgreeRun(acts: seq<Act>, c: string)
    requires Run(acts)
    ensures Agree(acts, c)
  {
    hide Stamp, Did, EventsOf, Answer, C.Removed;
    if acts == [] {
      AgreeAtFirst(acts, c);
    } else {
      var front, a := acts[..|acts| - 1], acts[|acts| - 1];
      RunFront(acts);
      AgreeRun(front, c);
      if a.Generation? {
        AgreeRun(front, a.code);
      }
      AgreeStep(acts, c);
    }
  }

  lemma {:induction false} AgreeAtFirst(acts: seq<Act>, c: string)
    requires acts == [] && Run(acts)
    ensures Agree(acts, c)
  {
  }

  lemma {:induction false} AgreeStep(acts: seq<Act>, c: string)
    requires Run(acts) && acts != [] && Run(acts[..|acts| - 1]) && Agree(acts[..|acts| - 1], c)
    requires acts[|acts| - 1].Generation? ==> Agree(acts[..|acts| - 1], acts[|acts| - 1].code)
    ensures Agree(acts, c)
  {
    hide Stamp, Did, EventsOf, Answer, C.Removed, C.Exec, C.Legal;
    var front, a := acts[..|acts| - 1], acts[|acts| - 1];
    MakesSnoc(acts, c);
    RedeemedSnoc(acts, c);
    RemovedJoin(Events(front), After(front), a, c);
    StepKeepsAccounts(After(front), a, c);
    if a.Generation? {
      NotYetMade(acts);
      GenerationRuns(Events(front), After(front), a);
    } else {
      RedemptionRuns(Events(front), After(front), a);
    }
  }

  lemma {:induction false} NotYetMade(acts: seq<Act>)
    requires Run(acts) && acts != [] && acts[|acts| - 1].Generation?
    ensures var front, c := acts[..|acts| - 1], acts[|acts| - 1].code; forall i :: !Makes(front, i, c)
  {
  }

  lemma {:induction false} StepKeepsAccounts(l: Links, a: Act, c: string)
    requires ActOk(a)
    ensures c in Did(l, a).codes ==>
      if a.Generation? && a.code == c then Did(l, a).codes[c].accountId == a.accountId
      else c in l.codes && Did(l, a).codes[c] == l.codes[c]
  {
    hide Stamp, Admitted;
  }

  // ---------------------------------------------------------------- what a code is good for

  lemma {:induction false} RunJoin(acts: seq<Act>, a: Act)
    requires Run(acts + [a])
    ensures Run(acts) && ActOk(a)
  {
    var all := acts + [a];
    assert all[..|acts|] == acts && all[|acts|] == a;
    RunFront(all);
  }

  lemma {:induction false} LookupInOrder(acts: seq<Act>, a: Act)
    requires Run(acts + [a]) && Run(acts) && a.Redemption? && ActOk(a)
    ensures C.InOrder(Events(acts) + [C.Lookup(a.code, a.clock.lookup)])
  {
    EventsInOrder(acts);
    var es := Events(acts);
    if acts != [] {
      assert (acts + [a])[|acts| - 1] == acts[|acts| - 1] && (acts + [a])[|acts|] == a;
    }
    forall i | 0 <= i < |es| ensures es[i].at <= a.clock.lookup {
      assert es[i] in es;
    }
    OrderJoin(es, [C.Lookup(a.code, a.clock.lookup)], a.clock.lookup);
  }

  /** A redemption that follows any run of generations and redemptions is given an account if and only
      if the limiter lets it through, some call made the code less than 600 seconds before, and no
      earlier redemption was given one for it; the account is then that call's. */
  lemma {:induction false} AnsweredExactlyWhen(acts: seq<Act>, a: Act)
    requires Run(acts + [a]) && a.Redemption?
    ensures Run(acts) && ActOk(a)
    ensures Answer(After(acts), a).Some? <==>
      && LetThrough(After(acts), a)
      && (exists i :: Makes(acts, i, a.code) && a.clock.lookup < acts[i].inserted + 600)
      && !Redeemed(acts, a.code)
    ensures Answer(After(acts), a).Some? ==>
      exists i :: Makes(acts, i, a.code) && Answer(After(acts), a) == Some(acts[i].accountId)
  {
    hide C.Legal, C.Exec, Stamp, Admitted, Answer, C.Removed, LetThrough;
    RunJoin(acts, a);
    AgreeRun(acts, a.code);
    LookupInOrder(acts, a);
    RedemptionRuns(Events(acts), After(acts), a);
    C.RedeemsExactlyWhen(Events(acts), a.code, a.clock.lookup);
    OneMaker(acts, a.code);
    AnswerIsRow(After(acts), a);
  }

  lemma {:induction false} OneMaker(acts: seq<Act>, c: string)
    requires Run(acts)
    ensures forall i, j :: Makes(acts, i, c) && Makes(acts, j, c) ==> i == j
  {
  }

  lemma {:induction false} AnswerIsRow(l: Links, a: Act)
    requires ActOk(a)
    ensures Answer(l, a).Some? ==> a.code in l.codes && Answer(l, a).value == l.codes[a.code].accountId
  {
    hide Stamp, Admitted;
  }

  /** A code is good for one redemption. */
  lemma {:induction false} OnceOnly(acts: seq<Act>, i: nat, j: nat, c: string)
    requires Run(acts) && i < j && RedeemsAt(acts, i, c)
    ensures !RedeemsAt(acts, j, c)
  {
    if j < |acts| && acts[j].Redemption? && acts[j].code == c {
      var upTo := acts[..j];
      assert upTo + [acts[j]] == acts[..j + 1];
      assert Run(upTo + [acts[j]]);
      AnsweredExactlyWhen(upTo, acts[j]);
      assert upTo[..i] == acts[..i] && upTo[i] == acts[i];
      assert RedeemsAt(upTo, i, c);
    }
  }
}
