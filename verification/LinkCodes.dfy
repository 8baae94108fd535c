/** The life of link codes, statement by statement, with and without garbage collection. */
module LinkCodes {
  import opened Options
  import opened TextOrder
  import opened Timestamps
  import opened Linking

  datatype Event =
    | Insert(code: string, accountId: string, at: int)
    | Collect(at: int)
    | Lookup(code: string, at: int)
    | Remove(code: string, at: int)

  datatype Made = Made(at: int, expires: string)

  /** `made` remembers when each code was inserted; `holding` counts, per code, the redemptions that
      have looked it up successfully and not yet deleted it. */
  datatype State = State(codes: map<string, Code>, made: map<string, Made>, holding: multiset<string>)

  const INIT := State(map[], map[], multiset{})

  /** Codes are fresh, and a redemption deletes only what it has found. */
  predicate Enabled(s: State, e: Event) {
    && InRange(e.at) && InRange(e.at + LIFETIME)
    && (e.Insert? ==> e.code !in s.made)
    && (e.Remove? ==> e.code in s.holding)
  }

  /** The text the statement stores or compares with. */
  function Mark(e: Event): string
    requires InRange(e.at) && InRange(e.at + LIFETIME)
  {
    Stamp(if e.Insert? then e.at + LIFETIME else e.at)
  }

  function Finds(s: State, e: Event, mark: string): Option<string> {
    if e.Lookup? then LookUp(s.codes, e.code, mark) else None
  }

  function Answer(s: State, e: Event): Option<string>
    requires Enabled(s, e)
  {
    Finds(s, e, Mark(e))
  }

  function Step(s: State, e: Event, mark: string, collecting: bool): State {
    match e
    case Insert(code, accountId, at) =>
      s.(codes := s.codes[code := Code(accountId, mark)], made := s.made[code := Made(at, mark)])
    case Collect(_) => if collecting then s.(codes := CollectCodes(s.codes, mark)) else s
    case Lookup(code, _) => if Finds(s, e, mark).Some? then s.(holding := s.holding + multiset{code}) else s
    case Remove(code, _) => s.(codes := s.codes - {code}, holding := s.holding - multiset{code})
  }

  function Apply(s: State, e: Event, collecting: bool): State
    requires Enabled(s, e)
  {
    Step(s, e, Mark(e), collecting)
  }

  ghost predicate InOrder(es: seq<Event>) {
    forall i, j :: 0 <= i < j < |es| ==> es[i].at <= es[j].at
  }

  predicate Legal(es: seq<Event>, collecting: bool)
    decreases |es|, 0
  {
    es == [] || (Legal(es[..|es| - 1], collecting) && Enabled(Exec(es[..|es| - 1], collecting), es[|es| - 1]))
  }

  function Exec(es: seq<Event>, collecting: bool): State
    requires Legal(es, collecting)
    decreases |es|, 1
  {
    if es == [] then INIT else Apply(Exec(es[..|es| - 1], collecting), es[|es| - 1], collecting)
  }

  ghost predicate TrueMark(m: Made) {
    InRange(m.at + LIFETIME) && m.expires == Stamp(m.at + LIFETIME)
  }

  /** The table row of a code says when it was made. */
  ghost predicate CodesOk(s: State) {
    && (forall c :: c in s.codes ==> c in s.made && s.codes[c].expiresAt == s.made[c].expires)
    && MadeOk(s.made)
  }

  ghost predicate MadeOk(made: map<string, Made>) {
    forall c :: c in made ==> TrueMark(made[c])
  }

  ghost predicate Removed(es: seq<Event>, c: string) {
    exists i :: 0 <= i < |es| && es[i].Remove? && es[i].code == c
  }

  /** Instant by which a run has got. */
  function Latest(es: seq<Event>): int {
    if es == [] then FIRST_INSTANT else es[|es| - 1].at
  }

  // ---------------------------------------------------------------- what collecting leaves

  /** A collecting store against a hoarding one: the same but for codes that have expired. */
  ghost predicate Matches(g: State, k: State, now: int) {
    && g.made == k.made && g.holding == k.holding
    && (forall c :: c in g.codes ==> c in k.codes && g.codes[c] == k.codes[c])
    && (forall c :: c in k.codes && c !in g.codes ==> c in k.made && k.made[c].at + LIFETIME < now)
  }

  lemma {:induction false} MarkOrder(m: Made, at: int)
    requires TrueMark(m) && InRange(at)
    ensures Less(Stamp(at), m.expires) <==> at < m.at + LIFETIME
    ensures Less(m.expires, Stamp(at)) <==> m.at + LIFETIME < at
  {
    StampOrder(at, m.at + LIFETIME);
    ExpiredMark(m, at);
  }

  lemma {:induction false} ExpiredMark(m: Made, at: int)
    requires TrueMark(m) && InRange(at)
    ensures Less(m.expires, Stamp(at)) <==> m.at + LIFETIME < at
  {
    StampOrder(m.at + LIFETIME, at);
  }

  lemma {:induction false} ExpiryTest(s: State, c: string, at: int)
    requires CodesOk(s) && c in s.codes && InRange(at)
    ensures Less(Stamp(at), s.codes[c].expiresAt) <==> at < s.made[c].at + LIFETIME
    ensures Less(s.codes[c].expiresAt, Stamp(at)) <==> s.made[c].at + LIFETIME < at
  {
    MarkOrder(s.made[c], at);
  }

  lemma {:induction false} CodesStep(s: State, e: Event, mark: string, collecting: bool)
    requires CodesOk(s) && (e.Insert? ==> e.code !in s.made && TrueMark(Made(e.at, mark)))
    ensures CodesOk(Step(s, e, mark, collecting))
  {
    if e.Insert? {
      MadeGrows(s.made, e.code, Made(e.at, mark));
    }
  }

  lemma {:induction false} MadeGrows(made: map<string, Made>, code: string, m: Made)
    requires MadeOk(made) && TrueMark(m)
    ensures MadeOk(made[code := m])
  {
  }

  lemma {:induction false} SameAnswer(g: State, k: State, now: int, e: Event)
    requires Matches(g, k, now) && CodesOk(k) && now <= e.at
    requires Enabled(g, e)
    ensures Enabled(k, e) && Answer(g, e) == Answer(k, e)
  {
    if e.Lookup? && e.code in k.codes {
      ExpiryTest(k, e.code, e.at);
    }
  }

  lemma {:induction false} MatchStep(g: State, k: State, now: int, e: Event, mark: string)
    requires Matches(g, k, now) && now <= e.at && Finds(g, e, mark) == Finds(k, e, mark)
    requires e.Insert? ==> e.code !in k.made
    requires e.Collect? ==> forall c :: c in g.codes && Less(g.codes[c].expiresAt, mark) ==>
      c in k.made && k.made[c].at + LIFETIME < e.at
    ensures Matches(Step(g, e, mark, true), Step(k, e, mark, false), e.at)
  {
  }

  lemma {:induction false} CollectedAreExpired(g: State, k: State, now: int, e: Event)
    requires Matches(g, k, now) && CodesOk(g) && Enabled(g, e) && e.Collect?
    ensures forall c :: c in g.codes && Less(g.codes[c].expiresAt, Mark(e)) ==>
      c in k.made && k.made[c].at + LIFETIME < e.at
  {
    forall c | c in g.codes && Less(g.codes[c].expiresAt, Mark(e))
      ensures c in k.made && k.made[c].at + LIFETIME < e.at
    {
      ExpiryTest(g, c, e.at);
    }
  }

  lemma {:induction false} BothStep(g: State, k: State, now: int, e: Event)
    requires Matches(g, k, now) && CodesOk(g) && CodesOk(k) && now <= e.at && Enabled(g, e)
    ensures Enabled(k, e) && CodesOk(Apply(g, e, true)) && CodesOk(Apply(k, e, false))
    ensures Matches(Apply(g, e, true), Apply(k, e, false), e.at)
  {
    SameAnswer(g, k, now, e);
    if e.Collect? {
      CollectedAreExpired(g, k, now, e);
    }
    MatchStep(g, k, now, e, Mark(e));
    CodesApply(g, e, true);
    CodesApply(k, e, false);
  }

  lemma {:induction false} CodesApply(s: State, e: Event, collecting: bool)
    requires CodesOk(s) && Enabled(s, e)
    ensures CodesOk(Apply(s, e, collecting))
  {
    CodesStep(s, e, Mark(e), collecting);
  }

  lemma {:induction false} MatchRun(es: seq<Event>)
    requires Legal(es, true) && InOrder(es)
    ensures Legal(es, false)
    ensures CodesOk(Exec(es, true)) && CodesOk(Exec(es, false))
    ensures Matches(Exec(es, true), Exec(es, false), Latest(es))
  {
    if es != [] {
      var front, e := es[..|es| - 1], es[|es| - 1];
      MatchRun(front);
      BothStep(Exec(front, true), Exec(front, false), Latest(front), e);
    }
  }

  lemma {:induction false} InOrderFront(es: seq<Event>, e: Event)
    requires InOrder(es + [e])
    ensures InOrder(es) && (InRange(e.at) ==> Latest(es) <= e.at)
  {
    var all := es + [e];
    forall i, j | 0 <= i < j < |es| ensures es[i].at <= es[j].at {
      assert all[i].at <= all[j].at;
    }
    if es != [] {
      assert all[|es| - 1].at <= all[|es|].at;
    }
  }

  /** Garbage collection is unobservable: at every point of every run, the store that deletes expired
      codes and one that never does answer the next lookup alike. */
  lemma {:induction false} CollectionUnobservable(es: seq<Event>, e: Event)
    requires Legal(es, true) && InOrder(es + [e]) && Enabled(Exec(es, true), e)
    ensures Legal(es, false) && Enabled(Exec(es, false), e)
    ensures Answer(Exec(es, true), e) == Answer(Exec(es, false), e)
  {
    InOrderFront(es, e);
    MatchRun(es);
    SameAnswer(Exec(es, true), Exec(es, false), Latest(es), e);
  }

  // ---------------------------------------------------------------- when a code redeems

  /** What a store that never collects has: the codes made and not removed. */
  ghost predicate Hoards(s: State, es: seq<Event>, c: string) {
    && (c in s.codes <==> c in s.made && !Removed(es, c))
    && (c in s.holding ==> c in s.made)
    && (c !in s.made ==> !Removed(es, c))
  }

  lemma {:induction false} HoardStep(s: State, es: seq<Event>, e: Event, c: string)
    requires Hoards(s, es, c) && Enabled(s, e)
    ensures Hoards(Apply(s, e, false), es + [e], c)
  {
    RemovedSnoc(es, e, c);
  }

  lemma {:induction false} HoardRun(es: seq<Event>, c: string)
    requires Legal(es, false)
    ensures Hoards(Exec(es, false), es, c)
    decreases |es|
  {
    if es != [] {
      var front, e := es[..|es| - 1], es[|es| - 1];
      assert es == front + [e];
      HoardRun(front, c);
      HoardStep(Exec(front, false), front, e, c);
    }
  }

  lemma {:induction false} RemovedSnoc(es: seq<Event>, e: Event, c: string)
    ensures Removed(es + [e], c) <==> Removed(es, c) || (e.Remove? && e.code == c)
  {
    var all := es + [e];
    if Removed(es, c) {
      var i :| 0 <= i < |es| && es[i].Remove? && es[i].code == c;
      assert all[i] == es[i];
    }
    if e.Remove? && e.code == c {
      assert all[|es|] == e;
    }
  }

  /** A lookup succeeds exactly for a code that was made, that no redemption has deleted, and at a
      whole second before the one it was made in plus 600. */
  lemma {:induction false} RedeemsExactlyWhen(es: seq<Event>, c: string, at: int)
    requires Legal(es, true) && InOrder(es + [Lookup(c, at)]) && Enabled(Exec(es, true), Lookup(c, at))
    ensures var s := Exec(es, true);
      Answer(s, Lookup(c, at)).Some? <==> c in s.made && !Removed(es, c) && at < s.made[c].at + LIFETIME
  {
    CollectionUnobservable(es, Lookup(c, at));
    InOrderFront(es, Lookup(c, at));
    MatchRun(es);
    HoardRun(es, c);
    AnswerWhen(Exec(es, false), c, at);
  }

  lemma {:induction false} AnswerWhen(s: State, c: string, at: int)
    requires CodesOk(s) && Enabled(s, Lookup(c, at))
    ensures Answer(s, Lookup(c, at)).Some? <==> c in s.codes && c in s.made && at < s.made[c].at + LIFETIME
  {
    if c in s.codes {
      ExpiryTest(s, c, at);
    }
  }

  /** The event at position `i` looks `c` up and is given its account. */
  ghost predicate Succeeds(es: seq<Event>, i: nat, c: string)
    requires Legal(es, true) && i < |es|
  {
    Reaches(es, i);
    es[i].Lookup? && es[i].code == c && Answer(Exec(es[..i], true), es[i]).Some?
  }

  lemma {:induction false} Reaches(es: seq<Event>, i: nat)
    requires Legal(es, true) && i < |es|
    ensures Legal(es[..i], true) && Enabled(Exec(es[..i], true), es[i])
    decreases |es|
  {
    var front, last := es[..|es| - 1], es[|es| - 1];
    assert Legal(front, true) && Enabled(Exec(front, true), last);
    if i < |front| {
      assert front[..i] == es[..i] && front[i] == es[i];
      Reaches(front, i);
    } else {
      assert front == es[..i] && last == es[i];
    }
  }

  /** The event at position `i` makes the code. */
  predicate MakesAt(es: seq<Event>, i: int, c: string) {
    0 <= i < |es| && es[i].Insert? && es[i].code == c
  }

  /** A code is made by one event, whose second is remembered. */
  ghost predicate MadeBy(es: seq<Event>, made: map<string, Made>, c: string) {
    && (c in made ==> exists i :: MakesAt(es, i, c))
    && (forall i :: MakesAt(es, i, c) ==> c in made && es[i].at == made[c].at)
  }

  lemma {:induction false} MadeSnoc(es: seq<Event>, e: Event, s: State, c: string)
    requires MadeBy(es, s.made, c) && Enabled(s, e)
    ensures MadeBy(es + [e], Apply(s, e, true).made, c)
  {
    var all := es + [e];
    forall i | MakesAt(all, i, c) ensures i == |es| || MakesAt(es, i, c) {
      if i < |es| {
        assert all[i] == es[i];
      }
    }
    if c in s.made {
      var i :| MakesAt(es, i, c);
      assert all[i] == es[i] && MakesAt(all, i, c);
    } else if e.Insert? && e.code == c {
      assert all[|es|] == e && MakesAt(all, |es|, c);
    }
  }

  lemma {:induction false} MadeRun(es: seq<Event>, c: string)
    requires Legal(es, true)
    ensures MadeBy(es, Exec(es, true).made, c)
    decreases |es|
  {
    if es != [] {
      var front, e := es[..|es| - 1], es[|es| - 1];
      assert es == front + [e];
      MadeRun(front, c);
      MadeSnoc(front, e, Exec(front, true), c);
    }
  }

  /** When a redemption's lookup succeeds, in terms of the run alone: if and only if some event made
      the code less than 600 seconds before, and no redemption has deleted it since. */
  lemma {:induction false} SucceedsExactlyWhen(es: seq<Event>, j: nat, c: string)
    requires Legal(es, true) && InOrder(es) && j < |es| && es[j].Lookup? && es[j].code == c
    ensures Succeeds(es, j, c) <==>
      && (exists i :: i < j && MakesAt(es, i, c) && es[j].at < es[i].at + LIFETIME)
      && (forall k :: 0 <= k < j ==> !(es[k].Remove? && es[k].code == c))
  {
    var upTo := es[..j];
    Reaches(es, j);
    InOrderUpTo(es, j);
    assert es[j] == Lookup(c, es[j].at);
    RedeemsExactlyWhen(upTo, c, es[j].at);
    MadeRun(upTo, c);
    SamePrefix(es, j, c);
  }

  lemma {:induction false} SamePrefix(es: seq<Event>, j: nat, c: string)
    requires j <= |es|
    ensures forall i :: MakesAt(es[..j], i, c) <==> i < j && MakesAt(es, i, c)
    ensures forall i :: 0 <= i < j ==> es[..j][i] == es[i]
    ensures Removed(es[..j], c) <==> exists k :: 0 <= k < j && es[k].Remove? && es[k].code == c
  {
    if k :| 0 <= k < j && es[k].Remove? && es[k].code == c {
      assert es[..j][k] == es[k];
    }
  }

  /** Hence when one lookup of a code has succeeded, a later one succeeds too exactly if the code has
      not expired and no redemption has deleted it yet: only if the two redemptions overlap. */
  lemma {:induction false} TwoSuccessesOverlap(es: seq<Event>, i: nat, j: nat, c: string)
    requires Legal(es, true) && InOrder(es) && i < j < |es| && es[j].Lookup? && es[j].code == c
    requires Succeeds(es, i, c)
    ensures Succeeds(es, j, c) <==>
      && (exists m :: m < i && MakesAt(es, m, c) && es[j].at < es[m].at + LIFETIME)
      && (forall k :: i < k < j ==> !(es[k].Remove? && es[k].code == c))
  {
    SucceedsExactlyWhen(es, i, c);
    SucceedsExactlyWhen(es, j, c);
    var m :| m < i && MakesAt(es, m, c);
    OneMaker(es, m, c);
  }

  lemma {:induction false} OneMaker(es: seq<Event>, m: nat, c: string)
    requires Legal(es, true) && MakesAt(es, m, c)
    ensures forall n :: MakesAt(es, n, c) ==> es[n].at == es[m].at
  {
    MadeRun(es, c);
  }

  lemma {:induction false} InOrderUpTo(es: seq<Event>, j: nat)
    requires InOrder(es) && j < |es|
    ensures InOrder(es[..j] + [es[j]])
  {
    assert es[..j] + [es[j]] == es[..j + 1];
  }

  /** The lookup and the delete of a redemption are two statements, so a code redeems only once
      because redemptions of one code do not overlap: two that do both succeed. */
  lemma {:induction false} OverlappingRedemptions(c: string, accountId: string, t: int)
    requires InRange(t) && InRange(t + LIFETIME)
    ensures var es := [Insert(c, accountId, t), Lookup(c, t)];
      && Legal(es, true) && Enabled(Exec(es, true), Lookup(c, t))
      && c in Exec(es, true).holding && Answer(Exec(es, true), Lookup(c, t)).Some?
  {
    var insert, lookup := Insert(c, accountId, t), Lookup(c, t);
    var es := [insert, lookup];
    assert [insert][..0] == [] && es[..1] == [insert];
    assert Legal([], true) && Exec([], true) == INIT;
    assert Legal([insert], true);
    var s := Exec([insert], true);
    FreshCode(insert, lookup);
    LookupHolds(s, lookup);
    assert Legal(es, true) && Exec(es, true) == Apply(s, lookup, true);
  }

  lemma {:induction false} FreshCode(insert: Event, lookup: Event)
    requires insert.Insert? && lookup == Lookup(insert.code, insert.at) && Enabled(INIT, insert)
    ensures var s := Apply(INIT, insert, true); Enabled(s, lookup) && Answer(s, lookup).Some?
  {
    var s := Apply(INIT, insert, true);
    CodesStep(INIT, insert, Mark(insert), true);
    AnswerWhen(s, insert.code, insert.at);
  }

  lemma {:induction false} LookupHolds(s: State, e: Event)
    requires Enabled(s, e) && e.Lookup? && Answer(s, e).Some?
    ensures var after := Apply(s, e, true);
      Enabled(after, e) && Answer(after, e) == Answer(s, e) && e.code in after.holding
  {
  }
}
