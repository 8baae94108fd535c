/** The sliding-window limit on redemptions, over every run. */
module RateLimit {
  import opened Options
  import opened TextOrder
  import opened Timestamps
  import opened Linking

  /** A row of the attempt table, its time read as an instant. */
  datatype Entry = Entry(ip: string, code: string, second: int)

  datatype Request = Request(ip: string, code: string, clock: Clock)

  predicate Concerns(e: Entry, ip: Option<string>) {
    ip == None || ip == Some(e.ip)
  }

  /** Attempts, of one address or of all, from second `lo` on. */
  function Since(log: seq<Entry>, ip: Option<string>, lo: int): nat {
    if log == [] then 0
    else
      var e := log[|log| - 1];
      Since(log[..|log| - 1], ip, lo) + (if Concerns(e, ip) && lo <= e.second then 1 else 0)
  }

  /** Attempts from second `lo` on and before second `hi`. */
  function Within(log: seq<Entry>, ip: Option<string>, lo: int, hi: int): nat {
    if log == [] then 0
    else
      var e := log[|log| - 1];
      Within(log[..|log| - 1], ip, lo, hi) + (if Concerns(e, ip) && lo <= e.second < hi then 1 else 0)
  }

  function Limit(ip: Option<string>): nat {
    if ip == None then MAX_GLOBAL_LINK_ATTEMPTS_PER_15MIN else MAX_LINK_ATTEMPTS_PER_15MIN
  }

  predicate HasRoom(log: seq<Entry>, r: Request) {
    && Since(log, Some(r.ip), r.clock.countIp - WINDOW + 1) < Limit(Some(r.ip))
    && Since(log, None, r.clock.countAll - WINDOW + 1) < Limit(None)
  }

  /** The log after a run of redemption requests. */
  function LogOf(rs: seq<Request>): seq<Entry> {
    if rs == [] then []
    else
      var before, r := LogOf(rs[..|rs| - 1]), rs[|rs| - 1];
      if HasRoom(before, r) then before + [Entry(r.ip, r.code, r.clock.insert)] else before
  }

  ghost predicate AllTick(rs: seq<Request>) {
    forall i :: 0 <= i < |rs| ==> Ticks(rs[i].clock)
  }

  // ---------------------------------------------------------------- the log is the table

  ghost predicate Timed(log: seq<Entry>) {
    forall i :: 0 <= i < |log| ==> InRange(log[i].second)
  }

  /** The attempt table that a log of entries is. */
  function Table(log: seq<Entry>): seq<Attempt>
    requires Timed(log)
  {
    if log == [] then []
    else Table(log[..|log| - 1]) + [Row(log[|log| - 1])]
  }

  function Row(e: Entry): Attempt
    requires InRange(e.second)
  {
    Attempt(e.ip, e.code, Stamp(e.second))
  }

  lemma {:induction false} CountSnoc(attempts: seq<Attempt>, a: Attempt, ip: Option<string>, cutoff: string)
    ensures CountAfter(attempts + [a], ip, cutoff) ==
      CountAfter(attempts, ip, cutoff) + (if (ip == None || ip == Some(a.ip)) && Less(cutoff, a.at) then 1 else 0)
  {
    assert (attempts + [a])[..|attempts|] == attempts;
  }

  /** The query's text comparison counts exactly the seconds after the cutoff. */
  lemma {:induction false} QueryCounts(log: seq<Entry>, ip: Option<string>, cutoff: int)
    requires Timed(log) && InRange(cutoff)
    ensures CountAfter(Table(log), ip, Stamp(cutoff)) == Since(log, ip, cutoff + 1)
  {
    if log != [] {
      var front, e := log[..|log| - 1], log[|log| - 1];
      QueryCounts(front, ip, cutoff);
      CountSnoc(Table(front), Row(e), ip, Stamp(cutoff));
      StampOrder(cutoff, e.second);
    }
  }

  lemma {:induction false} RoomByCounts(attempts: seq<Attempt>, m: Marks, log: seq<Entry>, r: Request)
    requires CountAfter(attempts, Some(r.ip), m.ipCutoff) == Since(log, Some(r.ip), r.clock.countIp - WINDOW + 1)
    requires CountAfter(attempts, None, m.allCutoff) == Since(log, None, r.clock.countAll - WINDOW + 1)
    ensures HasRoom(log, r) <==> Admitted(attempts, r.ip, m)
  {
  }

  lemma {:induction false} IpCutoff(c: Clock)
    requires Ticks(c)
    ensures MarksOf(c).ipCutoff == Stamp(c.countIp - WINDOW)
  {
  }

  lemma {:induction false} AllCutoff(c: Clock)
    requires Ticks(c)
    ensures MarksOf(c).allCutoff == Stamp(c.countAll - WINDOW)
  {
  }

  lemma {:induction false} CountByIp(log: seq<Entry>, r: Request)
    requires Timed(log) && Ticks(r.clock)
    ensures CountAfter(Table(log), Some(r.ip), MarksOf(r.clock).ipCutoff) ==
      Since(log, Some(r.ip), r.clock.countIp - WINDOW + 1)
  {
    IpCutoff(r.clock);
    QueryCounts(log, Some(r.ip), r.clock.countIp - WINDOW);
  }

  lemma {:induction false} CountByAll(log: seq<Entry>, r: Request)
    requires Timed(log) && Ticks(r.clock)
    ensures CountAfter(Table(log), None, MarksOf(r.clock).allCutoff) == Since(log, None, r.clock.countAll - WINDOW + 1)
  {
    AllCutoff(r.clock);
    QueryCounts(log, None, r.clock.countAll - WINDOW);
  }

  /** What the request tests in the table is what `HasRoom` tests in the log. */
  lemma {:induction false} RoomIsAdmission(attempts: seq<Attempt>, log: seq<Entry>, r: Request)
    requires Timed(log) && Ticks(r.clock) && attempts == Table(log)
    ensures HasRoom(log, r) <==> Admitted(attempts, r.ip, MarksOf(r.clock))
  {
    CountByIp(log, r);
    CountByAll(log, r);
    RoomByCounts(attempts, MarksOf(r.clock), log, r);
  }

  lemma {:induction false} LogIsTimed(rs: seq<Request>)
    requires AllTick(rs)
    ensures Timed(LogOf(rs))
  {
    if rs != [] {
      LogIsTimed(rs[..|rs| - 1]);
    }
  }

  /** Redemptions leave exactly the log in the attempt table, whatever else they find. */
  lemma {:induction false} LogIsTable(rs: seq<Request>, r: Request, l: Links)
    requires AllTick(rs) && Ticks(r.clock) && Timed(LogOf(rs)) && l.attempts == Table(LogOf(rs))
    ensures Timed(LogOf(rs + [r]))
    ensures Redeemed(l, r).attempts == Table(LogOf(rs + [r]))
  {
    var log, e := LogOf(rs), Entry(r.ip, r.code, r.clock.insert);
    assert (rs + [r])[..|rs|] == rs;
    RoomIsAdmission(l.attempts, log, r);
    assert (log + [e])[..|log|] == log;
    RedeemLogs(l, r.code, r.ip, MarksOf(r.clock));
  }

  lemma {:induction false} RedeemLogs(l: Links, code: string, ip: string, m: Marks)
    ensures Redeem(l, code, ip, m).0.attempts ==
      if Admitted(l.attempts, ip, m) then l.attempts + [Attempt(ip, code, m.inserted)] else l.attempts
  {
  }

  function Redeemed(l: Links, r: Request): Links
    requires Ticks(r.clock)
  {
    Redeem(l, r.code, r.ip, MarksOf(r.clock)).0
  }

  /** A run of redemptions over the link tables, each from the attempts the one before it left;
      anything else may happen to the codes in between. */
  ghost predicate Run(rs: seq<Request>, before: seq<Links>, after: seq<Links>) {
    && |before| == |after| == |rs| && AllTick(rs)
    && (forall i :: 0 <= i < |rs| ==> after[i] == Redeemed(before[i], rs[i]))
    && (forall i :: 0 <= i < |rs| ==> before[i].attempts == if i == 0 then [] else after[i - 1].attempts)
  }

  /** After every run the attempt table is the log that the window bounds speak of. */
  lemma {:induction false} TableOfRun(rs: seq<Request>, before: seq<Links>, after: seq<Links>)
    requires Run(rs, before, after) && rs != []
    ensures Timed(LogOf(rs)) && after[|rs| - 1].attempts == Table(LogOf(rs))
    decreases |rs|
  {
    hide *;
    var k := |rs| - 1;
    RunFront(rs, before, after);
    RunLast(rs, before, after, k);
    if k > 0 {
      TableOfRun(rs[..k], before[..k], after[..k]);
    } else {
      EmptyRun(rs[..k]);
    }
    assert rs == rs[..k] + [rs[k]];
    LogIsTable(rs[..k], rs[k], before[k]);
  }

  lemma {:induction false} EmptyRun(rs: seq<Request>)
    requires rs == []
    ensures LogOf(rs) == [] && Timed(LogOf(rs)) && Table(LogOf(rs)) == []
  {
  }

  lemma {:induction false} RunFront(rs: seq<Request>, before: seq<Links>, after: seq<Links>)
    requires Run(rs, before, after) && rs != []
    ensures Run(rs[..|rs| - 1], before[..|rs| - 1], after[..|rs| - 1]) && AllTick(rs[..|rs| - 1])
  {
    hide Redeemed;
  }

  lemma {:induction false} RunLast(rs: seq<Request>, before: seq<Links>, after: seq<Links>, k: nat)
    requires Run(rs, before, after) && k < |rs|
    ensures |before| == |after| == |rs| && Ticks(rs[k].clock)
    ensures before[k].attempts == (if k == 0 then [] else after[k - 1].attempts)
    ensures after[k] == Redeemed(before[k], rs[k])
  {
    hide Redeemed;
  }

  // ---------------------------------------------------------------- windows

  lemma {:induction false} SinceCovers(log: seq<Entry>, ip: Option<string>, lo: int, hi: int, lo': int)
    requires lo' <= lo
    ensures Within(log, ip, lo, hi) <= Since(log, ip, lo')
  {
    if log != [] {
      SinceCovers(log[..|log| - 1], ip, lo, hi, lo');
    }
  }

  lemma {:induction false} WithinSnoc(log: seq<Entry>, e: Entry, ip: Option<string>, lo: int, hi: int)
    ensures Within(log + [e], ip, lo, hi) ==
      Within(log, ip, lo, hi) + (if Concerns(e, ip) && lo <= e.second < hi then 1 else 0)
  {
    assert (log + [e])[..|log|] == log;
  }

  /** A window that would take in the new entry starts late enough for the request's query to have
      counted everything already in it. */
  lemma {:induction false} RoomForOne(log: seq<Entry>, r: Request, ip: Option<string>, w: int)
    requires HasRoom(log, r) && (ip == None || ip == Some(r.ip))
    requires r.clock.countIp <= r.clock.insert && r.clock.countAll <= r.clock.insert < w + WINDOW
    ensures Within(log, ip, w, w + WINDOW) < Limit(ip)
  {
    SinceCovers(log, ip, w, w + WINDOW, (if ip == None then r.clock.countAll else r.clock.countIp) - WINDOW + 1);
  }

  /** Every half-open window of 15 minutes, wherever it starts and whenever it is looked at, holds
      at most 5 attempts per address and 50 in all, even if the clock ticks between a request's
      counts and its insert. */
  lemma {:induction false} EveryWindowBounded(rs: seq<Request>, ip: Option<string>, w: int)
    requires AllTick(rs)
    ensures Within(LogOf(rs), ip, w, w + WINDOW) <= Limit(ip)
  {
    if rs != [] {
      var front, r := rs[..|rs| - 1], rs[|rs| - 1];
      EveryWindowBounded(front, ip, w);
      var e := Entry(r.ip, r.code, r.clock.insert);
      WithinSnoc(LogOf(front), e, ip, w, w + WINDOW);
      if HasRoom(LogOf(front), r) && Concerns(e, ip) && e.second < w + WINDOW {
        RoomForOne(LogOf(front), r, ip, w);
      }
    }
  }

  lemma {:induction false} WindowsAdd(log: seq<Entry>, ip: Option<string>, lo: int, mid: int, hi: int)
    requires lo <= mid <= hi
    ensures Within(log, ip, lo, hi) == Within(log, ip, lo, mid) + Within(log, ip, mid, hi)
  {
    if log != [] {
      WindowsAdd(log[..|log| - 1], ip, lo, mid, hi);
    }
  }

  lemma {:induction false} ManyWindows(rs: seq<Request>, ip: Option<string>, lo: int, k: nat)
    requires AllTick(rs)
    ensures Within(LogOf(rs), ip, lo, lo + k * WINDOW) <= k * Limit(ip)
    decreases k
  {
    if k == 0 {
      Nothing(LogOf(rs), ip, lo);
    } else {
      var mid := lo + (k - 1) * WINDOW;
      ManyWindows(rs, ip, lo, k - 1);
      EveryWindowBounded(rs, ip, mid);
      WindowsAdd(LogOf(rs), ip, lo, mid, mid + WINDOW);
      Distribute(k, Limit(ip));
    }
  }

  lemma {:induction false} Distribute(k: nat, n: nat)
    requires k > 0
    ensures k * n == (k - 1) * n + n
  {
  }

  lemma {:induction false} Nothing(log: seq<Entry>, ip: Option<string>, lo: int)
    ensures Within(log, ip, lo, lo) == 0
  {
    if log != [] {
      Nothing(log[..|log| - 1], ip, lo);
    }
  }

  /** Hence an interval that `k` windows cover holds at most `k` times as many. */
  lemma {:induction false} LongIntervalBounded(rs: seq<Request>, ip: Option<string>, lo: int, length: nat, k: nat)
    requires AllTick(rs) && length <= k * WINDOW
    ensures Within(LogOf(rs), ip, lo, lo + length) <= k * Limit(ip)
  {
    ManyWindows(rs, ip, lo, k);
    WindowsAdd(LogOf(rs), ip, lo, lo + length, lo + k * WINDOW);
  }

  // ---------------------------------------------------------------- no one else is refused

  lemma {:induction false} NoneLater(rs: seq<Request>, t: int)
    requires forall i :: 0 <= i < |rs| ==> rs[i].clock.insert <= t
    ensures forall i :: 0 <= i < |LogOf(rs)| ==> LogOf(rs)[i].second <= t
  {
    if rs != [] {
      NoneLater(rs[..|rs| - 1], t);
    }
  }

  lemma {:induction false} SinceUpTo(log: seq<Entry>, ip: Option<string>, lo: int, t: int)
    requires forall i :: 0 <= i < |log| ==> log[i].second <= t
    ensures Since(log, ip, lo) == Within(log, ip, lo, t + 1)
  {
    if log != [] {
      SinceUpTo(log[..|log| - 1], ip, lo, t);
    }
  }

  /** A request is turned away exactly when the 15 minutes up to its own counts are already full,
      for its address or for everyone. */
  lemma {:induction false} RefusedOnlyWhenFull(rs: seq<Request>, r: Request)
    requires AllTick(rs) && Ticks(r.clock)
    requires forall i :: 0 <= i < |rs| ==> rs[i].clock.insert <= r.clock.countIp
    ensures !HasRoom(LogOf(rs), r) <==>
      || Within(LogOf(rs), Some(r.ip), r.clock.countIp - WINDOW + 1, r.clock.countIp + 1) == Limit(Some(r.ip))
      || Within(LogOf(rs), None, r.clock.countAll - WINDOW + 1, r.clock.countAll + 1) == Limit(None)
  {
    hide Since, Within, LogOf;
    NoneLater(rs, r.clock.countIp);
    FullMeansLimit(rs, Some(r.ip), r.clock.countIp);
    FullMeansLimit(rs, None, r.clock.countAll);
  }

  lemma {:induction false} FullMeansLimit(rs: seq<Request>, ip: Option<string>, t: int)
    requires AllTick(rs)
    requires forall i :: 0 <= i < |LogOf(rs)| ==> LogOf(rs)[i].second <= t
    ensures Since(LogOf(rs), ip, t - WINDOW + 1) < Limit(ip) <==>
      Within(LogOf(rs), ip, t - WINDOW + 1, t + 1) != Limit(ip)
  {
    SinceUpTo(LogOf(rs), ip, t - WINDOW + 1, t);
    EveryWindowBounded(rs, ip, t - WINDOW + 1);
  }

  /** The two limits in numbers: any 900 seconds hold at most 5 attempts of one address and 50 in all. */
  lemma {:induction false} FiveAndFifty(rs: seq<Request>, ip: string, w: int)
    requires AllTick(rs)
    ensures Within(LogOf(rs), Some(ip), w, w + 900) <= 5
    ensures Within(LogOf(rs), None, w, w + 900) <= 50
  {
    EveryWindowBounded(rs, Some(ip), w);
    EveryWindowBounded(rs, None, w);
  }

  /** `Within` counts the attempts of the window, each once. */
  lemma {:induction false} WithinIsCount(log: seq<Entry>, ip: Option<string>, lo: int, hi: int)
    ensures Within(log, ip, lo, hi) == |Counted(log, ip, lo, hi)|
  {
    if log == [] {
      assert Counted(log, ip, lo, hi) == {};
    } else {
      WithinIsCount(log[..|log| - 1], ip, lo, hi);
      CountedNext(log, ip, lo, hi);
    }
  }

  /** The attempts in a window, by their place in the log. */
  function Counted(log: seq<Entry>, ip: Option<string>, lo: int, hi: int): set<int> {
    set i | 0 <= i < |log| && (ip == None || ip == Some(log[i].ip)) && lo <= log[i].second < hi
  }

  lemma {:induction false} CountedNext(log: seq<Entry>, ip: Option<string>, lo: int, hi: int)
    requires log != []
    ensures var k := |log| - 1;
      && k !in Counted(log[..k], ip, lo, hi)
      && Counted(log, ip, lo, hi) == Counted(log[..k], ip, lo, hi)
           + (if Concerns(log[k], ip) && lo <= log[k].second < hi then {k} else {})
  {
  }
}
