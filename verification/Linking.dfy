/** Device linking (`linking.py`): the three tables behind it and the requests as code. */
module Linking {
  import opened Options
  import opened TextOrder
  import opened Timestamps
  import T = Tables
  import opened Database

  const MAX_LINK_ATTEMPTS_PER_15MIN: nat := 5
  const MAX_GLOBAL_LINK_ATTEMPTS_PER_15MIN: nat := 50
  const WINDOW: nat := 900
  const LIFETIME: nat := 600

  datatype Code = Code(accountId: string, expiresAt: string)
  datatype Attempt = Attempt(ip: string, code: string, at: string)

  /** `link_codes`, `link_attempts` and the account setting. */
  datatype Links = Links(codes: map<string, Code>, attempts: seq<Attempt>, account: Option<string>)

  // ---------------------------------------------------------------- statements

  /** `COUNT(*) ... WHERE [ip_address = ? AND] attempted_at > ?`. */
  function CountAfter(attempts: seq<Attempt>, ip: Option<string>, cutoff: string): nat {
    if attempts == [] then 0
    else
      var a := attempts[|attempts| - 1];
      CountAfter(attempts[..|attempts| - 1], ip, cutoff)
        + (if (ip == None || ip == Some(a.ip)) && Less(cutoff, a.at) then 1 else 0)
  }

  /** The whole seconds the database's clock shows at the statements of one redemption. */
  datatype Clock = Clock(countIp: int, countAll: int, insert: int, lookup: int)

  predicate Ticks(c: Clock) {
    && InRange(c.countIp - WINDOW) && InRange(c.countAll - WINDOW)
    && InRange(c.countIp) && InRange(c.countAll) && InRange(c.insert) && InRange(c.lookup)
    && c.countIp <= c.countAll <= c.insert <= c.lookup
  }

  /** The texts those statements compare with or store. */
  datatype Marks = Marks(ipCutoff: string, allCutoff: string, inserted: string, now: string)

  function MarksOf(c: Clock): Marks
    requires Ticks(c)
  {
    Marks(Stamp(c.countIp - WINDOW), Stamp(c.countAll - WINDOW), Stamp(c.insert), Stamp(c.lookup))
  }

  predicate Admitted(attempts: seq<Attempt>, ip: string, m: Marks) {
    && CountAfter(attempts, Some(ip), m.ipCutoff) < MAX_LINK_ATTEMPTS_PER_15MIN
    && CountAfter(attempts, None, m.allCutoff) < MAX_GLOBAL_LINK_ATTEMPTS_PER_15MIN
  }

  /** `DELETE FROM link_codes WHERE expires_at < now`. */
  function CollectCodes(codes: map<string, Code>, now: string): map<string, Code> {
    map c | c in codes && !Less(codes[c].expiresAt, now) :: codes[c]
  }

  /** `SELECT account_id FROM link_codes WHERE code = ? AND expires_at > now`. */
  function LookUp(codes: map<string, Code>, code: string, now: string): Option<string> {
    if code in codes && Less(now, codes[code].expiresAt) then Some(codes[code].accountId) else None
  }

  /** A whole generation: the code inserted, then every expired code deleted. */
  function Generate(l: Links, accountId: string, code: string, expires: string, now: string): Links {
    l.(codes := CollectCodes(l.codes[code := Code(accountId, expires)], now))
  }

  /** A whole redemption: what it answers and what it leaves in the link tables. */
  function Redeem(l: Links, code: string, ip: string, m: Marks): (Links, Option<string>) {
    if !Admitted(l.attempts, ip, m) then (l, None)
    else
      var logged := l.(attempts := l.attempts + [Attempt(ip, code, m.inserted)]);
      var found := LookUp(l.codes, code, m.now);
      if found == None then (logged, None)
      else (logged.(codes := l.codes - {code}, account := found), found)
  }

  lemma {:induction false} KeptWhile(now: int)
    requires InRange(now)
    ensures forall e :: InRange(e) ==> (Less(Stamp(e), Stamp(now)) <==> e < now)
  {
    hide Stamp;
    forall e | InRange(e) ensures Less(Stamp(e), Stamp(now)) <==> e < now {
      StampOrder(e, now);
    }
  }

  // ---------------------------------------------------------------- the code

  class LinkTables {
    var codes: map<string, Code>
    var attempts: seq<Attempt>
    var account: Option<string>

    ghost function Contents(): Links
      reads this
    {
      Links(codes, attempts, account)
    }

    constructor ()
      ensures Contents() == Links(map[], [], None)
    {
      codes, attempts, account := map[], [], None;
    }

    /** `code` is the random code drawn, valid for ten minutes; the clock may tick between the two
        statements. */
    method GenerateLinkCode(accountId: string, code: string, inserted: int, collected: int)
      requires code !in codes && InRange(inserted + LIFETIME) && InRange(collected)
      modifies this`codes
      ensures Contents() == Generate(old(Contents()), accountId, code, Stamp(inserted + LIFETIME), Stamp(collected))
      ensures code in codes <==> inserted + LIFETIME >= collected
      ensures code in codes ==> codes[code] == Code(accountId, Stamp(inserted + LIFETIME))
      ensures forall c, e :: c in old(codes) && InRange(e) && old(codes)[c].expiresAt == Stamp(e) ==>
        (c in codes <==> e >= collected) && (c in codes ==> codes[c] == old(codes)[c])
      ensures forall c :: c in codes ==> c == code || c in old(codes)
    {
      KeptWhile(collected);
      codes := codes[code := Code(accountId, Stamp(inserted + LIFETIME))];
      var now := Stamp(collected);
      codes := map c | c in codes && !Less(codes[c].expiresAt, now) :: codes[c];
    }

    /** `checkFails` if the database fails anywhere in the transaction, which then leaves nothing. */
    method RedeemLinkCode(db: MeshDB, code: string, nodeId: string, ip: string, c: Clock, checkFails: bool)
      returns (r: Option<string>)
      requires Ticks(c)
      modifies this, db
      ensures (Contents(), r) ==
        if checkFails then (old(Contents()), None) else Redeem(old(Contents()), code, ip, MarksOf(c))
      ensures db.Contents() == if r.Some? then T.SetAccount(old(db.Contents()), nodeId, r.value) else old(db.Contents())
      ensures r.Some? ==> code in old(codes) && r.value == old(codes)[code].accountId
      ensures r.Some? ==> codes == old(codes) - {code} && account == r
      ensures r.Some? && nodeId in old(db.nodes) ==>
        db.nodes == old(db.nodes)[nodeId := old(db.nodes)[nodeId].(accountId := r.value)]
      ensures r.Some? && nodeId !in old(db.nodes) ==> db.nodes == old(db.nodes)
      ensures r.None? ==> codes == old(codes) && account == old(account) && db.nodes == old(db.nodes)
      ensures db.heartbeats == old(db.heartbeats)
    {
      if checkFails {
        return None;
      }
      var m := MarksOf(c);
      r := RedeemAt(db, code, nodeId, ip, m);
    }

    method RedeemAt(db: MeshDB, code: string, nodeId: string, ip: string, m: Marks) returns (r: Option<string>)
      modifies this, db
      ensures (Contents(), r) == Redeem(old(Contents()), code, ip, m)
      ensures db.Contents() == if r.Some? then T.SetAccount(old(db.Contents()), nodeId, r.value) else old(db.Contents())
    {
      var recent := CountAfter(attempts, Some(ip), m.ipCutoff);
      if recent >= MAX_LINK_ATTEMPTS_PER_15MIN {
        return None;
      }
      var globalRecent := CountAfter(attempts, None, m.allCutoff);
      if globalRecent >= MAX_GLOBAL_LINK_ATTEMPTS_PER_15MIN {
        return None;
      }
      attempts := attempts + [Attempt(ip, code, m.inserted)];
      var row := LookUp(codes, code, m.now);
      if row == None {
        return None;
      }
      codes := codes - {code};
      account := row;
      db.SetAccount(nodeId, row.value);
      return row;
    }

    /** `drawn` is the random id to use if there is none yet. */
    method GetOrCreateAccountId(drawn: string) returns (id: string)
      modifies this`account
      ensures account == Some(id)
      ensures id == if old(account).Some? then old(account).value else drawn
    {
      if account.Some? {
        return account.value;
      }
      account := Some(drawn);
      return drawn;
    }
  }
}
