/** Whole sequential runs of banUser, isUserBanned, isIPBanned and createUser's insert, with a
    clock that does not go back.  The answers are compared with what the history of the run alone
    says: the latest successful ban, with no row ever deleted. */
module BanRuns {
  import opened Domain
  import opened Tables
  import opened Bans

  datatype Op =
    | Ban(uname: string, days: int)
    | AskUser(uname: string, ip: string)
    | AskIp(ip: string)
    | NewUser(uname: string, token: string, admin: bool)

  /** A call, its first clock reading, the later one made by the nested isIPBanned, its answer. */
  datatype Event = Event(op: Op, now: int, later: int, answer: Result<bool>)

  function Do(db: Database, op: Op, now: int, later: int): (Database, Result<bool>) {
    match op
    case Ban(u, days) =>
      var r := BanUser(db, u, days, now);
      (r.db, if r.ok then Ok(true) else Thrown)
    case AskUser(u, ip) => IsUserBanned(db, u, ip, now, later)
    case AskIp(ip) =>
      var (db', b) := IsIpBanned(db, ip, now);
      (db', Ok(b))
    case NewUser(u, token, admin) =>
      var r := InsertUser(db, u, token, admin);
      (r.db, if r.ok then Ok(true) else Thrown)
  }

  /** dbs[i] is the database before event i. */
  ghost predicate IsHistory(hist: seq<Event>, dbs: seq<Database>) {
    && |dbs| == |hist| + 1
    && Inv(dbs[0])
    && (forall i :: 0 <= i < |hist| ==>
          Do(dbs[i], hist[i].op, hist[i].now, hist[i].later) == (dbs[i + 1], hist[i].answer))
    && (forall i :: 0 <= i < |hist| ==> hist[i].now <= hist[i].later)
    && (forall i, j :: 0 <= i < j < |hist| ==> hist[i].later <= hist[j].now)
  }

  // ---- What the history says ----

  /** The expiry set by the latest successful banUser of n; before any, the one in the table. */
  function Until(db0: Database, hist: seq<Event>, n: string): Option<int> {
    if hist == [] then BanExpiry(db0, n)
    else
      var e := hist[|hist| - 1];
      if e.op.Ban? && e.op.uname == n && e.answer.Ok? then Some(e.now + BanSpan(e.op.days))
      else Until(db0, hist[..|hist| - 1], n)
  }

  /** An address takes over the expiry of a banned user who is seen there while the address is
      not itself under a current ban. */
  function IpUntil(db0: Database, hist: seq<Event>, k: string): Option<int>
    decreases |hist|, 0
  {
    if hist == [] then IpExpiry(db0, k)
    else
      var e, init := hist[|hist| - 1], hist[..|hist| - 1];
      if Records(db0, init, e, k) then Until(db0, init, e.op.uname) else IpUntil(db0, init, k)
  }

  predicate Records(db0: Database, init: seq<Event>, e: Event, k: string)
    decreases |init|, 1
  {
    && e.op.AskUser? && e.answer == Ok(true)
    && Varchar(50, e.op.ip) == Some(k)
    && !Current(IpUntil(db0, init, e.op.ip), e.later)
  }

  // ---- The tables agree with the history ----

  /** The table holds the expiry itself, or nothing when it is past at time now. */
  predicate Agrees(stored: Option<int>, until: Option<int>, now: int) {
    stored == until || (stored == None && !Current(until, now))
  }

  ghost predicate AllAgree(db: Database, db0: Database, hist: seq<Event>, now: int) {
    && (forall n :: Agrees(BanExpiry(db, n), Until(db0, hist, n), now))
    && (forall k :: Agrees(IpExpiry(db, k), IpUntil(db0, hist, k), now))
  }

  lemma SameUserBans(db: Database, db': Database, n: string)
    requires db'.users == db.users && db'.userBans == db.userBans
    ensures BanExpiry(db', n) == BanExpiry(db, n)
  {
  }

  lemma IsUserBannedKeepsUsers(db: Database, u: string, ip: string, now: int, later: int, n: string)
    requires Inv(db)
    ensures BanExpiry(IsUserBanned(db, u, ip, now, later).0, n) ==
      if n == u && !Current(BanExpiry(db, u), now) then None else BanExpiry(db, n)
  {
    hide Inv, DeleteUserBan, InsertIpBan, IsIpBanned, IpExpiry, Varchar;
    var db' := IsUserBanned(db, u, ip, now, later).0;
    if Current(BanExpiry(db, u), now) {
      IsIpBannedEffect(db, ip, later, ip);
      InsertIpBanEffect(IsIpBanned(db, ip, later).0, ip, BanExpiry(db, u).value, ip);
      SameUserBans(db, db', n);
    } else {
      DeleteUserBanEffect(db, u, n);
    }
  }

  lemma IsUserBannedSetsIp(db: Database, u: string, ip: string, now: int, later: int, k: string)
    requires Inv(db)
    ensures IpExpiry(IsUserBanned(db, u, ip, now, later).0, k) ==
      if !Current(BanExpiry(db, u), now) || Current(IpExpiry(db, ip), later) then IpExpiry(db, k)
      else if IsUserBanned(db, u, ip, now, later).1.Ok? && Varchar(50, ip) == Some(k)
      then BanExpiry(db, u)
      else if k == ip then None
      else IpExpiry(db, k)
  {
    hide Inv, DeleteUserBan, InsertIpBan, IsIpBanned, BanExpiry, Varchar;
    if Current(BanExpiry(db, u), now) {
      IsIpBannedEffect(db, ip, later, k);
      IsIpBannedEffect(db, ip, later, ip);
      InsertIpBanEffect(IsIpBanned(db, ip, later).0, ip, BanExpiry(db, u).value, k);
    } else {
      DeleteUserBanEffect(db, u, u);
    }
  }

  lemma DoKeepsInv(db: Database, op: Op, now: int, later: int)
    requires Inv(db)
    ensures Inv(Do(db, op, now, later).0)
  {
    hide Inv, BanUser, IsUserBanned, IsIpBanned, InsertUser;
    match op
    case Ban(u, days) => BanUserEffect(db, u, days, now, u);
    case AskUser(u, ip) => IsUserBannedEffect(db, u, ip, now, later);
    case AskIp(ip) => IsIpBannedEffect(db, ip, now, ip);
    case NewUser(u, token, admin) => InsertUserEffect(db, u, token, admin, u);
  }

  lemma UsersAgreeStep(db: Database, db0: Database, init: seq<Event>, e: Event, c: int, n: string)
    requires Inv(db) && AllAgree(db, db0, init, e.now) && e.now <= e.later <= c
    requires Do(db, e.op, e.now, e.later).1 == e.answer
    ensures Agrees(BanExpiry(Do(db, e.op, e.now, e.later).0, n), Until(db0, init + [e], n), c)
  {
    hide Inv, BanUser, IsUserBanned, IsIpBanned, InsertUser, IpExpiry, BanSpan, Varchar;
    assert (init + [e])[..|init|] == init;
    assert Agrees(BanExpiry(db, n), Until(db0, init, n), e.now);
    match e.op
    case Ban(u, days) => BanUserEffect(db, u, days, e.now, n);
    case AskUser(u, ip) => IsUserBannedKeepsUsers(db, u, ip, e.now, e.later, n);
    case AskIp(ip) => IsIpBannedEffect(db, ip, e.now, ip);
    case NewUser(u, token, admin) => InsertUserEffect(db, u, token, admin, n);
  }

  lemma IpsAgreeStep(db: Database, db0: Database, init: seq<Event>, e: Event, c: int, k: string)
    requires Inv(db) && AllAgree(db, db0, init, e.now) && e.now <= e.later <= c
    requires Do(db, e.op, e.now, e.later).1 == e.answer
    ensures Agrees(IpExpiry(Do(db, e.op, e.now, e.later).0, k), IpUntil(db0, init + [e], k), c)
  {
    hide Inv, BanUser, IsUserBanned, IsIpBanned, InsertUser, BanExpiry, BanSpan, Varchar;
    assert (init + [e])[..|init|] == init;
    assert Agrees(IpExpiry(db, k), IpUntil(db0, init, k), e.now);
    match e.op
    case Ban(u, days) => BanUserEffect(db, u, days, e.now, u);
    case AskUser(u, ip) =>
      assert Agrees(IpExpiry(db, ip), IpUntil(db0, init, ip), e.now);
      assert Agrees(BanExpiry(db, u), Until(db0, init, u), e.now);
      IsUserBannedEffect(db, u, ip, e.now, e.later);
      IsUserBannedSetsIp(db, u, ip, e.now, e.later, k);
    case AskIp(ip) => IsIpBannedEffect(db, ip, e.now, k);
    case NewUser(u, token, admin) => InsertUserEffect(db, u, token, admin, u);
  }

  /** Before every event, at any clock reading not before the events so far. */
  lemma {:induction false} HistoryAgrees(hist: seq<Event>, dbs: seq<Database>, i: nat, c: int)
    requires IsHistory(hist, dbs) && i <= |hist|
    requires forall j :: 0 <= j < i ==> hist[j].later <= c
    ensures Inv(dbs[i]) && AllAgree(dbs[i], dbs[0], hist[..i], c)
  {
    hide Inv, Do, BanExpiry, IpExpiry;
    if i == 0 {
    } else {
      var e, init := hist[i - 1], hist[..i - 1];
      HistoryAgrees(hist, dbs, i - 1, e.now);
      assert hist[..i] == init + [e];
      assert Do(dbs[i - 1], e.op, e.now, e.later) == (dbs[i], e.answer);
      DoKeepsInv(dbs[i - 1], e.op, e.now, e.later);
      forall n: string ensures Agrees(BanExpiry(dbs[i], n), Until(dbs[0], hist[..i], n), c) {
        UsersAgreeStep(dbs[i - 1], dbs[0], init, e, c, n);
      }
      forall k: string ensures Agrees(IpExpiry(dbs[i], k), IpUntil(dbs[0], hist[..i], k), c) {
        IpsAgreeStep(dbs[i - 1], dbs[0], init, e, c, k);
      }
    }
  }

  lemma AnswersAgree(db: Database, db0: Database, init: seq<Event>, e: Event)
    requires Inv(db) && AllAgree(db, db0, init, e.now)
    requires Do(db, e.op, e.now, e.later).1 == e.answer
    ensures e.op.AskUser? && e.answer.Ok? ==>
      (e.answer.value <==> Current(Until(db0, init, e.op.uname), e.now))
    ensures e.op.AskUser? ==> (e.answer == Thrown <==>
      && |e.op.ip| > 50 && Current(Until(db0, init, e.op.uname), e.now)
      && (Varchar(50, e.op.ip) == None || IpExpiry(db, Varchar(50, e.op.ip).value).Some?))
    ensures e.op.AskIp? ==> e.answer == Ok(Current(IpUntil(db0, init, e.op.ip), e.now))
  {
    hide Inv, BanUser, IsUserBanned, IsIpBanned, InsertUser, BanExpiry, IpExpiry, BanSpan;
    match e.op
    case AskUser(u, ip) =>
      assert Agrees(BanExpiry(db, u), Until(db0, init, u), e.now);
      IsUserBannedEffect(db, u, ip, e.now, e.later);
      ThrowsExactly(db, u, ip, e.now, e.later);
    case AskIp(ip) =>
      assert Agrees(IpExpiry(db, ip), IpUntil(db0, init, ip), e.now);
      IsIpBannedEffect(db, ip, e.now, ip);
    case _ =>
  }

  /** Lazy expiry is unobservable: every answer is what the history alone determines, however
      many expired rows were deleted and re-inserted on the way.  The one way not to get an answer
      is a banned user at an address too long for its column, trimmed onto none or onto a row. */
  lemma LazyExpiryIsUnobservable(hist: seq<Event>, dbs: seq<Database>, i: nat)
    requires IsHistory(hist, dbs) && i < |hist|
    ensures hist[i].op.AskUser? && hist[i].answer.Ok? ==>
      (hist[i].answer.value <==> Current(Until(dbs[0], hist[..i], hist[i].op.uname), hist[i].now))
    ensures hist[i].op.AskUser? ==> var ip := hist[i].op.ip; (hist[i].answer == Thrown <==>
      && |ip| > 50 && Current(Until(dbs[0], hist[..i], hist[i].op.uname), hist[i].now)
      && (Varchar(50, ip) == None || IpExpiry(dbs[i], Varchar(50, ip).value).Some?))
    ensures hist[i].op.AskIp? ==>
      hist[i].answer == Ok(Current(IpUntil(dbs[0], hist[..i], hist[i].op.ip), hist[i].now))
  {
    var e := hist[i];
    assert Do(dbs[i], e.op, e.now, e.later) == (dbs[i + 1], e.answer);
    HistoryAgrees(hist, dbs, i, e.now);
    AnswersAgree(dbs[i], dbs[0], hist[..i], hist[i]);
  }

  /** A run can start on the tables of an empty database. */
  lemma EmptyHistory()
    ensures IsHistory([], [EMPTY])
  {
  }

  /** At every moment of a run: at most one row per user and per address. */
  lemma OneRowEach(hist: seq<Event>, dbs: seq<Database>, i: nat)
    requires IsHistory(hist, dbs) && i <= |hist|
    ensures OnePerUser(dbs[i].userBans) && OnePerIp(dbs[i].ipBans)
  {
    ghost var c := if i == 0 then 0 else hist[i - 1].later;
    HistoryAgrees(hist, dbs, i, c);
  }

  /** Event j of the run inserted the address ban b, with the expiry that the banned user it asked
      about had at that moment. */
  ghost predicate InsertedBy(hist: seq<Event>, dbs: seq<Database>, j: nat, b: IpBan) {
    && j < |hist| && j + 1 < |dbs|
    && b !in dbs[j].ipBans && b in dbs[j + 1].ipBans
    && hist[j].op.AskUser? && hist[j].answer == Ok(true)
    && Varchar(50, hist[j].op.ip) == Some(b.ip)
    && BanExpiry(dbs[j], hist[j].op.uname) == Some(b.expire)
    && hist[j].now <= b.expire
  }

  /** Only isUserBanned, answering true, adds an address row. */
  lemma NewIpRow(db: Database, op: Op, now: int, later: int, b: IpBan)
    requires b in Do(db, op, now, later).0.ipBans && b !in db.ipBans
    ensures op.AskUser? && Do(db, op, now, later).1 == Ok(true)
    ensures Varchar(50, op.ip) == Some(b.ip)
    ensures BanExpiry(db, op.uname) == Some(b.expire) && now <= b.expire
  {
    hide BanExpiry, IpExpiry, Varchar, BanSpan;
  }

  /** Every address row that was not there at the start was inserted by an event of the run, with
      the expiry of a user banned at that moment. */
  lemma {:induction false} IpBanHasSource(hist: seq<Event>, dbs: seq<Database>, i: nat, b: IpBan)
    requires IsHistory(hist, dbs) && i <= |hist|
    requires b in dbs[i].ipBans && b !in dbs[0].ipBans
    ensures exists j: nat :: j < i && InsertedBy(hist, dbs, j, b)
  {
    hide Inv, Do, BanExpiry, Varchar;
    if i == 0 {
    } else if b in dbs[i - 1].ipBans {
      IpBanHasSource(hist, dbs, i - 1, b);
    } else {
      var e := hist[i - 1];
      assert Do(dbs[i - 1], e.op, e.now, e.later) == (dbs[i], e.answer);
      NewIpRow(dbs[i - 1], e.op, e.now, e.later, b);
      assert InsertedBy(hist, dbs, i - 1, b);
    }
  }
}
