/** User and IP bans: the arithmetic of banUser, the lazily expired ban tables, and the proof
    that deleting expired rows on the way is never observable. */
module Bans {
  import opened Domain
  import opened Tables

  // ---- The duration handed to SQL ----

  /** The value a 32-bit int keeps of x (two's complement). */
  function Wrap32(x: int): int {
    (x + 0x8000_0000) % 0x1_0000_0000 - 0x8000_0000
  }

  /** days * 24 * 60 * 60 * 1000, every product taken in a 32-bit int. */
  function BanSpan(days: int): int {
    Wrap32(Wrap32(Wrap32(Wrap32(days * 24) * 60) * 60) * 1000)
  }

  /** No product of the chain leaves the range of int, so the C++ expression is defined. */
  predicate ChainIsDefined(days: int) {
    IsInt4(days * 24) && IsInt4(days * 24 * 60) && IsInt4(days * 24 * 60 * 60) &&
    IsInt4(days * 24 * 60 * 60 * 1000)
  }

  lemma WrapOnce(x: int, c: int)
    requires c == 60 || c == 1000
    ensures Wrap32(Wrap32(x) * c) == Wrap32(x * c)
  {
    var q := (x + 0x8000_0000) / 0x1_0000_0000;
    assert Wrap32(x) == x - q * 0x1_0000_0000;
    assert Wrap32(x) * c == x * c - q * c * 0x1_0000_0000;
    WrapShift(x * c, -(q * c));
  }

  lemma WrapShift(x: int, k: int)
    ensures Wrap32(x + k * 0x1_0000_0000) == Wrap32(x)
  {
  }

  /** The one 32-bit value congruent to x, which is x itself exactly when x fits. */
  lemma WrapMeans(x: int)
    ensures -0x8000_0000 <= Wrap32(x) < 0x8000_0000 && (x - Wrap32(x)) % 0x1_0000_0000 == 0
    ensures Wrap32(x) == x <==> -0x8000_0000 <= x < 0x8000_0000
  {
    var q := (x + 0x8000_0000) / 0x1_0000_0000;
    assert x - Wrap32(x) == q * 0x1_0000_0000;
  }

  /** The chain is defined, and equals the mathematical product, exactly for at most 24 days. */
  lemma BanSpanIsExact(days: int)
    requires IsInt4(days)
    ensures BanSpan(days) == Wrap32(days * 86_400_000)
    ensures BanSpan(days) == days * 86_400_000 <==> -24 <= days <= 24
    ensures ChainIsDefined(days) <==> -24 <= days <= 24
  {
    WrapOnce(days * 24, 60);
    WrapOnce(days * 24 * 60, 60);
    WrapOnce(days * 24 * 60 * 60, 1000);
    assert BanSpan(days) == Wrap32(days * 86_400_000);
  }

  /** For a defined chain the stored sum fits the int column exactly up to this many days. */
  lemma StoredSumFits(now: int, days: int)
    requires 0 <= now && IsInt4(now) && 0 <= days && IsInt4(days)
    ensures IsInt4(now + days * 86_400_000) <==> days <= (0x7FFF_FFFF - now) / 86_400_000
    ensures ChainIsDefined(days) ==>
      (IsInt4(now + BanSpan(days)) <==> days <= (0x7FFF_FFFF - now) / 86_400_000)
  {
    BanSpanIsExact(days);
  }

  /** Past 24 days the wrapped chain can store a ban that is shorter than one of 24 days: 50 days
      wrap to 25032704. */
  lemma LongBanCanWrap(now: int)
    requires 0 <= now <= 1_700_000_000
    ensures BanSpan(50) == 25_032_704 && IsInt4(now + BanSpan(50))
    ensures !IsInt4(now + 50 * 86_400_000)
  {
  }

  // ---- The three calls, as functions of the tables ----

  /** DBPostgres::isIPBanned at clock reading now. */
  function IsIpBanned(db: Database, ip: string, now: int): (Database, bool) {
    match IpExpiry(db, ip)
    case None => (db, false)
    case Some(expire) => if now > expire then (DeleteIpBan(db, ip), false) else (db, true)
  }

  /** DBPostgres::isUserBanned; later is the clock reading inside its call of isIPBanned. */
  function IsUserBanned(db: Database, uname: string, ip: string, now: int, later: int)
    : (Database, Result<bool>)
  {
    match BanExpiry(db, uname)
    case None => (db, Ok(false))
    case Some(expire) =>
      if now > expire then (DeleteUserBan(db, uname), Ok(false))
      else
        var (db1, known) := IsIpBanned(db, ip, later);
        if known then (db1, Ok(true))
        else
          var r := InsertIpBan(db1, ip, expire);
          (r.db, if r.ok then Ok(true) else Thrown)
  }

  /** DBPostgres::banUser; ok is false when it throws. */
  function BanUser(db: Database, uname: string, days: int, now: int): Exec {
    BanFor(db, uname, BanSpan(days), now)
  }

  function BanFor(db: Database, uname: string, span: int, now: int): Exec {
    match FindUser(db, uname)
    case None => Exec(db, false)
    case Some(u) =>
      if BanOf(db, u.id).Some? then UpdateUserBan(db, u.id, now, span)
      else InsertUserBan(db, u.id, now, span)
  }

  /** The BanUser RPC for a caller with credentials. */
  function BanRpc(db: Database, name: string, token: string, target: string, days: int, now: int)
    : (Database, Status)
  {
    if First(db.users, (u: UserRow) => u.uname == name && u.token == token) == None
    then (db, UNAUTHENTICATED("Invalid user"))
    else if First(db.users, (u: UserRow) => u.uname == name && u.admin) == None
    then (db, UNAUTHENTICATED("Invalid permission"))
    else
      var r := BanUser(db, target, days, now);
      (r.db, if r.ok then OK else INTERNAL)
  }

  /** What the two checks mean together: the ban is attempted exactly when one row holds the name,
      the token and admin = true, and a refused caller changes nothing. */
  lemma BanRpcMeans(db: Database, name: string, token: string, target: string, days: int, now: int)
    requires UsersOk(db)
    ensures var (db', st) := BanRpc(db, name, token, target, days, now);
      && (st == OK <==>
            && BanUser(db, target, days, now).ok
            && exists u :: u in db.users && u.uname == name && u.token == token && u.admin)
      && (st == OK || st == INTERNAL ==> db' == BanUser(db, target, days, now).db)
      && (st != OK && st != INTERNAL ==> db' == db)
      && (st == UNAUTHENTICATED("Invalid user") <==>
            forall u :: u in db.users && u.uname == name ==> u.token != token)
      && (st == UNAUTHENTICATED("Invalid permission") <==>
            && (exists u :: u in db.users && u.uname == name && u.token == token)
            && forall u :: u in db.users && u.uname == name ==> !u.admin)
      && (st == INTERNAL <==>
            && !BanUser(db, target, days, now).ok
            && exists u :: u in db.users && u.uname == name && u.token == token && u.admin)
  {
    hide UsersOk, BanUser;
    OneUserPerName(db);
  }

  /** At most one ban row per user; the schema does not say so, sequential calls keep it. */
  predicate OnePerUser(rows: seq<UserBan>) {
    forall i, j :: 0 <= i < j < |rows| ==> rows[i].userId != rows[j].userId
  }

  predicate Inv(db: Database) {
    Valid(db) && OnePerUser(db.userBans)
  }

  // ---- What each statement does to every lookup ----

  lemma {:induction false} DropKeepsOnePerUser(rows: seq<UserBan>, id: int)
    requires OnePerUser(rows)
    ensures OnePerUser(DropUserBans(rows, id))
  {
    if rows == [] {
    } else {
      var init, r := rows[..|rows| - 1], DropUserBans(rows, id);
      DropKeepsOnePerUser(init, id);
      forall i, j | 0 <= i < j < |r| ensures r[i].userId != r[j].userId {
        assert r[i] in DropUserBans(init, id) && r[i] in init;
      }
    }
  }

  lemma {:induction false} DropKeepsOnePerIp(rows: seq<IpBan>, ip: string)
    requires OnePerIp(rows)
    ensures OnePerIp(DropIpBans(rows, ip))
  {
    if rows == [] {
    } else {
      var init, r := rows[..|rows| - 1], DropIpBans(rows, ip);
      DropKeepsOnePerIp(init, ip);
      forall i, j | 0 <= i < j < |r| ensures r[i].ip != r[j].ip {
        assert r[i] in DropIpBans(init, ip) && r[i] in init;
      }
    }
  }

  lemma UserBanIdsInit(rows: seq<UserBan>, next: nat)
    requires UserBanIds(rows, next) && rows != []
    ensures UserBanIds(rows[..|rows| - 1], next) && 0 < rows[|rows| - 1].id < next
    ensures forall b :: b in rows[..|rows| - 1] ==> b.id < rows[|rows| - 1].id
  {
  }

  lemma UserBanIdsAppend(rows: seq<UserBan>, last: UserBan, next: nat)
    requires UserBanIds(rows, next) && 0 < last.id < next
    requires forall b :: b in rows ==> b.id < last.id
    ensures UserBanIds(rows + [last], next)
  {
  }

  lemma {:induction false} DropKeepsUserBanIds(rows: seq<UserBan>, id: int, next: nat)
    requires UserBanIds(rows, next)
    ensures UserBanIds(DropUserBans(rows, id), next)
  {
    hide UserBanIds;
    if rows == [] {
    } else {
      var init, last := rows[..|rows| - 1], rows[|rows| - 1];
      UserBanIdsInit(rows, next);
      DropKeepsUserBanIds(init, id, next);
      if last.userId != id {
        UserBanIdsAppend(DropUserBans(init, id), last, next);
      } else {
        assert DropUserBans(rows, id) == DropUserBans(init, id);
      }
    }
  }

  lemma IpBanIdsInit(rows: seq<IpBan>, next: nat)
    requires IpBanIds(rows, next) && rows != []
    ensures IpBanIds(rows[..|rows| - 1], next) && 0 < rows[|rows| - 1].id < next
    ensures forall b :: b in rows[..|rows| - 1] ==> b.id < rows[|rows| - 1].id
  {
  }

  lemma IpBanIdsAppend(rows: seq<IpBan>, last: IpBan, next: nat)
    requires IpBanIds(rows, next) && 0 < last.id < next
    requires forall b :: b in rows ==> b.id < last.id
    ensures IpBanIds(rows + [last], next)
  {
  }

  lemma {:induction false} DropKeepsIpBanIds(rows: seq<IpBan>, ip: string, next: nat)
    requires IpBanIds(rows, next)
    ensures IpBanIds(DropIpBans(rows, ip), next)
  {
    hide IpBanIds;
    if rows == [] {
    } else {
      var init, last := rows[..|rows| - 1], rows[|rows| - 1];
      IpBanIdsInit(rows, next);
      DropKeepsIpBanIds(init, ip, next);
      if last.ip != ip {
        IpBanIdsAppend(DropIpBans(init, ip), last, next);
      } else {
        assert DropIpBans(rows, ip) == DropIpBans(init, ip);
      }
    }
  }

  /** With one row per key, a lookup returns a row exactly when that row is in the table. */
  lemma BanOfIs(db: Database, b: UserBan)
    requires OnePerUser(db.userBans)
    ensures BanOf(db, b.userId) == Some(b) <==> b in db.userBans
  {
  }

  lemma FindIpBanIs(db: Database, b: IpBan)
    requires IpBansOk(db)
    ensures FindIpBan(db, b.ip) == Some(b) <==> b in db.ipBans
  {
  }

  lemma DeleteUserBanKeepsValid(db: Database, uname: string)
    requires Valid(db)
    ensures Valid(DeleteUserBan(db, uname)) && Grows(db, DeleteUserBan(db, uname))
  {
    hide UsersOk, CommunitiesOk, ChannelsOk, MessagesOk, IpBanIds;
    match FindUser(db, uname)
    case None =>
    case Some(u) =>
      DropKeepsUserBanIds(db.userBans, u.id, db.nextUserBan);
      BanStatementKeeps(db, DeleteUserBan(db, uname));
  }

  lemma DeleteUserBanKeeps(db: Database, uname: string)
    requires Inv(db)
    ensures Inv(DeleteUserBan(db, uname))
  {
    hide Valid;
    DeleteUserBanKeepsValid(db, uname);
    if FindUser(db, uname).Some? {
      DropKeepsOnePerUser(db.userBans, FindUser(db, uname).value.id);
    }
  }

  lemma DeleteUserBanEffect(db: Database, uname: string, n: string)
    requires Inv(db)
    ensures Inv(DeleteUserBan(db, uname))
    ensures BanExpiry(DeleteUserBan(db, uname), n) == if n == uname then None else BanExpiry(db, n)
    ensures DeleteUserBan(db, uname).ipBans == db.ipBans
  {
    hide CommunitiesOk, ChannelsOk, MessagesOk, UserBansOk, IpBansOk;
    var db' := DeleteUserBan(db, uname);
    DeleteUserBanKeeps(db, uname);
    match FindUser(db, uname)
    case None =>
    case Some(u) =>
      match FindUser(db, n)
      case None =>
      case Some(v) =>
        UserIsUnique(db, u);
        UserIsUnique(db, v);
        if n != uname && BanOf(db, v.id).Some? {
          BanOfIs(db', BanOf(db, v.id).value);
        }
  }

  lemma DeleteIpBanKeepsValid(db: Database, ip: string)
    requires Valid(db)
    ensures Valid(DeleteIpBan(db, ip)) && Grows(db, DeleteIpBan(db, ip))
  {
    hide UsersOk, CommunitiesOk, ChannelsOk, MessagesOk, UserBanIds;
    DropKeepsOnePerIp(db.ipBans, ip);
    DropKeepsIpBanIds(db.ipBans, ip, db.nextIpBan);
    BanStatementKeeps(db, DeleteIpBan(db, ip));
  }

  lemma DeleteIpBanEffect(db: Database, ip: string, k: string)
    requires Inv(db)
    ensures Inv(DeleteIpBan(db, ip))
    ensures IpExpiry(DeleteIpBan(db, ip), k) == if k == ip then None else IpExpiry(db, k)
    ensures DeleteIpBan(db, ip).users == db.users && DeleteIpBan(db, ip).userBans == db.userBans
  {
    DeleteIpBanKeepsValid(db, ip);
    if k != ip && FindIpBan(db, k).Some? {
      FindIpBanIs(DeleteIpBan(db, ip), FindIpBan(db, k).value);
    }
  }

  lemma InsertIpBanKeepsValid(db: Database, ip: string, expire: int)
    requires Valid(db)
    ensures Valid(InsertIpBan(db, ip, expire).db) && Grows(db, InsertIpBan(db, ip, expire).db)
  {
    hide UsersOk, CommunitiesOk, ChannelsOk, MessagesOk, UserBanIds;
    var r := InsertIpBan(db, ip, expire);
    if r.ok {
      var row := r.db.ipBans[|db.ipBans|];
      forall i | 0 <= i < |db.ipBans| ensures db.ipBans[i].ip != row.ip {
        assert db.ipBans[i] in db.ipBans;
      }
    }
    BanStatementKeeps(db, r.db);
  }

  lemma InsertIpBanEffect(db: Database, ip: string, expire: int, k: string)
    requires Inv(db)
    ensures var r := InsertIpBan(db, ip, expire);
      && Inv(r.db)
      && (r.ok <==> Varchar(50, ip).Some? && IpExpiry(db, Varchar(50, ip).value) == None)
      && IpExpiry(r.db, k) ==
           (if r.ok && Varchar(50, ip) == Some(k) then Some(expire) else IpExpiry(db, k))
      && r.db.users == db.users && r.db.userBans == db.userBans
  {
    hide Valid;
    var r := InsertIpBan(db, ip, expire);
    InsertIpBanKeepsValid(db, ip, expire);
    if r.ok {
      var row := r.db.ipBans[|db.ipBans|];
      FirstAppend(db.ipBans, [row], (b: IpBan) => b.ip == k);
      FirstAppend(db.ipBans, [row], (b: IpBan) => b.ip == row.ip);
    }
  }

  function ExpiryOf(b: Option<UserBan>): Option<int> {
    match b case None => None case Some(x) => Some(x.expire)
  }

  lemma {:induction false} SetExpiryFinds(rows: seq<UserBan>, id: int, e: int, other: int)
    ensures var p := (b: UserBan) => b.userId == other;
      ExpiryOf(First(SetExpiry(rows, id, e), p)) ==
        if other == id && First(rows, p).Some? then Some(e) else ExpiryOf(First(rows, p))
  {
    if rows == [] {
    } else {
      SetExpiryFinds(rows[1..], id, e, other);
      assert SetExpiry(rows, id, e)[1..] == SetExpiry(rows[1..], id, e);
    }
  }

  lemma UpdateKeepsValid(db: Database, id: int, now: int, add: int)
    requires Valid(db)
    ensures Valid(UpdateUserBan(db, id, now, add).db)
    ensures Grows(db, UpdateUserBan(db, id, now, add).db)
  {
    var r := UpdateUserBan(db, id, now, add);
    if r.ok {
      forall b | b in r.db.userBans ensures UserById(r.db, b.userId).Some? {
        var i :| 0 <= i < |r.db.userBans| && r.db.userBans[i] == b;
        assert db.userBans[i] in db.userBans;
      }
      BanStatementKeeps(db, r.db);
    }
  }

  lemma UpdateKeeps(db: Database, id: int, now: int, add: int)
    requires Inv(db)
    ensures Inv(UpdateUserBan(db, id, now, add).db)
  {
    UpdateKeepsValid(db, id, now, add);
  }

  lemma UpdateEffect(db: Database, id: int, now: int, add: int, other: int)
    requires BanOf(db, id).Some?
    ensures var r := UpdateUserBan(db, id, now, add);
      ExpiryOf(BanOf(r.db, other)) ==
        if r.ok && other == id then Some(now + add) else ExpiryOf(BanOf(db, other))
  {
    SetExpiryFinds(db.userBans, id, now + add, other);
  }

  lemma InsertKeepsValid(db: Database, id: int, now: int, add: int)
    requires Valid(db) && UserById(db, id).Some?
    ensures Valid(InsertUserBan(db, id, now, add).db)
    ensures Grows(db, InsertUserBan(db, id, now, add).db)
  {
    BanStatementKeeps(db, InsertUserBan(db, id, now, add).db);
  }

  lemma InsertKeeps(db: Database, id: int, now: int, add: int)
    requires Inv(db) && BanOf(db, id).None? && UserById(db, id).Some?
    ensures Inv(InsertUserBan(db, id, now, add).db)
  {
    InsertKeepsValid(db, id, now, add);
    forall i | 0 <= i < |db.userBans| ensures db.userBans[i].userId != id {
      assert db.userBans[i] in db.userBans;
    }
  }

  lemma InsertEffect(db: Database, id: int, now: int, add: int, other: int)
    requires BanOf(db, id).None?
    ensures var r := InsertUserBan(db, id, now, add);
      ExpiryOf(BanOf(r.db, other)) ==
        if r.ok && other == id then Some(now + add) else ExpiryOf(BanOf(db, other))
  {
    var r := InsertUserBan(db, id, now, add);
    if r.ok {
      FirstAppend(db.userBans, r.db.userBans[|db.userBans|..], (b: UserBan) => b.userId == other);
    }
  }

  lemma BanForKeeps(db: Database, uname: string, span: int, now: int)
    requires Inv(db)
    ensures Inv(BanFor(db, uname, span, now).db)
  {
    match FindUser(db, uname)
    case None =>
    case Some(u) =>
      UserIsUnique(db, u);
      UpdateKeeps(db, u.id, now, span);
      if BanOf(db, u.id).None? {
        InsertKeeps(db, u.id, now, span);
      }
  }

  /** What banUser leaves for any name n. */
  lemma BanForEffect(db: Database, uname: string, span: int, now: int, n: string)
    requires Inv(db)
    ensures var r := BanFor(db, uname, span, now);
      && (r.ok <==> FindUser(db, uname).Some? && IsInt4(now) && IsInt4(now + span))
      && BanExpiry(r.db, n) == (if r.ok && n == uname then Some(now + span) else BanExpiry(db, n))
      && r.db.users == db.users && r.db.ipBans == db.ipBans
  {
    match FindUser(db, uname)
    case None =>
    case Some(u) =>
      UserIsUnique(db, u);
      var other := if FindUser(db, n).Some? then FindUser(db, n).value else u;
      UserIsUnique(db, other);
      if BanOf(db, u.id).Some? {
        UpdateEffect(db, u.id, now, span, other.id);
      } else {
        InsertEffect(db, u.id, now, span, other.id);
      }
  }

  /** banUser records exactly one expiry, for the named user, and throws otherwise. */
  lemma BanUserEffect(db: Database, uname: string, days: int, now: int, n: string)
    requires Inv(db)
    ensures var r := BanUser(db, uname, days, now);
      && Inv(r.db)
      && (r.ok <==> FindUser(db, uname).Some? && IsInt4(now) && IsInt4(now + BanSpan(days)))
      && BanExpiry(r.db, n) ==
           (if r.ok && n == uname then Some(now + BanSpan(days)) else BanExpiry(db, n))
      && r.db.users == db.users && r.db.ipBans == db.ipBans
  {
    BanForKeeps(db, uname, BanSpan(days), now);
    BanForEffect(db, uname, BanSpan(days), now, n);
  }

  /** A new user has no ban, and nobody else's ban changes. */
  lemma InsertUserEffect(db: Database, uname: string, token: string, admin: bool, n: string)
    requires Inv(db)
    ensures var r := InsertUser(db, uname, token, admin);
      && Inv(r.db)
      && BanExpiry(r.db, n) == BanExpiry(db, n)
      && r.db.ipBans == db.ipBans
  {
    InsertUserKeeps(db, uname, token, admin);
    NewUserHasNoBan(db, uname, token, admin, n);
  }

  lemma NewUserHasNoBan(db: Database, uname: string, token: string, admin: bool, n: string)
    requires UsersOk(db) && UserBansOk(db)
    ensures BanExpiry(InsertUser(db, uname, token, admin).db, n) == BanExpiry(db, n)
  {
    var r := InsertUser(db, uname, token, admin);
    if r.ok {
      var row := r.db.users[|db.users|];
      FirstAppend(db.users, [row], (u: UserRow) => u.uname == n);
      assert UserById(db, row.id).None?;
    }
  }

  /** A ban that is set and not yet past. */
  predicate Current(until: Option<int>, now: int) {
    until.Some? && now <= until.value
  }

  lemma IsIpBannedEffect(db: Database, ip: string, now: int, k: string)
    requires Inv(db)
    ensures var (db', b) := IsIpBanned(db, ip, now);
      && Inv(db')
      && (b <==> Current(IpExpiry(db, ip), now))
      && IpExpiry(db', k) == (if k == ip && !b then None else IpExpiry(db, k))
      && db'.users == db.users && db'.userBans == db.userBans
  {
    hide Inv, DeleteIpBan, IpExpiry;
    DeleteIpBanEffect(db, ip, k);
  }

  /** isUserBanned answers from the stored expiry, and throws exactly when the address has to be
      recorded and the banned_ips table refuses it. */
  lemma IsUserBannedEffect(db: Database, u: string, ip: string, now: int, later: int)
    requires Inv(db)
    ensures var (db', r) := IsUserBanned(db, u, ip, now, later);
      && Inv(db')
      && (r.Ok? ==> (r.value <==> Current(BanExpiry(db, u), now)))
      && (r == Thrown <==>
            && Current(BanExpiry(db, u), now) && !Current(IpExpiry(db, ip), later)
            && var (db1, _) := IsIpBanned(db, ip, later);
               !(Varchar(50, ip).Some? && IpExpiry(db1, Varchar(50, ip).value) == None))
      && (|ip| <= 50 ==> r.Ok?)
  {
    hide Inv, DeleteUserBan, InsertIpBan, IsIpBanned, BanExpiry, IpExpiry;
    DeleteUserBanEffect(db, u, u);
    IsIpBannedEffect(db, ip, later, ip);
    if Current(BanExpiry(db, u), now) {
      InsertIpBanEffect(IsIpBanned(db, ip, later).0, ip, BanExpiry(db, u).value, ip);
    }
  }

  /** isUserBanned throws instead of answering exactly for a currently banned user at an address
      that does not fit its column, unless trimming the address gives one without a row. */
  lemma ThrowsExactly(db: Database, u: string, ip: string, now: int, later: int)
    requires Inv(db)
    ensures IsUserBanned(db, u, ip, now, later).1 == Thrown <==>
      && |ip| > 50 && Current(BanExpiry(db, u), now)
      && (Varchar(50, ip) == None || IpExpiry(db, Varchar(50, ip).value).Some?)
  {
    hide DeleteUserBan, InsertIpBan, BanExpiry;
    IsUserBannedEffect(db, u, ip, now, later);
    if |ip| > 50 {
      assert FindIpBan(db, ip).None?;
    }
  }

  /** Such a call exists: one user, banned until expire, asked about at an address of 51 digits. */
  lemma LongAddressThrows(expire: int, now: int, later: int) returns (db: Database, ip: string)
    requires now <= expire
    ensures Inv(db) && db.users == [UserRow(1, "u", "t", false)] && |ip| == 51 && ' ' !in ip
    ensures BanExpiry(db, "u") == Some(expire) && IsUserBanned(db, "u", ip, now, later).1 == Thrown
  {
    var user, ban := UserRow(1, "u", "t", false), UserBan(1, 1, expire);
    db := EMPTY.(users := [user], nextUser := 2, userBans := [ban], nextUserBan := 2);
    ip := seq(51, i => '1');
    UserIsUnique(db, user);
    assert ban in db.userBans && db.userBans == [ban];
    assert BanOf(db, 1) == Some(ban);
    assert ip[50..][0] == '1';
    ThrowsExactly(db, "u", ip, now, later);
  }

  lemma InsertValuesKeepsInv(db: Database, userId: int, channel: int, threadId: int,
                             threadChild: bool, text: string, now: int)
    requires Inv(db)
    ensures Inv(InsertValues(db, userId, channel, threadId, threadChild, text, now).db)
  {
    hide Valid;
    var m := NO_MESSAGE.(userId := userId, channelId := channel, threadId := threadId,
                         threadChild := threadChild, text := text);
    InsertMessageKeeps(db, m, now);
  }
}
