/** isUserBanned and isIPBanned cut into steps: one per SQL statement or comparison with the clock,
    so that other calls can come in between. */
module BanReaders {
  import opened Domain
  import opened Tables
  import opened Bans

  /** What a false isIPBanned leads to: it is the answer, or isUserBanned records the address. */
  datatype After = Answer | Record(expire: int)

  datatype Ask =
    | UserAsked(uname: string, ip: string)
    | UserRead(uname: string, ip: string, expire: int)    // expiry selected, not yet compared
    | UserExpired(uname: string)                          // the delete is next
    | IpAsked(ip: string, after: After)
    | IpRead(ip: string, expire: int, after: After)
    | IpExpired(ip: string, after: After)
    | Recording(ip: string, expire: int)
    | Answered(banned: bool)
    | Threw

  /** Whether the next step is an SQL statement. */
  predicate Queries(a: Ask) {
    a.UserAsked? || a.UserExpired? || a.IpAsked? || a.IpExpired? || a.Recording?
  }

  function NotBanned(ip: string, after: After): Ask {
    match after
    case Answer => Answered(false)
    case Record(expire) => Recording(ip, expire)
  }

  function Next(db: Database, a: Ask, now: int): Option<(Database, Ask)> {
    match a
    case UserAsked(u, ip) =>
      Some((db, match BanExpiry(db, u)
                case None => Answered(false)
                case Some(expire) => UserRead(u, ip, expire)))
    case UserRead(u, ip, expire) =>
      Some((db, if now > expire then UserExpired(u) else IpAsked(ip, Record(expire))))
    case UserExpired(u) => Some((DeleteUserBan(db, u), Answered(false)))
    case IpAsked(ip, after) =>
      Some((db, match IpExpiry(db, ip)
                case None => NotBanned(ip, after)
                case Some(expire) => IpRead(ip, expire, after)))
    case IpRead(ip, expire, after) =>
      Some((db, if now > expire then IpExpired(ip, after) else Answered(true)))
    case IpExpired(ip, after) => Some((DeleteIpBan(db, ip), NotBanned(ip, after)))
    case Recording(ip, expire) =>
      var r := InsertIpBan(db, ip, expire);
      Some((r.db, if r.ok then Answered(true) else Threw))
    case _ => None
  }

  lemma NextKeeps(db: Database, a: Ask, now: int)
    requires Valid(db) && Next(db, a, now).Some?
    ensures var db' := Next(db, a, now).value.0;
      && Valid(db') && Grows(db, db') && OnlyBansDiffer(db, db')
      && (db'.userBans != db.userBans ==> a.UserExpired? && db' == DeleteUserBan(db, a.uname))
  {
    hide Valid, BanExpiry, IpExpiry, Varchar;
    match a
    case UserExpired(u) => DeleteUserBanKeepsValid(db, u);
    case IpExpired(ip, _) => DeleteIpBanKeepsValid(db, ip);
    case Recording(ip, expire) => InsertIpBanKeepsValid(db, ip, expire);
    case _ =>
  }

  /** Steps still to come, at most. */
  function Rank(a: Ask): nat {
    match a
    case UserAsked(_, _) => 6
    case UserRead(_, _, _) => 5
    case UserExpired(_) => 4
    case IpAsked(_, _) => 4
    case IpRead(_, _, _) => 3
    case IpExpired(_, _) => 2
    case Recording(_, _) => 1
    case _ => 0
  }

  /** The call run to its end with nothing in between; now and later are its clock readings. */
  function Alone(db: Database, a: Ask, now: int, later: int): (Database, Ask)
    decreases Rank(a)
  {
    match Next(db, a, if a.UserRead? then now else later)
    case None => (db, a)
    case Some((db', a')) => Alone(db', a', now, later)
  }

  /** One step of the call on its own. */
  lemma AloneNext(db: Database, a: Ask, now: int, later: int)
    ensures Alone(db, a, now, later) ==
      match Next(db, a, if a.UserRead? then now else later)
      case None => (db, a)
      case Some((db', a')) => Alone(db', a', now, later)
  {
  }

  lemma IpAlone(db: Database, ip: string, after: After, now: int, later: int)
    ensures Alone(db, IpAsked(ip, after), now, later) ==
      var (db1, banned) := IsIpBanned(db, ip, later);
      if banned then (db1, Answered(true)) else Alone(db1, NotBanned(ip, after), now, later)
  {
    hide IpExpiry, BanExpiry, DeleteIpBan, DeleteUserBan, InsertIpBan, Alone;
    AloneNext(db, IpAsked(ip, after), now, later);
    if IpExpiry(db, ip).Some? {
      var expire := IpExpiry(db, ip).value;
      AloneNext(db, IpRead(ip, expire, after), now, later);
      AloneNext(db, IpExpired(ip, after), now, later);
      AloneNext(db, Answered(true), now, later);
    }
  }

  /** With nothing in between, the steps of isUserBanned are the sequential function. */
  lemma UserAlone(db: Database, u: string, ip: string, now: int, later: int)
    ensures Alone(db, UserAsked(u, ip), now, later) ==
      var (db', r) := IsUserBanned(db, u, ip, now, later);
      (db', match r case Ok(banned) => Answered(banned) case Thrown => Threw)
  {
    hide IpExpiry, BanExpiry, DeleteIpBan, DeleteUserBan, InsertIpBan, IsIpBanned, Alone;
    AloneNext(db, UserAsked(u, ip), now, later);
    AloneNext(db, Answered(false), now, later);
    if BanExpiry(db, u).Some? {
      var expire := BanExpiry(db, u).value;
      AloneNext(db, UserRead(u, ip, expire), now, later);
      if now > expire {
        AloneNext(db, UserExpired(u), now, later);
        AloneNext(DeleteUserBan(db, u), Answered(false), now, later);
      } else {
        IpAlone(db, ip, Record(expire), now, later);
        var db1 := IsIpBanned(db, ip, later).0;
        AloneNext(db1, Recording(ip, expire), now, later);
        var r := InsertIpBan(db1, ip, expire);
        AloneNext(r.db, if r.ok then Answered(true) else Threw, now, later);
      }
    }
  }
}
