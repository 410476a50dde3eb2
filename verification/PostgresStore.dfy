/** DBPostgres as a class: each method runs its SQL statements one after the other. */
module PostgresStore {
  import opened Domain
  import T = Tables
  import B = Bans
  import S = Statements

  class DBPostgres {
    var db: T.Database

    ghost predicate Valid()
      reads this
    {
      B.Inv(db)
    }

    constructor (initial: T.Database)
      requires B.Inv(initial)
      ensures Valid() && db == initial
    {
      db := initial;
    }

    method IsUserValid(uname: string, token: string) returns (b: bool)
      ensures b <==> exists u :: u in db.users && u.uname == uname && u.token == token
    {
      b := T.First(db.users, (u: T.UserRow) => u.uname == uname && u.token == token).Some?;
    }

    method IsUserAdmin(uname: string) returns (b: bool)
      ensures b <==> exists u :: u in db.users && u.uname == uname && u.admin
    {
      b := T.First(db.users, (u: T.UserRow) => u.uname == uname && u.admin).Some?;
    }

    method IsIPBanned(ip: string, now: int) returns (b: bool)
      requires Valid()
      modifies this
      ensures Valid() && (db, b) == B.IsIpBanned(old(db), ip, now)
    {
      B.IsIpBannedEffect(db, ip, now, ip);
      var expire := T.IpExpiry(db, ip);
      if expire == None {
        return false;
      }
      if now > expire.value {
        db := T.DeleteIpBan(db, ip);
        return false;
      }
      return true;
    }

    method IsUserBanned(uname: string, ip: string, now: int, later: int) returns (r: Result<bool>)
      requires Valid()
      modifies this
      ensures Valid() && (db, r) == B.IsUserBanned(old(db), uname, ip, now, later)
    {
      B.IsUserBannedEffect(db, uname, ip, now, later);
      var expire := T.BanExpiry(db, uname);
      if expire == None {
        return Ok(false);
      }
      if now > expire.value {
        db := T.DeleteUserBan(db, uname);
        return Ok(false);
      }
      var known := IsIPBanned(ip, later);
      if !known {
        var stmt := T.InsertIpBan(db, ip, expire.value);
        db := stmt.db;
        if !stmt.ok {
          return Thrown;
        }
      }
      return Ok(true);
    }

    method BanUser(uname: string, days: int, now: int) returns (ok: bool)
      requires Valid()
      modifies this
      ensures Valid() && T.Exec(db, ok) == B.BanUser(old(db), uname, days, now)
    {
      B.BanUserEffect(db, uname, days, now, uname);
      var span := B.BanSpan(days);
      var user := T.FindUser(db, uname);
      if user == None {
        return false;
      }
      var stmt: T.Exec;
      if T.BanOf(db, user.value.id).Some? {
        stmt := T.UpdateUserBan(db, user.value.id, now, span);
      } else {
        stmt := T.InsertUserBan(db, user.value.id, now, span);
      }
      db := stmt.db;
      return stmt.ok;
    }

    /** Accepted exactly when both texts fit and the stored name is new; the first user becomes an
        admin.  The id returned is that of the new row, except for a
        name that varchar(50) had to trim: the select by the full name then finds nothing. */
    method CreateUser(uname: string, token: string, adminIn: bool)
      returns (r: Result<int>, admin: bool)
      requires Valid()
      modifies this
      ensures Valid() && T.Grows(old(db), db)
      ensures admin == (adminIn || forall u :: u in old(db).users ==> !u.admin)
      ensures T.Exec(db, r.Ok?) == T.InsertUser(old(db), uname, token, admin)
      ensures r.Ok? <==>
        && S.Fits(50, uname) && S.Fits(50, token)
        && forall u :: u in old(db).users ==> u.uname != S.Stored(50, uname)
      ensures db.users == old(db).users + if r == Thrown then [] else
        [T.UserRow(old(db).nextUser, S.Stored(50, uname), S.Stored(50, token), admin)]
      ensures r.Ok? ==> r.value == if |uname| <= 50 then old(db.nextUser) else 0
    {
      admin := adminIn;
      if !T.HasAdmin(db) {
        admin := true;
      }
      B.InsertUserEffect(db, uname, token, admin, uname);
      T.InsertUserKeeps(db, uname, token, admin);
      S.InsertUserMeans(db, uname, token, admin);
      var stmt := T.InsertUser(db, uname, token, admin);
      db := stmt.db;
      if !stmt.ok {
        return Thrown, admin;
      }
      T.UserIsUnique(db, db.users[|db.users| - 1]);
      if |uname| > 50 {
        T.LongNamesAreNotStored(db, uname);
      }
      var found := T.FindUser(db, uname);
      return Ok(if found == None then 0 else found.value.id), admin;
    }

    /** Accepted exactly when the name fits and is new and the admin has a row. */
    method CreateCommunity(name: string, admin: int, pub: bool) returns (r: Result<int>)
      requires Valid()
      modifies this
      ensures Valid() && T.Grows(old(db), db)
      ensures T.Exec(db, r.Ok?) == T.InsertCommunity(old(db), name, admin, pub)
      ensures r.Ok? <==>
        && S.Fits(100, name) && (exists u :: u in old(db).users && u.id == admin)
        && forall c :: c in old(db).communities ==> c.name != S.Stored(100, name)
      ensures db.communities == old(db).communities + if r == Thrown then [] else
        [T.CommunityRow(old(db).nextCommunity, S.Stored(100, name), admin, pub)]
      ensures r.Ok? && |name| <= 100 ==> r.value == old(db.nextCommunity)
    {
      T.InsertCommunityKeeps(db, name, admin, pub);
      S.InsertCommunityMeans(db, name, admin, pub);
      var stmt := T.InsertCommunity(db, name, admin, pub);
      db := stmt.db;
      if !stmt.ok {
        return Thrown;
      }
      T.CommunityIsUnique(db, db.communities[|db.communities| - 1]);
      var communityId: int := *;                  // not initialised in the source
      var found := T.FindCommunity(db, name);
      if found.Some? {
        communityId := found.value.id;
      }
      return Ok(communityId);
    }

    /** Accepted exactly when the name fits and is new and the admin and community have rows. */
    method CreateChannel(name: string, community: int, admin: int, anonymous: bool)
      returns (r: Result<int>)
      requires Valid()
      modifies this
      ensures Valid() && T.Grows(old(db), db)
      ensures T.Exec(db, r.Ok?) == T.InsertChannel(old(db), name, community, admin, anonymous)
      ensures r.Ok? <==>
        && S.Fits(100, name) && (exists u :: u in old(db).users && u.id == admin)
        && (exists m :: m in old(db).communities && m.id == community)
        && forall c :: c in old(db).channels ==> c.name != S.Stored(100, name)
      ensures db.channels == old(db).channels + if r == Thrown then [] else
        [T.ChannelRow(old(db).nextChannel, S.Stored(100, name), community, admin, anonymous)]
      ensures r.Ok? ==> r.value == if |name| <= 100 then old(db.nextChannel) else 0
    {
      T.InsertChannelKeeps(db, name, community, admin, anonymous);
      S.InsertChannelMeans(db, name, community, admin, anonymous);
      var stmt := T.InsertChannel(db, name, community, admin, anonymous);
      db := stmt.db;
      if !stmt.ok {
        return Thrown;
      }
      T.ChannelIsUnique(db, db.channels[|db.channels| - 1]);
      if |name| > 100 {
        T.LongChannelNamesAreNotStored(db, name);
      }
      var found := T.FindChannel(db, name);
      return Ok(if found == None then 0 else found.value.id);
    }

    /** The insert into message that the send RPCs run, with its five bound values. */
    method InsertValues(userId: int, channel: int, threadId: int, threadChild: bool, text: string,
                        now: int) returns (ok: bool)
      requires Valid()
      modifies this
      ensures Valid()
      ensures T.Exec(db, ok) == T.InsertValues(old(db), userId, channel, threadId, threadChild, text, now)
    {
      B.InsertValuesKeepsInv(db, userId, channel, threadId, threadChild, text, now);
      var stmt := T.InsertValues(db, userId, channel, threadId, threadChild, text, now);
      db := stmt.db;
      ok := stmt.ok;
    }

    /** None is the null first indicator: no row has this id.  Otherwise it is the name of every
        such row, that is, of the one row with this primary key. */
    method GetChannelRow(channelId: int) returns (name: Option<string>)
      requires Valid()
      ensures name == None <==> forall c :: c in db.channels ==> c.id != channelId
      ensures forall c :: c in db.channels && c.id == channelId ==> name == Some(c.name)
    {
      var row := T.ChannelById(db, channelId);
      if row.Some? {
        T.OneChannelPerId(db);
      }
      name := if row == None then None else Some(row.value.name);
    }
  }
}
