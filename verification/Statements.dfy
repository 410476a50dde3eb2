/** What each SQL statement of the service does, said over the rows of the tables alone: when it is
    accepted, which row it adds, and that it touches nothing else. */
module Statements {
  import opened Domain
  import opened Tables

  // ---- Text columns ----

  /** A varchar(n) column takes the text: anything past n characters is spaces. */
  predicate Fits(n: nat, s: string) {
    forall i :: n <= i < |s| ==> s[i] == ' '
  }

  /** What the column then holds. */
  function Stored(n: nat, s: string): string {
    if |s| <= n then s else s[..n]
  }

  lemma VarcharStores(n: nat, s: string)
    ensures Varchar(n, s) == if Fits(n, s) then Some(Stored(n, s)) else None
  {
    if |s| > n {
      assert forall i :: n <= i < |s| ==> s[i] == s[n..][i - n];
    }
  }

  // ---- Lookups ----

  /** A lookup finds a row of its key, exactly when there is one. */
  lemma LookupsFind(db: Database, id: int)
    ensures UserById(db, id).Some? <==> exists u :: u in db.users && u.id == id
    ensures UserById(db, id).Some? ==>
      UserById(db, id).value in db.users && UserById(db, id).value.id == id
    ensures CommunityById(db, id).Some? <==> exists c :: c in db.communities && c.id == id
    ensures CommunityById(db, id).Some? ==>
      CommunityById(db, id).value in db.communities && CommunityById(db, id).value.id == id
    ensures ChannelById(db, id).Some? <==> exists c :: c in db.channels && c.id == id
    ensures ChannelById(db, id).Some? ==>
      ChannelById(db, id).value in db.channels && ChannelById(db, id).value.id == id
    ensures BanOf(db, id).Some? <==> exists b :: b in db.userBans && b.userId == id
    ensures BanOf(db, id).Some? ==>
      BanOf(db, id).value in db.userBans && BanOf(db, id).value.userId == id
  {
  }

  lemma NamesFind(db: Database, n: string)
    ensures FindUser(db, n).Some? <==> exists u :: u in db.users && u.uname == n
    ensures FindUser(db, n).Some? ==>
      FindUser(db, n).value in db.users && FindUser(db, n).value.uname == n
    ensures FindCommunity(db, n).Some? <==> exists c :: c in db.communities && c.name == n
    ensures FindCommunity(db, n).Some? ==>
      FindCommunity(db, n).value in db.communities && FindCommunity(db, n).value.name == n
    ensures FindChannel(db, n).Some? <==> exists c :: c in db.channels && c.name == n
    ensures FindChannel(db, n).Some? ==>
      FindChannel(db, n).value in db.channels && FindChannel(db, n).value.name == n
    ensures FindIpBan(db, n).Some? <==> exists b :: b in db.ipBans && b.ip == n
    ensures FindIpBan(db, n).Some? ==>
      FindIpBan(db, n).value in db.ipBans && FindIpBan(db, n).value.ip == n
  {
  }

  // ---- Inserts ----

  lemma InsertUserMeans(db: Database, uname: string, token: string, admin: bool)
    ensures var r := InsertUser(db, uname, token, admin);
      && (r.ok <==>
            && Fits(50, uname) && Fits(50, token)
            && forall u :: u in db.users ==> u.uname != Stored(50, uname))
      && r.db == db.(nextUser := db.nextUser + 1, users := db.users +
           if r.ok then [UserRow(db.nextUser, Stored(50, uname), Stored(50, token), admin)] else [])
  {
    hide Varchar, Fits, FindUser;
    VarcharStores(50, uname);
    VarcharStores(50, token);
    NamesFind(db, Stored(50, uname));
    assert db.users + [] == db.users;
  }

  lemma InsertCommunityMeans(db: Database, name: string, admin: int, pub: bool)
    ensures var r := InsertCommunity(db, name, admin, pub);
      && (r.ok <==>
            && Fits(100, name) && (exists u :: u in db.users && u.id == admin)
            && forall c :: c in db.communities ==> c.name != Stored(100, name))
      && r.db == db.(nextCommunity := db.nextCommunity + 1, communities := db.communities +
           if r.ok then [CommunityRow(db.nextCommunity, Stored(100, name), admin, pub)] else [])
  {
    hide Varchar, Fits, FindCommunity, UserById;
    VarcharStores(100, name);
    LookupsFind(db, admin);
    NamesFind(db, Stored(100, name));
    assert db.communities + [] == db.communities;
  }

  lemma InsertChannelMeans(db: Database, name: string, community: int, admin: int, anon: bool)
    ensures var r := InsertChannel(db, name, community, admin, anon);
      && (r.ok <==>
            && Fits(100, name) && (exists u :: u in db.users && u.id == admin)
            && (exists m :: m in db.communities && m.id == community)
            && forall c :: c in db.channels ==> c.name != Stored(100, name))
      && r.db == db.(nextChannel := db.nextChannel + 1, channels := db.channels +
           if r.ok then [ChannelRow(db.nextChannel, Stored(100, name), community, admin, anon)] else [])
  {
    hide Varchar, Fits, FindChannel, UserById, CommunityById;
    VarcharStores(100, name);
    LookupsFind(db, admin);
    LookupsFind(db, community);
    NamesFind(db, Stored(100, name));
    assert db.channels + [] == db.channels;
  }

  lemma InsertValuesMeans(db: Database, userId: int, channel: int, threadId: int,
                          threadChild: bool, text: string, now: int)
    ensures var r := InsertValues(db, userId, channel, threadId, threadChild, text, now);
      && (r.ok <==>
            && (exists u :: u in db.users && u.id == userId)
            && (exists c :: c in db.channels && c.id == channel)
            && -0x8000_0000 <= now < 0x8000_0000)
      && r.db == db.(nextMessage := db.nextMessage + 1, messages := db.messages +
           if r.ok
           then [MessageRow(db.nextMessage, userId, channel, threadId, threadChild, false, text, now)]
           else [])
  {
    hide UserById, ChannelById;
    LookupsFind(db, userId);
    LookupsFind(db, channel);
    assert db.messages + [] == db.messages;
  }

  // ---- The ban tables ----

  lemma UpdateUserBanMeans(db: Database, userId: int, now: int, add: int)
    ensures var r := UpdateUserBan(db, userId, now, add);
      && (r.ok <==> -0x8000_0000 <= now < 0x8000_0000 && -0x8000_0000 <= now + add < 0x8000_0000)
      && r.db == db.(userBans := r.db.userBans) && |r.db.userBans| == |db.userBans|
      && forall i :: 0 <= i < |db.userBans| ==>
           r.db.userBans[i] ==
             if r.ok && db.userBans[i].userId == userId then db.userBans[i].(expire := now + add)
             else db.userBans[i]
  {
  }

  lemma InsertUserBanMeans(db: Database, userId: int, now: int, add: int)
    ensures var r := InsertUserBan(db, userId, now, add);
      && (r.ok <==>
            && (exists u :: u in db.users && u.id == userId)
            && -0x8000_0000 <= now < 0x8000_0000 && -0x8000_0000 <= now + add < 0x8000_0000)
      && r.db == db.(nextUserBan := db.nextUserBan + 1, userBans := db.userBans +
           if r.ok then [UserBan(db.nextUserBan, userId, now + add)] else [])
  {
    hide UserById;
    LookupsFind(db, userId);
    assert db.userBans + [] == db.userBans;
  }

  lemma InsertIpBanMeans(db: Database, ip: string, expire: int)
    ensures var r := InsertIpBan(db, ip, expire);
      && (r.ok <==> Fits(50, ip) && forall b :: b in db.ipBans ==> b.ip != Stored(50, ip))
      && r.db == db.(nextIpBan := db.nextIpBan + 1, ipBans := db.ipBans +
           if r.ok then [IpBan(db.nextIpBan, Stored(50, ip), expire)] else [])
  {
    hide Varchar, Fits, FindIpBan;
    VarcharStores(50, ip);
    NamesFind(db, Stored(50, ip));
    assert db.ipBans + [] == db.ipBans;
  }

  /** The rows of the named user go, whichever they are, and no others. */
  lemma DeletesMean(db: Database, uname: string, ip: string)
    requires UsersOk(db)
    ensures var d := DeleteUserBan(db, uname);
      && d == db.(userBans := d.userBans)
      && forall b :: b in d.userBans <==>
           b in db.userBans && forall u :: u in db.users && u.uname == uname ==> b.userId != u.id
    ensures var d := DeleteIpBan(db, ip);
      && d == db.(ipBans := d.ipBans)
      && forall b :: b in d.ipBans <==> b in db.ipBans && b.ip != ip
  {
    hide UsersOk, FindUser;
    NamesFind(db, uname);
    OneUserPerName(db);
  }

  predicate BanRowOf(db: Database, uname: string, u: UserRow, b: UserBan) {
    u in db.users && b in db.userBans && u.uname == uname && b.userId == u.id
  }

  /** The expiry that isUserBanned selects is that of some ban row of the user with that name, and
      the one isIPBanned selects that of a row of the address. */
  lemma ExpiriesMean(db: Database, uname: string, ip: string)
    requires UsersOk(db)
    ensures BanExpiry(db, uname).Some? <==> exists u, b :: BanRowOf(db, uname, u, b)
    ensures BanExpiry(db, uname).Some? ==>
      exists u, b :: BanRowOf(db, uname, u, b) && b.expire == BanExpiry(db, uname).value
    ensures IpExpiry(db, ip).Some? <==> exists b :: b in db.ipBans && b.ip == ip
    ensures IpExpiry(db, ip).Some? ==>
      exists b :: b in db.ipBans && b.ip == ip && b.expire == IpExpiry(db, ip).value
  {
    hide UsersOk, FindUser, BanOf, FindIpBan;
    NamesFind(db, uname);
    NamesFind(db, ip);
    OneUserPerName(db);
    if FindUser(db, uname).Some? {
      var u := FindUser(db, uname).value;
      LookupsFind(db, u.id);
      if BanOf(db, u.id).Some? {
        assert BanRowOf(db, uname, u, BanOf(db, u.id).value);
      }
    }
  }
}
