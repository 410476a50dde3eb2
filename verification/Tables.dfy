/** The PostgreSQL tables created by DBPostgres::validate, and the effect of each SQL statement
    the service issues.  A statement either takes effect as a whole or fails and changes nothing
    but the serial counter, which PostgreSQL has already advanced by then. */
module Tables {
  import opened Domain

  datatype UserRow = UserRow(id: nat, uname: string, token: string, admin: bool)
  datatype CommunityRow = CommunityRow(id: nat, name: string, admin: int, pub: bool)
  datatype ChannelRow =
    ChannelRow(id: nat, name: string, community: int, admin: int, allowAnon: bool)
  datatype MessageRow = MessageRow(
    id: nat, userId: int, channel: int, threadId: int, threadChild: bool, edited: bool,
    text: string, date: int)
  datatype UserBan = UserBan(id: nat, userId: int, expire: int)
  datatype IpBan = IpBan(id: nat, ip: string, expire: int)

  /** Rows in insertion order, and the next value of each serial column. */
  datatype Database = Database(
    users: seq<UserRow>, communities: seq<CommunityRow>, channels: seq<ChannelRow>,
    messages: seq<MessageRow>, userBans: seq<UserBan>, ipBans: seq<IpBan>,
    nextUser: nat, nextCommunity: nat, nextChannel: nat, nextMessage: nat,
    nextUserBan: nat, nextIpBan: nat)

  /** The outcome of a statement that may violate a constraint. */
  datatype Exec = Exec(db: Database, ok: bool)

  // ---- Column types ----

  predicate IsInt4(x: int) {
    -0x8000_0000 <= x < 0x8000_0000
  }

  predicate AllSpaces(s: string) {
    forall i :: 0 <= i < |s| ==> s[i] == ' '
  }

  /** What a varchar(n) column stores for s: longer text is an error, unless everything past n
      is spaces, which are cut off. */
  function Varchar(n: nat, s: string): Option<string> {
    if |s| <= n then Some(s)
    else if AllSpaces(s[n..]) then Some(s[..n])
    else None
  }

  // ---- Row selection ----

  function First<T>(rows: seq<T>, p: T -> bool): (r: Option<T>)
    ensures r.Some? ==> r.value in rows && p(r.value)
    ensures r == None ==> forall x :: x in rows ==> !p(x)
  {
    if rows == [] then None
    else if p(rows[0]) then Some(rows[0])
    else First(rows[1..], p)
  }

  function FindUser(db: Database, uname: string): Option<UserRow> {
    First(db.users, (u: UserRow) => u.uname == uname)
  }

  function UserById(db: Database, id: int): Option<UserRow> {
    First(db.users, (u: UserRow) => u.id == id)
  }

  predicate HasAdmin(db: Database) {
    exists u :: u in db.users && u.admin
  }

  function FindCommunity(db: Database, name: string): Option<CommunityRow> {
    First(db.communities, (c: CommunityRow) => c.name == name)
  }

  function CommunityById(db: Database, id: int): Option<CommunityRow> {
    First(db.communities, (c: CommunityRow) => c.id == id)
  }

  function FindChannel(db: Database, name: string): Option<ChannelRow> {
    First(db.channels, (c: ChannelRow) => c.name == name)
  }

  function ChannelById(db: Database, id: int): Option<ChannelRow> {
    First(db.channels, (c: ChannelRow) => c.id == id)
  }

  function BanOf(db: Database, userId: int): Option<UserBan> {
    First(db.userBans, (b: UserBan) => b.userId == userId)
  }

  function FindIpBan(db: Database, ip: string): Option<IpBan> {
    First(db.ipBans, (b: IpBan) => b.ip == ip)
  }

  /** select expire from banned_users inner join users ... where uname = :uname */
  function BanExpiry(db: Database, uname: string): Option<int> {
    match FindUser(db, uname)
    case None => None
    case Some(u) =>
      match BanOf(db, u.id)
      case None => None
      case Some(b) => Some(b.expire)
  }

  function IpExpiry(db: Database, ip: string): Option<int> {
    match FindIpBan(db, ip)
    case None => None
    case Some(b) => Some(b.expire)
  }

  // ---- Statements that change a table ----

  function InsertUser(db: Database, uname: string, token: string, admin: bool): Exec {
    match (Varchar(50, uname), Varchar(50, token))
    case (Some(n), Some(k)) =>
      if FindUser(db, n).Some? then Exec(db.(nextUser := db.nextUser + 1), false)
      else Exec(db.(users := db.users + [UserRow(db.nextUser, n, k, admin)],
                    nextUser := db.nextUser + 1), true)
    case _ => Exec(db.(nextUser := db.nextUser + 1), false)
  }

  function InsertCommunity(db: Database, name: string, admin: int, pub: bool): Exec {
    match Varchar(100, name)
    case Some(n) =>
      if FindCommunity(db, n).None? && UserById(db, admin).Some?
      then Exec(db.(communities := db.communities + [CommunityRow(db.nextCommunity, n, admin, pub)],
                    nextCommunity := db.nextCommunity + 1), true)
      else Exec(db.(nextCommunity := db.nextCommunity + 1), false)
    case None => Exec(db.(nextCommunity := db.nextCommunity + 1), false)
  }

  function InsertChannel(db: Database, name: string, community: int, admin: int, anon: bool): Exec {
    match Varchar(100, name)
    case Some(n) =>
      if FindChannel(db, n).None? && CommunityById(db, community).Some? && UserById(db, admin).Some?
      then Exec(db.(channels := db.channels + [ChannelRow(db.nextChannel, n, community, admin, anon)],
                    nextChannel := db.nextChannel + 1), true)
      else Exec(db.(nextChannel := db.nextChannel + 1), false)
    case None => Exec(db.(nextChannel := db.nextChannel + 1), false)
  }

  /** What the message table accepts: both foreign keys must resolve, and the default of mdate,
      the clock in seconds, must fit its int column. */
  predicate MessageAccepted(db: Database, userId: int, channel: int, now: int) {
    UserById(db, userId).Some? && ChannelById(db, channel).Some? && IsInt4(now)
  }

  function NewMessageRow(id: nat, m: Message, now: int): MessageRow {
    MessageRow(id, m.userId, m.channelId, m.threadId, m.threadChild, false, m.text, now)
  }

  /** The insert into message, with the five values bound to it. */
  function InsertValues(db: Database, userId: int, channel: int, threadId: int, threadChild: bool,
                        text: string, now: int): Exec
  {
    if MessageAccepted(db, userId, channel, now)
    then Exec(db.(messages := db.messages +
                    [MessageRow(db.nextMessage, userId, channel, threadId, threadChild, false, text, now)],
                  nextMessage := db.nextMessage + 1), true)
    else Exec(db.(nextMessage := db.nextMessage + 1), false)
  }

  /** The insert of a message, whatever its other fields are. */
  function InsertMessage(db: Database, m: Message, now: int): Exec {
    InsertValues(db, m.userId, m.channelId, m.threadId, m.threadChild, m.text, now)
  }

  /** Overflow of the sum is an SQL error. */
  function UpdateUserBan(db: Database, userId: int, now: int, add: int): Exec {
    if IsInt4(now) && IsInt4(now + add)
    then Exec(db.(userBans := SetExpiry(db.userBans, userId, now + add)), true)
    else Exec(db, false)
  }

  function SetExpiry(rows: seq<UserBan>, userId: int, expire: int): (r: seq<UserBan>)
    ensures |r| == |rows|
    ensures forall i :: 0 <= i < |r| ==>
      r[i] == if rows[i].userId == userId then rows[i].(expire := expire) else rows[i]
  {
    seq(|rows|, i requires 0 <= i < |rows| =>
      if rows[i].userId == userId then rows[i].(expire := expire) else rows[i])
  }

  function InsertUserBan(db: Database, userId: int, now: int, add: int): Exec {
    if IsInt4(now) && IsInt4(now + add) && UserById(db, userId).Some?
    then Exec(db.(userBans := db.userBans + [UserBan(db.nextUserBan, userId, now + add)],
                  nextUserBan := db.nextUserBan + 1), true)
    else Exec(db.(nextUserBan := db.nextUserBan + 1), false)
  }

  function DropUserBans(rows: seq<UserBan>, userId: int): (r: seq<UserBan>)
    ensures forall b :: b in r <==> b in rows && b.userId != userId
  {
    if rows == [] then []
    else
      var last := rows[|rows| - 1];
      DropUserBans(rows[..|rows| - 1], userId) + if last.userId != userId then [last] else []
  }

  function DropIpBans(rows: seq<IpBan>, ip: string): (r: seq<IpBan>)
    ensures forall b :: b in r <==> b in rows && b.ip != ip
  {
    if rows == [] then []
    else
      var last := rows[|rows| - 1];
      DropIpBans(rows[..|rows| - 1], ip) + if last.ip != ip then [last] else []
  }

  /** The delete of an expired user ban, as intended: the rows of that user.  (The statement text
      filters on a column that banned_users does not have.) */
  function DeleteUserBan(db: Database, uname: string): Database {
    match FindUser(db, uname)
    case None => db
    case Some(u) => db.(userBans := DropUserBans(db.userBans, u.id))
  }

  function InsertIpBan(db: Database, ip: string, expire: int): Exec {
    match Varchar(50, ip)
    case Some(k) =>
      if FindIpBan(db, k).Some? then Exec(db.(nextIpBan := db.nextIpBan + 1), false)
      else Exec(db.(ipBans := db.ipBans + [IpBan(db.nextIpBan, k, expire)],
                    nextIpBan := db.nextIpBan + 1), true)
    case None => Exec(db.(nextIpBan := db.nextIpBan + 1), false)
  }

  function DeleteIpBan(db: Database, ip: string): Database {
    db.(ipBans := DropIpBans(db.ipBans, ip))
  }

  // ---- The constraints of the schema ----

  predicate UsersOk(db: Database) {
    && (forall i :: 0 <= i < |db.users| ==>
          0 < db.users[i].id < db.nextUser && |db.users[i].uname| <= 50)
    && (forall i, j :: 0 <= i < j < |db.users| ==>
          db.users[i].id < db.users[j].id && db.users[i].uname != db.users[j].uname)
    && db.nextUser > 0
  }

  predicate CommunitiesOk(db: Database) {
    && (forall i :: 0 <= i < |db.communities| ==>
          && 0 < db.communities[i].id < db.nextCommunity && |db.communities[i].name| <= 100
          && UserById(db, db.communities[i].admin).Some?)
    && (forall i, j :: 0 <= i < j < |db.communities| ==>
          && db.communities[i].id < db.communities[j].id
          && db.communities[i].name != db.communities[j].name)
    && db.nextCommunity > 0
  }

  predicate ChannelsOk(db: Database) {
    && (forall i :: 0 <= i < |db.channels| ==>
          && 0 < db.channels[i].id < db.nextChannel && |db.channels[i].name| <= 100
          && UserById(db, db.channels[i].admin).Some?
          && CommunityById(db, db.channels[i].community).Some?)
    && (forall i, j :: 0 <= i < j < |db.channels| ==>
          db.channels[i].id < db.channels[j].id && db.channels[i].name != db.channels[j].name)
    && db.nextChannel > 0
  }

  predicate MessagesOk(db: Database) {
    && (forall i :: 0 <= i < |db.messages| ==>
          && 0 < db.messages[i].id < db.nextMessage
          && UserById(db, db.messages[i].userId).Some?
          && ChannelById(db, db.messages[i].channel).Some?)
    && (forall i, j :: 0 <= i < j < |db.messages| ==> db.messages[i].id < db.messages[j].id)
    && db.nextMessage > 0
  }

  predicate UserBanIds(rows: seq<UserBan>, next: nat) {
    && (forall i :: 0 <= i < |rows| ==> 0 < rows[i].id < next)
    && (forall i, j :: 0 <= i < j < |rows| ==> rows[i].id < rows[j].id)
    && next > 0
  }

  predicate UserBansOk(db: Database) {
    && (forall b :: b in db.userBans ==> UserById(db, b.userId).Some?)
    && UserBanIds(db.userBans, db.nextUserBan)
  }

  predicate OnePerIp(rows: seq<IpBan>) {
    forall i, j :: 0 <= i < j < |rows| ==> rows[i].ip != rows[j].ip
  }

  predicate IpBanIds(rows: seq<IpBan>, next: nat) {
    && (forall i :: 0 <= i < |rows| ==> 0 < rows[i].id < next)
    && (forall i, j :: 0 <= i < j < |rows| ==> rows[i].id < rows[j].id)
    && next > 0
  }

  predicate IpBansOk(db: Database) {
    && (forall b :: b in db.ipBans ==> |b.ip| <= 50)
    && OnePerIp(db.ipBans)
    && IpBanIds(db.ipBans, db.nextIpBan)
  }

  predicate Valid(db: Database) {
    && UsersOk(db) && CommunitiesOk(db) && ChannelsOk(db) && MessagesOk(db)
    && UserBansOk(db) && IpBansOk(db)
  }

  /** The tables as validate() leaves them on an empty database. */
  const EMPTY := Database([], [], [], [], [], [], 1, 1, 1, 1, 1, 1)

  // ---- Lookups ----

  lemma ChannelByIdFinds(db: Database, id: int)
    ensures ChannelById(db, id) == None <==> forall c :: c in db.channels ==> c.id != id
    ensures ChannelById(db, id).Some? ==>
      ChannelById(db, id).value in db.channels && ChannelById(db, id).value.id == id
  {
  }

  lemma UserIsUnique(db: Database, u: UserRow)
    requires UsersOk(db) && u in db.users
    ensures FindUser(db, u.uname) == Some(u) && UserById(db, u.id) == Some(u)
  {
  }

  lemma OneUserPerName(db: Database)
    requires UsersOk(db)
    ensures forall u, v :: u in db.users && v in db.users && u.uname == v.uname ==> u == v
  {
  }

  lemma CommunityIsUnique(db: Database, c: CommunityRow)
    requires CommunitiesOk(db) && c in db.communities
    ensures FindCommunity(db, c.name) == Some(c) && CommunityById(db, c.id) == Some(c)
  {
  }

  lemma ChannelIsUnique(db: Database, c: ChannelRow)
    requires ChannelsOk(db) && c in db.channels
    ensures FindChannel(db, c.name) == Some(c) && ChannelById(db, c.id) == Some(c)
  {
  }

  lemma OneChannelPerId(db: Database)
    requires ChannelsOk(db)
    ensures forall c, d :: c in db.channels && d in db.channels && c.id == d.id ==> c == d
  {
  }

  /** A name that varchar had to trim is never found again under its full text. */
  lemma LongNamesAreNotStored(db: Database, uname: string)
    requires UsersOk(db) && |uname| > 50
    ensures FindUser(db, uname).None?
  {
  }

  lemma LongCommunityNamesAreNotStored(db: Database, name: string)
    requires CommunitiesOk(db) && |name| > 100
    ensures FindCommunity(db, name).None?
  {
  }

  lemma LongChannelNamesAreNotStored(db: Database, name: string)
    requires ChannelsOk(db) && |name| > 100
    ensures FindChannel(db, name).None?
  {
  }

  lemma {:induction false} FirstAppend<T>(rows: seq<T>, more: seq<T>, p: T -> bool)
    ensures First(rows + more, p) == if First(rows, p).Some? then First(rows, p) else First(more, p)
  {
    if rows == [] {
      assert rows + more == more;
    } else {
      FirstAppend(rows[1..], more, p);
      assert (rows + more)[1..] == rows[1..] + more;
    }
  }

  /** Users, communities and channels are only ever added. */
  ghost predicate Grows(db: Database, db': Database) {
    && db.users <= db'.users && db.communities <= db'.communities && db.channels <= db'.channels
    && db.nextUser <= db'.nextUser
    && db.nextCommunity <= db'.nextCommunity
    && db.nextChannel <= db'.nextChannel
  }

  /** A row once found by its id is found again, unchanged. */
  lemma LookupsSurvive(db: Database, db': Database, id: int)
    requires Grows(db, db')
    ensures UserById(db, id).Some? ==> UserById(db', id) == UserById(db, id)
    ensures CommunityById(db, id).Some? ==> CommunityById(db', id) == CommunityById(db, id)
    ensures ChannelById(db, id).Some? ==> ChannelById(db', id) == ChannelById(db, id)
  {
    assert db'.users == db.users + db'.users[|db.users|..];
    assert db'.communities == db.communities + db'.communities[|db.communities|..];
    assert db'.channels == db.channels + db'.channels[|db.channels|..];
    FirstAppend(db.users, db'.users[|db.users|..], (u: UserRow) => u.id == id);
    FirstAppend(db.communities, db'.communities[|db.communities|..], (c: CommunityRow) => c.id == id);
    FirstAppend(db.channels, db'.channels[|db.channels|..], (c: ChannelRow) => c.id == id);
  }

  lemma NamesSurvive(db: Database, db': Database, name: string)
    requires Grows(db, db')
    ensures FindUser(db, name).Some? ==> FindUser(db', name) == FindUser(db, name)
  {
    assert db'.users == db.users + db'.users[|db.users|..];
    FirstAppend(db.users, db'.users[|db.users|..], (u: UserRow) => u.uname == name);
  }

  // ---- Every statement keeps the constraints ----

  /** Foreign keys stay resolved while users, communities and channels only grow. */
  lemma CommunitiesFrame(db: Database, db': Database)
    requires CommunitiesOk(db) && Grows(db, db') && db'.communities == db.communities
    ensures CommunitiesOk(db')
  {
    forall i | 0 <= i < |db.communities| ensures UserById(db', db'.communities[i].admin).Some? {
      LookupsSurvive(db, db', db.communities[i].admin);
    }
  }

  lemma ChannelsFrame(db: Database, db': Database)
    requires ChannelsOk(db) && Grows(db, db') && db'.channels == db.channels
    ensures ChannelsOk(db')
  {
    forall i | 0 <= i < |db.channels|
      ensures UserById(db', db'.channels[i].admin).Some?
      ensures CommunityById(db', db'.channels[i].community).Some?
    {
      LookupsSurvive(db, db', db.channels[i].admin);
      LookupsSurvive(db, db', db.channels[i].community);
    }
  }

  lemma MessagesFrame(db: Database, db': Database)
    requires MessagesOk(db) && Grows(db, db')
    requires db'.messages == db.messages && db'.nextMessage >= db.nextMessage
    ensures MessagesOk(db')
  {
    forall i | 0 <= i < |db.messages|
      ensures UserById(db', db'.messages[i].userId).Some?
      ensures ChannelById(db', db'.messages[i].channel).Some?
    {
      LookupsSurvive(db, db', db.messages[i].userId);
      LookupsSurvive(db, db', db.messages[i].channel);
    }
  }

  lemma UserBansFrame(db: Database, db': Database)
    requires UserBansOk(db) && Grows(db, db')
    requires db'.userBans == db.userBans && db'.nextUserBan == db.nextUserBan
    ensures UserBansOk(db')
  {
    forall b | b in db'.userBans ensures UserById(db', b.userId).Some? {
      LookupsSurvive(db, db', b.userId);
    }
  }

  // A row that passed the checks of its table may be appended.

  lemma AddUser(db: Database, r: UserRow, db': Database)
    requires UsersOk(db) && r.id == db.nextUser && |r.uname| <= 50 && FindUser(db, r.uname).None?
    requires db' == db.(users := db.users + [r], nextUser := db.nextUser + 1)
    ensures UsersOk(db')
  {
    forall i | 0 <= i < |db.users| ensures db.users[i].uname != r.uname {
      assert db.users[i] in db.users;
    }
  }

  lemma AddCommunity(db: Database, r: CommunityRow, db': Database)
    requires CommunitiesOk(db) && r.id == db.nextCommunity && |r.name| <= 100
    requires FindCommunity(db, r.name).None? && UserById(db, r.admin).Some?
    requires db' == db.(communities := db.communities + [r], nextCommunity := db.nextCommunity + 1)
    ensures CommunitiesOk(db')
  {
    forall i | 0 <= i < |db.communities|
      ensures db.communities[i].name != r.name && UserById(db', db.communities[i].admin).Some?
    {
      assert db.communities[i] in db.communities;
    }
    assert UserById(db', r.admin).Some?;
  }

  lemma AddChannel(db: Database, r: ChannelRow, db': Database)
    requires ChannelsOk(db) && r.id == db.nextChannel && |r.name| <= 100
    requires FindChannel(db, r.name).None?
    requires UserById(db, r.admin).Some? && CommunityById(db, r.community).Some?
    requires db' == db.(channels := db.channels + [r], nextChannel := db.nextChannel + 1)
    ensures ChannelsOk(db')
  {
    forall i | 0 <= i < |db.channels|
      ensures db.channels[i].name != r.name
      ensures UserById(db', db.channels[i].admin).Some?
      ensures CommunityById(db', db.channels[i].community).Some?
    {
      assert db.channels[i] in db.channels;
    }
    assert UserById(db', r.admin).Some? && CommunityById(db', r.community).Some?;
  }

  lemma AddMessage(db: Database, r: MessageRow, db': Database)
    requires MessagesOk(db) && r.id == db.nextMessage
    requires UserById(db, r.userId).Some? && ChannelById(db, r.channel).Some?
    requires db' == db.(messages := db.messages + [r], nextMessage := db.nextMessage + 1)
    ensures MessagesOk(db')
  {
    forall i | 0 <= i < |db.messages|
      ensures UserById(db', db.messages[i].userId).Some?
      ensures ChannelById(db', db.messages[i].channel).Some?
    {
      assert db.messages[i].id < db.nextMessage;
    }
    assert UserById(db', r.userId).Some? && ChannelById(db', r.channel).Some?;
  }

  lemma InsertUserKeeps(db: Database, uname: string, token: string, admin: bool)
    requires Valid(db)
    ensures Valid(InsertUser(db, uname, token, admin).db)
    ensures Grows(db, InsertUser(db, uname, token, admin).db)
    ensures InsertUser(db, uname, token, admin).db.messages == db.messages
  {
    hide CommunitiesOk, ChannelsOk, MessagesOk, UserBansOk;
    var db' := InsertUser(db, uname, token, admin).db;
    if InsertUser(db, uname, token, admin).ok {
      AddUser(db, db'.users[|db.users|], db');
    }
    CommunitiesFrame(db, db');
    ChannelsFrame(db, db');
    MessagesFrame(db, db');
    UserBansFrame(db, db');
  }

  lemma InsertCommunityKeeps(db: Database, name: string, admin: int, pub: bool)
    requires Valid(db)
    ensures Valid(InsertCommunity(db, name, admin, pub).db)
    ensures Grows(db, InsertCommunity(db, name, admin, pub).db)
    ensures InsertCommunity(db, name, admin, pub).db.messages == db.messages
  {
    hide ChannelsOk, MessagesOk, UserBansOk;
    var db' := InsertCommunity(db, name, admin, pub).db;
    if InsertCommunity(db, name, admin, pub).ok {
      AddCommunity(db, db'.communities[|db.communities|], db');
    }
    ChannelsFrame(db, db');
    MessagesFrame(db, db');
    UserBansFrame(db, db');
  }

  lemma InsertChannelKeeps(db: Database, name: string, community: int, admin: int, anon: bool)
    requires Valid(db)
    ensures Valid(InsertChannel(db, name, community, admin, anon).db)
    ensures Grows(db, InsertChannel(db, name, community, admin, anon).db)
    ensures InsertChannel(db, name, community, admin, anon).db.messages == db.messages
  {
    hide CommunitiesOk, MessagesOk, UserBansOk;
    var db' := InsertChannel(db, name, community, admin, anon).db;
    CommunitiesFrame(db, db');
    if InsertChannel(db, name, community, admin, anon).ok {
      AddChannel(db, db'.channels[|db.channels|], db');
    }
    MessagesFrame(db, db');
    UserBansFrame(db, db');
  }

  lemma InsertMessageKeeps(db: Database, m: Message, now: int)
    requires Valid(db)
    ensures Valid(InsertMessage(db, m, now).db) && Grows(db, InsertMessage(db, m, now).db)
    ensures db.messages <= InsertMessage(db, m, now).db.messages
  {
    hide CommunitiesOk, ChannelsOk, UserBansOk;
    var db' := InsertMessage(db, m, now).db;
    CommunitiesFrame(db, db');
    ChannelsFrame(db, db');
    UserBansFrame(db, db');
    if MessageAccepted(db, m.userId, m.channelId, now) {
      AddMessage(db, db'.messages[|db.messages|], db');
    }
  }

  /** A statement that touches only the two ban tables. */
  ghost predicate OnlyBansDiffer(db: Database, db': Database) {
    db' == db.(userBans := db'.userBans, ipBans := db'.ipBans,
               nextUserBan := db'.nextUserBan, nextIpBan := db'.nextIpBan)
  }

  lemma BanStatementKeeps(db: Database, db': Database)
    requires Valid(db) && OnlyBansDiffer(db, db') && UserBansOk(db') && IpBansOk(db')
    ensures Valid(db') && Grows(db, db')
  {
    CommunitiesFrame(db, db');
    ChannelsFrame(db, db');
    MessagesFrame(db, db');
  }
}
