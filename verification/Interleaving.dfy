/** Any number of RPCs running at once, one step per SQL statement or operation on channelMap.

    A step of a call may also find the database gone (Env.lost): the statement then has no effect
    and throws, which ends an RPC with INTERNAL, except for the listener, which does not catch.
    Each single std::map operation is taken as atomic (the source declares a mutex for channelMap
    and never locks it), and appendMessage as one step (LinearLog). */
module Interleaving {
  import opened Domain
  import opened Tables
  import opened ServerSpec
  import B = Bans
  import R = BanReaders

  /** What runs after checkForChannel. */
  datatype Next = ThenSend(rest: seq<Message>) | ThenListen

  datatype Call =
    // createUser
    | UserStart(uname: string, token: string, admin: bool)
    | UserCounted(uname: string, token: string, admin: bool)
    | UserInserted(uname: string, own: nat)
    | UserDone(uname: string, own: nat, id: int)
    // createCommunity
    | CommunityStart(name: string, adminId: int, pub: bool)
    | CommunityInserted(name: string, own: nat)
    | CommunityDone(name: string, own: nat, id: int)
    // createChannel
    | ChannelStart(name: string, community: int, adminId: int, anon: bool)
    | ChannelInserted(name: string, own: nat)
    | ChannelDone(name: string, own: nat, id: int)
    // checkForChannel: map lookup, select, emplace
    | CheckStart(channel: int, next: Next)
    | CheckMissed(channel: int, next: Next)
    | CheckFound(channel: int, name: string, next: Next)
    // the send loop; a single send is a stream of one message
    | SendStart(rest: seq<Message>)
    | SendChecked(rest: seq<Message>)
    | SendAppended(rest: seq<Message>)
    // a listener holding its reference into channelMap
    | Listening(channel: int)
    // BanUser
    | BanStart(name: string, token: string, target: string, days: int)
    | BanValid(name: string, token: string, target: string, days: int)
    | BanAllowed(name: string, token: string, target: string, days: int)
    | BanKnown(name: string, token: string, uid: int, days: int)
    | BanSelected(name: string, token: string, uid: int, exists_: bool, days: int)
    // isUserBanned, isIPBanned
    | Asking(ask: R.Ask)
    | Ended(status: Status)
    | Threw                                       // the exception leaves the RPC

  /** failed and base are history: the messages whose insert failed, and how many message rows
      there were before the service started. */
  datatype World = World(
    db: Database, cache: map<int, Channel>, calls: seq<Call>, failed: seq<Message>, base: nat)

  /** The clock, whether the connection is lost, and what an uninitialised int holds. */
  datatype Env = Env(now: int, lost: bool, junk: int)

  datatype Effect = Effect(db: Database, cache: map<int, Channel>, failed: seq<Message>, call: Call)

  /** map::emplace never overwrites. */
  function Emplace(cache: map<int, Channel>, id: int, name: string): map<int, Channel> {
    if id in cache then cache else cache[id := Channel(name, [])]
  }

  function AfterCheck(channel: int, next: Next): Call {
    match next
    case ThenSend(rest) => SendChecked(rest)
    case ThenListen => Listening(channel)
  }

  function OnCreate(w: World, c: Call, e: Env): Option<Effect> {
    match c
    case UserStart(u, k, admin) =>
      Some(Effect(w.db, w.cache, w.failed, UserCounted(u, k, admin || !HasAdmin(w.db))))
    case UserCounted(u, k, admin) =>
      var r := InsertUser(w.db, u, k, admin);
      Some(Effect(r.db, w.cache, w.failed,
                  if r.ok then UserInserted(u, w.db.nextUser) else Ended(INTERNAL)))
    case UserInserted(u, own) =>
      var found := FindUser(w.db, u);
      Some(Effect(w.db, w.cache, w.failed,
                  UserDone(u, own, if found == None then 0 else found.value.id)))
    case CommunityStart(n, a, p) =>
      var r := InsertCommunity(w.db, n, a, p);
      Some(Effect(r.db, w.cache, w.failed,
                  if r.ok then CommunityInserted(n, w.db.nextCommunity) else Ended(INTERNAL)))
    case CommunityInserted(n, own) =>
      var found := FindCommunity(w.db, n);
      Some(Effect(w.db, w.cache, w.failed,
                  CommunityDone(n, own, if found == None then e.junk else found.value.id)))
    case ChannelStart(n, m, a, anon) =>
      var r := InsertChannel(w.db, n, m, a, anon);
      Some(Effect(r.db, w.cache, w.failed,
                  if r.ok then ChannelInserted(n, w.db.nextChannel) else Ended(INTERNAL)))
    case ChannelInserted(n, own) =>
      var found := FindChannel(w.db, n);
      Some(Effect(w.db, w.cache, w.failed,
                  ChannelDone(n, own, if found == None then 0 else found.value.id)))
    case _ => None
  }

  function OnSend(w: World, c: Call, e: Env): Option<Effect> {
    match c
    case CheckStart(id, next) =>
      Some(Effect(w.db, w.cache, w.failed,
                  if id in w.cache then AfterCheck(id, next) else CheckMissed(id, next)))
    case CheckMissed(id, next) =>
      Some(Effect(w.db, w.cache, w.failed,
                  match ChannelById(w.db, id)
                  case None => Ended(INVALID_ARGUMENT)
                  case Some(row) => CheckFound(id, row.name, next)))
    case CheckFound(id, name, next) =>
      Some(Effect(w.db, Emplace(w.cache, id, name), w.failed, AfterCheck(id, next)))
    case SendStart(rest) =>
      Some(Effect(w.db, w.cache, w.failed,
                  if rest == [] then Ended(OK) else CheckStart(rest[0].channelId, ThenSend(rest))))
    case SendChecked(rest) =>
      if rest == [] then None
      else Some(Effect(w.db, AppendTo(w.cache, rest[0]), w.failed, SendAppended(rest)))
    case SendAppended(rest) =>
      if rest == [] then None
      else
        var r := InsertMessage(w.db, rest[0], e.now);
        Some(Effect(r.db, w.cache, if r.ok then w.failed else w.failed + [rest[0]],
                    if r.ok then SendStart(rest[1..]) else Ended(INTERNAL)))
    case _ => None
  }

  function OnBan(w: World, c: Call, e: Env): Option<Effect> {
    match c
    case BanStart(n, k, target, days) =>
      var u := First(w.db.users, (u: UserRow) => u.uname == n && u.token == k);
      Some(Effect(w.db, w.cache, w.failed,
                  if u.Some? then BanValid(n, k, target, days)
                  else Ended(UNAUTHENTICATED("Invalid user"))))
    case BanValid(n, k, target, days) =>
      var u := First(w.db.users, (u: UserRow) => u.uname == n && u.admin);
      Some(Effect(w.db, w.cache, w.failed,
                  if u.Some? then BanAllowed(n, k, target, days)
                  else Ended(UNAUTHENTICATED("Invalid permission"))))
    case BanAllowed(n, k, target, days) =>
      Some(Effect(w.db, w.cache, w.failed,
                  match FindUser(w.db, target)
                  case None => Ended(INTERNAL)
                  case Some(u) => BanKnown(n, k, u.id, days)))
    case BanKnown(n, k, uid, days) =>
      Some(Effect(w.db, w.cache, w.failed, BanSelected(n, k, uid, BanOf(w.db, uid).Some?, days)))
    case BanSelected(_, _, uid, exists_, days) =>
      var r := if exists_ then UpdateUserBan(w.db, uid, e.now, B.BanSpan(days))
               else InsertUserBan(w.db, uid, e.now, B.BanSpan(days));
      Some(Effect(r.db, w.cache, w.failed, Ended(if r.ok then OK else INTERNAL)))
    case _ => None
  }

  function OnAsk(w: World, ask: R.Ask, e: Env): Option<Effect> {
    match R.Next(w.db, ask, e.now)
    case None => None
    case Some((db, ask')) => Some(Effect(db, w.cache, w.failed, Asking(ask')))
  }

  /** Whether the next step of the call is an SQL statement. */
  predicate Queries(c: Call) {
    !c.CheckStart? && !c.CheckFound? && !c.SendStart? && !c.SendChecked? &&
    !c.Listening? && !c.Ended? && !c.Threw? && (c.Asking? ==> R.Queries(c.ask)) &&
    !c.UserDone? && !c.CommunityDone? && !c.ChannelDone?
  }

  /** The call after its statement threw. */
  function Broken(c: Call): Call {
    match c
    case CheckMissed(_, ThenListen) => Threw
    case Asking(_) => Asking(R.Threw)
    case _ => Ended(INTERNAL)
  }

  function Run1(w: World, c: Call, e: Env): Option<Effect> {
    if e.lost && Queries(c) then
      Some(Effect(w.db, w.cache,
                  if c.SendAppended? && c.rest != [] then w.failed + [c.rest[0]] else w.failed,
                  Broken(c)))
    else if c.Asking? then OnAsk(w, c.ask, e)
    else match OnCreate(w, c, e)
      case Some(x) => Some(x)
      case None =>
        match OnSend(w, c, e)
        case Some(x) => Some(x)
        case None => OnBan(w, c, e)
  }

  function Step(w: World, t: nat, e: Env): Option<World> {
    if t >= |w.calls| then None
    else match Run1(w, w.calls[t], e)
      case None => None
      case Some(x) => Some(World(x.db, x.cache, w.calls[t := x.call], x.failed, w.base))
  }

  predicate Starting(c: Call) {
    c.UserStart? || c.CommunityStart? || c.ChannelStart? || c.SendStart? || c.BanStart? ||
    (c.CheckStart? && c.next == ThenListen) ||
    (c.Asking? && (c.ask.UserAsked? || (c.ask.IpAsked? && c.ask.after == R.Answer)))
  }

  predicate AdminExists(db: Database) {
    db.users != [] ==> HasAdmin(db)
  }

  /** The service starts with an empty cache over the tables an earlier run may have left. */
  predicate Init(w: World) {
    && Valid(w.db) && AdminExists(w.db)
    && w.cache == map[] && w.failed == [] && w.base == |w.db.messages|
    && forall t :: 0 <= t < |w.calls| ==> Starting(w.calls[t])
  }

  datatype Label = Label(call: nat, env: Env)

  ghost predicate IsRun(run: seq<World>, labels: seq<Label>) {
    && |run| == |labels| + 1
    && Init(run[0])
    && forall i :: 0 <= i < |labels| ==> Step(run[i], labels[i].call, labels[i].env) == Some(run[i + 1])
  }

  lemma StepOf(run: seq<World>, labels: seq<Label>, i: nat)
    requires IsRun(run, labels) && i < |labels|
    ensures labels[i].call < |run[i].calls| == |run[i + 1].calls|
    ensures Step(run[i], labels[i].call, labels[i].env) == Some(run[i + 1])
  {
    assert Step(run[i], labels[i].call, labels[i].env) == Some(run[i + 1]);
  }

  // ---- What a pending or finished call may rely on ----

  ghost predicate UserHas(db: Database, id: int, uname: string) {
    exists u :: u in db.users && u.id == id && Varchar(50, uname) == Some(u.uname)
  }

  ghost predicate CommunityHas(db: Database, id: int, name: string) {
    exists c :: c in db.communities && c.id == id && Varchar(100, name) == Some(c.name)
  }

  ghost predicate ChannelHas(db: Database, id: int, name: string) {
    exists c :: c in db.channels && c.id == id && Varchar(100, name) == Some(c.name)
  }

  ghost predicate Holds(db: Database, name: string, token: string, admin: bool) {
    exists u :: u in db.users && u.uname == name && u.token == token && (admin ==> u.admin)
  }

  predicate GoodNext(channel: int, next: Next) {
    next.ThenSend? ==> next.rest != [] && next.rest[0].channelId == channel
  }

  ghost predicate CallOk(c: Call, db: Database, cache: map<int, Channel>) {
    match c
    case UserCounted(_, _, admin) => admin || HasAdmin(db)
    case UserInserted(u, own) => UserHas(db, own, u)
    case UserDone(u, own, id) => UserHas(db, own, u) && id == if |u| <= 50 then own else 0
    case CommunityInserted(n, own) => CommunityHas(db, own, n)
    case CommunityDone(n, own, id) => CommunityHas(db, own, n) && (|n| <= 100 ==> id == own)
    case ChannelInserted(n, own) => ChannelHas(db, own, n)
    case ChannelDone(n, own, id) => ChannelHas(db, own, n) && id == if |n| <= 100 then own else 0
    case CheckStart(id, next) => GoodNext(id, next)
    case CheckMissed(id, next) => GoodNext(id, next)
    case CheckFound(id, name, next) =>
      GoodNext(id, next) && ChannelById(db, id).Some? && ChannelById(db, id).value.name == name
    case SendChecked(rest) => rest != [] && rest[0].channelId in cache
    case SendAppended(rest) => rest != [] && rest[0].channelId in cache
    case Listening(id) => id in cache
    case BanValid(n, k, _, _) => Holds(db, n, k, false)
    case BanAllowed(n, k, _, _) => Holds(db, n, k, true)
    case BanKnown(n, k, uid, _) => Holds(db, n, k, true) && UserById(db, uid).Some?
    case BanSelected(n, k, uid, _, _) => Holds(db, n, k, true) && UserById(db, uid).Some?
    case _ => true
  }

  /** Every cached id names a channels row with the same name. */
  predicate CacheOk(db: Database, cache: map<int, Channel>) {
    forall id :: id in cache ==>
      ChannelById(db, id).Some? && ChannelById(db, id).value.name == cache[id].name
  }

  /** Entries stay, keep their name, and their logs only grow. */
  predicate CacheGrows(cache: map<int, Channel>, cache': map<int, Channel>) {
    forall id :: id in cache ==>
      id in cache' && cache'[id].name == cache[id].name && cache[id].log <= cache'[id].log
  }

  datatype Row = UserNo(id: nat) | CommunityNo(id: nat) | ChannelNo(id: nat)

  /** The row a create call has inserted. */
  function Own(c: Call): Option<Row> {
    match c
    case UserInserted(_, own) => Some(UserNo(own))
    case UserDone(_, own, _) => Some(UserNo(own))
    case CommunityInserted(_, own) => Some(CommunityNo(own))
    case CommunityDone(_, own, _) => Some(CommunityNo(own))
    case ChannelInserted(_, own) => Some(ChannelNo(own))
    case ChannelDone(_, own, _) => Some(ChannelNo(own))
    case _ => None
  }

  predicate OwnsDistinct(calls: seq<Call>) {
    forall i, j :: 0 <= i < j < |calls| && Own(calls[i]).Some? ==> Own(calls[i]) != Own(calls[j])
  }

  ghost predicate Inv(w: World) {
    && Valid(w.db) && AdminExists(w.db) && CacheOk(w.db, w.cache) && OwnsDistinct(w.calls)
    && forall t :: 0 <= t < |w.calls| ==> CallOk(w.calls[t], w.db, w.cache)
  }

  // ---- Stability under the steps of others ----

  lemma InPrefix<T>(a: seq<T>, b: seq<T>)
    requires a <= b
    ensures forall x :: x in a ==> x in b
  {
    forall x | x in a ensures x in b {
      var i :| 0 <= i < |a| && a[i] == x;
      assert b[i] == x;
    }
  }

  lemma CallStaysOk(c: Call, db: Database, cache: map<int, Channel>,
                    db': Database, cache': map<int, Channel>)
    requires CallOk(c, db, cache) && Grows(db, db') && CacheGrows(cache, cache')
    ensures CallOk(c, db', cache')
  {
    InPrefix(db.users, db'.users);
    InPrefix(db.communities, db'.communities);
    InPrefix(db.channels, db'.channels);
    if c.CheckFound? {
      LookupsSurvive(db, db', c.channel);
    } else if c.BanKnown? || c.BanSelected? {
      LookupsSurvive(db, db', c.uid);
    }
  }

  lemma CacheStaysOk(db: Database, cache: map<int, Channel>, db': Database)
    requires CacheOk(db, cache) && Grows(db, db')
    ensures CacheOk(db', cache)
  {
    forall id | id in cache
      ensures ChannelById(db', id).Some? && ChannelById(db', id).value.name == cache[id].name
    {
      LookupsSurvive(db, db', id);
    }
  }

  // ---- One step of a call, by the kind of RPC ----

  /** The step keeps everything others rely on and establishes what its own call relies on. */
  ghost predicate GoodEffect(w: World, x: Effect) {
    && Valid(x.db) && Grows(w.db, x.db) && AdminExists(x.db)
    && CacheOk(x.db, x.cache) && CacheGrows(w.cache, x.cache)
    && CallOk(x.call, x.db, x.cache)
  }

  lemma AdminsStay(db: Database, db': Database)
    requires Grows(db, db') && HasAdmin(db)
    ensures HasAdmin(db')
  {
    InPrefix(db.users, db'.users);
  }

  lemma UserStep(w: World, c: Call, e: Env)
    requires Valid(w.db) && AdminExists(w.db) && CacheOk(w.db, w.cache)
    requires (c.UserStart? || c.UserCounted? || c.UserInserted?) && CallOk(c, w.db, w.cache)
    ensures OnCreate(w, c, e).Some? && GoodEffect(w, OnCreate(w, c, e).value)
  {
    hide UsersOk, CommunitiesOk, ChannelsOk, MessagesOk, UserBansOk, IpBansOk, CacheOk;
    var x := OnCreate(w, c, e).value;
    match c
    case UserCounted(u, k, admin) =>
      InsertUserKeeps(w.db, u, k, admin);
      CacheStaysOk(w.db, w.cache, x.db);
      if HasAdmin(w.db) {
        AdminsStay(w.db, x.db);
      }
      if x.call.UserInserted? {
        var row := x.db.users[|w.db.users|];
        assert row in x.db.users && row.id == w.db.nextUser;
      }
    case UserInserted(u, own) =>
      var row :| row in w.db.users && row.id == own && Varchar(50, u) == Some(row.uname);
      UserIsUnique(w.db, row);
      if |u| > 50 {
        LongNamesAreNotStored(w.db, u);
      }
    case _ =>
  }

  lemma CommunityStep(w: World, c: Call, e: Env)
    requires Valid(w.db) && AdminExists(w.db) && CacheOk(w.db, w.cache)
    requires (c.CommunityStart? || c.CommunityInserted?) && CallOk(c, w.db, w.cache)
    ensures OnCreate(w, c, e).Some? && GoodEffect(w, OnCreate(w, c, e).value)
  {
    hide UsersOk, CommunitiesOk, ChannelsOk, MessagesOk, UserBansOk, IpBansOk, CacheOk;
    var x := OnCreate(w, c, e).value;
    match c
    case CommunityStart(n, a, p) =>
      InsertCommunityKeeps(w.db, n, a, p);
      CacheStaysOk(w.db, w.cache, x.db);
      if x.call.CommunityInserted? {
        assert x.db.communities[|w.db.communities|] in x.db.communities;
      }
    case CommunityInserted(n, own) =>
      var row :| row in w.db.communities && row.id == own && Varchar(100, n) == Some(row.name);
      CommunityIsUnique(w.db, row);
  }

  lemma ChannelStep(w: World, c: Call, e: Env)
    requires Valid(w.db) && AdminExists(w.db) && CacheOk(w.db, w.cache)
    requires (c.ChannelStart? || c.ChannelInserted?) && CallOk(c, w.db, w.cache)
    ensures OnCreate(w, c, e).Some? && GoodEffect(w, OnCreate(w, c, e).value)
  {
    hide UsersOk, CommunitiesOk, ChannelsOk, MessagesOk, UserBansOk, IpBansOk, CacheOk;
    var x := OnCreate(w, c, e).value;
    match c
    case ChannelStart(n, m, a, anon) =>
      InsertChannelKeeps(w.db, n, m, a, anon);
      CacheStaysOk(w.db, w.cache, x.db);
      if x.call.ChannelInserted? {
        assert x.db.channels[|w.db.channels|] in x.db.channels;
      }
    case ChannelInserted(n, own) =>
      var row :| row in w.db.channels && row.id == own && Varchar(100, n) == Some(row.name);
      ChannelIsUnique(w.db, row);
      if |n| > 100 {
        LongChannelNamesAreNotStored(w.db, n);
      }
  }

  lemma EmplaceKeeps(db: Database, cache: map<int, Channel>, id: int, name: string)
    requires CacheOk(db, cache)
    requires ChannelById(db, id).Some? && ChannelById(db, id).value.name == name
    ensures CacheOk(db, Emplace(cache, id, name)) && CacheGrows(cache, Emplace(cache, id, name))
    ensures id in Emplace(cache, id, name)
  {
  }

  /** After a successful check, channelMap[...] finds an entry: it never creates a default one. */
  lemma AppendKeeps(db: Database, cache: map<int, Channel>, m: Message)
    requires CacheOk(db, cache) && m.channelId in cache
    ensures CacheOk(db, AppendTo(cache, m)) && CacheGrows(cache, AppendTo(cache, m))
    ensures AppendTo(cache, m).Keys == cache.Keys
  {
  }

  lemma InsertMessageStep(w: World, c: Call, e: Env)
    requires Valid(w.db) && AdminExists(w.db) && CacheOk(w.db, w.cache)
    requires c.SendAppended? && CallOk(c, w.db, w.cache)
    ensures OnSend(w, c, e).Some? && GoodEffect(w, OnSend(w, c, e).value)
  {
    hide Valid, CacheOk;
    var r := InsertMessage(w.db, c.rest[0], e.now);
    InsertMessageKeeps(w.db, c.rest[0], e.now);
    CacheStaysOk(w.db, w.cache, r.db);
    assert r.db.users == w.db.users;
  }

  lemma SendStep(w: World, c: Call, e: Env)
    requires Valid(w.db) && AdminExists(w.db) && CacheOk(w.db, w.cache) && CallOk(c, w.db, w.cache)
    requires OnSend(w, c, e).Some?
    ensures GoodEffect(w, OnSend(w, c, e).value)
  {
    hide Valid, CacheOk, AppendTo, Emplace, InsertMessage;
    match c
    case CheckFound(id, name, next) => EmplaceKeeps(w.db, w.cache, id, name);
    case SendChecked(rest) => AppendKeeps(w.db, w.cache, rest[0]);
    case SendAppended(rest) => InsertMessageStep(w, c, e);
    case _ =>
  }

  lemma BanWriteStep(w: World, c: Call, e: Env)
    requires Valid(w.db) && AdminExists(w.db) && CacheOk(w.db, w.cache)
    requires c.BanSelected? && CallOk(c, w.db, w.cache)
    ensures OnBan(w, c, e).Some? && GoodEffect(w, OnBan(w, c, e).value)
  {
    hide Valid, CacheOk, B.BanSpan;
    var x := OnBan(w, c, e).value;
    B.UpdateKeepsValid(w.db, c.uid, e.now, B.BanSpan(c.days));
    B.InsertKeepsValid(w.db, c.uid, e.now, B.BanSpan(c.days));
    CacheStaysOk(w.db, w.cache, x.db);
    assert x.db.users == w.db.users && x.cache == w.cache;
  }

  /** The checks of BanUser only read: they leave everything but the call itself as it was. */
  lemma BanCheckOnlyReads(w: World, c: Call, e: Env)
    requires !c.BanSelected? && OnBan(w, c, e).Some?
    ensures var x := OnBan(w, c, e).value;
      x.db == w.db && x.cache == w.cache && x.failed == w.failed
  {
  }

  lemma BanStartOk(w: World, c: Call, e: Env)
    requires c.BanStart?
    ensures CallOk(OnBan(w, c, e).value.call, w.db, w.cache)
  {
    hide Valid, CacheOk;
  }

  /** The admin row found by the second query is the row whose token the first query matched. */
  lemma BanValidOk(w: World, c: Call, e: Env)
    requires UsersOk(w.db) && c.BanValid? && CallOk(c, w.db, w.cache)
    ensures CallOk(OnBan(w, c, e).value.call, w.db, w.cache)
  {
    hide UsersOk;
    OneUserPerName(w.db);
  }

  lemma BanAllowedOk(w: World, c: Call, e: Env)
    requires UsersOk(w.db) && c.BanAllowed? && CallOk(c, w.db, w.cache)
    ensures CallOk(OnBan(w, c, e).value.call, w.db, w.cache)
  {
    hide UsersOk;
    if FindUser(w.db, c.target).Some? {
      UserIsUnique(w.db, FindUser(w.db, c.target).value);
    }
  }

  lemma BanCheckStep(w: World, c: Call, e: Env)
    requires Valid(w.db) && AdminExists(w.db) && CacheOk(w.db, w.cache) && CallOk(c, w.db, w.cache)
    requires !c.BanSelected? && OnBan(w, c, e).Some?
    ensures GoodEffect(w, OnBan(w, c, e).value)
  {
    hide UsersOk, CommunitiesOk, ChannelsOk, MessagesOk, UserBansOk, IpBansOk, CacheOk, AdminExists;
    BanCheckOnlyReads(w, c, e);
    if c.BanStart? {
      BanStartOk(w, c, e);
    } else if c.BanValid? {
      BanValidOk(w, c, e);
    } else if c.BanAllowed? {
      BanAllowedOk(w, c, e);
    }
  }

  lemma BanStep(w: World, c: Call, e: Env)
    requires Valid(w.db) && AdminExists(w.db) && CacheOk(w.db, w.cache) && CallOk(c, w.db, w.cache)
    requires OnBan(w, c, e).Some?
    ensures GoodEffect(w, OnBan(w, c, e).value)
  {
    hide Valid, CacheOk, OnBan, CallOk, GoodEffect;
    if c.BanSelected? {
      BanWriteStep(w, c, e);
    } else {
      BanCheckStep(w, c, e);
    }
  }

  lemma AskStep(w: World, ask: R.Ask, e: Env)
    requires Valid(w.db) && AdminExists(w.db) && CacheOk(w.db, w.cache)
    requires OnAsk(w, ask, e).Some?
    ensures GoodEffect(w, OnAsk(w, ask, e).value)
  {
    hide Valid, CacheOk, R.Next;
    var x := OnAsk(w, ask, e).value;
    R.NextKeeps(w.db, ask, e.now);
    CacheStaysOk(w.db, w.cache, x.db);
    assert x.db.users == w.db.users && x.cache == w.cache;
  }

  /** A statement that finds the connection lost changes nothing. */
  lemma LostStep(w: World, c: Call, e: Env)
    requires Valid(w.db) && AdminExists(w.db) && CacheOk(w.db, w.cache)
    requires e.lost && Queries(c)
    ensures GoodEffect(w, Run1(w, c, e).value)
  {
    hide Valid, CacheOk;
  }

  /** Which of the four tables of steps has the step of a call. */
  lemma KindOfStep(w: World, c: Call, e: Env)
    requires !c.Asking?
    ensures OnCreate(w, c, e).Some? <==>
      || c.UserStart? || c.UserCounted? || c.UserInserted? || c.CommunityStart?
      || c.CommunityInserted? || c.ChannelStart? || c.ChannelInserted?
    ensures OnCreate(w, c, e).Some? || OnSend(w, c, e).Some? ==> OnBan(w, c, e).None?
  {
    hide InsertUser, InsertCommunity, InsertChannel, InsertMessage, FindUser, B.BanSpan;
  }

  lemma CallStep(w: World, c: Call, e: Env)
    requires Valid(w.db) && AdminExists(w.db) && CacheOk(w.db, w.cache) && CallOk(c, w.db, w.cache)
    requires Run1(w, c, e).Some?
    ensures GoodEffect(w, Run1(w, c, e).value)
  {
    hide Valid, CacheOk, GoodEffect, OnCreate, OnSend, OnBan, OnAsk, CallOk, Queries;
    if e.lost && Queries(c) {
      LostStep(w, c, e);
    } else if c.Asking? {
      AskStep(w, c.ask, e);
    } else {
      KindOfStep(w, c, e);
      if c.UserStart? || c.UserCounted? || c.UserInserted? {
        UserStep(w, c, e);
      } else if c.CommunityStart? || c.CommunityInserted? {
        CommunityStep(w, c, e);
      } else if c.ChannelStart? || c.ChannelInserted? {
        ChannelStep(w, c, e);
      } else if OnSend(w, c, e).Some? {
        SendStep(w, c, e);
      } else {
        BanStep(w, c, e);
      }
    }
  }

  // ---- Rows inserted by different calls are different ----

  /** Row ids in use are below the serial counter. */
  ghost predicate OwnIsOld(c: Call, db: Database) {
    match Own(c)
    case None => true
    case Some(UserNo(id)) => id < db.nextUser
    case Some(CommunityNo(id)) => id < db.nextCommunity
    case Some(ChannelNo(id)) => id < db.nextChannel
  }

  lemma OkOwnIsOld(c: Call, db: Database, cache: map<int, Channel>)
    requires Valid(db) && CallOk(c, db, cache)
    ensures OwnIsOld(c, db)
  {
  }

  /** A step either keeps the row the call owns or takes the next serial value. */
  lemma OwnIsNew(w: World, c: Call, e: Env)
    requires Run1(w, c, e).Some?
    ensures var o := Own(Run1(w, c, e).value.call);
      || o == None || o == Own(c)
      || o == Some(UserNo(w.db.nextUser))
      || o == Some(CommunityNo(w.db.nextCommunity))
      || o == Some(ChannelNo(w.db.nextChannel))
  {
  }

  lemma InvStep(w: World, t: nat, e: Env, w': World)
    requires Inv(w) && Step(w, t, e) == Some(w')
    ensures Inv(w') && Grows(w.db, w'.db) && CacheGrows(w.cache, w'.cache)
  {
    var x := Run1(w, w.calls[t], e).value;
    CallStep(w, w.calls[t], e);
    forall u | 0 <= u < |w'.calls| ensures CallOk(w'.calls[u], w'.db, w'.cache) {
      if u != t {
        CallStaysOk(w.calls[u], w.db, w.cache, w'.db, w'.cache);
      }
    }
    OwnIsNew(w, w.calls[t], e);
    forall u | 0 <= u < |w.calls| && u != t && Own(x.call).Some?
      ensures Own(w.calls[u]) != Own(x.call)
    {
      OkOwnIsOld(w.calls[u], w.db, w.cache);
    }
  }

  /** Any calls may start on the tables of an empty database. */
  lemma EmptyWorld(calls: seq<Call>)
    requires forall t :: 0 <= t < |calls| ==> var c := calls[t];
      c.UserStart? || c.CommunityStart? || c.ChannelStart? || c.SendStart? || c.BanStart? ||
      (c.CheckStart? && c.next == ThenListen) || (c.Asking? && c.ask.UserAsked?) ||
      (c.Asking? && c.ask.IpAsked? && c.ask.after == R.Answer)
    ensures Init(World(EMPTY, map[], calls, [], 0))
  {
  }

  lemma InvInit(w: World)
    requires Init(w)
    ensures Inv(w)
  {
  }

  lemma {:induction false} ReachableInv(run: seq<World>, labels: seq<Label>, i: nat)
    requires IsRun(run, labels) && i < |run|
    ensures Inv(run[i])
  {
    hide Step, Inv;
    if i == 0 {
      InvInit(run[0]);
    } else {
      ReachableInv(run, labels, i - 1);
      InvStep(run[i - 1], labels[i - 1].call, labels[i - 1].env, run[i]);
    }
  }
}
