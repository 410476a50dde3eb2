/** WrongthinkServiceImpl: the channel cache, the message RPCs and the two RPCs that touch the
    user tables, as methods over mutable channels and a mutable database. */
module WrongthinkService {
  import opened Domain
  import opened SynchronizedChannels
  import opened PostgresStore
  import T = Tables
  import B = Bans
  import opened ServerSpec
  import Uuids

  /** The client stream as the send loop sees it. */
  class ServerReader {
    const objList: seq<Message>
    var pos: nat

    constructor (msgs: seq<Message>)
      ensures objList == msgs && pos == 0
    {
      objList, pos := msgs, 0;
    }

    method Read() returns (r: Option<Message>)
      requires pos <= |objList|
      modifies this
      ensures old(pos) == |objList| ==> r == None && pos == old(pos)
      ensures old(pos) < |objList| ==> r == Some(objList[old(pos)]) && pos == old(pos) + 1
    {
      if pos == |objList| {
        return None;
      }
      r := Some(objList[pos]);
      pos := pos + 1;
    }
  }

  class ServerWriter {
    var objList: seq<Message>

    constructor ()
      ensures objList == []
    {
      objList := [];
    }

    method Write(m: Message)
      modifies this
      ensures objList == old(objList) + [m]
    {
      objList := objList + [m];
    }
  }

  class WrongthinkServiceImpl {
    var channelMap: map<int, SynchronizedChannel>
    const store: DBPostgres
    ghost var cache: map<int, Channel>          // the values held in channelMap

    ghost predicate Valid()
      reads this, store, channelMap.Values
    {
      && store.Valid()
      && cache.Keys == channelMap.Keys
      && forall id :: id in channelMap ==>
           && channelMap[id].Valid() && channelMap[id].id == id
           && cache[id] == Channel(channelMap[id].name, channelMap[id].msgVector)
    }

    /** Entries of an earlier channelMap are still there, as the same objects: a listener's
        reference into channelMap stays valid. */
    predicate CacheStays(before: map<int, SynchronizedChannel>)
      reads this
    {
      forall id :: id in before ==> id in channelMap && channelMap[id] == before[id]
    }

    ghost function View(): Server
      reads this, store
    {
      Server(cache, store.db)
    }

    constructor (db: DBPostgres)
      requires db.Valid()
      ensures Valid() && store == db && channelMap == map[]
    {
      store, channelMap, cache := db, map[], map[];
    }

    lemma KeysAgree()
      requires Valid()
      ensures View().cache.Keys == channelMap.Keys
    {
    }

    /** On a miss the channels table decides.  Entries already cached stay the same objects. */
    method CheckForChannel(channelId: int) returns (found: bool)
      requires Valid()
      modifies this
      ensures Valid() && (View(), found) == Check(old(View()), channelId)
      ensures found ==> channelId in channelMap
      ensures CacheStays(old(channelMap))
      ensures fresh(channelMap.Values - old(channelMap.Values))
    {
      hide B.Inv, T.ChannelById;
      if channelId !in channelMap {
        var row := store.GetChannelRow(channelId);
        T.ChannelByIdFinds(store.db, channelId);
        if row == None {
          return false;
        }
        var ch := new SynchronizedChannel(channelId, row.value);
        channelMap := channelMap[channelId := ch];
        cache := cache[channelId := Channel(row.value, [])];
      }
      return true;
    }

    /** channelMap[id].appendMessage(msg) on an entry that exists. */
    method AppendToEntry(msg: Message)
      requires Valid() && msg.channelId in channelMap
      modifies this`cache, channelMap.Values
      ensures Valid() && channelMap == old(channelMap)
      ensures cache == AppendTo(old(cache), msg)
    {
      hide B.Inv;
      channelMap[msg.channelId].AppendMessage(msg);
      cache := AppendTo(cache, msg);
    }

    /** Runs the insert with the values bound to it. */
    method Execute(userId: int, channelId: int, threadId: int, threadChild: bool, text: string,
                   now: int) returns (ok: bool)
      requires Valid()
      modifies store
      ensures Valid() && channelMap == old(channelMap) && cache == old(cache)
      ensures T.Exec(store.db, ok) ==
        T.InsertValues(old(store.db), userId, channelId, threadId, threadChild, text, now)
    {
      hide B.Inv, T.InsertValues;
      ok := store.InsertValues(userId, channelId, threadId, threadChild, text, now);
    }

    method SendWrongthinkMessageWeb(msg: Message, now: int) returns (st: Status)
      requires Valid()
      modifies this, store, channelMap.Values
      ensures Valid() && (View(), st) == Send(old(View()), msg, now)
      ensures CacheStays(old(channelMap))
      ensures st == INVALID_ARGUMENT <==>
        && msg.channelId !in old(channelMap)
        && forall c :: c in old(store.db).channels ==> c.id != msg.channelId
      ensures st == OK <==>
        && (exists u :: u in old(store.db).users && u.id == msg.userId)
        && (exists c :: c in old(store.db).channels && c.id == msg.channelId)
        && -0x8000_0000 <= now < 0x8000_0000
    {
      hide Valid, Send, Check, AppendTo, T.InsertValues;
      KeysAgree();
      SendBySteps(View(), msg, now);
      SendEffect(View(), msg, now);
      var channelId := msg.channelId;
      var userId := msg.userId;
      var threadId := msg.threadId;
      var threadChild := msg.threadChild;
      var text := msg.text;
      var found := CheckForChannel(msg.channelId);
      if !found {
        return INVALID_ARGUMENT;
      }
      AppendToEntry(msg);
      var ok := Execute(userId, channelId, threadId, threadChild, text, now);
      return if ok then OK else INTERNAL;
    }

    /** The streamed send has the effect of single sends in order, up to the first failure.  Its
        insert is prepared once over five variables that every read refreshes; clock(i) is the
        database clock when message i is inserted. */
    method SendWrongthinkMessageImpl(reader: ServerReader, clock: nat -> int) returns (st: Status)
      requires Valid() && reader.pos <= |reader.objList|
      modifies this, store, channelMap.Values, reader
      ensures Valid()
      ensures (View(), st) == SendAll(old(View()), reader.objList, clock, old(reader.pos))
      ensures CacheStays(old(channelMap))
    {
      hide Valid, SendAll, Send, Check, AppendTo, T.InsertValues;
      var msgs := reader.objList;
      ghost var goal := SendAll(View(), msgs, clock, reader.pos);
      var channelId, userId, threadId := 0, 0, 0;
      var threadChild := false;
      var text := "";
      var i := reader.pos;
      var next := reader.Read();
      while next.Some?
        invariant Valid() && i <= |msgs| && CacheStays(old(channelMap))
        invariant fresh(channelMap.Values - old(channelMap.Values))
        invariant next == if i < |msgs| then Some(msgs[i]) else None
        invariant reader.pos == if i < |msgs| then i + 1 else i
        invariant SendAll(View(), msgs, clock, i) == goal
        decreases |msgs| - i
      {
        var msg := next.value;
        channelId := msg.channelId;
        userId := msg.userId;
        threadId := msg.threadId;
        threadChild := msg.threadChild;
        text := msg.text;
        ghost var before := View();
        SendAllUnfolds(before, msgs, clock, i);
        SendBySteps(before, msg, clock(i));
        var found := CheckForChannel(msg.channelId);
        if !found {
          return INVALID_ARGUMENT;
        }
        AppendToEntry(msg);
        var ok := Execute(userId, channelId, threadId, threadChild, text, clock(i));
        assert (View(), if ok then OK else INTERNAL) == Send(before, msg, clock(i));
        if !ok {
          return INTERNAL;
        }
        i := i + 1;
        assert SendAll(View(), msgs, clock, i) == goal;
        next := reader.Read();
      }
      SendAllEnds(View(), msgs, clock);
      st := OK;
    }

    /** Up to the endless listen loop: the channel object the listener will wait on is the cached
        one, and stays so because entries are never replaced. */
    method ListenStart(channelId: int) returns (st: Status, channel: SynchronizedChannel?)
      requires Valid()
      modifies this
      ensures Valid() && View() == Check(old(View()), channelId).0
      ensures st == if Check(old(View()), channelId).1 then OK else INVALID_ARGUMENT
      ensures st == OK ==> channelId in channelMap && channel == channelMap[channelId]
    {
      var found := CheckForChannel(channelId);
      if !found {
        return INVALID_ARGUMENT, null;
      }
      return OK, channelMap[channelId];
    }

    method GetWrongthinkMessagesImpl(channelId: int, writer: ServerWriter)
      modifies writer
      ensures writer.objList == old(writer.objList) + GetMessages(store.db, channelId)
    {
      var db := store.db;
      var rows := db.messages;
      var i := 0;
      while i < |rows|
        invariant 0 <= i <= |rows|
        invariant writer.objList == old(writer.objList) + Joined(db, rows[..i], channelId)
      {
        JoinedNext(db, rows, i, channelId);
        var user := T.UserById(db, rows[i].userId);
        if user.Some? && rows[i].channel == channelId {
          writer.Write(Shown(rows[i], user.value.uname));
        }
        i := i + 1;
      }
      assert rows[..i] == rows;
    }

    /** credentials: the name and token attached to the call, if any. */
    method BanUser(credentials: Option<(string, string)>, uname: string, days: int, now: int)
      returns (st: Status)
      requires Valid()
      modifies store
      ensures Valid()
      ensures st == OK <==>
        && credentials.Some? && B.BanUser(old(store.db), uname, days, now).ok
        && exists u :: u in old(store.db).users && u.uname == credentials.value.0 &&
             u.token == credentials.value.1 && u.admin
      ensures st == OK || st == INTERNAL ==> store.db == B.BanUser(old(store.db), uname, days, now).db
      ensures st != OK && st != INTERNAL ==> store.db == old(store.db)
      ensures st == INTERNAL <==>
        && credentials.Some? && !B.BanUser(old(store.db), uname, days, now).ok
        && exists u :: u in old(store.db).users && u.uname == credentials.value.0 &&
             u.token == credentials.value.1 && u.admin
      ensures st == UNAUTHENTICATED("No credentials attached to the channel") <==> credentials == None
      ensures st == UNAUTHENTICATED("Invalid user") <==>
        credentials.Some? && forall u :: u in old(store.db).users && u.uname == credentials.value.0 ==>
          u.token != credentials.value.1
      ensures st == UNAUTHENTICATED("Invalid permission") <==>
        && credentials.Some?
        && (exists u :: u in old(store.db).users && u.uname == credentials.value.0 &&
              u.token == credentials.value.1)
        && forall u :: u in old(store.db).users && u.uname == credentials.value.0 ==> !u.admin
      ensures credentials.Some? ==>
        (store.db, st) == B.BanRpc(old(store.db), credentials.value.0, credentials.value.1, uname, days, now)
    {
      hide B.BanUser, T.UsersOk, T.CommunitiesOk, T.ChannelsOk, T.MessagesOk, T.UserBansOk, T.IpBansOk,
        B.OnePerUser;
      if credentials == None {
        return UNAUTHENTICATED("No credentials attached to the channel");
      }
      B.BanRpcMeans(store.db, credentials.value.0, credentials.value.1, uname, days, now);
      var valid := store.IsUserValid(credentials.value.0, credentials.value.1);
      if !valid {
        return UNAUTHENTICATED("Invalid user");
      }
      var admin := store.IsUserAdmin(credentials.value.0);
      if !admin {
        return UNAUTHENTICATED("Invalid permission");
      }
      var ok := store.BanUser(uname, days, now);
      return if ok then OK else INTERNAL;
    }

    /** uuid1 and uuid2 are the two random UUIDs, in text form. */
    method GenerateUser(uuid1: string, uuid2: string)
      returns (st: Status, uname: string, token: string, admin: bool, uid: nat)
      requires Valid()
      modifies store
      ensures Valid()
      ensures st == OK || st == INTERNAL
      ensures T.Exec(store.db, st == OK) ==
        T.InsertUser(old(store.db), Uuids.WithoutDashes(uuid1), Uuids.WithoutDashes(uuid2),
                     !T.HasAdmin(old(store.db)))
      ensures |Uuids.WithoutDashes(uuid1)| <= 50 && |Uuids.WithoutDashes(uuid2)| <= 50 ==>
        (st == OK <==> forall u :: u in old(store.db).users ==> u.uname != Uuids.WithoutDashes(uuid1))
      ensures st == OK ==> uname == Uuids.WithoutDashes(uuid1) && token == Uuids.WithoutDashes(uuid2)
      ensures st == OK ==> (admin <==> forall u :: u in old(store.db).users ==> !u.admin)
      ensures st == OK && |uname| <= 50 && |token| <= 50 ==>
        store.db.users == old(store.db).users + [T.UserRow(uid, uname, token, admin)]
    {
      uname := Uuids.StripDashes(uuid1);
      token := Uuids.StripDashes(uuid2);
      var r: Result<int>;
      r, admin := store.CreateUser(uname, token, false);
      if r == Thrown {
        return INTERNAL, "", "", false, 0;
      }
      return OK, uname, token, admin, r.value;
    }
  }

  lemma SendAllUnfolds(sv: Server, msgs: seq<Message>, clock: nat -> int, i: nat)
    requires i < |msgs|
    ensures var (sv1, st) := Send(sv, msgs[i], clock(i));
      SendAll(sv, msgs, clock, i) ==
        if st == OK then SendAll(sv1, msgs, clock, i + 1) else (sv1, st)
  {
  }

  /** Send in the order of its steps: check, append, insert of the five bound values. */
  lemma SendBySteps(sv: Server, m: Message, now: int)
    ensures var (sv1, found) := Check(sv, m.channelId);
      Send(sv, m, now) ==
        if !found then (sv1, INVALID_ARGUMENT)
        else
          var r := T.InsertValues(sv1.db, m.userId, m.channelId, m.threadId, m.threadChild, m.text, now);
          (Server(AppendTo(sv1.cache, m), r.db), if r.ok then OK else INTERNAL)
  {
  }

  lemma SendAllEnds(sv: Server, msgs: seq<Message>, clock: nat -> int)
    ensures SendAll(sv, msgs, clock, |msgs|) == (sv, OK)
  {
  }
}
