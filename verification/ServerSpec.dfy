/** The message RPCs as functions of the channel cache and the tables, and what the send and get
    paths guarantee over whole streams and runs.  WrongthinkService proves its methods equal to
    these functions. */
module ServerSpec {
  import opened Domain
  import opened Tables
  import Statements

  /** A cached SynchronizedChannel: its name and msgVector_. */
  datatype Channel = Channel(name: string, log: Log)

  /** channelMap and the database behind it. */
  datatype Server = Server(cache: map<int, Channel>, db: Database)

  /** checkForChannel: fill the cache from the channels table on a miss. */
  function Check(sv: Server, id: int): (Server, bool) {
    if id in sv.cache then (sv, true)
    else match ChannelById(sv.db, id)
      case None => (sv, false)
      case Some(row) => (sv.(cache := sv.cache[id := Channel(row.name, [])]), true)
  }

  /** checkForChannel over rows: it answers true exactly when the channel is cached or has a row; a
      miss that finds a row adds one entry, with the row's name and an empty log, and nothing else
      changes. */
  lemma CheckMeans(sv: Server, id: int)
    ensures var (sv', found) := Check(sv, id);
      && (found <==> id in sv.cache || exists c :: c in sv.db.channels && c.id == id)
      && sv'.db == sv.db
      && (if !found || id in sv.cache then sv'.cache == sv.cache
          else exists c :: c in sv.db.channels && c.id == id &&
                 sv'.cache == sv.cache[id := Channel(c.name, [])])
  {
    hide ChannelById;
    Statements.LookupsFind(sv.db, id);
  }

  /** channelMap[id]: a missing key gives a default-constructed channel. */
  function Entry(cache: map<int, Channel>, id: int): Channel {
    if id in cache then cache[id] else Channel("", [])
  }

  /** channelMap[id].appendMessage(m) */
  function AppendTo(cache: map<int, Channel>, m: Message): map<int, Channel> {
    var ch := Entry(cache, m.channelId);
    cache[m.channelId := ch.(log := ch.log + [m])]
  }

  /** SendWrongthinkMessageWeb at clock reading now. */
  function Send(sv: Server, m: Message, now: int): (Server, Status) {
    var (sv1, found) := Check(sv, m.channelId);
    if !found then (sv1, INVALID_ARGUMENT)
    else
      var r := InsertMessage(sv1.db, m, now);
      (Server(AppendTo(sv1.cache, m), r.db), if r.ok then OK else INTERNAL)
  }

  /** Single sends of msgs[i..] in order, stopping at the first status other than OK. */
  function SendAll(sv: Server, msgs: seq<Message>, clock: nat -> int, i: nat): (Server, Status)
    decreases |msgs| - i
  {
    if i >= |msgs| then (sv, OK)
    else
      var (sv1, st) := Send(sv, msgs[i], clock(i));
      if st != OK then (sv1, st) else SendAll(sv1, msgs, clock, i + 1)
  }

  // ---- What a stream of sends leaves behind ----

  /** The messages of msgs[i..n] for channel c, in order. */
  function ForChannel(msgs: seq<Message>, c: int, i: nat, n: nat): seq<Message>
    requires i <= n <= |msgs|
    decreases n - i
  {
    if i == n then []
    else (if msgs[i].channelId == c then [msgs[i]] else []) + ForChannel(msgs, c, i + 1, n)
  }

  function Rows(next: nat, msgs: seq<Message>, clock: nat -> int, i: nat, n: nat): seq<MessageRow>
    requires i <= n <= |msgs|
    decreases n - i
  {
    if i == n then []
    else [NewMessageRow(next, msgs[i], clock(i))] + Rows(next + 1, msgs, clock, i + 1, n)
  }

  function LogOf(cache: map<int, Channel>, c: int): Log {
    Entry(cache, c).log
  }

  predicate Known(sv: Server, id: int) {
    id in sv.cache || ChannelById(sv.db, id).Some?
  }

  predicate Accepts(sv: Server, m: Message, now: int) {
    Known(sv, m.channelId) && MessageAccepted(sv.db, m.userId, m.channelId, now)
  }

  /** The first message at or after i that is not accepted; |msgs| when all are. */
  function FirstRejected(sv: Server, msgs: seq<Message>, clock: nat -> int, i: nat): (n: nat)
    requires i <= |msgs|
    ensures i <= n <= |msgs|
    ensures forall k :: i <= k < n ==> Accepts(sv, msgs[k], clock(k))
    ensures n < |msgs| ==> !Accepts(sv, msgs[n], clock(n))
    decreases |msgs| - i
  {
    if i == |msgs| || !Accepts(sv, msgs[i], clock(i)) then i
    else FirstRejected(sv, msgs, clock, i + 1)
  }

  lemma SendJudged(sv: Server, m: Message, now: int)
    ensures var (sv', st) := Send(sv, m, now);
      && st == (if Accepts(sv, m, now) then OK
                else if Known(sv, m.channelId) then INTERNAL else INVALID_ARGUMENT)
      && sv'.db.users == sv.db.users && sv'.db.channels == sv.db.channels
      && sv'.db.messages == sv.db.messages +
           (if st == OK then [NewMessageRow(sv.db.nextMessage, m, now)] else [])
      && (st == OK ==> sv'.db.nextMessage == sv.db.nextMessage + 1)
      && (forall id :: Known(sv', id) <==> Known(sv, id))
      && (forall c :: LogOf(sv'.cache, c) ==
            LogOf(sv.cache, c) + (if st != INVALID_ARGUMENT && c == m.channelId then [m] else []))
  {
  }

  /** Accepts and Known, said over rows: a channel is known when it is cached or has a row, and the
      table takes a message whose user and channel have rows, at a clock reading that is an int. */
  lemma AcceptsMeans(sv: Server, m: Message, now: int)
    ensures Known(sv, m.channelId) <==>
      m.channelId in sv.cache || exists c :: c in sv.db.channels && c.id == m.channelId
    ensures Accepts(sv, m, now) <==>
      && (exists u :: u in sv.db.users && u.id == m.userId)
      && (exists c :: c in sv.db.channels && c.id == m.channelId)
      && -0x8000_0000 <= now < 0x8000_0000
  {
    hide UserById, ChannelById;
    Statements.LookupsFind(sv.db, m.userId);
    Statements.LookupsFind(sv.db, m.channelId);
  }

  /** One send, over rows: INVALID_ARGUMENT exactly when the channel is neither cached nor a row, OK
      exactly when user and channel have rows, INTERNAL otherwise; the row added on OK with all its
      fields; and the log of that channel, unless it was not known, but no other log. */
  lemma SendEffect(sv: Server, m: Message, now: int)
    ensures var (sv', st) := Send(sv, m, now);
      && (st == INVALID_ARGUMENT <==>
            m.channelId !in sv.cache && forall c :: c in sv.db.channels ==> c.id != m.channelId)
      && (st == OK <==>
            && (exists u :: u in sv.db.users && u.id == m.userId)
            && (exists c :: c in sv.db.channels && c.id == m.channelId)
            && -0x8000_0000 <= now < 0x8000_0000)
      && (st == OK || st == INTERNAL || st == INVALID_ARGUMENT)
      && sv'.db == sv.db.(messages := sv'.db.messages, nextMessage := sv'.db.nextMessage)
      && sv'.db.messages == sv.db.messages +
           (if st != OK then []
            else [MessageRow(sv.db.nextMessage, m.userId, m.channelId, m.threadId, m.threadChild,
                             false, m.text, now)])
      && (forall c :: LogOf(sv'.cache, c) ==
            LogOf(sv.cache, c) + (if st != INVALID_ARGUMENT && c == m.channelId then [m] else []))
  {
    hide Accepts, Known, LogOf;
    AcceptsMeans(sv, m, now);
    SendJudged(sv, m, now);
  }

  lemma SameJudgement(sv: Server, sv': Server, msgs: seq<Message>, clock: nat -> int, i: nat)
    requires i <= |msgs|
    requires sv'.db.users == sv.db.users && sv'.db.channels == sv.db.channels
    requires forall id :: Known(sv', id) <==> Known(sv, id)
    ensures FirstRejected(sv', msgs, clock, i) == FirstRejected(sv, msgs, clock, i)
    decreases |msgs| - i
  {
  }

  lemma {:induction false} StreamStatus(sv: Server, msgs: seq<Message>, clock: nat -> int, i: nat)
    requires i <= |msgs|
    ensures var n := FirstRejected(sv, msgs, clock, i);
      SendAll(sv, msgs, clock, i).1 ==
        if n == |msgs| then OK
        else if Known(sv, msgs[n].channelId) then INTERNAL else INVALID_ARGUMENT
    decreases |msgs| - i
  {
    if i == |msgs| {
    } else {
      SendJudged(sv, msgs[i], clock(i));
      var sv1 := Send(sv, msgs[i], clock(i)).0;
      if Accepts(sv, msgs[i], clock(i)) {
        StreamStatus(sv1, msgs, clock, i + 1);
        SameJudgement(sv, sv1, msgs, clock, i + 1);
      }
    }
  }

  /** One round of the stream: where it goes on, and what it adds to the rows. */
  lemma RoundOfRows(sv: Server, msgs: seq<Message>, clock: nat -> int, i: nat)
    requires i < |msgs|
    ensures var sv1 := Send(sv, msgs[i], clock(i)).0;
      if Accepts(sv, msgs[i], clock(i)) then
        && SendAll(sv, msgs, clock, i).0 == SendAll(sv1, msgs, clock, i + 1).0
        && sv1.db.messages == sv.db.messages + [NewMessageRow(sv.db.nextMessage, msgs[i], clock(i))]
        && sv1.db.nextMessage == sv.db.nextMessage + 1
        && FirstRejected(sv1, msgs, clock, i + 1) == FirstRejected(sv, msgs, clock, i)
      else
        SendAll(sv, msgs, clock, i).0 == sv1 && sv1.db.messages == sv.db.messages
  {
    SendJudged(sv, msgs[i], clock(i));
    SameJudgement(sv, Send(sv, msgs[i], clock(i)).0, msgs, clock, i + 1);
  }

  lemma {:induction false} StreamRows(sv: Server, msgs: seq<Message>, clock: nat -> int, i: nat)
    requires i <= |msgs|
    ensures SendAll(sv, msgs, clock, i).0.db.messages ==
      sv.db.messages + Rows(sv.db.nextMessage, msgs, clock, i, FirstRejected(sv, msgs, clock, i))
    decreases |msgs| - i
  {
    hide Send, Accepts;
    if i == |msgs| {
    } else {
      RoundOfRows(sv, msgs, clock, i);
      if Accepts(sv, msgs[i], clock(i)) {
        StreamRows(Send(sv, msgs[i], clock(i)).0, msgs, clock, i + 1);
      }
    }
  }

  /** How far the log gets: one message further than the rows when only the insert failed. */
  function Logged(sv: Server, msgs: seq<Message>, clock: nat -> int, i: nat): (n: nat)
    requires i <= |msgs|
    ensures i <= n <= |msgs|
  {
    var n := FirstRejected(sv, msgs, clock, i);
    if n < |msgs| && Known(sv, msgs[n].channelId) then n + 1 else n
  }

  /** One round of the stream, for the logs. */
  lemma RoundOfLogs(sv: Server, msgs: seq<Message>, clock: nat -> int, i: nat, c: int)
    requires i < |msgs|
    ensures var sv1 := Send(sv, msgs[i], clock(i)).0;
      && SendAll(sv, msgs, clock, i).0 ==
           (if Accepts(sv, msgs[i], clock(i)) then SendAll(sv1, msgs, clock, i + 1).0 else sv1)
      && LogOf(sv1.cache, c) == LogOf(sv.cache, c) +
           (if Known(sv, msgs[i].channelId) && c == msgs[i].channelId then [msgs[i]] else [])
      && (if Accepts(sv, msgs[i], clock(i))
          then Logged(sv1, msgs, clock, i + 1) == Logged(sv, msgs, clock, i) > i
          else Logged(sv, msgs, clock, i) == if Known(sv, msgs[i].channelId) then i + 1 else i)
      && (Accepts(sv, msgs[i], clock(i)) ==> Known(sv, msgs[i].channelId))
  {
    SendJudged(sv, msgs[i], clock(i));
    SameJudgement(sv, Send(sv, msgs[i], clock(i)).0, msgs, clock, i + 1);
  }

  /** The claim of StreamLogs below. */
  predicate LogsGetStream(sv: Server, msgs: seq<Message>, clock: nat -> int, i: nat, c: int)
    requires i <= |msgs|
  {
    LogOf(SendAll(sv, msgs, clock, i).0.cache, c) ==
      LogOf(sv.cache, c) + ForChannel(msgs, c, i, Logged(sv, msgs, clock, i))
  }

  lemma AcceptedRound(sv: Server, msgs: seq<Message>, clock: nat -> int, i: nat, c: int)
    requires i < |msgs| && Accepts(sv, msgs[i], clock(i))
    requires LogsGetStream(Send(sv, msgs[i], clock(i)).0, msgs, clock, i + 1, c)
    ensures LogsGetStream(sv, msgs, clock, i, c)
  {
    hide Send, SendAll, Accepts, Known, Logged, LogOf;
    RoundOfLogs(sv, msgs, clock, i, c);
    var own := if c == msgs[i].channelId then [msgs[i]] else [];
    var later := ForChannel(msgs, c, i + 1, Logged(sv, msgs, clock, i));
    assert (LogOf(sv.cache, c) + own) + later == LogOf(sv.cache, c) + (own + later);
  }

  lemma RefusedRound(sv: Server, msgs: seq<Message>, clock: nat -> int, i: nat, c: int)
    requires i < |msgs| && !Accepts(sv, msgs[i], clock(i))
    ensures LogsGetStream(sv, msgs, clock, i, c)
  {
    hide Send, SendAll, Accepts, Known, Logged, LogOf;
    RoundOfLogs(sv, msgs, clock, i, c);
    var own := if c == msgs[i].channelId then [msgs[i]] else [];
    assert ForChannel(msgs, c, i, i + 1) == own + [] == own;
  }

  lemma {:induction false} StreamLogs(
    sv: Server, msgs: seq<Message>, clock: nat -> int, i: nat, c: int)
    requires i <= |msgs|
    ensures LogsGetStream(sv, msgs, clock, i, c)
    decreases |msgs| - i
  {
    hide LogsGetStream, Send, Accepts;
    if i == |msgs| {
      NoMoreRounds(sv, msgs, clock, c);
    } else if Accepts(sv, msgs[i], clock(i)) {
      StreamLogs(Send(sv, msgs[i], clock(i)).0, msgs, clock, i + 1, c);
      AcceptedRound(sv, msgs, clock, i, c);
    } else {
      RefusedRound(sv, msgs, clock, i, c);
    }
  }

  lemma NoMoreRounds(sv: Server, msgs: seq<Message>, clock: nat -> int, c: int)
    ensures LogsGetStream(sv, msgs, clock, |msgs|, c)
  {
  }

  /** The whole effect of a stream, judged on the starting state alone: with n the first message
      that is not accepted, the status says why it stopped, exactly the messages before n become
      rows with consecutive ids, and the log of each channel c gets them in order - plus message n
      itself when its channel was known and only the insert failed. */
  lemma StreamEffect(sv: Server, msgs: seq<Message>, clock: nat -> int, c: int)
    ensures
      var n := FirstRejected(sv, msgs, clock, 0);
      var (sv', st) := SendAll(sv, msgs, clock, 0);
      && st == (if n == |msgs| then OK
                else if Known(sv, msgs[n].channelId) then INTERNAL else INVALID_ARGUMENT)
      && sv'.db.messages == sv.db.messages + Rows(sv.db.nextMessage, msgs, clock, 0, n)
      && LogOf(sv'.cache, c) ==
           LogOf(sv.cache, c) + ForChannel(msgs, c, 0, if st == INTERNAL then n + 1 else n)
  {
    hide SendAll, Known, ForChannel, LogOf, Rows;
    StreamStatus(sv, msgs, clock, 0);
    StreamRows(sv, msgs, clock, 0);
    StreamLogs(sv, msgs, clock, 0, c);
  }

  // ---- Reading the messages back ----

  function Shown(r: MessageRow, uname: string): Message {
    Message(uname, "", r.channel, r.userId, r.threadId, r.threadChild, r.edited, r.text, r.date, r.id)
  }

  /** The inner join of rows with users, restricted to channel c, in table order. */
  function Joined(db: Database, rows: seq<MessageRow>, c: int): seq<Message> {
    if rows == [] then []
    else
      var r := rows[|rows| - 1];
      Joined(db, rows[..|rows| - 1], c) +
      match UserById(db, r.userId)
      case None => []
      case Some(u) => if r.channel == c then [Shown(r, u.uname)] else []
  }

  lemma JoinedNext(db: Database, rows: seq<MessageRow>, i: nat, c: int)
    requires i < |rows|
    ensures Joined(db, rows[..i + 1], c) == Joined(db, rows[..i], c) +
      match UserById(db, rows[i].userId)
      case None => []
      case Some(u) => if rows[i].channel == c then [Shown(rows[i], u.uname)] else []
  {
    assert rows[..i + 1][..i] == rows[..i];
  }

  /** What GetWrongthinkMessages writes for channel c. */
  function GetMessages(db: Database, c: int): seq<Message> {
    Joined(db, db.messages, c)
  }

  datatype Op =
    | SendOne(m: Message, now: int)
    | Lookup(channel: int)
    | AddUser(uname: string, token: string, admin: bool)
    | AddCommunity(name: string, adminId: int, pub: bool)
    | AddChannel(name: string, community: int, adminId: int, anon: bool)

  function DoOp(sv: Server, op: Op): (Server, Status) {
    match op
    case SendOne(m, now) => Send(sv, m, now)
    case Lookup(c) => (Check(sv, c).0, OK)
    case AddUser(u, k, admin) => (sv.(db := InsertUser(sv.db, u, k, admin).db), OK)
    case AddCommunity(n, a, p) => (sv.(db := InsertCommunity(sv.db, n, a, p).db), OK)
    case AddChannel(n, c, a, anon) => (sv.(db := InsertChannel(sv.db, n, c, a, anon).db), OK)
  }

  function Play(sv: Server, ops: seq<Op>): Server {
    if ops == [] then sv
    else DoOp(Play(sv, ops[..|ops| - 1]), ops[|ops| - 1]).0
  }

  /** The message as a reader should see it: the sender's name, the stored fields, the id and
      time given by the database. */
  function Echo(db: Database, m: Message, now: int): Message {
    var uname := match UserById(db, m.userId) case Some(u) => u.uname case None => "";
    Message(uname, "", m.channelId, m.userId, m.threadId, m.threadChild, false, m.text, now,
            db.nextMessage)
  }

  /** The successful sends of the run for channel c, in send order, as seen when sent. */
  function Sent(sv: Server, ops: seq<Op>, c: int): seq<Message> {
    if ops == [] then []
    else
      var before, op := Play(sv, ops[..|ops| - 1]), ops[|ops| - 1];
      Sent(sv, ops[..|ops| - 1], c) +
      if op.SendOne? && op.m.channelId == c && DoOp(before, op).1 == OK
      then [Echo(before.db, op.m, op.now)] else []
  }

  lemma SendKeeps(sv: Server, m: Message, now: int)
    requires Valid(sv.db)
    ensures Valid(Send(sv, m, now).0.db) && Grows(sv.db, Send(sv, m, now).0.db)
  {
    hide Valid, InsertMessage;
    InsertMessageKeeps(sv.db, m, now);
  }

  lemma DoOpKeeps(sv: Server, op: Op)
    requires Valid(sv.db)
    ensures Valid(DoOp(sv, op).0.db) && Grows(sv.db, DoOp(sv, op).0.db)
    ensures !op.SendOne? ==> DoOp(sv, op).0.db.messages == sv.db.messages
  {
    hide Valid, Send, InsertUser, InsertCommunity, InsertChannel;
    match op
    case SendOne(m, now) => SendKeeps(sv, m, now);
    case Lookup(c) =>
    case AddUser(u, k, admin) => InsertUserKeeps(sv.db, u, k, admin);
    case AddCommunity(n, a, p) => InsertCommunityKeeps(sv.db, n, a, p);
    case AddChannel(n, c, a, anon) => InsertChannelKeeps(sv.db, n, c, a, anon);
  }

  lemma {:induction false} PlayKeeps(sv: Server, ops: seq<Op>)
    requires Valid(sv.db)
    ensures Valid(Play(sv, ops).db) && Grows(sv.db, Play(sv, ops).db)
  {
    hide Valid, DoOp;
    if ops == [] {
    } else {
      PlayKeeps(sv, ops[..|ops| - 1]);
      DoOpKeeps(Play(sv, ops[..|ops| - 1]), ops[|ops| - 1]);
    }
  }

  /** Adding rows to other tables does not change what the join shows for old messages. */
  lemma {:induction false} JoinIsStable(db: Database, db': Database, rows: seq<MessageRow>, c: int)
    requires Grows(db, db')
    requires forall i :: 0 <= i < |rows| ==> UserById(db, rows[i].userId).Some?
    ensures Joined(db', rows, c) == Joined(db, rows, c)
  {
    if rows == [] {
    } else {
      JoinIsStable(db, db', rows[..|rows| - 1], c);
      LookupsSurvive(db, db', rows[|rows| - 1].userId);
    }
  }

  lemma SendersExist(db: Database)
    requires Valid(db)
    ensures forall i :: 0 <= i < |db.messages| ==> UserById(db, db.messages[i].userId).Some?
  {
  }

  lemma GetAfterSend(before: Server, m: Message, now: int, c: int)
    requires forall i :: 0 <= i < |before.db.messages| ==>
      UserById(before.db, before.db.messages[i].userId).Some?
    requires Grows(before.db, Send(before, m, now).0.db)
    ensures GetMessages(Send(before, m, now).0.db, c) == GetMessages(before.db, c) +
      if m.channelId == c && Send(before, m, now).1 == OK then [Echo(before.db, m, now)] else []
  {
    var (after, st) := Send(before, m, now);
    SendJudged(before, m, now);
    JoinIsStable(before.db, after.db, before.db.messages, c);
    hide Send;
    if st == OK {
      var rows := after.db.messages;
      assert rows[..|rows| - 1] == before.db.messages;
      assert UserById(after.db, m.userId) == UserById(before.db, m.userId);
    }
  }

  lemma GetAfterOp(before: Server, op: Op, c: int)
    requires Valid(before.db)
    ensures GetMessages(DoOp(before, op).0.db, c) == GetMessages(before.db, c) +
      if op.SendOne? && op.m.channelId == c && DoOp(before, op).1 == OK
      then [Echo(before.db, op.m, op.now)] else []
  {
    hide Valid, Send, InsertUser, InsertCommunity, InsertChannel;
    DoOpKeeps(before, op);
    SendersExist(before.db);
    if op.SendOne? {
      GetAfterSend(before, op.m, op.now, c);
    } else {
      JoinIsStable(before.db, DoOp(before, op).0.db, before.db.messages, c);
    }
  }

  /** Send then get: a reader of channel c gets what was there before the run followed by exactly
      the successful sends for c, in order, with their fields and the sender's name. */
  lemma {:induction false} SendThenGet(sv: Server, ops: seq<Op>, c: int)
    requires Valid(sv.db)
    ensures GetMessages(Play(sv, ops).db, c) == GetMessages(sv.db, c) + Sent(sv, ops, c)
  {
    hide Valid, DoOp, GetMessages;
    if ops == [] {
    } else {
      var init, op := ops[..|ops| - 1], ops[|ops| - 1];
      SendThenGet(sv, init, c);
      PlayKeeps(sv, init);
      GetAfterOp(Play(sv, init), op, c);
    }
  }

  function CountFor(rows: seq<MessageRow>, c: int): nat {
    if rows == [] then 0
    else CountFor(rows[..|rows| - 1], c) + if rows[|rows| - 1].channel == c then 1 else 0
  }

  lemma {:induction false} JoinShows(db: Database, rows: seq<MessageRow>, c: int)
    requires forall i :: 0 <= i < |rows| ==> UserById(db, rows[i].userId).Some?
    requires forall i, j :: 0 <= i < j < |rows| ==> rows[i].id < rows[j].id
    ensures |Joined(db, rows, c)| == CountFor(rows, c)
    ensures var out := Joined(db, rows, c);
      && (forall i :: 0 <= i < |out| ==> |rows| > 0 && out[i].messageId <= rows[|rows| - 1].id)
      && (forall i, j :: 0 <= i < j < |out| ==> out[i].messageId < out[j].messageId)
  {
    if rows == [] {
    } else {
      JoinShows(db, rows[..|rows| - 1], c);
    }
  }

  /** The row r and the user u it joins with show as the message m. */
  predicate Shows(db: Database, c: int, r: MessageRow, u: UserRow, m: Message) {
    && r in db.messages && u in db.users && r.channel == c && u.id == r.userId
    && m == Message(u.uname, "", c, u.id, r.threadId, r.threadChild, r.edited, r.text, r.date, r.id)
  }

  lemma {:induction false} JoinIsExact(db: Database, rows: seq<MessageRow>, c: int, m: Message)
    requires UsersOk(db) && forall r :: r in rows ==> r in db.messages
    requires forall i :: 0 <= i < |rows| ==> UserById(db, rows[i].userId).Some?
    ensures m in Joined(db, rows, c) <==> exists r, u :: r in rows && Shows(db, c, r, u, m)
  {
    hide UsersOk, UserById;
    if rows == [] {
    } else {
      var init, r := rows[..|rows| - 1], rows[|rows| - 1];
      JoinIsExact(db, init, c, m);
      var u := UserById(db, r.userId).value;
      Statements.LookupsFind(db, r.userId);
      assert r in rows && u in db.users && u.id == r.userId;
      forall v | v in db.users && v.id == r.userId ensures v == u {
        UserIsUnique(db, v);
      }
      assert Joined(db, rows, c) ==
        Joined(db, init, c) + if r.channel == c then [Shown(r, u.uname)] else [];
      assert r.channel == c ==> Shows(db, c, r, u, Shown(r, u.uname));
    }
  }

  /** Over rows: a reader of channel c gets a message if and only if a message row of the channel and
      the user row it refers to show as it. */
  lemma GetIsExact(db: Database, c: int, m: Message)
    requires Valid(db)
    ensures m in GetMessages(db, c) <==> exists r, u :: Shows(db, c, r, u, m)
  {
    hide CommunitiesOk, ChannelsOk, UserBansOk, IpBansOk, Joined;
    SendersExist(db);
    JoinIsExact(db, db.messages, c, m);
  }

  /** The foreign key makes the join lossless, and table order is the order by msg_id that the
      query asks for. */
  lemma GetIsLosslessAndOrdered(db: Database, c: int)
    requires Valid(db)
    ensures |GetMessages(db, c)| == CountFor(db.messages, c)
    ensures var out := GetMessages(db, c);
      forall i, j :: 0 <= i < j < |out| ==> out[i].messageId < out[j].messageId
  {
    JoinShows(db, db.messages, c);
  }
}
