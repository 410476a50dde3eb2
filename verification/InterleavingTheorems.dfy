/** What holds in every reachable state of Interleaving, and over every run. */
module InterleavingTheorems {
  import opened Domain
  import opened Tables
  import opened ServerSpec
  import opened Interleaving
  import SC = SynchronizedChannels
  import R = BanReaders

  // ---- Users and created rows ----

  /** As soon as there is a user there is an admin, whatever createUser calls are in progress. */
  lemma AnAdminAlwaysExists(run: seq<World>, labels: seq<Label>, i: nat)
    requires IsRun(run, labels) && i < |run|
    ensures run[i].db.users != [] ==> exists u :: u in run[i].db.users && u.admin
  {
    ReachableInv(run, labels, i);
  }

  /** A finished create call returns the id of the row it inserted itself, exactly when the column
      stored its name as given; a trimmed name gives 0 (users, channels) or an unset int
      (communities). */
  lemma CreateReturnsOwnRow(run: seq<World>, labels: seq<Label>, i: nat, t: nat)
    requires IsRun(run, labels) && i < |run| && t < |run[i].calls|
    ensures var c := run[i].calls[t];
      && (c.UserDone? ==> UserHas(run[i].db, c.own, c.uname) && (c.id == c.own <==> |c.uname| <= 50))
      && (c.CommunityDone? && |c.name| <= 100 ==>
            CommunityHas(run[i].db, c.own, c.name) && c.id == c.own)
      && (c.ChannelDone? ==> ChannelHas(run[i].db, c.own, c.name) && (c.id == c.own <==> |c.name| <= 100))
  {
    hide CommunitiesOk, MessagesOk, UserBansOk, IpBansOk, CacheOk, IsRun;
    ReachableInv(run, labels, i);
    assert CallOk(run[i].calls[t], run[i].db, run[i].cache);
  }

  /** Different successful calls on one table return different ids. */
  lemma CreatedIdsAreDistinct(run: seq<World>, labels: seq<Label>, i: nat, t: nat, u: nat)
    requires IsRun(run, labels) && i < |run| && t < u < |run[i].calls|
    ensures var c, d := run[i].calls[t], run[i].calls[u];
      && (c.UserDone? && d.UserDone? && |c.uname| <= 50 && |d.uname| <= 50 ==> c.id != d.id)
      && (c.CommunityDone? && d.CommunityDone? && |c.name| <= 100 && |d.name| <= 100 ==> c.id != d.id)
      && (c.ChannelDone? && d.ChannelDone? && |c.name| <= 100 && |d.name| <= 100 ==> c.id != d.id)
  {
    hide Valid, IsRun;
    ReachableInv(run, labels, i);
    var c, d := run[i].calls[t], run[i].calls[u];
    assert CallOk(c, run[i].db, run[i].cache) && CallOk(d, run[i].db, run[i].cache);
    assert Own(c).Some? ==> Own(c) != Own(d);
  }

  /** u is the only row of that name; it holds the token and is an admin. */
  predicate IsOnlyAdminRow(db: Database, u: UserRow, name: string, token: string) {
    && u in db.users && u == UserRow(u.id, name, token, true)
    && forall v :: v in db.users && v.uname == name ==> v == u
  }

  /** The two queries of BanUser are as good as one: whenever a call has passed them, up to and
      including its ban write, exactly one user row has the supplied name, and it holds the
      supplied token and admin = true. */
  lemma BanIsAuthorised(run: seq<World>, labels: seq<Label>, i: nat, t: nat)
    requires IsRun(run, labels) && i < |run| && t < |run[i].calls|
    requires var c := run[i].calls[t]; c.BanAllowed? || c.BanKnown? || c.BanSelected?
    ensures exists u :: IsOnlyAdminRow(run[i].db, u, run[i].calls[t].name, run[i].calls[t].token)
  {
    ReachableInv(run, labels, i);
    var c, db := run[i].calls[t], run[i].db;
    assert CallOk(c, db, run[i].cache);
    var u :| u in db.users && u.uname == c.name && u.token == c.token && (true ==> u.admin);
    OneUserPerName(db);
    assert IsOnlyAdminRow(db, u, c.name, c.token);
  }

  // ---- The channel cache ----

  /** Every cached id names a channels row with the cached name, and a call that is past its check
      finds its entry in channelMap. */
  lemma CacheIsCoherent(run: seq<World>, labels: seq<Label>, i: nat)
    requires IsRun(run, labels) && i < |run|
    ensures forall id :: id in run[i].cache ==>
      exists r :: r in run[i].db.channels && r.id == id && r.name == run[i].cache[id].name
    ensures forall t :: 0 <= t < |run[i].calls| ==> var c := run[i].calls[t];
      && (c.SendChecked? ==> c.rest != [] && c.rest[0].channelId in run[i].cache)
      && (c.Listening? ==> c.channel in run[i].cache)
  {
    hide Valid, IsRun;
    ReachableInv(run, labels, i);
    forall id | id in run[i].cache
      ensures exists r :: r in run[i].db.channels && r.id == id && r.name == run[i].cache[id].name
    {
      assert ChannelById(run[i].db, id).value in run[i].db.channels;
    }
    forall t | 0 <= t < |run[i].calls|
      ensures var c := run[i].calls[t];
        && (c.SendChecked? ==> c.rest != [] && c.rest[0].channelId in run[i].cache)
        && (c.Listening? ==> c.channel in run[i].cache)
    {
      assert CallOk(run[i].calls[t], run[i].db, run[i].cache);
    }
  }

  /** Entries are never replaced or removed and no log is ever reset, racing misses included. */
  lemma {:induction false} CacheOnlyGrows(run: seq<World>, labels: seq<Label>, i: nat, j: nat)
    requires IsRun(run, labels) && i <= j < |run|
    ensures CacheGrows(run[i].cache, run[j].cache)
  {
    hide Inv, Step, Init;
    if i == j {
    } else {
      CacheOnlyGrows(run, labels, i, j - 1);
      ReachableInv(run, labels, j - 1);
      InvStep(run[j - 1], labels[j - 1].call, labels[j - 1].env, run[j]);
    }
  }

  /** The ban readers touch neither the cache nor the messages. */
  lemma AskLeaves(w: World, ask: R.Ask, e: Env)
    requires OnAsk(w, ask, e).Some?
    ensures var x := OnAsk(w, ask, e).value;
      x.cache == w.cache && x.db.messages == w.db.messages && x.failed == w.failed && x.call.Asking?
  {
    hide BanExpiry, IpExpiry, Varchar;
  }

  /** What one step of a call does to the keys of channelMap. */
  lemma KeysByKind(w: World, c: Call, e: Env)
    requires Run1(w, c, e).Some?
    requires c.SendChecked? ==> c.rest != [] && c.rest[0].channelId in w.cache
    ensures var x := Run1(w, c, e).value;
      x.cache.Keys == w.cache.Keys || (c.CheckFound? && x.cache.Keys == w.cache.Keys + {c.channel})
  {
    if c.Asking? {
      AskLeaves(w, c.ask, e);
    } else if OnCreate(w, c, e).Some? {
      assert OnCreate(w, c, e).value.cache == w.cache;
    } else if OnSend(w, c, e).Some? {
      SendKeys(w, c, e);
    } else if OnBan(w, c, e).Some? {
      assert OnBan(w, c, e).value.cache == w.cache;
    }
  }

  lemma SendKeys(w: World, c: Call, e: Env)
    requires OnSend(w, c, e).Some?
    requires c.SendChecked? ==> c.rest != [] && c.rest[0].channelId in w.cache
    ensures var x := OnSend(w, c, e).value;
      x.cache.Keys == w.cache.Keys || (c.CheckFound? && x.cache.Keys == w.cache.Keys + {c.channel})
  {
  }

  /** Only the emplace of a checked channel adds a key: channelMap[...] never creates one. */
  lemma OnlyEmplaceAddsKeys(run: seq<World>, labels: seq<Label>, i: nat)
    requires IsRun(run, labels) && i < |labels|
    ensures labels[i].call < |run[i].calls|
    ensures run[i + 1].cache.Keys != run[i].cache.Keys ==>
      var c := run[i].calls[labels[i].call];
      c.CheckFound? && run[i + 1].cache.Keys == run[i].cache.Keys + {c.channel}
  {
    hide Valid, CacheOk, Run1, OwnsDistinct;
    ReachableInv(run, labels, i);
    StepOf(run, labels, i);
    var w, t := run[i], labels[i].call;
    assert CallOk(w.calls[t], w.db, w.cache);
    KeysByKind(w, w.calls[t], labels[i].env);
  }

  /** In a reachable cache two channels compare equal, by operator== or by operator<, exactly when
      their ids are equal. */
  lemma NamesIdentifyChannels(run: seq<World>, labels: seq<Label>, i: nat, a: int, b: int)
    requires IsRun(run, labels) && i < |run| && a in run[i].cache && b in run[i].cache
    ensures var m, n := run[i].cache[a].name, run[i].cache[b].name;
      && (m == n <==> a == b)
      && (!SC.NameLess(m, n) && !SC.NameLess(n, m) <==> a == b)
  {
    ReachableInv(run, labels, i);
    var db := run[i].db;
    var r, s := ChannelById(db, a).value, ChannelById(db, b).value;
    ChannelIsUnique(db, r);
    ChannelIsUnique(db, s);
    SC.NameLessTotal(run[i].cache[a].name, run[i].cache[b].name);
  }

  // ---- Memory log against message table ----

  /** The fields of a message that reach the table. */
  datatype Payload =
    Payload(userId: int, channel: int, threadId: int, threadChild: bool, text: string)

  function PayloadOf(m: Message): Payload {
    Payload(m.userId, m.channelId, m.threadId, m.threadChild, m.text)
  }

  function RowPayload(r: MessageRow): Payload {
    Payload(r.userId, r.channel, r.threadId, r.threadChild, r.text)
  }

  function Payloads(log: Log): (r: seq<Payload>)
    ensures |r| == |log| && forall i :: 0 <= i < |r| ==> r[i] == PayloadOf(log[i])
  {
    seq(|log|, i requires 0 <= i < |log| => PayloadOf(log[i]))
  }

  /** The rows for channel c from position base on, in table order. */
  function RowsFor(rows: seq<MessageRow>, base: nat, c: int): seq<Payload> {
    if |rows| <= base then []
    else
      var r := rows[|rows| - 1];
      RowsFor(rows[..|rows| - 1], base, c) + if r.channel == c then [RowPayload(r)] else []
  }

  function FailedFor(msgs: seq<Message>, c: int): seq<Payload> {
    if msgs == [] then []
    else
      var m := msgs[|msgs| - 1];
      FailedFor(msgs[..|msgs| - 1], c) + if m.channelId == c then [PayloadOf(m)] else []
  }

  predicate InFlight(call: Call, c: int) {
    call.SendAppended? && call.rest != [] && call.rest[0].channelId == c
  }

  function FlightOf(call: Call, c: int): multiset<Payload> {
    if InFlight(call, c) then multiset{PayloadOf(call.rest[0])} else multiset{}
  }

  /** The sends for c that have appended and not yet finished their insert. */
  function Flight(calls: seq<Call>, c: int): multiset<Payload> {
    if calls == [] then multiset{}
    else Flight(calls[..|calls| - 1], c) + FlightOf(calls[|calls| - 1], c)
  }

  lemma {:induction false} FlightUpdate(calls: seq<Call>, t: nat, call: Call, c: int)
    requires t < |calls|
    ensures Flight(calls[t := call], c) + FlightOf(calls[t], c) ==
            Flight(calls, c) + FlightOf(call, c)
  {
    hide FlightOf;
    var n := |calls| - 1;
    if t == n {
      assert calls[t := call][..n] == calls[..n];
    } else {
      FlightUpdate(calls[..n], t, call, c);
      var next := calls[t := call];
      assert next[..n] == calls[..n][t := call] && next[n] == calls[n];
      Shift(Flight(next[..n], c), FlightOf(calls[t], c), Flight(calls[..n], c), FlightOf(call, c),
            FlightOf(calls[n], c));
    }
  }

  lemma Shift<T>(a: multiset<T>, b: multiset<T>, c: multiset<T>, d: multiset<T>, x: multiset<T>)
    requires a + b == c + d
    ensures (a + x) + b == (c + x) + d
  {
    assert (a + x) + b == (a + b) + x && (c + x) + d == (c + d) + x;
  }

  /** Memory holds what the table got, what is on its way, and what failed. */
  predicate Conserved(w: World, c: int) {
    multiset(Payloads(LogOf(w.cache, c))) ==
      multiset(RowsFor(w.db.messages, w.base, c)) + Flight(w.calls, c) + multiset(FailedFor(w.failed, c))
  }

  // The three kinds of steps, as far as logs, rows and failures are concerned.

  lemma AppendEffect(w: World, t: nat, e: Env, w': World)
    requires Step(w, t, e) == Some(w') && w.calls[t].SendChecked?
    ensures w.calls[t].rest != []
    ensures w' == w.(cache := AppendTo(w.cache, w.calls[t].rest[0]),
                     calls := w.calls[t := SendAppended(w.calls[t].rest)])
  {
  }

  lemma InsertEffect(w: World, t: nat, e: Env, w': World)
    requires Step(w, t, e) == Some(w') && w.calls[t].SendAppended? && w.calls[t].rest != []
    ensures w'.cache == w.cache && w'.base == w.base
    ensures w'.calls == w.calls[t := w'.calls[t]] && !w'.calls[t].SendAppended?
    ensures
      || (w'.failed == w.failed &&
          exists id, now :: w'.db.messages == w.db.messages + [NewMessageRow(id, w.calls[t].rest[0], now)])
      || (w'.db.messages == w.db.messages && w'.failed == w.failed + [w.calls[t].rest[0]])
  {
    if w'.db.messages != w.db.messages {
      assert w'.db.messages ==
        w.db.messages + [NewMessageRow(w.db.nextMessage, w.calls[t].rest[0], e.now)];
    }
  }

  lemma OtherEffect(w: World, t: nat, e: Env, w': World, c: int)
    requires Step(w, t, e) == Some(w') && !w.calls[t].SendChecked? && !w.calls[t].SendAppended?
    ensures w'.db.messages == w.db.messages && w'.failed == w.failed && w'.base == w.base
    ensures w'.calls == w.calls[t := w'.calls[t]] && !w'.calls[t].SendAppended?
    ensures LogOf(w'.cache, c) == LogOf(w.cache, c)
  {
    CallsByKind(w, w.calls[t], e, c);
  }

  lemma CallsByKind(w: World, call: Call, e: Env, c: int)
    requires Run1(w, call, e).Some? && !call.SendChecked? && !call.SendAppended?
    ensures var x := Run1(w, call, e).value;
      && x.db.messages == w.db.messages && x.failed == w.failed && !x.call.SendAppended?
      && LogOf(x.cache, c) == LogOf(w.cache, c)
  {
    if call.Asking? {
      AskLeaves(w, call.ask, e);
    } else if OnCreate(w, call, e).Some? {
      assert OnCreate(w, call, e).value.cache == w.cache;
    } else if OnSend(w, call, e).Some? {
      assert OnSend(w, call, e).value.db == w.db;
    }
  }

  /** What one step does to the four quantities for channel c. */
  ghost predicate Moves(w: World, w': World, t: nat, c: int, log: seq<Payload>, rows: seq<Payload>,
                        failed: seq<Payload>)
  {
    && t < |w.calls| == |w'.calls| && w'.calls == w.calls[t := w'.calls[t]]
    && Payloads(LogOf(w'.cache, c)) == Payloads(LogOf(w.cache, c)) + log
    && RowsFor(w'.db.messages, w'.base, c) == RowsFor(w.db.messages, w.base, c) + rows
    && FailedFor(w'.failed, c) == FailedFor(w.failed, c) + failed
    && FlightOf(w'.calls[t], c) + multiset(rows) + multiset(failed) ==
         FlightOf(w.calls[t], c) + multiset(log)
  }

  lemma AppendMoves(w: World, t: nat, e: Env, w': World, c: int) returns (log: seq<Payload>)
    requires t < |w.calls| && Step(w, t, e) == Some(w') && w.calls[t].SendChecked?
    ensures Moves(w, w', t, c, log, [], [])
    ensures log == if InFlight(w'.calls[t], c) then [PayloadOf(w'.calls[t].rest[0])] else []
  {
    hide Step;
    AppendEffect(w, t, e, w');
    var m := w.calls[t].rest[0];
    log := if m.channelId == c then [PayloadOf(m)] else [];
    assert Payloads(LogOf(w'.cache, c)) == Payloads(LogOf(w.cache, c)) + log;
  }

  lemma InsertMoves(w: World, t: nat, e: Env, w': World, c: int)
    returns (rows: seq<Payload>, failed: seq<Payload>)
    requires t < |w.calls| && Step(w, t, e) == Some(w')
    requires w.calls[t].SendAppended? && w.calls[t].rest != []
    requires w.base <= |w.db.messages|
    ensures w.base == w'.base <= |w'.db.messages|
    ensures Moves(w, w', t, c, [], rows, failed) && w'.cache == w.cache
    ensures !InFlight(w'.calls[t], c)
    ensures rows + failed == if InFlight(w.calls[t], c) then [PayloadOf(w.calls[t].rest[0])] else []
  {
    hide Step;
    InsertEffect(w, t, e, w');
    var m := w.calls[t].rest[0];
    var own := if m.channelId == c then [PayloadOf(m)] else [];
    if w'.failed == w.failed {
      rows, failed := own, [];
      assert w'.db.messages[..|w.db.messages|] == w.db.messages;
    } else {
      rows, failed := [], own;
      assert w'.failed[..|w.failed|] == w.failed;
    }
  }

  lemma OtherMoves(w: World, t: nat, e: Env, w': World, c: int)
    requires t < |w.calls| && Step(w, t, e) == Some(w') && !w.calls[t].SendChecked? && !w.calls[t].SendAppended?
    ensures w'.base == w.base && w'.db.messages == w.db.messages
    ensures Moves(w, w', t, c, [], [], []) && !InFlight(w'.calls[t], c)
  {
    hide Step, RowsFor, FailedFor, LogOf;
    OtherEffect(w, t, e, w', c);
    assert Payloads(LogOf(w.cache, c)) == Payloads(LogOf(w.cache, c)) + [];
    assert RowsFor(w.db.messages, w.base, c) == RowsFor(w.db.messages, w.base, c) + [];
    assert FailedFor(w.failed, c) == FailedFor(w.failed, c) + [];
  }

  lemma Balance<T(!new)>(log: multiset<T>, l: multiset<T>, rows: multiset<T>, r: multiset<T>,
                   failed: multiset<T>, f: multiset<T>, flight: multiset<T>, flight': multiset<T>,
                   own: multiset<T>, own': multiset<T>)
    requires log == rows + flight + failed
    requires flight' + own == flight + own' && own' + r + f == own + l
    ensures log + l == rows + r + flight' + (failed + f)
  {
    var before, after := log + l, rows + r + flight' + (failed + f);
    forall x ensures before[x] == after[x] {
      assert (flight' + own)[x] == (flight + own')[x];
      assert (own' + r + f)[x] == (own + l)[x];
      assert log[x] == (rows + flight + failed)[x];
    }
    assert before == after;
  }

  lemma MovesConserve(w: World, w': World, t: nat, c: int, log: seq<Payload>, rows: seq<Payload>,
                      failed: seq<Payload>)
    requires Moves(w, w', t, c, log, rows, failed) && Conserved(w, c)
    ensures Conserved(w', c)
  {
    hide RowsFor, FailedFor, LogOf, Payloads, Flight, FlightOf;
    FlightUpdate(w.calls, t, w'.calls[t], c);
    Balance(multiset(Payloads(LogOf(w.cache, c))), multiset(log),
            multiset(RowsFor(w.db.messages, w.base, c)), multiset(rows),
            multiset(FailedFor(w.failed, c)), multiset(failed),
            Flight(w.calls, c), Flight(w'.calls, c),
            FlightOf(w.calls[t], c), FlightOf(w'.calls[t], c));
  }

  lemma PendingInsert(w: World, t: nat)
    requires Inv(w) && t < |w.calls| && w.calls[t].SendAppended?
    ensures w.calls[t].rest != []
  {
    assert CallOk(w.calls[t], w.db, w.cache);
  }

  lemma ConservedStep(w: World, t: nat, e: Env, w': World, c: int)
    requires Inv(w) && t < |w.calls| && Step(w, t, e) == Some(w') && w.base <= |w.db.messages| && Conserved(w, c)
    ensures w'.base == w.base <= |w'.db.messages| && Conserved(w', c)
  {
    hide Inv, Step, Moves, Conserved;
    if w.calls[t].SendChecked? {
      AppendEffect(w, t, e, w');
      var log := AppendMoves(w, t, e, w', c);
      MovesConserve(w, w', t, c, log, [], []);
    } else if w.calls[t].SendAppended? {
      PendingInsert(w, t);
      var rows, failed := InsertMoves(w, t, e, w', c);
      MovesConserve(w, w', t, c, [], rows, failed);
    } else {
      OtherMoves(w, t, e, w', c);
      MovesConserve(w, w', t, c, [], [], []);
    }
  }

  lemma {:induction false} NothingInFlight(calls: seq<Call>, c: int)
    requires forall t :: 0 <= t < |calls| ==> !InFlight(calls[t], c)
    ensures Flight(calls, c) == multiset{}
  {
    if calls == [] {
    } else {
      NothingInFlight(calls[..|calls| - 1], c);
    }
  }

  lemma ConservedInit(w: World, c: int)
    requires Init(w)
    ensures w.base <= |w.db.messages| && Conserved(w, c)
  {
    hide Valid;
    NothingInFlight(w.calls, c);
  }

  /** In every reachable state, for every channel: the in-memory log, as a multiset, is the rows
      this service inserted, plus the sends between append and insert, plus the failed inserts. */
  lemma {:induction false} LogIsConserved(run: seq<World>, labels: seq<Label>, i: nat, c: int)
    requires IsRun(run, labels) && i < |run|
    ensures run[i].base <= |run[i].db.messages| && Conserved(run[i], c)
  {
    hide Inv, Conserved, Step, Init;
    if i == 0 {
      ConservedInit(run[0], c);
    } else {
      ReachableInv(run, labels, i - 1);
      LogIsConserved(run, labels, i - 1, c);
      StepOf(run, labels, i - 1);
      ConservedStep(run[i - 1], labels[i - 1].call, labels[i - 1].env, run[i], c);
    }
  }

  // ---- Order, with one sender at a time ----

  /** a is b with some entries left out. */
  predicate Subsequence<T(==)>(a: seq<T>, b: seq<T>)
    decreases |b|
  {
    a == [] ||
    (b != [] &&
     ((a[|a| - 1] == b[|b| - 1] && Subsequence(a[..|a| - 1], b[..|b| - 1])) ||
      Subsequence(a, b[..|b| - 1])))
  }

  predicate OneSender(calls: seq<Call>, c: int) {
    forall t, u :: 0 <= t < u < |calls| ==> !(InFlight(calls[t], c) && InFlight(calls[u], c))
  }

  /** The rows follow the log, and a send in flight is still the last entry of the log. */
  predicate Follows(rows: seq<Payload>, log: seq<Payload>, calls: seq<Call>, c: int) {
    && Subsequence(rows, log)
    && forall t :: 0 <= t < |calls| && InFlight(calls[t], c) ==>
         && |log| > 0 && Subsequence(rows, log[..|log| - 1])
         && log[|log| - 1] == PayloadOf(calls[t].rest[0])
  }

  predicate Ordered(w: World, c: int) {
    Follows(RowsFor(w.db.messages, w.base, c), Payloads(LogOf(w.cache, c)), w.calls, c)
  }

  lemma AppendFollows(rows: seq<Payload>, log: seq<Payload>, calls: seq<Call>, t: nat, call: Call, c: int)
    requires t < |calls| && Follows(rows, log, calls, c)
    requires InFlight(call, c) && OneSender(calls[t := call], c)
    ensures Follows(rows, log + [PayloadOf(call.rest[0])], calls[t := call], c)
  {
    hide PayloadOf;
    var log', calls' := log + [PayloadOf(call.rest[0])], calls[t := call];
    assert log'[..|log'| - 1] == log;
    assert InFlight(calls'[t], c);
  }

  lemma QuietFollows(rows: seq<Payload>, log: seq<Payload>, calls: seq<Call>, t: nat, call: Call, c: int)
    requires t < |calls| && Follows(rows, log, calls, c) && !InFlight(call, c)
    ensures Follows(rows, log, calls[t := call], c)
  {
    hide Subsequence;
  }

  /** The only send in flight for c finishes: its payload, the last of the log, becomes the next
      row or is left out. */
  lemma FinishFollows(rows: seq<Payload>, log: seq<Payload>, calls: seq<Call>, t: nat, call: Call, c: int)
    requires t < |calls| && Follows(rows, log, calls, c) && OneSender(calls, c)
    requires InFlight(calls[t], c) && !InFlight(call, c)
    ensures Follows(rows, log, calls[t := call], c)
    ensures Follows(rows + [PayloadOf(calls[t].rest[0])], log, calls[t := call], c)
  {
    hide PayloadOf;
    assert |log| > 0 && Subsequence(rows, log[..|log| - 1]);
    var rows' := rows + [PayloadOf(calls[t].rest[0])];
    assert rows'[..|rows'| - 1] == rows;
    assert Subsequence(rows', log);
    var calls' := calls[t := call];
    forall u | 0 <= u < |calls'| ensures !InFlight(calls'[u], c) {
      assert u == t || calls'[u] == calls[u];
    }
  }

  lemma OrderedStep(w: World, t: nat, e: Env, w': World, c: int)
    requires Inv(w) && t < |w.calls| && Step(w, t, e) == Some(w') && w.base <= |w.db.messages|
    requires Ordered(w, c) && OneSender(w.calls, c) && OneSender(w'.calls, c)
    ensures Ordered(w', c)
  {
    hide Inv, Step, Follows, OneSender, RowsFor, LogOf, Payloads, FailedFor, FlightOf;
    var rows, log := RowsFor(w.db.messages, w.base, c), Payloads(LogOf(w.cache, c));
    if w.calls[t].SendChecked? {
      var more := AppendMoves(w, t, e, w', c);
      if InFlight(w'.calls[t], c) {
        AppendFollows(rows, log, w.calls, t, w'.calls[t], c);
      } else {
        QuietFollows(rows, log, w.calls, t, w'.calls[t], c);
      }
      assert log + [] == log && rows + [] == rows;
    } else if w.calls[t].SendAppended? {
      PendingInsert(w, t);
      var more, failed := InsertMoves(w, t, e, w', c);
      if InFlight(w.calls[t], c) {
        FinishFollows(rows, log, w.calls, t, w'.calls[t], c);
        assert |more| + |failed| == 1;
        assert more == [] || more == [PayloadOf(w.calls[t].rest[0])];
      } else {
        QuietFollows(rows, log, w.calls, t, w'.calls[t], c);
        assert more == [];
      }
      assert log + [] == log && rows + [] == rows;
    } else {
      OtherMoves(w, t, e, w', c);
      QuietFollows(rows, log, w.calls, t, w'.calls[t], c);
      assert log + [] == log && rows + [] == rows;
    }
  }

  lemma OrderedInit(w: World, c: int)
    requires Init(w)
    ensures Ordered(w, c)
  {
  }

  /** While channel c never has two sends between append and insert, the rows this service
      inserted for c are an order-preserving subsequence of its in-memory log. */
  lemma {:induction false} RowsFollowLog(run: seq<World>, labels: seq<Label>, i: nat, c: int)
    requires IsRun(run, labels) && i < |run|
    requires forall j :: 0 <= j <= i ==> OneSender(run[j].calls, c)
    ensures Ordered(run[i], c)
    ensures Subsequence(RowsFor(run[i].db.messages, run[i].base, c), Payloads(LogOf(run[i].cache, c)))
  {
    hide Inv, Step, OneSender, Init, Conserved, RowsFor, Payloads, LogOf, Subsequence;
    if i == 0 {
      OrderedInit(run[0], c);
    } else {
      ReachableInv(run, labels, i - 1);
      LogIsConserved(run, labels, i - 1, c);
      RowsFollowLog(run, labels, i - 1, c);
      StepOf(run, labels, i - 1);
      OrderedStep(run[i - 1], labels[i - 1].call, labels[i - 1].env, run[i], c);
    }
  }
}
