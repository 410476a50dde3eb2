/** The step machine of Interleaving and the sequential functions agree: a call that runs alone,
    without losing the connection, ends as its function says. */
module SoloRuns {
  import opened Domain
  import opened Tables
  import opened ServerSpec
  import opened Interleaving
  import B = Bans
  import R = BanReaders

  /** Only call t moves, from path[0] to the end of path. */
  ghost predicate Solo(path: seq<World>, labels: seq<Label>, t: nat) {
    && |path| == |labels| + 1
    && forall i :: 0 <= i < |labels| ==>
         && labels[i].call == t && !labels[i].env.lost
         && Step(path[i], t, labels[i].env) == Some(path[i + 1])
  }

  /** Call t alone takes w to w'. */
  ghost predicate Leads(w: World, t: nat, w': World) {
    exists path, labels :: Solo(path, labels, t) && path[0] == w && path[|labels|] == w'
  }

  lemma NoSteps(w: World, t: nat)
    ensures Leads(w, t, w)
  {
    assert Solo([w], [], t);
  }

  lemma OneMoreStep(w: World, t: nat, w1: World, now: int, w2: World)
    requires Leads(w, t, w1) && Step(w1, t, Env(now, false, 0)) == Some(w2)
    ensures Leads(w, t, w2)
  {
    OneMoreStepIn(w, t, w1, Env(now, false, 0), w2);
  }

  lemma OneMoreStepIn(w: World, t: nat, w1: World, e: Env, w2: World)
    requires Leads(w, t, w1) && Step(w1, t, e) == Some(w2) && !e.lost
    ensures Leads(w, t, w2)
  {
    var path, labels :| Solo(path, labels, t) && path[0] == w && path[|labels|] == w1;
    var path', labels' := path + [w2], labels + [Label(t, e)];
    assert Solo(path', labels', t) && path'[|labels'|] == w2;
  }

  // ---- Sends ----

  function View(w: World): Server {
    Server(w.cache, w.db)
  }

  function Put(w: World, sv: Server, t: nat, c: Call): World
    requires t < |w.calls|
  {
    w.(db := sv.db, cache := sv.cache, calls := w.calls[t := c])
  }

  lemma CheckAlone(w0: World, w: World, t: nat, id: int, next: Next) returns (w': World)
    requires t < |w.calls| && w.calls[t] == CheckStart(id, next) && Leads(w0, t, w)
    ensures var (sv, found) := Check(View(w), id);
      w' == Put(w, sv, t, if found then AfterCheck(id, next) else Ended(INVALID_ARGUMENT))
    ensures Leads(w0, t, w')
  {
    hide Leads, ChannelById;
    w' := Step(w, t, Env(0, false, 0)).value;
    OneMoreStep(w0, t, w, 0, w');
    if w'.calls[t].CheckMissed? {
      var w1 := w';
      w' := Step(w1, t, Env(0, false, 0)).value;
      OneMoreStep(w0, t, w1, 0, w');
      if w'.calls[t].CheckFound? {
        var w2 := w';
        w' := Step(w2, t, Env(0, false, 0)).value;
        OneMoreStep(w0, t, w2, 0, w');
      }
    }
  }

  lemma StoreAlone(w0: World, w: World, t: nat, rest: seq<Message>, now: int) returns (w': World)
    requires t < |w.calls| && w.calls[t] == SendChecked(rest) && rest != [] && Leads(w0, t, w)
    ensures var r := InsertMessage(w.db, rest[0], now);
      w' == Put(w, Server(AppendTo(w.cache, rest[0]), r.db), t,
                if r.ok then SendStart(rest[1..]) else Ended(INTERNAL)).(failed := w'.failed)
    ensures Leads(w0, t, w')
  {
    hide Leads, InsertMessage, AppendTo;
    var w1 := Step(w, t, Env(now, false, 0)).value;
    OneMoreStep(w0, t, w, now, w1);
    w' := Step(w1, t, Env(now, false, 0)).value;
    OneMoreStep(w0, t, w1, now, w');
  }

  /** One message of a stream. */
  lemma RoundAlone(w0: World, w: World, t: nat, rest: seq<Message>, now: int) returns (w': World)
    requires t < |w.calls| && w.calls[t] == SendStart(rest) && rest != [] && Leads(w0, t, w)
    ensures var (sv, st) := Send(View(w), rest[0], now);
      w' == Put(w, sv, t, if st == OK then SendStart(rest[1..]) else Ended(st)).(failed := w'.failed)
    ensures Leads(w0, t, w')
  {
    hide Leads, InsertMessage, AppendTo, Check;
    w' := Step(w, t, Env(now, false, 0)).value;
    OneMoreStep(w0, t, w, now, w');
    w' := CheckAlone(w0, w', t, rest[0].channelId, ThenSend(rest));
    if w'.calls[t].SendChecked? {
      w' := StoreAlone(w0, w', t, rest, now);
    }
  }

  /** A stream of sends, run alone, ends as SendAll: same tables, same cache, same status. */
  lemma {:induction false} StreamAlone(
    w0: World, w: World, t: nat, msgs: seq<Message>, clock: nat -> int, i: nat)
    returns (w': World)
    requires i <= |msgs| && t < |w.calls| && w.calls[t] == SendStart(msgs[i..]) && Leads(w0, t, w)
    ensures var (sv, st) := SendAll(View(w), msgs, clock, i);
      w' == Put(w, sv, t, Ended(st)).(failed := w'.failed)
    ensures Leads(w0, t, w')
    decreases |msgs| - i
  {
    hide Leads, Send;
    if i == |msgs| {
      w' := Step(w, t, Env(0, false, 0)).value;
      OneMoreStep(w0, t, w, 0, w');
    } else {
      assert msgs[i..][0] == msgs[i] && msgs[i..][1..] == msgs[i + 1..];
      w' := RoundAlone(w0, w, t, msgs[i..], clock(i));
      if w'.calls[t].SendStart? {
        w' := StreamAlone(w0, w', t, msgs, clock, i + 1);
      }
    }
  }

  lemma SendsAgree(w: World, t: nat, msgs: seq<Message>, clock: nat -> int) returns (w': World)
    requires t < |w.calls| && w.calls[t] == SendStart(msgs)
    ensures var (sv, st) := SendAll(View(w), msgs, clock, 0);
      Leads(w, t, w') && View(w') == sv && w'.calls == w.calls[t := Ended(st)]
  {
    hide Leads, SendAll;
    NoSteps(w, t);
    assert msgs[0..] == msgs;
    w' := StreamAlone(w, w, t, msgs, clock, 0);
  }

  /** The listener's check, run alone: it ends on the entry of its channel, or refused. */
  lemma ListensAgree(w: World, t: nat, id: int)
    requires t < |w.calls| && w.calls[t] == CheckStart(id, ThenListen)
    ensures var (sv, found) := Check(View(w), id);
      Leads(w, t, Put(w, sv, t, if found then Listening(id) else Ended(INVALID_ARGUMENT)))
  {
    hide Leads, Check;
    NoSteps(w, t);
    var w' := CheckAlone(w, w, t, id, ThenListen);
  }

  // ---- Creation ----

  /** createUser, run alone: the outcome that PostgresStore.DBPostgres.CreateUser promises. */
  lemma CreatesAgree(w: World, t: nat)
    requires t < |w.calls| && w.calls[t].UserStart? && Valid(w.db)
    ensures var c := w.calls[t];
      var first := forall u :: u in w.db.users ==> !u.admin;
      var r := InsertUser(w.db, c.uname, c.token, c.admin || first);
      var id := if |c.uname| <= 50 then w.db.nextUser else 0;
      Leads(w, t, w.(db := r.db, calls := w.calls[t :=
        if r.ok then UserDone(c.uname, w.db.nextUser, id) else Ended(INTERNAL)]))
  {
    hide Leads, Valid;
    var c := w.calls[t];
    var admin := c.admin || !HasAdmin(w.db);
    NoSteps(w, t);
    var w1 := Step(w, t, Env(0, false, 0)).value;
    OneMoreStep(w, t, w, 0, w1);
    var w2 := Step(w1, t, Env(0, false, 0)).value;
    OneMoreStep(w, t, w1, 0, w2);
    if w2.calls[t].UserInserted? {
      var w3 := Step(w2, t, Env(0, false, 0)).value;
      OneMoreStep(w, t, w2, 0, w3);
      InsertUserKeeps(w.db, c.uname, c.token, admin);
      NewUserIsFound(w.db, w2.db, c.uname);
      assert w3.calls == w.calls[t := w3.calls[t]];
    } else {
      assert w2.calls == w.calls[t := w2.calls[t]];
    }
  }

  lemma NewUserIsFound(db: Database, db': Database, uname: string)
    requires Valid(db') && |db'.users| == |db.users| + 1 && db'.users[|db.users|].id == db.nextUser
    requires Varchar(50, uname) == Some(db'.users[|db.users|].uname)
    ensures var found := FindUser(db', uname);
      (if found == None then 0 else found.value.id) == if |uname| <= 50 then db.nextUser else 0
  {
    hide CommunitiesOk, ChannelsOk, MessagesOk, UserBansOk, IpBansOk;
    UserIsUnique(db', db'.users[|db.users|]);
    if |uname| > 50 {
      LongNamesAreNotStored(db', uname);
    }
  }

  /** createCommunity, run alone; junk is what the variable for the id holds when the select by a
      trimmed name's full text leaves it unset. */
  lemma CommunitiesAgree(w: World, t: nat, junk: int)
    requires t < |w.calls| && w.calls[t].CommunityStart? && Valid(w.db)
    ensures var c := w.calls[t];
      var r := InsertCommunity(w.db, c.name, c.adminId, c.pub);
      var id := if |c.name| <= 100 then w.db.nextCommunity else junk;
      Leads(w, t, w.(db := r.db, calls := w.calls[t :=
        if r.ok then CommunityDone(c.name, w.db.nextCommunity, id) else Ended(INTERNAL)]))
  {
    hide Leads, Valid, UserById;
    var c, e := w.calls[t], Env(0, false, junk);
    NoSteps(w, t);
    var w1 := Step(w, t, e).value;
    OneMoreStepIn(w, t, w, e, w1);
    if w1.calls[t].CommunityInserted? {
      var w2 := Step(w1, t, e).value;
      OneMoreStepIn(w, t, w1, e, w2);
      InsertCommunityKeeps(w.db, c.name, c.adminId, c.pub);
      NewCommunityIsFound(w.db, w1.db, c.name);
      assert w2.calls == w.calls[t := w2.calls[t]];
    }
  }

  lemma NewCommunityIsFound(db: Database, db': Database, name: string)
    requires Valid(db') && |db'.communities| == |db.communities| + 1
    requires db'.communities[|db.communities|].id == db.nextCommunity
    requires Varchar(100, name) == Some(db'.communities[|db.communities|].name)
    ensures if |name| <= 100 then FindCommunity(db', name) == Some(db'.communities[|db.communities|])
            else FindCommunity(db', name) == None
  {
    hide UsersOk, ChannelsOk, MessagesOk, UserBansOk, IpBansOk, UserById;
    CommunityIsUnique(db', db'.communities[|db.communities|]);
    if |name| > 100 {
      LongCommunityNamesAreNotStored(db', name);
    }
  }

  /** createChannel, run alone. */
  lemma ChannelsAgree(w: World, t: nat)
    requires t < |w.calls| && w.calls[t].ChannelStart? && Valid(w.db)
    ensures var c := w.calls[t];
      var r := InsertChannel(w.db, c.name, c.community, c.adminId, c.anon);
      var id := if |c.name| <= 100 then w.db.nextChannel else 0;
      Leads(w, t, w.(db := r.db, calls := w.calls[t :=
        if r.ok then ChannelDone(c.name, w.db.nextChannel, id) else Ended(INTERNAL)]))
  {
    hide Leads, Valid, UserById, CommunityById;
    var c, e := w.calls[t], Env(0, false, 0);
    NoSteps(w, t);
    var w1 := Step(w, t, e).value;
    OneMoreStepIn(w, t, w, e, w1);
    if w1.calls[t].ChannelInserted? {
      var w2 := Step(w1, t, e).value;
      OneMoreStepIn(w, t, w1, e, w2);
      InsertChannelKeeps(w.db, c.name, c.community, c.adminId, c.anon);
      NewChannelIsFound(w.db, w1.db, c.name);
      assert w2.calls == w.calls[t := w2.calls[t]];
    }
  }

  lemma NewChannelIsFound(db: Database, db': Database, name: string)
    requires Valid(db') && |db'.channels| == |db.channels| + 1
    requires db'.channels[|db.channels|].id == db.nextChannel
    requires Varchar(100, name) == Some(db'.channels[|db.channels|].name)
    ensures if |name| <= 100 then FindChannel(db', name) == Some(db'.channels[|db.channels|])
            else FindChannel(db', name) == None
  {
    hide UsersOk, CommunitiesOk, MessagesOk, UserBansOk, IpBansOk, UserById, CommunityById;
    ChannelIsUnique(db', db'.channels[|db.channels|]);
    if |name| > 100 {
      LongChannelNamesAreNotStored(db', name);
    }
  }

  // ---- Bans ----

  lemma BanWriteAlone(w0: World, w: World, t: nat, target: string, now: int) returns (w': World)
    requires t < |w.calls| && w.calls[t].BanAllowed? && w.calls[t].target == target
    requires Leads(w0, t, w)
    ensures var r := B.BanUser(w.db, target, w.calls[t].days, now);
      w' == w.(db := r.db, calls := w.calls[t := Ended(if r.ok then OK else INTERNAL)])
    ensures Leads(w0, t, w')
  {
    hide Leads, FindUser, BanOf, B.BanSpan, UpdateUserBan, InsertUserBan;
    w' := Step(w, t, Env(now, false, 0)).value;
    OneMoreStep(w0, t, w, now, w');
    if w'.calls[t].BanKnown? {
      var w1 := w';
      w' := Step(w1, t, Env(now, false, 0)).value;
      OneMoreStep(w0, t, w1, now, w');
      var w2 := w';
      w' := Step(w2, t, Env(now, false, 0)).value;
      OneMoreStep(w0, t, w2, now, w');
    }
  }

  /** BanUser, run alone. */
  lemma BansAgree(w: World, t: nat, now: int)
    requires t < |w.calls| && w.calls[t].BanStart?
    ensures var c := w.calls[t];
      var (db, st) := B.BanRpc(w.db, c.name, c.token, c.target, c.days, now);
      Leads(w, t, w.(db := db, calls := w.calls[t := Ended(st)]))
  {
    hide Leads, B.BanUser;
    var c := w.calls[t];
    NoSteps(w, t);
    var w1 := Step(w, t, Env(now, false, 0)).value;
    OneMoreStep(w, t, w, now, w1);
    if w1.calls[t].BanValid? {
      var w2 := Step(w1, t, Env(now, false, 0)).value;
      OneMoreStep(w, t, w1, now, w2);
      if w2.calls[t].BanAllowed? {
        var w3 := BanWriteAlone(w, w2, t, c.target, now);
        assert w3.calls == w.calls[t := w3.calls[t]];
      } else {
        assert w2.calls == w.calls[t := w2.calls[t]];
      }
    }
  }

  lemma {:induction false} AskAlone(w0: World, w: World, t: nat, now: int, later: int)
    returns (w': World)
    requires t < |w.calls| && w.calls[t].Asking? && Leads(w0, t, w)
    ensures var (db, a) := R.Alone(w.db, w.calls[t].ask, now, later);
      w' == w.(db := db, calls := w.calls[t := Asking(a)])
    ensures Leads(w0, t, w')
    decreases R.Rank(w.calls[t].ask)
  {
    hide Leads;
    var a := w.calls[t].ask;
    var clock := if a.UserRead? then now else later;
    if R.Next(w.db, a, clock) == None {
      w' := w;
      assert w.calls[t := Asking(a)] == w.calls;
    } else {
      w' := Step(w, t, Env(clock, false, 0)).value;
      OneMoreStep(w0, t, w, clock, w');
      NextRanksLower(w.db, a, clock);
      w' := AskAlone(w0, w', t, now, later);
    }
  }

  lemma NextRanksLower(db: Database, a: R.Ask, now: int)
    requires R.Next(db, a, now).Some?
    ensures R.Rank(R.Next(db, a, now).value.1) < R.Rank(a)
  {
  }

  /** isUserBanned, run alone. */
  lemma ReadersAgree(w: World, t: nat, uname: string, ip: string, now: int, later: int)
    requires t < |w.calls| && w.calls[t] == Asking(R.UserAsked(uname, ip))
    ensures var (db, r) := B.IsUserBanned(w.db, uname, ip, now, later);
      Leads(w, t, w.(db := db, calls := w.calls[t :=
        Asking(match r case Ok(banned) => R.Answered(banned) case Thrown => R.Threw)]))
  {
    hide Leads, R.Alone, B.IsUserBanned;
    NoSteps(w, t);
    var w' := AskAlone(w, w, t, now, later);
    R.UserAlone(w.db, uname, ip, now, later);
  }

  /** isIPBanned, run alone. */
  lemma AddressesAgree(w: World, t: nat, ip: string, now: int)
    requires t < |w.calls| && w.calls[t] == Asking(R.IpAsked(ip, R.Answer))
    ensures var (db, banned) := B.IsIpBanned(w.db, ip, now);
      Leads(w, t, w.(db := db, calls := w.calls[t := Asking(R.Answered(banned))]))
  {
    hide Leads, B.IsIpBanned;
    NoSteps(w, t);
    var w' := AskAlone(w, w, t, now, now);
    R.IpAlone(w.db, ip, R.Answer, now, now);
  }
}
