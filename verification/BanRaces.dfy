/** Bans under interleaving: exactly when a user can end with two ban rows, and exactly when a ban
    that was written stays in force. */
module BanRaces {
  import opened Domain
  import opened Tables
  import opened Interleaving
  import B = Bans
  import R = BanReaders

  function Last(run: seq<World>): World
    requires |run| > 0
  {
    run[|run| - 1]
  }

  lemma Extend(run: seq<World>, labels: seq<Label>, t: nat, e: Env)
    returns (run': seq<World>, labels': seq<Label>)
    requires IsRun(run, labels) && Step(Last(run), t, e).Some?
    ensures IsRun(run', labels') && run <= run' && |run'| == |run| + 1
    ensures labels' == labels + [Label(t, e)]
    ensures Some(Last(run')) == Step(Last(run), t, e)
  {
    run', labels' := run + [Step(Last(run), t, e).value], labels + [Label(t, e)];
  }

  /** The steps that labels' adds all read the clock as now. */
  predicate AllRead(labels: seq<Label>, labels': seq<Label>, now: int) {
    && labels <= labels'
    && forall n :: |labels| <= n < |labels'| ==> labels'[n].env.now == now
  }

  // ---- One row for a user ----

  predicate OneRowFor(rows: seq<UserBan>, uid: int) {
    forall i, j :: 0 <= i < j < |rows| && rows[i].userId == uid ==> rows[j].userId != uid
  }

  /** A banUser that selected no ban of uid and has not yet inserted one. */
  predicate FoundNone(c: Call, uid: int) {
    c.BanSelected? && c.uid == uid && !c.exists_
  }

  predicate NoTwoFound(calls: seq<Call>, uid: int) {
    forall t, u :: 0 <= t < u < |calls| ==> !(FoundNone(calls[t], uid) && FoundNone(calls[u], uid))
  }

  /** What one step can do to the rows of banned_users. */
  lemma RowsByKind(w: World, c: Call, e: Env)
    requires Run1(w, c, e).Some?
    ensures var rows := Run1(w, c, e).value.db.userBans;
      || rows == w.db.userBans
      || (c.BanSelected? && c.exists_ &&
          rows == SetExpiry(w.db.userBans, c.uid, e.now + B.BanSpan(c.days)))
      || (c.BanSelected? && !c.exists_ &&
          rows == w.db.userBans + [UserBan(w.db.nextUserBan, c.uid, e.now + B.BanSpan(c.days))])
      || (c.Asking? && c.ask.UserExpired? && FindUser(w.db, c.ask.uname).Some? &&
          rows == DropUserBans(w.db.userBans, FindUser(w.db, c.ask.uname).value.id))
  {
    hide BanExpiry, IpExpiry, Varchar, B.BanSpan, FindUser, BanOf, UserById;
    if e.lost && Queries(c) {
    } else if c.Asking? {
    } else if OnCreate(w, c, e).Some? {
      CreateLeavesBans(w, c, e);
    } else if OnSend(w, c, e).Some? {
      SendLeavesBans(w, c, e);
    } else {
      BanRowsByKind(w, c, e);
    }
  }

  /** No other kind of call turns into a ban reader. */
  lemma OnlyReadersAsk(w: World, c: Call, e: Env)
    requires Run1(w, c, e).Some? && !c.Asking?
    ensures !Run1(w, c, e).value.call.Asking?
  {
    hide Varchar, B.BanSpan;
  }

  lemma CreateLeavesBans(w: World, c: Call, e: Env)
    requires OnCreate(w, c, e).Some?
    ensures OnCreate(w, c, e).value.db.userBans == w.db.userBans
  {
  }

  lemma SendLeavesBans(w: World, c: Call, e: Env)
    requires OnSend(w, c, e).Some?
    ensures OnSend(w, c, e).value.db.userBans == w.db.userBans
  {
  }

  lemma BanRowsByKind(w: World, c: Call, e: Env)
    requires OnBan(w, c, e).Some?
    ensures var rows := OnBan(w, c, e).value.db.userBans;
      || rows == w.db.userBans
      || (c.BanSelected? && c.exists_ &&
          rows == SetExpiry(w.db.userBans, c.uid, e.now + B.BanSpan(c.days)))
      || (c.BanSelected? && !c.exists_ &&
          rows == w.db.userBans + [UserBan(w.db.nextUserBan, c.uid, e.now + B.BanSpan(c.days))])
  {
    hide B.BanSpan;
  }

  /** A call comes to have found nothing only by selecting nothing. */
  lemma FoundByKind(w: World, c: Call, e: Env, uid: int)
    requires Run1(w, c, e).Some? && FoundNone(Run1(w, c, e).value.call, uid)
    ensures c.BanKnown? && BanOf(w.db, uid).None?
    ensures Run1(w, c, e).value.db == w.db
  {
    hide BanExpiry, IpExpiry, Varchar, B.BanSpan, FindUser, BanOf, UserById, Emplace;
  }

  lemma {:induction false} DropKeepsOneRow(rows: seq<UserBan>, id: int, uid: int)
    requires OneRowFor(rows, uid)
    ensures OneRowFor(DropUserBans(rows, id), uid)
  {
    if rows == [] {
    } else {
      var init, r := rows[..|rows| - 1], DropUserBans(rows, id);
      DropKeepsOneRow(init, id, uid);
      forall i, j | 0 <= i < j < |r| && r[i].userId == uid ensures r[j].userId != uid {
        assert r[i] in DropUserBans(init, id) && r[i] in init;
      }
    }
  }

  /** One row at most, and none while a call is about to insert one. */
  predicate Single(w: World, uid: int) {
    && OneRowFor(w.db.userBans, uid)
    && forall t :: 0 <= t < |w.calls| && FoundNone(w.calls[t], uid) ==> BanOf(w.db, uid).None?
  }

  lemma RowsStaySingle(w: World, c: Call, e: Env, uid: int)
    requires Run1(w, c, e).Some? && OneRowFor(w.db.userBans, uid)
    requires FoundNone(c, uid) ==> BanOf(w.db, uid).None?
    ensures OneRowFor(Run1(w, c, e).value.db.userBans, uid)
    ensures BanOf(w.db, uid).None? && !FoundNone(c, uid) ==>
      BanOf(Run1(w, c, e).value.db, uid).None?
  {
    hide Run1, B.BanSpan;
    RowsByKind(w, c, e);
    var rows, rows' := w.db.userBans, Run1(w, c, e).value.db.userBans;
    if c.Asking? && c.ask.UserExpired? && FindUser(w.db, c.ask.uname).Some? {
      DropKeepsOneRow(rows, FindUser(w.db, c.ask.uname).value.id, uid);
    }
    if BanOf(w.db, uid).None? {
      forall i | 0 <= i < |rows| ensures rows[i].userId != uid {
        assert rows[i] in rows;
      }
    }
  }

  lemma SingleStep(w: World, t: nat, e: Env, w': World, uid: int)
    requires Step(w, t, e) == Some(w') && Single(w, uid) && NoTwoFound(w.calls, uid)
    ensures Single(w', uid)
  {
    hide Run1, BanOf;
    var c, x := w.calls[t], Run1(w, w.calls[t], e).value;
    RowsStaySingle(w, c, e, uid);
    forall u | 0 <= u < |w'.calls| && FoundNone(w'.calls[u], uid) ensures BanOf(w'.db, uid).None? {
      if u == t {
        FoundByKind(w, c, e, uid);
      } else {
        assert w'.calls[u] == w.calls[u];
      }
    }
  }

  /** In every run: as long as no two banUser calls for a user are both between a select that found
      nothing and their insert, the user has at most one ban row. */
  lemma {:induction false} OneRowUnlessTwoFound(run: seq<World>, labels: seq<Label>, i: nat, uid: int)
    requires IsRun(run, labels) && i < |run| && OneRowFor(run[0].db.userBans, uid)
    requires forall j :: 0 <= j < i ==> NoTwoFound(run[j].calls, uid)
    ensures Single(run[i], uid)
  {
    hide Step, Single, NoTwoFound, OneRowFor;
    if i == 0 {
      SingleAtStart(run[0], uid);
    } else {
      OneRowUnlessTwoFound(run, labels, i - 1, uid);
      StepOf(run, labels, i - 1);
      SingleStep(run[i - 1], labels[i - 1].call, labels[i - 1].env, run[i], uid);
    }
  }

  lemma OnePerUserMeans(rows: seq<UserBan>)
    ensures B.OnePerUser(rows) <==> forall uid :: OneRowFor(rows, uid)
  {
    if !B.OnePerUser(rows) {
      var i, j :| 0 <= i < j < |rows| && rows[i].userId == rows[j].userId;
      assert !OneRowFor(rows, rows[i].userId);
    }
  }

  /** In every interleaved run: one ban row per user, as long as no two banUser calls for the same
      user have both found none. */
  lemma OnePerUserUnlessTwoFound(run: seq<World>, labels: seq<Label>, i: nat)
    requires IsRun(run, labels) && i < |run| && B.OnePerUser(run[0].db.userBans)
    requires forall j, uid :: 0 <= j < i ==> NoTwoFound(run[j].calls, uid)
    ensures B.OnePerUser(run[i].db.userBans)
  {
    hide Step, Init, NoTwoFound, OneRowFor;
    OnePerUserMeans(run[0].db.userBans);
    OnePerUserMeans(run[i].db.userBans);
    forall uid: int ensures OneRowFor(run[i].db.userBans, uid) {
      OneRowUnlessTwoFound(run, labels, i, uid);
    }
  }

  lemma SingleAtStart(w: World, uid: int)
    requires Init(w) && OneRowFor(w.db.userBans, uid)
    ensures Single(w, uid)
  {
  }

  /** The environment lets a ban of so many days be written. */
  predicate Writes(e: Env, days: int) {
    !e.lost && IsInt4(e.now) && IsInt4(e.now + B.BanSpan(days))
  }

  lemma InsertRow(w: World, t: nat, e: Env, uid: int) returns (w': World)
    requires t < |w.calls| && FoundNone(w.calls[t], uid) && Writes(e, w.calls[t].days)
    requires UserById(w.db, uid).Some?
    ensures Step(w, t, e) == Some(w')
    ensures w'.calls == w.calls[t := Ended(OK)]
    ensures w'.db.userBans ==
      w.db.userBans + [UserBan(w.db.nextUserBan, uid, e.now + B.BanSpan(w.calls[t].days))]
    ensures UserById(w'.db, uid) == UserById(w.db, uid)
  {
    hide B.BanSpan;
    w' := Step(w, t, e).value;
    assert w'.db == InsertUserBan(w.db, uid, e.now, B.BanSpan(w.calls[t].days)).db;
  }

  lemma FoundUserExists(run: seq<World>, labels: seq<Label>, t: nat, uid: int)
    requires IsRun(run, labels) && t < |Last(run).calls| && FoundNone(Last(run).calls[t], uid)
    ensures UserById(Last(run).db, uid).Some?
  {
    hide Valid, CacheOk, OwnsDistinct, Init;
    ReachableInv(run, labels, |run| - 1);
    assert CallOk(Last(run).calls[t], Last(run).db, Last(run).cache);
  }

  /** Conversely, from any reachable state with two such calls, both can still succeed, and the
      user then has two rows. */
  lemma TwoFoundLeaveTwoRows(run: seq<World>, labels: seq<Label>, t: nat, u: nat, uid: int,
                             e: Env, e': Env)
    returns (run': seq<World>, labels': seq<Label>)
    requires IsRun(run, labels) && t < |Last(run).calls| && u < |Last(run).calls| && t != u
    requires FoundNone(Last(run).calls[t], uid) && FoundNone(Last(run).calls[u], uid)
    requires Writes(e, Last(run).calls[t].days) && Writes(e', Last(run).calls[u].days)
    ensures IsRun(run', labels') && run <= run' && |run'| == |run| + 2
    ensures Last(run').calls == Last(run).calls[t := Ended(OK)][u := Ended(OK)]
    ensures !OneRowFor(Last(run').db.userBans, uid)
  {
    FoundUserExists(run, labels, t, uid);
    hide IsRun, Step, Writes, B.BanSpan;
    var w := Last(run);
    var w1 := InsertRow(w, t, e, uid);
    var w2 := InsertRow(w1, u, e', uid);
    run', labels' := Extend(run, labels, t, e);
    run', labels' := Extend(run', labels', u, e');
    var n := |w.db.userBans|;
    assert w2.db.userBans[n].userId == uid && w2.db.userBans[n + 1].userId == uid;
  }

  /** The first two reads of BanUser by a caller who is an admin. */
  lemma CallerPasses(run: seq<World>, labels: seq<Label>, t: nat, e: Env)
    returns (run': seq<World>, labels': seq<Label>)
    requires IsRun(run, labels) && !e.lost && t < |Last(run).calls|
    requires var w, c := Last(run), Last(run).calls[t];
      c.BanStart? && Holds(w.db, c.name, c.token, true)
    ensures IsRun(run', labels') && run <= run' && AllRead(labels, labels', e.now)
    ensures var w, c := Last(run), Last(run).calls[t];
      Last(run') == w.(calls := w.calls[t := BanAllowed(c.name, c.token, c.target, c.days)])
  {
    hide IsRun;
    run', labels' := Extend(run, labels, t, e);
    run', labels' := Extend(run', labels', t, e);
  }

  /** The three reads by an admin, for a target that exists. */
  lemma ChecksPass(run: seq<World>, labels: seq<Label>, t: nat, e: Env)
    returns (run': seq<World>, labels': seq<Label>)
    requires IsRun(run, labels) && !e.lost && t < |Last(run).calls|
    requires var w, c := Last(run), Last(run).calls[t];
      c.BanStart? && Holds(w.db, c.name, c.token, true) && FindUser(w.db, c.target).Some?
    ensures IsRun(run', labels') && run <= run' && AllRead(labels, labels', e.now)
    ensures var w, c := Last(run), Last(run).calls[t];
      Last(run') == w.(calls := w.calls[t :=
        BanKnown(c.name, c.token, FindUser(w.db, c.target).value.id, c.days)])
  {
    hide IsRun, Holds;
    run', labels' := CallerPasses(run, labels, t, e);
    run', labels' := Extend(run', labels', t, e);
  }

  lemma SelectsNothing(run: seq<World>, labels: seq<Label>, t: nat, e: Env)
    returns (run': seq<World>, labels': seq<Label>)
    requires IsRun(run, labels) && !e.lost && t < |Last(run).calls|
    requires Last(run).calls[t].BanKnown? && BanOf(Last(run).db, Last(run).calls[t].uid).None?
    ensures IsRun(run', labels') && run <= run' && AllRead(labels, labels', e.now)
    ensures var w, c := Last(run), Last(run).calls[t];
      Last(run') == w.(calls := w.calls[t := BanSelected(c.name, c.token, c.uid, false, c.days)])
  {
    hide IsRun, BanOf;
    run', labels' := Extend(run, labels, t, e);
  }

  /** Such a state is reached: two BanUser calls of an admin for the same unbanned user, started
      together, can both select nothing, both insert, and leave two rows. */
  lemma RacingBansLeaveTwoRows(w: World, c: Call, e: Env)
    returns (run: seq<World>, labels: seq<Label>)
    requires Init(w) && c.BanStart? && w.calls == [c, c] && Writes(e, c.days)
    requires Holds(w.db, c.name, c.token, true) && FindUser(w.db, c.target).Some?
    requires BanOf(w.db, FindUser(w.db, c.target).value.id).None?
    ensures IsRun(run, labels) && run[0] == w && Last(run).calls == [Ended(OK), Ended(OK)]
    ensures !OneRowFor(Last(run).db.userBans, FindUser(w.db, c.target).value.id)
  {
    hide Step, OneRowFor, BanOf, Holds, B.BanSpan, IsInt4;
    run, labels := [w], [];
    assert IsRun(run, labels);
    hide IsRun, Init;
    run, labels := ChecksPass(run, labels, 0, e);
    run, labels := ChecksPass(run, labels, 1, e);
    run, labels := SelectsNothing(run, labels, 0, e);
    run, labels := SelectsNothing(run, labels, 1, e);
    var uid := FindUser(w.db, c.target).value.id;
    run, labels := TwoFoundLeaveTwoRows(run, labels, 0, 1, uid, e, e);
  }
}
