/** Exactly when a written ban stays in force.  isUserBanned selects an expiry, compares it with the
    clock and deletes the user's rows in separate statements, so a ban written in between can be
    deleted by a reader that never saw it. */
module BanSafety {
  import opened Domain
  import opened Tables
  import opened Interleaving
  import opened BanRaces
  import B = Bans
  import R = BanReaders

  predicate RowsStand(rows: seq<UserBan>, uid: int, until: int) {
    && (exists b :: b in rows && b.userId == uid)
    && (forall b :: b in rows && b.userId == uid ==> b.expire == until)
  }

  /** The user has a ban, and whatever row a query returns for it, it runs until this instant. */
  predicate Stands(db: Database, uname: string, until: int) {
    FindUser(db, uname).Some? && RowsStand(db.userBans, FindUser(db, uname).value.id, until)
  }

  /** A reader about to delete the user's rows, or about to compare an expiry that is past when the
      clock reads d. */
  predicate Threatens(c: Call, uname: string, d: int) {
    c.Asking? &&
    ((c.ask.UserExpired? && c.ask.uname == uname) ||
     (c.ask.UserRead? && c.ask.uname == uname && c.ask.expire < d))
  }

  predicate NoThreat(calls: seq<Call>, uname: string, d: int) {
    forall t :: 0 <= t < |calls| ==> !Threatens(calls[t], uname, d)
  }

  /** The step is not another ban write for the user, and reads no clock past d. */
  predicate Undisturbed(w: World, l: Label, uname: string, d: int) {
    && l.env.now <= d
    && (l.call < |w.calls| && w.calls[l.call].BanSelected? && FindUser(w.db, uname).Some? ==>
          w.calls[l.call].uid != FindUser(w.db, uname).value.id)
  }

  // ---- The write ----

  /** A ban write that reports success takes effect exactly when the row its select saw is still
      there, or, having seen none, it meets no row with another expiry: an update of a row that a
      reader has deleted meanwhile changes nothing and still succeeds. */
  lemma WriteTakesEffect(w: World, t: nat, e: Env, w': World, uname: string)
    requires Step(w, t, e) == Some(w') && w.calls[t].BanSelected? && w'.calls[t] == Ended(OK)
    requires FindUser(w.db, uname).Some? && FindUser(w.db, uname).value.id == w.calls[t].uid
    ensures var c, until := w.calls[t], e.now + B.BanSpan(w.calls[t].days);
      Stands(w'.db, uname, until) <==>
        if c.exists_ then BanOf(w.db, c.uid).Some?
        else forall b :: b in w.db.userBans && b.userId == c.uid ==> b.expire == until
  {
    hide B.BanSpan, RowsStand;
    var c, until, rows := w.calls[t], e.now + B.BanSpan(w.calls[t].days), w.db.userBans;
    if c.exists_ {
      assert w'.db.userBans == SetExpiry(rows, c.uid, until);
      UpdateStands(rows, c.uid, until);
      assert BanOf(w.db, c.uid).Some? <==> exists b :: b in rows && b.userId == c.uid;
    } else {
      assert w'.db.userBans == rows + [UserBan(w.db.nextUserBan, c.uid, until)];
      InsertStands(rows, UserBan(w.db.nextUserBan, c.uid, until));
    }
  }

  lemma UpdateStands(rows: seq<UserBan>, uid: int, until: int)
    ensures RowsStand(SetExpiry(rows, uid, until), uid, until) <==>
      exists b :: b in rows && b.userId == uid
  {
    var r := SetExpiry(rows, uid, until);
    if b :| b in rows && b.userId == uid {
      var i :| 0 <= i < |rows| && rows[i] == b;
      assert r[i] in r && r[i].userId == uid;
    }
    if b :| b in r && b.userId == uid {
      var i :| 0 <= i < |r| && r[i] == b;
      assert rows[i] in rows && rows[i].userId == uid;
    }
  }

  lemma InsertStands(rows: seq<UserBan>, b: UserBan)
    ensures RowsStand(rows + [b], b.userId, b.expire) <==>
      forall x :: x in rows && x.userId == b.userId ==> x.expire == b.expire
  {
    assert b in rows + [b];
    forall x | x in rows ensures x in rows + [b] {
    }
  }

  // ---- One step ----

  /** Neither a write for another user nor a delete for another user touches the ban. */
  lemma RowsKeepStanding(rows: seq<UserBan>, rows': seq<UserBan>, uid: int, until: int, other: int)
    requires RowsStand(rows, uid, until) && other != uid
    requires rows' == rows || rows' == DropUserBans(rows, other)
      || (exists e :: rows' == SetExpiry(rows, other, e))
      || (exists b: UserBan :: b.userId == other && rows' == rows + [b])
    ensures RowsStand(rows', uid, until)
  {
    var b :| b in rows && b.userId == uid;
    var i :| 0 <= i < |rows| && rows[i] == b;
    if rows' == DropUserBans(rows, other) {
      assert b in rows';
    } else {
      assert rows'[i] == b && rows'[i] in rows';
    }
  }

  /** What the select of isUserBanned returns for the user. */
  lemma ReadsStanding(db: Database, uname: string, until: int)
    requires Stands(db, uname, until)
    ensures BanExpiry(db, uname) == Some(until)
  {
  }

  /** No reader comes to threaten a standing ban. */
  lemma NoNewThreat(w: World, c: Call, e: Env, uname: string, until: int, d: int)
    requires Run1(w, c, e).Some? && Stands(w.db, uname, until) && d <= until
    requires !Threatens(c, uname, d) && e.now <= d
    ensures !Threatens(Run1(w, c, e).value.call, uname, d)
  {
    hide BanExpiry, IpExpiry, Varchar, B.BanSpan, Stands, OnCreate, OnSend, OnBan;
    ReadsStanding(w.db, uname, until);
    if c.Asking? {
    } else {
      OnlyReadersAsk(w, c, e);
    }
  }

  /** Two names have two ids. */
  lemma OtherUser(db: Database, uname: string, other: string)
    requires UsersOk(db) && FindUser(db, uname).Some? && FindUser(db, other).Some? && uname != other
    ensures FindUser(db, uname).value.id != FindUser(db, other).value.id
  {
    UserIsUnique(db, FindUser(db, uname).value);
    UserIsUnique(db, FindUser(db, other).value);
  }

  lemma StandsStep(w: World, l: Label, w': World, uname: string, until: int, d: int)
    requires Inv(w) && Step(w, l.call, l.env) == Some(w')
    requires Stands(w.db, uname, until) && NoThreat(w.calls, uname, d)
    requires Undisturbed(w, l, uname, d)
    ensures Stands(w'.db, uname, until) && FindUser(w'.db, uname) == FindUser(w.db, uname)
  {
    hide Run1, Inv, RowsStand, B.BanSpan, FindUser, Valid;
    var c, uid := w.calls[l.call], FindUser(w.db, uname).value.id;
    InvStep(w, l.call, l.env, w');
    NamesSurvive(w.db, w'.db, uname);
    RowsByKind(w, c, l.env);
    assert !Threatens(c, uname, d);
    var rows, rows' := w.db.userBans, w'.db.userBans;
    if c.Asking? && c.ask.UserExpired? && FindUser(w.db, c.ask.uname).Some? {
      UsersAreOk(w);
      OtherUser(w.db, uname, c.ask.uname);
      RowsKeepStanding(rows, rows', uid, until, FindUser(w.db, c.ask.uname).value.id);
    } else if c.BanSelected? {
      RowsKeepStanding(rows, rows', uid, until, c.uid);
    }
  }

  lemma UsersAreOk(w: World)
    requires Inv(w)
    ensures UsersOk(w.db)
  {
  }

  lemma NoThreatStep(w: World, l: Label, w': World, uname: string, until: int, d: int)
    requires Step(w, l.call, l.env) == Some(w') && Stands(w.db, uname, until) && d <= until
    requires NoThreat(w.calls, uname, d) && l.env.now <= d
    ensures NoThreat(w'.calls, uname, d)
  {
    hide Run1, Stands, Threatens;
    NoNewThreat(w, w.calls[l.call], l.env, uname, until, d);
    forall u | 0 <= u < |w'.calls| ensures !Threatens(w'.calls[u], uname, d) {
      assert u == l.call || w'.calls[u] == w.calls[u];
    }
  }

  // ---- Whole runs ----

  /** A ban that no reader threatens stays in force: whatever the calls do, short of another ban
      write for the user, up to any deadline d that is not past its end. */
  lemma {:induction false} BanStaysInForce(
    run: seq<World>, labels: seq<Label>, i: nat, j: nat, uname: string, until: int, d: int)
    requires IsRun(run, labels) && i <= j < |run| && d <= until
    requires Stands(run[i].db, uname, until) && NoThreat(run[i].calls, uname, d)
    requires forall n :: i <= n < j ==> Undisturbed(run[n], labels[n], uname, d)
    ensures Stands(run[j].db, uname, until) && NoThreat(run[j].calls, uname, d)
  {
    hide Step, Inv, Stands, NoThreat, Undisturbed;
    if i == j {
    } else {
      BanStaysInForce(run, labels, i, j - 1, uname, until, d);
      ReachableInv(run, labels, j - 1);
      StepOf(run, labels, j - 1);
      StandsStep(run[j - 1], labels[j - 1], run[j], uname, until, d);
      InTime(run[j - 1], labels[j - 1], uname, d);
      NoThreatStep(run[j - 1], labels[j - 1], run[j], uname, until, d);
    }
  }

  lemma InTime(w: World, l: Label, uname: string, d: int)
    requires Undisturbed(w, l, uname, d)
    ensures l.env.now <= d
  {
  }

  /** One that a reader threatens at a clock reading now can be gone two statements later, with the
      clock still reading now, however far away its end is. */
  lemma ThreatenedBanCanGo(
    run: seq<World>, labels: seq<Label>, t: nat, uname: string, until: int, now: int)
    returns (run': seq<World>, labels': seq<Label>)
    requires IsRun(run, labels) && t < |Last(run).calls| && now <= until
    requires Stands(Last(run).db, uname, until) && Threatens(Last(run).calls[t], uname, now)
    ensures IsRun(run', labels') && run <= run' && |labels'| <= |labels| + 2
    ensures AllRead(labels, labels', now)
    ensures forall n :: |labels| <= n < |labels'| ==> Undisturbed(run'[n], labels'[n], uname, now)
    ensures !Stands(Last(run').db, uname, until) && BanExpiry(Last(run').db, uname) == None
    ensures Last(run').calls == Last(run).calls[t := Asking(R.Answered(false))]
  {
    hide Init, Stands, FindUser, DropUserBans;
    var e := Env(now, false, 0);
    run', labels' := run, labels;
    if Last(run).calls[t].ask.UserRead? {
      run', labels' := Extend(run', labels', t, e);
    }
    ghost var w := Last(run');
    assert w.db == Last(run).db && w.calls[t] == Asking(R.UserExpired(uname));
    run', labels' := Extend(run', labels', t, e);
    assert Last(run').db == DeleteUserBan(w.db, uname);
    DeletedBanIsGone(w.db, uname, until);
  }

  lemma DeletedBanIsGone(db: Database, uname: string, until: int)
    ensures !Stands(DeleteUserBan(db, uname), uname, until)
    ensures BanExpiry(DeleteUserBan(db, uname), uname) == None
  {
  }

  /** The clock does not go back from the end of labels on. */
  predicate ClockGoesOn(labels: seq<Label>, labels': seq<Label>) {
    forall m, n :: 0 <= m < n < |labels'| && |labels| <= n ==>
      labels'[m].env.now <= labels'[n].env.now
  }

  /** The run goes on without another ban write for the user, with readings up to d. */
  ghost predicate Continues(run: seq<World>, labels: seq<Label>, run': seq<World>,
                            labels': seq<Label>, uname: string, d: int)
  {
    && IsRun(run', labels') && run <= run' && labels <= labels'
    && ClockGoesOn(labels, labels')
    && forall n :: |labels| <= n < |labels'| ==> Undisturbed(run'[n], labels'[n], uname, d)
  }

  /** Every such continuation leaves the ban in force. */
  ghost predicate Safe(run: seq<World>, labels: seq<Label>, uname: string, until: int, d: int) {
    forall run', labels' ::
      Continues(run, labels, run', labels', uname, d) ==> Stands(Last(run').db, uname, until)
  }

  /** Up to any deadline d, from the present to the end of the ban, a ban in force is safe if and
      only if no reader threatens it at d. */
  lemma SafeExactlyWithoutThreat(
    run: seq<World>, labels: seq<Label>, uname: string, until: int, d: int)
    requires IsRun(run, labels) && Stands(Last(run).db, uname, until)
    requires d <= until && forall m :: 0 <= m < |labels| ==> labels[m].env.now <= d
    ensures Safe(run, labels, uname, until, d) <==> NoThreat(Last(run).calls, uname, d)
  {
    hide Step, Init, Stands, Undisturbed, Threatens;
    if NoThreat(Last(run).calls, uname, d) {
      forall run', labels' | Continues(run, labels, run', labels', uname, d)
        ensures Stands(Last(run').db, uname, until)
      {
        BanStaysInForce(run', labels', |labels|, |labels'|, uname, until, d);
      }
    } else {
      var t :| 0 <= t < |Last(run).calls| && Threatens(Last(run).calls[t], uname, d);
      var run', labels' := ThreatenedBanCanGo(run, labels, t, uname, until, d);
      assert Continues(run, labels, run', labels', uname, d);
    }
  }

  /** Such a state is reached, and a ban can be lost in the very second it is written: the clock
      reads e.now throughout; a reader selects the old expiry, an admin's BanUser extends the ban,
      which is in force after step i, and succeeds, and the reader deletes it and answers false. */
  lemma FreshBanCanGo(w: World, c: Call, ip: string, e: Env)
    returns (run: seq<World>, labels: seq<Label>, i: nat)
    requires Init(w) && c.BanStart? && w.calls == [c, Asking(R.UserAsked(c.target, ip))]
    requires Holds(w.db, c.name, c.token, true) && Writes(e, c.days) && B.BanSpan(c.days) >= 0
    requires BanExpiry(w.db, c.target).Some? && BanExpiry(w.db, c.target).value < e.now
    ensures IsRun(run, labels) && run[0] == w
    ensures forall n :: 0 <= n < |labels| ==> labels[n].env.now == e.now
    ensures i < |run| && Stands(run[i].db, c.target, e.now + B.BanSpan(c.days))
    ensures Last(run).calls == [Ended(OK), Asking(R.Answered(false))]
    ensures BanExpiry(Last(run).db, c.target) == None
  {
    hide Step, Init, Holds, B.BanSpan, IsInt4;
    var until := e.now + B.BanSpan(c.days);
    run, labels := [w], [];
    assert IsRun(run, labels);
    run, labels := ReaderSelects(run, labels, 1, e);
    run, labels := ChecksPass(run, labels, 0, e);
    run, labels := BanExtends(run, labels, 0, c.target, e);
    i := |run| - 1;
    run, labels := ThreatenedBanCanGo(run, labels, 1, c.target, until, e.now);
  }

  lemma ReaderSelects(run: seq<World>, labels: seq<Label>, t: nat, e: Env)
    returns (run': seq<World>, labels': seq<Label>)
    requires IsRun(run, labels) && !e.lost && t < |Last(run).calls|
    requires var c := Last(run).calls[t];
      c.Asking? && c.ask.UserAsked? && BanExpiry(Last(run).db, c.ask.uname).Some?
    ensures IsRun(run', labels') && run <= run' && AllRead(labels, labels', e.now)
    ensures var w, a := Last(run), Last(run).calls[t].ask;
      Last(run') == w.(calls := w.calls[t :=
        Asking(R.UserRead(a.uname, a.ip, BanExpiry(w.db, a.uname).value))])
  {
    hide Init, BanExpiry;
    run', labels' := Extend(run, labels, t, e);
  }

  /** The last two statements of a BanUser for a user who has a ban. */
  lemma BanExtends(run: seq<World>, labels: seq<Label>, t: nat, uname: string, e: Env)
    returns (run': seq<World>, labels': seq<Label>)
    requires IsRun(run, labels) && t < |Last(run).calls| && Last(run).calls[t].BanKnown?
    requires var w, c := Last(run), Last(run).calls[t];
      && FindUser(w.db, uname).Some? && FindUser(w.db, uname).value.id == c.uid
      && BanOf(w.db, c.uid).Some? && Writes(e, c.days)
    ensures IsRun(run', labels') && run <= run' && AllRead(labels, labels', e.now)
    ensures Last(run').calls == Last(run).calls[t := Ended(OK)]
    ensures Stands(Last(run').db, uname, e.now + B.BanSpan(Last(run).calls[t].days))
  {
    hide Init, B.BanSpan, FindUser, BanOf, Stands;
    run', labels' := Extend(run, labels, t, e);
    ghost var w := Last(run');
    assert w.db == Last(run).db && w.calls[t].exists_;
    run', labels' := Extend(run', labels', t, e);
    WriteTakesEffect(w, t, e, Last(run'), uname);
  }
}
