/** Every RPC ends: no call of Interleaving can get stuck, each takes a bounded number of steps
    whatever runs beside it, and a lost connection never passes for success. */
module CallProgress {
  import opened Domain
  import opened Tables
  import opened Interleaving
  import opened BanRaces
  import B = Bans
  import R = BanReaders

  /** Nothing left to do for the call (a listener goes on in ChannelMonitor). */
  predicate Settled(c: Call) {
    c.UserDone? || c.CommunityDone? || c.ChannelDone? || c.Listening? || c.Ended? || c.Threw? ||
    (c.Asking? && (c.ask.Answered? || c.ask.Threw?))
  }

  function AfterCheckWork(next: Next): nat {
    match next
    case ThenSend(rest) => 6 * |rest| + 3
    case ThenListen => 0
  }

  /** Steps still to come, at most. */
  function Work(c: Call): nat {
    match c
    case UserStart(_, _, _) => 3
    case UserCounted(_, _, _) => 2
    case UserInserted(_, _) => 1
    case CommunityStart(_, _, _) => 2
    case CommunityInserted(_, _) => 1
    case ChannelStart(_, _, _, _) => 2
    case ChannelInserted(_, _) => 1
    case CheckStart(_, next) => AfterCheckWork(next) + 3
    case CheckMissed(_, next) => AfterCheckWork(next) + 2
    case CheckFound(_, _, next) => AfterCheckWork(next) + 1
    case SendStart(rest) => 6 * |rest| + 7
    case SendChecked(rest) => 6 * |rest| + 3
    case SendAppended(rest) => 6 * |rest| + 2
    case BanStart(_, _, _, _) => 5
    case BanValid(_, _, _, _) => 4
    case BanAllowed(_, _, _, _) => 3
    case BanKnown(_, _, _, _) => 2
    case BanSelected(_, _, _, _, _) => 1
    case Asking(ask) => R.Rank(ask)
    case _ => 0
  }

  lemma CreateShortens(w: World, c: Call, e: Env)
    requires OnCreate(w, c, e).Some?
    ensures Work(OnCreate(w, c, e).value.call) < Work(c)
  {
  }

  lemma SendShortens(w: World, c: Call, e: Env)
    requires OnSend(w, c, e).Some?
    ensures Work(OnSend(w, c, e).value.call) < Work(c)
  {
    hide ChannelById, InsertMessage;
  }

  lemma BanShortens(w: World, c: Call, e: Env)
    requires OnBan(w, c, e).Some?
    ensures Work(OnBan(w, c, e).value.call) < Work(c)
  {
    hide B.BanSpan, UpdateUserBan, InsertUserBan;
  }

  lemma StepShortens(w: World, c: Call, e: Env)
    requires Run1(w, c, e).Some?
    ensures Work(Run1(w, c, e).value.call) < Work(c)
  {
    hide OnCreate, OnSend, OnBan, R.Next, Work;
    if e.lost && Queries(c) {
      LostShortens(c);
    } else if c.Asking? {
      AskShortens(w, c.ask, e);
    } else if OnCreate(w, c, e).Some? {
      CreateShortens(w, c, e);
    } else if OnSend(w, c, e).Some? {
      SendShortens(w, c, e);
    } else {
      BanShortens(w, c, e);
    }
  }

  lemma AskShortens(w: World, ask: R.Ask, e: Env)
    requires OnAsk(w, ask, e).Some?
    ensures Work(OnAsk(w, ask, e).value.call) < Work(Asking(ask))
  {
    hide BanExpiry, IpExpiry, Varchar;
  }

  lemma LostShortens(c: Call)
    requires Queries(c)
    ensures Work(Broken(c)) < Work(c)
  {
  }

  /** A call with work left can always take its next step: no statement waits for another call. */
  lemma CanGoOn(w: World, c: Call, e: Env)
    requires CallOk(c, w.db, w.cache)
    ensures Run1(w, c, e).Some? <==> !Settled(c)
  {
    hide BanExpiry, IpExpiry, Varchar, B.BanSpan, FindUser, BanOf, UserById, ChannelById;
  }

  /** In every reachable state, every call that is not settled can step, in every environment. */
  lemma NeverStuck(run: seq<World>, labels: seq<Label>, i: nat, t: nat, e: Env)
    requires IsRun(run, labels) && i < |run| && t < |run[i].calls|
    ensures Step(run[i], t, e).Some? <==> !Settled(run[i].calls[t])
  {
    hide Run1, IsRun, CallOk, Settled;
    ReachableInv(run, labels, i);
    assert CallOk(run[i].calls[t], run[i].db, run[i].cache);
    CanGoOn(run[i], run[i].calls[t], e);
  }

  function StepsOf(labels: seq<Label>, t: nat): nat {
    if labels == [] then 0
    else StepsOf(labels[..|labels| - 1], t) + if labels[|labels| - 1].call == t then 1 else 0
  }

  lemma StartWork(w: World, t: nat)
    requires Init(w) && t < |w.calls|
    ensures Work(w.calls[t]) <= if w.calls[t].SendStart? then 6 * |w.calls[t].rest| + 7 else 6
  {
    assert Starting(w.calls[t]);
  }

  /** In every run, whatever the other calls do, a call takes at most Work steps in all. */
  lemma {:induction false} StepsAreBounded(run: seq<World>, labels: seq<Label>, i: nat, t: nat)
    requires IsRun(run, labels) && i < |run| && t < |run[0].calls|
    ensures |run[i].calls| == |run[0].calls|
    ensures StepsOf(labels[..i], t) + Work(run[i].calls[t]) <= Work(run[0].calls[t])
    ensures Work(run[0].calls[t]) <=
      if run[0].calls[t].SendStart? then 6 * |run[0].calls[t].rest| + 7 else 6
  {
    hide Run1, Work, Init;
    StartWork(run[0], t);
    if i == 0 {
    } else {
      StepsAreBounded(run, labels, i - 1, t);
      StepOf(run, labels, i - 1);
      var w, l := run[i - 1], labels[i - 1];
      StepShortens(w, w.calls[l.call], l.env);
      assert labels[..i][..i - 1] == labels[..i - 1] && labels[..i][i - 1] == l;
    }
  }

  /** From every reachable state, every call can be brought to its end by its own steps alone. */
  lemma {:induction false} CallCanEnd(run: seq<World>, labels: seq<Label>, t: nat, e: Env)
    returns (run': seq<World>, labels': seq<Label>)
    requires IsRun(run, labels) && t < |Last(run).calls|
    ensures IsRun(run', labels') && run <= run' && labels <= labels'
    ensures forall n :: |labels| <= n < |labels'| ==> labels'[n] == Label(t, e)
    ensures t < |Last(run').calls| && Settled(Last(run').calls[t])
    decreases Work(Last(run).calls[t])
  {
    hide Run1, Init, Settled, Work;
    NeverStuck(run, labels, |run| - 1, t, e);
    if Settled(Last(run).calls[t]) {
      run', labels' := run, labels;
    } else {
      StepShortens(Last(run), Last(run).calls[t], e);
      run', labels' := Extend(run, labels, t, e);
      run', labels' := CallCanEnd(run', labels', t, e);
    }
  }

  // ---- Lost connections ----

  /** The next step of the call is this SQL statement. */
  predicate AtStatement(c: Call) {
    || c.UserStart? || c.UserCounted? || c.UserInserted?          // count, insert, select
    || c.CommunityStart? || c.CommunityInserted?                  // insert, select
    || c.ChannelStart? || c.ChannelInserted?                      // insert, select
    || c.CheckMissed? || c.SendAppended?                          // select, insert
    || c.BanStart? || c.BanValid? || c.BanAllowed? || c.BanKnown? // four selects
    || c.BanSelected?                                             // update or insert
    || (c.Asking? && (c.ask.UserAsked? || c.ask.UserExpired? || c.ask.IpAsked? ||
                      c.ask.IpExpired? || c.ask.Recording?))
  }

  /** A statement that finds the connection lost changes neither tables nor cache and never lets the
      call end well: an RPC answers INTERNAL, and from a ban reader or a listener, which do not
      catch, the exception goes on. */
  lemma LostNeverSucceeds(w: World, c: Call, e: Env)
    requires e.lost && AtStatement(c)
    ensures var x := Run1(w, c, e);
      && x.Some? && x.value.db == w.db && x.value.cache == w.cache
      && x.value.call ==
           (if c.Asking? then Asking(R.Threw)
            else if c.CheckMissed? && c.next.ThenListen? then Threw
            else Ended(INTERNAL))
      && x.value.failed == w.failed + if c.SendAppended? && c.rest != [] then [c.rest[0]] else []
  {
    hide OnCreate, OnSend, OnBan, OnAsk;
    assert w.failed + [] == w.failed;
  }

  /** A channel that is cached needs no connection: the check passes, or a missing one goes to the
      table, without a statement. */
  lemma CacheNeedsNoQuery(w: World, id: int, next: Next, e: Env)
    ensures Run1(w, CheckStart(id, next), e) == Some(Effect(w.db, w.cache, w.failed,
      if id !in w.cache then CheckMissed(id, next)
      else match next case ThenSend(rest) => SendChecked(rest) case ThenListen => Listening(id)))
  {
  }

  /** Without a connection no table changes, whatever the call. */
  lemma LostLeavesTables(w: World, c: Call, e: Env)
    requires e.lost && Run1(w, c, e).Some?
    ensures Run1(w, c, e).value.db == w.db
  {
    hide BanExpiry, IpExpiry, Varchar, B.BanSpan, FindUser, BanOf, UserById, ChannelById;
  }
}
