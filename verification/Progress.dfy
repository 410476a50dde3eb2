/** No call on a channel can get stuck: for every number of threads and every one of them, what a
    thread can still do from any reachable state. */
module Progress {
  import opened Domain
  import opened ChannelMonitor
  import D = Deliveries
  import L = LinearLog

  /** What a thread does next by itself; None when it is idle or in the wait set. */
  function NextAction(pc: Pc): Option<Action> {
    match pc
    case Idle => None
    case Waiting => None
    case AppendLocked(_) => Some(PushBack)
    case AppendPushed(_, _) => Some(AssignLast)
    case AppendAssigned(_, _) => Some(Unlock)
    case AppendUnlocked(_, _) => Some(NotifyAll)
    case LastLocked => Some(CopyLast)
    case LastRead(_) => Some(Return)
    case GetLocked => Some(CopyLog)
    case GetCopied(_) => Some(Return)
    case WaitLocked => Some(BlockOnCondition)
    case Relocked(_) => Some(ReadLast)
    case WaitRead(_) => Some(ReturnWait)
    case Writing(_) => Some(Write)
    case _ => Some(Acquire)
  }

  /** Waiting for the mutex. */
  predicate Queues(pc: Pc) {
    pc.AppendEnter? || pc.LastEnter? || pc.GetEnter? || pc.WaitEnter? || pc.Woken?
  }

  /** Steps until the thread is idle or in the wait set. */
  function StepsLeft(pc: Pc): nat {
    match pc
    case AppendEnter(_) => 5
    case AppendLocked(_) => 4
    case AppendPushed(_, _) => 3
    case AppendAssigned(_, _) => 2
    case AppendUnlocked(_, _) => 1
    case LastEnter => 3
    case LastLocked => 2
    case LastRead(_) => 1
    case GetEnter => 3
    case GetLocked => 2
    case GetCopied(_) => 1
    case WaitEnter => 2
    case WaitLocked => 1
    case Woken(_) => 6
    case Relocked(_) => 5
    case WaitRead(_) => 4
    case Writing(_) => 3
    case _ => 0
  }

  /** A thread with something left to do can do it now, unless it queues for a mutex that is held;
      it then has one step less to go and never goes back. */
  lemma CanAct(s: Monitor, t: nat)
    requires t < |s.threads| && NextAction(s.threads[t].pc).Some?
    requires Queues(s.threads[t].pc) ==> s.holder == None
    ensures var s' := Step(s, t, NextAction(s.threads[t].pc).value);
      && s'.Some? && t < |s'.value.threads|
      && StepsLeft(s'.value.threads[t].pc) == StepsLeft(s.threads[t].pc) - 1
  {
    hide HoldsMutex, Woke;
    if Queues(s.threads[t].pc) {
      CanAcquire(s, t);
    }
  }

  lemma CanAcquire(s: Monitor, t: nat)
    requires t < |s.threads| && Queues(s.threads[t].pc) && s.holder == None
    ensures var s' := Step(s, t, Acquire);
      && s'.Some? && t < |s'.value.threads|
      && StepsLeft(s'.value.threads[t].pc) == StepsLeft(s.threads[t].pc) - 1
  {
  }

  lemma NothingLeft(pc: Pc)
    ensures StepsLeft(pc) == 0 <==> pc.Idle? || pc.Waiting?
    ensures NextAction(pc) == None <==> pc.Idle? || pc.Waiting?
    ensures HoldsMutex(pc) ==> !Queues(pc)
  {
  }

  /** In every reachable state: whoever holds the mutex can act; when it is free, whoever queues for
      it can take it; and whoever needs no mutex can act. */
  lemma NeverStuck(run: seq<Monitor>, labels: seq<Label>, i: nat, t: nat, m: Message)
    requires IsRun(run, labels) && i < |run| && t < |run[i].threads|
    ensures run[i].holder == Some(t) ==>
      exists a :: Step(run[i], t, a).Some? && !a.WakeSpuriously?
    ensures Queues(run[i].threads[t].pc) ==>
      (Step(run[i], t, Acquire).Some? <==> run[i].holder == None)
    ensures run[i].threads[t].pc.AppendUnlocked? ==> Step(run[i], t, NotifyAll).Some?
    ensures run[i].threads[t].pc.Writing? ==> Step(run[i], t, Write).Some?
    ensures run[i].threads[t].pc.Waiting? ==> Step(run[i], t, WakeSpuriously).Some?
    ensures run[i].threads[t].pc.Idle? ==>
      && Step(run[i], t, CallAppend(m)).Some? && Step(run[i], t, CallLast).Some?
      && Step(run[i], t, CallGet).Some? && Step(run[i], t, CallListen).Some?
  {
    ReachableInv(run, labels, i);
    var s := run[i];
    NothingLeft(s.threads[t].pc);
    if s.holder == Some(t) {
      assert HoldsMutex(s.threads[t].pc);
      CanAct(s, t);
      var a := NextAction(s.threads[t].pc).value;
      assert Step(s, t, a).Some? && !a.WakeSpuriously?;
    }
  }

  /** Every call, of every thread, starts by queueing for the mutex, and disturbs nothing. */
  lemma CallsQueue(s: Monitor, t: nat, m: Message)
    requires t < |s.threads| && s.threads[t].pc == Idle
    ensures Step(s, t, CallAppend(m)) == Some(At(s, t, AppendEnter(m)))
    ensures Step(s, t, CallLast) == Some(At(s, t, LastEnter))
    ensures Step(s, t, CallGet) == Some(At(s, t, GetEnter))
    ensures Step(s, t, CallListen) == Some(At(s, t, WaitEnter))
    ensures forall pc :: At(s, t, pc) == s.(threads := s.threads[t := s.threads[t].(pc := pc)])
  {
  }

  // ---- Driving calls to their end ----

  lemma Extend(run: seq<Monitor>, labels: seq<Label>, t: nat, a: Action)
    returns (run': seq<Monitor>, labels': seq<Label>)
    requires IsRun(run, labels) && Step(D.Last(run), t, a).Some?
    ensures IsRun(run', labels') && run <= run' && labels' == labels + [Label(t, a)]
    ensures Some(D.Last(run')) == Step(D.Last(run), t, a)
  {
    run', labels' := run + [Step(D.Last(run), t, a).value], labels + [Label(t, a)];
  }

  /** The steps that labels' adds are all of thread t. */
  predicate OnlyBy(labels: seq<Label>, labels': seq<Label>, t: nat) {
    labels <= labels' && forall n :: |labels| <= n < |labels'| ==> labels'[n].thread == t
  }

  lemma Reachable(run: seq<Monitor>, labels: seq<Label>)
    requires IsRun(run, labels)
    ensures |run| > 0 && Inv(D.Last(run))
  {
    ReachableInv(run, labels, |run| - 1);
  }

  /** With the mutex free or its own, a thread alone reaches the end of what it is doing. */
  lemma {:induction false} FinishesAlone(run: seq<Monitor>, labels: seq<Label>, t: nat)
    returns (run': seq<Monitor>, labels': seq<Label>)
    requires IsRun(run, labels) && t < |D.Last(run).threads|
    requires D.Last(run).holder == None || D.Last(run).holder == Some(t)
    ensures IsRun(run', labels') && run <= run' && OnlyBy(labels, labels', t)
    ensures t < |D.Last(run').threads| && D.Last(run').holder == None
    ensures D.Last(run').threads[t].pc.Idle? || D.Last(run').threads[t].pc.Waiting?
    decreases StepsLeft(D.Last(run).threads[t].pc)
  {
    hide Step, IsRun, Inv, StepsLeft, NextAction, HoldsMutex;
    Reachable(run, labels);
    var s := D.Last(run);
    NothingLeft(s.threads[t].pc);
    if StepsLeft(s.threads[t].pc) == 0 {
      IdleHoldsNothing(s, t);
      run', labels' := run, labels;
    } else {
      QueuesOrHolds(s, t);
      CanAct(s, t);
      var a := NextAction(s.threads[t].pc).value;
      MutexStaysOwn(s, t, a);
      run', labels' := Extend(run, labels, t, a);
      run', labels' := FinishesAlone(run', labels', t);
    }
  }

  lemma IdleHoldsNothing(s: Monitor, t: nat)
    requires Inv(s) && t < |s.threads| && (s.threads[t].pc.Idle? || s.threads[t].pc.Waiting?)
    ensures s.holder != Some(t)
  {
  }

  lemma QueuesOrHolds(s: Monitor, t: nat)
    requires Inv(s) && t < |s.threads| && (s.holder == None || s.holder == Some(t))
    ensures Queues(s.threads[t].pc) ==> s.holder == None
  {
  }

  lemma MutexStaysOwn(s: Monitor, t: nat, a: Action)
    requires Step(s, t, a).Some? && (s.holder == None || s.holder == Some(t))
    ensures Step(s, t, a).value.holder == None || Step(s, t, a).value.holder == Some(t)
  {
  }

  /** From every reachable state, every thread can be brought to the end of what it is doing: at most
      the thread that holds the mutex has to finish first. */
  lemma EveryCallCanFinish(run: seq<Monitor>, labels: seq<Label>, t: nat)
    returns (run': seq<Monitor>, labels': seq<Label>)
    requires IsRun(run, labels) && t < |D.Last(run).threads|
    ensures IsRun(run', labels') && run <= run' && t < |D.Last(run').threads|
    ensures D.Last(run').threads[t].pc.Idle? || D.Last(run').threads[t].pc.Waiting?
    ensures forall n :: |labels| <= n < |labels'| ==>
      labels'[n].thread == t || Some(labels'[n].thread) == D.Last(run).holder
  {
    hide Step, Init, Inv;
    run', labels' := run, labels;
    Reachable(run, labels);
    HolderExists(D.Last(run));
    if D.Last(run).holder.Some? && D.Last(run).holder != Some(t) {
      run', labels' := FinishesAlone(run', labels', D.Last(run).holder.value);
      D.RunGrows(run', labels', |run| - 1, |run'| - 1, t);
    }
    run', labels' := FinishesAlone(run', labels', t);
  }

  lemma HolderExists(s: Monitor)
    requires Inv(s)
    ensures s.holder.Some? ==> s.holder.value < |s.threads|
  {
  }

  // ---- What each operation does when it runs alone ----

  /** A send by any idle thread, with the mutex free: it returns, the mutex is free again, the log has
      exactly its message more, and every listener in the wait set is woken. */
  lemma AppendCompletes(run: seq<Monitor>, labels: seq<Label>, t: nat, m: Message)
    returns (run': seq<Monitor>, labels': seq<Label>)
    requires IsRun(run, labels) && t < |D.Last(run).threads|
    requires D.Last(run).holder == None && D.Last(run).threads[t].pc == Idle
    ensures IsRun(run', labels') && run <= run' && OnlyBy(labels, labels', t)
    ensures var s, s' := D.Last(run), D.Last(run');
      && s'.holder == None && s'.log == s.log + [m] && s'.last == m
      && |s'.threads| == |s.threads| && s'.threads[t].pc == Idle
      && forall u :: 0 <= u < |s.threads| && u != t ==> s'.threads[u] == Woke(s.threads[u])
  {
    hide Init;
    run', labels' := Extend(run, labels, t, CallAppend(m));
    run', labels' := Extend(run', labels', t, Acquire);
    run', labels' := Extend(run', labels', t, PushBack);
    ghost var pushed := D.Last(run');
    assert pushed.threads == D.Last(run).threads[t := pushed.threads[t]];
    run', labels' := Unwind(run', labels', t, m);
  }

  /** The rest of an append that has pushed. */
  lemma Unwind(run: seq<Monitor>, labels: seq<Label>, t: nat, m: Message)
    returns (run': seq<Monitor>, labels': seq<Label>)
    requires IsRun(run, labels) && t < |D.Last(run).threads|
    requires D.Last(run).threads[t].pc.AppendPushed? && D.Last(run).threads[t].pc.msg == m
    ensures IsRun(run', labels') && run <= run' && OnlyBy(labels, labels', t)
    ensures var s, s' := D.Last(run), D.Last(run');
      && s'.holder == None && s'.log == s.log && s'.last == m
      && |s'.threads| == |s.threads| && s'.threads[t].pc == Idle
      && forall u :: 0 <= u < |s.threads| && u != t ==> s'.threads[u] == Woke(s.threads[u])
  {
    hide Init;
    run', labels' := Extend(run, labels, t, AssignLast);
    run', labels' := Extend(run', labels', t, Unlock);
    ghost var unlocked := D.Last(run');
    assert unlocked.threads == D.Last(run).threads[t := unlocked.threads[t]];
    run', labels' := Extend(run', labels', t, NotifyAll);
  }

  lemma LastMessageReads(run: seq<Monitor>, labels: seq<Label>, t: nat)
    returns (run': seq<Monitor>, labels': seq<Label>)
    requires IsRun(run, labels) && t < |D.Last(run).threads|
    requires D.Last(run).holder == None && D.Last(run).threads[t].pc == Idle
    ensures IsRun(run', labels') && run <= run' && OnlyBy(labels, labels', t)
    ensures var s, s' := D.Last(run), D.Last(run');
      s' == s.(holder := Some(t),
               threads := s.threads[t := s.threads[t].(pc := LastRead(MessageAt(s.log, |s.log|)))])
  {
    hide IsRun, GoodThreads, GoodSnapshots;
    Reachable(run, labels);
    run', labels' := Extend(run, labels, t, CallLast);
    run', labels' := Extend(run', labels', t, Acquire);
    run', labels' := Extend(run', labels', t, CopyLast);
  }

  /** lastMessage by any idle thread, with the mutex free: the call returns the answer of the atomic
      log and leaves everything as it was. */
  lemma LastMessageCompletes(run: seq<Monitor>, labels: seq<Label>, t: nat)
    returns (run': seq<Monitor>, labels': seq<Label>, before: Monitor)
    requires IsRun(run, labels) && t < |D.Last(run).threads|
    requires D.Last(run).holder == None && D.Last(run).threads[t].pc == Idle
    ensures IsRun(run', labels') && run <= run' && OnlyBy(labels, labels', t)
    ensures t < |before.threads| && Step(before, t, Return) == Some(D.Last(run'))
    ensures L.EventOf(before, Label(t, Return)) ==
      L.Returned(L.Meaning(D.Last(run).log, L.LastMessage).1)
    ensures D.Last(run') == D.Last(run)
  {
    hide Init;
    run', labels' := LastMessageReads(run, labels, t);
    before := D.Last(run');
    run', labels' := Extend(run', labels', t, Return);
    assert D.Last(run').threads == D.Last(run).threads;
  }

  lemma GetMessagesReads(run: seq<Monitor>, labels: seq<Label>, t: nat)
    returns (run': seq<Monitor>, labels': seq<Label>)
    requires IsRun(run, labels) && t < |D.Last(run).threads|
    requires D.Last(run).holder == None && D.Last(run).threads[t].pc == Idle
    ensures IsRun(run', labels') && run <= run' && OnlyBy(labels, labels', t)
    ensures var s, s' := D.Last(run), D.Last(run');
      s' == s.(holder := Some(t), snapshots := s.snapshots + [s.log],
               threads := s.threads[t := s.threads[t].(pc := GetCopied(s.log))])
  {
    hide IsRun, GoodThreads, GoodSnapshots;
    Reachable(run, labels);
    run', labels' := Extend(run, labels, t, CallGet);
    run', labels' := Extend(run', labels', t, Acquire);
    run', labels' := Extend(run', labels', t, CopyLog);
  }

  /** The same for getMessages; only the record of results grows. */
  lemma GetMessagesCompletes(run: seq<Monitor>, labels: seq<Label>, t: nat)
    returns (run': seq<Monitor>, labels': seq<Label>, before: Monitor)
    requires IsRun(run, labels) && t < |D.Last(run).threads|
    requires D.Last(run).holder == None && D.Last(run).threads[t].pc == Idle
    ensures IsRun(run', labels') && run <= run' && OnlyBy(labels, labels', t)
    ensures t < |before.threads| && Step(before, t, Return) == Some(D.Last(run'))
    ensures L.EventOf(before, Label(t, Return)) ==
      L.Returned(L.Meaning(D.Last(run).log, L.GetMessages).1)
    ensures D.Last(run') ==
      D.Last(run).(snapshots := D.Last(run).snapshots + [D.Last(run).log])
  {
    hide Init;
    run', labels' := GetMessagesReads(run, labels, t);
    before := D.Last(run');
    run', labels' := Extend(run', labels', t, Return);
    assert D.Last(run').threads == D.Last(run).threads;
  }

  /** A woken listener, with the mutex free, reads the last entry of the log. */
  lemma WokenListenerReads(run: seq<Monitor>, labels: seq<Label>, t: nat)
    returns (run': seq<Monitor>, labels': seq<Label>)
    requires IsRun(run, labels) && t < |D.Last(run).threads|
    requires D.Last(run).holder == None && D.Last(run).threads[t].pc.Woken?
    ensures IsRun(run', labels') && run <= run' && OnlyBy(labels, labels', t)
    ensures var s, s' := D.Last(run), D.Last(run');
      var d := Delivery(MessageAt(s.log, |s.log|), |s.log|, s.threads[t].pc.cause);
      s' == s.(holder := Some(t), threads := s.threads[t := s.threads[t].(pc := WaitRead(d))])
  {
    hide IsRun, GoodThreads, GoodSnapshots;
    Reachable(run, labels);
    run', labels' := Extend(run, labels, t, Acquire);
    run', labels' := Extend(run', labels', t, ReadLast);
  }

  /** It writes that entry and goes back to waiting. */
  lemma WokenListenerWrites(run: seq<Monitor>, labels: seq<Label>, t: nat)
    returns (run': seq<Monitor>, labels': seq<Label>)
    requires IsRun(run, labels) && t < |D.Last(run).threads|
    requires D.Last(run).holder == None && D.Last(run).threads[t].pc.Woken?
    ensures IsRun(run', labels') && run <= run' && OnlyBy(labels, labels', t)
    ensures var s, s' := D.Last(run), D.Last(run');
      var th := s.threads[t];
      s' == s.(threads := s.threads[t := th.(pc := WaitEnter,
        out := th.out + [Delivery(MessageAt(s.log, |s.log|), |s.log|, th.pc.cause)])])
  {
    hide IsRun, Inv;
    Reachable(run, labels);
    run', labels' := WokenListenerReads(run, labels, t);
    run', labels' := Extend(run', labels', t, ReturnWait);
    run', labels' := Extend(run', labels', t, Write);
  }

  /** A listener about to wait, with the mutex free, gets into the wait set, so that the next
      notify_all reaches it. */
  lemma ListenerBlocks(run: seq<Monitor>, labels: seq<Label>, t: nat)
    returns (run': seq<Monitor>, labels': seq<Label>)
    requires IsRun(run, labels) && t < |D.Last(run).threads|
    requires D.Last(run).holder == None && D.Last(run).threads[t].pc.WaitEnter?
    ensures IsRun(run', labels') && run <= run' && OnlyBy(labels, labels', t)
    ensures var s := D.Last(run);
      D.Last(run') == s.(threads := s.threads[t := s.threads[t].(pc := Waiting)])
  {
    hide IsRun;
    run', labels' := Extend(run, labels, t, Acquire);
    run', labels' := Extend(run', labels', t, BlockOnCondition);
  }
}
