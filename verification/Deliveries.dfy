/** What a listener of a channel is guaranteed, over every run of the monitor. */
module Deliveries {
  import opened Domain
  import opened ChannelMonitor

  /** Inside the wait: still in the wait set, or woken and queueing for the mutex. */
  predicate Blocked(pc: Pc) {
    pc.Waiting? || pc.Woken?
  }

  /** The listener has left the wait set and still has to write what it will read. */
  predicate Delivering(pc: Pc) {
    pc.Woken? || pc.Relocked? || pc.WaitRead? || pc.Writing?
  }

  /** Between its push and its notify_all, for the append that put entry k in the log. */
  predicate OwesNotify(pc: Pc, k: nat) {
    (pc.AppendPushed? || pc.AppendAssigned? || pc.AppendUnlocked?) && pc.index == k
  }

  predicate Unnotified(pc: Pc) {
    pc.AppendPushed? || pc.AppendAssigned? || pc.AppendUnlocked?
  }

  predicate Quiescent(s: Monitor) {
    forall t :: 0 <= t < |s.threads| ==>
      !Unnotified(s.threads[t].pc) && !Delivering(s.threads[t].pc)
  }

  /** Step i of the run is the notify_all of the append that put entry k in the log. */
  predicate NotifyOf(run: seq<Monitor>, labels: seq<Label>, i: nat, k: nat) {
    && i < |labels| && i < |run|
    && labels[i].action.NotifyAll?
    && labels[i].thread < |run[i].threads|
    && OwesNotify(run[i].threads[labels[i].thread].pc, k)
  }

  predicate BlockedAt(s: Monitor, u: nat) {
    u < |s.threads| && Blocked(s.threads[u].pc)
  }

  /** Between s and s' thread u has written something, and the last thing it wrote is m,
      read when the log had n entries. */
  predicate WroteSince(s: Monitor, s': Monitor, u: nat, n: nat, m: Message) {
    && u < |s.threads| && u < |s'.threads|
    && var out := s'.threads[u].out;
       |out| > |s.threads[u].out| && out[|out| - 1].at == n && out[|out| - 1].msg == m
  }

  // ---- Monotone facts ----

  lemma CanStep(run: seq<Monitor>, labels: seq<Label>, i: nat)
    requires IsRun(run, labels) && i < |labels|
    ensures Step(run[i], labels[i].thread, labels[i].action) == Some(run[i + 1])
    ensures labels[i].thread < |run[i].threads|
  {
    assert Step(run[i], labels[i].thread, labels[i].action) == Some(run[i + 1]);
  }

  lemma StepGrows(s: Monitor, t: nat, a: Action, s': Monitor, u: nat)
    requires Step(s, t, a) == Some(s') && u < |s.threads|
    ensures |s'.threads| == |s.threads|
    ensures s.log <= s'.log
    ensures s.snapshots <= s'.snapshots
    ensures s.threads[u].out <= s'.threads[u].out
  {
  }

  lemma {:induction false} RunGrows(run: seq<Monitor>, labels: seq<Label>, i: nat, j: nat, u: nat)
    requires IsRun(run, labels) && i <= j < |run| && u < |run[i].threads|
    ensures |run[j].threads| == |run[i].threads|
    ensures run[i].log <= run[j].log
    ensures run[i].snapshots <= run[j].snapshots
    ensures run[i].threads[u].out <= run[j].threads[u].out
  {
    hide Step, Init;
    if i == j {
    } else {
      RunGrows(run, labels, i, j - 1, u);
      StepGrows(run[j - 1], labels[j - 1].thread, labels[j - 1].action, run[j], u);
    }
  }

  // ---- A notify reaches every blocked listener ----

  /** After c writes, thread u either still has to write, or has written, something
      read when the log had more than k entries. */
  predicate WillSee(s: Monitor, u: nat, c: nat, k: nat) {
    && u < |s.threads|
    && k < |s.log|
    && var th := s.threads[u];
    if |th.out| == c then
      || th.pc.Woken? || th.pc.Relocked?
      || ((th.pc.WaitRead? || th.pc.Writing?) && th.pc.delivery.at > k)
    else
      |th.out| > c && th.out[c].at > k
  }

  lemma WillSeeStep(s: Monitor, t: nat, a: Action, s': Monitor, u: nat, c: nat, k: nat)
    requires Step(s, t, a) == Some(s') && WillSee(s, u, c, k)
    ensures WillSee(s', u, c, k)
  {
    StepGrows(s, t, a, s', u);
  }

  lemma NotifyStarts(s: Monitor, t: nat, s': Monitor, u: nat, k: nat)
    requires Inv(s) && Step(s, t, NotifyAll) == Some(s')
    requires OwesNotify(s.threads[t].pc, k)
    requires u < |s.threads| && Blocked(s.threads[u].pc)
    ensures WillSee(s', u, |s.threads[u].out|, k)
  {
    assert GoodThread(s.log, s.threads[t]);
  }

  lemma {:induction false} WillSeeFrom(
    run: seq<Monitor>, labels: seq<Label>, i: nat, j: nat, u: nat, c: nat, k: nat)
    requires IsRun(run, labels) && i <= j < |run| && WillSee(run[i], u, c, k)
    ensures WillSee(run[j], u, c, k)
  {
    hide Step, Init, WillSee;
    if i == j {
    } else {
      WillSeeFrom(run, labels, i, j - 1, u, c, k);
      WillSeeStep(run[j - 1], labels[j - 1].thread, labels[j - 1].action, run[j], u, c, k);
    }
  }

  /** For every append k: a listener blocked at k's notify_all next writes a message that is
      at index k of the log or later, in whatever order the appends notify. */
  lemma NextDeliveryIsAsNew(run: seq<Monitor>, labels: seq<Label>, i: nat, j: nat, u: nat, k: nat)
    requires IsRun(run, labels) && i < j < |run|
    requires NotifyOf(run, labels, i, k)
    requires BlockedAt(run[i], u)
    ensures |run[j].threads| == |run[i].threads|
    ensures var c, out := |run[i].threads[u].out|, run[j].threads[u].out;
      if |out| > c then
        && k < out[c].at <= |run[j].log|
        && out[c].msg == run[j].log[out[c].at - 1]
      else
        |out| == c && Delivering(run[j].threads[u].pc)
  {
    hide Step, Init;
    ReachableInv(run, labels, i);
    ReachableInv(run, labels, j);
    NotifyStarts(run[i], labels[i].thread, run[i + 1], u, k);
    WillSeeFrom(run, labels, i + 1, j, u, |run[i].threads[u].out|, k);
    RunGrows(run, labels, i, j, u);
    assert GoodThread(run[j].log, run[j].threads[u]);
  }

  lemma KeepsOwing(s: Monitor, t: nat, a: Action, s': Monitor, u: nat, k: nat)
    requires Step(s, t, a) == Some(s') && u < |s.threads| && OwesNotify(s.threads[u].pc, k)
    ensures |s'.threads| == |s.threads|
    ensures OwesNotify(s'.threads[u].pc, k) || (a.NotifyAll? && t == u)
  {
  }

  lemma PushOwes(s: Monitor, t: nat, a: Action, s': Monitor)
    requires Step(s, t, a) == Some(s') && |s'.log| > |s.log|
    ensures |s'.log| == |s.log| + 1 && t < |s'.threads| && OwesNotify(s'.threads[t].pc, |s.log|)
  {
  }

  /** Every entry of the log has been announced, or its sender is still about to. */
  lemma {:induction false} EveryPushIsNotified(
    run: seq<Monitor>, labels: seq<Label>, j: nat, k: nat)
    requires IsRun(run, labels) && j < |run| && k < |run[j].log|
    ensures (exists i: nat :: i < j && NotifyOf(run, labels, i, k)) ||
            (exists u :: 0 <= u < |run[j].threads| && OwesNotify(run[j].threads[u].pc, k))
  {
    hide Step;
    if j == 0 {
    } else {
      var s, t, a, s' := run[j - 1], labels[j - 1].thread, labels[j - 1].action, run[j];
      CanStep(run, labels, j - 1);
      StepGrows(s, t, a, s', t);
      if k >= |s.log| {
        PushOwes(s, t, a, s');
      } else {
        EveryPushIsNotified(run, labels, j - 1, k);
        if !(exists i: nat :: i < j - 1 && NotifyOf(run, labels, i, k)) {
          var u :| 0 <= u < |s.threads| && OwesNotify(s.threads[u].pc, k);
          KeepsOwing(s, t, a, s', u, k);
          assert OwesNotify(s'.threads[u].pc, k) || NotifyOf(run, labels, j - 1, k);
        }
      }
    }
  }

  lemma FinalMessageReaches(run: seq<Monitor>, labels: seq<Label>, i: nat, j: nat, u: nat, k: nat)
    requires IsRun(run, labels) && i < j < |run|
    requires Quiescent(run[j]) && |run[j].log| == k + 1
    requires NotifyOf(run, labels, i, k)
    requires BlockedAt(run[i], u)
    ensures WroteSince(run[i], run[j], u, k + 1, run[j].log[k])
  {
    NextDeliveryIsAsNew(run, labels, i, j, u, k);
    ReachableInv(run, labels, j);
    var c, th := |run[i].threads[u].out|, run[j].threads[u];
    assert GoodThread(run[j].log, th);
    var d := th.out[|th.out| - 1];
    assert GoodDelivery(run[j].log, d);
    assert th.out[c].at <= d.at;
  }

  /** Nothing final is lost: once a channel is quiet, the last entry of its log has been
      announced, and every listener that was blocked at that announcement has written that
      entry as its latest message. */
  lemma NoLostFinalMessage(run: seq<Monitor>, labels: seq<Label>, j: nat, k: nat)
    requires IsRun(run, labels) && j < |run|
    requires Quiescent(run[j]) && |run[j].log| == k + 1
    ensures exists i: nat :: i < j && NotifyOf(run, labels, i, k)
    ensures forall i: nat, u: nat ::
      i < j && NotifyOf(run, labels, i, k) && BlockedAt(run[i], u) ==>
      WroteSince(run[i], run[j], u, k + 1, run[j].log[k])
  {
    EveryPushIsNotified(run, labels, j, k);
    forall i: nat, u: nat | i < j && NotifyOf(run, labels, i, k) && BlockedAt(run[i], u)
      ensures WroteSince(run[i], run[j], u, k + 1, run[j].log[k])
    {
      FinalMessageReaches(run, labels, i, j, u, k);
    }
  }

  // ---- Exactly who misses the last entry ----

  /** The thread has written, holds, or is about to read the whole log's last entry. */
  predicate Informed(s: Monitor, u: nat) {
    && u < |s.threads|
    && var th := s.threads[u];
       || th.pc.Woken? || th.pc.Relocked?
       || ((th.pc.WaitRead? || th.pc.Writing?) && th.pc.delivery.at == |s.log|)
       || (|th.out| > 0 && th.out[|th.out| - 1].at == |s.log|)
  }

  /** Neither a push nor a notify. */
  predicate Settling(s: Monitor, l: Label, s': Monitor) {
    |s'.log| == |s.log| && !l.action.NotifyAll?
  }

  predicate WakesByItself(l: Label, u: nat) {
    l.thread == u && l.action.WakeSpuriously?
  }

  /** What is held is at least as new as what was written, and not newer than the log. */
  predicate HeldIsNewest(th: Thread, n: nat) {
    (th.pc.WaitRead? || th.pc.Writing?) ==>
      th.pc.delivery.at <= n && (|th.out| > 0 ==> th.out[|th.out| - 1].at <= th.pc.delivery.at)
  }

  lemma OwnStepInforms(s: Monitor, u: nat, a: Action, s': Monitor)
    requires Step(s, u, a) == Some(s') && u < |s.threads| && HeldIsNewest(s.threads[u], |s.log|)
    requires |s'.log| == |s.log| && !a.NotifyAll? && !a.WakeSpuriously?
    ensures Informed(s', u) <==> Informed(s, u)
  {
    if a.Write? {
      var d, out := s.threads[u].pc.delivery, s.threads[u].out;
      assert s'.threads[u].out == out + [d];
    } else {
      assert s'.threads[u].out == s.threads[u].out;
    }
  }

  lemma OthersStepInforms(s: Monitor, t: nat, a: Action, s': Monitor, u: nat)
    requires Step(s, t, a) == Some(s') && u < |s.threads| && u != t
    requires |s'.log| == |s.log| && !a.NotifyAll?
    ensures Informed(s', u) <==> Informed(s, u)
  {
    hide Informed;
    assert |s'.threads| == |s.threads| && s'.threads[u] == s.threads[u];
    SameInformed(s, s', u);
  }

  lemma SameInformed(s: Monitor, s': Monitor, u: nat)
    requires u < |s.threads| == |s'.threads| && s'.threads[u] == s.threads[u]
    requires |s'.log| == |s.log|
    ensures Informed(s', u) <==> Informed(s, u)
  {
  }

  lemma InformedStep(s: Monitor, l: Label, s': Monitor, u: nat)
    requires Inv(s) && Step(s, l.thread, l.action) == Some(s') && u < |s.threads|
    requires Settling(s, l, s')
    ensures Informed(s', u) <==> Informed(s, u) || WakesByItself(l, u)
  {
    hide Step, Informed;
    if l.thread != u {
      OthersStepInforms(s, l.thread, l.action, s', u);
    } else if l.action.WakeSpuriously? {
      WakingInforms(s, u, s');
    } else {
      assert GoodThread(s.log, s.threads[u]) && HeldIsNewest(s.threads[u], |s.log|);
      OwnStepInforms(s, u, l.action, s');
    }
  }

  lemma WakingInforms(s: Monitor, u: nat, s': Monitor)
    requires Step(s, u, WakeSpuriously) == Some(s')
    ensures Informed(s', u)
  {
  }

  lemma {:induction false} InformedFrom(
    run: seq<Monitor>, labels: seq<Label>, i: nat, j: nat, u: nat)
    requires IsRun(run, labels) && i <= j < |run| && u < |run[i].threads|
    requires forall n: nat :: i <= n < j ==> Settling(run[n], labels[n], run[n + 1])
    ensures Informed(run[j], u) <==>
      Informed(run[i], u) || exists n: nat :: i <= n < j && WakesByItself(labels[n], u)
  {
    hide Step, Init, Inv, Informed, Settling, WakesByItself;
    if i == j {
    } else {
      InformedFrom(run, labels, i, j - 1, u);
      ReachableInv(run, labels, j - 1);
      RunGrows(run, labels, i, j - 1, u);
      InformedStep(run[j - 1], labels[j - 1], run[j], u);
    }
  }

  /** Nothing is pushed between the last notify_all and a quiet state. */
  lemma NoPushAfterLastNotify(run: seq<Monitor>, labels: seq<Label>, i: nat, j: nat)
    requires IsRun(run, labels) && i < j < |run| && Quiescent(run[j])
    requires forall n: nat :: i < n < j ==> !labels[n].action.NotifyAll?
    ensures |run[j].log| == |run[i].log|
  {
    hide Step, Init;
    CanStep(run, labels, i);
    RunGrows(run, labels, i, j, labels[i].thread);
    if |run[j].log| > 0 {
      var k := |run[j].log| - 1;
      EveryPushIsNotified(run, labels, j, k);
      var n: nat :| n < j && NotifyOf(run, labels, n, k);
      ReachableInv(run, labels, n);
      assert GoodThread(run[n].log, run[n].threads[labels[n].thread]);
      RunGrows(run, labels, n, i, labels[n].thread);
    }
  }

  lemma Settles(run: seq<Monitor>, labels: seq<Label>, i: nat, j: nat, n: nat)
    requires IsRun(run, labels) && i < n < j < |run| && |run[j].log| == |run[i].log|
    requires !labels[n].action.NotifyAll?
    ensures Settling(run[n], labels[n], run[n + 1])
  {
    hide Step, Init;
    CanStep(run, labels, i);
    RunGrows(run, labels, i, n, labels[i].thread);
    RunGrows(run, labels, n, n + 1, labels[i].thread);
    RunGrows(run, labels, n + 1, j, labels[i].thread);
  }

  /** After the last notify_all (step i) before a channel goes quiet at j, a listener ends with the
      last log entry as its latest message if and only if at that notify it was blocked, or had
      already read, or was already bound to read, that entry, or it was woken spuriously since. */
  lemma LastWordExactly(run: seq<Monitor>, labels: seq<Label>, i: nat, j: nat, u: nat)
    requires IsRun(run, labels) && i < j < |run| && u < |run[i].threads|
    requires labels[i].action.NotifyAll? && Quiescent(run[j])
    requires forall n: nat :: i < n < j ==> !labels[n].action.NotifyAll?
    ensures u < |run[j].threads| && |run[j].log| == |run[i].log| > 0
    ensures
      (|run[j].threads[u].out| > 0 &&
       run[j].threads[u].out[|run[j].threads[u].out| - 1].msg == run[j].log[|run[j].log| - 1] &&
       run[j].threads[u].out[|run[j].threads[u].out| - 1].at == |run[j].log|)
      <==>
      || BlockedAt(run[i], u) || Informed(run[i], u)
      || exists n: nat :: i < n < j && WakesByItself(labels[n], u)
  {
    hide Step, Init, Inv, Settling, Quiescent, Informed, WakesByItself;
    CanStep(run, labels, i);
    ReachableInv(run, labels, i);
    ReachableInv(run, labels, j);
    RunGrows(run, labels, i, j, u);
    RunGrows(run, labels, i, i + 1, u);
    NotifyInforms(run[i], labels[i].thread, run[i + 1], u);
    NoPushAfterLastNotify(run, labels, i, j);
    forall n: nat | i < n < j ensures Settling(run[n], labels[n], run[n + 1]) {
      Settles(run, labels, i, j, n);
    }
    InformedFrom(run, labels, i + 1, j, u);
    QuietAndInformed(run[j], u);
  }

  lemma NotifyInforms(s: Monitor, t: nat, s': Monitor, u: nat)
    requires Inv(s) && Step(s, t, NotifyAll) == Some(s') && u < |s.threads|
    ensures |s'.log| == |s.log| > 0
    ensures Informed(s', u) <==> BlockedAt(s, u) || Informed(s, u)
  {
    assert GoodThread(s.log, s.threads[t]);
  }

  /** In a quiet state, being informed means having written the last entry. */
  lemma QuietAndInformed(s: Monitor, u: nat)
    requires Inv(s) && Quiescent(s) && u < |s.threads|
    ensures Informed(s, u) <==>
      |s.threads[u].out| > 0 && s.threads[u].out[|s.threads[u].out| - 1].at == |s.log|
    ensures Informed(s, u) && |s.log| > 0 ==>
      s.threads[u].out[|s.threads[u].out| - 1].msg == s.log[|s.log| - 1]
  {
    assert GoodThread(s.log, s.threads[u]);
  }

  function Last(run: seq<Monitor>): Monitor
    requires |run| > 0
  {
    run[|run| - 1]
  }

  lemma Extend(run: seq<Monitor>, labels: seq<Label>, t: nat, a: Action)
    returns (run': seq<Monitor>, labels': seq<Label>)
    requires IsRun(run, labels) && Step(Last(run), t, a).Some?
    ensures IsRun(run', labels') && Some(Last(run')) == Step(Last(run), t, a)
  {
    run', labels' := run + [Step(Last(run), t, a).value], labels + [Label(t, a)];
  }

  /** Thread 0 appends m while nobody else moves. */
  lemma AppendAlone(run: seq<Monitor>, labels: seq<Label>, m: Message)
    returns (run': seq<Monitor>, labels': seq<Label>)
    requires IsRun(run, labels)
    requires |Last(run).threads| == 2 && Last(run).holder == None && Last(run).threads[0].pc == Idle
    ensures IsRun(run', labels')
    ensures Last(run').log == Last(run).log + [m] && Last(run').last == m
    ensures Last(run').holder == None && |Last(run').threads| == 2
    ensures Last(run').threads[0].pc == Idle && Last(run').threads[1] == Woke(Last(run).threads[1])
  {
    hide IsRun;
    run', labels' := PushAlone(run, labels, m);
    run', labels' := Extend(run', labels', 0, AssignLast);
    run', labels' := Extend(run', labels', 0, Unlock);
    run', labels' := Extend(run', labels', 0, NotifyAll);
  }

  lemma PushAlone(run: seq<Monitor>, labels: seq<Label>, m: Message)
    returns (run': seq<Monitor>, labels': seq<Label>)
    requires IsRun(run, labels)
    requires |Last(run).threads| == 2 && Last(run).holder == None && Last(run).threads[0].pc == Idle
    ensures IsRun(run', labels') && |Last(run').threads| == 2
    ensures Last(run').log == Last(run).log + [m]
    ensures Last(run').threads[0].pc == AppendPushed(m, |Last(run).log|)
    ensures Last(run').threads[1] == Last(run).threads[1]
  {
    hide IsRun;
    run', labels' := Extend(run, labels, 0, CallAppend(m));
    run', labels' := Extend(run', labels', 0, Acquire);
    run', labels' := Extend(run', labels', 0, PushBack);
  }

  ghost predicate OnlyListenerMoved(s: Monitor, s': Monitor) {
    && s'.holder == None && s'.log == s.log && s'.last == s.last
    && |s.threads| == |s'.threads| == 2 && s'.threads[0] == s.threads[0]
  }

  lemma ListenerBlocks(run: seq<Monitor>, labels: seq<Label>)
    returns (run': seq<Monitor>, labels': seq<Label>)
    requires IsRun(run, labels) && |Last(run).threads| == 2 && Last(run).holder == None
    requires Last(run).threads[1].pc == WaitEnter
    ensures IsRun(run', labels') && OnlyListenerMoved(Last(run), Last(run'))
    ensures Last(run').threads[1] == Last(run).threads[1].(pc := Waiting)
  {
    hide IsRun;
    run', labels' := Extend(run, labels, 1, Acquire);
    run', labels' := Extend(run', labels', 1, BlockOnCondition);
  }

  lemma ListenerReads(run: seq<Monitor>, labels: seq<Label>)
    returns (run': seq<Monitor>, labels': seq<Label>)
    requires IsRun(run, labels) && |Last(run).threads| == 2 && Last(run).holder == None
    requires Last(run).threads[1].pc.Woken?
    ensures IsRun(run', labels') && OnlyListenerMoved(Last(run), Last(run'))
    ensures Last(run').threads[1].pc.Writing?
    ensures Last(run').threads[1].pc.delivery.msg == Last(run).last
    ensures Last(run').threads[1].out == Last(run).threads[1].out
  {
    hide IsRun;
    run', labels' := Extend(run, labels, 1, Acquire);
    run', labels' := Extend(run', labels', 1, ReadLast);
    run', labels' := Extend(run', labels', 1, ReturnWait);
  }

  /** The condition above can fail: the second notify_all comes while the listener is still
      writing the first message, and the second message is never written. */
  lemma ListenerCanMissLastMessage(m1: Message, m2: Message)
    returns (run: seq<Monitor>, labels: seq<Label>)
    ensures IsRun(run, labels) && Quiescent(Last(run)) && Last(run).log == [m1, m2]
    ensures |Last(run).threads| == 2 && Last(run).threads[1].pc == Waiting
    ensures Written(Last(run).threads[1]) == [m1]
  {
    hide Step, Init;
    run, labels := ListenerStarts();
    run, labels := ListenerBlocks(run, labels);
    run, labels := AppendAlone(run, labels, m1);
    run, labels := ListenerReads(run, labels);
    run, labels := AppendAlone(run, labels, m2);
    run, labels := ListenerWrites(run, labels);
    run, labels := ListenerBlocks(run, labels);
  }

  lemma ListenerStarts() returns (run: seq<Monitor>, labels: seq<Label>)
    ensures IsRun(run, labels) && |Last(run).threads| == 2 && Last(run).holder == None
    ensures Last(run).threads[0].pc == Idle && Last(run).threads[1].pc == WaitEnter
    ensures Last(run).threads[1].out == [] && Last(run).log == []
  {
    var idle := Thread(Idle, [], 0, 0);
    run, labels := [Monitor(None, [], NO_MESSAGE, [idle, idle], [], 0)], [];
    run, labels := Extend(run, labels, 1, CallListen);
  }

  lemma ListenerWrites(run: seq<Monitor>, labels: seq<Label>)
    returns (run': seq<Monitor>, labels': seq<Label>)
    requires IsRun(run, labels) && |Last(run).threads| == 2 && Last(run).holder == None
    requires Last(run).threads[1].pc.Writing?
    ensures IsRun(run', labels') && OnlyListenerMoved(Last(run), Last(run'))
    ensures Last(run').threads[1].pc == WaitEnter
    ensures Last(run').threads[1].out ==
      Last(run).threads[1].out + [Last(run).threads[1].pc.delivery]
  {
    hide IsRun;
    run', labels' := Extend(run, labels, 1, Write);
  }

  // ---- The output stream ----

  function Written(th: Thread): (r: seq<Message>)
    ensures |r| == |th.out|
    ensures forall i :: 0 <= i < |r| ==> r[i] == th.out[i].msg
  {
    seq(|th.out|, i requires 0 <= i < |th.out| => th.out[i].msg)
  }

  /** Position n of idx is how long the log was when message n was read. */
  ghost predicate Stutters(written: seq<Message>, log: Log, idx: seq<nat>) {
    && |idx| == |written|
    && (forall i :: 0 <= i < |idx| ==> idx[i] <= |log| && written[i] == MessageAt(log, idx[i]))
    && (forall i, j :: 0 <= i < j < |idx| ==> idx[i] <= idx[j])
  }

  /** Without a spurious wake-up every delivery was caused by a notify. */
  predicate OnlyNotified(th: Thread) {
    th.spurious == 0 ==>
      && (forall i :: 0 <= i < |th.out| ==> th.out[i].cause == Notified)
      && (th.pc.Woken? || th.pc.Relocked? ==> th.pc.cause == Notified)
      && (th.pc.WaitRead? || th.pc.Writing? ==> th.pc.delivery.cause == Notified)
  }

  lemma CausesStep(s: Monitor, t: nat, a: Action, s': Monitor, u: nat)
    requires Step(s, t, a) == Some(s') && u < |s.threads| && OnlyNotified(s.threads[u])
    ensures u < |s'.threads| && OnlyNotified(s'.threads[u])
  {
  }

  lemma {:induction false} CausesAreCounted(run: seq<Monitor>, labels: seq<Label>, j: nat, u: nat)
    requires IsRun(run, labels) && j < |run| && u < |run[j].threads|
    ensures OnlyNotified(run[j].threads[u])
  {
    if j == 0 {
    } else {
      var s, t, a := run[j - 1], labels[j - 1].thread, labels[j - 1].action;
      assert Step(s, t, a) == Some(run[j]);
      StepGrows(s, t, a, run[j], t);
      CausesAreCounted(run, labels, j - 1, u);
      CausesStep(s, t, a, run[j], u);
    }
  }

  /** What a listener writes is a stuttering subsequence of the log; the default message can
      appear only at the front, and only if the listener was woken spuriously. */
  lemma OutputIsStutteringSubsequence(run: seq<Monitor>, labels: seq<Label>, j: nat, u: nat)
    returns (idx: seq<nat>)
    requires IsRun(run, labels) && j < |run| && u < |run[j].threads|
    ensures Stutters(Written(run[j].threads[u]), run[j].log, idx)
    ensures forall i :: 0 <= i < |idx| && idx[i] == 0 ==>
      run[j].threads[u].out[i].cause == Spurious && run[j].threads[u].spurious > 0
  {
    ReachableInv(run, labels, j);
    CausesAreCounted(run, labels, j, u);
    var th := run[j].threads[u];
    assert GoodThread(run[j].log, th);
    idx := seq(|th.out|, i requires 0 <= i < |th.out| => th.out[i].at);
  }

  // ---- Counting ----

  function CountUnnotified(threads: seq<Thread>): nat {
    if threads == [] then 0
    else CountUnnotified(threads[..|threads| - 1]) +
         if Unnotified(threads[|threads| - 1].pc) then 1 else 0
  }

  /** Counting depends only on who is between push and notify. */
  lemma {:induction false} SameCount(a: seq<Thread>, b: seq<Thread>)
    requires |a| == |b|
    requires forall i :: 0 <= i < |a| ==> (Unnotified(a[i].pc) <==> Unnotified(b[i].pc))
    ensures CountUnnotified(a) == CountUnnotified(b)
  {
    if a == [] {
    } else {
      SameCount(a[..|a| - 1], b[..|b| - 1]);
    }
  }

  lemma {:induction false} OneMore(a: seq<Thread>, b: seq<Thread>, t: nat)
    requires |a| == |b| && t < |a|
    requires forall i :: 0 <= i < |a| && i != t ==> (Unnotified(a[i].pc) <==> Unnotified(b[i].pc))
    requires !Unnotified(a[t].pc) && Unnotified(b[t].pc)
    ensures CountUnnotified(b) == CountUnnotified(a) + 1
  {
    if t == |a| - 1 {
      SameCount(a[..|a| - 1], b[..|b| - 1]);
    } else {
      OneMore(a[..|a| - 1], b[..|b| - 1], t);
    }
  }

  lemma {:induction false} NoneAtStart(threads: seq<Thread>)
    requires forall i :: 0 <= i < |threads| ==> threads[i].pc == Idle
    ensures CountUnnotified(threads) == 0
  {
    if threads == [] {
    } else {
      NoneAtStart(threads[..|threads| - 1]);
    }
  }

  predicate ListenerAccount(s: Monitor, th: Thread) {
    s.notifies + th.spurious == |th.out| + th.missed + (if Delivering(th.pc) then 1 else 0)
  }

  predicate Accounts(s: Monitor) {
    && |s.log| == s.notifies + CountUnnotified(s.threads)
    && forall u :: 0 <= u < |s.threads| ==> ListenerAccount(s, s.threads[u])
  }

  lemma SenderAccounts(s: Monitor, t: nat, a: Action, s': Monitor)
    requires Step(s, t, a) == Some(s') && |s.log| == s.notifies + CountUnnotified(s.threads)
    ensures |s'.log| == s'.notifies + CountUnnotified(s'.threads)
  {
    if a.PushBack? {
      OneMore(s.threads, s'.threads, t);
    } else if a.NotifyAll? {
      OneMore(s'.threads, s.threads, t);
    } else {
      SameCount(s.threads, s'.threads);
    }
  }

  lemma ListenerAccounts(s: Monitor, t: nat, a: Action, s': Monitor, u: nat)
    requires Step(s, t, a) == Some(s') && u < |s.threads| && ListenerAccount(s, s.threads[u])
    ensures u < |s'.threads| && ListenerAccount(s', s'.threads[u])
  {
  }

  lemma {:induction false} ReachableAccounts(run: seq<Monitor>, labels: seq<Label>, j: nat)
    requires IsRun(run, labels) && j < |run|
    ensures Accounts(run[j])
  {
    if j == 0 {
      NoneAtStart(run[0].threads);
    } else {
      var s, t, a := run[j - 1], labels[j - 1].thread, labels[j - 1].action;
      assert Step(s, t, a) == Some(run[j]);
      ReachableAccounts(run, labels, j - 1);
      SenderAccounts(s, t, a, run[j]);
      StepGrows(s, t, a, run[j], t);
      forall u: nat | u < |run[j].threads| ensures ListenerAccount(run[j], run[j].threads[u]) {
        ListenerAccounts(s, t, a, run[j], u);
      }
    }
  }

  /** The exact balance of pushes and deliveries for any listener, in any reachable state, and
      the bound it gives when no wake-up was spurious. */
  lemma DeliveryBound(run: seq<Monitor>, labels: seq<Label>, j: nat, u: nat)
    requires IsRun(run, labels) && j < |run| && u < |run[j].threads|
    ensures var s, th := run[j], run[j].threads[u];
      && |s.log| + th.spurious ==
           |th.out| + CountUnnotified(s.threads) + th.missed +
           (if Delivering(th.pc) then 1 else 0)
      && s.notifies <= |s.log|
      && (th.spurious == 0 ==> |th.out| <= s.notifies)
  {
    ReachableAccounts(run, labels, j);
  }
}
