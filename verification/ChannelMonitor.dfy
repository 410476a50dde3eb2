/** The per-channel broadcast monitor and the listener loop as a transition system.

    Any number of threads share one mutex, the log msgVector_, the copy lastMessage_ and one
    condition variable.  An idle thread may start appendMessage, lastMessage, getMessages or the
    listener loop; every later step is one lock, unlock, assignment, notify, wake-up or write.

    History only (no step reads it): Thread.out remembers for each written message how long the
    log was when it was read and what woke the listener; missed and spurious count notifies that
    did not find the thread waiting and wake-ups without a notify; snapshots and notifies record
    the results of getMessages and the notify_all calls. */
module ChannelMonitor {
  import opened Domain

  datatype Cause = Notified | Spurious

  datatype Delivery = Delivery(msg: Message, at: nat, cause: Cause)

  datatype Pc =
    | Idle
    // appendMessage
    | AppendEnter(msg: Message)                  // called, mutex not yet taken
    | AppendLocked(msg: Message)
    | AppendPushed(msg: Message, index: nat)     // in msgVector_, lastMessage_ still old
    | AppendAssigned(msg: Message, index: nat)
    | AppendUnlocked(msg: Message, index: nat)   // mutex released, notify_all still to come
    // lastMessage
    | LastEnter
    | LastLocked
    | LastRead(msg: Message)
    // getMessages
    | GetEnter
    | GetLocked
    | GetCopied(msgs: Log)
    // waitMessage, called by the listener loop
    | WaitEnter
    | WaitLocked
    | Waiting                                    // in the wait set
    | Woken(cause: Cause)                        // out of the wait set, mutex not yet retaken
    | Relocked(cause: Cause)
    | WaitRead(delivery: Delivery)
    | Writing(delivery: Delivery)                // waitMessage has returned, Write still to come

  datatype Thread = Thread(pc: Pc, out: seq<Delivery>, missed: nat, spurious: nat)

  datatype Monitor = Monitor(
    holder: Option<nat>, log: Log, last: Message, threads: seq<Thread>,
    snapshots: seq<Log>, notifies: nat)

  datatype Action =
    | CallAppend(msg: Message) | CallLast | CallGet | CallListen
    | Acquire | PushBack | AssignLast | Unlock | NotifyAll
    | CopyLast | CopyLog | Return
    | BlockOnCondition | WakeSpuriously | ReadLast | ReturnWait | Write

  predicate HoldsMutex(pc: Pc) {
    pc.AppendLocked? || pc.AppendPushed? || pc.AppendAssigned? || pc.LastLocked? || pc.LastRead? ||
    pc.GetLocked? || pc.GetCopied? || pc.WaitLocked? || pc.Relocked? || pc.WaitRead?
  }

  /** Where a thread waiting for the mutex continues once it has it. */
  function AfterAcquire(pc: Pc): Option<Pc> {
    match pc
    case AppendEnter(m) => Some(AppendLocked(m))
    case LastEnter => Some(LastLocked)
    case GetEnter => Some(GetLocked)
    case WaitEnter => Some(WaitLocked)
    case Woken(c) => Some(Relocked(c))
    case _ => None
  }

  function Woke(th: Thread): Thread {
    if th.pc.Waiting? then th.(pc := Woken(Notified)) else th.(missed := th.missed + 1)
  }

  function WakeAll(threads: seq<Thread>): (r: seq<Thread>)
    ensures |r| == |threads|
    ensures forall i :: 0 <= i < |r| ==> r[i] == Woke(threads[i])
  {
    seq(|threads|, i requires 0 <= i < |threads| => Woke(threads[i]))
  }

  function At(s: Monitor, t: nat, pc: Pc): (s': Monitor)
    requires t < |s.threads|
  {
    s.(threads := s.threads[t := s.threads[t].(pc := pc)])
  }

  /** One step of thread t, or None when t cannot take action a. */
  function Step(s: Monitor, t: nat, a: Action): Option<Monitor> {
    if t >= |s.threads| then None else
    var th := s.threads[t];
    match (th.pc, a)
    case (Idle, CallAppend(m)) => Some(At(s, t, AppendEnter(m)))
    case (Idle, CallLast) => Some(At(s, t, LastEnter))
    case (Idle, CallGet) => Some(At(s, t, GetEnter))
    case (Idle, CallListen) => Some(At(s, t, WaitEnter))
    case (pc, Acquire) =>
      if s.holder == None && AfterAcquire(pc).Some?
      then Some(At(s, t, AfterAcquire(pc).value).(holder := Some(t))) else None
    case (AppendLocked(m), PushBack) =>
      Some(At(s, t, AppendPushed(m, |s.log|)).(log := s.log + [m]))
    case (AppendPushed(m, k), AssignLast) => Some(At(s, t, AppendAssigned(m, k)).(last := m))
    case (AppendAssigned(m, k), Unlock) => Some(At(s, t, AppendUnlocked(m, k)).(holder := None))
    case (AppendUnlocked(_, _), NotifyAll) =>
      var woken := WakeAll(s.threads);
      Some(s.(threads := woken[t := woken[t].(pc := Idle)], notifies := s.notifies + 1))
    case (LastLocked, CopyLast) => Some(At(s, t, LastRead(s.last)))
    case (LastRead(_), Return) => Some(At(s, t, Idle).(holder := None))
    case (GetLocked, CopyLog) =>
      Some(At(s, t, GetCopied(s.log)).(snapshots := s.snapshots + [s.log]))
    case (GetCopied(_), Return) => Some(At(s, t, Idle).(holder := None))
    case (WaitLocked, BlockOnCondition) => Some(At(s, t, Waiting).(holder := None))
    case (Waiting, WakeSpuriously) =>
      var woken := th.(pc := Woken(Spurious), spurious := th.spurious + 1);
      Some(s.(threads := s.threads[t := woken]))
    case (Relocked(c), ReadLast) => Some(At(s, t, WaitRead(Delivery(s.last, |s.log|, c))))
    case (WaitRead(d), ReturnWait) => Some(At(s, t, Writing(d)).(holder := None))
    case (Writing(d), Write) =>
      Some(s.(threads := s.threads[t := th.(pc := WaitEnter, out := th.out + [d])]))
    case _ => None
  }

  predicate Init(s: Monitor) {
    && s.holder == None && s.log == [] && s.last == NO_MESSAGE
    && s.snapshots == [] && s.notifies == 0
    && forall t :: 0 <= t < |s.threads| ==> s.threads[t] == Thread(Idle, [], 0, 0)
  }

  datatype Label = Label(thread: nat, action: Action)

  /** A finite run: labels[i] takes run[i] to run[i + 1]. */
  ghost predicate IsRun(run: seq<Monitor>, labels: seq<Label>) {
    && |run| == |labels| + 1
    && Init(run[0])
    && forall i :: 0 <= i < |labels| ==> Step(run[i], labels[i].thread, labels[i].action) == Some(run[i + 1])
  }

  // ---- The invariant of every reachable state ----

  predicate GoodDelivery(log: Log, d: Delivery) {
    && d.at <= |log|
    && d.msg == MessageAt(log, d.at)
    && (d.at == 0 ==> d.cause == Spurious)
  }

  predicate GoodPc(log: Log, out: seq<Delivery>, pc: Pc) {
    match pc
    case AppendPushed(m, k) => k + 1 == |log| && log[k] == m
    case AppendAssigned(m, k) => k + 1 == |log| && log[k] == m
    case AppendUnlocked(m, k) => k < |log| && log[k] == m
    case LastRead(m) => m == MessageAt(log, |log|)
    case GetCopied(ms) => ms == log
    case Woken(c) => c == Notified ==> |log| > 0
    case Relocked(c) => c == Notified ==> |log| > 0
    case WaitRead(d) => GoodDelivery(log, d) && forall i :: 0 <= i < |out| ==> out[i].at <= d.at
    case Writing(d) => GoodDelivery(log, d) && forall i :: 0 <= i < |out| ==> out[i].at <= d.at
    case _ => true
  }

  predicate GoodThread(log: Log, th: Thread) {
    && GoodPc(log, th.out, th.pc)
    && (forall i :: 0 <= i < |th.out| ==> GoodDelivery(log, th.out[i]))
    && (forall i, j :: 0 <= i < j < |th.out| ==> th.out[i].at <= th.out[j].at)
  }

  /** The one moment at which lastMessage_ lags behind the log. */
  predicate MidAppend(s: Monitor) {
    s.holder.Some? && s.holder.value < |s.threads| && s.threads[s.holder.value].pc.AppendPushed?
  }

  predicate GoodLast(s: Monitor) {
    if MidAppend(s) then |s.log| > 0 && s.last == MessageAt(s.log, |s.log| - 1)
    else s.last == MessageAt(s.log, |s.log|)
  }

  predicate GoodSnapshots(s: Monitor) {
    && (forall i :: 0 <= i < |s.snapshots| ==> s.snapshots[i] <= s.log)
    && (forall i, j :: 0 <= i < j < |s.snapshots| ==> s.snapshots[i] <= s.snapshots[j])
  }

  predicate GoodMutex(s: Monitor) {
    && (s.holder.Some? ==> s.holder.value < |s.threads|)
    && forall t :: 0 <= t < |s.threads| ==> (HoldsMutex(s.threads[t].pc) <==> s.holder == Some(t))
  }

  predicate GoodThreads(s: Monitor) {
    forall t :: 0 <= t < |s.threads| ==> GoodThread(s.log, s.threads[t])
  }

  predicate Inv(s: Monitor) {
    GoodMutex(s) && GoodLast(s) && GoodSnapshots(s) && GoodThreads(s)
  }

  // ---- Preservation, one part of the invariant at a time ----

  lemma MutexStep(s: Monitor, t: nat, a: Action, s': Monitor)
    requires GoodMutex(s) && Step(s, t, a) == Some(s')
    ensures GoodMutex(s')
  {
  }

  lemma LastStep(s: Monitor, t: nat, a: Action, s': Monitor)
    requires GoodMutex(s) && GoodMutex(s') && GoodLast(s) && Step(s, t, a) == Some(s')
    requires s.threads[t].pc.AppendPushed? ==>
      |s.log| > 0 && s.log[|s.log| - 1] == s.threads[t].pc.msg
    ensures GoodLast(s')
  {
    assert HoldsMutex(s.threads[t].pc) <==> s.holder == Some(t);
  }

  lemma SnapshotsStep(s: Monitor, t: nat, a: Action, s': Monitor)
    requires GoodSnapshots(s) && Step(s, t, a) == Some(s')
    ensures GoodSnapshots(s')
  {
  }

  /** A thread that does not hold the mutex is not disturbed by a push. */
  lemma PushKeepsThread(log: Log, m: Message, th: Thread)
    requires GoodThread(log, th) && !HoldsMutex(th.pc)
    ensures GoodThread(log + [m], th)
  {
  }

  /** Steps of appendMessage, and of the listener; the rest are calls and reads. */
  predicate OfAppend(a: Action) {
    a.PushBack? || a.AssignLast? || a.Unlock? || a.NotifyAll?
  }

  predicate OfListener(a: Action) {
    a.BlockOnCondition? || a.WakeSpuriously? || a.ReadLast? || a.ReturnWait? || a.Write?
  }

  /** A thread that reads lastMessage_ under the mutex reads the last entry. */
  lemma ReaderSeesLast(s: Monitor, t: nat)
    requires GoodMutex(s) && GoodLast(s) && t < |s.threads|
    requires HoldsMutex(s.threads[t].pc)
    ensures !s.threads[t].pc.AppendPushed? ==> s.last == MessageAt(s.log, |s.log|)
  {
  }

  lemma SenderStaysGood(s: Monitor, t: nat, a: Action, s': Monitor)
    requires t < |s.threads| && GoodThread(s.log, s.threads[t])
    requires OfAppend(a) && Step(s, t, a) == Some(s')
    ensures GoodThread(s'.log, s'.threads[t])
  {
  }

  lemma ListenerStaysGood(s: Monitor, t: nat, a: Action, s': Monitor)
    requires t < |s.threads| && GoodThread(s.log, s.threads[t])
    requires s.threads[t].pc.Relocked? ==> s.last == MessageAt(s.log, |s.log|)
    requires OfListener(a) && Step(s, t, a) == Some(s')
    ensures GoodThread(s'.log, s'.threads[t])
  {
  }

  lemma ReaderStaysGood(s: Monitor, t: nat, a: Action, s': Monitor)
    requires t < |s.threads| && GoodThread(s.log, s.threads[t])
    requires s.threads[t].pc.LastLocked? ==> s.last == MessageAt(s.log, |s.log|)
    requires !OfAppend(a) && !OfListener(a) && Step(s, t, a) == Some(s')
    ensures GoodThread(s'.log, s'.threads[t])
  {
  }

  lemma ActorStaysGood(s: Monitor, t: nat, a: Action, s': Monitor)
    requires Inv(s) && t < |s.threads| && Step(s, t, a) == Some(s')
    ensures t < |s'.threads| && GoodThread(s'.log, s'.threads[t])
  {
    hide Step, GoodThread, GoodSnapshots;
    assert GoodThread(s.log, s.threads[t]);
    if HoldsMutex(s.threads[t].pc) {
      ReaderSeesLast(s, t);
    }
    SameThreads(s, t, a, s');
    if OfAppend(a) {
      SenderStaysGood(s, t, a, s');
    } else if OfListener(a) {
      ListenerStaysGood(s, t, a, s');
    } else {
      ReaderStaysGood(s, t, a, s');
    }
  }

  lemma SameThreads(s: Monitor, t: nat, a: Action, s': Monitor)
    requires Step(s, t, a) == Some(s')
    ensures t < |s.threads| == |s'.threads|
  {
  }

  lemma ThreadsStep(s: Monitor, t: nat, a: Action, s': Monitor)
    requires Inv(s) && Step(s, t, a) == Some(s')
    ensures GoodThreads(s')
  {
    hide GoodLast, GoodSnapshots, Step;
    SameThreads(s, t, a, s');
    ActorStaysGood(s, t, a, s');
    forall u: nat | u < |s'.threads| && u != t ensures GoodThread(s'.log, s'.threads[u]) {
      assert GoodThread(s.log, s.threads[u]) && GoodThread(s.log, s.threads[t]);
      OtherStaysGood(s, t, a, s', u);
    }
  }

  lemma OtherStaysGood(s: Monitor, t: nat, a: Action, s': Monitor, u: nat)
    requires GoodMutex(s) && Step(s, t, a) == Some(s') && u < |s.threads| && u != t
    requires GoodThread(s.log, s.threads[u]) && GoodThread(s.log, s.threads[t])
    ensures u < |s'.threads| && GoodThread(s'.log, s'.threads[u])
  {
    if a.PushBack? {
      assert HoldsMutex(s.threads[u].pc) <==> s.holder == Some(u);
      assert HoldsMutex(s.threads[t].pc) <==> s.holder == Some(t);
      PushKeepsThread(s.log, s.threads[t].pc.msg, s.threads[u]);
    }
  }

  lemma InvStep(s: Monitor, t: nat, a: Action, s': Monitor)
    requires Inv(s) && Step(s, t, a) == Some(s')
    ensures Inv(s')
  {
    hide Step, GoodLast, GoodSnapshots;
    SameThreads(s, t, a, s');
    assert GoodThread(s.log, s.threads[t]);
    MutexStep(s, t, a, s');
    LastStep(s, t, a, s');
    SnapshotsStep(s, t, a, s');
    ThreadsStep(s, t, a, s');
  }

  lemma InvInit(s: Monitor)
    requires Init(s)
    ensures Inv(s)
  {
  }

  lemma {:induction false} ReachableInv(run: seq<Monitor>, labels: seq<Label>, i: nat)
    requires IsRun(run, labels) && i < |run|
    ensures Inv(run[i])
  {
    hide Step, Inv;
    if i == 0 {
      InvInit(run[0]);
    } else {
      ReachableInv(run, labels, i - 1);
      InvStep(run[i - 1], labels[i - 1].thread, labels[i - 1].action, run[i]);
    }
  }
}
