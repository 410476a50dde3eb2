/** The monitor is linearizable: every run of ChannelMonitor is, seen through Abs, a run of an
    atomic append-only log on which each call takes effect in one step between its start and
    its return. */
module LinearLog {
  import opened Domain
  import opened ChannelMonitor
  import opened Deliveries

  datatype Op = Append(msg: Message) | LastMessage | GetMessages | WaitMessage

  datatype Answer = Nothing | One(msg: Message) | All(msgs: Log)

  datatype Call = Quiet | Called(op: Op) | Answered(op: Op, answer: Answer)

  datatype AtomicLog = AtomicLog(log: Log, calls: seq<Call>)

  /** What a caller can observe of a step; Silent and Committed are internal. */
  datatype Event = Invoked(op: Op) | Committed | Returned(answer: Answer) | Silent

  /** The sequential meaning of each operation: the new log and the answer. */
  function Meaning(log: Log, op: Op): (Log, Answer) {
    match op
    case Append(m) => (log + [m], Nothing)
    case LastMessage => (log, One(MessageAt(log, |log|)))
    case GetMessages => (log, All(log))
    case WaitMessage => (log, One(MessageAt(log, |log|)))
  }

  /** What one event does to the log and to the call of the thread that takes it. */
  predicate CallStep(log: Log, call: Call, e: Event, log': Log, call': Call) {
    match e
    case Invoked(op) => call == Quiet && call' == Called(op) && log' == log
    case Committed =>
      call.Called? && (log', call') ==
        (Meaning(log, call.op).0, Answered(call.op, Meaning(log, call.op).1))
    case Returned(answer) =>
      call.Answered? && call.answer == answer && call' == Quiet && log' == log
    case Silent => call' == call && log' == log
  }

  predicate AtomicStep(x: AtomicLog, t: nat, e: Event, x': AtomicLog) {
    && t < |x.calls| == |x'.calls|
    && CallStep(x.log, x.calls[t], e, x'.log, x'.calls[t])
    && x'.calls == x.calls[t := x'.calls[t]]
  }

  // ---- The abstraction ----

  function CallOf(pc: Pc): Call {
    match pc
    case AppendEnter(m) => Called(Append(m))
    case AppendLocked(m) => Called(Append(m))
    case AppendPushed(m, _) => Answered(Append(m), Nothing)
    case AppendAssigned(m, _) => Answered(Append(m), Nothing)
    case AppendUnlocked(m, _) => Answered(Append(m), Nothing)
    case LastEnter => Called(LastMessage)
    case LastLocked => Called(LastMessage)
    case LastRead(m) => Answered(LastMessage, One(m))
    case GetEnter => Called(GetMessages)
    case GetLocked => Called(GetMessages)
    case GetCopied(ms) => Answered(GetMessages, All(ms))
    case WaitEnter => Called(WaitMessage)
    case WaitLocked => Called(WaitMessage)
    case Waiting => Called(WaitMessage)
    case Woken(_) => Called(WaitMessage)
    case Relocked(_) => Called(WaitMessage)
    case WaitRead(d) => Answered(WaitMessage, One(d.msg))
    case Writing(_) => Quiet
    case Idle => Quiet
  }

  function Abs(s: Monitor): (x: AtomicLog)
    ensures x.log == s.log && |x.calls| == |s.threads|
    ensures forall t :: 0 <= t < |x.calls| ==> x.calls[t] == CallOf(s.threads[t].pc)
  {
    AtomicLog(s.log, seq(|s.threads|, t requires 0 <= t < |s.threads| => CallOf(s.threads[t].pc)))
  }

  /** The event a step shows to its caller. */
  function EventOf(s: Monitor, l: Label): Event
    requires l.thread < |s.threads|
  {
    match l.action
    case CallAppend(m) => Invoked(Append(m))
    case CallLast => Invoked(LastMessage)
    case CallGet => Invoked(GetMessages)
    case CallListen => Invoked(WaitMessage)
    case Write => Invoked(WaitMessage)            // the listener loop calls waitMessage again
    case PushBack => Committed
    case CopyLast => Committed
    case CopyLog => Committed
    case ReadLast => Committed
    case NotifyAll => Returned(Nothing)
    case Return => (match s.threads[l.thread].pc
      case LastRead(m) => Returned(One(m))
      case GetCopied(ms) => Returned(All(ms))
      case _ => Silent)
    case ReturnWait => (match s.threads[l.thread].pc
      case WaitRead(d) => Returned(One(d.msg))
      case _ => Silent)
    case _ => Silent
  }

  /** The step, seen by its own thread. */
  predicate ActorStep(s: Monitor, l: Label, s': Monitor)
    requires l.thread < |s.threads| && l.thread < |s'.threads|
  {
    CallStep(s.log, CallOf(s.threads[l.thread].pc), EventOf(s, l),
             s'.log, CallOf(s'.threads[l.thread].pc))
  }

  lemma SenderIsAtomic(s: Monitor, l: Label, s': Monitor)
    requires OfAppend(l.action) && Step(s, l.thread, l.action) == Some(s')
    ensures ActorStep(s, l, s')
  {
  }

  lemma ListenerIsAtomic(s: Monitor, l: Label, s': Monitor)
    requires OfListener(l.action) && Step(s, l.thread, l.action) == Some(s')
    requires s.threads[l.thread].pc.Relocked? ==> s.last == MessageAt(s.log, |s.log|)
    ensures ActorStep(s, l, s')
  {
  }

  lemma ReaderIsAtomic(s: Monitor, l: Label, s': Monitor)
    requires !OfAppend(l.action) && !OfListener(l.action)
    requires Step(s, l.thread, l.action) == Some(s')
    requires s.threads[l.thread].pc.LastLocked? ==> s.last == MessageAt(s.log, |s.log|)
    ensures ActorStep(s, l, s')
  {
  }

  lemma ActorIsAtomic(s: Monitor, l: Label, s': Monitor)
    requires GoodMutex(s) && GoodLast(s) && l.thread < |s.threads|
    requires Step(s, l.thread, l.action) == Some(s')
    ensures l.thread < |s'.threads| && ActorStep(s, l, s')
  {
    hide Step, ActorStep;
    SameThreads(s, l.thread, l.action, s');
    if HoldsMutex(s.threads[l.thread].pc) {
      ReaderSeesLast(s, l.thread);
    }
    if OfAppend(l.action) {
      SenderIsAtomic(s, l, s');
    } else if OfListener(l.action) {
      ListenerIsAtomic(s, l, s');
    } else {
      ReaderIsAtomic(s, l, s');
    }
  }

  lemma OthersAreSilent(s: Monitor, l: Label, s': Monitor, u: nat)
    requires Step(s, l.thread, l.action) == Some(s') && u < |s.threads| && u != l.thread
    ensures |s'.threads| == |s.threads| && CallOf(s'.threads[u].pc) == CallOf(s.threads[u].pc)
  {
  }

  lemma StepIsAtomic(s: Monitor, l: Label, s': Monitor)
    requires Inv(s) && Step(s, l.thread, l.action) == Some(s')
    ensures l.thread < |s.threads|
    ensures AtomicStep(Abs(s), l.thread, EventOf(s, l), Abs(s'))
  {
    ActorIsAtomic(s, l, s');
    forall u: nat | u < |s.threads| && u != l.thread
      ensures |s'.threads| == |s.threads| && CallOf(s'.threads[u].pc) == CallOf(s.threads[u].pc)
    {
      OthersAreSilent(s, l, s', u);
    }
    StepGrows(s, l.thread, l.action, s', l.thread);
  }

  /** Every run refines the atomic log, step by step, with the same invocations and answers. */
  lemma MonitorIsLinearizable(run: seq<Monitor>, labels: seq<Label>)
    requires IsRun(run, labels)
    ensures Abs(run[0]).log == [] && forall c :: c in Abs(run[0]).calls ==> c == Quiet
    ensures forall i :: 0 <= i < |labels| ==>
      && labels[i].thread < |run[i].threads|
      && AtomicStep(Abs(run[i]), labels[i].thread, EventOf(run[i], labels[i]), Abs(run[i + 1]))
  {
    hide Step, Inv;
    forall i | 0 <= i < |labels|
      ensures labels[i].thread < |run[i].threads|
      ensures AtomicStep(Abs(run[i]), labels[i].thread, EventOf(run[i], labels[i]), Abs(run[i + 1]))
    {
      CanStep(run, labels, i);
      ReachableInv(run, labels, i);
      StepIsAtomic(run[i], labels[i], run[i + 1]);
    }
  }

  /** What the mutex protects: lastMessage_ is the last entry whenever the mutex is free, and
      any two results of getMessages, taken at any two moments, are ordered by prefix. */
  lemma FreeMutexAndSnapshots(run: seq<Monitor>, labels: seq<Label>, i: nat, j: nat)
    requires IsRun(run, labels) && i <= j < |run|
    ensures run[i].holder == None ==> run[i].last == MessageAt(run[i].log, |run[i].log|)
    ensures run[i].snapshots <= run[j].snapshots && run[i].log <= run[j].log
    ensures forall a, b :: 0 <= a < b < |run[j].snapshots| ==>
      run[j].snapshots[a] <= run[j].snapshots[b] <= run[j].log
  {
    ReachableInv(run, labels, i);
    ReachableInv(run, labels, j);
    if i < j {
      CanStep(run, labels, i);
      RunGrows(run, labels, i, j, labels[i].thread);
    }
  }
}
