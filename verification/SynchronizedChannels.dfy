/** SynchronizedChannel as a class: what each method does inside its critical section.  The
    interleaving of those sections is in ChannelMonitor. */
module SynchronizedChannels {
  import opened Domain

  /** operator< of std::string: lexicographic on the characters. */
  predicate NameLess(a: string, b: string) {
    b != [] && (a == [] || a[0] < b[0] || (a[0] == b[0] && NameLess(a[1..], b[1..])))
  }

  lemma {:induction false} NameLessTransitive(a: string, b: string, c: string)
    requires NameLess(a, b) && NameLess(b, c)
    ensures NameLess(a, c)
  {
    if a == [] || !(a[0] == b[0] == c[0]) {
    } else {
      NameLessTransitive(a[1..], b[1..], c[1..]);
    }
  }

  /** Exactly one of less, equal and greater holds. */
  lemma {:induction false} NameLessTotal(a: string, b: string)
    ensures NameLess(a, b) ==> a != b && !NameLess(b, a)
    ensures NameLess(a, b) || a == b || NameLess(b, a)
  {
    if a == [] || b == [] || a[0] != b[0] {
    } else {
      NameLessTotal(a[1..], b[1..]);
      assert a == [a[0]] + a[1..] && b == [b[0]] + b[1..];
    }
  }

  /** The two names agree up to position k, where a ends or has the smaller character. */
  predicate DecidesAt(a: string, b: string, k: nat) {
    && k <= |a| && k < |b|
    && (forall i :: 0 <= i < k ==> a[i] == b[i])
    && (k == |a| || a[k] < b[k])
  }

  lemma {:induction false} NameLessMeans(a: string, b: string)
    ensures NameLess(a, b) <==> exists k: nat :: DecidesAt(a, b, k)
  {
    if a == [] || b == [] {
      assert b != [] ==> DecidesAt(a, b, 0);
    } else if a[0] != b[0] {
      assert a[0] < b[0] ==> DecidesAt(a, b, 0);
    } else {
      NameLessMeans(a[1..], b[1..]);
      if k: nat :| DecidesAt(a[1..], b[1..], k) {
        ShiftDecision(a, b, k);
      }
      if k: nat :| DecidesAt(a, b, k) {
        assert k > 0 && DecidesAt(a[1..], b[1..], k - 1);
      }
    }
  }

  lemma ShiftDecision(a: string, b: string, k: nat)
    requires a != [] && b != [] && a[0] == b[0] && DecidesAt(a[1..], b[1..], k)
    ensures DecidesAt(a, b, k + 1)
  {
    forall i | 0 <= i < k + 1 ensures a[i] == b[i] {
      if i > 0 {
        assert a[i] == a[1..][i - 1] && b[i] == b[1..][i - 1];
      }
    }
  }

  class SynchronizedChannel {
    const id: int
    const name: string
    var lastMessage: Message
    var msgVector: seq<Message>

    /** Holds whenever the mutex is free. */
    ghost predicate Valid()
      reads this
    {
      lastMessage == MessageAt(msgVector, |msgVector|)
    }

    constructor (channelId: int, channelName: string)
      ensures Valid() && id == channelId && name == channelName && msgVector == []
    {
      id, name := channelId, channelName;
      lastMessage, msgVector := NO_MESSAGE, [];
    }

    method AppendMessage(msg: Message)
      requires Valid()
      modifies this
      ensures Valid() && msgVector == old(msgVector) + [msg]
    {
      msgVector := msgVector + [msg];
      lastMessage := msg;
    }

    method LastMessage() returns (m: Message)
      requires Valid()
      ensures msgVector == [] ==> m == Message("", "", 0, 0, 0, false, false, "", 0, 0)
      ensures msgVector != [] ==> m == msgVector[|msgVector| - 1]
    {
      m := lastMessage;
    }

    method GetMessages() returns (ms: seq<Message>)
      requires Valid()
      ensures ms == msgVector && MessageAt(ms, |ms|) == lastMessage
    {
      ms := msgVector;
    }

    predicate SameAs(other: SynchronizedChannel) {
      other.name == name
    }

    predicate Before(other: SynchronizedChannel) {
      NameLess(name, other.name)
    }
  }

  /** The two channel operators form a strict total order consistent with equality. */
  lemma ChannelOrder(a: SynchronizedChannel, b: SynchronizedChannel, c: SynchronizedChannel)
    ensures a.Before(b) ==> !a.SameAs(b) && !b.Before(a)
    ensures a.Before(b) || a.SameAs(b) || b.Before(a)
    ensures a.Before(b) && b.Before(c) ==> a.Before(c)
  {
    NameLessTotal(a.name, b.name);
    if a.Before(b) && b.Before(c) {
      NameLessTransitive(a.name, b.name, c.name);
    }
  }
}
