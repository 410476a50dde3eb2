/** Address bans under interleaving: exactly when isUserBanned has its insert into banned_ips
    refused by the unique constraint. */
module AddressRaces {
  import opened Domain
  import opened Tables
  import opened Interleaving
  import opened BanRaces
  import B = Bans
  import R = BanReaders

  /** An isUserBanned call whose next statement inserts an address stored as k. */
  predicate Records(c: Call, k: string) {
    c.Asking? && c.ask.Recording? && Varchar(50, c.ask.ip) == Some(k)
  }

  predicate NoTwoRecording(calls: seq<Call>, k: string) {
    forall t, u :: 0 <= t < u < |calls| ==> !(Records(calls[t], k) && Records(calls[u], k))
  }

  /** While a call is about to insert address k as it is, the address has no row. */
  predicate Free(w: World, k: string) {
    forall t :: 0 <= t < |w.calls| && Records(w.calls[t], k) && w.calls[t].ask.ip == k ==>
      FindIpBan(w.db, k).None?
  }

  /** What one step can do to the rows of banned_ips. */
  lemma AddressesByKind(w: World, c: Call, e: Env)
    requires Run1(w, c, e).Some?
    ensures var rows := Run1(w, c, e).value.db.ipBans;
      || rows == w.db.ipBans
      || (c.Asking? && c.ask.IpExpired? && rows == DropIpBans(w.db.ipBans, c.ask.ip))
      || (c.Asking? && c.ask.Recording? && Varchar(50, c.ask.ip).Some? && rows == w.db.ipBans +
            [IpBan(w.db.nextIpBan, Varchar(50, c.ask.ip).value, c.ask.expire)])
  {
    hide BanExpiry, IpExpiry, Varchar, FindUser, FindIpBan, B.BanSpan;
    if e.lost && Queries(c) {
    } else if c.Asking? {
    } else if OnCreate(w, c, e).Some? {
      CreateLeavesAddresses(w, c, e);
    } else if OnSend(w, c, e).Some? {
      SendLeavesAddresses(w, c, e);
    } else {
      BanLeavesAddresses(w, c, e);
    }
  }

  lemma CreateLeavesAddresses(w: World, c: Call, e: Env)
    requires OnCreate(w, c, e).Some?
    ensures OnCreate(w, c, e).value.db.ipBans == w.db.ipBans
  {
  }

  lemma SendLeavesAddresses(w: World, c: Call, e: Env)
    requires OnSend(w, c, e).Some?
    ensures OnSend(w, c, e).value.db.ipBans == w.db.ipBans
  {
  }

  lemma BanLeavesAddresses(w: World, c: Call, e: Env)
    requires OnBan(w, c, e).Some?
    ensures OnBan(w, c, e).value.db.ipBans == w.db.ipBans
  {
    hide B.BanSpan;
  }

  /** A call comes to record an address only when the address has no row. */
  lemma RecordingByKind(w: World, c: Call, e: Env, k: string)
    requires Run1(w, c, e).Some?
    ensures var x := Run1(w, c, e).value;
      Records(x.call, k) && x.call.ask.ip == k ==>
        FindIpBan(x.db, k).None? && c.Asking? && !c.ask.Recording?
  {
    hide BanExpiry, FindUser, Varchar, DropIpBans, InsertIpBan;
    if c.Asking? {
    } else {
      OnlyReadersAsk(w, c, e);
    }
  }

  /** A row for k appears only through a call that records k. */
  lemma StaysWithoutRow(w: World, c: Call, e: Env, k: string)
    requires Run1(w, c, e).Some? && FindIpBan(w.db, k).None? && !Records(c, k)
    ensures FindIpBan(Run1(w, c, e).value.db, k).None?
  {
    hide Run1, Varchar;
    AddressesByKind(w, c, e);
  }

  lemma FreeStep(w: World, t: nat, e: Env, w': World, k: string)
    requires Step(w, t, e) == Some(w') && Free(w, k) && NoTwoRecording(w.calls, k)
    ensures Free(w', k)
  {
    hide Run1, FindIpBan, Varchar;
    var c := w.calls[t];
    RecordingByKind(w, c, e, k);
    forall u | 0 <= u < |w'.calls| && Records(w'.calls[u], k) && w'.calls[u].ask.ip == k
      ensures FindIpBan(w'.db, k).None?
    {
      if u != t {
        assert w'.calls[u] == w.calls[u] && !Records(c, k);
        StaysWithoutRow(w, c, e, k);
      }
    }
  }

  lemma FreeAtStart(w: World, k: string)
    requires Init(w)
    ensures Free(w, k)
  {
  }

  lemma {:induction false} FreeUnlessTwoRecord(run: seq<World>, labels: seq<Label>, i: nat, k: string)
    requires IsRun(run, labels) && i < |run|
    requires forall j :: 0 <= j < i ==> NoTwoRecording(run[j].calls, k)
    ensures Free(run[i], k)
  {
    hide Step, Free, NoTwoRecording;
    if i == 0 {
      FreeAtStart(run[0], k);
    } else {
      FreeUnlessTwoRecord(run, labels, i - 1, k);
      StepOf(run, labels, i - 1);
      FreeStep(run[i - 1], labels[i - 1].call, labels[i - 1].env, run[i], k);
    }
  }

  /** An insert stored as k, trimmed or not, is accepted exactly when k has no row; otherwise the
      call throws. */
  lemma AcceptedExactly(w: World, t: nat, k: string, e: Env)
    requires t < |w.calls| && Records(w.calls[t], k) && !e.lost
    ensures var w' := Step(w, t, e);
      && w'.Some? && FindIpBan(w'.value.db, k).Some?
      && w'.value.calls[t] ==
           Asking(if FindIpBan(w.db, k).None? then R.Answered(true) else R.Threw)
  {
    hide Varchar;
    var w' := Step(w, t, e).value;
    if FindIpBan(w.db, k).None? {
      var row := IpBan(w.db.nextIpBan, k, w.calls[t].ask.expire);
      assert w'.db.ipBans == w.db.ipBans + [row];
      assert row in w'.db.ipBans;
    } else {
      assert w'.db.ipBans == w.db.ipBans;
    }
  }

  /** In every run: as long as no two isUserBanned calls are both about to insert k, the insert of
      an address that fits its column succeeds if it reaches the database. */
  lemma InsertSucceeds(run: seq<World>, labels: seq<Label>, i: nat, t: nat, k: string, e: Env)
    requires IsRun(run, labels) && i < |run| && t < |run[i].calls| && !e.lost
    requires forall j :: 0 <= j < i ==> NoTwoRecording(run[j].calls, k)
    requires Records(run[i].calls[t], k) && run[i].calls[t].ask.ip == k
    ensures var w' := Step(run[i], t, e);
      w'.Some? && w'.value.calls[t] == Asking(R.Answered(true)) && FindIpBan(w'.value.db, k).Some?
  {
    hide IsRun, NoTwoRecording, Step;
    FreeUnlessTwoRecord(run, labels, i, k);
    AcceptedExactly(run[i], t, k, e);
  }

  /** Conversely, in any state with two such calls, whichever runs second after the first throws. */
  lemma SecondInsertThrows(w: World, t: nat, u: nat, k: string, e: Env, e': Env)
    requires t < |w.calls| && u < |w.calls| && t != u && !e.lost && !e'.lost
    requires Records(w.calls[t], k) && Records(w.calls[u], k)
    ensures var w1 := Step(w, t, e);
      w1.Some? && Step(w1.value, u, e').Some? &&
      Step(w1.value, u, e').value.calls[u] == Asking(R.Threw)
  {
    hide Varchar, FindIpBan;
    AcceptedExactly(w, t, k, e);
    var w1 := Step(w, t, e).value;
    assert w1.calls[u] == w.calls[u];
    AcceptedExactly(w1, u, k, e');
  }
}
