/**
  The beamforming sounding scheduler: a period sounds the listed single-user beamformees one
  after the other, then the multi-user ones together, driven by commands and two timers.
  Handlers are atomic; they call each other recursively when a command is run directly.
 */
module Sounding {

  const MAX_SU := 2
  const MAX_MU := 6
  const MAX_ENTRY := 8

  datatype Phase = Idle | Init | SuStart | SuDown | MuStart | MuDown | TimedOut

  /** What other parts of the driver decide about an entry: `ready` is hardware state ADDED,
      `mu` and `su` its capabilities. */
  datatype Peer = Peer(used: bool, ready: bool, mu: bool, su: bool, apply: bool, suspend: bool, period: nat)

  datatype Bfee = Bfee(
    peer: Peer, delete: bool, soundCnt: nat, sounding: bool, candidate: bool, timeout: bool, failCnt: nat)
  {
    predicate Present() { peer.used && peer.ready }

    predicate WantsMu() { peer.mu && peer.apply }

    predicate WantsSu() { !peer.mu && peer.su && (delete || (peer.apply && !peer.suspend)) }
  }

  /** An entry at the start of a period. */
  function Cleared(b: Bfee): Bfee {
    if b.peer.used && b.sounding then b.(sounding := false, candidate := false) else b
  }

  /** The failure count of an entry after the result of its sounding. */
  function FailsAfter(b: Bfee, status: bool): nat {
    if b.timeout || (!status && b.delete) then b.failCnt else if status then 0 else b.failCnt + 1
  }

  datatype Cmd = StartPeriod | EndPeriod(status: bool)

  /** What a period has done: an NDPA frame to one entry, a deletion handled instead of it, an
      NDPA frame to a group. */
  datatype Action = Ndpa(entry: nat) | Deleted(entry: nat) | MuNdpa(group: seq<nat>)

  function Starts(q: seq<Cmd>): nat {
    if q == [] then 0 else (if q[0].StartPeriod? then 1 else 0) + Starts(q[1..])
  }

  lemma {:induction false} StartsAppend(q: seq<Cmd>, c: Cmd)
    ensures Starts(q + [c]) == Starts(q) + if c.StartPeriod? then 1 else 0
  {
    if q == [] {
      assert q + [c] == [c];
    } else {
      assert (q + [c])[1..] == q[1..] + [c];
      StartsAppend(q[1..], c);
    }
  }

  predicate Wanted(b: Bfee, mu: bool) {
    b.Present() && b.soundCnt <= 1 && if mu then b.WantsMu() else b.WantsSu()
  }

  /** The first `max` indices below `n` of wanted entries, in order. */
  ghost predicate FirstOf(l: seq<nat>, max: nat, n: nat, es: seq<Bfee>, mu: bool)
    requires n <= |es|
  {
    && |l| <= max
    && (forall i, j :: 0 <= i < j < |l| ==> l[i] < l[j])
    && (forall i :: 0 <= i < |l| ==> l[i] < n && Wanted(es[l[i]], mu))
    && (forall e :: 0 <= e < n && Wanted(es[e], mu) && e !in l ==> |l| == max > 0 && l[max - 1] < e)
  }

  lemma FirstOfNext(l: seq<nat>, max: nat, n: nat, es: seq<Bfee>, mu: bool)
    requires max > 0 && n < |es| && FirstOf(l, max, n, es, mu)
    ensures FirstOf(if Wanted(es[n], mu) && |l| < max then l + [n] else l, max, n + 1, es, mu)
  {
    hide FirstOf, Wanted;
    if Wanted(es[n], mu) && |l| < max {
      FirstOfAppend(l, max, n, es, mu);
    } else {
      FirstOfSkip(l, max, n, es, mu);
    }
  }

  lemma FirstOfAppend(l: seq<nat>, max: nat, n: nat, es: seq<Bfee>, mu: bool)
    requires n < |es| && FirstOf(l, max, n, es, mu) && |l| < max && Wanted(es[n], mu)
    ensures FirstOf(l + [n], max, n + 1, es, mu)
  {
    hide Wanted;
    var m := l + [n];
    assert forall e :: e in l ==> e in m;
    assert n in m;
    assert forall e :: 0 <= e < n + 1 && Wanted(es[e], mu) ==> e in m;
  }

  lemma FirstOfSkip(l: seq<nat>, max: nat, n: nat, es: seq<Bfee>, mu: bool)
    requires max > 0 && n < |es| && FirstOf(l, max, n, es, mu) && (|l| >= max || !Wanted(es[n], mu))
    ensures FirstOf(l, max, n + 1, es, mu)
  {
    hide Wanted;
  }

  ghost predicate SomeNotReady(es: seq<Bfee>) {
    exists i :: 0 <= i < |es| && es[i].peer.used && !es[i].peer.ready
  }

  /** `GetInitSoundCnt`. */
  function InitCount(period: nat, minPeriod: nat): nat
    requires minPeriod > 0
  {
    period / minPeriod
  }

  /** An entry after the lists were made. */
  function Counted(b: Bfee, listed: bool, minPeriod: nat): Bfee
    requires minPeriod > 0
  {
    if !b.Present() then b
    else if b.soundCnt > 1 then b.(soundCnt := b.soundCnt - 1)
    else if listed && (b.peer.mu || !b.delete) then
      b.(candidate := true, soundCnt := InitCount(b.peer.period, minPeriod))
    else b.(soundCnt := 0)
  }

  class Sounder {
    const entries: array<Bfee>
    const minPeriod: nat
    var state: Phase
    var suList: seq<nat>
    var muList: seq<nat>
    var suCur: nat
    var muCnt: nat
    var running: int
    var waitCnt: nat
    var delay: nat
    var timeoutArmed: bool
    var periodArmed: bool
    var queue: seq<Cmd>
    /** Stations that failed too often: a leave command is queued for each. */
    var leaving: seq<nat>
    /** What the current period has done, since its lists were reset. */
    var sent: seq<Action>
    ghost var done: nat
    ghost var muDone: bool

    constructor (entries: array<Bfee>, minPeriod: nat)
      requires entries.Length == MAX_ENTRY && minPeriod > 0
      ensures Inv() && this.entries == entries && this.minPeriod == minPeriod
      ensures state == Idle && running == 0 && delay == 0 && queue == []
    {
      this.entries, this.minPeriod := entries, minPeriod;
      state, suList, muList, suCur, muCnt := Idle, [], [], 0xFF, 0;
      running, waitCnt, delay, timeoutArmed, periodArmed := 0, 0, 0, false, false;
      queue, leaving, sent := [], [], [];
      done, muDone := 0, false;
    }

    ghost predicate Wf()
      reads `suList, `muList, `muCnt, `sent, `done, `muDone, entries
    {
      entries.Length == MAX_ENTRY && minPeriod > 0 && ListsOk(suList, muList) && PeriodOk()
    }

    /** The period so far: the first `done` listed entries have been sounded, in order, the
        others not; the group follows when all have been. */
    ghost predicate PeriodOk()
      requires entries.Length == MAX_ENTRY && ListsOk(suList, muList)
      reads `suList, `muList, `muCnt, `sent, `done, `muDone, entries
    {
      && done <= |suList|
      && (forall k :: 0 <= k < |suList| ==> (entries[suList[k]].sounding <==> k < done))
      && |sent| == done + (if muDone then 1 else 0)
      && (forall k :: 0 <= k < done ==> sent[k] == Ndpa(suList[k]) || sent[k] == Deleted(suList[k]))
      && (if muDone then done == |suList| && muList != [] && muCnt == 0 && sent[done] == MuNdpa(muList)
          else muCnt == |muList|)
    }

    /** Everything listed has been sounded. */
    ghost predicate Complete()
      reads `suList, `muList, `done, `muDone
    {
      done == |suList| && (muList != [] ==> muDone)
    }

    /** A sounding is under way. */
    ghost predicate Waiting()
      requires entries.Length == MAX_ENTRY
      reads `state, `done, `muDone, `suCur, `suList, entries
    {
      || (state == SuStart && 0 < done <= |suList|
          && suCur == suList[done - 1] < MAX_ENTRY && !muDone && !entries[suCur].timeout)
      || (state == MuStart && muDone)
    }

    /** What holds between any two events: `running` is 0 or 1, and while it is 1 exactly one
        thing will move the period on: a start command, a timer or an end command. */
    ghost predicate Inv()
      reads this, entries
    {
      && Wf()
      && if running == 0 then state in {Idle, Init} && Starts(queue) == 0
         else
           && running == 1
           && if state in {Init, TimedOut} then Starts(queue) == 1
              else Waiting() && Starts(queue) == 0 && (timeoutArmed || exists b :: EndPeriod(b) in queue)
    }

    /** `_sounding_reset_vars`. */
    method ResetVars()
      requires entries.Length == MAX_ENTRY
      modifies `suList, `muList, `suCur, `muCnt, `sent, `done, `muDone, entries
      ensures suList == [] && muList == [] && muCnt == 0 && sent == [] && done == 0 && !muDone
      ensures forall i :: 0 <= i < MAX_ENTRY ==>
        entries[i] == Cleared(old(entries[i]))
    {
      suList, muList, suCur, muCnt, sent := [], [], 0xFF, 0, [];
      done, muDone := 0, false;
      for i := 0 to MAX_ENTRY
        modifies entries
        invariant forall j :: i <= j < MAX_ENTRY ==> entries[j] == old(entries[j])
        invariant forall j :: 0 <= j < i ==>
          entries[j] == Cleared(old(entries[j]))
      {
        if entries[i].peer.used && entries[i].sounding {
          entries[i] := entries[i].(sounding := false, candidate := false);
        }
      }
    }

    /** `_sounding_get_list`: 0, or -1 if nothing is to be sounded, or -2 if nothing is and some
        entry is not ready. */
    method GetList() returns (ret: int)
      requires entries.Length == MAX_ENTRY && minPeriod > 0 && suList == [] && muList == []
      modifies `suList, `muList, `muCnt, entries
      ensures FirstOf(suList, MAX_SU, MAX_ENTRY, old(entries[..]), false)
      ensures FirstOf(muList, MAX_MU, MAX_ENTRY, old(entries[..]), true)
      ensures muCnt == |muList|
      ensures forall i :: 0 <= i < MAX_ENTRY ==>
        entries[i] == Counted(old(entries[i]), i in suList || i in muList, minPeriod)
      ensures ret == if suList != [] || muList != [] then 0
                     else if SomeNotReady(old(entries[..])) then -2 else -1
    {
      hide FirstOf, Counted, Wanted, InitCount;
      ghost var es := entries[..];
      var notReady := 0;
      FirstOfNone(MAX_SU, es, false);
      FirstOfNone(MAX_MU, es, true);
      for i := 0 to MAX_ENTRY
        modifies `suList, `muList, entries
        invariant FirstOf(suList, MAX_SU, i, es, false) && FirstOf(muList, MAX_MU, i, es, true)
        invariant forall j :: i <= j < MAX_ENTRY ==> entries[j] == es[j]
        invariant forall j :: 0 <= j < i ==> entries[j] == Counted(es[j], j in suList || j in muList, minPeriod)
        invariant notReady > 0 <==> exists j :: 0 <= j < i && es[j].peer.used && !es[j].peer.ready
      {
        FirstOfNext(suList, MAX_SU, i, es, false);
        FirstOfNext(muList, MAX_MU, i, es, true);
        NotYet(suList, MAX_SU, i, es, false);
        NotYet(muList, MAX_MU, i, es, true);
        var ready := Consider(i);
        if !ready {
          notReady := notReady + 1;
        }
      }
      muCnt := |muList|;
      ret := if |suList| + |muList| == 0 then (if notReady > 0 then -2 else -1) else 0;
    }

    /** The body of the loop: false if the entry is not ready. */
    method Consider(i: nat) returns (ready: bool)
      requires entries.Length == MAX_ENTRY && minPeriod > 0 && i < MAX_ENTRY && i !in suList && i !in muList
      modifies `suList, `muList, entries
      ensures muList ==
        if Wanted(old(entries[i]), true) && |old(muList)| < MAX_MU then old(muList) + [i] else old(muList)
      ensures suList ==
        if Wanted(old(entries[i]), false) && |old(suList)| < MAX_SU then old(suList) + [i] else old(suList)
      ensures forall j :: 0 <= j < MAX_ENTRY && j != i ==> entries[j] == old(entries[j])
      ensures entries[i] == Counted(old(entries[i]), i in suList || i in muList, minPeriod)
      ensures ready <==> !(old(entries[i]).peer.used && !old(entries[i]).peer.ready)
    {
      hide Wanted, Counted;
      var b, su, mu;
      b, su, mu, ready := Examine(entries[i], |suList| < MAX_SU, |muList| < MAX_MU, minPeriod);
      entries[i] := b;
      if su { suList := suList + [i]; }
      if mu { muList := muList + [i]; }
    }

    /** The sounding moved on: a frame is out and its timer runs, or the period is over. */
    ghost predicate Stepped(before: int)
      requires entries.Length == MAX_ENTRY
      reads this, entries
    {
      || (running == before - 1 && state in {Idle, Init})
      || (running == before && Waiting() && timeoutArmed)
    }

    ghost predicate PeersAre(es: seq<Bfee>)
      reads entries
    {
      entries.Length == |es| && forall i :: 0 <= i < |es| ==> entries[i].peer == es[i].peer
    }

    /** The failure counts are those of `es`. */
    ghost predicate FailsAre(es: seq<Bfee>)
      reads entries
    {
      entries.Length == |es| && forall i :: 0 <= i < |es| ==> entries[i].failCnt == es[i].failCnt
    }

    /** The lists of a new period. */
    method Relist() returns (ret: int)
      requires Wf()
      modifies `suList, `muList, `suCur, `muCnt, `sent, `done, `muDone, entries
      ensures Wf() && sent == [] && done == 0 && !muDone
      ensures ret == if suList != [] || muList != [] then 0
                     else if SomeNotReady(old(entries[..])) then -2 else -1
      ensures FirstOf(suList, MAX_SU, MAX_ENTRY, old(entries[..]), false)
      ensures FirstOf(muList, MAX_MU, MAX_ENTRY, old(entries[..]), true)
      ensures PeersAre(old(entries[..])) && FailsAre(old(entries[..]))
    {
      hide FirstOf, Counted, Wanted, InitCount;
      ghost var es0 := entries[..];
      ResetVars();
      ghost var es := entries[..];
      ret := GetList();
      ListsAreOk(suList, muList, es);
      ListedSilent(suList, es);
      SameWanted(es0, es, suList, MAX_SU, false);
      SameWanted(es0, es, muList, MAX_MU, true);
      forall i | 0 <= i < MAX_ENTRY { CountedKeeps(es[i], i in suList || i in muList, minPeriod); }
    }

    /** The start of a period in `_sounding_handler`: false if the period ends at once. */
    method Begin(scanning: bool) returns (go: bool)
      requires Wf() && state == Init
      modifies `state, `suList, `muList, `suCur, `muCnt, `running, `waitCnt, `sent, `done, `muDone, entries
      ensures Wf() && sent == [] && done == 0
      ensures Chosen(old(entries[..]), suList, muList)
      ensures go <==> (suList != [] || muList != []) && !scanning
      ensures go ==> state == Init && running == old(running)
      ensures !go ==> running == old(running) - 1 && state in {Idle, Init}
      ensures !go && (suList != [] || muList != []) ==> state == Init
      ensures suList == [] && muList == [] ==>
        (state == Init <==> old(waitCnt) < 5 && SomeNotReady(old(entries[..])))
      ensures waitCnt == if !go && suList == [] && muList == [] && state == Init then old(waitCnt) + 1 else 0
      ensures PeersAre(old(entries[..])) && FailsAre(old(entries[..]))
    {
      hide PeriodOk, ListsOk;
      var ret := Relist();
      go := false;
      if ret == -1 {
        waitCnt, state, running := 0, Idle, running - 1;
      } else if ret == -2 {
        if waitCnt < 5 {
          waitCnt := waitCnt + 1;
        } else {
          waitCnt, state := 0, Idle;
        }
        running := running - 1;
      } else {
        waitCnt := 0;
        if scanning {
          running := running - 1;
        } else {
          go := true;
        }
      }
    }

    /** `_sounding_handler`. */
    method Handler(scanning: bool)
      requires Wf()
      modifies `state, `suList, `muList, `suCur, `muCnt, `running, `waitCnt, `sent, `done, `muDone
      modifies `timeoutArmed, `leaving, entries
      decreases if state == Init then 1 else 0, |suList| - done, 2
      ensures Wf() && PeersAre(old(entries[..])) && FailsAre(old(entries[..]))
      ensures old(state) in {Idle, SuStart, MuStart} ==>
        state == old(state) && running == old(running) && sent == old(sent)
        && done == old(done) && muDone == old(muDone)
        && suCur == old(suCur) && timeoutArmed == old(timeoutArmed) && entries[..] == old(entries[..])
      ensures old(state) !in {Idle, SuStart, MuStart} ==> Stepped(old(running))
      ensures leaving == old(leaving) && (old(state) != Init ==> waitCnt == old(waitCnt))
      ensures old(state) in {SuDown, MuDown, TimedOut} ==>
        suList == old(suList) && muList == old(muList) && old(sent) <= sent && state != Idle
      ensures old(state) in {SuDown, MuDown, TimedOut} ==>
        if running == old(running) then |old(sent)| < |sent| else Complete()
      ensures old(state) == Init ==> Chosen(old(entries[..]), suList, muList)
      ensures old(state) == Init ==> if running == old(running) then sent != [] else sent == [] || Complete()
    {
      hide PeriodOk, ListsOk, Chosen;
      assert state.Idle? || state.SuStart? || state.MuStart? || state in {Init, SuDown, MuDown, TimedOut};
      if state in {Init, SuDown, MuDown, TimedOut} {
        var go := true;
        if state == Init {
          go := Begin(scanning);
        }
        if go {
          Next(scanning);
        }
      }
    }

    /** The other half of `_sounding_handler`: the next thing to sound, or the end. */
    method Next(scanning: bool)
      requires Wf()
      modifies `state, `suList, `muList, `suCur, `muCnt, `running, `waitCnt, `sent, `done, `muDone
      modifies `timeoutArmed, `leaving, entries
      decreases 0, |suList| - done, 1
      ensures Wf() && PeersAre(old(entries[..])) && FailsAre(old(entries[..]))
      ensures Stepped(old(running))
      ensures suList == old(suList) && muList == old(muList) && old(sent) <= sent && state != Idle
      ensures waitCnt == old(waitCnt) && leaving == old(leaving)
      ensures if running == old(running) then |old(sent)| < |sent| else Complete()
    {
      hide PeriodOk, ListsOk;
      var i := FirstSilent();
      if i < |suList| {
        StartSu(i);
        if entries[suCur].delete {
          Down(false, scanning);
        } else {
          timeoutArmed := true;
        }
      } else if muCnt > 0 {
        StartMu();
        timeoutArmed := true;
      } else {
        running, state := running - 1, Init;
      }
    }

    method FirstSilent() returns (i: nat)
      requires Wf()
      ensures i == done <= |suList| && (i == |suList| && muCnt == 0 ==> Complete())
    {
      i := 0;
      while i < |suList| && entries[suList[i]].sounding
        invariant i <= done
      {
        i := i + 1;
      }
    }

    /** The next listed entry begins. */
    method StartSu(i: nat)
      requires Wf() && i == done < |suList|
      modifies `state, `suCur, `sent, `done, entries
      ensures Wf() && PeersAre(old(entries[..])) && FailsAre(old(entries[..])) && state == SuStart && Waiting()
      ensures done == old(done) + 1 && suCur == suList[old(done)]
      ensures entries[suCur] == old(entries[suList[done]]).(sounding := true, timeout := false)
      ensures sent == old(sent) + [if entries[suCur].delete then Deleted(suCur) else Ndpa(suCur)]
      ensures forall i :: 0 <= i < MAX_ENTRY && i != suCur ==> entries[i] == old(entries[i])
    {
      suCur := suList[i];
      state := SuStart;
      entries[suCur] := entries[suCur].(sounding := true, timeout := false);
      sent := sent + [if entries[suCur].delete then Deleted(suCur) else Ndpa(suCur)];
      done := done + 1;
    }

    /** The group begins. */
    method StartMu()
      requires Wf() && done == |suList| && muCnt > 0
      modifies `state, `muCnt, `sent, `muDone, entries
      ensures Wf() && PeersAre(old(entries[..])) && FailsAre(old(entries[..])) && state == MuStart && muDone
      ensures muCnt == 0
      ensures sent == old(sent) + [MuNdpa(muList)]
      ensures forall i :: 0 <= i < MAX_ENTRY ==>
        entries[i] == if i in muList then old(entries[i]).(sounding := true) else old(entries[i])
    {
      state := MuStart;
      for i := 0 to muCnt
        modifies entries
        invariant forall j :: 0 <= j < MAX_ENTRY ==>
          entries[j] == if j in muList[..i] then old(entries[j]).(sounding := true) else old(entries[j])
      {
        entries[muList[i]] := entries[muList[i]].(sounding := true);
        assert muList[..i + 1] == muList[..i] + [muList[i]];
      }
      assert muList[..muCnt] == muList;
      sent := sent + [MuNdpa(muList)];
      muCnt, muDone := 0, true;
    }

    /** What a result does to the entry it is for. */
    method Settle(status: bool) returns (stale: bool)
      requires Wf() && suCur < MAX_ENTRY
      modifies `leaving, entries
      ensures Wf() && stale == old(entries[suCur]).timeout
      ensures forall i :: 0 <= i < MAX_ENTRY && i != suCur ==> entries[i] == old(entries[i])
      ensures var b := old(entries[suCur]);
        && entries[suCur] == (if stale then b.(timeout := false) else if status then b.(failCnt := 0)
                              else if b.delete then b.(delete := false) else b.(failCnt := b.failCnt + 1))
        && leaving == if !stale && !status && !b.delete && b.failCnt >= 30 then old(leaving) + [suCur] else old(leaving)
    {
      var b := entries[suCur];
      stale := b.timeout;
      if stale {
        b := b.(timeout := false);
      } else if status {
        b := b.(failCnt := 0);
      } else if b.delete {
        b := b.(delete := false);
      } else {
        b := b.(failCnt := b.failCnt + 1);
        if b.failCnt > 30 {
          leaving := leaving + [suCur];
        }
      }
      entries[suCur] := b;
    }

    /** `_beamforming_sounding_down`, with the result of the sounding. */
    method Down(status: bool, scanning: bool)
      requires Wf() && (state in {SuStart, MuStart} ==> Waiting())
      modifies `state, `suList, `muList, `suCur, `muCnt, `running, `waitCnt, `sent, `done, `muDone
      modifies `timeoutArmed, `leaving, entries
      decreases 0, |suList| - done, 3
      ensures Wf() && PeersAre(old(entries[..]))
      ensures old(state) !in {SuStart, MuStart} ==>
        state == old(state) && running == old(running) && sent == old(sent)
        && done == old(done) && muDone == old(muDone)
        && suCur == old(suCur) && timeoutArmed == old(timeoutArmed) && entries[..] == old(entries[..])
      ensures suList == old(suList) && muList == old(muList) && old(sent) <= sent && waitCnt == old(waitCnt)
      ensures old(state) in {SuStart, MuStart} ==>
        Stepped(old(running)) && state != Idle && if running == old(running) then |old(sent)| < |sent| else Complete()
      ensures leaving ==
        if old(state) == SuStart && !status && !old(entries[suCur]).delete && old(entries[suCur]).failCnt >= 30
        then old(leaving) + [old(suCur)] else old(leaving)
      ensures forall i :: 0 <= i < MAX_ENTRY ==>
        entries[i].failCnt ==
          if old(state) == SuStart && i == old(suCur) then FailsAfter(old(entries[i]), status)
          else old(entries[i]).failCnt
    {
      hide PeriodOk, ListsOk;
      if state == MuStart {
        state := MuDown;
        Handler(scanning);
      } else if state == SuStart {
        state := SuDown;
        var stale := Settle(status);
        if !stale {
          Handler(scanning);
        }
      }
    }

    /** The next tick of the period timer will stop a period that waits for its start command. */
    predicate BadStop()
      reads this
    {
      running == 1 && state in {Init, TimedOut} && delay >= 3
    }

    /** `_sounding_timer_handler`.  It keeps the invariant except when it stops a period that
        waits for its start command: that command is still queued then. */
    method PeriodTimer()
      requires Inv()
      modifies `state, `running, `delay, `queue, `timeoutArmed, `periodArmed
      ensures Wf()
      ensures Inv() <==> !old(BadStop())
      ensures !old(BadStop()) ==> Now() == Ticked(old(Now()))
      ensures periodArmed == (old(state) != Idle)
      ensures old(BadStop()) ==> state == Init && running == 0 && queue == old(queue)
    {
      hide PeriodOk, ListsOk, Waiting, Complete;
      periodArmed := state != Idle;
      if state != Idle {
        if running == 0 {
          state, delay, running := Init, 0, running + 1;
          StartsAppend(queue, StartPeriod);
          queue := queue + [StartPeriod];
        } else {
          Overdue();
        }
      }
    }

    /** A tick while the period still runs. */
    method Overdue()
      requires Inv() && state != Idle && running == 1
      modifies `state, `running, `delay, `queue, `timeoutArmed
      ensures Wf()
      ensures Inv() <==> !old(BadStop())
      ensures !old(BadStop()) ==> Now() == Ticked(old(Now()))
      ensures old(BadStop()) ==> state == Init && running == 0 && queue == old(queue)
    {
      hide PeriodOk, ListsOk, Complete;
      if delay != 0xFF {
        delay := delay + 1;
      }
      if delay > 3 {
        StartsAppend(queue, EndPeriod(false));
        assert EndPeriod(false) in queue + [EndPeriod(false)];
        ForceStop();
      }
    }

    /** `_sounding_force_stop`. */
    method ForceStop()
      modifies `state, `running, `queue, `timeoutArmed
      ensures old(state) in {SuStart, MuStart} ==>
        !timeoutArmed && queue == old(queue) + [EndPeriod(false)] && state == old(state) && running == old(running)
      ensures old(state) !in {SuStart, MuStart} ==>
        running == old(running) - 1 && state == Init && queue == old(queue) && timeoutArmed == old(timeoutArmed)
    {
      if state == SuStart || state == MuStart {
        timeoutArmed := false;
        queue := queue + [EndPeriod(false)];
      } else {
        running, state := running - 1, Init;
      }
    }

    /** `_sounding_timeout_timer_handler`. */
    method TimeoutTimer()
      requires Inv()
      modifies `state, `queue, `timeoutArmed, entries
      ensures Inv() && Now() == Lapsed(old(Now()))
    {
      if timeoutArmed {
        timeoutArmed := false;
        if state == SuStart {
          state := TimedOut;
          entries[suCur] := entries[suCur].(timeout := true);
          StartsAppend(queue, StartPeriod);
          queue := queue + [StartPeriod];
        } else if state == MuStart {
          state := TimedOut;
          StartsAppend(queue, StartPeriod);
          queue := queue + [StartPeriod];
        }
      }
    }

    /** `_c2h_snd_txbf`: the firmware reports a result, whenever it likes. */
    method Report(status: bool)
      requires Inv()
      modifies `queue, `timeoutArmed
      ensures Inv() && queue == old(queue) + [EndPeriod(status)] && !timeoutArmed
    {
      hide PeriodOk, ListsOk, Waiting, Complete;
      timeoutArmed := false;
      StartsAppend(queue, EndPeriod(status));
      assert EndPeriod(status) in queue + [EndPeriod(status)];
      queue := queue + [EndPeriod(status)];
    }

    /** The command thread runs the oldest command. */
    method RunCmd(scanning: bool)
      requires Wf() && (state in {SuStart, MuStart} ==> Waiting())
      modifies this, entries
      ensures Wf() && PeersAre(old(entries[..]))
      ensures old(Inv()) ==> Inv() && Obeys(old(Now()), Now())
      ensures delay == old(delay) && queue == if old(queue) == [] then [] else old(queue[1..])
      ensures old(queue) != [] && old(queue)[0] == StartPeriod && old(state) in {Init, TimedOut} ==>
        Stepped(old(running))
    {
      hide PeriodOk, ListsOk, Complete, Chosen;
      if queue != [] {
        var c := queue[0];
        ghost var q := queue;
        queue := queue[1..];
        match c {
          case StartPeriod => Handler(scanning);
          case EndPeriod(status) =>
            Down(status, scanning);
            assert forall b :: EndPeriod(b) in q ==> b == status || EndPeriod(b) in queue;
        }
      }
    }

    /** The end of `_beamforming_enter`. */
    method Enter()
      requires Inv()
      modifies `state, `periodArmed
      ensures Inv() && state == if old(state) == Idle then Init else old(state)
    {
      hide PeriodOk, ListsOk;
      if state == Idle {
        state, periodArmed := Init, true;
      }
    }

    /** The hardware state of an entry changes. */
    method SetReady(i: nat, ready: bool)
      requires Inv() && i < MAX_ENTRY
      modifies entries
      ensures Inv()
      ensures entries[..] == old(entries[..])[i := old(entries[i]).(peer := old(entries[i]).peer.(ready := ready))]
    {
      entries[i] := entries[i].(peer := entries[i].peer.(ready := ready));
    }

    /** `rtw_bf_update_traffic`: which entries are to be sounded from now on. */
    method UpdateTraffic(wanted: set<nat>)
      requires Inv()
      modifies `state, `periodArmed, entries
      ensures Inv()
      ensures state == (if old(state) == Idle && Retargeted(old(entries[..]), wanted) then Init else old(state))
      ensures forall i :: 0 <= i < MAX_ENTRY ==> entries[i] == Traffic(old(entries[i]), i in wanted)
    {
      hide PeriodOk, ListsOk, Traffic;
      ghost var es := entries[..];
      var setTimer := false;
      for i := 0 to MAX_ENTRY
        modifies entries
        invariant Wf() && (state in {SuStart, MuStart} ==> Waiting())
        invariant forall j :: 0 <= j < MAX_ENTRY ==> entries[j] == if j < i then Traffic(es[j], j in wanted) else es[j]
        invariant setTimer <==> exists j :: 0 <= j < i && Traffic(es[j], j in wanted) != es[j]
      {
        var b := entries[i];
        var d := Retarget(b, i in wanted);
        Retune(i, d);
        setTimer := setTimer || d != b;
      }
      if setTimer && state == Idle {
        state, periodArmed := Init, true;
      }
    }

    /** Rewriting what the running period does not depend on. */
    method Retune(i: nat, b: Bfee)
      requires Wf() && (state in {SuStart, MuStart} ==> Waiting()) && i < MAX_ENTRY
      requires b.sounding == entries[i].sounding && b.timeout == entries[i].timeout
      modifies entries
      ensures Wf() && (state in {SuStart, MuStart} ==> Waiting())
      ensures forall j :: 0 <= j < MAX_ENTRY ==> entries[j] == if j == i then b else old(entries[j])
    {
      entries[i] := b;
    }

    ghost function Now(): Snap
      reads this, entries
    {
      Snap(entries[..], state, running, delay, queue, timeoutArmed, suList, muList, suCur, sent, Complete())
    }

    /** Any run of events up to the first tick that would stop a period that waits for its start
        command; `trace[k]` is the scheduler after `k` events. */
    method Replay(es: seq<Event>) returns (n: nat, ghost trace: seq<Snap>)
      requires Inv() && forall e :: e in es && e.Ready? ==> e.i < MAX_ENTRY
      modifies this, entries
      ensures Inv() && n <= |es| && (n < |es| ==> es[n].Period? && BadStop())
      ensures Linked(trace, es[..n]) && trace[0] == old(Now()) && trace[n] == Now()
      ensures forall k :: 0 <= k < n && es[k].Period? ==> !trace[k].BadStop()
      ensures forall k :: 0 <= k <= n ==> Once(trace[k])
      ensures old(running) == 0 ==> PeriodsWhole(trace, es[..n])
    {
      hide Once, Moves, PeriodOk, ListsOk, PeriodsWhole;
      n, trace := 0, [Now()];
      SentOnce();
      while n < |es| && !(es[n].Period? && running == 1 && state in {Init, TimedOut} && delay >= 3)
        invariant n <= |es| && Inv()
        invariant Linked(trace, es[..n]) && trace[0] == old(Now()) && trace[n] == Now()
        invariant forall k :: 0 <= k < n && es[k].Period? ==> !trace[k].BadStop()
        invariant forall k :: 0 <= k <= n ==> Once(trace[k])
        decreases |es| - n
      {
        Handle(es[n]);
        SentOnce();
        trace := trace + [Now()];
        n := n + 1;
      }
      if trace[0].running == 0 {
        EveryPeriod(trace, es[..n]);
      }
    }

    /** One event. */
    method Handle(e: Event)
      requires Inv() && (e.Ready? ==> e.i < MAX_ENTRY) && !(e.Period? && BadStop())
      modifies this, entries
      ensures Inv() && Moves(old(Now()), Now(), e)
    {
      hide PeriodOk, ListsOk, Traffic, Ticked, Lapsed, Obeys;
      match e {
        case Entered => Enter();
        case Period => PeriodTimer();
        case Timeout => TimeoutTimer();
        case Reported(status) => Report(status);
        case Command(scanning) => RunCmd(scanning);
        case Ready(i, ready) => SetReady(i, ready);
        case NewTraffic(wanted) => UpdateTraffic(wanted);
      }
    }

    lemma SentOnce()
      requires Wf()
      ensures Once(Now())
    {
      forall i, j | 0 <= i < j < |sent|
        ensures !sent[i].MuNdpa?
        ensures if sent[j].MuNdpa? then sent[i].entry !in sent[j].group else sent[i].entry != sent[j].entry
      {
        OncePerPeriod(i, j);
      }
      if Complete() {
        CompleteMeansAll();
      }
    }

    /** In every period each entry is sounded at most once and the group at most once, last. */
    lemma OncePerPeriod(i: nat, j: nat)
      requires Wf() && i < j < |sent|
      ensures !sent[i].MuNdpa?
      ensures !sent[j].MuNdpa? ==> sent[i].entry != sent[j].entry
      ensures sent[j].MuNdpa? ==> sent[i].entry !in sent[j].group
    {
      assert sent[i] == Ndpa(suList[i]) || sent[i] == Deleted(suList[i]);
    }

    /** A completed period has sounded exactly what was listed, in the order of the list. */
    lemma CompleteMeansAll()
      requires Wf() && Complete()
      ensures AllSounded(suList, muList, sent)
    {
    }
  }

  datatype Event =
    | Entered
    | Period
    | Timeout
    | Reported(status: bool)
    | Command(scanning: bool)
    | Ready(i: nat, ready: bool)
    | NewTraffic(wanted: set<nat>)

  /** The scheduler between two events; `complete` says that everything on the lists has been
      sounded. */
  datatype Snap = Snap(
    entries: seq<Bfee>, state: Phase, running: int, delay: nat, queue: seq<Cmd>, armed: bool,
    suList: seq<nat>, muList: seq<nat>, suCur: nat, sent: seq<Action>, complete: bool)
  {
    predicate BadStop() { running == 1 && state in {Init, TimedOut} && delay >= 3 }

    predicate Sounds() { state == SuStart || state == MuStart }
  }

  /** No entry is sounded twice in a period, and the group at most once and last; a complete
      period has sounded its lists, in order. */
  ghost predicate Once(s: Snap) {
    && (forall i, j :: 0 <= i < j < |s.sent| ==>
          !s.sent[i].MuNdpa?
          && if s.sent[j].MuNdpa? then s.sent[i].entry !in s.sent[j].group else s.sent[i].entry != s.sent[j].entry)
    && (s.complete ==> AllSounded(s.suList, s.muList, s.sent))
  }

  ghost predicate AllSounded(su: seq<nat>, mu: seq<nat>, sent: seq<Action>) {
    && |sent| == |su| + (if mu == [] then 0 else 1)
    && (forall k :: 0 <= k < |su| ==> sent[k] == Ndpa(su[k]) || sent[k] == Deleted(su[k]))
    && (mu != [] ==> sent[|su|] == MuNdpa(mu))
  }

  // --- Specification: what an event does --------------------------------------------------------

  function Woken(p: Phase): Phase {
    if p == Idle then Init else p
  }

  /** A tick that is not a bad stop. */
  function Ticked(s: Snap): Snap {
    if s.state == Idle then s
    else if s.running == 0 then
      s.(state := Init, delay := 0, running := 1, queue := s.queue + [StartPeriod])
    else
      var d := if s.delay == 0xFF then 0xFF else s.delay + 1;
      if d > 3 then s.(delay := d, armed := false, queue := s.queue + [EndPeriod(false)]) else s.(delay := d)
  }

  function Lapsed(s: Snap): Snap
    requires s.state == SuStart ==> s.suCur < |s.entries|
  {
    if !s.armed then s
    else if !s.Sounds() then s.(armed := false)
    else
      var es := if s.state == SuStart then s.entries[s.suCur := s.entries[s.suCur].(timeout := true)] else s.entries;
      s.(armed := false, state := TimedOut, entries := es, queue := s.queue + [StartPeriod])
  }

  /** The lists of a new period: the first due entries that want to be sounded. */
  ghost predicate Chosen(es: seq<Bfee>, su: seq<nat>, mu: seq<nat>) {
    |es| == MAX_ENTRY && FirstOf(su, MAX_SU, MAX_ENTRY, es, false) && FirstOf(mu, MAX_MU, MAX_ENTRY, es, true)
  }

  /** The period moves on: something more is sounded and its timer runs, or the period is over,
      with everything listed sounded or, right at its start, nothing sent. */
  ghost predicate Advances(s: Snap, t: Snap) {
    && (if t.running == s.running then t.Sounds() && t.armed
        else t.running == s.running - 1 && t.state in {Idle, Init} && (t.complete || (s.state == Init && t.sent == [])))
    && (if s.state == Init then Chosen(s.entries, t.suList, t.muList) && (t.running == s.running ==> t.sent != [])
        else t.suList == s.suList && t.muList == s.muList && s.sent <= t.sent
             && (t.running == s.running ==> |s.sent| < |t.sent|))
  }

  predicate SamePeers(es: seq<Bfee>, fs: seq<Bfee>) {
    |es| == |fs| && forall i :: 0 <= i < |es| ==> fs[i].peer == es[i].peer
  }

  /** The oldest command starts or goes on with a period, or there is nothing for it to do. */
  ghost predicate Obeys(s: Snap, t: Snap) {
    if s.queue == [] then t == s
    else if (s.queue[0].StartPeriod? && s.state in {Init, TimedOut}) || (s.queue[0].EndPeriod? && s.Sounds()) then
      Advances(s, t) && t.queue == s.queue[1..] && t.delay == s.delay && SamePeers(s.entries, t.entries)
    else t == s.(queue := s.queue[1..])
  }

  ghost predicate Moves(s: Snap, t: Snap, e: Event)
    requires s.state == SuStart ==> s.suCur < |s.entries|
  {
    match e
    case Entered => t == s.(state := Woken(s.state))
    case Period => t == Ticked(s)
    case Timeout => t == Lapsed(s)
    case Reported(status) => t == s.(armed := false, queue := s.queue + [EndPeriod(status)])
    case Command(_) => Obeys(s, t)
    case Ready(i, ready) =>
      i < |s.entries| && t == s.(entries := s.entries[i := s.entries[i].(peer := s.entries[i].peer.(ready := ready))])
    case NewTraffic(wanted) =>
      && |t.entries| == |s.entries|
      && (forall i :: 0 <= i < |s.entries| ==> t.entries[i] == Traffic(s.entries[i], i in wanted))
      && t == s.(entries := t.entries, state := if Retargeted(s.entries, wanted) then Woken(s.state) else s.state)
  }

  /** A run: every step is what its event does, and `running` is 0 or 1 throughout. */
  ghost predicate Linked(trace: seq<Snap>, es: seq<Event>) {
    && |trace| == |es| + 1
    && (forall k :: 0 <= k <= |es| ==>
          trace[k].running in {0, 1} && (trace[k].state == SuStart ==> trace[k].suCur < |trace[k].entries|))
    && (forall k :: 0 <= k < |es| ==> Moves(trace[k], trace[k + 1], es[k]))
  }

  /** What the queue has to do with the period: its start command is queued exactly while it
      waits for it. */
  predicate QueueOk(s: Snap) {
    if s.running == 0 then s.state in {Idle, Init} && Starts(s.queue) == 0
    else if s.state in {Init, TimedOut} then Starts(s.queue) == 1
    else s.Sounds() && Starts(s.queue) == 0
  }

  /** A period is running before and after: it waits to be started, or a command chooses its lists,
      or it goes on with them. */
  ghost predicate GoesOn(s: Snap, t: Snap, e: Event) {
    || (s.state == Init && t.state == Init)
    || (s.state == Init && t.state != Init && e.Command? && Chosen(s.entries, t.suList, t.muList))
    || (s.state != Init && t.state != Init && t.suList == s.suList && t.muList == s.muList && s.sent <= t.sent)
  }

  /** Only a tick begins a period and only a command ends one. */
  lemma QueueStep(s: Snap, t: Snap, e: Event)
    requires s.state == SuStart ==> s.suCur < |s.entries|
    requires Moves(s, t, e) && QueueOk(s) && s.running in {0, 1} && t.running in {0, 1}
    ensures QueueOk(t)
    ensures s.running < t.running ==> e.Period? && t.state == Init
    ensures t.running < s.running ==> e.Command? && Advances(s, t)
    ensures s.running == t.running == 1 ==> GoesOn(s, t, e)
  {
    hide Chosen, Traffic, SamePeers;
    match e
    case Period => StartsAppend(s.queue, StartPeriod); StartsAppend(s.queue, EndPeriod(false));
    case Timeout => StartsAppend(s.queue, StartPeriod);
    case Reported(status) => StartsAppend(s.queue, EndPeriod(status));
    case _ =>
  }

  /** The tick after snapshot `a` begins a period, which still waits for its start command at `b`. */
  ghost predicate Waits(trace: seq<Snap>, es: seq<Event>, a: nat, b: nat)
    requires |trace| == |es| + 1
  {
    && a < b < |trace| && es[a].Period? && trace[a].running == 0
    && forall i :: a < i <= b ==> trace[i].running == 1 && trace[i].state == Init
  }

  /** The command after snapshot `b` chooses the lists of a period, which keeps them to `k`, where it
      is still running, and takes back nothing of what it has sent. */
  ghost predicate Sounding(trace: seq<Snap>, es: seq<Event>, b: nat, k: nat)
    requires |trace| == |es| + 1
  {
    && b < k < |trace| && es[b].Command? && Chosen(trace[b].entries, trace[k].suList, trace[k].muList)
    && forall i :: b < i <= k ==>
         && trace[i].running == 1 && trace[i].state !in {Idle, Init}
         && trace[i].suList == trace[k].suList && trace[i].muList == trace[k].muList && trace[i].sent <= trace[k].sent
  }

  /** The whole life of the period that the event after snapshot `e` ends: the tick at `a` began it,
      the command at `b` chose its lists, and it ends with all of them sounded, in order, or in that
      same command with nothing sent. */
  ghost predicate WholePeriod(trace: seq<Snap>, es: seq<Event>, a: nat, b: nat, e: nat)
    requires |trace| == |es| + 1 && e < |es|
  {
    b <= e && Waits(trace, es, a, b) && es[b].Command? && es[e].Command? && Ends(trace, es, b, e, trace[e + 1])
  }

  ghost predicate Ends(trace: seq<Snap>, es: seq<Event>, b: nat, e: nat, t: Snap)
    requires |trace| == |es| + 1 && b <= e < |es|
  {
    && Chosen(trace[b].entries, t.suList, t.muList)
    && (b < e ==>
          && Sounding(trace, es, b, e)
          && trace[e].suList == t.suList && trace[e].muList == t.muList && trace[e].sent <= t.sent)
    && (AllSounded(t.suList, t.muList, t.sent) || (b == e && t.sent == []))
  }

  ghost predicate Rests(s: Snap) {
    s.running == 0 && QueueOk(s)
  }

  /** In a run from rest, a running period was begun by a tick and waits, or was begun by a tick and
      has its lists from a command. */
  lemma {:induction false} Phases(trace: seq<Snap>, es: seq<Event>, k: nat)
    requires Linked(trace, es) && Rests(trace[0]) && k < |trace|
    ensures QueueOk(trace[k])
    ensures trace[k].running == 1 && trace[k].state == Init ==> exists a :: Waits(trace, es, a, k)
    ensures trace[k].running == 1 && trace[k].state != Init ==>
      exists a, b :: Waits(trace, es, a, b) && Sounding(trace, es, b, k)
  {
    hide QueueOk, Moves, Chosen;
    if k > 0 {
      var s, t, e := trace[k - 1], trace[k], es[k - 1];
      Phases(trace, es, k - 1);
      QueueStep(s, t, e);
      if t.running == 1 {
        if s.running == 0 {
          assert Waits(trace, es, k - 1, k);
        } else if t.state == Init {
          var a :| Waits(trace, es, a, k - 1);
          assert Waits(trace, es, a, k);
        } else if s.state == Init {
          var a :| Waits(trace, es, a, k - 1);
          NotIdle(t);
          assert Sounding(trace, es, k - 1, k);
        } else {
          var a, b :| Waits(trace, es, a, b) && Sounding(trace, es, b, k - 1);
          NotIdle(t);
          assert Sounding(trace, es, b, k);
        }
      }
    }
  }

  lemma NotIdle(s: Snap)
    requires QueueOk(s) && s.running == 1
    ensures s.state != Idle
  {
  }

  /** The event after snapshot `e` ends a period. */
  predicate EndsAt(trace: seq<Snap>, e: nat)
    requires e + 1 < |trace|
  {
    trace[e + 1].running < trace[e].running
  }

  /** Every end of a period is the end of a whole one. */
  ghost predicate PeriodsWhole(trace: seq<Snap>, es: seq<Event>)
    requires |trace| == |es| + 1
  {
    forall e :: 0 <= e < |es| && EndsAt(trace, e) ==> exists a, b :: WholePeriod(trace, es, a, b, e)
  }

  /** So it is in every run from rest. */
  lemma EveryPeriod(trace: seq<Snap>, es: seq<Event>)
    requires Linked(trace, es) && Rests(trace[0]) && forall k :: 0 <= k <= |es| ==> Once(trace[k])
    ensures PeriodsWhole(trace, es)
  {
    hide QueueOk, Moves, Chosen, Once;
    forall e | 0 <= e < |es| && EndsAt(trace, e)
      ensures exists a, b :: WholePeriod(trace, es, a, b, e)
    {
      var s, t := trace[e], trace[e + 1];
      Phases(trace, es, e);
      QueueStep(s, t, es[e]);
      CompleteSent(t);
      if s.state == Init {
        var a :| Waits(trace, es, a, e);
        assert WholePeriod(trace, es, a, e, e);
      } else {
        var a, b :| Waits(trace, es, a, b) && Sounding(trace, es, b, e);
        assert WholePeriod(trace, es, a, b, e);
      }
    }
  }

  lemma CompleteSent(s: Snap)
    requires Once(s)
    ensures s.complete ==> AllSounded(s.suList, s.muList, s.sent)
  {
  }

  /** The stop that `Replay` stops at is reached from the start: four ticks of the period timer
      before the start command is run.  The command, run late, lowers the counter below zero or
      begins a sounding while it is zero. */
  method LateStart(entries: array<Bfee>, minPeriod: nat, scanning: bool) returns (s: Sounder)
    requires entries.Length == MAX_ENTRY && minPeriod > 0
    modifies entries
    ensures fresh(s) && s.entries == entries
    ensures s.running == -1 || (s.running == 0 && s.Waiting())
  {
    s := new Sounder(entries, minPeriod);
    s.Enter();
    s.PeriodTimer();
    s.PeriodTimer();
    s.PeriodTimer();
    s.PeriodTimer();
    assert s.BadStop() && s.queue == [StartPeriod];
    s.PeriodTimer();
    s.RunCmd(scanning);
  }

  /** An entry after a traffic report. */
  function Traffic(b: Bfee, wanted: bool): Bfee {
    if !b.peer.used || b.peer.apply == wanted then b
    else b.(peer := b.peer.(apply := wanted), delete := b.delete || !wanted, soundCnt := 0)
  }

  ghost predicate Retargeted(es: seq<Bfee>, wanted: set<nat>) {
    exists i :: 0 <= i < |es| && Traffic(es[i], i in wanted) != es[i]
  }

  method Retarget(b: Bfee, wanted: bool) returns (d: Bfee)
    ensures d == Traffic(b, wanted) && d.sounding == b.sounding && d.timeout == b.timeout
  {
    d := b;
    if b.peer.used {
      if wanted {
        if !b.peer.apply {
          d := b.(peer := b.peer.(apply := true), soundCnt := 0);
        }
      } else if b.peer.apply {
        d := b.(peer := b.peer.(apply := false), delete := true, soundCnt := 0);
      }
    }
  }

  /** One entry: its new value, and whether it goes on a list that has room. */
  method Examine(entry: Bfee, suRoom: bool, muRoom: bool, minPeriod: nat)
    returns (b: Bfee, su: bool, mu: bool, ready: bool)
    requires minPeriod > 0
    ensures mu == (Wanted(entry, true) && muRoom) && su == (Wanted(entry, false) && suRoom) && !(su && mu)
    ensures b == Counted(entry, su || mu, minPeriod)
    ensures ready <==> !(entry.peer.used && !entry.peer.ready)
  {
    hide InitCount;
    b, su, mu, ready := entry, false, false, true;
    if b.peer.used {
      if !b.peer.ready {
        ready := false;
      } else {
        if b.soundCnt > 0 {
          b := b.(soundCnt := b.soundCnt - 1);
        }
        if b.soundCnt == 0 {
          var candidate;
          su, mu, candidate := Enlist(b, suRoom, muRoom);
          if candidate {
            b := b.(candidate := true, soundCnt := InitCount(b.peer.period, minPeriod));
          }
        }
      }
    }
  }

  /** An entry whose counter has run out: the group list first, then the other. */
  method Enlist(b: Bfee, suRoom: bool, muRoom: bool) returns (su: bool, mu: bool, candidate: bool)
    ensures mu == (b.WantsMu() && muRoom) && su == (b.WantsSu() && suRoom)
    ensures candidate == (mu || (su && !b.delete)) && !(su && mu)
  {
    su, mu, candidate := false, false, false;
    if b.peer.mu {
      if muRoom && b.peer.apply {
        mu, candidate := true, true;
      }
    } else if b.peer.su && suRoom {
      if b.delete {
        su := true;
      } else if b.peer.apply && !b.peer.suspend {
        su, candidate := true, true;
      }
    }
  }

  lemma ListsAreOk(su: seq<nat>, mu: seq<nat>, es: seq<Bfee>)
    requires |es| == MAX_ENTRY && FirstOf(su, MAX_SU, MAX_ENTRY, es, false) && FirstOf(mu, MAX_MU, MAX_ENTRY, es, true)
    ensures ListsOk(su, mu)
  {
  }

  lemma ListedSilent(su: seq<nat>, es: seq<Bfee>)
    requires |es| == MAX_ENTRY && FirstOf(su, MAX_SU, MAX_ENTRY, es, false)
    requires forall i :: 0 <= i < MAX_ENTRY && es[i].peer.used ==> !es[i].sounding
    ensures forall k :: 0 <= k < |su| ==> su[k] < MAX_ENTRY && !es[su[k]].sounding
  {
  }

  lemma SameWanted(es: seq<Bfee>, fs: seq<Bfee>, l: seq<nat>, max: nat, mu: bool)
    requires |es| == |fs| == MAX_ENTRY && FirstOf(l, max, MAX_ENTRY, fs, mu)
    requires forall i :: 0 <= i < MAX_ENTRY ==> fs[i] == es[i] || fs[i] == es[i].(sounding := false, candidate := false)
    ensures FirstOf(l, max, MAX_ENTRY, es, mu)
  {
    assert forall i :: 0 <= i < MAX_ENTRY ==> Wanted(fs[i], mu) == Wanted(es[i], mu);
  }

  lemma CountedKeeps(b: Bfee, listed: bool, minPeriod: nat)
    requires minPeriod > 0
    ensures Counted(b, listed, minPeriod).peer == b.peer && Counted(b, listed, minPeriod).sounding == b.sounding
    ensures Counted(b, listed, minPeriod).failCnt == b.failCnt
  {
  }

  lemma FirstOfNone(max: nat, es: seq<Bfee>, mu: bool)
    ensures FirstOf([], max, 0, es, mu)
  {
  }

  lemma NotYet(l: seq<nat>, max: nat, n: nat, es: seq<Bfee>, mu: bool)
    requires n <= |es| && FirstOf(l, max, n, es, mu)
    ensures n !in l
  {
  }

  ghost predicate ListsOk(su: seq<nat>, mu: seq<nat>) {
    && |su| <= MAX_SU && |mu| <= MAX_MU
    && (forall i :: 0 <= i < |su| ==> su[i] < MAX_ENTRY && su[i] !in mu)
    && (forall i :: 0 <= i < |mu| ==> mu[i] < MAX_ENTRY)
    && (forall i, j :: 0 <= i < j < |su| ==> su[i] != su[j])
    && (forall i, j :: 0 <= i < j < |mu| ==> mu[i] != mu[j])
  }
}
