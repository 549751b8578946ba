/**
  Safety of the command thread: invariants kept by every step of every schedule, and the
  theorems about whole schedules that follow from them.
 */
module CommandThreadProof {
  import opened CommandThread

  // --- Order: where commands are, and in which order they leave ---------------------------

  ghost predicate Distinct(ids: seq<CmdId>) {
    forall i, j :: 0 <= i < j < |ids| ==> ids[i] != ids[j]
  }

  function InHandSeq(s: State): seq<CmdId> {
    if s.thread.Hand? then [s.thread.id] else []
  }

  /** The members of `ids` that are in `chosen`, in the order of `ids`. */
  function Picked(ids: seq<CmdId>, chosen: set<CmdId>): seq<CmdId> {
    if ids == [] then []
    else Picked(ids[..|ids| - 1], chosen) + (if ids[|ids| - 1] in chosen then [ids[|ids| - 1]] else [])
  }

  function RanSet(s: State): set<CmdId> {
    set id | id in s.cmds && s.cmds[id].ran
  }

  /** Every accepted command is in exactly one place; the queue, the hand and the finished
      list, read in that order from the end, are the acceptance order; and the handler calls
      so far are the accepted commands that ran, in acceptance order. */
  ghost predicate OrderInv(s: State) {
    && Distinct(s.log)
    && s.log == s.finished + InHandSeq(s) + s.queue
    && (forall id :: id in s.log ==> id in s.cmds)
    && (forall id :: id in s.cmds ==>
         && (id in s.queue <==> s.cmds[id].place.Queued?)
         && (id in InHandSeq(s) <==> s.cmds[id].place.InHand?)
         && (id in s.finished <==> s.cmds[id].place.Finished?))
    && s.executed == Picked(s.finished + InHandSeq(s), RanSet(s))
  }

  // --- Records: what is known of one command, given where the thread is -----------------

  predicate Critical(stage: Stage) {
    stage.ToTest? || stage.ToStatus? || stage.ToSignal? || stage.ToNull? || stage.ToUnlock?
  }

  predicate Untouched(c: Cmd) { c.frees == 0 && c.payloadFrees == 0 && !c.ran }

  predicate PayloadGone(c: Cmd) { c.payloadFrees == if c.req.OwnsPayload() then 1 else 0 }

  predicate MayWait(sub: Submitter) { sub.Linked? || sub.Waiting? || sub.Awake? }

  /** What holds of a command by its place alone. */
  predicate PlaceInv(c: Cmd) {
    && (c.place.Outside? <==> c.sub.Building? || c.sub.Admitted? || c.sub == Gone(false))
    && (c.sub.Admitted? || !c.place.Outside? ==> c.req.size <= MAX_CMDSZ)
    && (c.sub.Building? || c.sub.Admitted? || c.place.Queued? ==> Untouched(c))
    && (c.sub == Gone(false) ==> c.frees == 1 && PayloadGone(c))
    && (c.place.Queued? ==> !c.drained)
    && (c.place.Finished? ==> !c.sctx && PayloadGone(c) && c.frees == if KeptByCallback(c) then 0 else 1)
    && c.freed == (c.frees > 0)
    && (c.sub.Waiting? || c.sub.Awake? || c.sub.Holding? || c.sub.Unlocking? ==> c.req.wait)
    && (c.sctx ==> c.req.wait)
    && (c.sub.Building? || c.sub.Admitted? ==> c.sctx == c.req.wait)
    && (c.place.Outside? ==> c.status.Submitted? && c.signals == 0)
    && (c.place.Queued? ==> c.status.Submitted? && c.signals == 0)
    && (c.status.DoneSuccess? ==> c.ran && c.result == H2C_SUCCESS)
    && (c.drained ==> !c.ran)
    && (c.status.DoneCmdDrop? ==> !c.ran)
    && (c.place.Outside? ==> !c.drained)
    && (c.place.Queued? || c.place.Finished? ==> Link(c))
  }

  /** Outside the middle of a completion: the context pointer is set exactly while the
      context is incomplete and its submitter can still look at it. */
  predicate Link(c: Cmd) {
    && (c.sctx <==> c.req.wait && c.status.Submitted? && (MayWait(c.sub) || c.sub.Holding?))
    && c.signals == (if c.status.Submitted? then 0 else 1)
  }

  /** What holds of the command in the thread's hand. */
  predicate StageInv(c: Cmd, stage: Stage) {
    && (c.drained ==> !stage.Fresh? && !stage.Ready?)
    && (if stage.Fresh? || stage.Ready? || stage.ToDrop? then Untouched(c)
        else c.frees == 0 && PayloadGone(c))
    && (stage.Ready? ==> HasHandler(c.req.code))
    && (stage.ToDrop? ==> c.drained)
    && (!stage.Fresh? && !stage.Ready? && !c.drained && c.res == H2C_SUCCESS ==> c.ran && c.result == H2C_SUCCESS)
    && match stage
       case ToStatus => c.sctx && c.status.Submitted? && c.signals == 0 && MayWait(c.sub)
       case ToSignal => c.sctx && c.status == Verdict(c) && c.signals == 0 && MayWait(c.sub)
       case ToNull => c.sctx && c.status == Verdict(c) && c.signals == 1 && MayWait(c.sub)
       case ToUnlock => !c.sctx && Link(c)
       case ToFinish => !c.sctx && Link(c)
       case _ => Link(c) && c.status.Submitted?
  }

  /** A mutex is held by exactly the agent whose program counter is in its critical region. */
  ghost predicate MutexInv(s: State) {
    && (s.thread.Hand? && Critical(s.thread.stage) ==>
         s.thread.id in s.cmds
         && s.cmds[s.thread.id].req.adapter in s.mutex
         && s.mutex[s.cmds[s.thread.id].req.adapter] == TheThread)
    && (forall id :: id in s.cmds && (s.cmds[id].sub.Holding? || s.cmds[id].sub.Unlocking?) ==>
         s.cmds[id].req.adapter in s.mutex && s.mutex[s.cmds[id].req.adapter] == TheSubmitter(id))
  }

  ghost predicate RecordInv(s: State) {
    && s.faults == {}
    && (forall id :: id in s.cmds ==> PlaceInv(s.cmds[id]))
    && (s.thread.Hand? ==> s.thread.id in s.cmds && s.cmds[s.thread.id].place.InHand?
                           && StageInv(s.cmds[s.thread.id], s.thread.stage))
    && (forall id :: id in s.cmds && s.cmds[id].place.InHand? ==> s.thread.Hand? && s.thread.id == id)
  }

  /** No wake-up is lost: when the thread sleeps on the semaphore without having put a
      command back, every queued command either has raised it or is about to. */
  ghost predicate WakeInv(s: State) {
    (s.thread.AtSema? || s.thread.Off?) && !s.putBack && s.sema == 0 ==>
      forall id :: id in s.cmds && s.cmds[id].place.Queued? ==> s.cmds[id].sub.Linked?
  }

  ghost predicate Inv(s: State) {
    OrderInv(s) && RecordInv(s) && MutexInv(s) && WakeInv(s)
  }

  // --- Lemmas about the order ---------------------------------------------------------

  lemma {:induction false} PickedAgree(ids: seq<CmdId>, a: set<CmdId>, b: set<CmdId>)
    requires forall id :: id in ids ==> (id in a <==> id in b)
    ensures Picked(ids, a) == Picked(ids, b)
  {
    if ids != [] {
      PickedAgree(ids[..|ids| - 1], a, b);
    }
  }

  lemma PickedSnoc(ids: seq<CmdId>, id: CmdId, chosen: set<CmdId>)
    ensures Picked(ids + [id], chosen) == Picked(ids, chosen) + (if id in chosen then [id] else [])
  {
    assert (ids + [id])[..|ids|] == ids;
  }

  /** A step that rewrites one record, without moving the command, keeps the order. */
  lemma OrderFrame(s: State, t: State, id: CmdId)
    requires OrderInv(s)
    requires t.queue == s.queue && t.log == s.log && t.finished == s.finished && t.executed == s.executed
    requires InHandSeq(t) == InHandSeq(s)
    requires id in t.cmds && t.cmds == s.cmds[id := t.cmds[id]]
    requires if id in s.cmds then t.cmds[id].place == s.cmds[id].place && t.cmds[id].ran == s.cmds[id].ran
             else t.cmds[id].place.Outside?
    ensures OrderInv(t)
  {
    PickedAgree(s.finished + InHandSeq(s), RanSet(s), RanSet(t));
    if id !in s.cmds {
      assert forall x :: x in s.queue || x in InHandSeq(s) || x in s.finished ==> x in s.log;
    }
  }

  lemma OrderIdle(s: State, t: State)
    requires OrderInv(s)
    requires t.queue == s.queue && t.log == s.log && t.finished == s.finished && t.executed == s.executed
    requires InHandSeq(t) == InHandSeq(s) && t.cmds == s.cmds
    ensures OrderInv(t)
  {
    assert RanSet(t) == RanSet(s);
  }

  lemma DistinctParts(a: seq<CmdId>, b: seq<CmdId>)
    requires Distinct(a + b)
    ensures Distinct(a) && Distinct(b) && forall id :: id in a ==> id !in b
  {
    var ab := a + b;
    forall i, j | 0 <= i < |a| && 0 <= j < |b| ensures a[i] != b[j] {
      assert ab[i] == a[i] && ab[|a| + j] == b[j];
    }
    forall i, j | 0 <= i < j < |a| ensures a[i] != a[j] { assert ab[i] == a[i] && ab[j] == a[j]; }
    forall i, j | 0 <= i < j < |b| ensures b[i] != b[j] { assert ab[|a| + i] == b[i] && ab[|a| + j] == b[j]; }
  }

  lemma OrderAppend(s: State, id: CmdId)
    requires OrderInv(s) && RecordInv(s) && SubAt(s, id, Admitted)
    ensures OrderInv(DoAppend(s, id))
  {
    var t := DoAppend(s, id);
    assert id !in s.log by {
      assert s.cmds[id].place.Outside?;
      assert forall x :: x in s.log ==> x in s.finished || x in InHandSeq(s) || x in s.queue;
    }
    PickedAgree(s.finished + InHandSeq(s), RanSet(s), RanSet(t));
  }

  /** Taking the head of the queue, either to execute it or to drop it. */
  lemma OrderTake(s: State, t: State)
    requires OrderInv(s) && !s.thread.Hand? && s.queue != []
    requires t.queue == s.queue[1..] && t.log == s.log && t.finished == s.finished && t.executed == s.executed
    requires t.thread.Hand? && t.thread.id == s.queue[0]
    requires t.cmds.Keys == s.cmds.Keys
    requires forall id :: id in s.cmds ==> t.cmds[id].ran == s.cmds[id].ran
    requires forall id :: id in s.cmds && id != s.queue[0] ==> t.cmds[id].place == s.cmds[id].place
    requires t.cmds[s.queue[0]].place.InHand? && !s.cmds[s.queue[0]].ran
    ensures OrderInv(t)
  {
    var id := s.queue[0];
    assert s.queue == [id] + t.queue;
    assert s.log == s.finished + s.queue == t.finished + InHandSeq(t) + t.queue;
    DistinctParts(s.finished, s.queue);
    DistinctParts([id], t.queue);
    assert s.finished + [] == s.finished;
    assert RanSet(t) == RanSet(s);
    PickedSnoc(s.finished, id, RanSet(s));
    assert id in s.queue;
  }

  lemma OrderPutBack(s: State, t: State)
    requires OrderInv(s) && s.thread.Hand? && !t.thread.Hand?
    requires t.queue == [s.thread.id] + s.queue && t.log == s.log && t.finished == s.finished
    requires t.executed == s.executed
    requires t.cmds.Keys == s.cmds.Keys && s.thread.id in s.cmds
    requires forall id :: id in s.cmds ==> t.cmds[id].ran == s.cmds[id].ran
    requires forall id :: id in s.cmds && id != s.thread.id ==> t.cmds[id].place == s.cmds[id].place
    requires t.cmds[s.thread.id].place.Queued? && !s.cmds[s.thread.id].ran
    ensures OrderInv(t)
  {
    var id := s.thread.id;
    assert s.finished + [id] + s.queue == s.finished + t.queue;
    DistinctParts(s.finished, t.queue);
    assert s.finished + [] == s.finished;
    assert RanSet(t) == RanSet(s);
    PickedSnoc(s.finished, id, RanSet(s));
    assert id in t.queue;
  }

  lemma OrderFinish(s: State, t: State)
    requires OrderInv(s) && s.thread.Hand? && !t.thread.Hand?
    requires t.queue == s.queue && t.log == s.log && t.finished == s.finished + [s.thread.id]
    requires t.executed == s.executed
    requires t.cmds.Keys == s.cmds.Keys && s.thread.id in s.cmds
    requires forall id :: id in s.cmds ==> t.cmds[id].ran == s.cmds[id].ran
    requires forall id :: id in s.cmds && id != s.thread.id ==> t.cmds[id].place == s.cmds[id].place
    requires t.cmds[s.thread.id].place.Finished?
    ensures OrderInv(t)
  {
    var id := s.thread.id;
    assert t.finished + [] == s.finished + [id];
    assert s.log == t.finished + [] + t.queue;
    DistinctParts(t.finished, t.queue);
    assert RanSet(t) == RanSet(s);
  }

  lemma OrderRan(s: State, t: State)
    requires OrderInv(s) && s.thread.Hand? && t.thread.Hand? && t.thread.id == s.thread.id && s.thread.id in s.cmds
    requires t.queue == s.queue && t.log == s.log && t.finished == s.finished
    requires t.executed == s.executed + [s.thread.id]
    requires t.cmds.Keys == s.cmds.Keys && !s.cmds[s.thread.id].ran && t.cmds[s.thread.id].ran
    requires forall id :: id in s.cmds ==> t.cmds[id].place == s.cmds[id].place
    requires forall id :: id in s.cmds && id != s.thread.id ==> t.cmds[id].ran == s.cmds[id].ran
    ensures OrderInv(t)
  {
    hide Distinct;
    assert s.thread.id in InHandSeq(s) && s.thread.id !in s.finished;
    assert forall id :: id in s.cmds && id != s.thread.id ==> (id in RanSet(t) <==> id in RanSet(s));
    RanPicked(s.finished, s.thread.id, RanSet(s), RanSet(t));
  }

  lemma RanPicked(ids: seq<CmdId>, id: CmdId, before: set<CmdId>, after: set<CmdId>)
    requires id !in before && id in after && forall i :: i in ids ==> (i in before <==> i in after)
    ensures Picked(ids + [id], after) == Picked(ids + [id], before) + [id]
  {
    PickedSnoc(ids, id, before);
    PickedSnoc(ids, id, after);
    PickedAgree(ids, before, after);
  }

  lemma OrderExecute(s: State, ret: nat)
    requires OrderInv(s) && RecordInv(s) && ThreadAt(s, Ready)
    ensures OrderInv(DoExecute(s, ret))
  {
    hide OrderInv;
    OrderRan(s, DoExecute(s, ret));
  }

  // --- Every step keeps the order -------------------------------------------------------

  predicate IsEntry(st: Step) { st.Submit? || st.Admit? || st.Raise? || st.WakeDone? || st.WakeTimeout? }

  predicate IsSubMutex(st: Step) { st.SubLock? || st.SubTest? || st.SubUnlock? }

  predicate IsIdle(st: Step) {
    st.Poke? || st.Start? || st.Down? || st.Interrupted? || st.Peek? || st.Leave?
  }

  predicate IsCompletion(st: Step) {
    st.DrainDrop? || st.Lock? || st.Test? || st.SetStatus? || st.Signal? || st.Null? || st.Unlock?
  }

  lemma EntryKeepsOrder(s: State, st: Step)
    requires OrderInv(s) && Enabled(s, st) && IsEntry(st)
    ensures OrderInv(Apply(s, st))
  {
    OrderFrame(s, Apply(s, st), st.id);
  }

  lemma SubMutexKeepsOrder(s: State, st: Step)
    requires OrderInv(s) && Enabled(s, st) && IsSubMutex(st)
    ensures OrderInv(Apply(s, st))
  {
    OrderFrame(s, Apply(s, st), st.id);
  }

  lemma IdleKeepsOrder(s: State, st: Step)
    requires OrderInv(s) && Enabled(s, st) && IsIdle(st)
    ensures OrderInv(Apply(s, st))
  {
    OrderIdle(s, Apply(s, st));
  }

  lemma CompletionKeepsOrder(s: State, st: Step)
    requires OrderInv(s) && Enabled(s, st) && IsCompletion(st)
    ensures OrderInv(Apply(s, st))
  {
    OrderFrame(s, Apply(s, st), s.thread.id);
  }

  lemma HeadNotRan(s: State)
    requires OrderInv(s) && RecordInv(s)
    ensures s.queue != [] ==> s.queue[0] in s.cmds && !s.cmds[s.queue[0]].ran
  {
    hide Distinct;
    if s.queue != [] {
      var id := s.queue[0];
      assert id in s.queue && id in s.log;
      assert PlaceInv(s.cmds[id]);
    }
  }

  lemma DequeueKeepsOrder(s: State, cannotRun: bool)
    requires OrderInv(s) && RecordInv(s) && Enabled(s, Dequeue(cannotRun))
    ensures OrderInv(DoDequeue(s, cannotRun))
  {
    HeadNotRan(s);
    var t := DoDequeue(s, cannotRun);
    if t.thread.Hand? {
      OrderTake(s, t);
    } else {
      OrderIdle(s, t);
    }
  }

  lemma DrainTakeKeepsOrder(s: State)
    requires OrderInv(s) && RecordInv(s) && Enabled(s, DrainTake)
    ensures OrderInv(DoDrainTake(s))
  {
    HeadNotRan(s);
    var t := DoDrainTake(s);
    if t.thread.Hand? {
      OrderTake(s, t);
    } else {
      OrderIdle(s, t);
    }
  }

  lemma CheckKeepsOrder(s: State, hwReady: bool, powered: bool)
    requires OrderInv(s) && RecordInv(s) && ThreadAt(s, Fresh)
    ensures OrderInv(DoCheck(s, hwReady, powered))
  {
    hide OrderInv, MutexInv, Distinct;
    var t := DoCheck(s, hwReady, powered);
    if t.thread.Hand? { OrderFrame(s, t, s.thread.id); } else { OrderPutBack(s, t); }
  }

  lemma StepKeepsOrder(s: State, st: Step)
    requires Inv(s) && Enabled(s, st)
    ensures OrderInv(Apply(s, st))
  {
    if IsEntry(st) { EntryKeepsOrder(s, st); }
    else if IsSubMutex(st) { SubMutexKeepsOrder(s, st); }
    else if IsIdle(st) { IdleKeepsOrder(s, st); }
    else if IsCompletion(st) { CompletionKeepsOrder(s, st); }
    else if st.Append? { OrderAppend(s, st.id); }
    else if st.Dequeue? { DequeueKeepsOrder(s, st.cannotRun); }
    else if st.DrainTake? { DrainTakeKeepsOrder(s); }
    else if st.Check? { CheckKeepsOrder(s, st.hwReady, st.powered); }
    else if st.Execute? { OrderExecute(s, st.ret); }
    else { OrderFinish(s, DoFinish(s)); }
  }

  // --- Every step keeps the records, the mutexes and the wake-ups ------------------------

  /** A step that rewrites the record of `id` only. */
  lemma RecordFrame(s: State, t: State, id: CmdId)
    requires RecordInv(s)
    requires id in t.cmds && t.cmds == s.cmds[id := t.cmds[id]] && t.faults == {}
    requires PlaceInv(t.cmds[id])
    requires t.cmds[id].place.InHand? ==> t.thread.Hand? && t.thread.id == id && StageInv(t.cmds[id], t.thread.stage)
    requires t.thread.Hand? && t.thread.id == id ==> t.cmds[id].place.InHand?
    requires if s.thread.Hand? && s.thread.id != id then t.thread == s.thread
             else t.thread.Hand? ==> t.thread.id == id
    ensures RecordInv(t)
  {
  }

  /** The stages in which a submitter of the command in hand may act. */
  lemma OffCritical(s: State, id: CmdId)
    requires MutexInv(s) && RecordInv(s) && id in s.cmds && s.thread.Hand?
    requires s.cmds[id].sub.Holding? || s.cmds[id].sub.Unlocking?
    requires s.thread.id == id
    ensures !Critical(s.thread.stage)
  {
  }

  lemma SubmitKeepsRecords(s: State, id: CmdId, req: Request)
    requires RecordInv(s) && MutexInv(s) && id !in s.cmds
    ensures RecordInv(Apply(s, Submit(id, req)))
  {
    assert PlaceInv(NewCmd(req));
    RecordFrame(s, Apply(s, Submit(id, req)), id);
  }

  lemma AdmitKeepsRecords(s: State, id: CmdId, hwReady: bool)
    requires RecordInv(s) && MutexInv(s) && SubAt(s, id, Building)
    ensures RecordInv(DoAdmit(s, id, hwReady))
  {
    assert PlaceInv(s.cmds[id]);
    RecordFrame(s, DoAdmit(s, id, hwReady), id);
  }

  lemma AppendKeepsRecords(s: State, id: CmdId)
    requires RecordInv(s) && MutexInv(s) && SubAt(s, id, Admitted)
    ensures RecordInv(DoAppend(s, id))
  {
    assert PlaceInv(s.cmds[id]);
    RecordFrame(s, DoAppend(s, id), id);
  }

  lemma RaiseKeepsRecords(s: State, id: CmdId)
    requires RecordInv(s) && MutexInv(s) && SubAt(s, id, Linked)
    ensures RecordInv(DoRaise(s, id))
  {
    assert PlaceInv(s.cmds[id]);
    RecordFrame(s, DoRaise(s, id), id);
  }

  lemma WakeKeepsRecords(s: State, id: CmdId)
    requires RecordInv(s) && MutexInv(s) && SubAt(s, id, Waiting)
    ensures RecordInv(DoWake(s, id))
  {
    assert PlaceInv(s.cmds[id]);
    RecordFrame(s, DoWake(s, id), id);
  }

  lemma SubLockKeepsRecords(s: State, id: CmdId)
    requires RecordInv(s) && MutexInv(s) && Enabled(s, SubLock(id))
    ensures RecordInv(DoSubLock(s, id))
  {
    assert PlaceInv(s.cmds[id]);
    RecordFrame(s, DoSubLock(s, id), id);
  }

  lemma SubTestKeepsRecords(s: State, id: CmdId)
    requires RecordInv(s) && MutexInv(s) && SubAt(s, id, Holding)
    ensures RecordInv(DoSubTest(s, id))
  {
    assert PlaceInv(s.cmds[id]);
    if s.thread.Hand? && s.thread.id == id { OffCritical(s, id); }
    RecordFrame(s, DoSubTest(s, id), id);
  }

  lemma SubUnlockKeepsRecords(s: State, id: CmdId)
    requires RecordInv(s) && MutexInv(s) && SubAt(s, id, Unlocking)
    ensures RecordInv(DoSubUnlock(s, id))
  {
    assert PlaceInv(s.cmds[id]);
    if s.thread.Hand? && s.thread.id == id { OffCritical(s, id); }
    RecordFrame(s, DoSubUnlock(s, id), id);
  }

  /** The head of the queue, once in hand, satisfies what the first stages need. */
  lemma TakenCmd(c: Cmd)
    requires PlaceInv(c) && c.place.Queued?
    ensures var h := c.(place := InHand); PlaceInv(h) && StageInv(h, Fresh)
    ensures var h := c.(place := InHand, drained := true); PlaceInv(h) && StageInv(h, ToDrop)
  {
  }

  lemma DequeueKeepsRecords(s: State, cannotRun: bool)
    requires OrderInv(s) && RecordInv(s) && Enabled(s, Dequeue(cannotRun))
    ensures RecordInv(DoDequeue(s, cannotRun))
  {
    if !cannotRun && s.queue != [] {
      assert s.queue[0] in s.queue;
      TakenCmd(s.cmds[s.queue[0]]);
      RecordFrame(s, DoDequeue(s, cannotRun), s.queue[0]);
    }
  }

  lemma DrainTakeKeepsRecords(s: State)
    requires OrderInv(s) && RecordInv(s) && Enabled(s, DrainTake)
    ensures RecordInv(DoDrainTake(s))
  {
    if s.queue != [] {
      assert s.queue[0] in s.queue;
      TakenCmd(s.cmds[s.queue[0]]);
      RecordFrame(s, DoDrainTake(s), s.queue[0]);
    }
  }

  /** The three ways out of the checks, for the command alone. */
  lemma CheckedCmd(c: Cmd)
    requires PlaceInv(c) && c.place.InHand? && StageInv(c, Fresh)
    ensures c.req.size > MAX_CMDSZ || !HasHandler(c.req.code) ==>
      var d := c.(res := H2C_PARAMETERS_ERROR); PlaceInv(d) && StageInv(d, ToLock)
    ensures var d := FreePayload(c).(res := H2C_DROPPED); PlaceInv(d) && StageInv(d, ToLock)
    ensures PlaceInv(c.(res := H2C_ENQ_HEAD, place := Queued))
  {
  }

  lemma CheckKeepsRecords(s: State, hwReady: bool, powered: bool)
    requires RecordInv(s) && MutexInv(s) && ThreadAt(s, Fresh)
    ensures RecordInv(DoCheck(s, hwReady, powered))
  {
    CheckedCmd(s.cmds[s.thread.id]);
    RecordFrame(s, DoCheck(s, hwReady, powered), s.thread.id);
  }

  lemma ExecuteKeepsRecords(s: State, ret: nat)
    requires RecordInv(s) && MutexInv(s) && ThreadAt(s, Ready)
    ensures RecordInv(DoExecute(s, ret))
  {
    assert PlaceInv(s.cmds[s.thread.id]);
    RecordFrame(s, DoExecute(s, ret), s.thread.id);
  }

  lemma DropKeepsRecords(s: State)
    requires RecordInv(s) && MutexInv(s) && ThreadAt(s, ToDrop)
    ensures RecordInv(DoDrainDrop(s))
  {
    assert PlaceInv(s.cmds[s.thread.id]);
    RecordFrame(s, DoDrainDrop(s), s.thread.id);
  }

  lemma LockKeepsRecords(s: State)
    requires RecordInv(s) && MutexInv(s) && Enabled(s, Lock)
    ensures RecordInv(DoLock(s))
  {
    assert PlaceInv(s.cmds[s.thread.id]);
    RecordFrame(s, DoLock(s), s.thread.id);
  }

  lemma TestKeepsRecords(s: State)
    requires RecordInv(s) && MutexInv(s) && ThreadAt(s, ToTest)
    ensures RecordInv(DoTest(s))
  {
    assert PlaceInv(s.cmds[s.thread.id]);
    RecordFrame(s, DoTest(s), s.thread.id);
  }

  lemma SetStatusKeepsRecords(s: State)
    requires RecordInv(s) && MutexInv(s) && ThreadAt(s, ToStatus)
    ensures RecordInv(DoSetStatus(s))
  {
    assert PlaceInv(s.cmds[s.thread.id]);
    RecordFrame(s, DoSetStatus(s), s.thread.id);
  }

  lemma SignalKeepsRecords(s: State)
    requires RecordInv(s) && MutexInv(s) && ThreadAt(s, ToSignal)
    ensures RecordInv(DoSignal(s))
  {
    assert PlaceInv(s.cmds[s.thread.id]);
    RecordFrame(s, DoSignal(s), s.thread.id);
  }

  lemma NullKeepsRecords(s: State)
    requires RecordInv(s) && MutexInv(s) && ThreadAt(s, ToNull)
    ensures RecordInv(DoNull(s))
  {
    assert PlaceInv(s.cmds[s.thread.id]);
    RecordFrame(s, DoNull(s), s.thread.id);
  }

  lemma UnlockKeepsRecords(s: State)
    requires RecordInv(s) && MutexInv(s) && ThreadAt(s, ToUnlock)
    ensures RecordInv(DoUnlock(s))
  {
    assert PlaceInv(s.cmds[s.thread.id]);
    RecordFrame(s, DoUnlock(s), s.thread.id);
  }

  lemma FinishKeepsRecords(s: State)
    requires RecordInv(s) && MutexInv(s) && ThreadAt(s, ToFinish)
    ensures RecordInv(DoFinish(s))
  {
    assert PlaceInv(s.cmds[s.thread.id]);
    RecordFrame(s, DoFinish(s), s.thread.id);
  }

  /** Steps outside the critical regions rewrite one record and leave every mutex alone. */
  lemma MutexFrame(s: State, t: State, id: CmdId)
    requires MutexInv(s) && t.mutex == s.mutex
    requires id in t.cmds && t.cmds == s.cmds[id := t.cmds[id]]
    requires id in s.cmds ==> t.cmds[id].req == s.cmds[id].req
    requires (t.cmds[id].sub.Holding? || t.cmds[id].sub.Unlocking?) ==>
             id in s.cmds && (s.cmds[id].sub.Holding? || s.cmds[id].sub.Unlocking?)
    requires t.thread.Hand? && Critical(t.thread.stage) ==>
             s.thread.Hand? && Critical(s.thread.stage) && s.thread.id == t.thread.id
    ensures MutexInv(t)
  {
  }

  lemma EntryKeepsMutex(s: State, st: Step)
    requires MutexInv(s) && Enabled(s, st) && (IsEntry(st) || st.Append? || st.SubTest?)
    ensures MutexInv(Apply(s, st))
  {
    MutexFrame(s, Apply(s, st), st.id);
  }

  /** Whoever takes a mutex finds it free, and whoever releases one owned it. */
  lemma SubLockKeepsMutex(s: State, id: CmdId)
    requires MutexInv(s) && Enabled(s, SubLock(id))
    ensures MutexInv(DoSubLock(s, id))
  {
  }

  lemma SubUnlockKeepsMutex(s: State, id: CmdId)
    requires MutexInv(s) && SubAt(s, id, Unlocking)
    ensures MutexInv(DoSubUnlock(s, id))
  {
  }

  lemma LockKeepsMutex(s: State)
    requires MutexInv(s) && Enabled(s, Lock)
    ensures MutexInv(DoLock(s))
  {
  }

  lemma UnlockKeepsMutex(s: State)
    requires MutexInv(s) && ThreadAt(s, ToUnlock)
    ensures MutexInv(DoUnlock(s))
  {
  }

  lemma TakeKeepsMutex(s: State, st: Step)
    requires MutexInv(s) && Enabled(s, st) && (st.Dequeue? || st.DrainTake?)
    ensures MutexInv(Apply(s, st))
  {
    var t := Apply(s, st);
    if t.thread.Hand? {
      assert s.queue[0] in s.queue;
      MutexFrame(s, t, s.queue[0]);
    }
  }

  lemma WorkKeepsMutex(s: State, st: Step)
    requires MutexInv(s) && Enabled(s, st)
    requires st.Check? || st.Execute? || st.DrainDrop? || st.Finish?
    ensures MutexInv(Apply(s, st))
  {
    MutexFrame(s, Apply(s, st), s.thread.id);
  }

  lemma CompletionKeepsMutex(s: State, st: Step)
    requires MutexInv(s) && Enabled(s, st)
    requires st.Test? || st.SetStatus? || st.Signal? || st.Null?
    ensures MutexInv(Apply(s, st))
  {
    MutexFrame(s, Apply(s, st), s.thread.id);
  }

  lemma IdleKeepsMutex(s: State, st: Step)
    requires MutexInv(s) && Enabled(s, st) && IsIdle(st)
    ensures MutexInv(Apply(s, st))
  {
    var t := Apply(s, st);
    assert t.cmds == s.cmds && t.mutex == s.mutex;
  }

  lemma StepKeepsMutex(s: State, st: Step)
    requires MutexInv(s) && Enabled(s, st)
    ensures MutexInv(Apply(s, st))
  {
    if IsEntry(st) || st.Append? || st.SubTest? { EntryKeepsMutex(s, st); }
    else if IsIdle(st) { IdleKeepsMutex(s, st); }
    else if st.SubLock? { SubLockKeepsMutex(s, st.id); }
    else if st.SubUnlock? { SubUnlockKeepsMutex(s, st.id); }
    else if st.Lock? { LockKeepsMutex(s); }
    else if st.Unlock? { UnlockKeepsMutex(s); }
    else if st.Dequeue? || st.DrainTake? { TakeKeepsMutex(s, st); }
    else if st.Test? || st.SetStatus? || st.Signal? || st.Null? { CompletionKeepsMutex(s, st); }
    else { WorkKeepsMutex(s, st); }
  }

  lemma SubmitterKeepsRecords(s: State, st: Step)
    requires RecordInv(s) && MutexInv(s) && Enabled(s, st) && (IsEntry(st) || IsSubMutex(st) || st.Append?)
    ensures RecordInv(Apply(s, st))
  {
    match st
    case Submit(id, req) => SubmitKeepsRecords(s, id, req);
    case Admit(id, hwReady) => AdmitKeepsRecords(s, id, hwReady);
    case Append(id) => AppendKeepsRecords(s, id);
    case Raise(id) => RaiseKeepsRecords(s, id);
    case WakeDone(id) => WakeKeepsRecords(s, id);
    case WakeTimeout(id) => WakeKeepsRecords(s, id);
    case SubLock(id) => SubLockKeepsRecords(s, id);
    case SubTest(id) => SubTestKeepsRecords(s, id);
    case SubUnlock(id) => SubUnlockKeepsRecords(s, id);
  }

  lemma CompletionKeepsRecords(s: State, st: Step)
    requires RecordInv(s) && MutexInv(s) && Enabled(s, st) && IsCompletion(st)
    ensures RecordInv(Apply(s, st))
  {
    match st
    case DrainDrop => DropKeepsRecords(s);
    case Lock => LockKeepsRecords(s);
    case Test => TestKeepsRecords(s);
    case SetStatus => SetStatusKeepsRecords(s);
    case Signal => SignalKeepsRecords(s);
    case Null => NullKeepsRecords(s);
    case Unlock => UnlockKeepsRecords(s);
  }

  lemma IdleKeepsRecords(s: State, st: Step)
    requires RecordInv(s) && Enabled(s, st) && IsIdle(st)
    ensures RecordInv(Apply(s, st))
  {
    assert Apply(s, st).cmds == s.cmds;
  }

  lemma StepKeepsRecords(s: State, st: Step)
    requires Inv(s) && Enabled(s, st)
    ensures RecordInv(Apply(s, st))
  {
    if IsEntry(st) || IsSubMutex(st) || st.Append? { SubmitterKeepsRecords(s, st); }
    else if IsCompletion(st) { CompletionKeepsRecords(s, st); }
    else if IsIdle(st) { IdleKeepsRecords(s, st); }
    else if st.Dequeue? { DequeueKeepsRecords(s, st.cannotRun); }
    else if st.DrainTake? { DrainTakeKeepsRecords(s); }
    else if st.Check? { CheckKeepsRecords(s, st.hwReady, st.powered); }
    else if st.Execute? { ExecuteKeepsRecords(s, st.ret); }
    else { FinishKeepsRecords(s); }
  }

  /** A submitter leaves `Linked` only by raising the semaphore. */
  lemma SubmitterKeepsWake(s: State, st: Step)
    requires WakeInv(s) && Enabled(s, st) && (IsEntry(st) || IsSubMutex(st) || st.Append?)
    ensures WakeInv(Apply(s, st))
  {
  }

  /** The thread goes to sleep only with an empty queue or after putting a command back. */
  lemma SleepKeepsWake(s: State, st: Step)
    requires OrderInv(s) && WakeInv(s) && Enabled(s, st)
    requires st.Dequeue? || st.DrainTake? || IsIdle(st)
    ensures WakeInv(Apply(s, st))
  {
    var t := Apply(s, st);
    if t.thread.AtSema? || t.thread.Off? {
      assert t.cmds == s.cmds;
    }
  }

  lemma WorkKeepsWake(s: State, st: Step)
    requires WakeInv(s) && Enabled(s, st)
    requires st.Check? || st.Execute? || st.Finish? || IsCompletion(st)
    ensures WakeInv(Apply(s, st))
  {
    var t := Apply(s, st);
    assert !t.thread.Off? && (t.thread.AtSema? ==> t.putBack);
  }

  lemma StepKeepsWake(s: State, st: Step)
    requires OrderInv(s) && WakeInv(s) && Enabled(s, st)
    ensures WakeInv(Apply(s, st))
  {
    if IsEntry(st) || IsSubMutex(st) || st.Append? { SubmitterKeepsWake(s, st); }
    else if st.Dequeue? || st.DrainTake? || IsIdle(st) { SleepKeepsWake(s, st); }
    else { WorkKeepsWake(s, st); }
  }

  lemma StepKeepsInv(s: State, st: Step)
    requires Inv(s) && Enabled(s, st)
    ensures Inv(Apply(s, st))
  {
    StepKeepsOrder(s, st);
    StepKeepsRecords(s, st);
    StepKeepsMutex(s, st);
    StepKeepsWake(s, st);
  }

  lemma {:induction false} ScheduleKeepsInv(s: State, steps: seq<Step>)
    requires Inv(s) && Schedule(s, steps)
    ensures Inv(Outcome(s, steps))
    decreases |steps|
  {
    if steps != [] {
      StepKeepsInv(s, steps[0]);
      ScheduleKeepsInv(Apply(s, steps[0]), steps[1..]);
    }
  }

  // --- Theorems about whole schedules ------------------------------------------------------

  lemma InitHasInv(s: State)
    requires Init(s)
    ensures Inv(s)
  {
    assert s.finished + InHandSeq(s) + s.queue == [];
  }

  /** No interleaving of submitters, timeouts and the thread makes the thread use a freed
      command or the context of a submitter that has returned, or makes a submitter use a
      freed command; no context is completed twice; no object or payload is freed twice. */
  lemma NoUseAfterFree(s: State, steps: seq<Step>)
    requires Init(s) && Schedule(s, steps)
    ensures var t := Outcome(s, steps);
      && t.faults == {}
      && forall id :: id in t.cmds ==>
           t.cmds[id].signals <= 1 && t.cmds[id].frees <= 1 && t.cmds[id].payloadFrees <= 1
  {
    InitHasInv(s);
    ScheduleKeepsInv(s, steps);
    var t := Outcome(s, steps);
    forall id | id in t.cmds
      ensures t.cmds[id].signals <= 1 && t.cmds[id].frees <= 1 && t.cmds[id].payloadFrees <= 1
    {
      assert PlaceInv(t.cmds[id]);
    }
  }

  /** Whoever reads "success" in a submit context knows that the handler ran and succeeded,
      and whoever reads "dropped" knows that it did not run. */
  lemma StatusIsTruthful(s: State, steps: seq<Step>, id: CmdId)
    requires Init(s) && Schedule(s, steps) && id in Outcome(s, steps).cmds
    ensures var c := Outcome(s, steps).cmds[id];
      && (c.status.DoneSuccess? ==> c.ran && c.result == H2C_SUCCESS)
      && (c.status.DoneCmdDrop? ==> !c.ran)
  {
    InitHasInv(s);
    ScheduleKeepsInv(s, steps);
    assert PlaceInv(Outcome(s, steps).cmds[id]);
  }

  /** Conservation and order: at every moment the accepted commands are, in acceptance order,
      the finished ones, the one in hand and the queued ones, each exactly once; and handlers
      are called in acceptance order, at most once per command, put-backs included. */
  lemma CommandsAreConserved(s: State, steps: seq<Step>)
    requires Init(s) && Schedule(s, steps)
    ensures var t := Outcome(s, steps);
      && t.log == t.finished + InHandSeq(t) + t.queue
      && Distinct(t.log)
      && t.executed == Picked(t.log, RanSet(t))
  {
    InitHasInv(s);
    ScheduleKeepsInv(s, steps);
    var t := Outcome(s, steps);
    var prefix := t.finished + InHandSeq(t);
    assert forall id :: id in t.queue ==> id in t.log && !t.cmds[id].ran;
    PickedTail(prefix, t.queue, RanSet(t));
  }

  lemma {:induction false} PickedTail(ids: seq<CmdId>, tail: seq<CmdId>, chosen: set<CmdId>)
    requires forall id :: id in tail ==> id !in chosen
    ensures Picked(ids + tail, chosen) == Picked(ids, chosen)
  {
    if tail == [] {
      assert ids + tail == ids;
    } else {
      var front := tail[..|tail| - 1];
      assert ids + tail == (ids + front) + [tail[|tail| - 1]];
      PickedSnoc(ids + front, tail[|tail| - 1], chosen);
      PickedTail(ids, front, chosen);
    }
  }

  /** What has become of a command that left the thread: its payload was freed exactly once,
      and the object exactly once unless the disconnect callback kept it after a failure. */
  lemma FinishedCommandsAreReleased(s: State, steps: seq<Step>, id: CmdId)
    requires Init(s) && Schedule(s, steps) && id in Outcome(s, steps).finished
    ensures var t := Outcome(s, steps);
      && id in t.cmds
      && t.cmds[id].payloadFrees == (if t.cmds[id].req.OwnsPayload() then 1 else 0)
      && t.cmds[id].frees == (if KeptByCallback(t.cmds[id]) then 0 else 1)
      && !t.cmds[id].sctx
  {
    InitHasInv(s);
    ScheduleKeepsInv(s, steps);
    var t := Outcome(s, steps);
    assert id in t.log;
    assert PlaceInv(t.cmds[id]);
  }

  /** A submission that was refused never entered the queue, and object and payload were freed
      exactly once. */
  lemma RefusedCommandsAreReleased(s: State, steps: seq<Step>, id: CmdId)
    requires Init(s) && Schedule(s, steps)
    requires id in Outcome(s, steps).cmds && Outcome(s, steps).cmds[id].sub == Gone(false)
    ensures var t := Outcome(s, steps);
      && id !in t.log
      && t.cmds[id].frees == 1
      && t.cmds[id].payloadFrees == (if t.cmds[id].req.OwnsPayload() then 1 else 0)
  {
    InitHasInv(s);
    ScheduleKeepsInv(s, steps);
    assert PlaceInv(Outcome(s, steps).cmds[id]);
  }

  /** No wake-up is lost: if the thread sleeps with the semaphore at zero and did not put a
      command back, then whatever is queued belongs to a submitter about to raise it. */
  lemma NoLostWakeup(s: State, steps: seq<Step>, id: CmdId)
    requires Init(s) && Schedule(s, steps)
    requires var t := Outcome(s, steps); t.thread.AtSema? && !t.putBack && t.sema == 0 && id in t.queue
    ensures var t := Outcome(s, steps); id in t.cmds && t.cmds[id].sub.Linked?
  {
    InitHasInv(s);
    ScheduleKeepsInv(s, steps);
    assert id in Outcome(s, steps).log;
  }
}
