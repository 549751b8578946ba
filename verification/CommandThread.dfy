/**
  The driver's command queue: any number of submitters append command objects, one
  thread consumes them, and a submitter may wait (with a timeout) on a submit context
  that lives on its own stack.

  The model is a state machine over the atomic steps of the two kinds of agent.  Every
  access to a command object or to a submit context is checked against the lifetime of
  that memory, and an access after the end of that lifetime is recorded as a fault, so
  the theorem "no schedule produces a fault" is a statement about the protocol and not
  about the shape of the model.
 */
module CommandThread {

  type CmdId = nat

  // H2C result codes and the command codes that the thread treats specially.
  const H2C_SUCCESS := 0
  const H2C_DROPPED := 3
  const H2C_PARAMETERS_ERROR := 4
  const H2C_ENQ_HEAD := 8
  const MAX_CMDSZ := 1024
  const DISCONNECT := 15
  const SET_DRV_EXTRA := 57
  const SET_CHANNEL_PLAN := 59

  /** The rows of the handler table that are not null. */
  predicate HasHandler(code: nat) {
    code <= 5 || 14 <= code <= 21 || code == 45 || code == 46 || 55 <= code <= 66
  }

  /** `status` of a submit context. */
  datatype Status = Submitted | DoneSuccess | DoneCmdError | DoneCmdDrop

  /** What one submission asks for.  `payload` says that the extra-command parameter has a
      buffer with a positive size; `adapter` selects the mutex that guards the context. */
  datatype Request = Request(code: nat, size: nat, noIo: bool, payload: bool, wait: bool, adapter: nat)
  {
    predicate OwnsPayload() { code == SET_DRV_EXTRA && payload }
  }

  /** Program counter of a submitter. */
  datatype Submitter =
    | Building   // object built, about to be filtered
    | Admitted   // filter passed, about to be appended
    | Linked     // appended, about to raise the semaphore
    | Waiting    // inside the bounded wait
    | Awake      // the wait ended, about to take the mutex
    | Holding    // holds the mutex, about to test the status
    | Unlocking  // holds the mutex, about to release it
    | Gone(accepted: bool)  // returned: the submit context no longer exists

  datatype Place = Outside | Queued | InHand | Finished

  /** One submission: the command object, the submit context and the submitter. */
  datatype Cmd = Cmd(
    req: Request,
    sub: Submitter,
    place: Place,
    sctx: bool,          // the object's context pointer is not null
    res: nat,
    freed: bool,
    frees: nat,          // times the object was freed
    payloadFrees: nat,   // times the payload buffer was freed
    drained: bool,       // taken off the queue by the leaving thread
    ran: bool,           // the handler was called
    result: nat,         // what the handler returned
    status: Status,      // of the submit context
    signals: nat)        // times the submit context was completed

  /** How far the thread is with the command in its hand. */
  datatype Stage =
    | Fresh | Ready | ToDrop
    | ToLock | ToTest | ToStatus | ToSignal | ToNull | ToUnlock | ToFinish

  datatype Thread =
    | Off | AtSema | AtPeek | AtNext | AtLeave | AtDrain
    | Hand(id: CmdId, stage: Stage)

  datatype Agent = TheThread | TheSubmitter(id: CmdId)

  datatype Fault =
    | ThreadUsedFreedCmd(id: CmdId)
    | ThreadUsedDeadContext(id: CmdId)
    | SubmitterUsedFreedCmd(id: CmdId)

  datatype State = State(
    cmds: map<CmdId, Cmd>,
    queue: seq<CmdId>,
    sema: nat,
    running: bool,
    thread: Thread,
    mutex: map<nat, Agent>,    // adapter -> owner, for the mutexes that are held
    putBack: bool,             // the thread last left the queue by putting a command back
    log: seq<CmdId>,           // accepted commands, in the order they were appended
    finished: seq<CmdId>,      // commands the thread is done with, in that order
    executed: seq<CmdId>,      // handler calls, in that order
    faults: set<Fault>)

  datatype Step =
    // submitters
    | Submit(id: CmdId, req: Request)
    | Admit(id: CmdId, hwReady: bool)
    | Append(id: CmdId)
    | Raise(id: CmdId)
    | WakeDone(id: CmdId)
    | WakeTimeout(id: CmdId)
    | SubLock(id: CmdId)
    | SubTest(id: CmdId)
    | SubUnlock(id: CmdId)
    // other wake-ups: a stop request, or the device leaving low power
    | Poke
    // the thread
    | Start
    | Down(cannotRun: bool)
    | Interrupted
    | Peek
    | Dequeue(cannotRun: bool)
    | Check(hwReady: bool, powered: bool)
    | Execute(ret: nat)
    | Lock
    | Test
    | SetStatus
    | Signal
    | Null
    | Unlock
    | Finish
    | Leave
    | DrainTake
    | DrainDrop

  predicate Init(s: State) {
    && s.cmds == map[] && s.queue == [] && s.sema == 0 && !s.running && s.thread == Off
    && s.mutex == map[] && !s.putBack && s.log == [] && s.finished == [] && s.executed == []
    && s.faults == {}
  }

  /** `rtw_cmd_filter`. */
  predicate Passes(req: Request, hwReady: bool, running: bool) {
    running && (hwReady || req.code == SET_CHANNEL_PLAN || req.noIo)
  }

  predicate SubAt(s: State, id: CmdId, sub: Submitter) {
    id in s.cmds && s.cmds[id].sub == sub
  }

  /** The thread holds a command that exists and is at `stage` with it. */
  predicate ThreadAt(s: State, stage: Stage) {
    s.thread.Hand? && s.thread.stage == stage && s.thread.id in s.cmds
  }

  predicate Enabled(s: State, st: Step) {
    match st
    case Submit(id, _) => id !in s.cmds
    case Admit(id, _) => SubAt(s, id, Building)
    case Append(id) => SubAt(s, id, Admitted)
    case Raise(id) => SubAt(s, id, Linked)
    case WakeDone(id) => SubAt(s, id, Waiting) && s.cmds[id].signals > 0
    case WakeTimeout(id) => SubAt(s, id, Waiting)
    case SubLock(id) => SubAt(s, id, Awake) && s.cmds[id].req.adapter !in s.mutex
    case SubTest(id) => SubAt(s, id, Holding)
    case SubUnlock(id) => SubAt(s, id, Unlocking)
    case Poke => true
    case Start => s.thread.Off?
    case Down(_) => s.thread.AtSema? && s.sema > 0
    case Interrupted => s.thread.AtSema?
    case Peek => s.thread.AtPeek?
    case Dequeue(_) => s.thread.AtNext? && forall id <- s.queue :: id in s.cmds
    case Check(_, _) => ThreadAt(s, Fresh)
    case Execute(_) => ThreadAt(s, Ready)
    case Lock => ThreadAt(s, ToLock) && s.cmds[s.thread.id].req.adapter !in s.mutex
    case Test => ThreadAt(s, ToTest)
    case SetStatus => ThreadAt(s, ToStatus)
    case Signal => ThreadAt(s, ToSignal)
    case Null => ThreadAt(s, ToNull)
    case Unlock => ThreadAt(s, ToUnlock)
    case Finish => ThreadAt(s, ToFinish)
    case Leave => s.thread.AtLeave?
    case DrainTake => s.thread.AtDrain? && forall id <- s.queue :: id in s.cmds
    case DrainDrop => ThreadAt(s, ToDrop)
  }

  function Free(c: Cmd): Cmd { c.(freed := true, frees := c.frees + 1) }

  function FreePayload(c: Cmd): Cmd {
    if c.req.OwnsPayload() then c.(payloadFrees := c.payloadFrees + 1) else c
  }

  // --- Steps of a submitter ------------------------------------------------------------

  function NewCmd(req: Request): Cmd {
    Cmd(req, Building, Outside, req.wait, H2C_SUCCESS, false, 0, 0, false, false, 0, Submitted, 0)
  }

  /** The filter and size check of `rtw_enqueue_cmd`: a refused object is freed on the spot. */
  function DoAdmit(s: State, id: CmdId, hwReady: bool): State
    requires SubAt(s, id, Building)
  {
    var c := s.cmds[id];
    if Passes(c.req, hwReady, s.running) && c.req.size <= MAX_CMDSZ
    then s.(cmds := s.cmds[id := c.(sub := Admitted)])
    else s.(cmds := s.cmds[id := Free(FreePayload(c)).(sub := Gone(false))])
  }

  function DoAppend(s: State, id: CmdId): State
    requires SubAt(s, id, Admitted)
  {
    s.(cmds := s.cmds[id := s.cmds[id].(sub := Linked, place := Queued)],
       queue := s.queue + [id], log := s.log + [id])
  }

  function DoRaise(s: State, id: CmdId): State
    requires SubAt(s, id, Linked)
  {
    var c := s.cmds[id];
    s.(cmds := s.cmds[id := c.(sub := if c.req.wait then Waiting else Gone(true))], sema := s.sema + 1)
  }

  function DoWake(s: State, id: CmdId): State
    requires SubAt(s, id, Waiting)
  {
    s.(cmds := s.cmds[id := s.cmds[id].(sub := Awake)])
  }

  function DoSubLock(s: State, id: CmdId): State
    requires SubAt(s, id, Awake)
  {
    var c := s.cmds[id];
    s.(cmds := s.cmds[id := c.(sub := Holding)], mutex := s.mutex[c.req.adapter := TheSubmitter(id)])
  }

  /** Under the mutex: detach the context unless it has been completed. */
  function DoSubTest(s: State, id: CmdId): State
    requires SubAt(s, id, Holding)
  {
    var c := s.cmds[id];
    if c.status.Submitted?
    then s.(cmds := s.cmds[id := c.(sub := Unlocking, sctx := false)],
            faults := s.faults + (if c.freed then {SubmitterUsedFreedCmd(id)} else {}))
    else s.(cmds := s.cmds[id := c.(sub := Unlocking)])
  }

  function DoSubUnlock(s: State, id: CmdId): State
    requires SubAt(s, id, Unlocking)
  {
    var c := s.cmds[id];
    s.(cmds := s.cmds[id := c.(sub := Gone(true))], mutex := s.mutex - {c.req.adapter})
  }

  // --- Steps of the thread ---------------------------------------------------------------

  function DoDown(s: State, cannotRun: bool): State
    requires s.thread.AtSema? && s.sema > 0
  {
    s.(sema := s.sema - 1, thread := if cannotRun then AtLeave else AtPeek)
  }

  function DoPeek(s: State): State
    requires s.thread.AtPeek?
  {
    s.(thread := if s.queue == [] then AtSema else AtNext,
       putBack := s.putBack && s.queue != [])
  }

  function DoDequeue(s: State, cannotRun: bool): State
    requires s.thread.AtNext? && forall id <- s.queue :: id in s.cmds
  {
    if cannotRun then s.(thread := AtLeave)
    else if s.queue == [] then s.(thread := AtSema, putBack := false)
    else
      var id := s.queue[0];
      s.(queue := s.queue[1..], thread := Hand(id, Fresh), putBack := false,
         cmds := s.cmds[id := s.cmds[id].(place := InHand)])
  }

  /** Accessing the command in hand after it was freed is a fault. */
  function UseCmd(s: State): set<Fault>
    requires s.thread.Hand? && s.thread.id in s.cmds
  {
    if s.cmds[s.thread.id].freed then {ThreadUsedFreedCmd(s.thread.id)} else {}
  }

  /** Writing the context of the command in hand after its submitter returned is a fault. */
  function UseContext(s: State): set<Fault>
    requires s.thread.Hand? && s.thread.id in s.cmds
  {
    if s.cmds[s.thread.id].sub.Gone? then {ThreadUsedDeadContext(s.thread.id)} else {}
  }

  /** The thread moves on to `stage` with the command, which has become `c`. */
  function Move(s: State, c: Cmd, stage: Stage): State
    requires s.thread.Hand? && s.thread.id in s.cmds
  {
    s.(cmds := s.cmds[s.thread.id := c], thread := Hand(s.thread.id, stage), faults := s.faults + UseCmd(s))
  }

  /** Everything between the dequeue and the handler call: parameter checks, the filter and
      the low-power registration, whose failure puts the command back at the head. */
  function DoCheck(s: State, hwReady: bool, powered: bool): State
    requires ThreadAt(s, Fresh)
  {
    var id := s.thread.id;
    var c := s.cmds[id];
    if c.req.size > MAX_CMDSZ || !HasHandler(c.req.code) then
      Move(s, c.(res := H2C_PARAMETERS_ERROR), ToLock)
    else if !Passes(c.req, hwReady, s.running) then
      Move(s, FreePayload(c).(res := H2C_DROPPED), ToLock)
    else if !c.req.noIo && !powered then
      s.(cmds := s.cmds[id := c.(res := H2C_ENQ_HEAD, place := Queued)],
         queue := [id] + s.queue, thread := AtSema, putBack := true, faults := s.faults + UseCmd(s))
    else
      Move(s, c, Ready)
  }

  /** The handler call; the extra-command handler frees the payload before it returns. */
  function DoExecute(s: State, ret: nat): State
    requires ThreadAt(s, Ready)
  {
    var c := s.cmds[s.thread.id];
    Move(s, FreePayload(c).(res := ret, ran := true, result := ret), ToLock)
      .(executed := s.executed + [s.thread.id])
  }

  function DoLock(s: State): State
    requires ThreadAt(s, ToLock)
  {
    var c := s.cmds[s.thread.id];
    Move(s, c, ToTest).(mutex := s.mutex[c.req.adapter := TheThread])
  }

  function DoTest(s: State): State
    requires ThreadAt(s, ToTest)
  {
    var c := s.cmds[s.thread.id];
    Move(s, c, if c.sctx then ToStatus else ToUnlock)
  }

  function Verdict(c: Cmd): Status {
    if c.drained then DoneCmdDrop else if c.res == H2C_SUCCESS then DoneSuccess else DoneCmdError
  }

  function DoSetStatus(s: State): State
    requires ThreadAt(s, ToStatus)
  {
    var c := s.cmds[s.thread.id];
    Move(s, c.(status := Verdict(c)), ToSignal).(faults := s.faults + UseCmd(s) + UseContext(s))
  }

  function DoSignal(s: State): State
    requires ThreadAt(s, ToSignal)
  {
    var c := s.cmds[s.thread.id];
    Move(s, c.(signals := c.signals + 1), ToNull).(faults := s.faults + UseCmd(s) + UseContext(s))
  }

  function DoNull(s: State): State
    requires ThreadAt(s, ToNull)
  {
    Move(s, s.cmds[s.thread.id].(sctx := false), ToUnlock)
  }

  function DoUnlock(s: State): State
    requires ThreadAt(s, ToUnlock)
  {
    var c := s.cmds[s.thread.id];
    Move(s, c, ToFinish).(mutex := s.mutex - {c.req.adapter})
  }

  /** The disconnect callback keeps the object when the command failed; every other way
      out of the thread frees it. */
  predicate KeptByCallback(c: Cmd) {
    !c.drained && c.req.code == DISCONNECT && c.res != H2C_SUCCESS
  }

  function DoFinish(s: State): State
    requires ThreadAt(s, ToFinish)
  {
    var id := s.thread.id;
    var c := s.cmds[id];
    s.(cmds := s.cmds[id := (if KeptByCallback(c) then c else Free(c)).(place := Finished)],
       thread := if c.drained then AtDrain else AtNext,
       finished := s.finished + [id], faults := s.faults + UseCmd(s))
  }

  function DoDrainTake(s: State): State
    requires s.thread.AtDrain? && forall id <- s.queue :: id in s.cmds
  {
    if s.queue == [] then s.(thread := Off, putBack := false)
    else
      var id := s.queue[0];
      s.(queue := s.queue[1..], thread := Hand(id, ToDrop),
         cmds := s.cmds[id := s.cmds[id].(place := InHand, drained := true)])
  }

  function DoDrainDrop(s: State): State
    requires ThreadAt(s, ToDrop)
  {
    Move(s, FreePayload(s.cmds[s.thread.id]), ToLock)
  }

  function Apply(s: State, st: Step): State
    requires Enabled(s, st)
  {
    match st
    case Submit(id, req) => s.(cmds := s.cmds[id := NewCmd(req)])
    case Admit(id, hwReady) => DoAdmit(s, id, hwReady)
    case Append(id) => DoAppend(s, id)
    case Raise(id) => DoRaise(s, id)
    case WakeDone(id) => DoWake(s, id)
    case WakeTimeout(id) => DoWake(s, id)
    case SubLock(id) => DoSubLock(s, id)
    case SubTest(id) => DoSubTest(s, id)
    case SubUnlock(id) => DoSubUnlock(s, id)
    case Poke => s.(sema := s.sema + 1)
    case Start => s.(thread := AtSema, running := true)
    case Down(cannotRun) => DoDown(s, cannotRun)
    case Interrupted => s.(thread := AtLeave)
    case Peek => DoPeek(s)
    case Dequeue(cannotRun) => DoDequeue(s, cannotRun)
    case Check(hwReady, powered) => DoCheck(s, hwReady, powered)
    case Execute(ret) => DoExecute(s, ret)
    case Lock => DoLock(s)
    case Test => DoTest(s)
    case SetStatus => DoSetStatus(s)
    case Signal => DoSignal(s)
    case Null => DoNull(s)
    case Unlock => DoUnlock(s)
    case Finish => DoFinish(s)
    case Leave => s.(thread := AtDrain, running := false)
    case DrainTake => DoDrainTake(s)
    case DrainDrop => DoDrainDrop(s)
  }

  /** A schedule: an interleaving of steps, each enabled where it is taken. */
  predicate Schedule(s: State, steps: seq<Step>)
    decreases |steps|
  {
    steps == [] || (Enabled(s, steps[0]) && Schedule(Apply(s, steps[0]), steps[1..]))
  }

  function Outcome(s: State, steps: seq<Step>): State
    requires Schedule(s, steps)
    decreases |steps|
  {
    if steps == [] then s else Outcome(Apply(s, steps[0]), steps[1..])
  }
}
