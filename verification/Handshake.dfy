/** The handshake between the permuter and its threads: `Thread::start`, `run`, `pause`, `step` and
    `stop`, one transition per access to shared data, with spurious wakeups. Every thread has its own
    mutex, condition variable and flag, which it shares with the controller only. */
module Handshake {

  datatype Option<T> = None | Some(value: T)

  datatype StateType =
    Yielding | Blocking | BlockingWithProgress | Waiting | Woken | NotifyOne | NotifyAll | Finished

  /** Who holds `m_paused_mutex`. */
  datatype Owner = Nobody | Controller | Worker

  /** Where a thread is; `st` is the state of the pause that it is in. */
  datatype ThreadPc =
    | NotStarted
    | Begin                     // in `run`, before the first pause
    | User                      // in `m_test`
    | Locking(st: StateType)    // in `pause`, `m_state` is set
    | Announcing(st: StateType) // owns the mutex, is about to set `m_paused`
    | Checking(st: StateType)   // owns the mutex, is about to look at `m_paused`
    | Sleeping(st: StateType)   // waits on `m_paused_condition`
    | Waking(st: StateType)     // was woken, needs the mutex
    | Resuming(st: StateType)   // saw `!m_paused`, is about to release the mutex and return
    | Exited                    // left `run`

  /** What the user's code does as far as the permuter can tell. */
  datatype Act = Progress | Pause(st: StateType)

  datatype Thread = Thread(pc: ThreadPc, owner: Owner, paused: bool, state: StateType,
                           progress: bool, lastPermutation: bool,
                           acts: seq<Act>, returned: seq<StateType>)

  /** How far the controller is in `start` or `step`. */
  datatype Phase = Lock | Signal | Check | Sleep | Wake

  datatype StopPhase = SetLast | StopLock | StopSignal | Join

  datatype ControllerPc =
    | Starting(i: nat, phase: Phase)
    | Idle
    | Stepping(i: nat, phase: Phase)
    | Stopping(i: nat, stop: StopPhase)
    | Done

  datatype System = System(ctl: ControllerPc, threads: seq<Thread>)

  function Init(n: nat): System {
    System(if n == 0 then Idle else Starting(0, Lock),
           seq(n, _ => Thread(NotStarted, Nobody, false, Yielding, false, false, [], [])))
  }

  // ---------- the transitions of a thread ----------

  datatype ThreadEvent =
    | Call(st: StateType)   // calls pause
    | MadeProgress          // calls progress
    | Go                    // goes on inside pause
    | SpuriousWakeup

  function CallPause(t: Thread, st: StateType): Thread {
    var up := if t.progress && st == Blocking then BlockingWithProgress else st;
    t.(state := up, progress := false, pc := Locking(up), acts := t.acts + [Pause(st)])
  }

  function ThreadMove(t: Thread, e: ThreadEvent): Option<Thread> {
    match (t.pc, e)
    case (Begin, Call(Yielding)) => Some(CallPause(t, Yielding))
    case (User, Call(st)) => Some(CallPause(t, st))
    case (User, MadeProgress) => Some(t.(progress := true, acts := t.acts + [Progress]))
    case (Locking(st), Go) => if t.owner == Nobody then Some(t.(owner := Worker, pc := Announcing(st))) else None
    case (Announcing(st), Go) => Some(t.(paused := true, pc := Checking(st)))
    case (Checking(st), Go) =>
      Some(if t.paused then t.(owner := Nobody, pc := Sleeping(st)) else t.(pc := Resuming(st)))
    case (Sleeping(st), SpuriousWakeup) => Some(t.(pc := Waking(st)))
    case (Waking(st), Go) => if t.owner == Nobody then Some(t.(owner := Worker, pc := Checking(st))) else None
    case (Resuming(st), Go) =>
      Some(t.(owner := Nobody, pc := if st == Finished && t.lastPermutation then Exited else User))
    case _ => None
  }

  /** `notify_one` of the controller: the only other party that can be waiting is the thread. */
  function Notified(t: Thread): Thread {
    if t.pc.Sleeping? then t.(pc := Waking(t.pc.st)) else t
  }

  /** `notify_one` of thread `i`: the only other party that can be waiting is the controller. */
  function NotifyController(ctl: ControllerPc, i: nat): ControllerPc {
    match ctl
    case Starting(j, Sleep) => if i == j then Starting(j, Wake) else ctl
    case Stepping(j, Sleep) => if i == j then Stepping(j, Wake) else ctl
    case _ => ctl
  }

  // ---------- the transitions of the controller ----------

  datatype ControllerEvent =
    | StepThread(i: nat)    // calls step
    | StopAll               // enters the loop that stops the threads
    | Proceed
    | Spurious

  function StartNext(i: nat, n: nat): ControllerPc {
    if i + 1 < n then Starting(i + 1, Lock) else Idle
  }

  function StopNext(i: nat, n: nat): ControllerPc {
    if i + 1 < n then Stopping(i + 1, SetLast) else Done
  }

  /** One move of the controller that concerns thread `t`. */
  function StartMove(i: nat, phase: Phase, t: Thread, n: nat): Option<(ControllerPc, Thread)> {
    match phase
    case Lock => if t.owner == Nobody then Some((Starting(i, Signal), t.(owner := Controller))) else None
    case Signal => Some((Starting(i, Check), t.(pc := Begin)))
    case Check =>
      Some((if t.paused then StartNext(i, n) else Starting(i, Sleep), t.(owner := Nobody)))
    case Sleep => None
    case Wake => if t.owner == Nobody then Some((Starting(i, Check), t.(owner := Controller))) else None
  }

  function StepMove(i: nat, phase: Phase, t: Thread): Option<(ControllerPc, Thread)> {
    match phase
    case Lock => if t.owner == Nobody then Some((Stepping(i, Signal), t.(owner := Controller))) else None
    case Signal => Some((Stepping(i, Check), Notified(t.(paused := false))))
    case Check =>
      Some(if t.paused then (Idle, t.(owner := Nobody, returned := t.returned + [t.state]))
           else (Stepping(i, Sleep), t.(owner := Nobody)))
    case Sleep => None
    case Wake => if t.owner == Nobody then Some((Stepping(i, Check), t.(owner := Controller))) else None
  }

  function StopMove(i: nat, phase: StopPhase, t: Thread, n: nat): Option<(ControllerPc, Thread)> {
    match phase
    case SetLast => Some((Stopping(i, StopLock), t.(lastPermutation := true)))
    case StopLock => if t.owner == Nobody then Some((Stopping(i, StopSignal), t.(owner := Controller))) else None
    case StopSignal => Some((Stopping(i, Join), Notified(t.(paused := false)).(owner := Nobody)))
    case Join => if t.pc == Exited then Some((StopNext(i, n), t)) else None
  }

  /** The controller is dealing with one thread. */
  predicate Busy(ctl: ControllerPc) { ctl.Starting? || ctl.Stepping? || ctl.Stopping? }

  function MoveOn(ctl: ControllerPc, t: Thread, n: nat): Option<(ControllerPc, Thread)>
    requires Busy(ctl)
  {
    match ctl
    case Starting(i, phase) => StartMove(i, phase, t, n)
    case Stepping(i, phase) => StepMove(i, phase, t)
    case Stopping(i, phase) => StopMove(i, phase, t, n)
  }

  function ControllerMove(s: System): Option<System> {
    if Busy(s.ctl) && s.ctl.i < |s.threads| then
      match MoveOn(s.ctl, s.threads[s.ctl.i], |s.threads|)
      case None => None
      case Some((ctl, t)) => Some(System(ctl, s.threads[s.ctl.i := t]))
    else None
  }

  datatype Event = OfThread(i: nat, e: ThreadEvent) | OfController(c: ControllerEvent)

  function Next(s: System, event: Event): Option<System> {
    match event
    case OfThread(i, e) =>
      if i >= |s.threads| then None
      else (match ThreadMove(s.threads[i], e)
            case None => None
            case Some(t) =>
              Some(System(if s.threads[i].pc.Announcing? then NotifyController(s.ctl, i) else s.ctl,
                          s.threads[i := t])))
    case OfController(StepThread(i)) =>
      if s.ctl == Idle && i < |s.threads| then Some(s.(ctl := Stepping(i, Lock))) else None
    case OfController(StopAll) =>
      if s.ctl == Idle then Some(s.(ctl := if |s.threads| == 0 then Done else Stopping(0, SetLast))) else None
    case OfController(Proceed) => ControllerMove(s)
    case OfController(Spurious) =>
      (match s.ctl
       case Starting(i, Sleep) => Some(s.(ctl := Starting(i, Wake)))
       case Stepping(i, Sleep) => Some(s.(ctl := Stepping(i, Wake)))
       case _ => None)
  }

  predicate IsSpurious(event: Event) {
    event == OfController(Spurious) || (event.OfThread? && event.e == SpuriousWakeup)
  }

  /** The state after the given events, if all of them can happen. */
  function Run(s: System, events: seq<Event>): Option<System>
    decreases |events|
  {
    if events == [] then Some(s)
    else
      match Next(s, events[0])
      case None => None
      case Some(r) => Run(r, events[1..])
  }

  // ---------- the invariant ----------

  /** Progress since the last pause turns `blocking` into `blocking_with_progress`. */
  function Upgrade(progress: bool, st: StateType): StateType {
    if progress && st == Blocking then BlockingWithProgress else st
  }

  /** The states that the acts of a thread pass to `pause`, after the upgrade. */
  function Passed(acts: seq<Act>): seq<StateType> {
    if acts == [] then []
    else
      var before, act := acts[..|acts| - 1], acts[|acts| - 1];
      match act
      case Progress => Passed(before)
      case Pause(st) => Passed(before) + [Upgrade(Pending(before), st)]
  }

  /** Progress was made since the last pause. */
  predicate Pending(acts: seq<Act>) {
    acts != [] && acts[|acts| - 1] == Progress
  }

  /** What the controller is doing with a thread. */
  datatype Role =
    | InStart(phase: Phase) | Resting | InStep(phase: Phase) | InStop(stop: StopPhase) | Stopped

  function RoleOf(ctl: ControllerPc, i: nat): Role {
    match ctl
    case Starting(j, phase) => if i < j then Resting else if i == j then InStart(phase) else InStart(Lock)
    case Idle => Resting
    case Stepping(j, phase) => if i == j then InStep(phase) else Resting
    case Stopping(j, phase) => if i < j then Stopped else if i == j then InStop(phase) else InStop(SetLast)
    case Done => Stopped
  }

  predicate Pausing(pc: ThreadPc) { pc.Checking? || pc.Sleeping? || pc.Waking? }

  /** Set free by the controller, and not yet paused again. */
  predicate Free(pc: ThreadPc) {
    pc.Waking? || pc.Checking? || pc.Resuming? || pc.User? || pc.Locking? || pc.Announcing?
  }

  predicate Fresh(pc: ThreadPc) { pc.Begin? || pc.Locking? || pc.Announcing? }

  predicate Holds(t: Thread) { t.pc.Announcing? || t.pc.Checking? || t.pc.Resuming? }

  predicate ControllerHolds(role: Role) {
    match role
    case InStart(phase) => phase == Signal || phase == Check
    case InStep(phase) => phase == Signal || phase == Check
    case InStop(phase) => phase == StopSignal
    case _ => false
  }

  predicate Mutex(role: Role, t: Thread) {
    && !(Holds(t) && ControllerHolds(role))
    && t.owner == if Holds(t) then Worker else if ControllerHolds(role) then Controller else Nobody
  }

  predicate Placed(role: Role, t: Thread) {
    match role
    case InStart(phase) =>
      if phase == Lock || phase == Signal then t.pc.NotStarted? && !t.paused
      else if t.paused then phase != Sleep && Pausing(t.pc)
      else Fresh(t.pc)
    case Resting => t.paused && Pausing(t.pc)
    case InStep(phase) =>
      if phase == Lock || phase == Signal then t.paused && Pausing(t.pc)
      else if t.paused then phase != Sleep && Pausing(t.pc)
      else Free(t.pc)
    case InStop(phase) =>
      if phase == Join then
        if t.paused then Pausing(t.pc) else Free(t.pc) || (t.pc.Exited? && t.state == Finished)
      else t.paused && Pausing(t.pc)
    case Stopped => !t.paused && t.state == Finished && t.pc.Exited?
  }

  /** The thread has been set free and has not called `pause` again. */
  predicate BetweenPauses(t: Thread) {
    !t.paused && !t.pc.Locking? && !t.pc.Announcing?
  }

  /** Every call of `step` has returned what was passed to the pause that ended it; `passed` and
      `pending` are what the acts of the thread come down to. */
  predicate Recorded(role: Role, t: Thread, passed: seq<StateType>, pending: bool) {
    && t.progress == pending
    && (passed != [] ==> t.state == passed[|passed| - 1])
    && match role
       case InStart(_) => t.returned == [] && passed == if t.pc.NotStarted? || t.pc.Begin? then [] else [Yielding]
       case InStep(phase) =>
         if phase == Lock || phase == Signal || BetweenPauses(t) then passed == [Yielding] + t.returned
         else passed == [Yielding] + t.returned + [t.state]
       case InStop(phase) =>
         if phase != Join || BetweenPauses(t) then passed == [Yielding] + t.returned
         else passed == [Yielding] + t.returned + [t.state]
       case _ => passed == [Yielding] + t.returned
  }

  predicate Ledger(role: Role, t: Thread) {
    Recorded(role, t, Passed(t.acts), Pending(t.acts))
  }

  /** The state of the pause that a thread is in is kept in `m_state`, and progress is only pending in test code. */
  predicate StateKept(t: Thread) {
    && (t.progress ==> t.pc.User?)
    && match t.pc
       case Locking(st) => st == t.state
       case Announcing(st) => st == t.state
       case Checking(st) => st == t.state
       case Sleeping(st) => st == t.state
       case Waking(st) => st == t.state
       case Resuming(st) => st == t.state
       case _ => true
  }

  predicate LastKept(role: Role, t: Thread) {
    t.lastPermutation <==> role.Stopped? || (role.InStop? && role.stop != SetLast)
  }

  /** All but the ledger. */
  predicate Situated(role: Role, t: Thread) {
    Mutex(role, t) && Placed(role, t) && StateKept(t) && LastKept(role, t)
  }

  predicate ThreadInv(role: Role, t: Thread) {
    Situated(role, t) && Ledger(role, t)
  }

  predicate ControllerInRange(s: System) {
    Busy(s.ctl) ==> s.ctl.i < |s.threads|
  }

  predicate Inv(s: System) {
    && ControllerInRange(s)
    && forall i | 0 <= i < |s.threads| :: ThreadInv(RoleOf(s.ctl, i), s.threads[i])
  }

  // ---------- every transition keeps the invariant ----------

  /** The role after the controller was woken while it slept in that role. */
  function WokenUp(role: Role): Role {
    match role
    case InStart(Sleep) => InStart(Wake)
    case InStep(Sleep) => InStep(Wake)
    case _ => role
  }

  function RoleAfter(role: Role, t: Thread): Role {
    if t.pc.Announcing? then WokenUp(role) else role
  }

  lemma PassedSnoc(acts: seq<Act>, act: Act)
    ensures Pending(acts + [act]) == act.Progress?
    ensures Passed(acts + [act]) ==
            if act.Progress? then Passed(acts) else Passed(acts) + [Upgrade(Pending(acts), act.st)]
  {
    assert (acts + [act])[..|acts|] == acts;
  }

  lemma ThreadKeepsMutex(role: Role, t: Thread, e: ThreadEvent)
    requires Mutex(role, t) && ThreadMove(t, e).Some?
    ensures Mutex(RoleAfter(role, t), ThreadMove(t, e).value)
  {
  }

  lemma ThreadKeepsPlace(role: Role, t: Thread, e: ThreadEvent)
    requires Mutex(role, t) && Placed(role, t) && StateKept(t) && LastKept(role, t) && ThreadMove(t, e).Some?
    ensures Placed(RoleAfter(role, t), ThreadMove(t, e).value)
  {
  }

  lemma ThreadKeepsRest(role: Role, t: Thread, e: ThreadEvent)
    requires StateKept(t) && LastKept(role, t) && ThreadMove(t, e).Some?
    ensures StateKept(ThreadMove(t, e).value) && LastKept(RoleAfter(role, t), ThreadMove(t, e).value)
  {
  }

  lemma CallRecorded(role: Role, t: Thread, st: StateType, passed: seq<StateType>, pending: bool)
    requires Placed(role, t) && Recorded(role, t, passed, pending) && ThreadMove(t, Call(st)).Some?
    ensures Recorded(role, ThreadMove(t, Call(st)).value, passed + [Upgrade(pending, st)], false)
  {
  }

  lemma ProgressRecorded(role: Role, t: Thread, passed: seq<StateType>, pending: bool)
    requires Placed(role, t) && Recorded(role, t, passed, pending) && ThreadMove(t, MadeProgress).Some?
    ensures Recorded(role, ThreadMove(t, MadeProgress).value, passed, true)
  {
  }

  lemma WaitRecorded(role: Role, t: Thread, e: ThreadEvent, passed: seq<StateType>, pending: bool)
    requires e == Go || e == SpuriousWakeup
    requires Mutex(role, t) && Placed(role, t) && Recorded(role, t, passed, pending) && ThreadMove(t, e).Some?
    ensures Recorded(RoleAfter(role, t), ThreadMove(t, e).value, passed, pending)
  {
  }

  function ActOf(e: ThreadEvent): seq<Act> {
    match e
    case Call(st) => [Pause(st)]
    case MadeProgress => [Progress]
    case _ => []
  }

  lemma ActsRecorded(t: Thread, e: ThreadEvent)
    requires ThreadMove(t, e).Some?
    ensures ThreadMove(t, e).value.acts == t.acts + ActOf(e)
  {
  }

  lemma LedgerFrom(role: Role, t: Thread, acts: seq<Act>, passed: seq<StateType>, pending: bool)
    requires t.acts == acts && Passed(acts) == passed && Pending(acts) == pending
    requires Recorded(role, t, passed, pending)
    ensures Ledger(role, t)
  {
  }

  lemma CallKeepsLedger(role: Role, t: Thread, st: StateType)
    requires Placed(role, t) && Ledger(role, t) && ThreadMove(t, Call(st)).Some?
    ensures Ledger(role, ThreadMove(t, Call(st)).value)
  {
    var passed, pending, u := Passed(t.acts), Pending(t.acts), ThreadMove(t, Call(st)).value;
    ActsRecorded(t, Call(st));
    CallRecorded(role, t, st, passed, pending);
    PassedSnoc(t.acts, Pause(st));
    LedgerFrom(role, u, t.acts + [Pause(st)], passed + [Upgrade(pending, st)], false);
  }

  lemma ProgressKeepsLedger(role: Role, t: Thread)
    requires Placed(role, t) && Ledger(role, t) && ThreadMove(t, MadeProgress).Some?
    ensures Ledger(role, ThreadMove(t, MadeProgress).value)
  {
    var passed, pending, u := Passed(t.acts), Pending(t.acts), ThreadMove(t, MadeProgress).value;
    ActsRecorded(t, MadeProgress);
    ProgressRecorded(role, t, passed, pending);
    PassedSnoc(t.acts, Progress);
    LedgerFrom(role, u, t.acts + [Progress], passed, true);
  }

  lemma WaitKeepsLedger(role: Role, t: Thread, e: ThreadEvent)
    requires e == Go || e == SpuriousWakeup
    requires Mutex(role, t) && Placed(role, t) && Ledger(role, t) && ThreadMove(t, e).Some?
    ensures Ledger(RoleAfter(role, t), ThreadMove(t, e).value)
  {
    var passed, pending, u := Passed(t.acts), Pending(t.acts), ThreadMove(t, e).value;
    ActsRecorded(t, e);
    assert u.acts == t.acts;
    WaitRecorded(role, t, e, passed, pending);
    LedgerFrom(RoleAfter(role, t), u, t.acts, passed, pending);
  }

  lemma AwakeRole(role: Role, t: Thread, e: ThreadEvent)
    requires ThreadMove(t, e).Some? && (e.Call? || e.MadeProgress?)
    ensures RoleAfter(role, t) == role
  {
  }

  lemma ThreadKeepsLedger(role: Role, t: Thread, e: ThreadEvent)
    requires Mutex(role, t) && Placed(role, t) && Ledger(role, t) && ThreadMove(t, e).Some?
    ensures Ledger(RoleAfter(role, t), ThreadMove(t, e).value)
  {
    match e
    case Call(st) =>
      AwakeRole(role, t, e);
      CallKeepsLedger(role, t, st);
    case MadeProgress =>
      AwakeRole(role, t, e);
      ProgressKeepsLedger(role, t);
    case _ =>
      WaitKeepsLedger(role, t, e);
  }

  lemma ThreadKeeps(role: Role, t: Thread, e: ThreadEvent)
    requires ThreadInv(role, t) && ThreadMove(t, e).Some?
    ensures ThreadInv(RoleAfter(role, t), ThreadMove(t, e).value)
  {
    ThreadKeepsMutex(role, t, e);
    ThreadKeepsPlace(role, t, e);
    ThreadKeepsRest(role, t, e);
    ThreadKeepsLedger(role, t, e);
  }

  lemma StartKeeps(i: nat, phase: Phase, t: Thread, n: nat, passed: seq<StateType>, pending: bool)
    requires Situated(InStart(phase), t) && Recorded(InStart(phase), t, passed, pending)
    requires StartMove(i, phase, t, n).Some?
    ensures var (ctl, u) := StartMove(i, phase, t, n).value;
            Situated(RoleOf(ctl, i), u) && Recorded(RoleOf(ctl, i), u, passed, pending) && u.acts == t.acts
  {
  }

  lemma StepKeeps(i: nat, phase: Phase, t: Thread, passed: seq<StateType>, pending: bool)
    requires Situated(InStep(phase), t) && Recorded(InStep(phase), t, passed, pending)
    requires StepMove(i, phase, t).Some?
    ensures var (ctl, u) := StepMove(i, phase, t).value;
            Situated(RoleOf(ctl, i), u) && Recorded(RoleOf(ctl, i), u, passed, pending) && u.acts == t.acts
  {
  }

  lemma StopKeeps(i: nat, phase: StopPhase, t: Thread, n: nat, passed: seq<StateType>, pending: bool)
    requires Situated(InStop(phase), t) && Recorded(InStop(phase), t, passed, pending)
    requires StopMove(i, phase, t, n).Some?
    ensures var (ctl, u) := StopMove(i, phase, t, n).value;
            Situated(RoleOf(ctl, i), u) && Recorded(RoleOf(ctl, i), u, passed, pending) && u.acts == t.acts
  {
  }

  lemma BeginStep(t: Thread)
    requires ThreadInv(Resting, t)
    ensures ThreadInv(InStep(Lock), t)
  {
  }

  lemma BeginStop(t: Thread)
    requires ThreadInv(Resting, t)
    ensures ThreadInv(InStop(SetLast), t)
  {
  }

  lemma WakeController(role: Role, t: Thread)
    requires ThreadInv(role, t)
    ensures ThreadInv(WokenUp(role), t)
  {
  }

  lemma PutKeeps(s: System, i: nat, ctl: ControllerPc, t: Thread)
    requires Inv(s) && i < |s.threads| && ControllerInRange(System(ctl, s.threads))
    requires ThreadInv(RoleOf(ctl, i), t)
    requires forall j | 0 <= j < |s.threads| && j != i :: RoleOf(ctl, j) == RoleOf(s.ctl, j)
    ensures Inv(System(ctl, s.threads[i := t]))
  {
    var r := System(ctl, s.threads[i := t]);
    forall j | 0 <= j < |r.threads|
      ensures ThreadInv(RoleOf(r.ctl, j), r.threads[j])
    {
      if j != i {
        assert ThreadInv(RoleOf(s.ctl, j), s.threads[j]);
      }
    }
  }

  lemma MoveKeeps(ctl: ControllerPc, t: Thread, n: nat)
    requires Busy(ctl) && ThreadInv(RoleOf(ctl, ctl.i), t) && MoveOn(ctl, t, n).Some?
    ensures var (r, u) := MoveOn(ctl, t, n).value; ThreadInv(RoleOf(r, ctl.i), u)
  {
    var passed, pending := Passed(t.acts), Pending(t.acts);
    match ctl
    case Starting(i, phase) => StartKeeps(i, phase, t, n, passed, pending);
    case Stepping(i, phase) => StepKeeps(i, phase, t, passed, pending);
    case Stopping(i, phase) => StopKeeps(i, phase, t, n, passed, pending);
  }

  lemma MoveRoles(ctl: ControllerPc, t: Thread, n: nat)
    requires Busy(ctl) && ctl.i < n && MoveOn(ctl, t, n).Some?
    ensures var r := MoveOn(ctl, t, n).value.0;
            && (Busy(r) ==> r.i < n)
            && forall j: nat | j < n && j != ctl.i :: RoleOf(r, j) == RoleOf(ctl, j)
  {
  }

  lemma NotifiedRoles(ctl: ControllerPc, i: nat, j: nat)
    ensures RoleOf(NotifyController(ctl, i), j) == if i == j then WokenUp(RoleOf(ctl, i)) else RoleOf(ctl, j)
  {
  }

  lemma ThreadEventKeeps(s: System, i: nat, e: ThreadEvent)
    requires Inv(s) && Next(s, OfThread(i, e)).Some?
    ensures Inv(Next(s, OfThread(i, e)).value) && |Next(s, OfThread(i, e)).value.threads| == |s.threads|
  {
    var t := s.threads[i];
    var ctl := if t.pc.Announcing? then NotifyController(s.ctl, i) else s.ctl;
    ThreadKeeps(RoleOf(s.ctl, i), t, e);
    forall j: nat {
      NotifiedRoles(s.ctl, i, j);
    }
    PutKeeps(s, i, ctl, ThreadMove(t, e).value);
  }

  lemma StepThreadKeeps(s: System, i: nat)
    requires Inv(s) && s.ctl == Idle && i < |s.threads|
    ensures Inv(s.(ctl := Stepping(i, Lock)))
  {
    BeginStep(s.threads[i]);
    PutKeeps(s, i, Stepping(i, Lock), s.threads[i]);
    assert s.threads[i := s.threads[i]] == s.threads;
  }

  lemma StopAllKeeps(s: System)
    requires Inv(s) && s.ctl == Idle && |s.threads| > 0
    ensures Inv(s.(ctl := Stopping(0, SetLast)))
  {
    forall i | 0 <= i < |s.threads|
      ensures ThreadInv(InStop(SetLast), s.threads[i])
    {
      BeginStop(s.threads[i]);
    }
  }

  lemma ProceedKeeps(s: System)
    requires Inv(s) && ControllerMove(s).Some?
    ensures Inv(ControllerMove(s).value) && |ControllerMove(s).value.threads| == |s.threads|
  {
    var i, n := s.ctl.i, |s.threads|;
    MoveKeeps(s.ctl, s.threads[i], n);
    MoveRoles(s.ctl, s.threads[i], n);
    PutKeeps(s, i, MoveOn(s.ctl, s.threads[i], n).value.0, MoveOn(s.ctl, s.threads[i], n).value.1);
  }

  lemma SpuriousKeeps(s: System, i: nat)
    requires Inv(s) && i < |s.threads|
    ensures Inv(s.(ctl := NotifyController(s.ctl, i)))
  {
    WakeController(RoleOf(s.ctl, i), s.threads[i]);
    forall j: nat {
      NotifiedRoles(s.ctl, i, j);
    }
    PutKeeps(s, i, NotifyController(s.ctl, i), s.threads[i]);
    assert s.threads[i := s.threads[i]] == s.threads;
  }

  lemma ControllerEventKeeps(s: System, c: ControllerEvent)
    requires Inv(s) && Next(s, OfController(c)).Some?
    ensures Inv(Next(s, OfController(c)).value) && |Next(s, OfController(c)).value.threads| == |s.threads|
  {
    match c
    case StepThread(i) => StepThreadKeeps(s, i);
    case StopAll => if |s.threads| > 0 { StopAllKeeps(s); }
    case Proceed => ProceedKeeps(s);
    case Spurious => SpuriousKeeps(s, s.ctl.i);
  }

  /** Every event keeps the invariant. */
  lemma NextKeeps(s: System, event: Event)
    requires Inv(s) && Next(s, event).Some?
    ensures Inv(Next(s, event).value) && |Next(s, event).value.threads| == |s.threads|
  {
    match event
    case OfThread(i, e) => ThreadEventKeeps(s, i, e);
    case OfController(c) => ControllerEventKeeps(s, c);
  }

  lemma {:induction false} RunKeeps(s: System, events: seq<Event>)
    requires Inv(s) && Run(s, events).Some?
    ensures Inv(Run(s, events).value) && |Run(s, events).value.threads| == |s.threads|
    decreases |events|
  {
    if events != [] {
      NextKeeps(s, events[0]);
      RunKeeps(Next(s, events[0]).value, events[1..]);
    }
  }

  lemma Reachable(n: nat, events: seq<Event>)
    requires Run(Init(n), events).Some?
    ensures Inv(Run(Init(n), events).value) && |Run(Init(n), events).value.threads| == n
  {
    RunKeeps(Init(n), events);
  }

  // ---------- what holds in every reachable state ----------

  /** Test code is run by one thread at a time: the one that the controller waits for in `step`,
      or in the join of `stop` if the thread was stopped too early. */
  lemma OneAtATime(n: nat, events: seq<Event>, i: nat, j: nat)
    requires Run(Init(n), events).Some? && i < n && j < n
    ensures var s := Run(Init(n), events).value;
            && |s.threads| == n
            && (s.threads[i].pc.User? ==>
                  || (s.ctl.Stepping? && s.ctl.i == i && s.ctl.phase != Lock && s.ctl.phase != Signal)
                  || s.ctl == Stopping(i, Join))
            && (s.threads[i].pc.User? && s.threads[j].pc.User? ==> i == j)
  {
    Reachable(n, events);
    var s := Run(Init(n), events).value;
    assert ThreadInv(RoleOf(s.ctl, i), s.threads[i]);
    assert ThreadInv(RoleOf(s.ctl, j), s.threads[j]);
  }

  /** Between the calls of `step`, the values that these returned for a thread are those that the thread passed
      to `pause`, upgraded, in the same order: no pause is skipped, repeated or seen half. */
  lemma ReturnsWhatWasPassed(n: nat, events: seq<Event>, i: nat)
    requires Run(Init(n), events).Some? && i < n
    ensures var s := Run(Init(n), events).value;
            && |s.threads| == n
            && (s.ctl == Idle || s.ctl == Done || (s.ctl.Stepping? && s.ctl.i != i) ==>
                  Passed(s.threads[i].acts) == [Yielding] + s.threads[i].returned)
  {
    Reachable(n, events);
    var s := Run(Init(n), events).value;
    assert ThreadInv(RoleOf(s.ctl, i), s.threads[i]);
  }

  /** The upgrade: `blocking` is passed on as `blocking_with_progress` right after progress, and as it is right after
      another pause; every other state is passed on as it is. */
  lemma ProgressUpgrades(acts: seq<Act>, st: StateType)
    ensures Passed(acts + [Progress, Pause(Blocking)]) == Passed(acts) + [BlockingWithProgress]
    ensures Passed(acts + [Pause(st), Pause(Blocking)]) == Passed(acts + [Pause(st)]) + [Blocking]
    ensures Passed([Pause(Blocking)]) == [Blocking]
    ensures st != Blocking ==> Passed(acts + [Pause(st)]) == Passed(acts) + [st]
  {
    PassedSnoc(acts, Progress);
    PassedSnoc(acts + [Progress], Pause(Blocking));
    assert acts + [Progress] + [Pause(Blocking)] == acts + [Progress, Pause(Blocking)];
    PassedSnoc(acts, Pause(st));
    PassedSnoc(acts + [Pause(st)], Pause(Blocking));
    assert acts + [Pause(st)] + [Pause(Blocking)] == acts + [Pause(st), Pause(Blocking)];
    PassedSnoc([], Pause(Blocking));
    assert [] + [Pause(Blocking)] == [Pause(Blocking)];
  }

  // ---------- no wakeup is lost ----------

  /** The thread was stopped, or is about to be, while it is paused as `finished`. */
  predicate GoesToExit(role: Role, t: Thread) {
    match role
    case InStop(Join) =>
      t.state == Finished && !t.paused && (t.pc.Waking? || t.pc.Checking? || t.pc.Resuming? || t.pc.Exited?)
    case Stopped => true
    case _ => t.state == Finished
  }

  /** Something a thread can do unless it waits. */
  function ThreadTurn(t: Thread): ThreadEvent {
    match t.pc
    case Begin => Call(Yielding)
    case User => Call(Finished)
    case _ => Go
  }

  /** An event of the code, as opposed to a spurious wakeup, a report of progress or a new job for the controller. */
  predicate IsWork(event: Event) {
    match event
    case OfThread(_, e) => e.Go? || e.Call?
    case OfController(c) => c.Proceed?
  }

  function Turn(s: System): Event
    requires Busy(s.ctl) && s.ctl.i < |s.threads|
  {
    if ControllerMove(s).Some? then OfController(Proceed) else OfThread(s.ctl.i, ThreadTurn(s.threads[s.ctl.i]))
  }

  lemma SomeoneMoves(ctl: ControllerPc, t: Thread, n: nat)
    requires Busy(ctl) && Situated(RoleOf(ctl, ctl.i), t)
    requires ctl.Stopping? ==> GoesToExit(RoleOf(ctl, ctl.i), t)
    ensures MoveOn(ctl, t, n).Some? || ThreadMove(t, ThreadTurn(t)).Some?
  {
  }

  lemma WorkLeft(s: System)
    requires Inv(s) && Busy(s.ctl)
    requires s.ctl.Stopping? ==> GoesToExit(RoleOf(s.ctl, s.ctl.i), s.threads[s.ctl.i])
    ensures IsWork(Turn(s)) && Next(s, Turn(s)).Some?
  {
    SomeoneMoves(s.ctl, s.threads[s.ctl.i], |s.threads|);
  }

  /** No wakeup is lost: while the controller is in `start` or `step`, it or the thread that it deals with can go on,
      without any spurious wakeup. */
  lemma NeverStuck(n: nat, events: seq<Event>)
    requires Run(Init(n), events).Some?
    requires Run(Init(n), events).value.ctl.Starting? || Run(Init(n), events).value.ctl.Stepping?
    ensures var s := Run(Init(n), events).value;
            s.ctl.i < |s.threads| && IsWork(Turn(s)) && Next(s, Turn(s)).Some?
  {
    Reachable(n, events);
    WorkLeft(Run(Init(n), events).value);
  }

  // ---------- every job of the controller ends ----------

  function ThreadRank(t: Thread): nat {
    match t.pc
    case NotStarted => 0
    case Begin => 20
    case User => 13
    case Locking(_) => 12
    case Announcing(_) => 11
    case Checking(_) => if t.paused then 1 else 15
    case Sleeping(_) => 0
    case Waking(_) => if t.paused then 2 else 16
    case Resuming(_) => 14
    case Exited => 0
  }

  function PhaseRank(phase: Phase): nat {
    match phase
    case Lock => 25
    case Signal => 24
    case Check => 2
    case Sleep => 1
    case Wake => 3
  }

  function StopRank(stop: StopPhase): nat {
    match stop
    case SetLast => 20
    case StopLock => 19
    case StopSignal => 18
    case Join => 1
  }

  function ControllerRank(ctl: ControllerPc, n: nat): int {
    match ctl
    case Starting(i, phase) => PhaseRank(phase) + 26 * (n - i - 1)
    case Stepping(_, phase) => PhaseRank(phase)
    case Stopping(i, stop) => StopRank(stop) + 26 * (n - i - 1)
    case _ => 0
  }

  function Total(threads: seq<Thread>): nat {
    if threads == [] then 0 else ThreadRank(threads[0]) + Total(threads[1..])
  }

  function Rank(s: System): int {
    ControllerRank(s.ctl, |s.threads|) + Total(s.threads)
  }

  lemma {:induction false} TotalUpdate(threads: seq<Thread>, i: nat, t: Thread)
    requires i < |threads|
    ensures Total(threads[i := t]) == Total(threads) - ThreadRank(threads[i]) + ThreadRank(t)
  {
    if i == 0 {
      assert threads[i := t][1..] == threads[1..];
    } else {
      assert threads[i := t][1..] == threads[1..][i - 1 := t];
      TotalUpdate(threads[1..], i - 1, t);
    }
  }

  lemma ThreadRanks(role: Role, t: Thread, e: ThreadEvent)
    requires Placed(role, t) && ThreadMove(t, e).Some?
    ensures var d := ThreadRank(ThreadMove(t, e).value) - ThreadRank(t);
            && (e.Go? || e.Call? ==> d < if t.pc.Announcing? then -2 else 0)
            && (e.SpuriousWakeup? ==> d <= 2)
            && (e.MadeProgress? ==> d == 0)
  {
  }

  lemma ControllerRanks(ctl: ControllerPc, t: Thread, n: nat)
    requires Busy(ctl) && ctl.i < n && Situated(RoleOf(ctl, ctl.i), t) && MoveOn(ctl, t, n).Some?
    ensures var (r, u) := MoveOn(ctl, t, n).value;
            ControllerRank(r, n) + ThreadRank(u) < ControllerRank(ctl, n) + ThreadRank(t)
  {
  }

  /** Work lowers the rank, and a spurious wakeup raises it by no more than two. */
  lemma NextRanks(s: System, event: Event)
    requires Inv(s) && Next(s, event).Some?
    requires event.OfController? ==> event.c.Proceed? || event.c.Spurious?
    ensures var r := Next(s, event).value;
            && (IsWork(event) ==> Rank(r) < Rank(s))
            && Rank(r) <= Rank(s) + if IsSpurious(event) then 2 else 0
  {
    match event
    case OfThread(i, e) =>
      ThreadRanks(RoleOf(s.ctl, i), s.threads[i], e);
      TotalUpdate(s.threads, i, ThreadMove(s.threads[i], e).value);
    case OfController(Proceed) =>
      var i, n := s.ctl.i, |s.threads|;
      ControllerRanks(s.ctl, s.threads[i], n);
      TotalUpdate(s.threads, i, MoveOn(s.ctl, s.threads[i], n).value.1);
    case OfController(_) =>
  }

  function Count(events: seq<Event>, which: Event -> bool): nat {
    if events == [] then 0 else (if which(events[0]) then 1 else 0) + Count(events[1..], which)
  }

  /** The controller is given no new job. */
  predicate SameJob(events: seq<Event>) {
    forall event | event in events :: event.OfController? ==> event.c.Proceed? || event.c.Spurious?
  }

  lemma {:induction false} RunRanks(s: System, events: seq<Event>)
    requires Inv(s) && Run(s, events).Some? && SameJob(events)
    ensures Rank(Run(s, events).value) + Count(events, IsWork) <= Rank(s) + 2 * Count(events, IsSpurious)
    decreases |events|
  {
    if events != [] {
      NextKeeps(s, events[0]);
      NextRanks(s, events[0]);
      RunRanks(Next(s, events[0]).value, events[1..]);
    }
  }

  lemma {:induction false} RestingTotal(threads: seq<Thread>)
    requires forall t | t in threads :: Placed(Resting, t)
    ensures Total(threads) <= 2 * |threads|
  {
    if threads != [] {
      assert Placed(Resting, threads[0]);
      RestingTotal(threads[1..]);
    }
  }

  /** Whatever the threads do in between, there is a bound on the work that is done in one call of `step` or in the
      loop that stops the threads, to which every spurious wakeup adds two. With `NeverStuck` and `StopNeverStuck`,
      `step` returns and the loop ends. */
  lemma JobEnds(n: nat, before: seq<Event>, c: ControllerEvent, events: seq<Event>)
    requires Run(Init(n), before).Some? && Run(Init(n), before).value.ctl == Idle
    requires var s := Run(Init(n), before).value;
             && Next(s, OfController(c)).Some?
             && Run(Next(s, OfController(c)).value, events).Some? && SameJob(events)
    ensures Count(events, IsWork) <= (if c.StepThread? then 25 else 26 * n) + 2 * n + 2 * Count(events, IsSpurious)
  {
    Reachable(n, before);
    var s := Run(Init(n), before).value;
    forall t | t in s.threads
      ensures Placed(Resting, t)
    {
      var i :| 0 <= i < n && s.threads[i] == t;
      assert ThreadInv(RoleOf(s.ctl, i), t);
    }
    RestingTotal(s.threads);
    var r := Next(s, OfController(c)).value;
    NextKeeps(s, OfController(c));
    RunKeeps(r, events);
    RunRanks(r, events);
  }

  // ---------- the shutdown ----------

  /** The last thing that `step` returned for a thread. */
  predicate ReturnedFinished(t: Thread) {
    t.returned != [] && t.returned[|t.returned| - 1] == Finished
  }

  lemma RestingState(t: Thread)
    requires Ledger(Resting, t) || Ledger(Stopped, t)
    ensures t.state == Finished <==> ReturnedFinished(t)
  {
    var passed := Passed(t.acts);
    assert passed == [Yielding] + t.returned;
  }

  predicate AllFinished(s: System) {
    forall t | t in s.threads :: ReturnedFinished(t)
  }

  lemma FinishedStates(s: System)
    requires Inv(s) && s.ctl == Idle
    ensures AllFinished(s) <==> forall i | 0 <= i < |s.threads| :: s.threads[i].state == Finished
  {
    forall i | 0 <= i < |s.threads|
      ensures s.threads[i].state == Finished <==> ReturnedFinished(s.threads[i])
    {
      assert ThreadInv(RoleOf(s.ctl, i), s.threads[i]);
      RestingState(s.threads[i]);
    }
  }

  predicate AllGoToExit(s: System) {
    forall i | 0 <= i < |s.threads| :: GoesToExit(RoleOf(s.ctl, i), s.threads[i])
  }

  predicate InShutdown(ctl: ControllerPc) { ctl.Stopping? || ctl == Done }

  lemma ThreadDecided(role: Role, t: Thread, e: ThreadEvent)
    requires Situated(role, t) && (role.InStop? || role.Stopped?) && ThreadMove(t, e).Some?
    ensures GoesToExit(role, ThreadMove(t, e).value) <==> GoesToExit(role, t)
  {
  }

  lemma StopDecided(ctl: ControllerPc, t: Thread, n: nat)
    requires ctl.Stopping? && Situated(RoleOf(ctl, ctl.i), t) && MoveOn(ctl, t, n).Some?
    ensures var (r, u) := MoveOn(ctl, t, n).value;
            GoesToExit(RoleOf(r, ctl.i), u) <==> GoesToExit(RoleOf(ctl, ctl.i), t)
  {
  }

  lemma DecidedAt(s: System, i: nat, ctl: ControllerPc, t: Thread)
    requires i < |s.threads|
    requires forall j: nat | j < |s.threads| && j != i :: RoleOf(ctl, j) == RoleOf(s.ctl, j)
    requires GoesToExit(RoleOf(ctl, i), t) <==> GoesToExit(RoleOf(s.ctl, i), s.threads[i])
    ensures AllGoToExit(System(ctl, s.threads[i := t])) <==> AllGoToExit(s)
  {
    var r := System(ctl, s.threads[i := t]);
    forall j | 0 <= j < |s.threads|
      ensures GoesToExit(RoleOf(r.ctl, j), r.threads[j]) <==> GoesToExit(RoleOf(s.ctl, j), s.threads[j])
    {
      assert j != i ==> r.threads[j] == s.threads[j];
    }
  }

  lemma ProceedDecided(s: System)
    requires Inv(s) && s.ctl.Stopping? && ControllerMove(s).Some?
    ensures var r := ControllerMove(s).value; InShutdown(r.ctl) && (AllGoToExit(r) <==> AllGoToExit(s))
  {
    var i, n := s.ctl.i, |s.threads|;
    var t := s.threads[i];
    StopDecided(s.ctl, t, n);
    MoveRoles(s.ctl, t, n);
    DecidedAt(s, i, MoveOn(s.ctl, t, n).value.0, MoveOn(s.ctl, t, n).value.1);
  }

  /** Once the threads are being stopped, it does not change any more which of them will leave `run`. */
  lemma Decided(s: System, event: Event)
    requires Inv(s) && InShutdown(s.ctl) && Next(s, event).Some?
    ensures var r := Next(s, event).value; InShutdown(r.ctl) && (AllGoToExit(r) <==> AllGoToExit(s))
  {
    match event
    case OfThread(i, e) =>
      ThreadDecided(RoleOf(s.ctl, i), s.threads[i], e);
      DecidedAt(s, i, s.ctl, ThreadMove(s.threads[i], e).value);
    case OfController(_) =>
      ProceedDecided(s);
  }

  lemma {:induction false} RunDecided(s: System, events: seq<Event>)
    requires Inv(s) && InShutdown(s.ctl) && Run(s, events).Some?
    ensures var r := Run(s, events).value; InShutdown(r.ctl) && (AllGoToExit(r) <==> AllGoToExit(s))
    decreases |events|
  {
    if events != [] {
      NextKeeps(s, events[0]);
      Decided(s, events[0]);
      RunDecided(Next(s, events[0]).value, events[1..]);
    }
  }

  lemma RankNotNegative(s: System)
    requires Inv(s)
    ensures Rank(s) >= 0
  {
  }

  /** When all go to their exit, the controller comes to the end of its work. */
  lemma {:induction false} EndsInDone(s: System) returns (events: seq<Event>)
    requires Inv(s) && InShutdown(s.ctl) && AllGoToExit(s)
    ensures Run(s, events).Some? && Run(s, events).value.ctl == Done
    decreases Rank(s)
  {
    events := [];
    if s.ctl != Done {
      WorkLeft(s);
      var e := Turn(s);
      var r := Next(s, e).value;
      NextKeeps(s, e);
      NextRanks(s, e);
      RankNotNegative(r);
      Decided(s, e);
      var rest := EndsInDone(r);
      events := [e] + rest;
      assert events[1..] == rest;
    }
  }

  predicate EndsBy(s: System, events: seq<Event>) {
    Run(s, events).Some? && Run(s, events).value.ctl == Done
  }

  lemma StopBegins(s: System)
    requires Inv(s) && s.ctl == Idle
    ensures Next(s, OfController(StopAll)).Some?
    ensures var r := Next(s, OfController(StopAll)).value;
            Inv(r) && InShutdown(r.ctl) && (AllGoToExit(r) <==> AllFinished(s))
  {
    NextKeeps(s, OfController(StopAll));
    FinishedStates(s);
    var r := Next(s, OfController(StopAll)).value;
    assert AllGoToExit(r) <==> forall i | 0 <= i < |s.threads| :: s.threads[i].state == Finished;
  }

  lemma StopsIff(s: System)
    requires Inv(s) && s.ctl == Idle
    ensures Next(s, OfController(StopAll)).Some?
    ensures AllFinished(s) <==> exists events :: EndsBy(Next(s, OfController(StopAll)).value, events)
  {
    StopBegins(s);
    var r := Next(s, OfController(StopAll)).value;
    if AllFinished(s) {
      var events := EndsInDone(r);
      assert EndsBy(r, events);
    }
    if events :| EndsBy(r, events) {
      NothingStays(r, events);
    }
  }

  /** The loop that stops the threads can come to its end if and only if the last step of every thread has returned
      `finished`; a thread that is stopped elsewhere is never joined. */
  lemma StopsIffFinished(n: nat, before: seq<Event>)
    requires Run(Init(n), before).Some? && Run(Init(n), before).value.ctl == Idle
    ensures var s := Run(Init(n), before).value;
            && Next(s, OfController(StopAll)).Some?
            && (AllFinished(s) <==> exists events :: EndsBy(Next(s, OfController(StopAll)).value, events))
  {
    Reachable(n, before);
    StopsIff(Run(Init(n), before).value);
  }

  lemma NothingStays(r: System, events: seq<Event>)
    requires Inv(r) && InShutdown(r.ctl) && EndsBy(r, events)
    ensures AllGoToExit(r)
  {
    RunDecided(r, events);
  }

  /** And then it does come to its end, however the threads are interleaved: as long as it has not, there is work
      that can be done, and by `JobEnds` there is not much of it. */
  lemma StopNeverStuck(n: nat, before: seq<Event>, events: seq<Event>)
    requires Run(Init(n), before).Some?
    requires var s := Run(Init(n), before).value;
             && s.ctl == Idle && AllFinished(s)
             && Run(Next(s, OfController(StopAll)).value, events).Some?
    ensures var r := Run(Next(Run(Init(n), before).value, OfController(StopAll)).value, events).value;
            r.ctl == Done || (Busy(r.ctl) && r.ctl.i < |r.threads| && IsWork(Turn(r)) && Next(r, Turn(r)).Some?)
  {
    Reachable(n, before);
    var s := Run(Init(n), before).value;
    StopBegins(s);
    var r := Next(s, OfController(StopAll)).value;
    RunDecided(r, events);
    RunKeeps(r, events);
    var end := Run(r, events).value;
    if end.ctl != Done {
      assert GoesToExit(RoleOf(end.ctl, end.ctl.i), end.threads[end.ctl.i]);
      WorkLeft(end);
    }
  }

  /** A clean shutdown: when the controller is done, every thread has left `run`, by way of `finished`, and what it
      passed to `pause` was returned by `step` to the last. */
  lemma AllGone(n: nat, events: seq<Event>, i: nat)
    requires Run(Init(n), events).Some? && Run(Init(n), events).value.ctl == Done && i < n
    ensures var s := Run(Init(n), events).value;
            && |s.threads| == n
            && s.threads[i].pc == Exited && s.threads[i].owner == Nobody && s.threads[i].lastPermutation
            && ReturnedFinished(s.threads[i])
            && Passed(s.threads[i].acts) == [Yielding] + s.threads[i].returned
  {
    Reachable(n, events);
    var s := Run(Init(n), events).value;
    assert ThreadInv(RoleOf(s.ctl, i), s.threads[i]);
    RestingState(s.threads[i]);
  }
}
