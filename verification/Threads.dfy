/** `Thread` in place: its members are changed by the segments of `pause`, `run`, `start`, `step` and `stop`,
    each of which makes the transition that `Handshake` describes. */
module Threads {
  import opened Handshake

  class TestThread {
    var pc: ThreadPc            // the thread, between two accesses to shared data
    var owner: Owner            // of m_paused_mutex
    var paused: bool
    var state: StateType
    var progress: bool
    var lastPermutation: bool
    ghost var acts: seq<Act>
    ghost var returned: seq<StateType>

    constructor ()
      ensures View() == Thread(NotStarted, Nobody, false, Yielding, false, false, [], [])
    {
      pc, owner := NotStarted, Nobody;
      paused, state, progress, lastPermutation := false, Yielding, false, false;
      acts, returned := [], [];
    }

    ghost function View(): Thread
      reads this
    {
      Thread(pc, owner, paused, state, progress, lastPermutation, acts, returned)
    }

    // ---------- what the thread does ----------

    /** The head of `pause`. */
    method EnterPause(st: StateType)
      modifies `pc, `state, `progress, `acts
      ensures View() == CallPause(old(View()), st)
    {
      var up := st;
      if progress && st == Blocking {
        up := BlockingWithProgress;
      }
      progress := false;
      state := up;
      pc := Locking(up);
      acts := acts + [Pause(st)];
    }

    /** `Thread::progress` */
    method ReportProgress()
      modifies `progress, `acts
      ensures View() == old(View()).(progress := true, acts := old(acts) + [Progress])
    {
      progress := true;
      acts := acts + [Progress];
    }

    method TryLock(who: Owner) returns (locked: bool)
      modifies `owner
      ensures locked <==> old(owner) == Nobody
      ensures owner == if locked then who else old(owner)
    {
      locked := owner == Nobody;
      if locked {
        owner := who;
      }
    }

    /** The tail of `pause` and what `run` does next. */
    method ThreadGo() returns (moved: bool)
      modifies `pc, `owner, `paused
      ensures ThreadMove(old(View()), Go) == if moved then Some(View()) else None
      ensures !moved ==> View() == old(View())
    {
      moved := true;
      match pc {
        case Locking(st) =>
          moved := TryLock(Worker);
          if moved { pc := Announcing(st); }
        case Announcing(st) =>
          paused := true;
          pc := Checking(st);
        case Checking(st) =>
          if paused { owner := Nobody; pc := Sleeping(st); } else { pc := Resuming(st); }
        case Waking(st) =>
          moved := TryLock(Worker);
          if moved { pc := Checking(st); }
        case Resuming(st) =>
          owner := Nobody;
          pc := if st == Finished && lastPermutation then Exited else User;
        case _ =>
          moved := false;
      }
    }

    method Perform(e: ThreadEvent) returns (moved: bool)
      modifies this
      ensures ThreadMove(old(View()), e) == if moved then Some(View()) else None
      ensures !moved ==> View() == old(View())
    {
      moved := false;
      match e {
        case Call(st) =>
          if pc == User || (pc == Begin && st == Yielding) {
            EnterPause(st);
            moved := true;
          }
        case MadeProgress =>
          if pc == User {
            ReportProgress();
            moved := true;
          }
        case Go =>
          moved := ThreadGo();
        case SpuriousWakeup =>
          if pc.Sleeping? {
            pc := Waking(pc.st);
            moved := true;
          }
      }
    }

    // ---------- what the controller does to it ----------

    method Notify()
      modifies `pc
      ensures View() == Notified(old(View()))
    {
      if pc.Sleeping? {
        pc := Waking(pc.st);
      }
    }

    /** `start`, from one access to the next. */
    method Start(i: nat, phase: Phase, n: nat) returns (moved: bool, ctl: ControllerPc)
      modifies `pc, `owner
      ensures StartMove(i, phase, old(View()), n) == if moved then Some((ctl, View())) else None
      ensures !moved ==> View() == old(View())
    {
      moved, ctl := true, Idle;
      match phase {
        case Lock => moved := TryLock(Controller); ctl := Starting(i, Signal);
        case Signal => pc := Begin; ctl := Starting(i, Check);
        case Check =>
          owner := Nobody;
          ctl := Starting(i, Sleep);
          if paused { ctl := if i + 1 < n then Starting(i + 1, Lock) else Idle; }
        case Sleep => moved := false;
        case Wake => moved := TryLock(Controller); ctl := Starting(i, Check);
      }
    }

    /** `step`, from one access to the next. */
    method Step(i: nat, phase: Phase) returns (moved: bool, ctl: ControllerPc)
      modifies `pc, `owner, `paused, `returned
      ensures StepMove(i, phase, old(View())) == if moved then Some((ctl, View())) else None
      ensures !moved ==> View() == old(View())
    {
      moved, ctl := true, Idle;
      match phase {
        case Lock => moved := TryLock(Controller); ctl := Stepping(i, Signal);
        case Signal => paused := false; Notify(); ctl := Stepping(i, Check);
        case Check =>
          owner := Nobody;
          if paused { returned := returned + [state]; } else { ctl := Stepping(i, Sleep); }
        case Sleep => moved := false;
        case Wake => moved := TryLock(Controller); ctl := Stepping(i, Check);
      }
    }

    /** `stop`, from one access to the next. */
    method Stop(i: nat, phase: StopPhase, n: nat) returns (moved: bool, ctl: ControllerPc)
      modifies `pc, `owner, `paused, `lastPermutation
      ensures StopMove(i, phase, old(View()), n) == if moved then Some((ctl, View())) else None
      ensures !moved ==> View() == old(View())
    {
      moved, ctl := true, Done;
      match phase {
        case SetLast => lastPermutation := true; ctl := Stopping(i, StopLock);
        case StopLock => moved := TryLock(Controller); ctl := Stopping(i, StopSignal);
        case StopSignal => paused := false; Notify(); owner := Nobody; ctl := Stopping(i, Join);
        case Join => moved := pc == Exited; if i + 1 < n { ctl := Stopping(i + 1, SetLast); }
      }
    }
  }

  /** The controller and its threads. */
  class Permuter {
    var ctl: ControllerPc
    const threads: seq<TestThread>

    constructor (threads: seq<TestThread>)
      ensures this.threads == threads
      ensures ctl == if |threads| == 0 then Idle else Starting(0, Lock)
    {
      this.threads := threads;
      ctl := if |threads| == 0 then Idle else Starting(0, Lock);
    }

    ghost predicate Distinct() {
      forall i, j | 0 <= i < j < |threads| :: threads[i] != threads[j]
    }

    ghost function View(): System
      reads this, threads
    {
      System(ctl, seq(|threads|, i requires 0 <= i < |threads| reads threads => threads[i].View()))
    }

    /** The controller's part of its next move. */
    method Deal(i: nat) returns (moved: bool, next: ControllerPc)
      requires i < |threads| && Busy(ctl) && ctl.i == i
      modifies threads[i]
      ensures MoveOn(ctl, old(threads[i].View()), |threads|) == if moved then Some((next, threads[i].View())) else None
      ensures !moved ==> threads[i].View() == old(threads[i].View())
    {
      match ctl {
        case Starting(_, phase) => moved, next := threads[i].Start(i, phase, |threads|);
        case Stepping(_, phase) => moved, next := threads[i].Step(i, phase);
        case Stopping(_, phase) => moved, next := threads[i].Stop(i, phase, |threads|);
      }
    }

    method Proceed() returns (moved: bool)
      requires Distinct()
      modifies this, threads
      ensures ControllerMove(old(View())) == if moved then Some(View()) else None
      ensures !moved ==> View() == old(View())
    {
      moved := false;
      if Busy(ctl) && ctl.i < |threads| {
        ghost var before := View();
        var i := ctl.i;
        var next;
        moved, next := Deal(i);
        if moved {
          ctl := next;
        }
        assert View().threads == before.threads[i := threads[i].View()];
      }
    }

    method PerformOf(i: nat, e: ThreadEvent) returns (moved: bool)
      requires Distinct() && i < |threads|
      modifies this, threads
      ensures Next(old(View()), OfThread(i, e)) == if moved then Some(View()) else None
      ensures !moved ==> View() == old(View())
    {
      ghost var before := View();
      var notify := threads[i].pc.Announcing?;
      moved := threads[i].Perform(e);
      if moved && notify {
        ctl := NotifyController(ctl, i);
      }
      assert View().threads == before.threads[i := threads[i].View()];
    }

    method Perform(event: Event) returns (moved: bool)
      requires Distinct()
      modifies this, threads
      ensures Next(old(View()), event) == if moved then Some(View()) else None
      ensures !moved ==> View() == old(View())
    {
      moved := false;
      ghost var before := View();
      match event {
        case OfThread(i, e) =>
          if i < |threads| { moved := PerformOf(i, e); }
        case OfController(Proceed) =>
          moved := Proceed();
        case OfController(StepThread(i)) =>
          if ctl == Idle && i < |threads| { ctl, moved := Stepping(i, Lock), true; }
        case OfController(StopAll) =>
          if ctl == Idle {
            ctl := if |threads| == 0 then Done else Stopping(0, SetLast);
            moved := true;
          }
        case OfController(Spurious) =>
          match ctl {
            case Starting(i, Sleep) => ctl, moved := Starting(i, Wake), true;
            case Stepping(i, Sleep) => ctl, moved := Stepping(i, Wake), true;
            case _ =>
          }
      }
      assert event.OfController? && !event.c.Proceed? ==> View().threads == before.threads;
    }

    lemma InsideAlone(n: nat, events: seq<Event>, i: nat, j: nat)
      requires Run(Init(n), events) == Some(View())
      requires i < |threads| && j < |threads| && threads[i].pc.User? && threads[j].pc.User?
      ensures i == j
    {
      Reachable(n, events);
      assert View().threads[i] == threads[i].View();
      assert View().threads[j] == threads[j].View();
      OneAtATime(n, events, i, j);
    }

    lemma LeftInTheEnd(n: nat, events: seq<Event>, i: nat)
      requires Run(Init(n), events) == Some(View())
      requires i < |threads| && ctl == Done
      ensures threads[i].pc.Exited?
    {
      Reachable(n, events);
      assert View().threads[i] == threads[i].View();
      AllGone(n, events, i);
    }

    /** The threads that are in test code, and those that have not left `run`. */
    method Look(ghost n: nat, ghost events: seq<Event>) returns (inside: seq<nat>, left: seq<nat>)
      requires Run(Init(n), events) == Some(View())
      ensures |inside| <= 1 && (ctl == Done ==> inside == left == [])
      ensures forall j: nat :: j in inside <==> j < |threads| && View().threads[j].pc.User?
      ensures forall j: nat :: j in left <==> j < |threads| && !View().threads[j].pc.Exited?
    {
      inside, left := [], [];
      for i := 0 to |threads|
        invariant |inside| <= 1
        invariant forall j: nat :: j in inside <==> j < i && threads[j].pc.User?
        invariant forall j: nat :: j in left <==> j < i && !threads[j].pc.Exited?
        invariant ctl == Done ==> inside == left == []
      {
        if ctl == Done {
          LeftInTheEnd(n, events, i);
        }
        if threads[i].pc.User? {
          if inside != [] {
            assert inside[0] in inside;
            InsideAlone(n, events, i, inside[0]);
          }
          inside := inside + [i];
        }
        if !threads[i].pc.Exited? {
          left := left + [i];
        }
      }
    }
  }

  method CreateThreads(n: nat) returns (threads: seq<TestThread>)
    ensures |threads| == n && fresh(threads)
    ensures forall i, j | 0 <= i < j < n :: threads[i] != threads[j]
    ensures forall i | 0 <= i < n :: threads[i].View() == Init(n).threads[i]
  {
    threads := [];
    for k := 0 to n
      invariant |threads| == k && fresh(threads)
      invariant forall i, j | 0 <= i < j < k :: threads[i] != threads[j]
      invariant forall i | 0 <= i < k :: threads[i].View() == Init(n).threads[i]
    {
      var t := new TestThread();
      threads := threads + [t];
    }
  }

  lemma RunSnoc(s: System, events: seq<Event>, event: Event)
    requires Run(s, events).Some?
    ensures Run(s, events + [event]) == Next(Run(s, events).value, event)
    decreases |events|
  {
    if events == [] {
      assert events + [event] == [event];
      assert Run(s, [event]) == match Next(s, event) case None => None case Some(r) => Run(r, []);
    } else {
      assert (events + [event])[1..] == events[1..] + [event];
      RunSnoc(Next(s, events[0]).value, events[1..], event);
    }
  }

  /** Lets the events happen, up to the first one that cannot. */
  method PerformAll(permuter: Permuter, n: nat, events: seq<Event>) returns (done: nat)
    requires permuter.Distinct() && permuter.View() == Init(n)
    modifies permuter, permuter.threads
    ensures done <= |events| && Run(Init(n), events[..done]) == Some(permuter.View())
    ensures done < |events| ==> Run(Init(n), events[..done + 1]) == None
  {
    done := 0;
    while done < |events|
      invariant done <= |events| && permuter.Distinct()
      invariant Run(Init(n), events[..done]) == Some(permuter.View())
    {
      RunSnoc(Init(n), events[..done], events[done]);
      assert events[..done + 1] == events[..done] + [events[done]];
      var moved := permuter.Perform(events[done]);
      if !moved {
        return;
      }
      done := done + 1;
    }
  }

  /** Runs the controller and its threads in the given order, up to the first event that cannot happen: however the
      threads were interleaved, `inside` has the one thread that is in test code, if any, and if the controller came
      to the end of its work, no thread is left. */
  method Interleave(n: nat, events: seq<Event>) returns (done: nat, inside: seq<nat>, left: seq<nat>, ended: bool)
    ensures done <= |events| && Run(Init(n), events[..done]).Some?
    ensures done < |events| ==> Run(Init(n), events[..done + 1]) == None
    ensures var s := Run(Init(n), events[..done]).value;
            && |s.threads| == n && (ended <==> s.ctl == Done)
            && (forall j: nat :: j in inside <==> j < n && s.threads[j].pc.User?)
            && (forall j: nat :: j in left <==> j < n && !s.threads[j].pc.Exited?)
    ensures |inside| <= 1 && (ended ==> inside == left == [])
  {
    var threads := CreateThreads(n);
    var permuter := new Permuter(threads);
    assert permuter.View().threads == Init(n).threads;
    done := PerformAll(permuter, n, events);
    Reachable(n, events[..done]);
    ended := permuter.ctl == Done;
    inside, left := permuter.Look(n, events[..done]);
  }
}
