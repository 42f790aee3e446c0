/** What one call of `Thread::step` amounts to: one segment of one thread, from its checkpoint to the next. */
module Calls {
  import opened Handshake

  /** The controller calls `step` for thread `i` and is back after `events`. */
  predicate OneCall(s: System, i: nat, events: seq<Event>, r: System) {
    && s.ctl == Idle && i < |s.threads| && SameJob(events)
    && Run(s.(ctl := Stepping(i, Lock)), events) == Some(r) && r.ctl == Idle
  }

  // ---------- nobody else does anything ----------

  predicate Inactive(t: Thread, u: Thread) {
    u.acts == t.acts && u.returned == t.returned
  }

  /** What holds of thread `i`, which was `t` at the start of the call; `back` if the call has returned. */
  predicate Active(back: bool, t: Thread, u: Thread) {
    && t.acts <= u.acts
    && if back then u.returned != [] && u.returned[..|u.returned| - 1] == t.returned else u.returned == t.returned
  }

  predicate InCall(ctl: ControllerPc, i: nat) {
    ctl == Idle || (ctl.Stepping? && ctl.i == i)
  }

  predicate OthersInactive(s: System, i: nat, m: System) {
    |m.threads| == |s.threads| && forall j | 0 <= j < |s.threads| && j != i :: Inactive(s.threads[j], m.threads[j])
  }

  /** `m` is a state during the call of `step` for thread `i` that was made in `s`. */
  predicate During(s: System, i: nat, m: System) {
    && i < |s.threads| && OthersInactive(s, i, m)
    && InCall(m.ctl, i) && Active(m.ctl == Idle, s.threads[i], m.threads[i])
  }

  lemma RestingInactive(role: Role, t: Thread, e: ThreadEvent)
    requires role == Resting && Situated(role, t) && ThreadMove(t, e).Some?
    ensures Inactive(t, ThreadMove(t, e).value)
  {
  }

  lemma ThreadEventReturns(t: Thread, e: ThreadEvent)
    requires ThreadMove(t, e).Some?
    ensures t.acts <= ThreadMove(t, e).value.acts && ThreadMove(t, e).value.returned == t.returned
  {
  }

  lemma NotifiedInCall(ctl: ControllerPc, i: nat, j: nat)
    requires InCall(ctl, i)
    ensures InCall(NotifyController(ctl, j), i) && (NotifyController(ctl, j) == Idle <==> ctl == Idle)
  {
  }

  lemma ThreadDuring(s: System, i: nat, m: System, j: nat, e: ThreadEvent)
    requires Inv(m) && During(s, i, m) && Next(m, OfThread(j, e)).Some?
    ensures During(s, i, Next(m, OfThread(j, e)).value)
  {
    NotifiedInCall(m.ctl, i, j);
    ThreadEventReturns(m.threads[j], e);
    if j != i {
      RestingInactive(RoleOf(m.ctl, j), m.threads[j], e);
    }
  }

  lemma StepReturns(i: nat, phase: Phase, t: Thread)
    requires StepMove(i, phase, t).Some?
    ensures var (ctl, u) := StepMove(i, phase, t).value;
            InCall(ctl, i) && u.acts == t.acts && u.returned == t.returned + if ctl == Idle then [t.state] else []
  {
  }

  lemma ProceedDuring(s: System, i: nat, m: System)
    requires During(s, i, m) && ControllerMove(m).Some?
    ensures During(s, i, ControllerMove(m).value)
  {
    StepReturns(i, m.ctl.phase, m.threads[i]);
  }

  lemma NextDuring(s: System, i: nat, m: System, event: Event)
    requires Inv(m) && During(s, i, m) && Next(m, event).Some? && SameJob([event])
    ensures During(s, i, Next(m, event).value)
  {
    assert event in [event];
    match event
    case OfThread(j, e) => ThreadDuring(s, i, m, j, e);
    case OfController(Proceed) => ProceedDuring(s, i, m);
    case OfController(_) =>
  }

  lemma {:induction false} RunDuring(s: System, i: nat, m: System, events: seq<Event>)
    requires Inv(m) && During(s, i, m) && Run(m, events).Some? && SameJob(events)
    ensures Inv(Run(m, events).value) && During(s, i, Run(m, events).value)
    decreases |events|
  {
    if events != [] {
      NextDuring(s, i, m, events[0]);
      NextKeeps(m, events[0]);
      RunDuring(s, i, Next(m, events[0]).value, events[1..]);
    }
  }

  lemma BalancedAtRest(s: System, i: nat)
    requires Inv(s) && s.ctl == Idle && i < |s.threads|
    ensures Passed(s.threads[i].acts) == [Yielding] + s.threads[i].returned
    ensures !s.threads[i].progress
  {
    assert ThreadInv(RoleOf(s.ctl, i), s.threads[i]);
  }

  /** One call is one segment: however the events are ordered, and whatever wakes up spuriously, no other thread passes
      anything to `pause` or has anything returned, and thread `i` passes exactly one state, which is the one that the
      call returns. */
  lemma OneSegment(s: System, i: nat, events: seq<Event>, r: System) returns (st: StateType)
    requires Inv(s) && OneCall(s, i, events, r)
    ensures Inv(r) && OthersInactive(s, i, r)
    ensures s.threads[i].acts <= r.threads[i].acts
    ensures r.threads[i].returned == s.threads[i].returned + [st]
    ensures Passed(r.threads[i].acts) == Passed(s.threads[i].acts) + [st]
  {
    StepThreadKeeps(s, i);
    RunDuring(s, i, s.(ctl := Stepping(i, Lock)), events);
    var returned := r.threads[i].returned;
    st := returned[|returned| - 1];
    assert returned == s.threads[i].returned + [st];
    BalancedAtRest(s, i);
    BalancedAtRest(r, i);
  }

  // ---------- every segment can be made ----------

  /** The call is under way, and if the thread has paused already, it passed `st`. */
  predicate Heading(m: System, i: nat, st: StateType) {
    && m.ctl.Stepping? && m.ctl.i == i && i < |m.threads| && !m.threads[i].progress
    && (m.ctl.phase == Lock || m.ctl.phase == Signal || BetweenPauses(m.threads[i]) || m.threads[i].state == st)
  }

  function Towards(m: System, i: nat, st: StateType): Event
    requires i < |m.threads|
  {
    if ControllerMove(m).Some? then OfController(Proceed)
    else OfThread(i, if m.threads[i].pc.User? then Call(st) else Go)
  }

  lemma ControllerTowards(i: nat, phase: Phase, t: Thread, st: StateType)
    requires Situated(InStep(phase), t) && StepMove(i, phase, t).Some? && !t.progress
    requires phase == Lock || phase == Signal || BetweenPauses(t) || t.state == st
    ensures var (ctl, u) := StepMove(i, phase, t).value;
            if ctl == Idle then u.returned == t.returned + [st]
            else && ctl.Stepping? && ctl.i == i && !u.progress && u.returned == t.returned
                 && (ctl.phase == Lock || ctl.phase == Signal || BetweenPauses(u) || u.state == st)
  {
  }

  lemma ThreadTowards(phase: Phase, t: Thread, st: StateType, i: nat)
    requires Situated(InStep(phase), t) && StepMove(i, phase, t).None? && !t.progress
    requires phase == Lock || phase == Signal || BetweenPauses(t) || t.state == st
    ensures var e := if t.pc.User? then Call(st) else Go;
            && ThreadMove(t, e).Some? && !ThreadMove(t, e).value.progress
            && ThreadMove(t, e).value.returned == t.returned
            && (phase == Lock || phase == Signal || BetweenPauses(ThreadMove(t, e).value)
                || ThreadMove(t, e).value.state == st)
  {
  }

  lemma MovesTowards(m: System, i: nat, st: StateType)
    requires Inv(m) && Heading(m, i, st)
    ensures var e := Towards(m, i, st);
            && IsWork(e) && Next(m, e).Some?
            && var r := Next(m, e).value;
               && i < |r.threads|
               && if r.ctl == Idle then r.threads[i].returned == m.threads[i].returned + [st]
                  else Heading(r, i, st) && r.threads[i].returned == m.threads[i].returned
  {
    var t, phase := m.threads[i], m.ctl.phase;
    assert ThreadInv(RoleOf(m.ctl, i), t);
    if StepMove(i, phase, t).Some? {
      ControllerTowards(i, phase, t, st);
    } else {
      ThreadTowards(phase, t, st, i);
    }
  }

  lemma {:induction false} CallEnds(m: System, i: nat, st: StateType) returns (events: seq<Event>, r: System)
    requires Inv(m) && Heading(m, i, st)
    ensures SameJob(events) && Run(m, events) == Some(r) && r.ctl == Idle
    ensures i < |r.threads| && r.threads[i].returned == m.threads[i].returned + [st]
    decreases Rank(m)
  {
    var e := Towards(m, i, st);
    MovesTowards(m, i, st);
    var next := Next(m, e).value;
    NextKeeps(m, e);
    NextRanks(m, e);
    RankNotNegative(next);
    if next.ctl == Idle {
      events, r := [e], next;
      assert events[1..] == [];
    } else {
      var rest;
      rest, r := CallEnds(next, i, st);
      events := [e] + rest;
      assert events[1..] == rest;
    }
  }

  /** Whatever the next segment of a thread passes to `pause`, there is a call of `step` that returns it. */
  lemma AnyCall(s: System, i: nat, st: StateType) returns (events: seq<Event>, r: System)
    requires Inv(s) && s.ctl == Idle && i < |s.threads|
    ensures OneCall(s, i, events, r) && Inv(r) && OthersInactive(s, i, r)
    ensures r.threads[i].returned == s.threads[i].returned + [st]
    ensures Passed(r.threads[i].acts) == Passed(s.threads[i].acts) + [st]
  {
    StepThreadKeeps(s, i);
    BalancedAtRest(s, i);
    events, r := CallEnds(s.(ctl := Stepping(i, Lock)), i, st);
    var x := OneSegment(s, i, events, r);
    assert r.threads[i].returned[|s.threads[i].returned|] == x;
  }

  // ---------- how much work a call is ----------

  predicate Asleep(s: System, except: set<nat>) {
    forall j: nat | j < |s.threads| && j !in except :: s.threads[j].pc.Sleeping?
  }

  function ThreadWorkLeft(phase: Phase, t: Thread): nat {
    if phase == Lock || phase == Signal then 7
    else
      match t.pc
      case Waking(_) => 7
      case Checking(_) => if t.paused then 1 else 6
      case Resuming(_) => 5
      case User => 4
      case Locking(_) => 3
      case Announcing(_) => 2
      case _ => 0
  }

  function ControllerWorkLeft(phase: Phase, t: Thread): nat {
    match phase
    case Lock => 5
    case Signal => 4
    case Check => if t.paused then 1 else 3
    case Sleep => 2
    case Wake => 2
  }

  /** The segments that are left in the call of `step` for thread `i`. */
  function CallWorkLeft(m: System, i: nat): nat {
    if m.ctl.Stepping? && i < |m.threads|
    then ThreadWorkLeft(m.ctl.phase, m.threads[i]) + ControllerWorkLeft(m.ctl.phase, m.threads[i])
    else 0
  }

  /** Nobody but thread `i` is awake, and it only is after the controller has set it free. */
  predicate Quiet(m: System, i: nat) {
    && i < |m.threads| && InCall(m.ctl, i) && Asleep(m, {i})
    && (m.ctl == Idle || m.ctl.phase == Lock || m.ctl.phase == Signal ==> m.threads[i].pc.Sleeping?)
    && (m.ctl.Stepping? && m.threads[i].pc.Waking? ==> !m.threads[i].paused)
    && (m.ctl.Stepping? && m.ctl.phase == Wake ==> m.threads[i].paused)
  }

  lemma QuietThread(m: System, i: nat, j: nat, e: ThreadEvent)
    requires Inv(m) && Quiet(m, i) && e != SpuriousWakeup && Next(m, OfThread(j, e)).Some?
    ensures var r := Next(m, OfThread(j, e)).value;
            && j == i && m.ctl.Stepping? && Quiet(r, i)
            && CallWorkLeft(r, i) == CallWorkLeft(m, i) - if e.MadeProgress? then 0 else 1
  {
    assert ThreadInv(RoleOf(m.ctl, i), m.threads[i]);
  }

  lemma QuietController(m: System, i: nat)
    requires Inv(m) && Quiet(m, i) && ControllerMove(m).Some?
    ensures Quiet(ControllerMove(m).value, i) && CallWorkLeft(ControllerMove(m).value, i) == CallWorkLeft(m, i) - 1
  {
    assert ThreadInv(RoleOf(m.ctl, i), m.threads[i]);
  }

  lemma {:induction false} RunQuiet(m: System, i: nat, events: seq<Event>)
    requires Inv(m) && Quiet(m, i) && Run(m, events).Some? && SameJob(events)
    requires forall event | event in events :: !IsSpurious(event)
    ensures Quiet(Run(m, events).value, i)
    ensures CallWorkLeft(Run(m, events).value, i) + Count(events, IsWork) == CallWorkLeft(m, i)
    decreases |events|
  {
    if events != [] {
      var event := events[0];
      assert event in events;
      NextKeeps(m, event);
      if event.OfThread? {
        QuietThread(m, i, event.i, event.e);
      } else {
        QuietController(m, i);
      }
      RunQuiet(Next(m, event).value, i, events[1..]);
    }
  }

  /** Without spurious wakeups, a call of `step` takes exactly twelve segments, five of the controller and seven of the
      thread, and at its end everybody sleeps again. */
  lemma TwelveSegments(s: System, i: nat, events: seq<Event>, r: System)
    requires Inv(s) && OneCall(s, i, events, r) && Asleep(s, {})
    requires forall event | event in events :: !IsSpurious(event)
    ensures Count(events, IsWork) == 12 && Asleep(r, {})
  {
    StepThreadKeeps(s, i);
    var m := s.(ctl := Stepping(i, Lock));
    assert m.threads[i].pc.Sleeping?;
    RunQuiet(m, i, events);
    forall j: nat | j < |r.threads| ensures r.threads[j].pc.Sleeping? {
      assert j != i ==> j !in {i};
    }
  }

  // ---------- starting the threads ----------

  lemma StartingStays(s: System)
    requires s.ctl.Starting? && s.ctl.i < |s.threads| && Next(s, Turn(s)).Some?
    ensures Next(s, Turn(s)).value.ctl.Starting? || Next(s, Turn(s)).value.ctl == Idle
  {
  }

  lemma {:induction false} StartEnds(s: System) returns (events: seq<Event>)
    requires Inv(s) && (s.ctl.Starting? || s.ctl == Idle)
    ensures Run(s, events).Some? && Run(s, events).value.ctl == Idle
    decreases Rank(s)
  {
    events := [];
    if s.ctl != Idle {
      WorkLeft(s);
      StartingStays(s);
      var e := Turn(s);
      NextKeeps(s, e);
      NextRanks(s, e);
      RankNotNegative(Next(s, e).value);
      var rest := StartEnds(Next(s, e).value);
      events := [e] + rest;
      assert events[1..] == rest;
    }
  }

  lemma {:induction false} RunThen(s: System, a: seq<Event>, b: seq<Event>)
    requires Run(s, a).Some?
    ensures Run(s, a + b) == Run(Run(s, a).value, b)
    decreases |a|
  {
    if a == [] {
      assert a + b == b;
    } else {
      assert (a + b)[1..] == a[1..] + b;
      RunThen(Next(s, a[0]).value, a[1..], b);
    }
  }
}
