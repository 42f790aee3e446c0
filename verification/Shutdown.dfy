/** Why the loop that stops the threads at the end of `ThreadPermuter::run` comes to its end: after a complete
    schedule every thread is paused as `finished`. */
module Shutdown {
  import S = Schedules
  import B = Bounds
  import opened Handshake
  import opened Calls

  function StateTypeOf(o: S.Outcome): StateType {
    match o
    case Yielding => StateType.Yielding
    case Blocking => StateType.Blocking
    case BlockingWithProgress => StateType.BlockingWithProgress
    case Waiting(_) => StateType.Waiting
    case NotifyAll(_) => StateType.NotifyAll
    case Finished => StateType.Finished
  }

  /** What `Thread::step` returns for thread `t` while the steps of `w` are made. */
  ghost function StepsOf<T>(p: S.Program<T>, w: S.Word, t: nat): seq<StateType> {
    if w == [] then []
    else
      StepsOf(p, w[..|w| - 1], t)
      + if w[|w| - 1] == t then [StateTypeOf(B.OutcomeAt(p, w, |w| - 1))] else []
  }

  lemma {:induction false} LastOfSteps<T>(p: S.Program<T>, w: S.Word, t: nat, i: nat)
    requires B.FinishedAt(p, w, t, i)
    ensures StepsOf(p, w, t) != [] && StepsOf(p, w, t)[|StepsOf(p, w, t)| - 1] == StateType.Finished
    decreases |w|
  {
    if i < |w| - 1 {
      var v := w[..|w| - 1];
      assert v[..i] == w[..i];
      LastOfSteps(p, v, t, i);
    }
  }

  /** Call number `k` of `step` is for thread `f[k]`, which passes to `pause` what step `k` of `f` ends with. */
  ghost predicate DroveAt<T>(p: S.Program<T>, f: S.Word, k: nat, s: System, events: seq<Event>, r: System)
    requires k < |f|
  {
    && OneCall(s, f[k], events, r) && f[k] < |r.threads|
    && Passed(r.threads[f[k]].acts) == Passed(s.threads[f[k]].acts) + [StateTypeOf(B.OutcomeAt(p, f, k))]
  }

  /** The calls of `step` spell `f`: `states` are the states between them, `rounds` the events of each call. */
  ghost predicate Drove<T>(p: S.Program<T>, f: S.Word, states: seq<System>, rounds: seq<seq<Event>>) {
    && |states| == |f| + 1 && |rounds| == |f|
    && forall k: nat | k < |f| :: DroveAt(p, f, k, states[k], rounds[k], states[k + 1])
  }

  /** What `step` has returned since `s` are the outcomes of the steps of `w`. */
  ghost predicate Spelled<T>(p: S.Program<T>, w: S.Word, s: System, r: System) {
    && Inv(r) && r.ctl == Idle && |r.threads| == |s.threads|
    && forall t: nat | t < |s.threads| :: r.threads[t].returned == s.threads[t].returned + StepsOf(p, w, t)
  }

  lemma StepsOfSnoc<T>(p: S.Program<T>, f: S.Word, k: nat, t: nat)
    requires k < |f|
    ensures StepsOf(p, f[..k + 1], t) ==
            StepsOf(p, f[..k], t) + if f[k] == t then [StateTypeOf(B.OutcomeAt(p, f, k))] else []
  {
    assert f[..k + 1][..k] == f[..k];
  }

  lemma OneMoreStep<T>(p: S.Program<T>, f: S.Word, k: nat, t: nat, s: Thread, m: Thread, r: Thread)
    requires k < |f| && m.returned == s.returned + StepsOf(p, f[..k], t)
    requires if t == f[k] then r.returned == m.returned + [StateTypeOf(B.OutcomeAt(p, f, k))] else Inactive(m, r)
    ensures r.returned == s.returned + StepsOf(p, f[..k + 1], t)
  {
    StepsOfSnoc(p, f, k, t);
  }

  /** The call returns what was passed. */
  lemma DroveReturns<T>(p: S.Program<T>, f: S.Word, k: nat, m: System, events: seq<Event>, r: System)
    requires k < |f| && Inv(m) && DroveAt(p, f, k, m, events, r)
    ensures Inv(r) && r.ctl == Idle && OthersInactive(m, f[k], r)
    ensures r.threads[f[k]].returned == m.threads[f[k]].returned + [StateTypeOf(B.OutcomeAt(p, f, k))]
  {
    var st := OneSegment(m, f[k], events, r);
    var passed := Passed(m.threads[f[k]].acts);
    assert (passed + [st])[|passed|] == st;
  }

  lemma SpelledSnoc<T>(p: S.Program<T>, f: S.Word, k: nat, s: System, m: System, events: seq<Event>, r: System)
    requires k < |f| && Spelled(p, f[..k], s, m) && DroveAt(p, f, k, m, events, r)
    ensures Spelled(p, f[..k + 1], s, r)
  {
    DroveReturns(p, f, k, m, events, r);
    forall t: nat | t < |s.threads|
      ensures r.threads[t].returned == s.threads[t].returned + StepsOf(p, f[..k + 1], t)
    {
      OneMoreStep(p, f, k, t, s.threads[t], m.threads[t], r.threads[t]);
    }
  }

  lemma SpelledAtFirst<T>(p: S.Program<T>, f: S.Word, s: System)
    requires Inv(s) && s.ctl == Idle
    ensures Spelled(p, f[..0], s, s)
  {
    assert f[..0] == [];
  }

  lemma {:induction false} SpelledUpTo<T>(p: S.Program<T>, f: S.Word, k: nat, states: seq<System>,
                                          rounds: seq<seq<Event>>)
    requires Drove(p, f, states, rounds) && Inv(states[0]) && states[0].ctl == Idle && k <= |f|
    ensures Spelled(p, f[..k], states[0], states[k])
  {
    if k == 0 {
      SpelledAtFirst(p, f, states[0]);
    } else {
      var j: nat := k - 1;
      SpelledUpTo(p, f, j, states, rounds);
      assert DroveAt(p, f, j, states[j], rounds[j], states[j + 1]);
      SpelledSnoc(p, f, j, states[0], states[j], rounds[j], states[k]);
    }
  }

  /** When the calls of `step` spell a schedule, what they return for each thread are the outcomes of its steps. */
  lemma ReturnsSpell<T>(p: S.Program<T>, f: S.Word, states: seq<System>, rounds: seq<seq<Event>>)
    requires Drove(p, f, states, rounds) && Inv(states[0]) && states[0].ctl == Idle
    ensures Spelled(p, f, states[0], states[|f|])
  {
    SpelledUpTo(p, f, |f|, states, rounds);
    assert f[..|f|] == f;
  }

  // ---------- what the returned state tells ----------

  /** The last state returned for `t` names the outcome of the step, and that is what the step does to the thread sets
      of the permuter. */
  ghost predicate Tells<T>(st: StateType, o: S.Outcome, t: nat, before: S.Sched<T>, after: S.Sched<T>) {
    && (st == StateType.Yielding <==> o.Yielding?)
    && (st == StateType.Blocking <==> o.Blocking?)
    && (st == StateType.BlockingWithProgress <==> o.BlockingWithProgress?)
    && (st == StateType.NotifyAll <==> o.NotifyAll?)
    && (st == StateType.Waiting <==> exists cv :: S.WaitsOn(after.cvs, t, cv))
    && (st == StateType.Finished <==> t !in after.running)
    && (st == StateType.Yielding ==> S.Enabled(after) == after.running - after.waiting)
    && (st == StateType.Blocking ==> t !in before.blocked && after.blocked == before.blocked + {t})
    && (st == StateType.BlockingWithProgress ==> after.blocked == {t} + after.waiting)
    && (st == StateType.NotifyAll ==> after.blocked == before.blocked)
    && st != StateType.Woken && st != StateType.NotifyOne
  }

  lemma OutcomeTells<T>(p: S.Program<T>, s: S.Sched<T>, t: nat)
    requires S.Disciplined(s) && t in S.Enabled(s)
    ensures var o := p.exec(s.world, t).1; Tells(StateTypeOf(o), o, t, s, S.Step(p, s, t))
  {
    var o, r := p.exec(s.world, t).1, S.Step(p, s, t);
    S.StepDisciplined(p, s, t);
    if o.Waiting? {
      assert S.WaitsOn(r.cvs, t, o.cv);
    }
    if cv :| S.WaitsOn(r.cvs, t, cv) {
      assert t in r.waiting;
    }
  }

  /** After the calls of `step` have spelled `w + [t]`, the last state returned for `t` tells what its step did. */
  lemma LastReturned<T>(p: S.Program<T>, w: S.Word, t: nat, states: seq<System>, rounds: seq<seq<Event>>)
    requires S.Legal(p, w + [t]) && Drove(p, w + [t], states, rounds)
    requires Inv(states[0]) && states[0].ctl == Idle && |states[0].threads| == p.n
    ensures var r := states[|w| + 1];
            && t < |r.threads| && r.threads[t].returned != []
            && Tells(r.threads[t].returned[|r.threads[t].returned| - 1], p.exec(S.After(p, w).world, t).1, t,
                     S.After(p, w), S.After(p, w + [t]))
  {
    var f := w + [t];
    assert f[..|w|] == w;
    S.LegalPrefix(p, f, |w|);
    S.LegalStep(p, f, |w|);
    S.ReachableDisciplined(p, w);
    S.AfterSnoc(p, w, t);
    OutcomeTells(p, S.After(p, w), t);
    SpelledUpTo(p, f, |w|, states, rounds);
    assert DroveAt(p, f, |w|, states[|w|], rounds[|w|], states[|w| + 1]);
    DroveReturns(p, f, |w|, states[|w|], rounds[|w|], states[|w| + 1]);
  }

  lemma DroveSnoc<T>(p: S.Program<T>, w: S.Word, t: nat, states: seq<System>, rounds: seq<seq<Event>>,
                     events: seq<Event>, r: System)
    requires Drove(p, w, states, rounds) && DroveAt(p, w + [t], |w|, states[|w|], events, r)
    ensures Drove(p, w + [t], states + [r], rounds + [events])
  {
    var f, ss, rs := w + [t], states + [r], rounds + [events];
    forall k: nat | k < |f|
      ensures DroveAt(p, f, k, ss[k], rs[k], ss[k + 1])
    {
      if k < |w| {
        assert f[..k] == w[..k];
        assert DroveAt(p, w, k, states[k], rounds[k], states[k + 1]);
      }
    }
  }

  /** Every legal schedule can be driven, from any state in which the controller is idle. */
  lemma {:induction false} CanDrive<T>(p: S.Program<T>, f: S.Word, s: System)
    returns (states: seq<System>, rounds: seq<seq<Event>>)
    requires S.Legal(p, f) && Inv(s) && s.ctl == Idle && |s.threads| == p.n
    ensures Drove(p, f, states, rounds) && states[0] == s
    decreases |f|
  {
    if f == [] {
      states, rounds := [s], [];
    } else {
      var w, t := S.LegalSplit(p, f);
      S.LegalThreads(p, f);
      assert f[|w|] == t;
      states, rounds := CanDrive(p, w, s);
      ReturnsSpell(p, w, states, rounds);
      var events, r := AnyCall(states[|w|], t, StateTypeOf(B.OutcomeAt(p, f, |w|)));
      DroveSnoc(p, w, t, states, rounds, events, r);
      states, rounds := states + [r], rounds + [events];
    }
  }

  // ---------- the end of a search ----------

  lemma FinishedInTheEnd<T>(p: S.Program<T>, f: S.Word, t: nat, before: seq<StateType>, thread: Thread)
    requires S.Complete(p, f) && t < p.n && thread.returned == before + StepsOf(p, f, t)
    ensures ReturnedFinished(thread)
  {
    var i := B.LastStepFinished(p, f, t);
    LastOfSteps(p, f, t, i);
  }

  /** When a complete schedule has been driven, the loop that stops the threads can come to its end. */
  lemma StopsAfterComplete<T>(p: S.Program<T>, f: S.Word, states: seq<System>, rounds: seq<seq<Event>>)
    requires S.Complete(p, f) && Drove(p, f, states, rounds)
    requires Inv(states[0]) && states[0].ctl == Idle && |states[0].threads| == p.n
    ensures var s := states[|f|];
            && Inv(s) && s.ctl == Idle && AllFinished(s) && Next(s, OfController(StopAll)).Some?
            && exists rest :: EndsBy(Next(s, OfController(StopAll)).value, rest)
  {
    ReturnsSpell(p, f, states, rounds);
    var s := states[|f|];
    forall t: nat | t < p.n
      ensures ReturnedFinished(s.threads[t])
    {
      FinishedInTheEnd(p, f, t, states[0].threads[t].returned, s.threads[t]);
    }
    StopsIff(s);
  }

  /** The events of the calls of `step`. */
  function Driven(f: S.Word, rounds: seq<seq<Event>>): seq<Event>
    requires |f| == |rounds|
  {
    if f == [] then []
    else
      Driven(f[..|f| - 1], rounds[..|f| - 1]) + ([OfController(StepThread(f[|f| - 1]))] + rounds[|f| - 1])
  }

  lemma CallRuns(s: System, i: nat, events: seq<Event>, r: System)
    requires OneCall(s, i, events, r)
    ensures Run(s, [OfController(StepThread(i))] + events) == Some(r)
  {
    assert ([OfController(StepThread(i))] + events)[1..] == events;
  }

  lemma DrivenSnoc(f: S.Word, rounds: seq<seq<Event>>, k: nat)
    requires |f| == |rounds| && k < |f|
    ensures Driven(f[..k + 1], rounds[..k + 1]) ==
            Driven(f[..k], rounds[..k]) + ([OfController(StepThread(f[k]))] + rounds[k])
  {
    assert f[..k + 1][..k] == f[..k] && rounds[..k + 1][..k] == rounds[..k];
  }

  lemma {:induction false} DriveRuns<T>(p: S.Program<T>, f: S.Word, k: nat, states: seq<System>,
                                        rounds: seq<seq<Event>>)
    requires Drove(p, f, states, rounds) && k <= |f|
    ensures Run(states[0], Driven(f[..k], rounds[..k])) == Some(states[k])
  {
    if k > 0 {
      var j: nat := k - 1;
      DriveRuns(p, f, j, states, rounds);
      DrivenSnoc(f, rounds, j);
      assert DroveAt(p, f, j, states[j], rounds[j], states[j + 1]);
      CallRuns(states[j], f[j], rounds[j], states[k]);
      RunThen(states[0], Driven(f[..j], rounds[..j]), [OfController(StepThread(f[j]))] + rounds[j]);
    }
  }

  /** For every complete schedule there is a run of the controller and its threads, from the start to the last join,
      in which the calls of `step` spell it. */
  lemma WholeRun<T>(p: S.Program<T>, f: S.Word)
    returns (start: seq<Event>, states: seq<System>, rounds: seq<seq<Event>>, rest: seq<Event>)
    requires S.Complete(p, f)
    ensures Drove(p, f, states, rounds) && Run(Init(p.n), start) == Some(states[0])
    ensures EndsBy(Init(p.n), start + (Driven(f, rounds) + ([OfController(StopAll)] + rest)))
  {
    start := StartEnds(Init(p.n));
    Reachable(p.n, start);
    states, rounds := CanDrive(p, f, Run(Init(p.n), start).value);
    StopsAfterComplete(p, f, states, rounds);
    var s := states[|f|];
    var r := Next(s, OfController(StopAll)).value;
    rest :| EndsBy(r, rest);
    assert ([OfController(StopAll)] + rest)[1..] == rest;
    DriveRuns(p, f, |f|, states, rounds);
    assert f[..|f|] == f && rounds[..|f|] == rounds;
    RunThen(states[0], Driven(f, rounds), [OfController(StopAll)] + rest);
    RunThen(Init(p.n), start, Driven(f, rounds) + ([OfController(StopAll)] + rest));
  }
}
