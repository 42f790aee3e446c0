/** How long schedules can get, and what a wait has to wait for. */
module Bounds {
  import opened Sets
  import opened Schedules

  /** The outcome of step `i` of `w`. */
  ghost function OutcomeAt<S>(p: Program<S>, w: Word, i: nat): Outcome
    requires i < |w|
  {
    p.exec(After(p, w[..i]).world, w[i]).1
  }

  /** The number of steps that did not report `blocking`. */
  ghost function ProgressSteps<S>(p: Program<S>, w: Word): nat {
    if w == [] then 0
    else ProgressSteps(p, w[..|w| - 1]) + if OutcomeAt(p, w, |w| - 1).Blocking? then 0 else 1
  }

  /** A step that reports `blocking` blocks one more thread; no step blocks more than `n` threads. */
  lemma BlockedGrows<S>(p: Program<S>, s: Sched<S>, t: nat)
    requires Disciplined(s) && t in Enabled(s) && s.running <= Indices(p.n)
    ensures p.exec(s.world, t).1.Blocking? ==> |Step(p, s, t).blocked| == |s.blocked| + 1
    ensures |s.blocked| <= p.n
  {
    if p.exec(s.world, t).1.Blocking? {
      assert Step(p, s, t).blocked == s.blocked + {t};
    }
    SubsetSize(s.blocked, Indices(p.n));
  }

  lemma ProgressSnoc<S>(p: Program<S>, v: Word, t: nat)
    ensures ProgressSteps(p, v + [t]) ==
            ProgressSteps(p, v) + if p.exec(After(p, v).world, t).1.Blocking? then 0 else 1
  {
    assert (v + [t])[..|v|] == v;
  }

  /** Blocking steps are paid for by progress and by the threads that are blocked now. */
  ghost predicate LengthPaid<S>(p: Program<S>, w: Word) {
    |w| <= LengthBound(ProgressSteps(p, w), p.n) + |After(p, w).blocked|
  }

  lemma {:induction false} LengthByProgress<S>(p: Program<S>, w: Word)
    requires Legal(p, w)
    ensures LengthPaid(p, w)
    decreases |w|
  {
    if w != [] {
      var v, t := LegalSplit(p, w);
      LengthByProgress(p, v);
      LengthSnoc(p, v, t);
    }
  }

  lemma LengthSnoc<S>(p: Program<S>, v: Word, t: nat)
    requires Legal(p, v) && t in Enabled(After(p, v)) && LengthPaid(p, v)
    ensures LengthPaid(p, v + [t])
  {
    ProgressSnoc(p, v, t);
    AfterSnoc(p, v, t);
    ReachableDisciplined(p, v);
    RunningThreads(p, v);
    BlockedGrows(p, After(p, v), t);
    LengthBoundStep(|v|, ProgressSteps(p, v), ProgressSteps(p, v + [t]),
                    |After(p, v).blocked|, |After(p, v + [t]).blocked|, p.n);
  }

  function ScheduleBound(progress: nat, n: nat): nat {
    progress + n * (progress + 1)
  }

  /** Each step that makes progress can be followed by one blocking step of every thread. */
  function LengthBound(progress: nat, n: nat): nat {
    progress * (n + 1)
  }

  lemma LengthBoundStep(length: nat, x: nat, x': nat, blocked: nat, blocked': nat, n: nat)
    requires length <= LengthBound(x, n) + blocked && blocked <= n
    requires x' == x + 1 || (x' == x && blocked' == blocked + 1)
    ensures length + 1 <= LengthBound(x', n) + blocked'
  {
    assert (x + 1) * (n + 1) == x * (n + 1) + n + 1;
  }

  lemma LengthBoundMonotone(x: nat, y: nat, n: nat)
    requires x <= y
    ensures LengthBound(x, n) <= LengthBound(y, n)
    ensures LengthBound(y, n) + n == ScheduleBound(y, n)
  {
    assert x * (n + 1) + (y - x) * (n + 1) == y * (n + 1);
  }

  /** If the threads together make at most `b` steps that do not report `blocking`, schedules are
      bounded, so `complete` ends in completion or in a deadlock. */
  lemma ProgressBound<S>(p: Program<S>, b: nat)
    requires forall w | Legal(p, w) :: ProgressSteps(p, w) <= b
    ensures Bounded(p, ScheduleBound(b, p.n)) && ScheduleBound(b, p.n) == b + p.n * (b + 1)
  {
    forall w | Legal(p, w) ensures |w| <= ScheduleBound(b, p.n) {
      ProgressBoundAt(p, b, w);
    }
  }

  lemma ProgressBoundAt<S>(p: Program<S>, b: nat, w: Word)
    requires Legal(p, w) && ProgressSteps(p, w) <= b
    ensures |w| <= ScheduleBound(b, p.n)
  {
    LengthByProgress(p, w);
    ReachableDisciplined(p, w);
    RunningThreads(p, w);
    SubsetSize(After(p, w).blocked, Indices(p.n));
    LengthBoundMonotone(ProgressSteps(p, w), b, p.n);
  }

  // ---------- waiting ----------

  /** A thread that may run is not in the waiting set of any condition variable, so the removal at the
      end of `ConditionVariable::wait` has nothing to remove. */
  lemma EnabledDoesNotWait<S>(p: Program<S>, w: Word, t: nat, cv: nat)
    requires Legal(p, w) && t in Enabled(After(p, w))
    ensures !WaitsOn(After(p, w).cvs, t, cv)
  {
    ReachableDisciplined(p, w);
  }

  lemma StartsToWait<S>(p: Program<S>, w: Word, i: nat, cv: nat)
    requires Legal(p, w) && i < |w| && OutcomeAt(p, w, i) == Waiting(cv)
    ensures WaitsOn(After(p, w[..i + 1]).cvs, w[i], cv)
  {
    LegalStep(p, w, i);
  }

  lemma StillWaits<S>(p: Program<S>, w: Word, t: nat, j: nat, cv: nat)
    requires Legal(p, w) && j < |w| && WaitsOn(After(p, w[..j]).cvs, t, cv) && OutcomeAt(p, w, j) != NotifyAll(cv)
    ensures WaitsOn(After(p, w[..j + 1]).cvs, t, cv)
  {
    LegalStep(p, w, j);
  }

  lemma {:induction false} WaitsUntilNotified<S>(p: Program<S>, w: Word, i: nat, j: nat, cv: nat)
    requires Legal(p, w) && i < j <= |w| && OutcomeAt(p, w, i) == Waiting(cv)
    requires forall k | i < k < j :: OutcomeAt(p, w, k) != NotifyAll(cv)
    ensures WaitsOn(After(p, w[..j]).cvs, w[i], cv)
  {
    var m: nat := j - 1;
    if i == m {
      StartsToWait(p, w, i, cv);
    } else {
      WaitsUntilNotified(p, w, i, m, cv);
      StillWaits(p, w, w[i], m, cv);
    }
  }

  /** A thread that waits on a condition variable is not stepped again before a `notify_all` on that
      condition variable. */
  lemma WaitNeedsNotify<S>(p: Program<S>, w: Word, i: nat, j: nat, cv: nat)
    requires Legal(p, w) && i < j < |w| && w[j] == w[i] && OutcomeAt(p, w, i) == Waiting(cv)
    ensures exists k | i < k < j :: OutcomeAt(p, w, k) == NotifyAll(cv)
  {
    if forall k | i < k < j :: OutcomeAt(p, w, k) != NotifyAll(cv) {
      WaitsUntilNotified(p, w, i, j, cv);
      LegalPrefix(p, w, j);
      LegalStep(p, w, j);
      EnabledDoesNotWait(p, w[..j], w[i], cv);
    }
  }

  // ---------- blocking ----------

  /** The outcomes that allow the other blocked threads to run again. */
  predicate Frees(o: Outcome) {
    o.Yielding? || o.BlockingWithProgress? || o.Waiting? || o.Finished?
  }

  lemma BlocksItself<S>(p: Program<S>, w: Word, i: nat)
    requires Legal(p, w) && i < |w|
    requires OutcomeAt(p, w, i).Blocking? || OutcomeAt(p, w, i).BlockingWithProgress?
    ensures w[i] in After(p, w[..i + 1]).blocked
  {
    LegalStep(p, w, i);
  }

  lemma StillBlocked<S>(p: Program<S>, w: Word, t: nat, j: nat)
    requires Legal(p, w) && j < |w| && t in After(p, w[..j]).blocked
    requires w[j] != t ==> !Frees(OutcomeAt(p, w, j))
    ensures t in After(p, w[..j + 1]).blocked
  {
    LegalStep(p, w, j);
  }

  lemma {:induction false} BlockedUntilFreed<S>(p: Program<S>, w: Word, i: nat, j: nat)
    requires Legal(p, w) && i < j <= |w|
    requires OutcomeAt(p, w, i).Blocking? || OutcomeAt(p, w, i).BlockingWithProgress?
    requires forall k | i < k < j && w[k] != w[i] :: !Frees(OutcomeAt(p, w, k))
    ensures w[i] in After(p, w[..j]).blocked
  {
    var m: nat := j - 1;
    if i == m {
      BlocksItself(p, w, i);
    } else {
      BlockedUntilFreed(p, w, i, m);
      StillBlocked(p, w, w[i], m);
    }
  }

  /** A thread that reported `blocking`, with progress or not, is not stepped again before another thread has made
      a step that frees it. */
  lemma RetryNeedsProgress<S>(p: Program<S>, w: Word, i: nat, j: nat)
    requires Legal(p, w) && i < j < |w| && w[j] == w[i]
    requires OutcomeAt(p, w, i).Blocking? || OutcomeAt(p, w, i).BlockingWithProgress?
    ensures exists k | i < k < j :: w[k] != w[i] && Frees(OutcomeAt(p, w, k))
  {
    if forall k | i < k < j && w[k] != w[i] :: !Frees(OutcomeAt(p, w, k)) {
      BlockedUntilFreed(p, w, i, j);
      LegalStep(p, w, j);
    }
  }

  /** After `yielding`, `waiting` or `finished`, every running thread that does not wait may be next, and after
      `blocking_with_progress` every one of them but the thread itself. */
  lemma FreedThreads<S>(p: Program<S>, w: Word, t: nat)
    requires Legal(p, w) && t in Enabled(After(p, w)) && Frees(p.exec(After(p, w).world, t).1)
    ensures var s, o := After(p, w + [t]), p.exec(After(p, w).world, t).1;
            Enabled(s) == s.running - s.waiting - if o.BlockingWithProgress? then {t} else {}
  {
    AfterSnoc(p, w, t);
  }

  /** The last step of `t` in `w` is step `i`, and it reported `finished`. */
  ghost predicate FinishedAt<S>(p: Program<S>, w: Word, t: nat, i: nat) {
    i < |w| && w[i] == t && OutcomeAt(p, w, i) == Finished && forall j | i < j < |w| :: w[j] != t
  }

  /** A thread that is not running any more has made its last step, and that step reported
      `finished`. */
  lemma {:induction false} LastStepFinished<S>(p: Program<S>, w: Word, t: nat) returns (i: nat)
    requires Legal(p, w) && t < p.n && t !in After(p, w).running
    ensures FinishedAt(p, w, t, i)
  {
    assert w != [] by {
      assert After(p, []).running == Indices(p.n);
    }
    var v, u := w[..|w| - 1], w[|w| - 1];
    LegalLast(p, w);
    assert w == v + [u];
    if t in After(p, v).running {
      i := |v|;
      FinishesNow(p, After(p, v), u, t);
    } else {
      i := LastStepFinished(p, v, t);
      assert u in After(p, v).running;
      FinishedSnoc(p, v, u, t, i);
    }
  }

  lemma FinishesNow<S>(p: Program<S>, s: Sched<S>, u: nat, t: nat)
    requires t in s.running && t !in Step(p, s, u).running
    ensures u == t && p.exec(s.world, u).1 == Finished
  {
  }

  lemma FinishedSnoc<S>(p: Program<S>, v: Word, u: nat, t: nat, i: nat)
    requires FinishedAt(p, v, t, i) && u != t
    ensures FinishedAt(p, v + [u], t, i)
  {
    assert (v + [u])[..i] == v[..i];
  }
}
