/** Deadlock reports for programs that use `wait` and `notify_all`: when they are genuine, and one that is not. */
module FalseDeadlock {
  import opened Sets
  import opened Schedules

  // ---------- what a report says ----------

  /** Every step of `u` is made by a thread that is running and does not wait; it may be blocked. */
  ghost predicate RespectsWaits<S>(p: Program<S>, u: Word) {
    forall i | 0 <= i < |u| :: u[i] in CanGoOn(After(p, u[..i]))
  }

  ghost function CanGoOn<S>(s: Sched<S>): set<nat> {
    s.running - s.waiting
  }

  /** The states only differ in which threads the scheduler has blocked. */
  ghost predicate SameButBlocked<S>(s: Sched<S>, r: Sched<S>) {
    r.world == s.world && r.cvs == s.cvs && r.running == s.running && r.waiting == s.waiting
  }

  /** No continuation that respects the waits changes anything, so none finishes. */
  ghost predicate Genuine<S>(p: Program<S>, w: Word) {
    forall v | RespectsWaits(p, w + v) :: SameButBlocked(After(p, w), After(p, w + v))
  }

  /** Every thread that could go on, released ones included, would change nothing. */
  ghost predicate NobodyGoesOn<S>(p: Program<S>, s: Sched<S>) {
    forall t | t in CanGoOn(s) :: SameButBlocked(s, Step(p, s, t))
  }

  lemma RespectsWaitsSnoc<S>(p: Program<S>, u: Word, t: nat)
    ensures RespectsWaits(p, u + [t]) <==> RespectsWaits(p, u) && t in CanGoOn(After(p, u))
  {
    var v := u + [t];
    assert v[..|u|] == u && v[|u|] == t;
    forall i | 0 <= i < |u| ensures v[..i] == u[..i] && v[i] == u[i] {
    }
  }

  lemma LegalRespectsWaits<S>(p: Program<S>, w: Word)
    requires Legal(p, w)
    ensures RespectsWaits(p, w)
  {
    forall i | 0 <= i < |w| ensures w[i] in CanGoOn(After(p, w[..i])) {
      LegalPrefix(p, w, i);
      ReachableDisciplined(p, w[..i]);
    }
  }

  lemma SameStep<S>(p: Program<S>, s: Sched<S>, r: Sched<S>, t: nat)
    requires SameButBlocked(s, r)
    ensures SameButBlocked(Step(p, s, t), Step(p, r, t))
  {
  }

  lemma {:induction false} NothingChanges<S>(p: Program<S>, w: Word, v: Word)
    requires NobodyGoesOn(p, After(p, w)) && RespectsWaits(p, w + v)
    ensures SameButBlocked(After(p, w), After(p, w + v))
    decreases |v|
  {
    if v == [] {
      assert w + v == w;
    } else {
      var u, t := v[..|v| - 1], v[|v| - 1];
      assert w + v == (w + u) + [t];
      RespectsWaitsSnoc(p, w + u, t);
      NothingChanges(p, w, u);
      AfterSnoc(p, w + u, t);
      SameStep(p, After(p, w), After(p, w + u), t);
    }
  }

  /** For every program: a deadlock report is genuine if and only if every running thread that does not wait would
      change nothing if it were run. */
  lemma GenuineIff<S>(p: Program<S>, w: Word)
    requires Deadlocked(p, w)
    ensures Genuine(p, w) <==> NobodyGoesOn(p, After(p, w))
    ensures Genuine(p, w) ==> forall v | RespectsWaits(p, w + v) :: After(p, w + v).running != {}
  {
    if NobodyGoesOn(p, After(p, w)) {
      forall v | RespectsWaits(p, w + v) ensures SameButBlocked(After(p, w), After(p, w + v)) {
        NothingChanges(p, w, v);
      }
    }
    if Genuine(p, w) {
      LegalRespectsWaits(p, w);
      forall t | t in CanGoOn(After(p, w)) ensures SameButBlocked(After(p, w), Step(p, After(p, w), t)) {
        RespectsWaitsSnoc(p, w, t);
        AfterSnoc(p, w, t);
      }
    }
  }

  // ---------- a report that is not genuine ----------

  datatype Flags = Flags(waited: bool, notified: bool, flag: bool)

  /** Thread 0 waits and then sets a flag; thread 1 notifies and then blocks until the flag is set. */
  function Exec(s: Flags, t: nat): (Flags, Outcome) {
    if t == 0 then
      if !s.waited then (s.(waited := true), Waiting(0)) else (s.(flag := true), Finished)
    else if !s.notified then (s.(notified := true), NotifyAll(0))
    else (s, if s.flag then Finished else Blocking)
  }

  const RELEASED: Program<Flags> := Program(2, Flags(false, false, false), Exec)

  /** The state of the permuter while both threads are running. */
  function Both(world: Flags, waiters: set<nat>, blocked: set<nat>): Sched<Flags> {
    Sched(world, map[0 := waiters], {0, 1}, blocked, waiters, {})
  }

  lemma FirstSteps(p: Program<Flags>)
    requires p == RELEASED
    ensures Start(p) == Sched(Flags(false, false, false), map[], {0, 1}, {}, {}, {})
    ensures Step(p, Start(p), 0) == Both(Flags(true, false, false), {0}, {0})
  {
    assert Indices(2) == {0, 1};
  }

  lemma NotifySteps(p: Program<Flags>)
    requires p == RELEASED
    ensures Step(p, Both(Flags(true, false, false), {0}, {0}), 1) == Both(Flags(true, true, false), {}, {0})
    ensures Step(p, Both(Flags(true, true, false), {}, {0}), 1) == Both(Flags(true, true, false), {}, {0, 1})
  {
  }

  lemma LastSteps(p: Program<Flags>)
    requires p == RELEASED
    ensures var s := Step(p, Both(Flags(true, true, false), {}, {0, 1}), 0);
            s.running == {1} && s.waiting == {} && Step(p, s, 1).running == {}
  {
  }

  lemma NextWord(p: Program<Flags>, w: Word, t: nat)
    ensures After(p, w + [t]) == Step(p, After(p, w), t)
    ensures Legal(p, w) && t in Enabled(After(p, w)) ==> Legal(p, w + [t])
    ensures RespectsWaits(p, w) && t in CanGoOn(After(p, w)) ==> RespectsWaits(p, w + [t])
  {
    AfterSnoc(p, w, t);
    RespectsWaitsSnoc(p, w, t);
    if Legal(p, w) && t in Enabled(After(p, w)) {
      LegalSnoc(p, w, t);
    }
  }

  lemma UpToReport(p: Program<Flags>) returns (w: Word)
    requires p == RELEASED
    ensures w == [0, 1, 1]
    ensures Legal(p, w) && After(p, w) == Both(Flags(true, true, false), {}, {0, 1})
  {
    FirstSteps(p);
    NotifySteps(p);
    w := [];
    NextWord(p, w, 0);
    NextWord(p, w + [0], 1);
    NextWord(p, w + [0] + [1], 1);
    w := w + [0] + [1] + [1];
  }

  lemma OnFromReport(p: Program<Flags>, w: Word) returns (v: Word)
    requires p == RELEASED
    requires Legal(p, w) && After(p, w) == Both(Flags(true, true, false), {}, {0, 1})
    ensures v == [0, 1] && RespectsWaits(p, w + v) && After(p, w + v).running == {}
  {
    LegalRespectsWaits(p, w);
    LastSteps(p);
    NextWord(p, w, 0);
    NextWord(p, w + [0], 1);
    v := [0, 1];
    assert w + v == w + [0] + [1];
  }

  /** After the notification thread 0 is still blocked, so when thread 1 blocks a deadlock is reported, although
      thread 0 can go on and then both threads finish. */
  lemma FalseReport() returns (w: Word, v: Word)
    ensures w == [0, 1, 1] && Deadlocked(RELEASED, w) && !Genuine(RELEASED, w)
    ensures v == [0, 1] && RespectsWaits(RELEASED, w + v) && After(RELEASED, w + v).running == {}
  {
    w := UpToReport(RELEASED);
    v := OnFromReport(RELEASED, w);
    assert !SameButBlocked(After(RELEASED, w), After(RELEASED, w + v));
  }
}
