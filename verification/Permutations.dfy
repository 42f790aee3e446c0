/** `Permutation`: the recorded steps, the per-step snapshots, and the methods that play, complete and
    advance a permutation in place. */
module Permutations {
  import opened Sets
  import opened BitWords
  import opened BitSets
  import opened Schedules

  // ---------- permutation strings ----------

  function Digit(t: nat): char
    requires t < WIDTH
  {
    ('0' as int + t) as char
  }

  predicate Encodable(w: Word) {
    forall i | 0 <= i < |w| :: w[i] < WIDTH
  }

  /** The string that `step` builds up while it runs the steps of `w`. */
  function Encode(w: Word): (s: string)
    requires Encodable(w)
    ensures |s| == |w| && forall i | 0 <= i < |w| :: s[i] == Digit(w[i])
  {
    seq(|w|, i requires 0 <= i < |w| => Digit(w[i]))
  }

  predicate Decodable(s: string) {
    forall i | 0 <= i < |s| :: s[i] >= '0'
  }

  /** The steps that `program` reads from a string: `c - '0'` for each character. */
  function Decode(s: string): (w: Word)
    requires Decodable(s)
    ensures |w| == |s| && forall i | 0 <= i < |s| :: w[i] == s[i] as int - '0' as int
  {
    seq(|s|, i requires 0 <= i < |s| => s[i] as int - '0' as int)
  }

  /** Programming the string that was reported for a schedule replays that schedule. */
  lemma DecodeEncode(w: Word)
    requires Encodable(w)
    ensures Decodable(Encode(w)) && Decode(Encode(w)) == w
  {
    assert forall i | 0 <= i < |w| :: Encode(w)[i] == Digit(w[i]);
  }

  lemma EncodeSnoc(w: Word, t: nat)
    requires Encodable(w) && t < WIDTH
    ensures Encode(w + [t]) == Encode(w) + [Digit(t)]
  {
  }

  // ---------- the threads under test ----------

  /** The `Thread` objects together with the state they work on: the user's data and the
      `ConditionVariable` objects. */
  class TestThreads<S> {
    const p: Program<S>
    var world: S
    var cvs: map<nat, Mask>

    constructor (p: Program<S>)
      ensures this.p == p && world == p.init && cvs == map[]
    {
      this.p := p;
      world := p.init;
      cvs := map[];
    }

    /** `on_permutation_begin` */
    method Begin()
      modifies this
      ensures world == p.init && cvs == map[]
    {
      world := p.init;
      cvs := map[];
    }

    /** `cv->waiting_threads()` */
    function WaitingThreads(cv: nat): Mask
      reads this
    {
      WaitersMask(cvs, cv)
    }

    /** `Thread::step`. When the step ends in `ConditionVariable::wait`, the thread has added itself to
        the waiting threads before it paused. */
    method StepThread(thi: nat) returns (o: Outcome)
      requires thi < WIDTH
      modifies this
      ensures (world, o) == p.exec(old(world), thi)
      ensures !o.Waiting? ==> cvs == old(cvs)
      ensures o.Waiting? ==>
                ToSets(cvs) == ToSets(old(cvs))[o.cv := Waiters(ToSets(old(cvs)), o.cv) + {thi}]
    {
      var (world', o') := p.exec(world, thi);
      world, o := world', o';
      if o.Waiting? {
        ToSetsWaiters(cvs, o.cv);
        var thm := Singleton(thi);
        var m := Union(WaitingThreads(o.cv), thm);
        ToSetsUpdate(cvs, o.cv, m);
        cvs := cvs[o.cv := m];
      }
    }

    /** `ConditionVariable::clear_waiting_threads` */
    method ClearWaitingThreads(cv: nat)
      modifies this`cvs
      ensures cvs == old(cvs)[cv := 0]
    {
      cvs := cvs[cv := 0];
    }

  }

  function WaitersMask(cvs: map<nat, Mask>, cv: nat): Mask {
    if cv in cvs then cvs[cv] else 0
  }

  ghost function ToSets(cvs: map<nat, Mask>): map<nat, set<nat>> {
    map cv | cv in cvs :: ToSet(cvs[cv])
  }

  lemma ToSetsWaiters(cvs: map<nat, Mask>, cv: nat)
    ensures Waiters(ToSets(cvs), cv) == ToSet(WaitersMask(cvs, cv))
  {
    EmptyMask();
  }

  lemma ToSetsUpdate(cvs: map<nat, Mask>, cv: nat, m: Mask)
    ensures ToSets(cvs[cv := m]) == ToSets(cvs)[cv := ToSet(m)]
  {
  }

  // ---------- the permutation ----------

  ghost predicate SnapshotAt<S>(p: Program<S>, w: Word, i: nat, blocked: Mask, waiting: Mask, woken: Mask)
    requires i <= |w|
  {
    var s := After(p, w[..i]);
    ToSet(blocked) == s.blocked && ToSet(waiting) == s.waiting && ToSet(woken) == s.woken
  }

  /** The entries of the snapshot vectors are the thread sets just prior to the corresponding step. */
  ghost predicate Snapshots<S>(p: Program<S>, w: Word, blocked: seq<Mask>, waiting: seq<Mask>, woken: seq<Mask>) {
    && |blocked| == |waiting| == |woken| <= |w|
    && forall i | 0 <= i < |blocked| :: SnapshotAt(p, w, i, blocked[i], waiting[i], woken[i])
  }

  lemma SnapshotsPush<S>(p: Program<S>, w: Word, blocked: seq<Mask>, waiting: seq<Mask>, woken: seq<Mask>,
                         b: Mask, a: Mask, o: Mask)
    requires Snapshots(p, w, blocked, waiting, woken) && |blocked| < |w|
    requires SnapshotAt(p, w, |blocked|, b, a, o)
    ensures Snapshots(p, w, blocked + [b], waiting + [a], woken + [o])
  {
  }

  /** Snapshots only depend on the steps before them. */
  lemma SnapshotsPrefix<S>(p: Program<S>, w: Word, v: Word, k: nat,
                           blocked: seq<Mask>, waiting: seq<Mask>, woken: seq<Mask>)
    requires Snapshots(p, w, blocked, waiting, woken)
    requires k < |blocked| && k < |v| && w[..k] == v[..k]
    ensures Snapshots(p, v, blocked[..k + 1], waiting[..k + 1], woken[..k + 1])
  {
    var b, a, o := blocked[..k + 1], waiting[..k + 1], woken[..k + 1];
    forall i | 0 <= i < |b| ensures SnapshotAt(p, v, i, b[i], a[i], o[i]) {
      assert w[..i] == w[..k][..i] == v[..k][..i] == v[..i];
      assert SnapshotAt(p, w, i, blocked[i], waiting[i], woken[i]);
    }
  }

  lemma SnapshotsExtend<S>(p: Program<S>, w: Word, t: nat,
                           blocked: seq<Mask>, waiting: seq<Mask>, woken: seq<Mask>)
    requires Snapshots(p, w, blocked, waiting, woken)
    ensures Snapshots(p, w + [t], blocked, waiting, woken)
  {
    forall i | 0 <= i < |blocked| ensures SnapshotAt(p, w + [t], i, blocked[i], waiting[i], woken[i]) {
      assert (w + [t])[..i] == w[..i];
    }
  }

  /** `(thm & ~m_blocked_threads & m_running_threads).any()` */
  method MayStep(thi: nat, blockedThreads: Mask, runningThreads: Mask) returns (may: bool)
    requires thi < WIDTH
    ensures may <==> thi in ToSet(runningThreads) - ToSet(blockedThreads)
  {
    var thm := Singleton(thi);
    var m := Minus(thm, blockedThreads);
    m := Intersect(m, runningThreads);
    assert thi in ToSet(m) <==> thi in ToSet(runningThreads) - ToSet(blockedThreads);
    assert forall i | i in ToSet(m) :: i == thi;
    may := !None(m);
  }

  lemma TruncatedPrefix<S>(p: Program<S>, w: Word, k: nat, t: nat,
                           blocked: seq<Mask>, waiting: seq<Mask>, woken: seq<Mask>)
    requires Legal(p, w) && k < |w| && t in Enabled(After(p, w[..k]))
    requires |blocked| == |w| && Snapshots(p, w, blocked, waiting, woken)
    ensures var v := w[k := t][..k + 1];
            && v == w[..k] + [t] && Legal(p, v)
            && Snapshots(p, v, blocked[..k + 1], waiting[..k + 1], woken[..k + 1])
  {
    var v := w[k := t][..k + 1];
    assert v == w[..k] + [t];
    LegalPrefix(p, w, k);
    LegalSnoc(p, w[..k], t);
    assert v[..k] == w[..k];
    SnapshotsPrefix(p, w, v, k, blocked, waiting, woken);
  }

  lemma LastChoicesExtend<S>(p: Program<S>, w: Word, i: nat, limit: nat)
    requires i < |w| && LastChoice(p, w, i) && LastChoices(p, w, i + 1, limit)
    ensures LastChoices(p, w, i, limit)
  {
  }

  /** Reading step `i` of `w` backwards. */
  lemma RunningBefore<S>(p: Program<S>, w: Word, i: nat)
    requires Legal(p, w) && i < |w|
    ensures w[i] in After(p, w[..i]).running
    ensures After(p, w[..i]).running == After(p, w[..i + 1]).running + {w[i]}
  {
    LegalStep(p, w, i);
    RunningBackward(p, After(p, w[..i]), w[i]);
  }

  /** The thread with the least index above `thi` among the running threads that are not blocked. */
  method HigherChoice(thi: nat, runningThreads: Mask, blockedThreads: Mask) returns (found: bool, higher: nat)
    requires thi in ToSet(runningThreads)
    ensures var s := ToSet(runningThreads) - ToSet(blockedThreads);
            if found then NextHigher(higher, thi, s) else forall u | u in s :: u <= thi
  {
    var thm := Singleton(thi);
    var hiRts := Xor(runningThreads, thm);
    hiRts := Minus(hiRts, blockedThreads);
    ghost var s := ToSet(runningThreads) - ToSet(blockedThreads);
    assert forall u :: u in ToSet(hiRts) <==> u in s && u != thi;
    found := AnyHigher(hiRts, thi);
    higher := thi;
    if found {
      hiRts := NotBelow(hiRts, thi);
      assert forall u | u in s && u > thi :: u in ToSet(hiRts);
      higher := Lssbi(hiRts);
    }
  }

  /** From `w` to `cur` only one thread was running. */
  ghost predicate OneLeft<S>(p: Program<S>, w: Word, cur: Word) {
    w <= cur && forall i | |w| <= i < |cur| :: |After(p, cur[..i]).running| <= 1
  }

  lemma OneLeftSnoc<S>(p: Program<S>, w: Word, cur: Word, t: nat)
    requires OneLeft(p, w, cur) && |After(p, cur).running| <= 1
    ensures OneLeft(p, w, cur + [t])
  {
    var next := cur + [t];
    forall i | |w| <= i < |next| ensures |After(p, next[..i]).running| <= 1 {
      assert next[..i] == if i < |cur| then cur[..i] else cur;
    }
  }

  lemma OnlyElement(s: set<nat>, t: nat)
    requires |s| == 1 && t in s
    ensures s == {t}
  {
    SubsetSize({t}, s);
  }

  /** A step does not finish more than one thread. */
  lemma SomeoneStillRuns<S>(p: Program<S>, w: Word, t: nat)
    requires t in After(p, w).running && |After(p, w).running| != 1
    ensures After(p, w + [t]).running != {}
  {
    AfterSnoc(p, w, t);
    RunningBackward(p, After(p, w), t);
  }

  lemma LastFinished<S>(p: Program<S>, w: Word, f: Word)
    requires Legal(p, f) && After(p, f).running == {} && OneLeft(p, w, f)
    ensures Schedules.Complete(p, f) && RecordedBy(p, w, f) && !Deadlocked(p, f)
  {
  }

  lemma StuckHere<S>(p: Program<S>, w: Word, f: Word)
    requires Follows(p, w, f) && Enabled(After(p, f)) == {} && After(p, f).running != {}
    ensures IsLeftmost(p, w, f) && Deadlocked(p, f)
  {
  }

  lemma NothingToComplete<S>(p: Program<S>, w: Word)
    requires Legal(p, w) && After(p, w).running == {}
    ensures IsLeftmost(p, w, w) && Schedules.Complete(p, w) && RecordedBy(p, w, w) && !Deadlocked(p, w)
  {
  }

  lemma SoloStep<S>(p: Program<S>, w: Word, t: nat)
    requires After(p, w).running == {t}
    ensures After(p, w + [t]).running == {} || After(p, w + [t]).running == {t}
  {
    AfterSnoc(p, w, t);
    RunningBackward(p, After(p, w), t);
    var r := After(p, w + [t]).running;
    assert t !in r ==> r == {};
  }

  class Permutation<S> {
    const threads: TestThreads<S>

    var steps: seq<nat>
    var blocked: seq<Mask>
    var waiting: seq<Mask>
    var woken: seq<Mask>
    var runningThreads: Mask
    var blockedThreads: Mask
    var waitingThreads: Mask
    var wokenThreads: Mask

    constructor (threads: TestThreads<S>)
      ensures this.threads == threads && steps == [] && blocked == waiting == woken == []
    {
      this.threads := threads;
      steps, blocked, waiting, woken := [], [], [], [];
      runningThreads, blockedThreads, waitingThreads, wokenThreads := 0, 0, 0, 0;
    }

    ghost function View(): Sched<S>
      reads `runningThreads, `blockedThreads, `waitingThreads, `wokenThreads, threads
    {
      Sched(threads.world, ToSets(threads.cvs), ToSet(runningThreads), ToSet(blockedThreads),
            ToSet(waitingThreads), ToSet(wokenThreads))
    }

    /** Every recorded step has its snapshots. */
    ghost predicate Recorded()
      reads `steps, `blocked, `waiting, `woken
    {
      |blocked| == |steps| && Legal(threads.p, steps) && Snapshots(threads.p, steps, blocked, waiting, woken)
    }

    /** Makes one step with thread `thi`. The precondition is the assertion at the head of the source's
        `step`. */
    method Step(thi: nat, s: string) returns (still: bool, s': string)
      requires thi in Enabled(View())
      modifies this`runningThreads, this`blockedThreads, this`waitingThreads, threads
      ensures View() == Schedules.Step(threads.p, old(View()), thi)
      ensures still <==> thi in Enabled(View())
      ensures s' == s + [Digit(thi)]
    {
      s' := s + [Digit(thi)];
      var thm := Singleton(thi);
      ghost var cvs := threads.cvs;
      EmptyMask();
      var o := threads.StepThread(thi);
      match o {
        case Yielding =>
          blockedThreads := 0;
        case Blocking =>
          blockedThreads := Union(blockedThreads, thm);
        case BlockingWithProgress =>
          blockedThreads := thm;
        case Waiting(cv) =>
          blockedThreads := 0;
          waitingThreads := Union(waitingThreads, thm);
        case NotifyAll(cv) =>
          ToSetsWaiters(cvs, cv);
          if !None(threads.WaitingThreads(cv)) {
            waitingThreads := Minus(waitingThreads, threads.WaitingThreads(cv));
            ToSetsUpdate(cvs, cv, 0);
            threads.ClearWaitingThreads(cv);
          }
        case Finished =>
          runningThreads := Minus(runningThreads, thm);
          blockedThreads := 0;
      }
      blockedThreads := Union(blockedThreads, waitingThreads);
      still := MayStep(thi, blockedThreads, runningThreads);
    }

    /** The steps of `w` have been made, and the string has grown by them since it was `prefix`. */
    ghost predicate At(w: Word, prefix: string, s: string)
      reads `runningThreads, `blockedThreads, `waitingThreads, `wokenThreads, threads
    {
      && Legal(threads.p, w) && View() == After(threads.p, w)
      && Encodable(w) && s == prefix + Encode(w)
    }

    method StepAlong(thi: nat, s: string, ghost prefix: string, ghost w: Word) returns (s': string)
      requires At(w, prefix, s) && thi in Enabled(View())
      modifies this`runningThreads, this`blockedThreads, this`waitingThreads, threads
      ensures At(w + [thi], prefix, s')
    {
      LegalSnoc(threads.p, w, thi);
      AfterSnoc(threads.p, w, thi);
      EncodeSnoc(w, thi);
      var still;
      still, s' := Step(thi, s);
    }

    /** Adds a step with its snapshots. */
    method Record(thi: nat)
      requires Recorded() && View() == After(threads.p, steps) && thi in Enabled(View())
      modifies this`steps, this`blocked, this`waiting, this`woken
      ensures Recorded() && steps == old(steps) + [thi]
    {
      LegalSnoc(threads.p, steps, thi);
      SnapshotsExtend(threads.p, steps, thi, blocked, waiting, woken);
      assert (steps + [thi])[..|steps|] == steps;
      SnapshotsPush(threads.p, steps + [thi], blocked, waiting, woken,
                    blockedThreads, waitingThreads, wokenThreads);
      steps := steps + [thi];
      blocked := blocked + [blockedThreads];
      waiting := waiting + [waitingThreads];
      woken := woken + [wokenThreads];
    }

    /** One turn of the first loop of `complete`. */
    method RecordAndStep(thi: nat, s: string, ghost prefix: string, ghost w: Word, ghost bound: nat)
      returns (s': string)
      requires Recorded() && At(steps, prefix, s) && Follows(threads.p, w, steps)
      requires IsLeast(thi, Enabled(View())) && |ToSet(runningThreads)| != 1 && Bounded(threads.p, bound)
      modifies this, threads
      ensures Recorded() && At(steps, prefix, s') && Follows(threads.p, w, steps)
      ensures ToSet(runningThreads) != {} && |old(steps)| < |steps| <= bound
    {
      FollowsSnoc(threads.p, w, steps, thi);
      SomeoneStillRuns(threads.p, steps, thi);
      BoundedLength(threads.p, bound, steps + [thi]);
      ghost var v := steps;
      Record(thi);
      s' := StepAlong(thi, s, prefix, v);
    }

    /** The first half of `complete`: runs all but the last running thread to completion while adding
        their steps to the record. */
    method CompleteAllButLast(s: string, ghost prefix: string, ghost bound: nat) returns (s': string, dead: bool)
      requires Bounded(threads.p, bound)
      requires Recorded() && At(steps, prefix, s) && ToSet(runningThreads) != {}
      modifies this, threads
      ensures Recorded() && At(steps, prefix, s') && Follows(threads.p, old(steps), steps)
      ensures ToSet(runningThreads) != {}
      ensures if dead then Enabled(View()) == {} else |ToSet(runningThreads)| == 1
    {
      s' := s;
      ghost var w := steps;
      var single := IsSingleBit(runningThreads);
      while !single
        invariant Recorded() && At(steps, prefix, s') && Follows(threads.p, w, steps)
        invariant ToSet(runningThreads) != {} && (single <==> |ToSet(runningThreads)| == 1)
        decreases bound - |steps|
      {
        var yieldingThreads := Minus(runningThreads, blockedThreads);
        if None(yieldingThreads) {
          dead := true;
          return;
        }
        s' := RecordAndStep(Lssbi(yieldingThreads), s', prefix, w, bound);
        single := IsSingleBit(runningThreads);
      }
      dead := false;
    }

    /** What `complete` leaves behind: the recorded steps lead to the schedule `f` that was played. */
    ghost predicate RunCompleted(f: Word)
      reads `steps, `runningThreads
    {
      && Schedules.Complete(threads.p, f) && RecordedBy(threads.p, steps, f)
      && ToSet(runningThreads) == After(threads.p, steps).running
    }

    /** The second half of `complete`: only one thread is left. */
    method CompleteLast(s: string, ghost prefix: string, ghost w: Word, ghost bound: nat)
      returns (s': string, dead: bool, ghost f: Word)
      requires Bounded(threads.p, bound)
      requires At(steps, prefix, s) && Follows(threads.p, w, steps) && |ToSet(runningThreads)| == 1
      modifies this`runningThreads, this`blockedThreads, this`waitingThreads, threads
      ensures IsLeftmost(threads.p, w, f)
      ensures Encodable(f) && s' == prefix + Encode(f)
      ensures dead <==> Deadlocked(threads.p, f)
      ensures !dead ==> RunCompleted(f)
    {
      s' := s;
      var lastThi := Lssbi(runningThreads);
      OnlyElement(ToSet(runningThreads), lastThi);
      f := steps;
      while true
        invariant At(f, prefix, s') && Follows(threads.p, w, f)
        invariant ToSet(runningThreads) == {lastThi}
        invariant OneLeft(threads.p, steps, f)
        decreases bound - |f|
      {
        BoundedLength(threads.p, bound, f);
        ReachableDisciplined(threads.p, f);
        // Finished threads are not blocked.
        assert ToSet(blockedThreads) <= ToSet(runningThreads);
        var stuck := Equal(runningThreads, blockedThreads);
        if stuck {
          dead := true;
          StuckHere(threads.p, w, f);
          return;
        }
        FollowsSnoc(threads.p, w, f, lastThi);
        OneLeftSnoc(threads.p, steps, f, lastThi);
        SoloStep(threads.p, f, lastThi);
        ghost var v := f;
        f := v + [lastThi];
        s' := StepAlong(lastThi, s', prefix, v);
        BoundedLength(threads.p, bound, f);
        if None(runningThreads) {
          break;
        }
      }
      dead := false;
      LastFinished(threads.p, steps, f);
      runningThreads := Singleton(lastThi);
    }

    /** Runs an incomplete permutation to completion. A deadlock ends the process; here it is reported
        as `dead`. `f` is the schedule that was played. */
    method Complete(s: string, ghost prefix: string, ghost bound: nat)
      returns (s': string, dead: bool, ghost f: Word)
      requires Bounded(threads.p, bound)
      requires Recorded() && At(steps, prefix, s) && ToSet(runningThreads) != {}
      modifies this, threads
      ensures IsLeftmost(threads.p, old(steps), f)
      ensures Encodable(f) && s' == prefix + Encode(f)
      ensures dead <==> Deadlocked(threads.p, f)
      ensures !dead ==> Recorded() && RunCompleted(f)
    {
      s', dead := CompleteAllButLast(s, prefix, bound);
      f := steps;
      if dead {
        StuckHere(threads.p, old(steps), f);
      } else {
        s', dead, f := CompleteLast(s', prefix, old(steps), bound);
      }
    }

    /** Advances the record to the next prefix. The scan rebuilds the running set step by step; the
        blocked sets come from the snapshots. `k` is the step that was advanced. */
    method Next(limit: nat) returns (more: bool, ghost k: nat)
      requires threads.p.n < WIDTH
      requires Recorded() && ToSet(runningThreads) == After(threads.p, steps).running
      modifies this
      ensures if more then AdvancedAt(threads.p, limit, old(steps), steps, k) && Recorded()
                           && SnapshotAt(threads.p, steps, k, blockedThreads, waitingThreads, wokenThreads)
              else LastChoices(threads.p, steps, 0, limit) && steps == old(steps)
    {
      var si := ScanLimited(limit);
      var higher;
      more, si, higher := ScanBack(si, limit);
      k := 0;
      if more {
        k := si;
        Truncate(si, higher);
      }
    }

    /** The first loop of `next`: steps at the limit and beyond are not varied. */
    method ScanLimited(limit: nat) returns (si: int)
      requires threads.p.n < WIDTH && Legal(threads.p, steps)
      requires ToSet(runningThreads) == After(threads.p, steps).running
      modifies `runningThreads
      ensures -1 <= si < |steps| && si < limit && RunningAt(si + 1)
      ensures LastChoices(threads.p, steps, si + 1, limit)
    {
      si := |steps| - 1;
      assert steps[..|steps|] == steps;
      while si >= limit
        invariant -1 <= si < |steps| && (si == |steps| - 1 || si + 1 >= limit) && RunningAt(si + 1)
      {
        PutBack(si);
        si := si - 1;
      }
    }

    /** The second loop of `next`: looks for the last step that can be given to a higher thread. */
    method ScanBack(from: int, limit: nat) returns (more: bool, si: int, higher: nat)
      requires threads.p.n < WIDTH && Recorded()
      requires -1 <= from < |steps| && from < limit && RunningAt(from + 1)
      requires LastChoices(threads.p, steps, from + 1, limit)
      modifies `runningThreads
      ensures LastChoices(threads.p, steps, si + 1, limit)
      ensures if more then 0 <= si < |steps| && si < limit
                           && NextHigher(higher, steps[si], Enabled(After(threads.p, steps[..si])))
              else si == -1
    {
      si, more, higher := from, false, 0;
      while si >= 0
        invariant -1 <= si < |steps| && si < limit && RunningAt(si + 1)
        invariant LastChoices(threads.p, steps, si + 1, limit) && !more
      {
        PutBack(si);
        more, higher := ChoiceAt(si);
        if more {
          return;
        }
        LastChoicesExtend(threads.p, steps, si, limit);
        si := si - 1;
      }
    }

    /** The running set is the one that held just prior to step `i`. */
    ghost predicate RunningAt(i: nat)
      reads `steps, `runningThreads
    {
      i <= |steps| && ToSet(runningThreads) == After(threads.p, steps[..i]).running
    }

    /** `m_running_threads |= index2mask(m_steps[si])` */
    method PutBack(si: nat)
      requires threads.p.n < WIDTH && Legal(threads.p, steps) && si < |steps| && RunningAt(si + 1)
      modifies `runningThreads
      ensures RunningAt(si) && steps[si] in ToSet(runningThreads)
    {
      LegalThreads(threads.p, steps);
      RunningBefore(threads.p, steps, si);
      var thm := Singleton(steps[si]);
      runningThreads := Union(runningThreads, thm);
    }

    /** Could a thread with a higher index have made step `si`, and which is the lowest of them? */
    method ChoiceAt(si: nat) returns (found: bool, higher: nat)
      requires Recorded() && si < |steps| && RunningAt(si) && steps[si] in ToSet(runningThreads)
      ensures if found then NextHigher(higher, steps[si], Enabled(After(threads.p, steps[..si])))
              else LastChoice(threads.p, steps, si)
    {
      assert SnapshotAt(threads.p, steps, si, blocked[si], waiting[si], woken[si]);
      found, higher := HigherChoice(steps[si], runningThreads, blocked[si]);
    }

    /** Gives step `si` to thread `higher` and drops everything after it. */
    method Truncate(si: nat, higher: nat)
      requires Recorded() && si < |steps| && higher in Enabled(After(threads.p, steps[..si]))
      modifies `steps, `blocked, `waiting, `woken, `blockedThreads, `waitingThreads, `wokenThreads
      ensures steps == old(steps)[..si] + [higher] && Recorded()
      ensures SnapshotAt(threads.p, steps, si, blockedThreads, waitingThreads, wokenThreads)
    {
      TruncatedPrefix(threads.p, steps, si, higher, blocked, waiting, woken);
      steps := steps[si := higher];
      steps := steps[..si + 1];
      blocked := blocked[..si + 1];
      waiting := waiting[..si + 1];
      woken := woken[..si + 1];
      assert SnapshotAt(threads.p, steps, si, blocked[si], waiting[si], woken[si]);
      blockedThreads := blocked[si];
      waitingThreads := waiting[si];
      wokenThreads := woken[si];
    }

    /** Plays back the recorded steps and, if asked, runs the permutation to completion. `f` is the
        schedule that was played. */
    method Play(s: string, runComplete: bool, ghost bound: nat)
      returns (s': string, dead: bool, ghost f: Word)
      requires threads.p.n < WIDTH && Bounded(threads.p, bound)
      requires threads.world == threads.p.init && threads.cvs == map[]
      requires Legal(threads.p, steps)
      requires Recorded() || blocked == waiting == woken == []
      modifies this, threads
      ensures Encodable(f) && s' == s + Encode(f)
      ensures runComplete ==> IsLeftmost(threads.p, old(steps), f)
      ensures dead <==> runComplete && Deadlocked(threads.p, f)
      ensures !dead ==> Recorded()
      ensures !dead && runComplete ==> RunCompleted(f)
      ensures !runComplete ==> f == steps == old(steps) && View() == After(threads.p, steps)
    {
      s' := Replay(s, bound);
      f, dead := steps, false;
      if runComplete {
        if None(runningThreads) {
          NothingToComplete(threads.p, steps);
        } else {
          s', dead, f := Complete(s', s, bound);
        }
      }
    }

    /** The loop of `play`. Every replayed step runs a thread that may run, and the snapshots come out
        as they were. */
    method Replay(s: string, ghost bound: nat) returns (s': string)
      requires threads.p.n < WIDTH
      requires threads.world == threads.p.init && threads.cvs == map[]
      requires Legal(threads.p, steps)
      requires Recorded() || blocked == waiting == woken == []
      modifies this, threads
      ensures steps == old(steps) && Recorded() && At(steps, s, s')
      ensures old(Recorded()) ==> blocked == old(blocked) && waiting == old(waiting) && woken == old(woken)
    {
      s' := s;
      Reset(s);
      var firstRun := blocked == [];
      var i := 0;
      assert steps[..i] == [];
      while i < |steps|
        invariant 0 <= i <= |steps| && steps == old(steps) && Replaying(i, firstRun) && At(steps[..i], s, s')
        invariant !firstRun ==> blocked == old(blocked) && waiting == old(waiting) && woken == old(woken)
      {
        if firstRun {
          PushSnapshots(i);
        }
        s' := ReplayStep(i, s', s);
        i := i + 1;
      }
      assert steps[..i] == steps;
    }

    /** In the first run, the snapshots are added one by one; later they are all there. */
    ghost predicate Replaying(i: nat, firstRun: bool)
      reads `steps, `blocked, `waiting, `woken
    {
      && |blocked| == (if firstRun then i else |steps|)
      && Legal(threads.p, steps) && Snapshots(threads.p, steps, blocked, waiting, woken)
    }

    method PushSnapshots(ghost i: nat)
      requires Replaying(i, true) && i < |steps| && View() == After(threads.p, steps[..i])
      modifies `blocked, `waiting, `woken
      ensures Replaying(i + 1, true)
    {
      SnapshotsPush(threads.p, steps, blocked, waiting, woken, blockedThreads, waitingThreads, wokenThreads);
      blocked := blocked + [blockedThreads];
      waiting := waiting + [waitingThreads];
      woken := woken + [wokenThreads];
    }

    method ReplayStep(i: nat, s: string, ghost prefix: string) returns (s': string)
      requires i < |steps| && Legal(threads.p, steps) && At(steps[..i], prefix, s)
      modifies `runningThreads, `blockedThreads, `waitingThreads, threads
      ensures At(steps[..i + 1], prefix, s')
    {
      LegalStep(threads.p, steps, i);
      assert steps[..i + 1] == steps[..i] + [steps[i]];
      s' := StepAlong(steps[i], s, prefix, steps[..i]);
    }

    /** Sets all threads to running and nothing to blocked, waiting or woken. */
    method Reset(ghost s: string)
      requires threads.p.n < WIDTH && threads.world == threads.p.init && threads.cvs == map[]
      modifies `runningThreads, `blockedThreads, `waitingThreads, `wokenThreads
      ensures At([], s, s)
    {
      runningThreads := AllBelow(threads.p.n);
      blockedThreads, waitingThreads, wokenThreads := 0, 0, 0;
      EmptyMask();
      assert Encode([]) == "";
    }

    /** Programs the permutation with a string. */
    method Program(s: string)
      requires Decodable(s)
      modifies this
      ensures steps == Decode(s) && blocked == waiting == woken == []
      ensures runningThreads == blockedThreads == waitingThreads == wokenThreads == 0
    {
      steps, blocked, waiting, woken := [], [], [], [];
      runningThreads, blockedThreads, waitingThreads, wokenThreads := 0, 0, 0, 0;
      for i := 0 to |s|
        invariant steps == Decode(s)[..i] && blocked == waiting == woken == []
        invariant runningThreads == blockedThreads == waitingThreads == wokenThreads == 0
      {
        steps := steps + [s[i] as int - '0' as int];
      }
    }
  }
}
