/** The thread sets of `Permutation` told from the outcomes alone: who is running, who waits and who is blocked after a
    schedule, without looking at how a step computes them. */
module History {
  import opened Sets
  import opened Schedules
  import opened Bounds

  lemma OutcomeSnoc<S>(p: Program<S>, w: Word, u: nat)
    ensures OutcomeAt(p, w + [u], |w|) == p.exec(After(p, w).world, u).1
    ensures forall i: nat | i < |w| :: (w + [u])[i] == w[i] && OutcomeAt(p, w + [u], i) == OutcomeAt(p, w, i)
  {
    var v := w + [u];
    assert v[..|w|] == w;
    forall i: nat | i < |w| ensures v[i] == w[i] && OutcomeAt(p, v, i) == OutcomeAt(p, w, i) {
      assert v[..i] == w[..i];
    }
  }

  // ---------- running ----------

  /** A thread is running until a step of it has reported `finished`. */
  ghost predicate NeverFinished<S>(p: Program<S>, w: Word, t: nat) {
    forall i: nat | i < |w| && w[i] == t :: OutcomeAt(p, w, i) != Finished
  }

  lemma NeverFinishedSnoc<S>(p: Program<S>, w: Word, u: nat, t: nat)
    ensures NeverFinished(p, w + [u], t) <==>
            NeverFinished(p, w, t) && !(u == t && p.exec(After(p, w).world, u).1 == Finished)
  {
    OutcomeSnoc(p, w, u);
    var v := w + [u];
    assert v[|w|] == u;
    if NeverFinished(p, v, t) {
      forall i: nat | i < |w| && w[i] == t ensures OutcomeAt(p, w, i) != Finished {
        assert v[i] == t;
      }
    }
  }

  lemma StepRunning<S>(p: Program<S>, s: Sched<S>, u: nat, t: nat)
    ensures t in Step(p, s, u).running <==> t in s.running && !(u == t && p.exec(s.world, u).1 == Finished)
  {
  }

  lemma RunningAtStart<S>(p: Program<S>, w: Word, t: nat)
    requires w == []
    ensures t in After(p, w).running <==> t < p.n && NeverFinished(p, w, t)
  {
  }

  lemma {:induction false} RunningHistory<S>(p: Program<S>, w: Word, t: nat)
    requires Legal(p, w)
    ensures t in After(p, w).running <==> t < p.n && NeverFinished(p, w, t)
    decreases |w|
  {
    if w == [] {
      RunningAtStart(p, w, t);
    } else {
      var v, u := LegalSplit(p, w);
      RunningHistory(p, v, t);
      NeverFinishedSnoc(p, v, u, t);
      AfterSnoc(p, v, u);
      StepRunning(p, After(p, v), u, t);
    }
  }

  // ---------- waiting ----------

  /** Step `i` made `t` wait on `cv`, and nobody has notified that condition variable since. */
  ghost predicate WaitingSince<S>(p: Program<S>, w: Word, t: nat, cv: nat, i: nat) {
    && i < |w| && w[i] == t && OutcomeAt(p, w, i) == Waiting(cv)
    && forall k: nat | i < k < |w| :: OutcomeAt(p, w, k) != NotifyAll(cv)
  }

  lemma WaitingSinceSnoc<S>(p: Program<S>, w: Word, u: nat, t: nat, cv: nat, i: nat)
    ensures var o := p.exec(After(p, w).world, u).1;
            WaitingSince(p, w + [u], t, cv, i) <==>
            (WaitingSince(p, w, t, cv, i) && o != NotifyAll(cv)) || (i == |w| && u == t && o == Waiting(cv))
  {
    OutcomeSnoc(p, w, u);
    var v := w + [u];
    assert v[|w|] == u;
    if i < |w| && WaitingSince(p, v, t, cv, i) {
      assert OutcomeAt(p, v, |w|) != NotifyAll(cv);
      forall k: nat | i < k < |w| ensures OutcomeAt(p, w, k) != NotifyAll(cv) {
        assert OutcomeAt(p, v, k) != NotifyAll(cv);
      }
    }
  }

  lemma StepWaiters<S>(p: Program<S>, s: Sched<S>, u: nat, t: nat, cv: nat)
    ensures var o := p.exec(s.world, u).1;
            WaitsOn(Step(p, s, u).cvs, t, cv) <==>
            (WaitsOn(s.cvs, t, cv) && o != NotifyAll(cv)) || (u == t && o == Waiting(cv))
  {
  }

  /** A thread waits on a condition variable if and only if it has called `wait` on it and nobody has called
      `notify_all` on it since: a notification releases all waiters. */
  lemma {:induction false} WaitingHistory<S>(p: Program<S>, w: Word, t: nat, cv: nat)
    requires Legal(p, w)
    ensures WaitsOn(After(p, w).cvs, t, cv) <==> exists i: nat :: WaitingSince(p, w, t, cv, i)
    decreases |w|
  {
    if w != [] {
      var v, u := LegalSplit(p, w);
      WaitingHistory(p, v, t, cv);
      AfterSnoc(p, v, u);
      StepWaiters(p, After(p, v), u, t, cv);
      forall i: nat {
        WaitingSinceSnoc(p, v, u, t, cv, i);
      }
      WaitingSinceSnoc(p, v, u, t, cv, |v|);
    }
  }

  // ---------- blocked ----------

  /** Step `i` blocked `t`, and it has not been freed since: by a step that frees everybody, and if `t` called `wait`,
      by such a step after a notification. */
  ghost predicate BlockedSince<S>(p: Program<S>, w: Word, t: nat, i: nat) {
    && i < |w| && w[i] == t
    && match OutcomeAt(p, w, i)
       case Blocking => forall k: nat | i < k < |w| :: !Frees(OutcomeAt(p, w, k))
       case BlockingWithProgress => forall k: nat | i < k < |w| :: !Frees(OutcomeAt(p, w, k))
       case Waiting(cv) => forall k: nat | i < k < |w| && Frees(OutcomeAt(p, w, k)) :: NotNotified(p, w, cv, i, k)
       case _ => false
  }

  ghost predicate NotNotified<S>(p: Program<S>, w: Word, cv: nat, i: nat, k: nat)
    requires k <= |w|
  {
    forall m: nat | i < m < k :: OutcomeAt(p, w, m) != NotifyAll(cv)
  }

  lemma NotNotifiedSnoc<S>(p: Program<S>, w: Word, u: nat, cv: nat, i: nat, k: nat)
    requires k <= |w|
    ensures NotNotified(p, w + [u], cv, i, k) <==> NotNotified(p, w, cv, i, k)
  {
    OutcomeSnoc(p, w, u);
    if NotNotified(p, w + [u], cv, i, k) {
      forall m: nat | i < m < k ensures OutcomeAt(p, w, m) != NotifyAll(cv) {
        assert OutcomeAt(p, w + [u], m) != NotifyAll(cv);
      }
    }
  }

  /** How one more step bears on what step `i` did. */
  ghost predicate StaysBlocked<S>(p: Program<S>, w: Word, o: Outcome, t: nat, i: nat) {
    if Frees(o) then exists cv :: WaitingSince(p, w, t, cv, i) else BlockedSince(p, w, t, i)
  }

  lemma BlockedSinceKept<S>(p: Program<S>, w: Word, u: nat, t: nat, i: nat)
    requires i < |w| && !Frees(p.exec(After(p, w).world, u).1)
    ensures BlockedSince(p, w + [u], t, i) <==> BlockedSince(p, w, t, i)
  {
    OutcomeSnoc(p, w, u);
    var v := w + [u];
    assert forall k: nat | k < |w| :: Frees(OutcomeAt(p, v, k)) <==> Frees(OutcomeAt(p, w, k));
    assert !Frees(OutcomeAt(p, v, |w|));
    match OutcomeAt(p, w, i)
    case Waiting(cv) =>
      forall k: nat | k <= |w| {
        NotNotifiedSnoc(p, w, u, cv, i, k);
      }
    case _ =>
  }

  lemma BlockedSinceFreed<S>(p: Program<S>, w: Word, u: nat, t: nat, i: nat)
    requires i < |w| && Frees(p.exec(After(p, w).world, u).1)
    ensures BlockedSince(p, w + [u], t, i) <==> exists cv :: WaitingSince(p, w, t, cv, i)
  {
    OutcomeSnoc(p, w, u);
    var v := w + [u];
    forall cv: nat, k: nat | k <= |w| {
      NotNotifiedSnoc(p, w, u, cv, i, k);
    }
    if BlockedSince(p, v, t, i) {
      assert Frees(OutcomeAt(p, v, |w|));
      assert OutcomeAt(p, v, i).Waiting?;
      var cv := OutcomeAt(p, v, i).cv;
      assert NotNotified(p, w, cv, i, |w|);
      assert WaitingSince(p, w, t, cv, i);
    }
    if cv :| WaitingSince(p, w, t, cv, i) {
      forall k: nat | i < k < |v| ensures NotNotified(p, v, cv, i, k) {
        assert NotNotified(p, w, cv, i, k);
      }
      assert OutcomeAt(p, v, i) == Waiting(cv);
    }
  }

  lemma BlockedSinceLast<S>(p: Program<S>, w: Word, u: nat, t: nat)
    ensures var o := p.exec(After(p, w).world, u).1;
            BlockedSince(p, w + [u], t, |w|) <==> u == t && (o.Blocking? || o.BlockingWithProgress? || o.Waiting?)
  {
    OutcomeSnoc(p, w, u);
    assert (w + [u])[|w|] == u;
  }

  lemma StepBlocked<S>(p: Program<S>, s: Sched<S>, u: nat, t: nat)
    requires Disciplined(s) && u in Enabled(s)
    ensures var o := p.exec(s.world, u).1;
            t in Step(p, s, u).blocked <==>
            || (if Frees(o) then t in s.waiting else t in s.blocked)
            || (u == t && (o.Blocking? || o.BlockingWithProgress? || o.Waiting?))
  {
  }

  lemma IsWaiting<S>(p: Program<S>, w: Word, t: nat)
    requires Legal(p, w)
    ensures t in After(p, w).waiting <==> exists cv, i: nat :: WaitingSince(p, w, t, cv, i)
  {
    ReachableDisciplined(p, w);
    if t in After(p, w).waiting {
      var cv :| WaitsOn(After(p, w).cvs, t, cv);
      WaitingHistory(p, w, t, cv);
    }
    if cv, i: nat :| WaitingSince(p, w, t, cv, i) {
      WaitingHistory(p, w, t, cv);
      assert WaitsOn(After(p, w).cvs, t, cv);
    }
  }

  lemma BlockedSnoc<S>(p: Program<S>, w: Word, u: nat, t: nat)
    requires Legal(p, w) && u in Enabled(After(p, w))
    requires t in After(p, w).blocked <==> exists i: nat :: BlockedSince(p, w, t, i)
    ensures t in After(p, w + [u]).blocked <==> exists i: nat :: BlockedSince(p, w + [u], t, i)
  {
    var s, o := After(p, w), p.exec(After(p, w).world, u).1;
    AfterSnoc(p, w, u);
    ReachableDisciplined(p, w);
    StepBlocked(p, s, u, t);
    BlockedSinceLast(p, w, u, t);
    IsWaiting(p, w, t);
    forall i: nat | i < |w| ensures BlockedSince(p, w + [u], t, i) <==> StaysBlocked(p, w, o, t, i) {
      if Frees(o) { BlockedSinceFreed(p, w, u, t, i); } else { BlockedSinceKept(p, w, u, t, i); }
    }
    if t in After(p, w + [u]).blocked {
      if Frees(o) && t in s.waiting {
        var cv, i: nat :| WaitingSince(p, w, t, cv, i);
        assert StaysBlocked(p, w, o, t, i);
      } else if !Frees(o) && t in s.blocked {
        var i: nat :| BlockedSince(p, w, t, i);
        assert StaysBlocked(p, w, o, t, i);
      } else {
        assert BlockedSince(p, w + [u], t, |w|);
      }
    }
    if i: nat :| BlockedSince(p, w + [u], t, i) {
      assert i < |w| ==> StaysBlocked(p, w, o, t, i);
    }
  }

  /** A thread is blocked if and only if it has blocked or called `wait` and has not been freed since. */
  lemma {:induction false} BlockedHistory<S>(p: Program<S>, w: Word, t: nat)
    requires Legal(p, w)
    ensures t in After(p, w).blocked <==> exists i: nat :: BlockedSince(p, w, t, i)
    decreases |w|
  {
    if w != [] {
      var v, u := LegalSplit(p, w);
      BlockedHistory(p, v, t);
      BlockedSnoc(p, v, u, t);
    }
  }

  /** `notify_all` releases all that wait on its condition variable, and leaves the blocked set as it was. */
  lemma NotifyAllReleases<S>(p: Program<S>, w: Word, u: nat, cv: nat)
    requires Legal(p, w) && u in Enabled(After(p, w)) && p.exec(After(p, w).world, u).1 == NotifyAll(cv)
    ensures After(p, w + [u]).blocked == After(p, w).blocked
    ensures forall t :: t in After(p, w + [u]).waiting <==>
                        t in After(p, w).waiting && !WaitsOn(After(p, w).cvs, t, cv)
  {
    AfterSnoc(p, w, u);
    ReachableDisciplined(p, w);
  }
}
