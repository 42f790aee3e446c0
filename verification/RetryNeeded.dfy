/** The retry condition of the pruning theorems cannot be dropped: a program whose `TPB` is not a retry
    loses an outcome. */
module RetryNeeded {
  import opened Sets
  import opened Schedules
  import opened Pruning

  datatype Pair = Pair(passed: bool, x: nat, seen: nat)

  /** Thread 0 passes a `TPB` and then copies `x`; thread 1 sets `x`. */
  function Exec(s: Pair, t: nat): (Pair, Outcome) {
    if t == 1 then (s.(x := 1), Finished)
    else if !s.passed then (s.(passed := true), Blocking)
    else (s.(seen := s.x), Finished)
  }

  const GAP: Program<Pair> := Program(2, Pair(false, 0, 2), Exec)

  /** Thread 0 does not get past its `TPB` before thread 1 has set `x`. */
  ghost predicate Late(s: Sched<Pair>) {
    && s.waiting == {} && s.running <= {0, 1} && s.world.seen != 0
    && (1 !in s.running ==> s.world.x == 1)
    && (1 in s.running && s.world.passed ==> 0 in s.blocked)
  }

  lemma {:induction false} AlwaysLate(w: Word)
    requires Legal(GAP, w)
    ensures Late(After(GAP, w))
    decreases |w|
  {
    if w != [] {
      var v, t := LegalSplit(GAP, w);
      AlwaysLate(v);
      AfterSnoc(GAP, v, t);
      LateStep(After(GAP, v), t);
    } else {
      assert 0 in Indices(2) && 1 in Indices(2);
    }
  }

  lemma LateStep(s: Sched<Pair>, t: nat)
    requires Late(s) && t in Enabled(s)
    ensures Late(Step(GAP, s, t))
  {
  }

  /** The interleaving 0, 0, 1 ends with `seen == 0`, but no schedule does: the step of thread 0 that is skipped would
      have changed the state. */
  lemma OutcomeLost()
    ensures exists u :: CompleteInterleaving(GAP, u) && FreeAfter(GAP, u).world.seen == 0
    ensures forall w | Complete(GAP, w) :: After(GAP, w).world.seen != 0
    ensures !RetriesStutter(GAP) && !SkipsStutter(GAP)
    ensures Skips(GAP, [0], 0) && !Stutters(GAP, [0], 0)
  {
    var u: Word := [];
    FreeSnoc(GAP, u, 0);
    FreeSnoc(GAP, u + [0], 0);
    FreeSnoc(GAP, u + [0] + [0], 1);
    var v := u + [0] + [0] + [1];
    assert FreeAfter(GAP, v) == Free(Pair(true, 1, 0), {});
    assert CompleteInterleaving(GAP, v);
    forall w | Complete(GAP, w) ensures After(GAP, w).world.seen != 0 {
      AlwaysLate(w);
    }
    SkippedStep();
    if RetriesStutter(GAP) {
      RetriesAreExact(GAP);
    }
  }

  lemma SkippedStep()
    ensures Skips(GAP, [0], 0) && !Stutters(GAP, [0], 0)
  {
    var u: Word := [];
    assert 0 in Indices(2);
    assert u + [0] == [0];
    FreeSnoc(GAP, u, 0);
    PrunedSnoc(GAP, u, 0);
    AfterSnoc(GAP, u, 0);
  }
}
