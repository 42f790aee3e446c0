/** Why it is sound not to run a blocked thread again before another thread made progress. The
    comparison is with unrestricted interleavings, in which every thread that has not finished may
    make the next step. */
module Pruning {
  import opened Sets
  import opened Schedules
  import opened ThreadPermuters
  import opened Exploration

  // ---------- unrestricted interleavings ----------

  datatype Free<S> = Free(world: S, running: set<nat>)

  ghost function FreeStep<S>(p: Program<S>, s: Free<S>, t: nat): Free<S> {
    var (world, o) := p.exec(s.world, t);
    Free(world, if o.Finished? then s.running - {t} else s.running)
  }

  ghost function FreeAfter<S>(p: Program<S>, u: Word): Free<S> {
    if u == [] then Free(p.init, Indices(p.n))
    else FreeStep(p, FreeAfter(p, u[..|u| - 1]), u[|u| - 1])
  }

  ghost predicate Interleaving<S>(p: Program<S>, u: Word) {
    u == [] || (Interleaving(p, u[..|u| - 1]) && u[|u| - 1] in FreeAfter(p, u[..|u| - 1]).running)
  }

  ghost predicate CompleteInterleaving<S>(p: Program<S>, u: Word) {
    Interleaving(p, u) && FreeAfter(p, u).running == {}
  }

  lemma FreeSnoc<S>(p: Program<S>, u: Word, t: nat)
    ensures FreeAfter(p, u + [t]) == FreeStep(p, FreeAfter(p, u), t)
    ensures Interleaving(p, u + [t]) <==> Interleaving(p, u) && t in FreeAfter(p, u).running
  {
    assert (u + [t])[..|u|] == u;
  }

  /** What the program and its threads see of the scheduler's state. */
  ghost function Visible<S>(s: Sched<S>): Free<S> {
    Free(s.world, s.running)
  }

  lemma StepIsFree<S>(p: Program<S>, s: Sched<S>, t: nat)
    ensures FreeStep(p, Visible(s), t) == Visible(Step(p, s, t))
  {
    var (world, o) := p.exec(s.world, t);
    assert Step(p, s, t).world == world;
  }

  /** A schedule is itself an interleaving, whatever the program. */
  lemma {:induction false} LegalIsInterleaving<S>(p: Program<S>, w: Word)
    requires Legal(p, w)
    ensures Interleaving(p, w)
    ensures FreeAfter(p, w) == Visible(After(p, w))
    decreases |w|
  {
    if w != [] {
      var v, t := LegalSplit(p, w);
      LegalIsInterleaving(p, v);
      FreeSnoc(p, v, t);
      AfterSnoc(p, v, t);
      StepIsFree(p, After(p, v), t);
    }
  }

  // ---------- when pruning is exact ----------

  /** The interleaving without the steps of threads that are blocked at that point. */
  ghost function Pruned<S>(p: Program<S>, u: Word): Word {
    if u == [] then []
    else
      var w, t := Pruned(p, u[..|u| - 1]), u[|u| - 1];
      if t in After(p, w).blocked then w else w + [t]
  }

  ghost predicate Subsequence(a: Word, b: Word) {
    a == [] || (b != [] && (Subsequence(a, b[..|b| - 1])
                            || (a[|a| - 1] == b[|b| - 1] && Subsequence(a[..|a| - 1], b[..|b| - 1]))))
  }

  lemma PrunedSnoc<S>(p: Program<S>, u: Word, t: nat)
    ensures Pruned(p, u + [t]) == if t in After(p, Pruned(p, u)).blocked then Pruned(p, u) else Pruned(p, u) + [t]
  {
    assert (u + [t])[..|u|] == u;
  }

  lemma {:induction false} PrunedSubsequence<S>(p: Program<S>, u: Word)
    ensures Subsequence(Pruned(p, u), u)
  {
    if u != [] {
      PrunedSubsequence(p, u[..|u| - 1]);
      var w, t := Pruned(p, u[..|u| - 1]), u[|u| - 1];
      assert (w + [t])[..|w|] == w;
    }
  }

  lemma {:induction false} PrunedLegal<S>(p: Program<S>, w: Word)
    requires Legal(p, w)
    ensures Pruned(p, w) == w
    decreases |w|
  {
    if w != [] {
      var v, t := LegalSplit(p, w);
      PrunedLegal(p, v);
      PrunedSnoc(p, v, t);
    }
  }

  /** Thread `t` may make the next step of the interleaving, but the scheduler skips it. */
  ghost predicate Skips<S>(p: Program<S>, u: Word, t: nat) {
    Interleaving(p, u) && t in FreeAfter(p, u).running && t in After(p, Pruned(p, u)).blocked
  }

  /** Running `t` after `u` would change nothing. */
  ghost predicate Stutters<S>(p: Program<S>, u: Word, t: nat) {
    FreeStep(p, FreeAfter(p, u), t) == FreeAfter(p, u)
  }

  ghost predicate SkipsStutter<S>(p: Program<S>) {
    forall u, t | Skips(p, u, t) :: Stutters(p, u, t)
  }

  /** Pruning `u` leaves a legal schedule that leads to the same state. */
  ghost predicate PrunesWell<S>(p: Program<S>, u: Word) {
    Legal(p, Pruned(p, u)) && FreeAfter(p, u) == Visible(After(p, Pruned(p, u)))
  }

  lemma PrunesWellSnoc<S>(p: Program<S>, u: Word, t: nat)
    requires PrunesWell(p, u) && Interleaving(p, u) && t in FreeAfter(p, u).running
    requires Skips(p, u, t) ==> Stutters(p, u, t)
    ensures PrunesWell(p, u + [t])
  {
    var w := Pruned(p, u);
    FreeSnoc(p, u, t);
    PrunedSnoc(p, u, t);
    if t !in After(p, w).blocked {
      LegalSnoc(p, w, t);
      AfterSnoc(p, w, t);
      StepIsFree(p, After(p, w), t);
    }
  }

  lemma {:induction false} PrunesWellAlways<S>(p: Program<S>, u: Word)
    requires SkipsStutter(p) && Interleaving(p, u)
    ensures PrunesWell(p, u)
    decreases |u|
  {
    if u != [] {
      var v, t := u[..|u| - 1], u[|u| - 1];
      assert u == v + [t];
      PrunesWellAlways(p, v);
      PrunesWellSnoc(p, v, t);
    }
  }

  lemma SkipLosesNothing<S>(p: Program<S>, u: Word, t: nat)
    requires Skips(p, u, t) && PrunesWell(p, u) && PrunesWell(p, u + [t])
    ensures Stutters(p, u, t)
  {
    FreeSnoc(p, u, t);
    PrunedSnoc(p, u, t);
  }

  /** For every program: deleting the steps of blocked threads leaves, for every interleaving, a legal schedule with
      the same state, if and only if each of those steps would have changed nothing. */
  lemma PruningExact<S>(p: Program<S>)
    ensures (forall u | Interleaving(p, u) :: PrunesWell(p, u)) <==> SkipsStutter(p)
  {
    if SkipsStutter(p) {
      forall u | Interleaving(p, u) ensures PrunesWell(p, u) {
        PrunesWellAlways(p, u);
      }
    }
    if forall u | Interleaving(p, u) :: PrunesWell(p, u) {
      forall u, t | Skips(p, u, t) ensures Stutters(p, u, t) {
        FreeSnoc(p, u, t);
        SkipLosesNothing(p, u, t);
      }
    }
  }

  // ---------- the retry condition ----------

  /** Running `t` changes nothing: it finds itself blocked as before. */
  ghost predicate Stuck<S>(p: Program<S>, world: S, t: nat) {
    p.exec(world, t) == (world, Blocking)
  }

  /** How a step has to end: a thread that reports `blocking`, with progress or not, would only stutter
      if it were run again; and a plain `blocking` does not free another thread. */
  ghost predicate RetryAt<S>(p: Program<S>, s: Free<S>, t: nat) {
    var (world, o) := p.exec(s.world, t);
    && (o.Yielding? || o.Blocking? || o.BlockingWithProgress? || o.Finished?)
    && (o.Blocking? || o.BlockingWithProgress? ==> Stuck(p, world, t))
    && (o.Blocking? ==> forall v | v in s.running && Stuck(p, s.world, v) :: Stuck(p, world, v))
  }

  /** The condition is only asked of states that the program can reach. */
  ghost predicate RetriesStutter<S>(p: Program<S>) {
    forall u, t | Interleaving(p, u) && t in FreeAfter(p, u).running :: RetryAt(p, FreeAfter(p, u), t)
  }

  // ---------- the retry condition is enough ----------

  /** No thread waits, and every thread that the scheduler has blocked is stuck. */
  ghost predicate BlockedAreStuck<S>(p: Program<S>, s: Sched<S>) {
    s.waiting == {} && forall t | t in s.blocked :: t in s.running && Stuck(p, s.world, t)
  }

  lemma SimulationStep<S>(p: Program<S>, s: Sched<S>, t: nat)
    requires BlockedAreStuck(p, s) && t in s.running && RetryAt(p, Visible(s), t)
    ensures if t in s.blocked then FreeStep(p, Visible(s), t) == Visible(s) else BlockedAreStuck(p, Step(p, s, t))
  {
  }

  /** With the retry condition, pruning is exact, and the threads that are blocked afterwards are stuck. */
  lemma {:induction false} PrunedSimulates<S>(p: Program<S>, u: Word)
    requires RetriesStutter(p) && Interleaving(p, u)
    ensures PrunesWell(p, u) && BlockedAreStuck(p, After(p, Pruned(p, u)))
    ensures Subsequence(Pruned(p, u), u)
    decreases |u|
  {
    PrunedSubsequence(p, u);
    if u != [] {
      var v, t := u[..|u| - 1], u[|u| - 1];
      assert u == v + [t];
      PrunedSimulates(p, v);
      var w := Pruned(p, v);
      SimulationStep(p, After(p, w), t);
      PrunesWellSnoc(p, v, t);
      PrunedSnoc(p, v, t);
      AfterSnoc(p, w, t);
    }
  }

  lemma RetriesAreExact<S>(p: Program<S>)
    requires RetriesStutter(p)
    ensures SkipsStutter(p)
  {
    forall u | Interleaving(p, u) ensures PrunesWell(p, u) {
      PrunedSimulates(p, u);
    }
    PruningExact(p);
  }

  // ---------- no outcome is lost ----------

  /** The program states in which complete interleavings end are the ones in which complete schedules
      end. */
  lemma SameOutcomes<S>(p: Program<S>, world: S)
    requires SkipsStutter(p)
    ensures (exists u :: CompleteInterleaving(p, u) && FreeAfter(p, u).world == world) <==>
            (exists w :: Complete(p, w) && After(p, w).world == world)
  {
    if u :| CompleteInterleaving(p, u) && FreeAfter(p, u).world == world {
      PrunesWellAlways(p, u);
      assert Complete(p, Pruned(p, u));
    }
    if w :| Complete(p, w) && After(p, w).world == world {
      LegalIsInterleaving(p, w);
      assert CompleteInterleaving(p, w);
    }
  }

  /** A search that came to its end has run, for every complete interleaving, a schedule with the same
      final state. */
  lemma NoOutcomeLost<S>(p: Program<S>, limit: nat, bound: nat, visited: seq<Word>, ended: seq<string>, u: Word)
    requires SkipsStutter(p) && Bounded(p, bound) && bound <= limit
    requires Explored(p, limit, [], visited) && NothingAfter(p, limit, Last(visited))
    requires Reported(p, false, visited, ended)
    requires CompleteInterleaving(p, u)
    ensures Pruned(p, u) in visited && Subsequence(Pruned(p, u), u)
    ensures After(p, Pruned(p, u)).world == FreeAfter(p, u).world
  {
    PrunesWellAlways(p, u);
    PrunedSubsequence(p, u);
    Exhaustive(p, limit, bound, visited, ended);
    assert Complete(p, Pruned(p, u));
  }

  // ---------- deadlock reports ----------

  /** Somebody is still running, and all that are only stutter. */
  ghost predicate Hopeless<S>(p: Program<S>, f: Free<S>) {
    f.running != {} && forall t | t in f.running :: Stuck(p, f.world, t)
  }

  lemma {:induction false} HopelessForever<S>(p: Program<S>, u: Word, v: Word)
    requires Hopeless(p, FreeAfter(p, u)) && Interleaving(p, u + v)
    ensures FreeAfter(p, u + v) == FreeAfter(p, u)
  {
    if v == [] {
      assert u + v == u;
    } else {
      var t := v[|v| - 1];
      assert u + v == (u + v[..|v| - 1]) + [t];
      FreeSnoc(p, u + v[..|v| - 1], t);
      HopelessForever(p, u, v[..|v| - 1]);
    }
  }

  /** A deadlock report is genuine: no continuation, pruned or not, changes the state any more, so none
      of them ever finishes. */
  lemma DeadlockSound<S>(p: Program<S>, w: Word, v: Word)
    requires RetriesStutter(p) && Deadlocked(p, w) && Interleaving(p, w + v)
    ensures Hopeless(p, FreeAfter(p, w)) && FreeAfter(p, w + v) == FreeAfter(p, w)
    ensures !CompleteInterleaving(p, w + v)
  {
    LegalIsInterleaving(p, w);
    PrunedLegal(p, w);
    PrunedSimulates(p, w);
    HopelessForever(p, w, v);
  }

  /** And every hopeless state that an interleaving can reach shows up as a deadlocked schedule. */
  lemma DeadlockComplete<S>(p: Program<S>, u: Word) returns (w: Word)
    requires RetriesStutter(p) && Interleaving(p, u) && Hopeless(p, FreeAfter(p, u))
    ensures Deadlocked(p, w) && FreeAfter(p, w) == FreeAfter(p, u)
  {
    PrunedSimulates(p, u);
    w := BlockRest(p, Pruned(p, u));
    LegalIsInterleaving(p, w);
  }

  lemma {:induction false} BlockRest<S>(p: Program<S>, w: Word) returns (d: Word)
    requires Legal(p, w) && BlockedAreStuck(p, After(p, w)) && Hopeless(p, Visible(After(p, w)))
    ensures Deadlocked(p, d) && Visible(After(p, d)) == Visible(After(p, w))
    decreases Enabled(After(p, w))
  {
    var s := After(p, w);
    if Enabled(s) == {} {
      d := w;
    } else {
      var t :| t in Enabled(s);
      LegalSnoc(p, w, t);
      AfterSnoc(p, w, t);
      assert Enabled(After(p, w + [t])) == Enabled(s) - {t};
      d := BlockRest(p, w + [t]);
    }
  }

  lemma DeadlockIff<S>(p: Program<S>)
    requires RetriesStutter(p)
    ensures (exists w :: Deadlocked(p, w)) <==> (exists u :: Interleaving(p, u) && Hopeless(p, FreeAfter(p, u)))
  {
    if w :| Deadlocked(p, w) {
      LegalIsInterleaving(p, w);
      assert w + [] == w;
      DeadlockSound(p, w, []);
    }
    if u :| Interleaving(p, u) && Hopeless(p, FreeAfter(p, u)) {
      var w := DeadlockComplete(p, u);
    }
  }
}
