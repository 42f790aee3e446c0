/** The "last replaced state wins" protocol of `StateChanger_test.cxx`, for any number of threads: each
    replaces a shared value, copies it back, and passes it to `set_if` if it is still its own. */
module StateChanger {
  import opened Sets
  import opened Schedules
  import opened Bounds
  import opened Pruning
  import opened ThreadPermuters
  import opened Exploration

  datatype Owner = Nobody | Thread(t: nat)

  /** `m_state`, `m_final_state`, `m_state_expected`, `m_final_state_mutex`, and for each thread the
      number of the segment it is in and its `TemporalState`. */
  datatype UserObj = UserObj(state: int, final: int, expected: int, owner: Owner, pc: seq<nat>, ts: seq<int>)

  const FINISHED: nat := 6

  /** The segment of thread `t` that starts at its checkpoint. The threads replace with `values[t]`. */
  function Exec(values: seq<int>, s: UserObj, t: nat): (UserObj, Outcome) {
    if t >= |values| || t >= |s.pc| || t >= |s.ts| then (s, Finished)
    else
      match s.pc[t]
      case 0 => (s.(state := values[t], expected := values[t], pc := s.pc[t := 1]), Yielding)
      case 1 => (s.(ts := s.ts[t := s.state], pc := s.pc[t := 2]), Yielding)
      case 2 =>
        if s.ts[t] == values[t] then (s.(pc := s.pc[t := 3]), Yielding)
        else (s.(pc := s.pc[t := FINISHED]), Finished)
      case 3 =>
        if s.owner == Nobody then (s.(owner := Thread(t), pc := s.pc[t := 4]), Yielding)
        else (s, Blocking)
      case 4 =>
        if s.ts[t] == s.state then (s.(pc := s.pc[t := 5]), Yielding)
        else (s.(owner := Nobody, pc := s.pc[t := FINISHED]), Finished)
      case 5 => (s.(final := s.ts[t], owner := Nobody, pc := s.pc[t := FINISHED]), Finished)
      case _ => (s, Finished)
  }

  /** `on_permutation_begin` does not reset `m_state`, so a run starts with any value in it. */
  function Begin(n: nat, leftover: int): UserObj {
    UserObj(leftover, -1, -1, Nobody, seq(n, _ => 0), seq(n, _ => 0))
  }

  function Test(values: seq<int>, leftover: int): Program<UserObj> {
    Program(|values|, Begin(|values|, leftover), (s, t) => Exec(values, s, t))
  }

  // ---------- the invariant ----------

  /** The thread that called `replace` last: the one whose first step comes last. */
  datatype LastThread = None | Some(t: nat)

  function LastReplaced(u: Word): LastThread {
    if u == [] then None
    else
      var v, t := u[..|u| - 1], u[|u| - 1];
      if t in v then LastReplaced(v) else Some(t)
  }

  ghost predicate Counted(values: seq<int>, f: Free<UserObj>) {
    var s := f.world;
    && |s.pc| == |s.ts| == |values|
    && f.running <= Indices(|values|)
    && forall i | 0 <= i < |s.pc| :: s.pc[i] <= FINISHED && (i in f.running <==> s.pc[i] < FINISHED)
  }

  /** The owner of the mutex is the one thread inside `set_if`. */
  predicate Exclusive(s: UserObj) {
    && (forall i | 0 <= i < |s.pc| :: s.owner == Thread(i) <==> 4 <= s.pc[i] <= 5)
    && (s.owner.Thread? ==> s.owner.t < |s.pc|)
  }

  /** Whoever got as far as `set_if` does so with its own value. */
  predicate Own(values: seq<int>, s: UserObj)
    requires |s.pc| == |s.ts| == |values|
  {
    forall i | 0 <= i < |s.pc| && 3 <= s.pc[i] <= 5 :: s.ts[i] == values[i]
  }

  ghost predicate Shape(values: seq<int>, f: Free<UserObj>) {
    Counted(values, f) && Exclusive(f.world) && Own(values, f.world)
  }

  /** What is known while `l` is the last thread that called `replace`: it still has its value to
      deliver, or it has delivered it and nobody can overwrite it with another one. */
  ghost predicate Winning(values: seq<int>, s: UserObj, l: nat)
    requires |s.pc| == |s.ts| == |values| && l < |values|
  {
    && s.pc[l] >= 1 && s.state == s.expected == values[l]
    && (2 <= s.pc[l] <= 5 ==> s.ts[l] == values[l])
    && (s.pc[l] == FINISHED ==>
          s.final == values[l] && forall i | 0 <= i < |s.pc| && s.pc[i] == 5 :: s.ts[i] == values[l])
  }

  ghost predicate Inv(values: seq<int>, f: Free<UserObj>, last: LastThread) {
    && Shape(values, f)
    && match last
       case None => f.world.final == f.world.expected == -1 && forall i | 0 <= i < |values| :: f.world.pc[i] == 0
       case Some(l) => l < |values| && Winning(values, f.world, l)
  }

  lemma BeginInv(values: seq<int>, leftover: int)
    ensures Inv(values, FreeAfter(Test(values, leftover), []), None)
  {
  }

  lemma StepCounted(values: seq<int>, leftover: int, f: Free<UserObj>, t: nat)
    requires Shape(values, f) && t in f.running
    ensures Counted(values, FreeStep(Test(values, leftover), f, t))
  {
  }

  lemma StepExclusive(values: seq<int>, f: Free<UserObj>, t: nat)
    requires Shape(values, f) && t in f.running
    ensures Exclusive(Exec(values, f.world, t).0)
  {
  }

  lemma StepOwn(values: seq<int>, f: Free<UserObj>, t: nat)
    requires Shape(values, f) && t in f.running
    ensures Own(values, Exec(values, f.world, t).0)
  {
  }

  lemma StepShape(values: seq<int>, leftover: int, f: Free<UserObj>, t: nat)
    requires Shape(values, f) && t in f.running
    ensures Shape(values, FreeStep(Test(values, leftover), f, t))
  {
    StepCounted(values, leftover, f, t);
    StepExclusive(values, f, t);
    StepOwn(values, f, t);
  }

  /** Replacing makes the thread the last one. */
  lemma ReplaceWins(values: seq<int>, f: Free<UserObj>, t: nat)
    requires Shape(values, f) && t in f.running && f.world.pc[t] == 0
    ensures Winning(values, Exec(values, f.world, t).0, t)
  {
  }

  /** Every other step leaves the last one winning. */
  lemma OtherStepKeepsWinning(values: seq<int>, f: Free<UserObj>, t: nat, l: nat)
    requires Shape(values, f) && t in f.running && f.world.pc[t] > 0
    requires l < |values| && Winning(values, f.world, l)
    ensures Winning(values, Exec(values, f.world, t).0, l)
  {
  }

  /** A thread has made a step if and only if it has replaced the value. */
  ghost predicate StartedBy(u: Word, s: UserObj) {
    forall i | 0 <= i < |s.pc| :: i in u <==> s.pc[i] > 0
  }

  ghost predicate Reached(values: seq<int>, leftover: int, u: Word) {
    var f := FreeAfter(Test(values, leftover), u);
    Inv(values, f, LastReplaced(u)) && StartedBy(u, f.world)
  }

  lemma LastReplacedSnoc(u: Word, t: nat)
    ensures LastReplaced(u + [t]) == if t in u then LastReplaced(u) else Some(t)
  {
    assert (u + [t])[..|u|] == u;
  }

  lemma StepStarts(values: seq<int>, f: Free<UserObj>, u: Word, t: nat)
    requires Shape(values, f) && t in f.running && StartedBy(u, f.world)
    ensures StartedBy(u + [t], Exec(values, f.world, t).0)
  {
    var s' := Exec(values, f.world, t).0;
    forall i | 0 <= i < |s'.pc| ensures i in u + [t] <==> s'.pc[i] > 0 {
      assert i in u + [t] <==> i in u || i == t;
    }
  }

  lemma ReachedSnoc(values: seq<int>, leftover: int, u: Word, t: nat)
    requires Reached(values, leftover, u) && t in FreeAfter(Test(values, leftover), u).running
    ensures Reached(values, leftover, u + [t])
  {
    var p := Test(values, leftover);
    var f := FreeAfter(p, u);
    FreeSnoc(p, u, t);
    LastReplacedSnoc(u, t);
    StepShape(values, leftover, f, t);
    StepStarts(values, f, u, t);
    if f.world.pc[t] == 0 {
      ReplaceWins(values, f, t);
    } else {
      OtherStepKeepsWinning(values, f, t, LastReplaced(u).t);
    }
  }

  lemma {:induction false} AlwaysReached(values: seq<int>, leftover: int, u: Word)
    requires Interleaving(Test(values, leftover), u)
    ensures Reached(values, leftover, u)
    decreases |u|
  {
    if u == [] {
      BeginInv(values, leftover);
    } else {
      var v, t := u[..|u| - 1], u[|u| - 1];
      assert u == v + [t];
      FreeSnoc(Test(values, leftover), v, t);
      AlwaysReached(values, leftover, v);
      ReachedSnoc(values, leftover, v, t);
    }
  }

  lemma FinishedWins(values: seq<int>, f: Free<UserObj>, last: LastThread)
    requires Inv(values, f, last) && f.running == {}
    ensures f.world.final == f.world.expected
    ensures values != [] ==> last.Some? && last.t < |values| && f.world.final == values[last.t]
  {
    assert forall i | 0 <= i < |f.world.pc| :: f.world.pc[i] == FINISHED;
  }

  /** When all threads have finished, the final state is the value that was passed to `replace` last,
      and so is the expected one. */
  lemma LastReplacedWins(values: seq<int>, leftover: int, u: Word)
    requires CompleteInterleaving(Test(values, leftover), u)
    ensures var s, last := FreeAfter(Test(values, leftover), u).world, LastReplaced(u);
            && s.final == s.expected
            && (values != [] ==> last.Some? && last.t < |values| && s.final == values[last.t])
  {
    AlwaysReached(values, leftover, u);
    FinishedWins(values, FreeAfter(Test(values, leftover), u), LastReplaced(u));
  }

  // ---------- what each step of a thread does ----------

  /** The steps that `t` made in `u`, those that reported `blocking` not counted. */
  ghost function StepsMade(values: seq<int>, leftover: int, u: Word, t: nat): nat {
    if u == [] then 0
    else
      var v, p := u[..|u| - 1], Test(values, leftover);
      StepsMade(values, leftover, v, t)
      + if u[|u| - 1] == t && !p.exec(FreeAfter(p, v).world, t).1.Blocking? then 1 else 0
  }

  lemma StepsMadeSnoc(values: seq<int>, leftover: int, u: Word, x: nat, t: nat)
    ensures StepsMade(values, leftover, u + [x], t) == StepsMade(values, leftover, u, t)
            + if x == t && !Exec(values, FreeAfter(Test(values, leftover), u).world, t).1.Blocking? then 1 else 0
  {
    assert (u + [x])[..|u|] == u;
  }

  /** A running thread has made as many steps as it has passed checkpoints; a thread that left early made three steps
      or five, and otherwise it made six. */
  ghost predicate Counts(f: Free<UserObj>, n: nat, t: nat)
    requires t < |f.world.pc|
  {
    if t in f.running then n == f.world.pc[t] <= 5 else n == 3 || n == 5 || n == 6
  }

  lemma StepCounts(values: seq<int>, leftover: int, f: Free<UserObj>, x: nat, n: nat, t: nat)
    requires Shape(values, f) && x in f.running && t < |values| && Counts(f, n, t)
    ensures var f' := FreeStep(Test(values, leftover), f, x);
            |f'.world.pc| == |values| &&
            Counts(f', n + if x == t && !Exec(values, f.world, t).1.Blocking? then 1 else 0, t)
  {
  }

  lemma {:induction false} AlwaysCounts(values: seq<int>, leftover: int, u: Word, t: nat)
    requires Interleaving(Test(values, leftover), u) && t < |values|
    ensures var f := FreeAfter(Test(values, leftover), u);
            Shape(values, f) && Counts(f, StepsMade(values, leftover, u, t), t)
    decreases |u|
  {
    AlwaysReached(values, leftover, u);
    if u != [] {
      var v, x := u[..|u| - 1], u[|u| - 1];
      assert u == v + [x];
      FreeSnoc(Test(values, leftover), v, x);
      AlwaysCounts(values, leftover, v, t);
      StepCounts(values, leftover, FreeAfter(Test(values, leftover), v), x, StepsMade(values, leftover, v, t), t);
      StepsMadeSnoc(values, leftover, v, x, t);
    }
  }

  /** What step number `n` of thread `t` does, if it is not blocked: replace, copy, compare, lock, `valid`, assign. */
  ghost predicate Script(values: seq<int>, n: nat, t: nat, s: UserObj, s': UserObj, finished: bool)
    requires t < |values| && t < |s.ts| && t < |s'.ts|
  {
    && n <= 5
    && s'.state == (if n == 0 then values[t] else s.state)
    && s'.expected == (if n == 0 then values[t] else s.expected)
    && s'.ts[t] == (if n == 1 then s.state else s.ts[t])
    && s'.final == (if n == 5 then values[t] else s.final)
    && s'.owner == (if n == 3 then Thread(t)
                    else if (n == 4 && s.state != values[t]) || n == 5 then Nobody
                    else s.owner)
    && (n == 3 ==> s.owner == Nobody)
    && (finished <==> (n == 2 && s.ts[t] != values[t]) || (n == 4 && s.state != values[t]) || n == 5)
  }

  /** Every step follows the script; a step that blocks is an attempt at the fourth while another thread has the
      mutex. */
  lemma FollowsScript(values: seq<int>, leftover: int, u: Word, t: nat)
    requires Interleaving(Test(values, leftover), u + [t])
    ensures var p := Test(values, leftover);
            var f, f', n := FreeAfter(p, u), FreeAfter(p, u + [t]), StepsMade(values, leftover, u, t);
            var o := p.exec(f.world, t).1;
            && t < |values| == |f.world.ts| == |f'.world.ts|
            && if o.Blocking? then f' == f && n == 3 && f.world.owner.Thread? && f.world.owner.t != t
               else (o.Yielding? || o.Finished?) && (o.Finished? <==> t !in f'.running)
                    && Script(values, n, t, f.world, f'.world, o.Finished?)
  {
    FreeSnoc(Test(values, leftover), u, t);
    AlwaysReached(values, leftover, u);
    AlwaysCounts(values, leftover, u, t);
    ScriptAt(values, FreeAfter(Test(values, leftover), u), t);
  }

  lemma ScriptAt(values: seq<int>, f: Free<UserObj>, t: nat)
    requires Shape(values, f) && t in f.running
    ensures var (s', o) := Exec(values, f.world, t);
            && |s'.ts| == |values|
            && if o.Blocking? then s' == f.world && f.world.pc[t] == 3 && f.world.owner.Thread? && f.world.owner.t != t
               else (o.Yielding? || o.Finished?) && Script(values, f.world.pc[t], t, f.world, s', o.Finished?)
  {
  }

  /** Step `i` of `u` is the one in which `t` sets the final state. */
  ghost predicate SetBy(values: seq<int>, leftover: int, u: Word, t: nat, i: nat) {
    && i < |u| && u[i] == t && t < |values|
    && StepsMade(values, leftover, u[..i], t) == 5
    && FreeAfter(Test(values, leftover), u[..i + 1]).world.final == values[t]
  }

  ghost predicate ChangesFinal(values: seq<int>, leftover: int, u: Word, i: nat)
    requires i < |u|
  {
    FreeAfter(Test(values, leftover), u[..i + 1]).world.final != FreeAfter(Test(values, leftover), u[..i]).world.final
  }

  lemma SetByEarlier(values: seq<int>, leftover: int, v: Word, x: nat, t: nat, i: nat)
    requires SetBy(values, leftover, v, t, i)
    ensures SetBy(values, leftover, v + [x], t, i)
  {
    assert (v + [x])[..i] == v[..i] && (v + [x])[..i + 1] == v[..i + 1];
  }

  lemma SixthSets(values: seq<int>, leftover: int, v: Word, x: nat, t: nat)
    requires Interleaving(Test(values, leftover), v + [x]) && t < |values|
    requires StepsMade(values, leftover, v, t) != 6 && StepsMade(values, leftover, v + [x], t) == 6
    ensures SetBy(values, leftover, v + [x], t, |v|)
  {
    StepsMadeSnoc(values, leftover, v, x, t);
    FollowsScript(values, leftover, v, t);
    assert (v + [x])[..|v|] == v && (v + [x])[..|v| + 1] == v + [x];
  }

  lemma {:induction false} SixSets(values: seq<int>, leftover: int, u: Word, t: nat) returns (i: nat)
    requires Interleaving(Test(values, leftover), u) && t < |values| && StepsMade(values, leftover, u, t) == 6
    ensures SetBy(values, leftover, u, t, i)
    decreases |u|
  {
    var v, x := u[..|u| - 1], u[|u| - 1];
    assert u == v + [x];
    FreeSnoc(Test(values, leftover), v, x);
    if StepsMade(values, leftover, v, t) == 6 {
      i := SixSets(values, leftover, v, t);
      SetByEarlier(values, leftover, v, x, t, i);
    } else {
      i := |v|;
      SixthSets(values, leftover, v, x, t);
    }
  }

  lemma {:induction false} InterleavingPrefix(values: seq<int>, leftover: int, u: Word, k: nat, t: nat)
    requires Interleaving(Test(values, leftover), u) && k <= |u|
    ensures Interleaving(Test(values, leftover), u[..k])
    ensures StepsMade(values, leftover, u[..k], t) <= StepsMade(values, leftover, u, t)
    decreases |u|
  {
    if k == |u| {
      assert u[..k] == u;
    } else {
      var v := u[..|u| - 1];
      InterleavingPrefix(values, leftover, v, k, t);
      assert u[..k] == v[..k];
    }
  }

  lemma ChangeIsSixth(values: seq<int>, leftover: int, u: Word, i: nat)
    requires Interleaving(Test(values, leftover), u) && i < |u| && ChangesFinal(values, leftover, u, i)
    ensures u[i] < |values| && StepsMade(values, leftover, u[..i + 1], u[i]) == 6
  {
    InterleavingPrefix(values, leftover, u, i + 1, u[i]);
    assert u[..i + 1] == u[..i] + [u[i]];
    FollowsScript(values, leftover, u[..i], u[i]);
    StepsMadeSnoc(values, leftover, u[..i], u[i], u[i]);
  }

  /** In a complete interleaving every thread makes three steps, five or six: six if it changes the final state, and
      only if it sets it. */
  lemma ThreeFiveOrSix(values: seq<int>, leftover: int, u: Word, t: nat)
    requires CompleteInterleaving(Test(values, leftover), u) && t < |values|
    ensures var n := StepsMade(values, leftover, u, t);
            && (n == 3 || n == 5 || n == 6)
            && (n == 6 ==> exists i :: SetBy(values, leftover, u, t, i))
            && ((exists i: nat :: i < |u| && u[i] == t && ChangesFinal(values, leftover, u, i)) ==> n == 6)
  {
    AlwaysCounts(values, leftover, u, t);
    if StepsMade(values, leftover, u, t) == 6 {
      var i := SixSets(values, leftover, u, t);
    }
    if i: nat :| i < |u| && u[i] == t && ChangesFinal(values, leftover, u, i) {
      ChangeIsSixth(values, leftover, u, i);
      InterleavingPrefix(values, leftover, u, i + 1, t);
    }
  }

  // ---------- the checkpoint between valid and the assignment ----------

  lemma AloneWins(values: seq<int>, leftover: int, v: Word)
    requires |values| == 1 && Reached(values, leftover, v)
    ensures var s := FreeAfter(Test(values, leftover), v).world;
            && |s.pc| == |s.ts| == 1
            && (2 <= s.pc[0] <= 5 ==> s.state == s.ts[0] == values[0])
  {
  }

  lemma AloneSnoc(values: seq<int>, leftover: int, v: Word, x: nat)
    requires |values| == 1 && Interleaving(Test(values, leftover), v + [x])
    ensures x == 0 && StepsMade(values, leftover, v + [x], 0) == StepsMade(values, leftover, v, 0) + 1
    ensures 0 !in FreeAfter(Test(values, leftover), v + [x]).running ==> StepsMade(values, leftover, v, 0) == 5
  {
    FreeSnoc(Test(values, leftover), v, x);
    FollowsScript(values, leftover, v, x);
    StepsMadeSnoc(values, leftover, v, x, 0);
    AlwaysReached(values, leftover, v);
    AloneWins(values, leftover, v);
    AlwaysCounts(values, leftover, v, 0);
  }

  /** With one thread nothing ever blocks, and it does not finish before its sixth step. */
  lemma {:induction false} AloneCounts(values: seq<int>, leftover: int, u: Word)
    requires |values| == 1 && Interleaving(Test(values, leftover), u)
    ensures (forall i | 0 <= i < |u| :: u[i] == 0) && StepsMade(values, leftover, u, 0) == |u| <= 6
    ensures 0 !in FreeAfter(Test(values, leftover), u).running <==> |u| == 6
    decreases |u|
  {
    AlwaysCounts(values, leftover, u, 0);
    if u != [] {
      var v, x := u[..|u| - 1], u[|u| - 1];
      assert u == v + [x];
      FreeSnoc(Test(values, leftover), v, x);
      AloneCounts(values, leftover, v);
      AloneSnoc(values, leftover, v, x);
    } else {
      assert 0 in Indices(1);
    }
  }

  lemma {:induction false} AloneGoesOn(values: seq<int>, leftover: int, k: nat)
    requires |values| == 1 && k <= 6
    ensures Interleaving(Test(values, leftover), seq(k, _ => 0))
  {
    if k > 0 {
      AloneGoesOn(values, leftover, k - 1);
      AloneCounts(values, leftover, seq(k - 1, _ => 0));
      FreeSnoc(Test(values, leftover), seq(k - 1, _ => 0), 0);
      assert seq(k - 1, _ => 0) + [0] == seq(k, _ => 0);
    }
  }

  /** With one thread there is only one complete interleaving, and it has six steps. */
  lemma AloneSixSteps(values: seq<int>, leftover: int, u: Word)
    requires |values| == 1
    ensures CompleteInterleaving(Test(values, leftover), u) <==> u == [0, 0, 0, 0, 0, 0]
  {
    AloneGoesOn(values, leftover, 6);
    var six: Word := seq(6, _ => 0);
    assert six == [0, 0, 0, 0, 0, 0];
    AloneCounts(values, leftover, six);
    AlwaysCounts(values, leftover, six, 0);
    if CompleteInterleaving(Test(values, leftover), u) {
      AloneCounts(values, leftover, u);
      assert u == six;
    }
  }

  lemma RunsOn(values: seq<int>, leftover: int, u: Word, t: nat, s: UserObj)
    requires Interleaving(Test(values, leftover), u) && t < |values|
    requires s == FreeAfter(Test(values, leftover), u).world && t < |s.pc| && s.pc[t] <= 5
    ensures Interleaving(Test(values, leftover), u + [t])
    ensures FreeAfter(Test(values, leftover), u + [t]).world == Exec(values, s, t).0
  {
    AlwaysReached(values, leftover, u);
    FreeSnoc(Test(values, leftover), u, t);
  }

  /** The race that the mutex does not prevent: thread 1 replaces the value after `valid` has succeeded for thread 0,
      and the stale value is assigned all the same. */
  lemma StaleAssignment(values: seq<int>, leftover: int) returns (u: Word)
    requires |values| == 2
    ensures u == [0, 0, 0, 0, 0, 1, 0] && Interleaving(Test(values, leftover), u)
    ensures FreeAfter(Test(values, leftover), u[..6]).world.state == values[1]
    ensures FreeAfter(Test(values, leftover), u[..6]).world.final == -1
    ensures FreeAfter(Test(values, leftover), u).world.state == values[1]
    ensures FreeAfter(Test(values, leftover), u).world.final == values[0]
  {
    var x, y := values[0], values[1];
    u := [];
    var s := Begin(2, leftover);
    RunsOn(values, leftover, u, 0, s);
    var s1 := s.(state := x, expected := x, pc := [1, 0]);
    RunsOn(values, leftover, u + [0], 0, s1);
    var s2 := s1.(ts := [x, 0], pc := [2, 0]);
    RunsOn(values, leftover, u + [0] + [0], 0, s2);
    var s3 := s2.(pc := [3, 0]);
    RunsOn(values, leftover, u + [0] + [0] + [0], 0, s3);
    var s4 := s3.(owner := Thread(0), pc := [4, 0]);
    RunsOn(values, leftover, u + [0] + [0] + [0] + [0], 0, s4);
    var s5 := s4.(pc := [5, 0]);
    var valid := u + [0] + [0] + [0] + [0] + [0];
    RunsOn(values, leftover, valid, 1, s5);
    var s6 := s5.(state := y, expected := y, pc := [5, 1]);
    RunsOn(values, leftover, valid + [1], 0, s6);
    u := valid + [1] + [0];
    assert u[..6] == valid + [1];
  }

  // ---------- the test under the permuter ----------

  /** Blocking on the mutex is a retry. */
  lemma MutexRetries(values: seq<int>, leftover: int)
    ensures RetriesStutter(Test(values, leftover))
  {
    var p := Test(values, leftover);
    forall u, t | Interleaving(p, u) && t in FreeAfter(p, u).running ensures RetryAt(p, FreeAfter(p, u), t) {
      AlwaysReached(values, leftover, u);
    }
  }

  lemma NeverHopeless(values: seq<int>, leftover: int, f: Free<UserObj>)
    requires Shape(values, f)
    ensures !Hopeless(Test(values, leftover), f)
  {
    if f.running != {} {
      var t :| t in f.running;
      var v := if f.world.owner.Thread? then f.world.owner.t else t;
      assert v in f.running;
      assert Exec(values, f.world, v).1 != Blocking;
    }
  }

  lemma NoDeadlock(values: seq<int>, leftover: int, w: Word)
    ensures !Deadlocked(Test(values, leftover), w)
  {
    var p := Test(values, leftover);
    if Deadlocked(p, w) {
      MutexRetries(values, leftover);
      LegalIsInterleaving(p, w);
      assert w + [] == w;
      DeadlockSound(p, w, []);
      AlwaysReached(values, leftover, w);
      NeverHopeless(values, leftover, FreeAfter(p, w));
    }
  }

  function Sum(s: seq<nat>): nat {
    if s == [] then 0 else Sum(s[..|s| - 1]) + s[|s| - 1]
  }

  lemma {:induction false} SumUpdate(s: seq<nat>, i: nat, x: nat)
    requires i < |s| && s[i] < x
    ensures Sum(s) < Sum(s[i := x])
  {
    var v, n := s[i := x], |s| - 1;
    if i == n {
      assert v[..n] == s[..n];
    } else {
      SumUpdate(s[..n], i, x);
      assert v[..n] == s[..n][i := x];
    }
  }

  lemma {:induction false} SumAtMost(s: seq<nat>)
    requires forall i | 0 <= i < |s| :: s[i] <= FINISHED
    ensures Sum(s) <= FINISHED * |s|
  {
    if s != [] {
      SumAtMost(s[..|s| - 1]);
    }
  }

  ghost predicate CountsSegments(values: seq<int>, leftover: int, w: Word) {
    var p := Test(values, leftover);
    ProgressSteps(p, w) <= Sum(After(p, w).world.pc)
  }

  lemma SegmentEnds(values: seq<int>, f: Free<UserObj>, t: nat)
    requires Shape(values, f) && t in f.running
    ensures var (s', o) := Exec(values, f.world, t);
            if o.Blocking? then s' == f.world else Sum(f.world.pc) < Sum(s'.pc)
  {
    var s' := Exec(values, f.world, t).0;
    if s' != f.world {
      SumUpdate(f.world.pc, t, s'.pc[t]);
    }
  }

  lemma VisibleShape(values: seq<int>, leftover: int, w: Word)
    requires Legal(Test(values, leftover), w)
    ensures var s := After(Test(values, leftover), w); Shape(values, Free(s.world, s.running))
  {
    LegalIsInterleaving(Test(values, leftover), w);
    AlwaysReached(values, leftover, w);
  }

  lemma StepWorld(values: seq<int>, leftover: int, v: Word, t: nat)
    ensures After(Test(values, leftover), v + [t]).world == Exec(values, After(Test(values, leftover), v).world, t).0
  {
    WorldSnoc(Test(values, leftover), v, t);
  }

  lemma CountsSegmentsSnoc(values: seq<int>, leftover: int, v: Word, t: nat)
    requires Legal(Test(values, leftover), v) && t in Enabled(After(Test(values, leftover), v))
    requires CountsSegments(values, leftover, v)
    ensures CountsSegments(values, leftover, v + [t])
  {
    VisibleShape(values, leftover, v);
    StepWorld(values, leftover, v, t);
    ProgressSnoc(Test(values, leftover), v, t);
    var s := After(Test(values, leftover), v);
    SegmentEnds(values, Free(s.world, s.running), t);
  }

  lemma {:induction false} ProgressIsSegments(values: seq<int>, leftover: int, w: Word)
    requires Legal(Test(values, leftover), w)
    ensures CountsSegments(values, leftover, w)
    decreases |w|
  {
    if w != [] {
      var v, t := LegalSplit(Test(values, leftover), w);
      ProgressIsSegments(values, leftover, v);
      CountsSegmentsSnoc(values, leftover, v, t);
    }
  }

  lemma AtMostSix(values: seq<int>, leftover: int, w: Word)
    requires Legal(Test(values, leftover), w)
    ensures ProgressSteps(Test(values, leftover), w) <= FINISHED * |values|
  {
    ProgressIsSegments(values, leftover, w);
    VisibleShape(values, leftover, w);
    SumAtMost(After(Test(values, leftover), w).world.pc);
  }

  lemma TestBounded(values: seq<int>, leftover: int)
    ensures Bounded(Test(values, leftover), ScheduleBound(FINISHED * |values|, |values|))
  {
    forall w | Legal(Test(values, leftover), w)
      ensures ProgressSteps(Test(values, leftover), w) <= FINISHED * |values|
    {
      AtMostSix(values, leftover, w);
    }
    ProgressBound(Test(values, leftover), FINISHED * |values|);
  }

  lemma BoundFits(n: nat)
    requires n <= 31
    ensures ScheduleBound(FINISHED * n, n) <= INT_MAX
  {
    var b := FINISHED * n;
    assert n * (b + 1) <= 31 * (b + 1);
  }

  /** Every schedule passes the assertion of `on_permutation_end`. */
  lemma EndsAsExpected(values: seq<int>, leftover: int, g: Word)
    requires Complete(Test(values, leftover), g)
    ensures After(Test(values, leftover), g).world.final == After(Test(values, leftover), g).world.expected
  {
    LegalIsInterleaving(Test(values, leftover), g);
    LastReplacedWins(values, leftover, g);
  }

  /** `tp.run()` of the test, for up to 31 threads: the search comes to its end, having run every
      complete schedule, and the assertion of `on_permutation_end` holds after each. */
  method RunTest(values: seq<int>, leftover: int) returns (ended: seq<string>, ghost visited: seq<Word>)
    requires |values| <= 31
    ensures EveryScheduleOnce(Test(values, leftover), visited, ended) && ReportsAll(Test(values, leftover), ended)
    ensures forall g | g in visited ::
              After(Test(values, leftover), g).world.final == After(Test(values, leftover), g).world.expected
  {
    TestBounded(values, leftover);
    BoundFits(|values|);
    var dead;
    ended, dead, visited := RunToEnd(Test(values, leftover), ScheduleBound(FINISHED * |values|, |values|));
    forall w ensures !Deadlocked(Test(values, leftover), w) {
      NoDeadlock(values, leftover, w);
    }
    forall g | g in visited
      ensures After(Test(values, leftover), g).world.final == After(Test(values, leftover), g).world.expected
    {
      EndsAsExpected(values, leftover, g);
    }
  }
}
