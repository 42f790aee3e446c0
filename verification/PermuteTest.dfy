/** The example program of `permute_test.cxx`: three threads change `x` under one mutex. It shows that
    the retry condition of the pruning theorems is met by threads that block on a `Mutex`. */
module PermuteTest {
  import opened Sets
  import opened Schedules
  import opened Bounds
  import opened Pruning
  import opened Exploration

  datatype Owner = Nobody | Thread(t: nat)

  /** `m_mutex`, `x`, and for each thread the number of checkpoints that it has passed. */
  datatype TestRun = TestRun(owner: Owner, x: nat, pc: seq<nat>)

  function Change(t: nat, x: nat): nat {
    if t == 0 then x + 7 else if t == 1 then x * 3 else x % 5
  }

  /** One step of `test0`, `test1` or `test2`: lock, change `x`, unlock, leave. */
  function Exec(s: TestRun, t: nat): (TestRun, Outcome) {
    if t >= |s.pc| then (s, Finished)
    else
      var next := s.(pc := s.pc[t := s.pc[t] + 1]);
      match s.pc[t]
      case 0 => if s.owner == Nobody then (next.(owner := Thread(t)), Yielding) else (s, Blocking)
      case 1 => (next.(x := Change(t, s.x)), Yielding)
      case 2 => (next.(owner := Nobody), Yielding)
      case _ => (next, Finished)
  }

  const TEST: Program<TestRun> := Program(3, TestRun(Nobody, 1, [0, 0, 0]), Exec)

  /** The values that `x` can have when the threads in question have changed it. */
  function Values(a: bool, m: bool, d: bool): set<nat> {
    if a && m && d then {0, 4, 9, 10, 24}
    else if a && m then {10, 24}
    else if a && d then {3, 8}
    else if m && d then {3}
    else if a then {8}
    else if m then {3}
    else {1}
  }

  /** The owner is the one thread between lock and unlock, and finished threads have passed all their
      checkpoints. */
  ghost predicate Exclusive(f: Free<TestRun>) {
    && |f.world.pc| == 3
    && (forall t | 0 <= t < 3 :: f.world.pc[t] <= 4 && (t in f.running <==> f.world.pc[t] < 4))
    && f.running <= Indices(3)
    && (forall t | 0 <= t < 3 :: f.world.owner == Thread(t) <==> 1 <= f.world.pc[t] <= 2)
    && (f.world.owner.Thread? ==> f.world.owner.t < 3)
  }

  predicate ExpectedValue(s: TestRun)
    requires |s.pc| == 3
  {
    s.x in Values(s.pc[0] >= 2, s.pc[1] >= 2, s.pc[2] >= 2)
  }

  ghost predicate Valid(f: Free<TestRun>) {
    Exclusive(f) && ExpectedValue(f.world)
  }

  lemma StepExclusive(f: Free<TestRun>, t: nat)
    requires Exclusive(f) && t in f.running
    ensures Exclusive(FreeStep(TEST, f, t))
  {
    var s, s' := f.world, Exec(f.world, t).0;
    assert s'.pc == s.pc || s'.pc == s.pc[t := s.pc[t] + 1];
  }

  lemma StepValue(s: TestRun, t: nat)
    requires |s.pc| == 3 && t < 3 && ExpectedValue(s)
    ensures ExpectedValue(Exec(s, t).0)
  {
  }

  lemma {:induction false} ReachableValid(u: Word)
    requires Interleaving(TEST, u)
    ensures Valid(FreeAfter(TEST, u))
  {
    if u != [] {
      ReachableValid(u[..|u| - 1]);
      StepExclusive(FreeAfter(TEST, u[..|u| - 1]), u[|u| - 1]);
      StepValue(FreeAfter(TEST, u[..|u| - 1]).world, u[|u| - 1]);
    }
  }

  /** Blocking on the mutex is a retry. */
  lemma MutexRetries()
    ensures RetriesStutter(TEST)
  {
    forall u, t | Interleaving(TEST, u) && t in FreeAfter(TEST, u).running
      ensures RetryAt(TEST, FreeAfter(TEST, u), t)
    {
      ReachableValid(u);
    }
  }

  lemma NeverHopeless(f: Free<TestRun>)
    requires Valid(f)
    ensures !Hopeless(TEST, f)
  {
    if f.running != {} {
      var t :| t in f.running;
      var v := if f.world.owner.Thread? then f.world.owner.t else t;
      assert v in f.running && !Stuck(TEST, f.world, v);
    }
  }

  lemma NoDeadlock(w: Word)
    ensures !Deadlocked(TEST, w)
  {
    if Deadlocked(TEST, w) {
      MutexRetries();
      DeadlockIff(TEST);
      var u :| Interleaving(TEST, u) && Hopeless(TEST, FreeAfter(TEST, u));
      ReachableValid(u);
      NeverHopeless(FreeAfter(TEST, u));
    }
  }

  function Passed(s: TestRun): nat
    requires |s.pc| == 3
  {
    s.pc[0] + s.pc[1] + s.pc[2]
  }

  lemma StepPasses(s: TestRun, t: nat)
    requires |s.pc| == 3 && t < 3
    ensures |Exec(s, t).0.pc| == 3
    ensures Passed(Exec(s, t).0) == Passed(s) + if Exec(s, t).1.Blocking? then 0 else 1
  {
  }

  ghost predicate CountsPassed(w: Word) {
    |After(TEST, w).world.pc| == 3 && ProgressSteps(TEST, w) == Passed(After(TEST, w).world)
  }

  lemma TestStep(v: Word, t: nat)
    ensures After(TEST, v + [t]).world == Exec(After(TEST, v).world, t).0
    ensures ProgressSteps(TEST, v + [t]) ==
            ProgressSteps(TEST, v) + if Exec(After(TEST, v).world, t).1.Blocking? then 0 else 1
  {
    ProgressSnoc(TEST, v, t);
    WorldSnoc(TEST, v, t);
    TestExec(After(TEST, v).world, t);
  }

  lemma TestExec(s: TestRun, t: nat)
    ensures TEST.exec(s, t) == Exec(s, t)
  {
  }

  lemma CountsPassedSnoc(v: Word, t: nat)
    requires CountsPassed(v) && t < 3
    ensures CountsPassed(v + [t])
  {
    TestStep(v, t);
    StepPasses(After(TEST, v).world, t);
  }

  /** Every step that does not block passes one of the twelve checkpoints. */
  lemma {:induction false} ProgressIsPassed(w: Word)
    requires Legal(TEST, w)
    ensures CountsPassed(w)
    decreases |w|
  {
    if w != [] {
      var v, t := LegalSplit(TEST, w);
      ProgressIsPassed(v);
      RunningThreads(TEST, v);
      CountsPassedSnoc(v, t);
    }
  }

  lemma AtMostTwelve(w: Word)
    requires Legal(TEST, w)
    ensures ProgressSteps(TEST, w) <= 12
  {
    ProgressIsPassed(w);
    LegalIsInterleaving(TEST, w);
    ReachableValid(w);
  }

  lemma TestBounded()
    ensures Bounded(TEST, ScheduleBound(12, 3))
  {
    forall w | Legal(TEST, w) ensures ProgressSteps(TEST, w) <= 12 {
      AtMostTwelve(w);
    }
    ProgressBound(TEST, 12);
  }

  /** For every way in which the threads could have been interleaved, a schedule with the same result
      is visited, and the result is one of five. */
  ghost predicate OutcomeSeen(visited: seq<Word>, u: Word) {
    && Pruned(TEST, u) in visited
    && After(TEST, Pruned(TEST, u)).world == FreeAfter(TEST, u).world
    && FreeAfter(TEST, u).world.x in {0, 4, 9, 10, 24}
  }

  lemma FinalValue(u: Word)
    requires CompleteInterleaving(TEST, u)
    ensures FreeAfter(TEST, u).world.x in {0, 4, 9, 10, 24}
  {
    ReachableValid(u);
    FinishedValue(FreeAfter(TEST, u));
  }

  lemma FinishedValue(f: Free<TestRun>)
    requires Valid(f) && f.running == {}
    ensures f.world.x in {0, 4, 9, 10, 24}
  {
    assert forall t | 0 <= t < 3 :: f.world.pc[t] == 4;
  }

  lemma OutcomesSeen(visited: seq<Word>, ended: seq<string>, u: Word)
    requires EveryScheduleOnce(TEST, visited, ended) && CompleteInterleaving(TEST, u)
    ensures OutcomeSeen(visited, u)
  {
    MutexRetries();
    PrunedSimulates(TEST, u);
    assert Complete(TEST, Pruned(TEST, u));
    FinalValue(u);
  }

  // ---------- the value, by the order in which the threads get the lock ----------

  /** The threads in the order in which the mutex was locked. */
  ghost function LockOrder(u: Word): seq<nat> {
    if u == [] then []
    else
      var v, t := u[..|u| - 1], u[|u| - 1];
      LockOrder(v)
      + if FreeAfter(TEST, v).world.owner == Nobody && FreeAfter(TEST, u).world.owner == Thread(t) then [t] else []
  }

  /** The value after the threads have run one after the other: 7 is added, it is multiplied by 3, or it is taken
      modulo 5. */
  function ValueOf(order: seq<nat>): nat {
    if order == [] then 1
    else
      var x := ValueOf(order[..|order| - 1]);
      match order[|order| - 1]
      case 0 => x + 7
      case 1 => 3 * x
      case _ => x % 5
  }

  predicate Distinct(order: seq<nat>) {
    forall i, j | 0 <= i < j < |order| :: order[i] != order[j]
  }

  /** The thread that has locked the mutex last has yet to change `x`, or everybody in the order has done so. */
  ghost predicate Ordered(f: Free<TestRun>, order: seq<nat>)
    requires |f.world.pc| == 3
  {
    && Distinct(order) && (forall t: nat :: t in order <==> t < 3 && f.world.pc[t] >= 1)
    && if f.world.owner.Thread? && f.world.owner.t < 3 && f.world.pc[f.world.owner.t] == 1
       then order != [] && order[|order| - 1] == f.world.owner.t && f.world.x == ValueOf(order[..|order| - 1])
       else f.world.x == ValueOf(order)
  }

  lemma DistinctSnoc(order: seq<nat>, t: nat)
    requires Distinct(order) && t !in order
    ensures Distinct(order + [t]) && (order + [t])[..|order|] == order
    ensures forall x: nat :: x in order + [t] <==> x in order || x == t
  {
  }

  lemma StepOrdered(f: Free<TestRun>, order: seq<nat>, t: nat)
    requires Exclusive(f) && t in f.running && Ordered(f, order)
    ensures var f' := FreeStep(TEST, f, t);
            && |f'.world.pc| == 3
            && Ordered(f', order + if f.world.owner == Nobody && f'.world.owner == Thread(t) then [t] else [])
  {
    StepExclusive(f, t);
    if f.world.owner == Nobody && f.world.pc[t] == 0 {
      DistinctSnoc(order, t);
    } else {
      assert order + [] == order;
    }
  }

  lemma {:induction false} AlwaysOrdered(u: Word)
    requires Interleaving(TEST, u)
    ensures Exclusive(FreeAfter(TEST, u)) && Ordered(FreeAfter(TEST, u), LockOrder(u))
    decreases |u|
  {
    ReachableValid(u);
    if u != [] {
      var v, t := u[..|u| - 1], u[|u| - 1];
      AlwaysOrdered(v);
      StepOrdered(FreeAfter(TEST, v), LockOrder(v), t);
    }
  }

  ghost function Members(order: seq<nat>): (s: set<nat>)
    ensures forall t: nat :: t in s <==> t in order
  {
    if order == [] then {}
    else
      assert order == order[..|order| - 1] + [order[|order| - 1]];
      Members(order[..|order| - 1]) + {order[|order| - 1]}
  }

  lemma {:induction false} DistinctSize(order: seq<nat>)
    requires Distinct(order)
    ensures |Members(order)| == |order|
  {
    if order != [] {
      DistinctSize(order[..|order| - 1]);
      assert order[|order| - 1] !in order[..|order| - 1];
    }
  }

  lemma ThreeMembers(s: set<nat>)
    requires forall t: nat :: t in s <==> t < 3
    ensures |s| == 3
  {
    assert s == {0, 1, 2};
  }

  lemma ThreeThreads(order: seq<nat>)
    requires Distinct(order) && forall t: nat :: t in order <==> t < 3
    ensures |order| == 3
  {
    DistinctSize(order);
    ThreeMembers(Members(order));
  }

  lemma ValueOfSnoc(order: seq<nat>, t: nat)
    ensures ValueOf(order + [t]) == if t == 0 then ValueOf(order) + 7
                                    else if t == 1 then 3 * ValueOf(order)
                                    else ValueOf(order) % 5
  {
    assert (order + [t])[..|order|] == order;
  }

  /** The results of the six orders. */
  predicate ResultOf(order: seq<nat>, x: nat) {
    && (order == [0, 1, 2] ==> x == 4)
    && (order == [0, 2, 1] ==> x == 9)
    && (order == [1, 0, 2] ==> x == 0)
    && (order == [1, 2, 0] ==> x == 10)
    && (order == [2, 0, 1] ==> x == 24)
    && (order == [2, 1, 0] ==> x == 10)
  }

  lemma ValueOfThree(order: seq<nat>, a: nat, b: nat, c: nat)
    requires order == [a, b, c]
    ensures ResultOf(order, ValueOf(order))
  {
    var o: seq<nat> := [];
    ValueOfSnoc(o, a);
    ValueOfSnoc(o + [a], b);
    ValueOfSnoc(o + [a] + [b], c);
    assert order == o + [a] + [b] + [c];
  }

  /** In every complete interleaving each thread locks the mutex once, and the order in which they do decides the
      result. */
  lemma ValueByOrder(u: Word)
    requires CompleteInterleaving(TEST, u)
    ensures var o := LockOrder(u);
            && |o| == 3 && Distinct(o) && (forall t: nat :: t in o <==> t < 3)
            && FreeAfter(TEST, u).world.x == ValueOf(o) && ResultOf(o, FreeAfter(TEST, u).world.x)
  {
    AlwaysOrdered(u);
    EverybodyLeft(FreeAfter(TEST, u));
    var o := LockOrder(u);
    ThreeThreads(o);
    ValueOfThree(o, o[0], o[1], o[2]);
  }

  lemma EverybodyLeft(f: Free<TestRun>)
    requires Exclusive(f)
    ensures f.running == {} <==> forall t | 0 <= t < 3 :: f.world.pc[t] == 4
  {
  }

  lemma NextSegment(u: Word, t: nat, s: TestRun)
    requires Interleaving(TEST, u) && FreeAfter(TEST, u).world == s && t < 3 && |s.pc| == 3 && s.pc[t] < 4
    ensures Interleaving(TEST, u + [t]) && FreeAfter(TEST, u + [t]).world == Exec(s, t).0
    ensures LockOrder(u + [t]) ==
            LockOrder(u) + if s.owner == Nobody && Exec(s, t).0.owner == Thread(t) then [t] else []
  {
    ReachableValid(u);
    FreeSnoc(TEST, u, t);
    assert (u + [t])[..|u|] == u;
  }

  lemma AloneStates(s: TestRun, t: nat) returns (s1: TestRun, s2: TestRun, s3: TestRun, s4: TestRun)
    requires |s.pc| == 3 && t < 3 && s.owner == Nobody && s.pc[t] == 0
    ensures s1 == Exec(s, t).0 && s1.owner == Thread(t) && s1.pc == s.pc[t := 1]
    ensures s2 == Exec(s1, t).0 && s2.owner == Thread(t) && s2.pc == s.pc[t := 2]
    ensures s3 == Exec(s2, t).0 && s3.owner == Nobody && s3.pc == s.pc[t := 3]
    ensures s4 == Exec(s3, t).0 && s4.owner == Nobody && s4.pc == s.pc[t := 4]
  {
    s1 := Exec(s, t).0;
    s2 := Exec(s1, t).0;
    s3 := Exec(s2, t).0;
    s4 := Exec(s3, t).0;
  }

  lemma FourTimes(u: Word, t: nat)
    ensures u + [t] + [t] + [t] + [t] == u + [t, t, t, t]
  {
  }

  lemma TwoSegments(u: Word, t: nat, s: TestRun, s1: TestRun, s2: TestRun)
    requires Interleaving(TEST, u) && FreeAfter(TEST, u).world == s && t < 3
    requires |s.pc| == |s1.pc| == 3 && s.pc[t] < 4 && s1 == Exec(s, t).0 && s1.pc[t] < 4 && s2 == Exec(s1, t).0
    requires s1.owner == Thread(t) || s.owner != Nobody
    requires s1.owner != Nobody || s2.owner == Nobody
    ensures Interleaving(TEST, u + [t] + [t]) && FreeAfter(TEST, u + [t] + [t]).world == s2
    ensures LockOrder(u + [t] + [t]) == if s.owner == Nobody then LockOrder(u) + [t] else LockOrder(u)
  {
    NextSegment(u, t, s);
    NextSegment(u + [t], t, s1);
  }

  /** A thread that runs alone makes four steps: lock, change, unlock, leave. */
  lemma Alone(u: Word, t: nat, s: TestRun) returns (v: Word)
    requires Interleaving(TEST, u) && t < 3 && FreeAfter(TEST, u).world == s
    requires |s.pc| == 3 && s.owner == Nobody && s.pc[t] == 0
    ensures v == u + [t, t, t, t] && Interleaving(TEST, v) && LockOrder(v) == LockOrder(u) + [t]
    ensures FreeAfter(TEST, v).world.owner == Nobody && FreeAfter(TEST, v).world.pc == s.pc[t := 4]
  {
    var s1, s2, s3, s4 := AloneStates(s, t);
    TwoSegments(u, t, s, s1, s2);
    var u2 := u + [t] + [t];
    TwoSegments(u2, t, s2, s3, s4);
    FourTimes(u, t);
    v := u2 + [t] + [t];
  }

  lemma Beginning(u: Word)
    requires u == []
    ensures Interleaving(TEST, u) && LockOrder(u) == []
    ensures FreeAfter(TEST, u).world == TestRun(Nobody, 1, [0, 0, 0])
  {
  }

  lemma OneByOne(a: nat, b: nat, c: nat) returns (u: Word)
    requires a < 3 && b < 3 && c < 3 && a != b && b != c && a != c
    ensures u == [] + [a, a, a, a] + [b, b, b, b] + [c, c, c, c] && Interleaving(TEST, u)
    ensures LockOrder(u) == [] + [a] + [b] + [c]
    ensures FreeAfter(TEST, u).world.pc == [0, 0, 0][a := 4][b := 4][c := 4]
  {
    var s := TestRun(Nobody, 1, [0, 0, 0]);
    u := [];
    Beginning(u);
    u := Alone(u, a, s);
    s := FreeAfter(TEST, u).world;
    u := Alone(u, b, s);
    s := FreeAfter(TEST, u).world;
    u := Alone(u, c, s);
  }

  /** Every order of the threads occurs. */
  lemma InOrder(a: nat, b: nat, c: nat) returns (u: Word)
    requires a < 3 && b < 3 && c < 3 && a != b && b != c && a != c
    ensures u == [] + [a, a, a, a] + [b, b, b, b] + [c, c, c, c] && CompleteInterleaving(TEST, u)
    ensures LockOrder(u) == [a, b, c]
  {
    u := OneByOne(a, b, c);
    CompleteAtFour(u, a, b, c);
  }

  lemma CompleteAtFour(u: Word, a: nat, b: nat, c: nat)
    requires a < 3 && b < 3 && c < 3 && a != b && b != c && a != c
    requires Interleaving(TEST, u) && FreeAfter(TEST, u).world.pc == [0, 0, 0][a := 4][b := 4][c := 4]
    ensures CompleteInterleaving(TEST, u)
  {
    ReachableValid(u);
    AllFour([0, 0, 0], a, b, c);
    EverybodyLeft(FreeAfter(TEST, u));
  }

  lemma AllFour(pc: seq<nat>, a: nat, b: nat, c: nat)
    requires |pc| == 3 && a < 3 && b < 3 && c < 3 && a != b && b != c && a != c
    ensures var q := pc[a := 4][b := 4][c := 4]; q[0] == q[1] == q[2] == 4
  {
  }

  /** The results of the test program are exactly 0, 4, 9, 10 and 24. */
  lemma ResultsExact(x: nat)
    ensures (exists u :: CompleteInterleaving(TEST, u) && FreeAfter(TEST, u).world.x == x) <==> x in {0, 4, 9, 10, 24}
  {
    if u :| CompleteInterleaving(TEST, u) && FreeAfter(TEST, u).world.x == x {
      FinalValue(u);
    }
    if x in {0, 4, 9, 10, 24} {
      var a, b, c := if x == 0 || x == 10 then 1 else if x == 24 then 2 else 0,
                     if x == 4 then 1 else if x == 9 || x == 10 then 2 else 0,
                     if x == 10 then 0 else if x == 9 || x == 24 then 1 else 2;
      var u := InOrder(a, b, c);
      ValueByOrder(u);
    }
  }

  /** `tp.run()` of the test program: the search comes to its end and has seen every outcome. */
  method RunTest() returns (ended: seq<string>, ghost visited: seq<Word>)
    ensures EveryScheduleOnce(TEST, visited, ended) && ReportsAll(TEST, ended)
    ensures forall u | CompleteInterleaving(TEST, u) :: OutcomeSeen(visited, u)
  {
    TestBounded();
    forall w ensures !Deadlocked(TEST, w) {
      NoDeadlock(w);
    }
    var dead;
    ended, dead, visited := RunToEnd(TEST, ScheduleBound(12, 3));
    forall u | CompleteInterleaving(TEST, u) ensures OutcomeSeen(visited, u) {
      OutcomesSeen(visited, ended, u);
    }
  }
}
