/** The schedule tree of a program under test: what one step of one thread does to the bookkeeping
    of `Permutation`, which sequences of steps are legal, and their lexicographic order. */
module Schedules {
  import opened Sets

  // ---------- programs under test ----------

  /** The state that a thread passes to `Thread::pause` at the end of a step. The condition variable
      that `wait` and `notify_all` name travels with the outcome. */
  datatype Outcome =
    | Yielding
    | Blocking
    | BlockingWithProgress
    | Waiting(cv: nat)
    | NotifyAll(cv: nat)
    | Finished

  /** A deterministic program of `n` threads: `exec(s, t)` runs thread `t` from one checkpoint to the
      next. `init` is the state that `on_permutation_begin` restores. */
  datatype Program<!S> = Program(n: nat, init: S, exec: (S, nat) -> (S, Outcome))

  /** A schedule: the thread indices in the order in which they made a step. */
  type Word = seq<nat>

  /** The program state, the waiting sets of the condition variables and the four thread sets of
      `Permutation`. */
  datatype Sched<S> = Sched(world: S, cvs: map<nat, set<nat>>,
                            running: set<nat>, blocked: set<nat>, waiting: set<nat>, woken: set<nat>)

  function Waiters(cvs: map<nat, set<nat>>, cv: nat): set<nat> {
    if cv in cvs then cvs[cv] else {}
  }

  ghost function Start<S>(p: Program<S>): Sched<S> {
    Sched(p.init, map[], Indices(p.n), {}, {}, {})
  }

  /** The threads that may make the next step. */
  ghost function Enabled<S>(s: Sched<S>): set<nat> {
    s.running - s.blocked
  }

  /** `m_blocked_threads |= m_waiting_threads`, the end of every step. */
  ghost function Settle<S>(s: Sched<S>): Sched<S> {
    s.(blocked := s.blocked + s.waiting)
  }

  ghost function Step<S>(p: Program<S>, s: Sched<S>, t: nat): Sched<S> {
    var (world, o) := p.exec(s.world, t);
    var s := s.(world := world);
    Settle(
      match o
      case Yielding => s.(blocked := {})
      case Blocking => s.(blocked := s.blocked + {t})
      case BlockingWithProgress => s.(blocked := {t})
      case Waiting(cv) =>
        s.(cvs := s.cvs[cv := Waiters(s.cvs, cv) + {t}], blocked := {}, waiting := s.waiting + {t})
      case NotifyAll(cv) =>
        if Waiters(s.cvs, cv) == {} then s
        else s.(cvs := s.cvs[cv := {}], waiting := s.waiting - Waiters(s.cvs, cv))
      case Finished => s.(running := s.running - {t}, blocked := {}))
  }

  /** The state after the steps of `w`. */
  ghost function After<S>(p: Program<S>, w: Word): Sched<S> {
    AfterFirst(p, w, |w|)
  }

  /** The state after the first `k` steps of `w`. */
  ghost function AfterFirst<S>(p: Program<S>, w: Word, k: nat): Sched<S>
    requires k <= |w|
  {
    if k == 0 then Start(p) else Step(p, AfterFirst(p, w, k - 1), w[k - 1])
  }

  /** Every step of `w` runs a thread that is running and not blocked. */
  ghost predicate Legal<S>(p: Program<S>, w: Word) {
    forall i | 0 <= i < |w| :: w[i] in Enabled(After(p, w[..i]))
  }

  /** A leaf of the tree: no thread can make a step any more. */
  ghost predicate Maximal<S>(p: Program<S>, w: Word) {
    Legal(p, w) && Enabled(After(p, w)) == {}
  }

  /** All threads finished. */
  ghost predicate Complete<S>(p: Program<S>, w: Word) {
    Legal(p, w) && After(p, w).running == {}
  }

  /** Every thread that is still running is blocked. */
  ghost predicate Deadlocked<S>(p: Program<S>, w: Word) {
    Maximal(p, w) && After(p, w).running != {}
  }

  ghost predicate Bounded<S>(p: Program<S>, bound: nat) {
    forall w | Legal(p, w) :: |w| <= bound
  }

  // ---------- the lexicographic order ----------

  predicate BeforeAt(a: Word, b: Word, i: nat) {
    i < |a| && i < |b| && a[..i] == b[..i] && a[i] < b[i]
  }

  ghost predicate Before(a: Word, b: Word) {
    exists i: nat :: BeforeAt(a, b, i)
  }

  lemma BeforeTransitive(a: Word, b: Word, c: Word)
    requires Before(a, b) && Before(b, c)
    ensures Before(a, c)
  {
    var i: nat :| BeforeAt(a, b, i);
    var j: nat :| BeforeAt(b, c, j);
    var k := if i < j then i else j;
    assert a[..k] == a[..i][..k] == b[..i][..k] == b[..k] == b[..j][..k] == c[..j][..k] == c[..k];
    if i < j {
      assert b[i] == b[..j][i] == c[..j][i] == c[i];
    } else if j < i {
      assert a[j] == a[..i][j] == b[..i][j] == b[j];
    }
    assert BeforeAt(a, c, k);
  }

  lemma BeforeAsymmetric(a: Word, b: Word)
    requires Before(a, b)
    ensures !Before(b, a) && a != b
  {
    if Before(b, a) {
      BeforeTransitive(a, b, a);
    }
    NotBeforeItself(a);
  }

  lemma NotBeforeItself(a: Word)
    ensures !Before(a, a)
  {
  }

  lemma WordsComparable(a: Word, b: Word)
    ensures a <= b || b <= a || Before(a, b) || Before(b, a)
  {
    var i: nat := 0;
    while i < |a| && i < |b| && a[i] == b[i]
      invariant i <= |a| && i <= |b| && a[..i] == b[..i]
    {
      assert a[..i + 1] == a[..i] + [a[i]] && b[..i + 1] == b[..i] + [b[i]];
      i := i + 1;
    }
    if i == |a| {
      assert a <= b;
    } else if i == |b| {
      assert b <= a;
    } else {
      assert BeforeAt(a, b, i) || BeforeAt(b, a, i);
    }
  }

  lemma WithinPrefix(w: Word, a: Word, b: Word, i: nat)
    requires w <= a && w <= b && i < |w|
    ensures a[i] == b[i]
  {
  }

  lemma BeforeBySplit(a: Word, b: Word, c: Word, i: nat, k: nat)
    requires BeforeAt(a, b, i) && i < k <= |a| && k <= |c| && a[..k] == c[..k]
    ensures Before(c, b)
  {
    assert c[..i] == c[..k][..i] == a[..k][..i] == a[..i];
    assert c[i] == c[..k][i] == a[..k][i] == a[i];
    assert BeforeAt(c, b, i);
  }

  // ---------- legal words ----------

  lemma {:induction false} AfterFirstSame<S>(p: Program<S>, w: Word, v: Word, k: nat)
    requires k <= |w| && k <= |v| && w[..k] == v[..k]
    ensures AfterFirst(p, w, k) == AfterFirst(p, v, k)
  {
    if k > 0 {
      assert w[..k - 1] == w[..k][..k - 1] == v[..k][..k - 1] == v[..k - 1];
      assert w[k - 1] == w[..k][k - 1] == v[..k][k - 1] == v[k - 1];
      AfterFirstSame(p, w, v, k - 1);
    }
  }

  lemma AfterSnoc<S>(p: Program<S>, w: Word, t: nat)
    ensures After(p, w + [t]) == Step(p, After(p, w), t)
  {
    assert (w + [t])[..|w|] == w[..|w|];
    AfterFirstSame(p, w + [t], w, |w|);
  }

  lemma WorldSnoc<S>(p: Program<S>, w: Word, t: nat)
    ensures After(p, w + [t]).world == p.exec(After(p, w).world, t).0
  {
    AfterSnoc(p, w, t);
  }

  lemma LegalSnoc<S>(p: Program<S>, w: Word, t: nat)
    requires Legal(p, w) && t in Enabled(After(p, w))
    ensures Legal(p, w + [t])
  {
    var v := w + [t];
    forall i | 0 <= i < |v| ensures v[i] in Enabled(After(p, v[..i])) {
      if i < |w| {
        assert v[..i] == w[..i];
      } else {
        assert v[..i] == w;
      }
    }
  }

  lemma LegalPrefix<S>(p: Program<S>, w: Word, k: nat)
    requires Legal(p, w) && k <= |w|
    ensures Legal(p, w[..k])
  {
    forall i | 0 <= i < k ensures w[..k][i] in Enabled(After(p, w[..k][..i])) {
      assert w[..k][..i] == w[..i];
    }
  }

  lemma LegalStep<S>(p: Program<S>, w: Word, k: nat)
    requires Legal(p, w) && k < |w|
    ensures w[k] in Enabled(After(p, w[..k]))
    ensures After(p, w[..k + 1]) == Step(p, After(p, w[..k]), w[k])
  {
    assert w[..k + 1] == w[..k] + [w[k]];
    AfterSnoc(p, w[..k], w[k]);
  }

  lemma LegalLast<S>(p: Program<S>, w: Word)
    requires Legal(p, w) && w != []
    ensures Legal(p, w[..|w| - 1]) && w[|w| - 1] in Enabled(After(p, w[..|w| - 1]))
    ensures After(p, w) == Step(p, After(p, w[..|w| - 1]), w[|w| - 1])
  {
    LegalPrefix(p, w, |w| - 1);
    LegalStep(p, w, |w| - 1);
    assert w[..|w|] == w;
  }

  lemma LegalSplit<S>(p: Program<S>, w: Word) returns (v: Word, t: nat)
    requires Legal(p, w) && w != []
    ensures w == v + [t] && Legal(p, v) && t in Enabled(After(p, v))
  {
    v, t := w[..|w| - 1], w[|w| - 1];
    LegalLast(p, w);
  }

  /** A step takes at most the stepping thread out of the running set; reading the step backwards puts
      it back. */
  lemma RunningBackward<S>(p: Program<S>, s: Sched<S>, t: nat)
    requires t in s.running
    ensures s.running == Step(p, s, t).running + {t}
  {
  }

  lemma {:induction false} RunningThreads<S>(p: Program<S>, w: Word)
    requires Legal(p, w)
    ensures After(p, w).running <= Indices(p.n)
  {
    if w != [] {
      var v, t := w[..|w| - 1], w[|w| - 1];
      LegalLast(p, w);
      RunningThreads(p, v);
      RunningBackward(p, After(p, v), t);
    }
  }

  lemma LegalThreads<S>(p: Program<S>, w: Word)
    requires Legal(p, w)
    ensures forall i | 0 <= i < |w| :: w[i] < p.n
  {
    forall i | 0 <= i < |w| ensures w[i] < p.n {
      LegalPrefix(p, w, i);
      LegalStep(p, w, i);
      RunningThreads(p, w[..i]);
    }
  }

  lemma LeafIsNoPrefix<S>(p: Program<S>, a: Word, b: Word)
    requires Maximal(p, a) && Legal(p, b) && a <= b
    ensures a == b
  {
    var n: nat := |a|;
    assert b[..n] == a;
    if n < |b| {
      LegalStep(p, b, n);
    }
  }

  /** A leaf is never a proper prefix of a legal word, so leaves are totally ordered. */
  lemma LeavesComparable<S>(p: Program<S>, a: Word, b: Word)
    requires Maximal(p, a) && Maximal(p, b)
    ensures a == b || Before(a, b) || Before(b, a)
  {
    WordsComparable(a, b);
    if a <= b {
      LeafIsNoPrefix(p, a, b);
    } else if b <= a {
      LeafIsNoPrefix(p, b, a);
    }
  }

  predicate SameUpTo(a: Word, b: Word, i: nat) {
    i < |a| && i < |b| && a[..i] == b[..i]
  }

  lemma SplitPoint<S>(p: Program<S>, a: Word, b: Word, i: nat)
    requires Legal(p, a) && Legal(p, b) && SameUpTo(a, b, i)
    ensures a[i] in Enabled(After(p, a[..i])) && b[i] in Enabled(After(p, a[..i]))
  {
    LegalStep(p, a, i);
    LegalStep(p, b, i);
  }

  // ---------- leftmost completions ----------

  ghost predicate LeftFrom<S>(p: Program<S>, w: Word, k: nat) {
    forall i | k <= i < |w| :: IsLeast(w[i], Enabled(After(p, w[..i])))
  }

  /** `v` continues `w` by always running the lowest thread that may run. */
  ghost predicate Follows<S>(p: Program<S>, w: Word, v: Word) {
    w <= v && Legal(p, v) && LeftFrom(p, v, |w|)
  }

  /** `f` is the leaf that is reached from `w` by always running the lowest thread that may run. */
  ghost predicate IsLeftmost<S>(p: Program<S>, w: Word, f: Word) {
    Follows(p, w, f) && Maximal(p, f)
  }

  lemma FollowsSnoc<S>(p: Program<S>, w: Word, v: Word, t: nat)
    requires Follows(p, w, v) && IsLeast(t, Enabled(After(p, v)))
    ensures Follows(p, w, v + [t])
  {
    LegalSnoc(p, v, t);
    var u := v + [t];
    forall i | |w| <= i < |u| ensures IsLeast(u[i], Enabled(After(p, u[..i]))) {
      assert u[..i] == if i < |v| then v[..i] else v;
    }
  }

  lemma BoundedLength<S>(p: Program<S>, bound: nat, w: Word)
    requires Bounded(p, bound) && Legal(p, w)
    ensures |w| <= bound
  {
  }

  /** When schedules are bounded, every node of the tree has a leaf below it. */
  lemma {:induction false} LeftmostExists<S>(p: Program<S>, w: Word, v: Word, bound: nat) returns (f: Word)
    requires Bounded(p, bound) && Follows(p, w, v)
    ensures IsLeftmost(p, w, f)
    decreases bound - |v|
  {
    BoundedLength(p, bound, v);
    if Enabled(After(p, v)) == {} {
      f := v;
    } else {
      var t := Least(Enabled(After(p, v)));
      FollowsSnoc(p, w, v, t);
      BoundedLength(p, bound, v + [t]);
      f := LeftmostExists(p, w, v + [t], bound);
    }
  }

  lemma LeftIsLowest<S>(p: Program<S>, k: nat, f: Word, g: Word, i: nat)
    requires Legal(p, f) && Legal(p, g) && LeftFrom(p, f, k) && SameUpTo(f, g, i) && k <= i
    ensures f[i] <= g[i]
  {
    SplitPoint(p, f, g, i);
    assert IsLeast(f[i], Enabled(After(p, f[..i])));
  }

  /** Among the leaves below `w`, the leftmost one comes first. */
  lemma LeftmostIsFirst<S>(p: Program<S>, w: Word, f: Word, g: Word)
    requires IsLeftmost(p, w, f) && Maximal(p, g) && w <= g
    ensures g == f || Before(f, g)
  {
    var n: nat := |w|;
    LeavesComparable(p, f, g);
    if Before(g, f) {
      var i: nat :| BeforeAt(g, f, i);
      if i < n {
        WithinPrefix(w, f, g, i);
      } else {
        LeftIsLowest(p, n, f, g, i);
      }
    }
  }

  lemma LeftmostIsUnique<S>(p: Program<S>, w: Word, f: Word, g: Word)
    requires IsLeftmost(p, w, f) && IsLeftmost(p, w, g)
    ensures f == g
  {
    LeftmostIsFirst(p, w, f, g);
    LeftmostIsFirst(p, w, g, f);
    if Before(f, g) {
      BeforeAsymmetric(f, g);
    }
  }

  // ---------- the search order ----------

  /** The leaves that a search with the given limit looks at: from step `limit` on, only the lowest
      thread that may run is tried. */
  ghost predicate Allowed<S>(p: Program<S>, limit: nat, w: Word) {
    Maximal(p, w) && LeftFrom(p, w, limit)
  }

  /** No thread with a higher index could have made step `i` of `w`. */
  ghost predicate LastChoice<S>(p: Program<S>, w: Word, i: nat)
    requires i < |w|
  {
    forall u | u in Enabled(After(p, w[..i])) :: u <= w[i]
  }

  ghost predicate NextHigher(u: nat, t: nat, s: set<nat>) {
    u in s && u > t && forall x | x in s && x > t :: u <= x
  }

  ghost predicate LastChoices<S>(p: Program<S>, w: Word, from: int, limit: nat) {
    forall i | 0 <= i < |w| && from <= i < limit :: LastChoice(p, w, i)
  }

  /** `v` is `w` up to step `k`, with step `k` given to the next higher thread that may run there, and
      no later step below the limit has a higher alternative. */
  ghost predicate AdvancedAt<S>(p: Program<S>, limit: nat, w: Word, v: Word, k: nat) {
    && k < |w| && k < limit && |v| == k + 1 && v[..k] == w[..k]
    && NextHigher(v[k], w[k], Enabled(After(p, w[..k])))
    && LastChoices(p, w, k + 1, limit)
  }

  /** `f` is the schedule that was played when `w` was recorded: past the end of `w` there was only one
      thread left to choose from. */
  ghost predicate RecordedBy<S>(p: Program<S>, w: Word, f: Word) {
    w <= f && Maximal(p, f) && forall i | |w| <= i < |f| :: |After(p, f[..i]).running| <= 1
  }

  lemma NoChoicePastTheEnd<S>(p: Program<S>, w: Word, f: Word, g: Word, i: nat)
    requires RecordedBy(p, w, f) && Legal(p, g) && SameUpTo(f, g, i) && |w| <= i
    ensures f[i] == g[i]
  {
    SplitPoint(p, f, g, i);
    SubsetSize({f[i], g[i]}, After(p, f[..i]).running);
  }

  /** Where an allowed leaf `g` that comes after `f` leaves `f`. */
  lemma LeavesAt<S>(p: Program<S>, limit: nat, w: Word, f: Word, g: Word) returns (i: nat)
    requires RecordedBy(p, w, f) && Allowed(p, limit, g) && Before(f, g)
    ensures BeforeAt(f, g, i) && i < |w| && i < limit && !LastChoice(p, w, i)
  {
    i :| BeforeAt(f, g, i);
    if limit <= i {
      LeftIsLowest(p, limit, g, f, i);
    } else if |w| <= i {
      NoChoicePastTheEnd(p, w, f, g, i);
    } else {
      SplitPoint(p, f, g, i);
      assert f[..i] == w[..i] && f[i] == w[i];
    }
  }

  /** Backtracking is exact: the leftmost leaf below the advanced prefix is the least allowed leaf
      after `f`. */
  lemma AdvancedIsSuccessor<S>(p: Program<S>, limit: nat, w: Word, f: Word, v: Word, k: nat, next: Word)
    requires RecordedBy(p, w, f) && AdvancedAt(p, limit, w, v, k) && IsLeftmost(p, v, next)
    ensures Before(f, next) && Allowed(p, limit, next)
    ensures forall g | Allowed(p, limit, g) && Before(f, g) :: g == next || Before(next, g)
  {
    SharedStart(w, f, v, next, k);
    assert BeforeAt(f, next, k);
    forall g | Allowed(p, limit, g) && Before(f, g) ensures g == next || Before(next, g) {
      AdvancedIsNext(p, limit, w, f, v, k, next, g);
    }
  }

  lemma AdvancedIsNext<S>(p: Program<S>, limit: nat, w: Word, f: Word, v: Word, k: nat, next: Word, g: Word)
    requires RecordedBy(p, w, f) && AdvancedAt(p, limit, w, v, k) && IsLeftmost(p, v, next)
    requires Allowed(p, limit, g) && Before(f, g)
    ensures g == next || Before(next, g)
  {
    var i := LeavesAt(p, limit, w, f, g);
    SharedStart(w, f, v, next, k);
    if i < k {
      BeforeBySplit(f, g, next, i, k);
    } else {
      SplitPoint(p, f, g, k);
      AdvancedIsNextAt(p, v, k, next, g);
    }
  }

  /** The case in which `g` leaves `f` at the very step that is advanced. */
  lemma AdvancedIsNextAt<S>(p: Program<S>, v: Word, k: nat, next: Word, g: Word)
    requires IsLeftmost(p, v, next) && Maximal(p, g)
    requires |v| == k + 1 && SameUpTo(v, g, k) && v[k] <= g[k]
    ensures g == next || Before(next, g)
  {
    if g[k] == v[k] {
      PrefixBySplit(v, g, k);
      LeftmostIsFirst(p, v, next, g);
    } else {
      SplitByPrefix(v, next, g, k);
    }
  }

  lemma SplitByPrefix(v: Word, next: Word, g: Word, k: nat)
    requires |v| == k + 1 && v <= next && SameUpTo(v, g, k) && v[k] < g[k]
    ensures Before(next, g)
  {
    assert next[..k] == v[..k];
    assert BeforeAt(next, g, k);
  }

  lemma SharedStart(w: Word, f: Word, v: Word, next: Word, k: nat)
    requires w <= f && v <= next && k < |w| && |v| == k + 1 && v[..k] == w[..k]
    ensures f[..k] == w[..k] == next[..k] && f[k] == w[k] && next[k] == v[k]
  {
    assert next[..k] == v[..k];
  }

  lemma PrefixBySplit(v: Word, g: Word, k: nat)
    requires |v| == k + 1 && k < |g| && v[..k] == g[..k] && v[k] == g[k]
    ensures v <= g
  {
    assert v == v[..k] + [v[k]] && g[..k + 1] == g[..k] + [g[k]];
  }

  lemma AdvancedIsLegal<S>(p: Program<S>, limit: nat, w: Word, f: Word, v: Word, k: nat)
    requires RecordedBy(p, w, f) && AdvancedAt(p, limit, w, v, k)
    ensures Legal(p, v)
  {
    LegalPrefix(p, f, k);
    assert f[..k] == w[..k];
    LegalSnoc(p, w[..k], v[k]);
    assert v == w[..k] + [v[k]];
  }

  /** When no step below the limit has a higher alternative, nothing allowed is left. */
  lemma NothingLeft<S>(p: Program<S>, limit: nat, w: Word, f: Word)
    requires RecordedBy(p, w, f) && LastChoices(p, w, 0, limit)
    ensures forall g | Allowed(p, limit, g) :: !Before(f, g)
  {
    forall g | Allowed(p, limit, g) ensures !Before(f, g) {
      if Before(f, g) {
        var i := LeavesAt(p, limit, w, f, g);
      }
    }
  }

  // ---------- what holds in every reachable state ----------

  predicate WaitsOn(cvs: map<nat, set<nat>>, t: nat, cv: nat) {
    t in Waiters(cvs, cv)
  }

  /** `waiting` is the disjoint union of the waiting sets of the condition variables. */
  ghost predicate IsUnionOf(waiting: set<nat>, cvs: map<nat, set<nat>>) {
    && (forall cv, t | WaitsOn(cvs, t, cv) :: t in waiting)
    && (forall t | t in waiting :: exists cv :: WaitsOn(cvs, t, cv))
    && (forall cv, cv', t | WaitsOn(cvs, t, cv) && WaitsOn(cvs, t, cv') :: cv == cv')
  }

  /** Waiting threads are blocked, blocked threads are running, and nobody is woken. */
  ghost predicate Disciplined<S>(s: Sched<S>) {
    s.waiting <= s.blocked <= s.running && s.woken == {} && IsUnionOf(s.waiting, s.cvs)
  }

  lemma UnionAfterWait(waiting: set<nat>, cvs: map<nat, set<nat>>, t: nat, cv: nat)
    requires IsUnionOf(waiting, cvs) && t !in waiting
    ensures IsUnionOf(waiting + {t}, cvs[cv := Waiters(cvs, cv) + {t}])
  {
    var cvs' := cvs[cv := Waiters(cvs, cv) + {t}];
    assert WaitsOn(cvs', t, cv);
    forall u, c ensures WaitsOn(cvs', u, c) <==> WaitsOn(cvs, u, c) || (u == t && c == cv) {
    }
    forall u | u in waiting ensures exists c :: WaitsOn(cvs', u, c) {
      var c :| WaitsOn(cvs, u, c);
      assert WaitsOn(cvs', u, c);
    }
  }

  lemma UnionAfterNotifyAll(waiting: set<nat>, cvs: map<nat, set<nat>>, cv: nat)
    requires IsUnionOf(waiting, cvs)
    ensures IsUnionOf(waiting - Waiters(cvs, cv), cvs[cv := {}])
  {
    var cvs' := cvs[cv := {}];
    forall u, c ensures WaitsOn(cvs', u, c) <==> WaitsOn(cvs, u, c) && c != cv {
    }
    forall u, c | WaitsOn(cvs', u, c) ensures u in waiting - Waiters(cvs, cv) {
      assert WaitsOn(cvs, u, cv) <==> u in Waiters(cvs, cv);
    }
    forall u | u in waiting - Waiters(cvs, cv) ensures exists c :: WaitsOn(cvs', u, c) {
      var c :| WaitsOn(cvs, u, c);
      assert WaitsOn(cvs', u, c);
    }
  }

  lemma StepDisciplined<S>(p: Program<S>, s: Sched<S>, t: nat)
    requires Disciplined(s) && t in Enabled(s)
    ensures Disciplined(Step(p, s, t))
  {
    match p.exec(s.world, t).1
    case Waiting(cv) => UnionAfterWait(s.waiting, s.cvs, t, cv);
    case NotifyAll(cv) => UnionAfterNotifyAll(s.waiting, s.cvs, cv);
    case _ =>
  }

  lemma {:induction false} ReachableDisciplined<S>(p: Program<S>, w: Word)
    requires Legal(p, w)
    ensures Disciplined(After(p, w))
  {
    if w == [] {
      assert IsUnionOf({}, map[]);
    } else {
      LegalLast(p, w);
      ReachableDisciplined(p, w[..|w| - 1]);
      StepDisciplined(p, After(p, w[..|w| - 1]), w[|w| - 1]);
    }
  }
}
