/** `ThreadPermuter::run`: the outer loop that plays one permutation after the other. */
module ThreadPermuters {
  import opened Sets
  import opened BitSets
  import opened Schedules
  import opened Permutations

  // ---------- the words that bound the search ----------

  ghost function AllWords(n: nat, length: nat): (s: set<Word>)
  {
    if length == 0 then {[]}
    else {[]} + set t, w | t in Indices(n) && w in AllWords(n, length - 1) :: [t] + w
  }

  lemma {:induction false} InAllWords(n: nat, length: nat, w: Word)
    requires |w| <= length && forall i | 0 <= i < |w| :: w[i] < n
    ensures w in AllWords(n, length)
  {
    if w != [] {
      InAllWords(n, length - 1, w[1..]);
      assert w == [w[0]] + w[1..];
    }
  }

  ghost function WordsAfter(n: nat, length: nat, f: Word): set<Word> {
    set w | w in AllWords(n, length) && Before(f, w)
  }

  lemma WordsAfterShrink(n: nat, length: nat, f: Word, g: Word)
    requires g in AllWords(n, length) && Before(f, g)
    ensures WordsAfter(n, length, g) < WordsAfter(n, length, f)
  {
    forall w | w in WordsAfter(n, length, g) ensures w in WordsAfter(n, length, f) {
      BeforeTransitive(f, g, w);
    }
    NotBeforeItself(g);
    assert g in WordsAfter(n, length, f) && g !in WordsAfter(n, length, g);
  }

  lemma WordsAfterFirst(n: nat, length: nat, g: Word)
    requires g in AllWords(n, length)
    ensures WordsAfter(n, length, g) < AllWords(n, length)
  {
    NotBeforeItself(g);
    assert g !in WordsAfter(n, length, g);
  }

  // ---------- what a run has looked at ----------

  ghost predicate Increasing(visited: seq<Word>) {
    forall i, j | 0 <= i < j < |visited| :: Before(visited[i], visited[j])
  }

  function Last(visited: seq<Word>): Word
    requires visited != []
  {
    visited[|visited| - 1]
  }

  /** `visited` starts at the leftmost leaf below `start` and lists, in strictly increasing order, every
      allowed leaf from there up to its last element. */
  ghost predicate Explored<S>(p: Program<S>, limit: nat, start: Word, visited: seq<Word>) {
    && visited != [] && IsLeftmost(p, start, visited[0]) && Increasing(visited)
    && (forall i | 1 <= i < |visited| :: Allowed(p, limit, visited[i]))
    && (forall g | Allowed(p, limit, g) && Before(visited[0], g) :: g in visited || Before(Last(visited), g))
  }

  ghost predicate NothingAfter<S>(p: Program<S>, limit: nat, f: Word) {
    forall g | Allowed(p, limit, g) :: !Before(f, g)
  }

  lemma ExploredExtend<S>(p: Program<S>, limit: nat, start: Word, visited: seq<Word>, next: Word)
    requires Explored(p, limit, start, visited)
    requires Before(Last(visited), next) && Allowed(p, limit, next)
    requires forall g | Allowed(p, limit, g) && Before(Last(visited), g) :: g == next || Before(next, g)
    ensures Explored(p, limit, start, visited + [next])
  {
    var v := visited + [next];
    forall i, j | 0 <= i < j < |v| ensures Before(v[i], v[j]) {
      if j == |visited| && i < |visited| - 1 {
        BeforeTransitive(v[i], Last(visited), next);
      }
    }
    forall g | Allowed(p, limit, g) && Before(v[0], g) ensures g in v || Before(Last(v), g) {
      if g in visited {
        var i :| 0 <= i < |visited| && visited[i] == g;
        assert v[i] == g;
      } else if g == next {
        assert v[|visited|] == g;
      }
    }
  }

  // ---------- the runner ----------

  /** What the next call of `play` will run: the start of the search, or the prefix that `next` made out
      of the steps `w` recorded for the last schedule. */
  ghost predicate Pending<S>(p: Program<S>, limit: nat, start: Word, visited: seq<Word>, steps: Word,
                             w: Word, k: nat) {
    if visited == [] then steps == start
    else Explored(p, limit, start, visited) && RecordedBy(p, w, Last(visited)) && AdvancedAt(p, limit, w, steps, k)
  }

  lemma FirstVisited<S>(p: Program<S>, limit: nat, start: Word, f: Word)
    requires IsLeftmost(p, start, f)
    ensures Explored(p, limit, start, [f])
  {
    assert Last([f]) == f;
  }

  lemma PendingVisited<S>(p: Program<S>, limit: nat, start: Word, visited: seq<Word>, steps: Word,
                          w: Word, k: nat, f: Word)
    requires Pending(p, limit, start, visited, steps, w, k) && IsLeftmost(p, steps, f)
    ensures Explored(p, limit, start, visited + [f])
    ensures visited != [] ==> Before(Last(visited), f)
  {
    if visited == [] {
      FirstVisited(p, limit, start, f);
      assert visited + [f] == [f];
    } else {
      AdvancedIsSuccessor(p, limit, w, Last(visited), steps, k, f);
      ExploredExtend(p, limit, start, visited, f);
    }
  }

  /** Words that the search has not come to yet. */
  ghost function Remaining(n: nat, bound: nat, visited: seq<Word>): set<Word> {
    if visited == [] then AllWords(n, bound) else WordsAfter(n, bound, Last(visited))
  }

  lemma RemainingShrinks<S>(p: Program<S>, bound: nat, visited: seq<Word>, f: Word)
    requires Bounded(p, bound) && Legal(p, f)
    requires visited != [] ==> Before(Last(visited), f)
    ensures Remaining(p.n, bound, visited + [f]) < Remaining(p.n, bound, visited)
  {
    LegalThreads(p, f);
    BoundedLength(p, bound, f);
    InAllWords(p.n, bound, f);
    assert Last(visited + [f]) == f;
    if visited == [] {
      WordsAfterFirst(p.n, bound, f);
    } else {
      WordsAfterShrink(p.n, bound, Last(visited), f);
    }
  }

  ghost predicate AllEncodable(visited: seq<Word>) {
    forall i | 0 <= i < |visited| :: Encodable(visited[i])
  }

  /** The permutation strings of the visited schedules. */
  ghost function Strings(visited: seq<Word>): seq<string>
    requires AllEncodable(visited)
  {
    seq(|visited|, i requires 0 <= i < |visited| => Encode(visited[i]))
  }

  lemma StringsSnoc(visited: seq<Word>, f: Word)
    requires AllEncodable(visited) && Encodable(f)
    ensures AllEncodable(visited + [f]) && Strings(visited + [f]) == Strings(visited) + [Encode(f)]
    ensures Last(visited + [f]) == f && (visited + [f])[..|visited|] == visited
  {
  }

  /** Every schedule that was played to its end was complete and its string was reported; a deadlocked one
      comes last and was not reported. */
  ghost predicate Reported<S>(p: Program<S>, dead: bool, visited: seq<Word>, reports: seq<string>) {
    && AllEncodable(visited)
    && (dead ==> visited != [])
    && (forall i | 0 <= i < |visited| - (if dead then 1 else 0) :: Complete(p, visited[i]))
    && (dead ==> Deadlocked(p, Last(visited)))
    && reports == Strings(if dead then visited[..|visited| - 1] else visited)
  }

  lemma ReportedSnoc<S>(p: Program<S>, dead: bool, visited: seq<Word>, reports: seq<string>, f: Word)
    requires Reported(p, false, visited, reports) && Encodable(f)
    requires if dead then Deadlocked(p, f) else Complete(p, f)
    ensures Reported(p, dead, visited + [f], reports + if dead then [] else [Encode(f)])
  {
    StringsSnoc(visited, f);
    var v := visited + [f];
    forall i | 0 <= i < |v| - (if dead then 1 else 0) ensures Complete(p, v[i]) {
      assert i < |visited| ==> v[i] == visited[i];
    }
  }

  const INT_MAX: nat := 0x7FFF_FFFF

  class ThreadPermuter<S> {
    const p: Program<S>
    var limit: nat
    var permutationString: string

    constructor (p: Program<S>)
      ensures this.p == p && limit == INT_MAX
    {
      this.p := p;
      limit := INT_MAX;
      permutationString := "";
    }

    method SetLimit(limit: nat)
      modifies `limit
      ensures this.limit == limit
    {
      this.limit := limit;
    }

    /** Runs the permutations from the programmed prefix on. `ended` are the strings that were passed to
        `on_permutation_end`, `visited` the schedules that were run; if the last one deadlocked
        (`dead`), the process ended there. */
    method Run(single: string, continueRunning: bool, ghost bound: nat)
      returns (ended: seq<string>, dead: bool, ghost visited: seq<Word>)
      requires p.n < WIDTH && Bounded(p, bound)
      requires Decodable(single) && Legal(p, Decode(single))
      modifies `permutationString
      ensures Explored(p, limit, Decode(single), visited)
      ensures Reported(p, dead, visited, ended)
      ensures !dead && (single == "" || continueRunning) ==> NothingAfter(p, limit, Last(visited))
      ensures single != "" && !continueRunning ==> |visited| == 1
    {
      var threads := new TestThreads(p);
      var permutation := new Permutation(threads);
      if single != "" {
        permutation.Program(single);
      }
      assert permutation.steps == Decode(single);
      if single == "" || continueRunning {
        ended, dead, visited := RunAll(permutation, bound);
      } else {
        ghost var f;
        ended, dead, f := PlayOne(permutation, [], [], bound);
        visited := [f];
        assert [] + [f] == [f];
        FirstVisited(p, limit, Decode(single), f);
      }
    }

    /** One turn of the loop, up to and including `on_permutation_end`. */
    method PlayOne(permutation: Permutation<S>, ended: seq<string>, ghost visited: seq<Word>, ghost bound: nat)
      returns (ended': seq<string>, dead: bool, ghost f: Word)
      requires p.n < WIDTH && Bounded(p, bound) && permutation.threads.p == p
      requires Legal(p, permutation.steps)
      requires permutation.Recorded() || permutation.blocked == permutation.waiting == permutation.woken == []
      requires Reported(p, false, visited, ended)
      modifies permutation, permutation.threads, `permutationString
      ensures IsLeftmost(p, old(permutation.steps), f)
      ensures Encodable(f) && permutationString == Encode(f)
      ensures !dead ==> permutation.Recorded() && permutation.RunCompleted(f)
      ensures Reported(p, dead, visited + [f], ended')
    {
      permutation.threads.Begin();
      permutationString := "";
      permutationString, dead, f := permutation.Play(permutationString, true, bound);
      ended' := ended + if dead then [] else [permutationString];
      ReportedSnoc(p, dead, visited, ended, f);
    }

    /** The endless loop. */
    method RunAll(permutation: Permutation<S>, ghost bound: nat)
      returns (ended: seq<string>, dead: bool, ghost visited: seq<Word>)
      requires p.n < WIDTH && Bounded(p, bound) && permutation.threads.p == p
      requires Legal(p, permutation.steps)
      requires permutation.blocked == permutation.waiting == permutation.woken == []
      modifies permutation, permutation.threads, `permutationString
      ensures Explored(p, limit, old(permutation.steps), visited)
      ensures Reported(p, dead, visited, ended)
      ensures !dead ==> NothingAfter(p, limit, Last(visited))
    {
      ghost var start := permutation.steps;
      ghost var w, k := [], 0;
      var more := true;
      ended, dead, visited := [], false, [];
      while more
        invariant more ==> !dead && AtTurn(permutation, start, visited, w, k)
        invariant !more ==> Explored(p, limit, start, visited)
        invariant !more && !dead ==> NothingAfter(p, limit, Last(visited))
        invariant Reported(p, dead, visited, ended)
        decreases more, Remaining(p.n, bound, visited)
      {
        ended, dead, more, visited, w, k := Turn(permutation, ended, start, visited, w, k, bound);
      }
    }

    /** One turn of the loop: play, and advance to the next permutation, if any. */
    method Turn(permutation: Permutation<S>, ended: seq<string>,
                ghost start: Word, ghost visited: seq<Word>, ghost w: Word, ghost k: nat, ghost bound: nat)
      returns (ended': seq<string>, dead: bool, more: bool,
               ghost visited': seq<Word>, ghost w': Word, ghost k': nat)
      requires p.n < WIDTH && Bounded(p, bound)
      requires AtTurn(permutation, start, visited, w, k) && Reported(p, false, visited, ended)
      modifies permutation, permutation.threads, `permutationString
      ensures Explored(p, limit, start, visited') && Reported(p, dead, visited', ended')
      ensures if more then !dead && AtTurn(permutation, start, visited', w', k')
              else !dead ==> NothingAfter(p, limit, Last(visited'))
      ensures Remaining(p.n, bound, visited') < Remaining(p.n, bound, visited)
    {
      ghost var steps := permutation.steps;
      ghost var f;
      ended', dead, f := PlayOne(permutation, ended, visited, bound);
      PendingVisited(p, limit, start, visited, steps, w, k, f);
      RemainingShrinks(p, bound, visited, f);
      visited', w', k', more := visited + [f], permutation.steps, 0, false;
      if !dead {
        more, k' := permutation.Next(limit);
        NextTurn(start, visited', w', permutation.steps, k', more);
      }
    }

    ghost predicate AtTurn(permutation: Permutation<S>, start: Word, visited: seq<Word>, w: Word, k: nat)
      reads this, permutation
    {
      && Pending(p, limit, start, visited, permutation.steps, w, k)
      && Legal(p, permutation.steps) && permutation.threads.p == p
      && (permutation.Recorded() || permutation.blocked == permutation.waiting == permutation.woken == [])
    }

    lemma NextTurn(start: Word, visited: seq<Word>, w: Word, steps: Word, k: nat, more: bool)
      requires Explored(p, limit, start, visited) && RecordedBy(p, w, Last(visited))
      requires if more then AdvancedAt(p, limit, w, steps, k) else LastChoices(p, w, 0, limit)
      ensures if more then Pending(p, limit, start, visited, steps, w, k)
              else NothingAfter(p, limit, Last(visited))
    {
      if !more {
        NothingLeft(p, limit, w, Last(visited));
      }
    }
  }
}
