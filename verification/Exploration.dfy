/** What a finished search has seen: consequences of `Explored` and `NothingAfter` for whole runs. */
module Exploration {
  import opened BitSets
  import opened Schedules
  import opened Permutations
  import opened ThreadPermuters

  /** No schedule is run twice. */
  lemma VisitedOnce(visited: seq<Word>, i: nat, j: nat)
    requires Increasing(visited) && i < j < |visited|
    ensures visited[i] != visited[j]
  {
    NotBeforeItself(visited[i]);
    assert Before(visited[i], visited[j]);
  }

  /** Resuming from a programmed prefix visits exactly its leftmost leaf and the allowed leaves after
      that one. */
  lemma ResumeExact<S>(p: Program<S>, limit: nat, start: Word, visited: seq<Word>)
    requires Explored(p, limit, start, visited) && NothingAfter(p, limit, Last(visited))
    ensures forall g :: g in visited <==> g == visited[0] || (Allowed(p, limit, g) && Before(visited[0], g))
  {
    forall g ensures g in visited <==> g == visited[0] || (Allowed(p, limit, g) && Before(visited[0], g)) {
      if g in visited {
        var i :| 0 <= i < |visited| && visited[i] == g;
        assert i > 0 ==> Before(visited[0], visited[i]);
      }
    }
  }

  lemma FirstIsAllowed<S>(p: Program<S>, limit: nat, f: Word, g: Word)
    requires IsLeftmost(p, [], f) && Maximal(p, g)
    ensures Allowed(p, limit, f) && (g == f || Before(f, g))
  {
    LeftmostIsFirst(p, [], f, g);
  }

  /** A search from the root that was not cut short by a deadlock visits every allowed leaf. */
  lemma LimitedExact<S>(p: Program<S>, limit: nat, visited: seq<Word>)
    requires Explored(p, limit, [], visited) && NothingAfter(p, limit, Last(visited))
    ensures forall g :: g in visited <==> Allowed(p, limit, g)
  {
    ResumeExact(p, limit, [], visited);
    forall g ensures g in visited <==> Allowed(p, limit, g) {
      if Maximal(p, g) {
        FirstIsAllowed(p, limit, visited[0], g);
      } else {
        FirstIsAllowed(p, limit, visited[0], visited[0]);
      }
    }
  }

  /** With a limit that no schedule reaches, every leaf is allowed. */
  lemma EveryLeafAllowed<S>(p: Program<S>, limit: nat, bound: nat, g: Word)
    requires Bounded(p, bound) && bound <= limit
    ensures Allowed(p, limit, g) <==> Maximal(p, g)
  {
    if Maximal(p, g) {
      BoundedLength(p, bound, g);
    }
  }

  /** The search is exhaustive and free of duplicates: it runs every complete schedule exactly once, in
      lexicographic order, and if it comes to its end there is no deadlock to be found. */
  lemma Exhaustive<S>(p: Program<S>, limit: nat, bound: nat, visited: seq<Word>, ended: seq<string>)
    requires Bounded(p, bound) && bound <= limit
    requires Explored(p, limit, [], visited) && NothingAfter(p, limit, Last(visited))
    requires Reported(p, false, visited, ended)
    ensures forall g :: g in visited <==> Complete(p, g)
    ensures forall g :: !Deadlocked(p, g)
    ensures Increasing(visited) && ended == Strings(visited)
  {
    LimitedExact(p, limit, visited);
    forall g ensures Maximal(p, g) <==> g in visited {
      EveryLeafAllowed(p, limit, bound, g);
    }
    forall g ensures g in visited <==> Complete(p, g) {
      if g in visited {
        var i :| 0 <= i < |visited| && visited[i] == g;
      } else if Complete(p, g) {
        assert Maximal(p, g);
      }
    }
  }

  /** The search stops at a deadlock exactly when one of the leaves that it may look at is deadlocked. */
  lemma DeadlockFound<S>(p: Program<S>, limit: nat, visited: seq<Word>, dead: bool, ended: seq<string>)
    requires Explored(p, limit, [], visited) && Reported(p, dead, visited, ended)
    requires !dead ==> NothingAfter(p, limit, Last(visited))
    ensures dead <==> exists g :: Allowed(p, limit, g) && Deadlocked(p, g)
  {
    if dead {
      var d := Last(visited);
      FirstIsAllowed(p, limit, visited[0], visited[0]);
      assert d == visited[|visited| - 1];
      assert Allowed(p, limit, d) && Deadlocked(p, d);
    } else {
      LimitedExact(p, limit, visited);
      forall g | Allowed(p, limit, g) ensures !Deadlocked(p, g) {
        var i :| 0 <= i < |visited| && visited[i] == g;
        assert Complete(p, visited[i]);
      }
    }
  }

  /** The deadlocked schedule that ends a search is the first one in lexicographic order. */
  lemma FirstDeadlock<S>(p: Program<S>, limit: nat, visited: seq<Word>, ended: seq<string>, g: Word)
    requires Explored(p, limit, [], visited) && Reported(p, true, visited, ended)
    requires Allowed(p, limit, g) && Deadlocked(p, g)
    ensures g == Last(visited) || Before(Last(visited), g)
  {
    FirstIsAllowed(p, limit, visited[0], g);
    if g in visited {
      var i :| 0 <= i < |visited| && visited[i] == g;
      assert i < |visited| - 1 ==> Complete(p, visited[i]);
    }
  }

  /** A limited search looks at exactly one leaf below each node at the depth of the limit. */
  lemma OneLeafPerNode<S>(p: Program<S>, limit: nat, bound: nat, v: Word) returns (g: Word)
    requires Bounded(p, bound) && Legal(p, v) && |v| == limit
    ensures Allowed(p, limit, g) && v <= g
    ensures forall h | Allowed(p, limit, h) && v <= h :: h == g
  {
    g := LeftmostExists(p, v, v, bound);
    forall h | Allowed(p, limit, h) && v <= h ensures h == g {
      LeftmostIsUnique(p, v, g, h);
    }
  }

  /** And besides those only at the leaves that are less deep, at all of them. */
  lemma AllowedByDepth<S>(p: Program<S>, limit: nat, g: Word)
    requires Maximal(p, g)
    ensures |g| <= limit ==> Allowed(p, limit, g)
    ensures |g| > limit ==> Legal(p, g[..limit]) && (Allowed(p, limit, g) <==> IsLeftmost(p, g[..limit], g))
  {
    if |g| > limit {
      LegalPrefix(p, g, limit);
    }
  }

  /** `next` is the least allowed leaf after `f`. */
  ghost predicate IsNextLeaf<S>(p: Program<S>, limit: nat, f: Word, next: Word) {
    && Allowed(p, limit, next) && Before(f, next)
    && forall g | Allowed(p, limit, g) && Before(f, g) :: g == next || Before(next, g)
  }

  /** `next` answers whether an allowed leaf is left, and if so leads to the least one. */
  lemma NextAnswers<S>(p: Program<S>, limit: nat, bound: nat, w: Word, f: Word, more: bool, v: Word, k: nat)
    requires Bounded(p, bound) && RecordedBy(p, w, f)
    requires if more then AdvancedAt(p, limit, w, v, k) else LastChoices(p, w, 0, limit)
    ensures more <==> exists g :: Allowed(p, limit, g) && Before(f, g)
    ensures more ==> exists next :: IsLeftmost(p, v, next) && IsNextLeaf(p, limit, f, next)
  {
    if more {
      AdvancedIsLegal(p, limit, w, f, v, k);
      var next := LeftmostExists(p, v, v, bound);
      AdvancedIsSuccessor(p, limit, w, f, v, k, next);
      assert IsNextLeaf(p, limit, f, next);
    } else {
      NothingLeft(p, limit, w, f);
    }
  }

  // ---------- what the caller gets to see ----------

  /** The permutation string of a complete schedule. */
  ghost predicate IsScheduleString<S>(p: Program<S>, s: string) {
    Decodable(s) && Encodable(Decode(s)) && Complete(p, Decode(s))
  }

  /** The strings are those of the complete schedules, each once and in lexicographic order. */
  ghost predicate ReportsAll<S>(p: Program<S>, ended: seq<string>) {
    && (forall i | 0 <= i < |ended| :: Decodable(ended[i]))
    && (forall s :: s in ended <==> IsScheduleString(p, s))
    && forall i, j | 0 <= i < j < |ended| :: Before(Decode(ended[i]), Decode(ended[j]))
  }

  ghost predicate EveryScheduleOnce<S>(p: Program<S>, visited: seq<Word>, ended: seq<string>) {
    && Increasing(visited) && (forall g :: g in visited <==> Complete(p, g))
    && AllEncodable(visited) && ended == Strings(visited)
  }

  lemma EncodeDecode(s: string)
    requires Decodable(s) && Encodable(Decode(s))
    ensures Encode(Decode(s)) == s
  {
    assert forall i | 0 <= i < |s| :: Encode(Decode(s))[i] == Digit(Decode(s)[i]) == s[i];
  }

  /** No two schedules share a string, so the strings say as much as the schedules. */
  lemma ReportsEverySchedule<S>(p: Program<S>, visited: seq<Word>, ended: seq<string>)
    requires EveryScheduleOnce(p, visited, ended)
    ensures ReportsAll(p, ended)
  {
    forall i | 0 <= i < |visited|
      ensures Decodable(ended[i]) && Decode(ended[i]) == visited[i]
    {
      DecodeEncode(visited[i]);
    }
    forall s ensures s in ended <==> IsScheduleString(p, s) {
      if s in ended {
        var i :| 0 <= i < |ended| && ended[i] == s;
        assert visited[i] in visited;
      }
      if IsScheduleString(p, s) {
        var i :| 0 <= i < |visited| && visited[i] == Decode(s);
        EncodeDecode(s);
        assert ended[i] == s;
      }
    }
  }

  /** A run with the default limit and no programmed prefix: it ends in a deadlock if and only if some
      schedule deadlocks, and otherwise it reports every complete schedule once, in order. */
  method RunToEnd<S>(p: Program<S>, ghost bound: nat)
    returns (ended: seq<string>, dead: bool, ghost visited: seq<Word>)
    requires p.n < WIDTH && Bounded(p, bound) && bound <= INT_MAX
    ensures dead <==> exists g :: Deadlocked(p, g)
    ensures !dead ==> EveryScheduleOnce(p, visited, ended) && ReportsAll(p, ended)
  {
    var tp := new ThreadPermuter(p);
    assert Decode("") == [];
    ended, dead, visited := tp.Run("", false, bound);
    RunVerdict(p, bound, ended, dead, visited);
    if !dead {
      ReportsEverySchedule(p, visited, ended);
    }
  }

  lemma RunVerdict<S>(p: Program<S>, bound: nat, ended: seq<string>, dead: bool, visited: seq<Word>)
    requires Bounded(p, bound) && bound <= INT_MAX
    requires Explored(p, INT_MAX, [], visited) && Reported(p, dead, visited, ended)
    requires !dead ==> NothingAfter(p, INT_MAX, Last(visited))
    ensures dead <==> exists g :: Deadlocked(p, g)
    ensures !dead ==> EveryScheduleOnce(p, visited, ended)
  {
    if dead {
      assert Deadlocked(p, Last(visited));
    } else {
      Exhaustive(p, INT_MAX, bound, visited, ended);
    }
  }
}
