/** Facts about finite sets of thread indices. */
module Sets {

  /** The indices 0, 1, .., n-1. */
  ghost function Indices(n: nat): (s: set<nat>)
    ensures forall i: nat :: i in s <==> i < n
    ensures |s| == n
  {
    if n == 0 then {} else Indices(n - 1) + {n - 1}
  }

  ghost predicate IsLeast(t: nat, s: set<nat>) {
    t in s && forall u | u in s :: t <= u
  }

  ghost function Least(s: set<nat>): (t: nat)
    requires s != {}
    ensures IsLeast(t, s)
    decreases s
  {
    var x :| x in s;
    var lower := set y | y in s && y < x;
    assert forall y | y in s :: y in lower || x <= y;
    if lower == {} then x else Least(lower)
  }

  lemma {:induction false} SubsetSize<T>(a: set<T>, b: set<T>)
    requires a <= b
    ensures |a| <= |b|
    ensures |a| == |b| ==> a == b
  {
    if a != {} {
      var x :| x in a;
      SubsetSize(a - {x}, b - {x});
    }
  }
}
