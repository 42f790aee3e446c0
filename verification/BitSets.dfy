/** The operations on a 32-bit word that the thread sets are made of, each under a name, and what
    they do to one bit `p`. */
module BitWords {

  type Mask = bv32

  predicate Bit(m: Mask, p: Mask) { m & p != 0 }

  function Or(a: Mask, b: Mask): Mask { a | b }

  function And(a: Mask, b: Mask): Mask { a & b }

  function AndNot(a: Mask, b: Mask): Mask { a & !b }

  function ExclusiveOr(a: Mask, b: Mask): Mask { a ^ b }

  function LowerBits(p: Mask): Mask { p - 1 }

  predicate GreaterThan(a: Mask, b: Mask) { a > b }

  predicate IsPowerOfTwo(p: Mask) {
    p != 0 && p & (p - 1) == 0
  }

  lemma BitOr(a: Mask, b: Mask, p: Mask)
    requires IsPowerOfTwo(p)
    ensures Bit(Or(a, b), p) <==> Bit(a, p) || Bit(b, p)
  {
    assert (a | b) & p == (a & p) | (b & p);
    if a & p == 0 {
      assert (a & p) | (b & p) == b & p;
    }
  }

  lemma BitAnd(a: Mask, b: Mask, p: Mask)
    requires IsPowerOfTwo(p)
    ensures Bit(And(a, b), p) <==> Bit(a, p) && Bit(b, p)
  {
    assert (a & b) & p != 0 <==> a & p != 0 && b & p != 0;
  }

  lemma BitAndNot(a: Mask, b: Mask, p: Mask)
    requires IsPowerOfTwo(p)
    ensures Bit(AndNot(a, b), p) <==> Bit(a, p) && !Bit(b, p)
  {
    assert (a & !b) & p != 0 <==> a & p != 0 && b & p == 0;
  }

  lemma BitExclusiveOr(a: Mask, b: Mask, p: Mask)
    requires IsPowerOfTwo(p)
    ensures Bit(ExclusiveOr(a, b), p) <==> Bit(a, p) != Bit(b, p)
  {
    assert (a ^ b) & p != 0 <==> (a & p != 0) != (b & p != 0);
  }

  lemma DoublePower(p: Mask)
    requires IsPowerOfTwo(p) && p << 1 != 0
    ensures IsPowerOfTwo(p << 1) && p < p << 1
  {
  }

  lemma DistinctPowers(p: Mask, q: Mask)
    requires IsPowerOfTwo(p) && IsPowerOfTwo(q)
    ensures Bit(p, q) <==> p == q
  {
  }

  lemma BitLowerBits(p: Mask, q: Mask)
    requires IsPowerOfTwo(p) && IsPowerOfTwo(q)
    ensures Bit(LowerBits(p), q) <==> q < p
  {
  }

  lemma NoLowerBits(m: Mask, p: Mask)
    requires IsPowerOfTwo(p) && !Bit(m, LowerBits(p)) && !Bit(m, p)
    ensures !Bit(m, LowerBits(p << 1))
    ensures p == 0x8000_0000 ==> m == 0
  {
  }

  lemma HighBits(m: Mask, p: Mask)
    requires IsPowerOfTwo(p) && !Bit(m, p)
    ensures GreaterThan(m, p) <==> AndNot(m, LowerBits(p)) != 0
  {
  }

  lemma EqualWords(a: Mask, b: Mask)
    ensures ExclusiveOr(a, b) == 0 <==> a == b
  {
    if a ^ b == 0 {
      assert (a ^ b) ^ b == a;
      assert 0 ^ b == b;
    } else if a == b {
      assert a ^ a == 0;
    }
  }
}

/** A 32-bit thread set as `utils::BitSet<uint32_t>` stores it, together with the finite set of
    thread indices that it stands for. Each operation states its effect on that set, so that the
    users of this module can reason about sets while they compute on masks. */
module BitSets {
  import opened Sets
  import opened BitWords

  const WIDTH: nat := 32

  /** `mask_type{1} << i`, one shift at a time. */
  function Index2Mask(i: nat): (p: Mask)
  {
    if i == 0 then 1 else Index2Mask(i - 1) << 1
  }

  predicate Has(m: Mask, i: nat) {
    i < WIDTH && Bit(m, Index2Mask(i))
  }

  /** The set that a mask stands for, characterised through `Has`. */
  ghost function ToSet(m: Mask): (s: set<nat>)
    ensures IsSetOf(m, s)
    ensures forall i | i in s :: i < WIDTH
  {
    assert IsSetOf(m, set i: nat | i < WIDTH && Has(m, i));
    var s :| IsSetOf(m, s);
    assert forall i | i in s :: Has(m, i);
    s
  }

  ghost predicate IsSetOf(m: Mask, s: set<nat>) {
    forall i: nat {:trigger Has(m, i)} :: i in s <==> Has(m, i)
  }

  // ---------- the single-bit masks ----------

  lemma {:induction false} ShiftedOut(i: nat, j: nat)
    requires i <= j && Index2Mask(i) == 0
    ensures Index2Mask(j) == 0
  {
    if i < j {
      ShiftedOut(i, j - 1);
    }
  }

  lemma TopMask()
    ensures Index2Mask(31) == 0x8000_0000
  {
    assert Index2Mask(1) == 0x2 && Index2Mask(3) == 0x8 && Index2Mask(5) == 0x20;
    assert Index2Mask(7) == 0x80 && Index2Mask(9) == 0x200 && Index2Mask(11) == 0x800;
    assert Index2Mask(13) == 0x2000 && Index2Mask(15) == 0x8000 && Index2Mask(17) == 0x20000;
    assert Index2Mask(19) == 0x80000 && Index2Mask(21) == 0x200000 && Index2Mask(23) == 0x800000;
    assert Index2Mask(25) == 0x2000000 && Index2Mask(27) == 0x8000000 && Index2Mask(29) == 0x20000000;
  }

  lemma {:induction false} Index2MaskPower(i: nat)
    requires i < WIDTH
    ensures IsPowerOfTwo(Index2Mask(i))
  {
    if i > 0 {
      Index2MaskPower(i - 1);
      if Index2Mask(i) == 0 {
        ShiftedOut(i, 31);
        TopMask();
      }
      DoublePower(Index2Mask(i - 1));
    }
  }

  lemma {:induction false} Index2MaskMonotone(i: nat, j: nat)
    requires i < j < WIDTH
    ensures Index2Mask(i) < Index2Mask(j)
  {
    Index2MaskPower(j - 1);
    Index2MaskPower(j);
    DoublePower(Index2Mask(j - 1));
    if i < j - 1 {
      Index2MaskMonotone(i, j - 1);
    }
  }

  // ---------- membership ----------

  lemma HasIndex2Mask(i: nat, j: nat)
    requires i < WIDTH && j < WIDTH
    ensures Has(Index2Mask(i), j) <==> i == j
  {
    Index2MaskPower(i);
    Index2MaskPower(j);
    DistinctPowers(Index2Mask(i), Index2Mask(j));
    if i < j {
      Index2MaskMonotone(i, j);
    } else if j < i {
      Index2MaskMonotone(j, i);
    }
  }

  lemma MemberOr(a: Mask, b: Mask, j: nat)
    ensures j in ToSet(Or(a, b)) <==> j in ToSet(a) || j in ToSet(b)
  {
    assert Has(Or(a, b), j) <==> Has(a, j) || Has(b, j) by {
      if j < WIDTH {
        Index2MaskPower(j);
        BitOr(a, b, Index2Mask(j));
      }
    }
  }

  lemma MemberAnd(a: Mask, b: Mask, j: nat)
    ensures j in ToSet(And(a, b)) <==> j in ToSet(a) && j in ToSet(b)
  {
    assert Has(And(a, b), j) <==> Has(a, j) && Has(b, j) by {
      if j < WIDTH {
        Index2MaskPower(j);
        BitAnd(a, b, Index2Mask(j));
      }
    }
  }

  lemma MemberAndNot(a: Mask, b: Mask, j: nat)
    ensures j in ToSet(AndNot(a, b)) <==> j in ToSet(a) && j !in ToSet(b)
  {
    assert Has(AndNot(a, b), j) <==> Has(a, j) && !Has(b, j) by {
      if j < WIDTH {
        Index2MaskPower(j);
        BitAndNot(a, b, Index2Mask(j));
      }
    }
  }

  lemma MemberExclusiveOr(a: Mask, b: Mask, j: nat)
    ensures j in ToSet(ExclusiveOr(a, b)) <==> (j in ToSet(a)) != (j in ToSet(b))
  {
    assert Has(ExclusiveOr(a, b), j) <==> Has(a, j) != Has(b, j) by {
      if j < WIDTH {
        Index2MaskPower(j);
        BitExclusiveOr(a, b, Index2Mask(j));
      }
    }
  }

  lemma HasLowerBits(n: nat, j: nat)
    requires n < WIDTH && j < WIDTH
    ensures Has(LowerBits(Index2Mask(n)), j) <==> j < n
  {
    Index2MaskPower(j);
    Index2MaskPower(n);
    BitLowerBits(Index2Mask(n), Index2Mask(j));
    if j < n {
      Index2MaskMonotone(j, n);
    } else if n < j {
      Index2MaskMonotone(n, j);
    }
  }

  lemma SingletonSet(i: nat)
    requires i < WIDTH
    ensures ToSet(Index2Mask(i)) == {i}
  {
    forall j: nat ensures j in ToSet(Index2Mask(i)) <==> i == j {
      assert Has(Index2Mask(i), j) ==> j < WIDTH;
      if j < WIDTH { HasIndex2Mask(i, j); }
    }
  }

  lemma OrSet(a: Mask, b: Mask)
    ensures ToSet(Or(a, b)) == ToSet(a) + ToSet(b)
  {
    forall j: nat ensures j in ToSet(Or(a, b)) <==> j in ToSet(a) + ToSet(b) {
      MemberOr(a, b, j);
    }
  }

  lemma AndSet(a: Mask, b: Mask)
    ensures ToSet(And(a, b)) == ToSet(a) * ToSet(b)
  {
    forall j: nat ensures j in ToSet(And(a, b)) <==> j in ToSet(a) * ToSet(b) {
      MemberAnd(a, b, j);
    }
  }

  lemma AndNotSet(a: Mask, b: Mask)
    ensures ToSet(AndNot(a, b)) == ToSet(a) - ToSet(b)
  {
    forall j: nat ensures j in ToSet(AndNot(a, b)) <==> j in ToSet(a) - ToSet(b) {
      MemberAndNot(a, b, j);
    }
  }

  lemma ExclusiveOrSet(a: Mask, b: Mask)
    ensures ToSet(ExclusiveOr(a, b)) == (ToSet(a) - ToSet(b)) + (ToSet(b) - ToSet(a))
  {
    forall j: nat ensures j in ToSet(ExclusiveOr(a, b)) <==> j in (ToSet(a) - ToSet(b)) + (ToSet(b) - ToSet(a)) {
      MemberExclusiveOr(a, b, j);
    }
  }

  lemma LowerBitsSet(n: nat)
    requires n < WIDTH
    ensures ToSet(LowerBits(Index2Mask(n))) == Indices(n)
  {
    forall j: nat ensures j in ToSet(LowerBits(Index2Mask(n))) <==> j < n {
      assert Has(LowerBits(Index2Mask(n)), j) ==> j < WIDTH;
      if j < WIDTH { HasLowerBits(n, j); }
    }
  }

  // ---------- the least set bit ----------

  lemma {:induction false} NoMembersBelow(m: Mask, n: nat)
    requires n < WIDTH && forall j :: 0 <= j < n ==> !Has(m, j)
    ensures !Bit(m, LowerBits(Index2Mask(n)))
  {
    if n > 0 {
      NoMembersBelow(m, n - 1);
      Index2MaskPower(n - 1);
      assert !Has(m, n - 1);
      NoLowerBits(m, Index2Mask(n - 1));
    }
  }

  lemma NoMembersIsZero(m: Mask)
    requires forall j :: 0 <= j < WIDTH ==> !Has(m, j)
    ensures m == 0
  {
    NoMembersBelow(m, 31);
    TopMask();
    assert !Has(m, 31);
    NoLowerBits(m, 0x8000_0000);
  }

  lemma NonzeroHasMember(m: Mask)
    requires m != 0
    ensures ToSet(m) != {}
  {
    if forall j :: 0 <= j < WIDTH ==> !Has(m, j) {
      NoMembersIsZero(m);
    }
  }

  lemma NonemptyHasMember(m: Mask)
    requires ToSet(m) != {}
    ensures exists j :: 0 <= j < WIDTH && Has(m, j)
  {
    var j :| j in ToSet(m);
    assert Has(m, j);
  }

  /** Scans upward from bit `from`. */
  function LeastFrom(m: Mask, from: nat): (i: nat)
    requires exists j :: from <= j < WIDTH && Has(m, j)
    ensures from <= i && Has(m, i)
    ensures forall j :: from <= j && Has(m, j) ==> i <= j
    decreases WIDTH - from
  {
    if Has(m, from) then from else LeastFrom(m, from + 1)
  }

  /** `lssbi()`: the index of the least significant set bit. */
  function Lssbi(m: Mask): (i: nat)
    requires ToSet(m) != {}
    ensures IsLeast(i, ToSet(m))
  {
    NonemptyHasMember(m);
    var i := LeastFrom(m, 0);
    assert forall j | j in ToSet(m) :: Has(m, j);
    i
  }

  /** `none()` */
  predicate None(m: Mask)
    ensures None(m) <==> ToSet(m) == {}
  {
    assert m != 0 ==> ToSet(m) != {} by {
      if m != 0 { NonzeroHasMember(m); }
    }
    assert forall j | j in ToSet(m) :: Has(m, j);
    m == 0
  }

  lemma EmptyMask()
    ensures ToSet(0) == {}
  {
    assert None(0);
  }

  /** Two masks are equal exactly when they stand for the same set. */
  lemma EqualMasks(a: Mask, b: Mask)
    ensures a == b <==> ToSet(a) == ToSet(b)
  {
    EqualWords(a, b);
    if a != b {
      ExclusiveOrSet(a, b);
      NonzeroHasMember(ExclusiveOr(a, b));
      var i := Lssbi(ExclusiveOr(a, b));
    }
  }

  lemma SingleBit(m: Mask)
    ensures IsPowerOfTwo(m) <==> |ToSet(m)| == 1
  {
    assert None(m) <==> ToSet(m) == {};
    if m != 0 {
      var i := Lssbi(m);
      Index2MaskPower(i);
      OnlyMember(m, i);
      if IsPowerOfTwo(m) {
        DistinctPowers(m, Index2Mask(i));
      }
    }
  }

  lemma OnlyMember(m: Mask, i: nat)
    requires i in ToSet(m)
    ensures m == Index2Mask(i) <==> |ToSet(m)| == 1
  {
    SingletonSet(i);
    EqualMasks(m, Index2Mask(i));
    assert |ToSet(m)| == 1 + |ToSet(m) - {i}|;
    assert |ToSet(m)| == 1 <==> ToSet(m) == {i};
  }

  // ---------- the test of Permutation::next for a higher index ----------

  /** `hi & ~(thm - 1)`: the members of `hi` that are at least `i`. */
  lemma NotBelowSet(hi: Mask, i: nat)
    requires i < WIDTH
    ensures ToSet(AndNot(hi, LowerBits(Index2Mask(i)))) == set j | j in ToSet(hi) && j >= i
  {
    LowerBitsSet(i);
    AndNotSet(hi, LowerBits(Index2Mask(i)));
  }

  /** `hi > thm`: is there a member of `hi` above `i`? */
  lemma HigherMembers(hi: Mask, i: nat)
    requires i < WIDTH && i !in ToSet(hi)
    ensures GreaterThan(hi, Index2Mask(i)) <==> exists j :: j in ToSet(hi) && j > i
  {
    Index2MaskPower(i);
    assert !Has(hi, i);
    HighBits(hi, Index2Mask(i));
    NotBelowSet(hi, i);
    MembersAbove(hi, AndNot(hi, LowerBits(Index2Mask(i))), i);
  }

  lemma MembersAbove(hi: Mask, high: Mask, i: nat)
    requires i !in ToSet(hi) && ToSet(high) == set j | j in ToSet(hi) && j >= i
    ensures high != 0 <==> exists j :: j in ToSet(hi) && j > i
  {
    assert None(high) <==> ToSet(high) == {};
    if high != 0 {
      var j := Lssbi(high);
      assert j in ToSet(hi) && j > i;
    } else {
      forall j | j in ToSet(hi) ensures j < i {
        assert j !in ToSet(high);
      }
    }
  }

  // ---------- the operations, as their callers see them ----------

  /** `index2mask(i)` */
  method Singleton(i: nat) returns (m: Mask)
    requires i < WIDTH
    ensures ToSet(m) == {i}
  {
    m := Index2Mask(i);
    SingletonSet(i);
  }

  /** `index2mask(n) - 1` */
  method AllBelow(n: nat) returns (m: Mask)
    requires n < WIDTH
    ensures ToSet(m) == Indices(n)
  {
    m := LowerBits(Index2Mask(n));
    LowerBitsSet(n);
  }

  /** `a | b` */
  method Union(a: Mask, b: Mask) returns (m: Mask)
    ensures ToSet(m) == ToSet(a) + ToSet(b)
  {
    m := Or(a, b);
    OrSet(a, b);
  }

  /** `a & b` */
  method Intersect(a: Mask, b: Mask) returns (m: Mask)
    ensures ToSet(m) == ToSet(a) * ToSet(b)
  {
    m := And(a, b);
    AndSet(a, b);
  }

  /** `a & ~b` */
  method Minus(a: Mask, b: Mask) returns (m: Mask)
    ensures ToSet(m) == ToSet(a) - ToSet(b)
  {
    m := AndNot(a, b);
    AndNotSet(a, b);
  }

  /** `a ^ b` */
  method Xor(a: Mask, b: Mask) returns (m: Mask)
    ensures ToSet(m) == (ToSet(a) - ToSet(b)) + (ToSet(b) - ToSet(a))
  {
    m := ExclusiveOr(a, b);
    ExclusiveOrSet(a, b);
  }

  /** `a > index2mask(i)` */
  method AnyHigher(a: Mask, i: nat) returns (any: bool)
    requires i < WIDTH && i !in ToSet(a)
    ensures any <==> exists j :: j in ToSet(a) && j > i
  {
    any := GreaterThan(a, Index2Mask(i));
    HigherMembers(a, i);
  }

  /** `a & ~(index2mask(i) - 1)` */
  method NotBelow(a: Mask, i: nat) returns (m: Mask)
    requires i < WIDTH
    ensures ToSet(m) == set j | j in ToSet(a) && j >= i
  {
    m := AndNot(a, LowerBits(Index2Mask(i)));
    NotBelowSet(a, i);
  }

  /** `a.is_single_bit()` */
  method IsSingleBit(a: Mask) returns (single: bool)
    ensures single <==> |ToSet(a)| == 1
  {
    single := IsPowerOfTwo(a);
    SingleBit(a);
  }

  /** `a == b` */
  method Equal(a: Mask, b: Mask) returns (equal: bool)
    ensures equal <==> ToSet(a) == ToSet(b)
  {
    equal := a == b;
    EqualMasks(a, b);
  }
}
