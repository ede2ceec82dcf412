/**
 The interval domain of the value-range analysis: addition, subtraction, multiplication and
 signed division of ranges of 64-bit integers.
 */
module Interval {
  const MIN: int := -0x8000_0000_0000_0000
  const MAX: int := 0x7FFF_FFFF_FFFF_FFFF

  predicate Fits(n: int) { MIN <= n <= MAX }

  /** Two's complement: the 64-bit integer congruent to `n`. */
  function Wrap(n: int): int { (n - MIN) % 0x1_0000_0000_0000_0000 + MIN }

  datatype Range = Unknown | Constant(lo: int, hi: int) | Infinity

  datatype Op = Add | Sub | Mul | SDiv

  predicate Word(r: Range) { r.Constant? ==> Fits(r.lo) && Fits(r.hi) }

  ghost predicate In(x: int, r: Range) { r.Constant? && r.lo <= x <= r.hi }

  // ----- the exact operations -----

  /** Division truncating toward zero. */
  function Quot(x: int, y: int): int
    requires y != 0
  {
    if x >= 0 then (if y > 0 then x / y else -(x / -y))
    else (if y > 0 then -(-x / y) else -x / -y)
  }

  /** The operation has a result for these operands. */
  predicate Defined(op: Op, y: int) { op == SDiv ==> y != 0 }

  function Exact(op: Op, x: int, y: int): int
    requires Defined(op, y)
  {
    match op
    case Add => x + y
    case Sub => x - y
    case Mul => x * y
    case SDiv => Quot(x, y)
  }

  // ----- the evaluation -----

  /** A 64-bit result and its overflow flag. */
  datatype Checked = Checked(value: int, overflow: bool)

  function Corner(op: Op, x: int, y: int): Checked
    requires Defined(op, y)
  {
    Checked(Wrap(Exact(op, x, y)), !Fits(Exact(op, x, y)))
  }

  function Abs(x: int): int { Wrap(if x < 0 then -x else x) }

  predicate SpansZero(b: Range)
    requires b.Constant?
  {
    b.lo < 0 < b.hi
  }

  function Corners(op: Op, a: Range, b: Range): seq<Checked>
    requires a.Constant? && b.Constant? && Defined(op, b.lo) && Defined(op, b.hi)
  {
    [Corner(op, a.lo, b.lo), Corner(op, a.lo, b.hi), Corner(op, a.hi, b.lo), Corner(op, a.hi, b.hi)]
  }

  ghost predicate AnyOverflow(c: seq<Checked>) { exists i: nat :: i < |c| && c[i].overflow }

  /** `r` is the range of the values of `c`. */
  ghost predicate Hull(c: seq<Checked>, r: Range) {
    && r.Constant?
    && (forall i: nat | i < |c| :: r.lo <= c[i].value <= r.hi)
    && (exists i: nat :: i < |c| && c[i].value == r.lo)
    && (exists i: nat :: i < |c| && c[i].value == r.hi)
  }

  /** The corners: infinite as soon as one overflows, else from the least to the greatest. */
  method FromCorners(c: seq<Checked>) returns (r: Range)
    requires c != []
    ensures AnyOverflow(c) ==> r == Infinity
    ensures !AnyOverflow(c) ==> Hull(c, r)
  {
    for i := 0 to |c|
      invariant forall j: nat | j < i :: !c[j].overflow
    {
      if c[i].overflow { return Infinity; }
    }
    var mx := c[0].value;
    ghost var top: nat := 0;
    for i := 0 to |c|
      invariant forall j: nat | j < i :: c[j].value <= mx
      invariant top < |c| && c[top].value == mx
    {
      if c[i].value > mx { mx, top := c[i].value, i; }
    }
    var mn := c[0].value;
    ghost var bottom: nat := 0;
    for i := 0 to |c|
      invariant forall j: nat | j < i :: mn <= c[j].value
      invariant bottom < |c| && c[bottom].value == mn
      invariant mn <= c[0].value
    {
      if c[i].value < mn { mn, bottom := c[i].value, i; }
    }
    return Constant(mn, mx);
  }

  /** The symmetric range of the division by a range around zero. */
  function AroundZero(a: Range): Range
    requires a.Constant?
  {
    var abs := if Abs(a.lo) > Abs(a.hi) then Abs(a.lo) else Abs(a.hi);
    Constant(Wrap(-abs), abs)
  }

  /** What the evaluation must return. */
  ghost predicate Evaluates(op: Op, a: Range, b: Range, r: Range) {
    if a.Constant? && b.Constant? then
      match op
      case Add => Sides(Corner(Add, a.lo, b.lo), Corner(Add, a.hi, b.hi), r)
      case Sub => Sides(Corner(Sub, a.lo, b.hi), Corner(Sub, a.hi, b.lo), r)
      case Mul => FromCornersSpec(Corners(Mul, a, b), r)
      case SDiv =>
        if SpansZero(b) then r == AroundZero(a)
        else if b.lo == 0 || b.hi == 0 then r == Infinity
        else FromCornersSpec(Corners(SDiv, a, b), r)
    else if a.Infinity? || b.Infinity? then r == Infinity
    else r == Unknown
  }

  ghost predicate FromCornersSpec(c: seq<Checked>, r: Range) {
    (AnyOverflow(c) ==> r == Infinity) && (!AnyOverflow(c) ==> Hull(c, r))
  }

  ghost predicate Sides(l: Checked, h: Checked, r: Range) {
    r == if l.overflow || h.overflow then Infinity else Constant(l.value, h.value)
  }

  method Evaluate(op: Op, a: Range, b: Range) returns (r: Range)
    requires Word(a) && Word(b)
    ensures Evaluates(op, a, b, r)
    ensures Sound(op, a, b, r) <==> !Misses(op, a, b)
    ensures !a.Constant? || !b.Constant? ==> r == if a == Infinity || b == Infinity then Infinity else Unknown
    ensures Misses(op, a, b) && a.hi != MIN ==> r == if a.hi < 0 then Constant(a.hi, -a.hi) else Constant(-a.hi, a.hi)
    ensures Misses(op, a, b) && a.hi == MIN ==> r == Constant(MIN, MIN)
  {
    if a.Constant? && b.Constant? {
      match op
      case Add =>
        var l, h := Corner(Add, a.lo, b.lo), Corner(Add, a.hi, b.hi);
        r := if l.overflow || h.overflow then Infinity else Constant(l.value, h.value);
      case Sub =>
        var l, h := Corner(Sub, a.lo, b.hi), Corner(Sub, a.hi, b.lo);
        r := if l.overflow || h.overflow then Infinity else Constant(l.value, h.value);
      case Mul =>
        r := FromCorners(Corners(Mul, a, b));
      case SDiv =>
        if SpansZero(b) {
          r := AroundZero(a);
        } else if b.lo == 0 || b.hi == 0 {
          r := Infinity;
        } else {
          r := FromCorners(Corners(SDiv, a, b));
        }
    } else if a.Infinity? || b.Infinity? {
      r := Infinity;
    } else {
      r := Unknown;
    }
    SoundIff(op, a, b, r);
    if Misses(op, a, b) { MissedResult(a); }
  }

  /** The least integer has no absolute value, so the other end of the dividend decides. */
  lemma MissedResult(a: Range)
    requires Word(a) && a.Constant? && a.lo == MIN && a.lo <= a.hi
    ensures a.hi == MIN ==> AroundZero(a) == Constant(MIN, MIN)
    ensures a.hi != MIN ==> AroundZero(a) == if a.hi < 0 then Constant(a.hi, -a.hi) else Constant(-a.hi, a.hi)
  {
    AbsValue(a.lo);
    AbsValue(a.hi);
    if a.hi != MIN { WrapFits(-Abs(a.hi)); }
  }

  // ----- soundness -----

  /** Whenever the result is a constant range, exact results fit 64 bits and lie in it. */
  ghost predicate Sound(op: Op, a: Range, b: Range, r: Range) {
    r.Constant? ==> forall x: int, y: int {:trigger Covers(op, x, y, r)} ::
      In(x, a) && In(y, b) && Defined(op, y) ==> Covers(op, x, y, r)
  }

  ghost predicate Covers(op: Op, x: int, y: int, r: Range)
    requires Defined(op, y)
  {
    Fits(Exact(op, x, y)) && In(Exact(op, x, y), r)
  }

  /** The one case that is missed: the least integer divided by a range around zero. */
  predicate Misses(op: Op, a: Range, b: Range) {
    op == SDiv && a.Constant? && b.Constant? && a.lo == MIN && a.lo <= a.hi && SpansZero(b)
  }

  lemma WrapFits(n: int)
    requires Fits(n)
    ensures Wrap(n) == n
  {
  }

  lemma CornerValue(op: Op, x: int, y: int)
    requires Defined(op, y)
    ensures !Corner(op, x, y).overflow ==> Corner(op, x, y).value == Exact(op, x, y) && Fits(Exact(op, x, y))
  {
    if Fits(Exact(op, x, y)) { WrapFits(Exact(op, x, y)); }
  }

  // ----- products and quotients lie between the corners -----

  lemma MulMonotone(x: int, x': int, y: int)
    requires x <= x'
    ensures y >= 0 ==> x * y <= x' * y
    ensures y <= 0 ==> x' * y <= x * y
  {
    var d := x' - x;
    assert x' * y == x * y + d * y;
    if y >= 0 { assert d * y >= 0; } else { assert d * y <= 0; }
  }

  lemma DivMonotone(x: nat, x': nat, y: nat)
    requires x <= x' && y > 0
    ensures x / y <= x' / y
  {
    var q, q' := x / y, x' / y;
    assert x == q * y + x % y && x' == q' * y + x' % y;
    if q' + 1 <= q { MulMonotone(q' + 1, q, y); }
  }

  lemma DivAntitone(x: nat, y: nat, y': nat)
    requires 0 < y <= y'
    ensures x / y' <= x / y
  {
    var q, q' := x / y, x / y';
    assert x == q * y + x % y && x == q' * y' + x % y';
    MulMonotone(y, y', q');
    if q + 1 <= q' { MulMonotone(q + 1, q', y); }
  }

  lemma QuotSign(x: int, y: int)
    requires y != 0
    ensures (x >= 0 && y > 0) || (x <= 0 && y < 0) ==> Quot(x, y) >= 0
    ensures (x <= 0 && y > 0) || (x >= 0 && y < 0) ==> Quot(x, y) <= 0
  {
    var n, d := if x >= 0 then x else -x, if y > 0 then y else -y;
    DivMonotone(0, n, d);
  }

  /** Quotients grow with the dividend when the divisor is positive, and fall otherwise. */
  lemma QuotMonotone(x: int, x': int, y: int)
    requires x <= x' && y != 0
    ensures y > 0 ==> Quot(x, y) <= Quot(x', y)
    ensures y < 0 ==> Quot(x', y) <= Quot(x, y)
  {
    var d := if y > 0 then y else -y;
    if x >= 0 {
      DivMonotone(x, x', d);
    } else if x' < 0 {
      DivMonotone(-x', -x, d);
    } else {
      QuotSign(x, y);
      QuotSign(x', y);
    }
  }

  /** For one dividend, quotients are monotone in a divisor that keeps its sign. */
  lemma QuotInDivisor(x: int, y: int, y': int)
    requires y <= y' && (y > 0 || y' < 0)
    ensures x >= 0 ==> Quot(x, y') <= Quot(x, y)
    ensures x <= 0 ==> Quot(x, y) <= Quot(x, y')
  {
    var n := if x >= 0 then x else -x;
    if y > 0 { DivAntitone(n, y, y'); } else { DivAntitone(n, -y', -y); }
  }

  /** A value between two numbers, in either order. */
  ghost predicate Between(v: int, p: int, q: int) { p <= v <= q || q <= v <= p }

  lemma BetweenFour(op: Op, a: Range, b: Range, x: int, y: int)
    requires In(x, a) && In(y, b) && (op == Mul || (op == SDiv && (b.lo > 0 || b.hi < 0)))
    ensures Between(Exact(op, x, y), Exact(op, x, b.lo), Exact(op, x, b.hi))
    ensures Between(Exact(op, x, b.lo), Exact(op, a.lo, b.lo), Exact(op, a.hi, b.lo))
    ensures Between(Exact(op, x, b.hi), Exact(op, a.lo, b.hi), Exact(op, a.hi, b.hi))
  {
    if op == Mul {
      MulMonotone(b.lo, y, x);
      MulMonotone(y, b.hi, x);
      MulMonotone(a.lo, x, b.lo);
      MulMonotone(x, a.hi, b.lo);
      MulMonotone(a.lo, x, b.hi);
      MulMonotone(x, a.hi, b.hi);
    } else {
      QuotInDivisor(x, b.lo, y);
      QuotInDivisor(x, y, b.hi);
      QuotMonotone(a.lo, x, b.lo);
      QuotMonotone(x, a.hi, b.lo);
      QuotMonotone(a.lo, x, b.hi);
      QuotMonotone(x, a.hi, b.hi);
    }
  }

  // ----- each kind of result -----

  lemma CornersSound(op: Op, a: Range, b: Range, r: Range, x: int, y: int)
    requires In(x, a) && In(y, b) && (op == Mul || (op == SDiv && (b.lo > 0 || b.hi < 0)))
    requires FromCornersSpec(Corners(op, a, b), r) && r.Constant?
    ensures Covers(op, x, y, r)
  {
    var c := Corners(op, a, b);
    assert !AnyOverflow(c);
    assert !c[0].overflow && !c[1].overflow && !c[2].overflow && !c[3].overflow;
    CornerValue(op, a.lo, b.lo);
    CornerValue(op, a.lo, b.hi);
    CornerValue(op, a.hi, b.lo);
    CornerValue(op, a.hi, b.hi);
    assert r.lo <= c[0].value <= r.hi && r.lo <= c[1].value <= r.hi && r.lo <= c[2].value <= r.hi && r.lo <= c[3].value <= r.hi;
    HullFits(op, a, b, r);
    BetweenFour(op, a, b, x, y);
  }

  lemma HullFits(op: Op, a: Range, b: Range, r: Range)
    requires a.Constant? && b.Constant? && Defined(op, b.lo) && Defined(op, b.hi)
    requires !AnyOverflow(Corners(op, a, b)) && Hull(Corners(op, a, b), r)
    ensures Fits(r.lo) && Fits(r.hi)
  {
    var c := Corners(op, a, b);
    var i: nat :| i < |c| && c[i].value == r.lo;
    var j: nat :| j < |c| && c[j].value == r.hi;
    assert !c[i].overflow && !c[j].overflow;
    CornerValue(op, a.lo, b.lo);
    CornerValue(op, a.lo, b.hi);
    CornerValue(op, a.hi, b.lo);
    CornerValue(op, a.hi, b.hi);
  }

  lemma SidesSound(op: Op, a: Range, b: Range, r: Range, x: int, y: int)
    requires (op == Add || op == Sub) && In(x, a) && In(y, b) && Evaluates(op, a, b, r) && r.Constant?
    ensures Covers(op, x, y, r)
  {
    if op == Add {
      CornerValue(Add, a.lo, b.lo);
      CornerValue(Add, a.hi, b.hi);
    } else {
      CornerValue(Sub, a.lo, b.hi);
      CornerValue(Sub, a.hi, b.lo);
    }
  }

  lemma QuotSmaller(x: int, y: int)
    requires y != 0
    ensures x >= 0 ==> -x <= Quot(x, y) <= x
    ensures x <= 0 ==> x <= Quot(x, y) <= -x
  {
    var n, d := if x >= 0 then x else -x, if y > 0 then y else -y;
    DivAntitone(n, 1, d);
    DivMonotone(0, n, d);
  }

  lemma AbsValue(x: int)
    requires Fits(x)
    ensures Abs(x) == if x == MIN then MIN else if x < 0 then -x else x
  {
    if x != MIN { WrapFits(if x < 0 then -x else x); }
  }

  lemma AroundSound(a: Range, b: Range, x: int, y: int)
    requires Word(a) && In(x, a) && In(y, b) && y != 0 && a.lo != MIN
    ensures Covers(SDiv, x, y, AroundZero(a))
  {
    AbsValue(a.lo);
    AbsValue(a.hi);
    QuotSmaller(x, y);
    WrapFits(-AroundZero(a).hi);
  }

  /** The evaluation is sound in every case but one, and in that one it is not. */
  lemma SoundIff(op: Op, a: Range, b: Range, r: Range)
    requires Word(a) && Word(b) && Evaluates(op, a, b, r)
    ensures Sound(op, a, b, r) <==> !Misses(op, a, b)
  {
    if Misses(op, a, b) {
      assert In(MIN, a) && In(-1, b) && Defined(op, -1);
      assert !Covers(op, MIN, -1, r);
    } else if r.Constant? {
      forall x: int, y: int | In(x, a) && In(y, b) && Defined(op, y) ensures Covers(op, x, y, r) {
        if op == Add || op == Sub {
          SidesSound(op, a, b, r, x, y);
        } else if op == SDiv && SpansZero(b) {
          AroundSound(a, b, x, y);
        } else {
          CornersSound(op, a, b, r, x, y);
        }
      }
    }
  }

  // ----- the result is no wider than it must be -----

  ghost predicate Attained(op: Op, a: Range, b: Range, v: int) {
    exists x: int, y: int :: In(x, a) && In(y, b) && Defined(op, y) && Exact(op, x, y) == v
  }

  lemma Attains(op: Op, a: Range, b: Range, x: int, y: int)
    requires In(x, a) && In(y, b) && Defined(op, y)
    ensures Attained(op, a, b, Exact(op, x, y))
  {
  }

  /** What a corner computes from operands in the ranges is attained, or shows an overflow. */
  lemma OneCorner(op: Op, a: Range, b: Range, x: int, y: int)
    requires In(x, a) && In(y, b) && Defined(op, y)
    ensures !Corner(op, x, y).overflow ==> Attained(op, a, b, Corner(op, x, y).value)
    ensures Corner(op, x, y).overflow ==> exists v: int :: Attained(op, a, b, v) && !Fits(v)
  {
    CornerValue(op, x, y);
    Attains(op, a, b, x, y);
  }

  lemma CornerAttained(op: Op, a: Range, b: Range, i: nat)
    requires a.Constant? && b.Constant? && a.lo <= a.hi && b.lo <= b.hi && Defined(op, b.lo) && Defined(op, b.hi)
    requires i < 4
    ensures var c := Corners(op, a, b)[i]; !c.overflow ==> Attained(op, a, b, c.value)
    ensures Corners(op, a, b)[i].overflow ==> exists v: int :: Attained(op, a, b, v) && !Fits(v)
  {
    OneCorner(op, a, b, if i < 2 then a.lo else a.hi, if i == 0 || i == 2 then b.lo else b.hi);
  }

  lemma QuotOne(x: int)
    ensures Quot(x, 1) == x && Quot(x, -1) == -x
  {
  }

  lemma AroundAttained(a: Range, b: Range)
    requires Word(a) && a.Constant? && b.Constant? && a.lo <= a.hi && SpansZero(b) && a.lo != MIN
    ensures Attained(SDiv, a, b, AroundZero(a).lo) && Attained(SDiv, a, b, AroundZero(a).hi)
  {
    AbsValue(a.lo);
    AbsValue(a.hi);
    WrapFits(-AroundZero(a).hi);
    var x := if Abs(a.lo) > Abs(a.hi) then a.lo else a.hi;
    QuotOne(x);
    Attains(SDiv, a, b, x, 1);
    Attains(SDiv, a, b, x, -1);
  }

  /** Both ends of a constant result are results of operands in the ranges. */
  lemma Tight(op: Op, a: Range, b: Range, r: Range)
    requires Word(a) && Word(b) && Evaluates(op, a, b, r) && r.Constant? && !Misses(op, a, b)
    requires a.lo <= a.hi && b.lo <= b.hi
    ensures Attained(op, a, b, r.lo) && Attained(op, a, b, r.hi)
  {
    if op == Add {
      CornerAttained(op, a, b, 0);
      CornerAttained(op, a, b, 3);
    } else if op == Sub {
      CornerAttained(op, a, b, 1);
      CornerAttained(op, a, b, 2);
    } else if op == SDiv && SpansZero(b) {
      AroundAttained(a, b);
    } else {
      var c := Corners(op, a, b);
      var i: nat :| i < |c| && c[i].value == r.lo;
      var j: nat :| j < |c| && c[j].value == r.hi;
      CornerAttained(op, a, b, i);
      CornerAttained(op, a, b, j);
    }
  }

  /** The result is infinite exactly when a result overflows, or the divisor ends at zero. */
  lemma InfinityIff(op: Op, a: Range, b: Range, r: Range)
    requires Word(a) && Word(b) && a.Constant? && b.Constant? && a.lo <= a.hi && b.lo <= b.hi
    requires Evaluates(op, a, b, r) && !Misses(op, a, b)
    ensures r == Infinity <==> (op == SDiv && (b.lo == 0 || b.hi == 0)) || exists v: int :: Attained(op, a, b, v) && !Fits(v)
  {
    if r.Constant? {
      SoundIff(op, a, b, r);
      forall v: int | Attained(op, a, b, v) ensures Fits(v) {
        var x: int, y: int :| In(x, a) && In(y, b) && Defined(op, y) && Exact(op, x, y) == v;
        assert Covers(op, x, y, r);
      }
    } else if op == Add {
      CornerAttained(op, a, b, 0);
      CornerAttained(op, a, b, 3);
    } else if op == Sub {
      CornerAttained(op, a, b, 1);
      CornerAttained(op, a, b, 2);
    } else if !(op == SDiv && (b.lo == 0 || b.hi == 0)) {
      var c := Corners(op, a, b);
      var i: nat :| i < |c| && c[i].overflow;
      CornerAttained(op, a, b, i);
    }
  }
}
