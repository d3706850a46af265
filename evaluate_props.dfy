// What constant folding promises: integer operands fold with C's 32-bit
// rules, `bool` behaves as an integer, casts convert only where the
// language allows it, and operators the folder does not know do not fold.

module FoldingProps {
  import opened Tokens
  import opened Ast
  import opened Folding

  lemma StandardNames()
    ensures Lower("int") == "int" && Lower("bool") == "bool" && Lower("double") == "double"
  {
    LowerKeepsLowercase("int");
    LowerKeepsLowercase("bool");
    LowerKeepsLowercase("double");
  }

  lemma LowerKeepsLowercase(s: string)
    requires forall k | 0 <= k < |s| :: !('A' <= s[k] <= 'Z')
    ensures Lower(s) == s
  {
    assert forall k | 0 <= k < |s| :: Lower(s)[k] == s[k];
  }

  /** The result an integer fold of `op` produces from the value `v`. */
  function IntFolded(op: Operator, v: int): Folded {
    Folded(IntResult(Some(v), GivesBool(op)), if GivesBool(op) then "bool" else "int")
  }

  /**
   * Two integer literals fold to the C result of the operator on their
   * values read as 32-bit ints, and the fold is undefined exactly where C
   * leaves the operation undefined.
   */
  lemma FoldsIntegerOperands(op: Operator, asg: bool, x: Token, y: Token, toks: seq<Token>, sys: SystemTypes)
    requires Standard(sys) && IsFoldableBinary(op)
    requires x.valueInt.Some? && y.valueInt.Some?
    ensures var v := FoldInt(op, WrapInt(x.valueInt.value), WrapInt(y.valueInt.value));
      Evaluate(Expr(op, asg, [Atom(IntegerLeaf, x), Atom(IntegerLeaf, y)], toks), sys) ==
        if v.Undefined? then Undefined else Returns(Some(IntFolded(op, v.value)))
  {
    var lx, ly := Atom(IntegerLeaf, x), Atom(IntegerLeaf, y);
    BinaryUnfolds(op, asg, lx, ly, toks, Folded(lx, "int"), sys);
    IntegerPath(op, x, y, sys);
  }

  lemma IntegerPath(op: Operator, x: Token, y: Token, sys: SystemTypes)
    requires Standard(sys) && IsFoldableBinary(op)
    requires x.valueInt.Some? && y.valueInt.Some?
    ensures var v := FoldInt(op, WrapInt(x.valueInt.value), WrapInt(y.valueInt.value));
      FoldBinary(op, Folded(Atom(IntegerLeaf, x), "int"), Folded(Atom(IntegerLeaf, y), "int"), sys) ==
        if v.Undefined? then Undefined else Returns(Some(IntFolded(op, v.value)))
  {
    CastToIntKeeps(Atom(IntegerLeaf, x), sys);
    CastToIntKeeps(Atom(IntegerLeaf, y), sys);
  }

  /** An int leaf passes an implicit cast to `int` unchanged. */
  lemma CastToIntKeeps(l: Leaf, sys: SystemTypes)
    requires Standard(sys)
    ensures EvaluateCast(l, "int", "int", false, sys) == Some(l)
  {
    StandardNames();
  }

  /** Dividing by a zero literal folds to the int 0 rather than failing. */
  lemma DivisionByZeroFoldsToZero(asg: bool, x: Token, y: Token, toks: seq<Token>, sys: SystemTypes)
    requires Standard(sys) && x.valueInt.Some? && y.valueInt == Some(0)
    ensures Evaluate(Expr(Div, asg, [Atom(IntegerLeaf, x), Atom(IntegerLeaf, y)], toks), sys) ==
      Returns(Some(Folded(IntResult(Some(0), false), "int")))
  {
    FoldsIntegerOperands(Div, asg, x, y, toks, sys);
  }

  /** Integer division by zero gives 0, while `%` by zero and the one overflowing quotient do not fold. */
  lemma ArithmeticByZero(a: int)
    requires InInt(a)
    ensures FoldArith(Div, a, 0) == Returns(0)
    ensures FoldArith(Modulo, a, 0) == Undefined
    ensures FoldArith(Div, IntMin, -1) == Undefined && FoldArith(Modulo, IntMin, -1) == Undefined
  {
  }

  /** The relation a comparison operator tests. */
  predicate Holds(op: Operator, a: int, b: int)
    requires IsComparison(op)
  {
    match op
    case CmpEq => a == b
    case CmpSomewhatEq => a == b
    case CmpNotEq => !(a == b)
    case CmpLT => a < b
    case CmpGT => b < a
    case CmpLTEQ => !(b < a)
    case CmpGTEQ => !(a < b)
  }

  /**
   * A comparison of integer literals folds to a `bool` leaf holding 1 when
   * the relation holds and 0 when it does not.
   */
  lemma ComparisonsFoldToTruth(op: Operator, asg: bool, x: Token, y: Token, toks: seq<Token>, sys: SystemTypes)
    requires Standard(sys) && IsComparison(op)
    requires x.valueInt.Some? && y.valueInt.Some?
    ensures var a, b := WrapInt(x.valueInt.value), WrapInt(y.valueInt.value);
      var r := Evaluate(Expr(op, asg, [Atom(IntegerLeaf, x), Atom(IntegerLeaf, y)], toks), sys);
      && r.Returns? && r.value.Some?
      && r.value.value.ty == "bool" && r.value.value.leaf.kind == BooleanLeaf
      && (r.value.value.leaf.token.valueInt == Some(1) <==> Holds(op, a, b))
      && (r.value.value.leaf.token.valueInt == Some(0) <==> !Holds(op, a, b))
  {
    FoldsIntegerOperands(op, asg, x, y, toks, sys);
    RelationIsTruth(op, WrapInt(x.valueInt.value), WrapInt(y.valueInt.value));
  }

  /** The integer fold of a comparison is 1 when its relation holds and 0 otherwise. */
  lemma RelationIsTruth(op: Operator, a: int, b: int)
    requires IsComparison(op) && InInt(a) && InInt(b)
    ensures FoldInt(op, a, b) == Returns(if Holds(op, a, b) then 1 else 0)
  {
  }

  /** The three-way comparison folds to an `int` with the sign of the difference. */
  lemma SpaceshipFoldsToSign(asg: bool, x: Token, y: Token, toks: seq<Token>, sys: SystemTypes)
    requires Standard(sys) && x.valueInt.Some? && y.valueInt.Some?
    ensures var a, b := WrapInt(x.valueInt.value), WrapInt(y.valueInt.value);
      var r := Evaluate(Expr(CmpSpaceship, asg, [Atom(IntegerLeaf, x), Atom(IntegerLeaf, y)], toks), sys);
      && r.Returns? && r.value.Some? && r.value.value.ty == "int"
      && r.value.value.leaf.token.valueInt == Some(if a < b then -1 else if b < a then 1 else 0)
  {
    FoldsIntegerOperands(CmpSpaceship, asg, x, y, toks, sys);
  }

  /**
   * Integer division and remainder by a non-zero literal fold to C's
   * truncating quotient and remainder: they recombine to the dividend and
   * the remainder takes the dividend's sign.
   */
  lemma DivisionTruncates(asg: bool, x: Token, y: Token, toks: seq<Token>, sys: SystemTypes)
    requires Standard(sys) && x.valueInt.Some? && y.valueInt.Some?
    requires WrapInt(y.valueInt.value) != 0
    requires !(WrapInt(x.valueInt.value) == IntMin && WrapInt(y.valueInt.value) == -1)
    ensures var a, b := WrapInt(x.valueInt.value), WrapInt(y.valueInt.value);
      var q := Evaluate(Expr(Div, asg, [Atom(IntegerLeaf, x), Atom(IntegerLeaf, y)], toks), sys);
      var m := Evaluate(Expr(Modulo, asg, [Atom(IntegerLeaf, x), Atom(IntegerLeaf, y)], toks), sys);
      && q.Returns? && q.value.Some? && q.value.value.leaf.token.valueInt.Some?
      && m.Returns? && m.value.Some? && m.value.value.leaf.token.valueInt.Some?
      && var qv, mv := q.value.value.leaf.token.valueInt.value, m.value.value.leaf.token.valueInt.value;
      && a == qv * b + mv
      && Abs(mv) < Abs(b)
      && (mv == 0 || (mv < 0 <==> a < 0))
  {
    var a, b := WrapInt(x.valueInt.value), WrapInt(y.valueInt.value);
    FoldsIntegerOperands(Div, asg, x, y, toks, sys);
    FoldsIntegerOperands(Modulo, asg, x, y, toks, sys);
    TruncDivIsQuotient(a, b);
  }

  /** Signed overflow and `%` by zero are undefined in C++; the fold says so instead of wrapping. */
  lemma OverflowIsUndefined(asg: bool, x: Token, y: Token, toks: seq<Token>, sys: SystemTypes)
    requires Standard(sys) && x.valueInt.Some? && y.valueInt.Some?
    ensures var a, b := WrapInt(x.valueInt.value), WrapInt(y.valueInt.value);
      (Evaluate(Expr(Add, asg, [Atom(IntegerLeaf, x), Atom(IntegerLeaf, y)], toks), sys).Undefined? <==> !InInt(a + b))
      && (Evaluate(Expr(Mul, asg, [Atom(IntegerLeaf, x), Atom(IntegerLeaf, y)], toks), sys).Undefined? <==> !InInt(a * b))
      && (b == 0 ==> Evaluate(Expr(Modulo, asg, [Atom(IntegerLeaf, x), Atom(IntegerLeaf, y)], toks), sys).Undefined?)
  {
    FoldsIntegerOperands(Add, asg, x, y, toks, sys);
    FoldsIntegerOperands(Mul, asg, x, y, toks, sys);
    FoldsIntegerOperands(Modulo, asg, x, y, toks, sys);
  }

  /**
   * A `bool` operand folds exactly as an `int` operand with the same value,
   * whatever the other operand is.
   */
  lemma BoolOperandsActAsInts(op: Operator, asg: bool, x: Token, right: Leaf, toks: seq<Token>, sys: SystemTypes)
    requires Standard(sys) && IsFoldableBinary(op)
    ensures Evaluate(Expr(op, asg, [Atom(BooleanLeaf, x), right], toks), sys) ==
      Evaluate(Expr(op, asg, [Atom(IntegerLeaf, x), right], toks), sys)
  {
    var lb, li := Atom(BooleanLeaf, x), Atom(IntegerLeaf, x);
    var fb := Folded(IntResult(WrapOpt(x.valueInt), false), "bool");
    var rr := EvaluateLeaf(right, sys);
    BinaryUnfolds(op, asg, lb, right, toks, fb, sys);
    BinaryUnfolds(op, asg, li, right, toks, Folded(li, "int"), sys);
    if rr.Returns? && rr.value.Some? {
      BoolCastsLikeInt(x, rr.value.value, op, sys);
    }
  }

  /** How a binary fold proceeds once its left operand has folded. */
  lemma BinaryUnfolds(op: Operator, asg: bool, left: Leaf, right: Leaf, toks: seq<Token>, l: Folded, sys: SystemTypes)
    requires IsFoldableBinary(op) && EvaluateLeaf(left, sys) == Returns(Some(l))
    ensures var rr := EvaluateLeaf(right, sys);
      Evaluate(Expr(op, asg, [left, right], toks), sys) ==
        if rr.Undefined? || rr.value.None? then rr else FoldBinary(op, l, rr.value.value, sys)
  {
    var e := Expr(op, asg, [left, right], toks);
    assert e.op != Literal && e.op != Cast && IsFoldableBinary(e.op);
    assert |e.leaves| == 2 && e.leaves[0] == left && e.leaves[1] == right;
  }

  lemma BoolCastsLikeInt(x: Token, r: Folded, op: Operator, sys: SystemTypes)
    requires Standard(sys) && IsFoldableBinary(op)
    ensures FoldBinary(op, Folded(IntResult(WrapOpt(x.valueInt), false), "bool"), r, sys) ==
      FoldBinary(op, Folded(Atom(IntegerLeaf, x), "int"), r, sys)
  {
    var a, b := Folded(IntResult(WrapOpt(x.valueInt), false), "bool"), Folded(Atom(IntegerLeaf, x), "int");
    if r.ty != "double" {
      BoolCastToInt(x, sys);
      CastToIntKeeps(Atom(IntegerLeaf, x), sys);
      IntCastsFoldAlike(op, a, b, r, sys);
    } else {
      BoolCastToDouble(x, sys);
      DoubleSideFolds(op, a, r, sys);
      DoubleSideFolds(op, b, r, sys);
    }
  }

  /** Two left operands whose int casts carry the same value fold alike against a non-double. */
  lemma IntCastsFoldAlike(op: Operator, a: Folded, b: Folded, r: Folded, sys: SystemTypes)
    requires IsFoldableBinary(op) && a.ty != "double" && b.ty != "double" && r.ty != "double"
    requires EvaluateCast(a.leaf, a.ty, "int", false, sys).Some? && EvaluateCast(b.leaf, b.ty, "int", false, sys).Some?
    requires WrapOpt(EvaluateCast(a.leaf, a.ty, "int", false, sys).value.token.valueInt) ==
      WrapOpt(EvaluateCast(b.leaf, b.ty, "int", false, sys).value.token.valueInt)
    ensures FoldBinary(op, a, r, sys) == FoldBinary(op, b, r, sys)
  {
  }

  lemma BoolCastToInt(x: Token, sys: SystemTypes)
    requires Standard(sys)
    ensures var c := EvaluateCast(IntResult(WrapOpt(x.valueInt), false), "bool", "int", false, sys);
      c.Some? && WrapOpt(c.value.token.valueInt) == WrapOpt(x.valueInt)
  {
    StandardNames();
  }

  lemma BoolCastToDouble(x: Token, sys: SystemTypes)
    requires Standard(sys)
    ensures EvaluateCast(IntResult(WrapOpt(x.valueInt), false), "bool", "double", false, sys).Some?
    ensures EvaluateCast(Atom(IntegerLeaf, x), "int", "double", false, sys).Some?
  {
    StandardNames();
  }

  /** A cast of an int literal to `bool` folds to 1 for a non-zero value and to 0 for zero. */
  lemma CastToBoolNormalises(asg: bool, target: Leaf, x: Token, toks: seq<Token>, sys: SystemTypes)
    requires Standard(sys) && target.token.value == "bool" && x.valueInt.Some?
    ensures var r := Evaluate(Expr(Cast, asg, [target, Atom(IntegerLeaf, x)], toks), sys);
      && r.Returns? && r.value.Some?
      && r.value.value.ty == "bool" && r.value.value.leaf.kind == BooleanLeaf
      && r.value.value.leaf.token.valueInt == Some(if x.valueInt.value == 0 then 0 else 1)
  {
    StandardNames();
  }

  /**
   * Integers widen to `double` implicitly; a `double` narrows to an integer
   * type only through an explicit cast.
   */
  lemma FloatingNarrowsOnlyExplicitly(l: Leaf, sys: SystemTypes)
    requires Standard(sys)
    ensures EvaluateCast(l, "int", "double", false, sys).Some?
    ensures EvaluateCast(l, "double", "int", false, sys) == None
    ensures EvaluateCast(l, "double", "int", true, sys).Some?
    ensures var c := EvaluateCast(l, "double", "bool", true, sys); c.Some? && c.value.kind == BooleanLeaf
  {
    StandardNames();
  }

  /**
   * Arithmetic with one `double` operand is floating arithmetic: `+ - * /`
   * yield a `double`, while `%` yields the `bool` 0 the program types it as.
   */
  lemma MixedArithmeticIsFloating(op: Operator, asg: bool, x: Token, y: Token, toks: seq<Token>, sys: SystemTypes)
    requires Standard(sys) && IsArith(op)
    ensures Evaluate(Expr(op, asg, [Atom(IntegerLeaf, x), Atom(DoubleLeaf, y)], toks), sys) ==
      Returns(Some(if op == Modulo then Folded(IntResult(Some(0), true), "bool") else Folded(DoubleResult, "double")))
  {
    var lx, ly := Atom(IntegerLeaf, x), Atom(DoubleLeaf, y);
    BinaryUnfolds(op, asg, lx, ly, toks, Folded(lx, "int"), sys);
    assert EvaluateLeaf(ly, sys) == Returns(Some(Folded(ly, "double")));
    BoolCastToDouble(x, sys);
    DoubleCastKeeps(ly, sys);
    DoubleSideFolds(op, Folded(lx, "int"), Folded(ly, "double"), sys);
  }

  /** With a `double` operand whose sides both cast to double, the fold is the floating one. */
  lemma DoubleSideFolds(op: Operator, a: Folded, b: Folded, sys: SystemTypes)
    requires IsFoldableBinary(op) && b.ty == "double"
    requires EvaluateCast(a.leaf, a.ty, "double", false, sys).Some? && EvaluateCast(b.leaf, b.ty, "double", false, sys).Some?
    ensures FoldBinary(op, a, b, sys) == Returns(FoldDoublesAsWritten(op))
  {
  }

  /** A double leaf passes an implicit cast to `double`. */
  lemma DoubleCastKeeps(l: Leaf, sys: SystemTypes)
    requires Standard(sys)
    ensures EvaluateCast(l, "double", "double", false, sys).Some?
  {
    StandardNames();
  }

  /** Logical not of an int folds to 1 for zero and 0 otherwise, but is typed `int`. */
  lemma NotOfIntIsTypedInt(asg: bool, x: Token, toks: seq<Token>, sys: SystemTypes)
    requires x.valueInt.Some?
    ensures var r := Evaluate(Expr(UnaryNot, asg, [Atom(IntegerLeaf, x)], toks), sys);
      && r.Returns? && r.value.Some? && r.value.value.ty == "int"
      && r.value.value.leaf.kind == IntegerLeaf
      && r.value.value.leaf.token.valueInt == Some(if WrapInt(x.valueInt.value) == 0 then 1 else 0)
  {
    UnaryUnfolds(UnaryNot, asg, Atom(IntegerLeaf, x), toks, sys);
  }

  /** Negating the smallest int overflows; every other int negates exactly. */
  lemma NegationOverflowsOnlyAtMinimum(asg: bool, x: Token, toks: seq<Token>, sys: SystemTypes)
    requires x.valueInt.Some?
    ensures var r := Evaluate(Expr(UnaryMinus, asg, [Atom(IntegerLeaf, x)], toks), sys);
      var a := WrapInt(x.valueInt.value);
      (r.Undefined? <==> a == IntMin)
      && (a != IntMin ==> r == Returns(Some(Folded(IntResult(Some(-a), false), "int"))))
  {
    UnaryUnfolds(UnaryMinus, asg, Atom(IntegerLeaf, x), toks, sys);
  }

  /** A unary fold of an int literal is the unary fold of the literal itself, typed `int`. */
  lemma UnaryUnfolds(op: Operator, asg: bool, l: Leaf, toks: seq<Token>, sys: SystemTypes)
    requires IsFoldableUnary(op) && l.kind == IntegerLeaf
    ensures Evaluate(Expr(op, asg, [l], toks), sys) == FoldUnary(op, Folded(l, "int"))
  {
    var e := Expr(op, asg, [l], toks);
    assert e.leaves[0] == l;
  }

  /**
   * Operators outside the folder's list do not fold: assignment, calls,
   * subscripts, the ternary and the unsigned right shift among them.
   */
  lemma UnlistedOperatorsDoNotFold(op: Operator, asg: bool, leaves: seq<Leaf>, toks: seq<Token>, sys: SystemTypes)
    requires !IsFoldableBinary(op) && !IsFoldableUnary(op) && op != Literal && op != Cast
    ensures Evaluate(Expr(op, asg, leaves, toks), sys) == Returns(None)
  {
  }

  /** A nested expression folds to what the expression itself folds to. */
  lemma NestedExpressionsFoldThrough(e: Expr, sys: SystemTypes)
    ensures var r := Evaluate(e, sys);
      var n := EvaluateLeaf(Nest(e), sys);
      && (r.Undefined? <==> n.Undefined?)
      && (r.Returns? ==> (r.value.None? <==> n.value.None?))
      && (r.Returns? && r.value.Some? ==> n.value.value.leaf == r.value.value.leaf)
  {
  }

  // ---------------------------------------------------------------- bitwise operators and shifts

  /** `&` with zero and `x ^ x` give zero, whatever the operand. */
  lemma BitwiseZeroes(a: int)
    requires InInt(a)
    ensures FoldBitwise(BitAnd, a, 0) == Returns(0)
    ensures FoldBitwise(BitAnd, 0, a) == Returns(0)
    ensures FoldBitwise(Xor, a, a) == Returns(0)
  {
    var x := ToBits(a);
    assert x & 0 == 0 && 0 & x == 0 && x ^ x == 0;
    assert FromBits(0) == 0;
  }

  /** `&`, `|` and `^` fold the same whichever operand comes first. */
  lemma BitwiseCommutes(op: Operator, a: int, b: int)
    requires (op == BitAnd || op == BitOr || op == Xor) && InInt(a) && InInt(b)
    ensures FoldBitwise(op, a, b) == FoldBitwise(op, b, a)
  {
    var x, y := ToBits(a), ToBits(b);
    assert x & y == y & x && x | y == y | x && x ^ y == y ^ x;
  }

  /**
   * A shift by a count outside 0..31 does not fold, nor does a left shift
   * of a negative value; a right shift by a count inside it is a division
   * by the matching power of two, rounded toward minus infinity.
   */
  lemma ShiftsFold(op: Operator, a: int, b: int)
    requires (op == BitShl || op == BitShr) && InInt(a) && InInt(b)
    ensures b < 0 || b >= 32 ==> FoldBitwise(op, a, b) == Undefined
    ensures op == BitShl && a < 0 ==> FoldBitwise(op, a, b) == Undefined
    ensures op == BitShr && 0 <= b < 32 ==> FoldBitwise(op, a, b) == Returns(a / Pow2(b))
  {
    if op == BitShr && 0 <= b < 32 {
      ShiftRightDivides(a, b);
    }
  }

  /** A left shift of a non-negative value is a multiplication by the power of two, while it fits in 32 unsigned bits. */
  lemma ShiftLeftMultiplies(a: nat, n: nat)
    requires a * Pow2(n) <= IntMax
    ensures ShiftLeft(a, n) == Returns(a * Pow2(n))
  {
  }

  /** The arithmetic right shift is a division by a power of two (Dafny's `/` rounds toward minus infinity for a positive divisor). */
  lemma {:induction false} ShiftRightDivides(a: int, n: nat)
    requires InInt(a)
    ensures ShiftRight(a, n) == a / Pow2(n)
    decreases n
  {
    if n > 0 {
      ShiftRightDivides(a / 2, n - 1);
      DivDiv(a, 2, Pow2(n - 1));
    }
  }

  lemma DivDiv(a: int, b: int, c: int)
    requires b > 0 && c > 0
    ensures a / b / c == a / (b * c)
  {
    var q, r := a / b, a % b;
    var q2, r2 := q / c, q % c;
    DivDivStep(a, b, c, q, r, q2, r2);
    DivUnique(a, b * c, q2, b * r2 + r);
  }

  /** Dividing by `b` and then by `c` leaves the quotient and remainder of dividing by `b * c`. */
  lemma DivDivStep(a: int, b: int, c: int, q: int, r: int, q2: int, r2: int)
    requires b > 0 && c > 0 && a == b * q + r && 0 <= r < b && q == c * q2 + r2 && 0 <= r2 < c
    ensures a == (b * c) * q2 + (b * r2 + r) && 0 <= b * r2 + r < b * c
  {
    assert b * q == (b * c) * q2 + b * r2 by {
      assert b * q == b * (c * q2 + r2);
    }
    assert 0 <= b * r2 <= b * c - b by {
      assert b * (c - 1 - r2) >= 0;
      assert b * (c - 1 - r2) == b * c - b - b * r2;
    }
  }

  lemma DivUnique(a: int, d: int, q: int, r: int)
    requires d > 0 && a == d * q + r && 0 <= r < d
    ensures a / d == q
  {
    var q0, r0 := a / d, a % d;
    assert a == d * q0 + r0;
    assert d * (q - q0) == r0 - r by {
      assert d * (q - q0) == d * q - d * q0;
    }
    if q > q0 {
      MulAtLeast(d, q - q0);
    } else if q < q0 {
      MulAtLeast(d, q0 - q);
    }
  }

  lemma {:induction false} MulAtLeast(d: int, k: int)
    requires d >= 0 && k >= 1
    ensures d * k >= d
    decreases k
  {
    if k > 1 {
      MulAtLeast(d, k - 1);
      assert d * k == d * (k - 1) + d;
    }
  }
}
