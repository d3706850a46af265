// Constant folding of expressions over integers and booleans with C rules:
// 32-bit `int` arithmetic, truncating division, division by zero folding to
// zero, comparisons yielding 0/1. Floating-point values are not computed.

module Folding {
  import opened Tokens
  import opened Ast

  /** The kind of a system type, as the type resolver reports it. */
  datatype SysKind = SInteger | SFloat | SOther

  /** The system-type resolver: which names are system types, and of which kind. */
  type SystemTypes = map<string, SysKind>

  /** The resolver holds the standard primitive types. */
  predicate Standard(sys: SystemTypes) {
    && "int" in sys && sys["int"] == SInteger
    && "bool" in sys && sys["bool"] == SInteger
    && "double" in sys && sys["double"] == SFloat
  }

  // ---------------------------------------------------------------- 32-bit integers

  const IntMin: int := -0x8000_0000
  const IntMax: int := 0x7fff_ffff
  const Two32: int := 0x1_0000_0000

  predicate InInt(v: int) {
    IntMin <= v <= IntMax
  }

  /** The conversion `int(v)` of a 64-bit value: the low 32 bits, read as signed. */
  function WrapInt(v: int): (r: int)
    ensures InInt(r)
    ensures (v - r) % Two32 == 0
    ensures InInt(v) ==> r == v
  {
    var m := v % Two32;
    if m > IntMax then m - Two32 else m
  }

  function WrapOpt(v: Option<int>): (r: Option<int>)
    ensures r.Some? <==> v.Some?
    ensures v.Some? ==> r.value == WrapInt(v.value)
  {
    if v.Some? then Some(WrapInt(v.value)) else None
  }

  /** C's `/` on ints: the quotient rounded toward zero. */
  function TruncDiv(a: int, b: int): int
    requires b != 0
  {
    var q := Abs(a) / Abs(b);
    if (a < 0) != (b < 0) then -q else q
  }

  /** C's `%` on ints: the remainder that goes with `TruncDiv`. */
  function TruncMod(a: int, b: int): int
    requires b != 0
  {
    a - TruncDiv(a, b) * b
  }

  function Abs(a: int): nat {
    if a < 0 then -a else a
  }

  /** The 32-bit pattern of a C `int`. */
  function ToBits(a: int): bv32
    requires InInt(a)
  {
    (if a < 0 then a + Two32 else a) as bv32
  }

  /** The C `int` a 32-bit pattern stands for, read in two's complement. */
  function FromBits(b: bv32): (r: int)
    ensures InInt(r)
    ensures (b as int - r) % Two32 == 0
  {
    if b as int > IntMax then b as int - Two32 else b as int
  }

  function BoolInt(b: bool): int {
    if b then 1 else 0
  }

  /** The arithmetic operators. */
  predicate IsArith(op: Operator) {
    op.Mul? || op.Div? || op.Add? || op.Sub? || op.Modulo?
  }

  /** The bitwise operators the folder knows; the unsigned right shift is not among them. */
  predicate IsBitwise(op: Operator) {
    op.BitAnd? || op.BitOr? || op.Xor? || op.BitShl? || op.BitShr?
  }

  predicate IsComparison(op: Operator) {
    op.CmpEq? || op.CmpNotEq? || op.CmpSomewhatEq? || op.CmpLT? || op.CmpGT? || op.CmpGTEQ? || op.CmpLTEQ?
  }

  /** The operators whose integer result is typed `bool`. */
  predicate GivesBool(op: Operator) {
    IsComparison(op) || op.LogicalAnd? || op.LogicalOr?
  }

  /** The operators `evaluate` folds with two operands. */
  predicate IsFoldableBinary(op: Operator) {
    IsArith(op) || IsBitwise(op) || GivesBool(op) || op.CmpSpaceship?
  }

  /** The operators `evaluate` folds with one operand. */
  predicate IsFoldableUnary(op: Operator) {
    op.UnaryMinus? || op.UnaryNeg? || op.UnaryNot?
  }

  /**
   * One integer operation on two ints. Signed overflow, a shift count
   * outside 0..31, shifting a negative value left and `%` by zero are
   * undefined in C++.
   */
  function FoldInt(op: Operator, a: int, b: int): (r: Exec<int>)
    requires IsFoldableBinary(op) && InInt(a) && InInt(b)
    ensures r.Returns? ==> InInt(r.value)
    ensures GivesBool(op) ==> r.Returns? && (r.value == 0 || r.value == 1)
    ensures op == CmpSpaceship ==> r.Returns? && (r.value == -1 || r.value == 0 || r.value == 1)
  {
    if IsArith(op) then
      assert !GivesBool(op) && !op.CmpSpaceship?;
      FoldArith(op, a, b)
    else if IsBitwise(op) then
      assert !GivesBool(op) && !op.CmpSpaceship?;
      FoldBitwise(op, a, b)
    else
      var v := FoldRelation(op, a, b);
      assert InInt(v);
      Returns(v)
  }

  function FoldArith(op: Operator, a: int, b: int): (r: Exec<int>)
    requires IsArith(op) && InInt(a) && InInt(b)
    ensures r.Returns? ==> InInt(r.value)
  {
    match op
    case Mul => var p := a * b; if InInt(p) then Returns(p) else Undefined
    case Div =>
      if b == 0 then Returns(0)
      else if a == IntMin && b == -1 then Undefined
      else TruncDivInRange(a, b); Returns(TruncDiv(a, b))
    case Add => var p := a + b; if InInt(p) then Returns(p) else Undefined
    case Sub => var p := a - b; if InInt(p) then Returns(p) else Undefined
    case Modulo =>
      if b == 0 || (a == IntMin && b == -1) then Undefined
      else TruncModInRange(a, b); Returns(TruncMod(a, b))
  }

  function FoldBitwise(op: Operator, a: int, b: int): (r: Exec<int>)
    requires IsBitwise(op) && InInt(a) && InInt(b)
    ensures r.Returns? ==> InInt(r.value)
  {
    match op
    case BitAnd => Returns(FromBits(ToBits(a) & ToBits(b)))
    case BitOr => Returns(FromBits(ToBits(a) | ToBits(b)))
    case Xor => Returns(FromBits(ToBits(a) ^ ToBits(b)))
    case BitShl =>
      if b < 0 || b >= 32 || a < 0 then Undefined
      else ShiftLeft(a, b)
    case BitShr =>
      if b < 0 || b >= 32 then Undefined
      else Returns(ShiftRight(a, b))
  }

  function FoldRelation(op: Operator, a: int, b: int): (r: int)
    requires GivesBool(op) || op.CmpSpaceship?
    ensures op == CmpSpaceship ==> r == -1 || r == 0 || r == 1
    ensures op != CmpSpaceship ==> r == 0 || r == 1
  {
    match op
    case CmpEq => BoolInt(a == b)
    case CmpNotEq => BoolInt(a != b)
    case CmpSomewhatEq => BoolInt(a == b)
    case CmpLT => BoolInt(a < b)
    case CmpGT => BoolInt(a > b)
    case CmpLTEQ => BoolInt(a <= b)
    case CmpGTEQ => BoolInt(a >= b)
    case CmpSpaceship => if a < b then -1 else if a > b then 1 else 0
    case LogicalAnd => BoolInt(a != 0 && b != 0)
    case LogicalOr => BoolInt(a != 0 || b != 0)
  }

  /** `a << n` for a non-negative `a`: defined while the result fits in 32 unsigned bits. */
  function ShiftLeft(a: nat, n: nat): (r: Exec<int>)
    ensures r.Returns? ==> InInt(r.value)
  {
    var p := a * Pow2(n);
    if p < Two32 then Returns(WrapInt(p)) else Undefined
  }

  /** `a >> n` on a signed int: the arithmetic shift, rounding toward minus infinity. */
  function ShiftRight(a: int, n: nat): (r: int)
    requires InInt(a)
    ensures InInt(r)
    decreases n
  {
    if n == 0 then a else ShiftRight(a / 2, n - 1)
  }

  lemma TruncDivInRange(a: int, b: int)
    requires InInt(a) && InInt(b) && b != 0 && !(a == IntMin && b == -1)
    ensures InInt(TruncDiv(a, b))
  {
    var x, y := Abs(a), Abs(b);
    QuotientBound(x, y);
    assert x <= Two32 / 2;
  }

  /** The quotient of naturals is at most the dividend, and at most half of it for divisors from 2. */
  lemma QuotientBound(x: nat, y: nat)
    requires y >= 1
    ensures x / y <= x
    ensures y >= 2 ==> 2 * (x / y) <= x
    ensures y == 1 ==> x / y == x
  {
    var q := x / y;
    assert q * y + x % y == x;
    MulAtLeast(q, y);
  }

  lemma MulAtLeast(q: nat, y: nat)
    requires y >= 1
    ensures q * y >= q
    ensures y >= 2 ==> q * y >= 2 * q
  {
  }

  lemma TruncModInRange(a: int, b: int)
    requires InInt(a) && InInt(b) && b != 0
    ensures InInt(TruncMod(a, b))
  {
    TruncDivIsQuotient(a, b);
  }

  /**
   * `TruncDiv` and `TruncMod` are C's quotient and remainder: they recombine
   * to `a`, the remainder is smaller than the divisor, and it takes the sign
   * of the dividend.
   */
  lemma {:induction false} TruncDivIsQuotient(a: int, b: int)
    requires b != 0
    ensures a == TruncDiv(a, b) * b + TruncMod(a, b)
    ensures Abs(TruncMod(a, b)) < Abs(b)
    ensures TruncMod(a, b) == 0 || ((TruncMod(a, b) < 0) == (a < 0))
  {
    var q := Abs(a) / Abs(b);
    var m := Abs(a) % Abs(b);
    assert Abs(a) == q * Abs(b) + m;
    if a >= 0 && b > 0 {
      assert TruncMod(a, b) == a - q * b == m;
    } else if a >= 0 && b < 0 {
      assert TruncDiv(a, b) * b == (-q) * b == q * Abs(b);
      assert TruncMod(a, b) == m;
    } else if a < 0 && b > 0 {
      assert TruncDiv(a, b) * b == (-q) * b == -(q * Abs(b));
      assert TruncMod(a, b) == -m;
    } else {
      assert TruncDiv(a, b) * b == q * b == -(q * Abs(b));
      assert TruncMod(a, b) == -m;
    }
  }

  /** `FoldInt` on values whose conversion to int is unknown leaves the result unknown. */
  function FoldOpt(op: Operator, a: Option<int>, b: Option<int>): (r: Exec<Option<int>>)
    requires IsFoldableBinary(op)
    requires a.Some? ==> InInt(a.value)
    requires b.Some? ==> InInt(b.value)
    ensures a.None? || b.None? ==> r == Returns(None)
    ensures a.Some? && b.Some? ==> (r.Undefined? <==> FoldInt(op, a.value, b.value).Undefined?)
    ensures r.Returns? && r.value.Some? ==> InInt(r.value.value)
  {
    if a.None? || b.None? then Returns(None)
    else
      var v := FoldInt(op, a.value, b.value);
      if v.Undefined? then Undefined else Returns(Some(v.value))
  }

  // ---------------------------------------------------------------- leaves and types

  /** A default-constructed leaf: what every fold result starts from. */
  const FreshLeaf: Leaf := Leaf(InvalidLeaf, DefaultToken, None)

  /** The type name of a literal leaf. */
  function TypeFromLeaf(l: Leaf): (t: string)
    ensures t in {"int", "double", "bool"} <==> l.kind in {IntegerLeaf, DoubleLeaf, BooleanLeaf}
    ensures t == "expr" <==> l.kind in {ExpressionLeaf, IdentifierLeaf, TokenLeaf}
  {
    match l.kind
    case ExpressionLeaf => "expr"
    case IntegerLeaf => "int"
    case DoubleLeaf => "double"
    case BooleanLeaf => "bool"
    case IdentifierLeaf => "expr"
    case InvalidLeaf => "invalid"
    case StringLeaf => "string"
    case TokenLeaf => "expr"
    case VectorLeaf => "unknown"
  }

  function NotNot(v: Option<int>): Option<int> {
    if v.Some? then Some(if v.value != 0 then 1 else 0) else None
  }

  /**
   * Conversion between system integer and floating types. Names are
   * compared lower-cased, and every floating type counts as `double`.
   * Floating to integer needs an explicit cast; the converted value of a
   * floating operand is not computed.
   */
  function EvaluateCast(leaf: Leaf, typeFrom: string, typeTo: string, isExplicit: bool, sys: SystemTypes): (r: Option<Leaf>)
    ensures r.Some? ==> Lower(typeFrom) in sys && Lower(typeTo) in sys
    ensures r.Some? ==> sys[Lower(typeFrom)] != SOther && sys[Lower(typeTo)] != SOther
  {
    var from := Lower(typeFrom);
    var to := Lower(typeTo);
    if from !in sys || to !in sys then None
    else
      var kf := sys[from];
      var kt := sys[to];
      if kf == SOther || kt == SOther then None
      else
        var from' := if kf == SFloat then "double" else from;
        var to' := if kt == SFloat then "double" else to;
        if from' == to' then Some(leaf)
        else if kf == kt then
          var v := if to' == "bool" then NotNot(leaf.token.valueInt) else leaf.token.valueInt;
          Some(FreshLeaf.(kind := if to' == "bool" then BooleanLeaf else IntegerLeaf,
                          token := FreshLeaf.token.(valueInt := v)))
        else if kf == SInteger && kt == SFloat then Some(FreshLeaf.(kind := DoubleLeaf))
        else if !isExplicit then None
        else
          Some(FreshLeaf.(kind := if to' == "bool" then BooleanLeaf else IntegerLeaf,
                          token := FreshLeaf.token.(valueInt := None)))
  }

  /** A folded value and its type name. */
  datatype Folded = Folded(leaf: Leaf, ty: string)

  /** The leaf an integer fold produces. */
  function IntResult(v: Option<int>, isBool: bool): (l: Leaf)
    ensures l.kind == (if isBool then BooleanLeaf else IntegerLeaf)
    ensures l.token.kind == Integer && l.token.valueInt == v
  {
    FreshLeaf.(kind := if isBool then BooleanLeaf else IntegerLeaf,
               token := FreshLeaf.token.(kind := Integer, valueInt := v))
  }

  /** The leaf a floating fold produces; its value is not computed. */
  const DoubleResult: Leaf := FreshLeaf.(kind := DoubleLeaf, token := FreshLeaf.token.(kind := Double))

  /**
   * Folds a leaf: a nested expression is evaluated (its type lower-cased,
   * `float` read as `double`), int and double leaves stand for themselves,
   * and a bool leaf becomes an int leaf typed `bool`.
   */
  function EvaluateLeaf(l: Leaf, sys: SystemTypes): (r: Exec<Option<Folded>>)
    ensures l.kind in {IntegerLeaf, DoubleLeaf} ==> r == Returns(Some(Folded(l, TypeFromLeaf(l))))
    ensures l.kind !in {ExpressionLeaf, IntegerLeaf, DoubleLeaf, BooleanLeaf} ==> r == Returns(None)
    ensures l.kind == BooleanLeaf ==> r.Returns? && r.value.Some? && r.value.value.ty == "bool"
    decreases l, 0
  {
    if l.kind == ExpressionLeaf then
      if l.expr.None? then Undefined
      else
        var ev := Evaluate(l.expr.value, sys);
        if ev.Undefined? || ev.value.None? then ev
        else
          var t := Lower(ev.value.value.ty);
          Returns(Some(Folded(ev.value.value.leaf, if t == "float" then "double" else t)))
    else if l.kind == IntegerLeaf then Returns(Some(Folded(l, "int")))
    else if l.kind == DoubleLeaf then Returns(Some(Folded(l, "double")))
    else if l.kind == BooleanLeaf then Returns(Some(Folded(IntResult(WrapOpt(l.token.valueInt), false), "bool")))
    else Returns(None)
  }

  /**
   * Folds an expression: a literal, a cast, one of the listed binary
   * operators, or unary minus, bitwise not and logical not. Any other
   * operator does not fold.
   */
  function Evaluate(e: Expr, sys: SystemTypes): (r: Exec<Option<Folded>>)
    ensures !(e.op in {Literal, Cast} || IsFoldableBinary(e.op) || IsFoldableUnary(e.op)) ==> r == Returns(None)
    ensures e.op == Literal && |e.leaves| > 0 ==> r == Returns(Some(Folded(e.leaves[0], TypeFromLeaf(e.leaves[0]))))
    decreases e, 1
  {
    if e.op == Literal then
      if |e.leaves| == 0 then Undefined
      else Returns(Some(Folded(e.leaves[0], TypeFromLeaf(e.leaves[0]))))
    else if e.op == Cast then
      if |e.leaves| < 2 then Undefined
      else
        var ev := EvaluateLeaf(e.leaves[1], sys);
        if ev.Undefined? || ev.value.None? then ev
        else
          var target := e.leaves[0].token.value;
          var c := EvaluateCast(ev.value.value.leaf, ev.value.value.ty, target, true, sys);
          if c.None? then Returns(None) else Returns(Some(Folded(c.value, target)))
    else if IsFoldableBinary(e.op) then
      if |e.leaves| < 2 then Undefined
      else
        var left := EvaluateLeaf(e.leaves[0], sys);
        if left.Undefined? || left.value.None? then left
        else
          var right := EvaluateLeaf(e.leaves[1], sys);
          if right.Undefined? || right.value.None? then right
          else FoldBinary(e.op, left.value.value, right.value.value, sys)
    else if IsFoldableUnary(e.op) then
      if |e.leaves| == 0 then Undefined
      else
        var ev := EvaluateLeaf(e.leaves[0], sys);
        if ev.Undefined? || ev.value.None? then ev
        else FoldUnary(e.op, ev.value.value)
    else Returns(None)
  }

  /** The binary fold once both operands are folded: integer maths unless either side is a double. */
  function FoldBinary(op: Operator, left: Folded, right: Folded, sys: SystemTypes): (r: Exec<Option<Folded>>)
    requires IsFoldableBinary(op)
    ensures r.Undefined? ==> left.ty != "double" && right.ty != "double"
    ensures r.Returns? && r.value.Some? && left.ty != "double" && right.ty != "double" ==>
      r.value.value.ty == (if GivesBool(op) then "bool" else "int")
    ensures left.ty == "double" || right.ty == "double" ==>
      r == Returns(None) || r == Returns(FoldDoublesAsWritten(op))
  {
    if left.ty != "double" && right.ty != "double" then
      var cl := EvaluateCast(left.leaf, left.ty, "int", false, sys);
      var cr := EvaluateCast(right.leaf, right.ty, "int", false, sys);
      if cl.None? || cr.None? then Returns(None)
      else
        var v := FoldOpt(op, WrapOpt(cl.value.token.valueInt), WrapOpt(cr.value.token.valueInt));
        if v.Undefined? then Undefined
        else Returns(Some(Folded(IntResult(v.value, GivesBool(op)), if GivesBool(op) then "bool" else "int")))
    else
      var cl := EvaluateCast(left.leaf, left.ty, "double", false, sys);
      var cr := EvaluateCast(right.leaf, right.ty, "double", false, sys);
      if cl.None? || cr.None? then Returns(None)
      else Returns(FoldDoublesAsWritten(op))
  }

  /**
   * The floating fold: arithmetic gives a double, comparisons and logic a
   * bool, the three-way comparison an int; no value is computed. The
   * bitwise operators do not apply.
   */
  function FoldDoubles(op: Operator): (r: Option<Folded>)
    requires IsFoldableBinary(op)
    ensures r.Some? <==> !IsBitwise(op)
    ensures r.Some? && IsArith(op) ==> r.value == Folded(DoubleResult, "double")
    ensures r.Some? && !IsArith(op) ==> r.value.leaf.token.valueInt == None
  {
    if IsArith(op) then Some(Folded(DoubleResult, "double"))
    else if GivesBool(op) then Some(Folded(IntResult(None, true), "bool"))
    else if op == CmpSpaceship then Some(Folded(IntResult(None, false), "int"))
    else None
  }

  /** The floating fold as the program has it: `%` on doubles is typed `bool` and carries 0. */
  function FoldDoublesAsWritten(op: Operator): (r: Option<Folded>)
    requires IsFoldableBinary(op)
  {
    if op == Modulo then Some(Folded(IntResult(Some(0), true), "bool"))
    else FoldDoubles(op)
  }

  /** As written, the remainder of two doubles comes out as the boolean false instead of a double. */
  lemma DoubleModuloAsWritten()
    ensures FoldDoublesAsWritten(Modulo) == Some(Folded(IntResult(Some(0), true), "bool"))
    ensures FoldDoublesAsWritten(Modulo) != FoldDoubles(Modulo)
    ensures FoldDoubles(Modulo) == Some(Folded(DoubleResult, "double"))
  {
  }

  /** The unary fold once the operand is folded; the integer result is typed `int`, even for `!`. */
  function FoldUnary(op: Operator, v: Folded): (r: Exec<Option<Folded>>)
    requires IsFoldableUnary(op)
    ensures v.ty != "double" ==> (r.Undefined? <==> op == UnaryMinus && WrapOpt(v.leaf.token.valueInt) == Some(IntMin))
    ensures v.ty != "double" && r.Returns? ==> r.value.Some? && r.value.value.ty == "int"
    ensures v.ty == "double" ==> r.Returns? && (r.value.None? <==> op == UnaryNeg)
  {
    if v.ty != "double" then
      var i := WrapOpt(v.leaf.token.valueInt);
      if i.None? then Returns(Some(Folded(IntResult(None, false), "int")))
      else if op == UnaryMinus then
        if i.value == IntMin then Undefined else Returns(Some(Folded(IntResult(Some(-i.value), false), "int")))
      else if op == UnaryNeg then Returns(Some(Folded(IntResult(Some(-i.value - 1), false), "int")))
      else Returns(Some(Folded(IntResult(Some(BoolInt(i.value == 0)), false), "int")))
    else if op == UnaryMinus then Returns(Some(Folded(DoubleResult, "double")))
    else if op == UnaryNeg then Returns(None)
    else Returns(Some(Folded(IntResult(None, true), "bool")))
  }
}
