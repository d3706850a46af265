// Reducing a flat expression — operands and the operator tokens between
// them — into a tree, one operator class per pass. A pass walks the leaves
// (left to right, or right to left for prefix operators) and replaces an
// operator token and its operands by an expression leaf.

module Merging {
  import opened Tokens
  import opened Ast

  /** A leaf still holding a raw operator token. */
  predicate IsTok(l: Leaf) {
    l.kind == TokenLeaf
  }

  /** How a pass reads an operator token. */
  datatype Reading = Reads(op: Operator) | TernaryPart | Unknown

  /** The operator an operator token stands for; `dot` and `cross` are words, compared without case. */
  function Classify(t: Token): (r: Reading)
    ensures r == TernaryPart <==> t.kind == Questionmark || t.kind == Colon
    ensures r == Reads(Assign) <==> t.kind == OpAssign
  {
    match t.kind
    case Identifier =>
      if EqualsIgnoreCase(t.value, "dot") then Reads(VectorDot)
      else if EqualsIgnoreCase(t.value, "cross") then Reads(VectorCross)
      else Unknown
    case OpAssign => Reads(Assign)
    case OpAdd => Reads(Add)
    case OpSubtract => Reads(Sub)
    case OpMultiply => Reads(Mul)
    case OpDivide => Reads(Div)
    case OpAnd => Reads(BitAnd)
    case OpOr => Reads(BitOr)
    case OpLeftShift => Reads(BitShl)
    case OpRightShift => Reads(BitShr)
    case OpRightShiftUnsigned => Reads(BitShrUs)
    case OpXor => Reads(Xor)
    case OpEquals => Reads(CmpEq)
    case OpNotEquals => Reads(CmpNotEq)
    case OpSomewhatEquals => Reads(CmpSomewhatEq)
    case OpLessThan => Reads(CmpLT)
    case OpGreaterThan => Reads(CmpGT)
    case OpLessOrEqual => Reads(CmpLTEQ)
    case OpGreaterOrEqual => Reads(CmpGTEQ)
    case OpSpaceship => Reads(CmpSpaceship)
    case OpLogicalAnd => Reads(LogicalAnd)
    case OpLogicalOr => Reads(LogicalOr)
    case OpNegate => Reads(UnaryNeg)
    case OpUnaryNot => Reads(UnaryNot)
    case OpModulo => Reads(Modulo)
    case OpIncrement => Reads(Increment)
    case OpDecrement => Reads(Decrement)
    case Questionmark => TernaryPart
    case Colon => TernaryPart
    case _ => Unknown
  }

  /** Token kinds that may follow an operator to make a compound assignment (`+=`, `>>>=`). */
  predicate IsValidForAssign(k: TokenKind) {
    k in {OpAdd, OpSubtract, OpMultiply, OpDivide, OpOr, OpAnd, OpLeftShift, OpRightShift, OpRightShiftUnsigned}
  }

  /** Compound assignment is offered for the arithmetic, bitwise-or/and and shift operators only. */
  lemma ValidForAssignOperators(k: TokenKind)
    ensures IsValidForAssign(k) ==> Classify(Token(k, "", None, true, 0, 0)).Reads?
    ensures IsValidForAssign(k) ==> k != OpAssign && k != OpXor && k != OpModulo
  {
  }

  predicate IsUnary(op: Operator) {
    op == UnaryNeg || op == UnaryNot || op == UnaryMinus
  }

  /** The index a pass visits next when it does not merge. */
  function Adv(i: int, right: bool): int {
    if right then i - 1 else i + 1
  }

  /** What a pass still has to visit: it shrinks with every step. */
  function Measure(leaves: seq<Leaf>, i: int, right: bool): int {
    if right then i + 1 + |leaves| else |leaves| - i
  }

  predicate InPass(leaves: seq<Leaf>, i: int, right: bool) {
    if right then -1 <= i else 0 <= i <= |leaves|
  }

  /** One step of a pass: the new leaves and the next index, or Stop for an unknown operator token. */
  datatype Step = Next(leaves: seq<Leaf>, i: int) | Stop

  /**
   * The step at index `i` of a pass merging the operators `ops`. An
   * operator followed by `=` is left alone unless the pass merges
   * assignments; there, the `=` is dropped and the operator merges whatever
   * pass it belongs to.
   */
  function MergeStep(leaves: seq<Leaf>, i: int, ops: set<Operator>, right: bool): (r: Step)
    requires 0 <= i < |leaves|
    ensures r.Next? ==> InPass(r.leaves, r.i, right) && |r.leaves| <= |leaves|
    ensures r.Next? ==> 0 <= Measure(r.leaves, r.i, right) < Measure(leaves, i, right)
  {
    var leaf := leaves[i];
    if !IsTok(leaf) then Next(leaves, Adv(i, right))
    else match Classify(leaf.token)
      case Unknown => Stop
      case TernaryPart => Next(leaves, Adv(i, right))
      case Reads(op0) =>
        var isAssign := op0 != Assign && i + 1 < |leaves| && IsTok(leaves[i + 1]) && leaves[i + 1].token.kind == OpAssign;
        if isAssign && Assign !in ops then Next(leaves, Adv(i, right))
        else if isAssign then
          Apply(leaves[..i + 1] + leaves[i + 2..], i, op0, true, [leaves[i + 1].token], ops, right)
        else Apply(leaves, i, op0, false, [], ops, right)
  }

  /** The step once the operator at `i` is read (and a following `=` removed). */
  function Apply(leaves: seq<Leaf>, i: int, op0: Operator, isAssign: bool, assignTok: seq<Token>, ops: set<Operator>, right: bool): (r: Step)
    requires 0 <= i < |leaves|
    ensures r.Next? ==> InPass(r.leaves, r.i, right) && |r.leaves| <= |leaves|
    ensures r.Next? ==> 0 <= Measure(r.leaves, r.i, right) < Measure(leaves, i, right)
  {
    var tok := leaves[i].token;
    var leftIsExpr := i >= 1 && !IsTok(leaves[i - 1]);
    var rightIsExpr := i + 1 < |leaves| && !IsTok(leaves[i + 1]);
    var op := if op0 == Sub && !leftIsExpr && rightIsExpr then UnaryMinus else op0;
    if op !in ops && !isAssign then Next(leaves, Adv(i, right))
    else if (op == Increment || op == Decrement) && rightIsExpr && right then
      var pre := if op == Increment then PreIncrement else PreDecrement;
      Next(leaves[..i] + [Nest(Node0(pre, [leaves[i + 1]], [tok]))] + leaves[i + 2..], i - 1)
    else if (op == Increment || op == Decrement) && leftIsExpr && !right then
      var post := if op == Increment then PostIncrement else PostDecrement;
      Next(leaves[..i - 1] + [Nest(Node0(post, [leaves[i - 1]], [tok]))] + leaves[i + 1..], i)
    else if IsUnary(op) then
      if !rightIsExpr then Next(leaves, Adv(i, right))
      else Next(leaves[..i] + [Nest(Node0(op, [leaves[i + 1]], [tok]))] + leaves[i + 2..], Adv(i, right))
    else if !leftIsExpr || !rightIsExpr then Next(leaves, Adv(i, right))
    else
      var node := Expr(op, isAssign || Assign in ops, [leaves[i - 1], leaves[i + 1]], [tok] + assignTok);
      Next(leaves[..i - 1] + [Nest(node)] + leaves[i + 2..], i)
  }

  /**
   * A pass from index `i` on. Stepping outside the list during a right to
   * left pass is undefined behaviour.
   */
  function Pass(leaves: seq<Leaf>, i: int, ops: set<Operator>, right: bool): (r: Exec<Option<seq<Leaf>>>)
    requires InPass(leaves, i, right)
    ensures r.Returns? && r.value.Some? ==> 0 < |r.value.value| <= |leaves| || leaves == r.value.value == []
    decreases Measure(leaves, i, right)
  {
    if right && i < 0 then Returns(Some(leaves))
    else if !right && i == |leaves| then Returns(Some(leaves))
    else if i >= |leaves| then Undefined
    else match MergeStep(leaves, i, ops, right)
      case Stop => Returns(None)
      case Next(l, j) => Pass(l, j, ops, right)
  }

  /** The first index a pass visits. */
  function Start(leaves: seq<Leaf>, right: bool): (i: int)
    ensures InPass(leaves, i, right)
  {
    if right then |leaves| - 1 else 0
  }

  /**
   * Merges the operators `ops` throughout `leaves` (one operator per pass in
   * the program, see `ReduceAsWritten`). None: an operator token the passes
   * do not know.
   */
  method MergeBinaryExpressions(leaves: seq<Leaf>, ops: set<Operator>, right: bool) returns (r: Exec<Option<seq<Leaf>>>)
    ensures r == Pass(leaves, Start(leaves, right), ops, right)
  {
    var ls := leaves;
    var i := Start(leaves, right);
    while if right then i >= 0 else i < |ls|
      invariant InPass(ls, i, right)
      invariant Pass(ls, i, ops, right) == Pass(leaves, Start(leaves, right), ops, right)
      decreases Measure(ls, i, right)
    {
      if i >= |ls| {
        return Undefined;
      }
      var step := MergeStep(ls, i, ops, right);
      if step.Stop? {
        return Returns(None);
      }
      ls, i := step.leaves, step.i;
    }
    return Returns(Some(ls));
  }

  // ---------------------------------------------------------------- the ternary

  /** Folds every `c ? a : b` into a ternary expression, left to right; a malformed one fails the pass. */
  function TernaryPass(leaves: seq<Leaf>, i: nat): (r: Option<seq<Leaf>>)
    requires i <= |leaves|
    ensures r.Some? ==> |r.value| <= |leaves|
    decreases |leaves| - i
  {
    if i == |leaves| then Some(leaves)
    else if !IsTok(leaves[i]) || leaves[i].token.kind != Questionmark then TernaryPass(leaves, i + 1)
    else if !WellFormedTernary(leaves, i) then None
    else TernaryPass(FoldTernary(leaves, i), i)
  }

  /** The `?` at `i` has an operand before it, and `operand : operand` after it. */
  predicate WellFormedTernary(leaves: seq<Leaf>, i: int)
    requires 0 <= i < |leaves|
  {
    && i >= 1 && !IsTok(leaves[i - 1])
    && i + 1 < |leaves| && !IsTok(leaves[i + 1])
    && i + 3 < |leaves| && !IsTok(leaves[i + 3])
    && IsTok(leaves[i + 2]) && leaves[i + 2].token.kind == Colon
  }

  function FoldTernary(leaves: seq<Leaf>, i: int): (r: seq<Leaf>)
    requires 0 <= i < |leaves| && WellFormedTernary(leaves, i)
    ensures |r| == |leaves| - 4 && r[..i - 1] == leaves[..i - 1] && r[i..] == leaves[i + 4..]
    ensures r[i - 1] == Nest(Node0(Ternary, [leaves[i - 1], leaves[i + 1], leaves[i + 3]], [leaves[i].token, leaves[i + 2].token]))
  {
    var node := Node0(Ternary, [leaves[i - 1], leaves[i + 1], leaves[i + 3]], [leaves[i].token, leaves[i + 2].token]);
    leaves[..i - 1] + [Nest(node)] + leaves[i + 4..]
  }

  method MergeTernaryExpression(leaves: seq<Leaf>) returns (r: Option<seq<Leaf>>)
    ensures r == TernaryPass(leaves, 0)
  {
    var ls := leaves;
    var i := 0;
    while i < |ls|
      invariant i <= |ls|
      invariant TernaryPass(ls, i) == TernaryPass(leaves, 0)
      decreases |ls| - i
    {
      var leaf := ls[i];
      if leaf.kind != TokenLeaf || leaf.token.kind != Questionmark {
        i := i + 1;
        continue;
      }
      var leftIsExpr := i - 1 >= 0 && ls[i - 1].kind != TokenLeaf;
      var rightIsExpr := i + 1 < |ls| && ls[i + 1].kind != TokenLeaf;
      var thirdIsExpr := i + 3 < |ls| && ls[i + 3].kind != TokenLeaf;
      var colonFound := i + 2 < |ls| && ls[i + 2].kind == TokenLeaf && ls[i + 2].token.kind == Colon;
      if !leftIsExpr || !rightIsExpr || !thirdIsExpr || !colonFound {
        return None;
      }
      ls := FoldTernary(ls, i);
    }
    return Some(ls);
  }

  // ---------------------------------------------------------------- all passes

  /** A pass: the operators it merges and whether it runs right to left. */
  datatype PassSpec = PassSpec(ops: set<Operator>, right: bool)

  function RunPasses(leaves: seq<Leaf>, passes: seq<PassSpec>): (r: Exec<Option<seq<Leaf>>>)
    ensures r.Returns? && r.value.Some? ==> |r.value.value| <= |leaves|
    decreases |passes|
  {
    if passes == [] then Returns(Some(leaves))
    else
      var p := passes[0];
      var r0 := Pass(leaves, Start(leaves, p.right), p.ops, p.right);
      if r0.Undefined? || r0.value.None? then r0
      else RunPasses(r0.value.value, passes[1..])
  }

  function Left(op: Operator): PassSpec {
    PassSpec({op}, false)
  }

  function RightToLeft(op: Operator): PassSpec {
    PassSpec({op}, true)
  }

  /** The postfix and prefix passes that come before the binary operators. */
  const UnaryPasses: seq<PassSpec> := [
    Left(VectorDot), Left(VectorCross),
    Left(Increment), Left(Decrement), RightToLeft(Increment), RightToLeft(Decrement),
    RightToLeft(UnaryNeg), RightToLeft(UnaryNot), RightToLeft(UnaryMinus)]

  /** The binary passes as the program runs them: one operator per pass, in this order. */
  const BinaryPassesAsWritten: seq<PassSpec> := [
    Left(Mul), Left(Div), Left(Modulo), Left(Add), Left(Sub),
    Left(BitShl), Left(BitShr), Left(BitShrUs), Left(BitAnd), Left(Xor), Left(BitOr),
    Left(CmpEq), Left(CmpNotEq), Left(CmpSomewhatEq),
    Left(CmpLT), Left(CmpGT), Left(CmpLTEQ), Left(CmpGTEQ), Left(CmpSpaceship),
    Left(LogicalAnd), Left(LogicalOr)]

  /**
   * The binary passes with the operators of one precedence level merged in
   * one pass, so that they group from the left; the levels keep the
   * program's order.
   */
  const BinaryPasses: seq<PassSpec> := [
    PassSpec({Mul, Div, Modulo}, false), PassSpec({Add, Sub}, false),
    PassSpec({BitShl, BitShr, BitShrUs}, false), Left(BitAnd), Left(Xor), Left(BitOr),
    PassSpec({CmpEq, CmpNotEq, CmpSomewhatEq}, false),
    PassSpec({CmpLT, CmpGT, CmpLTEQ, CmpGTEQ, CmpSpaceship}, false),
    Left(LogicalAnd), Left(LogicalOr)]

  /** Every pass in order: unary, binary, the ternary, and assignment last. */
  function ReduceWith(leaves: seq<Leaf>, binary: seq<PassSpec>): (r: Exec<Option<seq<Leaf>>>)
    ensures r.Returns? && r.value.Some? ==> |r.value.value| <= |leaves|
  {
    var r0 := RunPasses(leaves, UnaryPasses + binary);
    if r0.Undefined? || r0.value.None? then r0
    else
      var t := TernaryPass(r0.value.value, 0);
      if t.None? then Returns(None)
      else Pass(t.value, 0, {Assign}, false)
  }

  function ReduceAsWritten(leaves: seq<Leaf>): Exec<Option<seq<Leaf>>> {
    ReduceWith(leaves, BinaryPassesAsWritten)
  }

  function Reduce(leaves: seq<Leaf>): Exec<Option<seq<Leaf>>> {
    ReduceWith(leaves, BinaryPasses)
  }

  /** Runs the passes as the program does, one binary operator per pass, as `ReduceAsWritten` describes them. */
  method ReduceLeaves(leaves: seq<Leaf>) returns (r: Exec<Option<seq<Leaf>>>)
    ensures r == ReduceAsWritten(leaves)
  {
    var passes := UnaryPasses + BinaryPassesAsWritten;
    var ls := leaves;
    var k := 0;
    while k < |passes|
      invariant 0 <= k <= |passes|
      invariant RunPasses(ls, passes[k..]) == RunPasses(leaves, passes)
    {
      var p := passes[k];
      assert passes[k..][0] == p && passes[k..][1..] == passes[k + 1..];
      var step := MergeBinaryExpressions(ls, p.ops, p.right);
      if step.Undefined? || step.value.None? {
        return step;
      }
      ls := step.value.value;
      k := k + 1;
    }
    var t := MergeTernaryExpression(ls);
    if t.None? {
      return Returns(None);
    }
    r := MergeBinaryExpressions(t.value, {Assign}, false);
  }
}
