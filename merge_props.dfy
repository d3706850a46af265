// What the reduction passes promise: a binary pass leaves no operator of
// its class between two operands, operators of one pass group from the
// left, the ternary pass leaves no `?` behind, and a pass with nothing to
// merge changes nothing.

module MergingProps {
  import opened Tokens
  import opened Ast
  import opened Merging

  /** A pass set of binary operators only: no assignment, no increment or decrement, no prefix operator. */
  predicate BinaryOnly(ops: set<Operator>) {
    Assign !in ops && Increment !in ops && Decrement !in ops && UnaryMinus !in ops && UnaryNeg !in ops && UnaryNot !in ops
  }

  /** An operator of the pass set `ops` stands at `j` between two operands. */
  predicate Mergeable(leaves: seq<Leaf>, j: int, ops: set<Operator>) {
    && 0 < j < |leaves| - 1
    && IsTok(leaves[j]) && Classify(leaves[j].token).Reads? && Classify(leaves[j].token).op in ops
    && !IsTok(leaves[j - 1]) && !IsTok(leaves[j + 1])
  }

  predicate NoneMergeableBefore(leaves: seq<Leaf>, i: int, ops: set<Operator>) {
    forall j | 0 <= j < i :: !Mergeable(leaves, j, ops)
  }

  /**
   * A left-to-right step of a binary pass either stops, moves on past a
   * position that is not mergeable, or merges the operator at `i` with its
   * two operands into one leaf at `i - 1`.
   */
  lemma LeftStepShape(leaves: seq<Leaf>, i: int, ops: set<Operator>)
    requires 0 <= i < |leaves| && BinaryOnly(ops)
    ensures var s := MergeStep(leaves, i, ops, false);
      || s.Stop?
      || (s == Next(leaves, i + 1) && !Mergeable(leaves, i, ops))
      || (Mergeable(leaves, i, ops) && s == Next(Merged(leaves, i), i))
  {
    var leaf := leaves[i];
    if IsTok(leaf) && Classify(leaf.token).Reads? {
      var op0 := Classify(leaf.token).op;
      var isAssign := op0 != Assign && i + 1 < |leaves| && IsTok(leaves[i + 1]) && leaves[i + 1].token.kind == OpAssign;
      if !isAssign {
        assert MergeStep(leaves, i, ops, false) == Apply(leaves, i, op0, false, [], ops, false);
        ApplyShape(leaves, i, op0, ops);
      }
    }
  }

  /** The leaves after merging the operator at `i` with its operands. */
  function Merged(leaves: seq<Leaf>, i: int): (r: seq<Leaf>)
    requires 0 < i < |leaves| - 1 && IsTok(leaves[i]) && Classify(leaves[i].token).Reads?
    ensures |r| == |leaves| - 2 && r[..i - 1] == leaves[..i - 1] && r[i..] == leaves[i + 2..]
    ensures r[i - 1] == Bin(Classify(leaves[i].token).op, leaves[i - 1], leaves[i].token, leaves[i + 1])
  {
    leaves[..i - 1] + [Bin(Classify(leaves[i].token).op, leaves[i - 1], leaves[i].token, leaves[i + 1])] + leaves[i + 2..]
  }

  lemma ApplyShape(leaves: seq<Leaf>, i: int, op0: Operator, ops: set<Operator>)
    requires 0 <= i < |leaves| && BinaryOnly(ops)
    requires IsTok(leaves[i]) && Classify(leaves[i].token) == Reads(op0)
    requires !(op0 != Assign && i + 1 < |leaves| && IsTok(leaves[i + 1]) && leaves[i + 1].token.kind == OpAssign)
    ensures var s := Apply(leaves, i, op0, false, [], ops, false);
      || (s == Next(leaves, i + 1) && !Mergeable(leaves, i, ops))
      || (Mergeable(leaves, i, ops) && s == Next(Merged(leaves, i), i))
  {
    if Mergeable(leaves, i, ops) {
      ApplyMerges(leaves, i, op0, ops);
    } else {
      ApplySkips(leaves, i, op0, ops);
    }
  }

  lemma ApplyMerges(leaves: seq<Leaf>, i: int, op0: Operator, ops: set<Operator>)
    requires 0 <= i < |leaves| && BinaryOnly(ops)
    requires Classify(leaves[i].token) == Reads(op0) && Mergeable(leaves, i, ops)
    ensures Apply(leaves, i, op0, false, [], ops, false) == Next(Merged(leaves, i), i)
  {
    var tok := leaves[i].token;
    var node := Expr(op0, false || Assign in ops, [leaves[i - 1], leaves[i + 1]], [tok] + []);
    assert node == Node0(op0, [leaves[i - 1], leaves[i + 1]], [tok]) by {
      assert [tok] + [] == [tok];
    }
    ApplyBinary(leaves, i, op0, ops);
  }

  /** The last branch of `Apply`: an operator of the pass between two operands. */
  lemma ApplyBinary(leaves: seq<Leaf>, i: int, op0: Operator, ops: set<Operator>)
    requires 0 < i < |leaves| - 1 && !IsTok(leaves[i - 1]) && !IsTok(leaves[i + 1])
    requires op0 in ops && BinaryOnly(ops)
    ensures Apply(leaves, i, op0, false, [], ops, false) ==
      Next(leaves[..i - 1] + [Nest(Expr(op0, false || Assign in ops, [leaves[i - 1], leaves[i + 1]], [leaves[i].token] + []))] + leaves[i + 2..], i)
  {
  }

  lemma ApplySkips(leaves: seq<Leaf>, i: int, op0: Operator, ops: set<Operator>)
    requires 0 <= i < |leaves| && BinaryOnly(ops)
    requires IsTok(leaves[i]) && Classify(leaves[i].token) == Reads(op0) && !Mergeable(leaves, i, ops)
    ensures Apply(leaves, i, op0, false, [], ops, false) == Next(leaves, i + 1)
  {
    var leftIsExpr := i >= 1 && !IsTok(leaves[i - 1]);
    var rightIsExpr := i + 1 < |leaves| && !IsTok(leaves[i + 1]);
    var op := if op0 == Sub && !leftIsExpr && rightIsExpr then UnaryMinus else op0;
    if op !in ops {
      ApplyOutsidePass(leaves, i, op0, ops);
    } else {
      ApplyWithoutOperands(leaves, i, op0, ops);
    }
  }

  lemma ApplyOutsidePass(leaves: seq<Leaf>, i: int, op0: Operator, ops: set<Operator>)
    requires 0 <= i < |leaves|
    requires (if op0 == Sub && !(i >= 1 && !IsTok(leaves[i - 1])) && (i + 1 < |leaves| && !IsTok(leaves[i + 1]))
      then UnaryMinus else op0) !in ops
    ensures Apply(leaves, i, op0, false, [], ops, false) == Next(leaves, i + 1)
  {
  }

  lemma ApplyWithoutOperands(leaves: seq<Leaf>, i: int, op0: Operator, ops: set<Operator>)
    requires 0 <= i < |leaves| && BinaryOnly(ops) && op0 in ops
    requires !(i >= 1 && !IsTok(leaves[i - 1])) || !(i + 1 < |leaves| && !IsTok(leaves[i + 1]))
    ensures Apply(leaves, i, op0, false, [], ops, false) == Next(leaves, i + 1)
  {
  }

  /** One left-to-right step keeps every position before the next index free of mergeable operators. */
  lemma StepKeepsPrefixMerged(leaves: seq<Leaf>, i: int, ops: set<Operator>)
    requires 0 <= i < |leaves| && BinaryOnly(ops)
    requires NoneMergeableBefore(leaves, i, ops)
    ensures var s := MergeStep(leaves, i, ops, false);
      s.Next? ==> NoneMergeableBefore(s.leaves, s.i, ops)
  {
    LeftStepShape(leaves, i, ops);
    var s := MergeStep(leaves, i, ops, false);
    if s.Next? && Mergeable(leaves, i, ops) {
      var m := s.leaves;
      forall j | 0 <= j < i
        ensures !Mergeable(m, j, ops)
      {
        if j < i - 1 {
          assert m[j] == m[..i - 1][j] == leaves[..i - 1][j] == leaves[j];
          if j >= 1 {
            assert m[j - 1] == m[..i - 1][j - 1] == leaves[j - 1];
          }
          if j + 1 < i - 1 {
            assert m[j + 1] == m[..i - 1][j + 1] == leaves[j + 1];
          }
          assert !Mergeable(leaves, j, ops);
        }
      }
    }
  }

  /**
   * After a left-to-right pass of binary operators, no operator of the pass
   * is left standing between two operands.
   */
  lemma {:induction false} LeftPassMergesAll(leaves: seq<Leaf>, i: int, ops: set<Operator>)
    requires 0 <= i <= |leaves| && BinaryOnly(ops)
    requires NoneMergeableBefore(leaves, i, ops)
    ensures var r := Pass(leaves, i, ops, false);
      r.Returns? && r.value.Some? ==> forall j | 0 <= j < |r.value.value| :: !Mergeable(r.value.value, j, ops)
    decreases |leaves| - i
  {
    if i < |leaves| {
      var s := MergeStep(leaves, i, ops, false);
      if s.Next? {
        StepKeepsPrefixMerged(leaves, i, ops);
        LeftPassMergesAll(s.leaves, s.i, ops);
      }
    }
  }

  /** The same, from the start of the list: the whole result is merged. */
  lemma BinaryPassIsComplete(leaves: seq<Leaf>, ops: set<Operator>)
    requires BinaryOnly(ops)
    ensures var r := Pass(leaves, Start(leaves, false), ops, false);
      r.Returns? && r.value.Some? ==> forall j | 0 <= j < |r.value.value| :: !Mergeable(r.value.value, j, ops)
  {
    LeftPassMergesAll(leaves, 0, ops);
  }

  /** The binary node a pass builds for `l op r`. */
  function Bin(op: Operator, l: Leaf, t: Token, r: Leaf): Leaf {
    Nest(Node0(op, [l, r], [t]))
  }

  /** A token the passes read as a binary operator of `ops`. */
  predicate BinaryToken(t: Token, ops: set<Operator>) {
    Classify(t).Reads? && Classify(t).op in ops
  }

  /** A left-to-right pass steps over an operand. */
  lemma OperandStep(leaves: seq<Leaf>, i: int, ops: set<Operator>)
    requires 0 <= i < |leaves| && !IsTok(leaves[i])
    ensures Pass(leaves, i, ops, false) == Pass(leaves, i + 1, ops, false)
  {
  }

  /** A left-to-right pass at an operator that no `=` follows: it merges it or steps over it. */
  lemma OperatorStep(leaves: seq<Leaf>, i: int, ops: set<Operator>)
    requires 0 <= i < |leaves| && BinaryOnly(ops) && IsTok(leaves[i]) && Classify(leaves[i].token).Reads?
    requires !(i + 1 < |leaves| && IsTok(leaves[i + 1]))
    ensures Mergeable(leaves, i, ops) ==> Pass(leaves, i, ops, false) == Pass(Merged(leaves, i), i, ops, false)
    ensures !Mergeable(leaves, i, ops) ==> Pass(leaves, i, ops, false) == Pass(leaves, i + 1, ops, false)
  {
    LeftStepShape(leaves, i, ops);
  }

  /**
   * Two operators merged by one pass group from the left:
   * `a op1 b op2 c` becomes `(a op1 b) op2 c`.
   */
  lemma OnePassGroupsFromLeft(a: Leaf, t1: Token, b: Leaf, t2: Token, c: Leaf, ops: set<Operator>)
    requires BinaryOnly(ops) && BinaryToken(t1, ops) && BinaryToken(t2, ops)
    requires !IsTok(a) && !IsTok(b) && !IsTok(c)
    ensures Pass([a, Atom(TokenLeaf, t1), b, Atom(TokenLeaf, t2), c], 0, ops, false) ==
      Returns(Some([Bin(Classify(t2).op, Bin(Classify(t1).op, a, t1, b), t2, c)]))
  {
    var l0 := [a, Atom(TokenLeaf, t1), b, Atom(TokenLeaf, t2), c];
    var n1 := Bin(Classify(t1).op, a, t1, b);
    var l1 := [n1, Atom(TokenLeaf, t2), c];
    var n2 := Bin(Classify(t2).op, n1, t2, c);
    OperandStep(l0, 0, ops);
    OperatorStep(l0, 1, ops);
    assert Mergeable(l0, 1, ops) && Merged(l0, 1) == l1;
    OperatorStep(l1, 1, ops);
    assert Mergeable(l1, 1, ops) && Merged(l1, 1) == [n2];
  }

  /** The ternary pass, when it succeeds, leaves no `?` token behind. */
  lemma {:induction false} TernaryPassRemovesQuestionmarks(leaves: seq<Leaf>, i: nat)
    requires i <= |leaves|
    requires forall j | 0 <= j < i :: !(IsTok(leaves[j]) && leaves[j].token.kind == Questionmark)
    ensures var r := TernaryPass(leaves, i);
      r.Some? ==> forall j | 0 <= j < |r.value| :: !(IsTok(r.value[j]) && r.value[j].token.kind == Questionmark)
    decreases |leaves| - i
  {
    if i < |leaves| {
      if !IsTok(leaves[i]) || leaves[i].token.kind != Questionmark {
        assert TernaryPass(leaves, i) == TernaryPass(leaves, i + 1);
        TernaryPassRemovesQuestionmarks(leaves, i + 1);
      } else if WellFormedTernary(leaves, i) {
        var f := FoldTernary(leaves, i);
        assert TernaryPass(leaves, i) == TernaryPass(f, i);
        forall j | 0 <= j < i
          ensures !(IsTok(f[j]) && f[j].token.kind == Questionmark)
        {
          if j < i - 1 {
            assert f[j] == f[..i - 1][j] == leaves[..i - 1][j] == leaves[j];
          }
        }
        TernaryPassRemovesQuestionmarks(f, i);
      }
    }
  }

  /** `c ? a : b` folds to one ternary expression over the three operands. */
  lemma TernaryFolds(c: Leaf, q: Token, a: Leaf, k: Token, b: Leaf)
    requires !IsTok(c) && !IsTok(a) && !IsTok(b) && q.kind == Questionmark && k.kind == Colon
    ensures TernaryPass([c, Atom(TokenLeaf, q), a, Atom(TokenLeaf, k), b], 0) ==
      Some([Nest(Node0(Ternary, [c, a, b], [q, k]))])
  {
    var l0 := [c, Atom(TokenLeaf, q), a, Atom(TokenLeaf, k), b];
    var f := [Nest(Node0(Ternary, [c, a, b], [q, k]))];
    assert FoldTernary(l0, 1) == f;
    assert TernaryPass(l0, 0) == TernaryPass(l0, 1) == TernaryPass(f, 1) == Some(f);
  }

  /** A `?` without its `: operand` fails the whole pass. */
  lemma MalformedTernaryFails(c: Leaf, q: Token, a: Leaf)
    requires !IsTok(c) && !IsTok(a) && q.kind == Questionmark
    ensures TernaryPass([c, Atom(TokenLeaf, q), a], 0) == None
  {
    var l0 := [c, Atom(TokenLeaf, q), a];
    assert TernaryPass(l0, 0) == TernaryPass(l0, 1);
  }

  // ---------------------------------------------------------------- passes that change nothing

  /**
   * No token of `leaves` is an operator the pass set `ops` merges: every
   * token is a known operator outside `ops` (a `-` read as prefix minus
   * counted as such), and an assignment pass sees no tokens at all.
   */
  predicate Untouched(leaves: seq<Leaf>, ops: set<Operator>) {
    forall j | 0 <= j < |leaves| :: IsTok(leaves[j]) ==>
      && Assign !in ops
      && Classify(leaves[j].token).Reads?
      && Classify(leaves[j].token).op !in ops
      && (Classify(leaves[j].token).op == Sub ==> UnaryMinus !in ops || (j >= 1 && !IsTok(leaves[j - 1])))
  }

  lemma StepUntouched(leaves: seq<Leaf>, i: int, ops: set<Operator>, right: bool)
    requires 0 <= i < |leaves| && Untouched(leaves, ops)
    ensures MergeStep(leaves, i, ops, right) == Next(leaves, Adv(i, right))
  {
    if IsTok(leaves[i]) {
      var op0 := Classify(leaves[i].token).op;
      var isAssign := op0 != Assign && i + 1 < |leaves| && IsTok(leaves[i + 1]) && leaves[i + 1].token.kind == OpAssign;
      if !isAssign {
        assert MergeStep(leaves, i, ops, right) == Apply(leaves, i, op0, false, [], ops, right);
      }
    }
  }

  /** A pass over leaves it has nothing to merge in hands them back unchanged. */
  lemma {:induction false} PassUntouched(leaves: seq<Leaf>, i: int, ops: set<Operator>, right: bool)
    requires InPass(leaves, i, right) && (right ==> i < |leaves|) && Untouched(leaves, ops)
    ensures Pass(leaves, i, ops, right) == Returns(Some(leaves))
    decreases Measure(leaves, i, right)
  {
    if (right && i >= 0) || (!right && i < |leaves|) {
      StepUntouched(leaves, i, ops, right);
      PassUntouched(leaves, Adv(i, right), ops, right);
    }
  }

  /** Passes whose operators do not occur are skipped over. */
  lemma {:induction false} RunPassesSkips(leaves: seq<Leaf>, passes: seq<PassSpec>, k: nat)
    requires k <= |passes|
    requires forall j | 0 <= j < k :: Untouched(leaves, passes[j].ops)
    ensures RunPasses(leaves, passes) == RunPasses(leaves, passes[k..])
    decreases k
  {
    if k > 0 {
      PassUntouched(leaves, Start(leaves, passes[0].right), passes[0].ops, passes[0].right);
      assert passes[1..][k - 1..] == passes[k..];
      RunPassesSkips(leaves, passes[1..], k - 1);
    }
  }

  /** Passes one after another. */
  lemma RunPassesStep(leaves: seq<Leaf>, passes: seq<PassSpec>, after: seq<Leaf>)
    requires |passes| > 0
    requires Pass(leaves, Start(leaves, passes[0].right), passes[0].ops, passes[0].right) == Returns(Some(after))
    ensures RunPasses(leaves, passes) == RunPasses(after, passes[1..])
  {
  }

  /** After the last pass nothing is left to run. */
  lemma RunPassesDone(leaves: seq<Leaf>, passes: seq<PassSpec>)
    requires forall j | 0 <= j < |passes| :: Untouched(leaves, passes[j].ops)
    ensures RunPasses(leaves, passes) == Returns(Some(leaves))
  {
    RunPassesSkips(leaves, passes, |passes|);
  }

  /** An empty list of leaves goes through every pass unchanged. */
  lemma NothingToReduce()
    ensures ReduceAsWritten([]) == Returns(Some([]))
    ensures Reduce([]) == Returns(Some([]))
  {
    RunPassesDone([], UnaryPasses + BinaryPassesAsWritten);
    RunPassesDone([], UnaryPasses + BinaryPasses);
  }

  /** A single operand survives the ternary and assignment passes. */
  lemma FinalPassesKeepOperand(x: Leaf)
    requires !IsTok(x)
    ensures TernaryPass([x], 0) == Some([x])
    ensures Pass([x], 0, {Assign}, false) == Returns(Some([x]))
  {
    assert TernaryPass([x], 0) == TernaryPass([x], 1);
    PassUntouched([x], 0, {Assign}, false);
  }

  // ---------------------------------------------------------------- grouping of `a - b + c`

  /**
   * As the program runs the passes, `+` is merged in a pass of its own
   * before `-`, so `a - b + c` reduces to `a - (b + c)`.
   */
  lemma AdditiveChainAsWritten(a: Leaf, minus: Token, b: Leaf, plus: Token, c: Leaf)
    requires !IsTok(a) && !IsTok(b) && !IsTok(c) && minus.kind == OpSubtract && plus.kind == OpAdd
    ensures ReduceAsWritten([a, Atom(TokenLeaf, minus), b, Atom(TokenLeaf, plus), c]) ==
      Returns(Some([Bin(Sub, a, minus, Bin(Add, b, plus, c))]))
  {
    var l0 := [a, Atom(TokenLeaf, minus), b, Atom(TokenLeaf, plus), c];
    var n1 := Bin(Add, b, plus, c);
    var l1 := [a, Atom(TokenLeaf, minus), n1];
    var n2 := Bin(Sub, a, minus, n1);
    var ps := UnaryPasses + BinaryPassesAsWritten;
    EarlyPassesSkip(a, minus, b, plus, c);
    PlusPassFirst(a, minus, b, plus, c);
    MinusPassSecond(a, minus, n1);
    LatePassesSkip(n2);
    TwoPasses(l0, l1, [n2], ps, 12);
    ReduceToOperand(l0, BinaryPassesAsWritten, n2);
  }

  /** Two passes in a row, each with a known result. */
  lemma TwoPasses(l0: seq<Leaf>, l1: seq<Leaf>, l2: seq<Leaf>, ps: seq<PassSpec>, k: nat)
    requires k + 1 < |ps| && !ps[k].right && !ps[k + 1].right
    requires Pass(l0, 0, ps[k].ops, false) == Returns(Some(l1))
    requires Pass(l1, 0, ps[k + 1].ops, false) == Returns(Some(l2))
    ensures RunPasses(l0, ps[k..]) == RunPasses(l2, ps[k + 2..])
  {
    RunPassesStep(l0, ps[k..], l1);
    assert ps[k..][1..] == ps[k + 1..];
    RunPassesStep(l1, ps[k + 1..], l2);
    assert ps[k + 1..][1..] == ps[k + 2..];
  }

  lemma LatePassesSkip(x: Leaf)
    requires !IsTok(x)
    ensures RunPasses([x], (UnaryPasses + BinaryPassesAsWritten)[14..]) == Returns(Some([x]))
  {
    RunPassesDone([x], (UnaryPasses + BinaryPassesAsWritten)[14..]);
  }

  /** When the unary and binary passes leave one operand, the reduction ends with it. */
  lemma ReduceToOperand(leaves: seq<Leaf>, binary: seq<PassSpec>, x: Leaf)
    requires !IsTok(x) && RunPasses(leaves, UnaryPasses + binary) == Returns(Some([x]))
    ensures ReduceWith(leaves, binary) == Returns(Some([x]))
  {
    FinalPassesKeepOperand(x);
  }

  /** Two operators between three operands, neither of them in the pass. */
  lemma ShapeUntouched(l0: seq<Leaf>, ops: set<Operator>)
    requires |l0| == 5 && !IsTok(l0[0]) && !IsTok(l0[2]) && !IsTok(l0[4]) && IsTok(l0[1]) && IsTok(l0[3])
    requires Classify(l0[1].token).Reads? && Classify(l0[3].token).Reads?
    requires Assign !in ops && Classify(l0[1].token).op !in ops && Classify(l0[3].token).op !in ops
    ensures Untouched(l0, ops)
  {
    assert forall k | 0 <= k < |l0| :: IsTok(l0[k]) ==> k == 1 || k == 3;
  }

  /** The unary passes read only postfix, prefix and vector operators. */
  lemma UnaryPassesOps()
    ensures forall j | 0 <= j < |UnaryPasses| ::
      UnaryPasses[j].ops <= {VectorDot, VectorCross, Increment, Decrement, UnaryNeg, UnaryNot, UnaryMinus}
  {
  }

  lemma EarlyPassesSkip(a: Leaf, minus: Token, b: Leaf, plus: Token, c: Leaf)
    requires !IsTok(a) && !IsTok(b) && !IsTok(c) && minus.kind == OpSubtract && plus.kind == OpAdd
    ensures var l0 := [a, Atom(TokenLeaf, minus), b, Atom(TokenLeaf, plus), c];
      var ps := UnaryPasses + BinaryPassesAsWritten;
      RunPasses(l0, ps) == RunPasses(l0, ps[12..]) && ps[12] == Left(Add) && ps[13] == Left(Sub)
  {
    var l0 := [a, Atom(TokenLeaf, minus), b, Atom(TokenLeaf, plus), c];
    var ps := UnaryPasses + BinaryPassesAsWritten;
    EarlyPassesUntouched(l0, ps);
    RunPassesSkips(l0, ps, 12);
    AdditivePassesAsWritten();
  }

  lemma AdditivePassesAsWritten()
    ensures (UnaryPasses + BinaryPassesAsWritten)[12] == Left(Add)
    ensures (UnaryPasses + BinaryPassesAsWritten)[13] == Left(Sub)
  {
    var ps := UnaryPasses + BinaryPassesAsWritten;
    assert ps[12] == BinaryPassesAsWritten[3];
    assert ps[13] == BinaryPassesAsWritten[4];
  }

  lemma EarlyPassesUntouched(l0: seq<Leaf>, ps: seq<PassSpec>)
    requires |l0| == 5 && !IsTok(l0[0]) && !IsTok(l0[2]) && !IsTok(l0[4]) && IsTok(l0[1]) && IsTok(l0[3])
    requires l0[1].token.kind == OpSubtract && l0[3].token.kind == OpAdd
    requires ps == UnaryPasses + BinaryPassesAsWritten
    ensures 12 <= |ps| && forall j | 0 <= j < 12 :: Untouched(l0, ps[j].ops)
  {
    UnaryPassesOps();
    forall j | 0 <= j < 12
      ensures Untouched(l0, ps[j].ops)
    {
      if j < 9 {
        assert ps[j] == UnaryPasses[j];
      } else {
        assert ps[j] == BinaryPassesAsWritten[j - 9];
      }
      ShapeUntouched(l0, ps[j].ops);
    }
  }

  lemma PlusPassFirst(a: Leaf, minus: Token, b: Leaf, plus: Token, c: Leaf)
    requires !IsTok(a) && !IsTok(b) && !IsTok(c) && minus.kind == OpSubtract && plus.kind == OpAdd
    ensures Pass([a, Atom(TokenLeaf, minus), b, Atom(TokenLeaf, plus), c], 0, {Add}, false) ==
      Returns(Some([a, Atom(TokenLeaf, minus), Bin(Add, b, plus, c)]))
  {
    var l0 := [a, Atom(TokenLeaf, minus), b, Atom(TokenLeaf, plus), c];
    var l1 := [a, Atom(TokenLeaf, minus), Bin(Add, b, plus, c)];
    PlusPassSkipsMinus(a, minus, b, plus, c);
    OperandStep(l0, 2, {Add});
    OperatorStep(l0, 3, {Add});
    assert Mergeable(l0, 3, {Add}) && Merged(l0, 3) == l1;
  }

  lemma PlusPassSkipsMinus(a: Leaf, minus: Token, b: Leaf, plus: Token, c: Leaf)
    requires !IsTok(a) && !IsTok(b) && minus.kind == OpSubtract
    ensures var l0 := [a, Atom(TokenLeaf, minus), b, Atom(TokenLeaf, plus), c];
      Pass(l0, 0, {Add}, false) == Pass(l0, 2, {Add}, false)
  {
    var l0 := [a, Atom(TokenLeaf, minus), b, Atom(TokenLeaf, plus), c];
    OperandStep(l0, 0, {Add});
    OperatorStep(l0, 1, {Add});
    assert !Mergeable(l0, 1, {Add});
  }

  lemma MinusPassSecond(a: Leaf, minus: Token, n: Leaf)
    requires !IsTok(a) && !IsTok(n) && minus.kind == OpSubtract
    ensures Pass([a, Atom(TokenLeaf, minus), n], 0, {Sub}, false) == Returns(Some([Bin(Sub, a, minus, n)]))
  {
    var l1 := [a, Atom(TokenLeaf, minus), n];
    OperandStep(l1, 0, {Sub});
    OperatorStep(l1, 1, {Sub});
    assert Mergeable(l1, 1, {Sub}) && Merged(l1, 1) == [Bin(Sub, a, minus, n)];
  }

  /**
   * With the operators of one precedence level merged in one pass,
   * `a - b + c` reduces to `(a - b) + c`.
   */
  lemma AdditiveChainGroupsFromLeft(a: Leaf, minus: Token, b: Leaf, plus: Token, c: Leaf)
    requires !IsTok(a) && !IsTok(b) && !IsTok(c) && minus.kind == OpSubtract && plus.kind == OpAdd
    ensures Reduce([a, Atom(TokenLeaf, minus), b, Atom(TokenLeaf, plus), c]) ==
      Returns(Some([Bin(Add, Bin(Sub, a, minus, b), plus, c)]))
  {
    var l0 := [a, Atom(TokenLeaf, minus), b, Atom(TokenLeaf, plus), c];
    var n := Bin(Add, Bin(Sub, a, minus, b), plus, c);
    var ps := UnaryPasses + BinaryPasses;
    AdditiveEarlyPassesSkip(a, minus, b, plus, c);
    OnePassGroupsFromLeft(a, minus, b, plus, c, {Add, Sub});
    OnePass(l0, [n], ps, 10);
    PassesAfterAdditiveSkip(n);
    ReduceToOperand(l0, BinaryPasses, n);
  }

  /** Before the additive pass, `a - b + c` is left alone. */
  lemma AdditiveEarlyPassesSkip(a: Leaf, minus: Token, b: Leaf, plus: Token, c: Leaf)
    requires !IsTok(a) && !IsTok(b) && !IsTok(c) && minus.kind == OpSubtract && plus.kind == OpAdd
    ensures var l0 := [a, Atom(TokenLeaf, minus), b, Atom(TokenLeaf, plus), c];
      var ps := UnaryPasses + BinaryPasses;
      RunPasses(l0, ps) == RunPasses(l0, ps[10..]) && ps[10] == PassSpec({Add, Sub}, false)
  {
    var l0 := [a, Atom(TokenLeaf, minus), b, Atom(TokenLeaf, plus), c];
    var ps := UnaryPasses + BinaryPasses;
    ArithmeticPasses();
    AdditiveUntouched(l0, ps);
    RunPassesSkips(l0, ps, 10);
  }

  lemma AdditiveUntouched(l0: seq<Leaf>, ps: seq<PassSpec>)
    requires |l0| == 5 && !IsTok(l0[0]) && !IsTok(l0[2]) && !IsTok(l0[4]) && IsTok(l0[1]) && IsTok(l0[3])
    requires l0[1].token.kind == OpSubtract && l0[3].token.kind == OpAdd
    requires ps == UnaryPasses + BinaryPasses
    ensures 10 <= |ps| && forall j | 0 <= j < 10 :: Untouched(l0, ps[j].ops)
  {
    ArithmeticPasses();
    UnaryPassesUntouched(l0, ps);
    ShapeUntouched(l0, ps[9].ops);
  }

  /** One pass with a known result. */
  lemma OnePass(l0: seq<Leaf>, l1: seq<Leaf>, ps: seq<PassSpec>, k: nat)
    requires k < |ps| && !ps[k].right
    requires Pass(l0, 0, ps[k].ops, false) == Returns(Some(l1))
    ensures RunPasses(l0, ps[k..]) == RunPasses(l1, ps[k + 1..])
  {
    RunPassesStep(l0, ps[k..], l1);
    assert ps[k..][1..] == ps[k + 1..];
  }

  // ---------------------------------------------------------------- precedence of `*` over `+`

  /** `a + b * c` reduces to `a + (b * c)`: the multiplicative pass runs first. */
  lemma ProductBindsTighter(a: Leaf, plus: Token, b: Leaf, times: Token, c: Leaf)
    requires !IsTok(a) && !IsTok(b) && !IsTok(c) && plus.kind == OpAdd && times.kind == OpMultiply
    ensures Reduce([a, Atom(TokenLeaf, plus), b, Atom(TokenLeaf, times), c]) ==
      Returns(Some([Bin(Add, a, plus, Bin(Mul, b, times, c))]))
  {
    var l0 := [a, Atom(TokenLeaf, plus), b, Atom(TokenLeaf, times), c];
    var n1 := Bin(Mul, b, times, c);
    var l1 := [a, Atom(TokenLeaf, plus), n1];
    var n2 := Bin(Add, a, plus, n1);
    var ps := UnaryPasses + BinaryPasses;
    ProductEarlyPassesSkip(a, plus, b, times, c);
    ProductPassFirst(a, plus, b, times, c);
    SumPassSecond(a, plus, n1);
    TwoPasses(l0, l1, [n2], ps, 9);
    PassesAfterAdditiveSkip(n2);
    ReduceToOperand(l0, BinaryPasses, n2);
  }

  /**
   * As written too, `a + b * c` reduces to `a + (b * c)`: the pass for `*`
   * comes before those for `/`, `%` and `+`.
   */
  lemma ProductBindsTighterAsWritten(a: Leaf, plus: Token, b: Leaf, times: Token, c: Leaf)
    requires !IsTok(a) && !IsTok(b) && !IsTok(c) && plus.kind == OpAdd && times.kind == OpMultiply
    ensures ReduceAsWritten([a, Atom(TokenLeaf, plus), b, Atom(TokenLeaf, times), c]) ==
      Returns(Some([Bin(Add, a, plus, Bin(Mul, b, times, c))]))
  {
    var l0 := [a, Atom(TokenLeaf, plus), b, Atom(TokenLeaf, times), c];
    var n1 := Bin(Mul, b, times, c);
    var l1 := [a, Atom(TokenLeaf, plus), n1];
    var n2 := Bin(Add, a, plus, n1);
    var ps := UnaryPasses + BinaryPassesAsWritten;
    ProductEarlyPassesSkipAsWritten(a, plus, b, times, c);
    TimesPassFirst(a, plus, b, times, c);
    OnePass(l0, l1, ps, 9);
    DivisionPassesSkipAsWritten(a, plus, n1);
    PlusPassAlone(a, plus, n1);
    OnePass(l1, [n2], ps, 12);
    PassesAfterPlusSkipAsWritten(n2);
    ReduceToOperand(l0, BinaryPassesAsWritten, n2);
  }

  /** As written, the passes for `/` and `%` leave `a + n` alone. */
  lemma DivisionPassesSkipAsWritten(a: Leaf, plus: Token, n: Leaf)
    requires !IsTok(a) && !IsTok(n) && plus.kind == OpAdd
    ensures var ps := UnaryPasses + BinaryPassesAsWritten;
      RunPasses([a, Atom(TokenLeaf, plus), n], ps[10..]) == RunPasses([a, Atom(TokenLeaf, plus), n], ps[12..])
  {
    var l1 := [a, Atom(TokenLeaf, plus), n];
    var ps := UnaryPasses + BinaryPassesAsWritten;
    assert ps[10..][0] == Left(Div) && ps[10..][1] == Left(Modulo);
    assert Untouched(l1, {Div}) && Untouched(l1, {Modulo});
    RunPassesSkips(l1, ps[10..], 2);
    assert ps[10..][2..] == ps[12..];
  }

  /** As written, the passes after the one for `+` leave a single operand alone. */
  lemma PassesAfterPlusSkipAsWritten(x: Leaf)
    requires !IsTok(x)
    ensures RunPasses([x], (UnaryPasses + BinaryPassesAsWritten)[13..]) == Returns(Some([x]))
  {
    RunPassesDone([x], (UnaryPasses + BinaryPassesAsWritten)[13..]);
  }

  /** As written, the unary passes leave `a + b * c` alone, and the passes for `*`, `/`, `%` and `+` follow. */
  lemma ProductEarlyPassesSkipAsWritten(a: Leaf, plus: Token, b: Leaf, times: Token, c: Leaf)
    requires !IsTok(a) && !IsTok(b) && !IsTok(c) && plus.kind == OpAdd && times.kind == OpMultiply
    ensures var l0 := [a, Atom(TokenLeaf, plus), b, Atom(TokenLeaf, times), c];
      var ps := UnaryPasses + BinaryPassesAsWritten;
      && RunPasses(l0, ps) == RunPasses(l0, ps[9..])
      && ps[9] == Left(Mul) && ps[10] == Left(Div) && ps[11] == Left(Modulo) && ps[12] == Left(Add)
  {
    var l0 := [a, Atom(TokenLeaf, plus), b, Atom(TokenLeaf, times), c];
    var ps := UnaryPasses + BinaryPassesAsWritten;
    assert ps[..9] == UnaryPasses;
    UnaryPassesUntouched(l0, ps);
    RunPassesSkips(l0, ps, 9);
    assert ps[9] == BinaryPassesAsWritten[0] && ps[10] == BinaryPassesAsWritten[1];
    assert ps[11] == BinaryPassesAsWritten[2] && ps[12] == BinaryPassesAsWritten[3];
  }

  lemma TimesPassFirst(a: Leaf, plus: Token, b: Leaf, times: Token, c: Leaf)
    requires !IsTok(a) && !IsTok(b) && !IsTok(c) && plus.kind == OpAdd && times.kind == OpMultiply
    ensures Pass([a, Atom(TokenLeaf, plus), b, Atom(TokenLeaf, times), c], 0, {Mul}, false) ==
      Returns(Some([a, Atom(TokenLeaf, plus), Bin(Mul, b, times, c)]))
  {
    var l0 := [a, Atom(TokenLeaf, plus), b, Atom(TokenLeaf, times), c];
    var l1 := [a, Atom(TokenLeaf, plus), Bin(Mul, b, times, c)];
    OperandStep(l0, 0, {Mul});
    OperatorStep(l0, 1, {Mul});
    assert !Mergeable(l0, 1, {Mul});
    OperandStep(l0, 2, {Mul});
    OperatorStep(l0, 3, {Mul});
    assert Mergeable(l0, 3, {Mul}) && Merged(l0, 3) == l1;
  }

  lemma PlusPassAlone(a: Leaf, plus: Token, n: Leaf)
    requires !IsTok(a) && !IsTok(n) && plus.kind == OpAdd
    ensures Pass([a, Atom(TokenLeaf, plus), n], 0, {Add}, false) == Returns(Some([Bin(Add, a, plus, n)]))
  {
    var l1 := [a, Atom(TokenLeaf, plus), n];
    OperandStep(l1, 0, {Add});
    OperatorStep(l1, 1, {Add});
    assert Mergeable(l1, 1, {Add}) && Merged(l1, 1) == [Bin(Add, a, plus, n)];
  }

  lemma PassesAfterAdditiveSkip(x: Leaf)
    requires !IsTok(x)
    ensures RunPasses([x], (UnaryPasses + BinaryPasses)[11..]) == Returns(Some([x]))
  {
    RunPassesDone([x], (UnaryPasses + BinaryPasses)[11..]);
  }

  lemma ProductEarlyPassesSkip(a: Leaf, plus: Token, b: Leaf, times: Token, c: Leaf)
    requires !IsTok(a) && !IsTok(b) && !IsTok(c) && plus.kind == OpAdd && times.kind == OpMultiply
    ensures var l0 := [a, Atom(TokenLeaf, plus), b, Atom(TokenLeaf, times), c];
      var ps := UnaryPasses + BinaryPasses;
      RunPasses(l0, ps) == RunPasses(l0, ps[9..]) &&
      ps[9] == PassSpec({Mul, Div, Modulo}, false) && ps[10] == PassSpec({Add, Sub}, false)
  {
    var l0 := [a, Atom(TokenLeaf, plus), b, Atom(TokenLeaf, times), c];
    var ps := UnaryPasses + BinaryPasses;
    UnaryPassesUntouched(l0, ps);
    RunPassesSkips(l0, ps, 9);
    ArithmeticPasses();
  }

  lemma UnaryPassesUntouched(l0: seq<Leaf>, ps: seq<PassSpec>)
    requires |l0| == 5 && !IsTok(l0[0]) && !IsTok(l0[2]) && !IsTok(l0[4]) && IsTok(l0[1]) && IsTok(l0[3])
    requires Classify(l0[1].token).Reads? && Classify(l0[3].token).Reads?
    requires Classify(l0[1].token).op in {Add, Sub, Mul} && Classify(l0[3].token).op in {Add, Sub, Mul}
    requires |ps| >= 9 && ps[..9] == UnaryPasses
    ensures forall j | 0 <= j < 9 :: Untouched(l0, ps[j].ops)
  {
    UnaryPassesOps();
    forall j | 0 <= j < 9
      ensures Untouched(l0, ps[j].ops)
    {
      assert ps[j] == ps[..9][j];
      ShapeUntouched(l0, ps[j].ops);
    }
  }

  lemma ArithmeticPasses()
    ensures (UnaryPasses + BinaryPasses)[9] == PassSpec({Mul, Div, Modulo}, false)
    ensures (UnaryPasses + BinaryPasses)[10] == PassSpec({Add, Sub}, false)
    ensures (UnaryPasses + BinaryPasses)[..9] == UnaryPasses
  {
    var ps := UnaryPasses + BinaryPasses;
    assert ps[9] == BinaryPasses[0];
    assert ps[10] == BinaryPasses[1];
  }

  lemma ProductPassFirst(a: Leaf, plus: Token, b: Leaf, times: Token, c: Leaf)
    requires !IsTok(a) && !IsTok(b) && !IsTok(c) && plus.kind == OpAdd && times.kind == OpMultiply
    ensures Pass([a, Atom(TokenLeaf, plus), b, Atom(TokenLeaf, times), c], 0, {Mul, Div, Modulo}, false) ==
      Returns(Some([a, Atom(TokenLeaf, plus), Bin(Mul, b, times, c)]))
  {
    var ops := {Mul, Div, Modulo};
    var l0 := [a, Atom(TokenLeaf, plus), b, Atom(TokenLeaf, times), c];
    var l1 := [a, Atom(TokenLeaf, plus), Bin(Mul, b, times, c)];
    ProductPassSkipsSum(a, plus, b, times, c);
    OperandStep(l0, 2, ops);
    OperatorStep(l0, 3, ops);
    assert Mergeable(l0, 3, ops) && Merged(l0, 3) == l1;
  }

  lemma ProductPassSkipsSum(a: Leaf, plus: Token, b: Leaf, times: Token, c: Leaf)
    requires !IsTok(a) && !IsTok(b) && plus.kind == OpAdd
    ensures var l0 := [a, Atom(TokenLeaf, plus), b, Atom(TokenLeaf, times), c];
      Pass(l0, 0, {Mul, Div, Modulo}, false) == Pass(l0, 2, {Mul, Div, Modulo}, false)
  {
    var ops := {Mul, Div, Modulo};
    var l0 := [a, Atom(TokenLeaf, plus), b, Atom(TokenLeaf, times), c];
    OperandStep(l0, 0, ops);
    OperatorStep(l0, 1, ops);
    assert !Mergeable(l0, 1, ops);
  }

  lemma SumPassSecond(a: Leaf, plus: Token, n: Leaf)
    requires !IsTok(a) && !IsTok(n) && plus.kind == OpAdd
    ensures Pass([a, Atom(TokenLeaf, plus), n], 0, {Add, Sub}, false) == Returns(Some([Bin(Add, a, plus, n)]))
  {
    var ops := {Add, Sub};
    var l1 := [a, Atom(TokenLeaf, plus), n];
    OperandStep(l1, 0, ops);
    OperatorStep(l1, 1, ops);
    assert Mergeable(l1, 1, ops) && Merged(l1, 1) == [Bin(Add, a, plus, n)];
  }
}
