// Reading one expression from a token stream. The reader alternates an
// operand phase (a literal, a name, a member chain, a cast, a bracketed
// group, with an optional leading `-`) and an operator phase (an operator
// token, or a subscript, call or member access applied to the last operand),
// collecting a flat list of leaves; the merging passes then reduce that list
// to a single tree. Bracket bodies are read by consuming their tokens and
// reading each body as an expression of its own.

module ExpressionParser {
  import opened Tokens
  import opened TokenStreams
  import opened StreamOps
  import opened Ast
  import opened Merging
  import opened MergingProps
  import opened ExpressionSyntax

  /**
   * What one phase of the reading loop decides: go on (and whether the next
   * round starts with the operator phase), stop reading, give up (the program's
   * `goto fail`), or undefined behaviour.
   */
  datatype Flow = Go(leaves: seq<Leaf>, skipLeft: bool) | Done(leaves: seq<Leaf>) | Fail | Crash

  /** The cursor is at the end of the list or on a token of the stop set. */
  predicate AtStop(s: TokenStream, stop: Mask)
    reads s
  {
    s.pos >= |s.tokens| || s.tokens[s.pos].kind in stop
  }

  /** An expression leaf whose sub-expression has operator `op`. */
  predicate IsNode(l: Leaf, op: Operator) {
    l.kind == ExpressionLeaf && l.expr.Some? && l.expr.value.op == op
  }

  /** Token kinds the operator phase keeps as operator tokens for the passes. */
  predicate IsOperatorToken(k: TokenKind) {
    || k.OpAdd? || k.OpSubtract? || k.OpMultiply? || k.OpDivide? || k.OpAnd? || k.OpOr?
    || k.OpLeftShift? || k.OpRightShift? || k.OpRightShiftUnsigned? || k.OpXor?
    || k.OpEquals? || k.OpNotEquals? || k.OpSomewhatEquals?
    || k.OpLessThan? || k.OpGreaterThan? || k.OpLessOrEqual? || k.OpGreaterOrEqual? || k.OpSpaceship?
    || k.OpLogicalAnd? || k.OpLogicalOr? || k.OpNegate? || k.OpUnaryNot? || k.OpModulo?
    || k.OpAssign? || k.OpIncrement? || k.OpDecrement? || k.Questionmark? || k.Colon?
  }

  /** Every operator token the reader keeps is one the passes know: none of them makes a pass give up. */
  lemma OperatorTokensAreKnown(t: Token)
    requires IsOperatorToken(t.kind)
    ensures Classify(t).Reads? || Classify(t) == TernaryPart
    ensures Classify(t).Reads? ==> !Classify(t).op.VectorDot? && !Classify(t).op.VectorCross?
  {
  }

  /** Whether a comma stands outside parentheses (only `(` and `)` count). */
  method HasCommas(ts: seq<Token>) returns (b: bool)
    ensures b == HasTopLevelComma(ts)
  {
    var level := 0;
    var i := 0;
    while i < |ts|
      invariant 0 <= i <= |ts|
      invariant CommaAtLevel(ts, i, level) == HasTopLevelComma(ts)
    {
      var k := ts[i].kind;
      if k == OpenParen {
        level := level + 1;
      }
      if k == CloseParen {
        level := level - 1;
      }
      if k == Comma && level <= 0 {
        return true;
      }
      i := i + 1;
    }
    return false;
  }

  /** Only blanks and newlines. */
  predicate Blank(ts: seq<Token>) {
    forall k | 0 <= k < |ts| :: Skippable(ts[k].kind, true)
  }

  /** Whether a call argument holds anything but blanks and newlines. */
  method HasContent(ts: seq<Token>) returns (b: bool)
    ensures b == !Blank(ts)
  {
    var i := 0;
    while i < |ts|
      invariant 0 <= i <= |ts|
      invariant forall k | 0 <= k < i :: Skippable(ts[k].kind, true)
    {
      if !Skippable(ts[i].kind, true) {
        return true;
      }
      i := i + 1;
    }
    return false;
  }

  /**
   * Reads every comma-separated piece of a bracket body as an expression of
   * its own; any piece that does not read (an empty one included) fails the
   * whole body. `bound` is a length the body is shorter than.
   */
  method ParsePieces(ts: seq<Token>, ghost bound: nat) returns (r: Exec<Option<seq<Expr>>>)
    requires |ts| < bound
    ensures r.Returns? && r.value.Some? ==> |r.value.value| == |Pieces(ts)| == |Commas(ts)| + 1
    decreases bound, 0
  {
    PiecesRejoin(ts);
    var exprs: seq<Expr> := [];
    ghost var done: seq<seq<Token>> := [];
    var lastPos := 0;
    var i := 0;
    while i <= |ts|
      invariant i <= |ts| + 1
      invariant |exprs| == |done|
      invariant i <= |ts| ==> lastPos <= i && Pieces(ts) == done + SplitFrom(ts, lastPos, i)
      invariant i == |ts| + 1 ==> Pieces(ts) == done
      decreases |ts| + 1 - i
    {
      if i == |ts| || ts[i].kind == Comma {
        var piece := ts[lastPos..i];
        if i == |ts| {
          assert ts[lastPos..i] == ts[lastPos..];
          assert SplitFrom(ts, lastPos, i) == [piece];
        } else {
          var rest := SplitFrom(ts, i + 1, i + 1);
          assert SplitFrom(ts, lastPos, i) == [piece] + rest;
          assert done + ([piece] + rest) == (done + [piece]) + rest;
        }
        var e := ParseTokens(piece);
        if e.Undefined? {
          return Undefined;
        }
        if e.value.None? {
          return Returns(None);
        }
        exprs := exprs + [e.value.value];
        done := done + [piece];
        lastPos := i + 1;
      }
      i := i + 1;
    }
    return Returns(Some(exprs));
  }

  /** `{ a, b, .. }` after its `{`: an array initialisation with one element per piece. */
  method ParseArrayInitialization(s: TokenStream) returns (r: Exec<Option<Leaf>>)
    requires 0 < s.pos <= |s.tokens|
    modifies s
    ensures old(s.pos) <= s.pos <= |s.tokens|
    ensures r.Returns? && r.value.Some? ==>
      var c := Consume(s.tokens, old(s.pos), [], {CloseCurly}).0;
      c < |s.tokens| && s.tokens[c].kind == CloseCurly && s.pos == c + 1 &&
      IsNode(r.value.value, ArrayInitialization) &&
      |r.value.value.expr.value.leaves| == |Pieces(s.tokens[old(s.pos)..c])|
    decreases |s.tokens|, 1
  {
    var body, read, token := ReadBody(s, {CloseCurly}, DefaultToken);
    if token.kind != CloseCurly {
      return Returns(None);
    }
    var exprs := ParsePieces(body, |s.tokens|);
    if exprs.Undefined? {
      return Undefined;
    }
    if exprs.value.None? {
      return Returns(None);
    }
    var es := exprs.value.value;
    return Returns(Some(Nest(Node0(ArrayInitialization, seq(|es|, k requires 0 <= k < |es| => Nest(es[k])), []))));
  }

  /**
   * `( .. )` after its `(`: a vector initialisation when a comma stands
   * outside inner parentheses, otherwise the inner expression.
   */
  method ParseParenthesized(s: TokenStream) returns (r: Exec<Option<Leaf>>)
    requires 0 < s.pos <= |s.tokens|
    modifies s
    ensures old(s.pos) <= s.pos <= |s.tokens|
    ensures r.Returns? && r.value.Some? ==>
      var c := Consume(s.tokens, old(s.pos), [], {CloseParen}).0;
      var body := s.tokens[old(s.pos)..c];
      c < |s.tokens| && s.tokens[c].kind == CloseParen && s.pos == c + 1 &&
      r.value.value.kind == ExpressionLeaf && r.value.value.expr.Some? &&
      (HasTopLevelComma(body) ==>
        IsNode(r.value.value, VectorInitialization) && |r.value.value.expr.value.leaves| == |Pieces(body)|)
    decreases |s.tokens|, 1
  {
    var body, read, token := ReadBody(s, {CloseParen}, DefaultToken);
    if token.kind != CloseParen {
      return Returns(None);
    }
    var commas := HasCommas(body);
    if commas {
      var exprs := ParsePieces(body, |s.tokens|);
      if exprs.Undefined? {
        return Undefined;
      }
      if exprs.value.None? {
        return Returns(None);
      }
      var es := exprs.value.value;
      return Returns(Some(Nest(Node0(VectorInitialization, seq(|es|, k requires 0 <= k < |es| => Nest(es[k])), []))));
    }
    var sub := new TokenStream(body);
    var e, eLeaves, eFailed := ParseExpression(sub, {});
    if e.Undefined? {
      return Undefined;
    }
    if e.value.None? {
      return Returns(None);
    }
    return Returns(Some(Nest(e.value.value)));
  }

  /**
   * A primitive cast `int(..)` after the type name: the name's leaf (its text
   * lower-cased, `float` read as `double`) and the parenthesised expression.
   */
  method ParseCast(s: TokenStream, t: Token, name: string) returns (r: Exec<Option<Leaf>>)
    requires 0 < s.pos <= |s.tokens|
    modifies s
    ensures old(s.pos) <= s.pos <= |s.tokens|
    ensures r.Returns? && r.value.Some? ==>
      IsNode(r.value.value, Cast) && |r.value.value.expr.value.leaves| == 2 &&
      r.value.value.expr.value.leaves[0] == Atom(IdentifierLeaf, t.(value := name)) &&
      r.value.value.expr.value.leaves[1].kind == ExpressionLeaf &&
      s.tokens[s.pos - 1].kind == CloseParen
    decreases |s.tokens|, 1
  {
    var typeLeaf := Atom(IdentifierLeaf, t.(value := name));
    var ok := SkipWhitespace(s, true);
    var read, next := s.ReadToken(DefaultToken);
    if next.kind != OpenParen {
      return Returns(None);
    }
    var closed, body := ReadCastBody(s, t);
    if !closed {
      return Returns(None);
    }
    var e := ParseTokens(body);
    if e.Undefined? {
      return Undefined;
    }
    if e.value.None? {
      return Returns(None);
    }
    return Returns(Some(Nest(Node0(Cast, [typeLeaf, Nest(e.value.value)], []))));
  }

  /** An expression over the whole of `ts`, read from a stream of its own. */
  method ParseTokens(ts: seq<Token>) returns (r: Exec<Option<Expr>>)
    decreases |ts|, 6
  {
    var sub := new TokenStream(ts);
    ghost var leaves, failed;
    r, leaves, failed := ParseExpression(sub, {});
  }

  /** The tokens up to the `)` closing a cast, and whether that `)` was there. */
  method ReadCastBody(s: TokenStream, t: Token) returns (closed: bool, body: seq<Token>)
    requires s.pos <= |s.tokens|
    modifies s
    ensures old(s.pos) <= s.pos <= |s.tokens|
    ensures closed ==> 0 < s.pos && s.tokens[s.pos - 1].kind == CloseParen && |body| < |s.tokens|
  {
    var read, token;
    body, read, token := ReadBody(s, {CloseParen}, t);
    closed := token.kind == CloseParen;
  }

  /**
   * The names of a member chain after a `.`: a name, then `.` and a name
   * again as long as they come. A token that is not a name where a name is
   * due ends the chain and is not given back; one that is not a `.` where a
   * `.` is due is given back.
   */
  method ReadMembers(s: TokenStream) returns (members: seq<Leaf>, dots: seq<Token>)
    modifies s
    ensures old(s.pos) <= s.pos
    ensures old(s.pos) <= |s.tokens| ==> s.pos <= |s.tokens|
    ensures forall k | 0 <= k < |members| :: members[k] == Atom(IdentifierLeaf, members[k].token) && members[k].token.kind == Identifier
    ensures forall k | 0 <= k < |dots| :: dots[k].kind == Dot
    ensures |dots| <= |members|
  {
    members := [];
    dots := [];
    var token := DefaultToken;
    while true
      invariant old(s.pos) <= s.pos
      invariant old(s.pos) <= |s.tokens| ==> s.pos <= |s.tokens|
      invariant forall k | 0 <= k < |members| :: members[k] == Atom(IdentifierLeaf, members[k].token) && members[k].token.kind == Identifier
      invariant forall k | 0 <= k < |dots| :: dots[k].kind == Dot
      invariant |dots| == |members|
      decreases s.Rest()
    {
      SkipAhead(s, true);
      var read;
      read, token := s.ReadToken(token);
      if !read || token.kind != Identifier {
        return;
      }
      members := members + [Atom(IdentifierLeaf, token)];
      SkipAhead(s, true);
      read, token := s.ReadToken(token);
      if !read {
        return;
      }
      if token.kind != Dot {
        s.SetPosition(s.pos - 1);
        return;
      }
      dots := dots + [token];
    }
  }

  predicate IsPrimitiveName(lower: string) {
    lower == "bool" || lower == "int" || lower == "double" || lower == "float"
  }

  /**
   * An operand that starts with a name (just read): `true`/`false`, a
   * primitive cast, a member chain `a.b.c`, or a plain identifier.
   */
  method ParseIdentifier(s: TokenStream, t: Token) returns (r: Exec<Option<Leaf>>)
    requires 0 < s.pos <= |s.tokens|
    modifies s
    ensures old(s.pos) <= s.pos <= |s.tokens|
    ensures var lower := Lower(t.value);
      (lower == "true" || lower == "false") ==>
        s.pos == old(s.pos) &&
        r == Returns(Some(Leaf(BooleanLeaf, t.(kind := Integer, valueInt := Some(if lower == "true" then 1 else 0)), None)))
    ensures var lower := Lower(t.value);
      IsPrimitiveName(lower) && r.Returns? && r.value.Some? ==>
        IsNode(r.value.value, Cast) && |r.value.value.expr.value.leaves| == 2 &&
        r.value.value.expr.value.leaves[0].token.value == (if lower == "float" then "double" else lower)
    ensures var lower := Lower(t.value);
      lower != "true" && lower != "false" && !IsPrimitiveName(lower) ==>
        r.Returns? && r.value.Some? &&
        (r.value.value == Atom(IdentifierLeaf, t) ||
         (IsNode(r.value.value, Member) && |r.value.value.expr.value.leaves| >= 1 &&
          r.value.value.expr.value.leaves[0] == Atom(IdentifierLeaf, t)))
    decreases |s.tokens|, 2
  {
    var lower := Lower(t.value);
    if lower == "true" || lower == "false" {
      return Returns(Some(Leaf(BooleanLeaf, t.(kind := Integer, valueInt := Some(if lower == "true" then 1 else 0)), None)));
    }
    if IsPrimitiveName(lower) {
      var name := if lower == "float" then "double" else lower;
      r := ParseCast(s, t, name);
      return;
    }
    var scpos := s.pos;
    var ok := SkipWhitespace(s, true);
    var read, next := s.ReadToken(DefaultToken);
    if next.kind == Dot {
      var members, dots := ReadMembers(s);
      return Returns(Some(Nest(Node0(Member, [Atom(IdentifierLeaf, t)] + members, [next] + dots))));
    }
    s.SetPosition(scpos);
    return Returns(Some(Atom(IdentifierLeaf, t)));
  }

  /** The operand that starts with the token `t` just read; Returns(None) for a token no operand starts with. */
  method ParseAtom(s: TokenStream, t: Token) returns (r: Exec<Option<Leaf>>)
    requires 0 < s.pos <= |s.tokens|
    modifies s
    ensures old(s.pos) <= s.pos <= |s.tokens|
    ensures t.kind == Integer ==> r == Returns(Some(Atom(IntegerLeaf, t)))
    ensures t.kind == Double ==> r == Returns(Some(Atom(DoubleLeaf, t)))
    ensures t.kind == String || t.kind == Name ==> r == Returns(Some(Atom(StringLeaf, t)))
    ensures !(t.kind in {OpenCurly, OpenParen, Integer, Double, String, Name, Identifier}) ==> r == Returns(None)
    ensures r.Returns? && r.value.Some? ==> r.value.value.kind != TokenLeaf && r.value.value.kind != InvalidLeaf
    decreases |s.tokens|, 3
  {
    if t.kind == OpenCurly {
      r := ParseArrayInitialization(s);
    } else if t.kind == OpenParen {
      r := ParseParenthesized(s);
    } else if t.kind == Integer {
      r := Returns(Some(Atom(IntegerLeaf, t)));
    } else if t.kind == Double {
      r := Returns(Some(Atom(DoubleLeaf, t)));
    } else if t.kind == String || t.kind == Name {
      r := Returns(Some(Atom(StringLeaf, t)));
    } else if t.kind == Identifier {
      r := ParseIdentifier(s, t);
    } else {
      r := Returns(None);
    }
  }

  /**
   * The operand phase. A leading `-` wraps the operand in a unary minus. A
   * prefix operator token (`- ! ~ ++ --`) is given back for the operator phase
   * to read; after a leading `-` that wraps the previous leaf instead, and
   * there being none is undefined behaviour.
   */
  method ParseOperand(s: TokenStream, stop: Mask, leaves: seq<Leaf>) returns (f: Flow)
    modifies s
    ensures f.Go? ==> old(s.pos) <= s.pos <= |s.tokens| && old(s.pos) < |s.tokens| && !f.skipLeft
    ensures f.Done? ==> f.leaves == leaves && old(s.pos) <= s.pos && AtStop(s, stop)
    ensures f.Done? && old(s.pos) <= |s.tokens| ==> s.pos <= |s.tokens|
    ensures old(s.pos) <= |s.tokens| && StopsAfterBlanks(s.tokens, old(s.pos), stop) ==>
      f == Done(leaves) && s.pos == SkipFrom(s.tokens, old(s.pos), true)
    ensures f.Go? ==> |leaves| <= |f.leaves| <= |leaves| + 1 && (|f.leaves| > |leaves| ==> old(s.pos) < s.pos)
    ensures f.Go? && |f.leaves| == |leaves| + 1 ==> f.leaves[..|leaves|] == leaves
    decreases |s.tokens|, 4
  {
    var ok := SkipWhitespace(s, true);
    var read, token := s.ReadToken(DefaultToken);
    if !read {
      return Done(leaves);
    }
    if token.kind in stop {
      s.SetPosition(s.pos - 1);
      return Done(leaves);
    }
    var minus := false;
    if token.kind == OpSubtract {
      minus := true;
      ok := SkipWhitespace(s, true);
      read, token := s.ReadToken(token);
      if !read {
        return Done(leaves);
      }
    }
    var ls := leaves;
    if token.kind in {OpSubtract, OpUnaryNot, OpNegate, OpIncrement, OpDecrement} {
      s.SetPosition(s.pos - 1);
    } else {
      var a := ParseAtom(s, token);
      if a.Undefined? {
        return Crash;
      }
      if a.value.None? {
        return Fail;
      }
      ls := ls + [a.value.value];
    }
    if minus {
      if |ls| == 0 {
        return Crash;
      }
      ls := ls[..|ls| - 1] + [Nest(Node0(UnaryMinus, [ls[|ls| - 1]], []))];
    }
    return Go(ls, false);
  }

  /** One subscript body, up to its `]`, read as an expression; the cursor ends after the `]`. */
  method ParseSubscriptBody(s: TokenStream, prev: Token) returns (r: Exec<Option<Expr>>, ghost body: seq<Token>)
    requires 0 < s.pos <= |s.tokens|
    modifies s
    ensures old(s.pos) <= s.pos <= |s.tokens|
    ensures r.Returns? && r.value.Some? ==>
      var cl := Closing(s.tokens, old(s.pos));
      cl.Some? && s.pos == cl.value.0 + 1 && body == s.tokens[old(s.pos)..cl.value.0]
    decreases |s.tokens|, 1
  {
    var ok, toks := ConsumeTokens(s, {CloseSquare});
    body := toks;
    var token;
    ok, token := s.ExpectToken(prev, {CloseSquare});
    if !ok {
      return Returns(None), body;
    }
    var sub := new TokenStream(toks);
    ghost var leaves, failed;
    r, leaves, failed := ParseExpression(sub, {});
  }

  /**
   * One subscript: its body and `]`, then the blanks after it; `more` says
   * whether a `[` follows, which is only peeked at and stays unread.
   */
  method ParseOneSubscript(s: TokenStream, prev: Token)
    returns (r: Exec<Option<Expr>>, ghost body: seq<Token>, more: bool, token: Token)
    requires 0 < s.pos <= |s.tokens|
    modifies s
    ensures old(s.pos) <= s.pos <= |s.tokens|
    ensures more ==> old(s.pos) < s.pos
    ensures more ==> s.pos < |s.tokens| && s.tokens[s.pos].kind == OpenSquare
    ensures r.Returns? && r.value.Some? ==>
      ScanSubscriptsAsWritten(s.tokens, old(s.pos)) ==
        if more then Prepend([body], ScanSubscriptsAsWritten(s.tokens, s.pos)) else Some(([body], s.pos))
    decreases |s.tokens|, 2
  {
    ghost var start := s.pos;
    r, body := ParseSubscriptBody(s, prev);
    more, token := false, prev;
    if r.Returns? && r.value.Some? {
      ghost var c := s.pos - 1;
      var ok := SkipWhitespace(s, true);
      ScanStepAsWritten(s.tokens, start, c, s.pos);
      var peeked, next := s.PeekToken(prev);
      token := next;
      more := peeked && next.kind == OpenSquare;
    }
  }

  /**
   * The subscripts after a `[` (just read) applied to `last`. Each body runs
   * to its `]` and is read as an expression; a `[` after the blanks that
   * follow starts the next one, and is left unread, so that the next body
   * is collected from it.
   */
  method ParseSubscripts(s: TokenStream, last: Leaf) returns (r: Exec<Option<Leaf>>, ghost bodies: seq<seq<Token>>)
    requires 0 < s.pos <= |s.tokens|
    modifies s
    ensures old(s.pos) <= s.pos <= |s.tokens|
    ensures r.Returns? && r.value.Some? ==>
      ScanSubscriptsAsWritten(s.tokens, old(s.pos)) == Some((bodies, s.pos)) &&
      IsNode(r.value.value, ArraySubscript) &&
      |r.value.value.expr.value.leaves| == |bodies| + 1 &&
      r.value.value.expr.value.leaves[0] == last
    decreases |s.tokens|, 3
  {
    var subs: seq<Leaf> := [];
    bodies := [];
    var i0 := s.pos;
    var token := DefaultToken;
    PrependNothing(ScanSubscriptsAsWritten(s.tokens, i0));
    while true
      invariant i0 <= s.pos <= |s.tokens| && 0 < s.pos
      invariant |subs| == |bodies|
      invariant ScanSubscriptsAsWritten(s.tokens, i0) == Prepend(bodies, ScanSubscriptsAsWritten(s.tokens, s.pos))
      decreases |s.tokens| - s.pos
    {
      var e, more; ghost var body;
      e, body, more, token := ParseOneSubscript(s, token);
      if e.Undefined? {
        return Undefined, bodies;
      }
      if e.value.None? {
        return Returns(None), bodies;
      }
      subs := subs + [Nest(e.value.value)];
      if more {
        PrependPrepend(bodies, [body], ScanSubscriptsAsWritten(s.tokens, s.pos));
        bodies := bodies + [body];
        continue;
      }
      bodies := bodies + [body];
      break;
    }
    return Returns(Some(Nest(Node0(ArraySubscript, [last] + subs, [])))), bodies;
  }

  /**
   * One call argument: the body up to a `,` or `)` at depth zero, read as an
   * expression, and the token that ends it. A blank body is no argument; a
   * body that does not read, or one not ended by `,` or `)`, fails the call.
   */
  method ParseArgument(s: TokenStream, prev: Token) returns (r: Exec<Option<Option<Leaf>>>, token: Token)
    requires 0 < s.pos <= |s.tokens|
    modifies s
    ensures old(s.pos) <= s.pos <= |s.tokens|
    ensures r.Returns? && r.value.Some? ==>
      old(s.pos) < s.pos && (token.kind == CloseParen || token.kind == Comma) && token == s.tokens[s.pos - 1]
    ensures r.Returns? && r.value.Some? && r.value.value.Some? ==> r.value.value.value.kind == ExpressionLeaf
    decreases |s.tokens|, 1
  {
    var body, read;
    body, read, token := ReadBody(s, {CloseParen, Comma}, prev);
    var content := HasContent(body);
    var sub := new TokenStream(body);
    var e, eLeaves, eFailed := ParseExpression(sub, {});
    if e.Undefined? {
      r := Undefined;
    } else if (e.value.None? && content) || (token.kind != CloseParen && token.kind != Comma) {
      r := Returns(None);
    } else if content {
      r := Returns(Some(Some(Nest(e.value.value))));
    } else {
      r := Returns(Some(None));
    }
  }

  /** The arguments after a `(` (just read) applied to `last`, up to the `)`. */
  method ParseCall(s: TokenStream, last: Leaf) returns (r: Exec<Option<Leaf>>)
    requires 0 < s.pos <= |s.tokens|
    modifies s
    ensures old(s.pos) <= s.pos <= |s.tokens|
    ensures r.Returns? && r.value.Some? ==>
      IsNode(r.value.value, Call) && |r.value.value.expr.value.leaves| >= 1 &&
      r.value.value.expr.value.leaves[0] == last &&
      old(s.pos) < s.pos && s.tokens[s.pos - 1].kind == CloseParen
    decreases |s.tokens|, 2
  {
    var args: seq<Leaf> := [];
    var token := DefaultToken;
    while true
      invariant old(s.pos) <= s.pos <= |s.tokens| && 0 < s.pos
      decreases |s.tokens| - s.pos
    {
      var a;
      a, token := ParseArgument(s, token);
      if a.Undefined? {
        return Undefined;
      }
      if a.value.None? {
        return Returns(None);
      }
      if a.value.value.Some? {
        args := args + [a.value.value.value];
      }
      if token.kind == CloseParen {
        break;
      }
    }
    return Returns(Some(Nest(Node0(Call, [last] + args, []))));
  }

  /**
   * The operator phase: an operator token (and whether a `=` right after it
   * makes the following round skip its operand), a `dot`/`cross` word, or a
   * subscript, call or member access that replaces the last leaf.
   */
  method ParseOperator(s: TokenStream, stop: Mask, leaves: seq<Leaf>) returns (f: Flow)
    modifies s
    ensures f.Go? ==> old(s.pos) < s.pos <= |s.tokens| && |f.leaves| >= |leaves| && |f.leaves| > 0
    ensures f.Done? ==> f.leaves == leaves && old(s.pos) <= s.pos && AtStop(s, stop)
    ensures f.Done? && old(s.pos) <= |s.tokens| ==> s.pos <= |s.tokens|
    ensures f.Go? && !f.skipLeft ==>
      |f.leaves| == |leaves| + 1 && f.leaves[..|leaves|] == leaves && f.leaves[|leaves|].kind == TokenLeaf
    decreases |s.tokens|, 4
  {
    var ok := SkipWhitespace(s, true);
    var read, token := s.ReadToken(DefaultToken);
    if !read {
      return Done(leaves);
    }
    if token.kind in stop {
      s.SetPosition(s.pos - 1);
      return Done(leaves);
    }
    if token.kind == Identifier {
      if EqualsIgnoreCase(token.value, "dot") || EqualsIgnoreCase(token.value, "cross") {
        return Go(leaves + [Atom(TokenLeaf, token)], false);
      }
      return Fail;
    }
    if IsOperatorToken(token.kind) {
      var skip := false;
      if IsValidForAssign(token.kind) {
        var peeked, next := s.PeekToken(token);
        skip := peeked && next.kind == OpAssign;
      }
      return Go(leaves + [Atom(TokenLeaf, token)], skip);
    }
    if token.kind != OpenSquare && token.kind != OpenParen && token.kind != Dot {
      return Fail;
    }
    if |leaves| == 0 {
      return Crash;
    }
    var last := leaves[|leaves| - 1];
    if last.kind != IdentifierLeaf && last.kind != ExpressionLeaf {
      return Fail;
    }
    var merged: Exec<Option<Leaf>>;
    if token.kind == OpenSquare {
      ghost var bodies;
      merged, bodies := ParseSubscripts(s, last);
    } else if token.kind == OpenParen {
      merged := ParseCall(s, last);
    } else {
      var members, dots := ReadMembers(s);
      merged := Returns(Some(Nest(Node0(Member, [last] + members, []))));
    }
    if merged.Undefined? {
      return Crash;
    }
    if merged.value.None? {
      return Fail;
    }
    return Go(leaves[..|leaves| - 1] + [merged.value.value], true);
  }

  /** Skipping blanks and newlines from `i` reaches the end of the list or a token of `stop`. */
  predicate StopsAfterBlanks(ts: seq<Token>, i: nat, stop: Mask)
    requires i <= |ts|
  {
    var j := SkipFrom(ts, i, true);
    j == |ts| || ts[j].kind in stop
  }

  /**
   * What the program makes of the leaves one expression collected, `failed`
   * telling whether collecting them failed: the reduction with the passes in
   * the program's order, then the program's finish; a reduction that fails
   * counts as a failure.
   */
  function Finish(leaves: seq<Leaf>, failed: bool): (r: Exec<Outcome>)
    ensures r.Returns? && r.value.expr.Some? ==> !failed
  {
    if failed then Returns(SettleAsWritten(leaves, true))
    else
      var red := ReduceAsWritten(leaves);
      if red.Undefined? then Undefined
      else if red.value.None? then Returns(SettleAsWritten(leaves, true))
      else Returns(SettleAsWritten(red.value.value, false))
  }

  /** Nothing collected: no tree, and the cursor goes back. */
  lemma FinishNothing()
    ensures Finish([], false) == Returns(Outcome(None, true))
  {
    NothingToReduce();
  }

  /** `a - b + c` finishes as the tree `a - (b + c)`, the cursor staying after it. */
  lemma FinishAdditiveChain(a: Leaf, minus: Token, b: Leaf, plus: Token, c: Leaf)
    requires !IsTok(a) && !IsTok(b) && !IsTok(c) && minus.kind == OpSubtract && plus.kind == OpAdd
    ensures Finish([a, Atom(TokenLeaf, minus), b, Atom(TokenLeaf, plus), c], false) ==
      Returns(Outcome(Bin(Sub, a, minus, Bin(Add, b, plus, c)).expr, false))
  {
    AdditiveChainAsWritten(a, minus, b, plus, c);
  }

  /**
   * Reads one expression up to (not including) a token of `stop` or the end
   * of the list. `leaves` are the operands and operator tokens collected on
   * the way and `failed` tells whether collecting them failed; the result is
   * what `Finish` makes of them, and the cursor goes back exactly when the
   * finish says so. Only blanks before the stop (or the end) give no tree
   * and leave the cursor where it was.
   */
  method ParseExpression(s: TokenStream, stop: Mask) returns (r: Exec<Option<Expr>>, ghost leaves: seq<Leaf>, ghost failed: bool)
    modifies s
    ensures r.Returns? ==> old(s.pos) <= s.pos
    ensures r.Returns? ==> Finish(leaves, failed).Returns? && r.value == Finish(leaves, failed).value.expr
    ensures r.Returns? && Finish(leaves, failed).value.rewind ==> s.pos == old(s.pos)
    ensures r.Returns? && !Finish(leaves, failed).value.rewind ==> old(s.pos) < s.pos && AtStop(s, stop)
    ensures r.Returns? && r.value.Some? ==> old(s.pos) < s.pos && AtStop(s, stop)
    ensures r.Returns? && old(s.pos) <= |s.tokens| ==> s.pos <= |s.tokens|
    ensures old(s.pos) <= |s.tokens| && StopsAfterBlanks(s.tokens, old(s.pos), stop) ==> r == Returns(None) && s.pos == old(s.pos)
    decreases |s.tokens|, 5
  {
    var cpos := s.pos;
    ghost var empty := cpos <= |s.tokens| && StopsAfterBlanks(s.tokens, cpos, stop);
    var ls: seq<Leaf> := [];
    var skipLeft := false;
    var didFail := false;
    leaves, failed := [], false;
    while true
      invariant cpos <= s.pos
      invariant |ls| > 0 ==> cpos < s.pos
      invariant cpos <= |s.tokens| ==> s.pos <= |s.tokens|
      invariant empty ==> ls == [] && !skipLeft && s.pos == cpos
      decreases s.Rest()
    {
      if !skipLeft {
        var f := ParseOperand(s, stop, ls);
        if f.Crash? {
          return Undefined, ls, false;
        }
        if f.Fail? {
          didFail := true;
          break;
        }
        if f.Done? {
          break;
        }
        ls := f.leaves;
      }
      var g := ParseOperator(s, stop, ls);
      if g.Crash? {
        return Undefined, ls, false;
      }
      if g.Fail? {
        didFail := true;
        break;
      }
      if g.Done? {
        break;
      }
      ls, skipLeft := g.leaves, g.skipLeft;
    }
    leaves, failed := ls, didFail;
    if didFail {
      s.SetPosition(cpos);
      return Returns(None), leaves, failed;
    }
    if empty {
      FinishNothing();
    }
    var reduced := ReduceLeaves(ls);
    if reduced.Undefined? {
      return Undefined, leaves, failed;
    }
    var out := if reduced.value.None? then SettleAsWritten(ls, true) else SettleAsWritten(reduced.value.value, false);
    if out.rewind {
      s.SetPosition(cpos);
    }
    return Returns(out.expr), leaves, failed;
  }
}
