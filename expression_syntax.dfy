// The token-level decisions of the expression reader that do not move the
// cursor: cutting a bracket body at its commas, telling a vector `(a, b)` from
// a parenthesised expression, where a run of subscripts `[..][..]` ends, and
// how the single leaf left after reduction becomes the result.

module ExpressionSyntax {
  import opened Tokens
  import opened Ast
  import opened StreamOps

  // ---------------------------------------------------------------- commas

  /**
   * The pieces of `ts` between commas, from index `i` on, where the piece
   * under way began at `lastPos`. Every comma ends a piece, whatever brackets
   * surround it.
   */
  function SplitFrom(ts: seq<Token>, lastPos: nat, i: nat): (r: seq<seq<Token>>)
    requires lastPos <= i <= |ts|
    ensures |r| >= 1
    decreases |ts| - i
  {
    if i == |ts| then [ts[lastPos..]]
    else if ts[i].kind == Comma then [ts[lastPos..i]] + SplitFrom(ts, i + 1, i + 1)
    else SplitFrom(ts, lastPos, i + 1)
  }

  /** The pieces of a whole bracket body. */
  function Pieces(ts: seq<Token>): (r: seq<seq<Token>>)
    ensures |r| >= 1
  {
    SplitFrom(ts, 0, 0)
  }

  /** The comma tokens of `ts`, in order. */
  function Commas(ts: seq<Token>): (r: seq<Token>)
    ensures forall k | 0 <= k < |r| :: r[k].kind == Comma
    ensures |r| <= |ts|
  {
    if ts == [] then []
    else (if ts[0].kind == Comma then [ts[0]] else []) + Commas(ts[1..])
  }

  /** The pieces glued back together with the separators between them. */
  function Interleave(pieces: seq<seq<Token>>, seps: seq<Token>): seq<Token>
    requires |pieces| == |seps| + 1
    decreases |seps|
  {
    if seps == [] then pieces[0]
    else pieces[0] + [seps[0]] + Interleave(pieces[1..], seps[1..])
  }

  predicate CommaFree(ts: seq<Token>) {
    forall k | 0 <= k < |ts| :: ts[k].kind != Comma
  }

  /** Cutting and gluing back with the commas gives the body again, and no piece holds a comma. */
  lemma SplitFromRejoins(ts: seq<Token>, lastPos: nat, i: nat)
    requires lastPos <= i <= |ts|
    requires CommaFree(ts[lastPos..i])
    ensures |SplitFrom(ts, lastPos, i)| == |Commas(ts[i..])| + 1
    ensures Interleave(SplitFrom(ts, lastPos, i), Commas(ts[i..])) == ts[lastPos..]
    ensures forall p | p in SplitFrom(ts, lastPos, i) :: CommaFree(p)
  {
    SplitFromGlues(ts, lastPos, i);
    SplitFromCommaFree(ts, lastPos, i);
  }

  /** The pieces from a cut point glued back with the commas give the rest of the body. */
  lemma {:induction false} SplitFromGlues(ts: seq<Token>, lastPos: nat, i: nat)
    requires lastPos <= i <= |ts|
    ensures |SplitFrom(ts, lastPos, i)| == |Commas(ts[i..])| + 1
    ensures Interleave(SplitFrom(ts, lastPos, i), Commas(ts[i..])) == ts[lastPos..]
    decreases |ts| - i
  {
    if i == |ts| {
      SplitAtEnd(ts, lastPos);
    } else {
      if ts[i].kind == Comma {
        CommasAtComma(ts, i);
        SplitFromGlues(ts, i + 1, i + 1);
        RejoinAtComma(ts, lastPos, i);
      } else {
        PastNonComma(ts, lastPos, i);
        SplitFromGlues(ts, lastPos, i + 1);
      }
    }
  }

  /** No piece cut from a comma-free start holds a comma. */
  lemma {:induction false} SplitFromCommaFree(ts: seq<Token>, lastPos: nat, i: nat)
    requires lastPos <= i <= |ts|
    requires CommaFree(ts[lastPos..i])
    ensures forall p | p in SplitFrom(ts, lastPos, i) :: CommaFree(p)
    decreases |ts| - i
  {
    if i == |ts| {
      SplitAtEnd(ts, lastPos);
    } else {
      if ts[i].kind == Comma {
        SplitFromCommaFree(ts, i + 1, i + 1);
        PiecesAtComma(ts, lastPos, i);
      } else {
        PieceGrows(ts, lastPos, i);
        SplitFromCommaFree(ts, lastPos, i + 1);
      }
    }
  }

  lemma SplitAtEnd(ts: seq<Token>, lastPos: nat)
    requires lastPos <= |ts|
    ensures SplitFrom(ts, lastPos, |ts|) == [ts[lastPos..]] && ts[lastPos..|ts|] == ts[lastPos..]
    ensures Commas(ts[|ts|..]) == []
  {
    assert ts[|ts|..] == [];
  }

  lemma CommasAtComma(ts: seq<Token>, i: nat)
    requires i < |ts| && ts[i].kind == Comma
    ensures Commas(ts[i..]) == [ts[i]] + Commas(ts[i + 1..])
  {
    assert ts[i..][1..] == ts[i + 1..];
  }

  /** A token other than a comma extends the piece under way. */
  lemma PastNonComma(ts: seq<Token>, lastPos: nat, i: nat)
    requires lastPos <= i < |ts| && ts[i].kind != Comma
    ensures SplitFrom(ts, lastPos, i) == SplitFrom(ts, lastPos, i + 1)
    ensures Commas(ts[i..]) == Commas(ts[i + 1..])
  {
    assert ts[i..][1..] == ts[i + 1..];
    assert [] + Commas(ts[i + 1..]) == Commas(ts[i + 1..]);
  }

  lemma PieceGrows(ts: seq<Token>, lastPos: nat, i: nat)
    requires lastPos <= i < |ts| && ts[i].kind != Comma && CommaFree(ts[lastPos..i])
    ensures CommaFree(ts[lastPos..i + 1])
    ensures SplitFrom(ts, lastPos, i) == SplitFrom(ts, lastPos, i + 1)
  {
    assert ts[lastPos..i + 1] == ts[lastPos..i] + [ts[i]];
  }

  /** At a comma the finished piece is comma-free and goes in front of the pieces after it. */
  lemma PiecesAtComma(ts: seq<Token>, lastPos: nat, i: nat)
    requires lastPos <= i < |ts| && ts[i].kind == Comma && CommaFree(ts[lastPos..i])
    requires forall p | p in SplitFrom(ts, i + 1, i + 1) :: CommaFree(p)
    ensures forall p | p in SplitFrom(ts, lastPos, i) :: CommaFree(p)
  {
    var rest := SplitFrom(ts, i + 1, i + 1);
    assert SplitFrom(ts, lastPos, i) == [ts[lastPos..i]] + rest;
  }

  /** The comma step: the finished piece goes in front of the pieces after the comma. */
  lemma RejoinAtComma(ts: seq<Token>, lastPos: nat, i: nat)
    requires lastPos <= i < |ts| && ts[i].kind == Comma
    requires |SplitFrom(ts, i + 1, i + 1)| == |Commas(ts[i + 1..])| + 1
    requires Interleave(SplitFrom(ts, i + 1, i + 1), Commas(ts[i + 1..])) == ts[i + 1..]
    ensures |SplitFrom(ts, lastPos, i)| == |[ts[i]] + Commas(ts[i + 1..])| + 1
    ensures Interleave(SplitFrom(ts, lastPos, i), [ts[i]] + Commas(ts[i + 1..])) == ts[lastPos..]
  {
    var rest := SplitFrom(ts, i + 1, i + 1);
    assert SplitFrom(ts, lastPos, i) == [ts[lastPos..i]] + rest;
    Glue(ts[lastPos..i], ts[i], rest, Commas(ts[i + 1..]));
    assert ts[lastPos..] == ts[lastPos..i] + [ts[i]] + ts[i + 1..];
  }

  lemma Glue(piece: seq<Token>, sep: Token, rest: seq<seq<Token>>, seps: seq<Token>)
    requires |rest| == |seps| + 1
    ensures Interleave([piece] + rest, [sep] + seps) == piece + [sep] + Interleave(rest, seps)
  {
    assert ([piece] + rest)[1..] == rest;
  }

  /** A body is its pieces joined by its commas: one piece more than there are commas. */
  lemma PiecesRejoin(ts: seq<Token>)
    ensures |Pieces(ts)| == |Commas(ts)| + 1
    ensures Interleave(Pieces(ts), Commas(ts)) == ts
    ensures forall p | p in Pieces(ts) :: CommaFree(p)
  {
    assert ts[0..] == ts;
    SplitFromRejoins(ts, 0, 0);
  }

  /**
   * Whether a comma appears outside parentheses, counting only `(` and `)`:
   * the depth goes up at `(`, down at `)`, and a comma counts at depth zero or
   * below.
   */
  function CommaAtLevel(ts: seq<Token>, i: nat, level: int): bool
    requires i <= |ts|
    decreases |ts| - i
  {
    if i == |ts| then false
    else
      var k := ts[i].kind;
      var lv := if k == OpenParen then level + 1 else if k == CloseParen then level - 1 else level;
      if k == Comma && lv <= 0 then true else CommaAtLevel(ts, i + 1, lv)
  }

  /** The test that makes `( .. )` a vector rather than a parenthesised expression. */
  function HasTopLevelComma(ts: seq<Token>): bool {
    CommaAtLevel(ts, 0, 0)
  }

  /** A comma found at a level is a comma of the list. */
  lemma {:induction false} CommaAtLevelFindsComma(ts: seq<Token>, i: nat, level: int)
    requires i <= |ts|
    ensures CommaAtLevel(ts, i, level) ==> exists k | i <= k < |ts| :: ts[k].kind == Comma
    decreases |ts| - i
  {
    if i < |ts| {
      var k := ts[i].kind;
      var lv := if k == OpenParen then level + 1 else if k == CloseParen then level - 1 else level;
      if !(k == Comma && lv <= 0) {
        CommaAtLevelFindsComma(ts, i + 1, lv);
      }
    }
  }

  /** Without parentheses the depth never changes, so any comma counts. */
  lemma {:induction false} CommaAtLevelFlat(ts: seq<Token>, i: nat, level: int)
    requires i <= |ts| && level <= 0
    requires forall k | i <= k < |ts| :: ts[k].kind != OpenParen && ts[k].kind != CloseParen
    ensures CommaAtLevel(ts, i, level) <==> exists k | i <= k < |ts| :: ts[k].kind == Comma
    decreases |ts| - i
  {
    if i < |ts| {
      CommaAtLevelFlat(ts, i + 1, level);
    }
  }

  /** A vector needs a comma; a body without parentheses is a vector exactly when it has one. */
  lemma TopLevelCommaIsComma(ts: seq<Token>)
    ensures HasTopLevelComma(ts) ==> exists k | 0 <= k < |ts| :: ts[k].kind == Comma
    ensures (forall k | 0 <= k < |ts| :: ts[k].kind != OpenParen && ts[k].kind != CloseParen) ==>
      (HasTopLevelComma(ts) <==> exists k | 0 <= k < |ts| :: ts[k].kind == Comma)
  {
    CommaAtLevelFindsComma(ts, 0, 0);
    if forall k | 0 <= k < |ts| :: ts[k].kind != OpenParen && ts[k].kind != CloseParen {
      CommaAtLevelFlat(ts, 0, 0);
    }
  }

  /** A comma inside a parenthesised group is not at the top level. */
  lemma CommaInsideParensIsNested(a: Token, open: Token, c: Token, close: Token, b: Token)
    requires a.kind == Identifier && b.kind == Identifier
    requires open.kind == OpenParen && c.kind == Comma && close.kind == CloseParen
    ensures !HasTopLevelComma([open, a, c, b, close])
    ensures HasTopLevelComma([a, c, b])
  {
    var ts := [open, a, c, b, close];
    assert CommaAtLevel(ts, 4, 1) == CommaAtLevel(ts, 5, 0) == false;
    assert CommaAtLevel(ts, 3, 1) == CommaAtLevel(ts, 4, 1);
    assert CommaAtLevel(ts, 2, 1) == CommaAtLevel(ts, 3, 1);
    assert CommaAtLevel(ts, 1, 1) == CommaAtLevel(ts, 2, 1);
    assert CommaAtLevel(ts, 0, 0) == CommaAtLevel(ts, 1, 1);
    var us := [a, c, b];
    assert CommaAtLevel(us, 0, 0) == CommaAtLevel(us, 1, 0);
  }

  // ---------------------------------------------------------------- subscripts

  function Prepend(bodies: seq<seq<Token>>, r: Option<(seq<seq<Token>>, nat)>): Option<(seq<seq<Token>>, nat)> {
    match r
    case None => None
    case Some((b, e)) => Some((bodies + b, e))
  }

  lemma PrependNothing(r: Option<(seq<seq<Token>>, nat)>)
    ensures Prepend([], r) == r
  {
    if r.Some? {
      assert [] + r.value.0 == r.value.0;
    }
  }

  lemma PrependPrepend(a: seq<seq<Token>>, b: seq<seq<Token>>, r: Option<(seq<seq<Token>>, nat)>)
    ensures Prepend(a, Prepend(b, r)) == Prepend(a + b, r)
  {
    if r.Some? {
      assert a + (b + r.value.0) == (a + b) + r.value.0;
    }
  }

  /** Where the body from `i` ends (its `]`) and where the blanks after that `]` end. */
  function Closing(ts: seq<Token>, i: nat): (r: Option<(nat, nat)>)
    requires i <= |ts|
    ensures r.Some? ==> i <= r.value.0 < r.value.1 <= |ts|
  {
    var c := Consume(ts, i, [], {CloseSquare}).0;
    if c == |ts| || ts[c].kind != CloseSquare then None
    else Some((c, SkipFrom(ts, c + 1, true)))
  }

  /**
   * The bodies of a run of subscripts whose first `[` was read just before
   * `i`, and the position after the run (blanks after the last `]` skipped).
   * A `]` must close each body; a `[` after the blanks starts another body.
   * `stepOver` says whether that `[` is read before the next body is
   * collected; the program does not read it (`ScanSubscriptsAsWritten`).
   */
  function ScanSubscriptsWith(ts: seq<Token>, i: nat, stepOver: bool): (r: Option<(seq<seq<Token>>, nat)>)
    requires i <= |ts|
    ensures r.Some? ==> |r.value.0| >= 1 && i < r.value.1 <= |ts|
    decreases |ts| - i
  {
    var cl := Closing(ts, i);
    if cl.None? then None
    else
      var c, j := cl.value.0, cl.value.1;
      if j < |ts| && ts[j].kind == OpenSquare then
        Prepend([ts[i..c]], ScanSubscriptsWith(ts, if stepOver then j + 1 else j, stepOver))
      else Some(([ts[i..c]], j))
  }

  lemma ScanStep(ts: seq<Token>, i: nat, c: nat, j: nat)
    requires i <= |ts| && Closing(ts, i) == Some((c, j))
    ensures ScanSubscripts(ts, i) ==
      if j < |ts| && ts[j].kind == OpenSquare then Prepend([ts[i..c]], ScanSubscripts(ts, j + 1))
      else Some(([ts[i..c]], j))
  {
    if j < |ts| && ts[j].kind == OpenSquare {
      ScanStepThen(ts, i, c, j);
    } else {
      ScanStepElse(ts, i, c, j);
    }
  }

  lemma ScanStepElse(ts: seq<Token>, i: nat, c: nat, j: nat)
    requires i <= |ts| && Closing(ts, i) == Some((c, j))
    requires !(j < |ts| && ts[j].kind == OpenSquare)
    ensures ScanSubscriptsWith(ts, i, true) == Some(([ts[i..c]], j))
  {
  }

  lemma ScanStepThen(ts: seq<Token>, i: nat, c: nat, j: nat)
    requires i <= |ts| && Closing(ts, i) == Some((c, j))
    requires j < |ts| && ts[j].kind == OpenSquare
    ensures ScanSubscriptsWith(ts, i, true) == Prepend([ts[i..c]], ScanSubscriptsWith(ts, j + 1, true))
  {
    ScanUnfoldThen(ts, i, c, j, true);
  }

  lemma ScanUnfoldThen(ts: seq<Token>, i: nat, c: nat, j: nat, stepOver: bool)
    requires i <= |ts| && Closing(ts, i) == Some((c, j))
    requires j < |ts| && ts[j].kind == OpenSquare
    ensures ScanSubscriptsWith(ts, i, stepOver) == Prepend([ts[i..c]], ScanSubscriptsWith(ts, if stepOver then j + 1 else j, stepOver))
  {
  }

  function ScanSubscriptsAsWritten(ts: seq<Token>, i: nat): Option<(seq<seq<Token>>, nat)>
    requires i <= |ts|
  {
    ScanSubscriptsWith(ts, i, false)
  }

  function ScanSubscripts(ts: seq<Token>, i: nat): Option<(seq<seq<Token>>, nat)>
    requires i <= |ts|
  {
    ScanSubscriptsWith(ts, i, true)
  }

  /** A token of the given kind with default text and position. */
  function Tok(k: TokenKind): (t: Token)
    ensures t.kind == k
  {
    DefaultToken.(kind := k)
  }

  /** The rest of `a[1][2]` after the first `[`. */
  function TwoSubscripts(): (ts: seq<Token>)
    ensures |ts| == 5
  {
    [Tok(Integer), Tok(CloseSquare), Tok(OpenSquare), Tok(Integer), Tok(CloseSquare)]
  }

  lemma ConsumeBody(ts: seq<Token>, i: nat)
    requires i + 1 < |ts| && ts[i].kind == Integer && ts[i + 1].kind == CloseSquare
    ensures Consume(ts, i, [], {CloseSquare}).0 == i + 1
  {
    assert Consume(ts, i, [], {CloseSquare}) == Consume(ts, i + 1, [], {CloseSquare});
  }

  lemma LastSubscript()
    ensures ScanSubscripts(TwoSubscripts(), 3) == Some(([[Tok(Integer)]], 5))
  {
    var ts := TwoSubscripts();
    ConsumeBody(ts, 3);
    assert SkipFrom(ts, 5, true) == 5;
    assert ts[3..4] == [Tok(Integer)];
  }

  lemma FirstSubscript()
    ensures ScanSubscripts(TwoSubscripts(), 0) == Prepend([[Tok(Integer)]], ScanSubscripts(TwoSubscripts(), 3))
    ensures ScanSubscriptsAsWritten(TwoSubscripts(), 0) == Prepend([[Tok(Integer)]], ScanSubscriptsAsWritten(TwoSubscripts(), 2))
  {
    var ts := TwoSubscripts();
    FirstClosing();
    ScanStepThen(ts, 0, 1, 2);
    AsWrittenStepThen(ts, 0, 1, 2);
    assert ts[0..1] == [Tok(Integer)];
  }

  lemma FirstClosing()
    ensures Closing(TwoSubscripts(), 0) == Some((1, 2))
  {
    var ts := TwoSubscripts();
    ConsumeBody(ts, 0);
    assert SkipFrom(ts, 2, true) == 2;
  }

  /** As the program reads it, the second body starts at the `[`, which stays open to the end of the list. */
  lemma SecondBodyAsWritten()
    ensures ScanSubscriptsAsWritten(TwoSubscripts(), 2) == None
  {
    var ts := TwoSubscripts();
    var st := [OpenSquare];
    ConsumeStep(ts, 2, [], {CloseSquare});
    ConsumeStep(ts, 3, st, {CloseSquare});
    ConsumeStep(ts, 4, st, {CloseSquare});
    ConsumeAtEnd(ts, [], {CloseSquare});
    assert Consume(ts, 2, [], {CloseSquare}).0 == 5;
  }

  /**
   * After `a[`, the rest `1][2]` reads two subscripts once the second `[` is
   * stepped over; as the program reads it, the second body starts with that
   * `[`, runs to the end of the list, and no `]` closes it.
   */
  lemma NestedSubscripts()
    ensures ScanSubscripts(TwoSubscripts(), 0) == Some(([[Tok(Integer)], [Tok(Integer)]], 5))
    ensures ScanSubscriptsAsWritten(TwoSubscripts(), 0) == None
  {
    FirstSubscript();
    LastSubscript();
    SecondBodyAsWritten();
    assert [[Tok(Integer)]] + [[Tok(Integer)]] == [[Tok(Integer)], [Tok(Integer)]];
  }

  /** As the program reads a run, every body after the first begins with the unread `[`. */
  lemma {:induction false} LaterBodiesStartWithBracketAsWritten(ts: seq<Token>, i: nat)
    requires i <= |ts|
    ensures var r := ScanSubscriptsAsWritten(ts, i);
      r.Some? ==> forall k | 1 <= k < |r.value.0| :: |r.value.0[k]| > 0 && r.value.0[k][0].kind == OpenSquare
    decreases |ts| - i
  {
    match Closing(ts, i)
    case None =>
    case Some((c, j)) =>
      if j < |ts| && ts[j].kind == OpenSquare {
        AsWrittenStepThen(ts, i, c, j);
        LaterBodiesStartWithBracketAsWritten(ts, j);
        var rest := ScanSubscriptsAsWritten(ts, j);
        if rest.Some? {
          FirstBodyOpensAsWritten(ts, j);
          PrependedBodies(ts[i..c], rest.value.0, rest.value.1);
        }
      } else {
        AsWrittenStepElse(ts, i, c, j);
      }
  }

  lemma ScanStepAsWritten(ts: seq<Token>, i: nat, c: nat, j: nat)
    requires i <= |ts| && Closing(ts, i) == Some((c, j))
    ensures ScanSubscriptsAsWritten(ts, i) ==
      if j < |ts| && ts[j].kind == OpenSquare then Prepend([ts[i..c]], ScanSubscriptsAsWritten(ts, j))
      else Some(([ts[i..c]], j))
  {
    if j < |ts| && ts[j].kind == OpenSquare {
      AsWrittenStepThen(ts, i, c, j);
    } else {
      AsWrittenStepElse(ts, i, c, j);
    }
  }

  lemma AsWrittenStepThen(ts: seq<Token>, i: nat, c: nat, j: nat)
    requires i <= |ts| && Closing(ts, i) == Some((c, j))
    requires j < |ts| && ts[j].kind == OpenSquare
    ensures ScanSubscriptsAsWritten(ts, i) == Prepend([ts[i..c]], ScanSubscriptsAsWritten(ts, j))
  {
  }

  lemma AsWrittenStepElse(ts: seq<Token>, i: nat, c: nat, j: nat)
    requires i <= |ts| && Closing(ts, i) == Some((c, j))
    requires !(j < |ts| && ts[j].kind == OpenSquare)
    ensures ScanSubscriptsAsWritten(ts, i) == Some(([ts[i..c]], j))
  {
  }

  /** A body collected from an unread `[` begins with it. */
  lemma FirstBodyOpensAsWritten(ts: seq<Token>, j: nat)
    requires j < |ts| && ts[j].kind == OpenSquare && ScanSubscriptsAsWritten(ts, j).Some?
    ensures var b := ScanSubscriptsAsWritten(ts, j).value.0; |b[0]| > 0 && b[0][0].kind == OpenSquare
  {
    var c2 := Consume(ts, j, [], {CloseSquare}).0;
    assert c2 > j by {
      assert Consume(ts, j, [], {CloseSquare}) == Consume(ts, j + 1, [OpenSquare], {CloseSquare});
    }
    match Closing(ts, j)
    case Some((c, k)) =>
      assert c == c2;
      if k < |ts| && ts[k].kind == OpenSquare {
        AsWrittenStepThen(ts, j, c, k);
      } else {
        AsWrittenStepElse(ts, j, c, k);
      }
  }

  lemma PrependedBodies(b: seq<Token>, rest: seq<seq<Token>>, e: nat)
    requires |rest| > 0 && |rest[0]| > 0 && rest[0][0].kind == OpenSquare
    requires forall k | 1 <= k < |rest| :: |rest[k]| > 0 && rest[k][0].kind == OpenSquare
    ensures var r := Prepend([b], Some((rest, e)));
      r.Some? && forall k | 1 <= k < |r.value.0| :: |r.value.0[k]| > 0 && r.value.0[k][0].kind == OpenSquare
  {
    var all := [b] + rest;
    assert forall k | 1 <= k < |all| :: all[k] == rest[k - 1];
  }

  // ---------------------------------------------------------------- the result

  /** A finished expression: the tree (none on failure) and whether the cursor goes back to where the expression began. */
  datatype Outcome = Outcome(expr: Option<Expr>, rewind: bool)

  /** The tree a lone leaf stands for: its own sub-expression, or an identifier or literal node around it. */
  function Wrap(l: Leaf): Option<Expr> {
    match l.kind
    case ExpressionLeaf => l.expr
    case IdentifierLeaf => Some(Node0(IdentifierOp, [l], []))
    case IntegerLeaf => Some(Node0(Literal, [l], []))
    case BooleanLeaf => Some(Node0(Literal, [l], []))
    case StringLeaf => Some(Node0(Literal, [l], []))
    case DoubleLeaf => Some(Node0(Literal, [l], []))
    case _ => None
  }

  /**
   * The program's finish: the cursor goes back only when the reading failed
   * or the reduction did not end in one leaf; a lone leaf that makes no tree
   * (an operator token) yields nothing with the cursor left where it is.
   */
  function SettleAsWritten(leaves: seq<Leaf>, failed: bool): (r: Outcome)
    ensures r.expr.Some? ==> !failed && |leaves| == 1
  {
    if failed || |leaves| != 1 then Outcome(None, true) else Outcome(Wrap(leaves[0]), false)
  }

  /** The finish with the cursor going back on every failure. */
  function Settle(leaves: seq<Leaf>, failed: bool): (r: Outcome)
    ensures r.rewind <==> r.expr.None?
    ensures r.expr.Some? ==> !failed && |leaves| == 1
  {
    var e := if failed || |leaves| != 1 then None else Wrap(leaves[0]);
    Outcome(e, e.None?)
  }

  /** Both finishes agree on every success; they differ only in where a failure leaves the cursor. */
  lemma SettleAgreesOnSuccess(leaves: seq<Leaf>, failed: bool)
    ensures Settle(leaves, failed).expr == SettleAsWritten(leaves, failed).expr
    ensures SettleAsWritten(leaves, failed).expr.Some? ==> !SettleAsWritten(leaves, failed).rewind
  {
  }

  /** The tree of a success holds the lone leaf, or is that leaf's own sub-expression. */
  lemma SettledTreeHoldsLeaf(leaves: seq<Leaf>, failed: bool)
    requires Settle(leaves, failed).expr.Some?
    ensures var e := Settle(leaves, failed).expr.value;
      leaves[0].expr == Some(e) || (e.leaves == [leaves[0]] && (e.op == IdentifierOp || e.op == Literal))
    ensures leaves[0].kind != TokenLeaf && leaves[0].kind != InvalidLeaf && leaves[0].kind != VectorLeaf
  {
  }

  /** A lone operator token (the input `!`): the program reports failure and leaves the cursor after the token. */
  lemma LoneTokenKeepsCursorAsWritten(t: Token)
    ensures SettleAsWritten([Atom(TokenLeaf, t)], false) == Outcome(None, false)
    ensures Settle([Atom(TokenLeaf, t)], false) == Outcome(None, true)
  {
  }
}
