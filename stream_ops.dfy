// The two cursor helpers every parser routine leans on: stepping over
// blanks, and collecting a bracket-balanced run of tokens.

module StreamOps {
  import opened Tokens
  import opened TokenStreams

  /** A token that skipping passes over: plain blanks, and newlines when asked. */
  predicate Skippable(k: TokenKind, newline: bool) {
    k == Whitespace || (newline && k == Newline)
  }

  /**
   * Steps over blank tokens. It fails, leaving the cursor alone, only when the
   * cursor is outside the list (the end of the list itself is inside).
   */
  method SkipWhitespace(s: TokenStream, newline: bool) returns (ok: bool)
    modifies s
    ensures ok <==> old(s.pos) <= |s.tokens|
    ensures !ok ==> s.pos == old(s.pos)
    ensures ok ==> old(s.pos) <= s.pos <= |s.tokens|
    ensures ok ==> forall k | old(s.pos) <= k < s.pos :: Skippable(s.tokens[k].kind, newline)
    ensures ok ==> s.pos == |s.tokens| || !Skippable(s.tokens[s.pos].kind, newline)
    ensures ok ==> s.pos == SkipFrom(s.tokens, old(s.pos), newline)
  {
    var cpos := s.pos;
    var lastWs := cpos;
    var token := DefaultToken;
    var read;
    read, token := s.ReadToken(token);
    while read && Skippable(token.kind, newline)
      invariant read ==> cpos <= lastWs && s.pos == lastWs + 1 <= |s.tokens|
      invariant read ==> token == s.tokens[lastWs]
      invariant !read ==> s.pos == lastWs && !s.IsPositionValid()
      invariant read || cpos == lastWs || cpos <= lastWs <= |s.tokens|
      invariant forall k | cpos <= k < lastWs :: Skippable(s.tokens[k].kind, newline)
      decreases |s.tokens| - lastWs
    {
      lastWs := s.pos;
      read, token := s.ReadToken(token);
    }
    if s.pos != |s.tokens| && !s.IsPositionValid() {
      s.SetPosition(cpos);
      return false;
    }
    s.SetPosition(lastWs);
    SkipFromIsFirstSolid(s.tokens, cpos, lastWs, newline);
    return true;
  }

  /** Skipping blanks only moves the cursor forward, and from inside the list stays inside it. */
  method SkipAhead(s: TokenStream, newline: bool)
    modifies s
    ensures old(s.pos) <= s.pos
    ensures old(s.pos) <= |s.tokens| ==> s.pos <= |s.tokens|
  {
    var ok := SkipWhitespace(s, newline);
  }

  /** SkipWhitespace from a position inside the list, where it cannot fail: the cursor goes to where skipping ends. */
  method SkipBlanks(s: TokenStream, newline: bool)
    requires s.pos <= |s.tokens|
    modifies s
    ensures s.pos == SkipFrom(s.tokens, old(s.pos), newline)
  {
    var ok := SkipWhitespace(s, newline);
  }

  /**
   * The pattern that reads every keyword and punctuation mark: skip blanks
   * (and newlines when asked), then expect a token of `oneOf`.
   */
  method SkipAndExpect(s: TokenStream, prev: Token, oneOf: Mask, newline: bool) returns (ok: bool, token: Token)
    requires s.pos <= |s.tokens|
    modifies s
    ensures old(s.pos) <= s.pos <= |s.tokens|
    ensures ok ==> old(s.pos) < s.pos && token == s.tokens[s.pos - 1] && token.kind in oneOf
  {
    ok, token := SkipAndExpectAt(s, prev, oneOf, newline);
  }

  /** The same, stating where the token read lies; for the callers that need it (it costs the others). */
  method SkipAndExpectAt(s: TokenStream, prev: Token, oneOf: Mask, newline: bool) returns (ok: bool, token: Token)
    requires s.pos <= |s.tokens|
    modifies s
    ensures old(s.pos) <= s.pos <= |s.tokens|
    ensures ok ==> old(s.pos) < s.pos && token == s.tokens[s.pos - 1] && token.kind in oneOf
    ensures ok <==> NextIs(s.tokens, old(s.pos), newline, oneOf)
    ensures s.pos == SkipFrom(s.tokens, old(s.pos), newline) + (if ok then 1 else 0)
  {
    var skipped := SkipWhitespace(s, newline);
    ok, token := s.ExpectToken(prev, oneOf);
  }

  /** The same again, naming the position `at` of the token read as a ghost result, which keeps the callers' proofs short. */
  method SkipAndExpectWhere(s: TokenStream, prev: Token, oneOf: Mask, newline: bool) returns (ok: bool, token: Token, ghost at: nat)
    requires s.pos <= |s.tokens|
    modifies s
    ensures at == SkipFrom(s.tokens, old(s.pos), newline)
    ensures ok <==> NextIs(s.tokens, old(s.pos), newline, oneOf)
    ensures ok ==> at < |s.tokens| && s.pos == at + 1 && s.tokens[at] == token && token.kind in oneOf
    ensures !ok ==> s.pos == at
  {
    at := SkipFrom(s.tokens, s.pos, newline);
    ok, token := SkipAndExpectAt(s, prev, oneOf, newline);
  }

  /** The first token after the blanks from `i` is one of `oneOf`. */
  predicate NextIs(ts: seq<Token>, i: nat, newline: bool, oneOf: Mask)
    requires i <= |ts|
  {
    var j := SkipFrom(ts, i, newline);
    j < |ts| && ts[j].kind in oneOf
  }

  /** Where skipping from `i` ends: the first token that is not skippable, or the end. */
  function SkipFrom(ts: seq<Token>, i: nat, newline: bool): (j: nat)
    requires i <= |ts|
    ensures i <= j <= |ts|
    ensures j == |ts| || !Skippable(ts[j].kind, newline)
    decreases |ts| - i
  {
    if i == |ts| || !Skippable(ts[i].kind, newline) then i else SkipFrom(ts, i + 1, newline)
  }

  /** Every token skipping steps over is skippable. */
  lemma {:induction false} SkipFromSkips(ts: seq<Token>, i: nat, newline: bool)
    requires i <= |ts|
    ensures forall k | i <= k < SkipFrom(ts, i, newline) :: Skippable(ts[k].kind, newline)
    decreases |ts| - i
  {
    if i < |ts| && Skippable(ts[i].kind, newline) {
      SkipFromSkips(ts, i + 1, newline);
    }
  }

  /** The end of a run of skippable tokens that stops at a solid token or the end is where skipping ends. */
  lemma {:induction false} SkipFromIsFirstSolid(ts: seq<Token>, i: nat, j: nat, newline: bool)
    requires i <= j <= |ts|
    requires forall k | i <= k < j :: Skippable(ts[k].kind, newline)
    requires j == |ts| || !Skippable(ts[j].kind, newline)
    ensures SkipFrom(ts, i, newline) == j
    decreases j - i
  {
    if i < j {
      SkipFromIsFirstSolid(ts, i + 1, j, newline);
    }
  }

  /** Tokens put before a list move every skip target inside the list by their number. */
  lemma SkipFromShift(b: seq<Token>, ts: seq<Token>, i: nat, newline: bool)
    requires i <= |ts|
    ensures SkipFrom(b + ts, i + |b|, newline) == SkipFrom(ts, i, newline) + |b|
  {
    var j := SkipFrom(ts, i, newline);
    var bts := b + ts;
    SkipFromSkips(ts, i, newline);
    forall k | i + |b| <= k < j + |b|
      ensures Skippable(bts[k].kind, newline)
    {
      assert bts[k] == ts[k - |b|];
    }
    assert j + |b| == |bts| || bts[j + |b|] == ts[j];
    SkipFromIsFirstSolid(bts, i + |b|, j + |b|, newline);
  }

  /** Blank tokens put before a list are skipped with it. */
  lemma SkipFromAfterBlanks(b: seq<Token>, ts: seq<Token>, newline: bool)
    requires forall k | 0 <= k < |b| :: Skippable(b[k].kind, newline)
    ensures SkipFrom(b + ts, 0, newline) == SkipFrom(ts, 0, newline) + |b|
  {
    var j := SkipFrom(ts, 0, newline);
    var bts := b + ts;
    SkipFromShift(b, ts, 0, newline);
    SkipFromSkips(ts, 0, newline);
    forall k | 0 <= k < j + |b|
      ensures Skippable(bts[k].kind, newline)
    {
      if k < |b| {
        assert bts[k] == b[k];
      } else {
        assert bts[k] == ts[k - |b|];
      }
    }
    SkipFromIsFirstSolid(bts, 0, j + |b|, newline);
  }

  predicate IsOpener(k: TokenKind) {
    k == OpenCurly || k == OpenSquare || k == OpenParen
  }

  predicate IsCloser(k: TokenKind) {
    k == CloseCurly || k == CloseSquare || k == CloseParen
  }

  /** The closer an opener waits for. */
  function CloserOf(k: TokenKind): (c: TokenKind)
    ensures IsOpener(k) ==> IsCloser(c)
    ensures !IsOpener(k) ==> c == Invalid
  {
    match k
    case OpenCurly => CloseCurly
    case OpenParen => CloseParen
    case OpenSquare => CloseSquare
    case _ => Invalid
  }

  /**
   * Where a balanced run that starts at `i` with the open brackets `stack`
   * ends, and which brackets are still open there. A stop-set token or a
   * closer ends the run only when nothing is open; a closer that does not
   * fit the innermost opener is kept in the run and closes nothing.
   */
  function Consume(ts: seq<Token>, i: nat, stack: seq<TokenKind>, stop: Mask): (r: (nat, seq<TokenKind>))
    requires i <= |ts|
    ensures i <= r.0 <= |ts|
    decreases |ts| - i
  {
    if i == |ts| then (i, stack)
    else
      var k := ts[i].kind;
      if |stack| == 0 && k in stop then (i, stack)
      else if IsOpener(k) then Consume(ts, i + 1, stack + [k], stop)
      else if IsCloser(k) then
        if |stack| == 0 then (i, stack)
        else if k != CloserOf(stack[|stack| - 1]) then Consume(ts, i + 1, stack, stop)
        else Consume(ts, i + 1, stack[..|stack| - 1], stop)
      else Consume(ts, i + 1, stack, stop)
  }

  /**
   * Collects tokens from the cursor until a stop-set token or an unopened
   * closer at bracket depth zero, or the end; the stopping token is left
   * under the cursor. It always reports success.
   */
  method ConsumeTokens(s: TokenStream, stop: Mask) returns (ok: bool, out: seq<Token>)
    modifies s
    ensures ok
    ensures old(s.pos) <= |s.tokens| ==>
      s.pos == Consume(s.tokens, old(s.pos), [], stop).0 && out == s.tokens[old(s.pos)..s.pos]
    ensures old(s.pos) > |s.tokens| ==> s.pos == old(s.pos) && out == []
  {
    ghost var p0 := s.pos;
    out := [];
    var stack: seq<TokenKind> := [];
    var token := DefaultToken;
    var read;
    read, token := s.ReadToken(token);
    if !read {
      return true, out;
    }
    while true
      invariant Consuming(s.tokens, p0, s.pos, stack, stop, out, token)
      decreases |s.tokens| - s.pos
    {
      if |stack| == 0 && (token.kind in stop || IsCloser(token.kind)) {
        ConsumingHalts(s.tokens, p0, s.pos, stack, stop, out, token);
        s.SetPosition(s.pos - 1);
        return true, out;
      }
      ghost var pos, stack0, out0, token0 := s.pos, stack, out, token;
      stack := Track(stack, token.kind);
      out := out + [token];
      read, token := s.ReadToken(token);
      if !read {
        ConsumingAtEnd(s.tokens, p0, pos, stack0, stop, out0, token0);
        return true, out;
      }
      ConsumingStep(s.tokens, p0, pos, stack0, stop, out0, token0, token);
    }
  }

  /** The loop state of ConsumeTokens: `token`, just read, ends what is collected so far. */
  ghost predicate Consuming(ts: seq<Token>, p0: nat, pos: nat, stack: seq<TokenKind>, stop: Mask, out: seq<Token>, token: Token) {
    && p0 < pos <= |ts|
    && token == ts[pos - 1]
    && out == ts[p0..pos - 1]
    && Consume(ts, pos - 1, stack, stop) == Consume(ts, p0, [], stop)
  }

  lemma ConsumingHalts(ts: seq<Token>, p0: nat, pos: nat, stack: seq<TokenKind>, stop: Mask, out: seq<Token>, token: Token)
    requires Consuming(ts, p0, pos, stack, stop, out, token)
    requires |stack| == 0 && (token.kind in stop || IsCloser(token.kind))
    ensures Consume(ts, p0, [], stop).0 == pos - 1 && out == ts[p0..pos - 1]
  {
    ConsumeHalts(ts, pos - 1, stop);
  }

  lemma ConsumingStep(ts: seq<Token>, p0: nat, pos: nat, stack: seq<TokenKind>, stop: Mask, out: seq<Token>, token: Token, next: Token)
    requires Consuming(ts, p0, pos, stack, stop, out, token)
    requires !(|stack| == 0 && (token.kind in stop || IsCloser(token.kind)))
    requires pos < |ts| && next == ts[pos]
    ensures Consuming(ts, p0, pos + 1, Track(stack, token.kind), stop, out + [token], next)
  {
    ConsumeStep(ts, pos - 1, stack, stop);
    SliceExtend(ts, p0, pos - 1);
  }

  lemma ConsumingAtEnd(ts: seq<Token>, p0: nat, pos: nat, stack: seq<TokenKind>, stop: Mask, out: seq<Token>, token: Token)
    requires Consuming(ts, p0, pos, stack, stop, out, token)
    requires !(|stack| == 0 && (token.kind in stop || IsCloser(token.kind)))
    requires pos == |ts|
    ensures Consume(ts, p0, [], stop).0 == pos && out + [token] == ts[p0..pos]
  {
    ConsumeStep(ts, pos - 1, stack, stop);
    SliceExtend(ts, p0, pos - 1);
    ConsumeAtEnd(ts, Track(stack, token.kind), stop);
  }

  /**
   * The reading pattern of every bracket body: collect the body up to `stop`,
   * skip blanks and newlines, and read the token that ended it (a stop-set
   * token or a closer at depth zero), if any.
   */
  method ReadBody(s: TokenStream, stop: Mask, prev: Token) returns (body: seq<Token>, read: bool, closer: Token)
    requires s.pos <= |s.tokens|
    requires Whitespace !in stop && Newline !in stop
    modifies s
    ensures var c := Consume(s.tokens, old(s.pos), [], stop).0;
      && body == s.tokens[old(s.pos)..c]
      && (read <==> c < |s.tokens|)
      && (read ==> closer == s.tokens[c] && s.pos == c + 1 && (closer.kind in stop || IsCloser(closer.kind)))
      && (!read ==> closer == EndOfStream(prev) && s.pos == c)
  {
    ghost var p0 := s.pos;
    var ok;
    ok, body := ConsumeTokens(s, stop);
    ConsumeStopsAtDepthZero(s.tokens, p0, [], stop);
    ghost var c := s.pos;
    ok := SkipWhitespace(s, true);
    assert s.pos == c;
    read, closer := s.ReadToken(prev);
  }

  lemma ConsumeHalts(ts: seq<Token>, i: nat, stop: Mask)
    requires i < |ts| && (ts[i].kind in stop || IsCloser(ts[i].kind))
    ensures Consume(ts, i, [], stop) == (i, [])
  {
  }

  lemma ConsumeAtEnd(ts: seq<Token>, stack: seq<TokenKind>, stop: Mask)
    ensures Consume(ts, |ts|, stack, stop) == (|ts|, stack)
  {
  }

  /** The bracket stack after a token that does not end the run. */
  function Track(stack: seq<TokenKind>, k: TokenKind): seq<TokenKind>
    requires |stack| > 0 || !IsCloser(k)
  {
    if IsOpener(k) then stack + [k]
    else if IsCloser(k) && k == CloserOf(stack[|stack| - 1]) then stack[..|stack| - 1]
    else stack
  }

  lemma ConsumeStep(ts: seq<Token>, i: nat, stack: seq<TokenKind>, stop: Mask)
    requires i < |ts| && !(|stack| == 0 && (ts[i].kind in stop || IsCloser(ts[i].kind)))
    ensures Consume(ts, i, stack, stop) == Consume(ts, i + 1, Track(stack, ts[i].kind), stop)
  {
  }

  lemma SliceExtend(ts: seq<Token>, a: nat, b: nat)
    requires a <= b < |ts|
    ensures ts[a..b] + [ts[b]] == ts[a..b + 1]
  {
  }

  /** A closer that does not fit the innermost open bracket stays in the run and closes nothing. */
  lemma MismatchedCloserKept(ts: seq<Token>, i: nat, stack: seq<TokenKind>, stop: Mask)
    requires i < |ts| && |stack| > 0 && IsCloser(ts[i].kind) && ts[i].kind != CloserOf(stack[|stack| - 1])
    ensures Consume(ts, i, stack, stop) == Consume(ts, i + 1, stack, stop)
  {
  }

  /**
   * A run ends before the end of the list only at depth zero, and only on a
   * stop-set token or a closer.
   */
  lemma {:induction false} ConsumeStopsAtDepthZero(ts: seq<Token>, i: nat, stack: seq<TokenKind>, stop: Mask)
    requires i <= |ts|
    ensures var r := Consume(ts, i, stack, stop);
      r.0 < |ts| ==> r.1 == [] && (ts[r.0].kind in stop || IsCloser(ts[r.0].kind))
    decreases |ts| - i
  {
    if i < |ts| {
      var k := ts[i].kind;
      if |stack| == 0 && k in stop {
      } else if IsOpener(k) {
        ConsumeStopsAtDepthZero(ts, i + 1, stack + [k], stop);
      } else if IsCloser(k) {
        if |stack| == 0 {
        } else if k != CloserOf(stack[|stack| - 1]) {
          ConsumeStopsAtDepthZero(ts, i + 1, stack, stop);
        } else {
          ConsumeStopsAtDepthZero(ts, i + 1, stack[..|stack| - 1], stop);
        }
      } else {
        ConsumeStopsAtDepthZero(ts, i + 1, stack, stop);
      }
    }
  }

  /**
   * Without openers ahead, a run from depth zero ends at the first stop-set
   * token or closer, and holds every token before it.
   */
  lemma {:induction false} ConsumeWithoutOpeners(ts: seq<Token>, i: nat, stop: Mask)
    requires i <= |ts|
    requires forall k | i <= k < |ts| :: !IsOpener(ts[k].kind)
    ensures var e := Consume(ts, i, [], stop).0;
      (forall k | i <= k < e :: ts[k].kind !in stop && !IsCloser(ts[k].kind)) &&
      (e == |ts| || ts[e].kind in stop || IsCloser(ts[e].kind))
    decreases |ts| - i
  {
    if i < |ts| {
      var k := ts[i].kind;
      if k in stop || IsCloser(k) {
        ConsumeHalts(ts, i, stop);
      } else {
        ConsumeWithoutOpeners(ts, i + 1, stop);
        ConsumePassesPlain(ts, i, stop);
      }
    }
  }

  /** A token that neither stops the run nor is a bracket is taken into it. */
  lemma ConsumePassesPlain(ts: seq<Token>, i: nat, stop: Mask)
    requires i < |ts| && ts[i].kind !in stop && !IsOpener(ts[i].kind) && !IsCloser(ts[i].kind)
    ensures Consume(ts, i, [], stop) == Consume(ts, i + 1, [], stop)
  {
  }

  /**
   * While a bracket is open, stop-set tokens do not end the run: with a
   * bracket open and no bracket tokens ahead, the run takes every token up
   * to the end and leaves the bracket open.
   */
  lemma {:induction false} ConsumeInsideBrackets(ts: seq<Token>, i: nat, stack: seq<TokenKind>, stop: Mask)
    requires i <= |ts| && |stack| > 0
    requires forall k | i <= k < |ts| :: !IsOpener(ts[k].kind) && !IsCloser(ts[k].kind)
    ensures Consume(ts, i, stack, stop) == (|ts|, stack)
    decreases |ts| - i
  {
    if i < |ts| {
      ConsumeInsideBrackets(ts, i + 1, stack, stop);
    }
  }
}
