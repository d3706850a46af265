// Properties of the lexer's scan functions. Most are stated for text without
// NUL characters: a NUL reads like the end of the text but is consumed, which
// is the one way a reader can leave the position neither restored nor at the
// end of what it matched.

module LexerProps {
  import opened Tokens
  import opened LexerSpec

  lemma NotNul(data: string, k: nat)
    requires k < |data| && '\0' !in data
    ensures data[k] != '\0'
  {
    assert data[k] in data;
  }

  // ---------------------------------------------------------------- loops read exactly the text they pass over

  lemma {:induction false} WhitespaceLoopText(data: string, i: nat, acc: string)
    requires i <= |data| && '\0' !in data
    ensures var (e, v) := WhitespaceLoop(data, i, acc);
      v == acc + data[i..e] && (e == |data| || !IsWhitespaceChar(data[e])) &&
      forall k | i <= k < e :: IsWhitespaceChar(data[k])
    decreases |data| - i
  {
    if i < |data| && IsWhitespaceChar(data[i]) {
      WhitespaceLoopText(data, i + 1, acc + [data[i]]);
      var (e, v) := WhitespaceLoop(data, i + 1, acc + [data[i]]);
      assert acc + [data[i]] + data[i + 1..e] == acc + data[i..e];
    } else if i < |data| {
      NotNul(data, i);
    }
  }

  lemma {:induction false} IdentifierLoopText(data: string, i: nat, acc: string)
    requires i <= |data| && '\0' !in data
    ensures var (e, v) := IdentifierLoop(data, i, acc);
      v == acc + data[i..e] && (e == |data| || !IsIdentChar(data[e])) &&
      forall k | i <= k < e :: IsIdentChar(data[k])
    decreases |data| - i
  {
    if i < |data| {
      NotNul(data, i);
      if IsIdentChar(data[i]) {
        IdentifierLoopText(data, i + 1, acc + [data[i]]);
        var (e, v) := IdentifierLoop(data, i + 1, acc + [data[i]]);
        assert acc + [data[i]] + data[i + 1..e] == acc + data[i..e];
      }
    }
  }

  lemma {:induction false} LineCommentLoopText(data: string, i: nat, acc: string)
    requires i <= |data| && '\0' !in data
    ensures var (e, v) := LineCommentLoop(data, i, acc);
      v == acc + data[i..e] && (e == |data| || data[e] == '\n') && '\n' !in data[i..e]
    decreases |data| - i
  {
    if i < |data| {
      NotNul(data, i);
      if data[i] != '\n' {
        LineCommentLoopText(data, i + 1, acc + [data[i]]);
        var (e, v) := LineCommentLoop(data, i + 1, acc + [data[i]]);
        assert acc + [data[i]] + data[i + 1..e] == acc + data[i..e];
        assert data[i..e] == [data[i]] + data[i + 1..e];
      }
    }
  }

  lemma {:induction false} BlockCommentLoopText(data: string, i: nat, acc: string)
    requires i <= |data| && '\0' !in data
    ensures var (e, v) := BlockCommentLoop(data, i, acc);
      (i + 2 <= e && data[e - 2] == '*' && data[e - 1] == '/' && v == acc + data[i..e - 2]) ||
      (e == |data| && (v == acc + data[i..] || (i < |data| && data[|data| - 1] == '*' && v == acc + data[i..|data| - 1])))
    decreases |data| - i
  {
    if i < |data| {
      NotNul(data, i);
      if data[i] == '*' && i + 1 < |data| {
        NotNul(data, i + 1);
      }
      if data[i] == '*' && (i + 1 == |data| || data[i + 1] == '/') {
      } else {
        BlockCommentLoopText(data, i + 1, acc + [data[i]]);
        var (e, v) := BlockCommentLoop(data, i + 1, acc + [data[i]]);
        if i + 1 + 2 <= e && data[e - 2] == '*' && data[e - 1] == '/' {
          assert acc + [data[i]] + data[i + 1..e - 2] == acc + data[i..e - 2];
        } else if v == acc + [data[i]] + data[i + 1..] {
          assert acc + [data[i]] + data[i + 1..] == acc + data[i..];
        } else {
          assert acc + [data[i]] + data[i + 1..|data| - 1] == acc + data[i..|data| - 1];
        }
      }
    }
  }

  /** The text of a quoted literal from position i on: up to the closing quote, which a backslash escapes. */
  lemma {:induction false} QuotedLoopText(data: string, i: nat, quote: char, acc: string)
    requires i <= |data| && '\0' !in data && quote != '\\' && quote != '\0'
    ensures var (e, v, closed) := QuotedLoop(data, i, quote, acc);
      (closed ==> i < e && data[e - 1] == quote && v == acc + data[i..e - 1]) &&
      (!closed ==> e == |data| && v == acc + data[i..])
    decreases |data| - i, 1
  {
    if i < |data| {
      NotNul(data, i);
      if i + 1 < |data| { NotNul(data, i + 1); }
      QuotedStep(data, i, quote, acc);
      if data[i] == '\\' {
        if i + 1 < |data| {
          QuotedEscapeCase(data, i, quote, acc);
        } else {
          assert acc + [data[i]] == acc + data[i..];
        }
      } else if data[i] != quote {
        QuotedPlainCase(data, i, quote, acc);
      }
    } else {
      assert data[i..] == [];
    }
  }

  /** One step of the quoted-literal loop on text without NUL. */
  lemma QuotedStep(data: string, i: nat, quote: char, acc: string)
    requires i < |data| && data[i] != '\0' && (i + 1 < |data| ==> data[i + 1] != '\0') && quote != '\0'
    ensures QuotedLoop(data, i, quote, acc) ==
      if data[i] == '\\' then
        (if i + 1 < |data| then QuotedLoop(data, i + 2, quote, acc + [data[i], data[i + 1]])
         else (i + 1, acc + [data[i]], false))
      else if data[i] == quote then (i + 1, acc, true)
      else QuotedLoop(data, i + 1, quote, acc + [data[i]])
  {
  }

  lemma {:induction false} QuotedEscapeCase(data: string, i: nat, quote: char, acc: string)
    requires i + 1 < |data| && '\0' !in data && quote != '\\' && quote != '\0'
    ensures var (e, v, closed) := QuotedLoop(data, i + 2, quote, acc + [data[i], data[i + 1]]);
      (closed ==> i < e && data[e - 1] == quote && v == acc + data[i..e - 1]) &&
      (!closed ==> e == |data| && v == acc + data[i..])
    decreases |data| - i, 0
  {
    var acc1 := acc + [data[i], data[i + 1]];
    QuotedLoopText(data, i + 2, quote, acc1);
    var (e, v, closed) := QuotedLoop(data, i + 2, quote, acc1);
    if closed {
      GlueTwo(acc, data, i, e - 1);
    } else {
      GlueTwo(acc, data, i, |data|);
    }
  }

  lemma {:induction false} QuotedPlainCase(data: string, i: nat, quote: char, acc: string)
    requires i < |data| && '\0' !in data && quote != '\\' && quote != '\0'
    ensures var (e, v, closed) := QuotedLoop(data, i + 1, quote, acc + [data[i]]);
      (closed ==> i < e && data[e - 1] == quote && v == acc + data[i..e - 1]) &&
      (!closed ==> e == |data| && v == acc + data[i..])
    decreases |data| - i, 0
  {
    var acc1 := acc + [data[i]];
    QuotedLoopText(data, i + 1, quote, acc1);
    var (e, v, closed) := QuotedLoop(data, i + 1, quote, acc1);
    if closed {
      GlueOne(acc, data, i, e - 1);
    } else {
      GlueOne(acc, data, i, |data|);
    }
  }

  lemma GlueOne(acc: string, data: string, i: nat, k: nat)
    requires i + 1 <= k <= |data|
    ensures acc + [data[i]] + data[i + 1..k] == acc + data[i..k]
    ensures k == |data| ==> data[i..k] == data[i..]
  {
    assert data[i..k] == [data[i]] + data[i + 1..k];
  }

  lemma GlueTwo(acc: string, data: string, i: nat, k: nat)
    requires i + 2 <= k <= |data|
    ensures acc + [data[i], data[i + 1]] + data[i + 2..k] == acc + data[i..k]
    ensures k == |data| ==> data[i..k] == data[i..]
  {
    assert data[i..k] == [data[i], data[i + 1]] + data[i + 2..k];
  }

  // ---------------------------------------------------------------- the readers

  /** Whitespace: a maximal run of the whitespace class, with exactly that text as its value. */
  lemma WhitespaceToken(data: string, i: nat, prev: Token)
    requires i < |data| && '\0' !in data
    ensures ReadWhitespace(data, i, prev).Hit? <==> IsWhitespaceChar(data[i])
    ensures ReadWhitespace(data, i, prev).Hit? ==>
      var r := ReadWhitespace(data, i, prev);
      r.tok.kind == Whitespace && r.tok.value == data[i..r.next] &&
      (forall k | i <= k < r.next :: IsWhitespaceChar(data[k])) &&
      (r.next == |data| || !IsWhitespaceChar(data[r.next]))
  {
    if IsWhitespaceChar(data[i]) {
      WhitespaceLoopText(data, i + 1, [data[i]]);
      var (e, v) := WhitespaceLoop(data, i + 1, [data[i]]);
      assert [data[i]] + data[i + 1..e] == data[i..e];
    }
  }

  /** Newline is not whitespace: a newline character always starts a Newline token. */
  lemma NewlineToken(data: string, i: nat, prev: Token)
    requires i < |data| && data[i] == '\n'
    ensures LexerSpec.ReadToken(data, i, prev) == Some((Stamp(prev, Newline, "\n", i, i + 1), i + 1))
  {
    NewlineMissesReaders(data, i, prev);
    NewlineReadNamed(data, i, prev);
  }

  lemma NewlineReadNamed(data: string, i: nat, prev: Token)
    requires i < |data| && data[i] == '\n'
    ensures ReadNamed(data, i, prev) == Hit(Stamp(prev, Newline, "\n", i, i + 1), i + 1)
  {
    assert LookAhead(data, i)[0] == '\n';
    NewlineMatchesNamed(LookAhead(data, i));
    assert FixedText(Newline) == "\n";
  }

  lemma NewlineMissesReaders(data: string, i: nat, prev: Token)
    requires i < |data| && data[i] == '\n'
    ensures ReadWhitespace(data, i, prev) == Miss(i)
    ensures ReadIdentifier(data, i, prev) == Miss(i)
    ensures ReadNumber(data, i, prev) == Miss(i)
    ensures ReadStringOrComment(data, i, prev) == Miss(i)
  {
  }

  lemma NewlineMatchesNamed(look: string)
    requires |look| > 0 && look[0] == '\n'
    ensures NamedMatch(look) == Some(Newline)
  {
    assert IsPrefix(FixedText(Newline), look);
    NamedMatchIsLongest(look);
    var k := NamedMatch(look).value;
    assert FixedText(k)[0] == look[0];
    OnlyNewlineStartsWithNewline(k);
  }

  /** An identifier is `[A-Za-z_][A-Za-z0-9_]*`, read as far as it goes, with exactly that text as its value. */
  lemma IdentifierToken(data: string, i: nat, prev: Token)
    requires i < |data| && '\0' !in data
    ensures ReadIdentifier(data, i, prev).Hit? <==> IsIdentStart(data[i])
    ensures ReadIdentifier(data, i, prev).Miss? ==> ReadIdentifier(data, i, prev).next == i
    ensures ReadIdentifier(data, i, prev).Hit? ==>
      var r := ReadIdentifier(data, i, prev);
      r.tok.kind == Identifier && r.tok.value == data[i..r.next] &&
      (forall k | i < k < r.next :: IsIdentChar(data[k])) &&
      (r.next == |data| || !IsIdentChar(data[r.next]))
  {
    NotNul(data, i);
    if IsIdentStart(data[i]) {
      IdentifierLoopText(data, i + 1, [data[i]]);
      var (e, v) := IdentifierLoop(data, i + 1, [data[i]]);
      assert [data[i]] + data[i + 1..e] == data[i..e];
    }
  }

  /** A line comment's value is the rest of the line after `//`, without the newline. */
  lemma LineCommentToken(data: string, i: nat, prev: Token)
    requires i + 1 < |data| && data[i] == '/' && data[i + 1] == '/' && '\0' !in data
    ensures var r := ReadStringOrComment(data, i, prev);
      r.Hit? && r.tok.kind == LineComment && r.tok.value == data[i + 2..r.next] &&
      '\n' !in r.tok.value && (r.next == |data| || data[r.next] == '\n')
  {
    LineCommentLoopText(data, i + 2, "");
  }

  /** A block comment's value is the text between its markers; an unclosed one runs to the end. */
  lemma BlockCommentToken(data: string, i: nat, prev: Token)
    requires i + 1 < |data| && data[i] == '/' && data[i + 1] == '*' && '\0' !in data
    ensures var r := ReadStringOrComment(data, i, prev);
      r.Hit? && r.tok.kind == BlockComment &&
      ((i + 4 <= r.next && data[r.next - 2..r.next] == "*/" && r.tok.value == data[i + 2..r.next - 2]) ||
       (r.next == |data| && (r.tok.value == data[i + 2..] ||
         (i + 2 < |data| && data[|data| - 1] == '*' && r.tok.value == data[i + 2..|data| - 1]))))
  {
    BlockCommentLoopText(data, i + 2, "");
    var (e, v) := BlockCommentLoop(data, i + 2, "");
    if i + 2 + 2 <= e && data[e - 2] == '*' && data[e - 1] == '/' {
      assert data[e - 2..e] == "*/";
    }
  }

  /**
   * A string or name literal ends at its matching quote and its value is the
   * text between the quotes, escapes kept verbatim; without a closing quote
   * it runs to the end of the text and is marked invalid.
   */
  lemma QuotedToken(data: string, i: nat, prev: Token)
    requires i < |data| && (data[i] == '"' || data[i] == '\'') && '\0' !in data
    ensures var r := ReadStringOrComment(data, i, prev);
      r.Hit? && r.tok.kind == (if data[i] == '"' then String else Name) && r.tok.startsAt == i &&
      ((i + 2 <= r.next && data[r.next - 1] == data[i] && r.tok.value == data[i + 1..r.next - 1] &&
        r.tok.isValid == prev.isValid) ||
       (r.next == |data| && r.tok.value == data[i + 1..] && !r.tok.isValid))
  {
    QuotedLoopText(data, i + 1, data[i], "");
  }

  // ---------------------------------------------------------------- numbers

  /** The digits of a number without a leading dot. */
  function Body(v: string): string {
    if |v| > 0 && v[0] == '.' then v[1..] else v
  }

  predicate HasHexPrefix(b: string) {
    |b| >= 2 && b[0] == '0' && (b[1] == 'x' || b[1] == 'X')
  }

  /** A number is floating when it has a dot, or an exponent mark outside hexadecimal digits. */
  predicate ReadAsDouble(v: string) {
    '.' in v || (!HasHexPrefix(Body(v)) && ('e' in v || 'E' in v))
  }

  /** A number is octal when it starts with 0, is not hexadecimal and has no 8 or 9. */
  predicate ReadAsOctal(v: string) {
    var b := Body(v);
    |b| > 0 && b[0] == '0' && !HasHexPrefix(b) && '8' !in b && '9' !in b
  }

  /** The kind of a number token, read off its text. */
  function NumberKind(v: string): TokenKind {
    if ReadAsDouble(v) then (if DoubleTextConverts(v) then Double else Invalid)
    else if HasHexPrefix(v) then (if ToLongLong(v, 16).Some? then Integer else Invalid)
    else if ReadAsOctal(v) then (if ToLongLong(v, 8).Some? then Integer else Invalid)
    else Integer
  }

  /** The number reader's flags say what the text read so far says. */
  predicate FlagsAgree(f: NumFlags, acc: string) {
    var b := Body(acc);
    |b| > 0 && IsDigit(b[0]) &&
    f.isHex == HasHexPrefix(b) &&
    f.isExponent == (!f.isHex && ('e' in acc || 'E' in acc)) &&
    f.isDouble == ReadAsDouble(acc) &&
    f.dotIsValid == ('.' !in acc && !f.isExponent) &&
    f.isOctal == (b[0] == '0' && !f.isHex && '8' !in b && '9' !in b)
  }

  lemma AppendBody(acc: string, c: char)
    requires |Body(acc)| > 0
    ensures Body(acc + [c]) == Body(acc) + [c]
    ensures c != 'x' && c != 'X' ==> (HasHexPrefix(Body(acc + [c])) <==> HasHexPrefix(Body(acc)))
    ensures forall x :: x in acc + [c] <==> x in acc || x == c
    ensures forall x :: x in Body(acc) + [c] <==> x in Body(acc) || x == c
  {
    if acc[0] == '.' {
      assert (acc + [c])[1..] == acc[1..] + [c];
    }
  }

  lemma SliceAppend(acc: string, data: string, i: nat, j: nat, e: nat)
    requires i <= j <= e <= |data|
    ensures acc + data[i..j] + data[j..e] == acc + data[i..e]
  {
    assert data[i..j] + data[j..e] == data[i..e];
  }

  lemma SliceJoin(data: string, i: nat, j: nat, e: nat)
    requires i <= j <= e <= |data|
    ensures data[i..j] + data[j..e] == data[i..e]
  {
  }

  lemma DigitStepAgrees(f: NumFlags, acc: string, c: char)
    requires FlagsAgree(f, acc) && (IsDigit(c) || (!f.isExponent && f.isHex && IsHexLetter(c)))
    ensures FlagsAgree(f.(isOctal := f.isOctal && !(c >= '8')), acc + [c])
  {
    AppendBody(acc, c);
  }

  lemma ExponentStepAgrees(f: NumFlags, acc: string, c: char, minus: bool)
    requires FlagsAgree(f, acc) && !f.isExponent && !f.isHex && (c == 'e' || c == 'E')
    ensures FlagsAgree(f.(isDouble := true, isExponent := true, dotIsValid := false),
      if minus then acc + [c, '-'] else acc + [c])
  {
    AppendBody(acc, c);
    if minus {
      AppendBody(acc + [c], '-');
      assert acc + [c, '-'] == acc + [c] + ['-'];
    }
  }

  lemma DotStepAgrees(f: NumFlags, acc: string)
    requires FlagsAgree(f, acc) && f.dotIsValid
    ensures FlagsAgree(f.(isDouble := true, dotIsValid := false), acc + ['.'])
  {
    AppendBody(acc, '.');
  }

  /** One step of the number reader's main loop, on a character that is not NUL. */
  lemma NumberLoopStep(data: string, i: nat, f: NumFlags, acc: string)
    requires i < |data| && data[i] != '\0' && (i + 1 < |data| ==> data[i + 1] != '\0')
    ensures var c := data[i];
      var minus := i + 1 < |data| && data[i + 1] == '-';
      NumberLoop(data, i, f, acc) ==
        if IsDigit(c) || (!f.isExponent && f.isHex && IsHexLetter(c)) then
          NumberLoop(data, i + 1, f.(isOctal := f.isOctal && !(c >= '8')), acc + [c])
        else if !f.isExponent && (c == 'e' || c == 'E') then
          NumberLoop(data, if minus then i + 2 else i + 1,
            f.(isDouble := true, isExponent := true, dotIsValid := false),
            if minus then acc + [c, '-'] else acc + [c])
        else if f.dotIsValid && c == '.' then
          NumberLoop(data, i + 1, f.(isDouble := true, dotIsValid := false), acc + [c])
        else (i, f, acc)
  {
  }

  lemma {:induction false} NumberLoopAgrees(data: string, i: nat, f: NumFlags, acc: string)
    requires i <= |data| && '\0' !in data && FlagsAgree(f, acc)
    ensures var r := NumberLoop(data, i, f, acc);
      FlagsAgree(r.1, r.2) && r.2 == acc + data[i..r.0]
    decreases |data| - i, 1
  {
    if i < |data| {
      NotNul(data, i);
      if i + 1 < |data| { NotNul(data, i + 1); }
      NumberLoopStep(data, i, f, acc);
      var c := data[i];
      if IsDigit(c) || (!f.isExponent && f.isHex && IsHexLetter(c)) {
        DigitCaseAgrees(data, i, f, acc);
      } else if !f.isExponent && (c == 'e' || c == 'E') {
        ExponentCaseAgrees(data, i, f, acc);
      } else if f.dotIsValid && c == '.' {
        DotCaseAgrees(data, i, f, acc);
      }
    }
  }

  lemma {:induction false} DigitCaseAgrees(data: string, i: nat, f: NumFlags, acc: string)
    requires i < |data| && '\0' !in data && FlagsAgree(f, acc)
    requires IsDigit(data[i]) || (!f.isExponent && f.isHex && IsHexLetter(data[i]))
    ensures var r := NumberLoop(data, i + 1, f.(isOctal := f.isOctal && !(data[i] >= '8')), acc + [data[i]]);
      FlagsAgree(r.1, r.2) && r.2 == acc + data[i..r.0]
    decreases |data| - i, 0
  {
    var c := data[i];
    var f1 := f.(isOctal := f.isOctal && !(c >= '8'));
    var acc1 := acc + [c];
    OneMore(data, i, acc);
    DigitStepAgrees(f, acc, c);
    NumberLoopAgrees(data, i + 1, f1, acc1);
    var r := NumberLoop(data, i + 1, f1, acc1);
    SliceAppend(acc, data, i, i + 1, r.0);
  }

  lemma OneMore(data: string, i: nat, acc: string)
    requires i < |data|
    ensures acc + [data[i]] == acc + data[i..i + 1]
  {
  }

  lemma {:induction false} ExponentCaseAgrees(data: string, i: nat, f: NumFlags, acc: string)
    requires i < |data| && '\0' !in data && FlagsAgree(f, acc)
    requires !f.isExponent && (data[i] == 'e' || data[i] == 'E') && !(f.isHex && IsHexLetter(data[i]))
    ensures var minus := i + 1 < |data| && data[i + 1] == '-';
      var r := NumberLoop(data, if minus then i + 2 else i + 1,
        f.(isDouble := true, isExponent := true, dotIsValid := false),
        if minus then acc + [data[i], '-'] else acc + [data[i]]);
      FlagsAgree(r.1, r.2) && r.2 == acc + data[i..r.0]
    decreases |data| - i, 0
  {
    var c := data[i];
    var f1 := f.(isDouble := true, isExponent := true, dotIsValid := false);
    var minus := i + 1 < |data| && data[i + 1] == '-';
    var k := if minus then i + 2 else i + 1;
    var acc1 := if minus then acc + [c, '-'] else acc + [c];
    assert acc1 == acc + data[i..k];
    ExponentStepAgrees(f, acc, c, minus);
    NumberLoopAgrees(data, k, f1, acc1);
    var r := NumberLoop(data, k, f1, acc1);
    SliceAppend(acc, data, i, k, r.0);
  }

  lemma {:induction false} DotCaseAgrees(data: string, i: nat, f: NumFlags, acc: string)
    requires i < |data| && '\0' !in data && FlagsAgree(f, acc) && f.dotIsValid && data[i] == '.'
    ensures var r := NumberLoop(data, i + 1, f.(isDouble := true, dotIsValid := false), acc + [data[i]]);
      FlagsAgree(r.1, r.2) && r.2 == acc + data[i..r.0]
    decreases |data| - i, 0
  {
    var f1 := f.(isDouble := true, dotIsValid := false);
    var acc1 := acc + [data[i]];
    OneMore(data, i, acc);
    DotStepAgrees(f, acc);
    NumberLoopAgrees(data, i + 1, f1, acc1);
    var r := NumberLoop(data, i + 1, f1, acc1);
    SliceAppend(acc, data, i, i + 1, r.0);
  }

  lemma NumberTokenKind(prev: Token, f: NumFlags, v: string, s: int, e: int)
    requires FlagsAgree(f, v)
    ensures NumberToken(prev, f, v, s, e).kind == NumberKind(v)
    ensures NumberToken(prev, f, v, s, e).value == v
    ensures NumberToken(prev, f, v, s, e).startsAt == s && NumberToken(prev, f, v, s, e).endsAt == e
  {
  }

  /** Where a number starts: a digit, or a dot before a digit. */
  predicate NumberStart(data: string, i: nat) {
    i < |data| && (IsDigit(data[i]) || (data[i] == '.' && i + 1 < |data| && IsDigit(data[i + 1])))
  }

  /** The position after the first digit of a number that starts at `i`. */
  function FirstDigitEnd(data: string, i: nat): (j: nat)
    requires NumberStart(data, i)
    ensures i < j <= |data| && IsDigit(data[j - 1])
  {
    if data[i] == '.' then i + 2 else i + 1
  }

  /** The number reader's prelude: whether `0x` or `0X` was read, the text so far, and where the main loop starts. */
  function Prelude(data: string, i: nat): (bool, string, nat)
    requires NumberStart(data, i)
  {
    var j1 := FirstDigitEnd(data, i);
    if data[j1 - 1] == '0' then HexPeek(data, j1, data[i..j1]) else (false, data[i..j1], j1)
  }

  /** The flags the main loop starts with. */
  function StartFlags(data: string, i: nat, hex: bool): NumFlags
    requires NumberStart(data, i)
  {
    var dot := data[i] == '.';
    NumFlags(dot, data[FirstDigitEnd(data, i) - 1] == '0' && !hex, hex, false, !dot)
  }

  /** The flags the number reader starts its main loop with agree with the text read before it. */
  lemma PreludeAgrees(data: string, i: nat)
    requires NumberStart(data, i) && '\0' !in data
    ensures var p := Prelude(data, i);
      i < p.2 <= |data| && p.1 == data[i..p.2] && FlagsAgree(StartFlags(data, i, p.0), p.1)
  {
    var j1 := FirstDigitEnd(data, i);
    var acc1 := data[i..j1];
    assert Body(acc1) == [data[j1 - 1]];
    if data[j1 - 1] == '0' && j1 < |data| {
      NotNul(data, j1);
      var (hex, acc2, j2) := HexPeek(data, j1, acc1);
      if hex {
        assert acc2 == data[i..j2] && Body(acc2) == [data[j1 - 1], data[j1]];
      }
    }
  }

  /** The number reader on text without NUL: the prelude, then the main loop. */
  lemma ReadNumberUnfold(data: string, i: nat, prev: Token)
    requires NumberStart(data, i) && data[i] != '\0' && (i + 1 < |data| ==> data[i + 1] != '\0')
    ensures var p := Prelude(data, i);
      var r := NumberLoop(data, p.2, StartFlags(data, i, p.0), p.1);
      ReadNumber(data, i, prev) == Hit(NumberToken(prev, r.1, r.2, i, r.0), r.0)
  {
    if data[i] == '.' {
      ReadNumberUnfoldDot(data, i, prev);
    } else {
      ReadNumberUnfoldDigit(data, i, prev);
    }
  }

  lemma ReadNumberUnfoldDot(data: string, i: nat, prev: Token)
    requires NumberStart(data, i) && data[i] == '.'
    ensures var p := Prelude(data, i);
      var r := NumberLoop(data, p.2, StartFlags(data, i, p.0), p.1);
      ReadNumber(data, i, prev) == Hit(NumberToken(prev, r.1, r.2, i, r.0), r.0)
  {
    assert data[i..i + 2] == "." + [data[i + 1]];
  }

  lemma ReadNumberUnfoldDigit(data: string, i: nat, prev: Token)
    requires NumberStart(data, i) && data[i] != '.'
    ensures var p := Prelude(data, i);
      var r := NumberLoop(data, p.2, StartFlags(data, i, p.0), p.1);
      ReadNumber(data, i, prev) == Hit(NumberToken(prev, r.1, r.2, i, r.0), r.0)
  {
    assert data[i..i + 1] == "" + [data[i]];
  }

  /**
   * A number token's text is what the reader passed over, and its kind
   * follows from that text: 0x or 0X selects hexadecimal, a leading 0
   * without a later 8 or 9 octal, a dot or an exponent mark Double, and a
   * failed conversion Invalid.
   */
  lemma NumberKindsFromText(data: string, i: nat, prev: Token)
    requires i < |data| && '\0' !in data
    ensures var r := ReadNumber(data, i, prev);
      r.Hit? ==> (r.tok.startsAt == i && r.tok.endsAt == r.next &&
        r.tok.value == data[i..r.next] && r.tok.kind == NumberKind(r.tok.value))
  {
    NotNul(data, i);
    if i + 1 < |data| { NotNul(data, i + 1); }
    if NumberStart(data, i) {
      NumberHitText(data, i, prev);
    } else {
      NumberMissStart(data, i, prev);
    }
  }

  lemma NumberMissStart(data: string, i: nat, prev: Token)
    requires i < |data| && data[i] != '\0' && (i + 1 < |data| ==> data[i + 1] != '\0') && !NumberStart(data, i)
    ensures ReadNumber(data, i, prev).Miss?
  {
  }

  lemma NumberHitText(data: string, i: nat, prev: Token)
    requires NumberStart(data, i) && '\0' !in data
    ensures var r := ReadNumber(data, i, prev);
      r.Hit? && r.tok.startsAt == i && r.tok.endsAt == r.next &&
      r.tok.value == data[i..r.next] && r.tok.kind == NumberKind(r.tok.value)
  {
    NotNul(data, i);
    if i + 1 < |data| { NotNul(data, i + 1); }
    var p := Prelude(data, i);
    var f := StartFlags(data, i, p.0);
    ReadNumberUnfold(data, i, prev);
    PreludeAgrees(data, i);
    NumberLoopAgrees(data, p.2, f, p.1);
    var r := NumberLoop(data, p.2, f, p.1);
    SliceJoin(data, i, p.2, r.0);
    NumberTokenKind(prev, r.1, r.2, i, r.0);
  }

  // ---------------------------------------------------------------- readToken and readAllTokens

  /** A non-null character that no reader takes becomes a one-character Invalid token. */
  lemma ReadTokenSpan(data: string, i: nat, prev: Token)
    requires i < |data| && '\0' !in data
    ensures var (t, e) := LexerSpec.ReadToken(data, i, prev).value;
      t.startsAt == i && t.endsAt == e
  {
    NotNul(data, i);
    var r1 := ReadWhitespace(data, i, prev);
    if r1.Miss? {
      var r2 := ReadIdentifier(data, i, prev);
      if r2.Miss? {
        var r3 := ReadNumber(data, i, prev);
        if r3.Miss? && r3.next != i {
          assert data[i] == '.' && i + 1 == |data|;
          assert ReadStringOrComment(data, |data|, prev) == Miss(|data|);
          assert LookAhead(data, |data|) == "";
        }
      }
    }
  }

  /**
   * The tokens of a text without NUL characters cover it without gaps: the
   * first starts where reading starts, each ends where the next starts, and
   * the last ends at the end of the text.
   */
  lemma {:induction false} LexAbuts(data: string, i: nat, prev: Token)
    requires i <= |data| && '\0' !in data
    ensures var ts := Lex(data, i, prev);
      (|ts| == 0 <==> i == |data|) &&
      (|ts| > 0 ==> ts[0].startsAt == i && ts[|ts| - 1].endsAt == |data|) &&
      (forall k | 0 <= k < |ts| :: ts[k].startsAt < ts[k].endsAt) &&
      (forall k | 0 <= k < |ts| - 1 :: ts[k].endsAt == ts[k + 1].startsAt)
    decreases |data| - i
  {
    if i < |data| {
      ReadTokenSpan(data, i, prev);
      var (t, e) := LexerSpec.ReadToken(data, i, prev).value;
      LexAbuts(data, e, t);
      var rest := Lex(data, e, t);
      assert Lex(data, i, prev) == [t] + rest;
    }
  }

  /** No reader marks a token valid again: the token variable's flag is only ever cleared. */
  lemma ReadTokenKeepsInvalid(data: string, i: nat, prev: Token)
    requires i < |data| && !prev.isValid
    ensures !LexerSpec.ReadToken(data, i, prev).value.0.isValid
  {
    var rw := ReadWhitespace(data, i, prev);
    var ri := ReadIdentifier(data, rw.next, prev);
    assert rw.Hit? ==> !rw.tok.isValid;
    if rw.Miss? {
      assert ri.Hit? ==> !ri.tok.isValid;
      if ri.Miss? {
        var rn := ReadNumber(data, ri.next, prev);
        assert rn.Hit? ==> !rn.tok.isValid;
        if rn.Miss? {
          var rs := ReadStringOrComment(data, rn.next, prev);
          assert rs.Hit? ==> !rs.tok.isValid;
        }
      }
    }
  }

  /**
   * Once a token of `readAllTokens` is marked invalid (an unclosed literal or
   * an unknown character), every token after it is marked invalid too, since
   * one token variable is reused for the whole text.
   */
  lemma {:induction false} InvalidIsSticky(data: string, i: nat, prev: Token)
    requires i <= |data|
    ensures var ts := Lex(data, i, prev);
      forall k, m | 0 <= k < m < |ts| :: !ts[k].isValid ==> !ts[m].isValid
    ensures !prev.isValid ==> forall m | 0 <= m < |Lex(data, i, prev)| :: !Lex(data, i, prev)[m].isValid
    decreases |data| - i
  {
    if i < |data| {
      var (t, e) := LexerSpec.ReadToken(data, i, prev).value;
      InvalidIsSticky(data, e, t);
      if !prev.isValid {
        ReadTokenKeepsInvalid(data, i, prev);
      }
      var ts := Lex(data, i, prev);
      assert ts == [t] + Lex(data, e, t);
      forall k, m | 0 <= k < m < |ts| && !ts[k].isValid
        ensures !ts[m].isValid
      {
        if k > 0 {
          assert ts[k] == Lex(data, e, t)[k - 1] && ts[m] == Lex(data, e, t)[m - 1];
        } else {
          assert ts[m] == Lex(data, e, t)[m - 1];
        }
      }
    }
  }
}
