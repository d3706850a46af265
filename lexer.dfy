// The character-level lexer: a stream position over the input text, and the
// readers that advance and rewind it one character at a time. Each reader is
// proved to compute what its function in LexerSpec says.

module Lexer {
  import opened Tokens
  import opened LexerSpec

  class Tokenizer {
    const data: string
    var pos: nat
    var lastPos: nat

    ghost predicate Valid()
      reads this
    {
      pos <= |data|
    }

    constructor (input: string)
      ensures data == input && pos == 0 && lastPos == 0 && Valid()
    {
      data := input;
      pos := 0;
      lastPos := 0;
    }

    /** Reads one character; at the end it yields the null character and stays put. */
    method ReadChar() returns (c: char)
      requires Valid()
      modifies this`pos
      ensures Valid()
      ensures c == CharAt(data, old(pos)) && pos == Advance(data, old(pos))
    {
      if pos < |data| {
        c := data[pos];
        pos := pos + 1;
      } else {
        c := '\0';
      }
    }

    method SetPosition(p: nat)
      requires p <= |data|
      modifies this`pos
      ensures pos == p && Valid()
    {
      pos := p;
    }

    method TryReadWhitespace(prev: Token) returns (ok: bool, tok: Token)
      requires Valid()
      modifies this
      ensures Valid() && lastPos == old(pos)
      ensures ok ==> ReadWhitespace(data, old(pos), prev) == Hit(tok, pos)
      ensures !ok ==> ReadWhitespace(data, old(pos), prev) == Miss(pos) && tok == prev
    {
      var cpos := pos;
      lastPos := pos;
      var c := ReadChar();
      var outv := "";
      tok := prev;
      if IsWhitespaceChar(c) {
        outv := outv + [c];
        assert outv == [data[cpos]];
        while true
          invariant cpos < pos <= |data| && lastPos == cpos
          invariant WhitespaceLoop(data, pos, outv) == WhitespaceLoop(data, cpos + 1, [data[cpos]])
          decreases |data| - pos
        {
          c := ReadChar();
          if IsWhitespaceChar(c) {
            outv := outv + [c];
            continue;
          }
          if c == '\0' {
            break;
          }
          SetPosition(pos - 1);
          break;
        }
        tok := Stamp(prev, Whitespace, outv, cpos, pos);
        return true, tok;
      }
      SetPosition(cpos);
      return false, tok;
    }

    method TryReadIdentifier(prev: Token) returns (ok: bool, tok: Token)
      requires Valid()
      modifies this
      ensures Valid() && lastPos == old(pos)
      ensures ok ==> ReadIdentifier(data, old(pos), prev) == Hit(tok, pos)
      ensures !ok ==> ReadIdentifier(data, old(pos), prev) == Miss(pos) && tok == prev
    {
      var cpos := pos;
      lastPos := pos;
      tok := prev;
      var c := ReadChar();
      if c == '\0' {
        return false, tok;
      }
      var outv := "";
      if IsIdentStart(c) {
        outv := outv + [c];
        assert outv == [data[cpos]];
        while true
          invariant cpos < pos <= |data| && lastPos == cpos
          invariant IdentifierLoop(data, pos, outv) == IdentifierLoop(data, cpos + 1, [data[cpos]])
          decreases |data| - pos
        {
          c := ReadChar();
          if c == '\0' {
            break;
          }
          if IsIdentChar(c) {
            outv := outv + [c];
            continue;
          }
          SetPosition(pos - 1);
          break;
        }
        tok := Stamp(prev, Identifier, outv, cpos, pos);
        return true, tok;
      }
      SetPosition(cpos);
      return false, tok;
    }

    method TryReadNumber(prev: Token) returns (ok: bool, tok: Token)
      requires Valid()
      modifies this
      ensures Valid() && lastPos == old(pos)
      ensures ok ==> ReadNumber(data, old(pos), prev) == Hit(tok, pos)
      ensures !ok ==> ReadNumber(data, old(pos), prev) == Miss(pos) && tok == prev
    {
      var cpos := pos;
      lastPos := pos;
      tok := prev;
      var c := ReadChar();
      if c == '\0' {
        return false, tok;
      }
      var isdouble, ishex := false, false;
      var dotisvalid := true;
      var outv := "";
      ghost var startsWithDot := c == '.';
      if c == '.' {
        isdouble := true;
        dotisvalid := false;
        outv := outv + [c];
        c := ReadChar();
        if c == '\0' {
          return false, tok;
        }
      }
      ghost var j1, acc0 := pos, outv;
      assert acc0 == (if startsWithDot then "." else "");
      if IsDigit(c) {
        outv := outv + [c];
        if c == '0' {
          var c2 := ReadChar();
          if c2 == 'x' || c2 == 'X' {
            ishex := true;
            outv := outv + [c2];
          } else if c2 != '\0' {
            SetPosition(pos - 1);
          }
        }
        var isoctal := c == '0' && !ishex;
        assert (if c == '0' then HexPeek(data, j1, acc0 + [c]) else (false, acc0 + [c], j1)) == (ishex, outv, pos);
        var flags := NumFlags(isdouble, isoctal, ishex, false, dotisvalid);
        flags, outv := NumberMainLoop(flags, outv);
        tok := NumberToken(prev, flags, outv, cpos, pos);
        return true, tok;
      }
      SetPosition(cpos);
      return false, tok;
    }

    /** The digit loop of the number reader, from the flags and text so far. */
    method NumberMainLoop(f0: NumFlags, v0: string) returns (f: NumFlags, outv: string)
      requires Valid()
      modifies this`pos
      ensures Valid()
      ensures NumberLoop(data, old(pos), f0, v0) == (pos, f, outv)
    {
      f, outv := f0, v0;
      ghost var p0 := pos;
      while true
        invariant p0 <= pos <= |data|
        invariant NumberLoop(data, pos, f, outv) == NumberLoop(data, p0, f0, v0)
        decreases |data| - pos
      {
        ghost var before, fb, vb := pos, f, outv;
        var c := ReadChar();
        if IsDigit(c) || (!f.isExponent && f.isHex && IsHexLetter(c)) {
          if c >= '8' {
            f := f.(isOctal := false);
          }
          outv := outv + [c];
          assert NumberLoop(data, before, fb, vb) == NumberLoop(data, pos, f, outv);
        } else if !f.isExponent && (c == 'e' || c == 'E') {
          f := f.(isDouble := true);
          outv := outv + [c];
          var c2 := ReadChar();
          if c2 == '-' {
            assert outv + [c2] == vb + [c, c2];
            outv := outv + [c2];
          } else if c2 != '\0' {
            SetPosition(pos - 1);
          }
          f := f.(isExponent := true, dotIsValid := false);
          assert NumberLoop(data, before, fb, vb) == NumberLoop(data, pos, f, outv);
        } else if f.dotIsValid && c == '.' {
          f := f.(isDouble := true, dotIsValid := false);
          outv := outv + [c];
          assert NumberLoop(data, before, fb, vb) == NumberLoop(data, pos, f, outv);
        } else {
          if c == '\0' {
            assert NumberLoop(data, before, f, outv) == (pos, f, outv);
            break;
          }
          SetPosition(pos - 1);
          assert NumberLoop(data, before, f, outv) == (pos, f, outv);
          break;
        }
      }
    }

    method TryReadStringOrComment(prev: Token) returns (ok: bool, tok: Token)
      requires Valid()
      modifies this
      ensures Valid() && lastPos == old(pos)
      ensures ok ==> ReadStringOrComment(data, old(pos), prev) == Hit(tok, pos)
      ensures !ok ==> ReadStringOrComment(data, old(pos), prev) == Miss(pos) && tok == prev
    {
      var cpos := pos;
      lastPos := pos;
      tok := prev;
      var c := ReadChar();
      var outv := "";
      if c == '/' {
        var cnext := ReadChar();
        if cnext == '/' {
          ghost var p0 := pos;
          while true
            invariant p0 <= pos <= |data| && lastPos == cpos
            invariant LineCommentLoop(data, pos, outv) == LineCommentLoop(data, p0, "")
            decreases |data| - pos
          {
            c := ReadChar();
            if c == '\0' {
              break;
            }
            if c == '\n' {
              SetPosition(pos - 1);
              break;
            }
            outv := outv + [c];
          }
          tok := Stamp(prev, LineComment, outv, cpos, pos);
          return true, tok;
        } else if cnext == '*' {
          ghost var p0 := pos;
          while true
            invariant p0 <= pos <= |data| && lastPos == cpos
            invariant BlockCommentLoop(data, pos, outv) == BlockCommentLoop(data, p0, "")
            decreases |data| - pos
          {
            c := ReadChar();
            if c == '*' || c == '\0' {
              if c == '\0' {
                break;
              }
              var cnext2 := ReadChar();
              if cnext2 == '/' || cnext2 == '\0' {
                break;
              }
              SetPosition(pos - 1);
            }
            outv := outv + [c];
          }
          tok := Stamp(prev, BlockComment, outv, cpos, pos);
          return true, tok;
        }
      } else if c == '"' || c == '\'' {
        var quote := c;
        var kind := if c == '"' then String else Name;
        ghost var p0 := pos;
        while true
          invariant p0 <= pos <= |data| && lastPos == cpos
          invariant QuotedLoop(data, pos, quote, outv) == QuotedLoop(data, p0, quote, "")
          decreases |data| - pos
        {
          c := ReadChar();
          if c == '\\' {
            outv := outv + [c];
            c := ReadChar();
            if c != '\0' {
              assert outv + [c] == outv[..|outv| - 1] + ['\\', c];
              outv := outv + [c];
            }
          } else if c == quote || c == '\0' {
            tok := Stamp(prev, kind, outv, cpos, pos);
            if c == '\0' {
              tok := tok.(isValid := false);
            }
            return true, tok;
          } else {
            outv := outv + [c];
          }
        }
      }
      SetPosition(cpos);
      return false, tok;
    }

    method TryReadNamedToken(prev: Token) returns (ok: bool, tok: Token)
      requires Valid()
      modifies this
      ensures Valid() && lastPos == old(pos)
      ensures ok ==> ReadNamed(data, old(pos), prev) == Hit(tok, pos)
      ensures !ok ==> ReadNamed(data, old(pos), prev) == Miss(pos) && tok == prev
    {
      var cpos := pos;
      lastPos := pos;
      tok := prev;
      var stok := data[pos..Min(pos + LargestLen, |data|)];
      var table := SortedTable();
      TableWalk(data, cpos, stok, table);
      var found := FindNamed(stok, table);
      if found.Some? {
        var content := FixedText(found.value);
        tok := Stamp(prev, found.value, content, cpos, cpos + |content|);
        NamedHit(data, cpos, prev, found.value);
        SetPosition(cpos + |content|);
        return true, tok;
      }
      NamedMiss(data, cpos, prev);
      SetPosition(cpos);
      return false, tok;
    }

    /** `readToken`: false only at the end of the text; otherwise exactly one token. */
    method ReadToken(prev: Token) returns (ok: bool, tok: Token)
      requires Valid()
      modifies this
      ensures Valid()
      ensures ok ==> LexerSpec.ReadToken(data, old(pos), prev) == Some((tok, pos))
      ensures !ok ==> LexerSpec.ReadToken(data, old(pos), prev) == None && pos == old(pos)
    {
      if pos == |data| {
        return false, prev;
      }
      ghost var p0 := pos;
      ok, tok := TryReadWhitespace(prev);
      if ok { return; }
      ghost var p1 := pos;
      ok, tok := TryReadIdentifier(prev);
      if ok { return; }
      ghost var p2 := pos;
      ok, tok := TryReadNumber(prev);
      if ok { return; }
      ghost var p3 := pos;
      ok, tok := TryReadStringOrComment(prev);
      if ok { return; }
      ghost var p4 := pos;
      ok, tok := TryReadNamedToken(prev);
      if ok { return; }
      ghost var p5 := pos;
      assert LexerSpec.ReadToken(data, p0, prev) == Some(InvalidChar(data, p5, prev));
      if pos < |data| {
        var v := [data[pos]];
        pos := pos + 1;
        tok := Stamp(prev, Invalid, v, pos - 1, pos).(isValid := false);
        assert InvalidChar(data, p5, prev).0 == tok;
      } else {
        tok := Stamp(prev, Invalid, "", pos - 1, pos).(isValid := false);
        assert InvalidChar(data, p5, prev).0 == tok;
      }
      return true, tok;
    }

    /** `readAllTokens`: reads tokens until the end, reusing one token variable. */
    method ReadAllTokens() returns (tokens: seq<Token>)
      requires Valid()
      modifies this
      ensures Valid() && pos == |data|
      ensures tokens == Lex(data, old(pos), DefaultToken)
    {
      tokens := [];
      var tok := DefaultToken;
      ghost var p0 := pos;
      while true
        invariant Valid()
        invariant tokens + Lex(data, pos, tok) == Lex(data, p0, DefaultToken)
        decreases |data| - pos
      {
        ghost var before := pos;
        var ok;
        ok, tok := ReadToken(tok);
        if !ok {
          break;
        }
        tokens := tokens + [tok];
      }
    }
  }

  /**
   * The walk over the token table in `readNamedToken`: the first entry whose
   * text starts the look-ahead, stopping at the first entry without text.
   */
  method FindNamed(look: string, table: seq<TokenKind>) returns (found: Option<TokenKind>)
    ensures found == FirstMatch(look, table)
  {
    var n := 0;
    while n < |table|
      invariant 0 <= n <= |table|
      invariant FirstMatch(look, table[n..]) == FirstMatch(look, table)
    {
      FirstMatchStep(look, table, n);
      var content := FixedText(table[n]);
      if |content| == 0 {
        return None;
      }
      if IsPrefix(content, look) {
        return Some(table[n]);
      }
      n := n + 1;
    }
    return None;
  }
}
