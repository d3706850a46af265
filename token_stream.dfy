// The cursor over a token list that every parser routine reads from.

module TokenStreams {
  import opened Tokens

  /**
   * What a read hands back when the cursor is off the list: the caller's
   * token with its kind set to Invalid and its text set to "EOS".
   */
  function EndOfStream(prev: Token): (t: Token)
    ensures t.kind == Invalid && t.value == "EOS"
    ensures t.valueInt == prev.valueInt && t.isValid == prev.isValid
    ensures t.startsAt == prev.startsAt && t.endsAt == prev.endsAt
  {
    prev.(kind := Invalid, value := "EOS")
  }

  /**
   * The position is a natural number: every position the parser sets is a
   * saved position, or one more or one less than a position just read at.
   */
  class TokenStream {
    const tokens: seq<Token>
    var pos: nat

    constructor (toks: seq<Token>)
      ensures tokens == toks && pos == 0
    {
      tokens := toks;
      pos := 0;
    }

    /** The cursor points at a token of the list. */
    predicate IsPositionValid()
      reads this
    {
      |tokens| > 0 && pos < |tokens|
    }

    /** How many tokens are left to read; the measure parsers decrease. */
    function Rest(): (n: nat)
      reads this
      ensures n > 0 <==> IsPositionValid()
      ensures IsPositionValid() ==> n == |tokens| - pos
    {
      if pos < |tokens| then |tokens| - pos else 0
    }

    method SetPosition(p: nat)
      modifies this
      ensures pos == p
    {
      pos := p;
    }

    /**
     * Hands back the token under the cursor, and steps over it only when its
     * kind is one of `oneOf`.
     */
    method ExpectToken(prev: Token, oneOf: Mask) returns (ok: bool, out: Token)
      modifies this
      ensures old(IsPositionValid()) ==> out == tokens[old(pos)]
      ensures !old(IsPositionValid()) ==> out == EndOfStream(prev)
      ensures ok <==> old(IsPositionValid()) && out.kind in oneOf
      ensures pos == if ok then old(pos) + 1 else old(pos)
    {
      out := EndOfStream(prev);
      if !IsPositionValid() {
        return false, out;
      }
      out := tokens[pos];
      if out.kind in oneOf {
        pos := pos + 1;
        return true, out;
      }
      return false, out;
    }

    /** Hands back the token under the cursor and steps over it. */
    method ReadToken(prev: Token) returns (ok: bool, out: Token)
      modifies this
      ensures ok == old(IsPositionValid())
      ensures ok ==> out == tokens[old(pos)] && pos == old(pos) + 1
      ensures !ok ==> out == EndOfStream(prev) && pos == old(pos)
    {
      out := EndOfStream(prev);
      if !IsPositionValid() {
        return false, out;
      }
      out := tokens[pos];
      pos := pos + 1;
      return true, out;
    }

    /** Hands back the token under the cursor without moving. */
    method PeekToken(prev: Token) returns (ok: bool, out: Token)
      ensures ok == IsPositionValid()
      ensures ok ==> out == tokens[pos]
      ensures !ok ==> out == EndOfStream(prev)
    {
      out := EndOfStream(prev);
      if !IsPositionValid() {
        return false, out;
      }
      out := tokens[pos];
      return true, out;
    }
  }
}
