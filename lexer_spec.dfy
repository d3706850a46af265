// What each reader of the character-level lexer computes, as functions of
// the input text and the stream position. Reading a character at position i
// yields data[i] and moves to i + 1; at the end of the text it yields the
// null character and does not move. A NUL character inside the text reads as
// null too, but is consumed.

module LexerSpec {
  import opened Tokens

  function CharAt(data: string, i: nat): char {
    if i < |data| then data[i] else '\0'
  }

  function Advance(data: string, i: nat): (j: nat)
    ensures i < |data| ==> j == i + 1
    ensures i >= |data| ==> j == i
  {
    if i < |data| then i + 1 else i
  }

  /** The whitespace class: space, carriage return, tab and no-break space; not the newline. */
  predicate IsWhitespaceChar(c: char) {
    c == ' ' || c == '\r' || c == '\t' || c == '\U{00A0}'
  }

  predicate IsIdentStart(c: char) {
    ('a' <= c <= 'z') || ('A' <= c <= 'Z') || c == '_'
  }

  predicate IsIdentChar(c: char) {
    IsIdentStart(c) || IsDigit(c)
  }

  predicate IsDigit(c: char) {
    '0' <= c <= '9'
  }

  predicate IsHexLetter(c: char) {
    ('a' <= c <= 'f') || ('A' <= c <= 'F')
  }

  /** The outcome of one reader: a token and the position after it, or no token and where the position was left. */
  datatype Scan = Hit(tok: Token, next: nat) | Miss(next: nat)

  /** The fields a reader sets; the others keep the values of the token variable being reused. */
  function Stamp(prev: Token, kind: TokenKind, value: string, s: int, e: int): Token {
    prev.(kind := kind, value := value, startsAt := s, endsAt := e)
  }

  // ---------------------------------------------------------------- whitespace

  function WhitespaceLoop(data: string, i: nat, acc: string): (r: (nat, string))
    requires i <= |data|
    ensures i <= r.0 <= |data|
    decreases |data| - i
  {
    if i == |data| then (i, acc)
    else if IsWhitespaceChar(data[i]) then WhitespaceLoop(data, i + 1, acc + [data[i]])
    else if data[i] == '\0' then (i + 1, acc)
    else (i, acc)
  }

  function ReadWhitespace(data: string, i: nat, prev: Token): (r: Scan)
    requires i <= |data|
    ensures r.Miss? ==> r.next == i
    ensures r.Hit? ==> i < r.next <= |data|
  {
    if i < |data| && IsWhitespaceChar(data[i]) then
      var (e, v) := WhitespaceLoop(data, i + 1, [data[i]]);
      Hit(Stamp(prev, Whitespace, v, i, e), e)
    else Miss(i)
  }

  // ---------------------------------------------------------------- identifiers

  function IdentifierLoop(data: string, i: nat, acc: string): (r: (nat, string))
    requires i <= |data|
    ensures i <= r.0 <= |data|
    decreases |data| - i
  {
    if i == |data| then (i, acc)
    else if data[i] == '\0' then (i + 1, acc)
    else if IsIdentChar(data[i]) then IdentifierLoop(data, i + 1, acc + [data[i]])
    else (i, acc)
  }

  function ReadIdentifier(data: string, i: nat, prev: Token): (r: Scan)
    requires i <= |data|
    ensures r.Miss? ==> r.next == i || (i < |data| && data[i] == '\0' && r.next == i + 1)
    ensures r.Hit? ==> i < r.next <= |data|
  {
    if i == |data| then Miss(i)
    else if data[i] == '\0' then Miss(i + 1)
    else if IsIdentStart(data[i]) then
      var (e, v) := IdentifierLoop(data, i + 1, [data[i]]);
      Hit(Stamp(prev, Identifier, v, i, e), e)
    else Miss(i)
  }

  // ---------------------------------------------------------------- numbers

  datatype NumFlags = NumFlags(isDouble: bool, isOctal: bool, isHex: bool, isExponent: bool, dotIsValid: bool)

  /** The main loop of the number reader, from position i with the flags and text so far. */
  function NumberLoop(data: string, i: nat, f: NumFlags, acc: string): (r: (nat, NumFlags, string))
    requires i <= |data|
    ensures i <= r.0 <= |data|
    decreases |data| - i
  {
    var c := CharAt(data, i);
    var j := Advance(data, i);
    if IsDigit(c) || (!f.isExponent && f.isHex && IsHexLetter(c)) then
      NumberLoop(data, j, f.(isOctal := f.isOctal && !(c >= '8')), acc + [c])
    else if !f.isExponent && (c == 'e' || c == 'E') then
      var c2 := CharAt(data, j);
      var j2 := Advance(data, j);
      var k := if c2 == '-' || c2 == '\0' then j2 else j;
      NumberLoop(data, k, f.(isDouble := true, isExponent := true, dotIsValid := false),
        if c2 == '-' then acc + [c, c2] else acc + [c])
    else if f.dotIsValid && c == '.' then
      NumberLoop(data, j, f.(isDouble := true, dotIsValid := false), acc + [c])
    else if c == '\0' then (j, f, acc)
    else (i, f, acc)
  }

  /** The hexadecimal peek after a leading 0: whether `x`/`X` follows, the text, and the position. */
  function HexPeek(data: string, i: nat, acc: string): (r: (bool, string, nat))
    requires i <= |data|
    ensures i <= r.2 <= |data|
  {
    var c := CharAt(data, i);
    var j := Advance(data, i);
    if c == 'x' || c == 'X' then (true, acc + [c], j)
    else if c != '\0' then (false, acc, i)
    else (false, acc, j)
  }

  function ReadNumber(data: string, i: nat, prev: Token): (r: Scan)
    requires i <= |data|
    ensures r.Hit? ==> i < r.next <= |data|
    ensures r.Miss? ==> i <= r.next <= |data|
    ensures r.Miss? ==>
      (r.next == i || CharAt(data, i) == '\0' ||
       (data[i] == '.' && CharAt(data, i + 1) == '\0' && r.next == Advance(data, i + 1)))
  {
    var c := CharAt(data, i);
    var j := Advance(data, i);
    if c == '\0' then Miss(j)
    else
      var c1 := if c == '.' then CharAt(data, j) else c;
      var j1 := if c == '.' then Advance(data, j) else j;
      var acc0 := if c == '.' then "." else "";
      if c == '.' && c1 == '\0' then Miss(j1)
      else if IsDigit(c1) then
        var (hex, acc2, j2) := if c1 == '0' then HexPeek(data, j1, acc0 + [c1]) else (false, acc0 + [c1], j1);
        var f := NumFlags(c == '.', c1 == '0' && !hex, hex, false, c != '.');
        var (e, f', v) := NumberLoop(data, j2, f, acc2);
        Hit(NumberToken(prev, f', v, i, e), e)
      else Miss(i)
  }

  /** The value of a digit in base 8, 10 or 16. */
  function DigitValue(c: char): nat {
    if '0' <= c <= '9' then c as nat - '0' as nat
    else if 'a' <= c <= 'f' then c as nat - 'a' as nat + 10
    else if 'A' <= c <= 'F' then c as nat - 'A' as nat + 10
    else 0
  }

  /** The value of a digit string in a base. */
  function DigitsValue(s: string, base: nat): nat {
    if s == [] then 0 else DigitsValue(s[..|s| - 1], base) * base + DigitValue(s[|s| - 1])
  }

  const Int64Limit: nat := 0x8000_0000_0000_0000
  const Int32Limit: nat := 0x8000_0000

  /**
   * Conversion to a 64-bit integer in base 16 (the text starts with 0x or 0X)
   * or 8; it fails without digits or when the value does not fit.
   */
  function ToLongLong(v: string, base: nat): Option<int> {
    var digits := if base == 16 && |v| >= 2 then v[2..] else v;
    if digits == [] || DigitsValue(digits, base) >= Int64Limit then None
    else Some(DigitsValue(digits, base))
  }

  /**
   * Whether the text of a floating or decimal number converts as a double:
   * the scanner only builds digits, one dot, an exponent mark and a minus
   * after it, so the conversion fails exactly for hexadecimal text and for an
   * exponent without digits.
   */
  predicate DoubleTextConverts(v: string) {
    |v| > 0 && v[|v| - 1] != 'e' && v[|v| - 1] != 'E' && v[|v| - 1] != '-'
      && (forall k | 0 <= k < |v| :: v[k] != 'x' && v[k] != 'X')
  }

  predicate AllDigits(v: string) {
    forall k | 0 <= k < |v| :: IsDigit(v[k])
  }

  /** The token a finished number scan produces. */
  function NumberToken(prev: Token, f: NumFlags, v: string, s: int, e: int): Token {
    var kind := if f.isDouble then Double else Integer;
    if !f.isDouble && (f.isHex || f.isOctal) then
      var conv := ToLongLong(v, if f.isHex then 16 else 8);
      Stamp(prev, if conv.Some? then kind else Invalid, v, s, e)
        .(valueInt := Some(if conv.Some? then conv.value else 0))
    else
      var converts := if f.isDouble then DoubleTextConverts(v) else true;
      var n := DigitsValue(v, 10);
      Stamp(prev, if converts then kind else Invalid, v, s, e)
        .(valueInt := if !f.isDouble && AllDigits(v) && n < Int32Limit then Some(n) else None)
  }

  // ---------------------------------------------------------------- strings and comments

  function LineCommentLoop(data: string, i: nat, acc: string): (r: (nat, string))
    requires i <= |data|
    ensures i <= r.0 <= |data|
    decreases |data| - i
  {
    if i == |data| then (i, acc)
    else if data[i] == '\0' then (i + 1, acc)
    else if data[i] == '\n' then (i, acc)
    else LineCommentLoop(data, i + 1, acc + [data[i]])
  }

  function BlockCommentLoop(data: string, i: nat, acc: string): (r: (nat, string))
    requires i <= |data|
    ensures i <= r.0 <= |data|
    decreases |data| - i
  {
    var c := CharAt(data, i);
    var j := Advance(data, i);
    if c == '\0' then (j, acc)
    else if c == '*' then
      var c2 := CharAt(data, j);
      var j2 := Advance(data, j);
      if c2 == '/' || c2 == '\0' then (j2, acc)
      else BlockCommentLoop(data, j, acc + [c])
    else BlockCommentLoop(data, j, acc + [c])
  }

  /** A quoted literal's loop: the position after it, its text, and whether the closing quote was found. */
  function QuotedLoop(data: string, i: nat, quote: char, acc: string): (r: (nat, string, bool))
    requires i <= |data|
    ensures i <= r.0 <= |data|
    decreases |data| - i
  {
    var c := CharAt(data, i);
    var j := Advance(data, i);
    if c == '\\' then
      var c2 := CharAt(data, j);
      QuotedLoop(data, Advance(data, j), quote, if c2 != '\0' then acc + [c, c2] else acc + [c])
    else if c == quote then (j, acc, true)
    else if c == '\0' then (j, acc, false)
    else QuotedLoop(data, j, quote, acc + [c])
  }

  function ReadStringOrComment(data: string, i: nat, prev: Token): (r: Scan)
    requires i <= |data|
    ensures r.Miss? ==> r.next == i
    ensures r.Hit? ==> i < r.next <= |data|
  {
    var c := CharAt(data, i);
    var j := Advance(data, i);
    if c == '/' then
      var c2 := CharAt(data, j);
      var j2 := Advance(data, j);
      if c2 == '/' then
        var (e, v) := LineCommentLoop(data, j2, "");
        Hit(Stamp(prev, LineComment, v, i, e), e)
      else if c2 == '*' then
        var (e, v) := BlockCommentLoop(data, j2, "");
        Hit(Stamp(prev, BlockComment, v, i, e), e)
      else Miss(i)
    else if c == '"' || c == '\'' then
      var (e, v, closed) := QuotedLoop(data, j, c, "");
      Hit(Stamp(prev, if c == '"' then String else Name, v, i, e)
          .(isValid := closed && prev.isValid), e)
    else Miss(i)
  }

  // ---------------------------------------------------------------- fixed tokens

  function Min(a: int, b: int): int { if a < b then a else b }

  /** The look-ahead of the named-token reader: up to three characters. */
  function LookAhead(data: string, i: nat): string
    requires i <= |data|
  {
    data[i..Min(i + LargestLen, |data|)]
  }

  function ReadNamed(data: string, i: nat, prev: Token): (r: Scan)
    requires i <= |data|
    ensures r.Miss? ==> r.next == i
    ensures r.Hit? ==> i < r.next <= |data|
  {
    var look := LookAhead(data, i);
    match NamedMatch(look)
    case Some(k) => Hit(Stamp(prev, k, FixedText(k), i, i + |FixedText(k)|), i + |FixedText(k)|)
    case None => Miss(i)
  }

  lemma NamedHit(data: string, i: nat, prev: Token, k: TokenKind)
    requires i <= |data| && NamedMatch(LookAhead(data, i)) == Some(k)
    ensures ReadNamed(data, i, prev) == Hit(Stamp(prev, k, FixedText(k), i, i + |FixedText(k)|), i + |FixedText(k)|)
  {
  }

  lemma TableWalk(data: string, i: nat, look: string, table: seq<TokenKind>)
    requires i <= |data| && look == data[i..Min(i + LargestLen, |data|)] && table == SortedTable()
    ensures LookAhead(data, i) == look && NamedMatch(look) == FirstMatch(look, table)
  {
  }

  lemma NamedMiss(data: string, i: nat, prev: Token)
    requires i <= |data| && NamedMatch(LookAhead(data, i)) == None
    ensures ReadNamed(data, i, prev) == Miss(i)
  {
  }

  // ---------------------------------------------------------------- one token, all tokens

  /** The Invalid token made of the next single character (none at the end). */
  function InvalidChar(data: string, i: nat, prev: Token): (r: (Token, nat))
    requires i <= |data|
    ensures r.0.kind == Invalid && !r.0.isValid
    ensures r.0.endsAt == r.0.startsAt + 1 == r.1
    ensures i < |data| ==> r.0.value == [data[i]] && r.1 == i + 1
  {
    var v := if i < |data| then [data[i]] else "";
    var p := Advance(data, i);
    (Stamp(prev, Invalid, v, p - 1, p).(isValid := false), p)
  }

  /** `readToken`: the readers in order, the first that matches wins; None only at the end. */
  function ReadToken(data: string, i: nat, prev: Token): (r: Option<(Token, nat)>)
    requires i <= |data|
    ensures r.None? <==> i == |data|
    ensures r.Some? ==> i < r.value.1 <= |data|
  {
    if i == |data| then None
    else match ReadWhitespace(data, i, prev)
      case Hit(t, e) => Some((t, e))
      case Miss(i1) => match ReadIdentifier(data, i1, prev)
        case Hit(t, e) => Some((t, e))
        case Miss(i2) => match ReadNumber(data, i2, prev)
          case Hit(t, e) => Some((t, e))
          case Miss(i3) => match ReadStringOrComment(data, i3, prev)
            case Hit(t, e) => Some((t, e))
            case Miss(i4) => match ReadNamed(data, i4, prev)
              case Hit(t, e) => Some((t, e))
              case Miss(i5) =>
                Some(InvalidChar(data, i5, prev))
  }

  /** `readAllTokens` from position i, the token variable holding `prev`. */
  function Lex(data: string, i: nat, prev: Token): seq<Token>
    requires i <= |data|
    decreases |data| - i
  {
    match ReadToken(data, i, prev)
    case None => []
    case Some((t, e)) => [t] + Lex(data, e, t)
  }
}
