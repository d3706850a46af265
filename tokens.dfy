// The token-kind table of the lexer: every kind has a number (its bit in a
// kind mask is 1 << number) and, from number 9 on, a fixed text that the
// named-token reader matches.

module Tokens {

  datatype Option<T> = None | Some(value: T)

  datatype TokenKind =
    | Identifier | Integer | Double | String | Name
    | LineComment | BlockComment | Whitespace | Invalid
    | Preprocessor | Newline
    | OpenCurly | CloseCurly | OpenParen | CloseParen | OpenSquare | CloseSquare
    | Dot | Comma
    | OpEquals | OpSomewhatEquals | OpNotEquals | OpLessThan | OpGreaterThan
    | OpLessOrEqual | OpGreaterOrEqual | Questionmark | Colon | DoubleColon
    | OpAdd | OpSubtract | OpMultiply | OpDivide | OpLeftShift | OpRightShift
    | OpNegate | OpXor | OpAnd | OpOr | OpStringConcat | OpUnaryNot
    | Semicolon | OpAssign | OpModulo | OpLogicalAnd | OpLogicalOr
    | OpSpaceship | Ellipsis
      // Kinds the parser tests for but the table does not declare: they have
      // no number and no text, and no lexer rule produces them.
    | OpIncrement | OpDecrement | OpRightShiftUnsigned

  /** A set of kinds stands for a mask of kind bits. */
  type Mask = set<TokenKind>

  /** The kinds that the table declares. */
  predicate Declared(k: TokenKind) {
    !(k.OpIncrement? || k.OpDecrement? || k.OpRightShiftUnsigned?)
  }

  /** The number of a declared kind in the table. */
  function Number(k: TokenKind): (n: nat)
    requires Declared(k)
    ensures n < 48 && KindOfNumber(n) == Some(k)
  {
    match k
    case Identifier => 0        case Integer => 1         case Double => 2
    case String => 3            case Name => 4            case LineComment => 5
    case BlockComment => 6      case Whitespace => 7      case Invalid => 8
    case Preprocessor => 9      case Newline => 10        case OpenCurly => 11
    case CloseCurly => 12       case OpenParen => 13      case CloseParen => 14
    case OpenSquare => 15       case CloseSquare => 16    case Dot => 17
    case Comma => 18            case OpEquals => 19       case OpSomewhatEquals => 20
    case OpNotEquals => 21      case OpLessThan => 22     case OpGreaterThan => 23
    case OpLessOrEqual => 24    case OpGreaterOrEqual => 25
    case Questionmark => 26     case Colon => 27          case DoubleColon => 28
    case OpAdd => 29            case OpSubtract => 30     case OpMultiply => 31
    case OpDivide => 32         case OpLeftShift => 33    case OpRightShift => 34
    case OpNegate => 35         case OpXor => 36          case OpAnd => 37
    case OpOr => 38             case OpStringConcat => 39 case OpUnaryNot => 40
    case Semicolon => 41        case OpAssign => 42       case OpModulo => 43
    case OpLogicalAnd => 44     case OpLogicalOr => 45    case OpSpaceship => 46
    case Ellipsis => 47
  }

  /** The table read backwards: the kind with number `n`. */
  function KindOfNumber(n: int): (r: Option<TokenKind>)
    ensures r.Some? <==> 0 <= n < 48
    ensures r.Some? ==> Declared(r.value)
  {
    match n
    case 0 => Some(Identifier)      case 1 => Some(Integer)         case 2 => Some(Double)
    case 3 => Some(String)          case 4 => Some(Name)            case 5 => Some(LineComment)
    case 6 => Some(BlockComment)    case 7 => Some(Whitespace)      case 8 => Some(Invalid)
    case 9 => Some(Preprocessor)    case 10 => Some(Newline)        case 11 => Some(OpenCurly)
    case 12 => Some(CloseCurly)     case 13 => Some(OpenParen)      case 14 => Some(CloseParen)
    case 15 => Some(OpenSquare)     case 16 => Some(CloseSquare)    case 17 => Some(Dot)
    case 18 => Some(Comma)          case 19 => Some(OpEquals)       case 20 => Some(OpSomewhatEquals)
    case 21 => Some(OpNotEquals)    case 22 => Some(OpLessThan)     case 23 => Some(OpGreaterThan)
    case 24 => Some(OpLessOrEqual)  case 25 => Some(OpGreaterOrEqual)
    case 26 => Some(Questionmark)   case 27 => Some(Colon)          case 28 => Some(DoubleColon)
    case 29 => Some(OpAdd)          case 30 => Some(OpSubtract)     case 31 => Some(OpMultiply)
    case 32 => Some(OpDivide)       case 33 => Some(OpLeftShift)    case 34 => Some(OpRightShift)
    case 35 => Some(OpNegate)       case 36 => Some(OpXor)          case 37 => Some(OpAnd)
    case 38 => Some(OpOr)           case 39 => Some(OpStringConcat) case 40 => Some(OpUnaryNot)
    case 41 => Some(Semicolon)      case 42 => Some(OpAssign)       case 43 => Some(OpModulo)
    case 44 => Some(OpLogicalAnd)   case 45 => Some(OpLogicalOr)    case 46 => Some(OpSpaceship)
    case 47 => Some(Ellipsis)
    case _ => None
  }

  /** The fixed text of a kind; empty for the kinds matched by dedicated readers. */
  function FixedText(k: TokenKind): (t: string)
    ensures t == "" <==> !Declared(k) || Number(k) <= 8
    ensures |t| <= 3
  {
    match k
    case Preprocessor => "#"        case Newline => "\n"
    case OpenCurly => "{"           case CloseCurly => "}"
    case OpenParen => "("           case CloseParen => ")"
    case OpenSquare => "["          case CloseSquare => "]"
    case Dot => "."                 case Comma => ","
    case OpEquals => "=="           case OpSomewhatEquals => "~=="
    case OpNotEquals => "!="        case OpLessThan => "<"
    case OpGreaterThan => ">"       case OpLessOrEqual => "<="
    case OpGreaterOrEqual => ">="   case Questionmark => "?"
    case Colon => ":"               case DoubleColon => "::"
    case OpAdd => "+"               case OpSubtract => "-"
    case OpMultiply => "*"          case OpDivide => "/"
    case OpLeftShift => "<<"        case OpRightShift => ">>"
    case OpNegate => "~"            case OpXor => "^"
    case OpAnd => "&"               case OpOr => "|"
    case OpStringConcat => ".."     case OpUnaryNot => "!"
    case Semicolon => ";"           case OpAssign => "="
    case OpModulo => "%"            case OpLogicalAnd => "&&"
    case OpLogicalOr => "||"        case OpSpaceship => "<>="
    case Ellipsis => "..."
    case _ => ""
  }

  /** A number that identifies a text of up to three Latin-1 characters. */
  function Code(t: string): int {
    16777216 * |t|
      + (if |t| > 0 then t[0] as int else 0)
      + (if |t| > 1 then 256 * t[1] as int else 0)
      + (if |t| > 2 then 65536 * t[2] as int else 0)
  }

  /** The kind whose fixed text has the given code. */
  function KindOfCode(c: int): Option<TokenKind> {
    match c
    case 16777251 => Some(Preprocessor)     case 16777226 => Some(Newline)
    case 16777339 => Some(OpenCurly)        case 16777341 => Some(CloseCurly)
    case 16777256 => Some(OpenParen)        case 16777257 => Some(CloseParen)
    case 16777307 => Some(OpenSquare)       case 16777309 => Some(CloseSquare)
    case 16777262 => Some(Dot)              case 16777260 => Some(Comma)
    case 33570109 => Some(OpEquals)         case 54345086 => Some(OpSomewhatEquals)
    case 33570081 => Some(OpNotEquals)      case 16777276 => Some(OpLessThan)
    case 16777278 => Some(OpGreaterThan)    case 33570108 => Some(OpLessOrEqual)
    case 33570110 => Some(OpGreaterOrEqual) case 16777279 => Some(Questionmark)
    case 16777274 => Some(Colon)            case 33569338 => Some(DoubleColon)
    case 16777259 => Some(OpAdd)            case 16777261 => Some(OpSubtract)
    case 16777258 => Some(OpMultiply)       case 16777263 => Some(OpDivide)
    case 33569852 => Some(OpLeftShift)      case 33570366 => Some(OpRightShift)
    case 16777342 => Some(OpNegate)         case 16777310 => Some(OpXor)
    case 16777254 => Some(OpAnd)            case 16777340 => Some(OpOr)
    case 33566254 => Some(OpStringConcat)   case 16777249 => Some(OpUnaryNot)
    case 16777275 => Some(Semicolon)        case 16777277 => Some(OpAssign)
    case 16777253 => Some(OpModulo)         case 33564198 => Some(OpLogicalAnd)
    case 33586300 => Some(OpLogicalOr)      case 54345276 => Some(OpSpaceship)
    case 53358126 => Some(Ellipsis)
    case _ => None
  }

  lemma CodeIdentifiesKind(k: TokenKind)
    requires FixedText(k) != ""
    ensures KindOfCode(Code(FixedText(k))) == Some(k)
  {
    if |FixedText(k)| == 1 {
      ShortCodeIdentifiesKind(k);
    } else {
      LongCodeIdentifiesKind(k);
    }
  }

  lemma ShortCodeIdentifiesKind(k: TokenKind)
    requires |FixedText(k)| == 1
    ensures KindOfCode(Code(FixedText(k))) == Some(k)
  {
  }

  lemma LongCodeIdentifiesKind(k: TokenKind)
    requires |FixedText(k)| > 1
    ensures KindOfCode(Code(FixedText(k))) == Some(k)
  {
  }

  /** No two kinds share a fixed text. */
  lemma DistinctTexts(a: TokenKind, b: TokenKind)
    requires FixedText(a) != ""
    ensures FixedText(a) == FixedText(b) ==> a == b
  {
    CodeIdentifiesKind(a);
    if FixedText(a) == FixedText(b) {
      CodeIdentifiesKind(b);
    }
  }

  function Pow2(n: nat): (p: nat)
    ensures p > 0
  {
    if n == 0 then 1 else 2 * Pow2(n - 1)
  }

  /** A kind's bit in a mask. */
  function Bit(k: TokenKind): nat
    requires Declared(k)
  {
    Pow2(Number(k))
  }

  lemma {:induction false} Pow2Monotone(m: nat, n: nat)
    requires m < n
    ensures Pow2(m) < Pow2(n)
  {
    if m + 1 < n { Pow2Monotone(m, n - 1); }
  }

  lemma NumberInjective(a: TokenKind, b: TokenKind)
    requires Declared(a) && Declared(b) && Number(a) == Number(b)
    ensures a == b
  {
    var n := Number(a);
    assert Some(a) == KindOfNumber(n) == Some(b);
  }

  lemma Pow2Injective(m: nat, n: nat)
    requires m != n
    ensures Pow2(m) != Pow2(n)
  {
    if m < n { Pow2Monotone(m, n); } else { Pow2Monotone(n, m); }
  }

  /** Kind numbers are distinct and below 64, so every kind has a bit of its own in a 64-bit mask. */
  lemma DistinctBits(a: TokenKind, b: TokenKind)
    requires Declared(a) && Declared(b) && a != b
    ensures Number(a) < 64 && Number(a) != Number(b)
    ensures Bit(a) != Bit(b)
  {
    if Number(a) == Number(b) {
      NumberInjective(a, b);
    }
    Pow2Injective(Number(a), Number(b));
  }

  /** The declared kinds from number `n` on, in table order, whose text has length `len`. */
  function KindsOfLength(len: nat, n: nat): (r: seq<TokenKind>)
    requires n <= 48
    ensures forall x | x in r :: Declared(x) && |FixedText(x)| == len
    decreases 48 - n
  {
    if n == 48 then []
    else
      var k := KindOfNumber(n).value;
      assert Declared(k);
      if |FixedText(k)| == len then [k] + KindsOfLength(len, n + 1)
      else KindsOfLength(len, n + 1)
  }

  lemma {:induction false} KindsOfLengthComplete(len: nat, n: nat, k: TokenKind)
    requires n <= 48 && Declared(k) && n <= Number(k) && |FixedText(k)| == len
    ensures k in KindsOfLength(len, n)
    decreases 48 - n
  {
    if n < Number(k) {
      KindsOfLengthComplete(len, n + 1, k);
      KindsOfLengthGrows(len, n, k);
    } else {
      KindsOfLengthHead(len, n);
    }
  }

  lemma KindsOfLengthGrows(len: nat, n: nat, k: TokenKind)
    requires n < 48 && k in KindsOfLength(len, n + 1)
    ensures k in KindsOfLength(len, n)
  {
  }

  lemma KindsOfLengthHead(len: nat, n: nat)
    requires n < 48 && |FixedText(KindOfNumber(n).value)| == len
    ensures KindOfNumber(n).value in KindsOfLength(len, n)
  {
  }

  /**
   * The table as the lexer keeps it after sorting by text length, longest
   * first. The sort is not stable, so the order among texts of equal length
   * is unspecified; here it is table order, and no property depends on it.
   */
  function SortedTable(): seq<TokenKind> {
    KindsOfLength(3, 0) + KindsOfLength(2, 0) + KindsOfLength(1, 0) + KindsOfLength(0, 0)
  }

  predicate LengthDescending(s: seq<TokenKind>) {
    forall i, j | 0 <= i < j < |s| :: |FixedText(s[i])| >= |FixedText(s[j])|
  }

  lemma ConcatDescending(a: seq<TokenKind>, b: seq<TokenKind>)
    requires LengthDescending(a) && LengthDescending(b)
    requires forall x, y | x in a && y in b :: |FixedText(x)| >= |FixedText(y)|
    ensures LengthDescending(a + b)
  {
    forall i, j | 0 <= i < j < |a + b| ensures |FixedText((a + b)[i])| >= |FixedText((a + b)[j])| {
      if i < |a| && j >= |a| {
        assert (a + b)[i] in a && (a + b)[j] in b;
      } else if i >= |a| {
        assert (a + b)[i] == b[i - |a|] && (a + b)[j] == b[j - |a|];
      }
    }
  }

  /** The sorted table is length-descending and holds exactly the declared kinds. */
  lemma SortedTableProperties()
    ensures LengthDescending(SortedTable())
    ensures forall k :: Declared(k) <==> k in SortedTable()
  {
    var l3, l2, l1, l0 := KindsOfLength(3, 0), KindsOfLength(2, 0), KindsOfLength(1, 0), KindsOfLength(0, 0);
    assert LengthDescending(l3) && LengthDescending(l2) && LengthDescending(l1) && LengthDescending(l0) by {
      forall i, j | 0 <= i < j < |l3| ensures |FixedText(l3[i])| >= |FixedText(l3[j])| { assert l3[i] in l3 && l3[j] in l3; }
      forall i, j | 0 <= i < j < |l2| ensures |FixedText(l2[i])| >= |FixedText(l2[j])| { assert l2[i] in l2 && l2[j] in l2; }
      forall i, j | 0 <= i < j < |l1| ensures |FixedText(l1[i])| >= |FixedText(l1[j])| { assert l1[i] in l1 && l1[j] in l1; }
      forall i, j | 0 <= i < j < |l0| ensures |FixedText(l0[i])| >= |FixedText(l0[j])| { assert l0[i] in l0 && l0[j] in l0; }
    }
    ConcatDescending(l3, l2);
    ConcatDescending(l3 + l2, l1);
    ConcatDescending(l3 + l2 + l1, l0);
    forall k | Declared(k) ensures k in SortedTable() {
      KindsOfLengthComplete(|FixedText(k)|, 0, k);
    }
  }

  /**
   * The named-token reader's scan of a table: the first kind whose text
   * starts `look`, stopping at the first kind with an empty text.
   */
  function FirstMatch(look: string, s: seq<TokenKind>): (r: Option<TokenKind>)
    ensures r.Some? ==> r.value in s && FixedText(r.value) != "" && IsPrefix(FixedText(r.value), look)
  {
    if s == [] || FixedText(s[0]) == "" then None
    else if IsPrefix(FixedText(s[0]), look) then Some(s[0])
    else FirstMatch(look, s[1..])
  }

  predicate IsPrefix(p: string, s: string) {
    |p| <= |s| && s[..|p|] == p
  }

  /** The longest table text is three characters long; it is how much the named-token reader looks ahead. */
  const LargestLen: nat := 3

  /** One step of the table walk. */
  lemma FirstMatchStep(look: string, s: seq<TokenKind>, n: nat)
    requires n < |s|
    ensures FirstMatch(look, s[n..]) ==
      if FixedText(s[n]) == "" then None
      else if IsPrefix(FixedText(s[n]), look) then Some(s[n])
      else FirstMatch(look, s[n + 1..])
  {
    assert s[n..][1..] == s[n + 1..];
  }

  function NamedMatch(look: string): Option<TokenKind> {
    FirstMatch(look, SortedTable())
  }

  lemma {:induction false} FirstMatchIsLongest(look: string, s: seq<TokenKind>)
    requires LengthDescending(s)
    ensures FirstMatch(look, s).Some? ==>
      forall x | x in s && FixedText(x) != "" && IsPrefix(FixedText(x), look) ::
        |FixedText(x)| <= |FixedText(FirstMatch(look, s).value)|
    ensures FirstMatch(look, s).None? ==>
      forall x | x in s && FixedText(x) != "" :: !IsPrefix(FixedText(x), look)
  {
    if s != [] {
      HeadIsLongest(s);
      if FixedText(s[0]) != "" && !IsPrefix(FixedText(s[0]), look) {
        TailDescending(s);
        FirstMatchIsLongest(look, s[1..]);
        PastHead(look, s);
      }
    }
  }

  /** In a length-descending table no text is longer than the first. */
  lemma HeadIsLongest(s: seq<TokenKind>)
    requires LengthDescending(s) && s != []
    ensures forall x | x in s :: |FixedText(x)| <= |FixedText(s[0])|
  {
    forall x | x in s ensures |FixedText(x)| <= |FixedText(s[0])| {
      var j :| 0 <= j < |s| && s[j] == x;
      if j > 0 { assert |FixedText(s[0])| >= |FixedText(s[j])|; }
    }
  }

  lemma TailDescending(s: seq<TokenKind>)
    requires LengthDescending(s) && s != []
    ensures LengthDescending(s[1..])
  {
    forall i, j | 0 <= i < j < |s[1..]| ensures |FixedText(s[1..][i])| >= |FixedText(s[1..][j])| {
      assert s[1..][i] == s[i + 1] && s[1..][j] == s[j + 1];
    }
  }

  /** A first kind that does not match leaves the scan to the rest of the table. */
  lemma PastHead(look: string, s: seq<TokenKind>)
    requires s != [] && FixedText(s[0]) != "" && !IsPrefix(FixedText(s[0]), look)
    ensures FirstMatch(look, s) == FirstMatch(look, s[1..])
    ensures forall x | x in s && x != s[0] :: x in s[1..]
  {
    assert s == [s[0]] + s[1..];
  }

  /**
   * Fixed tokens match longest text first: the kind found has a text that
   * starts the look-ahead, every other kind whose text starts it has a
   * strictly shorter text, and when nothing is found no text starts it.
   */
  lemma NamedMatchIsLongest(look: string)
    ensures NamedMatch(look).Some? ==>
      var k := NamedMatch(look).value;
      Declared(k) && FixedText(k) != "" && IsPrefix(FixedText(k), look) &&
      forall k' | k' != k && FixedText(k') != "" && IsPrefix(FixedText(k'), look) ::
        |FixedText(k')| < |FixedText(k)|
    ensures NamedMatch(look).None? ==>
      forall k | FixedText(k) != "" :: !IsPrefix(FixedText(k), look)
  {
    SortedTableProperties();
    FirstMatchIsLongest(look, SortedTable());
    if NamedMatch(look).Some? {
      var k := NamedMatch(look).value;
      forall k' | k' != k && FixedText(k') != "" && IsPrefix(FixedText(k'), look)
        ensures |FixedText(k')| < |FixedText(k)|
      {
        assert k' in SortedTable();
        if |FixedText(k')| == |FixedText(k)| {
          assert FixedText(k') == look[..|FixedText(k)|] == FixedText(k);
          DistinctTexts(k, k');
        }
      }
    }
  }

  /** A look-ahead that starts with `<>=` is the three-way comparison token. */
  lemma SpaceshipText(look: string)
    requires IsPrefix("<>=", look)
    ensures NamedMatch(look) == Some(OpSpaceship)
  {
    NamedMatchIsLongest(look);
    assert FixedText(OpSpaceship) == "<>=";
    var k := NamedMatch(look).value;
    assert |FixedText(k)| == 3;
    assert FixedText(k) == look[..3] == "<>=";
    DistinctTexts(k, OpSpaceship);
  }

  /** The newline kind is the only one whose text starts with a newline. */
  lemma OnlyNewlineStartsWithNewline(k: TokenKind)
    requires FixedText(k) != "" && FixedText(k)[0] == '\n'
    ensures k == Newline
  {
  }

  /** No kind is spelled `<=>`. */
  lemma NoClassicSpaceship(k: TokenKind)
    ensures FixedText(k) != "<=>"
  {
    var code := Code("<=>");
    assert code == 54410556;
    if FixedText(k) != "" {
      CodeIdentifiesKind(k);
      assert KindOfCode(code) == None;
    }
  }

  /** A lexed token. `valueInt` is None where the source converts through a double that the model does not compute. */
  datatype Token = Token(
    kind: TokenKind,
    value: string,
    valueInt: Option<int>,
    isValid: bool,
    startsAt: int,
    endsAt: int)

  /** A default-constructed token: kind Invalid, value 0, valid. */
  const DefaultToken: Token := Token(Invalid, "", Some(0), true, 0, 0)
}
