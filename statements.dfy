// The method-body pass: the statements of a method body, `if` conditions,
// `for` cycles and code blocks, and the driver that runs it over an object.
// The parent of a node under construction is given as the kinds along its
// parent chain, nearest first; it decides whether `break` and `continue`
// are allowed in a braced block.

module Statements {
  import opened Tokens
  import opened TokenStreams
  import opened StreamOps
  import opened Ast
  import opened ExpressionParser
  import opened Fields
  import opened Declarations

  /** The kinds of statement a caller of the statement reader accepts. */
  datatype Allow = AllowInitializer | AllowCycle | AllowCycleControl | AllowReturn | AllowExpression | AllowCondition

  /** Statements of a function body: everything but `break` and `continue`. */
  const FunctionFlags: set<Allow> := {AllowInitializer, AllowCycle, AllowReturn, AllowExpression, AllowCondition}

  /** Statements of a one-line body: `break` and `continue` as well. */
  const LineFlags: set<Allow> := FunctionFlags + {AllowCycleControl}

  /** The first clause of a `for` cycle: variable declarations or an expression. */
  const CycleInitializerFlags: set<Allow> := {AllowInitializer, AllowExpression}

  /** The condition of a `for` cycle. */
  const ExpressionFlags: set<Allow> := {AllowExpression}

  // ---------------------------------------------------------------- cycle control

  predicate IsCycle(k: NodeType) {
    k == ForCycle || k == WhileCycle
  }

  predicate IsObject(k: NodeType) {
    k == Class || k == Struct
  }

  /** Walking up `chain`, a cycle comes before any class or struct. */
  function LoopBeforeObject(chain: seq<NodeType>): bool {
    if chain == [] || IsObject(chain[0]) then false
    else if IsCycle(chain[0]) then true
    else LoopBeforeObject(chain[1..])
  }

  /** The walk agrees with its reading as a statement about positions in the chain. */
  lemma {:induction false} LoopBeforeObjectIff(chain: seq<NodeType>)
    ensures LoopBeforeObject(chain) <==>
      exists i | 0 <= i < |chain| :: IsCycle(chain[i]) && forall j | 0 <= j < i :: !IsObject(chain[j])
    decreases |chain|
  {
    if chain != [] && !IsObject(chain[0]) && !IsCycle(chain[0]) {
      var tail := chain[1..];
      LoopBeforeObjectIff(tail);
      if LoopBeforeObject(chain) {
        var i :| 0 <= i < |tail| && IsCycle(tail[i]) && forall j | 0 <= j < i :: !IsObject(tail[j]);
        assert IsCycle(chain[i + 1]);
        assert forall j | 0 <= j < i + 1 :: !IsObject(chain[j]) by {
          forall j | 0 <= j < i + 1 ensures !IsObject(chain[j]) {
            if j > 0 { assert chain[j] == tail[j - 1]; }
          }
        }
      }
      if exists i | 0 <= i < |chain| :: IsCycle(chain[i]) && forall j | 0 <= j < i :: !IsObject(chain[j]) {
        var i :| 0 <= i < |chain| && IsCycle(chain[i]) && forall j | 0 <= j < i :: !IsObject(chain[j]);
        assert i > 0;
        assert IsCycle(tail[i - 1]);
        assert forall j | 0 <= j < i - 1 :: !IsObject(tail[j]) by {
          forall j | 0 <= j < i - 1 ensures !IsObject(tail[j]) {
            assert tail[j] == chain[j + 1];
          }
        }
      }
    }
  }

  /** The statements a block directly under `chain` accepts. */
  function FlagsFor(chain: seq<NodeType>): set<Allow> {
    if LoopBeforeObject(chain) then LineFlags else FunctionFlags
  }

  /** The statement flags of a code block whose parent chain is `chain`. */
  method BlockFlags(chain: seq<NodeType>) returns (flags: set<Allow>)
    ensures AllowCycleControl in flags <==> LoopBeforeObject(chain)
    ensures flags - {AllowCycleControl} == FunctionFlags
    ensures flags == FlagsFor(chain)
  {
    flags := FunctionFlags;
    var i := 0;
    while i < |chain| && !IsObject(chain[i])
      invariant 0 <= i <= |chain|
      invariant LoopBeforeObject(chain) == LoopBeforeObject(chain[i..])
      decreases |chain| - i
    {
      assert chain[i..][1..] == chain[i + 1..];
      if IsCycle(chain[i]) {
        flags := flags + {AllowCycleControl};
        return;
      }
      i := i + 1;
    }
  }

  /**
   * The chain a braced body is parsed under, as written: the parent of the
   * statement, although the cycle or condition it belongs to is at hand.
   */
  function BodyChainAsWritten(parent: seq<NodeType>, recipient: seq<NodeType>): seq<NodeType> {
    parent
  }

  /** The chain a braced body is parsed under: that of the node receiving it. */
  function BodyChain(parent: seq<NodeType>, recipient: seq<NodeType>): seq<NodeType> {
    recipient
  }

  predicate OnlyBlocks(chain: seq<NodeType>) {
    forall k | 0 <= k < |chain| :: chain[k] == Code
  }

  /**
   * As written, every chain a block is parsed under is made of code blocks
   * (the method pass starts from no parent, and each block adds itself), so
   * a braced body of a `for` cycle never accepts `break` or `continue`.
   */
  lemma {:induction false} AsWrittenForBodyRejectsCycleControl(chain: seq<NodeType>)
    requires OnlyBlocks(chain)
    ensures OnlyBlocks(BodyChainAsWritten([Code] + chain, [ForCycle, Code] + chain))
    ensures AllowCycleControl !in FlagsFor(BodyChainAsWritten([Code] + chain, [ForCycle, Code] + chain))
  {
    BlocksHaveNoLoop([Code] + chain);
  }

  lemma {:induction false} BlocksHaveNoLoop(chain: seq<NodeType>)
    requires OnlyBlocks(chain)
    ensures !LoopBeforeObject(chain)
    decreases |chain|
  {
    if chain != [] {
      BlocksHaveNoLoop(chain[1..]);
    }
  }

  /** Parsed under the recipient's chain, the braced body of a `for` cycle accepts `break` and `continue`. */
  lemma ForBodyAcceptsCycleControl(chain: seq<NodeType>)
    ensures FlagsFor(BodyChain([Code] + chain, [ForCycle, Code] + chain)) == LineFlags
  {
  }

  /** The kind `break` or `continue` records, read from the token `t`. */
  function ControlFor(t: Token): ControlType {
    if t.value == "break" then CtlBreak else CtlContinue
  }

  /**
   * As written the kind is read from the token just expected, which is the
   * `;` and never says "break": a `break` statement is recorded as a
   * `continue`.
   */
  lemma BreakRecordedAsContinue(keyword: Token, semicolon: Token)
    requires keyword.value == "break"
    requires semicolon.kind == Semicolon && semicolon.value == FixedText(Semicolon)
    ensures ControlFor(semicolon) == CtlContinue
    ensures ControlFor(keyword) == CtlBreak
  {
  }

  // ---------------------------------------------------------------- statement shapes

  /** A local introduced by `let`: no type, its value the only child. */
  predicate LetLocal(n: Node) {
    && n.LocalNode? && !n.hasType && n.varType == NoType && n.flags == []
    && |n.children| == 1 && n.children[0].ExpressionNode?
  }

  /** A typed local: flagged "const" or not, with its own given dimensions or a value, not both. */
  predicate TypedLocal(n: Node) {
    && n.LocalNode? && n.hasType
    && (n.flags == [] || n.flags == ["const"])
    && |n.children| <= 1
    && (|n.children| == 1 ==> n.children[0].ExpressionNode? && n.varType.arrayDimensions == [])
    && forall k | 0 <= k < |n.varType.arrayDimensions| :: n.varType.arrayDimensions[k].Some?
  }

  /** Typed locals of one declaration: base type `t`, each with its own dimensions, "const" when `isConst`. */
  predicate LocalsOf(nodes: seq<Node>, t: CompoundType, isConst: bool) {
    forall k | 0 <= k < |nodes| ::
      && TypedLocal(nodes[k])
      && nodes[k].varType == t.(arrayDimensions := nodes[k].varType.arrayDimensions)
      && nodes[k].flags == (if isConst then ["const"] else [])
  }

  /** The declared type of a local; none for other nodes. */
  function VarType(n: Node): CompoundType {
    if n.LocalNode? then n.varType else NoType
  }

  /** Typed locals sharing the type name and arguments of the first. */
  predicate SameLocals(nodes: seq<Node>, isConst: bool) {
    forall k | 0 <= k < |nodes| ::
      && TypedLocal(nodes[k])
      && VarType(nodes[k]).typeName == VarType(nodes[0]).typeName
      && VarType(nodes[k]).arguments == VarType(nodes[0]).arguments
      && nodes[k].flags == (if isConst then ["const"] else [])
  }

  lemma LocalsOfAreSame(nodes: seq<Node>, t: CompoundType, isConst: bool)
    requires LocalsOf(nodes, t, isConst)
    ensures SameLocals(nodes, isConst)
  {
  }

  /**
   * A statement a reader accepting `flags` produces, and the statements
   * inside it: each kind only where it is allowed, cycles and conditions
   * with code blocks for bodies.
   */
  predicate Statement(n: Node, flags: set<Allow>)
    decreases n, 1
  {
    match n
    case LocalNode(_, hasType, _, _, _) =>
      AllowInitializer in flags && (if hasType then TypedLocal(n) else LetLocal(n))
    case ControlNode(ctl, cs) =>
      if ctl == CtlReturn then AllowReturn in flags && |cs| <= 1 && (|cs| == 1 ==> cs[0].ExpressionNode?)
      else AllowCycleControl in flags && cs == []
    case ExpressionNode(_) => AllowExpression in flags
    case ConditionNode(_, cs, elseBlock) =>
      && AllowCondition in flags && |cs| == 1 && Body(cs[0])
      && (elseBlock.Some? ==> Body(elseBlock.value))
    case ForNode(inits, _, _, cs) =>
      && AllowCycle in flags && |cs| == 1 && Body(cs[0])
      && forall k | 0 <= k < |inits| :: Statement(inits[k], CycleInitializerFlags)
    case _ => false
  }

  /** A code block, braced or one-line, holding statements. */
  predicate Body(n: Node)
    decreases n, 0
  {
    n.BlockNode? && forall k | 0 <= k < |n.children| :: Statement(n.children[k], LineFlags)
  }

  /** The flags only gate the top of a statement, so more flags accept more. */
  lemma Widen(n: Node, f: set<Allow>, g: set<Allow>)
    requires Statement(n, f) && f <= g
    ensures Statement(n, g)
  {
  }

  /** The body of a method: a code block of statements of a function body. */
  predicate MethodBody(n: Node) {
    && Body(n)
    && forall k | 0 <= k < |n.children| :: Statement(n.children[k], FunctionFlags)
  }

  /** The token at `i` is the word `else`, in any case. */
  predicate ElseAt(ts: seq<Token>, i: nat) {
    i < |ts| && ts[i].kind == Identifier && Lower(ts[i].value) == "else"
  }

  /**
   * What a statement whose first solid token is at `i` yields: nothing at
   * the end or on a token that is not a word; otherwise by its keyword,
   * when the flags accept it, and an expression or typed locals else.
   * `while` and `do` yield nothing.
   */
  predicate Yields(ts: seq<Token>, i: nat, flags: set<Allow>, nodes: seq<Node>) {
    if i >= |ts| || ts[i].kind != Identifier then nodes == []
    else
      var w := ts[i].value;
      if w == "let" && AllowInitializer in flags then
        forall k | 0 <= k < |nodes| :: LetLocal(nodes[k])
      else if (w == "break" || w == "continue") && AllowCycleControl in flags then
        var j := SkipFrom(ts, i + 1, true);
        nodes == (if j < |ts| && ts[j].kind == Semicolon then [ControlNode(ControlFor(ts[j]), [])] else [])
      else if w == "return" && AllowReturn in flags then
        nodes == [] || (|nodes| == 1 && nodes[0].ControlNode? && nodes[0].ctlType == CtlReturn)
      else if w == "if" && AllowCondition in flags then
        nodes == [] || (|nodes| == 1 && nodes[0].ConditionNode?)
      else if w == "for" && AllowCycle in flags then
        nodes == [] || (|nodes| == 1 && nodes[0].ForNode?)
      else if (w == "while" || w == "do") && AllowCycle in flags then
        nodes == []
      else
        nodes == [] || (|nodes| == 1 && nodes[0].ExpressionNode?) || SameLocals(nodes, w == "const")
  }

  function Listed(r: Exec<Option<Node>>): (l: Exec<seq<Node>>)
    ensures l.Returns? <==> r.Returns?
    ensures r.Returns? && r.value.Some? ==> l.value == [r.value.value]
    ensures r.Returns? && r.value.None? ==> l.value == []
  {
    match r
    case Undefined => Undefined
    case Returns(None) => Returns([])
    case Returns(Some(n)) => Returns([n])
  }

  // ---------------------------------------------------------------- simple statements

  /** Where a local of a declaration was read: its name at `head`, the `,` or `;` ending it at `sep`. */
  datatype Entry = Entry(head: nat, sep: nat)

  /** A local read from `i`: named by the identifier at `e.head`, the first solid token, and ended by the `,` or `;` at `e.sep`. */
  predicate EntryAt(ts: seq<Token>, i: nat, e: Entry, node: Node)
    requires i <= |ts|
  {
    && e.head == SkipFrom(ts, i, true) && e.head < e.sep < |ts| && (ts[e.sep].kind == Comma || ts[e.sep].kind == Semicolon)
    && ts[e.head].kind == Identifier && node.LocalNode? && node.identifier == ts[e.head].value
  }

  /**
   * The locals `nodes` of a declaration read from `i`, one per name, local
   * `k` read at `entries[k]`: the first from `i`, each later one from right
   * after the `,` that ended the one before.
   */
  predicate NamesAt(ts: seq<Token>, i: nat, entries: seq<Entry>, nodes: seq<Node>)
    requires i <= |ts|
    decreases |entries|
  {
    && |entries| == |nodes|
    && (|entries| > 0 ==>
         && EntryAt(ts, i, entries[0], nodes[0])
         && (|entries| > 1 ==> ts[entries[0].sep].kind == Comma && NamesAt(ts, entries[0].sep + 1, entries[1..], nodes[1..])))
  }

  /** One more local, read from after the last `,` (or from `i` for the first), after those of `NamesAt`. */
  lemma {:induction false} NamesGrow(ts: seq<Token>, i: nat, entries: seq<Entry>, nodes: seq<Node>, e: Entry, node: Node)
    requires i <= |ts| && NamesAt(ts, i, entries, nodes)
    requires |entries| == 0 ==> EntryAt(ts, i, e, node)
    requires |entries| > 0 ==> var last := entries[|entries| - 1].sep;
      last < |ts| && ts[last].kind == Comma && EntryAt(ts, last + 1, e, node)
    ensures NamesAt(ts, i, entries + [e], nodes + [node])
    decreases |entries|
  {
    if |entries| > 0 {
      var next := entries[0].sep + 1;
      NamesGrow(ts, next, entries[1..], nodes[1..], e, node);
      assert (entries + [e])[1..] == entries[1..] + [e];
      assert (nodes + [node])[1..] == nodes[1..] + [node];
    }
  }

  /** The expression reader, with only what the value readers use of its contract. */
  method ExpressionValue(s: TokenStream, stop: Mask) returns (r: Exec<Option<Expr>>, ghost leaves: seq<Leaf>, ghost failed: bool)
    requires s.pos <= |s.tokens|
    modifies s
    ensures r.Returns? ==> old(s.pos) <= s.pos <= |s.tokens|
    ensures r.Returns? ==> Finish(leaves, failed).Returns? && r.value == Finish(leaves, failed).value.expr
    ensures r.Returns? && r.value.Some? ==> old(s.pos) < s.pos
  {
    r, leaves, failed := ParseExpression(s, stop);
  }

  /**
   * An expression ended by one of `stop` (not read), then blanks and the
   * separator, one of `seps`. The value is what the expression reader makes
   * of the leaves it read (`leaves`, `failed`), when the separator follows.
   */
  method ReadValue(s: TokenStream, stop: Mask, seps: Mask)
    returns (r: Exec<Option<Expr>>, sep: Token, ghost leaves: seq<Leaf>, ghost failed: bool)
    requires s.pos <= |s.tokens|
    modifies s
    ensures r.Returns? ==> old(s.pos) <= s.pos <= |s.tokens|
    ensures r.Returns? && r.value.Some? ==> old(s.pos) < s.pos && s.tokens[s.pos - 1] == sep && sep.kind in seps
    ensures r.Returns? ==> Finish(leaves, failed).Returns?
    ensures r.Returns? && r.value.Some? ==> r.value == Finish(leaves, failed).value.expr
    ensures r.Returns? && Finish(leaves, failed).value.expr.None? ==> r.value.None?
  {
    sep := DefaultToken;
    var e;
    e, leaves, failed := ExpressionValue(s, stop);
    if e.Undefined? {
      return Undefined, sep, leaves, failed;
    }
    if e.value.None? {
      return Returns(None), sep, leaves, failed;
    }
    var ok;
    ok, sep := SkipAndExpect(s, DefaultToken, seps, true);
    if !ok {
      return Returns(None), sep, leaves, failed;
    }
    return e, sep, leaves, failed;
  }

  /**
   * One `name = value` of a `let`, and the `,` or `;` after it; `last` is set
   * by the `;`. The name and the separator lie where `entry` says, and the
   * value is what the expression reader makes of the leaves it read.
   */
  method ReadLet(s: TokenStream) returns (r: Exec<Option<Node>>, last: bool, ghost entry: Entry, ghost leaves: seq<Leaf>, ghost failed: bool)
    requires s.pos <= |s.tokens|
    modifies s
    ensures r.Returns? ==> old(s.pos) <= s.pos <= |s.tokens|
    ensures r.Returns? && r.value.Some? ==> old(s.pos) < s.pos && LetLocal(r.value.value)
    ensures r.Returns? && r.value.Some? ==>
      EntryAt(s.tokens, old(s.pos), entry, r.value.value) && s.pos == entry.sep + 1 && s.tokens[entry.sep].kind == (if last then Semicolon else Comma)
    ensures r.Returns? && r.value.Some? ==>
      && Finish(leaves, failed).Returns? && Finish(leaves, failed).value.expr.Some?
      && r.value.value.children == [ExpressionNode(Finish(leaves, failed).value.expr.value)]
  {
    last, entry, leaves, failed := false, Entry(0, 0), [], false;
    var ok, name, head := ReadLetName(s);
    if !ok {
      return Returns(None), false, entry, leaves, failed;
    }
    var e; ghost var sep;
    e, last, sep, leaves, failed := ReadLetValue(s);
    if e.Undefined? {
      return Undefined, false, entry, leaves, failed;
    }
    if e.value.None? {
      return Returns(None), false, entry, leaves, failed;
    }
    entry := Entry(head, sep);
    return Returns(Some(LocalNode(name.value, false, NoType, [], [ExpressionNode(e.value.value)]))), last, entry, leaves, failed;
  }

  /** ReadLet, for the `let` loop, which needs only where the local lies. */
  method ReadLetEntry(s: TokenStream) returns (r: Exec<Option<Node>>, last: bool, ghost entry: Entry)
    requires s.pos <= |s.tokens|
    modifies s
    ensures r.Returns? ==> old(s.pos) <= s.pos <= |s.tokens|
    ensures r.Returns? && r.value.Some? ==> old(s.pos) < s.pos && LetLocal(r.value.value)
    ensures r.Returns? && r.value.Some? ==>
      EntryAt(s.tokens, old(s.pos), entry, r.value.value) && s.pos == entry.sep + 1 && s.tokens[entry.sep].kind == (if last then Semicolon else Comma)
  {
    ghost var leaves, failed;
    r, last, entry, leaves, failed := ReadLet(s);
  }

  /**
   * The value of a `let` local and the `,` or `;` at `sep` after it; `last`
   * is set by the `;`. The value is what the expression reader makes of the
   * leaves it read.
   */
  method ReadLetValue(s: TokenStream) returns (r: Exec<Option<Expr>>, last: bool, ghost sep: nat, ghost leaves: seq<Leaf>, ghost failed: bool)
    requires s.pos <= |s.tokens|
    modifies s
    ensures r.Returns? ==> old(s.pos) <= s.pos <= |s.tokens|
    ensures r.Returns? && r.value.Some? ==>
      old(s.pos) <= sep && s.pos == sep + 1 && s.tokens[sep].kind == (if last then Semicolon else Comma)
    ensures r.Returns? && r.value.Some? ==> Finish(leaves, failed).Returns? && r.value == Finish(leaves, failed).value.expr
  {
    var separator;
    r, separator, leaves, failed := ReadValue(s, {Comma, Semicolon}, {Comma, Semicolon});
    sep := if s.pos > 0 then s.pos - 1 else 0;
    last := separator.kind == Semicolon;
    if r.Returns? && r.value.Some? {
      assert separator.kind == Comma || separator.kind == Semicolon;
    }
  }

  /** The name of a `let` local and the `=` after it, then the blanks before the value. */
  method ReadLetName(s: TokenStream) returns (ok: bool, name: Token, ghost head: nat)
    requires s.pos <= |s.tokens|
    modifies s
    ensures old(s.pos) <= s.pos <= |s.tokens|
    ensures ok ==> head == SkipFrom(s.tokens, old(s.pos), true) && head < s.pos && s.tokens[head] == name && name.kind == Identifier
  {
    ok, name, head := SkipAndExpectWhere(s, DefaultToken, {Identifier}, true);
    if !ok {
      return;
    }
    var assign;
    ok, assign := SkipAndExpect(s, DefaultToken, {OpAssign}, true);
    if ok {
      SkipBlanks(s, true);
    }
  }

  /**
   * `let a = e, b = f;` after the `let`: one untyped local per name, or
   * nothing on an error. Local `k` was read at `entries[k]`, as `NamesAt` says.
   */
  method ReadLets(s: TokenStream) returns (r: Exec<seq<Node>>, ghost entries: seq<Entry>)
    requires s.pos <= |s.tokens|
    modifies s
    ensures r.Returns? ==> old(s.pos) <= s.pos <= |s.tokens|
    ensures r.Returns? && r.value != [] ==> old(s.pos) < s.pos && s.tokens[s.pos - 1].kind == Semicolon
    ensures r.Returns? ==> forall k | 0 <= k < |r.value| :: LetLocal(r.value[k])
    ensures r.Returns? && r.value != [] ==> NamesAt(s.tokens, old(s.pos), entries, r.value) && s.pos == entries[|entries| - 1].sep + 1
  {
    var nodes: seq<Node> := [];
    entries := [];
    while true
      invariant old(s.pos) <= s.pos <= |s.tokens|
      invariant forall k | 0 <= k < |nodes| :: LetLocal(nodes[k])
      invariant NamesAt(s.tokens, old(s.pos), entries, nodes)
      invariant nodes == [] ==> s.pos == old(s.pos)
      invariant nodes != [] ==> old(s.pos) < s.pos == entries[|entries| - 1].sep + 1 && s.tokens[entries[|entries| - 1].sep].kind == Comma
      decreases |s.tokens| - s.pos
    {
      var n, last, entry := ReadLetEntry(s);
      if n.Undefined? {
        return Undefined, entries;
      }
      if n.value.None? {
        return Returns([]), entries;
      }
      NamesGrow(s.tokens, old(s.pos), entries, nodes, entry, n.value.value);
      nodes, entries := nodes + [n.value.value], entries + [entry];
      if last {
        return Returns(nodes), entries;
      }
    }
  }

  /** `break;` or `continue;` after the keyword `keyword`. */
  method ReadControl(s: TokenStream, keyword: Token) returns (r: Exec<seq<Node>>)
    requires s.pos <= |s.tokens|
    modifies s
    ensures r.Returns?
    ensures old(s.pos) <= s.pos <= |s.tokens|
    ensures var j := SkipFrom(s.tokens, old(s.pos), true);
      r.value == if j < |s.tokens| && s.tokens[j].kind == Semicolon then [ControlNode(ControlFor(keyword), [])] else []
  {
    var ok, semicolon := SkipAndExpectAt(s, DefaultToken, {Semicolon}, true);
    if !ok {
      return Returns([]);
    }
    return Returns([ControlNode(ControlFor(keyword), [])]);
  }

  /** `break;` or `continue;` as written: the kind is read from the `;`. */
  method ReadControlAsWritten(s: TokenStream) returns (r: Exec<seq<Node>>)
    requires s.pos <= |s.tokens|
    modifies s
    ensures r.Returns?
    ensures old(s.pos) <= s.pos <= |s.tokens|
    ensures var j := SkipFrom(s.tokens, old(s.pos), true);
      r.value == if j < |s.tokens| && s.tokens[j].kind == Semicolon then [ControlNode(ControlFor(s.tokens[j]), [])] else []
  {
    var ok, token := SkipAndExpectAt(s, DefaultToken, {Semicolon}, true);
    if !ok {
      return Returns([]);
    }
    return Returns([ControlNode(ControlFor(token), [])]);
  }

  /** `return [e];` after the keyword: a return with the value as its child when there is one. */
  method ReadReturn(s: TokenStream) returns (r: Exec<seq<Node>>)
    requires s.pos <= |s.tokens|
    modifies s
    ensures r.Returns? ==> old(s.pos) <= s.pos <= |s.tokens|
    ensures r.Returns? && r.value != [] ==>
      && old(s.pos) < s.pos && s.tokens[s.pos - 1].kind == Semicolon
      && |r.value| == 1 && r.value[0].ControlNode? && r.value[0].ctlType == CtlReturn
      && |r.value[0].children| <= 1
      && (|r.value[0].children| == 1 ==> r.value[0].children[0].ExpressionNode?)
  {
    SkipBlanks(s, true);
    var e, eLeaves, eFailed := ParseExpression(s, {Semicolon});
    if e.Undefined? {
      return Undefined;
    }
    if e.value.None? {
      SkipBlanks(s, true);
      if !(s.pos < |s.tokens| && s.tokens[s.pos].kind == Semicolon) {
        return Returns([]);
      }
    }
    var value := if e.value.Some? then [ExpressionNode(e.value.value)] else [];
    var ok, semicolon := SkipAndExpect(s, DefaultToken, {Semicolon}, true);
    if !ok {
      return Returns([]);
    }
    return Returns([ControlNode(CtlReturn, value)]);
  }

  /** The brackets of one subscript: the `[` at `open`, its `]` at `close`. */
  datatype Span = Span(open: nat, close: nat)

  /** The subscripts of a local: one span per `[…]`, and the first solid token after the last `]`. */
  datatype Subscripts = Subscripts(spans: seq<Span>, end: nat)

  /** Where the subscript opened by the `[` at `open` ends: the first `]` at bracket depth zero, or a stray closer, or the end. */
  function SubscriptClose(ts: seq<Token>, open: nat): (c: nat)
    requires open < |ts|
    ensures open < c <= |ts|
  {
    Consume(ts, open + 1, [], {CloseSquare}).0
  }

  /**
   * The subscripts from the `[` at `i`: each `[` closed by a `]` at bracket
   * depth zero, the next `[` the first solid token after that `]`; none when
   * a `[` is left without its `]`.
   */
  function SubscriptsAt(ts: seq<Token>, i: nat): (r: Option<Subscripts>)
    requires i < |ts| && ts[i].kind == OpenSquare
    ensures r.Some? ==> |r.value.spans| > 0 && r.value.spans[0].open == i && i < r.value.end <= |ts|
    ensures r.Some? ==> r.value.end == |ts| || (ts[r.value.end].kind != OpenSquare && !Skippable(ts[r.value.end].kind, true))
    decreases |ts| - i
  {
    var c := SubscriptClose(ts, i);
    if c < |ts| && ts[c].kind == CloseSquare then
      var n := SkipFrom(ts, c + 1, true);
      if n < |ts| && ts[n].kind == OpenSquare then
        match SubscriptsAt(ts, n)
        case None => None
        case Some(rest) => Some(Subscripts([Span(i, c)] + rest.spans, rest.end))
      else Some(Subscripts([Span(i, c)], n))
    else None
  }

  /** Each span runs from a `[` to a later `]` before `end`, and each starts after the one before ends. */
  predicate BracketSpans(ts: seq<Token>, spans: seq<Span>, end: nat) {
    && end <= |ts|
    && forall k | 0 <= k < |spans| ::
      && spans[k].open < spans[k].close < end
      && ts[spans[k].open].kind == OpenSquare && ts[spans[k].close].kind == CloseSquare
      && (k > 0 ==> spans[k - 1].close < spans[k].open)
  }

  /** A bracket pair before the first of some bracket spans extends them. */
  lemma BracketSpansCons(ts: seq<Token>, span: Span, spans: seq<Span>, end: nat)
    requires BracketSpans(ts, spans, end) && span.open < span.close < end
    requires ts[span.open].kind == OpenSquare && ts[span.close].kind == CloseSquare
    requires |spans| > 0 ==> span.close < spans[0].open
    ensures BracketSpans(ts, [span] + spans, end)
  {
    var all := [span] + spans;
    assert forall k | 1 <= k < |all| :: all[k] == spans[k - 1];
  }

  /** Each span of `SubscriptsAt` runs from a `[` to a later `]`, and each starts after the one before ends. */
  lemma {:induction false} SubscriptsAreBrackets(ts: seq<Token>, i: nat)
    requires i < |ts| && ts[i].kind == OpenSquare
    ensures SubscriptsAt(ts, i).Some? ==> BracketSpans(ts, SubscriptsAt(ts, i).value.spans, SubscriptsAt(ts, i).value.end)
    decreases |ts| - i
  {
    var c := SubscriptClose(ts, i);
    if c < |ts| && ts[c].kind == CloseSquare {
      SubscriptsStep(ts, i, c);
      var n := SkipFrom(ts, c + 1, true);
      if n < |ts| && ts[n].kind == OpenSquare {
        SubscriptsAreBrackets(ts, n);
        var o := SubscriptsAt(ts, n);
        if o.Some? {
          BracketSpansCons(ts, Span(i, c), o.value.spans, o.value.end);
        }
      } else {
        BracketSpansCons(ts, Span(i, c), [], n);
        assert [Span(i, c)] + [] == [Span(i, c)];
      }
    }
  }

  /** `spans` read before the subscripts `o`. */
  function After(spans: seq<Span>, o: Option<Subscripts>): Option<Subscripts> {
    match o
    case None => None
    case Some(x) => Some(Subscripts(spans + x.spans, x.end))
  }

  /**
   * The `[d]…` after a local's name, the cursor on the first `[`: each
   * subscript parsed on its own, one dimension per `[…]` of `SubscriptsAt`.
   */
  method ReadLocalDimensions(s: TokenStream) returns (r: Exec<Option<seq<Option<Expr>>>>)
    requires s.pos < |s.tokens| && s.tokens[s.pos].kind == OpenSquare
    modifies s
    ensures r.Returns? ==> old(s.pos) <= s.pos <= |s.tokens|
    ensures r.Returns? && r.value.Some? ==>
      && old(s.pos) < s.pos
      && |r.value.value| > 0
      && forall k | 0 <= k < |r.value.value| :: r.value.value[k].Some?
    ensures r.Returns? && r.value.Some? ==>
      && SubscriptsAt(s.tokens, old(s.pos)).Some?
      && |r.value.value| == |SubscriptsAt(s.tokens, old(s.pos)).value.spans|
      && s.pos == SubscriptsAt(s.tokens, old(s.pos)).value.end
    ensures SubscriptsAt(s.tokens, old(s.pos)).None? ==> r.Returns? ==> r.value.None?
  {
    var dims: seq<Option<Expr>> := [];
    ghost var spans: seq<Span> := [];
    ghost var o := SubscriptsAt(s.tokens, s.pos);
    assert o.Some? ==> [] + o.value.spans == o.value.spans;
    while true
      invariant old(s.pos) <= s.pos < |s.tokens| && s.tokens[s.pos].kind == OpenSquare
      invariant dims != [] ==> old(s.pos) < s.pos
      invariant forall k | 0 <= k < |dims| :: dims[k].Some?
      invariant |spans| == |dims|
      invariant SubscriptsAt(s.tokens, old(s.pos)) == After(spans, SubscriptsAt(s.tokens, s.pos))
      decreases |s.tokens| - s.pos
    {
      ghost var open := s.pos;
      var e; ghost var close;
      e, close := ReadSubscript(s);
      if e.Undefined? {
        return Undefined;
      }
      if e.value.None? {
        return Returns(None);
      }
      assert forall k | 0 <= k < |dims| + 1 :: (dims + [Some(e.value.value)])[k].Some?;
      dims := dims + [Some(e.value.value)];
      var more := SkipAfterSubscript(s, open, close);
      if !more {
        return Returns(Some(dims));
      }
      AfterAfter(spans, [Span(open, close)], SubscriptsAt(s.tokens, s.pos));
      spans := spans + [Span(open, close)];
    }
  }

  /** One `[d]` from the `[` under the cursor: the tokens up to its `]` at `close`, parsed on their own. */
  method ReadSubscript(s: TokenStream) returns (r: Exec<Option<Expr>>, ghost close: nat)
    requires s.pos < |s.tokens| && s.tokens[s.pos].kind == OpenSquare
    modifies s
    ensures r.Returns? ==> old(s.pos) < s.pos <= |s.tokens|
    ensures r.Returns? && r.value.Some? ==>
      && close == SubscriptClose(s.tokens, old(s.pos))
      && close < |s.tokens| && s.tokens[close].kind == CloseSquare && s.pos == close + 1
  {
    close := 0;
    s.SetPosition(s.pos + 1);
    var sub, read, closer := ReadBody(s, {CloseSquare}, DefaultToken);
    if !read || closer.kind != CloseSquare {
      return Returns(None), close;
    }
    close := s.pos - 1;
    var subStream := new TokenStream(sub);
    var e, eLeaves, eFailed := ParseExpression(subStream, {});
    if e.Undefined? {
      return Undefined, close;
    }
    if e.value.None? {
      return Returns(None), close;
    }
    r := Returns(Some(e.value.value));
  }

  /** The blanks after the `]` at `close` of the subscript opened at `open`; `more` when another `[` follows. */
  method SkipAfterSubscript(s: TokenStream, ghost open: nat, ghost close: nat) returns (more: bool)
    requires open < |s.tokens| && s.tokens[open].kind == OpenSquare
    requires close == SubscriptClose(s.tokens, open) && close < |s.tokens| && s.tokens[close].kind == CloseSquare
    requires s.pos == close + 1
    modifies s
    ensures old(s.pos) <= s.pos <= |s.tokens|
    ensures more <==> s.pos < |s.tokens| && s.tokens[s.pos].kind == OpenSquare
    ensures more ==> SubscriptsAt(s.tokens, open) == After([Span(open, close)], SubscriptsAt(s.tokens, s.pos))
    ensures !more ==> SubscriptsAt(s.tokens, open) == Some(Subscripts([Span(open, close)], s.pos))
  {
    SkipBlanks(s, true);
    SubscriptsStep(s.tokens, open, close);
    more := s.pos < |s.tokens| && s.tokens[s.pos].kind == OpenSquare;
  }

  /** The unfolding of `SubscriptsAt` at a `[` whose `]` is at `close`. */
  lemma SubscriptsStep(ts: seq<Token>, open: nat, close: nat)
    requires open < |ts| && ts[open].kind == OpenSquare
    requires close == SubscriptClose(ts, open) && close < |ts| && ts[close].kind == CloseSquare
    ensures var n := SkipFrom(ts, close + 1, true);
      && (n < |ts| && ts[n].kind == OpenSquare ==> SubscriptsAt(ts, open) == After([Span(open, close)], SubscriptsAt(ts, n)))
      && (!(n < |ts| && ts[n].kind == OpenSquare) ==> SubscriptsAt(ts, open) == Some(Subscripts([Span(open, close)], n)))
  {
  }

  lemma AfterAfter(p: seq<Span>, q: seq<Span>, o: Option<Subscripts>)
    ensures After(p, After(q, o)) == After(p + q, o)
  {
    if o.Some? {
      assert p + (q + o.value.spans) == (p + q) + o.value.spans;
    }
  }

  /**
   * What may follow a local's name: `= value` (the value as a node) or
   * dimensions, or neither. It fails when either is malformed. `at` is the
   * first solid token, which decides between the three: a value is what the
   * expression reader makes of its leaves, the dimensions are one per `[…]`
   * of `SubscriptsAt`, and with neither the cursor rests on `at`.
   */
  method ReadLocalInit(s: TokenStream) returns (r: Exec<bool>, value: seq<Node>, dims: seq<Option<Expr>>, ghost at: nat, ghost leaves: seq<Leaf>, ghost failed: bool)
    requires s.pos <= |s.tokens|
    modifies s
    ensures at == SkipFrom(s.tokens, old(s.pos), true)
    ensures r.Returns? ==> old(s.pos) <= s.pos <= |s.tokens|
    ensures r.Returns? && r.value ==> value == [] || dims == []
    ensures r.Returns? && r.value ==> |value| <= 1 && (|value| == 1 ==> value[0].ExpressionNode?)
    ensures r.Returns? && r.value ==> forall k | 0 <= k < |dims| :: dims[k].Some?
    ensures r.Returns? && r.value && at < |s.tokens| && s.tokens[at].kind == OpAssign ==>
      && Finish(leaves, failed).Returns? && Finish(leaves, failed).value.expr.Some?
      && value == [ExpressionNode(Finish(leaves, failed).value.expr.value)]
    ensures r.Returns? && r.value && at < |s.tokens| && s.tokens[at].kind == OpenSquare ==>
      && SubscriptsAt(s.tokens, at).Some?
      && |dims| == |SubscriptsAt(s.tokens, at).value.spans|
      && s.pos == SubscriptsAt(s.tokens, at).value.end
    ensures (at == |s.tokens| || (s.tokens[at].kind != OpAssign && s.tokens[at].kind != OpenSquare)) ==>
      r == Returns(true) && value == [] && dims == [] && s.pos == at
  {
    value, dims := [], [];
    leaves, failed := [], false;
    SkipBlanks(s, true);
    at := s.pos;
    if s.pos < |s.tokens| && s.tokens[s.pos].kind == OpAssign {
      s.SetPosition(s.pos + 1);
      SkipBlanks(s, true);
      var e;
      e, leaves, failed := ExpressionValue(s, {Comma, Semicolon});
      if e.Undefined? {
        return Undefined, value, dims, at, leaves, failed;
      }
      if e.value.None? {
        return Returns(false), value, dims, at, leaves, failed;
      }
      value := [ExpressionNode(e.value.value)];
    } else if s.pos < |s.tokens| && s.tokens[s.pos].kind == OpenSquare {
      var d := ReadLocalDimensions(s);
      if d.Undefined? {
        return Undefined, value, dims, at, leaves, failed;
      }
      if d.value.None? {
        return Returns(false), value, dims, at, leaves, failed;
      }
      dims := d.value.value;
    }
    return Returns(true), value, dims, at, leaves, failed;
  }

  /**
   * One local of a typed declaration, `t` being the type read: the name, an
   * optional `= value` or dimensions, and the `,` or `;` (which sets `last`).
   * The local is read at `entry`; `at` is the first solid token after the
   * name, which `ReadLocalInit` reads the value or the dimensions from.
   */
  method ReadLocal(s: TokenStream, t: CompoundType, isConst: bool)
    returns (r: Exec<Option<Node>>, last: bool, ghost entry: Entry, ghost at: nat, ghost leaves: seq<Leaf>, ghost failed: bool)
    requires s.pos <= |s.tokens| && t.arrayDimensions == []
    modifies s
    ensures r.Returns? ==> old(s.pos) <= s.pos <= |s.tokens|
    ensures r.Returns? && r.value.Some? ==> old(s.pos) < s.pos && LocalsOf([r.value.value], t, isConst)
    ensures r.Returns? && r.value.Some? ==>
      && EntryAt(s.tokens, old(s.pos), entry, r.value.value) && s.pos == entry.sep + 1
      && s.tokens[entry.sep].kind == (if last then Semicolon else Comma)
      && at == SkipFrom(s.tokens, entry.head + 1, true)
    ensures r.Returns? && r.value.Some? && at < |s.tokens| && s.tokens[at].kind == OpAssign ==>
      && Finish(leaves, failed).Returns? && Finish(leaves, failed).value.expr.Some?
      && r.value.value.children == [ExpressionNode(Finish(leaves, failed).value.expr.value)]
    ensures r.Returns? && r.value.Some? && at < |s.tokens| && s.tokens[at].kind == OpenSquare ==>
      && SubscriptsAt(s.tokens, at).Some? && entry.sep == SubscriptsAt(s.tokens, at).value.end
      && |r.value.value.varType.arrayDimensions| == |SubscriptsAt(s.tokens, at).value.spans|
    ensures r.Returns? && r.value.Some? && (at == |s.tokens| || (s.tokens[at].kind != OpAssign && s.tokens[at].kind != OpenSquare)) ==>
      r.value.value.children == [] && r.value.value.varType.arrayDimensions == [] && entry.sep == at
  {
    last, entry, at, leaves, failed := false, Entry(0, 0), 0, [], false;
    var ok, name, head := SkipAndExpectWhere(s, DefaultToken, {Identifier}, true);
    if !ok {
      return Returns(None), false, entry, at, leaves, failed;
    }
    var init, value, dims;
    init, value, dims, at, leaves, failed := ReadLocalInit(s);
    if init.Undefined? {
      return Undefined, false, entry, at, leaves, failed;
    }
    if !init.value {
      return Returns(None), false, entry, at, leaves, failed;
    }
    ghost var sep;
    ok, last, sep := ReadLocalEnd(s);
    if !ok {
      return Returns(None), false, entry, at, leaves, failed;
    }
    entry := Entry(head, sep);
    var local := LocalNode(name.value, true, t.(arrayDimensions := t.arrayDimensions + dims), if isConst then ["const"] else [], value);
    return Returns(Some(local)), last, entry, at, leaves, failed;
  }

  /** The `,` or `;` at `sep` that ends a typed local, the first solid token; `last` is set by the `;`. */
  method ReadLocalEnd(s: TokenStream) returns (ok: bool, last: bool, ghost sep: nat)
    requires s.pos <= |s.tokens|
    modifies s
    ensures old(s.pos) <= s.pos <= |s.tokens|
    ensures sep == SkipFrom(s.tokens, old(s.pos), true)
    ensures sep == old(s.pos) || old(s.pos) == |s.tokens| || Skippable(s.tokens[old(s.pos)].kind, true)
    ensures ok ==> sep < |s.tokens| && s.pos == sep + 1 && s.tokens[sep].kind == (if last then Semicolon else Comma)
  {
    var token;
    ok, token, sep := SkipAndExpectWhere(s, DefaultToken, {Comma, Semicolon}, true);
    last := token.kind == Semicolon;
    if ok {
      assert token.kind == Comma || token.kind == Semicolon;
    }
  }

  /**
   * `a [= e | [d]…], b …;` after the type `t`: one typed local per name, or
   * nothing on an error. Local `k` was read at `entries[k]`, as `NamesAt` says.
   */
  method ReadLocals(s: TokenStream, t: CompoundType, isConst: bool) returns (r: Exec<seq<Node>>, ghost entries: seq<Entry>)
    requires s.pos <= |s.tokens| && t.arrayDimensions == []
    modifies s
    ensures r.Returns? ==> old(s.pos) <= s.pos <= |s.tokens|
    ensures r.Returns? && r.value != [] ==> old(s.pos) < s.pos && s.tokens[s.pos - 1].kind == Semicolon
    ensures r.Returns? ==> LocalsOf(r.value, t, isConst)
    ensures r.Returns? && r.value != [] ==> NamesAt(s.tokens, old(s.pos), entries, r.value) && s.pos == entries[|entries| - 1].sep + 1
  {
    var nodes: seq<Node> := [];
    entries := [];
    while true
      invariant old(s.pos) <= s.pos <= |s.tokens|
      invariant LocalsOf(nodes, t, isConst)
      invariant NamesAt(s.tokens, old(s.pos), entries, nodes)
      invariant nodes == [] ==> s.pos == old(s.pos)
      invariant nodes != [] ==> old(s.pos) < s.pos == entries[|entries| - 1].sep + 1 && s.tokens[s.pos - 1].kind == Comma
      decreases |s.tokens| - s.pos
    {
      var n, last;
      n, last, entries := ReadNextLocal(s, t, isConst, old(s.pos), entries, nodes);
      if n.Undefined? {
        return Undefined, entries;
      }
      if n.value.None? {
        return Returns([]), entries;
      }
      LocalsGrow(nodes, n.value.value, t, isConst);
      nodes := nodes + [n.value.value];
      if last {
        return Returns(nodes), entries;
      }
    }
  }

  /** One more local of the declared type extends the locals of a declaration. */
  lemma LocalsGrow(nodes: seq<Node>, node: Node, t: CompoundType, isConst: bool)
    requires LocalsOf(nodes, t, isConst) && LocalsOf([node], t, isConst)
    ensures LocalsOf(nodes + [node], t, isConst)
  {
    assert forall k | 0 <= k < |nodes| :: (nodes + [node])[k] == nodes[k];
  }

  /** `ReadLocal`, with only what `ReadNextLocal` uses of its contract: the local and where it was read. */
  method ReadLocalEntry(s: TokenStream, t: CompoundType, isConst: bool) returns (r: Exec<Option<Node>>, last: bool, ghost entry: Entry)
    requires s.pos <= |s.tokens| && t.arrayDimensions == []
    modifies s
    ensures r.Returns? ==> old(s.pos) <= s.pos <= |s.tokens|
    ensures r.Returns? && r.value.Some? ==> old(s.pos) < s.pos && LocalsOf([r.value.value], t, isConst)
    ensures r.Returns? && r.value.Some? ==> EntryAt(s.tokens, old(s.pos), entry, r.value.value) && s.pos == entry.sep + 1
    ensures r.Returns? && r.value.Some? && last ==> s.tokens[s.pos - 1].kind == Semicolon
    ensures r.Returns? && r.value.Some? && !last ==> s.tokens[s.pos - 1].kind == Comma
  {
    ghost var at, leaves, failed;
    r, last, entry, at, leaves, failed := ReadLocal(s, t, isConst);
  }

  /** The next local of `ReadLocals`, after `nodes` read at `entries` from `start`; `grown` adds its entry. */
  method ReadNextLocal(s: TokenStream, t: CompoundType, isConst: bool, ghost start: nat, ghost entries: seq<Entry>, ghost nodes: seq<Node>)
    returns (r: Exec<Option<Node>>, last: bool, ghost grown: seq<Entry>)
    requires start <= s.pos <= |s.tokens| && t.arrayDimensions == []
    requires NamesAt(s.tokens, start, entries, nodes)
    requires nodes == [] ==> s.pos == start
    requires nodes != [] ==> s.pos == entries[|entries| - 1].sep + 1 && s.tokens[s.pos - 1].kind == Comma
    modifies s
    ensures r.Returns? ==> old(s.pos) <= s.pos <= |s.tokens|
    ensures r.Returns? && r.value.Some? ==>
      && old(s.pos) < s.pos && LocalsOf([r.value.value], t, isConst)
      && NamesAt(s.tokens, start, grown, nodes + [r.value.value]) && s.pos == grown[|grown| - 1].sep + 1
    ensures r.Returns? && r.value.Some? && last ==> s.tokens[s.pos - 1].kind == Semicolon
    ensures r.Returns? && r.value.Some? && !last ==> s.tokens[s.pos - 1].kind == Comma
  {
    ghost var entry;
    r, last, entry := ReadLocalEntry(s, t, isConst);
    grown := entries;
    if r.Returns? && r.value.Some? {
      NamesGrow(s.tokens, start, entries, nodes, entry, r.value.value);
      grown := entries + [entry];
    }
  }

  /**
   * A statement that starts with the word at `i` and no keyword the flags
   * accept: an expression ended by `;`, or else a typed declaration
   * `[const] T a …;`. The type is read from the token right after `const`.
   */
  method ReadPlain(s: TokenStream, flags: set<Allow>, env: TypeEnv, i: nat) returns (r: Exec<seq<Node>>)
    requires i < |s.tokens| && s.pos == i + 1 && s.tokens[i].kind == Identifier
    modifies s
    ensures r.Returns? ==> i <= s.pos <= |s.tokens|
    ensures r.Returns? && r.value != [] ==> i < s.pos
    ensures r.Returns? ==> forall k | 0 <= k < |r.value| :: Statement(r.value[k], flags)
    ensures r.Returns? ==>
      || r.value == []
      || (|r.value| == 1 && r.value[0].ExpressionNode?)
      || SameLocals(r.value, s.tokens[i].value == "const")
  {
    s.SetPosition(i);
    if AllowExpression in flags {
      var e, eLeaves, eFailed := ParseExpression(s, {Semicolon});
      if e.Undefined? {
        return Undefined;
      }
      if e.value.Some? {
        if s.pos < |s.tokens| {
          s.SetPosition(s.pos + 1);
          return Returns([ExpressionNode(e.value.value)]);
        }
        return Returns([]);
      }
    }
    if AllowInitializer in flags {
      var isConst := s.tokens[i].value == "const";
      if isConst {
        s.SetPosition(i + 1);
      }
      var ok, t := ParseBareType(s, env);
      if !ok {
        return Returns([]);
      }
      ghost var entries;
      r, entries := ReadLocals(s, t, isConst);
      if r.Returns? {
        LocalsOfAreSame(r.value, t, isConst);
      }
      return;
    }
    return Returns([]);
  }

  // ---------------------------------------------------------------- statements, blocks, cycles

  /**
   * One statement, the flags saying which kinds are accepted and `chain`
   * being the parent chain of its block. Every error yields no statement,
   * which ends the enclosing block.
   */
  method ParseStatement(s: TokenStream, chain: seq<NodeType>, flags: set<Allow>, env: TypeEnv) returns (r: Exec<seq<Node>>)
    requires s.pos <= |s.tokens|
    modifies s
    ensures r.Returns? ==> old(s.pos) <= s.pos <= |s.tokens|
    ensures r.Returns? && r.value != [] ==> old(s.pos) < s.pos
    ensures r.Returns? ==> forall k | 0 <= k < |r.value| :: Statement(r.value[k], flags)
    ensures r.Returns? ==> Yields(s.tokens, SkipFrom(s.tokens, old(s.pos), true), flags, r.value)
    ensures SkipFrom(s.tokens, old(s.pos), true) == |s.tokens| ==> r == Returns([]) && s.pos == |s.tokens|
    ensures var i := SkipFrom(s.tokens, old(s.pos), true);
      i < |s.tokens| && s.tokens[i].kind != Identifier ==> r == Returns([]) && s.pos == i + 1
    decreases |s.tokens|, |s.tokens| - s.pos, 1
  {
    SkipBlanks(s, true);
    var i := s.pos;
    if i == |s.tokens| {
      return Returns([]);
    }
    var t := s.tokens[i];
    s.SetPosition(i + 1);
    if t.kind != Identifier {
      return Returns([]);
    }
    var w := t.value;
    if w == "let" && AllowInitializer in flags {
      ghost var entries;
      r, entries := ReadLets(s);
    } else if (w == "break" || w == "continue") && AllowCycleControl in flags {
      r := ReadControlAsWritten(s);
    } else if w == "return" && AllowReturn in flags {
      r := ReadReturn(s);
    } else if w == "if" && AllowCondition in flags {
      var c := ParseCondition(s, chain, env);
      r := Listed(c);
    } else if w == "for" && AllowCycle in flags {
      var c := ParseForCycle(s, chain, env);
      r := Listed(c);
    } else if (w == "while" || w == "do") && AllowCycle in flags {
      r := Returns([]);
    } else {
      r := ReadPlain(s, flags, env, i);
    }
  }

  /** A code block: statements until one yields nothing. It fails only where the program is undefined. */
  method ParseCodeBlock(s: TokenStream, chain: seq<NodeType>, env: TypeEnv) returns (r: Exec<Node>)
    requires s.pos <= |s.tokens|
    modifies s
    ensures r.Returns? ==> old(s.pos) <= s.pos <= |s.tokens|
    ensures r.Returns? ==> Body(r.value)
    ensures r.Returns? ==> forall k | 0 <= k < |r.value.children| :: Statement(r.value.children[k], FlagsFor(chain))
    decreases |s.tokens|, |s.tokens| - s.pos, 2
  {
    var children: seq<Node> := [];
    while true
      invariant old(s.pos) <= s.pos <= |s.tokens|
      invariant forall k | 0 <= k < |children| :: Statement(children[k], FlagsFor(chain))
      decreases |s.tokens| - s.pos
    {
      var flags := BlockFlags(chain);
      var stmts := ParseStatement(s, [Code] + chain, flags, env);
      if stmts.Undefined? {
        return Undefined;
      }
      if stmts.value == [] {
        break;
      }
      children := children + stmts.value;
    }
    forall k | 0 <= k < |children|
      ensures Statement(children[k], LineFlags)
    {
      Widen(children[k], FlagsFor(chain), LineFlags);
    }
    return Returns(BlockNode(children));
  }

  /**
   * The body of a cycle or a condition: a braced block, parsed on its own
   * under the chain of `recipient`, or a single statement, in which
   * `break` and `continue` are always accepted.
   */
  method ParseCodeBlockOrLine(s: TokenStream, chain: seq<NodeType>, recipient: seq<NodeType>, env: TypeEnv)
    returns (r: Exec<Option<Node>>)
    requires s.pos <= |s.tokens|
    modifies s
    ensures r.Returns? ==> old(s.pos) <= s.pos <= |s.tokens|
    ensures r.Returns? && r.value.Some? ==> old(s.pos) < s.pos && Body(r.value.value)
    decreases |s.tokens|, |s.tokens| - s.pos, 2
  {
    SkipBlanks(s, true);
    if s.pos < |s.tokens| && s.tokens[s.pos].kind == OpenCurly {
      s.SetPosition(s.pos + 1);
      var body, read, closer := ReadBody(s, {CloseCurly}, DefaultToken);
      if !read || closer.kind != CloseCurly {
        return Returns(None);
      }
      var child := new TokenStream(body);
      var block := ParseCodeBlock(child, BodyChainAsWritten(chain, recipient), env);
      if block.Undefined? {
        return Undefined;
      }
      return Returns(Some(block.value));
    }
    var stmts := ParseStatement(s, chain, LineFlags, env);
    if stmts.Undefined? {
      return Undefined;
    }
    if stmts.value == [] {
      return Returns(None);
    }
    return Returns(Some(BlockNode(stmts.value)));
  }

  /**
   * `( e ) body [else body]` after the `if`. Without an `else` the cursor
   * goes back to the end of the first body.
   */
  method ParseCondition(s: TokenStream, chain: seq<NodeType>, env: TypeEnv) returns (r: Exec<Option<Node>>)
    requires s.pos <= |s.tokens|
    modifies s
    ensures r.Returns? ==> old(s.pos) <= s.pos <= |s.tokens|
    ensures r.Returns? && r.value.Some? ==>
      && r.value.value.ConditionNode?
      && |r.value.value.children| == 1 && Body(r.value.value.children[0])
      && (r.value.value.elseBlock.Some? ==> Body(r.value.value.elseBlock.value))
    ensures r.Returns? && r.value.Some? && r.value.value.elseBlock.None? ==>
      !ElseAt(s.tokens, SkipFrom(s.tokens, s.pos, true))
    decreases |s.tokens|, |s.tokens| - s.pos, 0
  {
    var ok, open := SkipAndExpect(s, DefaultToken, {OpenParen}, true);
    if !ok {
      return Returns(None);
    }
    var e, eLeaves, eFailed := ParseExpression(s, {CloseParen});
    if e.Undefined? {
      return Undefined;
    }
    if e.value.None? {
      return Returns(None);
    }
    var close;
    ok, close := SkipAndExpect(s, DefaultToken, {CloseParen}, true);
    if !ok {
      return Returns(None);
    }
    var body := ParseCodeBlockOrLine(s, chain, [Condition], env);
    if body.Undefined? {
      return Undefined;
    }
    if body.value.None? {
      return Returns(None);
    }
    var cpos := s.pos;
    SkipBlanks(s, true);
    var elseBlock: Option<Node> := None;
    if ElseAt(s.tokens, s.pos) {
      s.SetPosition(s.pos + 1);
      var b := ParseCodeBlockOrLine(s, chain, [Condition], env);
      if b.Undefined? {
        return Undefined;
      }
      if b.value.None? {
        return Returns(None);
      }
      elseBlock := Some(b.value.value);
    } else {
      s.SetPosition(cpos);
    }
    return Returns(Some(ConditionNode(e.value.value, [body.value.value], elseBlock)));
  }

  /**
   * One step of a `for` cycle and the `,` or `)` after it (`closed` is set
   * by the `)`). A step that is not an expression fails, and is undefined
   * when a `)` follows, since the missing expression is then highlighted.
   */
  method ReadStep(s: TokenStream) returns (r: Exec<Option<Expr>>, closed: bool)
    requires s.pos <= |s.tokens|
    modifies s
    ensures r.Returns? ==> old(s.pos) <= s.pos <= |s.tokens|
    ensures r.Returns? && r.value.Some? ==> old(s.pos) < s.pos
    ensures r.Returns? && r.value.Some? && closed ==> s.tokens[s.pos - 1].kind == CloseParen
  {
    SkipBlanks(s, true);
    var e, eLeaves, eFailed := ParseExpression(s, {CloseParen});
    if e.Undefined? {
      return Undefined, false;
    }
    if e.value.None? {
      if s.pos < |s.tokens| && s.tokens[s.pos].kind == CloseParen {
        return Undefined, false;
      }
      return Returns(None), false;
    }
    var ok, sep := SkipAndExpect(s, DefaultToken, {Comma, CloseParen}, true);
    if !ok {
      return Returns(None), false;
    }
    return e, sep.kind == CloseParen;
  }

  /** The steps of a `for` cycle up to its `)`. */
  method ReadSteps(s: TokenStream) returns (r: Exec<Option<seq<Expr>>>)
    requires s.pos <= |s.tokens|
    modifies s
    ensures r.Returns? ==> old(s.pos) <= s.pos <= |s.tokens|
    ensures r.Returns? && r.value.Some? ==> |r.value.value| > 0 && old(s.pos) < s.pos && s.tokens[s.pos - 1].kind == CloseParen
  {
    var steps: seq<Expr> := [];
    while true
      invariant old(s.pos) <= s.pos <= |s.tokens|
      invariant steps != [] ==> old(s.pos) < s.pos
      decreases |s.tokens| - s.pos
    {
      var e, closed := ReadStep(s);
      if e.Undefined? {
        return Undefined;
      }
      if e.value.None? {
        return Returns(None);
      }
      steps := steps + [e.value.value];
      if closed {
        return Returns(Some(steps));
      }
    }
  }

  /**
   * `( init ; condition ; steps ) body` after the `for`. A missing
   * condition is dereferenced, which is undefined.
   */
  method ParseForCycle(s: TokenStream, chain: seq<NodeType>, env: TypeEnv) returns (r: Exec<Option<Node>>)
    requires s.pos <= |s.tokens|
    modifies s
    ensures r.Returns? ==> old(s.pos) <= s.pos <= |s.tokens|
    ensures r.Returns? && r.value.Some? ==>
      && r.value.value.ForNode?
      && (forall k | 0 <= k < |r.value.value.initializers| :: Statement(r.value.value.initializers[k], CycleInitializerFlags))
      && |r.value.value.step| > 0
      && |r.value.value.children| == 1 && Body(r.value.value.children[0])
    decreases |s.tokens|, |s.tokens| - s.pos, 0
  {
    var ok, open := SkipAndExpect(s, DefaultToken, {OpenParen}, true);
    if !ok {
      return Returns(None);
    }
    var inits := ParseStatement(s, chain, CycleInitializerFlags, env);
    if inits.Undefined? {
      return Undefined;
    }
    var cond := ParseStatement(s, [ForCycle] + chain, ExpressionFlags, env);
    if cond.Undefined? || |cond.value| == 0 || !cond.value[0].ExpressionNode? {
      return Undefined;
    }
    SkipBlanks(s, true);
    var steps := ReadSteps(s);
    if steps.Undefined? {
      return Undefined;
    }
    if steps.value.None? {
      return Returns(None);
    }
    SkipBlanks(s, true);
    var body := ParseCodeBlockOrLine(s, chain, [ForCycle] + chain, env);
    if body.Undefined? {
      return Undefined;
    }
    if body.value.None? {
      return Returns(None);
    }
    return Returns(Some(ForNode(inits.value, cond.value[0].expr, steps.value.value, [body.value.value])));
  }

  // ---------------------------------------------------------------- the pass over an object

  /** What the enum pass highlights for one child: the value of a constant, if any; None when it is not an expression. */
  function Highlighted(n: Node): Option<seq<Expr>> {
    if !n.ConstantNode? || n.children == [] then Some([])
    else if n.children[0].ExpressionNode? then Some([n.children[0].expr])
    else None
  }

  /**
   * The values the enum pass highlights: the first child of each constant
   * among `children`, or None when one of them is not an expression.
   */
  function ConstantValues(children: seq<Node>): (v: Option<seq<Expr>>)
    ensures v.Some? ==> |v.value| <= |children|
  {
    if children == [] then Some([])
    else
      var first, rest := Highlighted(children[0]), ConstantValues(children[1..]);
      if first.Some? && rest.Some? then Some(first.value + rest.value) else None
  }

  lemma ConstantValuesStep(children: seq<Node>, k: nat)
    requires k < |children|
    ensures var here, rest := ConstantValues(children[k..]), ConstantValues(children[k + 1..]);
      here == if Highlighted(children[k]).Some? && rest.Some? then Some(Highlighted(children[k]).value + rest.value) else None
  {
    assert children[k..][1..] == children[k + 1..];
  }

  /** The enum pass over one enum: it walks the constants and hands back the values it highlights. */
  method ParseEnumExpressions(enm: Node) returns (r: Exec<bool>, values: seq<Expr>)
    requires enm.EnumNode?
    ensures r.Returns? <==> ConstantValues(enm.children).Some?
    ensures r.Returns? ==> r.value && values == ConstantValues(enm.children).value
  {
    values := [];
    var k := 0;
    assert enm.children[0..] == enm.children;
    while k < |enm.children|
      invariant 0 <= k <= |enm.children|
      invariant ConstantValues(enm.children).Some? <==> ConstantValues(enm.children[k..]).Some?
      invariant ConstantValues(enm.children).Some? ==>
        ConstantValues(enm.children).value == values + ConstantValues(enm.children[k..]).value
      decreases |enm.children| - k
    {
      ConstantValuesStep(enm.children, k);
      var h := Highlighted(enm.children[k]);
      if h.None? {
        return Undefined, values;
      }
      ghost var rest := ConstantValues(enm.children[k + 1..]);
      if rest.Some? {
        assert values + (h.value + rest.value) == (values + h.value) + rest.value;
      }
      values := values + h.value;
      k := k + 1;
    }
    assert enm.children[k..] == [];
    return Returns(true), values;
  }

  lemma {:induction false} NoConstantsNoValues(children: seq<Node>)
    requires forall k | 0 <= k < |children| :: !children[k].ConstantNode?
    ensures ConstantValues(children) == Some([])
    decreases |children|
  {
    if children != [] {
      NoConstantsNoValues(children[1..]);
    }
  }

  /** The enums the root pass builds hold their values as bare expressions, so the enum pass highlights nothing. */
  lemma EnumHasNoConstants(values: seq<(string, Expr)>, children: seq<Node>)
    requires ValuesAsChildren(values, children)
    ensures ConstantValues(children) == Some([])
  {
    NoConstantsNoValues(children);
  }

  /**
   * A node before and after the method pass: a method gains its parsed
   * body as a last child, an object has its members processed, and
   * everything else is left as it was.
   */
  predicate Processed(before: Node, after: Node)
    decreases before
  {
    match before
    case MethodNode(m) =>
      && after.MethodNode?
      && |after.methodDecl.children| == |m.children| + 1
      && after.methodDecl == m.(children := after.methodDecl.children)
      && after.methodDecl.children[..|m.children|] == m.children
      && MethodBody(after.methodDecl.children[|m.children|])
    case ObjectNode(d) =>
      && after.ObjectNode?
      && after.decl == d.(children := after.decl.children)
      && |after.decl.children| == |d.children|
      && forall k | 0 <= k < |d.children| :: Processed(d.children[k], after.decl.children[k])
    case _ => after == before
  }

  /** What the method loop does to one member. */
  method ParseMethodMember(n: Node, env: TypeEnv) returns (r: Exec<Node>)
    requires n.MethodNode?
    ensures r.Returns? ==> Processed(n, r.value)
  {
    var m := n.methodDecl;
    var s := new TokenStream(m.tokens);
    var block := ParseCodeBlock(s, [], env);
    if block.Undefined? {
      return Undefined;
    }
    assert (m.children + [block.value])[..|m.children|] == m.children;
    return Returns(MethodNode(m.(children := m.children + [block.value])));
  }

  /**
   * The method pass over an object: the enums, then the method bodies,
   * then the nested objects. It never reports a failure; it is undefined
   * where a statement does something undefined.
   */
  method ParseObjectMethods(decl: ObjectDecl, env: TypeEnv) returns (r: Exec<bool>, result: ObjectDecl)
    ensures r.Returns? ==> r.value
    ensures r.Returns? ==> Processed(ObjectNode(decl), ObjectNode(result))
    decreases decl
  {
    result := decl;
    for k := 0 to |decl.children| {
      if decl.children[k].EnumNode? {
        var ok, values := ParseEnumExpressions(decl.children[k]);
        if ok.Undefined? {
          return Undefined, decl;
        }
      }
    }
    var children := decl.children;
    for k := 0 to |decl.children|
      invariant |children| == |decl.children|
      invariant forall j | 0 <= j < k && decl.children[j].MethodNode? :: Processed(decl.children[j], children[j])
      invariant forall j | 0 <= j < |decl.children| && (k <= j || !decl.children[j].MethodNode?) :: children[j] == decl.children[j]
    {
      if decl.children[k].MethodNode? {
        var n := ParseMethodMember(decl.children[k], env);
        if n.Undefined? {
          return Undefined, decl;
        }
        children := children[k := n.value];
      }
    }
    var allOk := true;
    for k := 0 to |decl.children|
      invariant |children| == |decl.children|
      invariant allOk
      invariant forall j | 0 <= j < |decl.children| && decl.children[j].MethodNode? :: Processed(decl.children[j], children[j])
      invariant forall j | 0 <= j < k && decl.children[j].ObjectNode? :: Processed(decl.children[j], children[j])
      invariant forall j | 0 <= j < |decl.children| && (k <= j || !decl.children[j].ObjectNode?) && !decl.children[j].MethodNode? :: children[j] == decl.children[j]
    {
      if decl.children[k].ObjectNode? {
        assert decl.children[k] in decl.children;
        var ok, sub := ParseObjectMethods(decl.children[k].decl, env);
        if ok.Undefined? {
          return Undefined, decl;
        }
        allOk := allOk && ok.value;
        children := children[k := ObjectNode(sub)];
      }
    }
    result := decl.(children := children);
    return Returns(allOk), result;
  }
}
