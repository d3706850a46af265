// The tree the parser builds: expression leaves and expressions, compound
// types, and the declaration and statement nodes. Nodes are values; where
// the program links a node to its parent, the parsers pass the kinds along
// that parent chain explicitly.

module Ast {
  import opened Tokens

  /** The outcome of a step the program may not survive (a null pointer or an out-of-range list access). */
  datatype Exec<T> = Returns(value: T) | Undefined

  /** What a leaf of an expression holds. */
  datatype LeafKind =
    | InvalidLeaf
    | IdentifierLeaf
    | IntegerLeaf
    | DoubleLeaf
    | BooleanLeaf
    | StringLeaf
    | VectorLeaf
    | ExpressionLeaf
    | TokenLeaf    // a raw operator token, present only while an expression is being reduced

  /** Expression operators, as the parser and the folder use them. */
  datatype Operator =
    | Add | Sub | Mul | Div | Modulo
    | UnaryNot | UnaryMinus | UnaryNeg
    | IdentifierOp | Member | Call | Literal | Cast
    | BitOr | BitAnd | BitShr | BitShl | BitShrUs | Xor
    | LogicalAnd | LogicalOr
    | CmpLT | CmpGT | CmpLTEQ | CmpGTEQ | CmpSpaceship | CmpEq | CmpNotEq | CmpSomewhatEq
    | Assign | Ternary
    | Increment | PreIncrement | PostIncrement
    | Decrement | PreDecrement | PostDecrement
    | ArraySubscript | ArrayInitialization | VectorInitialization
    | VectorDot | VectorCross
    | InvalidOp

  /** A leaf: its kind, the token it came from, and the sub-expression of an expression leaf. */
  datatype Leaf = Leaf(kind: LeafKind, token: Token, expr: Option<Expr>)

  /**
   * An expression node. `assign` marks a compound assignment (`a += b`) and
   * the plain assignment; the operator tokens are kept for highlighting.
   */
  datatype Expr = Expr(op: Operator, assign: bool, leaves: seq<Leaf>, operatorTokens: seq<Token>)

  /** A leaf carrying a token and no sub-expression. */
  function Atom(kind: LeafKind, t: Token): (l: Leaf)
    ensures l.kind == kind && l.token == t && l.expr == None
  {
    Leaf(kind, t, None)
  }

  /** A freshly built expression leaf around `e`; its token is the default one. */
  function Nest(e: Expr): (l: Leaf)
    ensures l.kind == ExpressionLeaf && l.expr == Some(e)
  {
    Leaf(ExpressionLeaf, DefaultToken, Some(e))
  }

  /** A freshly built expression with no assignment mark. */
  function Node0(op: Operator, leaves: seq<Leaf>, opTokens: seq<Token>): (e: Expr)
    ensures e.op == op && !e.assign && e.leaves == leaves && e.operatorTokens == opTokens
  {
    Expr(op, false, leaves, opTokens)
  }

  /** A type as written: name, generic arguments, and one entry per array dimension (None for `[]`). */
  datatype CompoundType = CompoundType(typeName: string, arguments: seq<CompoundType>, arrayDimensions: seq<Option<Expr>>)

  const NoType := CompoundType("", [], [])

  /** The node types the program tests for. */
  datatype NodeType =
    | Generic | FileRoot | Include | Enum | Class | Struct | Field | Method
    | Code | Expression | ForCycle | WhileCycle | Condition | Constant

  datatype ControlType = CtlBreak | CtlContinue | CtlReturn

  /**
   * A class or a struct (a class adds the parent, extended and replaced
   * names). `tokens` is the body as read by the top-level pass; `children`
   * receives the fields, methods, constants, properties, enums and nested
   * structs.
   */
  datatype ObjectDecl = ObjectDecl(
    isClass: bool,
    identifier: string,
    flags: seq<string>,
    version: string,
    deprecated: string,
    tokens: seq<Token>,
    children: seq<Node>,
    parentName: string,
    extendName: string,
    replaceName: string)

  /** A method: signature, the body tokens, and (after the method pass) the parsed body. */
  datatype MethodDecl = MethodDecl(
    identifier: string,
    flags: seq<string>,
    returnTypes: seq<CompoundType>,
    arguments: seq<Node>,
    version: string,
    deprecated: string,
    hasEllipsis: bool,
    tokens: seq<Token>,
    children: seq<Node>)

  datatype Node =
    | IncludeNode(location: string)
    | ObjectNode(decl: ObjectDecl)
    | EnumNode(identifier: string, values: seq<(string, Expr)>, children: seq<Node>)
    | FieldNode(identifier: string, flags: seq<string>, fieldType: CompoundType, version: string, deprecated: string)
    | MethodNode(methodDecl: MethodDecl)
    | ConstantNode(identifier: string, children: seq<Node>)
    | PropertyNode(identifier: string, fields: seq<string>)
    | ExpressionNode(expr: Expr)
    | LocalNode(identifier: string, hasType: bool, varType: CompoundType, flags: seq<string>, children: seq<Node>)
    | ControlNode(ctlType: ControlType, children: seq<Node>)
    | ConditionNode(condition: Expr, children: seq<Node>, elseBlock: Option<Node>)
    | ForNode(initializers: seq<Node>, condition: Expr, step: seq<Expr>, children: seq<Node>)
    | BlockNode(children: seq<Node>)

  /** The type a node reports; local variables, properties and control statements have no type of their own. */
  function TypeOf(n: Node): (t: NodeType)
    ensures t == Class || t == Struct <==> n.ObjectNode?
    ensures t == ForCycle <==> n.ForNode?
  {
    match n
    case IncludeNode(_) => Include
    case ObjectNode(d) => if d.isClass then Class else Struct
    case EnumNode(_, _, _) => Enum
    case FieldNode(_, _, _, _, _) => Field
    case MethodNode(_) => Method
    case ConstantNode(_, _) => Constant
    case PropertyNode(_, _) => Generic
    case ExpressionNode(_) => Expression
    case LocalNode(_, _, _, _, _) => Generic
    case ControlNode(_, _) => Generic
    case ConditionNode(_, _, _) => Condition
    case ForNode(_, _, _, _) => ForCycle
    case BlockNode(_) => Code
  }

  // ---------------------------------------------------------------- text helpers

  function LowerChar(c: char): (d: char)
    ensures 'A' <= c <= 'Z' ==> d as int == c as int + 32
    ensures !('A' <= c <= 'Z') ==> d == c
  {
    if 'A' <= c <= 'Z' then (c as int + 32) as char else c
  }

  /** Lower-cases the ASCII letters of `s`. */
  function Lower(s: string): (r: string)
    ensures |r| == |s|
    ensures forall k | 0 <= k < |s| :: r[k] == LowerChar(s[k])
  {
    if s == [] then [] else [LowerChar(s[0])] + Lower(s[1..])
  }

  /** Case-insensitive comparison of ASCII text. */
  predicate EqualsIgnoreCase(a: string, b: string) {
    Lower(a) == Lower(b)
  }
}
