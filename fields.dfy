// The field pass: reads a class or struct body, kept as a token run by the
// top-level pass, into fields, method signatures, constants, properties,
// nested enums and structs, then does the same for every nested struct.

module Fields {
  import opened Tokens
  import opened TokenStreams
  import opened StreamOps
  import opened Ast
  import opened ExpressionParser
  import opened Declarations
  import Folding

  // ---------------------------------------------------------------- resolvers

  /**
   * The type resolvers the pass consults, which belong to the rest of the
   * program: `system` holds the system types by lower-case name, and `named`
   * maps a (dotted) name that resolves to a declared type, in the object
   * being read, to that type's full name. A name missing from `named` does
   * not resolve, which is not an error.
   */
  datatype TypeEnv = TypeEnv(system: Folding.SystemTypes, named: map<string, string>)

  /** The name a type is recorded under: its full name when it resolves, the text as written otherwise. */
  function Resolved(env: TypeEnv, written: string): string {
    if written in env.named then env.named[written] else written
  }

  /**
   * The constant reader, which is not part of this model: from the position
   * of a `const` keyword it reads `const name = expr;` and hands back the
   * name, the expression and the position after it, or None.
   */
  type ConstantReader = (seq<Token>, nat) -> Option<(string, Expr, nat)>

  /** A reader that succeeds only by moving forward, and stays within the list. */
  ghost predicate Advances(read: ConstantReader) {
    forall ts: seq<Token>, i: nat | i <= |ts| :: read(ts, i).Some? ==> i < read(ts, i).value.2 <= |ts|
  }

  // ---------------------------------------------------------------- compound types

  /** A dotted name as read: whether it is well formed, the name, and the position after its last component. */
  datatype DotResult = DotResult(ok: bool, name: string, end: nat)

  /**
   * The dotted name going on from `i`, `acc` being the name read so far and
   * `start` the position after its last component: blanks and newlines are
   * stepped over, a `.` followed at once by an identifier joins that
   * identifier on, a `.` followed by anything else breaks the name, and any
   * other token (or the end) ends it at `start`.
   */
  function Dotted(ts: seq<Token>, i: nat, start: nat, acc: string): (d: DotResult)
    requires start <= i <= |ts|
    ensures start <= d.end <= |ts|
    decreases |ts| - i
  {
    if i < |ts| && Skippable(ts[i].kind, true) then Dotted(ts, i + 1, start, acc)
    else if i < |ts| && ts[i].kind == Dot then
      if i + 1 < |ts| && ts[i + 1].kind == Identifier then Dotted(ts, i + 2, i + 2, acc + "." + ts[i + 1].value)
      else DotResult(false, acc, start)
    else DotResult(true, acc, start)
  }

  /** Blanks and newlines do not change where a dotted name goes. */
  lemma {:induction false} DottedSkip(ts: seq<Token>, i: nat, start: nat, acc: string)
    requires start <= i <= |ts|
    ensures Dotted(ts, i, start, acc) == Dotted(ts, SkipFrom(ts, i, true), start, acc)
    decreases |ts| - i
  {
    if i < |ts| && Skippable(ts[i].kind, true) {
      DottedSkip(ts, i + 1, start, acc);
    }
  }

  /**
   * The name a type written from the identifier at `i` is recorded under: a
   * system type is its lower-cased text; any other type is the dotted name
   * from there, resolved when it can be.
   */
  function TypeNameAt(env: TypeEnv, ts: seq<Token>, i: nat): string
    requires i < |ts|
  {
    var v := ts[i].value;
    if Lower(v) in env.system then Lower(v) else Resolved(env, Dotted(ts, i + 1, i + 1, v).name)
  }

  /** Where the name of a type written from `i` ends: a system type has no dotted part. */
  function TypeEndAt(env: TypeEnv, ts: seq<Token>, i: nat): nat
    requires i < |ts|
  {
    if Lower(ts[i].value) in env.system then i + 1 else Dotted(ts, i + 1, i + 1, ts[i].value).end
  }

  /** The first token after the blanks and newlines from `i` opens a generic argument list. */
  predicate OpensArguments(ts: seq<Token>, i: nat)
    requires i <= |ts|
  {
    var j := SkipFrom(ts, i, true);
    j < |ts| && ts[j].kind == OpLessThan
  }

  /** A type read from the text: the type, and the position after its last token. */
  datatype TypeRead = TypeRead(t: CompoundType, end: nat)

  /** One generic argument read: the type, whether the `>` after it closed the list, and the position after that `>` or `,`. */
  datatype ArgumentRead = ArgumentRead(t: CompoundType, closed: bool, end: nat)

  /** A generic argument list read: its types, and the position after its `>` (where the name ended, for no list). */
  datatype ArgumentsRead = ArgumentsRead(arguments: seq<CompoundType>, end: nat)

  /**
   * The type written from `i` (no blanks before it): an identifier, the
   * dotted rest of a non-system name, which must be well formed, then an
   * optional generic argument list. None when any part is malformed.
   */
  function TypeAt(env: TypeEnv, ts: seq<Token>, i: nat): (r: Option<TypeRead>)
    requires i <= |ts|
    ensures r.Some? ==> i < r.value.end <= |ts| && ts[i].kind == Identifier && r.value.t.arrayDimensions == []
    decreases |ts| - i, 0
  {
    if i < |ts| && ts[i].kind == Identifier && (Lower(ts[i].value) in env.system || Dotted(ts, i + 1, i + 1, ts[i].value).ok) then
      var a := OptionalArgumentsAt(env, ts, TypeEndAt(env, ts, i));
      if a.Some? then Some(TypeRead(CompoundType(TypeNameAt(env, ts, i), a.value.arguments, []), a.value.end)) else None
    else None
  }

  /** One generic argument from `i`: blanks and newlines, a type, then `>` or `,` right after it. */
  function ArgumentAt(env: TypeEnv, ts: seq<Token>, i: nat): (r: Option<ArgumentRead>)
    requires i <= |ts|
    ensures r.Some? ==> i < r.value.end <= |ts| && ts[r.value.end - 1].kind == (if r.value.closed then OpGreaterThan else Comma)
    decreases |ts| - i, 1
  {
    if i < |ts| && Skippable(ts[i].kind, true) then ArgumentAt(env, ts, i + 1) else
    var t := TypeAt(env, ts, i);
    if t.Some? && t.value.end < |ts| && ts[t.value.end].kind in {OpGreaterThan, Comma} then
      Some(ArgumentRead(t.value.t, ts[t.value.end].kind == OpGreaterThan, t.value.end + 1))
    else None
  }

  /** The generic arguments from `i` on, `acc` those read before: up to the one closed by `>`. */
  function ArgumentsFrom(env: TypeEnv, ts: seq<Token>, i: nat, acc: seq<CompoundType>): (r: Option<ArgumentsRead>)
    requires i <= |ts|
    ensures r.Some? ==> i < r.value.end <= |ts| && ts[r.value.end - 1].kind == OpGreaterThan
    ensures r.Some? ==> |r.value.arguments| > |acc|
    decreases |ts| - i, 2
  {
    var a := ArgumentAt(env, ts, i);
    if a.None? then None
    else if a.value.closed then Some(ArgumentsRead(acc + [a.value.t], a.value.end))
    else ArgumentsFrom(env, ts, a.value.end, acc + [a.value.t])
  }

  /** A generic argument list when the first solid token from `i` is `<`; otherwise no arguments, ending at `i`. */
  function OptionalArgumentsAt(env: TypeEnv, ts: seq<Token>, i: nat): (r: Option<ArgumentsRead>)
    requires i <= |ts|
    ensures r.Some? ==> i <= r.value.end <= |ts|
    ensures r.Some? && r.value.arguments == [] ==> r.value.end == i && !OpensArguments(ts, i)
    ensures r.Some? && r.value.arguments != [] ==> OpensArguments(ts, i) && i < r.value.end && ts[r.value.end - 1].kind == OpGreaterThan
    decreases |ts| - i, 3
  {
    if OpensArguments(ts, i) then ArgumentsFrom(env, ts, SkipFrom(ts, i, true) + 1, [])
    else Some(ArgumentsRead([], i))
  }

  /** A well-formed name at `i` and the argument list after it make the type at `i`. */
  lemma TypeAtNamed(env: TypeEnv, ts: seq<Token>, i: nat, a: ArgumentsRead)
    requires i < |ts| && ts[i].kind == Identifier
    requires Lower(ts[i].value) in env.system || Dotted(ts, i + 1, i + 1, ts[i].value).ok
    requires OptionalArgumentsAt(env, ts, TypeEndAt(env, ts, i)) == Some(a)
    ensures TypeAt(env, ts, i) == Some(TypeRead(CompoundType(TypeNameAt(env, ts, i), a.arguments, []), a.end))
  {
  }

  /** One generic argument read from `i` either closes the list or leaves the rest to read after it. */
  lemma ArgumentsFromNext(env: TypeEnv, ts: seq<Token>, i: nat, acc: seq<CompoundType>, a: ArgumentRead)
    requires i <= |ts| && ArgumentAt(env, ts, i) == Some(a)
    ensures a.closed ==> ArgumentsFrom(env, ts, i, acc) == Some(ArgumentsRead(acc + [a.t], a.end))
    ensures !a.closed ==> ArgumentsFrom(env, ts, i, acc) == ArgumentsFrom(env, ts, a.end, acc + [a.t])
  {
  }

  /** The optional argument list from `i` is the list after its `<` when one comes, and none otherwise. */
  lemma OptionalArgumentsCases(env: TypeEnv, ts: seq<Token>, i: nat)
    requires i <= |ts|
    ensures OpensArguments(ts, i) ==> OptionalArgumentsAt(env, ts, i) == ArgumentsFrom(env, ts, SkipFrom(ts, i, true) + 1, [])
    ensures !OpensArguments(ts, i) ==> OptionalArgumentsAt(env, ts, i) == Some(ArgumentsRead([], i))
  {
  }

  /** What reading one more component of a dotted name came to. */
  datatype Component = Joined | Ended | Broken

  /** Reads one `.name` component, or finds that the dotted name has ended (cursor left in place) or is broken. */
  method ReadComponent(s: TokenStream, name: string) returns (r: Component, joined: string)
    requires s.pos <= |s.tokens|
    modifies s
    ensures old(s.pos) <= s.pos <= |s.tokens|
    ensures r != Joined ==> joined == name
    ensures r == Ended ==> s.pos == old(s.pos) && Dotted(s.tokens, s.pos, s.pos, name) == DotResult(true, name, s.pos)
    ensures r == Broken ==> !Dotted(s.tokens, old(s.pos), old(s.pos), name).ok
    ensures r == Joined ==>
      old(s.pos) < s.pos && Dotted(s.tokens, old(s.pos), old(s.pos), name) == Dotted(s.tokens, s.pos, s.pos, joined)
  {
    var cpos := s.pos;
    SkipBlanks(s, true);
    DottedSkip(s.tokens, cpos, cpos, name);
    r, joined := ReadComponentAt(s, cpos, name);
  }

  /**
   * The part of ReadComponent after the blanks: `start` is where they began,
   * the cursor is on a solid token or at the end. A broken name leaves the
   * cursor after its `.`.
   */
  method ReadComponentAt(s: TokenStream, start: nat, name: string) returns (r: Component, joined: string)
    requires start <= s.pos <= |s.tokens|
    requires s.pos == |s.tokens| || !Skippable(s.tokens[s.pos].kind, true)
    modifies s
    ensures start <= s.pos <= |s.tokens|
    ensures r != Joined ==> joined == name
    ensures r == Ended ==> s.pos == start && Dotted(s.tokens, old(s.pos), start, name) == DotResult(true, name, start)
    ensures r == Broken ==> !Dotted(s.tokens, old(s.pos), start, name).ok
    ensures r == Joined ==>
      old(s.pos) < s.pos && Dotted(s.tokens, old(s.pos), start, name) == Dotted(s.tokens, s.pos, s.pos, joined)
  {
    joined := name;
    if !(s.pos < |s.tokens| && s.tokens[s.pos].kind == Dot) {
      s.SetPosition(start);
      return Ended, joined;
    }
    if !(s.pos + 1 < |s.tokens| && s.tokens[s.pos + 1].kind == Identifier) {
      s.SetPosition(s.pos + 1);
      return Broken, joined;
    }
    joined := name + "." + s.tokens[s.pos + 1].value;
    s.SetPosition(s.pos + 2);
    return Joined, joined;
  }

  /** Reads the rest of a dotted name after its first component `first`. */
  method ReadDottedName(s: TokenStream, first: string) returns (ok: bool, name: string)
    requires s.pos <= |s.tokens|
    modifies s
    ensures old(s.pos) <= s.pos <= |s.tokens|
    ensures ok == Dotted(s.tokens, old(s.pos), old(s.pos), first).ok
    ensures ok ==> name == Dotted(s.tokens, old(s.pos), old(s.pos), first).name && s.pos == Dotted(s.tokens, old(s.pos), old(s.pos), first).end
  {
    name := first;
    var r := Joined;
    while r == Joined
      invariant old(s.pos) <= s.pos <= |s.tokens|
      invariant r != Broken ==> Dotted(s.tokens, old(s.pos), old(s.pos), first) == Dotted(s.tokens, s.pos, s.pos, name)
      invariant r == Ended ==> Dotted(s.tokens, s.pos, s.pos, name) == DotResult(true, name, s.pos)
      invariant r == Broken ==> !Dotted(s.tokens, old(s.pos), old(s.pos), first).ok
      decreases |s.tokens| - s.pos, if r == Joined then 1 else 0
    {
      r, name := ReadComponent(s, name);
    }
    ok := r == Ended;
  }

  /** The name part of a type: its identifier (no blanks before it), then the dotted rest of a non-system name. */
  method ReadTypeName(s: TokenStream, env: TypeEnv) returns (ok: bool, name: string)
    requires s.pos <= |s.tokens|
    modifies s
    ensures old(s.pos) <= s.pos <= |s.tokens|
    ensures ok ==> old(s.pos) < |s.tokens| && s.tokens[old(s.pos)].kind == Identifier
    ensures ok ==> name == TypeNameAt(env, s.tokens, old(s.pos)) && s.pos == TypeEndAt(env, s.tokens, old(s.pos))
    ensures old(s.pos) < |s.tokens| && s.tokens[old(s.pos)].kind == Identifier ==>
      (ok <==> Lower(s.tokens[old(s.pos)].value) in env.system || Dotted(s.tokens, old(s.pos) + 1, old(s.pos) + 1, s.tokens[old(s.pos)].value).ok)
  {
    var token;
    ok, token := s.ExpectToken(DefaultToken, {Identifier});
    name := Lower(token.value);
    if ok && name !in env.system {
      ok, name := ReadDottedName(s, token.value);
      name := Resolved(env, name);
    }
  }

  /**
   * A type: its name, then an optional `<T, …>` argument list. When no `<`
   * follows, the cursor is put back right after the name.
   */
  method ParseCompoundType(s: TokenStream, env: TypeEnv) returns (ok: bool, t: CompoundType, ghost nameEnd: nat)
    requires s.pos <= |s.tokens|
    modifies s
    ensures old(s.pos) <= s.pos <= |s.tokens|
    ensures ok <==> TypeAt(env, s.tokens, old(s.pos)).Some?
    ensures ok ==> TypeAt(env, s.tokens, old(s.pos)) == Some(TypeRead(t, s.pos))
    ensures ok ==> old(s.pos) < |s.tokens| && s.tokens[old(s.pos)].kind == Identifier
    ensures ok ==> t.typeName == TypeNameAt(env, s.tokens, old(s.pos))
    ensures ok ==> nameEnd == TypeEndAt(env, s.tokens, old(s.pos)) <= s.pos
    ensures ok && t.arguments == [] ==> s.pos == nameEnd && !OpensArguments(s.tokens, nameEnd)
    ensures ok && t.arguments != [] ==> OpensArguments(s.tokens, nameEnd)
    ensures ok && t.arguments != [] ==> s.tokens[s.pos - 1].kind == OpGreaterThan
    ensures ok ==> t.arrayDimensions == []
    decreases |s.tokens| - s.pos, 0
  {
    var name, arguments := "", [];
    ghost var at := s.pos;
    ok, name := ReadTypeName(s, env);
    nameEnd := s.pos;
    if ok {
      ok, arguments := ReadOptionalArguments(s, env);
      if ok {
        TypeAtNamed(env, s.tokens, at, ArgumentsRead(arguments, s.pos));
      }
    }
    t := CompoundType(name, arguments, []);
  }

  /** A generic argument list when the next solid token is `<`; otherwise nothing, the cursor left in place. */
  method ReadOptionalArguments(s: TokenStream, env: TypeEnv) returns (ok: bool, arguments: seq<CompoundType>)
    requires s.pos <= |s.tokens|
    modifies s
    ensures old(s.pos) <= s.pos <= |s.tokens|
    ensures ok <==> OptionalArgumentsAt(env, s.tokens, old(s.pos)).Some?
    ensures ok ==> OptionalArgumentsAt(env, s.tokens, old(s.pos)) == Some(ArgumentsRead(arguments, s.pos))
    ensures ok && arguments == [] ==> s.pos == old(s.pos) && !OpensArguments(s.tokens, old(s.pos))
    ensures ok && arguments != [] ==> OpensArguments(s.tokens, old(s.pos)) && old(s.pos) < s.pos && s.tokens[s.pos - 1].kind == OpGreaterThan
    decreases |s.tokens| - s.pos, 5
  {
    var cpos := s.pos;
    SkipBlanks(s, true);
    OptionalArgumentsCases(env, s.tokens, cpos);
    ok, arguments := true, [];
    if s.pos < |s.tokens| && s.tokens[s.pos].kind == OpLessThan {
      assert OpensArguments(s.tokens, cpos);
      ghost var o := OptionalArgumentsAt(env, s.tokens, cpos);
      s.SetPosition(s.pos + 1);
      assert o == ArgumentsFrom(env, s.tokens, s.pos, []);
      ok, arguments := ReadTypeArguments(s, env);
      assert ok <==> o.Some?;
    } else {
      s.SetPosition(cpos);
    }
  }

  /** The `T, …>` of a generic argument list, its `<` just read; one type at least. */
  method ReadTypeArguments(s: TokenStream, env: TypeEnv) returns (ok: bool, arguments: seq<CompoundType>)
    requires s.pos <= |s.tokens|
    modifies s
    ensures old(s.pos) <= s.pos <= |s.tokens|
    ensures ok <==> ArgumentsFrom(env, s.tokens, old(s.pos), []).Some?
    ensures ok ==> ArgumentsFrom(env, s.tokens, old(s.pos), []) == Some(ArgumentsRead(arguments, s.pos))
    ensures ok ==> |arguments| > 0 && old(s.pos) < s.pos && s.tokens[s.pos - 1].kind == OpGreaterThan
    decreases |s.tokens| - s.pos, 4
  {
    arguments := [];
    var closed := false;
    ok := true;
    while ok && !closed
      invariant old(s.pos) <= s.pos <= |s.tokens|
      invariant ok && !closed ==> ArgumentsFrom(env, s.tokens, old(s.pos), []) == ArgumentsFrom(env, s.tokens, s.pos, arguments)
      invariant closed ==> ok && ArgumentsFrom(env, s.tokens, old(s.pos), []) == Some(ArgumentsRead(arguments, s.pos))
      invariant !ok ==> ArgumentsFrom(env, s.tokens, old(s.pos), []).None?
      decreases |s.tokens| - s.pos, !closed, ok
    {
      var argument;
      ghost var at := s.pos;
      ok, argument, closed := ReadTypeArgument(s, env);
      if ok {
        ArgumentsFromNext(env, s.tokens, at, arguments, ArgumentRead(argument, closed, s.pos));
        arguments := arguments + [argument];
      }
    }
  }

  /** ParseCompoundType for callers that need only the type read and where it ends. */
  method ParseBareType(s: TokenStream, env: TypeEnv) returns (ok: bool, t: CompoundType)
    requires s.pos <= |s.tokens|
    modifies s
    ensures old(s.pos) <= s.pos <= |s.tokens|
    ensures ok <==> TypeAt(env, s.tokens, old(s.pos)).Some?
    ensures ok ==> TypeAt(env, s.tokens, old(s.pos)) == Some(TypeRead(t, s.pos))
    ensures ok ==> old(s.pos) < s.pos && t.arrayDimensions == []
    decreases |s.tokens| - s.pos, 1
  {
    ghost var nameEnd;
    ok, t, nameEnd := ParseCompoundType(s, env);
  }

  /** One type of a generic argument list and the `,` or `>` right after it. */
  method ReadTypeArgument(s: TokenStream, env: TypeEnv) returns (ok: bool, argument: CompoundType, closed: bool)
    requires s.pos <= |s.tokens|
    modifies s
    ensures old(s.pos) <= s.pos <= |s.tokens|
    ensures ok <==> ArgumentAt(env, s.tokens, old(s.pos)).Some?
    ensures ok ==> ArgumentAt(env, s.tokens, old(s.pos)) == Some(ArgumentRead(argument, closed, s.pos))
    ensures ok ==> old(s.pos) < s.pos
    ensures closed ==> ok && s.tokens[s.pos - 1].kind == OpGreaterThan
    decreases |s.tokens| - s.pos, 3
  {
    ArgumentSkip(env, s.tokens, s.pos);
    SkipBlanks(s, true);
    ok, argument, closed := ReadTypeArgumentAt(s, env);
  }

  /** ReadTypeArgument once the blanks are passed. */
  method ReadTypeArgumentAt(s: TokenStream, env: TypeEnv) returns (ok: bool, argument: CompoundType, closed: bool)
    requires s.pos <= |s.tokens| && (s.pos == |s.tokens| || !Skippable(s.tokens[s.pos].kind, true))
    modifies s
    ensures old(s.pos) <= s.pos <= |s.tokens|
    ensures ok <==> ArgumentAt(env, s.tokens, old(s.pos)).Some?
    ensures ok ==> ArgumentAt(env, s.tokens, old(s.pos)) == Some(ArgumentRead(argument, closed, s.pos))
    ensures ok ==> old(s.pos) < s.pos
    ensures closed ==> ok && s.tokens[s.pos - 1].kind == OpGreaterThan
    decreases |s.tokens| - s.pos, 2
  {
    ghost var start := s.pos;
    ok, argument := ParseBareType(s, env);
    closed := false;
    if ok {
      ghost var end := s.pos;
      ok := s.pos < |s.tokens| && (s.tokens[s.pos].kind == OpGreaterThan || s.tokens[s.pos].kind == Comma);
      if ok {
        closed := s.tokens[s.pos].kind == OpGreaterThan;
        s.SetPosition(s.pos + 1);
        ArgumentAtType(env, s.tokens, start, TypeRead(argument, end), closed);
      }
    }
  }

  /** Blanks and newlines before a generic argument do not change it. */
  lemma {:induction false} ArgumentSkip(env: TypeEnv, ts: seq<Token>, i: nat)
    requires i <= |ts|
    ensures ArgumentAt(env, ts, i) == ArgumentAt(env, ts, SkipFrom(ts, i, true))
    decreases |ts| - i
  {
    if i < |ts| && Skippable(ts[i].kind, true) {
      ArgumentSkip(env, ts, i + 1);
    }
  }

  /** A type read from `i`, and a `>` (`closed`) or `,` right after it, make the generic argument from `i`. */
  lemma ArgumentAtType(env: TypeEnv, ts: seq<Token>, i: nat, t: TypeRead, closed: bool)
    requires i <= |ts| && TypeAt(env, ts, i) == Some(t)
    requires t.end < |ts| && ts[t.end].kind in {OpGreaterThan, Comma} && closed == (ts[t.end].kind == OpGreaterThan)
    ensures ArgumentAt(env, ts, i) == Some(ArgumentRead(t.t, closed, t.end + 1))
  {
  }

  // ---------------------------------------------------------------- flags

  /** The words read as field and method flags; any other identifier starts the type. */
  const AllowedKeywords: set<string> := {
    "deprecated", "internal", "latent", "meta", "native", "play", "private",
    "protected", "readonly", "transient", "ui", "version", "virtual", "override",
    "virtualscope", "vararg", "final", "clearscope", "action", "static", "const"}

  /** Flags of a member: allowed keywords, the two annotations excepted (they fill the version and the deprecation note). */
  predicate MemberFlags(flags: seq<string>) {
    forall f | f in flags :: f in AllowedKeywords && f != "version" && f != "deprecated"
  }

  /** Tokens that are not identifiers keep a stretch of keywords one. */
  lemma KeywordsOverNonIdentifiers(ts: seq<Token>, i: nat, j: nat, k: nat)
    requires i <= j <= k <= |ts| && NoIdentifiers(ts, j, k) && AllKeywords(ts, i, j)
    ensures AllKeywords(ts, i, k)
  {
  }

  /** Every identifier from `i` up to `j` is a keyword. */
  predicate AllKeywords(ts: seq<Token>, i: nat, j: nat)
    requires i <= j <= |ts|
  {
    forall k | i <= k < j :: ts[k].kind == Identifier ==> ts[k].value in AllowedKeywords
  }

  /** A keyword, or any token other than an identifier, extends a stretch of keywords. */
  lemma AllKeywordsStep(ts: seq<Token>, i: nat, j: nat)
    requires i <= j < |ts| && AllKeywords(ts, i, j)
    requires ts[j].kind == Identifier ==> ts[j].value in AllowedKeywords
    ensures AllKeywords(ts, i, j + 1)
  {
  }

  /** How reading the flags ended: at the first identifier that is not a keyword, at the end of an empty input, or on an error. */
  datatype FlagsEnd = FlagsDone | NothingRead | FlagsFailed

  /**
   * The flags before a member's type. Keywords are matched as written (no
   * case folding). On FlagsDone the cursor rests on the identifier that
   * starts the type, and the stretch read says the flags, the version and
   * the deprecation note, as a class header does.
   */
  method ReadFlags(s: TokenStream) returns (r: FlagsEnd, flags: seq<string>, version: string, deprecated: string)
    requires s.pos <= |s.tokens|
    modifies s
    ensures old(s.pos) <= s.pos <= |s.tokens|
    ensures MemberFlags(flags)
    ensures version == "" || version == "version"
    ensures r == FlagsDone ==>
      s.pos < |s.tokens| && s.tokens[s.pos].kind == Identifier && s.tokens[s.pos].value !in AllowedKeywords
    ensures r == NothingRead ==> flags == [] && s.pos == |s.tokens| && SkipFrom(s.tokens, old(s.pos), true) == |s.tokens|
    ensures r == FlagsDone ==> AllKeywords(s.tokens, old(s.pos), s.pos) && flags == FlagWords(s.tokens, old(s.pos), s.pos)
    ensures r == FlagsDone ==> HeaderSays(s.tokens, old(s.pos), s.pos, flags, version, deprecated)
  {
    flags, version, deprecated := [], "", "";
    var nothingRead := true;
    while true
      invariant old(s.pos) <= s.pos <= |s.tokens|
      invariant MemberFlags(flags)
      invariant version == "" || version == "version"
      invariant nothingRead ==> flags == [] && s.pos == old(s.pos)
      invariant AllKeywords(s.tokens, old(s.pos), s.pos) && flags == FlagWords(s.tokens, old(s.pos), s.pos)
      invariant HeaderSays(s.tokens, old(s.pos), s.pos, flags, version, deprecated)
      decreases |s.tokens| - s.pos
    {
      var stop, flag;
      stop, flag, version, deprecated := ReadFlag(s, version, deprecated, old(s.pos), flags);
      if stop.Some? {
        if stop.value == NothingRead && !nothingRead {
          stop := Some(FlagsFailed);
        }
        return stop.value, flags, version, deprecated;
      }
      nothingRead := false;
      flags := flags + flag;
    }
  }

  /**
   * One step of reading the flags: a keyword (a flag, or an annotation with
   * its argument), or the end of the flags when `stop` is set. The stretch
   * from `start` said `flags`, `version` and `deprecated`; unless the step
   * failed, the longer stretch says them with this step's flag, version
   * and deprecation note.
   */
  method ReadFlag(s: TokenStream, version: string, deprecated: string, ghost start: nat, ghost flags: seq<string>)
    returns (stop: Option<FlagsEnd>, flag: seq<string>, newVersion: string, newDeprecated: string)
    requires start <= s.pos <= |s.tokens| && (version == "" || version == "version")
    requires HeaderSays(s.tokens, start, s.pos, flags, version, deprecated)
    modifies s
    ensures old(s.pos) <= s.pos <= |s.tokens|
    ensures newVersion == "" || newVersion == "version"
    ensures MemberFlags(flag)
    ensures stop != Some(FlagsFailed) ==> AllKeywords(s.tokens, old(s.pos), s.pos) && flag == FlagWords(s.tokens, old(s.pos), s.pos)
    ensures stop != Some(FlagsFailed) ==> HeaderSays(s.tokens, start, s.pos, flags + flag, newVersion, newDeprecated)
    ensures stop.None? ==> old(s.pos) < s.pos
    ensures stop.Some? ==> flag == []
    ensures stop == Some(NothingRead) ==> flag == [] && s.pos == |s.tokens| && SkipFrom(s.tokens, old(s.pos), true) == |s.tokens|
    ensures stop == Some(FlagsDone) ==>
      s.pos < |s.tokens| && s.tokens[s.pos].kind == Identifier && s.tokens[s.pos].value !in AllowedKeywords
  {
    stop, flag, newVersion, newDeprecated := None, [], version, deprecated;
    ghost var p0 := s.pos;
    SkipBlanks(s, true);
    SkipFromSkips(s.tokens, p0, true);
    FlagWordsOverNonIdentifiers(s.tokens, p0, p0, s.pos);
    KeywordsOverNonIdentifiers(s.tokens, p0, p0, s.pos);
    BlankRound(s.tokens, start, p0, s.pos, flags, version, deprecated);
    assert flags + [] == flags;
    if s.pos == |s.tokens| {
      return Some(NothingRead), flag, newVersion, newDeprecated;
    }
    var token := s.tokens[s.pos];
    if token.kind != Identifier {
      s.SetPosition(s.pos + 1);
      return Some(FlagsFailed), flag, newVersion, newDeprecated;
    }
    if token.value !in AllowedKeywords {
      return Some(FlagsDone), flag, newVersion, newDeprecated;
    }
    var failed;
    failed, flag, newVersion, newDeprecated := ReadKeyword(s, token, version, deprecated, start, p0, flags);
    if failed {
      return Some(FlagsFailed), flag, newVersion, newDeprecated;
    }
  }

  /**
   * A keyword at the cursor, after the blanks from `p0`: a flag, or an
   * annotation with its argument. Unless it `failed`, the stretch from
   * `start` says one flag, version or deprecation note more.
   */
  method ReadKeyword(s: TokenStream, token: Token, version: string, deprecated: string,
                     ghost start: nat, ghost p0: nat, ghost flags: seq<string>)
    returns (failed: bool, flag: seq<string>, newVersion: string, newDeprecated: string)
    requires start <= p0 <= s.pos < |s.tokens| && s.tokens[s.pos] == token
    requires token.kind == Identifier && token.value in AllowedKeywords && (version == "" || version == "version")
    requires AllKeywords(s.tokens, p0, s.pos) && FlagWords(s.tokens, p0, s.pos) == []
    requires HeaderSays(s.tokens, start, s.pos, flags, version, deprecated)
    modifies s
    ensures old(s.pos) < s.pos <= |s.tokens|
    ensures newVersion == "" || newVersion == "version"
    ensures MemberFlags(flag)
    ensures failed ==> flag == [] && newVersion == version && newDeprecated == deprecated
    ensures !failed ==> AllKeywords(s.tokens, p0, s.pos) && flag == FlagWords(s.tokens, p0, s.pos)
    ensures !failed ==> HeaderSays(s.tokens, start, s.pos, flags + flag, newVersion, newDeprecated)
  {
    failed, flag, newVersion, newDeprecated := false, [], version, deprecated;
    ghost var at := s.pos;
    AllKeywordsStep(s.tokens, p0, at);
    s.SetPosition(s.pos + 1);
    assert FlagWords(s.tokens, p0, s.pos) ==
      FlagWords(s.tokens, p0, at) + (if token.value == "version" || token.value == "deprecated" then [] else [token.value]);
    if token.value == "version" || token.value == "deprecated" {
      ghost var text;
      ghost var keyword := s.pos;
      var ok;
      ok, newVersion, newDeprecated, text := ReadAnnotation(s, version, deprecated);
      FlagWordsOverNonIdentifiers(s.tokens, p0, keyword, s.pos);
      KeywordsOverNonIdentifiers(s.tokens, p0, keyword, s.pos);
      if !ok {
        return true, [], version, deprecated;
      }
      AnnotationRound(s.tokens, start, at, s.pos, text, flags, version, deprecated, newVersion, newDeprecated);
      assert flags + [] == flags;
    } else {
      FlagRound(s.tokens, start, at, flags, version, deprecated);
      flag := [token.value];
    }
  }

  // ---------------------------------------------------------------- members

  /** Types as read before a member's name: no dimensions, which only the field's own `[…]` adds. */
  predicate BareTypes(types: seq<CompoundType>) {
    forall k | 0 <= k < |types| :: types[k].arrayDimensions == []
  }

  /** One type of a member's type list: the type, the position of the `,` or the name after it, and whether it was a `,`. */
  datatype Listed = Listed(t: CompoundType, at: nat, more: bool)

  /** A member's type list read: its types, and the position of the identifier that names the member. */
  datatype TypesRead = TypesRead(types: seq<CompoundType>, nameAt: nat)

  /** One listed type from `i`: blanks and newlines, a type, blanks and newlines, then a `,` or an identifier. */
  function ListedTypeAt(env: TypeEnv, ts: seq<Token>, i: nat): (r: Option<Listed>)
    requires i <= |ts|
    ensures r.Some? ==> i < r.value.at < |ts| && ts[r.value.at].kind in {Comma, Identifier}
    ensures r.Some? ==> (r.value.more <==> ts[r.value.at].kind == Comma)
    ensures r.Some? ==> r.value.t.arrayDimensions == []
    decreases |ts| - i
  {
    if i < |ts| && Skippable(ts[i].kind, true) then ListedTypeAt(env, ts, i + 1) else
    var t := TypeAt(env, ts, i);
    if t.None? then None
    else
      var j := SkipFrom(ts, t.value.end, true);
      if j < |ts| && ts[j].kind in {Comma, Identifier} then Some(Listed(t.value.t, j, ts[j].kind == Comma)) else None
  }

  /** Blanks and newlines before a listed type do not change it. */
  lemma {:induction false} ListedTypeSkip(env: TypeEnv, ts: seq<Token>, i: nat)
    requires i <= |ts|
    ensures ListedTypeAt(env, ts, i) == ListedTypeAt(env, ts, SkipFrom(ts, i, true))
    decreases |ts| - i
  {
    if i < |ts| && Skippable(ts[i].kind, true) {
      ListedTypeSkip(env, ts, i + 1);
    }
  }

  /** The types of a member's type list from `i` on, `acc` those read before: up to the first one followed by an identifier. */
  function TypesFrom(env: TypeEnv, ts: seq<Token>, i: nat, acc: seq<CompoundType>): (r: Option<TypesRead>)
    requires i <= |ts|
    ensures r.Some? ==> i < r.value.nameAt < |ts| && ts[r.value.nameAt].kind == Identifier
    ensures r.Some? ==> |r.value.types| > |acc|
    decreases |ts| - i
  {
    match ListedTypeAt(env, ts, i)
    case None => None
    case Some(l) => if l.more then TypesFrom(env, ts, l.at + 1, acc + [l.t]) else Some(TypesRead(acc + [l.t], l.at))
  }

  /** One listed type read from `i` either names the member next or leaves the rest of the list to read after its `,`. */
  lemma TypesFromNext(env: TypeEnv, ts: seq<Token>, i: nat, acc: seq<CompoundType>, l: Listed)
    requires i <= |ts| && ListedTypeAt(env, ts, i) == Some(l)
    ensures l.more ==> TypesFrom(env, ts, i, acc) == TypesFrom(env, ts, l.at + 1, acc + [l.t])
    ensures !l.more ==> TypesFrom(env, ts, i, acc) == Some(TypesRead(acc + [l.t], l.at))
  {
  }

  /**
   * A member's type list, `T [, T …] name`: types separated by commas, up to
   * the identifier that names the member, which is returned.
   */
  method ReadTypes(s: TokenStream, env: TypeEnv) returns (ok: bool, types: seq<CompoundType>, name: Token, ghost nameAt: nat)
    requires s.pos <= |s.tokens|
    modifies s
    ensures old(s.pos) <= s.pos <= |s.tokens|
    ensures ok <==> TypesFrom(env, s.tokens, old(s.pos), []).Some?
    ensures ok ==> TypesFrom(env, s.tokens, old(s.pos), []) == Some(TypesRead(types, nameAt))
    ensures ok ==> s.pos == nameAt + 1 && s.tokens[nameAt] == name
    ensures ok ==> |types| > 0 && BareTypes(types) && old(s.pos) < s.pos
    ensures ok ==> name.kind == Identifier && s.tokens[s.pos - 1] == name
  {
    ok, types, name, nameAt := ReadTypeList(s, env);
  }

  /** ReadTypes' loop, proved against TypesFrom alone. */
  method ReadTypeList(s: TokenStream, env: TypeEnv) returns (ok: bool, types: seq<CompoundType>, name: Token, ghost nameAt: nat)
    requires s.pos <= |s.tokens|
    modifies s
    ensures old(s.pos) <= s.pos <= |s.tokens|
    ensures ok <==> TypesFrom(env, s.tokens, old(s.pos), []).Some?
    ensures ok ==> TypesFrom(env, s.tokens, old(s.pos), []) == Some(TypesRead(types, nameAt))
    ensures ok ==> s.pos == nameAt + 1 && s.tokens[nameAt] == name
    ensures ok ==> BareTypes(types)
  {
    types, name, nameAt := [], DefaultToken, 0;
    while true
      invariant old(s.pos) <= s.pos <= |s.tokens|
      invariant BareTypes(types)
      invariant TypesFrom(env, s.tokens, old(s.pos), []) == TypesFrom(env, s.tokens, s.pos, types)
      decreases |s.tokens| - s.pos
    {
      var more;
      ok, more, types, name, nameAt := ReadNextType(s, env, types, name);
      if !ok || !more {
        return;
      }
    }
  }

  /** One more type of the list after `types`: the list goes on after a `,`, and ends at the name otherwise. */
  method ReadNextType(s: TokenStream, env: TypeEnv, types: seq<CompoundType>, prev: Token)
    returns (ok: bool, more: bool, next: seq<CompoundType>, name: Token, ghost nameAt: nat)
    requires s.pos <= |s.tokens|
    modifies s
    ensures old(s.pos) <= s.pos <= |s.tokens|
    ensures BareTypes(types) ==> BareTypes(next)
    ensures !ok ==> TypesFrom(env, s.tokens, old(s.pos), types).None?
    ensures ok ==> old(s.pos) < s.pos
    ensures ok && more ==> TypesFrom(env, s.tokens, old(s.pos), types) == TypesFrom(env, s.tokens, s.pos, next)
    ensures ok && !more ==> TypesFrom(env, s.tokens, old(s.pos), types) == Some(TypesRead(next, nameAt))
    ensures ok && !more ==> s.pos == nameAt + 1 && s.tokens[nameAt] == name
  {
    var t;
    ghost var at := s.pos;
    ok, t, name, nameAt := ReadListedType(s, env, prev);
    more, next := ok && name.kind == Comma, types;
    if ok {
      TypesFromNext(env, s.tokens, at, types, Listed(t, nameAt, more));
      next := types + [t];
    }
  }

  /** One type of a member's type list and the `,` or the name after it. */
  method ReadListedType(s: TokenStream, env: TypeEnv, prev: Token) returns (ok: bool, t: CompoundType, next: Token, ghost at: nat)
    requires s.pos <= |s.tokens|
    modifies s
    ensures old(s.pos) <= s.pos <= |s.tokens|
    ensures ok <==> ListedTypeAt(env, s.tokens, old(s.pos)).Some?
    ensures ok ==> ListedTypeAt(env, s.tokens, old(s.pos)) == Some(Listed(t, at, next.kind == Comma)) && s.pos == at + 1 && s.tokens[at] == next
    ensures ok ==> old(s.pos) < s.pos && t.arrayDimensions == []
    ensures ok ==> s.tokens[s.pos - 1] == next && next.kind in {Comma, Identifier}
  {
    SkipBlanks(s, true);
    ListedTypeSkip(env, s.tokens, old(s.pos));
    next, at := prev, 0;
    ok, t := ParseBareType(s, env);
    if ok {
      ok, next, at := SkipAndExpectWhere(s, prev, {Comma, Identifier}, true);
    }
  }

  /**
   * One array dimension after its `[`: an expression, or nothing when the
   * `]` follows at once (an open dimension, recorded as None), then the `]`
   * and the `;`, `[` or `=` after it, which `next` returns.
   */
  method ReadDimension(s: TokenStream) returns (r: Exec<bool>, dim: Option<Expr>, next: Token)
    requires s.pos <= |s.tokens|
    modifies s
    ensures r.Returns? ==> old(s.pos) <= s.pos <= |s.tokens|
    ensures r.Returns? && r.value ==> old(s.pos) < s.pos
    ensures r.Returns? && r.value ==> s.tokens[s.pos - 1] == next
    ensures r.Returns? && r.value ==> next.kind in {Semicolon, OpenSquare, OpAssign}
    ensures r == Returns(true) ==> (dim.None? <==> NextIs(s.tokens, old(s.pos), true, {CloseSquare}))
    ensures NextIs(s.tokens, old(s.pos), true, {CloseSquare}) ==> r.Returns? && dim.None?
  {
    r, next := Returns(false), DefaultToken;
    SkipBlanks(s, true);
    var cpos := s.pos;
    SkipFromIsFirstSolid(s.tokens, cpos, cpos, true);
    var e, eLeaves, eFailed := ParseExpression(s, {CloseSquare});
    if e.Undefined? {
      return Undefined, None, next;
    }
    dim := e.value;
    if dim.None? {
      // an open dimension needs the `]` right after the `[`
      s.SetPosition(cpos);
      SkipBlanks(s, true);
      if !(s.pos < |s.tokens| && s.tokens[s.pos].kind == CloseSquare) {
        return;
      }
    }
    var ok;
    ok, next := CloseDimension(s);
    r := Returns(ok);
  }

  /** The `]` of a dimension and the `;`, `[` or `=` after it. */
  method CloseDimension(s: TokenStream) returns (ok: bool, next: Token)
    requires s.pos <= |s.tokens|
    modifies s
    ensures old(s.pos) <= s.pos <= |s.tokens|
    ensures ok ==> old(s.pos) < s.pos && s.tokens[s.pos - 1] == next && next.kind in {Semicolon, OpenSquare, OpAssign}
  {
    var token;
    ok, token := SkipAndExpect(s, DefaultToken, {CloseSquare}, true);
    next := token;
    if ok {
      ok, next := SkipAndExpect(s, token, {Semicolon, OpenSquare, OpAssign}, true);
    }
  }

  /**
   * Reading dimension `k` started at `starts[k]`, right after its `[`, and it
   * is open exactly when a `]` is the next solid token there.
   */
  predicate DimensionsAt(ts: seq<Token>, starts: seq<nat>, dims: seq<Option<Expr>>) {
    && |starts| == |dims|
    && (forall k | 0 <= k < |starts| :: starts[k] <= |ts| && (dims[k].None? <==> NextIs(ts, starts[k], true, {CloseSquare})))
    && (forall k | 0 < k < |starts| :: starts[k - 1] < starts[k] && ts[starts[k] - 1].kind == OpenSquare)
  }

  lemma DimensionsGrow(ts: seq<Token>, starts: seq<nat>, dims: seq<Option<Expr>>, start: nat, dim: Option<Expr>)
    requires DimensionsAt(ts, starts, dims)
    requires start <= |ts| && (dim.None? <==> NextIs(ts, start, true, {CloseSquare}))
    requires |starts| > 0 ==> starts[|starts| - 1] < start && 0 < start && ts[start - 1].kind == OpenSquare
    ensures DimensionsAt(ts, starts + [start], dims + [dim])
  {
    var starts', dims' := starts + [start], dims + [dim];
    forall k | 0 <= k < |starts'|
      ensures starts'[k] <= |ts| && (dims'[k].None? <==> NextIs(ts, starts'[k], true, {CloseSquare}))
    {
      if k < |starts| {
        assert starts'[k] == starts[k] && dims'[k] == dims[k];
      }
    }
    forall k | 0 < k < |starts'|
      ensures starts'[k - 1] < starts'[k] && ts[starts'[k] - 1].kind == OpenSquare
    {
      if k < |starts| {
        assert starts'[k] == starts[k] && starts'[k - 1] == starts[k - 1];
      }
    }
  }

  /** The dimensions of an array field, its first `[` just read, up to the `;` or `=` after the last `]`. */
  method ReadDimensions(s: TokenStream) returns (r: Exec<bool>, dims: seq<Option<Expr>>, next: Token, ghost starts: seq<nat>)
    requires s.pos <= |s.tokens|
    modifies s
    ensures r.Returns? ==> old(s.pos) <= s.pos <= |s.tokens|
    ensures r == Returns(true) ==>
      |dims| > 0 && old(s.pos) < s.pos && s.tokens[s.pos - 1] == next && next.kind in {Semicolon, OpAssign}
    ensures r == Returns(true) ==> DimensionsAt(s.tokens, starts, dims) && starts[0] == old(s.pos)
  {
    dims, next, starts := [], DefaultToken, [];
    while true
      invariant old(s.pos) <= s.pos <= |s.tokens|
      invariant |dims| > 0 ==> old(s.pos) < s.pos && s.tokens[s.pos - 1].kind == OpenSquare
      invariant DimensionsAt(s.tokens, starts, dims)
      invariant |starts| > 0 ==> starts[0] == old(s.pos) && starts[|starts| - 1] < s.pos
      invariant |starts| == 0 ==> s.pos == old(s.pos)
      decreases |s.tokens| - s.pos
    {
      var dim;
      var start := s.pos;
      r, dim, next := ReadDimension(s);
      if r != Returns(true) {
        return;
      }
      DimensionsGrow(s.tokens, starts, dims, start, dim);
      dims, starts := dims + [dim], starts + [start];
      if next.kind != OpenSquare {
        return;
      }
    }
  }

  /** The end of a field, `token` being its `;` or its `=`: an initial value is read (and dropped), then the `;`. */
  method ReadFieldTail(s: TokenStream, token: Token) returns (r: Exec<bool>)
    requires s.pos <= |s.tokens|
    modifies s
    ensures r.Returns? ==> old(s.pos) <= s.pos <= |s.tokens|
    ensures r == Returns(true) && token.kind != Semicolon ==> old(s.pos) < s.pos && s.tokens[s.pos - 1].kind == Semicolon
    ensures token.kind == Semicolon ==> r == Returns(true) && s.pos == old(s.pos)
  {
    if token.kind == Semicolon {
      return Returns(true);
    }
    SkipBlanks(s, true);
    var e, eLeaves, eFailed := ParseExpression(s, {Semicolon});
    if e.Undefined? {
      return Undefined;
    }
    if e.value.None? {
      return Returns(false);
    }
    var ok, closer := SkipAndExpect(s, token, {Semicolon}, true);
    return Returns(ok);
  }

  // ---------------------------------------------------------------- method signatures

  /** A method argument as the field pass builds it: typed, at most one of `out` and `ref`, and its default value, if any, as its only child. */
  predicate Argument(n: Node) {
    && n.LocalNode?
    && n.hasType
    && (n.flags == [] || n.flags == ["out"] || n.flags == ["ref"])
    && (n.children == [] || (|n.children| == 1 && n.children[0].ExpressionNode?))
  }

  /** Where an argument's parts are: its passing flags, its type, and the position of its name. */
  datatype Head = Head(flags: seq<string>, t: CompoundType, nameAt: nat)

  /**
   * The head of an argument whose first identifier is at `i`: `out` or
   * `ref` in any case (then blanks and newlines), the type, blanks and
   * newlines, and the identifier that names it.
   */
  function ArgumentHeadAt(env: TypeEnv, ts: seq<Token>, i: nat): (r: Option<Head>)
    requires i < |ts|
    ensures r.Some? ==> i < r.value.nameAt < |ts| && ts[r.value.nameAt].kind == Identifier
  {
    var t := TypeAt(env, ts, TypeStart(ts, i));
    if t.None? then None
    else
      var n := SkipFrom(ts, t.value.end, true);
      if n < |ts| && ts[n].kind == Identifier then Some(Head(PassingFlags(ts, i), t.value.t, n)) else None
  }

  /** The passing flag an argument's first identifier at `i` gives: `out` or `ref` in any case, lower-cased, or none. */
  function PassingFlags(ts: seq<Token>, i: nat): seq<string>
    requires i < |ts|
  {
    var word := Lower(ts[i].value);
    if word == "out" || word == "ref" then [word] else []
  }

  /** Where the type of an argument whose first identifier is at `i` begins: after a passing flag and the blanks after it, or at `i`. */
  function TypeStart(ts: seq<Token>, i: nat): (j: nat)
    requires i < |ts|
    ensures i <= j <= |ts|
  {
    if PassingFlags(ts, i) != [] then SkipFrom(ts, i + 1, true) else i
  }

  /** The head at `i` is read from the type after the passing flag and the token after that type. */
  lemma HeadAtType(env: TypeEnv, ts: seq<Token>, i: nat, typeAt: nat, t: TypeRead, n: nat)
    requires i < |ts| && typeAt == TypeStart(ts, i) && TypeAt(env, ts, typeAt) == Some(t) && n == SkipFrom(ts, t.end, true)
    ensures n < |ts| && ts[n].kind == Identifier ==> ArgumentHeadAt(env, ts, i) == Some(Head(PassingFlags(ts, i), t.t, n))
    ensures !(n < |ts| && ts[n].kind == Identifier) ==> ArgumentHeadAt(env, ts, i).None?
  {
  }

  /** The argument `n` is the one whose head is at `i`: an argument node with the flags, type and name read there. */
  predicate ArgumentIs(env: TypeEnv, ts: seq<Token>, i: nat, n: Node)
    requires i < |ts|
  {
    var h := ArgumentHeadAt(env, ts, i);
    && h.Some? && Argument(n)
    && n.flags == h.value.flags && n.varType == h.value.t && n.identifier == ts[h.value.nameAt].value
  }

  /** The arguments `args` are the ones whose heads are at `heads`, in text order. */
  predicate ArgumentsListed(env: TypeEnv, ts: seq<Token>, heads: seq<nat>, args: seq<Node>) {
    && |heads| == |args|
    && (forall k | 0 <= k < |heads| :: heads[k] < |ts| && ArgumentIs(env, ts, heads[k], args[k]))
    && (forall k | 0 < k < |heads| :: heads[k - 1] < heads[k])
  }

  /**
   * A method's argument list read from `i` (just after its `(`): the
   * arguments whose heads are at `heads`, then the `)` or `...` at `close`
   * that ends the list, `ellipsis` telling which. The first head, or `close`
   * for no arguments, is the first solid token from `i`.
   */
  predicate ArgumentListAt(env: TypeEnv, ts: seq<Token>, i: nat, heads: seq<nat>, args: seq<Node>, ellipsis: bool, close: nat)
    requires i <= |ts|
  {
    && i <= close < |ts| && ts[close].kind == (if ellipsis then Ellipsis else CloseParen)
    && ArgumentsListed(env, ts, heads, args)
    && (if |heads| > 0 then heads[0] == SkipFrom(ts, i, true) else close == SkipFrom(ts, i, true))
  }

  /** One more argument, whose head comes after the others, extends the list. */
  lemma ArgumentsGrow(env: TypeEnv, ts: seq<Token>, heads: seq<nat>, args: seq<Node>, head: nat, arg: Node)
    requires ArgumentsListed(env, ts, heads, args)
    requires head < |ts| && ArgumentIs(env, ts, head, arg)
    requires |heads| > 0 ==> heads[|heads| - 1] < head
    ensures ArgumentsListed(env, ts, heads + [head], args + [arg])
  {
    var heads', args' := heads + [head], args + [arg];
    forall k | 0 <= k < |heads'|
      ensures heads'[k] < |ts| && ArgumentIs(env, ts, heads'[k], args'[k])
    {
      if k < |heads| {
        assert heads'[k] == heads[k] && args'[k] == args[k];
      }
    }
    forall k | 0 < k < |heads'|
      ensures heads'[k - 1] < heads'[k]
    {
      if k < |heads| {
        assert heads'[k - 1] == heads[k - 1] && heads'[k] == heads[k];
      }
    }
  }

  /**
   * One argument, its first identifier `first` just read at `at`: `out` or
   * `ref` in any case, then the type, the name and an optional `= expr`,
   * and the `,` or `)` after it, returned as `token`.
   */
  method ReadArgument(s: TokenStream, env: TypeEnv, first: Token, ghost at: nat) returns (r: Exec<Option<Node>>, token: Token, ghost end: nat)
    requires s.pos == at + 1 <= |s.tokens| && s.tokens[at] == first
    modifies s
    ensures r.Returns? ==> at <= s.pos <= |s.tokens|
    ensures r.Returns? && r.value.Some? ==> old(s.pos) < s.pos && Argument(r.value.value)
    ensures r.Returns? && r.value.Some? ==> ArgumentIs(env, s.tokens, at, r.value.value)
    ensures r.Returns? && r.value.Some? ==> s.tokens[s.pos - 1] == token && token.kind in {Comma, CloseParen}
    ensures r.Returns? && r.value.Some? ==> at < end < |s.tokens| && s.pos == end + 1 && s.tokens[end] == token
  {
    r, token, end := Returns(None), first, at;
    var ok, flags, argType, name, nameAt := ReadArgumentHead(s, env, first, at);
    if !ok {
      return;
    }
    var ended, children;
    ended, children, token := ReadArgumentEnd(s, name);
    if ended == Returns(true) {
      end := s.pos - 1;
      return Returns(Some(LocalNode(name.value, true, argType, flags, children))), token, end;
    }
    return if ended.Undefined? then Undefined else Returns(None), token, end;
  }

  /** The head of an argument, its first identifier `first` just read at `at`: the passing flag, the type and the name. */
  method ReadArgumentHead(s: TokenStream, env: TypeEnv, first: Token, ghost at: nat)
    returns (ok: bool, flags: seq<string>, argType: CompoundType, name: Token, ghost nameAt: nat)
    requires s.pos == at + 1 <= |s.tokens| && s.tokens[at] == first
    modifies s
    ensures at <= s.pos <= |s.tokens|
    ensures ok <==> ArgumentHeadAt(env, s.tokens, at).Some?
    ensures ok ==> ArgumentHeadAt(env, s.tokens, at) == Some(Head(flags, argType, nameAt))
    ensures ok ==> s.pos == nameAt + 1 && s.tokens[nameAt] == name
    ensures flags == [] || flags == ["out"] || flags == ["ref"]
    ensures ok ==> argType.arrayDimensions == []
  {
    flags := ReadPassing(s, first, at);
    ghost var typeAt := s.pos;
    ok, argType := ParseBareType(s, env);
    name, nameAt := first, 0;
    if ok {
      ghost var typeEnd := s.pos;
      ok, name, nameAt := SkipAndExpectWhere(s, first, {Identifier}, true);
      HeadAtType(env, s.tokens, at, typeAt, TypeRead(argType, typeEnd), nameAt);
    }
  }

  /**
   * How an argument is passed: `out` or `ref` (in any case) is a flag and
   * the blanks after it are skipped; any other first identifier, read at
   * `at`, is put back to be read as the type.
   */
  method ReadPassing(s: TokenStream, first: Token, ghost at: nat) returns (flags: seq<string>)
    requires s.pos == at + 1 <= |s.tokens| && s.tokens[at] == first
    modifies s
    ensures flags == [] || flags == ["out"] || flags == ["ref"]
    ensures flags == [] <==> Lower(first.value) != "out" && Lower(first.value) != "ref"
    ensures flags == PassingFlags(s.tokens, at) && s.pos == TypeStart(s.tokens, at)
    ensures flags == [] ==> s.pos == at
    ensures flags != [] ==> s.pos == SkipFrom(s.tokens, at + 1, true)
  {
    var word := Lower(first.value);
    if word == "out" || word == "ref" {
      flags := [word];
      SkipBlanks(s, true);
    } else {
      flags := [];
      s.SetPosition(s.pos - 1);
    }
  }

  /** What follows an argument's name: `,` or `)`, or `= expr` and then `,` or `)`; the default value becomes the only child. */
  method ReadArgumentEnd(s: TokenStream, name: Token) returns (r: Exec<bool>, children: seq<Node>, token: Token)
    requires s.pos <= |s.tokens|
    modifies s
    ensures r.Returns? ==> old(s.pos) <= s.pos <= |s.tokens|
    ensures r.Returns? && r.value ==> old(s.pos) < s.pos
    ensures r.Returns? && r.value ==> s.tokens[s.pos - 1] == token
    ensures r.Returns? && r.value ==> token.kind in {Comma, CloseParen}
    ensures children == [] || (|children| == 1 && children[0].ExpressionNode?)
  {
    r, children := Returns(false), [];
    var ok;
    ok, token := SkipAndExpect(s, name, {CloseParen, OpAssign, Comma}, true);
    if !ok {
      return;
    }
    if token.kind == OpAssign {
      r, children, token := ReadDefaultValue(s, token);
    } else {
      r := Returns(true);
    }
  }

  /** An argument's default value after its `=`, and the `,` or `)` after it; the value becomes the argument's only child. */
  method ReadDefaultValue(s: TokenStream, assign: Token) returns (r: Exec<bool>, children: seq<Node>, token: Token)
    requires s.pos <= |s.tokens|
    modifies s
    ensures r.Returns? ==> old(s.pos) <= s.pos <= |s.tokens|
    ensures r.Returns? && r.value ==> old(s.pos) < s.pos
    ensures r.Returns? && r.value ==> s.tokens[s.pos - 1] == token
    ensures r.Returns? && r.value ==> token.kind in {Comma, CloseParen}
    ensures children == [] || (|children| == 1 && children[0].ExpressionNode?)
  {
    r, children, token := Returns(false), [], assign;
    SkipBlanks(s, true);
    var e, eLeaves, eFailed := ParseExpression(s, {CloseParen, Comma});
    if e.Undefined? {
      return Undefined, children, token;
    }
    if e.value.None? {
      return;
    }
    var ok;
    ok, token := SkipAndExpect(s, token, {CloseParen, Comma}, true);
    if ok {
      r, children := Returns(true), [ExpressionNode(e.value.value)];
    }
  }

  /**
   * The arguments of a method, its `(` just read: up to the `)`, or up to a
   * `...`, which ends the list without its `)` being read. `heads` are where
   * the arguments begin, `close` where the `)` or `...` is.
   */
  method ReadArguments(s: TokenStream, env: TypeEnv) returns (r: Exec<bool>, args: seq<Node>, ellipsis: bool, ghost heads: seq<nat>, ghost close: nat)
    requires s.pos <= |s.tokens|
    modifies s
    ensures r.Returns? ==> old(s.pos) <= s.pos <= |s.tokens|
    ensures r == Returns(true) ==> old(s.pos) < s.pos && forall k | 0 <= k < |args| :: Argument(args[k])
    ensures r == Returns(true) ==> s.tokens[s.pos - 1].kind == (if ellipsis then Ellipsis else CloseParen)
    ensures r == Returns(true) ==> s.pos == close + 1 && ArgumentsListed(env, s.tokens, heads, args)
    ensures r == Returns(true) ==> old(s.pos) <= close < |s.tokens| && s.tokens[close].kind == (if ellipsis then Ellipsis else CloseParen)
    ensures r == Returns(true) && |heads| > 0 ==> heads[0] == SkipFrom(s.tokens, old(s.pos), true)
    ensures r == Returns(true) && |heads| == 0 ==> close == SkipFrom(s.tokens, old(s.pos), true)
    ensures r == Returns(true) ==> ArgumentListAt(env, s.tokens, old(s.pos), heads, args, ellipsis, close)
  {
    r, args, ellipsis, heads, close := ReadArgumentList(s, env);
  }

  /** ReadArguments' loop, which states where the list ends by its ghost result `close`. */
  method ReadArgumentList(s: TokenStream, env: TypeEnv) returns (r: Exec<bool>, args: seq<Node>, ellipsis: bool, ghost heads: seq<nat>, ghost close: nat)
    requires s.pos <= |s.tokens|
    modifies s
    ensures r.Returns? ==> old(s.pos) <= s.pos <= |s.tokens|
    ensures r == Returns(true) ==> old(s.pos) <= close < |s.tokens| && s.pos == close + 1
    ensures r == Returns(true) ==> s.tokens[close].kind == (if ellipsis then Ellipsis else CloseParen)
    ensures r == Returns(true) ==> ArgumentsListed(env, s.tokens, heads, args)
    ensures r == Returns(true) && |heads| > 0 ==> heads[0] == SkipFrom(s.tokens, old(s.pos), true)
    ensures r == Returns(true) && |heads| == 0 ==> close == SkipFrom(s.tokens, old(s.pos), true)
  {
    args, ellipsis, heads, close := [], false, [], 0;
    while true
      invariant old(s.pos) <= s.pos <= |s.tokens|
      invariant ArgumentsListed(env, s.tokens, heads, args)
      invariant |heads| > 0 ==> heads[0] == SkipFrom(s.tokens, old(s.pos), true) && heads[|heads| - 1] < s.pos
      invariant |heads| == 0 ==> s.pos == old(s.pos)
      decreases |s.tokens| - s.pos
    {
      var step, at, end := ReadArgumentsStep(s, env);
      if step.Undefined? {
        return Undefined, args, ellipsis, heads, close;
      }
      match step.value
      case ArgumentsFailed =>
        return Returns(false), args, ellipsis, heads, close;
      case ListEnd(e) =>
        return Returns(true), args, e, heads, end;
      case NextArgument(arg, last) =>
        ArgumentsGrow(env, s.tokens, heads, args, at, arg);
        args, heads := args + [arg], heads + [at];
        if last {
          return Returns(true), args, ellipsis, heads, end;
        }
    }
  }

  /** What reading one step of an argument list came to: its end (by `...` or not), an argument (the last, before `)`, or not), or an error. */
  datatype ArgumentsStep = ListEnd(ellipsis: bool) | NextArgument(arg: Node, last: bool) | ArgumentsFailed

  /**
   * One step of an argument list: `)`, `...`, or an argument and the `,` or
   * `)` after it; `at` is where the step's first token is, `end` where its
   * last one is.
   */
  method ReadArgumentsStep(s: TokenStream, env: TypeEnv) returns (r: Exec<ArgumentsStep>, ghost at: nat, ghost end: nat)
    requires s.pos <= |s.tokens|
    modifies s
    ensures r.Returns? ==> old(s.pos) <= s.pos <= |s.tokens|
    ensures at == SkipFrom(s.tokens, old(s.pos), true)
    ensures r.Returns? && !r.value.ArgumentsFailed? ==> at <= end < |s.tokens| && s.pos == end + 1
    ensures r.Returns? && r.value.ListEnd? ==> end == at && s.tokens[at].kind == (if r.value.ellipsis then Ellipsis else CloseParen)
    ensures r.Returns? && r.value.NextArgument? ==>
      && at < |s.tokens| && ArgumentIs(env, s.tokens, at, r.value.arg)
      && s.tokens[end].kind == (if r.value.last then CloseParen else Comma)
  {
    var ok, token;
    ok, token, at := SkipAndExpectWhere(s, DefaultToken, {CloseParen, Ellipsis, Identifier}, true);
    end := at;
    if !ok {
      return Returns(ArgumentsFailed), at, end;
    }
    if token.kind != Identifier {
      return Returns(ListEnd(token.kind == Ellipsis)), at, end;
    }
    var arg;
    arg, token, end := ReadArgument(s, env, token, at);
    if arg.Undefined? {
      return Undefined, at, end;
    }
    if arg.value.None? {
      return Returns(ArgumentsFailed), at, end;
    }
    return Returns(NextArgument(arg.value.value, token.kind == CloseParen)), at, end;
  }

  /**
   * What follows a method's argument list: an optional `const` (written in
   * lower case), then `;` for a method without a body, or the `{ … }` body.
   * After the body's `}` the cursor steps over one more token.
   */
  method ReadMethodTail(s: TokenStream, flags: seq<string>)
    returns (ok: bool, newFlags: seq<string>, body: seq<Token>, ghost curly: bool, ghost open: nat, ghost close: nat)
    requires s.pos <= |s.tokens|
    modifies s
    ensures old(s.pos) <= s.pos <= |s.tokens| + 1
    ensures newFlags == flags || newFlags == flags + ["const"]
    ensures ok ==> old(s.pos) < s.pos
    ensures ok ==> OpenerAt(s.tokens, old(s.pos), flags, newFlags)
    ensures ok ==> |body| < |s.tokens|
    ensures var j := SkipFrom(s.tokens, old(s.pos), true);
      j < |s.tokens| && s.tokens[j].kind == Identifier && s.tokens[j].value != "const" ==> !ok
    ensures ok && curly ==> s.pos == close + 2 && Enclosed(s.tokens, open, close, body)
    ensures ok && !curly ==> body == [] && 0 < s.pos <= |s.tokens| && s.tokens[s.pos - 1].kind == Semicolon
  {
    body, curly, open, close := [], false, 0, 0;
    var token;
    ok, newFlags, token := ReadMethodOpener(s, flags);
    if !ok {
      return;
    }
    if token.kind == Semicolon {
      return;
    }
    ok, body, curly, open, close := ReadMethodBody(s, token);
  }

  /**
   * After the blanks from `i` comes the `const` flag, a `{` or a `;`, and
   * `newFlags` adds "const" to `flags` exactly when it was the flag.
   */
  predicate OpenerAt(ts: seq<Token>, i: nat, flags: seq<string>, newFlags: seq<string>)
    requires i <= |ts|
  {
    var j := SkipFrom(ts, i, true);
    && j < |ts|
    && ts[j].kind in {Identifier, OpenCurly, Semicolon}
    && (newFlags == flags + ["const"] <==> ts[j].kind == Identifier)
  }

  /** The `const` flag, if any, and the `{` or `;` that opens or ends a method's body. */
  method ReadMethodOpener(s: TokenStream, flags: seq<string>) returns (ok: bool, newFlags: seq<string>, token: Token)
    requires s.pos <= |s.tokens|
    modifies s
    ensures old(s.pos) <= s.pos <= |s.tokens| + 1
    ensures newFlags == flags || newFlags == flags + ["const"]
    ensures ok ==> old(s.pos) < s.pos && s.pos <= |s.tokens|
    ensures ok ==> s.tokens[s.pos - 1] == token && token.kind in {OpenCurly, Semicolon}
    ensures ok ==> OpenerAt(s.tokens, old(s.pos), flags, newFlags)
    ensures var j := SkipFrom(s.tokens, old(s.pos), true);
      j < |s.tokens| && s.tokens[j].kind == Identifier && s.tokens[j].value != "const" ==> !ok
  {
    newFlags := flags;
    SkipBlanks(s, true);
    ghost var j := s.pos;
    assert flags != flags + ["const"] by {
      assert |flags + ["const"]| == |flags| + 1;
    }
    ok, token := s.ExpectToken(DefaultToken, {Identifier, OpenCurly, Semicolon});
    if !ok {
      return;
    }
    assert token == s.tokens[j] && s.pos == j + 1;
    if token.kind == Identifier {
      if token.value != "const" {
        return false, newFlags, token;
      }
      newFlags := flags + ["const"];
      ok, token := SkipAndExpect(s, token, {OpenCurly, Semicolon}, true);
    }
  }

  /** The body of a method whose `{` or `;`, `token`, was just read; a `;` leaves it without one. */
  method ReadMethodBody(s: TokenStream, token: Token) returns (ok: bool, body: seq<Token>, ghost curly: bool, ghost open: nat, ghost close: nat)
    requires 0 < s.pos <= |s.tokens| && s.tokens[s.pos - 1] == token && token.kind in {OpenCurly, Semicolon}
    modifies s
    ensures old(s.pos) <= s.pos <= |s.tokens| + 1
    ensures token.kind == Semicolon ==> ok && !curly && body == [] && s.pos == old(s.pos)
    ensures ok ==> |body| < |s.tokens|
    ensures ok && curly ==> s.pos == close + 2 && Enclosed(s.tokens, open, close, body)
    ensures ok && !curly ==> body == [] && s.pos == old(s.pos)
    ensures curly <==> token.kind == OpenCurly
  {
    ok, body, curly, open, close := true, [], false, 0, 0;
    if token.kind == OpenCurly {
      curly, open := true, s.pos;
      ok, body, close := ReadEnclosedBody(s);
      if !ok {
        return false, [], curly, open, close;
      }
      s.SetPosition(s.pos + 1);
    }
  }

  // ---------------------------------------------------------------- items

  /** What reading one item of an object body came to. */
  datatype Item = Added(node: Node) | Skipped | Finished | Failed

  /** Return types of a method: one at least, none with dimensions. */
  predicate ReturnTypes(types: seq<CompoundType>) {
    |types| > 0 && BareTypes(types)
  }

  /**
   * A node the field pass adds to an object, apart from nested structs: a
   * field or a method signature with member flags, a constant, a property,
   * or an enum whose children are its values.
   */
  predicate Signature(n: Node) {
    match n
    case FieldNode(_, flags, _, version, _) => MemberFlags(flags) && (version == "" || version == "version")
    case MethodNode(m) =>
      && MemberFlags(m.flags) && (m.version == "" || m.version == "version")
      && ReturnTypes(m.returnTypes) && m.children == []
      && forall k | 0 <= k < |m.arguments| :: Argument(m.arguments[k])
    case ConstantNode(_, children) => |children| == 1 && children[0].ExpressionNode?
    case PropertyNode(_, _) => true
    case EnumNode(_, values, children) => ValuesAsChildren(values, children)
    case _ => false
  }

  /**
   * The flags, version and deprecation note of a field, or the version and
   * deprecation note of a method, are those its flags and annotations from
   * `i` up to `j` give.
   */
  predicate MemberHeaderSays(ts: seq<Token>, i: nat, j: nat, n: Node)
    requires i <= j <= |ts|
  {
    var notes := Strings(ts, i, j);
    match n
    case FieldNode(_, flags, _, version, deprecated) => HeaderSays(ts, i, j, flags, version, deprecated)
    case MethodNode(m) => m.version == AnnotatedVersion(notes) && m.deprecated == Deprecation(notes)
    case _ => false
  }

  /** A node one item of a body of `bound` tokens adds: a signature, or a struct as the top-level pass reads it, with a shorter body. */
  predicate ItemNode(n: Node, bound: nat) {
    || Signature(n)
    || (n.ObjectNode? && !n.decl.isClass && FreshObject(n.decl) && |n.decl.tokens| < bound)
  }

  /** A member of an object once the field pass is done: a signature, or a struct whose members are all done too. */
  predicate Member(n: Node)
    decreases n
  {
    || Signature(n)
    || (n.ObjectNode? && !n.decl.isClass && forall k | 0 <= k < |n.decl.children| :: Member(n.decl.children[k]))
  }

  /** A field after its name, `token` being the `[`, `;` or `=` read after the name. The first type gets the dimensions; a field may not list several types. */
  method ReadField(s: TokenStream, token: Token, flags: seq<string>, types: seq<CompoundType>, name: string, version: string, deprecated: string)
    returns (r: Exec<Item>, ghost dims: seq<Option<Expr>>, ghost starts: seq<nat>)
    requires s.pos <= |s.tokens| && token.kind in {OpenSquare, Semicolon, OpAssign}
    requires MemberFlags(flags) && (version == "" || version == "version") && |types| > 0
    modifies s
    ensures r.Returns? ==> old(s.pos) <= s.pos <= |s.tokens|
    ensures r.Returns? && r.value.Added? ==> r.value.node.FieldNode? && Signature(r.value.node)
    ensures r.Returns? && r.value.Added? ==> r.value.node.identifier == name && r.value.node.flags == flags && |types| == 1
    ensures r.Returns? && r.value.Added? ==> r.value.node.version == version && r.value.node.deprecated == deprecated
    ensures r.Returns? ==> r.value.Added? || r.value.Failed?
    ensures r.Returns? && r.value.Added? ==> r.value.node.fieldType == types[0].(arrayDimensions := dims)
    ensures r.Returns? && r.value.Added? ==> DimensionsAt(s.tokens, starts, dims)
    ensures r.Returns? && r.value.Added? ==> (dims == [] <==> token.kind != OpenSquare)
    ensures r.Returns? && r.value.Added? && token.kind == OpenSquare ==> starts[0] == old(s.pos)
  {
    var ds: seq<Option<Expr>> := [];
    dims, starts := [], [];
    var next := token;
    if token.kind == OpenSquare {
      var read;
      read, ds, next, starts := ReadDimensions(s);
      dims := ds;
      if read.Undefined? {
        r := Undefined; return;
      }
      if !read.value {
        r := Returns(Failed); return;
      }
    }
    var tail := ReadFieldTail(s, next);
    if tail.Undefined? {
      r := Undefined; return;
    }
    if !tail.value || |types| > 1 {
      r := Returns(Failed); return;
    }
    var fieldType := types[0].(arrayDimensions := ds);
    r := Returns(Added(FieldNode(name, flags, fieldType, version, deprecated)));
  }

  /**
   * A method after its `(`: the arguments, then the tail; the body's tokens
   * are kept for the method pass. `heads` are where the arguments begin and
   * `argsEnd` is where the `)` or `...` that ends them is.
   */
  method ReadMethod(s: TokenStream, env: TypeEnv, flags: seq<string>, types: seq<CompoundType>, name: string, version: string, deprecated: string)
    returns (r: Exec<Item>, ghost heads: seq<nat>, ghost argsEnd: nat)
    requires s.pos <= |s.tokens|
    requires MemberFlags(flags) && (version == "" || version == "version") && ReturnTypes(types)
    modifies s
    ensures r.Returns? ==> old(s.pos) <= s.pos <= |s.tokens| + 1
    ensures r.Returns? && r.value.Added? ==> old(s.pos) < s.pos && r.value.node.MethodNode? && Signature(r.value.node)
    ensures r.Returns? && r.value.Added? ==> r.value.node.methodDecl.identifier == name && r.value.node.methodDecl.returnTypes == types
    ensures r.Returns? && r.value.Added? ==>
      r.value.node.methodDecl.version == version && r.value.node.methodDecl.deprecated == deprecated
    ensures r.Returns? && r.value.Added? ==>
      ArgumentListAt(env, s.tokens, old(s.pos), heads, r.value.node.methodDecl.arguments, r.value.node.methodDecl.hasEllipsis, argsEnd)
    ensures r.Returns? && r.value.Added? ==> OpenerAt(s.tokens, argsEnd + 1, flags, r.value.node.methodDecl.flags)
    ensures r.Returns? ==> r.value.Added? || r.value.Failed?
  {
    var read, args, ellipsis, newFlags, body;
    read, args, ellipsis, newFlags, body, heads, argsEnd := ReadMethodParts(s, env, flags);
    if read.Undefined? {
      return Undefined, heads, argsEnd;
    }
    if !read.value {
      return Returns(Failed), heads, argsEnd;
    }
    r := Returns(Added(MethodNode(MethodDecl(name, newFlags, types, args, version, deprecated, ellipsis, body, []))));
  }

  /** What a method declaration reads after its `(`: the arguments, then the flags and body ReadMethodTail reads. */
  method ReadMethodParts(s: TokenStream, env: TypeEnv, flags: seq<string>)
    returns (r: Exec<bool>, args: seq<Node>, ellipsis: bool, newFlags: seq<string>, body: seq<Token>, ghost heads: seq<nat>, ghost argsEnd: nat)
    requires s.pos <= |s.tokens|
    modifies s
    ensures r.Returns? ==> old(s.pos) <= s.pos <= |s.tokens| + 1
    ensures r == Returns(true) ==> old(s.pos) < s.pos && (newFlags == flags || newFlags == flags + ["const"])
    ensures r == Returns(true) ==> forall k | 0 <= k < |args| :: Argument(args[k])
    ensures r == Returns(true) ==> ArgumentListAt(env, s.tokens, old(s.pos), heads, args, ellipsis, argsEnd)
    ensures r == Returns(true) ==> OpenerAt(s.tokens, argsEnd + 1, flags, newFlags)
  {
    newFlags, body := flags, [];
    r, args, ellipsis, heads, argsEnd := ReadArguments(s, env);
    if r != Returns(true) {
      return;
    }
    var ok;
    ok, newFlags, body := ReadMethodEnd(s, flags);
    r := Returns(ok);
  }

  /** ReadMethodTail, for a caller that needs only the flags it settles. */
  method ReadMethodEnd(s: TokenStream, flags: seq<string>) returns (ok: bool, newFlags: seq<string>, body: seq<Token>)
    requires s.pos <= |s.tokens|
    modifies s
    ensures old(s.pos) <= s.pos <= |s.tokens| + 1
    ensures newFlags == flags || newFlags == flags + ["const"]
    ensures ok ==> old(s.pos) < s.pos && OpenerAt(s.tokens, old(s.pos), flags, newFlags)
  {
    ghost var curly, open, close;
    ok, newFlags, body, curly, open, close := ReadMethodTail(s, flags);
  }

  /**
   * A field or a method: flags, types and name, then `(` for a method, or
   * `[`, `;` or `=` for a field. When there is nothing left to read, the
   * whole body is Finished.
   */
  method ParseMember(s: TokenStream, env: TypeEnv) returns (r: Exec<Item>, ghost flagsEnd: nat)
    requires s.pos <= |s.tokens|
    modifies s
    ensures r.Returns? && r.value.Added? ==>
      old(s.pos) <= flagsEnd <= |s.tokens| && MemberHeaderSays(s.tokens, old(s.pos), flagsEnd, r.value.node)
    ensures r.Returns? ==> old(s.pos) <= s.pos <= |s.tokens| + 1
    ensures r.Returns? && r.value.Added? ==> old(s.pos) < s.pos && Signature(r.value.node)
    ensures r.Returns? && r.value.Added? ==> r.value.node.FieldNode? || r.value.node.MethodNode?
    ensures r.Returns? ==> !r.value.Skipped?
    ensures r == Returns(Finished) ==> SkipFrom(s.tokens, old(s.pos), true) == |s.tokens|
  {
    var flagsRead, flags, version, deprecated := ReadFlags(s);
    flagsEnd := s.pos;
    if flagsRead == NothingRead {
      return Returns(Finished), flagsEnd;
    }
    if flagsRead == FlagsFailed {
      return Returns(Failed), flagsEnd;
    }
    var ok, types, name, nameAt := ReadTypes(s, env);
    if !ok {
      return Returns(Failed), flagsEnd;
    }
    SkipBlanks(s, true);
    var token;
    ok, token := SkipAndExpect(s, name, {OpenParen, Semicolon, OpenSquare, OpAssign}, true);
    if !ok {
      return Returns(Failed), flagsEnd;
    }
    if token.kind == OpenParen {
      ghost var heads, argsEnd;
      r, heads, argsEnd := ReadMethod(s, env, flags, types, name.value, version, deprecated);
    } else {
      ghost var dims, starts;
      r, dims, starts := ReadField(s, token, flags, types, name.value, version, deprecated);
    }
  }

  /** A property's field names and where its closing `;` lies. */
  datatype FieldsRead = FieldsRead(fields: seq<string>, semicolon: nat)

  /**
   * The field names of a property from `i`, the names `acc` already read:
   * a `;` ends the list; otherwise an identifier comes next, or, when a name
   * was just read (`named`), a `,`. Blanks, newlines included, may come
   * between.
   */
  function PropertyFieldsFrom(ts: seq<Token>, i: nat, acc: seq<string>, named: bool): (r: Option<FieldsRead>)
    requires i <= |ts|
    ensures r.Some? ==> i <= r.value.semicolon < |ts| && ts[r.value.semicolon].kind == Semicolon
    ensures r.Some? ==> acc <= r.value.fields
    decreases |ts| - i
  {
    if i < |ts| && Skippable(ts[i].kind, true) then PropertyFieldsFrom(ts, i + 1, acc, named)
    else if i == |ts| then None
    else if ts[i].kind == Semicolon then Some(FieldsRead(acc, i))
    else if !named && ts[i].kind == Identifier then PropertyFieldsFrom(ts, i + 1, acc + [ts[i].value], true)
    else if named && ts[i].kind == Comma then PropertyFieldsFrom(ts, i + 1, acc, false)
    else None
  }

  /** Blanks before an entry of the list change nothing. */
  lemma {:induction false} PropertyFieldsSkip(ts: seq<Token>, i: nat, acc: seq<string>, named: bool)
    requires i <= |ts|
    ensures PropertyFieldsFrom(ts, i, acc, named) == PropertyFieldsFrom(ts, SkipFrom(ts, i, true), acc, named)
    decreases |ts| - i
  {
    if i < |ts| && Skippable(ts[i].kind, true) {
      PropertyFieldsSkip(ts, i + 1, acc, named);
    }
  }

  /** The texts of the identifiers among the tokens from `lo` up to `hi`, in order. */
  function IdentifierTexts(ts: seq<Token>, lo: nat, hi: nat): (r: seq<string>)
    requires lo <= hi <= |ts|
    ensures |r| <= hi - lo
    decreases hi - lo
  {
    if lo == hi then []
    else (if ts[lo].kind == Identifier then [ts[lo].value] else []) + IdentifierTexts(ts, lo + 1, hi)
  }

  /** The fields of a property are exactly the identifiers before its `;`, in the order written. */
  lemma {:induction false} PropertyFieldsAreIdentifiers(ts: seq<Token>, i: nat, acc: seq<string>, named: bool)
    requires i <= |ts|
    ensures PropertyFieldsFrom(ts, i, acc, named).Some? ==> var r := PropertyFieldsFrom(ts, i, acc, named).value;
      r.fields == acc + IdentifierTexts(ts, i, r.semicolon)
    decreases |ts| - i
  {
    if i < |ts| && Skippable(ts[i].kind, true) {
      PropertyFieldsAreIdentifiers(ts, i + 1, acc, named);
      TextsStepOver(ts, i, PropertyFieldsFrom(ts, i, acc, named));
    } else if i < |ts| && named && ts[i].kind == Comma {
      PropertyFieldsAreIdentifiers(ts, i + 1, acc, false);
      TextsStepOver(ts, i, PropertyFieldsFrom(ts, i, acc, named));
    } else if i < |ts| && !named && ts[i].kind == Identifier {
      PropertyFieldsAreIdentifiers(ts, i + 1, acc + [ts[i].value], true);
    }
  }

  /** A token other than an identifier, before the `;`, adds no text. */
  lemma TextsStepOver(ts: seq<Token>, i: nat, r: Option<FieldsRead>)
    requires i < |ts| && ts[i].kind != Identifier
    requires r.Some? ==> i < r.value.semicolon <= |ts|
    ensures r.Some? ==> IdentifierTexts(ts, i, r.value.semicolon) == IdentifierTexts(ts, i + 1, r.value.semicolon)
  {
  }

  /** `a, b;` lists two fields, `;` none, and `a,;` one: the comma before the `;` is allowed. */
  lemma PropertyFieldsExamples(a: Token, b: Token, comma: Token, semi: Token)
    requires a.kind == Identifier && b.kind == Identifier && comma.kind == Comma && semi.kind == Semicolon
    ensures PropertyFieldsFrom([a, comma, b, semi], 0, [], false) == Some(FieldsRead([a.value, b.value], 3))
    ensures PropertyFieldsFrom([semi], 0, [], false) == Some(FieldsRead([], 0))
    ensures PropertyFieldsFrom([a, comma, semi], 0, [], false) == Some(FieldsRead([a.value], 2))
    ensures PropertyFieldsFrom([a, b, semi], 0, [], false) == None
  {
    var ts := [a, comma, b, semi];
    assert PropertyFieldsFrom(ts, 3, [a.value, b.value], true) == Some(FieldsRead([a.value, b.value], 3));
    assert [a.value] + [ts[2].value] == [a.value, b.value];
    assert PropertyFieldsFrom(ts, 2, [a.value], false) == PropertyFieldsFrom(ts, 3, [a.value, b.value], true);
    assert PropertyFieldsFrom(ts, 1, [a.value], true) == PropertyFieldsFrom(ts, 2, [a.value], false);
    assert [] + [ts[0].value] == [a.value];
    assert PropertyFieldsFrom(ts, 0, [], false) == PropertyFieldsFrom(ts, 1, [a.value], true);
    var us := [a, comma, semi];
    assert PropertyFieldsFrom(us, 2, [a.value], false) == Some(FieldsRead([a.value], 2));
    assert PropertyFieldsFrom(us, 1, [a.value], true) == PropertyFieldsFrom(us, 2, [a.value], false);
    assert [] + [us[0].value] == [a.value];
    assert PropertyFieldsFrom(us, 0, [], false) == PropertyFieldsFrom(us, 1, [a.value], true);
  }

  /**
   * The field names of a property, its `:` just read: identifiers separated
   * by commas up to the `;`. The list may be empty, and a comma may come
   * right before the `;`.
   */
  method ReadPropertyFields(s: TokenStream) returns (ok: bool, fields: seq<string>)
    requires s.pos <= |s.tokens|
    modifies s
    ensures old(s.pos) <= s.pos <= |s.tokens|
    ensures ok ==> old(s.pos) < s.pos && s.tokens[s.pos - 1].kind == Semicolon
    ensures ok <==> PropertyFieldsFrom(s.tokens, old(s.pos), [], false).Some?
    ensures ok ==> PropertyFieldsFrom(s.tokens, old(s.pos), [], false) == Some(FieldsRead(fields, s.pos - 1))
  {
    fields := [];
    var token := DefaultToken;
    while true
      invariant old(s.pos) <= s.pos <= |s.tokens|
      invariant PropertyFieldsFrom(s.tokens, old(s.pos), [], false) == PropertyFieldsFrom(s.tokens, s.pos, fields, false)
      decreases |s.tokens| - s.pos
    {
      var done;
      ok, done, token, fields := ReadPropertyEntry(s, token, fields, false);
      if !ok || done {
        return;
      }
      ok, done, token, fields := ReadPropertyEntry(s, token, fields, true);
      if !ok || done {
        return;
      }
    }
  }

  /**
   * One entry of a property's field list: a name, or after a name
   * (`named`) a `,`; the `;` ends the list (`done`) either way.
   */
  method ReadPropertyEntry(s: TokenStream, prev: Token, fields: seq<string>, named: bool)
    returns (ok: bool, done: bool, token: Token, next: seq<string>)
    requires s.pos <= |s.tokens|
    modifies s
    ensures old(s.pos) <= s.pos <= |s.tokens|
    ensures !ok ==> PropertyFieldsFrom(s.tokens, old(s.pos), fields, named).None?
    ensures ok ==> old(s.pos) < s.pos
    ensures ok && done ==> PropertyFieldsFrom(s.tokens, old(s.pos), fields, named) == Some(FieldsRead(fields, s.pos - 1))
    ensures ok && done ==> next == fields && s.tokens[s.pos - 1].kind == Semicolon
    ensures ok && !done ==> PropertyFieldsFrom(s.tokens, old(s.pos), fields, named) == PropertyFieldsFrom(s.tokens, s.pos, next, !named)
  {
    PropertyFieldsSkip(s.tokens, s.pos, fields, named);
    ghost var at;
    ok, token, at := SkipAndExpectWhere(s, prev, if named then {Comma, Semicolon} else {Identifier, Semicolon}, true);
    done := ok && token.kind == Semicolon;
    next := if ok && !done && !named then fields + [token.value] else fields;
  }

  /** A property and the `;` that ends it. */
  datatype PropertyRead = PropertyRead(node: Node, semicolon: nat)

  /** A property's name and where the `:` after it lies. */
  datatype PropertyHead = PropertyHead(name: string, colon: nat)

  /** The start of the property whose keyword is at `i`: its name, then a `:`, blanks anywhere between. */
  function PropertyHeadAt(ts: seq<Token>, i: nat): (r: Option<PropertyHead>)
    requires i < |ts|
    ensures r.Some? ==> i < r.value.colon < |ts| && ts[r.value.colon].kind == Colon
  {
    var n := SkipFrom(ts, i + 1, true);
    if n == |ts| || ts[n].kind != Identifier then None
    else
      var c := SkipFrom(ts, n + 1, true);
      if c == |ts| || ts[c].kind != Colon then None
      else Some(PropertyHead(ts[n].value, c))
  }

  /** The property whose keyword is at `i`: `property name : fields ;`. */
  function PropertyAt(ts: seq<Token>, i: nat): (r: Option<PropertyRead>)
    requires i < |ts|
    ensures r.Some? ==> r.value.node.PropertyNode? && i < r.value.semicolon < |ts|
  {
    match PropertyHeadAt(ts, i)
    case None => None
    case Some(h) =>
      match PropertyFieldsFrom(ts, h.colon + 1, [], false)
      case None => None
      case Some(f) => Some(PropertyRead(PropertyNode(h.name, f.fields), f.semicolon))
  }

  /** A property, the cursor on its keyword: `property name : fields ;`. */
  method ReadProperty(s: TokenStream) returns (r: Item)
    requires s.pos < |s.tokens|
    modifies s
    ensures old(s.pos) <= s.pos <= |s.tokens|
    ensures r.Added? ==> old(s.pos) < s.pos && r.node.PropertyNode?
    ensures r.Added? || r.Failed?
    ensures r.Added? <==> PropertyAt(s.tokens, old(s.pos)).Some?
    ensures r.Added? ==> PropertyAt(s.tokens, old(s.pos)) == Some(PropertyRead(r.node, s.pos - 1))
  {
    ghost var at := s.pos;
    var ok, name := ReadPropertyHead(s);
    if !ok {
      return Failed;
    }
    var fields;
    ok, fields := ReadPropertyFields(s);
    if !ok {
      return Failed;
    }
    r := Added(PropertyNode(name, fields));
    assert PropertyAt(s.tokens, at) == Some(PropertyRead(r.node, s.pos - 1));
  }

  /** A property's keyword, name and `:`, the cursor on the keyword. */
  method ReadPropertyHead(s: TokenStream) returns (ok: bool, name: string)
    requires s.pos < |s.tokens|
    modifies s
    ensures old(s.pos) <= s.pos <= |s.tokens|
    ensures ok <==> PropertyHeadAt(s.tokens, old(s.pos)).Some?
    ensures ok ==> old(s.pos) < s.pos
    ensures ok ==> PropertyHeadAt(s.tokens, old(s.pos)) == Some(PropertyHead(name, s.pos - 1))
  {
    s.SetPosition(s.pos + 1);
    var token, colon; ghost var at;
    ok, token, at := SkipAndExpectWhere(s, DefaultToken, {Identifier}, true);
    name := token.value;
    if !ok {
      return;
    }
    ok, colon, at := SkipAndExpectWhere(s, token, {Colon}, true);
  }

  /**
   * A `default` or `states` section, the cursor on its keyword: its
   * `{ … }` block is stepped over unread, up to the `}` that closes it.
   */
  method SkipSection(s: TokenStream) returns (r: Item)
    requires s.pos < |s.tokens|
    modifies s
    ensures old(s.pos) <= s.pos <= |s.tokens|
    ensures r.Skipped? ==> old(s.pos) < s.pos && s.tokens[s.pos - 1].kind == CloseCurly
    ensures r.Skipped? || r.Failed?
  {
    s.SetPosition(s.pos + 1);
    var ok, token := SkipAndExpect(s, DefaultToken, {OpenCurly}, true);
    if !ok {
      return Failed;
    }
    ok := SkipBlockBody(s);
    return if ok then Skipped else Failed;
  }

  /** The inside of a skipped section's block, its `{` just read, and the `}` that closes it. */
  method SkipBlockBody(s: TokenStream) returns (ok: bool)
    requires s.pos <= |s.tokens|
    modifies s
    ensures old(s.pos) <= s.pos <= |s.tokens|
    ensures ok ==> old(s.pos) < s.pos && s.tokens[s.pos - 1].kind == CloseCurly
  {
    SkipBlanks(s, true);
    var consumed, skipped := ConsumeTokens(s, {CloseCurly});
    var token;
    ok, token := SkipAndExpect(s, DefaultToken, {CloseCurly}, true);
  }

  /**
   * One item of an object body, the cursor on its first token, which is not
   * blank: the lower-cased text of that token picks a nested enum or
   * struct, a constant (read by `constant` from the keyword on), a
   * property, a skipped section, or else a field or method.
   */
  method ParseItem(s: TokenStream, env: TypeEnv, constant: ConstantReader) returns (r: Exec<Item>)
    requires s.pos < |s.tokens| && !Skippable(s.tokens[s.pos].kind, true)
    requires Advances(constant)
    modifies s
    ensures r.Returns? ==> old(s.pos) <= s.pos <= |s.tokens| + 1
    ensures r.Returns? && (r.value.Added? || r.value.Skipped?) ==> old(s.pos) < s.pos
    ensures r.Returns? && r.value.Added? ==> ItemNode(r.value.node, |s.tokens|)
    ensures r.Returns? ==> !r.value.Finished?
  {
    var word := Lower(s.tokens[s.pos].value);
    if word == "enum" {
      s.SetPosition(s.pos + 1);
      var e, at := ParseEnum(s);
      if e.Undefined? {
        return Undefined;
      }
      return Returns(if e.value.Some? then Added(e.value.value) else Failed);
    } else if word == "struct" {
      s.SetPosition(s.pos + 1);
      var struc, flagsAt, open, close := ParseStruct(s);
      return Returns(if struc.Some? then Added(ObjectNode(struc.value)) else Failed);
    } else if word == "const" {
      var read := constant(s.tokens, s.pos);
      if read.None? {
        return Returns(Failed);
      }
      s.SetPosition(read.value.2);
      return Returns(Added(ConstantNode(read.value.0, [ExpressionNode(read.value.1)])));
    } else if word == "property" {
      var item := ReadProperty(s);
      return Returns(item);
    } else if word == "default" || word == "states" {
      var item := SkipSection(s);
      return Returns(item);
    }
    ghost var flagsEnd;
    r, flagsEnd := ParseMember(s, env);
  }

  /**
   * The items of an object body from the cursor to its end. `finished` is
   * set when an item found nothing left to read, which ends the pass at
   * once; since every item starts on a solid token, that never happens.
   */
  method ReadItems(s: TokenStream, env: TypeEnv, constant: ConstantReader)
    returns (r: Exec<bool>, children: seq<Node>, finished: bool)
    requires s.pos <= |s.tokens|
    requires Advances(constant)
    modifies s
    ensures r == Returns(true) ==> forall k | 0 <= k < |children| :: ItemNode(children[k], |s.tokens|)
    ensures !finished
    ensures r == Returns(true) ==> s.pos >= |s.tokens|
    ensures SkipFrom(s.tokens, old(s.pos), true) == |s.tokens| ==> r == Returns(true) && children == []
  {
    children, finished := [], false;
    ghost var first := true;
    while true
      invariant s.pos <= |s.tokens| + 1
      invariant forall k | 0 <= k < |children| :: ItemNode(children[k], |s.tokens|)
      invariant first ==> s.pos == old(s.pos) && children == []
      invariant !first ==> SkipFrom(s.tokens, old(s.pos), true) < |s.tokens|
      decreases |s.tokens| + 1 - s.pos
    {
      var skipped := SkipWhitespace(s, true);
      if s.pos >= |s.tokens| {
        return Returns(true), children, finished;
      }
      var item := ParseItem(s, env, constant);
      first := false;
      if item.Undefined? {
        return Undefined, children, finished;
      }
      match item.value
      case Failed =>
        return Returns(false), children, finished;
      case Finished =>
        finished := true;
        return Returns(true), children, finished;
      case Skipped =>
      case Added(n) =>
        children := children + [n];
    }
  }

  // ---------------------------------------------------------------- the pass

  /**
   * The field pass over one class or struct, fresh from the top-level pass:
   * its body is read into members, then every nested struct gets the same
   * pass. A failing nested struct makes the result false, but the other
   * nested structs are still read. Only the children of the object change.
   */
  method ParseObjectFields(decl: ObjectDecl, env: TypeEnv, constant: ConstantReader) returns (r: Exec<bool>, result: ObjectDecl)
    requires decl.children == []
    requires Advances(constant)
    ensures r.Returns? ==> result == decl.(children := result.children)
    ensures r == Returns(true) ==> forall k | 0 <= k < |result.children| :: Member(result.children[k])
    ensures SkipFrom(decl.tokens, 0, true) == |decl.tokens| ==> r == Returns(true) && result == decl
    decreases |decl.tokens|, 1
  {
    var s := new TokenStream(decl.tokens);
    var read, items, finished := ReadItems(s, env, constant);
    result := decl.(children := items);
    if read != Returns(true) || finished {
      return read, result;
    }
    var children;
    r, children := ParseNested(items, env, constant, |decl.tokens|);
    result := decl.(children := children);
  }

  /** The field pass over the nested structs among `items`; the other items stay as they are. */
  method ParseNested(items: seq<Node>, env: TypeEnv, constant: ConstantReader, bound: nat) returns (r: Exec<bool>, children: seq<Node>)
    requires forall k | 0 <= k < |items| :: ItemNode(items[k], bound)
    requires Advances(constant)
    ensures r.Returns? ==> |children| == |items|
    ensures r.Returns? ==> forall k | 0 <= k < |items| && !items[k].ObjectNode? :: children[k] == items[k]
    ensures r.Returns? ==> forall k | 0 <= k < |items| && items[k].ObjectNode? ::
      children[k].ObjectNode? && children[k].decl == items[k].decl.(children := children[k].decl.children)
    ensures r == Returns(true) ==> forall k | 0 <= k < |children| :: Member(children[k])
    ensures (forall k | 0 <= k < |items| :: !items[k].ObjectNode?) ==> r == Returns(true) && children == items
    decreases bound, 0
  {
    children := [];
    var allOk := true;
    for k := 0 to |items|
      invariant |children| == k
      invariant (forall j | 0 <= j < |items| :: !items[j].ObjectNode?) ==> allOk && children == items[..k]
      invariant forall j | 0 <= j < k && !items[j].ObjectNode? :: children[j] == items[j]
      invariant forall j | 0 <= j < k && items[j].ObjectNode? ::
        children[j].ObjectNode? && children[j].decl == items[j].decl.(children := children[j].decl.children)
      invariant allOk ==> forall j | 0 <= j < k :: Member(children[j])
    {
      var child := items[k];
      if child.ObjectNode? {
        var sub, decl := ParseObjectFields(child.decl, env, constant);
        if sub.Undefined? {
          return Undefined, children;
        }
        allOk := allOk && sub.value;
        child := ObjectNode(decl);
      }
      children := children + [child];
    }
    r := Returns(allOk);
  }
}
