// The parser's entry point: comment stripping, then the top-level pass,
// the field pass and the method pass over every class and struct.

module Parsing {
  import opened Tokens
  import opened TokenStreams
  import opened Ast
  import opened Declarations
  import opened Fields
  import opened Statements

  predicate IsComment(t: Token) {
    t.kind == LineComment || t.kind == BlockComment
  }

  /** The tokens of `ts` that are not comments, in order. */
  function CodeTokens(ts: seq<Token>): (r: seq<Token>)
    ensures |r| <= |ts|
    ensures forall k | 0 <= k < |r| :: !IsComment(r[k])
  {
    if ts == [] then []
    else CodeTokens(ts[..|ts| - 1]) + (if IsComment(ts[|ts| - 1]) then [] else [ts[|ts| - 1]])
  }

  /** The comments of `ts`, in order. */
  function CommentTokens(ts: seq<Token>): (r: seq<Token>)
    ensures |r| <= |ts|
    ensures forall k | 0 <= k < |r| :: IsComment(r[k])
  {
    if ts == [] then []
    else CommentTokens(ts[..|ts| - 1]) + (if IsComment(ts[|ts| - 1]) then [ts[|ts| - 1]] else [])
  }

  /** Every token is either kept or handed back as a comment. */
  lemma {:induction false} CodeAndCommentsPartition(ts: seq<Token>)
    ensures |CodeTokens(ts)| + |CommentTokens(ts)| == |ts|
    ensures multiset(CodeTokens(ts)) + multiset(CommentTokens(ts)) == multiset(ts)
    decreases |ts|
  {
    if ts != [] {
      var init, last := ts[..|ts| - 1], ts[|ts| - 1];
      CodeAndCommentsPartition(init);
      PartitionStep(ts);
      InitAndLast(ts);
      if IsComment(last) {
        Regroup(CommentTokens(init), CodeTokens(init), init, last);
      } else {
        Regroup(CodeTokens(init), CommentTokens(init), init, last);
      }
    }
  }

  /** Adding a token to one of two lists that split `init` splits `init + [last]`. */
  lemma Regroup(a: seq<Token>, b: seq<Token>, init: seq<Token>, last: Token)
    requires |a| + |b| == |init| && multiset(a) + multiset(b) == multiset(init)
    ensures |a + [last]| + |b| == |init + [last]|
    ensures multiset(a + [last]) + multiset(b) == multiset(init + [last])
    ensures multiset(b) + multiset(a + [last]) == multiset(init + [last])
  {
    assert multiset(a + [last]) == multiset(a) + multiset{last};
    assert multiset(init + [last]) == multiset(init) + multiset{last};
  }

  lemma InitAndLast(ts: seq<Token>)
    requires ts != []
    ensures ts == ts[..|ts| - 1] + [ts[|ts| - 1]]
  {
  }

  /** The last token goes to exactly one of the two lists. */
  lemma PartitionStep(ts: seq<Token>)
    requires ts != []
    ensures var init, last := ts[..|ts| - 1], ts[|ts| - 1];
      if IsComment(last) then CodeTokens(ts) == CodeTokens(init) && CommentTokens(ts) == CommentTokens(init) + [last]
      else CodeTokens(ts) == CodeTokens(init) + [last] && CommentTokens(ts) == CommentTokens(init)
  {
  }

  /** Stripping the comments of a list without comments leaves it alone. */
  lemma {:induction false} CodeWithoutComments(ts: seq<Token>)
    requires forall k | 0 <= k < |ts| :: !IsComment(ts[k])
    ensures CodeTokens(ts) == ts
    ensures CommentTokens(ts) == []
    decreases |ts|
  {
    if ts != [] {
      var init := ts[..|ts| - 1];
      CodeWithoutComments(init);
      assert ts == init + [ts[|ts| - 1]];
    }
  }

  /** Stripping comments twice is stripping them once. */
  lemma CodeIdempotent(ts: seq<Token>)
    ensures CodeTokens(CodeTokens(ts)) == CodeTokens(ts)
  {
    CodeWithoutComments(CodeTokens(ts));
  }

  /**
   * Takes the comments out of the list in place, walking it with an index
   * that does not move past a removal, and hands them back in order.
   */
  method StripComments(tokens: seq<Token>) returns (code: seq<Token>, comments: seq<Token>)
    ensures code == CodeTokens(tokens)
    ensures comments == CommentTokens(tokens)
  {
    code, comments := tokens, [];
    var i := 0;
    ghost var j := 0;
    while i < |code|
      invariant 0 <= i <= |code| && 0 <= j <= |tokens|
      invariant code[..i] == CodeTokens(tokens[..j])
      invariant code[i..] == tokens[j..]
      invariant comments == CommentTokens(tokens[..j])
      decreases |code| - i
    {
      assert tokens[..j + 1][..j] == tokens[..j];
      assert code[i] == tokens[j];
      if IsComment(code[i]) {
        comments := comments + [code[i]];
        code := code[..i] + code[i + 1..];
      } else {
        assert code[..i + 1] == code[..i] + [code[i]];
        i := i + 1;
      }
      j := j + 1;
      assert code[i..] == tokens[j..];
    }
    assert tokens[j..] == [] && tokens[..j] == tokens;
    assert code[..i] == code;
  }

  /** A top-level node once the field pass is done with it. */
  predicate Fielded(n: Node) {
    || n.IncludeNode?
    || (n.EnumNode? && ValuesAsChildren(n.values, n.children))
    || (n.ObjectNode? && forall k | 0 <= k < |n.decl.children| :: Fields.Member(n.decl.children[k]))
  }

  /**
   * The three passes over the comment-free tokens: the top-level items,
   * the fields of every class and struct, then their method bodies. The
   * first failure ends the run. `fielded` is the tree between the last two
   * passes.
   */
  method RunPasses(code: seq<Token>, env: TypeEnv, constant: ConstantReader)
    returns (r: Exec<bool>, root: seq<Node>, ghost fielded: seq<Node>)
    requires Advances(constant)
    ensures r == Returns(true) ==> |fielded| == |root|
    ensures r == Returns(true) ==> forall k | 0 <= k < |root| :: Fielded(fielded[k]) && Processed(fielded[k], root[k])
  {
    var s := new TokenStream(code);
    var ok, version, children := ParseRoot(s);
    root, fielded := children, children;
    if ok != Returns(true) {
      return ok, root, fielded;
    }
    for k := 0 to |root|
      invariant |root| == |children|
      invariant forall j | 0 <= j < k :: Fielded(root[j])
      invariant forall j | k <= j < |root| :: root[j] == children[j]
    {
      if root[k].ObjectNode? {
        var f, decl := ParseObjectFields(root[k].decl, env, constant);
        if f != Returns(true) {
          return f, root, fielded;
        }
        root := root[k := ObjectNode(decl)];
      }
    }
    fielded := root;
    for k := 0 to |root|
      invariant |root| == |fielded|
      invariant forall j | 0 <= j < k :: Processed(fielded[j], root[j])
      invariant forall j | k <= j < |root| :: root[j] == fielded[j]
    {
      if root[k].ObjectNode? {
        var m, decl := ParseObjectMethods(root[k].decl, env);
        if m != Returns(true) {
          return m, root, fielded;
        }
        root := root[k := ObjectNode(decl)];
      }
    }
    forall k | 0 <= k < |root| && !fielded[k].MethodNode? && !fielded[k].ObjectNode?
      ensures Processed(fielded[k], root[k])
    {
    }
    return Returns(true), root, fielded;
  }

  /**
   * The parser's entry point as written: when every pass succeeds control
   * falls off the end of a function returning a value, which is undefined,
   * so a run never reports success.
   */
  method ParseAsWritten(tokens: seq<Token>, env: TypeEnv, constant: ConstantReader)
    returns (r: Exec<bool>, root: seq<Node>, comments: seq<Token>)
    requires Advances(constant)
    ensures comments == CommentTokens(tokens)
    ensures r.Returns? ==> !r.value
  {
    var code;
    code, comments := StripComments(tokens);
    ghost var fielded;
    r, root, fielded := RunPasses(code, env, constant);
    if r == Returns(true) {
      r := Undefined;
    }
  }

  /** The entry point reporting success once every pass has succeeded. */
  method Parse(tokens: seq<Token>, env: TypeEnv, constant: ConstantReader)
    returns (r: Exec<bool>, root: seq<Node>, comments: seq<Token>, ghost fielded: seq<Node>)
    requires Advances(constant)
    ensures comments == CommentTokens(tokens)
    ensures r == Returns(true) ==> |fielded| == |root|
    ensures r == Returns(true) ==> forall k | 0 <= k < |root| :: Fielded(fielded[k]) && Processed(fielded[k], root[k])
  {
    var code;
    code, comments := StripComments(tokens);
    r, root, fielded := RunPasses(code, env, constant);
  }
}
