// The top-level pass: the `version` statement, `#include` directives, and
// the class, struct and enum declarations. Class and struct bodies are kept
// as token runs for the field and method passes; enum bodies are read here.

module Declarations {
  import opened Tokens
  import opened TokenStreams
  import opened StreamOps
  import opened Ast
  import opened ExpressionParser

  /**
   * `body` is the run from `open` (just after a `{`) up to the `}` at
   * `close` that ends it, with every bracket opened inside closed again.
   */
  predicate Enclosed(ts: seq<Token>, open: nat, close: nat, body: seq<Token>) {
    && 0 < open <= close < |ts|
    && ts[open - 1].kind == OpenCurly
    && ts[close].kind == CloseCurly
    && Consume(ts, open, [], {CloseCurly}) == (close, [])
    && body == ts[open..close]
  }

  /** The first token after the blanks and newlines from `i`, when it is the identifier `word`. */
  predicate SolidWordAt(ts: seq<Token>, i: nat, word: string)
    requires i <= |ts|
  {
    var j := SkipFrom(ts, i, true);
    j < |ts| && ts[j].kind == Identifier && ts[j].value == word
  }

  /** Header flags never include the annotation keywords. */
  predicate PlainFlags(flags: seq<string>) {
    forall f | f in flags :: f != "version" && f != "deprecated"
  }

  /** What a freshly read class or struct header holds, whatever its text. */
  predicate FreshObject(d: ObjectDecl) {
    && d.children == []
    && PlainFlags(d.flags)
    && (d.version == "" || d.version == "version")
  }

  /**
   * The body of an object or a method, the `{` just read: the balanced run up
   * to its `}`, which is read too and must be there.
   */
  method ReadEnclosedBody(s: TokenStream) returns (ok: bool, body: seq<Token>, ghost close: nat)
    requires 0 < s.pos <= |s.tokens| && s.tokens[s.pos - 1].kind == OpenCurly
    modifies s
    ensures old(s.pos) <= s.pos <= |s.tokens|
    ensures ok ==> s.pos == close + 1 && Enclosed(s.tokens, old(s.pos), close, body) && |body| < |s.tokens|
  {
    ghost var p0 := s.pos;
    var consumed, token;
    consumed, body := ConsumeTokens(s, {CloseCurly});
    ConsumeStopsAtDepthZero(s.tokens, p0, [], {CloseCurly});
    close := s.pos;
    ok, token := s.ExpectToken(DefaultToken, {CloseCurly});
  }

  /** No identifier lies between positions `i` and `j`. */
  predicate NoIdentifiers(ts: seq<Token>, i: nat, j: nat)
    requires i <= j <= |ts|
  {
    forall k | i <= k < j :: ts[k].kind != Identifier
  }

  /** The flag each identifier from `i` up to `j` gives, the two annotation keywords giving none. */
  function FlagWords(ts: seq<Token>, i: nat, j: nat): seq<string>
    requires i <= j <= |ts|
    decreases j - i
  {
    if i == j then []
    else
      var t := ts[j - 1];
      FlagWords(ts, i, j - 1) + (if t.kind == Identifier && t.value != "version" && t.value != "deprecated" then [t.value] else [])
  }

  /** Tokens that are not identifiers give no flag. */
  lemma {:induction false} FlagWordsOverNonIdentifiers(ts: seq<Token>, i: nat, j: nat, k: nat)
    requires i <= j <= k <= |ts| && NoIdentifiers(ts, j, k)
    ensures FlagWords(ts, i, k) == FlagWords(ts, i, j)
    decreases k - j
  {
    if j < k {
      FlagWordsOverNonIdentifiers(ts, i, j, k - 1);
    }
  }

  /** The flags of two adjacent stretches are those of the first, then those of the second. */
  lemma {:induction false} FlagWordsSplit(ts: seq<Token>, i: nat, j: nat, k: nat)
    requires i <= j <= k <= |ts|
    ensures FlagWords(ts, i, k) == FlagWords(ts, i, j) + FlagWords(ts, j, k)
    decreases k - j
  {
    if j < k {
      FlagWordsSplit(ts, i, j, k - 1);
    }
  }

  /** The texts of the string tokens from `i` up to `j`: in a header, the annotation arguments. */
  function Strings(ts: seq<Token>, i: nat, j: nat): seq<string>
    requires i <= j <= |ts|
    decreases j - i
  {
    if i == j then []
    else
      var t := ts[j - 1];
      Strings(ts, i, j - 1) + (if t.kind == String then [t.value] else [])
  }

  /** Tokens that are not strings add no annotation text. */
  lemma {:induction false} StringsOverNonStrings(ts: seq<Token>, i: nat, j: nat, k: nat)
    requires i <= j <= k <= |ts|
    requires forall m | j <= m < k :: ts[m].kind != String
    ensures Strings(ts, i, k) == Strings(ts, i, j)
    decreases k - j
  {
    if j < k {
      StringsOverNonStrings(ts, i, j, k - 1);
    }
  }

  /** The annotation texts of two adjacent stretches are those of the first, then those of the second. */
  lemma {:induction false} StringsSplit(ts: seq<Token>, i: nat, j: nat, k: nat)
    requires i <= j <= k <= |ts|
    ensures Strings(ts, i, k) == Strings(ts, i, j) + Strings(ts, j, k)
    decreases k - j
  {
    if j < k {
      StringsSplit(ts, i, j, k - 1);
    }
  }

  /**
   * Blanks from `j`, then, when `read`, one token that is neither an
   * identifier nor a string, add no identifier, no flag and no annotation text.
   */
  lemma PlainStep(ts: seq<Token>, i: nat, j: nat, k: nat, newline: bool, read: bool)
    requires i <= j <= |ts| && k == SkipFrom(ts, j, newline) + (if read then 1 else 0) && k <= |ts|
    requires read ==> ts[k - 1].kind != Identifier && ts[k - 1].kind != String
    ensures FlagWords(ts, i, k) == FlagWords(ts, i, j) && Strings(ts, i, k) == Strings(ts, i, j)
    ensures NoIdentifiers(ts, i, j) ==> NoIdentifiers(ts, i, k)
  {
    SkipFromSkips(ts, j, newline);
    assert NoIdentifiers(ts, j, k);
    FlagWordsOverNonIdentifiers(ts, i, j, k);
    StringsOverNonStrings(ts, i, j, k);
  }

  /** A string token after a stretch without identifiers is its one annotation text more. */
  lemma StringStep(ts: seq<Token>, i: nat, k: nat)
    requires i <= k < |ts| && ts[k].kind == String && NoIdentifiers(ts, i, k)
    ensures NoIdentifiers(ts, i, k + 1) && Strings(ts, i, k + 1) == Strings(ts, i, k) + [ts[k].value]
  {
  }

  /** The version the annotations give: "version" once any of their texts is literally that, "" otherwise. */
  function AnnotatedVersion(notes: seq<string>): string {
    if "version" in notes then "version" else ""
  }

  /** The deprecation note the annotations give: the last of their texts that is not "version". */
  function Deprecation(notes: seq<string>): string
    decreases |notes|
  {
    if notes == [] then ""
    else if notes[|notes| - 1] != "version" then notes[|notes| - 1]
    else Deprecation(notes[..|notes| - 1])
  }

  /** One more annotation text: it sets the version when it is "version" and the deprecation note otherwise. */
  lemma AnnotationAppends(notes: seq<string>, text: string)
    ensures AnnotatedVersion(notes + [text]) == if text == "version" then "version" else AnnotatedVersion(notes)
    ensures Deprecation(notes + [text]) == if text == "version" then Deprecation(notes) else text
  {
    assert (notes + [text])[..|notes|] == notes;
  }

  /**
   * The flags, version and deprecation note an object header gives whose
   * flags and annotations lie from `i` up to `j` (the `{` of the body).
   */
  predicate HeaderSays(ts: seq<Token>, i: nat, j: nat, flags: seq<string>, version: string, deprecated: string)
    requires i <= j <= |ts|
  {
    var notes := Strings(ts, i, j);
    flags == FlagWords(ts, i, j) && version == AnnotatedVersion(notes) && deprecated == Deprecation(notes)
  }

  /**
   * The argument of a `version` or `deprecated` annotation, `( "text" )`
   * with blanks allowed between the parts. The text becomes the version when
   * it is literally "version" and the deprecation note otherwise, whichever
   * keyword came before it.
   */
  method ReadAnnotation(s: TokenStream, version: string, deprecated: string)
    returns (ok: bool, newVersion: string, newDeprecated: string, ghost text: string)
    requires s.pos <= |s.tokens|
    modifies s
    ensures old(s.pos) <= s.pos <= |s.tokens|
    ensures ok ==> old(s.pos) < s.pos && s.tokens[s.pos - 1].kind == CloseParen
    ensures ok && text == "version" ==> newVersion == text && newDeprecated == deprecated
    ensures ok && text != "version" ==> newVersion == version && newDeprecated == text
    ensures ok ==> Strings(s.tokens, old(s.pos), s.pos) == [text]
    ensures NoIdentifiers(s.tokens, old(s.pos), s.pos)
  {
    newVersion, newDeprecated, text := version, deprecated, "";
    ghost var p0 := s.pos;
    var token, value;
    ok, token := SkipAndExpectPlain(s, DefaultToken, {OpenParen}, p0);
    if !ok {
      return;
    }
    ghost var p := s.pos;
    ok, value := ReadAnnotationString(s, token);
    NoIdentifiersJoin(s.tokens, p0, p, s.pos);
    if !ok {
      return;
    }
    StringsSplit(s.tokens, p0, p, s.pos);
    text := value;
    if value == "version" {
      newVersion := value;
    } else {
      newDeprecated := value;
    }
    ok, token := SkipAndExpectPlain(s, token, {CloseParen}, p0);
  }

  /** The string of an annotation after blanks; `value` is its text. */
  method ReadAnnotationString(s: TokenStream, prev: Token) returns (ok: bool, value: string)
    requires s.pos <= |s.tokens|
    modifies s
    ensures old(s.pos) <= s.pos <= |s.tokens|
    ensures ok ==> Strings(s.tokens, old(s.pos), s.pos) == [value]
    ensures NoIdentifiers(s.tokens, old(s.pos), s.pos)
  {
    ghost var p0 := s.pos;
    var token;
    ok, token := SkipAndExpectAt(s, prev, {String}, true);
    value := token.value;
    if ok {
      PlainStep(s.tokens, p0, p0, s.pos - 1, true, false);
      StringStep(s.tokens, p0, s.pos - 1);
    } else {
      PlainStep(s.tokens, p0, p0, s.pos, true, false);
    }
  }

  /**
   * Skip blanks, then expect a token of `oneOf`, which holds neither
   * identifiers nor strings: what is read adds no identifier and no
   * annotation text to the stretch from `i`.
   */
  method SkipAndExpectPlain(s: TokenStream, prev: Token, oneOf: Mask, ghost i: nat) returns (ok: bool, token: Token)
    requires i <= s.pos <= |s.tokens| && Identifier !in oneOf && String !in oneOf
    modifies s
    ensures old(s.pos) <= s.pos <= |s.tokens|
    ensures ok ==> old(s.pos) < s.pos && token == s.tokens[s.pos - 1] && token.kind in oneOf
    ensures NoIdentifiers(s.tokens, i, old(s.pos)) ==> NoIdentifiers(s.tokens, i, s.pos)
    ensures Strings(s.tokens, i, s.pos) == Strings(s.tokens, i, old(s.pos))
  {
    ghost var p := s.pos;
    ok, token := SkipAndExpectAt(s, prev, oneOf, true);
    PlainStep(s.tokens, i, p, s.pos, true, ok);
  }

  /** Two adjacent stretches without identifiers make one. */
  lemma NoIdentifiersJoin(ts: seq<Token>, i: nat, j: nat, k: nat)
    requires i <= j <= k <= |ts| && NoIdentifiers(ts, i, j) && NoIdentifiers(ts, j, k)
    ensures NoIdentifiers(ts, i, k)
  {
  }

  /**
   * The flags of a class or struct header, from the identifier `first` (just
   * read) up to the `{` of the body, which is read too. An annotation fills
   * the version or the deprecation note; any other identifier is a flag.
   */
  method ReadHeaderFlags(s: TokenStream, first: Token, ghost from: nat)
    returns (ok: bool, flags: seq<string>, version: string, deprecated: string, ghost curly: nat)
    requires s.pos == from + 1 <= |s.tokens| && s.tokens[from] == first && first.kind == Identifier
    modifies s
    ensures old(s.pos) <= s.pos <= |s.tokens|
    ensures ok ==> from < curly && s.pos == curly + 1 && s.tokens[curly].kind == OpenCurly
    ensures ok ==> HeaderSays(s.tokens, from, curly, flags, version, deprecated)
    ensures PlainFlags(flags)
    ensures version == "" || version == "version"
  {
    var token := first;
    ok, flags, version, deprecated, curly := false, [], "", "", from;
    while true
      invariant from <= curly && s.pos == curly + 1 <= |s.tokens| && s.tokens[curly] == token
      invariant token.kind == Identifier
      invariant HeaderSays(s.tokens, from, curly, flags, version, deprecated)
      invariant PlainFlags(flags)
      invariant version == "" || version == "version"
      decreases |s.tokens| - s.pos
    {
      ok, flags, version, deprecated, token, curly := ReadHeaderFlag(s, token, flags, version, deprecated, from, curly);
      if !ok || token.kind == OpenCurly {
        return;
      }
    }
  }

  /**
   * One round of the flag loop: `token` (just read, at `at`) as a flag or as
   * the start of an annotation, then the identifier or `{` after it, at
   * `next`. The header read from `start` says what it said before plus this
   * round.
   */
  method ReadHeaderFlag(s: TokenStream, token: Token, flags: seq<string>, version: string, deprecated: string,
                        ghost start: nat, ghost at: nat)
    returns (ok: bool, newFlags: seq<string>, newVersion: string, newDeprecated: string, next: Token, ghost nextAt: nat)
    requires start <= at && s.pos == at + 1 <= |s.tokens| && s.tokens[at] == token && token.kind == Identifier
    requires HeaderSays(s.tokens, start, at, flags, version, deprecated)
    requires PlainFlags(flags) && (version == "" || version == "version")
    modifies s
    ensures old(s.pos) <= s.pos <= |s.tokens|
    ensures ok ==> at < nextAt && s.pos == nextAt + 1 && s.tokens[nextAt] == next && (next.kind == Identifier || next.kind == OpenCurly)
    ensures ok ==> HeaderSays(s.tokens, start, nextAt, newFlags, newVersion, newDeprecated)
    ensures PlainFlags(newFlags) && (newVersion == "" || newVersion == "version")
  {
    newFlags, newVersion, newDeprecated, next, nextAt := flags, version, deprecated, token, at;
    if token.value == "version" || token.value == "deprecated" {
      var v, d;
      ghost var text;
      ok, v, d, text := ReadAnnotation(s, version, deprecated);
      if !ok {
        return;
      }
      AnnotationRound(s.tokens, start, at, s.pos, text, flags, version, deprecated, v, d);
      newVersion, newDeprecated := v, d;
    } else {
      FlagRound(s.tokens, start, at, flags, version, deprecated);
      newFlags := flags + [token.value];
    }
    ghost var end := s.pos;
    nextAt := SkipFrom(s.tokens, end, true);
    ok, next := SkipAndExpectAt(s, token, {Identifier, OpenCurly}, true);
    if ok {
      BlankRound(s.tokens, start, end, nextAt, newFlags, newVersion, newDeprecated);
    }
  }

  /** An annotation keyword at `at` and its argument up to `e` add its text to the header. */
  lemma AnnotationRound(ts: seq<Token>, start: nat, at: nat, e: nat, text: string,
                        flags: seq<string>, version: string, deprecated: string, newVersion: string, newDeprecated: string)
    requires start <= at < e <= |ts| && HeaderSays(ts, start, at, flags, version, deprecated)
    requires ts[at].kind == Identifier && (ts[at].value == "version" || ts[at].value == "deprecated")
    requires NoIdentifiers(ts, at + 1, e) && Strings(ts, at + 1, e) == [text]
    requires text == "version" ==> newVersion == text && newDeprecated == deprecated
    requires text != "version" ==> newVersion == version && newDeprecated == text
    ensures HeaderSays(ts, start, e, flags, newVersion, newDeprecated)
  {
    var notes := Strings(ts, start, at);
    IdentifierAddsNoText(ts, start, at);
    FlagWordsOverNonIdentifiers(ts, start, at + 1, e);
    StringsSplit(ts, start, at + 1, e);
    assert Strings(ts, start, e) == notes + [text];
    AnnotationAppends(notes, text);
  }

  /** Any other identifier at `at` is one more flag. */
  lemma FlagRound(ts: seq<Token>, start: nat, at: nat, flags: seq<string>, version: string, deprecated: string)
    requires start <= at < |ts| && HeaderSays(ts, start, at, flags, version, deprecated)
    requires ts[at].kind == Identifier && ts[at].value != "version" && ts[at].value != "deprecated"
    ensures HeaderSays(ts, start, at + 1, flags + [ts[at].value], version, deprecated)
  {
    IdentifierAddsNoText(ts, start, at);
  }

  /** An identifier adds no annotation text; it adds its flag unless it is an annotation keyword. */
  lemma IdentifierAddsNoText(ts: seq<Token>, start: nat, at: nat)
    requires start <= at < |ts| && ts[at].kind == Identifier
    ensures Strings(ts, start, at + 1) == Strings(ts, start, at)
    ensures FlagWords(ts, start, at + 1)
      == FlagWords(ts, start, at) + (if ts[at].value != "version" && ts[at].value != "deprecated" then [ts[at].value] else [])
  {
    assert Strings(ts, start, at) + [] == Strings(ts, start, at);
  }

  /** Blanks add nothing to the header. */
  lemma BlankRound(ts: seq<Token>, start: nat, end: nat, k: nat, flags: seq<string>, version: string, deprecated: string)
    requires start <= end <= |ts| && k == SkipFrom(ts, end, true) && HeaderSays(ts, start, end, flags, version, deprecated)
    ensures HeaderSays(ts, start, k, flags, version, deprecated)
  {
    PlainStep(ts, start, end, k, true, false);
  }

  /**
   * The rest of a class or struct header after its name and relations, the
   * token after them (`token`, an identifier or a `{`) just read: the flags
   * when `token` starts them, then the body. The declaration is built from
   * what was read and the header parts already known.
   */
  method ReadObjectDecl(s: TokenStream, token: Token, ghost from: nat, isClass: bool, name: string,
                        parentName: string, extendName: string, replaceName: string)
    returns (ok: bool, decl: ObjectDecl, ghost open: nat, ghost close: nat)
    requires s.pos == from + 1 <= |s.tokens| && s.tokens[from] == token
    requires token.kind == Identifier || token.kind == OpenCurly
    modifies s
    ensures old(s.pos) <= s.pos <= |s.tokens|
    ensures ok ==> FreshObject(decl) && |decl.tokens| < |s.tokens|
    ensures ok ==> s.pos == close + 1 && Enclosed(s.tokens, open, close, decl.tokens)
    ensures ok ==> from < open && HeaderSays(s.tokens, from, open - 1, decl.flags, decl.version, decl.deprecated)
    ensures ok ==>
      && decl.isClass == isClass && decl.identifier == name && decl.parentName == parentName
      && decl.extendName == extendName && decl.replaceName == replaceName
  {
    open, close := 0, 0;
    var flags, version, deprecated, body := [], "", "", [];
    ok := true;
    if token.kind == Identifier {
      ghost var curly;
      ok, flags, version, deprecated, curly := ReadHeaderFlags(s, token, from);
    }
    if ok {
      open := s.pos;
      ok, body, close := ReadEnclosedBody(s);
    }
    decl := ObjectDecl(isClass, name, flags, version, deprecated, body, [], parentName, extendName, replaceName);
  }

  /** A relation of a class header: the name after `:` or `replaces`, and where the token after that name lies. */
  datatype Relation = Relation(name: string, next: nat)

  /**
   * The relation read from `i`, just after its `:` or `replaces`: an
   * identifier, then an identifier or a `{`. None on a syntax error.
   */
  function RelationAt(ts: seq<Token>, i: nat): (r: Option<Relation>)
    requires i <= |ts|
    ensures r.Some? ==> i < r.value.next < |ts|
  {
    if NextIs(ts, i, true, {Identifier}) then
      var j := SkipFrom(ts, i, true);
      if NextIs(ts, j + 1, true, {OpenCurly, Identifier}) then Some(Relation(ts[j].value, SkipFrom(ts, j + 1, true)))
      else None
    else None
  }

  /** The parent part of a class header whose token after the name is at `t`: `: Parent` when that token is a colon. */
  function ParentAt(ts: seq<Token>, t: nat): (r: Option<Relation>)
    requires t < |ts|
    ensures r.Some? ==> t <= r.value.next < |ts|
  {
    if ts[t].kind == Colon then RelationAt(ts, t + 1) else Some(Relation("", t))
  }

  /** The relations of a class header: the parent and the replaced class ("" when absent), and where the flags or the body begin. */
  datatype Relations = Relations(parent: string, replaced: string, next: nat)

  /** The replaced part of a class header after the parent part, its next token at `m`: `replaces Other` when that token is the word `replaces`. */
  function ReplacedAt(ts: seq<Token>, parent: string, m: nat): (r: Option<Relations>)
    requires m < |ts|
    ensures r.Some? ==> m <= r.value.next < |ts|
  {
    if ts[m].kind == Identifier && ts[m].value == "replaces" then
      var replaced := RelationAt(ts, m + 1);
      if replaced.None? then None else Some(Relations(parent, replaced.value.name, replaced.value.next))
    else Some(Relations(parent, "", m))
  }

  /**
   * The relations of a class header whose token after the name is at `t`:
   * the parent part, then the replaced part. None on a syntax error.
   */
  function ClassRelationsAt(ts: seq<Token>, t: nat): (r: Option<Relations>)
    requires t < |ts|
    ensures r.Some? ==> t <= r.value.next < |ts|
  {
    var parent := ParentAt(ts, t);
    if parent.None? then None else ReplacedAt(ts, parent.value.name, parent.value.next)
  }

  /** The relations of a class header read from `i`, just after the name. */
  function ClassHeaderAt(ts: seq<Token>, i: nat): (r: Option<Relations>)
    requires i <= |ts|
    ensures r.Some? ==> i <= r.value.next < |ts|
  {
    if NextIs(ts, i, true, {Colon, OpenCurly, Identifier}) then ClassRelationsAt(ts, SkipFrom(ts, i, true)) else None
  }

  /** The class name after `:` or `replaces` (just read), and the identifier or `{` after it, at `nextAt`. */
  method ReadRelation(s: TokenStream, token: Token) returns (ok: bool, name: string, next: Token, ghost nextAt: nat)
    requires s.pos <= |s.tokens|
    modifies s
    ensures old(s.pos) <= s.pos <= |s.tokens|
    ensures ok ==> s.pos == nextAt + 1 && s.tokens[nextAt] == next && (next.kind == Identifier || next.kind == OpenCurly)
    ensures ok <==> RelationAt(s.tokens, old(s.pos)).Some?
    ensures ok ==> RelationAt(s.tokens, old(s.pos)) == Some(Relation(name, nextAt))
  {
    name, nextAt := "", 0;
    ok, next := SkipAndExpectAt(s, token, {Identifier}, true);
    if ok {
      name := next.value;
      nextAt := SkipFrom(s.tokens, s.pos, true);
      ok, next := SkipAndExpectAt(s, next, {OpenCurly, Identifier}, true);
    }
  }

  /** The parent part of a class header, `token` at `at` being the token after the name; hands back the token after it. */
  method ReadParent(s: TokenStream, token: Token, ghost at: nat)
    returns (ok: bool, parentName: string, next: Token, ghost nextAt: nat)
    requires s.pos == at + 1 <= |s.tokens| && s.tokens[at] == token
    modifies s
    ensures old(s.pos) <= s.pos <= |s.tokens|
    ensures ok ==> s.pos == nextAt + 1 && s.tokens[nextAt] == next
    ensures ok <==> ParentAt(s.tokens, at).Some?
    ensures ok ==> ParentAt(s.tokens, at) == Some(Relation(parentName, nextAt))
  {
    ok, parentName, next, nextAt := true, "", token, at;
    if token.kind == Colon {
      ok, parentName, next, nextAt := ReadRelation(s, token);
    }
  }

  /** The replaced part of a class header, `token` at `at` being the token after the parent part; hands back the token after it. */
  method ReadReplaced(s: TokenStream, token: Token, parentName: string, ghost at: nat)
    returns (ok: bool, replaceName: string, next: Token, ghost nextAt: nat)
    requires s.pos == at + 1 <= |s.tokens| && s.tokens[at] == token
    modifies s
    ensures old(s.pos) <= s.pos <= |s.tokens|
    ensures ok ==> s.pos == nextAt + 1 && s.tokens[nextAt] == next
    ensures ok <==> ReplacedAt(s.tokens, parentName, at).Some?
    ensures ok ==> ReplacedAt(s.tokens, parentName, at) == Some(Relations(parentName, replaceName, nextAt))
  {
    ok, replaceName, next, nextAt := true, "", token, at;
    if token.kind == Identifier && token.value == "replaces" {
      ok, replaceName, next, nextAt := ReadRelation(s, token);
    }
  }

  /**
   * The optional `: Parent` and `replaces Other` parts of a class header,
   * `token` at `at` being the token after the name; hands back the token
   * after them, an identifier or a `{`.
   */
  method ReadClassRelations(s: TokenStream, token: Token, ghost at: nat)
    returns (ok: bool, parentName: string, replaceName: string, next: Token, ghost nextAt: nat)
    requires s.pos == at + 1 <= |s.tokens| && s.tokens[at] == token
    requires token.kind in {Colon, OpenCurly, Identifier}
    modifies s
    ensures old(s.pos) <= s.pos <= |s.tokens|
    ensures ok ==> s.pos == nextAt + 1 && s.tokens[nextAt] == next && (next.kind == Identifier || next.kind == OpenCurly)
    ensures ok <==> ClassRelationsAt(s.tokens, at).Some?
    ensures ok ==> ClassRelationsAt(s.tokens, at) == Some(Relations(parentName, replaceName, nextAt))
  {
    replaceName := "";
    ghost var parentAt;
    ok, parentName, next, parentAt := ReadParent(s, token, at);
    nextAt := parentAt;
    if ok {
      ok, replaceName, next, nextAt := ReadReplaced(s, next, parentName, parentAt);
    }
  }

  /**
   * What a class declaration from `i` says: the name is the first solid
   * token, the relations those read after it and the flags and annotations
   * those from `flagsAt` up to the `{` at `open - 1`.
   */
  predicate ClassDeclaredAt(ts: seq<Token>, i: nat, flagsAt: nat, open: nat, d: ObjectDecl)
    requires i <= |ts|
  {
    && SolidWordAt(ts, i, d.identifier)
    && ClassHeaderAt(ts, SkipFrom(ts, i, true) + 1) == Some(Relations(d.parentName, d.replaceName, flagsAt))
    && flagsAt < open <= |ts|
    && HeaderSays(ts, flagsAt, open - 1, d.flags, d.version, d.deprecated)
  }

  /**
   * A class declaration after `class` (or `extend class`):
   * `Name [: Parent] [replaces Other] [flags…] { body }`. An extension names
   * the class it extends. Nothing is built on a syntax error.
   */
  method ParseClass(s: TokenStream, extend: bool)
    returns (r: Option<ObjectDecl>, ghost flagsAt: nat, ghost open: nat, ghost close: nat)
    requires s.pos <= |s.tokens|
    modifies s
    ensures old(s.pos) <= s.pos <= |s.tokens|
    ensures r.Some? ==> r.value.isClass && FreshObject(r.value)
    ensures r.Some? ==> ClassDeclaredAt(s.tokens, old(s.pos), flagsAt, open, r.value)
    ensures r.Some? ==> s.pos == close + 1 && Enclosed(s.tokens, open, close, r.value.tokens)
    ensures r.Some? && extend ==> r.value.extendName == r.value.identifier
    ensures r.Some? && !extend ==> r.value.extendName == ""
  {
    r, flagsAt, open, close := None, 0, 0, 0;
    var ok, token := SkipAndExpectAt(s, DefaultToken, {Identifier}, true);
    if ok {
      r, flagsAt, open, close := ReadClassAfterName(s, token, extend);
    }
  }

  /** The rest of a class declaration, its name `token` just read. */
  method ReadClassAfterName(s: TokenStream, token: Token, extend: bool)
    returns (r: Option<ObjectDecl>, ghost flagsAt: nat, ghost open: nat, ghost close: nat)
    requires s.pos <= |s.tokens|
    modifies s
    ensures old(s.pos) <= s.pos <= |s.tokens|
    ensures r.Some? ==> r.value.isClass && FreshObject(r.value) && r.value.identifier == token.value
    ensures r.Some? ==> ClassHeaderAt(s.tokens, old(s.pos)) == Some(Relations(r.value.parentName, r.value.replaceName, flagsAt))
    ensures r.Some? ==>
      && flagsAt < open <= |s.tokens|
      && HeaderSays(s.tokens, flagsAt, open - 1, r.value.flags, r.value.version, r.value.deprecated)
    ensures r.Some? ==> s.pos == close + 1 && Enclosed(s.tokens, open, close, r.value.tokens)
    ensures r.Some? ==> r.value.extendName == if extend then token.value else ""
  {
    r, open, close := None, 0, 0;
    var name := token.value;
    var ok, parentName, replaceName, next;
    ok, parentName, replaceName, next, flagsAt := ReadClassHeader(s, token);
    if ok {
      var decl;
      ok, decl, open, close := ReadObjectDecl(s, next, flagsAt, true, name, parentName, if extend then name else "", replaceName);
      if ok {
        r := Some(decl);
      }
    }
  }

  /** What follows a class name up to the identifier or `{` after the relations, at `nextAt`. */
  method ReadClassHeader(s: TokenStream, token: Token)
    returns (ok: bool, parentName: string, replaceName: string, next: Token, ghost nextAt: nat)
    requires s.pos <= |s.tokens|
    modifies s
    ensures old(s.pos) <= s.pos <= |s.tokens|
    ensures ok ==> s.pos == nextAt + 1 && s.tokens[nextAt] == next && (next.kind == Identifier || next.kind == OpenCurly)
    ensures ok <==> ClassHeaderAt(s.tokens, old(s.pos)).Some?
    ensures ok ==> ClassHeaderAt(s.tokens, old(s.pos)) == Some(Relations(parentName, replaceName, nextAt))
  {
    parentName, replaceName, nextAt := "", "", 0;
    ghost var at := SkipFrom(s.tokens, s.pos, true);
    ok, next := SkipAndExpectAt(s, token, {Colon, OpenCurly, Identifier}, true);
    if ok {
      ok, parentName, replaceName, next, nextAt := ReadClassRelations(s, next, at);
    }
  }

  /**
   * A struct declaration after `struct`: `Name [flags…] { body }`. Nothing
   * is built on a syntax error.
   */
  method ParseStruct(s: TokenStream) returns (r: Option<ObjectDecl>, ghost flagsAt: nat, ghost open: nat, ghost close: nat)
    requires s.pos <= |s.tokens|
    modifies s
    ensures old(s.pos) <= s.pos <= |s.tokens|
    ensures r.Some? ==> !r.value.isClass && FreshObject(r.value) && |r.value.tokens| < |s.tokens|
    ensures r.Some? ==> SolidWordAt(s.tokens, old(s.pos), r.value.identifier)
    ensures r.Some? ==> StructDeclaredAt(s.tokens, old(s.pos), flagsAt, open, r.value)
    ensures r.Some? ==> s.pos == close + 1 && Enclosed(s.tokens, open, close, r.value.tokens)
    ensures r.Some? ==> r.value.parentName == "" && r.value.extendName == "" && r.value.replaceName == ""
  {
    r, flagsAt, open, close := None, 0, 0, 0;
    ghost var p0 := s.pos;
    var ok, token := SkipAndExpectAt(s, DefaultToken, {Identifier}, true);
    if ok {
      var name := token.value;
      assert SolidWordAt(s.tokens, p0, name);
      flagsAt := SkipFrom(s.tokens, s.pos, true);
      ok, token := SkipAndExpectAt(s, token, {OpenCurly, Identifier}, true);
      if ok {
        var decl;
        ok, decl, open, close := ReadObjectDecl(s, token, flagsAt, false, name, "", "", "");
        if ok {
          r := Some(decl);
        }
      }
    }
  }

  /**
   * What a struct declaration from `i` says: its flags and annotations are
   * those from the token after its name up to the `{` at `open - 1`.
   */
  predicate StructDeclaredAt(ts: seq<Token>, i: nat, flagsAt: nat, open: nat, d: ObjectDecl)
    requires i <= |ts|
  {
    var n := SkipFrom(ts, i, true);
    && n < |ts|
    && flagsAt == SkipFrom(ts, n + 1, true)
    && flagsAt < open <= |ts|
    && HeaderSays(ts, flagsAt, open - 1, d.flags, d.version, d.deprecated)
  }

  /** An enum's children are its value expressions, one per value, in order. */
  predicate ValuesAsChildren(values: seq<(string, Expr)>, children: seq<Node>) {
    |children| == |values| && forall k | 0 <= k < |values| :: children[k] == ExpressionNode(values[k].1)
  }

  /**
   * One item of an enum body, `prev` being the `{` or the `,` before it: the
   * closing `}`, or a name followed by `,`, `}` or `= expr` and then `,` or
   * `}`. `closed` is set once the `}` is read; `value` holds the item when
   * it was given a value. `Returns(false)` is a syntax error.
   */
  method ReadEnumItem(s: TokenStream, prev: Token)
    returns (r: Exec<bool>, closed: bool, value: Option<(string, Expr)>, token: Token, ghost at: nat)
    requires s.pos <= |s.tokens|
    modifies s
    ensures r.Returns? ==> old(s.pos) <= s.pos <= |s.tokens|
    ensures r == Returns(true) ==> old(s.pos) < s.pos && (closed ==> s.tokens[s.pos - 1].kind == CloseCurly)
    ensures r == Returns(true) && value.Some? ==>
      && at == SkipFrom(s.tokens, old(s.pos), true) && at < s.pos
      && s.tokens[at].kind == Identifier && s.tokens[at].value == value.value.0
      && NextIs(s.tokens, at + 1, true, {OpAssign})
  {
    r, closed, value, at := Returns(false), false, None, SkipFrom(s.tokens, s.pos, true);
    var ok;
    ok, token := SkipAndExpectAt(s, prev, {Identifier, CloseCurly}, true);
    if ok {
      if token.kind == CloseCurly {
        r, closed := Returns(true), true;
      } else {
        var item := token.value;
        ok, token := SkipAndExpectAt(s, token, {Comma, OpAssign, CloseCurly}, true);
        if ok {
          if token.kind == OpAssign {
            r, value, token := ReadEnumValue(s, item, token);
            closed := r == Returns(true) && token.kind == CloseCurly;
          } else {
            r, closed := Returns(true), token.kind == CloseCurly;
          }
        }
      }
    }
  }

  /** The `expr` and the `,` or `}` after `item =`, `token` being the `=`. */
  method ReadEnumValue(s: TokenStream, item: string, token: Token)
    returns (r: Exec<bool>, value: Option<(string, Expr)>, next: Token)
    requires s.pos <= |s.tokens|
    modifies s
    ensures r.Returns? ==> old(s.pos) <= s.pos <= |s.tokens|
    ensures r == Returns(true) ==> old(s.pos) < s.pos && s.tokens[s.pos - 1] == next && next.kind in {Comma, CloseCurly}
    ensures r == Returns(true) ==> value.Some? && value.value.0 == item
  {
    r, value, next := Returns(false), None, token;
    var ok := SkipWhitespace(s, true);
    var e, eLeaves, eFailed := ParseExpression(s, {Comma, CloseCurly});
    if e.Undefined? {
      r := Undefined;
    } else if e.value.Some? {
      ok, next := SkipAndExpect(s, token, {Comma, CloseCurly}, true);
      if ok {
        r, value := Returns(true), Some((item, e.value.value));
      }
    }
  }

  /**
   * Value `k` was written as `values[k].0 = …` with its name at `at[k]`,
   * the names in the order of the text.
   */
  predicate ValueNamesAt(ts: seq<Token>, at: seq<nat>, values: seq<(string, Expr)>) {
    && |at| == |values|
    && (forall k | 0 <= k < |at| ::
         at[k] < |ts| && ts[at[k]].kind == Identifier && ts[at[k]].value == values[k].0 && NextIs(ts, at[k] + 1, true, {OpAssign}))
    && (forall k | 0 < k < |at| :: at[k - 1] < at[k])
  }

  lemma ValueNamesGrow(ts: seq<Token>, at: seq<nat>, values: seq<(string, Expr)>, a: nat, value: (string, Expr))
    requires ValueNamesAt(ts, at, values)
    requires a < |ts| && ts[a].kind == Identifier && ts[a].value == value.0 && NextIs(ts, a + 1, true, {OpAssign})
    requires |at| > 0 ==> at[|at| - 1] < a
    ensures ValueNamesAt(ts, at + [a], values + [value])
  {
    var at', values' := at + [a], values + [value];
    forall k | 0 <= k < |at'|
      ensures at'[k] < |ts| && ts[at'[k]].kind == Identifier && ts[at'[k]].value == values'[k].0 && NextIs(ts, at'[k] + 1, true, {OpAssign})
    {
      if k < |at| {
        assert at'[k] == at[k] && values'[k] == values[k];
      }
    }
    forall k | 0 < k < |at'|
      ensures at'[k - 1] < at'[k]
    {
      if k < |at| {
        assert at'[k] == at[k] && at'[k - 1] == at[k - 1];
      }
    }
  }

  /**
   * An enum declaration after `enum`: `Name { item [= expr], … }`, with a
   * trailing comma allowed. Only items with a value are recorded, in order.
   */
  method ParseEnum(s: TokenStream) returns (r: Exec<Option<Node>>, ghost at: seq<nat>)
    requires s.pos <= |s.tokens|
    modifies s
    ensures r.Returns? ==> old(s.pos) <= s.pos <= |s.tokens|
    ensures r.Returns? && r.value.Some? ==>
      && old(s.pos) < s.pos && s.tokens[s.pos - 1].kind == CloseCurly
      && r.value.value.EnumNode?
      && ValuesAsChildren(r.value.value.values, r.value.value.children)
    ensures r.Returns? && r.value.Some? ==> SolidWordAt(s.tokens, old(s.pos), r.value.value.identifier)
    ensures r.Returns? && r.value.Some? ==>
      ValueNamesAt(s.tokens, at, r.value.value.values) && (forall k | 0 <= k < |at| :: old(s.pos) < at[k] < s.pos)
  {
    at := [];
    ghost var p0 := s.pos;
    var ok, token := SkipAndExpectAt(s, DefaultToken, {Identifier}, true);
    if !ok {
      return Returns(None), at;
    }
    var name := token.value;
    assert SolidWordAt(s.tokens, p0, name);
    ok, token := SkipAndExpect(s, token, {OpenCurly}, true);
    if !ok {
      return Returns(None), at;
    }
    var res, values;
    res, values, at := ReadEnumItems(s, token);
    if res.Undefined? {
      return Undefined, at;
    }
    if !res.value {
      return Returns(None), at;
    }
    var children := seq(|values|, k requires 0 <= k < |values| => ExpressionNode(values[k].1));
    return Returns(Some(EnumNode(name, values, children))), at;
  }

  /** The items of an enum body, `token` being its `{` (just read), up to and with the `}`. */
  method ReadEnumItems(s: TokenStream, token: Token) returns (r: Exec<bool>, values: seq<(string, Expr)>, ghost at: seq<nat>)
    requires s.pos <= |s.tokens|
    modifies s
    ensures r.Returns? ==> old(s.pos) <= s.pos <= |s.tokens|
    ensures r == Returns(true) ==> old(s.pos) < s.pos && s.tokens[s.pos - 1].kind == CloseCurly
    ensures r == Returns(true) ==> ValueNamesAt(s.tokens, at, values) && (forall k | 0 <= k < |at| :: old(s.pos) <= at[k] < s.pos)
  {
    values, at := [], [];
    var closed := false;
    var prev := token;
    ghost var ts, p0 := s.tokens, s.pos;
    while !closed
      invariant p0 <= s.pos <= |ts|
      invariant closed ==> p0 < s.pos && ts[s.pos - 1].kind == CloseCurly
      invariant ValueNamesAt(ts, at, values)
      invariant forall k | 0 <= k < |at| :: p0 <= at[k] < s.pos
      decreases |ts| - s.pos, !closed
    {
      var res, value;
      ghost var a;
      res, closed, value, prev, a := ReadEnumItem(s, prev);
      if res != Returns(true) {
        return res, values, at;
      }
      if value.Some? {
        ValueNamesGrow(ts, at, values, a, value.value);
        values, at := values + [value.value], at + [a];
      }
    }
    r := Returns(true);
  }

  /** A node the top-level pass can add to the file root. */
  predicate TopLevel(n: Node) {
    || n.IncludeNode?
    || (n.ObjectNode? && FreshObject(n.decl))
    || (n.EnumNode? && ValuesAsChildren(n.values, n.children))
  }

  /**
   * The path of `include "path"` read after a `#` at `i`; blanks may part
   * the words, but not newlines. None for any other directive.
   */
  function IncludeTarget(ts: seq<Token>, i: nat): Option<string>
    requires i <= |ts|
  {
    var j := SkipFrom(ts, i, false);
    if j < |ts| && ts[j].kind == Identifier && ts[j].value == "include" then StringAfter(ts, j + 1) else None
  }

  /** The text of the string that comes next from `i` on the same line, if it is one. */
  function StringAfter(ts: seq<Token>, i: nat): Option<string>
    requires i <= |ts|
  {
    var k := SkipFrom(ts, i, false);
    if k < |ts| && ts[k].kind == String then Some(ts[k].value) else None
  }

  /** Words the top-level pass reads a declaration after. */
  const DeclarationWords: set<string> := {"class", "extend", "struct", "enum"}

  /**
   * One top-level item other than the version, its first token `token` just
   * read: `#include "path"`, or a class, struct or enum declaration, or any
   * other token, which is passed over. `Returns(false)` is a syntax error.
   */
  method ParseRootItem(s: TokenStream, token: Token) returns (r: Exec<bool>, child: Option<Node>)
    requires s.pos <= |s.tokens|
    modifies s
    ensures r.Returns? ==> old(s.pos) <= s.pos <= |s.tokens|
    ensures child.Some? ==> r == Returns(true) && TopLevel(child.value)
    ensures token.kind == Preprocessor ==> r.Returns? && (r.value <==> child.Some?)
    ensures token.kind == Preprocessor && child.Some? ==>
      old(s.pos) < s.pos && s.tokens[s.pos - 1].kind == String && child.value == IncludeNode(s.tokens[s.pos - 1].value)
    ensures token.kind == Preprocessor ==>
      var target := IncludeTarget(s.tokens, old(s.pos));
      r == Returns(target.Some?) && child == (if target.Some? then Some(IncludeNode(target.value)) else None)
    ensures token.kind != Preprocessor && !(token.kind == Identifier && token.value in DeclarationWords) ==>
      r == Returns(true) && child == None && s.pos == old(s.pos)
  {
    r, child := Returns(true), None;
    if token.kind == Preprocessor {
      ghost var j := SkipFrom(s.tokens, s.pos, false);
      var ok, next := SkipAndExpectAt(s, token, {Identifier}, false);
      var isInclude := ok && next.value == "include";
      if isInclude {
        assert s.pos == j + 1;
        ok, next := SkipAndExpectAt(s, next, {String}, false);
        if ok {
          child := Some(IncludeNode(next.value));
        }
      }
      r := Returns(isInclude && ok);
    } else if token.kind == Identifier {
      if token.value == "class" || token.value == "extend" {
        r, child := ParseClassItem(s, token);
      } else if token.value == "struct" {
        var struc, flagsAt, open, close := ParseStruct(s);
        r := Returns(struc.Some?);
        if struc.Some? {
          child := Some(ObjectNode(struc.value));
        }
      } else if token.value == "enum" {
        var enm, at := ParseEnum(s);
        if enm.Undefined? {
          r := Undefined;
        } else {
          r := Returns(enm.value.Some?);
          if enm.value.Some? {
            child := Some(enm.value.value);
          }
        }
      }
    }
  }

  /** `class …` or `extend class …`, `token` being `class` or `extend`. */
  method ParseClassItem(s: TokenStream, token: Token) returns (r: Exec<bool>, child: Option<Node>)
    requires s.pos <= |s.tokens|
    modifies s
    ensures old(s.pos) <= s.pos <= |s.tokens|
    ensures r.Returns? && (child.Some? <==> r.value)
    ensures child.Some? ==> TopLevel(child.value)
  {
    r, child := Returns(false), None;
    var ok, next := true, token;
    var isExtend := token.value == "extend";
    if isExtend {
      ok, next := SkipAndExpect(s, token, {Identifier}, true);
      ok := ok && next.value == "class";
    }
    if ok {
      var cls, flagsAt, open, close := ParseClass(s, isExtend);
      if cls.Some? {
        r, child := Returns(true), Some(ObjectNode(cls.value));
      }
    }
  }

  /**
   * The text of `version "text"` when the first solid token from `i` is
   * the word `version`; the string must follow on the same line. None when
   * it does not.
   */
  function VersionAt(ts: seq<Token>, i: nat): Option<string>
    requires i <= |ts|
  {
    var j := SkipFrom(ts, i, true);
    if j < |ts| && ts[j].kind == Identifier && ts[j].value == "version" then StringAfter(ts, j + 1) else None
  }

  /**
   * The top-level pass. `version "…"` counts only as the very first item;
   * `#include "path"` adds an include; `class`, `extend class`, `struct` and
   * `enum` add their declarations; any other identifier or token is passed
   * over. It succeeds exactly when the input ends between items.
   */
  method ParseRoot(s: TokenStream) returns (r: Exec<bool>, version: string, children: seq<Node>)
    requires s.pos <= |s.tokens|
    modifies s
    ensures forall k | 0 <= k < |children| :: TopLevel(children[k])
    ensures r == Returns(true) ==> s.pos == |s.tokens|
    ensures version != "" ==> SolidWordAt(s.tokens, old(s.pos), "version")
    ensures version == (var v := VersionAt(s.tokens, old(s.pos)); if v.Some? then v.value else "")
    ensures SolidWordAt(s.tokens, old(s.pos), "version") && VersionAt(s.tokens, old(s.pos)).None? ==> r == Returns(false)
    ensures SkipFrom(s.tokens, old(s.pos), true) == |s.tokens| ==> r == Returns(true) && children == []
  {
    version, children := "", [];
    SkipBlanks(s, true);
    var read, token := s.ReadToken(DefaultToken);
    if !read {
      return Returns(true), version, children;
    }
    if token.kind == Identifier && token.value == "version" {
      // only the very first item can be the version
      var ok;
      ok, token := SkipAndExpectAt(s, token, {String}, false);
      if !ok {
        return Returns(false), version, children;
      }
      version := token.value;
    } else {
      var child;
      r, child := ParseRootItem(s, token);
      if r != Returns(true) {
        return;
      }
      children := if child.Some? then [child.value] else [];
    }
    var rest;
    r, rest := ParseRootItems(s);
    children := children + rest;
  }

  /** The items after the version, if any, up to the end of the input. */
  method ParseRootItems(s: TokenStream) returns (r: Exec<bool>, children: seq<Node>)
    requires s.pos <= |s.tokens|
    modifies s
    ensures forall k | 0 <= k < |children| :: TopLevel(children[k])
    ensures r == Returns(true) ==> s.pos == |s.tokens|
    ensures SkipFrom(s.tokens, old(s.pos), true) == |s.tokens| ==> r == Returns(true) && children == []
  {
    children := [];
    var first := true;
    while true
      invariant old(s.pos) <= s.pos <= |s.tokens|
      invariant first ==> s.pos == old(s.pos) && children == []
      invariant !first ==> SkipFrom(s.tokens, old(s.pos), true) < |s.tokens|
      invariant forall k | 0 <= k < |children| :: TopLevel(children[k])
      decreases |s.tokens| - s.pos
    {
      SkipBlanks(s, true);
      var read, token := s.ReadToken(DefaultToken);
      if !read {
        return Returns(true), children;
      }
      first := false;
      var child;
      r, child := ParseRootItem(s, token);
      if r != Returns(true) {
        return;
      }
      if child.Some? {
        children := children + [child.value];
      }
    }
  }

  // ---------------------------------------------------------------- the directives read

  /** Blanks before or between the words of a directive do not change it. */
  lemma IncludeAfterBlanks(b: seq<Token>, ts: seq<Token>)
    requires forall k | 0 <= k < |b| :: b[k].kind == Whitespace
    ensures IncludeTarget(b + ts, 0) == IncludeTarget(ts, 0)
  {
    SkipFromAfterBlanks(b, ts, false);
    var j := SkipFrom(ts, 0, false);
    if j < |ts| {
      assert (b + ts)[j + |b|] == ts[j];
      StringAfterShift(b, ts, j + 1);
      IncludeShift(b + ts, ts, j, |b|);
    }
  }

  /** The same for the version: blanks and newlines may come before it. */
  lemma VersionAfterBlanks(b: seq<Token>, ts: seq<Token>)
    requires forall k | 0 <= k < |b| :: b[k].kind == Whitespace || b[k].kind == Newline
    ensures VersionAt(b + ts, 0) == VersionAt(ts, 0)
  {
    SkipFromAfterBlanks(b, ts, true);
    var j := SkipFrom(ts, 0, true);
    if j < |ts| {
      assert (b + ts)[j + |b|] == ts[j];
      StringAfterShift(b, ts, j + 1);
      VersionShift(b + ts, ts, j, |b|);
    }
  }

  /** The include read agrees on two lists whose first solid tokens, and the strings after them, agree. */
  lemma IncludeShift(bts: seq<Token>, ts: seq<Token>, j: nat, n: nat)
    requires j < |ts| && j + n < |bts| && SkipFrom(ts, 0, false) == j && SkipFrom(bts, 0, false) == j + n
    requires bts[j + n] == ts[j] && StringAfter(bts, j + n + 1) == StringAfter(ts, j + 1)
    ensures IncludeTarget(bts, 0) == IncludeTarget(ts, 0)
  {
    var t := ts[j];
    if t.kind == Identifier && t.value == "include" {
      assert IncludeTarget(bts, 0) == StringAfter(bts, j + n + 1);
    } else {
      assert IncludeTarget(bts, 0) == None;
    }
  }

  /** The same for the version read. */
  lemma VersionShift(bts: seq<Token>, ts: seq<Token>, j: nat, n: nat)
    requires j < |ts| && j + n < |bts| && SkipFrom(ts, 0, true) == j && SkipFrom(bts, 0, true) == j + n
    requires bts[j + n] == ts[j] && StringAfter(bts, j + n + 1) == StringAfter(ts, j + 1)
    ensures VersionAt(bts, 0) == VersionAt(ts, 0)
  {
    var t := ts[j];
    if t.kind == Identifier && t.value == "version" {
      assert VersionAt(bts, 0) == StringAfter(bts, j + n + 1);
    } else {
      assert VersionAt(bts, 0) == None;
    }
  }

  /** Tokens put before a list do not change the string found inside it. */
  lemma StringAfterShift(b: seq<Token>, ts: seq<Token>, j: nat)
    requires j <= |ts|
    ensures StringAfter(b + ts, j + |b|) == StringAfter(ts, j)
  {
    SkipFromShift(b, ts, j, false);
    var k := SkipFrom(ts, j, false);
    if k < |ts| {
      assert (b + ts)[k + |b|] == ts[k];
    }
  }

  /** `#include "a.zs"` names its file; a newline or another word in between makes it no include. */
  lemma IncludeExamples()
    ensures IncludeTarget([Token(Identifier, "include", None, true, 1, 8), Token(Whitespace, " ", None, true, 8, 9),
                           Token(String, "a.zs", None, true, 9, 15)], 0) == Some("a.zs")
    ensures IncludeTarget([Token(Identifier, "include", None, true, 1, 8), Token(Newline, "\n", None, true, 8, 9),
                           Token(String, "a.zs", None, true, 9, 15)], 0) == None
    ensures IncludeTarget([Token(Identifier, "import", None, true, 1, 7), Token(String, "a.zs", None, true, 7, 13)], 0) == None
  {
    var t := [Token(Identifier, "include", None, true, 1, 8), Token(Whitespace, " ", None, true, 8, 9), Token(String, "a.zs", None, true, 9, 15)];
    SkipFromIsFirstSolid(t, 0, 0, false);
    SkipFromIsFirstSolid(t, 1, 2, false);
  }
}
