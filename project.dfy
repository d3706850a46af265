// Path clean-up for project files, and the name a project takes from its
// directory.

module Projects {

  /** `path` with every backslash made a slash. */
  function Slashed(path: string): (r: string)
    ensures |r| == |path|
    ensures forall k | 0 <= k < |r| :: r[k] == (if path[k] == '\\' then '/' else path[k])
  {
    if path == [] then [] else [if path[0] == '\\' then '/' else path[0]] + Slashed(path[1..])
  }

  /** The characters of `s` other than slashes, in order. */
  function Unslashed(s: string): string {
    if s == [] then [] else (if s[0] == '/' then [] else [s[0]]) + Unslashed(s[1..])
  }

  predicate NoBackslash(s: string) {
    forall k | 0 <= k < |s| :: s[k] != '\\'
  }

  predicate NoDoubleSlash(s: string) {
    forall k | 0 <= k < |s| - 1 :: !(s[k] == '/' && s[k + 1] == '/')
  }

  /** `s` does not start with a slash when one was just seen. */
  predicate Fits(s: string, wasSlash: bool) {
    wasSlash ==> s == [] || s[0] != '/'
  }

  /**
   * The collapsing loop as written, `wasSlash` telling whether a slash was
   * just seen: a slash after a slash is removed, and the character after it
   * is then passed over without being looked at.
   */
  function CollapseAsWritten(s: string, wasSlash: bool): string
    decreases |s|
  {
    if s == [] then []
    else if s[0] == '/' && wasSlash then
      (if |s| == 1 then [] else [s[1]] + CollapseAsWritten(s[2..], true))
    else if s[0] == '/' then "/" + CollapseAsWritten(s[1..], true)
    else [s[0]] + CollapseAsWritten(s[1..], false)
  }

  /** The collapse of every run of slashes into one. */
  function Collapse(s: string, wasSlash: bool): string
    decreases |s|
  {
    if s == [] then []
    else if s[0] == '/' && wasSlash then Collapse(s[1..], true)
    else if s[0] == '/' then "/" + Collapse(s[1..], true)
    else [s[0]] + Collapse(s[1..], false)
  }

  /** The fixed form of a path. */
  function FixedPath(path: string): string {
    Collapse(Slashed(path), false)
  }

  /**
   * Backslashes become slashes, then the string is walked with an index,
   * removing in place a slash that follows a slash; as written the index
   * moves on after a removal, so the character after it is never examined.
   */
  method FixPathAsWritten(path: string) returns (p: string)
    ensures p == CollapseAsWritten(Slashed(path), false)
    ensures NoBackslash(p)
  {
    p := Slashed(path);
    ghost var target := CollapseAsWritten(p, false);
    var wasSlash := false;
    var i := 0;
    assert AsWrittenSoFar(p, 0, false) == target by { assert p[0..] == p; }
    while i < |p|
      invariant 0 <= i <= |p| + 1
      invariant AsWrittenSoFar(p, i, wasSlash) == target
      invariant NoBackslash(p)
      decreases |p| + 1 - i
    {
      if p[i] == '/' {
        if wasSlash {
          AsWrittenRemoveStep(p, i);
          p := p[..i] + p[i + 1..];
          i := i + 1;
          continue;
        }
        wasSlash := true;
      } else {
        wasSlash := false;
      }
      AsWrittenKeepStep(p, i, !wasSlash);
      i := i + 1;
    }
    if i == |p| {
      assert p[..i] == p;
    }
  }

  /**
   * The result the as-written loop is heading for, once it has examined the
   * first `i` characters of `p`; the index can end one past the end.
   */
  ghost function AsWrittenSoFar(p: string, i: nat, wasSlash: bool): string {
    if i <= |p| then p[..i] + CollapseAsWritten(p[i..], wasSlash) else p
  }

  lemma AsWrittenRemoveStep(p: string, i: nat)
    requires i < |p| && p[i] == '/'
    ensures AsWrittenSoFar(p[..i] + p[i + 1..], i + 1, true) == AsWrittenSoFar(p, i, true)
  {
    var q := p[..i] + p[i + 1..];
    if i + 1 <= |q| {
      assert p[i..][2..] == p[i + 2..];
      assert q[..i + 1] == p[..i] + [p[i + 1]];
      assert q[i + 1..] == p[i + 2..];
    } else {
      assert q == p[..i];
    }
  }

  lemma AsWrittenKeepStep(p: string, i: nat, wasSlash: bool)
    requires i < |p| && !(p[i] == '/' && wasSlash)
    ensures AsWrittenSoFar(p, i + 1, p[i] == '/') == AsWrittenSoFar(p, i, wasSlash)
  {
    assert p[i..][1..] == p[i + 1..];
    assert p[..i + 1] == p[..i] + [p[i]];
  }

  /** Backslashes become slashes and every run of slashes is collapsed into one, in place. */
  method FixPath(path: string) returns (p: string)
    ensures p == FixedPath(path)
    ensures NoBackslash(p)
  {
    p := Slashed(path);
    ghost var target := Collapse(p, false);
    var wasSlash := false;
    var i := 0;
    assert p[0..] == p;
    while i < |p|
      invariant 0 <= i <= |p|
      invariant p[..i] + Collapse(p[i..], wasSlash) == target
      invariant NoBackslash(p)
      decreases |p| - i
    {
      if p[i] == '/' {
        if wasSlash {
          CollapseRemoveStep(p, i);
          p := p[..i] + p[i + 1..];
          continue;
        }
        wasSlash := true;
      } else {
        wasSlash := false;
      }
      CollapseKeepStep(p, i, !wasSlash);
      i := i + 1;
    }
    assert p[..i] == p;
  }

  lemma CollapseRemoveStep(p: string, i: nat)
    requires i < |p| && p[i] == '/'
    ensures var q := p[..i] + p[i + 1..];
      q[..i] + Collapse(q[i..], true) == p[..i] + Collapse(p[i..], true)
  {
    var q := p[..i] + p[i + 1..];
    assert p[i..][1..] == p[i + 1..];
    assert q[..i] == p[..i] && q[i..] == p[i + 1..];
  }

  lemma CollapseKeepStep(p: string, i: nat, wasSlash: bool)
    requires i < |p| && !(p[i] == '/' && wasSlash)
    ensures p[..i + 1] + Collapse(p[i + 1..], p[i] == '/') == p[..i] + Collapse(p[i..], wasSlash)
  {
    assert p[i..][1..] == p[i + 1..];
    assert p[..i + 1] == p[..i] + [p[i]];
  }

  lemma UnslashedStep(s: string)
    requires |s| >= 2
    ensures Unslashed(s[1..]) == Unslashed([s[1]]) + Unslashed(s[2..])
  {
    assert s[1..][1..] == s[2..];
    assert [s[1]][1..] == [];
  }

  /** Both collapses remove slashes only: the other characters stay, in order. */
  lemma {:induction false} AsWrittenRemovesOnlySlashes(s: string, wasSlash: bool)
    ensures Unslashed(CollapseAsWritten(s, wasSlash)) == Unslashed(s)
    ensures |CollapseAsWritten(s, wasSlash)| <= |s|
    decreases |s|
  {
    if s == [] {
    } else if s[0] == '/' && wasSlash {
      if |s| > 1 {
        AsWrittenRemovesOnlySlashes(s[2..], true);
        UnslashedStep(s);
        var r := CollapseAsWritten(s[2..], true);
        assert ([s[1]] + r)[1..] == r;
        assert Unslashed([s[1]] + r) == Unslashed([s[1]]) + Unslashed(r);
      }
    } else {
      AsWrittenRemovesOnlySlashes(s[1..], s[0] == '/');
      var r := CollapseAsWritten(s[1..], s[0] == '/');
      assert ([s[0]] + r)[1..] == r;
    }
  }

  lemma {:induction false} CollapseRemovesOnlySlashes(s: string, wasSlash: bool)
    ensures Unslashed(Collapse(s, wasSlash)) == Unslashed(s)
    ensures |Collapse(s, wasSlash)| <= |s|
    decreases |s|
  {
    if s != [] {
      CollapseRemovesOnlySlashes(s[1..], s[0] == '/');
      if !(s[0] == '/' && wasSlash) {
        var r := Collapse(s[1..], s[0] == '/');
        assert ([s[0]] + r)[1..] == r;
      }
    }
  }

  /** Seen from a state it fits, a path without doubled slashes is left alone, by both collapses. */
  lemma {:induction false} CollapseKeepsClean(s: string, wasSlash: bool)
    requires NoDoubleSlash(s) && Fits(s, wasSlash)
    ensures Collapse(s, wasSlash) == s
    ensures CollapseAsWritten(s, wasSlash) == s
    decreases |s|
  {
    if s != [] {
      assert NoDoubleSlash(s[1..]) by {
        forall k | 0 <= k < |s[1..]| - 1 ensures !(s[1..][k] == '/' && s[1..][k + 1] == '/') {
          assert s[1..][k] == s[k + 1] && s[1..][k + 1] == s[k + 2];
        }
      }
      if |s| > 1 && s[0] == '/' {
        assert s[1] != '/';
      }
      CollapseKeepsClean(s[1..], s[0] == '/');
      assert s == [s[0]] + s[1..];
    }
  }

  /** The collapse leaves no doubled slash, and no leading slash after a slash. */
  lemma {:induction false} CollapseIsClean(s: string, wasSlash: bool)
    ensures NoDoubleSlash(Collapse(s, wasSlash))
    ensures Fits(Collapse(s, wasSlash), wasSlash)
    decreases |s|
  {
    if s != [] {
      CollapseIsClean(s[1..], s[0] == '/');
      var r := Collapse(s[1..], s[0] == '/');
      if !(s[0] == '/' && wasSlash) {
        var c := [s[0]] + r;
        forall k | 0 <= k < |c| - 1 ensures !(c[k] == '/' && c[k + 1] == '/') {
          if k > 0 {
            assert c[k] == r[k - 1] && c[k + 1] == r[k];
          } else {
            assert c[1] == r[0];
          }
        }
      }
    }
  }

  lemma {:induction false} SlashedKeepsNoBackslash(s: string)
    requires NoBackslash(s)
    ensures Slashed(s) == s
  {
  }

  /** Fixing a fixed path changes nothing. */
  lemma FixedPathIdempotent(path: string)
    ensures FixedPath(FixedPath(path)) == FixedPath(path)
  {
    var p := FixedPath(path);
    CollapseRemovesOnlySlashes(Slashed(path), false);
    assert NoBackslash(p) by {
      CollapseKeepsNoBackslash(Slashed(path), false);
    }
    SlashedKeepsNoBackslash(p);
    CollapseIsClean(Slashed(path), false);
    CollapseKeepsClean(p, false);
  }

  lemma {:induction false} CollapseKeepsNoBackslash(s: string, wasSlash: bool)
    requires NoBackslash(s)
    ensures NoBackslash(Collapse(s, wasSlash))
    decreases |s|
  {
    if s != [] {
      CollapseKeepsNoBackslash(s[1..], s[0] == '/');
    }
  }

  /** As written, a run of three slashes keeps two, and a slash right after a doubled one goes. */
  lemma AsWrittenMisses()
    ensures CollapseAsWritten("a//b", false) == "a/b"
    ensures CollapseAsWritten("a///b", false) == "a//b"
    ensures CollapseAsWritten("a//b/c", false) == "a/bc"
  {
    assert CollapseAsWritten("b", false) == "b";
    assert CollapseAsWritten("/b", true) == "b";
    assert CollapseAsWritten("//b", false) == "/b";
    assert CollapseAsWritten("c", true) == "c";
    assert CollapseAsWritten("/c", true) == "c";
    assert CollapseAsWritten("//b/c", false) == "/bc";
  }

  /** The corrected collapse on the same inputs. */
  lemma CollapseExamples()
    ensures Collapse("a///b", false) == "a/b"
    ensures Collapse("a//b/c", false) == "a/b/c"
  {
    assert Collapse("b", true) == "b";
    assert Collapse("/b", true) == "b";
    assert Collapse("//b", true) == "b";
    assert Collapse("///b", false) == "/b";
    assert Collapse("/c", false) == "/c";
    assert Collapse("b/c", true) == "b/c";
    assert Collapse("/b/c", true) == "b/c";
    assert Collapse("//b/c", false) == "/b/c";
  }

  /** The index of the last slash of `s`, or -1 when there is none. */
  function LastSlash(s: string): (i: int)
    ensures -1 <= i < |s|
    ensures i >= 0 ==> s[i] == '/'
    ensures forall k | i < k < |s| :: s[k] != '/'
  {
    if s == [] then -1
    else if s[|s| - 1] == '/' then |s| - 1
    else LastSlash(s[..|s| - 1])
  }

  /** The text after the last slash, or all of `p` when it has no slash. */
  function NameAfterLastSlash(p: string): (name: string)
    ensures |name| <= |p|
    ensures forall k | 0 <= k < |name| :: name[k] != '/'
    ensures name == p[|p| - |name|..]
    ensures |name| < |p| ==> p[|p| - |name| - 1] == '/'
    ensures (forall k | 0 <= k < |p| :: p[k] != '/') ==> name == p
  {
    p[LastSlash(p) + 1..]
  }

  /** The path as the program fixes it, with the skipping collapse. */
  function FixedPathAsWritten(path: string): string {
    CollapseAsWritten(Slashed(path), false)
  }

  /**
   * `a//b/c` names its project "bc", as the program fixes the path, and "c"
   * with the corrected collapse; a path without doubled slashes gives the
   * same name both ways.
   */
  lemma ProjectNames()
    ensures NameAfterLastSlash(FixedPathAsWritten("a//b/c")) == "bc"
    ensures NameAfterLastSlash(FixedPath("a//b/c")) == "c"
  {
    AsWrittenMisses();
    CollapseExamples();
    assert Slashed("a//b/c") == "a//b/c";
    assert LastSlash("a/bc") == 1;
    assert LastSlash("a/b/c") == 3;
  }

  /** Without doubled slashes, both fixes of a path agree, and so do the names. */
  lemma CleanPathNamesAgree(path: string)
    requires NoDoubleSlash(Slashed(path))
    ensures FixedPathAsWritten(path) == FixedPath(path) == Slashed(path)
  {
    CollapseKeepsClean(Slashed(path), false);
  }

  /** A project: its name is taken from its directory's path as the program fixes it. */
  class Project {
    var projectName: string

    constructor (path: string)
      ensures projectName == NameAfterLastSlash(FixedPathAsWritten(path))
    {
      var p := FixPathAsWritten(path);
      projectName := NameAfterLastSlash(p);
    }
  }
}
