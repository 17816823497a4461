/**
 Canonical namespace paths (meta/namespace.go): components separated by single slashes, no slash at
 either end; the root is the empty path.
 */
module Paths {
  type Path = string

  /** The position of the last slash, or -1. */
  function LastSlash(p: Path): (i: int)
    ensures -1 <= i < |p|
  {
    if p == "" then -1 else if p[|p| - 1] == '/' then |p| - 1 else LastSlash(p[..|p| - 1])
  }

  lemma {:induction false} LastSlashMeaning(p: Path)
    ensures var i := LastSlash(p); (i >= 0 ==> p[i] == '/') && forall j :: i < j < |p| ==> p[j] != '/'
  {
    if p != "" && p[|p| - 1] != '/' {
      LastSlashMeaning(p[..|p| - 1]);
    }
  }

  /** splitPath, for a path that does not start with a slash. */
  function Parent(p: Path): Path {
    if LastSlash(p) >= 0 then p[..LastSlash(p)] else ""
  }

  function Name(p: Path): Path {
    p[LastSlash(p) + 1..]
  }

  predicate Canonical(p: Path) {
    && p != "" && p[0] != '/' && p[|p| - 1] != '/'
    && forall i :: 0 <= i < |p| - 1 ==> SingleAt(p, i)
  }

  predicate SingleAt(p: Path, i: nat)
    requires i + 1 < |p|
  {
    p[i] == '/' ==> p[i + 1] != '/'
  }

  /** `p` is `o` or lies beneath it. */
  predicate Under(p: Path, o: Path) {
    p == o || (|p| > |o| && p[..|o|] == o && p[|o|] == '/')
  }

  function Lower(c: char): char {
    if 'A' <= c <= 'Z' then (c as int + 32) as char else c
  }

  predicate SameFold(a: string, b: string) {
    |a| == |b| && forall i :: 0 <= i < |a| ==> Lower(a[i]) == Lower(b[i])
  }

  /** `p` is `o`, or SQL's LIKE finds it beneath `o`: the comparison ignores the case of ASCII letters. */
  predicate Like(p: Path, o: Path) {
    p == o || (|p| > |o| && SameFold(p[..|o|], o) && p[|o|] == '/')
  }

  /** Where a path under `o` goes when `o` becomes `n`. */
  function Target(p: Path, o: Path, n: Path): Path
    requires Under(p, o)
  {
    n + p[|o|..]
  }

  lemma Split(p: Path)
    requires Canonical(p)
    ensures var i := LastSlash(p);
            if i < 0 then Parent(p) == "" && Name(p) == p
            else i > 0 && Parent(p) == p[..i] && Name(p) == p[i + 1..] && Canonical(p[..i]) && p == Parent(p) + "/" + Name(p)
  {
    var i := LastSlash(p);
    LastSlashMeaning(p);
    if i >= 0 {
      assert SingleAt(p, i - 1);
      forall k | 0 <= k < i - 1 ensures SingleAt(p[..i], k) {
        assert SingleAt(p, k);
      }
    }
  }

  /** The parent of something strictly beneath `o` is `o` or beneath it. */
  lemma ParentUnder(p: Path, o: Path)
    requires Canonical(p) && Under(p, o) && p != o && o != ""
    ensures Parent(p) != "" && Under(Parent(p), o) && |o| <= |Parent(p)| < |p|
  {
    Split(p);
    LastSlashMeaning(p);
    var i := LastSlash(p);
    assert i >= |o|;
    assert p[..i][..|o|] == o;
  }

  lemma {:induction false} LastSlashConcat(a: Path, s: Path)
    requires LastSlash(s) >= 0
    ensures LastSlash(a + s) == |a| + LastSlash(s)
  {
    if s[|s| - 1] != '/' {
      assert (a + s)[..|a + s| - 1] == a + s[..|s| - 1];
      LastSlashConcat(a, s[..|s| - 1]);
    }
  }

  /** Parent and name of a path that continues `o` with a suffix that starts at a slash. */
  lemma SplitSuffix(o: Path, s: Path)
    requires Canonical(o + s) && s != "" && s[0] == '/'
    ensures LastSlash(s) >= 0 && Parent(o + s) == o + s[..LastSlash(s)] && Name(o + s) == s[LastSlash(s) + 1..]
  {
    var j := LastSlash(s);
    LastSlashMeaning(s);
    LastSlashConcat(o, s);
    Split(o + s);
    assert (o + s)[..|o| + j] == o + s[..j];
    assert (o + s)[|o| + j + 1..] == s[j + 1..];
  }

  lemma TargetUnder(p: Path, o: Path, n: Path)
    requires Under(p, o)
    ensures Under(Target(p, o, n), n) && Target(Target(p, o, n), n, o) == p
  {
  }

  /** What lies beneath something LIKE finds is found too. */
  lemma LikeDeeper(b: Path, a: Path, o: Path)
    requires Under(b, a) && Like(a, o)
    ensures Like(b, o)
  {
    if a != o && b != a {
      assert b[..|o|] == b[..|a|][..|o|];
    }
  }

  lemma UnderTrans(a: Path, b: Path, c: Path)
    requires Under(a, b) && Under(b, c)
    ensures Under(a, c)
  {
  }

  /** ancestorsOf: every proper ancestor, deepest first. */
  function Ancestors(p: Path): seq<Path>
    requires Canonical(p)
    decreases |p|
  {
    Split(p);
    if Parent(p) == "" then [] else [Parent(p)] + Ancestors(Parent(p))
  }

  lemma {:induction false} AncestorsAbove(p: Path, a: Path)
    requires Canonical(p) && a in Ancestors(p)
    ensures Canonical(a) && Under(p, a) && |a| < |p| && (Parent(a) == "" || Parent(a) in Ancestors(p))
    decreases |p|
  {
    Split(p);
    var q := Parent(p);
    assert Under(p, q) by { assert p[..|q|] == q && p[|q|] == '/'; }
    if a == q {
      assert Ancestors(p)[0] == q;
      Split(q);
      assert Parent(q) != "" ==> Ancestors(q)[0] == Parent(q) && Parent(q) in Ancestors(q);
    } else {
      assert a in Ancestors(q);
      AncestorsAbove(q, a);
      UnderTrans(p, q, a);
    }
  }
}
