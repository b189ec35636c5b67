/** The parts of Go's `path/filepath` the cache builder uses, for '/'-separated paths. */
module FilePath {

  const SEPARATOR: char := '/'

  /** `p` with every trailing separator removed. */
  function TrimTrailingSeparators(p: string): (r: string)
  {
    if |p| > 0 && p[|p| - 1] == SEPARATOR then TrimTrailingSeparators(p[..|p| - 1]) else p
  }

  /** The longest suffix of `p` that holds no separator. */
  function LastElement(p: string): (r: string)
    ensures SEPARATOR !in r
  {
    if p == [] || p[|p| - 1] == SEPARATOR then []
    else LastElement(p[..|p| - 1]) + [p[|p| - 1]]
  }

  /**
   * `filepath.Base`: the last element of the path once trailing separators
   * are dropped; "." for the empty path and "/" for a path of separators only.
   */
  function Base(p: string): (r: string)
    ensures r != ""
    ensures r == "/" || SEPARATOR !in r
    ensures p == "" ==> r == "."
  {
    if p == "" then "."
    else
      var e := LastElement(TrimTrailingSeparators(p));
      if e == "" then "/" else e
  }

  /** `filepath.Join(dir, elem)` for a non-empty `elem`, without the lexical clean-up. */
  function Join(dir: string, elem: string): (r: string)
    ensures |r| >= |elem| && r[|r| - |elem|..] == elem
  {
    if dir == "" then elem
    else if dir[|dir| - 1] == SEPARATOR then dir + elem
    else dir + [SEPARATOR] + elem
  }

  /** After a separator (or at the start), a separator-free tail is the last element. */
  lemma {:induction false} LastElementAppend(a: string, b: string)
    requires a == [] || a[|a| - 1] == SEPARATOR
    requires SEPARATOR !in b
    ensures LastElement(a + b) == b
  {
    if b != [] {
      var init := b[..|b| - 1];
      assert (a + b)[..|a + b| - 1] == a + init;
      LastElementAppend(a, init);
      assert init + [b[|b| - 1]] == b;
    }
  }

  /** Removing trailing separators ignores one more trailing separator. */
  lemma TrimSeparatorSnoc(p: string)
    ensures TrimTrailingSeparators(p + [SEPARATOR]) == TrimTrailingSeparators(p)
  {
    assert (p + [SEPARATOR])[..|p|] == p;
  }

  /** After trimming, the path is empty or ends in something other than a separator. */
  lemma {:induction false} TrimEndsInOther(p: string)
    ensures var t := TrimTrailingSeparators(p); t == [] || t[|t| - 1] != SEPARATOR
    decreases |p|
  {
    if |p| > 0 && p[|p| - 1] == SEPARATOR {
      TrimEndsInOther(p[..|p| - 1]);
    }
  }

  /** Trimming leaves nothing exactly when the path is made only of separators. */
  lemma {:induction false} TrimEmptyIff(p: string)
    ensures TrimTrailingSeparators(p) == [] <==> forall i :: 0 <= i < |p| ==> p[i] == SEPARATOR
    decreases |p|
  {
    if |p| > 0 && p[|p| - 1] == SEPARATOR {
      var init := p[..|p| - 1];
      TrimEmptyIff(init);
      assert forall i :: 0 <= i < |init| ==> init[i] == p[i];
    }
  }

  /** Trailing separators do not change the base name of a non-empty path. */
  lemma BaseIgnoresTrailingSeparator(p: string)
    requires p != ""
    ensures Base(p + [SEPARATOR]) == Base(p)
  {
    TrimSeparatorSnoc(p);
  }

  /** The base name is "/" exactly for a non-empty path made only of separators. */
  lemma BaseRootIff(p: string)
    ensures Base(p) == "/" <==> p != "" && forall i :: 0 <= i < |p| ==> p[i] == SEPARATOR
  {
    if p != "" {
      var t := TrimTrailingSeparators(p);
      TrimEndsInOther(p);
      TrimEmptyIff(p);
      if t != [] {
        assert LastElement(t) == LastElement(t[..|t| - 1]) + [t[|t| - 1]];
      }
    }
  }

  /** A separator-free name inside a directory (empty or ending in a separator) is the base name. */
  lemma BaseInDirectory(dir: string, name: string)
    requires dir == [] || dir[|dir| - 1] == SEPARATOR
    requires name != "" && SEPARATOR !in name
    ensures Base(dir + name) == name
  {
    var p := dir + name;
    assert p[|p| - 1] == name[|name| - 1];
    LastElementAppend(dir, name);
  }

  /** A separator-free path is its own base name. */
  lemma BaseOfPlain(name: string)
    requires name != "" && SEPARATOR !in name
    ensures Base(name) == name
  {
    LastElementAppend([], name);
    assert [] + name == name;
  }

  /**
   * The base name of a file joined onto a directory is the file's name. The
   * names "." and ".." are excluded, since Go's `Join` resolves them away.
   */
  lemma BaseOfJoin(dir: string, name: string)
    requires name != "" && name != "." && name != ".." && SEPARATOR !in name
    ensures Base(Join(dir, name)) == name
  {
    var p := Join(dir, name);
    assert p[|p| - 1] == name[|name| - 1];
    if dir == "" {
      BaseOfPlain(name);
    } else if dir[|dir| - 1] == SEPARATOR {
      LastElementAppend(dir, name);
    } else {
      LastElementAppend(dir + [SEPARATOR], name);
    }
  }
}
