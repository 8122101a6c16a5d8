/** Go's `path.Dir` and `path.Base` on the slash-separated keys of the store. */
module Paths {

  /** strings.LastIndex(s, "/"): the index of the last slash, or -1
      (LastSlashIsLast says so). The contracts of the two helpers here are
      kept as lemmas, so that reasoning about Dir and Base elsewhere does
      not have to carry them. */
  function LastSlash(s: string): (i: int)
    ensures -1 <= i < |s|
  {
    if s == [] then -1
    else if s[|s| - 1] == '/' then |s| - 1
    else LastSlash(s[..|s| - 1])
  }

  lemma {:induction false} LastSlashIsLast(s: string)
    ensures var i := LastSlash(s);
      && (0 <= i ==> s[i] == '/')
      && (forall k :: i < k < |s| ==> s[k] != '/')
  {
    if s != [] && s[|s| - 1] != '/' {
      LastSlashIsLast(s[..|s| - 1]);
    }
  }

  /** s with every trailing slash removed (TrimmedIsPrefix says so). */
  function TrimTrailingSlashes(s: string): (t: string)
    ensures |t| <= |s|
  {
    if s != [] && s[|s| - 1] == '/' then TrimTrailingSlashes(s[..|s| - 1]) else s
  }

  lemma {:induction false} TrimmedIsPrefix(s: string)
    ensures var t := TrimTrailingSlashes(s);
      && t <= s
      && (t == [] || t[|t| - 1] != '/')
      && (forall k :: |t| <= k < |s| ==> s[k] == '/')
  {
    if s != [] && s[|s| - 1] == '/' {
      TrimmedIsPrefix(s[..|s| - 1]);
    }
  }

  /** path.Dir: everything up to the last slash, without trailing slashes;
      "." when there is no slash and "/" when only slashes remain. Go then
      cleans the result; for the keys the store hands out (absolute, no
      "." or ".." segments, no doubled slashes) cleaning changes nothing
      beyond the trailing slashes removed here. */
  function Dir(s: string): (d: string)
    ensures d != []
  {
    var i := LastSlash(s);
    if i < 0 then "."
    else
      var d := TrimTrailingSlashes(s[..i + 1]);
      if d == [] then "/" else d
  }

  /** A directory other than "." and "/" is a prefix of the key, ending
      before the key's last slash and not in a slash itself. */
  lemma DirIsPrefix(s: string)
    ensures var d := Dir(s);
      d == "." || d == "/" || (|d| <= LastSlash(s) && d == s[..|d|] && d[|d| - 1] != '/')
  {
    var i := LastSlash(s);
    if i >= 0 {
      LastSlashIsLast(s);
      TrimmedIsPrefix(s[..i + 1]);
      var d := TrimTrailingSlashes(s[..i + 1]);
      if d != [] {
        assert s[i] == '/';
        assert |d| <= i;
      }
    }
  }

  /** path.Base: the last element after trailing slashes are removed;
      "." for the empty path and "/" for a path of slashes only. */
  function Base(s: string): (b: string)
    ensures b != []
  {
    if s == [] then "."
    else
      var t := TrimTrailingSlashes(s);
      var last := t[LastSlash(t) + 1..];
      if last == [] then "/" else last
  }

  /** A base name other than "/" is a single element: it holds no slash. */
  lemma BaseHasNoSlash(s: string)
    ensures Base(s) != "/" ==> forall k :: 0 <= k < |Base(s)| ==> Base(s)[k] != '/'
  {
    if s != [] {
      var t := TrimTrailingSlashes(s);
      var last := t[LastSlash(t) + 1..];
      AfterLastSlash(t);
      assert forall k :: 0 <= k < |last| ==> last[k] != '/';
    }
  }

  /** No slash follows the last slash. */
  lemma AfterLastSlash(t: string)
    ensures forall k :: LastSlash(t) + 1 <= k < |t| ==> t[k] != '/'
  {
    LastSlashIsLast(t);
  }

  /** Joining a directory and a slash-free name with "/" and splitting the
      result again with Dir and Base gives back the two parts. */
  lemma DirBaseOfJoin(dir: string, name: string)
    requires dir != [] && dir[|dir| - 1] != '/'
    requires name != [] && forall k :: 0 <= k < |name| ==> name[k] != '/'
    ensures Dir(dir + "/" + name) == dir
    ensures Base(dir + "/" + name) == name
  {
    var s := dir + "/" + name;
    LastSlashIsLast(s);
    assert s[|dir|] == '/';
    assert forall k :: |dir| < k < |s| ==> s[k] == name[k - |dir| - 1];
    assert LastSlash(s) == |dir|;
    assert s[..|dir| + 1] == dir + "/";
    assert TrimTrailingSlashes(dir + "/") == TrimTrailingSlashes(dir) by {
      assert (dir + "/")[..|dir|] == dir;
    }
    assert TrimTrailingSlashes(s) == s;
    assert s[|dir| + 1..] == name;
  }

  /** s[i..j] is a whole element of s made of one or two dots only. */
  predicate DotElement(s: string, i: nat, j: nat)
    requires i < j <= |s|
  {
    && j - i <= 2
    && (i == 0 || s[i - 1] == '/')
    && (j == |s| || s[j] == '/')
    && forall k :: i <= k < j ==> s[k] == '.'
  }

  /** A prefix that path.Clean leaves alone when a path is built on it: no
      doubled slash, no trailing slash, no "." or ".." element. The empty
      prefix qualifies; "/" does not, since "/" + "/x" holds "//". */
  predicate IsCleanPrefix(s: string)
  {
    && (forall k :: 0 < k < |s| ==> !(s[k - 1] == '/' && s[k] == '/'))
    && (s != [] ==> s[|s| - 1] != '/')
    && (forall i, j :: 0 <= i < j <= |s| ==> !DotElement(s, i, j))
  }

  /** A path that holds a slash and is not "/" is never its own directory. */
  lemma {:induction false} DirIsNotSelf(s: string)
    requires LastSlash(s) >= 0 && s != "/"
    ensures Dir(s) != s
  {
    var i := LastSlash(s);
    var d := TrimTrailingSlashes(s[..i + 1]);
    LastSlashIsLast(s);
    TrimmedIsPrefix(s[..i + 1]);
    if d == [] {
      assert s[0] == '/';
      assert |s| > 1;
    } else {
      assert |d| <= i + 1;
      assert d[|d| - 1] != '/';
      assert |d| < i + 1;
    }
  }
}
