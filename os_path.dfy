/**
 * The string operations that process uses to derive output names:
 * str.endswith and the POSIX forms of os.path.basename, os.path.splitext
 * and os.path.join, with '/' as the only separator.
 */
module OsPath {

  /** str.endswith: s is what stands in front of the suffix, followed by the suffix. */
  predicate EndsWith(s: string, suffix: string)
    ensures EndsWith(s, suffix) <==> |suffix| <= |s| && s == s[..|s| - |suffix|] + suffix
  {
    |suffix| <= |s| && s[|s| - |suffix|..] == suffix
  }

  /** The last component of a path: everything after its last '/'. */
  function Basename(path: string): (name: string)
    ensures EndsWith(path, name)
    ensures '/' !in name
    ensures |name| == |path| || path[|path| - |name| - 1] == '/'
  {
    if path == [] || path[|path| - 1] == '/' then []
    else Basename(path[..|path| - 1]) + [path[|path| - 1]]
  }

  /** The index of the last '.', or -1. */
  function LastDot(s: string): (i: int)
    ensures -1 <= i < |s|
    ensures i >= 0 ==> s[i] == '.'
    ensures forall j :: i < j < |s| ==> s[j] != '.'
  {
    if s == [] then -1
    else if s[|s| - 1] == '.' then |s| - 1
    else LastDot(s[..|s| - 1])
  }

  predicate AllDots(s: string)
  {
    forall j :: 0 <= j < |s| ==> s[j] == '.'
  }

  /**
   * What makes (stem, ext) the splitext of stem + ext: either the
   * extension is empty and no dot of the name has a non-dot in front of it,
   * or the extension runs from the last dot on and the stem holds a non-dot.
   */
  predicate IsSplit(stem: string, ext: string)
  {
    var name := stem + ext;
    if ext == [] then
      forall i :: 0 <= i < |name| && name[i] == '.' ==> AllDots(name[..i])
    else
      ext[0] == '.' && '.' !in ext[1..] && !AllDots(stem)
  }

  /**
   * os.path.splitext: splits at the last dot, unless everything in front
   * of that dot is dots (so ".bashrc" has no extension).
   */
  function SplitExt(name: string): (parts: (string, string))
    ensures parts.0 + parts.1 == name
    ensures IsSplit(parts.0, parts.1)
  {
    var i := LastDot(name);
    if i >= 0 && !AllDots(name[..i]) then
      assert name[..i] + name[i..] == name;
      (name[..i], name[i..])
    else
      assert forall k :: 0 <= k < |name| && name[k] == '.' ==> k <= i && AllDots(name[..k]) by {
        forall k | 0 <= k < |name| && name[k] == '.'
          ensures k <= i && AllDots(name[..k])
        {
          assert name[..k] == name[..i][..k];
        }
      }
      assert name + [] == name;
      (name, [])
  }

  /** The split is determined by the name: any split with the defining property is the one splitext returns. */
  lemma SplitExtUnique(stem: string, ext: string)
    requires IsSplit(stem, ext)
    ensures SplitExt(stem + ext) == (stem, ext)
  {
    var name := stem + ext;
    var (s, e) := SplitExt(name);
    assert name[..|s|] == s && name[..|stem|] == stem;
    assert e != [] ==> name[|s|] == e[0];
    assert ext != [] ==> name[|stem|] == ext[0];
    if ext != [] && e != [] {
      LastDotOfSplit(stem, ext);
      LastDotOfSplit(s, e);
      assert e == name[|s|..] && ext == name[|stem|..];
    }
  }

  /** A non-empty extension starts at the last dot of the name. */
  lemma LastDotOfSplit(stem: string, ext: string)
    requires ext != [] && ext[0] == '.' && '.' !in ext[1..]
    ensures LastDot(stem + ext) == |stem|
  {
    var name := stem + ext;
    assert name[|stem|] == '.';
    assert forall j :: |stem| < j < |name| ==> name[j] == ext[1..][j - |stem| - 1] != '.';
  }

  /** A name with no separator, put after a separator, is the basename of the result. */
  lemma {:induction false} BasenameAfterSeparator(dir: string, name: string)
    requires dir == [] || dir[|dir| - 1] == '/'
    ensures '/' !in name ==> Basename(dir + name) == name
  {
    if name == [] {
      assert dir + name == dir;
    } else if '/' !in name {
      var last := name[|name| - 1];
      var init := name[..|name| - 1];
      assert name == init + [last];
      assert dir + name == (dir + init) + [last];
      BasenameAfterSeparator(dir, init);
    }
  }

  /**
   * path is name placed in the directory dir: it ends with name, and what
   * stands in front of name is dir, followed by a '/' exactly when dir is
   * non-empty and does not already end with one.
   */
  predicate InFolder(path: string, dir: string, name: string)
  {
    EndsWith(path, name) &&
    var front := path[..|path| - |name|];
    (front == dir <==> (dir == [] || dir[|dir| - 1] == '/')) &&
    (front == dir || front == dir + "/") &&
    (front == [] || front[|front| - 1] == '/')
  }

  /** os.path.join of a directory and one further component without separators: that component in that directory. */
  function Join(dir: string, name: string): (path: string)
    ensures '/' !in name ==> Basename(path) == name && InFolder(path, dir, name)
  {
    if |name| > 0 && name[0] == '/' then name
    else if dir == [] || dir[|dir| - 1] == '/' then
      BasenameAfterSeparator(dir, name);
      dir + name
    else
      assert dir + "/" + name == (dir + "/") + name;
      BasenameAfterSeparator(dir + "/", name);
      dir + "/" + name
  }
}
