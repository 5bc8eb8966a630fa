/**
 * The two functions of Go's path/filepath package that the handler relies on,
 * on a Unix-like system where '/' is the only path separator.
 */
module GoPath {

  const Separator: char := '/'

  /** `suffix` is a (possibly empty) suffix of `s`. */
  predicate EndsWith(s: string, suffix: string) {
    |suffix| <= |s| && s[|s| - |suffix|..] == suffix
  }

  /** No character of `s` is a '.' or a separator. */
  predicate PlainSegment(s: string) {
    forall k :: 0 <= k < |s| ==> s[k] != '.' && s[k] != Separator
  }

  /**
   * filepath.Ext: the suffix of `path` that starts at the last '.' of its final
   * element, or "" when that element has no '.'. Go scans backwards from the end
   * and stops at the first separator; this recursion peels the last character.
   */
  function Ext(path: string): (e: string)
    ensures EndsWith(path, e)
    ensures e != "" ==> e[0] == '.' && PlainSegment(e[1..])
    ensures e == "" ==>
      forall i :: 0 <= i < |path| && path[i] == '.' ==>
        exists j :: i < j < |path| && path[j] == Separator
  {
    if |path| == 0 then ""
    else
      var c := path[|path| - 1];
      if c == Separator then ""
      else if c == '.' then "."
      else
        var e := Ext(path[..|path| - 1]);
        if e == "" then
          assert forall i :: 0 <= i < |path| - 1 ==> path[..|path| - 1][i] == path[i];
          ""
        else
          assert (e + [c])[1..] == e[1..] + [c];
          e + [c]
  }

  /**
   * filepath.Join of a directory and a file name as the handler uses it. Go's
   * Join also cleans the result; here `dir` is taken to be clean already.
   */
  function Join(dir: string, name: string): (p: string)
    ensures EndsWith(p, name)
    ensures dir == "" ==> p == name
    ensures dir != "" ==> |p| == |dir| + 1 + |name|
    ensures dir != "" ==> |p| > |dir| && p[..|dir|] == dir && p[|dir|] == Separator
  {
    if dir == "" then name else dir + [Separator] + name
  }

  /** A name of the form base + "." + ext, with ext free of dots and separators, has extension "." + ext. */
  lemma {:induction false} ExtOfDottedName(base: string, ext: string)
    requires PlainSegment(ext)
    ensures Ext(base + "." + ext) == "." + ext
    decreases |ext|
  {
    var path := base + "." + ext;
    if ext != [] {
      var init := ext[..|ext| - 1];
      assert path[..|path| - 1] == base + "." + init;
      assert PlainSegment(init);
      ExtOfDottedName(base, init);
      assert "." + init + [ext[|ext| - 1]] == "." + ext;
    }
  }

  /** A name whose final element has no '.' has the empty extension. */
  lemma NoDotNoExt(path: string)
    requires forall i :: 0 <= i < |path| && path[i] == '.' ==>
               exists j :: i < j < |path| && path[j] == Separator
    ensures Ext(path) == ""
  {
  }
}
