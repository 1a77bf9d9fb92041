/**
 * The two `pathlib.PurePath` attributes the configuration generator relies
 * on, for normalised POSIX paths: `name`, the text after the last `/`, and
 * `suffix`, the final component's extension from its last dot.
 */
module Paths {
  import opened Wrappers
  import opened Text

  /** Position of the last `c` in `s`. */
  function LastIndexOf(s: string, c: char): (r: Option<nat>)
    ensures r.None? ==> c !in s
    ensures r.Some? ==> r.value < |s| && s[r.value] == c && c !in s[r.value + 1..]
  {
    if s == [] then None
    else if s[|s| - 1] == c then Some(|s| - 1)
    else
      var r := LastIndexOf(s[..|s| - 1], c);
      assert s == s[..|s| - 1] + [s[|s| - 1]];
      if r.Some? then
        assert s[r.value + 1..] == s[..|s| - 1][r.value + 1..] + [s[|s| - 1]];
        r
      else r
  }

  /** `PurePath(p).name`. */
  function Name(path: string): (n: string)
    ensures EndsWith(path, n) && '/' !in n
    ensures n == path || path[|path| - |n| - 1] == '/'
  {
    match LastIndexOf(path, '/')
    case None => path
    case Some(i) => path[i + 1..]
  }

  /** `PurePath(p).suffix`: from the last dot of the name, unless that dot starts or ends it. */
  function Suffix(path: string): (x: string)
    ensures x == [] || (x[0] == '.' && |x| >= 2 && EndsWith(Name(path), x) && '.' !in x[1..] && |x| < |Name(path)|)
  {
    var name := Name(path);
    match LastIndexOf(name, '.')
    case Some(i) =>
      if 0 < i < |name| - 1 then
        assert name[i..][1..] == name[i + 1..];
        name[i..]
      else []
    case None => []
  }

  lemma {:induction false} LastIndexOfAppend(s: string, t: string, c: char)
    requires c !in t
    ensures LastIndexOf(s + t, c) == LastIndexOf(s, c)
    decreases |t|
  {
    if t != [] {
      var u := s + t[..|t| - 1];
      assert (s + t)[..|s + t| - 1] == u;
      assert t[..|t| - 1] + [t[|t| - 1]] == t;
      LastIndexOfAppend(s, t[..|t| - 1], c);
    } else {
      assert s + t == s;
    }
  }

  lemma NameOfAppend(stem: string, ext: string)
    requires '/' !in ext
    ensures Name(stem + ext) == Name(stem) + ext
  {
    LastIndexOfAppend(stem, ext, '/');
    match LastIndexOf(stem, '/')
    case None =>
    case Some(i) =>
      assert (stem + ext)[i + 1..] == stem[i + 1..] + ext;
  }

  lemma LastDotOf(base: string, ext: string)
    requires |ext| >= 1 && ext[0] == '.' && '.' !in ext[1..]
    ensures LastIndexOf(base + ext, '.') == Some(|base|)
  {
    assert base + ext == (base + [ext[0]]) + ext[1..];
    LastIndexOfAppend(base + [ext[0]], ext[1..], '.');
  }

  /** A name ending in `ext` (one leading dot, no other dot or slash) after a non-empty stem has suffix `ext`. */
  lemma SuffixOfExtension(stem: string, ext: string)
    requires |ext| >= 2 && ext[0] == '.' && '.' !in ext[1..] && '/' !in ext
    requires stem != [] && stem[|stem| - 1] != '/'
    ensures Suffix(stem + ext) == ext
  {
    NameOfAppend(stem, ext);
    var base := Name(stem);
    assert base != [];
    LastDotOf(base, ext);
    assert (base + ext)[|base|..] == ext;
  }
}
