/**
 * The parts of a file path that Foundation's `URL` exposes and the app shows: the last path
 * component, and that component without its extension. A file URL is modelled by its path.
 */
module Paths {
  import opened Wrappers

  /** The position of the last `c` in `s`. */
  function LastIndex(s: string, c: char): (r: Option<nat>)
    ensures r.Some? ==> r.value < |s| && s[r.value] == c && c !in s[r.value + 1..]
    ensures r.None? ==> c !in s
  {
    if s == [] then None
    else if s[|s| - 1] == c then Some(|s| - 1)
    else
      var r := LastIndex(s[..|s| - 1], c);
      assert s == s[..|s| - 1] + [s[|s| - 1]];
      r
  }

  /** The last `c` of `a + [c] + b` is the one between them when `b` holds none. */
  lemma {:induction false} LastIndexAfter(a: string, c: char, b: string)
    requires c !in b
    ensures LastIndex(a + [c] + b, c) == Some(|a|)
    decreases |b|
  {
    var s := a + [c] + b;
    if b != [] {
      assert s[|s| - 1] == b[|b| - 1];
      assert s[..|s| - 1] == a + [c] + b[..|b| - 1];
      LastIndexAfter(a, c, b[..|b| - 1]);
    }
  }

  /** The path without the slashes that end it. */
  function TrimTrailingSlashes(path: string): (r: string)
    ensures |r| <= |path| && r == path[..|r|]
    ensures r == [] || r[|r| - 1] != '/'
    ensures forall k | |r| <= k < |path| :: path[k] == '/'
  {
    if path != [] && path[|path| - 1] == '/' then TrimTrailingSlashes(path[..|path| - 1]) else path
  }

  /**
   * `lastPathComponent`: what follows the last slash, trailing slashes ignored; the root
   * path is its own last component.
   */
  function LastPathComponent(path: string): (r: string)
    ensures '/' !in r || r == "/"
    ensures path != [] ==> r != []
  {
    var trimmed := TrimTrailingSlashes(path);
    if trimmed == [] then (if path == [] then "" else "/")
    else match LastIndex(trimmed, '/')
      case Some(k) => trimmed[k + 1..]
      case None => trimmed
  }

  /**
   * `deletingPathExtension` on a last component: everything before its last dot, when that
   * dot is neither the first nor the last character.
   */
  function DeletingPathExtension(name: string): (r: string)
    ensures |r| <= |name| && r == name[..|r|]
    ensures name != [] ==> r != []
  {
    match LastIndex(name, '.')
    case Some(k) => if 0 < k < |name| - 1 then name[..k] else name
    case None => name
  }

  /** A component followed by an extension of the form `.ext`, or by nothing. */
  predicate Extension(suffix: string) {
    suffix == [] || (|suffix| >= 2 && suffix[0] == '.' && '.' !in suffix[1..] && '/' !in suffix[1..])
  }

  /** The last component of `dir/leaf` is `leaf` when the leaf holds no slash. */
  lemma LastComponentOfPath(dir: string, leaf: string)
    requires leaf != [] && '/' !in leaf
    ensures LastPathComponent(dir + "/" + leaf) == leaf
  {
    var path := dir + ['/'] + leaf;
    assert path == dir + "/" + leaf;
    assert path[|path| - 1] == leaf[|leaf| - 1];
    assert TrimTrailingSlashes(path) == path;
    LastIndexAfter(dir, '/', leaf);
    assert path[|dir| + 1..] == leaf;
  }

  /** A name followed by `.ext` loses exactly that extension. */
  lemma ExtensionOfName(name: string, suffix: string)
    requires name != [] && '.' !in name && Extension(suffix)
    ensures DeletingPathExtension(name + suffix) == name
  {
    if suffix == [] {
      assert name + suffix == name;
    } else {
      assert name + suffix == name + ['.'] + suffix[1..];
      LastIndexAfter(name, '.', suffix[1..]);
      assert (name + suffix)[..|name|] == name;
    }
  }

  /** The name of a file `dir/name.ext` (or `dir/name`) comes back out of its path. */
  lemma NameOfPath(dir: string, name: string, suffix: string)
    requires name != [] && '/' !in name && '.' !in name && Extension(suffix)
    ensures LastPathComponent(dir + "/" + name + suffix) == name + suffix
    ensures DeletingPathExtension(name + suffix) == name
  {
    var leaf := name + suffix;
    assert '/' !in leaf by {
      if suffix != [] {
        assert leaf == name + [suffix[0]] + suffix[1..];
      }
    }
    assert dir + "/" + name + suffix == dir + "/" + leaf;
    LastComponentOfPath(dir, leaf);
    ExtensionOfName(name, suffix);
  }
}
