/**
 * The parts of Node's `path` module (POSIX flavour) used by the upload
 * middleware: `basename` and `extname`. Paths are taken not to end in `/`.
 */
module Paths {
  import opened Text

  /** Index of the last `c` in `s`, or -1 when there is none. */
  function LastIndexOf(s: string, c: char): (r: int)
    ensures -1 <= r < |s|
    ensures r >= 0 ==> s[r] == c && forall i :: r < i < |s| ==> s[i] != c
    ensures r == -1 ==> forall i :: 0 <= i < |s| ==> s[i] != c
    decreases |s|
  {
    if s == [] then -1
    else if s[|s| - 1] == c then |s| - 1
    else LastIndexOf(s[..|s| - 1], c)
  }

  /** `path.basename(p)`: what follows the last `/`. */
  function Basename(p: string): (r: string)
    ensures '/' !in r
    ensures EndsWith(p, r)
    ensures '/' !in p ==> r == p
  {
    var k := LastIndexOf(p, '/');
    p[k + 1..]
  }

  /** A suffix of a suffix is a suffix. */
  lemma EndsWithTail(p: string, b: string, k: nat)
    requires EndsWith(p, b) && k <= |b|
    ensures EndsWith(p, b[k..])
  {
    assert p[|p| - |b[k..]|..] == p[|p| - |b|..][k..];
  }

  /** The tail after the last `c` holds no `c`. */
  lemma AfterLast(s: string, c: char, d: nat)
    requires d < |s| && s[d] == c && forall i :: d < i < |s| ==> s[i] != c
    ensures c !in s[d..][1..]
  {
    forall j | 0 <= j < |s[d..][1..]| ensures s[d..][1..][j] != c {
      assert s[d..][1..][j] == s[d + 1 + j];
    }
  }

  /**
   * `path.extname(p)`: from the last `.` of the base name to its end, or `''`
   * when that `.` is missing or is the first character of the base name, or
   * when the base name is `..`.
   */
  function ExtName(p: string): (r: string)
    ensures r == [] || (r[0] == '.' && '.' !in r[1..] && '/' !in r)
    ensures EndsWith(p, r)
  {
    var b := Basename(p);
    var d := LastIndexOf(b, '.');
    if d <= 0 || b == ".." then ""
    else
      AfterLast(b, '.', d);
      EndsWithTail(p, b, d);
      b[d..]
  }

  /** The last position of `c` is the one after which no `c` follows. */
  lemma LastIndexAt(s: string, c: char, k: nat)
    requires k < |s| && s[k] == c && forall i :: k < i < |s| ==> s[i] != c
    ensures LastIndexOf(s, c) == k
  {
  }

  /** A character in neither part is not in the concatenation. */
  lemma NotInConcat(a: string, b: string, c: char)
    requires c !in a && c !in b
    ensures c !in a + b
  {
    forall i | 0 <= i < |a + b| ensures (a + b)[i] != c {
      if i >= |a| { assert (a + b)[i] == b[i - |a|]; }
    }
  }

  /**
   * A name made of a stem without `/` or `.` (and not empty) followed by an
   * extension keeps that extension: `extname` gives it back.
   */
  lemma ExtNameOfStemAndExt(stem: string, ext: string)
    requires stem != [] && '/' !in stem && '.' !in stem
    requires ext == [] || (ext[0] == '.' && '.' !in ext[1..] && '/' !in ext)
    ensures ExtName(stem + ext) == ext
  {
    var p := stem + ext;
    if ext == [] {
      assert p == stem;
    } else {
      NotInConcat(stem, ext, '/');
      assert Basename(p) == p;
      forall i | |stem| < i < |p| ensures p[i] != '.' {
        assert p[i] == ext[1..][i - |stem| - 1];
      }
      LastIndexAt(p, '.', |stem|);
      assert p[0] == stem[0];
      assert p[|stem|..] == ext;
    }
  }

  /** The base name of `dir/name` is `name` when `name` has no `/`. */
  lemma BasenameOfJoin(dir: string, name: string)
    requires '/' !in name
    ensures Basename(dir + "/" + name) == name
  {
    var p := dir + "/" + name;
    forall i | |dir| < i < |p| ensures p[i] != '/' {
      assert p[i] == name[i - |dir| - 1];
    }
    assert p[|dir|] == '/';
    assert LastIndexOf(p, '/') == |dir|;
    assert p[|dir| + 1..] == name;
  }

  /** Joining a folder in front changes neither the base name's extension. */
  lemma ExtNameOfJoin(dir: string, name: string)
    requires '/' !in name
    ensures ExtName(dir + "/" + name) == ExtName(name)
  {
    BasenameOfJoin(dir, name);
  }
}
