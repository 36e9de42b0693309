/** The part of Node's POSIX `path` module the services use: `path.extname`. */
module NodePath {
  import opened Wrappers
  import opened Sequences

  function StripTrailingSlashes(p: string): (r: string)
    ensures |r| <= |p| && r == p[..|r|]
    ensures r == [] || r[|r| - 1] != '/'
  {
    if p != [] && p[|p| - 1] == '/' then StripTrailingSlashes(p[..|p| - 1]) else p
  }

  /** The last path segment, trailing separators ignored. */
  function Basename(p: string): (r: string)
    ensures '/' !in r
  {
    var q := StripTrailingSlashes(p);
    match LastIndex(q, '/')
    case None => q
    case Some(k) => q[k + 1..]
  }

  /** `path.extname(p)`: the last segment from its last `.` on; empty when the segment has no
      `.`, when its only `.` is the first character (`.bashrc`) or when it is `..`. */
  function Extname(p: string): (r: string)
    ensures r == [] || (r[0] == '.' && '.' !in r[1..] && '/' !in r)
  {
    var b := Basename(p);
    match LastIndex(b, '.')
    case None => ""
    case Some(d) => if d == 0 || b == ".." then "" else b[d..]
  }

  /** A name made of a non-empty stem and a `.xyz` suffix has that suffix as its extension. */
  lemma ExtnameOfName(stem: string, ext: string)
    requires stem != [] && '/' !in stem && '/' !in ext
    requires |ext| >= 2 && ext[0] == '.' && '.' !in ext[1..]
    ensures Extname(stem + ext) == ext
  {
    var p := stem + ext;
    assert p[|p| - 1] == ext[|ext| - 1];
    assert StripTrailingSlashes(p) == p;
    assert '/' !in p by {
      forall i | 0 <= i < |p| ensures p[i] != '/' {
        if i < |stem| { assert p[i] == stem[i]; } else { assert p[i] == ext[i - |stem|]; }
      }
    }
    assert Basename(p) == p;
    assert p[|stem|..] == ext;
    forall k | |stem| < k < |p| ensures p[k] != '.' {
      assert p[k] == ext[1..][k - |stem| - 1];
    }
    assert p[|stem|] == '.';
    assert LastIndex(p, '.') == Some(|stem|);
  }

  /** A name that is nothing but an extension (a hidden file such as `.pdf`) has none. */
  lemma ExtnameOfHiddenName(name: string)
    requires |name| >= 2 && name[0] == '.' && '.' !in name[1..] && '/' !in name
    ensures Extname(name) == ""
  {
    assert StripTrailingSlashes(name) == name;
    assert Basename(name) == name;
    forall k | 0 < k < |name| ensures name[k] != '.' {
      assert name[k] == name[1..][k - 1];
    }
    assert LastIndex(name, '.') == Some(0);
  }
}
