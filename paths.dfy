/**
 * The two POSIX path operations the reader relies on: `os.path.splitext`,
 * which cuts a path into a root and a final extension, and
 * `os.path.join` of a directory and one name.
 */
module Paths {

  /** `s.rfind(c)`: the last index holding `c`, or -1. */
  function LastIndexOf(s: string, c: char): (r: int)
    ensures -1 <= r < |s|
    ensures r >= 0 ==> s[r] == c
    ensures forall k :: r < k < |s| ==> s[k] != c
  {
    if |s| == 0 then -1
    else if s[|s| - 1] == c then |s| - 1
    else LastIndexOf(s[..|s| - 1], c)
  }

  /** The index of the final '.', when it starts an extension: after the last '/' and not part of a leading run of dots. */
  predicate HasExtension(p: string) {
    var sep := LastIndexOf(p, '/');
    var dot := LastIndexOf(p, '.');
    dot > sep && exists k :: sep < k < dot && p[k] != '.'
  }

  /** `os.path.splitext(p)`: (root, extension). */
  function SplitExt(p: string): (r: (string, string))
    ensures r.0 + r.1 == p
    ensures r.1 != "" <==> HasExtension(p)
    ensures r.1 != "" ==> |r.0| == LastIndexOf(p, '.')
  {
    if HasExtension(p) then
      var dot := LastIndexOf(p, '.');
      (p[..dot], p[dot..])
    else (p, "")
  }

  /** `os.path.splitext(p)[0]` */
  function Root(p: string): string {
    SplitExt(p).0
  }

  /** Everything up to and including the last '/': the directory part, kept by `Root`. */
  function DirPrefix(p: string): string {
    p[..LastIndexOf(p, '/') + 1]
  }

  /** `os.path.join(dir, name)` for one name. */
  function Join(dir: string, name: string): (r: string)
    ensures |name| > 0 && name[0] == '/' ==> r == name
  {
    if |name| > 0 && name[0] == '/' then name
    else if |dir| == 0 || dir[|dir| - 1] == '/' then dir + name
    else dir + "/" + name
  }

  /** A suffix like ".idx": one dot, then no dot and no separator. */
  predicate IsSimpleExtension(e: string) {
    |e| >= 1 && e[0] == '.' && forall i :: 1 <= i < |e| ==> e[i] != '.' && e[i] != '/'
  }

  /** The last segment of a path has a character other than '.'. */
  predicate HasPlainStem(p: string) {
    exists k :: LastIndexOf(p, '/') < k < |p| && p[k] != '.'
  }

  /** The extension is empty or starts at a '.', and holds no '/' and no other '.'. */
  lemma ExtensionShape(p: string)
    ensures var e := SplitExt(p).1;
      && (e == "" || e[0] == '.')
      && (forall i :: 0 <= i < |e| ==> e[i] != '/')
      && (forall i :: 1 <= i < |e| ==> e[i] != '.')
  {
    if HasExtension(p) {
      var sep := LastIndexOf(p, '/');
      var dot := LastIndexOf(p, '.');
      forall i | 0 <= i < |p| - dot
        ensures p[dot..][i] != '/'
        ensures i >= 1 ==> p[dot..][i] != '.'
      {
        assert p[dot..][i] == p[dot + i];
      }
    }
  }

  /** Joining a relative name to a directory gives a path that starts with the directory and ends with the name. */
  lemma JoinRelative(dir: string, name: string)
    requires |name| == 0 || name[0] != '/'
    ensures var r := Join(dir, name);
      && dir <= r
      && |name| <= |r| && r[|r| - |name|..] == name
  {
  }

  /**
   * Joining a relative name without '/' to a directory makes that name
   * the last segment of the result: `basename(join(d, n)) == n`.
   */
  lemma JoinLastSegment(dir: string, name: string)
    requires |name| > 0 && forall i :: 0 <= i < |name| ==> name[i] != '/'
    ensures var r := Join(dir, name);
      r[LastIndexOf(r, '/') + 1..] == name
  {
    var r := Join(dir, name);
    if |dir| == 0 {
      LastIndexOfAppend("", name, '/');
      assert r == "" + name;
    } else if dir[|dir| - 1] == '/' {
      LastIndexOfAppend(dir, name, '/');
    } else {
      LastIndexOfAppend(dir + "/", name, '/');
      assert dir + "/" == dir + ['/'];
      assert LastIndexOf(dir + "/", '/') == |dir|;
    }
  }

  /** `Root` keeps the directory part of the path. */
  lemma RootKeepsDirectory(p: string)
    ensures DirPrefix(p) <= Root(p)
  {
  }

  /** The last index of `c` in `s + t`, when `t` does not hold `c`, is its last index in `s`. */
  lemma {:induction false} LastIndexOfAppend(s: string, t: string, c: char)
    requires forall i :: 0 <= i < |t| ==> t[i] != c
    ensures LastIndexOf(s + t, c) == LastIndexOf(s, c)
    decreases |t|
  {
    if |t| > 0 {
      var u := s + t;
      assert u[..|u| - 1] == s + t[..|t| - 1];
      LastIndexOfAppend(s, t[..|t| - 1], c);
    } else {
      assert s + t == s;
    }
  }

  /**
   * Replacing the extension of a path with a plain stem and replacing it
   * again gives the same root: `splitext(splitext(p)[0] + e)[0]` is
   * `splitext(p)[0]`, which makes "x.wpk" and "x.idx" name each other.
   */
  lemma RootOfReplacedExtension(p: string, e: string)
    requires IsSimpleExtension(e) && HasPlainStem(Root(p))
    ensures Root(Root(p) + e) == Root(p)
    ensures SplitExt(Root(p) + e).1 == e
  {
    var r := Root(p);
    var q := r + e;
    var rest := e[1..];
    assert q == (r + ".") + rest;
    LastIndexOfAppend(r + ".", rest, '.');
    LastIndexOfAppend(r + ".", rest, '/');
    assert r + "." == r + ['.'];
    LastIndexOfAppend(r, ".", '/');
    assert LastIndexOf(q, '.') == |r|;
    var k :| LastIndexOf(r, '/') < k < |r| && r[k] != '.';
    assert q[k] == r[k];
    assert HasExtension(q);
    assert q[..|r|] == r;
  }
}
