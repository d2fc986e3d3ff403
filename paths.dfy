/**
 * POSIX path helpers with the meaning of Python's `os.path.basename`, `dirname`,
 * `join` and `splitext` on Linux (separator `/`, extension separator `.`).
 */
module Paths {
  import opened Text

  /** `s.rfind(c)`: the last index holding `c`, or -1. */
  function LastIndexOf(s: string, c: char): (r: int)
    ensures -1 <= r < |s|
    ensures r >= 0 ==> s[r] == c
  {
    if s == [] then -1
    else if s[|s| - 1] == c then |s| - 1
    else LastIndexOf(s[..|s| - 1], c)
  }

  /** No occurrence of `c` follows the one `rfind` finds. */
  lemma {:induction false} LastIndexOfIsLast(s: string, c: char)
    ensures forall k :: LastIndexOf(s, c) < k < |s| ==> s[k] != c
  {
    if s != [] && s[|s| - 1] != c {
      var t := s[..|s| - 1];
      LastIndexOfIsLast(t, c);
      forall k | LastIndexOf(s, c) < k < |s| ensures s[k] != c {
        if k < |t| { assert s[k] == t[k]; }
      }
    }
  }

  /** `os.path.basename(p)`: the part after the last `/`. */
  function Basename(p: string): string {
    p[LastIndexOf(p, '/') + 1..]
  }

  /**
   * The basename is the longest suffix without `/`: it holds no `/`, and it is
   * the whole path or is preceded by a `/`.
   */
  lemma BasenameIsLastComponent(p: string)
    ensures var r := Basename(p);
            && (forall k :: 0 <= k < |r| ==> r[k] != '/')
            && |r| <= |p| && r == p[|p| - |r|..]
            && (r == p || p[|p| - |r| - 1] == '/')
  {
    LastIndexOfIsLast(p, '/');
  }

  /** `s.rstrip('/')` */
  function TrimTrailingSlashes(s: string): (r: string)
    ensures StartsWith(s, r)
    ensures r != [] ==> r[|r| - 1] != '/'
    ensures forall k :: |r| <= k < |s| ==> s[k] == '/'
  {
    if s != [] && s[|s| - 1] == '/' then TrimTrailingSlashes(s[..|s| - 1]) else s
  }

  predicate AllSlashes(s: string) {
    forall k :: 0 <= k < |s| ==> s[k] == '/'
  }

  /**
   * `os.path.dirname(p)`: everything up to the last `/`, without the trailing
   * slashes unless the head consists of slashes only.
   */
  function Dirname(p: string): (r: string)
    ensures StartsWith(p, r)
    ensures '/' !in p ==> r == ""
  {
    var i := LastIndexOf(p, '/') + 1;
    var head := p[..i];
    if head != [] && !AllSlashes(head) then TrimTrailingSlashes(head) else head
  }

  /** `os.path.join(a, b)` */
  function Join(a: string, b: string): string {
    if StartsWith(b, "/") then b
    else if a == [] || EndsWith(a, "/") then a + b
    else a + "/" + b
  }

  /** An absolute `b` replaces `a`; otherwise the result starts with `a` and ends with `b`. */
  lemma JoinShape(a: string, b: string)
    ensures StartsWith(b, "/") ==> Join(a, b) == b
    ensures !StartsWith(b, "/") ==> EndsWith(Join(a, b), b) && StartsWith(Join(a, b), a)
  {
    var r := Join(a, b);
    if !StartsWith(b, "/") {
      var mid := if a == [] || EndsWith(a, "/") then a else a + "/";
      assert r == mid + b;
      assert r[..|a|] == a;
      assert r[|r| - |b|..] == b;
    }
  }

  /** Does `s[lo..hi]` hold a character other than `.`? */
  predicate HasNonDot(s: string, lo: int, hi: int)
    requires 0 <= lo <= hi <= |s|
  {
    exists k :: lo <= k < hi && s[k] != '.'
  }

  /**
   * `os.path.splitext(p)`: the extension starts at the last `.` of the last path
   * component, provided that dot is preceded by some other character of the
   * component (so `.bashrc` has no extension).
   */
  function SplitExt(p: string): (string, string) {
    var s := LastIndexOf(p, '/');
    var d := LastIndexOf(p, '.');
    if d > s && HasNonDot(p, s + 1, d) then (p[..d], p[d..]) else (p, "")
  }

  /**
   * The two parts concatenate back to the path, and the extension is empty or a
   * `.` followed by no other `.` and no `/`.
   */
  lemma SplitExtShape(p: string)
    ensures var r := SplitExt(p);
            && r.0 + r.1 == p
            && (r.1 == "" || (r.1[0] == '.' && '.' !in r.1[1..] && '/' !in r.1))
  {
    var s := LastIndexOf(p, '/');
    var d := LastIndexOf(p, '.');
    if d > s && HasNonDot(p, s + 1, d) {
      LastIndexOfIsLast(p, '/');
      LastIndexOfIsLast(p, '.');
      assert p[..d] + p[d..] == p;
      assert forall k :: 1 <= k < |p[d..]| ==> p[d..][k] == p[d + k];
    }
  }

  /** `os.path.splitext(p)[0]` */
  function Stem(p: string): string {
    SplitExt(p).0
  }

  lemma StemIsPrefix(p: string)
    ensures StartsWith(p, Stem(p))
  {
    var r := Stem(p);
    SplitExtShape(p);
    assert p == r + SplitExt(p).1;
    assert p[..|r|] == r;
  }

  /** A `.wg` or `.xml` suffix on a plain file name is removed by `Stem`. */
  lemma StemDropsExtension(name: string, ext: string)
    requires '/' !in name && '.' !in name && name != ""
    requires ext != "" && '/' !in ext && '.' !in ext
    ensures SplitExt(name + "." + ext) == (name, "." + ext)
  {
    var p := name + "." + ext;
    var d := |name|;
    assert p[d] == '.';
    assert forall k :: d < k < |p| ==> p[k] == ext[k - d - 1];
    LastIndexOfIsLast(p, '.');
    LastIndexOfIsLast(p, '/');
    assert LastIndexOf(p, '.') == d;
    assert forall k :: 0 <= k < |p| ==> p[k] != '/' by {
      forall k | 0 <= k < |p| ensures p[k] != '/' {
        if k < d { assert p[k] == name[k]; }
      }
    }
    assert LastIndexOf(p, '/') == -1;
    assert p[0] == name[0] && name[0] != '.';
    assert HasNonDot(p, 0, d);
    assert p[..d] == name;
    assert p[d..] == "." + ext;
  }

  /** Joining a relative name to a directory without a trailing `/` puts one `/` between them. */
  lemma JoinChild(dir: string, name: string)
    requires dir != "" && dir[|dir| - 1] != '/' && (name == "" || name[0] != '/')
    ensures Join(dir, name) == dir + "/" + name
  {
    assert !EndsWith(dir, "/") by { assert dir[|dir| - 1..] == [dir[|dir| - 1]]; }
    assert !StartsWith(name, "/") by { if |name| >= 1 { assert name[..1] == [name[0]]; } }
  }

  /** A file name without directory part keeps none after its extension is removed. */
  lemma StemOfBasename(p: string)
    ensures '/' !in Stem(Basename(p))
  {
    var b := Basename(p);
    BasenameIsLastComponent(p);
    var r := Stem(b);
    StemIsPrefix(b);
    assert b[..|r|] == r;
    forall k | 0 <= k < |r| ensures r[k] != '/' { assert r[k] == b[k]; }
  }

  /** The directory part and the name part of `dir + "/" + name`. */
  lemma DirnameBasenameOfChild(dir: string, name: string)
    requires dir != "" && dir[|dir| - 1] != '/' && '/' !in name
    ensures Dirname(dir + "/" + name) == dir
    ensures Basename(dir + "/" + name) == name
  {
    var p := dir + "/" + name;
    var i := |dir|;
    assert p[i] == '/';
    assert forall k :: i < k < |p| ==> p[k] == name[k - i - 1];
    LastIndexOfIsLast(p, '/');
    assert LastIndexOf(p, '/') == i;
    var head := p[..i + 1];
    assert head == dir + "/";
    assert head[i - 1] == dir[|dir| - 1];
    assert !AllSlashes(head);
    assert head[..i] == dir;
    assert TrimTrailingSlashes(head) == TrimTrailingSlashes(dir);
  }

  /**
   * Going up two directory levels from `root/dir/file` (as done to find the
   * BenchBase root from the jar path) gives `root` back.
   */
  lemma DirnameTwice(root: string, dir: string, file: string)
    requires root != "" && root[|root| - 1] != '/'
    requires dir != "" && '/' !in dir && '/' !in file
    ensures Dirname(Dirname(root + "/" + dir + "/" + file)) == root
  {
    var q := root + "/" + dir;
    assert q[|q| - 1] == dir[|dir| - 1];
    DirnameBasenameOfChild(q, file);
    DirnameBasenameOfChild(root, dir);
  }
}
