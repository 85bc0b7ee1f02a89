/** POSIX path handling as Python's `posixpath` does it: `join` of two parts,
    `basename`, and `splitext` (the extension is the part of the last path
    component from its last dot, unless that component is only dots before it). */
module Paths {
  import opened Text

  /** Python `s.rfind(c)`: the last index of `c`, or -1. */
  function RFind(s: string, c: char): (r: int)
    ensures -1 <= r < |s|
    ensures r >= 0 ==> s[r] == c
    ensures forall k :: r < k < |s| ==> s[k] != c
    decreases |s|
  {
    if s == [] then -1 else if s[|s| - 1] == c then |s| - 1 else RFind(s[..|s| - 1], c)
  }

  /** `os.path.join(a, b)`: an absolute second part replaces the first. */
  function Join(a: string, b: string): string
  {
    if StartsWith(b, "/") then b
    else if a == "" || EndsWith(a, "/") then a + b
    else a + "/" + b
  }

  /** What `Join(dir, name)` puts in front of a relative name. */
  function DirPrefix(dir: string): string
  {
    if dir == "" || EndsWith(dir, "/") then dir else dir + "/"
  }

  /** `p` lies inside directory `dir` (what `shutil.rmtree(dir)` removes). */
  predicate IsUnder(p: string, dir: string)
  {
    dir != "" && StartsWith(p, DirPrefix(dir))
  }

  /** Joining a relative name puts it directly after the directory prefix, and the
      result lies inside the directory. */
  lemma JoinRelative(dir: string, name: string)
    requires !StartsWith(name, "/")
    ensures Join(dir, name) == DirPrefix(dir) + name
    ensures dir != "" ==> IsUnder(Join(dir, name), dir)
  {
    var j := Join(dir, name);
    assert j[..|DirPrefix(dir)|] == DirPrefix(dir);
  }

  /** Joining is injective in the relative name. */
  lemma JoinInjective(dir: string, a: string, b: string)
    requires !StartsWith(a, "/") && !StartsWith(b, "/")
    requires Join(dir, a) == Join(dir, b)
    ensures a == b
  {
    JoinRelative(dir, a);
    JoinRelative(dir, b);
    var p := DirPrefix(dir);
    assert a == (p + a)[|p|..];
    assert b == (p + b)[|p|..];
  }

  /** Nothing after the last occurrence of `c` is `c`. */
  lemma AfterRFind(s: string, c: char)
    ensures c !in s[RFind(s, c) + 1..]
  {
    var i := RFind(s, c);
    var t := s[i + 1..];
    forall k | 0 <= k < |t| ensures t[k] != c {
      assert t[k] == s[i + 1 + k];
    }
  }

  /** The last occurrence is found where `c` stands with no `c` after it. */
  lemma RFindAt(s: string, c: char, at: nat)
    requires at < |s| && s[at] == c
    requires forall k :: at < k < |s| ==> s[k] != c
    ensures RFind(s, c) == at
  {
  }

  /** With no `c` from `at` on, the last occurrence is before `at`. */
  lemma RFindBefore(s: string, c: char, at: nat)
    requires forall k :: at <= k < |s| ==> s[k] != c
    ensures RFind(s, c) < at
  {
  }

  /** `os.path.basename(p)`: the part after the last '/'. */
  function Basename(p: string): (r: string)
    ensures '/' !in r && EndsWith(p, r)
    ensures |r| < |p| ==> p[|p| - |r| - 1] == '/'
  {
    AfterRFind(p, '/');
    p[RFind(p, '/') + 1..]
  }

  /** The basename of a name without '/' joined onto a directory is the name. */
  lemma BasenameOfJoin(dir: string, name: string)
    requires '/' !in name
    ensures Basename(Join(dir, name)) == name
  {
    var j := Join(dir, name);
    assert !StartsWith(name, "/") by {
      if |name| >= 1 { assert name[0] != '/'; }
    }
    JoinRelative(dir, name);
    var p := DirPrefix(dir);
    var i := RFind(j, '/');
    assert j == p + name;
    forall k | |p| <= k < |j| ensures j[k] != '/' {
      assert j[k] == name[k - |p|];
    }
    if p != [] {
      assert j[|p| - 1] == '/';
      assert i == |p| - 1;
    } else {
      assert i == -1;
    }
  }

  /** Some character of `s[lo..hi]` is not a dot. */
  predicate HasNonDot(s: string, lo: int, hi: int)
    requires 0 <= lo && hi <= |s|
  {
    exists k :: lo <= k < hi && s[k] != '.'
  }

  /** Where `os.path.splitext(p)` cuts: at the last dot when it lies in the last path
      component and something other than dots stands before it there; otherwise at the end. */
  function ExtIndex(p: string): (i: nat)
    ensures i <= |p|
  {
    if RFind(p, '.') > RFind(p, '/') && HasNonDot(p, RFind(p, '/') + 1, RFind(p, '.'))
    then RFind(p, '.') else |p|
  }

  /** `os.path.splitext(p)`: (root, extension). */
  function SplitExt(p: string): (r: (string, string))
  {
    (p[..ExtIndex(p)], p[ExtIndex(p)..])
  }

  /** `os.path.splitext(p)[1]` */
  function Ext(p: string): string
  {
    SplitExt(p).1
  }

  /** `os.path.splitext(p)[0]` */
  function Root(p: string): string
  {
    SplitExt(p).0
  }

  /** The two parts of `splitext` concatenate to the path, and a non-empty extension
      is one dot followed by characters that are neither '.' nor '/'. */
  lemma SplitExtParts(p: string)
    ensures Root(p) + Ext(p) == p
    ensures Ext(p) != "" ==> Ext(p)[0] == '.' && '.' !in Ext(p)[1..] && '/' !in Ext(p)
  {
    var e := Ext(p);
    if e != "" {
      var d := RFind(p, '.');
      var s := RFind(p, '/');
      assert e == p[d..];
      forall k | 1 <= k < |e| ensures e[k] != '.' && e[k] != '/' {
        assert e[k] == p[d + k];
      }
      assert e[0] != '/';
      assert forall c :: c in e[1..] ==> c != '.';
    }
  }

  /** When a path has extension `e` (a dot and then no further dot or '/'):
      the extension is `e` exactly when the path ends with `e` and the last path
      component has a character other than '.' before that final dot. */
  lemma ExtIs(p: string, e: string)
    requires |e| >= 1 && e[0] == '.' && '.' !in e[1..] && '/' !in e
    ensures Ext(p) == e <==>
      EndsWith(p, e) && HasNonDot(p, RFind(p, '/') + 1, |p| - |e|)
  {
    if EndsWith(p, e) {
      EndsWithExt(p, e);
    } else {
      SplitExtParts(p);
    }
  }

  lemma EndsWithExt(p: string, e: string)
    requires |e| >= 1 && e[0] == '.' && '.' !in e[1..] && '/' !in e
    requires EndsWith(p, e)
    ensures Ext(p) == e <==> HasNonDot(p, RFind(p, '/') + 1, |p| - |e|)
  {
    SuffixChars(p, e);
    SuffixCut(p, |p| - |e|);
    if HasNonDot(p, RFind(p, '/') + 1, |p| - |e|) {
      assert p[|p| - |e|..] == e;
    }
  }

  /** With a dot at `start` and neither '.' after it nor '/' from it on, `splitext`
      cuts at `start` exactly when the last component has a non-dot before it. */
  lemma SuffixCut(p: string, start: nat)
    requires start < |p| && p[start] == '.'
    requires forall k :: start < k < |p| ==> p[k] != '.'
    requires forall k :: start <= k < |p| ==> p[k] != '/'
    ensures RFind(p, '/') < start
    ensures Ext(p) == if HasNonDot(p, RFind(p, '/') + 1, start) then p[start..] else []
  {
    RFindAt(p, '.', start);
    RFindBefore(p, '/', start);
  }

  lemma SuffixChars(p: string, e: string)
    requires |e| >= 1 && e[0] == '.' && '.' !in e[1..] && '/' !in e
    requires EndsWith(p, e)
    ensures p[|p| - |e|] == '.'
    ensures forall k :: |p| - |e| < k < |p| ==> p[k] != '.'
    ensures forall k :: |p| - |e| <= k < |p| ==> p[k] != '/'
  {
    var start := |p| - |e|;
    assert p[start..] == e;
    forall k | start <= k < |p| ensures p[k] == e[k - start] {
    }
    forall k | start < k < |p| ensures p[k] != '.' {
      assert e[1..][k - start - 1] in e[1..];
    }
    forall k | start <= k < |p| ensures p[k] != '/' {
      assert e[k - start] in e;
    }
  }
}
