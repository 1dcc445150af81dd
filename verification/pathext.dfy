/** Node's `path.extname` for POSIX paths: the extension of the last path
    component, from its last `.` to its end. */
module PathExt {

  /** The path without its run of trailing `/` separators. */
  function StripTrailingSlashes(p: string): (q: string)
    ensures q <= p
    ensures q == [] || q[|q| - 1] != '/'
    ensures forall i :: |q| <= i < |p| ==> p[i] == '/'
  {
    if |p| > 0 && p[|p| - 1] == '/' then StripTrailingSlashes(p[..|p| - 1]) else p
  }

  /** The index of the last `c` in `s`, or -1 when there is none. */
  function LastIndexOf(s: string, c: char): (i: int)
    ensures -1 <= i < |s|
    ensures i >= 0 ==> s[i] == c && c !in s[i + 1..]
    ensures i == -1 ==> c !in s
  {
    if |s| == 0 then -1
    else if s[|s| - 1] == c then |s| - 1
    else
      assert s == s[..|s| - 1] + [s[|s| - 1]];
      LastIndexOf(s[..|s| - 1], c)
  }

  /** `a` is a suffix of `b`. */
  predicate IsSuffix(a: string, b: string)
  {
    |a| <= |b| && a == b[|b| - |a|..]
  }

  /** The last path component, trailing separators ignored. */
  function Basename(p: string): string
  {
    var q := StripTrailingSlashes(p);
    q[LastIndexOf(q, '/') + 1..]
  }

  /** The extension of `p`: empty when the last component has no `.`, when its
      only `.` is its first character (a dot file), or when it is `..`. */
  function Extname(p: string): string
  {
    var b := Basename(p);
    var d := LastIndexOf(b, '.');
    if d <= 0 || b == ".." then [] else b[d..]
  }

  /** The last component is the part of the path after its last separator,
      once trailing separators are dropped. */
  lemma BasenameShape(p: string)
    ensures '/' !in Basename(p)
    ensures IsSuffix(Basename(p), StripTrailingSlashes(p))
    ensures var q := StripTrailingSlashes(p); var b := Basename(p);
      |b| < |q| ==> q[|q| - |b| - 1] == '/'
  {
  }

  /** The extension is empty or a `.` followed by no other `.`; it has no
      separator; it is a suffix of the last component that leaves at least
      one character in front of it. */
  lemma ExtnameShape(p: string)
    ensures var ext := Extname(p);
      ext == [] || (ext[0] == '.' && '.' !in ext[1..])
    ensures '/' !in Extname(p)
    ensures IsSuffix(Extname(p), Basename(p))
    ensures Extname(p) != [] ==> |Extname(p)| < |Basename(p)|
  {
    var b := Basename(p);
    assert '/' !in b by {
      BasenameShape(p);
    }
    var d := LastIndexOf(b, '.');
    if d > 0 && b != ".." {
      assert Extname(p) == b[d..];
      assert b[d..][1..] == b[d + 1..];
      NotInSuffix(b, '/', d);
    } else {
      assert Extname(p) == [];
    }
  }

  /** A character absent from a string is absent from each of its suffixes. */
  lemma NotInSuffix(s: string, c: char, d: nat)
    requires c !in s && d <= |s|
    ensures c !in s[d..]
  {
    forall i | 0 <= i < |s| - d ensures s[d..][i] != c {
      assert s[d..][i] == s[d + i];
    }
  }

  /** A path with no separator is its own last component. */
  lemma BasenameOfPlainName(p: string)
    requires '/' !in p
    ensures Basename(p) == p
  {
    if |p| > 0 {
      assert p[|p| - 1] in p;
    }
    assert StripTrailingSlashes(p) == p;
    assert LastIndexOf(p, '/') == -1;
    assert p[0..] == p;
  }

  /** The last occurrence is the unique one with no later occurrence. */
  lemma LastIndexOfIs(s: string, c: char, k: nat)
    requires k < |s| && s[k] == c && c !in s[k + 1..]
    ensures LastIndexOf(s, c) == k
  {
  }

  /** A separator-free name whose last `.` is at `d > 0` and which is not
      `..` has the extension starting at `d`. */
  lemma ExtnameOfPlainName(p: string, d: nat)
    requires '/' !in p && 0 < d < |p| && p[d] == '.' && '.' !in p[d + 1..]
    requires p != ".."
    ensures Extname(p) == p[d..]
  {
    BasenameOfPlainName(p);
    LastIndexOfIs(p, '.', d);
  }

  /** A component `stem.x` with a non-empty stem has extension `.x`. */
  lemma ExtnameOfStemAndSuffix(stem: string, x: string)
    requires |stem| > 0 && '/' !in stem && '/' !in x && '.' !in x
    requires stem + "." + x != ".."
    ensures Extname(stem + "." + x) == "." + x
  {
    var p := stem + "." + x;
    var d := |stem|;
    assert '/' !in p by {
      forall i | 0 <= i < |p| ensures p[i] != '/' {
        if i < d {
          assert p[i] == stem[i];
        } else if i > d {
          assert p[i] == x[i - d - 1];
        }
      }
    }
    assert p[d] == '.' && p[d + 1..] == x && p[d..] == "." + x;
    ExtnameOfPlainName(p, d);
  }

  /** A dot file with no further `.` has no extension. */
  lemma ExtnameOfDotFile(x: string)
    requires '/' !in x && '.' !in x
    ensures Extname("." + x) == []
  {
    var p := "." + x;
    BasenameOfPlainName(p);
    assert p[1..] == x;
    LastIndexOfIs(p, '.', 0);
  }

  /** A last component without any `.` has no extension. */
  lemma ExtnameWithoutDot(p: string)
    requires '.' !in Basename(p)
    ensures Extname(p) == []
  {
  }
}
