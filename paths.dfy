/**
 * The two path helpers the bundle transformer relies on, with the POSIX
 * semantics of Python 2's `os.path.split` and `os.path.splitext`.
 */
module Paths {

  const Sep: char := '/'
  const ExtSep: char := '.'

  /** Python's `str.rfind` for one character: the index of the last `c` in `s`, or -1. */
  function RFind(s: string, c: char): (r: int)
    ensures -1 <= r < |s|
    ensures r >= 0 ==> s[r] == c
  {
    if s == [] then -1
    else if s[|s| - 1] == c then |s| - 1
    else RFind(s[..|s| - 1], c)
  }

  /** No `c` follows the one `RFind` reports. */
  lemma {:induction false} RFindLast(s: string, c: char)
    ensures forall j :: RFind(s, c) < j < |s| ==> s[j] != c
  {
    if s != [] && s[|s| - 1] != c {
      RFindLast(s[..|s| - 1], c);
    }
  }

  /** Every character of `s` is `c`. */
  predicate AllChar(s: string, c: char)
    decreases |s|
  {
    s == [] || (s[|s| - 1] == c && AllChar(s[..|s| - 1], c))
  }

  /** Python's `str.rstrip(c)`: `s` without its trailing run of `c`. */
  function RStrip(s: string, c: char): (r: string)
    ensures r <= s
    ensures r == [] || r[|r| - 1] != c
  {
    if s == [] || s[|s| - 1] != c then s
    else RStrip(s[..|s| - 1], c)
  }

  /** What `RStrip` removes is all `c`. */
  lemma {:induction false} RStripTrailing(s: string, c: char)
    ensures forall j :: |RStrip(s, c)| <= j < |s| ==> s[j] == c
  {
    if s != [] && s[|s| - 1] == c {
      RStripTrailing(s[..|s| - 1], c);
    }
  }

  /**
   * `os.path.split`: the tail is what follows the last separator, the head is
   * what precedes it, with trailing separators removed unless the head is
   * made of separators only.
   */
  function SplitPath(p: string): (string, string) {
    var i := RFind(p, Sep) + 1;
    var head, tail := p[..i], p[i..];
    if head != [] && !AllChar(head, Sep) then (RStrip(head, Sep), tail) else (head, tail)
  }

  /** The tail is the longest suffix of the path free of separators. */
  lemma SplitPathTail(p: string)
    ensures var tail := SplitPath(p).1;
      Sep !in tail && |tail| <= |p| && tail == p[|p| - |tail|..] &&
      (|tail| == |p| || p[|p| - |tail| - 1] == Sep)
  {
    RFindLast(p, Sep);
  }

  /**
   * The head is a prefix of the path that stops at, or just before, the
   * separators in front of the tail, and keeps a trailing separator only
   * when it is made of separators only; when everything before the tail is
   * separators (or nothing), the head is all of it.
   */
  lemma SplitPathHead(p: string)
    ensures var (head, tail) := SplitPath(p);
      head <= p && |head| + |tail| <= |p| &&
      (forall j :: |head| <= j < |p| - |tail| ==> p[j] == Sep) &&
      (head == [] || head[|head| - 1] != Sep || AllChar(head, Sep)) &&
      (AllChar(p[..|p| - |tail|], Sep) ==> head == p[..|p| - |tail|])
  {
    var i := RFind(p, Sep) + 1;
    RStripTrailing(p[..i], Sep);
  }

  /** True when `p[lo..hi]` holds a character other than the extension separator. */
  predicate HasNonDot(p: string, lo: int, hi: int)
    requires 0 <= lo && hi <= |p|
    decreases hi - lo
  {
    lo < hi && (p[hi - 1] != ExtSep || HasNonDot(p, lo, hi - 1))
  }

  /** One character other than `.` in `p[lo..hi]` is enough. */
  lemma {:induction false} HasNonDotAt(p: string, lo: int, hi: int, k: int)
    requires 0 <= lo <= k < hi <= |p| && p[k] != ExtSep
    ensures HasNonDot(p, lo, hi)
    decreases hi - lo
  {
    if k < hi - 1 {
      HasNonDotAt(p, lo, hi - 1, k);
    }
  }

  /**
   * `os.path.splitext`: the extension runs from the last `.` of the last
   * path component to the end, unless every character before that `.` in
   * the component is itself a `.` (a leading dot does not start an extension).
   */
  function SplitExt(p: string): (string, string) {
    var sep := RFind(p, Sep);
    var dot := RFind(p, ExtSep);
    if dot > sep && HasNonDot(p, sep + 1, dot) then (p[..dot], p[dot..]) else (p, "")
  }

  /**
   * The root and the extension make up the path; a non-empty extension is a
   * `.` followed by neither `.` nor separator, and is preceded in its path
   * component by some character other than `.`.
   */
  lemma SplitExtParts(p: string)
    ensures var (root, ext) := SplitExt(p);
      root + ext == p &&
      (ext == [] || (ext[0] == ExtSep && ExtSep !in ext[1..] && Sep !in ext)) &&
      (ext != [] ==> HasNonDot(p, RFind(p, Sep) + 1, |root|))
  {
    RFindLast(p, Sep);
    RFindLast(p, ExtSep);
  }

  /** A suffix without `c` does not move the last `c`. */
  lemma {:induction false} RFindSkip(s: string, t: string, c: char)
    requires c !in t
    ensures RFind(s + t, c) == RFind(s, c)
    decreases |t|
  {
    if t == [] {
      assert s + t == s;
    } else {
      var u := s + t;
      assert u[..|u| - 1] == s + t[..|t| - 1];
      RFindSkip(s, t[..|t| - 1], c);
    }
  }

  /** Splitting `dir + "/" + name` gives back the directory and the name. */
  lemma SplitPathJoin(dir: string, name: string)
    requires Sep !in name
    requires dir == [] || dir[|dir| - 1] != Sep
    ensures SplitPath(if dir == [] then name else dir + [Sep] + name) == (dir, name)
  {
    if dir == [] {
      RFindSkip([], name, Sep);
      assert [] + name == name;
    } else {
      var d := dir + [Sep];
      var p := d + name;
      RFindSkip(d, name, Sep);
      assert RFind(d, Sep) == |dir|;
      assert p[..|d|] == d && p[|d|..] == name;
      assert !AllChar(d, Sep) by {
        assert d[..|d| - 1] == dir;
      }
      assert d[..|d| - 1] == dir;
      assert RStrip(d, Sep) == dir;
    }
  }

  /** A name directly under the root keeps the root as its head: `/name` splits into `/` and `name`. */
  lemma SplitPathRoot(name: string)
    requires Sep !in name
    ensures SplitPath([Sep] + name) == ([Sep], name)
  {
    var p := [Sep] + name;
    RFindSkip([Sep], name, Sep);
    assert RFind([Sep], Sep) == 0;
    assert p[..1] == [Sep] && p[1..] == name;
    assert AllChar([Sep], Sep) by {
      assert [Sep][..0] == [];
    }
  }

  /** A name without a separator has the empty group key and is its own tail. */
  lemma SplitPathNoSep(p: string)
    requires Sep !in p
    ensures SplitPath(p) == ([], p)
  {
    SplitPathJoin([], p);
  }

  /** A path that ends in a separator (a directory entry) has an empty tail. */
  lemma SplitPathDirectory(p: string)
    requires p != [] && p[|p| - 1] == Sep
    ensures SplitPath(p).1 == []
  {
    SplitPathTail(p);
  }

  /** Splitting `base + ext` gives back both parts when `ext` is a genuine extension. */
  lemma SplitExtJoin(base: string, ext: string)
    requires Sep !in base
    requires |ext| >= 1 && ext[0] == ExtSep && ExtSep !in ext[1..] && Sep !in ext
    requires exists k :: 0 <= k < |base| && base[k] != ExtSep
    ensures SplitExt(base + ext) == (base, ext)
  {
    var p := base + ext;
    SplitExtParts(p);
    RFindLast(p, ExtSep);
    var dot := RFind(p, ExtSep);
    assert p[|base|] == ExtSep;
    var k :| 0 <= k < |base| && base[k] != ExtSep;
    assert p[k] != ExtSep;
    RFindLast(p, Sep);
    HasNonDotAt(p, 0, dot, k);
  }
}
