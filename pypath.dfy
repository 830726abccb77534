/** The pieces of Python's `str` and POSIX `os.path` that the converter
    relies on, written out over `string` (a `seq<char>`). */
module PyPath {

  const SEP: char := '/'
  const EXTSEP: char := '.'

  predicate StartsWith(s: string, prefix: string)
  {
    |prefix| <= |s| && s[..|prefix|] == prefix
  }

  /** Every character of `s` is `c` (true of the empty string). */
  predicate AllChar(s: string, c: char)
  {
    forall i :: 0 <= i < |s| ==> s[i] == c
  }

  /** `s.rfind(c)`: the index of the last `c` in `s`, or -1. */
  function RFind(s: string, c: char): (i: int)
    ensures -1 <= i < |s|
    ensures 0 <= i ==> s[i] == c
    ensures forall j :: i < j < |s| ==> s[j] != c
  {
    if |s| == 0 then -1
    else if s[|s| - 1] == c then |s| - 1
    else RFind(s[..|s| - 1], c)
  }

  /** `s.rstrip(c)` for a single character `c`. */
  function RStrip(s: string, c: char): (r: string)
    ensures |r| <= |s| && r == s[..|r|]
    ensures AllChar(s[|r|..], c)
    ensures r == [] || r[|r| - 1] != c
  {
    if |s| > 0 && s[|s| - 1] == c then
      var r := RStrip(s[..|s| - 1], c);
      assert s[|r|..] == s[..|s| - 1][|r|..] + [c];
      r
    else s
  }

  /** `os.path.dirname`: everything up to the last separator, with trailing
      separators removed unless the head consists of separators only. */
  function Dirname(p: string): (d: string)
    ensures StartsWith(p, d)
    ensures d == "" <==> SEP !in p
  {
    var head := p[..RFind(p, SEP) + 1];
    if head != "" && !AllChar(head, SEP) then RStrip(head, SEP) else head
  }

  /** `os.path.basename`: everything after the last separator. */
  function Basename(p: string): (b: string)
    ensures |b| <= |p| && p[|p| - |b|..] == b
    ensures SEP !in b
    ensures SEP !in p ==> b == p
  {
    p[RFind(p, SEP) + 1..]
  }

  /** `os.path.splitext`: split at the last dot of the last path component,
      unless every character before that dot in the component is a dot
      (leading dots do not start an extension). */
  function SplitExt(p: string): (parts: (string, string))
    ensures parts.0 + parts.1 == p
    ensures parts.1 == "" || parts.1[0] == EXTSEP
  {
    var sepIndex := RFind(p, SEP);
    var dotIndex := RFind(p, EXTSEP);
    if dotIndex > sepIndex && !AllChar(p[sepIndex + 1..dotIndex], EXTSEP) then
      (p[..dotIndex], p[dotIndex..])
    else
      (p, "")
  }

  /** The extension lies within the last path component and holds no dot
      after its first character. */
  lemma SplitExtShape(p: string)
    ensures SEP !in SplitExt(p).1
    ensures SplitExt(p).1 == "" || EXTSEP !in SplitExt(p).1[1..]
  {
    var ext := SplitExt(p).1;
    if ext != "" {
      var sepIndex := RFind(p, SEP);
      var dotIndex := RFind(p, EXTSEP);
      assert ext == p[dotIndex..];
      forall j | 0 <= j < |ext|
        ensures ext[j] != SEP && (j > 0 ==> ext[j] != EXTSEP)
      {
        assert ext[j] == p[dotIndex + j];
      }
    }
  }

  /** Leading dots do not start an extension: when a name is split, the
      last component of what remains holds something other than dots. */
  lemma SplitExtLeadingDots(p: string)
    requires SplitExt(p).1 != ""
    ensures !AllChar(Basename(SplitExt(p).0), EXTSEP)
  {
    var sepIndex := RFind(p, SEP);
    var dotIndex := RFind(p, EXTSEP);
    var root := p[..dotIndex];
    assert RFind(root, SEP) == sepIndex by { RFindPrefix(p, SEP, dotIndex); }
    assert Basename(root) == p[sepIndex + 1..dotIndex];
  }

  /** An extension is split off exactly when the last component holds a
      dot preceded by some character other than a dot, and then the split
      is at the last dot. */
  lemma SplitExtSplits(p: string)
    ensures SplitExt(p).1 != "" <==>
              exists i, j :: RFind(p, SEP) < i < j < |p| && p[i] != EXTSEP && p[j] == EXTSEP
    ensures SplitExt(p).1 != "" ==> SplitExt(p) == (p[..RFind(p, EXTSEP)], p[RFind(p, EXTSEP)..])
  {
    if SplitExt(p).1 != "" {
      var i := SplitExtWitness(p);
      assert p[RFind(p, EXTSEP)] == EXTSEP;
    }
    if exists i, j :: RFind(p, SEP) < i < j < |p| && p[i] != EXTSEP && p[j] == EXTSEP {
      var i, j :| RFind(p, SEP) < i < j < |p| && p[i] != EXTSEP && p[j] == EXTSEP;
      SplitExtFromWitness(p, i, j);
    }
  }

  /** A split extension starts at the last dot, after a non-dot character
      of the last component. */
  lemma SplitExtWitness(p: string) returns (i: int)
    requires SplitExt(p).1 != ""
    ensures RFind(p, SEP) < i < RFind(p, EXTSEP) && p[i] != EXTSEP
    ensures SplitExt(p) == (p[..RFind(p, EXTSEP)], p[RFind(p, EXTSEP)..])
  {
    SplitExtCondition(p);
    var sepIndex := RFind(p, SEP);
    var middle := p[sepIndex + 1..RFind(p, EXTSEP)];
    var k := NotAllCharWitness(middle, EXTSEP);
    i := sepIndex + 1 + k;
  }

  /** The test `splitext` makes before it splits. */
  lemma SplitExtCondition(p: string)
    requires SplitExt(p).1 != ""
    ensures RFind(p, SEP) < RFind(p, EXTSEP)
    ensures !AllChar(p[RFind(p, SEP) + 1..RFind(p, EXTSEP)], EXTSEP)
    ensures SplitExt(p) == (p[..RFind(p, EXTSEP)], p[RFind(p, EXTSEP)..])
  {
  }

  lemma NotAllCharWitness(s: string, c: char) returns (k: int)
    requires !AllChar(s, c)
    ensures 0 <= k < |s| && s[k] != c
  {
    k :| 0 <= k < |s| && s[k] != c;
  }

  /** A non-dot character followed by a dot in the last component makes
      `splitext` split. */
  lemma SplitExtFromWitness(p: string, i: int, j: int)
    requires RFind(p, SEP) < i < j < |p| && p[i] != EXTSEP && p[j] == EXTSEP
    ensures SplitExt(p).1 != ""
  {
    var sepIndex := RFind(p, SEP);
    var dotIndex := RFind(p, EXTSEP);
    assert j <= dotIndex;
    var middle := p[sepIndex + 1..dotIndex];
    assert middle[i - sepIndex - 1] == p[i];
    assert !AllChar(middle, EXTSEP);
    assert p[dotIndex..] != "";
  }

  /** A name with no dot has no extension. */
  lemma SplitExtWithoutDot(p: string)
    requires EXTSEP !in p
    ensures SplitExt(p) == (p, "")
  {
  }

  /** Cutting `s` anywhere after its last `c` keeps the index of that last
      `c`. */
  lemma RFindPrefix(s: string, c: char, n: int)
    requires RFind(s, c) < n <= |s|
    ensures RFind(s[..n], c) == RFind(s, c)
  {
  }

  /** `os.path.join(a, b)` for two components. */
  function Join(a: string, b: string): (r: string)
    ensures StartsWith(b, [SEP]) ==> r == b
    ensures !StartsWith(b, [SEP]) ==> StartsWith(r, a) && |b| <= |r| && r[|r| - |b|..] == b
  {
    if StartsWith(b, [SEP]) then b
    else if a == "" || a[|a| - 1] == SEP then a + b
    else a + [SEP] + b
  }

  /** Joining a relative name onto a directory without a trailing separator
      puts exactly one separator between them. */
  lemma JoinRelative(a: string, b: string)
    requires a != "" && a[|a| - 1] != SEP
    requires b == "" || b[0] != SEP
    ensures Join(a, b) == a + [SEP] + b
  {
    assert !StartsWith(b, [SEP]) by { if b != "" { assert b[..1] == [b[0]]; } }
  }

  /** Stripping one more trailing `c` changes nothing. */
  lemma RStripAppend(s: string, c: char)
    ensures RStrip(s + [c], c) == RStrip(s, c)
  {
    assert (s + [c])[..|s + [c]| - 1] == s;
  }

  /** The directory of a name joined onto a directory is that directory,
      when it has no trailing separator. */
  lemma DirnameJoin(d: string, b: string)
    requires d != "" && d[|d| - 1] != SEP
    requires b != "" && SEP !in b
    ensures Dirname(Join(d, b)) == d
  {
    JoinRelative(d, b);
    var p := d + [SEP] + b;
    assert RFind(p, SEP) == |d| by {
      assert p[|d|] == SEP;
      forall j | |d| < j < |p|
        ensures p[j] != SEP
      {
        assert p[j] == b[j - |d| - 1];
      }
    }
    var head := p[..|d| + 1];
    assert head == d + [SEP];
    assert !AllChar(head, SEP) by { assert head[|d| - 1] == d[|d| - 1]; }
    RStripAppend(d, SEP);
  }

  /** Joining a name that contains no separator yields a path whose last
      component is exactly that name. */
  lemma JoinBasename(a: string, b: string)
    requires SEP !in b
    ensures Basename(Join(a, b)) == b
  {
    var r := Join(a, b);
    assert !StartsWith(b, [SEP]) by {
      if |b| > 0 { assert b[0] in b; }
    }
    var k := |r| - |b|;
    assert r[k..] == b;
    if a == "" {
      assert r == b;
    } else if b == "" {
      assert r == a || r == a + [SEP];
      if r == a + [SEP] { assert r[|r| - 1] == SEP; }
      else { assert r == "" || r[|r| - 1] == SEP; }
    } else {
      assert k >= 1 && r[k - 1] == SEP;
      assert forall j :: k <= j < |r| ==> r[j] == b[j - k];
    }
  }

  /** ASCII case folding (`str.lower` restricted to 'A'..'Z'). */
  function LowerChar(c: char): (r: char)
    ensures !('A' <= r <= 'Z')
    ensures !('A' <= c <= 'Z') ==> r == c
    ensures 'A' <= c <= 'Z' ==> 'a' <= r <= 'z' && r as int - 'a' as int == c as int - 'A' as int
  {
    if 'A' <= c <= 'Z' then (c as int + 32) as char else c
  }

  function Lower(s: string): (r: string)
    ensures |r| == |s|
    ensures forall i :: 0 <= i < |s| ==> r[i] == LowerChar(s[i])
  {
    if s == [] then [] else [LowerChar(s[0])] + Lower(s[1..])
  }

  /** Folding is idempotent, so names that differ only in ASCII case
      fold to the same string. */
  lemma LowerIdempotent(s: string)
    ensures Lower(Lower(s)) == Lower(s)
    ensures forall i :: 0 <= i < |s| ==> !('A' <= Lower(s)[i] <= 'Z')
  {
    var r := Lower(s);
    forall i | 0 <= i < |s|
      ensures Lower(r)[i] == r[i] && !('A' <= r[i] <= 'Z')
    {
      assert r[i] == LowerChar(s[i]);
    }
  }
}
