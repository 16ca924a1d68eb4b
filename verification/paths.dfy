/** The pieces of Python's `str` and `os.path` the scripts rely on: substring search,
    suffix test, `os.path.splitext`, `os.path.basename`, `os.path.join`, and splitting
    and joining on a separator character. Paths use `/` as the separator. */
module Paths {
  import opened Text

  /** `suffix` ends `s`. */
  predicate EndsWith(s: string, suffix: string)
  {
    |suffix| <= |s| && s[|s| - |suffix|..] == suffix
  }

  /** `pat in s` for strings: some position of `s` starts with `pat`. */
  predicate Contains(s: string, pat: string)
    decreases |s|
  {
    pat <= s || (s != [] && Contains(s[1..], pat))
  }

  lemma {:induction false} ContainsAt(s: string, pat: string, i: nat)
    requires i <= |s| && pat <= s[i..]
    ensures Contains(s, pat)
    decreases i
  {
    if i > 0 {
      assert s[1..][i - 1..] == s[i..];
      ContainsAt(s[1..], pat, i - 1);
    }
  }

  lemma {:induction false} ContainsWitness(s: string, pat: string) returns (i: nat)
    requires Contains(s, pat)
    ensures i <= |s| && pat <= s[i..]
    decreases |s|
  {
    if pat <= s {
      i := 0;
    } else {
      var j := ContainsWitness(s[1..], pat);
      assert s[1..][j..] == s[j + 1..];
      i := j + 1;
    }
  }

  /** `Contains` is exactly "occurs at some position". */
  lemma ContainsIff(s: string, pat: string)
    ensures Contains(s, pat) <==> exists i :: 0 <= i <= |s| && pat <= s[i..]
  {
    if Contains(s, pat) {
      var i := ContainsWitness(s, pat);
    }
    if exists i :: 0 <= i <= |s| && pat <= s[i..] {
      var i :| 0 <= i <= |s| && pat <= s[i..];
      ContainsAt(s, pat, i);
    }
  }

  /** `s.rfind(c)`: the last index holding `c`, or -1. */
  function RFind(s: string, c: char): (k: int)
    ensures -1 <= k < |s|
    ensures k >= 0 ==> s[k] == c
    ensures forall j :: k < j < |s| ==> s[j] != c
  {
    if s == [] then -1
    else if s[|s| - 1] == c then |s| - 1
    else RFind(s[..|s| - 1], c)
  }

  predicate HasNonDot(s: string, lo: int, hi: int)
    requires 0 <= lo <= hi <= |s|
  {
    exists j :: lo <= j < hi && s[j] != '.'
  }

  /** `os.path.splitext(p)`: split before the last dot of the last path component,
      unless everything in that component before the dot is a dot (so `.bashrc` and
      `..wav` have no extension). */
  function Splitext(p: string): (r: (string, string))
    ensures r.0 + r.1 == p
    ensures r.1 == [] || (r.1[0] == '.' && forall i :: 1 <= i < |r.1| ==> r.1[i] != '.' && r.1[i] != '/')
  {
    var sep := RFind(p, '/');
    var dot := RFind(p, '.');
    if dot > sep && HasNonDot(p, sep + 1, dot) then (p[..dot], p[dot..]) else (p, "")
  }

  /** `os.path.splitext(p)[0]`. */
  function Stem(p: string): string { Splitext(p).0 }

  /** `os.path.basename(p)`: everything after the last `/`, so the longest suffix
      without one. */
  function Basename(p: string): (b: string)
    ensures EndsWith(p, b)
    ensures NoSlash(b)
    ensures |b| == |p| || p[|p| - |b| - 1] == '/'
  {
    p[RFind(p, '/') + 1..]
  }

  predicate FreeOf(s: string, c: char) { forall i :: 0 <= i < |s| ==> s[i] != c }

  predicate NoSlash(s: string) { FreeOf(s, '/') }

  /** `filename.lower().endswith('.wav')`. */
  predicate IsWavName(name: string) { EndsWith(LowerString(name), ".wav") }

  /** Only the last four characters decide, each compared after lower-casing. */
  lemma WavNameIff(name: string)
    ensures IsWavName(name) <==>
              |name| >= 4 && forall i :: 0 <= i < 4 ==> Lower(name[|name| - 4 + i]) == ".wav"[i]
  {
    var l := LowerString(name);
    if |name| >= 4 {
      if IsWavName(name) {
        forall i | 0 <= i < 4 ensures Lower(name[|name| - 4 + i]) == ".wav"[i] {
          assert l[|l| - 4..][i] == l[|name| - 4 + i];
        }
      }
      if forall i :: 0 <= i < 4 ==> Lower(name[|name| - 4 + i]) == ".wav"[i] {
        assert l[|l| - 4..] == ".wav";
      }
    }
  }

  /** `os.path.join(a, b)` for two components: an absolute `b` wins; otherwise a `/`
      is inserted unless `a` is empty or already ends with one. */
  function PathJoin(a: string, b: string): (p: string)
    ensures EndsWith(p, b)
  {
    if |b| > 0 && b[0] == '/' then b
    else if a == [] || a[|a| - 1] == '/' then a + b
    else a + "/" + b
  }

  /** A component appended by `PathJoin` is the basename of the result. */
  lemma BasenameOfJoin(a: string, b: string)
    requires NoSlash(b)
    ensures Basename(PathJoin(a, b)) == b
  {
    var p := PathJoin(a, b);
    var k := RFind(p, '/');
    assert p[|p| - |b|..] == b;
    if a == [] {
      assert p == b;
    } else if a[|a| - 1] == '/' {
      assert p[|a| - 1] == '/';
    } else {
      assert p[|a|] == '/';
    }
  }

  /** Appending an extension to a stem that has a non-dot character and no `/` is
      undone by `Stem`. */
  lemma StemOfExtended(s: string, ext: string)
    requires NoSlash(s) && HasNonDot(s, 0, |s|)
    requires |ext| >= 1 && ext[0] == '.'
    requires forall i :: 1 <= i < |ext| ==> ext[i] != '.' && ext[i] != '/'
    ensures Stem(s + ext) == s
  {
    var p := s + ext;
    var sep := RFind(p, '/');
    var dot := RFind(p, '.');
    assert p[|s|] == '.';
    assert dot == |s|;
    assert sep == -1;
    var j :| 0 <= j < |s| && s[j] != '.';
    assert p[j] == s[j];
    assert p[..dot] == s;
  }

  /** A stem always keeps a character that is not a dot, provided the path has one. */
  lemma StemHasNonDot(p: string)
    requires NoSlash(p) && HasNonDot(p, 0, |p|)
    ensures NoSlash(Stem(p)) && HasNonDot(Stem(p), 0, |Stem(p)|)
  {
    var sep := RFind(p, '/');
    var dot := RFind(p, '.');
    if dot > sep && HasNonDot(p, sep + 1, dot) {
      var j :| sep + 1 <= j < dot && p[j] != '.';
      assert Stem(p)[j] == p[j];
    }
  }

  /** `sep.join(fields)`. */
  function JoinWith(fields: seq<string>, sep: char): (s: string)
    decreases |fields|
  {
    if fields == [] then ""
    else if |fields| == 1 then fields[0]
    else fields[0] + [sep] + JoinWith(fields[1..], sep)
  }

  /** `s.split(sep)` with an explicit separator: the pieces between separators, empty
      pieces kept. */
  function SplitOn(s: string, sep: char): (fields: seq<string>)
    ensures |fields| >= 1
    decreases |s|
  {
    var k := IndexOf(s, sep);
    if k == |s| then [s] else [s[..k]] + SplitOn(s[k + 1..], sep)
  }

  /** The stem is a prefix of the name, so it holds no character the name does not. */
  lemma StemFree(p: string, c: char)
    requires FreeOf(p, c)
    ensures FreeOf(Stem(p), c)
  {
    var r := Splitext(p);
    assert forall i :: 0 <= i < |r.0| ==> r.0[i] == p[i];
  }

  /** A field without the separator, the separator, then the rest: the field is the
      first piece. */
  lemma SplitCons(a: string, rest: string, sep: char)
    requires FreeOf(a, sep)
    ensures SplitOn(a + [sep] + rest, sep) == [a] + SplitOn(rest, sep)
  {
    hide IndexOf;
    var s := a + ([sep] + rest);
    assert a + [sep] + rest == s;
    IndexOfAfter(a, [sep] + rest, sep);
    assert s[..|a|] == a;
    assert s[|a| + 1..] == rest;
  }

  /** Splitting a join gives the fields back when no field holds the separator. */
  lemma {:induction false} SplitJoin(fields: seq<string>, sep: char)
    requires |fields| >= 1
    requires forall i :: 0 <= i < |fields| ==> FreeOf(fields[i], sep)
    ensures SplitOn(JoinWith(fields, sep), sep) == fields
    decreases |fields|
  {
    if |fields| == 1 {
      assert IndexOf(fields[0], sep) == |fields[0]|;
    } else {
      hide SplitOn;
      SplitCons(fields[0], JoinWith(fields[1..], sep), sep);
      SplitJoin(fields[1..], sep);
      assert fields == [fields[0]] + fields[1..];
    }
  }

}
