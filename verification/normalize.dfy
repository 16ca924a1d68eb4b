/** `simple_normalization.py`: the text normaliser and the rewrite of the `text`
    column of a CSV corpus. */
module Normalize {
  import opened Results
  import opened Text

  /** The marks that the first substitution isolates: `[.,!?;:]`. */
  predicate IsPunct(c: char)
  {
    c == '.' || c == ',' || c == '!' || c == '?' || c == ';' || c == ':'
  }

  /** What the second substitution keeps: `[\w\s.,!?;:']`. */
  predicate Allowed(c: char)
  {
    IsWord(c) || IsSpace(c) || IsPunct(c) || c == '\''
  }

  // ---------------------------------------------------------------------------
  // The stages of `normalize_text`

  /** `re.sub(r"([.,!?;:])", r" \1 ", text)`: every mark gets a space on each side. */
  function Pad(s: string): (r: string)
    ensures |r| >= |s|
    ensures (forall i :: 0 <= i < |s| ==> !IsPunct(s[i])) ==> r == s
    decreases |s|
  {
    if s == [] then []
    else (if IsPunct(s[0]) then [' ', s[0], ' '] else [s[0]]) + Pad(s[1..])
  }

  /** Padding only adds spaces. */
  lemma {:induction false} PadChars(s: string, c: char)
    requires c in Pad(s)
    ensures c in s || c == ' '
    decreases |s|
  {
    var head := if IsPunct(s[0]) then [' ', s[0], ' '] else [s[0]];
    if c !in head {
      assert c in Pad(s[1..]);
      PadChars(s[1..], c);
    }
  }

  /** `re.sub(r"[^\w\s.,!?;:']", "", text)`: the allowed characters, in order. */
  function Delete(s: string): (r: string)
    ensures |r| <= |s|
    ensures forall i :: 0 <= i < |r| ==> Allowed(r[i])
    decreases |s|
  {
    if s == [] then []
    else (if Allowed(s[0]) then [s[0]] else []) + Delete(s[1..])
  }

  /** The cleaning only keeps allowed characters of its input. */
  lemma {:induction false} DeleteChars(s: string, c: char)
    requires c in Delete(s)
    ensures c in s && Allowed(c)
    decreases |s|
  {
    var head := if Allowed(s[0]) then [s[0]] else [];
    if c !in head {
      assert c in Delete(s[1..]);
      DeleteChars(s[1..], c);
    }
  }

  /** `re.sub(r"\s+", " ", text)`, scanning with a flag that says whether the previous
      character was whitespace: each maximal run of whitespace becomes one `' '`. A
      non-space first character is copied; a first whitespace character becomes `' '`,
      or is dropped right after whitespace. */
  function CollapseFrom(s: string, afterSpace: bool): (r: string)
    ensures afterSpace && r != [] ==> !IsSpace(r[0])
    ensures s != [] && !IsSpace(s[0]) ==> r != [] && r[0] == s[0]
    ensures s != [] && IsSpace(s[0]) && !afterSpace ==> r != [] && r[0] == ' '
    decreases |s|
  {
    if s == [] then []
    else if IsSpace(s[0]) then
      var rest := CollapseFrom(s[1..], true);
      if afterSpace then rest else [' '] + rest
    else
      [s[0]] + CollapseFrom(s[1..], false)
  }

  /** The collapsed string holds no whitespace but `' '` and no two spaces in a row. */
  lemma {:induction false} CollapseTidy(s: string, afterSpace: bool)
    ensures Tidy(CollapseFrom(s, afterSpace))
    decreases |s|
  {
    if s != [] {
      var head: string := if IsSpace(s[0]) then (if afterSpace then [] else [' ']) else [s[0]];
      var rest := CollapseFrom(s[1..], IsSpace(s[0]));
      CollapseTidy(s[1..], IsSpace(s[0]));
      var r := head + rest;
      assert r == CollapseFrom(s, afterSpace);
      forall i | 1 <= i < |r|
        ensures !(IsSpace(r[i - 1]) && IsSpace(r[i]))
      {
        if i > |head| {
          assert r[i - 1] == rest[i - 1 - |head|] && r[i] == rest[i - |head|];
        }
      }
    }
  }

  /** Collapsing only adds spaces. */
  lemma {:induction false} CollapseChars(s: string, afterSpace: bool, c: char)
    requires c in CollapseFrom(s, afterSpace)
    ensures c in s || c == ' '
    decreases |s|
  {
    var head: string := if IsSpace(s[0]) then (if afterSpace then [] else [' ']) else [s[0]];
    if c !in head {
      assert c in CollapseFrom(s[1..], IsSpace(s[0]));
      CollapseChars(s[1..], IsSpace(s[0]), c);
    }
  }

  function Collapse(s: string): string { CollapseFrom(s, false) }

  /** `normalize_text`: lower-case, isolate the marks, drop the other symbols, collapse
      whitespace, strip. */
  function NormalizeText(text: string): (r: string)
    ensures r != [] ==> !IsSpace(r[0]) && !IsSpace(r[|r| - 1])
  {
    Strip(Collapse(Delete(Pad(LowerString(text)))))
  }

  // ---------------------------------------------------------------------------
  // What the result is made of

  /** The result holds only allowed characters, no upper-case letter, and no
      whitespace other than `' '`. */
  lemma NormalizeChars(text: string, c: char)
    requires c in NormalizeText(text)
    ensures Allowed(c) && !IsUpper(c) && (IsSpace(c) ==> c == ' ')
  {
    var lowered := LowerString(text);
    var collapsed := Collapse(Delete(Pad(lowered)));
    InStrip(collapsed, c);
    CollapseTidy(Delete(Pad(lowered)), false);
    CollapseChars(Delete(Pad(lowered)), false, c);
    if c != ' ' {
      DeleteChars(Pad(lowered), c);
      PadChars(lowered, c);
      var i :| 0 <= i < |lowered| && lowered[i] == c;
    }
  }

  // ---------------------------------------------------------------------------
  // Substrings

  /** Every character of `Strip(s)` is a character of `s`. */
  lemma InStrip(s: string, c: char)
    requires c in Strip(s)
    ensures c in s
  {
    var i := StripStart(s);
    var r := Strip(s);
    var k :| 0 <= k < |r| && r[k] == c;
    assert s[i + k] == r[k];
  }

  /** A slice of a string that keeps its whitespace tidy keeps it tidy too. */
  lemma TidySlice(s: string, i: nat, j: nat)
    requires i <= j <= |s| && Tidy(s)
    ensures Tidy(s[i..j])
  {
    var t := s[i..j];
    assert forall k :: 0 <= k < |t| ==> t[k] == s[i + k];
  }

  lemma SepSlice(s: string, i: nat, j: nat)
    requires i <= j <= |s| && Sep(s)
    ensures Sep(s[i..j])
  {
    var t := s[i..j];
    assert forall k :: 0 <= k < |t| ==> t[k] == s[i + k];
  }

  // ---------------------------------------------------------------------------
  // Shape of the result

  /** Whitespace is a single `' '` wherever it occurs. */
  predicate Tidy(s: string)
  {
    && (forall i :: 0 <= i < |s| && IsSpace(s[i]) ==> s[i] == ' ')
    && (forall i :: 1 <= i < |s| ==> !(IsSpace(s[i - 1]) && IsSpace(s[i])))
  }

  /** Two neighbours, of which a mark may only sit next to whitespace. */
  predicate Adj(a: char, b: char)
  {
    (IsPunct(a) ==> IsSpace(b)) && (IsPunct(b) ==> IsSpace(a))
  }

  /** Every mark stands apart: its neighbours are whitespace or the ends of the string. */
  predicate Sep(s: string)
  {
    forall i :: 1 <= i < |s| ==> Adj(s[i - 1], s[i])
  }

  lemma SepAppend(a: string, b: string)
    requires Sep(a) && Sep(b)
    requires a != [] && b != [] ==> Adj(a[|a| - 1], b[0])
    ensures Sep(a + b)
  {
    var ab := a + b;
    forall i | 1 <= i < |ab|
      ensures Adj(ab[i - 1], ab[i])
    {
      if i < |a| {
        assert ab[i - 1] == a[i - 1] && ab[i] == a[i];
      } else if i == |a| {
        assert ab[i - 1] == a[|a| - 1] && ab[i] == b[0];
      } else {
        assert ab[i - 1] == b[i - 1 - |a|] && ab[i] == b[i - |a|];
      }
    }
  }

  /** After padding, every mark stands apart and none is at either end. */
  lemma {:induction false} PadSep(s: string)
    ensures Sep(Pad(s))
    ensures Pad(s) != [] ==> !IsPunct(Pad(s)[0]) && !IsPunct(Pad(s)[|Pad(s)| - 1])
    decreases |s|
  {
    if s != [] {
      var block := if IsPunct(s[0]) then [' ', s[0], ' '] else [s[0]];
      var rest := Pad(s[1..]);
      PadSep(s[1..]);
      assert Sep(block);
      SepAppend(block, rest);
      assert Pad(s) == block + rest;
      if rest != [] {
        assert Pad(s)[|Pad(s)| - 1] == rest[|rest| - 1];
      }
    }
  }

  lemma DeleteKeepsHead(s: string)
    requires s != [] && Allowed(s[0])
    ensures Delete(s) != [] && Delete(s)[0] == s[0]
  {
  }

  /** Dropping characters keeps the marks apart: the whitespace next to a mark is
      never dropped. If the first survivor is a mark, it is the first character. */
  lemma {:induction false} DeleteSep(s: string)
    requires Sep(s)
    ensures Sep(Delete(s))
    ensures Delete(s) != [] && IsPunct(Delete(s)[0]) ==> s != [] && s[0] == Delete(s)[0]
    decreases |s|
  {
    if s != [] {
      var t := s[1..];
      assert Sep(t) by {
        assert forall k :: 0 <= k < |t| ==> t[k] == s[k + 1];
      }
      DeleteSep(t);
      var d := Delete(t);
      if Allowed(s[0]) {
        assert Delete(s) == [s[0]] + d;
        if d != [] {
          if IsPunct(s[0]) {
            assert Adj(s[0], s[1]);
            DeleteKeepsHead(t);
          }
          if IsPunct(d[0]) {
            assert Adj(s[0], s[1]);
          }
        }
        SepAppend([s[0]], d);
      } else {
        assert Delete(s) == d;
      }
    }
  }

  /** Collapsing whitespace keeps the marks apart. */
  lemma {:induction false} CollapseSep(s: string, afterSpace: bool)
    requires Sep(s)
    ensures Sep(CollapseFrom(s, afterSpace))
    decreases |s|
  {
    if s != [] {
      var t := s[1..];
      assert Sep(t) by {
        assert forall k :: 0 <= k < |t| ==> t[k] == s[k + 1];
      }
      if IsSpace(s[0]) {
        CollapseSep(t, true);
        if !afterSpace {
          SepAppend([' '], CollapseFrom(t, true));
        }
      } else {
        CollapseSep(t, false);
        var rest := CollapseFrom(t, false);
        if rest != [] {
          assert Adj(s[0], s[1]);
        }
        SepAppend([s[0]], rest);
      }
    }
  }

  /** The result has tidy whitespace and every mark stands apart from its neighbours. */
  lemma NormalizeShape(text: string)
    ensures Tidy(NormalizeText(text)) && Sep(NormalizeText(text))
  {
    var padded := Pad(LowerString(text));
    PadSep(LowerString(text));
    DeleteSep(padded);
    var collapsed := Collapse(Delete(padded));
    CollapseSep(Delete(padded), false);
    CollapseTidy(Delete(padded), false);
    var a := StripStart(collapsed);
    var r := Strip(collapsed);
    TidySlice(collapsed, a, a + |r|);
    SepSlice(collapsed, a, a + |r|);
  }

  // ---------------------------------------------------------------------------
  // Content of the result

  /** The characters of `s` other than whitespace, in order. */
  function NonSpace(s: string): string
    decreases |s|
  {
    if s == [] then [] else (if IsSpace(s[0]) then [] else [s[0]]) + NonSpace(s[1..])
  }

  /** The characters of `s` that the cleaning keeps and that are not whitespace. */
  function Content(s: string): string
    decreases |s|
  {
    if s == [] then [] else (if Allowed(s[0]) && !IsSpace(s[0]) then [s[0]] else []) + Content(s[1..])
  }

  lemma {:induction false} NonSpaceAppend(a: string, b: string)
    ensures NonSpace(a + b) == NonSpace(a) + NonSpace(b)
    decreases |a|
  {
    if a != [] {
      assert (a + b)[1..] == a[1..] + b;
      NonSpaceAppend(a[1..], b);
    } else {
      assert a + b == b;
    }
  }

  lemma {:induction false} ContentAppend(a: string, b: string)
    ensures Content(a + b) == Content(a) + Content(b)
    decreases |a|
  {
    if a != [] {
      assert (a + b)[1..] == a[1..] + b;
      ContentAppend(a[1..], b);
    } else {
      assert a + b == b;
    }
  }

  lemma {:induction false} NonSpaceBlank(s: string)
    requires Blank(s)
    ensures NonSpace(s) == []
    decreases |s|
  {
    if s != [] {
      NonSpaceBlank(s[1..]);
    }
  }

  /** Padding only adds whitespace. */
  lemma {:induction false} PadContent(s: string)
    ensures Content(Pad(s)) == Content(s)
    decreases |s|
  {
    if s != [] {
      var block := if IsPunct(s[0]) then [' ', s[0], ' '] else [s[0]];
      PadContent(s[1..]);
      ContentAppend(block, Pad(s[1..]));
      if IsPunct(s[0]) {
        assert block == [' '] + [s[0]] + [' '];
        ContentAppend([' '] + [s[0]], [' ']);
        ContentAppend([' '], [s[0]]);
      }
    }
  }

  /** The cleaning keeps exactly the allowed characters. */
  lemma {:induction false} DeleteContent(s: string)
    ensures NonSpace(Delete(s)) == Content(s)
    decreases |s|
  {
    if s != [] {
      DeleteContent(s[1..]);
      NonSpaceAppend(if Allowed(s[0]) then [s[0]] else [], Delete(s[1..]));
    }
  }

  /** Collapsing only rewrites whitespace. */
  lemma {:induction false} CollapseContent(s: string, afterSpace: bool)
    ensures NonSpace(CollapseFrom(s, afterSpace)) == NonSpace(s)
    decreases |s|
  {
    if s != [] {
      var t := s[1..];
      if IsSpace(s[0]) {
        CollapseContent(t, true);
        if !afterSpace {
          NonSpaceAppend([' '], CollapseFrom(t, true));
        }
      } else {
        CollapseContent(t, false);
        NonSpaceAppend([s[0]], CollapseFrom(t, false));
      }
    }
  }

  /** Stripping only removes whitespace. */
  lemma StripContent(s: string)
    ensures NonSpace(Strip(s)) == NonSpace(s)
  {
    var a := StripStart(s);
    var r := Strip(s);
    var e := a + |r|;
    assert s == s[..a] + r + s[e..];
    NonSpaceAppend(s[..a] + r, s[e..]);
    NonSpaceAppend(s[..a], r);
    NonSpaceBlank(s[..a]);
    NonSpaceBlank(s[e..]);
  }

  /** Apart from whitespace, the result is exactly the lower-cased input with the
      unwanted symbols removed: no kept character is lost, reordered or added. */
  lemma NormalizeContent(text: string)
    ensures NonSpace(NormalizeText(text)) == Content(LowerString(text))
  {
    var lowered := LowerString(text);
    var deleted := Delete(Pad(lowered));
    PadContent(lowered);
    DeleteContent(Pad(lowered));
    CollapseContent(deleted, false);
    StripContent(Collapse(deleted));
  }

  // ---------------------------------------------------------------------------
  // Normalising twice

  function LeadMark(r: string): string
  {
    if r != [] && IsPunct(r[0]) then " " else ""
  }

  function TrailMark(r: string): string
  {
    if r != [] && IsPunct(r[|r| - 1]) then " " else ""
  }

  function DropLeadSpace(r: string): string
  {
    if r != [] && r[0] == ' ' then r[1..] else r
  }

  lemma TidySep(r: string)
    requires Tidy(r) && Sep(r) && r != []
    ensures Tidy(r[1..]) && Sep(r[1..])
  {
    TidySlice(r, 1, |r|);
    SepSlice(r, 1, |r|);
  }

  lemma CollapseMark(p: char, rest: string, b: bool)
    requires IsPunct(p)
    ensures CollapseFrom([' ', p, ' '] + rest, b)
            == (if b then [] else [' ']) + [p, ' '] + CollapseFrom(rest, true)
  {
    var x := [' ', p, ' '] + rest;
    var y, z := [p, ' '] + rest, [' '] + rest;
    assert x[1..] == y && y[1..] == z && z[1..] == rest;
    assert CollapseFrom(z, false) == [' '] + CollapseFrom(rest, true);
    assert CollapseFrom(y, true) == [p] + CollapseFrom(z, false);
    assert CollapseFrom(x, b) == (if b then [] else [' ']) + CollapseFrom(y, true);
  }

  lemma CollapseSpaceCons(rest: string, b: bool)
    ensures CollapseFrom([' '] + rest, b) == (if b then [] else [' ']) + CollapseFrom(rest, true)
  {
    assert ([' '] + rest)[1..] == rest;
  }

  lemma CollapseOtherCons(c: char, rest: string, b: bool)
    ensures !IsSpace(c) ==> CollapseFrom([c] + rest, b) == [c] + CollapseFrom(rest, false)
  {
    assert ([c] + rest)[1..] == rest;
  }

  /** What `CollapsePadTidy` states about `r` scanned in state `b`. */
  predicate PadCollapses(r: string, b: bool)
  {
    CollapseFrom(Pad(r), b) == (if b then DropLeadSpace(r) else LeadMark(r) + r) + TrailMark(r)
  }

  lemma TrailOfCons(r: string)
    requires |r| >= 2
    ensures TrailMark(r) == TrailMark(r[1..])
  {
    assert r[1..][|r| - 2] == r[|r| - 1];
  }

  lemma PadCons(r: string)
    requires r != []
    ensures Pad(r) == (if IsPunct(r[0]) then [' ', r[0], ' '] else [r[0]]) + Pad(r[1..])
  {
  }

  /** A mark followed by `t` (empty or opening with its space) is the mark, a space, and
      the rest of `t`; a trailing mark of either is the same one. */
  lemma MarkJoin(p: char, t: string)
    requires IsPunct(p) && (t == [] || t[0] == ' ')
    ensures [p, ' '] + (DropLeadSpace(t) + TrailMark(t)) == ([p] + t) + TrailMark([p] + t)
  {
    var pt := [p] + t;
    if t == [] {
      assert TrailMark(pt) == [' '];
    } else {
      TrailOfCons(pt);
      assert pt[1..] == t;
      assert [p, ' '] + t[1..] == pt;
    }
  }

  lemma MarkStep(p: char, t: string, x: string, b: bool)
    requires IsPunct(p) && (t == [] || t[0] == ' ')
    requires CollapseFrom(x, true) == DropLeadSpace(t) + TrailMark(t)
    ensures CollapseFrom([' ', p, ' '] + x, b) == (if b then [] else [' ']) + ([p] + t) + TrailMark([p] + t)
  {
    hide CollapseFrom, DropLeadSpace, TrailMark;
    CollapseMark(p, x, b);
    MarkJoin(p, t);
    var lead: string := if b then [] else [' '];
    var tail := DropLeadSpace(t) + TrailMark(t);
    assert lead + [p, ' '] + tail == lead + ([p, ' '] + tail);
  }

  /** The step for a leading mark: its own space on the right replaces the one that
      followed it. */
  lemma PadCollapsesMark(r: string, b: bool)
    requires Tidy(r) && Sep(r) && r != [] && IsPunct(r[0])
    requires PadCollapses(r[1..], true)
    ensures PadCollapses(r, b)
  {
    hide Pad, CollapseFrom, Tidy, Sep, DropLeadSpace, LeadMark, TrailMark;
    var p, t := r[0], r[1..];
    MarkFollowed(r);
    PadCons(r);
    MarkStep(p, t, Pad(t), b);
  }

  /** A mark that stands apart is followed by a space or by nothing, and leads the
      string as it is. */
  lemma MarkFollowed(r: string)
    requires Tidy(r) && Sep(r) && r != [] && IsPunct(r[0])
    ensures r[1..] == [] || r[1..][0] == ' '
    ensures r == [r[0]] + r[1..] && DropLeadSpace(r) == r && LeadMark(r) == [' ']
  {
    if |r| > 1 {
      assert Adj(r[0], r[1]);
    }
  }

  /** The step for a leading space: it is kept unless whitespace came just before. */
  lemma PadCollapsesSpace(r: string, b: bool)
    requires Tidy(r) && Sep(r) && r != [] && IsSpace(r[0])
    requires PadCollapses(r[1..], true)
    ensures PadCollapses(r, b)
  {
    hide Pad, CollapseFrom, Tidy, Sep, DropLeadSpace, LeadMark, TrailMark;
    var t := r[1..];
    SpaceFollowed(r);
    CollapseSpaceCons(Pad(t), b);
  }

  /** A leading whitespace character of a tidy string is a space followed by something
      else, so it is the one dropped after whitespace. */
  lemma SpaceFollowed(r: string)
    ensures Tidy(r) && Sep(r) && r != [] && IsSpace(r[0]) ==>
              && r == [' '] + r[1..] && !IsPunct(r[0])
              && DropLeadSpace(r) == r[1..] && DropLeadSpace(r[1..]) == r[1..]
              && LeadMark(r) == [] && TrailMark(r) == TrailMark(r[1..])
              && Pad(r) == [' '] + Pad(r[1..])
  {
    if Tidy(r) && Sep(r) && r != [] && IsSpace(r[0]) && r[1..] != [] {
      var t := r[1..];
      assert !IsSpace(r[1]) && t[0] == r[1];
      TrailOfCons(r);
    }
  }

  /** The step for any other leading character: it is copied. */
  lemma PadCollapsesOther(r: string, b: bool)
    requires Tidy(r) && Sep(r) && r != [] && !IsSpace(r[0]) && !IsPunct(r[0])
    requires PadCollapses(r[1..], false)
    ensures PadCollapses(r, b)
  {
    hide Pad, CollapseFrom, Tidy, Sep, DropLeadSpace, LeadMark, TrailMark;
    var t := r[1..];
    OtherFollowed(r);
    CollapseOtherCons(r[0], Pad(t), b);
  }

  /** A leading character that is neither whitespace nor a mark is copied by padding,
      is not followed by a mark, and leads the string as it is. */
  lemma OtherFollowed(r: string)
    ensures Tidy(r) && Sep(r) && r != [] && !IsSpace(r[0]) && !IsPunct(r[0]) ==>
              && r == [r[0]] + r[1..]
              && DropLeadSpace(r) == r && LeadMark(r) == [] && LeadMark(r[1..]) == []
              && TrailMark(r) == TrailMark(r[1..])
              && Pad(r) == [r[0]] + Pad(r[1..])
  {
    if Tidy(r) && Sep(r) && r != [] && !IsSpace(r[0]) && !IsPunct(r[0]) && r[1..] != [] {
      var t := r[1..];
      assert Adj(r[0], r[1]) && t[0] == r[1];
      TrailOfCons(r);
    }
  }

  /** Padding and collapsing a string whose whitespace is tidy and whose marks stand
      apart gives it back, with one space before a leading mark (unless the scan has
      just seen whitespace, in which case a leading space is eaten instead) and one
      space after a trailing mark. */
  lemma {:induction false} CollapsePadTidy(r: string, b: bool)
    requires Tidy(r) && Sep(r)
    ensures PadCollapses(r, b)
    decreases |r|
  {
    if r != [] {
      TidySep(r);
      if IsPunct(r[0]) {
        CollapsePadTidy(r[1..], true);
        PadCollapsesMark(r, b);
      } else if IsSpace(r[0]) {
        CollapsePadTidy(r[1..], true);
        PadCollapsesSpace(r, b);
      } else {
        CollapsePadTidy(r[1..], false);
        PadCollapsesOther(r, b);
      }
    }
  }

  /** Stripping whitespace from around a string that has none at its ends gives it back. */
  lemma StripAround(l: string, m: string, t: string)
    requires Blank(l) && Blank(t)
    requires m != [] ==> !IsSpace(m[0]) && !IsSpace(m[|m| - 1])
    ensures Strip(l + m + t) == m
  {
    var x := l + m + t;
    var a := StripStart(x);
    var r := Strip(x);
    if m != [] {
      assert x[|l|] == m[0];
      assert x[|l| + |m| - 1] == m[|m| - 1];
      assert a == |l|;
      var e := a + |r|;
      assert e == |l| + |m|;
      assert forall k :: 0 <= k < |m| ==> r[k] == x[|l| + k] == m[k];
    }
  }

  lemma {:induction false} DeleteAllowed(s: string)
    requires forall i :: 0 <= i < |s| ==> Allowed(s[i])
    ensures Delete(s) == s
    decreases |s|
  {
    if s != [] {
      DeleteAllowed(s[1..]);
    }
  }

  /** A normalised string is its own lower-case form, and padding it adds nothing the
      cleaning would drop. */
  lemma NormalizedPlain(text: string)
    ensures var r := NormalizeText(text);
            LowerString(r) == r && Delete(Pad(r)) == Pad(r)
  {
    var r := NormalizeText(text);
    forall i | 0 <= i < |r|
      ensures Lower(r[i]) == r[i] && Allowed(r[i])
    {
      NormalizeChars(text, r[i]);
    }
    assert LowerString(r) == r;
    var padded := Pad(r);
    forall i | 0 <= i < |padded|
      ensures Allowed(padded[i])
    {
      PadChars(r, padded[i]);
      if padded[i] != ' ' {
        var k :| 0 <= k < |r| && r[k] == padded[i];
      }
    }
    DeleteAllowed(padded);
  }

  /** Normalising a second time changes nothing. */
  lemma NormalizeIdempotent(text: string)
    ensures NormalizeText(NormalizeText(text)) == NormalizeText(text)
  {
    hide LowerString, Strip, Pad, Delete, CollapseFrom, Tidy, Sep;
    var r := NormalizeText(text);
    NormalizedPlain(text);
    NormalizeShape(text);
    CollapsePadTidy(r, false);
    StripAround(LeadMark(r), r, TrailMark(r));
  }

  lemma PadExample()
    ensures Pad("bu,") == "bu , "
  {
    assert "bu,"[1..] == "u," && "u,"[1..] == "," && ","[1..] == [];
    assert Pad(",") == " , ";
    assert Pad("u,") == "u , ";
  }

  lemma DeleteExample()
    ensures Delete("bu , ") == "bu , "
  {
    assert "bu , "[1..] == "u , " && "u , "[1..] == " , " && " , "[1..] == ", ";
    assert ", "[1..] == " " && " "[1..] == [];
    assert Allowed('b') && Allowed('u') && Allowed(',') && Allowed(' ');
    assert Delete(" ") == " ";
    assert Delete(", ") == ", ";
    assert Delete(" , ") == " , ";
    assert Delete("u , ") == "u , ";
  }

  lemma CollapseExample()
    ensures Collapse("bu , ") == "bu , "
  {
    assert "bu , "[1..] == "u , " && "u , "[1..] == " , " && " , "[1..] == ", ";
    assert ", "[1..] == " " && " "[1..] == [];
    assert CollapseFrom(", ", true) == ", ";
    assert CollapseFrom("u , ", false) == "u , ";
  }

  lemma StripExample()
    ensures Strip("bu , ") == "bu ,"
  {
    var c := "bu , ";
    var r := Strip(c);
    assert !IsSpace(c[0]) && !IsSpace(c[3]) && IsSpace(c[4]);
    assert StripStart(c) == 0;
    assert |r| == 4;
    assert r == c[0..4];
  }

  /** The word and the comma of `"Bu,"` are kept apart by a space rather than the
      comma being dropped. */
  lemma CommaIsolated()
    ensures NormalizeText("Bu,") == "bu ,"
  {
    var l := LowerString("Bu,");
    assert l[0] == 'b' && l[1] == 'u' && l[2] == ',';
    assert l == "bu,";
    hide LowerString, Pad, Delete, CollapseFrom, Strip;
    PadExample();
    DeleteExample();
    CollapseExample();
    StripExample();
  }
}
