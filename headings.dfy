/**
 * The four chapter-heading patterns of the reader and JavaScript's
 * `text.matchAll(pattern)` over them. Each pattern is a keyword, a run of
 * whitespace and a run of digits or Roman-numeral letters, matched
 * case-insensitively; hand-written matchers replace the regular expressions.
 */
module Headings {
  import opened Wrappers
  import opened JsText
  import opened GlobalScan

  /** `/Chapter\s+\d+/gi`, `/CHAPTER\s+[IVXLCDM]+/gi`, `/Part\s+\d+/gi`, `/Book\s+\d+/gi`. */
  datatype Pattern = ChapterNumber | ChapterRoman | PartNumber | BookNumber

  /** The patterns in the order the reader tries them. */
  const Patterns: seq<Pattern> := [ChapterNumber, ChapterRoman, PartNumber, BookNumber]

  /** The keyword of a pattern, in lower case. */
  function Keyword(p: Pattern): string
  {
    match p
    case ChapterNumber => "chapter"
    case ChapterRoman => "chapter"
    case PartNumber => "part"
    case BookNumber => "book"
  }

  /** Case folding under the `i` flag without `u`: a character is compared by
      its upper-case form, and a non-ASCII character is never folded onto an
      ASCII letter, so only ASCII letters can match these keywords. */
  function LowerAscii(c: char): char
  {
    if 'A' <= c <= 'Z' then (c as int + 32) as char else c
  }

  /** `\d`: an ASCII digit. */
  predicate IsDigit(c: char)
  {
    '0' <= c <= '9'
  }

  /** `[IVXLCDM]` under the `i` flag. */
  predicate IsRomanLetter(c: char)
  {
    LowerAscii(c) in "ivxlcdm"
  }

  /** The character class that ends a heading of pattern `p`. */
  predicate InClass(p: Pattern, c: char)
  {
    if p == ChapterRoman then IsRomanLetter(c) else IsDigit(c)
  }

  /** The end of the run of class characters that starts at `i`. */
  function ClassRunEnd(s: string, i: nat, p: Pattern): (j: nat)
    requires i <= |s|
    ensures i <= j <= |s|
    ensures j < |s| ==> !InClass(p, s[j])
    ensures forall k {:trigger InClass(p, s[k])} :: i <= k < j ==> InClass(p, s[k])
    decreases |s| - i
  {
    if i == |s| || !InClass(p, s[i]) then i else ClassRunEnd(s, i + 1, p)
  }

  /** `kw` occurs at position `i` of `s`, ignoring case. */
  predicate KeywordAt(s: string, i: nat, kw: string)
    decreases kw
  {
    kw == [] || (i < |s| && LowerAscii(s[i]) == kw[0] && KeywordAt(s, i + 1, kw[1..]))
  }

  lemma {:induction false} KeywordAtBounds(s: string, i: nat, kw: string)
    requires i <= |s| && KeywordAt(s, i, kw)
    ensures i + |kw| <= |s|
    decreases kw
  {
    if kw != [] {
      KeywordAtBounds(s, i + 1, kw[1..]);
    }
  }

  /**
   * Where a match of `p` that starts exactly at `i` ends, if there is one:
   * the keyword, the maximal whitespace run after it (at least one
   * character), then the maximal run of class characters (at least one).
   * Backtracking cannot find another match at `i`: no whitespace character is
   * a digit or a Roman letter.
   */
  function MatchEnd(s: string, i: nat, p: Pattern): (r: Option<nat>)
    requires i <= |s|
    ensures r.Some? ==> i < r.value <= |s|
  {
    var kw := Keyword(p);
    if !KeywordAt(s, i, kw) then None
    else
      KeywordAtBounds(s, i, kw);
      var j := i + |kw|;
      if j == |s| || !IsSpace(s[j]) then None
      else
        var k := SpaceRunEnd(s, j);
        if k == |s| || !InClass(p, s[k]) then None
        else Some(ClassRunEnd(s, k, p))
  }

  /** Every character of `t` is in the class of `p`. */
  predicate AllInClass(p: Pattern, t: string)
  {
    forall k :: 0 <= k < |t| ==> InClass(p, t[k])
  }

  /** The two ends of a match of `p` at `i`: the keyword with whitespace
      after it, and a class character. */
  lemma MatchEndEnds(s: string, i: nat, p: Pattern)
    requires i <= |s| && MatchEnd(s, i, p).Some?
    ensures i + |Keyword(p)| < MatchEnd(s, i, p).value
    ensures KeywordAt(s, i, Keyword(p)) && IsSpace(s[i + |Keyword(p)|])
    ensures InClass(p, s[MatchEnd(s, i, p).value - 1])
  {
  }

  lemma MatchStartsAt(s: string, i: nat, p: Pattern, j: nat)
    requires i <= |s| && KeywordAt(s, i, Keyword(p))
    requires i + |Keyword(p)| < j < |s| && AllSpace(s[i + |Keyword(p)|..j]) && InClass(p, s[j])
    ensures MatchEnd(s, i, p).Some?
  {
    var a := i + |Keyword(p)|;
    forall q | a <= q < j
      ensures IsSpace(s[q])
    {
      assert s[a..j][q - a] == s[q];
    }
    ClassNotSpace(p, s[j]);
    assert SpaceRunEnd(s, a) == j;
  }

  lemma MatchEndRuns(s: string, i: nat, p: Pattern)
    requires i <= |s| && MatchEnd(s, i, p).Some?
    ensures var a := i + |Keyword(p)|;
            var e := MatchEnd(s, i, p).value;
            && KeywordAt(s, i, Keyword(p)) && a < e
            && (exists j :: a < j < e && AllSpace(s[a..j]) && InClass(p, s[j]) && AllInClass(p, s[j..e]))
            && (e == |s| || !InClass(p, s[e]))
  {
    var kw := Keyword(p);
    KeywordAtBounds(s, i, kw);
    var a := i + |kw|;
    var k := SpaceRunEnd(s, a);
    assert AllSpace(s[a..k]);
    var e := ClassRunEnd(s, k, p);
    assert AllInClass(p, s[k..e]);
  }

  /**
   * A match of `p` starts at `i` exactly when the keyword occurs there,
   * followed by a non-empty whitespace run and a class character. The match
   * then consists of the keyword, that whitespace run and the maximal run of
   * class characters after it.
   */
  lemma MatchEndShape(s: string, i: nat, p: Pattern)
    requires i <= |s|
    ensures var a := i + |Keyword(p)|;
            MatchEnd(s, i, p).Some? <==>
              KeywordAt(s, i, Keyword(p)) &&
              exists j :: a < j < |s| && AllSpace(s[a..j]) && InClass(p, s[j])
    ensures MatchEnd(s, i, p).Some? ==>
              var a := i + |Keyword(p)|;
              var e := MatchEnd(s, i, p).value;
              && KeywordAt(s, i, Keyword(p)) && a < e
              && (exists j :: a < j < e && AllSpace(s[a..j]) && AllInClass(p, s[j..e]))
              && (e == |s| || !InClass(p, s[e]))
  {
    var a := i + |Keyword(p)|;
    if MatchEnd(s, i, p).Some? {
      MatchEndRuns(s, i, p);
    }
    forall j | KeywordAt(s, i, Keyword(p)) && a < j < |s| && AllSpace(s[a..j]) && InClass(p, s[j])
      ensures MatchEnd(s, i, p).Some?
    {
      MatchStartsAt(s, i, p, j);
    }
  }

  /** For every position of `s` from `i` on, where a match starting there
      ends. */
  function EndTable(s: string, p: Pattern, i: nat): (t: seq<Option<nat>>)
    requires i <= |s|
    ensures |t| == |s| - i
    decreases |s| - i
  {
    if i == |s| then [] else [MatchEnd(s, i, p)] + EndTable(s, p, i + 1)
  }

  lemma {:induction false} EndTableAt(s: string, p: Pattern, i: nat, k: nat)
    requires i <= k < |s|
    ensures EndTable(s, p, i)[k - i] == MatchEnd(s, k, p)
    decreases k - i
  {
    if i < k {
      EndTableAt(s, p, i + 1, k);
      assert EndTable(s, p, i) == [MatchEnd(s, i, p)] + EndTable(s, p, i + 1);
    }
  }

  lemma EndTableOver(s: string, p: Pattern)
    ensures TableOver(s, EndTable(s, p, 0))
  {
    forall i | 0 <= i < |s|
      ensures EndTable(s, p, 0)[i].Some? ==> i < EndTable(s, p, 0)[i].value <= |s|
    {
      EndTableAt(s, p, 0, i);
    }
  }

  /** `s.matchAll(p)`. */
  function MatchAll(s: string, p: Pattern): seq<Match>
  {
    EndTableOver(s, p);
    Scan(s, EndTable(s, p, 0), 0)
  }

  /** The pattern has at least one match in `s`. */
  predicate HasMatch(s: string, p: Pattern)
  {
    MatchAll(s, p) != []
  }

  /** The results of `matchAll` are non-empty slices of `s`, in order and
      without overlapping. */
  lemma MatchAllPlaced(s: string, p: Pattern)
    ensures Placed(s, MatchAll(s, p))
  {
    EndTableOver(s, p);
    ScanPlaced(s, EndTable(s, p, 0));
  }

  /** The `k`-th result of `matchAll` is a match of the pattern at its
      index: the keyword, whitespace and a class run that ends where the
      result ends. */
  lemma MatchAllAt(s: string, p: Pattern, k: nat)
    requires k < |MatchAll(s, p)|
    ensures var m := MatchAll(s, p)[k];
            m.index < |s| && MatchEnd(s, m.index, p) == Some(End(m)) && m.text == s[m.index..End(m)]
  {
    var t := EndTable(s, p, 0);
    EndTableOver(s, p);
    ScanInTable(s, t, 0);
    var m := MatchAll(s, p)[k];
    assert InTable(s, t, m);
    EndTableAt(s, p, 0, m.index);
  }

  /** `matchAll` skips no match: every position where a match of the
      pattern starts lies inside one of the results, so no match starts
      between two results or after the last one. */
  lemma MatchAllComplete(s: string, p: Pattern)
    ensures forall i :: 0 <= i < |s| && MatchEnd(s, i, p).Some? ==> Covered(MatchAll(s, p), i)
  {
    var t := EndTable(s, p, 0);
    EndTableOver(s, p);
    ScanCovers(s, t, 0);
    forall i | 0 <= i < |s| && MatchEnd(s, i, p).Some?
      ensures Covered(MatchAll(s, p), i)
    {
      EndTableAt(s, p, 0, i);
    }
  }

  /** The patterns have no word boundary: "chapter 3" inside "subchapter 3"
      is a heading, so segmentation cuts the word "subchapter" in two. */
  lemma HeadingInsideWord(s: string)
    requires s == "subchapter 3"
    ensures MatchEnd(s, 3, ChapterNumber) == Some(12)
    ensures HasMatch(s, ChapterNumber)
  {
    assert KeywordAt(s, 10, "");
    assert KeywordAt(s, 8, "er");
    assert KeywordAt(s, 6, "pter");
    assert KeywordAt(s, 4, "hapter");
    assert KeywordAt(s, 3, "chapter");
    assert SpaceRunEnd(s, 11) == 11 && SpaceRunEnd(s, 10) == 11;
    assert ClassRunEnd(s, 12, ChapterNumber) == 12 && ClassRunEnd(s, 11, ChapterNumber) == 12;
    HasMatchIff(s, ChapterNumber);
  }

  /** A string that neither starts nor ends with whitespace. */
  predicate Unpadded(t: string)
  {
    t != [] && !IsSpace(t[0]) && !IsSpace(t[|t| - 1])
  }

  lemma UnpaddedSlice(s: string, i: nat, e: nat)
    requires i < e <= |s| && !IsSpace(s[i]) && !IsSpace(s[e - 1])
    ensures Unpadded(s[i..e])
  {
    assert s[i..e][0] == s[i] && s[i..e][e - i - 1] == s[e - 1];
  }

  /** Keyword letters and class characters are not whitespace. */
  lemma KeywordStartNotSpace(s: string, i: nat, p: Pattern)
    requires i < |s| && KeywordAt(s, i, Keyword(p))
    ensures !IsSpace(s[i])
  {
    assert LowerAscii(s[i]) == Keyword(p)[0];
  }

  lemma ClassNotSpace(p: Pattern, c: char)
    requires InClass(p, c)
    ensures !IsSpace(c)
  {
  }

  /** A heading starts with a keyword letter and ends with a class character,
      so trimming leaves it alone. */
  lemma {:induction false} MatchAllUnpadded(s: string, p: Pattern, k: nat)
    requires k < |MatchAll(s, p)|
    ensures Unpadded(MatchAll(s, p)[k].text)
  {
    var m := MatchAll(s, p)[k];
    MatchAllAt(s, p, k);
    var i, e := m.index, End(m);
    MatchEndEnds(s, i, p);
    KeywordStartNotSpace(s, i, p);
    ClassNotSpace(p, s[e - 1]);
    UnpaddedSlice(s, i, e);
  }


  /** A pattern has a match exactly when some position of `s` starts one. */
  lemma HasMatchIff(s: string, p: Pattern)
    ensures HasMatch(s, p) <==> exists i :: 0 <= i < |s| && MatchEnd(s, i, p).Some?
  {
    EndTableOver(s, p);
    ScanEmpty(s, EndTable(s, p, 0), 0);
    forall i | 0 <= i < |s|
      ensures EndTable(s, p, 0)[i] == MatchEnd(s, i, p)
    {
      EndTableAt(s, p, 0, i);
    }
  }
}
