/**
 * Chapter segmentation (`detectChapters`): the first heading pattern that
 * matches anywhere decides the chapters; every one of its matches opens a
 * chapter that runs to the next match, trimmed. Without any match the whole
 * text is one chapter called "Full Text".
 */
module Chapters {
  import opened Wrappers
  import opened JsText
  import opened GlobalScan
  import opened Headings

  datatype Chapter = Chapter(title: string, text: string, startIndex: nat)

  /** The chapter used when no heading pattern matches. */
  function FullText(text: string): Chapter
  {
    Chapter("Full Text", text, 0)
  }

  /** The position in `Patterns`, from `k` on, of the first pattern with a
      match in `text`; |Patterns| if none has one. */
  function WinnerFrom(text: string, k: nat): (w: nat)
    requires k <= |Patterns|
    ensures k <= w <= |Patterns|
    ensures forall j :: k <= j < w ==> !HasMatch(text, Patterns[j])
    ensures w < |Patterns| ==> HasMatch(text, Patterns[w])
    decreases |Patterns| - k
  {
    if k == |Patterns| || HasMatch(text, Patterns[k]) then k
    else WinnerFrom(text, k + 1)
  }

  function Winner(text: string): nat
  {
    WinnerFrom(text, 0)
  }

  /** The matches that become chapters: those of the winning pattern, or
      none when no pattern matches. */
  function HeadingMatches(text: string): seq<Match>
  {
    var w := Winner(text);
    if w < |Patterns| then MatchAll(text, Patterns[w]) else []
  }

  /** The headings are non-empty slices of the text, in order and without
      overlapping. */
  lemma HeadingsPlaced(text: string)
    ensures Placed(text, HeadingMatches(text))
  {
    var w := Winner(text);
    if w < |Patterns| {
      MatchAllPlaced(text, Patterns[w]);
    }
  }

  /** There are no headings exactly when no pattern has a match. */
  lemma NoHeadingsIff(text: string)
    ensures HeadingMatches(text) == [] <==> forall j :: 0 <= j < |Patterns| ==> !HasMatch(text, Patterns[j])
  {
  }

  /** Where chapter `i` ends: at the next heading, or at the end of the text. */
  function ChapterEnd(text: string, ms: seq<Match>, i: nat): nat
    requires i < |ms|
  {
    if i < |ms| - 1 then ms[i + 1].index else |text|
  }

  /** Chapter `i` of a text whose headings are `ms`. */
  function ChapterAt(text: string, ms: seq<Match>, i: nat): Chapter
    requires Placed(text, ms) && i < |ms|
  {
    var start := ms[i].index;
    var end := ChapterEnd(text, ms, i);
    assert i < |ms| - 1 ==> End(ms[i]) <= ms[i + 1].index;
    Chapter(ms[i].text, Trim(text[start..end]), start)
  }

  /** The chapters of a text whose headings are `ms`: one per heading, in
      the order of the text, or the whole text when there is none. */
  function SegmentOf(text: string, ms: seq<Match>): seq<Chapter>
    requires Placed(text, ms)
  {
    if ms == [] then [FullText(text)]
    else seq(|ms|, i requires 0 <= i < |ms| => ChapterAt(text, ms, i))
  }

  /** The chapters `detectChapters` builds from `text`. */
  function Segment(text: string): (r: seq<Chapter>)
    ensures |r| >= 1
  {
    HeadingsPlaced(text);
    SegmentOf(text, HeadingMatches(text))
  }

  /** A list holding chapter `j` at every index `j` of the headings `ms` is
      their segmentation. */
  lemma SegmentOfChapters(text: string, ms: seq<Match>, chs: seq<Chapter>)
    requires Placed(text, ms) && ms != [] && |chs| == |ms|
    requires forall j :: 0 <= j < |chs| ==> chs[j] == ChapterAt(text, ms, j)
    ensures chs == SegmentOf(text, ms)
  {
  }

  /** Without headings the whole text is one chapter; otherwise there is one
      chapter per heading, titled by it and starting at it, and the chapters
      start in increasing order. */
  lemma SegmentShape(text: string)
    ensures HeadingMatches(text) == [] ==> Segment(text) == [FullText(text)]
    ensures HeadingMatches(text) != [] ==>
              && |Segment(text)| == |HeadingMatches(text)|
              && forall i :: 0 <= i < |Segment(text)| ==>
                   && Segment(text)[i].title == HeadingMatches(text)[i].text
                   && Segment(text)[i].startIndex == HeadingMatches(text)[i].index
    ensures forall i, j :: 0 <= i < j < |Segment(text)| ==> Segment(text)[i].startIndex < Segment(text)[j].startIndex
  {
    HeadingsPlaced(text);
  }

  /** The pattern that decides the chapters is the first with a match:
      every earlier one has none. */
  lemma WinnerIsFirstMatching(text: string, k: nat)
    requires k < |Patterns|
    requires HasMatch(text, Patterns[k])
    requires forall j :: 0 <= j < k ==> !HasMatch(text, Patterns[j])
    ensures Winner(text) == k
    ensures HeadingMatches(text) == MatchAll(text, Patterns[k])
  {
  }

  /** When some pattern matches, the headings are the matches of the
      winning one. */
  lemma HeadingsOfWinner(text: string)
    requires HeadingMatches(text) != []
    ensures Winner(text) < |Patterns|
    ensures HeadingMatches(text) == MatchAll(text, Patterns[Winner(text)])
  {
  }

  lemma SegmentAt(text: string, i: nat)
    requires HeadingMatches(text) != [] && i < |HeadingMatches(text)|
    ensures Placed(text, HeadingMatches(text))
    ensures |Segment(text)| == |HeadingMatches(text)|
    ensures Segment(text)[i] == ChapterAt(text, HeadingMatches(text), i)
  {
    HeadingsPlaced(text);
  }

  /** Every chapter title is a heading of the winning pattern found at the
      chapter's start. */
  lemma ChapterTitleIsHeading(text: string, i: nat)
    requires HeadingMatches(text) != [] && i < |Segment(text)|
    ensures Winner(text) < |Patterns|
    ensures var c := Segment(text)[i];
            c.startIndex + |c.title| <= |text|
            && c.title == text[c.startIndex..c.startIndex + |c.title|]
            && MatchEnd(text, c.startIndex, Patterns[Winner(text)]) == Some(c.startIndex + |c.title|)
  {
    HeadingsOfWinner(text);
    SegmentAt(text, i);
    var m := HeadingMatches(text)[i];
    var c := Segment(text)[i];
    assert c.title == m.text && c.startIndex == m.index;
    MatchAllAt(text, Patterns[Winner(text)], i);
    assert m.text == text[m.index..End(m)];
  }

  /** A chapter opened by a heading keeps the heading as the start of its
      text: trimming only drops the whitespace before the next heading. */
  lemma {:induction false} ChapterBeginsWithTitle(text: string, i: nat)
    requires HeadingMatches(text) != []
    requires i < |Segment(text)|
    ensures Segment(text)[i].title <= Segment(text)[i].text
  {
    HeadingsOfWinner(text);
    SegmentAt(text, i);
    var ms := HeadingMatches(text);
    var m := ms[i];
    var end := ChapterEnd(text, ms, i);
    assert i < |ms| - 1 ==> End(m) <= ms[i + 1].index;
    var body := text[m.index..end];
    var n := |m.text|;
    MatchAllUnpadded(text, Patterns[Winner(text)], i);
    assert body[..n] == m.text;
    TrimKeepsPrefix(body, n);
  }
}
