/**
 * Pagination (`paginateChapters`) and the word counts that turn a chapter
 * and page into a position (`getPageWordOffset`, `getPageWordCount`).
 * A chapter's text is split on whitespace runs and every 400 pieces are
 * joined with single spaces into a page.
 */
module Pagination {
  import opened Wrappers
  import opened JsText
  import opened Chapters

  /** `wordsPerPage`. */
  const WordsPerPage: nat := 400

  /** The pieces of page `i`: `words.slice(i * 400, i * 400 + 400)`. */
  function PageSlice(ps: seq<string>, i: nat): (r: seq<string>)
    requires i * WordsPerPage < |ps|
    ensures 1 <= |r| <= WordsPerPage
  {
    ps[i * WordsPerPage..Min(i * WordsPerPage + WordsPerPage, |ps|)]
  }

  /** How many times the loop `for (i = 0; i < n; i += 400)` runs. */
  function PageCount(n: nat): (c: nat)
    ensures (c - 1) * WordsPerPage < n <= c * WordsPerPage || (n == 0 && c == 0)
  {
    (n + WordsPerPage - 1) / WordsPerPage
  }

  /** The page count is the only count whose pages hold all `n` pieces with
      the last one not empty. */
  lemma PageCountUnique(n: nat, c: nat)
    requires (c - 1) * WordsPerPage < n <= c * WordsPerPage
    ensures PageCount(n) == c
  {
  }

  /** The pages of a list of pieces. */
  function PagesOfPieces(ps: seq<string>): (r: seq<string>)
    ensures |r| == PageCount(|ps|)
  {
    seq(PageCount(|ps|), i requires 0 <= i < PageCount(|ps|) => Join(PageSlice(ps, i)))
  }

  /** The pages of a chapter text: at least one, and exactly as many as
      needed to hold its pieces 400 at a time. */
  function PagesOf(text: string): (r: seq<string>)
    ensures |r| >= 1
    ensures (|r| - 1) * WordsPerPage < |Split(text)| <= |r| * WordsPerPage
  {
    PagesOfPieces(Split(text))
  }

  /** `pagesPerChapter` is built from `chapters`. */
  predicate Paginated(chs: seq<Chapter>, ppc: seq<seq<string>>)
  {
    |ppc| == |chs| && forall i :: 0 <= i < |chs| ==> ppc[i] == PagesOf(chs[i].text)
  }

  lemma SliceShaped(ps: seq<string>, a: nat, b: nat)
    requires SplitShaped(ps) && a < b <= |ps|
    ensures SplitShaped(ps[a..b])
  {
    var q := ps[a..b];
    assert forall k :: 0 <= k < |q| ==> q[k] == ps[a + k];
  }

  /** Re-splitting page `i` gives back exactly its pieces. */
  lemma PageRoundTrip(text: string, i: nat)
    requires i < |PagesOf(text)|
    ensures Split(PagesOf(text)[i]) == PageSlice(Split(text), i)
  {
    var ps := Split(text);
    SplitShape(text);
    SliceShaped(ps, i * WordsPerPage, Min(i * WordsPerPage + WordsPerPage, |ps|));
    SplitJoin(PageSlice(ps, i));
  }

  /** Every page but the last holds exactly 400 pieces. */
  lemma FullPages(text: string, i: nat)
    requires i < |PagesOf(text)| - 1
    ensures |Split(PagesOf(text)[i])| == WordsPerPage
  {
    PageRoundTrip(text, i);
  }

  /** `pagesPerChapter[c][p] || ''`: the text of page `p` of chapter `c`,
      or the empty text past its last page. */
  function PageText(ppc: seq<seq<string>>, c: nat, p: nat): string
    requires c < |ppc|
  {
    if p < |ppc[c]| then ppc[c][p] else ""
  }

  /** `sum of |pages[i].split(/\s+/)|` for `i < q`, `i < pages.length`: the
      unfiltered count `getPageWordCount(q - 1)` adds up. */
  function PiecesBefore(pages: seq<string>, q: nat): nat
  {
    if q == 0 then 0
    else PiecesBefore(pages, q - 1) + (if q - 1 < |pages| then |Split(pages[q - 1])| else 0)
  }

  /** `sum of the word counts of pages[i]` for `i < q`, `i < pages.length`:
      the page part of `getPageWordOffset(c, q)`. */
  function PageWordsBefore(pages: seq<string>, q: nat): nat
  {
    if q == 0 then 0
    else PageWordsBefore(pages, q - 1) + (if q - 1 < |pages| then WordCount(pages[q - 1]) else 0)
  }

  /** The sums stop at the last page: indices past it add nothing. */
  lemma {:induction false} PiecesBeforeClamped(pages: seq<string>, q: nat)
    ensures PiecesBefore(pages, q) == PiecesBefore(pages, Min(q, |pages|))
  {
    if q > |pages| {
      PiecesBeforeClamped(pages, q - 1);
    }
  }

  lemma {:induction false} PageWordsBeforeClamped(pages: seq<string>, q: nat)
    ensures PageWordsBefore(pages, q) == PageWordsBefore(pages, Min(q, |pages|))
  {
    if q > |pages| {
      PageWordsBeforeClamped(pages, q - 1);
    }
  }

  /** The word counts of `chapters[i].text` for `i < c`, `i < chapters.length`. */
  function ChapterWordsBefore(chs: seq<Chapter>, c: nat): nat
  {
    if c == 0 then 0
    else ChapterWordsBefore(chs, c - 1) + (if c - 1 < |chs| then WordCount(chs[c - 1].text) else 0)
  }

  /** `getPageWordOffset(c, p)`: the words of every earlier chapter and of
      the earlier pages of chapter `c`. */
  function PageWordOffset(chs: seq<Chapter>, ppc: seq<seq<string>>, c: nat, p: nat): nat
  {
    ChapterWordsBefore(chs, c) + (if c < |ppc| then PageWordsBefore(ppc[c], p) else 0)
  }

  /** The pieces of pages `0..q` are the first `min(400 q, n)` pieces. */
  lemma {:induction false} PiecesBeforeClosed(text: string, q: nat)
    ensures PiecesBefore(PagesOf(text), q) == Min(q * WordsPerPage, |Split(text)|)
  {
    if q > 0 {
      PiecesBeforeClosed(text, q - 1);
      if q - 1 < |PagesOf(text)| {
        PageRoundTrip(text, q - 1);
      }
    }
  }

  /** The page turn threshold of `checkAndTurnPage` on a page of the chapter
      is the number of pieces through the end of that page. */
  lemma PiecesThroughPage(text: string, p: nat)
    requires p < |PagesOf(text)|
    ensures PiecesBefore(PagesOf(text), p + 1) == Min((p + 1) * WordsPerPage, |Split(text)|)
  {
    PiecesBeforeClosed(text, p + 1);
  }

  /** A prefix is a shorter prefix followed by the slice between them. */
  lemma PrefixSplits<T>(s: seq<T>, a: nat, b: nat)
    requires a <= b <= |s|
    ensures s[..b] == s[..a] + s[a..b]
  {
  }

  /** Page `i` re-splits into the `i`-th slice of `ps`. */
  predicate SliceOfPage(pages: seq<string>, ps: seq<string>, i: nat)
    requires i < |pages|
  {
    i * WordsPerPage < |ps| && Split(pages[i]) == PageSlice(ps, i)
  }

  /** Pages that re-split into consecutive 400-piece slices of `ps` hold,
      on pages `0..q`, the words among the first `min(400 q, n)` pieces. */
  lemma {:induction false} PageWordsOfSlices(pages: seq<string>, ps: seq<string>, q: nat)
    requires |ps| <= |pages| * WordsPerPage
    requires forall i :: 0 <= i < |pages| ==> SliceOfPage(pages, ps, i)
    ensures PageWordsBefore(pages, q) == |Kept(ps[..Min(q * WordsPerPage, |ps|)])|
  {
    if q == 0 {
      assert ps[..0] == [];
    } else {
      PageWordsOfSlices(pages, ps, q - 1);
      if q - 1 < |pages| {
        assert SliceOfPage(pages, ps, q - 1);
        PageStep(ps, q - 1, pages[q - 1]);
        assert PageWordsBefore(pages, q) == PageWordsBefore(pages, q - 1) + WordCount(pages[q - 1]);
      } else {
        PastLastPage(|pages|, |ps|, q - 1);
      }
    }
  }

  /** Past the last page both prefixes are the whole piece list. */
  lemma PastLastPage(pageCount: nat, n: nat, q: nat)
    requires n <= pageCount * WordsPerPage && pageCount <= q
    ensures Min(q * WordsPerPage, n) == n && Min((q + 1) * WordsPerPage, n) == n
  {
    assert pageCount * WordsPerPage <= q * WordsPerPage;
  }

  /** One more page adds the words of its slice. */
  lemma PageStep(ps: seq<string>, q: nat, page: string)
    requires q * WordsPerPage < |ps| && Split(page) == PageSlice(ps, q)
    ensures |Kept(ps[..Min((q + 1) * WordsPerPage, |ps|)])|
            == |Kept(ps[..Min(q * WordsPerPage, |ps|)])| + WordCount(page)
  {
    var a := q * WordsPerPage;
    var b := Min(a + WordsPerPage, |ps|);
    assert (q + 1) * WordsPerPage == a + WordsPerPage;
    PrefixSplits(ps, a, b);
    KeptAppend(ps[..a], ps[a..b]);
  }

  /** The words on pages `0..q` are the words among the first
      `min(400 q, n)` pieces. */
  lemma PageWordsBeforeClosed(text: string, q: nat)
    ensures PageWordsBefore(PagesOf(text), q) == |Kept(Split(text)[..Min(q * WordsPerPage, |Split(text)|)])|
  {
    var pages := PagesOf(text);
    forall i | 0 <= i < |pages|
      ensures SliceOfPage(pages, Split(text), i)
    {
      PageRoundTrip(text, i);
    }
    PageWordsOfSlices(pages, Split(text), q);
  }

  /** The pages of a chapter hold exactly its words. */
  lemma PageWordsTotal(text: string)
    ensures PageWordsBefore(PagesOf(text), |PagesOf(text)|) == WordCount(text)
  {
    PageWordsBeforeClosed(text, |PagesOf(text)|);
    assert Split(text)[..|Split(text)|] == Split(text);
  }

  /** The offset is non-decreasing in the page index. */
  lemma {:induction false} OffsetMonotone(chs: seq<Chapter>, ppc: seq<seq<string>>, c: nat, p: nat, q: nat)
    requires p <= q
    ensures PageWordOffset(chs, ppc, c, p) <= PageWordOffset(chs, ppc, c, q)
    decreases q
  {
    if p < q {
      OffsetMonotone(chs, ppc, c, p, q - 1);
    }
  }

  /** Page indices past the chapter's last page add nothing. */
  lemma {:induction false} OffsetBeyondPages(chs: seq<Chapter>, ppc: seq<seq<string>>, c: nat, p: nat)
    requires c < |ppc| && p >= |ppc[c]|
    ensures PageWordOffset(chs, ppc, c, p) == PageWordOffset(chs, ppc, c, |ppc[c]|)
    decreases p
  {
    if p > |ppc[c]| {
      OffsetBeyondPages(chs, ppc, c, p - 1);
    }
  }

  /** The first page of the first chapter starts at word 0. */
  lemma OffsetStartsAtZero(chs: seq<Chapter>, ppc: seq<seq<string>>)
    ensures PageWordOffset(chs, ppc, 0, 0) == 0
  {
  }

  /** The offset past the last page of a chapter is the offset of the
      first page of the next one. */
  lemma OffsetContinuous(chs: seq<Chapter>, ppc: seq<seq<string>>, c: nat)
    requires Paginated(chs, ppc) && c + 1 < |chs|
    ensures PageWordOffset(chs, ppc, c, |ppc[c]|) == PageWordOffset(chs, ppc, c + 1, 0)
  {
    PageWordsTotal(chs[c].text);
  }

  /** The offsets of a paginated document increase in reading order: a
      later page, or any page of a later chapter, starts no earlier. */
  lemma {:induction false} OffsetOrdered(chs: seq<Chapter>, ppc: seq<seq<string>>, c: nat, p: nat, d: nat, q: nat)
    requires Paginated(chs, ppc) && c < d < |chs|
    ensures PageWordOffset(chs, ppc, c, p) <= PageWordOffset(chs, ppc, d, q)
    decreases d - c
  {
    if p > |ppc[c]| {
      OffsetBeyondPages(chs, ppc, c, p);
    } else {
      OffsetMonotone(chs, ppc, c, p, |ppc[c]|);
    }
    OffsetContinuous(chs, ppc, c);
    OffsetMonotone(chs, ppc, c + 1, 0, q);
    if c + 1 < d {
      OffsetOrdered(chs, ppc, c + 1, q, d, q);
    }
  }
}
