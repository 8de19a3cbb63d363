/**
 * Where each navigation command of the reader moves the chapter and page
 * (`previousPage`, `nextPage`, `previousChapter`, `nextChapter`,
 * `goToChapter`), and the page turn of `checkAndTurnPage`.
 */
module Navigation {
  import opened Wrappers
  import opened JsText
  import opened Chapters
  import opened Pagination

  /** The outcome of a command: a `TypeError` (reading `pages.length` of a
      chapter that has no pages), no move, or a move to a chapter and page
      that is then rendered. */
  datatype Move = Throws | Stay | MoveTo(chapter: nat, page: nat)

  function PreviousPageMove(ci: nat, page: nat): Move
  {
    if page > 0 then MoveTo(ci, page - 1) else Stay
  }

  function NextChapterMove(chapterCount: nat, ci: nat): Move
  {
    if ci < chapterCount - 1 then MoveTo(ci + 1, 0) else Stay
  }

  function PreviousChapterMove(ci: nat): Move
  {
    if ci > 0 then MoveTo(ci - 1, 0) else Stay
  }

  function GoToChapterMove(chapterCount: nat, target: int): Move
  {
    if 0 <= target < chapterCount then MoveTo(target, 0) else Stay
  }

  function NextPageMove(ppc: seq<seq<string>>, chapterCount: nat, ci: nat, page: nat): Move
  {
    if ci >= |ppc| then Throws
    else if page < |ppc[ci]| - 1 then MoveTo(ci, page + 1)
    else NextChapterMove(chapterCount, ci)
  }

  /** The page count `checkAndTurnPage` compares the cursor with: the pieces
      of pages `0..page` of chapter `ci`, or 0 when the chapter has none. */
  function TurnThreshold(ppc: seq<seq<string>>, ci: nat, page: nat): nat
  {
    if ci < |ppc| then PiecesBefore(ppc[ci], page + 1) else 0
  }

  /** `checkAndTurnPage`: one `nextPage` when the cursor is past the
      threshold, otherwise nothing. */
  function TurnMove(ppc: seq<seq<string>>, chapterCount: nat, ci: nat, page: nat, cursor: int): Move
  {
    if cursor > TurnThreshold(ppc, ci, page) then NextPageMove(ppc, chapterCount, ci, page) else Stay
  }

  /** A chapter and page that exist. */
  predicate InRange(chs: seq<Chapter>, ppc: seq<seq<string>>, ci: nat, page: nat)
  {
    ci < |chs| && ci < |ppc| && page < |ppc[ci]|
  }

  /** Every move from an existing page lands on an existing page. */
  lemma MovesStayInRange(chs: seq<Chapter>, ppc: seq<seq<string>>, ci: nat, page: nat, target: int)
    requires Paginated(chs, ppc) && InRange(chs, ppc, ci, page)
    ensures var m := PreviousPageMove(ci, page); m.MoveTo? ==> InRange(chs, ppc, m.chapter, m.page)
    ensures var m := NextPageMove(ppc, |chs|, ci, page); m != Throws && (m.MoveTo? ==> InRange(chs, ppc, m.chapter, m.page))
    ensures var m := PreviousChapterMove(ci); m.MoveTo? ==> InRange(chs, ppc, m.chapter, m.page)
    ensures var m := NextChapterMove(|chs|, ci); m.MoveTo? ==> InRange(chs, ppc, m.chapter, m.page)
    ensures var m := GoToChapterMove(|chs|, target); m.MoveTo? ==> InRange(chs, ppc, m.chapter, m.page)
  {
    if ci > 0 {
      assert |ppc[ci - 1]| >= 1;
    }
    if ci + 1 < |chs| {
      assert |ppc[ci + 1]| >= 1;
    }
    if 0 <= target < |chs| {
      assert |ppc[target]| >= 1;
    }
  }

  /** The target of any move exists when the document is paginated, even
      from a page that does not, so rendering it always goes ahead. */
  lemma MoveTargetsHavePages(chs: seq<Chapter>, ppc: seq<seq<string>>, ci: nat, page: nat, target: int)
    requires Paginated(chs, ppc)
    ensures var m := NextPageMove(ppc, |chs|, ci, page); m.MoveTo? ==> InRange(chs, ppc, m.chapter, m.page)
    ensures var m := PreviousChapterMove(ci); m.MoveTo? && ci <= |chs| ==> InRange(chs, ppc, m.chapter, m.page)
    ensures var m := NextChapterMove(|chs|, ci); m.MoveTo? ==> InRange(chs, ppc, m.chapter, m.page)
    ensures var m := GoToChapterMove(|chs|, target); m.MoveTo? ==> InRange(chs, ppc, m.chapter, m.page)
  {
    if 0 < ci <= |chs| {
      assert |ppc[ci - 1]| >= 1;
    }
    if ci + 1 < |chs| {
      assert |ppc[ci + 1]| >= 1;
    }
    if 0 <= target < |chs| {
      assert |ppc[target]| >= 1;
    }
  }

  /** Changing chapter always opens the first page of the new chapter. */
  lemma ChapterChangeResetsPage(ppc: seq<seq<string>>, chapterCount: nat, ci: nat, page: nat, target: int)
    ensures var m := NextPageMove(ppc, chapterCount, ci, page); m.MoveTo? && m.chapter != ci ==> m.page == 0
    ensures var m := PreviousPageMove(ci, page); m.MoveTo? ==> m.chapter == ci
    ensures PreviousChapterMove(ci).MoveTo? ==> PreviousChapterMove(ci).page == 0
    ensures NextChapterMove(chapterCount, ci).MoveTo? ==> NextChapterMove(chapterCount, ci).page == 0
    ensures GoToChapterMove(chapterCount, target).MoveTo? ==> GoToChapterMove(chapterCount, target).page == 0
  {
  }

  /** On the last page of the last chapter `nextPage` does nothing, and an
      out-of-range `goToChapter` does nothing. */
  lemma EndsAreNoOps(chs: seq<Chapter>, ppc: seq<seq<string>>, target: int)
    requires Paginated(chs, ppc) && |chs| >= 1
    ensures NextPageMove(ppc, |chs|, |chs| - 1, |ppc[|chs| - 1]| - 1) == Stay
    ensures target < 0 || target >= |chs| ==> GoToChapterMove(|chs|, target) == Stay
  {
  }

  /** Moving forward never moves the reading position back. */
  lemma NextPageAdvances(chs: seq<Chapter>, ppc: seq<seq<string>>, ci: nat, page: nat, c: nat, p: nat)
    requires Paginated(chs, ppc) && InRange(chs, ppc, ci, page)
    requires NextPageMove(ppc, |chs|, ci, page) == MoveTo(c, p)
    ensures PageWordOffset(chs, ppc, ci, page) <= PageWordOffset(chs, ppc, c, p)
  {
    if page < |ppc[ci]| - 1 {
      assert c == ci && p == page + 1;
      OffsetMonotone(chs, ppc, ci, page, p);
    } else {
      assert c == ci + 1 && p == 0;
      NextChapterAdvances(chs, ppc, ci, page);
    }
  }

  /** The first page of the next chapter starts no earlier than any page
      of the current one. */
  lemma NextChapterAdvances(chs: seq<Chapter>, ppc: seq<seq<string>>, ci: nat, page: nat)
    requires Paginated(chs, ppc) && InRange(chs, ppc, ci, page)
    requires NextChapterMove(|chs|, ci).MoveTo?
    ensures PageWordOffset(chs, ppc, ci, page) <= PageWordOffset(chs, ppc, ci + 1, 0)
  {
    OffsetOrdered(chs, ppc, ci, page, ci + 1, 0);
  }

  /** Moving back never moves the reading position forward. */
  lemma PreviousPageRetreats(chs: seq<Chapter>, ppc: seq<seq<string>>, ci: nat, page: nat)
    requires page > 0
    ensures PageWordOffset(chs, ppc, ci, page - 1) <= PageWordOffset(chs, ppc, ci, page)
  {
    OffsetMonotone(chs, ppc, ci, page - 1, page);
  }

  /** The first page of the previous chapter starts no later than any page
      of the current one. */
  lemma PreviousChapterRetreats(chs: seq<Chapter>, ppc: seq<seq<string>>, ci: nat, page: nat)
    requires Paginated(chs, ppc) && InRange(chs, ppc, ci, page) && ci > 0
    ensures PageWordOffset(chs, ppc, ci - 1, 0) <= PageWordOffset(chs, ppc, ci, page)
  {
    OffsetOrdered(chs, ppc, ci - 1, 0, ci, page);
  }

  /** Within a paginated chapter the page turn fires exactly when the cursor
      is past the first `min(400 (page + 1), n)` pieces of the chapter. */
  lemma TurnThresholdClosed(chs: seq<Chapter>, ppc: seq<seq<string>>, ci: nat, page: nat)
    requires Paginated(chs, ppc) && InRange(chs, ppc, ci, page)
    ensures TurnThreshold(ppc, ci, page) == Min((page + 1) * WordsPerPage, |Split(chs[ci].text)|)
  {
    PiecesThroughPage(chs[ci].text, page);
  }
}
