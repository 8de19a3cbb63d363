/**
 * The `NovelReader` object: the loaded document (chapters, pages, tokens),
 * the reading position (chapter, page, word cursor), the playback flags and
 * the saved progress, and the methods that update them.
 *
 * A method that makes JavaScript throw a `TypeError` returns `threw`; the
 * fields then hold what they held when the exception was raised.
 */
module Reader {
  import opened Wrappers
  import opened JsText
  import opened GlobalScan
  import opened Headings
  import opened Chapters
  import opened Pagination
  import opened Phrases
  import opened Speech
  import opened Progress
  import opened Navigation

  /** The audio element of the phrase being spoken. */
  datatype Audio = Audio(provider: Provider, phrase: string, paused: bool)

  /** What the environment answers during a call: whether the device is iOS
      and whether each speech provider produces audio. */
  datatype SpeechEnv = SpeechEnv(isIOS: bool, kokoroUp: bool, googleUp: bool)

  /** The playback fields `isReading`, `isPaused`, `currentAudio`. */
  datatype Playback = Playback(reading: bool, paused: bool, audio: Option<Audio>)

  /** The playback state `stopReading` leaves. */
  const Stopped: Playback := Playback(false, false, None)

  /** `currentAudio.pause()` and `currentAudio.play()` on an optional audio. */
  function PauseAudio(a: Option<Audio>): Option<Audio>
  {
    if a.Some? then Some(a.value.(paused := true)) else None
  }

  function PlayAudio(a: Option<Audio>): Option<Audio>
  {
    if a.Some? then Some(a.value.(paused := false)) else None
  }

  /** The fields only loading a text changes. */
  datatype Document = Document(
    text: string, fileName: string, chapters: seq<Chapter>,
    pages: seq<seq<string>>, words: seq<Token>, provider: Provider)

  class NovelReader {
    var novelText: string
    var fileName: string
    var chapters: seq<Chapter>
    var pagesPerChapter: seq<seq<string>>
    var words: seq<Token>
    var currentChapterIndex: nat
    var currentPage: nat
    var currentWordIndex: int
    var isReading: bool
    var isPaused: bool
    var currentAudio: Option<Audio>
    var selectedProvider: Provider
    var store: Store

    /** The pages are those of the chapters, the tokens are words, and the
        reader is never reading and paused at once. */
    predicate Valid()
      reads this
    {
      && Paginated(chapters, pagesPerChapter)
      && WellFormedTokens(words)
      && !(isReading && isPaused)
    }

    function Doc(): Document
      reads this
    {
      Document(novelText, fileName, chapters, pagesPerChapter, words, selectedProvider)
    }

    /** The position `saveProgress` records. */
    function Position(): Record
      reads this
    {
      Record(currentChapterIndex, currentPage, currentWordIndex)
    }

    function PlaybackNow(): Playback
      reads this
    {
      Playback(isReading, isPaused, currentAudio)
    }

    /** `pagesPerChapter[c]` exists and is not empty. */
    predicate HasPages(c: nat)
      reads this
    {
      c < |pagesPerChapter| && pagesPerChapter[c] != []
    }

    /**
     * The effect of `renderCurrentPage` at the current position, from
     * playback `pb0` and store `st0`: on a page that exists, active reading
     * is stopped and the progress saved; a missing page changes nothing.
     */
    predicate RenderedFrom(pb0: Playback, st0: Store)
      reads this
    {
      if HasPages(currentChapterIndex) then
        && PlaybackNow() == (if pb0.reading then Stopped else pb0)
        && store == Save(st0, fileName, Position())
      else
        PlaybackNow() == pb0 && store == st0
    }

    /** The state after the move `m` from position `pos0`, playback `pb0`
        and store `st0`. */
    predicate MovedFrom(m: Move, pos0: Record, pb0: Playback, st0: Store, threw: bool)
      reads this
    {
      match m
      case Throws => threw && Position() == pos0 && PlaybackNow() == pb0 && store == st0
      case Stay => !threw && Position() == pos0 && PlaybackNow() == pb0 && store == st0
      case MoveTo(c, p) =>
        !threw && Position() == Record(c, p, pos0.wordIndex) && RenderedFrom(pb0, st0)
    }

    /** The audio `readNextPhrase` leaves when it reads the phrase from
        cursor `c`: the new phrase's audio, or `a0` when no provider
        answers. */
    function PhraseAudio(c: nat, env: SpeechEnv, a0: Option<Audio>): Option<Audio>
      requires c < |words|
      reads this
    {
      match GenerateSpeech(env.isIOS, selectedProvider, env.kokoroUp, env.googleUp)
      case None => a0
      case Some(p) => Some(Audio(p, TextOf(words[c..PhraseEnd(words, c)]), false))
    }

    /**
     * The state after `readNextPhrase` from position `pos0`, playback `pb0`
     * and store `st0`: past the last token reading stops; a negative cursor
     * throws; otherwise the cursor moves past the next phrase and its audio
     * replaces the current one.
     */
    predicate ReadFrom(pos0: Record, pb0: Playback, st0: Store, env: SpeechEnv, threw: bool)
      reads this
    {
      if pos0.wordIndex >= |words| then
        !threw && Position() == pos0 && PlaybackNow() == Stopped && store == Save(st0, fileName, pos0)
      else if pos0.wordIndex < 0 then
        threw && Position() == pos0 && PlaybackNow() == pb0 && store == st0
      else
        && !threw
        && Position() == pos0.(wordIndex := PhraseEnd(words, pos0.wordIndex))
        && PlaybackNow() == pb0.(audio := PhraseAudio(pos0.wordIndex, env, pb0.audio))
        && store == st0
    }

    /**
     * The state after `checkAndTurnPage` and, if reading is still active,
     * `readNextPhrase`, from position `pos0`, playback `pb0` and store
     * `st0`. A page turn renders the new page, which stops reading.
     */
    predicate TurnThenReadFrom(pos0: Record, pb0: Playback, st0: Store, env: SpeechEnv, threw: bool)
      reads this
    {
      var m := TurnMove(pagesPerChapter, |chapters|, pos0.chapter, pos0.page, pos0.wordIndex);
      if m != Stay then MovedFrom(m, pos0, pb0, st0, threw)
      else if pb0.reading then ReadFrom(pos0, pb0, st0, env, threw)
      else !threw && Position() == pos0 && PlaybackNow() == pb0 && store == st0
    }

    /** A reader with nothing loaded and the stored progress `saved`. */
    constructor(saved: Store)
      ensures Valid()
      ensures Doc() == Document([], [], [], [], [], Google)
      ensures Position() == Record(0, 0, 0) && PlaybackNow() == Stopped && store == saved
    {
      novelText := [];
      fileName := [];
      chapters := [];
      pagesPerChapter := [];
      words := [];
      currentChapterIndex := 0;
      currentPage := 0;
      currentWordIndex := 0;
      isReading := false;
      isPaused := false;
      currentAudio := None;
      selectedProvider := Google;
      store := saved;
    }

    /** The voice selector: the provider of the chosen voice, Google when it
        names none. */
    method SelectProvider(p: Option<Provider>)
      modifies this
      requires Valid()
      ensures Valid()
      ensures selectedProvider == (if p.Some? then p.value else Google)
      ensures Doc() == old(Doc()).(provider := selectedProvider)
      ensures Position() == old(Position()) && PlaybackNow() == old(PlaybackNow()) && store == old(store)
    {
      selectedProvider := if p.Some? then p.value else Google;
    }

    /** `saveProgress`. */
    method SaveProgress()
      modifies this
      requires Valid()
      ensures Valid()
      ensures store == Save(old(store), fileName, Position())
      ensures Doc() == old(Doc()) && Position() == old(Position()) && PlaybackNow() == old(PlaybackNow())
    {
      store := Save(store, fileName, Position());
    }

    /** `stopReading`: the audio is dropped, both flags cleared, and the
        progress saved; the cursor stays where it is. */
    method StopReading()
      modifies this
      requires Valid()
      ensures Valid()
      ensures PlaybackNow() == Stopped
      ensures store == Save(old(store), fileName, Position())
      ensures Doc() == old(Doc()) && Position() == old(Position())
    {
      if currentAudio.Some? {
        currentAudio := None;
      }
      isReading := false;
      isPaused := false;
      SaveProgress();
    }

    /** `pauseReading`: the audio is paused but kept. */
    method PauseReading()
      modifies this
      requires Valid()
      ensures Valid()
      ensures PlaybackNow() == Playback(false, true, PauseAudio(old(currentAudio)))
      ensures Doc() == old(Doc()) && Position() == old(Position()) && store == old(store)
    {
      if currentAudio.Some? {
        currentAudio := Some(currentAudio.value.(paused := true));
      }
      isReading := false;
      isPaused := true;
    }

    /** `resumeReading`: the kept audio plays on. */
    method ResumeReading()
      modifies this
      requires Valid()
      ensures Valid()
      ensures PlaybackNow() == Playback(true, false, PlayAudio(old(currentAudio)))
      ensures Doc() == old(Doc()) && Position() == old(Position()) && store == old(store)
    {
      if currentAudio.Some? {
        currentAudio := Some(currentAudio.value.(paused := false));
      }
      isReading := true;
      isPaused := false;
    }

    /** `renderCurrentPage`, without its display work. */
    method RenderCurrentPage()
      modifies this
      requires Valid()
      ensures Valid()
      ensures RenderedFrom(old(PlaybackNow()), old(store))
      ensures Doc() == old(Doc()) && Position() == old(Position())
    {
      if currentChapterIndex >= |pagesPerChapter| || pagesPerChapter[currentChapterIndex] == [] {
        return;
      }
      if isReading {
        StopReading();
      }
      SaveProgress();
      SaveIdempotent(old(store), fileName, Position());
    }

    /** Sets the position and renders it: the common tail of every move. */
    method OpenPage(c: nat, p: nat)
      modifies this
      requires Valid()
      ensures Valid()
      ensures Position() == Record(c, p, old(currentWordIndex))
      ensures RenderedFrom(old(PlaybackNow()), old(store))
      ensures Doc() == old(Doc())
    {
      currentChapterIndex := c;
      currentPage := p;
      RenderCurrentPage();
    }

    /** `previousPage`. */
    method PreviousPage()
      modifies this
      requires Valid()
      ensures Valid()
      ensures MovedFrom(PreviousPageMove(old(currentChapterIndex), old(currentPage)),
                        old(Position()), old(PlaybackNow()), old(store), false)
      ensures Doc() == old(Doc())
    {
      if currentPage > 0 {
        OpenPage(currentChapterIndex, currentPage - 1);
      }
    }

    /** `nextChapter`. */
    method NextChapter()
      modifies this
      requires Valid()
      ensures Valid()
      ensures MovedFrom(NextChapterMove(|chapters|, old(currentChapterIndex)),
                        old(Position()), old(PlaybackNow()), old(store), false)
      ensures Doc() == old(Doc())
    {
      if currentChapterIndex < |chapters| - 1 {
        OpenPage(currentChapterIndex + 1, 0);
      }
    }

    /** `previousChapter`. */
    method PreviousChapter()
      modifies this
      requires Valid()
      ensures Valid()
      ensures MovedFrom(PreviousChapterMove(old(currentChapterIndex)),
                        old(Position()), old(PlaybackNow()), old(store), false)
      ensures Doc() == old(Doc())
    {
      if currentChapterIndex > 0 {
        OpenPage(currentChapterIndex - 1, 0);
      }
    }

    /** `goToChapter`, with the index the chapter selector passes. */
    method GoToChapter(target: int)
      modifies this
      requires Valid()
      ensures Valid()
      ensures MovedFrom(GoToChapterMove(|chapters|, target),
                        old(Position()), old(PlaybackNow()), old(store), false)
      ensures Doc() == old(Doc())
    {
      if 0 <= target < |chapters| {
        OpenPage(target, 0);
      }
    }

    /** `nextPage`: throws when the current chapter has no pages (a restored
        position beyond the chapters of the loaded text). */
    method NextPage() returns (threw: bool)
      modifies this
      requires Valid()
      ensures Valid()
      ensures MovedFrom(NextPageMove(pagesPerChapter, |chapters|, old(currentChapterIndex), old(currentPage)),
                        old(Position()), old(PlaybackNow()), old(store), threw)
      ensures Doc() == old(Doc())
    {
      threw := false;
      if currentChapterIndex >= |pagesPerChapter| {
        threw := true;
        return;
      }
      var pages := pagesPerChapter[currentChapterIndex];
      if currentPage < |pages| - 1 {
        OpenPage(currentChapterIndex, currentPage + 1);
      } else {
        if currentChapterIndex < |chapters| - 1 {
          NextChapter();
        }
      }
    }

    /** `getPageWordOffset(chapterIndex, pageIndex)`: the words of the
        earlier chapters and of the earlier pages of the chapter. */
    method GetPageWordOffset(chapterIndex: nat, pageIndex: nat) returns (count: nat)
      ensures count == PageWordOffset(chapters, pagesPerChapter, chapterIndex, pageIndex)
    {
      count := CountChapterWords(chapters, chapterIndex);
      if chapterIndex < |pagesPerChapter| {
        var pageWords := CountPageWords(pagesPerChapter[chapterIndex], pageIndex);
        count := count + pageWords;
      }
    }

    /** The first loop of `getPageWordOffset`: the words of `chs[i].text`
        for every `i < chapterIndex` that names a chapter with text. */
    static method CountChapterWords(chs: seq<Chapter>, chapterIndex: nat) returns (count: nat)
      ensures count == ChapterWordsBefore(chs, chapterIndex)
    {
      count := 0;
      var i := 0;
      while i < chapterIndex
        invariant i <= chapterIndex
        invariant count == ChapterWordsBefore(chs, i)
      {
        if i < |chs| && chs[i].text != [] {
          count := count + WordCount(chs[i].text);
        } else if i < |chs| {
          NoWordsInEmpty();
        }
        i := i + 1;
      }
    }

    /** The second loop of `getPageWordOffset`: the words of the pages
        before `pageIndex`. */
    static method CountPageWords(pages: seq<string>, pageIndex: nat) returns (count: nat)
      ensures count == PageWordsBefore(pages, pageIndex)
    {
      count := 0;
      var j := 0;
      while j < pageIndex && j < |pages|
        invariant j <= pageIndex && j <= |pages|
        invariant count == PageWordsBefore(pages, j)
      {
        var n := WordCount(pages[j]);
        assert PageWordsBefore(pages, j + 1) == PageWordsBefore(pages, j) + n;
        count := count + n;
        j := j + 1;
      }
      assert j == Min(pageIndex, |pages|);
      PageWordsBeforeClamped(pages, pageIndex);
    }

    /** `getPageWordCount(pageIndex)`: the pieces of pages `0..pageIndex`
        of the current chapter, without dropping empty ones. */
    method GetPageWordCount(pageIndex: nat) returns (count: nat)
      ensures count == TurnThreshold(pagesPerChapter, currentChapterIndex, pageIndex)
    {
      count := 0;
      if currentChapterIndex >= |pagesPerChapter| {
        return;
      }
      var pages := pagesPerChapter[currentChapterIndex];
      var i := 0;
      while i <= pageIndex && i < |pages|
        invariant i <= pageIndex + 1 && i <= |pages|
        invariant count == PiecesBefore(pages, i)
      {
        count := count + |Split(pages[i])|;
        i := i + 1;
      }
      PiecesBeforeClamped(pages, pageIndex + 1);
    }

    /** `checkAndTurnPage`: at most one `nextPage`, taken when the cursor is
        past the pieces of the pages up to the current one. */
    method CheckAndTurnPage() returns (threw: bool)
      modifies this
      requires Valid()
      ensures Valid()
      ensures MovedFrom(TurnMove(pagesPerChapter, |chapters|, old(currentChapterIndex), old(currentPage), old(currentWordIndex)),
                        old(Position()), old(PlaybackNow()), old(store), threw)
      ensures Doc() == old(Doc())
    {
      var pageWords := GetPageWordCount(currentPage);
      threw := false;
      if currentWordIndex > pageWords {
        threw := NextPage();
      }
    }

    /**
     * `getNextPhrase`: the tokens from the cursor up to and including the
     * first one that ends a sentence, concatenated and trimmed. The cursor
     * moves past them. A negative cursor throws (`words[-1].text`).
     */
    method GetNextPhrase() returns (phrase: string, threw: bool)
      modifies this
      requires Valid()
      ensures Valid()
      ensures old(currentWordIndex) >= |words| ==> !threw && phrase == [] && currentWordIndex == old(currentWordIndex)
      ensures old(currentWordIndex) < 0 ==> threw && currentWordIndex == old(currentWordIndex)
      ensures 0 <= old(currentWordIndex) < |words| ==>
                && !threw
                && currentWordIndex == PhraseEnd(words, old(currentWordIndex))
                && phrase == TextOf(words[old(currentWordIndex)..currentWordIndex])
                && phrase != []
      ensures Doc() == old(Doc()) && PlaybackNow() == old(PlaybackNow()) && store == old(store)
      ensures currentChapterIndex == old(currentChapterIndex) && currentPage == old(currentPage)
    {
      phrase := [];
      threw := false;
      if currentWordIndex < 0 {
        threw := true;
        return;
      }
      if currentWordIndex >= |words| {
        return;
      }
      var e;
      phrase, e := ScanPhrase(words, currentWordIndex);
      currentWordIndex := e;
    }

    /** The loop of `getNextPhrase` from token `startIndex`: it appends
        tokens until one ends a sentence or the phrase grows past 20
        space-separated pieces, and returns the trimmed phrase and the
        index after its last token. */
    static method ScanPhrase(ws: seq<Token>, startIndex: nat) returns (phrase: string, i: nat)
      requires WellFormedTokens(ws) && startIndex < |ws|
      ensures i == PhraseEnd(ws, startIndex)
      ensures phrase == TextOf(ws[startIndex..i]) && phrase != []
    {
      i := startIndex;
      phrase := [];
      while i < |ws|
        invariant startIndex <= i <= |ws|
        invariant phrase == TextOf(ws[startIndex..i])
        invariant forall k :: startIndex <= k < i ==> !EndsSentence(ws[k].text)
      {
        var word := ws[i];
        TextOfExtend(ws, startIndex, i);
        phrase := phrase + word.text;
        i := i + 1;
        if EndsSentence(word.text) || SpacePieces(phrase) > 20 {
          break;
        }
        assert !EndsSentence(ws[i - 1].text);
      }
      PhraseEndOfScan(ws, startIndex, i, phrase);
      phrase := Trim(phrase);
    }

    /** A scan that stopped after a sentence end or at the last token, and
        whose text is the concatenation of the tokens it passed, read a
        non-blank phrase that ends where `PhraseEnd` says. */
    static lemma PhraseEndOfScan(ws: seq<Token>, c: nat, i: nat, phrase: string)
      requires WellFormedTokens(ws)
      requires c < i <= |ws|
      requires phrase == TextOf(ws[c..i])
      requires forall k :: c <= k < i - 1 ==> !EndsSentence(ws[k].text)
      requires i == |ws| || EndsSentence(ws[i - 1].text) || SpacePieces(phrase) > 20
      ensures i == PhraseEnd(ws, c)
      ensures Trim(phrase) == phrase && phrase != []
    {
      var ts := ws[c..i];
      assert WellFormedTokens(ts);
      TextOfNoSpace(ts);
      assert ts[0].text != [];
      assert phrase == ts[0].text + TextOf(ts[1..]);
      assert phrase[0] == ts[0].text[0];
      assert !IsSpace(phrase[|phrase| - 1]);
      PhraseEndUnique(ws, c, i);
    }

    /**
     * `readNextPhrase` up to the point where the audio element is created:
     * at the end of the tokens reading stops; otherwise the next phrase is
     * taken and the provider that answers gives its audio.
     */
    method ReadNextPhrase(env: SpeechEnv) returns (threw: bool)
      modifies this
      requires Valid()
      ensures Valid()
      ensures ReadFrom(old(Position()), old(PlaybackNow()), old(store), env, threw)
      ensures Doc() == old(Doc())
    {
      threw := false;
      if currentWordIndex >= |words| {
        StopReading();
        return;
      }
      var phrase;
      phrase, threw := GetNextPhrase();
      if threw {
        return;
      }
      if phrase == [] {
        // Tokens are never empty, so a phrase never is.
        assert false;
      }
      var provider := GenerateSpeech(env.isIOS, selectedProvider, env.kokoroUp, env.googleUp);
      if provider.None? {
        return;
      }
      currentAudio := Some(Audio(provider.value, phrase, false));
    }

    /** `startReading`: nothing without tokens; otherwise reading starts and
        the first phrase is read. */
    method StartReading(env: SpeechEnv) returns (threw: bool)
      modifies this
      requires Valid()
      ensures Valid()
      ensures |words| == 0 ==>
                !threw && Position() == old(Position()) && PlaybackNow() == old(PlaybackNow()) && store == old(store)
      ensures |words| > 0 ==>
                ReadFrom(old(Position()), Playback(true, false, old(currentAudio)), old(store), env, threw)
      ensures Doc() == old(Doc())
    {
      threw := false;
      if |words| == 0 {
        return;
      }
      isReading := true;
      isPaused := false;
      threw := ReadNextPhrase(env);
    }

    /** `togglePlayPause`: pause while reading, resume while paused, start
        otherwise. */
    method TogglePlayPause(env: SpeechEnv) returns (threw: bool)
      modifies this
      requires Valid()
      ensures Valid()
      ensures old(isReading) ==>
                && !threw && PlaybackNow() == Playback(false, true, PauseAudio(old(currentAudio)))
                && Position() == old(Position()) && store == old(store)
      ensures !old(isReading) && old(isPaused) ==>
                && !threw && PlaybackNow() == Playback(true, false, PlayAudio(old(currentAudio)))
                && Position() == old(Position()) && store == old(store)
      ensures !old(isReading) && !old(isPaused) && |words| == 0 ==>
                !threw && Position() == old(Position()) && PlaybackNow() == old(PlaybackNow()) && store == old(store)
      ensures !old(isReading) && !old(isPaused) && |words| > 0 ==>
                ReadFrom(old(Position()), Playback(true, false, old(currentAudio)), old(store), env, threw)
      ensures Doc() == old(Doc())
    {
      threw := false;
      if isReading {
        PauseReading();
      } else if isPaused {
        ResumeReading();
      } else {
        threw := StartReading(env);
      }
    }

    /** The audio's `ended` handler: turn the page if the cursor left it,
        then read on if reading is still active. */
    method OnPhraseEnded(env: SpeechEnv) returns (threw: bool)
      modifies this
      requires Valid()
      ensures Valid()
      ensures TurnThenReadFrom(old(Position()), old(PlaybackNow()), old(store), env, threw)
      ensures Doc() == old(Doc())
    {
      MoveTargetsHavePages(chapters, pagesPerChapter, currentChapterIndex, currentPage, 0);
      threw := CheckAndTurnPage();
      if threw {
        return;
      }
      if isReading {
        threw := ReadNextPhrase(env);
      }
    }

    /**
     * `skipForward`: the cursor jumps 50 tokens, clamped to the last token
     * (to -1 when there is none), the audio is dropped, and the reader goes
     * on exactly as when a phrase ends.
     */
    method SkipForward(env: SpeechEnv) returns (threw: bool)
      modifies this
      requires Valid()
      ensures Valid()
      ensures TurnThenReadFrom(old(Position()).(wordIndex := Min(old(currentWordIndex) + 50, |words| - 1)),
                               old(PlaybackNow()).(audio := None), old(store), env, threw)
      ensures Doc() == old(Doc())
    {
      currentWordIndex := Min(currentWordIndex + 50, |words| - 1);
      if currentAudio.Some? {
        currentAudio := None;
      }
      threw := OnPhraseEnded(env);
    }

    /** The cursor search of `startReadingFromSentence`: the first token at
        which `target` non-whitespace tokens precede, or 0. */
    method ResolveSentenceClick(target: nat) returns (found: nat)
      requires Valid()
      ensures found == ClickCursor(|words|, target)
    {
      var wordCount := 0;
      found := 0;
      var i := 0;
      while i < |words|
        invariant i <= |words| && i <= target
        invariant wordCount == i && found == 0
      {
        if wordCount >= target {
          found := i;
          break;
        }
        if !words[i].isWhitespace {
          wordCount := wordCount + 1;
        }
        i := i + 1;
      }
    }

    /** The clicked sentence, on the page of position `pos`, may be any of
        the page's sentences or one past the last. */
    static predicate ClickInRange(ppc: seq<seq<string>>, pos: Record, sentenceIndex: nat)
    {
      pos.chapter < |ppc| && sentenceIndex <= |Sentences(PageText(ppc, pos.chapter, pos.page))|
    }

    /** The token a click on sentence `sentenceIndex` of the page of `pos`,
        rendered with word offset `wordOffset`, puts the cursor on, among
        `tokenCount` tokens. */
    static function ClickedToken(ppc: seq<seq<string>>, tokenCount: nat, pos: Record, sentenceIndex: nat, wordOffset: nat): nat
      requires ClickInRange(ppc, pos, sentenceIndex)
    {
      var sentences := Sentences(PageText(ppc, pos.chapter, pos.page));
      ClickCursor(tokenCount, wordOffset + WordsBeforeSentence(sentences, sentenceIndex))
    }

    /**
     * The state after a click on sentence `sentenceIndex`, once reading
     * has been stopped, from position `pos0`, playback `pb1` and store
     * `st1`: a click outside the page throws; otherwise the cursor moves
     * to the clicked token and reading starts there.
     */
    predicate ClickedFrom(sentenceIndex: nat, wordOffset: nat, pos0: Record, pb1: Playback, st1: Store,
                          env: SpeechEnv, threw: bool)
      reads this
    {
      if !ClickInRange(pagesPerChapter, pos0, sentenceIndex) then
        threw && Position() == pos0 && PlaybackNow() == pb1 && store == st1
      else
        var pos1 := pos0.(wordIndex := ClickedToken(pagesPerChapter, |words|, pos0, sentenceIndex, wordOffset));
        if |words| == 0 then
          !threw && Position() == pos1 && PlaybackNow() == pb1 && store == st1
        else
          ReadFrom(pos1, Playback(true, false, pb1.audio), st1, env, threw)
    }

    /**
     * The token count `startReadingFromSentence` looks for: the page's word
     * offset plus the words of the sentences before the clicked one. A
     * chapter without pages (`pages[...]`) or a sentence index past the
     * sentences (`sentences[i].split`) throws.
     */
    method SentenceClickTarget(sentenceIndex: nat, wordOffset: nat) returns (target: nat, threw: bool)
      ensures threw <==> !ClickInRange(pagesPerChapter, Position(), sentenceIndex)
      ensures !threw ==>
                target == wordOffset
                          + WordsBeforeSentence(Sentences(PageText(pagesPerChapter, currentChapterIndex, currentPage)),
                                                sentenceIndex)
    {
      target := 0;
      threw := false;
      if currentChapterIndex >= |pagesPerChapter| {
        threw := true;
        return;
      }
      var sentences := Sentences(PageText(pagesPerChapter, currentChapterIndex, currentPage));
      var wordsBeforeSentence;
      wordsBeforeSentence, threw := CountSentenceWords(sentences, sentenceIndex);
      target := wordOffset + wordsBeforeSentence;
    }

    /** The loop of `startReadingFromSentence` over the sentences before the
        clicked one; `sentences[i]` past the last sentence throws. */
    static method CountSentenceWords(sentences: seq<string>, sentenceIndex: nat) returns (count: nat, threw: bool)
      ensures threw <==> sentenceIndex > |sentences|
      ensures !threw ==> count == WordsBeforeSentence(sentences, sentenceIndex)
    {
      count := 0;
      threw := false;
      var i := 0;
      while i < sentenceIndex
        invariant i <= sentenceIndex && i <= |sentences|
        invariant count == WordsBeforeSentence(sentences, i)
      {
        if i == |sentences| {
          threw := true;
          return;
        }
        var n := WordCount(sentences[i]);
        assert WordsBeforeSentence(sentences, i + 1) == WordsBeforeSentence(sentences, i) + n;
        count := count + n;
        i := i + 1;
      }
    }

    /**
     * `startReadingFromSentence` for the sentence at `sentenceIndex` of a
     * page rendered with word offset `wordOffset`: active reading stops,
     * the cursor goes to the token the click resolves to, and reading
     * starts there.
     */
    method StartReadingFromSentence(sentenceIndex: nat, wordOffset: nat, env: SpeechEnv) returns (threw: bool)
      modifies this
      requires Valid()
      ensures Valid()
      ensures ClickedFrom(sentenceIndex, wordOffset, old(Position()),
                          if old(isReading) then Stopped else old(PlaybackNow()),
                          if old(isReading) then Save(old(store), fileName, old(Position())) else old(store),
                          env, threw)
      ensures Doc() == old(Doc())
    {
      if isReading {
        StopReading();
      }
      ghost var pos0, pb1, st1 := Position(), PlaybackNow(), store;
      var target;
      target, threw := SentenceClickTarget(sentenceIndex, wordOffset);
      if threw {
        return;
      }
      var foundOffset := ResolveSentenceClick(target);
      assert foundOffset == ClickedToken(pagesPerChapter, |words|, pos0, sentenceIndex, wordOffset);
      currentWordIndex := foundOffset;
      threw := StartReading(env);
    }

    /** The pattern loop of `detectChapters`: the matches of the first
        pattern that has any, or none. */
    static method FindHeadings(text: string) returns (chapterMatches: seq<Match>)
      ensures chapterMatches == HeadingMatches(text)
    {
      chapterMatches := [];
      var k := 0;
      while k < |Patterns|
        invariant k <= |Patterns|
        invariant forall j :: 0 <= j < k ==> !HasMatch(text, Patterns[j])
      {
        var matches := MatchAll(text, Patterns[k]);
        if |matches| > 0 {
          WinnerIsFirstMatching(text, k);
          chapterMatches := matches;
          return;
        }
        k := k + 1;
      }
    }

    /** The chapter loop of `detectChapters`: one chapter per heading,
        running to the next heading and trimmed, or the whole text. */
    static method ChaptersOf(text: string, chapterMatches: seq<Match>) returns (chs: seq<Chapter>)
      requires Placed(text, chapterMatches)
      ensures chs == SegmentOf(text, chapterMatches)
    {
      if |chapterMatches| == 0 {
        chs := [FullText(text)];
        return;
      }
      var ms := chapterMatches;
      chs := [];
      var i := 0;
      while i < |ms|
        invariant i <= |ms| && |chs| == i
        invariant forall j :: 0 <= j < i ==> chs[j] == ChapterAt(text, ms, j)
      {
        var startIndex := ms[i].index;
        var endIndex := if i < |ms| - 1 then ms[i + 1].index else |text|;
        assert i < |ms| - 1 ==> End(ms[i]) <= ms[i + 1].index;
        var chapterText := Trim(text[startIndex..endIndex]);
        var chapterTitle := ms[i].text;
        chs := chs + [Chapter(chapterTitle, chapterText, startIndex)];
        i := i + 1;
      }
      SegmentOfChapters(text, ms, chs);
    }

    /** The inner loop of `paginateChapters`: the chapter's pieces joined
        400 at a time. */
    static method PagesOfChapter(text: string) returns (pages: seq<string>)
      ensures pages == PagesOf(text)
    {
      var ws := Split(text);
      pages := [];
      var i := 0;
      while i < |ws|
        invariant i == |pages| * WordsPerPage
        invariant pages != [] ==> (|pages| - 1) * WordsPerPage < |ws|
        invariant forall k :: 0 <= k < |pages| ==> k * WordsPerPage < |ws| && pages[k] == Join(PageSlice(ws, k))
      {
        var pageWords := ws[i..Min(i + WordsPerPage, |ws|)];
        pages := pages + [Join(pageWords)];
        i := i + WordsPerPage;
      }
      PageCountUnique(|ws|, |pages|);
    }

    /** The outer loop of `paginateChapters`. */
    static method PaginateAll(chs: seq<Chapter>) returns (ppc: seq<seq<string>>)
      ensures Paginated(chs, ppc)
    {
      ppc := [];
      var c := 0;
      while c < |chs|
        invariant c <= |chs| && |ppc| == c
        invariant forall j :: 0 <= j < c ==> ppc[j] == PagesOf(chs[j].text)
      {
        var pages := PagesOfChapter(chs[c].text);
        ppc := ppc + [pages];
        c := c + 1;
      }
    }

    /** `paginateChapters`: the pages of every chapter, in order. */
    method PaginateChapters()
      modifies this
      ensures Paginated(chapters, pagesPerChapter)
      ensures Doc() == old(Doc()).(pages := pagesPerChapter)
      ensures Position() == old(Position()) && PlaybackNow() == old(PlaybackNow()) && store == old(store)
    {
      pagesPerChapter := PaginateAll(chapters);
    }

    /** `detectChapters(text)`: the chapters of `text` and their pages. */
    method DetectChapters(text: string)
      modifies this
      ensures chapters == Segment(text) && Paginated(chapters, pagesPerChapter)
      ensures Doc() == old(Doc()).(chapters := chapters, pages := pagesPerChapter)
      ensures Position() == old(Position()) && PlaybackNow() == old(PlaybackNow()) && store == old(store)
    {
      var chapterMatches := FindHeadings(text);
      HeadingsPlaced(text);
      chapters := ChaptersOf(text, chapterMatches);
      PaginateChapters();
    }

    /** Where `loadText` puts the reader in `filename`: the saved position,
        or the start. */
    static function StartPosition(st: Store, filename: string): Record
    {
      match Load(st, filename)
      case Some(r) => r
      case None => Record(0, 0, 0)
    }

    /** `splitIntoWords(text)` stored as the tokens, with the cursor put
        back on the first one. */
    method Tokenize(text: string)
      modifies this
      requires Valid()
      ensures Valid()
      ensures Doc() == old(Doc()).(words := SplitIntoWords(text))
      ensures Position() == old(Position()).(wordIndex := 0)
      ensures PlaybackNow() == old(PlaybackNow()) && store == old(store)
    {
      TokensWellFormed(text);
      words := SplitIntoWords(text);
      currentWordIndex := 0;
    }

    /** The end of `loadText`: the position saved for `filename`,
        or the start. */
    method RestorePosition(filename: string)
      modifies this
      requires Valid()
      ensures Valid()
      ensures Position() == StartPosition(store, filename)
      ensures Doc() == old(Doc()) && PlaybackNow() == old(PlaybackNow()) && store == old(store)
    {
      var saved := Load(store, filename);
      if saved.Some? {
        currentChapterIndex := saved.value.chapter;
        currentPage := saved.value.page;
        currentWordIndex := saved.value.wordIndex;
      } else {
        currentChapterIndex := 0;
        currentPage := 0;
        currentWordIndex := 0;
      }
    }

    /** The body of `loadText` once the text is known not to be blank:
        the text and file name are kept, the chapters detected and
        paginated, the text tokenized, the position saved for `filename`
        restored (or the start taken), and that page rendered. */
    method OpenText(text: string, filename: string)
      modifies this
      requires Valid()
      ensures Valid()
      ensures Doc() == Document(text, filename, Segment(text), pagesPerChapter, SplitIntoWords(text), old(selectedProvider))
      ensures Position() == StartPosition(old(store), filename)
      ensures RenderedFrom(old(PlaybackNow()), old(store))
    {
      novelText := text;
      fileName := filename;
      DetectChapters(text);
      Tokenize(text);
      RestorePosition(filename);
      RenderCurrentPage();
    }

    /** `loadText(text, filename)`: a blank text is refused and nothing
        changes; any other text is opened. */
    method LoadText(text: string, filename: string) returns (loaded: bool)
      modifies this
      requires Valid()
      ensures Valid()
      ensures loaded <==> Trim(text) != []
      ensures !loaded ==>
                Doc() == old(Doc()) && Position() == old(Position()) && PlaybackNow() == old(PlaybackNow()) && store == old(store)
      ensures loaded ==>
                && Doc() == Document(text, filename, Segment(text), pagesPerChapter, SplitIntoWords(text), old(selectedProvider))
                && Position() == StartPosition(old(store), filename)
                && RenderedFrom(old(PlaybackNow()), old(store))
    {
      if text == [] || Trim(text) == [] {
        loaded := false;
        return;
      }
      loaded := true;
      OpenText(text, filename);
    }
  }
}
