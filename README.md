# Novel reader: reading engine model

A Dafny model of the reading engine of the browser novel reader in
`app.js`, the `NovelReader` class. It covers:

- **Segmentation.** `detectChapters` tries four heading patterns in order
  and lets the first one with a match cut the text into chapters.
- **Pagination.** `paginateChapters` splits each chapter on whitespace runs
  and joins 400 pieces at a time into a page.
- **Word offsets.** `getPageWordOffset` and `getPageWordCount` turn a
  chapter and page into a word count.
- **The token list.** `splitIntoWords` produces the tokens the reading
  cursor walks.
- **Phrases.** `getNextPhrase` builds the next phrase from the cursor.
- **Playback.** The life cycle covers `startReading`, `pauseReading`,
  `resumeReading`, `stopReading`, `togglePlayPause`, `skipForward`,
  `readNextPhrase` and the audio's `ended` handler.
- **Speech provider choice.** `generateSpeech` tries the preferred provider,
  then the other one.
- **Navigation.** Previous/next page and chapter, the chapter selector, and
  the automatic page turn `checkAndTurnPage`.
- **Sentence click.** `startReadingFromSentence` maps a clicked sentence to
  a cursor position.
- **Saved progress.** Reading progress is stored per file name.

Modules, in dependency order:

- `Wrappers`: `Option` and `Min`.
- `GlobalScan` (scan.dfy): how a global regular expression walks a string.
  Each match is the leftmost one from where the previous match ended.
- `JsText`: JavaScript's `\s` set, `trim`, `split(/\s+/)`, `split(/(\s+)/)`,
  `join(' ')` and the `split/filter` word count.
- `Headings`: the four heading patterns and `matchAll` over them.
- `Chapters`: the chapter list `Segment(text)`.
- `Pagination`: pages, and the page and chapter word counts.
- `Phrases`: tokens, phrase ends, page sentences and the click cursor.
- `Speech`: the provider choice.
- `Progress`: the progress store, a map keyed by file name.
- `Navigation`: where each navigation command moves.
- `Reader`: the class `NovelReader`, whose methods update its fields in
  place.

How the model stands in for the browser:

- **Exceptions.** A JavaScript `TypeError` is a `threw` result. The fields
  then keep the values they had when the exception was raised. This happens
  in four places:
  - `nextPage` on a chapter without pages.
  - Reading a phrase at cursor -1.
  - A click on a chapter without pages.
  - A click whose sentence index is past the page's sentences, where
    `sentences[i].split` reads a missing sentence.
- **Asynchronous continuations.** The audio's `ended` handler is a method
  the environment calls (`OnPhraseEnded`). The continuation after
  `await this.generateSpeech(...)` is not separate: `ReadNextPhrase` runs
  it at once, as if the speech arrived before anything else happened.
- **The speech services.** What they answer is an input (`SpeechEnv`).

Behaviour of the code worth knowing (the model follows the code in each):

- **An automatic page turn stops reading.** `checkAndTurnPage` calls
  `nextPage`, `nextPage` calls `renderCurrentPage`, and `renderCurrentPage`
  calls `stopReading` while reading is active. `TurnThenReadFrom` states
  the resulting state.
- **There are no whitespace tokens.** `splitIntoWords` drops whitespace
  runs, so no token is whitespace. A phrase is therefore its words glued
  together without spaces, and the 20-piece bound of `getNextPhrase` never
  stops a phrase (`LengthBoundNeverFires`).
- **`nextPage` can throw.** It throws when the restored chapter index has
  no pages. This happens after loading a text whose saved progress names a
  chapter the text does not have.
- **The page-turn threshold counts pieces.** `getPageWordCount` counts
  `split(/\s+/)` pieces without dropping empty ones. `checkAndTurnPage`
  compares the token cursor with that count. Within a chapter the count is
  `min(400 (page + 1), pieces)` (`TurnThresholdClosed`).
- **A sentence click can land past the clicked sentence.** Sentences are
  cut at `.`, `!` and `?`, and words at whitespace, so a sentence can start
  inside a word. On the page "Mr.Smith went." the second sentence is
  "Smith went.", but the first sentence counts one word, so the click puts
  the cursor on "went.", after "Smith" (`ClickLandsPastSentence`).
- **Headings have no word boundary.** "chapter 3" inside "subchapter 3" is
  a heading (`HeadingInsideWord`). The chapter cut then splits the word
  "subchapter", which adds a word to the chapter texts and the pages, so
  later click targets count one word too many.
- **Resuming without audio does not restart the phrase loop.**
  `pauseReading` keeps the audio, but `skipForward` while paused drops it.
  `resumeReading` then sets `isReading` and plays nothing, and no phrase
  is read until the next skip or click (`ResumeReading`).

## Model

| member | source | states |
|---|---|---|
| GlobalScan.ScanSound | app.js:371 | every result of a global scan is a match of the pattern at its index, at or after where the scan began, the results come in order without overlapping, and no match is skipped: every position where a match starts lies inside a result |
| GlobalScan.ScanEmpty | app.js:371 | a global scan finds nothing exactly when no position from the start on begins a match |
| GlobalScan.ScanPlaced | app.js:371 | the results of `matchAll` are non-empty slices of the text at their index, in order, without overlapping |
| JsText.TrimShape | app.js:387 | `trim()` cuts a whitespace prefix and a whitespace suffix off the string; the result is empty exactly for an all-whitespace string, otherwise starts and ends with non-whitespace, and such a string is left unchanged |
| JsText.TrimKeepsPrefix | app.js:387 | trimming keeps every prefix that starts and ends with a non-whitespace character |
| JsText.SplitShape | app.js:412 | no piece of `split(/\s+/)` contains whitespace, only the first and last can be empty, and the first is empty exactly when the text is empty or starts with whitespace |
| JsText.SplitJoin | app.js:412-416 | splitting a `join(' ')` of split pieces gives the same pieces back |
| JsText.KeptAppend | app.js:490 | the filter `w.trim().length > 0` distributes over concatenation |
| JsText.KeptShape | app.js:490 | every word kept by the filter is non-empty and free of whitespace |
| JsText.NoWordsInEmpty | app.js:489-491 | the empty text has no words, so skipping a chapter with empty text changes no count |
| JsText.NonBlankHasWord | app.js:332 | a text that is not blank after trimming has at least one word |
| JsText.SplitKeepingRunsConcat | app.js:625-626 | the capturing split `split(/(\s+)/)` is lossless: its pieces concatenate back to the text |
| JsText.SplitKeepingRunsWords | app.js:625-627 | dropping blank pieces of the capturing split leaves exactly the words of `split(/\s+/)` |
| Headings.MatchEndShape | app.js:362-365 | a heading match starts at a position exactly when the keyword (ASCII case-insensitive) is there, followed by a non-empty whitespace run and a digit or Roman-numeral letter; the match is the keyword, that run and the maximal run of class characters after it |
| Headings.MatchAllPlaced | app.js:371 | the heading matches are non-empty slices of the text, in order, without overlapping |
| Headings.MatchAllAt | app.js:371 | each result of `matchAll` is a match of the pattern that starts at its index and ends where the result ends |
| Headings.MatchAllComplete | app.js:371 | `matchAll` skips no match: every position where a match starts lies inside one of the results |
| Headings.HeadingInsideWord | app.js:362-365 | the patterns have no word boundary: "subchapter 3" holds a match of `/Chapter\s+\d+/gi` |
| Headings.MatchAllUnpadded | app.js:371 | a heading starts with a keyword letter and ends with a class character, so neither end is whitespace |
| Headings.HasMatchIff | app.js:371-372 | a pattern has a match exactly when some position of the text starts one |
| Chapters.WinnerFrom | app.js:370-376 | the chosen pattern is the first from `k` on with a match, and every pattern before it has none |
| Chapters.WinnerIsFirstMatching | app.js:370-376 | if pattern `k` matches and no earlier one does, `k` decides and the headings are its matches |
| Chapters.HeadingsOfWinner | app.js:370-376 | when there are headings they are exactly the matches of the winning pattern |
| Chapters.HeadingsPlaced | app.js:370-376 | the headings are non-empty slices of the text, in order, without overlapping |
| Chapters.NoHeadingsIff | app.js:368-376 | there are no headings exactly when none of the four patterns matches |
| Chapters.Segment | app.js:360-401 | `detectChapters` never yields an empty chapter list |
| Chapters.SegmentShape | app.js:378-401 | without headings the whole text is one chapter "Full Text"; otherwise there is one chapter per heading, titled by it and starting at its index, with strictly increasing start indices |
| Chapters.SegmentAt | app.js:380-393 | chapter `i` runs from heading `i` to the next heading or the end of the text, trimmed |
| Chapters.SegmentOfChapters | app.js:378-395 | a list holding chapter `j` at every index `j` of the headings is the chapter list |
| Chapters.ChapterTitleIsHeading | app.js:384-392 | every title is the text found at the chapter's start, and it is a full match of the winning pattern there |
| Chapters.ChapterBeginsWithTitle | app.js:385-392 | every chapter's text begins with its title: trimming only removes whitespace at the end |
| Pagination.PageSlice | app.js:414-415 | a page holds between 1 and 400 pieces |
| Pagination.PageCount | app.js:414 | the page loop runs exactly as often as needed to hold all pieces 400 at a time |
| Pagination.PageCountUnique | app.js:414 | that count is the only one whose pages hold all pieces with a non-empty last page |
| Pagination.PagesOf | app.js:411-418 | every chapter has at least one page, and just enough pages for its pieces |
| Pagination.PageRoundTrip | app.js:412-416 | re-splitting page `i` gives back exactly the pieces it was joined from |
| Pagination.FullPages | app.js:414-416 | every page but the last holds exactly 400 pieces |
| Pagination.PiecesBeforeClamped | app.js:1094 | the piece sum of `getPageWordCount` stops at the last page: larger indices add nothing |
| Pagination.PageWordsBeforeClamped | app.js:497 | the page word sum of `getPageWordOffset` stops at the last page |
| Pagination.PiecesBeforeClosed | app.js:1093-1096 | the pieces of pages `0..q` are the first `min(400 q, n)` pieces of the chapter |
| Pagination.PiecesThroughPage | app.js:1089-1097 | `getPageWordCount(p)` on page `p` of a chapter is `min(400 (p + 1), n)` |
| Pagination.PageWordsOfSlices | app.js:496-500 | pages that re-split into consecutive 400-piece slices hold, on pages `0..q`, the words of the first `min(400 q, n)` pieces |
| Pagination.PageWordsBeforeClosed | app.js:496-500 | the words on the pages before page `q` are the words among the first `min(400 q, n)` pieces of the chapter |
| Pagination.PageWordsTotal | app.js:486-500 | the pages of a chapter hold exactly the words of its text |
| Pagination.OffsetMonotone | app.js:483-503 | the word offset never decreases as the page index grows |
| Pagination.OffsetBeyondPages | app.js:497 | page indices past the last page give the same offset as the page count |
| Pagination.OffsetStartsAtZero | app.js:483-503 | the first page of the first chapter starts at word 0 |
| Pagination.OffsetContinuous | app.js:483-503 | the offset past the last page of a chapter equals the offset of the next chapter's first page |
| Pagination.OffsetOrdered | app.js:483-503 | in a paginated document any page of a later chapter starts no earlier than any page of an earlier one |
| Phrases.SplitIntoWordsShape | app.js:623-634 | the tokens are the words of the text, one for one and in order, each a non-empty run of non-whitespace, none flagged as whitespace |
| Phrases.TokensWellFormed | app.js:623-634 | every token is a non-empty run of non-whitespace characters |
| Phrases.PhraseEnd | app.js:836-845 | a phrase takes at least one token, no token before its last ends a sentence, and it stops early only after a sentence end |
| Phrases.PhraseEndUnique | app.js:836-845 | the stopping point is the first sentence end from the cursor on, or the end of the tokens, and nothing else |
| Phrases.TextOfExtend | app.js:838 | appending the next token extends the phrase by exactly that token's text |
| Phrases.TextOfNoSpace | app.js:838 | a phrase built from tokens has no whitespace in it |
| Phrases.LengthBoundNeverFires | app.js:842 | every phrase has one space-separated piece, so the 20-piece bound never stops one |
| Phrases.SpacePieces | app.js:842 | `split(' ').length` is at least 1, and exactly 1 for a string without whitespace |
| Phrases.SentenceEndShape | app.js:454 | a sentence match starts at a position exactly when a non-empty run of non-terminators there is followed by a terminator; the match is that run and the maximal run of terminators after it |
| Phrases.Sentences | app.js:454 | a page always shows at least one sentence |
| Phrases.SentenceMatchesShape | app.js:454 | every matched sentence is a slice of the page at its index, made of non-terminators and then the whole run of terminators after them; matches are ordered, do not overlap, and none is skipped |
| Phrases.SentenceMatchesIff | app.js:454 | a page has a sentence match exactly when some terminator follows some other character |
| Phrases.NoTerminatorOneSentence | app.js:454 | a page without `.`, `!`, `?` is shown as the single sentence of its whole text |
| Phrases.ClickCursor | app.js:530-541 | with any tokens at all, a click always lands on an existing token |
| Phrases.TwoWordTokens | app.js:623-634 | two words separated by a space give exactly those two tokens |
| Phrases.ClickLandsPastSentence | app.js:514-541 | on the page "Mr.Smith went." the sentences are "Mr." and "Smith went.", the tokens "Mr.Smith" and "went.", and a click on the second sentence lands on "went." |
| Speech.GenerateSpeech | app.js:1001-1025 | the provider returned is one that answers; there is no audio exactly when both fail; the first choice is used whenever it answers |
| Speech.IOSIgnoresSelection | app.js:1003-1006 | on iOS the selected provider makes no difference, and Google is used only when Kokoro fails |
| Speech.FallbackOnlyOnFailure | app.js:1011-1023 | the other provider is used only when the first choice fails |
| Progress.Load | app.js:614-617 | a record is found exactly for a file that has one saved |
| Progress.Save | app.js:601-612 | after saving, loading the file gives the saved record, every other file is unaffected, and the file is the last one saved |
| Progress.SaveIdempotent | app.js:601-612 | saving the same record twice is the same as saving it once |
| Progress.SaveOverwrites | app.js:601-612 | a later save for the same file replaces an earlier one |
| Progress.SavesCommute | app.js:601-612 | saves for different files do not affect each other's records |
| Navigation.MovesStayInRange | app.js:556-599 | from an existing page every navigation command stays on an existing page, and `nextPage` does not throw |
| Navigation.MoveTargetsHavePages | app.js:563-599 | every forward move and chapter jump of a paginated document lands on an existing page, even from a page that does not exist |
| Navigation.ChapterChangeResetsPage | app.js:556-599 | a move to another chapter opens its first page, and `previousPage` never changes chapter |
| Navigation.EndsAreNoOps | app.js:563-573 | `nextPage` on the last page of the last chapter, and `goToChapter` with an index out of range, do nothing |
| Navigation.NextPageAdvances | app.js:563-573 | `nextPage` never moves the reading position back in the document |
| Navigation.NextChapterAdvances | app.js:584-591 | `nextChapter` opens a page that starts no earlier than the current one |
| Navigation.PreviousPageRetreats | app.js:556-561 | `previousPage` opens a page that starts no later than the current one |
| Navigation.PreviousChapterRetreats | app.js:575-582 | `previousChapter` opens a page that starts no later than the current one |
| Navigation.TurnThresholdClosed | app.js:1079-1097 | the automatic page turn fires exactly when the cursor is past the first `min(400 (page + 1), n)` pieces of the chapter |
| Reader.NovelReader.constructor | app.js:4-35 | a new reader has no document, the start position, no playback, Google as provider and the given stored progress |
| Reader.NovelReader.SelectProvider | app.js:160-164 | choosing a voice sets the provider to the voice's one, Google when it names none, and changes nothing else |
| Reader.NovelReader.SaveProgress | app.js:601-612 | the current position is stored for the current file; nothing else changes |
| Reader.NovelReader.StopReading | app.js:799-813 | reading stops, the audio is dropped, the position is saved and stays where it is |
| Reader.NovelReader.PauseReading | app.js:779-787 | the reader becomes paused and keeps its audio, paused |
| Reader.NovelReader.ResumeReading | app.js:789-797 | the reader reads again and its kept audio plays on |
| Reader.NovelReader.RenderCurrentPage | app.js:438-481 | on an existing page active reading stops and the position is saved; with no pages nothing changes |
| Reader.NovelReader.OpenPage | app.js:556-599 | every navigation command ends by setting chapter and page and rendering them, with the cursor untouched |
| Reader.NovelReader.PreviousPage | app.js:556-561 | the reader moves as `PreviousPageMove` says and renders the new page |
| Reader.NovelReader.NextPage | app.js:563-573 | the reader moves as `NextPageMove` says: on to the next page, the next chapter, nowhere, or it throws on a chapter without pages |
| Reader.NovelReader.PreviousChapter | app.js:575-582 | the reader moves to the first page of the previous chapter if there is one |
| Reader.NovelReader.NextChapter | app.js:584-591 | the reader moves to the first page of the next chapter if there is one |
| Reader.NovelReader.GoToChapter | app.js:593-599 | the reader moves to the first page of the chosen chapter when the index is in range |
| Reader.NovelReader.GetPageWordOffset | app.js:483-503 | the result is the word count of all earlier chapters plus that of the earlier pages of the chapter |
| Reader.NovelReader.CountChapterWords | app.js:487-492 | the first loop adds up the words of the earlier chapters that exist |
| Reader.NovelReader.CountPageWords | app.js:495-500 | the second loop adds up the words of the pages before the page, stopping at the last page |
| Reader.NovelReader.GetPageWordCount | app.js:1089-1098 | the result is the unfiltered piece count of pages `0..pageIndex` of the current chapter, 0 without pages |
| Reader.NovelReader.CheckAndTurnPage | app.js:1079-1087 | exactly one `nextPage` happens when the cursor is past the threshold, otherwise nothing |
| Reader.NovelReader.GetNextPhrase | app.js:831-848 | the cursor moves to the phrase end and the phrase is the text of the tokens passed; at the end of the tokens nothing changes; a negative cursor throws |
| Reader.NovelReader.ScanPhrase | app.js:836-847 | the phrase loop stops where `PhraseEnd` says and returns the passed tokens' text, which is never empty |
| Reader.NovelReader.PhraseEndOfScan | app.js:836-847 | a scan that stopped after a sentence end, the last token or the length bound stopped at `PhraseEnd`, and its phrase needs no trimming |
| Reader.NovelReader.ReadNextPhrase | app.js:850-876 | past the last token reading stops and is saved; otherwise the cursor passes the next phrase and the answering provider's audio of it replaces the current audio |
| Reader.NovelReader.StartReading | app.js:753-777 | without tokens nothing happens; otherwise reading starts and the first phrase is read |
| Reader.NovelReader.TogglePlayPause | app.js:743-751 | pauses while reading, resumes while paused, and starts reading otherwise |
| Reader.NovelReader.OnPhraseEnded | app.js:938-953 | after a phrase the page turns if the cursor left it (which stops reading); otherwise, if still reading, the next phrase is read |
| Reader.NovelReader.SkipForward | app.js:815-828 | the cursor moves 50 tokens on, clamped to the last token, the audio is dropped, and the reader goes on as after a phrase |
| Reader.NovelReader.ResolveSentenceClick | app.js:530-541 | the token scan finds the token with `target` words before it, or the first token when there is none |
| Reader.NovelReader.SentenceClickTarget | app.js:511-527 | the click throws exactly when the chapter has no pages or the sentence index is past the page's sentences; otherwise the target is the page offset plus the words of the earlier sentences |
| Reader.NovelReader.CountSentenceWords | app.js:520-524 | the sentence loop adds up the words of the earlier sentences and throws past the last one |
| Reader.NovelReader.StartReadingFromSentence | app.js:505-556 | reading stops if active, the cursor goes to the clicked token, and reading starts there |
| Reader.NovelReader.FindHeadings | app.js:368-376 | the pattern loop yields the matches of the first pattern that has any, or none |
| Reader.NovelReader.ChaptersOf | app.js:378-401 | the chapter loop builds exactly the chapter list of the headings |
| Reader.NovelReader.PagesOfChapter | app.js:411-418 | the page loop builds exactly the pages of the chapter |
| Reader.NovelReader.PaginateAll | app.js:408-421 | every chapter gets its pages, in order |
| Reader.NovelReader.PaginateChapters | app.js:408-422 | the pages are rebuilt from the chapters and nothing else changes |
| Reader.NovelReader.DetectChapters | app.js:360-406 | the chapters become the segmentation of the text, with their pages |
| Reader.NovelReader.Tokenize | app.js:341-342 | the tokens become those of the text and the cursor goes to 0 |
| Reader.NovelReader.RestorePosition | app.js:344-353 | the position becomes the one saved for the file, or the start |
| Reader.NovelReader.OpenText | app.js:337-357 | the document becomes the text's chapters, pages and tokens, the position is restored, and that page is rendered |
| Reader.NovelReader.LoadText | app.js:331-358 | a blank text is refused and changes nothing; any other text is loaded |

## Left out

- Display work is not modelled. This covers `showTextDisplay`,
  `populateChapterSelect`, `updateProgress`, `updateProgressText`,
  `highlightCurrentPhraseInPage` and `clearHighlights`, plus button states,
  page labels and sentence spans. None of it changes the model's state.
- File import is not modelled (`handleFileSelect`, the `extractTextFrom*`
  functions, `stripHTML`, the paste modal, `loadSample`, `clearText`,
  `showImportSection`). The model starts from the text handed to
  `loadText`.
- `splitIntoSentences` is never called. `loadSavedProgress` is empty.
  `audioQueue` and `audioContext` are never used.
- iOS detection is an input (`SpeechEnv.isIOS`). The iOS audio unlock
  (`unlockAudioForIOS`, `audioUnlocked`, the 100 ms wait) has no effect on
  the state modelled.
- The speech services are inputs: whether each provider answers
  (`kokoroUp`, `googleUp`). The network calls, URLs, blobs and their
  revocation are not modelled. Voice, speed and pitch (floating point) are
  not modelled.
- Reader.NovelReader.ReadNextPhrase models the function up to creating the
  audio element. The asynchronous `loadeddata`, `play` failure and `error`
  handlers and their timed retries are not modelled. Each retry is one more
  call of `ReadNextPhrase` that the environment may make.
- Reader.NovelReader.ReadNextPhrase does not model a `stopReading` or a
  skip while the speech is being generated. The code still installs and
  plays the audio that arrives after such a stop; the model runs the
  `await` continuation at once, so this race cannot happen in it.
- Timers are not modelled. The 100 ms pause between phrases is collapsed
  into `OnPhraseEnded`; the 500 ms and 1000 ms retry delays are not
  modelled.
- Reader.NovelReader.StartReading does not model the iOS unlock or its
  100 ms wait before reading.
- `Date.now()` and JSON are not modelled: the saved record has no
  timestamp, and the `localStorage` keys are entries of a map.
- The model reads `saved.wordIndex || 0` as `saved.wordIndex`, because
  `saveProgress` always writes a number there.
- Strings are sequences of characters, not UTF-16 code units. Chapter start
  indices differ from JavaScript's for characters outside the Basic
  Multilingual Plane.
- The heading and sentence regular expressions are hand-written matchers
  for these five patterns. A general regular expression engine is not
  modelled.
- `parseInt` of the sentence index attribute is a natural number. The
  attribute always holds the index of a rendered sentence.
