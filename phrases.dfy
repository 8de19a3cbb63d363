/**
 * The token list the cursor walks (`splitIntoWords`), the phrase a cursor
 * position starts (`getNextPhrase`), and the sentences a page is shown as
 * (`pageText.match(/[^.!?]+[.!?]+/g) || [pageText]`).
 */
module Phrases {
  import opened Wrappers
  import opened JsText
  import opened GlobalScan

  /** An entry of `words`. */
  datatype Token = Token(text: string, isWhitespace: bool)

  /** `/^\s+$/.test(w)`. */
  predicate IsBlankRun(w: string)
  {
    w != [] && AllSpace(w)
  }

  /** `splitIntoWords(text)`: the non-blank pieces of the capturing split,
      each tagged with whether it is a whitespace run. */
  function SplitIntoWords(text: string): seq<Token>
  {
    var ps := Kept(SplitKeepingRuns(text));
    seq(|ps|, i requires 0 <= i < |ps| => Token(ps[i], IsBlankRun(ps[i])))
  }

  /** Every token is a non-empty run of non-whitespace characters. */
  predicate WellFormedTokens(ws: seq<Token>)
  {
    forall k :: 0 <= k < |ws| ==> ws[k].text != [] && NoSpace(ws[k].text) && !ws[k].isWhitespace
  }

  /** The tokens are the words of the text, one for one, and none of them is
      flagged as whitespace. */
  lemma SplitIntoWordsShape(text: string)
    ensures WellFormedTokens(SplitIntoWords(text))
    ensures |SplitIntoWords(text)| == WordCount(text)
    ensures forall k :: 0 <= k < WordCount(text) ==> SplitIntoWords(text)[k].text == Words(text)[k]
  {
    SplitKeepingRunsWords(text);
    SplitShape(text);
    KeptShape(Split(text));
    var ws := Words(text);
    forall k | 0 <= k < |ws|
      ensures !IsBlankRun(ws[k])
    {
      assert !IsSpace(ws[k][0]);
    }
  }

  /** Every token of a text is a non-empty run of non-whitespace. */
  lemma TokensWellFormed(text: string)
    ensures WellFormedTokens(SplitIntoWords(text))
  {
    SplitIntoWordsShape(text);
  }

  /** `/[.!?]$/.test(w)`. */
  predicate EndsSentence(w: string)
  {
    w != [] && w[|w| - 1] in ".!?"
  }

  /**
   * Where `getNextPhrase` stops when it starts at `c`: right after the first
   * token from `c` on that ends a sentence, or at the end of the tokens.
   */
  function PhraseEnd(ws: seq<Token>, c: nat): (e: nat)
    requires c < |ws|
    ensures c < e <= |ws|
    ensures forall k :: c <= k < e - 1 ==> !EndsSentence(ws[k].text)
    ensures e < |ws| ==> EndsSentence(ws[e - 1].text)
    decreases |ws| - c
  {
    if EndsSentence(ws[c].text) || c + 1 == |ws| then c + 1 else PhraseEnd(ws, c + 1)
  }

  /** The stopping point is the only one that fits its description: the
      first sentence end from `c` on, or the end of the tokens. */
  lemma {:induction false} PhraseEndUnique(ws: seq<Token>, c: nat, e: nat)
    requires c < e <= |ws|
    requires forall k :: c <= k < e - 1 ==> !EndsSentence(ws[k].text)
    requires e == |ws| || EndsSentence(ws[e - 1].text)
    ensures PhraseEnd(ws, c) == e
    decreases e - c
  {
    if c + 1 < e {
      PhraseEndUnique(ws, c + 1, e);
    }
  }

  /** The texts of `ws` concatenated with no separator. */
  function TextOf(ws: seq<Token>): string
  {
    if ws == [] then [] else ws[0].text + TextOf(ws[1..])
  }

  lemma {:induction false} TextOfSnoc(ws: seq<Token>, w: Token)
    ensures TextOf(ws + [w]) == TextOf(ws) + w.text
  {
    if ws == [] {
      assert [w][1..] == [];
    } else {
      assert (ws + [w])[1..] == ws[1..] + [w];
      TextOfSnoc(ws[1..], w);
    }
  }

  /** Extending a slice by one token appends that token's text. */
  lemma TextOfExtend(ws: seq<Token>, c: nat, i: nat)
    requires c <= i < |ws|
    ensures TextOf(ws[c..i + 1]) == TextOf(ws[c..i]) + ws[i].text
  {
    assert ws[c..i + 1] == ws[c..i] + [ws[i]];
    TextOfSnoc(ws[c..i], ws[i]);
  }

  /** A phrase built from well-formed tokens has no whitespace in it. */
  lemma {:induction false} TextOfNoSpace(ws: seq<Token>)
    requires WellFormedTokens(ws)
    ensures NoSpace(TextOf(ws))
  {
    if ws != [] {
      TextOfNoSpace(ws[1..]);
      var a := ws[0].text;
      var b := TextOf(ws[1..]);
      assert forall k :: |a| <= k < |a| + |b| ==> (a + b)[k] == b[k - |a|];
    }
  }

  /** `s.split(' ').length`: one more than the number of space characters. */
  function SpacePieces(s: string): (n: nat)
    ensures n >= 1
    ensures NoSpace(s) ==> n == 1
  {
    if s == [] then 1
    else (if s[0] == ' ' then 1 else 0) + SpacePieces(s[1..])
  }

  /** Tokens are glued together without separators, so a phrase never
      contains a space and the 20-piece length bound of `getNextPhrase`
      never stops it. */
  lemma LengthBoundNeverFires(ws: seq<Token>, c: nat, e: nat)
    requires WellFormedTokens(ws) && c <= e <= |ws|
    ensures SpacePieces(TextOf(ws[c..e])) == 1
  {
    assert WellFormedTokens(ws[c..e]);
    TextOfNoSpace(ws[c..e]);
  }

  /** `/[.!?]/`: a character that ends a sentence. */
  predicate IsTerminator(c: char)
  {
    c == '.' || c == '!' || c == '?'
  }

  /** The end of the run of characters that are not terminators from `i`. */
  function ProseRunEnd(s: string, i: nat): (j: nat)
    requires i <= |s|
    ensures i <= j <= |s|
    ensures j < |s| ==> IsTerminator(s[j])
    ensures forall k {:trigger IsTerminator(s[k])} :: i <= k < j ==> !IsTerminator(s[k])
    decreases |s| - i
  {
    if i == |s| || IsTerminator(s[i]) then i else ProseRunEnd(s, i + 1)
  }

  /** The end of the run of terminators from `i`. */
  function TerminatorRunEnd(s: string, i: nat): (j: nat)
    requires i <= |s|
    ensures i <= j <= |s|
    ensures j < |s| ==> !IsTerminator(s[j])
    ensures forall k {:trigger IsTerminator(s[k])} :: i <= k < j ==> IsTerminator(s[k])
    decreases |s| - i
  {
    if i == |s| || !IsTerminator(s[i]) then i else TerminatorRunEnd(s, i + 1)
  }

  /**
   * Where a match of `/[^.!?]+[.!?]+/` that starts at `i` ends, if there is
   * one: a maximal run of other characters (at least one) and then a
   * maximal run of terminators (at least one). Giving back characters of the
   * first run cannot help, since they are not terminators.
   */
  function SentenceEnd(s: string, i: nat): (r: Option<nat>)
    requires i <= |s|
    ensures r.Some? ==> i < r.value <= |s|
  {
    if i == |s| || IsTerminator(s[i]) then None
    else
      var q := ProseRunEnd(s, i);
      if q == |s| then None else Some(TerminatorRunEnd(s, q))
  }

  /** No character of `t` ends a sentence. */
  predicate NoTerminator(t: string)
  {
    forall k :: 0 <= k < |t| ==> !IsTerminator(t[k])
  }

  /** Every character of `t` ends a sentence. */
  predicate AllTerminators(t: string)
  {
    forall k :: 0 <= k < |t| ==> IsTerminator(t[k])
  }

  /**
   * A sentence match starts at `i` exactly when a non-empty run of other
   * characters from `i` is followed by a terminator. The match is then that
   * run followed by the maximal run of terminators after it.
   */
  lemma SentenceEndShape(s: string, i: nat)
    requires i <= |s|
    ensures SentenceEnd(s, i).Some? <==>
              exists j :: i < j < |s| && NoTerminator(s[i..j]) && IsTerminator(s[j])
    ensures SentenceEnd(s, i).Some? ==>
              var e := SentenceEnd(s, i).value;
              && (exists j :: i < j < e && NoTerminator(s[i..j]) && AllTerminators(s[j..e]))
              && (e == |s| || !IsTerminator(s[e]))
  {
    if i < |s| && !IsTerminator(s[i]) {
      var q := ProseRunEnd(s, i);
      assert NoTerminator(s[i..q]);
      if q < |s| {
        var e := TerminatorRunEnd(s, q);
        assert AllTerminators(s[q..e]);
      }
    }
    forall j | i < j < |s| && NoTerminator(s[i..j]) && IsTerminator(s[j])
      ensures SentenceEnd(s, i).Some?
    {
      assert !IsTerminator(s[i..j][0]);
      var q := ProseRunEnd(s, i);
      if q < j {
        assert !IsTerminator(s[i..j][q - i]);
      }
    }
  }

  function SentenceTable(s: string, i: nat): (t: seq<Option<nat>>)
    requires i <= |s|
    ensures |t| == |s| - i
    decreases |s| - i
  {
    if i == |s| then [] else [SentenceEnd(s, i)] + SentenceTable(s, i + 1)
  }

  lemma {:induction false} SentenceTableAt(s: string, i: nat, k: nat)
    requires i <= k < |s|
    ensures SentenceTable(s, i)[k - i] == SentenceEnd(s, k)
    decreases k - i
  {
    if i < k {
      SentenceTableAt(s, i + 1, k);
    }
  }

  lemma SentenceTableOver(s: string)
    ensures TableOver(s, SentenceTable(s, 0))
  {
    forall i | 0 <= i < |s|
      ensures SentenceTable(s, 0)[i].Some? ==> i < SentenceTable(s, 0)[i].value <= |s|
    {
      SentenceTableAt(s, 0, i);
    }
  }

  /** `pageText.match(/[^.!?]+[.!?]+/g)`, with their positions. */
  function SentenceMatches(page: string): seq<Match>
  {
    SentenceTableOver(page);
    Scan(page, SentenceTable(page, 0), 0)
  }

  /** The sentences of a page: the matches, or the whole page when there is
      none. */
  function Sentences(page: string): (r: seq<string>)
    ensures |r| >= 1
  {
    var ms := SentenceMatches(page);
    if ms == [] then [page] else seq(|ms|, i requires 0 <= i < |ms| => ms[i].text)
  }

  /** A matched sentence: a non-empty run of characters that are not
      terminators, then a non-empty run of terminators. */
  predicate SentenceShaped(t: string)
  {
    exists j :: 0 < j < |t| && NoTerminator(t[..j]) && AllTerminators(t[j..])
  }

  /**
   * `match(/[^.!?]+[.!?]+/g)` on a page: every matched sentence is a slice
   * of the page at its index, made of other characters and then the whole
   * run of terminators that follows them; the matches come in order without
   * overlapping, and no match is skipped: every position where a sentence
   * match starts lies inside one of them.
   */
  lemma SentenceMatchShaped(page: string, k: nat)
    requires k < |SentenceMatches(page)|
    ensures SentenceShaped(SentenceMatches(page)[k].text)
    ensures End(SentenceMatches(page)[k]) < |page| ==> !IsTerminator(page[End(SentenceMatches(page)[k])])
  {
    var t := SentenceTable(page, 0);
    SentenceTableOver(page);
    ScanInTable(page, t, 0);
    var m := SentenceMatches(page)[k];
    assert InTable(page, t, m);
    SentenceTableAt(page, 0, m.index);
    SentenceEndShape(page, m.index);
    var j :| m.index < j < End(m) && NoTerminator(page[m.index..j]) && AllTerminators(page[j..End(m)]);
    assert m.text[..j - m.index] == page[m.index..j];
    assert m.text[j - m.index..] == page[j..End(m)];
  }

  lemma SentenceMatchesComplete(page: string)
    ensures forall i :: 0 <= i < |page| && SentenceEnd(page, i).Some? ==> Covered(SentenceMatches(page), i)
  {
    var t := SentenceTable(page, 0);
    SentenceTableOver(page);
    ScanCovers(page, t, 0);
    forall i | 0 <= i < |page| && SentenceEnd(page, i).Some?
      ensures Covered(SentenceMatches(page), i)
    {
      SentenceTableAt(page, 0, i);
    }
  }

  lemma SentenceMatchesShape(page: string)
    ensures Placed(page, SentenceMatches(page))
    ensures forall k :: 0 <= k < |SentenceMatches(page)| ==>
              && SentenceShaped(SentenceMatches(page)[k].text)
              && (End(SentenceMatches(page)[k]) < |page| ==> !IsTerminator(page[End(SentenceMatches(page)[k])]))
    ensures forall i :: 0 <= i < |page| && SentenceEnd(page, i).Some? ==> Covered(SentenceMatches(page), i)
  {
    SentenceTableOver(page);
    ScanPlaced(page, SentenceTable(page, 0));
    forall k | 0 <= k < |SentenceMatches(page)|
      ensures SentenceShaped(SentenceMatches(page)[k].text)
      ensures End(SentenceMatches(page)[k]) < |page| ==> !IsTerminator(page[End(SentenceMatches(page)[k])])
    {
      SentenceMatchShaped(page, k);
    }
    SentenceMatchesComplete(page);
  }

  /** A page has a sentence match exactly when some terminator follows some
      other character. */
  lemma SentenceMatchesIff(page: string)
    ensures SentenceMatches(page) != [] <==>
              exists i, j :: 0 <= i < j < |page| && !IsTerminator(page[i]) && IsTerminator(page[j])
  {
    var t := SentenceTable(page, 0);
    SentenceTableOver(page);
    ScanEmpty(page, t, 0);
    if SentenceMatches(page) != [] {
      var i :| 0 <= i < |page| && t[i].Some?;
      SentenceTableAt(page, 0, i);
      var q := ProseRunEnd(page, i);
      assert i < q < |page| && IsTerminator(page[q]);
    } else {
      forall i, j | 0 <= i < j < |page| && !IsTerminator(page[i])
        ensures !IsTerminator(page[j])
      {
        SentenceTableAt(page, 0, i);
        assert t[i].None?;
      }
    }
  }

  /** Without a match the page is shown as one sentence. */
  lemma NoTerminatorOneSentence(page: string)
    requires forall k :: 0 <= k < |page| ==> !IsTerminator(page[k])
    ensures Sentences(page) == [page]
  {
    SentenceMatchesIff(page);
  }

  /** The words of sentences `0..k`, counted sentence by sentence as the
      click handler does. */
  function WordsBeforeSentence(sentences: seq<string>, k: nat): nat
    requires k <= |sentences|
  {
    if k == 0 then 0 else WordsBeforeSentence(sentences, k - 1) + WordCount(sentences[k - 1])
  }

  /** Where a sentence click puts the cursor: on the word the target count
      names when there is one, otherwise back at the first word. */
  function ClickCursor(tokenCount: nat, target: nat): (c: nat)
    ensures tokenCount > 0 ==> c < tokenCount
  {
    if target < tokenCount then target else 0
  }

  /** Where sentence matches start and end in "Mr.Smith went.". */
  lemma MrSmithEnds(page: string)
    requires page == "Mr.Smith went."
    ensures SentenceEnd(page, 0) == Some(3) && SentenceEnd(page, 3) == Some(14)
  {
    assert ProseRunEnd(page, 2) == 2;
    assert ProseRunEnd(page, 0) == 2;
    assert TerminatorRunEnd(page, 3) == 3 && TerminatorRunEnd(page, 2) == 3;
    assert ProseRunEnd(page, 13) == 13 && ProseRunEnd(page, 11) == 13;
    assert ProseRunEnd(page, 9) == 13 && ProseRunEnd(page, 7) == 13;
    assert ProseRunEnd(page, 5) == 13 && ProseRunEnd(page, 3) == 13;
    assert TerminatorRunEnd(page, 14) == 14 && TerminatorRunEnd(page, 13) == 14;
  }

  /** The sentences of "Mr.Smith went.": "Mr." and "Smith went.". */
  lemma MrSmithSentences(page: string)
    requires page == "Mr.Smith went."
    ensures Sentences(page) == ["Mr.", "Smith went."]
    ensures WordsBeforeSentence(Sentences(page), 1) == 1
  {
    var t := SentenceTable(page, 0);
    SentenceTableOver(page);
    SentenceTableAt(page, 0, 0);
    SentenceTableAt(page, 0, 3);
    MrSmithEnds(page);
    assert Scan(page, t, 3) == [Match(3, page[3..14])];
    var ms := SentenceMatches(page);
    assert ms == [Match(0, page[0..3]), Match(3, page[3..14])];
    assert page[0..3] == "Mr." && page[3..14] == "Smith went.";
    var ss := Sentences(page);
    assert |ss| == 2 && ss[0] == ms[0].text && ss[1] == ms[1].text;
    WordsOfWord(ss[0]);
  }

  /** The tokens of "Mr.Smith went.": "Mr.Smith" and "went.". */
  lemma MrSmithTokens(page: string)
    requires page == "Mr.Smith went."
    ensures var ws := SplitIntoWords(page);
            |ws| == 2 && ws[0].text == "Mr.Smith" && ws[1].text == "went."
  {
    assert page == page[..8] + " " + page[9..];
    TwoWordTokens(page[..8], page[9..]);
  }

  /** Two words separated by a space make two tokens. */
  lemma TwoWordTokens(a: string, b: string)
    requires a != [] && NoSpace(a) && b != [] && NoSpace(b)
    ensures var ws := SplitIntoWords(a + " " + b);
            |ws| == 2 && ws[0].text == a && ws[1].text == b
  {
    SplitIntoWordsShape(a + " " + b);
    SplitAfterFirst(a, b);
    WordsOfWord(a);
    WordsOfWord(b);
    KeptAppend([a], [b]);
    assert [a] + [b] == [a] + Split(b);
  }

  /**
   * A click can land after the start of the clicked sentence. The sentence
   * match splits the page inside a token, so on the page "Mr.Smith went."
   * the second sentence "Smith went." begins inside the first token
   * "Mr.Smith"; the first sentence holds one word, so the click on the
   * second sentence puts the cursor on the token "went.".
   */
  lemma ClickLandsPastSentence(page: string)
    requires page == "Mr.Smith went."
    ensures var ws := SplitIntoWords(page);
            && Sentences(page) == ["Mr.", "Smith went."]
            && |ws| == 2 && ws[0].text == "Mr.Smith" && ws[1].text == "went."
            && ClickCursor(|ws|, WordsBeforeSentence(Sentences(page), 1)) == 1
  {
    MrSmithSentences(page);
    MrSmithTokens(page);
  }
}
