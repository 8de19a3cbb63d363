/**
 * The string primitives the reader builds on, with the meaning JavaScript
 * gives them: the `\s` character class, `String.prototype.trim`,
 * `s.split(/\s+/)`, `ws.join(' ')` and the `split/filter` word count used
 * throughout app.js.
 */
module JsText {

  /** ECMAScript WhiteSpace and LineTerminator code points: the set `\s`
      matches and `trim()` removes. */
  predicate IsSpace(c: char)
  {
    || c == ' ' || c == '\t' || c == '\n' || c == '\r'
    || c == '\U{000B}' || c == '\U{000C}' || c == '\U{00A0}' || c == '\U{1680}'
    || ('\U{2000}' <= c <= '\U{200A}')
    || c == '\U{2028}' || c == '\U{2029}' || c == '\U{202F}' || c == '\U{205F}'
    || c == '\U{3000}' || c == '\U{FEFF}'
  }

  predicate NoSpace(s: string)
  {
    forall i :: 0 <= i < |s| ==> !IsSpace(s[i])
  }

  predicate AllSpace(s: string)
  {
    forall i :: 0 <= i < |s| ==> IsSpace(s[i])
  }

  /** The first whitespace position at or after `i`, or |s| if there is none. */
  function FirstSpace(s: string, i: nat): (j: nat)
    requires i <= |s|
    ensures i <= j <= |s|
    ensures j < |s| ==> IsSpace(s[j])
    ensures forall k {:trigger IsSpace(s[k])} :: i <= k < j ==> !IsSpace(s[k])
    decreases |s| - i
  {
    if i == |s| || IsSpace(s[i]) then i else FirstSpace(s, i + 1)
  }

  /** The end of the whitespace run that starts at `i` (which is `i` itself
      when `s[i]` is not whitespace). */
  function SpaceRunEnd(s: string, i: nat): (j: nat)
    requires i <= |s|
    ensures i <= j <= |s|
    ensures j < |s| ==> !IsSpace(s[j])
    ensures forall k {:trigger IsSpace(s[k])} :: i <= k < j ==> IsSpace(s[k])
    decreases |s| - i
  {
    if i == |s| || !IsSpace(s[i]) then i else SpaceRunEnd(s, i + 1)
  }

  /** The end of `s[lo..hi]` once its trailing whitespace is dropped. */
  function TrailingSpaceStart(s: string, lo: nat, hi: nat): (j: nat)
    requires lo <= hi <= |s|
    ensures lo <= j <= hi
    ensures j > lo ==> !IsSpace(s[j - 1])
    ensures forall k {:trigger IsSpace(s[k])} :: j <= k < hi ==> IsSpace(s[k])
    decreases hi
  {
    if hi == lo || !IsSpace(s[hi - 1]) then hi else TrailingSpaceStart(s, lo, hi - 1)
  }

  /** `s.trim()`: `s` without its leading and trailing whitespace. */
  function Trim(s: string): string
  {
    var a := SpaceRunEnd(s, 0);
    s[a..TrailingSpaceStart(s, a, |s|)]
  }

  /** Trimming cuts a whitespace prefix and a whitespace suffix off `s`;
      it leaves nothing exactly of an all-whitespace string, leaves a string
      that starts and ends with non-whitespace otherwise, and leaves such a
      string unchanged. */
  lemma TrimShape(s: string)
    ensures exists a, b :: 0 <= a <= b <= |s| && Trim(s) == s[a..b] && AllSpace(s[..a]) && AllSpace(s[b..])
    ensures Trim(s) == [] <==> AllSpace(s)
    ensures Trim(s) != [] ==> !IsSpace(Trim(s)[0]) && !IsSpace(Trim(s)[|Trim(s)| - 1])
    ensures s != [] && !IsSpace(s[0]) && !IsSpace(s[|s| - 1]) ==> Trim(s) == s
  {
    var a := SpaceRunEnd(s, 0);
    var b := TrailingSpaceStart(s, a, |s|);
    assert a < |s| ==> a < b;
    assert AllSpace(s[..a]) && AllSpace(s[b..]);
  }

  /** A trimmed string keeps every prefix of `s` that starts and ends with a
      non-whitespace character. */
  lemma TrimKeepsPrefix(s: string, n: nat)
    requires 0 < n <= |s|
    requires !IsSpace(s[0]) && !IsSpace(s[n - 1])
    ensures n <= |Trim(s)| && Trim(s)[..n] == s[..n]
  {
    var a := SpaceRunEnd(s, 0);
    assert a == 0;
    var b := TrailingSpaceStart(s, a, |s|);
    assert n <= b;
    assert Trim(s) == s[a..b];
  }

  /** `s.split(/\s+/)`: the pieces between maximal whitespace runs. */
  function Split(s: string): (r: seq<string>)
    ensures |r| >= 1
    decreases |s|
  {
    var i := FirstSpace(s, 0);
    if i == |s| then [s]
    else [s[..i]] + Split(s[SpaceRunEnd(s, i)..])
  }

  /** `ps.join(' ')`. */
  function Join(ps: seq<string>): string
  {
    if |ps| == 0 then []
    else if |ps| == 1 then ps[0]
    else ps[0] + " " + Join(ps[1..])
  }

  /** The pieces a `split(/\s+/)` can produce: none contains whitespace and
      only the first and the last may be empty. */
  predicate SplitShaped(ps: seq<string>)
  {
    && |ps| >= 1
    && (forall k :: 0 <= k < |ps| ==> NoSpace(ps[k]))
    && (forall k :: 0 < k < |ps| - 1 ==> ps[k] != [])
  }

  /** A leading or trailing whitespace run yields an empty first or last
      piece; every other piece is non-empty, and no piece contains
      whitespace. */
  lemma {:induction false} SplitShape(s: string)
    ensures SplitShaped(Split(s))
    ensures Split(s)[0] == [] <==> (s == [] || IsSpace(s[0]))
    decreases |s|
  {
    var i := FirstSpace(s, 0);
    if i < |s| {
      var rest := s[SpaceRunEnd(s, i)..];
      SplitShape(rest);
      assert rest != [] ==> !IsSpace(rest[0]);
      var r := Split(s);
      assert r == [s[..i]] + Split(rest);
      assert NoSpace(s[..i]);
      forall k | 0 <= k < |r|
        ensures NoSpace(r[k])
      {
        if k > 0 {
          assert r[k] == Split(rest)[k - 1];
        }
      }
      forall k | 0 < k < |r| - 1
        ensures r[k] != []
      {
        assert r[k] == Split(rest)[k - 1];
      }
    }
  }

  lemma {:induction false} JoinStartsWithFirst(ps: seq<string>)
    requires |ps| >= 1
    ensures |ps[0]| <= |Join(ps)| && Join(ps)[..|ps[0]|] == ps[0]
  {
  }

  /** Splitting a whitespace-free piece, one space and a text that does
      not start with whitespace yields the piece, then the text's pieces. */
  lemma SplitAfterFirst(p: string, j: string)
    requires NoSpace(p)
    requires j == [] || !IsSpace(j[0])
    ensures Split(p + " " + j) == [p] + Split(j)
  {
    var s := p + " " + j;
    assert forall k :: 0 <= k < |p| ==> s[k] == p[k];
    assert s[|p|] == ' ';
    assert FirstSpace(s, 0) == |p|;
    assert |p| + 1 < |s| ==> s[|p| + 1] == j[0];
    assert SpaceRunEnd(s, |p|) == |p| + 1;
    assert s[..|p|] == p;
    assert s[|p| + 1..] == j;
  }

  /** Re-splitting a space-joined run of pieces gives the pieces back. */
  lemma {:induction false} SplitJoin(ps: seq<string>)
    requires SplitShaped(ps)
    ensures Split(Join(ps)) == ps
  {
    if |ps| == 1 {
      assert FirstSpace(ps[0], 0) == |ps[0]|;
    } else {
      var tail := ps[1..];
      var j := Join(tail);
      assert Join(ps) == ps[0] + " " + j;
      if |tail| >= 2 {
        assert tail[0] != [];
        JoinStartsWithFirst(tail);
        assert j[0] == tail[0][0];
      } else {
        assert j == tail[0];
      }
      assert NoSpace(ps[0]);
      SplitAfterFirst(ps[0], j);
      assert SplitShaped(tail);
      SplitJoin(tail);
    }
  }

  /** The filter `w => w.trim().length > 0` over a list of pieces. */
  function Kept(ps: seq<string>): (r: seq<string>)
    ensures |r| <= |ps|
  {
    if ps == [] then []
    else (if Trim(ps[0]) != [] then [ps[0]] else []) + Kept(ps[1..])
  }

  lemma {:induction false} KeptAppend(a: seq<string>, b: seq<string>)
    ensures Kept(a + b) == Kept(a) + Kept(b)
  {
    if a == [] {
      assert a + b == b;
    } else {
      assert (a + b)[1..] == a[1..] + b;
      KeptAppend(a[1..], b);
    }
  }

  /** `s.split(/\s+/).filter(w => w.trim().length > 0)`: the words of `s`. */
  function Words(s: string): seq<string>
  {
    Kept(Split(s))
  }

  function WordCount(s: string): nat
  {
    |Words(s)|
  }

  /** A non-empty string without whitespace is one word. */
  lemma WordsOfWord(w: string)
    requires w != [] && NoSpace(w)
    ensures Split(w) == [w] && Kept([w]) == [w] && Words(w) == [w]
  {
    TrimShape(w);
    assert [w][1..] == [];
  }

  /** Every word is non-empty and free of whitespace. */
  lemma {:induction false} KeptShape(ps: seq<string>)
    requires forall k :: 0 <= k < |ps| ==> NoSpace(ps[k])
    ensures forall k :: 0 <= k < |Kept(ps)| ==> Kept(ps)[k] != [] && NoSpace(Kept(ps)[k])
  {
    if ps != [] {
      KeptShape(ps[1..]);
    }
  }

  /** The empty text has no words. */
  lemma NoWordsInEmpty()
    ensures WordCount([]) == 0
  {
    assert Split([]) == [[]];
  }

  /** A text that is not blank after trimming has at least one word. */
  lemma {:induction false} NonBlankHasWord(s: string)
    requires Trim(s) != []
    ensures WordCount(s) >= 1
  {
    var q :| 0 <= q < |s| && !IsSpace(s[q]);
    var i := FirstSpace(s, 0);
    var ps := Split(s);
    if i == |s| {
      assert ps == [s];
      assert Trim(s) != [];
      assert Kept(ps) == [s] + Kept([]);
    } else if q < i {
      assert ps[0] == s[..i];
      assert ps[0][q] == s[q];
      assert Trim(ps[0]) != [];
      assert Kept(ps) == [ps[0]] + Kept(ps[1..]);
    } else {
      var e := SpaceRunEnd(s, i);
      var rest := s[e..];
      assert q >= e;
      assert rest[q - e] == s[q];
      assert Trim(rest) != [];
      NonBlankHasWord(rest);
      assert ps == [s[..i]] + Split(rest);
      assert ps[1..] == Split(rest);
      KeptAppend([ps[0]], ps[1..]);
      assert ps == [ps[0]] + ps[1..];
    }
  }

  /** Concatenation of pieces with no separator. */
  function Concat(ps: seq<string>): string
  {
    if ps == [] then [] else ps[0] + Concat(ps[1..])
  }

  /** `s.split(/(\s+)/)`: the pieces of `split(/\s+/)` with every whitespace
      run kept, as its own piece, between the two pieces it separates. */
  function SplitKeepingRuns(s: string): (r: seq<string>)
    ensures |r| >= 1
    decreases |s|
  {
    var i := FirstSpace(s, 0);
    if i == |s| then [s]
    else
      var e := SpaceRunEnd(s, i);
      [s[..i], s[i..e]] + SplitKeepingRuns(s[e..])
  }

  /** Concatenating two leading pieces, then the rest. */
  lemma ConcatCons2(a: string, b: string, rest: seq<string>)
    ensures Concat([a, b] + rest) == a + (b + Concat(rest))
  {
    var r := [a, b] + rest;
    assert r[1..] == [b] + rest;
    assert r[1..][1..] == rest;
  }

  /** A sequence is its prefix, a middle slice and its suffix. */
  lemma Slices3<T>(s: seq<T>, i: nat, e: nat)
    requires i <= e <= |s|
    ensures s == s[..i] + (s[i..e] + s[e..])
  {
  }

  /** The capturing split loses nothing: its pieces concatenate back to `s`. */
  lemma {:induction false} SplitKeepingRunsConcat(s: string)
    ensures Concat(SplitKeepingRuns(s)) == s
    decreases |s|
  {
    var i := FirstSpace(s, 0);
    if i == |s| {
      assert Concat([s]) == s + Concat([]);
    } else {
      var e := SpaceRunEnd(s, i);
      var rest := SplitKeepingRuns(s[e..]);
      SplitKeepingRunsConcat(s[e..]);
      ConcatCons2(s[..i], s[i..e], rest);
      Slices3(s, i, e);
    }
  }

  /** Filtering out blank pieces leaves the same words whether or not the
      whitespace runs were captured. */
  lemma {:induction false} SplitKeepingRunsWords(s: string)
    ensures Kept(SplitKeepingRuns(s)) == Words(s)
    decreases |s|
  {
    var i := FirstSpace(s, 0);
    if i < |s| {
      var e := SpaceRunEnd(s, i);
      var run := s[i..e];
      assert AllSpace(run);
      SplitKeepingRunsWords(s[e..]);
      KeptAppend([s[..i], run], SplitKeepingRuns(s[e..]));
      KeptAppend([s[..i]], Split(s[e..]));
      KeptAppend([s[..i]], [run]);
      assert Kept([run]) == [];
      assert Split(s) == [s[..i]] + Split(s[e..]);
    }
  }
}
