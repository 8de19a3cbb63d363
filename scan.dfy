/**
 * How a global regular expression walks a string (`matchAll`, and `match`
 * with the `g` flag): the matcher is tried at each position in turn, and
 * after a match the search resumes where that match ended. The matcher
 * itself is given as a table of where a match starting at each position
 * ends.
 */
module GlobalScan {
  import opened Wrappers

  /** One result of `matchAll`: `m.index` and the matched text `m[0]`. */
  datatype Match = Match(index: nat, text: string)

  function End(m: Match): nat
  {
    m.index + |m.text|
  }

  /** A table of match ends over `s`: each match ends after it starts and
      within `s`. */
  predicate TableOver(s: string, t: seq<Option<nat>>)
  {
    |t| == |s| && forall i :: 0 <= i < |t| ==> t[i].Some? ==> i < t[i].value <= |s|
  }

  /**
   * The scan of a global regular expression: the leftmost match at or after
   * `from`, then the search resumes where that match ends (the expression's
   * `lastIndex`).
   */
  function Scan(s: string, t: seq<Option<nat>>, from: nat): (r: seq<Match>)
    requires TableOver(s, t) && from <= |s|
    decreases |s| - from
  {
    if from == |s| then []
    else
      match t[from]
      case Some(e) => [Match(from, s[from..e])] + Scan(s, t, e)
      case None => Scan(s, t, from + 1)
  }

  /** Matches that start at or after `from`, in order, without overlapping. */
  predicate Ordered(r: seq<Match>, from: nat)
  {
    && (forall k :: 0 <= k < |r| ==> from <= r[k].index)
    && (forall j, k :: 0 <= j < k < |r| ==> End(r[j]) <= r[k].index)
  }

  /** `m` is an entry of the table: the text of `s` from a match start to its
      end. */
  predicate InTable(s: string, t: seq<Option<nat>>, m: Match)
  {
    && m.index < |t|
    && End(m) <= |s|
    && m.text == s[m.index..End(m)]
    && t[m.index] == Some(End(m))
  }

  lemma OrderedCons(m: Match, rest: seq<Match>, from: nat)
    requires from <= m.index && Ordered(rest, End(m))
    ensures Ordered([m] + rest, from)
  {
    var r := [m] + rest;
    assert forall k :: 1 <= k < |r| ==> r[k] == rest[k - 1];
  }

  /** Position `i` lies inside one of the matches `r`. */
  predicate Covered(r: seq<Match>, i: nat)
  {
    exists k :: 0 <= k < |r| && r[k].index <= i < End(r[k])
  }

  lemma {:induction false} ScanInTable(s: string, t: seq<Option<nat>>, from: nat)
    requires TableOver(s, t) && from <= |s|
    ensures forall k :: 0 <= k < |Scan(s, t, from)| ==> InTable(s, t, Scan(s, t, from)[k])
    ensures Ordered(Scan(s, t, from), from)
    decreases |s| - from
  {
    if from < |s| {
      match t[from]
      case Some(e) =>
        ScanInTable(s, t, e);
        var m := Match(from, s[from..e]);
        var rest := Scan(s, t, e);
        assert Scan(s, t, from) == [m] + rest;
        OrderedCons(m, rest, from);
      case None =>
        ScanInTable(s, t, from + 1);
    }
  }

  lemma {:induction false} ScanCovers(s: string, t: seq<Option<nat>>, from: nat)
    requires TableOver(s, t) && from <= |s|
    ensures forall i :: from <= i < |s| && t[i].Some? ==> Covered(Scan(s, t, from), i)
    decreases |s| - from
  {
    if from < |s| {
      match t[from]
      case Some(e) =>
        ScanCovers(s, t, e);
        var rest := Scan(s, t, e);
        var r := [Match(from, s[from..e])] + rest;
        assert Scan(s, t, from) == r;
        forall i | from <= i < |s| && t[i].Some?
          ensures Covered(r, i)
        {
          if i < e {
            assert r[0].index <= i < End(r[0]);
          } else {
            var k :| 0 <= k < |rest| && rest[k].index <= i < End(rest[k]);
            assert r[k + 1] == rest[k];
          }
        }
      case None =>
        ScanCovers(s, t, from + 1);
    }
  }

  /**
   * Every result of the scan is an entry of the table at or after `from`,
   * and the results come in order without overlapping. No match is skipped:
   * every position from `from` on where a match starts lies inside a result,
   * so no match starts between two results or after the last one.
   */
  lemma ScanSound(s: string, t: seq<Option<nat>>, from: nat)
    requires TableOver(s, t) && from <= |s|
    ensures forall k :: 0 <= k < |Scan(s, t, from)| ==> InTable(s, t, Scan(s, t, from)[k])
    ensures Ordered(Scan(s, t, from), from)
    ensures forall i :: from <= i < |s| && t[i].Some? ==> Covered(Scan(s, t, from), i)
  {
    ScanInTable(s, t, from);
    ScanCovers(s, t, from);
  }

  /** The scan finds nothing exactly when no position at or after `from`
      starts a match. */
  lemma {:induction false} ScanEmpty(s: string, t: seq<Option<nat>>, from: nat)
    requires TableOver(s, t) && from <= |s|
    ensures Scan(s, t, from) == [] <==> forall i :: from <= i < |s| ==> t[i].None?
    decreases |s| - from
  {
    if from < |s| && t[from].None? {
      ScanEmpty(s, t, from + 1);
    }
  }

  /** Matches laid out in `s`: each is a non-empty slice of `s` at its
      index, and they come in order without overlapping. */
  predicate Placed(s: string, r: seq<Match>)
  {
    && Ordered(r, 0)
    && forall k :: 0 <= k < |r| ==>
         r[k].index < End(r[k]) <= |s| && r[k].text == s[r[k].index..End(r[k])]
  }

  /** The results of a scan from the start are non-empty slices of `s`, in
      order and without overlapping. */
  lemma ScanPlaced(s: string, t: seq<Option<nat>>)
    requires TableOver(s, t)
    ensures Placed(s, Scan(s, t, 0))
  {
    ScanInTable(s, t, 0);
    var r := Scan(s, t, 0);
    forall k | 0 <= k < |r|
      ensures r[k].index < End(r[k])
    {
      assert InTable(s, t, r[k]);
    }
  }
}
