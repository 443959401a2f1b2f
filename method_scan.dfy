/**
 * The method-name scan of `_process_file`: `re.findall(r"\b(\w+)\s*\(", text)`,
 * written out as the left-to-right search Python's regular-expression engine
 * performs.
 *
 * At a position p the pattern can only match when s[p] starts a run of word
 * characters (`\b` followed by `\w`). Backtracking into `\w+` cannot help,
 * because a shorter run is followed by another word character, which is neither
 * whitespace nor `(`; so the group is always the maximal run, and the match
 * succeeds exactly when that run is followed by whitespace and then `(`.
 * `findall` records the group and resumes right after the `(`; where nothing
 * matches it moves on by one character.
 */
module MethodScan {
  import opened Wrappers
  import opened Text

  /**
   * One match of the pattern: the group is s[start..stop], and the `(` that
   * ends the match is at index paren.
   */
  datatype Hit = Hit(start: nat, stop: nat, paren: nat)

  /** `\b(\w+)\s*\(` matches s at h.start with group s[h.start..h.stop]. */
  predicate IsHit(s: string, h: Hit) {
    && h.start < h.stop <= h.paren < |s|
    && (h.start == 0 || !IsWordChar(s[h.start - 1]))
    && (forall k | h.start <= k < h.stop :: IsWordChar(s[k]))
    && (forall k | h.stop <= k < h.paren :: IsSpace(s[k]))
    && s[h.paren] == '('
  }

  /** The end of the run of word characters that starts at p (greedy `\w*`). */
  function WordEnd(s: string, p: nat): (e: nat)
    requires p <= |s|
    ensures p <= e <= |s|
    decreases |s| - p
  {
    if p < |s| && IsWordChar(s[p]) then WordEnd(s, p + 1) else p
  }

  /** `WordEnd` stops at the first character that is not a word character. */
  lemma {:induction false} WordEndRun(s: string, p: nat)
    requires p <= |s|
    ensures forall k | p <= k < WordEnd(s, p) :: IsWordChar(s[k])
    ensures WordEnd(s, p) == |s| || !IsWordChar(s[WordEnd(s, p)])
    decreases |s| - p
  {
    if p < |s| && IsWordChar(s[p]) {
      WordEndRun(s, p + 1);
    }
  }

  /** Any e that ends the run of word characters from p is `WordEnd(s, p)`. */
  lemma {:induction false} WordEndAt(s: string, p: nat, e: nat)
    requires p <= e <= |s|
    requires forall k | p <= k < e :: IsWordChar(s[k])
    requires e == |s| || !IsWordChar(s[e])
    ensures WordEnd(s, p) == e
    decreases e - p
  {
    if p < e {
      WordEndAt(s, p + 1, e);
    }
  }

  /** The end of the run of whitespace that starts at p (greedy `\s*`). */
  function SpaceEnd(s: string, p: nat): (e: nat)
    requires p <= |s|
    ensures p <= e <= |s|
    decreases |s| - p
  {
    if p < |s| && IsSpace(s[p]) then SpaceEnd(s, p + 1) else p
  }

  /** `SpaceEnd` stops at the first character that is not whitespace. */
  lemma {:induction false} SpaceEndRun(s: string, p: nat)
    requires p <= |s|
    ensures forall k | p <= k < SpaceEnd(s, p) :: IsSpace(s[k])
    ensures SpaceEnd(s, p) == |s| || !IsSpace(s[SpaceEnd(s, p)])
    decreases |s| - p
  {
    if p < |s| && IsSpace(s[p]) {
      SpaceEndRun(s, p + 1);
    }
  }

  /** Any e that ends the run of whitespace from p is `SpaceEnd(s, p)`. */
  lemma {:induction false} SpaceEndAt(s: string, p: nat, e: nat)
    requires p <= e <= |s|
    requires forall k | p <= k < e :: IsSpace(s[k])
    requires e == |s| || !IsSpace(s[e])
    ensures SpaceEnd(s, p) == e
    decreases e - p
  {
    if p < e {
      SpaceEndAt(s, p + 1, e);
    }
  }

  /** The attempt to match the pattern at position p. */
  function MatchAt(s: string, p: nat): (r: Option<Hit>)
    requires p <= |s|
    ensures r.Some? ==> r.value.start == p < r.value.stop <= r.value.paren < |s|
    ensures r.Some? ==> s[r.value.paren] == '('
  {
    if p < |s| && IsWordChar(s[p]) && (p == 0 || !IsWordChar(s[p - 1])) then
      var stop := WordEnd(s, p);
      var paren := SpaceEnd(s, stop);
      if paren < |s| && s[paren] == '(' then Some(Hit(p, stop, paren)) else None
    else
      None
  }

  /** What the attempt at p finds is a hit of the pattern. */
  lemma MatchAtSound(s: string, p: nat)
    requires p <= |s|
    ensures MatchAt(s, p).Some? ==> IsHit(s, MatchAt(s, p).value)
  {
    if p < |s| {
      WordEndRun(s, p);
      SpaceEndRun(s, WordEnd(s, p));
    }
  }

  /** Where a hit starts, the attempt to match there finds exactly that hit. */
  lemma MatchAtFinds(s: string, h: Hit)
    requires IsHit(s, h)
    ensures MatchAt(s, h.start) == Some(h)
  {
    SpaceIsNotWord(s[h.stop]);
    WordEndAt(s, h.start, h.stop);
    SpaceEndAt(s, h.stop, h.paren);
  }

  /** Two hits never overlap: a later hit starts after the earlier one's `(`. */
  lemma HitsApart(s: string, g: Hit, h: Hit)
    requires IsHit(s, g) && IsHit(s, h) && g.start < h.start
    ensures g.paren < h.start
  {
    SpaceIsNotWord(s[h.start]);
  }

  /**
   * The successive matches `findall` finds from position `from` on. Each match
   * consumes at least one character, its `(`.
   */
  function Matches(s: string, from: nat): (hs: seq<Hit>)
    requires from <= |s|
    ensures |hs| <= |s| - from
    decreases |s| - from
  {
    if from == |s| then []
    else
      match MatchAt(s, from)
      case Some(h) => [h] + Matches(s, h.paren + 1)
      case None => Matches(s, from + 1)
  }

  /**
   * Every match found from `from` on is a genuine hit at or after `from`, and
   * each starts after the `(` of the one before it.
   */
  lemma {:induction false} MatchesSound(s: string, from: nat)
    requires from <= |s|
    ensures forall i | 0 <= i < |Matches(s, from)| ::
              IsHit(s, Matches(s, from)[i]) && from <= Matches(s, from)[i].start
    ensures forall i, j | 0 <= i < j < |Matches(s, from)| ::
              Matches(s, from)[i].paren < Matches(s, from)[j].start
    decreases |s| - from
  {
    if from < |s| {
      MatchAtSound(s, from);
      match MatchAt(s, from)
      case Some(h) =>
        MatchesSound(s, h.paren + 1);
      case None =>
        MatchesSound(s, from + 1);
    }
  }

  /** One step of the search: what `Matches` does at a position before the end. */
  lemma MatchesStep(s: string, from: nat)
    requires from < |s|
    ensures MatchAt(s, from).None? ==> Matches(s, from) == Matches(s, from + 1)
    ensures MatchAt(s, from).Some? ==>
              Matches(s, from) == [MatchAt(s, from).value] + Matches(s, MatchAt(s, from).value.paren + 1)
  {
  }

  /**
   * No hit is passed over: every place where the pattern matches at or after
   * `from` is among the matches found from there.
   */
  lemma {:induction false} MatchesComplete(s: string, from: nat, h: Hit)
    requires from <= |s| && IsHit(s, h) && from <= h.start
    ensures h in Matches(s, from)
    decreases |s| - from, 2
  {
    if h.start == from {
      MatchAtFinds(s, h);
      MatchesStep(s, from);
    } else {
      MatchesCompleteBeyond(s, from, h);
    }
  }

  /** The step of `MatchesComplete` for a hit that starts after `from`. */
  lemma {:induction false} MatchesCompleteBeyond(s: string, from: nat, h: Hit)
    requires from <= |s| && IsHit(s, h) && from < h.start
    ensures h in Matches(s, from)
    decreases |s| - from, 1
  {
    if MatchAt(s, from).None? {
      MatchesCompleteAfterMiss(s, from, h);
    } else {
      MatchesCompleteAfterHit(s, from, h);
    }
  }

  /** Nothing matches at `from`: the hit is found from the next position. */
  lemma {:induction false} MatchesCompleteAfterMiss(s: string, from: nat, h: Hit)
    requires from < |s| && IsHit(s, h) && from < h.start && MatchAt(s, from).None?
    ensures h in Matches(s, from)
    decreases |s| - from, 0
  {
    MatchesStep(s, from);
    MatchesComplete(s, from + 1, h);
  }

  /** A match g at `from` ends before the hit, which is found after g's `(`. */
  lemma {:induction false} MatchesCompleteAfterHit(s: string, from: nat, h: Hit)
    requires from < |s| && IsHit(s, h) && from < h.start && MatchAt(s, from).Some?
    ensures h in Matches(s, from)
    decreases |s| - from, 0
  {
    var g := MatchAt(s, from).value;
    MatchAtSound(s, from);
    HitsApart(s, g, h);
    MatchesStep(s, from);
    MatchesComplete(s, g.paren + 1, h);
  }

  /** The `(` in s[from..] are those of s[from..to] and those of s[to..]. */
  lemma ParenCountSplit(s: string, from: nat, to: nat)
    requires from <= to <= |s|
    ensures multiset(s[from..])['('] == multiset(s[from..to])['('] + multiset(s[to..])['(']
  {
    assert s[from..] == s[from..to] + s[to..];
  }

  /** A slice that ends in `(` holds at least one `(`. */
  lemma ParenInSlice(s: string, from: nat, to: nat)
    requires from < to <= |s| && s[to - 1] == '('
    ensures multiset(s[from..to])['('] >= 1
  {
    assert s[from..to][to - 1 - from] in multiset(s[from..to]);
  }

  /** Each match consumes its own `(`: there are at most as many matches as `(`. */
  lemma {:induction false} MatchesBound(s: string, from: nat)
    requires from <= |s|
    ensures |Matches(s, from)| <= multiset(s[from..])['(']
    decreases |s| - from
  {
    if from < |s| {
      var m := MatchAt(s, from);
      MatchesStep(s, from);
      if m.None? {
        MatchesBound(s, from + 1);
        ParenCountSplit(s, from, from + 1);
      } else {
        var next := m.value.paren + 1;
        MatchesBound(s, next);
        ParenCountSplit(s, from, next);
        ParenInSlice(s, from, next);
      }
    }
  }

  /**
   * `re.findall(r"\b(\w+)\s*\(", s)`: the group of every match, in order.
   * Each name is a non-empty run of word characters.
   */
  function FindCallNames(s: string): (names: seq<string>)
    ensures |names| == |Matches(s, 0)|
    ensures forall i | 0 <= i < |names| ::
              var h := Matches(s, 0)[i]; h.start <= h.stop <= |s| && names[i] == s[h.start..h.stop]
    ensures forall i | 0 <= i < |names| ::
              names[i] != [] && forall k | 0 <= k < |names[i]| :: IsWordChar(names[i][k])
  {
    var hs := Matches(s, 0);
    MatchesSound(s, 0);
    seq(|hs|, i requires 0 <= i < |hs| => s[hs[i].start..hs[i].stop])
  }

  /**
   * Every scanned name sits in the text as the source's pattern describes it:
   * not preceded by a word character, and followed by zero or more whitespace
   * characters and then `(`.
   */
  lemma CallNameInText(s: string, i: nat)
    requires i < |FindCallNames(s)|
    ensures exists h :: IsHit(s, h) && FindCallNames(s)[i] == s[h.start..h.stop]
  {
    MatchesSound(s, 0);
    var h := Matches(s, 0)[i];
    assert IsHit(s, h);
  }

  /**
   * Order and multiplicity: every occurrence of the pattern in the text yields
   * its own entry, and entries appear in the order of their occurrences.
   */
  lemma {:induction false} CallNamesInOrder(s: string, h1: Hit, h2: Hit)
    requires IsHit(s, h1) && IsHit(s, h2) && h1.start < h2.start
    ensures exists i, j | 0 <= i < j < |FindCallNames(s)| ::
              FindCallNames(s)[i] == s[h1.start..h1.stop] && FindCallNames(s)[j] == s[h2.start..h2.stop]
  {
    var hs := Matches(s, 0);
    MatchesComplete(s, 0, h1);
    MatchesComplete(s, 0, h2);
    var i :| 0 <= i < |hs| && hs[i] == h1;
    var j :| 0 <= j < |hs| && hs[j] == h2;
    HitOrderIsMatchOrder(s, i, j);
    var names := FindCallNames(s);
    assert names[i] == s[h1.start..h1.stop] && names[j] == s[h2.start..h2.stop];
  }

  /** Matches are listed in the order in which they start in the text. */
  lemma HitOrderIsMatchOrder(s: string, i: nat, j: nat)
    requires i < |Matches(s, 0)| && j < |Matches(s, 0)|
    requires Matches(s, 0)[i].start < Matches(s, 0)[j].start
    ensures i < j
  {
    MatchesSound(s, 0);
  }

  /** There are never more names than `(` characters in the text. */
  lemma CallNamesBound(s: string)
    ensures |FindCallNames(s)| <= multiset(s)['(']
  {
    MatchesBound(s, 0);
    assert s[0..] == s;
  }

  /** Text with no `(` yields no names. */
  lemma NoParenNoNames(s: string)
    requires '(' !in s
    ensures FindCallNames(s) == []
  {
    CallNamesBound(s);
  }

  /** From a point with no `(` left in the text, nothing more is found. */
  lemma NoParenNoMatches(s: string, from: nat)
    requires from <= |s| && '(' !in s[from..]
    ensures Matches(s, from) == []
  {
    MatchesBound(s, from);
  }

  /** A control-flow keyword before `(` is scanned like any other name. */
  lemma ScanKeyword()
    ensures FindCallNames("if (x)") == ["if"]
  {
    var s := "if (x)";
    MatchAtFinds(s, Hit(0, 2, 3));
    assert Matches(s, 0) == [Hit(0, 2, 3)] + Matches(s, 4);
    NoParenNoMatches(s, 4);
    var n := FindCallNames(s);
    assert n[0] == s[0..2] == "if";
  }

  /** Scanning resumes after each `(`, so a nested call is found too. */
  lemma ScanNested()
    ensures FindCallNames("f(g(") == ["f", "g"]
  {
    var s := "f(g(";
    MatchAtFinds(s, Hit(0, 1, 1));
    MatchAtFinds(s, Hit(2, 3, 3));
    assert Matches(s, 2) == [Hit(2, 3, 3)];
    assert Matches(s, 0) == [Hit(0, 1, 1), Hit(2, 3, 3)];
    var n := FindCallNames(s);
    assert n[0] == s[0..1] == "f" && n[1] == s[2..3] == "g";
  }

  /** A repeated call gives a repeated name; whitespace before `(` is allowed. */
  lemma ScanDuplicates(s: string)
    requires s == "foo(); foo ();"
    ensures FindCallNames(s) == ["foo", "foo"]
  {
    DuplicatesMatches(s);
    var n := FindCallNames(s);
    assert n[0] == s[0..3] && n[1] == s[7..10];
    assert s[0] == s[7] == 'f' && s[1] == s[8] == 'o' && s[2] == s[9] == 'o';
    assert s[0..3] == "foo" && s[7..10] == "foo";
  }

  lemma DuplicatesMatches(s: string)
    requires s == "foo(); foo ();"
    ensures Matches(s, 0) == [Hit(0, 3, 3), Hit(7, 10, 11)]
  {
    DuplicatesFirst(s);
    DuplicatesGap(s);
    DuplicatesSecond(s);
  }

  lemma DuplicatesFirst(s: string)
    requires s == "foo(); foo ();"
    ensures Matches(s, 0) == [Hit(0, 3, 3)] + Matches(s, 4)
  {
    MatchAtFinds(s, Hit(0, 3, 3));
  }

  lemma DuplicatesGap(s: string)
    requires s == "foo(); foo ();"
    ensures Matches(s, 4) == Matches(s, 7)
  {
    SkipNonWord(s, 4);
    SkipNonWord(s, 5);
    SkipNonWord(s, 6);
  }

  lemma DuplicatesSecond(s: string)
    requires s == "foo(); foo ();"
    ensures Matches(s, 7) == [Hit(7, 10, 11)]
  {
    MatchAtFinds(s, Hit(7, 10, 11));
    assert Matches(s, 7) == [Hit(7, 10, 11)] + Matches(s, 12);
    assert forall k | 12 <= k < |s| :: s[k] != '(';
    assert '(' !in s[12..];
    NoParenNoMatches(s, 12);
  }

  /** A character that is not a word character starts no match. */
  lemma SkipNonWord(s: string, p: nat)
    requires p < |s| && !IsWordChar(s[p])
    ensures Matches(s, p) == Matches(s, p + 1)
  {
  }

  /**
   * A word that is not followed by whitespace and `(` contributes nothing: the
   * search goes on from its end.
   */
  lemma {:induction false} SkipWord(s: string, p: nat)
    requires p < |s| && IsWordChar(s[p])
    requires var w := SpaceEnd(s, WordEnd(s, p)); w == |s| || s[w] != '('
    ensures Matches(s, p) == Matches(s, WordEnd(s, p))
    decreases |s| - p
  {
    var e := WordEnd(s, p);
    WordEndRun(s, p);
    assert MatchAt(s, p) == None;
    if p + 1 < e {
      assert WordEnd(s, p + 1) == e;
      SkipWordInside(s, p + 1, e);
    }
  }

  /** Inside a word run no match starts, up to the end of the run. */
  lemma {:induction false} SkipWordInside(s: string, p: nat, e: nat)
    requires 0 < p <= e <= |s|
    requires forall k | p - 1 <= k < e :: IsWordChar(s[k])
    ensures Matches(s, p) == Matches(s, e)
    decreases e - p
  {
    if p < e {
      assert MatchAt(s, p) == None;
      SkipWordInside(s, p + 1, e);
    }
  }

  /** The method of the single-file example: only `add` is followed by `(`. */
  lemma ScanAddMethod(s: string)
    requires s == "int add(int a,int b){return a+b;}"
    ensures FindCallNames(s) == ["add"]
  {
    AddMethodMatches(s);
    var n := FindCallNames(s);
    assert n[0] == s[4..7];
    assert s[4] == 'a' && s[5] == 'd' && s[6] == 'd';
    assert s[4..7] == "add";
  }

  lemma AddMethodMatches(s: string)
    requires s == "int add(int a,int b){return a+b;}"
    ensures Matches(s, 0) == [Hit(4, 7, 7)]
  {
    AddMethodHead(s);
    AddMethodHit(s);
    AddMethodTail(s);
  }

  /** `int` is followed by a space and a name, not by `(`. */
  lemma AddMethodHead(s: string)
    requires s == "int add(int a,int b){return a+b;}"
    ensures Matches(s, 0) == Matches(s, 4)
  {
    assert WordEnd(s, 3) == 3;
    assert WordEnd(s, 2) == 3;
    assert WordEnd(s, 1) == 3;
    assert WordEnd(s, 0) == 3;
    assert SpaceEnd(s, 4) == 4;
    assert SpaceEnd(s, 3) == 4;
    SkipWord(s, 0);
    SkipNonWord(s, 3);
  }

  lemma AddMethodHit(s: string)
    requires s == "int add(int a,int b){return a+b;}"
    ensures Matches(s, 4) == [Hit(4, 7, 7)] + Matches(s, 8)
  {
    MatchAtFinds(s, Hit(4, 7, 7));
  }

  /** After `add(` there is no `(` left. */
  lemma AddMethodTail(s: string)
    requires s == "int add(int a,int b){return a+b;}"
    ensures Matches(s, 8) == []
  {
    assert forall k | 8 <= k < |s| :: s[k] != '(';
    assert '(' !in s[8..];
    NoParenNoMatches(s, 8);
  }
}
