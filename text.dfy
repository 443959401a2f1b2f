/**
 * Character classes and trimming as Python defines them on `str`:
 * `IsSpace` is `str.isspace()` (which is also what `\s` matches in a `str`
 * pattern), `IsWordChar` is the ASCII form of `\w`, and `Strip` is `str.strip()`
 * with no argument.
 */
module Text {

  /** The characters for which Python's `str.isspace()` holds. */
  predicate IsSpace(c: char) {
    || ('\U{9}' <= c <= '\U{D}')
    || ('\U{1C}' <= c <= '\U{1F}')
    || c == ' '
    || c == '\U{85}'
    || c == '\U{A0}'
    || c == '\U{1680}'
    || ('\U{2000}' <= c <= '\U{200A}')
    || c == '\U{2028}'
    || c == '\U{2029}'
    || c == '\U{202F}'
    || c == '\U{205F}'
    || c == '\U{3000}'
  }

  /** `[A-Za-z0-9_]`: the ASCII word characters of a regular expression. */
  predicate IsWordChar(c: char) {
    ('A' <= c <= 'Z') || ('a' <= c <= 'z') || ('0' <= c <= '9') || c == '_'
  }

  lemma SpaceIsNotWord(c: char)
    ensures IsSpace(c) ==> !IsWordChar(c)
  {
  }

  predicate AllSpace(s: string) {
    forall i | 0 <= i < |s| :: IsSpace(s[i])
  }

  /** No whitespace at either end, which is what `str.strip()` leaves. */
  predicate IsStripped(s: string) {
    s == [] || (!IsSpace(s[0]) && !IsSpace(s[|s| - 1]))
  }

  /** `s` with its leading whitespace removed (`str.lstrip()`). */
  function StripLeading(s: string): (r: string)
    ensures |r| <= |s|
  {
    if s != [] && IsSpace(s[0]) then StripLeading(s[1..]) else s
  }

  /** `StripLeading` drops whitespace only, and stops at a non-space. */
  lemma {:induction false} StripLeadingRun(s: string)
    ensures StripLeading(s) == s[|s| - |StripLeading(s)|..]
    ensures AllSpace(s[..|s| - |StripLeading(s)|])
    ensures StripLeading(s) == [] || !IsSpace(StripLeading(s)[0])
  {
    if s != [] && IsSpace(s[0]) {
      var r := StripLeading(s[1..]);
      StripLeadingRun(s[1..]);
      var n := |s| - |r|;
      assert s[1..][n - 1..] == s[n..];
      forall k | 0 <= k < n ensures IsSpace(s[..n][k]) {
        if k > 0 { assert s[..n][k] == s[1..][..n - 1][k - 1]; }
      }
    }
  }

  /** `s` with its trailing whitespace removed (`str.rstrip()`). */
  function StripTrailing(s: string): (r: string)
    ensures |r| <= |s|
  {
    if s != [] && IsSpace(s[|s| - 1]) then StripTrailing(s[..|s| - 1]) else s
  }

  /** `StripTrailing` drops whitespace only, and stops after a non-space. */
  lemma {:induction false} StripTrailingRun(s: string)
    ensures StripTrailing(s) == s[..|StripTrailing(s)|]
    ensures AllSpace(s[|StripTrailing(s)|..])
    ensures StripTrailing(s) == [] || !IsSpace(StripTrailing(s)[|StripTrailing(s)| - 1])
  {
    if s != [] && IsSpace(s[|s| - 1]) {
      var t := s[..|s| - 1];
      var r := StripTrailing(t);
      StripTrailingRun(t);
      var m := |r|;
      assert t[..m] == s[..m];
      forall k | 0 <= k < |s| - m ensures IsSpace(s[m..][k]) {
        if m + k < |s| - 1 { assert s[m..][k] == t[m..][k]; }
      }
    }
  }

  /** `str.strip()`: whitespace removed from both ends. */
  function Strip(s: string): (r: string)
    ensures IsStripped(r)
    ensures |r| <= |s|
  {
    StripLeadingRun(s);
    StripTrailingRun(StripLeading(s));
    StripTrailing(StripLeading(s))
  }

  /** What `Strip` removes is whitespace, and what it keeps is a slice of `s`. */
  lemma StripIsSlice(s: string)
    ensures exists i | 0 <= i <= |s| - |Strip(s)| ::
              Strip(s) == s[i..i + |Strip(s)|] && AllSpace(s[..i]) && AllSpace(s[i + |Strip(s)|..])
  {
    var t := StripLeading(s);
    var r := StripTrailing(t);
    StripLeadingRun(s);
    StripTrailingRun(t);
    var i := |s| - |t|;
    assert r == s[i..i + |r|];
    assert s[i + |r|..] == t[|r|..];
  }

  /** `StripLeading` stops exactly at the first non-space. */
  lemma {:induction false} StripLeadingAt(s: string, i: nat)
    requires i <= |s| && AllSpace(s[..i])
    requires i == |s| || !IsSpace(s[i])
    ensures StripLeading(s) == s[i..]
  {
    if i > 0 {
      assert IsSpace(s[..i][0]);
      assert s[1..][..i - 1] == s[1..i];
      assert forall k | 0 <= k < i - 1 :: s[1..i][k] == s[..i][k + 1];
      StripLeadingAt(s[1..], i - 1);
    }
  }

  /** `StripTrailing` stops exactly after the last non-space. */
  lemma {:induction false} StripTrailingAt(s: string, j: nat)
    requires j <= |s| && AllSpace(s[j..])
    requires j == 0 || !IsSpace(s[j - 1])
    ensures StripTrailing(s) == s[..j]
  {
    if j < |s| {
      var n := |s| - 1;
      assert IsSpace(s[j..][n - j]);
      assert s[..n][j..] == s[j..n];
      assert forall k | 0 <= k < n - j :: s[j..n][k] == s[j..][k];
      StripTrailingAt(s[..n], j);
      assert s[..n][..j] == s[..j];
    }
  }

  /** A string made only of whitespace strips to the empty string. */
  lemma BlankStripsToEmpty(s: string)
    requires AllSpace(s)
    ensures Strip(s) == []
  {
    assert s[..|s|] == s;
    StripLeadingAt(s, |s|);
  }

  /**
   * The stripped core is unique: any slice that is surrounded by whitespace and
   * has none at its own ends is what `Strip` returns.
   */
  lemma StripIsCore(s: string, i: nat, j: nat)
    requires i <= j <= |s|
    requires AllSpace(s[..i]) && AllSpace(s[j..])
    requires IsStripped(s[i..j])
    ensures Strip(s) == s[i..j]
  {
    if i == j {
      forall k | 0 <= k < |s| ensures IsSpace(s[k]) {
        if k < i { assert s[..i][k] == s[k]; } else { assert s[j..][k - j] == s[k]; }
      }
      BlankStripsToEmpty(s);
    } else {
      StripCoreNonEmpty(s, i, j);
    }
  }

  lemma StripCoreNonEmpty(s: string, i: nat, j: nat)
    requires i < j <= |s|
    requires AllSpace(s[..i]) && AllSpace(s[j..])
    requires IsStripped(s[i..j])
    ensures Strip(s) == s[i..j]
  {
    assert s[i] == s[i..j][0];
    StripLeadingAt(s, i);
    var t := s[i..];
    assert t[j - i..] == s[j..];
    assert s[j - 1] == s[i..j][j - i - 1] == t[j - i - 1];
    StripTrailingAt(t, j - i);
    assert t[..j - i] == s[i..j];
  }

  /** A string with no whitespace at its ends strips to itself. */
  lemma StrippedIsFixed(s: string)
    requires IsStripped(s)
    ensures Strip(s) == s
  {
    assert s[..0] == [] && s[|s|..] == [] && s[0..|s|] == s;
    StripIsCore(s, 0, |s|);
  }

  /** Stripping twice is stripping once. */
  lemma StripIdempotent(s: string)
    ensures Strip(Strip(s)) == Strip(s)
  {
    StrippedIsFixed(Strip(s));
  }

  /** Only an all-whitespace string strips to the empty string. */
  lemma StripEmptyIffBlank(s: string)
    ensures Strip(s) == [] <==> AllSpace(s)
  {
    if AllSpace(s) {
      assert s[..0] == [] && s[0..] == s;
      StripIsCore(s, 0, 0);
    }
    if Strip(s) == [] {
      StripIsSlice(s);
      var r := Strip(s);
      var i :| 0 <= i <= |s| - |r| && r == s[i..i + |r|] && AllSpace(s[..i]) && AllSpace(s[i + |r|..]);
      forall k | 0 <= k < |s| ensures IsSpace(s[k]) {
        if k < i { assert s[..i][k] == s[k]; } else { assert s[i..][k - i] == s[k]; }
      }
    }
  }
}
