/**
  The string primitives of Python that the label pipeline relies on:
  whitespace and digit classes (restricted to ASCII), `str.strip()`,
  `str.split('\n')` and the substring test `k in s`.
 */
module Text {

  datatype Option<T> = None | Some(value: T)

  /** ASCII characters that Python's `str.isspace()` and the regex class `\s` accept:
      space, \t \n \x0b \x0c \r, and the separators \x1c-\x1f. */
  predicate IsSpace(c: char) {
    c == ' ' || '\t' <= c <= '\r' || '\U{1C}' <= c <= '\U{1F}'
  }

  /** ASCII decimal digit (the regex class `\d` restricted to ASCII). */
  predicate IsDigit(c: char) {
    '0' <= c <= '9'
  }

  predicate AllSpace(s: string) {
    forall i :: 0 <= i < |s| ==> IsSpace(s[i])
  }

  /** Length of the longest prefix of `s` whose elements all satisfy `p`. */
  function Span<T>(s: seq<T>, p: T -> bool): (n: nat)
    ensures n <= |s|
    ensures forall i :: 0 <= i < n ==> p(s[i])
    ensures n < |s| ==> !p(s[n])
  {
    if s == [] || !p(s[0]) then 0 else 1 + Span(s[1..], p)
  }

  /** The span ends at the first element that fails `p`. */
  lemma SpanAt<T>(s: seq<T>, p: T -> bool, n: nat)
    requires n < |s| && !p(s[n]) && forall i :: 0 <= i < n ==> p(s[i])
    ensures Span(s, p) == n
  {
  }

  /** Length of the longest suffix of `s` whose elements all satisfy `p`. */
  function BackSpan<T>(s: seq<T>, p: T -> bool): (n: nat)
    ensures n <= |s|
    ensures forall i :: |s| - n <= i < |s| ==> p(s[i])
    ensures n < |s| ==> !p(s[|s| - 1 - n])
  {
    if s == [] || !p(s[|s| - 1]) then 0 else 1 + BackSpan(s[..|s| - 1], p)
  }

  /** `s` is `r` with `i` whitespace characters before it and only whitespace after it. */
  predicate PaddedAt(s: string, r: string, i: nat) {
    i + |r| <= |s| && s[i..i + |r|] == r && AllSpace(s[..i]) && AllSpace(s[i + |r|..])
  }

  /** No whitespace at either end. */
  predicate Trimmed(r: string) {
    r == [] || (!IsSpace(r[0]) && !IsSpace(r[|r| - 1]))
  }

  /** Python's `s.strip()`: drop leading and trailing whitespace. */
  function Strip(s: string): string {
    var a := Span(s, IsSpace);
    s[a..|s| - BackSpan(s[a..], IsSpace)]
  }

  /** The stripped string has no whitespace at either end, and `s` is that string with
      only whitespace before and after it. */
  lemma StripShape(s: string)
    ensures Trimmed(Strip(s))
    ensures exists i :: PaddedAt(s, Strip(s), i)
  {
    var a := Span(s, IsSpace);
    StripCut(s, a, BackSpan(s[a..], IsSpace));
  }

  /** Cutting the leading and the trailing whitespace run leaves a trimmed string
      that `s` pads. */
  lemma StripCutP(s: string, a: nat, b: nat)
    requires a == Span(s, IsSpace) && b == BackSpan(s[a..], IsSpace)
    ensures PaddedAt(s, s[a..|s| - b], a)
  {
    var t := s[a..];
    LeadingSpace(s, a);
    TrailingSpace(t, b);
    CutPadded(s, a, b);
  }

  lemma StripCutT(s: string, a: nat, b: nat)
    requires a == Span(s, IsSpace) && b == BackSpan(s[a..], IsSpace)
    ensures Trimmed(s[a..|s| - b])
  {
    CutTrimmed(s, a, b);
  }

  lemma StripCut(s: string, a: nat, b: nat)
    requires a == Span(s, IsSpace) && b == BackSpan(s[a..], IsSpace)
    ensures Trimmed(s[a..|s| - b]) && PaddedAt(s, s[a..|s| - b], a)
  {
    StripCutP(s, a, b);
    StripCutT(s, a, b);
  }

  lemma CutPadded(s: string, a: nat, b: nat)
    requires a + b <= |s| && AllSpace(s[..a]) && AllSpace(s[a..][|s[a..]| - b..])
    ensures PaddedAt(s, s[a..|s| - b], a)
  {
    assert s[a..][|s[a..]| - b..] == s[|s| - b..];
  }

  lemma CutTrimmed(s: string, a: nat, b: nat)
    requires a + b <= |s|
    requires a < |s| ==> !IsSpace(s[a])
    requires b < |s[a..]| ==> !IsSpace(s[a..][|s[a..]| - 1 - b])
    ensures Trimmed(s[a..|s| - b])
  {
    if a + b < |s| {
      assert s[a..][|s[a..]| - 1 - b] == s[|s| - 1 - b];
    }
  }

  lemma LeadingSpace(s: string, a: nat)
    requires a == Span(s, IsSpace)
    ensures AllSpace(s[..a])
  {
    forall i | 0 <= i < a ensures IsSpace(s[..a][i]) {
      assert s[..a][i] == s[i];
    }
  }

  lemma TrailingSpace(t: string, b: nat)
    requires b == BackSpan(t, IsSpace)
    ensures AllSpace(t[|t| - b..])
  {
    var u := t[|t| - b..];
    forall i | 0 <= i < |u| ensures IsSpace(u[i]) {
      assert u[i] == t[|t| - b + i];
    }
  }

  /** Where a padded string that starts with a non-space begins. */
  lemma PaddedStart(s: string, r: string, i: nat)
    requires PaddedAt(s, r, i) && r != [] && !IsSpace(r[0])
    ensures i == Span(s, IsSpace)
  {
    var a := Span(s, IsSpace);
    assert s[i] == s[i..i + |r|][0];
  }

  /** The two properties in `Strip`'s contract determine its result: any trimmed
      string that `s` pads with whitespace is `Strip(s)`. */
  lemma StripUnique(s: string, r: string, i: nat)
    requires Trimmed(r) && PaddedAt(s, r, i)
    ensures r == Strip(s)
  {
    var t := Strip(s);
    StripShape(s);
    var j: nat :| PaddedAt(s, t, j);
    if r == [] {
      PaddedBlank(s, i);
      StripAllSpace(s);
    } else if t != [] {
      PaddedSame(s, r, i, t, j);
    }
  }

  /** A string that pads the empty string is whitespace only. */
  lemma PaddedBlank(s: string, i: nat)
    requires PaddedAt(s, [], i)
    ensures AllSpace(s)
  {
    forall k | 0 <= k < |s| ensures IsSpace(s[k]) {
      if k < i { assert s[k] == s[..i][k]; } else { assert s[k] == s[i..][k - i]; }
    }
  }

  /** Two non-empty trimmed strings that `s` pads are the same string. */
  lemma PaddedSame(s: string, r: string, i: nat, t: string, j: nat)
    requires Trimmed(r) && PaddedAt(s, r, i) && r != []
    requires Trimmed(t) && PaddedAt(s, t, j) && t != []
    ensures r == t
  {
    PaddedStart(s, r, i);
    PaddedStart(s, t, j);
    var e, f := i + |r|, j + |t|;
    assert s[e - 1] == s[i..e][|r| - 1];
    assert s[f - 1] == s[j..f][|t| - 1];
  }

  lemma StripAllSpace(s: string)
    requires AllSpace(s)
    ensures Strip(s) == ""
  {
    assert Span(s, IsSpace) == |s|;
  }

  /** Python's `s.split('\n')`: the pieces between line feeds; never empty. */
  function SplitLines(s: string): (ls: seq<string>)
    ensures |ls| >= 1
    ensures forall i :: 0 <= i < |ls| ==> '\n' !in ls[i]
  {
    if s == [] then [""]
    else
      var rest := SplitLines(s[1..]);
      if s[0] == '\n' then [""] + rest else [[s[0]] + rest[0]] + rest[1..]
  }

  /** Python's `'\n'.join(ls)`. */
  function JoinLines(ls: seq<string>): string {
    if ls == [] then ""
    else if |ls| == 1 then ls[0]
    else ls[0] + "\n" + JoinLines(ls[1..])
  }

  /** Splitting at line feeds loses nothing: joining the lines gives back the text. */
  lemma {:induction false} JoinSplitLines(s: string)
    ensures JoinLines(SplitLines(s)) == s
  {
    if s != [] {
      var rest := SplitLines(s[1..]);
      JoinSplitLines(s[1..]);
      if s[0] == '\n' {
        assert SplitLines(s)[1..] == rest;
      } else {
        var ls := SplitLines(s);
        assert ls[1..] == rest[1..];
        if |rest| == 1 {
          assert JoinLines(ls) == [s[0]] + rest[0];
        } else {
          assert JoinLines(rest) == rest[0] + "\n" + JoinLines(rest[1..]);
          assert JoinLines(ls) == ([s[0]] + rest[0]) + "\n" + JoinLines(rest[1..]);
        }
        assert s == [s[0]] + s[1..];
      }
    }
  }

  lemma {:induction false} SplitLinesPrefix(a: string, t: string)
    requires '\n' !in a
    ensures SplitLines(a + t) == [a + SplitLines(t)[0]] + SplitLines(t)[1..]
  {
    var ls := SplitLines(t);
    if a != [] {
      assert (a + t)[1..] == a[1..] + t;
      assert a[0] in a && '\n' !in a[1..];
      SplitLinesPrefix(a[1..], t);
      var rest := SplitLines(a[1..] + t);
      assert rest == [a[1..] + ls[0]] + ls[1..];
      assert SplitLines(a + t) == [[a[0]] + rest[0]] + rest[1..];
      assert [a[0]] + (a[1..] + ls[0]) == a + ls[0];
    } else {
      assert a + t == t && a + ls[0] == ls[0];
      assert ls == [ls[0]] + ls[1..];
    }
  }

  /** And conversely: lines without line feeds come back from splitting their join. */
  lemma {:induction false} SplitJoinLines(ls: seq<string>)
    requires |ls| >= 1
    requires forall i :: 0 <= i < |ls| ==> '\n' !in ls[i]
    ensures SplitLines(JoinLines(ls)) == ls
  {
    if |ls| == 1 {
      SplitLinesPrefix(ls[0], "");
      assert ls[0] + "" == ls[0];
    } else {
      var tail := JoinLines(ls[1..]);
      SplitJoinLines(ls[1..]);
      assert JoinLines(ls) == ls[0] + ("\n" + tail);
      SplitLinesPrefix(ls[0], "\n" + tail);
      assert ("\n" + tail)[1..] == tail;
      assert SplitLines("\n" + tail) == [""] + ls[1..];
      assert ls[0] + "" == ls[0];
    }
  }

  /** Python's `k in s` on strings: `k` occurs somewhere in `s` (the empty string always does). */
  predicate Contains(s: string, k: string) {
    k <= s || (s != [] && Contains(s[1..], k))
  }

  /** `k` occurs in `s` starting at index `i`. */
  predicate OccursAt(s: string, k: string, i: int) {
    0 <= i <= |s| && k <= s[i..]
  }

  /** `Contains` is occurrence at some position. */
  lemma {:induction false} ContainsAt(s: string, k: string)
    ensures Contains(s, k) <==> exists i :: OccursAt(s, k, i)
  {
    if k <= s {
      assert s[0..] == s;
      assert OccursAt(s, k, 0);
    }
    if s == [] {
      if exists i :: OccursAt(s, k, i) {
        var i :| OccursAt(s, k, i);
        assert s[i..] == s;
      }
    } else {
      ContainsAt(s[1..], k);
      if Contains(s[1..], k) {
        var i :| OccursAt(s[1..], k, i);
        assert s[1..][i..] == s[i + 1..];
        assert OccursAt(s, k, i + 1);
      }
      if exists i :: OccursAt(s, k, i) {
        var i :| OccursAt(s, k, i);
        if i > 0 {
          assert s[1..][i - 1..] == s[i..];
          assert OccursAt(s[1..], k, i - 1);
        } else {
          assert s[0..] == s;
        }
      }
    }
  }
}
