/** The two functions of Go's `strings` package that update53 uses:
    `HasSuffix` and `TrimSpace` (with `unicode.IsSpace` as its notion of
    white space). Strings are sequences of decoded characters. */
module Strings {

  /** `strings.HasSuffix(s, suffix)`: `s` ends with `suffix`. */
  predicate HasSuffix(s: string, suffix: string)
  {
    |suffix| <= |s| && s[|s| - |suffix|..] == suffix
  }

  /** `unicode.IsSpace`: the Latin-1 spaces '\t', '\n', '\v', '\f', '\r', ' ',
      U+0085 and U+00A0, and the other characters with Unicode's White_Space
      property. */
  predicate IsSpace(c: char)
  {
    c == '\t' || c == '\n' || c == '\U{000B}' || c == '\U{000C}' || c == '\r' || c == ' '
    || c == '\U{0085}' || c == '\U{00A0}' || c == '\U{1680}'
    || ('\U{2000}' <= c <= '\U{200A}')
    || c == '\U{2028}' || c == '\U{2029}' || c == '\U{202F}' || c == '\U{205F}' || c == '\U{3000}'
  }

  ghost predicate AllSpace(s: string)
  {
    forall i :: 0 <= i < |s| ==> IsSpace(s[i])
  }

  /** Neither the first nor the last character of `s` is white space. */
  ghost predicate Trimmed(s: string)
  {
    s == [] || (!IsSpace(s[0]) && !IsSpace(s[|s| - 1]))
  }

  function TrimLeft(s: string): string
  {
    if |s| > 0 && IsSpace(s[0]) then TrimLeft(s[1..]) else s
  }

  function TrimRight(s: string): string
  {
    if |s| > 0 && IsSpace(s[|s| - 1]) then TrimRight(s[..|s| - 1]) else s
  }

  /** `strings.TrimSpace`: `s` without its leading and trailing white space. */
  function TrimSpace(s: string): string
  {
    TrimRight(TrimLeft(s))
  }

  /** The white space `TrimLeft` cuts off. */
  ghost function LeadingSpace(s: string): string
  {
    if |s| > 0 && IsSpace(s[0]) then [s[0]] + LeadingSpace(s[1..]) else []
  }

  /** The white space `TrimRight` cuts off. */
  ghost function TrailingSpace(s: string): string
  {
    if |s| > 0 && IsSpace(s[|s| - 1]) then TrailingSpace(s[..|s| - 1]) + [s[|s| - 1]] else []
  }

  lemma {:induction false} AllSpaceAppend(a: string, b: string)
    requires AllSpace(a) && AllSpace(b)
    ensures AllSpace(a + b)
  {
    forall i | 0 <= i < |a + b|
      ensures IsSpace((a + b)[i])
    {
      if i < |a| {
        assert (a + b)[i] == a[i];
      } else {
        assert (a + b)[i] == b[i - |a|];
      }
    }
  }

  lemma {:induction false} TrimLeftSplits(s: string)
    ensures s == LeadingSpace(s) + TrimLeft(s) && AllSpace(LeadingSpace(s))
    ensures TrimLeft(s) == [] || !IsSpace(TrimLeft(s)[0])
  {
    if |s| > 0 && IsSpace(s[0]) {
      var rest := s[1..];
      TrimLeftSplits(rest);
      assert LeadingSpace(s) == [s[0]] + LeadingSpace(rest);
      assert TrimLeft(s) == TrimLeft(rest);
      assert s == [s[0]] + (LeadingSpace(rest) + TrimLeft(rest));
      AllSpaceAppend([s[0]], LeadingSpace(rest));
    }
  }

  lemma {:induction false} TrimRightSplits(s: string)
    ensures s == TrimRight(s) + TrailingSpace(s) && AllSpace(TrailingSpace(s))
    ensures TrimRight(s) == [] || !IsSpace(TrimRight(s)[|TrimRight(s)| - 1])
  {
    if |s| > 0 && IsSpace(s[|s| - 1]) {
      var init := s[..|s| - 1];
      TrimRightSplits(init);
      assert TrailingSpace(s) == TrailingSpace(init) + [s[|s| - 1]];
      assert TrimRight(s) == TrimRight(init);
      assert s == (TrimRight(init) + TrailingSpace(init)) + [s[|s| - 1]];
      AllSpaceAppend(TrailingSpace(init), [s[|s| - 1]]);
    }
  }

  /** `TrimSpace(s)` is what is left of `s` once a prefix and a suffix made
      only of white space are cut off, and that rest neither starts nor ends
      with white space: the longest such cut. */
  lemma {:induction false} TrimSpaceSplits(s: string)
    ensures exists p, q :: s == p + TrimSpace(s) + q && AllSpace(p) && AllSpace(q)
    ensures Trimmed(TrimSpace(s))
  {
    var l := TrimLeft(s);
    var t := TrimRight(l);
    TrimLeftSplits(s);
    TrimRightSplits(l);
    var p, q := LeadingSpace(s), TrailingSpace(l);
    assert s == p + t + q;
    if t != [] {
      assert t[0] == l[0];
    }
  }

  lemma {:induction false} TrimLeftOfTrimmed(s: string)
    requires s == [] || !IsSpace(s[0])
    ensures TrimLeft(s) == s
  {
  }

  lemma {:induction false} TrimRightOfTrimmed(s: string)
    requires s == [] || !IsSpace(s[|s| - 1])
    ensures TrimRight(s) == s
  {
  }

  /** Trimming twice is trimming once. */
  lemma {:induction false} TrimSpaceIdempotent(s: string)
    ensures TrimSpace(TrimSpace(s)) == TrimSpace(s)
  {
    var t := TrimSpace(s);
    TrimSpaceSplits(s);
    TrimLeftOfTrimmed(t);
    TrimRightOfTrimmed(t);
  }
}
