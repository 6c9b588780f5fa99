/**
  Character-level helpers shared by the parser and the printer: ASCII
  whitespace and trimming, parenthesis depth, and infixes.
 */
module Text {

  /** ASCII whitespace: tab, line feed, vertical tab, form feed, carriage return, space. */
  predicate IsSpace(c: char) {
    c == ' ' || 9 <= c as int <= 13
  }

  predicate AllSpace(s: string) {
    forall k :: 0 <= k < |s| ==> IsSpace(s[k])
  }

  /** Neither end of `s` is whitespace. */
  predicate Trimmed(s: string) {
    |s| == 0 || (!IsSpace(s[0]) && !IsSpace(s[|s| - 1]))
  }

  /** `t` occurs in `s` starting at index `i`. */
  predicate InfixAt(t: string, s: string, i: int) {
    0 <= i <= |s| - |t| && s[i..i + |t|] == t
  }

  /** The characters of `s` from index `lo` up to, not including, `hi`, built
      character by character so that the verifier relates it to `s` only
      through its elements. */
  function Slice(s: string, lo: nat, hi: nat): (r: string)
    requires lo <= hi <= |s|
    ensures |r| == hi - lo
  {
    seq(hi - lo, k requires 0 <= k < hi - lo => s[lo + k])
  }

  lemma SliceIsSlice(s: string, lo: nat, hi: nat)
    requires lo <= hi <= |s|
    ensures Slice(s, lo, hi) == s[lo..hi]
  {
  }

  /** The first index at or after `i` that is `hi` or holds a non-space. */
  function SkipSpaces(s: string, i: nat, hi: nat): (r: nat)
    requires i <= hi <= |s|
    decreases hi - i
    ensures i <= r <= hi
    ensures r < hi ==> !IsSpace(s[r])
  {
    if i < hi && IsSpace(s[i]) then SkipSpaces(s, i + 1, hi) else i
  }

  /** The last index at or before `j` that is `lo` or follows a non-space. */
  function SkipSpacesBack(s: string, lo: nat, j: nat): (r: nat)
    requires lo <= j <= |s|
    ensures lo <= r <= j
    ensures lo < r ==> !IsSpace(s[r - 1])
  {
    if lo < j && IsSpace(s[j - 1]) then SkipSpacesBack(s, lo, j - 1) else j
  }

  /** The scan forward skips exactly a run of whitespace. */
  lemma {:induction false} SkipSpacesSpec(s: string, i: nat, hi: nat)
    requires i <= hi <= |s|
    ensures var r := SkipSpaces(s, i, hi);
      (forall k :: i <= k < r ==> IsSpace(s[k])) && (r < hi ==> !IsSpace(s[r]))
    decreases hi - i
  {
    if i < hi && IsSpace(s[i]) {
      SkipSpacesSpec(s, i + 1, hi);
    }
  }

  /** The scan backward skips exactly a run of whitespace. */
  lemma {:induction false} SkipSpacesBackSpec(s: string, lo: nat, j: nat)
    requires lo <= j <= |s|
    ensures var r := SkipSpacesBack(s, lo, j);
      (forall k :: r <= k < j ==> IsSpace(s[k])) && (lo < r ==> !IsSpace(s[r - 1]))
  {
    if lo < j && IsSpace(s[j - 1]) {
      SkipSpacesBackSpec(s, lo, j - 1);
    }
  }

  /** `s` without whitespace at either end. */
  function Strip(s: string): (r: string)
    ensures Trimmed(r)
    ensures |r| <= |s|
  {
    var i := SkipSpaces(s, 0, |s|);
    Slice(s, i, SkipSpacesBack(s, i, |s|))
  }

  /** What `Strip` removes is whitespace, and only from the two ends; a text
      without whitespace at its ends is left alone. */
  lemma StripShape(s: string)
    ensures var r := Strip(s);
      exists i :: InfixAt(r, s, i) && AllSpace(s[..i]) && AllSpace(s[i + |r|..])
    ensures Trimmed(s) ==> Strip(s) == s
  {
    var i := SkipSpaces(s, 0, |s|);
    var j := SkipSpacesBack(s, i, |s|);
    SkipSpacesSpec(s, 0, |s|);
    SkipSpacesBackSpec(s, i, |s|);
    SliceIsSlice(s, i, j);
    assert InfixAt(s[i..j], s, i);
    assert AllSpace(s[..i]) && AllSpace(s[j..]);
    if Trimmed(s) && |s| > 0 {
      assert i == 0;
      assert j == |s|;
      assert s[0..|s|] == s;
    }
  }

  lemma StripTrimmed(s: string)
    requires Trimmed(s)
    ensures Strip(s) == s
  {
    StripShape(s);
  }

  /** Stripping ignores extra whitespace around an already trimmed text. */
  lemma StripPadded(s: string)
    requires |s| > 0 && Trimmed(s)
    ensures Strip(s + " ") == s
    ensures Strip(" " + s) == s
  {
    StripPaddedRight(s);
    StripPaddedLeft(s);
  }

  lemma StripPaddedRight(s: string)
    requires |s| > 0 && Trimmed(s)
    ensures Strip(s + " ") == s
  {
    var a := s + " ";
    assert SkipSpaces(a, 0, |a|) == 0;
    assert SkipSpacesBack(a, 0, |s|) == |s|;
    assert SkipSpacesBack(a, 0, |a|) == |s|;
    SliceIsSlice(a, 0, |s|);
    assert a[0..|s|] == s;
  }

  lemma StripPaddedLeft(s: string)
    requires |s| > 0 && Trimmed(s)
    ensures Strip(" " + s) == s
  {
    var b := " " + s;
    assert SkipSpaces(b, 1, |b|) == 1;
    assert SkipSpaces(b, 0, |b|) == 1;
    assert SkipSpacesBack(b, 1, |b|) == |b|;
    SliceIsSlice(b, 1, |b|);
    assert b[1..|b|] == s;
  }

  // ---------------------------------------------------------------------------
  // Parenthesis depth

  function Delta(c: char): int {
    if c == '(' then 1 else if c == ')' then -1 else 0
  }

  /** Opening minus closing parentheses in `s`. */
  function Depth(s: string): int {
    if |s| == 0 then 0 else Delta(s[0]) + Depth(s[1..])
  }

  /** The depth of the suffix starting at `i`, counted by index. */
  function SuffixDepth(s: string, i: nat): int
    requires i <= |s|
    decreases |s| - i
  {
    if i == |s| then 0 else Delta(s[i]) + SuffixDepth(s, i + 1)
  }

  lemma {:induction false} SuffixDepthIsDepth(s: string, i: nat)
    requires i <= |s|
    decreases |s| - i
    ensures SuffixDepth(s, i) == Depth(s[i..])
  {
    if i < |s| {
      assert s[i..][1..] == s[i + 1..];
      SuffixDepthIsDepth(s, i + 1);
    }
  }

  /** Balanced: no prefix closes more parentheses than it opens, and the whole opens as many as it closes. */
  predicate Closed(s: string) {
    && Depth(s) == 0
    && forall k :: 0 <= k <= |s| ==> Depth(s[..k]) >= 0
  }

  /** Balanced and wrapped by one outermost pair: every proper non-empty prefix is still open. */
  predicate Nested(s: string) {
    && Closed(s)
    && forall k :: 0 < k < |s| ==> Depth(s[..k]) >= 1
  }

  predicate NoParens(s: string) {
    forall k :: 0 <= k < |s| ==> s[k] != '(' && s[k] != ')'
  }

  lemma {:induction false} DepthConcat(a: string, b: string)
    ensures Depth(a + b) == Depth(a) + Depth(b)
  {
    if |a| == 0 {
      assert a + b == b;
    } else {
      assert (a + b)[1..] == a[1..] + b;
      DepthConcat(a[1..], b);
    }
  }

  lemma {:induction false} DepthNoParens(s: string)
    requires NoParens(s)
    ensures Depth(s) == 0
  {
    if |s| > 0 {
      DepthNoParens(s[1..]);
    }
  }

  /** The depth of a suffix is the whole depth minus the depth of the matching prefix. */
  lemma DepthSplit(s: string, k: int)
    requires 0 <= k <= |s|
    ensures Depth(s[k..]) == Depth(s) - Depth(s[..k])
  {
    assert s == s[..k] + s[k..];
    DepthConcat(s[..k], s[k..]);
  }

  lemma NoParensClosed(s: string)
    requires NoParens(s)
    ensures Closed(s)
  {
    DepthNoParens(s);
    forall k | 0 <= k <= |s|
      ensures Depth(s[..k]) >= 0
    {
      DepthNoParens(s[..k]);
    }
  }

  lemma ClosedConcat(a: string, b: string)
    requires Closed(a) && Closed(b)
    ensures Closed(a + b)
  {
    DepthConcat(a, b);
    forall k | 0 <= k <= |a + b|
      ensures Depth((a + b)[..k]) >= 0
    {
      if k <= |a| {
        assert (a + b)[..k] == a[..k];
      } else {
        assert (a + b)[..k] == a + b[..k - |a|];
        DepthConcat(a, b[..k - |a|]);
      }
    }
  }

  /** Wrapping a balanced text in one pair of parentheses nests it. */
  lemma WrapNested(inner: string)
    requires Closed(inner)
    ensures Nested("(" + inner + ")")
  {
    var s := "(" + inner + ")";
    assert s == "(" + (inner + ")");
    DepthConcat("(", inner + ")");
    DepthConcat(inner, ")");
    forall k | 0 <= k <= |s|
      ensures Depth(s[..k]) >= 0
      ensures 0 < k < |s| ==> Depth(s[..k]) >= 1
    {
      if k == 0 {
      } else if k < |s| {
        assert s[..k] == "(" + inner[..k - 1];
        DepthConcat("(", inner[..k - 1]);
      } else {
        assert s[..k] == s;
      }
    }
  }

  /** Inside a nested text, every suffix that starts after the first character closes more than it opens. */
  lemma NestedSuffix(s: string, k: int)
    requires Nested(s) && 0 < k < |s|
    ensures Depth(s[k..]) <= -1
  {
    DepthSplit(s, k);
  }
}
