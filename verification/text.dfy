/** The part of JavaScript's `String.prototype.trim` the component relies on:
    stripping white space and line terminators from both ends of a name. */
module Text {

  /** White space and line terminators as `trim` strips them: tab, vertical
      tab, form feed, space, no-break space, the byte-order mark, the
      space separators of Unicode category Zs, and the four line terminators. */
  predicate IsSpace(c: char) {
    || c == '\t' || c == '\n' || c == '\U{000B}' || c == '\U{000C}' || c == '\r'
    || c == ' ' || c == '\U{00A0}' || c == '\U{1680}'
    || ('\U{2000}' <= c <= '\U{200A}')
    || c == '\U{2028}' || c == '\U{2029}' || c == '\U{202F}' || c == '\U{205F}'
    || c == '\U{3000}' || c == '\U{FEFF}'
  }

  /** Every character of `s` is white space (so `s.trim()` is falsy). */
  predicate Blank(s: string) {
    forall k :: 0 <= k < |s| ==> IsSpace(s[k])
  }

  /** `s` without its leading white space. */
  function TrimStart(s: string): (r: string)
    ensures |r| <= |s| && r == s[|s| - |r|..]
    ensures forall k :: 0 <= k < |s| - |r| ==> IsSpace(s[k])
    ensures r == [] || !IsSpace(r[0])
  {
    if |s| > 0 && IsSpace(s[0]) then TrimStart(s[1..]) else s
  }

  /** `s` without its trailing white space. */
  function TrimEnd(s: string): (r: string)
    ensures |r| <= |s| && r == s[..|r|]
    ensures forall k :: |r| <= k < |s| ==> IsSpace(s[k])
    ensures r == [] || !IsSpace(r[|r| - 1])
  {
    if |s| > 0 && IsSpace(s[|s| - 1]) then TrimEnd(s[..|s| - 1]) else s
  }

  /** `r` is the slice of `s` starting at `i`, and everything of `s` before
      and after that slice is white space. */
  predicate Strips(s: string, r: string, i: nat) {
    && i + |r| <= |s|
    && r == s[i..i + |r|]
    && (forall k :: 0 <= k < i ==> IsSpace(s[k]))
    && (forall k :: i + |r| <= k < |s| ==> IsSpace(s[k]))
  }

  /** A prefix `r` of the suffix `s[d..]`, with white space before `d` and
      after the prefix, is a stripped slice of `s`. */
  lemma StripsSlice(s: string, d: nat, r: string)
    requires d <= |s| && |r| <= |s| - d && r == s[d..][..|r|]
    requires forall k :: 0 <= k < d ==> IsSpace(s[k])
    requires forall k :: |r| <= k < |s| - d ==> IsSpace(s[d..][k])
    ensures Strips(s, r, d)
  {
    assert s[d..][..|r|] == s[d..d + |r|];
    forall k | d + |r| <= k < |s|
      ensures IsSpace(s[k])
    {
      assert s[k] == s[d..][k - d];
    }
  }

  /** A stripped slice that does not start with white space is empty
      exactly when the whole text is white space. */
  lemma StripsBlank(s: string, r: string, i: nat)
    requires Strips(s, r, i)
    requires r == [] || !IsSpace(r[0])
    ensures r == [] <==> Blank(s)
  {
    if r != [] {
      assert s[i] == r[0];
    }
  }

  /** What stripping the front of `s` and then the back of what is left
      gives: a slice of `s` with only white space on either side, empty
      exactly when `s` is blank, and otherwise without white space at
      either end. */
  lemma StripsBothEnds(s: string, front: string, r: string)
    requires |front| <= |s| && front == s[|s| - |front|..]
    requires forall k :: 0 <= k < |s| - |front| ==> IsSpace(s[k])
    requires front == [] || !IsSpace(front[0])
    requires |r| <= |front| && r == front[..|r|]
    requires forall k :: |r| <= k < |front| ==> IsSpace(front[k])
    requires r == [] || !IsSpace(r[|r| - 1])
    ensures Strips(s, r, |s| - |front|)
    ensures r == [] <==> Blank(s)
    ensures r != [] ==> !IsSpace(r[0]) && !IsSpace(r[|r| - 1])
  {
    var d := |s| - |front|;
    StripsSlice(s, d, r);
    if r != [] {
      assert r[0] == front[0];
    }
    StripsBlank(s, r, d);
  }

  /** `s.trim()`: the result is a slice of `s` with only white space on
      either side of it; it is empty exactly when `s` is blank, and otherwise
      starts and ends with a character that is not white space. */
  function Trim(s: string): (r: string)
    ensures |r| <= |s|
    ensures exists i :: Strips(s, r, i)
    ensures r == [] <==> Blank(s)
    ensures r != [] ==> !IsSpace(r[0]) && !IsSpace(r[|r| - 1])
  {
    var front := TrimStart(s);
    var r := TrimEnd(front);
    StripsBothEnds(s, front, r);
    r
  }
}
