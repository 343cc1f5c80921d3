/**
 * The JavaScript string operations the reconciliation engine relies on, over
 * `string` (a sequence of Unicode scalar values): `trim`, `startsWith`,
 * `endsWith`, `includes`, the second piece of `split`, and `toLowerCase`
 * restricted to ASCII letters.
 */
module Text {
  import opened Wrappers

  /** The characters `String.prototype.trim` strips: ECMAScript WhiteSpace and LineTerminator. */
  predicate IsWhitespace(c: char) {
    c == '\t' || c == '\n' || c == '\U{B}' || c == '\U{C}' || c == '\r' || c == ' '
    || c == '\U{A0}' || c == '\U{1680}' || ('\U{2000}' <= c <= '\U{200A}')
    || c == '\U{2028}' || c == '\U{2029}' || c == '\U{202F}' || c == '\U{205F}'
    || c == '\U{3000}' || c == '\U{FEFF}'
  }

  predicate AllWhitespace(s: string) {
    forall k :: 0 <= k < |s| ==> IsWhitespace(s[k])
  }

  /** Neither end of `s` is whitespace, so `trim` leaves it as it is. */
  predicate Trimmed(s: string) {
    s == [] || (!IsWhitespace(s[0]) && !IsWhitespace(s[|s| - 1]))
  }

  /** `r` is the slice of `s` starting at `i`, with only whitespace before and after it. */
  predicate WhitespaceCutAt(s: string, r: string, i: int) {
    0 <= i <= |s| - |r| && r == s[i..i + |r|]
    && (forall k :: 0 <= k < i ==> IsWhitespace(s[k]))
    && (forall k :: i + |r| <= k < |s| ==> IsWhitespace(s[k]))
  }

  /** `r` is a slice of `s` with only whitespace before and after it. */
  ghost predicate WhitespaceCut(s: string, r: string) {
    exists i :: WhitespaceCutAt(s, r, i)
  }

  /** The index of the first character at or after `i` that is not whitespace, or `|s|`. */
  function SkipLeading(s: string, i: nat): (b: nat)
    requires i <= |s|
    ensures i <= b <= |s|
    ensures forall k :: i <= k < b ==> IsWhitespace(s[k])
    ensures b < |s| ==> !IsWhitespace(s[b])
    decreases |s| - i
  {
    if i < |s| && IsWhitespace(s[i]) then SkipLeading(s, i + 1) else i
  }

  /** The index just past the last character before `j`, and not before `lo`, that is not whitespace, or `lo`. */
  function SkipTrailing(s: string, lo: nat, j: nat): (e: nat)
    requires lo <= j <= |s|
    ensures lo <= e <= j
    ensures forall k :: e <= k < j ==> IsWhitespace(s[k])
    ensures lo < e ==> !IsWhitespace(s[e - 1])
    decreases j
  {
    if lo < j && IsWhitespace(s[j - 1]) then SkipTrailing(s, lo, j - 1) else j
  }

  /**
   * `s.trim()`: the longest slice of `s` whose ends are not whitespace; only
   * whitespace is cut, and it is empty exactly when `s` is all whitespace.
   */
  function Trim(s: string): (r: string)
    ensures Trimmed(r)
    ensures WhitespaceCut(s, r)
    ensures r == [] <==> AllWhitespace(s)
    ensures Trimmed(s) ==> r == s
  {
    var b := SkipLeading(s, 0);
    var e := SkipTrailing(s, b, |s|);
    var r := s[b..e];
    assert WhitespaceCutAt(s, r, b);
    TrimmedCut(s, r, b);
    r
  }

  /** A cut whose ends are not whitespace is empty only for an all-whitespace string, and cuts nothing from a trimmed one. */
  lemma TrimmedCut(s: string, r: string, i: int)
    requires Trimmed(r) && WhitespaceCutAt(s, r, i)
    ensures r == [] <==> AllWhitespace(s)
    ensures Trimmed(s) ==> r == s
  {
    assert r != [] ==> r[0] == s[i];
    assert s != [] && Trimmed(s) ==> i == 0 && i + |r| == |s|;
    assert s[0..|s|] == s;
  }

  /** A non-empty whitespace cut with no whitespace at its ends is the trim: `Trim` is characterised by its contract. */
  lemma CutIsTrim(s: string, r: string)
    requires WhitespaceCut(s, r) && Trimmed(r) && r != []
    ensures r == Trim(s)
  {
    var t := Trim(s);
    var i :| WhitespaceCutAt(s, r, i);
    var j :| WhitespaceCutAt(s, t, j);
    assert r[0] == s[i] && r[|r| - 1] == s[i + |r| - 1];
    assert t != [] by {
      assert !IsWhitespace(s[i]);
    }
    assert t[0] == s[j] && t[|t| - 1] == s[j + |t| - 1];
    assert i == j;
    assert i + |r| == j + |t|;
  }

  /** Trimming whitespace followed by a trimmed, non-empty string gives that string. */
  lemma TrimAfterWhitespace(w: string, t: string)
    requires AllWhitespace(w) && Trimmed(t) && t != []
    ensures Trim(w + t) == t
  {
    var s := w + t;
    var r := Trim(s);
    var i :| WhitespaceCutAt(s, r, i);
    assert s[|w|] == t[0] && s[|s| - 1] == t[|t| - 1];
    assert r != [];
    assert r[0] == s[i] && r[|r| - 1] == s[i + |r| - 1];
    assert i == |w|;
    assert i + |r| == |s|;
    assert r == s[|w|..] == t;
  }

  /**
   * Cutting whitespace off both ends keeps a suffix whose first and last
   * characters are not whitespace.
   */
  lemma CutKeepsTail(s: string, r: string, tail: string)
    requires WhitespaceCut(s, r) && EndsWith(s, tail) && tail != []
    requires !IsWhitespace(tail[0]) && !IsWhitespace(tail[|tail| - 1])
    ensures EndsWith(r, tail)
  {
    var i :| WhitespaceCutAt(s, r, i);
    var j := |s| - |tail|;
    assert s[j] == tail[0] && s[|s| - 1] == tail[|tail| - 1];
    assert r[|r| - |tail|..] == s[j..] == tail;
  }

  /** `s.startsWith(p)`. */
  predicate StartsWith(s: string, p: string) {
    |p| <= |s| && s[..|p|] == p
  }

  /** `s.endsWith(p)`. */
  predicate EndsWith(s: string, p: string) {
    |p| <= |s| && s[|s| - |p|..] == p
  }

  /** `p` occurs in `s` starting at index `k`. */
  predicate OccursAt(s: string, p: string, k: int) {
    0 <= k && k + |p| <= |s| && s[k..k + |p|] == p
  }

  /** `s.indexOf(p)` as an option: the first index at which `p` occurs in `s`. */
  function IndexOf(s: string, p: string): (r: Option<nat>)
    ensures r.Some? ==> OccursAt(s, p, r.value)
    ensures forall k :: 0 <= k && (r.None? || k < r.value) ==> !OccursAt(s, p, k)
    decreases |s|
  {
    if |s| < |p| then None
    else if s[..|p|] == p then Some(0)
    else
      var rest := IndexOf(s[1..], p);
      assert forall k :: 0 < k && (rest.None? || k - 1 < rest.value) ==> !OccursAt(s, p, k) by {
        forall k | 0 < k && (rest.None? || k - 1 < rest.value)
          ensures !OccursAt(s, p, k)
        {
          if OccursAt(s, p, k) {
            assert s[1..][k - 1..k - 1 + |p|] == s[k..k + |p|];
            assert OccursAt(s[1..], p, k - 1);
          }
        }
      }
      if rest.None? then None
      else
        assert s[1..][rest.value..rest.value + |p|] == s[rest.value + 1..rest.value + 1 + |p|];
        Some(rest.value + 1)
  }

  /** `h.includes(n)`. */
  predicate Contains(h: string, n: string) {
    IndexOf(h, n).Some?
  }

  /**
   * `s.split(p)[1]` for an `s` that starts with a non-empty `p`: the text
   * between the first occurrence of `p` (at index 0) and the second, or the
   * rest of `s` when there is no second occurrence.
   */
  function SecondPiece(s: string, p: string): (r: string)
    requires p != [] && StartsWith(s, p)
    ensures StartsWith(s[|p|..], r)
    ensures forall k :: 0 <= k < |r| ==> !OccursAt(s[|p|..], p, k)
    ensures |p| + |r| == |s| || StartsWith(s[|p| + |r|..], p)
  {
    var rest := s[|p|..];
    match IndexOf(rest, p)
    case None => rest
    case Some(q) =>
      assert rest[q..][..|p|] == rest[q..q + |p|];
      rest[..q]
  }

  /** `c.toLowerCase()` for ASCII letters; every other character is kept. */
  function LowerChar(c: char): (r: char)
    ensures 'A' <= c <= 'Z' ==> 'a' <= r <= 'z' && r as int - c as int == 32
    ensures !('A' <= c <= 'Z') ==> r == c
  {
    if 'A' <= c <= 'Z' then (c as int + 32) as char else c
  }

  /** `s.toLowerCase()`, character by character. */
  function Lower(s: string): (r: string)
    ensures |r| == |s| && forall k :: 0 <= k < |s| ==> r[k] == LowerChar(s[k])
  {
    seq(|s|, k requires 0 <= k < |s| => LowerChar(s[k]))
  }

}
