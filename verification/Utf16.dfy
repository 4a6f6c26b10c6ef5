/** Cutting UTF-16 text without tearing a surrogate pair apart. */
module Utf16 {
  import opened Basics

  newtype Unit = x: int | 0 <= x < 0x10000

  type Text = seq<Unit>

  predicate IsHighSurrogate(u: Unit) {
    0xD800 <= u <= 0xDBFF
  }

  predicate IsLowSurrogate(u: Unit) {
    0xDC00 <= u <= 0xDFFF
  }

  /** Surrogates occur in pairs only (section 3.9 of the Unicode Standard). */
  ghost predicate WellFormed(s: Text) {
    && (forall i :: 0 <= i < |s| && IsHighSurrogate(s[i]) ==> i + 1 < |s| && IsLowSurrogate(s[i + 1]))
    && (forall i :: 0 <= i < |s| && IsLowSurrogate(s[i]) ==> i > 0 && IsHighSurrogate(s[i - 1]))
  }

  /** A cut at i leaves every pair whole. */
  predicate Boundary(s: Text, i: int)
    requires 0 <= i <= |s|
  {
    0 < i < |s| ==> !(IsHighSurrogate(s[i - 1]) && IsLowSurrogate(s[i]))
  }

  /** A position as slice arguments give it: negative ones count from the end. */
  function Clamp(len: nat, i: int): (r: int)
    ensures 0 <= r <= len
  {
    if i < 0 then Max(len + i, 0) else Min(i, len)
  }

  /** The range asked for, its ends in either order. */
  function Requested(len: nat, start: int, end: Option<int>): (r: (int, int))
    ensures 0 <= r.0 <= r.1 <= len
  {
    var from, to := Clamp(len, start), if end.None? then len else Clamp(len, end.value);
    if to < from then (to, from) else (from, to)
  }

  /** What a range means: two positions in the text are the range between them, in either order; a negative position
      counts from the end; positions beyond either end count as that end; and no end is the end of the text. */
  lemma RequestedRange(len: nat, a: nat, b: nat, beyond: nat, end: Option<int>)
    requires a <= b <= len
    ensures Requested(len, a, Some(b)) == (a as int, b as int) && Requested(len, b, Some(a)) == (a as int, b as int)
    ensures a < len ==> Requested(len, a - len, end) == Requested(len, a, end)
    ensures b < len ==> Requested(len, a, Some(b - len)) == Requested(len, a, Some(b))
    ensures Requested(len, len + beyond, end) == Requested(len, len, end) && Requested(len, a, Some(len + beyond)) == Requested(len, a, None)
    ensures Requested(len, 0 - len - beyond, end) == Requested(len, 0, end)
    ensures len > 0 ==> Requested(len, a, Some(0 - len - beyond)) == Requested(len, a, Some(0))
    ensures Requested(len, a, None) == (a as int, len as int)
  {
  }

  /** A run of whole code points within a range. */
  ghost predicate WholeRun(s: Text, lo: int, hi: int, a: int, b: int) {
    0 <= lo <= a <= b <= hi <= |s| && Boundary(s, a) && Boundary(s, b)
  }

  /** The slice is a run of whole code points within the range, and holds every other such run; when the
      range holds none but empty ones, the slice is empty. */
  ghost predicate LongestRun(s: Text, lo: int, hi: int, r: Text) {
    if exists a, b :: a < b && WholeRun(s, lo, hi, a, b) then
      exists f, t :: WholeRun(s, lo, hi, f, t) && r == s[f..t]
        && forall a, b :: a < b && WholeRun(s, lo, hi, a, b) ==> f <= a && b <= t
    else r == []
  }

  method SliceUtf16Safe(input: Text, start: int, end: Option<int>) returns (r: Text)
    ensures var (lo, hi) := Requested(|input|, start, end); LongestRun(input, lo, hi, r)
    ensures WellFormed(input) ==> WellFormed(r)
  {
    hide LongestRun, WellFormed;
    var len := |input|;
    var from := if start < 0 then Max(len + start, 0) else Min(start, len);
    var to := if end.None? then len else if end.value < 0 then Max(len + end.value, 0) else Min(end.value, len);
    if to < from {
      var tmp := from;
      from := to;
      to := tmp;
    }
    ghost var lo, hi := from, to;
    if from > 0 && from < len {
      var codeUnit := input[from];
      if IsLowSurrogate(codeUnit) && IsHighSurrogate(input[from - 1]) {
        from := from + 1;
      }
    }
    if to > 0 && to < len {
      var codeUnit := input[to - 1];
      if IsHighSurrogate(codeUnit) && IsLowSurrogate(input[to]) {
        to := to - 1;
      }
    }
    r := if from < to then input[from..to] else [];
    Adjusted(input, lo, hi, from, to);
    if WellFormed(input) {
      PieceWellFormed(input, from, to, r);
    }
  }

  /** Each end moves inwards by at most one, and only off the middle of a pair. */
  lemma Adjusted(s: Text, lo: int, hi: int, from: int, to: int)
    requires 0 <= lo <= hi <= |s|
    requires from == if Boundary(s, lo) then lo else lo + 1
    requires to == if Boundary(s, hi) then hi else hi - 1
    ensures 0 <= from <= |s| && 0 <= to <= |s| && Boundary(s, from) && Boundary(s, to)
    ensures LongestRun(s, lo, hi, if from < to then s[from..to] else [])
  {
    forall a, b | a < b && WholeRun(s, lo, hi, a, b) ensures from <= a && b <= to {
    }
    if from < to {
      assert WholeRun(s, lo, hi, from, to);
    }
  }

  lemma PieceWellFormed(s: Text, from: int, to: int, r: Text)
    requires WellFormed(s) && 0 <= from <= |s| && 0 <= to <= |s| && Boundary(s, from) && Boundary(s, to)
    requires r == if from < to then s[from..to] else []
    ensures WellFormed(r)
  {
    if from < to {
      forall i | 0 <= i < |r| && IsHighSurrogate(r[i]) ensures i + 1 < |r| && IsLowSurrogate(r[i + 1]) {
        assert s[from + i] == r[i] && IsLowSurrogate(s[from + i + 1]);
      }
      forall i | 0 <= i < |r| && IsLowSurrogate(r[i]) ensures i > 0 && IsHighSurrogate(r[i - 1]) {
        assert s[from + i] == r[i] && IsHighSurrogate(s[from + i - 1]);
      }
    }
  }

  /** In well-formed text a cut is at a boundary exactly when both sides are well-formed. */
  lemma BoundarySplits(s: Text, i: int)
    requires WellFormed(s) && 0 <= i <= |s|
    ensures Boundary(s, i) <==> WellFormed(s[..i]) && WellFormed(s[i..])
  {
    if Boundary(s, i) {
      PieceWellFormed(s, 0, i, s[..i]);
      PieceWellFormed(s, i, |s|, s[i..]);
    } else {
      assert s[..i][i - 1] == s[i - 1];
    }
  }

  function Limit(maxLen: real): (limit: int)
    ensures maxLen < 0.0 ==> limit == 0
    ensures maxLen >= 0.0 ==> limit as real <= maxLen < (limit + 1) as real
  {
    Max(0, maxLen.Floor)
  }

  /** The text itself when short enough, and otherwise its first `limit` units, less one if that would
      tear a pair apart. */
  function Truncated(input: Text, limit: nat): (r: Text)
    ensures r <= input && |r| <= limit
    ensures |input| > limit ==> |r| == limit || |r| == limit - 1
  {
    if |input| <= limit then input
    else if Boundary(input, limit) then input[..limit]
    else input[..limit - 1]
  }

  method TruncateUtf16Safe(input: Text, maxLen: real) returns (r: Text)
    ensures r == Truncated(input, Limit(maxLen))
    ensures WellFormed(input) ==> WellFormed(r)
  {
    var limit := Limit(maxLen);
    if |input| <= limit {
      return input;
    }
    r := SliceUtf16Safe(input, 0, Some(limit));
    LongestFromStart(input, limit, r);
  }

  /** The longest run from the start is the truncation. */
  lemma LongestFromStart(input: Text, limit: nat, r: Text)
    requires |input| > limit && LongestRun(input, 0, limit, r)
    ensures r == Truncated(input, limit)
  {
    var t := Truncated(input, limit);
    var to := if Boundary(input, limit) then limit else limit - 1;
    assert t == input[..to] && Boundary(input, to);
    if to > 0 {
      assert WholeRun(input, 0, limit, 0, to);
      var f, u :| WholeRun(input, 0, limit, f, u) && r == input[f..u]
        && forall a, b :: a < b && WholeRun(input, 0, limit, a, b) ==> f <= a && b <= u;
      assert f <= 0 && to <= u;
    }
  }

  /** Truncating again, to the same limit or a larger one, changes nothing. */
  lemma TruncateIdempotent(input: Text, limit: nat, larger: nat)
    requires limit <= larger
    ensures Truncated(Truncated(input, limit), larger) == Truncated(input, limit)
    ensures Truncated(Truncated(input, larger), limit) == Truncated(input, limit)
  {
    var t := Truncated(input, larger);
    if |t| > limit {
      assert Boundary(t, limit) <==> Boundary(input, limit) by {
        assert 0 < limit ==> t[limit - 1] == input[limit - 1];
        assert t[limit] == input[limit];
      }
      assert t[..limit] == input[..limit];
    }
  }
}
