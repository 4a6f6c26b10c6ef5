/**
 * Build floors of a release, computed from its calendar version.
 *
 * A version such as 2026.3.12-beta.4 has a date key (20260312), a legacy floor (one more
 * decimal digit) and a lane floor (two more digits, the lane). The floors are made by
 * printing numbers, padding, concatenating and reading back, as in the source; the
 * lemmas say how they compare.
 */
module SparkleBuild {
  import opened Basics
  import opened JsText

  // ---------------------------------------------------------------- decimal numerals

  predicate IsDigit(c: char) {
    '0' <= c <= '9'
  }

  predicate AllDigits(s: string) {
    forall i :: 0 <= i < |s| ==> IsDigit(s[i])
  }

  /** `Number(s)` of a text of digits. */
  function Value(s: string): nat
    requires AllDigits(s)
  {
    if s == "" then 0 else Value(s[..|s| - 1]) * 10 + (s[|s| - 1] as int - '0' as int)
  }

  /** `String(n)`. */
  function Numeral(n: nat): string {
    if n < 10 then [n as char + '0'] else Numeral(n / 10) + [(n % 10) as char + '0']
  }

  /** `s.padStart(2, "0")`. */
  function PadTwo(s: string): string {
    if |s| >= 2 then s else if |s| == 1 then "0" + s else "00"
  }

  lemma {:induction false} NumeralReads(n: nat)
    ensures AllDigits(Numeral(n)) && Numeral(n) != "" && Value(Numeral(n)) == n
  {
    if n >= 10 {
      NumeralReads(n / 10);
      AppendDigit(Numeral(n / 10), (n % 10) as char + '0');
    } else {
      AppendDigit("", n as char + '0');
    }
  }

  lemma AppendDigit(a: string, c: char)
    requires AllDigits(a) && IsDigit(c)
    ensures AllDigits(a + [c]) && Value(a + [c]) == Value(a) * 10 + (c as int - '0' as int)
  {
    assert (a + [c])[..|a|] == a;
  }

  lemma AppendTwoDigits(a: string, c: char, d: char)
    requires AllDigits(a) && IsDigit(c) && IsDigit(d)
    ensures AllDigits(a + [c] + [d])
    ensures Value(a + [c] + [d]) == Value(a) * 100 + (c as int - '0' as int) * 10 + (d as int - '0' as int)
  {
    AppendDigit(a, c);
    AppendDigit(a + [c], d);
  }

  lemma TwoChars(a: string, b: string)
    requires |b| == 2
    ensures a + b == a + [b[0]] + [b[1]]
  {
  }

  lemma AppendTwo(a: string, b: string)
    requires AllDigits(a) && AllDigits(b) && |b| == 2
    ensures AllDigits(a + b) && Value(a + b) == Value(a) * 100 + Value(b)
  {
    AppendTwoDigits(a, b[0], b[1]);
    AppendTwoDigits("", b[0], b[1]);
    assert Value("") == 0;
    hide Value, AllDigits, IsDigit;
    TwoChars(a, b);
    TwoChars("", b);
    assert "" + b == b;
  }

  lemma PadTwoReads(n: nat)
    requires n < 100
    ensures var p := PadTwo(Numeral(n)); |p| == 2 && AllDigits(p) && Value(p) == n
  {
    NumeralReads(n);
    if n < 10 {
      AppendDigit("", '0');
      AppendDigit("0", n as char + '0');
      assert "" + "0" == "0";
    } else {
      assert Numeral(n) == Numeral(n / 10) + [(n % 10) as char + '0'];
      assert Numeral(n / 10) == [(n / 10) as char + '0'];
    }
  }

  lemma {:induction false} ValueBelow(s: string)
    requires AllDigits(s)
    ensures Value(s) < Pow10(|s|)
  {
    if s != "" {
      ValueBelow(s[..|s| - 1]);
    }
  }

  lemma {:induction false} LeadingZero(s: string)
    requires AllDigits(s)
    ensures AllDigits("0" + s) && Value("0" + s) == Value(s)
  {
    if s != "" {
      var n := |s| - 1;
      LeadingZero(s[..n]);
      assert "0" + s == "0" + s[..n] + [s[n]];
      AppendDigit("0" + s[..n], s[n]);
    } else {
      AppendDigit("", '0');
      assert "0" + "" == "" + "0";
    }
  }

  function Pow10(n: nat): nat {
    if n == 0 then 1 else 10 * Pow10(n - 1)
  }

  // ---------------------------------------------------------------- calendar versions

  datatype Calver = Calver(year: string, month: string, day: string, suffix: string)

  /** What `.` in a pattern does not match. */
  predicate IsLineTerminator(c: char) {
    c == '\n' || c == '\r' || c == '\U{2028}' || c == '\U{2029}'
  }

  predicate IsSuffix(s: string) {
    s == "" || (s[0] in ".-" && forall i :: 0 <= i < |s| ==> !IsLineTerminator(s[i]))
  }

  function DigitRun(s: string): (n: nat)
    ensures n <= |s| && AllDigits(s[..n]) && (n < |s| ==> !IsDigit(s[n]))
  {
    if s != "" && IsDigit(s[0]) then
      var n := DigitRun(s[1..]);
      assert s[..n + 1] == [s[0]] + s[1..][..n];
      n + 1
    else 0
  }

  /** Matches the pattern: four digits, one or two, one or two, and possibly a suffix. */
  function MatchCalver(t: string): Option<Calver> {
    if |t| < 5 || !AllDigits(t[..4]) || t[4] != '.' then None
    else
      var a := t[5..];
      var m := DigitRun(a);
      if !(1 <= m <= 2) || |a| == m || a[m] != '.' then None
      else
        var b := a[m + 1..];
        var d := DigitRun(b);
        if !(1 <= d <= 2) || !IsSuffix(b[d..]) then None
        else Some(Calver(t[..4], a[..m], b[..d], b[d..]))
  }

  /** What the pattern means: the text is these parts, in this order. */
  predicate IsCalver(t: string, c: Calver) {
    && AllDigits(c.year) && |c.year| == 4
    && AllDigits(c.month) && 1 <= |c.month| <= 2
    && AllDigits(c.day) && 1 <= |c.day| <= 2
    && IsSuffix(c.suffix)
    && t == c.year + ("." + (c.month + ("." + (c.day + c.suffix))))
  }

  lemma {:induction false} DigitRunOf(digits: string, rest: string)
    requires AllDigits(digits) && (rest == "" || !IsDigit(rest[0]))
    ensures DigitRun(digits + rest) == |digits|
  {
    if digits == "" {
      assert digits + rest == rest;
    } else {
      assert (digits + rest)[1..] == digits[1..] + rest;
      DigitRunOf(digits[1..], rest);
    }
  }

  /** The pattern splits a text in one way, and the match finds it. */
  lemma MatchIsTheSplit(t: string, c: Calver)
    ensures MatchCalver(t) == Some(c) <==> IsCalver(t, c)
  {
    if IsCalver(t, c) {
      var b := c.day + c.suffix;
      var a := c.month + ("." + b);
      assert t == c.year + ("." + a);
      assert t[..4] == c.year && t[4] == '.' && t[5..] == a;
      DigitRunOf(c.month, "." + b);
      assert a[|c.month|] == '.' && a[|c.month| + 1..] == b && a[..|c.month|] == c.month;
      DigitRunOf(c.day, c.suffix);
      assert b[..|c.day|] == c.day && b[|c.day|..] == c.suffix;
    }
    if MatchCalver(t) == Some(c) {
      MatchedParts(t, c);
    }
  }

  lemma MatchedParts(t: string, c: Calver)
    requires MatchCalver(t) == Some(c)
    ensures IsCalver(t, c)
  {
    MatchedFields(t, c);
    hide IsSuffix, AllDigits, MatchCalver, DigitRun;
    var a := t[5..];
    var b := a[|c.month| + 1..];
    var b' := c.day + c.suffix;
    assert b == b[..|c.day|] + b[|c.day|..] == b';
    CutAt(a, |c.month|, c.month, b');
    CutAt(t, 4, c.year, c.month + ("." + b'));
  }

  lemma MatchedFields(t: string, c: Calver)
    requires MatchCalver(t) == Some(c)
    ensures AllDigits(c.year) && |c.year| == 4 && AllDigits(c.month) && 1 <= |c.month| <= 2 && AllDigits(c.day) && 1 <= |c.day| <= 2
    ensures IsSuffix(c.suffix)
    ensures |t| > 5 + |c.month| && t[..4] == c.year && t[4] == '.'
    ensures t[5..][..|c.month|] == c.month && t[5..][|c.month|] == '.'
    ensures var b := t[5..][|c.month| + 1..]; |b| >= |c.day| && b[..|c.day|] == c.day && b[|c.day|..] == c.suffix
  {
    hide IsSuffix, AllDigits, DigitRun;
  }

  lemma CutAt(t: string, i: nat, head: string, rest: string)
    requires i < |t| && t[i] == '.' && t[..i] == head && t[i + 1..] == rest
    ensures t == head + ("." + rest)
  {
  }

  // ---------------------------------------------------------------- floors

  datatype Floors = Floors(dateKey: nat, legacyFloor: nat, laneFloor: nat, lane: nat)

  function TrailingDigits(s: string): (r: string)
    ensures AllDigits(r)
  {
    if s != "" && IsDigit(s[|s| - 1]) then TrailingDigits(s[..|s| - 1]) + [s[|s| - 1]] else ""
  }

  function Lane(suffix: string): (lane: nat)
    ensures lane <= 90 && (lane == 90 <==> suffix == "")
  {
    if suffix == "" then 90
    else
      var number := TrailingDigits(suffix);
      if number == "" then 1 else if Value(number) < 89 then Value(number) else 89
  }

  function Zeros(n: nat): string {
    if n == 0 then "" else "0" + Zeros(n - 1)
  }

  lemma {:induction false} PaddedReads(z: nat, n: nat)
    ensures AllDigits(Zeros(z) + Numeral(n)) && Zeros(z) + Numeral(n) != "" && Value(Zeros(z) + Numeral(n)) == n
  {
    hide Value, AllDigits, Numeral;
    if z == 0 {
      NumeralReads(n);
      assert "" + Numeral(n) == Numeral(n);
    } else {
      PaddedReads(z - 1, n);
      LeadingZero(Zeros(z - 1) + Numeral(n));
      assert Zeros(z) + Numeral(n) == "0" + (Zeros(z - 1) + Numeral(n));
    }
  }

  /** A word that a build number can follow: it does not end in a digit itself. */
  predicate IsStem(s: string) {
    s != "" && !IsDigit(s[|s| - 1])
  }

  lemma {:induction false} TrailingDigitsOf(stem: string, digits: string)
    requires IsStem(stem) && AllDigits(digits)
    ensures TrailingDigits(stem + digits) == digits
    decreases |digits|
  {
    if digits != "" {
      var n := |digits| - 1;
      TrailingDigitsOf(stem, digits[..n]);
      assert (stem + digits)[..|stem| + n] == stem + digits[..n];
      assert digits == digits[..n] + [digits[n]];
    } else {
      assert stem + digits == stem;
    }
  }

  /** A suffix that ends in the number n, with leading zeros or without, is in lane n, or 89 for larger numbers;
      one without a number is in lane 1. */
  lemma LaneOfNumber(stem: string, zeros: nat, n: nat)
    requires IsStem(stem)
    ensures Lane(stem + (Zeros(zeros) + Numeral(n))) == if n < 89 then n else 89
    ensures Lane(stem) == 1
  {
    PaddedReads(zeros, n);
    TrailingDigitsOf(stem, Zeros(zeros) + Numeral(n));
    TrailingDigitsOf(stem, "");
    assert stem + "" == stem;
  }

  /** Printing, padding, concatenating and reading back. */
  function DateKey(year: nat, month: nat, day: nat): nat
    requires month < 100 && day < 100
  {
    var text := Numeral(year) + PadTwo(Numeral(month)) + PadTwo(Numeral(day));
    DateKeyReads(year, month, day);
    Value(text)
  }

  lemma DateKeyReads(year: nat, month: nat, day: nat)
    requires month < 100 && day < 100
    ensures var text := Numeral(year) + PadTwo(Numeral(month)) + PadTwo(Numeral(day));
      AllDigits(text) && Value(text) == year * 10000 + month * 100 + day
  {
    NumeralReads(year);
    PadTwoReads(month);
    PadTwoReads(day);
    AppendTwo(Numeral(year), PadTwo(Numeral(month)));
    AppendTwo(Numeral(year) + PadTwo(Numeral(month)), PadTwo(Numeral(day)));
  }

  function FloorsOf(year: nat, month: nat, day: nat, suffix: string): Floors
    requires month < 100 && day < 100
  {
    var dateKey := DateKey(year, month, day);
    var lane := Lane(suffix);
    NumeralReads(dateKey);
    AppendDigit(Numeral(dateKey), '0');
    PadTwoReads(lane);
    AppendTwo(Numeral(dateKey), PadTwo(Numeral(lane)));
    Floors(dateKey, Value(Numeral(dateKey) + "0"), Value(Numeral(dateKey) + PadTwo(Numeral(lane))), lane)
  }

  /** The same floors by arithmetic. */
  function FloorsFor(year: nat, month: nat, day: nat, suffix: string): Floors {
    var dateKey := year * 10000 + month * 100 + day;
    Floors(dateKey, dateKey * 10, dateKey * 100 + Lane(suffix), Lane(suffix))
  }

  lemma FloorsByArithmetic(year: nat, month: nat, day: nat, suffix: string)
    requires month < 100 && day < 100
    ensures FloorsOf(year, month, day, suffix) == FloorsFor(year, month, day, suffix)
  {
    hide Value, Numeral, PadTwo, Lane;
    DateKeyReads(year, month, day);
    var dateKey := DateKey(year, month, day);
    NumeralReads(dateKey);
    AppendDigit(Numeral(dateKey), '0');
    PadTwoReads(Lane(suffix));
    AppendTwo(Numeral(dateKey), PadTwo(Numeral(Lane(suffix))));
  }

  predicate IsDate(year: nat, month: nat, day: nat) {
    year < 10000 && 1 <= month <= 12 && 1 <= day <= 31
  }

  function SparkleBuildFloors(shortVersion: string): Option<Floors> {
    match MatchCalver(Trim(shortVersion))
    case None => None
    case Some(c) =>
      MatchIsTheSplit(Trim(shortVersion), c);
      var year, month, day := Value(c.year), Value(c.month), Value(c.day);
      if month < 1 || month > 12 || day < 1 || day > 31 then None
      else Some(FloorsOf(year, month, day, c.suffix))
  }

  /** The version reads as this date and suffix. */
  ghost predicate Dated(shortVersion: string, year: nat, month: nat, day: nat, suffix: string) {
    exists c :: IsCalver(Trim(shortVersion), c) && Reads(c, year, month, day, suffix)
  }

  ghost predicate Reads(c: Calver, year: nat, month: nat, day: nat, suffix: string)
    requires AllDigits(c.year) && AllDigits(c.month) && AllDigits(c.day)
  {
    Value(c.year) == year && Value(c.month) == month && Value(c.day) == day && c.suffix == suffix
  }

  lemma YearBelow(t: string, c: Calver)
    requires IsCalver(t, c)
    ensures Value(c.year) < 10000
  {
    ValueBelow(c.year);
    assert Pow10(4) == 10000;
  }

  /** A version that has floors reads as a date, and the floors are those of the date. */
  lemma FloorsOfDate(shortVersion: string)
      returns (year: nat, month: nat, day: nat, suffix: string)
    requires SparkleBuildFloors(shortVersion).Some?
    ensures Dated(shortVersion, year, month, day, suffix) && IsDate(year, month, day)
    ensures SparkleBuildFloors(shortVersion).value == FloorsFor(year, month, day, suffix)
  {
    hide Value, FloorsOf, FloorsFor, MatchCalver, Trim, AllDigits;
    var c := MatchCalver(Trim(shortVersion)).value;
    MatchIsTheSplit(Trim(shortVersion), c);
    YearBelow(Trim(shortVersion), c);
    year, month, day, suffix := Value(c.year), Value(c.month), Value(c.day), c.suffix;
    assert Reads(c, year, month, day, suffix);
    FloorsByArithmetic(year, month, day, suffix);
  }

  /** A version that reads as numbers has floors exactly when they are a date of a calendar whose months have up to 31 days. */
  lemma FloorsExist(shortVersion: string, year: nat, month: nat, day: nat, suffix: string)
    requires Dated(shortVersion, year, month, day, suffix)
    ensures SparkleBuildFloors(shortVersion) == if IsDate(year, month, day) then Some(FloorsFor(year, month, day, suffix)) else None
  {
    hide Value, FloorsOf, FloorsFor, MatchCalver, Trim, AllDigits;
    var t := Trim(shortVersion);
    var c :| IsCalver(t, c) && Reads(c, year, month, day, suffix);
    MatchIsTheSplit(t, c);
    YearBelow(t, c);
    if IsDate(year, month, day) {
      FloorsByArithmetic(year, month, day, suffix);
    }
  }

  predicate DateBefore(y1: nat, m1: nat, d1: nat, y2: nat, m2: nat, d2: nat) {
    y1 < y2 || (y1 == y2 && (m1 < m2 || (m1 == m2 && d1 < d2)))
  }

  /**
   * Lane floors order releases: by date whatever the suffixes, a plain release above every suffixed
   * build of its day, suffixed builds of a day by their lane. Legacy floors order them by date.
   */
  lemma LaneFloorsOrderReleases(a: string, y1: nat, m1: nat, d1: nat, s1: string, b: string, y2: nat, m2: nat, d2: nat, s2: string)
    requires Dated(a, y1, m1, d1, s1) && IsDate(y1, m1, d1)
    requires Dated(b, y2, m2, d2, s2) && IsDate(y2, m2, d2)
    ensures SparkleBuildFloors(a).Some? && SparkleBuildFloors(b).Some?
    ensures var f, g := SparkleBuildFloors(a).value, SparkleBuildFloors(b).value;
      && (f.laneFloor < g.laneFloor <==> DateBefore(y1, m1, d1, y2, m2, d2) || (y1 == y2 && m1 == m2 && d1 == d2 && Lane(s1) < Lane(s2)))
      && (f.legacyFloor < g.legacyFloor <==> DateBefore(y1, m1, d1, y2, m2, d2))
    ensures s1 != "" && s2 == "" ==> Lane(s1) < Lane(s2)
  {
    hide Dated, SparkleBuildFloors, Lane;
    FloorsExist(a, y1, m1, d1, s1);
    FloorsExist(b, y2, m2, d2, s2);
  }

  /** What the lane floors of the builds of one day are: the date with the number of the build, with 1 when
      it has none, and with 90 for the release itself. */
  lemma LaneFloorOfBuild(version: string, year: nat, month: nat, day: nat, stem: string, zeros: nat, n: nat)
    requires IsDate(year, month, day) && IsStem(stem)
    ensures var date := year * 10000 + month * 100 + day;
      && (Dated(version, year, month, day, stem + (Zeros(zeros) + Numeral(n))) ==>
            SparkleBuildFloors(version).Some? && SparkleBuildFloors(version).value.laneFloor == date * 100 + if n < 89 then n else 89)
      && (Dated(version, year, month, day, stem) ==>
            SparkleBuildFloors(version).Some? && SparkleBuildFloors(version).value.laneFloor == date * 100 + 1)
      && (Dated(version, year, month, day, "") ==>
            SparkleBuildFloors(version).Some? && SparkleBuildFloors(version).value.laneFloor == date * 100 + 90)
  {
    LaneOfNumber(stem, zeros, n);
    hide Dated, SparkleBuildFloors, Lane, IsDate, Zeros, Numeral;
    if Dated(version, year, month, day, stem + (Zeros(zeros) + Numeral(n))) {
      FloorsExist(version, year, month, day, stem + (Zeros(zeros) + Numeral(n)));
    }
    if Dated(version, year, month, day, stem) {
      FloorsExist(version, year, month, day, stem);
    }
    if Dated(version, year, month, day, "") {
      FloorsExist(version, year, month, day, "");
    }
  }

  /** Of two numbered builds of one day the one with the smaller number, up to 89, ranks below. */
  lemma NumberedBuildsInOrder(a: string, stemA: string, zerosA: nat, m: nat, b: string, stemB: string, zerosB: nat, n: nat,
                              year: nat, month: nat, day: nat)
    requires IsDate(year, month, day) && IsStem(stemA) && IsStem(stemB) && m < n <= 89
    requires Dated(a, year, month, day, stemA + (Zeros(zerosA) + Numeral(m)))
    requires Dated(b, year, month, day, stemB + (Zeros(zerosB) + Numeral(n)))
    ensures SparkleBuildFloors(a).Some? && SparkleBuildFloors(b).Some?
    ensures SparkleBuildFloors(a).value.laneFloor < SparkleBuildFloors(b).value.laneFloor
  {
    hide *;
    LaneFloorOfBuild(a, year, month, day, stemA, zerosA, m);
    LaneFloorOfBuild(b, year, month, day, stemB, zerosB, n);
  }

  const LANE_BUILD_MIN: nat := 1_000_000_000

  /** One number separates the two schemes: legacy floors are below it, lane floors at or above it exactly from the year 1000 on. */
  lemma SchemesApart(shortVersion: string, year: nat, month: nat, day: nat, suffix: string)
    requires Dated(shortVersion, year, month, day, suffix) && IsDate(year, month, day)
    ensures SparkleBuildFloors(shortVersion).Some?
    ensures var f := SparkleBuildFloors(shortVersion).value;
      f.legacyFloor < 1_000_000_000 == LANE_BUILD_MIN && (f.laneFloor >= LANE_BUILD_MIN <==> year >= 1000)
  {
    hide Dated, SparkleBuildFloors, Lane;
    FloorsExist(shortVersion, year, month, day, suffix);
  }
}
