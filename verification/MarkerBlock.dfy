/**
 * Replacing the lines between two markers in a document.
 *
 * The replacement starts at the line that holds the first start marker and ends
 * with the line that holds the first end marker after it. `ReplaceKeepsOutside`
 * says what is kept, `ReplaceIdempotent` says exactly when a second replacement
 * with the same lines changes nothing.
 */
module MarkerBlock {
  import opened Basics
  import opened JsText

  datatype Result = Replaced(text: string) | MissingStart | MissingEnd

  /** `s.indexOf(t, from)`; none stands for -1. */
  function IndexOf(s: string, t: string, from: nat): (r: Option<nat>)
    ensures r.Some? ==> from <= r.value <= |s| && OccursAt(s, t, r.value) && forall j :: from <= j < r.value ==> !OccursAt(s, t, j)
    ensures r.None? ==> forall j :: from <= j <= |s| ==> !OccursAt(s, t, j)
    decreases |s| - from
  {
    if from > |s| then None
    else if OccursAt(s, t, from) then Some(from)
    else IndexOf(s, t, from + 1)
  }

  /** Where the line holding position i begins: `s.lastIndexOf("\n", i) + 1`. */
  function LineStart(s: string, i: nat): (r: nat)
    requires i < |s|
    ensures r <= i + 1 && (r > 0 ==> s[r - 1] == '\n') && forall k :: r <= k <= i ==> s[k] != '\n'
  {
    if s[i] == '\n' then i + 1
    else if i == 0 then 0
    else LineStart(s, i - 1)
  }

  /** `lines.join("\n")`. */
  function Join(lines: seq<string>): string {
    if lines == [] then ""
    else if |lines| == 1 then lines[0]
    else lines[0] + "\n" + Join(lines[1..])
  }

  function Indented(indent: string, lines: seq<string>): (r: seq<string>)
    ensures |r| == |lines| && forall i :: 0 <= i < |lines| ==> r[i] == indent + lines[i]
  {
    seq(|lines|, i requires 0 <= i < |lines| => indent + lines[i])
  }

  /** What follows the line that holds position e. */
  function AfterLine(s: string, e: nat): string
    requires e <= |s|
  {
    match IndexOf(s, "\n", e)
    case None => ""
    case Some(n) => if n < |s| then s[n + 1..] else ""
  }

  /** The rest of the document behind the block: nothing, or a line break and the text. */
  function Tail(after: string): string {
    if after == "" then "" else "\n" + after
  }

  function Block(indent: string, startMarker: string, endMarker: string, lines: seq<string>): string {
    Join([indent + startMarker] + Indented(indent, lines) + [indent + endMarker])
  }

  function ReplaceBlockLines(text: string, startMarker: string, endMarker: string, lines: seq<string>): Result {
    match IndexOf(text, startMarker, 0)
    case None => MissingStart
    case Some(startIndex) =>
      match IndexOf(text, endMarker, startIndex)
      case None => MissingEnd
      case Some(endIndex) =>
        var lineStart := if startIndex < |text| then LineStart(text, startIndex) else 0;
        var indent := if lineStart <= startIndex then text[lineStart..startIndex] else "";
        var after := AfterLine(text, endIndex);
        Replaced(text[..lineStart] + Block(indent, startMarker, endMarker, lines) + Tail(after))
  }

  /** A marker is a non-empty text without line breaks. */
  ghost predicate IsMarker(marker: string) {
    marker != "" && '\n' !in marker
  }

  // ---------------------------------------------------------------- occurrences and line breaks

  lemma OccursAtChars(s: string, t: string, i: nat)
    ensures OccursAt(s, t, i) <==> i + |t| <= |s| && forall k :: 0 <= k < |t| ==> s[i + k] == t[k]
  {
    if i + |t| <= |s| && (forall k :: 0 <= k < |t| ==> s[i + k] == t[k]) {
      assert s[i..i + |t|] == t;
    }
    if OccursAt(s, t, i) {
      forall k | 0 <= k < |t| ensures s[i + k] == t[k] {
        assert s[i..i + |t|][k] == t[k];
      }
    }
  }

  lemma NoBreakInside(s: string, t: string, j: nat, p: nat)
    requires OccursAt(s, t, j) && '\n' !in t && j <= p < j + |t|
    ensures s[p] != '\n'
  {
    assert s[p] == s[j..j + |t|][p - j];
  }

  /** A text without line breaks lies on one side of every line break. */
  lemma OccursOnOneSide(a: string, b: string, t: string, j: nat)
    requires t != "" && '\n' !in t
    ensures OccursAt(a + "\n" + b, t, j) <==> OccursAt(a, t, j) || (j > |a| && OccursAt(b, t, j - |a| - 1))
  {
    var s := a + "\n" + b;
    OccursAtChars(s, t, j);
    OccursAtChars(a, t, j);
    if j > |a| { OccursAtChars(b, t, j - |a| - 1); }
    if OccursAt(s, t, j) && j <= |a| < j + |t| {
      NoBreakInside(s, t, j, |a|);
    }
  }

  /** What occurs before a cut occurs whatever follows the cut. */
  lemma OccursBeforeCut(s: string, s': string, t: string, j: nat, cut: nat)
    requires cut <= |s| && cut <= |s'| && s[..cut] == s'[..cut] && j + |t| <= cut
    ensures OccursAt(s, t, j) == OccursAt(s', t, j)
  {
    OccursAtChars(s, t, j);
    OccursAtChars(s', t, j);
    assert forall k :: 0 <= k < cut ==> s[k] == s[..cut][k] && s'[k] == s'[..cut][k];
  }

  lemma ContainsAt(s: string, t: string, j: nat)
    requires OccursAt(s, t, j)
    ensures Contains(s, t)
  {
  }

  /** A text without line breaks occurs in joined lines exactly when it occurs in one of them. */
  lemma {:induction false} ContainsInLines(lines: seq<string>, t: string)
    requires lines != [] && t != "" && '\n' !in t
    ensures Contains(Join(lines), t) <==> exists i :: 0 <= i < |lines| && Contains(lines[i], t)
  {
    if |lines| == 1 {
      assert Join(lines) == lines[0];
    } else {
      ContainsInLines(lines[1..], t);
      var a, b := lines[0], Join(lines[1..]);
      assert forall j: nat :: OccursAt(a + "\n" + b, t, j) <==> OccursAt(a, t, j) || (j > |a| && OccursAt(b, t, j - |a| - 1)) by {
        forall j: nat ensures OccursAt(a + "\n" + b, t, j) <==> OccursAt(a, t, j) || (j > |a| && OccursAt(b, t, j - |a| - 1)) {
          OccursOnOneSide(a, b, t, j);
        }
      }
      if Contains(a, t) {
        var j: nat :| OccursAt(a, t, j);
        ContainsAt(a + "\n" + b, t, j);
      }
      if Contains(b, t) {
        var j: nat :| OccursAt(b, t, j);
        assert OccursAt(b, t, (j + |a| + 1) - |a| - 1);
        ContainsAt(a + "\n" + b, t, j + |a| + 1);
        var i :| 0 <= i < |lines[1..]| && Contains(lines[1..][i], t);
        assert lines[1..][i] == lines[i + 1];
      }
      if i :| 0 <= i < |lines| && Contains(lines[i], t) {
        if i > 0 { assert lines[1..][i - 1] == lines[i]; }
      }
    }
  }

  lemma {:induction false} JoinEnd(lines: seq<string>, last: string)
    requires lines != []
    ensures Join(lines + [last]) == Join(lines) + "\n" + last
  {
    if |lines| > 1 {
      assert (lines + [last])[1..] == lines[1..] + [last];
      JoinEnd(lines[1..], last);
    } else {
      assert (lines + [last])[1..] == [last];
    }
  }

  lemma {:induction false} LineStartLocal(s: string, s': string, i: nat)
    requires i < |s| && i < |s'| && s[..i + 1] == s'[..i + 1]
    ensures LineStart(s, i) == LineStart(s', i)
  {
    assert s[i] == s[..i + 1][i] && s'[i] == s'[..i + 1][i];
    if s[i] != '\n' && i > 0 {
      assert s[..i] == s[..i + 1][..i] && s'[..i] == s'[..i + 1][..i];
      LineStartLocal(s, s', i - 1);
    }
  }

  // ---------------------------------------------------------------- what the replacement keeps

  /** The lines of the new block that come before its last one, without the first line's indent. */
  function UpperLines(indent: string, startMarker: string, lines: seq<string>): seq<string> {
    [startMarker] + Indented(indent, lines)
  }

  lemma BlockSplits(indent: string, startMarker: string, endMarker: string, lines: seq<string>)
    ensures Block(indent, startMarker, endMarker, lines)
         == indent + Join(UpperLines(indent, startMarker, lines)) + "\n" + indent + endMarker
    ensures |Join(UpperLines(indent, startMarker, lines))| >= |startMarker|
    ensures Join(UpperLines(indent, startMarker, lines))[..|startMarker|] == startMarker
  {
    var rest := Indented(indent, lines);
    JoinEnd([indent + startMarker] + rest, indent + endMarker);
    var with, without := [indent + startMarker] + rest, UpperLines(indent, startMarker, lines);
    assert with[1..] == rest && without[1..] == rest;
    assert Join(with) == indent + Join(without);
  }

  /**
   * The text is a head of whole lines, an indent, the first start marker, a middle, the rest of the
   * line that holds the first end marker behind the start marker, and what follows that line.
   */
  ghost predicate Parts(text: string, startMarker: string, endMarker: string, head: string, indent: string, after: string) {
    && (head == "" || head[|head| - 1] == '\n')
    && '\n' !in indent
    && IndexOf(text, startMarker, 0) == Some(|head| + |indent|)
    && IndexOf(text, endMarker, |head| + |indent|).Some?
    && |head| + |indent| <= |text|
    && text[..|head| + |indent|] == head + indent
    && AfterLine(text, IndexOf(text, endMarker, |head| + |indent|).value) == after
  }

  /** A replacement keeps all lines above the start line and all text behind the end line, and their indent. */
  lemma ReplaceKeepsOutside(text: string, startMarker: string, endMarker: string, lines: seq<string>)
      returns (head: string, indent: string, after: string)
    requires IsMarker(startMarker) && IsMarker(endMarker)
    requires ReplaceBlockLines(text, startMarker, endMarker, lines).Replaced?
    ensures Parts(text, startMarker, endMarker, head, indent, after)
    ensures ReplaceBlockLines(text, startMarker, endMarker, lines).text
         == head + Block(indent, startMarker, endMarker, lines) + Tail(after)
  {
    hide OccursAt, AfterLine, Block;
    var start := IndexOf(text, startMarker, 0).value;
    MarkerStarts(text, startMarker, start);
    var lineStart := LineStart(text, start);
    LineHead(text, start);
    head, indent := text[..lineStart], text[lineStart..start];
    assert head + indent == text[..start];
    after := AfterLine(text, IndexOf(text, endMarker, start).value);
  }

  lemma MarkerStarts(text: string, marker: string, i: nat)
    requires IsMarker(marker) && OccursAt(text, marker, i)
    ensures i < |text| && text[i] != '\n'
  {
    NoBreakInside(text, marker, i, i);
  }

  /** A position that is not a line break lies on the line that starts at its line start. */
  lemma LineHead(text: string, i: nat)
    requires i < |text| && text[i] != '\n'
    ensures LineStart(text, i) <= i
    ensures '\n' !in text[LineStart(text, i)..i]
    ensures LineStart(text, i) == 0 || text[LineStart(text, i) - 1] == '\n'
  {
  }

  lemma StartsInside(text: string, startMarker: string, endMarker: string, head: string, indent: string, after: string)
    requires Parts(text, startMarker, endMarker, head, indent, after)
    ensures ReplaceBlockLines(text, startMarker, endMarker, []).Replaced?
  {
  }

  /** The parts fix the result. */
  lemma PartsFixResult(text: string, startMarker: string, endMarker: string, lines: seq<string>, head: string, indent: string, after: string)
    requires IsMarker(startMarker) && IsMarker(endMarker)
    requires Parts(text, startMarker, endMarker, head, indent, after)
    ensures ReplaceBlockLines(text, startMarker, endMarker, lines)
         == Replaced(head + Block(indent, startMarker, endMarker, lines) + Tail(after))
  {
    hide OccursAt, AfterLine, Block, Tail;
    StartsInside(text, startMarker, endMarker, head, indent, after);
    var head', indent', after' := ReplaceKeepsOutside(text, startMarker, endMarker, lines);
    assert head + indent == head' + indent';
    SameLineStart(head, indent, head', indent');
  }

  lemma BreakInRest(head: string, indent: string, p: int)
    requires |head| <= p < |head + indent| && (head + indent)[p] == '\n'
    ensures '\n' in indent
  {
    assert indent[p - |head|] == '\n';
  }

  /** A text splits in one way into whole lines and a rest without line breaks. */
  lemma SameLineStart(head: string, indent: string, head': string, indent': string)
    requires head + indent == head' + indent'
    requires '\n' !in indent && '\n' !in indent'
    requires head == "" || head[|head| - 1] == '\n'
    requires head' == "" || head'[|head'| - 1] == '\n'
    ensures head == head' && indent == indent'
  {
    var s := head + indent;
    if |head| < |head'| {
      BreakInRest(head, indent, |head'| - 1);
    } else if |head'| < |head| {
      BreakInRest(head', indent', |head| - 1);
    }
    assert s[..|head|] == head && (head' + indent')[..|head'|] == head';
    assert s[|head|..] == indent && (head' + indent')[|head'|..] == indent';
  }

  // ---------------------------------------------------------------- replacing twice

  /** No line of the new block above its last one holds the end marker. */
  predicate EndMarkerOnlyLast(indent: string, startMarker: string, endMarker: string, lines: seq<string>) {
    && !Contains(startMarker, endMarker)
    && forall i :: 0 <= i < |lines| ==> !Contains(indent + lines[i], endMarker)
  }

  lemma OnlyLastMeansUpperClean(indent: string, startMarker: string, endMarker: string, lines: seq<string>)
    requires IsMarker(endMarker)
    ensures EndMarkerOnlyLast(indent, startMarker, endMarker, lines)
       <==> !Contains(Join(UpperLines(indent, startMarker, lines)), endMarker)
  {
    var upper := UpperLines(indent, startMarker, lines);
    ContainsInLines(upper, endMarker);
    assert upper[0] == startMarker;
    assert forall i :: 0 <= i < |lines| ==> upper[i + 1] == indent + lines[i];
    if EndMarkerOnlyLast(indent, startMarker, endMarker, lines) {
      forall i | 0 <= i < |upper| ensures !Contains(upper[i], endMarker) {
        if i > 0 { assert upper[i] == indent + lines[i - 1]; }
      }
    }
  }

  lemma OccurrenceIsSlice(s: string, t: string, i: nat)
    requires OccursAt(s, t, i)
    ensures i + |t| <= |s| && s[i..i + |t|] == t
  {
  }

  /** Where the parts of a replaced text start again: the same head and indent, and the first start marker is still the first. */
  lemma StartStays(text: string, text': string, startMarker: string, endMarker: string, head: string, indent: string, after: string, rest: string)
    requires IsMarker(startMarker)
    requires Parts(text, startMarker, endMarker, head, indent, after)
    requires text' == head + indent + startMarker + rest
    ensures IndexOf(text', startMarker, 0) == Some(|head| + |indent|)
  {
    var start := |head| + |indent|;
    var cut := start + |startMarker|;
    OccurrenceIsSlice(text, startMarker, start);
    assert text[..cut] == text[..start] + text[start..cut];
    assert text'[..cut] == head + indent + startMarker;
    hide Parts, OccursAt, IndexOf;
    OccursBeforeCut(text, text', startMarker, start, cut);
    forall j: nat | j < start ensures !OccursAt(text', startMarker, j) {
      OccursBeforeCut(text, text', startMarker, j, cut);
    }
  }

  lemma CharOccurs(s: string, c: char, j: nat)
    ensures OccursAt(s, [c], j) <==> j < |s| && s[j] == c
  {
    assert j + 1 <= |s| ==> s[j..j + 1] == [s[j]];
  }

  /** The first line break from e on, when a line without one is there. */
  lemma FirstBreak(s: string, e: nat, line: string, after: string)
    requires e <= |s| && s[e..] == line + Tail(after) && '\n' !in line
    ensures IndexOf(s, "\n", e) == if after == "" then None else Some(e + |line|)
  {
    hide OccursAt;
    assert |s| == e + |line| + |Tail(after)|;
    forall j: nat | e <= j < e + |line| ensures !OccursAt(s, "\n", j) {
      CharOccurs(s, '\n', j);
      assert s[j] == s[e..][j - e] == line[j - e];
    }
    CharOccurs(s, '\n', e + |line|);
    if after != "" {
      assert s[e + |line|] == s[e..][|line|] == '\n';
    }
  }

  lemma RestAfter(s: string, e: nat, line: string, after: string)
    requires e <= |s| && s[e..] == line + ("\n" + after)
    ensures e + |line| < |s| && s[e + |line| + 1..] == after
  {
    var rest := s[e..];
    assert |rest| == |line| + 1 + |after|;
    assert rest[|line| + 1..] == after;
    assert s[e + (|line| + 1)..] == rest[|line| + 1..];
  }

  /** What follows the line that holds e. */
  lemma AfterLineOf(s: string, e: nat, line: string, after: string)
    requires e <= |s| && s[e..] == line + Tail(after) && '\n' !in line
    ensures AfterLine(s, e) == after
  {
    FirstBreak(s, e, line, after);
    hide OccursAt, IndexOf;
    if after != "" {
      RestAfter(s, e, line, after);
    }
  }

  /** Behind a position there is the rest of its line and, after a line break if there is one, what follows. */
  lemma AfterLineExact(s: string, e: nat) returns (line: string)
    requires e <= |s|
    ensures '\n' !in line
    ensures (s[e..] == line && AfterLine(s, e) == "") || s[e..] == line + "\n" + AfterLine(s, e)
  {
    var found := IndexOf(s, "\n", e);
    forall j: nat ensures OccursAt(s, "\n", j) <==> j < |s| && s[j] == '\n' {
      CharOccurs(s, '\n', j);
    }
    hide OccursAt;
    var n := if found.Some? then found.value else |s|;
    line := s[e..n];
    if n < |s| {
      assert s[e..] == s[e..n] + [s[n]] + s[n + 1..];
    }
  }

  /** A line break at q bounds what is cut away after any earlier position. */
  lemma AfterLineReaches(s: string, e: nat, q: nat)
    requires e <= q < |s| && s[q] == '\n'
    ensures |AfterLine(s, e)| >= |s| - q - 1
  {
    CharOccurs(s, '\n', q);
  }

  /** Where the end marker occurs from the start marker on: in the upper lines, or behind them. */
  lemma OccursInBlock(front: string, upper: string, back: string, endMarker: string, j: nat)
    requires IsMarker(endMarker) && j >= |front|
    ensures OccursAt(front + upper + "\n" + back, endMarker, j)
       <==> OccursAt(upper, endMarker, j - |front|) || (j > |front + upper| && OccursAt(back, endMarker, j - |front + upper| - 1))
  {
    OccursOnOneSide(front + upper, back, endMarker, j);
    OccursInPart(front, upper, endMarker, j);
  }

  /** An upper line holds the end marker: the last line of the block counts as text behind it. */
  lemma EndFoundAbove(text: string, front: string, upper: string, back: string, endMarker: string)
    requires IsMarker(endMarker) && Contains(upper, endMarker)
    requires text == front + upper + "\n" + back
    ensures IndexOf(text, endMarker, |front|).Some?
    ensures |AfterLine(text, IndexOf(text, endMarker, |front|).value)| >= |back|
  {
    hide OccursAt, Contains, AfterLine;
    var j := SomeOccurrence(upper, endMarker);
    OccursInBlock(front, upper, back, endMarker, |front| + j);
    AfterLineReaches(text, IndexOf(text, endMarker, |front|).value, |front| + |upper|);
  }

  /** No upper line holds it: the end marker is found on the last line of the block. */
  lemma EndFoundLast(text: string, front: string, upper: string, last: string, indent: string, endMarker: string, after: string)
    requires IsMarker(endMarker) && !Contains(upper, endMarker) && '\n' !in indent && last == indent + endMarker
    requires text == front + upper + "\n" + (last + Tail(after))
    ensures IndexOf(text, endMarker, |front|).Some?
    ensures AfterLine(text, IndexOf(text, endMarker, |front|).value) == after
  {
    hide OccursAt, Contains, AfterLine;
    var back := last + Tail(after);
    var q := |front| + |upper|;
    LastLineHoldsMarker(indent, endMarker, after);
    assert back == indent + endMarker + Tail(after);
    assert |front + upper| == q;
    OccursInBlock(front, upper, back, endMarker, q + 1 + |indent|);
    assert q + 1 + |indent| - q - 1 == |indent|;
    var e := IndexOf(text, endMarker, |front|).value;
    OccursInBlock(front, upper, back, endMarker, e);
    NotInside(upper, endMarker, e - |front|);
    LastLineRest(text, front + upper, last, after, e);
  }

  lemma LastLineRest(text: string, above: string, last: string, after: string, e: nat)
    requires text == above + "\n" + (last + Tail(after)) && '\n' !in last
    requires |above| < e <= |above| + 1 + |last|
    ensures AfterLine(text, e) == after
  {
    hide AfterLine;
    var k := e - |above| - 1;
    assert text[e..] == last[k..] + Tail(after);
    AfterLineOf(text, e, last[k..], after);
  }

  lemma NotInside(s: string, t: string, j: nat)
    requires !Contains(s, t)
    ensures !OccursAt(s, t, j)
  {
  }

  lemma LastLineHoldsMarker(indent: string, endMarker: string, after: string)
    ensures OccursAt(indent + endMarker + Tail(after), endMarker, |indent|)
  {
  }

  lemma SomeOccurrence(s: string, t: string) returns (j: nat)
    requires Contains(s, t)
    ensures OccursAt(s, t, j) && j + |t| <= |s|
  {
    j :| OccursAt(s, t, j);
  }

  lemma OccursFromHere(s: string, t: string, j: nat)
    requires j <= |s|
    ensures OccursAt(s, t, j) <==> t <= s[j..]
  {
    assert j + |t| <= |s| ==> s[j..j + |t|] == s[j..][..|t|];
  }

  lemma OccursInPart(a: string, b: string, t: string, j: nat)
    requires j >= |a|
    ensures OccursAt(a + b, t, j) <==> OccursAt(b, t, j - |a|)
  {
    if j <= |a + b| {
      assert (a + b)[j..] == b[j - |a|..];
      OccursFromHere(a + b, t, j);
      OccursFromHere(b, t, j - |a|);
    }
  }

  /**
   * Replacing a second time with the same lines gives the same text exactly when the end marker
   * is neither inside the start marker nor on an inserted line with its indent.
   */
  lemma ReplaceIdempotent(text: string, startMarker: string, endMarker: string, lines: seq<string>, head: string, indent: string, after: string)
    requires IsMarker(startMarker) && IsMarker(endMarker)
    requires Parts(text, startMarker, endMarker, head, indent, after)
    ensures var once := ReplaceBlockLines(text, startMarker, endMarker, lines);
      once.Replaced? && ReplaceBlockLines(once.text, startMarker, endMarker, lines).Replaced?
    ensures var once := ReplaceBlockLines(text, startMarker, endMarker, lines);
      (ReplaceBlockLines(once.text, startMarker, endMarker, lines) == once) == EndMarkerOnlyLast(indent, startMarker, endMarker, lines)
  {
    hide OccursAt, Contains, AfterLine, EndMarkerOnlyLast, Block, UpperLines, ReplaceBlockLines;
    PartsFixResult(text, startMarker, endMarker, lines, head, indent, after);
    var once := ReplaceBlockLines(text, startMarker, endMarker, lines).text;
    var after' := PartsOfReplaced(text, startMarker, endMarker, lines, head, indent, after, once);
    PartsFixResult(once, startMarker, endMarker, lines, head, indent, after');
  }

  /** The parts of a replaced text: the same head and indent, and the same rest unless an upper line holds the end marker. */
  lemma PartsOfReplaced(text: string, startMarker: string, endMarker: string, lines: seq<string>, head: string, indent: string, after: string, once: string)
      returns (after': string)
    requires IsMarker(startMarker) && IsMarker(endMarker)
    requires Parts(text, startMarker, endMarker, head, indent, after)
    requires once == head + Block(indent, startMarker, endMarker, lines) + Tail(after)
    ensures Parts(once, startMarker, endMarker, head, indent, after')
    ensures if EndMarkerOnlyLast(indent, startMarker, endMarker, lines) then after' == after else |after'| > |after|
  {
    hide *;
    var upper := Join(UpperLines(indent, startMarker, lines));
    OnlyLastMeansUpperClean(indent, startMarker, endMarker, lines);
    ReplacedShape(startMarker, endMarker, lines, head, indent, after);
    PartsGiveIndent(text, startMarker, endMarker, head, indent, after);
    EndFound(once, head + indent, upper, indent + endMarker, indent, endMarker, after);
    var rest := upper[|startMarker|..] + "\n" + (indent + endMarker + Tail(after));
    StartStays(text, once, startMarker, endMarker, head, indent, after, rest);
    after' := AfterLine(once, IndexOf(once, endMarker, |head + indent|).value);
    PartsFrom(text, once, startMarker, endMarker, head, indent, after, after');
  }

  lemma PartsGiveIndent(text: string, startMarker: string, endMarker: string, head: string, indent: string, after: string)
    requires Parts(text, startMarker, endMarker, head, indent, after)
    ensures '\n' !in indent
  {
  }

  lemma PartsFrom(text: string, once: string, startMarker: string, endMarker: string, head: string, indent: string, after: string, after': string)
    requires Parts(text, startMarker, endMarker, head, indent, after)
    requires head + indent <= once
    requires IndexOf(once, startMarker, 0) == Some(|head| + |indent|)
    requires IndexOf(once, endMarker, |head + indent|).Some?
    requires AfterLine(once, IndexOf(once, endMarker, |head + indent|).value) == after'
    ensures Parts(once, startMarker, endMarker, head, indent, after')
  {
    hide AfterLine, OccursAt;
    assert once[..|head| + |indent|] == head + indent;
  }

  lemma EndFound(text: string, front: string, upper: string, last: string, indent: string, endMarker: string, after: string)
    requires IsMarker(endMarker) && '\n' !in indent && last == indent + endMarker
    requires text == front + upper + "\n" + (last + Tail(after))
    ensures IndexOf(text, endMarker, |front|).Some?
    ensures var found := AfterLine(text, IndexOf(text, endMarker, |front|).value);
      if Contains(upper, endMarker) then |found| > |after| else found == after
  {
    hide OccursAt, Contains, AfterLine;
    if Contains(upper, endMarker) {
      EndFoundAbove(text, front, upper, last + Tail(after), endMarker);
    } else {
      EndFoundLast(text, front, upper, last, indent, endMarker, after);
    }
  }

  /** The replaced text around its upper lines, and with its first start marker in sight. */
  lemma ReplacedShape(startMarker: string, endMarker: string, lines: seq<string>, head: string, indent: string, after: string)
    ensures var upper := Join(UpperLines(indent, startMarker, lines));
      var once := head + Block(indent, startMarker, endMarker, lines) + Tail(after);
      && startMarker <= upper
      && once == head + indent + upper + "\n" + (indent + endMarker + Tail(after))
      && once == head + indent + startMarker + (upper[|startMarker|..] + "\n" + (indent + endMarker + Tail(after)))
      && head + indent <= once
  {
    hide Join, Block, UpperLines, Tail;
    BlockSplits(indent, startMarker, endMarker, lines);
    var upper := Join(UpperLines(indent, startMarker, lines));
    var once := head + Block(indent, startMarker, endMarker, lines) + Tail(after);
    assert once == head + indent + upper + "\n" + (indent + endMarker + Tail(after));
    assert upper == startMarker + upper[|startMarker|..];
  }

  /** An inserted line that holds the end marker: each replacement pushes the old last line out of the block. */
  lemma EndMarkerInsideGrows()
    ensures ReplaceBlockLines("S\nE", "S", "E", ["E"]) == Replaced("S\nE\nE")
    ensures ReplaceBlockLines("S\nE\nE", "S", "E", ["E"]) == Replaced("S\nE\nE\nE")
  {
    hide ReplaceBlockLines;
    assert "S\nE"[2..] == "E" + Tail("");
    assert "S\nE\nE"[2..] == "E" + Tail("E");
    ReplaceSmall("S\nE", "");
    ReplaceSmall("S\nE\nE", "E");
    assert "S\nE\nE" + Tail("") == "S\nE\nE";
    assert "S\nE\nE" + Tail("E") == "S\nE\nE\nE";
  }

  lemma NothingBefore(s: string, t: string)
    ensures "" + s + t == s + t
  {
    assert "" + s == s;
  }

  lemma ReplaceSmall(text: string, after: string)
    requires |text| >= 3 && text[0] == 'S' && text[1] == '\n' && text[2..] == "E" + Tail(after)
    ensures ReplaceBlockLines(text, "S", "E", ["E"]) == Replaced("S\nE\nE" + Tail(after))
  {
    SmallParts(text, after);
    SmallBlock();
    hide Block, Parts, ReplaceBlockLines;
    PartsFixResult(text, "S", "E", ["E"], "", "", after);
    NothingBefore(Block("", "S", "E", ["E"]), Tail(after));
  }

  lemma SmallParts(text: string, after: string)
    requires |text| >= 3 && text[0] == 'S' && text[1] == '\n' && text[2..] == "E" + Tail(after)
    ensures Parts(text, "S", "E", "", "", after)
  {
    assert text[2] == text[2..][0] == 'E';
    forall j: nat ensures OccursAt(text, "S", j) <==> j < |text| && text[j] == 'S' {
      CharOccurs(text, 'S', j);
    }
    forall j: nat ensures OccursAt(text, "E", j) <==> j < |text| && text[j] == 'E' {
      CharOccurs(text, 'E', j);
    }
    hide OccursAt, AfterLine;
    assert IndexOf(text, "S", 0) == Some(0) && IndexOf(text, "E", 0) == Some(2);
    AfterLineOf(text, 2, "E", after);
  }

  lemma SmallBlock()
    ensures Block("", "S", "E", ["E"]) == "S\nE\nE"
  {
    BlockSplits("", "S", "E", ["E"]);
    var rest := Indented("", ["E"]);
    assert |rest| == 1 && rest[0] == "" + ["E"][0] == "E";
    assert UpperLines("", "S", ["E"]) == ["S", "E"];
    assert ["S", "E"][1..] == ["E"];
    assert Join(["S", "E"]) == "S" + "\n" + Join(["E"]);
    hide Join, Block, UpperLines;
    assert "" + "S\nE" + "\n" + "" + "E" == "S\nE\nE";
  }

  // ---------------------------------------------------------------- what is written, and what is missing

  /** `text.split("\n")`. */
  function SplitLines(text: string): (lines: seq<string>)
    ensures lines != []
  {
    if text == "" then [""]
    else
      var rest := SplitLines(text[1..]);
      if text[0] == '\n' then [""] + rest else [[text[0]] + rest[0]] + rest[1..]
  }

  lemma {:induction false} SplitFirst(line: string, rest: string)
    requires '\n' !in line
    ensures SplitLines(line + "\n" + rest) == [line] + SplitLines(rest)
    ensures SplitLines(line) == [line]
  {
    var text := line + "\n" + rest;
    if line == "" {
      assert text[1..] == rest && text[0] == '\n';
    } else {
      SplitFirst(line[1..], rest);
      assert text[1..] == line[1..] + "\n" + rest;
      assert [line[0]] + line[1..] == line;
    }
  }

  lemma {:induction false} SplitJoined(lines: seq<string>)
    requires lines != [] && forall i :: 0 <= i < |lines| ==> '\n' !in lines[i]
    ensures SplitLines(Join(lines)) == lines
  {
    if |lines| == 1 {
      SplitFirst(lines[0], "");
    } else {
      SplitJoined(lines[1..]);
      SplitFirst(lines[0], Join(lines[1..]));
    }
  }

  /** The lines of a block: the start marker, the inserted lines in order, and the end marker, each behind the indent. */
  lemma BlockLines(indent: string, startMarker: string, endMarker: string, lines: seq<string>)
    requires '\n' !in indent && IsMarker(startMarker) && IsMarker(endMarker)
    requires forall i :: 0 <= i < |lines| ==> '\n' !in lines[i]
    ensures var block := SplitLines(Block(indent, startMarker, endMarker, lines));
      && |block| == |lines| + 2
      && block[0] == indent + startMarker && block[|lines| + 1] == indent + endMarker
      && forall i :: 0 <= i < |lines| ==> block[i + 1] == indent + lines[i]
  {
    SplitJoined([indent + startMarker] + Indented(indent, lines) + [indent + endMarker]);
  }

  /** A replacement fails exactly when the start marker is nowhere, or no end marker is at it or behind it. */
  lemma MissingMarkers(text: string, startMarker: string, endMarker: string, lines: seq<string>)
    ensures ReplaceBlockLines(text, startMarker, endMarker, lines).MissingStart? <==> !Contains(text, startMarker)
    ensures ReplaceBlockLines(text, startMarker, endMarker, lines).MissingEnd? <==>
      Contains(text, startMarker) && !exists i, j :: 0 <= i <= j && OccursAt(text, startMarker, i) && OccursAt(text, endMarker, j)
  {
    hide OccursAt;
    OccursWithin(text, startMarker);
    OccursWithin(text, endMarker);
    var found := IndexOf(text, startMarker, 0);
    if found.Some? {
      var end := IndexOf(text, endMarker, found.value);
      if i, j :| 0 <= i <= j && OccursAt(text, startMarker, i) && OccursAt(text, endMarker, j) {
        assert found.value <= i;
      }
    }
  }

  lemma OccursWithin(s: string, t: string)
    ensures forall i: nat :: OccursAt(s, t, i) ==> i <= |s|
  {
  }
}
