/** Escaping a recall summary for its block, by five replacements one after the other. */
module XmlEscape {
  import opened Basics
  import opened JsText

  /** `s.replace(/c/g, by)`. */
  function ReplaceAll(s: string, c: char, with: string): string {
    if s == "" then "" else (if s[0] == c then with else [s[0]]) + ReplaceAll(s[1..], c, with)
  }

  function EscapeXml(s: string): string {
    var a := ReplaceAll(s, '&', "&amp;");
    var b := ReplaceAll(a, '<', "&lt;");
    var c := ReplaceAll(b, '>', "&gt;");
    var d := ReplaceAll(c, '"', "&quot;");
    ReplaceAll(d, '\'', "&apos;")
  }

  // ----- the predefined entities (section 4.6 of XML 1.0)

  function Entity(c: char): string {
    match c
    case '&' => "&amp;"
    case '<' => "&lt;"
    case '>' => "&gt;"
    case '"' => "&quot;"
    case '\'' => "&apos;"
    case _ => [c]
  }

  function Encode(s: string): string {
    if s == "" then "" else Entity(s[0]) + Encode(s[1..])
  }

  function Reference(s: string): Option<(char, nat)> {
    if StartsWith(s, "&amp;") then Some(('&', 5))
    else if StartsWith(s, "&lt;") then Some(('<', 4))
    else if StartsWith(s, "&gt;") then Some(('>', 4))
    else if StartsWith(s, "&quot;") then Some(('"', 6))
    else if StartsWith(s, "&apos;") then Some(('\'', 6))
    else None
  }

  /** Reads text in which the five characters appear as references only; none for any other text. */
  function Decode(s: string): Option<string>
    decreases |s|
  {
    if s == "" then Some("")
    else if s[0] == '&' then
      match Reference(s)
      case None => None
      case Some((c, n)) =>
        if n > |s| then None
        else
          match Decode(s[n..])
          case None => None
          case Some(rest) => Some([c] + rest)
    else if s[0] in "<>\"'" then None
    else
      match Decode(s[1..])
      case None => None
      case Some(rest) => Some([s[0]] + rest)
  }

  // ----- five passes make one substitution

  lemma ReplaceHead(s: string, c: char, with: string)
    requires s != ""
    ensures ReplaceAll(s, c, with) == ReplaceAll([s[0]], c, with) + ReplaceAll(s[1..], c, with)
  {
    assert [s[0]][1..] == "" && ReplaceAll("", c, with) == "";
  }

  lemma {:induction false} ReplaceConcat(a: string, b: string, c: char, with: string)
    ensures ReplaceAll(a + b, c, with) == ReplaceAll(a, c, with) + ReplaceAll(b, c, with)
  {
    if a == "" {
      assert a + b == b;
    } else {
      ReplaceConcat(a[1..], b, c, with);
      assert (a + b)[1..] == a[1..] + b && (a + b)[0] == a[0];
      var first, rest := ReplaceAll([a[0]], c, with), ReplaceAll(a[1..], c, with);
      ReplaceHead(a, c, with);
      ReplaceHead(a + b, c, with);
      hide ReplaceAll;
      assert first + rest + ReplaceAll(b, c, with) == first + (rest + ReplaceAll(b, c, with));
    }
  }

  lemma {:induction false} ReplaceNone(s: string, c: char, with: string)
    requires c !in s
    ensures ReplaceAll(s, c, with) == s
  {
    if s != "" {
      ReplaceNone(s[1..], c, with);
    }
  }

  lemma ReplaceOne(x: char, c: char, with: string)
    ensures ReplaceAll([x], c, with) == if x == c then with else [x]
  {
    assert [x][1..] == "";
  }

  lemma EscapeConcat(a: string, b: string)
    ensures EscapeXml(a + b) == EscapeXml(a) + EscapeXml(b)
  {
    var a1, b1 := ReplaceAll(a, '&', "&amp;"), ReplaceAll(b, '&', "&amp;");
    var a2, b2 := ReplaceAll(a1, '<', "&lt;"), ReplaceAll(b1, '<', "&lt;");
    var a3, b3 := ReplaceAll(a2, '>', "&gt;"), ReplaceAll(b2, '>', "&gt;");
    var a4, b4 := ReplaceAll(a3, '"', "&quot;"), ReplaceAll(b3, '"', "&quot;");
    ReplaceConcat(a, b, '&', "&amp;");
    ReplaceConcat(a1, b1, '<', "&lt;");
    ReplaceConcat(a2, b2, '>', "&gt;");
    ReplaceConcat(a3, b3, '"', "&quot;");
    ReplaceConcat(a4, b4, '\'', "&apos;");
  }

  /** A later pass never touches what an earlier one put in. */
  lemma EscapeOne(c: char)
    ensures EscapeXml([c]) == Entity(c)
  {
    hide ReplaceAll;
    ReplaceOne(c, '&', "&amp;");
    ReplaceOne(c, '<', "&lt;");
    ReplaceOne(c, '>', "&gt;");
    ReplaceOne(c, '"', "&quot;");
    ReplaceOne(c, '\'', "&apos;");
    match c
    case '&' => LaterPasses("&amp;", 1);
    case '<' => LaterPasses("&lt;", 2);
    case '>' => LaterPasses("&gt;", 3);
    case '"' => LaterPasses("&quot;", 4);
    case _ =>
  }

  lemma LaterPasses(e: string, n: nat)
    requires n <= 1 ==> '<' !in e
    requires n <= 2 ==> '>' !in e
    requires n <= 3 ==> '"' !in e
    requires '\'' !in e
    ensures n <= 1 ==> ReplaceAll(e, '<', "&lt;") == e
    ensures n <= 2 ==> ReplaceAll(e, '>', "&gt;") == e
    ensures n <= 3 ==> ReplaceAll(e, '"', "&quot;") == e
    ensures ReplaceAll(e, '\'', "&apos;") == e
  {
    if n <= 1 {
      ReplaceNone(e, '<', "&lt;");
    }
    if n <= 2 {
      ReplaceNone(e, '>', "&gt;");
    }
    if n <= 3 {
      ReplaceNone(e, '"', "&quot;");
    }
    ReplaceNone(e, '\'', "&apos;");
  }

  /** The five passes replace each character once, by its entity. */
  lemma {:induction false} EscapeIsEncode(s: string)
    ensures EscapeXml(s) == Encode(s)
  {
    if s != "" {
      assert s == [s[0]] + s[1..];
      EscapeConcat([s[0]], s[1..]);
      EscapeOne(s[0]);
      EscapeIsEncode(s[1..]);
    }
  }

  // ----- the round trip

  lemma ReadEntity(c: char, rest: string)
    ensures Decode(Entity(c) + rest) ==
      match Decode(rest) case None => None case Some(t) => Some([c] + t)
  {
    var s := Entity(c) + rest;
    assert s[|Entity(c)|..] == rest;
    assert s[..|Entity(c)|] == Entity(c);
    if c in "&<>\"'" {
      assert StartsWith(s, Entity(c));
      assert s[1] == Entity(c)[1] && s[2] == Entity(c)[2];
      assert Reference(s) == Some((c, |Entity(c)|));
    }
  }

  lemma {:induction false} DecodeEncode(s: string)
    ensures Decode(Encode(s)) == Some(s)
  {
    if s != "" {
      DecodeEncode(s[1..]);
      ReadEntity(s[0], Encode(s[1..]));
      assert [s[0]] + s[1..] == s;
    }
  }

  lemma {:induction false} EncodeDecode(t: string)
    requires Decode(t).Some?
    ensures Encode(Decode(t).value) == t
    decreases |t|
  {
    if t != "" {
      var s := Decode(t).value;
      if t[0] == '&' {
        var (c, n) := Reference(t).value;
        EncodeDecode(t[n..]);
        assert s == [c] + Decode(t[n..]).value;
        assert t == t[..n] + t[n..];
      } else {
        EncodeDecode(t[1..]);
        assert s == [t[0]] + Decode(t[1..]).value;
      }
    }
  }

  /** Escaping is undone by reading the entities, so no two texts escape alike, and it reaches exactly
      the texts that can be read. */
  lemma EscapeRoundTrip(s: string, t: string)
    ensures Decode(EscapeXml(s)) == Some(s)
    ensures EscapeXml(s) == EscapeXml(t) ==> s == t
    ensures Decode(t) == Some(s) <==> EscapeXml(s) == t
  {
    EscapeIsEncode(s);
    EscapeIsEncode(t);
    DecodeEncode(s);
    DecodeEncode(t);
    if Decode(t).Some? {
      EncodeDecode(t);
    }
  }

  // ----- the block

  const OPEN := "<active_memory_plugin>"
  const CLOSE := "</active_memory_plugin>"

  function BuildMetadata(summary: Option<string>): Option<string> {
    if summary.None? || summary.value == "" then None
    else Some(OPEN + "\n" + EscapeXml(summary.value) + "\n" + CLOSE)
  }

  /** There is a block exactly when there is a summary that is not empty. */
  lemma BlockForSummary(summary: Option<string>)
    ensures BuildMetadata(summary).Some? <==> exists s :: s != "" && summary == Some(s)
  {
    if summary.Some? && summary.value != "" {
      assert summary == Some(summary.value);
    }
  }

  lemma {:induction false} EncodedIsTagFree(s: string)
    ensures '<' !in Encode(s)
  {
    if s != "" {
      EncodedIsTagFree(s[1..]);
    }
  }

  function Wrap(inner: string): string {
    OPEN + "\n" + inner + "\n" + CLOSE
  }

  lemma WrapParts(inner: string)
    ensures var block := Wrap(inner);
      && |block| == |OPEN| + |inner| + |CLOSE| + 2
      && block[..|OPEN|] == OPEN && block[|block| - |CLOSE|..] == CLOSE
      && block[|OPEN| + 1..|block| - |CLOSE| - 1] == inner
      && block[|OPEN|] == '\n' && block[|block| - |CLOSE| - 1] == '\n'
  {
  }

  /** A tag can only begin at one of the two places where the block has a '<'. */
  lemma TagStarts(inner: string, i: nat)
    requires '<' !in inner && i < |Wrap(inner)| && Wrap(inner)[i] == '<'
    ensures i == 0 || i == |Wrap(inner)| - |CLOSE|
  {
    WrapParts(inner);
    hide Wrap;
    var block := Wrap(inner);
    var k := |block| - |CLOSE|;
    forall j | |OPEN| < j < k - 1 ensures block[j] != '<' {
      assert block[|OPEN| + 1..k - 1][j - |OPEN| - 1] == block[j];
    }
    forall j | 0 < j < |OPEN| ensures block[j] != '<' {
      assert block[..|OPEN|][j] == block[j];
    }
    forall j | k < j < |block| ensures block[j] != '<' {
      assert block[k..][j - k] == block[j];
    }
  }

  lemma TagPlaces(inner: string, i: nat)
    requires '<' !in inner
    ensures OccursAt(Wrap(inner), OPEN, i) <==> i == 0
    ensures OccursAt(Wrap(inner), CLOSE, i) <==> i == |Wrap(inner)| - |CLOSE|
  {
    WrapParts(inner);
    hide Wrap;
    var block := Wrap(inner);
    var k := |block| - |CLOSE|;
    assert block[0] == block[..|OPEN|][0] && block[1] == block[..|OPEN|][1];
    assert block[k] == block[k..][0] && block[k + 1] == block[k..][1];
    if OccursAt(block, OPEN, i) {
      assert block[i] == block[i..i + |OPEN|][0] && block[i + 1] == block[i..i + |OPEN|][1];
      TagStarts(inner, i);
    }
    if OccursAt(block, CLOSE, i) {
      assert block[i] == block[i..i + |CLOSE|][0] && block[i + 1] == block[i..i + |CLOSE|][1];
      TagStarts(inner, i);
    }
  }

  /** Whatever the summary holds, the block has one opening tag, at its start, and one closing tag, at its
      end, and the summary can be read back from between them. */
  lemma BlockHasOneTagPair(summary: string, i: nat)
    requires summary != ""
    ensures var block := BuildMetadata(Some(summary)).value;
      && (OccursAt(block, OPEN, i) <==> i == 0)
      && (OccursAt(block, CLOSE, i) <==> i == |block| - |CLOSE|)
      && |OPEN| + 1 <= |block| - |CLOSE| - 1
      && Decode(block[|OPEN| + 1..|block| - |CLOSE| - 1]) == Some(summary)
  {
    EscapeIsEncode(summary);
    EncodedIsTagFree(summary);
    DecodeEncode(summary);
    hide EscapeXml, Encode, Decode;
    TagPlaces(EscapeXml(summary), i);
    WrapParts(EscapeXml(summary));
  }
}
