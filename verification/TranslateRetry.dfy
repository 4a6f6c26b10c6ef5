/** Sending one batch: two attempts, and a batch that timed out is split in halves. */
module TranslateRetry {
  import opened Basics
  import opened JsText
  import opened TranslationBatches

  const TRANSLATE_MAX_ATTEMPTS := 2

  /** What one prompt can come to: a parsed reply with its string-valued fields, or an error. */
  datatype Reply = Parsed(fields: map<string, string>) | Raised(message: string)

  /** The k-th prompt of the run is answered by answers(k); nothing is assumed about them. */
  type Answers = nat -> Reply

  datatype Result = Translated(values: map<string, string>) | Failed(message: string)

  predicate IsPromptTimeoutError(message: string) {
    Contains(ToLower(message), "timed out")
  }

  /** The reply must hold a non-blank value for each item, looked up in order. */
  function ReadReply(reply: Reply, items: seq<Item>): Result {
    match reply
    case Raised(message) => Failed(message)
    case Parsed(fields) => ReadFields(fields, items, map[])
  }

  function ReadFields(fields: map<string, string>, items: seq<Item>, translated: map<string, string>): Result {
    if items == [] then Translated(translated)
    else
      var key := items[0].key;
      if key !in fields || IsBlank(fields[key]) then Failed("missing translation for " + key)
      else ReadFields(fields, items[1..], translated[key := fields[key]])
  }

  /** The outcome of a batch, how many prompts it took and how deep it was split. */
  datatype Run = Run(result: Result, prompts: nat, depth: nat)

  /** A batch whose next prompt is number k, after `attempt` attempts of which the last one failed with `last`. */
  function RunFrom(answers: Answers, k: nat, items: seq<Item>, attempt: nat, last: string): Run
    requires attempt <= TRANSLATE_MAX_ATTEMPTS
    decreases |items|, TRANSLATE_MAX_ATTEMPTS - attempt
  {
    if attempt == TRANSLATE_MAX_ATTEMPTS then Run(Failed(last), 0, 0)
    else
      match ReadReply(answers(k), items)
      case Translated(values) => Run(Translated(values), 1, 0)
      case Failed(message) =>
        if IsPromptTimeoutError(message) && |items| > 1 then
          var halves := SplitBatch(answers, k + 1, items);
          Run(halves.result, 1 + halves.prompts, halves.depth)
        else if IsPromptTimeoutError(message) then Run(Failed(message), 1, 0)
        else
          var again := RunFrom(answers, k + 1, items, attempt + 1, message);
          Run(again.result, 1 + again.prompts, again.depth)
  }

  /** A batch that timed out: its halves in turn, the second only when the first came through. */
  function SplitBatch(answers: Answers, k: nat, items: seq<Item>): Run
    requires |items| > 1
    decreases |items|, 0
  {
    var midpoint := (|items| + 1) / 2;
    var left := RunFrom(answers, k, items[..midpoint], 0, "translation failed");
    if left.result.Failed? then Run(left.result, left.prompts, 1 + left.depth)
    else
      var right := RunFrom(answers, k + left.prompts, items[midpoint..], 0, "translation failed");
      Run(if right.result.Failed? then right.result else Translated(left.result.values + right.result.values),
          left.prompts + right.prompts, 1 + Max(left.depth, right.depth))
  }

  function RunBatch(answers: Answers, k: nat, items: seq<Item>): Run {
    RunFrom(answers, k, items, 0, "translation failed")
  }

  function Keys(items: seq<Item>): set<string> {
    set item | item in items :: item.key
  }

  /** The value was given for the key by one of the prompts numbered from lo up to hi. */
  ghost predicate Answered(answers: Answers, lo: nat, hi: nat, key: string, value: string) {
    exists j :: lo <= j < hi && answers(j).Parsed? && key in answers(j).fields && answers(j).fields[key] == value
  }

  /** Every item has a value, no value is blank, and each came from a reply to this batch. */
  ghost predicate Complete(answers: Answers, lo: nat, hi: nat, items: seq<Item>, values: map<string, string>) {
    && values.Keys == Keys(items)
    && forall key :: key in values ==> !IsBlank(values[key]) && Answered(answers, lo, hi, key, values[key])
  }

  lemma {:induction false} FieldsComplete(fields: map<string, string>, items: seq<Item>, translated: map<string, string>)
    requires forall key :: key in translated ==> key in fields && translated[key] == fields[key] && !IsBlank(fields[key])
    ensures var r := ReadFields(fields, items, translated);
      r.Translated? ==>
        && r.values.Keys == translated.Keys + Keys(items)
        && forall key :: key in r.values ==> key in fields && r.values[key] == fields[key] && !IsBlank(fields[key])
  {
    if items != [] {
      var key := items[0].key;
      if key in fields && !IsBlank(fields[key]) {
        FieldsComplete(fields, items[1..], translated[key := fields[key]]);
        assert Keys(items) == {key} + Keys(items[1..]);
      }
    }
  }

  lemma ReplyComplete(answers: Answers, k: nat, items: seq<Item>)
    ensures var r := ReadReply(answers(k), items); r.Translated? ==> Complete(answers, k, k + 1, items, r.values)
  {
    if answers(k).Parsed? {
      FieldsComplete(answers(k).fields, items, map[]);
    }
  }

  lemma AnsweredWider(answers: Answers, lo: nat, hi: nat, lo': nat, hi': nat, items: seq<Item>, values: map<string, string>)
    requires Complete(answers, lo, hi, items, values) && lo' <= lo && hi <= hi'
    ensures Complete(answers, lo', hi', items, values)
  {
    forall key | key in values ensures Answered(answers, lo', hi', key, values[key]) {
      assert Answered(answers, lo, hi, key, values[key]);
    }
  }

  lemma JoinComplete(answers: Answers, lo: nat, mid: nat, hi: nat, items: seq<Item>, m: nat,
                     left: map<string, string>, right: map<string, string>)
    requires m <= |items| && lo <= mid <= hi
    requires Complete(answers, lo, mid, items[..m], left) && Complete(answers, mid, hi, items[m..], right)
    ensures Complete(answers, lo, hi, items, left + right)
  {
    AnsweredWider(answers, lo, mid, lo, hi, items[..m], left);
    AnsweredWider(answers, mid, hi, lo, hi, items[m..], right);
    assert items == items[..m] + items[m..];
    assert Keys(items) == Keys(items[..m]) + Keys(items[m..]);
  }

  ghost predicate CompleteRun(answers: Answers, k: nat, items: seq<Item>, run: Run) {
    run.result.Translated? ==> Complete(answers, k, k + run.prompts, items, run.result.values)
  }

  /** When a batch returns, its map covers exactly its items with non-blank values taken from its own replies. */
  lemma {:induction false} ReturnsComplete(answers: Answers, k: nat, items: seq<Item>, attempt: nat, last: string)
    requires attempt <= TRANSLATE_MAX_ATTEMPTS
    ensures CompleteRun(answers, k, items, RunFrom(answers, k, items, attempt, last))
    decreases |items|, TRANSLATE_MAX_ATTEMPTS - attempt
  {
    hide IsPromptTimeoutError, ReadReply, Complete;
    var run := RunFrom(answers, k, items, attempt, last);
    if attempt < TRANSLATE_MAX_ATTEMPTS && run.result.Translated? {
      match ReadReply(answers(k), items)
      case Translated(values) =>
        ReplyComplete(answers, k, items);
      case Failed(message) =>
        if IsPromptTimeoutError(message) && |items| > 1 {
          SplitComplete(answers, k + 1, items);
          AnsweredWider(answers, k + 1, k + run.prompts, k, k + run.prompts, items, run.result.values);
        } else if !IsPromptTimeoutError(message) {
          ReturnsComplete(answers, k + 1, items, attempt + 1, message);
          AnsweredWider(answers, k + 1, k + run.prompts, k, k + run.prompts, items, run.result.values);
        }
    }
  }

  lemma {:induction false} SplitComplete(answers: Answers, k: nat, items: seq<Item>)
    requires |items| > 1
    ensures CompleteRun(answers, k, items, SplitBatch(answers, k, items))
    decreases |items|, 0
  {
    hide RunFrom, Complete;
    var midpoint := (|items| + 1) / 2;
    var left := RunFrom(answers, k, items[..midpoint], 0, "translation failed");
    var right := RunFrom(answers, k + left.prompts, items[midpoint..], 0, "translation failed");
    ReturnsComplete(answers, k, items[..midpoint], 0, "translation failed");
    ReturnsComplete(answers, k + left.prompts, items[midpoint..], 0, "translation failed");
    if left.result.Translated? && right.result.Translated? {
      JoinComplete(answers, k, k + left.prompts, k + left.prompts + right.prompts, items, midpoint,
                   left.result.values, right.result.values);
    }
  }

  /** A batch of n strings takes at most 4n - 2 prompts, whatever the replies. */
  lemma {:induction false} PromptBound(answers: Answers, k: nat, items: seq<Item>, attempt: nat, last: string)
    requires attempt <= TRANSLATE_MAX_ATTEMPTS && |items| >= 1
    ensures RunFrom(answers, k, items, attempt, last).prompts <= 4 * |items| - 2 - attempt
    decreases |items|, TRANSLATE_MAX_ATTEMPTS - attempt
  {
    hide IsPromptTimeoutError, ReadReply;
    if attempt < TRANSLATE_MAX_ATTEMPTS {
      match ReadReply(answers(k), items)
      case Translated(_) =>
      case Failed(message) =>
        if IsPromptTimeoutError(message) && |items| > 1 {
          var midpoint := (|items| + 1) / 2;
          var left := RunBatch(answers, k + 1, items[..midpoint]);
          PromptBound(answers, k + 1, items[..midpoint], 0, "translation failed");
          PromptBound(answers, k + 1 + left.prompts, items[midpoint..], 0, "translation failed");
        } else if !IsPromptTimeoutError(message) {
          PromptBound(answers, k + 1, items, attempt + 1, message);
        }
    }
  }

  function Pow2(n: nat): nat {
    if n == 0 then 1 else 2 * Pow2(n - 1)
  }

  /** The splitting depth is at most the ceiling of the base-2 logarithm of the size. */
  lemma {:induction false} DepthBound(answers: Answers, k: nat, items: seq<Item>, attempt: nat, last: string)
    requires attempt <= TRANSLATE_MAX_ATTEMPTS
    ensures var depth := RunFrom(answers, k, items, attempt, last).depth;
      depth > 0 ==> Pow2(depth - 1) < |items|
    decreases |items|, TRANSLATE_MAX_ATTEMPTS - attempt
  {
    hide IsPromptTimeoutError, ReadReply;
    if attempt < TRANSLATE_MAX_ATTEMPTS {
      match ReadReply(answers(k), items)
      case Translated(_) =>
      case Failed(message) =>
        if IsPromptTimeoutError(message) && |items| > 1 {
          var midpoint := (|items| + 1) / 2;
          var left := RunBatch(answers, k + 1, items[..midpoint]);
          DepthBound(answers, k + 1, items[..midpoint], 0, "translation failed");
          DepthBound(answers, k + 1 + left.prompts, items[midpoint..], 0, "translation failed");
        } else if !IsPromptTimeoutError(message) {
          DepthBound(answers, k + 1, items, attempt + 1, message);
        }
    }
  }

  ghost predicate Segment(s: seq<Item>, items: seq<Item>) {
    exists i, j :: 0 <= i <= j <= |items| && s == items[i..j]
  }

  /** The last prompt asked for the strings s in vain, and nothing was left to try: it was no timeout,
      or there was nothing to split. */
  ghost predicate GaveUp(reply: Reply, s: seq<Item>, message: string) {
    ReadReply(reply, s) == Failed(message) && (|s| <= 1 || !IsPromptTimeoutError(message))
  }

  lemma WholeSegment(items: seq<Item>)
    ensures Segment(items, items)
  {
    assert items == items[0..|items|];
  }

  lemma SegmentOfHalf(s: seq<Item>, items: seq<Item>, lo: nat, hi: nat)
    requires lo <= hi <= |items| && Segment(s, items[lo..hi])
    ensures Segment(s, items)
  {
    var i, j :| 0 <= i <= j <= |items[lo..hi]| && s == items[lo..hi][i..j];
    var half := items[lo..hi];
    forall x | 0 <= x < j - i ensures half[i..j][x] == items[lo + i..lo + j][x] {
      assert half[i + x] == items[lo + i + x];
    }
    assert s == items[lo + i..lo + j];
  }

  /** A batch fails only with the error of its very last prompt, when that one gave up on a run of its items. */
  lemma {:induction false} FailsWithLastError(answers: Answers, k: nat, items: seq<Item>, attempt: nat, last: string)
    returns (s: seq<Item>)
    requires attempt < TRANSLATE_MAX_ATTEMPTS
    ensures var run := RunFrom(answers, k, items, attempt, last);
      run.result.Failed? ==>
        run.prompts >= 1 && Segment(s, items) && GaveUp(answers(k + run.prompts - 1), s, run.result.message)
    decreases |items|, TRANSLATE_MAX_ATTEMPTS - attempt
  {
    hide IsPromptTimeoutError, ReadReply, Segment;
    s := items;
    WholeSegment(items);
    match ReadReply(answers(k), items)
    case Translated(_) =>
    case Failed(message) =>
      if IsPromptTimeoutError(message) && |items| > 1 {
        var midpoint := (|items| + 1) / 2;
        var left := RunBatch(answers, k + 1, items[..midpoint]);
        assert items[..midpoint] == items[0..midpoint] && items[midpoint..] == items[midpoint..|items|];
        if left.result.Failed? {
          s := FailsWithLastError(answers, k + 1, items[..midpoint], 0, "translation failed");
          SegmentOfHalf(s, items, 0, midpoint);
        } else {
          s := FailsWithLastError(answers, k + 1 + left.prompts, items[midpoint..], 0, "translation failed");
          if RunBatch(answers, k + 1 + left.prompts, items[midpoint..]).result.Failed? {
            SegmentOfHalf(s, items, midpoint, |items|);
          }
        }
      } else if !IsPromptTimeoutError(message) && attempt + 1 < TRANSLATE_MAX_ATTEMPTS {
        s := FailsWithLastError(answers, k + 1, items, attempt + 1, message);
      }
  }

  // ----- which errors split a batch, and what each first outcome leads to

  /** The nine letters, each in either case. */
  predicate SaysTimedOut(w: string) {
    |w| == 9 && forall i :: 0 <= i < 9 ==> w[i] == "timed out"[i] || w[i] == "TIMED OUT"[i]
  }

  lemma CaseOf(w: string)
    requires |w| == 9
    ensures ToLower(w) == "timed out" <==> SaysTimedOut(w)
  {
    var l, t := ToLower(w), "timed out";
    assert forall i :: 0 <= i < 9 ==> (l[i] == t[i] <==> w[i] == t[i] || w[i] == "TIMED OUT"[i]);
    if SaysTimedOut(w) {
      assert forall i :: 0 <= i < 9 ==> l[i] == t[i];
      assert l == t;
    }
    if l == t {
      forall i | 0 <= i < 9 ensures w[i] == t[i] || w[i] == "TIMED OUT"[i] {
        assert l[i] == t[i];
      }
    }
  }

  predicate TimedOutAt(message: string, i: int) {
    0 <= i && i + 9 <= |message| && SaysTimedOut(message[i..i + 9])
  }

  /** An error is a timeout exactly when its message says so somewhere, in whatever case. */
  lemma TimeoutMessages(message: string)
    ensures IsPromptTimeoutError(message) <==> exists i :: TimedOutAt(message, i)
  {
    hide SaysTimedOut;
    var l := ToLower(message);
    forall i: int ensures 0 <= i && OccursAt(l, "timed out", i) <==> TimedOutAt(message, i) {
      if 0 <= i && i + 9 <= |message| {
        assert l[i..i + 9] == ToLower(message[i..i + 9]);
        CaseOf(message[i..i + 9]);
      }
    }
    if i :| TimedOutAt(message, i) {
      assert OccursAt(l, "timed out", i);
    }
  }

  lemma TimeoutAnywhere(before: string, w: string, after: string)
    requires SaysTimedOut(w)
    ensures IsPromptTimeoutError(before + w + after)
  {
    var message := before + w + after;
    assert message[|before|..|before| + 9] == w;
    assert TimedOutAt(message, |before|);
    TimeoutMessages(message);
  }

  ghost predicate AllGiven(fields: map<string, string>, items: seq<Item>) {
    forall item :: item in items ==> item.key in fields && !IsBlank(fields[item.key])
  }

  /** A reply with a non-blank value for every item is accepted, with exactly those values. */
  lemma {:induction false} CompleteReplyReads(fields: map<string, string>, items: seq<Item>, translated: map<string, string>)
    requires AllGiven(fields, items)
    ensures ReadFields(fields, items, translated) == Translated(translated + GivenValues(fields, items))
  {
    hide IsBlank;
    if items != [] {
      var key := items[0].key;
      assert items[0] in items;
      CompleteReplyReads(fields, items[1..], translated[key := fields[key]]);
      GivenStep(fields, items, translated);
    } else {
      assert translated + GivenValues(fields, []) == translated;
    }
  }

  lemma GivenStep(fields: map<string, string>, items: seq<Item>, translated: map<string, string>)
    requires items != [] && items[0].key in fields
    ensures var key := items[0].key;
      translated[key := fields[key]] + GivenValues(fields, items[1..]) == translated + GivenValues(fields, items)
  {
    assert items == [items[0]] + items[1..];
    assert Keys(items) == {items[0].key} + Keys(items[1..]);
    hide Keys;
  }

  function GivenValues(fields: map<string, string>, items: seq<Item>): map<string, string> {
    map key | key in fields && key in Keys(items) :: fields[key]
  }

  /** Of any other reply the first item without a non-blank value is named. */
  lemma {:induction false} IncompleteReplyFails(fields: map<string, string>, items: seq<Item>, translated: map<string, string>) returns (n: nat)
    requires !AllGiven(fields, items)
    ensures FirstMissing(fields, items, n) && ReadFields(fields, items, translated) == Failed("missing translation for " + items[n].key)
  {
    hide IsBlank;
    var key := items[0].key;
    n := 0;
    if key in fields && !IsBlank(fields[key]) {
      assert items == [items[0]] + items[1..];
      n := IncompleteReplyFails(fields, items[1..], translated[key := fields[key]]);
      n := n + 1;
    }
  }

  ghost predicate FirstMissing(fields: map<string, string>, items: seq<Item>, n: int) {
    && 0 <= n < |items|
    && !(items[n].key in fields && !IsBlank(fields[items[n].key]))
    && forall m :: 0 <= m < n ==> items[m].key in fields && !IsBlank(fields[items[m].key])
  }

  /** A batch of two or more whose prompt timed out comes to what its halves come to, the first half being the
      larger one, after that one prompt; a single string fails at once. */
  lemma TimeoutSplits(answers: Answers, k: nat, items: seq<Item>, before: string, w: string, after: string, half: nat)
    requires SaysTimedOut(w) && answers(k) == Raised(before + w + after)
    requires 2 * half == |items| || 2 * half == |items| + 1
    ensures |items| == 1 ==> RunBatch(answers, k, items) == Run(Failed(before + w + after), 1, 0)
    ensures |items| > 1 ==>
      var run, left := RunBatch(answers, k, items), RunBatch(answers, k + 1, items[..half]);
      var right := RunBatch(answers, k + 1 + left.prompts, items[half..]);
      if left.result.Failed? then run.result == left.result && run.prompts == 1 + left.prompts
      else
        && run.prompts == 1 + left.prompts + right.prompts
        && run.result == if right.result.Failed? then right.result else Translated(left.result.values + right.result.values)
  {
    TimeoutAnywhere(before, w, after);
    hide IsPromptTimeoutError;
    if |items| > 1 {
      assert half == (|items| + 1) / 2;
      var halves := SplitBatch(answers, k + 1, items);
    }
  }

  /** After any other failure the whole batch is asked for once more, and no more than that. */
  lemma OtherErrorAsksAgain(answers: Answers, k: nat, items: seq<Item>)
    requires ReadReply(answers(k), items).Failed? && !IsPromptTimeoutError(ReadReply(answers(k), items).message)
    ensures match ReadReply(answers(k + 1), items)
      case Translated(values) => RunBatch(answers, k, items) == Run(Translated(values), 2, 0)
      case Failed(message) => !IsPromptTimeoutError(message) || |items| <= 1 ==> RunBatch(answers, k, items) == Run(Failed(message), 2, 0)
  {
    hide IsPromptTimeoutError, ReadReply;
    var again := RunFrom(answers, k + 1, items, 1, ReadReply(answers(k), items).message);
    if ReadReply(answers(k + 1), items).Failed? {
      assert RunFrom(answers, k + 2, items, 2, ReadReply(answers(k + 1), items).message).prompts == 0;
    }
  }

  // ----- the bound on prompts is met

  const TIMEOUT := Raised("timed out")
  const HICCUP := Raised("")

  function Echo(items: seq<Item>): Reply {
    Parsed(map key | key in Keys(items) :: "x")
  }

  /** Replies that make a batch ask as often as it can: each part fails, then times out until it is a single string. */
  function WorstReplies(items: seq<Item>): seq<Reply>
    decreases |items|
  {
    if |items| <= 1 then [HICCUP, Echo(items)]
    else
      var midpoint := (|items| + 1) / 2;
      [HICCUP, TIMEOUT] + WorstReplies(items[..midpoint]) + WorstReplies(items[midpoint..])
  }

  ghost predicate AnswersWith(answers: Answers, k: nat, replies: seq<Reply>) {
    forall i :: 0 <= i < |replies| ==> answers(k + i) == replies[i]
  }

  lemma TimeoutIsTimeout()
    ensures IsPromptTimeoutError("timed out") && !IsPromptTimeoutError("")
  {
    var s := "timed out";
    assert ToLower(s) == s;
    assert OccursAt(s, s, 0);
  }

  lemma {:induction false} EchoReads(fields: map<string, string>, items: seq<Item>, translated: map<string, string>)
    requires forall item :: item in items ==> item.key in fields && fields[item.key] == "x"
    ensures ReadFields(fields, items, translated).Translated?
  {
    if items != [] {
      assert !IsSpace("x"[0]);
      EchoReads(fields, items[1..], translated[items[0].key := fields[items[0].key]]);
    }
  }

  lemma AnswersWithParts(answers: Answers, k: nat, a: seq<Reply>, b: seq<Reply>)
    requires AnswersWith(answers, k, a + b)
    ensures AnswersWith(answers, k, a) && AnswersWith(answers, k + |a|, b)
  {
    forall i | 0 <= i < |a| ensures answers(k + i) == a[i] {
      assert (a + b)[i] == a[i];
    }
    forall i | 0 <= i < |b| ensures answers(k + |a| + i) == b[i] {
      assert (a + b)[|a| + i] == b[i];
    }
  }

  lemma WorstOfOne(answers: Answers, k: nat, items: seq<Item>)
    requires |items| == 1 && answers(k) == HICCUP && answers(k + 1) == Echo(items)
    ensures var run := RunBatch(answers, k, items); run.result.Translated? && run.prompts == 2
  {
    TimeoutIsTimeout();
    EchoReads(Echo(items).fields, items, map[]);
    hide IsPromptTimeoutError;
    var again := RunFrom(answers, k + 1, items, 1, "");
    assert again.prompts == 1 && again.result.Translated?;
  }

  lemma WorstOfMany(answers: Answers, k: nat, items: seq<Item>, left: Run, right: Run)
    requires |items| > 1 && answers(k) == HICCUP && answers(k + 1) == TIMEOUT
    requires left == RunBatch(answers, k + 2, items[..(|items| + 1) / 2]) && left.result.Translated?
    requires right == RunBatch(answers, k + 2 + left.prompts, items[(|items| + 1) / 2..]) && right.result.Translated?
    ensures var run := RunBatch(answers, k, items);
      run.result.Translated? && run.prompts == 2 + left.prompts + right.prompts
  {
    TimeoutIsTimeout();
    hide IsPromptTimeoutError;
    var halves := SplitBatch(answers, k + 2, items);
    assert halves.result.Translated? && halves.prompts == left.prompts + right.prompts;
    var again := RunFrom(answers, k + 1, items, 1, "");
    assert again.result == halves.result;
  }

  /** For every batch there are replies under which it takes 4n - 2 prompts, and still returns. */
  lemma {:induction false} PromptBoundIsMet(answers: Answers, k: nat, items: seq<Item>)
    requires |items| >= 1 && AnswersWith(answers, k, WorstReplies(items))
    ensures |WorstReplies(items)| == 4 * |items| - 2
    ensures var run := RunBatch(answers, k, items); run.result.Translated? && run.prompts == 4 * |items| - 2
    decreases |items|
  {
    hide RunBatch;
    var w := WorstReplies(items);
    assert answers(k + 0) == w[0] == HICCUP;
    if |items| == 1 {
      assert answers(k + 1) == w[1];
      WorstOfOne(answers, k, items);
    } else {
      assert answers(k + 1) == w[1];
      var midpoint := (|items| + 1) / 2;
      var left, right := WorstReplies(items[..midpoint]), WorstReplies(items[midpoint..]);
      assert w == [HICCUP, TIMEOUT] + (left + right);
      AnswersWithParts(answers, k, [HICCUP, TIMEOUT], left + right);
      AnswersWithParts(answers, k + 2, left, right);
      PromptBoundIsMet(answers, k + 2, items[..midpoint]);
      PromptBoundIsMet(answers, k + 2 + |left|, items[midpoint..]);
      WorstOfMany(answers, k, items, RunBatch(answers, k + 2, items[..midpoint]),
                  RunBatch(answers, k + 2 + |left|, items[midpoint..]));
    }
  }

  // ----- the code

  class PromptClient {
    const answers: Answers
    var asked: nat
    ghost var deepest: nat

    constructor (answers: Answers)
      ensures this.answers == answers && asked == 0 && deepest == 0
    {
      this.answers := answers;
      asked, deepest := 0, 0;
    }

    method Prompt() returns (reply: Reply)
      modifies this`asked
      ensures reply == answers(old(asked)) && asked == old(asked) + 1
    {
      reply := answers(asked);
      asked := asked + 1;
    }
  }

  method TranslateBatch(client: PromptClient, items: seq<Item>, splitDepth: nat) returns (r: Result)
    modifies client
    ensures var run := RunBatch(client.answers, old(client.asked), items);
      && r == run.result
      && client.asked == old(client.asked) + run.prompts
      && client.deepest == Max(old(client.deepest), splitDepth + run.depth)
    decreases |items|
  {
    hide IsPromptTimeoutError, ReadReply;
    ghost var start := client.asked;
    ghost var run := RunBatch(client.answers, start, items);
    client.deepest := Max(client.deepest, splitDepth);
    var lastError: string := "translation failed";
    for attempt := 0 to TRANSLATE_MAX_ATTEMPTS
      invariant client.asked == start + attempt
      invariant client.deepest == Max(old(client.deepest), splitDepth)
      invariant var rest := RunFrom(client.answers, client.asked, items, attempt, lastError);
        run == Run(rest.result, attempt + rest.prompts, rest.depth)
    {
      var reply := client.Prompt();
      var read := ReadReply(reply, items);
      if read.Translated? {
        return read;
      }
      lastError := read.message;
      if IsPromptTimeoutError(lastError) && |items| > 1 {
        var midpoint := (|items| + 1) / 2;
        var left := TranslateBatch(client, items[..midpoint], splitDepth + 1);
        if left.Failed? {
          return left;
        }
        var right := TranslateBatch(client, items[midpoint..], splitDepth + 1);
        if right.Failed? {
          return right;
        }
        return Translated(left.values + right.values);
      }
      if IsPromptTimeoutError(lastError) {
        return Failed(lastError);
      }
    }
    return Failed(lastError);
  }
}
