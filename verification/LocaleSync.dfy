/** Which translation each source string gets in a sync run, and what a second run makes of the first. */
module LocaleSync {
  import opened Basics
  import opened TranslationBatches
  import opened TranslateRetry
  import opened JsText
  import LocaleTree

  type Entry = LocaleTree.Entry

  /** What a run starts from. Hashes are taken to be injective, so no two keys share a cache key; two
      texts may share a hash, since white space is normalised before hashing. */
  datatype Inputs = Inputs(
    source: seq<Entry>,
    existing: map<string, string>,
    previousFallback: set<string>,
    tm: map<string, string>,
    hashText: string -> string,
    cacheKey: (string, string) -> string,
    allowTranslate: bool,
    force: bool)

  ghost predicate Wellformed(i: Inputs) {
    && LocaleTree.DistinctKeys(i.source)
    && forall k, t, l, u :: i.cacheKey(k, t) == i.cacheKey(l, u) ==> k == l
  }

  datatype Outcome = Outcome(next: map<string, string>, fallback: set<string>, tm: map<string, string>)

  predicate Refresh(i: Inputs, e: Entry) {
    i.allowTranslate && e.key in i.previousFallback
  }

  function CacheKey(i: Inputs, e: Entry): string {
    i.cacheKey(e.key, i.hashText(e.value))
  }

  predicate IsPending(i: Inputs, e: Entry) {
    Refresh(i, e) || (CacheKey(i, e) !in i.tm && e.key !in i.existing)
  }

  function SourceKeys(i: Inputs): set<string> {
    set e | e in i.source :: e.key
  }

  function PendingKeys(i: Inputs): set<string> {
    set e | e in i.source && IsPending(i, e) :: e.key
  }

  /** The provider gave a usable value: an empty one does not count. */
  predicate IsTranslated(i: Inputs, translated: map<string, string>, e: Entry) {
    i.allowTranslate && IsPending(i, e) && e.key in translated && translated[e.key] != ""
  }

  function NextValue(i: Inputs, translated: map<string, string>, e: Entry): string {
    if !IsPending(i, e) then
      if CacheKey(i, e) in i.tm then i.tm[CacheKey(i, e)]
      else if e.key in i.existing then i.existing[e.key] else ""
    else if IsTranslated(i, translated, e) then translated[e.key]
    else if e.key in i.existing && !i.force then i.existing[e.key]
    else e.value
  }

  predicate IsFallback(i: Inputs, translated: map<string, string>, e: Entry) {
    if !IsPending(i, e) then e.key in i.previousFallback
    else if IsTranslated(i, translated, e) then false
    else if e.key in i.existing && !i.force then e.key in i.previousFallback
    else true
  }

  /** The memory after a run: each translated string under its own key, everything else as it was. */
  ghost predicate Remembered(i: Inputs, translated: map<string, string>, tm: map<string, string>) {
    && (forall e :: e in i.source && IsTranslated(i, translated, e) ==>
          CacheKey(i, e) in tm && tm[CacheKey(i, e)] == translated[e.key])
    && (forall k :: k in i.tm ==> k in tm)
    && (forall k :: k in tm && !(exists e :: e in i.source && IsTranslated(i, translated, e) && CacheKey(i, e) == k) ==>
          k in i.tm && tm[k] == i.tm[k])
  }

  ghost predicate IsOutcome(i: Inputs, translated: map<string, string>, o: Outcome) {
    && o.next.Keys == SourceKeys(i)
    && (forall e :: e in i.source ==> o.next[e.key] == NextValue(i, translated, e))
    && o.fallback == (set e | e in i.source && IsFallback(i, translated, e) :: e.key)
    && Remembered(i, translated, o.tm)
  }

  // ----- the decision table, from what a run starts with

  /** Nothing is asked for the string: it is remembered or there already, and no fallback to be replaced. */
  predicate Known(i: Inputs, e: Entry) {
    !(i.allowTranslate && e.key in i.previousFallback) && (i.cacheKey(e.key, i.hashText(e.value)) in i.tm || e.key in i.existing)
  }

  /** Which text each source string gets, and which strings are marked as fallbacks: a known string has its
      remembered text, or else the one that is there, and stays a fallback if it was one; a string translated now
      is none; any other keeps the text that is there, unless it is to be replaced, or gets the source text and
      is marked. */
  lemma DecisionTable(i: Inputs, translated: map<string, string>, o: Outcome, e: Entry)
    requires Wellformed(i) && IsOutcome(i, translated, o) && e in i.source
    ensures var k := i.cacheKey(e.key, i.hashText(e.value));
      e.key in o.next &&
      if Known(i, e) then
        && o.next[e.key] == (if k in i.tm then i.tm[k] else i.existing[e.key])
        && (e.key in o.fallback <==> e.key in i.previousFallback)
      else if i.allowTranslate && e.key in translated && translated[e.key] != "" then
        o.next[e.key] == translated[e.key] && e.key !in o.fallback
      else if e.key in i.existing && !i.force then
        o.next[e.key] == i.existing[e.key] && (e.key in o.fallback <==> e.key in i.previousFallback)
      else
        o.next[e.key] == e.value && e.key in o.fallback
  {
    OutcomeKeys(i, translated, o);
    FallbackOf(i, translated, o, e);
  }

  lemma FallbackOf(i: Inputs, translated: map<string, string>, o: Outcome, e: Entry)
    requires Wellformed(i) && IsOutcome(i, translated, o) && e in i.source
    ensures e.key in o.fallback <==> IsFallback(i, translated, e)
  {
    hide IsFallback, NextValue, Remembered;
    if e.key in o.fallback {
      var f :| f in i.source && IsFallback(i, translated, f) && f.key == e.key;
      SameEntry(i.source, e, f);
    }
  }

  lemma SameEntry(source: seq<Entry>, e: Entry, f: Entry)
    requires LocaleTree.DistinctKeys(source) && e in source && f in source && e.key == f.key
    ensures e == f
  {
  }

  /** After a run without a provider the fallbacks are the source strings that are neither remembered nor there
      already, and those that were fallbacks before; each of them is asked for in the next run with a provider. */
  lemma OfflineFallbacks(i: Inputs, translated: map<string, string>, o: Outcome, e: Entry,
                         cacheKey': (string, string) -> string, force: bool)
    requires Wellformed(i) && IsOutcome(i, translated, o) && !i.allowTranslate && e in i.source
    ensures o.fallback <= SourceKeys(i)
    ensures var unknown := i.cacheKey(e.key, i.hashText(e.value)) !in i.tm && e.key !in i.existing;
      && (e.key in o.fallback <==> unknown || e.key in i.previousFallback)
      && (unknown ==> e.key in o.next && o.next[e.key] == e.value)
      && (e.key in PendingKeys(NextInputs(i, o, cacheKey', true, force)) <==> unknown || e.key in i.previousFallback)
  {
    DecisionTable(i, translated, o, e);
    SecondRunPending(i, translated, o, cacheKey', true, force);
  }

  // ----- what a second run makes of the first

  /** The next run over the same source starts from what this one wrote. Its memory keys are its own, since
      they name the provider and the model configured at the time. */
  function NextInputs(i: Inputs, o: Outcome, cacheKey': (string, string) -> string, allowTranslate: bool, force: bool): Inputs {
    i.(existing := o.next, previousFallback := o.fallback, tm := o.tm, cacheKey := cacheKey',
       allowTranslate := allowTranslate, force := force)
  }

  /** The second run has exactly the first run's fallbacks to work on, and only when it can translate. */
  lemma SecondRunPending(i: Inputs, translated: map<string, string>, o: Outcome, cacheKey': (string, string) -> string,
                         allowTranslate: bool, force: bool)
    requires Wellformed(i) && IsOutcome(i, translated, o)
    ensures PendingKeys(NextInputs(i, o, cacheKey', allowTranslate, force)) == if allowTranslate then o.fallback else {}
  {
    var j := NextInputs(i, o, cacheKey', allowTranslate, force);
    forall e | e in i.source ensures IsPending(j, e) <==> allowTranslate && e.key in o.fallback {
      assert e.key in SourceKeys(i);
    }
    forall k | k in o.fallback ensures k in SourceKeys(i) {
    }
  }

  /** Under the second run's keys the memory holds another text than the one the first run put out. */
  ghost predicate Overruled(i: Inputs, o: Outcome, cacheKey': (string, string) -> string, e: Entry)
    requires e in i.source ==> e.key in o.next
  {
    e in i.source &&
      var k := cacheKey'(e.key, i.hashText(e.value));
      k in o.tm && o.tm[k] != o.next[e.key]
  }

  ghost predicate NoneOverruled(i: Inputs, o: Outcome, cacheKey': (string, string) -> string)
    requires forall e :: e in i.source ==> e.key in o.next
  {
    forall e :: e in i.source ==> !Overruled(i, o, cacheKey', e)
  }

  lemma OutcomeKeys(i: Inputs, translated: map<string, string>, o: Outcome)
    requires IsOutcome(i, translated, o)
    ensures forall e :: e in i.source ==> e.key in o.next
  {
    forall e | e in i.source ensures e.key in o.next {
      assert e.key in SourceKeys(i);
    }
  }

  /** What the second run makes of a string it does not ask for. */
  lemma SecondEntry(i: Inputs, translated: map<string, string>, o: Outcome, cacheKey': (string, string) -> string,
                    allowTranslate: bool, force: bool, translated': map<string, string>, e: Entry)
    requires IsOutcome(i, translated, o) && e in i.source && e.key in o.next && (allowTranslate ==> o.fallback == {})
    ensures var j := NextInputs(i, o, cacheKey', allowTranslate, force);
      && !IsPending(j, e)
      && (NextValue(j, translated', e) == o.next[e.key] <==> !Overruled(i, o, cacheKey', e))
      && (IsFallback(j, translated', e) <==> e.key in o.fallback)
  {
  }

  /** A second run that has nothing to ask for repeats the fallbacks, and repeats the locale map exactly
      when the memory overrules none of its texts. */
  lemma SecondRunQuiet(i: Inputs, translated: map<string, string>, o: Outcome, cacheKey': (string, string) -> string,
                       allowTranslate: bool, force: bool, translated': map<string, string>, o': Outcome)
    requires IsOutcome(i, translated, o) && (allowTranslate ==> o.fallback == {})
    requires forall e :: e in i.source ==> e.key in o.next
    requires IsOutcome(NextInputs(i, o, cacheKey', allowTranslate, force), translated', o')
    ensures o'.fallback == o.fallback
    ensures o'.next == o.next <==> NoneOverruled(i, o, cacheKey')
  {
    var j := NextInputs(i, o, cacheKey', allowTranslate, force);
    forall e | e in i.source
      ensures NextValue(j, translated', e) == o.next[e.key] <==> !Overruled(i, o, cacheKey', e)
      ensures IsFallback(j, translated', e) <==> e.key in o.fallback
    {
      SecondEntry(i, translated, o, cacheKey', allowTranslate, force, translated', e);
    }
    hide IsFallback, NextValue, Overruled, Remembered, IsPending;
    SameFallback(i, translated, o, j, translated', o');
    SameNext(i, o, j, translated', o');
  }

  lemma SameFallback(i: Inputs, translated: map<string, string>, o: Outcome, j: Inputs, translated': map<string, string>, o': Outcome)
    requires IsOutcome(i, translated, o) && IsOutcome(j, translated', o') && j.source == i.source
    requires forall e :: e in i.source ==> (IsFallback(j, translated', e) <==> e.key in o.fallback)
    ensures o'.fallback == o.fallback
  {
    hide IsFallback, NextValue, Remembered;
    forall k ensures k in o.fallback <==> k in o'.fallback {
    }
  }

  lemma SameNext(i: Inputs, o: Outcome, j: Inputs, translated': map<string, string>, o': Outcome)
    requires o.next.Keys == SourceKeys(i) && IsOutcome(j, translated', o') && j.source == i.source
    requires forall e :: e in i.source ==> e.key in o.next
    ensures o'.next == o.next <==> forall e :: e in i.source ==> NextValue(j, translated', e) == o.next[e.key]
  {
    hide IsFallback, NextValue, Remembered;
    if forall e :: e in i.source ==> NextValue(j, translated', e) == o.next[e.key] {
      forall k | k in o.next ensures o'.next[k] == o.next[k] {
        var e :| e in i.source && e.key == k;
      }
    }
  }

  /** Without a provider, a second run gives the same fallbacks and the same memory, and the same locale map
      exactly when the memory overrules none of its texts. */
  lemma SecondRunOffline(i: Inputs, translated: map<string, string>, o: Outcome, cacheKey': (string, string) -> string,
                         force: bool, translated': map<string, string>, o': Outcome)
    requires IsOutcome(i, translated, o)
    requires IsOutcome(NextInputs(i, o, cacheKey', false, force), translated', o')
    ensures (forall e :: e in i.source ==> e.key in o.next) && o'.fallback == o.fallback && o'.tm == o.tm
    ensures o'.next == o.next <==> NoneOverruled(i, o, cacheKey')
  {
    OutcomeKeys(i, translated, o);
    SecondRunQuiet(i, translated, o, cacheKey', false, force, translated', o');
    OfflineRemembers(NextInputs(i, o, cacheKey', false, force), translated', o');
  }

  lemma OfflineRemembers(i: Inputs, translated: map<string, string>, o: Outcome)
    requires !i.allowTranslate && IsOutcome(i, translated, o)
    ensures o.tm == i.tm
  {
    assert o.tm.Keys == i.tm.Keys;
  }

  ghost predicate AllTranslated(i: Inputs, translated: map<string, string>) {
    forall e :: e in i.source && IsPending(i, e) ==> IsTranslated(i, translated, e)
  }

  /** After a provider run that translated all it was asked for there are no fallbacks, and a second run, with
      or without a provider, has nothing to ask for; it writes the same locale map exactly when the memory
      overrules none of its texts. */
  lemma SecondRunAfterProvider(i: Inputs, translated: map<string, string>, o: Outcome, cacheKey': (string, string) -> string,
                               allowTranslate: bool, force: bool, translated': map<string, string>, o': Outcome)
    requires Wellformed(i) && i.allowTranslate && AllTranslated(i, translated) && IsOutcome(i, translated, o)
    requires IsOutcome(NextInputs(i, o, cacheKey', allowTranslate, force), translated', o')
    ensures o.fallback == {} && PendingKeys(NextInputs(i, o, cacheKey', allowTranslate, force)) == {}
    ensures (forall e :: e in i.source ==> e.key in o.next) && o'.fallback == {}
    ensures o'.next == o.next <==> NoneOverruled(i, o, cacheKey')
  {
    assert o.fallback == {};
    SecondRunPending(i, translated, o, cacheKey', allowTranslate, force);
    OutcomeKeys(i, translated, o);
    SecondRunQuiet(i, translated, o, cacheKey', allowTranslate, force, translated', o');
  }

  lemma MemoryAfter(i: Inputs, translated: map<string, string>, o: Outcome, e: Entry)
    requires Wellformed(i) && IsOutcome(i, translated, o) && e in i.source
    ensures IsTranslated(i, translated, e) ==> CacheKey(i, e) in o.tm && o.tm[CacheKey(i, e)] == translated[e.key]
    ensures !IsTranslated(i, translated, e) ==> (CacheKey(i, e) in o.tm <==> CacheKey(i, e) in i.tm)
    ensures !IsTranslated(i, translated, e) && CacheKey(i, e) in i.tm ==> o.tm[CacheKey(i, e)] == i.tm[CacheKey(i, e)]
  {
    if !IsTranslated(i, translated, e) {
      forall f | f in i.source && IsTranslated(i, translated, f) ensures CacheKey(i, f) != CacheKey(i, e) {
      }
    }
  }

  /** A completed run is never overruled by the memory under its own keys. */
  lemma OwnKeysAgree(i: Inputs, translated: map<string, string>, o: Outcome)
    requires Wellformed(i) && IsOutcome(i, translated, o) && (i.allowTranslate ==> AllTranslated(i, translated))
    requires forall e :: e in i.source ==> e.key in o.next
    ensures NoneOverruled(i, o, i.cacheKey)
  {
    forall e | e in i.source ensures !Overruled(i, o, i.cacheKey, e) {
      MemoryAfter(i, translated, o, e);
    }
  }

  /** Whatever run came first, with a provider that delivered or without one: running again without a provider,
      for the same configured provider and model, gives the same locale map, fallbacks and memory. */
  lemma OfflineIsFixpoint(i: Inputs, translated: map<string, string>, o: Outcome, force: bool,
                          translated': map<string, string>, o': Outcome)
    requires Wellformed(i) && IsOutcome(i, translated, o) && (i.allowTranslate ==> AllTranslated(i, translated))
    requires IsOutcome(NextInputs(i, o, i.cacheKey, false, force), translated', o')
    ensures o' == o
  {
    SecondRunOffline(i, translated, o, i.cacheKey, force, translated', o');
    OwnKeysAgree(i, translated, o);
  }

  /** So does a second run with a provider, after a first one that translated all it was asked for. */
  lemma ProviderIsFixpoint(i: Inputs, translated: map<string, string>, o: Outcome, force: bool,
                           translated': map<string, string>, o': Outcome)
    requires Wellformed(i) && i.allowTranslate && AllTranslated(i, translated) && IsOutcome(i, translated, o)
    requires IsOutcome(NextInputs(i, o, i.cacheKey, true, force), translated', o')
    ensures o' == o
  {
    SecondRunAfterProvider(i, translated, o, i.cacheKey, true, force, translated', o');
    OwnKeysAgree(i, translated, o);
    var j := NextInputs(i, o, i.cacheKey, true, force);
    forall e | e in i.source ensures !IsTranslated(j, translated', e) {
      assert IsPending(j, e) ==> e.key in PendingKeys(j);
    }
    assert o'.tm.Keys == o.tm.Keys;
  }

  const KEYED_BY_ANTHROPIC: (string, string) -> string := (key, textHash) => "anthropic/" + key
  const KEYED_BY_OPENAI: (string, string) -> string := (key, textHash) => "openai/" + key

  /** A run with an Anthropic key writes "B" for a string whose memory, from the days of OpenAI, says "A". */
  function MovedProvider(): Inputs {
    Inputs([LocaleTree.Entry("k", "text")], map["k" := "B"], {}, map["openai/k" := "A"], text => text, KEYED_BY_ANTHROPIC, true, false)
  }

  /** Between two runs the configured provider can change with the keys in the environment: then the second
      run brings back a text the first one has replaced. */
  lemma ChangedProviderOverrules()
    ensures var i, o := MovedProvider(), Outcome(map["k" := "B"], {}, map["openai/k" := "A"]);
      && Wellformed(i) && AllTranslated(i, map[]) && IsOutcome(i, map[], o)
      && IsOutcome(NextInputs(i, o, KEYED_BY_OPENAI, false, false), map[], Outcome(map["k" := "A"], {}, o.tm))
  {
    var i, o := MovedProvider(), Outcome(map["k" := "B"], {}, map["openai/k" := "A"]);
    var e := LocaleTree.Entry("k", "text");
    assert i.source == [e];
    forall k, t, l, u ensures i.cacheKey(k, t) == i.cacheKey(l, u) ==> k == l {
      assert ("anthropic/" + k)[10..] == k && ("anthropic/" + l)[10..] == l;
    }
    assert CacheKey(i, e)[0] == 'a' && "openai/k"[0] == 'o';
    assert !IsPending(i, e);
    assert SourceKeys(i) == {"k"};
    var j := NextInputs(i, o, KEYED_BY_OPENAI, false, false);
    assert CacheKey(j, e) == "openai/k";
    assert SourceKeys(j) == {"k"};
    assert NextValue(j, map[], e) == "A" && !IsFallback(j, map[], e);
  }

  /** The fallbacks are among the source keys, so the count of translated strings is never negative. */
  lemma CountsAddUp(i: Inputs, translated: map<string, string>, o: Outcome)
    requires Wellformed(i) && IsOutcome(i, translated, o)
    ensures |SourceKeys(i)| == |i.source| && |o.fallback| <= |i.source| && o.fallback <= o.next.Keys
  {
    KeyCount(i.source);
    SubsetSize(o.fallback, SourceKeys(i));
  }

  lemma {:induction false} KeyCount(source: seq<Entry>)
    requires LocaleTree.DistinctKeys(source)
    ensures |(set e | e in source :: e.key)| == |source|
    decreases |source|
  {
    if source != [] {
      var front, last := source[..|source| - 1], source[|source| - 1];
      KeyCount(front);
      assert source == front + [last];
      assert (set e | e in source :: e.key) == (set e | e in front :: e.key) + {last.key};
      assert last.key !in (set e | e in front :: e.key);
    }
  }

  // ----- through the locale file and back

  /** What is written into the locale object: each source key, in source order, with its new text. */
  function NextEntries(source: seq<Entry>, next: map<string, string>): seq<Entry> {
    seq(|source|, n requires 0 <= n < |source| =>
      LocaleTree.Entry(source[n].key, if source[n].key in next then next[source[n].key] else source[n].value))
  }

  lemma AsMapSnoc(front: seq<Entry>, last: Entry)
    ensures LocaleTree.AsMap(front + [last]) == LocaleTree.AsMap(front)[last.key := last.value]
  {
    assert (front + [last])[..|front|] == front;
  }

  lemma {:induction false} NextEntriesMap(source: seq<Entry>, next: map<string, string>)
    requires forall e :: e in source ==> e.key in next
    ensures LocaleTree.AsMap(NextEntries(source, next)).Keys == (set e | e in source :: e.key)
    ensures forall k :: k in LocaleTree.AsMap(NextEntries(source, next)) ==> LocaleTree.AsMap(NextEntries(source, next))[k] == next[k]
    decreases |source|
  {
    if source != [] {
      var front, last := source[..|source| - 1], source[|source| - 1];
      var rest := NextEntries(front, next);
      NextEntriesMap(front, next);
      AsMapSnoc(rest, LocaleTree.Entry(last.key, next[last.key]));
      assert NextEntries(source, next) == rest + [LocaleTree.Entry(last.key, next[last.key])];
      hide NextEntries, LocaleTree.AsMap;
      assert source == front + [last];
      assert (set e | e in source :: e.key) == (set e | e in front :: e.key) + {last.key};
    }
  }

  /** Loading the written locale gives the run's own texts back, as the next run takes for granted, exactly
      when no source key begins another and none begins with a dot. */
  lemma WrittenLocaleReadsBack(i: Inputs, translated: map<string, string>, o: Outcome, read: map<string, string>)
    requires Wellformed(i) && IsOutcome(i, translated, o)
    requires LocaleTree.IsFlattening(LocaleTree.Build(NextEntries(i.source, o.next)), read)
    ensures read == o.next <==>
      LocaleTree.PrefixFree(SourceKeys(i)) && forall k :: k in SourceKeys(i) ==> !LocaleTree.LeadingDot(k)
  {
    hide NextValue, IsFallback, Remembered;
    OutcomeKeys(i, translated, o);
    NextEntriesMap(i.source, o.next);
    assert LocaleTree.DistinctKeys(NextEntries(i.source, o.next));
    assert LocaleTree.AsMap(NextEntries(i.source, o.next)) == o.next;
    LocaleTree.FlattenOfBuild(NextEntries(i.source, o.next), read);
  }

  /** A second run that loads the written file: under source keys of which none begins another and none begins
      with a dot, it starts as if it had the first run's own texts, and so ends as such a run does. */
  lemma SecondRunFromFile(i: Inputs, translated: map<string, string>, o: Outcome, read: map<string, string>,
                          cacheKey': (string, string) -> string, allowTranslate: bool, force: bool,
                          translated': map<string, string>, o': Outcome)
    requires Wellformed(i) && IsOutcome(i, translated, o)
    requires LocaleTree.IsFlattening(LocaleTree.Build(NextEntries(i.source, o.next)), read)
    requires LocaleTree.PrefixFree(SourceKeys(i)) && forall k :: k in SourceKeys(i) ==> !LocaleTree.LeadingDot(k)
    requires IsOutcome(NextInputs(i, o, cacheKey', allowTranslate, force).(existing := read), translated', o')
    ensures PendingKeys(NextInputs(i, o, cacheKey', allowTranslate, force).(existing := read)) == if allowTranslate then o.fallback else {}
    ensures forall e :: e in i.source ==> e.key in o.next
    ensures !allowTranslate || (i.allowTranslate && AllTranslated(i, translated)) ==>
      o'.fallback == o.fallback && (o'.next == o.next <==> NoneOverruled(i, o, cacheKey'))
    ensures cacheKey' == i.cacheKey && (i.allowTranslate ==> AllTranslated(i, translated)) && (allowTranslate ==> i.allowTranslate) ==>
      o' == o
  {
    hide IsOutcome, Wellformed, NoneOverruled, AllTranslated;
    OutcomeKeys(i, translated, o);
    WrittenLocaleReadsBack(i, translated, o, read);
    assert NextInputs(i, o, cacheKey', allowTranslate, force).(existing := read) == NextInputs(i, o, cacheKey', allowTranslate, force);
    SecondRunPending(i, translated, o, cacheKey', allowTranslate, force);
    if !allowTranslate {
      SecondRunOffline(i, translated, o, cacheKey', force, translated', o');
      if cacheKey' == i.cacheKey && (i.allowTranslate ==> AllTranslated(i, translated)) {
        OfflineIsFixpoint(i, translated, o, force, translated', o');
      }
    } else if i.allowTranslate && AllTranslated(i, translated) {
      SecondRunAfterProvider(i, translated, o, cacheKey', allowTranslate, force, translated', o');
      if cacheKey' == i.cacheKey {
        ProviderIsFixpoint(i, translated, o, force, translated', o');
      }
    }
  }

  // ----- the run itself

  function ItemOf(i: Inputs, e: Entry): Item {
    Item(CacheKey(i, e), e.key, e.value, i.hashText(e.value))
  }

  /** What is to be translated of the first strings, in order. */
  function PendingItems(i: Inputs, es: seq<Entry>): seq<Item> {
    if es == [] then []
    else
      var last := es[|es| - 1];
      PendingItems(i, es[..|es| - 1]) + if IsPending(i, last) then [ItemOf(i, last)] else []
  }

  /** What is asked for: the strings that are not known, with their texts and hashes, in the order of the source. */
  lemma {:induction false} PendingExact(i: Inputs, es: seq<Entry>)
    ensures forall item :: item in PendingItems(i, es) <==>
      exists e :: e in es && !Known(i, e) && item == Item(i.cacheKey(e.key, i.hashText(e.value)), e.key, e.value, i.hashText(e.value))
    ensures forall a, b :: 0 <= a < b < |PendingItems(i, es)| ==> InOrder(es, PendingItems(i, es)[a].key, PendingItems(i, es)[b].key)
    decreases |es|
  {
    if es != [] {
      var front, last := es[..|es| - 1], es[|es| - 1];
      PendingExact(i, front);
      PendingItemsAre(i, es);
      assert es == front + [last];
      var items := PendingItems(i, es);
      forall a, b | 0 <= a < b < |items| ensures InOrder(es, items[a].key, items[b].key) {
        PendingBefore(i, es, a, b);
      }
    }
  }

  ghost predicate InOrder(es: seq<Entry>, k: string, l: string) {
    exists x, y :: 0 <= x < y < |es| && es[x].key == k && es[y].key == l
  }

  lemma PendingBefore(i: Inputs, es: seq<Entry>, a: nat, b: nat)
    requires es != [] && a < b < |PendingItems(i, es)|
    requires b < |PendingItems(i, es[..|es| - 1])| ==>
      InOrder(es[..|es| - 1], PendingItems(i, es[..|es| - 1])[a].key, PendingItems(i, es[..|es| - 1])[b].key)
    ensures InOrder(es, PendingItems(i, es)[a].key, PendingItems(i, es)[b].key)
  {
    var front, last := es[..|es| - 1], es[|es| - 1];
    var items := PendingItems(i, front);
    if b < |items| {
      var x, y :| 0 <= x < y < |front| && front[x].key == items[a].key && front[y].key == items[b].key;
      assert es[x] == front[x] && es[y] == front[y];
    } else {
      PendingItemsAre(i, front);
      assert items[a] in items;
      var e :| e in front && ItemOf(i, e) == items[a];
      var x :| 0 <= x < |front| && front[x] == e;
      assert PendingItems(i, es)[a] == items[a] == ItemOf(i, e);
      assert es[x] == e && es[|es| - 1] == last && PendingItems(i, es)[b] == ItemOf(i, last);
    }
  }

  lemma {:induction false} PendingItemsAre(i: Inputs, es: seq<Entry>)
    ensures forall item :: item in PendingItems(i, es) <==> exists e :: e in es && IsPending(i, e) && ItemOf(i, e) == item
    decreases |es|
  {
    if es != [] {
      var front, last := es[..|es| - 1], es[|es| - 1];
      PendingItemsAre(i, front);
      assert es == front + [last];
    }
  }

  ghost predicate DistinctItems(items: seq<Item>) {
    forall a, b :: 0 <= a < b < |items| ==> items[a].key != items[b].key && items[a].cacheKey != items[b].cacheKey
  }

  lemma {:induction false} PendingItemsDistinct(i: Inputs, es: seq<Entry>)
    requires Wellformed(i.(source := es))
    ensures DistinctItems(PendingItems(i, es))
    decreases |es|
  {
    if es != [] {
      var front, last := es[..|es| - 1], es[|es| - 1];
      assert forall e :: e in front ==> e.key != last.key;
      PendingItemsDistinct(i, front);
      PendingItemsAre(i, front);
      forall item | item in PendingItems(i, front) ensures item.key != last.key && item.cacheKey != CacheKey(i, last) {
        var e :| e in front && IsPending(i, e) && ItemOf(i, e) == item;
      }
    }
  }

  /** The settled strings among the first n. */
  ghost predicate Settled(i: Inputs, es: seq<Entry>, next: map<string, string>, fallback: set<string>) {
    && next.Keys == (set e | e in es && !IsPending(i, e) :: e.key)
    && (forall e :: e in es && !IsPending(i, e) ==> next[e.key] == NextValue(i, map[], e))
    && fallback == (set e | e in es && !IsPending(i, e) && e.key in i.previousFallback :: e.key)
  }

  lemma SettleOne(i: Inputs, es: seq<Entry>, e: Entry, next: map<string, string>, fallback: set<string>)
    requires Settled(i, es, next, fallback) && forall f :: f in es ==> f.key != e.key
    ensures IsPending(i, e) ==> Settled(i, es + [e], next, fallback)
    ensures !IsPending(i, e) ==>
      Settled(i, es + [e], next[e.key := NextValue(i, map[], e)],
              if e.key in i.previousFallback then fallback + {e.key} else fallback)
  {
    if !IsPending(i, e) {
      assert (set f | f in es + [e] && !IsPending(i, f) :: f.key) == (set f | f in es && !IsPending(i, f) :: f.key) + {e.key};
    }
  }

  method Decide(i: Inputs) returns (next: map<string, string>, pending: seq<Item>, fallback: set<string>)
    requires Wellformed(i)
    ensures pending == PendingItems(i, i.source) && Settled(i, i.source, next, fallback)
  {
    next, pending, fallback := map[], [], {};
    assert Settled(i, i.source[..0], next, fallback);
    hide Settled;
    for n := 0 to |i.source|
      invariant pending == PendingItems(i, i.source[..n]) && Settled(i, i.source[..n], next, fallback)
    {
      var e := i.source[n];
      assert i.source[..n + 1] == i.source[..n] + [e] && i.source[..n + 1][..n] == i.source[..n];
      SettleOne(i, i.source[..n], e, next, fallback);
      var cached := CacheKey(i, e) in i.tm;
      var shouldRefreshFallback := e.key in i.previousFallback;
      if cached && !(i.allowTranslate && shouldRefreshFallback) {
        next := next[e.key := i.tm[CacheKey(i, e)]];
        if shouldRefreshFallback {
          fallback := fallback + {e.key};
        }
        continue;
      }
      if e.key in i.existing && !(i.allowTranslate && shouldRefreshFallback) {
        next := next[e.key := i.existing[e.key]];
        if shouldRefreshFallback {
          fallback := fallback + {e.key};
        }
        continue;
      }
      pending := pending + [ItemOf(i, e)];
    }
    assert i.source[..|i.source|] == i.source;
  }

  function CacheKeys(items: seq<Item>): set<string> {
    set item | item in items :: item.cacheKey
  }

  /** The memory after the values of some items have been taken over. */
  ghost predicate Memory(done: seq<Item>, given: map<string, string>, tm: map<string, string>, tm': map<string, string>) {
    && (forall item :: item in done ==> item.key in given && item.cacheKey in tm' && tm'[item.cacheKey] == given[item.key])
    && tm.Keys <= tm'.Keys
    && (forall k :: k in tm' ==> (k in tm && tm'[k] == tm[k]) || k in CacheKeys(done))
  }

  ghost predicate TakenOver(done: seq<Item>, given: map<string, string>, next: map<string, string>, tm: map<string, string>,
                            next': map<string, string>, tm': map<string, string>) {
    && given.Keys == Keys(done)
    && next' == next + given
    && Memory(done, given, tm, tm')
    && (forall k :: k in given ==> !IsBlank(given[k]))
  }

  lemma MemoryOne(done: seq<Item>, item: Item, value: string, given: map<string, string>,
                  tm: map<string, string>, tm': map<string, string>)
    requires forall other :: other in done ==> other.key != item.key && other.cacheKey != item.cacheKey
    requires Memory(done, given, tm, tm')
    ensures Memory(done + [item], given[item.key := value], tm, tm'[item.cacheKey := value])
  {
    assert CacheKeys(done + [item]) == CacheKeys(done) + {item.cacheKey};
  }

  lemma TakeOverOne(done: seq<Item>, item: Item, value: string, given: map<string, string>,
                    next: map<string, string>, tm: map<string, string>, next': map<string, string>, tm': map<string, string>)
    requires TakenOver(done, given, next, tm, next', tm') && !IsBlank(value)
    requires forall other :: other in done ==> other.key != item.key && other.cacheKey != item.cacheKey
    ensures TakenOver(done + [item], given[item.key := value], next, tm, next'[item.key := value], tm'[item.cacheKey := value])
  {
    hide Memory, IsBlank;
    MemoryOne(done, item, value, given, tm, tm');
    KeysOne(done, item);
    AddedOne(next, given, item.key, value);
  }

  lemma NothingTakenOver(next: map<string, string>, tm: map<string, string>)
    ensures TakenOver([], map[], next, tm, next, tm)
  {
  }

  lemma KeysOne(items: seq<Item>, item: Item)
    ensures Keys(items + [item]) == Keys(items) + {item.key}
  {
  }

  lemma AddedOne(next: map<string, string>, given: map<string, string>, key: string, value: string)
    ensures (next + given)[key := value] == next + given[key := value]
  {
  }

  lemma {:induction false} FlattenParts(batches: seq<seq<Item>>, n: nat)
    requires n <= |batches|
    ensures Flatten(batches) == Flatten(batches[..n]) + Flatten(batches[n..])
    decreases n
  {
    if n > 0 {
      FlattenParts(batches[1..], n - 1);
      assert batches[..n][1..] == batches[1..][..n - 1] && batches[1..][n - 1..] == batches[n..];
    } else {
      assert batches[..0] == [] && batches[0..] == batches;
    }
  }

  lemma BatchTranslatesAll(answers: Answers, k: nat, batch: seq<Item>)
    ensures var r := RunBatch(answers, k, batch).result;
      r.Translated? ==> r.values.Keys == Keys(batch) && forall key :: key in r.values ==> !IsBlank(r.values[key]) && r.values[key] != ""
  {
    ReturnsComplete(answers, k, batch, 0, "translation failed");
  }

  lemma OtherKeys(items: seq<Item>, n: nat)
    requires DistinctItems(items) && n < |items|
    ensures forall other :: other in items[..n] ==> other.key != items[n].key && other.cacheKey != items[n].cacheKey
  {
    forall other | other in items[..n] ensures other.key != items[n].key && other.cacheKey != items[n].cacheKey {
      var a :| 0 <= a < n && items[a] == other;
    }
  }

  /** The batches one after the other: the values of all of them, or the error of the first that fails. */
  function RunBatches(answers: Answers, k: nat, batches: seq<seq<Item>>): (r: BatchesRun) {
    if batches == [] then BatchesRun(Translated(map[]), 0)
    else
      var front := RunBatches(answers, k, batches[..|batches| - 1]);
      if front.result.Failed? then front
      else
        var last := RunBatch(answers, k + front.prompts, batches[|batches| - 1]);
        BatchesRun(if last.result.Failed? then last.result else Translated(front.result.values + last.result.values),
                   front.prompts + last.prompts)
  }

  datatype BatchesRun = BatchesRun(result: Result, prompts: nat)

  lemma {:induction false} FailureEnds(answers: Answers, k: nat, batches: seq<seq<Item>>, n: nat)
    requires n <= |batches| && RunBatches(answers, k, batches[..n]).result.Failed?
    ensures RunBatches(answers, k, batches) == RunBatches(answers, k, batches[..n])
    decreases |batches|
  {
    if n < |batches| {
      assert batches[..|batches| - 1][..n] == batches[..n];
      FailureEnds(answers, k, batches[..|batches| - 1], n);
    } else {
      assert batches[..n] == batches;
    }
  }

  /** The items were sent in a greedy plan of batches, and this is what came of it. */
  ghost predicate SentInBatches(answers: Answers, k: nat, items: seq<Item>, budget: real, result: Result, prompts: nat) {
    exists batches :: SentAs(answers, k, items, budget, batches, result, prompts)
  }

  ghost predicate SentAs(answers: Answers, k: nat, items: seq<Item>, budget: real, batches: seq<seq<Item>>, result: Result, prompts: nat) {
    IsPlan(batches, items, budget) && Greedy(batches, budget) && RunBatches(answers, k, batches) == BatchesRun(result, prompts)
  }

  lemma Sent(answers: Answers, k: nat, items: seq<Item>, budget: real, batches: seq<seq<Item>>, result: Result, prompts: nat)
    requires IsPlan(batches, items, budget) && Greedy(batches, budget) && RunBatches(answers, k, batches) == BatchesRun(result, prompts)
    ensures SentInBatches(answers, k, items, budget, result, prompts)
  {
    assert SentAs(answers, k, items, budget, batches, result, prompts);
  }

  lemma NoBatches(answers: Answers, k: nat)
    ensures RunBatches(answers, k, []) == BatchesRun(Translated(map[]), 0) && Flatten([]) == []
  {
  }

  lemma OneMoreBatch(answers: Answers, k: nat, batches: seq<seq<Item>>, b: nat)
    requires b < |batches| && RunBatches(answers, k, batches[..b]).result.Translated?
    ensures var front := RunBatches(answers, k, batches[..b]);
      var last := RunBatch(answers, k + front.prompts, batches[b]);
      RunBatches(answers, k, batches[..b + 1]) ==
        BatchesRun(if last.result.Failed? then last.result else Translated(front.result.values + last.result.values),
                   front.prompts + last.prompts)
  {
    hide RunBatch;
    assert batches[..b + 1][..b] == batches[..b] && batches[..b + 1][b] == batches[b];
  }

  lemma PlanFlattens(batches: seq<seq<Item>>, items: seq<Item>, budget: real)
    requires IsPlan(batches, items, budget)
    ensures Flatten(batches) == items
  {
  }

  lemma NothingSent(answers: Answers, k: nat, budget: real)
    ensures SentInBatches(answers, k, [], budget, Translated(map[]), 0)
  {
    assert SentAs(answers, k, [], budget, [], Translated(map[]), 0);
  }

  ghost function Part(values: map<string, string>, items: seq<Item>): map<string, string> {
    map key | key in values && key in Keys(items) :: values[key]
  }

  lemma PartOne(values: map<string, string>, items: seq<Item>, m: nat)
    requires m < |items|
    ensures var key := items[m].key; key in values ==> Part(values, items[..m + 1]) == Part(values, items[..m])[key := values[key]]
    ensures items[m].key in Keys(items)
  {
    assert items[..m + 1] == items[..m] + [items[m]];
    KeysOne(items[..m], items[m]);
    assert items[m] in items;
  }

  lemma PartEnds(values: map<string, string>, items: seq<Item>)
    requires values.Keys == Keys(items)
    ensures Part(values, []) == map[] && Part(values, items) == values
  {
  }

  /** The values of one batch go into the locale map and the memory. */
  method TakeOverBatch(batch: seq<Item>, translated: map<string, string>, ghost before: seq<Item>,
                       given0: map<string, string>, next: map<string, string>, ghost tm: map<string, string>,
                       ghost base: map<string, string>, tm0: map<string, string>)
    returns (given: map<string, string>, next': map<string, string>, tm': map<string, string>)
    requires DistinctItems(before + batch) && TakenOver(before, given0, base, tm, next, tm0)
    requires translated.Keys == Keys(batch)
    requires forall key :: key in translated ==> !IsBlank(translated[key]) && translated[key] != ""
    ensures TakenOver(before + batch, given, base, tm, next', tm')
    ensures given == given0 + translated
  {
    hide TakenOver, IsBlank, Part, DistinctItems;
    given, next', tm' := given0, next, tm0;
    PartEnds(translated, batch);
    assert before + batch[..0] == before;
    for m := 0 to |batch|
      invariant TakenOver(before + batch[..m], given, base, tm, next', tm')
      invariant given == given0 + Part(translated, batch[..m])
    {
      var item := batch[m];
      PartOne(translated, batch, m);
      assert (before + batch)[..|before| + m] == before + batch[..m] && (before + batch)[|before| + m] == item;
      assert before + batch[..m + 1] == before + batch[..m] + [item];
      if item.key in translated && translated[item.key] != "" {
        OtherKeys(before + batch, |before| + m);
        TakeOverOne(before + batch[..m], item, translated[item.key], given, base, tm, next', tm');
        AddedOne(given0, Part(translated, batch[..m]), item.key, translated[item.key]);
        given := given[item.key := translated[item.key]];
        next' := next'[item.key := translated[item.key]];
        tm' := tm'[item.cacheKey := translated[item.key]];
      }
    }
    assert batch[..|batch|] == batch;
  }

  /** All of the pending strings get a value, or the run ends with the error of the batch that failed. */
  method TranslatePending(client: PromptClient, pending: seq<Item>, budget: real,
                          next: map<string, string>, tm: map<string, string>)
    returns (failure: string, ok: bool, given: map<string, string>, next': map<string, string>, tm': map<string, string>)
    requires DistinctItems(pending)
    modifies client
    ensures ok ==> TakenOver(pending, given, next, tm, next', tm')
    ensures client.asked >= old(client.asked)
    ensures SentInBatches(client.answers, old(client.asked), pending, budget, if ok then Translated(given) else Failed(failure),
                          client.asked - old(client.asked))
  {
    failure, given, next', tm' := "", map[], next, tm;
    NothingTakenOver(next, tm);
    hide TakenOver, RunBatch, RunBatches, IsBlank, IsPlan, Greedy, Flatten, DistinctItems, SentAs;
    ghost var first := client.asked;
    NoBatches(client.answers, first);
    var batches := BuildTranslationBatches(pending, budget);
    PlanFlattens(batches, pending, budget);
    assert batches[..0] == [];
    for b := 0 to |batches|
      invariant TakenOver(Flatten(batches[..b]), given, next, tm, next', tm')
      invariant client.asked >= first
      invariant RunBatches(client.answers, first, batches[..b]) == BatchesRun(Translated(given), client.asked - first)
    {
      ghost var start := client.asked;
      OneMoreBatch(client.answers, first, batches, b);
      var result := TranslateBatch(client, batches[b], 0);
      if result.Failed? {
        FailureEnds(client.answers, first, batches, b + 1);
        Sent(client.answers, first, pending, budget, batches, result, client.asked - first);
        return result.message, false, given, next', tm';
      }
      BatchTranslatesAll(client.answers, start, batches[b]);
      DoneDistinct(batches, b);
      given, next', tm' := TakeOverBatch(batches[b], result.values, Flatten(batches[..b]), given, next', tm, next, tm');
    }
    assert batches[..|batches|] == batches;
    Sent(client.answers, first, pending, budget, batches, Translated(given), client.asked - first);
    ok := true;
  }

  lemma DoneDistinct(batches: seq<seq<Item>>, b: nat)
    requires b < |batches| && DistinctItems(Flatten(batches))
    ensures Flatten(batches[..b + 1]) == Flatten(batches[..b]) + batches[b]
    ensures DistinctItems(Flatten(batches[..b]) + batches[b])
  {
    hide DistinctItems, Flatten;
    assert batches[..b + 1] == batches[..b] + [batches[b]];
    FlattenSnoc(batches[..b], batches[b]);
    FlattenParts(batches, b + 1);
    DistinctFront(Flatten(batches[..b + 1]), Flatten(batches[b + 1..]));
  }

  lemma DistinctFront(done: seq<Item>, rest: seq<Item>)
    requires DistinctItems(done + rest)
    ensures DistinctItems(done)
  {
    forall x, y | 0 <= x < y < |done| ensures done[x].key != done[y].key && done[x].cacheKey != done[y].cacheKey {
      assert (done + rest)[x] == done[x] && (done + rest)[y] == done[y];
    }
  }

  /** The strings that got no value keep what was there, or fall back to the source text. */
  ghost predicate FilledNext(i: Inputs, items: seq<Item>, base: map<string, string>, next: map<string, string>) {
    && next.Keys == base.Keys + Keys(items)
    && (forall k :: k in base ==> next[k] == base[k])
    && (forall item :: item in items && item.key !in base ==> next[item.key] == Leftover(i, item))
  }

  ghost predicate FilledFallback(i: Inputs, items: seq<Item>, base: map<string, string>, fallback0: set<string>, fallback: set<string>) {
    fallback == fallback0 + (set item | item in items && item.key !in base && LeftoverFallback(i, item) :: item.key)
  }

  ghost predicate Filled(i: Inputs, items: seq<Item>, base: map<string, string>, fallback0: set<string>,
                         next: map<string, string>, fallback: set<string>) {
    FilledNext(i, items, base, next) && FilledFallback(i, items, base, fallback0, fallback)
  }

  lemma FillOneNext(i: Inputs, items: seq<Item>, item: Item, base: map<string, string>, next: map<string, string>)
    requires FilledNext(i, items, base, next) && item.key !in Keys(items)
    ensures item.key in next <==> item.key in base
    ensures item.key in base ==> FilledNext(i, items + [item], base, next)
    ensures item.key !in base ==> FilledNext(i, items + [item], base, next[item.key := Leftover(i, item)])
  {
    hide Leftover;
    KeysOne(items, item);
  }

  lemma FillOneFallback(i: Inputs, items: seq<Item>, item: Item, base: map<string, string>, fallback0: set<string>, fallback: set<string>)
    requires FilledFallback(i, items, base, fallback0, fallback)
    ensures item.key in base ==> FilledFallback(i, items + [item], base, fallback0, fallback)
    ensures item.key !in base ==>
      FilledFallback(i, items + [item], base, fallback0, if LeftoverFallback(i, item) then fallback + {item.key} else fallback)
  {
    hide LeftoverFallback;
  }

  lemma FillOne(i: Inputs, items: seq<Item>, item: Item, base: map<string, string>, fallback0: set<string>,
                next: map<string, string>, fallback: set<string>)
    requires Filled(i, items, base, fallback0, next, fallback) && item.key !in Keys(items)
    ensures item.key in next <==> item.key in base
    ensures item.key in base ==> Filled(i, items + [item], base, fallback0, next, fallback)
    ensures item.key !in base ==>
      Filled(i, items + [item], base, fallback0, next[item.key := Leftover(i, item)],
             if LeftoverFallback(i, item) then fallback + {item.key} else fallback)
  {
    hide FilledNext, FilledFallback, Leftover, LeftoverFallback, Keys;
    FillOneNext(i, items, item, base, next);
    FillOneFallback(i, items, item, base, fallback0, fallback);
  }

  method FillRest(i: Inputs, pending: seq<Item>, base: map<string, string>, fallback0: set<string>)
    returns (next: map<string, string>, fallback: set<string>)
    requires DistinctItems(pending)
    ensures Filled(i, pending, base, fallback0, next, fallback)
  {
    next, fallback := base, fallback0;
    assert Filled(i, pending[..0], base, fallback0, next, fallback);
    hide Filled;
    for n := 0 to |pending|
      invariant Filled(i, pending[..n], base, fallback0, next, fallback)
    {
      var item := pending[n];
      assert pending[..n + 1] == pending[..n] + [item];
      FillOne(i, pending[..n], item, base, fallback0, next, fallback);
      if item.key in next {
        continue;
      }
      if item.key in i.existing && !i.force {
        next := next[item.key := i.existing[item.key]];
        if item.key in i.previousFallback {
          fallback := fallback + {item.key};
        }
        continue;
      }
      next := next[item.key := item.text];
      fallback := fallback + {item.key};
    }
    assert pending[..|pending|] == pending;
  }

  /** What the strings left over get: the text that is there, or the source text and the mark. */
  lemma LeftoverTable(i: Inputs, pending: seq<Item>, base: map<string, string>, fallback0: set<string>,
                      next: map<string, string>, fallback: set<string>, item: Item)
    requires DistinctItems(pending) && Filled(i, pending, base, fallback0, next, fallback) && item in pending
    ensures item.key in next &&
      if item.key in base then next[item.key] == base[item.key] && (item.key in fallback <==> item.key in fallback0)
      else if item.key in i.existing && !i.force then
        && next[item.key] == i.existing[item.key]
        && (item.key in fallback <==> item.key in fallback0 || item.key in i.previousFallback)
      else next[item.key] == item.text && item.key in fallback
  {
    assert item.key in Keys(pending);
    forall other | other in pending && other.key == item.key ensures other == item {
    }
  }

  datatype SyncResult = Synced(outcome: Outcome, translated: map<string, string>) | Aborted(message: string)

  /** A run either gives every source key its text, or ends with the error of a batch and writes nothing. */
  method SyncKeys(i: Inputs, budget: real, client: PromptClient) returns (r: SyncResult)
    requires Wellformed(i)
    modifies client
    ensures r.Synced? ==> IsOutcome(i, r.translated, r.outcome)
    ensures r.Synced? && i.allowTranslate ==> AllTranslated(i, r.translated)
    ensures !i.allowTranslate ==> r.Synced? && client.asked == old(client.asked)
    ensures client.asked >= old(client.asked)
    ensures i.allowTranslate ==>
      SentInBatches(client.answers, old(client.asked), PendingItems(i, i.source), budget,
                    if r.Synced? then Translated(r.translated) else Failed(r.message), client.asked - old(client.asked))
  {
    hide Settled, TakenOver, Filled, IsOutcome, AllTranslated, DistinctItems, SentInBatches;
    NothingSent(client.answers, client.asked, budget);
    var settled, pending, fallback0 := Decide(i);
    var given, base, tm := map[], settled, i.tm;
    PendingItemsDistinct(i, i.source);
    if i.allowTranslate && |pending| > 0 {
      var failure, ok;
      failure, ok, given, base, tm := TranslatePending(client, pending, budget, settled, i.tm);
      if !ok {
        return Aborted(failure);
      }
    }
    var next, fallback := FillRest(i, pending, base, fallback0);
    r := Synced(Outcome(next, fallback, tm), given);
    if i.allowTranslate {
      NothingTakenOver(settled, i.tm);
      ConcludeTranslated(i, settled, fallback0, given, base, tm, next, fallback);
    } else {
      ConcludeOffline(i, settled, fallback0, next, fallback);
    }
  }

  /** By key: a source string is pending exactly when its item is, and settled otherwise. */
  lemma EntryKind(i: Inputs, settled: map<string, string>, fallback0: set<string>, e: Entry)
    requires Wellformed(i) && e in i.source && Settled(i, i.source, settled, fallback0)
    ensures IsPending(i, e) <==> e.key in Keys(PendingItems(i, i.source))
    ensures IsPending(i, e) ==> ItemOf(i, e) in PendingItems(i, i.source)
    ensures !IsPending(i, e) <==> e.key in settled
    ensures e.key in fallback0 <==> !IsPending(i, e) && e.key in i.previousFallback
  {
    PendingItemsAre(i, i.source);
    if IsPending(i, e) {
      assert ItemOf(i, e) in PendingItems(i, i.source) && ItemOf(i, e).key == e.key;
    }
    if e.key in Keys(PendingItems(i, i.source)) {
      var item :| item in PendingItems(i, i.source) && item.key == e.key;
      var f :| f in i.source && IsPending(i, f) && ItemOf(i, f) == item;
      assert f == e;
    }
  }

  lemma KindsCover(i: Inputs, settled: map<string, string>, fallback0: set<string>)
    requires Wellformed(i) && Settled(i, i.source, settled, fallback0)
    ensures settled.Keys + Keys(PendingItems(i, i.source)) == SourceKeys(i)
  {
    PendingItemsAre(i, i.source);
    forall k | k in SourceKeys(i) ensures k in settled.Keys + Keys(PendingItems(i, i.source)) {
      var e :| e in i.source && e.key == k;
      EntryKind(i, settled, fallback0, e);
    }
    forall k | k in Keys(PendingItems(i, i.source)) ensures k in SourceKeys(i) {
      var item :| item in PendingItems(i, i.source) && item.key == k;
      var f :| f in i.source && IsPending(i, f) && ItemOf(i, f) == item;
    }
  }

  /** The fallbacks named at the end are those of the settled strings and of the strings left over. */
  lemma FallbackKeys(i: Inputs, given: map<string, string>, settled: map<string, string>, base: map<string, string>,
                     fallback0: set<string>, next: map<string, string>, fallback: set<string>, e: Entry)
    requires Wellformed(i) && e in i.source && Settled(i, i.source, settled, fallback0)
    requires Filled(i, PendingItems(i, i.source), base, fallback0, next, fallback)
    requires IsPending(i, e) ==> (e.key in base <==> IsTranslated(i, given, e))
    ensures e.key in fallback <==> IsFallback(i, given, e)
  {
    EntryKind(i, settled, fallback0, e);
    if e.key in fallback && e.key !in fallback0 {
      var item :| item in PendingItems(i, i.source) && item.key !in base && LeftoverFallback(i, item) && item.key == e.key;
      assert item.key in Keys(PendingItems(i, i.source));
    }
    if IsPending(i, e) && IsFallback(i, given, e) {
      assert LeftoverFallback(i, ItemOf(i, e));
    }
  }

  lemma NextValues(i: Inputs, given: map<string, string>, settled: map<string, string>, base: map<string, string>,
                   fallback0: set<string>, next: map<string, string>, fallback: set<string>, e: Entry)
    requires Wellformed(i) && e in i.source && Settled(i, i.source, settled, fallback0)
    requires Filled(i, PendingItems(i, i.source), base, fallback0, next, fallback) && settled.Keys <= base.Keys
    requires IsPending(i, e) ==> (e.key in base <==> IsTranslated(i, given, e))
    requires e.key in base ==> base[e.key] == NextValue(i, given, e)
    ensures e.key in next && next[e.key] == NextValue(i, given, e)
  {
    EntryKind(i, settled, fallback0, e);
    if e.key !in base {
      assert next[ItemOf(i, e).key] == Leftover(i, ItemOf(i, e));
    }
  }

  lemma FallbackInSource(i: Inputs, settled: map<string, string>, base: map<string, string>,
                         fallback0: set<string>, next: map<string, string>, fallback: set<string>)
    requires Wellformed(i) && Settled(i, i.source, settled, fallback0)
    requires Filled(i, PendingItems(i, i.source), base, fallback0, next, fallback)
    ensures fallback <= SourceKeys(i)
  {
    KindsCover(i, settled, fallback0);
    forall k | k in fallback && k !in fallback0 ensures k in SourceKeys(i) {
      var item :| item in PendingItems(i, i.source) && item.key !in base && LeftoverFallback(i, item) && item.key == k;
      assert k in Keys(PendingItems(i, i.source));
    }
  }

  lemma Assemble(i: Inputs, given: map<string, string>, settled: map<string, string>, base: map<string, string>,
                 fallback0: set<string>, o: Outcome)
    requires Wellformed(i) && Settled(i, i.source, settled, fallback0)
    requires Filled(i, PendingItems(i, i.source), base, fallback0, o.next, o.fallback)
    requires forall e :: e in i.source && IsPending(i, e) ==> (e.key in base <==> IsTranslated(i, given, e))
    requires settled.Keys <= base.Keys <= SourceKeys(i)
    requires forall e :: e in i.source && e.key in base ==> base[e.key] == NextValue(i, given, e)
    requires Remembered(i, given, o.tm)
    ensures IsOutcome(i, given, o)
  {
    KindsCover(i, settled, fallback0);
    FallbackInSource(i, settled, base, fallback0, o.next, o.fallback);
    assert o.next.Keys == SourceKeys(i);
    hide IsFallback, NextValue, Remembered, IsPending, Filled, Settled;
    forall e | e in i.source ensures o.next[e.key] == NextValue(i, given, e) {
      NextValues(i, given, settled, base, fallback0, o.next, o.fallback, e);
    }
    forall e | e in i.source ensures e.key in o.fallback <==> IsFallback(i, given, e) {
      FallbackKeys(i, given, settled, base, fallback0, o.next, o.fallback, e);
    }
    FallbackSet(i, given, o.fallback);
  }

  lemma FallbackSet(i: Inputs, given: map<string, string>, fallback: set<string>)
    requires fallback <= SourceKeys(i) && forall e :: e in i.source ==> (e.key in fallback <==> IsFallback(i, given, e))
    ensures fallback == (set e | e in i.source && IsFallback(i, given, e) :: e.key)
  {
    hide IsFallback;
  }

  lemma ConcludeOffline(i: Inputs, settled: map<string, string>, fallback0: set<string>,
                        next: map<string, string>, fallback: set<string>)
    requires Wellformed(i) && !i.allowTranslate && Settled(i, i.source, settled, fallback0)
    requires Filled(i, PendingItems(i, i.source), settled, fallback0, next, fallback)
    ensures IsOutcome(i, map[], Outcome(next, fallback, i.tm))
  {
    hide NextValue, IsOutcome, Filled, PendingItems, IsPending;
    KindsCover(i, settled, fallback0);
    forall e | e in i.source
      ensures IsPending(i, e) ==> e.key !in settled
      ensures e.key in settled ==> settled[e.key] == NextValue(i, map[], e)
    {
      EntryKind(i, settled, fallback0, e);
    }
    Assemble(i, map[], settled, settled, fallback0, Outcome(next, fallback, i.tm));
  }

  lemma ConcludeTranslated(i: Inputs, settled: map<string, string>, fallback0: set<string>,
                           given: map<string, string>, base: map<string, string>, tm: map<string, string>,
                           next: map<string, string>, fallback: set<string>)
    requires Wellformed(i) && i.allowTranslate && Settled(i, i.source, settled, fallback0)
    requires TakenOver(PendingItems(i, i.source), given, settled, i.tm, base, tm)
    requires Filled(i, PendingItems(i, i.source), base, fallback0, next, fallback)
    ensures IsOutcome(i, given, Outcome(next, fallback, tm)) && AllTranslated(i, given)
  {
    KindsCover(i, settled, fallback0);
    forall e | e in i.source
      ensures IsPending(i, e) ==> e.key in base && IsTranslated(i, given, e)
      ensures e.key in base ==> base[e.key] == NextValue(i, given, e)
    {
      EntryKind(i, settled, fallback0, e);
    }
    AllRemembered(i, given, settled, fallback0, base, tm);
    Assemble(i, given, settled, base, fallback0, Outcome(next, fallback, tm));
  }

  lemma AllRemembered(i: Inputs, given: map<string, string>, settled: map<string, string>, fallback0: set<string>,
                      base: map<string, string>, tm: map<string, string>)
    requires Wellformed(i) && i.allowTranslate && Settled(i, i.source, settled, fallback0)
    requires TakenOver(PendingItems(i, i.source), given, settled, i.tm, base, tm)
    ensures Remembered(i, given, tm)
  {
    var pending := PendingItems(i, i.source);
    forall e | e in i.source && IsTranslated(i, given, e)
      ensures CacheKey(i, e) in tm && tm[CacheKey(i, e)] == given[e.key]
    {
      EntryKind(i, settled, fallback0, e);
      assert ItemOf(i, e).cacheKey in tm;
    }
    forall k | k in tm && k !in i.tm
      ensures exists e :: e in i.source && IsTranslated(i, given, e) && CacheKey(i, e) == k
    {
      var e := TakenFrom(i, given, settled, base, tm, k);
    }
    forall k | k in tm && k in i.tm && tm[k] != i.tm[k]
      ensures exists e :: e in i.source && IsTranslated(i, given, e) && CacheKey(i, e) == k
    {
      var e := TakenFrom(i, given, settled, base, tm, k);
    }
  }

  lemma TakenFrom(i: Inputs, given: map<string, string>, settled: map<string, string>,
                  base: map<string, string>, tm: map<string, string>, k: string) returns (e: Entry)
    requires i.allowTranslate && TakenOver(PendingItems(i, i.source), given, settled, i.tm, base, tm)
    requires k in tm && (k in i.tm ==> tm[k] != i.tm[k])
    ensures e in i.source && IsTranslated(i, given, e) && CacheKey(i, e) == k
  {
    PendingItemsAre(i, i.source);
    var item :| item in PendingItems(i, i.source) && item.cacheKey == k;
    e :| e in i.source && IsPending(i, e) && ItemOf(i, e) == item;
    assert item.key in Keys(PendingItems(i, i.source));
    assert !IsBlank(given[item.key]);
  }

  function Leftover(i: Inputs, item: Item): string {
    if item.key in i.existing && !i.force then i.existing[item.key] else item.text
  }

  predicate LeftoverFallback(i: Inputs, item: Item) {
    item.key in i.existing && !i.force ==> item.key in i.previousFallback
  }
}
