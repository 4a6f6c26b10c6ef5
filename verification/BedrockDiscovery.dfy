/** Model discovery with a cache: concurrent calls for one key share one fetch. */
module BedrockDiscovery {
  import opened Basics

  /** The cache key spells out all the call's settings, the refresh interval among them. */
  datatype Key = Key(settings: string, refreshIntervalSeconds: nat)

  type Models = seq<string>

  /** A cache entry, with the number of the discovery whose promise it holds. */
  datatype Entry = Entry(expiresAt: int, value: Option<Models>, inFlight: Option<nat>)

  /** A discovery in progress: the promise first settles, then the call that started it resumes. */
  datatype Status = Running | Settled(result: Option<Models>) | Finished(result: Option<Models>)

  datatype Discovery = Discovery(key: Key, now: int, status: Status)

  datatype State = State(cache: map<Key, Entry>, discoveries: seq<Discovery>)

  /** What a call comes to before it first waits. */
  datatype Reply = Served(models: Models) | Joined(id: nat) | Started(id: nat)

  /** One step of an interleaving: a call up to its first wait, a fetch that settles, the rest of a call. */
  datatype Step = Call(key: Key, now: int) | Settle(id: nat, result: Option<Models>) | Resume(id: nat)

  function ExpiresAt(d: Discovery): int {
    d.now + d.key.refreshIntervalSeconds * 1000
  }

  function Answer(s: State, key: Key, now: int): Reply {
    if key.refreshIntervalSeconds > 0 && key in s.cache && s.cache[key].value.Some? && s.cache[key].expiresAt > now
    then Served(s.cache[key].value.value)
    else if key.refreshIntervalSeconds > 0 && key in s.cache && s.cache[key].inFlight.Some?
    then Joined(s.cache[key].inFlight.value)
    else Started(|s.discoveries|)
  }

  predicate Enabled(s: State, step: Step) {
    match step
    case Call(_, _) => true
    case Settle(id, _) => id < |s.discoveries| && s.discoveries[id].status.Running?
    case Resume(id) => id < |s.discoveries| && s.discoveries[id].status.Settled?
  }

  function Do(s: State, step: Step): State
    requires Enabled(s, step)
  {
    match step
    case Call(key, now) =>
      if !Answer(s, key, now).Started? then s
      else
        var d := Discovery(key, now, Running);
        State(if key.refreshIntervalSeconds > 0 then s.cache[key := Entry(ExpiresAt(d), None, Some(|s.discoveries|))] else s.cache,
              s.discoveries + [d])
    case Settle(id, result) =>
      s.(discoveries := s.discoveries[id := s.discoveries[id].(status := Settled(result))])
    case Resume(id) =>
      var d := s.discoveries[id];
      State(if d.key.refreshIntervalSeconds == 0 then s.cache
            else if d.status.result.Some? then s.cache[d.key := Entry(ExpiresAt(d), d.status.result, None)]
            else s.cache - {d.key},
            s.discoveries[id := d.(status := Finished(d.status.result))])
  }

  // ----- what every interleaving keeps

  predicate Unfinished(d: Discovery) {
    !d.status.Finished?
  }

  /** The value of an entry was fetched for its key, and expires an interval after that fetch began. */
  ghost predicate FetchedBy(s: State, key: Key, id: nat) {
    && key in s.cache && id < |s.discoveries|
    && s.discoveries[id].key == key
    && s.discoveries[id].status == Finished(s.cache[key].value)
    && s.cache[key].expiresAt == ExpiresAt(s.discoveries[id])
  }

  ghost predicate EntryOk(s: State, key: Key)
    requires key in s.cache
  {
    var e := s.cache[key];
    && key.refreshIntervalSeconds > 0
    && (e.value.Some? <==> e.inFlight.None?)
    && (e.inFlight.Some? ==> e.inFlight.value < |s.discoveries| && s.discoveries[e.inFlight.value].key == key
                             && Unfinished(s.discoveries[e.inFlight.value]))
    && (e.value.Some? ==> exists id :: FetchedBy(s, key, id))
  }

  /** An unfinished discovery that caches is the one its entry names. */
  ghost predicate Owned(s: State, id: nat)
    requires id < |s.discoveries|
  {
    var d := s.discoveries[id];
    d.key.refreshIntervalSeconds > 0 && Unfinished(d) ==> d.key in s.cache && s.cache[d.key].inFlight == Some(id)
  }

  ghost predicate Inv(s: State) {
    && (forall key :: key in s.cache ==> EntryOk(s, key))
    && (forall id :: 0 <= id < |s.discoveries| ==> Owned(s, id))
  }

  lemma StepKeeps(s: State, step: Step)
    requires Inv(s) && Enabled(s, step)
    ensures Inv(Do(s, step))
  {
    var t := Do(s, step);
    forall key | key in t.cache ensures EntryOk(t, key) {
      KeepsEntry(s, step, key);
    }
    forall id | 0 <= id < |t.discoveries| ensures Owned(t, id) {
      KeepsOwned(s, step, id);
    }
  }

  lemma KeepsEntry(s: State, step: Step, key: Key)
    requires Inv(s) && Enabled(s, step) && key in Do(s, step).cache
    ensures EntryOk(Do(s, step), key)
  {
    var t := Do(s, step);
    if key in s.cache && t.cache[key] == s.cache[key] {
      assert EntryOk(s, key);
      if s.cache[key].value.Some? {
        var id :| FetchedBy(s, key, id);
        assert FetchedBy(t, key, id);
      }
    } else if step.Resume? {
      assert FetchedBy(t, key, step.id);
    }
  }

  lemma KeepsOwned(s: State, step: Step, id: nat)
    requires Inv(s) && Enabled(s, step) && id < |Do(s, step).discoveries|
    ensures Owned(Do(s, step), id)
  {
    if id < |s.discoveries| {
      assert Owned(s, id);
      if step.Resume? {
        assert Owned(s, step.id);
      }
      if step.Call? && step.key in s.cache {
        assert EntryOk(s, step.key);
      }
    }
  }

  ghost predicate CanRun(s: State, steps: seq<Step>)
    decreases |steps|
  {
    steps != [] ==> Enabled(s, steps[0]) && CanRun(Do(s, steps[0]), steps[1..])
  }

  ghost function Run(s: State, steps: seq<Step>): State
    requires CanRun(s, steps)
    decreases |steps|
  {
    if steps == [] then s else Run(Do(s, steps[0]), steps[1..])
  }

  lemma {:induction false} RunKeeps(s: State, steps: seq<Step>)
    requires Inv(s) && CanRun(s, steps)
    ensures Inv(Run(s, steps))
    decreases |steps|
  {
    if steps != [] {
      StepKeeps(s, steps[0]);
      RunKeeps(Do(s, steps[0]), steps[1..]);
    }
  }

  const START := State(map[], [])

  /** In every interleaving: a cached key has at most one unfinished discovery, an entry holds either a
      value or a promise, a call that joins waits for an unfinished fetch for its own key, and a value
      served was fetched for the key by a fetch begun less than the interval ago. */
  lemma CoalescesInEveryRun(steps: seq<Step>, key: Key, now: int)
    requires CanRun(START, steps) && key.refreshIntervalSeconds > 0
    ensures var s := Run(START, steps);
      forall i, j :: 0 <= i < j < |s.discoveries| && s.discoveries[i].key == key && s.discoveries[j].key == key ==>
          !(Unfinished(s.discoveries[i]) && Unfinished(s.discoveries[j]))
    ensures var s := Run(START, steps);
      key in s.cache ==> (s.cache[key].value.Some? <==> s.cache[key].inFlight.None?)
    ensures var s := Run(START, steps);
      match Answer(s, key, now)
      case Served(models) =>
        exists id: nat :: id < |s.discoveries| && s.discoveries[id].key == key
          && s.discoveries[id].status == Finished(Some(models))
          && now - s.discoveries[id].now < key.refreshIntervalSeconds * 1000
      case Joined(id) => id < |s.discoveries| && s.discoveries[id].key == key && Unfinished(s.discoveries[id])
      case Started(_) =>
        forall id :: 0 <= id < |s.discoveries| && s.discoveries[id].key == key ==> !Unfinished(s.discoveries[id])
  {
    RunKeeps(START, steps);
    var s := Run(START, steps);
    forall i, j | 0 <= i < j < |s.discoveries| && s.discoveries[i].key == key && s.discoveries[j].key == key
      ensures !(Unfinished(s.discoveries[i]) && Unfinished(s.discoveries[j]))
    {
      assert Owned(s, i) && Owned(s, j);
    }
    if key in s.cache {
      assert EntryOk(s, key);
      if s.cache[key].value.Some? {
        var id :| FetchedBy(s, key, id);
      }
    }
    forall id | 0 <= id < |s.discoveries| && s.discoveries[id].key == key && Unfinished(s.discoveries[id])
      ensures !Answer(s, key, now).Started?
    {
      assert Owned(s, id);
    }
  }

  /** Without an interval nothing is cached: every call starts a discovery of its own. */
  lemma NoIntervalNoCache(steps: seq<Step>, key: Key, now: int)
    requires CanRun(START, steps) && key.refreshIntervalSeconds == 0
    ensures var s := Run(START, steps); key !in s.cache && Answer(s, key, now) == Started(|s.discoveries|)
  {
    RunKeeps(START, steps);
    if key in Run(START, steps).cache {
      CachedHasInterval(Run(START, steps), key);
    }
  }

  lemma CachedHasInterval(s: State, key: Key)
    requires Inv(s) && key in s.cache
    ensures key.refreshIntervalSeconds > 0
  {
    assert EntryOk(s, key);
  }

  /** When a discovery that failed is over, its key is uncached, so the next call fetches again; one that
      came through is served until its interval is over. */
  lemma AfterResume(s: State, id: nat, now: int)
    requires Inv(s) && Enabled(s, Resume(id)) && s.discoveries[id].key.refreshIntervalSeconds > 0
    ensures var t, d := Do(s, Resume(id)), s.discoveries[id];
      match d.status.result
      case None => d.key !in t.cache && Answer(t, d.key, now).Started?
      case Some(models) =>
        Answer(t, d.key, now) == if now < d.now + 1000 * d.key.refreshIntervalSeconds then Served(models) else Started(|t.discoveries|)
    ensures forall other :: other in s.cache && other != s.discoveries[id].key ==>
      other in Do(s, Resume(id)).cache && Do(s, Resume(id)).cache[other] == s.cache[other]
  {
  }

  /** What a call comes to in the end. */
  datatype CallResult = Returned(models: Models) | Rejected

  /** The call that started a discovery turns a failure into an empty list. */
  function StarterResult(result: Option<Models>): CallResult {
    if result.Some? then Returned(result.value) else Returned([])
  }

  /** A call that joined it awaits the promise itself. */
  function JoinerResult(result: Option<Models>): CallResult {
    if result.Some? then Returned(result.value) else Rejected
  }

  /** The promise has settled, with this result. */
  ghost predicate SettledAs(s: State, id: nat, result: Option<Models>) {
    id < |s.discoveries| && (s.discoveries[id].status == Settled(result) || s.discoveries[id].status == Finished(result))
  }

  /** A promise is settled by a step of the run that settles it, with the result of that step. */
  lemma {:induction false} SettledByStep(s: State, steps: seq<Step>, id: nat, result: Option<Models>)
    requires CanRun(s, steps) && SettledAs(Run(s, steps), id, result)
    ensures SettledAs(s, id, result) || Settle(id, result) in steps
    decreases |steps|
  {
    if steps != [] {
      SettledByStep(Do(s, steps[0]), steps[1..], id, result);
      assert steps[0] in steps;
      if Settle(id, result) in steps[1..] {
        assert steps == [steps[0]] + steps[1..];
      }
    }
  }

  /** So what is served from the cache is what some fetch for the key came to in the run. */
  lemma ServedWasFetched(steps: seq<Step>, key: Key, now: int) returns (id: nat)
    requires CanRun(START, steps) && Answer(Run(START, steps), key, now).Served?
    ensures var s := Run(START, steps);
      && id < |s.discoveries| && s.discoveries[id].key == key
      && Settle(id, Some(Answer(s, key, now).models)) in steps
  {
    RunKeeps(START, steps);
    var s := Run(START, steps);
    assert EntryOk(s, key);
    id :| FetchedBy(s, key, id);
    SettledByStep(START, steps, id, s.cache[key].value);
  }

  /** A promise that has settled keeps its result. */
  lemma {:induction false} SettledStays(s: State, steps: seq<Step>, id: nat, result: Option<Models>)
    requires CanRun(s, steps) && SettledAs(s, id, result)
    ensures SettledAs(Run(s, steps), id, result)
    decreases |steps|
  {
    if steps != [] {
      SettledStays(Do(s, steps[0]), steps[1..], id, result);
    }
  }

  lemma {:induction false} DiscoveryStays(s: State, steps: seq<Step>, id: nat)
    requires CanRun(s, steps) && id < |s.discoveries|
    ensures id < |Run(s, steps).discoveries| && Run(s, steps).discoveries[id].key == s.discoveries[id].key
    decreases |steps|
  {
    if steps != [] {
      DiscoveryStays(Do(s, steps[0]), steps[1..], id);
    }
  }

  /** A call that joins gets the outcome of the one fetch for its own key that it found unfinished, whatever is
      done in between: the models the starting call returns, or, exactly when the fetch fails, a rejection
      where the starting call returns an empty list. */
  lemma JoinersShareTheFetch(steps: seq<Step>, key: Key, now: int, id: nat, later: seq<Step>, result: Option<Models>, last: seq<Step>)
    requires CanRun(START, steps) && Answer(Run(START, steps), key, now) == Joined(id)
    requires CanRun(Run(START, steps), later) && SettledAs(Run(Run(START, steps), later), id, result)
    requires CanRun(Run(Run(START, steps), later), last)
    ensures var t := Run(Run(Run(START, steps), later), last); SettledAs(t, id, result) && t.discoveries[id].key == key
    ensures JoinerResult(result) == StarterResult(result) <==> result.Some?
    ensures result.None? ==> JoinerResult(result) == Rejected && StarterResult(result) == Returned([])
  {
    RunKeeps(START, steps);
    var s := Run(START, steps);
    assert EntryOk(s, key);
    DiscoveryStays(s, later, id);
    DiscoveryStays(Run(s, later), last, id);
    SettledStays(Run(s, later), last, id, result);
  }

  // ----- the code

  class DiscoveryCache {
    var discoveryCache: map<Key, Entry>
    var discoveries: seq<Discovery>

    ghost function Current(): State
      reads this
    {
      State(discoveryCache, discoveries)
    }

    constructor ()
      ensures Current() == START
    {
      discoveryCache := map[];
      discoveries := [];
    }

    /** A call up to its first wait. */
    method Discover(key: Key, now: int) returns (r: Reply)
      requires Inv(Current())
      modifies this
      ensures Inv(Current()) && r == Answer(old(Current()), key, now) && Current() == Do(old(Current()), Call(key, now))
    {
      StepKeeps(Current(), Call(key, now));
      if key.refreshIntervalSeconds > 0 && key in discoveryCache {
        var cached := discoveryCache[key];
        if cached.value.Some? && cached.expiresAt > now {
          return Served(cached.value.value);
        }
        if cached.inFlight.Some? {
          return Joined(cached.inFlight.value);
        }
      }
      var id := |discoveries|;
      discoveries := discoveries + [Discovery(key, now, Running)];
      if key.refreshIntervalSeconds > 0 {
        discoveryCache := discoveryCache[key := Entry(now + key.refreshIntervalSeconds * 1000, None, Some(id))];
      }
      return Started(id);
    }

    /** The rest of a call that joined a discovery, once the promise has settled. */
    method Await(id: nat) returns (r: CallResult)
      requires id < |discoveries| && !discoveries[id].status.Running?
      ensures r == JoinerResult(discoveries[id].status.result)
    {
      match discoveries[id].status.result
      case Some(models) => return Returned(models);
      case None => return Rejected;
    }

    /** The rest of the call that started a discovery; a failed one comes to an empty list. */
    method Finish(id: nat) returns (models: Models)
      requires Inv(Current()) && Enabled(Current(), Resume(id))
      modifies this
      ensures Inv(Current()) && Current() == Do(old(Current()), Resume(id))
      ensures Returned(models) == StarterResult(old(discoveries)[id].status.result)
    {
      StepKeeps(Current(), Resume(id));
      var d := discoveries[id];
      discoveries := discoveries[id := d.(status := Finished(d.status.result))];
      if d.status.result.Some? {
        if d.key.refreshIntervalSeconds > 0 {
          discoveryCache := discoveryCache[d.key := Entry(d.now + d.key.refreshIntervalSeconds * 1000, d.status.result, None)];
        }
        return d.status.result.value;
      }
      if d.key.refreshIntervalSeconds > 0 {
        discoveryCache := discoveryCache - {d.key};
      }
      return [];
    }
  }
}
