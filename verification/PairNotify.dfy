/** The device-pairing notifier: who is told of which pairing request, tick by tick. */
module PairNotify {
  import opened Basics
  import opened JsText

  const NOTIFY_MAX_SEEN_AGE_MS := 24 * 60 * 60 * 1000

  /** An absent account or thread is the empty string, as it is in the subscriber key. */
  datatype Target = Target(to: string, accountId: string, messageThreadId: string)

  datatype Mode = Persistent | Once

  datatype Subscriber = Subscriber(target: Target, mode: Mode, addedAtMs: int)

  /** The time stamp is present only when it is a positive number. */
  datatype Request = Request(requestId: string, ts: Option<int>)

  datatype State = State(subscribers: seq<Subscriber>, notified: map<string, int>)

  function TargetKey(t: Target): string {
    t.to + "|" + t.accountId + "|" + t.messageThreadId
  }

  function Key(s: Subscriber): string {
    TargetKey(s.target)
  }

  function FindKey(subscribers: seq<Subscriber>, key: string): (i: int)
    ensures -1 <= i < |subscribers|
    ensures i >= 0 ==> Key(subscribers[i]) == key
    ensures i == -1 <==> forall j :: 0 <= j < |subscribers| ==> Key(subscribers[j]) != key
  {
    if subscribers == [] then -1
    else if Key(subscribers[0]) == key then 0
    else
      var i := FindKey(subscribers[1..], key);
      assert forall j :: 1 <= j < |subscribers| ==> subscribers[j] == subscribers[1..][j - 1];
      if i == -1 then -1 else i + 1
  }

  // ----- reading the state file

  function NormalizeTarget(t: Target): Target {
    Target(Trim(t.to), Trim(t.accountId), Trim(t.messageThreadId))
  }

  function NormalizeSubscribers(subscribers: seq<Subscriber>): seq<Subscriber> {
    if subscribers == [] then []
    else
      var front, last := NormalizeSubscribers(subscribers[..|subscribers| - 1]), subscribers[|subscribers| - 1];
      if Trim(last.target.to) == "" then front else front + [last.(target := NormalizeTarget(last.target))]
  }

  predicate TrimmedTarget(t: Target) {
    t.to != "" && IsTrimmed(t.to) && IsTrimmed(t.accountId) && IsTrimmed(t.messageThreadId)
  }

  ghost predicate TrimmedTargets(subs: seq<Subscriber>) {
    forall i :: 0 <= i < |subs| ==> TrimmedTarget(subs[i].target)
  }

  ghost predicate TrimmedStamps(notified: map<string, int>) {
    forall r :: r in notified ==> r != "" && IsTrimmed(r) && notified[r] > 0
  }

  ghost predicate Trimmed(s: State) {
    TrimmedTargets(s.subscribers) && TrimmedStamps(s.notified)
  }

  /** One entry of the file's `notifiedRequestIds`. */
  datatype Stamp = Stamp(requestId: string, ts: int)

  /** What a state file holds, its notified ids in the order in which it lists them. */
  datatype Stored = Stored(subscribers: seq<Subscriber>, notified: seq<Stamp>)

  /** Ids that are trimmed alike share an entry, and the one listed last wins. */
  function NormalizeStamps(stamps: seq<Stamp>): map<string, int> {
    if stamps == [] then map[]
    else
      var front, last := NormalizeStamps(stamps[..|stamps| - 1]), stamps[|stamps| - 1];
      if Trim(last.requestId) == "" || last.ts <= 0 then front else front[Trim(last.requestId) := last.ts]
  }

  /** A file that is missing or cannot be read counts as empty. */
  function Normalize(file: Option<Stored>): State {
    match file
    case None => State([], map[])
    case Some(stored) => State(NormalizeSubscribers(stored.subscribers), NormalizeStamps(stored.notified))
  }

  /** The file lists the state, the notified ids in some order. */
  ghost predicate Lists(file: Option<Stored>, s: State) {
    && file.Some? && file.value.subscribers == s.subscribers
    && (forall i :: 0 <= i < |file.value.notified| ==>
          file.value.notified[i].requestId in s.notified && s.notified[file.value.notified[i].requestId] == file.value.notified[i].ts)
    && (forall r :: r in s.notified ==> exists i :: 0 <= i < |file.value.notified| && file.value.notified[i].requestId == r)
  }

  /** The file is left as it was, when that is how the state reads, or lists the state. */
  ghost predicate Leaves(before: Option<Stored>, s: State, after: Option<Stored>) {
    (after == before && Normalize(before) == s) || Lists(after, s)
  }

  /** Whatever the file holds, the state read from it is trimmed. */
  lemma NormalizeTrims(file: Option<Stored>)
    ensures Trimmed(Normalize(file))
  {
    if file.Some? {
      SubscribersTrimmed(file.value.subscribers);
      StampsTrimmed(file.value.notified);
    }
  }

  lemma {:induction false} SubscribersTrimmed(subscribers: seq<Subscriber>)
    ensures TrimmedTargets(NormalizeSubscribers(subscribers))
    decreases |subscribers|
  {
    hide IsTrimmed, Trim;
    if subscribers != [] {
      var last := subscribers[|subscribers| - 1];
      SubscribersTrimmed(subscribers[..|subscribers| - 1]);
      assert last.(target := NormalizeTarget(last.target)).target == NormalizeTarget(last.target);
      TrimTrims(last.target.to);
      TrimTrims(last.target.accountId);
      TrimTrims(last.target.messageThreadId);
    }
  }

  lemma {:induction false} StampsTrimmed(stamps: seq<Stamp>)
    ensures TrimmedStamps(NormalizeStamps(stamps))
    decreases |stamps|
  {
    hide IsTrimmed, Trim;
    if stamps != [] {
      StampsTrimmed(stamps[..|stamps| - 1]);
      TrimTrims(stamps[|stamps| - 1].requestId);
    }
  }

  /** Reading takes the subscribers one by one: one without a recipient is dropped, any other is trimmed. */
  lemma {:induction false} ReadsOneByOne(a: seq<Subscriber>, x: Subscriber, b: seq<Subscriber>)
    ensures NormalizeSubscribers([]) == []
    ensures NormalizeSubscribers(a + [x] + b) ==
      NormalizeSubscribers(a) + (if IsBlank(x.target.to) then [] else [x.(target := NormalizeTarget(x.target))]) + NormalizeSubscribers(b)
    decreases |b|
  {
    TrimBlank(x.target.to);
    hide Trim, IsBlank, NormalizeTarget;
    if b == [] {
      assert (a + [x] + b)[..|a|] == a && a + [x] + b == a + [x];
    } else {
      ReadsOneByOne(a, x, b[..|b| - 1]);
      assert (a + [x] + b)[..|a| + |b|] == a + [x] + b[..|b| - 1];
    }
  }

  /** An id is read with the time v exactly when that is the last positive time listed for it. */
  lemma {:induction false} ReadsLastStamp(stamps: seq<Stamp>, r: string, v: int)
    ensures r in NormalizeStamps(stamps) && NormalizeStamps(stamps)[r] == v <==> exists n :: LastStamp(stamps, r, v, n)
    decreases |stamps|
  {
    hide Trim;
    if stamps != [] {
      var m := |stamps| - 1;
      var front, last := stamps[..m], stamps[m];
      ReadsLastStamp(front, r, v);
      if Trim(last.requestId) == r && r != "" && last.ts > 0 {
        assert last.ts == v ==> LastStamp(stamps, r, v, m);
        assert forall n :: LastStamp(stamps, r, v, n) ==> n == m;
      } else {
        assert forall n :: LastStamp(front, r, v, n) ==> LastStamp(stamps, r, v, n);
        assert forall n :: LastStamp(stamps, r, v, n) ==> n < m && LastStamp(front, r, v, n);
      }
    }
  }

  ghost predicate LastStamp(stamps: seq<Stamp>, r: string, v: int, n: int) {
    && 0 <= n < |stamps| && r != "" && Trim(stamps[n].requestId) == r && stamps[n].ts == v && v > 0
    && forall m :: n < m < |stamps| && Trim(stamps[m].requestId) == r ==> stamps[m].ts <= 0
  }

  /** The state as it reads once it is written. */
  function Reread(s: State): State {
    s.(subscribers := NormalizeSubscribers(s.subscribers))
  }

  /** What the file reads as, in whatever order its ids were listed; a trimmed state reads as it was written. */
  lemma WrittenReadsBack(before: Option<Stored>, s: State, after: Option<Stored>)
    requires Leaves(before, s, after) && TrimmedStamps(s.notified)
    ensures Normalize(after) == Reread(s)
    ensures Trimmed(s) ==> Reread(s) == s
  {
    if Trimmed(s) {
      NormalizeTrimmed(s.subscribers);
    }
    if Lists(after, s) {
      StampsListed(after.value.notified, s.notified);
      forall r | r in s.notified ensures r in NormalizeStamps(after.value.notified) {
        var i :| 0 <= i < |after.value.notified| && after.value.notified[i].requestId == r;
      }
    } else {
      NormalizeTrims(before);
      NormalizeTrimmed(s.subscribers);
    }
  }

  lemma {:induction false} StampsListed(stamps: seq<Stamp>, m: map<string, int>)
    requires TrimmedStamps(m)
    requires forall i :: 0 <= i < |stamps| ==> stamps[i].requestId in m && m[stamps[i].requestId] == stamps[i].ts
    ensures var read := NormalizeStamps(stamps);
      && (forall r :: r in read ==> r in m && read[r] == m[r])
      && (forall i :: 0 <= i < |stamps| ==> stamps[i].requestId in read)
    decreases |stamps|
  {
    hide IsTrimmed, Trim;
    if stamps != [] {
      var front := stamps[..|stamps| - 1];
      StampsListed(front, m);
      TrimTrims(stamps[|stamps| - 1].requestId);
      forall i | 0 <= i < |stamps| ensures stamps[i].requestId in NormalizeStamps(stamps) {
        if i < |front| { assert front[i].requestId in NormalizeStamps(front); }
      }
    }
  }

  /** A file whose texts are trimmed is read as it was written. */
  lemma {:induction false} NormalizeTrimmed(subscribers: seq<Subscriber>)
    requires TrimmedTargets(subscribers)
    ensures NormalizeSubscribers(subscribers) == subscribers
    decreases |subscribers|
  {
    hide IsTrimmed, Trim;
    if subscribers != [] {
      var last := subscribers[|subscribers| - 1];
      NormalizeTrimmed(subscribers[..|subscribers| - 1]);
      TrimTrims(last.target.to);
      TrimTrims(last.target.accountId);
      TrimTrims(last.target.messageThreadId);
    }
  }

  // ----- commands

  /** Adds the target, or gives it the mode; the time is that of the change. */
  function Upsert(s: State, t: Target, mode: Mode, now: int): State {
    var i := FindKey(s.subscribers, TargetKey(t));
    if i == -1 then s.(subscribers := s.subscribers + [Subscriber(t, mode, now)])
    else if s.subscribers[i].mode == mode then s
    else s.(subscribers := s.subscribers[i := Subscriber(t, mode, now)])
  }

  function Remove(s: State, t: Target): State {
    var i := FindKey(s.subscribers, TargetKey(t));
    if i == -1 then s else s.(subscribers := s.subscribers[..i] + s.subscribers[i + 1..])
  }

  function FindMode(s: State, t: Target): Option<Mode> {
    var i := FindKey(s.subscribers, TargetKey(t));
    if i == -1 then None else Some(s.subscribers[i].mode)
  }

  /** The command changes nothing, or no subscriber but the one it replaces has the key of the trimmed target. */
  predicate KeepsApart(s: State, t: Target, mode: Mode) {
    FindMode(s, t) == Some(mode) ||
      forall j :: 0 <= j < |s.subscribers| && j != FindKey(s.subscribers, TargetKey(t)) ==>
        Key(s.subscribers[j]) != TargetKey(NormalizeTarget(t))
  }

  /** The recipient of a command is trimmed before; its account and thread are not. */
  predicate IsRecipient(t: Target) {
    t.to != "" && IsTrimmed(t.to)
  }

  // ----- a tick

  predicate ShouldNotify(sub: Subscriber, r: Request) {
    sub.mode != Once || (r.ts.Some? && r.ts.value >= sub.addedAtMs)
  }

  /** What a tick works on: the requests pending, and whether the send of request i to subscriber j gets through. */
  datatype TickInput = TickInput(now: int, pending: seq<Request>, sendOk: (nat, nat) -> bool)

  function PendingIds(pending: seq<Request>): set<string> {
    set r | r in pending :: r.requestId
  }

  function Pruned(s: State, t: TickInput): map<string, int> {
    map r | r in s.notified && r in PendingIds(t.pending) && t.now - s.notified[r] <= NOTIFY_MAX_SEEN_AGE_MS :: s.notified[r]
  }

  ghost predicate Delivered(subs: seq<Subscriber>, t: TickInput, i: nat)
    requires i < |t.pending|
  {
    exists j: nat :: j < |subs| && ShouldNotify(subs[j], t.pending[i]) && t.sendOk(i, j)
  }

  /** The notified ids after the first n requests. */
  ghost function NotifiedAfter(s: State, t: TickInput, n: nat): map<string, int>
    requires n <= |t.pending|
  {
    if n == 0 then Pruned(s, t)
    else
      var before, id := NotifiedAfter(s, t, n - 1), t.pending[n - 1].requestId;
      if id !in before && Delivered(s.subscribers, t, n - 1) then before[id := t.now] else before
  }

  /** Request i is sent to subscriber j. */
  ghost predicate Sent(s: State, t: TickInput, i: nat, j: nat) {
    && i < |t.pending| && j < |s.subscribers|
    && t.pending[i].requestId !in NotifiedAfter(s, t, i)
    && ShouldNotify(s.subscribers[j], t.pending[i])
  }

  ghost predicate GotThrough(s: State, t: TickInput, i: nat, j: nat) {
    Sent(s, t, i, j) && t.sendOk(i, j)
  }

  /** The keys of the one-shot subscribers reached by the first n requests. */
  ghost predicate Served(s: State, t: TickInput, n: nat, key: string) {
    exists i: nat, j: nat :: i < n && GotThrough(s, t, i, j) && s.subscribers[j].mode == Once && Key(s.subscribers[j]) == key
  }

  ghost function Unserved(s: State, t: TickInput, subs: seq<Subscriber>): seq<Subscriber> {
    if subs == [] then []
    else
      var front, last := Unserved(s, t, subs[..|subs| - 1]), subs[|subs| - 1];
      if Served(s, t, |t.pending|, Key(last)) then front else front + [last]
  }

  ghost function Tick(s: State, t: TickInput): State {
    State(Unserved(s, t, s.subscribers), NotifiedAfter(s, t, |t.pending|))
  }

  // ----- a run

  datatype Event =
    | Ticked(now: int, pending: set<string>, attempted: set<string>, delivered: set<string>, served: set<string>, oneShots: set<OneShot>)
    | Commanded(key: string, armed: Option<int>)

  /** A request, by its time stamp, sent to a one-shot subscriber. */
  datatype OneShot = OneShot(key: string, ts: Option<int>)

  datatype Step = DoTick(input: TickInput) | On(target: Target, now: int) | Arm(target: Target, now: int) | Off(target: Target)

  /** The subscribers at the start, the state, and what has happened so far. */
  datatype World = World(first: seq<Subscriber>, state: State, log: seq<Event>)

  ghost predicate SentOnce(s: State, t: TickInput, r: Request, x: Subscriber) {
    x.mode == Once && exists i: nat, j: nat :: Sent(s, t, i, j) && t.pending[i] == r && s.subscribers[j] == x
  }

  /** The key under which the target is found once the file has been written and read again. */
  function TrimmedKey(t: Target): string {
    TargetKey(NormalizeTarget(t))
  }

  /** The time of an arming: the command put the subscriber there, or made it a one-shot one. */
  ghost function ArmedBy(s: State, target: Target, now: int): Option<int> {
    var i := FindKey(s.subscribers, TargetKey(target));
    if i == -1 || s.subscribers[i].mode != Once then Some(now) else None
  }

  ghost function EventOf(s: State, t: TickInput): Event {
    Ticked(t.now, PendingIds(t.pending),
      set r | r in PendingIds(t.pending) && (exists i: nat, j: nat :: Sent(s, t, i, j) && t.pending[i].requestId == r),
      set r | r in PendingIds(t.pending) && (exists i: nat, j: nat :: GotThrough(s, t, i, j) && t.pending[i].requestId == r),
      set x | x in s.subscribers && Served(s, t, |t.pending|, Key(x)) :: Key(x),
      set r, x | r in t.pending && x in s.subscribers && SentOnce(s, t, r, x) :: OneShot(Key(x), r.ts))
  }

  ghost function Do(w: World, step: Step): World {
    match step
    case DoTick(t) => World(w.first, Tick(w.state, t), w.log + [EventOf(w.state, t)])
    case On(target, now) =>
      World(w.first, Reread(Upsert(w.state, target, Persistent, now)), w.log + [Commanded(TrimmedKey(target), None)])
    case Arm(target, now) =>
      World(w.first, Reread(Upsert(w.state, target, Once, now)), w.log + [Commanded(TrimmedKey(target), ArmedBy(w.state, target, now))])
    case Off(target) =>
      World(w.first, Remove(w.state, target), w.log + [Commanded(TrimmedKey(target), None)])
  }

  /** The clock of the last tick; ticks come in the order of their clocks. */
  ghost function LastNow(log: seq<Event>, first: int): int {
    if log == [] then first
    else if log[|log| - 1].Ticked? then log[|log| - 1].now
    else LastNow(log[..|log| - 1], first)
  }

  ghost predicate Allowed(w: World, step: Step) {
    match step
    case DoTick(t) => t.now > 0 && LastNow(w.log, 0) <= t.now && forall r :: r in t.pending ==> r.requestId != "" && IsTrimmed(r.requestId)
    case On(target, _) => IsRecipient(target) && KeepsApart(w.state, target, Persistent)
    case Arm(target, _) => IsRecipient(target) && KeepsApart(w.state, target, Once)
    case Off(_) => true
  }

  ghost predicate DistinctKeys(subs: seq<Subscriber>) {
    forall i, j :: 0 <= i < j < |subs| ==> Key(subs[i]) != Key(subs[j])
  }

  /** When the request was last delivered, if it has been pending at every tick since. */
  ghost function DeliveredAt(log: seq<Event>, r: string): Option<int> {
    if log == [] then None
    else
      match log[|log| - 1]
      case Commanded(_, _) => DeliveredAt(log[..|log| - 1], r)
      case Ticked(now, pending, _, delivered, _, _) =>
        if r in delivered then Some(now)
        else if r !in pending then None
        else DeliveredAt(log[..|log| - 1], r)
  }

  /** A one-shot subscriber with this key was reached, and the key has not been armed since. */
  ghost predicate Spent(log: seq<Event>, key: string) {
    log != [] &&
      match log[|log| - 1]
      case Commanded(k, armed) => !(k == key && armed.Some?) && Spent(log[..|log| - 1], key)
      case Ticked(_, _, _, _, served, _) => key in served || Spent(log[..|log| - 1], key)
  }

  /** When the key was last armed; before any arming, what the subscriber at the start says. */
  ghost function ArmedAt(first: seq<Subscriber>, log: seq<Event>, key: string): Option<int> {
    if log == [] then
      var i := FindKey(first, key);
      if i >= 0 && first[i].mode == Once then Some(first[i].addedAtMs) else None
    else
      match log[|log| - 1]
      case Commanded(k, armed) => if k == key && armed.Some? then armed else ArmedAt(first, log[..|log| - 1], key)
      case Ticked(_, _, _, _, _, _) => ArmedAt(first, log[..|log| - 1], key)
  }

  ghost predicate PendingAtLastTick(log: seq<Event>, notified: map<string, int>) {
    log == [] ||
      match log[|log| - 1]
      case Commanded(_, _) => PendingAtLastTick(log[..|log| - 1], notified)
      case Ticked(_, pending, _, _, _, _) => notified.Keys <= pending
  }

  ghost predicate Remembers(w: World, r: string) {
    DeliveredAt(w.log, r).Some? ==>
      var t := DeliveredAt(w.log, r).value;
      (r in w.state.notified && w.state.notified[r] == t) || LastNow(w.log, 0) - t > NOTIFY_MAX_SEEN_AGE_MS
  }

  /** A one-shot subscriber has not been reached since it was armed, and remembers when that was. */
  ghost predicate Armed(w: World, x: Subscriber) {
    !Spent(w.log, Key(x)) && ArmedAt(w.first, w.log, Key(x)) == Some(x.addedAtMs)
  }

  ghost predicate Inv(w: World) {
    && Trimmed(w.state)
    && DistinctKeys(w.state.subscribers)
    && PendingAtLastTick(w.log, w.state.notified)
    && (forall r :: Remembers(w, r))
    && (forall x :: x in w.state.subscribers && x.mode == Once ==> Armed(w, x))
  }

  // ----- what a tick does to the notified ids

  lemma {:induction false} NotifiedGrows(s: State, t: TickInput, m: nat, n: nat)
    requires m <= n <= |t.pending|
    ensures forall r :: r in NotifiedAfter(s, t, m) ==> r in NotifiedAfter(s, t, n) && NotifiedAfter(s, t, n)[r] == NotifiedAfter(s, t, m)[r]
    decreases n
  {
    if m < n {
      NotifiedGrows(s, t, m, n - 1);
    }
  }

  lemma {:induction false} NotifiedFrom(s: State, t: TickInput, n: nat, r: string)
    requires n <= |t.pending| && r in NotifiedAfter(s, t, n)
    ensures r in PendingIds(t.pending)
    ensures r in Pruned(s, t) || NotifiedAfter(s, t, n)[r] == t.now
    ensures r in Pruned(s, t) ==> NotifiedAfter(s, t, n)[r] == s.notified[r]
    decreases n
  {
    if n > 0 {
      NotifiedGrows(s, t, 0, n - 1);
      assert t.pending[n - 1] in t.pending;
      if r in NotifiedAfter(s, t, n - 1) {
        NotifiedFrom(s, t, n - 1, r);
      }
    }
  }

  /** A request that got through is notified from this tick on. */
  lemma DeliveredIsNotified(s: State, t: TickInput, i: nat, j: nat)
    requires GotThrough(s, t, i, j)
    ensures var r := t.pending[i].requestId;
      r !in Pruned(s, t) && r in NotifiedAfter(s, t, |t.pending|) && NotifiedAfter(s, t, |t.pending|)[r] == t.now
  {
    var r := t.pending[i].requestId;
    assert Delivered(s.subscribers, t, i);
    assert NotifiedAfter(s, t, i + 1) == NotifiedAfter(s, t, i)[r := t.now];
    NotifiedGrows(s, t, i + 1, |t.pending|);
    NotifiedGrows(s, t, 0, i);
  }

  lemma {:induction false} UnservedKeeps(s: State, t: TickInput, subs: seq<Subscriber>)
    requires DistinctKeys(subs)
    ensures DistinctKeys(Unserved(s, t, subs))
    ensures forall x :: x in Unserved(s, t, subs) <==> x in subs && !Served(s, t, |t.pending|, Key(x))
    decreases |subs|
  {
    if subs != [] {
      var front, last := subs[..|subs| - 1], subs[|subs| - 1];
      UnservedKeeps(s, t, front);
      assert subs == front + [last];
      forall x | x in front ensures Key(x) != Key(last) {
        var i :| 0 <= i < |front| && front[i] == x;
      }
    }
  }

  // ----- who is told of what, and what is remembered

  /** The subscriber is to hear of the request: it is a persistent one, or was armed no later than the request's stamp. */
  predicate Hears(x: Subscriber, q: Request) {
    x.mode == Persistent || match q.ts case None => false case Some(ts) => x.addedAtMs <= ts
  }

  /** The file remembers the request from a delivery within the last 24 hours. */
  predicate Recent(notified: map<string, int>, r: string, now: int) {
    r in notified && now <= notified[r] + 86_400_000
  }

  /** Request i has a subscriber that is to hear of it and whose send gets through. */
  ghost predicate Reaches(s: State, t: TickInput, i: nat) {
    i < |t.pending| && exists j: nat :: j < |s.subscribers| && Hears(s.subscribers[j], t.pending[i]) && t.sendOk(i, j)
  }

  /** So has one of the first n requests with this id. */
  ghost predicate Reached(s: State, t: TickInput, n: nat, r: string) {
    exists i: nat :: i < n && i < |t.pending| && t.pending[i].requestId == r && Reaches(s, t, i)
  }

  lemma {:induction false} NotifiedExactly(s: State, t: TickInput, n: nat, r: string)
    requires n <= |t.pending|
    ensures r in NotifiedAfter(s, t, n) <==> (r in PendingIds(t.pending) && Recent(s.notified, r, t.now)) || Reached(s, t, n, r)
    ensures r in NotifiedAfter(s, t, n) ==>
      NotifiedAfter(s, t, n)[r] == if Recent(s.notified, r, t.now) then s.notified[r] else t.now
    decreases n
  {
    if n > 0 {
      NotifiedExactly(s, t, n - 1, r);
      assert Delivered(s.subscribers, t, n - 1) <==> Reaches(s, t, n - 1);
      assert t.pending[n - 1] in t.pending;
      assert Reached(s, t, n, r) <==> Reached(s, t, n - 1, r) || (t.pending[n - 1].requestId == r && Reaches(s, t, n - 1)) by {
        hide Reaches;
      }
    }
  }

  /** A request is sent to exactly the subscribers that are to hear of it, unless it is remembered or an earlier
      request with its id has reached someone in this tick. */
  lemma SentExactly(s: State, t: TickInput, i: nat, j: nat)
    ensures Sent(s, t, i, j) <==>
      && i < |t.pending| && j < |s.subscribers| && Hears(s.subscribers[j], t.pending[i])
      && !Recent(s.notified, t.pending[i].requestId, t.now) && !Reached(s, t, i, t.pending[i].requestId)
  {
    if i < |t.pending| {
      NotifiedExactly(s, t, i, t.pending[i].requestId);
      assert t.pending[i] in t.pending;
    }
  }

  lemma {:induction false} FirstReached(s: State, t: TickInput, n: nat, r: string) returns (i: nat)
    requires Reached(s, t, n, r)
    ensures i < n && i < |t.pending| && t.pending[i].requestId == r && Reaches(s, t, i) && !Reached(s, t, i, r)
    decreases n
  {
    hide Reaches;
    i :| i < n && i < |t.pending| && t.pending[i].requestId == r && Reaches(s, t, i);
    if Reached(s, t, i, r) {
      i := FirstReached(s, t, i, r);
    }
  }

  /** The whole of a tick. An id is notified afterwards exactly when it is pending and remembered, with its old time,
      or has reached someone, with the time of the tick; it counts as delivered in the latter case; and a subscriber
      is gone exactly when one with its key was a one-shot one and was reached. */
  lemma TickExactly(s: State, t: TickInput, r: string, x: Subscriber)
    requires DistinctKeys(s.subscribers)
    ensures r in Tick(s, t).notified <==> r in PendingIds(t.pending) && (Recent(s.notified, r, t.now) || Reached(s, t, |t.pending|, r))
    ensures r in Tick(s, t).notified ==> Tick(s, t).notified[r] == if Recent(s.notified, r, t.now) then s.notified[r] else t.now
    ensures r in EventOf(s, t).delivered <==> !Recent(s.notified, r, t.now) && Reached(s, t, |t.pending|, r)
    ensures x in Tick(s, t).subscribers <==> x in s.subscribers && !(x.mode == Once && exists i: nat, j: nat :: ReachesFirst(s, t, i, j, x))
  {
    NotifiedExactly(s, t, |t.pending|, r);
    if Reached(s, t, |t.pending|, r) {
      var i := FirstReached(s, t, |t.pending|, r);
      assert t.pending[i] in t.pending;
      if !Recent(s.notified, r, t.now) {
        var j: nat :| j < |s.subscribers| && Hears(s.subscribers[j], t.pending[i]) && t.sendOk(i, j);
        SentExactly(s, t, i, j);
        assert GotThrough(s, t, i, j);
      }
    }
    if r in EventOf(s, t).delivered {
      var i: nat, j: nat :| GotThrough(s, t, i, j) && t.pending[i].requestId == r;
      SentExactly(s, t, i, j);
      assert Reaches(s, t, i);
    }
    UnservedKeeps(s, t, s.subscribers);
    if x in s.subscribers {
      GoneExactly(s, t, x);
    }
  }

  /** Request i, neither remembered nor delivered before in the tick, reaches the subscriber x in place j. */
  ghost predicate ReachesFirst(s: State, t: TickInput, i: nat, j: nat, x: Subscriber) {
    && i < |t.pending| && j < |s.subscribers| && s.subscribers[j] == x && Hears(x, t.pending[i]) && t.sendOk(i, j)
    && !Recent(s.notified, t.pending[i].requestId, t.now) && !Reached(s, t, i, t.pending[i].requestId)
  }

  lemma GoneExactly(s: State, t: TickInput, x: Subscriber)
    requires DistinctKeys(s.subscribers) && x in s.subscribers
    ensures Served(s, t, |t.pending|, Key(x)) <==> x.mode == Once && exists i: nat, j: nat :: ReachesFirst(s, t, i, j, x)
  {
    hide Reached, Recent, Hears, Key;
    if Served(s, t, |t.pending|, Key(x)) {
      var i: nat, j: nat :| i < |t.pending| && GotThrough(s, t, i, j) && s.subscribers[j].mode == Once && Key(s.subscribers[j]) == Key(x);
      SentExactly(s, t, i, j);
      assert s.subscribers[j] == x;
      assert ReachesFirst(s, t, i, j, x);
    }
    if x.mode == Once && exists i: nat, j: nat :: ReachesFirst(s, t, i, j, x) {
      var i: nat, j: nat :| ReachesFirst(s, t, i, j, x);
      SentExactly(s, t, i, j);
      assert GotThrough(s, t, i, j);
    }
  }

  // ----- every step keeps the invariant

  lemma TickTrimmed(s: State, t: TickInput)
    requires Trimmed(s) && DistinctKeys(s.subscribers) && t.now > 0
    requires forall r :: r in t.pending ==> r.requestId != "" && IsTrimmed(r.requestId)
    ensures Trimmed(Tick(s, t)) && DistinctKeys(Tick(s, t).subscribers) && Tick(s, t).notified.Keys <= PendingIds(t.pending)
  {
    UnservedKeeps(s, t, s.subscribers);
    var s' := Tick(s, t);
    forall i | 0 <= i < |s'.subscribers| ensures TrimmedTarget(s'.subscribers[i].target) {
      assert s'.subscribers[i] in s'.subscribers && s'.subscribers[i] in s.subscribers;
    }
    forall r | r in s'.notified ensures r != "" && IsTrimmed(r) && s'.notified[r] > 0 && r in PendingIds(t.pending) {
      NotifiedFrom(s, t, |t.pending|, r);
    }
  }

  lemma TickRemembers(w: World, t: TickInput, r: string)
    requires Remembers(w, r) && LastNow(w.log, 0) <= t.now
    ensures Remembers(Do(w, DoTick(t)), r)
  {
    var w' := Do(w, DoTick(t));
    assert w'.log[..|w'.log| - 1] == w.log;
    if r in EventOf(w.state, t).delivered {
      var i: nat, j: nat :| GotThrough(w.state, t, i, j) && t.pending[i].requestId == r;
      DeliveredIsNotified(w.state, t, i, j);
    } else if r in PendingIds(t.pending) && DeliveredAt(w.log, r).Some? && r in Pruned(w.state, t) {
      NotifiedGrows(w.state, t, 0, |t.pending|);
    }
  }

  lemma TickKeeps(w: World, t: TickInput)
    requires Inv(w) && Allowed(w, DoTick(t))
    ensures Inv(Do(w, DoTick(t)))
  {
    var w' := Do(w, DoTick(t));
    assert w'.log[..|w'.log| - 1] == w.log;
    TickTrimmed(w.state, t);
    forall r ensures Remembers(w', r) {
      TickRemembers(w, t, r);
    }
    UnservedKeeps(w.state, t, w.state.subscribers);
    forall x | x in w'.state.subscribers && x.mode == Once ensures Armed(w', x) {
      assert x in w.state.subscribers && !Served(w.state, t, |t.pending|, Key(x));
      assert Armed(w, x);
    }
  }

  lemma UpsertKeeps(s: State, t: Target, mode: Mode, now: int)
    requires Trimmed(s) && DistinctKeys(s.subscribers) && IsRecipient(t) && KeepsApart(s, t, mode)
    ensures var s' := Reread(Upsert(s, t, mode, now));
      && Trimmed(s') && DistinctKeys(s'.subscribers) && s'.notified == s.notified
      && (forall x :: x in s'.subscribers ==> x in s.subscribers || x == Subscriber(NormalizeTarget(t), mode, now))
      && (forall x :: x in s'.subscribers && FindMode(s, t) != Some(mode) && Key(x) == TrimmedKey(t) ==>
            x == Subscriber(NormalizeTarget(t), mode, now))
      && (FindMode(s, t) == Some(mode) ==> s' == s)
  {
    RereadKeepsDistinct(s, t, mode, now);
    RereadUpsert(s, t, mode, now);
    SubscribersTrimmed(Upsert(s, t, mode, now).subscribers);
    hide TargetKey, NormalizeSubscribers, NormalizeTarget, TrimmedTargets, TrimmedStamps, KeepsApart, DistinctKeys, PutAt;
    var s' := Reread(Upsert(s, t, mode, now));
    assert s'.notified == s.notified && Trimmed(s') && DistinctKeys(s'.subscribers);
    if FindMode(s, t) != Some(mode) {
      MembersWith(s.subscribers, FindKey(s.subscribers, TargetKey(t)), Subscriber(NormalizeTarget(t), mode, now));
    }
    hide Upsert, Reread, Trimmed, FindMode, FindKey;
  }

  lemma {:induction false} NormalizeReplaced(subs: seq<Subscriber>, i: nat, x: Subscriber)
    requires TrimmedTargets(subs) && i < |subs| && IsRecipient(x.target)
    ensures NormalizeSubscribers(subs[i := x]) == subs[i := x.(target := NormalizeTarget(x.target))]
    decreases |subs|
  {
    hide TrimmedTarget, NormalizeTarget, Trim, IsTrimmed;
    var front, last := subs[..|subs| - 1], subs[|subs| - 1];
    TrimTrims(x.target.to);
    if i == |subs| - 1 {
      NormalizeTrimmed(front);
      assert subs[i := x][..i] == front;
    } else {
      NormalizeReplaced(front, i, x);
      NormalizeTrimmed([last]);
      assert [last][..0] == [];
      assert subs[i := x][..|subs| - 1] == front[i := x];
    }
  }

  /** How a state reads after a command: the entry is there with its trimmed target. */
  lemma RereadUpsert(s: State, t: Target, mode: Mode, now: int)
    requires Trimmed(s) && IsRecipient(t)
    ensures var i, x := FindKey(s.subscribers, TargetKey(t)), Subscriber(NormalizeTarget(t), mode, now);
      Reread(Upsert(s, t, mode, now)).subscribers ==
        if FindMode(s, t) == Some(mode) then s.subscribers else PutAt(s.subscribers, i, x)
  {
    var subs := Upsert(s, t, mode, now).subscribers;
    var i := FindKey(s.subscribers, TargetKey(t));
    TrimTrims(t.to);
    NormalizeTrimmed(s.subscribers);
    if i == -1 {
      assert subs[..|subs| - 1] == s.subscribers;
    } else if s.subscribers[i].mode != mode {
      NormalizeReplaced(s.subscribers, i, Subscriber(t, mode, now));
    }
  }

  lemma WithoutAt(subs: seq<Subscriber>, i: nat, j: nat)
    requires i < |subs| && j < |subs| - 1
    ensures (subs[..i] + subs[i + 1..])[j] == subs[if j < i then j else j + 1]
  {
  }

  lemma WithoutKey(subs: seq<Subscriber>, i: nat)
    requires DistinctKeys(subs) && i < |subs|
    ensures DistinctKeys(subs[..i] + subs[i + 1..])
    ensures forall x :: x in subs[..i] + subs[i + 1..] <==> x in subs && Key(x) != Key(subs[i])
  {
    hide Key;
    var rest := subs[..i] + subs[i + 1..];
    forall a, b | 0 <= a < b < |rest| ensures Key(rest[a]) != Key(rest[b]) {
      WithoutAt(subs, i, a);
      WithoutAt(subs, i, b);
    }
    forall x | x in subs && Key(x) != Key(subs[i]) ensures x in rest {
      var j :| 0 <= j < |subs| && subs[j] == x;
      WithoutAt(subs, i, if j < i then j else j - 1);
      assert rest[if j < i then j else j - 1] == x;
    }
    forall x | x in rest ensures x in subs && Key(x) != Key(subs[i]) {
      var j :| 0 <= j < |rest| && rest[j] == x;
      WithoutAt(subs, i, j);
    }
  }

  lemma RemoveKeeps(s: State, t: Target)
    requires Trimmed(s) && DistinctKeys(s.subscribers)
    ensures var s' := Remove(s, t);
      && Trimmed(s') && DistinctKeys(s'.subscribers) && s'.notified == s.notified
      && (forall x :: x in s'.subscribers <==> x in s.subscribers && Key(x) != TargetKey(t))
  {
    hide TrimmedTarget, TargetKey, DistinctKeys;
    var i := FindKey(s.subscribers, TargetKey(t));
    if i >= 0 {
      WithoutKey(s.subscribers, i);
      forall j | 0 <= j < |Remove(s, t).subscribers| ensures TrimmedTarget(Remove(s, t).subscribers[j].target) {
        assert Remove(s, t).subscribers[j] in s.subscribers;
      }
    }
  }

  lemma CommandKeeps(w: World, key: string, armed: Option<int>, s': State)
    requires Inv(w) && Trimmed(s') && DistinctKeys(s'.subscribers) && s'.notified == w.state.notified
    requires forall x :: x in s'.subscribers && x.mode == Once ==>
      if Key(x) == key && armed.Some? then armed == Some(x.addedAtMs) else x in w.state.subscribers
    ensures Inv(World(w.first, s', w.log + [Commanded(key, armed)]))
  {
    var w' := World(w.first, s', w.log + [Commanded(key, armed)]);
    assert w'.log[..|w'.log| - 1] == w.log;
    forall r ensures Remembers(w', r) {
      assert Remembers(w, r);
    }
    forall x | x in s'.subscribers && x.mode == Once ensures Armed(w', x) {
      assert x in w.state.subscribers ==> Armed(w, x);
    }
  }

  lemma StepKeeps(w: World, step: Step)
    requires Inv(w) && Allowed(w, step)
    ensures Inv(Do(w, step))
  {
    hide Inv;
    InvParts(w);
    match step
    case DoTick(t) => TickKeeps(w, t);
    case On(target, now) =>
      UpsertKeeps(w.state, target, Persistent, now);
      CommandKeeps(w, TrimmedKey(target), None, Reread(Upsert(w.state, target, Persistent, now)));
    case Arm(target, now) =>
      UpsertKeeps(w.state, target, Once, now);
      CommandKeeps(w, TrimmedKey(target), ArmedBy(w.state, target, now), Reread(Upsert(w.state, target, Once, now)));
    case Off(target) =>
      RemoveKeeps(w.state, target);
      CommandKeeps(w, TrimmedKey(target), None, Remove(w.state, target));
  }

  lemma InvParts(w: World)
    requires Inv(w)
    ensures Trimmed(w.state) && DistinctKeys(w.state.subscribers)
  {
  }

  // ----- what a run never does

  ghost predicate NoOlder(o: OneShot, armed: Option<int>) {
    armed.Some? && o.ts.Some? && o.ts.value >= armed.value
  }

  /** No tick tries a request within 24 hours of a delivery since which it has been pending; none reaches a
      one-shot subscriber again that has not been armed since; and what a one-shot subscriber is sent is no
      older than its arming. */
  ghost predicate EventOk(first: seq<Subscriber>, log: seq<Event>, b: nat)
    requires b < |log|
  {
    log[b].Ticked? ==>
      && (forall r :: r in log[b].attempted && DeliveredAt(log[..b], r).Some? ==>
            log[b].now - DeliveredAt(log[..b], r).value > NOTIFY_MAX_SEEN_AGE_MS)
      && (forall key :: key in log[b].served ==> !Spent(log[..b], key))
      && (forall o :: o in log[b].oneShots ==> NoOlder(o, ArmedAt(first, log[..b], o.key)))
      && LastNow(log[..b], 0) <= log[b].now
  }

  lemma ServedOneShot(s: State, t: TickInput, n: nat, key: string) returns (j: nat)
    requires Served(s, t, n, key)
    ensures j < |s.subscribers| && s.subscribers[j].mode == Once && Key(s.subscribers[j]) == key
  {
    var i: nat;
    i, j :| i < n && GotThrough(s, t, i, j) && s.subscribers[j].mode == Once && Key(s.subscribers[j]) == key;
  }

  lemma TickIsOk(w: World, t: TickInput)
    requires Inv(w) && Allowed(w, DoTick(t))
    ensures EventOk(w.first, Do(w, DoTick(t)).log, |w.log|)
  {
    var e := EventOf(w.state, t);
    assert (w.log + [e])[..|w.log|] == w.log;
    forall r | r in e.attempted && DeliveredAt(w.log, r).Some? ensures t.now - DeliveredAt(w.log, r).value > NOTIFY_MAX_SEEN_AGE_MS {
      var i: nat, j: nat :| Sent(w.state, t, i, j) && t.pending[i].requestId == r;
      NotifiedGrows(w.state, t, 0, i);
      assert Remembers(w, r);
    }
    forall key | key in e.served ensures !Spent(w.log, key) {
      var j := ServedOneShot(w.state, t, |t.pending|, key);
      assert Armed(w, w.state.subscribers[j]);
    }
    forall o | o in e.oneShots ensures NoOlder(o, ArmedAt(w.first, w.log, o.key)) {
      var q, x :| q in t.pending && x in w.state.subscribers && SentOnce(w.state, t, q, x) && o == OneShot(Key(x), q.ts);
      assert Armed(w, x);
    }
  }

  ghost predicate CanRun(w: World, steps: seq<Step>)
    decreases |steps|
  {
    steps != [] ==> Allowed(w, steps[0]) && CanRun(Do(w, steps[0]), steps[1..])
  }

  ghost function Run(w: World, steps: seq<Step>): World
    decreases |steps|
  {
    if steps == [] then w else Run(Do(w, steps[0]), steps[1..])
  }

  ghost predicate LogOk(first: seq<Subscriber>, log: seq<Event>) {
    forall b :: 0 <= b < |log| ==> EventOk(first, log, b)
  }

  lemma {:induction false} RunKeeps(w: World, steps: seq<Step>)
    requires Inv(w) && LogOk(w.first, w.log) && CanRun(w, steps)
    ensures Inv(Run(w, steps)) && Run(w, steps).first == w.first && LogOk(w.first, Run(w, steps).log)
    decreases |steps|
  {
    if steps != [] {
      var w' := Do(w, steps[0]);
      StepKeeps(w, steps[0]);
      forall b | 0 <= b < |w'.log| ensures EventOk(w.first, w'.log, b) {
        if b < |w.log| {
          assert w'.log[..b] == w.log[..b] && EventOk(w.first, w.log, b);
        } else if steps[0].DoTick? {
          TickIsOk(w, steps[0].input);
        }
      }
      RunKeeps(w', steps[1..]);
    }
  }

  /** The last delivery of a request that stayed pending is no earlier than any delivery before. */
  lemma {:induction false} DeliveredSince(first: seq<Subscriber>, log: seq<Event>, a: nat, b: nat, r: string)
    requires LogOk(first, log) && a < b <= |log| && log[a].Ticked? && r in log[a].delivered
    requires forall c :: a < c < b && log[c].Ticked? ==> r in log[c].pending
    ensures LastNow(log[..b], 0) >= log[a].now
    ensures DeliveredAt(log[..b], r).Some? && DeliveredAt(log[..b], r).value >= log[a].now
    decreases b
  {
    assert log[..b][..b - 1] == log[..b - 1];
    if a < b - 1 {
      DeliveredSince(first, log, a, b - 1, r);
      assert EventOk(first, log, b - 1);
    }
  }

  lemma {:induction false} SpentSince(log: seq<Event>, a: nat, b: nat, key: string)
    requires a < b <= |log| && log[a].Ticked? && key in log[a].served
    requires forall c :: a < c < b && log[c].Commanded? ==> log[c].key != key || log[c].armed.None?
    ensures Spent(log[..b], key)
    decreases b
  {
    assert log[..b][..b - 1] == log[..b - 1];
    if a < b - 1 {
      SpentSince(log, a, b - 1, key);
    }
  }

  ghost predicate PendingThroughout(log: seq<Event>, a: nat, b: nat, r: string)
    requires a < b < |log|
  {
    forall c :: a < c < b && log[c].Ticked? ==> r in log[c].pending
  }

  ghost predicate NotArmedBetween(log: seq<Event>, a: nat, b: nat, key: string)
    requires a < b < |log|
  {
    forall c :: a < c < b && log[c].Commanded? ==> log[c].key != key || log[c].armed.None?
  }

  ghost predicate NoEarlyResend(log: seq<Event>, a: nat, b: nat, r: string)
    requires a < b < |log|
  {
    log[a].Ticked? && log[b].Ticked? && r in log[a].delivered && r in log[b].attempted && PendingThroughout(log, a, b, r) ==>
      log[b].now - log[a].now > NOTIFY_MAX_SEEN_AGE_MS
  }

  ghost predicate OneTickPerArming(log: seq<Event>, a: nat, b: nat, key: string)
    requires a < b < |log|
  {
    log[a].Ticked? && log[b].Ticked? && key in log[a].served && key in log[b].served ==> !NotArmedBetween(log, a, b, key)
  }

  ghost predicate NothingOlder(first: seq<Subscriber>, log: seq<Event>, b: nat)
    requires b < |log|
  {
    log[b].Ticked? ==> forall o :: o in log[b].oneShots ==> NoOlder(o, ArmedAt(first, log[..b], o.key))
  }

  ghost function Start(file: Option<Stored>): World {
    World(Normalize(file).subscribers, Normalize(file), [])
  }

  lemma StartsOk(file: Option<Stored>)
    requires DistinctKeys(Normalize(file).subscribers)
    ensures Inv(Start(file))
  {
    NormalizeTrims(file);
    var first := Normalize(file).subscribers;
    forall x | x in first && x.mode == Once ensures Armed(Start(file), x) {
      var i :| 0 <= i < |first| && first[i] == x;
      assert FindKey(first, Key(x)) == i;
    }
  }

  /** Over every run of ticks and commands from a file whose subscribers have distinct keys: keys stay
      distinct; the notified ids were pending at the last tick; a request delivered in one tick and pending
      ever since is not tried again within 24 hours; two ticks that reach a one-shot subscriber have an arming
      of it in between; and what it is sent is no older than its last arming. */
  lemma NotifierRuns(file: Option<Stored>, steps: seq<Step>)
    requires DistinctKeys(Normalize(file).subscribers) && CanRun(Start(file), steps)
    ensures DistinctKeys(Run(Start(file), steps).state.subscribers)
    ensures PendingAtLastTick(Run(Start(file), steps).log, Run(Start(file), steps).state.notified)
    ensures var log := Run(Start(file), steps).log; forall a, b, r :: 0 <= a < b < |log| ==> NoEarlyResend(log, a, b, r)
    ensures var log := Run(Start(file), steps).log; forall a, b, key :: 0 <= a < b < |log| ==> OneTickPerArming(log, a, b, key)
    ensures var log := Run(Start(file), steps).log; forall b :: 0 <= b < |log| ==> NothingOlder(Normalize(file).subscribers, log, b)
  {
    StartsOk(file);
    RunKeeps(Start(file), steps);
    var first, log := Normalize(file).subscribers, Run(Start(file), steps).log;
    forall a, b, r | 0 <= a < b < |log| ensures NoEarlyResend(log, a, b, r) {
      if log[a].Ticked? && log[b].Ticked? && r in log[a].delivered && PendingThroughout(log, a, b, r) {
        DeliveredSince(first, log, a, b, r);
        assert EventOk(first, log, b);
      }
    }
    forall a, b, key | 0 <= a < b < |log| ensures OneTickPerArming(log, a, b, key) {
      if log[a].Ticked? && log[b].Ticked? && key in log[a].served && NotArmedBetween(log, a, b, key) {
        SpentSince(log, a, b, key);
        assert EventOk(first, log, b);
      }
    }
    forall b | 0 <= b < |log| ensures NothingOlder(first, log, b) {
      assert EventOk(first, log, b);
    }
  }

  /** The time stands for a delivery: one the file at the start speaks of, or one of the run. */
  ghost predicate DeliveredThen(start: State, log: seq<Event>, r: string, at: int) {
    (r in start.notified && start.notified[r] == at) || exists b :: DeliveredIn(log, b, r, at)
  }

  ghost predicate DeliveredIn(log: seq<Event>, b: int, r: string, at: int) {
    0 <= b < |log| && log[b].Ticked? && r in log[b].delivered && log[b].now == at
  }

  ghost predicate StampsAreDeliveries(start: State, w: World) {
    forall r :: r in w.state.notified ==> DeliveredThen(start, w.log, r, w.state.notified[r])
  }

  lemma {:induction false} RunRemembers(start: State, w: World, steps: seq<Step>)
    requires Inv(w) && StampsAreDeliveries(start, w) && CanRun(w, steps)
    ensures StampsAreDeliveries(start, Run(w, steps))
    decreases |steps|
  {
    if steps != [] {
      StepKeeps(w, steps[0]);
      StepRemembers(start, w, steps[0]);
      RunRemembers(start, Do(w, steps[0]), steps[1..]);
    }
  }

  lemma StepRemembers(start: State, w: World, step: Step)
    requires Inv(w) && StampsAreDeliveries(start, w) && Allowed(w, step)
    ensures StampsAreDeliveries(start, Do(w, step))
  {
    var w' := Do(w, step);
    forall r | r in w'.state.notified ensures DeliveredThen(start, w'.log, r, w'.state.notified[r]) {
      if step.DoTick? && !Recent(w.state.notified, r, step.input.now) {
        NewlyDelivered(w.state, step.input, r);
        assert DeliveredIn(w'.log, |w.log|, r, step.input.now);
      } else {
        if step.DoTick? {
          NotifiedExactly(w.state, step.input, |step.input.pending|, r);
        }
        StillDelivered(start, w.log, w'.log[|w.log|], r, w.state.notified[r]);
      }
    }
  }

  lemma StillDelivered(start: State, log: seq<Event>, e: Event, r: string, at: int)
    requires DeliveredThen(start, log, r, at)
    ensures DeliveredThen(start, log + [e], r, at)
  {
    if !(r in start.notified && start.notified[r] == at) {
      var b :| DeliveredIn(log, b, r, at);
      assert DeliveredIn(log + [e], b, r, at);
    }
  }

  lemma NewlyDelivered(s: State, t: TickInput, r: string)
    requires DistinctKeys(s.subscribers) && r in Tick(s, t).notified && !Recent(s.notified, r, t.now)
    ensures Tick(s, t).notified[r] == t.now && r in EventOf(s, t).delivered
  {
    if s.subscribers == [] {
      NotifiedExactly(s, t, |t.pending|, r);
    } else {
      TickExactly(s, t, r, s.subscribers[0]);
    }
  }

  /** In every run, a request pending at a tick that some subscriber is to hear of, and whose send gets through, is
      delivered in that tick, unless it was delivered within the last 24 hours, in the run or, as the file says,
      before it. Either way it is remembered. */
  lemma NotifierDelivers(file: Option<Stored>, steps: seq<Step>, t: TickInput, i: nat, j: nat)
    requires DistinctKeys(Normalize(file).subscribers) && CanRun(Start(file), steps)
    requires var w := Run(Start(file), steps);
      && Allowed(w, DoTick(t)) && i < |t.pending| && j < |w.state.subscribers|
      && (w.state.subscribers[j].mode == Persistent || (t.pending[i].ts.Some? && w.state.subscribers[j].addedAtMs <= t.pending[i].ts.value))
      && t.sendOk(i, j)
    ensures var w, r := Run(Start(file), steps), t.pending[i].requestId;
      && r in Tick(w.state, t).notified
      && (r in EventOf(w.state, t).delivered ||
          exists at :: DeliveredThen(Normalize(file), w.log, r, at) && t.now - at <= 24 * 60 * 60 * 1000)
  {
    StartsOk(file);
    RunKeeps(Start(file), steps);
    RunRemembers(Normalize(file), Start(file), steps);
    var w, r := Run(Start(file), steps), t.pending[i].requestId;
    assert t.pending[i] in t.pending;
    assert Reaches(w.state, t, i);
    TickExactly(w.state, t, r, w.state.subscribers[j]);
    if Recent(w.state.notified, r, t.now) {
      assert DeliveredThen(Normalize(file), w.log, r, w.state.notified[r]);
    }
  }

  /** What a step makes of the state it has read, as it is written. */
  ghost function Written(s: State, step: Step): State {
    match step
    case DoTick(t) => Tick(s, t)
    case On(target, now) => Upsert(s, target, Persistent, now)
    case Arm(target, now) => Upsert(s, target, Once, now)
    case Off(target) => Remove(s, target)
  }

  /** A step leaves a file that reads as the state of the run. */
  lemma FileFollows(w: World, step: Step, before: Option<Stored>, after: Option<Stored>)
    requires Inv(w) && Allowed(w, step) && Leaves(before, Written(w.state, step), after)
    ensures Normalize(after) == Do(w, step).state
  {
    StepKeeps(w, step);
    WrittenReadsBack(before, Written(w.state, step), after);
  }

  /** A one-shot subscriber is never sent a request without a time stamp or older than its arming, and one
      that was reached is gone after the tick. */
  lemma OneShotTick(s: State, t: TickInput, i: nat, j: nat)
    requires DistinctKeys(s.subscribers) && Sent(s, t, i, j) && s.subscribers[j].mode == Once
    ensures t.pending[i].ts.Some? && t.pending[i].ts.value >= s.subscribers[j].addedAtMs
    ensures t.sendOk(i, j) ==> forall x :: x in Tick(s, t).subscribers ==> Key(x) != Key(s.subscribers[j])
  {
    UnservedKeeps(s, t, s.subscribers);
    if t.sendOk(i, j) {
      assert GotThrough(s, t, i, j);
      assert Served(s, t, |t.pending|, Key(s.subscribers[j]));
    }
  }

  /** A command may name an account or thread with white space around it. Written to the file and read again,
      the subscribers have distinct keys exactly when the command keeps them apart. */
  lemma RereadKeepsDistinct(s: State, t: Target, mode: Mode, now: int)
    requires Trimmed(s) && DistinctKeys(s.subscribers) && IsRecipient(t)
    ensures DistinctKeys(NormalizeSubscribers(Upsert(s, t, mode, now).subscribers)) <==> KeepsApart(s, t, mode)
  {
    RereadUpsert(s, t, mode, now);
    hide TargetKey, NormalizeTarget, NormalizeSubscribers, Trimmed, DistinctKeys;
    if FindMode(s, t) != Some(mode) {
      DistinctWith(s.subscribers, FindKey(s.subscribers, TargetKey(t)), Subscriber(NormalizeTarget(t), mode, now));
    }
  }

  /** Putting an entry at a place, or behind all others for the place -1. */
  function PutAt(subs: seq<Subscriber>, i: int, x: Subscriber): seq<Subscriber>
    requires -1 <= i < |subs|
  {
    if i == -1 then subs + [x] else subs[i := x]
  }

  lemma DistinctWith(subs: seq<Subscriber>, i: int, x: Subscriber)
    requires DistinctKeys(subs) && -1 <= i < |subs|
    ensures DistinctKeys(PutAt(subs, i, x)) <==> forall j :: 0 <= j < |subs| && j != i ==> Key(subs[j]) != Key(x)
  {
    hide Key;
    var read, n := PutAt(subs, i, x), if i == -1 then |subs| else i;
    assert read[n] == x;
    assert forall j :: 0 <= j < |subs| && j != i ==> read[j] == subs[j];
    if DistinctKeys(read) {
      forall j | 0 <= j < |subs| && j != i ensures Key(subs[j]) != Key(x) {
        assert Key(read[j]) != Key(read[n]);
      }
    }
  }

  lemma MembersWith(subs: seq<Subscriber>, i: int, x: Subscriber)
    requires -1 <= i < |subs| && DistinctKeys(PutAt(subs, i, x))
    ensures forall y :: y in PutAt(subs, i, x) ==> y == x || (y in subs && Key(y) != Key(x))
  {
    hide Key;
    var read, n := PutAt(subs, i, x), if i == -1 then |subs| else i;
    forall y | y in read ensures y == x || (y in subs && Key(y) != Key(x)) {
      var j :| 0 <= j < |read| && read[j] == y;
      if j != n {
        assert read[j] == subs[j] && read[n] == x;
        assert Key(read[j]) != Key(read[n]);
      }
    }
  }

  const PLAIN := Target("7", "x", "")
  const SPACED := Target("7", "x ", "")

  /** So without that care keys do collide. */
  lemma UntrimmedTargetsCollide()
    ensures var s := State([Subscriber(PLAIN, Persistent, 1)], map[]);
      && Trimmed(s) && DistinctKeys(s.subscribers)
      && DistinctKeys(Upsert(s, SPACED, Persistent, 1).subscribers)
      && !DistinctKeys(NormalizeSubscribers(Upsert(s, SPACED, Persistent, 1).subscribers))
  {
    var s := State([Subscriber(PLAIN, Persistent, 1)], map[]);
    assert |TargetKey(PLAIN)| == 4 && |TargetKey(SPACED)| == 5;
    TrimPlain();
    assert FindKey(s.subscribers, TargetKey(SPACED)) == -1;
    RereadKeepsDistinct(s, SPACED, Persistent, 1);
    assert NormalizeTarget(SPACED) == PLAIN && Key(s.subscribers[0]) == TargetKey(PLAIN);
  }

  const BARRED := Target("7| a", "", "")
  const ACCOUNT := Target("7", "a|", "")
  const SPACED_ACCOUNT := Target("7", " a|", "")

  /** And they collide when a command takes an entry for its own and replaces it. */
  lemma ReplacedTargetsCollide()
    ensures var s := State([Subscriber(BARRED, Persistent, 1), Subscriber(ACCOUNT, Persistent, 1)], map[]);
      && Trimmed(s) && DistinctKeys(s.subscribers)
      && FindKey(s.subscribers, TargetKey(SPACED_ACCOUNT)) == 0
      && !DistinctKeys(NormalizeSubscribers(Upsert(s, SPACED_ACCOUNT, Once, 1).subscribers))
  {
    var s := State([Subscriber(BARRED, Persistent, 1), Subscriber(ACCOUNT, Persistent, 1)], map[]);
    assert TargetKey(BARRED) == "7| a||" == TargetKey(SPACED_ACCOUNT) && TargetKey(ACCOUNT) == "7|a||";
    assert "7| a||"[2] != "7|a||"[2];
    TrimTrims("7");
    TrimTrims("a|");
    TrimTrims("");
    assert TrimStart(" a|") == TrimStart("a|") by { assert " a|"[1..] == "a|"; }
    assert NormalizeTarget(SPACED_ACCOUNT) == ACCOUNT;
    assert Key(s.subscribers[1]) == TargetKey(NormalizeTarget(SPACED_ACCOUNT));
    RereadKeepsDistinct(s, SPACED_ACCOUNT, Once, 1);
  }

  lemma TrimPlain()
    ensures Trim("7") == "7" && Trim("x ") == "x"
  {
    TrimTrims("7");
    TrimTrims("x");
    assert TrimStart("x ") == "x ";
    assert "x "[..1] == "x";
    assert TrimEnd("x ") == TrimEnd("x");
  }

  // ----- the code

  /** Each call reads the file, works on the state, and writes it when something changed. */
  class Notifier {
    var file: Option<Stored>

    constructor (file: Option<Stored>)
      ensures this.file == file
    {
      this.file := file;
    }

    method ReadNotifyState() returns (state: State)
      ensures state == Normalize(file)
    {
      if file.None? {
        return State([], map[]);
      }
      var stored := file.value;
      var subscribers: seq<Subscriber> := [];
      for i := 0 to |stored.subscribers|
        invariant subscribers == NormalizeSubscribers(stored.subscribers[..i])
      {
        var item := stored.subscribers[i];
        assert stored.subscribers[..i + 1][..i] == stored.subscribers[..i];
        if Trim(item.target.to) == "" {
          continue;
        }
        subscribers := subscribers + [item.(target := NormalizeTarget(item.target))];
      }
      assert stored.subscribers[..|stored.subscribers|] == stored.subscribers;
      var notified: map<string, int> := map[];
      for i := 0 to |stored.notified|
        invariant notified == NormalizeStamps(stored.notified[..i])
      {
        var entry := stored.notified[i];
        assert stored.notified[..i + 1][..i] == stored.notified[..i];
        var requestId := Trim(entry.requestId);
        if requestId == "" {
          continue;
        }
        if entry.ts <= 0 {
          continue;
        }
        notified := notified[requestId := entry.ts];
      }
      assert stored.notified[..|stored.notified|] == stored.notified;
      state := State(subscribers, notified);
    }

    /** The ids are listed in some order. */
    method WriteNotifyState(state: State)
      modifies this
      ensures Lists(file, state)
    {
      var stamps: seq<Stamp> := [];
      var ids := state.notified.Keys;
      while ids != {}
        invariant ids <= state.notified.Keys
        invariant forall i :: 0 <= i < |stamps| ==> stamps[i].requestId in state.notified && state.notified[stamps[i].requestId] == stamps[i].ts
        invariant forall r :: r in state.notified && r !in ids ==> exists i :: 0 <= i < |stamps| && stamps[i].requestId == r
      {
        var id :| id in ids;
        ghost var before := stamps;
        stamps := stamps + [Stamp(id, state.notified[id])];
        ids := ids - {id};
        forall r | r in state.notified && r !in ids ensures exists i :: 0 <= i < |stamps| && stamps[i].requestId == r {
          if r == id {
            assert stamps[|before|].requestId == r;
          } else {
            var i :| 0 <= i < |before| && before[i].requestId == r;
            assert stamps[i].requestId == r;
          }
        }
      }
      file := Some(Stored(state.subscribers, stamps));
    }

    method PruneNotified(state: State, t: TickInput) returns (notified: map<string, int>, changed: bool)
      ensures notified == Pruned(state, t)
      ensures !changed ==> notified == state.notified
    {
      notified, changed := state.notified, false;
      var ids := state.notified.Keys;
      while ids != {}
        invariant ids <= state.notified.Keys
        invariant notified == map r | r in state.notified && (r in ids || r in Pruned(state, t)) :: state.notified[r]
        invariant !changed ==> notified == state.notified
      {
        var id :| id in ids;
        if id !in PendingIds(t.pending) || t.now - state.notified[id] > NOTIFY_MAX_SEEN_AGE_MS {
          notified := notified - {id};
          changed := true;
        }
        ids := ids - {id};
      }
    }

    /** One request goes to every subscriber it concerns. */
    method SendToAll(state: State, t: TickInput, i: nat, served0: set<string>) returns (delivered: bool, served: set<string>)
      requires i < |t.pending| && t.pending[i].requestId !in NotifiedAfter(state, t, i)
      requires forall key :: key in served0 <==> Served(state, t, i, key)
      ensures delivered <==> Delivered(state.subscribers, t, i)
      ensures forall key :: key in served <==> Served(state, t, i + 1, key)
    {
      hide NotifiedAfter;
      delivered, served := false, served0;
      for j := 0 to |state.subscribers|
        invariant delivered <==> exists k: nat :: k < j && ShouldNotify(state.subscribers[k], t.pending[i]) && t.sendOk(i, k)
        invariant forall key :: key in served <==> key in served0 || ServedBy(state, t, i, j, key)
      {
        var subscriber := state.subscribers[j];
        if !ShouldNotify(subscriber, t.pending[i]) {
          continue;
        }
        var sent := t.sendOk(i, j);
        delivered := delivered || sent;
        if sent && subscriber.mode == Once {
          assert GotThrough(state, t, i, j);
          served := served + {Key(subscriber)};
        }
      }
      forall key ensures Served(state, t, i + 1, key) <==> Served(state, t, i, key) || ServedBy(state, t, i, |state.subscribers|, key) {
      }
    }

    method NotifyPendingPairingRequests(t: TickInput)
      modifies this
      ensures Leaves(old(file), Tick(Normalize(old(file)), t), file)
    {
      var state := ReadNotifyState();
      var next, changed := TickState(state, t);
      if changed {
        WriteNotifyState(next);
      }
    }

    /** The state after a tick, and whether it differs from the one before. */
    method TickState(state: State, t: TickInput) returns (next: State, changed: bool)
      ensures next == Tick(state, t) && (!changed ==> next == state)
    {
      hide Pruned, NotifiedAfter, Served, Unserved;
      var notified;
      notified, changed := PruneNotified(state, t);
      if |state.subscribers| == 0 {
        NoSubscribers(state, t, |t.pending|);
        return State([], notified), changed;
      }
      var served: set<string> := {};
      TickStarts(state, t);
      for i := 0 to |t.pending|
        invariant notified == NotifiedAfter(state, t, i)
        invariant forall key :: key in served <==> Served(state, t, i, key)
        invariant !changed ==> notified == state.notified
      {
        if t.pending[i].requestId in notified {
          StillServed(state, t, i);
          continue;
        }
        var delivered;
        delivered, served := SendToAll(state, t, i, served);
        NotifyOne(state, t, i);
        if delivered {
          notified := notified[t.pending[i].requestId := t.now];
          changed := true;
        }
      }
      var subscribers := DropServed(state, t, served);
      return State(subscribers, notified), changed || |subscribers| != |state.subscribers|;
    }

    method DropServed(state: State, t: TickInput, served: set<string>) returns (subscribers: seq<Subscriber>)
      requires forall key :: key in served <==> Served(state, t, |t.pending|, key)
      ensures subscribers == Unserved(state, t, state.subscribers)
      ensures |subscribers| == |state.subscribers| ==> subscribers == state.subscribers
    {
      hide Served;
      subscribers := [];
      for j := 0 to |state.subscribers|
        invariant subscribers == Unserved(state, t, state.subscribers[..j])
      {
        assert state.subscribers[..j + 1][..j] == state.subscribers[..j];
        if Key(state.subscribers[j]) !in served {
          subscribers := subscribers + [state.subscribers[j]];
        }
      }
      assert state.subscribers[..|state.subscribers|] == state.subscribers;
      UnservedLength(state, t, state.subscribers);
    }

    /** Returns whether anything changed; an entry that has the mode already keeps its time. */
    method UpsertNotifySubscriber(target: Target, mode: Mode, now: int) returns (changed: bool)
      modifies this
      ensures changed <==> FindMode(Normalize(old(file)), target) != Some(mode)
      ensures changed ==> Lists(file, Upsert(Normalize(old(file)), target, mode, now))
      ensures !changed ==> file == old(file) && Upsert(Normalize(old(file)), target, mode, now) == Normalize(old(file))
    {
      var state := ReadNotifyState();
      var subscribers := state.subscribers;
      var index := FindKey(subscribers, TargetKey(target));
      if index == -1 {
        WriteNotifyState(State(subscribers + [Subscriber(target, mode, now)], state.notified));
        return true;
      }
      if subscribers[index].mode == mode {
        return false;
      }
      WriteNotifyState(State(subscribers[index := Subscriber(target, mode, now)], state.notified));
      return true;
    }

    method RemoveNotifySubscriber(target: Target)
      modifies this
      ensures if FindMode(Normalize(old(file)), target).None? then file == old(file) else Lists(file, Remove(Normalize(old(file)), target))
    {
      var state := ReadNotifyState();
      var index := FindKey(state.subscribers, TargetKey(target));
      if index != -1 {
        WriteNotifyState(State(state.subscribers[..index] + state.subscribers[index + 1..], state.notified));
      }
    }
  }

  ghost predicate ServedBy(s: State, t: TickInput, i: nat, n: nat, key: string)
    requires n <= |s.subscribers|
  {
    exists j: nat :: j < n && GotThrough(s, t, i, j) && s.subscribers[j].mode == Once && Key(s.subscribers[j]) == key
  }

  lemma TickStarts(s: State, t: TickInput)
    ensures NotifiedAfter(s, t, 0) == Pruned(s, t)
    ensures forall key :: !Served(s, t, 0, key)
  {
  }

  lemma NotifyOne(s: State, t: TickInput, i: nat)
    requires i < |t.pending| && t.pending[i].requestId !in NotifiedAfter(s, t, i)
    ensures NotifiedAfter(s, t, i + 1) ==
      if Delivered(s.subscribers, t, i) then NotifiedAfter(s, t, i)[t.pending[i].requestId := t.now] else NotifiedAfter(s, t, i)
  {
  }

  /** A request already notified serves no one. */
  lemma StillServed(s: State, t: TickInput, i: nat)
    requires i < |t.pending| && t.pending[i].requestId in NotifiedAfter(s, t, i)
    ensures NotifiedAfter(s, t, i + 1) == NotifiedAfter(s, t, i)
    ensures forall key :: Served(s, t, i + 1, key) <==> Served(s, t, i, key)
  {
  }

  lemma {:induction false} NoSubscribers(s: State, t: TickInput, n: nat)
    requires s.subscribers == [] && n <= |t.pending|
    ensures NotifiedAfter(s, t, n) == Pruned(s, t) && Unserved(s, t, []) == []
    decreases n
  {
    if n > 0 {
      NoSubscribers(s, t, n - 1);
    }
  }

  lemma {:induction false} UnservedLength(s: State, t: TickInput, subs: seq<Subscriber>)
    ensures |Unserved(s, t, subs)| <= |subs|
    ensures |Unserved(s, t, subs)| == |subs| ==> Unserved(s, t, subs) == subs
    decreases |subs|
  {
    if subs != [] {
      UnservedLength(s, t, subs[..|subs| - 1]);
    }
  }
}
