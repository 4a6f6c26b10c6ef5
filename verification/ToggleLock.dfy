/** Concurrent session toggles on one state file: a chain of promises guards each read-modify-write. */
module ToggleLock {
  import opened Basics
  import opened JsText

  // ----- the file

  datatype SessionEntry = SessionEntry(disabled: bool, updatedAt: int)

  /** The `sessions` record of the state file. */
  type Sessions = map<string, SessionEntry>

  /** What a reader makes of the file: entries that are disabled, under a key that is not blank. */
  function ReadToggleStore(file: Sessions): Sessions {
    map key | key in file && !IsBlank(key) && file[key].disabled :: file[key]
  }

  datatype Toggle = Toggle(sessionKey: string, disabled: bool)

  /** The record one toggle writes, from the one it has read. */
  function Apply(read: Sessions, t: Toggle, now: int): Sessions {
    if t.disabled then read[t.sessionKey := SessionEntry(true, now)] else read - {t.sessionKey}
  }

  // ----- the calls

  /** How far a call has come. A read that fails yields an empty record; a write that fails leaves the
      file as it was; both end in the release of the lock. */
  datatype Progress =
    | Waiting
    | Entered
    | Computed(next: Sessions, readOk: bool, now: int)
    | Written(committed: bool, readOk: bool, now: int)
    | Released(committed: bool, readOk: bool, now: int)

  /** A call awaits the promise of the call named by `previous`, if any. */
  datatype Call = Call(toggle: Toggle, previous: Option<nat>, progress: Progress)

  /** `lock` names the call whose promise the lock variable holds. */
  datatype State = State(file: Sessions, calls: seq<Call>, lock: Option<nat>)

  datatype Step =
    | Arrive(toggle: Toggle)
    | Enter(id: nat)
    | ReadDone(id: nat, ok: bool, now: int)
    | Rename(id: nat)
    | WriteFails(id: nat)
    | Release(id: nat)

  predicate Resolved(s: State, promise: Option<nat>) {
    promise.None? || (promise.value < |s.calls| && s.calls[promise.value].progress.Released?)
  }

  predicate Enabled(s: State, step: Step) {
    match step
    case Arrive(_) => true
    case Enter(id) => id < |s.calls| && s.calls[id].progress.Waiting? && Resolved(s, s.calls[id].previous)
    case ReadDone(id, _, _) => id < |s.calls| && s.calls[id].progress.Entered?
    case Rename(id) => id < |s.calls| && s.calls[id].progress.Computed?
    case WriteFails(id) => id < |s.calls| && s.calls[id].progress.Computed?
    case Release(id) => id < |s.calls| && s.calls[id].progress.Written?
  }

  function Move(s: State, id: nat, p: Progress): State
    requires id < |s.calls|
  {
    s.(calls := s.calls[id := s.calls[id].(progress := p)])
  }

  function Do(s: State, step: Step): State
    requires Enabled(s, step)
  {
    match step
    case Arrive(t) =>
      s.(calls := s.calls + [Call(t, s.lock, Waiting)], lock := Some(|s.calls|))
    case Enter(id) => Move(s, id, Entered)
    case ReadDone(id, ok, now) =>
      var read := if ok then ReadToggleStore(s.file) else map[];
      Move(s, id, Computed(Apply(read, s.calls[id].toggle, now), ok, now))
    case Rename(id) =>
      var p := s.calls[id].progress;
      Move(s, id, Written(true, p.readOk, p.now)).(file := p.next)
    case WriteFails(id) =>
      var p := s.calls[id].progress;
      Move(s, id, Written(false, p.readOk, p.now))
    case Release(id) =>
      var p := s.calls[id].progress;
      Move(s, id, Released(p.committed, p.readOk, p.now))
  }

  ghost predicate CanRun(s: State, steps: seq<Step>)
    decreases |steps|
  {
    steps != [] ==> Enabled(s, steps[0]) && CanRun(Do(s, steps[0]), steps[1..])
  }

  ghost function Run(s: State, steps: seq<Step>): State
    requires CanRun(s, steps)
    decreases |steps|
  {
    if steps == [] then s else Run(Do(s, steps[0]), steps[1..])
  }

  // ----- the sequential meaning

  predicate Committed(p: Progress) {
    (p.Written? || p.Released?) && p.committed
  }

  /** The file after the calls, taken one at a time in order of arrival, as far as their writes came through. */
  function Sequential(file: Sessions, calls: seq<Call>): Sessions {
    if calls == [] then file
    else
      var before, last := Sequential(file, calls[..|calls| - 1]), calls[|calls| - 1];
      if Committed(last.progress)
      then Apply(if last.progress.readOk then ReadToggleStore(before) else map[], last.toggle, last.progress.now)
      else before
  }

  predicate InCriticalSection(p: Progress) {
    p.Entered? || p.Computed? || p.Written?
  }

  /** Call i has begun only if every earlier call has released the lock. */
  ghost predicate Ordered(s: State) {
    forall i, j :: 0 <= j < i < |s.calls| && !s.calls[i].progress.Waiting? ==> s.calls[j].progress.Released?
  }

  ghost predicate Chained(s: State) {
    && (forall i :: 0 <= i < |s.calls| ==> s.calls[i].previous == if i == 0 then None else Some(i - 1))
    && s.lock == if s.calls == [] then None else Some(|s.calls| - 1)
  }

  /** What a call is about to write was computed from the file as it still is. */
  ghost predicate Fresh(s: State) {
    forall i :: 0 <= i < |s.calls| && s.calls[i].progress.Computed? ==>
      var p := s.calls[i].progress;
      p.next == Apply(if p.readOk then ReadToggleStore(s.file) else map[], s.calls[i].toggle, p.now)
  }

  ghost predicate Inv(file0: Sessions, s: State) {
    Ordered(s) && Chained(s) && Fresh(s) && s.file == Sequential(file0, s.calls)
  }

  /** Calls that have not committed change nothing. */
  lemma {:induction false} SequentialIgnores(file: Sessions, calls: seq<Call>, n: nat)
    requires n <= |calls| && forall i :: n <= i < |calls| ==> !Committed(calls[i].progress)
    ensures Sequential(file, calls) == Sequential(file, calls[..n])
    decreases |calls|
  {
    if n < |calls| {
      SequentialIgnores(file, calls[..|calls| - 1], n);
      assert calls[..|calls| - 1][..n] == calls[..n];
    } else {
      assert calls[..n] == calls;
    }
  }

  /** A call in its critical section is followed by waiting calls only. */
  lemma LaterWait(s: State, id: nat)
    requires Ordered(s) && id < |s.calls| && !s.calls[id].progress.Released?
    ensures forall i :: id < i < |s.calls| ==> s.calls[i].progress.Waiting?
  {
  }

  lemma MoveSequential(file0: Sessions, s: State, id: nat, p: Progress)
    requires Ordered(s) && id < |s.calls| && !s.calls[id].progress.Released?
    ensures Sequential(file0, Move(s, id, p).calls) == Sequential(file0, s.calls[..id] + [s.calls[id].(progress := p)])
    ensures Sequential(file0, s.calls) == Sequential(file0, s.calls[..id + 1])
  {
    LaterWait(s, id);
    SequentialIgnores(file0, Move(s, id, p).calls, id + 1);
    SequentialIgnores(file0, s.calls, id + 1);
    assert Move(s, id, p).calls[..id + 1] == s.calls[..id] + [s.calls[id].(progress := p)];
  }

  /** A step of a call that neither commits nor uncommits leaves the sequential meaning alone. */
  lemma QuietMove(file0: Sessions, s: State, id: nat, p: Progress)
    requires Ordered(s) && id < |s.calls| && !s.calls[id].progress.Released?
    requires Committed(p) == Committed(s.calls[id].progress)
    requires Committed(p) ==> p.readOk == s.calls[id].progress.readOk && p.now == s.calls[id].progress.now
    ensures Sequential(file0, Move(s, id, p).calls) == Sequential(file0, s.calls)
  {
    MoveSequential(file0, s, id, p);
    var moved := s.calls[..id] + [s.calls[id].(progress := p)];
    assert moved[..id] == s.calls[..id] && s.calls[..id + 1][..id] == s.calls[..id];
  }

  lemma RenameCommits(file0: Sessions, s: State, id: nat)
    requires Inv(file0, s) && id < |s.calls| && s.calls[id].progress.Computed?
    ensures var p := s.calls[id].progress;
      p.next == Sequential(file0, Move(s, id, Written(true, p.readOk, p.now)).calls)
  {
    var p := s.calls[id].progress;
    var w := Written(true, p.readOk, p.now);
    MoveSequential(file0, s, id, w);
    var moved := s.calls[..id] + [s.calls[id].(progress := w)];
    assert moved[..id] == s.calls[..id] && s.calls[..id + 1][..id] == s.calls[..id];
  }

  /** Every step keeps the invariant. */
  lemma StepKeeps(file0: Sessions, s: State, step: Step)
    requires Inv(file0, s) && Enabled(s, step)
    ensures Inv(file0, Do(s, step))
  {
    StepKeepsOrder(s, step);
    StepKeepsFresh(file0, s, step);
    StepKeepsMeaning(file0, s, step);
  }

  lemma StepKeepsOrder(s: State, step: Step)
    requires Ordered(s) && Chained(s) && Enabled(s, step)
    ensures Ordered(Do(s, step)) && Chained(Do(s, step))
  {
  }

  lemma StepKeepsFresh(file0: Sessions, s: State, step: Step)
    requires Inv(file0, s) && Enabled(s, step)
    ensures Fresh(Do(s, step))
  {
    hide Apply, ReadToggleStore, Sequential, Chained;
    if step.Rename? {
      LaterWait(s, step.id);
    }
  }

  lemma StepKeepsMeaning(file0: Sessions, s: State, step: Step)
    requires Inv(file0, s) && Enabled(s, step)
    ensures Do(s, step).file == Sequential(file0, Do(s, step).calls)
  {
    hide Apply, ReadToggleStore, Fresh;
    var t := Do(s, step);
    match step
    case Arrive(toggle) =>
      assert t.calls[..|s.calls|] == s.calls;
    case Enter(id) =>
      QuietMove(file0, s, id, Entered);
    case ReadDone(id, ok, now) =>
      QuietMove(file0, s, id, t.calls[id].progress);
    case Rename(id) =>
      RenameCommits(file0, s, id);
    case WriteFails(id) =>
      QuietMove(file0, s, id, t.calls[id].progress);
    case Release(id) =>
      QuietMove(file0, s, id, t.calls[id].progress);
  }

  lemma {:induction false} RunKeeps(file0: Sessions, s: State, steps: seq<Step>)
    requires Inv(file0, s) && CanRun(s, steps)
    ensures Inv(file0, Run(s, steps))
    decreases |steps|
  {
    if steps != [] {
      StepKeeps(file0, s, steps[0]);
      RunKeeps(file0, Do(s, steps[0]), steps[1..]);
    }
  }

  ghost function Start(file: Sessions): State {
    State(file, [], None)
  }

  /** In every run: at most one call is in its critical section, calls begin in order of arrival, and the
      file is what the committed calls, one after the other, make of the first file. */
  lemma TogglesAreSequential(file0: Sessions, steps: seq<Step>)
    requires CanRun(Start(file0), steps)
    ensures var s := Run(Start(file0), steps);
      && (forall i, j :: 0 <= i < j < |s.calls| ==>
            !(InCriticalSection(s.calls[i].progress) && InCriticalSection(s.calls[j].progress)))
      && (forall i, j :: 0 <= i < j < |s.calls| && !s.calls[j].progress.Waiting? ==> s.calls[i].progress.Released?)
      && s.file == Sequential(file0, s.calls)
  {
    RunKeeps(file0, Start(file0), steps);
  }

  /** The lock is never stuck: as long as a call has not finished, some call can take a step, whatever failed before. */
  lemma NeverStuck(file0: Sessions, s: State, id: nat) returns (step: Step)
    requires Inv(file0, s) && id < |s.calls| && !s.calls[id].progress.Released?
    ensures !step.Arrive? && Enabled(s, step)
    decreases id
  {
    match s.calls[id].progress
    case Waiting =>
      if id == 0 || s.calls[id - 1].progress.Released? {
        step := Enter(id);
      } else {
        step := NeverStuck(file0, s, id - 1);
      }
    case Entered => step := ReadDone(id, true, 0);
    case Computed(_, _, _) => step := Rename(id);
    case Written(_, _, _) => step := Release(id);
  }

  // ----- readers that take no lock

  /** How many calls are through with the file. */
  ghost predicate Through(s: State, n: nat) {
    && n <= |s.calls|
    && (forall i :: 0 <= i < n ==> s.calls[i].progress.Written? || s.calls[i].progress.Released?)
    && (forall i :: n <= i < |s.calls| ==> !Committed(s.calls[i].progress))
  }

  lemma {:induction false} ThroughExists(s: State, m: nat) returns (n: nat)
    requires Ordered(s) && m <= |s.calls| && forall i :: m <= i < |s.calls| ==> !Committed(s.calls[i].progress)
    ensures Through(s, n)
    decreases m
  {
    if m == 0 {
      n := 0;
    } else if s.calls[m - 1].progress.Written? || s.calls[m - 1].progress.Released? {
      n := m;
    } else {
      n := ThroughExists(s, m - 1);
    }
  }

  /** The two calls have the same part in the sequential meaning. */
  predicate SameEffect(a: Call, b: Call) {
    && a.toggle == b.toggle && Committed(a.progress) == Committed(b.progress)
    && (Committed(a.progress) ==> a.progress.readOk == b.progress.readOk && a.progress.now == b.progress.now)
  }

  lemma {:induction false} SameSequential(file: Sessions, a: seq<Call>, b: seq<Call>)
    requires |a| == |b| && forall i :: 0 <= i < |a| ==> SameEffect(a[i], b[i])
    ensures Sequential(file, a) == Sequential(file, b)
    decreases |a|
  {
    if a != [] {
      SameSequential(file, a[..|a| - 1], b[..|b| - 1]);
    }
  }

  lemma {:induction false} EffectsLast(s: State, steps: seq<Step>, n: nat)
    requires CanRun(s, steps) && n <= |s.calls|
    requires forall i :: 0 <= i < n ==> s.calls[i].progress.Written? || s.calls[i].progress.Released?
    ensures n <= |Run(s, steps).calls|
    ensures forall i :: 0 <= i < n ==> SameEffect(s.calls[i], Run(s, steps).calls[i])
    decreases |steps|
  {
    if steps != [] {
      var t := Do(s, steps[0]);
      assert forall i :: 0 <= i < n ==> SameEffect(s.calls[i], t.calls[i]);
      EffectsLast(t, steps[1..], n);
    }
  }

  /** A reader without the lock finds the file as some of the calls, in order of arrival, have left it. */
  lemma ReaderSeesPrefix(file0: Sessions, s: State, later: seq<Step>) returns (n: nat)
    requires Inv(file0, s) && CanRun(s, later)
    ensures n <= |Run(s, later).calls| && s.file == Sequential(file0, Run(s, later).calls[..n])
  {
    n := ThroughExists(s, |s.calls|);
    SequentialIgnores(file0, s.calls, n);
    EffectsLast(s, later, n);
    SameSequential(file0, s.calls[..n], Run(s, later).calls[..n]);
  }

  // ----- no update is lost

  predicate IsSessionDisabled(file: Sessions, sessionKey: string) {
    sessionKey in ReadToggleStore(file)
  }

  /** The last committed toggle of a session, if any. */
  function LastToggle(calls: seq<Call>, sessionKey: string): Option<bool> {
    if calls == [] then None
    else
      var last := calls[|calls| - 1];
      if Committed(last.progress) && last.toggle.sessionKey == sessionKey then Some(last.toggle.disabled)
      else LastToggle(calls[..|calls| - 1], sessionKey)
  }

  /** When no read failed, a session is disabled as its last committed toggle says, and otherwise as it was
      at first, whatever other sessions were toggled in between. */
  lemma {:induction false} LastToggleWins(file0: Sessions, calls: seq<Call>, sessionKey: string)
    requires !IsBlank(sessionKey)
    requires forall i :: 0 <= i < |calls| && Committed(calls[i].progress) ==> calls[i].progress.readOk
    ensures IsSessionDisabled(Sequential(file0, calls), sessionKey) ==
      match LastToggle(calls, sessionKey) case Some(d) => d case None => IsSessionDisabled(file0, sessionKey)
    decreases |calls|
  {
    if calls != [] {
      LastToggleWins(file0, calls[..|calls| - 1], sessionKey);
    }
  }

  /** What one committed call does to the file: its own session is there exactly when it was disabled, with the time
      of the call; of the others those that were disabled stay as they were, or none if the read failed. */
  lemma CommittedCall(file: Sessions, calls: seq<Call>, key: string)
    requires calls != [] && Committed(calls[|calls| - 1].progress)
    ensures var before, after, c := Sequential(file, calls[..|calls| - 1]), Sequential(file, calls), calls[|calls| - 1];
      if key == c.toggle.sessionKey then
        (key in after <==> c.toggle.disabled) && (key in after ==> after[key] == SessionEntry(true, c.progress.now))
      else
        && (key in after <==> c.progress.readOk && key in before && before[key].disabled && !IsBlank(key))
        && (key in after ==> after[key] == before[key])
  {
  }

  /** A call that did not commit does nothing to it. */
  lemma UncommittedCall(file: Sessions, calls: seq<Call>)
    requires calls != [] && !Committed(calls[|calls| - 1].progress)
    ensures Sequential(file, calls) == Sequential(file, calls[..|calls| - 1])
  {
  }
}
