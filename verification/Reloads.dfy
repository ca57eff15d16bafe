/** The asynchronous reload protocol as a transition system: watcher events, the drain with its await
    points, worker threads, reloadAsync() calls, load(), reload() and close(), in any interleaving.
    Each action is one stretch of code that runs without interruption. */
module Reloads {
  import opened Values

  // ----- the fields of one Reader -----

  /** N refers to a native reader, M describes a database. */
  datatype Fields<N, M> = Fields(
    native: N,
    get: N,        // the native reader the bound get() calls
    metadata: M,
    watching: bool,
    active: bool,  // a drain is scheduled or running
    pending: bool, // a change was seen that no attempt has started on
    lastError: Option<Fault>)

  function Queued<N, M>(f: Fields<N, M>): Fields<N, M> {
    f.(pending := true, active := true)
  }

  /** The drain takes a pending change. */
  function Taken<N, M>(f: Fields<N, M>): Fields<N, M> {
    f.(pending := false)
  }

  /** The drain's finally block: a change pending even now is queued again. */
  function Ended<N, M>(f: Fields<N, M>): Fields<N, M> {
    var idle := f.(active := false);
    if idle.pending then Queued(idle) else idle
  }

  function Swapped<N, M>(f: Fields<N, M>, native: N, metadata: M): Fields<N, M> {
    f.(native := native, get := native, metadata := metadata, lastError := None)
  }

  function Shut<N, M>(f: Fields<N, M>): Fields<N, M> {
    f.(watching := false, pending := false)
  }

  // ----- the whole system -----

  /** The database a native reader holds, or held last. */
  datatype Db = Db(open: bool, version: nat)

  /** Where a drain stands. */
  datatype Drain =
    | Scheduled                    // chained on the promise, not started
    | Waiting                      // an attempt waits for the file to exist
    | Opening                      // a worker is to open the file
    | Opened(result: Option<nat>)  // the worker is done: a new native reader, or a failure
    | InHook                       // the hook is running
    | Returned                     // the attempt is over, the drain loop goes on

  /** A reloadAsync() call in flight. */
  datatype Fetch = Reading | Fetched(result: Option<nat>)

  /** What has happened so far; the protocol never reads it. */
  datatype History = History(
    events: nat,
    attempts: nat,
    seen: nat,      // events when the latest attempt started
    installs: nat,  // by watched reloads
    hookCalls: nat)

  datatype System = System(
    reader: Fields<nat, nat>,  // native readers by number, databases by file version
    natives: map<nat, Db>,
    drains: seq<Drain>,        // the promise chain: only the head runs
    fetches: map<nat, Fetch>,
    unused: nat,               // the next unused number
    hook: bool,                // whether a hook is configured
    file: nat,                 // the version of the file on disk
    past: History)

  function Start(hook: bool, version: nat): System {
    System(Fields(0, 0, version, true, false, false, None), map[0 := Db(true, version)], [], map[], 1, hook, version,
           History(0, 0, 0, 0, 0))
  }

  datatype Action =
    // the world and the user
    | FileWrite
    | Event
    | Close
    | Load(version: Option<nat>)  // load(buffer); None fails
    | Reload(ok: bool)            // reload() from the file
    | FetchStart
    | FetchRead(id: nat, ok: bool)
    | FetchResumed(id: nat)
    // the drain
    | DrainTurn
    | WaitResumed(present: bool)
    | WaitRejected
    | WorkerRead(ok: bool)
    | OpenResumed
    | HookDone(threw: bool)

  predicate IsDrainAction(a: Action) {
    a.DrainTurn? || a.WaitResumed? || a.WaitRejected? || a.WorkerRead? || a.OpenResumed? || a.HookDone?
  }

  predicate Enabled(s: System, a: Action) {
    match a
    case FetchRead(id, _) => id in s.fetches && s.fetches[id].Reading?
    case FetchResumed(id) => id in s.fetches && s.fetches[id].Fetched?
    case DrainTurn => s.drains != [] && (s.drains[0].Scheduled? || s.drains[0].Returned?)
    case WaitResumed(_) => s.drains != [] && s.drains[0].Waiting?
    case WaitRejected => s.drains != [] && s.drains[0].Waiting?
    case WorkerRead(_) => s.drains != [] && s.drains[0].Opening?
    case OpenResumed => s.drains != [] && s.drains[0].Opened?
    case HookDone(_) => s.drains != [] && s.drains[0].InHook?
    case _ => true
  }

  predicate IsOpen(s: System, n: nat) {
    n in s.natives && s.natives[n].open
  }

  function CloseNative(s: System, n: nat): System {
    if n in s.natives then s.(natives := s.natives[n := s.natives[n].(open := false)]) else s
  }

  /** A worker finished: a new open native reader holding the file as it is now, or a failure. */
  function WorkerResult(s: System, ok: bool): (System, Option<nat>) {
    if ok then (s.(natives := s.natives[s.unused := Db(true, s.file)], unused := s.unused + 1), Some(s.unused))
    else (s, None)
  }

  /** _replaceNativeReader: install the replacement, then close the previous reader. */
  function Replace(s: System, n: nat): System {
    var installed := s.(reader := Swapped(s.reader, n, if n in s.natives then s.natives[n].version else 0));
    CloseNative(installed, s.reader.native)
  }

  function Head(s: System, d: Drain): System
    requires s.drains != []
  {
    s.(drains := [d] + s.drains[1..])
  }

  function Failed(s: System, fault: Fault): System {
    s.(reader := s.reader.(lastError := Some(fault)))
  }

  /** load and reload put a database into the current native reader, open or not. */
  function Loaded(s: System, version: nat): System {
    s.(natives := s.natives[s.reader.native := Db(true, version)],
    reader := s.reader.(metadata := version, lastError := None))
  }

  predicate Wanted(s: System) {
    IsOpen(s, s.reader.native) && s.reader.watching
  }

  function Step(s: System, a: Action): System
    requires Enabled(s, a)
  {
    match a
    case FileWrite => s.(file := s.file + 1)
    case Event =>
      s.(reader := Queued(s.reader),
      drains := if s.reader.active then s.drains else s.drains + [Scheduled],
      past := s.past.(events := s.past.events + 1))
    case Close => CloseNative(s.(reader := Shut(s.reader)), s.reader.native)
    case Load(version) => if version.None? then Failed(s, BadData) else Loaded(s, version.value)
    case Reload(ok) => if ok then Loaded(s, s.file) else Failed(s, OpenFailed)
    case FetchStart => s.(fetches := s.fetches[s.unused := Reading], unused := s.unused + 1)
    case FetchRead(id, ok) =>
      var (s1, result) := WorkerResult(s, ok);
      s1.(fetches := s1.fetches[id := Fetched(result)])
    case FetchResumed(id) =>
      var s1 := s.(fetches := s.fetches - {id});
      (match s.fetches[id].result
       case None => Failed(s1, OpenFailed)
       case Some(n) =>
         if IsOpen(s, s.reader.native) then Replace(s1, n) else Failed(CloseNative(s1, n), ReaderClosed))
    case DrainTurn =>
      if s.reader.pending then
        Head(s, Waiting).(reader := Taken(s.reader),
        past := s.past.(attempts := s.past.attempts + 1, seen := s.past.events))
      else
        DrainEnd(s)
    case WaitRejected => DrainEnd(s)
    case WaitResumed(present) =>
      if present && Wanted(s) then Head(s, Opening) else Head(s, Returned)
    case WorkerRead(ok) =>
      var (s1, result) := WorkerResult(s, ok);
      Head(s1, Opened(result))
    case OpenResumed =>
      (match s.drains[0].result
       case None => Failed(Head(s, Returned), OpenFailed)
       case Some(n) =>
         if !Wanted(s) then Head(CloseNative(s, n), Returned)
         else
           var s1 := Replace(s, n);
           var past := s.past.(installs := s.past.installs + 1);
           if s.hook && Wanted(s1) then Head(s1, InHook).(past := past.(hookCalls := past.hookCalls + 1))
           else Head(s1, Returned).(past := past))
    case HookDone(threw) =>
      if threw then Failed(Head(s, Returned), HookFailed) else Head(s, Returned)
  }

  /** The drain's finally block, then the promise settles and the chain moves on. */
  function DrainEnd(s: System): System
    requires s.drains != []
  {
    s.(reader := Ended(s.reader),
    drains := s.drains[1..] + if s.reader.pending then [Scheduled] else [])
  }

  predicate Possible(s: System, run: seq<Action>)
    decreases |run|
  {
    run == [] || (Enabled(s, run[0]) && Possible(Step(s, run[0]), run[1..]))
  }

  function After(s: System, run: seq<Action>): System
    requires Possible(s, run)
    decreases |run|
  {
    if run == [] then s else After(Step(s, run[0]), run[1..])
  }

  // ----- flags: no change is lost -----

  /** One drain exactly when active; a pending change always has a drain; attempts never outnumber
      events; while watching, every event so far is pending or was seen by the latest attempt. */
  ghost predicate FlagsAgree(s: System) {
    && |s.drains| <= 1
    && (s.reader.active <==> |s.drains| == 1)
    && (s.reader.pending ==> s.reader.active)
    && s.past.attempts + (if s.reader.pending then 1 else 0) <= s.past.events
    && (s.reader.watching ==> s.reader.pending || s.past.seen == s.past.events)
  }

  /** load, reload and reloadAsync leave the drain, its flags and the history alone. */
  ghost predicate DrainUntouched(s: System, s': System) {
    && s'.drains == s.drains && s'.past == s.past && s'.hook == s.hook
    && s'.reader.active == s.reader.active
    && s'.reader.pending == s.reader.pending
    && s'.reader.watching == s.reader.watching
  }

  lemma FetchResumedLeavesDrain(s: System, id: nat)
    requires Enabled(s, FetchResumed(id))
    ensures DrainUntouched(s, Step(s, FetchResumed(id)))
  {
  }

  /** The actions of the user and the world leave the drain where it is, except that an event on an
      idle reader schedules one. */
  lemma OuterActions(s: System, a: Action)
    requires Enabled(s, a) && !IsDrainAction(a)
    ensures !a.Event? && !a.Close? ==> DrainUntouched(s, Step(s, a))
    ensures a.Close? ==>
              var s' := Step(s, a);
              DrainUntouched(s.(reader := Shut(s.reader)), s')
  {
    if a.FetchResumed? {
      FetchResumedLeavesDrain(s, a.id);
    }
  }

  ghost predicate OnlyHeadMoves(s: System, s': System) {
    && |s'.drains| == |s.drains| && s.drains != [] && s'.drains[1..] == s.drains[1..]
    && s'.reader.active == s.reader.active
    && s'.reader.pending == s.reader.pending
    && s'.reader.watching == s.reader.watching
    && s'.fetches == s.fetches && s'.file == s.file && s'.hook == s.hook
    && s'.past.(installs := s.past.installs, hookCalls := s.past.hookCalls) == s.past
  }

  lemma OpenResumedMovesHead(s: System)
    requires Enabled(s, OpenResumed)
    ensures OnlyHeadMoves(s, Step(s, OpenResumed))
  {
    var result := s.drains[0].result;
    if result.Some? && Wanted(s) {
      assert OnlyHeadMoves(s, Head(Replace(s, result.value), Returned));
    }
  }

  /** A running attempt never touches the flags; it only moves the head of the chain along. */
  lemma AttemptActions(s: System, a: Action)
    requires Enabled(s, a) && IsDrainAction(a) && !a.DrainTurn? && !a.WaitRejected?
    ensures OnlyHeadMoves(s, Step(s, a))
  {
    if a.OpenResumed? {
      OpenResumedMovesHead(s);
    }
  }

  lemma FlagsStep(s: System, a: Action)
    requires FlagsAgree(s) && Enabled(s, a)
    ensures FlagsAgree(Step(s, a))
  {
    if !IsDrainAction(a) {
      OuterActions(s, a);
    } else if !a.DrainTurn? && !a.WaitRejected? {
      AttemptActions(s, a);
    }
  }

  lemma {:induction false} FlagsAlwaysAgree(s: System, run: seq<Action>)
    requires FlagsAgree(s) && Possible(s, run)
    ensures FlagsAgree(After(s, run))
    decreases |run|
  {
    if run != [] {
      FlagsStep(s, run[0]);
      FlagsAlwaysAgree(Step(s, run[0]), run[1..]);
    }
  }

  /** No lost file change: in every interleaving, when a reader that has not been closed is idle, its
      latest attempt started after the last event. At most one attempt is ever under way, and there
      are never more attempts than events. */
  lemma NoChangeIsLost(hook: bool, version: nat, run: seq<Action>)
    requires Possible(Start(hook, version), run)
    ensures var s := After(Start(hook, version), run);
            && |s.drains| <= 1
            && (s.reader.active <==> |s.drains| == 1)
            && s.past.attempts <= s.past.events
            && (s.reader.watching && !s.reader.active ==> s.past.seen == s.past.events)
  {
    FlagsAlwaysAgree(Start(hook, version), run);
  }
}
