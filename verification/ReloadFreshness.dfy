/** What a watched reader holds and reports once it is idle, told from the actions of the run alone, and
    when its hook runs. */
module ReloadFreshness {
  import opened Values
  import opened Reloads
  import opened ReloadOwnership

  // ----- installs and the hook -----

  predicate InsideHook(s: System) {
    s.drains != [] && s.drains[0].InHook?
  }

  /** The counters of a run count what really happened: events, attempts started, native readers the drain
      made current, and hooks entered. */
  lemma HistoryCountsSteps(s: System, a: Action)
    requires Owned(s) && FlagsAgree(s) && Enabled(s, a)
    ensures var s' := Step(s, a);
            && s'.past.events == s.past.events + (if a.Event? then 1 else 0)
            && s'.past.attempts == s.past.attempts + (if a.DrainTurn? && s.reader.pending then 1 else 0)
            && s'.past.seen == (if a.DrainTurn? && s.reader.pending then s.past.events else s.past.seen)
            && s'.past.installs == s.past.installs + (if a.OpenResumed? && s'.reader.native != s.reader.native then 1 else 0)
            && s'.past.hookCalls == s.past.hookCalls + (if InsideHook(s') && !InsideHook(s) then 1 else 0)
            && (s'.reader.native != s.reader.native ==> a.OpenResumed? || a.FetchResumed?)
  {
    if a.OpenResumed? {
      OpenResumedCounts(s);
    } else if !IsDrainAction(a) {
      OuterActions(s, a);
    }
  }

  lemma OpenResumedCounts(s: System)
    requires Owned(s) && Enabled(s, OpenResumed)
    ensures var s' := Step(s, OpenResumed);
            && s'.past.events == s.past.events && s'.past.attempts == s.past.attempts && s'.past.seen == s.past.seen
            && s'.past.installs == s.past.installs + (if s'.reader.native != s.reader.native then 1 else 0)
            && s'.past.hookCalls == s.past.hookCalls + (if InsideHook(s') then 1 else 0)
  {
    if s.drains[0].result.Some? {
      assert DrainHolds(s, s.drains[0].result.value);
    }
  }

  /** A configured hook runs exactly once per watched install, and never otherwise. */
  ghost predicate HookCounted(s: System) {
    s.past.hookCalls == if s.hook then s.past.installs else 0
  }

  lemma HookStep(s: System, a: Action)
    requires HookCounted(s) && Owned(s) && Enabled(s, a)
    ensures HookCounted(Step(s, a))
  {
    if !IsDrainAction(a) {
      OuterActions(s, a);
    } else if a.OpenResumed? && s.drains[0].result.Some? {
      assert DrainHolds(s, s.drains[0].result.value);
    }
  }

  lemma StepKeepsConfiguration(s: System, a: Action)
    requires Enabled(s, a)
    ensures Step(s, a).hook == s.hook
  {
  }

  lemma {:induction false} HookAlwaysAgrees(s: System, run: seq<Action>)
    requires HookCounted(s) && Owned(s) && FlagsAgree(s) && Possible(s, run)
    ensures HookCounted(After(s, run)) && After(s, run).hook == s.hook
    decreases |run|
  {
    if run != [] {
      HookStep(s, run[0]);
      StepKeepsConfiguration(s, run[0]);
      OwnedStep(s, run[0]);
      FlagsStep(s, run[0]);
      HookAlwaysAgrees(Step(s, run[0]), run[1..]);
    }
  }

  /** Over every run, whatever interleaves, a configured hook is called once for each watched install. */
  lemma HookRunsOncePerInstall(hook: bool, version: nat, run: seq<Action>)
    requires Possible(Start(hook, version), run)
    ensures var past := After(Start(hook, version), run).past;
            past.hookCalls == if hook then past.installs else 0
  {
    HookAlwaysAgrees(Start(hook, version), run);
  }

  // ----- watcher-driven runs -----

  /** No load(), reload() or reloadAsync(): only the watcher replaces the database. */
  predicate WatcherOnly(a: Action) {
    IsDrainAction(a) || a.FileWrite? || a.Event? || a.Close?
  }

  /** Until its open is handled an attempt changes nothing a user of the reader can see, and neither does
      the drain when it ends; a failed open and a throwing hook leave a trace in lastError alone. */
  lemma AttemptChangesOnlyByInstalling(s: System, a: Action)
    requires Enabled(s, a) && IsDrainAction(a)
    requires a.OpenResumed? ==> s.drains[0].result.None?
    ensures var s' := Step(s, a);
            && (forall n | n in s.natives && n < s.unused :: n in s'.natives && s'.natives[n] == s.natives[n])
            && s'.reader.(active := s.reader.active, pending := s.reader.pending) ==
               if a.OpenResumed? then s.reader.(lastError := Some(OpenFailed))
               else if a == HookDone(true) then s.reader.(lastError := Some(HookFailed))
               else s.reader
  {
  }

  // ----- what the actions of a run say -----

  /** How the world failed an attempt, if it did. */
  datatype Verdict = Fine | Missing | Rejected | Unreadable | HookThrew

  /** The file's version when the attempt started, and what came of it. */
  datatype Attempt = Attempt(file: nat, verdict: Verdict)

  /** The file's version now and at the latest event, whether an event is still to be taken up, and the
      latest attempt. */
  datatype Report = Report(file: nat, changed: Option<nat>, pending: bool, latest: Option<Attempt>)

  function Judged(t: Report, verdict: Verdict): Report {
    if t.latest.None? then t else t.(latest := Some(t.latest.value.(verdict := verdict)))
  }

  /** A turn of the drain starts an attempt exactly when an event is still to be taken up. */
  function Told(t: Report, a: Action): Report {
    match a
    case FileWrite => t.(file := t.file + 1)
    case Event => t.(changed := Some(t.file), pending := true)
    case Close => t.(pending := false)
    case DrainTurn => if t.pending then t.(pending := false, latest := Some(Attempt(t.file, Fine))) else t
    case WaitResumed(present) => if present then t else Judged(t, Missing)
    case WaitRejected => Judged(t, Rejected)
    case WorkerRead(ok) => if ok then t else Judged(t, Unreadable)
    case HookDone(threw) => if threw then Judged(t, HookThrew) else t
    case _ => t
  }

  function ToldAll(t: Report, run: seq<Action>): Report
    decreases |run|
  {
    if run == [] then t else ToldAll(Told(t, run[0]), run[1..])
  }

  function FileWrites(run: seq<Action>): nat {
    if run == [] then 0 else (if run[0].FileWrite? then 1 else 0) + FileWrites(run[1..])
  }

  /** The reader holds the file as it was at this version or later. */
  ghost predicate Holds(s: System, version: nat) {
    s.reader.native in s.natives && s.natives[s.reader.native].version >= version
  }

  /** What a watched reader shows once the attempt is over. */
  ghost predicate Shows(s: System, attempt: Attempt) {
    match attempt.verdict
    case Fine => Holds(s, attempt.file) && s.reader.lastError == None
    case HookThrew => Holds(s, attempt.file) && s.reader.lastError == Some(HookFailed)
    case Unreadable => s.reader.lastError == Some(OpenFailed)
    case Missing => true
    case Rejected => true
  }

  ghost predicate HeadAgrees(s: System, attempt: Attempt, head: Drain) {
    match head
    case Waiting => attempt.verdict == Fine
    case Opening => attempt.verdict == Fine
    case Opened(None) => attempt.verdict == Unreadable
    case Opened(Some(n)) => attempt.verdict == Fine && n in s.natives && s.natives[n].version >= attempt.file
    case InHook => attempt.verdict == Fine && (s.reader.watching ==> Shows(s, attempt))
    case _ => s.reader.watching ==> Shows(s, attempt)
  }

  ghost predicate Agrees(s: System, t: Report) {
    && s.fetches == map[] && s.file == t.file && s.reader.pending == t.pending
    && (t.changed.Some? ==> t.changed.value <= t.file)
    && (t.latest.Some? ==> t.latest.value.file <= t.file)
    && (s.reader.watching && t.changed.Some? && !t.pending ==>
          t.latest.Some? && t.latest.value.file >= t.changed.value)
    && match t.latest {
         case None => s.drains == [] || s.drains[0].Scheduled?
         case Some(attempt) =>
           if s.drains == [] then s.reader.watching ==> Shows(s, attempt)
           else HeadAgrees(s, attempt, s.drains[0])
       }
  }

  lemma OuterAgrees(s: System, t: Report, a: Action)
    requires Agrees(s, t) && FlagsAgree(s) && Owned(s) && Enabled(s, a)
    requires a.FileWrite? || a.Event? || a.Close?
    ensures Agrees(Step(s, a), Told(t, a))
  {
  }

  lemma OpenResumedAgrees(s: System, t: Report)
    requires Agrees(s, t) && FlagsAgree(s) && Owned(s) && Enabled(s, OpenResumed)
    ensures Agrees(Step(s, OpenResumed), Told(t, OpenResumed))
  {
    if s.drains[0].result.Some? {
      assert DrainHolds(s, s.drains[0].result.value);
    }
  }

  lemma DrainAgrees(s: System, t: Report, a: Action)
    requires Agrees(s, t) && FlagsAgree(s) && Owned(s) && Enabled(s, a)
    requires IsDrainAction(a) && !a.OpenResumed?
    ensures Agrees(Step(s, a), Told(t, a))
  {
    match a
    case DrainTurn => TurnAgrees(s, t);
    case WaitRejected => RejectedAgrees(s, t);
    case WaitResumed(present) => WaitAgrees(s, t, present);
    case WorkerRead(ok) => WorkerAgrees(s, t, ok);
    case HookDone(threw) => HookAgrees(s, t, threw);
    case _ =>
  }

  lemma TurnAgrees(s: System, t: Report)
    requires Agrees(s, t) && FlagsAgree(s) && Enabled(s, DrainTurn)
    ensures Agrees(Step(s, DrainTurn), Told(t, DrainTurn))
  {
  }

  lemma RejectedAgrees(s: System, t: Report)
    requires Agrees(s, t) && FlagsAgree(s) && Enabled(s, WaitRejected)
    ensures Agrees(Step(s, WaitRejected), Told(t, WaitRejected))
  {
  }

  lemma WaitAgrees(s: System, t: Report, present: bool)
    requires Agrees(s, t) && FlagsAgree(s) && Owned(s) && Enabled(s, WaitResumed(present))
    ensures Agrees(Step(s, WaitResumed(present)), Told(t, WaitResumed(present)))
  {
  }

  lemma WorkerAgrees(s: System, t: Report, ok: bool)
    requires Agrees(s, t) && FlagsAgree(s) && Enabled(s, WorkerRead(ok))
    ensures Agrees(Step(s, WorkerRead(ok)), Told(t, WorkerRead(ok)))
  {
  }

  lemma HookAgrees(s: System, t: Report, threw: bool)
    requires Agrees(s, t) && FlagsAgree(s) && Enabled(s, HookDone(threw))
    ensures Agrees(Step(s, HookDone(threw)), Told(t, HookDone(threw)))
  {
  }

  lemma {:induction false} RunAgrees(s: System, t: Report, run: seq<Action>)
    requires Agrees(s, t) && FlagsAgree(s) && Owned(s) && Possible(s, run)
    requires forall i | 0 <= i < |run| :: WatcherOnly(run[i])
    ensures Agrees(After(s, run), ToldAll(t, run))
    ensures FlagsAgree(After(s, run)) && Owned(After(s, run))
    decreases |run|
  {
    if run != [] {
      var a := run[0];
      if a.OpenResumed? {
        OpenResumedAgrees(s, t);
      } else if IsDrainAction(a) {
        DrainAgrees(s, t, a);
      } else {
        OuterAgrees(s, t, a);
      }
      OwnedStep(s, a);
      FlagsStep(s, a);
      RunAgrees(Step(s, a), Told(t, a), run[1..]);
    }
  }

  function Before(version: nat): Report {
    Report(version, None, false, None)
  }

  /** In every watcher-driven run, once a watched reader is idle after an event: its latest attempt started
      at or after the file's version at the last event, and unless the world failed that attempt, the
      reader is open on the file as it was when the attempt started, or later. Each failure shows: an
      unreadable file and a throwing hook in lastError, and nothing else leaves an error there. */
  lemma IdleReaderIsFresh(hook: bool, version: nat, run: seq<Action>)
    requires Possible(Start(hook, version), run) && Event in run
    requires forall i | 0 <= i < |run| :: WatcherOnly(run[i])
    requires var s := After(Start(hook, version), run); s.reader.watching && !s.reader.active
    ensures var s, t := After(Start(hook, version), run), ToldAll(Before(version), run);
            && IsOpen(s, s.reader.native) && s.reader.metadata == s.natives[s.reader.native].version
            && t.changed.Some? && t.latest.Some? && t.latest.value.file >= t.changed.value
            && Shows(s, t.latest.value)
  {
    RunAgrees(Start(hook, version), Before(version), run);
    EventIsTold(Before(version), run);
  }

  lemma {:induction false} EventIsTold(t: Report, run: seq<Action>)
    ensures t.changed.Some? || Event in run ==> ToldAll(t, run).changed.Some?
    decreases |run|
  {
    if run != [] {
      EventIsTold(Told(t, run[0]), run[1..]);
      assert Event in run ==> run[0] == Event || Event in run[1..];
    }
  }

  // ----- when the world answers well -----

  predicate Fails(a: Action) {
    a == WaitResumed(false) || a == WaitRejected || a == WorkerRead(false)
  }

  lemma {:induction false} ToldJoin(t: Report, first: seq<Action>, more: seq<Action>)
    ensures ToldAll(t, first + more) == ToldAll(ToldAll(t, first), more)
    decreases |first|
  {
    if first == [] {
      assert first + more == more;
    } else {
      ToldJoin(Told(t, first[0]), first[1..], more);
      assert (first + more)[1..] == first[1..] + more;
    }
  }

  lemma {:induction false} FileIsTold(t: Report, run: seq<Action>)
    ensures ToldAll(t, run).file == t.file + FileWrites(run)
    decreases |run|
  {
    if run != [] {
      FileIsTold(Told(t, run[0]), run[1..]);
    }
  }

  /** After the last event, the attempt that takes it up is fine as long as nothing fails. */
  lemma {:induction false} GoodAnswersAreTold(t: Report, run: seq<Action>)
    requires t.changed.Some?
    requires t.pending || (t.latest.Some? && (t.latest.value.verdict.Fine? || t.latest.value.verdict.HookThrew?))
    requires forall i | 0 <= i < |run| :: !run[i].Event? && !run[i].Close? && !Fails(run[i])
    ensures var t' := ToldAll(t, run);
            && t'.changed == t.changed
            && (t'.pending || (t'.latest.Some? && (t'.latest.value.verdict.Fine? || t'.latest.value.verdict.HookThrew?)))
    decreases |run|
  {
    if run != [] {
      assert !Fails(run[0]);
      GoodAnswersAreTold(Told(t, run[0]), run[1..]);
    }
  }

  /** In every watcher-driven run whose answers after its last event are all good, a watched reader that is
      idle again is open on the file as it was at that event, or later. */
  lemma GoodAnswersReachTheReader(hook: bool, version: nat, before: seq<Action>, after: seq<Action>)
    requires var run := before + [Event] + after;
             && Possible(Start(hook, version), run)
             && (forall i | 0 <= i < |run| :: WatcherOnly(run[i]))
             && var s := After(Start(hook, version), run); s.reader.watching && !s.reader.active
    requires forall i | 0 <= i < |after| :: !after[i].Event? && !after[i].Close? && !Fails(after[i])
    ensures var s := After(Start(hook, version), before + [Event] + after);
            && IsOpen(s, s.reader.native)
            && s.reader.metadata == s.natives[s.reader.native].version >= version + FileWrites(before)
  {
    var run := before + [Event] + after;
    assert run[|before|] == Event;
    IdleReaderIsFresh(hook, version, run);
    RunAgrees(Start(hook, version), Before(version), run);
    ToldJoin(Before(version), before + [Event], after);
    ToldJoin(Before(version), before, [Event]);
    FileIsTold(Before(version), before);
    var t := ToldAll(Before(version), before);
    assert ToldAll(t, [Event]) == Told(t, Event);
    GoodAnswersAreTold(Told(t, Event), after);
  }
}
