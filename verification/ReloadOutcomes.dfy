/** What load(), reload() and reloadAsync() put into the reader, whatever interleaves. */
module ReloadOutcomes {
  import opened Values
  import opened Reloads
  import opened ReloadOwnership
  import opened ReloadFreshness

  // ----- reloadAsync() -----

  /** A reloadAsync() call has opened native reader n on this version of the file, not handled yet. */
  ghost predicate InHand(s: System, id: nat, n: nat, version: nat) {
    FetchHolds(s, id, n) && n in s.natives && s.natives[n] == Db(true, version)
  }

  lemma InHandStep(s: System, a: Action, id: nat, n: nat, version: nat)
    requires Owned(s) && FlagsAgree(s) && Enabled(s, a) && a != FetchResumed(id) && InHand(s, id, n, version)
    ensures InHand(Step(s, a), id, n, version)
  {
    if a.OpenResumed? && s.drains[0].result.Some? {
      assert DrainHolds(s, s.drains[0].result.value);
    } else if a.FetchResumed? && s.fetches[a.id].result.Some? {
      assert FetchHolds(s, a.id, s.fetches[a.id].result.value);
    }
  }

  lemma {:induction false} StaysInHand(s: System, run: seq<Action>, id: nat, n: nat, version: nat)
    requires Owned(s) && FlagsAgree(s) && Possible(s, run) && FetchResumed(id) !in run && InHand(s, id, n, version)
    ensures InHand(After(s, run), id, n, version) && Owned(After(s, run))
    decreases |run|
  {
    if run != [] {
      assert run[0] != FetchResumed(id);
      InHandStep(s, run[0], id, n, version);
      OwnedStep(s, run[0]);
      FlagsStep(s, run[0]);
      StaysInHand(Step(s, run[0]), run[1..], id, n, version);
    }
  }

  /** In every run: a reloadAsync() call whose worker read the file installs what it read, however much
      happens before it is resumed, and closes the reader it replaces; if the reader was closed by then,
      it closes what it opened and changes nothing but lastError. */
  lemma AsyncReloadInstallsWhatItRead(hook: bool, version: nat, before: seq<Action>, id: nat, between: seq<Action>)
    requires Possible(Start(hook, version), before)
    requires var s := After(Start(hook, version), before);
             && Enabled(s, FetchRead(id, true))
             && Possible(Step(s, FetchRead(id, true)), between) && FetchResumed(id) !in between
    ensures var s1 := After(Start(hook, version), before);
            var s2 := After(Step(s1, FetchRead(id, true)), between);
            && Enabled(s2, FetchResumed(id))
            && var s3 := Step(s2, FetchResumed(id));
               if IsOpen(s2, s2.reader.native) then
                 && s3.reader.native in s3.natives && s3.natives[s3.reader.native] == Db(true, version + FileWrites(before))
                 && s3.reader.get == s3.reader.native && s3.reader.metadata == version + FileWrites(before)
                 && s3.reader.lastError == None && !IsOpen(s3, s2.reader.native)
               else
                 s3.reader == s2.reader.(lastError := Some(ReaderClosed)) && !IsOpen(s3, s1.unused)
  {
    var start := Start(hook, version);
    var s1 := After(start, before);
    OwnedAlways(start, before);
    FlagsAlwaysAgree(start, before);
    FileOfRun(start, before);
    OwnedStep(s1, FetchRead(id, true));
    FlagsStep(s1, FetchRead(id, true));
    StaysInHand(Step(s1, FetchRead(id, true)), between, id, s1.unused, s1.file);
    var s2 := After(Step(s1, FetchRead(id, true)), between);
    assert FetchHolds(s2, id, s1.unused);
  }

  lemma {:induction false} FileOfRun(s: System, run: seq<Action>)
    requires Possible(s, run)
    ensures After(s, run).file == s.file + FileWrites(run)
    decreases |run|
  {
    if run != [] {
      FileStep(s, run[0]);
      FileOfRun(Step(s, run[0]), run[1..]);
    }
  }

  lemma FileStep(s: System, a: Action)
    requires Enabled(s, a)
    ensures Step(s, a).file == s.file + if a.FileWrite? then 1 else 0
  {
  }

  /** A worker that cannot open the file leaves everything alone but lastError. */
  lemma FailedAsyncReload(s: System, id: nat)
    requires id in s.fetches && s.fetches[id] == Fetched(None)
    ensures Step(s, FetchResumed(id)) ==
            s.(fetches := s.fetches - {id}, reader := s.reader.(lastError := Some(OpenFailed)))
  {
  }

  // ----- load() and reload() -----

  /** The version a load() or a reload() puts into the reader; None when it fails. */
  function Offered(s: System, a: Action): Option<nat>
    requires a.Load? || a.Reload?
  {
    if a.Load? then a.version else if a.ok then Some(s.file) else None
  }

  /** load() and reload() replace the database of the current native reader in place, open or closed; when
      they fail they change only lastError. */
  lemma LoadReplacesInPlace(s: System, a: Action)
    requires a.Load? || a.Reload?
    ensures var s' := Step(s, a);
            match Offered(s, a) {
              case Some(v) =>
                && s'.natives == s.natives[s.reader.native := Db(true, v)]
                && s'.reader == s.reader.(metadata := v, lastError := None)
              case None =>
                && s'.natives == s.natives
                && s'.reader == s.reader.(lastError := Some(if a.Load? then BadData else OpenFailed))
            }
  {
  }
}
