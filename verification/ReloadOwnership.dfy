/** Who owns which native reader while watched reloads, reloadAsync() calls and close() interleave. */
module ReloadOwnership {
  import opened Values
  import opened Reloads

  ghost predicate DrainHolds(s: System, n: nat) {
    s.drains != [] && s.drains[0] == Opened(Some(n))
  }

  ghost predicate FetchHolds(s: System, f: nat, n: nat) {
    f in s.fetches && s.fetches[f] == Fetched(Some(n))
  }

  /** An opened replacement whose opening has not been handled yet. */
  ghost predicate Awaited(s: System, n: nat) {
    DrainHolds(s, n) || exists f :: FetchHolds(s, f, n)
  }

  /** Every open native reader is the current one or a replacement still to be handled; each of the
      latter has one holder. The bound get() and the metadata belong to the current reader, which is
      open as long as the reader is watched. `loose` is a replacement its holder has just let go of. */
  ghost predicate OwnedBut(s: System, loose: Option<nat>) {
    && s.reader.get == s.reader.native
    && s.reader.native in s.natives && s.reader.metadata == s.natives[s.reader.native].version
    && (s.reader.watching ==> IsOpen(s, s.reader.native))
    && (forall n | n in s.natives :: n < s.unused)
    && (forall f | f in s.fetches :: f < s.unused)
    && (forall n | IsOpen(s, n) :: n == s.reader.native || Some(n) == loose || Awaited(s, n))
    && (forall n | DrainHolds(s, n) :: IsOpen(s, n) && n != s.reader.native && Some(n) != loose)
    && (forall f, n | FetchHolds(s, f, n) ::
          IsOpen(s, n) && n != s.reader.native && Some(n) != loose && !DrainHolds(s, n))
    && (forall f, g, n | FetchHolds(s, f, n) && FetchHolds(s, g, n) :: f == g)
    && (loose.Some? ==> IsOpen(s, loose.value) && loose.value != s.reader.native)
  }

  ghost predicate Owned(s: System) {
    OwnedBut(s, None)
  }

  /** Installing a replacement, which its holder has let go of, closes the previous reader and no other. */
  lemma ReplaceOwned(s: System, n: nat)
    requires OwnedBut(s, Some(n))
    ensures Owned(Replace(s, n))
    ensures !IsOpen(Replace(s, n), s.reader.native) && IsOpen(Replace(s, n), n)
  {
    var s' := Replace(s, n);
    assert forall m :: IsOpen(s', m) <==> IsOpen(s, m) && m != s.reader.native;
    assert forall m :: DrainHolds(s', m) <==> DrainHolds(s, m);
    assert forall f, m :: FetchHolds(s', f, m) <==> FetchHolds(s, f, m);
    forall m | IsOpen(s', m)
      ensures m == n || Awaited(s', m)
    {
      AwaitedSame(s, s', m);
    }
  }

  lemma AwaitedSame(s: System, s': System, n: nat)
    requires forall m :: DrainHolds(s', m) <==> DrainHolds(s, m)
    requires forall f, m :: FetchHolds(s', f, m) <==> FetchHolds(s, f, m)
    ensures Awaited(s, n) <==> Awaited(s', n)
  {
  }

  /** A discarded replacement is closed; nothing else changes. */
  lemma DiscardOwned(s: System, n: nat)
    requires OwnedBut(s, Some(n))
    ensures Owned(CloseNative(s, n)) && !IsOpen(CloseNative(s, n), n)
  {
    var s' := CloseNative(s, n);
    assert forall m :: IsOpen(s', m) <==> IsOpen(s, m) && m != n;
    assert forall m :: DrainHolds(s', m) <==> DrainHolds(s, m);
    assert forall f, m :: FetchHolds(s', f, m) <==> FetchHolds(s, f, m);
    forall m | IsOpen(s', m)
      ensures m == s.reader.native || Awaited(s', m)
    {
      AwaitedSame(s, s', m);
    }
  }

  /** The drain lets go of what it holds when its head moves on. */
  lemma DrainReleases(s: System, d: Drain)
    requires Owned(s) && s.drains != [] && s.drains[0].Opened? && !d.Opened?
    ensures OwnedBut(Head(s, d), s.drains[0].result)
  {
    var s' := Head(s, d);
    assert forall f, m :: FetchHolds(s', f, m) <==> FetchHolds(s, f, m);
    assert forall m: nat :: DrainHolds(s, m) <==> Some(m) == s.drains[0].result;
    assert forall m :: IsOpen(s', m) <==> IsOpen(s, m);
    forall m | IsOpen(s', m) && m != s.reader.native && !DrainHolds(s, m)
      ensures Awaited(s', m)
    {
      assert IsOpen(s, m);
      var f :| FetchHolds(s, f, m);
      assert FetchHolds(s', f, m);
    }
  }

  lemma FetchReleases(s: System, id: nat)
    requires Owned(s) && id in s.fetches && s.fetches[id].Fetched?
    ensures OwnedBut(s.(fetches := s.fetches - {id}), s.fetches[id].result)
  {
    var s' := s.(fetches := s.fetches - {id});
    assert forall f, m :: FetchHolds(s', f, m) <==> FetchHolds(s, f, m) && f != id;
    assert forall m :: DrainHolds(s', m) <==> DrainHolds(s, m);
    assert forall m: nat :: FetchHolds(s, id, m) <==> Some(m) == s.fetches[id].result;
    assert forall m :: IsOpen(s', m) <==> IsOpen(s, m);
    forall m | IsOpen(s', m) && m != s.reader.native && !FetchHolds(s, id, m)
      ensures Awaited(s', m)
    {
      assert IsOpen(s, m);
      if !DrainHolds(s, m) {
        var f :| FetchHolds(s, f, m);
        assert FetchHolds(s', f, m);
      }
    }
  }

  /** Changes to the fields that ownership does not look at. */
  lemma OwnedIgnores(s: System, s': System)
    requires Owned(s)
    requires s'.natives == s.natives && s'.fetches == s.fetches && s'.unused == s.unused
    requires s'.reader.native == s.reader.native && s'.reader.get == s.reader.get
    requires s'.reader.metadata == s.reader.metadata && (s'.reader.watching ==> s.reader.watching)
    requires forall n :: DrainHolds(s', n) <==> DrainHolds(s, n)
    ensures Owned(s')
  {
    assert forall f, m :: FetchHolds(s', f, m) <==> FetchHolds(s, f, m);
    assert forall n :: IsOpen(s', n) <==> IsOpen(s, n);
    forall m | IsOpen(s', m)
      ensures m == s'.reader.native || Awaited(s', m)
    {
      AwaitedSame(s, s', m);
    }
  }

  /** A worker's new native reader is loose until its holder takes it. */
  lemma WorkerOwned(s: System)
    requires Owned(s)
    ensures OwnedBut(WorkerResult(s, true).0, WorkerResult(s, true).1)
    ensures WorkerResult(s, false) == (s, None)
  {
    var s' := WorkerResult(s, true).0;
    assert forall f, m :: FetchHolds(s', f, m) <==> FetchHolds(s, f, m);
    assert forall m :: DrainHolds(s', m) <==> DrainHolds(s, m);
    assert !IsOpen(s, s.unused);
    assert forall m :: IsOpen(s', m) <==> IsOpen(s, m) || m == s.unused;
    forall m | IsOpen(s', m) && m != s.unused
      ensures m == s.reader.native || Awaited(s', m)
    {
      AwaitedSame(s, s', m);
    }
  }

  lemma DrainTakes(s: System, result: Option<nat>)
    requires OwnedBut(s, result) && s.drains != [] && !s.drains[0].Opened?
    ensures Owned(Head(s, Opened(result)))
  {
    var s' := Head(s, Opened(result));
    assert forall f, m :: FetchHolds(s', f, m) <==> FetchHolds(s, f, m);
    assert forall m: nat :: DrainHolds(s', m) <==> Some(m) == result;
    assert forall m :: IsOpen(s', m) <==> IsOpen(s, m);
    assert result.Some? ==> IsOpen(s', result.value);
    forall m | IsOpen(s', m) && m != s.reader.native && Some(m) != result
      ensures Awaited(s', m)
    {
      assert IsOpen(s, m);
      var f :| FetchHolds(s, f, m);
      assert FetchHolds(s', f, m);
    }
  }

  lemma FetchTakes(s: System, id: nat, result: Option<nat>)
    requires OwnedBut(s, result) && id in s.fetches && s.fetches[id].Reading?
    ensures Owned(s.(fetches := s.fetches[id := Fetched(result)]))
  {
    var s' := s.(fetches := s.fetches[id := Fetched(result)]);
    assert forall f: nat, m: nat :: FetchHolds(s', f, m) <==> FetchHolds(s, f, m) || (f == id && Some(m) == result);
    assert forall m :: DrainHolds(s', m) <==> DrainHolds(s, m);
    assert forall m :: IsOpen(s', m) <==> IsOpen(s, m);
    forall m | IsOpen(s', m) && m != s.reader.native
      ensures Awaited(s', m)
    {
      assert IsOpen(s, m);
      if Some(m) == result {
        assert FetchHolds(s', id, m);
      } else if !DrainHolds(s, m) {
        var f :| FetchHolds(s, f, m);
        assert FetchHolds(s', f, m);
      }
    }
  }

  lemma LoadOwned(s: System, version: nat)
    requires Owned(s)
    ensures Owned(Loaded(s, version))
  {
    var s' := Loaded(s, version);
    assert forall f, m :: FetchHolds(s', f, m) <==> FetchHolds(s, f, m);
    assert forall m :: DrainHolds(s', m) <==> DrainHolds(s, m);
    assert forall m :: IsOpen(s', m) <==> IsOpen(s, m) || m == s.reader.native;
    forall m | IsOpen(s', m) && m != s.reader.native
      ensures Awaited(s', m)
    {
      AwaitedSame(s, s', m);
    }
  }

  lemma CloseOwned(s: System)
    requires Owned(s)
    ensures Owned(Step(s, Close)) && !IsOpen(Step(s, Close), s.reader.native)
  {
    var s' := Step(s, Close);
    assert forall f, m :: FetchHolds(s', f, m) <==> FetchHolds(s, f, m);
    assert forall m :: DrainHolds(s', m) <==> DrainHolds(s, m);
    assert forall m :: IsOpen(s', m) <==> IsOpen(s, m) && m != s.reader.native;
    forall m | IsOpen(s', m)
      ensures Awaited(s', m)
    {
      AwaitedSame(s, s', m);
    }
  }

  lemma OpenResumedOwned(s: System)
    requires Owned(s) && Enabled(s, OpenResumed)
    ensures Owned(Step(s, OpenResumed))
  {
    DrainReleases(s, Returned);
    var t := Head(s, Returned);
    match s.drains[0].result
    case None => OwnedIgnores(t, Step(s, OpenResumed));
    case Some(n) =>
      if Wanted(s) {
        ReplaceOwned(t, n);
        OwnedIgnores(Replace(t, n), Step(s, OpenResumed));
      } else {
        DiscardOwned(t, n);
        OwnedIgnores(CloseNative(t, n), Step(s, OpenResumed));
      }
  }

  lemma FetchResumedOwned(s: System, id: nat)
    requires Owned(s) && Enabled(s, FetchResumed(id))
    ensures Owned(Step(s, FetchResumed(id)))
  {
    FetchReleases(s, id);
    var t := s.(fetches := s.fetches - {id});
    match s.fetches[id].result
    case None => OwnedIgnores(t, Step(s, FetchResumed(id)));
    case Some(n) =>
      if IsOpen(s, s.reader.native) {
        ReplaceOwned(t, n);
      } else {
        DiscardOwned(t, n);
        OwnedIgnores(CloseNative(t, n), Step(s, FetchResumed(id)));
      }
  }

  lemma FetchStartOwned(s: System)
    requires Owned(s)
    ensures Owned(Step(s, FetchStart))
  {
    var s' := Step(s, FetchStart);
    assert forall f, m :: FetchHolds(s', f, m) <==> FetchHolds(s, f, m);
    assert forall m :: DrainHolds(s', m) <==> DrainHolds(s, m);
    assert forall n :: IsOpen(s', n) <==> IsOpen(s, n);
    forall m | IsOpen(s', m)
      ensures m == s.reader.native || Awaited(s', m)
    {
      AwaitedSame(s, s', m);
    }
  }

  lemma WorkerReadsOwned(s: System, a: Action)
    requires Owned(s) && Enabled(s, a) && (a.WorkerRead? || a.FetchRead?)
    ensures Owned(Step(s, a))
  {
    WorkerOwned(s);
    var (t, result) := WorkerResult(s, a.ok);
    if a.WorkerRead? {
      DrainTakes(t, result);
    } else {
      FetchTakes(t, a.id, result);
    }
  }

  /** Every action keeps every native reader owned. */
  lemma OwnedStep(s: System, a: Action)
    requires Owned(s) && FlagsAgree(s) && Enabled(s, a)
    ensures Owned(Step(s, a))
  {
    match a
    case Close => CloseOwned(s);
    case Load(version) =>
      if version.Some? { LoadOwned(s, version.value); } else { OwnedIgnores(s, Step(s, a)); }
    case Reload(ok) =>
      if ok { LoadOwned(s, s.file); } else { OwnedIgnores(s, Step(s, a)); }
    case FetchStart => FetchStartOwned(s);
    case FetchRead(_, _) => WorkerReadsOwned(s, a);
    case WorkerRead(_) => WorkerReadsOwned(s, a);
    case FetchResumed(id) => FetchResumedOwned(s, id);
    case OpenResumed => OpenResumedOwned(s);
    case _ => OwnedIgnores(s, Step(s, a));
  }

  lemma {:induction false} OwnedAlways(s: System, run: seq<Action>)
    requires Owned(s) && FlagsAgree(s) && Possible(s, run)
    ensures Owned(After(s, run))
    decreases |run|
  {
    if run != [] {
      OwnedStep(s, run[0]);
      FlagsStep(s, run[0]);
      OwnedAlways(Step(s, run[0]), run[1..]);
    }
  }

  /** No native reader leaks: in every interleaving of events, drains, reloadAsync() calls, loads and
      closes, each native reader is closed, or is the current one, or is a replacement whose opening
      is still to be handled. With none of those under way, only the current one can be open. Lookups
      and metadata always belong to the current reader. */
  lemma NoNativeReaderLeaks(hook: bool, version: nat, run: seq<Action>)
    requires Possible(Start(hook, version), run)
    ensures var s := After(Start(hook, version), run);
            && (forall n | IsOpen(s, n) :: n == s.reader.native || Awaited(s, n))
            && (s.drains == [] && s.fetches == map[] ==> forall n | IsOpen(s, n) :: n == s.reader.native)
            && s.reader.get == s.reader.native
            && s.reader.native in s.natives && s.reader.metadata == s.natives[s.reader.native].version
            && (s.reader.watching ==> IsOpen(s, s.reader.native))
  {
    OwnedAlways(Start(hook, version), run);
  }

  // ----- close is final for the watcher -----

  lemma UnwatchedStep(s: System, a: Action)
    requires !s.reader.watching && Enabled(s, a)
    ensures var s' := Step(s, a);
            && !s'.reader.watching
            && s'.past.installs == s.past.installs && s'.past.hookCalls == s.past.hookCalls
            && (!a.FetchResumed? ==> s'.reader.native == s.reader.native && s'.reader.get == s.reader.get)
  {
    if !IsDrainAction(a) {
      OuterActions(s, a);
    }
  }

  /** After close(), no watched reload ever installs a reader or calls the hook again, whatever was
      pending, scheduled or in flight, and even if load() or reload() reopens the reader: only a
      reloadAsync() can still change the current native reader. */
  lemma CloseIsFinal(s: System, run: seq<Action>)
    requires Possible(Step(s, Close), run)
    ensures var s' := After(Step(s, Close), run);
            && !s'.reader.watching
            && s'.past.installs == s.past.installs && s'.past.hookCalls == s.past.hookCalls
            && ((forall i | 0 <= i < |run| :: !run[i].FetchResumed?) ==>
                  s'.reader.native == s.reader.native && s'.reader.get == s.reader.get)
  {
    UnwatchedRun(Step(s, Close), run);
  }

  lemma {:induction false} UnwatchedRun(s: System, run: seq<Action>)
    requires !s.reader.watching && Possible(s, run)
    ensures var s' := After(s, run);
            && !s'.reader.watching
            && s'.past.installs == s.past.installs && s'.past.hookCalls == s.past.hookCalls
            && ((forall i | 0 <= i < |run| :: !run[i].FetchResumed?) ==>
                  s'.reader.native == s.reader.native && s'.reader.get == s.reader.get)
    decreases |run|
  {
    if run != [] {
      UnwatchedStep(s, run[0]);
      UnwatchedRun(Step(s, run[0]), run[1..]);
    }
  }

  // ----- late replacements are closed -----

  /** A replacement the drain opened and the reader no longer wants: not current, in no other hands,
      and open only until the drain handles it. */
  ghost predicate Late(s: System, n: nat) {
    && !s.reader.watching && n in s.natives && n != s.reader.native
    && (IsOpen(s, n) ==> DrainHolds(s, n))
    && (forall f :: !FetchHolds(s, f, n))
  }

  /** Handling it closes it and leaves every field of the reader alone. */
  lemma LateReplacementIsDiscarded(s: System, n: nat)
    requires Owned(s) && !s.reader.watching && DrainHolds(s, n)
    ensures var s' := Step(s, OpenResumed);
            && s'.reader == s.reader && !IsOpen(s', n)
            && (forall m | m != n :: IsOpen(s', m) <==> IsOpen(s, m))
  {
  }

  /** Which native reader an action may install or put in the hands of a reloadAsync() call. */
  lemma LateElsewhere(s: System, a: Action, n: nat)
    requires Owned(s) && Late(s, n) && Enabled(s, a)
    ensures var s' := Step(s, a);
            n in s'.natives && n != s'.reader.native && (forall f :: !FetchHolds(s', f, n))
  {
    match a
    case FetchRead(_, _) =>
      assert n != s.unused && forall f :: FetchHolds(Step(s, a), f, n) ==> FetchHolds(s, f, n);
    case FetchResumed(id) => LateUnfetched(s, id, n);
    case _ => LateAside(s, a, n);
  }

  lemma LateUnfetched(s: System, id: nat, n: nat)
    requires Late(s, n) && Enabled(s, FetchResumed(id))
    ensures var s' := Step(s, FetchResumed(id));
            n in s'.natives && n != s'.reader.native && (forall f :: !FetchHolds(s', f, n))
  {
    assert !FetchHolds(s, id, n);
    assert forall f :: FetchHolds(Step(s, FetchResumed(id)), f, n) ==> FetchHolds(s, f, n);
  }

  lemma LateAside(s: System, a: Action, n: nat)
    requires Owned(s) && Late(s, n) && Enabled(s, a) && !a.FetchRead? && !a.FetchResumed?
    ensures var s' := Step(s, a);
            n in s'.natives && n != s'.reader.native && (forall f :: !FetchHolds(s', f, n))
  {
    UnwatchedStep(s, a);
    assert forall f :: FetchHolds(Step(s, a), f, n) ==> FetchHolds(s, f, n);
  }

  lemma LateStep(s: System, a: Action, n: nat)
    requires Owned(s) && FlagsAgree(s) && Late(s, n) && Enabled(s, a)
    ensures Late(Step(s, a), n)
  {
    OwnedStep(s, a);
    UnwatchedStep(s, a);
    LateElsewhere(s, a, n);
  }

  lemma {:induction false} LateAlways(s: System, run: seq<Action>, n: nat)
    requires Owned(s) && FlagsAgree(s) && Late(s, n) && Possible(s, run)
    ensures Late(After(s, run), n)
    decreases |run|
  {
    if run != [] {
      OwnedStep(s, run[0]);
      FlagsStep(s, run[0]);
      LateStep(s, run[0], n);
      LateAlways(Step(s, run[0]), run[1..], n);
    }
  }

  /** Each late replacement is closed: after any past, a close() and anything more, a native reader the
      drain holds is never the current one, at any later moment, and is open only until the drain
      handles it; handling it leaves the reader as it was. */
  lemma LateReplacementIsClosed(hook: bool, version: nat, past: seq<Action>, before: seq<Action>, n: nat, run: seq<Action>)
    requires Possible(Start(hook, version), past)
    requires var s := Step(After(Start(hook, version), past), Close);
             Possible(s, before) && DrainHolds(After(s, before), n) && Possible(After(s, before), run)
    ensures var s := After(Step(After(Start(hook, version), past), Close), before);
            && Step(s, OpenResumed).reader == s.reader && !IsOpen(Step(s, OpenResumed), n)
            && var s' := After(s, run);
               && s'.reader.native != n && s'.reader.get != n
               && (!DrainHolds(s', n) ==> !IsOpen(s', n))
  {
    var start := Start(hook, version);
    var closed := Step(After(start, past), Close);
    OwnedAlways(start, past);
    FlagsAlwaysAgree(start, past);
    CloseOwned(After(start, past));
    FlagsStep(After(start, past), Close);
    OwnedAlways(closed, before);
    FlagsAlwaysAgree(closed, before);
    UnwatchedRun(closed, before);
    var s := After(closed, before);
    LateReplacementIsDiscarded(s, n);
    LateAlways(s, run, n);
    OwnedAlways(s, run);
  }
}
