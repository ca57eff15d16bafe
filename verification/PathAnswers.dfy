/** What path handles give back and answer over whole runs, told from the run and the databases alone. */
module PathAnswers {
  import opened Values
  import opened N = Natives
  import opened PathHandles
  import opened PathRuns
  import A = NativeAnswers

  // ----- no id leaks -----

  /** Some finalizer registration is for this id. */
  ghost predicate Held(w: World, r: Registration<nat>) {
    exists h :: h in w.registered && w.registered[h] == r
  }

  /** Every stored id is held by a registration, and a reachable handle's registration is its own. */
  ghost predicate Kept(w: World) {
    && Known(w) && RegisteredFor(w)
    && (forall n | n in w.natives :: n < w.unused)
    && (forall h | h in w.handles :: h < w.unused)
    && (forall h | h in w.registered :: h < w.unused)
    && (forall r | Stored(w, r) :: Held(w, r))
  }

  lemma GivenBackKept(w: World, h: nat, r: Registration<nat>)
    requires Kept(w) && r.native in w.natives && (h in w.registered ==> w.registered[h] == r)
    ensures Kept(GivenBack(w, h, r))
  {
    var w' := GivenBack(w, h, r);
    forall q | Stored(w', q)
      ensures Held(w', q)
    {
      assert Stored(w, q) && q != r;
      var x :| x in w.registered && w.registered[x] == q;
      assert x in w'.registered && w'.registered[x] == q;
    }
  }

  lemma IssuedKept(w: World, h: nat, handle: Handle<nat>)
    requires Kept(w) && h !in w.registered && h <= w.unused && !handle.closed
    requires CompilePath(w.natives[w.current], Some(handle.path)).1.Ok?
    ensures Kept(Issued(w, h, handle))
  {
    var w' := Issued(w, h, handle);
    var mine := Registration(w.current, w.natives[w.current].nextPathId);
    forall q | Stored(w', q)
      ensures Held(w', q)
    {
      if q == mine {
        assert w'.registered[h] == mine;
      } else {
        assert Stored(w, q);
        var x :| x in w.registered && w.registered[x] == q;
        assert w'.registered[x] == q;
      }
    }
  }

  lemma RecompileKept(w: World, h: nat)
    requires Kept(w) && h in w.handles && !w.handles[h].closed
    ensures Kept(Recompile(w, h).0)
  {
    var handle := w.handles[h];
    GivenBackKept(w, h, ClaimOf(handle));
    var w1 := GivenBack(w, h, ClaimOf(handle));
    if CompilePath(w1.natives[w.current], Some(handle.path)).1.Ok? {
      IssuedKept(w1, h, handle);
    } else {
      StrandedKept(w1, h);
    }
  }

  lemma StrandedKept(w: World, h: nat)
    requires Kept(w) && h in w.handles && h !in w.registered
    ensures Kept(Stranded(w, h))
  {
    var w' := Stranded(w, h);
    assert forall q :: Held(w', q) <==> Held(w, q);
    assert forall q | Stored(w', q) :: Stored(w, q);
  }

  lemma CloseHandleKept(w: World, h: nat)
    requires Kept(w) && h in w.handles
    ensures Kept(Step(w, CloseHandle(h)))
  {
    if !w.handles[h].closed {
      var w' := Step(w, CloseHandle(h));
      GivenBackKept(w, h, ClaimOf(w.handles[h]));
      var v := GivenBack(w, h, ClaimOf(w.handles[h]));
      assert w' == v.(handles := w'.handles);
      SameTables(v, w');
    }
  }

  /** Only what stores and holds ids matters to that half of Kept. */
  lemma SameTables(w: World, w': World)
    requires forall r | Stored(w, r) :: Held(w, r)
    requires w'.registered == w.registered && forall r | Stored(w', r) :: Stored(w, r)
    ensures forall r | Stored(w', r) :: Held(w', r)
  {
    assert forall r :: Held(w', r) <==> Held(w, r);
  }

  lemma CollectKept(w: World, h: nat)
    requires Kept(w)
    ensures Kept(w.(handles := w.handles - {h}))
  {
    SameTables(w, w.(handles := w.handles - {h}));
  }

  lemma ReaderStepKept(w: World, a: Action)
    requires Kept(w) && Enabled(w, a) && (a.Swap? || a.Load? || a.CloseReader?)
    ensures Kept(Step(w, a))
  {
    var w' := Step(w, a);
    forall r | Stored(w', r)
      ensures Stored(w, r)
    {
    }
    SameTables(w, w');
  }

  lemma KeptStep(w: World, a: Action)
    requires Kept(w) && Enabled(w, a)
    ensures Kept(Step(w, a))
  {
    match a
    case NewPath(path) =>
      if CompilePath(w.natives[w.current], path).1.Ok? {
        IssuedKept(w, w.unused, Blank(path.value, w.current));
      }
    case Get(h, ip) =>
      if !w.handles[h].closed && w.handles[h].native != w.current {
        RecompileKept(w, h);
      }
    case CloseHandle(h) => CloseHandleKept(w, h);
    case Collect(h) => CollectKept(w, h);
    case Finalize(h) => GivenBackKept(w, h, w.registered[h]);
    case _ => ReaderStepKept(w, a);
  }

  lemma {:induction false} AlwaysKept(w: World, run: seq<Action>)
    requires Kept(w) && Possible(w, run)
    ensures Kept(After(w, run))
    decreases |run|
  {
    if run != [] {
      KeptStep(w, run[0]);
      AlwaysKept(Step(w, run[0]), run[1..]);
    }
  }

  /** No compiled path leaks. In every possible run, each id a native reader stores is registered for one
      handle, which is unclosed and still has that id, or is dropped and can be finalized: once every
      handle is closed or finalized, all the tables are empty. */
  lemma NoIdLeaks(source: Source, capacity: nat, run: seq<Action>)
    requires Possible(Start(source, capacity), run)
    ensures var w := After(Start(source, capacity), run);
            && (forall r | Stored(w, r) ::
                  exists h :: h in w.registered && w.registered[h] == r
                              && if h in w.handles then !w.handles[h].closed && ClaimOf(w.handles[h]) == r else Enabled(w, Finalize(h)))
            && (w.registered == map[] ==> forall n | n in w.natives :: w.natives[n].paths == map[])
  {
    AlwaysKept(Start(source, capacity), run);
    var w := After(Start(source, capacity), run);
    forall r | Stored(w, r)
      ensures exists h :: h in w.registered && w.registered[h] == r
                          && if h in w.handles then !w.handles[h].closed && ClaimOf(w.handles[h]) == r else Enabled(w, Finalize(h))
    {
      var h :| h in w.registered && w.registered[h] == r;
    }
    if w.registered == map[] {
      forall n | n in w.natives
        ensures w.natives[n].paths == map[]
      {
        if i :| i in w.natives[n].paths {
          assert Stored(w, Registration(n, i));
        }
      }
    }
  }

  // ----- a handle keeps its path, and a closed one never answers -----

  lemma HandleStep(w: World, a: Action, h: nat)
    requires Known(w) && Enabled(w, a) && h < w.unused && h in Step(w, a).handles
    ensures h in w.handles && Step(w, a).handles[h].path == w.handles[h].path
    ensures w.handles[h].closed ==> Step(w, a).handles[h].closed
  {
  }

  lemma UnusedGrows(w: World, a: Action)
    requires Known(w) && Enabled(w, a)
    ensures Step(w, a).unused >= w.unused
  {
  }

  lemma {:induction false} HandleAfter(w: World, run: seq<Action>, h: nat)
    requires Possible(w, run) && h < w.unused && h in After(w, run).handles
    ensures h in w.handles && After(w, run).handles[h].path == w.handles[h].path
    ensures w.handles[h].closed ==> After(w, run).handles[h].closed
    decreases |run|
  {
    if run != [] {
      UnusedGrows(w, run[0]);
      HandleAfter(Step(w, run[0]), run[1..], h);
      HandleStep(w, run[0], h);
    }
  }

  /** A closed handle answers nothing but that it is closed, whatever happens after, and a lookup through it
      changes nothing. */
  lemma ClosedHandleNeverAnswers(source: Source, capacity: nat, past: seq<Action>, h: nat, run: seq<Action>, ip: Option<Ip>)
    requires Possible(Start(source, capacity), past)
    requires var w := After(Start(source, capacity), past);
             Known(w) && h in w.handles && Possible(Step(w, CloseHandle(h)), run)
    ensures var w := After(Step(After(Start(source, capacity), past), CloseHandle(h)), run);
            Known(w) && h in w.handles ==> Lookup(w, h, ip) == (w, Err(HandleClosed))
  {
    AlwaysKept(Start(source, capacity), past);
    var w := Step(After(Start(source, capacity), past), CloseHandle(h));
    if h in After(w, run).handles {
      HandleAfter(w, run, h);
    }
  }

  // ----- which database and which path -----

  /** The database open after the run: the one opened or loaded last, unless it was closed since. */
  function OpenDatabase(first: Source, run: seq<Action>): Option<Source> {
    if run == [] then Some(first)
    else
      var n := |run| - 1;
      match run[n]
      case Swap(source, _) => Some(source)
      case Load(Ok(source)) => Some(source)
      case CloseReader => None
      case _ => OpenDatabase(first, run[..n])
  }

  function LatestDatabase(first: Source, run: seq<Action>): Source {
    if run == [] then first
    else
      var n := |run| - 1;
      match run[n]
      case Swap(source, _) => source
      case Load(Ok(source)) => source
      case _ => LatestDatabase(first, run[..n])
  }

  /** The reader's current native reader has this database. */
  ghost predicate Serves(w: World, db: Option<Source>, latest: Source) {
    && w.current in w.natives && w.natives[w.current].source == db
    && w.natives[w.current].ipVersion == latest.ipVersion
  }

  lemma ServesStep(w: World, a: Action, db: Option<Source>, latest: Source)
    requires Known(w) && Enabled(w, a) && Serves(w, db, latest)
    ensures match a {
              case Swap(source, _) => Serves(Step(w, a), Some(source), source)
              case Load(Ok(source)) => Serves(Step(w, a), Some(source), source)
              case CloseReader => Serves(Step(w, a), None, latest)
              case _ => Serves(Step(w, a), db, latest)
            }
  {
  }

  lemma {:induction false} PossibleJoin(w: World, run: seq<Action>, more: seq<Action>)
    requires Possible(w, run + more)
    ensures Possible(w, run) && Possible(After(w, run), more) && After(w, run + more) == After(After(w, run), more)
    decreases |run|
  {
    if run == [] {
      assert run + more == more;
    } else {
      assert (run + more)[1..] == run[1..] + more;
      PossibleJoin(Step(w, run[0]), run[1..], more);
    }
  }

  lemma {:induction false} RunServes(first: Source, capacity: nat, run: seq<Action>)
    requires Possible(Start(first, capacity), run)
    ensures Serves(After(Start(first, capacity), run), OpenDatabase(first, run), LatestDatabase(first, run))
    decreases |run|
  {
    if run != [] {
      var n := |run| - 1;
      assert run[..n] + [run[n]] == run;
      PossibleJoin(Start(first, capacity), run[..n], [run[n]]);
      RunServes(first, capacity, run[..n]);
      ServesStep(After(Start(first, capacity), run[..n]), run[n], OpenDatabase(first, run[..n]), LatestDatabase(first, run[..n]));
    }
  }

  lemma GetPathIsReference(s: Native, db: Option<Source>, latest: Source, ip: Option<Ip>, path: Path)
    requires s.source == db && s.ipVersion == latest.ipVersion
    ensures GetPath(s, ip, Some(path)) == A.Reference(db, latest, ip, A.AtPath(path))
  {
  }

  /** A handle opened by path(p) at any moment of a run that reopens no closed reader and uses up no ids
      reads exactly p in the database open by then, while the reader is open and the handle is not closed:
      whatever was loaded, swapped, closed, collected or compiled in between. */
  lemma HandleReadsItsPath(first: Source, capacity: nat, before: seq<Action>, path: Path, after: seq<Action>, ip: Option<Ip>)
    requires var run := before + [NewPath(Some(path))] + after;
             && FollowsSteadily(Start(first, capacity), run)
             && Possible(Start(first, capacity), before)
             && OpenDatabase(first, run).Some?
    requires var w, h := After(Start(first, capacity), before + [NewPath(Some(path))] + after), After(Start(first, capacity), before).unused;
             && Known(w) && h in w.handles && !w.handles[h].closed && Steady(w, Get(h, ip))
    requires Known(After(Start(first, capacity), before))
             && CompilePath(After(Start(first, capacity), before).natives[After(Start(first, capacity), before).current], Some(path)).1.Ok?
    ensures var run := before + [NewPath(Some(path))] + after;
            Lookup(After(Start(first, capacity), run), After(Start(first, capacity), before).unused, ip).1
            == A.Reference(OpenDatabase(first, run), LatestDatabase(first, run), ip, A.AtPath(path))
  {
    var run, start := before + [NewPath(Some(path))] + after, Start(first, capacity);
    var w0, w, h := After(start, before), After(start, run), After(start, before).unused;
    RunServes(first, capacity, run);
    OpenReaderAlwaysAnswers(first, capacity, run, h, ip);
    PossibleJoin(start, before + [NewPath(Some(path))], after);
    PossibleJoin(start, before, [NewPath(Some(path))]);
    var w1 := Step(w0, NewPath(Some(path)));
    assert After(w0, [NewPath(Some(path))]) == w1;
    HandleAfter(w1, after, h);
    GetPathIsReference(w.natives[w.current], OpenDatabase(first, run), LatestDatabase(first, run), ip, path);
  }
}
