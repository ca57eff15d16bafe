/** Runs over compiled-path handles: each answers for its own path; releases spare the others; and
    exactly when reopening a closed reader is safe. */
module PathRuns {
  import opened Values
  import opened N = Natives
  import opened PathHandles

  /** A run of possible steps. */
  ghost predicate Possible(w: World, run: seq<Action>)
    decreases |run|
  {
    run == [] || (Known(w) && Enabled(w, run[0]) && Possible(Step(w, run[0]), run[1..]))
  }

  ghost function After(w: World, run: seq<Action>): World
    requires Possible(w, run)
    decreases |run|
  {
    if run == [] then w else After(Step(w, run[0]), run[1..])
  }

  /** Each step is prudent. */
  ghost predicate FollowsPrudently(w: World, run: seq<Action>): (follows: bool)
    ensures follows ==> Possible(w, run)
    decreases |run|
  {
    run == [] ||
    (Known(w) && Enabled(w, run[0]) && Prudent(w, run[0]) && FollowsPrudently(Step(w, run[0]), run[1..]))
  }

  /** Each step is careful. */
  ghost predicate Follows(w: World, run: seq<Action>): (follows: bool)
    ensures follows ==> FollowsPrudently(w, run)
    decreases |run|
  {
    run == [] ||
    (Known(w) && Enabled(w, run[0]) && Careful(w, run[0]) && Follows(Step(w, run[0]), run[1..]))
  }

  lemma {:induction false} AlwaysRooted(w: World, run: seq<Action>)
    requires Rooted(w) && IdsFit(w) && FollowsPrudently(w, run)
    ensures Rooted(After(w, run)) && IdsFit(After(w, run))
    decreases |run|
  {
    if run != [] {
      RootedStep(w, run[0]);
      IdsFitStep(w, run[0]);
      AlwaysRooted(Step(w, run[0]), run[1..]);
    }
  }

  // ----- a handle answers for its own path -----

  lemma LookupAnswers(w: World, h: nat, ip: Option<Ip>)
    requires Rooted(w) && h in w.handles && !w.handles[h].closed
    ensures var r := Lookup(w, h, ip).1;
            r.Err? || r == GetPath(w.natives[w.current], ip, Some(w.handles[h].path))
  {
    var handle, n := w.handles[h], w.natives[w.current];
    if handle.native == w.current {
      assert Anchored(w, handle);
    } else {
      assert GivenBack(w, h, ClaimOf(handle)).natives[w.current] == n;
    }
  }

  /** In every prudent run of path(), get, load, reload, swap, close, release and finalizers, an
      unclosed handle evaluates its own path against the current database or raises an error. */
  lemma HandlesAnswerForThemselves(source: Source, capacity: nat, run: seq<Action>, h: nat, ip: Option<Ip>)
    requires FollowsPrudently(Start(source, capacity), run)
    requires var w := After(Start(source, capacity), run);
             Known(w) && h in w.handles && !w.handles[h].closed
    ensures var w := After(Start(source, capacity), run);
            var r := Lookup(w, h, ip).1;
            r.Err? || r == GetPath(w.natives[w.current], ip, Some(w.handles[h].path))
  {
    AlwaysRooted(Start(source, capacity), run);
    LookupAnswers(After(Start(source, capacity), run), h, ip);
  }

  // ----- when no closed reader is reopened, an open reader always answers -----

  /** Careful, and no load or reload on a closed reader at all. */
  ghost predicate Steady(w: World, a: Action)
    requires Known(w)
  {
    Careful(w, a) && (a.Load? && a.database.Ok? ==> w.natives[w.current].source.Some?)
  }

  ghost predicate FollowsSteadily(w: World, run: seq<Action>): (follows: bool)
    ensures follows ==> Follows(w, run)
    decreases |run|
  {
    run == [] ||
    (Known(w) && Enabled(w, run[0]) && Steady(w, run[0]) && FollowsSteadily(Step(w, run[0]), run[1..]))
  }

  /** What a handle's id resolves to on its native reader. */
  ghost function Resolved(w: World, h: nat): Option<Path>
    requires Known(w) && h in w.handles
  {
    var handle := w.handles[h];
    var table := w.natives[handle.native].paths;
    if handle.id in table then Some(table[handle.id]) else None
  }

  ghost predicate ServedAt(w: World, h: nat)
    requires Known(w) && h in w.handles
  {
    !w.handles[h].closed && w.natives[w.handles[h].native].source.Some? ==> Resolved(w, h).Some?
  }

  /** Every unclosed handle on an open native reader finds its id in the table. */
  ghost predicate Served(w: World)
    requires Known(w)
  {
    forall h | h in w.handles :: ServedAt(w, h)
  }

  lemma CloseSparesOthers(w: World, x: nat, y: nat)
    requires Apart(w) && x in w.handles && x != y && y in w.handles && !w.handles[y].closed
    ensures Known(Step(w, CloseHandle(x))) && Resolved(Step(w, CloseHandle(x)), y) == Resolved(w, y)
  {
    StepApart(w, CloseHandle(x));
    assert Claims(w, y, ClaimOf(w.handles[y]));
    if !w.handles[x].closed {
      assert Claims(w, x, ClaimOf(w.handles[x]));
    }
  }

  lemma FinalizeSparesOthers(w: World, x: nat, y: nat)
    requires Apart(w) && Enabled(w, Finalize(x)) && y in w.handles && !w.handles[y].closed
    ensures Known(Step(w, Finalize(x))) && Resolved(Step(w, Finalize(x)), y) == Resolved(w, y)
  {
    StepApart(w, Finalize(x));
    assert Claims(w, y, ClaimOf(w.handles[y]));
    assert Claims(w, x, w.registered[x]);
  }

  lemma GetSparesOthers(w: World, x: nat, ip: Option<Ip>, y: nat)
    requires Apart(w) && x in w.handles && x != y && y in w.handles && !w.handles[y].closed
    requires Careful(w, Get(x, ip))
    ensures Known(Step(w, Get(x, ip))) && Resolved(Step(w, Get(x, ip)), y) == Resolved(w, y)
  {
    StepApart(w, Get(x, ip));
    if !w.handles[x].closed && w.handles[x].native != w.current {
      MoveSparesOthers(w, x, y);
    }
  }

  lemma MoveSparesOthers(w: World, x: nat, y: nat)
    requires Apart(w) && x in w.handles && x != y && y in w.handles && !w.handles[y].closed
    requires !w.handles[x].closed && w.handles[x].native != w.current && Known(Recompile(w, x).0)
    ensures Recompile(w, x).0.handles[y] == w.handles[y]
    ensures Resolved(Recompile(w, x).0, y) == Resolved(w, y)
  {
    assert Claims(w, y, ClaimOf(w.handles[y])) && Anchored(w, w.handles[y]);
    assert Claims(w, x, ClaimOf(w.handles[x]));
  }

  /** Closing, collecting or moving one handle never removes or changes another live handle's path. */
  lemma ReleaseSparesOthers(w: World, a: Action, x: nat, y: nat)
    requires Apart(w) && Enabled(w, a) && Careful(w, a)
    requires a == CloseHandle(x) || a == Finalize(x) || (a.Get? && a.h == x)
    requires x != y && y in w.handles && !w.handles[y].closed
    ensures Known(Step(w, a)) && y in Step(w, a).handles && Step(w, a).handles[y] == w.handles[y]
    ensures Resolved(Step(w, a), y) == Resolved(w, y)
  {
    match a
    case CloseHandle(_) => CloseSparesOthers(w, x, y);
    case Finalize(_) => FinalizeSparesOthers(w, x, y);
    case Get(_, ip) => GetSparesOthers(w, x, ip, y);
  }

  lemma SourcesUntouched(w: World, a: Action, n: nat)
    requires Known(w) && Enabled(w, a) && n in w.natives
    requires a.NewPath? || a.CloseHandle? || a.Finalize? || a.Get?
    ensures n in Step(w, a).natives && Step(w, a).natives[n].source == w.natives[n].source
  {
  }

  lemma RecompiledServed(w: World, h: nat)
    requires Apart(w) && h in w.handles && !w.handles[h].closed && w.handles[h].native != w.current
    requires w.natives[w.current].source.Some? ==> w.natives[w.current].nextPathId < MAX_U32
    ensures var w' := Recompile(w, h).0;
            Known(w') && h in w'.handles && ServedAt(w', h)
  {
    RecompileRooted(w, h);
    assert GivenBack(w, h, ClaimOf(w.handles[h])).natives[w.current] == w.natives[w.current];
  }

  /** Steps that act on one handle leave the others served. */
  lemma HandleStepServes(w: World, a: Action, x: nat)
    requires Apart(w) && Served(w) && Enabled(w, a) && Careful(w, a)
    requires a == CloseHandle(x) || a == Finalize(x) || (a.Get? && a.h == x)
    ensures Known(Step(w, a)) && Served(Step(w, a))
  {
    StepApart(w, a);
    var w' := Step(w, a);
    forall y | y in w'.handles
      ensures ServedAt(w', y)
    {
      if y != x && !w.handles[y].closed {
        ReleaseSparesOthers(w, a, x, y);
        SourcesUntouched(w, a, w.handles[y].native);
        assert ServedAt(w, y);
      } else if y == x && a.Get? && !w.handles[x].closed && w.handles[x].native != w.current {
        RecompiledServed(w, x);
      } else if y == x {
        assert ServedAt(w, y);
      }
    }
  }

  lemma NewPathServes(w: World, path: Option<Path>)
    requires Apart(w) && Served(w)
    ensures Known(Step(w, NewPath(path))) && Served(Step(w, NewPath(path)))
  {
    StepApart(w, NewPath(path));
    var w' := Step(w, NewPath(path));
    forall y | y in w'.handles
      ensures ServedAt(w', y)
    {
      if y in w.handles {
        assert ServedAt(w, y);
      }
    }
  }

  lemma ReaderStepServes(w: World, a: Action)
    requires Apart(w) && Served(w) && Enabled(w, a) && Steady(w, a)
    requires a.Swap? || a.Load? || a.CloseReader? || a.Collect?
    ensures Known(Step(w, a)) && Served(Step(w, a))
  {
    StepApart(w, a);
    var w' := Step(w, a);
    forall y | y in w'.handles
      ensures ServedAt(w', y)
    {
      assert ServedAt(w, y);
    }
  }

  lemma ServedStep(w: World, a: Action)
    requires Apart(w) && Served(w) && Enabled(w, a) && Steady(w, a)
    ensures Known(Step(w, a)) && Served(Step(w, a))
  {
    match a
    case NewPath(path) => NewPathServes(w, path);
    case Get(h, ip) => HandleStepServes(w, a, h);
    case CloseHandle(h) => HandleStepServes(w, a, h);
    case Finalize(h) => HandleStepServes(w, a, h);
    case _ => ReaderStepServes(w, a);
  }

  lemma {:induction false} AlwaysServed(w: World, run: seq<Action>)
    requires Apart(w) && Served(w) && FollowsSteadily(w, run)
    ensures Apart(After(w, run)) && Served(After(w, run))
    decreases |run|
  {
    if run != [] {
      StepApart(w, run[0]);
      ServedStep(w, run[0]);
      AlwaysServed(Step(w, run[0]), run[1..]);
    }
  }

  /** When no closed reader is ever reopened, an unclosed handle on an open reader answers exactly as
      a fresh lookup of its path does: swaps, other handles and finalizers are invisible to it. */
  lemma OpenReaderAlwaysAnswers(source: Source, capacity: nat, run: seq<Action>, h: nat, ip: Option<Ip>)
    requires FollowsSteadily(Start(source, capacity), run)
    requires var w := After(Start(source, capacity), run);
             && Known(w) && h in w.handles && !w.handles[h].closed && Steady(w, Get(h, ip))
             && w.natives[w.current].source.Some?
    ensures var w := After(Start(source, capacity), run);
            Lookup(w, h, ip).1 == GetPath(w.natives[w.current], ip, Some(w.handles[h].path))
  {
    AlwaysServed(Start(source, capacity), run);
    var w := After(Start(source, capacity), run);
    LookupServed(w, h, ip);
  }

  lemma LookupServed(w: World, h: nat, ip: Option<Ip>)
    requires Apart(w) && Served(w) && h in w.handles && !w.handles[h].closed && Careful(w, Get(h, ip))
    requires w.natives[w.current].source.Some?
    ensures Lookup(w, h, ip).1 == GetPath(w.natives[w.current], ip, Some(w.handles[h].path))
  {
    var handle, n := w.handles[h], w.natives[w.current];
    if handle.native == w.current {
      assert Anchored(w, handle) && ServedAt(w, h);
    } else {
      assert GivenBack(w, h, ClaimOf(handle)).natives[w.current] == n;
    }
  }

  // ----- exactly when reopening and moving are safe -----

  /** No unclosed handle resolves to another path. */
  ghost predicate NoAlias(w: World)
    requires Known(w)
  {
    forall h | h in w.handles && !w.handles[h].closed && Resolved(w, h).Some? ::
      Resolved(w, h) == Some(w.handles[h].path)
  }

  /** No prudent continuation ever makes a handle resolve to another path. */
  ghost predicate SafeFrom(w: World) {
    forall run | FollowsPrudently(w, run) :: Known(After(w, run)) && NoAlias(After(w, run))
  }

  lemma RootedIsSafe(w: World)
    requires Rooted(w) && IdsFit(w)
    ensures SafeFrom(w)
  {
    forall run | FollowsPrudently(w, run)
      ensures Known(After(w, run)) && NoAlias(After(w, run))
    {
      AlwaysRooted(w, run);
      RootedNoAlias(After(w, run));
    }
  }

  lemma RootedNoAlias(w: World)
    requires Rooted(w)
    ensures NoAlias(w)
  {
    forall h | h in w.handles && !w.handles[h].closed && Resolved(w, h).Some?
      ensures Resolved(w, h) == Some(w.handles[h].path)
    {
      assert Anchored(w, w.handles[h]);
    }
  }

  /** The current reader compiles the same path n more times. */
  function Compile(path: Path, n: nat): seq<Action> {
    seq(n, _ => NewPath(Some(path)))
  }

  /** Compiling a path again and again reaches any id not yet issued, and leaves old handles alone. */
  lemma {:induction false} CompileReachesId(w: World, path: Path, n: nat, h: nat)
    requires Known(w) && h in w.handles && h < w.unused
    requires w.natives[w.current].source.Some? && w.natives[w.current].nextPathId + n <= MAX_U32
    ensures Follows(w, Compile(path, n))
    ensures var w' := After(w, Compile(path, n));
            && Known(w') && w'.current == w.current
            && h in w'.handles && w'.handles[h] == w.handles[h]
            && w'.natives[w.current].source == w.natives[w.current].source
            && w'.natives[w.current].nextPathId == w.natives[w.current].nextPathId + n
            && forall i | w.natives[w.current].nextPathId <= i < w.natives[w.current].nextPathId + n ::
                 i in w'.natives[w.current].paths && w'.natives[w.current].paths[i] == path
    ensures forall i | i in w.natives[w.current].paths && i < w.natives[w.current].nextPathId ::
              var table := After(w, Compile(path, n)).natives[w.current].paths;
              i in table && table[i] == w.natives[w.current].paths[i]
    decreases n
  {
    if n > 0 {
      var w1 := Step(w, NewPath(Some(path)));
      CompileReachesId(w1, path, n - 1, h);
      assert Compile(path, n)[0] == NewPath(Some(path)) && Compile(path, n)[1..] == Compile(path, n - 1);
    }
  }

  lemma UnsafeReopenAliases(w: World, source: Source, h: nat)
    requires Rooted(w) && IdsFit(w) && w.natives[w.current].source.None?
    requires h in w.handles && !w.handles[h].closed && w.handles[h].native == w.current
    requires w.handles[h].id >= w.natives[w.current].nextPathId
    ensures !SafeFrom(Step(w, Load(Ok(source))))
  {
    var w' := Step(w, Load(Ok(source)));
    var other := w.handles[h].path + [Index(0)];
    var run := Compile(other, w.handles[h].id - w.natives[w.current].nextPathId + 1);
    CompileReachesId(w', other, |run|, h);
    assert Resolved(After(w', run), h) == Some(other);
  }

  /** In any state a prudent run can reach with the reader closed: reopening it is safe for every
      prudent continuation exactly when each unclosed handle on it has an id that reader issued.
      Otherwise some continuation makes a handle resolve to a path compiled later for another. */
  lemma ReopenIsSafeIff(first: Source, capacity: nat, past: seq<Action>, source: Source)
    requires FollowsPrudently(Start(first, capacity), past)
    requires var w := After(Start(first, capacity), past);
             Known(w) && w.natives[w.current].source.None?
    ensures var w := After(Start(first, capacity), past);
            ReopenSafe(w) <==> SafeFrom(Step(w, Load(Ok(source))))
  {
    AlwaysRooted(Start(first, capacity), past);
    var w := After(Start(first, capacity), past);
    if ReopenSafe(w) {
      LoadRooted(w, Ok(source));
      IdsFitStep(w, Load(Ok(source)));
      RootedIsSafe(Step(w, Load(Ok(source))));
    } else {
      var h :| h in w.handles && !w.handles[h].closed && w.handles[h].native == w.current
               && w.handles[h].id >= w.natives[w.current].nextPathId;
      UnsafeReopenAliases(w, source, h);
    }
  }

  lemma UnsafeMoveAliases(w: World, h: nat, ip: Option<Ip>)
    requires Known(w) && Moves(w, Get(h, ip)) && w.natives[w.current].nextPathId == MAX_U32 && !MoveSafe(w, h)
    ensures !SafeFrom(Step(w, Get(h, ip)))
  {
    var w' := Step(w, Get(h, ip));
    ExhaustedMove(w, h, ip);
    assert Known(w') ==> Resolved(w', h) == Some(w.natives[w.current].paths[w.handles[h].id]);
    assert FollowsPrudently(w', []);
  }

  /** In any state a prudent run can reach with the reader open and its ids used up: a lookup that moves
      a handle there is safe for every prudent continuation exactly when the reader stores no other path
      under the id the handle has. */
  lemma ExhaustedMoveIsSafeIff(first: Source, capacity: nat, past: seq<Action>, h: nat, ip: Option<Ip>)
    requires FollowsPrudently(Start(first, capacity), past)
    requires var w := After(Start(first, capacity), past);
             Known(w) && Moves(w, Get(h, ip)) && w.natives[w.current].nextPathId == MAX_U32
    ensures var w := After(Start(first, capacity), past);
            MoveSafe(w, h) <==> SafeFrom(Step(w, Get(h, ip)))
  {
    AlwaysRooted(Start(first, capacity), past);
    var w := After(Start(first, capacity), past);
    if MoveSafe(w, h) {
      GetRooted(w, h, ip);
      IdsFitStep(w, Get(h, ip));
      RootedIsSafe(Step(w, Get(h, ip)));
    } else {
      UnsafeMoveAliases(w, h, ip);
    }
  }

  // ----- what the hypotheses rule out -----

  /** path(p), then a watched or asynchronous reload, then close(). The handle is number 1. */
  function SwappedAndClosed(s0: Source, s1: Source, p: Path): (w: World)
    ensures Known(w) && 1 in w.handles && w.handles[1] == Handle(p, 0, 0, false) && w.current == 2
    ensures w.natives[2] == N.Close(Opened(s1, 0)) && w.unused == 3
  {
    Step(Step(Step(Start(s0, 0), NewPath(Some(p))), Swap(s1, 0)), CloseReader)
  }

  /** A load that reopens the reader, then another path compiled. */
  function ReopenedWith(w: World, s2: Source, q: Path): World
    requires Known(w)
  {
    Step(Step(w, Load(Ok(s2))), NewPath(Some(q)))
  }

  /** Swap, close, a failed get, load, and another path compiled: the first handle now evaluates the
      other path, whatever the two paths and the databases are. */
  lemma ReopenedReaderAliases(s0: Source, s1: Source, s2: Source, p: Path, q: Path, ip: Option<Ip>)
    ensures var w := SwappedAndClosed(s0, s1, p);
            && Lookup(w, 1, ip).1 == Err(Closed)
            && Known(Lookup(w, 1, ip).0)
            && var w' := ReopenedWith(Lookup(w, 1, ip).0, s2, q);
               && Known(w') && 1 in w'.handles && w'.handles[1].path == p && !w'.handles[1].closed
               && Lookup(w', 1, ip).1 == GetPath(w'.natives[w'.current], ip, Some(q))
  {
    FailedGetStrands(SwappedAndClosed(s0, s1, p), ip);
    StrandedAliases(Lookup(SwappedAndClosed(s0, s1, p), 1, ip).0, s2, q, ip);
  }

  lemma FailedGetStrands(w: World, ip: Option<Ip>)
    requires Known(w) && 1 in w.handles && !w.handles[1].closed && w.handles[1].native != w.current
    requires w.natives[w.current].source.None?
    ensures var (w', r) := Lookup(w, 1, ip);
            && r == Err(Closed) && Known(w') && 1 in w'.handles && w'.current == w.current
            && w'.handles[1] == w.handles[1].(native := w.current)
            && w'.natives[w.current] == w.natives[w.current]
            && w'.unused == w.unused
  {
  }

  lemma StrandedAliases(w: World, s2: Source, q: Path, ip: Option<Ip>)
    requires Known(w) && 1 in w.handles && w.unused > 1
    requires w.handles[1].native == w.current && !w.handles[1].closed
    requires w.handles[1].id == w.natives[w.current].nextPathId < MAX_U32
    ensures var w' := ReopenedWith(w, s2, q);
            && Known(w') && 1 in w'.handles && w'.handles[1] == w.handles[1]
            && Lookup(w', 1, ip).1 == GetPath(w'.natives[w'.current], ip, Some(q))
  {
  }

  /** A lookup that has to move a handle to a reader with no ids left fails, and leaves the handle on
      that reader with its old id. */
  lemma ExhaustedMove(w: World, h: nat, ip: Option<Ip>)
    requires Known(w) && Moves(w, Get(h, ip)) && w.natives[w.current].nextPathId == MAX_U32
    ensures var (w', r) := Lookup(w, h, ip);
            && r == Err(TooManyPaths) && h in w'.handles && w'.current == w.current && w'.current in w'.natives
            && w'.handles[h] == Noted(w.handles[h], w.current)
            && w'.natives[w.current] == w.natives[w.current]
  {
    assert GivenBack(w, h, ClaimOf(w.handles[h])).natives[w.current] == w.natives[w.current];
  }

  /** path(p), an asynchronous reload, then path(q) until the new reader's ids are used up. */
  function Exhausting(s1: Source, p: Path, q: Path): seq<Action> {
    [NewPath(Some(p))] + ([Swap(s1, 0)] + Compile(q, MAX_U32))
  }

  lemma FollowsFirst(w: World, a: Action, run: seq<Action>)
    requires Known(w) && Enabled(w, a) && Careful(w, a) && Follows(Step(w, a), run)
    ensures Follows(w, [a] + run) && After(w, [a] + run) == After(Step(w, a), run)
  {
    assert ([a] + run)[1..] == run;
  }

  lemma SwappedOnce(s0: Source, s1: Source, p: Path)
    ensures var w1 := Step(Start(s0, 0), NewPath(Some(p)));
            && Known(w1) && Enabled(w1, Swap(s1, 0)) && Careful(w1, Swap(s1, 0))
            && var w2 := Step(w1, Swap(s1, 0));
               && Known(w2) && 1 in w2.handles && w2.handles[1] == Handle(p, 0, 0, false)
               && w2.current == 2 && w2.unused == 3 && w2.natives[2] == Opened(s1, 0)
  {
  }

  lemma ExhaustingFollows(s0: Source, s1: Source, p: Path, q: Path)
    ensures Follows(Start(s0, 0), Exhausting(s1, p, q))
    ensures var w := After(Start(s0, 0), Exhausting(s1, p, q));
            && Known(w) && 1 in w.handles && w.handles[1] == Handle(p, 0, 0, false) && w.current == 2
            && w.natives[2].source == Some(s1) && w.natives[2].nextPathId == MAX_U32
            && 0 in w.natives[2].paths && w.natives[2].paths[0] == q
  {
    var w1 := Step(Start(s0, 0), NewPath(Some(p)));
    SwappedOnce(s0, s1, p);
    CompileReachesId(Step(w1, Swap(s1, 0)), q, MAX_U32, 1);
    FollowsFirst(w1, Swap(s1, 0), Compile(q, MAX_U32));
    FollowsFirst(Start(s0, 0), NewPath(Some(p)), [Swap(s1, 0)] + Compile(q, MAX_U32));
  }

  /** In that run the first handle's next lookup fails, and the one after evaluates the other path,
      whatever the two paths and the databases are. */
  lemma ExhaustedIdsAlias(s0: Source, s1: Source, p: Path, q: Path, ip: Option<Ip>)
    ensures Follows(Start(s0, 0), Exhausting(s1, p, q))
    ensures var w := After(Start(s0, 0), Exhausting(s1, p, q));
            && Known(w) && 1 in w.handles && w.handles[1].path == p && !w.handles[1].closed
            && Lookup(w, 1, ip).1 == Err(TooManyPaths)
            && var w' := Step(w, Get(1, ip));
               && Known(w') && 1 in w'.handles && w'.handles[1].path == p && w'.natives[w'.current].source == Some(s1)
               && Lookup(w', 1, ip).1 == GetPath(w'.natives[w'.current], ip, Some(q))
  {
    ExhaustingFollows(s0, s1, p, q);
    var w := After(Start(s0, 0), Exhausting(s1, p, q));
    ExhaustedMove(w, 1, ip);
    KnownAfterGet(w, 1, ip);
  }

  lemma KnownAfterGet(w: World, h: nat, ip: Option<Ip>)
    requires Known(w) && h in w.handles
    ensures Known(Step(w, Get(h, ip)))
  {
  }
}
