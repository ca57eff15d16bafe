/** Compiled-path handles over native readers that are swapped, closed and reloaded underneath them. */
module PathHandles {
  import opened Values
  import opened N = Natives

  // ----- the fields of one PathLookup -----

  /** A PathLookup object. N refers to a native reader. */
  datatype Handle<N> = Handle(path: Path, native: N, id: nat, closed: bool)

  /** A finalizer registration: which id to release on which native reader. */
  datatype Registration<N> = Registration(native: N, id: nat)

  /** A new object, whose id is still to come. */
  function Blank<N>(path: Path, native: N): Handle<N> {
    Handle(path, native, 0, false)
  }

  /** The start of _compileFor: the reader is noted before compilePath can fail. */
  function Noted<N>(h: Handle<N>, native: N): Handle<N> {
    h.(native := native)
  }

  /** All of _compileFor, once compilePath has given an id. */
  function Compiled<N>(h: Handle<N>, native: N, id: nat): Handle<N> {
    Noted(h, native).(id := id)
  }

  function Shut<N>(h: Handle<N>): Handle<N> {
    h.(closed := true)
  }

  function ClaimOf<N>(h: Handle<N>): Registration<N> {
    Registration(h.native, h.id)
  }

  function Registered<K, N>(held: map<K, Registration<N>>, k: K, h: Handle<N>): map<K, Registration<N>> {
    held[k := ClaimOf(h)]
  }

  function Unregistered<K, N>(held: map<K, Registration<N>>, k: K): map<K, Registration<N>> {
    held - {k}
  }

  // ----- the whole system -----

  datatype World = World(
    natives: map<nat, Native>,
    current: nat,                             // the Reader's native reader
    handles: map<nat, Handle<nat>>,           // handles the program can still reach
    registered: map<nat, Registration<nat>>,  // finalizer registrations, by handle
    unused: nat)

  datatype Action =
    | NewPath(path: Option<Path>)  // reader.path(path); None is a path the parser rejects
    | Get(h: nat, ip: Option<Ip>)
    | CloseHandle(h: nat)
    | Collect(h: nat)              // the program drops its last reference to the handle
    | Finalize(h: nat)             // the finalizer of a dropped handle runs
    | Swap(source: Source, capacity: nat)
    | Load(database: Result<Source>)
    | CloseReader

  function Start(source: Source, capacity: nat): World {
    World(map[0 := Opened(source, capacity)], 0, map[], map[], 1)
  }

  predicate Known(w: World) {
    && w.current in w.natives
    && (forall h | h in w.handles :: w.handles[h].native in w.natives)
    && (forall h | h in w.registered :: w.registered[h].native in w.natives)
  }

  function SetNative(w: World, n: nat, s: Native): World {
    w.(natives := w.natives[n := s])
  }

  function Released(w: World, r: Registration<nat>): World
    requires r.native in w.natives
  {
    SetNative(w, r.native, ReleasePath(w.natives[r.native], r.id))
  }

  /** The current reader has compiled the path of handle h, new or old, which now points at it. */
  function Issued(w: World, h: nat, handle: Handle<nat>): World
    requires Known(w)
  {
    var n := w.natives[w.current];
    var handle' := Compiled(handle, w.current, n.nextPathId);
    SetNative(w, w.current, CompilePath(n, Some(handle.path)).0).(
    handles := w.handles[h := handle'], registered := Registered(w.registered, h, handle'),
    unused := if h < w.unused then w.unused else h + 1)
  }

  /** A failed compilation leaves the handle with the new reader and its old id. */
  function Stranded(w: World, h: nat): World
    requires h in w.handles
  {
    w.(handles := w.handles[h := Noted(w.handles[h], w.current)])
  }

  /** Gives back what a handle or a finalizer claims, and its registration. */
  function GivenBack(w: World, h: nat, r: Registration<nat>): World
    requires r.native in w.natives
  {
    Released(w.(registered := Unregistered(w.registered, h)), r)
  }

  /** Moves a handle to the current native reader, and says whether that worked. */
  function Recompile(w: World, h: nat): (World, Result<nat>)
    requires Known(w) && h in w.handles
  {
    var handle := w.handles[h];
    var w1 := GivenBack(w, h, ClaimOf(handle));
    var compiled := CompilePath(w1.natives[w.current], Some(handle.path)).1;
    (if compiled.Ok? then Issued(w1, h, handle) else Stranded(w1, h), compiled)
  }

  /** A new native reader becomes the current one. */
  function Installed(w: World, s: Native): World {
    w.(natives := w.natives[w.unused := s], current := w.unused, unused := w.unused + 1)
  }

  predicate Enabled(w: World, a: Action) {
    match a
    case Get(h, _) => h in w.handles
    case CloseHandle(h) => h in w.handles
    case Collect(h) => h in w.handles
    case Finalize(h) => h in w.registered && h !in w.handles
    case Swap(_, _) => w.current in w.natives && w.natives[w.current].source.Some?
    case _ => true
  }

  function Lookup(w: World, h: nat, ip: Option<Ip>): (World, Result<Js>)
    requires Known(w) && h in w.handles
  {
    var handle := w.handles[h];
    if handle.closed then (w, Err(HandleClosed))
    else if handle.native == w.current then (w, GetCompiledPath(w.natives[handle.native], ip, handle.id))
    else
      var (w', compiled) := Recompile(w, h);
      if compiled.Err? then (w', Err(compiled.fault))
      else (w', GetCompiledPath(w'.natives[w'.current], ip, compiled.value))
  }

  function Step(w: World, a: Action): World
    requires Known(w) && Enabled(w, a)
  {
    match a
    case NewPath(path) =>
      if CompilePath(w.natives[w.current], path).1.Err? then w
      else Issued(w, w.unused, Blank(path.value, w.current))
    case Get(h, ip) => Lookup(w, h, ip).0
    case CloseHandle(h) =>
      if w.handles[h].closed then w
      else GivenBack(w.(handles := w.handles[h := Shut(w.handles[h])]), h, ClaimOf(w.handles[h]))
    case Collect(h) => w.(handles := w.handles - {h})
    case Finalize(h) => GivenBack(w, h, w.registered[h])
    case Swap(source, capacity) =>
      Installed(SetNative(w, w.current, N.Close(w.natives[w.current])), Opened(source, capacity))
    case Load(database) => SetNative(w, w.current, N.Load(w.natives[w.current], database).0)
    case CloseReader => SetNative(w, w.current, N.Close(w.natives[w.current]))
  }

  // ----- what keeps a handle's id from resolving to another path -----

  /** The handle's id was issued on its native reader and, if stored there, stores the handle's path;
      or it was not issued there, which only a failed recompilation on a closed reader leaves behind. */
  ghost predicate Anchored(w: World, h: Handle<nat>)
    requires h.native in w.natives
  {
    var n := w.natives[h.native];
    if h.id < n.nextPathId then h.id in n.paths ==> n.paths[h.id] == h.path
    else n.source.None?
  }

  /** Numbers are fresh, table ids were issued, and a reader that is closed or swapped out has an
      empty table. */
  ghost predicate InRange(w: World) {
    && Known(w)
    && (forall n | n in w.natives :: n < w.unused)
    && (forall h | h in w.handles :: h < w.unused)
    && (forall h | h in w.registered :: h < w.unused)
    && (forall n, i | n in w.natives && i in w.natives[n].paths :: i < w.natives[n].nextPathId)
    && (forall n | n in w.natives && w.natives[n].source.None? :: w.natives[n].paths == map[])
    && (forall n | n in w.natives && n != w.current :: w.natives[n].source.None?)
    && (forall h | h in w.registered :: w.registered[h].id < w.natives[w.registered[h].native].nextPathId)
  }

  /** Every unclosed handle is anchored. */
  ghost predicate Rooted(w: World) {
    InRange(w) && forall h | h in w.handles && !w.handles[h].closed :: Anchored(w, w.handles[h])
  }

  /** Ids stay below the 32-bit limit. */
  ghost predicate IdsFit(w: World) {
    && (forall n | n in w.natives :: w.natives[n].nextPathId <= MAX_U32)
    && (forall h | h in w.handles :: w.handles[h].id < MAX_U32)
  }

  lemma IdsFitStep(w: World, a: Action)
    requires Known(w) && IdsFit(w) && Enabled(w, a)
    ensures IdsFit(Step(w, a))
  {
  }

  /** Each unclosed handle on the current reader has an id that reader issued. */
  ghost predicate ReopenSafe(w: World)
    requires Known(w)
  {
    forall h | h in w.handles && !w.handles[h].closed && w.handles[h].native == w.current ::
      w.handles[h].id < w.natives[w.current].nextPathId
  }

  /** The current reader stores no other path under the id the handle has now. */
  ghost predicate MoveSafe(w: World, h: nat)
    requires Known(w) && h in w.handles
  {
    var table, handle := w.natives[w.current].paths, w.handles[h];
    handle.id in table ==> table[handle.id] == handle.path
  }

  /** The reader is open and a handle has to follow it there. */
  predicate Moves(w: World, a: Action)
    requires Known(w)
  {
    && a.Get? && a.h in w.handles && !w.handles[a.h].closed
    && w.handles[a.h].native != w.current && w.natives[w.current].source.Some?
  }

  /** A closed reader is reopened, and a handle moved to a reader whose ids have run out, only when
      that is safe. */
  ghost predicate Prudent(w: World, a: Action)
    requires Known(w)
  {
    && (a.Load? && a.database.Ok? && w.natives[w.current].source.None? ==> ReopenSafe(w))
    && (Moves(w, a) && w.natives[w.current].nextPathId >= MAX_U32 ==> MoveSafe(w, a.h))
  }

  lemma ReleasedRooted(w: World, r: Registration<nat>)
    requires Rooted(w) && r.native in w.natives
    ensures Rooted(Released(w, r))
  {
    var w' := Released(w, r);
    assert InRange(w') by {
      assert forall n, i | n in w'.natives && i in w'.natives[n].paths :: i in w.natives[n].paths;
    }
    forall h | h in w'.handles && !w'.handles[h].closed
      ensures Anchored(w', w'.handles[h])
    {
      assert Anchored(w, w.handles[h]);
    }
  }

  lemma GivenBackRooted(w: World, h: nat, r: Registration<nat>)
    requires Rooted(w) && r.native in w.natives
    ensures Rooted(GivenBack(w, h, r))
  {
    ReleasedRooted(w.(registered := Unregistered(w.registered, h)), r);
  }

  /** A handle left behind by a failed compilation points at a closed reader with an empty table, or at
      one that issues no more ids. */
  lemma StrandedRooted(w: World, h: nat)
    requires Rooted(w) && h in w.handles
    requires w.natives[w.current].source.Some? ==> w.handles[h].id < w.natives[w.current].nextPathId && MoveSafe(w, h)
    ensures Rooted(Stranded(w, h))
  {
  }

  lemma IssuedInRange(w: World, h: nat, handle: Handle<nat>)
    requires InRange(w) && h <= w.unused
    requires w.natives[w.current].source.Some? && w.natives[w.current].nextPathId < MAX_U32
    ensures InRange(Issued(w, h, handle))
  {
  }

  lemma IssuedRooted(w: World, h: nat, handle: Handle<nat>)
    requires Rooted(w) && h <= w.unused
    requires w.natives[w.current].source.Some? && w.natives[w.current].nextPathId < MAX_U32
    ensures Rooted(Issued(w, h, handle))
  {
    IssuedInRange(w, h, handle);
    var w' := Issued(w, h, handle);
    forall x | x in w'.handles && !w'.handles[x].closed
      ensures Anchored(w', w'.handles[x])
    {
      if x != h {
        assert Anchored(w, w.handles[x]);
      }
    }
  }

  lemma RecompileRooted(w: World, h: nat)
    requires Rooted(w) && IdsFit(w) && h in w.handles && !w.handles[h].closed && w.handles[h].native != w.current
    requires w.natives[w.current].source.Some? && w.natives[w.current].nextPathId >= MAX_U32 ==> MoveSafe(w, h)
    ensures Rooted(Recompile(w, h).0)
  {
    var handle := w.handles[h];
    var w1 := GivenBack(w, h, ClaimOf(handle));
    GivenBackRooted(w, h, ClaimOf(handle));
    assert w1.natives[w.current] == w.natives[w.current];
    if w.natives[w.current].source.Some? && w.natives[w.current].nextPathId < MAX_U32 {
      IssuedRooted(w1, h, handle);
    } else {
      StrandedRooted(w1, h);
    }
  }

  lemma NativeClosedRooted(w: World)
    requires Rooted(w)
    ensures Rooted(SetNative(w, w.current, N.Close(w.natives[w.current])))
  {
  }

  lemma AddNativeRooted(w: World, s: Native)
    requires Rooted(w) && w.natives[w.current].source.None? && s.paths == map[]
    ensures Rooted(Installed(w, s))
  {
    var w' := Installed(w, s);
    assert forall n | n in w.natives :: w'.natives[n] == w.natives[n];
    forall h | h in w'.handles && !w'.handles[h].closed
      ensures Anchored(w', w'.handles[h])
    {
      assert Anchored(w, w.handles[h]);
    }
  }

  lemma SwapRooted(w: World, source: Source, capacity: nat)
    requires Rooted(w) && Enabled(w, Swap(source, capacity))
    ensures Rooted(Step(w, Swap(source, capacity)))
  {
    NativeClosedRooted(w);
    AddNativeRooted(SetNative(w, w.current, N.Close(w.natives[w.current])), Opened(source, capacity));
  }

  lemma LoadRooted(w: World, database: Result<Source>)
    requires Rooted(w) && Prudent(w, Load(database))
    ensures Rooted(Step(w, Load(database)))
  {
    SourceChangedRooted(w, N.Load(w.natives[w.current], database).0);
  }

  lemma SourceChangedRooted(w: World, s: Native)
    requires Rooted(w)
    requires s.paths == w.natives[w.current].paths && s.nextPathId == w.natives[w.current].nextPathId
    requires s.source.None? ==> w.natives[w.current].source.None?
    requires s.source.Some? && w.natives[w.current].source.None? ==> ReopenSafe(w)
    ensures Rooted(SetNative(w, w.current, s))
  {
    var w' := SetNative(w, w.current, s);
    forall h | h in w'.handles && !w'.handles[h].closed
      ensures Anchored(w', w'.handles[h])
    {
      assert Anchored(w, w.handles[h]);
    }
  }

  lemma NewPathRooted(w: World, path: Option<Path>)
    requires Rooted(w)
    ensures Rooted(Step(w, NewPath(path)))
  {
    if CompilePath(w.natives[w.current], path).1.Ok? {
      IssuedRooted(w, w.unused, Blank(path.value, w.current));
    }
  }

  lemma CloseHandleRooted(w: World, h: nat)
    requires Rooted(w) && h in w.handles
    ensures Rooted(Step(w, CloseHandle(h)))
  {
    if !w.handles[h].closed {
      GivenBackRooted(w.(handles := w.handles[h := Shut(w.handles[h])]), h, ClaimOf(w.handles[h]));
    }
  }

  lemma GetRooted(w: World, h: nat, ip: Option<Ip>)
    requires Rooted(w) && IdsFit(w) && h in w.handles && Prudent(w, Get(h, ip))
    ensures Rooted(Lookup(w, h, ip).0)
  {
    if !w.handles[h].closed && w.handles[h].native != w.current {
      RecompileRooted(w, h);
    }
  }

  lemma CollectRooted(w: World, h: nat)
    requires Rooted(w)
    ensures Rooted(w.(handles := w.handles - {h}))
  {
  }

  /** Every prudent step keeps every unclosed handle anchored. */
  lemma RootedStep(w: World, a: Action)
    requires Rooted(w) && IdsFit(w) && Enabled(w, a) && Prudent(w, a)
    ensures Rooted(Step(w, a))
  {
    match a
    case NewPath(path) => NewPathRooted(w, path);
    case Get(h, ip) => GetRooted(w, h, ip);
    case CloseHandle(h) => CloseHandleRooted(w, h);
    case Collect(h) => CollectRooted(w, h);
    case Finalize(h) => GivenBackRooted(w, h, w.registered[h]);
    case Swap(source, capacity) => SwapRooted(w, source, capacity);
    case Load(database) => LoadRooted(w, database);
    case CloseReader => NativeClosedRooted(w);
  }

  // ----- what keeps handles apart -----

  /** Who may still release an id: an unclosed handle, or a registered finalizer. */
  ghost predicate Claims(w: World, x: nat, r: Registration<nat>) {
    || (x in w.handles && !w.handles[x].closed && ClaimOf(w.handles[x]) == r)
    || (x in w.registered && w.registered[x] == r)
  }

  ghost predicate Stored(w: World, r: Registration<nat>) {
    r.native in w.natives && r.id in w.natives[r.native].paths
  }

  /** A reachable handle's registration is for its own id. */
  ghost predicate RegisteredFor(w: World) {
    forall h | h in w.handles && h in w.registered :: !w.handles[h].closed && w.registered[h] == ClaimOf(w.handles[h])
  }

  /** No stored id has two claimants. */
  ghost predicate Unshared(w: World) {
    && RegisteredFor(w)
    && (forall x, y, r | Claims(w, x, r) && Claims(w, y, r) && x != y :: !Stored(w, r))
  }

  ghost predicate Apart(w: World) {
    Rooted(w) && IdsFit(w) && Unshared(w)
  }

  /** Prudent, and no handle moves at all to a reader whose ids have run out. */
  ghost predicate Careful(w: World, a: Action)
    requires Known(w)
  {
    Prudent(w, a) && (Moves(w, a) ==> w.natives[w.current].nextPathId < MAX_U32)
  }

  /** With no new claims to stored ids, none is shared. */
  lemma FewerClaims(w: World, w': World)
    requires Unshared(w) && RegisteredFor(w')
    requires forall x, q | Claims(w', x, q) && Stored(w', q) :: Claims(w, x, q) && Stored(w, q)
    ensures Unshared(w')
  {
  }

  lemma GivenBackUnshared(w: World, h: nat, r: Registration<nat>)
    requires Unshared(w) && r.native in w.natives
    ensures Unshared(GivenBack(w, h, r))
  {
    FewerClaims(w, GivenBack(w, h, r));
  }

  lemma StrandedUnshared(w: World, h: nat)
    requires Apart(w) && h in w.handles && h !in w.registered && w.natives[w.current].source.None?
    ensures Unshared(Stranded(w, h))
  {
    FewerClaims(w, Stranded(w, h));
  }

  lemma OpenClaimsAreIssued(w: World, x: nat, r: Registration<nat>)
    requires Apart(w) && Claims(w, x, r) && r.native == w.current && w.natives[w.current].source.Some?
    ensures r.id < w.natives[w.current].nextPathId
  {
  }

  lemma IssuedClaims(w: World, h: nat, handle: Handle<nat>, x: nat, q: Registration<nat>)
    requires Apart(w) && h !in w.registered
    requires w.natives[w.current].source.Some? && w.natives[w.current].nextPathId < MAX_U32
    requires Claims(Issued(w, h, handle), x, q)
    ensures var mine := Registration(w.current, w.natives[w.current].nextPathId);
            if x == h then q == mine else Claims(w, x, q) && q != mine
  {
    if x != h && q == Registration(w.current, w.natives[w.current].nextPathId) {
      OpenClaimsAreIssued(w, x, q);
    }
  }

  lemma IssuedUnshared(w: World, h: nat, handle: Handle<nat>)
    requires Apart(w) && h !in w.registered && !handle.closed
    requires w.natives[w.current].source.Some? && w.natives[w.current].nextPathId < MAX_U32
    ensures Unshared(Issued(w, h, handle))
  {
    var w' := Issued(w, h, handle);
    var mine := Registration(w.current, w.natives[w.current].nextPathId);
    forall x, y, q | Claims(w', x, q) && Claims(w', y, q) && x != y
      ensures !Stored(w', q)
    {
      IssuedClaims(w, h, handle, x, q);
      IssuedClaims(w, h, handle, y, q);
      assert Stored(w', q) ==> Stored(w, q) || q == mine;
    }
  }

  lemma RecompileUnshared(w: World, h: nat)
    requires Apart(w) && h in w.handles && !w.handles[h].closed && w.handles[h].native != w.current
    requires w.natives[w.current].source.Some? ==> w.natives[w.current].nextPathId < MAX_U32
    ensures Unshared(Recompile(w, h).0)
  {
    var claim := ClaimOf(w.handles[h]);
    var w1 := GivenBack(w, h, claim);
    GivenBackRooted(w, h, claim);
    GivenBackUnshared(w, h, claim);
    assert Apart(w1) && w1.natives[w.current] == w.natives[w.current];
    if w.natives[w.current].source.Some? {
      IssuedUnshared(w1, h, w.handles[h]);
    } else {
      StrandedUnshared(w1, h);
    }
  }

  lemma NewPathUnshared(w: World, path: Option<Path>)
    requires Apart(w)
    ensures Unshared(Step(w, NewPath(path)))
  {
    if CompilePath(w.natives[w.current], path).1.Ok? {
      IssuedUnshared(w, w.unused, Blank(path.value, w.current));
    }
  }

  lemma CloseHandleUnshared(w: World, h: nat)
    requires Apart(w) && h in w.handles
    ensures Unshared(Step(w, CloseHandle(h)))
  {
    FewerClaims(w, Step(w, CloseHandle(h)));
  }

  lemma GetUnshared(w: World, h: nat, ip: Option<Ip>)
    requires Apart(w) && h in w.handles && Careful(w, Get(h, ip))
    ensures Unshared(Lookup(w, h, ip).0)
  {
    if !w.handles[h].closed && w.handles[h].native != w.current {
      RecompileUnshared(w, h);
    }
  }

  lemma CollectUnshared(w: World, h: nat)
    requires Unshared(w)
    ensures Unshared(w.(handles := w.handles - {h}))
  {
    FewerClaims(w, w.(handles := w.handles - {h}));
  }

  /** What happens to the current reader leaves every claim as it is and stores nothing. */
  lemma ReaderStepUnshared(w: World, a: Action)
    requires Apart(w) && Enabled(w, a) && (a.Swap? || a.Load? || a.CloseReader?)
    ensures Unshared(Step(w, a))
  {
    var w' := Step(w, a);
    assert w'.handles == w.handles && w'.registered == w.registered;
    forall x, q | Claims(w', x, q) && Stored(w', q)
      ensures Claims(w, x, q) && Stored(w, q)
    {
      assert q.native in w.natives;
    }
    FewerClaims(w, w');
  }

  /** Every step of the program or the collector keeps the handles apart. */
  lemma StepApart(w: World, a: Action)
    requires Apart(w) && Enabled(w, a) && Careful(w, a)
    ensures Apart(Step(w, a))
  {
    RootedStep(w, a);
    IdsFitStep(w, a);
    StepUnshared(w, a);
  }

  lemma StepUnshared(w: World, a: Action)
    requires Apart(w) && Enabled(w, a) && Careful(w, a)
    ensures Unshared(Step(w, a))
  {
    match a
    case NewPath(path) => NewPathUnshared(w, path);
    case Get(h, ip) => GetUnshared(w, h, ip);
    case CloseHandle(h) => CloseHandleUnshared(w, h);
    case Collect(h) => CollectUnshared(w, h);
    case Finalize(h) => GivenBackUnshared(w, h, w.registered[h]);
    case _ => ReaderStepUnshared(w, a);
  }
}
