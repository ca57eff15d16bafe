/** A network cursor is a snapshot of the database open at its creation, whatever happens to the reader. */
module CursorSnapshots {
  import opened Values
  import opened Natives
  import opened NativeRuns
  import opened Networks
  import opened NetworkItems
  import opened NativeReaders

  /** What can follow the creation of a cursor: any call on the reader, a swap for another native
      reader, or a page taken from the cursor. */
  datatype Event =
    | Call(op: Op)
    | Swap(source: Source, capacity: nat)
    | Page(limit: nat)

  /** The pages asked for in a script, by size. */
  function Limits(script: seq<Event>): (limits: seq<nat>)
    ensures |limits| <= |script|
  {
    if script == [] then []
    else if script[0].Page? then [script[0].limit] + Limits(script[1..])
    else Limits(script[1..])
  }

  /** Any call on the native reader object does what the call does on values. */
  method Perform(native: NativeReader, op: Op) returns (answer: Result<Js>)
    requires native.Valid()
    modifies native.Repr()
    ensures native.Valid()
    ensures (native.State(), answer) == Apply(old(native.State()), op)
  {
    answer := Ok(Null);
    match op
    case OpGet(ip) => answer := native.Get(ip);
    case OpGetWithPrefix(ip) => answer := native.GetWithPrefixLength(ip);
    case OpGetMany(ips) => answer := native.GetMany(ips);
    case OpGetPath(ip, path) => answer := native.GetPath(ip, path);
    case OpCompilePath(path) =>
      var id := native.CompilePath(path);
      answer := if id.Ok? then Ok(Primitive(id.value)) else Err(id.fault);
    case OpReleasePath(id) => native.ReleasePath(id);
    case OpGetCompiledPath(ip, id) => answer := native.GetCompiledPath(ip, id);
    case OpClearCache => native.ClearCache();
    case OpLoad(database) => answer := native.Load(database);
    case OpClose => native.Close();
  }

  /** One event: the reader goes on as it was, or is closed and replaced; only a page moves the cursor. */
  method PlayOne(native: NativeReader, cursor: NativeNetworkCursor, event: Event)
      returns (current: NativeReader, page: Option<Result<seq<Js>>>)
    requires native.Valid() && cursor !in native.Repr()
    modifies native.Repr(), cursor
    ensures current.Valid() && cursor !in current.Repr()
    ensures current == native || fresh(current.Repr())
    ensures !event.Page? ==> page == None && cursor.Rest() == old(cursor.Rest())
    ensures event.Page? ==> page.Some? && (page.value, cursor.Rest()) == PageAt(old(cursor.Rest()), event.limit)
  {
    current, page := native, None;
    match event
    case Call(op) =>
      var _ := Perform(native, op);
    case Swap(source, capacity) =>
      native.Close();
      current := new NativeReader(source, capacity);
    case Page(limit) =>
      var taken := cursor.NextPage(limit);
      page := Some(taken);
  }

  /** Over any script the cursor gives the pages of the rows it had when the script began. */
  method Play(native: NativeReader, cursor: NativeNetworkCursor, script: seq<Event>)
      returns (pages: seq<Result<seq<Js>>>)
    requires native.Valid() && cursor !in native.Repr()
    modifies native.Repr(), cursor
    ensures (pages, cursor.Rest()) == PagesOf(old(cursor.Rest()), Limits(script))
    decreases |script|
  {
    if script == [] {
      return [];
    }
    var current, page := PlayOne(native, cursor, script[0]);
    pages := Play(current, cursor, script[1..]);
    if page.Some? {
      pages := [page.value] + pages;
    }
  }

  /** A cursor over any query, with or without a path, gives the pages of the database open at its
      creation, whatever calls, loads, swaps and closes come between creation and pages. */
  method SnapshotPages(native: NativeReader, query: Query, path: Option<Option<Path>>, script: seq<Event>)
      returns (r: Result<seq<Result<seq<Js>>>>)
    requires native.Valid()
    modifies native.Repr()
    ensures
      if path == Some(None) then r == Err(InvalidPath)
      else if old(native.reader).None? then r == Err(Closed)
      else
        var source := old(native.reader).value;
        match source.walk(query) {
          case Err(fault) => r == Err(fault)
          case Ok(walk) =>
            r.Ok? && PagesShow(r.value, Limits(script), source, if path.None? then None else path.value, walk)
        }
  {
    ghost var source := native.reader;
    var cursor := native.NetworkCursor(query, path);
    if cursor.Err? {
      return Err(cursor.fault);
    }
    var pages := Play(native, cursor.value, script);
    r := Ok(pages);
    PagesShowNetworks(source.value, if path.None? then None else path.value, source.value.walk(query).value, Limits(script));
  }
}
