/** The PathLookup object and its finalizer registry, proved to make the changes to handles,
    registrations and native path tables that module PathHandles describes. */
module PathLookups {
  import opened Values
  import opened N = Natives
  import opened NativeReaders
  import opened Readers
  import H = PathHandles

  /** The FinalizationRegistry: what to release when an object is collected. */
  class PathFinalizer {
    var held: map<object, H.Registration<NativeReader>>

    constructor ()
      ensures held == map[]
    {
      held := map[];
    }

    method Register(target: object, native: NativeReader, id: nat)
      modifies this
      ensures held == old(held)[target := H.Registration(native, id)]
    {
      held := held[target := H.Registration(native, id)];
    }

    method Unregister(target: object)
      modifies this
      ensures held == H.Unregistered(old(held), target)
    {
      held := held - {target};
    }

    /** The callback for a collected object: what was registered for it is given back. */
    method Run(target: object)
      requires target in held && held[target].native.Valid()
      modifies this, held[target].native
      ensures held == H.Unregistered(old(held), target)
      ensures var claim := old(held[target]);
              claim.native.Valid() && claim.native.State() == N.ReleasePath(old(held[target].native.State()), claim.id)
    {
      var claim := held[target];
      held := held - {target};
      claim.native.ReleasePath(claim.id);
    }
  }

  class PathLookup {
    const reader: Reader
    const finalizer: PathFinalizer
    const path: Path
    var nativeReader: NativeReader
    var pathId: nat
    var closed: bool

    ghost function State(): H.Handle<NativeReader>
      reads this
    {
      H.Handle(path, nativeReader, pathId, closed)
    }

    ghost predicate Valid()
      reads this, reader, reader.reader, reader.reader.Repr(), nativeReader, nativeReader.Repr()
    {
      reader.Valid() && nativeReader.Valid()
    }

    constructor (reader: Reader, finalizer: PathFinalizer, path: Path, id: nat)
      requires reader.Valid()
      modifies finalizer
      ensures Valid() && fresh(this)
      ensures this.reader == reader && this.finalizer == finalizer
      ensures State() == H.Compiled(H.Blank(path, reader.reader), reader.reader, id)
      ensures finalizer.held == H.Registered(old(finalizer.held), this, State())
    {
      this.reader, this.finalizer, this.path := reader, finalizer, path;
      nativeReader, pathId, closed := reader.reader, id, false;
      new;
      finalizer.Register(this, nativeReader, id);
    }

    /** The rest of _compileFor: the reader is noted first, the id only if compilePath succeeds. */
    method CompileFor(native: NativeReader) returns (fault: Option<Fault>)
      requires Valid() && native == reader.reader
      modifies this, native, finalizer
      ensures Valid()
      ensures var (s, compiled) := N.CompilePath(old(native.State()), Some(path));
              && native.State() == s
              && match compiled {
                   case Ok(id) =>
                     && fault == None && State() == H.Compiled(old(State()), native, id)
                     && finalizer.held == H.Registered(old(finalizer.held), this, State())
                   case Err(f) =>
                     && fault == Some(f) && State() == H.Noted(old(State()), native)
                     && finalizer.held == old(finalizer.held)
                 }
    {
      nativeReader := native;
      var compiled := native.CompilePath(Some(path));
      if compiled.Err? {
        return Some(compiled.fault);
      }
      pathId := compiled.value;
      finalizer.Register(this, native, pathId);
      fault := None;
    }

    /** Nothing of this object, its registration or the native readers it uses has changed. */
    twostate predicate Kept()
      reads this, finalizer, reader, reader.reader, reader.reader.Repr(), nativeReader, nativeReader.Repr()
    {
      && State() == old(State()) && finalizer.held == old(finalizer.held)
      && nativeReader.State() == old(nativeReader.State())
      && reader.reader.State() == old(reader.reader.State())
    }

    /** The handle has moved from the previous native reader to the current one: its id there is given
        back, and a new one is registered if there is one to have. */
    twostate predicate Moved(previous: NativeReader)
      reads this, finalizer, reader, reader.reader, reader.reader.Repr(), previous, previous.Repr()
    {
      && previous.State() == N.ReleasePath(old(previous.State()), old(pathId))
      && var (s, compiled) := N.CompilePath(old(reader.reader.State()), Some(path));
         && reader.reader.State() == s
         && match compiled {
              case Ok(id) =>
                && State() == H.Compiled(old(State()), reader.reader, id)
                && finalizer.held == H.Registered(H.Unregistered(old(finalizer.held), this), this, State())
              case Err(_) =>
                && State() == H.Noted(old(State()), reader.reader)
                && finalizer.held == H.Unregistered(old(finalizer.held), this)
            }
    }

    /** Follows the reader to its current native reader, giving back the id on the old one. */
    method EnsureCompiled() returns (fault: Option<Fault>)
      requires Valid()
      modifies this, nativeReader, reader.reader, finalizer
      ensures Valid()
      ensures if old(closed || nativeReader == reader.reader) then Kept() else Moved(old(nativeReader))
      ensures
        if old(closed) then fault == Some(HandleClosed)
        else if old(nativeReader) == reader.reader then fault == None
        else
          match N.CompilePath(old(reader.reader.State()), Some(path)).1 {
            case Ok(_) => fault == None
            case Err(f) => fault == Some(f)
          }
    {
      if closed {
        return Some(HandleClosed);
      }
      if nativeReader != reader.reader {
        finalizer.Unregister(this);
        nativeReader.ReleasePath(pathId);
        fault := CompileFor(reader.reader);
        return;
      }
      fault := None;
    }

    /** A lookup answers for this handle's path whenever its id stores that path, and after a move
        exactly as a fresh lookup of the path on the current reader. */
    method Get(ip: Option<Ip>) returns (r: Result<Js>)
      requires Valid()
      modifies this, nativeReader, reader.reader, finalizer
      ensures Valid()
      ensures if old(closed || nativeReader == reader.reader) then Kept() else Moved(old(nativeReader))
      ensures old(closed) ==> r == Err(HandleClosed)
      ensures !old(closed) && old(nativeReader) == reader.reader ==>
                r == N.GetCompiledPath(old(nativeReader.State()), ip, old(pathId))
      ensures !old(closed) && old(nativeReader) != reader.reader ==>
                match N.CompilePath(old(reader.reader.State()), Some(path)).1 {
                  case Ok(_) => r == N.GetPath(old(reader.reader.State()), ip, Some(path))
                  case Err(fault) => r == Err(fault)
                }
    {
      var fault := EnsureCompiled();
      if fault.Some? {
        return Err(fault.value);
      }
      r := nativeReader.GetCompiledPath(ip, pathId);
    }

    method Close()
      requires Valid()
      modifies this, nativeReader, finalizer
      ensures Valid()
      ensures old(closed) ==>
                && State() == old(State()) && nativeReader.State() == old(nativeReader.State())
                && finalizer.held == old(finalizer.held)
      ensures !old(closed) ==>
                && State() == H.Shut(old(State()))
                && nativeReader.State() == N.ReleasePath(old(nativeReader.State()), pathId)
                && finalizer.held == H.Unregistered(old(finalizer.held), this)
    {
      if !closed {
        finalizer.Unregister(this);
        nativeReader.ReleasePath(pathId);
        closed := true;
      }
    }
  }

  /** reader.path(path): a handle, or the error compilePath raises; then no handle exists. */
  method OpenPath(reader: Reader, finalizer: PathFinalizer, path: Option<Path>) returns (r: Result<PathLookup>)
    requires reader.Valid()
    modifies reader.reader, finalizer
    ensures reader.Valid()
    ensures var (s, compiled) := N.CompilePath(old(reader.reader.State()), path);
            && reader.reader.State() == s
            && match compiled {
                 case Ok(id) =>
                   && r.Ok? && fresh(r.value) && r.value.Valid() && r.value.reader == reader
                   && r.value.State() == H.Compiled(H.Blank(path.value, reader.reader), reader.reader, id)
                   && finalizer.held == H.Registered(old(finalizer.held), r.value, r.value.State())
                 case Err(fault) => r == Err(fault) && finalizer.held == old(finalizer.held)
               }
  {
    var compiled := reader.reader.CompilePath(path);
    if compiled.Err? {
      return Err(compiled.fault);
    }
    var handle := new PathLookup(reader, finalizer, path.value, compiled.value);
    r := Ok(handle);
  }
}
