/** The JavaScript Reader object: each uninterrupted stretch of its code, proved to make the change to
    its fields that module Reloads describes, and to close exactly the native reader it should. */
module Readers {
  import opened Values
  import opened N = Natives
  import opened NativeReaders
  import R = Reloads

  class Reader {
    const filepath: Option<string>  // None when the reader was made from a buffer
    var reader: NativeReader
    var get: NativeReader  // the native reader the bound get() calls
    var metadata: Source
    var watchFilepath: Option<string>
    var watchReloadActive: bool
    var watchReloadPending: bool
    var lastReloadError: Option<Fault>

    ghost function Fields(): R.Fields<NativeReader, Source>
      reads this
    {
      R.Fields(reader, get, metadata, watchFilepath.Some?, watchReloadActive, watchReloadPending, lastReloadError)
    }

    ghost predicate Valid()
      reads this, reader, reader.Repr()
    {
      reader.Valid()
    }

    /** The native reader is open, its get bound, its metadata read; nothing is watched yet. */
    constructor (native: NativeReader, filepath: Option<string>)
      requires native.Valid() && native.reader.Some?
      ensures Valid() && this.filepath == filepath
      ensures Fields() == R.Fields(native, native, native.reader.value, false, false, false, None)
      ensures watchFilepath == None
    {
      this.filepath := filepath;
      reader, get, metadata := native, native, native.reader.value;
      watchFilepath := None;
      watchReloadActive, watchReloadPending, lastReloadError := false, false, None;
    }

    /** open() with watchForUpdates. */
    method Watch(path: string)
      modifies this
      ensures Fields() == old(Fields()).(watching := true) && watchFilepath == Some(path)
    {
      watchFilepath := Some(path);
    }

    predicate Closed()
      reads this, reader
    {
      reader.reader.None?
    }

    /** A watcher event. `schedule` says that a drain was chained onto the promise. */
    method QueueWatchedReload() returns (schedule: bool)
      modifies this
      ensures Fields() == R.Queued(old(Fields())) && watchFilepath == old(watchFilepath)
      ensures schedule == !old(watchReloadActive)
    {
      watchReloadPending := true;
      if watchReloadActive {
        return false;
      }
      watchReloadActive := true;
      schedule := true;
    }

    /** One pass of the drain's loop test: start an attempt, or run the finally block. */
    method DrainTurn() returns (attempt: bool, schedule: bool)
      modifies this
      ensures attempt == old(watchReloadPending) && watchFilepath == old(watchFilepath)
      ensures Fields() == if attempt then R.Taken(old(Fields())) else R.Ended(old(Fields()))
      ensures !schedule
    {
      if watchReloadPending {
        watchReloadPending := false;
        return true, false;
      }
      attempt := false;
      schedule := DrainFinally();
    }

    /** The drain's finally block: a change pending even now schedules another drain. */
    method DrainFinally() returns (schedule: bool)
      modifies this
      ensures Fields() == R.Ended(old(Fields())) && watchFilepath == old(watchFilepath)
      ensures schedule == old(watchReloadPending)
    {
      watchReloadActive := false;
      schedule := false;
      if watchReloadPending {
        schedule := QueueWatchedReload();
      }
    }

    /** Whether a watched reload of this file may still go ahead. */
    method StillWanted(filepath: string) returns (wanted: bool)
      ensures wanted <==> !Closed() && watchFilepath == Some(filepath)
    {
      wanted := !(Closed() || watchFilepath != Some(filepath));
    }

    /** The rest of a watched reload after its open: install and call the hook, or discard. */
    method WatchedOpenResumed(filepath: string, result: Result<NativeReader>, hook: bool) returns (callHook: bool)
      requires Valid()
      requires result.Ok? ==> Replaceable(result.value)
      modifies this, reader.Repr(), if result.Ok? then result.value.Repr() else {}
      ensures Valid()
      ensures watchFilepath == old(watchFilepath)
      ensures result.Err? ==>
                && Fields() == old(Fields()).(lastError := Some(result.fault)) && !callHook
                && reader.State() == old(reader.State())
      ensures result.Ok? && !(old(!Closed()) && watchFilepath == Some(filepath)) ==>
                && Fields() == old(Fields()) && !callHook
                && reader.State() == old(reader.State())
                && result.value.State() == N.Close(old(result.value.State()))
      ensures result.Ok? && old(!Closed()) && watchFilepath == Some(filepath) ==>
                && Fields() == R.Swapped(old(Fields()), result.value, old(result.value.reader.value))
                && result.value.State() == old(result.value.State())
                && old(reader).State() == N.Close(old(reader.State()))
                && callHook == hook
    {
      if result.Err? {
        lastReloadError := Some(result.fault);
        return false;
      }
      var wanted := StillWanted(filepath);
      Settle(result.value, wanted);
      if !wanted {
        return false;
      }
      callHook := hook && !Closed() && watchFilepath == Some(filepath);
    }

    /** Installs a replacement, or closes it when it is not wanted. */
    method Settle(replacement: NativeReader, wanted: bool)
      requires Valid() && Replaceable(replacement)
      modifies this, reader.Repr(), replacement.Repr()
      ensures Valid() && watchFilepath == old(watchFilepath)
      ensures !wanted ==>
                && Fields() == old(Fields())
                && reader.State() == old(reader.State())
                && replacement.State() == N.Close(old(replacement.State()))
      ensures wanted ==>
                && Fields() == R.Swapped(old(Fields()), replacement, old(replacement.reader.value))
                && replacement.State() == old(replacement.State())
                && old(reader).State() == N.Close(old(reader.State()))
    {
      if wanted {
        ReplaceNativeReader(replacement);
      } else {
        replacement.Close();
      }
    }

    method HookReturned(threw: bool)
      modifies this
      ensures Fields() == if threw then old(Fields()).(lastError := Some(HookFailed)) else old(Fields())
      ensures watchFilepath == old(watchFilepath)
    {
      if threw {
        lastReloadError := Some(HookFailed);
      }
    }

    /** A native reader just opened: open, and sharing nothing with the current one. */
    ghost predicate Replaceable(replacement: NativeReader)
      reads this, reader, reader.Repr(), replacement, replacement.Repr()
    {
      && replacement != reader && replacement.Repr() !! reader.Repr()
      && replacement.Valid() && replacement.reader.Some?
    }

    /** Swaps the replacement in and closes the previous native reader. */
    method ReplaceNativeReader(replacement: NativeReader)
      requires Valid() && Replaceable(replacement)
      modifies this, reader.Repr()
      ensures Valid()
      ensures Fields() == R.Swapped(old(Fields()), replacement, replacement.reader.value)
      ensures watchFilepath == old(watchFilepath)
      ensures replacement.State() == old(replacement.State())
      ensures old(reader).State() == N.Close(old(reader.State()))
    {
      var previous := reader;
      Install(replacement);
      previous.Close();
    }

    method Install(replacement: NativeReader)
      requires replacement.reader.Some?
      modifies this
      ensures Fields() == R.Swapped(old(Fields()), replacement, replacement.reader.value)
      ensures watchFilepath == old(watchFilepath)
    {
      reader := replacement;
      get := replacement;
      metadata := replacement.reader.value;
      lastReloadError := None;
    }

    /** reloadAsync() once its open is done. */
    method ReloadAsyncResumed(result: Result<NativeReader>) returns (fault: Option<Fault>)
      requires Valid()
      requires result.Ok? ==> Replaceable(result.value)
      modifies this, reader.Repr(), if result.Ok? then result.value.Repr() else {}
      ensures Valid()
      ensures watchFilepath == old(watchFilepath)
      ensures result.Err? ==> fault == Some(result.fault)
      ensures result.Ok? && old(Closed()) ==>
                fault == Some(ReaderClosed) && result.value.State() == N.Close(old(result.value.State()))
      ensures fault.Some? ==>
                && Fields() == old(Fields()).(lastError := fault)
                && reader.State() == old(reader.State())
      ensures result.Ok? && !old(Closed()) ==>
                && fault == None
                && Fields() == R.Swapped(old(Fields()), result.value, old(result.value.reader.value))
                && result.value.State() == old(result.value.State())
                && old(reader).State() == N.Close(old(reader.State()))
    {
      fault := None;
      if result.Err? {
        fault := Some(result.fault);
      } else {
        var wanted := !Closed();
        Settle(result.value, wanted);
        fault := if wanted then None else Some(ReaderClosed);
      }
      if fault.Some? {
        lastReloadError := fault;
      }
    }

    /** load(buffer): the database is what the buffer decodes to, or a failure. */
    method Load(database: Result<Source>) returns (fault: Option<Fault>)
      requires Valid()
      modifies this, reader.Repr()
      ensures Valid() && watchFilepath == old(watchFilepath)
      ensures reader.State() == N.Load(old(reader.State()), database).0
      ensures match database {
                case Ok(source) =>
                  fault == None && Fields() == old(Fields()).(metadata := source, lastError := None)
                case Err(f) =>
                  fault == Some(f) && Fields() == old(Fields()).(lastError := Some(f))
              }
    {
      var r := reader.Load(database);
      if r.Ok? {
        metadata := database.value;
        lastReloadError := None;
        fault := None;
      } else {
        lastReloadError := Some(r.fault);
        fault := Some(r.fault);
      }
    }

    /** reload(), with what the file opens as; a reader without a file refuses and records nothing. */
    method Reload(file: Result<Source>) returns (fault: Option<Fault>)
      requires Valid()
      modifies this, reader.Repr()
      ensures Valid() && watchFilepath == old(watchFilepath)
      ensures filepath.None? ==>
                fault == Some(BufferBacked) && Fields() == old(Fields()) && reader.State() == old(reader.State())
      ensures filepath.Some? ==>
                && reader.State() == N.Load(old(reader.State()), file).0
                && match file {
                     case Ok(source) =>
                       fault == None && Fields() == old(Fields()).(metadata := source, lastError := None)
                     case Err(f) =>
                       fault == Some(f) && Fields() == old(Fields()).(lastError := Some(f))
                   }
    {
      if filepath.None? {
        return Some(BufferBacked);
      }
      fault := Load(file);
    }

    /** reloadAsync() up to its await: only a reader with a file goes on to open it. */
    method StartReloadAsync() returns (file: Result<string>)
      ensures file == if filepath.Some? then Ok(filepath.value) else Err(BufferBacked)
    {
      if filepath.None? {
        return Err(BufferBacked);
      }
      file := Ok(filepath.value);
    }

    method Close()
      requires Valid()
      modifies this, reader.Repr()
      ensures Valid() && Closed()
      ensures Fields() == R.Shut(old(Fields()))
      ensures reader.State() == N.Close(old(reader.State()))
    {
      watchFilepath := None;
      watchReloadPending := false;
      reader.Close();
    }
  }
}
