/** The native reader object, whose methods make the changes that module Natives describes. */
module NativeReaders {
  import opened Values
  import opened RecordCaches
  import opened CacheHistory
  import opened Networks
  import opened N = Natives

  /** A batch in progress: the values so far, in front of the batch still to do. */
  ghost function Behind(values: seq<Js>, rest: (Option<Cache>, Result<seq<Js>>)): (Option<Cache>, Result<seq<Js>>) {
    (rest.0, Before(values, rest.1))
  }

  lemma BatchStep(source: Source, cache: Option<Cache>, values: seq<Js>, ips: seq<Ip>, i: nat)
    requires (cache.Some? ==> cache.value.capacity > 0) && i < |ips|
    ensures var (cache1, first) := Record(source, cache, ips[i]);
            Behind(values, Records(source, cache, ips[i..])) ==
            if first.Err? then (cache1, Err(first.fault))
            else Behind(values + [first.value], Records(source, cache1, ips[i + 1..]))
  {
    var (cache1, first) := Record(source, cache, ips[i]);
    assert ips[i..][1..] == ips[i + 1..];
    if first.Ok? {
      BeforeTwice(values, [first.value], Records(source, cache1, ips[i + 1..]).1);
    }
  }

  class NativeReader {
    var reader: Option<Source>
    const cache: RecordCache?
    var paths: map<nat, Path>
    var nextPathId: nat
    var ipVersion: nat

    ghost function Repr(): set<object> {
      {this} + if cache == null then {} else cache.Repr()
    }

    ghost function State(): Native
      reads Repr()
    {
      Native(reader, if cache == null then None else Some(cache.State()), paths, nextPathId, ipVersion)
    }

    ghost predicate Valid()
      reads Repr()
    {
      Coherent(State()) && (cache != null ==> cache.Valid())
    }

    constructor (source: Source, capacity: nat)
      ensures Valid() && fresh(Repr())
      ensures State() == Opened(source, capacity)
    {
      reader := Some(source);
      if capacity == 0 {
        cache := null;
      } else {
        var c := new RecordCache(capacity);
        cache := c;
      }
      paths := map[];
      nextPathId := 0;
      ipVersion := source.ipVersion;
    }

    /** The get-then-put protocol over the cache. */
    method LookupRecord(source: Source, ip: Ip) returns (r: Result<Js>)
      requires Valid()
      modifies if cache == null then {} else cache.Repr()
      ensures Valid()
      ensures Record(source, old(State()).cache, ip) == (State().cache, r)
    {
      match source.find(ip)
      case Err(fault) => return Err(fault);
      case Ok(None) => return Ok(Null);
      case Ok(Some(offset)) =>
        if cache == null {
          return source.decode(offset);
        }
        ProbedSound(cache.State(), offset);
        var hit := cache.Get(offset);
        if hit.Some? {
          return Ok(hit.value);
        }
        r := source.decode(offset);
        if r.Ok? {
          cache.Put(offset, r.value);
        }
    }

    method Get(ip: Option<Ip>) returns (r: Result<Js>)
      requires Valid()
      modifies Repr()
      ensures Valid()
      ensures (State(), r) == N.Get(old(State()), ip)
    {
      if ip.None? {
        return Err(InvalidIp);
      }
      if !Allows(ipVersion, ip.value) {
        return Err(WrongVersion);
      }
      if reader.None? {
        return Err(Closed);
      }
      r := LookupRecord(reader.value, ip.value);
    }

    method GetWithPrefixLength(ip: Option<Ip>) returns (r: Result<Js>)
      requires Valid()
      modifies Repr()
      ensures Valid()
      ensures (State(), r) == GetWithPrefix(old(State()), ip)
    {
      if ip.None? {
        return Err(InvalidIp);
      }
      if !Allows(ipVersion, ip.value) {
        return Err(WrongVersion);
      }
      if reader.None? {
        return Err(Closed);
      }
      var found := reader.value.find(ip.value);
      if found.Err? {
        return Err(found.fault);
      }
      var network := reader.value.network(ip.value);
      if network.Err? {
        return Err(network.fault);
      }
      r := LookupRecord(reader.value, ip.value);
      if r.Ok? {
        r := Ok(Array([r.value, Primitive(PrefixFor(ip.value, network.value))]));
      }
    }

    method GetMany(ips: seq<Option<Ip>>) returns (r: Result<Js>)
      requires Valid()
      modifies Repr()
      ensures Valid()
      ensures (State(), r) == N.GetMany(old(State()), ips)
    {
      var parsed := [];
      for i := 0 to |ips|
        invariant forall j | 0 <= j < i :: ips[j].Some?
        invariant parsed == Addresses(ips[..i])
      {
        if ips[i].None? {
          return Err(InvalidIp);
        }
        parsed := parsed + [ips[i].value];
      }
      assert ips[..|ips|] == ips;
      for i := 0 to |parsed|
        invariant forall j | 0 <= j < i :: Allows(ipVersion, parsed[j])
      {
        if !Allows(ipVersion, parsed[i]) {
          assert ips[i].value == parsed[i];
          return Err(WrongVersion);
        }
      }
      assert forall i | 0 <= i < |ips| :: ips[i].value == parsed[i];
      if reader.None? {
        return Err(Closed);
      }
      r := CollectResults(reader.value, parsed);
    }

    /** Looks the addresses up in order, stopping at the first failure. */
    method CollectResults(source: Source, ips: seq<Ip>) returns (r: Result<Js>)
      requires Valid() && reader == Some(source)
      modifies Repr()
      ensures Valid()
      ensures var (cache', rs) := Records(source, old(State()).cache, ips);
              && State() == old(State()).(cache := cache')
              && r == if rs.Err? then Err(rs.fault) else Ok(Array(rs.value))
    {
      var values: seq<Js> := [];
      ghost var all := Records(source, State().cache, ips);
      assert ips[0..] == ips;
      BeforeTwice([], [], all.1);
      for i := 0 to |ips|
        invariant Valid() && State() == old(State()).(cache := State().cache)
        invariant all == Behind(values, Records(source, State().cache, ips[i..]))
      {
        BatchStep(source, State().cache, values, ips, i);
        var value := LookupRecord(source, ips[i]);
        if value.Err? {
          return Err(value.fault);
        }
        values := values + [value.value];
      }
      BeforeTwice(values, [], Ok([]));
      r := Ok(Array(values));
    }

    method GetPath(ip: Option<Ip>, path: Option<Path>) returns (r: Result<Js>)
      requires Valid()
      ensures r == N.GetPath(State(), ip, path)
    {
      if ip.None? {
        return Err(InvalidIp);
      }
      if path.None? {
        return Err(InvalidPath);
      }
      if !Allows(ipVersion, ip.value) {
        return Err(WrongVersion);
      }
      if reader.None? {
        return Err(Closed);
      }
      r := PathValue(reader.value, ip.value, path.value);
    }

    method CompilePath(path: Option<Path>) returns (r: Result<nat>)
      requires Valid()
      modifies this
      ensures Valid()
      ensures (State(), r) == N.CompilePath(old(State()), path)
    {
      if reader.None? {
        return Err(Closed);
      }
      if path.None? {
        return Err(InvalidPath);
      }
      if nextPathId + 1 > MAX_U32 {
        return Err(TooManyPaths);
      }
      paths := paths[nextPathId := path.value];
      r := Ok(nextPathId);
      nextPathId := nextPathId + 1;
    }

    method ReleasePath(id: nat)
      requires Valid()
      modifies this
      ensures Valid()
      ensures State() == N.ReleasePath(old(State()), id)
    {
      paths := paths - {id};
    }

    method GetCompiledPath(ip: Option<Ip>, id: nat) returns (r: Result<Js>)
      requires Valid()
      ensures r == N.GetCompiledPath(State(), ip, id)
    {
      if ip.None? {
        return Err(InvalidIp);
      }
      if !Allows(ipVersion, ip.value) {
        return Err(WrongVersion);
      }
      if reader.None? {
        return Err(Closed);
      }
      if id !in paths {
        return Err(UnknownPathId);
      }
      r := PathValue(reader.value, ip.value, paths[id]);
    }

    method ClearCache()
      requires Valid()
      modifies Repr()
      ensures Valid()
      ensures State() == CacheCleared(old(State()))
    {
      if cache != null {
        cache.Clear();
      }
    }

    method Load(database: Result<Source>) returns (r: Result<Js>)
      requires Valid()
      modifies Repr()
      ensures Valid()
      ensures (State(), r) == N.Load(old(State()), database)
    {
      match database
      case Err(fault) => r := Err(fault);
      case Ok(source) =>
        ClearCache();
        ipVersion := source.ipVersion;
        reader := Some(source);
        r := Ok(Null);
    }

    method Close()
      requires Valid()
      modifies Repr()
      ensures Valid()
      ensures State() == N.Close(old(State()))
    {
      ClearCache();
      paths := map[];
      reader := None;
    }

    /** Opens a cursor over the database open now. None for the path walks whole records; a path the
        parser rejects is Some(None). */
    method NetworkCursor(query: Query, path: Option<Option<Path>>) returns (r: Result<NativeNetworkCursor>)
      requires Valid()
      ensures path.Some? && path.value.None? ==> r == Err(InvalidPath)
      ensures !(path.Some? && path.value.None?) && reader.None? ==> r == Err(Closed)
      ensures !(path.Some? && path.value.None?) && reader.Some? ==>
                match reader.value.walk(query) {
                  case Err(fault) => r == Err(fault)
                  case Ok(walk) =>
                    && r.Ok? && fresh(r.value)
                    && r.value.Rest() == Rows(reader.value, if path.None? then None else path.value, walk)
                }
    {
      if path.Some? && path.value.None? {
        return Err(InvalidPath);
      }
      if reader.None? {
        return Err(Closed);
      }
      var walk := reader.value.walk(query);
      if walk.Err? {
        return Err(walk.fault);
      }
      var cursor := new NativeNetworkCursor(
        reader.value, if path.None? then None else path.value, cache != null, walk.value);
      r := Ok(cursor);
    }
  }
}
