/** One native reader on values: a database source, the record cache over it, and the table of
    compiled paths, with each native call as a function of that state. */
module Natives {
  import opened Values
  import opened Lru
  import opened RecordCaches
  import opened CacheHistory

  datatype Ip = V4(bits: nat) | V6(bits: nat)

  datatype PathElement = Key(name: string) | Index(index: nat) | IndexFromEnd(index: nat)
  type Path = seq<PathElement>

  datatype Network = Network(isV6: bool, prefix: nat, text: seq<nat>)

  /** One step of a network walk: a network and where its record is, if it has one. */
  datatype Found = Found(network: Network, offset: Option<nat>)

  /** A network query: an optional CIDR block and the three iteration options. */
  datatype Query = Query(cidr: Option<Network>, aliased: bool, withoutData: bool, skipEmpty: bool)

  /** An opened database. The MaxMind DB format itself is behind these functions. */
  datatype Source = Source(
    version: nat,  // which state of the database file this is
    ipVersion: nat,
    find: Ip -> Result<Option<nat>>,
    network: Ip -> Result<Network>,
    decode: nat -> Result<Js>,
    decodePath: (nat, Path) -> Result<Js>,
    walk: Query -> Result<seq<Result<Found>>>)

  datatype Native = Native(
    source: Option<Source>,  // None once closed
    cache: Option<Cache>,
    paths: map<nat, Path>,
    nextPathId: nat,
    ipVersion: nat)

  const MAX_U32 := 0xffff_ffff

  function Opened(source: Source, capacity: nat): Native {
    Native(Some(source), if capacity == 0 then None else Some(Fresh(capacity)), map[], 0, source.ipVersion)
  }

  /** What every native call keeps: the address family matches the open database, every stored path
      has an id already issued, the id counter fits 32 bits, and the cache is sound. */
  ghost predicate Coherent(s: Native) {
    && (s.source.Some? ==> s.ipVersion == s.source.value.ipVersion)
    && (forall id | id in s.paths :: id < s.nextPathId)
    && s.nextPathId <= MAX_U32
    && (s.cache.Some? ==> Sound(s.cache.value))
  }

  // ----- lookups -----

  predicate Allows(ipVersion: nat, ip: Ip) {
    ipVersion == 4 ==> ip.V4?
  }

  /** The checks every lookup makes first, in order: the text, the address family, the database. */
  function Admit(s: Native, ip: Option<Ip>): Result<Source> {
    if ip.None? then Err(InvalidIp)
    else if !Allows(s.ipVersion, ip.value) then Err(WrongVersion)
    else if s.source.None? then Err(Closed)
    else Ok(s.source.value)
  }

  /** A full-record lookup, through the cache when there is one. */
  function Record(source: Source, cache: Option<Cache>, ip: Ip): (r: (Option<Cache>, Result<Js>))
    requires cache.Some? ==> cache.value.capacity > 0
    ensures r.0.Some? == cache.Some? && (cache.Some? ==> r.0.value.capacity == cache.value.capacity)
  {
    match source.find(ip)
    case Err(fault) => (cache, Err(fault))
    case Ok(None) => (cache, Ok(Null))
    case Ok(Some(offset)) =>
      match cache
      case None => (None, source.decode(offset))
      case Some(c) =>
        (Some(Looked(c, offset, source.decode(offset))), LookedValue(c, offset, source.decode(offset)))
  }

  ghost predicate Usable(s: Native) {
    s.cache.Some? ==> s.cache.value.capacity > 0
  }

  function Get(s: Native, ip: Option<Ip>): (Native, Result<Js>)
    requires Usable(s)
  {
    match Admit(s, ip)
    case Err(fault) => (s, Err(fault))
    case Ok(source) =>
      var (cache, r) := Record(source, s.cache, ip.value);
      (s.(cache := cache), r)
  }

  function PrefixFor(ip: Ip, network: Network): nat {
    if ip.V4? && network.isV6 then if network.prefix >= 96 then network.prefix - 96 else 0
    else network.prefix
  }

  function GetWithPrefix(s: Native, ip: Option<Ip>): (Native, Result<Js>)
    requires Usable(s)
  {
    match Admit(s, ip)
    case Err(fault) => (s, Err(fault))
    case Ok(source) =>
      if source.find(ip.value).Err? then (s, Err(source.find(ip.value).fault))
      else
        match source.network(ip.value)
        case Err(fault) => (s, Err(fault))
        case Ok(network) =>
          var (cache, r) := Record(source, s.cache, ip.value);
          (s.(cache := cache),
          if r.Err? then r else Ok(Array([r.value, Primitive(PrefixFor(ip.value, network))])))
  }

  /** Looks the addresses up in order, up to the first failure. */
  function Records(source: Source, cache: Option<Cache>, ips: seq<Ip>)
      : (r: (Option<Cache>, Result<seq<Js>>))
    requires cache.Some? ==> cache.value.capacity > 0
    ensures r.0.Some? == cache.Some? && (cache.Some? ==> r.0.value.capacity == cache.value.capacity)
    decreases |ips|
  {
    if ips == [] then (cache, Ok([]))
    else
      var (cache1, first) := Record(source, cache, ips[0]);
      if first.Err? then (cache1, Err(first.fault))
      else
        var (cache2, rest) := Records(source, cache1, ips[1..]);
        (cache2, Before([first.value], rest))
  }

  function Before(values: seq<Js>, rest: Result<seq<Js>>): Result<seq<Js>> {
    if rest.Err? then rest else Ok(values + rest.value)
  }

  lemma BeforeTwice(a: seq<Js>, b: seq<Js>, rest: Result<seq<Js>>)
    ensures Before(a, Before(b, rest)) == Before(a + b, rest)
    ensures Before([], rest) == rest
    ensures Before(a, Ok([])) == Ok(a)
  {
    if rest.Ok? {
      assert a + (b + rest.value) == a + b + rest.value;
      assert [] + rest.value == rest.value;
    }
    assert a + [] == a;
  }

  /** The whole batch is checked before anything is looked up: every text, then every address
      family, then the database. */
  function AdmitAll(s: Native, ips: seq<Option<Ip>>): Result<Source> {
    if exists i | 0 <= i < |ips| :: ips[i].None? then Err(InvalidIp)
    else if exists i | 0 <= i < |ips| :: !Allows(s.ipVersion, ips[i].value) then Err(WrongVersion)
    else if s.source.None? then Err(Closed)
    else Ok(s.source.value)
  }

  function Addresses(ips: seq<Option<Ip>>): seq<Ip>
    requires forall i | 0 <= i < |ips| :: ips[i].Some?
  {
    seq(|ips|, i requires 0 <= i < |ips| => ips[i].value)
  }

  function GetMany(s: Native, ips: seq<Option<Ip>>): (Native, Result<Js>)
    requires Usable(s)
  {
    match AdmitAll(s, ips)
    case Err(fault) => (s, Err(fault))
    case Ok(source) =>
      var (cache, r) := Records(source, s.cache, Addresses(ips));
      (s.(cache := cache), if r.Err? then Err(r.fault) else Ok(Array(r.value)))
  }

  /** A path lookup never touches the record cache. */
  function PathValue(source: Source, ip: Ip, path: Path): Result<Js> {
    match source.find(ip)
    case Err(fault) => Err(fault)
    case Ok(None) => Ok(Null)
    case Ok(Some(offset)) => source.decodePath(offset, path)
  }

  /** A one-off path lookup; None is a path the parser rejects. */
  function GetPath(s: Native, ip: Option<Ip>, path: Option<Path>): Result<Js> {
    if ip.None? then Err(InvalidIp)
    else if path.None? then Err(InvalidPath)
    else
      match Admit(s, ip)
      case Err(fault) => Err(fault)
      case Ok(source) => PathValue(source, ip.value, path.value)
  }

  // ----- compiled paths -----

  function CompilePath(s: Native, path: Option<Path>): (Native, Result<nat>) {
    if s.source.None? then (s, Err(Closed))
    else if path.None? then (s, Err(InvalidPath))
    else if s.nextPathId + 1 > MAX_U32 then (s, Err(TooManyPaths))
    else (s.(paths := s.paths[s.nextPathId := path.value], nextPathId := s.nextPathId + 1), Ok(s.nextPathId))
  }

  function ReleasePath(s: Native, id: nat): Native {
    s.(paths := s.paths - {id})
  }

  function GetCompiledPath(s: Native, ip: Option<Ip>, id: nat): Result<Js> {
    match Admit(s, ip)
    case Err(fault) => Err(fault)
    case Ok(source) =>
      if id in s.paths then PathValue(source, ip.value, s.paths[id]) else Err(UnknownPathId)
  }

  // ----- lifecycle -----

  function CacheCleared(s: Native): Native {
    s.(cache := if s.cache.Some? then Some(Cleared(s.cache.value)) else None)
  }

  /** load and reload: a database that fails to open changes nothing. */
  function Load(s: Native, database: Result<Source>): (Native, Result<Js>) {
    match database
    case Err(fault) => (s, Err(fault))
    case Ok(source) =>
      (CacheCleared(s).(source := Some(source), ipVersion := source.ipVersion), Ok(Null))
  }

  function Close(s: Native): Native {
    CacheCleared(s).(paths := map[], source := None)
  }
}
