/** What the calls of a run answer, told from the run and the databases alone: no cache, no table, no state. */
module NativeAnswers {
  import opened Values
  import opened RecordCaches
  import opened CacheHistory
  import opened Natives
  import opened NativeRuns

  // ----- which database answers -----

  /** The database open after the calls: the one loaded last, unless it was closed since. */
  function OpenDatabase(first: Source, ops: seq<Op>): Option<Source> {
    if ops == [] then Some(first)
    else
      var n := |ops| - 1;
      if ops[n].OpClose? then None
      else if ops[n].OpLoad? && ops[n].database.Ok? then Some(ops[n].database.value)
      else OpenDatabase(first, ops[..n])
  }

  /** The database loaded last, closed since or not. */
  function LatestDatabase(first: Source, ops: seq<Op>): Source {
    if ops == [] then first
    else
      var n := |ops| - 1;
      if ops[n].OpLoad? && ops[n].database.Ok? then ops[n].database.value else LatestDatabase(first, ops[..n])
  }

  lemma AfterLast(s: Native, ops: seq<Op>)
    requires Usable(s) && ops != []
    ensures After(s, ops) == Apply(After(s, ops[..|ops| - 1]), ops[|ops| - 1]).0
  {
    var n := |ops| - 1;
    AfterAppend(s, ops[..n], [ops[n]]);
    assert ops[..n] + [ops[n]] == ops;
    AfterOne(After(s, ops[..n]), ops[n]);
  }

  lemma AfterOne(s: Native, op: Op)
    requires Usable(s)
    ensures After(s, [op]) == Apply(s, op).0
  {
    ApplyUsable(s, op);
    assert [op][1..] == [];
  }

  lemma {:induction false} RunKeepsDatabase(first: Source, capacity: nat, ops: seq<Op>)
    ensures var s := After(Opened(first, capacity), ops);
            s.source == OpenDatabase(first, ops) && s.ipVersion == LatestDatabase(first, ops).ipVersion
  {
    if ops != [] {
      RunKeepsDatabase(first, capacity, ops[..|ops| - 1]);
      AfterLast(Opened(first, capacity), ops);
    }
  }

  /** After any run the reader has the database of the run, and its cache agrees with that database. */
  ghost predicate Has(s: Native, db: Option<Source>, latest: Source) {
    && s.source == db && s.ipVersion == latest.ipVersion
    && Mirrors(s, s.(cache := None))
  }

  lemma RunHas(first: Source, capacity: nat, ops: seq<Op>)
    ensures Has(After(Opened(first, capacity), ops), OpenDatabase(first, ops), LatestDatabase(first, ops))
  {
    RunKeepsDatabase(first, capacity, ops);
    MirrorsAnswer(Opened(first, capacity), Opened(first, 0), ops);
  }

  // ----- single lookups -----

  /** Why an address is not looked up at all: its text, its family, or no open database, in this order. */
  function Refusal(db: Option<Source>, latest: Source, ip: Option<Ip>): Option<Fault> {
    if ip.None? then Some(InvalidIp)
    else if latest.ipVersion == 4 && ip.value.V6? then Some(WrongVersion)
    else if db.None? then Some(Closed)
    else None
  }

  /** What a lookup of one address gives, reading what is stored at its offset in the open database. */
  function Reference(db: Option<Source>, latest: Source, ip: Option<Ip>, read: (Source, nat) -> Result<Js>): Result<Js> {
    if Refusal(db, latest, ip).Some? then Err(Refusal(db, latest, ip).value)
    else
      match db.value.find(ip.value)
      case Err(fault) => Err(fault)
      case Ok(None) => Ok(Null)
      case Ok(Some(offset)) => read(db.value, offset)
  }

  const WHOLE_RECORD: (Source, nat) -> Result<Js> := (d: Source, offset: nat) => d.decode(offset)

  function AtPath(path: Path): (Source, nat) -> Result<Js> {
    (d: Source, offset: nat) => d.decodePath(offset, path)
  }

  lemma GetIsReference(s: Native, db: Option<Source>, latest: Source, ip: Option<Ip>)
    requires Has(s, db, latest)
    ensures Get(s, ip).1 == Reference(db, latest, ip, WHOLE_RECORD)
  {
    ApplyMirrors(s, s.(cache := None), OpGet(ip));
  }

  /** Over every run of loads, closes and other calls, with a cache of any capacity: get answers what the
      database open by then stores for the address. */
  lemma GetReadsTheOpenDatabase(first: Source, capacity: nat, ops: seq<Op>, ip: Option<Ip>)
    ensures Get(After(Opened(first, capacity), ops), ip).1
         == Reference(OpenDatabase(first, ops), LatestDatabase(first, ops), ip, WHOLE_RECORD)
  {
    RunHas(first, capacity, ops);
    GetIsReference(After(Opened(first, capacity), ops), OpenDatabase(first, ops), LatestDatabase(first, ops), ip);
  }

  /** So does a path lookup, with exactly the path it was given; a path the parser rejects is an error
      once the address is a good one. */
  lemma GetPathReadsItsPath(first: Source, capacity: nat, ops: seq<Op>, ip: Option<Ip>, path: Path)
    ensures var s := After(Opened(first, capacity), ops);
            && GetPath(s, ip, Some(path))
            == Reference(OpenDatabase(first, ops), LatestDatabase(first, ops), ip, AtPath(path))
            && GetPath(s, ip, None) == Err(if ip.None? then InvalidIp else InvalidPath)
  {
    RunHas(first, capacity, ops);
  }

  /** Clearing the cache, loading and closing leave nothing cached; a load that fails changes nothing. */
  lemma NothingStaysCached(s: Native, op: Op)
    requires Coherent(s) && (op.OpClearCache? || op.OpClose? || op.OpLoad?)
    ensures var s' := Apply(s, op).0;
            if op.OpLoad? && op.database.Err? then s' == s
            else s'.cache.Some? == s.cache.Some? && (s.cache.Some? ==> Size(s'.cache.value) == 0)
  {
  }

  // ----- compiled paths -----

  /** Whether the calls leave an id alone that was issued before them. */
  ghost predicate Spares(ops: seq<Op>, id: nat) {
    forall i | 0 <= i < |ops| :: !ops[i].OpClose? && ops[i] != OpReleasePath(id)
  }

  lemma {:induction false} StoredWhileSpared(s: Native, ops: seq<Op>, id: nat)
    requires Coherent(s) && id < s.nextPathId
    ensures var s' := After(s, ops);
            && (id in s'.paths <==> id in s.paths && Spares(ops, id))
            && (id in s'.paths ==> s'.paths[id] == s.paths[id])
    decreases |ops|
  {
    if ops != [] {
      ApplyCoherent(s, ops[0]);
      StoredWhileSpared(Apply(s, ops[0]).0, ops[1..], id);
      SparesFirst(ops, id);
    }
  }

  lemma SparesFirst(ops: seq<Op>, id: nat)
    requires ops != []
    ensures Spares(ops, id) <==> !ops[0].OpClose? && ops[0] != OpReleasePath(id) && Spares(ops[1..], id)
  {
    if Spares([ops[0]], id) && Spares(ops[1..], id) {
      assert forall i | 1 <= i < |ops| :: ops[i] == ops[1..][i - 1];
    }
    if Spares(ops, id) {
      assert forall i | 0 <= i < |ops[1..]| :: ops[1..][i] == ops[i + 1];
    }
  }

  /** An id compiled at any moment of any run reads its own path in the database open by then, exactly
      until it is released or the reader is closed; from then on it is unknown for good. */
  lemma CompiledPathReadsItsPath(first: Source, capacity: nat, ops: seq<Op>, path: Path, more: seq<Op>, ip: Option<Ip>)
    requires CompilePath(After(Opened(first, capacity), ops), Some(path)).1.Ok?
    ensures var id := CompilePath(After(Opened(first, capacity), ops), Some(path)).1.value;
            var all := ops + [OpCompilePath(Some(path))] + more;
            var db, latest := OpenDatabase(first, all), LatestDatabase(first, all);
            GetCompiledPath(After(Opened(first, capacity), all), ip, id) ==
            if Spares(more, id) then Reference(db, latest, ip, AtPath(path))
            else Err(if Refusal(db, latest, ip).Some? then Refusal(db, latest, ip).value else UnknownPathId)
  {
    var s0, op := Opened(first, capacity), OpCompilePath(Some(path));
    var s1 := After(s0, ops);
    var s2 := Apply(s1, op).0;
    AfterAppend(s0, ops, [op]);
    AfterAppend(s0, ops + [op], more);
    AfterOne(s1, op);
    RunHas(first, capacity, ops);
    ApplyCoherent(s1, op);
    StoredWhileSpared(s2, more, CompilePath(s1, Some(path)).1.value);
    RunKeepsDatabase(first, capacity, ops + [op] + more);
  }

  // ----- lookups with the prefix length -----

  /** The prefix length reported: for an IPv4 address in an IPv6 network, without its first 96 bits. */
  ghost predicate IsPrefixLength(q: nat, ip: Ip, network: Network) {
    if ip.V4? && network.isV6 then (network.prefix <= 96 ==> q == 0) && (network.prefix >= 96 ==> q + 96 == network.prefix)
    else q == network.prefix
  }

  /** getWithPrefixLength answers the pair of what get answers and the network's prefix length, or the
      first thing that fails: the lookup, the network, the record. */
  lemma PrefixLookupReadsTheOpenDatabase(first: Source, capacity: nat, ops: seq<Op>, ip: Option<Ip>)
    ensures var db, latest := OpenDatabase(first, ops), LatestDatabase(first, ops);
            var record, r := Reference(db, latest, ip, WHOLE_RECORD), GetWithPrefix(After(Opened(first, capacity), ops), ip).1;
            if Refusal(db, latest, ip).Some? || db.value.find(ip.value).Err? then r == record
            else if db.value.network(ip.value).Err? then r == Err(db.value.network(ip.value).fault)
            else if record.Err? then r == record
            else
              exists q :: r == Ok(Array([record.value, Primitive(q)])) && IsPrefixLength(q, ip.value, db.value.network(ip.value).value)
  {
    RunHas(first, capacity, ops);
    var s, db := After(Opened(first, capacity), ops), OpenDatabase(first, ops);
    ApplyMirrors(s, s.(cache := None), OpGetWithPrefix(ip));
    if Admit(s, ip).Ok? && db.value.network(ip.value).Ok? {
      assert IsPrefixLength(PrefixFor(ip.value, db.value.network(ip.value).value), ip.value, db.value.network(ip.value).value);
    }
  }

  // ----- batches -----

  /** All the values in order, or the first error among them. */
  ghost predicate InOrder(each: seq<Result<Js>>, r: Result<seq<Js>>) {
    if r.Ok? then |r.value| == |each| && forall i | 0 <= i < |each| :: each[i] == Ok(r.value[i])
    else exists k | 0 <= k < |each| :: each[k] == Err(r.fault) && forall i | 0 <= i < k :: each[i].Ok?
  }

  lemma InOrderFirst(first: Result<Js>, each: seq<Result<Js>>, r: Result<seq<Js>>)
    requires first.Ok? ==> InOrder(each, r)
    ensures InOrder([first] + each, if first.Err? then Err(first.fault) else Before([first.value], r))
  {
    var all := [first] + each;
    if first.Err? {
      assert all[0] == first;
    } else if r.Err? {
      var k :| 0 <= k < |each| && each[k] == Err(r.fault) && forall i | 0 <= i < k :: each[i].Ok?;
      assert all[k + 1] == Err(r.fault) && forall i | 0 <= i < k + 1 :: all[i].Ok?;
    }
  }

  function Each(db: Option<Source>, latest: Source, ips: seq<Ip>): seq<Result<Js>> {
    seq(|ips|, i requires 0 <= i < |ips| => Reference(db, latest, Some(ips[i]), WHOLE_RECORD))
  }

  lemma {:induction false} RecordsRead(db: Source, latest: Source, ips: seq<Ip>)
    requires forall i | 0 <= i < |ips| :: latest.ipVersion != 4 || ips[i].V4?
    ensures InOrder(Each(Some(db), latest, ips), Records(db, None, ips).1)
    decreases |ips|
  {
    if ips != [] {
      RecordsRead(db, latest, ips[1..]);
      var first := Reference(Some(db), latest, Some(ips[0]), WHOLE_RECORD);
      assert Record(db, None, ips[0]) == (None, first);
      InOrderFirst(first, Each(Some(db), latest, ips[1..]), Records(db, None, ips[1..]).1);
      assert [first] + Each(Some(db), latest, ips[1..]) == Each(Some(db), latest, ips);
    }
  }

  /** getMany checks every text, then every family, then that a database is open; then it answers what get
      answers for each address in turn, as one array, or the first error. */
  lemma BatchReadsTheOpenDatabase(first: Source, capacity: nat, ops: seq<Op>, ips: seq<Option<Ip>>)
    ensures var db, latest := OpenDatabase(first, ops), LatestDatabase(first, ops);
            var r := GetMany(After(Opened(first, capacity), ops), ips).1;
            if exists i | 0 <= i < |ips| :: ips[i].None? then r == Err(InvalidIp)
            else if latest.ipVersion == 4 && exists i | 0 <= i < |ips| :: ips[i].value.V6? then r == Err(WrongVersion)
            else if db.None? then r == Err(Closed)
            else if r.Ok? then r.value.Array? && InOrder(Each(db, latest, Addresses(ips)), Ok(r.value.elems))
            else InOrder(Each(db, latest, Addresses(ips)), Err(r.fault))
  {
    RunHas(first, capacity, ops);
    var s, db, latest := After(Opened(first, capacity), ops), OpenDatabase(first, ops), LatestDatabase(first, ops);
    ApplyMirrors(s, s.(cache := None), OpGetMany(ips));
    if AdmitAll(s, ips).Ok? {
      RecordsRead(db.value, latest, Addresses(ips));
    } else if db.Some? && forall i | 0 <= i < |ips| :: ips[i].Some? {
      assert exists i | 0 <= i < |ips| :: !Allows(s.ipVersion, ips[i].value);
    }
  }
}
