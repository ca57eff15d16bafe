/** Runs of calls on one native reader: the cache is invisible, batches are folds, ids are never reused. */
module NativeRuns {
  import opened Values
  import opened RecordCaches
  import opened CacheHistory
  import opened Natives

  datatype Op =
    | OpGet(ip: Option<Ip>)
    | OpGetWithPrefix(ip: Option<Ip>)
    | OpGetMany(ips: seq<Option<Ip>>)
    | OpGetPath(ip: Option<Ip>, path: Option<Path>)
    | OpCompilePath(path: Option<Path>)
    | OpReleasePath(id: nat)
    | OpGetCompiledPath(ip: Option<Ip>, id: nat)
    | OpClearCache
    | OpLoad(database: Result<Source>)  // load(buffer) and reload() alike
    | OpClose

  /** A call's effect and what it returns; an id comes back as a number. */
  function Apply(s: Native, op: Op): (Native, Result<Js>)
    requires Usable(s)
  {
    match op
    case OpGet(ip) => Get(s, ip)
    case OpGetWithPrefix(ip) => GetWithPrefix(s, ip)
    case OpGetMany(ips) => GetMany(s, ips)
    case OpGetPath(ip, path) => (s, GetPath(s, ip, path))
    case OpCompilePath(path) =>
      var (s', r) := CompilePath(s, path);
      (s', if r.Ok? then Ok(Primitive(r.value)) else Err(r.fault))
    case OpReleasePath(id) => (ReleasePath(s, id), Ok(Null))
    case OpGetCompiledPath(ip, id) => (s, GetCompiledPath(s, ip, id))
    case OpClearCache => (CacheCleared(s), Ok(Null))
    case OpLoad(database) => Load(s, database)
    case OpClose => (Close(s), Ok(Null))
  }

  lemma ApplyUsable(s: Native, op: Op)
    requires Usable(s)
    ensures Usable(Apply(s, op).0)
  {
  }

  function After(s: Native, ops: seq<Op>): (s': Native)
    requires Usable(s)
    ensures Usable(s')
    decreases |ops|
  {
    if ops == [] then s
    else
      ApplyUsable(s, ops[0]);
      After(Apply(s, ops[0]).0, ops[1..])
  }

  /** What the calls of a run return, in order. */
  function Answers(s: Native, ops: seq<Op>): seq<Result<Js>>
    requires Usable(s)
    decreases |ops|
  {
    if ops == [] then []
    else
      ApplyUsable(s, ops[0]);
      [Apply(s, ops[0]).1] + Answers(Apply(s, ops[0]).0, ops[1..])
  }

  // ----- coherence -----

  lemma RecordsSound(source: Source, cache: Option<Cache>, ips: seq<Ip>)
    requires cache.Some? ==> Sound(cache.value)
    ensures cache.Some? ==> Records(source, cache, ips).0.Some? && Sound(Records(source, cache, ips).0.value)
    decreases |ips|
  {
    if ips != [] {
      RecordSound(source, cache, ips[0]);
      RecordsSound(source, Record(source, cache, ips[0]).0, ips[1..]);
    }
  }

  lemma RecordSound(source: Source, cache: Option<Cache>, ip: Ip)
    requires cache.Some? ==> Sound(cache.value)
    ensures cache.Some? ==> Record(source, cache, ip).0.Some? && Sound(Record(source, cache, ip).0.value)
  {
    var found := source.find(ip);
    if cache.Some? && found.Ok? && found.value.Some? {
      LookedSound(cache.value, found.value.value, source.decode(found.value.value));
    }
  }

  /** Every call keeps a native reader coherent: in particular ip_version always matches the open
      database, and every stored path has an issued id. */
  lemma ApplyCoherent(s: Native, op: Op)
    requires Coherent(s)
    ensures Coherent(Apply(s, op).0)
    ensures Apply(s, op).0.nextPathId >= s.nextPathId
  {
    match op
    case OpGet(ip) =>
      if Admit(s, ip).Ok? { RecordSound(s.source.value, s.cache, ip.value); }
    case OpGetWithPrefix(ip) =>
      if Admit(s, ip).Ok? { RecordSound(s.source.value, s.cache, ip.value); }
    case OpGetMany(ips) =>
      if AdmitAll(s, ips).Ok? { RecordsSound(s.source.value, s.cache, Addresses(ips)); }
    case _ =>
  }

  // ----- the cache is invisible -----

  /** The same reader with and without its cache: all else equal, and every cached value is what the
      open database decodes to. A closed reader's cache is empty. */
  ghost predicate Mirrors(cached: Native, plain: Native) {
    && plain == cached.(cache := None)
    && Coherent(cached)
    && (cached.cache.Some? ==> CacheAgrees(cached.source, cached.cache.value))
  }

  ghost predicate CacheAgrees(source: Option<Source>, c: Cache) {
    match source
    case Some(src) => Faithful(c, src.decode)
    case None => Size(c) == 0
  }

  lemma RecordMirrors(source: Source, cache: Option<Cache>, ip: Ip)
    requires cache.Some? ==> Sound(cache.value) && Faithful(cache.value, source.decode)
    ensures Record(source, cache, ip).1 == Record(source, None, ip).1
    ensures cache.Some? ==>
              && Sound(Record(source, cache, ip).0.value)
              && Faithful(Record(source, cache, ip).0.value, source.decode)
  {
    RecordSound(source, cache, ip);
    var found := source.find(ip);
    if cache.Some? && found.Ok? && found.value.Some? {
      LookedFaithful(cache.value, source.decode, found.value.value);
    }
  }

  lemma {:induction false} RecordsMirror(source: Source, cache: Option<Cache>, ips: seq<Ip>)
    requires cache.Some? ==> Sound(cache.value) && Faithful(cache.value, source.decode)
    ensures Records(source, cache, ips).1 == Records(source, None, ips).1
    ensures cache.Some? ==> Faithful(Records(source, cache, ips).0.value, source.decode)
    decreases |ips|
  {
    if ips != [] {
      RecordMirrors(source, cache, ips[0]);
      RecordsMirror(source, Record(source, cache, ips[0]).0, ips[1..]);
    }
  }

  lemma ApplyMirrors(cached: Native, plain: Native, op: Op)
    requires Mirrors(cached, plain)
    ensures Apply(cached, op).1 == Apply(plain, op).1
    ensures Mirrors(Apply(cached, op).0, Apply(plain, op).0)
  {
    ApplyCoherent(cached, op);
    match op
    case OpGet(ip) => AnswerMirrors(cached, ip);
    case OpGetWithPrefix(ip) => AnswerMirrors(cached, ip);
    case OpGetMany(ips) =>
      if AdmitAll(cached, ips).Ok? {
        RecordsMirror(cached.source.value, cached.cache, Addresses(ips));
      }
    case _ =>
  }

  lemma AnswerMirrors(cached: Native, ip: Option<Ip>)
    requires Coherent(cached)
    requires cached.cache.Some? ==> CacheAgrees(cached.source, cached.cache.value)
    ensures Admit(cached, ip).Ok? ==>
              var (cache, record) := Record(cached.source.value, cached.cache, ip.value);
              && record == Record(cached.source.value, None, ip.value).1
              && (cache.Some? ==> Faithful(cache.value, cached.source.value.decode))
  {
    if Admit(cached, ip).Ok? {
      RecordMirrors(cached.source.value, cached.cache, ip.value);
    }
  }

  /** Over every run of calls, a reader with a cache of any capacity returns exactly what the same
      reader without a cache returns. */
  lemma {:induction false} MirrorsAnswer(cached: Native, plain: Native, ops: seq<Op>)
    requires Mirrors(cached, plain)
    ensures Answers(cached, ops) == Answers(plain, ops)
    ensures Mirrors(After(cached, ops), After(plain, ops))
    decreases |ops|
  {
    if ops != [] {
      ApplyMirrors(cached, plain, ops[0]);
      MirrorsAnswer(Apply(cached, ops[0]).0, Apply(plain, ops[0]).0, ops[1..]);
    }
  }

  lemma CacheIsTransparent(source: Source, capacity: nat, ops: seq<Op>)
    ensures Answers(Opened(source, capacity), ops) == Answers(Opened(source, 0), ops)
  {
    MirrorsAnswer(Opened(source, capacity), Opened(source, 0), ops);
  }

  // ----- batches -----

  /** Calling get for each address in turn, stopping at the first error. */
  function GetEach(s: Native, ips: seq<Option<Ip>>): (Native, Result<seq<Js>>)
    requires Usable(s)
    decreases |ips|
  {
    if ips == [] then (s, Ok([]))
    else
      var (s1, first) := Get(s, ips[0]);
      if first.Err? then (s1, Err(first.fault))
      else
        var (s2, rest) := GetEach(s1, ips[1..]);
        (s2, Before([first.value], rest))
  }

  /** A batch whose addresses all pass the checks leaves the reader, including cache contents, order
      and counters, exactly as successive get calls do, and returns their results or their first
      error. Any other batch changes nothing. */
  lemma BatchIsSuccessiveGets(s: Native, ips: seq<Option<Ip>>)
    requires Usable(s)
    ensures if s.source.Some? && forall i | 0 <= i < |ips| :: ips[i].Some? && Allows(s.ipVersion, ips[i].value) then
              var (s', each) := GetEach(s, ips);
              GetMany(s, ips) == (s', if each.Err? then Err(each.fault) else Ok(Array(each.value)))
            else
              GetMany(s, ips).0 == s && GetMany(s, ips).1.Err?
  {
    if s.source.Some? && forall i | 0 <= i < |ips| :: ips[i].Some? && Allows(s.ipVersion, ips[i].value) {
      EachIsRecords(s, ips);
    }
  }

  lemma {:induction false} EachIsRecords(s: Native, ips: seq<Option<Ip>>)
    requires Usable(s) && s.source.Some?
    requires forall i | 0 <= i < |ips| :: ips[i].Some? && Allows(s.ipVersion, ips[i].value)
    ensures var (cache, r) := Records(s.source.value, s.cache, Addresses(ips));
            GetEach(s, ips) == (s.(cache := cache), r)
    decreases |ips|
  {
    if ips != [] {
      EachIsRecords(Get(s, ips[0]).0, ips[1..]);
      assert Addresses(ips)[1..] == Addresses(ips[1..]);
    }
  }

  // ----- batches read from an array with getters -----

  /** One array element: reading it may run a getter that calls the reader, then gives a text. */
  datatype Element = Element(effects: seq<Op>, ip: Option<Ip>)

  /** Reads the elements in order, up to the first bad text, as the parse phase does. */
  function ReadElements(s: Native, elements: seq<Element>): (r: (Native, Result<seq<Option<Ip>>>))
    requires Usable(s)
    ensures Usable(r.0)
    decreases |elements|
  {
    if elements == [] then (s, Ok([]))
    else
      var s1 := After(s, elements[0].effects);
      if elements[0].ip.None? then (s1, Err(InvalidIp))
      else
        var (s2, rest) := ReadElements(s1, elements[1..]);
        (s2, if rest.Err? then rest else Ok([elements[0].ip] + rest.value))
  }

  function GetManyFrom(s: Native, elements: seq<Element>): (Native, Result<Js>)
    requires Usable(s)
  {
    var (s1, ips) := ReadElements(s, elements);
    if ips.Err? then (s1, Err(ips.fault)) else GetMany(s1, ips.value)
  }

  function Effects(elements: seq<Element>): seq<Op> {
    if elements == [] then [] else elements[0].effects + Effects(elements[1..])
  }

  function Texts(elements: seq<Element>): seq<Option<Ip>> {
    seq(|elements|, i requires 0 <= i < |elements| => elements[i].ip)
  }

  /** How many elements are read: all, or through the first bad text. */
  function ReadCount(elements: seq<Element>): (n: nat)
    ensures n <= |elements|
  {
    if elements == [] then 0
    else if elements[0].ip.None? then 1
    else 1 + ReadCount(elements[1..])
  }

  lemma {:induction false} AfterAppend(s: Native, a: seq<Op>, b: seq<Op>)
    requires Usable(s)
    ensures After(s, a + b) == After(After(s, a), b)
    decreases |a|
  {
    if a == [] {
      assert a + b == b;
    } else {
      ApplyUsable(s, a[0]);
      AfterAppend(Apply(s, a[0]).0, a[1..], b);
      assert (a + b)[1..] == a[1..] + b;
    }
  }

  lemma {:induction false} ElementsReadFirst(s: Native, elements: seq<Element>)
    requires Usable(s)
    ensures ReadElements(s, elements).0 == After(s, Effects(elements[..ReadCount(elements)]))
    ensures ReadElements(s, elements).1 == if HasBadText(elements) then Err(InvalidIp) else Ok(Texts(elements))
    decreases |elements|
  {
    if elements == [] {
      assert Texts(elements) == [];
    } else {
      var s1, n := After(s, elements[0].effects), ReadCount(elements);
      assert elements[..n][1..] == elements[1..][..n - 1];
      if elements[0].ip.None? {
        assert Effects(elements[..1]) == elements[0].effects + Effects(elements[..1][1..]);
        AfterAppend(s, elements[0].effects, []);
        assert elements[0].effects + [] == elements[0].effects;
      } else {
        ElementsReadFirst(s1, elements[1..]);
        AfterAppend(s, elements[0].effects, Effects(elements[1..][..n - 1]));
        assert Texts(elements) == [elements[0].ip] + Texts(elements[1..]);
        BadTextInTail(elements);
      }
    }
  }

  ghost predicate HasBadText(elements: seq<Element>) {
    exists i | 0 <= i < |elements| :: elements[i].ip.None?
  }

  lemma BadTextInTail(elements: seq<Element>)
    requires elements != [] && elements[0].ip.Some?
    ensures HasBadText(elements) <==> HasBadText(elements[1..])
  {
    if HasBadText(elements) {
      var i :| 0 <= i < |elements| && elements[i].ip.None?;
      assert elements[1..][i - 1].ip.None?;
    }
  }

  /** A batch over an array with getters is: first everything the getters do, then, if every text was
      good, the one uninterrupted batch over those texts. A bad text stops the reading there, and
      nothing is looked up. */
  lemma GettersActBeforeTheBatch(s: Native, elements: seq<Element>)
    requires Usable(s)
    ensures if HasBadText(elements) then
              GetManyFrom(s, elements) == (After(s, Effects(elements[..ReadCount(elements)])), Err(InvalidIp))
            else
              GetManyFrom(s, elements) == GetMany(After(s, Effects(elements)), Texts(elements))
  {
    ElementsReadFirst(s, elements);
    if !HasBadText(elements) {
      ReadsAll(elements);
      assert elements[..|elements|] == elements;
    }
  }

  lemma ReadsAll(elements: seq<Element>)
    requires !HasBadText(elements)
    ensures ReadCount(elements) == |elements|
  {
    if elements != [] {
      assert elements[0].ip.Some?;
      BadTextInTail(elements);
    }
  }

  // ----- path ids -----

  /** An issued id never comes to mean anything else: later it is either gone or unchanged. */
  lemma {:induction false} IssuedIdsAreStable(s: Native, ops: seq<Op>, id: nat)
    requires Coherent(s) && id < s.nextPathId
    ensures var s' := After(s, ops);
            && Coherent(s') && id < s'.nextPathId
            && (id in s'.paths ==> id in s.paths && s'.paths[id] == s.paths[id])
    decreases |ops|
  {
    if ops != [] {
      ApplyCoherent(s, ops[0]);
      IssuedIdsAreStable(Apply(s, ops[0]).0, ops[1..], id);
    }
  }

  /** Whatever happens between, including close and load, a compiled path answers as a fresh lookup of
      that same path would, or says its id is unknown. */
  lemma CompiledPathKeepsItsMeaning(s: Native, path: Path, ops: seq<Op>, ip: Option<Ip>)
    requires Coherent(s) && CompilePath(s, Some(path)).1.Ok?
    ensures var (s1, r) := CompilePath(s, Some(path));
            && r.value !in s.paths
            && var s2 := After(s1, ops);
               || GetCompiledPath(s2, ip, r.value) == GetPath(s2, ip, Some(path))
               || GetCompiledPath(s2, ip, r.value) == Err(UnknownPathId)
  {
    var (s1, r) := CompilePath(s, Some(path));
    IssuedIdsAreStable(s1, ops, r.value);
  }

  /** Two compilations in one run never share an id. */
  lemma CompiledIdsDiffer(s: Native, first: Path, ops: seq<Op>, second: Path)
    requires Coherent(s) && CompilePath(s, Some(first)).1.Ok?
    requires CompilePath(After(CompilePath(s, Some(first)).0, ops), Some(second)).1.Ok?
    ensures CompilePath(s, Some(first)).1 != CompilePath(After(CompilePath(s, Some(first)).0, ops), Some(second)).1
  {
    IssuedIdsAreStable(CompilePath(s, Some(first)).0, ops, CompilePath(s, Some(first)).1.value);
  }
}
