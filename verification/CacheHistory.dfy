/** What the record cache holds after any run of lookups, told from the history alone. */
module CacheHistory {
  import opened Values
  import opened Lru
  import opened RecordCaches

  // ----- one lookup, and runs of lookups -----

  /** One record lookup at a known offset: probe, and on a miss decode and insert. `decoded` is
      what the database says at that offset; a failed decode inserts nothing. */
  function Looked(c: Cache, offset: nat, decoded: Result<Js>): Cache
    requires c.capacity > 0
  {
    if Cached(c, offset).Some? || decoded.Err? then Probed(c, offset)
    else Inserted(Probed(c, offset), offset, decoded.value)
  }

  function LookedValue(c: Cache, offset: nat, decoded: Result<Js>): Result<Js> {
    if Cached(c, offset).Some? then Ok(Cached(c, offset).value) else decoded
  }

  type Decoder = nat -> Result<Js>

  /** The cache after looking up the offsets in order in one database. */
  function Run(c: Cache, decode: Decoder, offsets: seq<nat>): (r: Cache)
    requires c.capacity > 0
    ensures r.capacity == c.capacity
  {
    if offsets == [] then c
    else
      var n := |offsets| - 1;
      Looked(Run(c, decode, offsets[..n]), offsets[n], decode(offsets[n]))
  }

  lemma LookedSound(c: Cache, offset: nat, decoded: Result<Js>)
    requires Sound(c)
    ensures Sound(Looked(c, offset, decoded))
  {
    ProbedSound(c, offset);
    if Cached(c, offset).None? && decoded.Ok? {
      InsertedSoundIff(Probed(c, offset), offset, decoded.value);
    }
  }

  lemma RunSound(c: Cache, decode: Decoder, offsets: seq<nat>)
    requires Sound(c)
    ensures Sound(Run(c, decode, offsets))
  {
    if offsets != [] {
      var n := |offsets| - 1;
      RunSound(c, decode, offsets[..n]);
      LookedSound(Run(c, decode, offsets[..n]), offsets[n], decode(offsets[n]));
    }
  }

  /** The offsets whose lookup was a hit, oldest first. */
  function HitLog(c: Cache, decode: Decoder, offsets: seq<nat>): seq<nat>
    requires c.capacity > 0
  {
    if offsets == [] then []
    else
      var n := |offsets| - 1;
      HitLog(c, decode, offsets[..n]) +
      if Cached(Run(c, decode, offsets[..n]), offsets[n]).Some? then [offsets[n]] else []
  }

  /** The counters tell hits from misses. */
  lemma {:induction false} CountersMatchHitLog(c: Cache, decode: Decoder, offsets: seq<nat>)
    requires c.capacity > 0
    ensures var r, log := Run(c, decode, offsets), HitLog(c, decode, offsets);
            && r.hits == c.hits + |log|
            && r.misses + |log| == c.misses + |offsets|
  {
    if offsets != [] {
      CountersMatchHitLog(c, decode, offsets[..|offsets| - 1]);
    }
  }

  predicate ObjectAt(decode: Decoder, offset: nat) {
    decode(offset).Ok? && decode(offset).value.IsObject()
  }

  /** The looked-up offsets that hold objects, oldest first. */
  function ObjectLog(decode: Decoder, offsets: seq<nat>): seq<nat> {
    if offsets == [] then []
    else
      var n := |offsets| - 1;
      ObjectLog(decode, offsets[..n]) + if ObjectAt(decode, offsets[n]) then [offsets[n]] else []
  }

  // ----- recency order -----

  function Index(keys: seq<nat>, key: nat): (i: nat)
    ensures i <= |keys|
    ensures forall j | 0 <= j < i :: keys[j] != key
    ensures i < |keys| ==> keys[i] == key
  {
    if keys == [] || keys[0] == key then 0 else 1 + Index(keys[1..], key)
  }

  function Without(keys: seq<nat>, key: nat): seq<nat> {
    var i := Index(keys, key);
    if i < |keys| then keys[..i] + keys[i + 1..] else keys
  }

  /** The distinct keys of a log, the one used last first. */
  function Recency(log: seq<nat>): seq<nat> {
    if log == [] then []
    else [log[|log| - 1]] + Without(Recency(log[..|log| - 1]), log[|log| - 1])
  }

  /** Where a key was used last, or -1. */
  function LastUse(log: seq<nat>, key: nat): (i: int)
    ensures -1 <= i < |log|
    ensures i >= 0 ==> log[i] == key
    ensures forall j | i < j < |log| :: log[j] != key
  {
    if log == [] then -1
    else if log[|log| - 1] == key then |log| - 1
    else LastUse(log[..|log| - 1], key)
  }

  ghost predicate Distinct(keys: seq<nat>) {
    forall i, j | 0 <= i < j < |keys| :: keys[i] != keys[j]
  }

  /** Strictly ordered by last use in the log, latest first. */
  ghost predicate ByLastUse(log: seq<nat>, keys: seq<nat>) {
    forall i, j | 0 <= i < j < |keys| :: LastUse(log, keys[i]) > LastUse(log, keys[j])
  }

  lemma WithoutKeeps(log: seq<nat>, keys: seq<nat>, key: nat)
    requires ByLastUse(log, keys)
    ensures ByLastUse(log, Without(keys, key))
    ensures forall k :: k in Without(keys, key) ==> k in keys && k != key
  {
    var at, r := Index(keys, key), Without(keys, key);
    assert forall j | 0 <= j < |r| :: r[j] == keys[if j < at then j else j + 1];
  }

  lemma WithoutHolds(keys: seq<nat>, key: nat, k: nat)
    requires k in keys && k != key
    ensures k in Without(keys, key)
  {
    CutHolds(keys, Index(keys, key), k);
  }

  lemma CutHolds(keys: seq<nat>, i: nat, k: nat)
    requires k in keys && i <= |keys| && (i < |keys| ==> keys[i] != k)
    ensures i < |keys| ==> k in keys[..i] + keys[i + 1..]
  {
    var j :| 0 <= j < |keys| && keys[j] == k;
    if i < |keys| && j < i {
      assert keys[..i][j] == k;
    } else if i < |keys| {
      assert keys[i + 1..][j - i - 1] == k;
    }
  }

  lemma LaterUse(log: seq<nat>, key: nat, keys: seq<nat>)
    requires ByLastUse(log, keys) && key !in keys
    ensures ByLastUse(log + [key], [key] + keys)
  {
    assert (log + [key])[..|log|] == log;
    var r := [key] + keys;
    assert forall j | 1 <= j < |r| :: r[j] == keys[j - 1] && r[j] in keys;
    assert forall k | k in keys :: LastUse(log + [key], k) == LastUse(log, k);
  }

  /** Recency really is the order of last use: same keys as the log, strictly by last use. */
  lemma {:induction false} RecencyOrdersByLastUse(log: seq<nat>)
    ensures ByLastUse(log, Recency(log))
    ensures forall k :: k in Recency(log) <==> k in log
  {
    if log != [] {
      var n := |log| - 1;
      RecencyOrdersByLastUse(log[..n]);
      WithoutKeeps(log[..n], Recency(log[..n]), log[n]);
      forall k | k in Recency(log[..n]) && k != log[n] ensures k in Without(Recency(log[..n]), log[n]) {
        WithoutHolds(Recency(log[..n]), log[n], k);
      }
      LaterUse(log[..n], log[n], Without(Recency(log[..n]), log[n]));
      assert log == log[..n] + [log[n]];
    }
  }

  /** The n most recent keys after one more use. */
  function Bumped(keys: seq<nat>, n: nat, key: nat): seq<nat>
    requires n > 0
  {
    [key] + Take(Without(keys, key), n - 1)
  }

  lemma IndexIs(keys: seq<nat>, key: nat, i: nat)
    requires i <= |keys| && (forall j | 0 <= j < i :: keys[j] != key) && (i < |keys| ==> keys[i] == key)
    ensures Index(keys, key) == i
  {
  }

  lemma CutTaken(keys: seq<nat>, n: nat, i: nat)
    requires i < n && i < |keys|
    ensures var t := Take(keys, n); Take(t[..i] + t[i + 1..], n - 1) == Take(keys[..i] + keys[i + 1..], n - 1)
  {
    var t := Take(keys, n);
    assert t[..i] == keys[..i];
    assert t[i + 1..] == Take(keys[i + 1..], n - 1 - i);
  }

  lemma WithoutTaken(keys: seq<nat>, n: nat, key: nat)
    requires n > 0
    ensures Take(Without(Take(keys, n), key), n - 1) == Take(Without(keys, key), n - 1)
  {
    var i, t := Index(keys, key), Take(keys, n);
    if i < |t| {
      IndexIs(t, key, i);
      CutTaken(keys, n, i);
    } else {
      IndexIs(t, key, |t|);
    }
  }

  /** Keeping only the n most recent keys loses nothing that a later use could bring back. */
  lemma BumpTaken(keys: seq<nat>, n: nat, key: nat)
    requires n > 0
    ensures Bumped(Take(keys, n), n, key) == Take([key] + Without(keys, key), n)
  {
    WithoutTaken(keys, n, key);
    TakeCons(key, Without(keys, key), n);
  }

  lemma TakeCons(key: nat, keys: seq<nat>, n: nat)
    requires n > 0
    ensures [key] + Take(keys, n - 1) == Take([key] + keys, n)
  {
  }

  function Keys(s: seq<Slot>): (keys: seq<nat>)
    ensures |keys| == |s|
  {
    seq(|s|, i requires 0 <= i < |s| => s[i].key)
  }

  lemma KeysIndex(s: seq<Slot>, key: nat)
    ensures Index(Keys(s), key) == Find(s, key)
  {
    if s != [] {
      KeysIndex(s[1..], key);
      assert Keys(s)[1..] == Keys(s[1..]);
    }
  }

  lemma KeysRemove(s: seq<Slot>, key: nat)
    ensures Keys(Remove(s, key)) == Without(Keys(s), key)
  {
    KeysIndex(s, key);
    var i := Find(s, key);
    if i < |s| {
      assert Keys(s[..i]) == Keys(s)[..i] && Keys(s[i + 1..]) == Keys(s)[i + 1..];
      KeysAppend(s[..i], s[i + 1..]);
    }
  }

  lemma KeysAppend(a: seq<Slot>, b: seq<Slot>)
    ensures Keys(a + b) == Keys(a) + Keys(b)
  {
  }

  lemma TouchBumps(s: seq<Slot>, n: nat, key: nat)
    requires Has(s, key) && |s| <= n
    ensures Keys(Touch(s, key)) == Bumped(Keys(s), n, key)
  {
    var e := s[Find(s, key)];
    KeysRemove(s, key);
    KeysAppend([e], Remove(s, key));
  }

  lemma PushBumps(s: seq<Slot>, n: nat, e: Slot)
    requires 0 < n && |s| <= n
    ensures Keys(Pushed(s, n, e)) == Bumped(Keys(s), n, e.key)
  {
    if Has(s, e.key) || |s| < n {
      KeysRemove(s, e.key);
      KeysAppend([e], Remove(s, e.key));
    } else {
      KeysIndex(s, e.key);
      KeysAppend([e], s[..|s| - 1]);
      assert Keys(s[..|s| - 1]) == Take(Keys(s), n - 1);
    }
  }

  // ----- the two modes -----

  lemma LookedProtectedKeys(c: Cache, offset: nat, decoded: Result<Js>)
    requires Sound(c) && Segmented(c)
    ensures Keys(Looked(c, offset, decoded).prot) ==
            if Cached(c, offset).Some? then Bumped(Keys(c.prot), ProtectedCapacity(c.capacity), offset)
            else Keys(c.prot)
  {
    if Has(c.prot, offset) {
      TouchBumps(c.prot, ProtectedCapacity(c.capacity), offset);
    } else if Has(c.prob, offset) {
      PushBumps(c.prot, ProtectedCapacity(c.capacity), c.prob[Find(c.prob, offset)]);
    }
  }

  /** The keys of a bounded list after using the logged keys in order. */
  function Bumps(log: seq<nat>, n: nat): seq<nat>
    requires n > 0
  {
    if log == [] then [] else Bumped(Bumps(log[..|log| - 1], n), n, log[|log| - 1])
  }

  lemma {:induction false} BumpsAreRecent(log: seq<nat>, n: nat)
    requires n > 0
    ensures Bumps(log, n) == Take(Recency(log), n)
  {
    if log != [] {
      var m := |log| - 1;
      BumpsAreRecent(log[..m], n);
      BumpTaken(Recency(log[..m]), n, log[m]);
    }
  }

  lemma BumpsStep(log: seq<nat>, n: nat, key: nat)
    requires n > 0
    ensures Bumps(log + [key], n) == Bumped(Bumps(log, n), n, key)
  {
    assert (log + [key])[..|log|] == log;
  }

  lemma {:induction false} HitsBump(c: Cache, decode: Decoder, offsets: seq<nat>)
    requires Sound(c) && Segmented(c) && Size(c) == 0
    ensures Keys(Run(c, decode, offsets).prot) == Bumps(HitLog(c, decode, offsets), ProtectedCapacity(c.capacity))
  {
    if offsets != [] {
      var n := |offsets| - 1;
      var mid, o, p := Run(c, decode, offsets[..n]), offsets[n], ProtectedCapacity(c.capacity);
      var log := HitLog(c, decode, offsets[..n]);
      HitsBump(c, decode, offsets[..n]);
      RunSound(c, decode, offsets[..n]);
      LookedProtectedKeys(mid, o, decode(o));
      if Cached(mid, o).Some? {
        assert HitLog(c, decode, offsets) == log + [o];
        BumpsStep(log, p, o);
      } else {
        assert HitLog(c, decode, offsets) == log;
      }
    }
  }

  /** Segmented mode: from an empty cache, the protected segment holds exactly the most recently
      hit distinct offsets, as many as fit, in recency order. */
  lemma ProtectedIsRecentHits(c: Cache, decode: Decoder, offsets: seq<nat>)
    requires Sound(c) && Segmented(c) && Size(c) == 0
    ensures Keys(Run(c, decode, offsets).prot)
         == Take(Recency(HitLog(c, decode, offsets)), ProtectedCapacity(c.capacity))
  {
    HitsBump(c, decode, offsets);
    BumpsAreRecent(HitLog(c, decode, offsets), ProtectedCapacity(c.capacity));
  }

  /** Every cached value is what the database decodes to at that offset, and is an object. */
  ghost predicate Faithful(c: Cache, decode: Decoder) {
    forall k | Cached(c, k).Some? :: ObjectAt(decode, k) && Cached(c, k).value == decode(k).value
  }

  /** A lookup through a faithful cache returns what the decoder returns, hit or miss, and leaves
      the cache faithful. */
  lemma LookedFaithful(c: Cache, decode: Decoder, offset: nat)
    requires Sound(c) && Faithful(c, decode)
    ensures LookedValue(c, offset, decode(offset)) == decode(offset)
    ensures Faithful(Looked(c, offset, decode(offset)), decode)
  {
    ProbedSound(c, offset);
    if Cached(c, offset).None? && ObjectAt(decode, offset) {
      InsertedCaches(Probed(c, offset), offset, decode(offset).value);
    }
  }

  lemma RunFaithful(c: Cache, decode: Decoder, offsets: seq<nat>)
    requires Sound(c) && Faithful(c, decode)
    ensures Faithful(Run(c, decode, offsets), decode)
  {
    if offsets != [] {
      var n := |offsets| - 1;
      RunFaithful(c, decode, offsets[..n]);
      RunSound(c, decode, offsets[..n]);
      LookedFaithful(Run(c, decode, offsets[..n]), decode, offsets[n]);
    }
  }

  predicate IsContainer(value: Js) {
    value.Buffer? || value.Array? || value.Object?
  }

  /** Only arrays, objects and buffers are ever cached, and the one looked up last always is. */
  lemma ContainersAreCached(c: Cache, decode: Decoder, offsets: seq<nat>, k: nat)
    requires Sound(c) && Size(c) == 0
    ensures Cached(Run(c, decode, offsets), k).Some? ==>
              decode(k) == Ok(Cached(Run(c, decode, offsets), k).value) && IsContainer(decode(k).value)
    ensures offsets != [] && k == offsets[|offsets| - 1] && decode(k).Ok? && IsContainer(decode(k).value) ==>
              Cached(Run(c, decode, offsets), k) == Some(decode(k).value)
  {
    RunFaithful(c, decode, offsets);
    if offsets != [] {
      var n := |offsets| - 1;
      var mid, o := Run(c, decode, offsets[..n]), offsets[n];
      RunSound(c, decode, offsets[..n]);
      RunFaithful(c, decode, offsets[..n]);
      ProbedSound(mid, o);
      if Cached(mid, o).None? && ObjectAt(decode, o) {
        InsertedCaches(Probed(mid, o), o, decode(o).value);
      }
    }
  }

  lemma LookedPlainKeys(c: Cache, decode: Decoder, offset: nat)
    requires Sound(c) && !Segmented(c) && Faithful(c, decode)
    ensures Keys(Looked(c, offset, decode(offset)).prob) ==
            if ObjectAt(decode, offset) then Bumped(Keys(c.prob), c.capacity, offset)
            else Keys(c.prob)
  {
    if Has(c.prob, offset) {
      assert Cached(c, offset).Some?;
      TouchBumps(c.prob, c.capacity, offset);
    } else if ObjectAt(decode, offset) {
      PushBumps(c.prob, c.capacity, Entry(offset, Ref(c.inserts, decode(offset).value)));
    }
  }

  lemma {:induction false} ObjectsBump(c: Cache, decode: Decoder, offsets: seq<nat>)
    requires Sound(c) && !Segmented(c) && Size(c) == 0
    ensures Keys(Run(c, decode, offsets).prob) == Bumps(ObjectLog(decode, offsets), c.capacity)
  {
    if offsets != [] {
      var n := |offsets| - 1;
      var mid, o := Run(c, decode, offsets[..n]), offsets[n];
      var log := ObjectLog(decode, offsets[..n]);
      ObjectsBump(c, decode, offsets[..n]);
      RunSound(c, decode, offsets[..n]);
      RunFaithful(c, decode, offsets[..n]);
      LookedPlainKeys(mid, decode, o);
      if ObjectAt(decode, o) {
        assert ObjectLog(decode, offsets) == log + [o];
        BumpsStep(log, c.capacity, o);
      } else {
        assert ObjectLog(decode, offsets) == log;
      }
    }
  }

  /** Plain mode: from an empty cache, the cache holds exactly the most recently looked-up distinct
      offsets with object values, as many as fit, in recency order. */
  lemma PlainIsRecentLookups(c: Cache, decode: Decoder, offsets: seq<nat>)
    requires Sound(c) && !Segmented(c) && Size(c) == 0
    ensures Keys(Run(c, decode, offsets).prob) == Take(Recency(ObjectLog(decode, offsets)), c.capacity)
  {
    ObjectsBump(c, decode, offsets);
    BumpsAreRecent(ObjectLog(decode, offsets), c.capacity);
  }

  // ----- scans -----

  /** Offsets that a run can find cached were cached at its start or looked up by it. */
  lemma RunCachesOnlySeen(c: Cache, decode: Decoder, offsets: seq<nat>, k: nat)
    requires Sound(c) && Cached(Run(c, decode, offsets), k).Some?
    ensures Cached(c, k).Some? || k in offsets
  {
    if offsets != [] {
      var n := |offsets| - 1;
      var mid, o := Run(c, decode, offsets[..n]), offsets[n];
      RunSound(c, decode, offsets[..n]);
      if k != o {
        LookedCachesOnlySeen(mid, o, decode(o), k);
        RunCachesOnlySeen(c, decode, offsets[..n], k);
      }
    }
  }

  lemma LookedCachesOnlySeen(c: Cache, offset: nat, decoded: Result<Js>, k: nat)
    requires Sound(c) && k != offset && Cached(Looked(c, offset, decoded), k).Some?
    ensures Cached(c, k).Some?
  {
    ProbedSound(c, offset);
    if Cached(c, offset).None? && decoded.Ok? && decoded.value.IsObject() {
      InsertedCaches(Probed(c, offset), offset, decoded.value);
    }
  }

  /** A scan: distinct offsets, none of them cached when it starts. */
  ghost predicate Scan(c: Cache, offsets: seq<nat>) {
    && Distinct(offsets)
    && (forall i | 0 <= i < |offsets| :: Cached(c, offsets[i]).None?)
  }

  /** A scan of any length never hits, so it leaves the protected segment exactly as it was. */
  lemma {:induction false} ScanKeepsProtected(c: Cache, decode: Decoder, offsets: seq<nat>)
    requires Sound(c) && Segmented(c) && Scan(c, offsets)
    ensures HitLog(c, decode, offsets) == []
    ensures Run(c, decode, offsets).prot == c.prot
  {
    if offsets != [] {
      var n := |offsets| - 1;
      ScanKeepsProtected(c, decode, offsets[..n]);
      if Cached(Run(c, decode, offsets[..n]), offsets[n]).Some? {
        RunCachesOnlySeen(c, decode, offsets[..n], offsets[n]);
        assert false;
      }
    }
  }
}
