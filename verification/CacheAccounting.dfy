/** Conservation: where every inserted entry and every created reference ends up, over any run of
    lookups and clears, whatever the database answers. */
module CacheAccounting {
  import opened Values
  import opened Lru
  import opened RecordCaches
  import opened CacheHistory

  datatype Call = Lookup(offset: nat, decoded: Result<Js>) | Clear

  function Called(c: Cache, call: Call): Cache
    requires c.capacity > 0
  {
    match call
    case Lookup(offset, decoded) => Looked(c, offset, decoded)
    case Clear => Cleared(c)
  }

  function Calls(c: Cache, calls: seq<Call>): (r: Cache)
    requires c.capacity > 0
    ensures r.capacity == c.capacity
  {
    if calls == [] then c
    else Called(Calls(c, calls[..|calls| - 1]), calls[|calls| - 1])
  }

  /** Entries removed by the clears of a run. */
  function ClearedEntries(c: Cache, calls: seq<Call>): nat
    requires c.capacity > 0
  {
    if calls == [] then 0
    else
      var n := |calls| - 1;
      ClearedEntries(c, calls[..n]) + if calls[n].Clear? then Size(Calls(c, calls[..n])) else 0
  }

  function Probes(calls: seq<Call>): nat {
    if calls == [] then 0
    else Probes(calls[..|calls| - 1]) + if calls[|calls| - 1].Lookup? then 1 else 0
  }

  /** The lookups of a run that found their offset cached. */
  function Hits(c: Cache, calls: seq<Call>): nat
    requires c.capacity > 0
  {
    if calls == [] then 0
    else
      var n := |calls| - 1;
      Hits(c, calls[..n]) +
      if calls[n].Lookup? && Cached(Calls(c, calls[..n]), calls[n].offset).Some? then 1 else 0
  }

  lemma {:induction false} HitsAreCounted(c: Cache, calls: seq<Call>)
    requires c.capacity > 0
    ensures Calls(c, calls).hits == c.hits + Hits(c, calls)
  {
    if calls != [] {
      HitsAreCounted(c, calls[..|calls| - 1]);
    }
  }

  /** Every reference id the cache holds or has given back, with multiplicity. */
  ghost function Ledger(c: Cache): multiset<nat> {
    multiset(Ids(c.prob)) + multiset(Ids(c.prot)) + multiset(c.released)
  }

  ghost function UpTo(n: nat): (m: multiset<nat>)
    ensures |m| == n
  {
    if n == 0 then multiset{} else UpTo(n - 1) + multiset{n - 1}
  }

  /** UpTo(n) holds each number below n once and nothing else. */
  lemma {:induction false} UpToHoldsOnce(n: nat, i: nat)
    ensures UpTo(n)[i] == if i < n then 1 else 0
  {
    if n > 0 {
      UpToHoldsOnce(n - 1, i);
    }
  }

  lemma IdsCons(e: Slot, s: seq<Slot>)
    ensures Ids([e] + s) == [e.value.id] + Ids(s)
  {
  }

  lemma IdsRemove(s: seq<Slot>, key: nat)
    requires Has(s, key)
    ensures multiset(Ids(s)) == multiset(Ids(Remove(s, key))) + multiset{s[Find(s, key)].value.id}
  {
    var i := Find(s, key);
    var a, b := Ids(s)[..i], Ids(s)[i + 1..];
    assert Ids(s) == a + [s[i].value.id] + b;
    assert Ids(Remove(s, key)) == a + b;
  }

  lemma IdsTouch(s: seq<Slot>, key: nat)
    ensures multiset(Ids(Touch(s, key))) == multiset(Ids(s))
  {
    if Has(s, key) {
      IdsRemove(s, key);
      IdsCons(s[Find(s, key)], Remove(s, key));
    }
  }

  ghost function IdOf(d: Option<Slot>): multiset<nat> {
    if d.Some? then multiset{d.value.value.id} else multiset{}
  }

  lemma IdsPushed(s: seq<Slot>, capacity: nat, e: Slot)
    requires capacity > 0
    ensures multiset(Ids(Pushed(s, capacity, e))) + IdOf(Displaced(s, capacity, e))
         == multiset(Ids(s)) + multiset{e.value.id}
  {
    if Has(s, e.key) {
      IdsRemove(s, e.key);
      IdsCons(e, Remove(s, e.key));
    } else if |s| < capacity {
      IdsCons(e, s);
    } else {
      IdsCons(e, s[..|s| - 1]);
      assert Ids(s) == Ids(s[..|s| - 1]) + [s[|s| - 1].value.id];
    }
  }

  lemma BackwardsPermutes(ids: seq<nat>)
    ensures multiset(Backwards(ids)) == multiset(ids) && |Backwards(ids)| == |ids|
  {
    if ids != [] {
      assert ids == ids[..|ids| - 1] + [ids[|ids| - 1]];
    }
  }

  /** A probe, with its promotion and demotion, moves references but neither creates nor drops one. */
  lemma ProbedLedger(c: Cache, offset: nat)
    requires Sound(c)
    ensures Ledger(Probed(c, offset)) == Ledger(c)
  {
    if Has(c.prot, offset) {
      IdsTouch(c.prot, offset);
    } else if Segmented(c) && Has(c.prob, offset) {
      PromotionFits(c, offset);
      IdsRemove(c.prob, offset);
      IdsPushed(c.prot, ProtectedCapacity(c.capacity), c.prob[Find(c.prob, offset)]);
      var d, c' := Demoted(c, offset), Promoted(c, offset);
      var rest := Remove(c.prob, offset);
      if d.Some? {
        IdsPushed(rest, ProbationaryCapacity(c.capacity), d.value);
      }
      assert multiset(Ids(c'.prob)) == multiset(Ids(rest)) + IdOf(d);
      calc {
        multiset(Ids(c'.prob)) + multiset(Ids(c'.prot));
        multiset(Ids(rest)) + (multiset(Ids(c'.prot)) + IdOf(d));
        multiset(Ids(c.prob)) + multiset(Ids(c.prot));
      }
    } else {
      IdsTouch(c.prob, offset);
    }
  }

  /** After a miss, insertion adds the one new reference, and each eviction gives one back. */
  lemma InsertedLedger(c: Cache, offset: nat, value: Js)
    requires Sound(c) && Cached(c, offset).None? && value.IsObject()
    ensures var c' := Inserted(c, offset, value);
            && Ledger(c') == Ledger(c) + multiset{c.inserts}
            && c'.inserts == c.inserts + 1
            && c'.evictions - c.evictions == |c'.released| - |c.released|
  {
    var e := Entry(offset, Ref(c.inserts, value));
    IdsPushed(c.prob, ProbationaryCapacity(c.capacity), e);
    var c', d := Inserted(c, offset, value), Displaced(c.prob, ProbationaryCapacity(c.capacity), e);
    calc {
      Ledger(c');
      { assert multiset(c'.released) == multiset(c.released) + IdOf(d); }
      (multiset(Ids(c'.prob)) + IdOf(d)) + multiset(Ids(c'.prot)) + multiset(c.released);
      (multiset(Ids(c.prob)) + multiset{c.inserts}) + multiset(Ids(c.prot)) + multiset(c.released);
      Ledger(c) + multiset{c.inserts};
    }
  }

  lemma ClearedLedger(c: Cache)
    ensures Ledger(Cleared(c)) == Ledger(c)
    ensures |Cleared(c).released| == |c.released| + Size(c)
  {
    BackwardsPermutes(Ids(c.prob));
    BackwardsPermutes(Ids(c.prot));
  }

  ghost predicate LookupMoves(c: Cache, c': Cache) {
    && (Ledger(c') == if c'.inserts == c.inserts then Ledger(c) else Ledger(c) + multiset{c.inserts})
    && c.inserts <= c'.inserts <= c.inserts + 1
    && c'.evictions - c.evictions == |c'.released| - |c.released|
    && c'.hits + c'.misses == c.hits + c.misses + 1
  }

  lemma LookedLedger(c: Cache, offset: nat, decoded: Result<Js>)
    requires Sound(c)
    ensures LookupMoves(c, Looked(c, offset, decoded))
  {
    var c1 := Probed(c, offset);
    ProbedSound(c, offset);
    ProbedLedger(c, offset);
    if Cached(c, offset).None? && decoded.Ok? && decoded.value.IsObject() {
      InsertedLedger(c1, offset, decoded.value);
      assert Looked(c, offset, decoded) == Inserted(c1, offset, decoded.value);
    } else {
      assert Looked(c, offset, decoded) == c1;
    }
  }

  lemma LedgerSize(c: Cache)
    ensures |Ledger(c)| == Size(c) + |c.released|
  {
  }

  ghost predicate Balanced(c: Cache, cleared: nat, probes: nat) {
    && Ledger(c) == UpTo(c.inserts)
    && |c.released| == c.evictions + cleared
    && c.hits + c.misses == probes
  }

  lemma BalancedLookup(c: Cache, c': Cache, cleared: nat, probes: nat)
    requires Balanced(c, cleared, probes) && LookupMoves(c, c')
    ensures Balanced(c', cleared, probes + 1)
  {
    LedgerGrows(Ledger(c), Ledger(c'), c.inserts, c'.inserts);
  }

  lemma LedgerGrows(ids: multiset<nat>, ids': multiset<nat>, n: nat, n': nat)
    requires ids == UpTo(n) && n <= n' <= n + 1
    requires ids' == if n' == n then ids else ids + multiset{n}
    ensures ids' == UpTo(n')
  {
  }

  lemma BalancedStep(c: Cache, cleared: nat, probes: nat, call: Call)
    requires Sound(c) && Balanced(c, cleared, probes)
    ensures Balanced(Called(c, call), cleared + if call.Clear? then Size(c) else 0,
                     probes + if call.Lookup? then 1 else 0)
  {
    match call
    case Clear => ClearedLedger(c);
    case Lookup(offset, decoded) =>
      LookedLedger(c, offset, decoded);
      BalancedLookup(c, Looked(c, offset, decoded), cleared, probes);
  }

  lemma CalledSound(c: Cache, call: Call)
    requires Sound(c)
    ensures Sound(Called(c, call))
  {
    if call.Lookup? {
      LookedSound(c, call.offset, call.decoded);
    }
  }

  /** The books balance at the end of every run: each reference ever created is held by exactly one
      entry or was given back exactly once; inserts are accounted for by size, evictions and clears;
      every probe was a hit, when its offset was cached, or a miss. */
  lemma {:induction false} BooksBalance(capacity: nat, calls: seq<Call>)
    requires capacity > 0
    ensures var c := Calls(Fresh(capacity), calls);
            && Sound(c)
            && Ledger(c) == UpTo(c.inserts)
            && c.inserts == Size(c) + c.evictions + ClearedEntries(Fresh(capacity), calls)
            && |c.released| == c.evictions + ClearedEntries(Fresh(capacity), calls)
            && c.hits == Hits(Fresh(capacity), calls)
            && c.hits + c.misses == Probes(calls)
  {
    HitsAreCounted(Fresh(capacity), calls);
    if calls != [] {
      var n := |calls| - 1;
      BooksBalance(capacity, calls[..n]);
      CalledSound(Calls(Fresh(capacity), calls[..n]), calls[n]);
      BalancedStep(Calls(Fresh(capacity), calls[..n]), ClearedEntries(Fresh(capacity), calls[..n]),
                   Probes(calls[..n]), calls[n]);
    }
    LedgerSize(Calls(Fresh(capacity), calls));
  }
}
