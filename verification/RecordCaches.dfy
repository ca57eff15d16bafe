/** The record cache: one plain LRU list, or a probationary list with a protected segment
    that hits promote into. The functions describe one call on values; class RecordCache makes
    the same changes in place and is proved against them. */
module RecordCaches {
  import opened Values
  import opened Lru

  /** A counted reference to a JavaScript value. The id says which call created it. */
  datatype Ref = Ref(id: nat, value: Js)

  type Slot = Entry<Ref>

  datatype Cache = Cache(
    capacity: nat,
    prob: seq<Slot>,
    prot: seq<Slot>,
    hits: nat,
    misses: nat,
    inserts: nat,
    evictions: nat,
    released: seq<nat>)  // ids of the references given back so far, oldest first

  const LARGEST_SEGMENTED := 10_000

  /** Zero stands for "no protected segment". */
  function ProtectedCapacity(capacity: nat): nat {
    if capacity <= LARGEST_SEGMENTED then capacity / 5 else 0
  }

  function ProbationaryCapacity(capacity: nat): (p: nat)
    requires capacity > 0
    ensures p >= 1 && p + ProtectedCapacity(capacity) == capacity
  {
    capacity - ProtectedCapacity(capacity)
  }

  predicate Segmented(c: Cache) {
    ProtectedCapacity(c.capacity) > 0
  }

  function Fresh(capacity: nat): Cache {
    Cache(capacity, [], [], 0, 0, 0, 0, [])
  }

  /** No offset is cached twice, in one segment or across both, and each segment fits. */
  ghost predicate Sound(c: Cache) {
    && c.capacity > 0
    && |c.prob| <= ProbationaryCapacity(c.capacity)
    && |c.prot| <= ProtectedCapacity(c.capacity)
    && DistinctKeys(c.prob) && DistinctKeys(c.prot)
    && (forall k | At(c.prob, k).Some? :: At(c.prot, k).None?)
  }

  /** Two segments exactly for capacities from 5 to 10,000, one fifth of them protected; every entry has
      its place in one of the segments. */
  lemma SegmentSizes(capacity: nat)
    requires capacity > 0
    ensures Segmented(Fresh(capacity)) <==> 5 <= capacity <= 10_000
    ensures Segmented(Fresh(capacity)) ==>
              5 * ProtectedCapacity(capacity) <= capacity < 5 * ProtectedCapacity(capacity) + 5
    ensures !Segmented(Fresh(capacity)) ==> ProbationaryCapacity(capacity) == capacity
  {
  }

  function Size(c: Cache): nat {
    |c.prob| + |c.prot|
  }

  // ----- one probe -----

  /** The protected entry that promoting `offset` pushes back to probation. */
  function Demoted(c: Cache, offset: nat): Option<Slot>
    requires Segmented(c) && Has(c.prob, offset)
  {
    Displaced(c.prot, ProtectedCapacity(c.capacity), c.prob[Find(c.prob, offset)])
  }

  /** Moves a probationary entry to the protected segment. */
  function Promoted(c: Cache, offset: nat): Cache
    requires c.capacity > 0 && Segmented(c) && Has(c.prob, offset)
  {
    var e := c.prob[Find(c.prob, offset)];
    var rest := Remove(c.prob, offset);
    c.(prob := match Demoted(c, offset)
       case Some(d) => Pushed(rest, ProbationaryCapacity(c.capacity), d)
       case None => rest,
       prot := Pushed(c.prot, ProtectedCapacity(c.capacity), e))
  }

  /** The value cached under an offset, in either segment. */
  function Cached(c: Cache, offset: nat): Option<Js> {
    match (At(c.prot, offset), At(c.prob, offset))
    case (Some(r), _) => Some(r.value)
    case (None, Some(r)) => Some(r.value)
    case (None, None) => None
  }

  /** How a hit rearranges the entries. */
  function Moved(c: Cache, offset: nat): Cache
    requires c.capacity > 0
  {
    if Segmented(c) && Has(c.prot, offset) then c.(prot := Touch(c.prot, offset))
    else if Segmented(c) && Has(c.prob, offset) then Promoted(c, offset)
    else c.(prob := Touch(c.prob, offset))
  }

  function Probed(c: Cache, offset: nat): Cache
    requires c.capacity > 0
  {
    if Cached(c, offset).Some? then Moved(c, offset).(hits := c.hits + 1)
    else c.(misses := c.misses + 1)
  }

  // ----- one insertion -----

  function Inserted(c: Cache, offset: nat, value: Js): Cache
    requires c.capacity > 0
  {
    if !value.IsObject() then c
    else
      var size, e := ProbationaryCapacity(c.capacity), Entry(offset, Ref(c.inserts, value));
      var c' := c.(prob := Pushed(c.prob, size, e), inserts := c.inserts + 1);
      match Displaced(c.prob, size, e)
      case None => c'
      case Some(gone) =>
        c'.(evictions := c.evictions + if gone.key != offset then 1 else 0,
        released := c.released + [gone.value.id])
  }

  // ----- clearing -----

  function Ids(s: seq<Slot>): (ids: seq<nat>)
    ensures |ids| == |s|
  {
    seq(|s|, i requires 0 <= i < |s| => s[i].value.id)
  }

  function Backwards(ids: seq<nat>): seq<nat> {
    if ids == [] then [] else [ids[|ids| - 1]] + Backwards(ids[..|ids| - 1])
  }

  lemma {:induction false} BackwardsAt(ids: seq<nat>, k: nat)
    requires k < |ids|
    ensures |Backwards(ids)| == |ids| && Backwards(ids)[k] == ids[|ids| - 1 - k]
  {
    if k > 0 {
      BackwardsAt(ids[..|ids| - 1], k - 1);
    } else if |ids| > 1 {
      BackwardsAt(ids[..|ids| - 1], 0);
    }
  }

  /** Clearing pops each segment from its least recent end, probation first. */
  function Cleared(c: Cache): Cache {
    c.(prob := [], prot := [],
    released := c.released + Backwards(Ids(c.prob)) + Backwards(Ids(c.prot)))
  }

  // ----- what each operation keeps -----

  /** Promotion never demotes the key it promotes, and the demoted entry always fits: these are
      the two debug assertions. */
  lemma PromotionFits(c: Cache, offset: nat)
    requires Sound(c) && Segmented(c) && Has(c.prob, offset)
    ensures At(c.prot, offset).None?
    ensures Demoted(c, offset).Some? ==>
              && Demoted(c, offset).value.key != offset
              && At(Remove(c.prob, offset), Demoted(c, offset).value.key).None?
              && Displaced(Remove(c.prob, offset), ProbationaryCapacity(c.capacity), Demoted(c, offset).value) == None
  {
    RemoveKeys(c.prob, offset);
    PushedKeys(c.prot, ProtectedCapacity(c.capacity), c.prob[Find(c.prob, offset)]);
  }

  /** After a promotion the two entries have changed segments, and every other one is where it was. */
  lemma PromotedAt(c: Cache, offset: nat)
    requires Sound(c) && Segmented(c) && Has(c.prob, offset)
    ensures var c', d := Promoted(c, offset), Demoted(c, offset);
            && DistinctKeys(c'.prob) && DistinctKeys(c'.prot)
            && |c'.prob| <= ProbationaryCapacity(c.capacity) && |c'.prot| <= ProtectedCapacity(c.capacity)
            && (forall k :: At(c'.prot, k) ==
                  if k == offset then At(c.prob, k)
                  else if d.Some? && d.value.key == k then None else At(c.prot, k))
            && (forall k :: At(c'.prob, k) ==
                  if k == offset then None
                  else if d.Some? && d.value.key == k then At(c.prot, k) else At(c.prob, k))
  {
    PromotionFits(c, offset);
    RemoveKeys(c.prob, offset);
    PushedKeys(c.prot, ProtectedCapacity(c.capacity), c.prob[Find(c.prob, offset)]);
    match Demoted(c, offset)
    case None =>
    case Some(d) => PushedKeys(Remove(c.prob, offset), ProbationaryCapacity(c.capacity), d);
  }

  /** A hit on any sound cache leaves it sound, and neither loses nor changes any cached value:
      promotion and demotion only move entries. */
  lemma MovedSound(c: Cache, offset: nat)
    requires Sound(c)
    ensures Sound(Moved(c, offset))
    ensures forall k :: Cached(Moved(c, offset), k) == Cached(c, k)
  {
    if Segmented(c) && Has(c.prot, offset) {
      TouchKeys(c.prot, offset);
    } else if Segmented(c) && Has(c.prob, offset) {
      PromotedAt(c, offset);
    } else {
      TouchKeys(c.prob, offset);
    }
  }

  lemma ProbedSound(c: Cache, offset: nat)
    requires Sound(c)
    ensures Sound(Probed(c, offset))
    ensures forall k :: Cached(Probed(c, offset), k) == Cached(c, k)
  {
    MovedSound(c, offset);
  }

  /** Inserting keeps the cache sound exactly when the value is not an object or the offset is not
      protected. The lookup protocol inserts only after a miss, which rules that case out. */
  lemma InsertedSoundIff(c: Cache, offset: nat, value: Js)
    requires Sound(c)
    ensures Sound(Inserted(c, offset, value)) <==> (value.IsObject() ==> At(c.prot, offset).None?)
  {
    PushedKeys(c.prob, ProbationaryCapacity(c.capacity), Entry(offset, Ref(c.inserts, value)));
  }

  /** Inserting an object over a probationary entry replaces it, which is no eviction; into a full
      segment it evicts one entry. Either way the reference that goes is given back. */
  lemma InsertedAccounts(c: Cache, offset: nat, value: Js)
    requires Sound(c) && value.IsObject()
    ensures var c', full := Inserted(c, offset, value), |c.prob| == ProbationaryCapacity(c.capacity);
            && At(c'.prob, offset) == Some(Ref(c.inserts, value)) && c'.prot == c.prot
            && c'.inserts == c.inserts + 1
            && if At(c.prob, offset).Some? then
                 && |c'.prob| == |c.prob| && c'.evictions == c.evictions
                 && c'.released == c.released + [At(c.prob, offset).value.id]
               else if full then
                 && |c'.prob| == |c.prob| && c'.evictions == c.evictions + 1
                 && c'.released == c.released + [c.prob[|c.prob| - 1].value.id]
               else
                 |c'.prob| == |c.prob| + 1 && c'.evictions == c.evictions && c'.released == c.released
  {
    PushedKeys(c.prob, ProbationaryCapacity(c.capacity), Entry(offset, Ref(c.inserts, value)));
  }

  /** After a miss, insertion caches the new value and drops at most one other entry, the least
      recent one in probation. */
  lemma InsertedCaches(c: Cache, offset: nat, value: Js)
    requires Sound(c) && Cached(c, offset).None? && value.IsObject()
    ensures var e := Entry(offset, Ref(c.inserts, value));
            var d := Displaced(c.prob, ProbationaryCapacity(c.capacity), e);
            forall k :: Cached(Inserted(c, offset, value), k) ==
                        if k == offset then Some(value)
                        else if d.Some? && d.value.key == k then None
                        else Cached(c, k)
  {
    PushedKeys(c.prob, ProbationaryCapacity(c.capacity), Entry(offset, Ref(c.inserts, value)));
  }

  // ----- the class -----

  class RecordCache {
    const capacity: nat
    const probationary: LruCache<Ref>
    const protected: LruCache?<Ref>
    var hits: nat
    var misses: nat
    var inserts: nat
    var evictions: nat
    var released: seq<nat>

    ghost function Repr(): set<object> {
      {this, probationary} + if protected == null then {} else {protected}
    }

    ghost function State(): Cache
      reads Repr()
    {
      Cache(capacity, probationary.entries, if protected == null then [] else protected.entries,
            hits, misses, inserts, evictions, released)
    }

    /** The lists are the ones the constructor made for this capacity. */
    ghost predicate Wired()
      reads Repr()
    {
      && capacity > 0
      && probationary.Valid()
      && probationary.capacity == ProbationaryCapacity(capacity)
      && (protected == null <==> !Segmented(State()))
      && (protected != null ==>
            && protected != probationary
            && protected.Valid()
            && protected.capacity == ProtectedCapacity(capacity))
    }

    ghost predicate Valid()
      reads Repr()
    {
      Wired() && Sound(State())
    }

    /** Every capacity of at least one leaves probation room for at least one entry. */
    constructor (capacity: nat)
      requires capacity > 0
      ensures Valid() && fresh(Repr())
      ensures State() == Fresh(capacity)
    {
      var p := if capacity <= LARGEST_SEGMENTED then capacity / 5 else 0;
      this.capacity := capacity;
      var q := new LruCache<Ref>(capacity - p);
      probationary := q;
      if p > 0 {
        var r := new LruCache<Ref>(p);
        protected := r;
      } else {
        protected := null;
      }
      hits, misses, inserts, evictions, released := 0, 0, 0, 0, [];
    }

    method Get(offset: nat) returns (r: Option<Js>)
      requires Valid()
      modifies Repr()
      ensures Valid()
      ensures State() == Probed(old(State()), offset)
      ensures r == Cached(old(State()), offset)
    {
      ProbedSound(State(), offset);
      if protected != null {
        r := Promote(offset);
      } else {
        var kept := probationary.Get(offset);
        r := if kept.Some? then Some(kept.value.value) else None;
      }
      if r.Some? {
        hits := hits + 1;
      } else {
        misses := misses + 1;
      }
    }

    /** Segmented mode: a protected hit, or else pop from probation, push into the protected segment,
        and push what that displaces back to probation. */
    method Promote(offset: nat) returns (r: Option<Js>)
      requires Valid() && protected != null
      modifies Repr()
      ensures Valid()
      ensures State() == if r.Some? then Moved(old(State()), offset) else old(State())
      ensures r == Cached(old(State()), offset)
    {
      ghost var c := State();
      MovedSound(c, offset);
      var kept := protected.Get(offset);
      if kept.Some? {
        return Some(kept.value.value);
      }
      var popped := probationary.Pop(offset);
      if popped.None? {
        return None;
      }
      PromotionFits(c, offset);
      assert c.prob[Find(c.prob, offset)] == Entry(offset, popped.value);
      var out := protected.Push(offset, popped.value);
      if out.Some? {
        assert out.value.key != offset;
        var evicted := probationary.Push(out.value.key, out.value.value);
        assert evicted.None?;
      }
      r := Some(popped.value.value);
    }

    /** Put alone does not look at the protected segment: it keeps the cache valid exactly when the
        offset is not there. */
    method Put(offset: nat, value: Js)
      requires Valid()
      modifies Repr()
      ensures Wired()
      ensures Valid() <==> (value.IsObject() ==> At(old(State()).prot, offset).None?)
      ensures State() == Inserted(old(State()), offset, value)
    {
      InsertedSoundIff(State(), offset, value);
      if value.IsObject() {
        PutObject(offset, value);
      }
    }

    method PutObject(offset: nat, value: Js)
      requires Wired() && value.IsObject()
      modifies Repr()
      ensures Wired()
      ensures State() == Inserted(old(State()), offset, value)
    {
      var reference := Ref(inserts, value);
      inserts := inserts + 1;
      var out := probationary.Push(offset, reference);
      if out.Some? {
        if out.value.key != offset {
          evictions := evictions + 1;
        }
        released := released + [out.value.value.id];
      }
    }

    method Clear()
      requires Valid()
      modifies Repr()
      ensures Valid()
      ensures State() == Cleared(old(State()))
    {
      ReleaseAll(probationary);
      if protected != null {
        ReleaseAll(protected);
      }
    }

    /** Pops one segment empty, giving back each reference. */
    method ReleaseAll(segment: LruCache<Ref>)
      requires segment.Valid()
      modifies this`released, segment
      ensures segment.Valid() && segment.entries == []
      ensures released == old(released) + Backwards(Ids(old(segment.entries)))
    {
      var next := segment.PopLru();
      while next.Some?
        invariant segment.Valid()
        invariant next.None? ==> segment.entries == []
        invariant released + Backwards(Ids(Pending(next, segment.entries)))
               == old(released) + Backwards(Ids(old(segment.entries)))
        decreases |segment.entries| + if next.Some? then 1 else 0
      {
        UnwindIds(segment.entries, next.value);
        released := released + [next.value.value.id];
        next := segment.PopLru();
      }
    }

    function Len(): (n: nat)
      requires Valid()
      reads Repr()
      ensures n == Size(State())
      ensures n <= capacity
    {
      |probationary.entries| + if protected == null then 0 else |protected.entries|
    }
  }

  /** The entries not yet released while clearing: the popped one is the least recent. */
  function Pending(next: Option<Slot>, rest: seq<Slot>): seq<Slot> {
    if next.Some? then rest + [next.value] else rest
  }

  lemma UnwindIds(s: seq<Slot>, last: Slot)
    ensures Backwards(Ids(s + [last])) == [last.value.id] + Backwards(Ids(s))
  {
    assert Ids(s + [last])[..|s|] == Ids(s);
  }
}
