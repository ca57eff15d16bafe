/** The `lru` crate's LruCache: a bounded list of entries, most recently used first. */
module Lru {
  import opened Values

  datatype Entry<+V> = Entry(key: nat, value: V)

  /** Where the key is, or the length when it is absent. */
  function Find<V>(s: seq<Entry<V>>, key: nat): (i: nat)
    ensures i <= |s|
    ensures forall j | 0 <= j < i :: s[j].key != key
    ensures i < |s| ==> s[i].key == key
  {
    if s == [] || s[0].key == key then 0 else 1 + Find(s[1..], key)
  }

  predicate Has<V>(s: seq<Entry<V>>, key: nat) {
    Find(s, key) < |s|
  }

  function Remove<V>(s: seq<Entry<V>>, key: nat): seq<Entry<V>> {
    var i := Find(s, key);
    if i < |s| then s[..i] + s[i + 1..] else s
  }

  ghost predicate DistinctKeys<V>(s: seq<Entry<V>>) {
    forall i, j | 0 <= i < j < |s| :: s[i].key != s[j].key
  }

  /** Moves the entry of a present key to the front. */
  function Touch<V>(s: seq<Entry<V>>, key: nat): seq<Entry<V>> {
    var i := Find(s, key);
    if i < |s| then [s[i]] + Remove(s, key) else s
  }

  /** The list after inserting e in front of at most `capacity` entries. */
  function Pushed<V>(s: seq<Entry<V>>, capacity: nat, e: Entry<V>): seq<Entry<V>>
    requires capacity > 0
  {
    if Has(s, e.key) || |s| < capacity then [e] + Remove(s, e.key) else [e] + s[..|s| - 1]
  }

  /** What that insertion pushes out: the entry it replaces, or the least recent one when full. */
  function Displaced<V>(s: seq<Entry<V>>, capacity: nat, e: Entry<V>): Option<Entry<V>>
    requires capacity > 0
  {
    if Has(s, e.key) then Some(s[Find(s, e.key)])
    else if |s| < capacity then None
    else Some(s[|s| - 1])
  }

  /** The value stored under a key. */
  function At<V>(s: seq<Entry<V>>, key: nat): Option<V> {
    if Has(s, key) then Some(s[Find(s, key)].value) else None
  }

  /** With distinct keys, any position of a key is the one Find gives. */
  lemma Located<V>(s: seq<Entry<V>>, i: nat)
    requires DistinctKeys(s) && i < |s|
    ensures Find(s, s[i].key) == i && At(s, s[i].key) == Some(s[i].value)
  {
  }

  lemma RemoveKeys<V>(s: seq<Entry<V>>, key: nat)
    requires DistinctKeys(s)
    ensures DistinctKeys(Remove(s, key))
    ensures forall k :: At(Remove(s, key), k) == if k == key then None else At(s, k)
  {
    RemoveDistinct(s, key);
    forall k
      ensures At(Remove(s, key), k) == if k == key then None else At(s, k)
    {
      RemoveAt(s, key, k);
    }
  }

  lemma RemoveDistinct<V>(s: seq<Entry<V>>, key: nat)
    requires DistinctKeys(s)
    ensures DistinctKeys(Remove(s, key))
  {
  }

  lemma RemoveAt<V>(s: seq<Entry<V>>, key: nat, k: nat)
    requires DistinctKeys(s)
    ensures At(Remove(s, key), k) == if k == key then None else At(s, k)
  {
    RemoveDistinct(s, key);
    var i, r, f := Find(s, key), Remove(s, key), Find(s, k);
    assert forall j | 0 <= j < |r| :: r[j] == if j < i then s[j] else s[j + 1];
    if f < |s| && k != key {
      Located(r, if f < i then f else f - 1);
    }
  }

  lemma ConsKeys<V>(e: Entry<V>, s: seq<Entry<V>>)
    requires DistinctKeys(s) && !Has(s, e.key)
    ensures DistinctKeys([e] + s)
    ensures forall k :: At([e] + s, k) == if k == e.key then Some(e.value) else At(s, k)
  {
    var t := [e] + s;
    assert forall j | 1 <= j < |t| :: t[j] == s[j - 1];
    forall k
      ensures At(t, k) == if k == e.key then Some(e.value) else At(s, k)
    {
      assert t[0].key == e.key;
      if Has(s, k) {
        Located(t, Find(s, k) + 1);
      }
    }
  }

  lemma DropLastKeys<V>(s: seq<Entry<V>>)
    requires DistinctKeys(s) && s != []
    ensures DistinctKeys(s[..|s| - 1])
    ensures forall k :: At(s[..|s| - 1], k) == if k == s[|s| - 1].key then None else At(s, k)
  {
    var t := s[..|s| - 1];
    forall k
      ensures At(t, k) == if k == s[|s| - 1].key then None else At(s, k)
    {
      if Has(s, k) && Find(s, k) < |t| {
        Located(t, Find(s, k));
      }
    }
  }

  /** Touching reorders; it neither loses a key nor changes a value. */
  lemma TouchKeys<V>(s: seq<Entry<V>>, key: nat)
    requires DistinctKeys(s)
    ensures DistinctKeys(Touch(s, key)) && |Touch(s, key)| == |s|
    ensures forall k :: At(Touch(s, key), k) == At(s, k)
  {
    if Has(s, key) {
      RemoveKeys(s, key);
      ConsKeys(s[Find(s, key)], Remove(s, key));
    }
  }

  /** After a push, exactly the pushed entry and the old entries are present, less the one evicted. */
  lemma PushedKeys<V>(s: seq<Entry<V>>, capacity: nat, e: Entry<V>)
    requires 0 < capacity && |s| <= capacity && DistinctKeys(s)
    ensures DistinctKeys(Pushed(s, capacity, e)) && |Pushed(s, capacity, e)| <= capacity
    ensures var d := Displaced(s, capacity, e);
            && (d.Some? ==> At(s, d.value.key) == Some(d.value.value))
            && forall k :: At(Pushed(s, capacity, e), k) ==
                           if k == e.key then Some(e.value)
                           else if d.Some? && d.value.key == k then None
                           else At(s, k)
  {
    if Has(s, e.key) || |s| < capacity {
      RemoveKeys(s, e.key);
      ConsKeys(e, Remove(s, e.key));
    } else {
      DropLastKeys(s);
      Located(s, |s| - 1);
      ConsKeys(e, s[..|s| - 1]);
    }
  }

  class LruCache<V> {
    const capacity: nat
    var entries: seq<Entry<V>>

    ghost predicate Valid()
      reads this
    {
      0 < capacity && |entries| <= capacity && DistinctKeys(entries)
    }

    constructor (capacity: nat)
      requires capacity > 0
      ensures Valid() && entries == [] && this.capacity == capacity
    {
      this.capacity := capacity;
      entries := [];
    }

    method Get(key: nat) returns (r: Option<V>)
      requires Valid()
      modifies this
      ensures Valid() && entries == Touch(old(entries), key)
      ensures r == At(old(entries), key) && (r.None? ==> entries == old(entries))
    {
      r := At(entries, key);
      TouchKeys(entries, key);
      entries := Touch(entries, key);
    }

    method Pop(key: nat) returns (r: Option<V>)
      requires Valid()
      modifies this
      ensures Valid() && entries == Remove(old(entries), key)
      ensures r == At(old(entries), key) && (r.None? ==> entries == old(entries))
    {
      r := At(entries, key);
      RemoveKeys(entries, key);
      entries := Remove(entries, key);
    }

    method Push(key: nat, value: V) returns (r: Option<Entry<V>>)
      requires Valid()
      modifies this
      ensures Valid() && entries == Pushed(old(entries), capacity, Entry(key, value))
      ensures r == Displaced(old(entries), capacity, Entry(key, value))
    {
      r := Displaced(entries, capacity, Entry(key, value));
      PushedKeys(entries, capacity, Entry(key, value));
      entries := Pushed(entries, capacity, Entry(key, value));
    }

    method PopLru() returns (r: Option<Entry<V>>)
      requires Valid()
      modifies this
      ensures Valid()
      ensures old(entries) == [] ==> r == None && entries == []
      ensures old(entries) != [] ==> r.Some? && old(entries) == entries + [r.value]
    {
      if entries == [] {
        r := None;
      } else {
        r := Some(entries[|entries| - 1]);
        entries := entries[..|entries| - 1];
      }
    }
  }
}
