/** Building JavaScript values from decoded records: array filling under unreliable size hints, and
    objects whose property names are C strings shared through a growing name cache. */
module Decoding {
  import opened Values

  /** A record value as the database decoder presents it. A hint is what the container claims its
      size to be; it may be absent or wrong. */
  datatype Value =
    | Scalar(js: Js)
    | List(hint: Option<nat>, elems: seq<Value>)
    | Dict(hint: Option<nat>, entries: seq<(seq<byte>, Value)>)

  /** Node's UTF-8 decoding, malformed input included; only its behaviour on ASCII is known here. */
  type Utf8 = seq<byte> -> seq<nat>

  predicate IsAscii(bytes: seq<byte>) {
    forall i | 0 <= i < |bytes| :: bytes[i] < 128
  }

  function Latin1(bytes: seq<byte>): seq<nat> {
    seq(|bytes|, i requires 0 <= i < |bytes| => bytes[i] as nat)
  }

  ghost predicate DecodesAscii(utf8: Utf8) {
    forall bytes: seq<byte> | IsAscii(bytes) :: utf8(bytes) == Latin1(bytes)
  }

  // ----- what a value means -----

  function Meaning(v: Value, utf8: Utf8): Js
    decreases v, 1, 0
  {
    match v
    case Scalar(js) => js
    case List(_, elems) => Array(seq(|elems|, i requires 0 <= i < |elems| => Meaning(elems[i], utf8)))
    case Dict(_, entries) => Object(Properties(v, |entries|, utf8))
  }

  /** The properties the first n entries define; a later entry replaces an earlier one of the same name. */
  function Properties(v: Value, n: nat, utf8: Utf8): map<seq<nat>, Js>
    requires v.Dict? && n <= |v.entries|
    decreases v, 0, n
  {
    if n == 0 then map[]
    else Properties(v, n - 1, utf8)[utf8(v.entries[n - 1].0) := Meaning(v.entries[n - 1].1, utf8)]
  }

  /** An object has exactly the decoded names. */
  lemma {:induction false} NamesAreTheKeys(v: Value, n: nat, utf8: Utf8, k: seq<nat>)
    requires v.Dict? && n <= |v.entries|
    ensures k in Properties(v, n, utf8) <==> exists i | 0 <= i < n :: utf8(v.entries[i].0) == k
  {
    if n > 0 {
      NamesAreTheKeys(v, n - 1, utf8, k);
      if k in Properties(v, n - 1, utf8) {
        var i :| 0 <= i < n - 1 && utf8(v.entries[i].0) == k;
      }
      assert utf8(v.entries[n - 1].0) in Properties(v, n, utf8);
    }
  }

  /** The value under a name is that of the last entry with the name. */
  lemma {:induction false} LastEntryWins(v: Value, n: nat, utf8: Utf8, i: nat)
    requires v.Dict? && i < n <= |v.entries|
    requires forall j | i < j < n :: utf8(v.entries[j].0) != utf8(v.entries[i].0)
    ensures var name := utf8(v.entries[i].0);
            name in Properties(v, n, utf8) && Properties(v, n, utf8)[name] == Meaning(v.entries[i].1, utf8)
  {
    if i < n - 1 {
      LastEntryWins(v, n - 1, utf8, i);
    }
  }

  // ----- what a value may become, said without building it -----

  /** The JavaScript value is the record value's: a scalar is itself; an array has the elements in their
      places and no others; an object has exactly the keys, each with its last entry's value. */
  ghost predicate Represents(js: Js, v: Value, utf8: Utf8)
    decreases v
  {
    match v
    case Scalar(s) => js == s
    case List(_, elems) =>
      && js.Array? && |js.elems| == |elems|
      && forall i | 0 <= i < |elems| :: Represents(js.elems[i], elems[i], utf8)
    case Dict(_, entries) =>
      && js.Object?
      && (forall k :: k in js.props <==> IsKey(entries, |entries|, utf8, k))
      && forall i | 0 <= i < |entries| && IsLast(entries, i, utf8) ::
           Represents(js.props[utf8(entries[i].0)], entries[i].1, utf8)
  }

  ghost predicate IsKey(entries: seq<(seq<byte>, Value)>, n: nat, utf8: Utf8, k: seq<nat>)
    requires n <= |entries|
  {
    exists i | 0 <= i < n :: utf8(entries[i].0) == k
  }

  /** No later entry has the same name. */
  ghost predicate IsLast(entries: seq<(seq<byte>, Value)>, i: nat, utf8: Utf8)
    requires i < |entries|
  {
    forall j | i < j < |entries| :: utf8(entries[j].0) != utf8(entries[i].0)
  }

  lemma {:induction false} MeaningRepresents(v: Value, utf8: Utf8)
    ensures Represents(Meaning(v, utf8), v, utf8)
    decreases v
  {
    match v
    case Scalar(_) =>
    case List(_, elems) =>
      forall i | 0 <= i < |elems|
        ensures Represents(Meaning(elems[i], utf8), elems[i], utf8)
      {
        MeaningRepresents(elems[i], utf8);
      }
    case Dict(_, entries) =>
      forall i | 0 <= i < |entries|
        ensures Represents(Meaning(entries[i].1, utf8), entries[i].1, utf8)
      {
        MeaningRepresents(entries[i].1, utf8);
      }
      PropertiesRepresent(v, utf8);
  }

  lemma PropertiesRepresent(v: Value, utf8: Utf8)
    requires v.Dict?
    requires forall i | 0 <= i < |v.entries| :: Represents(Meaning(v.entries[i].1, utf8), v.entries[i].1, utf8)
    ensures Represents(Object(Properties(v, |v.entries|, utf8)), v, utf8)
  {
    var n, props := |v.entries|, Properties(v, |v.entries|, utf8);
    forall k
      ensures k in props <==> IsKey(v.entries, n, utf8, k)
    {
      NamesAreTheKeys(v, n, utf8, k);
    }
    forall i | 0 <= i < n && IsLast(v.entries, i, utf8)
      ensures utf8(v.entries[i].0) in props && Represents(props[utf8(v.entries[i].0)], v.entries[i].1, utf8)
    {
      LastEntryWins(v, n, utf8, i);
    }
  }

  /** There is only one such value: being it leaves nothing open. */
  lemma {:induction false} RepresentsOne(a: Js, b: Js, v: Value, utf8: Utf8)
    requires Represents(a, v, utf8) && Represents(b, v, utf8)
    ensures a == b
    decreases v
  {
    match v
    case Scalar(_) =>
    case List(_, elems) =>
      forall i | 0 <= i < |elems|
        ensures a.elems[i] == b.elems[i]
      {
        RepresentsOne(a.elems[i], b.elems[i], elems[i], utf8);
      }
      assert a.elems == b.elems;
    case Dict(_, entries) =>
      forall k | k in a.props
        ensures k in b.props && a.props[k] == b.props[k]
      {
        var i := LastWithName(entries, |entries|, utf8, k);
        RepresentsOne(a.props[k], b.props[k], entries[i].1, utf8);
      }
      assert a.props == b.props;
  }

  lemma LastWithName(entries: seq<(seq<byte>, Value)>, n: nat, utf8: Utf8, k: seq<nat>) returns (i: nat)
    requires n <= |entries| && IsKey(entries, n, utf8, k)
    requires forall j | n <= j < |entries| :: utf8(entries[j].0) != k
    ensures i < n && utf8(entries[i].0) == k && IsLast(entries, i, utf8)
  {
    if utf8(entries[n - 1].0) == k {
      i := n - 1;
    } else {
      i := LastWithName(entries, n - 1, utf8, k);
    }
  }

  // ----- the C heap and the name cache -----

  /** Blocks of bytes at addresses that stay put until freed. */
  class CHeap {
    var memory: map<nat, seq<byte>>
    var next: nat

    ghost predicate Valid()
      reads this
    {
      forall p | p in memory :: p < next
    }

    constructor ()
      ensures Valid() && memory == map[]
    {
      memory, next := map[], 0;
    }

    method Alloc(bytes: seq<byte>) returns (p: nat)
      requires Valid()
      modifies this
      ensures Valid() && p !in old(memory) && memory == old(memory)[p := bytes]
    {
      p := next;
      memory := memory[p := bytes];
      next := next + 1;
    }

    method Free(p: nat)
      requires Valid()
      modifies this
      ensures Valid() && memory == old(memory) - {p}
    {
      memory := memory - {p};
    }
  }

  /** What a C string at some block reads as: the bytes before the first NUL. */
  function CString(block: seq<byte>): seq<byte> {
    if block == [] || block[0] == 0 then [] else [block[0]] + CString(block[1..])
  }

  lemma CStringOf(name: seq<byte>)
    requires 0 !in name
    ensures CString(name + [0]) == name
  {
    if name != [] {
      assert (name + [0])[1..] == name[1..] + [0];
      CStringOf(name[1..]);
    }
  }

  class PropertyNameCache {
    const heap: CHeap
    var values: map<seq<byte>, nat>

    ghost predicate Valid()
      reads this, heap
    {
      heap.Valid() && forall name | name in values :: Denotes(heap.memory, values[name], name)
    }

    constructor (heap: CHeap)
      requires heap.Valid()
      ensures Valid() && values == map[] && this.heap == heap
    {
      this.heap := heap;
      values := map[];
    }

    /** A pointer to the name as a C string, allocated once per name; None exactly when the name has
        a NUL inside. Nothing already allocated moves or changes. */
    method Get(name: seq<byte>) returns (r: Option<nat>)
      requires Valid()
      modifies this, heap
      ensures Valid() && Grown(old(heap.memory), heap.memory)
      ensures r.None? <==> 0 in name
      ensures r.Some? ==> Denotes(heap.memory, r.value, name)
      ensures r.Some? && name in old(values) ==> r.value == old(values)[name] && heap.memory == old(heap.memory)
    {
      if name in values {
        DenotesNoNul(heap.memory, values[name], name);
        return Some(values[name]);
      }
      if 0 in name {
        return None;
      }
      CStringOf(name);
      var p := heap.Alloc(name + [0]);
      values := values[name := p];
      r := Some(p);
    }

    /** Frees every name: pointers handed out before are dead afterwards. */
    method Clear()
      requires Valid()
      modifies this, heap
      ensures Valid() && values == map[]
      ensures forall name | name in old(values) :: old(values)[name] !in heap.memory
    {
      var names := values.Keys;
      while names != {}
        invariant heap.Valid() && names <= values.Keys && values == old(values)
        invariant forall name | name in values && name !in names :: values[name] !in heap.memory
        decreases |names|
      {
        var name :| name in names;
        heap.Free(values[name]);
        names := names - {name};
      }
      values := map[];
    }
  }

  /** The block at p is this name with its terminator, and reads back as the name. */
  ghost predicate Denotes(memory: map<nat, seq<byte>>, p: nat, name: seq<byte>) {
    p in memory && memory[p] == name + [0] && CString(memory[p]) == name
  }

  lemma DenotesNoNul(memory: map<nat, seq<byte>>, p: nat, name: seq<byte>)
    requires Denotes(memory, p, name)
    ensures 0 !in name
  {
    CStringHasNoNul(name + [0]);
  }

  lemma CStringHasNoNul(block: seq<byte>)
    ensures 0 !in CString(block)
  {
  }

  ghost predicate Grown(before: map<nat, seq<byte>>, after: map<nat, seq<byte>>) {
    forall p | p in before :: p in after && after[p] == before[p]
  }

  // ----- JavaScript containers under construction -----

  /** A JavaScript array being filled: None is a hole. */
  class JsArray {
    var slots: seq<Option<Js>>

    constructor (length: nat)
      ensures slots == seq(length, _ => None)
    {
      slots := seq(length, _ => None);
    }

    /** Setting past the end extends the array. */
    method Set(index: nat, value: Js)
      modifies this
      ensures |slots| == if index < |old(slots)| then |old(slots)| else index + 1
      ensures slots[index] == Some(value)
      ensures forall i | 0 <= i < |old(slots)| && i != index :: slots[i] == old(slots)[i]
    {
      if index >= |slots| {
        slots := slots + seq(index + 1 - |slots|, _ => None);
      }
      slots := slots[index := Some(value)];
    }

    method SetLength(length: nat)
      modifies this
      ensures |slots| == length
      ensures forall i | 0 <= i < length && i < |old(slots)| :: slots[i] == old(slots)[i]
    {
      slots := if length <= |slots| then slots[..length] else slots + seq(length - |slots|, _ => None);
    }
  }

  /** One property to define: its name is a C string pointer, or else a JavaScript string. */
  datatype Descriptor = Descriptor(utf8name: Option<nat>, name: seq<nat>, value: Js)

  class Decoder {
    const names: PropertyNameCache
    const utf8: Utf8

    ghost predicate Valid()
      reads names, names.heap
    {
      names.Valid() && DecodesAscii(utf8)
    }

    constructor (names: PropertyNameCache, utf8: Utf8)
      requires names.Valid() && DecodesAscii(utf8)
      ensures Valid() && this.names == names && this.utf8 == utf8
    {
      this.names, this.utf8 := names, utf8;
    }

    /** Builds the JavaScript value a record means, whatever the size hints say. */
    method Visit(v: Value) returns (js: Js)
      requires Valid()
      modifies names, names.heap
      ensures Valid() && Grown(old(names.heap.memory), names.heap.memory)
      ensures js == Meaning(v, utf8) && Represents(js, v, utf8)
      decreases v, 1
    {
      MeaningRepresents(v, utf8);
      match v
      case Scalar(s) => js := s;
      case List(_, _) => js := VisitSeq(v);
      case Dict(_, _) => js := VisitMap(v);
    }

    method VisitSeq(v: Value) returns (js: Js)
      requires Valid() && v.List?
      modifies names, names.heap
      ensures Valid() && Grown(old(names.heap.memory), names.heap.memory)
      ensures js == Meaning(v, utf8) && Represents(js, v, utf8)
      decreases v, 0
    {
      MeaningRepresents(v, utf8);
      var expectedLength := if v.hint.Some? then v.hint.value else 0;
      var target := new JsArray(expectedLength);
      var actualLength := 0;
      while actualLength < |v.elems|
        invariant Valid() && Grown(old(names.heap.memory), names.heap.memory)
        invariant 0 <= actualLength <= |v.elems| && fresh(target)
        invariant |target.slots| == if expectedLength > actualLength then expectedLength else actualLength
        invariant forall i | 0 <= i < actualLength :: target.slots[i] == Some(Meaning(v.elems[i], utf8))
      {
        var value := Visit(v.elems[actualLength]);
        target.Set(actualLength, value);
        actualLength := actualLength + 1;
      }
      if actualLength != expectedLength {
        target.SetLength(actualLength);
      }
      var slots := target.slots;
      js := Array(seq(|slots|, i requires 0 <= i < |slots| && slots[i].Some? => slots[i].value));
    }

    method VisitMap(v: Value) returns (js: Js)
      requires Valid() && v.Dict?
      modifies names, names.heap
      ensures Valid() && Grown(old(names.heap.memory), names.heap.memory)
      ensures js == Meaning(v, utf8)
      decreases v, 0
    {
      var descriptors: seq<Descriptor> := [];
      for i := 0 to |v.entries|
        invariant Valid() && Grown(old(names.heap.memory), names.heap.memory)
        invariant |descriptors| == i
        invariant forall j | 0 <= j < i :: Describes(descriptors[j], names.heap.memory, v.entries[j])
      {
        var value := Visit(v.entries[i].1);
        var descriptor := PropertyDescriptor(v.entries[i].0, value);
        descriptors := descriptors + [descriptor];
      }
      js := DefineProperties(v, descriptors);
    }

    /** The descriptor still names its entry's key, through the heap as it is now, with that
        entry's value. */
    ghost predicate Describes(d: Descriptor, memory: map<nat, seq<byte>>, entry: (seq<byte>, Value)) {
      && d.value == Meaning(entry.1, utf8)
      && (d.utf8name.Some? ==> Denotes(memory, d.utf8name.value, entry.0))
      && (d.utf8name.None? ==> d.name == utf8(entry.0))
    }

    /** The cached C string when the key has no NUL, else a JavaScript string made from the bytes. */
    method PropertyDescriptor(key: seq<byte>, value: Js) returns (d: Descriptor)
      requires Valid()
      modifies names, names.heap
      ensures Valid() && Grown(old(names.heap.memory), names.heap.memory)
      ensures d.value == value
      ensures d.utf8name.Some? <==> 0 !in key
      ensures d.utf8name.Some? ==> Denotes(names.heap.memory, d.utf8name.value, key)
      ensures d.utf8name.None? ==> d.name == utf8(key)
    {
      var utf8name := names.Get(key);
      if utf8name.Some? {
        return Descriptor(utf8name, [], value);
      }
      d := Descriptor(None, if IsAscii(key) then Latin1(key) else utf8(key), value);
    }

    /** Defines all properties at once, reading every name pointer only now. */
    method DefineProperties(v: Value, descriptors: seq<Descriptor>) returns (js: Js)
      requires Valid() && v.Dict? && |descriptors| == |v.entries|
      requires forall j | 0 <= j < |descriptors| :: Describes(descriptors[j], names.heap.memory, v.entries[j])
      ensures js == Meaning(v, utf8)
    {
      var props: map<seq<nat>, Js> := map[];
      for i := 0 to |descriptors|
        invariant props == Properties(v, i, utf8)
      {
        var d := descriptors[i];
        assert Describes(d, names.heap.memory, v.entries[i]);
        var key := if d.utf8name.Some? then utf8(CString(names.heap.memory[d.utf8name.value])) else d.name;
        props := props[key := d.value];
      }
      js := Object(props);
    }
  }
}
