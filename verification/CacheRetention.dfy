/** How long the segmented cache keeps an entry: lower bounds on what must happen before it goes. */
module CacheRetention {
  import opened Values
  import opened Lru
  import opened RecordCaches
  import opened CacheHistory

  /** What one lookup did: its offset, whether it hit, and whether it pushed into probation
      (an insertion, or a demotion caused by a promotion). */
  datatype Note = Note(offset: nat, hit: bool, pushed: bool)

  function NoteOf(c: Cache, offset: nat, decoded: Result<Js>): Note
    requires Segmented(c)
  {
    var hit := Cached(c, offset).Some?;
    Note(offset, hit,
         if hit then At(c.prot, offset).None? && Has(c.prob, offset) && Demoted(c, offset).Some?
         else decoded.Ok? && decoded.value.IsObject())
  }

  /** An offset that probation holds now and did not hold before. */
  ghost predicate Entered(c: Cache, c': Cache, k: nat) {
    Has(c'.prob, k) && !Has(c.prob, k)
  }

  /** A noted push is one that put a new offset into probation. */
  lemma NotedPushesAreSeen(c: Cache, offset: nat, decoded: Result<Js>)
    requires Sound(c) && Segmented(c)
    ensures NoteOf(c, offset, decoded).pushed <==> exists k :: Entered(c, Looked(c, offset, decoded), k)
  {
    if Has(c.prot, offset) {
    } else if Has(c.prob, offset) {
      PromotedAt(c, offset);
      var d := Demoted(c, offset);
      if d.Some? {
        PromotionFits(c, offset);
        PushedKeys(c.prot, ProtectedCapacity(c.capacity), c.prob[Find(c.prob, offset)]);
        assert Entered(c, Looked(c, offset, decoded), d.value.key);
      }
    } else if decoded.Ok? && decoded.value.IsObject() {
      var e := Entry(offset, Ref(c.inserts, decoded.value));
      PushedKeys(c.prob, ProbationaryCapacity(c.capacity), e);
      assert Entered(c, Looked(c, offset, decoded), offset);
    }
  }

  function Notes(c: Cache, decode: Decoder, offsets: seq<nat>): (notes: seq<Note>)
    requires c.capacity > 0 && Segmented(c)
    ensures |notes| == |offsets|
  {
    if offsets == [] then []
    else
      var n := |offsets| - 1;
      Notes(c, decode, offsets[..n]) + [NoteOf(Run(c, decode, offsets[..n]), offsets[n], decode(offsets[n]))]
  }

  /** The distinct offsets other than x that were hit. */
  function OthersHit(notes: seq<Note>, x: nat): set<nat> {
    set i | 0 <= i < |notes| && notes[i].hit && notes[i].offset != x :: notes[i].offset
  }

  function Pushes(notes: seq<Note>): nat {
    if notes == [] then 0
    else Pushes(notes[..|notes| - 1]) + if notes[|notes| - 1].pushed then 1 else 0
  }

  /** The keys ahead of x in a segment. */
  function Ahead(s: seq<Slot>, x: nat): set<nat> {
    set i | 0 <= i < Find(s, x) :: s[i].key
  }

  lemma {:induction false} AheadSize(s: seq<Slot>, n: nat)
    requires DistinctKeys(s) && n <= |s|
    ensures |set i | 0 <= i < n :: s[i].key| == n
  {
    if n > 0 {
      AheadSize(s, n - 1);
      var before := set i | 0 <= i < n - 1 :: s[i].key;
      assert (set i | 0 <= i < n :: s[i].key) == before + {s[n - 1].key};
    }
  }

  // ----- how one lookup moves an entry -----

  lemma RemovedIndex(s: seq<Slot>, key: nat, m: nat)
    requires m < |Remove(s, key)|
    ensures Remove(s, key)[m] == s[if m < Find(s, key) then m else m + 1]
  {
  }

  lemma PushedIndex(s: seq<Slot>, capacity: nat, e: Slot, m: nat)
    requires 0 < capacity && |s| <= capacity && m < |Pushed(s, capacity, e)|
    ensures Pushed(s, capacity, e)[m] ==
            if m == 0 then e else s[if m <= Find(s, e.key) then m - 1 else m]
  {
    if m > 0 && (Has(s, e.key) || |s| < capacity) {
      assert Pushed(s, capacity, e)[m] == Remove(s, e.key)[m - 1];
      RemovedIndex(s, e.key, m - 1);
    }
  }

  lemma BumpIndex(s: seq<Slot>, capacity: nat, e: Slot, x: nat)
    requires DistinctKeys(s) && 0 < capacity && |s| <= capacity && Has(s, x) && e.key != x
    requires Has(s, e.key) || |s| < capacity || Find(s, x) < |s| - 1
    ensures var t := Pushed(s, capacity, e);
            Has(t, x) && Find(t, x) == if Find(s, e.key) < Find(s, x) then Find(s, x) else Find(s, x) + 1
  {
    var at := if Find(s, e.key) < Find(s, x) then Find(s, x) else Find(s, x) + 1;
    PushedKeys(s, capacity, e);
    PushedIndex(s, capacity, e, at);
    Located(Pushed(s, capacity, e), at);
  }

  lemma BumpMoves(s: seq<Slot>, capacity: nat, e: Slot, x: nat)
    requires DistinctKeys(s) && 0 < capacity && |s| <= capacity && Has(s, x) && e.key != x
    requires Has(s, e.key) || |s| < capacity || Find(s, x) < |s| - 1
    ensures var t := Pushed(s, capacity, e);
            && Has(t, x) && Find(t, x) <= Find(s, x) + 1
            && Ahead(t, x) <= Ahead(s, x) + {e.key}
  {
    var t := Pushed(s, capacity, e);
    BumpIndex(s, capacity, e, x);
    forall k | k in Ahead(t, x)
      ensures k in Ahead(s, x) + {e.key}
    {
      var m :| 0 <= m < Find(t, x) && t[m].key == k;
      PushedIndex(s, capacity, e, m);
      if m > 0 {
        var m' := if m <= Find(s, e.key) then m - 1 else m;
        assert s[m'].key == k;
      }
    }
  }

  lemma TouchMoves(s: seq<Slot>, key: nat, x: nat)
    requires DistinctKeys(s) && Has(s, x) && Has(s, key) && key != x
    ensures Has(Touch(s, key), x) && Ahead(Touch(s, key), x) <= Ahead(s, x) + {key}
  {
    BumpMoves(s, |s|, s[Find(s, key)], x);
  }

  /** A protected entry stays behind only offsets hit since, or is demoted to the front of
      probation with that push noted. */
  lemma ProtectedStep(c: Cache, offset: nat, decoded: Result<Js>, x: nat)
    requires Sound(c) && Segmented(c) && Has(c.prot, x) && offset != x
    ensures var c', note := Looked(c, offset, decoded), NoteOf(c, offset, decoded);
            if Has(c'.prot, x) then
              Ahead(c'.prot, x) <= Ahead(c.prot, x) + if note.hit then {offset} else {}
            else
              && note.hit && offset !in Ahead(c.prot, x)
              && Find(c.prot, x) == ProtectedCapacity(c.capacity) - 1
              && c'.prob != [] && c'.prob[0].key == x
  {
    if Has(c.prot, offset) {
      TouchMoves(c.prot, offset, x);
    } else if Has(c.prob, offset) {
      PromotionFits(c, offset);
      var p := ProtectedCapacity(c.capacity);
      if |c.prot| < p || Find(c.prot, x) < p - 1 {
        BumpMoves(c.prot, p, c.prob[Find(c.prob, offset)], x);
      } else {
        PushedKeys(c.prot, p, c.prob[Find(c.prob, offset)]);
        assert At(Looked(c, offset, decoded).prot, x).None?;
      }
    }
  }

  lemma RemoveMoves(s: seq<Slot>, key: nat, x: nat)
    requires DistinctKeys(s) && Has(s, x) && key != x
    ensures Has(Remove(s, key), x) && Find(Remove(s, key), x) <= Find(s, x)
  {
    var i, j := Find(s, x), Find(s, key);
    RemoveKeys(s, key);
    Located(Remove(s, key), if j < i then i - 1 else i);
  }

  /** Probation only ages by pushes: an untouched entry moves back at most one place per noted
      push, and only a noted push can evict it, from the last place. */
  lemma ProbationStep(c: Cache, offset: nat, decoded: Result<Js>, x: nat)
    requires Sound(c) && Segmented(c) && Has(c.prob, x) && offset != x
    ensures var c', note := Looked(c, offset, decoded), NoteOf(c, offset, decoded);
            if Has(c'.prob, x) then
              Find(c'.prob, x) <= Find(c.prob, x) + if note.pushed then 1 else 0
            else
              note.pushed && Find(c.prob, x) == ProbationaryCapacity(c.capacity) - 1
  {
    var q := ProbationaryCapacity(c.capacity);
    if Has(c.prot, offset) {
    } else if Has(c.prob, offset) {
      var rest := Remove(c.prob, offset);
      RemoveKeys(c.prob, offset);
      RemoveMoves(c.prob, offset, x);
      PromotionFits(c, offset);
      PushedKeys(c.prot, ProtectedCapacity(c.capacity), c.prob[Find(c.prob, offset)]);
      match Demoted(c, offset)
      case None =>
      case Some(d) =>
        assert At(c.prob, x).Some?;
        BumpMoves(rest, q, d, x);
    } else if decoded.Ok? && decoded.value.IsObject() {
      if |c.prob| < q || Find(c.prob, x) < q - 1 {
        BumpMoves(c.prob, q, Entry(offset, Ref(c.inserts, decoded.value)), x);
      }
    }
  }

  // ----- the bound over a run -----

  /** Some split of the notes has at least p distinct other offsets hit before it and at least
      `age` pushes into probation after it. */
  ghost predicate Aged(notes: seq<Note>, x: nat, p: nat, age: nat) {
    exists k | 0 <= k <= |notes| :: |OthersHit(notes[..k], x)| >= p && Pushes(notes[k..]) >= age
  }

  lemma AgedGrows(notes: seq<Note>, note: Note, x: nat, p: nat, age: nat)
    requires Aged(notes, x, p, age)
    ensures Aged(notes + [note], x, p, age + if note.pushed then 1 else 0)
  {
    var k :| 0 <= k <= |notes| && |OthersHit(notes[..k], x)| >= p && Pushes(notes[k..]) >= age;
    var all := notes + [note];
    assert all[..k] == notes[..k];
    assert all[k..] == notes[k..] + [note];
    assert all[k..][..|all[k..]| - 1] == notes[k..];
  }

  lemma AgedWeakens(notes: seq<Note>, x: nat, p: nat, age: nat, less: nat)
    requires Aged(notes, x, p, age) && less <= age
    ensures Aged(notes, x, p, less)
  {
    var k :| 0 <= k <= |notes| && |OthersHit(notes[..k], x)| >= p && Pushes(notes[k..]) >= age;
    assert Pushes(notes[k..]) >= less;
  }

  lemma OthersGrow(notes: seq<Note>, note: Note, x: nat)
    ensures OthersHit(notes + [note], x)
         == OthersHit(notes, x) + if note.hit && note.offset != x then {note.offset} else {}
  {
    var all := notes + [note];
    assert all[..|notes|] == notes;
    forall k | k in OthersHit(notes, x)
      ensures k in OthersHit(all, x)
    {
      var i :| 0 <= i < |notes| && notes[i].hit && notes[i].offset != x && notes[i].offset == k;
      assert all[i] == notes[i];
    }
    if note.hit && note.offset != x {
      assert all[|notes|] == note;
    }
  }

  /** Where a once-hit entry can be: protected behind offsets hit since, in probation aged by the
      pushes since its demotion, or possibly gone after a full passage through probation. */
  ghost predicate Stage(c: Cache, notes: seq<Note>, x: nat)
    requires c.capacity > 0
  {
    var p := ProtectedCapacity(c.capacity);
    || (Has(c.prot, x) && Ahead(c.prot, x) <= OthersHit(notes, x))
    || (Has(c.prob, x) && Aged(notes, x, p, Find(c.prob, x)))
    || Aged(notes, x, p, ProbationaryCapacity(c.capacity))
  }

  lemma DemotionAges(c: Cache, offset: nat, notes: seq<Note>, x: nat)
    requires Sound(c) && Segmented(c) && Has(c.prot, x) && offset != x
    requires Find(c.prot, x) == ProtectedCapacity(c.capacity) - 1
    requires Ahead(c.prot, x) <= OthersHit(notes, x) && offset !in Ahead(c.prot, x)
    ensures Aged(notes + [Note(offset, true, true)], x, ProtectedCapacity(c.capacity), 0)
    ensures Aged(notes + [Note(offset, true, false)], x, ProtectedCapacity(c.capacity), 0)
  {
    AheadSize(c.prot, Find(c.prot, x));
    var ahead := Ahead(c.prot, x) + {offset};
    assert |ahead| == ProtectedCapacity(c.capacity);
    forall b: bool
      ensures Aged(notes + [Note(offset, true, b)], x, ProtectedCapacity(c.capacity), 0)
    {
      var all := notes + [Note(offset, true, b)];
      OthersGrow(notes, Note(offset, true, b), x);
      SubsetSize(ahead, OthersHit(all, x));
      assert all[..|all|] == all;
    }
  }

  lemma SubsetSize(a: set<nat>, b: set<nat>)
    requires a <= b
    ensures |a| <= |b|
  {
    if a != {} {
      var k :| k in a;
      SubsetSize(a - {k}, b - {k});
    }
  }

  lemma StageStep(c: Cache, offset: nat, decoded: Result<Js>, notes: seq<Note>, x: nat)
    requires Sound(c) && Segmented(c) && Stage(c, notes, x)
    ensures Stage(Looked(c, offset, decoded), notes + [NoteOf(c, offset, decoded)], x)
  {
    var c', note, p := Looked(c, offset, decoded), NoteOf(c, offset, decoded), ProtectedCapacity(c.capacity);
    LookedSound(c, offset, decoded);
    if Aged(notes, x, p, ProbationaryCapacity(c.capacity)) {
      AgedGrows(notes, note, x, p, ProbationaryCapacity(c.capacity));
      AgedWeakens(notes + [note], x, p, ProbationaryCapacity(c.capacity) + if note.pushed then 1 else 0,
                  ProbationaryCapacity(c.capacity));
    } else if offset == x {
      HitInFront(c, x, decoded);
    } else if Has(c.prot, x) && Ahead(c.prot, x) <= OthersHit(notes, x) {
      ProtectedStep(c, offset, decoded, x);
      OthersGrow(notes, note, x);
      if !Has(c'.prot, x) {
        DemotionAges(c, offset, notes, x);
        assert Find(c'.prob, x) == 0;
      }
    } else {
      ProbationStep(c, offset, decoded, x);
      AgedGrows(notes, note, x, p, Find(c.prob, x));
      if Has(c'.prob, x) {
        AgedWeakens(notes + [note], x, p, Find(c.prob, x) + if note.pushed then 1 else 0, Find(c'.prob, x));
      }
    }
  }

  lemma HitInFront(c: Cache, x: nat, decoded: Result<Js>)
    requires Sound(c) && Segmented(c) && (Has(c.prot, x) || Has(c.prob, x))
    ensures Looked(c, x, decoded) == Probed(c, x)
    ensures Has(Probed(c, x).prot, x) && Ahead(Probed(c, x).prot, x) == {}
  {
    assert Probed(c, x).prot[0].key == x;
  }

  lemma {:induction false} StageRun(c: Cache, decode: Decoder, offsets: seq<nat>, x: nat)
    requires Sound(c) && Segmented(c) && Stage(c, [], x)
    ensures Stage(Run(c, decode, offsets), Notes(c, decode, offsets), x)
  {
    if offsets != [] {
      var n := |offsets| - 1;
      StageRun(c, decode, offsets[..n], x);
      RunSound(c, decode, offsets[..n]);
      StageStep(Run(c, decode, offsets[..n]), offsets[n], decode(offsets[n]), Notes(c, decode, offsets[..n]), x);
    }
  }

  /** Retention. Hit x, then look up anything: if x is gone at the end, the run splits in two so that
      at least P distinct other offsets were hit in the first part (P the protected size), and at
      least Q pushes into probation happened in the second (Q the probationary size). */
  lemma HitEntryIsRetained(c: Cache, decode: Decoder, offsets: seq<nat>, x: nat)
    requires Sound(c) && Segmented(c) && Cached(c, x).Some?
    requires Cached(Run(Probed(c, x), decode, offsets), x).None?
    ensures Aged(Notes(Probed(c, x), decode, offsets), x, ProtectedCapacity(c.capacity),
                 ProbationaryCapacity(c.capacity))
  {
    var c' := Probed(c, x);
    ProbedSound(c, x);
    HitInFront(c, x, Err(BadData));
    StageRun(c', decode, offsets, x);
  }

  /** First in, first out: a new entry that is not looked up again is still in probation, with its
      value, after any run with fewer than Q pushes into probation. */
  lemma NewEntrySurvives(c: Cache, decode: Decoder, offsets: seq<nat>, x: nat, value: Js)
    requires Sound(c) && Segmented(c) && Cached(c, x).None? && value.IsObject() && x !in offsets
    requires Pushes(Notes(Inserted(c, x, value), decode, offsets)) < ProbationaryCapacity(c.capacity)
    ensures Cached(Run(Inserted(c, x, value), decode, offsets), x) == Some(value)
  {
    InsertedSoundIff(c, x, value);
    var c' := Inserted(c, x, value);
    assert c'.prob[0].key == x;
    UntouchedAges(c', decode, offsets, x);
  }

  lemma {:induction false} UntouchedAges(c: Cache, decode: Decoder, offsets: seq<nat>, x: nat)
    requires Sound(c) && Segmented(c) && Has(c.prob, x) && Find(c.prob, x) == 0 && x !in offsets
    requires Pushes(Notes(c, decode, offsets)) < ProbationaryCapacity(c.capacity)
    ensures var r := Run(c, decode, offsets);
            && Has(r.prob, x) && Find(r.prob, x) <= Pushes(Notes(c, decode, offsets))
            && Cached(r, x) == Cached(c, x)
  {
    if offsets != [] {
      var n := |offsets| - 1;
      UntouchedAges(c, decode, offsets[..n], x);
      RunSound(c, decode, offsets[..n]);
      var mid := Run(c, decode, offsets[..n]);
      ProbationStep(mid, offsets[n], decode(offsets[n]), x);
      LookedKeepsValue(mid, offsets[n], decode(offsets[n]), x);
    }
  }

  lemma LookedKeepsValue(c: Cache, offset: nat, decoded: Result<Js>, x: nat)
    requires Sound(c) && offset != x && Cached(Looked(c, offset, decoded), x).Some?
    ensures Cached(Looked(c, offset, decoded), x) == Cached(c, x)
  {
    ProbedSound(c, offset);
    if Cached(c, offset).None? && decoded.Ok? && decoded.value.IsObject() {
      InsertedCaches(Probed(c, offset), offset, decoded.value);
    }
  }
}
