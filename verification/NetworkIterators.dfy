/** The JavaScript network iterator over a native cursor. */
module NetworkIterators {
  import opened Values
  import opened Networks
  import opened W = Walks

  class NetworkIterator {
    const cursor: NativeNetworkCursor
    const pageSize: nat
    var page: seq<Js>
    var index: nat
    var done: bool

    ghost predicate Valid()
      reads this, cursor
    {
      && index <= |page|
      && PageSizeOk(pageSize)
      && (done ==> page == [] && cursor.iter == None)
    }

    ghost function State(): Walk
      requires Valid()
      reads this, cursor
    {
      Walk(page[index..], cursor.Rest(), done)
    }

    constructor (cursor: NativeNetworkCursor, pageSize: nat)
      requires PageSizeOk(pageSize)
      ensures Valid() && this.cursor == cursor && this.pageSize == pageSize
      ensures State() == Walk([], cursor.Rest(), false)
    {
      this.cursor, this.pageSize := cursor, pageSize;
      page, index, done := [], 0, false;
    }

    method Next() returns (r: Step)
      requires Valid()
      modifies this, cursor
      ensures Valid()
      ensures (State(), r) == W.Next(old(State()), pageSize)
    {
      if done {
        return Done;
      }
      if index >= |page| {
        var native := ReadNativePage(pageSize);
        if native.Err? {
          return Threw(native.fault);
        }
        page := native.value;
        index := 0;
        if done {
          return Done;
        }
      }
      r := Item(page[index]);
      index := index + 1;
    }

    method NextPage(k: int) returns (r: Result<seq<Js>>)
      requires Valid()
      modifies this, cursor
      ensures Valid()
      ensures (State(), r) == W.NextPage(old(State()), k)
    {
      if !PageSizeOk(k) {
        return Err(InvalidPageSize);
      }
      if done {
        return Ok([]);
      }
      if index >= |page| {
        NextPageUnbuffered(State(), k);
        page := [];
        index := 0;
        r := ReadNativePage(k);
      } else {
        r := DrainBuffer(k);
      }
    }

    /** Takes from the buffer first, and tops the page up from the native cursor. */
    method DrainBuffer(k: int) returns (r: Result<seq<Js>>)
      requires Valid() && PageSizeOk(k) && !done
      modifies this, cursor
      ensures Valid()
      ensures (State(), r) == W.NextPage(old(State()), k)
    {
      ghost var w := State();
      var taken := TakeBuffered(k);
      ghost var w1 := State();
      if |taken| == k {
        return Ok(taken);
      }
      var native := ReadNativePage(k - |taken|);
      ghost var w2 := State();
      NextPageTopsUp(w, k, w1, taken, w2, native);
      if native.Err? {
        return native;
      }
      taken := Copied(taken, native.value);
      r := Ok(taken);
    }

    /** The pages() generator driven by a consumer that takes at most `wanted` pages and then stops.
        It ends closed whether it ran out, was stopped or threw; a consumer that never starts it
        leaves it alone. */
    method Pages(k: int, wanted: nat) returns (pages: seq<seq<Js>>, fault: Option<Fault>)
      requires Valid()
      modifies this, cursor
      ensures Valid()
      ensures wanted == 0 || !PageSizeOk(k) ==> pages == [] && State() == old(State())
      ensures wanted == 0 ==> fault == None
      ensures wanted > 0 && !PageSizeOk(k) ==> fault == Some(InvalidPageSize)
      ensures wanted > 0 && PageSizeOk(k) ==>
                && State() == FINISHED
                && (fault.None? && |pages| < wanted ==> |Flat(pages)| == |Remaining(old(State()))|)
                && Collected(pages, k, Remaining(old(State())))
                && (fault.Some? ==> FaultWithin(Remaining(old(State())), |Flat(pages)|, k, fault.value))
    {
      if wanted == 0 {
        return [], None;
      }
      if !PageSizeOk(k) {
        return [], Some(InvalidPageSize);
      }
      pages, fault := CollectPages(k, wanted);
      Close();
    }

    /** The generator's loop: pages until one is empty, one throws, or the consumer stops. */
    method CollectPages(k: int, wanted: nat) returns (pages: seq<seq<Js>>, fault: Option<Fault>)
      requires Valid() && PageSizeOk(k)
      modifies this, cursor
      ensures Valid()
      ensures Collected(pages, k, Remaining(old(State())))
      ensures fault.None? && |pages| < wanted ==> |Flat(pages)| == |Remaining(old(State()))|
      ensures fault.Some? ==> FaultWithin(Remaining(old(State())), |Flat(pages)|, k, fault.value)
    {
      pages, fault := [], None;
      var more := true;
      ghost var all := Remaining(State());
      while more && |pages| < wanted
        invariant Valid() && Collected(pages, k, all)
        invariant more ==> fault.None? && Remaining(State()) == all[|Flat(pages)|..]
        invariant !more && fault.None? ==> |Flat(pages)| == |all|
        invariant fault.Some? ==> FaultWithin(all, |Flat(pages)|, k, fault.value)
        decreases more, wanted - |pages|
      {
        var page := PageOfRemaining(k);
        if page.Err? {
          FaultBehind(all, |Flat(pages)|, k, page.fault);
          fault, more := Some(page.fault), false;
        } else if page.value == [] {
          more := false;
        } else {
          CollectedGrows(pages, page.value, k, all);
          pages := pages + [page.value];
        }
      }
    }

    /** nextPage with a valid size, seen as taking items off what remains. */
    method PageOfRemaining(k: int) returns (r: Result<seq<Js>>)
      requires Valid() && PageSizeOk(k)
      modifies this, cursor
      ensures Valid()
      ensures r.Ok? ==>
                && Oks(r.value) == Take(Remaining(old(State())), k)
                && Remaining(State()) == Remaining(old(State()))[|r.value|..]
                && (r.value == [] ==> Remaining(old(State())) == [])
      ensures r.Err? ==> FaultWithin(Remaining(old(State())), 0, k, r.fault)
    {
      NextPageTakesPrefix(State(), k);
      r := NextPage(k);
      if r.Ok? && r.value == [] {
        assert |Oks(r.value)| == 0;
      }
    }

    /** Hands out up to k buffered items. */
    method TakeBuffered(k: nat) returns (taken: seq<Js>)
      requires Valid() && !done
      modifies this`index
      ensures Valid()
      ensures (State(), taken) == Drained(old(State()), k)
      ensures |taken| < k ==> index == |page|
    {
      taken := [];
      ghost var buffer := page[index..];
      while |taken| < k && index < |page|
        invariant |taken| <= |buffer| && |taken| <= k
        invariant index == old(index) + |taken| && index <= |page| && taken == buffer[..|taken|]
        decreases |page| - index
      {
        taken := taken + [page[index]];
        index := index + 1;
      }
    }

    /** Reads one native page; an empty page or an error closes the iterator. */
    method ReadNativePage(k: nat) returns (r: Result<seq<Js>>)
      requires Valid() && !done && k > 0 && index == |page|
      modifies this, cursor
      ensures Valid()
      ensures (State(), r) == W.ReadNativePage(old(State()), k)
      ensures !done ==> page == old(page) && index == old(index)
    {
      r := cursor.NextPage(k);
      if r.Err? || r.value == [] {
        Close();
      }
    }

    method Close()
      requires index <= |page| && PageSizeOk(pageSize) && (done ==> page == [] && cursor.iter == None)
      modifies this, cursor
      ensures Valid() && State() == FINISHED
    {
      if !done {
        cursor.Close();
        done, page, index := true, [], 0;
      }
    }
  }

  method Copied(first: seq<Js>, more: seq<Js>) returns (all: seq<Js>)
    ensures all == first + more
  {
    all := first;
    for i := 0 to |more|
      invariant all == first + more[..i]
    {
      all := all + [more[i]];
    }
  }

  function Flat(pages: seq<seq<Js>>): seq<Js> {
    if pages == [] then [] else Flat(pages[..|pages| - 1]) + pages[|pages| - 1]
  }

  /** The first error of the walk is this one, in the page of k rows that starts at the given one. */
  ghost predicate FaultWithin(rows: seq<Result<Js>>, start: nat, k: int, fault: Fault) {
    Good(rows) < |rows| && Good(rows) < start + k && rows[Good(rows)] == Err(fault)
  }

  lemma FaultBehind(rows: seq<Result<Js>>, start: nat, k: int, fault: Fault)
    requires start <= Good(rows) && FaultWithin(rows[start..], 0, k, fault)
    ensures FaultWithin(rows, start, k, fault)
  {
    var g := Good(rows[start..]);
    assert rows[start + g] == rows[start..][g];
    assert forall i | 0 <= i < g :: rows[start..][i] == rows[start + i];
    assert Good(rows) == start + g;
  }

  /** The pages collected so far are the first items of the walk, in pages of exactly k items; only the
      last one of the walk may be shorter, and none is empty. */
  ghost predicate Collected(pages: seq<seq<Js>>, k: int, all: seq<Result<Js>>) {
    && (forall i | 0 <= i < |pages| :: 0 < |pages[i]| <= k)
    && (forall i | 0 <= i < |pages| :: |pages[i]| < k ==> i == |pages| - 1 && |Flat(pages)| == |all|)
    && IsPrefix(Flat(pages), all)
  }

  lemma CollectedGrows(pages: seq<seq<Js>>, page: seq<Js>, k: nat, all: seq<Result<Js>>)
    requires Collected(pages, k, all) && page != [] && Oks(page) == Take(all[|Flat(pages)|..], k)
    ensures Collected(pages + [page], k, all)
    ensures all[|Flat(pages)|..][|page|..] == all[|Flat(pages + [page])|..]
  {
    assert |page| == Min(k, |all| - |Flat(pages)|);
    var items := Flat(pages);
    assert (pages + [page])[..|pages|] == pages;
    forall i | 0 <= i < |page|
      ensures all[|items| + i] == Ok(page[i])
    {
      assert Oks(page)[i] == all[|items|..][i];
    }
  }
}
