/** What the items of a network walk are: the networks of the query in order, each with the record the
    database stores for it. */
module NetworkItems {
  import opened Values
  import opened Natives
  import opened Networks
  import opened Walks

  /** What the database stores at an offset: the whole record, or what is at a path in it. */
  function StoredAt(source: Source, path: Option<Path>, offset: nat): Result<Js> {
    match path
    case None => source.decode(offset)
    case Some(p) => source.decodePath(offset, p)
  }

  /** The item is the pair of the network's text and its record, null when it has none. */
  ghost predicate Shows(item: Js, source: Source, path: Option<Path>, found: Result<Found>) {
    && found.Ok? && item.Array? && |item.elems| == 2
    && item.elems[0] == Text(found.value.network.text)
    && match found.value.offset {
         case None => item.elems[1] == Null
         case Some(offset) => StoredAt(source, path, offset) == Ok(item.elems[1])
       }
  }

  /** The walk stops here with this error: its own, or that of the record. */
  ghost predicate StopsWith(fault: Fault, source: Source, path: Option<Path>, found: Result<Found>) {
    match found
    case Err(f) => f == fault
    case Ok(f) => f.offset.Some? && StoredAt(source, path, f.offset.value) == Err(fault)
  }

  ghost predicate ItemsShow(items: seq<Js>, source: Source, path: Option<Path>, walk: seq<Result<Found>>) {
    |items| <= |walk| && forall i | 0 <= i < |items| :: Shows(items[i], source, path, walk[i])
  }

  lemma RowShows(source: Source, path: Option<Path>, found: Result<Found>)
    ensures match Row(source, path, found) {
              case Ok(item) => Shows(item, source, path, found)
              case Err(fault) => StopsWith(fault, source, path, found)
            }
  {
  }

  lemma PrefixShows(items: seq<Js>, source: Source, path: Option<Path>, walk: seq<Result<Found>>)
    requires IsPrefix(items, Rows(source, path, walk))
    ensures ItemsShow(items, source, path, walk)
  {
    forall i | 0 <= i < |items|
      ensures Shows(items[i], source, path, walk[i])
    {
      assert Rows(source, path, walk)[i] == Ok(items[i]);
      RowShows(source, path, walk[i]);
    }
  }

  // ----- the JavaScript iterator -----

  /** Whatever the mix of next() and nextPage(k), the items handed out are the first networks of the walk
      with their records, in order; with no throw and nothing left, they are all of them. */
  lemma IteratorShowsNetworks(source: Source, path: Option<Path>, walk: seq<Result<Found>>, pageSize: nat, calls: seq<Call>)
    requires pageSize > 0
    ensures var w := Walk([], Rows(source, path, walk), false);
            && ItemsShow(YieldAll(w, pageSize, calls), source, path, walk)
            && (!ThrowsAny(w, pageSize, calls) && Remaining(AfterAll(w, pageSize, calls)) == [] ==>
                  |YieldAll(w, pageSize, calls)| == |walk|)
  {
    var w := Walk([], Rows(source, path, walk), false);
    assert Remaining(w) == Rows(source, path, walk);
    CallsYieldPrefix(w, pageSize, calls);
    PrefixShows(YieldAll(w, pageSize, calls), source, path, walk);
  }

  // ----- native pages -----

  /** One page; a page of size zero is refused. */
  function PageAt(rows: seq<Result<Js>>, limit: nat): (Result<seq<Js>>, seq<Result<Js>>) {
    if limit == 0 then (Err(InvalidPageSize), rows) else PageOf(rows, limit)
  }

  /** The pages a walk over the rows gives, one size after another, and the rows then left. */
  function PagesOf(rows: seq<Result<Js>>, limits: seq<nat>): (seq<Result<seq<Js>>>, seq<Result<Js>>)
    decreases |limits|
  {
    if limits == [] then ([], rows)
    else
      var (page, left) := PageAt(rows, limits[0]);
      var (pages, rest) := PagesOf(left, limits[1..]);
      ([page] + pages, rest)
  }

  function Joined(pages: seq<Result<seq<Js>>>): seq<Js> {
    if pages == [] then [] else (if pages[0].Ok? then pages[0].value else []) + Joined(pages[1..])
  }

  ghost predicate AllOk(pages: seq<Result<seq<Js>>>) {
    forall i | 0 <= i < |pages| :: pages[i].Ok?
  }

  /** Pages without an error are the rows in order, cut into pieces: nothing lost, nothing twice. */
  lemma {:induction false} PagesAreTheRows(rows: seq<Result<Js>>, limits: seq<nat>)
    requires AllOk(PagesOf(rows, limits).0)
    ensures var (pages, rest) := PagesOf(rows, limits);
            Oks(Joined(pages)) + rest == rows
    decreases |limits|
  {
    if limits == [] {
      assert Oks([]) + rows == rows;
    } else {
      var (page, left) := PageAt(rows, limits[0]);
      var (more, rest) := PagesOf(left, limits[1..]);
      var pages := [page] + more;
      assert PagesOf(rows, limits) == (pages, rest);
      assert pages[0].Ok? && pages[1..] == more;
      assert forall i | 0 <= i < |more| :: more[i] == pages[i + 1];
      PagesAreTheRows(left, limits[1..]);
      PageOfOks(rows, limits[0]);
      PutBack(page.value, limits[0], rows, Joined(more), rest);
    }
  }

  lemma PutBack(page: seq<Js>, limit: nat, rows: seq<Result<Js>>, more: seq<Js>, rest: seq<Result<Js>>)
    requires Oks(page) == Take(rows, limit) && Oks(more) + rest == rows[|page|..]
    ensures Oks(page + more) + rest == rows
  {
    assert |page| == |Oks(page)| && rows == rows[..|page|] + rows[|page|..];
    assert Oks(page + more) == Oks(page) + Oks(more);
  }

  /** The first pages of a walk are the walk's over the first sizes, and the next one goes on from there. */
  lemma {:induction false} PagesSplit(rows: seq<Result<Js>>, limits: seq<nat>, n: nat)
    requires n <= |limits|
    ensures var (pages, _) := PagesOf(rows, limits);
            var (first, left) := PagesOf(rows, limits[..n]);
            && |pages| == |limits| && pages[..n] == first
            && (n < |limits| ==> pages[n] == PageAt(left, limits[n]).0)
    decreases |limits|
  {
    if n > 0 {
      PagesSplit(PageAt(rows, limits[0]).1, limits[1..], n - 1);
      assert limits[..n][1..] == limits[1..][..n - 1];
    } else if limits != [] {
      PagesSplit(PageAt(rows, limits[0]).1, limits[1..], 0);
      assert limits[..0] == [];
    }
  }

  /** A page that starts at some item is full unless the walk ends in it; if it fails, it is refused for
      its size, or the first item in it that cannot be shown says why. */
  ghost predicate PageShows(page: Result<seq<Js>>, limit: nat, start: nat,
                            source: Source, path: Option<Path>, walk: seq<Result<Found>>)
    requires start <= |walk|
  {
    match page
    case Ok(items) => limit > 0 && |items| == Min(limit, |walk| - start)
    case Err(fault) =>
      if limit == 0 then fault == InvalidPageSize
      else
        exists i | start <= i < start + limit && i < |walk| ::
          && StopsWith(fault, source, path, walk[i])
          && ItemsReadable(source, path, walk[start..i])
  }

  ghost predicate ItemsReadable(source: Source, path: Option<Path>, walk: seq<Result<Found>>) {
    forall i, fault | 0 <= i < |walk| :: !StopsWith(fault, source, path, walk[i])
  }

  /** Up to the first page that fails, the pages show the networks of the walk in order, page by page; the
      first page that fails says why. */
  ghost predicate PagesShow(pages: seq<Result<seq<Js>>>, limits: seq<nat>,
                            source: Source, path: Option<Path>, walk: seq<Result<Found>>)
  {
    && |pages| == |limits|
    && forall n | 0 <= n <= |pages| && AllOk(pages[..n]) ::
         && ItemsShow(Joined(pages[..n]), source, path, walk)
         && (n < |pages| ==> PageShows(pages[n], limits[n], |Joined(pages[..n])|, source, path, walk))
  }

  lemma PagesShowNetworks(source: Source, path: Option<Path>, walk: seq<Result<Found>>, limits: seq<nat>)
    ensures PagesShow(PagesOf(Rows(source, path, walk), limits).0, limits, source, path, walk)
  {
    var rows := Rows(source, path, walk);
    var pages := PagesOf(rows, limits).0;
    PagesSplit(rows, limits, 0);
    forall n | 0 <= n <= |pages| && AllOk(pages[..n])
      ensures ItemsShow(Joined(pages[..n]), source, path, walk)
      ensures n < |pages| ==> PageShows(pages[n], limits[n], |Joined(pages[..n])|, source, path, walk)
    {
      PagesSplit(rows, limits, n);
      PagesAreTheRows(rows, limits[..n]);
      var items, left := Joined(pages[..n]), PagesOf(rows, limits[..n]).1;
      JoinedIsPrefix(items, left, rows);
      PrefixShows(items, source, path, walk);
      if n < |pages| {
        NextPageShows(source, path, walk, |items|, left, limits[n]);
      }
    }
  }

  lemma JoinedIsPrefix(items: seq<Js>, left: seq<Result<Js>>, rows: seq<Result<Js>>)
    requires Oks(items) + left == rows
    ensures IsPrefix(items, rows) && left == rows[|items|..]
  {
    assert forall i | 0 <= i < |items| :: rows[i] == Oks(items)[i];
  }

  lemma NextPageShows(source: Source, path: Option<Path>, walk: seq<Result<Found>>, start: nat, left: seq<Result<Js>>, limit: nat)
    requires start <= |walk| && left == Rows(source, path, walk)[start..]
    ensures PageShows(PageAt(left, limit).0, limit, start, source, path, walk)
  {
    var rows, page, good := Rows(source, path, walk), PageAt(left, limit).0, Good(left);
    PageOfOks(left, limit);
    if limit > 0 && page.Ok? {
      assert |Oks(page.value)| == |page.value|;
    } else if limit > 0 {
      var i := start + good;
      assert rows[i] == left[good];
      RowShows(source, path, walk[i]);
      forall j, fault | 0 <= j < |walk[start..i]|
        ensures !StopsWith(fault, source, path, walk[start..i][j])
      {
        assert rows[start + j] == left[j];
        RowShows(source, path, walk[start + j]);
      }
    }
  }
}
