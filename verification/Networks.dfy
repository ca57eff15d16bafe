/** Native network cursors: pages of rendered rows, with a per-page memo of decoded records. */
module Networks {
  import opened Values
  import opened Natives

  /** The record of a walked network: the whole record or one path of it. No memo. */
  function RecordAt(source: Source, path: Option<Path>, offset: Option<nat>): Result<Js> {
    match offset
    case None => Ok(Null)
    case Some(o) => if path.None? then source.decode(o) else source.decodePath(o, path.value)
  }

  /** One row as JavaScript sees it, [network, record], or the error that stops the walk. */
  function Row(source: Source, path: Option<Path>, found: Result<Found>): Result<Js> {
    match found
    case Err(fault) => Err(fault)
    case Ok(f) =>
      var record := RecordAt(source, path, f.offset);
      if record.Err? then record else Ok(Array([Text(f.network.text), record.value]))
  }

  function Rows(source: Source, path: Option<Path>, walk: seq<Result<Found>>): (rows: seq<Result<Js>>)
    ensures |rows| == |walk|
  {
    seq(|walk|, i requires 0 <= i < |walk| => Row(source, path, walk[i]))
  }

  /** How many rows come before the first error. */
  function Good(rows: seq<Result<Js>>): (n: nat)
    ensures n <= |rows|
    ensures forall i | 0 <= i < n :: rows[i].Ok?
    ensures n < |rows| ==> rows[n].Err?
  {
    if rows == [] || rows[0].Err? then 0 else 1 + Good(rows[1..])
  }

  function ValuesOf(rows: seq<Result<Js>>): (values: seq<Js>)
    requires forall i | 0 <= i < |rows| :: rows[i].Ok?
    ensures |values| == |rows|
  {
    seq(|rows|, i requires 0 <= i < |rows| => rows[i].value)
  }

  /** A page of at most `limit` rows: its values and what is left, or the first error in the page
      and what follows that error. Rows read before the error are lost. */
  function PageOf(rows: seq<Result<Js>>, limit: nat): (Result<seq<Js>>, seq<Result<Js>>) {
    var n, good := Min(limit, |rows|), Good(rows);
    if n <= good then (Ok(ValuesOf(rows[..n])), rows[n..])
    else (Err(rows[good].fault), rows[good + 1..])
  }

  lemma GoodAfter(a: seq<Result<Js>>, b: seq<Result<Js>>)
    requires forall i | 0 <= i < |a| :: a[i].Ok?
    ensures Good(a + b) == |a| + Good(b)
  {
    if a == [] {
      assert a + b == b;
    } else {
      GoodAfter(a[1..], b);
      assert (a + b)[1..] == a[1..] + b;
    }
  }

  /** The page that has `values` in front of another page. */
  function Prepended(values: seq<Js>, page: (Result<seq<Js>>, seq<Result<Js>>)): (Result<seq<Js>>, seq<Result<Js>>) {
    (Before(values, page.0), page.1)
  }

  lemma PrependedTwice(a: seq<Js>, b: seq<Js>, page: (Result<seq<Js>>, seq<Result<Js>>))
    ensures Prepended(a, Prepended(b, page)) == Prepended(a + b, page)
    ensures Prepended([], page) == page
  {
    BeforeTwice(a, b, page.0);
  }

  lemma PageEnds(rows: seq<Result<Js>>, limit: nat)
    requires limit == 0 || rows == []
    ensures PageOf(rows, limit) == (Ok([]), rows)
  {
  }

  /** A page takes its rows one by one. */
  lemma PageStep(row: Result<Js>, rows: seq<Result<Js>>, limit: nat)
    requires limit > 0
    ensures PageOf([row] + rows, limit) ==
            if row.Err? then (Err(row.fault), rows) else Prepended([row.value], PageOf(rows, limit - 1))
  {
    assert ([row] + rows)[1..] == rows;
    if row.Ok? {
      PageStepOk(row.value, rows, limit);
    }
  }

  lemma PageStepOk(value: Js, rows: seq<Result<Js>>, limit: nat)
    requires limit > 0
    ensures PageOf([Ok(value)] + rows, limit) == Prepended([value], PageOf(rows, limit - 1))
  {
    var all, n, good := [Ok(value)] + rows, Min(limit - 1, |rows|), Good(rows);
    assert all[1..] == rows;
    assert Good(all) == 1 + good;
    if n <= good {
      assert all[..n + 1] == [Ok(value)] + rows[..n] && all[n + 1..] == rows[n..];
      assert ValuesOf(all[..n + 1]) == [value] + ValuesOf(rows[..n]);
    } else {
      assert all[good + 1] == rows[good] && all[good + 2..] == rows[good + 1..];
    }
  }

  lemma RowsTail(source: Source, path: Option<Path>, walk: seq<Result<Found>>)
    requires walk != []
    ensures Rows(source, path, walk) == [Row(source, path, walk[0])] + Rows(source, path, walk[1..])
  {
  }

  class NativeNetworkCursor {
    const source: Source
    const path: Option<Path>
    const cacheRecords: bool
    var iter: Option<seq<Result<Found>>>  // the walk still to come; None once closed

    /** The rows still to come, decoded without any memo. */
    ghost function Rest(): seq<Result<Js>>
      reads this
    {
      if iter.None? then [] else Rows(source, path, iter.value)
    }

    constructor (source: Source, path: Option<Path>, cacheRecords: bool, walk: seq<Result<Found>>)
      ensures Rest() == Rows(source, path, walk)
    {
      this.source, this.path, this.cacheRecords := source, path, cacheRecords;
      iter := Some(walk);
    }

    method NextPage(limit: nat) returns (r: Result<seq<Js>>)
      modifies this
      ensures limit == 0 ==> r == Err(InvalidPageSize) && Rest() == old(Rest())
      ensures limit > 0 ==> (r, Rest()) == PageOf(old(Rest()), limit)
      ensures limit > 0 && old(Rest()) == [] ==> iter == None
    {
      if limit == 0 {
        return Err(InvalidPageSize);
      }
      if iter.None? {
        return Ok([]);
      }
      var records: seq<Js> := [];
      var memo: map<nat, Js> := map[];
      ghost var whole := PageOf(Rest(), limit);
      PrependedTwice([], [], whole);
      while |records| < limit && iter.value != []
        invariant iter.Some? && |records| <= limit
        invariant whole == Prepended(records, PageOf(Rest(), limit - |records|))
        invariant forall o | o in memo :: RecordAt(source, path, Some(o)) == Ok(memo[o])
        decreases |iter.value|
      {
        var found := iter.value[0];
        RowsTail(source, path, iter.value);
        iter := Some(iter.value[1..]);
        var row: Result<Js>;
        row, memo := LookupToJs(found, memo);
        PageStep(row, Rest(), limit - |records|);
        if row.Err? {
          return Err(row.fault);
        }
        PrependedTwice(records, [row.value], PageOf(Rest(), limit - |records| - 1));
        records := records + [row.value];
      }
      PageEnds(Rest(), limit - |records|);
      assert records + [] == records;
      if records == [] {
        iter := None;
      }
      r := Ok(records);
    }

    /** One row, reusing this page's decoded record for an offset already seen. */
    method LookupToJs(found: Result<Found>, memo: map<nat, Js>) returns (row: Result<Js>, memo': map<nat, Js>)
      requires forall o | o in memo :: RecordAt(source, path, Some(o)) == Ok(memo[o])
      ensures row == Row(source, path, found)
      ensures forall o | o in memo' :: RecordAt(source, path, Some(o)) == Ok(memo'[o])
    {
      memo' := memo;
      if found.Err? {
        return Err(found.fault), memo;
      }
      var offset := found.value.offset;
      var record: Result<Js>;
      if cacheRecords && offset.Some? {
        if offset.value in memo {
          record := Ok(memo[offset.value]);
        } else {
          record := RecordAt(source, path, offset);
          if record.Ok? {
            memo' := memo[offset.value := record.value];
          }
        }
      } else {
        record := RecordAt(source, path, offset);
      }
      row := if record.Err? then record else Ok(Array([Text(found.value.network.text), record.value]));
    }

    method Close()
      modifies this
      ensures Rest() == [] && iter == None
    {
      iter := None;
    }
  }
}
