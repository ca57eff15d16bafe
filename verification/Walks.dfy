/** Walking networks from JavaScript, on values: a buffer over native rows, consumed by next() and
    nextPage() in any mix, gives the rows in order, each once. */
module Walks {
  import opened Values
  import opened Natives
  import opened Networks

  /** What next() gives: an item, the end, or a thrown error. */
  datatype Step = Item(value: Js) | Done | Threw(fault: Fault)

  /** The buffered values not yet handed out, and the native rows behind them. */
  datatype Walk = Walk(buffer: seq<Js>, rows: seq<Result<Js>>, done: bool)

  const FINISHED := Walk([], [], true)

  predicate PageSizeOk(k: int) {
    0 < k <= MAX_U32
  }

  function ReadNativePage(w: Walk, k: nat): (Walk, Result<seq<Js>>) {
    var (r, rest) := PageOf(w.rows, k);
    if r.Err? || r.value == [] then (FINISHED, r) else (w.(rows := rest), r)
  }

  function Next(w: Walk, pageSize: nat): (Walk, Step) {
    if w.done then (w, Done)
    else if w.buffer != [] then (w.(buffer := w.buffer[1..]), Item(w.buffer[0]))
    else
      var (w', r) := ReadNativePage(w, pageSize);
      if r.Err? then (w', Threw(r.fault))
      else if r.value == [] then (w', Done)
      else (w'.(buffer := r.value[1..]), Item(r.value[0]))
  }

  /** Takes up to k items off the buffer. */
  function Drained(w: Walk, k: nat): (Walk, seq<Js>) {
    var n := Min(k, |w.buffer|);
    (w.(buffer := w.buffer[n..]), w.buffer[..n])
  }

  function NextPage(w: Walk, k: int): (Walk, Result<seq<Js>>) {
    if !PageSizeOk(k) then (w, Err(InvalidPageSize))
    else if w.done then (w, Ok([]))
    else
      var (w1, head) := Drained(w, k);
      if |head| == k then (w1, Ok(head))
      else
        var (w2, r) := ReadNativePage(w1, k - |head|);
        (w2, Before(head, r))
  }

  /** With nothing buffered, a page is the native page. */
  lemma NextPageUnbuffered(w: Walk, k: int)
    requires PageSizeOk(k) && !w.done && w.buffer == []
    ensures NextPage(w, k) == ReadNativePage(w, k)
  {
    BeforeTwice([], [], ReadNativePage(w, k).1);
  }

  /** A buffer too short for the page is topped up from the native cursor. */
  lemma NextPageTopsUp(w: Walk, k: int, w1: Walk, head: seq<Js>, w2: Walk, r: Result<seq<Js>>)
    requires PageSizeOk(k) && !w.done && (w1, head) == Drained(w, k) && |head| < k
    requires (w2, r) == ReadNativePage(w1, k - |head|)
    ensures NextPage(w, k) == (w2, Before(head, r))
  {
  }

  // ----- the walk as a plain sequence -----

  ghost predicate Consistent(w: Walk) {
    w.done ==> w == FINISHED
  }

  function Oks(values: seq<Js>): (rows: seq<Result<Js>>)
    ensures |rows| == |values|
  {
    seq(|values|, i requires 0 <= i < |values| => Ok(values[i]))
  }

  /** Everything still to be handed out: the buffer, then the native rows. */
  function Remaining(w: Walk): seq<Result<Js>> {
    Oks(w.buffer) + w.rows
  }

  lemma PageOfOks(rows: seq<Result<Js>>, limit: nat)
    ensures var (r, rest) := PageOf(rows, limit);
            if r.Ok? then Oks(r.value) == Take(rows, limit) && rest == rows[|r.value|..]
            else Good(rows) < Min(limit, |rows|) && rows[Good(rows)] == Err(r.fault)
  {
  }

  lemma GoodOfRemaining(w: Walk)
    ensures Good(Remaining(w)) == |w.buffer| + Good(w.rows)
    ensures Good(w.rows) < |w.rows| ==> Remaining(w)[Good(Remaining(w))] == w.rows[Good(w.rows)]
  {
    GoodAfter(Oks(w.buffer), w.rows);
  }

  /** next() hands out the head of what remains; it reports the end only when nothing remains, and
      throws only the first error that remains, when it lies within the native page it reads. */
  lemma NextTakesHead(w: Walk, pageSize: nat)
    requires Consistent(w) && pageSize > 0
    ensures var (w', r), rest := Next(w, pageSize), Remaining(w);
            && Consistent(w')
            && match r {
                 case Item(v) => rest != [] && rest[0] == Ok(v) && Remaining(w') == rest[1..]
                 case Done => rest == [] && w' == FINISHED
                 case Threw(fault) =>
                   Good(rest) < Min(pageSize, |rest|) && rest[Good(rest)] == Err(fault) && w' == FINISHED
               }
  {
    if !w.done && w.buffer == [] {
      NextFromPage(w, pageSize);
    } else if !w.done {
      assert Oks(w.buffer) == [Ok(w.buffer[0])] + Oks(w.buffer[1..]);
      assert Remaining(w) == [Ok(w.buffer[0])] + (Oks(w.buffer[1..]) + w.rows);
    }
  }

  lemma NextFromPage(w: Walk, pageSize: nat)
    requires !w.done && w.buffer == [] && pageSize > 0
    ensures var (r, rest) := PageOf(w.rows, pageSize);
            && Remaining(w) == w.rows
            && (r.Err? ==> Good(w.rows) < Min(pageSize, |w.rows|) && w.rows[Good(w.rows)] == Err(r.fault))
            && (r.Ok? && r.value == [] ==> w.rows == [])
            && (r.Ok? && r.value != [] ==>
                  w.rows != [] && w.rows[0] == Ok(r.value[0]) && Oks(r.value[1..]) + rest == w.rows[1..])
  {
    PageOfOks(w.rows, pageSize);
    var (r, rest) := PageOf(w.rows, pageSize);
    if r.Ok? && r.value != [] {
      PageTail(w.rows, r.value, rest);
    }
  }

  lemma PageTail(rows: seq<Result<Js>>, page: seq<Js>, rest: seq<Result<Js>>)
    requires 0 < |page| <= |rows| && Oks(page) == rows[..|page|] && rest == rows[|page|..]
    ensures rows[0] == Ok(page[0]) && Oks(page[1..]) + rest == rows[1..]
  {
    assert Oks(page[1..]) == Oks(page)[1..];
    assert rows[1..|page|] == rows[..|page|][1..];
  }

  /** nextPage(k) hands out exactly the first min(k, remaining) items, or throws the first error that
      remains because it lies within them; an empty page means nothing remains. A bad k changes nothing. */
  lemma NextPageTakesPrefix(w: Walk, k: int)
    requires Consistent(w)
    ensures var (w', r), rest := NextPage(w, k), Remaining(w);
            && Consistent(w')
            && if !PageSizeOk(k) then r == Err(InvalidPageSize) && w' == w
               else if r.Ok? then
                 && Oks(r.value) == Take(rest, k) && Remaining(w') == rest[|r.value|..]
                 && (r.value == [] ==> w' == FINISHED)
               else Good(rest) < Min(k, |rest|) && rest[Good(rest)] == Err(r.fault) && w' == FINISHED
  {
    if PageSizeOk(k) && !w.done {
      if |w.buffer| < k {
        ShortPage(w, k);
      } else {
        LongBuffer(w, k);
      }
    }
  }

  lemma ShortPage(w: Walk, k: nat)
    requires PageSizeOk(k) && !w.done && |w.buffer| < k
    ensures var (w', r), rest := NextPage(w, k), Remaining(w);
            && Consistent(w')
            && if r.Ok? then
                 && Oks(r.value) == Take(rest, k) && Remaining(w') == rest[|r.value|..]
                 && (r.value == [] ==> w' == FINISHED)
               else Good(rest) < Min(k, |rest|) && rest[Good(rest)] == Err(r.fault) && w' == FINISHED
  {
    ShortBuffer(w, k);
    ToppedUp(w, k);
    var (r, rest) := PageOf(w.rows, k - |w.buffer|);
    if r.Ok? && w.buffer + r.value == [] {
      assert r.value == [];
    }
  }

  /** What a page does that empties the buffer and reads on. */
  lemma ToppedUp(w: Walk, k: nat)
    requires PageSizeOk(k) && !w.done && |w.buffer| < k
    ensures var (r, rest) := PageOf(w.rows, k - |w.buffer|);
            NextPage(w, k) ==
            if r.Err? then (FINISHED, r)
            else if r.value == [] then (FINISHED, Ok(w.buffer))
            else (Walk([], rest, false), Ok(w.buffer + r.value))
  {
    assert w.buffer[..|w.buffer|] == w.buffer && w.buffer + [] == w.buffer;
    assert w.buffer[|w.buffer|..] == [];
  }

  lemma LongBuffer(w: Walk, k: nat)
    requires k <= |w.buffer|
    ensures Oks(w.buffer[..k]) == Take(Remaining(w), k)
    ensures Oks(w.buffer[k..]) + w.rows == Remaining(w)[k..]
  {
  }

  lemma TakePast<T>(a: seq<T>, b: seq<T>, k: nat, n: nat)
    requires |a| <= k && n <= |b|
    ensures Take(a + b, k) == a + Take(b, k - |a|)
    ensures (a + b)[|a| + n..] == b[n..]
  {
  }

  lemma ShortBuffer(w: Walk, k: nat)
    requires |w.buffer| < k
    ensures var (r, rest) := PageOf(w.rows, k - |w.buffer|);
            if r.Ok? then
              && Oks(w.buffer + r.value) == Take(Remaining(w), k)
              && Remaining(Walk([], rest, false)) == Remaining(w)[|w.buffer| + |r.value|..]
              && (r.value == [] ==> w.rows == [])
            else Good(Remaining(w)) < Min(k, |Remaining(w)|) && Remaining(w)[Good(Remaining(w))] == Err(r.fault)
  {
    PageOfOks(w.rows, k - |w.buffer|);
    GoodOfRemaining(w);
    var page := PageOf(w.rows, k - |w.buffer|);
    if page.0.Ok? {
      assert Oks(w.buffer + page.0.value) == Oks(w.buffer) + Oks(page.0.value);
      TakePast(Oks(w.buffer), w.rows, k, |page.0.value|);
    }
  }

  // ----- any mix of calls -----

  datatype Call = CallNext | CallPage(k: int)

  function After(w: Walk, pageSize: nat, call: Call): Walk {
    if call.CallNext? then Next(w, pageSize).0 else NextPage(w, call.k).0
  }

  /** The items one call hands out. */
  function Yield(w: Walk, pageSize: nat, call: Call): seq<Js> {
    match call
    case CallNext => if Next(w, pageSize).1.Item? then [Next(w, pageSize).1.value] else []
    case CallPage(k) => if NextPage(w, k).1.Ok? then NextPage(w, k).1.value else []
  }

  predicate Throws(w: Walk, pageSize: nat, call: Call) {
    match call
    case CallNext => Next(w, pageSize).1.Threw?
    case CallPage(k) => PageSizeOk(k) && NextPage(w, k).1.Err?
  }

  function AfterAll(w: Walk, pageSize: nat, calls: seq<Call>): Walk
    decreases |calls|
  {
    if calls == [] then w else AfterAll(After(w, pageSize, calls[0]), pageSize, calls[1..])
  }

  function YieldAll(w: Walk, pageSize: nat, calls: seq<Call>): seq<Js>
    decreases |calls|
  {
    if calls == [] then []
    else Yield(w, pageSize, calls[0]) + YieldAll(After(w, pageSize, calls[0]), pageSize, calls[1..])
  }

  predicate ThrowsAny(w: Walk, pageSize: nat, calls: seq<Call>)
    decreases |calls|
  {
    calls != [] && (Throws(w, pageSize, calls[0]) || ThrowsAny(After(w, pageSize, calls[0]), pageSize, calls[1..]))
  }

  /** The items are the first ones of the remaining rows, in order. */
  ghost predicate IsPrefix(items: seq<Js>, rows: seq<Result<Js>>) {
    |items| <= |rows| && forall i | 0 <= i < |items| :: rows[i] == Ok(items[i])
  }

  lemma CallYieldsPrefix(w: Walk, pageSize: nat, call: Call)
    requires Consistent(w) && pageSize > 0
    ensures Consistent(After(w, pageSize, call))
    ensures IsPrefix(Yield(w, pageSize, call), Remaining(w))
    ensures Throws(w, pageSize, call) ==>
              && Yield(w, pageSize, call) == [] && After(w, pageSize, call) == FINISHED
              && Good(Remaining(w)) < |Remaining(w)|
    ensures !Throws(w, pageSize, call) ==>
              Remaining(After(w, pageSize, call)) == Remaining(w)[|Yield(w, pageSize, call)|..]
  {
    match call
    case CallNext => NextTakesHead(w, pageSize);
    case CallPage(k) =>
      NextPageTakesPrefix(w, k);
      var r := NextPage(w, k).1;
      if r.Ok? {
        assert forall i | 0 <= i < |r.value| :: Take(Remaining(w), k)[i] == Oks(r.value)[i];
      }
  }

  /** Any mix of next() and nextPage(k), with any sizes: the items handed out are an in-order prefix
      of the walk, each once. If no call throws, what remains is exactly the rest. A throw happens only
      when the walk has an error in it. */
  lemma {:induction false} CallsYieldPrefix(w: Walk, pageSize: nat, calls: seq<Call>)
    requires Consistent(w) && pageSize > 0
    ensures IsPrefix(YieldAll(w, pageSize, calls), Remaining(w))
    ensures !ThrowsAny(w, pageSize, calls) ==>
              Remaining(AfterAll(w, pageSize, calls)) == Remaining(w)[|YieldAll(w, pageSize, calls)|..]
    ensures ThrowsAny(w, pageSize, calls) ==>
              Good(Remaining(w)) < |Remaining(w)| && AfterAll(w, pageSize, calls) == FINISHED
    decreases |calls|
  {
    if calls != [] {
      var w', first := After(w, pageSize, calls[0]), Yield(w, pageSize, calls[0]);
      CallYieldsPrefix(w, pageSize, calls[0]);
      CallsYieldPrefix(w', pageSize, calls[1..]);
      if Throws(w, pageSize, calls[0]) {
        FinishedIsFinal(pageSize, calls[1..]);
        assert YieldAll(w, pageSize, calls) == [];
      } else {
        var more := YieldAll(w', pageSize, calls[1..]);
        assert YieldAll(w, pageSize, calls) == first + more;
        GoodSuffix(Remaining(w), |first|);
      }
    }
  }

  lemma GoodSuffix(rows: seq<Result<Js>>, n: nat)
    requires n <= |rows|
    ensures Good(rows[n..]) < |rows[n..]| ==> Good(rows) < |rows|
  {
    var g := Good(rows[n..]);
    if g < |rows[n..]| {
      assert rows[n + g].Err?;
    }
  }

  /** After exhaustion, an error or close(), every later call is empty. */
  lemma {:induction false} FinishedIsFinal(pageSize: nat, calls: seq<Call>)
    ensures YieldAll(FINISHED, pageSize, calls) == []
    ensures AfterAll(FINISHED, pageSize, calls) == FINISHED && !ThrowsAny(FINISHED, pageSize, calls)
  {
    if calls != [] {
      FinishedIsFinal(pageSize, calls[1..]);
    }
  }
}
