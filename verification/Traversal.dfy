/**
 Whole traversals: a client asks for the first page and then follows next_cursor. Each page is
 read from its own snapshot of the table, and anything may happen to the table between two pages.
 */
module Traversal {
  import opened Common
  import opened Keyset

  /** The cursor that page k is asked for with: none for the first, then the one just handed out. */
  function CursorAt<T>(pages: seq<Page<T>>, k: nat): Option<Key>
    requires k <= |pages|
  {
    if k == 0 then None else pages[k - 1].next
  }

  ghost predicate ValidSnapshots<T>(snaps: seq<set<Row<T>>>) {
    forall k | 0 <= k < |snaps| :: UniqueIds(snaps[k])
  }

  /** Page k is what the service answers on snapshot k, and unless it is the last it handed out a cursor. */
  ghost predicate Answered<T>(snaps: seq<set<Row<T>>>, filter: Row<T> -> bool, limit: nat, pages: seq<Page<T>>, k: nat)
    requires limit >= 1
    requires ValidSnapshots(snaps)
    requires k < |pages| == |snaps|
  {
    && pages[k] == PageOf(snaps[k], filter, CursorAt(pages, k), limit)
    && (k + 1 < |pages| ==> pages[k].next.Some?)
  }

  ghost predicate Run<T>(snaps: seq<set<Row<T>>>, filter: Row<T> -> bool, limit: nat, pages: seq<Page<T>>)
    requires limit >= 1
    requires ValidSnapshots(snaps)
  {
    && |snaps| == |pages| >= 1
    && (forall k: nat | k < |pages| :: Answered(snaps, filter, limit, pages, k))
  }

  /** The client stops when a page comes without a cursor. */
  ghost predicate Complete<T>(pages: seq<Page<T>>) {
    |pages| >= 1 && pages[|pages| - 1].next.None?
  }

  /** The rows of pages k, k+1, ... in the order the client sees them. */
  function YieldedFrom<T>(pages: seq<Page<T>>, k: nat): seq<Row<T>>
    decreases |pages| - k
  {
    if k >= |pages| then [] else pages[k].rows + YieldedFrom(pages, k + 1)
  }

  function Yielded<T>(pages: seq<Page<T>>): seq<Row<T>> {
    YieldedFrom(pages, 0)
  }

  /** created_at is set when a row is inserted and never changes: it is a function of the id. */
  ghost predicate KeysImmutable<T>(snaps: seq<set<Row<T>>>, created: nat -> int) {
    forall k, r | 0 <= k < |snaps| && r in snaps[k] :: r.createdAt == created(r.id)
  }

  /** A row with this id is there and passes the filter. */
  ghost predicate Present<T>(t: set<Row<T>>, filter: Row<T> -> bool, id: nat) {
    exists r :: r in t && r.id == id && filter(r)
  }

  /** Everything yielded from page k on is strictly below the cursor of page k, and in strict order. */
  lemma {:induction false} RunDescends<T>(snaps: seq<set<Row<T>>>, filter: Row<T> -> bool, limit: nat,
                                          pages: seq<Page<T>>, k: nat)
    requires limit >= 1
    requires ValidSnapshots(snaps) && Run(snaps, filter, limit, pages)
    requires k < |pages|
    ensures Descending(YieldedFrom(pages, k))
    ensures CursorAt(pages, k).Some? ==>
              forall r | r in YieldedFrom(pages, k) :: Below(KeyOf(r), CursorAt(pages, k).value)
    decreases |pages| - k
  {
    var p, cursor := pages[k], CursorAt(pages, k);
    assert Answered(snaps, filter, limit, pages, k);
    PageBounds(snaps[k], filter, cursor, limit);
    if k + 1 < |pages| {
      RunDescends(snaps, filter, limit, pages, k + 1);
      var later := YieldedFrom(pages, k + 1);
      assert YieldedFrom(pages, k) == p.rows + later;
      assert CursorAt(pages, k + 1) == p.next;
      hide Run, Answered, ValidSnapshots, YieldedFrom, Descending;
      DescendingJoin(p.rows, later, p.next.value);
      forall r | r in p.rows + later
        ensures cursor.Some? ==> Below(KeyOf(r), cursor.value)
      {
        assert r in p.rows || (r in later && Below(KeyOf(r), p.next.value));
      }
    } else {
      assert YieldedFrom(pages, k) == p.rows;
    }
  }

  /** The rows of a page lie between its two cursors. */
  lemma PageBounds<T>(t: set<Row<T>>, filter: Row<T> -> bool, cursor: Option<Key>, limit: nat)
    requires limit >= 1 && UniqueIds(t)
    ensures var p := PageOf(t, filter, cursor, limit);
            && Descending(p.rows)
            && (forall r | r in p.rows :: (cursor.Some? ==> Below(KeyOf(r), cursor.value)) && Covers(p.next, KeyOf(r)))
            && (p.next.Some? && cursor.Some? ==> Below(p.next.value, cursor.value))
  {
    var p := PageOf(t, filter, cursor, limit);
    PageShape(t, filter, cursor, limit);
    forall r | r in p.rows
      ensures cursor.Some? ==> Below(KeyOf(r), cursor.value)
      ensures Covers(p.next, KeyOf(r))
    {
      PageInterval(t, filter, cursor, limit, r);
    }
  }

  /** Two descending stretches on either side of a key make one. */
  lemma DescendingJoin<T>(upper: seq<Row<T>>, lower: seq<Row<T>>, cut: Key)
    requires Descending(upper) && Descending(lower)
    requires forall r | r in upper :: !Below(KeyOf(r), cut)
    requires forall r | r in lower :: Below(KeyOf(r), cut)
    ensures Descending(upper + lower)
  {
    forall i, j | 0 <= i < j < |upper + lower|
      ensures Below(KeyOf((upper + lower)[j]), KeyOf((upper + lower)[i]))
    {
      if i < |upper| <= j {
        assert lower[j - |upper|] in lower;
        assert upper[i] in upper;
      }
    }
  }

  /** What was yielded was really there: each row comes from one of the snapshots and passes the filter. */
  lemma {:induction false} RunIsSound<T>(snaps: seq<set<Row<T>>>, filter: Row<T> -> bool, limit: nat,
                                         pages: seq<Page<T>>, k: nat, r: Row<T>)
    requires limit >= 1
    requires ValidSnapshots(snaps) && Run(snaps, filter, limit, pages)
    requires r in YieldedFrom(pages, k)
    ensures filter(r) && exists i :: k <= i < |snaps| && r in snaps[i]
    decreases |pages| - k
  {
    assert Answered(snaps, filter, limit, pages, k);
    PageInterval(snaps[k], filter, CursorAt(pages, k), limit, r);
    if r !in pages[k].rows {
      RunIsSound(snaps, filter, limit, pages, k + 1, r);
    }
  }

  /**
   No row is seen twice, whatever was inserted, deleted or updated between the pages, and whether
   or not the run was followed to its end.
   */
  lemma NoRowTwice<T>(snaps: seq<set<Row<T>>>, created: nat -> int, filter: Row<T> -> bool, limit: nat,
                      pages: seq<Page<T>>)
    requires limit >= 1
    requires ValidSnapshots(snaps) && KeysImmutable(snaps, created)
    requires Run(snaps, filter, limit, pages)
    ensures forall i, j | 0 <= i < j < |Yielded(pages)| :: Yielded(pages)[i].id != Yielded(pages)[j].id
  {
    RunDescends(snaps, filter, limit, pages, 0);
    var y := Yielded(pages);
    forall i, j | 0 <= i < j < |y|
      ensures y[i].id != y[j].id
    {
      RunIsSound(snaps, filter, limit, pages, 0, y[i]);
      RunIsSound(snaps, filter, limit, pages, 0, y[j]);
      assert Below(KeyOf(y[j]), KeyOf(y[i]));
    }
  }

  lemma {:induction false} SeenBelowCursor<T>(snaps: seq<set<Row<T>>>, created: nat -> int, filter: Row<T> -> bool,
                                              limit: nat, pages: seq<Page<T>>, k: nat, id: nat)
    requires limit >= 1
    requires ValidSnapshots(snaps) && KeysImmutable(snaps, created)
    requires Run(snaps, filter, limit, pages) && Complete(pages)
    requires k < |pages|
    requires forall i | k <= i < |snaps| :: Present(snaps[i], filter, id)
    requires CursorAt(pages, k).Some? ==> Below(Key(created(id), id), CursorAt(pages, k).value)
    ensures exists r :: r in YieldedFrom(pages, k) && r.id == id
    decreases |pages| - k
  {
    assert Answered(snaps, filter, limit, pages, k);
    assert Present(snaps[k], filter, id);
    var r :| r in snaps[k] && r.id == id && filter(r);
    PageInterval(snaps[k], filter, CursorAt(pages, k), limit, r);
    if r in pages[k].rows {
      assert r in YieldedFrom(pages, k);
    } else {
      SeenBelowCursor(snaps, created, filter, limit, pages, k + 1, id);
      var s :| s in YieldedFrom(pages, k + 1) && s.id == id;
      assert s in YieldedFrom(pages, k);
    }
  }

  /**
   A complete traversal under arbitrary concurrent change: a row that exists and matches in every
   snapshot read is yielded exactly once.
   */
  lemma StableRowSeenOnce<T>(snaps: seq<set<Row<T>>>, created: nat -> int, filter: Row<T> -> bool, limit: nat,
                             pages: seq<Page<T>>, id: nat)
    requires limit >= 1
    requires ValidSnapshots(snaps) && KeysImmutable(snaps, created)
    requires Run(snaps, filter, limit, pages) && Complete(pages)
    requires forall k | 0 <= k < |snaps| :: Present(snaps[k], filter, id)
    ensures exists i :: 0 <= i < |Yielded(pages)| && Yielded(pages)[i].id == id
                        && forall j | 0 <= j < |Yielded(pages)| && j != i :: Yielded(pages)[j].id != id
  {
    SeenBelowCursor(snaps, created, filter, limit, pages, 0, id);
    NoRowTwice(snaps, created, filter, limit, pages);
    var y := Yielded(pages);
    var r :| r in y && r.id == id;
    var i :| 0 <= i < |y| && y[i] == r;
  }

  /** Every page that is not the last is full. */
  lemma AllButLastFull<T>(snaps: seq<set<Row<T>>>, filter: Row<T> -> bool, limit: nat, pages: seq<Page<T>>)
    requires limit >= 1
    requires ValidSnapshots(snaps) && Run(snaps, filter, limit, pages)
    ensures forall k | 0 <= k < |pages| - 1 :: |pages[k].rows| == limit
  {
    forall k | 0 <= k < |pages| - 1
      ensures |pages[k].rows| == limit
    {
      assert Answered(snaps, filter, limit, pages, k);
      PageShape(snaps[k], filter, CursorAt(pages, k), limit);
    }
  }

  lemma {:induction false} YieldedLength<T>(pages: seq<Page<T>>, limit: nat, k: nat)
    requires k < |pages|
    requires forall i | 0 <= i < |pages| - 1 :: |pages[i].rows| == limit
    ensures |YieldedFrom(pages, k)| == (|pages| - 1 - k) * limit + |pages[|pages| - 1].rows|
    decreases |pages| - k
  {
    if k + 1 < |pages| {
      YieldedLength(pages, limit, k + 1);
      MulStep(|pages| - 2 - k, limit);
    }
  }

  lemma MulStep(n: nat, limit: nat)
    ensures (n + 1) * limit == n * limit + limit
  {
  }

  /**
   The traversal cannot go on for ever while the table draws its rows from finitely many ids: the
   pages before the last are full of distinct rows, so they are bounded by the ids there ever were.
   */
  lemma PagesBoundedByIds<T>(snaps: seq<set<Row<T>>>, created: nat -> int, filter: Row<T> -> bool, limit: nat,
                             pages: seq<Page<T>>, ids: set<nat>)
    requires limit >= 1
    requires ValidSnapshots(snaps) && KeysImmutable(snaps, created)
    requires Run(snaps, filter, limit, pages)
    requires forall k, r | 0 <= k < |snaps| && r in snaps[k] :: r.id in ids
    ensures (|pages| - 1) * limit <= |ids|
  {
    NoRowTwice(snaps, created, filter, limit, pages);
    AllButLastFull(snaps, filter, limit, pages);
    YieldedLength(pages, limit, 0);
    var y := Yielded(pages);
    var seen := seq(|y|, i requires 0 <= i < |y| => y[i].id);
    forall x | x in seen
      ensures x in ids
    {
      var i :| 0 <= i < |seen| && seen[i] == x;
      RunIsSound(snaps, filter, limit, pages, 0, y[i]);
    }
    DistinctWithin(seen, ids);
  }

  // ---------- an unchanging table ----------

  /** The number of pages of n rows: one, and one more for every further `limit` rows begun. */
  function PageCount(n: nat, limit: nat): nat
    requires limit >= 1
  {
    if n <= limit then 1 else 1 + PageCount(n - limit, limit)
  }

  /** PageCount is max(1, ceil(n / limit)): the least number of pages, at least one, that hold n rows. */
  lemma {:induction false} PageCountIsCeiling(n: nat, limit: nat)
    requires limit >= 1
    ensures 1 <= PageCount(n, limit)
    ensures n <= PageCount(n, limit) * limit
    ensures n > 0 ==> (PageCount(n, limit) - 1) * limit < n
    ensures n == 0 ==> PageCount(n, limit) == 1
  {
    if n > limit {
      PageCountIsCeiling(n - limit, limit);
      var c := PageCount(n - limit, limit);
      assert (1 + c) * limit == limit + c * limit;
      assert c * limit == limit + (c - 1) * limit;
    }
  }

  /** The rows strictly below a key. */
  function RowsBelow<T(==)>(e: set<Row<T>>, k: Key): (low: set<Row<T>>)
    ensures UniqueIds(e) ==> UniqueIds(low)
  {
    set r | r in e && Below(KeyOf(r), k)
  }

  /** The rows determine their strict order. */
  lemma {:induction false} SameDescending<T>(a: seq<Row<T>>, b: seq<Row<T>>)
    requires Descending(a) && Descending(b)
    requires forall r | r in a :: r in b
    requires forall r | r in b :: r in a
    ensures a == b
  {
    if a == [] {
      assert forall i | 0 <= i < |b| :: b[i] in b;
    } else {
      assert a[0] in b && b[0] in a;
      var i :| 0 <= i < |a| && a[i] == b[0];
      var j :| 0 <= j < |b| && b[j] == a[0];
      assert i == 0 || Below(KeyOf(a[i]), KeyOf(a[0]));
      assert j == 0 || Below(KeyOf(b[j]), KeyOf(b[0]));
      TailRows(a, b);
      TailRows(b, a);
      SameDescending(a[1..], b[1..]);
      assert a == [a[0]] + a[1..] && b == [b[0]] + b[1..];
    }
  }

  lemma TailRows<T>(a: seq<Row<T>>, b: seq<Row<T>>)
    requires a != [] && b != [] && a[0] == b[0]
    requires Descending(a)
    requires forall r | r in a :: r in b
    ensures forall r | r in a[1..] :: r in b[1..]
  {
    forall r | r in a[1..]
      ensures r in b[1..]
    {
      var i :| 0 <= i < |a[1..]| && a[1..][i] == r;
      assert a[i + 1] == r && r in a;
      assert Below(KeyOf(a[i + 1]), KeyOf(a[0]));
      var j :| 0 <= j < |b| && b[j] == r;
      assert b[1..][j - 1] == r;
    }
  }

  /** The listing of everything: all rows, in order. */
  lemma SelectWhole<T>(e: set<Row<T>>)
    requires UniqueIds(e)
    ensures Descending(Select(e, |e|)) && |Select(e, |e|)| == |e|
    ensures forall r | r in Select(e, |e|) :: r in e
    ensures forall r | r in e :: r in Select(e, |e|)
  {
    SelectIsTop(e, |e|);
    SelectLength(e, |e|);
  }

  /** A row of e is either among the newest `limit` or strictly below the last of those, not both. */
  lemma CutDivides<T>(e: set<Row<T>>, limit: nat)
    requires UniqueIds(e)
    requires 1 <= limit <= |e|
    ensures |Select(e, limit)| == limit && Descending(Select(e, limit))
    ensures forall r | r in Select(e, limit) :: r in e && !Below(KeyOf(r), KeyOf(Select(e, limit)[limit - 1]))
    ensures forall r | r in e :: r in Select(e, limit) || Below(KeyOf(r), KeyOf(Select(e, limit)[limit - 1]))
  {
    SelectLength(e, limit);
    SelectIsTop(e, limit);
    assert Select(e, limit)[limit - 1] in Select(e, limit);
  }

  lemma JoinListing<T>(whole: seq<Row<T>>, upper: seq<Row<T>>, lower: seq<Row<T>>, cut: Key)
    requires Descending(whole) && Descending(upper) && Descending(lower)
    requires forall r | r in upper :: r in whole && !Below(KeyOf(r), cut)
    requires forall r | r in lower :: r in whole && Below(KeyOf(r), cut)
    requires forall r | r in whole :: r in upper || r in lower
    ensures whole == upper + lower
  {
    DescendingJoin(upper, lower, cut);
    SameDescending(whole, upper + lower);
  }

  /** Cutting the whole listing at `limit` leaves the listing of what lies below the cut. */
  lemma SelectSplits<T>(e: set<Row<T>>, limit: nat)
    requires UniqueIds(e)
    requires 1 <= limit <= |e|
    ensures |Select(e, limit)| == limit
    ensures var low := RowsBelow(e, KeyOf(Select(e, limit)[limit - 1]));
            |low| == |e| - limit && Select(e, |e|) == Select(e, limit) + Select(low, |low|)
  {
    CutDivides(e, limit);
    SelectWhole(e);
    var cut := KeyOf(Select(e, limit)[limit - 1]);
    SelectWhole(RowsBelow(e, cut));
    var low := RowsBelow(e, cut);
    JoinListing(Select(e, |e|), Select(e, limit), Select(low, |low|), cut);
  }

  ghost predicate Unchanging<T>(snaps: seq<set<Row<T>>>, t: set<Row<T>>) {
    forall k | 0 <= k < |snaps| :: snaps[k] == t
  }

  lemma {:induction false} FixedRun<T>(snaps: seq<set<Row<T>>>, t: set<Row<T>>, filter: Row<T> -> bool, limit: nat,
                                       pages: seq<Page<T>>, k: nat)
    requires limit >= 1
    requires UniqueIds(t) && Unchanging(snaps, t)
    requires ValidSnapshots(snaps) && Run(snaps, filter, limit, pages) && Complete(pages)
    requires k < |pages|
    ensures ListsRest(t, filter, CursorAt(pages, k), limit, YieldedFrom(pages, k), |pages| - k)
    decreases |pages| - k
  {
    assert Answered(snaps, filter, limit, pages, k);
    if k + 1 == |pages| {
      LastPage(t, filter, CursorAt(pages, k), limit);
      assert YieldedFrom(pages, k) == pages[k].rows + [] == pages[k].rows;
    } else {
      FixedRun(snaps, t, filter, limit, pages, k + 1);
      FullPage(t, filter, CursorAt(pages, k), limit, YieldedFrom(pages, k + 1), |pages| - k - 1);
    }
  }

  /** These rows, seen in that many pages, are the whole listing of what lies below the cursor. */
  ghost predicate ListsRest<T>(t: set<Row<T>>, filter: Row<T> -> bool, cursor: Option<Key>, limit: nat,
                               rows: seq<Row<T>>, pageCount: nat)
    requires limit >= 1
    requires UniqueIds(t)
  {
    var e := Eligible(t, filter, cursor);
    rows == Select(e, |e|) && pageCount == PageCount(|e|, limit)
  }

  lemma LastPage<T>(t: set<Row<T>>, filter: Row<T> -> bool, cursor: Option<Key>, limit: nat)
    requires UniqueIds(t)
    requires limit >= 1
    requires PageOf(t, filter, cursor, limit).next.None?
    ensures ListsRest(t, filter, cursor, limit, PageOf(t, filter, cursor, limit).rows, 1)
  {
    PageShape(t, filter, cursor, limit);
    SelectAll(Eligible(t, filter, cursor), limit);
  }

  lemma FullPage<T>(t: set<Row<T>>, filter: Row<T> -> bool, cursor: Option<Key>, limit: nat,
                    later: seq<Row<T>>, laterPages: nat)
    requires UniqueIds(t)
    requires limit >= 1
    requires PageOf(t, filter, cursor, limit).next.Some?
    requires ListsRest(t, filter, PageOf(t, filter, cursor, limit).next, limit, later, laterPages)
    ensures ListsRest(t, filter, cursor, limit, PageOf(t, filter, cursor, limit).rows + later, 1 + laterPages)
  {
    PageShape(t, filter, cursor, limit);
    SelectSplits(Eligible(t, filter, cursor), limit);
    BelowCut(t, filter, cursor, limit);
  }

  lemma SelectAll<T>(e: set<Row<T>>, limit: nat)
    requires UniqueIds(e)
    requires |e| <= limit
    ensures Select(e, limit) == Select(e, |e|)
  {
    SelectPrefix(e, |e|, limit);
    SelectLength(e, |e|);
    SelectLength(e, limit);
  }

  /** Below the last row of a full page lies what the next page may return. */
  lemma BelowCut<T>(t: set<Row<T>>, filter: Row<T> -> bool, cursor: Option<Key>, limit: nat)
    requires UniqueIds(t)
    requires limit >= 1
    requires PageOf(t, filter, cursor, limit).next.Some?
    ensures var next := PageOf(t, filter, cursor, limit).next;
            RowsBelow(Eligible(t, filter, cursor), next.value) == Eligible(t, filter, next)
  {
    PageShape(t, filter, cursor, limit);
  }

  /**
   On an unchanging table a traversal yields the whole filtered listing, newest first, in
   max(1, ceil(n / limit)) pages of which all but the last are full, n being what count_users counts.
   */
  lemma FixedTraversal<T>(snaps: seq<set<Row<T>>>, t: set<Row<T>>, filter: Row<T> -> bool, limit: nat,
                          pages: seq<Page<T>>)
    requires limit >= 1
    requires UniqueIds(t) && Unchanging(snaps, t)
    requires ValidSnapshots(snaps) && Run(snaps, filter, limit, pages) && Complete(pages)
    ensures var all := set r | r in t && filter(r);
            && (forall r :: r in Yielded(pages) <==> r in all)
            && Descending(Yielded(pages))
            && |Yielded(pages)| == |all|
            && |pages| == PageCount(|all|, limit)
    ensures forall k | 0 <= k < |pages| - 1 :: |pages[k].rows| == limit
  {
    var all := set r | r in t && filter(r);
    assert all == Eligible(t, filter, None);
    FixedRun(snaps, t, filter, limit, pages, 0);
    SelectIsTop(all, |all|);
    SelectLength(all, |all|);
    AllButLastFull(snaps, filter, limit, pages);
  }

  /**
   The client's loop: ask for pages until one comes without a cursor. On an unchanging table it ends,
   with a complete traversal, so there always is one.
   */
  method FollowCursors<T(==)>(t: set<Row<T>>, filter: Row<T> -> bool, limit: nat) returns (pages: seq<Page<T>>)
    requires limit >= 1
    requires UniqueIds(t)
    ensures ValidSnapshots(Still(t, |pages|)) && Run(Still(t, |pages|), filter, limit, pages) && Complete(pages)
    ensures |pages| == PageCount(|Eligible(t, filter, None)|, limit)
  {
    var page := ListCursor(t, filter, None, limit);
    pages := [page];
    while page.next.Some?
      invariant |pages| >= 1 && page == pages[|pages| - 1]
      invariant forall k: nat | k < |pages| :: AnsweredOn(t, filter, limit, pages, k)
      decreases if page.next.Some? then |Eligible(t, filter, page.next)| + 1 else 0
    {
      var next := ListCursor(t, filter, page.next, limit);
      NextIsSmaller(t, filter, page.next, limit);
      AnsweredLonger(t, filter, limit, pages, next);
      pages := pages + [next];
      page := next;
    }
    RunOnStill(t, filter, limit, pages);
    FixedRun(Still(t, |pages|), t, filter, limit, pages, 0);
  }

  /** The same table every time. */
  function Still<T(==)>(t: set<Row<T>>, n: nat): seq<set<Row<T>>> {
    seq(n, _ => t)
  }

  ghost predicate AnsweredOn<T>(t: set<Row<T>>, filter: Row<T> -> bool, limit: nat, pages: seq<Page<T>>, k: nat)
    requires limit >= 1
    requires UniqueIds(t)
    requires k < |pages|
  {
    && pages[k] == PageOf(t, filter, CursorAt(pages, k), limit)
    && (k + 1 < |pages| ==> pages[k].next.Some?)
  }

  lemma AnsweredLonger<T>(t: set<Row<T>>, filter: Row<T> -> bool, limit: nat, pages: seq<Page<T>>, page: Page<T>)
    requires limit >= 1
    requires UniqueIds(t)
    requires |pages| >= 1 && forall k: nat | k < |pages| :: AnsweredOn(t, filter, limit, pages, k)
    requires pages[|pages| - 1].next.Some? && page == PageOf(t, filter, pages[|pages| - 1].next, limit)
    ensures forall k: nat | k < |pages| + 1 :: AnsweredOn(t, filter, limit, pages + [page], k)
  {
    forall k: nat | k < |pages| + 1
      ensures AnsweredOn(t, filter, limit, pages + [page], k)
    {
      if k < |pages| {
        assert AnsweredOn(t, filter, limit, pages, k);
        assert CursorAt(pages + [page], k) == CursorAt(pages, k);
      }
    }
  }

  lemma RunOnStill<T>(t: set<Row<T>>, filter: Row<T> -> bool, limit: nat, pages: seq<Page<T>>)
    requires limit >= 1
    requires UniqueIds(t)
    requires |pages| >= 1 && forall k: nat | k < |pages| :: AnsweredOn(t, filter, limit, pages, k)
    ensures ValidSnapshots(Still(t, |pages|)) && Run(Still(t, |pages|), filter, limit, pages)
  {
    forall k: nat | k < |pages|
      ensures Answered(Still(t, |pages|), filter, limit, pages, k)
    {
      assert AnsweredOn(t, filter, limit, pages, k);
    }
  }

  /** Below the next cursor there is less. */
  lemma NextIsSmaller<T>(t: set<Row<T>>, filter: Row<T> -> bool, cursor: Option<Key>, limit: nat)
    requires limit >= 1
    requires UniqueIds(t)
    ensures var p := PageOf(t, filter, cursor, limit);
            p.next.Some? ==> |Eligible(t, filter, p.next)| < |Eligible(t, filter, cursor)|
  {
    var p := PageOf(t, filter, cursor, limit);
    if p.next.Some? {
      PageShape(t, filter, cursor, limit);
      SelectSplits(Eligible(t, filter, cursor), limit);
      BelowCut(t, filter, cursor, limit);
    }
  }

  // ---------- the offset query of list_users ----------

  /**
   A listing that ORDER BY created_at DESC allows: each row of e once, created_at never rising.
   Rows with the same created_at may come in either order.
   */
  ghost predicate IsListing<T>(rows: seq<Row<T>>, e: set<Row<T>>) {
    && Distinct(rows)
    && (forall r | r in rows :: r in e)
    && (forall r | r in e :: r in rows)
    && (forall i, j | 0 <= i < j < |rows| :: rows[j].createdAt <= rows[i].createdAt)
  }

  ghost predicate DistinctTimes<T>(e: set<Row<T>>) {
    forall r, s | r in e && s in e :: r.createdAt == s.createdAt ==> r == s
  }

  /** OFFSET offset LIMIT limit of a listing. */
  function Slice<T>(rows: seq<T>, offset: nat, limit: nat): seq<T> {
    if offset >= |rows| then []
    else if offset + limit >= |rows| then rows[offset..]
    else rows[offset..offset + limit]
  }

  lemma ListingIsSelect<T>(rows: seq<Row<T>>, e: set<Row<T>>)
    requires UniqueIds(e) && DistinctTimes(e)
    requires IsListing(rows, e)
    ensures rows == Select(e, |e|)
  {
    forall i, j | 0 <= i < j < |rows|
      ensures Below(KeyOf(rows[j]), KeyOf(rows[i]))
    {
      assert rows[i] in rows && rows[j] in rows;
    }
    SelectWhole(e);
    SameDescending(rows, Select(e, |e|));
  }

  lemma SelectIsListing<T>(e: set<Row<T>>)
    requires UniqueIds(e)
    ensures IsListing(Select(e, |e|), e)
  {
    SelectIsTop(e, |e|);
  }

  /** Two rows with the same created_at sit next to each other somewhere in the keyset order. */
  lemma {:induction false} TiedNeighbours<T>(rows: seq<Row<T>>, i: nat, j: nat) returns (k: nat)
    requires Descending(rows)
    requires i < j < |rows| && rows[i].createdAt == rows[j].createdAt
    ensures k + 1 < |rows| && rows[k].createdAt == rows[k + 1].createdAt
  {
    k := i;
    assert Below(KeyOf(rows[i + 1]), KeyOf(rows[i]));
    if i + 1 < j {
      assert Below(KeyOf(rows[j]), KeyOf(rows[i + 1]));
    }
  }

  /**
   The offset listing is forced to be the keyset listing exactly when no two listed rows share
   their created_at; with a tie the database may answer the offset query differently.
   */
  lemma OffsetAgreesIffNoTies<T>(e: set<Row<T>>)
    requires UniqueIds(e)
    ensures (forall rows | IsListing(rows, e) :: rows == Select(e, |e|)) <==> DistinctTimes(e)
  {
    if DistinctTimes(e) {
      forall rows | IsListing(rows, e)
        ensures rows == Select(e, |e|)
      {
        ListingIsSelect(rows, e);
      }
    } else {
      SelectIsListing(e);
      SelectIsTop(e, |e|);
      var k := TieInSelect(e);
      SwapKeepsListing(Select(e, |e|), e, k);
      assert Swapped(Select(e, |e|), k)[k] != Select(e, |e|)[k];
    }
  }

  lemma TieInRows<T>(rows: seq<Row<T>>, r: Row<T>, s: Row<T>) returns (k: nat)
    requires Descending(rows) && r in rows && s in rows
    requires r != s && r.createdAt == s.createdAt
    ensures k + 1 < |rows| && rows[k].createdAt == rows[k + 1].createdAt
  {
    var i :| 0 <= i < |rows| && rows[i] == r;
    var j :| 0 <= j < |rows| && rows[j] == s;
    k := TiedNeighbours(rows, if i < j then i else j, if i < j then j else i);
  }

  lemma TieInSelect<T>(e: set<Row<T>>) returns (k: nat)
    requires UniqueIds(e) && !DistinctTimes(e)
    ensures var rows := Select(e, |e|);
            k + 1 < |rows| && rows[k].createdAt == rows[k + 1].createdAt
  {
    var r, s :| r in e && s in e && r.createdAt == s.createdAt && r != s;
    SelectWhole(e);
    hide *;
    k := TieInRows(Select(e, |e|), r, s);
  }

  function Swapped<T>(rows: seq<T>, k: nat): seq<T>
    requires k + 1 < |rows|
  {
    rows[k := rows[k + 1]][k + 1 := rows[k]]
  }

  lemma SwapKeepsListing<T>(rows: seq<Row<T>>, e: set<Row<T>>, k: nat)
    requires IsListing(rows, e)
    requires k + 1 < |rows| && rows[k].createdAt == rows[k + 1].createdAt
    ensures IsListing(Swapped(rows, k), e)
  {
    var other := Swapped(rows, k);
    forall x | x in other
      ensures x in e
    {
      assert x in rows;
    }
    forall x | x in e
      ensures x in other
    {
      var n :| 0 <= n < |rows| && rows[n] == x;
      assert x == other[if n == k then k + 1 else if n == k + 1 then k else n];
    }
  }

  /** The concatenation of the offset pages 0, limit, 2*limit, ... of one listing, n of them. */
  function OffsetPages<T>(rows: seq<T>, limit: nat, from: nat, n: nat): seq<T>
    decreases n
  {
    if n == 0 then [] else Slice(rows, from, limit) + OffsetPages(rows, limit, from + limit, n - 1)
  }

  lemma {:induction false} OffsetPagesCover<T>(rows: seq<T>, limit: nat, from: nat, n: nat)
    requires limit >= 1
    requires from <= |rows| <= from + n * limit
    ensures OffsetPages(rows, limit, from, n) == rows[from..]
    decreases n
  {
    if n > 0 {
      if from + limit <= |rows| {
        assert n * limit == (n - 1) * limit + limit;
        OffsetPagesCover(rows, limit, from + limit, n - 1);
        assert Slice(rows, from, limit) == rows[from..from + limit];
      } else {
        OffsetPagesPastEnd(rows, limit, from + limit, n - 1);
      }
    }
  }

  lemma {:induction false} OffsetPagesPastEnd<T>(rows: seq<T>, limit: nat, from: nat, n: nat)
    requires from >= |rows|
    ensures OffsetPages(rows, limit, from, n) == []
    decreases n
  {
    if n > 0 {
      OffsetPagesPastEnd(rows, limit, from + limit, n - 1);
    }
  }

  /**
   With distinct created_at values, asking for as many offset pages as the keyset traversal took
   gives the same sequence of rows.
   */
  lemma KeysetEqualsOffset<T>(snaps: seq<set<Row<T>>>, t: set<Row<T>>, filter: Row<T> -> bool, limit: nat,
                              pages: seq<Page<T>>, listing: seq<Row<T>>)
    requires limit >= 1
    requires UniqueIds(t) && Unchanging(snaps, t)
    requires ValidSnapshots(snaps) && Run(snaps, filter, limit, pages) && Complete(pages)
    requires IsListing(listing, Eligible(t, filter, None))
    requires DistinctTimes(Eligible(t, filter, None))
    ensures OffsetPages(listing, limit, 0, |pages|) == Yielded(pages)
  {
    var e := Eligible(t, filter, None);
    FixedRun(snaps, t, filter, limit, pages, 0);
    ListingIsSelect(listing, e);
    SelectLength(e, |e|);
    PageCountIsCeiling(|e|, limit);
    OffsetPagesCover(listing, limit, 0, |pages|);
    assert listing[0..] == listing;
  }
}
