/**
 Keyset pagination: the query of UserRepository.list_users_cursor (and of
 AuditLogRepository.list_entries_cursor, which has the same shape), the page cut of
 UserService.list_users_cursor, and the offset query of list_users.

 A table is a set of rows with unique ids. The order of rows is the one of
 ORDER BY created_at DESC, id DESC, that is, of the row comparison
 (created_at, id) < (cursor_created_at, cursor_id).
 */
module Keyset {
  import opened Common

  datatype Row<+T> = Row(createdAt: int, id: nat, data: T)
  datatype Key = Key(createdAt: int, id: nat)
  datatype Page<+T> = Page(rows: seq<Row<T>>, next: Option<Key>)

  function KeyOf<T>(r: Row<T>): Key {
    Key(r.createdAt, r.id)
  }

  /** The strict row comparison of SQL on (created_at, id). */
  predicate Below(a: Key, b: Key) {
    a.createdAt < b.createdAt || (a.createdAt == b.createdAt && a.id < b.id)
  }

  ghost predicate UniqueIds<T>(t: set<Row<T>>) {
    forall r, s | r in t && s in t :: r.id == s.id ==> r == s
  }

  /** Newest first, strictly. */
  ghost predicate Descending<T>(rows: seq<Row<T>>) {
    forall i, j | 0 <= i < j < |rows| :: Below(KeyOf(rows[j]), KeyOf(rows[i]))
  }

  lemma {:induction false} NewestExists<T>(t: set<Row<T>>)
    requires t != {} && UniqueIds(t)
    ensures exists r :: r in t && forall s | s in t && s != r :: Below(KeyOf(s), KeyOf(r))
  {
    var x :| x in t;
    var rest := t - {x};
    if rest == {} {
      assert t == {x};
    } else {
      NewestExists(rest);
      var r :| r in rest && forall s | s in rest && s != r :: Below(KeyOf(s), KeyOf(r));
      var top := if Below(KeyOf(r), KeyOf(x)) then x else r;
      forall s | s in t && s != top
        ensures Below(KeyOf(s), KeyOf(top))
      {
        assert s == x || s in rest;
      }
    }
  }

  function Newest<T(==)>(t: set<Row<T>>): (r: Row<T>)
    requires t != {} && UniqueIds(t)
    ensures r in t
    ensures forall s | s in t && s != r :: Below(KeyOf(s), KeyOf(r))
  {
    NewestExists(t);
    var r :| r in t && forall s | s in t && s != r :: Below(KeyOf(s), KeyOf(r));
    r
  }

  /** SELECT ... ORDER BY created_at DESC, id DESC LIMIT n over the rows that survived WHERE. */
  function Select<T(==)>(t: set<Row<T>>, n: nat): seq<Row<T>>
    requires UniqueIds(t)
  {
    if n == 0 || t == {} then []
    else
      var r := Newest(t);
      [r] + Select(t - {r}, n - 1)
  }

  /** The rows that pass the filters and lie strictly below the cursor, if there is one. */
  function Eligible<T(==)>(t: set<Row<T>>, filter: Row<T> -> bool, cursor: Option<Key>): (e: set<Row<T>>)
    ensures UniqueIds(t) ==> UniqueIds(e)
  {
    set r | r in t && filter(r) && (cursor.Some? ==> Below(KeyOf(r), cursor.value))
  }

  lemma {:induction false} SelectLength<T>(t: set<Row<T>>, n: nat)
    requires UniqueIds(t)
    ensures |Select(t, n)| == if n < |t| then n else |t|
  {
    if n != 0 && t != {} {
      SelectLength(t - {Newest(t)}, n - 1);
    }
  }

  /** What LIMIT n returns: rows of the table, newest first, and no row left out is newer than one returned. */
  lemma {:induction false} SelectIsTop<T>(t: set<Row<T>>, n: nat)
    requires UniqueIds(t)
    ensures Descending(Select(t, n))
    ensures forall r | r in Select(t, n) :: r in t
    ensures forall r, s | r in t && r !in Select(t, n) && s in Select(t, n) :: Below(KeyOf(r), KeyOf(s))
    ensures n >= |t| ==> forall r | r in t :: r in Select(t, n)
  {
    if n == 0 || t == {} {
    } else {
      var r := Newest(t);
      SelectIsTop(t - {r}, n - 1);
      var rest := Select(t - {r}, n - 1);
      assert Select(t, n) == [r] + rest;
    }
  }

  /** A longer LIMIT only appends rows. */
  lemma {:induction false} SelectPrefix<T>(t: set<Row<T>>, m: nat, n: nat)
    requires UniqueIds(t) && m <= n
    ensures |Select(t, m)| <= |Select(t, n)|
    ensures Select(t, m) == Select(t, n)[..|Select(t, m)|]
  {
    if m == 0 || t == {} {
    } else {
      SelectPrefix(t - {Newest(t)}, m - 1, n - 1);
    }
  }

  /**
   UserService.list_users_cursor after the cursor token has been decoded: fetch one row more
   than the page holds, cut the page, and emit a cursor only if the extra row was there.
   */
  method ListCursor<T(==)>(t: set<Row<T>>, filter: Row<T> -> bool, cursor: Option<Key>, limit: nat)
    returns (page: Page<T>)
    requires UniqueIds(t)
    requires limit >= 1
    ensures page == PageOf(t, filter, cursor, limit)
  {
    var rows := Select(Eligible(t, filter, cursor), limit + 1);
    SelectPrefix(Eligible(t, filter, cursor), limit, limit + 1);
    SelectLength(Eligible(t, filter, cursor), limit);
    SelectLength(Eligible(t, filter, cursor), limit + 1);
    var hasMore := |rows| > limit;
    if hasMore {
      rows := rows[..limit];
    }
    var next := None;
    if hasMore && |rows| > 0 {
      next := Some(KeyOf(rows[|rows| - 1]));
    }
    page := Page(rows, next);
  }

  /** The page in terms of the query alone: no extra row, and the cursor is decided by counting. */
  function PageOf<T(==)>(t: set<Row<T>>, filter: Row<T> -> bool, cursor: Option<Key>, limit: nat): (p: Page<T>)
    requires UniqueIds(t)
    requires limit >= 1
  {
    var e := Eligible(t, filter, cursor);
    SelectLength(e, limit);
    var rows := Select(e, limit);
    Page(rows, if |e| > limit then Some(KeyOf(rows[limit - 1])) else None)
  }

  /** True iff the page reaches this far down: no row at or above the next cursor is left out. */
  predicate Covers(next: Option<Key>, k: Key) {
    next.Some? ==> !Below(k, next.value)
  }

  /**
   A page holds exactly the matching rows of its snapshot whose keys lie below the cursor it was
   asked for and not below the cursor it hands out.
   */
  lemma PageInterval<T>(t: set<Row<T>>, filter: Row<T> -> bool, cursor: Option<Key>, limit: nat, r: Row<T>)
    requires UniqueIds(t)
    requires limit >= 1
    ensures var p := PageOf(t, filter, cursor, limit);
            r in p.rows <==>
            && r in t && filter(r)
            && (cursor.Some? ==> Below(KeyOf(r), cursor.value))
            && Covers(p.next, KeyOf(r))
  {
    var e := Eligible(t, filter, cursor);
    SelectIsTop(e, limit);
    SelectLength(e, limit);
    var p := PageOf(t, filter, cursor, limit);
    if p.next.Some? {
      assert p.rows[limit - 1] in p.rows;
    }
  }

  /** Pages are in order, full when there is a next page, and the next cursor is strictly lower. */
  lemma PageShape<T>(t: set<Row<T>>, filter: Row<T> -> bool, cursor: Option<Key>, limit: nat)
    requires UniqueIds(t)
    requires limit >= 1
    ensures var p := PageOf(t, filter, cursor, limit);
            && Descending(p.rows)
            && |p.rows| <= limit
            && (p.next.Some? <==> |Eligible(t, filter, cursor)| > limit)
            && (p.next.Some? ==> |p.rows| == limit && p.next.value == KeyOf(p.rows[limit - 1]))
            && (p.next.Some? && cursor.Some? ==> Below(p.next.value, cursor.value))
  {
    var e := Eligible(t, filter, cursor);
    SelectIsTop(e, limit);
    SelectLength(e, limit);
    var p := PageOf(t, filter, cursor, limit);
    if p.next.Some? {
      assert p.rows[limit - 1] in p.rows;
    }
  }
}
