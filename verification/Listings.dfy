/**
 What inserting, updating or deleting one row does to the listings of list_users and get_list, and to
 their OFFSET/LIMIT slices.
 */
module Listings {
  import opened Common
  import opened Keyset
  import opened Traversal

  function Inserted<T>(rows: seq<T>, p: nat, x: T): (more: seq<T>)
    requires p <= |rows|
    ensures |more| == |rows| + 1
    ensures forall i | 0 <= i < |more| :: more[i] == if i < p then rows[i] else if i == p then x else rows[i - 1]
  {
    rows[..p] + [x] + rows[p..]
  }

  /** One element more, at index p, shows in a slice iff the slice reaches from p or above to the end or below. */
  lemma SliceInsertedIff<T>(rows: seq<T>, p: nat, x: T, offset: nat, limit: nat)
    requires Distinct(rows) && x !in rows && p <= |rows|
    ensures Slice(rows, offset, limit) == Slice(Inserted(rows, p, x), offset, limit)
       <==> !(limit >= 1 && p < offset + limit && offset <= |rows|)
  {
    var more := Inserted(rows, p, x);
    hide Inserted;
    var a, b := Slice(rows, offset, limit), Slice(more, offset, limit);
    if limit >= 1 && p < offset + limit && offset <= |rows| {
      var j := if p < offset then offset else p;
      assert b[j - offset] == more[j] == if j == p then x else rows[j - 1];
      assert j < |rows| ==> a[j - offset] == rows[j];
    } else if limit >= 1 && offset <= |rows| {
      assert forall i | 0 <= i < |a| :: a[i] == rows[offset + i] == more[offset + i] == b[i];
    }
  }

  lemma SliceUpdatedIff<T>(rows: seq<T>, p: nat, x: T, offset: nat, limit: nat)
    requires p < |rows|
    ensures Slice(rows, offset, limit) == Slice(rows[p := x], offset, limit)
       <==> !(rows[p] != x && offset <= p < offset + limit)
  {
    var a, b := Slice(rows, offset, limit), Slice(rows[p := x], offset, limit);
    if offset <= p < offset + limit {
      assert a[p - offset] == rows[p] && b[p - offset] == x;
    }
    if rows[p] == x {
      assert rows[p := x] == rows;
    } else if p < offset || offset + limit <= p {
      assert forall i | 0 <= i < |a| :: a[i] == b[i];
    }
  }

  /** How many of the rows are newer than this time. */
  function Newer<T(==)>(e: set<Row<T>>, time: int): nat {
    |set r | r in e && r.createdAt > time|
  }

  /** In a listing the rows newer than a time come first. */
  lemma NewerComeFirst<T>(listing: seq<Row<T>>, e: set<Row<T>>, time: int) returns (p: nat)
    requires IsListing(listing, e)
    ensures p == Newer(e, time) && p <= |listing|
    ensures forall i | 0 <= i < p :: listing[i].createdAt > time
    ensures forall i | p <= i < |listing| :: listing[i].createdAt <= time
  {
    p := 0;
    while p < |listing| && listing[p].createdAt > time
      invariant 0 <= p <= |listing|
      invariant forall i | 0 <= i < p :: listing[i].createdAt > time
    {
      p := p + 1;
    }
    DistinctSize(listing[..p]);
    assert (set x | x in listing[..p]) == (set r | r in e && r.createdAt > time);
  }

  /** Putting one more row in its place makes a listing of the larger set. */
  lemma InsertedListing<T>(listing: seq<Row<T>>, e: set<Row<T>>, p: nat, x: Row<T>)
    requires IsListing(listing, e) && x !in e && p <= |listing|
    requires forall i | 0 <= i < p :: listing[i].createdAt >= x.createdAt
    requires forall i | p <= i < |listing| :: listing[i].createdAt <= x.createdAt
    ensures IsListing(Inserted(listing, p, x), e + {x})
  {
    var more := Inserted(listing, p, x);
    hide Inserted;
    InsertedMembers(listing, e, p, x);
    assert x !in listing;
    InsertedDistinct(listing, p, x);
    assert forall i, j | 0 <= i < j < |more| :: more[j].createdAt <= more[i].createdAt;
  }

  lemma InsertedMembers<T>(listing: seq<T>, e: set<T>, p: nat, x: T)
    requires (forall r | r in listing :: r in e) && (forall r | r in e :: r in listing) && p <= |listing|
    ensures forall r | r in Inserted(listing, p, x) :: r in e + {x}
    ensures forall r | r in e + {x} :: r in Inserted(listing, p, x)
  {
    var more := Inserted(listing, p, x);
    hide Inserted;
    forall r | r in e + {x}
      ensures r in more
    {
      if r in e {
        var i :| 0 <= i < |listing| && listing[i] == r;
        assert more[if i < p then i else i + 1] == r;
      } else {
        assert more[p] == r;
      }
    }
  }

  lemma InsertedDistinct<T>(listing: seq<T>, p: nat, x: T)
    requires Distinct(listing) && x !in listing && p <= |listing|
    ensures Distinct(Inserted(listing, p, x))
  {
    var more := Inserted(listing, p, x);
    hide Inserted;
    forall i | 0 <= i < |listing|
      ensures listing[i] != x
    {
      assert listing[i] in listing;
    }
  }

  lemma UpdatedListing<T>(listing: seq<Row<T>>, e: set<Row<T>>, p: nat, x: Row<T>)
    requires IsListing(listing, e) && p < |listing|
    requires x.createdAt == listing[p].createdAt && (x == listing[p] || x !in e)
    ensures IsListing(listing[p := x], e - {listing[p]} + {x})
  {
    var after := listing[p := x];
    forall r | r in e - {listing[p]} + {x}
      ensures r in after
    {
      if r == x {
        assert after[p] == x;
      } else {
        var i :| 0 <= i < |listing| && listing[i] == r;
        assert after[i] == r;
      }
    }
    forall i | 0 <= i < |listing|
      ensures listing[i] in e
    {
      assert listing[i] in listing;
    }
  }

  /** Without ties a row stands behind the newer ones. */
  lemma PlaceOf<T>(listing: seq<Row<T>>, e: set<Row<T>>, p: nat, item: Row<T>)
    requires IsListing(listing, e) && DistinctTimes(e) && item in e && p <= |listing|
    requires forall i | 0 <= i < p :: listing[i].createdAt > item.createdAt
    requires forall i | p <= i < |listing| :: listing[i].createdAt <= item.createdAt
    ensures p < |listing| && listing[p] == item
  {
    var i :| 0 <= i < |listing| && listing[i] == item;
    assert p <= i;
    assert listing[p] in listing;
  }
}
