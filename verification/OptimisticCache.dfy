/**
 The optimistic updates of the admin page: before the server has answered, every cached page of
 users is rewritten as the server is expected to answer, and put back if the request fails.
 */
module OptimisticCache {
  import opened Common
  import opened Keyset
  import opened Listings
  import opened Traversal
  import opened Users
  import opened UserQueries

  /** A user as the list shows it, updated_at left aside. */
  datatype View = View(id: nat, email: string, name: string, role: Role, isActive: bool, createdAt: int)

  datatype UsersPage = UsersPage(users: seq<View>, total: int, offset: nat, limit: nat)

  /** ["adminUsers", offset, limit, search] */
  datatype QueryKey = QueryKey(offset: nat, limit: nat, search: Option<string>)

  function ViewOf(u: User): View {
    View(u.id, u.data.email, u.data.name, u.data.role, u.data.isActive, u.createdAt)
  }

  // ---------- the updaters ----------

  function MapUsers(users: seq<View>, f: View -> View): (r: seq<View>)
    ensures |r| == |users|
    ensures forall i | 0 <= i < |users| :: r[i] == f(users[i])
  {
    seq(|users|, i requires 0 <= i < |users| => f(users[i]))
  }

  function FilterUsers(users: seq<View>, id: nat): seq<View> {
    if users == [] then []
    else if users[0].id == id then FilterUsers(users[1..], id)
    else [users[0]] + FilterUsers(users[1..], id)
  }

  datatype Change = SetRole(id: nat, role: Role) | SetStatus(id: nat, isActive: bool) | Remove(id: nat)

  function ChangeView(c: Change, v: View): View
    requires !c.Remove?
  {
    if v.id != c.id then v
    else if c.SetRole? then v.(role := c.role)
    else v.(isActive := c.isActive)
  }

  /** What onMutate does to one cached page. */
  function Updated(c: Change, page: UsersPage): UsersPage {
    if c.Remove? then page.(total := page.total - 1, users := FilterUsers(page.users, c.id))
    else page.(users := MapUsers(page.users, v => ChangeView(c, v)))
  }

  /** Queries without data are left alone. */
  function Rewritten(c: Change, entry: Option<UsersPage>): Option<UsersPage> {
    if entry.None? then None else Some(Updated(c, entry.value))
  }

  // ---------- the query cache ----------

  type Snapshot = seq<(QueryKey, Option<UsersPage>)>

  /** The pairs list each cached query once, with what is cached for it. */
  ghost predicate IsSnapshot(data: map<QueryKey, Option<UsersPage>>, s: Snapshot) {
    && (forall i | 0 <= i < |s| :: s[i].0 in data && data[s[i].0] == s[i].1)
    && (forall k | k in data :: exists i :: 0 <= i < |s| && s[i].0 == k)
    && (forall i, j | 0 <= i < j < |s| :: s[i].0 != s[j].0)
  }

  /** The entries under ["adminUsers"]; None is a query without data yet. */
  class QueryCache {
    var data: map<QueryKey, Option<UsersPage>>

    constructor ()
      ensures data == map[]
    {
      data := map[];
    }

    /** onMutate: `previous` is what getQueriesData returned just before. */
    method OnMutate(c: Change, previous: Snapshot)
      requires IsSnapshot(data, previous)
      modifies this
      ensures data.Keys == old(data).Keys
      ensures forall k | k in data :: data[k] == Rewritten(c, old(data)[k])
    {
      hide Updated;
      for i := 0 to |previous|
        invariant data.Keys == old(data).Keys
        invariant forall j | i <= j < |previous| :: data[previous[j].0] == old(data)[previous[j].0]
        invariant forall j | 0 <= j < i ::
                    data[previous[j].0] == Rewritten(c, previous[j].1)
      {
        var key := previous[i].0;
        if data[key].Some? {
          data := data[key := Some(Updated(c, data[key].value))];
        }
      }
    }

    /** onError: setQueryData for every pair; undefined data leaves the entry alone. */
    method OnError(previous: Snapshot)
      requires forall i, j | 0 <= i < j < |previous| :: previous[i].0 != previous[j].0
      modifies this
      ensures forall i | 0 <= i < |previous| && previous[i].1.Some? ::
                previous[i].0 in data && data[previous[i].0] == previous[i].1
      ensures forall k | (forall i | 0 <= i < |previous| && previous[i].1.Some? :: previous[i].0 != k) ::
                (k in data <==> k in old(data)) && (k in data ==> data[k] == old(data)[k])
    {
      for i := 0 to |previous|
        invariant forall j | 0 <= j < i && previous[j].1.Some? ::
                    previous[j].0 in data && data[previous[j].0] == previous[j].1
        invariant forall k | (forall j | 0 <= j < i && previous[j].1.Some? :: previous[j].0 != k) ::
                    (k in data <==> k in old(data)) && (k in data ==> data[k] == old(data)[k])
      {
        if previous[i].1.Some? {
          data := data[previous[i].0 := previous[i].1];
        }
      }
    }
  }

  /** A failed mutation leaves no trace: onError after onMutate restores every cached page. */
  method MutateAndFail(cache: QueryCache, c: Change, previous: Snapshot)
    requires IsSnapshot(cache.data, previous)
    modifies cache
    ensures cache.data == old(cache.data)
  {
    ghost var before := cache.data;
    cache.OnMutate(c, previous);
    ghost var mid := cache.data;
    cache.OnError(previous);
    forall k
      ensures (k in cache.data <==> k in before) && (k in before ==> cache.data[k] == before[k])
    {
      if i :| 0 <= i < |previous| && previous[i].1.Some? && previous[i].0 == k {
      } else {
        assert (k in cache.data <==> k in mid) && (k in mid ==> cache.data[k] == mid[k]);
        if k in before {
          var i :| 0 <= i < |previous| && previous[i].0 == k;
          assert before[k].None?;
        }
      }
    }
  }

  // ---------- the server's answers ----------

  /** The rows a search finds. */
  function Matching(fold: char -> char, rows: set<User>, search: Option<string>): set<User> {
    set u | u in rows && SearchPasses(fold, search, u)
  }

  function Views(listing: seq<User>): (v: seq<View>)
    ensures |v| == |listing|
    ensures forall i | 0 <= i < |listing| :: v[i] == ViewOf(listing[i])
  {
    seq(|listing|, i requires 0 <= i < |listing| => ViewOf(listing[i]))
  }

  /** A page that list_users may answer to this query. */
  ghost predicate IsServerPage(fold: char -> char, rows: set<User>, q: QueryKey, page: UsersPage) {
    && page.offset == q.offset && page.limit == q.limit
    && page.total == |Matching(fold, rows, q.search)|
    && exists listing :: IsListing(listing, Matching(fold, rows, q.search))
                         && page.users == Slice(Views(listing), q.offset, q.limit)
  }

  /** The row that update_role or set_active leaves, the bookkeeping columns being whatever they are. */
  ghost predicate RowChanged(c: Change, u: User, u': User)
    requires !c.Remove?
  {
    && u.id == u'.id == c.id && u.createdAt == u'.createdAt
    && u.data.email == u'.data.email && u.data.name == u'.data.name
    && u'.data.role == (if c.SetRole? then c.role else u.data.role)
    && u'.data.isActive == (if c.SetStatus? then c.isActive else u.data.isActive)
  }

  ghost predicate TableChanged(c: Change, rows: set<User>, u: User, u': User, rows': set<User>)
    requires !c.Remove?
  {
    && UniqueIds(rows) && u in rows && RowChanged(c, u, u') && rows' == rows - {u} + {u'}
  }

  function Replaced(listing: seq<User>, u: User, u': User): (r: seq<User>)
    ensures |r| == |listing|
    ensures forall i | 0 <= i < |listing| :: r[i] == if listing[i] == u then u' else listing[i]
  {
    seq(|listing|, i requires 0 <= i < |listing| => if listing[i] == u then u' else listing[i])
  }

  /** The search does not look at what changes. */
  lemma MatchingChanged(fold: char -> char, c: Change, rows: set<User>, u: User, u': User, rows': set<User>,
                        search: Option<string>)
    requires !c.Remove? && TableChanged(c, rows, u, u', rows')
    ensures var e := Matching(fold, rows, search);
            Matching(fold, rows', search) == if u in e then e - {u} + {u'} else e
    ensures u'.id == u.id && u'.createdAt == u.createdAt
  {
    assert SearchPasses(fold, search, u) == SearchPasses(fold, search, u');
    assert u' in rows ==> u' == u;
  }

  /** Exchanging one row for another with the same id and created_at keeps a listing a listing. */
  lemma ReplacedListing(rows: set<User>, e: set<User>, u: User, u': User, listing: seq<User>)
    requires UniqueIds(rows) && e <= rows && u in rows
    requires u'.id == u.id && u'.createdAt == u.createdAt
    requires IsListing(listing, e)
    ensures IsListing(Replaced(listing, u, u'), if u in e then e - {u} + {u'} else e)
  {
    var r := Replaced(listing, u, u');
    if u in e {
      assert forall i | 0 <= i < |listing| :: listing[i] in listing && r[i].id == listing[i].id;
      ReplacedDistinct(rows, u, u', listing, r);
      ReplacedMembers(e, u, u', listing);
    } else {
      assert forall i | 0 <= i < |listing| :: listing[i] in listing;
      assert r == listing;
    }
  }

  lemma ReplacedMembers(e: set<User>, u: User, u': User, listing: seq<User>)
    requires u in e && (forall x | x in listing :: x in e) && (forall x | x in e :: x in listing)
    ensures forall x | x in Replaced(listing, u, u') :: x in e - {u} + {u'}
    ensures forall x | x in e - {u} + {u'} :: x in Replaced(listing, u, u')
  {
    var r := Replaced(listing, u, u');
    forall x | x in r
      ensures x in e - {u} + {u'}
    {
      var i :| 0 <= i < |r| && r[i] == x;
      assert listing[i] in listing;
    }
    forall x | x in e - {u} + {u'}
      ensures x in r
    {
      var y := if x == u' then u else x;
      var i :| 0 <= i < |listing| && listing[i] == y;
      assert r[i] == x;
    }
  }

  lemma ReplacedDistinct(rows: set<User>, u: User, u': User, listing: seq<User>, r: seq<User>)
    requires UniqueIds(rows) && Distinct(listing) && |r| == |listing|
    requires forall i | 0 <= i < |listing| :: listing[i] in rows && r[i].id == listing[i].id
    ensures Distinct(r)
  {
    forall i, j | 0 <= i < j < |r|
      ensures r[i] != r[j]
    {
      assert listing[i] != listing[j] && listing[i].id != listing[j].id;
    }
  }

  lemma ReplacedViews(c: Change, rows: set<User>, listing: seq<User>, u: User, u': User)
    requires !c.Remove? && UniqueIds(rows) && u in rows && RowChanged(c, u, u')
    requires forall x | x in listing :: x in rows
    ensures Views(Replaced(listing, u, u')) == MapUsers(Views(listing), v => ChangeView(c, v))
  {
    var r := Views(Replaced(listing, u, u'));
    var m := MapUsers(Views(listing), v => ChangeView(c, v));
    forall i | 0 <= i < |listing|
      ensures r[i] == m[i]
    {
      assert listing[i] in listing;
      assert listing[i].id == u.id ==> listing[i] == u;
    }
  }

  lemma SliceMaps(users: seq<View>, f: View -> View, offset: nat, limit: nat)
    ensures MapUsers(Slice(users, offset, limit), f) == Slice(MapUsers(users, f), offset, limit)
  {
  }

  lemma SameMatchCount(fold: char -> char, c: Change, rows: set<User>, u: User, u': User,
                       rows': set<User>, search: Option<string>)
    requires !c.Remove? && TableChanged(c, rows, u, u', rows')
    ensures |Matching(fold, rows', search)| == |Matching(fold, rows, search)|
  {
    MatchingChanged(fold, c, rows, u, u', rows', search);
    assert u' in Matching(fold, rows, search) ==> u' == u;
  }

  /**
   Optimistic role and status changes commute with the server: rewriting a page the server gave
   for the old table yields a page the server may give for the new one, for every query.
   */
  lemma ChangeCommutes(fold: char -> char, c: Change, rows: set<User>, u: User, u': User, rows': set<User>,
                       q: QueryKey, page: UsersPage)
    requires !c.Remove? && TableChanged(c, rows, u, u', rows')
    requires IsServerPage(fold, rows, q, page)
    ensures IsServerPage(fold, rows', q, Updated(c, page))
  {
    var listing :| IsListing(listing, Matching(fold, rows, q.search))
                   && page.users == Slice(Views(listing), q.offset, q.limit);
    var r := Replaced(listing, u, u');
    MatchingChanged(fold, c, rows, u, u', rows', q.search);
    ReplacedListing(rows, Matching(fold, rows, q.search), u, u', listing);
    ReplacedViews(c, rows, listing, u, u');
    SliceMaps(Views(listing), v => ChangeView(c, v), q.offset, q.limit);
    SameMatchCount(fold, c, rows, u, u', rows', q.search);
    assert Updated(c, page).users == Slice(Views(r), q.offset, q.limit);
  }

  /** When no two found rows share their created_at, the server can give no other page. */
  lemma ServerPageUnique(fold: char -> char, rows: set<User>, q: QueryKey, page: UsersPage, page': UsersPage)
    requires UniqueIds(rows) && DistinctTimes(Matching(fold, rows, q.search))
    requires IsServerPage(fold, rows, q, page) && IsServerPage(fold, rows, q, page')
    ensures page == page'
  {
    var e := Matching(fold, rows, q.search);
    var a :| IsListing(a, e) && page.users == Slice(Views(a), q.offset, q.limit);
    var b :| IsListing(b, e) && page'.users == Slice(Views(b), q.offset, q.limit);
    ListingIsSelect(a, e);
    ListingIsSelect(b, e);
  }

  // ---------- deleting ----------

  function Without<T(==)>(listing: seq<T>, k: nat): seq<T>
    requires k < |listing|
  {
    listing[..k] + listing[k + 1..]
  }

  lemma WithoutListing(listing: seq<User>, e: set<User>, k: nat)
    requires IsListing(listing, e) && k < |listing|
    ensures IsListing(Without(listing, k), e - {listing[k]})
  {
    var r := Without(listing, k);
    forall i | 0 <= i < |r|
      ensures r[i] == listing[if i < k then i else i + 1]
    {
    }
    forall x | x in r
      ensures x in e - {listing[k]}
    {
      var i :| 0 <= i < |r| && r[i] == x;
      assert listing[if i < k then i else i + 1] in listing;
    }
    forall x | x in e - {listing[k]}
      ensures x in r
    {
      var i :| 0 <= i < |listing| && listing[i] == x;
      assert r[if i < k then i else i - 1] == x;
    }
  }

  /** Filtering out the one user with this id is dropping that user's place. */
  lemma {:induction false} FilterDropsOne(users: seq<View>, k: nat, id: nat)
    requires k < |users| && users[k].id == id
    requires forall i | 0 <= i < |users| && i != k :: users[i].id != id
    ensures FilterUsers(users, id) == Without(users, k)
  {
    if k == 0 {
      FilterNothing(users[1..], id);
      assert Without(users, 0) == users[1..];
    } else {
      FilterDropsOne(users[1..], k - 1, id);
      assert Without(users, k) == [users[0]] + Without(users[1..], k - 1);
    }
  }

  lemma {:induction false} FilterNothing(users: seq<View>, id: nat)
    requires forall i | 0 <= i < |users| :: users[i].id != id
    ensures FilterUsers(users, id) == users
  {
    if users != [] {
      FilterNothing(users[1..], id);
      assert users == [users[0]] + users[1..];
    }
  }

  /** Dropping one place from a slice that holds it gives the beginning of the slice of what is left. */
  lemma SliceWithout(users: seq<View>, offset: nat, limit: nat, k: nat)
    requires offset <= k < |users| && k < offset + limit
    ensures k - offset < |Slice(users, offset, limit)|
    ensures Without(Slice(users, offset, limit), k - offset) <= Slice(Without(users, k), offset, limit)
    ensures |Slice(Without(users, k), offset, limit)| <= |Slice(users, offset, limit)|
  {
    var page, rest := Slice(users, offset, limit), Without(users, k);
    SliceAt(users, offset, limit);
    SliceAt(rest, offset, limit);
    WithoutAt(users, k);
    var short, cut := Without(page, k - offset), Slice(rest, offset, limit);
    WithoutAt(page, k - offset);
    hide Slice, Without;
    assert |short| <= |cut|;
    forall i | 0 <= i < |short|
      ensures short[i] == cut[i]
    {
      var j := if i < k - offset then i else i + 1;
      assert short[i] == page[j] == users[offset + j];
      assert cut[i] == rest[offset + i];
    }
  }

  lemma SliceAt(users: seq<View>, offset: nat, limit: nat)
    requires offset <= |users|
    ensures |Slice(users, offset, limit)| == if offset + limit < |users| then limit else |users| - offset
    ensures forall i | 0 <= i < |Slice(users, offset, limit)| :: Slice(users, offset, limit)[i] == users[offset + i]
  {
  }

  lemma WithoutAt(users: seq<View>, k: nat)
    requires k < |users|
    ensures |Without(users, k)| == |users| - 1
    ensures forall i | 0 <= i < |users| - 1 :: Without(users, k)[i] == users[if i < k then i else i + 1]
  {
  }

  /** Where the user stands in the listing that a page showing the user was cut from. */
  lemma PlaceInListing(rows: set<User>, u: User, listing: seq<User>, users: seq<View>, offset: nat, limit: nat)
    returns (k: nat)
    requires UniqueIds(rows) && u in rows
    requires Distinct(listing) && forall x | x in listing :: x in rows
    requires users == Slice(Views(listing), offset, limit)
    requires exists v :: v in users && v.id == u.id
    ensures offset <= k < |listing| && k < offset + limit && listing[k] == u
    ensures forall i | 0 <= i < |listing| && i != k :: listing[i].id != u.id
  {
    var v :| v in users && v.id == u.id;
    var n :| 0 <= n < |users| && users[n] == v;
    k := offset + n;
    assert users[n] == Views(listing)[k] == ViewOf(listing[k]);
    assert listing[k] in listing;
    forall i | 0 <= i < |listing| && i != k
      ensures listing[i].id != u.id
    {
      assert listing[i] in listing && listing[i] != listing[k];
    }
  }

  /** Filtering the page that shows the user at place k of the listing. */
  lemma FilteredPage(listing: seq<User>, k: nat, offset: nat, limit: nat)
    requires offset <= k < |listing| && k < offset + limit
    requires forall i | 0 <= i < |listing| && i != k :: listing[i].id != listing[k].id
    ensures FilterUsers(Slice(Views(listing), offset, limit), listing[k].id)
         <= Slice(Views(Without(listing, k)), offset, limit)
    ensures |Slice(Views(Without(listing, k)), offset, limit)| <= |Slice(Views(listing), offset, limit)|
  {
    var views := Views(listing);
    var users := Slice(views, offset, limit);
    SliceWithout(views, offset, limit, k);
    assert forall i | 0 <= i < |users| :: users[i] == views[offset + i];
    FilterDropsOne(users, k - offset, listing[k].id);
    ViewsWithout(listing, k);
  }

  lemma ViewsWithout(listing: seq<User>, k: nat)
    requires k < |listing|
    ensures Views(Without(listing, k)) == Without(Views(listing), k)
  {
  }

  /**
   Optimistic deletion: the page that showed the user, with the user filtered out, is the beginning
   of a page the server may give afterwards, with the same total; the server's page may have one
   row more at its end, which moved up from the next page.
   */
  lemma DeleteCommutes(fold: char -> char, rows: set<User>, u: User, q: QueryKey, page: UsersPage)
    requires UniqueIds(rows) && u in rows
    requires IsServerPage(fold, rows, q, page)
    requires exists v :: v in page.users && v.id == u.id
    ensures exists page' :: IsServerPage(fold, rows - {u}, q, page')
              && Updated(Remove(u.id), page).users <= page'.users
              && |page'.users| <= |page.users|
              && Updated(Remove(u.id), page).total == page'.total
  {
    var e := Matching(fold, rows, q.search);
    var listing :| IsListing(listing, e) && page.users == Slice(Views(listing), q.offset, q.limit);
    var k := PlaceInListing(rows, u, listing, page.users, q.offset, q.limit);
    hide Views, Slice, Without, FilterUsers;
    FilteredPage(listing, k, q.offset, q.limit);
    WithoutListing(listing, e, k);
    assert listing[k] in listing;
    assert Matching(fold, rows - {u}, q.search) == e - {u};
    var page' := UsersPage(Slice(Views(Without(listing, k)), q.offset, q.limit), |e| - 1, q.offset, q.limit);
    assert IsServerPage(fold, rows - {u}, q, page');
  }

  /** The total of every cached page is lowered, which is right exactly for the queries that found the user. */
  lemma DeletedTotalRightIff(fold: char -> char, rows: set<User>, u: User, q: QueryKey, page: UsersPage)
    requires UniqueIds(rows) && u in rows
    requires IsServerPage(fold, rows, q, page)
    ensures Updated(Remove(u.id), page).total == |Matching(fold, rows - {u}, q.search)|
       <==> SearchPasses(fold, q.search, u)
  {
    var e := Matching(fold, rows, q.search);
    if SearchPasses(fold, q.search, u) {
      assert Matching(fold, rows - {u}, q.search) == e - {u};
    } else {
      assert Matching(fold, rows - {u}, q.search) == e;
    }
  }

  /** With the user at place k of n: the page lies before the user, or is empty, or shows the user and is the last. */
  predicate SeesRight(offset: nat, limit: nat, k: nat, n: nat) {
    || limit == 0 || n <= offset || offset + limit <= k
    || (offset <= k && n <= offset + limit)
  }

  ghost predicate DistinctViews(users: seq<View>) {
    forall i, j | 0 <= i < j < |users| :: users[i].id != users[j].id
  }

  /** Filtering the user out of a slice gives the slice of what is left exactly for these slices. */
  lemma FilteredSliceIff(views: seq<View>, k: nat, offset: nat, limit: nat)
    requires k < |views| && DistinctViews(views)
    ensures FilterUsers(Slice(views, offset, limit), views[k].id) == Slice(Without(views, k), offset, limit)
       <==> SeesRight(offset, limit, k, |views|)
  {
    if offset <= k < offset + limit {
      ShownSliceIff(views, k, offset, limit);
    } else {
      HiddenSliceIff(views, k, offset, limit);
    }
  }

  lemma ShownSliceIff(views: seq<View>, k: nat, offset: nat, limit: nat)
    requires offset <= k < |views| && k < offset + limit && DistinctViews(views)
    ensures FilterUsers(Slice(views, offset, limit), views[k].id) == Slice(Without(views, k), offset, limit)
       <==> |views| <= offset + limit
  {
    var users := Slice(views, offset, limit);
    SliceAt(views, offset, limit);
    SliceWithout(views, offset, limit, k);
    FilterDropsOne(users, k - offset, views[k].id);
    WithoutAt(users, k - offset);
    WithoutAt(views, k);
    SliceAt(Without(views, k), offset, limit);
    hide Slice, Without, FilterUsers;
  }

  lemma HiddenSliceIff(views: seq<View>, k: nat, offset: nat, limit: nat)
    requires k < |views| && !(offset <= k < offset + limit) && DistinctViews(views)
    ensures FilterUsers(Slice(views, offset, limit), views[k].id) == Slice(Without(views, k), offset, limit)
       <==> limit == 0 || |views| <= offset || offset + limit <= k
  {
    NotShown(views, k, offset, limit);
    PutBack(views, k);
    WithoutAt(views, k);
    hide *;
    SliceInsertedIff(Without(views, k), k, views[k], offset, limit);
  }

  lemma NotShown(views: seq<View>, k: nat, offset: nat, limit: nat)
    requires k < |views| && !(offset <= k < offset + limit) && DistinctViews(views)
    ensures FilterUsers(Slice(views, offset, limit), views[k].id) == Slice(views, offset, limit)
  {
    var users := Slice(views, offset, limit);
    if offset <= |views| {
      SliceAt(views, offset, limit);
    }
    FilterNothing(users, views[k].id);
  }

  lemma PutBack(views: seq<View>, k: nat)
    requires k < |views| && DistinctViews(views)
    ensures Inserted(Without(views, k), k, views[k]) == views
    ensures Distinct(Without(views, k)) && views[k] !in Without(views, k)
  {
    var rest := Without(views, k);
    WithoutAt(views, k);
    var more := Inserted(rest, k, views[k]);
    hide Without, Inserted;
    assert forall i | 0 <= i < |views| :: more[i] == views[i];
  }

  lemma ViewsDistinct(rows: set<User>, listing: seq<User>)
    requires UniqueIds(rows) && Distinct(listing) && forall x | x in listing :: x in rows
    ensures DistinctViews(Views(listing))
  {
    forall i, j | 0 <= i < j < |listing|
      ensures listing[i].id != listing[j].id
    {
      assert listing[i] in listing && listing[j] in listing && listing[i] != listing[j];
    }
  }

  /** After the deletion, and without ties, a page is the server's iff it is cut from the listing without the user. */
  lemma AfterDeletion(fold: char -> char, rows: set<User>, u: User, q: QueryKey, listing: seq<User>, k: nat,
                      page: UsersPage)
    requires UniqueIds(rows) && u in rows && DistinctTimes(Matching(fold, rows, q.search))
    requires IsListing(listing, Matching(fold, rows, q.search)) && k < |listing| && listing[k] == u
    requires page.offset == q.offset && page.limit == q.limit && page.total == |listing| - 1
    ensures IsServerPage(fold, rows - {u}, q, page)
       <==> page.users == Slice(Without(Views(listing), k), q.offset, q.limit)
  {
    var e := Matching(fold, rows, q.search);
    assert u in listing;
    assert Matching(fold, rows - {u}, q.search) == e - {u};
    DistinctSize(listing);
    assert (set x | x in listing) == e;
    WithoutListing(listing, e, k);
    ViewsWithout(listing, k);
    var server := UsersPage(Slice(Views(Without(listing, k)), q.offset, q.limit), |e| - 1, q.offset, q.limit);
    assert IsServerPage(fold, rows - {u}, q, server);
    if IsServerPage(fold, rows - {u}, q, page) {
      ServerPageUnique(fold, rows - {u}, q, page, server);
    }
  }

  /**
   Which cached pages the optimistic deletion leaves right, when no two users share created_at: those
   of queries that find the user, if the page lies before the user, is empty, or shows the user and is
   the last. All others are off until the refetch: pages behind the user by one row, the user's own
   page by the row that moves up, and queries that do not find the user in their total.
   */
  lemma DeletedPageRightIff(fold: char -> char, rows: set<User>, u: User, q: QueryKey, page: UsersPage)
    requires UniqueIds(rows) && u in rows && DistinctTimes(Matching(fold, rows, q.search))
    requires IsServerPage(fold, rows, q, page)
    ensures var e := Matching(fold, rows, q.search);
            IsServerPage(fold, rows - {u}, q, Updated(Remove(u.id), page))
            <==> SearchPasses(fold, q.search, u) && SeesRight(q.offset, q.limit, Newer(e, u.createdAt), |e|)
  {
    var e := Matching(fold, rows, q.search);
    DeletedTotalRightIff(fold, rows, u, q, page);
    if SearchPasses(fold, q.search, u) {
      var listing :| IsListing(listing, e) && page.users == Slice(Views(listing), q.offset, q.limit);
      DistinctSize(listing);
      assert (set x | x in listing) == e && u in e;
      ViewsDistinct(rows, listing);
      var updated := Updated(Remove(u.id), page);
      assert updated == UsersPage(FilterUsers(page.users, u.id), page.total - 1, page.offset, page.limit);
      assert page.total == |e| && page.offset == q.offset && page.limit == q.limit;
      hide *;
      var k := NewerComeFirst(listing, e, u.createdAt);
      PlaceOf(listing, e, k, u);
      AfterDeletion(fold, rows, u, q, listing, k, updated);
      assert Views(listing)[k] == ViewOf(u);
      ViewKeepsId(u);
      FilteredSliceIff(Views(listing), k, q.offset, q.limit);
    }
  }

  lemma ViewKeepsId(u: User)
    ensures ViewOf(u).id == u.id
  {
  }
}
