/**
 Item requests that overlap. A write flushes, clears the owner's keys, and only then does get_db
 commit it; a list request reads the committed table, and stores the page it read a moment later.
 The cache can therefore be left with a page of the table as it was before a commit. These lemmas
 say exactly when.
 */
module ItemOverlap {
  import opened Common
  import opened Keyset
  import opened Listings
  import opened Traversal
  import opened CacheKeys
  import opened RedisCache
  import opened ItemService

  /** A list request that has fetched its page and not yet stored it. */
  datatype Reading = Reading(owner: string, offset: nat, limit: nat, page: ItemPage)

  /** A write that has been flushed and not yet committed. */
  datatype Writing = Writing(req: Request, cleared: bool)

  /** The committed table, the cache, and the requests under way. */
  datatype World = World(rows: Table, store: Store, readings: map<nat, Reading>, writings: map<nat, Writing>)

  datatype Event =
    | Fetch(c: nat, reading: Reading)  // get_list, on the committed table
    | Put(c: nat, reading: Reading)    // the SET of the fetched page
    | Drop(c: nat)                     // the call ends without a SET
    | Expire(key: string)
    | Flush(w: nat, req: Request)      // the INSERT, UPDATE or DELETE
    | Clear(w: nat, scan: seq<string>) // invalidate
    | Commit(w: nat)
    | Rollback(w: nat)

  function Init(): World {
    World({}, map[], map[], map[])
  }

  /** The write finds what it needs: a free id, or the owner's item. */
  predicate Applies(rows: Table, req: Request) {
    match req
    case GetItem(_, _) | ListItems(_, _, _) => false
    case CreateItem(id, _, _, _, _) => IdFree(rows, id)
    case UpdateItem(id, owner, _, _) => exists x :: x in rows && x.id == id && x.data.owner == owner
    case DeleteItem(id, owner) => exists x :: x in rows && x.id == id && x.data.owner == owner
  }

  function KeyFor(r: Reading): string {
    ItemKey(r.owner, r.offset, r.limit)
  }

  ghost predicate Enabled(s: World, e: Event) {
    match e
    case Fetch(c, r) =>
      c !in s.readings && ValidOwner(r.owner) && IsItemPage(s.rows, r.owner, r.offset, r.limit, r.page)
    case Put(c, r) => c in s.readings && s.readings[c] == r
    case Drop(c) => c in s.readings
    case Expire(_) => true
    case Flush(w, req) => w !in s.writings && ValidOwner(OwnerOf(req)) && Applies(s.rows, req)
    case Clear(w, scan) =>
      w in s.writings && !s.writings[w].cleared && IsScan(s.store, ItemPattern(OwnerOf(s.writings[w].req)), scan)
    case Commit(w) =>
      w in s.writings && s.writings[w].cleared && UniqueIds(s.rows) && Applies(s.rows, s.writings[w].req)
    case Rollback(w) => w in s.writings
  }

  ghost function Next(s: World, e: Event): World
    requires Enabled(s, e)
  {
    match e
    case Fetch(c, r) => s.(readings := s.readings[c := r])
    case Put(c, r) => s.(readings := s.readings - {c}, store := s.store[KeyFor(r) := PageValue(r.page)])
    case Drop(c) => s.(readings := s.readings - {c})
    case Expire(key) => s.(store := s.store - {key})
    case Flush(w, req) => s.(writings := s.writings[w := Writing(req, false)])
    case Clear(w, scan) =>
      s.(writings := s.writings[w := s.writings[w].(cleared := true)], store := Unlinked(s.store, scan))
    case Commit(w) => s.(writings := s.writings - {w}, rows := TableAfter(s.rows, s.writings[w].req))
    case Rollback(w) => s.(writings := s.writings - {w})
  }

  // ---------- which pages a write changes ----------

  /** created_at decides the order of the owner's items, before and after the write. */
  ghost predicate NoTies(rows: Table, req: Request) {
    && DistinctTimes(OwnedBy(rows, OwnerOf(req)))
    && (req.CreateItem? ==> forall r | r in OwnedBy(rows, req.owner) :: r.createdAt != req.now)
  }

  /**
   The write changes the page at this offset: an insertion or deletion shifts everything from its
   place on, an update shows on one page, if it writes anything new.
   */
  predicate Touches(rows: Table, req: Request, offset: nat, limit: nat)
    requires UniqueIds(rows)
  {
    var n := |OwnedBy(rows, OwnerOf(req))|;
    match req
    case GetItem(_, _) | ListItems(_, _, _) => false
    case CreateItem(id, _, _, owner, now) =>
      limit >= 1 && Newer(OwnedBy(rows, owner), now) < offset + limit && offset <= n
    case UpdateItem(id, owner, patch, now) =>
      var found := Find(rows, id, owner);
      && found.Some? && Patched(found.value, patch, now) != found.value
      && offset <= Newer(OwnedBy(rows, owner), found.value.createdAt) < offset + limit
    case DeleteItem(id, owner) =>
      var found := Find(rows, id, owner);
      && found.Some? && limit >= 1
      && Newer(OwnedBy(rows, owner), found.value.createdAt) < offset + limit && offset < n
  }

  /** Without ties the database has one answer, so a page is right iff it is that one. */
  lemma PageIsSlice(rows: Table, owner: string, listing: ItemPage, offset: nat, limit: nat, page: ItemPage)
    requires UniqueIds(rows) && DistinctTimes(OwnedBy(rows, owner))
    requires IsListing(listing, OwnedBy(rows, owner))
    ensures IsItemPage(rows, owner, offset, limit, page) <==> page == Slice(listing, offset, limit)
  {
    ListingIsSelect(listing, OwnedBy(rows, owner));
    if IsItemPage(rows, owner, offset, limit, page) {
      var other :| IsListing(other, OwnedBy(rows, owner)) && page == Slice(other, offset, limit);
      ListingIsSelect(other, OwnedBy(rows, owner));
    }
  }

  /**
   Two tables, one of which has one item more for its owner: a page that is right for one of them is
   right for the other unless it reaches the item's place.
   */
  lemma OneMoreItem(fewer: Table, more: Table, item: Item, offset: nat, limit: nat, page: ItemPage)
    requires UniqueIds(fewer) && UniqueIds(more) && DistinctTimes(OwnedBy(more, item.data.owner))
    requires item !in OwnedBy(fewer, item.data.owner)
    requires OwnedBy(more, item.data.owner) == OwnedBy(fewer, item.data.owner) + {item}
    requires IsItemPage(fewer, item.data.owner, offset, limit, page)
          || IsItemPage(more, item.data.owner, offset, limit, page)
    ensures IsItemPage(fewer, item.data.owner, offset, limit, page)
            && IsItemPage(more, item.data.owner, offset, limit, page)
       <==> !(limit >= 1 && Newer(OwnedBy(fewer, item.data.owner), item.createdAt) < offset + limit
              && offset <= |OwnedBy(fewer, item.data.owner)|)
  {
    var owner := item.data.owner;
    var e := OwnedBy(fewer, owner);
    var listing := Select(e, |e|);
    SelectIsListing(e);
    SelectLength(e, |e|);
    assert DistinctTimes(e);
    var p := NewerComeFirst(listing, OwnedBy(fewer, owner), item.createdAt);
    assert item !in listing && Distinct(listing);
    hide *;
    InsertedListing(listing, e, p, item);
    PageIsSlice(fewer, owner, listing, offset, limit, page);
    PageIsSlice(more, owner, Inserted(listing, p, item), offset, limit, page);
    SliceInsertedIff(listing, p, item, offset, limit);
  }

  lemma CreateTouches(rows: Table, item: Item, offset: nat, limit: nat, page: ItemPage)
    requires UniqueIds(rows) && IdFree(rows, item.id)
    requires DistinctTimes(OwnedBy(rows, item.data.owner))
    requires forall r | r in OwnedBy(rows, item.data.owner) :: r.createdAt != item.createdAt
    requires IsItemPage(rows, item.data.owner, offset, limit, page)
    ensures IsItemPage(rows + {item}, item.data.owner, offset, limit, page)
       <==> !(limit >= 1 && Newer(OwnedBy(rows, item.data.owner), item.createdAt) < offset + limit
              && offset <= |OwnedBy(rows, item.data.owner)|)
  {
    assert OwnedBy(rows + {item}, item.data.owner) == OwnedBy(rows, item.data.owner) + {item};
    assert DistinctTimes(OwnedBy(rows + {item}, item.data.owner));
    OneMoreItem(rows, rows + {item}, item, offset, limit, page);
  }

  lemma NewerWithout(rows: Table, item: Item)
    requires item in rows
    ensures Newer(OwnedBy(rows - {item}, item.data.owner), item.createdAt)
         == Newer(OwnedBy(rows, item.data.owner), item.createdAt)
    ensures |OwnedBy(rows - {item}, item.data.owner)| == |OwnedBy(rows, item.data.owner)| - 1
  {
    var owner := item.data.owner;
    assert OwnedBy(rows - {item}, owner) == OwnedBy(rows, owner) - {item};
    assert (set r | r in OwnedBy(rows - {item}, owner) && r.createdAt > item.createdAt)
        == (set r | r in OwnedBy(rows, owner) && r.createdAt > item.createdAt);
  }

  lemma DeleteTouches(rows: Table, item: Item, offset: nat, limit: nat, page: ItemPage)
    requires UniqueIds(rows) && item in rows
    requires DistinctTimes(OwnedBy(rows, item.data.owner))
    requires IsItemPage(rows, item.data.owner, offset, limit, page)
    ensures IsItemPage(rows - {item}, item.data.owner, offset, limit, page)
       <==> !(limit >= 1 && Newer(OwnedBy(rows, item.data.owner), item.createdAt) < offset + limit
              && offset < |OwnedBy(rows, item.data.owner)|)
  {
    NewerWithout(rows, item);
    assert OwnedBy(rows, item.data.owner) == OwnedBy(rows - {item}, item.data.owner) + {item};
    OneMoreItem(rows - {item}, rows, item, offset, limit, page);
  }

  lemma UpdateTouches(rows: Table, item: Item, patched: Item, offset: nat, limit: nat, page: ItemPage)
    requires UniqueIds(rows) && item in rows
    requires patched.id == item.id && patched.createdAt == item.createdAt && patched.data.owner == item.data.owner
    requires DistinctTimes(OwnedBy(rows, item.data.owner))
    requires IsItemPage(rows, item.data.owner, offset, limit, page)
    ensures IsItemPage(rows - {item} + {patched}, item.data.owner, offset, limit, page)
       <==> !(patched != item && offset <= Newer(OwnedBy(rows, item.data.owner), item.createdAt) < offset + limit)
  {
    var owner := item.data.owner;
    var after := rows - {item} + {patched};
    var e := OwnedBy(rows, owner);
    var listing := Select(e, |e|);
    SelectIsListing(e);
    assert OwnedBy(after, owner) == e - {item} + {patched};
    assert UniqueIds(after) && DistinctTimes(OwnedBy(after, owner));
    assert item in e && (patched == item || patched !in e);
    hide *;
    var p := NewerComeFirst(listing, OwnedBy(rows, owner), item.createdAt);
    PlaceOf(listing, e, p, item);
    UpdatedListing(listing, e, p, patched);
    PageIsSlice(rows, owner, listing, offset, limit, page);
    PageIsSlice(after, owner, listing[p := patched], offset, limit, page);
    SliceUpdatedIff(listing, p, patched, offset, limit);
  }

  /** A page that was right before a write is right after it exactly when the write does not touch it. */
  lemma PageStaysIff(rows: Table, req: Request, offset: nat, limit: nat, page: ItemPage)
    requires UniqueIds(rows) && Applies(rows, req) && NoTies(rows, req)
    requires IsItemPage(rows, OwnerOf(req), offset, limit, page)
    ensures IsItemPage(TableAfter(rows, req), OwnerOf(req), offset, limit, page) <==> !Touches(rows, req, offset, limit)
  {
    hide IsItemPage, OwnedBy, Newer, DistinctTimes;
    match req
    case CreateItem(id, title, description, owner, now) =>
      CreateTouches(rows, NewItem(id, title, description, owner, now), offset, limit, page);
    case UpdateItem(id, owner, patch, now) =>
      var item := Find(rows, id, owner).value;
      UpdateTouches(rows, item, Patched(item, patch, now), offset, limit, page);
    case DeleteItem(id, owner) =>
      DeleteTouches(rows, Find(rows, id, owner).value, offset, limit, page);
  }

  // ---------- agreement in the presence of overlaps ----------

  /** Every page in the cache, or about to go there, is a page of the committed table. */
  ghost predicate Consistent(s: World) {
    && UniqueIds(s.rows) && Agrees(s.rows, s.store)
    && forall c | c in s.readings :: ReadAgrees(s, c)
  }

  ghost predicate ReadAgrees(s: World, c: nat)
    requires c in s.readings
  {
    var r := s.readings[c];
    ValidOwner(r.owner) && IsItemPage(s.rows, r.owner, r.offset, r.limit, r.page)
  }

  /** A page of this list is in the cache or about to go there. */
  ghost predicate Exposed(s: World, owner: string, offset: nat, limit: nat) {
    ItemKey(owner, offset, limit) in s.store || Pending(s, owner, offset, limit)
  }

  ghost predicate Pending(s: World, owner: string, offset: nat, limit: nat) {
    exists c :: c in s.readings && s.readings[c].owner == owner && s.readings[c].offset == offset
                && s.readings[c].limit == limit
  }

  /** Storing a right page keeps the agreement. */
  lemma PutKeeps(rows: Table, store: Store, r: Reading)
    requires Agrees(rows, store) && ValidOwner(r.owner)
    requires IsItemPage(rows, r.owner, r.offset, r.limit, r.page)
    ensures Agrees(rows, store[KeyFor(r) := PageValue(r.page)])
  {
    var store' := store[KeyFor(r) := PageValue(r.page)];
    forall o | ValidOwner(o)
      ensures AgreesFor(rows, store', o)
    {
      assert AgreesFor(rows, store, o);
      forall a: nat, b: nat
        ensures ListAgrees(rows, store', o, a, b)
      {
        assert ListAgrees(rows, store, o, a, b);
        if ItemKey(o, a, b) == KeyFor(r) {
          ItemKeyInjective(o, a, b, r.owner, r.offset, r.limit);
        }
      }
    }
  }

  /** Taking keys away keeps the agreement. */
  lemma ShrinkKeeps(rows: Table, store: Store, store': Store)
    requires Agrees(rows, store) && Evicted(store, store')
    ensures Agrees(rows, store')
  {
    forall o | ValidOwner(o)
      ensures AgreesFor(rows, store', o)
    {
      AgreesTransfers(rows, rows, store, store', o);
    }
  }

  /** No event but a commit can spoil the agreement. */
  lemma OthersKeep(s: World, e: Event)
    requires Consistent(s) && Enabled(s, e) && !e.Commit?
    ensures Consistent(Next(s, e)) && Next(s, e).rows == s.rows
  {
    var s' := Next(s, e);
    assert Agrees(s'.rows, s'.store) by {
      match e
      case Put(c, r) =>
        assert ReadAgrees(s, c);
        PutKeeps(s.rows, s.store, r);
      case Expire(key) => ShrinkKeeps(s.rows, s.store, s'.store);
      case Clear(w, scan) =>
        UnlinkedShrinks(s.store, scan);
        ShrinkKeeps(s.rows, s.store, s'.store);
      case _ =>
        assert s'.store == s.store;
    }
    forall c | c in s'.readings
      ensures ReadAgrees(s', c)
    {
      assert c in s.readings ==> ReadAgrees(s, c);
    }
  }

  /** What a commit does to one list of its owner. */
  lemma CommitOnOwner(s: World, w: nat, offset: nat, limit: nat)
    requires Consistent(s) && Enabled(s, Commit(w)) && NoTies(s.rows, s.writings[w].req)
    requires ValidOwner(OwnerOf(s.writings[w].req))
    ensures var req := s.writings[w].req;
            var s' := Next(s, Commit(w));
            && (ItemKey(OwnerOf(req), offset, limit) in s.store ==>
                  (ListAgrees(s'.rows, s'.store, OwnerOf(req), offset, limit)
                   <==> !Touches(s.rows, req, offset, limit)))
            && (forall c | c in s.readings && s.readings[c].owner == OwnerOf(req) ::
                  ReadAgrees(s', c) <==> !Touches(s.rows, req, s.readings[c].offset, s.readings[c].limit))
  {
    var req := s.writings[w].req;
    var owner := OwnerOf(req);
    var s' := Next(s, Commit(w));
    var key := ItemKey(owner, offset, limit);
    assert AgreesFor(s.rows, s.store, owner);
    assert ListAgrees(s.rows, s.store, owner, offset, limit);
    hide IsItemPage, Touches, TableAfter, NoTies, Applies, IsScan;
    if key in s.store {
      PageStaysIff(s.rows, req, offset, limit, s.store[key].page);
    }
    forall c | c in s.readings && s.readings[c].owner == owner
      ensures ReadAgrees(s', c) <==> !Touches(s.rows, req, s.readings[c].offset, s.readings[c].limit)
    {
      assert ReadAgrees(s, c);
      PageStaysIff(s.rows, req, s.readings[c].offset, s.readings[c].limit, s.readings[c].page);
    }
  }

  /** No page that the write touches is in the cache or about to go there. */
  ghost predicate CleanCommit(s: World, w: nat)
    requires w in s.writings && UniqueIds(s.rows)
  {
    var req := s.writings[w].req;
    forall offset: nat, limit: nat | Exposed(s, OwnerOf(req), offset, limit) :: !Touches(s.rows, req, offset, limit)
  }

  /** The pages of other owners stay right. */
  lemma CommitOnOthers(s: World, w: nat, owner: string)
    requires Consistent(s) && Enabled(s, Commit(w)) && ValidOwner(owner) && owner != OwnerOf(s.writings[w].req)
    ensures AgreesFor(Next(s, Commit(w)).rows, s.store, owner)
    ensures forall c | c in s.readings && s.readings[c].owner == owner :: ReadAgrees(Next(s, Commit(w)), c)
  {
    var s' := Next(s, Commit(w));
    WriteIsLocal(s.rows, s.writings[w].req, owner);
    AgreesTransfers(s.rows, s'.rows, s.store, s.store, owner);
    forall c | c in s.readings && s.readings[c].owner == owner
      ensures ReadAgrees(s', c)
    {
      assert ReadAgrees(s, c);
    }
  }

  lemma CleanCommitKeeps(s: World, w: nat)
    requires Consistent(s) && Enabled(s, Commit(w)) && NoTies(s.rows, s.writings[w].req)
    requires ValidOwner(OwnerOf(s.writings[w].req)) && CleanCommit(s, w)
    ensures Consistent(Next(s, Commit(w)))
  {
    var req := s.writings[w].req;
    var s' := Next(s, Commit(w));
    hide Touches, TableAfter, NoTies, Applies, ReadAgrees, ListAgrees;
    forall o | ValidOwner(o)
      ensures AgreesFor(s'.rows, s'.store, o)
    {
      if o == OwnerOf(req) {
        forall a: nat, b: nat
          ensures ListAgrees(s'.rows, s'.store, o, a, b)
        {
          OwnListStays(s, w, a, b);
        }
      } else {
        CommitOnOthers(s, w, o);
      }
    }
    forall c | c in s'.readings
      ensures ReadAgrees(s', c)
    {
      OwnReadStays(s, w, c);
    }
  }

  lemma OwnListStays(s: World, w: nat, offset: nat, limit: nat)
    requires Consistent(s) && Enabled(s, Commit(w)) && NoTies(s.rows, s.writings[w].req)
    requires ValidOwner(OwnerOf(s.writings[w].req)) && CleanCommit(s, w)
    ensures ListAgrees(Next(s, Commit(w)).rows, s.store, OwnerOf(s.writings[w].req), offset, limit)
  {
    CommitOnOwner(s, w, offset, limit);
    assert Exposed(s, OwnerOf(s.writings[w].req), offset, limit)
        <== ItemKey(OwnerOf(s.writings[w].req), offset, limit) in s.store;
    hide Touches, TableAfter, NoTies, Applies, ReadAgrees, IsItemPage, Enabled;
  }

  lemma OwnReadStays(s: World, w: nat, c: nat)
    requires Consistent(s) && Enabled(s, Commit(w)) && NoTies(s.rows, s.writings[w].req)
    requires ValidOwner(OwnerOf(s.writings[w].req)) && CleanCommit(s, w) && c in s.readings
    ensures ReadAgrees(Next(s, Commit(w)), c)
  {
    var r := s.readings[c];
    assert ReadAgrees(s, c);
    if r.owner == OwnerOf(s.writings[w].req) {
      CommitOnOwner(s, w, r.offset, r.limit);
      assert Pending(s, r.owner, r.offset, r.limit);
    } else {
      CommitOnOthers(s, w, r.owner);
    }
  }

  lemma TouchedPageSpoils(s: World, w: nat, offset: nat, limit: nat)
    requires Consistent(s) && Enabled(s, Commit(w)) && NoTies(s.rows, s.writings[w].req)
    requires ValidOwner(OwnerOf(s.writings[w].req))
    requires Exposed(s, OwnerOf(s.writings[w].req), offset, limit) && Touches(s.rows, s.writings[w].req, offset, limit)
    ensures !Consistent(Next(s, Commit(w)))
  {
    var req := s.writings[w].req;
    var s' := Next(s, Commit(w));
    CommitOnOwner(s, w, offset, limit);
    assert s'.readings == s.readings && s'.store == s.store;
    hide Touches, TableAfter, NoTies, Applies, ReadAgrees, ListAgrees, Enabled, Next;
    if Pending(s, OwnerOf(req), offset, limit) {
      var c :| c in s.readings && s.readings[c].owner == OwnerOf(req) && s.readings[c].offset == offset
               && s.readings[c].limit == limit;
      assert !ReadAgrees(s', c);
    } else {
      assert !AgreesFor(s'.rows, s'.store, OwnerOf(req)) by {
        assert !ListAgrees(s'.rows, s'.store, OwnerOf(req), offset, limit);
      }
    }
  }

  /**
   A commit leaves cache and table in agreement exactly when none of the owner's pages that are in
   the cache, or about to go there, is one that the write touches.
   */
  lemma CommitKeepsIff(s: World, w: nat)
    requires Consistent(s) && Enabled(s, Commit(w)) && NoTies(s.rows, s.writings[w].req)
    requires ValidOwner(OwnerOf(s.writings[w].req))
    ensures Consistent(Next(s, Commit(w))) <==> CleanCommit(s, w)
  {
    if CleanCommit(s, w) {
      CleanCommitKeeps(s, w);
    } else {
      var req := s.writings[w].req;
      var offset: nat, limit: nat :| Exposed(s, OwnerOf(req), offset, limit) && Touches(s.rows, req, offset, limit);
      hide *;
      TouchedPageSpoils(s, w, offset, limit);
    }
  }

  // ---------- runs ----------

  ghost predicate Legal(s: World, es: seq<Event>)
    decreases |es|
  {
    es == [] || (Enabled(s, es[0]) && Legal(Next(s, es[0]), es[1..]))
  }

  ghost function Exec(s: World, es: seq<Event>): World
    requires Legal(s, es)
    decreases |es|
  {
    if es == [] then s else Exec(Next(s, es[0]), es[1..])
  }

  /** The owners of writes under way are proper. */
  ghost predicate ValidWrites(s: World) {
    forall w | w in s.writings :: ValidOwner(OwnerOf(s.writings[w].req))
  }

  /** No ties at any commit of the run. */
  ghost predicate TieFree(s: World, es: seq<Event>)
    requires Legal(s, es)
    decreases |es|
  {
    es != [] ==> (es[0].Commit? ==> NoTies(s.rows, s.writings[es[0].w].req)) && TieFree(Next(s, es[0]), es[1..])
  }

  ghost predicate AlwaysConsistent(s: World, es: seq<Event>)
    requires Legal(s, es)
    decreases |es|
  {
    Consistent(s) && (es != [] ==> AlwaysConsistent(Next(s, es[0]), es[1..]))
  }

  ghost predicate CleanCommits(s: World, es: seq<Event>)
    requires Legal(s, es)
    decreases |es|
  {
    es != [] ==> (es[0].Commit? ==> CleanCommit(s, es[0].w)) && CleanCommits(Next(s, es[0]), es[1..])
  }

  /**
   Over every run of overlapping requests, of any number of owners: the cache agrees with the table
   at every moment exactly when every commit is clean.
   */
  lemma {:induction false} RunConsistentIff(s: World, es: seq<Event>)
    requires Consistent(s) && ValidWrites(s) && Legal(s, es) && TieFree(s, es)
    ensures AlwaysConsistent(s, es) <==> CleanCommits(s, es)
    decreases |es|
  {
    if es != [] {
      var s' := Next(s, es[0]);
      WritesStayValid(s, es[0]);
      if es[0].Commit? {
        CommitKeepsIff(s, es[0].w);
      } else {
        OthersKeep(s, es[0]);
      }
      hide Next, Enabled, Consistent, CleanCommit, NoTies;
      if Consistent(s') {
        RunConsistentIff(s', es[1..]);
      } else {
        assert AlwaysConsistent(s', es[1..]) ==> Consistent(s');
      }
    }
  }

  lemma WritesStayValid(s: World, e: Event)
    requires ValidWrites(s) && Enabled(s, e)
    ensures ValidWrites(Next(s, e))
  {
  }

  lemma InitConsistent()
    ensures Consistent(Init()) && ValidWrites(Init())
  {
    forall o | ValidOwner(o)
      ensures AgreesFor(Init().rows, Init().store, o)
    {
    }
  }

  /** So from the empty service on, the cache always agrees with the table exactly when all commits are clean. */
  lemma ServiceConsistentIff(es: seq<Event>)
    requires Legal(Init(), es) && TieFree(Init(), es)
    ensures AlwaysConsistent(Init(), es) <==> CleanCommits(Init(), es)
  {
    InitConsistent();
    RunConsistentIff(Init(), es);
  }

  // ---------- what the condition means in terms of events ----------

  predicate Removes(e: Event, key: string) {
    (e.Expire? && e.key == key) || (e.Clear? && key in e.scan)
  }

  /** Some event stores a page under this key and no later one takes it away. */
  ghost predicate StoredIn(es: seq<Event>, key: string) {
    exists k: nat :: k < |es| && StoredAt(es, k, key)
  }

  ghost predicate StoredAt(es: seq<Event>, k: nat, key: string)
    requires k < |es|
  {
    es[k].Put? && KeyFor(es[k].reading) == key && forall j | k < j < |es| :: !Removes(es[j], key)
  }

  lemma StoredInTail(es: seq<Event>, key: string)
    requires es != []
    ensures StoredIn(es, key) <==> StoredIn(es[1..], key) || StoredAt(es, 0, key)
  {
    var rest := es[1..];
    if StoredIn(es, key) {
      var k: nat :| k < |es| && StoredAt(es, k, key);
      if k > 0 {
        assert forall j | k - 1 < j < |rest| :: rest[j] == es[j + 1];
        assert StoredAt(rest, k - 1, key);
      }
    }
    if StoredIn(rest, key) {
      var k: nat :| k < |rest| && StoredAt(rest, k, key);
      assert forall j | k + 1 < j < |es| :: es[j] == rest[j - 1];
      assert StoredAt(es, k + 1, key);
    }
  }

  ghost predicate RemovedIn(es: seq<Event>, key: string) {
    exists j :: 0 <= j < |es| && Removes(es[j], key)
  }

  lemma RemovedInTail(es: seq<Event>, key: string)
    requires es != []
    ensures RemovedIn(es, key) <==> Removes(es[0], key) || RemovedIn(es[1..], key)
    ensures StoredAt(es, 0, key) <==> es[0].Put? && KeyFor(es[0].reading) == key && !RemovedIn(es[1..], key)
  {
    var rest := es[1..];
    assert forall j | 0 <= j < |rest| :: rest[j] == es[j + 1];
    assert forall j | 1 <= j < |es| :: es[j] == rest[j - 1];
  }

  /** A key is there at the end iff some event stored it for good, or it was there and nothing took it away. */
  lemma {:induction false} StoredIff(s: World, es: seq<Event>, key: string)
    requires Legal(s, es)
    ensures key in Exec(s, es).store <==> StoredIn(es, key) || (key in s.store && !RemovedIn(es, key))
    decreases |es|
  {
    if es != [] {
      StoredIff(Next(s, es[0]), es[1..], key);
      StoredInTail(es, key);
      RemovedInTail(es, key);
      StoreStep(s, es[0], key);
      hide Next, Enabled, StoredIn, RemovedIn, StoredAt;
    }
  }

  lemma StoreStep(s: World, e: Event, key: string)
    requires Enabled(s, e)
    ensures key in Next(s, e).store <==> (e.Put? && KeyFor(e.reading) == key) || (key in s.store && !Removes(e, key))
  {
  }

  /** A page of this list that the write touches is stored between clearing and commit, or still to be stored. */
  ghost predicate Overlapped(s: World, req: Request, es: seq<Event>, offset: nat, limit: nat)
    requires UniqueIds(s.rows)
  {
    && Touches(s.rows, req, offset, limit)
    && (StoredIn(es, ItemKey(OwnerOf(req), offset, limit)) || Pending(s, OwnerOf(req), offset, limit))
  }

  /**
   The exact condition for one write. `es` is what happens between its clearing and its commit: the
   commit leaves a wrong page behind, in the cache or on its way there, exactly when a list of the
   owner that the write touches was stored in between, or was fetched before the commit and is yet
   to be stored.
   */
  lemma OverlapStaleIff(s0: World, w: nat, scan: seq<string>, es: seq<Event>)
    requires ValidWrites(s0) && Enabled(s0, Clear(w, scan))
    requires Legal(Next(s0, Clear(w, scan)), es)
    requires var s := Exec(Next(s0, Clear(w, scan)), es);
             && Consistent(s) && Enabled(s, Commit(w)) && s.writings[w].req == s0.writings[w].req
             && NoTies(s.rows, s.writings[w].req)
    ensures var s := Exec(Next(s0, Clear(w, scan)), es);
            !Consistent(Next(s, Commit(w))) <==>
            exists offset: nat, limit: nat :: Overlapped(s, s.writings[w].req, es, offset, limit)
  {
    var s1 := Next(s0, Clear(w, scan));
    var s := Exec(s1, es);
    var req := s.writings[w].req;
    CommitKeepsIff(s, w);
    forall offset: nat, limit: nat
      ensures Exposed(s, OwnerOf(req), offset, limit) && Touches(s.rows, req, offset, limit)
         <==> Overlapped(s, req, es, offset, limit)
    {
      var key := ItemKey(OwnerOf(req), offset, limit);
      PatternMatchesOwnKeys(OwnerOf(req), OwnerOf(req), offset, limit);
      assert key !in s1.store;
      StoredIff(s1, es, key);
      hide Touches, Next, Enabled, StoredIn;
    }
    hide Touches, Next, Enabled, Exposed, Overlapped, Consistent;
  }

  // ---------- it happens ----------

  lemma RunCons(s: World, e: Event, es: seq<Event>)
    requires Enabled(s, e) && Legal(Next(s, e), es)
    ensures Legal(s, [e] + es)
    ensures Exec(s, [e] + es) == Exec(Next(s, e), es)
  {
    assert ([e] + es)[1..] == es;
  }

  /** A list request runs entirely between the clearing and the commit of a write. */
  ghost function InBetween(w: nat, req: Request, scan: seq<string>, c: nat, r: Reading): seq<Event> {
    [Flush(w, req)] + ([Clear(w, scan)] + ([Fetch(c, r)] + ([Put(c, r)] + ([Commit(w)] + []))))
  }

  /** A list that is not, or no more, in the cache is fetched before a write and stored after it. */
  ghost function Around(w: nat, req: Request, scan: seq<string>, c: nat, r: Reading): seq<Event> {
    [Expire(KeyFor(r))] + ([Fetch(c, r)] + ([Flush(w, req)] + ([Clear(w, scan)] + ([Commit(w)] + ([Put(c, r)] + [])))))
  }

  /** What the runs below start from: a consistent world, a write and a list that the write touches. */
  ghost predicate Ready(s: World, w: nat, req: Request, scan: seq<string>, c: nat, r: Reading) {
    && Consistent(s) && w !in s.writings && c !in s.readings
    && ValidOwner(r.owner) && OwnerOf(req) == r.owner && Applies(s.rows, req) && NoTies(s.rows, req)
    && IsScan(s.store, ItemPattern(r.owner), scan)
    && IsItemPage(s.rows, r.owner, r.offset, r.limit, r.page)
    && Touches(s.rows, req, r.offset, r.limit)
  }

  /**
   From every consistent world, with every insertion, update or deletion and every list that it
   touches, both runs are possible and end with a wrong page in the cache.
   */
  lemma StaleRuns(s: World, w: nat, req: Request, scan: seq<string>, c: nat, r: Reading)
    requires Ready(s, w, req, scan, c, r)
    ensures Legal(s, InBetween(w, req, scan, c, r)) && LeavesStale(Exec(s, InBetween(w, req, scan, c, r)), r)
    ensures Legal(s, Around(w, req, scan, c, r)) && LeavesStale(Exec(s, Around(w, req, scan, c, r)), r)
  {
    PageStaysIff(s.rows, req, r.offset, r.limit, r.page);
    RunInBetween(s, w, req, scan, c, r);
    RunAround(s, w, req, scan, c, r);
  }

  /** The page is in the cache and is not a page of the table. */
  ghost predicate LeavesStale(s: World, r: Reading) {
    && KeyFor(r) in s.store && s.store[KeyFor(r)] == PageValue(r.page)
    && !IsItemPage(s.rows, r.owner, r.offset, r.limit, r.page)
  }

  lemma RunInBetween(s: World, w: nat, req: Request, scan: seq<string>, c: nat, r: Reading)
    requires Ready(s, w, req, scan, c, r)
    requires !IsItemPage(TableAfter(s.rows, req), r.owner, r.offset, r.limit, r.page)
    ensures Legal(s, InBetween(w, req, scan, c, r)) && LeavesStale(Exec(s, InBetween(w, req, scan, c, r)), r)
  {
    assert UniqueIds(s.rows);
    hide IsItemPage, Touches, TableAfter, NoTies, Applies, IsScan, Consistent, LeavesStale;
    var s1 := Next(s, Flush(w, req));
    var s2 := Next(s1, Clear(w, scan));
    ListedBeforeCommit(s2, w, req, c, r);
    RunCons(s1, Clear(w, scan), [Fetch(c, r)] + ([Put(c, r)] + ([Commit(w)] + [])));
    RunCons(s, Flush(w, req), [Clear(w, scan)] + ([Fetch(c, r)] + ([Put(c, r)] + ([Commit(w)] + []))));
  }

  lemma ListedBeforeCommit(s: World, w: nat, req: Request, c: nat, r: Reading)
    requires w in s.writings && s.writings[w] == Writing(req, true) && c !in s.readings && UniqueIds(s.rows)
    requires ValidOwner(r.owner) && Applies(s.rows, req)
    requires IsItemPage(s.rows, r.owner, r.offset, r.limit, r.page)
    requires !IsItemPage(TableAfter(s.rows, req), r.owner, r.offset, r.limit, r.page)
    ensures var es := [Fetch(c, r)] + ([Put(c, r)] + ([Commit(w)] + []));
            Legal(s, es) && LeavesStale(Exec(s, es), r)
  {
    hide IsItemPage, TableAfter, Applies;
    var s1 := Next(s, Fetch(c, r));
    var s2 := Next(s1, Put(c, r));
    RunCons(s2, Commit(w), []);
    RunCons(s1, Put(c, r), [Commit(w)] + []);
    RunCons(s, Fetch(c, r), [Put(c, r)] + ([Commit(w)] + []));
  }

  lemma RunAround(s: World, w: nat, req: Request, scan: seq<string>, c: nat, r: Reading)
    requires Ready(s, w, req, scan, c, r)
    requires !IsItemPage(TableAfter(s.rows, req), r.owner, r.offset, r.limit, r.page)
    ensures Legal(s, Around(w, req, scan, c, r)) && LeavesStale(Exec(s, Around(w, req, scan, c, r)), r)
  {
    assert UniqueIds(s.rows);
    var s1 := Next(s, Expire(KeyFor(r)));
    assert IsScan(s1.store, ItemPattern(r.owner), scan);
    hide IsItemPage, Touches, TableAfter, NoTies, Applies, IsScan, Consistent, LeavesStale;
    var s2 := Next(s1, Fetch(c, r));
    StoredAfterCommit(s2, w, req, scan, c, r);
    RunCons(s1, Fetch(c, r), [Flush(w, req)] + ([Clear(w, scan)] + ([Commit(w)] + ([Put(c, r)] + []))));
    RunCons(s, Expire(KeyFor(r)),
            [Fetch(c, r)] + ([Flush(w, req)] + ([Clear(w, scan)] + ([Commit(w)] + ([Put(c, r)] + [])))));
  }

  lemma StoredAfterCommit(s: World, w: nat, req: Request, scan: seq<string>, c: nat, r: Reading)
    requires w !in s.writings && c in s.readings && s.readings[c] == r && UniqueIds(s.rows)
    requires ValidOwner(r.owner) && OwnerOf(req) == r.owner && Applies(s.rows, req)
    requires IsScan(s.store, ItemPattern(r.owner), scan)
    requires !IsItemPage(TableAfter(s.rows, req), r.owner, r.offset, r.limit, r.page)
    ensures var es := [Flush(w, req)] + ([Clear(w, scan)] + ([Commit(w)] + ([Put(c, r)] + [])));
            Legal(s, es) && LeavesStale(Exec(s, es), r)
  {
    hide IsItemPage, TableAfter, Applies, IsScan;
    var s1 := Next(s, Flush(w, req));
    var s2 := Next(s1, Clear(w, scan));
    var s3 := Next(s2, Commit(w));
    RunCons(s3, Put(c, r), []);
    RunCons(s2, Commit(w), [Put(c, r)] + []);
    RunCons(s1, Clear(w, scan), [Commit(w)] + ([Put(c, r)] + []));
    RunCons(s, Flush(w, req), [Clear(w, scan)] + ([Commit(w)] + ([Put(c, r)] + [])));
  }
}
