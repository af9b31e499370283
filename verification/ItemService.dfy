/**
 ItemService over its table and the cache: each request is one atomic transaction. The service
 with the cache is shown to answer like the service without one.
 */
module ItemService {
  import opened Common
  import opened Keyset
  import opened Traversal
  import opened CacheKeys
  import opened RedisCache

  type Table = set<Item>

  datatype Error = NotFound

  /** ItemUpdate: the fields that were set in the request. */
  datatype Patch = Patch(title: Option<string>, description: Option<Option<string>>)

  // ---------- the repository ----------

  function OwnedBy(rows: Table, owner: string): (e: Table)
    ensures UniqueIds(rows) ==> UniqueIds(e)
  {
    set r | r in rows && r.data.owner == owner
  }

  /** A page that get_list may return: rows with the same created_at may come in either order. */
  ghost predicate IsItemPage(rows: Table, owner: string, offset: nat, limit: nat, page: ItemPage) {
    exists listing :: IsListing(listing, OwnedBy(rows, owner)) && page == Slice(listing, offset, limit)
  }

  /** get_by_id: the owner's item with that id. */
  function Find(rows: Table, id: nat, owner: string): (r: Option<Item>)
    requires UniqueIds(rows)
    ensures r.Some? ==> r.value in rows && r.value.id == id && r.value.data.owner == owner
    ensures r.None? ==> forall x | x in rows :: !(x.id == id && x.data.owner == owner)
  {
    if x :| x in rows && x.id == id && x.data.owner == owner then Some(x) else None
  }

  /** The setattr loop over the fields that were set; the trigger renews updated_at. */
  function Patched(item: Item, patch: Patch, now: int): Item {
    item.(data := item.data.(
      title := if patch.title.Some? then patch.title.value else item.data.title,
      description := if patch.description.Some? then patch.description.value else item.data.description,
      updatedAt := now))
  }

  // ---------- the service without a cache ----------

  datatype Request =
    | GetItem(id: nat, owner: string)
    | ListItems(owner: string, offset: nat, limit: nat)
    | CreateItem(id: nat, title: string, description: Option<string>, owner: string, now: int)
    | UpdateItem(id: nat, owner: string, patch: Patch, now: int)
    | DeleteItem(id: nat, owner: string)

  datatype Response = OneItem(item: Item) | Items(page: ItemPage) | Deleted | Failed(error: Error)

  function NewItem(id: nat, title: string, description: Option<string>, owner: string, now: int): Item {
    Row(now, id, ItemData(title, description, owner, now))
  }

  predicate IdFree(rows: Table, id: nat) {
    forall r | r in rows :: r.id != id
  }

  /** The table after a request; uuid4 never repeats an id. */
  function TableAfter(rows: Table, req: Request): (rows': Table)
    requires UniqueIds(rows)
    requires req.CreateItem? ==> IdFree(rows, req.id)
    ensures UniqueIds(rows')
  {
    match req
    case GetItem(_, _) => rows
    case ListItems(_, _, _) => rows
    case CreateItem(id, title, description, owner, now) => rows + {NewItem(id, title, description, owner, now)}
    case UpdateItem(id, owner, patch, now) =>
      var found := Find(rows, id, owner);
      if found.None? then rows else rows - {found.value} + {Patched(found.value, patch, now)}
    case DeleteItem(id, owner) =>
      var found := Find(rows, id, owner);
      if found.None? then rows else rows - {found.value}
  }

  /** The answers the service without a cache may give. */
  ghost predicate Allowed(rows: Table, req: Request, resp: Response)
    requires UniqueIds(rows)
  {
    match req
    case GetItem(id, owner) =>
      var found := Find(rows, id, owner);
      resp == if found.None? then Failed(NotFound) else OneItem(found.value)
    case ListItems(owner, offset, limit) => resp.Items? && IsItemPage(rows, owner, offset, limit, resp.page)
    case CreateItem(id, title, description, owner, now) => resp == OneItem(NewItem(id, title, description, owner, now))
    case UpdateItem(id, owner, patch, now) =>
      var found := Find(rows, id, owner);
      resp == if found.None? then Failed(NotFound) else OneItem(Patched(found.value, patch, now))
    case DeleteItem(id, owner) =>
      resp == if Find(rows, id, owner).None? then Failed(NotFound) else Deleted
  }

  /** A created item holds what was asked for, is found under its id, and is all that is new. */
  lemma CreatedItemHolds(rows: Table, id: nat, title: string, description: Option<string>, owner: string, now: int,
                         resp: Response)
    requires UniqueIds(rows) && IdFree(rows, id)
    requires Allowed(rows, CreateItem(id, title, description, owner, now), resp)
    ensures resp.OneItem? && resp.item.id == id && resp.item.createdAt == now
    ensures var data := resp.item.data;
            data.title == title && data.description == description && data.owner == owner && data.updatedAt == now
    ensures var after := TableAfter(rows, CreateItem(id, title, description, owner, now));
            Find(after, id, owner) == Some(resp.item) && forall x :: x in after <==> x in rows || x == resp.item
  {
  }

  /** An updated item holds the fields that were set and its old ones, is found so, and is all that changed. */
  lemma UpdatedItemHolds(rows: Table, id: nat, owner: string, patch: Patch, now: int, resp: Response)
    requires UniqueIds(rows)
    requires Allowed(rows, UpdateItem(id, owner, patch, now), resp) && resp.OneItem?
    ensures var found, after := Find(rows, id, owner), TableAfter(rows, UpdateItem(id, owner, patch, now));
            && found.Some? && Find(after, id, owner) == Some(resp.item)
            && (forall x :: x in after <==> (x in rows && x != found.value) || x == resp.item)
            && var was, item := found.value, resp.item;
            && item.id == was.id && item.createdAt == was.createdAt
            && item.data.owner == was.data.owner && item.data.updatedAt == now
            && item.data.title == (match patch.title case Some(t) => t case None => was.data.title)
            && item.data.description == (match patch.description case Some(d) => d case None => was.data.description)
  {
  }

  /** A deleted item is not found any more, and is all that is gone. */
  lemma DeletedItemIsGone(rows: Table, id: nat, owner: string)
    requires UniqueIds(rows) && Allowed(rows, DeleteItem(id, owner), Deleted)
    ensures var found, after := Find(rows, id, owner), TableAfter(rows, DeleteItem(id, owner));
            && found.Some? && Find(after, id, owner) == None
            && forall x :: x in after <==> x in rows && x != found.value
  {
  }

  function OwnerOf(req: Request): string {
    req.owner
  }

  // ---------- agreement of cache and table ----------

  /** What the cache holds for one list, if anything, is a page of the current table. */
  ghost predicate ListAgrees(rows: Table, store: Store, owner: string, offset: nat, limit: nat) {
    var key := ItemKey(owner, offset, limit);
    key in store ==> store[key].PageValue? && IsItemPage(rows, owner, offset, limit, store[key].page)
  }

  ghost predicate AgreesFor(rows: Table, store: Store, owner: string) {
    forall offset: nat, limit: nat :: ListAgrees(rows, store, owner, offset, limit)
  }

  ghost predicate Agrees(rows: Table, store: Store) {
    forall owner | ValidOwner(owner) :: AgreesFor(rows, store, owner)
  }

  /** What scan_iter(match=...) promises when nothing else runs: the matching keys, perhaps repeated. */
  ghost predicate IsScan(store: Store, pattern: string, scan: seq<string>) {
    && (forall k | k in scan :: Glob(pattern, k))
    && (forall k | k in store && Glob(pattern, k) :: k in scan)
  }

  /** The tables are the same for this owner. */
  ghost predicate SameFor(rows: Table, rows': Table, owner: string) {
    OwnedBy(rows, owner) == OwnedBy(rows', owner)
  }

  lemma WriteIsLocal(rows: Table, req: Request, owner: string)
    requires UniqueIds(rows)
    requires req.CreateItem? ==> IdFree(rows, req.id)
    requires owner != OwnerOf(req)
    ensures SameFor(rows, TableAfter(rows, req), owner)
  {
  }

  lemma AgreesTransfers(rows: Table, rows': Table, store: Store, store': Store, owner: string)
    requires AgreesFor(rows, store, owner) && SameFor(rows, rows', owner)
    requires forall k | k in store' :: k in store && store'[k] == store[k]
    ensures AgreesFor(rows', store', owner)
  {
    forall offset: nat, limit: nat
      ensures ListAgrees(rows', store', owner, offset, limit)
    {
      assert ListAgrees(rows, store, owner, offset, limit);
    }
  }

  /** Unlinking keys only takes keys away. */
  lemma UnlinkedShrinks(store: Store, keys: seq<string>)
    ensures forall k | k in Unlinked(store, keys) :: k in store && Unlinked(store, keys)[k] == store[k]
  {
  }

  /** After the owner's pattern has been cleared completely, no list of the owner is cached. */
  lemma ClearedOwner(rows: Table, store: Store, scan: seq<string>, owner: string)
    requires ValidOwner(owner) && IsScan(store, ItemPattern(owner), scan)
    ensures AgreesFor(rows, Unlinked(store, scan), owner)
  {
    forall offset: nat, limit: nat
      ensures ListAgrees(rows, Unlinked(store, scan), owner, offset, limit)
    {
      PatternMatchesOwnKeys(owner, owner, offset, limit);
      var key := ItemKey(owner, offset, limit);
      assert key in store ==> key in scan;
    }
  }

  /** A write followed by an invalidation keeps cache and table in agreement, for other owners whatever happens. */
  lemma WriteKeepsAgreement(rows: Table, store: Store, req: Request, scan: seq<string>, trouble: Trouble)
    requires UniqueIds(rows) && Agrees(rows, store)
    requires req.CreateItem? ==> IdFree(rows, req.id)
    requires ValidOwner(OwnerOf(req)) && IsScan(store, ItemPattern(OwnerOf(req)), scan)
    ensures var rows' := TableAfter(rows, req);
            var store' := Unlinked(store, scan[..Reach(|scan|, trouble)]);
            && (forall owner | ValidOwner(owner) && owner != OwnerOf(req) :: AgreesFor(rows', store', owner))
            && (Reach(|scan|, trouble) == |scan| ==> Agrees(rows', store'))
  {
    var rows' := TableAfter(rows, req);
    var store' := Unlinked(store, scan[..Reach(|scan|, trouble)]);
    UnlinkedShrinks(store, scan[..Reach(|scan|, trouble)]);
    hide Unlinked, TableAfter;
    forall owner | ValidOwner(owner) && owner != OwnerOf(req)
      ensures AgreesFor(rows', store', owner)
    {
      WriteIsLocal(rows, req, owner);
      AgreesTransfers(rows, rows', store, store', owner);
    }
    if Reach(|scan|, trouble) == |scan| {
      assert scan[..|scan|] == scan;
      ClearedOwner(rows', store, scan, OwnerOf(req));
    }
  }

  /** A list request keeps the agreement and is answered with a page of the current table. */
  lemma ListKeepsAgreement(rows: Table, store: Store, owner: string, offset: nat, limit: nat,
                           fetched: ItemPage, f: Faults, store': Store, result: Option<ItemPage>)
    requires Agrees(rows, store) && ValidOwner(owner)
    requires IsItemPage(rows, owner, offset, limit, fetched)
    requires CachedEffect(store, ItemKey(owner, offset, limit), Some(fetched), f, store', result)
    ensures Agrees(rows, store')
    ensures result.Some? && IsItemPage(rows, owner, offset, limit, result.value)
  {
    var key := ItemKey(owner, offset, limit);
    assert AgreesFor(rows, store, owner);
    assert ListAgrees(rows, store, owner, offset, limit);
    forall o | ValidOwner(o)
      ensures AgreesFor(rows, store', o)
    {
      forall a: nat, b: nat
        ensures ListAgrees(rows, store', o, a, b)
      {
        assert AgreesFor(rows, store, o);
        assert ListAgrees(rows, store, o, a, b);
        LocksAreApart(o, key, o, a, b);
        if ItemKey(o, a, b) == key {
          ItemKeyInjective(o, a, b, owner, offset, limit);
        }
      }
    }
  }

  /** Table and cache between two requests. */
  datatype Snapshot = Snapshot(rows: Table, store: Store)

  datatype Served = Served(req: Request, resp: Response)

  /** One request of the service with the cache, every invalidation succeeding. */
  ghost predicate Step(s: Snapshot, e: Served, s': Snapshot) {
    && UniqueIds(s.rows) && ValidOwner(OwnerOf(e.req))
    && (e.req.CreateItem? ==> IdFree(s.rows, e.req.id))
    && s'.rows == TableAfter(s.rows, e.req)
    && (if e.req.ListItems? then
          e.resp.Items? && exists fetched, f ::
            && IsItemPage(s.rows, e.req.owner, e.req.offset, e.req.limit, fetched)
            && CachedEffect(s.store, ItemKey(e.req.owner, e.req.offset, e.req.limit), Some(fetched), f,
                            s'.store, Some(e.resp.page))
        else
          && Allowed(s.rows, e.req, e.resp)
          && (if e.req.GetItem? || e.resp.Failed? then s'.store == s.store
              else exists scan :: IsScan(s.store, ItemPattern(e.req.owner), scan)
                                  && s'.store == Unlinked(s.store, scan)))
  }

  // ---------- the service with the cache ----------

  class Service {
    var rows: Table
    const redis: Redis

    constructor (redis: Redis)
      ensures rows == {} && this.redis == redis
    {
      rows := {};
      this.redis := redis;
    }

    ghost predicate Valid()
      reads this, redis
    {
      UniqueIds(rows) && Agrees(rows, redis.store)
    }

    ghost function Now(): Snapshot
      reads this, redis
    {
      Snapshot(rows, redis.store)
    }

    /** get_item reads the table only. */
    method GetItem(id: nat, owner: string) returns (resp: Response)
      requires Valid()
      ensures Allowed(rows, Request.GetItem(id, owner), resp)
    {
      var item := Find(rows, id, owner);
      if item.None? {
        return Failed(NotFound);
      }
      return OneItem(item.value);
    }

    /** list_items; `fetched` is what the database would answer if it were asked. */
    method ListItems(owner: string, offset: nat, limit: nat, fetched: ItemPage, f: Faults) returns (resp: Response)
      requires Valid() && ValidOwner(owner)
      requires IsItemPage(rows, owner, offset, limit, fetched)
      requires |f.pollFails| == LeaseCache.POLLS
      modifies redis
      ensures Valid()
      ensures Allowed(rows, Request.ListItems(owner, offset, limit), resp)
      ensures CachedEffect(old(redis.store), ItemKey(owner, offset, limit), Some(fetched), f, redis.store,
                           Some(resp.page))
      ensures Step(old(Now()), Served(Request.ListItems(owner, offset, limit), resp), Now())
    {
      assert AgreesFor(rows, redis.store, owner);
      assert ListAgrees(rows, redis.store, owner, offset, limit);
      var page := redis.Cached(ItemKey(owner, offset, limit), Some(fetched), f);
      ListKeepsAgreement(rows, old(redis.store), owner, offset, limit, fetched, f, redis.store, page);
      return Items(page.value);
    }

    method CreateItem(id: nat, title: string, description: Option<string>, owner: string, now: int,
                      scan: seq<string>, trouble: Trouble) returns (resp: Response)
      requires Valid() && ValidOwner(owner) && IdFree(rows, id)
      requires IsScan(redis.store, ItemPattern(owner), scan)
      modifies this, redis
      ensures var req := Request.CreateItem(id, title, description, owner, now);
              && rows == TableAfter(old(rows), req)
              && Allowed(old(rows), req, resp)
              && redis.store == Unlinked(old(redis.store), scan[..Reach(|scan|, trouble)])
      ensures forall o | ValidOwner(o) && o != owner :: AgreesFor(rows, redis.store, o)
      ensures Reach(|scan|, trouble) == |scan| ==>
                Valid() && Step(old(Now()), Served(Request.CreateItem(id, title, description, owner, now), resp), Now())
    {
      var req := Request.CreateItem(id, title, description, owner, now);
      WriteKeepsAgreement(rows, redis.store, req, scan, trouble);
      var item := Row(now, id, ItemData(title, description, owner, now));
      rows := rows + {item};
      var _ := redis.Invalidate(scan, trouble);
      assert scan[..|scan|] == scan;
      return OneItem(item);
    }

    method UpdateItem(id: nat, owner: string, patch: Patch, now: int, scan: seq<string>, trouble: Trouble)
      returns (resp: Response)
      requires Valid() && ValidOwner(owner)
      requires IsScan(redis.store, ItemPattern(owner), scan)
      modifies this, redis
      ensures var req := Request.UpdateItem(id, owner, patch, now);
              && rows == TableAfter(old(rows), req)
              && Allowed(old(rows), req, resp)
              && redis.store == (if resp.Failed? then old(redis.store)
                                 else Unlinked(old(redis.store), scan[..Reach(|scan|, trouble)]))
      ensures forall o | ValidOwner(o) && o != owner :: AgreesFor(rows, redis.store, o)
      ensures resp.Failed? || Reach(|scan|, trouble) == |scan| ==>
                Valid() && Step(old(Now()), Served(Request.UpdateItem(id, owner, patch, now), resp), Now())
    {
      var req := Request.UpdateItem(id, owner, patch, now);
      WriteKeepsAgreement(rows, redis.store, req, scan, trouble);
      var item := Find(rows, id, owner);
      if item.None? {
        return Failed(NotFound);
      }
      var data := item.value.data;
      if patch.title.Some? {
        data := data.(title := patch.title.value);
      }
      if patch.description.Some? {
        data := data.(description := patch.description.value);
      }
      var updated := item.value.(data := data.(updatedAt := now));
      rows := rows - {item.value} + {updated};
      var _ := redis.Invalidate(scan, trouble);
      assert scan[..|scan|] == scan;
      return OneItem(updated);
    }

    method DeleteItem(id: nat, owner: string, scan: seq<string>, trouble: Trouble) returns (resp: Response)
      requires Valid() && ValidOwner(owner)
      requires IsScan(redis.store, ItemPattern(owner), scan)
      modifies this, redis
      ensures var req := Request.DeleteItem(id, owner);
              && rows == TableAfter(old(rows), req)
              && Allowed(old(rows), req, resp)
              && redis.store == (if resp.Failed? then old(redis.store)
                                 else Unlinked(old(redis.store), scan[..Reach(|scan|, trouble)]))
      ensures forall o | ValidOwner(o) && o != owner :: AgreesFor(rows, redis.store, o)
      ensures resp.Failed? || Reach(|scan|, trouble) == |scan| ==>
                Valid() && Step(old(Now()), Served(Request.DeleteItem(id, owner), resp), Now())
    {
      var req := Request.DeleteItem(id, owner);
      WriteKeepsAgreement(rows, redis.store, req, scan, trouble);
      var item := Find(rows, id, owner);
      if item.None? {
        return Failed(NotFound);
      }
      rows := rows - {item.value};
      var _ := redis.Invalidate(scan, trouble);
      assert scan[..|scan|] == scan;
      return Deleted;
    }
  }

  // ---------- whole runs ----------

  /** Between requests any keys may expire or be evicted. */
  ghost predicate Evicted(store: Store, store': Store) {
    forall k | k in store' :: k in store && store'[k] == store[k]
  }

  /** states[i] is what request i finds; ends[i] what it leaves. */
  ghost predicate Execution(starts: seq<Snapshot>, served: seq<Served>, ends: seq<Snapshot>) {
    && |starts| == |served| == |ends|
    && (forall i: nat | i < |served| :: Serves(starts, served, ends, i))
  }

  /** Request i is served by one step, and the next one finds what it left, but for what expired. */
  ghost predicate Serves(starts: seq<Snapshot>, served: seq<Served>, ends: seq<Snapshot>, i: nat)
    requires i < |starts| == |served| == |ends|
  {
    && Step(starts[i], served[i], ends[i])
    && (i + 1 < |served| ==> Resumes(ends[i], starts[i + 1]))
  }

  ghost predicate Resumes(s: Snapshot, s': Snapshot) {
    s'.rows == s.rows && Evicted(s.store, s'.store)
  }

  lemma StepKeepsAgreement(s: Snapshot, e: Served, s': Snapshot)
    requires Step(s, e, s') && Agrees(s.rows, s.store)
    ensures Allowed(s.rows, e.req, e.resp)
    ensures UniqueIds(s'.rows) && Agrees(s'.rows, s'.store)
  {
    if e.req.ListItems? {
      var fetched, f :| IsItemPage(s.rows, e.req.owner, e.req.offset, e.req.limit, fetched)
        && CachedEffect(s.store, ItemKey(e.req.owner, e.req.offset, e.req.limit), Some(fetched), f,
                        s'.store, Some(e.resp.page));
      ListKeepsAgreement(s.rows, s.store, e.req.owner, e.req.offset, e.req.limit, fetched, f, s'.store,
                         Some(e.resp.page));
    } else if e.req.GetItem? || e.resp.Failed? {
      assert s'.rows == s.rows;
    } else {
      var scan :| IsScan(s.store, ItemPattern(e.req.owner), scan) && s'.store == Unlinked(s.store, scan);
      WriteKeepsAgreement(s.rows, s.store, e.req, scan, NoTrouble);
      assert scan[..|scan|] == scan;
    }
  }

  lemma EvictionKeepsAgreement(s: Snapshot, s': Snapshot)
    requires Agrees(s.rows, s.store) && Resumes(s, s')
    ensures Agrees(s'.rows, s'.store)
  {
    forall owner | ValidOwner(owner)
      ensures AgreesFor(s'.rows, s'.store, owner)
    {
      AgreesTransfers(s.rows, s'.rows, s.store, s'.store, owner);
    }
  }

  lemma {:induction false} ExecutionAgrees(starts: seq<Snapshot>, served: seq<Served>, ends: seq<Snapshot>, n: nat)
    requires Execution(starts, served, ends) && n < |served|
    requires Agrees(starts[0].rows, starts[0].store)
    ensures Agrees(starts[n].rows, starts[n].store)
  {
    if n > 0 {
      hide Step, Resumes;
      ExecutionAgrees(starts, served, ends, n - 1);
      assert Serves(starts, served, ends, n - 1);
      StepKeepsAgreement(starts[n - 1], served[n - 1], ends[n - 1]);
      EvictionKeepsAgreement(ends[n - 1], starts[n]);
    }
  }

  /** The table the service without a cache has after the first n requests. */
  ghost function UncachedTable(rows: Table, served: seq<Served>, n: nat): Table
    requires n <= |served| && UniqueIds(rows)
    ensures UniqueIds(UncachedTable(rows, served, n))
  {
    if n == 0 then rows
    else
      var before := UncachedTable(rows, served, n - 1);
      var req := served[n - 1].req;
      if req.CreateItem? && !IdFree(before, req.id) then before else TableAfter(before, req)
  }

  lemma {:induction false} SameTables(starts: seq<Snapshot>, served: seq<Served>, ends: seq<Snapshot>, n: nat)
    requires Execution(starts, served, ends) && n < |served|
    requires UniqueIds(starts[0].rows)
    ensures starts[n].rows == UncachedTable(starts[0].rows, served, n)
  {
    if n > 0 {
      SameTables(starts, served, ends, n - 1);
      assert Serves(starts, served, ends, n - 1);
      hide TableAfter, Agrees, Allowed, Find;
    }
  }

  /**
   Over any sequence of atomic requests, with keys expiring as they like, every answer is one that
   the service without a cache could have given to the same requests at that point.
   */
  lemma CacheIsTransparent(starts: seq<Snapshot>, served: seq<Served>, ends: seq<Snapshot>, n: nat)
    requires Execution(starts, served, ends) && n < |served|
    requires UniqueIds(starts[0].rows) && Agrees(starts[0].rows, starts[0].store)
    ensures Allowed(UncachedTable(starts[0].rows, served, n), served[n].req, served[n].resp)
  {
    ExecutionAgrees(starts, served, ends, n);
    SameTables(starts, served, ends, n);
    assert Serves(starts, served, ends, n);
    StepKeepsAgreement(starts[n], served[n], ends[n]);
  }
}
