/**
 `cached` and `invalidate` as one request runs them, on the keys of the cache database.
 LeaseCache covers what happens when several requests run `cached` at once.
 */
module RedisCache {
  import opened Common
  import opened Keyset
  import opened CacheKeys
  import LeaseCache

  datatype ItemData = ItemData(title: string, description: Option<string>, owner: string, updatedAt: int)
  type Item = Row<ItemData>
  type ItemPage = seq<Item>

  datatype Value = Mark | PageValue(page: ItemPage)
  type Store = map<string, Value>
  type Reply = LeaseCache.Reply

  const BATCH: nat := 1000

  /** How Redis answers the commands of one call of `cached`. */
  datatype Faults = Faults(getFails: bool, lock: Reply, put: Reply, unlock: Reply, pollFails: seq<bool>)

  /** Where `invalidate` meets an exception, if at all. */
  datatype Trouble = NoTrouble | ScanFails | BatchFails(batch: nat, carriedOut: bool)

  function KeysOf(s: seq<string>): set<string> {
    set k | k in s
  }

  ghost predicate SomePollWorks(f: Faults) {
    exists i :: 0 <= i < |f.pollFails| && !f.pollFails[i]
  }

  /** What a call of `cached` leaves behind and returns; None stands for an exception of the fetch. */
  ghost predicate CachedEffect(before: Store, key: string, fetched: Option<ItemPage>, f: Faults,
                               after: Store, result: Option<ItemPage>) {
    var lock := LockKey(key);
    var free := lock !in before;
    if key in before && before[key].PageValue? && !f.getFails then
      // served from the cache, Redis untouched
      after == before && result == Some(before[key].page)
    else if free && f.lock.Answered? then
      // the call computed: it returns what it fetched, and has stored that if Redis took it
      && result == fetched
      && (forall k | k != key && k != lock :: (k in after <==> k in before) && (k in after ==> after[k] == before[k]))
      && (lock in after <==> !LeaseCache.Took(f.unlock))
      && (if fetched.Some? && LeaseCache.Took(f.put) then key in after && after[key] == PageValue(fetched.value)
          else (key in after <==> key in before) && (key in after ==> after[key] == before[key]))
    else
      // the call waited: it never writes a value
      && after == (if free && f.lock.Failed? && f.lock.carriedOut then before[lock := Mark] else before)
      && result == (if key in before && before[key].PageValue? && SomePollWorks(f) then Some(before[key].page)
                    else fetched)
  }

  /** The number of scanned keys that were certainly unlinked. */
  function Reach(n: nat, trouble: Trouble): (r: nat)
    ensures r <= n
  {
    match trouble
    case NoTrouble => n
    case ScanFails => 0
    case BatchFails(b, carriedOut) => Min(n, BATCH * (if carriedOut then b + 1 else b))
  }

  /** The number of scanned keys whose unlinking was counted. */
  function Counted(n: nat, trouble: Trouble): (r: nat)
    ensures r <= n
  {
    match trouble
    case NoTrouble => n
    case ScanFails => 0
    case BatchFails(b, _) => Min(n, BATCH * b)
  }

  /** Batches are of a thousand keys: what a failing one leaves done and counted. */
  lemma BatchesOfThousand(n: nat, batch: nat)
    ensures Reach(n, BatchFails(batch, false)) == Counted(n, BatchFails(batch, false))
         == if n < 1000 * batch then n else 1000 * batch
    ensures Counted(n, BatchFails(batch, true)) == if n < 1000 * batch then n else 1000 * batch
    ensures Reach(n, BatchFails(batch, true)) == if n < 1000 * batch + 1000 then n else 1000 * batch + 1000
  {
  }

  function Min(a: nat, b: nat): nat {
    if a < b then a else b
  }

  function Trues(results: seq<bool>): nat {
    if results == [] then 0 else Trues(results[..|results| - 1]) + (if results[|results| - 1] then 1 else 0)
  }

  /** The store without the given keys. */
  function Unlinked(store: Store, keys: seq<string>): Store {
    store - KeysOf(keys)
  }

  /** How many of the given keys the store held, each counted once. */
  function Held(store: Store, keys: seq<string>): nat {
    |store.Keys * KeysOf(keys)|
  }

  lemma UnlinkNone(store: Store)
    ensures Unlinked(store, []) == store && Held(store, []) == 0
  {
    assert store.Keys * KeysOf([]) == {};
  }

  /** Unlinking a stretch of keys and then another removes and counts what doing both at once would. */
  lemma UnlinkMore(store: Store, a: seq<string>, b: seq<string>)
    ensures Unlinked(store, a + b) == Unlinked(Unlinked(store, a), b)
    ensures Held(store, a + b) == Held(store, a) + Held(Unlinked(store, a), b)
  {
    hide KeysOf;
    KeysJoin(a, b);
    MinusTwice(store, KeysOf(a), KeysOf(b));
    SplitSize(store.Keys, KeysOf(a), KeysOf(b));
  }

  lemma MinusTwice(store: Store, a: set<string>, b: set<string>)
    ensures store - (a + b) == (store - a) - b
    ensures (store - a).Keys == store.Keys - a
  {
  }

  lemma KeysJoin(a: seq<string>, b: seq<string>)
    ensures KeysOf(a + b) == KeysOf(a) + KeysOf(b)
  {
  }

  lemma SplitSize(keys: set<string>, a: set<string>, b: set<string>)
    ensures |keys * (a + b)| == |keys * a| + |(keys - a) * b|
  {
    assert keys * (a + b) == (keys * a) + ((keys - a) * b);
    assert (keys * a) !! ((keys - a) * b);
  }

  lemma UnlinkOne(store: Store, k: string)
    ensures Unlinked(store, [k]) == store - {k}
    ensures Held(store, [k]) == if k in store then 1 else 0
  {
    assert KeysOf([k]) == {k};
    assert store.Keys * {k} == if k in store then {k} else {};
  }

  class Redis {
    var store: Store

    constructor ()
      ensures store == map[]
    {
      store := map[];
    }

    method Cached(key: string, fetched: Option<ItemPage>, f: Faults) returns (result: Option<ItemPage>)
      requires |f.pollFails| == LeaseCache.POLLS
      requires key in store ==> store[key].PageValue?
      modifies this
      ensures CachedEffect(old(store), key, fetched, f, store, result)
    {
      if !f.getFails {
        if key in store {
          return Some(store[key].page);
        }
      }
      var lock := LockKey(key);
      assert lock != key by {
        assert |lock| == |key| + 5;
      }
      var free := lock !in store;
      if free && LeaseCache.Took(f.lock) {
        store := store[lock := Mark];
      }
      var acquired := free && f.lock.Answered?;
      if acquired {
        if fetched.Some? && LeaseCache.Took(f.put) {
          store := store[key := PageValue(fetched.value)];
        }
        if LeaseCache.Took(f.unlock) {
          store := store - {lock};
        }
        return fetched;
      }
      for i := 0 to LeaseCache.POLLS
        invariant forall j | 0 <= j < i :: f.pollFails[j] || key !in store
      {
        if !f.pollFails[i] {
          if key in store {
            return Some(store[key].page);
          }
        }
      }
      return fetched;
    }

    /** One pipeline of UNLINK commands; each answers whether the key was there. */
    method Pipeline(batch: seq<string>) returns (results: seq<bool>)
      modifies this
      ensures store == Unlinked(old(store), batch)
      ensures Trues(results) == Held(old(store), batch)
    {
      hide Unlinked, Held;
      results := [];
      UnlinkNone(store);
      assert batch[..0] == [];
      for i := 0 to |batch|
        invariant store == Unlinked(old(store), batch[..i])
        invariant Trues(results) == Held(old(store), batch[..i])
      {
        UnlinkMore(old(store), batch[..i], [batch[i]]);
        UnlinkOne(store, batch[i]);
        assert batch[..i + 1] == batch[..i] + [batch[i]];
        var there := batch[i] in store;
        assert (results + [there])[..|results|] == results;
        results := results + [there];
        store := store - {batch[i]};
      }
      assert batch[..|batch|] == batch;
    }

    /** `scan` is what scan_iter yields; a key may come up more than once. */
    method Invalidate(scan: seq<string>, trouble: Trouble) returns (deleted: nat)
      modifies this
      ensures store == Unlinked(old(store), scan[..Reach(|scan|, trouble)])
      ensures deleted == Held(old(store), scan[..Counted(|scan|, trouble)])
    {
      hide Unlinked, Held;
      deleted := 0;
      UnlinkNone(store);
      assert scan[..0] == [];
      if trouble.ScanFails? {
        return;
      }
      var i, n := 0, 0;
      while i < |scan|
        invariant 0 <= i <= |scan| && i == Min(|scan|, BATCH * n)
        invariant trouble.BatchFails? ==> n <= trouble.batch
        invariant store == Unlinked(old(store), scan[..i])
        invariant deleted == Held(old(store), scan[..i])
      {
        var next := Min(|scan|, i + BATCH);
        var batch := scan[i..next];
        assert scan[..next] == scan[..i] + batch;
        UnlinkMore(old(store), scan[..i], batch);
        if trouble.BatchFails? && trouble.batch == n {
          if trouble.carriedOut {
            var _ := Pipeline(batch);
          }
          return;
        }
        var results := Pipeline(batch);
        deleted := deleted + Trues(results);
        i, n := next, n + 1;
      }
    }
  }

  /** A complete invalidation leaves no scanned key, touches no other, and counts the distinct keys removed. */
  lemma InvalidationIsExact(before: Store, scan: seq<string>, k: string)
    ensures k in scan ==> k !in Unlinked(before, scan)
    ensures k !in scan ==> (k in Unlinked(before, scan) <==> k in before)
    ensures k !in scan && k in before ==> Unlinked(before, scan)[k] == before[k]
    ensures Held(before, scan) == |before| - |Unlinked(before, scan)|
  {
    var after := Unlinked(before, scan);
    assert after.Keys == before.Keys - KeysOf(scan);
    assert before.Keys == after.Keys + before.Keys * KeysOf(scan);
    assert |before.Keys| == |before| && |after.Keys| == |after|;
  }
}
