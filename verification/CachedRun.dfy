/**
 One call of `cached` as RedisCache runs it, step by step, is a run of the state machine that
 LeaseCache allows for any number of calls: the two models of `cached` agree.
 */
module CachedRun {
  import opened Common
  import opened CacheKeys
  import opened LeaseCache
  import opened RedisCache

  /** How a page is stored: json.dumps, of which nothing is asked here. */
  type Code = ItemPage -> int

  function FetchEvents(c: nat, code: Code, fetched: Option<ItemPage>, rest: seq<Event>): seq<Event> {
    [BeginFetch(c)] + ([if fetched.Some? then EndFetch(c, code(fetched.value)) else FailFetch(c)] + rest)
  }

  /** The holder's part. */
  function ComputeEvents(c: nat, code: Code, fetched: Option<ItemPage>, f: Faults): seq<Event> {
    FetchEvents(c, code, fetched,
                if fetched.Some? then [Store(c, f.put)] + ([Delete(c, f.unlock)] + []) else [Delete(c, f.unlock)] + [])
  }

  /** Sleeping and polling until the value is found; `live` tells whether it is there. */
  function PollEvents(c: nat, fails: seq<bool>, live: bool, rest: seq<Event>): seq<Event> {
    if fails == [] then rest
    else
      [Tick(POLL_PAUSE as nat)] + ([Poll(c, fails[0])]
      + (if live && !fails[0] then [] else PollEvents(c, fails[1..], live, rest)))
  }

  /** The events of the whole call. */
  function CallEvents(c: nat, key: string, code: Code, store: RedisCache.Store, fetched: Option<ItemPage>,
                      f: Faults): seq<Event> {
    var live, free := key in store, LockKey(key) !in store;
    [Start(c, key)] + ([Get(c, f.getFails)]
    + (if live && !f.getFails then []
       else [SetNx(c, f.lock)]
            + (if free && f.lock.Answered? then ComputeEvents(c, code, fetched, f)
               else PollEvents(c, f.pollFails, live, FetchEvents(c, code, fetched, [])))))
  }

  /** The store holds what is live in the state, as far as this key and its lock go. */
  ghost predicate Reflects(s: State, store: RedisCache.Store, code: Code, key: string) {
    && (EntryLive(s, key) <==> key in store)
    && (key in store ==> store[key].PageValue? && s.entries[key].value.data == code(store[key].page))
    && (LockLive(s, key) <==> LockKey(key) in store)
  }

  /** What is live stays so for this long. */
  predicate Lasts(s: State, key: string, time: int) {
    && (EntryLive(s, key) ==> s.now + time < s.entries[key].expires)
    && (LockLive(s, key) ==> s.now + time < s.locks[key].expires)
  }

  /** The outcome in the state machine is the result of the method; None stands for the exception of the fetch. */
  ghost predicate Gives(s: State, c: nat, code: Code, result: Option<ItemPage>) {
    && c in s.calls && s.calls[c].pc.Done?
    && match s.calls[c].pc.outcome
       case Hit(value, _) => result.Some? && value.data == code(result.value)
       case Own(value) => result.Some? && value.data == code(result.value)
       case Raised => result == None
  }

  /** The events are possible, and afterwards the call has this result and Redis reflects this store. */
  ghost predicate Runs(ttl: string -> nat, s: State, es: seq<Event>, c: nat, key: string, code: Code,
                       store: RedisCache.Store, result: Option<ItemPage>) {
    && Legal(ttl, s, es)
    && Gives(Exec(ttl, s, es), c, code, result) && Reflects(Exec(ttl, s, es), store, code, key)
  }

  lemma RunsCons(ttl: string -> nat, s: State, e: Event, es: seq<Event>, c: nat, key: string, code: Code,
                 store: RedisCache.Store, result: Option<ItemPage>)
    requires Enabled(s, e) && Runs(ttl, Next(ttl, s, e), es, c, key, code, store, result)
    ensures Runs(ttl, s, [e] + es, c, key, code, store, result)
  {
    RunCons(ttl, s, e, es);
  }

  lemma StoredByReply(ttl: string -> nat, s: State, c: nat, key: string, code: Code, store: RedisCache.Store,
                      page: ItemPage, reply: LeaseCache.Reply)
    requires c in s.calls && s.calls[c].key == key && s.calls[c].pc.Storing? && s.calls[c].pc.value.data == code(page)
    requires Reflects(s, store, code, key) && ttl(key) > 0
    ensures var s' := Next(ttl, s, Store(c, reply));
            && Reflects(s', if Took(reply) then store[key := PageValue(page)] else store, code, key)
            && s'.calls[c] == Call(key, Releasing(s.calls[c].pc.acquiredAt, Own(s.calls[c].pc.value)))
  {
    LockIsOther(key);
  }

  lemma LockIsOther(key: string)
    ensures LockKey(key) != key
  {
    assert |LockKey(key)| == |key| + 5;
  }

  lemma ReleasedByReply(ttl: string -> nat, s: State, c: nat, key: string, code: Code, store: RedisCache.Store,
                        reply: LeaseCache.Reply, result: Option<ItemPage>)
    requires c in s.calls && s.calls[c].key == key && s.calls[c].pc.Releasing?
    requires Reflects(s, store, code, key)
    requires match s.calls[c].pc.outcome
             case Hit(_, _) => false
             case Own(value) => result.Some? && value.data == code(result.value)
             case Raised => result == None
    ensures Runs(ttl, s, [Delete(c, reply)] + [], c, key, code,
                 if Took(reply) then store - {LockKey(key)} else store, result)
  {
    LockIsOther(key);
    RunCons(ttl, s, Delete(c, reply), []);
  }

  /** The store after the holder's part. */
  function Computed(store: RedisCache.Store, key: string, fetched: Option<ItemPage>, f: Faults): RedisCache.Store {
    var put := if fetched.Some? && Took(f.put) then store[key := PageValue(fetched.value)] else store;
    if Took(f.unlock) then put - {LockKey(key)} else put
  }

  lemma ComputeRuns(ttl: string -> nat, s: State, c: nat, key: string, code: Code, store: RedisCache.Store,
                    fetched: Option<ItemPage>, f: Faults)
    requires c in s.calls && s.calls[c].key == key && s.calls[c].pc.Acquired?
    requires Reflects(s, store, code, key) && ttl(key) > 0
    ensures Runs(ttl, s, ComputeEvents(c, code, fetched, f), c, key, code, Computed(store, key, fetched, f), fetched)
  {
    var s1 := Next(ttl, s, BeginFetch(c));
    var after := Computed(store, key, fetched, f);
    if fetched.Some? {
      var s2 := Next(ttl, s1, EndFetch(c, code(fetched.value)));
      var s3 := Next(ttl, s2, Store(c, f.put));
      StoredByReply(ttl, s2, c, key, code, store, fetched.value, f.put);
      assert s3.calls[c].pc.outcome == Own(s2.calls[c].pc.value);
      ReleasedByReply(ttl, s3, c, key, code, if Took(f.put) then store[key := PageValue(fetched.value)] else store,
                      f.unlock, fetched);
      hide Runs, Next;
      RunsCons(ttl, s2, Store(c, f.put), [Delete(c, f.unlock)] + [], c, key, code, after, fetched);
      RunsCons(ttl, s1, EndFetch(c, code(fetched.value)), [Store(c, f.put)] + ([Delete(c, f.unlock)] + []),
               c, key, code, after, fetched);
      RunsCons(ttl, s, BeginFetch(c),
               [EndFetch(c, code(fetched.value))] + ([Store(c, f.put)] + ([Delete(c, f.unlock)] + [])),
               c, key, code, after, fetched);
    } else {
      var s2 := Next(ttl, s1, FailFetch(c));
      ReleasedByReply(ttl, s2, c, key, code, store, f.unlock, None);
      hide Runs, Next;
      RunsCons(ttl, s1, FailFetch(c), [Delete(c, f.unlock)] + [], c, key, code, after, fetched);
      RunsCons(ttl, s, BeginFetch(c), [FailFetch(c)] + ([Delete(c, f.unlock)] + []), c, key, code, after, fetched);
    }
  }

  /** The fetch of a call that gave up polling: nothing is written. */
  lemma FallbackRuns(ttl: string -> nat, s: State, c: nat, key: string, code: Code, store: RedisCache.Store,
                     fetched: Option<ItemPage>)
    requires c in s.calls && s.calls[c].key == key && s.calls[c].pc.FallingBack? && Reflects(s, store, code, key)
    ensures Runs(ttl, s, FetchEvents(c, code, fetched, []), c, key, code, store, fetched)
  {
    var s1 := Next(ttl, s, BeginFetch(c));
    var e := if fetched.Some? then EndFetch(c, code(fetched.value)) else FailFetch(c);
    RunCons(ttl, s1, e, []);
    RunCons(ttl, s, BeginFetch(c), [e] + []);
  }

  /** What the polling call returns. */
  function Polled(store: RedisCache.Store, key: string, fails: seq<bool>, fetched: Option<ItemPage>): Option<ItemPage> {
    if key in store && store[key].PageValue? && false in fails then Some(store[key].page) else fetched
  }

  lemma {:induction false} PollRuns(ttl: string -> nat, s: State, c: nat, key: string, code: Code,
                                    store: RedisCache.Store, fetched: Option<ItemPage>, fails: seq<bool>)
    requires c in s.calls && s.calls[c].key == key && Reflects(s, store, code, key)
    requires s.calls[c].pc == if fails == [] then FallingBack else Waiting(|fails|, s.now)
    requires Lasts(s, key, POLL_PAUSE * |fails|)
    ensures Runs(ttl, s, PollEvents(c, fails, key in store, FetchEvents(c, code, fetched, [])), c, key, code, store,
                 Polled(store, key, fails, fetched))
    decreases |fails|
  {
    if fails == [] {
      FallbackRuns(ttl, s, c, key, code, store, fetched);
    } else {
      var live := key in store;
      var s1 := Next(ttl, s, Tick(POLL_PAUSE as nat));
      var s2 := Next(ttl, s1, Poll(c, fails[0]));
      var result := Polled(store, key, fails, fetched);
      var rest := if live && !fails[0] then [] else PollEvents(c, fails[1..], live, FetchEvents(c, code, fetched, []));
      assert fails == [fails[0]] + fails[1..];
      assert POLL_PAUSE * |fails| == POLL_PAUSE + POLL_PAUSE * |fails[1..]|;
      if !(live && !fails[0]) {
        PollRuns(ttl, s2, c, key, code, store, fetched, fails[1..]);
        assert result == Polled(store, key, fails[1..], fetched);
      }
      assert Runs(ttl, s2, rest, c, key, code, store, result);
      hide Runs, Polled;
      RunsCons(ttl, s1, Poll(c, fails[0]), rest, c, key, code, store, result);
      RunsCons(ttl, s, Tick(POLL_PAUSE as nat), [Poll(c, fails[0])] + rest, c, key, code, store, result);
    }
  }

  lemma LockAsked(ttl: string -> nat, s: State, c: nat, key: string, code: Code, store: RedisCache.Store,
                  lock: LeaseCache.Reply)
    requires c in s.calls && s.calls[c] == Call(key, Locking)
    requires Reflects(s, store, code, key) && Lasts(s, key, POLL_PAUSE * POLLS)
    ensures var s' := Next(ttl, s, SetNx(c, lock));
            var free := LockKey(key) !in store;
            && c in s'.calls && s'.calls[c].key == key
            && Reflects(s', if free && Took(lock) then store[LockKey(key) := Mark] else store, code, key)
            && Lasts(s', key, POLL_PAUSE * POLLS)
            && s'.calls[c].pc == if free && lock.Answered? then Acquired(s.now) else Waiting(POLLS, s'.now)
  {
    LockIsOther(key);
  }

  /** From the attempt to lock on. */
  lemma LockRuns(ttl: string -> nat, s: State, c: nat, key: string, code: Code, store: RedisCache.Store,
                 fetched: Option<ItemPage>, f: Faults, store': RedisCache.Store, result: Option<ItemPage>)
    requires c in s.calls && s.calls[c] == Call(key, Locking)
    requires Reflects(s, store, code, key) && Lasts(s, key, POLL_PAUSE * POLLS) && ttl(key) > 0
    requires |f.pollFails| == POLLS
    requires !(key in store && !f.getFails)
    requires CachedEffect(store, key, fetched, f, store', result)
    ensures var es := if LockKey(key) !in store && f.lock.Answered? then ComputeEvents(c, code, fetched, f)
                      else PollEvents(c, f.pollFails, key in store, FetchEvents(c, code, fetched, []));
            Runs(ttl, s, [SetNx(c, f.lock)] + es, c, key, code, store', result)
  {
    LockIsOther(key);
    LockAsked(ttl, s, c, key, code, store, f.lock);
    assert SomePollWorks(f) <==> false in f.pollFails;
    var s1 := Next(ttl, s, SetNx(c, f.lock));
    hide Next;
    if LockKey(key) !in store && f.lock.Answered? {
      ComputeRuns(ttl, s1, c, key, code, store[LockKey(key) := Mark], fetched, f);
      ComputedIs(store, key, fetched, f, store', result);
      assert Runs(ttl, s1, ComputeEvents(c, code, fetched, f), c, key, code, store', result);
      hide Runs, CachedEffect;
      RunsCons(ttl, s, SetNx(c, f.lock), ComputeEvents(c, code, fetched, f), c, key, code, store', result);
    } else {
      PollRuns(ttl, s1, c, key, code, store', fetched, f.pollFails);
      assert result == Polled(store', key, f.pollFails, fetched);
      hide Runs, CachedEffect;
      RunsCons(ttl, s, SetNx(c, f.lock), PollEvents(c, f.pollFails, key in store, FetchEvents(c, code, fetched, [])),
               c, key, code, store', result);
    }
  }

  lemma ComputedIs(store: RedisCache.Store, key: string, fetched: Option<ItemPage>, f: Faults,
                   store': RedisCache.Store, result: Option<ItemPage>)
    requires CachedEffect(store, key, fetched, f, store', result)
    requires LockKey(key) !in store && f.lock.Answered?
    requires !(key in store && store[key].PageValue? && !f.getFails)
    ensures result == fetched
    ensures var computed := Computed(store[LockKey(key) := Mark], key, fetched, f);
            && (key in store' <==> key in computed) && (key in store' ==> store'[key] == computed[key])
            && (LockKey(key) in store' <==> LockKey(key) in computed)
  {
    LockIsOther(key);
  }

  /**
   Whatever `Redis.Cached` does, by its contract, some legal run of one more call in the state
   machine does too, with the same result, the same cached value and the same lock, from every state
   that the store reflects and in which nothing of the key runs out while the call polls.
   */
  lemma CachedIsARun(ttl: string -> nat, s: State, c: nat, key: string, code: Code, store: RedisCache.Store,
                     fetched: Option<ItemPage>, f: Faults, store': RedisCache.Store, result: Option<ItemPage>)
    requires c !in s.calls
    requires Reflects(s, store, code, key) && Lasts(s, key, POLL_PAUSE * POLLS) && ttl(key) > 0
    requires |f.pollFails| == POLLS
    requires CachedEffect(store, key, fetched, f, store', result)
    ensures Runs(ttl, s, CallEvents(c, key, code, store, fetched, f), c, key, code, store', result)
  {
    var s1 := Next(ttl, s, Start(c, key));
    var s2 := Next(ttl, s1, Get(c, f.getFails));
    var live, free := key in store, LockKey(key) !in store;
    var rest :=
      if live && !f.getFails then []
      else [SetNx(c, f.lock)]
           + (if free && f.lock.Answered? then ComputeEvents(c, code, fetched, f)
              else PollEvents(c, f.pollFails, live, FetchEvents(c, code, fetched, [])));
    if !(live && !f.getFails) {
      LockRuns(ttl, s2, c, key, code, store, fetched, f, store', result);
    }
    assert Runs(ttl, s2, rest, c, key, code, store', result);
    hide Runs, Next, CachedEffect;
    RunsCons(ttl, s1, Get(c, f.getFails), rest, c, key, code, store', result);
    RunsCons(ttl, s, Start(c, key), [Get(c, f.getFails)] + rest, c, key, code, store', result);
  }
}
