/**
 The stampede protection of `cached` as a state machine: any number of calls, each at its own
 program point, over one Redis with a clock. Each command of a call is one atomic event, and so is
 everything that may happen in between: time passing, eviction, invalidation by another request.
 Redis may answer any command with an error, whether or not it carried the command out.
 Times are in milliseconds. The owner of a lock and the origin of a cached value are bookkeeping
 of the model: the program stores "1" and the bare value.
 */
module LeaseCache {
  import opened Common

  const LEASE: int := 10_000
  const POLL_PAUSE: int := 300
  const POLLS: nat := 5

  /** A fetched value, with the call that fetched it and the time the fetch began. */
  datatype Fetched = Fetched(fetcher: nat, began: int, data: int)

  /** `owner` is None when the SET was carried out but its caller saw an error. */
  datatype Lock = Lock(owner: Option<nat>, expires: int)
  datatype Entry = Entry(value: Fetched, expires: int)

  datatype Outcome =
    | Hit(value: Fetched, readAt: int)  // read from the cache
    | Own(value: Fetched)               // fetched by this call
    | Raised                            // fetch_fn raised

  datatype Pc =
    | Reading                                         // about to read the cache
    | Locking                                         // about to SET the lock
    | Acquired(acquiredAt: int)                       // holds the lock, fetch not begun
    | Fetching(acquiredAt: int, began: int)
    | Storing(acquiredAt: int, value: Fetched)
    | Releasing(acquiredAt: int, outcome: Outcome)    // about to delete the lock
    | Waiting(polls: nat, since: int)                 // asleep, this many polls left
    | FallingBack                                     // all polls spent
    | FetchingUncached(began: int)
    | Done(outcome: Outcome)

  datatype Call = Call(key: string, pc: Pc)

  datatype State = State(
    now: int,
    locks: map<string, Lock>,
    entries: map<string, Entry>,
    calls: map<nat, Call>,
    begun: multiset<nat>,  // the fetches begun, each under the call that began it
    acquired: set<nat>,    // the calls that were told they hold the lock
    wrote: set<nat>)       // the calls that sent a SET of a value

  /** How a Redis command ends. */
  datatype Reply = Answered | Failed(carriedOut: bool)

  /** The command was carried out, whatever its caller was told. */
  predicate Took(reply: Reply) {
    reply.Answered? || reply.carriedOut
  }

  datatype Event =
    | Tick(ms: nat)
    | DropEntry(key: string)               // eviction or invalidation of a cached value
    | EvictLock(key: string)               // the lock is evicted before its lease ends
    | Start(c: nat, key: string)
    | Get(c: nat, fails: bool)
    | SetNx(c: nat, reply: Reply)
    | BeginFetch(c: nat)
    | EndFetch(c: nat, data: int)
    | FailFetch(c: nat)
    | Store(c: nat, reply: Reply)
    | Delete(c: nat, reply: Reply)
    | Poll(c: nat, fails: bool)

  function Init(): State {
    State(0, map[], map[], map[], multiset{}, {}, {})
  }

  predicate IsHolder(pc: Pc) {
    pc.Acquired? || pc.Fetching? || pc.Storing? || pc.Releasing?
  }

  predicate LockLive(s: State, key: string) {
    key in s.locks && s.now < s.locks[key].expires
  }

  predicate EntryLive(s: State, key: string) {
    key in s.entries && s.now < s.entries[key].expires
  }

  predicate Enabled(s: State, e: Event) {
    match e
    case Tick(_) | DropEntry(_) | EvictLock(_) => true
    case Start(c, _) => c !in s.calls
    case Get(c, _) => c in s.calls && s.calls[c].pc.Reading?
    case SetNx(c, _) => c in s.calls && s.calls[c].pc.Locking?
    case BeginFetch(c) => c in s.calls && (s.calls[c].pc.Acquired? || s.calls[c].pc.FallingBack?)
    case EndFetch(c, _) => c in s.calls && (s.calls[c].pc.Fetching? || s.calls[c].pc.FetchingUncached?)
    case FailFetch(c) => c in s.calls && (s.calls[c].pc.Fetching? || s.calls[c].pc.FetchingUncached?)
    case Store(c, _) => c in s.calls && s.calls[c].pc.Storing?
    case Delete(c, _) => c in s.calls && s.calls[c].pc.Releasing?
    case Poll(c, _) => c in s.calls && s.calls[c].pc.Waiting? && s.now >= s.calls[c].pc.since + POLL_PAUSE
  }

  /** The call an event belongs to; the environment's events belong to none. */
  function Actor(e: Event): Option<nat> {
    match e
    case Tick(_) | DropEntry(_) | EvictLock(_) => None
    case Start(c, _) => Some(c)
    case Get(c, _) => Some(c)
    case SetNx(c, _) => Some(c)
    case BeginFetch(c) => Some(c)
    case EndFetch(c, _) => Some(c)
    case FailFetch(c) => Some(c)
    case Store(c, _) => Some(c)
    case Delete(c, _) => Some(c)
    case Poll(c, _) => Some(c)
  }

  function Goto(s: State, c: nat, pc: Pc): State
    requires c in s.calls
  {
    s.(calls := s.calls[c := s.calls[c].(pc := pc)])
  }

  /** The effect of an event; `ttl` is the lifetime of cached values, by key. */
  function Next(ttl: string -> nat, s: State, e: Event): State
    requires Enabled(s, e)
  {
    match e
    case Tick(ms) => s.(now := s.now + ms)
    case DropEntry(key) => s.(entries := s.entries - {key})
    case EvictLock(key) => s.(locks := s.locks - {key})
    case Start(c, key) => s.(calls := s.calls[c := Call(key, Reading)])
    case Get(c, fails) =>
      var key := s.calls[c].key;
      if !fails && EntryLive(s, key) then Goto(s, c, Done(Hit(s.entries[key].value, s.now)))
      else Goto(s, c, Locking)
    case SetNx(c, reply) =>
      var key := s.calls[c].key;
      var free := !LockLive(s, key);
      if reply.Answered? && free then
        Goto(s, c, Acquired(s.now)).(
          locks := s.locks[key := Lock(Some(c), s.now + LEASE)],
          acquired := s.acquired + {c})
      else if reply.Failed? && reply.carriedOut && free then
        Goto(s, c, Waiting(POLLS, s.now)).(locks := s.locks[key := Lock(None, s.now + LEASE)])
      else
        Goto(s, c, Waiting(POLLS, s.now))
    case BeginFetch(c) =>
      var pc := s.calls[c].pc;
      var s' := s.(begun := s.begun + multiset{c});
      if pc.Acquired? then Goto(s', c, Fetching(pc.acquiredAt, s.now))
      else Goto(s', c, FetchingUncached(s.now))
    case EndFetch(c, data) =>
      var pc := s.calls[c].pc;
      var value := Fetched(c, pc.began, data);
      if pc.Fetching? then Goto(s, c, Storing(pc.acquiredAt, value)) else Goto(s, c, Done(Own(value)))
    case FailFetch(c) =>
      var pc := s.calls[c].pc;
      if pc.Fetching? then Goto(s, c, Releasing(pc.acquiredAt, Raised)) else Goto(s, c, Done(Raised))
    case Store(c, reply) =>
      var Call(key, pc) := s.calls[c];
      var s' := Goto(s, c, Releasing(pc.acquiredAt, Own(pc.value))).(wrote := s.wrote + {c});
      if reply.Answered? || reply.carriedOut then
        s'.(entries := s.entries[key := Entry(pc.value, s.now + ttl(key))])
      else s'
    case Delete(c, reply) =>
      var Call(key, pc) := s.calls[c];
      var s' := Goto(s, c, Done(pc.outcome));
      if reply.Answered? || reply.carriedOut then s'.(locks := s.locks - {key}) else s'
    case Poll(c, fails) =>
      var Call(key, pc) := s.calls[c];
      if !fails && EntryLive(s, key) then Goto(s, c, Done(Hit(s.entries[key].value, s.now)))
      else if pc.polls > 1 then Goto(s, c, Waiting(pc.polls - 1, s.now))
      else Goto(s, c, FallingBack)
  }

  // ---------- runs ----------

  /** The events can happen one after the other. */
  predicate Legal(ttl: string -> nat, s: State, es: seq<Event>)
    decreases |es|
  {
    es == [] || (Enabled(s, es[0]) && Legal(ttl, Next(ttl, s, es[0]), es[1..]))
  }

  function Exec(ttl: string -> nat, s: State, es: seq<Event>): State
    requires Legal(ttl, s, es)
    decreases |es|
  {
    if es == [] then s else Exec(ttl, Next(ttl, s, es[0]), es[1..])
  }

  /** No holder has outlived its lease: each is still on its way to its delete in time. */
  ghost predicate Timely(s: State) {
    forall c | c in s.calls && IsHolder(s.calls[c].pc) :: s.now < s.calls[c].pc.acquiredAt + LEASE
  }

  /** Timely in every state of the run, and no lock evicted. */
  ghost predicate TimelyRun(ttl: string -> nat, s: State, es: seq<Event>)
    requires Legal(ttl, s, es)
    decreases |es|
  {
    Timely(s) && (es == [] || (!es[0].EvictLock? && TimelyRun(ttl, Next(ttl, s, es[0]), es[1..])))
  }

  ghost predicate MutualExclusion(s: State) {
    forall c, d | c in s.calls && d in s.calls && IsHolder(s.calls[c].pc) && IsHolder(s.calls[d].pc) ::
      s.calls[c].key == s.calls[d].key ==> c == d
  }

  /** A holder within its lease owns the lock in Redis. */
  ghost predicate OwnsLock(s: State, c: nat)
    requires c in s.calls && IsHolder(s.calls[c].pc)
  {
    var Call(key, pc) := s.calls[c];
    && pc.acquiredAt <= s.now
    && (s.now < pc.acquiredAt + LEASE ==> key in s.locks && s.locks[key] == Lock(Some(c), pc.acquiredAt + LEASE))
  }

  ghost predicate LockInv(s: State) {
    forall c | c in s.calls && IsHolder(s.calls[c].pc) :: OwnsLock(s, c)
  }

  /** Events never turn time back and leave the calls of others alone. */
  lemma Frame(ttl: string -> nat, s: State, e: Event, c: nat)
    requires Enabled(s, e)
    ensures var s' := Next(ttl, s, e);
            && s.now <= s'.now
            && (c in s.calls && Actor(e) != Some(c) ==> c in s'.calls && s'.calls[c] == s.calls[c])
            && (c !in s.calls && Actor(e) != Some(c) ==> c !in s'.calls)
            && (c in s.calls ==> c in s'.calls && s'.calls[c].key == s.calls[c].key)
  {
  }

  /** A live lock is only ever taken away by the delete of a call on its key. */
  lemma LockStays(ttl: string -> nat, s: State, e: Event, key: string)
    requires Enabled(s, e) && !e.EvictLock? && LockLive(s, key)
    requires e.Delete? ==> s.calls[e.c].key != key
    ensures var s' := Next(ttl, s, e); key in s'.locks && s'.locks[key] == s.locks[key]
  {
  }

  /** What a holder knows after its own event: it has just acquired, or it goes on holding. */
  lemma HolderActs(ttl: string -> nat, s: State, e: Event, c: nat)
    requires Enabled(s, e) && Actor(e) == Some(c)
    requires var s' := Next(ttl, s, e); c in s'.calls && IsHolder(s'.calls[c].pc)
    ensures var s' := Next(ttl, s, e);
            var Call(key, pc) := s'.calls[c];
            && s'.now == s.now
            && (if c in s.calls && IsHolder(s.calls[c].pc) then
                  pc.acquiredAt == s.calls[c].pc.acquiredAt && s'.locks == s.locks && key == s.calls[c].key
                else
                  pc.acquiredAt == s.now && key in s'.locks && s'.locks[key] == Lock(Some(c), s.now + LEASE))
  {
  }

  lemma OwnsLockStep(ttl: string -> nat, s: State, e: Event, c: nat)
    requires LockInv(s) && Timely(s)
    requires Enabled(s, e) && !e.EvictLock?
    requires var s' := Next(ttl, s, e); c in s'.calls && IsHolder(s'.calls[c].pc)
    ensures OwnsLock(Next(ttl, s, e), c)
  {
    if Actor(e) == Some(c) {
      HolderActs(ttl, s, e, c);
      hide Next;
      if c in s.calls && IsHolder(s.calls[c].pc) {
        assert OwnsLock(s, c);
      }
    } else {
      Frame(ttl, s, e, c);
      assert e.Delete? ==> e.c in s.calls && s.calls[e.c].pc.Releasing?;
      hide Next;
      assert OwnsLock(s, c);
      if e.Delete? {
        assert OwnsLock(s, e.c);
      }
      LockStays(ttl, s, e, s.calls[c].key);
    }
  }

  lemma LockInvStep(ttl: string -> nat, s: State, e: Event)
    requires LockInv(s) && Timely(s)
    requires Enabled(s, e) && !e.EvictLock?
    ensures LockInv(Next(ttl, s, e))
  {
    hide Next, Enabled, OwnsLock;
    var s' := Next(ttl, s, e);
    forall c | c in s'.calls && IsHolder(s'.calls[c].pc)
      ensures OwnsLock(s', c)
    {
      OwnsLockStep(ttl, s, e, c);
    }
  }

  lemma LockInvExcludes(s: State)
    requires LockInv(s) && Timely(s)
    ensures MutualExclusion(s)
  {
    forall c, d | c in s.calls && d in s.calls && IsHolder(s.calls[c].pc) && IsHolder(s.calls[d].pc)
                  && s.calls[c].key == s.calls[d].key
      ensures c == d
    {
      assert OwnsLock(s, c) && OwnsLock(s, d);
    }
  }

  lemma {:induction false} LockInvRun(ttl: string -> nat, s: State, es: seq<Event>)
    requires LockInv(s)
    requires Legal(ttl, s, es) && TimelyRun(ttl, s, es)
    ensures LockInv(Exec(ttl, s, es)) && Timely(Exec(ttl, s, es))
    decreases |es|
  {
    if es != [] {
      LockInvStep(ttl, s, es[0]);
      LockInvRun(ttl, Next(ttl, s, es[0]), es[1..]);
    }
  }

  /**
   In every interleaving of any number of calls, with Redis failing as it likes: as long as each
   holder is done before its lease ends, at most one call per key is between acquire and release.
   */
  lemma LeaseMutualExclusion(ttl: string -> nat, es: seq<Event>)
    requires Legal(ttl, Init(), es) && TimelyRun(ttl, Init(), es)
    ensures MutualExclusion(Exec(ttl, Init(), es))
  {
    LockInvRun(ttl, Init(), es);
    LockInvExcludes(Exec(ttl, Init(), es));
  }

  /** Under the same premise the unconditional delete takes away the caller's own lock and nothing else. */
  lemma DeleteRemovesOwnLock(ttl: string -> nat, es: seq<Event>, c: nat, reply: Reply)
    requires Legal(ttl, Init(), es) && TimelyRun(ttl, Init(), es)
    requires Enabled(Exec(ttl, Init(), es), Delete(c, reply))
    ensures var s := Exec(ttl, Init(), es);
            var key := s.calls[c].key;
            && LockLive(s, key) && s.locks[key].owner == Some(c)
            && Next(ttl, s, Delete(c, Answered)).locks == s.locks - {key}
            && Next(ttl, s, Delete(c, Answered)).entries == s.entries
  {
    LockInvRun(ttl, Init(), es);
    assert OwnsLock(Exec(ttl, Init(), es), c);
  }

  // ---------- the premise is needed ----------

  /** No lock lives longer than a lease from now. */
  ghost predicate LeasesBounded(s: State) {
    forall key | key in s.locks :: s.locks[key].expires <= s.now + LEASE
  }

  lemma {:induction false} LeasesBoundedRun(ttl: string -> nat, s: State, es: seq<Event>)
    requires LeasesBounded(s) && Legal(ttl, s, es)
    ensures LeasesBounded(Exec(ttl, s, es))
    decreases |es|
  {
    if es != [] {
      LeasesBoundedRun(ttl, Next(ttl, s, es[0]), es[1..]);
    }
  }

  lemma RunCons(ttl: string -> nat, s: State, e: Event, es: seq<Event>)
    requires Enabled(s, e) && Legal(ttl, Next(ttl, s, e), es)
    ensures Legal(ttl, s, [e] + es)
    ensures Exec(ttl, s, [e] + es) == Exec(ttl, Next(ttl, s, e), es)
  {
    assert ([e] + es)[1..] == es;
  }

  /** How another call comes in once it can have the lock; it must miss the cache, by an error if an entry is live. */
  function Intruder(d: nat, key: string, fails: bool): seq<Event> {
    [Start(d, key)] + ([Get(d, fails)] + ([SetNx(d, Answered)] + []))
  }

  /** In a state with a holder but no live lock, the newcomer becomes a second holder. */
  lemma IntruderComesIn(ttl: string -> nat, s: State, c: nat, d: nat, fails: bool)
    requires c in s.calls && IsHolder(s.calls[c].pc) && d !in s.calls
    requires var key := s.calls[c].key; !LockLive(s, key) && (fails <==> EntryLive(s, key))
    ensures var more := Intruder(d, s.calls[c].key, fails);
            Legal(ttl, s, more) && !MutualExclusion(Exec(ttl, s, more))
  {
    var key := s.calls[c].key;
    var s1 := Next(ttl, s, Start(d, key));
    var s2 := Next(ttl, s1, Get(d, fails));
    assert !LockLive(s2, key);
    var s3 := Next(ttl, s2, SetNx(d, Answered));
    RunCons(ttl, s2, SetNx(d, Answered), []);
    RunCons(ttl, s1, Get(d, fails), [SetNx(d, Answered)] + []);
    RunCons(ttl, s, Start(d, key), [Get(d, fails)] + ([SetNx(d, Answered)] + []));
    assert c in s3.calls && d in s3.calls && s3.calls[c].key == s3.calls[d].key;
  }

  /**
   The lease is all that protects: from every state in which a call holds the lock, the lease can
   run out while the call is still busy, and another call comes in beside it, without any error if
   no value of the key is live by then.
   */
  lemma OverrunBreaksExclusion(ttl: string -> nat, es: seq<Event>, c: nat, d: nat)
    requires Legal(ttl, Init(), es)
    requires var s := Exec(ttl, Init(), es); c in s.calls && IsHolder(s.calls[c].pc) && d !in s.calls
    ensures var s := Exec(ttl, Init(), es);
            var key := s.calls[c].key;
            var more := [Tick(LEASE as nat)] + Intruder(d, key, EntryLive(Next(ttl, s, Tick(LEASE as nat)), key));
            Legal(ttl, s, more) && !MutualExclusion(Exec(ttl, s, more))
  {
    LeasesBoundedRun(ttl, Init(), es);
    var s := Exec(ttl, Init(), es);
    var key := s.calls[c].key;
    var s1 := Next(ttl, s, Tick(LEASE as nat));
    IntruderComesIn(ttl, s1, c, d, EntryLive(s1, key));
    RunCons(ttl, s, Tick(LEASE as nat), Intruder(d, key, EntryLive(s1, key)));
  }

  /** So is the lock itself: when it is evicted early, another call comes in at once. */
  lemma EvictionBreaksExclusion(ttl: string -> nat, es: seq<Event>, c: nat, d: nat)
    requires Legal(ttl, Init(), es)
    requires var s := Exec(ttl, Init(), es); c in s.calls && IsHolder(s.calls[c].pc) && d !in s.calls
    ensures var s := Exec(ttl, Init(), es);
            var key := s.calls[c].key;
            var more := [EvictLock(key)] + Intruder(d, key, EntryLive(s, key));
            Legal(ttl, s, more) && !MutualExclusion(Exec(ttl, s, more))
  {
    var s := Exec(ttl, Init(), es);
    var key := s.calls[c].key;
    var s1 := Next(ttl, s, EvictLock(key));
    IntruderComesIn(ttl, s1, c, d, EntryLive(s, key));
    RunCons(ttl, s, EvictLock(key), Intruder(d, key, EntryLive(s, key)));
  }
}
