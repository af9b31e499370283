/** How old a value of `cached` can be, and how much work one call does, in every interleaving. */
module LeaseFreshness {
  import opened Common
  import opened LeaseCache

  /** A holder that is about to store its value is still within its lease. */
  ghost predicate StoresInTime(s: State) {
    forall c | c in s.calls && s.calls[c].pc.Storing? :: s.now < s.calls[c].pc.acquiredAt + LEASE
  }

  ghost predicate StoringRun(ttl: string -> nat, s: State, es: seq<Event>)
    requires Legal(ttl, s, es)
    decreases |es|
  {
    StoresInTime(s) && (es == [] || StoringRun(ttl, Next(ttl, s, es[0]), es[1..]))
  }

  /** A value in the cache runs out before its fetch is ttl plus one lease old. */
  ghost predicate FreshEntry(ttl: string -> nat, s: State, key: string)
    requires key in s.entries
  {
    var Entry(value, expires) := s.entries[key];
    value.began <= s.now && expires < value.began + ttl(key) + LEASE && value.fetcher in s.begun
  }

  /** What each program point knows about the value it carries. */
  ghost predicate FreshCall(ttl: string -> nat, s: State, c: nat)
    requires c in s.calls
  {
    var Call(key, pc) := s.calls[c];
    match pc
    case Acquired(at) => at <= s.now
    case Fetching(at, began) => at <= began <= s.now && c in s.begun
    case Storing(at, value) => at <= value.began <= s.now && value.fetcher == c && c in s.begun
    case Releasing(at, outcome) => !outcome.Hit? && FreshOutcome(ttl, s, c, key, outcome)
    case FetchingUncached(began) => began <= s.now && c in s.begun
    case Done(outcome) => FreshOutcome(ttl, s, c, key, outcome)
    case _ => true
  }

  /** A value read from the cache was fetched less than ttl plus one lease before the read. */
  ghost predicate FreshOutcome(ttl: string -> nat, s: State, c: nat, key: string, outcome: Outcome) {
    match outcome
    case Hit(value, readAt) =>
      value.began <= readAt <= s.now && readAt < value.began + ttl(key) + LEASE && value.fetcher in s.begun
    case Own(value) => value.fetcher == c && value.began <= s.now && c in s.begun
    case Raised => true
  }

  ghost predicate FreshInv(ttl: string -> nat, s: State) {
    && (forall key | key in s.entries :: FreshEntry(ttl, s, key))
    && (forall c | c in s.calls :: FreshCall(ttl, s, c))
  }

  /** Fetches are never forgotten. */
  lemma BegunGrows(ttl: string -> nat, s: State, e: Event)
    requires Enabled(s, e)
    ensures s.begun <= Next(ttl, s, e).begun
  {
  }

  lemma StoredEntryFresh(ttl: string -> nat, s: State, c: nat, reply: Reply, key: string)
    requires FreshInv(ttl, s) && StoresInTime(s)
    requires Enabled(s, Store(c, reply)) && key in Next(ttl, s, Store(c, reply)).entries
    ensures FreshEntry(ttl, Next(ttl, s, Store(c, reply)), key)
  {
    assert FreshCall(ttl, s, c);
    if key in s.entries {
      assert FreshEntry(ttl, s, key);
    }
  }

  lemma FreshEntries(ttl: string -> nat, s: State, e: Event, key: string)
    requires FreshInv(ttl, s) && StoresInTime(s)
    requires Enabled(s, e) && key in Next(ttl, s, e).entries
    ensures FreshEntry(ttl, Next(ttl, s, e), key)
  {
    if e.Store? {
      StoredEntryFresh(ttl, s, e.c, e.reply, key);
    } else {
      EntriesKept(ttl, s, e, key);
      BegunGrows(ttl, s, e);
      hide Next, Enabled;
      assert FreshEntry(ttl, s, key);
    }
  }

  /** Only a store puts values into the cache. */
  lemma EntriesKept(ttl: string -> nat, s: State, e: Event, key: string)
    requires Enabled(s, e) && !e.Store? && key in Next(ttl, s, e).entries
    ensures key in s.entries && Next(ttl, s, e).entries[key] == s.entries[key]
    ensures s.now <= Next(ttl, s, e).now
  {
  }

  /** What another call's event, or the environment's, cannot spoil. */
  lemma FreshOthers(ttl: string -> nat, s: State, e: Event, c: nat)
    requires Enabled(s, e) && Actor(e) != Some(c)
    requires c in s.calls && FreshCall(ttl, s, c)
    ensures c in Next(ttl, s, e).calls && FreshCall(ttl, Next(ttl, s, e), c)
  {
    Frame(ttl, s, e, c);
    BegunGrows(ttl, s, e);
    hide Next;
  }

  lemma FreshActor(ttl: string -> nat, s: State, e: Event, c: nat)
    requires FreshInv(ttl, s)
    requires Enabled(s, e) && Actor(e) == Some(c)
    ensures c in Next(ttl, s, e).calls && FreshCall(ttl, Next(ttl, s, e), c)
  {
    if !e.Start? {
      assert FreshCall(ttl, s, c);
      var key := s.calls[c].key;
      if key in s.entries {
        assert FreshEntry(ttl, s, key);
      }
    }
  }

  lemma FreshInvStep(ttl: string -> nat, s: State, e: Event)
    requires FreshInv(ttl, s) && StoresInTime(s)
    requires Enabled(s, e)
    ensures FreshInv(ttl, Next(ttl, s, e))
  {
    hide Next;
    var s' := Next(ttl, s, e);
    forall key | key in s'.entries
      ensures FreshEntry(ttl, s', key)
    {
      FreshEntries(ttl, s, e, key);
    }
    forall c | c in s'.calls
      ensures FreshCall(ttl, s', c)
    {
      if Actor(e) == Some(c) {
        FreshActor(ttl, s, e, c);
      } else {
        Frame(ttl, s, e, c);
        assert FreshCall(ttl, s, c);
        FreshOthers(ttl, s, e, c);
      }
    }
  }

  lemma {:induction false} FreshInvRun(ttl: string -> nat, s: State, es: seq<Event>)
    requires FreshInv(ttl, s)
    requires Legal(ttl, s, es) && StoringRun(ttl, s, es)
    ensures FreshInv(ttl, Exec(ttl, s, es))
    decreases |es|
  {
    if es != [] {
      FreshInvStep(ttl, s, es[0]);
      FreshInvRun(ttl, Next(ttl, s, es[0]), es[1..]);
    }
  }

  /**
   Bounded freshness: in every interleaving in which values are stored within the lease, what a
   call returns it either fetched itself or read from the cache, and then some call's fetch
   produced it that began less than ttl + 10 s before that read.
   */
  lemma BoundedFreshness(ttl: string -> nat, es: seq<Event>, c: nat)
    requires Legal(ttl, Init(), es) && StoringRun(ttl, Init(), es)
    requires var s := Exec(ttl, Init(), es); c in s.calls && s.calls[c].pc.Done?
    ensures var s := Exec(ttl, Init(), es);
            var Call(key, pc) := s.calls[c];
            match pc.outcome
            case Hit(value, readAt) => readAt - value.began < ttl(key) + LEASE && value.fetcher in s.begun
            case Own(value) => value.fetcher == c && c in s.begun
            case Raised => true
  {
    FreshInvRun(ttl, Init(), es);
    assert FreshCall(ttl, Exec(ttl, Init(), es), c);
  }

  // ---------- the work of one call; no premise on time ----------

  /** The points a call reaches before it has begun a fetch. */
  predicate BeforeFetch(pc: Pc) {
    pc.Reading? || pc.Locking? || pc.Acquired? || pc.Waiting? || pc.FallingBack?
  }

  /** Has a call begun a fetch, and how often; may it have written? */
  ghost predicate WorkCall(s: State, c: nat) {
    && s.begun[c] <= (if c in s.calls && !BeforeFetch(s.calls[c].pc) then 1 else 0)
    && (c in s.calls && IsHolder(s.calls[c].pc) ==> c in s.acquired)
    && (c in s.wrote ==> c in s.acquired)
  }

  ghost predicate WorkInv(s: State) {
    forall c :: WorkCall(s, c)
  }

  /** Another call's event, or the environment's, does not count for this call. */
  lemma CountsFrame(ttl: string -> nat, s: State, e: Event, c: nat)
    requires Enabled(s, e) && Actor(e) != Some(c)
    ensures var s' := Next(ttl, s, e);
            s'.begun[c] == s.begun[c] && (c in s'.wrote <==> c in s.wrote) && (c in s'.acquired <==> c in s.acquired)
  {
  }

  lemma WorkCallStep(ttl: string -> nat, s: State, e: Event, c: nat)
    requires WorkCall(s, c)
    requires Enabled(s, e)
    ensures WorkCall(Next(ttl, s, e), c)
  {
    if Actor(e) != Some(c) {
      Frame(ttl, s, e, c);
      CountsFrame(ttl, s, e, c);
      hide Next;
    }
  }

  lemma WorkInvStep(ttl: string -> nat, s: State, e: Event)
    requires WorkInv(s)
    requires Enabled(s, e)
    ensures WorkInv(Next(ttl, s, e))
  {
    hide Next, Enabled, WorkCall;
    forall c
      ensures WorkCall(Next(ttl, s, e), c)
    {
      assert WorkCall(s, c);
      WorkCallStep(ttl, s, e, c);
    }
  }

  lemma {:induction false} WorkInvRun(ttl: string -> nat, s: State, es: seq<Event>)
    requires WorkInv(s) && Legal(ttl, s, es)
    ensures WorkInv(Exec(ttl, s, es))
    decreases |es|
  {
    if es != [] {
      WorkInvStep(ttl, s, es[0]);
      WorkInvRun(ttl, Next(ttl, s, es[0]), es[1..]);
    }
  }

  /** No call fetches twice, and a call that was not given the lock never writes to the cache. */
  lemma OneFetchAndOnlyHoldersWrite(ttl: string -> nat, es: seq<Event>)
    requires Legal(ttl, Init(), es)
    ensures var s := Exec(ttl, Init(), es);
            (forall c :: s.begun[c] <= 1) && s.wrote <= s.acquired
  {
    WorkInvRun(ttl, Init(), es);
    var s := Exec(ttl, Init(), es);
    forall c
      ensures s.begun[c] <= 1 && (c in s.wrote ==> c in s.acquired)
    {
      assert WorkCall(s, c);
    }
  }

  function Steps(c: nat, es: seq<Event>): nat {
    if es == [] then 0 else (if Actor(es[0]) == Some(c) then 1 else 0) + Steps(c, es[1..])
  }

  function Polls(c: nat, es: seq<Event>): nat {
    if es == [] then 0 else (if es[0].Poll? && es[0].c == c then 1 else 0) + Polls(c, es[1..])
  }

  /** An upper bound on the events a call still has before it. */
  function Remaining(s: State, c: nat): nat {
    if c !in s.calls then POLLS + 5
    else
      match s.calls[c].pc
      case Reading => POLLS + 4
      case Locking => POLLS + 3
      case Waiting(polls, _) => polls + 2
      case Acquired(_) => 4
      case Fetching(_, _) => 3
      case Storing(_, _) => 2
      case Releasing(_, _) => 1
      case FallingBack => 2
      case FetchingUncached(_) => 1
      case Done(_) => 0
  }

  function PollsLeft(s: State, c: nat): nat {
    if c in s.calls && s.calls[c].pc.Waiting? then s.calls[c].pc.polls
    else if c !in s.calls || s.calls[c].pc.Reading? || s.calls[c].pc.Locking? then POLLS
    else 0
  }

  ghost predicate PollsValid(s: State) {
    forall c | c in s.calls && s.calls[c].pc.Waiting? ::
      1 <= s.calls[c].pc.polls <= POLLS && s.calls[c].pc.since <= s.now
  }

  lemma StepCost(ttl: string -> nat, s: State, e: Event, c: nat)
    requires PollsValid(s) && Enabled(s, e)
    ensures Steps(c, [e]) + Remaining(Next(ttl, s, e), c) <= Remaining(s, c)
    ensures Polls(c, [e]) + PollsLeft(Next(ttl, s, e), c) <= PollsLeft(s, c)
  {
    assert [e][1..] == [];
    assert Steps(c, [e]) == if Actor(e) == Some(c) then 1 else 0;
    assert Polls(c, [e]) == if e.Poll? && e.c == c then 1 else 0;
    hide Steps, Polls;
    if Actor(e) == Some(c) {
      StepSpent(ttl, s, e, c);
      PollSpent(ttl, s, e, c);
      hide Next, Remaining, PollsLeft;
    } else {
      Frame(ttl, s, e, c);
      hide Next;
    }
  }

  lemma StepSpent(ttl: string -> nat, s: State, e: Event, c: nat)
    requires PollsValid(s) && Enabled(s, e) && Actor(e) == Some(c)
    ensures Remaining(Next(ttl, s, e), c) < Remaining(s, c)
  {
  }

  lemma PollSpent(ttl: string -> nat, s: State, e: Event, c: nat)
    requires PollsValid(s) && Enabled(s, e) && Actor(e) == Some(c)
    ensures PollsLeft(Next(ttl, s, e), c) + (if e.Poll? then 1 else 0) <= PollsLeft(s, c)
  {
  }

  lemma PollsValidStep(ttl: string -> nat, s: State, e: Event)
    requires PollsValid(s) && Enabled(s, e)
    ensures PollsValid(Next(ttl, s, e))
  {
  }

  lemma {:induction false} WorkBound(ttl: string -> nat, s: State, es: seq<Event>, c: nat)
    requires PollsValid(s) && Legal(ttl, s, es)
    ensures PollsValid(Exec(ttl, s, es))
    ensures Steps(c, es) + Remaining(Exec(ttl, s, es), c) <= Remaining(s, c)
    ensures Polls(c, es) + PollsLeft(Exec(ttl, s, es), c) <= PollsLeft(s, c)
    decreases |es|
  {
    hide Next, Remaining, PollsLeft;
    if es != [] {
      assert Enabled(s, es[0]);
      StepCost(ttl, s, es[0], c);
      PollsValidStep(ttl, s, es[0]);
      WorkBound(ttl, Next(ttl, s, es[0]), es[1..], c);
      assert Steps(c, es) == Steps(c, [es[0]]) + Steps(c, es[1..]);
      assert Polls(c, es) == Polls(c, [es[0]]) + Polls(c, es[1..]);
    }
  }

  /** A call sends at most five polls and is over after at most ten events of its own. */
  lemma BoundedWork(ttl: string -> nat, es: seq<Event>, c: nat)
    requires Legal(ttl, Init(), es)
    ensures Polls(c, es) <= 5 && Steps(c, es) <= 10
  {
    WorkBound(ttl, Init(), es, c);
  }

  /** The event a call is waiting to take. */
  function Pending(c: nat, pc: Pc): Event {
    match pc
    case Reading => Get(c, false)
    case Locking => SetNx(c, Answered)
    case Acquired(_) => BeginFetch(c)
    case Fetching(_, _) => EndFetch(c, 0)
    case Storing(_, _) => Store(c, Answered)
    case Releasing(_, _) => Delete(c, Answered)
    case FallingBack => BeginFetch(c)
    case FetchingUncached(_) => EndFetch(c, 0)
    case Waiting(_, _) | Done(_) => Poll(c, false)
  }

  /** A call that is not over can always go on, at the latest once its pause is over. */
  lemma NeverStuck(ttl: string -> nat, es: seq<Event>, c: nat)
    requires Legal(ttl, Init(), es)
    requires var s := Exec(ttl, Init(), es); c in s.calls && !s.calls[c].pc.Done?
    ensures var s := Exec(ttl, Init(), es);
            var e := Pending(c, s.calls[c].pc);
            Actor(e) == Some(c) && Enabled(Next(ttl, s, Tick(POLL_PAUSE as nat)), e)
  {
    WorkBound(ttl, Init(), es, c);
  }

  /** Two calls miss; the first acquires the lock, fetches, stores and releases before the second locks. */
  function MissedTogether(c: nat, d: nat, key: string, data: int): seq<Event> {
    [Start(c, key)] + ([Start(d, key)] + ([Get(c, false)] + ([Get(d, false)] + FirstServes(c, d, data))))
  }

  function FirstServes(c: nat, d: nat, data: int): seq<Event> {
    [SetNx(c, Answered)] + ([BeginFetch(c)] + FirstStores(c, d, data))
  }

  function FirstStores(c: nat, d: nat, data: int): seq<Event> {
    [EndFetch(c, data)] + ([Store(c, Answered)] + SecondComes(c, d))
  }

  function SecondComes(c: nat, d: nat): seq<Event> {
    [Delete(c, Answered)] + ([SetNx(d, Answered)] + ([BeginFetch(d)] + []))
  }

  /**
   Nothing reads the cache again once the lock is held, so a key is not fetched only once: there is a
   run, without any error and without any time passing, after which one call's value is live in the
   cache and another call, which holds the lock, is fetching all the same.
   */
  lemma SecondFetchDespiteEntry(ttl: string -> nat, c: nat, d: nat, key: string, data: int)
    requires c != d && ttl(key) > 0
    ensures Legal(ttl, Init(), MissedTogether(c, d, key, data))
    ensures var s := Exec(ttl, Init(), MissedTogether(c, d, key, data));
            && EntryLive(s, key) && s.entries[key].value == Fetched(c, 0, data)
            && s.calls == map[c := Call(key, Done(Own(Fetched(c, 0, data)))), d := Call(key, Fetching(0, 0))]
            && s.begun == multiset{c, d} && s.now == 0
  {
    var s4 := State(0, map[], map[], map[c := Call(key, Locking), d := Call(key, Locking)], multiset{}, {}, {});
    var s1 := Next(ttl, Init(), Start(c, key));
    var s2 := Next(ttl, s1, Start(d, key));
    var s3 := Next(ttl, s2, Get(c, false));
    assert Next(ttl, s3, Get(d, false)) == s4;
    FirstRuns(ttl, c, d, key, data, s4);
    hide Legal, Exec, FirstServes;
    RunCons(ttl, s3, Get(d, false), FirstServes(c, d, data));
    RunCons(ttl, s2, Get(c, false), [Get(d, false)] + FirstServes(c, d, data));
    RunCons(ttl, s1, Start(d, key), [Get(c, false)] + ([Get(d, false)] + FirstServes(c, d, data)));
    RunCons(ttl, Init(), Start(c, key),
            [Start(d, key)] + ([Get(c, false)] + ([Get(d, false)] + FirstServes(c, d, data))));
  }

  lemma FirstRuns(ttl: string -> nat, c: nat, d: nat, key: string, data: int, s: State)
    requires c != d && ttl(key) > 0
    requires s == State(0, map[], map[], map[c := Call(key, Locking), d := Call(key, Locking)], multiset{}, {}, {})
    ensures Legal(ttl, s, FirstServes(c, d, data))
    ensures Exec(ttl, s, FirstServes(c, d, data))
         == State(0, map[key := Lock(Some(d), LEASE)], map[key := Entry(Fetched(c, 0, data), ttl(key))],
                  map[c := Call(key, Done(Own(Fetched(c, 0, data)))), d := Call(key, Fetching(0, 0))],
                  multiset{c, d}, {c, d}, {c})
  {
    var s1 := Next(ttl, s, SetNx(c, Answered));
    var s2 := State(0, map[key := Lock(Some(c), LEASE)], map[],
                    map[c := Call(key, Fetching(0, 0)), d := Call(key, Locking)], multiset{c}, {c}, {});
    assert Next(ttl, s1, BeginFetch(c)) == s2;
    StoringRuns(ttl, c, d, key, data, s2);
    hide Legal, Exec, FirstStores;
    RunCons(ttl, s1, BeginFetch(c), FirstStores(c, d, data));
    RunCons(ttl, s, SetNx(c, Answered), [BeginFetch(c)] + FirstStores(c, d, data));
  }

  lemma StoringRuns(ttl: string -> nat, c: nat, d: nat, key: string, data: int, s: State)
    requires c != d && ttl(key) > 0
    requires s == State(0, map[key := Lock(Some(c), LEASE)], map[],
                        map[c := Call(key, Fetching(0, 0)), d := Call(key, Locking)], multiset{c}, {c}, {})
    ensures Legal(ttl, s, FirstStores(c, d, data))
    ensures Exec(ttl, s, FirstStores(c, d, data))
         == State(0, map[key := Lock(Some(d), LEASE)], map[key := Entry(Fetched(c, 0, data), ttl(key))],
                  map[c := Call(key, Done(Own(Fetched(c, 0, data)))), d := Call(key, Fetching(0, 0))],
                  multiset{c, d}, {c, d}, {c})
  {
    var value := Fetched(c, 0, data);
    var s1 := Next(ttl, s, EndFetch(c, data));
    var s2 := State(0, map[key := Lock(Some(c), LEASE)], map[key := Entry(value, ttl(key))],
                    map[c := Call(key, Releasing(0, Own(value))), d := Call(key, Locking)], multiset{c}, {c}, {c});
    assert Next(ttl, s1, Store(c, Answered)) == s2;
    SecondRuns(ttl, c, d, key, value, s2);
    hide Legal, Exec, SecondComes;
    RunCons(ttl, s1, Store(c, Answered), SecondComes(c, d));
    RunCons(ttl, s, EndFetch(c, data), [Store(c, Answered)] + SecondComes(c, d));
  }

  lemma SecondRuns(ttl: string -> nat, c: nat, d: nat, key: string, value: Fetched, s: State)
    requires c != d
    requires s == State(0, map[key := Lock(Some(c), LEASE)], map[key := Entry(value, ttl(key))],
                        map[c := Call(key, Releasing(0, Own(value))), d := Call(key, Locking)], multiset{c}, {c}, {c})
    ensures Legal(ttl, s, SecondComes(c, d))
    ensures Exec(ttl, s, SecondComes(c, d))
         == State(0, map[key := Lock(Some(d), LEASE)], map[key := Entry(value, ttl(key))],
                  map[c := Call(key, Done(Own(value))), d := Call(key, Fetching(0, 0))], multiset{c, d}, {c, d}, {c})
  {
    var s1 := Next(ttl, s, Delete(c, Answered));
    var s2 := Next(ttl, s1, SetNx(d, Answered));
    RunCons(ttl, s2, BeginFetch(d), []);
    RunCons(ttl, s1, SetNx(d, Answered), [BeginFetch(d)] + []);
    RunCons(ttl, s, Delete(c, Answered), [SetNx(d, Answered)] + ([BeginFetch(d)] + []));
  }

  /** Neither dropped nor stored again. */
  predicate Spares(s: State, e: Event, key: string)
    requires Enabled(s, e)
  {
    && (e.DropEntry? ==> e.key != key)
    && (e.Store? ==> s.calls[e.c].key != key)
  }

  ghost predicate SparedRun(ttl: string -> nat, s: State, es: seq<Event>, key: string)
    requires Legal(ttl, s, es)
    decreases |es|
  {
    es != [] ==> Spares(s, es[0], key) && SparedRun(ttl, Next(ttl, s, es[0]), es[1..], key)
  }

  lemma EntryStays(ttl: string -> nat, s: State, e: Event, key: string)
    requires Enabled(s, e) && Spares(s, e, key) && key in s.entries
    ensures key in Next(ttl, s, e).entries && Next(ttl, s, e).entries[key] == s.entries[key]
  {
  }

  lemma {:induction false} EntryStaysInRun(ttl: string -> nat, s: State, es: seq<Event>, key: string)
    requires Legal(ttl, s, es) && SparedRun(ttl, s, es, key) && key in s.entries
    ensures key in Exec(ttl, s, es).entries && Exec(ttl, s, es).entries[key] == s.entries[key]
    decreases |es|
  {
    if es != [] {
      EntryStays(ttl, s, es[0], key);
      EntryStaysInRun(ttl, Next(ttl, s, es[0]), es[1..], key);
    }
  }

  /**
   A value that Redis took is what every call on the key gets, at its first read as at a poll, and
   without a fetch, after whatever other calls have done meanwhile, until the value expires, is
   dropped or is stored again.
   */
  lemma StoredValueIsServed(ttl: string -> nat, s: State, c: nat, es: seq<Event>, d: nat, poll: bool)
    requires Enabled(s, Store(c, Answered))
    requires Legal(ttl, Next(ttl, s, Store(c, Answered)), es)
    requires SparedRun(ttl, Next(ttl, s, Store(c, Answered)), es, s.calls[c].key)
    requires var s1 := Exec(ttl, Next(ttl, s, Store(c, Answered)), es);
             && s1.now < s.now + ttl(s.calls[c].key)
             && Enabled(s1, if poll then Poll(d, false) else Get(d, false)) && s1.calls[d].key == s.calls[c].key
    ensures var s1 := Exec(ttl, Next(ttl, s, Store(c, Answered)), es);
            var s2 := Next(ttl, s1, if poll then Poll(d, false) else Get(d, false));
            s2 == Goto(s1, d, Done(Hit(s.calls[c].pc.value, s1.now)))
  {
    EntryStaysInRun(ttl, Next(ttl, s, Store(c, Answered)), es, s.calls[c].key);
  }

  /**
   As long as holders finish within their lease, a call that asks for the lock while another is
   between acquire and release is refused, whatever Redis does with its command, and goes on to poll.
   */
  lemma HeldLockRefuses(ttl: string -> nat, es: seq<Event>, c: nat, d: nat, reply: Reply)
    requires Legal(ttl, Init(), es) && TimelyRun(ttl, Init(), es)
    requires var s := Exec(ttl, Init(), es);
             && c in s.calls && IsHolder(s.calls[c].pc)
             && Enabled(s, SetNx(d, reply)) && s.calls[d].key == s.calls[c].key
    ensures var s := Exec(ttl, Init(), es);
            Next(ttl, s, SetNx(d, reply)) == Goto(s, d, Waiting(POLLS, s.now))
  {
    LockInvRun(ttl, Init(), es);
    assert OwnsLock(Exec(ttl, Init(), es), c);
  }

  /** A fetch that raises still releases the lock. */
  lemma RaisedFetchReleases(ttl: string -> nat, s: State, c: nat)
    requires Enabled(s, FailFetch(c)) && s.calls[c].pc.Fetching?
    ensures Legal(ttl, s, [FailFetch(c)] + ([Delete(c, Answered)] + []))
    ensures var s' := Exec(ttl, s, [FailFetch(c)] + ([Delete(c, Answered)] + []));
            && c in s'.calls && s'.calls[c].pc == Done(Raised)
            && s.calls[c].key !in s'.locks && s'.entries == s.entries
  {
    var s1 := Next(ttl, s, FailFetch(c));
    RunCons(ttl, s1, Delete(c, Answered), []);
    RunCons(ttl, s, FailFetch(c), [Delete(c, Answered)] + []);
  }
}
