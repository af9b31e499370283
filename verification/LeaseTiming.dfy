/** The times that `cached` promises to its callers and to Redis, in milliseconds: polls and lease. */
module LeaseTiming {
  import opened LeaseCache

  // ---------- waiting without the lock ----------

  /** The call has given up polling and fetches for itself. */
  predicate Uncached(pc: Pc) {
    pc.FallingBack? || pc.FetchingUncached?
  }

  /** The event is a poll of the call that finds nothing. */
  predicate IsMiss(s: State, e: Event, c: nat)
    requires Enabled(s, e)
  {
    e.Poll? && e.c == c && (e.fails || !EntryLive(s, s.calls[c].key))
  }

  /** When the call polled in vain. */
  function Misses(ttl: string -> nat, s: State, es: seq<Event>, c: nat): seq<int>
    requires Legal(ttl, s, es)
    decreases |es|
  {
    if es == [] then []
    else (if IsMiss(s, es[0], c) then [s.now] else []) + Misses(ttl, Next(ttl, s, es[0]), es[1..], c)
  }

  /** Each time comes at least 300 ms after the one before, and the first after `from`. */
  ghost predicate Spaced(from: int, times: seq<int>)
    decreases |times|
  {
    times == [] || (times[0] >= from + 300 && Spaced(times[0], times[1..]))
  }

  /** Once past polling, or in possession of the lock, or done, a call polls no more. */
  predicate PastPolling(pc: Pc) {
    Uncached(pc) || IsHolder(pc) || pc.Done?
  }

  lemma PastPollingStep(ttl: string -> nat, s: State, e: Event, c: nat)
    requires Enabled(s, e) && c in s.calls && PastPolling(s.calls[c].pc)
    ensures !IsMiss(s, e, c)
    ensures var s' := Next(ttl, s, e);
            && c in s'.calls && PastPolling(s'.calls[c].pc)
            && (Uncached(s'.calls[c].pc) ==> Uncached(s.calls[c].pc))
  {
  }

  lemma {:induction false} NoMoreMisses(ttl: string -> nat, s: State, es: seq<Event>, c: nat)
    requires Legal(ttl, s, es) && c in s.calls && PastPolling(s.calls[c].pc)
    ensures Misses(ttl, s, es, c) == []
    ensures var s' := Exec(ttl, s, es);
            c in s'.calls && (Uncached(s'.calls[c].pc) ==> Uncached(s.calls[c].pc))
    decreases |es|
  {
    if es != [] {
      PastPollingStep(ttl, s, es[0], c);
      NoMoreMisses(ttl, Next(ttl, s, es[0]), es[1..], c);
    }
  }

  /** What an event does to a call that waits. */
  lemma WaitingStep(ttl: string -> nat, s: State, e: Event, c: nat)
    requires Enabled(s, e) && c in s.calls && s.calls[c].pc.Waiting?
    ensures var s', pc := Next(ttl, s, e), s.calls[c].pc;
            && c in s'.calls && s.now <= s'.now
            && (if IsMiss(s, e, c) then
                  && s.now >= pc.since + 300 && s'.now == s.now
                  && s'.calls[c].pc == if pc.polls > 1 then Waiting(pc.polls - 1, s.now) else FallingBack
                else s'.calls[c].pc == pc || s'.calls[c].pc.Done?)
  {
  }

  lemma {:induction false} MissesWhileWaiting(ttl: string -> nat, s: State, es: seq<Event>, c: nat)
    requires Legal(ttl, s, es) && c in s.calls && s.calls[c].pc.Waiting? && s.calls[c].pc.polls >= 1
    requires var s' := Exec(ttl, s, es); c in s'.calls && Uncached(s'.calls[c].pc)
    ensures |Misses(ttl, s, es, c)| == s.calls[c].pc.polls && Spaced(s.calls[c].pc.since, Misses(ttl, s, es, c))
    decreases |es|
  {
    if es != [] {
      var e, s1 := es[0], Next(ttl, s, es[0]);
      WaitingStep(ttl, s, e, c);
      var later := Misses(ttl, s1, es[1..], c);
      assert Misses(ttl, s, es, c) == if IsMiss(s, e, c) then [s.now] + later else later;
      assert Exec(ttl, s, es) == Exec(ttl, s1, es[1..]);
      assert ([s.now] + later)[1..] == later;
      hide Next, Misses, Exec, IsMiss;
      if s1.calls[c].pc.Waiting? {
        MissesWhileWaiting(ttl, s1, es[1..], c);
      } else {
        NoMoreMisses(ttl, s1, es[1..], c);
      }
    }
  }

  lemma SpacedEarlier(from: int, later: int, times: seq<int>)
    requires from <= later && Spaced(later, times)
    ensures Spaced(from, times)
  {
  }

  /** What an event does to a call that is about to lock. */
  lemma LockingStep(ttl: string -> nat, s: State, e: Event, c: nat)
    requires Enabled(s, e) && c in s.calls && s.calls[c].pc.Locking?
    ensures !IsMiss(s, e, c)
    ensures var s' := Next(ttl, s, e);
            && c in s'.calls && s.now <= s'.now
            && (s'.calls[c].pc.Locking? || s'.calls[c].pc.Acquired? || s'.calls[c].pc == Waiting(5, s'.now))
  {
  }

  /**
   A call that was not given the lock fetches for itself only after five polls in vain, each at least
   300 ms after the one before, and the first as long after it asked for the lock.
   */
  lemma {:induction false} FivePollsBeforeFallback(ttl: string -> nat, s: State, es: seq<Event>, c: nat)
    requires Legal(ttl, s, es) && c in s.calls && s.calls[c].pc.Locking?
    requires var s' := Exec(ttl, s, es); c in s'.calls && Uncached(s'.calls[c].pc)
    ensures |Misses(ttl, s, es, c)| == 5 && Spaced(s.now, Misses(ttl, s, es, c))
    decreases |es|
  {
    if es != [] {
      var s1 := Next(ttl, s, es[0]);
      LockingStep(ttl, s, es[0], c);
      var later := Misses(ttl, s1, es[1..], c);
      assert Misses(ttl, s, es, c) == later;
      assert Exec(ttl, s, es) == Exec(ttl, s1, es[1..]);
      hide Next, Misses, Exec, IsMiss;
      if s1.calls[c].pc.Locking? {
        FivePollsBeforeFallback(ttl, s1, es[1..], c);
      } else if s1.calls[c].pc.Waiting? {
        MissesWhileWaiting(ttl, s1, es[1..], c);
      } else {
        NoMoreMisses(ttl, s1, es[1..], c);
      }
      SpacedEarlier(s.now, s1.now, later);
    }
  }

  // ---------- the lease ----------

  /** The event neither evicts nor deletes the lock of this key. */
  predicate SparesLock(s: State, e: Event, key: string)
    requires Enabled(s, e)
  {
    && (e.EvictLock? ==> e.key != key)
    && (e.Delete? ==> s.calls[e.c].key != key)
  }

  ghost predicate LockSpared(ttl: string -> nat, s: State, es: seq<Event>, key: string)
    requires Legal(ttl, s, es)
    decreases |es|
  {
    es != [] ==> SparesLock(s, es[0], key) && LockSpared(ttl, Next(ttl, s, es[0]), es[1..], key)
  }

  /** Nobody asks for the lock of this key. */
  ghost predicate NobodyAsks(ttl: string -> nat, s: State, es: seq<Event>, key: string)
    requires Legal(ttl, s, es)
    decreases |es|
  {
    es != [] ==>
      (es[0].SetNx? ==> s.calls[es[0].c].key != key) && NobodyAsks(ttl, Next(ttl, s, es[0]), es[1..], key)
  }

  lemma LockStep(ttl: string -> nat, s: State, e: Event, key: string)
    requires Enabled(s, e) && SparesLock(s, e, key) && key in s.locks
    requires s.now < s.locks[key].expires || (e.SetNx? ==> s.calls[e.c].key != key)
    ensures var s' := Next(ttl, s, e); s.now <= s'.now && key in s'.locks && s'.locks[key] == s.locks[key]
  {
  }

  lemma {:induction false} TimePasses(ttl: string -> nat, s: State, es: seq<Event>)
    requires Legal(ttl, s, es)
    ensures s.now <= Exec(ttl, s, es).now
    decreases |es|
  {
    if es != [] {
      TimePasses(ttl, Next(ttl, s, es[0]), es[1..]);
    }
  }

  lemma {:induction false} LockInRun(ttl: string -> nat, s: State, es: seq<Event>, key: string)
    requires Legal(ttl, s, es) && LockSpared(ttl, s, es, key) && key in s.locks
    requires Exec(ttl, s, es).now < s.locks[key].expires || NobodyAsks(ttl, s, es, key)
    ensures var s' := Exec(ttl, s, es); key in s'.locks && s'.locks[key] == s.locks[key]
    decreases |es|
  {
    if es != [] {
      TimePasses(ttl, s, es);
      LockStep(ttl, s, es[0], key);
      LockInRun(ttl, Next(ttl, s, es[0]), es[1..], key);
    }
  }

  /** The lock was given to the call. */
  predicate Granted(ttl: string -> nat, s: State, c: nat) {
    && Enabled(s, SetNx(c, Answered))
    && Next(ttl, s, SetNx(c, Answered)).calls[c].pc == Acquired(s.now)
  }

  /**
   A lock that was granted refuses everybody for 10 000 ms, whatever Redis does with their commands,
   unless it is deleted or evicted.
   */
  lemma GrantedLockRefuses(ttl: string -> nat, s: State, c: nat, es: seq<Event>, d: nat, reply: Reply)
    requires Granted(ttl, s, c)
    requires Legal(ttl, Next(ttl, s, SetNx(c, Answered)), es)
    requires LockSpared(ttl, Next(ttl, s, SetNx(c, Answered)), es, s.calls[c].key)
    requires var s' := Exec(ttl, Next(ttl, s, SetNx(c, Answered)), es);
             && s'.now < s.now + 10_000
             && Enabled(s', SetNx(d, reply)) && s'.calls[d].key == s.calls[c].key
    ensures var s' := Exec(ttl, Next(ttl, s, SetNx(c, Answered)), es);
            Next(ttl, s', SetNx(d, reply)) == Goto(s', d, Waiting(5, s'.now))
  {
    LockInRun(ttl, Next(ttl, s, SetNx(c, Answered)), es, s.calls[c].key);
  }

  /** And for no longer: if it is still there after 10 000 ms, the next call that asks is granted it. */
  lemma GrantedLockRunsOut(ttl: string -> nat, s: State, c: nat, es: seq<Event>, d: nat)
    requires Granted(ttl, s, c)
    requires Legal(ttl, Next(ttl, s, SetNx(c, Answered)), es)
    requires var s1, key := Next(ttl, s, SetNx(c, Answered)), s.calls[c].key;
             LockSpared(ttl, s1, es, key) && NobodyAsks(ttl, s1, es, key)
    requires var s' := Exec(ttl, Next(ttl, s, SetNx(c, Answered)), es);
             && s'.now >= s.now + 10_000
             && Enabled(s', SetNx(d, Answered)) && s'.calls[d].key == s.calls[c].key
    ensures Granted(ttl, Exec(ttl, Next(ttl, s, SetNx(c, Answered)), es), d)
  {
    LockInRun(ttl, Next(ttl, s, SetNx(c, Answered)), es, s.calls[c].key);
  }
}
