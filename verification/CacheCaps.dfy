/** What a forced refresh leaves behind, whatever happens afterwards: an entry it found in a cache is gone five or sixty
    seconds later, unless it has been stored or touched again. */
module CacheCaps {
  import opened CacheFlight
  import opened Seqs

  /** A local entry already dead at that time, or touched since, or stored since. */
  predicate TouchLeft(e: LocalEntry, at: nat) {
    LocalExpiry(e) <= at || (e.touchedAt.Some? && e.touchedAt.value >= at) || (e.touchedAt.None? && e.storedAt >= at)
  }

  predicate ExpireLeft(e: RedisEntry, at: nat) {
    RedisExpiry(e) <= at || (e.touchedAt.Some? && e.touchedAt.value >= at) || (e.touchedAt.None? && e.storedAt >= at)
  }

  predicate LocalLeft(s: State, i: nat, at: nat) {
    at <= s.now && (i in s.locals ==> TouchLeft(s.locals[i], at))
  }

  predicate RedisLeft(s: State, at: nat) {
    at <= s.now && (s.redis.Some? ==> ExpireLeft(s.redis.value, at))
  }

  predicate Leaves(s: State, t: State, i: nat, at: nat) {
    (LocalLeft(s, i, at) ==> LocalLeft(t, i, at)) && (RedisLeft(s, at) ==> RedisLeft(t, at))
  }

  predicate SameCaches(s: State, t: State) {
    t.now == s.now && t.locals == s.locals && t.redis == s.redis
  }

  lemma LooksLeave(s: State, setup: Setup, id: nat, ok: bool, i: nat, at: nat)
    requires id in s.workers
    ensures Leaves(s, PeekStep(s, id), i, at) && Leaves(s, GetStep(s, setup, id, ok), i, at)
  {
    assert SameCaches(s, PeekStep(s, id)) && SameCaches(s, GetStep(s, setup, id, ok));
  }

  lemma LoadLeaves(s: State, id: nat, result: LoadResult, i: nat, at: nat)
    requires id in s.workers
    ensures Leaves(s, LoadStep(s, id, result), i, at)
    ensures s.workers[id].phase.Returned? ==> Leaves(s, ReleaseStep(s, id), i, at)
  {
    assert SameCaches(s, LoadStep(s, id, result));
  }

  lemma StoresLeave(s: State, setup: Setup, id: nat, ok: bool, i: nat, at: nat)
    requires id in s.workers
    ensures s.workers[id].phase.Held? ==> Leaves(s, KeepStep(s, setup, id), i, at)
    ensures s.workers[id].phase.Loaded? ==> Leaves(s, StoreLocalStep(s, setup, id), i, at)
    ensures s.workers[id].phase.Stored? ==> Leaves(s, StoreRedisStep(s, setup, id, ok), i, at)
  {
  }

  lemma ForcedLeaves(s: State, setup: Setup, id: nat, ok: bool, i: nat, at: nat)
    requires id in s.workers
    ensures Leaves(s, Move(TouchLocal(s, s.workers[id].instance), id, Touched), i, at)
    ensures Leaves(s, ExpireStep(s, setup, id, ok), i, at)
  {
    ForcedFrame(s, s.workers[id].instance);
  }

  lemma WorkerLeaves(s: State, setup: Setup, id: nat, event: WorkerEvent, i: nat, at: nat)
    requires id in s.workers
    ensures Leaves(s, WorkerNext(s, setup, id, event), i, at)
  {
    match event
    case Peek => LooksLeave(s, setup, id, true, i, at);
    case GetRedis(ok) => LooksLeave(s, setup, id, ok, i, at);
    case Keep => StoresLeave(s, setup, id, true, i, at);
    case StoreLocal => StoresLeave(s, setup, id, true, i, at);
    case StoreRedis(ok) => StoresLeave(s, setup, id, ok, i, at);
    case Touch => ForcedLeaves(s, setup, id, true, i, at);
    case Expire(ok) => ForcedLeaves(s, setup, id, ok, i, at);
    case Load(result) => LoadLeaves(s, id, result, i, at);
    case Release => LoadLeaves(s, id, Failed, i, at);
    case Force(_) =>
  }

  lemma NextLeaves(s: State, setup: Setup, event: Event, i: nat, at: nat)
    ensures Leaves(s, Next(s, setup, event), i, at)
  {
    match event
    case OfLookup(c, l) => LookupFrame(s, c, l);
    case OfWorker(id, w) => if id in s.workers { WorkerLeaves(s, setup, id, w, i, at); }
    case _ =>
  }

  lemma {:induction false} RunLeaves(s: State, setup: Setup, events: seq<Event>, i: nat, at: nat)
    ensures Leaves(s, After(s, setup, events), i, at)
  {
    if events != [] {
      RunLeaves(s, setup, events[..|events| - 1], i, at);
      NextLeaves(After(s, setup, events[..|events| - 1]), setup, events[|events| - 1], i, at);
    }
  }

  /** A forced refresh touches: a live local entry stays, and lives five seconds from now; nothing else changes. */
  lemma TouchIs(s: State, setup: Setup, w: nat)
    requires w in s.workers && s.workers[w].forced && s.workers[w].phase.Fresh?
    ensures var t, i := Next(s, setup, OfWorker(w, Touch)), s.workers[w].instance;
      && w in t.workers && t.workers[w] == Worker(i, true, Touched) && t.now == s.now && t.redis == s.redis
      && t.locals == (if HasLocal(s, i) then s.locals[i := s.locals[i].(touchedAt := Some(s.now))] else s.locals)
      && (HasLocal(s, i) ==> LocalExpiry(t.locals[i]) == s.now + 5)
  {
  }

  /** A forced refresh sets the Redis expiry: a live Redis entry stays, and lives sixty seconds from now. When that
      fails the refresh fails, and without Redis there is nothing to do; either way no cache changes. */
  lemma ExpireIs(s: State, setup: Setup, w: nat, ok: bool)
    requires w in s.workers && s.workers[w].phase.Touched?
    ensures var t := Next(s, setup, OfWorker(w, Expire(ok)));
      && w in t.workers && t.now == s.now && t.locals == s.locals
      && t.workers[w].phase == (if setup.withRedis && !ok then Returned(Error) else Loading)
      && t.redis == (if setup.withRedis && ok && s.redis.Some? && s.now < RedisExpiry(s.redis.value)
                     then Some(s.redis.value.(touchedAt := Some(s.now))) else s.redis)
      && (t.redis != s.redis ==> t.redis.Some? && RedisExpiry(t.redis.value) == s.now + 60)
  {
  }

  /** From any state, and whatever happens after the touch, failing loads included: five seconds later the entry of the
      instance is gone unless it has been stored or touched again. */
  lemma {:induction false} TouchCaps(s: State, setup: Setup, w: nat, events: seq<Event>)
    requires w in s.workers && s.workers[w].forced && s.workers[w].phase.Fresh?
    ensures var u, i := After(Next(s, setup, OfWorker(w, Touch)), setup, events), s.workers[w].instance;
      i in u.locals && u.now < LocalExpiry(u.locals[i]) && u.now >= s.now + 5 ==>
        var e := u.locals[i];
        if e.touchedAt.Some? then e.touchedAt.value > s.now else e.storedAt >= s.now
  {
    TouchIs(s, setup, w);
    var t, i := Next(s, setup, OfWorker(w, Touch)), s.workers[w].instance;
    assert LocalLeft(t, i, s.now);
    RunLeaves(t, setup, events, i, s.now);
  }

  /** And sixty seconds after the forced expiry the Redis entry is, unless it has been stored or touched again. */
  lemma {:induction false} ExpireCaps(s: State, setup: Setup, w: nat, events: seq<Event>)
    requires setup.withRedis && w in s.workers && s.workers[w].phase.Touched?
    ensures var u := After(Next(s, setup, OfWorker(w, Expire(true))), setup, events);
      u.redis.Some? && u.now < RedisExpiry(u.redis.value) && u.now >= s.now + 60 ==>
        var e := u.redis.value;
        if e.touchedAt.Some? then e.touchedAt.value > s.now else e.storedAt >= s.now
  {
    ExpireIs(s, setup, w, true);
    var t := Next(s, setup, OfWorker(w, Expire(true)));
    assert RedisLeft(t, s.now);
    RunLeaves(t, setup, events, 0, s.now);
  }

  // ----- in every run -----

  /** Past the caps: the refresh loads, has loaded, or has stored. */
  predicate Beyond(phase: Phase) {
    phase.Loading? || phase.Loaded? || phase.Stored?
  }

  /** The state before each event of a run. */
  function Before(start: State, setup: Setup, events: seq<Event>, k: nat): State
    requires k <= |events|
  {
    After(start, setup, events[..k])
  }

  predicate TouchedAt(start: State, setup: Setup, events: seq<Event>, w: nat, j: nat) {
    && j < |events| && events[j] == OfWorker(w, Touch)
    && var s := Before(start, setup, events, j);
       w in s.workers && s.workers[w].forced && s.workers[w].phase.Fresh?
  }

  predicate ExpiredAt(start: State, setup: Setup, events: seq<Event>, w: nat, k: nat) {
    && k < |events| && events[k].OfWorker? && events[k].worker == w && events[k].w.Expire?
    && (setup.withRedis ==> events[k].w.ok)
    && var s := Before(start, setup, events, k);
       w in s.workers && s.workers[w].forced && s.workers[w].phase.Touched?
  }

  lemma OthersStay(s: State, setup: Setup, event: Event, w: nat)
    requires !(event.OfWorker? && event.worker == w)
    requires w in Next(s, setup, event).workers && Next(s, setup, event).workers[w].forced
    ensures w in s.workers && s.workers[w] == Next(s, setup, event).workers[w]
  {
    match event
    case OfLookup(c, l) =>
      LookupFrame(s, c, l);
    case OfWorker(id, e) =>
      if id in s.workers && !e.Release? {
        WorkerStays(s, setup, id, e);
      }
    case _ =>
  }

  lemma OwnMoves(s: State, setup: Setup, w: nat, event: WorkerEvent)
    requires var t := WorkerNext(s, setup, w, event);
      w in t.workers && t.workers[w].forced && (t.workers[w].phase.Touched? || Beyond(t.workers[w].phase))
    ensures var t := WorkerNext(s, setup, w, event);
      && w in s.workers && s.workers[w].forced
      && (t.workers[w].phase.Touched? ==>
            s.workers[w].phase.Touched? || (event.Touch? && s.workers[w].phase.Fresh?))
      && (Beyond(t.workers[w].phase) ==>
            || Beyond(s.workers[w].phase) || s.workers[w].phase.LocalMissed?
            || (event.Expire? && s.workers[w].phase.Touched? && (setup.withRedis ==> event.ok)))
  {
    if w in s.workers && !event.Release? {
      WorkerStays(s, setup, w, event);
      if event.Touch? || event.Expire? {
        ForcedFrame(s, s.workers[w].instance);
      }
    }
  }

  /** Only flights look into the caches. */
  predicate ForcedNeverLook(s: State) {
    forall w :: w in s.workers && s.workers[w].forced ==>
      !s.workers[w].phase.LocalMissed? && !s.workers[w].phase.Held?
  }

  lemma {:induction false} NeverLook(start: State, setup: Setup, events: seq<Event>)
    requires Start(start)
    ensures ForcedNeverLook(After(start, setup, events))
  {
    if events != [] {
      var s := After(start, setup, events[..|events| - 1]);
      NeverLook(start, setup, events[..|events| - 1]);
      NeverLookNext(s, setup, events[|events| - 1]);
    }
  }

  lemma OwnLooks(s: State, setup: Setup, w: nat, event: WorkerEvent)
    requires var t := WorkerNext(s, setup, w, event);
      w in t.workers && t.workers[w].forced && (t.workers[w].phase.LocalMissed? || t.workers[w].phase.Held?)
    ensures w in s.workers && s.workers[w].forced && (s.workers[w].phase.LocalMissed? || s.workers[w].phase.Held?)
  {
    if w in s.workers && !event.Release? {
      WorkerStays(s, setup, w, event);
    }
  }

  lemma NeverLookNext(s: State, setup: Setup, event: Event)
    requires ForcedNeverLook(s)
    ensures ForcedNeverLook(Next(s, setup, event))
  {
    var t := Next(s, setup, event);
    forall w | w in t.workers && t.workers[w].forced
      ensures !t.workers[w].phase.LocalMissed? && !t.workers[w].phase.Held?
    {
      if event.OfWorker? && event.worker == w {
        if t.workers[w].phase.LocalMissed? || t.workers[w].phase.Held? {
          OwnLooks(s, setup, w, event.w);
        }
      } else {
        OthersStay(s, setup, event, w);
      }
    }
  }

  lemma TouchedLonger(start: State, setup: Setup, events: seq<Event>, n: nat, w: nat, j: nat)
    requires n <= |events| && TouchedAt(start, setup, events[..n], w, j)
    ensures TouchedAt(start, setup, events, w, j)
  {
    assert events[..n][..j] == events[..j];
  }

  lemma ExpiredLonger(start: State, setup: Setup, events: seq<Event>, n: nat, w: nat, k: nat)
    requires n <= |events| && ExpiredAt(start, setup, events[..n], w, k)
    ensures ExpiredAt(start, setup, events, w, k)
  {
    assert events[..n][..k] == events[..k];
  }

  /** In every run, a forced refresh that waits to load, has loaded or has stored has touched the local entry and then,
      with Redis, has set its expiry, in just those states. */
  lemma {:induction false} LoadsAfterCaps(start: State, setup: Setup, events: seq<Event>, w: nat)
    returns (j: nat, k: nat)
    requires Start(start)
    requires var s := After(start, setup, events);
      w in s.workers && s.workers[w].forced && (s.workers[w].phase.Touched? || Beyond(s.workers[w].phase))
    ensures TouchedAt(start, setup, events, w, j)
    ensures Beyond(After(start, setup, events).workers[w].phase) ==> j < k && ExpiredAt(start, setup, events, w, k)
  {
    if events == [] {
      assert false;
    } else {
      var n := |events| - 1;
      var s, event := After(start, setup, events[..n]), events[n];
      assert Next(s, setup, event) == After(start, setup, events);
      if event.OfWorker? && event.worker == w {
        OwnMoves(s, setup, w, event.w);
        NeverLook(start, setup, events[..n]);
      } else {
        OthersStay(s, setup, event, w);
      }
      if s.workers[w].phase.Fresh? {
        j, k := n, 0;
      } else {
        j, k := LoadsAfterCaps(start, setup, events[..n], w);
        TouchedLonger(start, setup, events, n, w, j);
        if Beyond(s.workers[w].phase) {
          ExpiredLonger(start, setup, events, n, w, k);
        } else {
          k := n;
        }
      }
    }
  }
}
