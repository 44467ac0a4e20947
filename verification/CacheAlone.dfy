/** The cache steps of one call, run with nothing in between: together they do what the sequential code says, case by
    case, in terms of the entries, the TTLs and the JSON text alone. */
module CacheAlone {
  import opened CacheFlight
  import opened Seqs

  function Own(s: State, setup: Setup, w: nat, event: WorkerEvent): State {
    Next(s, setup, OfWorker(w, event))
  }

  function Ask(s: State, setup: Setup, c: nat, event: LookupEvent): State {
    Next(s, setup, OfLookup(c, event))
  }

  /** A lookup looks locally first, joins or opens a flight only when that missed, and takes the result of that one. */
  lemma LookupTurns(s: State, setup: Setup, c: nat, i: nat, f: nat)
    requires c in s.lookups
    ensures Ask(s, setup, c, Begin(i)) == s
    ensures !s.lookups[c].Begun? ==> Ask(s, setup, c, CheckLocal) == s
    ensures !s.lookups[c].Missed? ==> Ask(s, setup, c, Join) == s && Ask(s, setup, c, Open(f)) == s
    ensures !s.lookups[c].Waiting? ==> Ask(s, setup, c, Deliver) == s
  {
  }

  /** Only flights look into the caches, in their turn. */
  lemma FlightTurns(s: State, setup: Setup, w: nat, ok: bool)
    requires w in s.workers
    ensures s.workers[w].forced || !s.workers[w].phase.Fresh? ==> Own(s, setup, w, Peek) == s
    ensures !s.workers[w].phase.LocalMissed? ==> Own(s, setup, w, GetRedis(ok)) == s
    ensures !s.workers[w].phase.Held? ==> Own(s, setup, w, Keep) == s
  {
  }

  /** Only forced refreshes touch, and set the expiry only then. */
  lemma ForcedTurns(s: State, setup: Setup, w: nat, i: nat, ok: bool)
    requires w in s.workers
    ensures Own(s, setup, w, Force(i)) == s
    ensures !s.workers[w].forced || !s.workers[w].phase.Fresh? ==> Own(s, setup, w, Touch) == s
    ensures !s.workers[w].phase.Touched? ==> Own(s, setup, w, Expire(ok)) == s
  {
  }

  /** Loading and storing come in their turn. */
  lemma LoadTurns(s: State, setup: Setup, w: nat, ok: bool, result: LoadResult)
    requires w in s.workers
    ensures !s.workers[w].phase.Loading? ==> Own(s, setup, w, Load(result)) == s
    ensures !s.workers[w].phase.Loaded? ==> Own(s, setup, w, StoreLocal) == s
    ensures !s.workers[w].phase.Stored? ==> Own(s, setup, w, StoreRedis(ok)) == s
    ensures !s.workers[w].phase.Returned? ==> Own(s, setup, w, Release) == s
  {
  }

  /** Loading, storing in both tiers and handing the result out; steps that cannot happen change nothing. */
  function LoadRun(s: State, setup: Setup, w: nat, result: LoadResult, ok: bool): State {
    Own(Own(Own(Own(s, setup, w, Load(result)), setup, w, StoreLocal), setup, w, StoreRedis(ok)), setup, w, Release)
  }

  /** Only the caches, what has been loaded and the result of this worker differ; the worker is gone. */
  predicate Ends(s: State, t: State, w: nat, i: nat, forced: bool, outcome: Outcome) {
    && t.now == s.now && t.workers == s.workers - {w} && t.done == s.done[w := Done(outcome, s.now)]
    && t.lookups == s.lookups && t.replies == s.replies && t.locals - {i} == s.locals - {i}
    && t.group == (if forced then s.group else s.group - {i})
  }

  /** What is stored of a record that was loaded now, or of its absence. */
  ghost predicate Stores(s: State, t: State, setup: Setup, i: nat, record: Option<Record>, ok: bool) {
    var ttl := if record.Some? then setup.localTtl else setup.missingLocalTtl;
    var redisTtl := if record.Some? then setup.redisTtl else setup.missingRedisTtl;
    var text := if record.None? then Some("null") else setup.encode(record.value);
    && i in t.locals && t.locals[i] == LocalEntry(Stamp(record, s.now), None, s.now, ttl, None)
    && t.redis == (if setup.withRedis && ok && text.Some?
                   then Some(RedisEntry(text.value, Stamp(record, s.now), s.now, redisTtl, None)) else s.redis)
    && t.loads == s.loads + {Stamp(record, s.now)}
  }

  predicate CachesSame(s: State, t: State) {
    t.locals == s.locals && t.redis == s.redis && t.loads == s.loads
  }

  lemma FailsAlone(s: State, setup: Setup, w: nat, ok: bool)
    requires w in s.workers && s.workers[w].phase.Loading?
    ensures var t := LoadRun(s, setup, w, Failed, ok);
      Ends(s, t, w, s.workers[w].instance, s.workers[w].forced, Error) && CachesSame(s, t)
  {
    var a := Own(s, setup, w, Load(Failed));
    assert a == s.(workers := s.workers[w := s.workers[w].(phase := Returned(Error))]);
    assert Own(a, setup, w, StoreLocal) == a && Own(a, setup, w, StoreRedis(ok)) == a;
  }

  lemma StoredLocally(s: State, setup: Setup, w: nat, record: Option<Record>, found: bool)
    requires w in s.workers && s.workers[w].phase.Loading? && (found ==> record.Some?)
    ensures var stamp, i := Stamp(if found then record else None, s.now), s.workers[w].instance;
      var t := Own(Own(s, setup, w, Load(Got(record, found))), setup, w, StoreLocal);
      && t == s.(workers := s.workers[w := s.workers[w].(phase := Stored(stamp, found))],
                 locals := s.locals[i := LocalEntry(stamp, None, s.now,
                   if found then setup.localTtl else setup.missingLocalTtl, None)],
                 loads := s.loads + {stamp})
  {
    var stamp := Stamp(if found then record else None, s.now);
    var a := Own(s, setup, w, Load(Got(record, found)));
    assert a == s.(workers := s.workers[w := s.workers[w].(phase := Loaded(stamp, found))],
                   loads := s.loads + {stamp});
  }

  lemma StoresRedis(s: State, setup: Setup, w: nat, ok: bool)
    requires w in s.workers && s.workers[w].phase.Stored?
    ensures var Stored(stamp, found), record := s.workers[w].phase, s.workers[w].phase.stamp.record;
      var text := if record.None? then Some("null") else setup.encode(record.value);
      Own(s, setup, w, StoreRedis(ok))
        == s.(workers := s.workers[w := s.workers[w].(phase := Returned(Answer(record, found, SeenLoaded(stamp))))],
              redis := if setup.withRedis && ok && text.Some?
                then Some(RedisEntry(text.value, stamp, s.now,
                  if found then setup.redisTtl else setup.missingRedisTtl, None)) else s.redis)
  {
  }

  lemma Releases(s: State, setup: Setup, w: nat)
    requires w in s.workers && s.workers[w].phase.Returned?
    ensures var t, Worker(i, forced, Returned(outcome)) := Own(s, setup, w, Release), s.workers[w];
      Ends(s, t, w, i, forced, outcome) && CachesSame(s, t)
  {
  }

  lemma LoadsAlone(s: State, setup: Setup, w: nat, record: Option<Record>, found: bool, ok: bool)
    requires w in s.workers && s.workers[w].phase.Loading? && (found ==> record.Some?)
    ensures var t, kept := LoadRun(s, setup, w, Got(record, found), ok), if found then record else None;
      && Stores(s, t, setup, s.workers[w].instance, kept, ok)
      && Ends(s, t, w, s.workers[w].instance, s.workers[w].forced,
           Answer(kept, kept.Some?, SeenLoaded(Stamp(kept, s.now))))
  {
    StoredLocally(s, setup, w, record, found);
    var b := Own(Own(s, setup, w, Load(Got(record, found))), setup, w, StoreLocal);
    StoresRedis(b, setup, w, ok);
    Releases(Own(b, setup, w, StoreRedis(ok)), setup, w);
  }

  // ----- a forced refresh -----

  function ForcedRun(s: State, setup: Setup, w: nat, i: nat, okExpire: bool, result: LoadResult, ok: bool): State {
    LoadRun(Own(Own(Own(s, setup, w, Force(i)), setup, w, Touch), setup, w, Expire(okExpire)), setup, w, result, ok)
  }

  /** The local entry the refresh finds, with five seconds left if it is live. */
  function Touched(s: State, i: nat): map<nat, LocalEntry> {
    if i in s.locals && s.now < LocalExpiry(s.locals[i])
    then s.locals[i := s.locals[i].(touchedAt := Some(s.now))] else s.locals
  }

  /** The Redis entry it finds, with sixty seconds left if it is live. */
  function Expired(s: State, setup: Setup): Option<RedisEntry> {
    if setup.withRedis && s.redis.Some? && s.now < RedisExpiry(s.redis.value)
    then Some(s.redis.value.(touchedAt := Some(s.now))) else s.redis
  }

  lemma Touches(s: State, setup: Setup, w: nat, i: nat)
    requires w !in s.workers && w !in s.done
    ensures Own(Own(s, setup, w, Force(i)), setup, w, Touch)
      == s.(workers := s.workers[w := Worker(i, true, CacheFlight.Touched)], locals := Touched(s, i))
  {
    var a := Own(s, setup, w, Force(i));
    assert a == s.(workers := s.workers[w := Worker(i, true, Fresh)]);
    ForcedFrame(a, i);
  }

  lemma Expires(s: State, setup: Setup, w: nat, ok: bool)
    requires w in s.workers && s.workers[w].phase.Touched?
    ensures Own(s, setup, w, Expire(ok))
      == s.(workers := s.workers[w := s.workers[w].(phase :=
                 if setup.withRedis && !ok then Returned(Error) else Loading)],
            redis := if ok then Expired(s, setup) else s.redis)
  {
    ForcedFrame(s, 0);
  }

  lemma Forces(s: State, setup: Setup, w: nat, i: nat, ok: bool)
    requires w !in s.workers && w !in s.done
    ensures var t := Own(Own(Own(s, setup, w, Force(i)), setup, w, Touch), setup, w, Expire(ok));
      && t.locals == Touched(s, i) && t.redis == (if ok then Expired(s, setup) else s.redis)
      && t == s.(workers := t.workers, locals := t.locals, redis := t.redis)
      && t.workers == s.workers[w := Worker(i, true, if setup.withRedis && !ok then Returned(Error) else Loading)]
  {
    Touches(s, setup, w, i);
    Expires(Own(Own(s, setup, w, Force(i)), setup, w, Touch), setup, w, ok);
  }

  /** A forced refresh that fails to set the Redis expiry, or to load, fails, and leaves what it capped; one that loads
      stores what it loaded in both tiers, whatever was there, and answers with it. */
  lemma ForcedAlone(s: State, setup: Setup, w: nat, i: nat, okExpire: bool, result: LoadResult, ok: bool)
    requires w !in s.workers && w !in s.done && Meets(result)
    ensures var t := ForcedRun(s, setup, w, i, okExpire, result, ok);
      if setup.withRedis && !okExpire then
        Ends(s, t, w, i, true, Error) && t.locals == Touched(s, i) && t.redis == s.redis && t.loads == s.loads
      else if result.Failed? then
        && Ends(s, t, w, i, true, Error) && t.locals == Touched(s, i)
        && t.redis == (if okExpire then Expired(s, setup) else s.redis) && t.loads == s.loads
      else
        var kept := if result.found then result.record else None;
        var capped := s.(redis := if okExpire then Expired(s, setup) else s.redis);
        && Ends(s, t, w, i, true, Answer(kept, kept.Some?, SeenLoaded(Stamp(kept, s.now))))
        && Stores(capped, t, setup, i, kept, ok)
  {
    Forces(s, setup, w, i, okExpire);
    var a := Own(Own(Own(s, setup, w, Force(i)), setup, w, Touch), setup, w, Expire(okExpire));
    ForcedEnds(s, a, setup, w, i, okExpire, result, ok);
  }

  lemma ForcedEnds(s: State, a: State, setup: Setup, w: nat, i: nat, okExpire: bool, result: LoadResult, ok: bool)
    requires w !in s.workers && Meets(result)
    requires a.locals == Touched(s, i) && a.redis == (if okExpire then Expired(s, setup) else s.redis)
    requires a == s.(workers := a.workers, locals := a.locals, redis := a.redis)
    requires a.workers
      == s.workers[w := Worker(i, true, if setup.withRedis && !okExpire then Returned(Error) else Loading)]
    ensures var t := LoadRun(a, setup, w, result, ok);
      if (setup.withRedis && !okExpire) || result.Failed? then
        && Ends(s, t, w, i, true, Error) && t.locals == a.locals && t.redis == a.redis && t.loads == s.loads
      else
        var kept := if result.found then result.record else None;
        && Ends(s, t, w, i, true, Answer(kept, kept.Some?, SeenLoaded(Stamp(kept, s.now))))
        && Stores(a, t, setup, i, kept, ok)
  {
    assert a.workers - {w} == s.workers - {w} == s.workers;
    assert a.locals - {i} == s.locals - {i};
    if setup.withRedis && !okExpire {
      LoadTurns(a, setup, w, ok, result);
      Releases(a, setup, w);
    } else if result.Failed? {
      FailsAlone(a, setup, w, ok);
    } else {
      LoadsAlone(a, setup, w, result.record, result.found, ok);
    }
  }

  // ----- a lookup -----

  function FlightRun(s: State, setup: Setup, f: nat, okGet: bool, result: LoadResult, ok: bool): State {
    LoadRun(Own(Own(Own(s, setup, f, Peek), setup, f, GetRedis(okGet)), setup, f, Keep), setup, f, result, ok)
  }

  function LookupRun(s: State, setup: Setup, c: nat, f: nat, i: nat, okGet: bool, result: LoadResult,
      ok: bool): State {
    var asked := Ask(Ask(Ask(s, setup, c, Begin(i)), setup, c, CheckLocal), setup, c, Open(f));
    Ask(FlightRun(asked, setup, f, okGet, result, ok), setup, c, Deliver)
  }

  predicate LiveLocal(s: State, i: nat) {
    i in s.locals && s.now < LocalExpiry(s.locals[i])
  }

  /** A live Redis entry whose text decodes. */
  predicate LiveRedis(s: State, setup: Setup) {
    && setup.withRedis && s.redis.Some? && s.now < RedisExpiry(s.redis.value)
    && setup.decode(s.redis.value.text).Some?
  }

  /** The lookup gets this reply now, and is gone. */
  predicate Replies(s: State, t: State, c: nat, flight: Option<nat>, outcome: Outcome) {
    && t.now == s.now && t.workers == s.workers && t.group == s.group && t.lookups == s.lookups
    && t.replies == s.replies + [Return(c, s.now, if flight.Some? then Some(Joined(flight.value, s.now)) else None,
         Given(outcome), s.now)]
    && (flight == None ==> t.done == s.done)
  }

  lemma SeesAlone(s: State, setup: Setup, c: nat, f: nat, i: nat, okGet: bool, result: LoadResult, ok: bool)
    requires c !in s.lookups && f !in s.workers && LiveLocal(s, i)
    ensures var t, record := LookupRun(s, setup, c, f, i, okGet, result, ok), s.locals[i].stamp.record;
      Replies(s, t, c, None, Answer(record, record.Some?, SeenLocally(s.locals[i], s.now))) && CachesSame(s, t)
  {
    var a := Ask(s, setup, c, Begin(i));
    assert a == s.(lookups := s.lookups[c := Begun(i, s.now)]);
    var b := Ask(a, setup, c, CheckLocal);
    assert b.lookups == s.lookups && b == s.(replies := b.replies);
    assert Ask(b, setup, c, Open(f)) == b && FlightRun(b, setup, f, okGet, result, ok) == b;
  }

  lemma Opens(s: State, setup: Setup, c: nat, f: nat, i: nat)
    requires c !in s.lookups && f !in s.workers && f !in s.done && i !in s.group && !LiveLocal(s, i)
    ensures Ask(Ask(Ask(s, setup, c, Begin(i)), setup, c, CheckLocal), setup, c, Open(f))
      == s.(lookups := s.lookups[c := Waiting(i, s.now, Joined(f, s.now))], group := s.group[i := f],
            workers := s.workers[f := Worker(i, false, Fresh)])
  {
    var a := Ask(s, setup, c, Begin(i));
    assert a == s.(lookups := s.lookups[c := Begun(i, s.now)]);
    var b := Ask(a, setup, c, CheckLocal);
    assert b == s.(lookups := s.lookups[c := Missed(i, s.now)]);
  }

  /** The flight's steps up to the load: past both caches, or with the Redis record kept locally. */
  lemma LooksAlone(s: State, setup: Setup, f: nat, ok: bool)
    requires f in s.workers && !s.workers[f].forced && s.workers[f].phase.Fresh? && !LiveLocal(s, s.workers[f].instance)
    ensures var t, i := Own(Own(Own(s, setup, f, Peek), setup, f, GetRedis(ok)), setup, f, Keep),
        s.workers[f].instance;
      if LiveRedis(s, setup) && ok then
        var e, record := s.redis.value, setup.decode(s.redis.value.text).value;
        t == s.(workers := s.workers[f := Worker(i, false,
                  Returned(Answer(record, record.Some?, SeenInRedis(Via(e, s.now)))))],
                locals := s.locals[i := LocalEntry(Stamp(record, e.stamp.loadedAt), Some(Via(e, s.now)), s.now,
                  if record.Some? then setup.localTtl else setup.missingLocalTtl, None)])
      else t == s.(workers := s.workers[f := Worker(i, false, Loading)])
  {
    var i := s.workers[f].instance;
    var a := Own(s, setup, f, Peek);
    assert a == s.(workers := s.workers[f := Worker(i, false, LocalMissed)]);
    var b := Own(a, setup, f, GetRedis(ok));
    if LiveRedis(s, setup) && ok {
      assert b == s.(workers := s.workers[f := Worker(i, false,
        Held(Via(s.redis.value, s.now), setup.decode(s.redis.value.text).value))]);
    } else {
      assert b == s.(workers := s.workers[f := Worker(i, false, Loading)]);
    }
  }

  lemma Delivers(s: State, t: State, setup: Setup, c: nat, f: nat, i: nat, outcome: Outcome, u: State)
    requires c !in s.lookups && f !in s.workers && i !in s.group
    requires t == s.(lookups := s.lookups[c := Waiting(i, s.now, Joined(f, s.now))], group := s.group[i := f],
                     workers := s.workers[f := Worker(i, false, Fresh)])
    requires Ends(t, u, f, i, false, outcome)
    ensures var v := Ask(u, setup, c, Deliver);
      Replies(s, v, c, Some(f), outcome) && CachesSame(u, v) && v.done == s.done[f := Done(outcome, s.now)]
  {
    assert u.workers == s.workers && u.group == s.group;
    var v := Ask(u, setup, c, Deliver);
    assert v.lookups == s.lookups;
  }

  /** The lookup has opened its flight. */
  predicate Opened(s: State, t: State, c: nat, f: nat, i: nat) {
    && c !in s.lookups && f !in s.workers && f !in s.done && i !in s.group && !LiveLocal(s, i)
    && t == s.(lookups := s.lookups[c := Waiting(i, s.now, Joined(f, s.now))], group := s.group[i := f],
               workers := s.workers[f := Worker(i, false, Fresh)])
  }

  lemma RelaysAlone(s: State, asked: State, setup: Setup, c: nat, f: nat, i: nat, result: LoadResult, ok: bool)
    requires Opened(s, asked, c, f, i) && LiveRedis(s, setup)
    ensures var t := Ask(FlightRun(asked, setup, f, true, result, ok), setup, c, Deliver);
      var e, record := s.redis.value, setup.decode(s.redis.value.text).value;
      && Replies(s, t, c, Some(f), Answer(record, record.Some?, SeenInRedis(Via(e, s.now))))
      && t.redis == s.redis && t.loads == s.loads
      && t.locals == s.locals[i := LocalEntry(Stamp(record, e.stamp.loadedAt), Some(Via(e, s.now)), s.now,
           if record.Some? then setup.localTtl else setup.missingLocalTtl, None)]
  {
    LooksAlone(asked, setup, f, true);
    var a := Own(Own(Own(asked, setup, f, Peek), setup, f, GetRedis(true)), setup, f, Keep);
    assert a.workers - {f} == asked.workers - {f} && a.locals - {i} == asked.locals - {i};
    LoadTurns(a, setup, f, ok, result);
    Releases(a, setup, f);
    Delivers(s, asked, setup, c, f, i, a.workers[f].phase.outcome, Own(a, setup, f, Release));
  }

  lemma AnswersAlone(s: State, asked: State, a: State, setup: Setup, c: nat, f: nat, i: nat, result: LoadResult,
      ok: bool)
    requires Opened(s, asked, c, f, i) && Meets(result)
    requires a == asked.(workers := asked.workers[f := Worker(i, false, Loading)])
    ensures var t := Ask(LoadRun(a, setup, f, result, ok), setup, c, Deliver);
      if result.Failed? then Replies(s, t, c, Some(f), Error) && CachesSame(s, t)
      else
        var kept := if result.found then result.record else None;
        && Replies(s, t, c, Some(f), Answer(kept, kept.Some?, SeenLoaded(Stamp(kept, s.now))))
        && Stores(s, t, setup, i, kept, ok) && t.locals - {i} == s.locals - {i}
  {
    assert a.workers - {f} == asked.workers - {f};
    if result.Failed? {
      FailsAlone(a, setup, f, ok);
      Delivers(s, asked, setup, c, f, i, Error, LoadRun(a, setup, f, result, ok));
    } else {
      LoadsAlone(a, setup, f, result.record, result.found, ok);
      var kept := if result.found then result.record else None;
      Delivers(s, asked, setup, c, f, i, Answer(kept, kept.Some?, SeenLoaded(Stamp(kept, s.now))),
        LoadRun(a, setup, f, result, ok));
    }
  }

  /** A lookup alone answers from the local entry if that is live and changes nothing; otherwise from Redis if that
      entry is live and decodes, keeping the record locally for its local TTL; otherwise it answers what it loads and
      stores that in both tiers, or fails and stores nothing. */
  lemma LookupAlone(s: State, setup: Setup, c: nat, f: nat, i: nat, okGet: bool, result: LoadResult, ok: bool)
    requires c !in s.lookups && f !in s.workers && f !in s.done && i !in s.group && Meets(result)
    ensures var t := LookupRun(s, setup, c, f, i, okGet, result, ok);
      if LiveLocal(s, i) then
        var record := s.locals[i].stamp.record;
        Replies(s, t, c, None, Answer(record, record.Some?, SeenLocally(s.locals[i], s.now))) && CachesSame(s, t)
      else if LiveRedis(s, setup) && okGet then
        var e, record := s.redis.value, setup.decode(s.redis.value.text).value;
        && Replies(s, t, c, Some(f), Answer(record, record.Some?, SeenInRedis(Via(e, s.now))))
        && t.redis == s.redis && t.loads == s.loads
        && t.locals == s.locals[i := LocalEntry(Stamp(record, e.stamp.loadedAt), Some(Via(e, s.now)), s.now,
             if record.Some? then setup.localTtl else setup.missingLocalTtl, None)]
      else if result.Failed? then Replies(s, t, c, Some(f), Error) && CachesSame(s, t)
      else
        var kept := if result.found then result.record else None;
        && Replies(s, t, c, Some(f), Answer(kept, kept.Some?, SeenLoaded(Stamp(kept, s.now))))
        && Stores(s, t, setup, i, kept, ok) && t.locals - {i} == s.locals - {i}
  {
    if LiveLocal(s, i) {
      SeesAlone(s, setup, c, f, i, okGet, result, ok);
    } else {
      Opens(s, setup, c, f, i);
      var asked := Ask(Ask(Ask(s, setup, c, Begin(i)), setup, c, CheckLocal), setup, c, Open(f));
      LooksAlone(asked, setup, f, okGet);
      if LiveRedis(s, setup) && okGet {
        RelaysAlone(s, asked, setup, c, f, i, result, ok);
      } else {
        var a := Own(Own(Own(asked, setup, f, Peek), setup, f, GetRedis(okGet)), setup, f, Keep);
        AnswersAlone(s, asked, a, setup, c, f, i, result, ok);
      }
    }
  }
}
