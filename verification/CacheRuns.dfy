/** Runs of the two-tier cache, with its default TTLs, that keep an old record longer than one would expect: a late
    forced touch, a slow relay, a slow flight, and forced refreshes whose loads keep failing. */
module CacheRuns {
  import opened CacheFlight
  import opened CacheJoin
  import opened CacheStale
  import opened CacheTtl
  import opened Seqs

  /** The TTLs lookups use by default. */
  predicate Defaults(setup: Setup) {
    && setup.localTtl == LOCAL_SECONDS && setup.redisTtl == REDIS_SECONDS
    && setup.missingLocalTtl == MISSING_LOCAL_SECONDS && setup.missingRedisTtl == MISSING_REDIS_SECONDS
    && setup.withRedis
  }

  /** What is in Redis, and which worker, flight and lookup are under way. */
  predicate Scene(s: State, now: nat, redis: Option<RedisEntry>, workers: map<nat, Worker>, group: map<nat, nat>,
      lookups: map<nat, Lookup>) {
    s.now == now && s.redis == redis && s.workers == workers && s.group == group && s.lookups == lookups
  }

  predicate Quiet(s: State) {
    s.workers == map[] && s.group == map[] && s.lookups == map[]
  }

  function Entry(setup: Setup, r: Record, now: nat): RedisEntry
    requires setup.encode(r).Some?
  {
    RedisEntry(setup.encode(r).value, Stamp(Some(r), now), now, REDIS_SECONDS, None)
  }

  // ----- a forced refresh fills both tiers -----

  lemma ForceOne(reached: iset<State>, setup: Setup, s: State, id: nat) returns (t: State)
    requires Closed(reached, setup) && s in reached && id !in s.workers && id !in s.done
    ensures t in reached && t == s.(workers := s.workers[id := Worker(0, true, Fresh)])
  {
    t := Reach(reached, setup, s, OfWorker(id, Force(0)));
  }

  lemma TouchOne(reached: iset<State>, setup: Setup, s: State, id: nat) returns (t: State)
    requires Closed(reached, setup) && s in reached && s.workers == map[id := Worker(0, true, Fresh)]
    ensures t in reached && Scene(t, s.now, s.redis, map[id := Worker(0, true, Touched)], s.group, s.lookups)
    ensures t.done == s.done && t.loads == s.loads
    ensures t.locals == if HasLocal(s, 0) then s.locals[0 := s.locals[0].(touchedAt := Some(s.now))] else s.locals
  {
    t := Reach(reached, setup, s, OfWorker(id, Touch));
    assert t.workers == map[id := Worker(0, true, Touched)];
  }

  lemma ExpireOne(reached: iset<State>, setup: Setup, s: State, id: nat) returns (t: State)
    requires Closed(reached, setup) && s in reached && setup.withRedis
      && s.workers == map[id := Worker(0, true, Touched)]
    ensures t in reached && t.workers == map[id := Worker(0, true, Loading)] && t.group == s.group
      && t.lookups == s.lookups
    ensures t.now == s.now && t.done == s.done && t.loads == s.loads && t.locals == s.locals
    ensures s.redis == None ==> t.redis == None
  {
    t := Reach(reached, setup, s, OfWorker(id, Expire(true)));
    ForcedFrame(s, 0);
    assert t == Move(ExpireRedis(s), id, Loading);
    assert t.workers == map[id := Worker(0, true, Loading)];
  }

  lemma LoadOne(reached: iset<State>, setup: Setup, s: State, id: nat, r: Record) returns (t: State)
    requires Closed(reached, setup) && s in reached && s.workers == map[id := Worker(0, true, Loading)]
    ensures t in reached && t.done == s.done && t.loads == s.loads + {Stamp(Some(r), s.now)}
    ensures Scene(t, s.now, s.redis, map[id := Worker(0, true, Loaded(Stamp(Some(r), s.now), true))], s.group,
      s.lookups)
  {
    t := Reach(reached, setup, s, OfWorker(id, Load(Got(Some(r), true))));
    assert t.workers == map[id := Worker(0, true, Loaded(Stamp(Some(r), s.now), true))];
  }

  lemma StoreBoth(reached: iset<State>, setup: Setup, s: State, id: nat, r: Record) returns (t: State)
    requires Closed(reached, setup) && s in reached && Defaults(setup) && setup.encode(r).Some?
    requires s.workers == map[id := Worker(0, true, Loaded(Stamp(Some(r), s.now), true))]
    ensures t in reached && t.done == s.done && t.loads == s.loads && t.lookups == s.lookups && t.group == s.group
    ensures t.now == s.now && t.redis == Some(Entry(setup, r, s.now))
    ensures id in t.workers && t.workers.Keys == {id} && t.workers[id].forced && t.workers[id].phase.Returned?
    ensures 0 in t.locals && t.locals[0] == LocalEntry(Stamp(Some(r), s.now), None, s.now, LOCAL_SECONDS, None)
  {
    t := Reach(reached, setup, s, OfWorker(id, StoreLocal));
    assert t.workers == map[id := Worker(0, true, Stored(Stamp(Some(r), s.now), true))];
    t := Reach(reached, setup, t, OfWorker(id, StoreRedis(true)));
  }

  lemma ReleaseOne(reached: iset<State>, setup: Setup, s: State, id: nat) returns (t: State)
    requires Closed(reached, setup) && s in reached && id in s.workers && s.workers.Keys == {id}
      && s.workers[id].phase.Returned?
    ensures t in reached && t.now == s.now && t.redis == s.redis && t.locals == s.locals && t.loads == s.loads
    ensures t.workers == map[] && t.lookups == s.lookups && t.done.Keys == s.done.Keys + {id}
    ensures t.group == if s.workers[id].forced then s.group else s.group - {s.workers[id].instance}
  {
    t := Reach(reached, setup, s, OfWorker(id, Release));
    assert t.workers == map[];
  }

  /** Both tiers hold a record, loaded now; nothing is under way. */
  lemma Fill(reached: iset<State>, setup: Setup, start: State, r: Record) returns (t: State)
    requires Closed(reached, setup) && start in reached && Start(start) && Defaults(setup) && setup.encode(r).Some?
    ensures t in reached && Quiet(t) && t.now == start.now && t.redis == Some(Entry(setup, r, start.now))
      && t.done.Keys == {1}
    ensures t.loads == {Stamp(Some(r), start.now)}
    ensures 0 in t.locals && t.locals[0] == LocalEntry(Stamp(Some(r), start.now), None, start.now, LOCAL_SECONDS, None)
  {
    t := ForceOne(reached, setup, start, 1);
    t := TouchOne(reached, setup, t, 1);
    t := ExpireOne(reached, setup, t, 1);
    t := LoadOne(reached, setup, t, 1, r);
    t := StoreBoth(reached, setup, t, 1, r);
    t := ReleaseOne(reached, setup, t, 1);
  }

  // ----- a flight relays from Redis -----

  lemma BeginsAndMisses(reached: iset<State>, setup: Setup, s: State, c: nat) returns (t: State)
    requires Closed(reached, setup) && s in reached && c !in s.lookups && !HasLocal(s, 0)
    ensures t in reached && t == s.(lookups := s.lookups[c := Missed(0, s.now)])
  {
    t := Reach(reached, setup, s, OfLookup(c, Begin(0)));
    assert t == s.(lookups := s.lookups[c := Begun(0, s.now)]);
    t := Reach(reached, setup, t, OfLookup(c, CheckLocal));
  }

  lemma LookupMisses(reached: iset<State>, setup: Setup, s: State, c: nat) returns (t: State)
    requires Closed(reached, setup) && s in reached && s.lookups == map[] && !HasLocal(s, 0)
    ensures t in reached && t == s.(lookups := map[c := Missed(0, s.now)])
  {
    t := BeginsAndMisses(reached, setup, s, c);
    assert t.lookups == map[c := Missed(0, s.now)];
  }

  lemma FlightOpens(reached: iset<State>, setup: Setup, s: State, c: nat, f: nat) returns (t: State)
    requires Closed(reached, setup) && s in reached && f !in s.done
    requires Scene(s, s.now, s.redis, map[], map[], map[c := Missed(0, s.now)])
    ensures t in reached && Scene(t, s.now, s.redis, map[f := Worker(0, false, Fresh)], map[0 := f],
      map[c := Waiting(0, s.now, Joined(f, s.now))])
    ensures t.done == s.done && t.locals == s.locals
  {
    t := Reach(reached, setup, s, OfLookup(c, Open(f)));
    assert t.lookups == map[c := Waiting(0, s.now, Joined(f, s.now))] && t.workers == map[f := Worker(0, false, Fresh)]
      && t.group == map[0 := f];
  }

  lemma FlightMisses(reached: iset<State>, setup: Setup, s: State, f: nat) returns (t: State)
    requires Closed(reached, setup) && s in reached && !HasLocal(s, 0) && s.workers == map[f := Worker(0, false, Fresh)]
    ensures t in reached && t == s.(workers := map[f := Worker(0, false, LocalMissed)])
  {
    t := Reach(reached, setup, s, OfWorker(f, Peek));
    assert t.workers == map[f := Worker(0, false, LocalMissed)];
  }

  lemma FlightGets(reached: iset<State>, setup: Setup, s: State, f: nat, e: RedisEntry) returns (t: State)
    requires Closed(reached, setup) && s in reached && setup.withRedis
      && s.workers == map[f := Worker(0, false, LocalMissed)]
    requires s.redis == Some(e) && s.now < RedisExpiry(e) && setup.decode(e.text) == Some(e.stamp.record)
    ensures t in reached && t == s.(workers := map[f := Worker(0, false, Held(Via(e, s.now), e.stamp.record))])
  {
    t := Reach(reached, setup, s, OfWorker(f, GetRedis(true)));
    assert t.workers == map[f := Worker(0, false, Held(Via(e, s.now), e.stamp.record))];
  }

  /** In the last second of the Redis entry a flight has read it. */
  lemma ReadLate(reached: iset<State>, setup: Setup, start: State, r: Record) returns (t: State)
    requires Closed(reached, setup) && start in reached && Start(start) && Defaults(setup) && Faithful(setup)
    requires setup.encode(r).Some?
    ensures t in reached && t.done.Keys == {1}
    ensures var e := Entry(setup, r, start.now);
      Scene(t, start.now + 1799, Some(e), map[3 := Worker(0, false, Held(Via(e, start.now + 1799), Some(r)))],
            map[0 := 3], map[2 := Waiting(0, start.now + 1799, Joined(3, start.now + 1799))])
    ensures !HasLocal(t, 0)
  {
    t := Fill(reached, setup, start, r);
    t := Reach(reached, setup, t, Tick(1799));
    t := LookupMisses(reached, setup, t, 2);
    t := FlightOpens(reached, setup, t, 2, 3);
    t := FlightMisses(reached, setup, t, 3);
    t := FlightGets(reached, setup, t, 3, Entry(setup, r, start.now));
  }

  function Relayed(via: Via, now: nat): LocalEntry {
    LocalEntry(via.entry.stamp, Some(via), now, LOCAL_SECONDS, None)
  }

  lemma FlightStores(reached: iset<State>, setup: Setup, s: State, f: nat, via: Via) returns (t: State)
    requires Closed(reached, setup) && s in reached && Defaults(setup) && via.entry.stamp.record.Some?
    requires s.workers == map[f := Worker(0, false, Held(via, via.entry.stamp.record))]
    ensures t in reached && t.lookups == s.lookups && t.now == s.now && t.done == s.done && t.group == s.group
    ensures t.locals == s.locals[0 := Relayed(via, s.now)]
    ensures t.workers == map[f := Worker(0, false,
      Returned(Answer(via.entry.stamp.record, true, SeenInRedis(via))))]
  {
    t := Reach(reached, setup, s, OfWorker(f, Keep));
    assert t.workers == map[f := Worker(0, false, Returned(Answer(via.entry.stamp.record, true, SeenInRedis(via))))];
  }

  lemma FlightRelays(reached: iset<State>, setup: Setup, s: State, f: nat, via: Via) returns (t: State)
    requires Closed(reached, setup) && s in reached && Defaults(setup) && via.entry.stamp.record.Some?
    requires s.workers == map[f := Worker(0, false, Held(via, via.entry.stamp.record))] && s.group == map[0 := f]
    ensures t in reached && t.workers == map[] && t.group == map[] && t.lookups == s.lookups && t.now == s.now
    ensures t.done.Keys == s.done.Keys + {f} && t.locals == s.locals[0 := Relayed(via, s.now)]
  {
    t := FlightStores(reached, setup, s, f, via);
    t := ReleaseOne(reached, setup, t, f);
    assert t.group == map[];
  }

  // ----- the runs -----

  lemma AskedIsReached(reached: iset<State>, setup: Setup, s: State, c: nat, i: nat, seconds: nat)
    requires Closed(reached, setup) && s in reached
    ensures Asked(s, setup, c, i, seconds) in reached
  {
    var t := Reach(reached, setup, s, Tick(seconds));
    t := Reach(reached, setup, t, OfLookup(c, Begin(i)));
    t := Reach(reached, setup, t, OfLookup(c, CheckLocal));
  }

  /** The last reply of a state comes from a local entry, seen at this time. */
  predicate RepliedFrom(s: State, e: LocalEntry, at: nat) {
    && s.replies != []
    && var r := s.replies[|s.replies| - 1];
       r.at == at && r.joined == None
         && r.reply == Given(Answer(e.stamp.record, e.stamp.record.Some?, SeenLocally(e, at)))
  }

  lemma AskOnce(reached: iset<State>, setup: Setup, s: State, c: nat, seconds: nat) returns (t: State)
    requires Closed(reached, setup) && s in reached && c !in s.lookups
    requires 0 in s.locals && s.now + seconds < LocalExpiry(s.locals[0])
    ensures t in reached && t.loads == s.loads && RepliedFrom(t, s.locals[0], s.now + seconds)
  {
    AskedReplies(s, setup, c, 0, seconds);
    AskedIsReached(reached, setup, s, c, 0, seconds);
    t := Asked(s, setup, c, 0, seconds);
  }

  lemma TouchPasses(reached: iset<State>, setup: Setup, start: State, r: Record) returns (t: State, e: LocalEntry)
    requires Closed(reached, setup) && start in reached && Start(start) && Defaults(setup) && Faithful(setup)
    requires setup.encode(r).Some?
    ensures t in reached && RepliedFrom(t, e, start.now + 1816)
    ensures var relayed := Relayed(Via(Entry(setup, r, start.now), start.now + 1799), start.now + 1799);
      e == relayed.(touchedAt := Some(start.now + 1813))
  {
    t := ReadLate(reached, setup, start, r);
    t := FlightRelays(reached, setup, t, 3, Via(Entry(setup, r, start.now), start.now + 1799));
    t := Reach(reached, setup, t, Tick(14));
    t := ForceOne(reached, setup, t, 4);
    t := TouchOne(reached, setup, t, 4);
    e := t.locals[0];
    t := AskOnce(reached, setup, t, 5, 3);
  }

  lemma RelayPasses(reached: iset<State>, setup: Setup, start: State, r: Record) returns (t: State, e: LocalEntry)
    requires Closed(reached, setup) && start in reached && Start(start) && Defaults(setup) && Faithful(setup)
    requires setup.encode(r).Some?
    ensures t in reached && RepliedFrom(t, e, start.now + 1823)
    ensures e == Relayed(Via(Entry(setup, r, start.now), start.now + 1799), start.now + 1809)
  {
    t := ReadLate(reached, setup, start, r);
    t := Reach(reached, setup, t, Tick(10));
    t := FlightRelays(reached, setup, t, 3, Via(Entry(setup, r, start.now), start.now + 1799));
    e := t.locals[0];
    t := AskOnce(reached, setup, t, 5, 14);
  }

  /** A run whose last reply passes the limit of both tiers, from an entry stored as soon as it was read: a forced touch
      came two seconds before the limit. */
  lemma LateTouchPasses(start: State, setup: Setup, r: Record) returns (events: seq<Event>, e: LocalEntry, at: nat)
    requires Start(start) && Defaults(setup) && Faithful(setup) && setup.encode(r).Some?
    ensures AllHonest(events) && RepliedFrom(After(start, setup, events), e, at)
    ensures e.via.Some? && e.storedAt == e.via.value.gotAt && at > BothTiersLimit(e)
  {
    ReachedIsClosed(start, setup);
    var t: State;
    t, e := TouchPasses(Reached(start, setup), setup, start, r);
    at := start.now + 1816;
    events :| AllHonest(events) && After(start, setup, events) == t;
  }

  /** A run whose last reply passes the limit of both tiers, from an entry no forced refresh touched: the relay took ten
      seconds. */
  lemma SlowRelayPasses(start: State, setup: Setup, r: Record) returns (events: seq<Event>, e: LocalEntry, at: nat)
    requires Start(start) && Defaults(setup) && Faithful(setup) && setup.encode(r).Some?
    ensures AllHonest(events) && RepliedFrom(After(start, setup, events), e, at)
    ensures e.via.Some? && e.touchedAt == None && at > BothTiersLimit(e)
  {
    ReachedIsClosed(start, setup);
    var t: State;
    t, e := RelayPasses(Reached(start, setup), setup, start, r);
    at := start.now + 1823;
    events :| AllHonest(events) && After(start, setup, events) == t;
  }

  // ----- a slow flight -----

  /** A new lookup misses, joins the flight that has its answer, and gets it, all at once. */
  lemma JoinsAndGets(reached: iset<State>, setup: Setup, s: State, c: nat, f: nat, outcome: Outcome) returns (t: State)
    requires Closed(reached, setup) && s in reached && c !in s.lookups && !HasLocal(s, 0)
    requires s.group == map[0 := f] && s.workers == map[f := Worker(0, false, Returned(outcome))]
    ensures t in reached
      && t.replies == s.replies + [Return(c, s.now, Some(Joined(f, s.now)), Given(outcome), s.now)]
  {
    t := BeginsAndMisses(reached, setup, s, c);
    t := Reach(reached, setup, t, OfLookup(c, Join));
    assert t == s.(lookups := s.lookups[c := Waiting(0, s.now, Joined(f, s.now))]);
    t := Reach(reached, setup, t, OfWorker(f, Release));
    t := Reach(reached, setup, t, OfLookup(c, Deliver));
  }

  /** The last reply of a state was joined, given and taken in the second its lookup began, with this evidence. */
  predicate RepliedAtOnce(s: State, evidence: Evidence, at: nat) {
    && s.replies != []
    && var r := s.replies[|s.replies| - 1];
       Answers(r) && EvidenceOf(r) == evidence && r.since == at && r.at == at
         && r.joined.Some? && r.joined.value.at == at
  }

  /** A flight has read Redis in its last second, stored locally in the same second, and returns n seconds later. */
  lemma RedisFlight(reached: iset<State>, setup: Setup, start: State, r: Record, n: nat) returns (t: State)
    requires Closed(reached, setup) && start in reached && Start(start) && Defaults(setup) && Faithful(setup)
    requires setup.encode(r).Some? && n >= 15
    ensures t in reached
      && RepliedAtOnce(t, SeenInRedis(Via(Entry(setup, r, start.now), start.now + 1799)), start.now + 1799 + n)
  {
    var via := Via(Entry(setup, r, start.now), start.now + 1799);
    t := ReadLate(reached, setup, start, r);
    t := FlightStores(reached, setup, t, 3, via);
    t := Reach(reached, setup, t, Tick(n));
    t := JoinsAndGets(reached, setup, t, 4, 3, Answer(Some(r), true, SeenInRedis(via)));
  }

  /** A second flight begins after all, since its lookup had missed before the first one stored. */
  lemma SecondFlight(reached: iset<State>, setup: Setup, s: State, c: nat, f: nat, since: nat) returns (t: State)
    requires Closed(reached, setup) && s in reached && c in s.lookups && s.lookups[c] == Missed(0, since)
    requires s.workers == map[] && s.group == map[] && f !in s.done && HasLocal(s, 0)
    ensures t in reached && t.locals == s.locals && t.now == s.now && t.lookups.Keys == s.lookups.Keys
    ensures t.group == map[0 := f] && t.workers == map[f := Worker(0, false, Returned(AnswerLocally(s, 0)))]
  {
    t := Reach(reached, setup, s, OfLookup(c, Open(f)));
    assert t.workers == map[f := Worker(0, false, Fresh)] && t.group == map[0 := f];
    t := Reach(reached, setup, t, OfWorker(f, Peek));
    assert t.workers == map[f := Worker(0, false, Returned(AnswerLocally(s, 0)))];
  }

  /** The relayed entry is in place, and a lookup that had missed before is about to ask for a flight. */
  lemma MissedBefore(reached: iset<State>, setup: Setup, start: State, r: Record) returns (t: State)
    requires Closed(reached, setup) && start in reached && Start(start) && Defaults(setup) && Faithful(setup)
    requires setup.encode(r).Some?
    ensures t in reached && t.now == start.now + 1799 && t.workers == map[] && t.group == map[]
    ensures t.lookups.Keys == {2, 5} && t.lookups[5] == Missed(0, start.now + 1799) && t.done.Keys == {1, 3}
    ensures 0 in t.locals
      && t.locals[0] == Relayed(Via(Entry(setup, r, start.now), start.now + 1799), start.now + 1799)
  {
    t := ReadLate(reached, setup, start, r);
    t := BeginsAndMisses(reached, setup, t, 5);
    t := FlightRelays(reached, setup, t, 3, Via(Entry(setup, r, start.now), start.now + 1799));
  }

  /** A flight has seen that entry in its last second, and returns n seconds later. */
  lemma LocalFlight(reached: iset<State>, setup: Setup, start: State, r: Record, n: nat) returns (t: State)
    requires Closed(reached, setup) && start in reached && Start(start) && Defaults(setup) && Faithful(setup)
    requires setup.encode(r).Some? && n >= 1
    ensures var e := Relayed(Via(Entry(setup, r, start.now), start.now + 1799), start.now + 1799);
      t in reached && RepliedAtOnce(t, SeenLocally(e, start.now + 1813), start.now + 1813 + n)
  {
    t := MissedBefore(reached, setup, start, r);
    t := Reach(reached, setup, t, Tick(14));
    var answer := AnswerLocally(t, 0);
    t := SecondFlight(reached, setup, t, 5, 6, start.now + 1799);
    t := Reach(reached, setup, t, Tick(n));
    t := JoinsAndGets(reached, setup, t, 7, 6, answer);
  }

  /** For every n from 16 on, a run in which nothing is stored or touched late, and a lookup that begins n seconds after
      a flight read Redis joins it and gets its answer at once, n - 16 seconds past the limit. */
  lemma SlowFlightPasses(start: State, setup: Setup, r: Record, n: nat) returns (events: seq<Event>, evidence: Evidence)
    requires Start(start) && Defaults(setup) && Faithful(setup) && setup.encode(r).Some? && n >= 16
    ensures AllHonest(events) && evidence.SeenInRedis? && RepliedAtOnce(After(start, setup, events), evidence,
      LimitOf(setup, evidence) + (n - 16))
  {
    ReachedIsClosed(start, setup);
    var t := RedisFlight(Reached(start, setup), setup, start, r, n);
    evidence := SeenInRedis(Via(Entry(setup, r, start.now), start.now + 1799));
    events :| AllHonest(events) && After(start, setup, events) == t;
  }

  /** The same from a local entry stored as soon as it was read, and never touched: n - 2 seconds past the limit. */
  lemma SlowPeekPasses(start: State, setup: Setup, r: Record, n: nat) returns (events: seq<Event>, evidence: Evidence)
    requires Start(start) && Defaults(setup) && Faithful(setup) && setup.encode(r).Some? && n >= 2
    ensures AllHonest(events) && evidence.SeenLocally? && !EntryLate(evidence)
    ensures RepliedAtOnce(After(start, setup, events), evidence, LimitOf(setup, evidence) + (n - 2))
  {
    ReachedIsClosed(start, setup);
    var t := LocalFlight(Reached(start, setup), setup, start, r, n);
    var e := Relayed(Via(Entry(setup, r, start.now), start.now + 1799), start.now + 1799);
    evidence := SeenLocally(e, start.now + 1813);
    events :| AllHonest(events) && After(start, setup, events) == t;
  }

  // ----- failing forced refreshes -----

  lemma LoadFails(reached: iset<State>, setup: Setup, s: State, id: nat) returns (t: State)
    requires Closed(reached, setup) && s in reached && s.workers == map[id := Worker(0, true, Loading)]
    ensures t in reached && t.workers == map[] && t.group == s.group && t.lookups == s.lookups
      && t.done.Keys == s.done.Keys + {id}
    ensures t.now == s.now && t.locals == s.locals && t.loads == s.loads
  {
    t := Reach(reached, setup, s, OfWorker(id, Load(Failed)));
    t := ReleaseOne(reached, setup, t, id);
  }

  /** Four seconds after a forced refresh that failed to load, the old local entry is still live. */
  lemma FailedRefresh(reached: iset<State>, setup: Setup, s: State, id: nat) returns (t: State)
    requires Closed(reached, setup) && s in reached && setup.withRedis && Quiet(s) && HasLocal(s, 0) && id !in s.done
    ensures t in reached && Quiet(t) && HasLocal(t, 0) && t.now == s.now + 4 && t.locals[0].stamp == s.locals[0].stamp
    ensures t.loads == s.loads && t.done.Keys == s.done.Keys + {id}
  {
    t := ForceOne(reached, setup, s, id);
    t := TouchOne(reached, setup, t, id);
    t := ExpireOne(reached, setup, t, id);
    t := LoadFails(reached, setup, t, id);
    t := Reach(reached, setup, t, Tick(4));
  }

  lemma {:induction false} Prolonged(reached: iset<State>, setup: Setup, s: State, n: nat, id: nat) returns (t: State)
    requires Closed(reached, setup) && s in reached && setup.withRedis && Quiet(s) && HasLocal(s, 0)
    requires forall d :: d in s.done ==> d < id
    ensures t in reached && Quiet(t) && HasLocal(t, 0) && t.now == s.now + 4 * n
      && t.locals[0].stamp == s.locals[0].stamp
    ensures t.loads == s.loads
    decreases n
  {
    t := s;
    if n > 0 {
      t := FailedRefresh(reached, setup, s, id);
      assert forall d :: d in t.done ==> d in s.done.Keys + {id};
      t := Prolonged(reached, setup, t, n - 1, id + 1);
    }
  }

  /** There is no limit at all: for every n, n forced refreshes that fail to load, four seconds apart, keep a record
      answering 4n seconds after the only load there ever was. */
  lemma {:induction false} StalenessIsUnbounded(start: State, setup: Setup, r: Record, n: nat)
    returns (events: seq<Event>, e: LocalEntry)
    requires Start(start) && Defaults(setup) && Faithful(setup) && setup.encode(r).Some?
    ensures AllHonest(events) && RepliedFrom(After(start, setup, events), e, start.now + 4 * n)
    ensures e.stamp == Stamp(Some(r), start.now) && After(start, setup, events).loads == {e.stamp}
  {
    ReachedIsClosed(start, setup);
    var reached := Reached(start, setup);
    var t := Fill(reached, setup, start, r);
    t := Prolonged(reached, setup, t, n, 2);
    e := t.locals[0];
    t := AskOnce(reached, setup, t, 0, 0);
    events :| AllHonest(events) && After(start, setup, events) == t;
  }
}
