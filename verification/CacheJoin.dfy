/** What joining a flight means for the answer: once a flight has found its answer, everyone who joins it gets that one,
    however long ago it was found; before, everyone gets one found no earlier than the join. */
module CacheJoin {
  import opened CacheFlight
  import opened CacheStale
  import opened Seqs

  // ----- the states of all runs -----

  /** A set of states that honest steps do not leave. */
  ghost predicate Closed(reached: iset<State>, setup: Setup) {
    forall s, event :: s in reached && Honest(event) ==> Next(s, setup, event) in reached
  }

  lemma Reach(reached: iset<State>, setup: Setup, s: State, event: Event) returns (t: State)
    requires Closed(reached, setup) && s in reached && Honest(event)
    ensures t == Next(s, setup, event) && t in reached
  {
    t := Next(s, setup, event);
  }

  ghost function Reached(start: State, setup: Setup): iset<State> {
    iset events: seq<Event> | AllHonest(events) :: After(start, setup, events)
  }

  lemma ReachedIsClosed(start: State, setup: Setup)
    ensures Closed(Reached(start, setup), setup) && start in Reached(start, setup)
  {
    assert AllHonest([]) && After(start, setup, []) == start;
    forall s, event | s in Reached(start, setup) && Honest(event)
      ensures Next(s, setup, event) in Reached(start, setup)
    {
      var events: seq<Event> :| AllHonest(events) && After(start, setup, events) == s;
      assert (events + [event])[..|events|] == events;
      assert AllHonest(events + [event]) && After(start, setup, events + [event]) == Next(s, setup, event);
    }
  }

  // ----- what a flight has found -----

  /** What a worker in this phase will answer with, once that is settled. */
  function Settled(phase: Phase): Option<Evidence> {
    match phase
    case Held(via, _) => Some(SeenInRedis(via))
    case Loaded(stamp, _) => Some(SeenLoaded(stamp))
    case Stored(stamp, _) => Some(SeenLoaded(stamp))
    case Returned(outcome) => if outcome.Answer? then Some(outcome.evidence) else None
    case _ => None
  }

  /** What a flight has found, whether or not it has handed it out. */
  function FoundBy(s: State, f: nat): Option<Evidence> {
    if f in s.workers then Settled(s.workers[f].phase)
    else if f in s.done && s.done[f].outcome.Answer? then Some(s.done[f].outcome.evidence)
    else None
  }

  predicate Known(s: State, f: nat) {
    f in s.workers || f in s.done
  }

  /** What has been found stays found, and what is found from now on is found no earlier than now. */
  predicate FoundFrom(found: Option<Evidence>, later: Option<Evidence>, now: nat) {
    if found.Some? then later == found else later.Some? ==> LookedAt(later.value) >= now
  }

  lemma LookupFinds(s: State, c: nat, l: LookupEvent, f: nat)
    requires Known(s, f)
    ensures var t := LookupNext(s, c, l);
      Known(t, f) && t.now == s.now && FoundFrom(FoundBy(s, f), FoundBy(t, f), s.now)
  {
    LookupFrame(s, c, l);
    var t := LookupNext(s, c, l);
    if l.Open? && t.workers != s.workers {
      assert l.flight !in s.workers && l.flight !in s.done && t.done == s.done;
      assert f != l.flight && (f in t.workers <==> f in s.workers);
    }
  }

  /** A flight's first looks. */
  lemma LooksFind(s: State, setup: Setup, f: nat, ok: bool)
    requires f in s.workers && !Settled(s.workers[f].phase).Some?
    ensures FoundFrom(None, FoundBy(PeekStep(s, f), f), s.now)
    ensures FoundFrom(None, FoundBy(GetStep(s, setup, f, ok), f), s.now)
  {
    FlightMoves(s, setup, f, ok);
    if HasLocal(s, s.workers[f].instance) {
      assert PeekStep(s, f).workers[f].phase == Returned(AnswerLocally(s, s.workers[f].instance));
    }
  }

  lemma LoadFinds(s: State, setup: Setup, f: nat, result: LoadResult, ok: bool)
    requires f in s.workers && !Settled(s.workers[f].phase).Some?
    ensures FoundFrom(None, FoundBy(LoadStep(s, f, result), f), s.now)
    ensures FoundFrom(None, FoundBy(ExpireStep(s, setup, f, ok), f), s.now)
  {
    LoadMoves(s, f, result);
    ForcedMoves(s, setup, f, ok);
  }

  /** A step before anything is found. */
  lemma EarlyFinds(s: State, setup: Setup, f: nat, event: WorkerEvent)
    requires f in s.workers && (event.Peek? || event.GetRedis? || event.Touch? || event.Expire? || event.Load?)
    ensures FoundFrom(FoundBy(s, f), FoundBy(WorkerNext(s, setup, f, event), f), s.now)
  {
    if Settled(s.workers[f].phase).Some? {
      assert WorkerNext(s, setup, f, event) == s;
    } else {
      match event
      case Peek => LooksFind(s, setup, f, true);
      case GetRedis(ok) => LooksFind(s, setup, f, ok);
      case Touch => ForcedMoves(s, setup, f, true);
      case Expire(ok) => LoadFinds(s, setup, f, Failed, ok);
      case Load(result) => LoadFinds(s, setup, f, result, true);
    }
  }

  /** A step after something is found. */
  lemma LateFinds(s: State, setup: Setup, f: nat, event: WorkerEvent)
    requires f in s.workers && (event.Keep? || event.StoreLocal? || event.StoreRedis? || event.Force?)
    ensures FoundBy(WorkerNext(s, setup, f, event), f) == FoundBy(s, f)
  {
    match event
    case Keep =>
      if s.workers[f].phase.Held? {
        StoreMoves(s, setup, f, true);
        assert KeepStep(s, setup, f).workers[f].phase.Returned?;
      }
    case StoreLocal => if s.workers[f].phase.Loaded? { StoreMoves(s, setup, f, true); }
    case StoreRedis(ok) => if s.workers[f].phase.Stored? { StoreMoves(s, setup, f, ok); }
    case Force(_) =>
  }

  lemma ReleaseFinds(s: State, id: nat, f: nat)
    requires id in s.workers && s.workers[id].phase.Returned? && Known(s, f)
    ensures var t := ReleaseStep(s, id); Known(t, f) && t.now == s.now && FoundBy(t, f) == FoundBy(s, f)
  {
  }

  /** A worker's step leaves the others alone. */
  lemma OthersFind(s: State, setup: Setup, id: nat, event: WorkerEvent, f: nat)
    requires Known(s, f) && f != id && !event.Release?
    ensures var t := WorkerNext(s, setup, id, event);
      Known(t, f) && t.now == s.now && FoundBy(t, f) == FoundBy(s, f)
  {
    if id in s.workers {
      WorkerStays(s, setup, id, event);
    }
  }

  lemma WorkerFinds(s: State, setup: Setup, id: nat, event: WorkerEvent, f: nat)
    requires Known(s, f)
    ensures var t := WorkerNext(s, setup, id, event);
      Known(t, f) && t.now == s.now && FoundFrom(FoundBy(s, f), FoundBy(t, f), s.now)
  {
    if event.Release? {
      if id in s.workers && s.workers[id].phase.Returned? {
        ReleaseFinds(s, id, f);
      }
    } else if id != f {
      OthersFind(s, setup, id, event, f);
    } else if f in s.workers {
      WorkerStays(s, setup, f, event);
      if event.Keep? || event.StoreLocal? || event.StoreRedis? || event.Force? {
        LateFinds(s, setup, f, event);
      } else {
        EarlyFinds(s, setup, f, event);
      }
    }
  }

  lemma NextFinds(s: State, setup: Setup, event: Event, f: nat)
    requires Known(s, f)
    ensures var t := Next(s, setup, event);
      Known(t, f) && t.now >= s.now && FoundFrom(FoundBy(s, f), FoundBy(t, f), s.now)
  {
    match event
    case OfLookup(c, l) => LookupFinds(s, c, l, f);
    case OfWorker(id, w) => WorkerFinds(s, setup, id, w, f);
    case _ =>
  }

  lemma {:induction false} RunFinds(s: State, setup: Setup, events: seq<Event>, f: nat)
    requires Known(s, f)
    ensures var t := After(s, setup, events);
      Known(t, f) && t.now >= s.now && FoundFrom(FoundBy(s, f), FoundBy(t, f), s.now)
  {
    if events != [] {
      RunFinds(s, setup, events[..|events| - 1], f);
      NextFinds(After(s, setup, events[..|events| - 1]), setup, events[|events| - 1], f);
    }
  }

  lemma {:induction false} RunKeeps(s: State, setup: Setup, events: seq<Event>)
    requires Inv(s, setup) && GroupGood(s) && Faithful(setup) && AllHonest(events)
    ensures var t := After(s, setup, events); Inv(t, setup) && GroupGood(t)
  {
    if events != [] {
      var before := After(s, setup, events[..|events| - 1]);
      RunKeeps(s, setup, events[..|events| - 1]);
      NextKeeps(before, setup, events[|events| - 1]);
      GroupNext(before, setup, events[|events| - 1]);
    }
  }

  // ----- what a lookup that joins is answered -----

  /** A lookup about to join the flight that is current on its instance. */
  predicate MayJoin(s: State, c: nat) {
    c in s.lookups && s.lookups[c].Missed? && s.lookups[c].instance in s.group
  }

  function FlightFor(s: State, c: nat): nat
    requires MayJoin(s, c)
  {
    s.group[s.lookups[c].instance]
  }

  function JoinedState(s: State, setup: Setup, c: nat): State {
    Next(s, setup, OfLookup(c, Join))
  }

  /** Whatever happens after the join, the answer is what the flight had found at the join, if it had; otherwise it is
      found no earlier than the join. */
  lemma JoinDecides(s: State, setup: Setup, c: nat, events: seq<Event>, k: nat)
    requires Inv(s, setup) && GroupGood(s) && Faithful(setup) && AllHonest(events) && MayJoin(s, c)
    requires k < |After(JoinedState(s, setup, c), setup, events).replies|
    requires var r := After(JoinedState(s, setup, c), setup, events).replies[k];
      r.joined == Some(Joined(FlightFor(s, c), s.now)) && Answers(r)
    ensures var r := After(JoinedState(s, setup, c), setup, events).replies[k];
      FoundFrom(FoundBy(s, FlightFor(s, c)), Some(EvidenceOf(r)), s.now)
  {
    var f, t := FlightFor(s, c), JoinedState(s, setup, c);
    assert InFlight(s, f, s.lookups[c].instance);
    JoinKeeps(s, setup, c);
    GroupNext(s, setup, OfLookup(c, Join));
    assert t == JoinStep(s, c) && FoundBy(t, f) == FoundBy(s, f) && Known(t, f);
    RunFinds(t, setup, events, f);
    RunKeeps(t, setup, events);
    var u := After(t, setup, events);
    assert GoodReturn(u, setup, u.replies[k]);
    assert FoundBy(u, f) == Some(EvidenceOf(u.replies[k]));
  }

  /** In the second state the lookup has a new reply, from the flight it joined in the first, late. */
  predicate AnsweredLate(s: State, u: State, setup: Setup, c: nat, f: nat) {
    exists k :: |s.replies| <= k < |u.replies| && LateReply(setup, u.replies[k], c, Joined(f, s.now))
  }

  predicate LateReply(setup: Setup, r: Return, c: nat, joined: Joined) {
    r.caller == c && r.joined == Some(joined) && Answers(r) && JoinedLate(setup, r)
  }

  /** A flight that has found something takes one more step. */
  lemma Settles(reached: iset<State>, setup: Setup, s: State, f: nat, event: WorkerEvent) returns (t: State)
    requires Closed(reached, setup) && s in reached && f in s.workers && FoundBy(s, f).Some?
    requires match s.workers[f].phase
      case Held(_, _) => event == Keep
      case Loaded(_, _) => event == StoreLocal
      case Stored(_, _) => event == StoreRedis(false)
      case _ => false
    ensures t in reached && t.lookups == s.lookups && t.replies == s.replies && t.now == s.now && t.done == s.done
    ensures f in t.workers && FoundBy(t, f) == FoundBy(s, f)
    ensures if event == StoreLocal then t.workers[f].phase.Stored? else t.workers[f].phase.Returned?
  {
    t := Reach(reached, setup, s, OfWorker(f, event));
    WorkerStays(s, setup, f, event);
    LateFinds(s, setup, f, event);
  }

  /** A flight that has found something can hand it out at once. */
  lemma HandsOut(reached: iset<State>, setup: Setup, s: State, f: nat) returns (t: State)
    requires Closed(reached, setup) && s in reached && f in s.workers && f !in s.done
    requires FoundBy(s, f).Some?
    ensures t in reached && t.lookups == s.lookups && t.replies == s.replies && t.now == s.now
    ensures f in t.done && t.done[f].outcome.Answer? && FoundBy(s, f) == Some(t.done[f].outcome.evidence)
  {
    t := s;
    if t.workers[f].phase.Held? {
      t := Settles(reached, setup, t, f, Keep);
    }
    if t.workers[f].phase.Loaded? {
      t := Settles(reached, setup, t, f, StoreLocal);
    }
    if t.workers[f].phase.Stored? {
      t := Settles(reached, setup, t, f, StoreRedis(false));
    }
    ReleaseFinds(t, f, f);
    t := Reach(reached, setup, t, OfWorker(f, Release));
  }

  lemma CanBeLate(s: State, setup: Setup, c: nat) returns (events: seq<Event>)
    requires Inv(s, setup) && GroupGood(s) && MayJoin(s, c)
    requires var found := FoundBy(s, FlightFor(s, c));
      found.Some? && LookedAt(found.value) < LimitOf(setup, found.value) <= s.now
    ensures AllHonest(events)
      && AnsweredLate(s, After(JoinedState(s, setup, c), setup, events), setup, c, FlightFor(s, c))
  {
    var f, joined := FlightFor(s, c), JoinedState(s, setup, c);
    assert InFlight(s, f, s.lookups[c].instance);
    ReachedIsClosed(joined, setup);
    assert joined == JoinStep(s, c);
    var t := HandsOut(Reached(joined, setup), setup, joined, f);
    var u := Reach(Reached(joined, setup), setup, t, OfLookup(c, Deliver));
    assert u == DeliverStep(t, c);
    assert LateReply(setup, u.replies[|s.replies|], c, Joined(f, s.now));
    events :| AllHonest(events) && After(joined, setup, events) == u;
  }

  /** In every state runs reach: a lookup that joins now can be answered late if and only if the flight has found its
      answer in time, and the limit of that answer has passed. */
  lemma JoinExactly(s: State, setup: Setup, c: nat)
    requires Inv(s, setup) && GroupGood(s) && Faithful(setup) && MayJoin(s, c)
    ensures var f := FlightFor(s, c);
      (exists events :: AllHonest(events)
          && AnsweredLate(s, After(JoinedState(s, setup, c), setup, events), setup, c, f))
      <==> FoundBy(s, f).Some? && LookedAt(FoundBy(s, f).value) < LimitOf(setup, FoundBy(s, f).value) <= s.now
  {
    var f, joined := FlightFor(s, c), JoinedState(s, setup, c);
    var found := FoundBy(s, f);
    if found.Some? && LookedAt(found.value) < LimitOf(setup, found.value) <= s.now {
      var events := CanBeLate(s, setup, c);
    }
    if exists events :: AllHonest(events) && AnsweredLate(s, After(joined, setup, events), setup, c, f) {
      var events :| AllHonest(events) && AnsweredLate(s, After(joined, setup, events), setup, c, f);
      var u := After(joined, setup, events);
      var k :| |s.replies| <= k < |u.replies| && LateReply(setup, u.replies[k], c, Joined(f, s.now));
      JoinDecides(s, setup, c, events, k);
    }
  }

  /** A lookup that takes its flight's answer now is answered past the limit if and only if the limit of that answer has
      passed. */
  lemma DeliverExactly(s: State, setup: Setup, c: nat)
    requires c in s.lookups && s.lookups[c].Waiting? && s.lookups[c].joined.flight in s.done
    requires s.done[s.lookups[c].joined.flight].outcome.Answer?
    ensures var t := Next(s, setup, OfLookup(c, Deliver));
      var evidence := s.done[s.lookups[c].joined.flight].outcome.evidence;
      && |t.replies| == |s.replies| + 1 && Answers(t.replies[|s.replies|])
      && EvidenceOf(t.replies[|s.replies|]) == evidence
      && (Past(setup, t.replies[|s.replies|]) <==> s.now >= LimitOf(setup, evidence))
  {
    assert Next(s, setup, OfLookup(c, Deliver)) == DeliverStep(s, c);
  }
}
