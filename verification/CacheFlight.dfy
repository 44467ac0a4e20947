/** The two-tier cache with shared loads, for one key, over every interleaving of its steps.

  Instances keep a local entry each and share one Redis entry. Lookups that miss join one flight per instance;
  forced refreshes work alone. `Next` is one atomic step; entries carry stamps saying where their record came from
  and when, and replies say when their lookup began, joined a flight and was answered. */
module CacheFlight {
  import opened CacheTtl
  import opened Seqs

  /** A record, known by its contents. */
  type Record = string

  /** `encode` may fail; decoding may fail, and gives no record for the text of a missing one. */
  datatype Setup = Setup(
    localTtl: nat, redisTtl: nat, missingLocalTtl: nat, missingRedisTtl: nat, withRedis: bool,
    encode: Record -> Option<string>, decode: string -> Option<Option<Record>>)

  /** Decoding undoes encoding, and `null` is the missing record. */
  ghost predicate Faithful(setup: Setup) {
    setup.decode("null") == Some(None)
    && forall r :: setup.encode(r).Some? ==> setup.decode(setup.encode(r).value) == Some(Some(r))
  }

  function LocalTtl(setup: Setup, found: bool): nat {
    if found then setup.localTtl else setup.missingLocalTtl
  }

  function RedisTtl(setup: Setup, found: bool): nat {
    if found then setup.redisTtl else setup.missingRedisTtl
  }

  // ----- what is cached, and where it came from -----

  /** A successful load: what it answered and when. */
  datatype Stamp = Stamp(record: Option<Record>, loadedAt: nat)

  /** `touchedAt` is the last time a forced refresh reset the expiry, if any did since the store. */
  datatype RedisEntry = RedisEntry(text: string, stamp: Stamp, storedAt: nat, ttl: nat, touchedAt: Option<nat>)

  /** A read of a live Redis entry. */
  datatype Via = Via(entry: RedisEntry, gotAt: nat)

  datatype LocalEntry = LocalEntry(stamp: Stamp, via: Option<Via>, storedAt: nat, ttl: nat, touchedAt: Option<nat>)

  function RedisExpiry(e: RedisEntry): nat {
    if e.touchedAt.Some? then e.touchedAt.value + EXPIRE_SECONDS else e.storedAt + e.ttl
  }

  function LocalExpiry(e: LocalEntry): nat {
    if e.touchedAt.Some? then e.touchedAt.value + TOUCH_SECONDS else e.storedAt + e.ttl
  }

  datatype Evidence = SeenLocally(entry: LocalEntry, at: nat) | SeenInRedis(via: Via) | SeenLoaded(stamp: Stamp)

  datatype Outcome = Answer(record: Option<Record>, found: bool, evidence: Evidence) | Error

  datatype Phase =
    | Fresh
    | LocalMissed
    | Held(via: Via, record: Option<Record>)
    | Touched
    | Loading
    | Loaded(stamp: Stamp, found: bool)
    | Stored(stamp: Stamp, found: bool)
    | Returned(outcome: Outcome)

  /** A forced refresh, or the flight of a shared lookup. */
  datatype Worker = Worker(instance: nat, forced: bool, phase: Phase)

  /** The result of a flight or forced refresh, and when it was handed out. */
  datatype Done = Done(outcome: Outcome, at: nat)

  /** The flight a lookup waits for, and when it joined. */
  datatype Joined = Joined(flight: nat, at: nat)

  /** `since` is when the lookup began. */
  datatype Lookup =
    | Begun(instance: nat, since: nat)
    | Missed(instance: nat, since: nat)
    | Waiting(instance: nat, since: nat, joined: Joined)

  datatype Reply = Given(outcome: Outcome) | Cancelled

  /** A lookup's reply, when the lookup began and joined, and when it was replied to. */
  datatype Return = Return(caller: nat, since: nat, joined: Option<Joined>, reply: Reply, at: nat)

  /** `group` is the single-flight group: the flight each instance is waiting for, if any. `loads`, `done` and
      `replies` only record what happened: successful loads, results of flights and of forced refreshes, and replies to
      lookups. */
  datatype State = State(
    now: nat, redis: Option<RedisEntry>, locals: map<nat, LocalEntry>,
    workers: map<nat, Worker>, group: map<nat, nat>, lookups: map<nat, Lookup>,
    loads: set<Stamp>, done: map<nat, Done>, replies: seq<Return>)

  predicate Start(s: State) {
    s.redis == None && s.locals == map[] && s.workers == map[] && s.group == map[] && s.lookups == map[]
    && s.loads == {} && s.done == map[] && s.replies == []
  }

  /** What a load returns: a record that may be nil, and whether it exists; or an error. */
  datatype LoadResult = Got(record: Option<Record>, found: bool) | Failed

  /** The contract of a load: what exists has a record. The record of what does not exist is never looked at. */
  predicate Meets(result: LoadResult) {
    result.Got? && result.found ==> result.record.Some?
  }

  datatype LookupEvent =
    | Begin(instance: nat)
    | CheckLocal
    | Join
    | Open(flight: nat)
    | Deliver
    | Cancel

  /** `Peek`, `GetRedis` and `Keep` belong to flights, `Force`, `Touch` and `Expire` to forced refreshes, the rest to
      both. `Release` hands a result out; for a flight it also frees the group. */
  datatype WorkerEvent =
    | Peek
    | GetRedis(ok: bool)
    | Keep
    | Force(instance: nat)
    | Touch
    | Expire(ok: bool)
    | Load(result: LoadResult)
    | StoreLocal
    | StoreRedis(ok: bool)
    | Release

  datatype Event =
    | Tick(seconds: nat)
    | LoseRedis
    | LoseLocal(instance: nat)
    | OfLookup(caller: nat, l: LookupEvent)
    | OfWorker(worker: nat, w: WorkerEvent)

  // ----- the steps -----

  predicate HasLocal(s: State, instance: nat) {
    instance in s.locals && s.now < LocalExpiry(s.locals[instance])
  }

  predicate HasRedis(s: State) {
    s.redis.Some? && s.now < RedisExpiry(s.redis.value)
  }

  function AnswerLocally(s: State, instance: nat): Outcome
    requires instance in s.locals
  {
    var e := s.locals[instance];
    Answer(e.stamp.record, e.stamp.record.Some?, SeenLocally(e, s.now))
  }

  function Move(s: State, id: nat, phase: Phase): State
    requires id in s.workers
  {
    s.(workers := s.workers[id := s.workers[id].(phase := phase)])
  }

  function Finish(s: State, id: nat, outcome: Outcome): State
    requires id in s.workers
  {
    Move(s, id, Returned(outcome))
  }

  function ReleaseStep(s: State, id: nat): State
    requires id in s.workers && s.workers[id].phase.Returned?
  {
    var Worker(i, forced, Returned(outcome)) := s.workers[id];
    s.(workers := s.workers - {id}, done := s.done[id := Done(outcome, s.now)],
       group := if forced then s.group else s.group - {i})
  }

  function WaitedFor(l: Lookup): Option<Joined> {
    if l.Waiting? then Some(l.joined) else None
  }

  function ReturnOf(s: State, caller: nat, reply: Reply): Return
    requires caller in s.lookups
  {
    Return(caller, s.lookups[caller].since, WaitedFor(s.lookups[caller]), reply, s.now)
  }

  function ReplyTo(s: State, caller: nat, reply: Reply): State
    requires caller in s.lookups
  {
    s.(lookups := s.lookups - {caller}, replies := s.replies + [ReturnOf(s, caller, reply)])
  }

  function CheckStep(s: State, caller: nat): State
    requires caller in s.lookups
  {
    var i := s.lookups[caller].instance;
    if HasLocal(s, i) then ReplyTo(s, caller, Given(AnswerLocally(s, i)))
    else s.(lookups := s.lookups[caller := Missed(i, s.lookups[caller].since)])
  }

  /** Joins the flight under way, if there is one. */
  function JoinStep(s: State, caller: nat): State
    requires caller in s.lookups
  {
    var l := s.lookups[caller];
    if l.instance !in s.group then s
    else s.(lookups := s.lookups[caller := Waiting(l.instance, l.since, Joined(s.group[l.instance], s.now))])
  }

  /** Creates a flight when the group has none for the instance. */
  function OpenStep(s: State, caller: nat, flight: nat): State
    requires caller in s.lookups
  {
    var l := s.lookups[caller];
    if l.instance !in s.group && flight !in s.workers && flight !in s.done
    then s.(lookups := s.lookups[caller := Waiting(l.instance, l.since, Joined(flight, s.now))],
            group := s.group[l.instance := flight], workers := s.workers[flight := Worker(l.instance, false, Fresh)])
    else s
  }

  function DeliverStep(s: State, caller: nat): State
    requires caller in s.lookups && s.lookups[caller].Waiting?
  {
    var f := s.lookups[caller].joined.flight;
    if f in s.done then ReplyTo(s, caller, Given(s.done[f].outcome)) else s
  }

  function PeekStep(s: State, id: nat): State
    requires id in s.workers
  {
    var i := s.workers[id].instance;
    if HasLocal(s, i) then Finish(s, id, AnswerLocally(s, i)) else Move(s, id, LocalMissed)
  }

  function GetStep(s: State, setup: Setup, id: nat, ok: bool): State
    requires id in s.workers
  {
    if setup.withRedis && ok && HasRedis(s) && setup.decode(s.redis.value.text).Some?
    then Move(s, id, Held(Via(s.redis.value, s.now), setup.decode(s.redis.value.text).value))
    else Move(s, id, Loading)
  }

  /** A forced touch gives a live local entry five seconds. */
  function TouchLocal(s: State, i: nat): State {
    if HasLocal(s, i) then s.(locals := s.locals[i := s.locals[i].(touchedAt := Some(s.now))]) else s
  }

  /** A forced expiry gives a live Redis entry sixty seconds; a missing one is no error. */
  function ExpireRedis(s: State): State {
    if HasRedis(s) then s.(redis := Some(s.redis.value.(touchedAt := Some(s.now)))) else s
  }

  function SetLocal(s: State, setup: Setup, i: nat, stamp: Stamp, found: bool, via: Option<Via>): State {
    s.(locals := s.locals[i := LocalEntry(stamp, via, s.now, LocalTtl(setup, found), None)])
  }

  function KeepStep(s: State, setup: Setup, id: nat): State
    requires id in s.workers && s.workers[id].phase.Held?
  {
    var Worker(i, _, Held(via, record)) := s.workers[id];
    Finish(SetLocal(s, setup, i, Stamp(record, via.entry.stamp.loadedAt), record.Some?, Some(via)), id,
           Answer(record, record.Some?, SeenInRedis(via)))
  }

  function ExpireStep(s: State, setup: Setup, id: nat, ok: bool): State
    requires id in s.workers
  {
    if !setup.withRedis then Move(s, id, Loading)
    else if !ok then Finish(s, id, Error)
    else Move(ExpireRedis(s), id, Loading)
  }

  /** The record of what does not exist is dropped. */
  function LoadStep(s: State, id: nat, result: LoadResult): State
    requires id in s.workers
  {
    if result.Failed? then Finish(s, id, Error)
    else
      var stamp := Stamp(if result.found then result.record else None, s.now);
      Move(s, id, Loaded(stamp, result.found)).(loads := s.loads + {stamp})
  }

  function StoreLocalStep(s: State, setup: Setup, id: nat): State
    requires id in s.workers && s.workers[id].phase.Loaded?
  {
    var Worker(i, _, Loaded(stamp, found)) := s.workers[id];
    Move(SetLocal(s, setup, i, stamp, found, None), id, Stored(stamp, found))
  }

  /** The text Redis is given, unless the record does not encode. */
  function TextOf(setup: Setup, record: Option<Record>): Option<string> {
    if record.None? then Some("null") else setup.encode(record.value)
  }

  function StoreRedisStep(s: State, setup: Setup, id: nat, ok: bool): State
    requires id in s.workers && s.workers[id].phase.Stored?
  {
    var Stored(stamp, found) := s.workers[id].phase;
    var text := TextOf(setup, stamp.record);
    var finished := Finish(s, id, Answer(stamp.record, found, SeenLoaded(stamp)));
    if setup.withRedis && ok && text.Some?
    then finished.(redis := Some(RedisEntry(text.value, stamp, s.now, RedisTtl(setup, found), None)))
    else finished
  }

  function LookupNext(s: State, c: nat, event: LookupEvent): State {
    if c !in s.lookups then (if event.Begin? then s.(lookups := s.lookups[c := Begun(event.instance, s.now)]) else s)
    else
      var l := s.lookups[c];
      match event
      case Begin(_) => s
      case CheckLocal => if l.Begun? then CheckStep(s, c) else s
      case Join => if l.Missed? then JoinStep(s, c) else s
      case Open(f) => if l.Missed? then OpenStep(s, c, f) else s
      case Deliver => if l.Waiting? then DeliverStep(s, c) else s
      case Cancel => ReplyTo(s, c, Cancelled)
  }

  function WorkerNext(s: State, setup: Setup, id: nat, event: WorkerEvent): State {
    if id !in s.workers then
      if event.Force? && id !in s.done then s.(workers := s.workers[id := Worker(event.instance, true, Fresh)]) else s
    else
      var Worker(i, forced, phase) := s.workers[id];
      match event
      case Peek => if !forced && phase.Fresh? then PeekStep(s, id) else s
      case GetRedis(ok) => if phase.LocalMissed? then GetStep(s, setup, id, ok) else s
      case Keep => if phase.Held? then KeepStep(s, setup, id) else s
      case Force(_) => s
      case Touch => if forced && phase.Fresh? then Move(TouchLocal(s, i), id, Touched) else s
      case Expire(ok) => if phase.Touched? then ExpireStep(s, setup, id, ok) else s
      case Load(result) => if phase.Loading? then LoadStep(s, id, result) else s
      case StoreLocal => if phase.Loaded? then StoreLocalStep(s, setup, id) else s
      case StoreRedis(ok) => if phase.Stored? then StoreRedisStep(s, setup, id, ok) else s
      case Release => if phase.Returned? then ReleaseStep(s, id) else s
  }

  /** One atomic step; an event that cannot happen changes nothing. */
  function Next(s: State, setup: Setup, event: Event): State {
    match event
    case Tick(seconds) => s.(now := s.now + seconds)
    case LoseRedis => s.(redis := None)
    case LoseLocal(i) => s.(locals := s.locals - {i})
    case OfLookup(c, l) => LookupNext(s, c, l)
    case OfWorker(id, w) => WorkerNext(s, setup, id, w)
  }

  function After(s: State, setup: Setup, events: seq<Event>): State {
    if events == [] then s else Next(After(s, setup, events[..|events| - 1]), setup, events[|events| - 1])
  }

  // ----- one flight at a time -----

  /** A flight of the instance, under way. */
  predicate InFlight(s: State, flight: nat, instance: nat) {
    flight in s.workers && !s.workers[flight].forced && s.workers[flight].instance == instance
  }

  /** The group holds the flights under way, each for its instance. */
  ghost predicate GroupGood(s: State) {
    && (forall w, i :: InFlight(s, w, i) ==> i in s.group && s.group[i] == w)
    && (forall i :: i in s.group ==> InFlight(s, s.group[i], i))
  }

  /** One worker moves to another phase; the workers, the group and what is done stay otherwise the same. */
  predicate OnlyMoves(s: State, t: State, id: nat) {
    && id in s.workers && id in t.workers && t.now == s.now && t.group == s.group && t.done == s.done
    && t.workers == s.workers[id := s.workers[id].(phase := t.workers[id].phase)]
  }

  lemma FlightMoves(s: State, setup: Setup, id: nat, ok: bool)
    requires id in s.workers
    ensures OnlyMoves(s, PeekStep(s, id), id) && OnlyMoves(s, GetStep(s, setup, id, ok), id)
  {
  }

  lemma ForcedFrame(s: State, i: nat)
    ensures TouchLocal(s, i) == s.(locals := TouchLocal(s, i).locals)
    ensures ExpireRedis(s) == s.(redis := ExpireRedis(s).redis)
  {
  }

  lemma ForcedMoves(s: State, setup: Setup, id: nat, ok: bool)
    requires id in s.workers
    ensures OnlyMoves(s, Move(TouchLocal(s, s.workers[id].instance), id, Touched), id)
    ensures OnlyMoves(s, ExpireStep(s, setup, id, ok), id)
  {
    ForcedFrame(s, s.workers[id].instance);
  }

  lemma LoadMoves(s: State, id: nat, result: LoadResult)
    requires id in s.workers
    ensures OnlyMoves(s, LoadStep(s, id, result), id)
  {
  }

  lemma StoreMoves(s: State, setup: Setup, id: nat, ok: bool)
    requires id in s.workers
    ensures s.workers[id].phase.Held? ==> OnlyMoves(s, KeepStep(s, setup, id), id)
    ensures s.workers[id].phase.Loaded? ==> OnlyMoves(s, StoreLocalStep(s, setup, id), id)
    ensures s.workers[id].phase.Stored? ==> OnlyMoves(s, StoreRedisStep(s, setup, id, ok), id)
  {
  }

  /** All that a worker's step does to the workers, unless it begins or ends one. */
  lemma WorkerStays(s: State, setup: Setup, id: nat, event: WorkerEvent)
    requires id in s.workers && !event.Release?
    ensures OnlyMoves(s, WorkerNext(s, setup, id, event), id)
  {
    match event
    case Peek => FlightMoves(s, setup, id, true);
    case GetRedis(ok) => FlightMoves(s, setup, id, ok);
    case Keep => StoreMoves(s, setup, id, true);
    case Touch => ForcedMoves(s, setup, id, true);
    case Expire(ok) => ForcedMoves(s, setup, id, ok);
    case Load(result) => LoadMoves(s, id, result);
    case StoreLocal => StoreMoves(s, setup, id, true);
    case StoreRedis(ok) => StoreMoves(s, setup, id, ok);
    case Force(_) =>
  }

  /** A result is handed out, and the group is free again. */
  lemma ReleaseFrees(s: State, id: nat)
    requires GroupGood(s) && id in s.workers && s.workers[id].phase.Returned?
    ensures var t, Worker(i, forced, Returned(outcome)) := ReleaseStep(s, id), s.workers[id];
      && GroupGood(t) && id in t.done && t.done[id] == Done(outcome, s.now) && id !in t.workers
      && (!forced ==> i in s.group && s.group[i] == id && i !in t.group)
  {
    var t := ReleaseStep(s, id);
    assert InFlight(s, id, s.workers[id].instance) <==> !s.workers[id].forced;
    assert forall v, i :: InFlight(t, v, i) <==> InFlight(s, v, i) && v != id;
  }

  /** Where the instance has no flight, one begins and becomes current, and the lookup waits for it. */
  lemma OpenMakesCurrent(s: State, c: nat, f: nat)
    requires GroupGood(s) && c in s.lookups
    ensures var t, i := OpenStep(s, c, f), s.lookups[c].instance;
      && GroupGood(t)
      && (i !in s.group && f !in s.workers && f !in s.done ==>
            i in t.group && t.group[i] == f && InFlight(t, f, i) && WaitedFor(t.lookups[c]) == Some(Joined(f, s.now)))
  {
    var t, i := OpenStep(s, c, f), s.lookups[c].instance;
    if i !in s.group && f !in s.workers && f !in s.done {
      assert forall v, j :: InFlight(t, v, j) <==> InFlight(s, v, j) || (v == f && j == i);
    }
  }

  lemma GroupStays(s: State, t: State)
    requires GroupGood(s) && t.group == s.group && (t.workers == s.workers || exists id :: OnlyMoves(s, t, id))
    ensures GroupGood(t)
  {
    assert forall v, i :: InFlight(t, v, i) == InFlight(s, v, i);
  }

  lemma ForceStays(s: State, id: nat, instance: nat)
    requires GroupGood(s) && id !in s.workers
    ensures GroupGood(s.(workers := s.workers[id := Worker(instance, true, Fresh)]))
  {
    var t := s.(workers := s.workers[id := Worker(instance, true, Fresh)]);
    assert forall v, i :: InFlight(t, v, i) == InFlight(s, v, i);
  }

  lemma GroupWorker(s: State, setup: Setup, id: nat, event: WorkerEvent)
    requires GroupGood(s)
    ensures GroupGood(WorkerNext(s, setup, id, event))
  {
    if id !in s.workers {
      if event.Force? && id !in s.done {
        ForceStays(s, id, event.instance);
      }
    } else if !event.Release? {
      WorkerStays(s, setup, id, event);
      GroupStays(s, WorkerNext(s, setup, id, event));
    } else if s.workers[id].phase.Returned? {
      ReleaseFrees(s, id);
    }
  }

  /** Of a lookup's steps only opening a flight concerns the workers, and none concerns the caches. */
  lemma LookupFrame(s: State, c: nat, event: LookupEvent)
    ensures var t := LookupNext(s, c, event);
      && t == s.(lookups := t.lookups, replies := t.replies, workers := t.workers, group := t.group)
      && (!event.Open? ==> t.workers == s.workers && t.group == s.group)
  {
  }

  lemma GroupLookup(s: State, c: nat, event: LookupEvent)
    requires GroupGood(s)
    ensures GroupGood(LookupNext(s, c, event))
  {
    LookupFrame(s, c, event);
    if !event.Open? {
      GroupStays(s, LookupNext(s, c, event));
    } else if c in s.lookups && s.lookups[c].Missed? {
      OpenMakesCurrent(s, c, event.flight);
    } else {
      GroupStays(s, LookupNext(s, c, event));
    }
  }

  lemma GroupNext(s: State, setup: Setup, event: Event)
    requires GroupGood(s)
    ensures GroupGood(Next(s, setup, event))
  {
    match event
    case OfLookup(c, l) => GroupLookup(s, c, l);
    case OfWorker(id, w) => GroupWorker(s, setup, id, w);
    case _ => GroupStays(s, Next(s, setup, event));
  }

  lemma {:induction false} GroupAlways(start: State, setup: Setup, events: seq<Event>)
    requires Start(start)
    ensures GroupGood(After(start, setup, events))
  {
    if events != [] {
      GroupAlways(start, setup, events[..|events| - 1]);
      GroupNext(After(start, setup, events[..|events| - 1]), setup, events[|events| - 1]);
    }
  }

  /** At most one shared lookup of an instance is under way, so at most one is loading. */
  lemma OneFlight(start: State, setup: Setup, events: seq<Event>, v: nat, w: nat)
    requires Start(start)
    ensures var workers := After(start, setup, events).workers;
      v in workers && w in workers && !workers[v].forced && !workers[w].forced
        && workers[v].instance == workers[w].instance
      ==> v == w
  {
    GroupAlways(start, setup, events);
    var s := After(start, setup, events);
    if v in s.workers && !s.workers[v].forced {
      assert InFlight(s, v, s.workers[v].instance);
    }
    if w in s.workers && !s.workers[w].forced {
      assert InFlight(s, w, s.workers[w].instance);
    }
  }

  // ----- what every step keeps -----

  predicate GoodStamp(loads: set<Stamp>, now: nat, stamp: Stamp) {
    stamp in loads && stamp.loadedAt <= now
  }

  predicate GoodRedis(loads: set<Stamp>, now: nat, setup: Setup, e: RedisEntry) {
    && GoodStamp(loads, now, e.stamp) && e.stamp.loadedAt <= e.storedAt <= now
    && (e.touchedAt.Some? ==> e.storedAt <= e.touchedAt.value <= now)
    && setup.decode(e.text) == Some(e.stamp.record) && e.ttl == RedisTtl(setup, e.stamp.record.Some?)
  }

  /** The entry was live when it was read. */
  predicate GoodVia(loads: set<Stamp>, now: nat, setup: Setup, v: Via) {
    GoodRedis(loads, now, setup, v.entry) && v.entry.storedAt <= v.gotAt < RedisExpiry(v.entry) && v.gotAt <= now
  }

  predicate GoodLocal(loads: set<Stamp>, now: nat, setup: Setup, e: LocalEntry) {
    && GoodStamp(loads, now, e.stamp) && e.stamp.loadedAt <= e.storedAt <= now
    && (e.touchedAt.Some? ==> e.storedAt <= e.touchedAt.value <= now)
    && e.ttl == LocalTtl(setup, e.stamp.record.Some?)
    && (e.via.Some? ==>
          GoodVia(loads, now, setup, e.via.value) && e.via.value.entry.stamp == e.stamp
            && e.via.value.gotAt <= e.storedAt)
  }

  /** When an answer was found: in the local cache, in Redis, or by the load. */
  function LookedAt(evidence: Evidence): nat {
    match evidence
    case SeenLocally(_, at) => at
    case SeenInRedis(via) => via.gotAt
    case SeenLoaded(stamp) => stamp.loadedAt
  }

  function StampOf(evidence: Evidence): Stamp {
    match evidence
    case SeenLocally(entry, _) => entry.stamp
    case SeenInRedis(via) => via.entry.stamp
    case SeenLoaded(stamp) => stamp
  }

  predicate GoodEvidence(loads: set<Stamp>, now: nat, setup: Setup, evidence: Evidence) {
    match evidence
    case SeenLocally(entry, at) => GoodLocal(loads, now, setup, entry) && entry.storedAt <= at < LocalExpiry(entry)
      && at <= now
    case SeenInRedis(via) => GoodVia(loads, now, setup, via)
    case SeenLoaded(stamp) => GoodStamp(loads, now, stamp)
  }

  predicate GoodOutcome(loads: set<Stamp>, now: nat, setup: Setup, outcome: Outcome) {
    outcome.Answer? ==>
      && (outcome.found <==> outcome.record.Some?)
      && outcome.record == StampOf(outcome.evidence).record
      && GoodEvidence(loads, now, setup, outcome.evidence)
  }

  predicate GoodPhase(loads: set<Stamp>, now: nat, setup: Setup, phase: Phase) {
    match phase
    case Held(via, record) => GoodVia(loads, now, setup, via) && record == via.entry.stamp.record
    case Loaded(stamp, found) => GoodStamp(loads, now, stamp) && (found <==> stamp.record.Some?)
    case Stored(stamp, found) => GoodStamp(loads, now, stamp) && (found <==> stamp.record.Some?)
    case Returned(outcome) => GoodOutcome(loads, now, setup, outcome)
    case _ => true
  }

  /** The flight a lookup waits for is under way, or was handed out after the lookup joined. */
  predicate GoodLookup(s: State, l: Lookup) {
    && l.since <= s.now
    && (l.Waiting? ==>
          && l.since <= l.joined.at <= s.now
          && (if l.joined.flight in s.done then l.joined.at <= s.done[l.joined.flight].at
              else InFlight(s, l.joined.flight, l.instance)))
  }

  predicate FromFlight(s: State, r: Return, joined: Joined)
    requires r.reply.Given?
  {
    && joined.flight in s.done && r.reply.outcome == s.done[joined.flight].outcome
    && joined.at <= s.done[joined.flight].at <= r.at
  }

  predicate SeenAt(evidence: Evidence, at: nat) {
    evidence.SeenLocally? && evidence.at == at
  }

  /** A reply is the flight's result, handed out between the join and the reply, or an entry seen just then without a
      flight, or the caller's own cancellation. */
  predicate GoodReturn(s: State, setup: Setup, r: Return) {
    && r.since <= r.at <= s.now
    && (r.joined.Some? ==> r.since <= r.joined.value.at <= r.at)
    && (r.reply.Given? ==>
          && GoodOutcome(s.loads, r.at, setup, r.reply.outcome)
          && (if r.joined.Some? then FromFlight(s, r, r.joined.value)
              else r.reply.outcome.Answer? && SeenAt(r.reply.outcome.evidence, r.at)))
  }

  ghost predicate CachesGood(s: State, setup: Setup) {
    && (s.redis.Some? ==> GoodRedis(s.loads, s.now, setup, s.redis.value))
    && (forall i :: i in s.locals ==> GoodLocal(s.loads, s.now, setup, s.locals[i]))
  }

  predicate GoodDone(s: State, setup: Setup, d: Done) {
    d.at <= s.now && GoodOutcome(s.loads, d.at, setup, d.outcome)
  }

  ghost predicate WorkersGood(s: State, setup: Setup) {
    && (forall w :: w in s.workers ==> GoodPhase(s.loads, s.now, setup, s.workers[w].phase) && w !in s.done)
    && (forall w :: w in s.done ==> GoodDone(s, setup, s.done[w]))
  }

  ghost predicate LookupsGood(s: State, setup: Setup) {
    && (forall c :: c in s.lookups ==> GoodLookup(s, s.lookups[c]))
    && (forall k :: 0 <= k < |s.replies| ==> GoodReturn(s, setup, s.replies[k]))
  }

  ghost predicate Inv(s: State, setup: Setup) {
    CachesGood(s, setup) && WorkersGood(s, setup) && LookupsGood(s, setup)
  }

  lemma Later(loads: set<Stamp>, now: nat, more: set<Stamp>, later: nat, setup: Setup)
    requires loads <= more && now <= later
    ensures forall e :: GoodRedis(loads, now, setup, e) ==> GoodRedis(more, later, setup, e)
    ensures forall e :: GoodLocal(loads, now, setup, e) ==> GoodLocal(more, later, setup, e)
    ensures forall o :: GoodOutcome(loads, now, setup, o) ==> GoodOutcome(more, later, setup, o)
    ensures forall p :: GoodPhase(loads, now, setup, p) ==> GoodPhase(more, later, setup, p)
  {
  }

  lemma LaterKeeps(s: State, setup: Setup, more: set<Stamp>, later: nat)
    requires Inv(s, setup) && s.loads <= more && s.now <= later
    ensures Inv(s.(loads := more, now := later), setup)
  {
    Later(s.loads, s.now, more, later, setup);
    var t := s.(loads := more, now := later);
    assert forall v, i :: InFlight(t, v, i) == InFlight(s, v, i);
    forall w | w in t.done ensures GoodDone(t, setup, t.done[w]) {
      assert GoodDone(s, setup, s.done[w]);
      Later(s.loads, s.done[w].at, more, s.done[w].at, setup);
    }
    assert LookupsGood(t, setup) by {
      forall k | 0 <= k < |t.replies| ensures GoodReturn(t, setup, t.replies[k]) {
        assert GoodReturn(s, setup, s.replies[k]);
        Later(s.loads, s.replies[k].at, more, s.replies[k].at, setup);
      }
      forall c | c in t.lookups ensures GoodLookup(t, t.lookups[c]) {
        assert GoodLookup(s, s.lookups[c]);
      }
    }
  }

  /** A worker moves to another phase. */
  lemma MoveKeeps(s: State, setup: Setup, id: nat, phase: Phase)
    requires Inv(s, setup) && id in s.workers && GoodPhase(s.loads, s.now, setup, phase)
    ensures Inv(Move(s, id, phase), setup)
  {
    var t := Move(s, id, phase);
    assert forall v, i :: InFlight(t, v, i) == InFlight(s, v, i);
    assert LookupsGood(t, setup) by {
      forall c | c in t.lookups ensures GoodLookup(t, t.lookups[c]) {
        assert GoodLookup(s, s.lookups[c]);
      }
      forall k | 0 <= k < |t.replies| ensures GoodReturn(t, setup, t.replies[k]) {
        assert GoodReturn(s, setup, s.replies[k]);
      }
    }
  }

  /** A worker returns a result. */
  lemma FinishKeeps(s: State, setup: Setup, id: nat, outcome: Outcome)
    requires Inv(s, setup) && id in s.workers && GoodOutcome(s.loads, s.now, setup, outcome)
    ensures Inv(Finish(s, id, outcome), setup)
  {
    MoveKeeps(s, setup, id, Returned(outcome));
  }

  /** Once the workers' side stands, the lookups' side follows when nothing done is forgotten and no flight vanishes. */
  lemma LookupsStay(s: State, setup: Setup, t: State)
    requires LookupsGood(s, setup) && t.lookups == s.lookups && t.replies == s.replies && t.loads == s.loads
      && t.now == s.now
    requires forall w :: w in s.done ==> w in t.done && t.done[w] == s.done[w]
    requires forall w, i :: InFlight(s, w, i) && w !in s.done ==>
      if w in t.done then t.done[w].at == s.now else InFlight(t, w, i)
    ensures LookupsGood(t, setup)
  {
    forall c | c in t.lookups ensures GoodLookup(t, t.lookups[c]) {
      assert GoodLookup(s, s.lookups[c]);
    }
    forall k | 0 <= k < |t.replies| ensures GoodReturn(t, setup, t.replies[k]) {
      assert GoodReturn(s, setup, s.replies[k]);
    }
  }

  lemma ReleaseKeeps(s: State, setup: Setup, id: nat)
    requires Inv(s, setup) && id in s.workers && s.workers[id].phase.Returned?
    ensures Inv(ReleaseStep(s, id), setup)
  {
    var t := ReleaseStep(s, id);
    assert GoodPhase(s.loads, s.now, setup, s.workers[id].phase);
    assert forall v, i :: InFlight(t, v, i) <==> InFlight(s, v, i) && v != id;
    assert GoodDone(t, setup, t.done[id]);
    forall w | w in t.done ensures GoodDone(t, setup, t.done[w]) {
      assert w != id ==> GoodDone(s, setup, s.done[w]);
    }
    LookupsStay(s, setup, t);
  }

  /** Only the caches change. */
  lemma CachesKeep(s: State, setup: Setup, t: State)
    requires Inv(s, setup) && CachesGood(t, setup)
    requires t == s.(redis := t.redis, locals := t.locals)
    ensures Inv(t, setup)
  {
    assert forall v, i :: InFlight(t, v, i) == InFlight(s, v, i);
    assert LookupsGood(t, setup) by {
      forall k | 0 <= k < |t.replies| ensures GoodReturn(t, setup, t.replies[k]) {
        assert GoodReturn(s, setup, s.replies[k]);
      }
    }
  }

  /** A caller gets its reply. */
  lemma ReplyKeeps(s: State, setup: Setup, caller: nat, reply: Reply)
    requires Inv(s, setup) && caller in s.lookups && GoodReturn(s, setup, ReturnOf(s, caller, reply))
    ensures Inv(ReplyTo(s, caller, reply), setup)
  {
    var t := ReplyTo(s, caller, reply);
    assert forall v, i :: InFlight(t, v, i) == InFlight(s, v, i);
    assert LookupsGood(t, setup) by {
      forall k | 0 <= k < |t.replies| ensures GoodReturn(t, setup, t.replies[k]) {
        assert k < |s.replies| ==> GoodReturn(s, setup, s.replies[k]);
      }
      forall c | c in t.lookups ensures GoodLookup(t, t.lookups[c]) {
        assert GoodLookup(s, s.lookups[c]);
      }
    }
  }

  /** A caller moves on. */
  lemma LookupKeeps(s: State, setup: Setup, caller: nat, l: Lookup)
    requires Inv(s, setup) && GoodLookup(s, l)
    ensures Inv(s.(lookups := s.lookups[caller := l]), setup)
  {
    var t := s.(lookups := s.lookups[caller := l]);
    assert forall v, i :: InFlight(t, v, i) == InFlight(s, v, i);
    assert LookupsGood(t, setup) by {
      forall k | 0 <= k < |t.replies| ensures GoodReturn(t, setup, t.replies[k]) {
        assert GoodReturn(s, setup, s.replies[k]);
      }
    }
  }

  /** A forced refresh starts. */
  lemma ForceKeeps(s: State, setup: Setup, id: nat, instance: nat)
    requires Inv(s, setup) && id !in s.workers && id !in s.done
    ensures Inv(s.(workers := s.workers[id := Worker(instance, true, Fresh)]), setup)
  {
    var t := s.(workers := s.workers[id := Worker(instance, true, Fresh)]);
    assert forall v, i :: InFlight(t, v, i) == InFlight(s, v, i);
    LookupsStay(s, setup, t);
  }

  /** A flight starts where the group has none. */
  lemma FlightKeeps(s: State, setup: Setup, id: nat, instance: nat)
    requires Inv(s, setup) && id !in s.workers && id !in s.done && instance !in s.group
    ensures Inv(s.(group := s.group[instance := id], workers := s.workers[id := Worker(instance, false, Fresh)]), setup)
  {
    var t := s.(group := s.group[instance := id], workers := s.workers[id := Worker(instance, false, Fresh)]);
    assert forall v, i :: InFlight(t, v, i) <==> InFlight(s, v, i) || (v == id && i == instance);
    LookupsStay(s, setup, t);
  }

  lemma LocalAnswerGood(s: State, setup: Setup, instance: nat)
    requires Inv(s, setup) && HasLocal(s, instance)
    ensures GoodOutcome(s.loads, s.now, setup, AnswerLocally(s, instance))
  {
    assert GoodLocal(s.loads, s.now, setup, s.locals[instance]);
  }

  lemma CheckKeeps(s: State, setup: Setup, c: nat)
    requires Inv(s, setup) && c in s.lookups && s.lookups[c].Begun?
    ensures Inv(CheckStep(s, c), setup)
  {
    var i := s.lookups[c].instance;
    assert GoodLookup(s, s.lookups[c]);
    if HasLocal(s, i) {
      LocalAnswerGood(s, setup, i);
      ReplyKeeps(s, setup, c, Given(AnswerLocally(s, i)));
    } else {
      LookupKeeps(s, setup, c, Missed(i, s.lookups[c].since));
    }
  }

  lemma JoinKeeps(s: State, setup: Setup, c: nat)
    requires Inv(s, setup) && GroupGood(s) && c in s.lookups
    ensures Inv(JoinStep(s, c), setup)
  {
    var l := s.lookups[c];
    assert GoodLookup(s, l);
    if l.instance in s.group {
      assert InFlight(s, s.group[l.instance], l.instance);
      LookupKeeps(s, setup, c, Waiting(l.instance, l.since, Joined(s.group[l.instance], s.now)));
    }
  }

  lemma OpenKeeps(s: State, setup: Setup, c: nat, f: nat)
    requires Inv(s, setup) && c in s.lookups
    ensures Inv(OpenStep(s, c, f), setup)
  {
    var l := s.lookups[c];
    var i := l.instance;
    assert GoodLookup(s, l);
    if i !in s.group && f !in s.workers && f !in s.done {
      FlightKeeps(s, setup, f, i);
      var t := s.(group := s.group[i := f], workers := s.workers[f := Worker(i, false, Fresh)]);
      assert InFlight(t, f, i);
      LookupKeeps(t, setup, c, Waiting(i, l.since, Joined(f, s.now)));
    }
  }

  lemma DeliverKeeps(s: State, setup: Setup, c: nat)
    requires Inv(s, setup) && c in s.lookups && s.lookups[c].Waiting?
    ensures Inv(DeliverStep(s, c), setup)
  {
    assert GoodLookup(s, s.lookups[c]);
    var f := s.lookups[c].joined.flight;
    if f in s.done {
      assert GoodDone(s, setup, s.done[f]);
      Later(s.loads, s.done[f].at, s.loads, s.now, setup);
      ReplyKeeps(s, setup, c, Given(s.done[f].outcome));
    }
  }

  lemma CancelKeeps(s: State, setup: Setup, c: nat)
    requires Inv(s, setup) && c in s.lookups
    ensures Inv(ReplyTo(s, c, Cancelled), setup)
  {
    assert GoodLookup(s, s.lookups[c]);
    ReplyKeeps(s, setup, c, Cancelled);
  }

  lemma PeekKeeps(s: State, setup: Setup, id: nat)
    requires Inv(s, setup) && id in s.workers
    ensures Inv(PeekStep(s, id), setup)
  {
    var i := s.workers[id].instance;
    if HasLocal(s, i) {
      LocalAnswerGood(s, setup, i);
      FinishKeeps(s, setup, id, AnswerLocally(s, i));
    } else {
      MoveKeeps(s, setup, id, LocalMissed);
    }
  }

  lemma GetKeeps(s: State, setup: Setup, id: nat, ok: bool)
    requires Inv(s, setup) && id in s.workers
    ensures Inv(GetStep(s, setup, id, ok), setup)
  {
    if setup.withRedis && ok && HasRedis(s) && setup.decode(s.redis.value.text).Some? {
      MoveKeeps(s, setup, id, Held(Via(s.redis.value, s.now), setup.decode(s.redis.value.text).value));
    } else {
      MoveKeeps(s, setup, id, Loading);
    }
  }

  lemma SetLocalKeeps(s: State, setup: Setup, i: nat, stamp: Stamp, found: bool, via: Option<Via>)
    requires Inv(s, setup) && GoodStamp(s.loads, s.now, stamp) && (found <==> stamp.record.Some?)
    requires via.Some? ==> GoodVia(s.loads, s.now, setup, via.value) && via.value.entry.stamp == stamp
    ensures Inv(SetLocal(s, setup, i, stamp, found, via), setup)
  {
    CachesKeep(s, setup, SetLocal(s, setup, i, stamp, found, via));
  }

  lemma TouchedGood(s: State, setup: Setup, i: nat)
    requires CachesGood(s, setup)
    ensures CachesGood(TouchLocal(s, i), setup)
  {
    if HasLocal(s, i) {
      assert GoodLocal(s.loads, s.now, setup, s.locals[i].(touchedAt := Some(s.now)));
    }
  }

  lemma ExpiredGood(s: State, setup: Setup)
    requires CachesGood(s, setup)
    ensures CachesGood(ExpireRedis(s), setup)
  {
    if HasRedis(s) {
      assert GoodRedis(s.loads, s.now, setup, s.redis.value.(touchedAt := Some(s.now)));
    }
  }

  lemma LossKeeps(s: State, setup: Setup, i: nat)
    requires Inv(s, setup)
    ensures Inv(s.(redis := None), setup) && Inv(s.(locals := s.locals - {i}), setup)
  {
    CachesKeep(s, setup, s.(redis := None));
    CachesKeep(s, setup, s.(locals := s.locals - {i}));
  }

  lemma TouchLocalKeeps(s: State, setup: Setup, i: nat)
    requires Inv(s, setup)
    ensures Inv(TouchLocal(s, i), setup)
  {
    TouchedGood(s, setup, i);
    CachesKeep(s, setup, TouchLocal(s, i));
  }

  lemma ExpireRedisKeeps(s: State, setup: Setup)
    requires Inv(s, setup)
    ensures Inv(ExpireRedis(s), setup)
  {
    ExpiredGood(s, setup);
    CachesKeep(s, setup, ExpireRedis(s));
  }

  lemma KeepKeeps(s: State, setup: Setup, id: nat)
    requires Inv(s, setup) && id in s.workers && s.workers[id].phase.Held?
    ensures Inv(KeepStep(s, setup, id), setup)
  {
    var Worker(i, _, Held(via, record)) := s.workers[id];
    assert GoodPhase(s.loads, s.now, setup, Held(via, record));
    SetLocalKeeps(s, setup, i, Stamp(record, via.entry.stamp.loadedAt), record.Some?, Some(via));
    FinishKeeps(SetLocal(s, setup, i, Stamp(record, via.entry.stamp.loadedAt), record.Some?, Some(via)), setup, id,
                Answer(record, record.Some?, SeenInRedis(via)));
  }

  lemma ExpireKeeps(s: State, setup: Setup, id: nat, ok: bool)
    requires Inv(s, setup) && id in s.workers
    ensures Inv(ExpireStep(s, setup, id, ok), setup)
  {
    if !setup.withRedis {
      MoveKeeps(s, setup, id, Loading);
    } else if !ok {
      FinishKeeps(s, setup, id, Error);
    } else {
      ExpireRedisKeeps(s, setup);
      MoveKeeps(ExpireRedis(s), setup, id, Loading);
    }
  }

  lemma LoadKeeps(s: State, setup: Setup, id: nat, result: LoadResult)
    requires Inv(s, setup) && id in s.workers && Meets(result)
    ensures Inv(LoadStep(s, id, result), setup)
  {
    if result.Failed? {
      FinishKeeps(s, setup, id, Error);
    } else {
      var stamp := Stamp(if result.found then result.record else None, s.now);
      var loaded := s.(loads := s.loads + {stamp}, now := s.now);
      LaterKeeps(s, setup, s.loads + {stamp}, s.now);
      MoveKeeps(loaded, setup, id, Loaded(stamp, result.found));
    }
  }

  lemma StoreLocalKeeps(s: State, setup: Setup, id: nat)
    requires Inv(s, setup) && id in s.workers && s.workers[id].phase.Loaded?
    ensures Inv(StoreLocalStep(s, setup, id), setup)
  {
    var Worker(i, _, Loaded(stamp, found)) := s.workers[id];
    assert GoodPhase(s.loads, s.now, setup, s.workers[id].phase);
    SetLocalKeeps(s, setup, i, stamp, found, None);
    MoveKeeps(SetLocal(s, setup, i, stamp, found, None), setup, id, Stored(stamp, found));
  }

  lemma StoreRedisKeeps(s: State, setup: Setup, id: nat, ok: bool)
    requires Inv(s, setup) && Faithful(setup) && id in s.workers && s.workers[id].phase.Stored?
    ensures Inv(StoreRedisStep(s, setup, id, ok), setup)
  {
    var Stored(stamp, found) := s.workers[id].phase;
    assert GoodPhase(s.loads, s.now, setup, s.workers[id].phase);
    var outcome := Answer(stamp.record, found, SeenLoaded(stamp));
    FinishKeeps(s, setup, id, outcome);
    CachesKeep(Finish(s, id, outcome), setup, StoreRedisStep(s, setup, id, ok));
  }

  lemma LookupNextKeeps(s: State, setup: Setup, c: nat, event: LookupEvent)
    requires Inv(s, setup) && GroupGood(s)
    ensures Inv(LookupNext(s, c, event), setup)
  {
    if c !in s.lookups {
      if event.Begin? {
        LookupKeeps(s, setup, c, Begun(event.instance, s.now));
      }
    } else {
      match event
      case Begin(_) =>
      case CheckLocal => if s.lookups[c].Begun? { CheckKeeps(s, setup, c); }
      case Join => JoinKeeps(s, setup, c);
      case Open(f) => OpenKeeps(s, setup, c, f);
      case Deliver => if s.lookups[c].Waiting? { DeliverKeeps(s, setup, c); }
      case Cancel => CancelKeeps(s, setup, c);
    }
  }

  lemma WorkerNextKeeps(s: State, setup: Setup, id: nat, event: WorkerEvent)
    requires Inv(s, setup) && Faithful(setup) && (event.Load? ==> Meets(event.result))
    ensures Inv(WorkerNext(s, setup, id, event), setup)
  {
    if id !in s.workers {
      if event.Force? && id !in s.done {
        ForceKeeps(s, setup, id, event.instance);
      }
    } else {
      var i, phase := s.workers[id].instance, s.workers[id].phase;
      match event
      case Peek => PeekKeeps(s, setup, id);
      case GetRedis(ok) => GetKeeps(s, setup, id, ok);
      case Keep => if phase.Held? { KeepKeeps(s, setup, id); }
      case Force(_) =>
      case Touch =>
        TouchLocalKeeps(s, setup, i);
        MoveKeeps(TouchLocal(s, i), setup, id, Touched);
      case Expire(ok) => ExpireKeeps(s, setup, id, ok);
      case Load(result) => LoadKeeps(s, setup, id, result);
      case StoreLocal => if phase.Loaded? { StoreLocalKeeps(s, setup, id); }
      case StoreRedis(ok) => if phase.Stored? { StoreRedisKeeps(s, setup, id, ok); }
      case Release => if phase.Returned? { ReleaseKeeps(s, setup, id); }
    }
  }

  lemma TickKeeps(s: State, setup: Setup, seconds: nat)
    requires Inv(s, setup)
    ensures Inv(s.(now := s.now + seconds), setup)
  {
    LaterKeeps(s, setup, s.loads, s.now + seconds);
    assert s.(loads := s.loads, now := s.now + seconds) == s.(now := s.now + seconds);
  }

  /** The loads meet their contract. */
  predicate Honest(event: Event) {
    event.OfWorker? && event.w.Load? ==> Meets(event.w.result)
  }

  ghost predicate AllHonest(events: seq<Event>) {
    forall i :: 0 <= i < |events| ==> Honest(events[i])
  }

  lemma OutsideKeeps(s: State, setup: Setup, event: Event)
    requires Inv(s, setup) && !event.OfLookup? && !event.OfWorker?
    ensures Inv(Next(s, setup, event), setup)
  {
    match event
    case Tick(seconds) =>
      TickKeeps(s, setup, seconds);
      assert Next(s, setup, event) == s.(now := s.now + seconds);
    case LoseRedis =>
      LossKeeps(s, setup, 0);
      assert Next(s, setup, event) == s.(redis := None);
    case LoseLocal(i) =>
      LossKeeps(s, setup, i);
      assert Next(s, setup, event) == s.(locals := s.locals - {i});
  }

  lemma NextKeeps(s: State, setup: Setup, event: Event)
    requires Inv(s, setup) && GroupGood(s) && Faithful(setup) && Honest(event)
    ensures Inv(Next(s, setup, event), setup)
  {
    match event
    case OfLookup(c, l) => LookupNextKeeps(s, setup, c, l);
    case OfWorker(id, w) => WorkerNextKeeps(s, setup, id, w);
    case _ => OutsideKeeps(s, setup, event);
  }

  lemma {:induction false} AfterKeeps(start: State, setup: Setup, events: seq<Event>)
    requires Start(start) && Faithful(setup) && AllHonest(events)
    ensures Inv(After(start, setup, events), setup)
  {
    if events != [] {
      AfterKeeps(start, setup, events[..|events| - 1]);
      GroupAlways(start, setup, events[..|events| - 1]);
      NextKeeps(After(start, setup, events[..|events| - 1]), setup, events[|events| - 1]);
    }
  }

  // ----- what every run promises -----

  function Max(a: nat, b: nat): nat {
    if a < b then b else a
  }

  /** Its store plus the TTL, or the last forced expiry plus 60 seconds, whichever is later. */
  function RedisLimit(e: RedisEntry): nat {
    if e.touchedAt.Some? then Max(e.storedAt + e.ttl, e.touchedAt.value + EXPIRE_SECONDS) else e.storedAt + e.ttl
  }

  /** For a local entry relayed from Redis: the Redis limit, the time the relay took, and one local TTL. */
  function TotalLimit(e: LocalEntry): int
    requires e.via.Some?
  {
    RedisLimit(e.via.value.entry) + (e.storedAt - e.via.value.gotAt) + e.ttl
  }

  /** Within five seconds of a forced touch. */
  predicate JustTouched(e: LocalEntry, at: nat) {
    e.touchedAt.Some? && at < e.touchedAt.value + TOUCH_SECONDS
  }

  /** How old an answer can be: a local one is within its TTL or just touched; what was relayed was live in Redis when
      it was read, so all in all it is within the total limit or just touched. */
  predicate WithinLimits(evidence: Evidence) {
    match evidence
    case SeenLoaded(_) => true
    case SeenInRedis(via) => via.gotAt < RedisLimit(via.entry)
    case SeenLocally(e, at) =>
      && (at < e.storedAt + e.ttl || JustTouched(e, at))
      && (e.via.Some? ==>
            && e.via.value.gotAt < RedisLimit(e.via.value.entry) && e.via.value.gotAt <= e.storedAt
            && (at < TotalLimit(e) || JustTouched(e, at)))
  }

  /** What a successful load once answered, with `found` exactly when there is a record. */
  predicate Backed(loads: set<Stamp>, outcome: Outcome)
    requires outcome.Answer?
  {
    && StampOf(outcome.evidence) in loads && outcome.record == StampOf(outcome.evidence).record
    && (outcome.found <==> outcome.record.Some?)
  }

  lemma GoodIsWithin(loads: set<Stamp>, now: nat, setup: Setup, outcome: Outcome)
    requires GoodOutcome(loads, now, setup, outcome) && outcome.Answer?
    ensures Backed(loads, outcome) && WithinLimits(outcome.evidence)
  {
  }

  /** Every result of a flight or a forced refresh is backed by a load, was within the limits when it was found, and was
      handed out no earlier. */
  lemma {:induction false} EveryResult(start: State, setup: Setup, events: seq<Event>, w: nat)
    requires Start(start) && Faithful(setup) && AllHonest(events) && w in After(start, setup, events).done
    ensures var s := After(start, setup, events); var Done(outcome, at) := s.done[w];
      && at <= s.now
      && (outcome.Answer? ==>
            Backed(s.loads, outcome) && WithinLimits(outcome.evidence) && LookedAt(outcome.evidence) <= at)
  {
    AfterKeeps(start, setup, events);
    var s := After(start, setup, events);
    assert GoodDone(s, setup, s.done[w]);
    if s.done[w].outcome.Answer? {
      GoodIsWithin(s.loads, s.done[w].at, setup, s.done[w].outcome);
    }
  }

  /** Every lookup gets its flight's result, handed out after it joined, or a live local entry, seen as it replies, or
      its own cancellation. An answer is backed by a load, and was within the limits when it was found; that is no later
      than its flight handed it out, and may be any time before. */
  lemma {:induction false} EveryReply(start: State, setup: Setup, events: seq<Event>, k: nat)
    requires Start(start) && Faithful(setup) && AllHonest(events) && k < |After(start, setup, events).replies|
    requires After(start, setup, events).replies[k].reply.Given?
    ensures var s := After(start, setup, events); var r := s.replies[k]; var outcome := r.reply.outcome;
      && r.since <= r.at <= s.now
      && (if r.joined.Some? then
            var Joined(f, joinedAt) := r.joined.value;
            && f in s.done && outcome == s.done[f].outcome && r.since <= joinedAt <= s.done[f].at <= r.at
            && (outcome.Answer? ==> LookedAt(outcome.evidence) <= s.done[f].at)
          else
            outcome.Answer? && SeenAt(outcome.evidence, r.at))
      && (outcome.Answer? ==> Backed(s.loads, outcome) && WithinLimits(outcome.evidence))
  {
    AfterKeeps(start, setup, events);
    var s := After(start, setup, events);
    var r := s.replies[k];
    assert GoodReturn(s, setup, r);
    if r.reply.outcome.Answer? {
      GoodIsWithin(s.loads, r.at, setup, r.reply.outcome);
      if r.joined.Some? {
        EveryResult(start, setup, events, r.joined.value.flight);
      }
    }
  }

  /** What is cached has been loaded, so an error is never cached; Redis holds a text that decodes to it. */
  lemma {:induction false} OnlyLoadsAreCached(start: State, setup: Setup, events: seq<Event>)
    requires Start(start) && Faithful(setup) && AllHonest(events)
    ensures var s := After(start, setup, events);
      && (forall i :: i in s.locals ==> s.locals[i].stamp in s.loads)
      && (s.redis.Some? ==>
        s.redis.value.stamp in s.loads && setup.decode(s.redis.value.text) == Some(s.redis.value.stamp.record))
  {
    AfterKeeps(start, setup, events);
  }

  lemma OthersLoadNothing(s: State, setup: Setup, id: nat, event: WorkerEvent)
    requires id in s.workers && !event.Load?
    ensures WorkerNext(s, setup, id, event).loads == s.loads
  {
    ForcedFrame(s, s.workers[id].instance);
    match event
    case Touch =>
    case Expire(ok) =>
    case _ =>
  }

  /** A step loads at most one record, and only a load does. */
  lemma OnlyLoadsLoad(s: State, setup: Setup, event: Event, stamp: Stamp)
    requires stamp in Next(s, setup, event).loads && stamp !in s.loads
    ensures event.OfWorker? && event.w.Load? && event.w.result.Got?
    ensures event.worker in s.workers && s.workers[event.worker].phase.Loading?
    ensures stamp == Stamp(if event.w.result.found then event.w.result.record else None, s.now)
  {
    match event
    case OfLookup(c, l) => LookupFrame(s, c, l);
    case OfWorker(id, w) =>
      if id in s.workers && !w.Load? {
        OthersLoadNothing(s, setup, id, w);
      }
    case _ =>
  }

  /** What counts as loaded is what a load answered in this run, at that time. */
  lemma {:induction false} LoadsHappened(start: State, setup: Setup, events: seq<Event>, stamp: Stamp)
    returns (k: nat)
    requires Start(start) && stamp in After(start, setup, events).loads
    ensures k < |events| && events[k].OfWorker? && events[k].w.Load? && events[k].w.result.Got?
    ensures var s, result := After(start, setup, events[..k]), events[k].w.result;
      && events[k].worker in s.workers && s.workers[events[k].worker].phase.Loading?
      && stamp == Stamp(if result.found then result.record else None, s.now)
  {
    if events == [] {
      assert false;
    } else {
      k := |events| - 1;
      if stamp in After(start, setup, events[..k]).loads {
        var n := k;
        k := LoadsHappened(start, setup, events[..n], stamp);
        assert events[..n][..k] == events[..k];
      } else {
        OnlyLoadsLoad(After(start, setup, events[..k]), setup, events[k], stamp);
      }
    }
  }

  lemma LoadedAndStored(s: State, setup: Setup, id: nat, result: LoadResult)
    requires id in s.workers && s.workers[id].phase.Loading? && result.Got?
    ensures var stored, i := StoreLocalStep(LoadStep(s, id, result), setup, id), s.workers[id].instance;
      var stamp := Stamp(if result.found then result.record else None, s.now);
      && id in stored.workers && stored.workers[id].instance == i
        && stored.workers[id].phase == Stored(stamp, result.found)
      && i in stored.locals && stored.locals[i].stamp == stamp
  {
    var stamp := Stamp(if result.found then result.record else None, s.now);
    var loaded := LoadStep(s, id, result);
    assert loaded.workers[id] == s.workers[id].(phase := Loaded(stamp, result.found));
  }

  /** The contract of a load is needed, and is all that is needed: what the loading worker returns and what a lookup
      then finds locally agree on whether the record exists if and only if the load met it. */
  lemma {:induction false} AgreesIfMet(s: State, setup: Setup, id: nat, result: LoadResult, ok: bool)
    requires id in s.workers && s.workers[id].phase.Loading? && result.Got?
    ensures var done := StoreRedisStep(StoreLocalStep(LoadStep(s, id, result), setup, id), setup, id, ok);
      var i, phase := s.workers[id].instance, done.workers[id].phase;
      && phase.Returned? && phase.outcome.Answer? && i in done.locals
      && (AnswerLocally(done, i).found == phase.outcome.found <==> Meets(result))
  {
    LoadedAndStored(s, setup, id, result);
  }
}
