/** When a lookup answers past the limit of what it answers with.

  A local entry relayed from Redis has the Redis limit plus one local TTL; one from a load has its own TTL. What is read
  from Redis or loaded counts as a local entry stored at once. Every answer comes before its limit but for a relay that
  stores late, a forced touch that comes late, or a flight that hands out late what it found in time. */
module CacheStale {
  import opened CacheFlight
  import opened CacheTtl
  import opened Seqs

  /** For a local entry filled from Redis, what both tiers add up to. */
  function BothTiersLimit(e: LocalEntry): nat
    requires e.via.Some?
  {
    RedisLimit(e.via.value.entry) + e.ttl
  }

  function LocalLimit(e: LocalEntry): nat {
    if e.via.Some? then BothTiersLimit(e) else e.storedAt + e.ttl
  }

  /** A loaded answer is in time at least in the second of its load. */
  function LimitOf(setup: Setup, evidence: Evidence): nat {
    match evidence
    case SeenLocally(e, _) => LocalLimit(e)
    case SeenInRedis(via) => RedisLimit(via.entry) + LocalTtl(setup, via.entry.stamp.record.Some?)
    case SeenLoaded(stamp) => stamp.loadedAt + Max(1, LocalTtl(setup, stamp.record.Some?))
  }

  // ----- what one step does to a local entry -----

  /** Some seconds pass, and then one lookup of an instance begins and looks at its local entry. */
  function Asked(s: State, setup: Setup, c: nat, i: nat, seconds: nat): State {
    Next(Next(Next(s, setup, Tick(seconds)), setup, OfLookup(c, Begin(i))), setup, OfLookup(c, CheckLocal))
  }

  lemma AskedReplies(s: State, setup: Setup, c: nat, i: nat, seconds: nat)
    requires c !in s.lookups
    ensures var replies, at := Asked(s, setup, c, i, seconds).replies, s.now + seconds;
      if i in s.locals && at < LocalExpiry(s.locals[i]) then
        var record := s.locals[i].stamp.record;
        replies == s.replies + [Return(c, at, None,
          Given(Answer(record, record.Some?, SeenLocally(s.locals[i], at))), at)]
      else replies == s.replies
  {
    var later := s.(now := s.now + seconds);
    var begun := later.(lookups := later.lookups[c := Begun(i, later.now)]);
    assert Next(Next(s, setup, Tick(seconds)), setup, OfLookup(c, Begin(i))) == begun;
    assert Asked(s, setup, c, i, seconds) == CheckStep(begun, c);
  }

  /** The lookup then gets an answer from the local entry, at the limit or after. */
  predicate AnswersPast(s: State, setup: Setup, c: nat, i: nat, limit: int, seconds: nat) {
    var replies := Asked(s, setup, c, i, seconds).replies;
    && |replies| == |s.replies| + 1 && replies[|s.replies|].reply.Given?
    && var outcome := replies[|s.replies|].reply.outcome;
       outcome.Answer? && outcome.evidence.SeenLocally? && replies[|s.replies|].at >= limit
  }

  lemma PastExactly(s: State, setup: Setup, c: nat, i: nat, limit: int, seconds: nat)
    requires c !in s.lookups
    ensures AnswersPast(s, setup, c, i, limit, seconds)
       <==> i in s.locals && s.now + seconds < LocalExpiry(s.locals[i]) && s.now + seconds >= limit
  {
    AskedReplies(s, setup, c, i, seconds);
  }

  /** A state whose entry expires at `expiry` can answer past the limit if and only if it expires past both. */
  lemma PastIfExpiresLater(s: State, setup: Setup, c: nat, i: nat, limit: int)
    requires c !in s.lookups && i in s.locals
    ensures (exists seconds: nat :: AnswersPast(s, setup, c, i, limit, seconds))
       <==> s.now < LocalExpiry(s.locals[i]) && limit < LocalExpiry(s.locals[i])
  {
    var expiry := LocalExpiry(s.locals[i]);
    if s.now < expiry && limit < expiry {
      PastExactly(s, setup, c, i, limit, expiry - 1 - s.now);
    }
    if exists seconds: nat :: AnswersPast(s, setup, c, i, limit, seconds) {
      var seconds: nat :| AnswersPast(s, setup, c, i, limit, seconds);
      PastExactly(s, setup, c, i, limit, seconds);
    }
  }

  /** A forced touch lets a live entry answer past a limit if and only if the limit is less than five seconds away, or
      past. */
  lemma {:induction false} TouchExactly(s: State, setup: Setup, w: nat, i: nat, c: nat, limit: int)
    requires w in s.workers && s.workers[w] == Worker(i, true, Fresh) && HasLocal(s, i) && c !in s.lookups
    ensures (exists seconds: nat :: AnswersPast(Next(s, setup, OfWorker(w, Touch)), setup, c, i, limit, seconds))
       <==> s.now + TOUCH_SECONDS > limit
  {
    var t := Next(s, setup, OfWorker(w, Touch));
    assert t == Move(TouchLocal(s, i), w, Touched);
    PastIfExpiresLater(t, setup, c, i, limit);
  }

  /** A relay lets its entry answer past a limit if and only if its TTL is not zero and reaches past the limit. For the
      limit of both tiers: if and only if the Redis limit of what was read is over by the time it is stored. */
  lemma {:induction false} KeepExactly(s: State, setup: Setup, w: nat, c: nat, limit: int)
    requires w in s.workers && s.workers[w].phase.Held? && c !in s.lookups
    ensures var Worker(i, _, Held(via, record)) := s.workers[w];
      var t, ttl := Next(s, setup, OfWorker(w, Keep)), LocalTtl(setup, record.Some?);
      && ((exists seconds: nat :: AnswersPast(t, setup, c, i, limit, seconds)) <==> ttl > 0 && s.now + ttl > limit)
      && (limit == RedisLimit(via.entry) + ttl ==> (s.now + ttl > limit <==> s.now > RedisLimit(via.entry)))
  {
    var Worker(i, _, Held(via, record)) := s.workers[w];
    var t := Next(s, setup, OfWorker(w, Keep));
    assert t == KeepStep(s, setup, w);
    PastIfExpiresLater(t, setup, c, i, limit);
  }

  // ----- what every reply keeps -----

  /** The relay stored when what it had read was past its Redis limit. */
  predicate KeptLate(e: LocalEntry) {
    e.via.Some? && e.storedAt > RedisLimit(e.via.value.entry)
  }

  /** The last forced touch came less than five seconds before the limit, or after it. */
  predicate TouchedLate(e: LocalEntry) {
    e.touchedAt.Some? && e.touchedAt.value + TOUCH_SECONDS > LocalLimit(e)
  }

  predicate EntryLate(evidence: Evidence) {
    evidence.SeenLocally? && (KeptLate(evidence.entry) || TouchedLate(evidence.entry))
  }

  /** Only an entry kept late or touched late is ever found past its limit. */
  lemma FoundInTime(loads: set<Stamp>, now: nat, setup: Setup, evidence: Evidence)
    requires GoodEvidence(loads, now, setup, evidence) && !EntryLate(evidence)
    ensures LookedAt(evidence) < LimitOf(setup, evidence)
  {
  }

  predicate Answers(r: Return) {
    r.reply.Given? && r.reply.outcome.Answer?
  }

  function EvidenceOf(r: Return): Evidence
    requires Answers(r)
  {
    r.reply.outcome.evidence
  }

  predicate Past(setup: Setup, r: Return)
    requires Answers(r)
  {
    r.at >= LimitOf(setup, EvidenceOf(r))
  }

  /** The lookup joined a flight that had found its answer in time, when the limit of that answer had passed. */
  predicate JoinedLate(setup: Setup, r: Return)
    requires Answers(r)
  {
    r.joined.Some? && LookedAt(EvidenceOf(r)) < LimitOf(setup, EvidenceOf(r)) <= r.joined.value.at
  }

  /** The limit of the answer passed while the lookup waited for its flight. */
  predicate WaitedPast(setup: Setup, r: Return)
    requires Answers(r)
  {
    r.joined.Some? && r.joined.value.at < LimitOf(setup, EvidenceOf(r)) <= r.at
  }

  /** Over every run, a lookup is answered past the limit only from an entry kept late or touched late, by a flight
      joined late, or by a flight it waited for past the limit; the last two always do that. */
  lemma {:induction false} PastOnlyIfLate(start: State, setup: Setup, events: seq<Event>, k: nat)
    requires Start(start) && Faithful(setup) && AllHonest(events) && k < |After(start, setup, events).replies|
    requires Answers(After(start, setup, events).replies[k])
    ensures var r := After(start, setup, events).replies[k];
      && (Past(setup, r) ==> EntryLate(EvidenceOf(r)) || JoinedLate(setup, r) || WaitedPast(setup, r))
      && (JoinedLate(setup, r) || WaitedPast(setup, r) ==> Past(setup, r))
  {
    AfterKeeps(start, setup, events);
    var s := After(start, setup, events);
    var r := s.replies[k];
    assert GoodReturn(s, setup, r);
    if !EntryLate(EvidenceOf(r)) {
      FoundInTime(s.loads, r.at, setup, EvidenceOf(r));
    }
  }

  /** From when a lookup waits, or at the moment it sees a local entry. */
  function Asking(r: Return): nat {
    if r.joined.Some? then r.joined.value.at else r.at
  }

  /** At some moment while the lookup was asking, its answer had been found and was in time. */
  predicate InTimeAt(setup: Setup, r: Return, moment: nat)
    requires Answers(r)
  {
    Asking(r) <= moment <= r.at && LookedAt(EvidenceOf(r)) <= moment < LimitOf(setup, EvidenceOf(r))
  }

  /** So unless the entry was late, an answer was in time at some moment of the call if and only if the lookup did not
      join late. */
  lemma {:induction false} InTimeDuringCall(start: State, setup: Setup, events: seq<Event>, k: nat)
    requires Start(start) && Faithful(setup) && AllHonest(events) && k < |After(start, setup, events).replies|
    requires Answers(After(start, setup, events).replies[k])
    ensures var r := After(start, setup, events).replies[k];
      !EntryLate(EvidenceOf(r)) ==>
        ((exists moment: nat :: InTimeAt(setup, r, moment)) <==> !JoinedLate(setup, r))
  {
    AfterKeeps(start, setup, events);
    var s := After(start, setup, events);
    var r := s.replies[k];
    assert GoodReturn(s, setup, r);
    if !EntryLate(EvidenceOf(r)) {
      FoundInTime(s.loads, r.at, setup, EvidenceOf(r));
      if !JoinedLate(setup, r) {
        assert InTimeAt(setup, r, Max(LookedAt(EvidenceOf(r)), Asking(r)));
      }
    }
  }

  /** The first moment at which this evidence can no longer be found. */
  function FoundBefore(evidence: Evidence): int {
    match evidence
    case SeenLocally(e, _) =>
      var limit: int := if e.via.Some? then TotalLimit(e) else e.storedAt + e.ttl;
      if e.touchedAt.Some? && limit < e.touchedAt.value + TOUCH_SECONDS then e.touchedAt.value + TOUCH_SECONDS
      else limit
    case SeenInRedis(via) => RedisLimit(via.entry)
    case SeenLoaded(stamp) => stamp.loadedAt + 1
  }

  /** The bound that holds of every answer: the moment before which it was found, plus the time its flight took from
      there to handing it out, plus the time until the lookup took it. */
  lemma {:induction false} EveryReplyBound(start: State, setup: Setup, events: seq<Event>, k: nat)
    requires Start(start) && Faithful(setup) && AllHonest(events) && k < |After(start, setup, events).replies|
    requires Answers(After(start, setup, events).replies[k])
    ensures var s := After(start, setup, events); var r := s.replies[k]; var evidence := EvidenceOf(r);
      if r.joined.Some? then
        var f := r.joined.value.flight;
        && f in s.done && r.joined.value.at <= s.done[f].at
        && var flight, taking := s.done[f].at - LookedAt(evidence), r.at - s.done[f].at;
           flight >= 0 && taking >= 0 && r.at < FoundBefore(evidence) + flight + taking
      else r.at < FoundBefore(evidence)
  {
    EveryReply(start, setup, events, k);
  }
}
