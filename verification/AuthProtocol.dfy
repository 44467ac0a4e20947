/** CAPTCHAs, email codes and what they guard, over every interleaving of requests.

  `Next` is one Redis command, one Redis transaction, or one guarded action. `log` records what happened, in order;
  the theorems bound how often. Time is in whole seconds. */
module AuthProtocol {
  const CODE_SECONDS: nat := 600
  const ATTEMPTS: nat := 3
  const COOLDOWN_SECONDS: nat := 30
  const ID_LENGTH: nat := 26
  const ANSWER_LENGTH: nat := 6
  const CODE_LENGTH: nat := 6

  datatype Purpose = Register | ResetPassword

  /** The Redis keys of a code and of its counter; distinct emails are taken to have distinct hashes. */
  datatype Key = Key(email: string, purpose: Purpose)

  datatype Captcha = Captcha(answer: string, expiry: nat)
  datatype Code = Code(digest: string, storedAt: nat)
  datatype Counter = Counter(value: int, expiry: nat)

  /** What a request is for: a password check, a code confirmation, or a code to be sent. */
  datatype Goal = Login(email: string) | Confirm(key: Key, code: string) | Send(key: Key)

  datatype Phase =
    | Asked(answer: string)
    | Passed
    | Granted
    | Admitted
    | Matched(stored: Code, gotAt: nat, seen: nat)

  datatype Request = Request(goal: Goal, captcha: string, phase: Phase)

  /** What happened. `Check`, `Try` and `Issue` are what CAPTCHAs guard. A success tells when its GET was, and how much
      had happened by then. */
  datatype Act =
    | Check(email: string)
    | Try(key: Key, admitted: bool)
    | Grant(email: string, at: nat)
    | Issue(key: Key, digest: string, at: nat)
    | Succeed(key: Key, code: string, gotAt: nat, seen: nat)

  datatype State = State(
    now: nat,
    captchas: map<string, Captcha>, codes: map<Key, Code>, counters: map<Key, Counter>, cooldowns: map<string, nat>,
    requests: map<nat, Request>, log: seq<Act>,
    generated: set<string>, spent: set<string>, acted: set<string>, granted: map<string, set<string>>,
      issued: map<string, set<string>>)

  predicate Start(s: State) {
    && s.captchas == map[] && s.codes == map[] && s.counters == map[] && s.cooldowns == map[]
    && s.requests == map[] && s.log == []
    && s.generated == {} && s.spent == {} && s.acted == {} && s.granted == map[] && s.issued == map[]
  }

  datatype Step = Abort | Verify | CheckPassword | Decrement | Get | Del | SetCooldown | Store(code: string)

  datatype Event =
    | Tick(seconds: nat)
    | Generate(id: string, answer: string, seconds: nat)
    | Arrive(r: nat, goal: Goal, captcha: string, answer: string)
    | OfRequest(r: nat, step: Step)

  // ----- the steps -----

  function Drop(s: State, r: nat): State {
    s.(requests := s.requests - {r})
  }

  function Move(s: State, r: nat, phase: Phase): State
    requires r in s.requests
  {
    s.(requests := s.requests[r := s.requests[r].(phase := phase)])
  }

  /** The CAPTCHA of the request has done its work. */
  function Record(s: State, r: nat, act: Act): State
    requires r in s.requests
  {
    s.(log := s.log + [act], acted := s.acted + {s.requests[r].captcha})
  }

  function Of(m: map<string, set<string>>, email: string): set<string> {
    if email in m then m[email] else {}
  }

  /** GETDEL: the answer is gone whether or not it matches. */
  function VerifyStep(s: State, r: nat): State
    requires r in s.requests && s.requests[r].phase.Asked?
  {
    var id, answer := s.requests[r].captcha, s.requests[r].phase.answer;
    if |id| != ID_LENGTH then Drop(s, r)
    else if id !in s.captchas || s.now >= s.captchas[id].expiry then Drop(s, r)
    else
      var taken := s.(captchas := s.captchas - {id});
      if |answer| == ANSWER_LENGTH && s.captchas[id].answer == answer
      then Move(taken, r, Passed).(spent := s.spent + {id})
      else Drop(taken, r)
  }

  function CheckStep(s: State, r: nat): State
    requires r in s.requests && s.requests[r].goal.Login?
  {
    Drop(Record(s, r, Check(s.requests[r].goal.email)), r)
  }

  predicate LiveCounter(s: State, key: Key) {
    key in s.counters && s.now < s.counters[key].expiry
  }

  /** DECR with EXPIRE NX: a missing counter is created at -1. */
  function Decremented(s: State, key: Key): Counter {
    if LiveCounter(s, key) then s.counters[key].(value := s.counters[key].value - 1)
    else Counter(-1, s.now + CODE_SECONDS)
  }

  function DecrementStep(s: State, r: nat): State
    requires r in s.requests && s.requests[r].goal.Confirm?
  {
    var key := s.requests[r].goal.key;
    var counter := Decremented(s, key);
    var tried := Record(s.(counters := s.counters[key := counter]), r, Try(key, counter.value >= 0));
    if counter.value < 0 then Drop(tried, r) else Move(tried, r, Admitted)
  }

  function GetStep(s: State, digest: string -> string, r: nat): State
    requires r in s.requests && s.requests[r].goal.Confirm?
  {
    var Confirm(key, code) := s.requests[r].goal;
    if key in s.codes && s.now < s.codes[key].storedAt + CODE_SECONDS && |code| == CODE_LENGTH
      && s.codes[key].digest == digest(code)
    then Move(s, r, Matched(s.codes[key], s.now, |s.log|)) else Drop(s, r)
  }

  function Success(s: State, r: nat): Act
    requires r in s.requests && s.requests[r].goal.Confirm? && s.requests[r].phase.Matched?
  {
    var Request(Confirm(key, code), _, Matched(_, gotAt, seen)) := s.requests[r];
    Succeed(key, code, gotAt, seen)
  }

  function DelStep(s: State, r: nat): State
    requires r in s.requests && s.requests[r].goal.Confirm? && s.requests[r].phase.Matched?
  {
    var key := s.requests[r].goal.key;
    Drop(s, r).(codes := s.codes - {key}, counters := s.counters - {key},
                log := s.log + [Success(s, r)])
  }

  /** SET NX of the key all purposes of an email share. */
  function CooldownStep(s: State, r: nat): State
    requires r in s.requests && s.requests[r].goal.Send?
  {
    var email := s.requests[r].goal.key.email;
    if email in s.cooldowns && s.now < s.cooldowns[email] then Drop(s, r)
    else Move(s, r, Granted).(
      cooldowns := s.cooldowns[email := s.now + COOLDOWN_SECONDS],
      log := s.log + [Grant(email, s.now)],
      granted := s.granted[email := Of(s.granted, email) + {s.requests[r].captcha}])
  }

  /** The code and a full counter, stored together. */
  function StoreStep(s: State, digest: string -> string, r: nat, code: string): State
    requires r in s.requests && s.requests[r].goal.Send?
  {
    var key := s.requests[r].goal.key;
    Drop(Record(s, r, Issue(key, digest(code), s.now)), r).(
      codes := s.codes[key := Code(digest(code), s.now)],
      counters := s.counters[key := Counter(ATTEMPTS, s.now + CODE_SECONDS)],
      issued := s.issued[key.email := Of(s.issued, key.email) + {s.requests[r].captcha}])
  }

  function RequestNext(s: State, digest: string -> string, r: nat, step: Step): State
    requires r in s.requests
  {
    var Request(goal, _, phase) := s.requests[r];
    match step
    case Abort => Drop(s, r)
    case Verify => if phase.Asked? then VerifyStep(s, r) else s
    case CheckPassword => if phase.Passed? && goal.Login? then CheckStep(s, r) else s
    case Decrement => if phase.Passed? && goal.Confirm? then DecrementStep(s, r) else s
    case Get => if phase.Admitted? && goal.Confirm? then GetStep(s, digest, r) else s
    case Del => if phase.Matched? && goal.Confirm? then DelStep(s, r) else s
    case SetCooldown => if phase.Passed? && goal.Send? then CooldownStep(s, r) else s
    case Store(code) => if phase.Granted? && goal.Send? then StoreStep(s, digest, r, code) else s
  }

  function Next(s: State, digest: string -> string, event: Event): State {
    match event
    case Tick(seconds) => s.(now := s.now + seconds)
    case Generate(id, answer, seconds) =>
      if id in s.generated || |id| != ID_LENGTH then s
      else s.(captchas := s.captchas[id := Captcha(answer, s.now + seconds)], generated := s.generated + {id})
    case Arrive(r, goal, captcha, answer) =>
      if r in s.requests then s else s.(requests := s.requests[r := Request(goal, captcha, Asked(answer))])
    case OfRequest(r, step) => if r in s.requests then RequestNext(s, digest, r, step) else s
  }

  function After(s: State, digest: string -> string, events: seq<Event>): State {
    if events == [] then s else Next(After(s, digest, events[..|events| - 1]), digest, events[|events| - 1])
  }

  // ----- counting -----

  datatype Kind = Issues(key: Key) | Admissions(key: Key) | Guarded | Grants(email: string) | IssuesTo(email: string)

  predicate Is(a: Act, kind: Kind) {
    match kind
    case Issues(key) => a.Issue? && a.key == key
    case Admissions(key) => a.Try? && a.key == key && a.admitted
    case Guarded => a.Check? || a.Try? || a.Issue?
    case Grants(email) => a.Grant? && a.email == email
    case IssuesTo(email) => a.Issue? && a.key.email == email
  }

  function Count(log: seq<Act>, kind: Kind): nat {
    if log == [] then 0 else Count(log[..|log| - 1], kind) + if Is(log[|log| - 1], kind) then 1 else 0
  }

  lemma CountOneMore(log: seq<Act>, a: Act, kind: Kind)
    ensures Count(log + [a], kind) == Count(log, kind) + if Is(a, kind) then 1 else 0
  {
    assert (log + [a])[..|log|] == log;
  }

  // ----- attempts -----

  function Positive(i: int): nat {
    if i > 0 then i else 0
  }

  /** Admissions the counter still allows. */
  function Left(s: State, key: Key): nat {
    if LiveCounter(s, key) then Positive(s.counters[key].value) else 0
  }

  function Budget(s: State, key: Key): nat {
    Count(s.log, Admissions(key)) + Left(s, key)
  }

  /** From s to t, admissions made plus admissions left grow by at most three for each code issued. */
  predicate Within(s: State, t: State, key: Key) {
    Budget(t, key) - 3 * Count(t.log, Issues(key)) <= Budget(s, key) - 3 * Count(s.log, Issues(key))
  }

  lemma QuietWithin(s: State, t: State, key: Key)
    requires t.log == s.log && t.counters == s.counters && s.now <= t.now
    ensures Within(s, t, key)
  {
  }

  lemma OtherWithin(s: State, t: State, a: Act, key: Key)
    requires t.log == s.log + [a] && t.now == s.now && !Is(a, Admissions(key)) && !Is(a, Issues(key))
      && Left(t, key) <= Left(s, key)
    ensures Within(s, t, key)
  {
    CountOneMore(s.log, a, Admissions(key));
    CountOneMore(s.log, a, Issues(key));
  }

  lemma DecrementLeaves(s: State, r: nat, key: Key)
    requires r in s.requests && s.requests[r].goal.Confirm?
    ensures var own, left := s.requests[r].goal.key, Left(s, s.requests[r].goal.key);
      && Left(DecrementStep(s, r), key) == (if key != own then Left(s, key) else if left > 0 then left - 1 else 0)
      && (Decremented(s, own).value >= 0 <==> left > 0)
  {
    var own := s.requests[r].goal.key;
    var t := DecrementStep(s, r);
    assert t.counters == s.counters[own := Decremented(s, own)] && t.now == s.now;
  }

  lemma DecrementWithin(s: State, r: nat, key: Key)
    requires r in s.requests && s.requests[r].goal.Confirm?
    ensures Within(s, DecrementStep(s, r), key)
  {
    var own := s.requests[r].goal.key;
    var a := Try(own, Decremented(s, own).value >= 0);
    DecrementLeaves(s, r, key);
    assert DecrementStep(s, r).log == s.log + [a];
    CountOneMore(s.log, a, Admissions(key));
    CountOneMore(s.log, a, Issues(key));
  }

  lemma DelWithin(s: State, r: nat, key: Key)
    requires r in s.requests && s.requests[r].goal.Confirm? && s.requests[r].phase.Matched?
    ensures Within(s, DelStep(s, r), key)
  {
    OtherWithin(s, DelStep(s, r), Success(s, r), key);
  }

  lemma CooldownWithin(s: State, r: nat, key: Key)
    requires r in s.requests && s.requests[r].goal.Send?
    ensures Within(s, CooldownStep(s, r), key)
  {
    if CooldownStep(s, r).log == s.log {
      QuietWithin(s, CooldownStep(s, r), key);
    } else {
      OtherWithin(s, CooldownStep(s, r), Grant(s.requests[r].goal.key.email, s.now), key);
    }
  }

  lemma StoreWithin(s: State, digest: string -> string, r: nat, code: string, key: Key)
    requires r in s.requests && s.requests[r].goal.Send?
    ensures Within(s, StoreStep(s, digest, r, code), key)
  {
    var a := Issue(s.requests[r].goal.key, digest(code), s.now);
    CountOneMore(s.log, a, Admissions(key));
    CountOneMore(s.log, a, Issues(key));
  }

  lemma VerifyWithin(s: State, r: nat, key: Key)
    requires r in s.requests && s.requests[r].phase.Asked?
    ensures Within(s, VerifyStep(s, r), key)
  {
    QuietWithin(s, VerifyStep(s, r), key);
  }

  lemma GetWithin(s: State, digest: string -> string, r: nat, key: Key)
    requires r in s.requests && s.requests[r].goal.Confirm?
    ensures Within(s, GetStep(s, digest, r), key)
  {
    QuietWithin(s, GetStep(s, digest, r), key);
  }

  lemma RequestWithin(s: State, digest: string -> string, r: nat, step: Step, key: Key)
    requires r in s.requests
    ensures Within(s, RequestNext(s, digest, r, step), key)
  {
    var Request(goal, _, phase) := s.requests[r];
    match step
    case Abort => QuietWithin(s, Drop(s, r), key);
    case Verify => if phase.Asked? { VerifyWithin(s, r, key); }
    case CheckPassword => if goal.Login? { OtherWithin(s, CheckStep(s, r), Check(goal.email), key); }
    case Decrement => if goal.Confirm? { DecrementWithin(s, r, key); }
    case Get => if goal.Confirm? { GetWithin(s, digest, r, key); }
    case Del => if goal.Confirm? && phase.Matched? { DelWithin(s, r, key); }
    case SetCooldown => if goal.Send? { CooldownWithin(s, r, key); }
    case Store(code) => if goal.Send? { StoreWithin(s, digest, r, code, key); }
  }

  lemma NextWithin(s: State, digest: string -> string, event: Event, key: Key)
    ensures Within(s, Next(s, digest, event), key)
  {
    if event.OfRequest? && event.r in s.requests {
      RequestWithin(s, digest, event.r, event.step, key);
    } else {
      QuietWithin(s, Next(s, digest, event), key);
    }
  }

  /** Over any stretch of any run, from any state, admissions grow by at most what the counter held plus three for each
      code. */
  lemma {:induction false} AnyStretch(s: State, digest: string -> string, events: seq<Event>, key: Key)
    ensures Within(s, After(s, digest, events), key)
  {
    if events != [] {
      var before := After(s, digest, events[..|events| - 1]);
      AnyStretch(s, digest, events[..|events| - 1], key);
      NextWithin(before, digest, events[|events| - 1], key);
    }
  }

  /** For each email and purpose, attempts admitted, right or wrong, never exceed three times the codes issued. */
  lemma {:induction false} ThreeAttemptsEach(start: State, digest: string -> string, events: seq<Event>, key: Key)
    requires Start(start)
    ensures var log := After(start, digest, events).log; Count(log, Admissions(key)) <= 3 * Count(log, Issues(key))
  {
    AnyStretch(start, digest, events, key);
  }

  /** An attempt is admitted exactly when its counter is live and positive; a missing or expired one admits nobody. */
  lemma {:induction false} AdmittedOnlyByCounter(s: State, digest: string -> string, r: nat)
    requires r in s.requests && s.requests[r].phase.Passed? && s.requests[r].goal.Confirm?
    ensures var t, key := Next(s, digest, OfRequest(r, Decrement)), s.requests[r].goal.key;
      && t.log == s.log + [Try(key, Left(s, key) > 0)]
      && (r in t.requests <==> Left(s, key) > 0) && (r in t.requests ==> t.requests[r].phase == Admitted)
      && Left(t, key) == if Left(s, key) > 0 then Left(s, key) - 1 else 0
  {
    assert Next(s, digest, OfRequest(r, Decrement)) == DecrementStep(s, r);
  }

  /** A success uses the code up: until another code is issued for the key, nobody is admitted again. */
  lemma {:induction false} SuccessUsesTheCode(s: State, digest: string -> string, r: nat, events: seq<Event>)
    requires r in s.requests && s.requests[r].goal.Confirm? && s.requests[r].phase.Matched?
    ensures var key, t := s.requests[r].goal.key, Next(s, digest, OfRequest(r, Del));
      && key !in t.codes && t.log == s.log + [Success(s, r)]
      && Count(After(t, digest, events).log, Admissions(key)) - Count(t.log, Admissions(key))
           <= 3 * (Count(After(t, digest, events).log, Issues(key)) - Count(t.log, Issues(key)))
  {
    var t := DelStep(s, r);
    assert Next(s, digest, OfRequest(r, Del)) == t;
    AnyStretch(t, digest, events, s.requests[r].goal.key);
    assert Left(t, s.requests[r].goal.key) == 0;
  }

  // ----- CAPTCHAs -----

  /** A request past its CAPTCHA holds it; until it acts, the CAPTCHA has not acted. */
  predicate Holds(s: State, q: Request) {
    q.phase.Asked? || (q.captcha in s.spent && (q.phase.Passed? || q.phase.Granted? ==> q.captcha !in s.acted))
  }

  ghost predicate Distinct(requests: map<nat, Request>) {
    forall r, r' :: r in requests && r' in requests && r != r' && !requests[r].phase.Asked?
      && !requests[r'].phase.Asked?
      ==> requests[r].captcha != requests[r'].captcha
  }

  ghost predicate CaptchaInv(s: State) {
    && s.acted <= s.spent <= s.generated && s.captchas.Keys <= s.generated && s.captchas.Keys !! s.spent
    && Count(s.log, Guarded) == |s.acted|
    && (forall r :: r in s.requests ==> Holds(s, s.requests[r]))
    && Distinct(s.requests)
  }

  lemma {:induction false} RecordKeeps(s: State, r: nat, a: Act)
    requires CaptchaInv(s) && r in s.requests && Is(a, Guarded)
      && (s.requests[r].phase.Passed? || s.requests[r].phase.Granted?)
    ensures CaptchaInv(Drop(Record(s, r, a), r)) && CaptchaInv(Move(Record(s, r, a), r, Admitted))
  {
    CountOneMore(s.log, a, Guarded);
    assert s.requests[r].captcha !in s.acted;
  }

  /** Neither what is logged, unless it is unguarded, nor the CAPTCHAs change; the request goes or moves on. */
  lemma OnwardKeeps(s: State, r: nat, t: State)
    requires CaptchaInv(s) && r in s.requests
    requires t.captchas == s.captchas && t.generated == s.generated && t.spent == s.spent && t.acted == s.acted
    requires t.log == s.log || exists a :: !Is(a, Guarded) && t.log == s.log + [a]
    requires t.requests == s.requests - {r}
      || exists phase ::
           && t.requests == s.requests[r := s.requests[r].(phase := phase)] && !phase.Asked? && !phase.Passed?
           && !s.requests[r].phase.Asked? && (phase.Granted? ==> s.requests[r].phase.Passed?)
    ensures CaptchaInv(t)
  {
    if t.log != s.log {
      var a :| !Is(a, Guarded) && t.log == s.log + [a];
      CountOneMore(s.log, a, Guarded);
    }
  }

  lemma PassKeeps(s: State, r: nat)
    requires CaptchaInv(s) && r in s.requests && s.requests[r].captcha in s.captchas
    ensures var id := s.requests[r].captcha;
      id !in s.spent && CaptchaInv(Move(s.(captchas := s.captchas - {id}), r, Passed).(spent := s.spent + {id}))
  {
    var id := s.requests[r].captcha;
    var t := Move(s.(captchas := s.captchas - {id}), r, Passed).(spent := s.spent + {id});
    forall q | q in t.requests ensures Holds(t, t.requests[q]) {
      assert Holds(s, s.requests[q]);
    }
    forall q | q in s.requests && q != r && !s.requests[q].phase.Asked? ensures s.requests[q].captcha != id {
      assert Holds(s, s.requests[q]);
    }
  }

  lemma TakeKeeps(s: State, id: string)
    requires CaptchaInv(s)
    ensures CaptchaInv(s.(captchas := s.captchas - {id}))
  {
    var t := s.(captchas := s.captchas - {id});
    forall q | q in t.requests ensures Holds(t, t.requests[q]) {
      assert Holds(s, s.requests[q]);
    }
  }

  /** A CAPTCHA passes only if it never passed before, and whatever the answer it is gone. */
  lemma {:induction false} VerifyKeeps(s: State, r: nat)
    requires CaptchaInv(s) && r in s.requests && s.requests[r].phase.Asked?
    ensures CaptchaInv(VerifyStep(s, r))
    ensures var t, id := VerifyStep(s, r), s.requests[r].captcha;
      && (r in t.requests ==> id !in s.spent && id in t.spent)
      && (|id| == ID_LENGTH && id in s.captchas && s.now < s.captchas[id].expiry ==> id !in t.captchas)
  {
    var id, answer := s.requests[r].captcha, s.requests[r].phase.answer;
    if |id| != ID_LENGTH || id !in s.captchas || s.now >= s.captchas[id].expiry {
      OnwardKeeps(s, r, Drop(s, r));
    } else if |answer| == ANSWER_LENGTH && s.captchas[id].answer == answer {
      PassKeeps(s, r);
    } else {
      TakeKeeps(s, id);
      OnwardKeeps(s.(captchas := s.captchas - {id}), r, Drop(s.(captchas := s.captchas - {id}), r));
    }
  }

  /** The invariant does not depend on the codes, counters, cooldowns and their records. */
  predicate SameCaptchas(s: State, t: State) {
    && t.captchas == s.captchas && t.generated == s.generated && t.spent == s.spent && t.acted == s.acted
    && t.log == s.log && t.requests == s.requests
  }

  lemma SameKeeps(s: State, t: State)
    requires CaptchaInv(s) && SameCaptchas(s, t)
    ensures CaptchaInv(t)
  {
    forall q | q in t.requests ensures Holds(t, t.requests[q]) {
      assert Holds(s, s.requests[q]);
    }
  }

  lemma GrantOnward(s: State, r: nat, a: Act)
    requires CaptchaInv(s) && r in s.requests && s.requests[r].phase.Passed? && !Is(a, Guarded)
    ensures CaptchaInv(Move(s, r, Granted).(log := s.log + [a]))
  {
    OnwardKeeps(s, r, Move(s, r, Granted).(log := s.log + [a]));
  }

  lemma CooldownOnward(s: State, r: nat)
    requires CaptchaInv(s) && r in s.requests && s.requests[r].goal.Send? && s.requests[r].phase.Passed?
    ensures CaptchaInv(CooldownStep(s, r))
  {
    var a := Grant(s.requests[r].goal.key.email, s.now);
    if CooldownStep(s, r).log == s.log {
      OnwardKeeps(s, r, Drop(s, r));
    } else {
      GrantOnward(s, r, a);
      SameKeeps(Move(s, r, Granted).(log := s.log + [a]), CooldownStep(s, r));
    }
  }

  lemma DelOnward(s: State, r: nat)
    requires CaptchaInv(s) && r in s.requests && s.requests[r].goal.Confirm? && s.requests[r].phase.Matched?
    ensures CaptchaInv(DelStep(s, r))
  {
    var a := Success(s, r);
    assert !Is(a, Guarded) && DelStep(s, r).log == s.log + [a];
    OnwardKeeps(s, r, DelStep(s, r));
  }

  lemma MatchOnward(s: State, r: nat, stored: Code)
    requires CaptchaInv(s) && r in s.requests && s.requests[r].phase.Admitted?
    ensures CaptchaInv(Move(s, r, Matched(stored, s.now, |s.log|)))
  {
    OnwardKeeps(s, r, Move(s, r, Matched(stored, s.now, |s.log|)));
  }

  lemma GetOnward(s: State, digest: string -> string, r: nat)
    requires CaptchaInv(s) && r in s.requests && s.requests[r].goal.Confirm? && s.requests[r].phase.Admitted?
    ensures CaptchaInv(GetStep(s, digest, r))
  {
    if r in GetStep(s, digest, r).requests {
      MatchOnward(s, r, s.codes[s.requests[r].goal.key]);
    } else {
      OnwardKeeps(s, r, Drop(s, r));
    }
  }

  lemma DecrementKeeps(s: State, r: nat)
    requires CaptchaInv(s) && r in s.requests && s.requests[r].goal.Confirm? && s.requests[r].phase.Passed?
    ensures CaptchaInv(DecrementStep(s, r))
  {
    var key := s.requests[r].goal.key;
    var u := s.(counters := s.counters[key := Decremented(s, key)]);
    SameKeeps(s, u);
    RecordKeeps(u, r, Try(key, Decremented(s, key).value >= 0));
  }

  lemma StoreKeeps(s: State, digest: string -> string, r: nat, code: string)
    requires CaptchaInv(s) && r in s.requests && s.requests[r].goal.Send? && s.requests[r].phase.Granted?
    ensures CaptchaInv(StoreStep(s, digest, r, code))
  {
    var a := Issue(s.requests[r].goal.key, digest(code), s.now);
    RecordKeeps(s, r, a);
    SameKeeps(Drop(Record(s, r, a), r), StoreStep(s, digest, r, code));
  }

  lemma RequestKeeps(s: State, digest: string -> string, r: nat, step: Step)
    requires CaptchaInv(s) && r in s.requests
    ensures CaptchaInv(RequestNext(s, digest, r, step))
  {
    var Request(goal, _, phase) := s.requests[r];
    match step
    case Abort => OnwardKeeps(s, r, Drop(s, r));
    case Verify => if phase.Asked? { VerifyKeeps(s, r); }
    case CheckPassword => if phase.Passed? && goal.Login? { RecordKeeps(s, r, Check(goal.email)); }
    case Decrement => if phase.Passed? && goal.Confirm? { DecrementKeeps(s, r); }
    case Get => if phase.Admitted? && goal.Confirm? { GetOnward(s, digest, r); }
    case Del => if phase.Matched? && goal.Confirm? { DelOnward(s, r); }
    case SetCooldown => if phase.Passed? && goal.Send? { CooldownOnward(s, r); }
    case Store(code) => if phase.Granted? && goal.Send? { StoreKeeps(s, digest, r, code); }
  }

  lemma GenerateKeeps(s: State, captchas: map<string, Captcha>, generated: set<string>)
    requires CaptchaInv(s) && s.generated <= generated && captchas.Keys <= s.captchas.Keys + (generated - s.generated)
    ensures CaptchaInv(s.(captchas := captchas, generated := generated))
  {
    var t := s.(captchas := captchas, generated := generated);
    forall q | q in t.requests ensures Holds(t, t.requests[q]) {
      assert Holds(s, s.requests[q]);
    }
  }

  lemma ArriveKeeps(s: State, r: nat, q: Request)
    requires CaptchaInv(s) && r !in s.requests && q.phase.Asked?
    ensures CaptchaInv(s.(requests := s.requests[r := q]))
  {
  }

  lemma CaptchaNext(s: State, digest: string -> string, event: Event)
    requires CaptchaInv(s)
    ensures CaptchaInv(Next(s, digest, event))
  {
    match event
    case Tick(_) => SameKeeps(s, Next(s, digest, event));
    case Generate(id, answer, seconds) =>
      if id !in s.generated {
        GenerateKeeps(s, s.captchas[id := Captcha(answer, s.now + seconds)], s.generated + {id});
      }
    case Arrive(r, goal, captcha, answer) =>
      if r !in s.requests { ArriveKeeps(s, r, Request(goal, captcha, Asked(answer))); }
    case OfRequest(r, step) => if r in s.requests { RequestKeeps(s, digest, r, step); }
  }

  lemma {:induction false} CaptchaRun(s: State, digest: string -> string, events: seq<Event>)
    requires CaptchaInv(s)
    ensures CaptchaInv(After(s, digest, events))
  {
    if events != [] {
      CaptchaRun(s, digest, events[..|events| - 1]);
      CaptchaNext(After(s, digest, events[..|events| - 1]), digest, events[|events| - 1]);
    }
  }

  lemma {:induction false} SubsetSize<T>(a: set<T>, b: set<T>)
    requires a <= b
    ensures |a| <= |b|
  {
    if a != {} {
      var x :| x in a;
      SubsetSize(a - {x}, b - {x});
    }
  }

  /** Password checks, code attempts and codes issued, together, never exceed the CAPTCHAs generated. */
  lemma {:induction false} CaptchasPayForAll(start: State, digest: string -> string, events: seq<Event>)
    requires Start(start)
    ensures var s := After(start, digest, events); Count(s.log, Guarded) <= |s.spent| <= |s.generated|
  {
    CaptchaRun(start, digest, events);
    var s := After(start, digest, events);
    SubsetSize(s.acted, s.spent);
    SubsetSize(s.spent, s.generated);
  }
}
