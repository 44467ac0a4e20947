/** What the email-code protocol promises about codes: who may succeed, and how often codes are sent. */
module AuthCodes {
  import opened AuthProtocol

  datatype Latest = NoCode | Valid(code: Code)

  // ----- a success matched a live code -----

  /** The code of a key that the acts so far have left valid: the last one issued, unless a success has used it up
      since. */
  function LatestOf(log: seq<Act>, key: Key): Latest {
    if log == [] then NoCode
    else
      var a := log[|log| - 1];
      if a.Issue? && a.key == key then Valid(Code(a.digest, a.at))
      else if a.Succeed? && a.key == key then NoCode
      else LatestOf(log[..|log| - 1], key)
  }

  lemma LatestNext(log: seq<Act>, a: Act, key: Key)
    ensures LatestOf(log + [a], key)
         == if a.Issue? && a.key == key then Valid(Code(a.digest, a.at))
            else if a.Succeed? && a.key == key then NoCode
            else LatestOf(log, key)
  {
    assert (log + [a])[..|log|] == log;
  }

  /** Neither a newer code nor a success of this key. */
  predicate Leaves(a: Act, key: Key) {
    !(a.Issue? && a.key == key) && !(a.Succeed? && a.key == key)
  }

  /** Where the valid code was issued; nothing since has replaced it or used it up. */
  lemma {:induction false} LatestWasIssued(log: seq<Act>, key: Key) returns (i: nat)
    requires LatestOf(log, key).Valid?
    ensures i < |log| && log[i] == Issue(key, LatestOf(log, key).code.digest, LatestOf(log, key).code.storedAt)
    ensures forall j :: i < j < |log| ==> Leaves(log[j], key)
  {
    var last := |log| - 1;
    if log[last].Issue? && log[last].key == key {
      i := last;
    } else {
      i := LatestWasIssued(log[..last], key);
    }
  }

  /** When `seen` acts had happened, the code was the valid one of its key, and its ten minutes were not over. */
  predicate Earned(log: seq<Act>, digest: string -> string, key: Key, code: string, gotAt: nat, seen: nat) {
    && seen <= |log| && |code| == CODE_LENGTH
    && var valid := LatestOf(log[..seen], key);
       valid.Valid? && valid.code.digest == digest(code)
         && valid.code.storedAt <= gotAt < valid.code.storedAt + CODE_SECONDS
  }

  lemma EarnedAt(log: seq<Act>, digest: string -> string, key: Key, code: string, gotAt: nat, seen: nat)
    returns (i: nat)
    requires Earned(log, digest, key, code, gotAt, seen)
    ensures i < seen && log[i].Issue? && log[i].key == key && log[i].digest == digest(code)
      && log[i].at <= gotAt < log[i].at + CODE_SECONDS
    ensures forall j :: i < j < seen ==>
      !(log[j].Issue? && log[j].key == key) && !(log[j].Succeed? && log[j].key == key)
  {
    i := LatestWasIssued(log[..seen], key);
    forall j | i < j < seen
      ensures !(log[j].Issue? && log[j].key == key) && !(log[j].Succeed? && log[j].key == key)
    {
      assert Leaves(log[..seen][j], key);
    }
  }

  predicate GoodRequest(log: seq<Act>, digest: string -> string, q: Request) {
    q.phase.Matched? && q.goal.Confirm? ==> Earned(log, digest, q.goal.key, q.goal.code, q.phase.gotAt, q.phase.seen)
  }

  predicate GoodAct(log: seq<Act>, digest: string -> string, i: nat)
    requires i < |log|
  {
    log[i].Succeed? ==> log[i].seen <= i && Earned(log, digest, log[i].key, log[i].code, log[i].gotAt, log[i].seen)
  }

  /** What Redis holds is the valid code of its key. */
  predicate GoodCodes(codes: map<Key, Code>, log: seq<Act>, now: nat) {
    forall key :: key in codes ==> LatestOf(log, key) == Valid(codes[key]) && codes[key].storedAt <= now
  }

  ghost predicate CodeInv(s: State, digest: string -> string) {
    && GoodCodes(s.codes, s.log, s.now)
    && (forall r :: r in s.requests ==> GoodRequest(s.log, digest, s.requests[r]))
    && (forall i :: 0 <= i < |s.log| ==> GoodAct(s.log, digest, i))
  }

  lemma EarnedStays(log: seq<Act>, a: Act, digest: string -> string, key: Key, code: string, gotAt: nat, seen: nat)
    requires Earned(log, digest, key, code, gotAt, seen)
    ensures Earned(log + [a], digest, key, code, gotAt, seen)
  {
    assert (log + [a])[..seen] == log[..seen];
  }

  /** Nothing is logged; requests go, or move on without a match; codes stay or go. */
  lemma SilentKeeps(s: State, digest: string -> string, t: State)
    requires CodeInv(s, digest) && t.log == s.log && s.now <= t.now
    requires forall key :: key in t.codes ==> key in s.codes && t.codes[key] == s.codes[key]
    requires forall r :: r in t.requests ==>
      !t.requests[r].phase.Matched? || (r in s.requests && t.requests[r] == s.requests[r])
    ensures CodeInv(t, digest)
  {
  }

  /** One act is logged, harmless or earned. */
  lemma LoggedKeeps(s: State, digest: string -> string, t: State, a: Act)
    requires CodeInv(s, digest) && t.log == s.log + [a] && s.now == t.now && GoodCodes(t.codes, t.log, t.now)
    requires a.Succeed? ==> Earned(s.log, digest, a.key, a.code, a.gotAt, a.seen)
    requires forall r :: r in t.requests ==>
      !t.requests[r].phase.Matched? || (r in s.requests && t.requests[r] == s.requests[r])
    ensures CodeInv(t, digest)
  {
    forall r | r in t.requests ensures GoodRequest(t.log, digest, t.requests[r]) {
      var q := t.requests[r];
      if q.phase.Matched? && q.goal.Confirm? {
        assert GoodRequest(s.log, digest, s.requests[r]);
        EarnedStays(s.log, a, digest, q.goal.key, q.goal.code, q.phase.gotAt, q.phase.seen);
      }
    }
    forall i | 0 <= i < |t.log| ensures GoodAct(t.log, digest, i) {
      var b := t.log[i];
      if b.Succeed? {
        assert i < |s.log| ==> GoodAct(s.log, digest, i);
        EarnedStays(s.log, a, digest, b.key, b.code, b.gotAt, b.seen);
      }
    }
  }

  /** An act that neither issues nor succeeds leaves every valid code valid. */
  lemma CodesStay(s: State, digest: string -> string, a: Act)
    requires CodeInv(s, digest) && !a.Issue? && !a.Succeed?
    ensures GoodCodes(s.codes, s.log + [a], s.now)
  {
    forall key | key in s.codes
      ensures LatestOf(s.log + [a], key) == Valid(s.codes[key]) && s.codes[key].storedAt <= s.now
    {
      LatestNext(s.log, a, key);
    }
  }

  lemma DropKeepsCodes(s: State, digest: string -> string, r: nat)
    requires CodeInv(s, digest)
    ensures CodeInv(Drop(s, r), digest)
  {
    SilentKeeps(s, digest, Drop(s, r));
  }

  lemma MatchKeeps(s: State, digest: string -> string, r: nat, phase: Phase)
    requires CodeInv(s, digest) && r in s.requests && GoodRequest(s.log, digest, s.requests[r].(phase := phase))
    ensures CodeInv(Move(s, r, phase), digest)
  {
  }

  lemma GetKeeps(s: State, digest: string -> string, r: nat)
    requires CodeInv(s, digest) && r in s.requests && s.requests[r].goal.Confirm?
    ensures CodeInv(GetStep(s, digest, r), digest)
  {
    var Confirm(key, code) := s.requests[r].goal;
    DropKeepsCodes(s, digest, r);
    if r in GetStep(s, digest, r).requests {
      assert s.log[..|s.log|] == s.log;
      assert Earned(s.log, digest, key, code, s.now, |s.log|);
      MatchKeeps(s, digest, r, Matched(s.codes[key], s.now, |s.log|));
    }
  }

  lemma DelKeeps(s: State, digest: string -> string, r: nat)
    requires CodeInv(s, digest) && r in s.requests && s.requests[r].goal.Confirm? && s.requests[r].phase.Matched?
    ensures CodeInv(DelStep(s, r), digest)
  {
    var a, t := Success(s, r), DelStep(s, r);
    assert GoodRequest(s.log, digest, s.requests[r]);
    forall key | key in t.codes ensures LatestOf(t.log, key) == Valid(t.codes[key]) && t.codes[key].storedAt <= t.now {
      LatestNext(s.log, a, key);
    }
    LoggedKeeps(s, digest, t, a);
  }

  lemma StoreKeeps(s: State, digest: string -> string, r: nat, code: string)
    requires CodeInv(s, digest) && r in s.requests && s.requests[r].goal.Send?
    ensures CodeInv(StoreStep(s, digest, r, code), digest)
  {
    var a, t := Issue(s.requests[r].goal.key, digest(code), s.now), StoreStep(s, digest, r, code);
    forall key | key in t.codes ensures LatestOf(t.log, key) == Valid(t.codes[key]) && t.codes[key].storedAt <= t.now {
      LatestNext(s.log, a, key);
    }
    LoggedKeeps(s, digest, t, a);
  }

  lemma CheckKeeps(s: State, digest: string -> string, r: nat)
    requires CodeInv(s, digest) && r in s.requests && s.requests[r].goal.Login?
    ensures CodeInv(CheckStep(s, r), digest)
  {
    CodesStay(s, digest, Check(s.requests[r].goal.email));
    LoggedKeeps(s, digest, CheckStep(s, r), Check(s.requests[r].goal.email));
  }

  lemma DecrementKeeps(s: State, digest: string -> string, r: nat)
    requires CodeInv(s, digest) && r in s.requests && s.requests[r].goal.Confirm?
    ensures CodeInv(DecrementStep(s, r), digest)
  {
    var key := s.requests[r].goal.key;
    var a := Try(key, Decremented(s, key).value >= 0);
    CodesStay(s, digest, a);
    LoggedKeeps(s, digest, DecrementStep(s, r), a);
  }

  lemma CooldownKeeps(s: State, digest: string -> string, r: nat)
    requires CodeInv(s, digest) && r in s.requests && s.requests[r].goal.Send?
    ensures CodeInv(CooldownStep(s, r), digest)
  {
    var t := CooldownStep(s, r);
    if t.log == s.log {
      DropKeepsCodes(s, digest, r);
    } else {
      CodesStay(s, digest, Grant(s.requests[r].goal.key.email, s.now));
      LoggedKeeps(s, digest, t, Grant(s.requests[r].goal.key.email, s.now));
    }
  }

  lemma TakeKeepsCodes(s: State, digest: string -> string, id: string)
    requires CodeInv(s, digest)
    ensures CodeInv(s.(captchas := s.captchas - {id}), digest)
  {
    SilentKeeps(s, digest, s.(captchas := s.captchas - {id}));
  }

  lemma PassKeepsCodes(s: State, digest: string -> string, r: nat, id: string)
    requires CodeInv(s, digest) && r in s.requests
    ensures CodeInv(Move(s, r, Passed).(spent := s.spent + {id}), digest)
  {
    SilentKeeps(s, digest, Move(s, r, Passed).(spent := s.spent + {id}));
  }

  lemma VerifyKeepsCodes(s: State, digest: string -> string, r: nat)
    requires CodeInv(s, digest) && r in s.requests && s.requests[r].phase.Asked?
    ensures CodeInv(VerifyStep(s, r), digest)
  {
    var id := s.requests[r].captcha;
    var taken := s.(captchas := s.captchas - {id});
    DropKeepsCodes(s, digest, r);
    TakeKeepsCodes(s, digest, id);
    DropKeepsCodes(taken, digest, r);
    PassKeepsCodes(taken, digest, r, id);
  }

  lemma RequestKeepsCodes(s: State, digest: string -> string, r: nat, step: Step)
    requires CodeInv(s, digest) && r in s.requests
    ensures CodeInv(RequestNext(s, digest, r, step), digest)
  {
    var Request(goal, _, phase) := s.requests[r];
    match step
    case Abort => DropKeepsCodes(s, digest, r);
    case Verify => if phase.Asked? { VerifyKeepsCodes(s, digest, r); }
    case CheckPassword => if goal.Login? { CheckKeeps(s, digest, r); }
    case Decrement => if goal.Confirm? { DecrementKeeps(s, digest, r); }
    case Get => if goal.Confirm? { GetKeeps(s, digest, r); }
    case Del => if goal.Confirm? && phase.Matched? { DelKeeps(s, digest, r); }
    case SetCooldown => if goal.Send? { CooldownKeeps(s, digest, r); }
    case Store(code) => if goal.Send? { StoreKeeps(s, digest, r, code); }
  }

  lemma ArriveKeepsCodes(s: State, digest: string -> string, r: nat, q: Request)
    requires CodeInv(s, digest) && q.phase.Asked?
    ensures CodeInv(s.(requests := s.requests[r := q]), digest)
  {
    SilentKeeps(s, digest, s.(requests := s.requests[r := q]));
  }

  lemma OutsideKeepsCodes(s: State, digest: string -> string, seconds: nat, captchas: map<string, Captcha>,
      generated: set<string>)
    requires CodeInv(s, digest)
    ensures CodeInv(s.(now := s.now + seconds), digest)
      && CodeInv(s.(captchas := captchas, generated := generated), digest)
  {
    SilentKeeps(s, digest, s.(now := s.now + seconds));
    SilentKeeps(s, digest, s.(captchas := captchas, generated := generated));
  }

  lemma NextKeepsCodes(s: State, digest: string -> string, event: Event)
    requires CodeInv(s, digest)
    ensures CodeInv(Next(s, digest, event), digest)
  {
    match event
    case Tick(seconds) => OutsideKeepsCodes(s, digest, seconds, s.captchas, s.generated);
    case Generate(id, answer, seconds) =>
      OutsideKeepsCodes(s, digest, 0, s.captchas[id := Captcha(answer, s.now + seconds)], s.generated + {id});
    case Arrive(r, goal, captcha, answer) => ArriveKeepsCodes(s, digest, r, Request(goal, captcha, Asked(answer)));
    case OfRequest(r, step) => if r in s.requests { RequestKeepsCodes(s, digest, r, step); }
  }

  lemma {:induction false} AfterKeepsCodes(start: State, digest: string -> string, events: seq<Event>)
    requires Start(start)
    ensures CodeInv(After(start, digest, events), digest)
  {
    if events != [] {
      AfterKeepsCodes(start, digest, events[..|events| - 1]);
      NextKeepsCodes(After(start, digest, events[..|events| - 1]), digest, events[|events| - 1]);
    }
  }

  /** Every success submitted six characters whose digest was, when its GET read it, that of the code last issued under
      the key: issued less than ten minutes before, and neither replaced by a newer code nor used up by another
      success. */
  lemma SuccessMatchedTheLiveCode(start: State, digest: string -> string, events: seq<Event>, k: nat) returns (i: nat)
    requires Start(start) && k < |After(start, digest, events).log| && After(start, digest, events).log[k].Succeed?
    ensures var log := After(start, digest, events).log; var Succeed(key, code, gotAt, seen) := log[k];
      && i < seen <= k && |code| == CODE_LENGTH
      && log[i].Issue? && log[i].key == key && log[i].digest == digest(code)
        && log[i].at <= gotAt < log[i].at + CODE_SECONDS
      && forall j :: i < j < seen ==>
           !(log[j].Issue? && log[j].key == key) && !(log[j].Succeed? && log[j].key == key)
  {
    AfterKeepsCodes(start, digest, events);
    var log := After(start, digest, events).log;
    assert GoodAct(log, digest, k);
    i := EarnedAt(log, digest, log[k].key, log[k].code, log[k].gotAt, log[k].seen);
  }

  // ----- how often codes are sent -----

  /** A request that may send to this email and has not: before its grant, or with it. */
  predicate MayStillSend(s: State, e: string, q: Request) {
    && (q.phase.Passed? ==> q.captcha !in Of(s.granted, e))
    && (q.phase.Granted? ==> q.goal.Send? && (q.goal.key.email == e ==> q.captcha in Of(s.granted, e)))
  }

  ghost predicate GrantInv(s: State, e: string) {
    && Of(s.issued, e) <= Of(s.granted, e) <= s.spent && Of(s.issued, e) <= s.acted
    && Count(s.log, Grants(e)) == |Of(s.granted, e)| && Count(s.log, IssuesTo(e)) == |Of(s.issued, e)|
    && (forall r :: r in s.requests ==> MayStillSend(s, e, s.requests[r]))
  }

  /** Grants, issues and cooldowns of the email stay; a request goes or moves on. */
  lemma SilentKeepsGrants(s: State, e: string, t: State)
    requires GrantInv(s, e) && s.now <= t.now && s.spent <= t.spent && s.acted <= t.acted
    requires t.granted == s.granted && t.issued == s.issued
    requires Count(t.log, Grants(e)) == Count(s.log, Grants(e))
      && Count(t.log, IssuesTo(e)) == Count(s.log, IssuesTo(e))
    requires forall r :: r in t.requests ==>
      (r in s.requests && t.requests[r] == s.requests[r])
        || (!t.requests[r].phase.Passed? && !t.requests[r].phase.Granted?)
    ensures GrantInv(t, e)
  {
    forall r | r in t.requests ensures MayStillSend(t, e, t.requests[r]) {
      assert r in s.requests ==> MayStillSend(s, e, s.requests[r]);
    }
  }

  lemma DropKeepsGrants(s: State, e: string, r: nat)
    requires GrantInv(s, e)
    ensures GrantInv(Drop(s, r), e)
  {
    SilentKeepsGrants(s, e, Drop(s, r));
  }

  lemma TakeKeepsGrants(s: State, e: string, id: string)
    requires GrantInv(s, e)
    ensures GrantInv(s.(captchas := s.captchas - {id}), e)
  {
    SilentKeepsGrants(s, e, s.(captchas := s.captchas - {id}));
  }

  lemma PassKeepsGrants(s: State, e: string, r: nat)
    requires GrantInv(s, e) && r in s.requests && s.requests[r].captcha !in s.spent
    ensures GrantInv(Move(s, r, Passed).(spent := s.spent + {s.requests[r].captcha}), e)
  {
    var t := Move(s, r, Passed).(spent := s.spent + {s.requests[r].captcha});
    forall q | q in t.requests ensures MayStillSend(t, e, t.requests[q]) {
      assert MayStillSend(s, e, s.requests[q]);
    }
  }

  lemma VerifyKeepsGrants(s: State, e: string, r: nat)
    requires CaptchaInv(s) && GrantInv(s, e) && r in s.requests && s.requests[r].phase.Asked?
    ensures GrantInv(VerifyStep(s, r), e)
  {
    var id := s.requests[r].captcha;
    var taken := s.(captchas := s.captchas - {id});
    DropKeepsGrants(s, e, r);
    TakeKeepsGrants(s, e, id);
    DropKeepsGrants(taken, e, r);
    if id !in s.spent {
      PassKeepsGrants(taken, e, r);
    }
  }

  lemma LoggedKeepsGrants(s: State, e: string, t: State, a: Act)
    requires GrantInv(s, e) && !a.Grant? && !a.Issue? && t.log == s.log + [a]
    requires s.now == t.now && s.spent == t.spent && s.acted <= t.acted
    requires t.granted == s.granted && t.issued == s.issued
    requires forall r :: r in t.requests ==>
      (r in s.requests && t.requests[r] == s.requests[r])
        || (!t.requests[r].phase.Passed? && !t.requests[r].phase.Granted?)
    ensures GrantInv(t, e)
  {
    CountOneMore(s.log, a, Grants(e));
    CountOneMore(s.log, a, IssuesTo(e));
    SilentKeepsGrants(s, e, t);
  }

  /** Another request that may still send may still send once this one has its grant. */
  lemma MayStillSendLater(s: State, e: string, r: nat, t: State)
    requires CaptchaInv(s) && r in s.requests && s.requests[r].goal.Send? && s.requests[r].phase.Passed?
    requires forall q :: q in s.requests ==> MayStillSend(s, e, s.requests[q])
    requires t.requests == s.requests[r := s.requests[r].(phase := Granted)]
    requires Of(t.granted, e)
          == Of(s.granted, e) + (if e == s.requests[r].goal.key.email then {s.requests[r].captcha} else {})
    ensures forall q :: q in t.requests ==> MayStillSend(t, e, t.requests[q])
  {
    forall q | q in t.requests ensures MayStillSend(t, e, t.requests[q]) {
      assert MayStillSend(s, e, s.requests[q]);
    }
  }

  lemma OfAdded(m: map<string, set<string>>, email: string, id: string, e: string)
    ensures Of(m[email := Of(m, email) + {id}], e) == Of(m, e) + if e == email then {id} else {}
  {
  }

  lemma GrantCounts(s: State, e: string, r: nat, email: string)
    requires CaptchaInv(s) && GrantInv(s, e) && r in s.requests && s.requests[r].phase.Passed?
    ensures var log := s.log + [Grant(email, s.now)];
      var ids := Of(s.granted, e) + if e == email then {s.requests[r].captcha} else {};
      && ids <= s.spent && Count(log, Grants(e)) == |ids| && Count(log, IssuesTo(e)) == Count(s.log, IssuesTo(e))
      && Count(log, Grants(e)) == Count(s.log, Grants(e)) + (if e == email then 1 else 0)
  {
    var id := s.requests[r].captcha;
    assert id !in Of(s.granted, e) && id in s.spent by {
      assert MayStillSend(s, e, s.requests[r]) && Holds(s, s.requests[r]);
    }
    CountOneMore(s.log, Grant(email, s.now), Grants(e));
    CountOneMore(s.log, Grant(email, s.now), IssuesTo(e));
    if e == email {
      assert |Of(s.granted, e) + {id}| == |Of(s.granted, e)| + 1;
    } else {
      assert Of(s.granted, e) + {} == Of(s.granted, e);
    }
  }

  lemma GrantedKeeps(s: State, e: string, r: nat, email: string, t: State)
    requires CaptchaInv(s) && GrantInv(s, e) && r in s.requests && s.requests[r].goal.Send?
      && s.requests[r].phase.Passed?
    requires email == s.requests[r].goal.key.email && !(email in s.cooldowns && s.now < s.cooldowns[email])
    requires t.now == s.now && t.spent == s.spent && t.acted == s.acted && t.issued == s.issued
    requires t.requests == s.requests[r := s.requests[r].(phase := Granted)]
    requires t.log == s.log + [Grant(email, s.now)]
    requires t.granted == s.granted[email := Of(s.granted, email) + {s.requests[r].captcha}]
    ensures GrantInv(t, e)
  {
    GrantCounts(s, e, r, email);
    OfAdded(s.granted, email, s.requests[r].captcha, e);
    MayStillSendLater(s, e, r, t);
  }

  lemma CooldownKeepsGrants(s: State, e: string, r: nat)
    requires CaptchaInv(s) && GrantInv(s, e) && r in s.requests && s.requests[r].goal.Send?
      && s.requests[r].phase.Passed?
    ensures GrantInv(CooldownStep(s, r), e)
  {
    var email := s.requests[r].goal.key.email;
    if email in s.cooldowns && s.now < s.cooldowns[email] {
      DropKeepsGrants(s, e, r);
    } else {
      GrantedKeeps(s, e, r, email, CooldownStep(s, r));
    }
  }

  lemma MayStay(s: State, e: string, r: nat, t: State)
    requires forall q :: q in s.requests ==> MayStillSend(s, e, s.requests[q])
    requires t.granted == s.granted && t.requests == s.requests - {r}
    ensures forall q :: q in t.requests ==> MayStillSend(t, e, t.requests[q])
  {
    forall q | q in t.requests ensures MayStillSend(t, e, t.requests[q]) {
      assert MayStillSend(s, e, s.requests[q]);
    }
  }

  lemma IssuedOnce(s: State, digest: string, e: string, r: nat)
    requires CaptchaInv(s) && GrantInv(s, e) && r in s.requests && s.requests[r].goal.Send?
      && s.requests[r].phase.Granted?
    ensures var key, id := s.requests[r].goal.key, s.requests[r].captcha;
      var log, issued := s.log + [Issue(key, digest, s.now)], s.issued[key.email := Of(s.issued, key.email) + {id}];
      && Count(log, Grants(e)) == Count(s.log, Grants(e)) && Count(log, IssuesTo(e)) == |Of(issued, e)|
      && Of(issued, e) <= Of(s.granted, e) && Of(issued, e) <= s.acted + {id}
  {
    var key, id := s.requests[r].goal.key, s.requests[r].captcha;
    var a := Issue(key, digest, s.now);
    assert MayStillSend(s, e, s.requests[r]) && Holds(s, s.requests[r]);
    CountOneMore(s.log, a, Grants(e));
    CountOneMore(s.log, a, IssuesTo(e));
    var issued := s.issued[key.email := Of(s.issued, key.email) + {id}];
    assert Of(issued, e) == if e == key.email then Of(s.issued, e) + {id} else Of(s.issued, e);
  }

  lemma StoreKeepsGrants(s: State, digest: string -> string, e: string, r: nat, code: string)
    requires CaptchaInv(s) && GrantInv(s, e) && r in s.requests && s.requests[r].goal.Send?
      && s.requests[r].phase.Granted?
    ensures GrantInv(StoreStep(s, digest, r, code), e)
  {
    IssuedOnce(s, digest(code), e, r);
    MayStay(s, e, r, StoreStep(s, digest, r, code));
  }

  lemma CheckKeepsGrants(s: State, e: string, r: nat)
    requires GrantInv(s, e) && r in s.requests && s.requests[r].goal.Login?
    ensures GrantInv(CheckStep(s, r), e)
  {
    LoggedKeepsGrants(s, e, CheckStep(s, r), Check(s.requests[r].goal.email));
  }

  lemma DecrementKeepsGrants(s: State, e: string, r: nat)
    requires GrantInv(s, e) && r in s.requests && s.requests[r].goal.Confirm?
    ensures GrantInv(DecrementStep(s, r), e)
  {
    var key := s.requests[r].goal.key;
    LoggedKeepsGrants(s, e, DecrementStep(s, r), Try(key, Decremented(s, key).value >= 0));
  }

  lemma MoveKeepsGrants(s: State, e: string, r: nat, phase: Phase)
    requires GrantInv(s, e) && r in s.requests && !phase.Passed? && !phase.Granted?
    ensures GrantInv(Move(s, r, phase), e)
  {
    SilentKeepsGrants(s, e, Move(s, r, phase));
  }

  lemma GetKeepsGrants(s: State, digest: string -> string, e: string, r: nat)
    requires GrantInv(s, e) && r in s.requests && s.requests[r].goal.Confirm?
    ensures GrantInv(GetStep(s, digest, r), e)
  {
    DropKeepsGrants(s, e, r);
    if r in GetStep(s, digest, r).requests {
      MoveKeepsGrants(s, e, r, Matched(s.codes[s.requests[r].goal.key], s.now, |s.log|));
    }
  }

  lemma DelKeepsGrants(s: State, e: string, r: nat)
    requires GrantInv(s, e) && r in s.requests && s.requests[r].goal.Confirm? && s.requests[r].phase.Matched?
    ensures GrantInv(DelStep(s, r), e)
  {
    LoggedKeepsGrants(s, e, DelStep(s, r), Success(s, r));
  }

  lemma RequestKeepsGrants(s: State, digest: string -> string, e: string, r: nat, step: Step)
    requires CaptchaInv(s) && GrantInv(s, e) && r in s.requests
    ensures GrantInv(RequestNext(s, digest, r, step), e)
  {
    var Request(goal, _, phase) := s.requests[r];
    match step
    case Abort => DropKeepsGrants(s, e, r);
    case Verify => if phase.Asked? { VerifyKeepsGrants(s, e, r); }
    case CheckPassword => if goal.Login? { CheckKeepsGrants(s, e, r); }
    case Decrement => if goal.Confirm? { DecrementKeepsGrants(s, e, r); }
    case Get => if goal.Confirm? { GetKeepsGrants(s, digest, e, r); }
    case Del => if phase.Matched? && goal.Confirm? { DelKeepsGrants(s, e, r); }
    case SetCooldown => if phase.Passed? && goal.Send? { CooldownKeepsGrants(s, e, r); }
    case Store(code) => if phase.Granted? && goal.Send? { StoreKeepsGrants(s, digest, e, r, code); }
  }

  lemma ArriveKeepsGrants(s: State, e: string, r: nat, q: Request)
    requires GrantInv(s, e) && q.phase.Asked?
    ensures GrantInv(s.(requests := s.requests[r := q]), e)
  {
    SilentKeepsGrants(s, e, s.(requests := s.requests[r := q]));
  }

  lemma TickKeepsGrants(s: State, e: string, seconds: nat)
    requires GrantInv(s, e)
    ensures GrantInv(s.(now := s.now + seconds), e)
  {
    SilentKeepsGrants(s, e, s.(now := s.now + seconds));
  }

  lemma GenerateKeepsGrants(s: State, e: string, captchas: map<string, Captcha>, generated: set<string>)
    requires GrantInv(s, e)
    ensures GrantInv(s.(captchas := captchas, generated := generated), e)
  {
    SilentKeepsGrants(s, e, s.(captchas := captchas, generated := generated));
  }

  lemma NextKeepsGrants(s: State, digest: string -> string, e: string, event: Event)
    requires CaptchaInv(s) && GrantInv(s, e)
    ensures GrantInv(Next(s, digest, event), e)
  {
    match event
    case Tick(seconds) => TickKeepsGrants(s, e, seconds);
    case Generate(id, answer, seconds) =>
      GenerateKeepsGrants(s, e, s.captchas[id := Captcha(answer, s.now + seconds)], s.generated + {id});
    case Arrive(r, goal, captcha, answer) => ArriveKeepsGrants(s, e, r, Request(goal, captcha, Asked(answer)));
    case OfRequest(r, step) => if r in s.requests { RequestKeepsGrants(s, digest, e, r, step); }
  }

  lemma {:induction false} RunKeepsGrants(s: State, digest: string -> string, events: seq<Event>, e: string)
    requires CaptchaInv(s) && GrantInv(s, e)
    ensures GrantInv(After(s, digest, events), e)
  {
    if events != [] {
      var front := events[..|events| - 1];
      RunKeepsGrants(s, digest, front, e);
      CaptchaRun(s, digest, front);
      NextKeepsGrants(After(s, digest, front), digest, e, events[|events| - 1]);
    }
  }

  // ----- how far apart they are sent -----

  /** A cooldown is granted only when none is running, and then runs for thirty seconds. */
  predicate GrantShape(s: State, t: State) {
    && |t.log| == |s.log| + 1
    && var a := t.log[|s.log|];
       && a.Grant? && a.at == s.now == t.now && t.log == s.log + [a]
       && !(a.email in s.cooldowns && s.now < s.cooldowns[a.email])
       && t.cooldowns == s.cooldowns[a.email := s.now + COOLDOWN_SECONDS]
  }

  /** Every other step logs at most one act, which is no grant, and leaves the cooldowns. */
  predicate OtherShape(s: State, t: State) {
    && s.now <= t.now && t.cooldowns == s.cooldowns
    && (t.log == s.log || (|t.log| == |s.log| + 1 && t.log == s.log + [t.log[|s.log|]] && !t.log[|s.log|].Grant?))
  }

  lemma CooldownShape(s: State, r: nat)
    requires r in s.requests && s.requests[r].goal.Send?
    ensures GrantShape(s, CooldownStep(s, r)) || OtherShape(s, CooldownStep(s, r))
  {
    var email := s.requests[r].goal.key.email;
    if !(email in s.cooldowns && s.now < s.cooldowns[email]) {
      assert CooldownStep(s, r).log == s.log + [Grant(email, s.now)];
    }
  }

  lemma StoreShape(s: State, digest: string -> string, r: nat, code: string)
    requires r in s.requests && s.requests[r].goal.Send?
    ensures OtherShape(s, StoreStep(s, digest, r, code))
  {
    assert StoreStep(s, digest, r, code).log == s.log + [Issue(s.requests[r].goal.key, digest(code), s.now)];
  }

  lemma DelShape(s: State, r: nat)
    requires r in s.requests && s.requests[r].goal.Confirm? && s.requests[r].phase.Matched?
    ensures OtherShape(s, DelStep(s, r))
  {
    assert DelStep(s, r).log == s.log + [Success(s, r)];
  }

  lemma VerifyShape(s: State, r: nat)
    requires r in s.requests && s.requests[r].phase.Asked?
    ensures OtherShape(s, VerifyStep(s, r))
  {
  }

  lemma CheckShape(s: State, r: nat)
    requires r in s.requests && s.requests[r].goal.Login?
    ensures OtherShape(s, CheckStep(s, r))
  {
    assert CheckStep(s, r).log == s.log + [Check(s.requests[r].goal.email)];
  }

  lemma DecrementShape(s: State, r: nat)
    requires r in s.requests && s.requests[r].goal.Confirm?
    ensures OtherShape(s, DecrementStep(s, r))
  {
    var key := s.requests[r].goal.key;
    assert DecrementStep(s, r).log == s.log + [Try(key, Decremented(s, key).value >= 0)];
  }

  lemma GetShape(s: State, digest: string -> string, r: nat)
    requires r in s.requests && s.requests[r].goal.Confirm?
    ensures OtherShape(s, GetStep(s, digest, r))
  {
  }

  lemma RequestShape(s: State, digest: string -> string, r: nat, step: Step)
    requires r in s.requests
    ensures var t := RequestNext(s, digest, r, step); GrantShape(s, t) || OtherShape(s, t)
  {
    var Request(goal, _, phase) := s.requests[r];
    match step
    case Verify => if phase.Asked? { VerifyShape(s, r); }
    case Del => if phase.Matched? && goal.Confirm? { DelShape(s, r); }
    case SetCooldown => if goal.Send? { CooldownShape(s, r); }
    case Store(code) => if goal.Send? { StoreShape(s, digest, r, code); }
    case CheckPassword => if goal.Login? { CheckShape(s, r); }
    case Decrement => if goal.Confirm? { DecrementShape(s, r); }
    case Get => if goal.Confirm? { GetShape(s, digest, r); }
    case Abort =>
  }

  lemma NextShape(s: State, digest: string -> string, event: Event)
    ensures var t := Next(s, digest, event); GrantShape(s, t) || OtherShape(s, t)
  {
    if event.OfRequest? && event.r in s.requests {
      RequestShape(s, digest, event.r, event.step);
    }
  }

  /** Grants of an email are thirty seconds apart, and its cooldown runs for thirty seconds after each. */
  predicate Spaced(s: State, e: string) {
    && (forall i :: 0 <= i < |s.log| && Is(s.log[i], Grants(e)) ==>
          e in s.cooldowns && s.log[i].at + COOLDOWN_SECONDS <= s.cooldowns[e])
    && (forall i, j :: 0 <= i < j < |s.log| && Is(s.log[i], Grants(e)) && Is(s.log[j], Grants(e)) ==>
          s.log[i].at + COOLDOWN_SECONDS <= s.log[j].at)
  }

  lemma SpacedNext(s: State, t: State, e: string)
    requires Spaced(s, e) && (GrantShape(s, t) || OtherShape(s, t))
    ensures Spaced(t, e)
  {
    forall i | 0 <= i < |t.log| && Is(t.log[i], Grants(e))
      ensures e in t.cooldowns && t.log[i].at + COOLDOWN_SECONDS <= t.cooldowns[e]
    {
      assert i < |s.log| ==> t.log[i] == s.log[i];
    }
  }

  lemma {:induction false} SpacedRun(s: State, digest: string -> string, events: seq<Event>, e: string)
    requires Spaced(s, e)
    ensures Spaced(After(s, digest, events), e)
  {
    if events != [] {
      var before := After(s, digest, events[..|events| - 1]);
      SpacedRun(s, digest, events[..|events| - 1], e);
      NextShape(before, digest, events[|events| - 1]);
      SpacedNext(before, Next(before, digest, events[|events| - 1]), e);
    }
  }

  /** In every run, any two cooldowns granted to an email are thirty seconds apart. */
  lemma {:induction false} GrantsApart(start: State, digest: string -> string, events: seq<Event>,
      e: string, i: nat, j: nat)
    requires Start(start) && i < j < |After(start, digest, events).log|
    requires Is(After(start, digest, events).log[i], Grants(e)) && Is(After(start, digest, events).log[j], Grants(e))
    ensures After(start, digest, events).log[i].at + COOLDOWN_SECONDS <= After(start, digest, events).log[j].at
  {
    SpacedRun(start, digest, events, e);
  }

  /** What a stretch of a run logs comes after what was there, and its grants are no earlier than its beginning. */
  lemma {:induction false} GrantsLater(s: State, digest: string -> string, events: seq<Event>, e: string)
    ensures var t := After(s, digest, events);
      && s.log <= t.log && s.now <= t.now
      && forall i :: |s.log| <= i < |t.log| && Is(t.log[i], Grants(e)) ==> s.now <= t.log[i].at <= t.now
  {
    if events != [] {
      var before := After(s, digest, events[..|events| - 1]);
      GrantsLater(s, digest, events[..|events| - 1], e);
      NextShape(before, digest, events[|events| - 1]);
    }
  }

  /** The n grants after position p are spread over thirty seconds for each but the first. */
  lemma {:induction false} SpreadOut(log: seq<Act>, e: string, p: nat, from: nat) returns (last: nat)
    requires p <= |log| && Count(log, Grants(e)) > Count(log[..p], Grants(e))
    requires forall i, j :: 0 <= i < j < |log| && Is(log[i], Grants(e)) && Is(log[j], Grants(e)) ==>
      log[i].at + COOLDOWN_SECONDS <= log[j].at
    requires forall i :: p <= i < |log| && Is(log[i], Grants(e)) ==> from <= log[i].at
    ensures p <= last < |log| && Is(log[last], Grants(e))
    ensures from + (Count(log, Grants(e)) - Count(log[..p], Grants(e)) - 1) * COOLDOWN_SECONDS <= log[last].at
  {
    assert log[..|log|] == log;
    var front := log[..|log| - 1];
    assert front[..p] == log[..p];
    if Count(front, Grants(e)) > Count(log[..p], Grants(e)) {
      last := SpreadOut(front, e, p, from);
      if Is(log[|log| - 1], Grants(e)) {
        last := |log| - 1;
      }
    } else {
      last := |log| - 1;
    }
  }

  /** In any T seconds of any run, an email is granted at most T/30 + 1 cooldowns. */
  lemma {:induction false} GrantsPerStretch(s: State, digest: string -> string, events: seq<Event>, e: string)
    requires Spaced(s, e)
    ensures var t := After(s, digest, events);
      Count(t.log, Grants(e)) - Count(s.log, Grants(e)) <= (t.now - s.now) / COOLDOWN_SECONDS + 1
  {
    var t := After(s, digest, events);
    GrantsLater(s, digest, events, e);
    SpacedRun(s, digest, events, e);
    assert t.log[..|s.log|] == s.log;
    if Count(t.log, Grants(e)) > Count(s.log, Grants(e)) {
      var last := SpreadOut(t.log, e, |s.log|, s.now);
    }
  }

  lemma {:induction false} IssuesAdd(log: seq<Act>, e: string)
    ensures Count(log, IssuesTo(e)) == Count(log, Issues(Key(e, Register))) + Count(log, Issues(Key(e, ResetPassword)))
  {
    if log != [] {
      var a := log[|log| - 1];
      if a.Issue? {
        assert a.key == Key(a.key.email, a.key.purpose)
          && (a.key.purpose == Register || a.key.purpose == ResetPassword);
      }
      IssuesAdd(log[..|log| - 1], e);
    }
  }

  /** Admissions to both purposes of an email. */
  function AdmissionsTo(log: seq<Act>, e: string): nat {
    Count(log, Admissions(Key(e, Register))) + Count(log, Admissions(Key(e, ResetPassword)))
  }

  /** In any T seconds of any run, an email is sent at most T/30 + 1 codes over both purposes, besides those granted
      before and not yet sent; and at most three times as many attempts are admitted, besides what the counters held. */
  lemma {:induction false} CodesPerEmail(start: State, digest: string -> string, before: seq<Event>, events: seq<Event>,
      e: string)
    requires Start(start)
    ensures var s := After(start, digest, before); var t := After(s, digest, events);
      var pending, sent := Count(s.log, Grants(e)) - Count(s.log, IssuesTo(e)),
        Count(t.log, IssuesTo(e)) - Count(s.log, IssuesTo(e));
      && pending >= 0 && sent <= pending + (t.now - s.now) / COOLDOWN_SECONDS + 1
      && AdmissionsTo(t.log, e) - AdmissionsTo(s.log, e)
           <= Left(s, Key(e, Register)) + Left(s, Key(e, ResetPassword)) + 3 * sent
  {
    var s := After(start, digest, before);
    var t := After(s, digest, events);
    RunKeepsGrants(start, digest, before, e);
    CaptchaRun(start, digest, before);
    RunKeepsGrants(s, digest, events, e);
    SubsetSize(Of(s.issued, e), Of(s.granted, e));
    SubsetSize(Of(t.issued, e), Of(t.granted, e));
    SpacedRun(start, digest, before, e);
    GrantsPerStretch(s, digest, events, e);
    IssuesAdd(s.log, e);
    IssuesAdd(t.log, e);
    AnyStretch(s, digest, events, Key(e, Register));
    AnyStretch(s, digest, events, Key(e, ResetPassword));
  }
}
