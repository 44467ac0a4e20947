/** What each step of the CAPTCHA and email code protocols does, in terms of the stored values alone, and what that
    makes of whole exchanges: which answers pass, which codes are accepted, and how often. */
module AuthSteps {
  import opened AuthProtocol

  function Do(s: State, digest: string -> string, r: nat, step: Step): State {
    Next(s, digest, OfRequest(r, step))
  }

  // ----- one step -----

  /** A CAPTCHA is stored under a new id of 26 characters. */
  lemma GenerateIs(s: State, digest: string -> string, id: string, answer: string, seconds: nat)
    requires id !in s.generated && |id| == 26
    ensures Next(s, digest, Generate(id, answer, seconds))
      == s.(captchas := s.captchas[id := Captcha(answer, s.now + seconds)], generated := s.generated + {id})
  {
  }

  /** A request arrives, and waits for its CAPTCHA. */
  lemma ArriveIs(s: State, digest: string -> string, r: nat, goal: Goal, captcha: string, answer: string)
    requires r !in s.requests
    ensures Next(s, digest, Arrive(r, goal, captcha, answer))
      == s.(requests := s.requests[r := Request(goal, captcha, Asked(answer))])
  {
  }

  lemma TickIs(s: State, digest: string -> string, seconds: nat)
    ensures Next(s, digest, Tick(seconds)) == s.(now := s.now + seconds)
  {
  }

  /** The id has 26 characters, a CAPTCHA is stored under it and has not expired, and the answer is its six. */
  predicate Answers(s: State, id: string, answer: string) {
    && |id| == 26 && id in s.captchas && s.now < s.captchas[id].expiry
    && |answer| == 6 && answer == s.captchas[id].answer
  }

  /** A request passes its CAPTCHA if and only if it answers it, and is gone otherwise; either way the CAPTCHA is taken,
      if it is there to take. */
  lemma {:induction false} VerifyIs(s: State, digest: string -> string, r: nat)
    requires r in s.requests && s.requests[r].phase.Asked?
    ensures var t, q := Do(s, digest, r, Verify), s.requests[r];
      var id, answer := q.captcha, q.phase.answer;
      && t == s.(requests := t.requests, captchas := t.captchas, spent := t.spent)
      && t.requests == (if Answers(s, id, answer) then s.requests[r := Request(q.goal, id, Passed)]
                        else s.requests - {r})
      && t.spent == (if Answers(s, id, answer) then s.spent + {id} else s.spent)
      && t.captchas == (if |id| == 26 && id in s.captchas && s.now < s.captchas[id].expiry then s.captchas - {id}
                        else s.captchas)
  {
    var id := s.requests[r].captcha;
    assert Do(s, digest, r, Verify) == VerifyStep(s, r);
    if |id| == 26 && id in s.captchas && s.now < s.captchas[id].expiry {
      var taken := s.(captchas := s.captchas - {id});
      assert !Answers(s, id, s.requests[r].phase.answer) ==> VerifyStep(s, r) == Drop(taken, r);
    } else {
      assert VerifyStep(s, r) == Drop(s, r);
    }
  }

  /** A password check spends the CAPTCHA, and the request is over. */
  lemma CheckIs(s: State, digest: string -> string, r: nat)
    requires r in s.requests && s.requests[r].phase.Passed? && s.requests[r].goal.Login?
    ensures Do(s, digest, r, CheckPassword)
      == s.(log := s.log + [Check(s.requests[r].goal.email)], acted := s.acted + {s.requests[r].captcha},
            requests := s.requests - {r})
  {
  }

  /** The counter after an attempt: one less if it is live, or a new one of -1 for ten minutes. */
  function Counted(s: State, key: Key): Counter {
    if key in s.counters && s.now < s.counters[key].expiry
    then Counter(s.counters[key].value - 1, s.counters[key].expiry)
    else Counter(-1, s.now + 600)
  }

  /** An attempt counts, and is admitted if and only if something was left to take; otherwise it is over. */
  lemma DecrementIs(s: State, digest: string -> string, r: nat)
    requires r in s.requests && s.requests[r].phase.Passed? && s.requests[r].goal.Confirm?
    ensures var t, q := Do(s, digest, r, Decrement), s.requests[r];
      var key := q.goal.key;
      var admitted := key in s.counters && s.now < s.counters[key].expiry && s.counters[key].value >= 1;
      && t == s.(requests := t.requests, counters := t.counters, log := t.log, acted := t.acted)
      && t.counters == s.counters[key := Counted(s, key)]
      && t.acted == s.acted + {q.captcha} && t.log == s.log + [Try(key, admitted)]
      && t.requests == (if admitted then s.requests[r := Request(q.goal, q.captcha, Admitted)] else s.requests - {r})
  {
    var key := s.requests[r].goal.key;
    assert Do(s, digest, r, Decrement) == DecrementStep(s, r) && Decremented(s, key) == Counted(s, key);
    if Counted(s, key).value < 0 {
      assert DecrementStep(s, r).requests == s.requests - {r};
    }
  }

  /** An admitted attempt matches if and only if a code stored less than ten minutes ago has the digest of the six
      characters submitted; otherwise the request is over. */
  lemma GetIs(s: State, digest: string -> string, r: nat)
    requires r in s.requests && s.requests[r].phase.Admitted? && s.requests[r].goal.Confirm?
    ensures var q := s.requests[r];
      var key, code := q.goal.key, q.goal.code;
      var matches := key in s.codes && s.now < s.codes[key].storedAt + 600 && |code| == 6
        && digest(code) == s.codes[key].digest;
      Do(s, digest, r, Get) == s.(requests :=
        if matches then s.requests[r := Request(q.goal, q.captcha, Matched(s.codes[key], s.now, |s.log|))]
        else s.requests - {r})
  {
  }

  /** A match deletes the code with its counter and succeeds. */
  lemma DelIs(s: State, digest: string -> string, r: nat)
    requires r in s.requests && s.requests[r].phase.Matched? && s.requests[r].goal.Confirm?
    ensures var q := s.requests[r];
      var key := q.goal.key;
      Do(s, digest, r, Del)
        == s.(codes := s.codes - {key}, counters := s.counters - {key}, requests := s.requests - {r},
              log := s.log + [Succeed(key, q.goal.code, q.phase.gotAt, q.phase.seen)])
  {
  }

  /** A cooldown is granted if and only if none is running for the email, whatever the purpose, and then runs for thirty
      seconds; otherwise the request is over. */
  lemma CooldownIs(s: State, digest: string -> string, r: nat)
    requires r in s.requests && s.requests[r].phase.Passed? && s.requests[r].goal.Send?
    ensures var t, q := Do(s, digest, r, SetCooldown), s.requests[r];
      var email := q.goal.key.email;
      if email in s.cooldowns && s.now < s.cooldowns[email] then t == s.(requests := s.requests - {r})
      else
        && t == s.(requests := s.requests[r := Request(q.goal, q.captcha, Granted)], granted := t.granted,
                   cooldowns := s.cooldowns[email := s.now + 30], log := s.log + [Grant(email, s.now)])
        && (forall e :: Of(t.granted, e) == if e == email then Of(s.granted, e) + {q.captcha} else Of(s.granted, e))
  {
  }

  /** A granted request stores its code with three attempts, both for ten minutes, and is over. */
  lemma StoreIs(s: State, digest: string -> string, r: nat, code: string)
    requires r in s.requests && s.requests[r].phase.Granted? && s.requests[r].goal.Send?
    ensures var t, q := Do(s, digest, r, Store(code)), s.requests[r];
      var key := q.goal.key;
      && t == s.(requests := s.requests - {r}, codes := s.codes[key := Code(digest(code), s.now)],
                 counters := s.counters[key := Counter(3, s.now + 600)], issued := t.issued,
                 log := s.log + [Issue(key, digest(code), s.now)], acted := s.acted + {q.captcha})
      && (forall e :: Of(t.issued, e) == if e == key.email then Of(s.issued, e) + {q.captcha} else Of(s.issued, e))
  {
  }

  // ----- one exchange -----

  /** An attempt, taken to its end. */
  function Attempt(s: State, digest: string -> string, r: nat): State {
    Do(Do(Do(s, digest, r, Decrement), digest, r, Get), digest, r, Del)
  }

  predicate MayAttempt(s: State, r: nat, key: Key, code: string) {
    r in s.requests && s.requests[r].phase.Passed? && s.requests[r].goal == Confirm(key, code)
  }

  /** The code that was issued is accepted in all of its ten minutes, as long as attempts are left, and only once. */
  lemma RightCodeWorks(s: State, digest: string -> string, r: nat, key: Key, code: string)
    requires MayAttempt(s, r, key, code) && |code| == 6 && Left(s, key) > 0
    requires key in s.codes && s.codes[key].digest == digest(code) && s.now < s.codes[key].storedAt + 600
    ensures var t := Attempt(s, digest, r);
      && t.log == s.log + [Try(key, true)] + [Succeed(key, code, s.now, |s.log| + 1)]
      && key !in t.codes && key !in t.counters && r !in t.requests
  {
    DecrementIs(s, digest, r);
    var a := Do(s, digest, r, Decrement);
    GetIs(a, digest, r);
    DelIs(Do(a, digest, r, Get), digest, r);
  }

  /** Any other code is refused and costs an attempt. */
  lemma WrongCodeCosts(s: State, digest: string -> string, r: nat, key: Key, code: string)
    requires MayAttempt(s, r, key, code)
    requires !(key in s.codes && s.codes[key].digest == digest(code) && |code| == 6)
    ensures var t := Attempt(s, digest, r);
      && t.log == s.log + [Try(key, Left(s, key) > 0)] && t.codes == s.codes && r !in t.requests
      && Left(t, key) == (if Left(s, key) > 0 then Left(s, key) - 1 else 0) && t.now == s.now
      && t.requests == s.requests - {r}
  {
    DecrementIs(s, digest, r);
    var a := Do(s, digest, r, Decrement);
    if r in a.requests {
      GetIs(a, digest, r);
      assert Do(a, digest, r, Get).requests == s.requests - {r};
    }
    var b := Do(a, digest, r, Get);
    assert r !in b.requests && Do(b, digest, r, Del) == b;
  }

  /** Right after a code is issued exactly three attempts are left; the code is the one to submit. */
  lemma IssueGivesThree(s: State, digest: string -> string, r: nat, code: string)
    requires r in s.requests && s.requests[r].phase.Granted? && s.requests[r].goal.Send?
    ensures var t, key := Do(s, digest, r, Store(code)), s.requests[r].goal.key;
      Left(t, key) == 3 && key in t.codes && t.codes[key].digest == digest(code) && t.codes[key].storedAt == t.now
  {
    StoreIs(s, digest, r, code);
  }

  // ----- every run -----

  function Before(start: State, digest: string -> string, events: seq<Event>, k: nat): State
    requires k <= |events|
  {
    After(start, digest, events[..k])
  }

  /** At this event the CAPTCHA was generated, and not before. */
  predicate GeneratedAt(start: State, digest: string -> string, events: seq<Event>, id: string, g: nat) {
    && g < |events| && events[g].Generate? && events[g].id == id
    && id !in Before(start, digest, events, g).generated
  }

  predicate ArrivedAt(start: State, digest: string -> string, events: seq<Event>, r: nat, a: nat) {
    a < |events| && events[a].Arrive? && events[a].r == r && r !in Before(start, digest, events, a).requests
  }

  lemma Longer(start: State, digest: string -> string, events: seq<Event>, n: nat, k: nat)
    requires k <= n <= |events|
    ensures Before(start, digest, events[..n], k) == Before(start, digest, events, k)
  {
    assert events[..n][..k] == events[..k];
  }

  /** The step is none of the CAPTCHAs' business, and the request, if it stays, is not waiting for one. */
  predicate Aside(s: State, t: State, r: nat) {
    && t.captchas == s.captchas && t.now == s.now && t.generated == s.generated && t.spent == s.spent
    && t.requests - {r} == s.requests - {r} && (r in t.requests ==> !t.requests[r].phase.Asked? || t == s)
  }

  lemma AsideIf(s: State, t: State, r: nat)
    requires r in s.requests && t.captchas == s.captchas && t.now == s.now && t.generated == s.generated
      && t.spent == s.spent
    requires t.requests == s.requests - {r}
      || (r in t.requests && t.requests == s.requests[r := t.requests[r]] && !t.requests[r].phase.Asked?)
    ensures Aside(s, t, r)
  {
  }

  lemma DecrementAside(s: State, r: nat)
    requires r in s.requests && s.requests[r].goal.Confirm?
    ensures Aside(s, DecrementStep(s, r), r)
  {
    AsideIf(s, DecrementStep(s, r), r);
  }

  lemma ConfirmAside(s: State, digest: string -> string, r: nat)
    requires r in s.requests && s.requests[r].goal.Confirm?
    ensures Aside(s, GetStep(s, digest, r), r)
    ensures s.requests[r].phase.Matched? ==> Aside(s, DelStep(s, r), r)
  {
    AsideIf(s, GetStep(s, digest, r), r);
    if s.requests[r].phase.Matched? {
      AsideIf(s, DelStep(s, r), r);
    }
  }

  lemma CooldownAside(s: State, r: nat)
    requires r in s.requests && s.requests[r].goal.Send?
    ensures Aside(s, CooldownStep(s, r), r)
  {
    var t, email := CooldownStep(s, r), s.requests[r].goal.key.email;
    if email in s.cooldowns && s.now < s.cooldowns[email] {
      assert t == Drop(s, r);
    } else {
      assert t.requests == Move(s, r, Granted).requests;
    }
    AsideIf(s, t, r);
  }

  lemma StoreAside(s: State, digest: string -> string, r: nat, code: string)
    requires r in s.requests && s.requests[r].goal.Send?
    ensures Aside(s, StoreStep(s, digest, r, code), r)
  {
    AsideIf(s, StoreStep(s, digest, r, code), r);
  }

  lemma LoginAside(s: State, r: nat)
    requires r in s.requests
    ensures Aside(s, Drop(s, r), r) && (s.requests[r].goal.Login? ==> Aside(s, CheckStep(s, r), r))
  {
  }

  lemma OthersAside(s: State, digest: string -> string, r: nat, step: Step)
    requires r in s.requests && !step.Verify?
    ensures Aside(s, RequestNext(s, digest, r, step), r)
  {
    var Request(goal, _, phase) := s.requests[r];
    match step
    case CheckPassword => LoginAside(s, r);
    case Decrement => if goal.Confirm? { DecrementAside(s, r); }
    case Get => if goal.Confirm? { ConfirmAside(s, digest, r); }
    case Del => if goal.Confirm? { ConfirmAside(s, digest, r); }
    case SetCooldown => if goal.Send? { CooldownAside(s, r); }
    case Store(code) => if goal.Send? { StoreAside(s, digest, r, code); }
    case Abort => LoginAside(s, r);
  }

  /** The CAPTCHAs only lose, and the requests that wait for them stay as they are. */
  lemma RequestFrame(s: State, digest: string -> string, r: nat, step: Step)
    requires r in s.requests
    ensures var t := RequestNext(s, digest, r, step);
      && (forall id :: id in t.captchas ==> id in s.captchas && t.captchas[id] == s.captchas[id])
      && (forall q :: q in t.requests && t.requests[q].phase.Asked? ==>
            q in s.requests && t.requests[q] == s.requests[q])
  {
    var t := RequestNext(s, digest, r, step);
    if !step.Verify? {
      OthersAside(s, digest, r, step);
      assert forall q :: q in t.requests && q != r ==> q in t.requests - {r};
      assert forall q :: q in s.requests - {r} ==> (s.requests - {r})[q] == s.requests[q];
    } else if s.requests[r].phase.Asked? {
      VerifyIs(s, digest, r);
    }
  }

  /** What is stored is the answer that was generated, with its expiry. */
  lemma {:induction false} StoredWasGenerated(start: State, digest: string -> string, events: seq<Event>, id: string)
    returns (g: nat)
    requires Start(start) && id in After(start, digest, events).captchas
    ensures GeneratedAt(start, digest, events, id, g)
    ensures After(start, digest, events).captchas[id]
      == Captcha(events[g].answer, Before(start, digest, events, g).now + events[g].seconds)
  {
    if events == [] {
      assert false;
    } else {
      g := |events| - 1;
      var s, event := Before(start, digest, events, g), events[g];
      if event.Generate? && event.id == id && id !in s.generated && |id| == ID_LENGTH {
        assert GeneratedAt(start, digest, events, id, g);
      } else {
        if event.OfRequest? && event.r in s.requests {
          RequestFrame(s, digest, event.r, event.step);
        }
        var n := g;
        g := StoredWasGenerated(start, digest, events[..n], id);
        Longer(start, digest, events, n, g);
      }
    }
  }

  /** A request that waits for its CAPTCHA has arrived with the id and the answer it holds. */
  lemma {:induction false} WaitingHasArrived(start: State, digest: string -> string, events: seq<Event>, r: nat)
    returns (a: nat)
    requires Start(start)
    requires var s := After(start, digest, events); r in s.requests && s.requests[r].phase.Asked?
    ensures ArrivedAt(start, digest, events, r, a)
    ensures After(start, digest, events).requests[r]
      == Request(events[a].goal, events[a].captcha, Asked(events[a].answer))
  {
    if events == [] {
      assert false;
    } else {
      a := |events| - 1;
      var s, event := Before(start, digest, events, a), events[a];
      if event.Arrive? && event.r == r && r !in s.requests {
        assert ArrivedAt(start, digest, events, r, a);
      } else {
        if event.OfRequest? && event.r in s.requests {
          RequestFrame(s, digest, event.r, event.step);
        }
        var n := a;
        a := WaitingHasArrived(start, digest, events[..n], r);
        Longer(start, digest, events, n, a);
      }
    }
  }

  /** Nothing but a passed CAPTCHA is spent. */
  lemma SpentNow(s: State, digest: string -> string, event: Event, id: string)
    requires id in Next(s, digest, event).spent && id !in s.spent
    ensures event.OfRequest? && event.step.Verify? && event.r in s.requests && s.requests[event.r].phase.Asked?
    ensures s.requests[event.r].captcha == id && Answers(s, id, s.requests[event.r].phase.answer)
  {
    if event.OfRequest? && event.r in s.requests {
      if !event.step.Verify? {
        OthersAside(s, digest, event.r, event.step);
      } else if s.requests[event.r].phase.Asked? {
        VerifyIs(s, digest, event.r);
      }
    }
  }

  /** In every run, a CAPTCHA that has passed was generated, and then answered by a request that had arrived with its id
      and the six characters it was generated with, before its time ran out. */
  lemma {:induction false} PassedWasAnswered(start: State, digest: string -> string, events: seq<Event>, id: string)
    returns (g: nat, a: nat, v: nat)
    requires Start(start) && id in After(start, digest, events).spent
    ensures GeneratedAt(start, digest, events, id, g) && g < v < |events| && |id| == 26
    ensures a < v && events[v].OfRequest? && events[v].step.Verify?
      && ArrivedAt(start, digest, events, events[v].r, a)
    ensures events[a].captcha == id && events[a].answer == events[g].answer && |events[g].answer| == 6
    ensures Before(start, digest, events, v).now < Before(start, digest, events, g).now + events[g].seconds
  {
    if events == [] {
      assert false;
    } else {
      v := |events| - 1;
      var s := Before(start, digest, events, v);
      if id in s.spent {
        var n := v;
        g, a, v := PassedWasAnswered(start, digest, events[..n], id);
        Longer(start, digest, events, n, g);
        Longer(start, digest, events, n, a);
        Longer(start, digest, events, n, v);
      } else {
        SpentNow(s, digest, events[v], id);
        g := StoredWasGenerated(start, digest, events[..v], id);
        a := WaitingHasArrived(start, digest, events[..v], events[v].r);
        Longer(start, digest, events, v, g);
        Longer(start, digest, events, v, a);
      }
    }
  }
}
