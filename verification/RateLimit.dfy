/** The fixed-window rate limiter. `Limiter` holds the counters, one per key; `Serve` is one request against one
    counter; `AnyInterval` bounds what every arrival sequence gets through. Times are whole seconds of one monotonic
    clock. */
module RateLimit {
  import opened Seqs
  import Decimal

  const UINT64: nat := Decimal.UINT64

  /** The count is a 64-bit word that wraps; the expiry is set once, when the window opens. */
  datatype Window = Window(expiry: int, count: nat)

  /** The limiter accepts no other policy. */
  datatype Policy = Policy(limit: nat, seconds: nat)

  predicate ValidPolicy(p: Policy) {
    1 <= p.limit < UINT64 && 1 <= p.seconds
  }

  lemma PoliciesAre(p: Policy)
    ensures ValidPolicy(p) <==> p.limit > 0 && p.limit < 0x1_0000_0000_0000_0000 && p.seconds > 0
  {
  }

  predicate Open(w: Option<Window>, now: int) {
    w.Some? && now < w.value.expiry
  }

  /** The window a request at `now` is counted in, itself included. */
  function Serve(w: Option<Window>, now: int, p: Policy): Window {
    if Open(w, now) then w.value.(count := (w.value.count + 1) % UINT64) else Window(now + p.seconds, 1)
  }

  predicate Admits(w: Option<Window>, now: int, p: Policy) {
    Serve(w, now, p).count <= p.limit
  }

  /** What a refused request is told to wait. */
  function RetryAfter(w: Option<Window>, now: int, p: Policy): int {
    if !Open(w, now) then p.seconds else if w.value.expiry - now > 1 then w.value.expiry - now else 1
  }

  class Limiter {
    var counters: map<string, Window>

    constructor ()
      ensures counters == map[]
    {
      counters := map[];
    }

    function Counter(key: string): Option<Window>
      reads this
    {
      if key in counters then Some(counters[key]) else None
    }

    /** Zero admits the request; anything else is the time to wait. Only the counter of the key changes. */
    method ConsumeRequest(key: string, now: int, p: Policy) returns (retryAfter: int)
      requires ValidPolicy(p)
      modifies this
      ensures counters == old(counters)[key := Serve(old(Counter(key)), now, p)]
      ensures retryAfter >= 0
      ensures retryAfter == 0 <==> Admits(old(Counter(key)), now, p)
      ensures retryAfter > 0 ==> retryAfter == RetryAfter(old(Counter(key)), now, p)
    {
      var found := key in counters && now < counters[key].expiry;
      var wait := 1;
      if found && counters[key].expiry - now > 1 {
        wait := counters[key].expiry - now;
      }
      if !found {
        counters := counters[key := Window(now + p.seconds, 0)];
        wait := p.seconds;
      }
      var counter := counters[key];
      counters := counters[key := counter.(count := (counter.count + 1) % UINT64)];
      if counters[key].count <= p.limit {
        return 0;
      }
      return wait;
    }
  }

  // ----- every arrival sequence -----

  function Last(s: seq<int>): int
    requires s != []
  {
    s[|s| - 1]
  }

  function Front(s: seq<int>): seq<int>
    requires s != []
  {
    s[..|s| - 1]
  }

  /** The counter after these arrivals. */
  function After(arrivals: seq<int>, p: Policy): Option<Window> {
    if arrivals == [] then None else Some(Serve(After(Front(arrivals), p), Last(arrivals), p))
  }

  /** Whether the last of these arrivals gets through. */
  predicate LastAdmitted(arrivals: seq<int>, p: Policy)
    requires arrivals != []
  {
    Admits(After(Front(arrivals), p), Last(arrivals), p)
  }

  /** How many arrivals from `a` on, and before `b`, get through. */
  function Admitted(arrivals: seq<int>, p: Policy, a: int, b: int): nat {
    if arrivals == [] then 0
    else Admitted(Front(arrivals), p, a, b) + if a <= Last(arrivals) < b && LastAdmitted(arrivals, p) then 1 else 0
  }

  predicate Ordered(arrivals: seq<int>) {
    forall i, j :: 0 <= i < j < |arrivals| ==> arrivals[i] <= arrivals[j]
  }

  function Min(a: nat, b: nat): nat {
    if a < b then a else b
  }

  /** No window is asked for 2^64 requests, so no count wraps. */
  predicate FewPerWindow(arrivals: seq<int>, p: Policy) {
    arrivals == [] ||
    var w := After(Front(arrivals), p);
    FewPerWindow(Front(arrivals), p) && (Open(w, Last(arrivals)) ==> w.value.count < UINT64 - 1)
  }

  lemma {:induction false} CountStarts(arrivals: seq<int>, p: Policy)
    requires arrivals != [] && FewPerWindow(arrivals, p) && ValidPolicy(p)
    ensures 1 <= After(arrivals, p).value.count < UINT64
    ensures Last(arrivals) < After(arrivals, p).value.expiry <= Last(arrivals) + p.seconds || !Ordered(arrivals)
  {
    if |arrivals| > 1 {
      CountStarts(Front(arrivals), p);
      assert Front(arrivals)[|arrivals| - 2] == arrivals[|arrivals| - 2];
    }
  }

  /** Fewer than 2^64 arrivals come within one window length of any of them. */
  predicate Sparse(arrivals: seq<int>, p: Policy) {
    forall i, j :: 0 <= i <= j < |arrivals| && arrivals[j] < arrivals[i] + p.seconds ==> j - i < UINT64 - 1
  }

  /** The open window starts at one of the arrivals, and its count is that of the arrivals from there on. */
  lemma {:induction false} SparseIsFew(arrivals: seq<int>, p: Policy) returns (first: nat)
    requires arrivals != [] && Sparse(arrivals, p) && ValidPolicy(p)
    ensures FewPerWindow(arrivals, p) && first < |arrivals| && Last(arrivals) < arrivals[first] + p.seconds
    ensures After(arrivals, p) == Some(Window(arrivals[first] + p.seconds, |arrivals| - first))
  {
    var front, end := Front(arrivals), |arrivals| - 1;
    if front == [] {
      first := end;
      OneArrival(arrivals, p);
    } else {
      SparseFront(arrivals, p);
      var before := SparseIsFew(front, p);
      assert front[before] == arrivals[before];
      first := if arrivals[end] < arrivals[before] + p.seconds then before else end;
      NextFew(arrivals, p, before);
    }
  }

  lemma OneArrival(arrivals: seq<int>, p: Policy)
    requires |arrivals| == 1
    ensures FewPerWindow(arrivals, p) && After(arrivals, p) == Some(Window(arrivals[0] + p.seconds, 1))
  {
    var front := Front(arrivals);
    assert front == [] && FewPerWindow(front, p) && After(front, p) == None;
    assert !Open(After(front, p), Last(arrivals)) && Last(arrivals) == arrivals[0];
    assert After(arrivals, p) == Some(Serve(After(front, p), Last(arrivals), p));
  }

  lemma NoWrap(n: nat)
    requires n < UINT64 - 1
    ensures (n + 1) % UINT64 == n + 1
  {
  }

  lemma SparseFront(arrivals: seq<int>, p: Policy)
    requires arrivals != [] && Sparse(arrivals, p)
    ensures Sparse(Front(arrivals), p)
  {
  }

  /** One more arrival, after a window that started with this one. */
  lemma NextFew(arrivals: seq<int>, p: Policy, before: nat)
    requires |arrivals| >= 2 && before < |arrivals| - 1 && Sparse(arrivals, p) && ValidPolicy(p)
    requires FewPerWindow(Front(arrivals), p)
    requires After(Front(arrivals), p) == Some(Window(arrivals[before] + p.seconds, |arrivals| - 1 - before))
    ensures FewPerWindow(arrivals, p)
    ensures var first := if Last(arrivals) < arrivals[before] + p.seconds then before else |arrivals| - 1;
      After(arrivals, p) == Some(Window(arrivals[first] + p.seconds, |arrivals| - first))
  {
    var end := |arrivals| - 1;
    var w := Window(arrivals[before] + p.seconds, end - before);
    assert Last(arrivals) == arrivals[end] && After(arrivals, p) == Some(Serve(Some(w), arrivals[end], p));
    if arrivals[end] < arrivals[before] + p.seconds {
      assert end - before < UINT64 - 1;
      NoWrap(end - before);
    }
  }

  /** What the arrivals from `a` on have filled: `i` whole windows before the open one, which starts late enough after
      `a`. If the first of them started before `a`, it admitted a request before `a` too. */
  predicate Filled(w: Window, p: Policy, a: int, admitted: nat, i: nat, early: bool) {
    if early then
      && admitted + 1 <= i * p.limit + Min(w.count, p.limit)
      && (admitted > 0 ==> w.expiry > a)
      && (i > 0 ==> admitted > 0 && w.expiry - p.seconds > a + (i - 1) * p.seconds)
    else
      && admitted <= i * p.limit + Min(w.count, p.limit)
      && w.expiry - p.seconds >= a + i * p.seconds
  }

  lemma FilledNext(w: Window, now: int, p: Policy, a: int, admitted: nat, i: nat, early: bool) returns (j: nat, e: bool)
    requires ValidPolicy(p) && Filled(w, p, a, admitted, i, early)
    requires 1 <= w.count && (now < w.expiry ==> w.count < UINT64 - 1)
    ensures var more := if a <= now && Admits(Some(w), now, p) then 1 else 0;
      Filled(Serve(Some(w), now, p), p, a, admitted + more, j, e)
  {
    var renewed := now >= w.expiry;
    j := if renewed && (!early || admitted > 0) then i + 1 else i;
    e := early && (!renewed || admitted > 0 || now < a);
    assert (i + 1) * p.limit == i * p.limit + p.limit;
    assert (i + 1) * p.seconds == i * p.seconds + p.seconds;
    assert i > 0 ==> (i - 1) * p.seconds + p.seconds == i * p.seconds;
  }

  lemma {:induction false} FilledAlways(arrivals: seq<int>, p: Policy, a: int, b: int) returns (i: nat, early: bool)
    requires arrivals != [] && FewPerWindow(arrivals, p) && ValidPolicy(p)
    requires forall k :: 0 <= k < |arrivals| ==> arrivals[k] < b
    ensures Filled(After(arrivals, p).value, p, a, Admitted(arrivals, p, a, b), i, early)
  {
    var front := Front(arrivals);
    if front == [] {
      assert Admitted(front, p, a, b) == 0;
      i, early := 0, Last(arrivals) < a;
    } else {
      var before, earlier := FilledAlways(front, p, a, b);
      CountStarts(front, p);
      i, early := FilledNext(After(front, p).value, Last(arrivals), p, a, Admitted(front, p, a, b), before, earlier);
    }
  }

  lemma Monotonic(x: int, y: int, z: int)
    requires x <= y && 0 <= z
    ensures x * z <= y * z
  {
    assert (y - x) * z >= 0;
    assert (y - x) * z == y * z - x * z;
  }

  lemma FewWindows(w: Window, p: Policy, a: int, admitted: nat, i: nat, early: bool, k: nat)
    requires ValidPolicy(p) && k >= 1 && Filled(w, p, a, admitted, i, early) && w.expiry - p.seconds < a + k * p.seconds
    ensures admitted <= (k + 1) * p.limit - 1
  {
    var whole := if early then i else i + 1;
    if whole > k {
      Monotonic(k, whole - 1, p.seconds);
      assert false;
    }
    Monotonic(whole, k, p.limit);
    assert (i + 1) * p.limit == i * p.limit + p.limit;
    assert (k + 1) * p.limit == k * p.limit + p.limit;
  }

  /** Any half-open interval of `k` window lengths lets fewer than (k + 1) times the limit through, whatever the
      arrivals. */
  lemma {:induction false} AnyInterval(arrivals: seq<int>, p: Policy, a: int, k: nat)
    requires Ordered(arrivals) && FewPerWindow(arrivals, p) && ValidPolicy(p) && k >= 1
    ensures Admitted(arrivals, p, a, a + k * p.seconds) <= (k + 1) * p.limit - 1
  {
    var b := a + k * p.seconds;
    Monotonic(1, k + 1, p.limit);
    if arrivals != [] {
      if Last(arrivals) >= b {
        AnyInterval(Front(arrivals), p, a, k);
      } else {
        var i, early := FilledAlways(arrivals, p, a, b);
        CountStarts(arrivals, p);
        FewWindows(After(arrivals, p).value, p, a, Admitted(arrivals, p, a, b), i, early, k);
      }
    }
  }

  /** The bound is reached: with two requests a window, three get through in one window length. */
  lemma BoundIsReached()
    ensures Ordered([0, 1, 2, 2]) && Admitted([0, 1, 2, 2], Policy(2, 2), 1, 3) == 3
  {
    var p := Policy(2, 2);
    assert Front([0, 1, 2, 2]) == [0, 1, 2] && Front([0, 1, 2]) == [0, 1] && Front([0, 1]) == [0] && Front([0]) == [];
    assert After([], p) == None;
    assert After([0], p) == Some(Window(2, 1));
    assert After([0, 1], p) == Some(Window(2, 2));
    assert After([0, 1, 2], p) == Some(Window(4, 1));
    assert Admitted([0], p, 1, 3) == 0;
    assert Admitted([0, 1], p, 1, 3) == 1;
    assert Admitted([0, 1, 2], p, 1, 3) == 2;
  }

  lemma OpenedAt(arrivals: seq<int>, p: Policy)
    requires arrivals != []
    ensures var w := After(Front(arrivals), p);
      if Open(w, Last(arrivals)) then After(arrivals, p).value.expiry == w.value.expiry
      else After(arrivals, p).value.expiry == Last(arrivals) + p.seconds
  {
  }

  /** What has been admitted since the open window started. */
  lemma {:induction false} WindowCount(arrivals: seq<int>, p: Policy, b: int)
    requires arrivals != [] && Ordered(arrivals) && FewPerWindow(arrivals, p) && ValidPolicy(p) && Last(arrivals) < b
    ensures var w := After(arrivals, p).value;
      && w.expiry - p.seconds <= Last(arrivals) < w.expiry
      && Admitted(arrivals, p, w.expiry - p.seconds, b) >= Min(w.count, p.limit)
  {
    var front, now := Front(arrivals), Last(arrivals);
    if front != [] {
      assert Last(front) <= now;
      WindowCount(front, p, b);
      CountStarts(front, p);
    }
  }

  /** A refusal is never early: the whole limit has been admitted since the window started, which is less than one
      window ago. */
  lemma RefusedOnlyWhenFull(arrivals: seq<int>, p: Policy)
    requires arrivals != [] && Ordered(arrivals) && FewPerWindow(arrivals, p) && ValidPolicy(p)
    requires !LastAdmitted(arrivals, p)
    ensures var w := After(arrivals, p).value;
      && w.expiry - p.seconds <= Last(arrivals) < w.expiry
      && Admitted(arrivals, p, w.expiry - p.seconds, Last(arrivals) + 1) >= p.limit
  {
    WindowCount(arrivals, p, Last(arrivals) + 1);
  }

  /** A refused client that does not wait as long as told is refused again: the wait is no longer than it need be. */
  lemma WaitingLessFails(arrivals: seq<int>, p: Policy, later: int)
    requires arrivals != [] && ValidPolicy(p) && !LastAdmitted(arrivals, p)
    requires After(arrivals, p).value.count < UINT64 - 1
    requires Last(arrivals) <= later < Last(arrivals) + RetryAfter(After(Front(arrivals), p), Last(arrivals), p)
    ensures !LastAdmitted(arrivals + [later], p)
  {
    assert Front(arrivals + [later]) == arrivals && Last(arrivals + [later]) == later;
    OpenedAt(arrivals, p);
    assert Open(After(Front(arrivals), p), Last(arrivals));
    assert Open(After(arrivals, p), later) && After(arrivals, p).value.count > p.limit;
  }

  /** A refused client that waits as told, alone on its counter, gets through. */
  lemma WaitingWorks(arrivals: seq<int>, p: Policy, later: int)
    requires arrivals != [] && ValidPolicy(p) && !LastAdmitted(arrivals, p)
    requires later >= Last(arrivals) + RetryAfter(After(Front(arrivals), p), Last(arrivals), p)
    ensures LastAdmitted(arrivals + [later], p)
  {
    assert Front(arrivals + [later]) == arrivals;
    OpenedAt(arrivals, p);
  }

  /** Requests that come all at once. */
  function Burst(n: nat): (arrivals: seq<int>)
    ensures |arrivals| == n && forall i :: 0 <= i < n ==> arrivals[i] == 0
  {
    seq(n, i => 0)
  }

  lemma BurstFront(n: nat)
    requires n > 0
    ensures Front(Burst(n)) == Burst(n - 1) && Last(Burst(n)) == 0
  {
  }

  lemma {:induction false} BurstCount(n: nat, p: Policy)
    requires ValidPolicy(p) && n > 0
    ensures After(Burst(n), p) == Some(Window(p.seconds, n % UINT64))
  {
    BurstFront(n);
    if n > 1 {
      BurstCount(n - 1, p);
      Wraps(n - 1);
    }
  }

  lemma Wraps(n: nat)
    ensures (n % UINT64 + 1) % UINT64 == (n + 1) % UINT64
  {
    var q := n / UINT64;
    assert n == q * UINT64 + n % UINT64;
    if n % UINT64 == UINT64 - 1 {
      assert n + 1 == (q + 1) * UINT64;
    } else {
      assert n + 1 == q * UINT64 + (n % UINT64 + 1);
    }
  }

  /** The last of a burst gets through if it is among the first `limit`, or comes once the count has wrapped. */
  lemma BurstEnd(n: nat, p: Policy)
    requires ValidPolicy(p) && p.limit < UINT64 - 1 && 0 < n <= UINT64 + p.limit
    ensures LastAdmitted(Burst(n), p) <==> n <= p.limit || n >= UINT64
  {
    BurstFront(n);
    BurstCount(n, p);
    assert After(Burst(n), p) == Some(Serve(After(Burst(n - 1), p), 0, p));
    assert LastAdmitted(Burst(n), p) <==> n % UINT64 <= p.limit;
    if n >= UINT64 {
      assert n == 1 * UINT64 + (n - UINT64);
    }
  }

  /** The first `limit` requests of a burst get through, and again the last of 2^64 and `limit` more after it. */
  lemma {:induction false} BurstAdmits(n: nat, p: Policy)
    requires ValidPolicy(p) && p.limit < UINT64 - 1 && n <= UINT64 + p.limit
    ensures Admitted(Burst(n), p, 0, p.seconds)
         == if n <= p.limit then n else if n < UINT64 then p.limit else p.limit + 1 + (n - UINT64)
  {
    if n > 0 {
      BurstFront(n);
      BurstAdmits(n - 1, p);
      BurstEnd(n, p);
    }
  }

  /** A remark on that proviso, of which no traffic comes near: were 2^64 requests and more to come in one window, the
      count would wrap, and let more than twice the limit through. */
  lemma WrappingAdmits(p: Policy)
    requires ValidPolicy(p) && p.limit < UINT64 - 1
    ensures Ordered(Burst(UINT64 + p.limit))
    ensures Admitted(Burst(UINT64 + p.limit), p, 0, p.seconds) == 2 * p.limit + 1
  {
    BurstAdmits(UINT64 + p.limit, p);
  }
}
