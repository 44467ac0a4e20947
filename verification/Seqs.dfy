/** Sequence operations of the Go and JavaScript standard libraries that the models below rely on. */
module Seqs {

  datatype Option<+T> = None | Some(value: T)

  function Reverse<T>(s: seq<T>): (r: seq<T>)
    ensures |r| == |s|
    ensures forall k :: 0 <= k < |s| ==> r[k] == s[|s| - 1 - k]
  {
    if s == [] then [] else Reverse(s[1..]) + [s[0]]
  }

  lemma ReverseConcat<T>(a: seq<T>, b: seq<T>)
    ensures Reverse(a + b) == Reverse(b) + Reverse(a)
  {
  }

  /** The last position of `x`, or -1 (`bytes.LastIndexByte`, `strings.LastIndexByte`). */
  function LastIndexOf<T(==)>(s: seq<T>, x: T): (i: int)
    ensures -1 <= i < |s|
  {
    LastBefore(s, x, |s|)
  }

  function LastBefore<T(==)>(s: seq<T>, x: T, n: nat): (i: int)
    requires n <= |s|
    ensures -1 <= i < n
  {
    if n == 0 then -1 else if s[n - 1] == x then n - 1 else LastBefore(s, x, n - 1)
  }

  lemma {:induction false} LastBeforeFacts<T>(s: seq<T>, x: T, n: nat)
    requires n <= |s|
    ensures var i := LastBefore(s, x, n);
      (0 <= i ==> s[i] == x) && forall k :: i < k < n ==> s[k] != x
  {
    if 0 < n && s[n - 1] != x {
      LastBeforeFacts(s, x, n - 1);
    }
  }

  /** It is a position of `x`, and there is none after it. */
  lemma LastIndexOfFacts<T>(s: seq<T>, x: T)
    ensures var i := LastIndexOf(s, x);
      (0 <= i ==> s[i] == x) && forall k :: i < k < |s| ==> s[k] != x
  {
    LastBeforeFacts(s, x, |s|);
  }

  lemma LastIndexOfJoined<T>(a: seq<T>, x: T, b: seq<T>)
    requires x !in b
    ensures LastIndexOf(a + [x] + b, x) == |a|
  {
    var s := a + [x] + b;
    LastIndexOfFacts(s, x);
    assert s[|a|] == x;
    assert forall k :: |a| < k < |s| ==> s[k] == b[k - |a| - 1];
  }

  /** `strings.Split` for a one-character separator. */
  function Split<T(==)>(s: seq<T>, sep: T): (parts: seq<seq<T>>)
    ensures |parts| >= 1
  {
    if s == [] then [[]]
    else
      var rest := Split(s[1..], sep);
      if s[0] == sep then [[]] + rest else Prepend(s[0], rest)
  }

  function Prepend<T>(x: T, parts: seq<seq<T>>): (r: seq<seq<T>>)
    requires |parts| >= 1
    ensures |r| == |parts|
  {
    [[x] + parts[0]] + parts[1..]
  }

  lemma PrependConcat<T>(x: T, a: seq<seq<T>>, b: seq<seq<T>>)
    requires |a| >= 1
    ensures Prepend(x, a + b) == Prepend(x, a) + b
  {
    assert (a + b)[1..] == a[1..] + b;
  }

  /** `strings.Join` for a one-character separator. */
  function Join<T>(parts: seq<seq<T>>, sep: T): seq<T> {
    if parts == [] then []
    else if |parts| == 1 then parts[0]
    else parts[0] + [sep] + Join(parts[1..], sep)
  }

  lemma {:induction false} JoinSplit<T>(s: seq<T>, sep: T)
    ensures Join(Split(s, sep), sep) == s
  {
    if s != [] {
      var rest := Split(s[1..], sep);
      JoinSplit(s[1..], sep);
      if s[0] == sep {
        assert ([[]] + rest)[1..] == rest;
      } else if |rest| > 1 {
        assert ([[s[0]] + rest[0]] + rest[1..])[1..] == rest[1..];
        assert Join(Split(s, sep), sep) == [s[0]] + (rest[0] + [sep] + Join(rest[1..], sep));
      }
    }
  }

  lemma {:induction false} SplitPieces<T>(s: seq<T>, sep: T, k: nat)
    requires k < |Split(s, sep)|
    ensures sep !in Split(s, sep)[k]
  {
    if s != [] && (0 < k || s[0] != sep) {
      SplitPieces(s[1..], sep, if s[0] == sep then k - 1 else k);
    }
  }

  lemma {:induction false} SplitNone<T>(s: seq<T>, sep: T)
    requires sep !in s
    ensures Split(s, sep) == [s]
  {
    if s != [] {
      SplitNone(s[1..], sep);
      assert [s[0]] + s[1..] == s;
    }
  }

  lemma SplitCons<T>(x: T, s: seq<T>, sep: T)
    ensures Split([x] + s, sep) == if x == sep then [[]] + Split(s, sep) else Prepend(x, Split(s, sep))
  {
    assert ([x] + s)[1..] == s;
  }

  lemma ConsConcat<T>(a: seq<T>, sep: T, b: seq<T>)
    requires a != []
    ensures a + [sep] + b == [a[0]] + (a[1..] + [sep] + b)
  {
  }

  lemma {:induction false} SplitConcat<T>(a: seq<T>, sep: T, b: seq<T>)
    ensures Split(a + [sep] + b, sep) == Split(a, sep) + Split(b, sep)
  {
    if a == [] {
      assert a + [sep] + b == [sep] + b;
      SplitCons(sep, b, sep);
    } else {
      SplitConcat(a[1..], sep, b);
      ConsConcat(a, sep, b);
      SplitCons(a[0], a[1..] + [sep] + b, sep);
      var rest := Split(a[1..], sep);
      PrependConcat(a[0], rest, Split(b, sep));
      assert [[]] + (rest + Split(b, sep)) == ([[]] + rest) + Split(b, sep);
    }
  }

  lemma {:induction false} SplitJoin<T>(parts: seq<seq<T>>, sep: T)
    requires parts != []
    requires forall p :: p in parts ==> sep !in p
    ensures Split(Join(parts, sep), sep) == parts
  {
    SplitNone(parts[0], sep);
    if |parts| > 1 {
      SplitJoin(parts[1..], sep);
      SplitConcat(parts[0], sep, Join(parts[1..], sep));
    }
  }
}
