/** SQL LIKE filters of the user list: escaping, and the quoted-substring test on encoded permissions. */
module Like {
  import opened Seqs

  /** The LIKE pattern matcher, on exact characters. */
  predicate Matches(pattern: string, t: string, escape: char)
    decreases |pattern|, |t|
  {
    if pattern == [] then t == []
    else if pattern[0] == escape && |pattern| >= 2 then
      t != [] && t[0] == pattern[1] && Matches(pattern[2..], t[1..], escape)
    else if pattern[0] == '%' && escape != '%' then
      Matches(pattern[1..], t, escape) || (t != [] && Matches(pattern, t[1..], escape))
    else if pattern[0] == '_' && escape != '_' then
      t != [] && Matches(pattern[1..], t[1..], escape)
    else
      t != [] && t[0] == pattern[0] && Matches(pattern[1..], t[1..], escape)
  }

  predicate Special(c: char) {
    c == '!' || c == '%' || c == '_'
  }

  /** The replacer of `applyListFilter`. */
  function Escape(s: string): string {
    if s == [] then []
    else (if Special(s[0]) then ['!', s[0]] else [s[0]]) + Escape(s[1..])
  }

  ghost predicate Occurs(s: string, t: string, at: nat) {
    at + |s| <= |t| && t[at..at + |s|] == s
  }

  ghost predicate Contains(t: string, s: string) {
    exists at: nat :: Occurs(s, t, at)
  }

  predicate StartsWith(t: string, s: string) {
    |s| <= |t| && t[..|s|] == s
  }

  lemma StartsWithCons(t: string, s: string)
    requires t != [] && s != []
    ensures StartsWith(t, s) <==> t[0] == s[0] && StartsWith(t[1..], s[1..])
    ensures StartsWith(t, s) ==> t[1..][|s| - 1..] == t[|s|..]
  {
    if StartsWith(t, s) {
      assert t[..|s|][0] == s[0] && t[1..][..|s| - 1] == t[..|s|][1..];
    }
    if t[0] == s[0] && StartsWith(t[1..], s[1..]) {
      assert t[..|s|] == [t[0]] + t[1..][..|s| - 1] && s == [s[0]] + s[1..];
    }
  }

  lemma {:induction false} EscapeStep(s: string, rest: string)
    requires s != []
    ensures var pattern := Escape(s) + rest;
      if Special(s[0]) then |pattern| >= 2 && pattern[0] == '!' && pattern[1] == s[0]
        && pattern[2..] == Escape(s[1..]) + rest
      else pattern[0] == s[0] && pattern[1..] == Escape(s[1..]) + rest
  {
  }

  lemma {:induction false} EscapedCharMatches(s: string, rest: string, t: string)
    requires s != []
    ensures Matches(Escape(s) + rest, t, '!')
      <==> t != [] && t[0] == s[0] && Matches(Escape(s[1..]) + rest, t[1..], '!')
  {
    EscapeStep(s, rest);
  }

  /** An escaped text in a pattern stands for itself. */
  lemma {:induction false} EscapedMatches(s: string, rest: string, t: string)
    ensures Matches(Escape(s) + rest, t, '!') <==> StartsWith(t, s) && Matches(rest, t[|s|..], '!')
  {
    if s == [] {
      assert Escape(s) + rest == rest && t[0..] == t;
    } else {
      EscapedCharMatches(s, rest, t);
      if t != [] {
        EscapedMatches(s[1..], rest, t[1..]);
        StartsWithCons(t, s);
      }
    }
  }

  /** A text without special characters stands for itself under any escape character it does not hold. */
  lemma {:induction false} PlainMatches(s: string, rest: string, t: string, escape: char)
    requires forall i :: 0 <= i < |s| ==> s[i] != '%' && s[i] != '_' && s[i] != escape
    ensures Matches(s + rest, t, escape) <==> StartsWith(t, s) && Matches(rest, t[|s|..], escape)
  {
    if s == [] {
      assert s + rest == rest && t[0..] == t;
    } else {
      assert (s + rest)[1..] == s[1..] + rest;
      if t != [] {
        PlainMatches(s[1..], rest, t[1..], escape);
        StartsWithCons(t, s);
      }
    }
  }

  lemma {:induction false} PercentMatchesAll(t: string, escape: char)
    requires escape != '%'
    ensures Matches("%", t, escape)
  {
    if t != [] {
      PercentMatchesAll(t[1..], escape);
    } else {
      assert "%"[1..] == "";
    }
  }

  /** A leading percent lets the rest match anywhere. */
  lemma {:induction false} PercentSkips(rest: string, t: string, escape: char)
    requires escape != '%'
    ensures Matches("%" + rest, t, escape) <==> exists at: nat :: at <= |t| && Matches(rest, t[at..], escape)
  {
    assert ("%" + rest)[1..] == rest;
    if t != [] {
      PercentSkips(rest, t[1..], escape);
      if Matches(rest, t, escape) {
        assert t[0..] == t;
      }
      if exists at: nat :: at <= |t[1..]| && Matches(rest, t[1..][at..], escape) {
        var at: nat :| at <= |t[1..]| && Matches(rest, t[1..][at..], escape);
        assert t[1..][at..] == t[at + 1..];
      }
      if exists at: nat :: at <= |t| && Matches(rest, t[at..], escape) {
        var at: nat :| at <= |t| && Matches(rest, t[at..], escape);
        if at > 0 {
          assert t[1..][at - 1..] == t[at..];
        } else {
          assert t[0..] == t;
        }
      }
    } else {
      assert t[0..] == t;
    }
  }

  /** An underscore stands for any one character. */
  lemma UnderscoreMatchesOne(rest: string, t: string, escape: char)
    requires escape != '_'
    ensures Matches("_" + rest, t, escape) <==> t != [] && Matches(rest, t[1..], escape)
  {
    assert ("_" + rest)[1..] == rest;
  }

  lemma OccursAt(s: string, t: string, at: nat)
    requires at <= |t|
    ensures Occurs(s, t, at) <==> StartsWith(t[at..], s)
  {
    if at + |s| <= |t| {
      assert t[at..][..|s|] == t[at..at + |s|];
    }
  }

  /** A pattern that matches after any start, and lets anything follow, is a substring test. */
  lemma SurroundedMatches(pattern: string, s: string, t: string, escape: char)
    requires escape != '%'
    requires forall u: string ::
      Matches(pattern + "%", u, escape) <==> StartsWith(u, s) && Matches("%", u[|s|..], escape)
    ensures Matches("%" + (pattern + "%"), t, escape) <==> Contains(t, s)
  {
    PercentSkips(pattern + "%", t, escape);
    forall at: nat | at <= |t|
      ensures Matches(pattern + "%", t[at..], escape) <==> Occurs(s, t, at)
    {
      OccursAt(s, t, at);
      if StartsWith(t[at..], s) {
        PercentMatchesAll(t[at..][|s|..], escape);
      }
    }
  }

  /** The name and email filters: the escaped, surrounded text matches exactly what contains the text. */
  lemma FilterIsSubstring(s: string, t: string)
    ensures Matches("%" + (Escape(s) + "%"), t, '!') <==> Contains(t, s)
  {
    forall u: string
      ensures Matches(Escape(s) + "%", u, '!') <==> StartsWith(u, s) && Matches("%", u[|s|..], '!')
    {
      EscapedMatches(s, "%", u);
    }
    SurroundedMatches(Escape(s), s, t, '!');
  }

  /** Without escaping that fails: a percent sign would match texts that do not contain it. */
  lemma EscapingIsNeeded()
    ensures Matches("%" + ("%" + "%"), "a", '!') && !Contains("a", "%")
    ensures Matches("%" + ("_" + "%"), "a", '!') && !Contains("a", "_")
  {
    PercentMatchesAll("a", '!');
    assert ("%" + ("%" + "%"))[1..] == "%" + "%" && ("%" + "%")[1..] == "%";
    forall at: nat
      ensures !Occurs("%", "a", at)
    {
      assert at == 0 ==> "a"[at..at + 1] == "a";
    }
  }

  // ----- permissions -----

  const ACCESS_LIST := ["user", "admin", "viewall", "am"]

  /** Known permissions are words of lower-case letters: nothing in them is special to JSON or LIKE. */
  predicate Word(p: string) {
    p != "" && forall i :: 0 <= i < |p| ==> 'a' <= p[i] <= 'z'
  }

  lemma KnownAreWords(p: string)
    requires p in ACCESS_LIST
    ensures Word(p)
  {
  }

  function Quoted(p: string): string {
    ['"'] + p + ['"']
  }

  /** The JSON array of words, after its opening bracket. */
  function JsonTail(words: seq<string>): string {
    if words == [] then "]"
    else if |words| == 1 then Quoted(words[0]) + "]"
    else Quoted(words[0]) + ("," + JsonTail(words[1..]))
  }

  function Json(words: seq<string>): string {
    "[" + JsonTail(words)
  }

  /** What comes earlier in the list came up earlier among the values. */
  ghost predicate InFirstOrder(list: seq<string>, values: seq<string>) {
    forall i, j, m :: 0 <= i < j < |list| && 0 <= m < |values| && values[m] == list[j] ==> list[i] in values[..m]
  }

  /** The JSON text of a list. */
  lemma JsonIs(a: string, b: string)
    ensures Json([]) == "[]" && Json([a]) == "[" + (['"'] + a + ['"'] + "]")
    ensures Json([a, b]) == "[" + (['"'] + a + ['"'] + ("," + (['"'] + b + ['"'] + "]")))
  {
    assert [a, b][1..] == [b] && JsonTail([b]) == Quoted(b) + "]";
    assert JsonTail([a, b]) == Quoted(a) + ("," + JsonTail([b]));
  }

  /** Keeps the first occurrence of each permission, refuses unknown ones, and writes the list as JSON. */
  method EncodeAccess(values: seq<string>) returns (r: Option<string>, normalized: seq<string>)
    ensures r.Some? <==> forall v :: v in values ==> v in ACCESS_LIST
    ensures r.Some? ==> r.value == Json(normalized) && forall v :: v in normalized <==> v in values
    ensures r.Some? ==> forall i, j :: 0 <= i < j < |normalized| ==> normalized[i] != normalized[j]
    ensures r.Some? ==> InFirstOrder(normalized, values)
  {
    normalized := [];
    for k := 0 to |values|
      invariant forall v :: v in values[..k] ==> v in ACCESS_LIST
      invariant forall v :: v in normalized <==> v in values[..k]
      invariant forall i, j :: 0 <= i < j < |normalized| ==> normalized[i] != normalized[j]
      invariant InFirstOrder(normalized, values[..k])
    {
      var permission := values[k];
      assert values[..k + 1] == values[..k] + [permission];
      if permission !in ACCESS_LIST {
        assert permission in values;
        return None, normalized;
      }
      if permission !in normalized {
        normalized := normalized + [permission];
      }
    }
    assert values[..|values|] == values;
    r := Some(Json(normalized));
  }

  lemma OccursAfter(s: string, a: string, b: string, at: nat)
    requires |a| <= at
    ensures Occurs(s, a + b, at) <==> Occurs(s, b, at - |a|)
  {
    if at + |s| <= |a + b| {
      assert (a + b)[at..at + |s|] == b[at - |a|..at - |a| + |s|];
    }
  }

  /** What an occurrence says of single characters. */
  lemma OccursChars(p: string, t: string, at: nat)
    requires Occurs(Quoted(p), t, at)
    ensures at + |p| + 2 <= |t| && t[at] == '"' && t[at + |p| + 1] == '"'
    ensures forall i :: 0 <= i < |p| ==> t[at + 1 + i] == p[i]
  {
    var q := t[at..at + |p| + 2];
    assert q == Quoted(p);
    assert forall i :: 0 <= i < |q| ==> t[at + i] == q[i];
    assert forall i :: 0 <= i < |p| ==> q[1 + i] == p[i];
  }

  /** At the head of the list a quoted word can only be the first one. */
  lemma HeadOccurrence(p: string, w: string, rest: string, at: nat)
    requires Word(p) && Word(w) && rest != "" && !('a' <= rest[0] <= 'z') && rest[0] != '"'
    requires Occurs(Quoted(p), Quoted(w) + rest, at) && at <= |w| + 2
    ensures p == w
  {
    var t := Quoted(w) + rest;
    OccursChars(p, t, at);
    assert t[0] == '"' && t[|w| + 1] == '"' && t[|w| + 2] == rest[0];
    assert forall i :: 0 <= i < |w| ==> t[1 + i] == w[i];
    if at != 0 {
      assert false;
    }
  }

  lemma {:induction false} TailContains(p: string, words: seq<string>, at: nat)
    requires Word(p) && forall w :: w in words ==> Word(w)
    requires Occurs(Quoted(p), JsonTail(words), at)
    ensures p in words
  {
    if words == [] {
      OccursChars(p, "]", at);
      assert false;
    } else {
      var w := words[0];
      var rest := if |words| == 1 then "]" else "," + JsonTail(words[1..]);
      assert JsonTail(words) == Quoted(w) + rest;
      assert w in words;
      if at <= |w| + 2 {
        HeadOccurrence(p, w, rest, at);
      } else {
        OccursAfter(Quoted(p), Quoted(w), rest, at);
        if |words| == 1 {
          assert false;
        } else {
          OccursAfter(Quoted(p), ",", JsonTail(words[1..]), at - |w| - 2);
          TailContains(p, words[1..], at - |w| - 3);
        }
      }
    }
  }

  lemma ContainsAfter(s: string, a: string, b: string)
    requires Contains(b, s)
    ensures Contains(a + b, s)
  {
    var at: nat :| Occurs(s, b, at);
    OccursAfter(s, a, b, at + |a|);
  }

  lemma {:induction false} TailHolds(p: string, words: seq<string>)
    requires p in words
    ensures Contains(JsonTail(words), Quoted(p))
  {
    var w := words[0];
    if w == p {
      assert Occurs(Quoted(p), JsonTail(words), 0);
    } else {
      assert p in words[1..];
      TailHolds(p, words[1..]);
      ContainsAfter(Quoted(p), ",", JsonTail(words[1..]));
      ContainsAfter(Quoted(p), Quoted(w), "," + JsonTail(words[1..]));
    }
  }

  /** The quoted permission is a substring of the encoded list if and only if it is in the list. */
  lemma QuotedIsMember(p: string, words: seq<string>)
    requires Word(p) && forall w :: w in words ==> Word(w)
    ensures Contains(Json(words), Quoted(p)) <==> p in words
  {
    if p in words {
      TailHolds(p, words);
      var at: nat :| Occurs(Quoted(p), JsonTail(words), at);
      OccursAfter(Quoted(p), "[", JsonTail(words), at + 1);
    }
    if Contains(Json(words), Quoted(p)) {
      var at: nat :| Occurs(Quoted(p), Json(words), at);
      OccursChars(p, Json(words), at);
      OccursAfter(Quoted(p), "[", JsonTail(words), at);
      TailContains(p, words, at - 1);
    }
  }

  lemma {:induction false} EscapeWord(p: string)
    requires forall i :: 0 <= i < |p| ==> !Special(p[i])
    ensures Escape(p) == p
  {
    if p != "" {
      EscapeWord(p[1..]);
      assert p == [p[0]] + p[1..];
    }
  }

  /** The access filter, which names no escape character and so runs with the backslash:
      it selects exactly the users whose encoded list holds the permission. */
  lemma AccessFilterIsMembership(p: string, words: seq<string>)
    requires p in ACCESS_LIST && forall w :: w in words ==> w in ACCESS_LIST
    ensures Matches("%" + (Quoted(Escape(p)) + "%"), Json(words), '\\') <==> p in words
  {
    KnownAreWords(p);
    forall w | w in words
      ensures Word(w)
    {
      KnownAreWords(w);
    }
    EscapeWord(p);
    QuotedFilter(p, Json(words));
    QuotedIsMember(p, words);
  }

  lemma QuotedFilter(p: string, t: string)
    requires Word(p)
    ensures Matches("%" + (Quoted(p) + "%"), t, '\\') <==> Contains(t, Quoted(p))
  {
    forall u: string
      ensures Matches(Quoted(p) + "%", u, '\\') <==> StartsWith(u, Quoted(p)) && Matches("%", u[|Quoted(p)|..], '\\')
    {
      PlainMatches(Quoted(p), "%", u, '\\');
    }
    SurroundedMatches(Quoted(p), Quoted(p), t, '\\');
  }
}
