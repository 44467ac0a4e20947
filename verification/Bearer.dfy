/** The bearer token of an Authorization header (section 2.1 of RFC 6750). */
module Bearer {
  import opened Octets
  import opened Seqs
  import opened Base64Url
  import opened HmacToken

  predicate TokenChar(c: char) {
    'A' <= c <= 'Z' || 'a' <= c <= 'z' || '0' <= c <= '9'
    || c == '-' || c == '.' || c == '_' || c == '~' || c == '+' || c == '/'
  }

  /** The characters section 2.1 of RFC 6750 lists. */
  lemma TokenCharsAre(c: char)
    ensures TokenChar(c) <==>
      65 <= c as int <= 90 || 97 <= c as int <= 122 || 48 <= c as int <= 57 || c in {'-', '.', '_', '~', '+', '/'}
  {
  }

  /** `b64token`: one or more token characters, then any number of equals signs. */
  ghost predicate B64Token(t: string) {
    exists k :: PaddedFrom(t, k)
  }

  ghost predicate PaddedFrom(t: string, k: int) {
    1 <= k <= |t| && (forall i :: 0 <= i < k ==> TokenChar(t[i])) && forall i :: k <= i < |t| ==> t[i] == '='
  }

  /** The scanning loop accepts exactly that grammar. */
  method ScanToken(token: string) returns (ok: bool)
    requires token != ""
    ensures ok <==> B64Token(token)
  {
    var padding := false;
    ghost var k := 0;
    for index := 0 to |token|
      invariant k <= index && (padding <==> k < index) && (0 < index ==> 0 < k)
      invariant forall i :: 0 <= i < k ==> TokenChar(token[i])
      invariant forall i :: k <= i < index ==> token[i] == '='
    {
      var character := token[index];
      if character == '=' && index > 0 {
        padding := true;
      } else if padding || !TokenChar(character) {
        assert k < index ==> token[k] == '=';
        assert forall j :: !PaddedFrom(token, j);
        return false;
      } else {
        k := k + 1;
      }
    }
    assert PaddedFrom(token, k);
    return true;
  }

  function Lower(c: char): char {
    if 'A' <= c <= 'Z' then c + ('a' - 'A') else c
  }

  predicate EqualFold(a: string, b: string) {
    |a| == |b| && forall i :: 0 <= i < |a| ==> Lower(a[i]) == Lower(b[i])
  }

  /** The same character, or the capital and the small form of the same letter. */
  predicate SameLetter(a: char, b: char) {
    || a == b
    || ('A' <= a <= 'Z' && b as int == a as int + 32)
    || ('A' <= b <= 'Z' && a as int == b as int + 32)
  }

  lemma EqualFoldIs(a: string, b: string)
    ensures EqualFold(a, b) <==> |a| == |b| && forall i :: 0 <= i < |a| ==> SameLetter(a[i], b[i])
  {
    assert forall c, d :: Lower(c) == Lower(d) <==> SameLetter(c, d);
  }

  /** The scheme in any case. */
  lemma SchemeIs(s: string)
    ensures EqualFold(s, "Bearer") <==>
      |s| == 6 && s[0] in {'B', 'b'} && s[1] in {'E', 'e'} && s[2] in {'A', 'a'} && s[3] in {'R', 'r'}
        && s[4] in {'E', 'e'} && s[5] in {'R', 'r'}
  {
    if |s| == 6 {
      assert EqualFold(s, "Bearer") <==>
        Lower(s[0]) == 'b' && Lower(s[1]) == 'e' && Lower(s[2]) == 'a' && Lower(s[3]) == 'r' && Lower(s[4]) == 'e'
          && Lower(s[5]) == 'r';
    }
  }

  function CountNamed(headers: seq<(string, string)>, name: string): nat {
    if headers == [] then 0
    else CountNamed(headers[..|headers| - 1], name) + if EqualFold(headers[|headers| - 1].0, name) then 1 else 0
  }

  function Spaces(n: nat): (s: string)
    ensures |s| == n && forall i :: 0 <= i < n ==> s[i] == ' '
  {
    seq(n, i => ' ')
  }

  /** A header value presents a token: the scheme, one or more spaces, and a `b64token`. */
  ghost predicate Presents(value: string, token: string) {
    exists scheme: string, n: nat :: EqualFold(scheme, "Bearer") && value == scheme + " " + Spaces(n) + token
      && B64Token(token)
  }

  function IndexOf(s: string, c: char): (i: int)
    ensures -1 <= i < |s|
    ensures forall k :: 0 <= k < (if i < 0 then |s| else i) ==> s[k] != c
    ensures 0 <= i ==> s[i] == c
  {
    if s == [] then -1
    else if s[0] == c then 0
    else
      var i := IndexOf(s[1..], c);
      if i < 0 then -1 else i + 1
  }

  function TrimLeft(s: string): (t: string)
    ensures |t| <= |s| && s == Spaces(|s| - |t|) + t
    ensures t != "" ==> t[0] != ' '
  {
    if s != [] && s[0] == ' ' then
      var t := TrimLeft(s[1..]);
      assert s == [' '] + (Spaces(|s| - 1 - |t|) + t);
      t
    else s
  }

  lemma {:induction false} TrimSpaces(n: nat, t: string)
    requires t != "" && t[0] != ' '
    ensures TrimLeft(Spaces(n) + t) == t
  {
    if 0 < n {
      TrimSpaces(n - 1, t);
      assert (Spaces(n) + t)[1..] == Spaces(n - 1) + t;
    } else {
      assert Spaces(0) + t == t;
    }
  }

  lemma CutAtSpace(scheme: string, rest: string)
    requires ' ' !in scheme
    ensures IndexOf(scheme + " " + rest, ' ') == |scheme|
    ensures (scheme + " " + rest)[..|scheme|] == scheme && (scheme + " " + rest)[|scheme| + 1..] == rest
  {
    var s := scheme + " " + rest;
    var i := IndexOf(s, ' ');
    assert s[|scheme|] == ' ';
    assert forall k :: 0 <= k < |scheme| ==> s[k] == scheme[k];
  }

  lemma NoSpaceInBearer(scheme: string)
    requires EqualFold(scheme, "Bearer")
    ensures ' ' !in scheme
  {
    forall i | 0 <= i < |scheme|
      ensures scheme[i] != ' '
    {
      assert Lower(scheme[i]) == Lower("Bearer"[i]);
      assert Lower("Bearer"[i]) >= 'a';
    }
  }

  lemma PresentedParts(value: string, scheme: string, n: nat, token: string)
    requires EqualFold(scheme, "Bearer") && value == scheme + " " + Spaces(n) + token && B64Token(token)
    ensures IndexOf(value, ' ') == |scheme| && value[..|scheme|] == scheme && TrimLeft(value[|scheme| + 1..]) == token
  {
    NoSpaceInBearer(scheme);
    assert value == scheme + " " + (Spaces(n) + token);
    CutAtSpace(scheme, Spaces(n) + token);
    var k :| PaddedFrom(token, k);
    assert TokenChar(token[0]);
    TrimSpaces(n, token);
  }

  lemma PutTogether(value: string, cut: nat, token: string)
    requires cut < |value| && value[cut] == ' ' && |token| <= |value| - cut - 1
    requires value[cut + 1..] == Spaces(|value| - cut - 1 - |token|) + token
    ensures value == value[..cut] + " " + Spaces(|value| - cut - 1 - |token|) + token
  {
    assert value == value[..cut] + " " + value[cut + 1..];
  }

  /** What the scan of a header value finds. */
  ghost predicate ReadsAs(value: string, token: string) {
    var cut := IndexOf(value, ' ');
    cut >= 0 && EqualFold(value[..cut], "Bearer") && TrimLeft(value[cut + 1..]) == token && B64Token(token)
  }

  lemma PresentsIff(value: string, token: string)
    ensures Presents(value, token) <==> ReadsAs(value, token)
  {
    if Presents(value, token) {
      var scheme: string, n: nat :| EqualFold(scheme, "Bearer") && value == scheme + " " + Spaces(n) + token
        && B64Token(token);
      PresentedParts(value, scheme, n, token);
    }
    if ReadsAs(value, token) {
      var cut := IndexOf(value, ' ');
      PutTogether(value, cut, token);
    }
  }

  lemma TokensAreNotEmpty()
    ensures !B64Token("")
  {
  }

  /** Reads the token a header value presents, and none from any other value. */
  method FromValue(authorization: string) returns (r: Option<string>)
    ensures forall token :: r == Some(token) <==> Presents(authorization, token)
  {
    forall token ensures Presents(authorization, token) <==> ReadsAs(authorization, token) {
      PresentsIff(authorization, token);
    }
    TokensAreNotEmpty();
    var cut := IndexOf(authorization, ' ');
    if cut < 0 || !EqualFold(authorization[..cut], "Bearer") {
      return None;
    }
    var token := TrimLeft(authorization[cut + 1..]);
    if token == "" {
      return None;
    }
    var ok := ScanToken(token);
    return if ok then Some(token) else None;
  }

  lemma {:induction false} NoneNamed(headers: seq<(string, string)>, name: string)
    ensures CountNamed(headers, name) == 0 <==> forall i :: 0 <= i < |headers| ==> !EqualFold(headers[i].0, name)
  {
    if headers != [] {
      NoneNamed(headers[..|headers| - 1], name);
      assert forall i :: 0 <= i < |headers| - 1 ==> headers[..|headers| - 1][i] == headers[i];
    }
  }

  /** The one header of this name. */
  ghost predicate OnlyNamed(headers: seq<(string, string)>, name: string, i: int) {
    && 0 <= i < |headers| && EqualFold(headers[i].0, name)
    && forall j :: 0 <= j < |headers| && j != i ==> !EqualFold(headers[j].0, name)
  }

  lemma {:induction false} OneNamed(headers: seq<(string, string)>, name: string)
    ensures CountNamed(headers, name) == 1 <==> exists i :: OnlyNamed(headers, name, i)
  {
    if headers != [] {
      var front, last := headers[..|headers| - 1], |headers| - 1;
      OneNamed(front, name);
      NoneNamed(front, name);
      assert forall i :: 0 <= i < last ==> front[i] == headers[i];
      if i :| OnlyNamed(front, name, i) {
        assert !EqualFold(headers[last].0, name) ==> OnlyNamed(headers, name, i);
      }
      if i :| OnlyNamed(headers, name, i) {
        assert i < last ==> OnlyNamed(front, name, i);
      }
      if CountNamed(front, name) == 0 && EqualFold(headers[last].0, name) {
        assert OnlyNamed(headers, name, last);
      }
    }
  }

  /** A request authenticates by token only through exactly one Authorization header. */
  method BearerToken(headers: seq<(string, string)>) returns (r: Option<string>)
    ensures forall token :: r == Some(token) <==>
      exists i :: OnlyNamed(headers, "Authorization", i) && Presents(headers[i].1, token)
    ensures r.Some? ==> CountNamed(headers, "Authorization") == 1
    ensures CountNamed(headers, "Authorization") == 1 ==>
      exists h :: h in headers && EqualFold(h.0, "Authorization")
        && forall token :: r == Some(token) <==> Presents(h.1, token)
  {
    OneNamed(headers, "Authorization");
    var authorization := "";
    var headerCount := 0;
    ghost var last := 0;
    for index := 0 to |headers|
      invariant headerCount == CountNamed(headers[..index], "Authorization")
      invariant headerCount > 0 ==>
        last < index && EqualFold(headers[last].0, "Authorization") && headers[last].1 == authorization
    {
      assert headers[..index + 1][..index] == headers[..index];
      if EqualFold(headers[index].0, "Authorization") {
        authorization := headers[index].1;
        headerCount := headerCount + 1;
        last := index;
      }
    }
    assert headers[..|headers|] == headers;
    if headerCount != 1 {
      return None;
    }
    r := FromValue(authorization);
    assert headers[last] in headers;
  }

  ghost predicate TokenText(s: string) {
    forall i :: 0 <= i < |s| ==> TokenChar(s[i])
  }

  lemma TokenTextConcat(a: string, b: string)
    requires TokenText(a) && TokenText(b)
    ensures TokenText(a + b)
  {
  }

  lemma EncodedIsTokenText(b: Bytes)
    ensures TokenText(Encode(b))
  {
    DecodeEncode(b);
    forall i | 0 <= i < |Encode(b)|
      ensures TokenChar(Encode(b)[i])
    {
      assert IsLetter(Encode(b)[i]);
    }
  }

  lemma {:induction false} JoinedIsTokenText(fields: seq<Bytes>)
    ensures TokenText(Join(EncodeAll(fields), '.'))
  {
    if fields != [] {
      EncodedIsTokenText(fields[0]);
      JoinedIsTokenText(fields[1..]);
      assert EncodeAll(fields)[1..] == EncodeAll(fields[1..]);
      TokenTextConcat(Encode(fields[0]), ['.']);
      TokenTextConcat(Encode(fields[0]) + ['.'], Join(EncodeAll(fields[1..]), '.'));
    }
  }

  /** Every signed token can be presented as a bearer token. */
  lemma SignedTokensAreBearer(signer: Signer, fields: seq<Bytes>)
    requires signer.Valid() && fields != []
    ensures B64Token(signer.Text(fields))
  {
    var signedPart := signer.SignedPart(fields);
    JoinedIsTokenText(fields);
    EncodedIsTokenText(signer.Signature(OctetsOf(signedPart)));
    TokenTextConcat("A", signedPart);
    TokenTextConcat("A" + signedPart, ".");
    TokenTextConcat("A" + signedPart + ".", signer.SignatureText(signedPart));
    TokenTextConcat("A" + signedPart + "." + signer.SignatureText(signedPart), "Z");
    assert PaddedFrom(signer.Text(fields), |signer.Text(fields)|);
  }
}
