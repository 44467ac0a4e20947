/** Signed tokens: "A" field "." ... "." field "." signature "Z", every part unpadded base64url.

  `Signer.Text` says what a token is; `Generate` and `Verify` follow the source's loops, and the
  lemmas say that printing and parsing are inverse to each other on everything either accepts. */
module HmacToken {
  import opened Octets
  import opened Seqs
  import opened Base64Url

  const HASH_SIZE := 32
  const MAX_TOKEN_LENGTH := 4096

  /** HMAC with SHA-256 is an unknown function of key and message with a fixed output length. */
  type Mac = f: (Bytes, Bytes) -> Bytes | forall key, message :: |f(key, message)| == HASH_SIZE
    witness (key, message) => seq(HASH_SIZE, i => 0)

  datatype Failure = NotInitialized | NoFields | TooLong | Invalid
  datatype Result<+T> = Ok(value: T) | Err(failure: Failure)

  function EncodeAll(fields: seq<Bytes>): (r: seq<string>)
    ensures |r| == |fields|
    ensures forall i :: 0 <= i < |fields| ==> r[i] == Encode(fields[i])
  {
    seq(|fields|, i requires 0 <= i < |fields| => Encode(fields[i]))
  }

  /** Total encoded length of the fields. */
  function FieldsLength(fields: seq<Bytes>): nat {
    if fields == [] then 0 else EncodedLen(|fields[0]|) + FieldsLength(fields[1..])
  }

  lemma {:induction false} FieldsLengthConcat(a: seq<Bytes>, b: seq<Bytes>)
    ensures FieldsLength(a + b) == FieldsLength(a) + FieldsLength(b)
  {
    if a == [] {
      assert a + b == b;
    } else {
      FieldsLengthConcat(a[1..], b);
      assert (a + b)[1..] == a[1..] + b;
    }
  }

  /** The length of a prefix one field longer, and that prefixes are no longer than the whole. */
  lemma FieldsLengthStep(fields: seq<Bytes>, n: nat)
    requires n < |fields|
    ensures FieldsLength(fields[..n + 1]) == FieldsLength(fields[..n]) + EncodedLen(|fields[n]|)
    ensures |fields[n]| <= FieldsLength(fields[..n + 1]) <= FieldsLength(fields)
  {
    FieldsLengthConcat(fields[..n], [fields[n]]);
    FieldsLengthConcat(fields[..n + 1], fields[n + 1..]);
    assert fields[..n] + [fields[n]] == fields[..n + 1] && fields[..n + 1] + fields[n + 1..] == fields;
    assert [fields[n]][1..] == [];
  }

  lemma {:induction false} JoinedLength(fields: seq<Bytes>)
    requires fields != []
    ensures |Join(EncodeAll(fields), '.')| == FieldsLength(fields) + |fields| - 1
  {
    DecodeEncode(fields[0]);
    if |fields| > 1 {
      JoinedLength(fields[1..]);
      assert EncodeAll(fields)[1..] == EncodeAll(fields[1..]);
    } else {
      assert fields[1..] == [];
    }
  }

  lemma {:induction false} EncodeAllInjective(a: seq<Bytes>, b: seq<Bytes>)
    requires EncodeAll(a) == EncodeAll(b)
    ensures a == b
  {
    forall i | 0 <= i < |a|
      ensures a[i] == b[i]
    {
      assert EncodeAll(a)[i] == EncodeAll(b)[i];
      DecodeEncode(a[i]);
      DecodeEncode(b[i]);
    }
  }

  lemma LettersHoldNoDot(t: string)
    requires AllLetters(t)
    ensures '.' !in t
  {
  }

  lemma EncodedHoldNoDot(fields: seq<Bytes>)
    ensures forall p :: p in EncodeAll(fields) ==> '.' !in p
  {
    forall i | 0 <= i < |fields|
      ensures '.' !in EncodeAll(fields)[i]
    {
      DecodeEncode(fields[i]);
      LettersHoldNoDot(Encode(fields[i]));
    }
  }

  /** A framed text, taken apart at a dot and put together again. */
  lemma FrameParts(token: string, inner: string, separator: nat)
    requires |token| >= 2 && token[0] == 'A' && token[|token| - 1] == 'Z' && inner == token[1..|token| - 1]
    requires separator < |inner| && inner[separator] == '.'
    ensures token == "A" + inner[..separator] + "." + inner[separator + 1..] + "Z"
  {
    assert inner == inner[..separator] + "." + inner[separator + 1..];
    assert token == "A" + inner + "Z";
  }

  lemma JoinedParts(a: string, b: string)
    ensures (a + "." + b)[..|a|] == a && (a + "." + b)[|a| + 1..] == b
  {
  }

  lemma FramedInner(a: string, b: string)
    ensures var token := "A" + a + "." + b + "Z";
      token[0] == 'A' && token[|token| - 1] == 'Z' && token[1..|token| - 1] == a + "." + b
  {
  }

  datatype Signer = Signer(key: Bytes, payloadBytes: nat, signatureBytes: nat, mac: Mac) {

    /** What `NewHMACTokenSigner` guarantees of the sizes. */
    predicate Valid() {
      16 <= payloadBytes <= HASH_SIZE && 16 <= signatureBytes <= HASH_SIZE
    }

    lemma SizesAre()
      ensures !Valid() <==> payloadBytes < 16 || payloadBytes > 32 || signatureBytes < 16 || signatureBytes > 32
    {
    }

    predicate Ready() {
      |key| >= HASH_SIZE
    }

    function Signature(payload: Bytes): (s: Bytes)
      requires Valid()
      ensures |s| == signatureBytes
    {
      mac(key, payload)[..signatureBytes]
    }

    function SignedPart(fields: seq<Bytes>): string {
      Join(EncodeAll(fields), '.')
    }

    function SignatureText(signedPart: string): string
      requires Valid()
    {
      Encode(Signature(OctetsOf(signedPart)))
    }

    /** The token of a list of fields. */
    function Text(fields: seq<Bytes>): string
      requires Valid()
    {
      "A" + SignedPart(fields) + "." + SignatureText(SignedPart(fields)) + "Z"
    }

    /** The token is what printing the fields yields, and printing does not refuse them. */
    ghost predicate Writes(fields: seq<Bytes>, token: string)
      requires Valid()
    {
      fields != [] && token == Text(fields) && |token| <= MAX_TOKEN_LENGTH
    }

    /** At this dot, the token's last, its signed part ends: between the frame stand the encodings of the fields, and
        the encoding of the MAC, cut to the signature's size, of the very characters before the dot. */
    ghost predicate SignedAt(fields: seq<Bytes>, token: string, dot: nat)
      requires Valid()
    {
      && 1 <= dot < |token| - 1 && token[0] == 'A' && token[|token| - 1] == 'Z'
      && token[dot] == '.' && '.' !in token[dot + 1..]
      && Split(token[1..dot], '.') == EncodeAll(fields)
      && token[dot + 1..|token| - 1] == Encode(mac(key, OctetsOf(token[1..dot]))[..signatureBytes])
    }

    /** A token this key has signed for these fields, of at most 4096 characters. */
    ghost predicate Genuine(fields: seq<Bytes>, token: string)
      requires Valid()
    {
      |token| <= 4096 && exists dot: nat :: SignedAt(fields, token, dot)
    }

    lemma WrittenIsGenuine(fields: seq<Bytes>)
      requires Valid() && fields != []
      ensures SignedAt(fields, Text(fields), 1 + |SignedPart(fields)|)
    {
      TextParses(fields);
      var signedPart, token := SignedPart(fields), Text(fields);
      var signatureText, dot := SignatureText(signedPart), 1 + |SignedPart(fields)|;
      FramedInner(signedPart, signatureText);
      DecodeEncode(Signature(OctetsOf(signedPart)));
      LettersHoldNoDot(signatureText);
      assert token[1..dot] == Inner(token)[..|signedPart|] == signedPart;
      assert token[dot + 1..|token| - 1] == signatureText;
      assert token[dot + 1..] == signatureText + ['Z'];
    }

    lemma SignedIsText(fields: seq<Bytes>, token: string, dot: nat)
      requires Valid() && SignedAt(fields, token, dot)
      ensures fields != [] && token == Text(fields)
    {
      JoinSplit(token[1..dot], '.');
      var inner := token[1..|token| - 1];
      assert inner[..dot - 1] == token[1..dot] && inner[dot - 1 + 1..] == token[dot + 1..|token| - 1];
      FrameParts(token, inner, dot - 1);
    }

    /** What is genuine is exactly what is written. */
    lemma GenuineIsWritten(fields: seq<Bytes>, token: string)
      requires Valid()
      ensures Genuine(fields, token) <==> Writes(fields, token)
    {
      if Writes(fields, token) {
        WrittenIsGenuine(fields);
      }
      if Genuine(fields, token) {
        var dot: nat :| SignedAt(fields, token, dot);
        SignedIsText(fields, token, dot);
      }
    }

    /** Prints a genuine token of the fields, unless there are none or it would be too long. */
    method Generate(fields: seq<Bytes>) returns (r: Result<string>)
      requires Valid()
      ensures r.Ok? ==> |key| >= 32 && Genuine(fields, r.value)
      ensures r.Err? && |key| >= 32 ==> forall token :: !Genuine(fields, token)
      ensures !Ready() ==> r == Err(NotInitialized)
      ensures Ready() ==> r == if fields == [] then Err(NoFields)
                               else if |Text(fields)| > MAX_TOKEN_LENGTH then Err(TooLong)
                               else Ok(Text(fields))
    {
      if !Ready() {
        return Err(NotInitialized);
      }
      if |fields| == 0 {
        forall token ensures !Genuine(fields, token) {
          GenuineIsWritten(fields, token);
        }
        return Err(NoFields);
      }
      TextLength(fields);
      forall token ensures Genuine(fields, token) <==> Writes(fields, token) {
        GenuineIsWritten(fields, token);
      }
      var tokenLength := 2 + EncodedLen(signatureBytes) + |fields|;
      if tokenLength > MAX_TOKEN_LENGTH {
        return Err(TooLong);
      }
      var encodedFields := EncodeFields(fields, tokenLength);
      if encodedFields == None {
        return Err(TooLong);
      }
      var signedPart := Join(encodedFields.value, '.');
      return Ok("A" + signedPart + "." + SignatureText(signedPart) + "Z");
    }

    /** The encoding loop: stops as soon as the running length passes the maximum. */
    method EncodeFields(fields: seq<Bytes>, fixed: nat) returns (r: Option<seq<string>>)
      requires fixed <= MAX_TOKEN_LENGTH
      ensures r == if fixed + FieldsLength(fields) > MAX_TOKEN_LENGTH then None else Some(EncodeAll(fields))
    {
      var tokenLength := fixed;
      var encodedFields := new string[|fields|](i => "");
      ghost var expected := EncodeAll(fields);
      assert fields[..0] == [];
      for index := 0 to |fields|
        invariant tokenLength == fixed + FieldsLength(fields[..index]) <= MAX_TOKEN_LENGTH
        invariant encodedFields[..index] == expected[..index]
      {
        var field := fields[index];
        FieldsLengthStep(fields, index);
        if |field| > MAX_TOKEN_LENGTH {
          return None;
        }
        tokenLength := tokenLength + EncodedLen(|field|);
        if tokenLength > MAX_TOKEN_LENGTH {
          return None;
        }
        var encoded := Encode(field);
        assert encoded == expected[index];
        encodedFields[index] := encoded;
      }
      assert fields[..|fields|] == fields && expected[..|fields|] == expected;
      assert encodedFields[..|fields|] == encodedFields[..];
      return Some(encodedFields[..]);
    }

    /** The running length of the printing loop starts from the true length without the fields. */
    lemma TextLength(fields: seq<Bytes>)
      requires Valid() && fields != []
      ensures |Text(fields)| == 2 + EncodedLen(signatureBytes) + |fields| + FieldsLength(fields)
    {
      JoinedLength(fields);
      DecodeEncode(Signature(OctetsOf(SignedPart(fields))));
    }

    function Inner(token: string): string
      requires |token| >= 2
    {
      token[1..|token| - 1]
    }

    /** The parts the parsing loop will find in a token. */
    ghost predicate Parses(token: string, fields: seq<Bytes>)
      requires Valid()
    {
      && |token| >= EncodedLen(signatureBytes) + 3 && token[0] == 'A' && token[|token| - 1] == 'Z'
      && Inner(token) == SignedPart(fields) + "." + SignatureText(SignedPart(fields))
      && LastIndexOf(Inner(token), '.') == |SignedPart(fields)|
      && |SignatureText(SignedPart(fields))| == EncodedLen(signatureBytes)
      && Split(SignedPart(fields), '.') == EncodeAll(fields)
    }

    lemma TextParses(fields: seq<Bytes>)
      requires Valid() && fields != []
      ensures Parses(Text(fields), fields)
    {
      var signedPart, token := SignedPart(fields), Text(fields);
      var signatureText := SignatureText(signedPart);
      TextLength(fields);
      DecodeEncode(Signature(OctetsOf(signedPart)));
      LettersHoldNoDot(signatureText);
      FramedInner(signedPart, signatureText);
      LastIndexOfJoined(signedPart, '.', signatureText);
      EncodedHoldNoDot(fields);
      SplitJoin(EncodeAll(fields), '.');
    }

    /** The bytes of an encoded part, if it is exactly the encoding of some bytes. */
    function Checked(text: string): Option<Bytes> {
      var b := Decode(text);
      if b.Some? && Encode(b.value) == text then b else None
    }

    /** Cuts the frame off and splits at the last dot. */
    method Unframe(token: string) returns (r: Option<(string, string)>)
      requires Valid()
      ensures r.Some? ==> token == "A" + r.value.0 + "." + r.value.1 + "Z" && |token| <= MAX_TOKEN_LENGTH
      ensures |token| <= MAX_TOKEN_LENGTH ==>
        forall fields :: Parses(token, fields) ==> r == Some((SignedPart(fields), SignatureText(SignedPart(fields))))
    {
      if |token| < EncodedLen(signatureBytes) + 3 || |token| > MAX_TOKEN_LENGTH || token[0] != 'A'
        || token[|token| - 1] != 'Z' {
        return None;
      }
      var inner := Inner(token);
      var separator := LastIndexOf(inner, '.');
      if separator < 0 {
        return None;
      }
      LastIndexOfFacts(inner, '.');
      FrameParts(token, inner, separator);
      forall fields | Parses(token, fields)
        ensures inner[..separator] == SignedPart(fields) && inner[separator + 1..] == SignatureText(SignedPart(fields))
      {
        JoinedParts(SignedPart(fields), SignatureText(SignedPart(fields)));
      }
      return Some((inner[..separator], inner[separator + 1..]));
    }

    /** The signature check on the unframed parts. */
    method Authenticate(signedPart: string, signatureText: string) returns (ok: bool)
      requires Valid()
      ensures ok <==> signatureText == SignatureText(signedPart)
    {
      DecodeEncode(Signature(OctetsOf(signedPart)));
      if |signatureText| != EncodedLen(signatureBytes) {
        return false;
      }
      var signature := Checked(signatureText);
      if signature == None || |signature.value| != signatureBytes {
        return false;
      }
      return signature.value == Signature(OctetsOf(signedPart));
    }

    /** Accepts exactly the genuine tokens, which are what `Generate` writes, and returns their fields. */
    method Verify(token: string) returns (r: Result<seq<Bytes>>)
      requires Valid()
      ensures |key| >= 32 ==> forall fields :: r == Ok(fields) <==> Genuine(fields, token)
      ensures !Ready() ==> r == Err(NotInitialized)
      ensures Ready() ==> r.Ok? || r == Err(Invalid)
      ensures Ready() ==> forall fields :: r == Ok(fields) <==> Writes(fields, token)
    {
      if !Ready() {
        return Err(NotInitialized);
      }
      forall fields ensures Genuine(fields, token) <==> Writes(fields, token) {
        GenuineIsWritten(fields, token);
      }
      forall fields | Writes(fields, token)
        ensures Parses(token, fields)
      {
        TextParses(fields);
      }
      var unframed := Unframe(token);
      if unframed == None {
        return Err(Invalid);
      }
      var (signedPart, signatureText) := unframed.value;
      var authentic := Authenticate(signedPart, signatureText);
      if !authentic {
        return Err(Invalid);
      }
      var decoded := DecodeParts(Split(signedPart, '.'));
      if decoded == None {
        return Err(Invalid);
      }
      JoinSplit(signedPart, '.');
      forall fields | Writes(fields, token)
        ensures fields == decoded.value
      {
        EncodeAllInjective(fields, decoded.value);
      }
      return Ok(decoded.value);
    }

    /** The decoding loop: every part must be the encoding of its bytes. */
    method DecodeParts(parts: seq<string>) returns (r: Option<seq<Bytes>>)
      ensures r.Some? ==> EncodeAll(r.value) == parts
      ensures r.None? ==> forall fields :: EncodeAll(fields) != parts
    {
      var fields: seq<Bytes> := [];
      for index := 0 to |parts|
        invariant |fields| == index && forall i :: 0 <= i < index ==> Encode(fields[i]) == parts[i]
      {
        var decoded := Checked(parts[index]);
        if decoded == None {
          forall wanted | EncodeAll(wanted) == parts
            ensures false
          {
            DecodeEncode(wanted[index]);
          }
          return None;
        }
        fields := fields + [decoded.value];
      }
      return Some(fields);
    }
  }

  /** Printing then parsing, and parsing then printing, both lead back; empty fields included. */
  method RoundTrip(signer: Signer, fields: seq<Bytes>, text: string)
    returns (printed: Result<string>, reparsed: Result<seq<Bytes>>, parsed: Result<seq<Bytes>>,
      reprinted: Result<string>)
    requires signer.Valid()
    ensures printed.Ok? ==> reparsed == Ok(fields)
    ensures parsed.Ok? ==> reprinted == Ok(text)
  {
    printed := signer.Generate(fields);
    reparsed := Err(Invalid);
    if printed.Ok? {
      reparsed := signer.Verify(printed.value);
    }
    parsed := signer.Verify(text);
    reprinted := Err(Invalid);
    if parsed.Ok? {
      reprinted := signer.Generate(parsed.value);
    }
  }

  /** A token stands for one list of fields only. */
  lemma TextInjective(signer: Signer, a: seq<Bytes>, b: seq<Bytes>)
    requires signer.Valid() && a != [] && b != [] && signer.Text(a) == signer.Text(b)
    ensures a == b
  {
    signer.TextParses(a);
    signer.TextParses(b);
    JoinedParts(signer.SignedPart(a), signer.SignatureText(signer.SignedPart(a)));
    JoinedParts(signer.SignedPart(b), signer.SignatureText(signer.SignedPart(b)));
    EncodeAllInjective(a, b);
  }

  /** A random token has one field of `payloadBytes` bytes. */
  method GenerateRand(signer: Signer, payload: Bytes) returns (r: Result<string>)
    requires signer.Valid() && |payload| == signer.payloadBytes
    ensures !signer.Ready() ==> r == Err(NotInitialized)
    ensures signer.Ready() ==> r == Ok(signer.Text([payload])) && |r.value| <= 128
  {
    if !signer.Ready() {
      return Err(NotInitialized);
    }
    signer.TextLength([payload]);
    assert [payload][1..] == [];
    r := signer.Generate([payload]);
  }
}
