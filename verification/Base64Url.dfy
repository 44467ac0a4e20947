/** Unpadded base64url (section 5 of RFC 4648), with Go's strict decoder. */
module Base64Url {
  import opened Octets
  import opened Seqs

  type Sextet = x: nat | x < 64

  function Letter(x: Sextet): char {
    if x < 26 then 'A' + x as char
    else if x < 52 then 'a' + (x - 26) as char
    else if x < 62 then '0' + (x - 52) as char
    else if x == 62 then '-' else '_'
  }

  predicate IsLetter(c: char) {
    'A' <= c <= 'Z' || 'a' <= c <= 'z' || '0' <= c <= '9' || c == '-' || c == '_'
  }

  function ValueOf(c: char): Sextet
    requires IsLetter(c)
  {
    if 'A' <= c <= 'Z' then c as int - 'A' as int
    else if 'a' <= c <= 'z' then c as int - 'a' as int + 26
    else if '0' <= c <= '9' then c as int - '0' as int + 52
    else if c == '-' then 62 else 63
  }

  lemma LetterValue(x: Sextet)
    ensures IsLetter(Letter(x)) && ValueOf(Letter(x)) == x
  {
  }

  lemma ValueLetter(c: char)
    requires IsLetter(c)
    ensures Letter(ValueOf(c)) == c
  {
  }

  /** `base64.RawURLEncoding.EncodedLen` */
  function EncodedLen(n: nat): nat {
    n / 3 * 4 + (n % 3 * 8 + 5) / 6
  }

  /** The two, three or four sextets of a group of one, two or three bytes. */
  function GroupOf(b: Bytes): (s: seq<Sextet>)
    requires 1 <= |b| <= 3
    ensures |s| == |b| + 1
  {
    var b0: int := b[0] as int;
    var b1: int, b2: int := if |b| > 1 then b[1] as int else 0, if |b| > 2 then b[2] as int else 0;
    if |b| == 1 then [b0 / 4, b0 % 4 * 16]
    else if |b| == 2 then [b0 / 4, b0 % 4 * 16 + b1 / 16, b1 % 16 * 4]
    else [b0 / 4, b0 % 4 * 16 + b1 / 16, b1 % 16 * 4 + b2 / 64, b2 % 64]
  }

  /** The number some sextets stand for, most significant first. */
  function Number(s: seq<Sextet>): nat {
    if s == [] then 0 else Number(s[..|s| - 1]) * 64 + s[|s| - 1]
  }

  /** A group is the bits of its bytes, most significant first, filled up with zeros. */
  lemma GroupBits(b: Bytes)
    requires 1 <= |b| <= 3
    ensures Number(GroupOf(b)) ==
      if |b| == 1 then b[0] as int * 16
      else if |b| == 2 then (b[0] as int * 256 + b[1] as int) * 4
      else (b[0] as int * 256 + b[1] as int) * 256 + b[2] as int
  {
    var s := GroupOf(b);
    assert s[..1] == [s[0]] && s[..2][..1] == s[..1] && s[..1][..0] == [];
    assert Number(s[..1]) == s[0] && Number(s[..2]) == Number(s[..1]) * 64 + s[1];
    if |b| > 1 {
      assert s[..3][..2] == s[..2];
      assert Number(s[..3]) == Number(s[..2]) * 64 + s[2];
    }
    if |b| > 2 {
      assert s[..4] == s && Number(s) == Number(s[..3]) * 64 + s[3];
    }
  }

  /** The bytes of a group, when its spare low bits are zero as the strict decoder demands. */
  function BytesOf(s: seq<Sextet>): (b: Option<Bytes>)
    requires 2 <= |s| <= 4
    ensures b.Some? ==> |b.value| == |s| - 1
    ensures |s| == 4 ==> b.Some?
  {
    var x0: int, x1: int, x2: int, x3: int := s[0], s[1], if |s| > 2 then s[2] else 0, if |s| > 3 then s[3] else 0;
    var b0, b1, b2 := x0 * 4 + x1 / 16, x1 % 16 * 16 + x2 / 4, x2 % 4 * 64 + x3;
    if |s| == 2 then
      if x1 % 16 == 0 then Some([b0 as Byte]) else None
    else if |s| == 3 then
      if x2 % 4 == 0 then Some([b0 as Byte, b1 as Byte]) else None
    else Some([b0 as Byte, b1 as Byte, b2 as Byte])
  }

  /** Cutting three bytes into four sextets and back. */
  lemma Cut(b0: int, b1: int, b2: int)
    requires 0 <= b0 < 256 && 0 <= b1 < 256 && 0 <= b2 < 256
    ensures var x0, x1, x2, x3 := b0 / 4, b0 % 4 * 16 + b1 / 16, b1 % 16 * 4 + b2 / 64, b2 % 64;
      x0 * 4 + x1 / 16 == b0 && x1 % 16 * 16 + x2 / 4 == b1 && x2 % 4 * 64 + x3 == b2
  {
    assert (b0 % 4 * 16 + b1 / 16) / 16 == b0 % 4;
  }

  lemma Paste(x0: int, x1: int, x2: int, x3: int)
    requires 0 <= x0 < 64 && 0 <= x1 < 64 && 0 <= x2 < 64 && 0 <= x3 < 64
    ensures var b0, b1, b2 := x0 * 4 + x1 / 16, x1 % 16 * 16 + x2 / 4, x2 % 4 * 64 + x3;
      b0 / 4 == x0 && b0 % 4 * 16 + b1 / 16 == x1 && b1 % 16 * 4 + b2 / 64 == x2 && b2 % 64 == x3
  {
    assert (x0 * 4 + x1 / 16) % 4 == x1 / 16;
  }

  lemma BytesOfGroup(b: Bytes)
    requires 1 <= |b| <= 3
    ensures BytesOf(GroupOf(b)) == Some(b)
  {
    Cut(b[0] as int, if |b| > 1 then b[1] as int else 0, if |b| > 2 then b[2] as int else 0);
    assert |b| == 1 ==> b == [b[0]];
    assert |b| == 2 ==> b == [b[0], b[1]];
    assert |b| == 3 ==> b == [b[0], b[1], b[2]];
  }

  lemma GroupOfBytes(s: seq<Sextet>)
    requires 2 <= |s| <= 4 && BytesOf(s).Some?
    ensures GroupOf(BytesOf(s).value) == s
  {
    Paste(s[0], s[1], if |s| > 2 then s[2] else 0, if |s| > 3 then s[3] else 0);
    var g := GroupOf(BytesOf(s).value);
    assert g[0] == s[0] && g[1] == s[1];
    assert |s| > 2 ==> g[2] == s[2];
    assert |s| > 3 ==> g[3] == s[3];
  }

  function Sextets(b: Bytes): seq<Sextet> {
    if b == [] then []
    else if |b| <= 3 then GroupOf(b)
    else GroupOf(b[..3]) + Sextets(b[3..])
  }

  function Octetize(s: seq<Sextet>): Option<Bytes> {
    if s == [] then Some([])
    else if |s| == 1 then None
    else if |s| <= 4 then BytesOf(s)
    else
      var rest := Octetize(s[4..]);
      if rest == None then None else Some(BytesOf(s[..4]).value + rest.value)
  }

  lemma {:induction false} OctetizeSextets(b: Bytes)
    ensures Octetize(Sextets(b)) == Some(b)
    ensures |Sextets(b)| == EncodedLen(|b|)
  {
    if |b| > 3 {
      OctetizeSextets(b[3..]);
      BytesOfGroup(b[..3]);
      var s := Sextets(b);
      assert s[..4] == GroupOf(b[..3]) && s[4..] == Sextets(b[3..]);
      assert b == b[..3] + b[3..];
    } else if b != [] {
      BytesOfGroup(b);
    }
  }

  lemma {:induction false} SextetsOctetize(s: seq<Sextet>)
    requires Octetize(s).Some?
    ensures Sextets(Octetize(s).value) == s
  {
    if |s| > 4 {
      SextetsOctetize(s[4..]);
      GroupOfBytes(s[..4]);
      var b, rest := BytesOf(s[..4]).value, Octetize(s[4..]).value;
      assert (b + rest)[..3] == b && (b + rest)[3..] == rest;
      assert s == s[..4] + s[4..];
    } else if s != [] {
      GroupOfBytes(s);
    }
  }

  function Letters(s: seq<Sextet>): (t: string)
    ensures |t| == |s|
    ensures forall i :: 0 <= i < |s| ==> t[i] == Letter(s[i])
  {
    if s == [] then [] else [Letter(s[0])] + Letters(s[1..])
  }

  function Values(t: string): (s: seq<Sextet>)
    requires forall i :: 0 <= i < |t| ==> IsLetter(t[i])
    ensures |s| == |t|
    ensures forall i :: 0 <= i < |t| ==> s[i] == ValueOf(t[i])
  {
    if t == [] then [] else [ValueOf(t[0])] + Values(t[1..])
  }

  predicate AllLetters(t: string) {
    forall i :: 0 <= i < |t| ==> IsLetter(t[i])
  }

  /** `base64.RawURLEncoding.EncodeToString` */
  function Encode(b: Bytes): string {
    Letters(Sextets(b))
  }

  /** Some of the test vectors of section 10 of RFC 4648, without padding, and the last two letters of the alphabet. */
  lemma TestVectors()
    ensures Encode([]) == "" && Encode(OctetsOf("f")) == "Zg" && Encode(OctetsOf("fo")) == "Zm8"
    ensures Encode([0xfb, 0xff]) == "-_8"
  {
    assert OctetsOf("f") == [0x66];
    assert OctetsOf("fo") == [0x66, 0x6f];
  }

  lemma FooVector()
    ensures Encode(OctetsOf("foo")) == "Zm9v"
  {
    assert OctetsOf("foo") == [0x66, 0x6f, 0x6f];
  }

  lemma LettersConcat(a: seq<Sextet>, b: seq<Sextet>)
    ensures Letters(a + b) == Letters(a) + Letters(b)
  {
    var whole, parts := Letters(a + b), Letters(a) + Letters(b);
    assert forall i :: 0 <= i < |whole| ==> whole[i] == parts[i];
  }

  /** Three bytes are encoded at a time, each by itself. */
  lemma ThreeByThree(b: Bytes)
    requires |b| >= 3
    ensures Encode(b) == Encode(b[..3]) + Encode(b[3..])
  {
    if |b| == 3 {
      assert b[..3] == b && Encode(b[3..]) == "";
    } else {
      LettersConcat(GroupOf(b[..3]), Sextets(b[3..]));
    }
  }

  /** Go's decoder passes over carriage returns and newlines wherever they stand. */
  function SkipBreaks(t: string): string {
    if t == [] then []
    else (if t[0] == '\r' || t[0] == '\n' then [] else [t[0]]) + SkipBreaks(t[1..])
  }

  /** `base64.RawURLEncoding.Strict().DecodeString` */
  function Decode(t: string): Option<Bytes> {
    var letters := SkipBreaks(t);
    if AllLetters(letters) then Octetize(Values(letters)) else None
  }

  lemma {:induction false} SkipNothing(t: string)
    requires AllLetters(t)
    ensures SkipBreaks(t) == t
  {
    if t != [] {
      SkipNothing(t[1..]);
      assert IsLetter(t[0]);
      assert t == [t[0]] + t[1..];
    }
  }

  /** Encoding yields letters only, of the length computed beforehand, and decodes back. */
  lemma DecodeEncode(b: Bytes)
    ensures AllLetters(Encode(b)) && |Encode(b)| == EncodedLen(|b|)
    ensures Decode(Encode(b)) == Some(b)
  {
    OctetizeSextets(b);
    var s, t := Sextets(b), Encode(b);
    forall i | 0 <= i < |s|
      ensures IsLetter(t[i]) && ValueOf(t[i]) == s[i]
    {
      LetterValue(s[i]);
    }
    SkipNothing(t);
    assert Values(t) == s;
  }

  /** Of texts without line breaks, the strict decoder accepts only encodings (section 3.5 of RFC 4648). */
  lemma EncodeDecode(t: string)
    requires AllLetters(t) && Decode(t).Some?
    ensures Encode(Decode(t).value) == t
  {
    SkipNothing(t);
    SextetsOctetize(Values(t));
    var b := Decode(t).value;
    forall i | 0 <= i < |t|
      ensures Letter(Values(t)[i]) == t[i]
    {
      ValueLetter(t[i]);
    }
    assert Encode(b) == t;
  }

  /** Decoding followed by the re-encoding check accepts exactly the encodings, each as its own bytes. */
  lemma CheckedDecode(t: string, b: Bytes)
    ensures Decode(t) == Some(b) && Encode(b) == t <==> t == Encode(b)
  {
    DecodeEncode(b);
  }

  /** Without that check the decoder accepts exactly the texts that are an encoding once line breaks are passed over. */
  lemma DecodeIgnoresBreaks(t: string, b: Bytes)
    ensures Decode(t) == Some(b) <==> SkipBreaks(t) == Encode(b)
  {
    DecodeEncode(b);
    SkipNothing(Encode(b));
    var letters := SkipBreaks(t);
    if AllLetters(letters) {
      SkipNothing(letters);
      assert Decode(letters) == Decode(t);
      if Decode(t).Some? {
        EncodeDecode(letters);
      }
    }
  }

  /** So a line break alone passes for the empty field: the check is needed. */
  lemma BreakPassesForNothing()
    ensures Decode("\n") == Some([]) && Encode([]) != "\n"
  {
    assert "\n"[1..] == "";
  }
}
