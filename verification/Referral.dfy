/** Referral tokens: a user id and a channel, signed. */
module Referral {
  import opened Octets
  import opened Seqs
  import opened HmacToken
  import Decimal

  predicate Alphanumeric(b: Byte) {
    48 <= b <= 57 || 65 <= b <= 90 || 97 <= b <= 122
  }

  predicate ChannelByte(b: Byte) {
    Alphanumeric(b) || b == 45 || b == 95
  }

  /** The pattern the API documents: 3 to 32 letters, digits, hyphens or underscores, with a letter or digit at both
      ends. */
  predicate ValidChannel(channel: Bytes) {
    && 3 <= |channel| <= 32
    && Alphanumeric(channel[0]) && Alphanumeric(channel[|channel| - 1])
    && forall i :: 0 < i < |channel| - 1 ==> ChannelByte(channel[i])
  }

  /** The documented pattern, on the characters of the bytes. */
  lemma ChannelBytesAre(b: Byte)
    ensures var c := b as int as char;
      && (Alphanumeric(b) <==> 'A' <= c <= 'Z' || 'a' <= c <= 'z' || '0' <= c <= '9')
      && (ChannelByte(b) <==> Alphanumeric(b) || c == '_' || c == '-')
  {
  }

  /** The scan accepts exactly the documented pattern. */
  method ValidReferralChannel(channel: Bytes) returns (ok: bool)
    ensures ok <==> ValidChannel(channel)
  {
    if |channel| < 3 || |channel| > 32 {
      return false;
    }
    for index := 0 to |channel|
      invariant 0 < index ==> Alphanumeric(channel[0])
      invariant forall i :: 0 < i < index && i < |channel| - 1 ==> ChannelByte(channel[i])
      invariant index == |channel| ==> Alphanumeric(channel[|channel| - 1])
    {
      var character := channel[index];
      if !Alphanumeric(character) && (index == 0 || index == |channel| - 1 || (character != 45 && character != 95)) {
        return false;
      }
    }
    return true;
  }

  function Fields(id: nat, channel: Bytes): seq<Bytes> {
    [OctetsOf(Decimal.Format(id)), channel]
  }

  predicate Referring(id: nat, channel: Bytes) {
    0 < id < Decimal.UINT64 && ValidChannel(channel)
  }

  /** The id and channel of two fields, when the id is written canonically. */
  method ReferralValue(fields: seq<Bytes>) returns (r: Option<(nat, Bytes)>)
    ensures forall id: nat, channel: Bytes ::
      r == Some((id, channel)) <==> Referring(id, channel) && fields == Fields(id, channel)
  {
    forall id: nat, channel: Bytes | Referring(id, channel) && fields == Fields(id, channel)
      ensures TextOf(fields[0]) == Decimal.Format(id) && Decimal.ParseUint(TextOf(fields[0])) == Some(id)
    {
      DigitsAreBytes(id);
      Decimal.ParseFormat(id);
    }
    if |fields| != 2 {
      return None;
    }
    var valid := ValidReferralChannel(fields[1]);
    if !valid {
      return None;
    }
    var id := Decimal.ParseUint(TextOf(fields[0]));
    if id == None || id.value == 0 || Decimal.Format(id.value) != TextOf(fields[0]) {
      return None;
    }
    OctetsOfText(fields[0]);
    assert fields == Fields(id.value, fields[1]);
    return Some((id.value, fields[1]));
  }

  lemma DigitsAreBytes(id: nat)
    ensures TextOf(OctetsOf(Decimal.Format(id))) == Decimal.Format(id)
  {
    TextOfOctets(Decimal.Format(id));
  }

  /** Every referral token fits the 128 characters the receiving side allows. */
  lemma ReferralLength(signer: Signer, id: nat, channel: Bytes)
    requires signer.Valid() && Referring(id, channel)
    ensures |signer.Text(Fields(id, channel))| <= 128
  {
    var fields := Fields(id, channel);
    Decimal.Uint64Length(id);
    signer.TextLength(fields);
    FieldsLengthConcat([fields[0]], [fields[1]]);
    assert fields == [fields[0]] + [fields[1]];
    assert [fields[0]][1..] == [] && [fields[1]][1..] == [];
  }

  datatype Outcome = Referred(id: nat, channel: Bytes) | NoReferral | Unavailable

  /** `users` are the ids present in the user table, absent when the database fails. A token refers if and only if
      it is the one printed for an existing user and a valid channel. */
  method VerifiedRef(signer: Signer, token: string, users: Option<set<nat>>) returns (r: Outcome)
    requires signer.Valid()
    ensures signer.Ready() ==> forall id: nat, channel: Bytes :: r == Referred(id, channel) <==>
      Referring(id, channel) && users.Some? && id in users.value && token == signer.Text(Fields(id, channel))
    ensures signer.Ready() ==> forall id: nat, channel: Bytes :: r == Referred(id, channel) <==>
      && 0 < id < 0x1_0000_0000_0000_0000 && ValidChannel(channel) && users.Some? && id in users.value
      && signer.Genuine([OctetsOf(Decimal.Format(id)), channel], token)
    ensures signer.Ready() ==> (r == Unavailable <==> users.None? && exists id: nat, channel: Bytes ::
      Referring(id, channel) && signer.Genuine([OctetsOf(Decimal.Format(id)), channel], token))
    ensures !signer.Ready() ==> r == if 0 < |token| <= 128 then Unavailable else NoReferral
  {
    forall id: nat, channel: Bytes
      ensures signer.Genuine([OctetsOf(Decimal.Format(id)), channel], token)
         <==> signer.Writes(Fields(id, channel), token)
    {
      signer.GenuineIsWritten(Fields(id, channel), token);
    }
    forall id: nat, channel: Bytes | Referring(id, channel) && token == signer.Text(Fields(id, channel))
      ensures 0 < |token| <= 128
    {
      ReferralLength(signer, id, channel);
    }
    if token == "" || |token| > 128 {
      return NoReferral;
    }
    var fields := signer.Verify(token);
    assert signer.Ready() ==>
      forall id: nat, channel: Bytes ::
        signer.Writes(Fields(id, channel), token) <==> fields == Ok(Fields(id, channel));
    if fields == Err(Invalid) {
      return NoReferral;
    }
    if fields.Err? {
      return Unavailable;
    }
    var value := ReferralValue(fields.value);
    if value == None {
      return NoReferral;
    }
    var (id, channel) := value.value;
    if users == None {
      return Unavailable;
    }
    if id !in users.value {
      return NoReferral;
    }
    return Referred(id, channel);
  }

  /** Printing a referral for an existing user and reading it back gives exactly that user and channel. */
  method ReferralRoundTrip(signer: Signer, id: nat, channel: Bytes, users: set<nat>)
    returns (token: Result<string>, r: Outcome)
    requires signer.Valid() && signer.Ready() && Referring(id, channel) && id in users
    ensures token.Ok? && |token.value| <= 128 && r == Referred(id, channel)
  {
    ReferralLength(signer, id, channel);
    token := signer.Generate(Fields(id, channel));
    r := VerifiedRef(signer, token.value, Some(users));
  }
}
