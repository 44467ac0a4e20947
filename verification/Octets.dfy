/** Bytes as Go strings and slices hold them. */
module Octets {
  newtype Byte = x: int | 0 <= x < 256
  type Bytes = seq<Byte>

  /** The bytes of a text of one-byte characters. */
  function OctetsOf(t: string): (b: Bytes)
    ensures |b| == |t|
    ensures forall i :: 0 <= i < |t| ==> b[i] as int == t[i] as int % 256
  {
    seq(|t|, i requires 0 <= i < |t| => (t[i] as int % 256) as Byte)
  }

  function TextOf(b: Bytes): (t: string)
    ensures |t| == |b|
    ensures forall i :: 0 <= i < |b| ==> t[i] as int == b[i] as int
  {
    seq(|b|, i requires 0 <= i < |b| => b[i] as int as char)
  }

  lemma OctetsOfText(b: Bytes)
    ensures OctetsOf(TextOf(b)) == b
  {
  }

  lemma TextOfOctets(t: string)
    requires forall i :: 0 <= i < |t| ==> t[i] as int < 256
    ensures TextOf(OctetsOf(t)) == t
  {
  }
}
