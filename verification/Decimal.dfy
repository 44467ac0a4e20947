/** Decimal text of integers, as `strconv` writes and reads it. */
module Decimal {
  import opened Seqs

  function Digit(d: nat): (c: char)
    requires d < 10
    ensures '0' <= c <= '9'
  {
    '0' + d as char
  }

  predicate IsDigit(c: char) {
    '0' <= c <= '9'
  }

  function Value(c: char): (d: nat)
    requires IsDigit(c)
    ensures d < 10 && Digit(d) == c
  {
    c as int - '0' as int
  }

  /** `strconv.FormatUint(n, 10)` */
  function Format(n: nat): (s: string)
    ensures s != [] && forall i :: 0 <= i < |s| ==> IsDigit(s[i])
  {
    if n < 10 then [Digit(n)] else Format(n / 10) + [Digit(n % 10)]
  }

  predicate AllDigits(s: string) {
    s != [] && forall i :: 0 <= i < |s| ==> IsDigit(s[i])
  }

  /** The number a text of digits denotes. */
  function Number(s: string): nat
    requires forall i :: 0 <= i < |s| ==> IsDigit(s[i])
  {
    if s == [] then 0 else Number(s[..|s| - 1]) * 10 + Value(s[|s| - 1])
  }

  lemma {:induction false} NumberFormat(n: nat)
    ensures Number(Format(n)) == n
  {
    if 10 <= n {
      NumberFormat(n / 10);
      assert Format(n)[..|Format(n)| - 1] == Format(n / 10);
    } else {
      assert Format(n)[..0] == [];
    }
  }

  function Pow10(k: nat): nat {
    if k == 0 then 1 else 10 * Pow10(k - 1)
  }

  lemma {:induction false} FormatLength(n: nat, k: nat)
    requires 1 <= k && n < Pow10(k)
    ensures |Format(n)| <= k
  {
    if 10 <= n {
      assert 1 < k by {
        assert Pow10(1) == 10 * Pow10(0);
      }
      FormatLength(n / 10, k - 1);
    }
  }

  const UINT64 := 0x1_0000_0000_0000_0000

  lemma Uint64Length(n: nat)
    requires n < UINT64
    ensures |Format(n)| <= 20
  {
    assert Pow10(5) == 10 * (10 * (10 * (10 * (10 * Pow10(0))))) == 100000;
    assert Pow10(10) == 10 * (10 * (10 * (10 * (10 * Pow10(5)))));
    assert Pow10(15) == 10 * (10 * (10 * (10 * (10 * Pow10(10)))));
    assert Pow10(20) == 10 * (10 * (10 * (10 * (10 * Pow10(15)))));
    FormatLength(n, 20);
  }

  /** `strconv.ParseUint(s, 10, 64)` */
  function ParseUint(s: string): Option<nat> {
    if AllDigits(s) && Number(s) < UINT64 then Some(Number(s)) else None
  }

  lemma ParseFormat(n: nat)
    requires n < UINT64
    ensures ParseUint(Format(n)) == Some(n)
  {
    NumberFormat(n);
  }

  const INT64_MIN := -0x8000_0000_0000_0000
  const INT64_MAX := 0x7fff_ffff_ffff_ffff

  /** `strconv.FormatInt(i, 10)` */
  function FormatInt(i: int): string {
    if i < 0 then "-" + Format(-i) else Format(i)
  }

  /** `strconv.ParseInt(s, 10, 64)`: an optional sign, then digits, within range. */
  function ParseInt(s: string): (r: Option<int>)
    ensures r.Some? ==> INT64_MIN <= r.value <= INT64_MAX
  {
    var digits := if s != "" && (s[0] == '-' || s[0] == '+') then s[1..] else s;
    if !AllDigits(digits) then None
    else
      var i: int := if s[0] == '-' then -(Number(digits) as int) else Number(digits);
      if INT64_MIN <= i <= INT64_MAX then Some(i) else None
  }

  lemma ParseSigned(digits: string)
    requires AllDigits(digits)
    ensures var i := -(Number(digits) as int); ParseInt("-" + digits) == if INT64_MIN <= i then Some(i) else None
  {
    assert ("-" + digits)[1..] == digits;
  }

  lemma ParseUnsigned(digits: string)
    requires AllDigits(digits)
    ensures ParseInt(digits) == if Number(digits) <= INT64_MAX then Some(Number(digits)) else None
  {
    assert IsDigit(digits[0]);
  }

  /** Printing then reading gives the number back, over the full range. */
  lemma ParseFormatInt(i: int)
    requires INT64_MIN <= i <= INT64_MAX
    ensures ParseInt(FormatInt(i)) == Some(i)
  {
    var n: nat := if i < 0 then -i else i;
    NumberFormat(n);
    if i < 0 {
      ParseSigned(Format(n));
    } else {
      ParseUnsigned(Format(n));
    }
  }

  /** Any accepted text, signs and leading zeros included, has one canonical form with the same value,
      and canonicalising that changes nothing. */
  lemma CanonicalInt(s: string)
    requires ParseInt(s).Some?
    ensures var text := FormatInt(ParseInt(s).value);
      ParseInt(text) == ParseInt(s) && FormatInt(ParseInt(text).value) == text
  {
    ParseFormatInt(ParseInt(s).value);
  }

  predicate Signed(s: string, digits: string, i: int) {
    && AllDigits(digits)
    && if s == ['-'] + digits then i == -(Number(digits) as int)
       else (s == digits || s == ['+'] + digits) && i == Number(digits)
  }

  /** The accepted texts are digits after at most one sign, with the value they denote, within 64 bits. */
  lemma ParseIntIs(s: string, i: int)
    ensures ParseInt(s) == Some(i) <==>
      -0x8000_0000_0000_0000 <= i < 0x8000_0000_0000_0000 && exists digits :: Signed(s, digits, i)
  {
    if ParseInt(s) == Some(i) {
      var digits := if s[0] == '-' || s[0] == '+' then s[1..] else s;
      assert s == [s[0]] + s[1..];
      assert Signed(s, digits, i);
    }
    if digits :| Signed(s, digits, i) {
      assert s != digits ==> s[1..] == digits;
    }
  }

  /** The digits in their order, most significant first. */
  lemma DigitsInOrder(d: nat)
    requires d < 10
    ensures Format(d) == ["0123456789"[d]] && Format(40 + d) == ['4', "0123456789"[d]]
  {
    assert Format(4) == ['4'] && "0123456789"[4] == '4';
    assert Format(40 + d) == Format(4) + [Digit(d)];
  }
}
