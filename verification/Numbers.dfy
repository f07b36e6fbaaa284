/** Decimal integer literals, as `std::from_chars` reads them into 64 bits. */
module Numbers {
  import opened Prelude
  import opened Ast
  import opened Tokens

  predicate AllDigits(s: string) {
    forall i | 0 <= i < |s| :: IsDigit(s[i])
  }

  function DecimalValue(s: string): nat
    requires AllDigits(s)
  {
    if s == "" then 0 else 10 * DecimalValue(s[..|s| - 1]) + (s[|s| - 1] as int - '0' as int)
  }

  /** A value of 2^63 or more is out of range, and the literal is rejected. */
  function ReadInt64(s: string): Option<Int64> {
    if s != "" && AllDigits(s) && DecimalValue(s) < 0x8000_0000_0000_0000 then Some(DecimalValue(s)) else None
  }

  function Decimal(n: nat): (s: string)
    ensures s != "" && AllDigits(s)
  {
    if n < 10 then [(n + '0' as int) as char] else Decimal(n / 10) + [(n % 10 + '0' as int) as char]
  }

  lemma {:induction false} DecimalRoundTrip(n: nat)
    ensures DecimalValue(Decimal(n)) == n
  {
    if n >= 10 {
      DecimalRoundTrip(n / 10);
      assert Decimal(n)[..|Decimal(n)| - 1] == Decimal(n / 10);
    } else {
      assert Decimal(n)[..0] == "";
    }
  }

  // ----- which digit strings denote which numbers -----

  function Zeros(z: nat): string {
    seq(z, i => '0')
  }

  lemma {:induction false} LeadingZeros(z: nat, n: nat)
    ensures AllDigits(Zeros(z) + Decimal(n)) && DecimalValue(Zeros(z) + Decimal(n)) == n
    decreases n
  {
    var s := Zeros(z) + Decimal(n);
    var front := s[..|s| - 1];
    if n < 10 {
      assert front == Zeros(z);
      ZerosValue(z);
    } else {
      LeadingZeros(z, n / 10);
      assert front == Zeros(z) + Decimal(n / 10);
    }
  }

  lemma {:induction false} ZerosValue(z: nat)
    ensures AllDigits(Zeros(z)) && DecimalValue(Zeros(z)) == 0
  {
    if z != 0 {
      ZerosValue(z - 1);
      assert Zeros(z)[..z - 1] == Zeros(z - 1);
    }
  }

  /** Every string of digits is the decimal form of its value after some zeros. */
  lemma {:induction false} DigitsAreDecimal(s: string) returns (z: nat)
    requires s != "" && AllDigits(s)
    ensures s == Zeros(z) + Decimal(DecimalValue(s))
  {
    var front, d := s[..|s| - 1], s[|s| - 1] as int - '0' as int;
    assert s == front + [s[|s| - 1]];
    if front == "" {
      z := 0;
    } else {
      z := DigitsAreDecimal(front);
      var v := DecimalValue(front);
      if v == 0 {
        assert front == Zeros(z + 1);
        z := z + 1;
      } else {
        assert (10 * v + d) / 10 == v && (10 * v + d) % 10 == d;
      }
    }
  }

  /** A number of any leading zeros is read as itself below 2^63, and rejected from there on. */
  lemma IntegerText(z: nat, n: nat)
    ensures ReadInt64(Zeros(z) + Decimal(n)) == if n < 9223372036854775808 then Some(n) else None
  {
    LeadingZeros(z, n);
  }
}
