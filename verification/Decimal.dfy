/** Decimal text as `fmt` prints it and as `strconv.ParseInt` and `strconv.Atoi` read it. */
module Decimal {
  import opened Common

  const PLUS: Byte := 43   // '+'
  const MINUS: Byte := 45  // '-'
  const ZERO: Byte := 48   // '0'

  predicate IsDigit(b: Byte) { ZERO <= b < ZERO + 10 }

  function DigitText(n: nat): (s: Bytes)
    ensures s != [] && forall i | 0 <= i < |s| :: IsDigit(s[i])
  {
    if n < 10 then [ZERO + n] else DigitText(n / 10) + [ZERO + n % 10]
  }

  /** Go's `%d`. */
  function IntText(n: int): (s: Bytes)
    ensures forall i | 0 <= i < |s| :: IsDigit(s[i]) || s[i] == MINUS
  {
    if n < 0 then [MINUS] + DigitText(-n) else DigitText(n)
  }

  predicate AllDigits(s: Bytes) {
    s == [] || (IsDigit(s[|s| - 1]) && AllDigits(s[..|s| - 1]))
  }

  function DigitValue(s: Bytes): nat
    requires AllDigits(s)
  {
    if s == [] then 0 else 10 * DigitValue(s[..|s| - 1]) + (s[|s| - 1] - ZERO)
  }

  function ParseDigits(s: Bytes): Option<nat> {
    if s != [] && AllDigits(s) then Some(DigitValue(s)) else None
  }

  /** `strconv.ParseInt(s, 10, 64)`: an optional sign, then digits only, then the 64-bit range check. */
  function ParseInt(s: Bytes): Option<Int64> {
    if s == [] then None
    else
      var negative := s[0] == MINUS;
      var digits := if negative || s[0] == PLUS then s[1..] else s;
      match ParseDigits(digits)
      case None => None
      case Some(n) =>
        var magnitude: int := n;
        var signed := if negative then -magnitude else magnitude;
        if -MAX_INT64 - 1 <= signed <= MAX_INT64 then Some(signed) else None
  }

  lemma {:induction false} DigitTextValue(n: nat)
    ensures AllDigits(DigitText(n)) && DigitValue(DigitText(n)) == n
  {
    var s := DigitText(n);
    if n < 10 {
      assert s[..|s| - 1] == [];
    } else {
      DigitTextValue(n / 10);
      assert s[..|s| - 1] == DigitText(n / 10);
    }
  }

  /** Printing then parsing an int64 is the identity. */
  lemma ParseIntText(n: Int64)
    ensures ParseInt(IntText(n)) == Some(n)
  {
    if n < 0 {
      var m: int := n;
      DigitTextValue(-m);
      assert IntText(n)[1..] == DigitText(-m);
    } else {
      DigitTextValue(n);
      assert IsDigit(DigitText(n)[0]);
    }
  }

  /** Far more digits than a number can have, but enough to bound the text of a 64-bit number. */
  lemma {:induction false} DigitTextLength(n: nat)
    ensures |DigitText(n)| <= 1 + n / 10
  {
    if n >= 10 { DigitTextLength(n / 10); }
  }
}
