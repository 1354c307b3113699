/** Decimal numerals as bytes. */
module Decimal {
  newtype byte = x: int | 0 <= x < 256

  type Bytes = seq<byte>

  predicate IsDigit(b: byte) {
    48 <= b <= 57
  }

  function Digits(n: nat): (r: Bytes)
    ensures r != [] && forall i | 0 <= i < |r| :: IsDigit(r[i])
  {
    (if n < 10 then [] else Digits(n / 10)) + [(48 + n % 10) as byte]
  }

  function Value(digits: Bytes): nat
    requires forall i | 0 <= i < |digits| :: IsDigit(digits[i])
  {
    if digits == [] then 0
    else
      assert IsDigit(digits[|digits| - 1]);
      10 * Value(digits[..|digits| - 1]) + (digits[|digits| - 1] as int - 48)
  }

  lemma {:induction false} ValueOfDigits(n: nat)
    ensures Value(Digits(n)) == n
  {
    var r := Digits(n);
    if n < 10 {
      assert r[..|r| - 1] == [];
    } else {
      ValueOfDigits(n / 10);
      assert r[..|r| - 1] == Digits(n / 10);
    }
  }

  /** Length of the longest run of digits that starts the text. */
  function DigitRun(text: Bytes): (k: nat)
    ensures k <= |text| && forall i | 0 <= i < k :: IsDigit(text[i])
    ensures k < |text| ==> !IsDigit(text[k])
  {
    if text == [] || !IsDigit(text[0]) then 0
    else
      var k := DigitRun(text[1..]);
      assert forall i | 0 < i < k + 1 :: text[i] == text[1..][i - 1];
      k + 1
  }

  lemma DigitRunStops(digits: Bytes, rest: Bytes)
    requires forall i | 0 <= i < |digits| :: IsDigit(digits[i])
    requires rest == [] || !IsDigit(rest[0])
    ensures DigitRun(digits + rest) == |digits|
  {
    var text := digits + rest;
    assert forall i | 0 <= i < |digits| :: text[i] == digits[i];
    assert rest != [] ==> text[|digits|] == rest[0];
  }
}
