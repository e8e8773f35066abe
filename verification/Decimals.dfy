/** Numbers printed in decimal, and texts that end at a colon. */
module Decimals {

  import opened Octets

  type Text = seq<byte>

  const COLON: byte := 58
  const MINUS: byte := 45

  predicate IsDigit(b: byte) {
    48 <= b <= 57
  }

  function Decimal(n: nat): (r: Text)
    ensures r != [] && forall b <- r :: IsDigit(b)
  {
    if n < 10 then [(48 + n) as byte] else Decimal(n / 10) + [(48 + n % 10) as byte]
  }

  lemma {:induction false} DecimalInjective(m: nat, n: nat)
    requires Decimal(m) == Decimal(n)
    ensures m == n
  {
    var a, b := Decimal(m), Decimal(n);
    assert a[|a| - 1] as int == 48 + m % 10 && b[|b| - 1] as int == 48 + n % 10;
    if m < 10 || n < 10 {
      assert m < 10 && n < 10;
    } else {
      assert a[..|a| - 1] == Decimal(m / 10) && b[..|b| - 1] == Decimal(n / 10);
      DecimalInjective(m / 10, n / 10);
    }
  }

  /** The number that digits stand for, the last one counting ones. */
  function DecimalNumber(digits: Text): int {
    if digits == [] then 0
    else 10 * DecimalNumber(digits[..|digits| - 1]) + (digits[|digits| - 1] as int - 48)
  }

  /** A number is printed in digits that stand for it, without leading zeros. */
  lemma {:induction false} DecimalReads(n: nat)
    ensures DecimalNumber(Decimal(n)) == n && (n > 0 ==> Decimal(n)[0] != 48)
  {
    if n < 10 {
      assert DecimalNumber([]) == 0 && Decimal(n)[..0] == [];
    } else {
      DecimalReads(n / 10);
      assert Decimal(n)[..|Decimal(n)| - 1] == Decimal(n / 10);
    }
  }

  predicate NoColon(text: Text) {
    forall b <- text :: b != COLON
  }

  /** What stands before the first colon can be split off in one way only. */
  lemma ColonCancel(a: Text, b: Text, s: Text, t: Text)
    requires NoColon(a) && NoColon(b) && a + [COLON] + s == b + [COLON] + t
    ensures a == b && s == t
  {
    FirstColon(a, s);
    FirstColon(b, t);
    SplitEqual(a + [COLON], s, b + [COLON], t);
    SplitEqual(a, [COLON], b, [COLON]);
  }

  lemma FirstColon(a: Text, rest: Text)
    requires NoColon(a)
    ensures (a + [COLON] + rest)[|a|] == COLON && forall i :: 0 <= i < |a| ==> (a + [COLON] + rest)[i] != COLON
  {
    forall i | 0 <= i < |a|
      ensures (a + [COLON] + rest)[i] != COLON
    {
      assert a[i] in a;
    }
  }

  lemma DecimalNoColon(n: nat)
    ensures NoColon(Decimal(n))
  {
    forall b | b in Decimal(n)
      ensures b != COLON
    {
      assert IsDigit(b);
    }
  }

  /** An integer as it is printed. */
  function Signed(x: int): Text {
    if x < 0 then [MINUS] + Decimal(-x) else Decimal(x)
  }

  lemma SignedNoColon(x: int)
    ensures NoColon(Signed(x))
  {
    hide Decimal;
    DecimalNoColon(if x < 0 then -x else x);
  }

  lemma SignedInjective(x: int, y: int)
    requires Signed(x) == Signed(y)
    ensures x == y
  {
    hide Decimal;
    assert IsDigit(Decimal(if x < 0 then -x else x)[0]) && IsDigit(Decimal(if y < 0 then -y else y)[0]);
    assert (x < 0 <==> Signed(x)[0] == MINUS) && (y < 0 <==> Signed(y)[0] == MINUS);
    if x < 0 {
      SplitEqual([MINUS], Decimal(-x), [MINUS], Decimal(-y));
      DecimalInjective(-x, -y);
    } else {
      DecimalInjective(x, y);
    }
  }
}
