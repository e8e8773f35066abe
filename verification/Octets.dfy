/** Bytes, the wrap-around of 64-bit words, and the arithmetic on them that the codecs and the hash share. */
module Octets {

  newtype byte = x: int | 0 <= x < 256

  const U64: nat := 0x1_0000_0000_0000_0000

  /** A 64-bit pattern. */
  type Word64 = x: nat | x < U64

  /** Two equal concatenations with parts of one length have equal parts. */
  lemma SplitEqual<T>(a: seq<T>, b: seq<T>, c: seq<T>, d: seq<T>)
    requires |a| == |c| && a + b == c + d
    ensures a == c && b == d
  {
    assert a == (a + b)[..|a|] && c == (c + d)[..|c|];
    assert b == (a + b)[|a|..] && d == (c + d)[|c|..];
  }

  lemma ProductsOrdered(d: nat, a: nat, b: nat)
    requires a < b
    ensures d * a + d <= d * b
  {
    assert d * (a + 1) <= d * b;
  }

  lemma QuotientIs(v: nat, d: nat, q: nat, r: nat)
    requires d > 0 && v == d * q + r && r < d
    ensures v / d == q && v % d == r
  {
    var e := v / d;
    assert d * e <= v < d * e + d;
    if e < q {
      ProductsOrdered(d, e, q);
    } else if e > q {
      ProductsOrdered(d, q, e);
    }
  }

  lemma DivideTwice(v: nat, p: nat)
    requires p > 0
    ensures v / 256 / p == v / (256 * p)
  {
    var q := v / 256 / p;
    var r := v / 256 % p;
    assert v == 256 * (p * q + r) + v % 256;
    assert 256 * (p * q) == 256 * p * q;
    assert 256 * r + v % 256 < 256 * p;
    QuotientIs(v, 256 * p, q, 256 * r + v % 256);
  }

  /** Whole turns do not matter. */
  lemma Turns(x: nat, d: nat, turns: nat)
    requires d > 0
    ensures (d * turns + x) % d == x % d
  {
    assert d * (turns + x / d) == d * turns + d * (x / d);
    QuotientIs(d * turns + x, d, turns + x / d, x % d);
  }

  /** A wrapped sum or product may be wrapped early. */
  lemma WrapEarly(a: nat, b: nat)
    ensures (a % U64 + b) % U64 == (a + b) % U64
    ensures a % U64 * 8 % U64 == 8 * a % U64
  {
    Turns(a % U64 + b, U64, a / U64);
    Turns(8 * (a % U64), U64, 8 * (a / U64));
  }
}
