/** The machine's numbers, and quotients. */
module Numbers {

  const U64 := 0x1_0000_0000_0000_0000
  const HALF := 0x8000_0000_0000_0000

  /** A 64-bit difference read as int64_t. */
  function Signed(x: int): int {
    var u := x % U64;
    if u < HALF then u else u - U64
  }

  /** Products are monotone. */
  lemma Products(d: nat, p: nat, q: nat)
    requires p <= q
    ensures d * p <= d * q
  {
  }

  /** q is the quotient when it leaves a proper remainder. */
  lemma Quotient(n: nat, d: nat, q: nat)
    requires d > 0 && d * q <= n < d * (q + 1)
    ensures n / d == q
  {
    if n / d < q {
      Products(d, n / d + 1, q);
    } else if n / d > q {
      Products(d, q + 1, n / d);
    }
  }

  lemma Quotients(a: nat, b: nat, d: nat)
    requires d > 0 && a <= b
    ensures a / d <= b / d
    ensures (a + d) / d == a / d + 1
  {
    if b >= d * (a / d + 1) {
      Beyond(b, d, a / d);
    } else {
      Quotient(b, d, a / d);
    }
    Quotient(a + d, d, a / d + 1);
  }

  lemma Beyond(b: nat, d: nat, q: nat)
    requires d > 0 && b >= d * (q + 1)
    ensures b / d > q
  {
    if b / d <= q {
      Products(d, b / d + 1, q + 1);
    }
  }

  lemma QuotientOf(t: nat, d: nat)
    requires d > 0
    ensures t * d / d == t
  {
    Quotient(t * d, d, t);
  }
}
