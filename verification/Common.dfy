/** What the models of several source files share. */
module Options {
  datatype Option<+T> = None | Some(value: T)
}

/** The widths of the source's integers. */
module Words {
  const UINT32_SIZE := 0x1_0000_0000
  const UINT64_SIZE := 0x1_0000_0000_0000_0000

  type UInt32 = u: int | 0 <= u < UINT32_SIZE
  type UInt64 = u: int | 0 <= u < UINT64_SIZE

  // The non-negative values of an int32_t, which %d prints without a sign.
  type NatInt32 = n: int | 0 <= n < 0x8000_0000
}

/** enum WindowType of tui/window.h. */
module WindowTypes {
  const DEVICE := 0
  const TAB := 1
  const MAIN := 2
  const STATUS := 3
  const WINDOWS := 4
}

/** Products and quotients. */
module Arithmetic {

  lemma ProductMonotone(a: int, b: int, c: nat)
    ensures a <= b ==> a * c <= b * c
  {
  }

  lemma Associate(a: int, b: int, c: int)
    ensures a * (b * c) == a * b * c
  {
  }

  lemma Distribute(a: int, b: int, c: int)
    ensures (a + b) * c == a * c + b * c
  {
  }

  lemma QuotientBounds(a: nat, b: nat)
    requires b > 0
    ensures a / b * b <= a < a / b * b + b
  {
  }

  lemma QuotientMonotone(a: nat, b: nat, c: nat)
    requires c > 0 && a <= b
    ensures a / c <= b / c
  {
    var p, q := a / c, b / c;
    QuotientBounds(a, c);
    QuotientBounds(b, c);
    ProductMonotone(q + 1, p, c);
  }

  lemma AtMostQuotient(n: nat, b: nat, a: nat)
    requires b > 0 && n * b <= a
    ensures n <= a / b
  {
    QuotientBounds(a, b);
    ProductMonotone(a / b + 1, n, b);
  }

  lemma RemainderIs(q: int, r: int, n: nat)
    requires 0 <= r < n
    ensures (q * n + r) % n == r
  {
    var x := q * n + r;
    var k := x / n - q;
    assert k * n == r - x % n;
    ProductMonotone(1, k, n);
    ProductMonotone(k, -1, n);
  }
}
