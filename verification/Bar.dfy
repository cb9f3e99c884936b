/** The arithmetic of barSetValue in tui/window.c. */
module Bar {
  import opened Words
  import opened Arithmetic

  function Min(a: nat, b: nat): nat {
    if a < b then a else b
  }

  // val * 100 / max, with the product in 32 bits.
  function Percent(val: UInt32, max: UInt32): (p: nat)
    requires 0 < max && val <= max
  {
    val * 100 % UINT32_SIZE / max
  }

  // width * percent / 100, likewise.
  function Count(width: UInt32, percent: nat): nat {
    width * percent % UINT32_SIZE / 100
  }

  // Overflow or not, a percentage comes out.
  lemma PercentInRange(val: UInt32, max: UInt32)
    requires 0 < max && val <= max
    ensures 0 <= Percent(val, max) <= 100
  {
  }

  // It is the right one exactly when the product fits 32 bits.
  lemma PercentExact(val: UInt32, max: UInt32)
    requires 0 < max && val <= max
    ensures Percent(val, max) == val * 100 / max <==> val * 100 < 4294967296
  {
    var product := val * 100;
    if product >= UINT32_SIZE {
      var wrapped := product % UINT32_SIZE;
      assert wrapped + max < product;
      QuotientBounds(wrapped, max);
      QuotientBounds(product, max);
    }
  }

  lemma PercentMonotone(v: UInt32, w: UInt32, max: UInt32)
    requires 0 < max && v <= w <= max && w * 100 < UINT32_SIZE
    ensures Percent(v, max) <= Percent(w, max)
  {
    assert v * 100 % UINT32_SIZE == v * 100 && w * 100 % UINT32_SIZE == w * 100;
    QuotientMonotone(v * 100, w * 100, max);
  }

  // The gauge is right up to one cell and the percentage's own rounding: with
  // c = Count(width, Percent(val, max)), c <= width * val / max < c + 1 + width / 100.
  lemma CountIsClose(width: UInt32, val: UInt32, max: UInt32)
    requires 0 < max && val <= max && val * 100 < UINT32_SIZE && width * 100 < UINT32_SIZE
    ensures Count(width, Percent(val, max)) * max <= width * val
    ensures 100 * width * val < (100 * Count(width, Percent(val, max)) + 100 + width) * max
  {
    PercentBounds(val, max);
    CountBounds(width, Percent(val, max));
    RoundedTwice(width, val, max, Percent(val, max), Count(width, Percent(val, max)));
  }

  lemma PercentBounds(val: UInt32, max: UInt32)
    requires 0 < max && val <= max && val * 100 < UINT32_SIZE
    ensures var p := Percent(val, max); p <= 100 && p * max <= 100 * val < p * max + max
  {
    PercentInRange(val, max);
    QuotientBounds(val * 100, max);
  }

  lemma CountBounds(width: UInt32, p: nat)
    requires p <= 100 && width * 100 < UINT32_SIZE
    ensures var c := Count(width, p); 100 * c <= width * p < 100 * c + 100
  {
    ProductMonotone(p, 100, width);
    assert width * p < UINT32_SIZE;
    QuotientBounds(width * p, 100);
  }

  lemma RoundedTwice(w: nat, v: nat, m: nat, p: nat, c: nat)
    requires p * m <= 100 * v < p * m + m && 100 * c <= w * p < 100 * c + 100
    ensures c * m <= w * v
    ensures 100 * w * v < (100 * c + 100 + w) * m
  {
    Associate(w, p, m);
    ProductMonotone(100 * c, w * p, m);
    ProductMonotone(p * m, 100 * v, w);
    Associate(100, c, m);
    Associate(w, 100, v);
    ProductMonotone(100 * v, p * m + m, w);
    ProductMonotone(w * p + 1, 100 * c + 100, m);
    Distribute(p * m, m, w);
    Distribute(100 * c + 100, w, m);
    Distribute(w * p, 1, m);
  }
}
