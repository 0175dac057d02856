/** Go's 64-bit signed integers: the range and the wrap-around. */
module Int64 {
  const TWO_64: int := 0x1_0000_0000_0000_0000
  const TWO_63: int := 0x8000_0000_0000_0000
  const MAX: int := 0x7FFF_FFFF_FFFF_FFFF

  type int64 = x: int | -0x8000_0000_0000_0000 <= x <= 0x7FFF_FFFF_FFFF_FFFF

  /** The value an int64 holds after storing x, as Go wraps it. */
  function ToInt64(x: int): int64 {
    var w := x % TWO_64;
    if w < TWO_63 then w else w - TWO_64
  }

  /** Two integers stored as the same int64. */
  ghost predicate SameInt64(x: int, y: int) {
    (x - y) % TWO_64 == 0
  }

  lemma FitsUnchanged(x: int)
    requires -TWO_63 <= x <= MAX
    ensures ToInt64(x) == x
  {
  }

  lemma StoredIsSame(x: int)
    ensures SameInt64(ToInt64(x), x)
  {
  }

  lemma SameSums(x: int, y: int, a: int, b: int)
    requires SameInt64(x, y) && SameInt64(a, b)
    ensures SameInt64(x + a, y + b) && SameInt64(x - a, y - b) && SameInt64(y, x)
  {
    var q, r := (x - y) / TWO_64, (a - b) / TWO_64;
    assert x - y == TWO_64 * q && a - b == TWO_64 * r;
    Multiple((x + a) - (y + b), q + r);
    Multiple((x - a) - (y - b), q - r);
    Multiple(y - x, -q);
  }

  lemma Multiple(x: int, q: int)
    requires x == TWO_64 * q
    ensures x % TWO_64 == 0
  {
  }

  lemma SameStores(x: int, y: int)
    requires SameInt64(x, y)
    ensures ToInt64(x) == ToInt64(y)
  {
  }

  /** Wrapping after each addition or once at the end makes no difference. */
  lemma StoredSum(x: int, y: int)
    ensures ToInt64(ToInt64(x) + y) == ToInt64(x + y)
  {
    StoredIsSame(x);
    SameSums(ToInt64(x), x, y, y);
    SameStores(ToInt64(x) + y, x + y);
  }
}
