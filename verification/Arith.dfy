/** The division facts behind chunk addresses, stripes and ring slots. */
module Arith {

  lemma MulMonotone(a: int, b: int, c: nat)
    requires a <= b
    ensures a * c <= b * c
  {
  }

  /** A multiple of c between -c and c is zero. */
  lemma SmallMultiple(k: int, c: nat)
    requires 0 - c < k * c < c
    ensures k == 0
  {
    if k >= 1 { MulMonotone(1, k, c); }
    if k <= -1 { MulMonotone(k, -1, c); }
  }

  /** The quotient and the remainder are determined by the division equation. */
  lemma DivUnique(x: nat, c: nat, q: nat, r: nat)
    requires x == q * c + r && r < c
    ensures x / c == q && x % c == r
  {
    DivEquation(x, c);
    var k := q - x / c;
    assert k * c == q * c - (x / c) * c;
    SmallMultiple(k, c);
  }

  lemma DivEquation(x: nat, c: nat)
    requires c > 0
    ensures x == (x / c) * c + x % c && 0 <= x % c < c
  {
  }

  lemma DivMonotone(a: nat, b: nat, c: nat)
    requires c > 0 && a <= b
    ensures a / c <= b / c
  {
    DivEquation(a, c);
    DivEquation(b, c);
    var k := a / c - b / c;
    assert k * c == (a / c) * c - (b / c) * c;
    if k >= 1 { MulMonotone(1, k, c); }
  }

  /** y/c and y%c after adding n bytes that stay in the chunk, or just fill it. */
  lemma WithinChunk(y: nat, n: nat, c: nat)
    requires c > 0 && n <= c - y % c
    ensures n < c - y % c ==> (y + n) / c == y / c && (y + n) % c == y % c + n
    ensures n == c - y % c ==> (y + n) / c == y / c + 1 && (y + n) % c == 0
  {
    var q, r := y / c, y % c;
    DivEquation(y, c);
    if n < c - r {
      DivUnique(y + n, c, q, r + n);
    } else {
      assert (q + 1) * c == q * c + c;
      DivUnique(y + n, c, q + 1, 0);
    }
  }

  /** Positions less than n apart with the same slot in a ring of n are the same. */
  lemma SlotUnique(a: nat, b: nat, n: nat)
    requires n > 0 && a % n == b % n && a - n < b < a + n
    ensures a == b
  {
    DivEquation(a, n);
    DivEquation(b, n);
    var k := b / n - a / n;
    assert k * n == (b / n) * n - (a / n) * n;
    SmallMultiple(k, n);
  }

  lemma SlotsDiffer(a: nat, b: nat, n: nat)
    requires n > 0 && a - n < b < a + n && a != b
    ensures a % n != b % n
  {
    if a % n == b % n { SlotUnique(a, b, n); }
  }

  /** The ring index advances with the position. */
  lemma NextSlot(a: nat, n: nat)
    requires n > 0
    ensures (a + 1) % n == (a % n + 1) % n
  {
    var q, r := a / n, a % n;
    DivEquation(a, n);
    if r + 1 < n {
      DivUnique(a + 1, n, q, r + 1);
      DivUnique(r + 1, n, 0, r + 1);
    } else {
      assert (q + 1) * n == q * n + n;
      DivUnique(a + 1, n, q + 1, 0);
      DivUnique(r + 1, n, 1, 0);
    }
  }
}
