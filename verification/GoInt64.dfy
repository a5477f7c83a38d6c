/** Go's 64-bit machine integers: two's-complement wrap-around, and the truncating `/` and `%`. */
module GoInt64 {

  const MAX_INT64: int := 0x7fff_ffff_ffff_ffff
  const MIN_INT64: int := -0x8000_0000_0000_0000
  const TWO_TO_64: int := 0x1_0000_0000_0000_0000

  type int64 = x: int | MIN_INT64 <= x <= MAX_INT64
  type uint64 = x: int | 0 <= x < TWO_TO_64

  predicate InInt64(x: int) {
    MIN_INT64 <= x <= MAX_INT64
  }

  /** The int64 that a Go expression with mathematical value `x` evaluates to. */
  function Wrap64(x: int): (r: int64)
    ensures InInt64(x) <==> r == x
  {
    var m := x % TWO_TO_64;
    if m > MAX_INT64 then m - TWO_TO_64 else m
  }

  /** Go's unary minus: the minimum is its own negation. */
  function Negate(x: int64): (r: int64)
    ensures x != MIN_INT64 ==> r == -x
    ensures x == MIN_INT64 ==> r == x
  {
    var v: int := x;
    Wrap64(-v)
  }

  /** The uint64 counter that has been incremented `n` times from zero. */
  function Mod64(n: nat): (r: uint64)
    ensures n < TWO_TO_64 ==> r == n
    ensures (n - r) % TWO_TO_64 == 0
  {
    n % TWO_TO_64
  }

  /** Go's unsigned increment: a full counter goes back to zero. */
  function Increment(x: uint64): uint64 {
    if x == TWO_TO_64 - 1 then 0 else x + 1
  }

  lemma IncrementCounts(n: nat)
    ensures Increment(Mod64(n)) == Mod64(n + 1)
  {
  }

  /** Adding a multiple of two to the 64 does not change the machine value. */
  lemma WrapShift(x: int, k: int)
    ensures Wrap64(x + k * TWO_TO_64) == Wrap64(x)
  {
    assert (x + k * TWO_TO_64) % TWO_TO_64 == x % TWO_TO_64;
  }

  /** Wrapping subtracts a multiple of two to the 64. */
  lemma WrapIsShift(x: int) returns (k: int)
    ensures Wrap64(x) == x + k * TWO_TO_64
  {
    k := -(x / TWO_TO_64);
    if x % TWO_TO_64 > MAX_INT64 {
      k := k - 1;
    }
  }

  /** How many times two to the 64 has been taken from `x` by wrapping it. */
  function WrapCount(x: int): (k: int)
    ensures x == Wrap64(x) + k * TWO_TO_64
  {
    if x % TWO_TO_64 > MAX_INT64 then x / TWO_TO_64 + 1 else x / TWO_TO_64
  }

  /** Wrapping early or late makes no difference to a sum. */
  lemma WrapAdd(x: int, y: int)
    ensures Wrap64(Wrap64(x) + y) == Wrap64(x + y)
  {
    var k := WrapIsShift(x);
    assert Wrap64(x) + y == (x + y) + k * TWO_TO_64;
    WrapShift(x + y, k);
  }

  lemma WrapBoth(x: int, y: int)
    ensures Wrap64(Wrap64(x) + Wrap64(y)) == Wrap64(x + y)
  {
    WrapAdd(x, Wrap64(y));
    WrapAdd(y, x);
  }

  /** Two numbers wrap to the same machine value exactly when their difference wraps to zero. */
  lemma WrapEqualIff(x: int, y: int)
    ensures Wrap64(x) == Wrap64(y) <==> Wrap64(x - y) == 0
  {
    WrapAdd(x, -y);
    WrapAdd(y, -y);
    WrapAdd(x - y, y);
  }

  /** Go's `/` truncates toward zero. */
  function GoDiv(a: int, b: int): int
    requires b > 0
  {
    if a >= 0 then a / b else -((-a) / b)
  }

  /** Go's `%` takes the sign of the dividend. */
  function GoMod(a: int, b: int): int
    requires b > 0
  {
    if a >= 0 then a % b else -((-a) % b)
  }

  lemma DivModNat(m: nat, b: nat)
    requires b > 0
    ensures m / b * b + m % b == m && 0 <= m % b < b
  {
  }

  lemma NegatedProduct(q: int, b: int)
    ensures (-q) * b == -(q * b)
  {
  }

  /** Quotient and remainder fit together, and the remainder is small, with the dividend's sign. */
  lemma DivModTruncate(a: int, b: int)
    requires b > 0
    ensures GoDiv(a, b) * b + GoMod(a, b) == a
    ensures -b < GoMod(a, b) < b
    ensures (GoMod(a, b) > 0 ==> a > 0) && (GoMod(a, b) < 0 ==> a < 0)
  {
    if a >= 0 {
      DivModNat(a, b);
    } else {
      DivModNat(-a, b);
      NegatedProduct(-a / b, b);
    }
  }
}
