/** The two outcome types the model uses for operations that may fail. */
module Wrappers {
  /** A value that may be absent (Kotlin's nullable `T?`). */
  datatype Option<T> = None | Some(value: T)

  /** A value or the reason it could not be produced (a thrown exception). */
  datatype Result<T> = Success(value: T) | Failure(error: string)
}

/**
 * Kotlin / JVM numeric conventions over unbounded integers and exact reals:
 * the 32- and 64-bit ranges, division that truncates toward zero,
 * `Float.toInt()` (truncate, then saturate), `coerceIn`.
 */
module KotlinNum {
  import opened Wrappers

  const IntMin: int := -0x8000_0000
  const IntMax: int := 0x7fff_ffff
  const LongMin: int := -0x8000_0000_0000_0000
  const LongMax: int := 0x7fff_ffff_ffff_ffff

  predicate IsInt(x: int) { IntMin <= x <= IntMax }
  predicate IsLong(x: int) { LongMin <= x <= LongMax }

  /** The values of Kotlin's `Int` and `Long`. */
  type Int32 = x: int | IsInt(x)
  type Int64 = x: int | IsLong(x)

  function Abs(x: int): int { if x < 0 then -x else x }

  /** Integer `a / b` as the JVM computes it: the quotient rounded toward zero. */
  function TruncDiv(a: int, b: int): (q: int)
    requires b != 0
    ensures a >= 0 ==> 0 <= a - q * b < Abs(b)
    ensures a < 0 ==> -Abs(b) < a - q * b <= 0
  {
    if a >= 0 then (if b > 0 then a / b else -(a / -b))
    else (if b > 0 then -((-a) / b) else (-a) / (-b))
  }

  /** A real number rounded toward zero. */
  function Truncate(r: real): (n: int)
    ensures r >= 0.0 ==> n as real <= r < n as real + 1.0
    ensures r < 0.0 ==> n as real - 1.0 < r <= n as real
  {
    if r >= 0.0 then r.Floor else -((-r).Floor)
  }

  /** `Float.toInt()` / `Double.toInt()` on a finite value: truncation toward zero, saturated to the Int range. */
  function FloatToInt(r: real): (n: int)
    ensures IsInt(n)
    ensures IsInt(Truncate(r)) ==> n == Truncate(r)
    ensures !IsInt(Truncate(r)) ==> (n == IntMax <==> r > 0.0)
  {
    var t := Truncate(r);
    if t < IntMin then IntMin else if t > IntMax then IntMax else t
  }

  /** 32-bit `Int` arithmetic: the exact result wrapped into the Int range, as the JVM does on overflow. */
  function WrapInt(x: int): (r: int)
    ensures IsInt(r)
    ensures IsInt(x) ==> r == x
    ensures (r - x) % 0x1_0000_0000 == 0
  {
    (x - IntMin) % 0x1_0000_0000 + IntMin
  }

  /** `v.coerceIn(lo, hi)`: None where Kotlin throws (an empty range, lo > hi). */
  function CoerceIn(v: int, lo: int, hi: int): (r: Option<int>)
    ensures r.None? <==> lo > hi
    ensures r.Some? ==> lo <= r.value <= hi
    ensures r.Some? && lo <= v <= hi ==> r.value == v
  {
    if lo > hi then None
    else if v < lo then Some(lo)
    else if v > hi then Some(hi)
    else Some(v)
  }

  function Min(a: int, b: int): int { if a <= b then a else b }
  function Max(a: int, b: int): int { if a >= b then a else b }
  function MinReal(a: real, b: real): real { if a <= b then a else b }
  function MaxReal(a: real, b: real): real { if a >= b then a else b }
}

/** Facts of integer division that the solver does not find unaided. */
module Arith {
  /** `s / k` is the `i` with `i*k <= s < (i+1)*k`. */
  lemma DivideBetween(s: int, k: int, i: int)
    requires 0 < k && i * k <= s < (i + 1) * k
    ensures s / k == i
  {
    var q := s / k;
    assert q * k <= s < q * k + k;
    assert (q - i) * k == q * k - i * k;
    SmallMultipleIsZero(q - i, k);
  }

  lemma SmallMultipleIsZero(d: int, k: int)
    requires 0 < k && -k < d * k < k
    ensures d == 0
  {
    MultipleSign(d, k);
  }

  lemma MultipleSign(a: int, b: int)
    requires 0 < b
    ensures 1 <= a ==> b <= a * b
    ensures a <= -1 ==> a * b <= -b
  {
  }

  /** Adding the divisor leaves the remainder unchanged. */
  lemma ModShift(a: nat, n: nat)
    requires 0 < n
    ensures (a + n) % n == a % n
  {
    var q := a / n;
    assert q * n + a % n == a;
    assert (q + 1) * n == q * n + n;
    assert (q + 2) * n == q * n + n + n;
    DivideBetween(a + n, n, q + 1);
    assert (a + n) / n * n + (a + n) % n == a + n;
  }

  /** The cell at column `x` of row `y` in rows of `width` cells: its index divides back into (y, x). */
  lemma RowColumn(width: int, y: int, x: int)
    requires 0 <= x < width && 0 <= y
    ensures (y * width + x) / width == y
    ensures (y * width + x) % width == x
  {
    assert (y + 1) * width == y * width + width;
    DivideBetween(y * width + x, width, y);
    assert (y * width + x) / width * width + (y * width + x) % width == y * width + x;
  }

  /** A number below `n` multiples of `k` has a quotient below `n`. */
  lemma QuotientBelow(s: int, k: int, n: int)
    requires 0 < k && 0 <= s < k * n
    ensures 0 <= s / k < n
  {
    var q := s / k;
    assert q * k + s % k == s;
    if n <= q {
      MulLe(n, q, k);
      assert false;
    }
  }

  /** One more row of `w` cells. */
  lemma MulSucc(a: int, w: int)
    ensures (a + 1) * w == a * w + w
  {
  }

  lemma MulLe(a: int, b: int, w: int)
    requires a <= b && 0 < w
    ensures a * w <= b * w
  {
    assert b * w - a * w == (b - a) * w;
    MultipleSign(b - a, w);
  }
}
