/** The `f64` arithmetic behind a wait and its header: numbers rounded to 53 significant
    bits, and seconds rounded to whole nanoseconds, both to the nearest, ties to even
    (the operands of src/algorithm/internal.rs:81-82 and 100-106). Every number here is
    zero or between 2^-64 and 2^65, where an `f64` has all of its 53 bits. */
module Float64 {
  import opened Machine
  import opened Arithmetic

  const TWO_52 := 0x10_0000_0000_0000
  const TWO_53 := 0x20_0000_0000_0000

  datatype RatioFields = Ratio(num: nat, den: nat)

  type Ratio = q: RatioFields | q.den > 0 witness Ratio(0, 1)

  /** Twice the value lies within one of twice the number, and in the middle between two
      numbers it is the even one. */
  predicate IsNearest(n: int, x: int, d: int) {
    && (2 * n - 1) * d <= 2 * x <= (2 * n + 1) * d
    && (2 * x == (2 * n - 1) * d || 2 * x == (2 * n + 1) * d ==> n % 2 == 0)
  }

  /** Whether rounding `x / d` goes up. */
  predicate RoundsUp(x: nat, d: nat)
    requires d > 0
  {
    2 * (x % d) > d || (2 * (x % d) == d && x / d % 2 == 1)
  }

  function NearestEven(x: nat, d: nat): nat
    requires d > 0
  {
    FloorAtLeast(0, x, d);
    x / d + if RoundsUp(x, d) then 1 else 0
  }

  lemma NearestEvenIsNearest(x: nat, d: nat)
    requires d > 0
    ensures IsNearest(NearestEven(x, d), x, d)
  {
    RoundingIsNearest(x, d, x / d, x % d, NearestEven(x, d));
  }

  lemma RoundingIsNearest(x: nat, d: nat, q: int, r: int, n: int)
    requires x == q * d + r && 0 <= r < d
    requires n == if 2 * r > d || (2 * r == d && q % 2 == 1) then q + 1 else q
    ensures IsNearest(n, x, d)
  {
    assert (2 * n - 1) * d == 2 * (n * d) - d && (2 * n + 1) * d == 2 * (n * d) + d;
    assert n * d == if n == q then q * d else q * d + d;
  }

  /** Rounding keeps the order of ratios. */
  lemma NearestMono(x: nat, d: nat, y: nat, e: nat)
    requires d > 0 && e > 0 && x * e <= y * d
    ensures NearestEven(x, d) <= NearestEven(y, e)
  {
    var n, m := NearestEven(x, d), NearestEven(y, e);
    NearestEvenIsNearest(x, d);
    NearestEvenIsNearest(y, e);
    if m < n {
      MulMono(2 * m + 1, 2 * n - 1, e);
      SameMiddle(x, d, y, e, 2 * n - 1);
      SameFactor(2 * m + 1, 2 * n - 1, e);
      assert false;
    }
  }

  lemma SameFactor(i: int, j: int, k: int)
    requires k > 0 && i * k >= j * k
    ensures i >= j
  {
    if i < j {
      MulMono(i + 1, j, k);
    }
  }

  lemma SameMiddle(x: nat, d: nat, y: nat, e: nat, h: int)
    requires d > 0 && e > 0 && x * e <= y * d
    requires h * d <= 2 * x && 2 * y <= h * e
    ensures 2 * x == h * d && 2 * y == h * e
  {
    assert (h * e) * d == (h * d) * e;
    MulMono(2 * y, h * e, d);
    SameFactor(h * d, 2 * x, e);
    MulMono(h * d, 2 * x, e);
    SameFactor(2 * y, h * e, d);
  }

  /** The power of two that brings a small `x / d` up to 53 bits. */
  function Up(x: nat, d: nat): (a: nat)
    requires x > 0 && d > 0
    ensures a >= 1 && TWO_52 * d <= x * a
    ensures if x >= TWO_52 * d then a == 1 else a >= 2 && x * a < TWO_53 * d
    decreases Max(TWO_52 * d - x, 0)
  {
    if x >= TWO_52 * d then 1
    else
      var a := Up(2 * x, d);
      assert x * (2 * a) == 2 * x * a;
      2 * a
  }

  /** The power of two that brings a large `x / d` down to 53 bits. */
  function Down(x: nat, d: nat): (b: nat)
    requires x > 0 && d > 0
    ensures b >= 1 && x < TWO_53 * (d * b)
    ensures if x < TWO_53 * d then b == 1 else b >= 2 && TWO_52 * (d * b) <= x
    decreases Max(x - d, 0)
  {
    if x < TWO_53 * d then 1
    else
      var b := Down(x, 2 * d);
      assert d * (2 * b) == 2 * d * b;
      2 * b
  }

  /** The 53 bits of `x / d`. */
  function Mantissa(x: nat, d: nat): (m: nat)
    requires x > 0 && d > 0
    ensures TWO_52 <= m <= TWO_53
  {
    FiftyThreeBits(x, d);
    MantissaFits(x * Up(x, d), d * Down(x, d));
    NearestEven(x * Up(x, d), d * Down(x, d))
  }

  /** The `f64` nearest to `x / d`. */
  function Float(x: nat, d: nat): Ratio
    requires d > 0
  {
    if x == 0 then Ratio(0, 1) else Ratio(Mantissa(x, d) * Down(x, d), Up(x, d))
  }

  lemma {:induction false} FiftyThreeBits(x: nat, d: nat)
    requires x > 0 && d > 0
    ensures var v, w := x * Up(x, d), d * Down(x, d); w > 0 && TWO_52 * w <= v < TWO_53 * w
  {
    MulMono(1, d, Down(x, d));
  }

  lemma MantissaFits(v: nat, w: nat)
    requires w > 0 && TWO_52 * w <= v < TWO_53 * w
    ensures TWO_52 <= NearestEven(v, w) <= TWO_53
  {
    NearestMono(TWO_52, 1, v, w);
    NearestMono(v, w, TWO_53, 1);
  }

  // Rounding to 53 bits keeps the order of ratios.

  predicate AtMost(q: Ratio, p: Ratio) {
    q.num * p.den <= p.num * q.den
  }

  lemma {:induction false} UpDrops(x: nat, d: nat, y: nat, e: nat)
    requires x > 0 && d > 0 && y > 0 && e > 0 && x * e <= y * d
    ensures Up(x, d) == Up(y, e) || Up(x, d) >= 2 * Up(y, e)
    decreases Max(TWO_52 * d - x, 0)
  {
    if x >= TWO_52 * d {
      ReachesToo(x, d, y, e, TWO_52);
    } else if y < TWO_52 * e {
      UpDrops(2 * x, d, 2 * y, e);
    }
  }

  lemma ReachesToo(x: nat, d: nat, y: nat, e: nat, k: nat)
    requires d > 0 && x * e <= y * d && x >= k * d
    ensures y >= k * e
  {
    MulMono(k * d, x, e);
    assert (k * d) * e == (k * e) * d;
    SameFactor(y, k * e, d);
  }

  lemma {:induction false} DownDrops(x: nat, d: nat, y: nat, e: nat)
    requires x > 0 && d > 0 && y > 0 && e > 0 && x * e <= y * d
    ensures Down(x, d) == Down(y, e) || 2 * Down(x, d) <= Down(y, e)
    decreases Max(x - d, 0)
  {
    if x >= TWO_53 * d {
      ReachesToo(x, d, y, e, TWO_53);
      DownDrops(x, 2 * d, y, 2 * e);
    }
  }

  lemma FloatMono(x: nat, d: nat, y: nat, e: nat)
    requires d > 0 && e > 0 && x * e <= y * d
    ensures AtMost(Float(x, d), Float(y, e))
  {
    if x > 0 {
      if y == 0 {
        MulMono(1, x, e);
      }
      UpDrops(x, d, y, e);
      DownDrops(x, d, y, e);
      if Up(x, d) == Up(y, e) && Down(x, d) == Down(y, e) {
        SameScaleMono(x, d, y, e);
      } else {
        LowerScaleMono(x, d, y, e);
      }
    }
  }

  lemma {:induction false} SameScaleMono(x: nat, d: nat, y: nat, e: nat)
    requires x > 0 && d > 0 && y > 0 && e > 0 && x * e <= y * d
    requires Up(x, d) == Up(y, e) && Down(x, d) == Down(y, e)
    ensures AtMost(Float(x, d), Float(y, e))
  {
    var a, b := Up(x, d), Down(x, d);
    FiftyThreeBits(x, d);
    FiftyThreeBits(y, e);
    ScaledNearestMono(x, d, y, e, a, b);
    MulMono(Mantissa(x, d), Mantissa(y, e), b);
    MulMono(Mantissa(x, d) * b, Mantissa(y, e) * b, a);
  }

  lemma ScaledNearestMono(x: nat, d: nat, y: nat, e: nat, a: nat, b: nat)
    requires d * b > 0 && e * b > 0 && x * e <= y * d
    ensures NearestEven(x * a, d * b) <= NearestEven(y * a, e * b)
  {
    MulMono(x * e, y * d, a * b);
    assert (x * a) * (e * b) == x * e * (a * b);
    assert (y * a) * (d * b) == y * d * (a * b);
    NearestMono(x * a, d * b, y * a, e * b);
  }

  lemma {:induction false} LowerScaleMono(x: nat, d: nat, y: nat, e: nat)
    requires x > 0 && d > 0 && y > 0 && e > 0
    requires var a, b, a', b' := Up(x, d), Down(x, d), Up(y, e), Down(y, e);
             && (a == a' || a >= 2 * a') && (b == b' || 2 * b <= b')
             && !(a == a' && b == b')
    ensures AtMost(Float(x, d), Float(y, e))
  {
    LowerScale(Up(x, d), Down(x, d), Up(y, e), Down(y, e));
    BinadesApart(Mantissa(x, d), Mantissa(y, e), Up(x, d), Down(x, d), Up(y, e), Down(y, e));
  }

  lemma LowerScale(a: nat, b: nat, a': nat, b': nat)
    requires (a == a' || a >= 2 * a') && (b == b' || 2 * b <= b') && !(a == a' && b == b')
    ensures 2 * (b * a') <= b' * a
  {
    if a != a' {
      MulMono(2 * a', a, b');
      MulMono(b, b', 2 * a');
    } else {
      MulMono(2 * b, b', a);
    }
  }

  lemma BinadesApart(m: nat, m': nat, a: nat, b: nat, a': nat, b': nat)
    requires m <= TWO_53 && TWO_52 <= m' && 2 * (b * a') <= b' * a
    ensures m * b * a' <= m' * b' * a
  {
    MulMono(m, TWO_53, b * a');
    MulMono(TWO_52, m', b' * a);
    assert m * (b * a') == m * b * a' && m' * (b' * a) == m' * b' * a;
  }

  // How close the rounded value is.

  /** Within `k` parts in 2^53. */
  predicate Close(q: Ratio, x: nat, d: nat, k: nat) {
    x * q.den * (TWO_53 - k) <= q.num * d * TWO_53 <= x * q.den * (TWO_53 + k)
  }

  lemma FloatIsClose(x: nat, d: nat)
    requires d > 0
    ensures Close(Float(x, d), x, d, 1)
  {
    if x > 0 {
      FiftyThreeBits(x, d);
      NearestEvenIsNearest(x * Up(x, d), d * Down(x, d));
      NearestIsClose(Mantissa(x, d), x * Up(x, d), d * Down(x, d));
      Reorder(Mantissa(x, d), d, Down(x, d));
    }
  }

  lemma Reorder(m: nat, d: nat, b: nat)
    ensures m * (d * b) == m * b * d
  {
  }

  lemma NearestIsClose(n: nat, v: nat, w: nat)
    requires IsNearest(n, v, w) && TWO_52 * w <= v
    ensures v * (TWO_53 - 1) <= n * w * TWO_53 <= v * (TWO_53 + 1)
  {
    assert (2 * n - 1) * w == 2 * (n * w) - w && (2 * n + 1) * w == 2 * (n * w) + w;
  }

  // Quotients.

  lemma FloatIsPositive(x: nat, d: nat)
    requires x > 0 && d > 0
    ensures Float(x, d).num > 0
  {
    MulMono(1, Down(x, d), Mantissa(x, d));
  }

  /** `x as f64 / d as f64`. */
  function Quotient(x: nat, d: nat): Ratio
    requires d > 0
  {
    FloatIsPositive(d, 1);
    var n, r := Float(x, 1), Float(d, 1);
    MulMono(1, r.num, n.den);
    Float(n.num * r.den, n.den * r.num)
  }

  lemma QuotientMono(x: nat, y: nat, d: nat)
    requires d > 0 && x <= y
    ensures AtMost(Quotient(x, d), Quotient(y, d))
  {
    FloatIsPositive(d, 1);
    var n, m, r := Float(x, 1), Float(y, 1), Float(d, 1);
    FloatMono(x, 1, y, 1);
    MulMono(1, r.num, n.den);
    MulMono(1, r.num, m.den);
    MulMono(0, n.num, r.den);
    MulMono(0, m.num, r.den);
    SameDivisor(n.num, n.den, m.num, m.den, r.num, r.den);
    FloatMono(n.num * r.den, n.den * r.num, m.num * r.den, m.den * r.num);
  }

  lemma SameDivisor(n: nat, a: nat, m: nat, b: nat, r: nat, c: nat)
    requires n * b <= m * a
    ensures (n * c) * (b * r) <= (m * c) * (a * r)
  {
    MulMono(n * b, m * a, c * r);
    assert (n * c) * (b * r) == (n * b) * (c * r);
    assert (m * c) * (a * r) == (m * a) * (c * r);
  }

  /** `q / e` is about `(n / a) / (r / c)`, and those about `x` and `d`; `f` and `g` are
      `m` less or more one part. */
  lemma ChainFromBelow(q: nat, e: nat, n: nat, a: nat, r: nat, c: nat, x: nat, d: nat, m: nat, f: nat, g: nat)
    requires x * a * f <= n * m && r * m <= d * c * g && n * c * e * f <= q * (a * r) * m
    ensures (x * e * (f * f)) * (a * c) <= (q * d * (m * g)) * (a * c)
  {
    MulMono(x * a * f, n * m, c * e * f);
    MulMono(n * c * e * f, q * (a * r) * m, m);
    MulMono(r * m, d * c * g, q * a * m);
    Regroup(x, a, f, n, m, c, e);
    RegroupBack(q, a, r, m, d, c, g);
  }

  lemma ChainFromAbove(q: nat, e: nat, n: nat, a: nat, r: nat, c: nat, x: nat, d: nat, m: nat, f: nat, g: nat)
    requires n * m <= x * a * f && d * c * g <= r * m && q * (a * r) * m <= n * c * e * f
    ensures (q * d * (m * g)) * (a * c) <= (x * e * (f * f)) * (a * c)
  {
    MulMono(n * m, x * a * f, c * e * f);
    MulMono(q * (a * r) * m, n * c * e * f, m);
    MulMono(d * c * g, r * m, q * a * m);
    Regroup(x, a, f, n, m, c, e);
    RegroupBack(q, a, r, m, d, c, g);
  }

  lemma Regroup(x: nat, a: nat, f: nat, n: nat, m: nat, c: nat, e: nat)
    ensures x * a * f * (c * e * f) == (x * e * (f * f)) * (a * c)
    ensures n * m * (c * e * f) == n * c * e * f * m
  {
  }

  lemma RegroupBack(q: nat, a: nat, r: nat, m: nat, d: nat, c: nat, g: nat)
    ensures q * (a * r) * m * m == r * m * (q * a * m)
    ensures d * c * g * (q * a * m) == (q * d * (m * g)) * (a * c)
  {
    var w := q * a;
    assert q * (a * r) == w * r;
    assert w * r * m * m == r * m * (w * m);
    Pair(d * g, c, q * m, a);
    Pair(d, g, q, m);
    assert d * c * g == d * g * c && q * a * m == q * m * a;
  }

  lemma Pair(a: nat, b: nat, c: nat, d: nat)
    ensures (a * b) * (c * d) == (c * a) * (d * b)
  {
  }

  lemma Cancel(u: nat, v: nat, a: nat, c: nat)
    requires a > 0 && c > 0 && u * (a * c) <= v * (a * c)
    ensures u <= v
  {
    MulMono(1, a, c);
    SameFactor(v, u, a * c);
  }

  /** Three parts in `m` or fewer, from two on one side and one on the other. */
  lemma PartsFromBelow(u: nat, v: nat)
    requires u * ((TWO_53 - 1) * (TWO_53 - 1)) <= v * (TWO_53 * (TWO_53 + 1))
    ensures u * (TWO_53 - 4) <= v * TWO_53
  {
  }

  lemma PartsFromAbove(u: nat, v: nat)
    requires v * (TWO_53 * (TWO_53 - 1)) <= u * ((TWO_53 + 1) * (TWO_53 + 1))
    ensures v * TWO_53 <= u * (TWO_53 + 4)
  {
  }

  lemma CloseQuotient(q: Ratio, n: Ratio, r: Ratio, x: nat, d: nat)
    requires Close(n, x, 1, 1) && Close(r, d, 1, 1) && Close(q, n.num * r.den, n.den * r.num, 1)
    ensures Close(q, x, d, 4)
  {
    ChainFromBelow(q.num, q.den, n.num, n.den, r.num, r.den, x, d, TWO_53, TWO_53 - 1, TWO_53 + 1);
    Cancel(x * q.den * ((TWO_53 - 1) * (TWO_53 - 1)), q.num * d * (TWO_53 * (TWO_53 + 1)), n.den, r.den);
    PartsFromBelow(x * q.den, q.num * d);
    ChainFromAbove(q.num, q.den, n.num, n.den, r.num, r.den, x, d, TWO_53, TWO_53 + 1, TWO_53 - 1);
    Cancel(q.num * d * (TWO_53 * (TWO_53 - 1)), x * q.den * ((TWO_53 + 1) * (TWO_53 + 1)), n.den, r.den);
    PartsFromAbove(x * q.den, q.num * d);
  }

  /** Three roundings: within four parts in 2^53 of the exact quotient. */
  lemma QuotientIsClose(x: nat, d: nat)
    requires d > 0
    ensures Close(Quotient(x, d), x, d, 4)
  {
    FloatIsPositive(d, 1);
    var n, r := Float(x, 1), Float(d, 1);
    MulMono(1, r.num, n.den);
    FloatIsClose(x, 1);
    FloatIsClose(d, 1);
    FloatIsClose(n.num * r.den, n.den * r.num);
    CloseQuotient(Quotient(x, d), n, r, x, d);
  }

  // Quotients that are exact.

  function Pow2(k: nat): (p: nat)
    ensures p >= 1
  {
    if k == 0 then 1 else 2 * Pow2(k - 1)
  }

  /** Equal ratios are brought up by the same power of two. */
  lemma {:induction false} UpOfRatio(x: nat, d: nat, y: nat, e: nat)
    requires x > 0 && d > 0 && y > 0 && e > 0 && x * e == y * d
    ensures Up(x, d) == Up(y, e)
  {
    UpDrops(x, d, y, e);
    UpDrops(y, e, x, d);
  }

  lemma {:induction false} UpClearsPowerOfTwo(x: nat, k: nat)
    requires 0 < x < TWO_53
    ensures Up(x, Pow2(k)) % Pow2(k) == 0
    decreases k
  {
    if k > 0 {
      var d, half := Pow2(k), Pow2(k - 1);
      UpClearsPowerOfTwo(x, k - 1);
      UpOfRatio(2 * x, d, x, half);
      TwiceDivides(Up(x, half), half);
    }
  }

  lemma TwiceDivides(a: nat, d: nat)
    requires d > 0 && a % d == 0
    ensures 2 * a % (2 * d) == 0
  {
    assert 2 * a == a / d * (2 * d);
    FloorExactly(a / d, 2 * a, 2 * d);
  }

  lemma NearestOfMultiple(x: nat, a: nat, d: nat)
    requires d > 0 && a % d == 0
    ensures NearestEven(x * a, d) * d == x * a
  {
    var n := x * (a / d);
    assert a == a / d * d;
    assert x * a == n * d;
    FloorExactly(n, n * d, d);
  }

  /** A 53-bit number over a power of two is its own `f64`. */
  lemma {:induction false} FloatOfDyadic(x: nat, k: nat)
    requires x < TWO_53
    ensures Float(x, Pow2(k)).num * Pow2(k) == x * Float(x, Pow2(k)).den
  {
    var d := Pow2(k);
    if x > 0 {
      MulMono(1, d, TWO_53);
      UpClearsPowerOfTwo(x, k);
      NearestOfMultiple(x, Up(x, d), d);
    }
  }

  lemma FloatOfSmall(n: nat)
    requires n < TWO_53
    ensures Float(n, 1).num == n * Float(n, 1).den
  {
    FloatOfDyadic(n, 0);
  }

  lemma ExactParts(n: nat, a: nat, r: nat, c: nat, x: nat, d: nat)
    requires n == x * a && r == d * c
    ensures n * c * d == x * (a * r)
  {
    assert x * a * c * d == x * (a * (d * c));
  }

  lemma FloatOfEqual(y: nat, e: nat, x: nat, d: nat)
    requires d > 0 && e > 0 && y * d == x * e && Float(x, d).num * d == x * Float(x, d).den
    ensures Float(y, e).num * d == x * Float(y, e).den
  {
    FloatMono(y, e, x, d);
    FloatMono(x, d, y, e);
    SameRatio(Float(y, e), Float(x, d), x, d);
  }

  lemma SameRatio(q: Ratio, f: Ratio, x: nat, d: nat)
    requires AtMost(q, f) && AtMost(f, q) && f.num * d == x * f.den
    ensures q.num * d == x * q.den
  {
    assert q.num * d * f.den == q.num * f.den * d && x * q.den * f.den == x * f.den * q.den;
    assert f.num * q.den * d == f.num * d * q.den;
    SameFactor(q.num * d, x * q.den, f.den);
    SameFactor(x * q.den, q.num * d, f.den);
  }

  lemma QuotientOfExactParts(x: nat, d: nat, n: Ratio, r: Ratio)
    requires d > 0 && n == Float(x, 1) && r == Float(d, 1)
    requires n.num == x * n.den && r.num == d * r.den && Float(x, d).num * d == x * Float(x, d).den
    ensures Quotient(x, d).num * d == x * Quotient(x, d).den
  {
    FloatIsPositive(d, 1);
    MulMono(1, r.num, n.den);
    MulMono(0, n.num, r.den);
    ExactParts(n.num, n.den, r.num, r.den, x, d);
    FloatOfEqual(n.num * r.den, n.den * r.num, x, d);
  }

  /** Dividing by a power of two is exact. */
  lemma {:induction false} QuotientByPowerOfTwo(x: nat, k: nat)
    requires x < TWO_53 && Pow2(k) < TWO_53
    ensures Quotient(x, Pow2(k)).num * Pow2(k) == x * Quotient(x, Pow2(k)).den
  {
    FloatOfSmall(x);
    FloatOfSmall(Pow2(k));
    FloatOfDyadic(x, k);
    QuotientOfExactParts(x, Pow2(k), Float(x, 1), Float(Pow2(k), 1));
  }

  // Sums.

  function Sum(q: Ratio, p: Ratio): Ratio {
    MulMono(1, q.den, p.den);
    Float(q.num * p.den + p.num * q.den, q.den * p.den)
  }

  lemma AtMostTrans(a: Ratio, b: Ratio, c: Ratio)
    requires AtMost(a, b) && AtMost(b, c)
    ensures AtMost(a, c)
  {
    MulMono(a.num * b.den, b.num * a.den, c.den);
    MulMono(b.num * c.den, c.num * b.den, a.den);
    assert b.num * a.den * c.den == b.num * c.den * a.den;
    assert a.num * b.den * c.den == a.num * c.den * b.den && c.num * b.den * a.den == c.num * a.den * b.den;
    SameFactor(c.num * a.den, a.num * c.den, b.den);
  }

  /** A whole number and a part of one add up to between that number and the next. */
  lemma SumBounds(n: nat, x: nat, d: nat)
    requires n + 1 < TWO_53 && x <= d && d > 0
    ensures var q := Sum(Float(n, 1), Float(x, d));
            && n * q.den <= q.num <= (n + 1) * q.den
            && (x == 0 ==> q.num == n * q.den)
  {
    FloatOfSmall(n);
    PartIsAtMostOne(x, d);
    SumOfParts(n, Float(n, 1), Float(x, d));
  }

  lemma SumOfParts(n: nat, s: Ratio, f: Ratio)
    requires n + 1 < TWO_53 && s.num == n * s.den && f.num <= f.den
    ensures n * Sum(s, f).den <= Sum(s, f).num <= (n + 1) * Sum(s, f).den
    ensures f.num == 0 ==> Sum(s, f).num == n * Sum(s, f).den
  {
    var v, w := s.num * f.den + f.num * s.den, s.den * f.den;
    WholeAndPart(n, s.num, s.den, f.num, f.den);
    FloatBetween(n, n + 1, v, w);
    if f.num == 0 {
      FloatBetween(n, n, v, w);
    }
  }

  lemma PartIsAtMostOne(x: nat, d: nat)
    requires x <= d && d > 0
    ensures Float(x, d).num <= Float(x, d).den
  {
    FloatOfSmall(1);
    FloatMono(x, d, 1, 1);
    AtMostTrans(Float(x, d), Float(1, 1), Ratio(1, 1));
  }

  lemma WholeAndPart(n: nat, s: nat, a: nat, f: nat, b: nat)
    requires s == n * a && f <= b && a > 0 && b > 0
    ensures a * b > 0
    ensures n * (a * b) <= s * b + f * a <= (n + 1) * (a * b)
    ensures f == 0 ==> s * b + f * a == n * (a * b)
  {
    MulMono(1, a, b);
    MulMono(0, f, a);
    MulMono(f, b, a);
    assert n * a * b == n * (a * b);
  }

  lemma FloatBetween(low: nat, high: nat, x: nat, d: nat)
    requires d > 0 && low * d <= x <= high * d && low < TWO_53 && high < TWO_53
    ensures low * Float(x, d).den <= Float(x, d).num <= high * Float(x, d).den
  {
    FloatOfSmall(low);
    FloatOfSmall(high);
    FloatMono(low, 1, x, d);
    FloatMono(x, d, high, 1);
    AtMostTrans(Ratio(low, 1), Float(low, 1), Float(x, d));
    AtMostTrans(Float(x, d), Float(high, 1), Ratio(high, 1));
  }

  /** The part is not lost in the sum while the whole number is small enough. */
  lemma SumKeepsPart(n: nat, x: nat, d: nat)
    requires n + 1 < TWO_53 && 0 < x <= d && n * d * TWO_53 < (TWO_53 - 1) * (TWO_53 - 1)
    ensures var q := Sum(Float(n, 1), Float(x, d)); q.num > n * q.den
  {
    FloatOfSmall(n);
    FloatIsClose(x, d);
    PartIsKept(n, x, d, Float(n, 1), Float(x, d));
  }

  lemma PartIsKept(n: nat, x: nat, d: nat, s: Ratio, f: Ratio)
    requires s.num == n * s.den && Close(f, x, d, 1)
    requires 0 < x && n * d * TWO_53 < (TWO_53 - 1) * (TWO_53 - 1)
    ensures Sum(s, f).num > n * Sum(s, f).den
  {
    var q := Sum(s, f);
    MulMono(1, s.den, f.den);
    FloatIsClose(s.num * f.den + f.num * s.den, s.den * f.den);
    if q.num <= n * q.den {
      PartIsLost(n, s.num, s.den, f.num, f.den, q.num, q.den, TWO_53);
      PartIsTooSmall(n, x, d, f.num, f.den, TWO_53);
      assert false;
    }
  }

  lemma PartIsLost(n: nat, s: nat, a: nat, f: nat, b: nat, q: nat, e: nat, m: nat)
    requires s == n * a && a > 0 && b > 0 && e > 0 && m > 0 && q <= n * e
    requires (s * b + f * a) * e * (m - 1) <= q * (a * b) * m
    ensures f * (m - 1) <= n * b
  {
    var v, w := s * b + f * a, a * b;
    WholeRemains(n, v, w, q, e, m);
    LessThanOnePart(n, n * w, f * a, m);
    assert s * b == n * w;
    assert f * a * (m - 1) == f * (m - 1) * a && n * w == n * b * a;
    SameFactor(n * b, f * (m - 1), a);
  }

  lemma WholeRemains(n: nat, v: nat, w: nat, q: nat, e: nat, m: nat)
    requires e > 0 && m > 0 && q <= n * e && v * e * (m - 1) <= q * w * m
    ensures v * (m - 1) <= n * w * m
  {
    MulMono(q, n * e, w * m);
    assert q * w * m == q * (w * m) && n * e * (w * m) == n * w * m * e;
    assert v * e * (m - 1) == v * (m - 1) * e;
    SameFactor(n * w * m, v * (m - 1), e);
  }

  lemma LessThanOnePart(n: nat, u: nat, part: nat, m: nat)
    requires (u + part) * (m - 1) <= u * m
    ensures part * (m - 1) <= u
  {
    assert (u + part) * (m - 1) == u * m - u + part * (m - 1);
  }

  lemma PartIsTooSmall(n: nat, x: nat, d: nat, f: nat, b: nat, m: nat)
    requires x > 0 && b > 0 && m > 1 && f * (m - 1) <= n * b
    requires x * b * (m - 1) <= f * d * m
    ensures n * d * m >= (m - 1) * (m - 1)
  {
    var k := m - 1;
    MulMono(1, x, b * k);
    MulMono(b * k, f * d * m, k);
    MulMono(f * k, n * b, d * m);
    TwiceOver(n, d, f, b, m, k);
    SameFactor(n * d * m, k * k, b);
  }

  lemma TwiceOver(n: nat, d: nat, f: nat, b: nat, m: nat, k: nat)
    ensures f * d * m * k == f * k * (d * m) && n * b * (d * m) == n * d * m * b && b * k * k == k * k * b
  {
  }

  lemma {:induction false} Pow2Adds(j: nat, k: nat)
    ensures Pow2(j + k) == Pow2(j) * Pow2(k)
  {
    if j > 0 {
      Pow2Adds(j - 1, k);
    }
  }

  lemma PowersOfTwo()
    ensures Pow2(11) == 0x800 && Pow2(12) == 0x1000 && Pow2(28) == 0x1000_0000 && Pow2(29) == 0x2000_0000
  {
    assert Pow2(5) == 0x20 && Pow2(7) == 0x80;
    Pow2Adds(5, 6);
    Pow2Adds(5, 7);
    Pow2Adds(7, 7);
    Pow2Adds(14, 14);
  }

  lemma {:induction false} UpIsPowerOfTwo(x: nat, d: nat, k: nat)
    requires x > 0 && d > 0 && TWO_52 * d <= x * Pow2(k) < TWO_53 * d
    ensures Up(x, d) == Pow2(k)
    decreases k
  {
    if k > 0 {
      assert x * Pow2(k) == 2 * x * Pow2(k - 1);
      MulMono(1, Pow2(k - 1), 2 * x);
      UpIsPowerOfTwo(2 * x, d, k - 1);
    }
  }

  lemma {:induction false} MantissaAtScale(x: nat, d: nat, a: nat, b: nat)
    requires x > 0 && d > 0 && a == Up(x, d) && b == Down(x, d)
    ensures d * b > 0
    ensures Float(x, d) == Ratio(NearestEven(x * a, d * b) * b, a)
  {
    FiftyThreeBits(x, d);
  }

  /** Beside 2^24 a part of at most 2^-29 is lost. */
  lemma FloatLosesPart(x: nat, d: nat)
    requires d > 0 && 0x100_0000 * d <= x && x * 0x2000_0000 <= (TWO_53 + 1) * d
    ensures Float(x, d).num == 0x100_0000 * Float(x, d).den
  {
    PowersOfTwo();
    UpIsPowerOfTwo(x, d, 28);
    MantissaAtScale(x, d, 0x1000_0000, 1);
    NearestMono(TWO_52, 1, x * 0x1000_0000, d);
    NearestMono(x * 0x1000_0000, d, TWO_53 + 1, 2);
    NearestOfHalf();
  }

  lemma NearestOfHalf()
    ensures NearestEven(TWO_52, 1) == NearestEven(TWO_53 + 1, 2) == TWO_52
  {
  }

  lemma TinyPart(s: nat, a: nat, f: nat, b: nat)
    requires s == 0x100_0000 * a && f * 0x2000_0000 <= b
    ensures 0x100_0000 * (a * b) <= s * b + f * a && (s * b + f * a) * 0x2000_0000 <= (TWO_53 + 1) * (a * b)
  {
    MulMono(f * 0x2000_0000, b, a);
    MulMono(0, f, a);
    assert s * b == 0x100_0000 * (a * b);
    assert f * 0x2000_0000 * a == f * a * 0x2000_0000;
  }

  lemma SumLosesPart(x: nat, d: nat)
    requires x * 0x2000_0000 <= d && d > 0
    ensures var q := Sum(Float(0x100_0000, 1), Float(x, d)); q.num == 0x100_0000 * q.den
  {
    var s, f := Float(0x100_0000, 1), Float(x, d);
    FloatOfSmall(0x100_0000);
    SmallPart(x, d);
    MulMono(1, s.den, f.den);
    TinyPart(s.num, s.den, f.num, f.den);
    FloatLosesPart(s.num * f.den + f.num * s.den, s.den * f.den);
  }

  lemma SmallPart(x: nat, d: nat)
    requires x * 0x2000_0000 <= d && d > 0
    ensures Float(x, d).num * 0x2000_0000 <= Float(x, d).den
  {
    PowersOfTwo();
    FloatOfDyadic(1, 29);
    FloatMono(x, d, 1, 0x2000_0000);
    AtMostTrans(Float(x, d), Float(1, 0x2000_0000), Ratio(1, 0x2000_0000));
  }

  // The top of the `u64` range.

  const TWO_64 := 0x1_0000_0000_0000_0000

  lemma Halves(d: nat, p: nat, half: nat)
    requires p == 2 * half && half >= 1
    ensures d * p == 2 * d * half >= 2 * d
  {
    MulMono(1, half, 2 * d);
  }

  lemma {:induction false} DownIsPowerOfTwo(x: nat, d: nat, k: nat)
    requires x > 0 && d > 0 && TWO_52 * (d * Pow2(k)) <= x < TWO_53 * (d * Pow2(k))
    ensures Down(x, d) == Pow2(k)
    decreases k
  {
    if k > 0 {
      Halves(d, Pow2(k), Pow2(k - 1));
      DownIsPowerOfTwo(x, 2 * d, k - 1);
    }
  }

  lemma {:induction false} FloatBroughtDown(x: nat, k: nat, b: nat)
    requires b == Pow2(k) && x >= TWO_53 && TWO_52 * b <= x < TWO_53 * b
    ensures Float(x, 1) == Ratio(NearestEven(x, b) * b, 1)
  {
    DownIsPowerOfTwo(x, 1, k);
    MantissaAtScale(x, 1, Up(x, 1), Down(x, 1));
    assert Up(x, 1) == 1;
  }

  lemma NearestAtTheTop()
    ensures NearestEven(TWO_64 - 2048, 0x800) == NearestEven(TWO_64 - 1025, 0x800) == TWO_53 - 1
    ensures NearestEven(TWO_64 - 1024, 0x800) == TWO_53 && NearestEven(TWO_64, 0x1000) == TWO_52
  {
  }

  lemma FloatsBelowTwo64()
    ensures Float(TWO_64 - 2048, 1) == Float(TWO_64 - 1025, 1) == Ratio(TWO_64 - 2048, 1)
    ensures Float(TWO_64, 1) == Float(TWO_64 - 1024, 1) == Ratio(TWO_64, 1)
  {
    PowersOfTwo();
    NearestAtTheTop();
    FloatBroughtDown(TWO_64 - 2048, 11, 0x800);
    FloatBroughtDown(TWO_64 - 1025, 11, 0x800);
    FloatBroughtDown(TWO_64 - 1024, 11, 0x800);
    FloatBroughtDown(TWO_64, 12, 0x1000);
  }

  lemma TimesSame(bound: nat, num: nat, den: nat, c: nat)
    ensures bound * den <= num ==> bound * (den * c) <= num * c
    ensures num <= bound * den ==> num * c <= bound * (den * c)
  {
    assert bound * den * c == bound * (den * c);
    if bound * den <= num {
      MulMono(bound * den, num, c);
    }
    if num <= bound * den {
      MulMono(num, bound * den, c);
    }
  }

  /** Dividing by one rounds once more, which changes nothing where the bound is a number
      of its own. */
  lemma OverOneAtLeast(n: Ratio, r: Ratio, bound: nat)
    requires r.num == r.den && Float(bound, 1) == Ratio(bound, 1) && bound * n.den <= n.num
    ensures n.den * r.num > 0 && n.num * r.den >= 0
    ensures AtMost(Ratio(bound, 1), Float(n.num * r.den, n.den * r.num))
  {
    MulMono(1, r.num, n.den);
    MulMono(0, n.num, r.den);
    TimesSame(bound, n.num, n.den, r.den);
    FloatMono(bound, 1, n.num * r.den, n.den * r.num);
  }

  lemma OverOneAtMost(n: Ratio, r: Ratio, bound: nat)
    requires r.num == r.den && Float(bound, 1) == Ratio(bound, 1) && n.num <= bound * n.den
    ensures n.den * r.num > 0 && n.num * r.den >= 0
    ensures AtMost(Float(n.num * r.den, n.den * r.num), Ratio(bound, 1))
  {
    MulMono(1, r.num, n.den);
    MulMono(0, n.num, r.den);
    TimesSame(bound, n.num, n.den, r.den);
    FloatMono(n.num * r.den, n.den * r.num, bound, 1);
  }

  lemma QuotientByOne(x: nat)
    ensures x >= TWO_64 - 1024 ==> Quotient(x, 1).num >= TWO_64 * Quotient(x, 1).den
    ensures x < TWO_64 - 1024 ==> Quotient(x, 1).num < TWO_64 * Quotient(x, 1).den
  {
    FloatOfSmall(1);
    FloatIsPositive(1, 1);
    FloatsBelowTwo64();
    if x >= TWO_64 - 1024 {
      FloatMono(TWO_64 - 1024, 1, x, 1);
      OverOneAtLeast(Float(x, 1), Float(1, 1), TWO_64);
    } else {
      FloatMono(x, 1, TWO_64 - 1025, 1);
      OverOneAtMost(Float(x, 1), Float(1, 1), TWO_64 - 2048);
    }
  }
}
