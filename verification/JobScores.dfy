/** The score of a job in its index: the creation time in nanoseconds, converted to a 64-bit
    floating-point number. */
module JobScores {
  const TWO52 := 0x10_0000_0000_0000
  const TWO53 := 0x20_0000_0000_0000
  const TWO63 := 0x8000_0000_0000_0000
  const MILLISECOND := 1_000_000

  predicate Int64(n: int) {
    -TWO63 <= n < TWO63
  }

  // ---------------------------------------------------------------- conversion to float64

  function Pow2(k: nat): (p: nat)
    ensures p >= 1
  {
    if k == 0 then 1 else 2 * Pow2(k - 1)
  }

  /** The number of low bits that do not fit a significand of 53 bits. */
  function Excess(n: nat): nat {
    if n < TWO53 then 0 else 1 + Excess(n / 2)
  }

  /** The distance between neighbouring floating-point numbers around `n`. */
  function Spacing(n: nat): (u: nat)
    ensures u >= 1
  {
    Pow2(Excess(n))
  }

  function Below(n: nat, u: nat): nat
    requires u >= 1
  {
    n / u * u
  }

  function Even(n: nat, u: nat): bool
    requires u >= 1
  {
    n / u % 2 == 0
  }

  /** Of `below` and `below + u`, the one nearer to `n`, or else the even one. */
  function Nearer(n: nat, below: nat, u: nat, even: bool): nat {
    if 2 * n < 2 * below + u || (2 * n == 2 * below + u && even) then below else below + u
  }

  function NearestMultiple(n: nat, u: nat): nat
    requires u >= 1
  {
    Nearer(n, Below(n, u), u, Even(n, u))
  }

  function ToFloat(n: int): int {
    if n < 0 then -(NearestMultiple(-n, Spacing(-n)) as int) else NearestMultiple(n, Spacing(n))
  }

  lemma {:induction false} SpacingFits(n: nat)
    ensures n < TWO53 * Spacing(n)
    ensures Spacing(n) == 1 || TWO52 * Spacing(n) <= n
  {
    if n >= TWO53 {
      SpacingFits(n / 2);
    }
  }

  lemma {:induction false} MultiplesInOrder(j: nat, k: nat, u: nat)
    ensures j <= k ==> j * u <= k * u
    ensures j < k ==> j * u + u <= k * u
  {
    if j >= k {
    } else {
      MultiplesInOrder(j, k - 1, u);
      assert k * u == (k - 1) * u + u;
    }
  }

  lemma BelowIsBelow(n: nat, u: nat)
    requires u >= 1
    ensures Below(n, u) <= n < Below(n, u) + u
  {
    assert n == n / u * u + n % u;
  }

  lemma NoMultipleBetween(n: nat, u: nat, k: nat)
    requires u >= 1
    ensures k * u <= Below(n, u) || Below(n, u) + u <= k * u
  {
    MultiplesInOrder(k, n / u, u);
    MultiplesInOrder(n / u, k, u);
  }

  lemma NearerIsNearest(n: nat, below: nat, u: nat, even: bool, x: nat)
    requires below <= n < below + u && (x <= below || below + u <= x)
    ensures var r := Nearer(n, below, u, even);
      && Distance(n, r) <= Distance(n, x)
      && 2 * Distance(n, r) <= u
      && (x <= n ==> x <= r)
      && (n <= x ==> r <= x)
  {
  }

  lemma NearerIsMonotone(m: nat, low: nat, e: bool, n: nat, high: nat, e': bool, u: nat)
    requires low <= m < low + u && high <= n < high + u && m <= n
    requires low + u <= high || (low == high && e == e')
    ensures Nearer(m, low, u, e) <= Nearer(n, high, u, e')
  {
  }

  /** Rounding does not cross a multiple, no multiple is nearer, and the error is at most half the spacing. */
  lemma RoundingStays(n: nat, u: nat, k: nat)
    requires u >= 1
    ensures k * u <= n ==> k * u <= NearestMultiple(n, u)
    ensures n <= k * u ==> NearestMultiple(n, u) <= k * u
    ensures Distance(n, NearestMultiple(n, u)) <= Distance(n, k * u)
    ensures 2 * Distance(n, NearestMultiple(n, u)) <= u
  {
    BelowIsBelow(n, u);
    NoMultipleBetween(n, u, k);
    NearerIsNearest(n, Below(n, u), u, Even(n, u), k * u);
  }

  function Distance(a: int, b: int): nat {
    if a < b then b - a else a - b
  }

  // ---------------------------------------------------------------- the conversion is the IEEE one

  /** A number a float64 holds: at most 53 significant bits, times a power of two. */
  ghost predicate Representable(x: nat) {
    exists m: nat, k: nat :: m <= TWO53 && IsScaled(x, m, k)
  }

  predicate IsScaled(x: nat, m: nat, k: nat) {
    x == m * Pow2(k)
  }

  lemma {:induction false} PowersDivide(j: nat, k: nat)
    requires j <= k
    ensures exists c: nat :: Pow2(k) == c * Pow2(j)
  {
    if j == k {
      assert Pow2(k) == 1 * Pow2(j);
    } else {
      PowersDivide(j, k - 1);
      var c: nat :| Pow2(k - 1) == c * Pow2(j);
      assert Pow2(k) == (2 * c) * Pow2(j);
    }
  }

  lemma {:induction false} PowersGrow(j: nat, k: nat)
    requires j < k
    ensures 2 * Pow2(j) <= Pow2(k)
  {
    if j == k - 1 {
    } else {
      PowersGrow(j, k - 1);
    }
  }

  lemma NearestIsRepresentable(n: nat)
    ensures Representable(NearestMultiple(n, Spacing(n)))
  {
    var u := Spacing(n);
    SpacingFits(n);
    BelowIsBelow(n, u);
    MultiplesInOrder(TWO53, n / u, u);
    var m := if NearestMultiple(n, u) == Below(n, u) then n / u else n / u + 1;
    assert (n / u + 1) * u == n / u * u + u;
    assert IsScaled(NearestMultiple(n, u), m, Excess(n));
  }

  lemma CoarserIsMultiple(m: nat, j: nat, k: nat) returns (c: nat)
    requires j <= k
    ensures m * Pow2(k) == c * Pow2(j)
  {
    PowersDivide(j, k);
    var d: nat :| Pow2(k) == d * Pow2(j);
    c := m * d;
    assert m * (d * Pow2(j)) == m * d * Pow2(j);
  }

  lemma {:induction false} FinerIsSmall(m: nat, k: nat, n: nat)
    requires m <= TWO53 && k < Excess(n)
    ensures m * Pow2(k) <= TWO52 * Spacing(n) <= n
  {
    PowersGrow(k, Excess(n));
    SpacingFits(n);
    MultiplesInOrder(m, TWO53, Pow2(k));
  }

  /** An even multiple of `u`: as a significand over that spacing, one whose last bit is zero. */
  ghost predicate EvenMultiple(x: nat, u: nat) {
    exists m: nat :: IsEvenMultiple(x, u, m)
  }

  predicate IsEvenMultiple(x: nat, u: nat, m: nat) {
    m % 2 == 0 && x == m * u
  }

  /** `r` is at least as near to `n` as `x` is, and where both are as near it is the even one. */
  ghost predicate Prefers(n: nat, r: nat, x: nat, u: nat) {
    x == r || Distance(n, r) < Distance(n, x) || (Distance(n, r) == Distance(n, x) && EvenMultiple(r, u))
  }

  lemma NearestIsPreferred(n: nat, u: nat, x: nat)
    requires u >= 1 && (x <= Below(n, u) || Below(n, u) + u <= x)
    ensures Prefers(n, NearestMultiple(n, u), x, u)
  {
    BelowIsBelow(n, u);
    NearerIsNearest(n, Below(n, u), u, Even(n, u), x);
    var q := n / u;
    assert (q + 1) * u == q * u + u;
    if q % 2 == 0 {
      assert IsEvenMultiple(Below(n, u), u, q);
    } else {
      assert IsEvenMultiple(Below(n, u) + u, u, q + 1);
    }
  }

  lemma NaturalIsPreferred(n: nat, x: nat)
    requires Representable(x)
    ensures Prefers(n, NearestMultiple(n, Spacing(n)), x, Spacing(n))
  {
    var u := Spacing(n);
    var m: nat, k: nat :| m <= TWO53 && IsScaled(x, m, k);
    if Excess(n) <= k {
      var c := CoarserIsMultiple(m, Excess(n), k);
      NoMultipleBetween(n, u, c);
    } else {
      FinerIsSmall(m, k, n);
      BelowIsBelow(n, u);
      NoMultipleBetween(n, u, TWO52);
    }
    NearestIsPreferred(n, u, x);
  }

  function Abs(n: int): nat {
    if n < 0 then -n else n
  }

  /** The conversion is that of IEEE 754: it answers a number that a double holds, none is nearer, and
      of two as near it is the one with the even significand. */
  lemma ToFloatIsNearest(n: int, x: int)
    requires Representable(Abs(x))
    ensures Representable(Abs(ToFloat(n)))
    ensures x == ToFloat(n) || Distance(n, ToFloat(n)) < Distance(n, x)
         || (Distance(n, ToFloat(n)) == Distance(n, x) && EvenMultiple(Abs(ToFloat(n)), Spacing(Abs(n))))
  {
    NearestIsRepresentable(Abs(n));
    if (n < 0) == (x < 0) || n == 0 || x == 0 {
      NaturalIsPreferred(Abs(n), Abs(x));
    } else {
      assert IsScaled(0, 0, 0);
      NaturalIsPreferred(Abs(n), 0);
    }
  }

  // ---------------------------------------------------------------- order

  lemma {:induction false} ExcessGrows(a: nat, b: nat)
    requires a <= b
    ensures Excess(a) <= Excess(b)
  {
    if a >= TWO53 {
      ExcessGrows(a / 2, b / 2);
    }
  }

  lemma SameSpacingIsMonotone(a: nat, b: nat, u: nat)
    requires a <= b && u >= 1
    ensures NearestMultiple(a, u) <= NearestMultiple(b, u)
  {
    BelowIsBelow(a, u);
    BelowIsBelow(b, u);
    NoMultipleBetween(b, u, a / u);
    NoMultipleBetween(a, u, b / u);
    if Below(a, u) == Below(b, u) {
      MultiplesInOrder(a / u, b / u, u);
      MultiplesInOrder(b / u, a / u, u);
    }
    NearerIsMonotone(a, Below(a, u), Even(a, u), b, Below(b, u), Even(b, u), u);
  }

  lemma NearestIsMonotone(a: nat, b: nat)
    requires a <= b
    ensures ToFloat(a) <= ToFloat(b)
  {
    ExcessGrows(a, b);
    var u := Spacing(b);
    if Excess(a) == Excess(b) {
      SameSpacingIsMonotone(a, b, u);
    } else {
      PowersGrow(Excess(a), Excess(b));
      SpacingFits(a);
      SpacingFits(b);
      RoundingStays(a, Spacing(a), TWO53);
      RoundingStays(b, u, TWO52);
    }
  }

  /** Scores never reorder two times. */
  lemma ScoresAreMonotone(a: int, b: int)
    requires a <= b
    ensures ToFloat(a) <= ToFloat(b)
  {
    if 0 <= a {
      NearestIsMonotone(a, b);
    } else if b < 0 {
      NearestIsMonotone(-b, -a);
    }
  }

  lemma ScoreError(n: int)
    requires Int64(n)
    ensures -1024 <= ToFloat(n) - n <= 1024
  {
    var a := if n < 0 then -n else n;
    SpacingFits(a);
    RoundingStays(a, Spacing(a), 0);
  }

  /** Times in milliseconds: every two of them, over the whole 64-bit range, keep their order. */
  lemma MillisecondsStayApart(a: int, b: int)
    requires Int64(a * MILLISECOND) && Int64(b * MILLISECOND)
    ensures ToFloat(a * MILLISECOND) < ToFloat(b * MILLISECOND) <==> a < b
  {
    ScoreError(a * MILLISECOND);
    ScoreError(b * MILLISECOND);
    if b <= a {
      ScoresAreMonotone(b * MILLISECOND, a * MILLISECOND);
    }
  }

  /** For times of our day, from 2^60 to 2^61 nanoseconds, neighbouring scores are 256 apart. */
  lemma SpacingOfOurDay(n: nat)
    requires 0x1000_0000_0000_0000 <= n < 0x2000_0000_0000_0000
    ensures Spacing(n) == 256
  {
    assert Excess(n / 256) == 0;
    assert Excess(n / 64) == 2;
    assert Excess(n / 16) == 4;
    assert Excess(n / 4) == 6;
    assert Excess(n) == 8;
    assert Pow2(4) == 16;
    assert Pow2(8) == 256;
  }

  /** Below a millisecond the order is lost: a later time can have the same score. */
  lemma NanosecondsAreBlurred()
    ensures ToFloat(1_500_000_000_000_000_001) == ToFloat(1_500_000_000_000_000_000)
  {
    SpacingOfOurDay(1_500_000_000_000_000_001);
    SpacingOfOurDay(1_500_000_000_000_000_000);
  }
}
