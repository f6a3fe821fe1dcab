/** The shift-and-mask arithmetic of the hash table, on numbers of any size. */
module HashBits {

  function Pow2(k: nat): (r: nat)
    ensures 0 < r
  {
    if k == 0 then 1 else 2 * Pow2(k - 1)
  }

  /** Bitwise and, bit by bit. */
  function BitAnd(x: nat, y: nat): nat {
    if x == 0 || y == 0 then 0 else (if x % 2 == 1 && y % 2 == 1 then 1 else 0) + 2 * BitAnd(x / 2, y / 2)
  }

  /** A logical shift to the right, bit by bit. */
  function Shr(x: nat, k: nat): nat {
    if k == 0 then x else Shr(x / 2, k - 1)
  }

  /** Masking with one less than a power of two is taking the remainder: HASH_TO_BKT. */
  lemma {:induction false} MaskIsRemainder(x: nat, k: nat)
    ensures BitAnd(x, Pow2(k) - 1) == x % Pow2(k)
    decreases k
  {
    if k > 0 {
      var n, m := Pow2(k), Pow2(k - 1);
      if x > 0 {
        MaskIsRemainder(x / 2, k - 1);
        assert (n - 1) % 2 == 1 && (n - 1) / 2 == m - 1;
        HalfRemainder(x, m);
      } else {
        assert 0 % n == 0;
      }
    }
  }

  lemma HalfRemainder(x: nat, m: nat)
    requires 0 < m
    ensures x % (2 * m) == x % 2 + 2 * (x / 2 % m)
  {
    var q, r, t := x / 2 / m, x / 2 % m, x % 2;
    assert x / 2 == q * m + r;
    assert x == (2 * m) * q + (2 * r + t);
    RemainderUnique(x, 2 * m, q, 2 * r + t);
  }

  lemma RemainderUnique(x: nat, n: nat, q: nat, r: nat)
    requires 0 < n && r < n && x == n * q + r
    ensures x / n == q && x % n == r
  {
    var d: int := x / n - q;
    assert n * d == r - x % n;
    assert d > 0 ==> n * d >= n;
    assert d < 0 ==> n * d <= n * -1;
  }

  /** Shifting is dividing by a power of two. */
  lemma {:induction false} ShiftIsDivision(x: nat, k: nat)
    ensures Shr(x, k) == x / Pow2(k)
    decreases k
  {
    if k > 0 {
      ShiftIsDivision(x / 2, k - 1);
      HalfQuotient(x, Pow2(k - 1));
    }
  }

  lemma HalfQuotient(x: nat, m: nat)
    requires 0 < m
    ensures x / (2 * m) == x / 2 / m
  {
    var q, r, t := x / 2 / m, x / 2 % m, x % 2;
    assert x / 2 == q * m + r;
    assert x == (2 * m) * q + (2 * r + t);
    RemainderUnique(x, 2 * m, q, 2 * r + t);
  }

  /** The smallest chain length that, in all of `b` chains, makes room for `n` items. */
  ghost predicate IsCeiling(c: nat, n: nat, b: nat) {
    c * b >= n && (c > 0 ==> (c - 1) * b < n)
  }

  /** The ideal chain length in `Pow2(k)` buckets, as the table computes it. */
  function IdealLength(n: nat, k: nat): nat {
    Shr(n, k) + if BitAnd(n, Pow2(k) - 1) != 0 then 1 else 0
  }

  /** It is the ceiling of the quotient. */
  lemma IdealIsCeiling(n: nat, k: nat)
    ensures IsCeiling(IdealLength(n, k), n, Pow2(k))
  {
    hide BitAnd, Shr, Pow2, IsCeiling;
    ShiftIsDivision(n, k);
    MaskIsRemainder(n, k);
    Ceiling(n, Pow2(k));
  }

  lemma Ceiling(n: nat, b: nat)
    requires 0 < b
    ensures IsCeiling(n / b + if n % b != 0 then 1 else 0, n, b)
  {
    var q, r := n / b, n % b;
    assert n == q * b + r;
    Times(q, b);
  }

  lemma Times(q: nat, b: nat)
    ensures (q + 1) * b == q * b + b
    ensures (q - 1) * b == q * b - b
  {
  }
}
