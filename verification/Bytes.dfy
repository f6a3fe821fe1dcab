/** Fixed-width integers, their little-endian form, and laws of sequences. */
module Bytes {

  type byte = x: int | 0 <= x < 0x100
  type u16 = x: int | 0 <= x < 0x1_0000

  /** An unsigned 16-bit addition, as the C compiler performs it. */
  function Add16(x: u16, n: nat): (r: u16)
    ensures x + n < 0x1_0000 ==> r == x + n
  {
    (x + n) % 0x1_0000
  }

  function Pow256(n: nat): (r: nat)
    ensures 0 < r
  {
    if n == 0 then 1 else 256 * Pow256(n - 1)
  }

  /** The `n` low-order bytes of `x`, least significant first. */
  function Le(x: nat, n: nat): (r: seq<byte>)
    ensures |r| == n
  {
    if n == 0 then [] else [x % 256] + Le(x / 256, n - 1)
  }

  function FromLe(s: seq<byte>): nat
  {
    if s == [] then 0 else s[0] + 256 * FromLe(s[1..])
  }

  lemma {:induction false} LeRoundTrip(x: nat, n: nat)
    requires x < Pow256(n)
    ensures FromLe(Le(x, n)) == x
  {
    if n > 0 {
      LeRoundTrip(x / 256, n - 1);
      assert Le(x, n)[1..] == Le(x / 256, n - 1);
    }
  }

  lemma {:induction false} FromLeRoundTrip(s: seq<byte>)
    ensures FromLe(s) < Pow256(|s|)
    ensures Le(FromLe(s), |s|) == s
  {
    if s != [] {
      FromLeRoundTrip(s[1..]);
      assert FromLe(s) / 256 == FromLe(s[1..]) && FromLe(s) % 256 == s[0];
    }
  }

  function Le16(x: u16): (r: seq<byte>)
    ensures |r| == 2
  {
    [x % 256, x / 256]
  }

  /** The 16-bit number stored at offset `i`. */
  function U16At(s: seq<byte>, i: nat): u16
    requires i + 2 <= |s|
  {
    var low: int, high: int := s[i], s[i + 1];
    low + 256 * high
  }

  lemma U16RoundTrip(s: seq<byte>)
    requires 2 <= |s|
    ensures Le16(U16At(s, 0)) == s[..2]
  {
    var low: int, high: int := s[0], s[1];
    assert (low + 256 * high) % 256 == low && (low + 256 * high) / 256 == high;
  }

  lemma Assoc<T>(a: seq<T>, b: seq<T>, c: seq<T>)
    ensures (a + b) + c == a + (b + c)
  {
  }

  lemma SubSlice<T>(m: seq<T>, a: nat, n: nat, i: nat, k: nat)
    requires a + n <= |m| && i + k <= n
    ensures m[a..a + n][i..i + k] == m[a + i..a + i + k]
  {
    var x, y := m[a..a + n][i..i + k], m[a + i..a + i + k];
    forall j | 0 <= j < k
      ensures x[j] == y[j]
    {
      assert x[j] == m[a..a + n][i + j];
    }
  }
}
