/** Bytes, and the 4-byte alignment and big-endian fields shared by the record formats. */
module Bytes {

  type byte = x: int | 0 <= x < 256

  /** A C string without its terminating NUL. */
  ghost predicate NulFree(s: seq<byte>) {
    forall i :: 0 <= i < |s| ==> s[i] != 0
  }

  /** HTTC_ALIGN_SIZE(n, 4): `n` rounded up to a multiple of 4. */
  function Align4(n: nat): (a: nat)
    ensures n <= a < n + 4 && a % 4 == 0
  {
    if n % 4 == 0 then n else n + 4 - n % 4
  }

  /** The only multiple of 4 in its range. */
  lemma Align4Unique(n: nat, a: nat)
    requires n <= a < n + 4 && a % 4 == 0
    ensures Align4(n) == a
  {
  }

  lemma Align4Add(m: nat, n: nat)
    requires m % 4 == 0
    ensures Align4(m + n) == m + Align4(n)
  {
  }

  function Zeros(n: nat): (z: seq<byte>)
    ensures |z| == n && forall i :: 0 <= i < n ==> z[i] == 0
  {
    seq(n, _ => 0)
  }
}
