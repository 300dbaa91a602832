/**
  Hashing by blocks of 64 bytes: folding a compression function over a message, and the padding both
  SM3 (GB/T 32905-2016, section 5.2) and SHA-1 (FIPS 180-1, section 4) use.
*/
module HashFold {
  import opened Bytes

  const BLOCK: nat := 64
  const TWO32: nat := 0x1_0000_0000
  const TWO61: nat := 0x2000_0000_0000_0000
  const TWO64: nat := 0x1_0000_0000_0000_0000

  /** Compresses the whole blocks of `m` into `s`, one after another. */
  function Fold<S>(f: (S, seq<byte>) -> S, s: S, m: seq<byte>): S
    decreases |m|
  {
    if |m| < BLOCK then s else Fold(f, f(s, m[..BLOCK]), m[BLOCK..])
  }

  /** Folding is associative at block boundaries. */
  lemma {:induction false} FoldAppend<S>(f: (S, seq<byte>) -> S, s: S, a: seq<byte>, b: seq<byte>)
    requires |a| % BLOCK == 0
    ensures Fold(f, s, a + b) == Fold(f, Fold(f, s, a), b)
    decreases |a|
  {
    if a == [] {
      assert a + b == b;
    } else {
      assert (a + b)[..BLOCK] == a[..BLOCK];
      assert (a + b)[BLOCK..] == a[BLOCK..] + b;
      FoldAppend(f, f(s, a[..BLOCK]), a[BLOCK..], b);
    }
  }

  lemma FoldOne<S>(f: (S, seq<byte>) -> S, s: S, b: seq<byte>)
    requires |b| == BLOCK
    ensures Fold(f, s, b) == f(s, b)
  {
    assert b[..BLOCK] == b;
    assert Fold(f, f(s, b), b[BLOCK..]) == f(s, b);
  }

  /** One more block of a message. */
  lemma FoldNext<S>(f: (S, seq<byte>) -> S, s: S, m: seq<byte>, p: nat)
    requires p % BLOCK == 0 && p + BLOCK <= |m|
    ensures Fold(f, s, m[..p + BLOCK]) == f(Fold(f, s, m[..p]), m[p..p + BLOCK])
  {
    assert m[..p + BLOCK] == m[..p] + m[p..p + BLOCK];
    FoldAppend(f, s, m[..p], m[p..p + BLOCK]);
    FoldOne(f, Fold(f, s, m[..p]), m[p..p + BLOCK]);
  }

  /** The whole blocks of a message. */
  function Whole(n: nat): (w: nat)
    ensures w <= n < w + BLOCK && w % BLOCK == 0
  {
    n - n % BLOCK
  }

  /** Big-endian bytes of `x`. */
  function BigEndian(x: nat, n: nat): (r: seq<byte>)
    ensures |r| == n
  {
    if n == 0 then [] else BigEndian(x / 256, n - 1) + [x % 256]
  }

  /** Number of zero bytes between the 0x80 byte and the length field. */
  function ZeroCount(n: nat): (z: nat)
    ensures z < BLOCK && (n + 1 + z + 8) % BLOCK == 0
  {
    if n % BLOCK < 56 then 55 - n % BLOCK else 119 - n % BLOCK
  }

  /** The padded message: a one bit, zeros, and the length in bits as a 64-bit number. */
  function Padded(m: seq<byte>): (r: seq<byte>)
    ensures |r| % BLOCK == 0
  {
    m + [0x80] + Zeros(ZeroCount(|m|)) + BigEndian(8 * |m|, 8)
  }

  /** The whole blocks end at the only multiple of 64 in the last 64 places. */
  lemma WholeUnique(n: nat, p: nat)
    requires p <= n < p + BLOCK && p % BLOCK == 0
    ensures Whole(n) == p
  {
  }

  // ----- Words -----

  type Word = bv32

  /** The big-endian word at `i`. */
  function WordAt(b: seq<byte>, i: nat): Word
    requires i + 4 <= |b|
  {
    ToWord(b[i] as int * 0x100_0000 + b[i + 1] as int * 0x1_0000 + b[i + 2] as int * 256 + b[i + 3] as int)
  }

  function ToWord(n: nat): Word
    requires n < TWO32
  {
    n as Word
  }

  /** The four bytes of a word, most significant first. */
  function WordBytes(w: Word): (r: seq<byte>)
    ensures |r| == 4
  {
    BigEndian(w as int, 4)
  }

  // The word operations of both standards, named so that proofs can treat them as opaque.

  /** Addition modulo 2^32. */
  function Add(x: Word, y: Word): Word { x + y }

  function Add4(x: Word, y: Word, z: Word, w: Word): Word { x + y + z + w }

  function Xor(x: Word, y: Word): Word { x ^ y }

  function Xor3(x: Word, y: Word, z: Word): Word { x ^ y ^ z }

  function Majority(x: Word, y: Word, z: Word): Word { (x & y) | (x & z) | (y & z) }

  function Choose(x: Word, y: Word, z: Word): Word { (x & y) | (!x & z) }

  /** Rotation to the left. */
  function Rol(x: Word, n: nat): Word
    requires n < 32
  {
    if n == 0 then x else Shifts(x, n, 32 - n)
  }

  function Shifts(x: Word, l: nat, r: nat): Word
    requires l <= 32 && r <= 32
  {
    (x << l) | (x >> r)
  }

  // ----- The split 64-bit counter -----

  /** A 64-bit count kept as two 32-bit words. */
  ghost predicate Counts(high: nat, low: nat, n: nat) {
    low < TWO32 && high < TWO32 && high * TWO32 + low == n
  }

  /** Adding with carry detected by wrap-around, as both implementations do it. */
  lemma CounterAdd(high: nat, low: nat, n: nat, k: nat)
    requires Counts(high, low, n) && k < TWO32 && n + k < TWO64
    ensures var low' := (low + k) % TWO32;
            Counts(if low' < k then (high + 1) % TWO32 else high, low', n + k)
  {
    var low' := (low + k) % TWO32;
    if low + k < TWO32 {
      assert low' == low + k;
    } else {
      assert low' == low + k - TWO32;
    }
  }

  /** The two words of the bit count, from the two words of the byte count. */
  lemma BitLength(high: nat, low: nat, n: nat)
    requires Counts(high, low, n) && n < TWO61
    ensures var bh := (low / 0x2000_0000 + high * 8) % TWO32;
            var bl := (low * 8) % TWO32;
            bh * TWO32 + bl == 8 * n && bh == low / 0x2000_0000 + high * 8
  {
    var q := low / 0x2000_0000;
    var r := low % 0x2000_0000;
    assert low == q * 0x2000_0000 + r;
    assert low * 8 == q * TWO32 + r * 8;
    assert high < 0x2000_0000;
    assert (low * 8) % TWO32 == r * 8 by { ModSum(q, r * 8); }
  }

  lemma ModSum(q: nat, r: nat)
    requires r < TWO32
    ensures (q * TWO32 + r) % TWO32 == r
  {
  }

  /** Eight big-endian bytes are two big-endian words. */
  lemma BigEndianSplit(hi: nat, lo: nat)
    requires hi < TWO32 && lo < TWO32
    ensures BigEndian(hi * TWO32 + lo, 8) == BigEndian(hi, 4) + BigEndian(lo, 4)
  {
    BigEndianConcat(hi, lo, 4);
  }

  /** The length field both implementations write, from the two words of the byte count. */
  function LengthField(high: nat, low: nat): (r: seq<byte>)
    ensures |r| == 8
  {
    BigEndian((low / 0x2000_0000 + high * 8) % TWO32, 4) + BigEndian((low * 8) % TWO32, 4)
  }

  /** It is the length in bits that the standards ask for. */
  lemma LengthFieldExact(high: nat, low: nat, n: nat)
    requires Counts(high, low, n) && n < TWO61
    ensures LengthField(high, low) == BigEndian(8 * n, 8)
  {
    hide BigEndian;
    BitLength(high, low, n);
    BigEndianSplit((low / 0x2000_0000 + high * 8) % TWO32, (low * 8) % TWO32);
  }

  lemma {:induction false} BigEndianConcat(hi: nat, lo: nat, n: nat)
    requires n <= 4 && lo < Pow256(n)
    ensures BigEndian(hi * Pow256(n) + lo, 4 + n) == BigEndian(hi, 4) + BigEndian(lo, n)
    decreases n
  {
    if n > 0 {
      var x := hi * Pow256(n) + lo;
      var p := Pow256(n - 1);
      assert x == (hi * p + lo / 256) * 256 + lo % 256 by {
        assert Pow256(n) == p * 256;
        assert hi * (p * 256) == (hi * p) * 256;
      }
      DivMod256(hi * p + lo / 256, lo % 256);
      BigEndianConcat(hi, lo / 256, n - 1);
      assert BigEndian(hi, 4) + (BigEndian(lo / 256, n - 1) + [lo % 256]) ==
             (BigEndian(hi, 4) + BigEndian(lo / 256, n - 1)) + [lo % 256];
    } else {
      assert BigEndian(hi, 4) + [] == BigEndian(hi, 4);
    }
  }

  function Pow256(n: nat): nat
    requires n <= 4
  {
    match n
    case 0 => 1
    case 1 => 256
    case 2 => 0x1_0000
    case 3 => 0x100_0000
    case 4 => TWO32
  }

  lemma DivMod256(q: nat, r: nat)
    requires r < 256
    ensures (q * 256 + r) / 256 == q && (q * 256 + r) % 256 == r
  {
  }

  // ----- Chunks -----

  function Concat(chunks: seq<seq<byte>>): seq<byte> {
    if chunks == [] then [] else Concat(chunks[..|chunks| - 1]) + chunks[|chunks| - 1]
  }

  lemma {:induction false} ConcatPrefix(chunks: seq<seq<byte>>, i: nat)
    requires i <= |chunks|
    ensures |Concat(chunks[..i])| <= |Concat(chunks)|
    decreases |chunks| - i
  {
    if i < |chunks| {
      ConcatPrefix(chunks, i + 1);
      assert chunks[..i + 1][..i] == chunks[..i];
    } else {
      assert chunks[..i] == chunks;
    }
  }
}
