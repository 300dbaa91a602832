/**
  Packed policy buffers: variable-length records, each padded to a multiple of 4 bytes, with big-endian fields.

  A reader sees memory as a function from offsets to bytes: the buffer it was given, and beyond the end whatever
  lies there. The padding a writer leaves is arbitrary too.
*/
module RecordLayout {
  import opened Bytes

  type Mem = nat -> byte

  datatype Error = Parameter | InputExceed | OutputExceed

  datatype Result<T> = Ok(value: T) | Err(error: Error)

  function Slice(mem: Mem, at: nat, n: nat): (r: seq<byte>)
    ensures |r| == n && forall i :: 0 <= i < n ==> r[i] == mem(at + i)
  {
    seq(n, i requires 0 <= i < n => mem(at + i))
  }

  /** `ntohs` of a field. */
  function Half(mem: Mem, at: nat): nat { mem(at) * 256 + mem(at + 1) }

  /** `ntohl` of a field. */
  function Word(mem: Mem, at: nat): nat { mem(at) * 0x100_0000 + mem(at + 1) * 0x1_0000 + mem(at + 2) * 256 + mem(at + 3) }

  /** `htons`, of the low 16 bits. */
  function Be16(x: nat): (r: seq<byte>)
    ensures |r| == 2
  {
    [x / 256 % 256, x % 256]
  }

  /** `htonl`, of the low 32 bits. */
  function Be32(x: nat): (r: seq<byte>)
    ensures |r| == 4
  {
    [x / 0x100_0000 % 256, x / 0x1_0000 % 256, x / 256 % 256, x % 256]
  }

  lemma HalfBe16(mem: Mem, at: nat, x: nat)
    requires Slice(mem, at, 2) == Be16(x)
    ensures Half(mem, at) == x % 0x1_0000
  {
    assert mem(at) == Slice(mem, at, 2)[0] && mem(at + 1) == Slice(mem, at, 2)[1];
    TwoBytes(x);
  }

  lemma TwoBytes(x: nat)
    ensures x / 256 % 256 * 256 + x % 256 == x % 0x1_0000
  {
    var y := x / 256;
    var z := y / 256;
    assert y == z * 256 + y % 256 && x == y * 256 + x % 256;
    assert x == z * 0x1_0000 + (y % 256 * 256 + x % 256);
  }

  lemma FourBytes(x: nat)
    requires x < 0x1_0000_0000
    ensures x / 0x100_0000 % 256 * 0x100_0000 + x / 0x1_0000 % 256 * 0x1_0000 + x / 256 % 256 * 256 + x % 256 == x
  {
    var y := x / 256;
    var z := y / 256;
    assert x / 0x1_0000 == z && x / 0x100_0000 == z / 256;
    assert z == z / 256 * 256 + z % 256 && y == z * 256 + y % 256 && x == y * 256 + x % 256;
  }

  lemma WordBe32(mem: Mem, at: nat, x: nat)
    requires Slice(mem, at, 4) == Be32(x) && x < 0x1_0000_0000
    ensures Word(mem, at) == x
  {
    FourBytes(x);
    var s := Slice(mem, at, 4);
    assert mem(at) == s[0] && mem(at + 1) == s[1] && mem(at + 2) == s[2] && mem(at + 3) == s[3];
  }

  lemma SlicePart(mem: Mem, at: nat, n: nat, i: nat, k: nat)
    requires i + k <= n
    ensures Slice(mem, at, n)[i..i + k] == Slice(mem, at + i, k)
  {
  }

  lemma SliceJoin(mem: Mem, at: nat, n: nat, k: nat)
    ensures Slice(mem, at, n + k) == Slice(mem, at, n) + Slice(mem, at + n, k)
  {
  }

  /** A buffer that starts with `a` followed by `b`. */
  lemma SliceSplit(mem: Mem, at: nat, a: seq<byte>, b: seq<byte>)
    ensures Slice(mem, at, |a + b|) == a + b <==> Slice(mem, at, |a|) == a && Slice(mem, at + |a|, |b|) == b
  {
    SliceJoin(mem, at, |a|, |b|);
    if Slice(mem, at, |a + b|) == a + b {
      assert (a + b)[..|a|] == a && (a + b)[|a|..] == b;
      assert (Slice(mem, at, |a|) + Slice(mem, at + |a|, |b|))[..|a|] == Slice(mem, at, |a|);
      assert (Slice(mem, at, |a|) + Slice(mem, at + |a|, |b|))[|a|..] == Slice(mem, at + |a|, |b|);
    }
  }

  // ----- Sequences of records -----

  /** Offset behind the last record, each padded. */
  function End<T>(enc: T -> seq<byte>, xs: seq<T>): nat {
    if xs == [] then 0 else End(enc, xs[..|xs| - 1]) + Align4(|enc(xs[|xs| - 1])|)
  }

  /** `b` holds the encodings of `xs`, at their padded offsets. */
  ghost predicate Encoded<T(!new)>(enc: T -> seq<byte>, b: seq<byte>, xs: seq<T>)
    decreases |xs|
  {
    && |b| == End(enc, xs)
    && (xs != [] ==>
          var front, last := xs[..|xs| - 1], xs[|xs| - 1];
          && Encoded(enc, b[..End(enc, front)], front)
          && b[End(enc, front)..End(enc, front) + |enc(last)|] == enc(last))
  }

  /** Memory holds `xs` at the padded offsets, where `holds` says what a record must look like to a reader. */
  ghost predicate Laid<T(!new)>(enc: T -> seq<byte>, holds: (Mem, nat, T) -> bool, mem: Mem, xs: seq<T>) {
    xs != [] ==>
      && Laid(enc, holds, mem, xs[..|xs| - 1])
      && holds(mem, End(enc, xs[..|xs| - 1]), xs[|xs| - 1])
  }

  /** Whatever comes behind the buffer. */
  ghost predicate Starts(mem: Mem, b: seq<byte>) { Slice(mem, 0, |b|) == b }

  /** What a writer encodes is what a reader finds. */
  lemma {:induction false} EncodedLaid<T(!new)>(enc: T -> seq<byte>, holds: (Mem, nat, T) -> bool, mem: Mem, b: seq<byte>, xs: seq<T>)
    requires Encoded(enc, b, xs) && Starts(mem, b)
    requires forall at, k :: 0 <= k < |xs| && Slice(mem, at, |enc(xs[k])|) == enc(xs[k]) ==> holds(mem, at, xs[k])
    ensures Laid(enc, holds, mem, xs)
    decreases |xs|
  {
    if xs != [] {
      var front, last := xs[..|xs| - 1], xs[|xs| - 1];
      var e := End(enc, front);
      SlicePart(mem, 0, |b|, 0, e);
      EncodedLaid(enc, holds, mem, b[..e], front);
      SlicePart(mem, 0, |b|, e, |enc(last)|);
    }
  }

  lemma {:induction false} LaidPrefix<T(!new)>(enc: T -> seq<byte>, holds: (Mem, nat, T) -> bool, mem: Mem, xs: seq<T>, i: nat)
    requires i <= |xs| && Laid(enc, holds, mem, xs)
    ensures End(enc, xs[..i]) <= End(enc, xs)
    ensures i < |xs| ==> holds(mem, End(enc, xs[..i]), xs[i]) && End(enc, xs[..i]) + Align4(|enc(xs[i])|) <= End(enc, xs)
    decreases |xs|
  {
    if i < |xs| {
      var front := xs[..|xs| - 1];
      assert front[..i] == xs[..i];
      if i < |xs| - 1 {
        LaidPrefix(enc, holds, mem, front, i);
      } else {
        assert xs[..i] == front;
      }
    } else {
      assert xs[..i] == xs;
    }
  }

  lemma LaidNone<T(!new)>(enc: T -> seq<byte>, holds: (Mem, nat, T) -> bool, mem: Mem)
    ensures Laid(enc, holds, mem, []) && End(enc, []) == 0
  {
  }

  lemma LaidNext<T(!new)>(enc: T -> seq<byte>, holds: (Mem, nat, T) -> bool, mem: Mem, xs: seq<T>, x: T)
    requires Laid(enc, holds, mem, xs) && holds(mem, End(enc, xs), x)
    ensures Laid(enc, holds, mem, xs + [x]) && End(enc, xs + [x]) == End(enc, xs) + Align4(|enc(x)|)
  {
    assert (xs + [x])[..|xs|] == xs;
  }

  lemma EndNext<T>(enc: T -> seq<byte>, xs: seq<T>, i: nat)
    requires i < |xs|
    ensures End(enc, xs[..i + 1]) == End(enc, xs[..i]) + Align4(|enc(xs[i])|)
  {
    assert xs[..i + 1][..i] == xs[..i];
  }

  lemma {:induction false} EndAligned<T>(enc: T -> seq<byte>, xs: seq<T>)
    ensures End(enc, xs) % 4 == 0
    decreases |xs|
  {
    if xs != [] {
      EndAligned(enc, xs[..|xs| - 1]);
    }
  }

  lemma {:induction false} EndPrefix<T>(enc: T -> seq<byte>, xs: seq<T>, i: nat)
    requires i <= |xs|
    ensures End(enc, xs[..i]) <= End(enc, xs)
    decreases |xs| - i
  {
    if i < |xs| {
      EndPrefix(enc, xs, i + 1);
      EndNext(enc, xs, i);
    } else {
      assert xs[..i] == xs;
    }
  }

  // ----- Writing -----

  /** `s` stands in `b` at `at`. */
  ghost predicate Seg(b: seq<byte>, at: nat, s: seq<byte>) { at + |s| <= |b| && b[at..at + |s|] == s }

  ghost function Over(b: seq<byte>, at: nat, src: seq<byte>): (r: seq<byte>)
    requires at + |src| <= |b|
    ensures |r| == |b|
  {
    b[..at] + src + b[at + |src|..]
  }

  lemma OverSeg(b: seq<byte>, at: nat, src: seq<byte>, p: nat, s: seq<byte>)
    requires at + |src| <= |b| && Seg(b, p, s) && (p + |s| <= at || at + |src| <= p)
    ensures Seg(Over(b, at, src), p, s)
  {
    assert Over(b, at, src)[p..p + |s|] == b[p..p + |s|];
  }

  /** Everything that stood in `old` up to `at` still stands. */
  ghost predicate KeepsBelow(b: seq<byte>, b': seq<byte>, at: nat) {
    |b'| == |b| && forall p: nat, s: seq<byte> :: Seg(b, p, s) && p + |s| <= at ==> Seg(b', p, s)
  }

  lemma Kept(b: seq<byte>, b': seq<byte>, at: nat, p: nat, s: seq<byte>)
    requires KeepsBelow(b, b', at) && Seg(b, p, s) && p + |s| <= at
    ensures Seg(b', p, s)
  {
  }

  lemma KeepsTwice(b: seq<byte>, b': seq<byte>, b'': seq<byte>, at: nat, at': nat)
    requires KeepsBelow(b, b', at) && KeepsBelow(b', b'', at') && at <= at'
    ensures KeepsBelow(b, b'', at)
  {
    hide Seg;
  }

  lemma SegJoin(b: seq<byte>, at: nat, s: seq<byte>, t: seq<byte>)
    requires Seg(b, at, s) && Seg(b, at + |s|, t)
    ensures Seg(b, at, s + t)
  {
    assert b[at..at + |s + t|] == b[at..at + |s|] + b[at + |s|..at + |s| + |t|];
  }

  /** `memcpy` into a buffer: writes these bytes there and nothing else. */
  method Put(buf: array<byte>, at: nat, src: seq<byte>)
    requires at + |src| <= buf.Length
    modifies buf
    ensures buf[..] == Over(old(buf[..]), at, src)
    ensures Seg(buf[..], at, src)
    ensures forall p: nat, s: seq<byte> :: Seg(old(buf[..]), p, s) && (p + |s| <= at || at + |src| <= p) ==> Seg(buf[..], p, s)
  {
    ghost var before := buf[..];
    var i := 0;
    while i < |src|
      invariant 0 <= i <= |src|
      invariant forall k :: 0 <= k < buf.Length ==>
                  buf[k] == if at <= k < at + i then src[k - at] else before[k]
    {
      buf[at + i] := src[i];
      i := i + 1;
    }
    assert buf[..] == Over(before, at, src);
    forall p: nat, s: seq<byte> | Seg(before, p, s) && (p + |s| <= at || at + |src| <= p)
      ensures Seg(buf[..], p, s)
    {
      OverSeg(before, at, src, p, s);
    }
  }

  /** One more record written behind those already there. */
  lemma EncodedStep<T(!new)>(enc: T -> seq<byte>, b: seq<byte>, before: seq<byte>, xs: seq<T>, i: nat)
    requires i < |xs| && Encoded(enc, before, xs[..i])
    requires Seg(b, 0, before) && Seg(b, |before|, enc(xs[i])) && |before| + Align4(|enc(xs[i])|) <= |b|
    ensures |before| == End(enc, xs[..i]) && |before| + Align4(|enc(xs[i])|) == End(enc, xs[..i + 1])
    ensures Encoded(enc, b[..End(enc, xs[..i + 1])], xs[..i + 1])
  {
    hide End;
    EndNext(enc, xs, i);
    var ys := xs[..i + 1];
    var n := |before|;
    var b' := b[..n + Align4(|enc(xs[i])|)];
    assert ys[..|ys| - 1] == xs[..i] && ys[|ys| - 1] == xs[i];
    assert b'[..n] == b[0..n];
    assert b'[n..n + |enc(xs[i])|] == b[n..n + |enc(xs[i])|];
  }

  lemma NothingEncoded<T(!new)>(enc: T -> seq<byte>, b: seq<byte>, xs: seq<T>)
    ensures Encoded(enc, b[..0], xs[..0]) && End(enc, xs[..0]) == 0
  {
  }

  lemma SegPrefix(b: seq<byte>, n: nat)
    requires n <= |b|
    ensures Seg(b, 0, b[..n])
  {
  }
}
