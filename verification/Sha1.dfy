/**
  SHA-1: the digest of FIPS 180-1, and the context of `sha1.c` that computes it.

  The implementation keeps only sixteen schedule words, in a ring, and renames the five registers from one
  step to the next instead of moving them. It may also keep a full 64-byte block unprocessed in its buffer.
  However a message is cut into chunks, `Finish` yields the digest of the whole message.
*/
module Sha1 {
  import opened Bytes
  import opened HashFold

  // ----- The standard -----

  datatype Regs = Regs(a: Word, b: Word, c: Word, d: Word, e: Word)

  const IV: Regs := Regs(0x67452301, 0xefcdab89, 0x98badcfe, 0x10325476, 0xc3d2e1f0)

  /** The functions of section 5. */
  function F(t: nat, b: Word, c: Word, d: Word): Word {
    if t < 20 then Choose(b, c, d) else if 40 <= t < 60 then Majority(b, c, d) else Parity(b, c, d)
  }

  /** The constants of section 6. */
  function K(t: nat): Word {
    if t < 20 then 0x5a827999 else if t < 40 then 0x6ed9eba1 else if t < 60 then 0x8f1bbcdc else 0xca62c1d6
  }

  /** The eighty-word schedule of section 7. */
  function W(b: seq<byte>, t: nat): Word
    requires |b| == BLOCK
  {
    if t < 16 then WordAt(b, 4 * t)
    else Rol(Xor4(W(b, t - 3), W(b, t - 8), W(b, t - 14), W(b, t - 16)), 1)
  }

  lemma NoSteps(v: Regs, b: seq<byte>)
    requires |b| == BLOCK
    ensures Steps(v, b, 0) == v
  {
  }

  lemma NextStep(v: Regs, b: seq<byte>, t: nat)
    requires |b| == BLOCK
    ensures Steps(v, b, t + 1) == Step(Steps(v, b, t), t, W(b, t))
  {
  }

  /** One step of section 7: every register moves. */
  function Step(r: Regs, t: nat, w: Word): Regs {
    Regs(Sum5(Rol(r.a, 5), F(t, r.b, r.c, r.d), r.e, w, K(t)), r.a, Rol(r.b, 30), r.c, r.d)
  }

  function Steps(v: Regs, b: seq<byte>, t: nat): Regs
    requires |b| == BLOCK
  {
    if t == 0 then v else Step(Steps(v, b, t - 1), t - 1, W(b, t - 1))
  }

  function Sum(x: Regs, y: Regs): Regs {
    Regs(Add(x.a, y.a), Add(x.b, y.b), Add(x.c, y.c), Add(x.d, y.d), Add(x.e, y.e))
  }

  function Compress(v: Regs, b: seq<byte>): Regs {
    if |b| == BLOCK then Sum(v, Steps(v, b, 80)) else v
  }

  function Output(v: Regs): seq<byte> {
    WordBytes(v.a) + WordBytes(v.b) + WordBytes(v.c) + WordBytes(v.d) + WordBytes(v.e)
  }

  /** The digest of a message (sections 4 and 7). */
  function Digest(m: seq<byte>): seq<byte> {
    Output(Fold(Compress, IV, Padded(m)))
  }

  // ----- The step of the implementation -----

  function Xor4(x: Word, y: Word, z: Word, w: Word): Word { x ^ y ^ z ^ w }

  function Sum5(p: Word, f: Word, e: Word, w: Word, k: Word): Word { p + f + e + w + k }

  /** What the macro R adds up. */
  function SumCode(p: Word, f: Word, e: Word, w: Word, k: Word): Word { e + (p + f + k + w) }

  function Parity(b: Word, c: Word, d: Word): Word { b ^ c ^ d }

  function F1(b: Word, c: Word, d: Word): Word { d ^ (b & (c ^ d)) }

  function F3(b: Word, c: Word, d: Word): Word { (b & c) | (d & (b | c)) }

  /** The round function of a line of the unrolled loop. */
  function FCode(t: nat, b: Word, c: Word, d: Word): Word {
    if t < 20 then F1(b, c, d)
    else if t < 40 then Parity(b, c, d)
    else if t < 60 then F3(b, c, d)
    else Parity(b, c, d)
  }

  lemma ChooseWords(b: Word, c: Word, d: Word)
    ensures d ^ (b & (c ^ d)) == (b & c) | (!b & d)
  {
  }

  lemma MajorityWords(b: Word, c: Word, d: Word)
    ensures (b & c) | (d & (b | c)) == (b & c) | (b & d) | (c & d)
  {
  }

  lemma ChooseForm(b: Word, c: Word, d: Word)
    ensures Choose(b, c, d) == (b & c) | (!b & d)
    ensures F1(b, c, d) == d ^ (b & (c ^ d))
  {
  }

  lemma MajorityForm(b: Word, c: Word, d: Word)
    ensures Majority(b, c, d) == (b & c) | (b & d) | (c & d)
    ensures F3(b, c, d) == (b & c) | (d & (b | c))
  {
  }

  /** Three operations suffice where the standard's formula for the first rounds takes four. */
  lemma F1IsChoose(b: Word, c: Word, d: Word)
    ensures F1(b, c, d) == Choose(b, c, d)
  {
    hide *;
    ChooseForm(b, c, d);
    ChooseWords(b, c, d);
  }

  /** Four operations suffice where the standard's formula for the third rounds takes five. */
  lemma F3IsMajority(b: Word, c: Word, d: Word)
    ensures F3(b, c, d) == Majority(b, c, d)
  {
    hide *;
    MajorityForm(b, c, d);
    MajorityWords(b, c, d);
  }

  lemma RoundFunctions(t: nat, b: Word, c: Word, d: Word)
    ensures FCode(t, b, c, d) == F(t, b, c, d)
  {
    hide F1, F3, Choose, Majority, Parity;
    F1IsChoose(b, c, d);
    F3IsMajority(b, c, d);
  }

  /** The terms of a step are added in another order. */
  lemma SumOrder(p: Word, f: Word, e: Word, w: Word, k: Word)
    ensures SumCode(p, f, e, w, k) == Sum5(p, f, e, w, k)
  {
  }

  lemma XorOrder(x: Word, y: Word, z: Word, w: Word)
    ensures Xor4(x, y, z, w) == Xor4(w, z, y, x)
  {
  }

  /** The macro R, in place on two of the five registers: the roles rotate instead of the values. */
  method R(a: Word, b: Word, c: Word, d: Word, e: Word, t: nat, m: Word) returns (b': Word, e': Word)
    ensures Step(Regs(a, b, c, d, e), t, m) == Regs(e', a, b', c, d)
  {
    hide Rol, Sum5, SumCode, F, FCode, K;
    RoundFunctions(t, b, c, d);
    SumOrder(Rol(a, 5), F(t, b, c, d), e, m, K(t));
    e' := SumCode(Rol(a, 5), FCode(t, b, c, d), e, m, K(t));
    b' := Rol(b, 30);
  }

  /** The ring holds the sixteen schedule words below `hi`. */
  ghost predicate Window(x: seq<Word>, b: seq<byte>, hi: nat)
    requires |b| == BLOCK
  {
    |x| == 16 && hi >= 16 && forall i {:trigger W(b, i)} :: hi - 16 <= i < hi ==> x[i % 16] == W(b, i)
  }

  function Reach(t: nat): nat { if t < 16 then 16 else t }

  /** `x[t]` of the first sixteen steps and the macro M of the others. */
  method Schedule(x: array<Word>, b: seq<byte>, t: nat) returns (w: Word)
    requires |b| == BLOCK && x.Length == 16 && Window(x[..], b, Reach(t))
    modifies x
    ensures w == W(b, t) && Window(x[..], b, Reach(t + 1))
  {
    hide Rol, Xor4, WordAt;
    if t < 16 {
      w := x[t];
      assert t % 16 == t && x[..][t % 16] == W(b, t);
    } else {
      assert x[..][(t - 16) % 16] == W(b, t - 16) && (t - 16) % 16 == t % 16;
      assert x[..][(t - 14) % 16] == W(b, t - 14);
      assert x[..][(t - 8) % 16] == W(b, t - 8);
      assert x[..][(t - 3) % 16] == W(b, t - 3);
      XorOrder(x[t % 16], x[(t - 14) % 16], x[(t - 8) % 16], x[(t - 3) % 16]);
      var tm := Xor4(x[t % 16], x[(t - 14) % 16], x[(t - 8) % 16], x[(t - 3) % 16]);
      ghost var before := x[..];
      x[t % 16] := Rol(tm, 1);
      w := x[t % 16];
      assert w == W(b, t);
      forall i {:trigger W(b, i)} | t - 15 <= i < t + 1
        ensures x[..][i % 16] == W(b, i)
      {
        if i < t {
          assert i % 16 != t % 16;
          assert x[..][i % 16] == before[i % 16];
        }
      }
    }
  }

  /** Five consecutive lines of the unrolled round: after them the names stand where they stood. */
  method Five(x: array<Word>, block: seq<byte>, ghost v: Regs, t: nat, a0: Word, b0: Word, c0: Word, d0: Word, e0: Word)
    returns (a: Word, b: Word, c: Word, d: Word, e: Word)
    requires |block| == BLOCK && x.Length == 16 && Window(x[..], block, Reach(t))
    requires Steps(v, block, t) == Regs(a0, b0, c0, d0, e0)
    modifies x
    ensures Window(x[..], block, Reach(t + 5))
    ensures Steps(v, block, t + 5) == Regs(a, b, c, d, e)
  {
    hide W, Step, Steps, Window, Reach;
    a, b, c, d, e := a0, b0, c0, d0, e0;
    var m := Schedule(x, block, t);
    b, e := R(a, b, c, d, e, t, m);
    NextStep(v, block, t);
    m := Schedule(x, block, t + 1);
    a, d := R(e, a, b, c, d, t + 1, m);
    NextStep(v, block, t + 1);
    m := Schedule(x, block, t + 2);
    e, c := R(d, e, a, b, c, t + 2, m);
    NextStep(v, block, t + 2);
    m := Schedule(x, block, t + 3);
    d, b := R(c, d, e, a, b, t + 3, m);
    NextStep(v, block, t + 3);
    m := Schedule(x, block, t + 4);
    c, a := R(b, c, d, e, a, t + 4, m);
    NextStep(v, block, t + 4);
  }

  // ----- The context -----

  class Context {
    var regs: Regs
    var total0: nat
    var total1: nat
    var buflen: nat
    const buffer: array<byte>

    /** `sha1_init_ctx`. */
    constructor ()
      ensures Holds([]) && fresh(buffer)
    {
      regs, total0, total1, buflen := IV, 0, 0, 0;
      buffer := new byte[128];
    }

    /** The context has read all of `all` but `rest`: the registers cover whole blocks, whose length the
        counter holds, and the buffer holds what follows them. */
    ghost predicate Reads(all: seq<byte>, rest: seq<byte>)
      reads this, buffer
    {
      && buffer.Length == 128 && buflen <= BLOCK && buflen + |rest| <= |all|
      && var p := |all| - |rest| - buflen;
      && p % BLOCK == 0 && Counts(total1, total0, p)
      && regs == Fold(Compress, IV, all[..p])
      && all[p..] == buffer[..buflen] + rest
    }

    ghost predicate Holds(m: seq<byte>)
      reads this, buffer
    {
      Reads(m, [])
    }

    /** One pass of the loop of `sha1_process_block`. */
    method OneBlock(block: seq<byte>)
      requires |block| == BLOCK
      modifies this`regs
      ensures regs == Compress(old(regs), block)
    {
      hide Step, Add, Steps, W;
      var x := new Word[16];
      var t := 0;
      while t < 16
        invariant 0 <= t <= 16 && forall i :: 0 <= i < t ==> x[i] == WordAt(block, 4 * i)
        modifies x
      {
        x[t] := WordAt(block, 4 * t);
        t := t + 1;
      }
      FirstWords(block, x[..]);
      var Regs(a, b, c, d, e) := regs;
      NoSteps(regs, block);
      t := 0;
      hide Window, WordAt;
      while t < 80
        invariant 0 <= t <= 80 && t % 5 == 0 && Window(x[..], block, Reach(t))
        invariant Steps(regs, block, t) == Regs(a, b, c, d, e)
        modifies x
      {
        a, b, c, d, e := Five(x, block, regs, t, a, b, c, d, e);
        t := t + 5;
      }
      regs := Sum(regs, Regs(a, b, c, d, e));
    }

    /** `sha1_process_block`; the data is a whole number of blocks. */
    method ProcessBlock(data: seq<byte>, ghost n: nat)
      requires |data| % BLOCK == 0 && |data| < TWO32
      requires Counts(total1, total0, n) && n + |data| < TWO64
      modifies this`regs, this`total0, this`total1
      ensures regs == Fold(Compress, old(regs), data)
      ensures Counts(total1, total0, n + |data|)
    {
      hide Compress, Fold, Counts;
      CounterAdd(total1, total0, n, |data|);
      total0 := (total0 + |data|) % TWO32;
      if total0 < |data| {
        total1 := (total1 + 1) % TWO32;
      }
      ghost var start := regs;
      var words := 0;
      FoldShort(Compress, start, data[..0]);
      while words < |data|
        invariant 0 <= words <= |data| && words % BLOCK == 0
        invariant regs == Fold(Compress, start, data[..words])
        modifies this`regs
      {
        FoldNext(Compress, start, data, words);
        OneBlock(data[words..words + BLOCK]);
        words := words + BLOCK;
      }
      assert data[..words] == data;
    }

    /** Copies `src` into the buffer at `at`. */
    method Copy(at: nat, src: seq<byte>)
      requires buffer.Length == 128 && at + |src| <= 128
      modifies buffer
      ensures buffer[..] == old(buffer[..])[..at] + src + old(buffer[..])[at + |src|..]
    {
      ghost var before := buffer[..];
      var i := 0;
      while i < |src|
        invariant 0 <= i <= |src|
        invariant forall k :: 0 <= k < 128 ==>
                    buffer[k] == if at <= k < at + i then src[k - at] else before[k]
      {
        buffer[at + i] := src[i];
        i := i + 1;
      }
    }

    /** Like `Reads`, while the buffer may hold more than one block. */
    ghost predicate Filled(all: seq<byte>, rest: seq<byte>, p: nat)
      reads this, buffer
    {
      && buffer.Length == 128 && buflen <= 128 && p + buflen + |rest| == |all|
      && p % BLOCK == 0 && Counts(total1, total0, p)
      && regs == Fold(Compress, IV, all[..p])
      && all[p..] == buffer[..buflen] + rest
    }

    /** Processes the first `n` bytes of the buffer and moves the others down. */
    method Flush(n: nat, ghost all: seq<byte>, ghost rest: seq<byte>, ghost p: nat)
      requires n % BLOCK == 0 && n <= buflen && buflen - n < BLOCK <= n
      requires Filled(all, rest, p) && |all| < TWO61
      modifies this`regs, this`total0, this`total1, this`buflen, buffer
      ensures Reads(all, rest) && buflen == old(buflen) - n
    {
      hide Compress, Fold, Counts;
      ghost var held := buffer[..buflen];
      Split(all, p, held, rest, n);
      assert buffer[..n] == held[..n];
      FoldAppend(Compress, IV, all[..p], held[..n]);
      ProcessBlock(buffer[..n], p);
      assert buffer[n..buflen] == held[n..];
      Copy(0, buffer[n..buflen]);
      buflen := buflen - n;
      assert buffer[..buflen] == held[n..];
    }

    /** First part of `sha1_process_bytes`: top up a buffer that is in use. */
    method TakeBuffered(rest: seq<byte>, ghost all: seq<byte>) returns (rest': seq<byte>)
      requires Reads(all, rest) && |all| < TWO61
      modifies this`regs, this`total0, this`total1, this`buflen, buffer
      ensures Reads(all, rest') && |rest'| <= |rest| && (rest' != [] ==> buflen == 0)
    {
      hide Compress, Fold;
      rest' := rest;
      if buflen != 0 {
        var leftOver := buflen;
        var add := if 128 - leftOver > |rest| then |rest| else 128 - leftOver;
        ghost var held := buffer[..leftOver];
        Copy(leftOver, rest[..add]);
        buflen := buflen + add;
        rest' := rest[add..];
        assert buffer[..buflen] == held + rest[..add];
        assert held + rest == held + rest[..add] + rest';
        if buflen > 64 {
          Flush(buflen / 64 * 64, all, rest', |all| - |rest'| - buflen);
        }
      }
    }

    /** Second part: process the whole blocks of the chunk. */
    method TakeWhole(rest: seq<byte>, ghost all: seq<byte>) returns (rest': seq<byte>)
      requires Reads(all, rest) && |all| < TWO61 && |rest| < TWO32 && (rest != [] ==> buflen == 0)
      modifies this`regs, this`total0, this`total1
      ensures Reads(all, rest') && |rest'| < BLOCK
    {
      hide Compress, Fold, Counts;
      rest' := rest;
      if |rest| >= 64 {
        var n := |rest| / 64 * 64;
        ghost var p := |all| - |rest|;
        assert buffer[..0] == [] && [] + rest == rest;
        WholeLength(|rest|);
        Split(all, p, rest, [], n);
        assert rest[n..] + [] == [] + rest[n..];
        FoldAppend(Compress, IV, all[..p], rest[..n]);
        ProcessBlock(rest[..n], p);
        rest' := rest[n..];
      }
    }

    /** Third part: keep the remaining bytes. */
    method TakeTail(rest: seq<byte>, ghost all: seq<byte>)
      requires Reads(all, rest) && |all| < TWO61 && |rest| < BLOCK
      modifies this`regs, this`total0, this`total1, this`buflen, buffer
      ensures Holds(all)
    {
      hide Compress, Fold;
      if |rest| > 0 {
        ghost var held := buffer[..buflen];
        Copy(buflen, rest);
        buflen := buflen + |rest|;
        assert buffer[..buflen] == held + rest;
        if buflen >= 64 {
          assert buffer[..buflen] + [] == buffer[..buflen];
          Flush(64, all, [], |all| - buflen);
        }
      }
    }

    /** `sha1_process_bytes`. */
    method ProcessBytes(chunk: seq<byte>, ghost m: seq<byte>)
      requires Holds(m) && |chunk| < TWO32 && |m| + |chunk| < TWO61
      modifies this`regs, this`total0, this`total1, this`buflen, buffer
      ensures Holds(m + chunk)
    {
      ghost var all := m + chunk;
      StartReading(m, chunk);
      hide *;
      var rest := TakeBuffered(chunk, all);
      rest := TakeWhole(rest, all);
      TakeTail(rest, all);
    }

    lemma StartReading(m: seq<byte>, chunk: seq<byte>)
      requires Holds(m)
      ensures Reads(m + chunk, chunk)
    {
      hide Compress, Fold;
      var p := |m| - buflen;
      assert (m + chunk)[..p] == m[..p];
      assert (m + chunk)[p..] == m[p..] + chunk;
      assert buffer[..buflen] + [] == buffer[..buflen];
    }

    /** Writes the length and the padding behind the `bytes` bytes in use. */
    method Close(bytes: nat, size: nat, length: seq<byte>)
      requires buffer.Length == 128 && |length| == 8 && bytes + 8 < size <= 128
      modifies buffer
      ensures buffer[..size] == old(buffer[..bytes]) + ([0x80] + Zeros(size - 8 - bytes - 1)) + length
    {
      Copy(size - 8, length);
      Copy(bytes, [0x80] + Zeros(size - 8 - bytes - 1));
    }

    /** `sha1_finish_ctx`. */
    method Finish(ghost m: seq<byte>) returns (output: seq<byte>)
      requires Holds(m) && |m| < TWO61
      modifies this`regs, this`total0, this`total1, buffer
      ensures output == Digest(m)
    {
      hide Compress, Fold, BigEndian, Counts, LengthField, Padded, Output;
      var bytes := buflen;
      ghost var p := |m| - bytes;
      assert m[p..] == buffer[..bytes] by {
        assert buffer[..bytes] + [] == buffer[..bytes];
      }
      var size := if bytes < 56 then 64 else 128;
      CounterAdd(total1, total0, p, bytes);
      total0 := (total0 + bytes) % TWO32;
      if total0 < bytes {
        total1 := (total1 + 1) % TWO32;
      }
      LengthFieldExact(total1, total0, |m|);
      Close(bytes, size, LengthField(total1, total0));
      FinalBlocks(m, p, [0x80] + Zeros(size - 8 - bytes - 1));
      ProcessBlock(buffer[..size], |m|);
      output := Output(regs);
    }
  }

  lemma WholeLength(n: nat)
    ensures n / 64 * 64 <= n < n / 64 * 64 + 64 && n / 64 * 64 % BLOCK == 0
  {
  }

  lemma Split(all: seq<byte>, p: nat, held: seq<byte>, rest: seq<byte>, n: nat)
    requires p + |held| + |rest| == |all| && all[p..] == held + rest && n <= |held|
    ensures all[..p + n] == all[..p] + held[..n] && all[p + n..] == held[n..] + rest
  {
    assert all == all[..p] + (held[..n] + (held[n..] + rest)) by {
      assert held == held[..n] + held[n..];
    }
  }

  /** The blocks that `Finish` builds are the end of the padded message. */
  lemma FinalBlocks(m: seq<byte>, p: nat, fill: seq<byte>)
    requires p <= |m| <= p + BLOCK && p % BLOCK == 0
    requires var n := |m| - p; fill == [0x80] + Zeros((if n < 56 then 64 else 128) - 8 - n - 1)
    ensures Fold(Compress, Fold(Compress, IV, m[..p]), m[p..] + fill + BigEndian(8 * |m|, 8))
         == Fold(Compress, IV, Padded(m))
  {
    hide Compress, Fold, BigEndian;
    var n := |m| - p;
    assert |m| % BLOCK == n % BLOCK;
    assert fill == [0x80] + Zeros(ZeroCount(|m|));
    var tail := m[p..] + fill + BigEndian(8 * |m|, 8);
    assert m == m[..p] + m[p..];
    assert Padded(m) == m[..p] + tail;
    FoldAppend(Compress, IV, m[..p], tail);
  }

  lemma FoldShort<S>(f: (S, seq<byte>) -> S, s: S, m: seq<byte>)
    requires |m| < BLOCK
    ensures Fold(f, s, m) == s
  {
  }

  /** The loaded block is the first window of the schedule. */
  lemma FirstWords(block: seq<byte>, x: seq<Word>)
    requires |block| == BLOCK && |x| == 16 && forall i :: 0 <= i < 16 ==> x[i] == WordAt(block, 4 * i)
    ensures Window(x, block, 16)
  {
    hide WordAt;
    forall i {:trigger W(block, i)} | 0 <= i < 16
      ensures x[i % 16] == W(block, i)
    {
      assert i % 16 == i;
    }
  }

  /** Chunk independence: any way of feeding a message gives its digest. */
  method DigestChunks(chunks: seq<seq<byte>>) returns (output: seq<byte>)
    requires forall i :: 0 <= i < |chunks| ==> |chunks[i]| < TWO32
    requires |Concat(chunks)| < TWO61
    ensures output == Digest(Concat(chunks))
  {
    hide Digest, Compress, Fold;
    var ctx := new Context();
    ghost var m: seq<byte> := [];
    var i := 0;
    while i < |chunks|
      invariant 0 <= i <= |chunks| && ctx.Holds(m) && m == Concat(chunks[..i]) && fresh(ctx.buffer)
    {
      assert chunks[..i + 1][..i] == chunks[..i];
      ConcatPrefix(chunks, i + 1);
      ctx.ProcessBytes(chunks[i], m);
      m := m + chunks[i];
      i := i + 1;
    }
    assert chunks[..i] == chunks;
    output := ctx.Finish(m);
  }

  /** `sha1_buffer`. */
  method DigestBuffer(data: seq<byte>) returns (output: seq<byte>)
    requires |data| < TWO32
    ensures output == Digest(data)
  {
    hide Digest, Compress, Fold;
    var ctx := new Context();
    assert [] + data == data;
    ctx.ProcessBytes(data, []);
    output := ctx.Finish(data);
  }
}
