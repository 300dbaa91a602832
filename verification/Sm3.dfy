/**
  SM3: the compression function of GB/T 32905-2016, section 5.3, and the streaming context of `sm3.c`.

  However a message is cut into chunks, `Finish` yields the hash of the whole message.
*/
module Sm3 {
  import opened Bytes
  import opened HashFold

  // ----- The standard -----

  datatype Regs = Regs(a: Word, b: Word, c: Word, d: Word, e: Word, f: Word, g: Word, h: Word)

  const IV: Regs :=
    Regs(0x7380166f, 0x4914b2b9, 0x172442d7, 0xda8a0600, 0xa96f30bc, 0x163138aa, 0xe38dee4d, 0xb0fb0e4e)

  function P0(x: Word): Word { Xor3(x, Rol(x, 9), Rol(x, 17)) }

  function P1(x: Word): Word { Xor3(x, Rol(x, 15), Rol(x, 23)) }

  function T(j: nat): Word { if j < 16 then 0x79cc4519 else 0x7a879d8a }

  function FF(j: nat, x: Word, y: Word, z: Word): Word {
    if j < 16 then Xor3(x, y, z) else Majority(x, y, z)
  }

  function GG(j: nat, x: Word, y: Word, z: Word): Word {
    if j < 16 then Xor3(x, y, z) else Choose(x, y, z)
  }

  /** Message expansion (section 5.3.2). */
  function W(b: seq<byte>, j: nat): Word
    requires |b| == BLOCK
  {
    if j < 16 then WordAt(b, 4 * j)
    else Xor3(P1(Xor3(W(b, j - 16), W(b, j - 9), Rol(W(b, j - 3), 15))), Rol(W(b, j - 13), 7), W(b, j - 6))
  }

  /** One round of section 5.3.3. */
  function Round(r: Regs, j: nat, w: Word, w': Word): Regs {
    var ss1 := Rol(Add(Add(Rol(r.a, 12), r.e), Rol(T(j), j % 32)), 7);
    var ss2 := Xor(ss1, Rol(r.a, 12));
    var tt1 := Add4(FF(j, r.a, r.b, r.c), r.d, ss2, w');
    var tt2 := Add4(GG(j, r.e, r.f, r.g), r.h, ss1, w);
    Regs(tt1, r.a, Rol(r.b, 9), r.c, P0(tt2), r.e, Rol(r.f, 19), r.g)
  }

  function Rounds(v: Regs, b: seq<byte>, j: nat): Regs
    requires |b| == BLOCK
  {
    if j == 0 then v else Round(Rounds(v, b, j - 1), j - 1, W(b, j - 1), Xor(W(b, j - 1), W(b, j + 3)))
  }

  function Mix(x: Regs, y: Regs): Regs {
    Regs(Xor(x.a, y.a), Xor(x.b, y.b), Xor(x.c, y.c), Xor(x.d, y.d),
         Xor(x.e, y.e), Xor(x.f, y.f), Xor(x.g, y.g), Xor(x.h, y.h))
  }

  /** The compression function CF. */
  function Compress(v: Regs, b: seq<byte>): Regs {
    if |b| == BLOCK then Mix(Rounds(v, b, 64), v) else v
  }

  function Output(v: Regs): seq<byte> {
    WordBytes(v.a) + WordBytes(v.b) + WordBytes(v.c) + WordBytes(v.d)
    + WordBytes(v.e) + WordBytes(v.f) + WordBytes(v.g) + WordBytes(v.h)
  }

  /** The SM3 hash of a message (section 5). */
  function Hash(m: seq<byte>): seq<byte> {
    Output(Fold(Compress, IV, Padded(m)))
  }

  // ----- The implementation -----

  /** `SM3_padding`. */
  const PADDING: seq<byte> := [0x80] + Zeros(63)

  class Context {
    var high: nat
    var low: nat
    var vector: Regs
    var buffer: array<byte>

    constructor ()
      ensures Holds([]) && fresh(buffer)
    {
      high, low, vector := 0, 0, IV;
      buffer := new byte[64];
    }

    /** The context stands for the message `m` so far: the vector covers its whole blocks, the buffer holds
        the rest, and the two counter words hold its length. */
    ghost predicate Holds(m: seq<byte>)
      reads this, buffer
    {
      && Counts(high, low, |m|) && buffer.Length == BLOCK
      && vector == Fold(Compress, IV, m[..Whole(|m|)])
      && buffer[..|m| - Whole(|m|)] == m[Whole(|m|)..]
    }

    /** `SM3_CF`. */
    method CF(b: seq<byte>)
      requires |b| == BLOCK
      modifies this`vector
      ensures vector == Compress(old(vector), b)
    {
      hide W, Round, Mix;
      var w := ExpandWords(b);
      var r := vector;
      var j := 0;
      while j < 16
        invariant 0 <= j <= 16 && r == Rounds(vector, b, j) && vector == old(vector)
      {
        r := EarlyRound(r, j, w[j], w[j + 4]);
        j := j + 1;
      }
      while j < 64
        invariant 16 <= j <= 64 && r == Rounds(vector, b, j) && vector == old(vector)
      {
        r := LateRound(r, j, w[j], w[j + 4]);
        j := j + 1;
      }
      vector := Mix(r, vector);
    }

    /** In the middle of an update: of the message `all`, the vector covers whole blocks, the first `left`
        buffer bytes come next, and `rest` is still to be read. */
    ghost predicate Reached(all: seq<byte>, left: nat, rest: seq<byte>)
      reads this, buffer
    {
      && buffer.Length == BLOCK && left < BLOCK && left + |rest| <= |all|
      && var p := |all| - |rest| - left;
      && p % BLOCK == 0 && vector == Fold(Compress, IV, all[..p])
      && all[p..] == buffer[..left] + rest
    }

    /** Folds the next block in, when it lies whole in the chunk. */
    method TakeBlock(rest: seq<byte>, ghost all: seq<byte>) returns (rest': seq<byte>)
      requires Reached(all, 0, rest) && |rest| >= BLOCK
      modifies this`vector
      ensures rest' == rest[BLOCK..] && Reached(all, 0, rest')
    {
      hide Compress, Fold;
      ghost var p := |all| - |rest|;
      assert all[p..] == rest;
      assert rest[..BLOCK] == all[p..p + BLOCK];
      assert all[p + BLOCK..] == all[p..][BLOCK..];
      FoldNext(Compress, IV, all, p);
      CF(rest[..BLOCK]);
      rest' := rest[BLOCK..];
    }

    /** Completes the buffered block from the chunk and folds it in. */
    method TakeFill(left: nat, rest: seq<byte>, ghost all: seq<byte>) returns (rest': seq<byte>)
      requires Reached(all, left, rest) && left + |rest| >= BLOCK
      modifies this`vector, buffer
      ensures rest' == rest[BLOCK - left..] && Reached(all, 0, rest')
    {
      hide Compress, Fold;
      var fill := BLOCK - left;
      ghost var p := |all| - |rest| - left;
      ghost var held := buffer[..left];
      Fill(left, rest[..fill]);
      rest' := rest[fill..];
      assert all[p..] == (held + rest[..fill]) + rest';
      assert buffer[..] == held + rest[..fill];
      assert all[p..p + BLOCK] == all[p..][..BLOCK] == buffer[..];
      assert all[p + BLOCK..] == all[p..][BLOCK..] == rest';
      FoldNext(Compress, IV, all, p);
      CF(buffer[..]);
    }

    /** Stores what is left of the chunk. */
    method TakeTail(left: nat, rest: seq<byte>, ghost all: seq<byte>)
      requires Reached(all, left, rest) && left + |rest| < BLOCK && Counts(high, low, |all|)
      modifies buffer
      ensures Holds(all)
    {
      hide Compress, Fold;
      ghost var p := |all| - |rest| - left;
      ghost var held := buffer[..left];
      WholeUnique(|all|, p);
      if |rest| > 0 {
        Fill(left, rest);
        assert buffer[..left + |rest|] == held + rest;
      } else {
        assert held + rest == held;
      }
    }

    /** Advances the byte counter; `left` is how full the buffer was. */
    method Count(chunk: seq<byte>, ghost m: seq<byte>) returns (left: nat)
      requires Holds(m) && |chunk| < TWO32 && |m| + |chunk| < TWO64
      modifies this`high, this`low
      ensures Reached(m + chunk, left, chunk) && Counts(high, low, |m + chunk|)
    {
      hide Compress, Fold;
      ghost var all := m + chunk;
      LowBits(high, low, |m|);
      left := low % 64;
      assert all[..Whole(|m|)] == m[..Whole(|m|)];
      assert all[Whole(|m|)..] == m[Whole(|m|)..] + chunk;
      CounterAdd(high, low, |m|, |chunk|);
      low := (low + |chunk|) % TWO32;
      if low < |chunk| {
        high := (high + 1) % TWO32;
      }
    }

    /** `sm3_update`; an empty chunk is refused. */
    method Update(chunk: seq<byte>, ghost m: seq<byte>) returns (ok: bool)
      requires Holds(m) && |chunk| < TWO32 && |m| + |chunk| < TWO64
      modifies this`high, this`low, this`vector, buffer
      ensures ok == (chunk != []) && Holds(m + chunk)
    {
      hide Compress, Fold;
      if |chunk| < 1 {
        assert m + chunk == m;
        return false;
      }
      ghost var all := m + chunk;
      var left := Count(chunk, m);
      var rest := chunk;
      hide *;
      if left > 0 && |rest| >= 64 - left {
        rest := TakeFill(left, rest, all);
        left := 0;
      }
      while |rest| >= 64
        modifies this`vector
        invariant Reached(all, left, rest) && Counts(high, low, |all|) && left < BLOCK
        invariant left > 0 ==> left + |rest| < BLOCK
      {
        rest := TakeBlock(rest, all);
      }
      TakeTail(left, rest, all);
      ok := true;
    }

    /** Copies `src` into the buffer at `at`. */
    method Fill(at: nat, src: seq<byte>)
      requires buffer.Length == BLOCK && at + |src| <= BLOCK
      modifies buffer
      ensures buffer[..] == old(buffer[..])[..at] + src + old(buffer[..])[at + |src|..]
    {
      ghost var before := buffer[..];
      var i := 0;
      while i < |src|
        invariant 0 <= i <= |src|
        invariant forall k :: 0 <= k < BLOCK ==>
                    buffer[k] == if at <= k < at + i then src[k - at] else before[k]
      {
        buffer[at + i] := src[i];
        i := i + 1;
      }
    }

    /** `sm3_finish`. */
    method Finish(ghost m: seq<byte>) returns (output: seq<byte>)
      requires Holds(m) && |m| < TWO61
      modifies this`high, this`low, this`vector, buffer
      ensures output == Hash(m)
    {
      hide Compress, Fold, BigEndian, LengthField, Output;
      LowBits(high, low, |m|);
      var msglen := LengthField(high, low);
      LengthFieldExact(high, low, |m|);
      var last := low % 64;
      var padn := if last < 56 then 56 - last else 120 - last;
      assert PADDING[..padn] == [0x80] + Zeros(padn - 1);
      var ok := Update(PADDING[..padn], m);
      ok := Update(msglen, m + PADDING[..padn]);
      ghost var all := m + PADDING[..padn] + msglen;
      assert padn - 1 == ZeroCount(|m|);
      assert all == Padded(m);
      WholeUnique(|all|, |all|);
      assert all[..|all|] == all;
      output := Output(vector);
    }
  }

  /** The macro `rol`, for any count the rounds use. */
  function RolCode(x: Word, n: nat): Word { Shifts(x, n % 32, (32 - n) % 32) }

  lemma NoShift(x: Word)
    ensures Shifts(x, 0, 0) == x
  {
    assert Shifts(x, 0, 0) == (x << 0) | (x >> 0);
  }

  /** The macro rotates by the count modulo 32, also where the standard writes 32 and more. */
  lemma RolMacro(x: Word, n: nat)
    ensures RolCode(x, n) == Rol(x, n % 32)
  {
    hide Shifts;
    if n % 32 == 0 {
      assert (32 - n) % 32 == 0;
      NoShift(x);
    } else {
      assert (32 - n) % 32 == 32 - n % 32;
    }
  }

  method ExpandWords(b: seq<byte>) returns (w: seq<Word>)
    requires |b| == BLOCK
    ensures |w| == 68 && forall i :: 0 <= i < 68 ==> w[i] == W(b, i)
  {
    hide P1, Rol, WordAt, Xor3;
    w := [];
    while |w| < 16
      invariant |w| <= 16 && forall i :: 0 <= i < |w| ==> w[i] == W(b, i)
    {
      w := w + [WordAt(b, 4 * |w|)];
    }
    while |w| < 68
      invariant 16 <= |w| <= 68 && forall i :: 0 <= i < |w| ==> w[i] == W(b, i)
    {
      var j := |w|;
      var temp := Xor3(w[j - 16], w[j - 9], Rol(w[j - 3], 15));
      var next := Xor3(P1(temp), Rol(w[j - 13], 7), w[j - 6]);
      assert next == W(b, j);
      w := w + [next];
    }
  }

  /** The body of the first round loop. */
  method EarlyRound(r: Regs, j: nat, w: Word, w4: Word) returns (r': Regs)
    requires j < 16
    ensures r' == Round(r, j, w, Xor(w, w4))
  {
    hide P0, Rol, Add, Add4, Xor, Xor3;
    var Regs(a, b, c, d, e, f, g, h) := r;
    var ss1 := Rol(Add(Add(Rol(a, 12), e), Rol(0x79cc4519, j)), 7);
    var ss2 := Xor(ss1, Rol(a, 12));
    var tt1 := Add4(Xor3(a, b, c), d, ss2, Xor(w, w4));
    var tt2 := Add4(Xor3(e, f, g), h, ss1, w);
    d := c;
    c := Rol(b, 9);
    b := a;
    a := tt1;
    h := g;
    g := Rol(f, 19);
    f := e;
    e := P0(tt2);
    return Regs(a, b, c, d, e, f, g, h);
  }

  /** The body of the second round loop. */
  method LateRound(r: Regs, j: nat, w: Word, w4: Word) returns (r': Regs)
    requires 16 <= j < 64
    ensures r' == Round(r, j, w, Xor(w, w4))
  {
    hide P0, Rol, RolCode, Add, Add4, Xor, Xor3, Majority, Choose;
    RolMacro(0x7a879d8a, j);
    var Regs(a, b, c, d, e, f, g, h) := r;
    var ss1 := Rol(Add(Add(Rol(a, 12), e), RolCode(0x7a879d8a, j)), 7);
    var ss2 := Xor(ss1, Rol(a, 12));
    var tt1 := Add4(Majority(a, b, c), d, ss2, Xor(w, w4));
    var tt2 := Add4(Choose(e, f, g), h, ss1, w);
    d := c;
    c := Rol(b, 9);
    b := a;
    a := tt1;
    h := g;
    g := Rol(f, 19);
    f := e;
    e := P0(tt2);
    return Regs(a, b, c, d, e, f, g, h);
  }

  /** The low counter word tells how full the buffer is. */
  lemma LowBits(high: nat, low: nat, n: nat)
    requires Counts(high, low, n)
    ensures low % 64 == n % 64 && n - Whole(n) == low % 64
  {
    var q := high * 0x400_0000 + low / 64;
    assert low == low / 64 * 64 + low % 64;
    assert n == q * 64 + low % 64;
    WholeUnique(n, q * 64);
  }

  /** Chunk independence: any way of feeding a message gives its hash. */
  method HashChunks(chunks: seq<seq<byte>>) returns (output: seq<byte>)
    requires forall i :: 0 <= i < |chunks| ==> |chunks[i]| < TWO32
    requires |Concat(chunks)| < TWO61
    ensures output == Hash(Concat(chunks))
  {
    var ctx := new Context();
    ghost var m: seq<byte> := [];
    var i := 0;
    while i < |chunks|
      invariant 0 <= i <= |chunks| && ctx.Holds(m) && m == Concat(chunks[..i]) && fresh(ctx.buffer)
    {
      assert chunks[..i + 1][..i] == chunks[..i];
      ConcatPrefix(chunks, i + 1);
      var ok := ctx.Update(chunks[i], m);
      m := m + chunks[i];
      i := i + 1;
    }
    assert chunks[..i] == chunks;
    output := ctx.Finish(m);
  }
}
