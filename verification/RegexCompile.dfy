/**
  The two-pass compiler: `reg`, `regbranch`, `regpiece`, `regatom` and the emitting primitives.

  The same methods run twice: first with code generation off, only counting bytes in `regsize`, then for
  real into a buffer of exactly that size.  Each method is proved to accept what the grammar accepts, to
  leave the scan pointer and the group counter where the grammar does, to compute the flags of the tree,
  and either to count the size of its code or to emit exactly that code.
*/
module RegexCompile {
  import opened Bytes
  import opened RegexSyntax
  import opened RegexCode
  import opened RegexEmit

  /** The flags passed up: HASWIDTH, SIMPLE, SPSTART. */
  datatype Flags = Flags(hasWidth: bool, simple: bool, spStart: bool)

  const WORST := Flags(false, false, false)

  ghost predicate FlagsOf(f: Flags, r: Re) {
    f.hasWidth == HasWidth(r) && f.spStart == SpStart(r)
  }

  /** Bytes `reg` produces for its tree: the closing node of a group is part of the group. */
  function RegSize(r: Re, paren: bool): nat {
    if paren then Size(r) else AltsSize(r) + 3
  }

  /** What `reg` emits at top level. */
  ghost predicate EmittedTop(c0: seq<byte>, at: nat, c: seq<byte>, end: nat, r: Re) {
    var e := at + AltsSize(r);
    && |c| == |c0| && at > 0 && end == e + 3 && end <= |c|
    && Same(c0, 0, c, 0, at) && Alts(c, at, r, e, e, e) && Node(c, e, END, 0)
  }

  // ----- Sizes grow while parsing -----

  lemma {:induction false} PiecesGrow(pat: seq<byte>, i: nat, npar: nat, acc: Re)
    requires i <= |pat|
    ensures var p := ParsePieces(pat, i, npar, acc);
            p.Ok? && acc != Empty ==> Size(p.re) >= Size(acc) && p.re != Empty
    decreases |pat| - i
  {
    if !EndsBranch(At(pat, i)) {
      var x := ParsePiece(pat, i, npar);
      if x.Ok? {
        var acc' := if acc == Empty then x.re else Cat(acc, x.re);
        if acc != Empty { PiecesGrow(pat, x.pos, x.npar, acc'); }
      }
    }
  }

  lemma {:induction false} MoreGrows(pat: seq<byte>, i: nat, npar: nat, acc: Re)
    requires i <= |pat|
    ensures var p := ParseMore(pat, i, npar, acc);
            p.Ok? ==> AltsSize(p.re) >= AltsSize(acc)
    decreases |pat| - i
  {
    if At(pat, i) == BAR {
      var b := ParseBranch(pat, i + 1, npar);
      if b.Ok? { MoreGrows(pat, b.pos, b.npar, Alt(acc, b.re)); }
    }
  }

  lemma EmittedBounds(c0: seq<byte>, at: nat, c: seq<byte>, end: nat, r: Re)
    requires Emitted(c0, at, c, end, r)
    ensures 0 < at <= end <= |c| == |c0| && end == at + Size(r)
  {
  }

  class Compiler {
    const pat: seq<byte>
    var regparse: nat
    var regnpar: nat
    var emitting: bool         // false: regcode is the dummy, only count
    var regcode: nat
    var regsize: nat
    var program: array<byte>

    constructor (pat: seq<byte>)
      ensures this.pat == pat && regparse == 0 && regnpar == 1 && !emitting && regsize == 0 && fresh(program)
    {
      this.pat := pat;
      regparse, regnpar, emitting, regcode, regsize := 0, 1, false, 0, 0;
      program := new byte[0];
    }

    ghost predicate Valid()
      reads this
    {
      && NulFree(pat) && regparse <= |pat| && 1 <= regnpar
      && (emitting ==> 1 <= regcode <= program.Length < 32767)
    }

    /** Room for `n` more bytes, when emitting. */
    ghost predicate Room(n: nat)
      reads this
    {
      emitting ==> regcode + n <= program.Length
    }

    // ----- Primitives -----

    method RegNode(op: byte) returns (ret: nat)
      requires Room(3)
      modifies this`regcode, this`regsize, program
      ensures ret == old(regcode)
      ensures emitting ==>
                && regcode == old(regcode) + 3 && regsize == old(regsize)
                && program[..] == Put(old(program[..]), old(regcode), FreshNode(op))
      ensures !emitting ==>
                regcode == old(regcode) && regsize == old(regsize) + 3 && program[..] == old(program[..])
    {
      ret := regcode;
      if !emitting {
        regsize := regsize + 3;
        return;
      }
      program[ret], program[ret + 1], program[ret + 2] := op, 0, 0;
      regcode := ret + 3;
      assert program[..] == Put(old(program[..]), old(regcode), FreshNode(op));
    }

    method RegC(b: byte)
      requires Room(1)
      modifies this`regcode, this`regsize, program
      ensures emitting ==>
                && regcode == old(regcode) + 1 && regsize == old(regsize)
                && program[..] == Put(old(program[..]), old(regcode), [b])
      ensures !emitting ==>
                regcode == old(regcode) && regsize == old(regsize) + 1 && program[..] == old(program[..])
    {
      if emitting {
        program[regcode] := b;
        regcode := regcode + 1;
        assert program[..] == Put(old(program[..]), old(regcode), [b]);
      } else {
        regsize := regsize + 1;
      }
    }

    /** Shifts the operand up in place, last byte first. */
    method RegInsert(op: byte, opnd: nat)
      requires Room(3) && (emitting ==> opnd <= regcode)
      modifies this`regcode, this`regsize, program
      ensures emitting ==>
                && regcode == old(regcode) + 3 && regsize == old(regsize)
                && program[..] == Insert(old(program[..]), old(regcode), opnd, op)
      ensures !emitting ==>
                regcode == old(regcode) && regsize == old(regsize) + 3 && program[..] == old(program[..])
    {
      if !emitting {
        regsize := regsize + 3;
        return;
      }
      ghost var c := program[..];
      var src := regcode;
      regcode := regcode + 3;
      var dst := regcode;
      while src > opnd
        modifies program
        invariant opnd <= src && dst == src + 3 <= regcode <= program.Length
        invariant forall k :: 0 <= k < dst ==> program[k] == c[k]
        invariant forall k :: regcode <= k < |c| ==> program[k] == c[k]
        invariant forall k :: dst <= k < regcode ==> program[k] == c[k - 3]
      {
        dst, src := dst - 1, src - 1;
        program[dst] := program[src];
      }
      program[opnd], program[opnd + 1], program[opnd + 2] := op, 0, 0;
      assert program[..] == Insert(c, old(regcode), opnd, op);
    }

    /** Walks the chain from `p` to its last node `e` and aims that node at `val`. */
    method RegTail(p: nat, val: nat, ghost e: nat)
      requires emitting ==> Chain(program[..], p, e) && Next(program[..], e) == 0
      modifies program
      ensures emitting ==> e + 3 <= program.Length && program[..] == Patch(old(program[..]), e, val)
      ensures !emitting ==> program[..] == old(program[..])
    {
      if !emitting { return; }
      ghost var c := program[..];
      var scan: nat := p;
      var temp := Next(program[..], scan);
      while temp != 0
        invariant Chain(c, scan, e) && temp == Next(c, scan) && program[..] == c
        decreases e - scan
      {
        scan := temp;
        temp := Next(program[..], scan);
      }
      assert scan == e;
      var offset := if program[scan] == BACK then scan - val else val - scan;
      program[scan + 1] := (offset / 256) % 256;
      program[scan + 2] := offset % 256;
      assert program[..] == Patch(c, e, val);
    }

    method RegOpTail(p: nat, val: nat, ghost e: nat)
      requires emitting ==> p + 3 <= program.Length
      requires emitting && program[p] == BRANCH ==> Chain(program[..], p + 3, e) && Next(program[..], e) == 0
      modifies program
      ensures emitting && old(program[..])[p] == BRANCH ==>
                e + 3 <= program.Length && program[..] == Patch(old(program[..]), e, val)
      ensures !emitting || old(program[..])[p] != BRANCH ==> program[..] == old(program[..])
    {
      if !emitting || program[p] != BRANCH { return; }
      RegTail(p + 3, val, e);
    }

    // ----- Atoms -----

    /** What a call that parsed `p` leaves behind: counted in the first pass, emitted in the second. */
    ghost predicate Produced(p: Parsed, size0: nat, code0: nat, c0: seq<byte>)
      requires p.Ok?
      reads this, program
    {
      && regparse == p.pos && regnpar == p.npar
      && (emitting ==> regsize == size0 && Emitted(c0, code0, program[..], regcode, p.re))
      && (!emitting ==> regsize == size0 + Size(p.re) && regcode == code0 && program[..] == c0)
    }

    /** `my_strcspn` against META, from the scan pointer. */
    method LiteralSpan() returns (n: nat)
      requires regparse <= |pat|
      ensures n == LiteralRun(pat, regparse)
    {
      n := 0;
      while regparse + n < |pat| && !IsMeta(pat[regparse + n])
        invariant regparse + n <= |pat| && n + LiteralRun(pat, regparse + n) == LiteralRun(pat, regparse)
        decreases |pat| - regparse - n
      {
        n := n + 1;
      }
    }

    /** A backslashed character or a run of ordinary ones: `n` bytes from the scan pointer on. */
    method RegExactly(n: nat) returns (ret: nat)
      requires Valid() && n > 0 && regparse + n <= |pat| && Room(4 + n)
      modifies this`regparse, this`regcode, this`regsize, program
      ensures ret == old(regcode) && Valid()
      ensures Produced(Ok(Exactly(pat[old(regparse)..old(regparse) + n]), old(regparse) + n, regnpar),
                       old(regsize), old(regcode), old(program[..]))
    {
      hide Typing, Emitted, Put;
      ghost var i0, c0, at, s0 := regparse, program[..], regcode, regsize;
      ret := RegNode(EXACTLY);
      if emitting { StartTyping(c0, at, EXACTLY); }
      var len := n;
      assert pat[i0..i0] == [];
      while len > 0
        invariant 0 <= len <= n && regparse == i0 + n - len
        invariant Typed(c0, at, s0, EXACTLY, pat[i0..regparse])
      {
        TypingCode(c0, at, s0, EXACTLY, pat[i0..regparse]);
        RegChar(pat[regparse], c0, at, s0, EXACTLY, pat[i0..regparse]);
        assert pat[i0..regparse + 1] == pat[i0..regparse] + [pat[regparse]];
        regparse := regparse + 1;
        len := len - 1;
      }
      TypingCode(c0, at, s0, EXACTLY, pat[i0..i0 + n]);
      if emitting { FinishTyping(c0, at, program[..], regcode, EXACTLY, Exactly(pat[i0..i0 + n])); }
      RegC(0);
      if emitting { EmittedBounds(c0, at, program[..], regcode, Exactly(pat[i0..i0 + n])); }
    }

    /** An operand under construction in either pass. */
    ghost predicate Typed(c0: seq<byte>, at: nat, s0: nat, op: byte, acc: seq<byte>)
      reads this, program
    {
      && (emitting ==> regsize == s0 && Typing(c0, at, program[..], regcode, op, acc))
      && (!emitting ==> regcode == at && regsize == s0 + 3 + |acc| && program[..] == c0)
    }

    /** `regc` of one byte of a bracket expression. */
    method RegChar(b: byte, ghost c0: seq<byte>, ghost at: nat, ghost s0: nat, ghost op: byte, ghost acc: seq<byte>)
      requires Typed(c0, at, s0, op, acc) && Room(1)
      modifies this`regcode, this`regsize, program
      ensures Typed(c0, at, s0, op, acc + [b])
    {
      hide Typing;
      if emitting { TypeByte(c0, at, program[..], regcode, op, acc, b); }
      RegC(b);
    }

    /** The bytes of a range `lo-hi` after `lo`, which is listed already. */
    method RegRange(lo: byte, hi: byte, ghost c0: seq<byte>, ghost at: nat, ghost s0: nat, ghost op: byte, ghost acc: seq<byte>)
      requires Typed(c0, at, s0, op, acc) && Room(|After(lo, hi)|) && lo <= hi
      modifies this`regcode, this`regsize, program
      ensures Typed(c0, at, s0, op, acc + After(lo, hi))
    {
      hide Typing;
      var cls: int := lo as int + 1;
      ghost var done: seq<byte> := [];
      assert acc + done == acc;
      while cls <= hi
        invariant lo < cls <= hi + 1
        invariant done + After(cls - 1, hi) == After(lo, hi)
        invariant Typed(c0, at, s0, op, acc + done) && Room(|After(cls - 1, hi)|)
        decreases hi + 1 - cls
      {
        ghost var now := done + [cls];
        assert After(cls - 1, hi) == [cls] + After(cls, hi);
        assert now + After(cls, hi) == done + After(cls - 1, hi);
        assert acc + done + [cls] == acc + now;
        TypingCode(c0, at, s0, op, acc + done);
        RegChar(cls, c0, at, s0, op, acc + done);
        TypingCode(c0, at, s0, op, acc + now);
        done := now;
        cls := cls + 1;
      }
      assert done == After(lo, hi);
    }

    /** What is left of a bracket expression when `acc` has been listed. */
    ghost function SetFrom(i: nat, negated: bool, acc: seq<byte>): Parsed
      requires 0 < i <= |pat|
      reads this
    {
      match ParseClass(pat, i, acc)
      case BadClass => Bad
      case ClassOk(chars, pos) => Ok(Set(negated, chars), pos, regnpar)
    }

    /** If the whole expression fits the buffer, so does one that lists `acc` so far. */
    lemma SetRoom(i: nat, negated: bool, acc: seq<byte>)
      requires 0 < i <= |pat| && SetFrom(i, negated, acc).Ok?
      ensures |acc| + 4 <= Size(SetFrom(i, negated, acc).re)
    {
    }

    /** One character or range of a bracket expression. */
    method RegSetItem(ghost c0: seq<byte>, ghost at: nat, ghost s0: nat, ghost op: byte, ghost negated: bool, ghost acc: seq<byte>)
      returns (ok: bool, ghost acc': seq<byte>)
      requires NulFree(pat) && 0 < regparse < |pat| && pat[regparse] != RBRACKET
      requires Typed(c0, at, s0, op, acc)
      requires emitting ==> SetFrom(regparse, negated, acc).Ok?
                            && at + Size(SetFrom(regparse, negated, acc).re) <= program.Length
      modifies this`regparse, this`regcode, this`regsize, program
      ensures !ok ==> SetFrom(old(regparse), negated, acc).Bad?
      ensures ok ==> old(regparse) < regparse <= |pat| && Typed(c0, at, s0, op, acc')
                     && SetFrom(regparse, negated, acc') == SetFrom(old(regparse), negated, acc)
    {
      hide Typing, ParseClass;
      ClassStep(regparse, negated, acc);
      TypingCode(c0, at, s0, op, acc);
      if pat[regparse] == DASH {
        regparse := regparse + 1;
        if At(pat, regparse) == RBRACKET || At(pat, regparse) == 0 {
          acc' := acc + [DASH];
          if emitting { SetRoom(regparse, negated, acc'); }
          RegChar(DASH, c0, at, s0, op, acc);
        } else {
          var lo, hi := pat[regparse - 2], pat[regparse];
          if lo as int + 1 > hi as int + 1 {
            return false, acc;
          }
          acc' := acc + After(lo, hi);
          if emitting { SetRoom(regparse + 1, negated, acc'); }
          RegRange(lo, hi, c0, at, s0, op, acc);
          regparse := regparse + 1;
        }
      } else {
        acc' := acc + [pat[regparse]];
        if emitting { SetRoom(regparse + 1, negated, acc'); }
        RegChar(pat[regparse], c0, at, s0, op, acc);
        regparse := regparse + 1;
      }
      ok := true;
    }

    /** The start of a bracket expression: `^`, and a leading `]` or `-` taken literally. */
    method RegSetHead() returns (ret: nat, negated: bool, ghost acc: seq<byte>)
      requires Valid() && 0 < regparse
      requires emitting ==> ParseSet(pat, regparse, regnpar).Ok? && Room(Size(ParseSet(pat, regparse, regnpar).re))
      modifies this`regparse, this`regcode, this`regsize, program
      ensures ret == old(regcode) && 0 < regparse <= |pat|
      ensures Typed(old(program[..]), old(regcode), old(regsize), if negated then ANYBUT else ANYOF, acc)
      ensures SetFrom(regparse, negated, acc) == ParseSet(pat, old(regparse), regnpar)
    {
      hide Typing, ParseClass, Put, ParseSet;
      ghost var c0, at, s0 := program[..], regcode, regsize;
      ghost var p := ParseSet(pat, regparse, regnpar);
      SetHead(regparse);
      negated := At(pat, regparse) == CARET;
      var op := if negated then ANYBUT else ANYOF;
      ret := RegNode(op);
      if emitting { StartTyping(c0, at, op); }
      if negated { regparse := regparse + 1; }
      acc := [];
      if At(pat, regparse) == RBRACKET || At(pat, regparse) == DASH {
        assert acc + [pat[regparse]] == [pat[regparse]];
        if emitting { SetRoom(regparse + 1, negated, acc + [pat[regparse]]); }
        TypingCode(c0, at, s0, op, acc);
        RegChar(pat[regparse], c0, at, s0, op, acc);
        acc := acc + [pat[regparse]];
        regparse := regparse + 1;
      }
    }

    /** How the grammar reads the start of a bracket expression. */
    lemma SetHead(i: nat)
      requires 0 < i <= |pat|
      ensures var j := if At(pat, i) == CARET then i + 1 else i;
              if At(pat, j) == RBRACKET || At(pat, j) == DASH
              then j < |pat| && ParseSet(pat, i, regnpar) == SetFrom(j + 1, At(pat, i) == CARET, [pat[j]])
              else j <= |pat| && ParseSet(pat, i, regnpar) == SetFrom(j, At(pat, i) == CARET, [])
    {
      hide ParseClass;
      var j := if At(pat, i) == CARET then i + 1 else i;
      if At(pat, j) == RBRACKET || At(pat, j) == DASH {
        assert pat[j..j + 1] == [pat[j]];
      } else {
        assert pat[j..j] == [];
      }
    }

    /** A bracket expression; the scan pointer is just after `[`. */
    method RegSet() returns (ok: bool, ret: nat)
      requires Valid() && 0 < regparse
      requires emitting ==> ParseSet(pat, regparse, regnpar).Ok? && Room(Size(ParseSet(pat, regparse, regnpar).re))
      modifies this`regparse, this`regcode, this`regsize, program
      ensures ok == ParseSet(pat, old(regparse), regnpar).Ok?
      ensures ok ==> ret == old(regcode) && Valid()
      ensures ok ==> Produced(ParseSet(pat, old(regparse), regnpar), old(regsize), old(regcode), old(program[..]))
    {
      hide Typing, Emitted, ParseClass, Put, ParseSet;
      ghost var c0, at, s0 := program[..], regcode, regsize;
      ghost var p := ParseSet(pat, regparse, regnpar);
      var negated;
      ghost var acc;
      ret, negated, acc := RegSetHead();
      ghost var op := if negated then ANYBUT else ANYOF;
      while regparse < |pat| && pat[regparse] != RBRACKET
        invariant 0 < regparse <= |pat| && Typed(c0, at, s0, op, acc) && p == SetFrom(regparse, negated, acc)
        decreases |pat| - regparse
      {
        ok, acc := RegSetItem(c0, at, s0, op, negated, acc);
        if !ok { return false, ret; }
      }
      ClassEnd(regparse, negated, acc);
      TypingCode(c0, at, s0, op, acc);
      if emitting { FinishTyping(c0, at, program[..], regcode, op, Set(negated, acc)); }
      RegC(0);
      if At(pat, regparse) != RBRACKET {
        return false, ret;
      }
      regparse := regparse + 1;
      if emitting { EmittedBounds(c0, at, program[..], regcode, Set(negated, acc)); }
      ok := true;
    }

    lemma TypingCode(c0: seq<byte>, at: nat, s0: nat, op: byte, acc: seq<byte>)
      requires Typed(c0, at, s0, op, acc)
      ensures emitting ==> regcode == at + 3 + |acc|
    {
    }

    /** One step of the class loop is one step of the grammar. */
    lemma ClassStep(i: nat, negated: bool, acc: seq<byte>)
      requires NulFree(pat) && 0 < i < |pat| && pat[i] != RBRACKET
      ensures SetFrom(i, negated, acc) ==
              if pat[i] != DASH then SetFrom(i + 1, negated, acc + [pat[i]])
              else if At(pat, i + 1) == RBRACKET || At(pat, i + 1) == 0 then SetFrom(i + 1, negated, acc + [DASH])
              else if pat[i - 1] > pat[i + 1] then Bad
              else SetFrom(i + 2, negated, acc + After(pat[i - 1], pat[i + 1]))
    {
    }

    lemma ClassEnd(i: nat, negated: bool, acc: seq<byte>)
      requires NulFree(pat) && 0 < i <= |pat| && (i < |pat| ==> pat[i] == RBRACKET)
      ensures SetFrom(i, negated, acc) == if i < |pat| then Ok(Set(negated, acc), i + 1, regnpar) else Bad
    {
    }

    // ----- Repetition operators -----

    /** The state before and after an operator is applied to the atom emitted at `ret`. */
    ghost predicate Holds(size: nat, code: nat, ret: nat, c0: seq<byte>, c: seq<byte>, r: Re)
      reads this, program
    {
      && (emitting ==> regsize == size && Emitted(c0, ret, program[..], regcode, r))
      && (!emitting ==> regsize == size + Size(r) && regcode == code && program[..] == c)
    }

    /** `*` or `+` on a one-byte atom. */
    method ApplySimple(star: bool, ret: nat, ghost a: Re, ghost size: nat, ghost code: nat, ghost c0: seq<byte>, ghost c: seq<byte>)
      requires Holds(size, code, ret, c0, c, a) && Room(3) && IsSimple(a)
      modifies this`regcode, this`regsize, program
      ensures Holds(size, code, ret, c0, c, if star then Star(a) else Plus(a))
    {
      hide Insert;
      if emitting { BuildSimple(c0, program[..], ret, a, star); }
      RegInsert(if star then STAR else PLUS, ret);
    }

    /** `*` in general. */
    method ApplyStar(ret: nat, ghost a: Re, ghost size: nat, ghost code: nat, ghost c0: seq<byte>, ghost c: seq<byte>)
      requires Holds(size, code, ret, c0, c, a) && Room(12) && !IsSimple(a) && (emitting ==> program.Length < 32767)
      modifies this`regcode, this`regsize, program
      ensures Holds(size, code, ret, c0, c, Star(a))
    {
      hide Insert, Put, Patch, Code, Same, Last, Chain, Size, StarCode, Next, IsSimple;
      LoopSizes(a);
      ghost var back, e, d, d8 := ret + 3 + Size(a), Last(ret + 3, a), program[..], program[..];
      if emitting {
        LastInside(ret + 3, a);
        ghost var d1 := Insert(d, ret + Size(a), ret, BRANCH);
        ghost var d2 := Put(d1, back, FreshNode(BACK));
        ghost var d3 := Patch(d2, e, back);
        ghost var d4 := Patch(d3, back, ret);
        ghost var d5 := Put(d4, back + 3, FreshNode(BRANCH));
        ghost var d6 := Patch(d5, ret, back + 3);
        ghost var d7 := Put(d6, back + 6, FreshNode(NOTHING));
        d8 := Patch(d7, back + 3, back + 6);
        StarFirstHalf(d, ret, a, d1, d2, d3, d4);
        StarSecondHalf(d, ret, a, d4, d5, d6, d7, d8);
      }
      RegInsert(BRANCH, ret);
      var x := RegNode(BACK);
      RegOpTail(ret, x, e);
      RegOpTail(ret, ret, back);
      x := RegNode(BRANCH);
      RegTail(ret, x, ret);
      x := RegNode(NOTHING);
      RegTail(ret, x, back + 3);
      if emitting {
        assert program[..] == d8;
        FinishLoop(c0, d, d8, ret, Star(a));
      }
    }

    /** `+` in general. */
    method ApplyPlus(ret: nat, ghost a: Re, ghost size: nat, ghost code: nat, ghost c0: seq<byte>, ghost c: seq<byte>)
      requires Holds(size, code, ret, c0, c, a) && Room(12) && !IsSimple(a) && (emitting ==> program.Length < 32767)
      modifies this`regcode, this`regsize, program
      ensures Holds(size, code, ret, c0, c, Plus(a))
    {
      hide Put, Patch, Code, Same, Last, Chain, Size, PlusCode, Next, IsSimple;
      LoopSizes(a);
      ghost var again, e, d, d8 := ret + Size(a), Last(ret, a), program[..], program[..];
      if emitting {
        LastInside(ret, a);
        ghost var d1 := Put(d, again, FreshNode(BRANCH));
        ghost var d2 := Patch(d1, e, again);
        ghost var d3 := Put(d2, again + 3, FreshNode(BACK));
        ghost var d4 := Patch(d3, again + 3, ret);
        ghost var d5 := Put(d4, again + 6, FreshNode(BRANCH));
        ghost var d6 := Patch(d5, again, again + 6);
        ghost var d7 := Put(d6, again + 9, FreshNode(NOTHING));
        d8 := Patch(d7, again + 6, again + 9);
        PlusFirstHalf(d, ret, a, d1, d2, d3, d4);
        PlusSecondHalf(d, ret, a, d4, d5, d6, d7, d8);
      }
      var next := RegNode(BRANCH);
      RegTail(ret, next, e);
      var x := RegNode(BACK);
      RegTail(x, ret, x);
      x := RegNode(BRANCH);
      RegTail(next, x, next);
      x := RegNode(NOTHING);
      RegTail(ret, x, again + 6);
      if emitting {
        assert program[..] == d8;
        FinishLoop(c0, d, d8, ret, Plus(a));
      }
    }

    /** `?`. */
    method ApplyOpt(ret: nat, ghost a: Re, ghost size: nat, ghost code: nat, ghost c0: seq<byte>, ghost c: seq<byte>)
      requires Holds(size, code, ret, c0, c, a) && Room(9) && (emitting ==> program.Length < 32767)
      modifies this`regcode, this`regsize, program
      ensures Holds(size, code, ret, c0, c, Opt(a))
    {
      hide Insert, Put, Patch, Code, Same, Last, Chain, Size, OptCode, Next;
      LoopSizes(a);
      ghost var none, e, d, d6 := ret + 3 + Size(a), Last(ret + 3, a), program[..], program[..];
      if emitting {
        LastInside(ret + 3, a);
        ghost var d1 := Insert(d, ret + Size(a), ret, BRANCH);
        ghost var d2 := Put(d1, none, FreshNode(BRANCH));
        ghost var d3 := Patch(d2, ret, none);
        ghost var d4 := Put(d3, none + 3, FreshNode(NOTHING));
        ghost var d5 := Patch(d4, none, none + 3);
        d6 := Patch(d5, e, none + 3);
        OptSteps(d, ret, a, d1, d2, d3, d4, d5, d6);
      }
      RegInsert(BRANCH, ret);
      var x := RegNode(BRANCH);
      RegTail(ret, x, ret);
      var next := RegNode(NOTHING);
      RegTail(ret, next, none);
      RegOpTail(ret, next, e);
      if emitting {
        assert program[..] == d6;
        FinishLoop(c0, d, d6, ret, Opt(a));
      }
    }

    // ----- The recursive descent -----

    method RegAtom() returns (ok: bool, ret: nat, f: Flags)
      requires Valid()
      requires emitting ==> ParseAtom(pat, regparse, regnpar).Ok? && Room(Size(ParseAtom(pat, regparse, regnpar).re))
      modifies this`regparse, this`regnpar, this`regcode, this`regsize, program
      ensures ok == ParseAtom(pat, old(regparse), old(regnpar)).Ok?
      ensures ok ==>
                var p := ParseAtom(pat, old(regparse), old(regnpar));
                && ret == old(regcode) && Valid() && FlagsOf(f, p.re) && f.simple == IsSimple(p.re)
                && Produced(p, old(regsize), old(regcode), old(program[..]))
      decreases |pat| - regparse, 0
    {
      hide ParseReg, ParseSet, ParseClass, LiteralLength, Emitted, Put, Code;
      ghost var c0, at := program[..], regcode;
      var b := At(pat, regparse);
      f := WORST;
      ok, ret := true, regcode;
      if b == CARET {
        ret := RegLeaf(BOL, Bol);
      } else if b == DOLLAR {
        ret := RegLeaf(EOL, Eol);
      } else if b == DOT {
        ret := RegLeaf(ANY, Any);
        f := Flags(true, true, false);
      } else if b == LBRACKET {
        regparse := regparse + 1;
        ok, ret := RegSet();
        f := Flags(true, true, false);
      } else if b == LPAREN {
        regparse := regparse + 1;
        ok, ret, f := Reg(true);
        f := f.(simple := false);
      } else if EndsBranch(b) || IsMult(b) {
        ok := false;
      } else if b == BACKSLASH {
        ok, ret := RegEscape();
        f := Flags(true, true, false);
      } else {
        var len;
        ret, len := RegLiteral();
        f := Flags(true, len == 1, false);
      }
    }

    /** A backslash takes the next character literally. */
    method RegEscape() returns (ok: bool, ret: nat)
      requires Valid() && At(pat, regparse) == BACKSLASH
      requires emitting && regparse + 1 < |pat| ==> Room(5)
      modifies this`regparse, this`regcode, this`regsize, program
      ensures ok == (old(regparse) + 1 < |pat|)
      ensures ok ==> ret == old(regcode) && Valid()
      ensures ok ==> Produced(Ok(Exactly([pat[old(regparse) + 1]]), old(regparse) + 2, regnpar),
                              old(regsize), old(regcode), old(program[..]))
    {
      hide Emitted;
      regparse := regparse + 1;
      ret := regcode;
      if At(pat, regparse) == 0 {
        return false, ret;
      }
      assert pat[regparse..regparse + 1] == [pat[regparse]];
      ret := RegExactly(1);
      ok := true;
    }

    /** A run of ordinary characters, clear of a following operator's operand. */
    method RegLiteral() returns (ret: nat, len: nat)
      requires Valid() && regparse < |pat| && !IsMeta(pat[regparse]) && Room(4 + LiteralLength(pat, regparse))
      modifies this`regparse, this`regcode, this`regsize, program
      ensures ret == old(regcode) && Valid() && len == LiteralLength(pat, old(regparse)) > 0
      ensures Produced(Ok(Exactly(pat[old(regparse)..old(regparse) + len]), old(regparse) + len, regnpar),
                       old(regsize), old(regcode), old(program[..]))
    {
      hide Emitted;
      len := LiteralSpan();
      LiteralStart(pat, regparse);
      if len > 1 && IsMult(At(pat, regparse + len)) {
        len := len - 1;
      }
      ret := RegExactly(len);
    }

    /** One operandless node for one pattern character. */
    method RegLeaf(op: byte, ghost r: Re) returns (ret: nat)
      requires Valid() && regparse < |pat| && Room(3) && op == LeafOp(r) && (r == Bol || r == Eol || r == Any)
      modifies this`regparse, this`regcode, this`regsize, program
      ensures ret == old(regcode) && Valid()
      ensures Produced(Ok(r, old(regparse) + 1, regnpar), old(regsize), old(regcode), old(program[..]))
    {
      hide Put;
      if emitting { EmitNode(program[..], regcode, r); }
      regparse := regparse + 1;
      ret := RegNode(op);
    }

    /** The code for `*`, `+` or `?` after its operand. */
    method ApplyOperator(op: byte, simple: bool, ret: nat, ghost a: Re, ghost s0: nat, ghost at: nat, ghost c0: seq<byte>)
      requires Holds(s0, at, ret, c0, c0, a) && IsMult(op) && simple == IsSimple(a)
      requires emitting ==> ret + Size(Operated(op, a)) <= program.Length < 32767
      modifies this`regcode, this`regsize, program
      ensures Holds(s0, at, ret, c0, c0, Operated(op, a))
    {
      hide Emitted;
      if emitting { EmittedBounds(c0, ret, program[..], regcode, a); }
      if op == ASTERISK && simple {
        ApplySimple(true, ret, a, s0, at, c0, c0);
      } else if op == ASTERISK {
        ApplyStar(ret, a, s0, at, c0, c0);
      } else if op == PLUS_SIGN && simple {
        ApplySimple(false, ret, a, s0, at, c0, c0);
      } else if op == PLUS_SIGN {
        ApplyPlus(ret, a, s0, at, c0, c0);
      } else {
        ApplyOpt(ret, a, s0, at, c0, c0);
      }
    }

    method RegPiece() returns (ok: bool, ret: nat, f: Flags)
      requires Valid()
      requires emitting ==> ParsePiece(pat, regparse, regnpar).Ok? && Room(Size(ParsePiece(pat, regparse, regnpar).re))
      modifies this`regparse, this`regnpar, this`regcode, this`regsize, program
      ensures ok == ParsePiece(pat, old(regparse), old(regnpar)).Ok?
      ensures ok ==>
                var p := ParsePiece(pat, old(regparse), old(regnpar));
                && ret == old(regcode) && Valid() && FlagsOf(f, p.re)
                && Produced(p, old(regsize), old(regcode), old(program[..]))
      decreases |pat| - regparse, 1
    {
      hide ParseAtom, Emitted, Size;
      ghost var c0, at, s0, i0, n0 := program[..], regcode, regsize, regparse, regnpar;
      ghost var p := ParseAtom(pat, regparse, regnpar);
      if p.Ok? { OperatedSize(At(pat, p.pos), p.re); }
      ok, ret, f := RegAtom();
      if !ok { return; }
      ghost var a := p.re;
      var op := At(pat, regparse);
      if !IsMult(op) {
        return;
      }
      if !f.hasWidth && op != QUESTION {
        ok := false;
        return;
      }
      if emitting { EmittedBounds(c0, at, program[..], regcode, a); }
      ApplyOperator(op, f.simple, ret, a, s0, at, c0);
      f := if op != PLUS_SIGN then Flags(false, false, true) else Flags(true, false, false);
      regparse := regparse + 1;
      ghost var r := Operated(op, a);
      if emitting { EmittedBounds(c0, at, program[..], regcode, r); }
      if IsMult(At(pat, regparse)) {
        ok := false;
      }
    }

    /** A branch with the pieces `acc` so far, the chain of the last of them starting at `chain`. */
    ghost predicate InBranch(ret: nat, chain: int, acc: Re, size0: nat, code0: nat, c0: seq<byte>)
      reads this, program
    {
      && chain >= -1 && (chain == -1 <==> acc == Empty)
      && (emitting ==>
            && regsize == size0
            && (acc == Empty ==>
                  ret + 3 <= |c0| && ret > 0 && regcode == ret + 3 && program[..] == Put(c0, ret, FreshNode(BRANCH)))
            && (acc != Empty ==>
                  && EmittedArm(c0, ret, program[..], regcode, acc)
                  && ret + 3 <= chain && Chain(program[..], chain, Last(ret + 3, acc))))
      && (!emitting ==>
            && regcode == code0 && program[..] == c0
            && regsize == size0 + 3 + (if acc == Empty then 0 else Size(acc)))
    }

    ghost predicate ProducedArm(p: Parsed, size0: nat, code0: nat, c0: seq<byte>)
      requires p.Ok?
      reads this, program
    {
      && regparse == p.pos && regnpar == p.npar
      && (emitting ==> regsize == size0 && EmittedArm(c0, code0, program[..], regcode, p.re))
      && (!emitting ==> regsize == size0 + 3 + Size(p.re) && regcode == code0 && program[..] == c0)
    }

    method RegBranch() returns (ok: bool, ret: nat, f: Flags)
      requires Valid()
      requires emitting ==> ParseBranch(pat, regparse, regnpar).Ok? && Room(3 + Size(ParseBranch(pat, regparse, regnpar).re))
      modifies this`regparse, this`regnpar, this`regcode, this`regsize, program
      ensures ok == ParseBranch(pat, old(regparse), old(regnpar)).Ok?
      ensures ok ==>
                var p := ParseBranch(pat, old(regparse), old(regnpar));
                && ret == old(regcode) && Valid() && FlagsOf(f, p.re)
                && ProducedArm(p, old(regsize), old(regcode), old(program[..]))
      decreases |pat| - regparse, 3
    {
      hide ParsePiece, Put, EmittedArm, Chain, Last, Size;
      ghost var c0, s0, at, i0 := program[..], regsize, regcode, regparse;
      ghost var p := ParsePieces(pat, regparse, regnpar, Empty);
      f := WORST;
      if p.Ok? { SizePositive(p.re); }
      EmptySize();
      ret := RegNode(BRANCH);
      var chain := -1;
      ghost var acc := Empty;
      while !EndsBranch(At(pat, regparse))
        invariant Valid() && i0 <= regparse && ret == at
        invariant p == ParsePieces(pat, regparse, regnpar, acc)
        invariant FlagsOf(f, acc) && InBranch(ret, chain, acc, s0, at, c0)
        decreases |pat| - regparse
      {
        ok, chain, f, acc := RegLink(ret, chain, f, acc, s0, at, c0);
        if !ok { return; }
      }
      if chain == -1 {
        var x := RegEmptyBody(ret, s0, at, c0);
      }
      if emitting { ArmBounds(c0, at, program[..], regcode, acc); }
      ok := true;
    }

    /** An empty branch gets a NOTHING node. */
    method RegEmptyBody(ret: nat, ghost s0: nat, ghost at: nat, ghost c0: seq<byte>) returns (x: nat)
      requires InBranch(ret, -1, Empty, s0, at, c0) && Room(3)
      modifies this`regcode, this`regsize, program
      ensures emitting ==> regsize == s0 && EmittedArm(c0, ret, program[..], regcode, Empty)
      ensures !emitting ==> regsize == s0 + 6 && regcode == at && program[..] == c0
    {
      hide Put, EmittedArm, Emitted;
      ghost var c1 := program[..];
      if emitting { EmitNode(c1, regcode, Empty); }
      x := RegNode(NOTHING);
      if emitting { FirstPiece(c0, ret, c1, program[..], regcode, Empty); }
    }

    /** One round of the loop in `regbranch`: a piece, linked to the one before. */
    method RegLink(ret: nat, chain: int, f: Flags, ghost acc: Re, ghost s0: nat, ghost at: nat, ghost c0: seq<byte>)
      returns (ok: bool, latest: int, f': Flags, ghost acc': Re)
      requires Valid() && !EndsBranch(At(pat, regparse)) && FlagsOf(f, acc)
      requires InBranch(ret, chain, acc, s0, at, c0)
      requires emitting ==>
                 && ParsePieces(pat, regparse, regnpar, acc).Ok?
                 && ret + 3 + Size(ParsePieces(pat, regparse, regnpar, acc).re) <= program.Length
      modifies this`regparse, this`regnpar, this`regcode, this`regsize, program
      ensures !ok ==> ParsePieces(pat, old(regparse), old(regnpar), acc).Bad?
      ensures ok ==>
                && Valid() && old(regparse) < regparse && FlagsOf(f', acc') && InBranch(ret, latest, acc', s0, at, c0)
                && ParsePieces(pat, regparse, regnpar, acc') == ParsePieces(pat, old(regparse), old(regnpar), acc)
      decreases |pat| - regparse, 2
    {
      hide ParsePiece, Put, EmittedArm, Emitted, Chain, Last, Size, Patch;
      ghost var p := ParsePiece(pat, regparse, regnpar);
      ghost var c, end := program[..], regcode;
      acc' := acc;
      if p.Ok? {
        acc' := if acc == Empty then p.re else Cat(acc, p.re);
        PiecesGrow(pat, p.pos, p.npar, acc');
        CatSize(acc, p.re);
      }
      if emitting && acc != Empty { ArmBounds(c0, ret, c, end, acc); }
      ok, latest, f' := RegPiece();
      if !ok { return; }
      if emitting { EmittedBounds(c, end, program[..], regcode, p.re); }
      if chain == -1 {
        if emitting {
          FirstPiece(c0, ret, c, program[..], regcode, p.re);
          EmittedChain(c, end, program[..], regcode, p.re);
        }
        f' := Flags(f.hasWidth || f'.hasWidth, false, f'.spStart);
      } else {
        ghost var e := Last(ret + 3, acc);
        ghost var c1 := program[..];
        if emitting {
          LastInside(ret + 3, acc);
          NextPiece(c0, ret, c, end, acc, chain, c1, regcode, p.re, Patch(c1, e, end));
        }
        RegTail(chain, latest, e);
        f' := Flags(f.hasWidth || f'.hasWidth, false, f.spStart);
      }
    }

    /** What `reg` produces: a group, or a whole program. */
    ghost predicate ProducedReg(p: Parsed, paren: bool, size0: nat, code0: nat, c0: seq<byte>)
      requires p.Ok?
      reads this, program
    {
      && regparse == p.pos && regnpar == p.npar
      && (emitting ==>
            && regsize == size0
            && (paren ==> Emitted(c0, code0, program[..], regcode, p.re))
            && (!paren ==> EmittedTop(c0, code0, program[..], regcode, p.re)))
      && (!emitting ==> regsize == size0 + RegSize(p.re, paren) && regcode == code0 && program[..] == c0)
    }

    method Reg(paren: bool) returns (ok: bool, ret: nat, f: Flags)
      requires Valid()
      requires emitting ==>
                 && ParseReg(pat, regparse, regnpar, paren).Ok?
                 && Room(RegSize(ParseReg(pat, regparse, regnpar, paren).re, paren))
      modifies this`regparse, this`regnpar, this`regcode, this`regsize, program
      ensures ok == ParseReg(pat, old(regparse), old(regnpar), paren).Ok?
      ensures ok ==>
                var p := ParseReg(pat, old(regparse), old(regnpar), paren);
                && ret == old(regcode) && Valid() && FlagsOf(f, p.re)
                && ProducedReg(p, paren, old(regsize), old(regcode), old(program[..]))
      decreases |pat| - regparse, 6
    {
      hide ParseAlts, Put, Branching, Hooking, Emitted, EmittedTop, AltsSize;
      ghost var c0, at := program[..], regcode;
      var parno := 0;
      ret := regcode;
      if paren {
        if regnpar >= NSUBEXP {
          return false, ret, WORST;
        }
        parno := regnpar;
        regnpar := regnpar + 1;
        ret := RegNode(OPEN + parno);
      }
      ghost var acc;
      ok, f, acc := RegAlternatives(paren, ret, parno, at, c0);
      if !ok { return; }
      if emitting { BranchingBounds(c0, at, program[..], regcode, if paren then ret + 3 else ret, parno, acc); }
      RegHook(paren, ret, parno, if paren then ret + 3 else ret, acc, c0);
      if paren {
        if At(pat, regparse) != RPAREN {
          ok := false;
          return;
        }
        regparse := regparse + 1;
      } else if At(pat, regparse) != 0 {
        ok := false;
        return;
      }
    }

    /** The branches of `reg`, linked together behind the OPEN node, if any. */
    method RegAlternatives(paren: bool, ret: nat, parno: nat, ghost at: nat, ghost c0: seq<byte>)
      returns (ok: bool, f: Flags, ghost acc: Re)
      requires Valid() && ret == at && (paren ==> 1 <= parno < NSUBEXP)
      requires emitting && paren ==>
                 at > 0 && at + 3 <= |c0| && regcode == at + 3 && program[..] == Put(c0, at, FreshNode(OPEN + parno))
      requires emitting && !paren ==> regcode == at && program[..] == c0
      requires !emitting ==> regcode == at
      requires emitting ==> ParseAlts(pat, regparse, regnpar).Ok? && Room(AltsSize(ParseAlts(pat, regparse, regnpar).re) + 3)
      modifies this`regparse, this`regnpar, this`regcode, this`regsize, program
      ensures ok == ParseAlts(pat, old(regparse), old(regnpar)).Ok?
      ensures ok ==>
                var p := ParseAlts(pat, old(regparse), old(regnpar));
                && Valid() && FlagsOf(f, p.re) && acc == p.re && regparse == p.pos && regnpar == p.npar
                && (emitting ==> regsize == old(regsize)
                                 && Branching(c0, at, program[..], regcode, old(regcode), parno, acc))
                && (!emitting ==> regsize == old(regsize) + AltsSize(acc) && regcode == at && program[..] == old(program[..]))
      decreases |pat| - regparse, 5
    {
      hide ParseBranch, Put, Patch, EmittedArm, Branching, Chain, Size;
      ghost var c1, first, s0, i0 := program[..], regcode, regsize, regparse;
      ghost var p := ParseAlts(pat, regparse, regnpar);
      ghost var b := ParseBranch(pat, regparse, regnpar);
      if b.Ok? {
        MoreGrows(pat, b.pos, b.npar, b.re);
        BranchSize(b.re);
      }
      acc := Empty;
      var br;
      ok, br, f := RegBranch();
      if !ok { return; }
      acc := b.re;
      if emitting { ArmBounds(c1, first, program[..], regcode, acc); }
      if paren {
        ghost var c2 := program[..];
        if emitting { FirstBranchOfGroup(c0, at, parno, c1, c2, regcode, acc, Patch(c2, at, at + 3)); }
        RegTail(ret, br, at);
      } else if emitting {
        FirstBranch(c0, at, program[..], regcode, parno, acc);
      }
      while At(pat, regparse) == BAR
        invariant Valid() && i0 <= regparse && WellFormed(acc)
        invariant p == ParseMore(pat, regparse, regnpar, acc) && FlagsOf(f, acc)
        invariant emitting ==> regsize == s0 && Branching(c0, at, program[..], regcode, first, parno, acc)
        invariant !emitting ==> regsize == s0 + AltsSize(acc) && regcode == at && program[..] == c1
        decreases |pat| - regparse
      {
        ok, f, acc := RegNextBranch(ret, parno, first, f, acc, s0, c0, c1);
        if !ok { return; }
      }
    }

    /** One round of the `|` loop of `reg`. */
    method RegNextBranch(ret: nat, ghost parno: nat, ghost first: nat, f: Flags, ghost acc: Re,
                         ghost s0: nat, ghost c0: seq<byte>, ghost c1: seq<byte>)
      returns (ok: bool, f': Flags, ghost acc': Re)
      requires Valid() && At(pat, regparse) == BAR && FlagsOf(f, acc) && WellFormed(acc)
      requires emitting ==> regsize == s0 && Branching(c0, ret, program[..], regcode, first, parno, acc)
      requires !emitting ==> regsize == s0 + AltsSize(acc) && regcode == ret && program[..] == c1
      requires emitting ==>
                 && ParseMore(pat, regparse, regnpar, acc).Ok?
                 && first + AltsSize(ParseMore(pat, regparse, regnpar, acc).re) <= program.Length
      modifies this`regparse, this`regnpar, this`regcode, this`regsize, program
      ensures !ok ==> ParseMore(pat, old(regparse), old(regnpar), acc).Bad?
      ensures ok ==>
                && Valid() && old(regparse) < regparse && FlagsOf(f', acc') && WellFormed(acc')
                && ParseMore(pat, regparse, regnpar, acc') == ParseMore(pat, old(regparse), old(regnpar), acc)
                && (emitting ==> regsize == s0 && Branching(c0, ret, program[..], regcode, first, parno, acc'))
                && (!emitting ==> regsize == s0 + AltsSize(acc') && regcode == ret && program[..] == c1)
      decreases |pat| - regparse, 4
    {
      hide ParseBranch, ParseMore, Patch, EmittedArm, Branching, Chain, Size, AltsSize, LastArm, FlagsOf, WellFormed;
      MoreStep(pat, regparse, regnpar, acc);
      regparse := regparse + 1;
      ghost var b := ParseBranch(pat, regparse, regnpar);
      ghost var c, end := program[..], regcode;
      acc' := acc;
      if b.Ok? {
        acc' := Alt(acc, b.re);
        AltShape(acc, b.re);
        MoreGrows(pat, b.pos, b.npar, acc');
      }
      if emitting { BranchingBounds(c0, ret, c, end, first, parno, acc); }
      var br;
      ok, br, f' := RegBranch();
      if !ok { return; }
      ghost var e := LastArm(first, acc);
      ghost var c2 := program[..];
      if emitting {
        ArmBounds(c, end, c2, regcode, b.re);
        LastArmInside(first, acc);
        NextBranch(c0, ret, c, end, first, parno, acc, c2, regcode, b.re, Patch(c2, e, end));
      }
      RegTail(ret, br, e);
      AltFlags(f, f', acc, b.re);
      f' := Flags(f.hasWidth && f'.hasWidth, false, f.spStart || f'.spStart);
    }

    /** The closing node, and the loop that hooks the tails of all branches to it. */
    method RegHook(paren: bool, ret: nat, parno: nat, ghost first: nat, ghost acc: Re, ghost c0: seq<byte>)
      requires paren ==> 1 <= parno < NSUBEXP
      requires first == if paren then ret + 3 else ret
      requires emitting ==> Branching(c0, ret, program[..], regcode, first, parno, acc) && Room(3) && program.Length < 32767
      modifies this`regcode, this`regsize, program
      ensures emitting ==>
                && regsize == old(regsize) && regcode == old(regcode) + 3
                && (paren ==> Emitted(c0, ret, program[..], regcode, Group(parno, acc)))
                && (!paren ==> EmittedTop(c0, ret, program[..], regcode, acc))
      ensures !emitting ==> regsize == old(regsize) + 3 && regcode == old(regcode) && program[..] == old(program[..])
    {
      hide Put, Patch, Branching, Hooking, Chain, AltsSize, LastArm, ArmAt, Last, Size, Emitted, EmittedTop;
      var op := if paren then CLOSE + parno else END;
      ghost var c, end, e := program[..], regcode, LastArm(first, acc);
      if emitting {
        BranchingBounds(c0, ret, c, end, first, parno, acc);
        LastArmInside(first, acc);
        ghost var c1 := Put(c, end, FreshNode(op));
        CloseBranches(c0, ret, c, end, first, parno, acc, op, c1, Patch(c1, e, end));
      }
      var ender := RegNode(op);
      RegTail(ret, ender, e);
      if !emitting { return; }
      var br: int := ret;
      ghost var x: nat := first;
      ghost var b := FirstArm(first, acc);
      while br != 0
        modifies program
        invariant Hooking(c0, ret, program[..], first, parno, acc, end, op, x) && first <= x <= end
        invariant x < end ==> ArmAt(first, acc, x, b)
        invariant br == x || (br == ret && x == first) || (br == 0 && x == end)
        invariant br == ret ==> x == first
        decreases if br == 0 then 0 else end + 1 - br
      {
        HookingFacts(c0, ret, program[..], first, parno, acc, end, op, x);
        ghost var z := 0;
        ghost var arm := br == x && x < end;
        if arm {
          ArmInside(first, acc, x, b);
          LastInside(x + 3, b);
          z := Last(x + 3, b);
          HookStep(c0, ret, program[..], first, parno, acc, end, op, x, b, Patch(program[..], z, end));
        }
        RegOpTail(br, ender, z);
        if arm {
          ghost var b' := NextArm(first, acc, x, b);
          x, b := x + 3 + Size(b), b';
        }
        br := Next(program[..], br);
      }
      if paren {
        FinishGroup(c0, ret, program[..], parno, acc, end);
      } else {
        FinishTop(c0, ret, program[..], parno, acc, end);
      }
    }
  }

  lemma MoreStep(pat: seq<byte>, i: nat, npar: nat, acc: Re)
    requires i < |pat| && At(pat, i) == BAR
    ensures var b := ParseBranch(pat, i + 1, npar);
            ParseMore(pat, i, npar, acc) == if b.Bad? then Bad else ParseMore(pat, b.pos, b.npar, Alt(acc, b.re))
  {
    hide ParseBranch;
  }

  lemma AltShape(a: Re, b: Re)
    ensures WellFormed(a) && IsBranch(b) ==> WellFormed(Alt(a, b))
    ensures AltsSize(Alt(a, b)) == AltsSize(a) + 3 + Size(b)
  {
    hide Size, Level;
  }

  lemma AltFlags(f: Flags, g: Flags, a: Re, b: Re)
    requires FlagsOf(f, a) && FlagsOf(g, b)
    ensures FlagsOf(Flags(f.hasWidth && g.hasWidth, false, f.spStart || g.spStart), Alt(a, b))
  {
  }

  lemma BranchSize(b: Re)
    requires !b.Alt?
    ensures AltsSize(b) == 3 + Size(b)
  {
  }

  lemma BranchingBounds(c0: seq<byte>, at: nat, c: seq<byte>, end: nat, first: nat, no: nat, acc: Re)
    requires Branching(c0, at, c, end, first, no, acc)
    ensures 0 < at <= first <= end <= |c| == |c0| && end == first + AltsSize(acc)
  {
  }

  lemma HookingFacts(c0: seq<byte>, at: nat, c: seq<byte>, first: nat, no: nat, acc: Re, e: nat, op: byte, x: nat)
    requires Hooking(c0, at, c, first, no, acc, e, op, x)
    ensures 0 < at <= first < e && e + 3 <= |c| == |c0| && c[e] == op && Next(c, e) == 0
    ensures at < first ==> Next(c, at) == first && c[at] == OPEN + no
  {
    AltsSizePositive(acc);
  }

  lemma FinishTop(c0: seq<byte>, at: nat, c: seq<byte>, no: nat, acc: Re, e: nat)
    requires Hooking(c0, at, c, at, no, acc, e, END, e)
    ensures EmittedTop(c0, at, c, e + 3, acc)
  {
  }

  lemma LiteralStart(pat: seq<byte>, i: nat)
    requires i < |pat| && !IsMeta(pat[i])
    ensures LiteralRun(pat, i) > 0
  {
  }

  lemma EmptySize()
    ensures Size(Empty) == 3
  {
  }

  lemma CatSize(a: Re, b: Re)
    ensures Size(Cat(a, b)) == Size(a) + Size(b)
  {
  }

  lemma ArmBounds(c0: seq<byte>, at: nat, c: seq<byte>, end: nat, b: Re)
    requires EmittedArm(c0, at, c, end, b)
    ensures 0 < at <= end <= |c| == |c0| && end == at + 3 + Size(b)
  {
  }

  lemma EmittedChain(c0: seq<byte>, at: nat, c: seq<byte>, end: nat, r: Re)
    requires Emitted(c0, at, c, end, r)
    ensures Chain(c, at, Last(at, r))
  {
    CodeChain(c, at, r, 0);
  }

  lemma OperatedSize(op: byte, a: Re)
    ensures Size(Operated(op, a)) >= Size(a)
  {
  }

  lemma LoopSizes(a: Re)
    ensures !IsSimple(a) ==> Size(Star(a)) == 12 + Size(a) && Size(Plus(a)) == 12 + Size(a)
    ensures Size(Opt(a)) == 9 + Size(a)
  {
  }

  ghost predicate LoopCode(c: seq<byte>, p: nat, r: Re) {
    match r
    case Star(a) => !IsSimple(a) && StarCode(c, p, a, 0)
    case Plus(a) => !IsSimple(a) && PlusCode(c, p, a, 0)
    case Opt(a) => OptCode(c, p, a, 0)
    case _ => false
  }

  lemma FinishLoop(c0: seq<byte>, d: seq<byte>, c: seq<byte>, p: nat, r: Re)
    requires |c0| == |d| == |c| && p > 0 && Same(c0, 0, d, 0, p) && Same(d, 0, c, 0, p) && p + Size(r) <= |c|
    requires LoopCode(c, p, r)
    ensures Emitted(c0, p, c, p + Size(r), r)
  {
    hide StarCode, PlusCode, OptCode, Same, Leaf;
    SameTrans(c0, 0, d, 0, c, 0, p);
  }
}
