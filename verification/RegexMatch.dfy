/**
  The backtracking matcher: `regmatch` and `regrepeat`.

  `RegMatch` succeeds exactly when the continuation at its node has some end, and then leaves the input
  pointer at one of its ends.  The two exits the source reports as "memory corruption" and "corrupted
  pointers" are proved unreachable, and so is the unsuitable operand of `regrepeat`.
*/
module RegexMatch {
  import opened Bytes
  import opened RegexSyntax
  import opened RegexCode
  import opened RegexCont
  import opened RegexStep

  // ----- Operands are C strings -----

  lemma TextAt(c: seq<byte>, p: nat, str: seq<byte>, k: nat)
    requires Text(c, p, str) && k <= |str|
    ensures p + k < |c| && c[p + k] == At(str, k)
  {
    if k < |str| {
      SamePart(c, p, str, 0, |str|, k, 1);
    }
  }

  method StrLen(c: seq<byte>, p: nat, ghost str: seq<byte>) returns (n: nat)
    requires Text(c, p, str) && 0 !in str
    ensures n == |str|
  {
    n := 0;
    TextAt(c, p, str, 0);
    while c[p + n] != 0
      invariant n <= |str| && p + n < |c| && c[p + n] == At(str, n)
      decreases |str| - n
    {
      assert n < |str|;
      TextAt(c, p, str, n + 1);
      n := n + 1;
    }
  }

  method StrChr(c: seq<byte>, p: nat, b: byte, ghost str: seq<byte>) returns (found: bool)
    requires Text(c, p, str) && 0 !in str && b != 0
    ensures found <==> b in str
  {
    var n := 0;
    TextAt(c, p, str, 0);
    while c[p + n] != 0
      invariant n <= |str| && p + n < |c| && c[p + n] == At(str, n)
      invariant b !in str[..n]
      decreases |str| - n
    {
      assert n < |str|;
      if c[p + n] == b {
        assert str[n] == b;
        return true;
      }
      assert str[..n + 1] == str[..n] + [str[n]];
      TextAt(c, p, str, n + 1);
      n := n + 1;
    }
    assert str[..n] == str;
    return false;
  }

  /** `strncmp(c + p, s + i, n) == 0`, for an operand of length `n`. */
  method StrNEqual(c: seq<byte>, p: nat, s: seq<byte>, i: nat, n: nat, ghost str: seq<byte>) returns (same: bool)
    requires Text(c, p, str) && n == |str| && 0 !in str && i <= |s|
    ensures same <==> i + n <= |s| && s[i..i + n] == str
  {
    var m := 0;
    while m < n
      invariant m <= n && i + m <= |s| && s[i..i + m] == str[..m]
    {
      TextAt(c, p, str, m);
      assert str[m] in str;
      if c[p + m] != At(s, i + m) {
        if i + n <= |s| {
          assert s[i..i + n][m] == s[i + m];
        }
        return false;
      }
      assert s[i..i + m + 1] == s[i..i + m] + [s[i + m]];
      assert str[..m + 1] == str[..m] + [str[m]];
      m := m + 1;
    }
    assert str[..n] == str;
    return true;
  }

  class Matcher {
    const program: seq<byte>
    const str: seq<byte>
    var reginput: int

    constructor (program: seq<byte>, str: seq<byte>, i: nat)
      ensures this.program == program && this.str == str && reginput == i
    {
      this.program := program;
      this.str := str;
      this.reginput := i;
    }

    /** The cases of the switch in `regmatch` that look at the input once and go on to the next node. */
    method MatchLeaf(scan: nat, ghost re: Re, ghost t: nat) returns (ok: bool)
      requires 0 <= reginput <= |str| && NulFree(str) && WellFormed(re) && IsLeaf(re)
      requires Leaf(program, scan, re, t)
      modifies this
      ensures ok <==> LeafEnd(re, str, old(reginput)) >= 0
      ensures ok ==> reginput == LeafEnd(re, str, old(reginput))
    {
      hide Text;
      var op := program[scan];
      if op == BOL {
        return reginput == 0;
      } else if op == EOL {
        return At(str, reginput) == 0;
      } else if op == ANY {
        if At(str, reginput) == 0 { return false; }
        reginput := reginput + 1;
        return true;
      } else if op == EXACTLY {
        ok := MatchExactly(scan, re.str);
      } else if op == ANYOF || op == ANYBUT {
        if At(str, reginput) == 0 { return false; }
        var found := StrChr(program, scan + 3, At(str, reginput), re.chars);
        if found == (op == ANYBUT) { return false; }
        reginput := reginput + 1;
        return true;
      } else {
        return true;
      }
    }

    method MatchExactly(scan: nat, ghost opnd: seq<byte>) returns (ok: bool)
      requires 0 <= reginput <= |str| && NulFree(str)
      requires Text(program, scan + 3, opnd) && opnd != [] && 0 !in opnd
      modifies this
      ensures ok <==> LeafEnd(Exactly(opnd), str, old(reginput)) >= 0
      ensures ok ==> reginput == LeafEnd(Exactly(opnd), str, old(reginput))
    {
      TextAt(program, scan + 3, opnd, 0);
      assert opnd[0] in opnd;
      if program[scan + 3] != At(str, reginput) {
        if reginput + |opnd| <= |str| {
          assert str[reginput..reginput + |opnd|][0] == str[reginput];
        }
        return false;
      }
      var len := StrLen(program, scan + 3, opnd);
      if len > 1 {
        var same := StrNEqual(program, scan + 3, str, reginput, len, opnd);
        if !same { return false; }
      } else {
        assert str[reginput..reginput + 1] == [str[reginput]] == opnd;
      }
      reginput := reginput + len;
      return true;
    }

    /** `regrepeat`: how often the one-byte operand at `p` matches in a row. */
    method RegRepeat(p: nat, ghost a: Re) returns (count: nat)
      requires 0 <= reginput <= |str| && NulFree(str) && WellFormed(a) && IsSimple(a)
      requires Leaf(program, p, a, 0)
      modifies this
      ensures MaximalRun(a, str, old(reginput), count)
      ensures reginput == old(reginput) + count
    {
      var start := reginput;
      count := 0;
      var scan := reginput;
      var op := program[p];
      if op == ANY {
        count := |str| - scan;
        scan := scan + count;
      } else if op == EXACTLY {
        TextAt(program, p + 3, a.str, 0);
        assert a.str[0] in a.str;
        assert a.str == [a.str[0]];
        while program[p + 3] == At(str, scan)
          invariant start <= scan <= |str| && count == scan - start
          invariant forall m :: start <= m < scan ==> OneByte(a, str[m])
          decreases |str| - scan
        {
          count := count + 1;
          scan := scan + 1;
        }
      } else if op == ANYOF || op == ANYBUT {
        while At(str, scan) != 0
          invariant start <= scan <= |str| && count == scan - start
          invariant forall m :: start <= m < scan ==> OneByte(a, str[m])
          decreases |str| - scan
        {
          var found := StrChr(program, p + 3, str[scan], a.chars);
          if found == (op == ANYBUT) { break; }
          count := count + 1;
          scan := scan + 1;
        }
      } else {
        assert false;
      }
      reginput := scan;
    }

    /** `regmatch`. */
    method RegMatch(prog: nat, ghost k0: Cont) returns (ok: bool)
      requires NulFree(str) && 0 <= reginput && Ready(program, str, prog, k0, reginput)
      modifies this
      ensures ok ==> 0 <= reginput && Denotes(k0, str, old(reginput), reginput)
      ensures !ok ==> Dead(str, k0, old(reginput))
      decreases |str| - reginput, Weight(k0, reginput), 1
    {
      hide Located, Progress, Denotes, Weight, Leaf, Code, Expand, WellFormed, Branches, Choices, LeafEnd;
      var scan := prog;
      ghost var start := reginput;
      ghost var k := k0;
      while scan != 0
        invariant 0 <= reginput && 0 <= scan && Ready(program, str, scan, k, reginput)
        invariant SameEnds(str, k0, start, k, reginput)
        invariant start < reginput || (start == reginput && Weight(k, reginput) <= Weight(k0, start))
        decreases |str| - reginput, Weight(k, reginput)
      {
        ghost var k' := Expand(k, scan, reginput);
        ExpandSound(program, str, scan, k, reginput);
        HeadShape(program, str, scan, k', reginput);
        ghost var i := reginput;
        var next := Next(program, scan);
        var op := program[scan];
        if op == END {
          DoneEnds(str, k', i);
          return true;
        } else if BOL <= op <= ANYBUT || op == EXACTLY || op == NOTHING {
          PassLeaf(program, str, scan, k', i);
          LeafWellFormed(program, scan, k');
          ok := MatchLeaf(scan, k'.re, k'.t);
          if !ok { return false; }
          k := k'.rest;
        } else if op == BACK {
          PassBack(program, str, scan, k', i);
          k := Pend(Run, k'.re, k'.t, k'.rest);
        } else if OPEN < op < OPEN + NSUBEXP {
          PassOpen(program, str, scan, k', i);
          ok := RegMatch(next, Opened(k', scan));
          return;
        } else if CLOSE < op < CLOSE + NSUBEXP {
          PassShut(program, str, scan, k', i);
          ok := RegMatch(next, k'.rest);
          return;
        } else if op == BRANCH {
          PassChoice(program, str, scan, k', i);
          ghost var ks := Choices(k', scan, i);
          BranchNext(program, scan, ks);
          if program[next] != BRANCH {
            OnlyChoice(program, str, scan, k', ks, i);
            next := scan + 3;
            k := ks[0];
          } else {
            ok := TryBranches(scan, k', ks, Weight(k', i));
            return;
          }
        } else if op == STAR || op == PLUS {
          ok := TryRepeat(scan, k');
          return;
        } else {
          assert false;
        }
        scan := next;
      }
      LocatedPositive(program, scan, k);
      assert false;
    }

    /** The loop over the alternatives of a BRANCH chain. */
    method TryBranches(first: nat, ghost k: Cont, ghost ks: seq<Cont>, ghost w: nat) returns (ok: bool)
      requires NulFree(str) && 0 <= reginput <= |str| && w == Weight(k, reginput)
      requires Branches(program, first, ks)
      requires AllBelow(program, str, ks, k, reginput) && UnionEnds(str, k, ks, reginput)
      modifies this
      ensures ok ==> 0 <= reginput && Denotes(k, str, old(reginput), reginput)
      ensures !ok ==> Dead(str, k, old(reginput))
      decreases |str| - reginput, w, 0
    {
      hide Located, Progress, Denotes, Weight;
      var scan: nat := first;
      var save := reginput;
      ghost var n := 0;
      while true
        invariant reginput == save == old(reginput) && 0 <= n < |ks|
        invariant Branches(program, scan, ks[n..])
        invariant forall m :: 0 <= m < n ==> Dead(str, ks[m], save)
        decreases |ks| - n
      {
        assert ks[n..][0] == ks[n];
        assert Ready(program, str, scan + 3, ks[n], save);
        ok := RegMatch(scan + 3, ks[n]);
        if ok {
          assert AnyDenotes(ks, str, save, reginput);
          return;
        }
        reginput := save;
        BranchNext(program, scan, ks[n..]);
        if program[Next(program, scan)] != BRANCH {
          assert |ks[n..]| == 1;
          forall j: nat
            ensures !Denotes(k, str, save, j)
          {
            assert !AnyDenotes(ks, str, save, j);
          }
          return false;
        }
        assert ks[n..][1..] == ks[n + 1..];
        scan := Next(program, scan);
        n := n + 1;
      }
    }

    /** STAR and PLUS: longest run first, one byte less each time. */
    method TryRepeat(scan: nat, ghost k: Cont) returns (ok: bool)
      requires NulFree(str) && 0 <= reginput && Ready(program, str, scan, k, reginput)
      requires k.Pend? && k.kind.Run? && (k.re.Star? || k.re.Plus?) && IsSimple(k.re.rep)
      modifies this
      ensures ok ==> 0 <= reginput && Denotes(k, str, old(reginput), reginput)
      ensures ok ==> LongestFirst(k, str, old(reginput), reginput)
      ensures ok && k.rest.Done? ==> reginput >= old(reginput) && MaximalRun(k.re.rep, str, old(reginput), reginput - old(reginput))
      ensures !ok ==> Dead(str, k, old(reginput))
      decreases |str| - reginput, Weight(k, reginput), 0
    {
      hide Located, Progress, Leaf, WellFormed, MaximalRun, LongestFirst, Denotes;
      PassSimple(program, str, scan, k, reginput);
      RepeatOp(program, str, scan, k, reginput);
      var next := Next(program, scan);
      RestInside(program, str, scan, k, reginput);
      var nextch := 0;
      if program[next] == EXACTLY {
        nextch := program[next + 3];
      }
      var min := if program[scan] == STAR then 0 else 1;
      var save := reginput;
      var no: int := RegRepeat(scan + 3, k.re.rep);
      ghost var most := no;
      RunInside(k.re.rep, str, save, most);
      while no >= min
        invariant min - 1 <= no <= most && reginput == save + no
        invariant forall m: nat :: save + min <= m <= save + most && save + no < m ==> Dead(str, k.rest, m)
        decreases no
      {
        if nextch == 0 || At(str, reginput) == nextch {
          ok := RegMatch(next, k.rest);
          if ok {
            SimpleEnds(k, str, save, most, reginput);
            LongestHere(k, str, save, most, save + no, reginput);
            return;
          }
        } else {
          Lookahead(program, str, next, k.rest, save + no);
        }
        no := no - 1;
        reginput := save + no;
      }
      RepeatDead(k, str, save, most);
      return false;
    }
  }

  // ----- Which end is reported -----

  /** The end `j` is one of the rest after the largest count after which the rest has any. */
  ghost predicate LongestFirst(k: Cont, s: seq<byte>, i: nat, j: nat)
    requires k.Pend? && (k.re.Star? || k.re.Plus?)
  {
    exists most: nat, m: nat ::
      && MaximalRun(k.re.rep, s, i, most) && i + MinCount(k.re) <= m <= i + most && Denotes(k.rest, s, m, j)
      && forall m': nat :: m < m' <= i + most ==> Dead(s, k.rest, m')
  }

  lemma LongestHere(k: Cont, s: seq<byte>, i: nat, most: nat, m: nat, j: nat)
    requires k.Pend? && (k.re.Star? || k.re.Plus?) && MaximalRun(k.re.rep, s, i, most)
    requires i + MinCount(k.re) <= m <= i + most && Denotes(k.rest, s, m, j)
    requires forall m': nat :: m < m' <= i + most ==> Dead(s, k.rest, m')
    ensures LongestFirst(k, s, i, j)
    ensures k.rest.Done? ==> j == i + most
  {
    hide MaximalRun, MinCount;
    if k.rest.Done? {
      RunInside(k.re.rep, s, i, most);
      DoneEnds(s, k.rest, i + most);
      assert !Dead(s, k.rest, i + most);
    }
  }

  // ----- Side facts -----

  lemma DoneEnds(s: seq<byte>, k: Cont, i: nat)
    requires k.Done? && i <= |s|
    ensures Denotes(k, s, i, i)
  {
  }

  lemma LocatedPositive(c: seq<byte>, p: nat, k: Cont)
    requires Located(c, p, k)
    ensures p > 0
  {
  }

  lemma LeafWellFormed(c: seq<byte>, p: nat, k: Cont)
    requires Located(c, p, k) && k.Pend?
    ensures WellFormed(k.re)
  {
  }

  lemma BranchNext(c: seq<byte>, p: nat, ks: seq<Cont>)
    requires Branches(c, p, ks)
    ensures p + 3 <= |c| && 0 < Next(c, p) < |c|
    ensures c[Next(c, p)] != BRANCH <==> |ks| == 1
    ensures |ks| > 0 && Located(c, p + 3, ks[0])
    ensures |ks| > 1 ==> Branches(c, Next(c, p), ks[1..])
  {
    if |ks| > 1 {
      assert Branches(c, Next(c, p), ks[1..]);
    }
  }

  lemma OnlyChoice(c: seq<byte>, s: seq<byte>, p: nat, k: Cont, ks: seq<Cont>, i: nat)
    requires |ks| == 1 && Located(c, p + 3, ks[0]) && i <= |s|
    requires AllBelow(c, s, ks, k, i) && UnionEnds(s, k, ks, i)
    ensures Ready(c, s, p + 3, ks[0], i) && SameEnds(s, k, i, ks[0], i) && Weight(ks[0], i) < Weight(k, i)
  {
    hide Located, Progress, Denotes, Weight;
    forall j: nat
      ensures Denotes(k, s, i, j) <==> Denotes(ks[0], s, i, j)
    {
      if Denotes(k, s, i, j) { assert AnyDenotes(ks, s, i, j); }
      if Denotes(ks[0], s, i, j) { assert AnyDenotes(ks, s, i, j); }
    }
  }

  lemma RepeatOp(c: seq<byte>, s: seq<byte>, p: nat, k: Cont, i: nat)
    requires Ready(c, s, p, k, i) && k.Pend? && k.kind.Run? && (k.re.Star? || k.re.Plus?) && IsSimple(k.re.rep)
    ensures p < |c| && c[p] == if k.re.Star? then STAR else PLUS
  {
    hide Ready;
    HeadShape(c, s, p, k, i);
  }

  /** The node after a STAR or PLUS exists, and has an operand byte if it is EXACTLY. */
  lemma RestInside(c: seq<byte>, s: seq<byte>, p: nat, k: Cont, i: nat)
    requires Ready(c, s, p, k, i) && k.Pend?
    ensures k.t + 3 <= |c| && (c[k.t] == EXACTLY ==> k.t + 3 < |c| && c[k.t + 3] != 0)
  {
    assert Located(c, k.t, k.rest);
    ProgressMonotone(k.rest, i, |s| + 1, HasWidth(k.re), false);
    NodeInside(c, k.t, k.rest, |s| + 1);
  }

  lemma NodeInside(c: seq<byte>, p: nat, k: Cont, i: nat)
    requires Located(c, p, k) && Progress(k, i, false)
    ensures p + 3 <= |c| && (c[p] == EXACTLY ==> p + 3 < |c| && c[p + 3] != 0)
  {
    hide Denotes, Located, Progress;
    var s: seq<byte> := seq(i, _ => 1);
    ExpandSound(c, s, p, k, i);
    var k' := Expand(k, p, i);
    HeadShape(c, s, p, k', i);
    if c[p] == EXACTLY {
      PassLeaf(c, s, p, k', i);
      ExactlyOperand(c, p, k');
    }
  }

  lemma ExactlyOperand(c: seq<byte>, p: nat, k: Cont)
    requires Located(c, p, k) && k.Pend? && IsLeaf(k.re) && Leaf(c, p, k.re, k.t) && c[p] == EXACTLY
    ensures p + 3 < |c| && c[p + 3] != 0
  {
    assert k.re.Exactly?;
    TextAt(c, p + 3, k.re.str, 0);
    assert k.re.str[0] in k.re.str;
  }

  lemma RepeatDead(k: Cont, s: seq<byte>, i: nat, n: nat)
    requires k.Pend? && (k.re.Star? || k.re.Plus?) && IsSimple(k.re.rep) && MaximalRun(k.re.rep, s, i, n)
    requires forall m: nat :: i + MinCount(k.re) <= m <= i + n ==> Dead(s, k.rest, m)
    ensures Dead(s, k, i)
  {
    forall j: nat
      ensures !Denotes(k, s, i, j)
    {
      forall m: nat | i + MinCount(k.re) <= m <= i + n
        ensures !Denotes(k.rest, s, m, j)
      {
        assert Dead(s, k.rest, m);
      }
      SimpleEnds(k, s, i, n, j);
    }
  }

  lemma RunInside(a: Re, s: seq<byte>, i: nat, n: nat)
    requires MaximalRun(a, s, i, n)
    ensures i + n <= |s|
  {
  }
}
