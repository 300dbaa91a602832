/**
  `regcomp` with its search hints, and `regexec` with the shortcuts they allow.

  Main results: a pattern compiles exactly when the grammar accepts it and its code is below 32767 bytes;
  and `RegExec` answers yes exactly when some stretch of the subject is denoted by the pattern, reporting
  the leftmost start and an end that goes with it, whichever of the three hints are present.
*/
module RegexExec {
  import opened Bytes
  import opened RegexSyntax
  import opened RegexCode
  import opened RegexEmit
  import opened RegexCompile
  import opened RegexCont
  import opened RegexStep
  import opened RegexMatch
  import Grammar = RegexGrammar

  // ----- What the hints mean -----

  /** Every match of `r` begins with byte `b`. */
  ghost predicate StartsWith(r: Re, b: byte) {
    forall s: seq<byte>, i: nat, j: nat :: Matches(r, s, i, j) ==> i < |s| && s[i] == b
  }

  /** Every match of `r` begins at the start of the subject. */
  ghost predicate Anchored(r: Re) {
    forall s: seq<byte>, i: nat, j: nat :: Matches(r, s, i, j) ==> i == 0
  }

  ghost predicate Occurs(str: seq<byte>, s: seq<byte>, i: nat, j: nat) {
    j <= |s| && exists x: nat :: i <= x && OccursAt(str, s, x) && x + |str| <= j
  }

  ghost predicate OccursAt(str: seq<byte>, s: seq<byte>, x: nat) {
    x + |str| <= |s| && s[x..x + |str|] == str
  }

  /** Every match of `r` contains `str`. */
  ghost predicate Mandatory(r: Re, str: seq<byte>) {
    forall s: seq<byte>, i: nat, j: nat :: Matches(r, s, i, j) ==> Occurs(str, s, i, j)
  }

  lemma OccursWiden(str: seq<byte>, s: seq<byte>, i: nat, j: nat, i': nat, j': nat)
    requires Occurs(str, s, i, j) && i' <= i && j <= j' <= |s|
    ensures Occurs(str, s, i', j')
  {
    var x: nat :| i <= x && OccursAt(str, s, x) && x + |str| <= j;
  }

  /** A program whose first node is EXACTLY only matches where the first byte of that string is. */
  lemma {:induction false} FirstExactly(c: seq<byte>, p: nat, r: Re, t: nat, s: seq<byte>, i: nat, j: nat)
    requires Code(c, p, r, t) && WellFormed(r) && p < |c| && c[p] == EXACTLY && Matches(r, s, i, j)
    ensures p + 3 < |c| && i < |s| && s[i] == c[p + 3]
    decreases r
  {
    hide GroupCode, SimpleCode, StarCode, OptCode, AltsSize, Leaf, Text;
    match r
    case Cat(a, b) =>
      var k := CatSplit(a, b, s, i, j);
      FirstExactly(c, p, a, p + Size(a), s, i, k);
    case Plus(a) =>
      if IsSimple(a) {
        RunShape(c, p, r, t);
      } else {
        var k := PlusSplit(a, s, i, j);
        FirstExactly(c, p, a, p + Size(a), s, i, k);
      }
    case Exactly(str) =>
      LeafText(c, p, r, t);
      TextAt(c, p + 3, str, 0);
      assert s[i..j][0] == s[i];
    case _ => RunShape(c, p, r, t);
  }

  lemma {:induction false} FirstBol(c: seq<byte>, p: nat, r: Re, t: nat, s: seq<byte>, i: nat, j: nat)
    requires Code(c, p, r, t) && WellFormed(r) && p < |c| && c[p] == BOL && Matches(r, s, i, j)
    ensures i == 0
    decreases r
  {
    hide Leaf, GroupCode, SimpleCode, StarCode, OptCode, AltsSize;
    match r
    case Cat(a, b) =>
      var k := CatSplit(a, b, s, i, j);
      FirstBol(c, p, a, p + Size(a), s, i, k);
    case Plus(a) =>
      if IsSimple(a) {
        RunShape(c, p, r, t);
      } else {
        var k := PlusSplit(a, s, i, j);
        FirstBol(c, p, a, p + Size(a), s, i, k);
      }
    case _ => RunShape(c, p, r, t);
  }

  // ----- The top-level chain -----

  /** An `Exactly(str)` whose node `q` lies on the next chain of the code of `r` at `p`. */
  ghost predicate OnSpine(p: nat, r: Re, q: nat, str: seq<byte>)
    decreases r
  {
    match r
    case Exactly(x) => q == p && str == x
    case Cat(a, b) => OnSpine(p, a, q, str) || OnSpine(p + Size(a), b, q, str)
    case Plus(a) => !IsSimple(a) && OnSpine(p, a, q, str)
    case _ => false
  }

  /** What is on the top-level chain is mandatory: that is why `regmust` may reject. */
  lemma {:induction false} SpineMandatory(p: nat, r: Re, q: nat, str: seq<byte>, s: seq<byte>, i: nat, j: nat)
    requires OnSpine(p, r, q, str) && Matches(r, s, i, j)
    ensures Occurs(str, s, i, j)
    decreases r
  {
    hide Occurs;
    MatchesBounds(r, s, i, j);
    match r
    case Exactly(x) => ExactlyOccurs(str, s, i, j);
    case Cat(a, b) =>
      var k := CatSplit(a, b, s, i, j);
      MatchesBounds(a, s, i, k);
      MatchesBounds(b, s, k, j);
      if OnSpine(p, a, q, str) {
        SpineMandatory(p, a, q, str, s, i, k);
        OccursWiden(str, s, i, k, i, j);
      } else {
        SpineMandatory(p + Size(a), b, q, str, s, k, j);
        OccursWiden(str, s, k, j, i, j);
      }
    case Plus(a) =>
      var k := PlusSplit(a, s, i, j);
      MatchesBounds(a, s, i, k);
      MatchesBounds(Star(a), s, k, j);
      SpineMandatory(p, a, q, str, s, i, k);
      OccursWiden(str, s, i, k, i, j);
  }

  lemma ExactlyOccurs(str: seq<byte>, s: seq<byte>, i: nat, j: nat)
    requires i <= j <= |s| && s[i..j] == str
    ensures Occurs(str, s, i, j)
  {
    assert OccursAt(str, s, i);
  }

  lemma {:induction false} ChainSplit(c: seq<byte>, p: nat, q: nat, m: nat)
    requires Chain(c, p, q) && Chain(c, p, m)
    ensures q <= m ==> Chain(c, q, m)
    ensures m <= q ==> Chain(c, m, q)
    decreases q + m - p
  {
    if p < q && p < m {
      ChainSplit(c, Next(c, p), q, m);
    }
  }

  /** Between the arms of alternatives a chain only meets BRANCH nodes. */
  lemma {:induction false} ArmsChainOps(c: seq<byte>, p: nat, r: Re, nt: nat, e: nat, lim: nat, q: nat)
    requires Alts(c, p, r, nt, e, lim) && nt >= p + AltsSize(r) && Chain(c, p, q) && q < p + AltsSize(r)
    ensures c[q] == BRANCH
    decreases r
  {
    hide Code, Size, Chain;
    ChainBounds(c, p, q);
    if r.Alt? {
      var m := p + AltsSize(r.left);
      if q < m {
        ArmsChainOps(c, p, r.left, m, e, lim, q);
      } else {
        AltsChain(c, p, r.left, m, e, lim);
        ChainExtend(c, p, LastArm(p, r.left), m);
        ChainSplit(c, p, q, m);
        NodeNext(c, m, BRANCH, nt);
        StuckAt(c, m, q, nt);
      }
    } else {
      NodeNext(c, p, BRANCH, nt);
      StuckAt(c, p, q, nt);
    }
  }

  lemma StuckAt(c: seq<byte>, m: nat, q: nat, nt: nat)
    requires Chain(c, m, q) && Next(c, m) == nt && q < nt
    ensures q == m
  {
  }

  /** An EXACTLY node on the chain of some code is on its spine. */
  lemma {:induction false} ChainExactly(c: seq<byte>, p: nat, r: Re, t: nat, q: nat) returns (str: seq<byte>)
    requires Code(c, p, r, t) && WellFormed(r) && Chain(c, p, q) && q <= Last(p, r) && c[q] == EXACTLY
    ensures OnSpine(p, r, q, str) && Text(c, q + 3, str) && str != [] && 0 !in str
    decreases r, 0
  {
    hide Text, Chain, Code, Size, Last, OnSpine, WellFormed;
    str := [];
    if r.Cat? {
      str := CatExactly(c, p, r, t, q);
    } else if r.Plus? && !IsSimple(r.rep) {
      str := PlusExactly(c, p, r, t, q);
    } else if r.Exactly? {
      ExactlySelf(c, p, r, t, q);
      str := r.str;
    } else {
      NoExactly(c, p, r, t, q);
    }
  }

  lemma ExactlySelf(c: seq<byte>, p: nat, r: Re, t: nat, q: nat)
    requires Code(c, p, r, t) && WellFormed(r) && Chain(c, p, q) && q <= Last(p, r) && r.Exactly?
    ensures OnSpine(p, r, q, r.str) && Text(c, q + 3, r.str) && r.str != [] && 0 !in r.str
  {
    hide Text, Chain, Leaf;
    OnlySelf(c, p, q);
    LeafText(c, p, r, t);
  }

  lemma LeafText(c: seq<byte>, p: nat, r: Re, t: nat)
    requires Leaf(c, p, r, t) && r.Exactly?
    ensures Text(c, p + 3, r.str)
  {
    hide Text;
  }

  /** The other trees have no EXACTLY node on their chain. */
  lemma NoExactly(c: seq<byte>, p: nat, r: Re, t: nat, q: nat)
    requires Code(c, p, r, t) && Chain(c, p, q) && q <= Last(p, r)
    requires !r.Cat? && !r.Exactly? && !(r.Plus? && !IsSimple(r.rep))
    ensures c[q] != EXACTLY
  {
    hide Text, Chain, Leaf, GroupCode, SimpleCode, StarCode, PlusCode, OptCode, AltsSize;
    match r
    case Plus(a) =>
      SimpleOp(c, p, PLUS, a, t);
      OnlySelf(c, p, q);
    case Group(no, a) => GroupExactly(c, p, no, a, t, q);
    case Star(a) =>
      if IsSimple(a) {
        SimpleOp(c, p, STAR, a, t);
        OnlySelf(c, p, q);
      } else {
        StarExactly(c, p, a, t, q);
      }
    case Opt(a) => OptExactly(c, p, a, t, q);
    case _ =>
      OnlySelf(c, p, q);
      OtherLeaf(c, p, r, t);
  }

  lemma OtherLeaf(c: seq<byte>, p: nat, r: Re, t: nat)
    requires Leaf(c, p, r, t) && !r.Exactly?
    ensures p < |c| && c[p] != EXACTLY
  {
    hide Text;
  }

  lemma {:induction false} CatExactly(c: seq<byte>, p: nat, r: Re, t: nat, q: nat) returns (str: seq<byte>)
    requires Code(c, p, r, t) && WellFormed(r) && Chain(c, p, q) && q <= Last(p, r) && c[q] == EXACTLY && r.Cat?
    ensures OnSpine(p, r, q, str) && Text(c, q + 3, str) && str != [] && 0 !in str
    decreases r, 0, 0
  {
    hide Code, Size, Text, Last, Chain, OnSpine, WellFormed;
    CatParts(c, p, r, t);
    CatWellFormed(r);
    LastOfCat(p, r);
    var m := p + Size(r.first);
    CodeChain(c, p, r.first, m);
    LastInside(p, r.first);
    if q <= Last(p, r.first) {
      str := ChainExactly(c, p, r.first, m, q);
    } else {
      ChainSplit(c, p, q, Last(p, r.first));
      PastLast(c, Last(p, r.first), q, m);
      str := ChainExactly(c, m, r.second, t, q);
    }
    CatSpine(p, r, q, str);
  }

  lemma CatWellFormed(r: Re)
    requires WellFormed(r) && r.Cat?
    ensures WellFormed(r.first) && WellFormed(r.second)
  {
    hide IsSimple;
  }

  lemma CatSpine(p: nat, r: Re, q: nat, str: seq<byte>)
    requires r.Cat? && (OnSpine(p, r.first, q, str) || OnSpine(p + Size(r.first), r.second, q, str))
    ensures OnSpine(p, r, q, str)
  {
    hide Size;
  }

  lemma SimpleOp(c: seq<byte>, p: nat, op: byte, a: Re, t: nat)
    requires SimpleCode(c, p, op, a, t)
    ensures p < |c| && c[p] == op
  {
  }

  lemma OnlySelf(c: seq<byte>, p: nat, q: nat)
    requires Chain(c, p, q) && q <= p
    ensures q == p
  {
  }

  lemma PastLast(c: seq<byte>, e: nat, q: nat, m: nat)
    requires Chain(c, e, q) && e < q && Next(c, e) == m
    ensures Chain(c, m, q)
  {
  }

  lemma {:induction false} PlusExactly(c: seq<byte>, p: nat, r: Re, t: nat, q: nat) returns (str: seq<byte>)
    requires Code(c, p, r, t) && WellFormed(r) && Chain(c, p, q) && q <= Last(p, r) && c[q] == EXACTLY
    requires r.Plus? && !IsSimple(r.rep)
    ensures OnSpine(p, r, q, str) && Text(c, q + 3, str) && str != [] && 0 !in str
    decreases r, 0, 0
  {
    hide Code, Size, Text, Last, Chain, OnSpine, WellFormed;
    var a := r.rep;
    PlusParts(c, p, r, t);
    var again, e := p + Size(a), Last(p, a);
    CodeChain(c, p, a, again);
    LastInside(p, a);
    ChainSplit(c, p, q, e);
    if q <= e {
      str := ChainExactly(c, p, a, again, q);
      PlusSpine(p, r, q, str);
    } else {
      PastLast(c, e, q, again);
      LoopTailOps(c, again, t, q);
    }
  }

  lemma PlusParts(c: seq<byte>, p: nat, r: Re, t: nat)
    requires Code(c, p, r, t) && WellFormed(r) && r.Plus? && !IsSimple(r.rep)
    ensures PlusCode(c, p, r.rep, t) && WellFormed(r.rep) && Last(p, r) == p + 9 + Size(r.rep)
  {
    hide AltsSize, Leaf, GroupCode, SimpleCode, StarCode, PlusCode, OptCode;
  }

  lemma PlusSpine(p: nat, r: Re, q: nat, str: seq<byte>)
    requires r.Plus? && !IsSimple(r.rep) && OnSpine(p, r.rep, q, str)
    ensures OnSpine(p, r, q, str)
  {
    hide Size;
  }

  /** The three chained nodes that follow the operand of `x+`. */
  lemma LoopTailOps(c: seq<byte>, again: nat, t: nat, q: nat)
    requires Node(c, again, BRANCH, again + 6) && Node(c, again + 6, BRANCH, again + 9) && Node(c, again + 9, NOTHING, t)
    requires Chain(c, again, q) && q <= again + 9
    ensures c[q] != EXACTLY
  {
    NodeNext(c, again, BRANCH, again + 6);
    NodeNext(c, again + 6, BRANCH, again + 9);
    NodeNext(c, again + 9, NOTHING, t);
    assert q == again || Chain(c, again + 6, q);
    assert q == again || q == again + 6 || Chain(c, again + 9, q);
  }

  lemma GroupExactly(c: seq<byte>, p: nat, no: nat, a: Re, t: nat, q: nat)
    requires GroupCode(c, p, no, a, t) && Chain(c, p, q) && q <= p + 3 + AltsSize(a)
    ensures c[q] != EXACTLY
  {
    hide Alts, AltsSize;
    var close := p + 3 + AltsSize(a);
    NodeNext(c, p, OPEN + no, p + 3);
    NodeNext(c, close, CLOSE + no, t);
    if q != p && q != close {
      assert Chain(c, p + 3, q);
      ArmsChainOps(c, p + 3, a, close, close, close, q);
    }
  }

  lemma StarExactly(c: seq<byte>, p: nat, a: Re, t: nat, q: nat)
    requires StarCode(c, p, a, t) && Chain(c, p, q) && q <= p + 9 + Size(a)
    ensures c[q] != EXACTLY
  {
    hide Code, Size;
    var back := p + 3 + Size(a);
    NodeNext(c, p, BRANCH, back + 3);
    NodeNext(c, back + 3, BRANCH, back + 6);
    NodeNext(c, back + 6, NOTHING, t);
    assert q == p || Chain(c, back + 3, q);
    assert q == p || q == back + 3 || Chain(c, back + 6, q);
  }

  lemma OptExactly(c: seq<byte>, p: nat, a: Re, t: nat, q: nat)
    requires OptCode(c, p, a, t) && Chain(c, p, q) && q <= p + 6 + Size(a)
    ensures c[q] != EXACTLY
  {
    hide Code, Size;
    var none := p + 3 + Size(a);
    NodeNext(c, p, BRANCH, none);
    NodeNext(c, none, BRANCH, none + 3);
    NodeNext(c, none + 3, NOTHING, t);
    assert q == p || Chain(c, none, q);
    assert q == p || q == none || Chain(c, none + 3, q);
  }

  // ----- Compiling -----

  /** A compiled expression.  Of the reported groups only number 0, the whole match, is kept. */
  class RegExp {
    var startp: int
    var endp: int
    var regstart: byte     // 0: none
    var reganch: bool
    var regmust: nat       // offset of the string in the program, 0: none
    var regmlen: nat
    var program: array<byte>

    constructor (program: array<byte>)
      ensures this.program == program && regstart == 0 && !reganch && regmust == 0 && regmlen == 0
    {
      this.program := program;
      startp, endp := -1, -1;
      regstart, reganch, regmust, regmlen := 0, false, 0, 0;
    }

    /** The program is the code of `r`, and the hints hold of every match of `r`. */
    ghost predicate Compiled(r: Re)
      reads this, program
    {
      && WellFormed(r) && Program(program[..], r)
      && (regstart != 0 ==> StartsWith(r, regstart))
      && (reganch ==> Anchored(r))
      && (regmust != 0 ==> MustHint(program[..], r, regmust, regmlen))
    }

    method SetHints(spStart: bool, ghost r: Re)
      requires WellFormed(r) && Program(program[..], r)
      requires regstart == 0 && !reganch && regmust == 0
      modifies this
      ensures program == old(program) && Compiled(r)
    {
      hide Alts, AltsSize, StartsWith, Anchored, Size, MustHint;
      ghost var c := program[..];
      ghost var end := 1 + AltsSize(r);
      var scan: nat := 1;
      TopFirst(c, r);
      if program[Next(program[..], scan)] != END {
        return;
      }
      OneBranch(c, r);
      scan := 4;
      if program[scan] == EXACTLY {
        StartHint(c, r);
        regstart := program[scan + 3];
      } else if program[scan] == BOL {
        AnchorHint(c, r);
        reganch := true;
      }
      if spStart {
        var longest: nat := 0;
        var len: nat := 0;
        ghost var start, anch := regstart, reganch;
        while true
          invariant regstart == start && reganch == anch && program == old(program) && program[..] == c && regmust == 0
          invariant OnTop(c, r, scan)
          invariant longest != 0 ==> MustHint(c, r, longest, len)
          decreases end - scan
        {
          OnTopNext(c, r, scan);
          if program[scan] == EXACTLY {
            ghost var str := OnTopExactly(c, r, scan);
            var n := StrLen(program[..], scan + 3, str);
            if n >= len {
              longest, len := scan + 3, n;
            }
          }
          var next := Next(program[..], scan);
          if next == 0 { break; }
          scan := next;
        }
        regmust := longest;
        regmlen := len;
      }
    }
  }

  /** The hint string of length `n` at `m` occurs in every match. */
  ghost predicate MustHint(c: seq<byte>, r: Re, m: nat, n: nat) {
    exists str: seq<byte> :: Text(c, m, str) && |str| == n && str != [] && 0 !in str && Mandatory(r, str)
  }

  /** Node `scan` is on the chain from the first node of the only branch to END. */
  ghost predicate OnTop(c: seq<byte>, r: Re, scan: nat) {
    && !r.Alt? && WellFormed(r) && Code(c, 4, r, 1 + AltsSize(r)) && Node(c, 1 + AltsSize(r), END, 0)
    && Chain(c, 4, scan) && Chain(c, scan, 1 + AltsSize(r))
  }

  lemma SoleArm(c: seq<byte>, p: nat, r: Re, nt: nat, e: nat, lim: nat)
    requires Alts(c, p, r, nt, e, lim) && !r.Alt?
    ensures Node(c, p, BRANCH, nt) && Code(c, p + 3, r, if p < lim then e else 0)
  {
    hide Code, Node;
  }

  lemma TopFirst(c: seq<byte>, r: Re)
    requires Program(c, r)
    ensures 4 <= |c| && 0 < Next(c, 1) < |c|
    ensures c[Next(c, 1)] == END <==> !r.Alt?
  {
    hide Alts, AltsSize;
    var end := 1 + AltsSize(r);
    AltsSizePositive(r);
    if r.Alt? {
      SecondArm(c, r, end);
    } else {
      SoleArm(c, 1, r, end, end, end);
      NodeNext(c, 1, BRANCH, end);
    }
  }

  lemma SecondArm(c: seq<byte>, r: Re, end: nat)
    requires r.Alt? && Alts(c, 1, r, end, end, end) && end == 1 + AltsSize(r) && end <= |c|
    ensures 0 < Next(c, 1) < |c| && c[Next(c, 1)] == BRANCH
  {
    hide Alts, AltsSize, Code, ArmAt, Size;
    var b := FirstArm(1, r);
    ArmOf(c, 1, r, end, end, 1, b);
    NodeNext(c, 1, BRANCH, 4 + Size(b));
    var b' := NextArm(1, r, 1, b);
    NotLastArm(1, r, b);
    ArmOf(c, 1, r, end, end, 4 + Size(b), b');
  }

  /** The first of several arms is not the last one. */
  lemma {:induction false} NotLastArm(p: nat, r: Re, b: Re)
    requires r.Alt? && ArmAt(p, r, p, b)
    ensures p + 3 + Size(b) < p + AltsSize(r)
  {
    AltsSizePositive(r.left);
    if ArmAt(p, r.left, p, b) {
      ArmInside(p, r.left, p, b);
    }
  }

  lemma OneBranch(c: seq<byte>, r: Re)
    requires Program(c, r) && WellFormed(r) && !r.Alt?
    ensures OnTop(c, r, 4) && 7 <= |c|
  {
    hide Code, Alts, Chain, WellFormed, Size, Last;
    var end := 1 + AltsSize(r);
    SizePositive(r);
    SoleArm(c, 1, r, end, end, end);
    CodeChain(c, 4, r, end);
    LastInside(4, r);
    ChainExtend(c, 4, Last(4, r), end);
    ChainRefl(c, 4);
  }

  lemma StartHint(c: seq<byte>, r: Re)
    requires OnTop(c, r, 4) && 7 < |c| && c[4] == EXACTLY
    ensures StartsWith(r, c[7])
  {
    hide Code, Matches;
    forall s: seq<byte>, i: nat, j: nat | Matches(r, s, i, j)
      ensures i < |s| && s[i] == c[7]
    {
      FirstExactly(c, 4, r, 1 + AltsSize(r), s, i, j);
    }
  }

  lemma AnchorHint(c: seq<byte>, r: Re)
    requires OnTop(c, r, 4) && 7 <= |c| && c[4] == BOL
    ensures Anchored(r)
  {
    hide Code, Matches;
    forall s: seq<byte>, i: nat, j: nat | Matches(r, s, i, j)
      ensures i == 0
    {
      FirstBol(c, 4, r, 1 + AltsSize(r), s, i, j);
    }
  }

  lemma OnTopNext(c: seq<byte>, r: Re, scan: nat)
    requires OnTop(c, r, scan)
    ensures scan + 3 <= |c| && scan <= 1 + AltsSize(r)
    ensures Next(c, scan) != 0 ==> scan < Next(c, scan) && OnTop(c, r, Next(c, scan))
  {
    hide Code, AltsSize;
    var end := 1 + AltsSize(r);
    NodeNext(c, end, END, 0);
    if Next(c, scan) != 0 {
      assert scan < end;
      ChainExtend(c, 4, scan, Next(c, scan));
    }
  }

  lemma OnTopExactly(c: seq<byte>, r: Re, scan: nat) returns (str: seq<byte>)
    requires OnTop(c, r, scan) && scan < |c| && c[scan] == EXACTLY
    ensures Text(c, scan + 3, str) && 0 !in str && MustHint(c, r, scan + 3, |str|)
  {
    hide Code, Matches, Text, OnSpine;
    var end := 1 + AltsSize(r);
    CodeChain(c, 4, r, end);
    LastInside(4, r);
    NodeNext(c, end, END, 0);
    ChainSplit(c, 4, scan, Last(4, r));
    assert scan <= Last(4, r);
    str := ChainExactly(c, 4, r, end, scan);
    forall s: seq<byte>, i: nat, j: nat | Matches(r, s, i, j)
      ensures Occurs(str, s, i, j)
    {
      SpineMandatory(4, r, scan, str, s, i, j);
    }
  }

  /** `regcomp`.  Null is a pattern that the grammar does not allow, or that is too long. */
  method RegComp(exp: seq<byte>) returns (r: RegExp?)
    requires NulFree(exp)
    ensures r != null <==> exists re :: Rule(exp, re)
    ensures r != null ==> fresh(r) && fresh(r.program) && forall re :: Rule(exp, re) ==> r.Compiled(re)
  {
    hide AltsSize, Parse, Rule;
    forall re
      ensures Rule(exp, re) <==> Parse(exp).Ok? && Parse(exp).re == re && AltsSize(re) + 4 < 32767
    {
      CompiledRules(exp, re);
    }
    r := CompileParsed(exp);
    assert r != null ==> Rule(exp, Parse(exp).re);
  }

  /** The two passes: what the parser accepts, if it is small enough, is compiled. */
  method CompileParsed(exp: seq<byte>) returns (r: RegExp?)
    requires NulFree(exp)
    ensures r != null <==> Parse(exp).Ok? && AltsSize(Parse(exp).re) + 4 < 32767
    ensures r != null ==> fresh(r) && fresh(r.program) && r.Compiled(Parse(exp).re)
  {
    hide AltsSize, Alts, EmittedTop;
    var g := new Compiler(exp);
    ghost var c0 := g.program[..];
    g.RegC(MAGIC);
    var ok, ret, flags := g.Reg(false);
    if !ok { return null; }
    ghost var re := Parse(exp).re;
    if g.regsize >= 32767 { return null; }
    assert g.regsize == AltsSize(re) + 4;

    g.program := new byte[g.regsize];
    g.regparse, g.regnpar, g.regcode, g.emitting := 0, 1, 0, true;
    ghost var blank := g.program[..];
    g.RegC(MAGIC);
    ghost var c1 := g.program[..];
    assert c1[0] == MAGIC;
    ok, ret, flags := g.Reg(false);
    TopIsProgram(c1, g.program[..], g.regcode, re);
    r := new RegExp(g.program);
    r.SetHints(flags.spStart, re);
  }

  lemma TopIsProgram(c1: seq<byte>, c: seq<byte>, end: nat, r: Re)
    requires EmittedTop(c1, 1, c, end, r) && |c| == AltsSize(r) + 4 && c1[0] == MAGIC
    ensures Program(c, r)
  {
  }

  // ----- Searching -----

  /** `strchr` from `i` on: the first place where `b` is, or -1. */
  method StrChrFrom(s: seq<byte>, i: nat, b: byte) returns (x: int)
    requires i <= |s|
    ensures x == -1 ==> forall m :: i <= m < |s| ==> s[m] != b
    ensures x != -1 ==> i <= x < |s| && s[x] == b && forall m :: i <= m < x ==> s[m] != b
  {
    x := i;
    while x < |s|
      invariant i <= x <= |s| && forall m :: i <= m < x ==> s[m] != b
    {
      if s[x] == b { return; }
      x := x + 1;
    }
    x := -1;
  }

  /** The `regmust` test: does the hint string occur anywhere? */
  method MustAppear(c: seq<byte>, m: nat, n: nat, s: seq<byte>, ghost str: seq<byte>) returns (found: bool)
    requires Text(c, m, str) && n == |str| && str != [] && 0 !in str
    ensures found <==> exists x: nat :: OccursAt(str, s, x)
  {
    TextAt(c, m, str, 0);
    var from := 0;
    while from <= |s|
      invariant 0 <= from <= |s| + 1
      invariant forall x: nat :: x < from ==> !OccursAt(str, s, x)
      decreases |s| + 1 - from
    {
      var x := StrChrFrom(s, from, c[m]);
      forall y: nat | from <= y && (x == -1 || y < x)
        ensures !OccursAt(str, s, y)
      {
        if y + |str| <= |s| { assert s[y..y + |str|][0] == s[y]; }
      }
      if x == -1 { return false; }
      var same := StrNEqual(c, m, s, x, n, str);
      if same {
        assert OccursAt(str, s, x);
        return true;
      }
      assert !OccursAt(str, s, x);
      from := x + 1;
    }
    forall y: nat
      ensures !OccursAt(str, s, y)
    {
    }
    return false;
  }

  /** Some stretch of `s` that starts at `i` is denoted by `r`. */
  ghost predicate MatchesFrom(r: Re, s: seq<byte>, i: nat) {
    exists j: nat :: Matches(r, s, i, j)
  }

  /** `i` is the leftmost place where `r` matches in `s`, and `j` an end of a match there. */
  ghost predicate Leftmost(r: Re, s: seq<byte>, i: nat, j: nat) {
    Matches(r, s, i, j) && forall k: nat :: k < i ==> !MatchesFrom(r, s, k)
  }

  /** `regtry`: match at one place. */
  method RegTry(g: Matcher, prog: RegExp, i: nat, ghost r: Re) returns (ok: bool)
    requires prog.Compiled(r) && g.program == prog.program[..] && NulFree(g.str) && i <= |g.str|
    modifies g, prog`startp, prog`endp
    ensures ok <==> MatchesFrom(r, g.str, i)
    ensures ok ==> prog.startp == i && prog.endp >= 0 && Matches(r, g.str, i, prog.endp)
  {
    hide Alts, Matches, AltsSize, Mandatory, StartsWith, Anchored;
    g.reginput := i;
    prog.startp, prog.endp := -1, -1;
    ghost var k := Pend(Arms, r, 1 + AltsSize(r), Done);
    StartReady(g.program, g.str, r, i);
    ok := g.RegMatch(1, k);
    if ok {
      StartEnds(r, 1 + AltsSize(r), g.str, i, g.reginput);
      prog.startp := i;
      prog.endp := g.reginput;
    } else {
      forall j: nat
        ensures !Matches(r, g.str, i, j)
      {
        StartEnds(r, 1 + AltsSize(r), g.str, i, j);
      }
    }
  }

  lemma StartReady(c: seq<byte>, s: seq<byte>, r: Re, i: nat)
    requires Program(c, r) && WellFormed(r) && i <= |s|
    ensures Ready(c, s, 1, Pend(Arms, r, 1 + AltsSize(r), Done), i)
  {
    hide Alts, AltsSize;
    var t := 1 + AltsSize(r);
    assert Located(c, t, Done);
    assert HeadAt(c, 1, Arms, r, t);
    assert Progress(Done, i, HasWidth(r));
  }

  lemma StartEnds(r: Re, t: nat, s: seq<byte>, i: nat, j: nat)
    ensures Denotes(Pend(Arms, r, t, Done), s, i, j) <==> Matches(r, s, i, j)
  {
    var k := Pend(Arms, r, t, Done);
    if Denotes(k, s, i, j) {
      var m := DenotesSplit(k, s, i, j);
    }
    if Matches(r, s, i, j) {
      DenotesJoin(Arms, r, t, Done, s, i, j, j);
    }
  }

  /** `regexec`. */
  method RegExec(prog: RegExp, str: seq<byte>, ghost r: Re) returns (ok: bool)
    requires prog.Compiled(r) && NulFree(str)
    modifies prog`startp, prog`endp
    ensures ok <==> exists i: nat, j: nat :: Matches(r, str, i, j)
    ensures ok ==> prog.startp >= 0 && prog.endp >= 0 && Leftmost(r, str, prog.startp, prog.endp)
    ensures prog.Compiled(r)
  {
    hide Program, Matches, WellFormed, Mandatory, StartsWith, Anchored;
    ProgramMagic(prog.program[..], r);
    if prog.program[0] != MAGIC {
      return false;
    }
    if prog.regmust != 0 {
      ghost var must: seq<byte> :|
        Text(prog.program[..], prog.regmust, must) && |must| == prog.regmlen && must != [] && 0 !in must && Mandatory(r, must);
      var found := MustAppear(prog.program[..], prog.regmust, prog.regmlen, str, must);
      if !found {
        NoMust(r, must, str);
        return false;
      }
    }
    var g := new Matcher(prog.program[..], str, 0);
    if prog.reganch {
      ok := RegTry(g, prog, 0, r);
      AnchoredOnly(r, str);
      return;
    }
    if prog.regstart != 0 {
      ok := SearchByte(g, prog, r);
    } else {
      ok := SearchAll(g, prog, r);
    }
  }

  /** The general search: every place from the left, the end of the subject included. */
  method SearchAll(g: Matcher, prog: RegExp, ghost r: Re) returns (ok: bool)
    requires prog.Compiled(r) && g.program == prog.program[..] && NulFree(g.str)
    modifies g, prog`startp, prog`endp
    ensures ok <==> exists i: nat, j: nat :: Matches(r, g.str, i, j)
    ensures ok ==> prog.startp >= 0 && prog.endp >= 0 && Leftmost(r, g.str, prog.startp, prog.endp)
    ensures prog.Compiled(r)
  {
    hide Program, Matches, WellFormed, Mandatory, StartsWith, Anchored;
    var s := 0;
    while true
      invariant 0 <= s <= |g.str| && prog.Compiled(r) && g.program == prog.program[..]
      invariant forall k: nat :: k < s ==> !MatchesFrom(r, g.str, k)
      decreases |g.str| - s
    {
      ok := RegTry(g, prog, s, r);
      if ok { return; }
      if s == |g.str| { break; }
      s := s + 1;
    }
    NoneFrom(r, g.str);
    return false;
  }

  /** The search when the first byte is known: only places where that byte is. */
  method SearchByte(g: Matcher, prog: RegExp, ghost r: Re) returns (ok: bool)
    requires prog.Compiled(r) && g.program == prog.program[..] && NulFree(g.str) && prog.regstart != 0
    modifies g, prog`startp, prog`endp
    ensures ok <==> exists i: nat, j: nat :: Matches(r, g.str, i, j)
    ensures ok ==> prog.startp >= 0 && prog.endp >= 0 && Leftmost(r, g.str, prog.startp, prog.endp)
    ensures prog.Compiled(r)
  {
    hide Program, Matches, WellFormed, Mandatory, StartsWith, Anchored;
    var from := 0;
    while true
      invariant 0 <= from <= |g.str| && prog.Compiled(r) && g.program == prog.program[..] && prog.regstart != 0
      invariant forall k: nat :: k < from ==> !MatchesFrom(r, g.str, k)
      decreases |g.str| - from
    {
      var s := StrChrFrom(g.str, from, prog.regstart);
      forall k: nat | from <= k <= |g.str| && (s == -1 || k < s)
        ensures !MatchesFrom(r, g.str, k)
      {
        WrongByte(r, prog.regstart, g.str, k);
      }
      if s == -1 { break; }
      ok := RegTry(g, prog, s, r);
      if ok { return; }
      from := s + 1;
    }
    NoneFrom(r, g.str);
    return false;
  }

  lemma ProgramMagic(c: seq<byte>, r: Re)
    requires Program(c, r)
    ensures |c| > 0 && c[0] == MAGIC
  {
    AltsSizePositive(r);
  }

  lemma NoMust(r: Re, must: seq<byte>, s: seq<byte>)
    requires Mandatory(r, must) && forall x: nat :: !OccursAt(must, s, x)
    ensures !exists i: nat, j: nat :: Matches(r, s, i, j)
  {
    hide Matches;
    forall i: nat, j: nat
      ensures !Matches(r, s, i, j)
    {
      assert Matches(r, s, i, j) ==> Occurs(must, s, i, j);
    }
  }

  lemma AnchoredOnly(r: Re, s: seq<byte>)
    requires Anchored(r)
    ensures (exists i: nat, j: nat :: Matches(r, s, i, j)) <==> MatchesFrom(r, s, 0)
  {
    hide Matches;
    if exists i: nat, j: nat :: Matches(r, s, i, j) {
      var i: nat, j: nat :| Matches(r, s, i, j);
      assert Matches(r, s, 0, j);
    }
  }

  lemma WrongByte(r: Re, b: byte, s: seq<byte>, k: nat)
    requires StartsWith(r, b) && k <= |s| && (k < |s| ==> s[k] != b)
    ensures !MatchesFrom(r, s, k)
  {
    hide Matches;
    forall j: nat
      ensures !Matches(r, s, k, j)
    {
    }
  }

  lemma NoneFrom(r: Re, s: seq<byte>)
    requires forall k: nat :: k <= |s| ==> !MatchesFrom(r, s, k)
    ensures !exists i: nat, j: nat :: Matches(r, s, i, j)
  {
    forall i: nat, j: nat
      ensures !Matches(r, s, i, j)
    {
      if Matches(r, s, i, j) {
        MatchesBounds(r, s, i, j);
        assert MatchesFrom(r, s, i);
      }
    }
  }

  /** `pattern` is written for a tree `re`, by the grammar, whose code is small enough. */
  ghost predicate Rule(pattern: seq<byte>, re: Re) {
    AltsSize(re) + 4 < 32767 && exists m :: Grammar.Derives(pattern, re, m)
  }

  /** What compiles is what the grammar allows, as the tree it gives. */
  lemma CompiledRules(pattern: seq<byte>, re: Re)
    requires NulFree(pattern)
    ensures Rule(pattern, re) <==> Parse(pattern).Ok? && Parse(pattern).re == re && AltsSize(re) + 4 < 32767
  {
    hide AltsSize, Parse, Grammar.Derives;
    Grammar.AcceptedIffDerived(pattern);
  }

  /** The wildcard test of an access rule: the pattern is one of the grammar, small enough, and its tree matches part of the
      object's name. */
  method WildcardMatches(pattern: seq<byte>, name: seq<byte>) returns (hit: bool)
    requires NulFree(pattern) && NulFree(name)
    ensures hit <==> exists re, i: nat, j: nat :: Rule(pattern, re) && Matches(re, name, i, j)
  {
    hide AltsSize, Parse, Rule, Matches;
    forall re
      ensures Rule(pattern, re) <==> Parse(pattern).Ok? && Parse(pattern).re == re && AltsSize(re) + 4 < 32767
    {
      CompiledRules(pattern, re);
    }
    var r := RegComp(pattern);
    if r == null { return false; }
    hit := RegExec(r, name, Parse(pattern).re);
  }
}
