/**
  The linear node programs of `regexp.c`.

  A node is an opcode byte and a two-byte next offset, most significant byte first, then an operand.
  `Code(c, p, r, t)` says that the bytes of `c` from `p` on are the nodes of tree `r`, internally
  linked, with every dangling next pointer aimed at `t` (0 is the null pointer: byte 0 holds the
  magic number, never a node).  The lemmas say how relocation and tail patching act on that relation.
*/
module RegexCode {
  import opened Bytes
  import opened RegexSyntax

  const MAGIC: byte := 0x9C

  const END: byte := 0
  const BOL: byte := 1
  const EOL: byte := 2
  const ANY: byte := 3
  const ANYOF: byte := 4
  const ANYBUT: byte := 5
  const BRANCH: byte := 6
  const BACK: byte := 7
  const EXACTLY: byte := 8
  const NOTHING: byte := 9
  const STAR: byte := 10
  const PLUS: byte := 11
  const OPEN: byte := 20
  const CLOSE: byte := 30

  /** The next field of node `p`. */
  function Offset(c: seq<byte>, p: nat): nat
    requires p + 3 <= |c|
  {
    c[p + 1] as int * 256 + c[p + 2] as int
  }

  /** The node that node `p` points at, or 0. */
  function Next(c: seq<byte>, p: nat): int
    requires p + 3 <= |c|
  {
    if Offset(c, p) == 0 then 0 else if c[p] == BACK then p - Offset(c, p) else p + Offset(c, p)
  }

  /** Node `p` has opcode `op` and points at `t`; only BACK points backward. */
  ghost predicate Node(c: seq<byte>, p: nat, op: byte, t: nat) {
    && p + 3 <= |c| && c[p] == op
    && if t == 0 then Offset(c, p) == 0
       else Offset(c, p) > 0 && Offset(c, p) == if op == BACK then p - t else t - p
  }

  /** `n` bytes of `c` at `p` and of `d` at `q` are the same. */
  ghost predicate Same(c: seq<byte>, p: nat, d: seq<byte>, q: nat, n: nat)
    decreases n
  {
    && p + n <= |c| && q + n <= |d|
    && (n > 0 ==> c[p] == d[q] && Same(c, p + 1, d, q + 1, n - 1))
  }

  lemma {:induction false} SameIntro(c: seq<byte>, p: nat, d: seq<byte>, q: nat, n: nat)
    requires p + n <= |c| && q + n <= |d| && c[p..p + n] == d[q..q + n]
    ensures Same(c, p, d, q, n)
    decreases n
  {
    if n > 0 {
      assert c[p] == c[p..p + n][0] && d[q] == d[q..q + n][0];
      assert c[p + 1..p + n] == c[p..p + n][1..] && d[q + 1..q + n] == d[q..q + n][1..];
      SameIntro(c, p + 1, d, q + 1, n - 1);
    }
  }

  lemma {:induction false} SameElim(c: seq<byte>, p: nat, d: seq<byte>, q: nat, n: nat)
    requires Same(c, p, d, q, n)
    ensures c[p..p + n] == d[q..q + n]
    decreases n
  {
    if n > 0 {
      SameElim(c, p + 1, d, q + 1, n - 1);
      assert c[p..p + n] == [c[p]] + c[p + 1..p + n] && d[q..q + n] == [d[q]] + d[q + 1..q + n];
    }
  }

  lemma {:induction false} SamePart(c: seq<byte>, p: nat, d: seq<byte>, q: nat, n: nat, k: nat, m: nat)
    requires Same(c, p, d, q, n) && k + m <= n
    ensures Same(c, p + k, d, q + k, m)
    decreases n
  {
    if k > 0 {
      SamePart(c, p + 1, d, q + 1, n - 1, k - 1, m);
    } else if m > 0 {
      SamePart(c, p + 1, d, q + 1, n - 1, 0, m - 1);
    }
  }

  lemma {:induction false} SameTrans(c: seq<byte>, p: nat, d: seq<byte>, q: nat, e: seq<byte>, o: nat, n: nat)
    requires Same(c, p, d, q, n) && Same(d, q, e, o, n)
    ensures Same(c, p, e, o, n)
    decreases n
  {
    if n > 0 {
      SameTrans(c, p + 1, d, q + 1, e, o + 1, n - 1);
    }
  }

  lemma {:induction false} SameSym(c: seq<byte>, p: nat, d: seq<byte>, q: nat, n: nat)
    requires Same(c, p, d, q, n)
    ensures Same(d, q, c, p, n)
    decreases n
  {
    if n > 0 {
      SameSym(c, p + 1, d, q + 1, n - 1);
    }
  }

  /** A NUL-terminated operand at `p`. */
  ghost predicate Text(c: seq<byte>, p: nat, str: seq<byte>) {
    p + |str| < |c| && Same(c, p, str, 0, |str|) && c[p + |str|] == 0
  }

  // ----- Layout -----

  /** Bytes of code for a piece or a branch body. */
  function Size(r: Re): nat
    decreases r, 0
  {
    match r
    case Set(_, chars) => 4 + |chars|
    case Exactly(str) => 4 + |str|
    case Cat(a, b) => Size(a) + Size(b)
    case Group(_, a) => 6 + AltsSize(a)
    case Star(a) => if IsSimple(a) then 3 + Size(a) else 12 + Size(a)
    case Plus(a) => if IsSimple(a) then 3 + Size(a) else 12 + Size(a)
    case Opt(a) => 9 + Size(a)
    case _ => 3
  }

  /** Bytes of code for alternatives: one BRANCH node and a body each. */
  function AltsSize(r: Re): nat
    decreases r, 1
  {
    match r
    case Alt(a, b) => AltsSize(a) + 3 + Size(b)
    case _ => 3 + Size(r)
  }

  ghost predicate Code(c: seq<byte>, p: nat, r: Re, t: nat)
    decreases r, 0
  {
    && p + Size(r) <= |c|
    && match r
       case Cat(a, b) => Code(c, p, a, p + Size(a)) && Code(c, p + Size(a), b, t)
       case Alt(_, _) => false
       case Group(no, a) => GroupCode(c, p, no, a, t)
       case Star(a) => if IsSimple(a) then SimpleCode(c, p, STAR, a, t) else StarCode(c, p, a, t)
       case Plus(a) => if IsSimple(a) then SimpleCode(c, p, PLUS, a, t) else PlusCode(c, p, a, t)
       case Opt(a) => OptCode(c, p, a, t)
       case _ => Leaf(c, p, r, t)
  }

  /** The opcode of a tree that takes a single node. */
  function LeafOp(r: Re): byte {
    match r
    case Bol => BOL
    case Eol => EOL
    case Any => ANY
    case Set(negated, _) => if negated then ANYBUT else ANYOF
    case Exactly(_) => EXACTLY
    case _ => NOTHING
  }

  ghost predicate Leaf(c: seq<byte>, p: nat, r: Re, t: nat) {
    && Node(c, p, LeafOp(r), t)
    && (r.Set? ==> Text(c, p + 3, r.chars))
    && (r.Exactly? ==> Text(c, p + 3, r.str))
  }

  /** OPEN, the alternatives, CLOSE. */
  ghost predicate GroupCode(c: seq<byte>, p: nat, no: nat, a: Re, t: nat)
    decreases a, 3
  {
    var close := p + 3 + AltsSize(a);
    && 1 <= no < NSUBEXP
    && Node(c, p, OPEN + no, p + 3)
    && Alts(c, p + 3, a, close, close, close)
    && Node(c, close, CLOSE + no, t)
  }

  /** STAR or PLUS with a one-byte operand, which keeps its null next pointer. */
  ghost predicate SimpleCode(c: seq<byte>, p: nat, op: byte, a: Re, t: nat)
    decreases a, 3
  {
    Node(c, p, op, t) && Code(c, p + 3, a, 0)
  }

  /** `x*` as the loop `(x&|)`, where & goes back to the first BRANCH. */
  ghost predicate StarCode(c: seq<byte>, p: nat, a: Re, t: nat)
    decreases a, 3
  {
    var back := p + 3 + Size(a);
    && Node(c, p, BRANCH, back + 3)
    && Code(c, p + 3, a, back)
    && Node(c, back, BACK, p)
    && Node(c, back + 3, BRANCH, back + 6)
    && Node(c, back + 6, NOTHING, t)
  }

  /** `x+` as the loop `x(&|)`, where & goes back to x. */
  ghost predicate PlusCode(c: seq<byte>, p: nat, a: Re, t: nat)
    decreases a, 3
  {
    var again := p + Size(a);
    && Code(c, p, a, again)
    && Node(c, again, BRANCH, again + 6)
    && Node(c, again + 3, BACK, p)
    && Node(c, again + 6, BRANCH, again + 9)
    && Node(c, again + 9, NOTHING, t)
  }

  /** `x?` as `(x|)`. */
  ghost predicate OptCode(c: seq<byte>, p: nat, a: Re, t: nat)
    decreases a, 3
  {
    var none := p + 3 + Size(a);
    && Node(c, p, BRANCH, none)
    && Code(c, p + 3, a, none + 3)
    && Node(c, none, BRANCH, none + 3)
    && Node(c, none + 3, NOTHING, t)
  }

  /** One alternative: its BRANCH node points at `nt`; its body is hooked to `e` if it lies below `lim`. */
  ghost predicate Arm(c: seq<byte>, p: nat, b: Re, nt: nat, e: nat, lim: nat)
    decreases b, 1
  {
    && Node(c, p, BRANCH, nt)
    && Code(c, p + 3, b, if p < lim then e else 0)
  }

  /** Alternatives at `p`, their BRANCH nodes chained, the last one pointing at `nt`. */
  ghost predicate Alts(c: seq<byte>, p: nat, r: Re, nt: nat, e: nat, lim: nat)
    decreases r, 2
  {
    match r
    case Alt(a, b) => Alts(c, p, a, p + AltsSize(a), e, lim) && Arm(c, p + AltsSize(a), b, nt, e, lim)
    case _ => Arm(c, p, r, nt, e, lim)
  }

  /** A finished program for `r`. */
  ghost predicate Program(c: seq<byte>, r: Re) {
    var end := 1 + AltsSize(r);
    && |c| == end + 3
    && c[0] == MAGIC
    && Alts(c, 1, r, end, end, end)
    && Node(c, end, END, 0)
  }

  lemma {:induction false} SizePositive(r: Re)
    ensures Size(r) >= 3
    decreases r
  {
    match r
    case Cat(a, b) => SizePositive(a);
    case Alt(a, b) => SizePositive(b);
    case _ =>
  }

  lemma AltsSizePositive(r: Re)
    ensures AltsSize(r) >= 6
    decreases r
  {
    match r
    case Alt(a, b) => AltsSizePositive(a);
    case _ => SizePositive(r);
  }

  // ----- Relocation -----

  /** Target `t` is to position `p` what target `u` is to position `q`. */
  ghost predicate SameTarget(p: nat, t: nat, q: nat, u: nat) {
    (t == 0 && u == 0) || (t != 0 && u != 0 && t - p == u - q)
  }

  lemma MoveNode(c: seq<byte>, p: nat, d: seq<byte>, q: nat, n: nat, k: nat, op: byte, t: nat, u: nat)
    requires Same(c, p, d, q, n) && k + 3 <= n
    requires Node(c, p + k, op, t) && SameTarget(p, t, q, u) && p > 0 && q > 0
    ensures Node(d, q + k, op, u)
  {
    SamePart(c, p, d, q, n, k, 3);
    assert Same(c, p + k + 1, d, q + k + 1, 2);
    assert Same(c, p + k + 2, d, q + k + 2, 1);
  }

  lemma MoveText(c: seq<byte>, p: nat, d: seq<byte>, q: nat, n: nat, str: seq<byte>)
    requires Same(c, p, d, q, n) && n == 4 + |str| && Text(c, p + 3, str)
    ensures Text(d, q + 3, str)
  {
    SamePart(c, p, d, q, n, 3, |str|);
    SamePart(c, p, d, q, n, 3 + |str|, 1);
    SameSym(c, p + 3, d, q + 3, |str|);
    SameTrans(d, q + 3, c, p + 3, str, 0, |str|);
  }

  /** Code is position independent. */
  lemma {:induction false} Relocate(c: seq<byte>, p: nat, d: seq<byte>, q: nat, r: Re, t: nat, u: nat)
    requires Code(c, p, r, t) && Same(c, p, d, q, Size(r)) && SameTarget(p, t, q, u)
    requires p > 0 && q > 0
    ensures Code(d, q, r, u)
    decreases r, 0
  {
    hide Leaf, GroupCode, SimpleCode, StarCode, PlusCode, OptCode;
    match r
    case Cat(a, b) => RelocateCat(c, p, d, q, a, b, t, u);
    case Group(no, a) => RelocateGroup(c, p, d, q, no, a, t, u);
    case Star(a) =>
      if IsSimple(a) { RelocateSimple(c, p, d, q, STAR, a, t, u); } else { RelocateStar(c, p, d, q, a, t, u); }
    case Plus(a) =>
      if IsSimple(a) { RelocateSimple(c, p, d, q, PLUS, a, t, u); } else { RelocatePlus(c, p, d, q, a, t, u); }
    case Opt(a) => RelocateOpt(c, p, d, q, a, t, u);
    case _ => RelocateLeaf(c, p, d, q, r, t, u);
  }

  lemma {:induction false} RelocateCat(c: seq<byte>, p: nat, d: seq<byte>, q: nat, a: Re, b: Re, t: nat, u: nat)
    requires Code(c, p, a, p + Size(a)) && Code(c, p + Size(a), b, t)
    requires Same(c, p, d, q, Size(a) + Size(b)) && SameTarget(p, t, q, u)
    requires p > 0 && q > 0
    ensures Code(d, q, a, q + Size(a)) && Code(d, q + Size(a), b, u)
    decreases Cat(a, b), 0, 0
  {
    hide Code, Same, Size;
    SamePart(c, p, d, q, Size(a) + Size(b), 0, Size(a));
    SamePart(c, p, d, q, Size(a) + Size(b), Size(a), Size(b));
    Relocate(c, p, d, q, a, p + Size(a), q + Size(a));
    Relocate(c, p + Size(a), d, q + Size(a), b, t, u);
  }

  lemma RelocateLeaf(c: seq<byte>, p: nat, d: seq<byte>, q: nat, r: Re, t: nat, u: nat)
    requires Leaf(c, p, r, t) && Same(c, p, d, q, Size(r)) && SameTarget(p, t, q, u)
    requires p > 0 && q > 0 && ((Level(r) == 0 && !r.Group?) || r == Empty)
    ensures Leaf(d, q, r, u)
  {
    hide Node, Same, Text;
    MoveNode(c, p, d, q, Size(r), 0, LeafOp(r), t, u);
    if r.Set? { MoveText(c, p, d, q, Size(r), r.chars); }
    if r.Exactly? { MoveText(c, p, d, q, Size(r), r.str); }
  }

  lemma {:induction false} RelocateGroup(c: seq<byte>, p: nat, d: seq<byte>, q: nat, no: nat, a: Re, t: nat, u: nat)
    requires GroupCode(c, p, no, a, t) && Same(c, p, d, q, 6 + AltsSize(a)) && SameTarget(p, t, q, u)
    requires p > 0 && q > 0
    ensures GroupCode(d, q, no, a, u)
    decreases a, 3
  {
    hide Code, Alts, Size, AltsSize, Node, Same;
    var n, m := 6 + AltsSize(a), 3 + AltsSize(a);
    MoveNode(c, p, d, q, n, 0, OPEN + no, p + 3, q + 3);
    SamePart(c, p, d, q, n, 3, AltsSize(a));
    RelocateAlts(c, p + 3, d, q + 3, a, p + m, q + m, p + m, q + m, p + m, q + m);
    MoveNode(c, p, d, q, n, m, CLOSE + no, t, u);
  }

  lemma {:induction false} RelocateSimple(c: seq<byte>, p: nat, d: seq<byte>, q: nat, op: byte, a: Re, t: nat, u: nat)
    requires SimpleCode(c, p, op, a, t) && Same(c, p, d, q, 3 + Size(a)) && SameTarget(p, t, q, u)
    requires p > 0 && q > 0 && op != BACK
    ensures SimpleCode(d, q, op, a, u)
    decreases a, 3
  {
    hide Code, Size, Node, Same;
    SamePart(c, p, d, q, 3 + Size(a), 3, Size(a));
    MoveNode(c, p, d, q, 3 + Size(a), 0, op, t, u);
    Relocate(c, p + 3, d, q + 3, a, 0, 0);
  }

  lemma {:induction false} RelocateStar(c: seq<byte>, p: nat, d: seq<byte>, q: nat, a: Re, t: nat, u: nat)
    requires StarCode(c, p, a, t) && Same(c, p, d, q, 12 + Size(a)) && SameTarget(p, t, q, u)
    requires p > 0 && q > 0
    ensures StarCode(d, q, a, u)
    decreases a, 3
  {
    hide Code, Size, Node, Same;
    var n, m := 12 + Size(a), 3 + Size(a);
    SamePart(c, p, d, q, n, 3, Size(a));
    MoveNode(c, p, d, q, n, 0, BRANCH, p + m + 3, q + m + 3);
    Relocate(c, p + 3, d, q + 3, a, p + m, q + m);
    MoveNode(c, p, d, q, n, m, BACK, p, q);
    MoveNode(c, p, d, q, n, m + 3, BRANCH, p + m + 6, q + m + 6);
    MoveNode(c, p, d, q, n, m + 6, NOTHING, t, u);
  }

  lemma {:induction false} RelocatePlus(c: seq<byte>, p: nat, d: seq<byte>, q: nat, a: Re, t: nat, u: nat)
    requires PlusCode(c, p, a, t) && Same(c, p, d, q, 12 + Size(a)) && SameTarget(p, t, q, u)
    requires p > 0 && q > 0
    ensures PlusCode(d, q, a, u)
    decreases a, 3
  {
    hide Code, Size, Node, Same;
    var n, m := 12 + Size(a), Size(a);
    SamePart(c, p, d, q, n, 0, m);
    Relocate(c, p, d, q, a, p + m, q + m);
    MoveNode(c, p, d, q, n, m, BRANCH, p + m + 6, q + m + 6);
    MoveNode(c, p, d, q, n, m + 3, BACK, p, q);
    MoveNode(c, p, d, q, n, m + 6, BRANCH, p + m + 9, q + m + 9);
    MoveNode(c, p, d, q, n, m + 9, NOTHING, t, u);
  }

  lemma {:induction false} RelocateOpt(c: seq<byte>, p: nat, d: seq<byte>, q: nat, a: Re, t: nat, u: nat)
    requires OptCode(c, p, a, t) && Same(c, p, d, q, 9 + Size(a)) && SameTarget(p, t, q, u)
    requires p > 0 && q > 0
    ensures OptCode(d, q, a, u)
    decreases a, 3
  {
    hide Code, Size, Node, Same;
    var n, m := 9 + Size(a), 3 + Size(a);
    MoveNode(c, p, d, q, n, 0, BRANCH, p + m, q + m);
    SamePart(c, p, d, q, n, 3, Size(a));
    Relocate(c, p + 3, d, q + 3, a, p + m + 3, q + m + 3);
    MoveNode(c, p, d, q, n, m, BRANCH, p + m + 3, q + m + 3);
    MoveNode(c, p, d, q, n, m + 3, NOTHING, t, u);
  }

  lemma {:induction false} RelocateArm(c: seq<byte>, p: nat, d: seq<byte>, q: nat, b: Re,
                                       nt: nat, nu: nat, e: nat, f: nat, lim: nat, mil: nat)
    requires Arm(c, p, b, nt, e, lim) && Same(c, p, d, q, 3 + Size(b))
    requires SameTarget(p, nt, q, nu) && SameTarget(p, e, q, f) && lim - p == mil - q
    requires p > 0 && q > 0
    ensures Arm(d, q, b, nu, f, mil)
    decreases b, 1
  {
    hide Code, Size, Node, Same;
    MoveNode(c, p, d, q, 3 + Size(b), 0, BRANCH, nt, nu);
    SamePart(c, p, d, q, 3 + Size(b), 3, Size(b));
    Relocate(c, p + 3, d, q + 3, b, if p < lim then e else 0, if q < mil then f else 0);
  }

  lemma {:induction false} RelocateAlts(c: seq<byte>, p: nat, d: seq<byte>, q: nat, r: Re,
                                        nt: nat, nu: nat, e: nat, f: nat, lim: nat, mil: nat)
    requires Alts(c, p, r, nt, e, lim) && Same(c, p, d, q, AltsSize(r))
    requires SameTarget(p, nt, q, nu) && SameTarget(p, e, q, f) && lim - p == mil - q
    requires p > 0 && q > 0
    ensures Alts(d, q, r, nu, f, mil)
    decreases r, 2
  {
    hide Code, Arm, Node, Same, Size;
    match r
    case Alt(a, b) =>
      var m := AltsSize(a);
      SamePart(c, p, d, q, AltsSize(r), 0, m);
      SamePart(c, p, d, q, AltsSize(r), m, 3 + Size(b));
      RelocateAlts(c, p, d, q, a, p + m, q + m, e, f, lim, mil);
      RelocateArm(c, p + m, d, q + m, b, nt, nu, e, f, lim, mil);
    case _ =>
      RelocateArm(c, p, d, q, r, nt, nu, e, f, lim, mil);
  }

  /** Code only depends on its own bytes. */
  lemma CodeFrame(c: seq<byte>, d: seq<byte>, p: nat, r: Re, t: nat)
    requires Code(c, p, r, t) && Same(c, p, d, p, Size(r)) && p > 0
    ensures Code(d, p, r, t)
  {
    hide Code, Same, Size;
    Relocate(c, p, d, p, r, t, t);
  }

  lemma AltsFrame(c: seq<byte>, d: seq<byte>, p: nat, r: Re, nt: nat, e: nat, lim: nat)
    requires Alts(c, p, r, nt, e, lim) && Same(c, p, d, p, AltsSize(r)) && p > 0
    ensures Alts(d, p, r, nt, e, lim)
  {
    hide Alts, Same, AltsSize;
    RelocateAlts(c, p, d, p, r, nt, nt, e, e, lim, lim);
  }

  // ----- Chains and tails -----

  /** Following next pointers from `p`, always forward, leads to `e`. */
  ghost predicate Chain(c: seq<byte>, p: nat, e: nat)
    decreases e - p
  {
    && p <= e && e + 3 <= |c|
    && (p < e ==> p < Next(c, p) <= e && Chain(c, Next(c, p), e))
  }

  lemma {:induction false} ChainExtend(c: seq<byte>, p: nat, e: nat, f: nat)
    requires Chain(c, p, e) && Next(c, e) == f && e < f && f + 3 <= |c|
    ensures Chain(c, p, f)
    decreases e - p
  {
    if p == e {
      assert Chain(c, f, f);
    } else {
      ChainExtend(c, Next(c, p), e, f);
    }
  }

  lemma {:induction false} ChainJoin(c: seq<byte>, p: nat, m: nat, e: nat)
    requires Chain(c, p, m) && Chain(c, m, e)
    ensures Chain(c, p, e)
    decreases m - p
  {
    if p < m {
      ChainJoin(c, Next(c, p), m, e);
    }
  }

  lemma {:induction false} ChainFrame(c: seq<byte>, d: seq<byte>, p: nat, e: nat, n: nat)
    requires Chain(c, p, e) && Same(c, p, d, p, n) && e + 3 <= p + n
    ensures Chain(d, p, e)
    decreases e - p
  {
    if p < e {
      var q := Next(c, p);
      SamePart(c, p, d, p, n, 0, 3);
      assert Same(c, p + 1, d, p + 1, 2) && Same(c, p + 2, d, p + 2, 1);
      SamePart(c, p, d, p, n, q - p, n - (q - p));
      ChainFrame(c, d, q, e, n - (q - p));
    }
  }

  /** The last node of the chain that starts where the code of `r` starts: the one that holds the tail. */
  function Last(p: nat, r: Re): nat
    decreases r
  {
    match r
    case Cat(a, b) => Last(p + Size(a), b)
    case Group(_, a) => p + 3 + AltsSize(a)
    case Star(a) => if IsSimple(a) then p else p + 9 + Size(a)
    case Plus(a) => if IsSimple(a) then p else p + 9 + Size(a)
    case Opt(a) => p + 6 + Size(a)
    case _ => p
  }

  function LastArm(p: nat, r: Re): nat {
    if r.Alt? then p + AltsSize(r.left) else p
  }

  lemma {:induction false} LastInside(p: nat, r: Re)
    ensures p <= Last(p, r) && Last(p, r) + 3 <= p + Size(r)
    decreases r
  {
    hide Last, Size;
    if r.Cat? {
      LastInside(p + Size(r.first), r.second);
      LastOfCat(p, r);
    } else {
      LastInsideOne(p, r);
    }
  }

  lemma LastOfCat(p: nat, r: Re)
    requires r.Cat?
    ensures Last(p, r) == Last(p + Size(r.first), r.second) && Size(r) == Size(r.first) + Size(r.second)
  {
    hide AltsSize, IsSimple;
    var a, b := r.first, r.second;
    assert r == Cat(a, b);
  }

  lemma LastInsideOne(p: nat, r: Re)
    requires !r.Cat?
    ensures p <= Last(p, r) && Last(p, r) + 3 <= p + Size(r)
  {
    hide AltsSize, IsSimple;
  }

  lemma ChainStep(c: seq<byte>, p: nat, q: nat, e: nat)
    requires p + 3 <= |c| && Next(c, p) == q && p < q && Chain(c, q, e)
    ensures Chain(c, p, e)
  {
  }

  /** The chain of some code ends at `Last`, whose next pointer is the tail. */
  lemma {:induction false} CodeChain(c: seq<byte>, p: nat, r: Re, t: nat)
    requires Code(c, p, r, t)
    ensures Chain(c, p, Last(p, r)) && Next(c, Last(p, r)) == t && c[Last(p, r)] != BACK
    decreases r, 0
  {
    hide Chain, Leaf, GroupCode, SimpleCode, StarCode, PlusCode, OptCode;
    match r
    case Cat(a, b) =>
      CodeChain(c, p, a, p + Size(a));
      CodeChain(c, p + Size(a), b, t);
      CatChain(c, p, a, b);
    case Group(no, a) => GroupChain(c, p, no, a, t);
    case Star(a) =>
      if IsSimple(a) { SimpleChain(c, p, STAR, a, t); } else { StarChain(c, p, a, t); }
    case Plus(a) =>
      if IsSimple(a) { SimpleChain(c, p, PLUS, a, t); } else { PlusChain(c, p, a, t); }
    case Opt(a) => OptChain(c, p, a, t);
    case _ => LeafChain(c, p, r, t);
  }

  lemma CatChain(c: seq<byte>, p: nat, a: Re, b: Re)
    requires Chain(c, p, Last(p, a)) && Next(c, Last(p, a)) == p + Size(a)
    requires Chain(c, p + Size(a), Last(p + Size(a), b))
    ensures Chain(c, p, Last(p + Size(a), b))
  {
    hide Size, Last;
    LastInside(p, a);
    LastInside(p + Size(a), b);
    ChainExtend(c, p, Last(p, a), p + Size(a));
    ChainJoin(c, p, p + Size(a), Last(p + Size(a), b));
  }

  lemma LeafChain(c: seq<byte>, p: nat, r: Re, t: nat)
    requires Leaf(c, p, r, t)
    ensures Chain(c, p, p) && Next(c, p) == t && c[p] != BACK
  {
    hide Text;
  }

  lemma SimpleChain(c: seq<byte>, p: nat, op: byte, a: Re, t: nat)
    requires SimpleCode(c, p, op, a, t) && op != BACK
    ensures Chain(c, p, p) && Next(c, p) == t && c[p] != BACK
  {
    hide Code;
  }

  lemma ChainRefl(c: seq<byte>, p: nat)
    requires p + 3 <= |c|
    ensures Chain(c, p, p)
  {
  }

  lemma {:induction false} GroupChain(c: seq<byte>, p: nat, no: nat, a: Re, t: nat)
    requires GroupCode(c, p, no, a, t)
    ensures Chain(c, p, p + 3 + AltsSize(a)) && Next(c, p + 3 + AltsSize(a)) == t && c[p + 3 + AltsSize(a)] != BACK
    decreases a, 3
  {
    hide Alts, AltsSize, Chain;
    var close := p + 3 + AltsSize(a);
    AltsChain(c, p + 3, a, close, close, close);
    ChainExtend(c, p + 3, LastArm(p + 3, a), close);
    ChainStep(c, p, p + 3, close);
  }

  lemma {:induction false} StarChain(c: seq<byte>, p: nat, a: Re, t: nat)
    requires StarCode(c, p, a, t)
    ensures Chain(c, p, p + 9 + Size(a)) && Next(c, p + 9 + Size(a)) == t && c[p + 9 + Size(a)] != BACK
  {
    hide Code, Size, Chain;
    var back := p + 3 + Size(a);
    ChainRefl(c, back + 6);
    ChainStep(c, back + 3, back + 6, back + 6);
    ChainStep(c, p, back + 3, back + 6);
  }

  lemma {:induction false} PlusChain(c: seq<byte>, p: nat, a: Re, t: nat)
    requires PlusCode(c, p, a, t)
    ensures Chain(c, p, p + 9 + Size(a)) && Next(c, p + 9 + Size(a)) == t && c[p + 9 + Size(a)] != BACK
    decreases a, 3
  {
    hide Code, Size, Chain;
    var again := p + Size(a);
    CodeChain(c, p, a, again);
    LastInside(p, a);
    ChainExtend(c, p, Last(p, a), again);
    ChainRefl(c, again + 9);
    ChainStep(c, again + 6, again + 9, again + 9);
    ChainStep(c, again, again + 6, again + 9);
    ChainJoin(c, p, again, again + 9);
  }

  lemma {:induction false} OptChain(c: seq<byte>, p: nat, a: Re, t: nat)
    requires OptCode(c, p, a, t)
    ensures Chain(c, p, p + 6 + Size(a)) && Next(c, p + 6 + Size(a)) == t && c[p + 6 + Size(a)] != BACK
  {
    hide Code, Size, Chain;
    var none := p + 3 + Size(a);
    ChainRefl(c, none + 3);
    ChainStep(c, none, none + 3, none + 3);
    ChainStep(c, p, none, none + 3);
  }

  lemma NodeNext(c: seq<byte>, p: nat, op: byte, t: nat)
    requires Node(c, p, op, t)
    ensures p + 3 <= |c| && c[p] == op && Next(c, p) == t
  {
  }

  /** The BRANCH nodes of alternatives form a chain from the first to the last. */
  lemma {:induction false} AltsChain(c: seq<byte>, p: nat, r: Re, nt: nat, e: nat, lim: nat)
    requires Alts(c, p, r, nt, e, lim)
    ensures Chain(c, p, LastArm(p, r)) && Next(c, LastArm(p, r)) == nt && c[LastArm(p, r)] == BRANCH
    ensures LastArm(p, r) < p + AltsSize(r)
    decreases r, 1
  {
    hide Code, Size;
    match r
    case Alt(a, b) =>
      var m := p + AltsSize(a);
      AltsChain(c, p, a, m, e, lim);
      ChainExtend(c, p, LastArm(p, a), m);
    case _ =>
  }

  /** Writes `val`, relative to node `e`, into the next field of node `e`. */
  function Patch(c: seq<byte>, e: nat, val: nat): (d: seq<byte>)
    requires e + 3 <= |c|
    ensures |d| == |c|
  {
    var offset := if c[e] == BACK then e - val else val - e;
    c[e + 1 := (offset / 256) % 256][e + 2 := offset % 256]
  }

  /** Two bytes are enough for any offset below 65536: the patched pointer reads back as written. */
  lemma PatchNode(c: seq<byte>, e: nat, val: nat)
    requires e + 3 <= |c| && val > 0
    requires 0 < (if c[e] == BACK then e - val else val - e) < 65536
    ensures Node(Patch(c, e, val), e, c[e], val)
  {
    var offset := if c[e] == BACK then e - val else val - e;
    assert (offset / 256) % 256 == offset / 256;
    assert offset / 256 * 256 + offset % 256 == offset;
  }

  lemma PatchSame(c: seq<byte>, e: nat, val: nat, p: nat, n: nat)
    requires e + 3 <= |c| && p + n <= |c|
    requires e + 3 <= p || p + n <= e
    ensures Same(c, p, Patch(c, e, val), p, n)
  {
    assert c[p..p + n] == Patch(c, e, val)[p..p + n];
    SameIntro(c, p, Patch(c, e, val), p, n);
  }

  lemma PatchOther(c: seq<byte>, e: nat, val: nat, p: nat, op: byte, t: nat)
    requires e + 3 <= |c| && Node(c, p, op, t)
    requires e + 3 <= p || p + 3 <= e
    ensures Node(Patch(c, e, val), p, op, t)
  {
  }

  lemma PatchText(c: seq<byte>, e: nat, val: nat, str: seq<byte>)
    requires e + 3 <= |c| && Text(c, e + 3, str)
    ensures Text(Patch(c, e, val), e + 3, str)
  {
    PatchSame(c, e, val, e + 3, |str|);
    SameSym(c, e + 3, Patch(c, e, val), e + 3, |str|);
    SameTrans(Patch(c, e, val), e + 3, c, e + 3, str, 0, |str|);
  }

  /** Patching the last node of some code aims all its dangling pointers at `val` and changes nothing else. */
  lemma {:induction false} SetTail(c: seq<byte>, p: nat, r: Re, e: nat, val: nat)
    requires Code(c, p, r, 0) && p > 0 && e == Last(p, r)
    requires e < val < e + 65536
    ensures e + 3 <= |c|
    ensures Code(Patch(c, e, val), p, r, val)
    decreases r, 0
  {
    hide Patch, Code, Size, Last;
    LastInside(p, r);
    CodeBounds(c, p, r, 0);
    if r.Cat? {
      CatParts(c, p, r, 0);
      LastOfCat(p, r);
      SetCatTail(c, p, r.first, r.second, e, val);
      assert r == Cat(r.first, r.second);
    } else {
      SetOneTail(c, p, r, e, val);
    }
  }

  lemma CatParts(c: seq<byte>, p: nat, r: Re, t: nat)
    requires Code(c, p, r, t) && r.Cat?
    ensures Code(c, p, r.first, p + Size(r.first)) && Code(c, p + Size(r.first), r.second, t)
  {
    hide AltsSize, IsSimple, Leaf, GroupCode, SimpleCode, StarCode, PlusCode, OptCode;
  }

  lemma SetOneTail(c: seq<byte>, p: nat, r: Re, e: nat, val: nat)
    requires Code(c, p, r, 0) && p > 0 && e == Last(p, r) && !r.Cat?
    requires e < val < e + 65536 && e + 3 <= |c|
    ensures Code(Patch(c, e, val), p, r, val)
  {
    hide Patch, Code, Last, Size;
    if r.Group? {
      SetGroupCase(c, p, r, e, val);
    } else if r.Star? {
      SetStarCase(c, p, r, e, val);
    } else if r.Plus? {
      SetPlusCase(c, p, r, e, val);
    } else if r.Opt? {
      SetOptCase(c, p, r, e, val);
    } else {
      SetLeafCase(c, p, r, e, val);
    }
  }

  lemma SetGroupCase(c: seq<byte>, p: nat, r: Re, e: nat, val: nat)
    requires Code(c, p, r, 0) && p > 0 && e == Last(p, r) && r.Group?
    requires e < val < e + 65536 && e + 3 <= |c|
    ensures Code(Patch(c, e, val), p, r, val)
  {
    hide Patch, Leaf, GroupCode, SimpleCode, StarCode, PlusCode, OptCode, AltsSize;
    SetGroupTail(c, p, r.no, r.body, val);
  }

  lemma SetStarCase(c: seq<byte>, p: nat, r: Re, e: nat, val: nat)
    requires Code(c, p, r, 0) && p > 0 && e == Last(p, r) && r.Star?
    requires e < val < e + 65536 && e + 3 <= |c|
    ensures Code(Patch(c, e, val), p, r, val)
  {
    hide Patch, Leaf, GroupCode, SimpleCode, StarCode, PlusCode, OptCode, AltsSize;
    if IsSimple(r.rep) { SetSimpleTail(c, p, STAR, r.rep, val); } else { SetStarTail(c, p, r.rep, val); }
  }

  lemma SetPlusCase(c: seq<byte>, p: nat, r: Re, e: nat, val: nat)
    requires Code(c, p, r, 0) && p > 0 && e == Last(p, r) && r.Plus?
    requires e < val < e + 65536 && e + 3 <= |c|
    ensures Code(Patch(c, e, val), p, r, val)
  {
    hide Patch, Leaf, GroupCode, SimpleCode, StarCode, PlusCode, OptCode, AltsSize;
    if IsSimple(r.rep) { SetSimpleTail(c, p, PLUS, r.rep, val); } else { SetPlusTail(c, p, r.rep, val); }
  }

  lemma SetOptCase(c: seq<byte>, p: nat, r: Re, e: nat, val: nat)
    requires Code(c, p, r, 0) && p > 0 && e == Last(p, r) && r.Opt?
    requires e < val < e + 65536 && e + 3 <= |c|
    ensures Code(Patch(c, e, val), p, r, val)
  {
    hide Patch, Leaf, GroupCode, SimpleCode, StarCode, PlusCode, OptCode, AltsSize;
    SetOptTail(c, p, r.rep, val);
  }

  lemma SetLeafCase(c: seq<byte>, p: nat, r: Re, e: nat, val: nat)
    requires Code(c, p, r, 0) && p > 0 && e == Last(p, r) && !r.Cat? && !r.Group? && !r.Star? && !r.Plus? && !r.Opt?
    requires e < val < e + 65536 && e + 3 <= |c|
    ensures Code(Patch(c, e, val), p, r, val)
  {
    hide Patch, Leaf, GroupCode, SimpleCode, StarCode, PlusCode, OptCode, AltsSize;
    SetLeafTail(c, p, r, val);
  }

  lemma CatIntro(c: seq<byte>, p: nat, a: Re, b: Re, t: nat)
    requires Code(c, p, a, p + Size(a)) && Code(c, p + Size(a), b, t)
    ensures Code(c, p, Cat(a, b), t)
  {
    hide Leaf, GroupCode, SimpleCode, StarCode, PlusCode, OptCode;
  }

  lemma {:induction false} SetCatTail(c: seq<byte>, p: nat, a: Re, b: Re, e: nat, val: nat)
    requires Code(c, p, a, p + Size(a)) && Code(c, p + Size(a), b, 0)
    requires p > 0 && e == Last(p + Size(a), b)
    requires e < val < e + 65536
    ensures e + 3 <= |c|
    ensures Code(Patch(c, e, val), p, Cat(a, b), val)
    decreases Cat(a, b), 0, 0
  {
    hide Patch, Code, Size, Last;
    CodeBounds(c, p + Size(a), b, 0);
    SetTail(c, p + Size(a), b, e, val);
    CatFrame(c, p, a, b, val);
    CatIntro(Patch(c, e, val), p, a, b, val);
  }

  lemma CatFrame(c: seq<byte>, p: nat, a: Re, b: Re, val: nat)
    requires Code(c, p, a, p + Size(a)) && p > 0 && p + Size(a) + Size(b) <= |c|
    ensures Last(p + Size(a), b) + 3 <= |c|
    ensures Code(Patch(c, Last(p + Size(a), b), val), p, a, p + Size(a))
  {
    hide Code, Size, Last, Patch, Same;
    LastInside(p + Size(a), b);
    var e := Last(p + Size(a), b);
    PatchSame(c, e, val, p, Size(a));
    CodeFrame(c, Patch(c, e, val), p, a, p + Size(a));
  }

  lemma SetLeafTail(c: seq<byte>, p: nat, r: Re, val: nat)
    requires Leaf(c, p, r, 0) && p > 0
    requires p < val < p + 65536
    ensures Leaf(Patch(c, p, val), p, r, val)
  {
    hide Text, Patch;
    PatchNode(c, p, val);
    if r.Set? { PatchText(c, p, val, r.chars); }
    if r.Exactly? { PatchText(c, p, val, r.str); }
  }

  lemma SetGroupTail(c: seq<byte>, p: nat, no: nat, a: Re, val: nat)
    requires GroupCode(c, p, no, a, 0) && p > 0
    requires p + 3 + AltsSize(a) < val < p + 3 + AltsSize(a) + 65536
    requires p + 6 + AltsSize(a) <= |c|
    ensures GroupCode(Patch(c, p + 3 + AltsSize(a), val), p, no, a, val)
  {
    hide Same, Alts, AltsSize, Patch;
    var e := p + 3 + AltsSize(a);
    PatchNode(c, e, val);
    PatchOther(c, e, val, p, OPEN + no, p + 3);
    PatchSame(c, e, val, p + 3, AltsSize(a));
    AltsFrame(c, Patch(c, e, val), p + 3, a, e, e, e);
  }

  lemma SetSimpleTail(c: seq<byte>, p: nat, op: byte, a: Re, val: nat)
    requires SimpleCode(c, p, op, a, 0) && p > 0 && op != BACK
    requires p < val < p + 65536 && p + 3 + Size(a) <= |c|
    ensures SimpleCode(Patch(c, p, val), p, op, a, val)
  {
    hide Same, Code, Size, Patch;
    PatchNode(c, p, val);
    PatchSame(c, p, val, p + 3, Size(a));
    CodeFrame(c, Patch(c, p, val), p + 3, a, 0);
  }

  lemma SetStarTail(c: seq<byte>, p: nat, a: Re, val: nat)
    requires StarCode(c, p, a, 0) && p > 0
    requires p + 9 + Size(a) < val < p + 9 + Size(a) + 65536 && p + 12 + Size(a) <= |c|
    ensures StarCode(Patch(c, p + 9 + Size(a), val), p, a, val)
  {
    hide Same, Code, Size, Patch;
    var back := p + 3 + Size(a);
    var e := back + 6;
    PatchNode(c, e, val);
    PatchOther(c, e, val, p, BRANCH, back + 3);
    PatchSame(c, e, val, p + 3, Size(a));
    CodeFrame(c, Patch(c, e, val), p + 3, a, back);
    PatchOther(c, e, val, back, BACK, p);
    PatchOther(c, e, val, back + 3, BRANCH, back + 6);
  }

  lemma SetPlusTail(c: seq<byte>, p: nat, a: Re, val: nat)
    requires PlusCode(c, p, a, 0) && p > 0
    requires p + 9 + Size(a) < val < p + 9 + Size(a) + 65536 && p + 12 + Size(a) <= |c|
    ensures PlusCode(Patch(c, p + 9 + Size(a), val), p, a, val)
  {
    hide Same, Code, Size, Patch;
    var again := p + Size(a);
    var e := again + 9;
    PatchNode(c, e, val);
    PatchSame(c, e, val, p, Size(a));
    CodeFrame(c, Patch(c, e, val), p, a, again);
    PatchOther(c, e, val, again, BRANCH, again + 6);
    PatchOther(c, e, val, again + 3, BACK, p);
    PatchOther(c, e, val, again + 6, BRANCH, again + 9);
  }

  lemma SetOptTail(c: seq<byte>, p: nat, a: Re, val: nat)
    requires OptCode(c, p, a, 0) && p > 0
    requires p + 6 + Size(a) < val < p + 6 + Size(a) + 65536 && p + 9 + Size(a) <= |c|
    ensures OptCode(Patch(c, p + 6 + Size(a), val), p, a, val)
  {
    hide Same, Code, Size, Patch;
    var none := p + 3 + Size(a);
    var e := none + 3;
    PatchNode(c, e, val);
    PatchOther(c, e, val, p, BRANCH, none);
    PatchSame(c, e, val, p + 3, Size(a));
    CodeFrame(c, Patch(c, e, val), p + 3, a, none + 3);
    PatchOther(c, e, val, none, BRANCH, none + 3);
  }

  /** Patching the last BRANCH of alternatives chains them on to `val`. */
  lemma SetAltsTail(c: seq<byte>, p: nat, r: Re, e: nat, lim: nat, val: nat)
    requires Alts(c, p, r, 0, e, lim) && p > 0
    requires LastArm(p, r) < val < LastArm(p, r) + 65536
    ensures LastArm(p, r) + 3 <= |c|
    ensures Alts(Patch(c, LastArm(p, r), val), p, r, val, e, lim)
  {
    hide Arm, Patch, Same;
    AltsChain(c, p, r, 0, e, lim);
    var x := LastArm(p, r);
    if r.Alt? {
      SetArmTail(c, x, r.right, e, lim, val);
      AltsBounds(c, p, r.left, x, e, lim);
      PatchSame(c, x, val, p, AltsSize(r.left));
      AltsFrame(c, Patch(c, x, val), p, r.left, x, e, lim);
    } else {
      SetArmTail(c, x, r, e, lim, val);
    }
  }

  lemma SetArmTail(c: seq<byte>, x: nat, b: Re, e: nat, lim: nat, val: nat)
    requires Arm(c, x, b, 0, e, lim) && x > 0 && x < val < x + 65536
    ensures x + 3 <= |c|
    ensures Arm(Patch(c, x, val), x, b, val, e, lim)
  {
    hide Patch, Same, Size;
    PatchNode(c, x, val);
    CodeBounds(c, x + 3, b, if x < lim then e else 0);
    PatchSame(c, x, val, x + 3, Size(b));
    CodeFrame(c, Patch(c, x, val), x + 3, b, if x < lim then e else 0);
  }

  lemma CodeBounds(c: seq<byte>, p: nat, r: Re, t: nat)
    requires Code(c, p, r, t)
    ensures p + Size(r) <= |c|
  {
  }

  lemma {:induction false} AltsBounds(c: seq<byte>, p: nat, r: Re, nt: nat, e: nat, lim: nat)
    requires Alts(c, p, r, nt, e, lim)
    ensures p + AltsSize(r) <= |c|
  {
    hide Node;
    var x := if r.Alt? then p + AltsSize(r.left) else p;
    CodeBounds(c, x + 3, if r.Alt? then r.right else r, if x < lim then e else 0);
  }

  // ----- Hooking branch bodies to the node after the alternatives -----

  /** Alternative `b` of `r` starts at `x`. */
  ghost predicate ArmAt(p: nat, r: Re, x: nat, b: Re) {
    match r
    case Alt(a, b') => ArmAt(p, a, x, b) || (x == p + AltsSize(a) && b == b')
    case _ => x == p && b == r
  }

  lemma {:induction false} ArmInside(p: nat, r: Re, x: nat, b: Re)
    requires ArmAt(p, r, x, b)
    ensures p <= x && x + 3 + Size(b) <= p + AltsSize(r)
  {
    match r
    case Alt(a, b') => if ArmAt(p, a, x, b) { ArmInside(p, a, x, b); }
    case _ =>
  }

  lemma {:induction false} FirstArm(p: nat, r: Re) returns (b: Re)
    ensures ArmAt(p, r, p, b)
  {
    match r
    case Alt(a, _) => b := FirstArm(p, a);
    case _ => b := r;
  }

  /** After one alternative comes the next one, or the end. */
  lemma {:induction false} NextArm(p: nat, r: Re, x: nat, b: Re) returns (b': Re)
    requires ArmAt(p, r, x, b)
    ensures x + 3 + Size(b) == p + AltsSize(r) || ArmAt(p, r, x + 3 + Size(b), b')
  {
    match r
    case Alt(a, c) =>
      if ArmAt(p, a, x, b) {
        b' := NextArm(p, a, x, b);
        if x + 3 + Size(b) == p + AltsSize(a) { b' := c; }
      } else {
        b' := c;
      }
    case _ => b' := r;
  }

  lemma {:induction false} ArmOf(c: seq<byte>, p: nat, r: Re, e: nat, lim: nat, x: nat, b: Re)
    requires Alts(c, p, r, p + AltsSize(r), e, lim) && ArmAt(p, r, x, b)
    ensures Arm(c, x, b, x + 3 + Size(b), e, lim)
  {
    hide Code, Node, Size;
    match r
    case Alt(a, b') => if ArmAt(p, a, x, b) { ArmOf(c, p, a, e, lim, x, b); }
    case _ =>
  }

  /** Moving the limit over arms that lie on the same side of both limits changes nothing. */
  lemma {:induction false} MoveLimit(c: seq<byte>, p: nat, r: Re, nt: nat, e: nat, lim: nat, mil: nat)
    requires Alts(c, p, r, nt, e, lim) && lim <= mil
    requires p + AltsSize(r) <= lim || mil <= p
    ensures Alts(c, p, r, nt, e, mil)
  {
    hide Code, Node, Size;
    match r
    case Alt(a, b) => MoveLimit(c, p, a, p + AltsSize(a), e, lim, mil);
    case _ =>
  }

  /** The last arm of `Alt(a, b')` after patching inside an earlier arm. */
  lemma LaterArmFrame(c: seq<byte>, m: nat, b: Re, nt: nat, e: nat, lim: nat, mil: nat, z: nat)
    requires Arm(c, m, b, nt, e, lim) && m > 0 && z + 3 <= m && lim <= mil <= m
    ensures z + 3 <= |c|
    ensures Arm(Patch(c, z, e), m, b, nt, e, mil)
  {
    hide Patch, Same, Code, Size;
    CodeBounds(c, m + 3, b, if m < lim then e else 0);
    PatchSame(c, z, e, m, 3 + Size(b));
    RelocateArm(c, m, Patch(c, z, e), m, b, nt, nt, e, e, lim, lim);
  }

  lemma HookLastArm(c: seq<byte>, x: nat, b: Re, nt: nat, e: nat)
    requires Arm(c, x, b, nt, e, x) && x > 0 && x + 3 + Size(b) <= e < x + 65536
    ensures Last(x + 3, b) + 3 <= |c|
    ensures Arm(Patch(c, Last(x + 3, b), e), x, b, nt, e, x + 3 + Size(b))
  {
    hide Patch, Code, Size, Last;
    LastInside(x + 3, b);
    SetTail(c, x + 3, b, Last(x + 3, b), e);
    PatchOther(c, Last(x + 3, b), e, x, BRANCH, nt);
  }

  lemma EarlierAltsFrame(c: seq<byte>, p: nat, a: Re, nt: nat, e: nat, lim: nat, mil: nat, z: nat)
    requires Alts(c, p, a, nt, e, lim) && p > 0 && p + AltsSize(a) <= z && z + 3 <= |c|
    requires p + AltsSize(a) <= lim <= mil
    ensures Alts(Patch(c, z, e), p, a, nt, e, mil)
  {
    hide Patch, Same, Alts, AltsSize;
    PatchSame(c, z, e, p, AltsSize(a));
    AltsFrame(c, Patch(c, z, e), p, a, nt, e, lim);
    MoveLimit(Patch(c, z, e), p, a, nt, e, lim, mil);
  }

  /** One step of the hooking loop: the body of the arm at `x` gets its tail, so the limit moves past it. */
  lemma {:induction false} HookArm(c: seq<byte>, p: nat, r: Re, nt: nat, e: nat, x: nat, b: Re)
    requires Alts(c, p, r, nt, e, x) && ArmAt(p, r, x, b) && p > 0
    requires p + AltsSize(r) <= e < x + 65536
    ensures p <= x && Last(x + 3, b) + 3 <= |c|
    ensures Alts(Patch(c, Last(x + 3, b), e), p, r, nt, e, x + 3 + Size(b))
    decreases r
  {
    hide Patch, Arm, Size, Last;
    ArmInside(p, r, x, b);
    LastInside(x + 3, b);
    match r
    case Alt(a, b') =>
      var m := p + AltsSize(a);
      if ArmAt(p, a, x, b) {
        ArmInside(p, a, x, b);
        HookArm(c, p, a, m, e, x, b);
        LaterArmFrame(c, m, b', nt, e, x, x + 3 + Size(b), Last(x + 3, b));
      } else {
        HookLastArm(c, x, b, nt, e);
        EarlierAltsFrame(c, p, a, m, e, x, x + 3 + Size(b), Last(x + 3, b));
      }
    case _ =>
      HookLastArm(c, x, b, nt, e);
  }
}
