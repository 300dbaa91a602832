/**
  How the code generator's edits of the program build the code of each construct.

  The generator only ever writes a fresh node (`Put`), shifts the last operand up to make room for a node
  (`Insert`) and patches a next field (`Patch`).  For each construct a lemma follows the exact sequence of
  edits the compiler makes, and says which chain each tail-setting call walks and what code results.
*/
module RegexEmit {
  import opened Bytes
  import opened RegexSyntax
  import opened RegexCode

  function Put(c: seq<byte>, at: nat, bs: seq<byte>): (d: seq<byte>)
    requires at + |bs| <= |c|
    ensures |d| == |c|
  {
    c[..at] + bs + c[at + |bs|..]
  }

  function FreshNode(op: byte): seq<byte> { [op, 0, 0] }

  /** Moves `c[at..end]` up by three and writes a fresh node in front of it. */
  function Insert(c: seq<byte>, end: nat, at: nat, op: byte): (d: seq<byte>)
    requires at <= end && end + 3 <= |c|
    ensures |d| == |c|
  {
    c[..at] + FreshNode(op) + c[at..end] + c[end + 3..]
  }

  // ----- Edits of one node leave all else alone -----

  /** `d` is `c` except perhaps in the three bytes at `x`. */
  ghost predicate Edit(c: seq<byte>, d: seq<byte>, x: nat) {
    && |d| == |c| && x + 3 <= |c|
    && Same(c, 0, d, 0, x) && Same(c, x + 3, d, x + 3, |c| - x - 3)
  }

  lemma EditSame(c: seq<byte>, d: seq<byte>, x: nat, p: nat, n: nat)
    requires Edit(c, d, x) && p + n <= |c| && (x + 3 <= p || p + n <= x)
    ensures Same(c, p, d, p, n)
  {
    hide Same;
    if x + 3 <= p {
      SamePart(c, x + 3, d, x + 3, |c| - x - 3, p - x - 3, n);
    } else {
      SamePart(c, 0, d, 0, x, p, n);
    }
  }

  lemma PutEdit(c: seq<byte>, x: nat, op: byte)
    requires x + 3 <= |c|
    ensures Edit(c, Put(c, x, FreshNode(op)), x)
    ensures Node(Put(c, x, FreshNode(op)), x, op, 0)
  {
    hide Same;
    var d := Put(c, x, FreshNode(op));
    SameIntro(c, 0, d, 0, x);
    SameIntro(c, x + 3, d, x + 3, |c| - x - 3);
  }

  lemma PatchEdit(c: seq<byte>, x: nat, val: nat)
    requires x + 3 <= |c|
    ensures Edit(c, Patch(c, x, val), x)
    ensures Patch(c, x, val)[x] == c[x]
  {
    hide Same;
    var d := Patch(c, x, val);
    SameIntro(c, 0, d, 0, x);
    SameIntro(c, x + 3, d, x + 3, |c| - x - 3);
  }

  /** A node keeps its opcode and target through an edit elsewhere. */
  lemma KeepNode(c: seq<byte>, d: seq<byte>, x: nat, p: nat, op: byte, t: nat)
    requires Edit(c, d, x) && Node(c, p, op, t) && (x + 3 <= p || p + 3 <= x)
    ensures Node(d, p, op, t)
  {
    EditSame(c, d, x, p, 3);
    assert Same(c, p + 1, d, p + 1, 2) && Same(c, p + 2, d, p + 2, 1);
  }

  lemma KeepCode(c: seq<byte>, d: seq<byte>, x: nat, p: nat, r: Re, t: nat)
    requires Edit(c, d, x) && Code(c, p, r, t) && p > 0 && (x + 3 <= p || p + Size(r) <= x)
    ensures Code(d, p, r, t)
  {
    hide Code, Edit, Size;
    CodeBounds(c, p, r, t);
    EditBounds(c, d, x);
    EditSame(c, d, x, p, Size(r));
    CodeFrame(c, d, p, r, t);
  }

  lemma EditBounds(c: seq<byte>, d: seq<byte>, x: nat)
    requires Edit(c, d, x)
    ensures |d| == |c| && x + 3 <= |c|
  {
  }

  lemma KeepAlts(c: seq<byte>, d: seq<byte>, x: nat, p: nat, r: Re, nt: nat, e: nat, lim: nat)
    requires Edit(c, d, x) && Alts(c, p, r, nt, e, lim) && p > 0 && (x + 3 <= p || p + AltsSize(r) <= x)
    ensures Alts(d, p, r, nt, e, lim)
  {
    hide Alts, Edit, AltsSize;
    AltsBounds(c, p, r, nt, e, lim);
    EditBounds(c, d, x);
    EditSame(c, d, x, p, AltsSize(r));
    AltsFrame(c, d, p, r, nt, e, lim);
  }

  lemma KeepPrefix(b: seq<byte>, c: seq<byte>, d: seq<byte>, x: nat, n: nat)
    requires Same(b, 0, c, 0, n) && Edit(c, d, x) && n <= x
    ensures Same(b, 0, d, 0, n)
  {
    hide Same;
    EditSame(c, d, x, 0, n);
    SameTrans(b, 0, c, 0, d, 0, n);
  }

  lemma SameRefl(c: seq<byte>, n: nat)
    requires n <= |c|
    ensures Same(c, 0, c, 0, n)
  {
    SameIntro(c, 0, c, 0, n);
  }

  /** Fresh code after a prefix: what a code-emitting call leaves behind. */
  ghost predicate Emitted(c0: seq<byte>, at: nat, c: seq<byte>, end: nat, r: Re) {
    && |c| == |c0| && at > 0 && end == at + Size(r) && end <= |c|
    && Same(c0, 0, c, 0, at) && Code(c, at, r, 0)
  }

  // ----- x* and x+ with a one-byte operand -----

  lemma InsertMoves(c: seq<byte>, p: nat, a: Re, op: byte)
    requires Code(c, p, a, 0) && p > 0 && p + Size(a) + 3 <= |c| && op != BACK
    ensures var d := Insert(c, p + Size(a), p, op);
            && Same(c, 0, d, 0, p) && Node(d, p, op, 0) && Code(d, p + 3, a, 0)
  {
    hide Code, Size, Same;
    var end := p + Size(a);
    var d := Insert(c, end, p, op);
    assert c[0..p] == d[0..p];
    SameIntro(c, 0, d, 0, p);
    assert d[p + 3..p + 3 + Size(a)] == c[p..end];
    SameIntro(c, p, d, p + 3, Size(a));
    Relocate(c, p, d, p + 3, a, 0, 0);
  }

  lemma BuildSimple(c0: seq<byte>, c: seq<byte>, p: nat, a: Re, star: bool)
    requires Emitted(c0, p, c, p + Size(a), a) && IsSimple(a) && p + Size(a) + 3 <= |c|
    ensures var r := if star then Star(a) else Plus(a);
            Emitted(c0, p, Insert(c, p + Size(a), p, if star then STAR else PLUS), p + Size(r), r)
  {
    hide Node, Same;
    var op := if star then STAR else PLUS;
    var d := Insert(c, p + Size(a), p, op);
    InsertMoves(c, p, a, op);
    SameTrans(c0, 0, c, 0, d, 0, p);
    assert SimpleCode(d, p, op, a, 0);
  }

  // ----- x* in general: (x&|) -----

  lemma StarFirstHalf(c: seq<byte>, p: nat, a: Re, c1: seq<byte>, c2: seq<byte>, c3: seq<byte>, c4: seq<byte>)
    requires Code(c, p, a, 0) && p > 0 && p + Size(a) + 12 <= |c| < 65536
    requires c1 == Insert(c, p + Size(a), p, BRANCH)
    requires c2 == Put(c1, p + 3 + Size(a), FreshNode(BACK))
    requires Last(p + 3, a) + 3 <= |c| && c3 == Patch(c2, Last(p + 3, a), p + 3 + Size(a))
    requires c4 == Patch(c3, p + 3 + Size(a), p)
    ensures c2[p] == BRANCH && Chain(c2, p + 3, Last(p + 3, a)) && Next(c2, Last(p + 3, a)) == 0
    ensures c3[p] == BRANCH && Chain(c3, p + 3, p + 3 + Size(a)) && Next(c3, p + 3 + Size(a)) == 0
    ensures Same(c, 0, c4, 0, p)
    ensures Node(c4, p, BRANCH, 0) && Code(c4, p + 3, a, p + 3 + Size(a)) && Node(c4, p + 3 + Size(a), BACK, p)
  {
    hide Code, Size, Last, Same, Put, Patch, Insert, Edit, Chain;
    var back, e := p + 3 + Size(a), Last(p + 3, a);
    LastInside(p + 3, a);
    InsertMoves(c, p, a, BRANCH);
    PutEdit(c1, back, BACK);
    KeepPrefix(c, c1, c2, back, p);
    KeepNode(c1, c2, back, p, BRANCH, 0);
    KeepCode(c1, c2, back, p + 3, a, 0);
    CodeChain(c2, p + 3, a, 0);

    PatchEdit(c2, e, back);
    SetTail(c2, p + 3, a, e, back);
    KeepPrefix(c, c2, c3, e, p);
    KeepNode(c2, c3, e, p, BRANCH, 0);
    KeepNode(c2, c3, e, back, BACK, 0);
    CodeChain(c3, p + 3, a, back);
    NodeNext(c3, back, BACK, 0);
    ChainExtend(c3, p + 3, e, back);

    PatchEdit(c3, back, p);
    PatchNode(c3, back, p);
    KeepPrefix(c, c3, c4, back, p);
    KeepNode(c3, c4, back, p, BRANCH, 0);
    KeepCode(c3, c4, back, p + 3, a, back);
  }

  lemma StarSecondHalf(c: seq<byte>, p: nat, a: Re, c4: seq<byte>, c5: seq<byte>, c6: seq<byte>, c7: seq<byte>, c8: seq<byte>)
    requires p > 0 && |c| == |c4| && p + Size(a) + 12 <= |c| < 65536 && Same(c, 0, c4, 0, p)
    requires Node(c4, p, BRANCH, 0) && Code(c4, p + 3, a, p + 3 + Size(a)) && Node(c4, p + 3 + Size(a), BACK, p)
    requires var back := p + 3 + Size(a);
             && c5 == Put(c4, back + 3, FreshNode(BRANCH))
             && c6 == Patch(c5, p, back + 3)
             && c7 == Put(c6, back + 6, FreshNode(NOTHING))
             && c8 == Patch(c7, back + 3, back + 6)
    ensures Chain(c5, p, p) && Next(c5, p) == 0
    ensures Chain(c7, p, p + 6 + Size(a)) && Next(c7, p + 6 + Size(a)) == 0
    ensures Same(c, 0, c8, 0, p) && StarCode(c8, p, a, 0)
  {
    hide Code, Size, Same, Put, Patch, Edit, Chain;
    var back := p + 3 + Size(a);
    PutEdit(c4, back + 3, BRANCH);
    KeepPrefix(c, c4, c5, back + 3, p);
    KeepNode(c4, c5, back + 3, p, BRANCH, 0);
    KeepCode(c4, c5, back + 3, p + 3, a, back);
    KeepNode(c4, c5, back + 3, back, BACK, p);
    ChainRefl(c5, p);

    PatchEdit(c5, p, back + 3);
    PatchNode(c5, p, back + 3);
    KeepPrefix(c, c5, c6, p, p);
    KeepCode(c5, c6, p, p + 3, a, back);
    KeepNode(c5, c6, p, back, BACK, p);
    KeepNode(c5, c6, p, back + 3, BRANCH, 0);

    PutEdit(c6, back + 6, NOTHING);
    KeepPrefix(c, c6, c7, back + 6, p);
    KeepNode(c6, c7, back + 6, p, BRANCH, back + 3);
    KeepCode(c6, c7, back + 6, p + 3, a, back);
    KeepNode(c6, c7, back + 6, back, BACK, p);
    KeepNode(c6, c7, back + 6, back + 3, BRANCH, 0);
    ChainRefl(c7, back + 3);
    ChainStep(c7, p, back + 3, back + 3);

    PatchEdit(c7, back + 3, back + 6);
    PatchNode(c7, back + 3, back + 6);
    KeepPrefix(c, c7, c8, back + 3, p);
    KeepNode(c7, c8, back + 3, p, BRANCH, back + 3);
    KeepCode(c7, c8, back + 3, p + 3, a, back);
    KeepNode(c7, c8, back + 3, back, BACK, p);
    KeepNode(c7, c8, back + 3, back + 6, NOTHING, 0);
  }

  // ----- x+ in general: x(&|) -----

  lemma PlusFirstHalf(c: seq<byte>, p: nat, a: Re, c1: seq<byte>, c2: seq<byte>, c3: seq<byte>, c4: seq<byte>)
    requires Code(c, p, a, 0) && p > 0 && p + Size(a) + 12 <= |c| < 65536 && Last(p, a) + 3 <= |c|
    requires var again := p + Size(a);
             && c1 == Put(c, again, FreshNode(BRANCH))
             && c2 == Patch(c1, Last(p, a), again)
             && c3 == Put(c2, again + 3, FreshNode(BACK))
             && c4 == Patch(c3, again + 3, p)
    ensures Chain(c1, p, Last(p, a)) && Next(c1, Last(p, a)) == 0
    ensures Chain(c3, p + Size(a) + 3, p + Size(a) + 3) && Next(c3, p + Size(a) + 3) == 0
    ensures Same(c, 0, c4, 0, p)
    ensures Code(c4, p, a, p + Size(a)) && Node(c4, p + Size(a), BRANCH, 0) && Node(c4, p + Size(a) + 3, BACK, p)
  {
    hide Code, Size, Last, Same, Put, Patch, Edit, Chain;
    var again, e := p + Size(a), Last(p, a);
    LastInside(p, a);
    SizePositive(a);
    SameRefl(c, p);
    PutEdit(c, again, BRANCH);
    KeepPrefix(c, c, c1, again, p);
    KeepCode(c, c1, again, p, a, 0);
    CodeChain(c1, p, a, 0);

    PatchEdit(c1, e, again);
    SetTail(c1, p, a, e, again);
    KeepPrefix(c, c1, c2, e, p);
    KeepNode(c1, c2, e, again, BRANCH, 0);

    PutEdit(c2, again + 3, BACK);
    KeepPrefix(c, c2, c3, again + 3, p);
    KeepCode(c2, c3, again + 3, p, a, again);
    KeepNode(c2, c3, again + 3, again, BRANCH, 0);
    ChainRefl(c3, again + 3);
    NodeNext(c3, again + 3, BACK, 0);

    PatchEdit(c3, again + 3, p);
    PatchNode(c3, again + 3, p);
    KeepPrefix(c, c3, c4, again + 3, p);
    KeepCode(c3, c4, again + 3, p, a, again);
    KeepNode(c3, c4, again + 3, again, BRANCH, 0);
  }

  lemma PlusSecondHalf(c: seq<byte>, p: nat, a: Re, c4: seq<byte>, c5: seq<byte>, c6: seq<byte>, c7: seq<byte>, c8: seq<byte>)
    requires p > 0 && |c| == |c4| && p + Size(a) + 12 <= |c| < 65536 && Same(c, 0, c4, 0, p)
    requires Code(c4, p, a, p + Size(a)) && Node(c4, p + Size(a), BRANCH, 0) && Node(c4, p + Size(a) + 3, BACK, p)
    requires var again := p + Size(a);
             && c5 == Put(c4, again + 6, FreshNode(BRANCH))
             && c6 == Patch(c5, again, again + 6)
             && c7 == Put(c6, again + 9, FreshNode(NOTHING))
             && c8 == Patch(c7, again + 6, again + 9)
    ensures Chain(c5, p + Size(a), p + Size(a)) && Next(c5, p + Size(a)) == 0
    ensures Chain(c7, p, p + Size(a) + 6) && Next(c7, p + Size(a) + 6) == 0
    ensures Same(c, 0, c8, 0, p) && PlusCode(c8, p, a, 0)
  {
    hide Code, Size, Last, Same, Put, Patch, Edit, Chain;
    var again := p + Size(a);
    SizePositive(a);
    LastInside(p, a);
    PutEdit(c4, again + 6, BRANCH);
    KeepPrefix(c, c4, c5, again + 6, p);
    KeepCode(c4, c5, again + 6, p, a, again);
    KeepNode(c4, c5, again + 6, again, BRANCH, 0);
    KeepNode(c4, c5, again + 6, again + 3, BACK, p);
    ChainRefl(c5, again);
    NodeNext(c5, again, BRANCH, 0);

    PatchEdit(c5, again, again + 6);
    PatchNode(c5, again, again + 6);
    KeepPrefix(c, c5, c6, again, p);
    KeepCode(c5, c6, again, p, a, again);
    KeepNode(c5, c6, again, again + 3, BACK, p);
    KeepNode(c5, c6, again, again + 6, BRANCH, 0);

    PutEdit(c6, again + 9, NOTHING);
    KeepPrefix(c, c6, c7, again + 9, p);
    KeepCode(c6, c7, again + 9, p, a, again);
    KeepNode(c6, c7, again + 9, again, BRANCH, again + 6);
    KeepNode(c6, c7, again + 9, again + 3, BACK, p);
    KeepNode(c6, c7, again + 9, again + 6, BRANCH, 0);
    CodeChain(c7, p, a, again);
    ChainExtend(c7, p, Last(p, a), again);
    NodeNext(c7, again, BRANCH, again + 6);
    ChainExtend(c7, p, again, again + 6);
    NodeNext(c7, again + 6, BRANCH, 0);

    PatchEdit(c7, again + 6, again + 9);
    PatchNode(c7, again + 6, again + 9);
    KeepPrefix(c, c7, c8, again + 6, p);
    KeepCode(c7, c8, again + 6, p, a, again);
    KeepNode(c7, c8, again + 6, again, BRANCH, again + 6);
    KeepNode(c7, c8, again + 6, again + 3, BACK, p);
    KeepNode(c7, c8, again + 6, again + 9, NOTHING, 0);
  }

  // ----- x?: (x|) -----

  lemma OptSteps(c: seq<byte>, p: nat, a: Re, c1: seq<byte>, c2: seq<byte>, c3: seq<byte>,
                 c4: seq<byte>, c5: seq<byte>, c6: seq<byte>)
    requires Code(c, p, a, 0) && p > 0 && p + Size(a) + 9 <= |c| < 65536 && Last(p + 3, a) + 3 <= |c|
    requires var none := p + 3 + Size(a);
             && c1 == Insert(c, p + Size(a), p, BRANCH)
             && c2 == Put(c1, none, FreshNode(BRANCH))
             && c3 == Patch(c2, p, none)
             && c4 == Put(c3, none + 3, FreshNode(NOTHING))
             && c5 == Patch(c4, none, none + 3)
             && c6 == Patch(c5, Last(p + 3, a), none + 3)
    ensures Chain(c2, p, p) && Next(c2, p) == 0
    ensures Chain(c4, p, p + 3 + Size(a)) && Next(c4, p + 3 + Size(a)) == 0
    ensures c5[p] == BRANCH && Chain(c5, p + 3, Last(p + 3, a)) && Next(c5, Last(p + 3, a)) == 0
    ensures Same(c, 0, c6, 0, p) && OptCode(c6, p, a, 0)
  {
    hide Code, Size, Last, Same, Put, Patch, Insert, Edit, Chain;
    var none, e := p + 3 + Size(a), Last(p + 3, a);
    LastInside(p + 3, a);
    InsertMoves(c, p, a, BRANCH);
    PutEdit(c1, none, BRANCH);
    KeepPrefix(c, c1, c2, none, p);
    KeepNode(c1, c2, none, p, BRANCH, 0);
    KeepCode(c1, c2, none, p + 3, a, 0);
    ChainRefl(c2, p);

    PatchEdit(c2, p, none);
    PatchNode(c2, p, none);
    KeepPrefix(c, c2, c3, p, p);
    KeepCode(c2, c3, p, p + 3, a, 0);
    KeepNode(c2, c3, p, none, BRANCH, 0);

    PutEdit(c3, none + 3, NOTHING);
    KeepPrefix(c, c3, c4, none + 3, p);
    KeepNode(c3, c4, none + 3, p, BRANCH, none);
    KeepCode(c3, c4, none + 3, p + 3, a, 0);
    KeepNode(c3, c4, none + 3, none, BRANCH, 0);
    ChainRefl(c4, none);
    NodeNext(c4, none, BRANCH, 0);
    ChainStep(c4, p, none, none);

    PatchEdit(c4, none, none + 3);
    PatchNode(c4, none, none + 3);
    KeepPrefix(c, c4, c5, none, p);
    KeepNode(c4, c5, none, p, BRANCH, none);
    KeepCode(c4, c5, none, p + 3, a, 0);
    KeepNode(c4, c5, none, none + 3, NOTHING, 0);
    CodeChain(c5, p + 3, a, 0);

    PatchEdit(c5, e, none + 3);
    SetTail(c5, p + 3, a, e, none + 3);
    KeepPrefix(c, c5, c6, e, p);
    KeepNode(c5, c6, e, p, BRANCH, none);
    KeepNode(c5, c6, e, none, BRANCH, none + 3);
    KeepNode(c5, c6, e, none + 3, NOTHING, 0);
  }

  // ----- Nodes with a string operand -----

  /** An operand being emitted behind its node, byte by byte. */
  ghost predicate Typing(c0: seq<byte>, at: nat, c: seq<byte>, code: nat, op: byte, chars: seq<byte>) {
    && |c| == |c0| && at > 0 && code == at + 3 + |chars| && code <= |c|
    && Same(c0, 0, c, 0, at) && Node(c, at, op, 0) && Same(c, at + 3, chars, 0, |chars|)
  }

  lemma StartTyping(c0: seq<byte>, at: nat, op: byte)
    requires at > 0 && at + 3 <= |c0|
    ensures Typing(c0, at, Put(c0, at, FreshNode(op)), at + 3, op, [])
  {
    hide Put;
    PutEdit(c0, at, op);
    SameRefl(c0, at);
    KeepPrefix(c0, c0, Put(c0, at, FreshNode(op)), at, at);
  }

  lemma PutByte(c: seq<byte>, at: nat, b: byte, n: nat)
    requires n <= at < |c|
    ensures Same(c, 0, Put(c, at, [b]), 0, n) && Put(c, at, [b])[at] == b
  {
    var d := Put(c, at, [b]);
    assert c[0..n] == d[0..n];
    SameIntro(c, 0, d, 0, n);
  }

  lemma TypeByte(c0: seq<byte>, at: nat, c: seq<byte>, code: nat, op: byte, chars: seq<byte>, b: byte)
    requires Typing(c0, at, c, code, op, chars) && code < |c|
    ensures Typing(c0, at, Put(c, code, [b]), code + 1, op, chars + [b])
  {
    hide Same, Put;
    var d := Put(c, code, [b]);
    var n := |chars|;
    PutByte(c, code, b, code);
    SamePart(c, 0, d, 0, code, 0, at);
    SameTrans(c0, 0, c, 0, d, 0, at);
    SamePart(c, 0, d, 0, code, at, 3);
    NodeFrame(c, d, at, op, 0);
    SamePart(c, 0, d, 0, code, at + 3, n);
    SameSym(c, at + 3, d, at + 3, n);
    SameTrans(d, at + 3, c, at + 3, chars, 0, n);
    SameSnoc(d, at + 3, chars, b);
  }

  lemma NodeFrame(c: seq<byte>, d: seq<byte>, p: nat, op: byte, t: nat)
    requires Node(c, p, op, t) && Same(c, p, d, p, 3)
    ensures Node(d, p, op, t)
  {
    assert Same(c, p + 1, d, p + 1, 2) && Same(c, p + 2, d, p + 2, 1);
  }

  lemma SameSnoc(d: seq<byte>, p: nat, chars: seq<byte>, b: byte)
    requires Same(d, p, chars, 0, |chars|) && p + |chars| < |d| && d[p + |chars|] == b
    ensures Same(d, p, chars + [b], 0, |chars| + 1)
  {
    var n := |chars|;
    SameElim(d, p, chars, 0, n);
    assert d[p..p + n] == chars;
    assert d[p..p + n + 1] == (chars + [b])[0..n + 1];
    SameIntro(d, p, chars + [b], 0, n + 1);
  }

  /** The terminating NUL completes an EXACTLY, ANYOF or ANYBUT node. */
  lemma FinishTyping(c0: seq<byte>, at: nat, c: seq<byte>, code: nat, op: byte, r: Re)
    requires r.Set? || r.Exactly?
    requires op == LeafOp(r)
    requires var chars := if r.Set? then r.chars else r.str;
             Typing(c0, at, c, code, op, chars) && code < |c|
    ensures Emitted(c0, at, Put(c, code, [0]), code + 1, r)
  {
    hide Same, Node, Put;
    var chars := if r.Set? then r.chars else r.str;
    var d := Put(c, code, [0]);
    PutByte(c, code, 0, code);
    TypeByte(c0, at, c, code, op, chars, 0);
    SamePart(c, 0, d, 0, code, at + 3, |chars|);
    SameSym(c, at + 3, d, at + 3, |chars|);
    SameTrans(d, at + 3, c, at + 3, chars, 0, |chars|);
    assert Text(d, at + 3, chars);
    assert Leaf(d, at, r, 0);
  }

  /** A node without operand. */
  lemma EmitNode(c0: seq<byte>, at: nat, r: Re)
    requires at > 0 && at + 3 <= |c0| && (r == Empty || r == Bol || r == Eol || r == Any)
    ensures Emitted(c0, at, Put(c0, at, FreshNode(LeafOp(r))), at + 3, r)
  {
    hide Put;
    PutEdit(c0, at, LeafOp(r));
    SameRefl(c0, at);
    KeepPrefix(c0, c0, Put(c0, at, FreshNode(LeafOp(r))), at, at);
  }

  // ----- Concatenation: the pieces of a branch -----

  /** A branch under construction: its BRANCH node, and the pieces so far with their tail open. */
  ghost predicate EmittedArm(c0: seq<byte>, at: nat, c: seq<byte>, end: nat, b: Re) {
    && |c| == |c0| && at > 0 && end == at + 3 + Size(b) && end <= |c|
    && Same(c0, 0, c, 0, at) && Arm(c, at, b, 0, 0, 0)
  }

  lemma FirstPiece(c0: seq<byte>, at: nat, c1: seq<byte>, c2: seq<byte>, end: nat, x: Re)
    requires at > 0 && at + 3 <= |c0| && c1 == Put(c0, at, FreshNode(BRANCH))
    requires Emitted(c1, at + 3, c2, end, x)
    ensures EmittedArm(c0, at, c2, end, x)
  {
    hide Put, Code, Size, Same;
    PutEdit(c0, at, BRANCH);
    SameRefl(c0, at);
    KeepPrefix(c0, c0, c1, at, at);
    SamePart(c1, 0, c2, 0, at + 3, 0, at);
    SameTrans(c0, 0, c1, 0, c2, 0, at);
    SamePart(c1, 0, c2, 0, at + 3, at, 3);
    NodeFrame(c1, c2, at, BRANCH, 0);
  }

  /** Linking the next piece: the tail of the chain so far is aimed at it. */
  lemma NextPiece(c0: seq<byte>, at: nat, c: seq<byte>, end: nat, acc: Re, chain: nat,
                  c1: seq<byte>, end1: nat, x: Re, c2: seq<byte>)
    requires EmittedArm(c0, at, c, end, acc) && Chain(c, chain, Last(at + 3, acc)) && at + 3 <= chain
    requires Emitted(c, end, c1, end1, x) && |c| < 65536
    requires Last(at + 3, acc) + 3 <= |c| && c2 == Patch(c1, Last(at + 3, acc), end)
    ensures Chain(c1, chain, Last(at + 3, acc)) && Next(c1, Last(at + 3, acc)) == 0
    ensures EmittedArm(c0, at, c2, end1, Cat(acc, x))
    ensures Chain(c2, end, Last(at + 3, Cat(acc, x)))
  {
    hide Code, Patch, Same, Edit, Last, Size, Chain;
    var e := Last(at + 3, acc);
    LastInside(at + 3, acc);
    LastOfCat(at + 3, Cat(acc, x));
    assert Code(c, at + 3, acc, 0);
    ChainStays(c, c1, chain, e, end);
    SamePart(c, 0, c1, 0, end, at + 3, Size(acc));
    CodeFrame(c, c1, at + 3, acc, 0);
    CodeChain(c1, at + 3, acc, 0);
    SamePart(c, 0, c1, 0, end, 0, at);
    SameTrans(c0, 0, c, 0, c1, 0, at);
    SamePart(c, 0, c1, 0, end, at, 3);
    NodeFrame(c, c1, at, BRANCH, 0);

    PatchEdit(c1, e, end);
    SetTail(c1, at + 3, acc, e, end);
    KeepPrefix(c0, c1, c2, e, at);
    KeepNode(c1, c2, e, at, BRANCH, 0);
    KeepCode(c1, c2, e, end, x, 0);
    CatIntro(c2, at + 3, acc, x, 0);
    CodeChain(c2, end, x, 0);
  }

  lemma ChainStays(c: seq<byte>, d: seq<byte>, p: nat, e: nat, n: nat)
    requires Chain(c, p, e) && Same(c, 0, d, 0, n) && e + 3 <= n
    ensures Chain(d, p, e)
  {
    hide Same;
    ChainBounds(c, p, e);
    SamePart(c, 0, d, 0, n, p, n - p);
    ChainFrame(c, d, p, e, n - p);
  }

  lemma ChainBounds(c: seq<byte>, p: nat, e: nat)
    requires Chain(c, p, e)
    ensures p <= e && e + 3 <= |c|
  {
  }

  // ----- Alternation: the branches of a group or pattern -----

  /** For a group, the OPEN node at `at` points at the first branch; for a pattern there is none. */
  ghost predicate Opening(c: seq<byte>, at: nat, first: nat, no: nat) {
    first == at || (first == at + 3 && 1 <= no < NSUBEXP && Node(c, at, OPEN + no, first))
  }

  /** Branches so far, chained together, bodies and last branch open. */
  ghost predicate Branching(c0: seq<byte>, at: nat, c: seq<byte>, end: nat, first: nat, no: nat, acc: Re) {
    && |c| == |c0| && at > 0 && end == first + AltsSize(acc) && end <= |c|
    && Same(c0, 0, c, 0, at) && Opening(c, at, first, no) && Alts(c, first, acc, 0, 0, 0)
  }

  lemma FirstBranch(c0: seq<byte>, at: nat, c: seq<byte>, end: nat, no: nat, b: Re)
    requires EmittedArm(c0, at, c, end, b) && !b.Alt?
    ensures Branching(c0, at, c, end, at, no, b)
  {
    hide Code, Size;
  }

  lemma FirstBranchOfGroup(c0: seq<byte>, at: nat, no: nat, c1: seq<byte>, c2: seq<byte>, end: nat, b: Re, c3: seq<byte>)
    requires at > 0 && at + 3 <= |c0| && 1 <= no < NSUBEXP && !b.Alt?
    requires c1 == Put(c0, at, FreshNode(OPEN + no)) && EmittedArm(c1, at + 3, c2, end, b)
    requires c3 == Patch(c2, at, at + 3)
    ensures Chain(c2, at, at) && Next(c2, at) == 0
    ensures Branching(c0, at, c3, end, at + 3, no, b)
  {
    hide Put, Code, Size, Same, Patch, Edit;
    PutEdit(c0, at, OPEN + no);
    SameRefl(c0, at);
    KeepPrefix(c0, c0, c1, at, at);
    SamePart(c1, 0, c2, 0, at + 3, 0, at);
    SameTrans(c0, 0, c1, 0, c2, 0, at);
    SamePart(c1, 0, c2, 0, at + 3, at, 3);
    NodeFrame(c1, c2, at, OPEN + no, 0);
    PatchEdit(c2, at, at + 3);
    PatchNode(c2, at, at + 3);
    KeepPrefix(c0, c2, c3, at, at);
    assert Alts(c2, at + 3, b, 0, 0, 0);
    KeepAlts(c2, c3, at, at + 3, b, 0, 0, 0);
  }

  lemma OpeningChain(c: seq<byte>, at: nat, first: nat, no: nat, acc: Re, nt: nat, e: nat, lim: nat)
    requires Opening(c, at, first, no) && Alts(c, first, acc, nt, e, lim)
    ensures Chain(c, at, LastArm(first, acc)) && Next(c, LastArm(first, acc)) == nt
    ensures LastArm(first, acc) < first + AltsSize(acc)
  {
    hide Alts, AltsSize, LastArm;
    AltsChain(c, first, acc, nt, e, lim);
    if first != at {
      NodeNext(c, at, OPEN + no, first);
      ChainStep(c, at, first, LastArm(first, acc));
    }
  }

  lemma KeepOpening(c: seq<byte>, d: seq<byte>, x: nat, at: nat, first: nat, no: nat)
    requires Opening(c, at, first, no) && Edit(c, d, x) && first <= x
    ensures Opening(d, at, first, no)
  {
    hide Edit;
    if first != at { KeepNode(c, d, x, at, OPEN + no, first); }
  }

  lemma OpeningFrame(c: seq<byte>, d: seq<byte>, n: nat, at: nat, first: nat, no: nat)
    requires Opening(c, at, first, no) && Same(c, 0, d, 0, n) && first <= n
    ensures Opening(d, at, first, no)
  {
    hide Same;
    if first != at {
      SamePart(c, 0, d, 0, n, at, 3);
      NodeFrame(c, d, at, OPEN + no, first);
    }
  }

  lemma NextBranch(c0: seq<byte>, at: nat, c: seq<byte>, end: nat, first: nat, no: nat, acc: Re,
                   c1: seq<byte>, end1: nat, b: Re, c2: seq<byte>)
    requires Branching(c0, at, c, end, first, no, acc) && EmittedArm(c, end, c1, end1, b) && |c| < 65536
    requires LastArm(first, acc) + 3 <= |c| && c2 == Patch(c1, LastArm(first, acc), end)
    ensures Chain(c1, at, LastArm(first, acc)) && Next(c1, LastArm(first, acc)) == 0
    ensures Branching(c0, at, c2, end1, first, no, Alt(acc, b))
  {
    hide Code, Size, Same, Patch, Edit, Opening, Alts, AltsSize, LastArm, Arm, Chain;
    var e := LastArm(first, acc);
    OpeningBounds(c, at, first, no);
    SamePart(c, 0, c1, 0, end, first, AltsSize(acc));
    AltsFrame(c, c1, first, acc, 0, 0, 0);
    OpeningFrame(c, c1, end, at, first, no);
    OpeningChain(c1, at, first, no, acc, 0, 0, 0);
    SamePart(c, 0, c1, 0, end, 0, at);
    SameTrans(c0, 0, c, 0, c1, 0, at);

    AltsChain(c1, first, acc, 0, 0, 0);
    LastArmInside(first, acc);
    PatchEdit(c1, e, end);
    SetAltsTail(c1, first, acc, 0, 0, end);
    KeepPrefix(c0, c1, c2, e, at);
    KeepOpening(c1, c2, e, at, first, no);
    KeepArm(c1, c2, e, end, b);
    AltIntro(c2, first, acc, b, 0, 0, 0);
  }

  lemma AltIntro(c: seq<byte>, p: nat, a: Re, b: Re, nt: nat, e: nat, lim: nat)
    requires Alts(c, p, a, p + AltsSize(a), e, lim) && Arm(c, p + AltsSize(a), b, nt, e, lim)
    ensures Alts(c, p, Alt(a, b), nt, e, lim) && AltsSize(Alt(a, b)) == AltsSize(a) + 3 + Size(b)
  {
    hide Arm, Size;
  }

  lemma OpeningBounds(c: seq<byte>, at: nat, first: nat, no: nat)
    requires Opening(c, at, first, no)
    ensures at <= first
  {
  }

  lemma LastArmInside(p: nat, r: Re)
    ensures p <= LastArm(p, r) && LastArm(p, r) + 6 <= p + AltsSize(r)
  {
    if r.Alt? {
      SizePositive(r.right);
    } else {
      SizePositive(r);
    }
  }

  lemma KeepArm(c: seq<byte>, d: seq<byte>, x: nat, p: nat, b: Re)
    requires Edit(c, d, x) && Arm(c, p, b, 0, 0, 0) && p > 0 && x + 3 <= p
    ensures Arm(d, p, b, 0, 0, 0)
  {
    hide Code, Edit, Size;
    KeepNode(c, d, x, p, BRANCH, 0);
    KeepCode(c, d, x, p + 3, b, 0);
  }

  /** All branches chained to the closing node `e`; bodies below `x` are hooked to it. */
  ghost predicate Hooking(c0: seq<byte>, at: nat, c: seq<byte>, first: nat, no: nat, acc: Re, e: nat, op: byte, x: nat) {
    && |c| == |c0| && at > 0 && e == first + AltsSize(acc) && e + 3 <= |c|
    && Same(c0, 0, c, 0, at) && Opening(c, at, first, no)
    && Alts(c, first, acc, e, e, x) && Node(c, e, op, 0)
  }

  /** With no arm below the limit, the target of hooked bodies is irrelevant. */
  lemma {:induction false} Retarget(c: seq<byte>, p: nat, r: Re, nt: nat, e: nat)
    requires Alts(c, p, r, nt, 0, 0)
    ensures Alts(c, p, r, nt, e, p)
  {
    MoveLimit(c, p, r, nt, 0, 0, p);
    Retarget'(c, p, p, r, nt, e);
  }

  lemma {:induction false} Retarget'(c: seq<byte>, p: nat, lim: nat, r: Re, nt: nat, e: nat)
    requires Alts(c, p, r, nt, 0, lim) && lim <= p
    ensures Alts(c, p, r, nt, e, lim)
    decreases r
  {
    hide Code, Node, Size;
    if r.Alt? { Retarget'(c, p, lim, r.left, p + AltsSize(r.left), e); }
  }

  lemma CloseBranches(c0: seq<byte>, at: nat, c: seq<byte>, end: nat, first: nat, no: nat, acc: Re,
                      op: byte, c1: seq<byte>, c2: seq<byte>)
    requires Branching(c0, at, c, end, first, no, acc) && end + 3 <= |c| < 65536
    requires c1 == Put(c, end, FreshNode(op))
    requires LastArm(first, acc) + 3 <= |c| && c2 == Patch(c1, LastArm(first, acc), end)
    ensures Chain(c1, at, LastArm(first, acc)) && Next(c1, LastArm(first, acc)) == 0
    ensures Hooking(c0, at, c2, first, no, acc, end, op, first)
  {
    hide Alts, AltsSize, LastArm, Put, Patch, Same, Edit, Opening;
    var e := LastArm(first, acc);
    OpeningBounds(c, at, first, no);
    LastArmInside(first, acc);
    PutEdit(c, end, op);
    KeepPrefix(c0, c, c1, end, at);
    KeepOpening(c, c1, end, at, first, no);
    KeepAlts(c, c1, end, first, acc, 0, 0, 0);
    OpeningChain(c1, at, first, no, acc, 0, 0, 0);
    PatchEdit(c1, e, end);
    SetAltsTail(c1, first, acc, 0, 0, end);
    KeepPrefix(c0, c1, c2, e, at);
    KeepOpening(c1, c2, e, at, first, no);
    KeepNode(c1, c2, e, end, op, 0);
    Retarget(c2, first, acc, end, end);
  }

  lemma HookStep(c0: seq<byte>, at: nat, c: seq<byte>, first: nat, no: nat, acc: Re, e: nat, op: byte,
                 x: nat, b: Re, d: seq<byte>)
    requires Hooking(c0, at, c, first, no, acc, e, op, x) && ArmAt(first, acc, x, b) && |c| < 65536
    requires Last(x + 3, b) + 3 <= |c| && d == Patch(c, Last(x + 3, b), e)
    ensures x + 3 <= |c| && c[x] == BRANCH && x < e && Next(d, x) == x + 3 + Size(b)
    ensures Chain(c, x + 3, Last(x + 3, b)) && Next(c, Last(x + 3, b)) == 0
    ensures Hooking(c0, at, d, first, no, acc, e, op, x + 3 + Size(b))
  {
    hide Alts, AltsSize, Last, Size, Patch, Same, Edit, Opening, ArmAt, Chain;
    var z := Last(x + 3, b);
    OpeningBounds(c, at, first, no);
    ArmInside(first, acc, x, b);
    LastInside(x + 3, b);
    ArmOf(c, first, acc, e, x, x, b);
    NodeNext(c, x, BRANCH, x + 3 + Size(b));
    CodeChain(c, x + 3, b, 0);
    PatchEdit(c, z, e);
    KeepPrefix(c0, c, d, z, at);
    KeepOpening(c, d, z, at, first, no);
    KeepNode(c, d, z, e, op, 0);
    HookArm(c, first, acc, e, e, x, b);
    KeepNode(c, d, z, x, BRANCH, x + 3 + Size(b));
    NodeNext(d, x, BRANCH, x + 3 + Size(b));
  }

  /** Everything hooked: a complete group. */
  lemma FinishGroup(c0: seq<byte>, at: nat, c: seq<byte>, no: nat, acc: Re, e: nat)
    requires 1 <= no < NSUBEXP && Hooking(c0, at, c, at + 3, no, acc, e, CLOSE + no, e)
    ensures Emitted(c0, at, c, e + 3, Group(no, acc))
  {
    hide Alts, AltsSize, Same;
    assert GroupCode(c, at, no, acc, 0);
  }
}
