/**
  One lemma per kind of node: what passing the node at `p` does to the continuation.

  Each says that the step keeps the configuration `Ready`, leads to the same ends, and decreases the
  measure; or that the continuation is dead, so failing is right.
*/
module RegexStep {
  import opened Bytes
  import opened RegexSyntax
  import opened RegexCode
  import opened RegexCont

  predicate IsLeaf(re: Re) {
    (Level(re) == 0 && !re.Group?) || re == Empty
  }

  /** Where the only match of a leaf at `i` ends, or -1. */
  function LeafEnd(re: Re, s: seq<byte>, i: nat): int
    requires i <= |s|
  {
    match re
    case Empty => i
    case Bol => if i == 0 then i else -1
    case Eol => if i == |s| then i else -1
    case Any => if i < |s| then i + 1 else -1
    case Set(negated, chars) => if i < |s| && (s[i] in chars) != negated then i + 1 else -1
    case Exactly(str) => if i + |str| <= |s| && s[i..i + |str|] == str then i + |str| else -1
    case _ => -1
  }

  lemma LeafMatches(re: Re, s: seq<byte>, i: nat, m: nat)
    requires IsLeaf(re) && i <= |s|
    ensures Matches(re, s, i, m) <==> m == LeafEnd(re, s, i)
  {
  }

  /** What the opcode of the current node tells about the continuation, and the other way round. */
  lemma HeadShape(c: seq<byte>, s: seq<byte>, p: nat, k: Cont, i: nat)
    requires Ready(c, s, p, k, i) && IsHead(k)
    ensures p + 3 <= |c|
    ensures k.Done? <==> c[p] == END
    ensures k.Pend? && k.kind.Run? && IsLeaf(k.re) <==> (BOL <= c[p] <= ANYBUT || c[p] == EXACTLY || c[p] == NOTHING)
    ensures k.Pend? && k.kind.Run? && IsLeaf(k.re) ==> c[p] == LeafOp(k.re)
    ensures k.Pend? && k.kind.Run? && k.re.Group? <==> OPEN < c[p] < OPEN + NSUBEXP
    ensures k.Pend? && k.kind.Shut? <==> CLOSE < c[p] < CLOSE + NSUBEXP
    ensures k.Pend? && k.kind.Loop? <==> c[p] == BACK
    ensures k.Pend? && k.kind.Run? && k.re.Star? && IsSimple(k.re.rep) <==> c[p] == STAR
    ensures k.Pend? && k.kind.Run? && k.re.Plus? && IsSimple(k.re.rep) <==> c[p] == PLUS
    ensures IsChoice(k) <==> c[p] == BRANCH
    ensures c[p] <= PLUS || OPEN < c[p] < OPEN + NSUBEXP || CLOSE < c[p] < CLOSE + NSUBEXP
  {
    hide Same, Text, Progress, WellFormed, Size, AltsSize;
    if k.Pend? && k.kind.Arms? {
      AltsChain(c, p, k.re, k.t, k.t, k.t);
      AltsFirst(c, p, k.re, k.t, k.t, k.t);
    } else if k.Pend? && k.kind.Run? {
      RunShape(c, p, k.re, k.t);
    }
  }

  lemma RunShape(c: seq<byte>, p: nat, re: Re, t: nat)
    requires Code(c, p, re, t) && !re.Cat? && !(re.Plus? && !IsSimple(re.rep))
    ensures p + 3 <= |c|
    ensures IsLeaf(re) ==> c[p] == LeafOp(re)
    ensures re.Group? ==> OPEN < c[p] < OPEN + NSUBEXP
    ensures re.Star? && IsSimple(re.rep) ==> c[p] == STAR
    ensures re.Plus? ==> c[p] == PLUS
    ensures (re.Star? && !IsSimple(re.rep)) || re.Opt? ==> c[p] == BRANCH
    ensures !re.Alt?
  {
    hide Alts, Text, Size, AltsSize;
  }

  lemma {:induction false} AltsFirst(c: seq<byte>, p: nat, r: Re, nt: nat, e: nat, lim: nat)
    requires Alts(c, p, r, nt, e, lim)
    ensures p + 3 <= |c| && c[p] == BRANCH
  {
    if r.Alt? { AltsFirst(c, p, r.left, p + AltsSize(r.left), e, lim); }
  }

  /** A continuation whose node is the first of several BRANCH nodes, or a lone one. */
  predicate IsChoice(k: Cont) {
    k.Pend? &&
    match k.kind
    case Run => k.re.Opt? || (k.re.Star? && !IsSimple(k.re.rep))
    case Arms => true
    case Again(_, _) => true
    case _ => false
  }

  // ----- Nodes that do not branch -----

  lemma PassLeaf(c: seq<byte>, s: seq<byte>, p: nat, k: Cont, i: nat)
    requires Ready(c, s, p, k, i) && k.Pend? && k.kind.Run? && IsLeaf(k.re)
    ensures Leaf(c, p, k.re, k.t) && Next(c, p) == k.t
    ensures LeafEnd(k.re, s, i) < 0 ==> Dead(s, k, i)
    ensures var e := LeafEnd(k.re, s, i);
            e >= 0 ==> Ready(c, s, k.t, k.rest, e) && SameEnds(s, k, i, k.rest, e) && Below(s, k.rest, e, k, i)
  {
    hide Text, Matches, Denotes;
    var e := LeafEnd(k.re, s, i);
    if e >= 0 {
      ProgressMonotone(k.rest, i, e, HasWidth(k.re), false);
      LeafMatches(k.re, s, i, e);
    }
    forall j: nat
      ensures Denotes(k, s, i, j) <==> (e >= 0 && Denotes(k.rest, s, e, j))
    {
      if Denotes(k, s, i, j) {
        var m := DenotesSplit(k, s, i, j);
        LeafMatches(k.re, s, i, m);
      }
      if e >= 0 && Denotes(k.rest, s, e, j) {
        DenotesJoin(k.kind, k.re, k.t, k.rest, s, i, e, j);
      }
    }
  }

  lemma PassShut(c: seq<byte>, s: seq<byte>, p: nat, k: Cont, i: nat)
    requires Ready(c, s, p, k, i) && k.Pend? && k.kind.Shut?
    ensures p + 3 <= |c| && Next(c, p) == k.t
    ensures Ready(c, s, k.t, k.rest, i) && SameEnds(s, k, i, k.rest, i) && Below(s, k.rest, i, k, i)
  {
    hide Denotes;
    forall j: nat
      ensures Denotes(k, s, i, j) <==> Denotes(k.rest, s, i, j)
    {
      if Denotes(k, s, i, j) { var m := DenotesSplit(k, s, i, j); }
      if Denotes(k.rest, s, i, j) { DenotesJoin(k.kind, k.re, k.t, k.rest, s, i, i, j); }
    }
  }

  /** BACK restarts its loop.  The input has advanced, so this cannot go on for ever. */
  lemma PassBack(c: seq<byte>, s: seq<byte>, p: nat, k: Cont, i: nat)
    requires Ready(c, s, p, k, i) && k.Pend? && k.kind.Loop?
    ensures k.kind.from < i
    ensures var k' := Pend(Run, k.re, k.t, k.rest);
            && p + 3 <= |c| && Next(c, p) > 0
            && Ready(c, s, Next(c, p), k', i) && SameEnds(s, k, i, k', i) && Below(s, k', i, k, i)
  {
    hide Matches, Code;
    SwapFront(k, Run, k.re, k.t, s, i);
  }

  ghost function Opened(k: Cont, p: nat): Cont
    requires k.Pend? && k.re.Group?
  {
    Pend(Arms, k.re.body, p + 3 + AltsSize(k.re.body), Pend(Shut, Empty, k.t, k.rest))
  }

  lemma PassOpen(c: seq<byte>, s: seq<byte>, p: nat, k: Cont, i: nat)
    requires Ready(c, s, p, k, i) && k.Pend? && k.kind.Run? && k.re.Group?
    ensures var k' := Opened(k, p);
            && p + 3 <= |c| && Next(c, p) == p + 3
            && Ready(c, s, p + 3, k', i) && SameEnds(s, k, i, k', i) && Below(s, k', i, k, i)
  {
    hide Code, Alts, AltsSize, Denotes, Matches, Node, Next;
    GroupParts(c, p, k.re.no, k.re.body, k.t);
    OpenReady(c, s, p, k, i);
    OpenEnds(k, p, s, i);
    OpenBelow(s, p, k, i);
  }

  lemma OpenReady(c: seq<byte>, s: seq<byte>, p: nat, k: Cont, i: nat)
    requires Ready(c, s, p, k, i) && k.Pend? && k.kind.Run? && k.re.Group?
    ensures Ready(c, s, p + 3, Opened(k, p), i)
  {
    hide Code, Alts, AltsSize, Node, Next, GroupCode;
    var close := p + 3 + AltsSize(k.re.body);
    var inner := Pend(Shut, Empty, k.t, k.rest);
    GroupParts(c, p, k.re.no, k.re.body, k.t);
    assert Located(c, close, inner);
    assert Progress(inner, i, HasWidth(k.re.body));
  }

  lemma OpenBelow(s: seq<byte>, p: nat, k: Cont, i: nat)
    requires k.Pend? && k.kind.Run? && k.re.Group?
    ensures Below(s, Opened(k, p), i, k, i)
  {
    hide AltsSize;
    var inner := Pend(Shut, Empty, k.t, k.rest);
    assert Weight(inner, i) == 1 + Weight(k.rest, i);
    assert Rank(k.re) == Rank(k.re.body) + 3;
  }

  lemma GroupParts(c: seq<byte>, p: nat, no: nat, a: Re, t: nat)
    requires Code(c, p, Group(no, a), t)
    ensures var close := p + 3 + AltsSize(a);
            && Alts(c, p + 3, a, close, close, close)
            && p + 3 <= |c| && Next(c, p) == p + 3
            && close + 3 <= |c| && CLOSE < c[close] < CLOSE + NSUBEXP && Next(c, close) == t
  {
    hide Alts, AltsSize;
    assert GroupCode(c, p, no, a, t);
  }

  lemma OpenEnds(k: Cont, p: nat, s: seq<byte>, i: nat)
    requires k.Pend? && k.re.Group?
    ensures SameEnds(s, k, i, Opened(k, p), i)
  {
    hide Denotes, AltsSize;
    var close := p + 3 + AltsSize(k.re.body);
    var inner := Pend(Shut, Empty, k.t, k.rest);
    var k' := Opened(k, p);
    forall j: nat
      ensures Denotes(k, s, i, j) <==> Denotes(k', s, i, j)
    {
      if Denotes(k, s, i, j) {
        var m := DenotesSplit(k, s, i, j);
        DenotesJoin(Shut, Empty, k.t, k.rest, s, m, m, j);
        DenotesJoin(Arms, k.re.body, close, inner, s, i, m, j);
      }
      if Denotes(k', s, i, j) {
        var m := DenotesSplit(k', s, i, j);
        var m' := DenotesSplit(inner, s, m, j);
        DenotesJoin(k.kind, k.re, k.t, k.rest, s, i, m, j);
      }
    }
  }

  // ----- Choices -----

  /** `ks` are the continuations after each of the chained BRANCH nodes from `p` on. */
  ghost predicate Branches(c: seq<byte>, p: nat, ks: seq<Cont>)
    decreases |ks|
  {
    && |ks| > 0 && p + 3 <= |c| && c[p] == BRANCH && Located(c, p + 3, ks[0])
    && 0 < Next(c, p) < |c|
    && if |ks| == 1 then c[Next(c, p)] != BRANCH else Branches(c, Next(c, p), ks[1..])
  }

  /** The alternatives at a choice, in the order they are tried. */
  ghost function Choices(k: Cont, p: nat, i: nat): seq<Cont>
    requires IsChoice(k)
  {
    match k.kind
    case Run =>
      if k.re.Opt? then
        [Pend(Run, k.re.rep, p + 6 + Size(k.re.rep), Pend(Run, Empty, k.t, k.rest)), Pend(Run, Empty, k.t, k.rest)]
      else
        [Pend(Run, k.re.rep, p + 3 + Size(k.re.rep), Pend(Loop(i), k.re, k.t, k.rest)), Pend(Run, Empty, k.t, k.rest)]
    case Arms => ArmConts(k.re, k.t, k.rest)
    case Again(from, _) =>
      if k.re.Star? then [Pend(Loop(from), Plus(k.re.rep), k.t, k.rest), Pend(Run, Empty, k.t, k.rest)] else []
  }

  ghost function ArmConts(r: Re, t: nat, rest: Cont): (ks: seq<Cont>)
    ensures |ks| > 0
  {
    if r.Alt? then ArmConts(r.left, t, rest) + [Pend(Run, r.right, t, rest)] else [Pend(Run, r, t, rest)]
  }

  /** Every alternative is a configuration below the choice. */
  ghost predicate AllBelow(c: seq<byte>, s: seq<byte>, ks: seq<Cont>, k: Cont, i: nat) {
    forall m :: 0 <= m < |ks| ==> Progress(ks[m], i, false) && Weight(ks[m], i) < Weight(k, i)
  }

  /** The choice means the union of its alternatives. */
  ghost predicate UnionEnds(s: seq<byte>, k: Cont, ks: seq<Cont>, i: nat) {
    forall j: nat :: Denotes(k, s, i, j) <==> AnyDenotes(ks, s, i, j)
  }

  ghost predicate AnyDenotes(ks: seq<Cont>, s: seq<byte>, i: nat, j: nat) {
    exists m :: 0 <= m < |ks| && Denotes(ks[m], s, i, j)
  }

  lemma AnySnoc(ks: seq<Cont>, k: Cont, s: seq<byte>, i: nat, j: nat)
    ensures AnyDenotes(ks + [k], s, i, j) <==> AnyDenotes(ks, s, i, j) || Denotes(k, s, i, j)
  {
    var all := ks + [k];
    if AnyDenotes(ks, s, i, j) {
      var m :| 0 <= m < |ks| && Denotes(ks[m], s, i, j);
      assert Denotes(all[m], s, i, j);
    }
    if Denotes(k, s, i, j) {
      assert Denotes(all[|ks|], s, i, j);
    }
    if AnyDenotes(all, s, i, j) {
      var m :| 0 <= m < |all| && Denotes(all[m], s, i, j);
      if m < |ks| { assert Denotes(ks[m], s, i, j); }
    }
  }

  lemma PairBranches(c: seq<byte>, p: nat, q: nat, k0: Cont, k1: Cont)
    requires Node(c, p, BRANCH, q) && Node(c, q, BRANCH, q + 3) && q > 0 && q + 6 <= |c| && c[q + 3] != BRANCH
    requires Located(c, p + 3, k0) && Located(c, q + 3, k1)
    ensures Branches(c, p, [k0, k1])
  {
    hide Located;
    assert [k0, k1][1..] == [k1];
    assert Branches(c, q, [k1]);
  }

  lemma EmptyLocated(c: seq<byte>, p: nat, t: nat, rest: Cont)
    requires Node(c, p, NOTHING, t) && p > 0 && Located(c, t, rest)
    ensures Located(c, p, Pend(Run, Empty, t, rest))
  {
    hide Located;
    EmptyLocated'(c, p, t, rest);
  }

  lemma EmptyLocated'(c: seq<byte>, p: nat, t: nat, rest: Cont)
    requires Node(c, p, NOTHING, t) && p > 0 && Located(c, t, rest)
    ensures Located(c, p, Pend(Run, Empty, t, rest))
  {
  }

  lemma StarChoice(c: seq<byte>, s: seq<byte>, p: nat, k: Cont, i: nat)
    requires Ready(c, s, p, k, i) && k.Pend? && k.kind.Run? && k.re.Star? && !IsSimple(k.re.rep)
    ensures Branches(c, p, Choices(k, p, i)) && AllBelow(c, s, Choices(k, p, i), k, i)
  {
    hide Alts, Node, Leaf, GroupCode, SimpleCode, PlusCode, OptCode, Size, AltsSize;
    var a := k.re.rep;
    var back := p + 3 + Size(a);
    var k1 := Pend(Run, Empty, k.t, k.rest);
    var loop := Pend(Loop(i), k.re, k.t, k.rest);
    var k0 := Pend(Run, a, back, loop);
    assert StarCode(c, p, a, k.t);
    NodeNext(c, back, BACK, p);
    NodeNext(c, back + 6, NOTHING, k.t);
    EmptyLocated(c, back + 6, k.t, k.rest);
    assert Located(c, back, loop);
    assert Located(c, p + 3, k0);
    PairBranches(c, p, back + 3, k0, k1);
    ProgressMonotone(k.rest, i, i, false, true);
    assert Progress(loop, i, HasWidth(a));
    assert Weight(loop, i) == Weight(k.rest, i);
    assert Weight(k0, i) < Weight(k, i) && Weight(k1, i) < Weight(k, i);
  }

  lemma OptChoice(c: seq<byte>, s: seq<byte>, p: nat, k: Cont, i: nat)
    requires Ready(c, s, p, k, i) && k.Pend? && k.kind.Run? && k.re.Opt?
    ensures Branches(c, p, Choices(k, p, i)) && AllBelow(c, s, Choices(k, p, i), k, i)
  {
    hide Alts, Node, Leaf, GroupCode, SimpleCode, PlusCode, StarCode, Size, AltsSize;
    var a := k.re.rep;
    var none := p + 3 + Size(a);
    var k1 := Pend(Run, Empty, k.t, k.rest);
    var k0 := Pend(Run, a, none + 3, k1);
    assert OptCode(c, p, a, k.t);
    NodeNext(c, none + 3, NOTHING, k.t);
    EmptyLocated(c, none + 3, k.t, k.rest);
    assert Located(c, p + 3, k0);
    PairBranches(c, p, none, k0, k1);
    ProgressMonotone(k1, i, i, false, HasWidth(a));
    assert Weight(k1, i) == 1 + Weight(k.rest, i);
    assert Weight(k0, i) < Weight(k, i);
  }

  lemma AgainChoice(c: seq<byte>, s: seq<byte>, p: nat, k: Cont, i: nat)
    requires Ready(c, s, p, k, i) && k.Pend? && k.kind.Again?
    ensures Branches(c, p, Choices(k, p, i)) && AllBelow(c, s, Choices(k, p, i), k, i)
  {
    hide Alts, Node, Leaf, GroupCode, SimpleCode, OptCode, StarCode, Size, AltsSize;
    var a := k.re.rep;
    var k1 := Pend(Run, Empty, k.t, k.rest);
    var k0 := Pend(Loop(k.kind.from), Plus(a), k.t, k.rest);
    assert PlusCode(c, k.kind.head, a, k.t);
    NodeNext(c, p + 3, BACK, k.kind.head);
    NodeNext(c, p + 9, NOTHING, k.t);
    EmptyLocated(c, p + 9, k.t, k.rest);
    PlusIntro(c, k.kind.head, a, k.t);
    assert Located(c, p + 3, k0);
    PairBranches(c, p, p + 6, k0, k1);
    ProgressMonotone(k.rest, i, i, false, true);
    assert Weight(k1, i) == 1 + Weight(k.rest, i);
    assert Weight(k0, i) < Weight(k, i);
  }

  lemma PlusIntro(c: seq<byte>, p: nat, a: Re, t: nat)
    requires PlusCode(c, p, a, t) && !IsSimple(a) && p + 12 + Size(a) <= |c|
    ensures Code(c, p, Plus(a), t)
  {
    hide PlusCode;
  }

  // ----- The arms of a group -----

  lemma {:induction false} ArmsBranches(c: seq<byte>, p: nat, r: Re, t: nat, rest: Cont, nt: nat, tail: seq<Cont>)
    requires Alts(c, p, r, nt, t, t) && p > 0 && p + AltsSize(r) <= t && WellFormed(r) && Located(c, t, rest)
    requires 0 < nt < |c|
    requires if |tail| == 0 then c[nt] != BRANCH else Branches(c, nt, tail)
    ensures Branches(c, p, ArmConts(r, t, rest) + tail)
    decreases r
  {
    hide Node, Located, Code, Size, Branches, Arm;
    if r.Alt? {
      var m := p + AltsSize(r.left);
      var k := Pend(Run, r.right, t, rest);
      AltsBounds(c, p, r.left, m, t, t);
      ArmBranch(c, m, r.right, t, rest, nt, tail);
      ArmsBranches(c, p, r.left, t, rest, m, [k] + tail);
      assert ArmConts(r, t, rest) + tail == ArmConts(r.left, t, rest) + ([k] + tail);
    } else {
      ArmBranch(c, p, r, t, rest, nt, tail);
      assert ArmConts(r, t, rest) + tail == [Pend(Run, r, t, rest)] + tail;
    }
  }

  lemma ArmBranch(c: seq<byte>, p: nat, b: Re, t: nat, rest: Cont, nt: nat, tail: seq<Cont>)
    requires Arm(c, p, b, nt, t, t) && p > 0 && p < t && WellFormed(b) && Located(c, t, rest)
    requires 0 < nt < |c|
    requires if |tail| == 0 then c[nt] != BRANCH else Branches(c, nt, tail)
    ensures Branches(c, p, [Pend(Run, b, t, rest)] + tail) && p < |c|
  {
    hide Code;
    NodeNext(c, p, BRANCH, nt);
    assert Located(c, p + 3, Pend(Run, b, t, rest));
    assert ([Pend(Run, b, t, rest)] + tail)[1..] == tail;
  }

  lemma {:induction false} ArmsBelow(c: seq<byte>, s: seq<byte>, r: Re, t: nat, rest: Cont, i: nat, w: bool)
    requires Progress(rest, i, w) && (w ==> HasWidth(r))
    ensures forall m :: 0 <= m < |ArmConts(r, t, rest)| ==>
              && Progress(ArmConts(r, t, rest)[m], i, false)
              && Weight(ArmConts(r, t, rest)[m], i) <= Rank(r) + Weight(rest, i)
    decreases r
  {
    if r.Alt? {
      ArmsBelow(c, s, r.left, t, rest, i, w);
      ProgressMonotone(rest, i, i, w, HasWidth(r.right));
    } else {
      ProgressMonotone(rest, i, i, w, HasWidth(r));
    }
  }

  lemma {:induction false} ArmsUnion(r: Re, kind: Kind, t': nat, t: nat, rest: Cont, s: seq<byte>, i: nat, j: nat)
    ensures Denotes(Pend(kind, r, t', rest), s, i, j) <==> AnyDenotes(ArmConts(r, t, rest), s, i, j)
    decreases r
  {
    hide AnyDenotes;
    if r.Alt? {
      ArmsUnion(r.left, kind, t', t, rest, s, i, j);
      AltEnds(r.left, r.right, kind, t', t, rest, s, i, j);
      AnySnoc(ArmConts(r.left, t, rest), Pend(Run, r.right, t, rest), s, i, j);
    } else {
      SwapFront(Pend(kind, r, t', rest), Run, r, t, s, i);
      AnySnoc([], Pend(Run, r, t, rest), s, i, j);
      assert [] + [Pend(Run, r, t, rest)] == ArmConts(r, t, rest);
      NoneDenotes(s, i, j);
    }
  }

  lemma NoneDenotes(s: seq<byte>, i: nat, j: nat)
    ensures !AnyDenotes([], s, i, j)
  {
  }

  lemma AltEnds(a: Re, b: Re, kind: Kind, t': nat, t: nat, rest: Cont, s: seq<byte>, i: nat, j: nat)
    ensures Denotes(Pend(kind, Alt(a, b), t', rest), s, i, j) <==>
            Denotes(Pend(kind, a, t', rest), s, i, j) || Denotes(Pend(Run, b, t, rest), s, i, j)
  {
    hide Denotes;
    var k, ka, kb := Pend(kind, Alt(a, b), t', rest), Pend(kind, a, t', rest), Pend(Run, b, t, rest);
    if Denotes(k, s, i, j) {
      var m := DenotesSplit(k, s, i, j);
      if Matches(a, s, i, m) { DenotesJoin(kind, a, t', rest, s, i, m, j); } else { DenotesJoin(Run, b, t, rest, s, i, m, j); }
    }
    if Denotes(ka, s, i, j) {
      var m := DenotesSplit(ka, s, i, j);
      DenotesJoin(kind, Alt(a, b), t', rest, s, i, m, j);
    }
    if Denotes(kb, s, i, j) {
      var m := DenotesSplit(kb, s, i, j);
      DenotesJoin(kind, Alt(a, b), t', rest, s, i, m, j);
    }
  }

  lemma ArmsChoice(c: seq<byte>, s: seq<byte>, p: nat, k: Cont, i: nat)
    requires Ready(c, s, p, k, i) && k.Pend? && k.kind.Arms?
    ensures Branches(c, p, Choices(k, p, i)) && AllBelow(c, s, Choices(k, p, i), k, i)
  {
    hide Alts, Code, AltsSize, Branches;
    var ks := ArmConts(k.re, k.t, k.rest);
    RestNotBranch(c, k.t, k.rest, p, k.re);
    ArmsBranches(c, p, k.re, k.t, k.rest, k.t, []);
    assert ks + [] == ks;
    ArmsBelow(c, s, k.re, k.t, k.rest, i, HasWidth(k.re));
  }

  /** What follows a group is its CLOSE node, and what follows the whole pattern is END: never a BRANCH. */
  lemma RestNotBranch(c: seq<byte>, t: nat, rest: Cont, p: nat, re: Re)
    requires Located(c, t, rest) && (rest.Done? || (rest.Pend? && rest.kind.Shut?))
    ensures t < |c| && c[t] != BRANCH
  {
  }

  // ----- A choice means the union of its alternatives -----

  lemma PairUnion(k: Cont, k0: Cont, k1: Cont, s: seq<byte>, i: nat)
    requires forall j: nat :: Denotes(k, s, i, j) <==> Denotes(k0, s, i, j) || Denotes(k1, s, i, j)
    ensures UnionEnds(s, k, [k0, k1], i)
  {
    hide AnyDenotes;
    forall j: nat
      ensures Denotes(k, s, i, j) <==> AnyDenotes([k0, k1], s, i, j)
    {
      NoneDenotes(s, i, j);
      AnySnoc([], k0, s, i, j);
      AnySnoc([] + [k0], k1, s, i, j);
      assert [] + [k0] + [k1] == [k0, k1];
    }
  }

  lemma EmptyEnds(t: nat, rest: Cont, s: seq<byte>, i: nat, j: nat)
    requires i <= |s|
    ensures Denotes(Pend(Run, Empty, t, rest), s, i, j) <==> Denotes(rest, s, i, j)
  {
    hide Denotes;
    var k := Pend(Run, Empty, t, rest);
    if Denotes(k, s, i, j) { var m := DenotesSplit(k, s, i, j); }
    if Denotes(rest, s, i, j) { DenotesJoin(Run, Empty, t, rest, s, i, i, j); }
  }

  /** A tree that means "nothing, or `re`" in front. */
  lemma OptionalEnds(k: Cont, kind: Kind, re: Re, t: nat, s: seq<byte>, i: nat, j: nat)
    requires k.Pend? && i <= |s|
    requires forall m: nat :: Matches(k.re, s, i, m) <==> Matches(re, s, i, m) || m == i
    ensures Denotes(k, s, i, j) <==> Denotes(Pend(kind, re, t, k.rest), s, i, j) || Denotes(k.rest, s, i, j)
  {
    hide Denotes, Matches;
    var k' := Pend(kind, re, t, k.rest);
    if Denotes(k, s, i, j) {
      var m := DenotesSplit(k, s, i, j);
      if m != i { DenotesJoin(kind, re, t, k.rest, s, i, m, j); }
    }
    if Denotes(k', s, i, j) {
      var m := DenotesSplit(k', s, i, j);
      DenotesJoin(k.kind, k.re, k.t, k.rest, s, i, m, j);
    }
    if Denotes(k.rest, s, i, j) {
      DenotesJoin(k.kind, k.re, k.t, k.rest, s, i, i, j);
    }
  }

  lemma AgainUnion(k: Cont, from: nat, s: seq<byte>, i: nat)
    requires k.Pend? && k.re.Star? && HasWidth(k.re.rep) && i <= |s|
    ensures UnionEnds(s, k, [Pend(Loop(from), Plus(k.re.rep), k.t, k.rest), Pend(Run, Empty, k.t, k.rest)], i)
  {
    hide Denotes, Matches, HasWidth;
    var k0, k1 := Pend(Loop(from), Plus(k.re.rep), k.t, k.rest), Pend(Run, Empty, k.t, k.rest);
    forall m: nat
      ensures Matches(k.re, s, i, m) <==> Matches(Plus(k.re.rep), s, i, m) || m == i
    {
      StarIsPlusOrEmpty(k.re.rep, s, i, m);
    }
    forall j: nat
      ensures Denotes(k, s, i, j) <==> Denotes(k0, s, i, j) || Denotes(k1, s, i, j)
    {
      OptionalEnds(k, Loop(from), Plus(k.re.rep), k.t, s, i, j);
      EmptyEnds(k.t, k.rest, s, i, j);
    }
    PairUnion(k, k0, k1, s, i);
  }

  lemma StarUnion(k: Cont, b: nat, s: seq<byte>, i: nat)
    requires k.Pend? && k.re.Star? && HasWidth(k.re.rep) && i <= |s|
    ensures UnionEnds(s, k, [Pend(Run, k.re.rep, b, Pend(Loop(i), k.re, k.t, k.rest)), Pend(Run, Empty, k.t, k.rest)], i)
  {
    hide Denotes, Matches, HasWidth;
    var a := k.re.rep;
    var k0, k1 := Pend(Run, a, b, Pend(Loop(i), k.re, k.t, k.rest)), Pend(Run, Empty, k.t, k.rest);
    forall m: nat
      ensures Matches(k.re, s, i, m) <==> Matches(Cat(a, Star(a)), s, i, m) || m == i
    {
      StarIsPlusOrEmpty(a, s, i, m);
      PlusIsCat(a, s, i, m);
    }
    CatEnds(a, Star(a), Run, b, Loop(i), Run, k.t, k.rest, s, i);
    forall j: nat
      ensures Denotes(k, s, i, j) <==> Denotes(k0, s, i, j) || Denotes(k1, s, i, j)
    {
      OptionalEnds(k, Run, Cat(a, Star(a)), k.t, s, i, j);
      EmptyEnds(k.t, k.rest, s, i, j);
      assert k0 == Pend(Run, a, b, Pend(Loop(i), Star(a), k.t, k.rest));
    }
    PairUnion(k, k0, k1, s, i);
  }

  lemma OptUnion(k: Cont, b: nat, s: seq<byte>, i: nat)
    requires k.Pend? && k.re.Opt? && i <= |s|
    ensures UnionEnds(s, k, [Pend(Run, k.re.rep, b, Pend(Run, Empty, k.t, k.rest)), Pend(Run, Empty, k.t, k.rest)], i)
  {
    hide Denotes;
    var a := k.re.rep;
    var k1 := Pend(Run, Empty, k.t, k.rest);
    var k0 := Pend(Run, a, b, k1);
    assert forall m: nat :: Matches(k.re, s, i, m) <==> Matches(a, s, i, m) || m == i;
    forall j: nat
      ensures Denotes(k, s, i, j) <==> Denotes(k0, s, i, j) || Denotes(k1, s, i, j)
    {
      OptionalEnds(k, Run, a, k.t, s, i, j);
      EmptyEnds(k.t, k.rest, s, i, j);
      BeforeEmpty(a, b, k.t, k.rest, s, i, j);
    }
    PairUnion(k, k0, k1, s, i);
  }

  lemma BeforeEmpty(a: Re, b: nat, t: nat, rest: Cont, s: seq<byte>, i: nat, j: nat)
    ensures Denotes(Pend(Run, a, b, Pend(Run, Empty, t, rest)), s, i, j) <==> Denotes(Pend(Run, a, t, rest), s, i, j)
  {
    hide Denotes, Matches;
    var k1 := Pend(Run, Empty, t, rest);
    var k0, k := Pend(Run, a, b, k1), Pend(Run, a, t, rest);
    if Denotes(k0, s, i, j) {
      var m := DenotesSplit(k0, s, i, j);
      MatchesBounds(a, s, i, m);
      EmptyEnds(t, rest, s, m, j);
      DenotesJoin(Run, a, t, rest, s, i, m, j);
    }
    if Denotes(k, s, i, j) {
      var m := DenotesSplit(k, s, i, j);
      MatchesBounds(a, s, i, m);
      EmptyEnds(t, rest, s, m, j);
      DenotesJoin(Run, a, b, k1, s, i, m, j);
    }
  }

  /** The BRANCH chain at a choice carries its alternatives, all below it, and nothing is lost or added. */
  lemma PassChoice(c: seq<byte>, s: seq<byte>, p: nat, k: Cont, i: nat)
    requires Ready(c, s, p, k, i) && IsChoice(k)
    ensures var ks := Choices(k, p, i);
            Branches(c, p, ks) && AllBelow(c, s, ks, k, i) && UnionEnds(s, k, ks, i)
  {
    hide Branches, AllBelow, UnionEnds, Progress, Denotes, Size, HeadAt;
    match k.kind
    case Run =>
      if k.re.Opt? {
        OptChoice(c, s, p, k, i);
        OptUnion(k, p + 6 + Size(k.re.rep), s, i);
      } else {
        StarChoice(c, s, p, k, i);
        StarUnion(k, p + 3 + Size(k.re.rep), s, i);
      }
    case Arms =>
      ArmsChoice(c, s, p, k, i);
      ArmsUnionAll(k, s, i);
    case Again(from, _) =>
      AgainShape(c, p, k);
      AgainChoice(c, s, p, k, i);
      AgainUnion(k, from, s, i);
  }

  lemma AgainShape(c: seq<byte>, p: nat, k: Cont)
    requires Located(c, p, k) && k.Pend? && k.kind.Again?
    ensures k.re.Star?
  {
  }

  lemma ArmsUnionAll(k: Cont, s: seq<byte>, i: nat)
    requires k.Pend?
    ensures UnionEnds(s, k, ArmConts(k.re, k.t, k.rest), i)
  {
    hide AnyDenotes;
    forall j: nat
      ensures Denotes(k, s, i, j) <==> AnyDenotes(ArmConts(k.re, k.t, k.rest), s, i, j)
    {
      ArmsUnion(k.re, k.kind, k.t, k.t, k.rest, s, i, j);
    }
  }

  // ----- Repeating a one-byte operand -----

  /** Byte `b` matches the simple tree `a`. */
  ghost predicate OneByte(a: Re, b: byte) {
    match a
    case Any => true
    case Set(negated, chars) => (b in chars) != negated
    case Exactly(str) => str == [b]
    case _ => false
  }

  lemma SimpleMatches(a: Re, s: seq<byte>, i: nat, j: nat)
    requires IsSimple(a)
    ensures Matches(a, s, i, j) <==> j == i + 1 && i < |s| && OneByte(a, s[i])
  {
    if a.Exactly? && i < j <= |s| {
      assert s[i..j] == a.str ==> s[i] == a.str[0] && j == i + 1;
      if j == i + 1 { assert s[i..j] == [s[i]]; }
    }
  }

  /** From `i`, exactly `n` bytes in a row match `a`. */
  ghost predicate MaximalRun(a: Re, s: seq<byte>, i: nat, n: nat) {
    && i + n <= |s|
    && (forall m :: i <= m < i + n ==> OneByte(a, s[m]))
    && (i + n < |s| ==> !OneByte(a, s[i + n]))
  }

  lemma {:induction false} SimpleStar(a: Re, s: seq<byte>, i: nat, n: nat, j: nat)
    requires IsSimple(a) && MaximalRun(a, s, i, n)
    ensures Matches(Star(a), s, i, j) <==> i <= j <= i + n
    decreases n
  {
    if n > 0 && j != i {
      SimpleStar(a, s, i + 1, n - 1, j);
      if Matches(Star(a), s, i, j) {
        var x := StarSplit(a, s, i, j);
        SimpleMatches(a, s, i, x);
      }
      if i <= j <= i + n {
        SimpleMatches(a, s, i, i + 1);
        StarJoin(a, s, i, i + 1, j);
      }
    } else if j != i && Matches(Star(a), s, i, j) {
      var x := StarSplit(a, s, i, j);
      SimpleMatches(a, s, i, x);
    }
  }

  lemma SimplePlus(a: Re, s: seq<byte>, i: nat, n: nat, j: nat)
    requires IsSimple(a) && MaximalRun(a, s, i, n)
    ensures Matches(Plus(a), s, i, j) <==> i + 1 <= j <= i + n
  {
    hide Matches;
    if Matches(Plus(a), s, i, j) {
      var x := PlusSplit(a, s, i, j);
      SimpleMatches(a, s, i, x);
      assert n > 0;
      assert MaximalRun(a, s, i + 1, n - 1);
      SimpleStar(a, s, i + 1, n - 1, j);
    }
    if i + 1 <= j <= i + n {
      SimpleMatches(a, s, i, i + 1);
      assert MaximalRun(a, s, i + 1, n - 1);
      SimpleStar(a, s, i + 1, n - 1, j);
      PlusJoin(a, s, i, i + 1, j);
    }
  }

  ghost function MinCount(re: Re): nat {
    if re.Star? then 0 else 1
  }

  /** A simple STAR or PLUS: the rest is tried after every count from the minimum to the longest run. */
  lemma PassSimple(c: seq<byte>, s: seq<byte>, p: nat, k: Cont, i: nat)
    requires Ready(c, s, p, k, i) && k.Pend? && k.kind.Run? && (k.re.Star? || k.re.Plus?) && IsSimple(k.re.rep)
    ensures p + 6 <= |c| && Next(c, p) == k.t && Leaf(c, p + 3, k.re.rep, 0) && WellFormed(k.re.rep)
    ensures forall m: nat :: i + MinCount(k.re) <= m <= |s| ==>
              Ready(c, s, k.t, k.rest, m) && Below(s, k.rest, m, k, i)
  {
    hide Code;
    SimpleParts(c, p, k.re, k.t);
    forall m: nat | i + MinCount(k.re) <= m <= |s|
      ensures Ready(c, s, k.t, k.rest, m) && Below(s, k.rest, m, k, i)
    {
      ProgressMonotone(k.rest, i, m, HasWidth(k.re), false);
    }
  }

  lemma SimpleParts(c: seq<byte>, p: nat, re: Re, t: nat)
    requires Code(c, p, re, t) && (re.Star? || re.Plus?) && IsSimple(re.rep)
    ensures p + 6 <= |c| && Next(c, p) == t && Leaf(c, p + 3, re.rep, 0)
  {
    hide Text;
    assert SimpleCode(c, p, if re.Star? then STAR else PLUS, re.rep, t);
    assert Code(c, p + 3, re.rep, 0);
  }

  lemma SimpleEnds(k: Cont, s: seq<byte>, i: nat, n: nat, j: nat)
    requires k.Pend? && (k.re.Star? || k.re.Plus?) && IsSimple(k.re.rep) && MaximalRun(k.re.rep, s, i, n)
    ensures Denotes(k, s, i, j) <==> exists m: nat :: i + MinCount(k.re) <= m <= i + n && Denotes(k.rest, s, m, j)
  {
    hide Denotes, Matches, MaximalRun;
    if Denotes(k, s, i, j) {
      var m := DenotesSplit(k, s, i, j);
      if k.re.Star? { SimpleStar(k.re.rep, s, i, n, m); } else { SimplePlus(k.re.rep, s, i, n, m); }
      assert i + MinCount(k.re) <= m <= i + n && Denotes(k.rest, s, m, j);
    }
    forall m: nat | i + MinCount(k.re) <= m <= i + n && Denotes(k.rest, s, m, j)
      ensures Denotes(k, s, i, j)
    {
      if k.re.Star? { SimpleStar(k.re.rep, s, i, n, m); } else { SimplePlus(k.re.rep, s, i, n, m); }
      DenotesJoin(k.kind, k.re, k.t, k.rest, s, i, m, j);
    }
  }

  /** The lookahead: if the node control goes to is EXACTLY, the next byte must be the first of its string. */
  lemma Lookahead(c: seq<byte>, s: seq<byte>, p: nat, k: Cont, i: nat)
    requires Ready(c, s, p, k, i)
    requires p + 3 < |c| && c[p] == EXACTLY && (i == |s| || s[i] != c[p + 3])
    ensures Dead(s, k, i)
  {
    hide Ready, Denotes, Expand, IsHead;
    ExpandSound(c, s, p, k, i);
    var k' := Expand(k, p, i);
    HeadShape(c, s, p, k', i);
    PassLeaf(c, s, p, k', i);
    ExactlyFirst(c, s, p, k', i);
  }

  lemma ExactlyFirst(c: seq<byte>, s: seq<byte>, p: nat, k: Cont, i: nat)
    requires Ready(c, s, p, k, i) && k.Pend? && k.kind.Run? && IsLeaf(k.re) && Leaf(c, p, k.re, k.t)
    requires p + 3 < |c| && c[p] == EXACTLY && (i == |s| || s[i] != c[p + 3])
    ensures LeafEnd(k.re, s, i) < 0
  {
    assert k.re.Exactly?;
    var str := k.re.str;
    assert str[0] == c[p + 3];
    if i + |str| <= |s| {
      assert s[i..i + |str|][0] == s[i];
    }
  }
}
