/**
  The pointer structure of a finished program: every node on it has a next pointer that leads to another node,
  forward unless the node is BACK. The only nodes without one are END and the operands of STAR and PLUS.
*/
module RegexNodes {
  import opened Bytes
  import opened RegexSyntax
  import opened RegexCode

  /** A node of the code of `r` at `p` starts at `x`; operands of STAR and PLUS are not counted. */
  ghost predicate NodeAt(p: nat, r: Re, x: nat)
    decreases r, 0
  {
    match r
    case Cat(a, b) => NodeAt(p, a, x) || NodeAt(p + Size(a), b, x)
    case Alt(_, _) => false
    case Group(_, a) => x == p || ArmNodeAt(p + 3, a, x) || x == p + 3 + AltsSize(a)
    case Star(a) => x == p || (!IsSimple(a) && (NodeAt(p + 3, a, x) || LoopNode(p + 3 + Size(a), x)))
    case Plus(a) =>
      if IsSimple(a) then x == p
      else NodeAt(p, a, x) || x == p + Size(a) || LoopNode(p + Size(a) + 3, x)
    case Opt(a) => x == p || NodeAt(p + 3, a, x) || x == p + 3 + Size(a) || x == p + 6 + Size(a)
    case _ => x == p
  }

  /** The three nodes that close a loop: BACK, BRANCH and NOTHING. */
  ghost predicate LoopNode(back: nat, x: nat) { x == back || x == back + 3 || x == back + 6 }

  /** The same for alternatives. */
  ghost predicate ArmNodeAt(p: nat, r: Re, x: nat)
    decreases r, 1
  {
    match r
    case Alt(a, b) => ArmNodeAt(p, a, x) || x == p + AltsSize(a) || NodeAt(p + AltsSize(a) + 3, b, x)
    case _ => x == p || NodeAt(p + 3, r, x)
  }

  /** Node `x` leads to `n`, in the right direction. */
  ghost predicate Leads(c: seq<byte>, x: nat, n: nat) {
    x + 3 <= |c| && n > 0 && Next(c, x) == n && (c[x] == BACK <==> n < x) && n != x
  }

  lemma NodeLeads(c: seq<byte>, x: nat, op: byte, n: nat)
    requires Node(c, x, op, n) && n > 0 && (op == BACK <==> n < x)
    ensures Leads(c, x, n)
  {
  }

  lemma {:induction false} FirstNode(p: nat, r: Re)
    requires !r.Alt? && (r.Cat? ==> WellFormed(r)) && (r.Plus? ==> WellFormed(r))
    ensures NodeAt(p, r, p)
    decreases r
  {
    hide AltsSize, Size;
    match r
    case Cat(a, b) => FirstNode(p, a);
    case Plus(a) => if !IsSimple(a) { FirstNode(p, a); }
    case _ =>
  }

  lemma {:induction false} FirstArmNode(p: nat, r: Re)
    ensures ArmNodeAt(p, r, p)
    decreases r
  {
    hide NodeAt, AltsSize;
    if r.Alt? { FirstArmNode(p, r.left); }
  }

  /** Node `x` leads to a node of the code of `r` at `p`, or to its exit `t`. */
  ghost predicate Lands(c: seq<byte>, p: nat, r: Re, t: nat, x: nat) {
    p <= x && exists n: nat :: Leads(c, x, n) && (n == t || NodeAt(p, r, n))
  }

  /** Code with exit `t` behind it: every node leads to a node or to the exit. */
  lemma {:induction false} NodesLand(c: seq<byte>, p: nat, r: Re, t: nat, x: nat)
    requires Code(c, p, r, t) && WellFormed(r) && p > 0 && p + Size(r) <= t && NodeAt(p, r, x)
    ensures Lands(c, p, r, t, x)
    decreases r, 0
  {
    hide Code, Size, NodeAt;
    SizePositive(r);
    if r.Cat? {
      CatLand(c, p, r, t, x);
    } else if r.Group? {
      GroupLand(c, p, r, t, x);
    } else if r.Star? && !IsSimple(r.rep) {
      StarLand(c, p, r, t, x);
    } else if r.Plus? && !IsSimple(r.rep) {
      PlusLand(c, p, r, t, x);
    } else if r.Opt? {
      OptLand(c, p, r, t, x);
    } else {
      OneLand(c, p, r, t, x);
    }
  }

  /** A landing inside a part is one in the whole, if what the part exits to is a node of the whole, or its exit. */
  lemma Widen(c: seq<byte>, p: nat, r: Re, t: nat, x: nat, q: nat, a: Re, u: nat)
    requires Lands(c, q, a, u, x) && p <= q && (u == t || NodeAt(p, r, u))
    requires forall n: nat :: NodeAt(q, a, n) ==> NodeAt(p, r, n)
    ensures Lands(c, p, r, t, x)
  {
    hide NodeAt, Leads;
  }

  lemma {:induction false} CatLand(c: seq<byte>, p: nat, r: Re, t: nat, x: nat)
    requires Code(c, p, r, t) && WellFormed(r) && p > 0 && p + Size(r) <= t && NodeAt(p, r, x) && r.Cat?
    ensures Lands(c, p, r, t, x)
    decreases r, 0, 0
  {
    hide Lands, Code, Size, Last, NodeAt, WellFormed;
    var a, b := r.first, r.second;
    var m := p + Size(a);
    CatParts(c, p, r, t);
    LastOfCat(p, r);
    CatNodes(p, r);
    if NodeAt(p, a, x) {
      NodesLand(c, p, a, m, x);
      Widen(c, p, r, t, x, p, a, m);
    } else {
      NodesLand(c, m, b, t, x);
      Widen(c, p, r, t, x, m, b, t);
    }
  }

  lemma CatNodes(p: nat, r: Re)
    requires r.Cat? && WellFormed(r)
    ensures WellFormed(r.first) && WellFormed(r.second) && NodeAt(p, r, p + Size(r.first))
    ensures forall n: nat :: NodeAt(p, r, n) <==> NodeAt(p, r.first, n) || NodeAt(p + Size(r.first), r.second, n)
  {
    hide Size, NodeAt, Level;
    CatNodesAre(p, r);
    CatSecond(r);
    FirstNode(p + Size(r.first), r.second);
  }

  lemma CatNodesAre(p: nat, r: Re)
    requires r.Cat?
    ensures forall n: nat :: NodeAt(p, r, n) <==> NodeAt(p, r.first, n) || NodeAt(p + Size(r.first), r.second, n)
  {
    hide Size, AltsSize, IsSimple;
  }

  lemma CatSecond(r: Re)
    requires r.Cat? && WellFormed(r)
    ensures !r.second.Alt?
  {
  }

  lemma OneLand(c: seq<byte>, p: nat, r: Re, t: nat, x: nat)
    requires Code(c, p, r, t) && p + 3 <= t && NodeAt(p, r, x)
    requires !r.Cat? && !r.Group? && !r.Opt? && !((r.Star? || r.Plus?) && !IsSimple(r.rep))
    ensures Lands(c, p, r, t, x)
  {
    hide AltsSize, Size, Text;
    NodeLeads(c, p, c[p], t);
  }

  lemma {:induction false} StarLand(c: seq<byte>, p: nat, r: Re, t: nat, x: nat)
    requires Code(c, p, r, t) && WellFormed(r) && p > 0 && p + Size(r) <= t && NodeAt(p, r, x) && r.Star? && !IsSimple(r.rep)
    ensures Lands(c, p, r, t, x)
    decreases r, 0, 0
  {
    hide Code, Size, Lands, Leads, Node, NodeAt, WellFormed;
    var a := r.rep;
    var back := p + 3 + Size(a);
    StarNodes(c, p, r, t);
    if x == p {
      NodeLeads(c, p, BRANCH, back + 3);
      Here(c, p, r, t, x, back + 3);
    } else if NodeAt(p + 3, a, x) {
      NodesLand(c, p + 3, a, back, x);
      Widen(c, p, r, t, x, p + 3, a, back);
    } else if x == back {
      NodeLeads(c, back, BACK, p);
      Here(c, p, r, t, x, p);
    } else if x == back + 3 {
      NodeLeads(c, back + 3, BRANCH, back + 6);
      Here(c, p, r, t, x, back + 6);
    } else {
      NodeLeads(c, back + 6, NOTHING, t);
      Here(c, p, r, t, x, t);
    }
  }

  lemma Here(c: seq<byte>, p: nat, r: Re, t: nat, x: nat, n: nat)
    requires Leads(c, x, n) && p <= x && (n == t || NodeAt(p, r, n))
    ensures Lands(c, p, r, t, x)
  {
  }

  lemma {:induction false} PlusLand(c: seq<byte>, p: nat, r: Re, t: nat, x: nat)
    requires Code(c, p, r, t) && WellFormed(r) && p > 0 && p + Size(r) <= t && NodeAt(p, r, x) && r.Plus? && !IsSimple(r.rep)
    ensures Lands(c, p, r, t, x)
    decreases r, 0, 0
  {
    hide Code, Size, Lands, Leads, Node, NodeAt, WellFormed;
    var a := r.rep;
    var again := p + Size(a);
    PlusNodes(c, p, r, t);
    if NodeAt(p, a, x) {
      NodesLand(c, p, a, again, x);
      Widen(c, p, r, t, x, p, a, again);
    } else if x == again {
      NodeLeads(c, again, BRANCH, again + 6);
      Here(c, p, r, t, x, again + 6);
    } else if x == again + 3 {
      NodeLeads(c, again + 3, BACK, p);
      Here(c, p, r, t, x, p);
    } else if x == again + 6 {
      NodeLeads(c, again + 6, BRANCH, again + 9);
      Here(c, p, r, t, x, again + 9);
    } else {
      NodeLeads(c, again + 9, NOTHING, t);
      Here(c, p, r, t, x, t);
    }
  }

  lemma {:induction false} OptLand(c: seq<byte>, p: nat, r: Re, t: nat, x: nat)
    requires Code(c, p, r, t) && WellFormed(r) && p > 0 && p + Size(r) <= t && NodeAt(p, r, x) && r.Opt?
    ensures Lands(c, p, r, t, x)
    decreases r, 0, 0
  {
    hide Code, Size, Lands, Leads, Node, NodeAt, WellFormed;
    var a := r.rep;
    var none := p + 3 + Size(a);
    OptNodes(c, p, r, t);
    if x == p {
      NodeLeads(c, p, BRANCH, none);
      Here(c, p, r, t, x, none);
    } else if NodeAt(p + 3, a, x) {
      NodesLand(c, p + 3, a, none + 3, x);
      Widen(c, p, r, t, x, p + 3, a, none + 3);
    } else if x == none {
      NodeLeads(c, none, BRANCH, none + 3);
      Here(c, p, r, t, x, none + 3);
    } else {
      NodeLeads(c, none + 3, NOTHING, t);
      Here(c, p, r, t, x, t);
    }
  }

  lemma {:induction false} GroupLand(c: seq<byte>, p: nat, r: Re, t: nat, x: nat)
    requires Code(c, p, r, t) && WellFormed(r) && p > 0 && p + Size(r) <= t && NodeAt(p, r, x) && r.Group?
    ensures Lands(c, p, r, t, x)
    decreases r, 0, 0
  {
    hide Code, Size, AltsSize, Alts, Lands, Leads, Node, NodeAt, ArmNodeAt, WellFormed;
    var a := r.body;
    var close := p + 3 + AltsSize(a);
    GroupNodes(c, p, r, t);
    if x == p {
      FirstArmNode(p + 3, a);
      NodeLeads(c, p, OPEN + r.no, p + 3);
      Here(c, p, r, t, x, p + 3);
    } else if ArmNodeAt(p + 3, a, x) {
      ArmsLand(c, p + 3, a, close, close, x);
      var n: nat :| Leads(c, x, n) && (n == close || ArmNodeAt(p + 3, a, n));
      Here(c, p, r, t, x, n);
    } else {
      NodeLeads(c, close, CLOSE + r.no, t);
      Here(c, p, r, t, x, t);
    }
  }

  lemma StarNodes(c: seq<byte>, p: nat, r: Re, t: nat)
    requires Code(c, p, r, t) && WellFormed(r) && r.Star? && !IsSimple(r.rep)
    ensures StarCode(c, p, r.rep, t) && WellFormed(r.rep) && Size(r) == 12 + Size(r.rep)
    ensures forall n: nat :: NodeAt(p, r, n) <==> n == p || NodeAt(p + 3, r.rep, n) || LoopNode(p + 3 + Size(r.rep), n)
  {
    hide AltsSize, StarCode, ArmNodeAt, LoopNode, Level, HasWidth;
  }

  lemma PlusNodes(c: seq<byte>, p: nat, r: Re, t: nat)
    requires Code(c, p, r, t) && WellFormed(r) && r.Plus? && !IsSimple(r.rep)
    ensures PlusCode(c, p, r.rep, t) && WellFormed(r.rep) && Size(r) == 12 + Size(r.rep) && NodeAt(p, r, p)
    ensures forall n: nat :: NodeAt(p, r, n) <==>
              NodeAt(p, r.rep, n) || n == p + Size(r.rep) || LoopNode(p + Size(r.rep) + 3, n)
  {
    hide AltsSize, PlusCode, ArmNodeAt, LoopNode, HasWidth;
    FirstNode(p, r);
  }

  lemma OptNodes(c: seq<byte>, p: nat, r: Re, t: nat)
    requires Code(c, p, r, t) && WellFormed(r) && r.Opt?
    ensures OptCode(c, p, r.rep, t) && WellFormed(r.rep) && Size(r) == 9 + Size(r.rep)
    ensures forall n: nat :: NodeAt(p, r, n) <==>
              n == p || NodeAt(p + 3, r.rep, n) || n == p + 3 + Size(r.rep) || n == p + 6 + Size(r.rep)
  {
    hide AltsSize, OptCode, ArmNodeAt, IsSimple, Level;
  }

  lemma GroupNodes(c: seq<byte>, p: nat, r: Re, t: nat)
    requires Code(c, p, r, t) && WellFormed(r) && r.Group?
    ensures GroupCode(c, p, r.no, r.body, t) && WellFormed(r.body) && Size(r) == 6 + AltsSize(r.body)
    ensures forall n: nat :: NodeAt(p, r, n) <==> n == p || ArmNodeAt(p + 3, r.body, n) || n == p + 3 + AltsSize(r.body)
  {
    hide AltsSize, GroupCode, ArmNodeAt, IsSimple, Level;
  }

  /** Alternatives hooked to `e` behind them. */
  lemma {:induction false} ArmsLand(c: seq<byte>, p: nat, r: Re, nt: nat, e: nat, x: nat)
    requires Alts(c, p, r, nt, e, e) && WellFormed(r) && p > 0 && p + AltsSize(r) <= e && p + AltsSize(r) <= nt
    requires ArmNodeAt(p, r, x)
    ensures p <= x && exists n: nat :: Leads(c, x, n) && (n == nt || n == e || ArmNodeAt(p, r, n))
    decreases r, 2
  {
    hide Code, Size, AltsSize, Leads, Node, NodeAt, ArmNodeAt, Arm, Alts, WellFormed;
    AltsParts(c, p, r, nt, e, x);
    if r.Alt? {
      var m := p + AltsSize(r.left);
      if ArmNodeAt(p, r.left, x) {
        ArmsLand(c, p, r.left, m, e, x);
        var n: nat :| Leads(c, x, n) && (n == m || n == e || ArmNodeAt(p, r.left, n));
        ArmNodes(p, r, n);
      } else {
        ArmLand(c, m, r.right, nt, e, x);
        var n: nat :| Leads(c, x, n) && (n == nt || n == e || NodeAt(m + 3, r.right, n));
        ArmNodes(p, r, n);
      }
    } else {
      ArmLand(c, p, r, nt, e, x);
      var n: nat :| Leads(c, x, n) && (n == nt || n == e || NodeAt(p + 3, r, n));
      ArmNodes(p, r, n);
    }
  }

  lemma AltsParts(c: seq<byte>, p: nat, r: Re, nt: nat, e: nat, x: nat)
    requires Alts(c, p, r, nt, e, e) && WellFormed(r) && ArmNodeAt(p, r, x)
    ensures r.Alt? ==>
              var m := p + AltsSize(r.left);
              && Alts(c, p, r.left, m, e, e) && Arm(c, m, r.right, nt, e, e) && WellFormed(r.left) && WellFormed(r.right)
              && p + AltsSize(r) == m + 3 + Size(r.right)
              && (ArmNodeAt(p, r.left, x) || x == m || NodeAt(m + 3, r.right, x))
    ensures !r.Alt? ==> Arm(c, p, r, nt, e, e) && AltsSize(r) == 3 + Size(r) && (x == p || NodeAt(p + 3, r, x))
  {
    hide Arm, Size, NodeAt, Level;
  }

  lemma ArmNodes(p: nat, r: Re, n: nat)
    ensures r.Alt? ==>
              var m := p + AltsSize(r.left);
              ArmNodeAt(p, r.left, n) || n == m || NodeAt(m + 3, r.right, n) ==> ArmNodeAt(p, r, n)
    ensures !r.Alt? && (n == p || NodeAt(p + 3, r, n)) ==> ArmNodeAt(p, r, n)
  {
    hide NodeAt, AltsSize;
  }

  lemma {:induction false} ArmLand(c: seq<byte>, p: nat, b: Re, nt: nat, e: nat, x: nat)
    requires Arm(c, p, b, nt, e, e) && WellFormed(b) && p > 0 && p + 3 + Size(b) <= e && p + 3 + Size(b) <= nt
    requires x == p || NodeAt(p + 3, b, x)
    ensures p <= x && exists n: nat :: Leads(c, x, n) && (n == nt || n == e || NodeAt(p + 3, b, n))
    decreases b, 1
  {
    hide Code, Size, Leads, Node, NodeAt;
    if x == p {
      NodeLeads(c, p, BRANCH, nt);
    } else {
      NodesLand(c, p + 3, b, e, x);
      var n: nat :| Leads(c, x, n) && (n == e || NodeAt(p + 3, b, n));
    }
  }

  /** A finished program: every node but END leads to a node of the program, forward unless it is BACK. */
  lemma ProgramLeads(c: seq<byte>, r: Re, x: nat)
    requires Program(c, r) && WellFormed(r) && ArmNodeAt(1, r, x)
    ensures exists n: nat :: Leads(c, x, n) && (n == 1 + AltsSize(r) || ArmNodeAt(1, r, n))
    ensures c[1 + AltsSize(r)] == END && Next(c, 1 + AltsSize(r)) == 0
  {
    hide Alts, AltsSize, Leads, ArmNodeAt;
    var end := 1 + AltsSize(r);
    ArmsLand(c, 1, r, end, end, x);
  }
}
