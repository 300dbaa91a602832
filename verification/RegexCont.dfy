/**
  What a node program still has to match.

  The matcher of `regexp.c` keeps no stack of its own: the rest of the match is implicit in where the
  next pointers lead.  `Cont` makes it explicit.  A continuation is a list of trees still to be matched,
  each with the node its own tail points at; `Located(c, p, k)` says that node `p` of program `c` is
  where the code of `k` starts.  `Denotes` is its meaning and `Weight` its termination measure.

  A continuation also remembers at which input position each loop in progress was last entered.
  `Progress` says that such a loop comes back to its head only after consuming input; it is kept because
  the compiler only repeats operands that have width.
*/
module RegexCont {
  import opened Bytes
  import opened RegexSyntax
  import opened RegexCode

  datatype Kind =
    | Run                          // the code of the tree starts here
    | Arms                         // the first BRANCH of the alternatives of a group
    | Shut                         // the CLOSE node of a group
    | Loop(from: nat)              // the BACK node of a loop whose operand was entered at input `from`
    | Again(from: nat, head: nat)  // the first BRANCH after the operand of `x+`, which starts at `head`

  datatype Cont = Done | Pend(kind: Kind, re: Re, t: nat, rest: Cont)

  /** Matching all of `k` at `i` can end at `j`. */
  ghost predicate Denotes(k: Cont, s: seq<byte>, i: nat, j: nat) {
    match k
    case Done => i == j <= |s|
    case Pend(_, re, _, rest) => exists m: nat :: Matches(re, s, i, m) && Denotes(rest, s, m, j)
  }

  ghost predicate Repeats(re: Re) {
    (re.Star? || re.Plus?) && !IsSimple(re.rep)
  }

  ghost predicate HeadAt(c: seq<byte>, p: nat, kind: Kind, re: Re, t: nat) {
    match kind
    case Run => Code(c, p, re, t)
    case Arms => p + AltsSize(re) == t && Alts(c, p, re, t, t, t)
    case Shut => re == Empty && p + 3 <= |c| && CLOSE < c[p] < CLOSE + NSUBEXP && Next(c, p) == t
    case Loop(_) =>
      && Repeats(re) && p + 3 <= |c| && c[p] == BACK && Next(c, p) > 0 && Code(c, Next(c, p), re, t)
    case Again(_, h) =>
      && re.Star? && Repeats(re) && h > 0 && p == h + Size(re.rep)
      && h + 12 + Size(re.rep) <= |c| && PlusCode(c, h, re.rep, t)
  }

  ghost predicate Located(c: seq<byte>, p: nat, k: Cont)
    decreases k
  {
    && p > 0
    && match k
       case Done => Node(c, p, END, 0)
       case Pend(kind, re, t, rest) =>
         && WellFormed(re) && HeadAt(c, p, kind, re, t) && Located(c, t, rest)
         && (kind.Arms? ==> rest.Done? || rest.kind.Shut?)
  }

  // ----- Termination measure and progress -----

  function Rank(r: Re): nat {
    match r
    case Cat(a, b) => Rank(a) + Rank(b) + 1
    case Alt(a, b) => Rank(a) + Rank(b) + 1
    case Group(_, a) => Rank(a) + 3
    case Star(a) => Rank(a) + 4
    case Plus(a) => Rank(a) + 8
    case Opt(a) => Rank(a) + 4
    case _ => 1
  }

  /** What an item counts for with the input at `i`: a loop not yet advanced past its entry cannot restart. */
  function HeadWeight(kind: Kind, re: Re, i: nat): nat {
    match kind
    case Run => Rank(re)
    case Arms => Rank(re) + 1
    case Shut => 1
    case Loop(from) => if i > from then Rank(re) + 1 else 0
    case Again(from, _) => if i > from then Rank(re) + 6 else 0
  }

  function Weight(k: Cont, i: nat): nat {
    match k
    case Done => 0
    case Pend(kind, re, _, rest) => HeadWeight(kind, re, i) + Weight(rest, i)
  }

  /** Every pending loop has advanced since it was entered, or will before control reaches it
      (`w`: something earlier has width). */
  ghost predicate Progress(k: Cont, i: nat, w: bool) {
    match k
    case Done => true
    case Pend(kind, re, _, rest) =>
      && (kind.Loop? ==> kind.from <= i && (kind.from < i || w))
      && (kind.Again? ==> kind.from <= i && (kind.from < i || w))
      && Progress(rest, i, w || HasWidth(re))
  }

  lemma {:induction false} ProgressMonotone(k: Cont, i: nat, i': nat, w: bool, w': bool)
    requires Progress(k, i, w) && i <= i' && (i < i' || (w ==> w'))
    ensures Progress(k, i', w')
    decreases k
  {
    if k.Pend? {
      ProgressMonotone(k.rest, i, i', w || HasWidth(k.re), w' || HasWidth(k.re));
    }
  }

  // ----- Configurations -----

  /** Control at node `p` with the input at `i` and `k` left to match. */
  ghost predicate Ready(c: seq<byte>, s: seq<byte>, p: nat, k: Cont, i: nat) {
    i <= |s| && Located(c, p, k) && Progress(k, i, false)
  }

  /** `k'` at `i'` leads to the same ends as `k` at `i`. */
  ghost predicate SameEnds(s: seq<byte>, k: Cont, i: nat, k': Cont, i': nat) {
    forall j: nat :: Denotes(k, s, i, j) <==> Denotes(k', s, i', j)
  }

  ghost predicate Dead(s: seq<byte>, k: Cont, i: nat) {
    forall j: nat :: !Denotes(k, s, i, j)
  }

  /** The measure of a configuration is below that of another one. */
  ghost predicate Below(s: seq<byte>, k: Cont, i: nat, k': Cont, i': nat) {
    i' < i || (i' == i && Weight(k, i) < Weight(k', i))
  }

  // ----- Exposing the node control is at -----

  /** The tree in front is one whose code starts with a node of its own. */
  predicate IsHead(k: Cont) {
    k.Pend? && k.kind.Run? ==> !k.re.Cat? && !(k.re.Plus? && !IsSimple(k.re.rep))
  }

  /** Unpacks concatenations and complex `x+` in front; no node is passed. */
  function Expand(k: Cont, p: nat, i: nat): Cont
    decreases if k.Pend? then Rank(k.re) else 0
  {
    if k.Pend? && k.kind.Run? && k.re.Cat? then
      Expand(Pend(Run, k.re.first, p + Size(k.re.first), Pend(Run, k.re.second, k.t, k.rest)), p, i)
    else if k.Pend? && k.kind.Run? && k.re.Plus? && !IsSimple(k.re.rep) then
      Expand(Pend(Run, k.re.rep, p + Size(k.re.rep), Pend(Again(i, p), Star(k.re.rep), k.t, k.rest)), p, i)
    else k
  }

  lemma MatchesBounds(r: Re, s: seq<byte>, i: nat, j: nat)
    requires Matches(r, s, i, j)
    ensures i <= j <= |s|
  {
  }

  lemma DenotesSplit(k: Cont, s: seq<byte>, i: nat, j: nat) returns (m: nat)
    requires k.Pend? && Denotes(k, s, i, j)
    ensures Matches(k.re, s, i, m) && Denotes(k.rest, s, m, j)
  {
    m :| Matches(k.re, s, i, m) && Denotes(k.rest, s, m, j);
  }

  lemma DenotesJoin(kind: Kind, re: Re, t: nat, rest: Cont, s: seq<byte>, i: nat, m: nat, j: nat)
    requires Matches(re, s, i, m) && Denotes(rest, s, m, j)
    ensures Denotes(Pend(kind, re, t, rest), s, i, j)
  {
  }

  lemma CatEnds(a: Re, b: Re, ka: Kind, m: nat, kb: Kind, kc: Kind, t: nat, rest: Cont, s: seq<byte>, i: nat)
    ensures SameEnds(s, Pend(kc, Cat(a, b), t, rest), i, Pend(ka, a, m, Pend(kb, b, t, rest)), i)
  {
    hide Denotes, Matches;
    var k, inner := Pend(kc, Cat(a, b), t, rest), Pend(kb, b, t, rest);
    var k' := Pend(ka, a, m, inner);
    forall j: nat
      ensures Denotes(k, s, i, j) <==> Denotes(k', s, i, j)
    {
      if Denotes(k, s, i, j) {
        var y := DenotesSplit(k, s, i, j);
        var x := CatSplit(a, b, s, i, y);
        DenotesJoin(kb, b, t, rest, s, x, y, j);
        DenotesJoin(ka, a, m, inner, s, i, x, j);
      }
      if Denotes(k', s, i, j) {
        var x := DenotesSplit(k', s, i, j);
        var y := DenotesSplit(inner, s, x, j);
        CatJoin(a, b, s, i, x, y);
        DenotesJoin(kc, Cat(a, b), t, rest, s, i, y, j);
      }
    }
  }

  lemma CatSplit(a: Re, b: Re, s: seq<byte>, i: nat, j: nat) returns (x: nat)
    requires Matches(Cat(a, b), s, i, j)
    ensures Matches(a, s, i, x) && Matches(b, s, x, j)
  {
    x :| i <= x <= j && Matches(a, s, i, x) && Matches(b, s, x, j);
  }

  lemma CatJoin(a: Re, b: Re, s: seq<byte>, i: nat, x: nat, j: nat)
    requires Matches(a, s, i, x) && Matches(b, s, x, j)
    ensures Matches(Cat(a, b), s, i, j)
  {
    MatchesBounds(a, s, i, x);
    MatchesBounds(b, s, x, j);
  }

  lemma PlusSplit(a: Re, s: seq<byte>, i: nat, j: nat) returns (x: nat)
    requires Matches(Plus(a), s, i, j)
    ensures Matches(a, s, i, x) && Matches(Star(a), s, x, j)
  {
    x :| i <= x <= j && Matches(a, s, i, x) && Iterates(a, s, x, j);
  }

  lemma PlusJoin(a: Re, s: seq<byte>, i: nat, x: nat, j: nat)
    requires Matches(a, s, i, x) && Matches(Star(a), s, x, j)
    ensures Matches(Plus(a), s, i, j)
  {
    MatchesBounds(a, s, i, x);
    assert i <= x <= j && Matches(a, s, i, x) && Iterates(a, s, x, j);
  }

  lemma StarSplit(a: Re, s: seq<byte>, i: nat, j: nat) returns (x: nat)
    requires Matches(Star(a), s, i, j) && i != j
    ensures i < x && Matches(a, s, i, x) && Matches(Star(a), s, x, j)
  {
    assert Iterates(a, s, i, j);
    x :| i < x <= j && Matches(a, s, i, x) && Iterates(a, s, x, j);
  }

  lemma StarJoin(a: Re, s: seq<byte>, i: nat, x: nat, j: nat)
    requires i < x && Matches(a, s, i, x) && Matches(Star(a), s, x, j)
    ensures Matches(Star(a), s, i, j)
  {
    assert i < x <= j && Matches(a, s, i, x) && Iterates(a, s, x, j);
  }

  /** `a+` is `a` followed by `a*`. */
  lemma PlusIsCat(a: Re, s: seq<byte>, i: nat, j: nat)
    ensures Matches(Plus(a), s, i, j) <==> Matches(Cat(a, Star(a)), s, i, j)
  {
    hide Matches;
    if Matches(Plus(a), s, i, j) {
      var x := PlusSplit(a, s, i, j);
      CatJoin(a, Star(a), s, i, x, j);
    }
    if Matches(Cat(a, Star(a)), s, i, j) {
      var x := CatSplit(a, Star(a), s, i, j);
      PlusJoin(a, s, i, x, j);
    }
  }

  /** `a*` is nothing or `a+`, when `a` has width. */
  lemma StarIsPlusOrEmpty(a: Re, s: seq<byte>, i: nat, j: nat)
    requires HasWidth(a) && i <= |s|
    ensures Matches(Star(a), s, i, j) <==> Matches(Plus(a), s, i, j) || i == j
  {
    if Matches(Plus(a), s, i, j) {
      var x := PlusSplit(a, s, i, j);
      HasWidthSound(a, s, i, x);
      StarJoin(a, s, i, x, j);
    }
    if Matches(Star(a), s, i, j) && i != j {
      var x := StarSplit(a, s, i, j);
      PlusJoin(a, s, i, x, j);
    }
  }

  /** Replacing the tree in front by one with the same matches keeps the meaning. */
  lemma SwapFront(k: Cont, kind: Kind, re: Re, t: nat, s: seq<byte>, i: nat)
    requires k.Pend? && forall m: nat :: Matches(k.re, s, i, m) <==> Matches(re, s, i, m)
    ensures SameEnds(s, k, i, Pend(kind, re, t, k.rest), i)
  {
    hide Matches;
    var k' := Pend(kind, re, t, k.rest);
    forall j: nat
      ensures Denotes(k, s, i, j) <==> Denotes(k', s, i, j)
    {
      if Denotes(k, s, i, j) {
        var m := DenotesSplit(k, s, i, j);
        DenotesJoin(kind, re, t, k.rest, s, i, m, j);
      }
      if Denotes(k', s, i, j) {
        var m := DenotesSplit(k', s, i, j);
        DenotesJoin(k.kind, k.re, k.t, k.rest, s, i, m, j);
      }
    }
  }

  lemma PlusEnds(a: Re, p: nat, t: nat, rest: Cont, s: seq<byte>, i: nat)
    ensures SameEnds(s, Pend(Run, Plus(a), t, rest), i,
                     Pend(Run, a, p + Size(a), Pend(Again(i, p), Star(a), t, rest)), i)
  {
    hide Matches, Denotes;
    var k := Pend(Run, Plus(a), t, rest);
    forall m: nat
      ensures Matches(k.re, s, i, m) <==> Matches(Cat(a, Star(a)), s, i, m)
    {
      PlusIsCat(a, s, i, m);
    }
    SwapFront(k, Run, Cat(a, Star(a)), t, s, i);
    CatEnds(a, Star(a), Run, p + Size(a), Again(i, p), Run, t, rest, s, i);
  }

  lemma ExpandCat(c: seq<byte>, s: seq<byte>, p: nat, k: Cont, i: nat)
    requires Ready(c, s, p, k, i) && k.Pend? && k.kind.Run? && k.re.Cat?
    ensures var k' := Pend(Run, k.re.first, p + Size(k.re.first), Pend(Run, k.re.second, k.t, k.rest));
            Ready(c, s, p, k', i) && Weight(k', i) <= Weight(k, i)
  {
    hide Leaf, GroupCode, SimpleCode, StarCode, PlusCode, OptCode, Alts, AltsSize;
    SizePositive(k.re.first);
    var inner := Pend(Run, k.re.second, k.t, k.rest);
    assert Located(c, p + Size(k.re.first), inner);
    assert Progress(inner, i, false || HasWidth(k.re.first));
    assert Weight(inner, i) == Rank(k.re.second) + Weight(k.rest, i);
  }

  lemma ExpandPlus(c: seq<byte>, s: seq<byte>, p: nat, k: Cont, i: nat)
    requires Ready(c, s, p, k, i) && k.Pend? && k.kind.Run? && k.re.Plus? && !IsSimple(k.re.rep)
    ensures var k' := Pend(Run, k.re.rep, p + Size(k.re.rep), Pend(Again(i, p), Star(k.re.rep), k.t, k.rest));
            Ready(c, s, p, k', i) && Weight(k', i) <= Weight(k, i)
  {
    hide Leaf, GroupCode, SimpleCode, StarCode, OptCode, Alts, AltsSize, Node;
    SizePositive(k.re.rep);
    var inner := Pend(Again(i, p), Star(k.re.rep), k.t, k.rest);
    assert Located(c, p + Size(k.re.rep), inner);
    assert Progress(inner, i, false || HasWidth(k.re.rep));
    assert Weight(inner, i) == Weight(k.rest, i);
  }

  /** Unpacking changes neither the meaning nor, upward, the measure. */
  lemma {:induction false} ExpandSound(c: seq<byte>, s: seq<byte>, p: nat, k: Cont, i: nat)
    requires Ready(c, s, p, k, i)
    ensures var k' := Expand(k, p, i);
            && Ready(c, s, p, k', i) && IsHead(k')
            && SameEnds(s, k, i, k', i) && Weight(k', i) <= Weight(k, i)
    decreases if k.Pend? then Rank(k.re) else 0
  {
    hide Located, Progress, Denotes, Weight, Size;
    if k.Pend? && k.kind.Run? && k.re.Cat? {
      var k' := Pend(Run, k.re.first, p + Size(k.re.first), Pend(Run, k.re.second, k.t, k.rest));
      ExpandCat(c, s, p, k, i);
      CatEnds(k.re.first, k.re.second, Run, p + Size(k.re.first), Run, Run, k.t, k.rest, s, i);
      ExpandSound(c, s, p, k', i);
    } else if k.Pend? && k.kind.Run? && k.re.Plus? && !IsSimple(k.re.rep) {
      var k' := Pend(Run, k.re.rep, p + Size(k.re.rep), Pend(Again(i, p), Star(k.re.rep), k.t, k.rest));
      ExpandPlus(c, s, p, k, i);
      PlusEnds(k.re.rep, p, k.t, k.rest, s, i);
      ExpandSound(c, s, p, k', i);
    }
  }
}
