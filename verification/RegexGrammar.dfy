/**
  The grammar of patterns, stated apart from the parser.

  Each predicate says that the bytes `pat[i..j]` are written for a tree, by splitting them in any way that fits; `n` and `m`
  are the group numbers before and behind. `ParseIsGrammar` shows that the parser finds exactly the trees these predicates
  allow, so that a pattern has at most one reading.
*/
module RegexGrammar {
  import opened Bytes
  import opened RegexSyntax

  // ----- The grammar -----

  /** A run of ordinary bytes ends before a metacharacter, and a byte earlier if that byte is the operand of an operator:
      `*`, `+` and `?` apply to one byte only. */
  ghost predicate RunEnds(pat: seq<byte>, i: nat, j: nat)
    requires i < j <= |pat|
  {
    || j == |pat|
    || (IsMult(pat[j]) && j == i + 1)
    || (IsMeta(pat[j]) && !IsMult(pat[j]))
    || (!IsMeta(pat[j]) && j + 1 < |pat| && IsMult(pat[j + 1]))
  }

  ghost predicate PlainRun(pat: seq<byte>, i: nat, j: nat)
    requires i < j <= |pat|
  {
    (forall k :: i <= k < j ==> !IsMeta(pat[k])) && RunEnds(pat, i, j)
  }

  ghost predicate Escaped(pat: seq<byte>, i: nat, j: nat, str: seq<byte>)
    requires i < j <= |pat|
  {
    j == i + 2 && pat[i] == BACKSLASH && str == [pat[i + 1]]
  }

  /** One byte, escape, bracket expression or group, or a run of ordinary bytes. */
  ghost predicate Atom(pat: seq<byte>, i: nat, j: nat, n: nat, m: nat, r: Re)
    decreases r, 0
  {
    i < j <= |pat| &&
    match r
    case Bol => n == m && j == i + 1 && pat[i] == CARET
    case Eol => n == m && j == i + 1 && pat[i] == DOLLAR
    case Any => n == m && j == i + 1 && pat[i] == DOT
    case Set(negated, chars) => n == m && pat[i] == LBRACKET && Bracket(pat, i + 1, j, negated, chars)
    case Exactly(str) => n == m && (Escaped(pat, i, j, str) || (PlainRun(pat, i, j) && str == pat[i..j]))
    case Group(no, a) =>
      no == n < NSUBEXP && i + 1 < j && pat[i] == LPAREN && pat[j - 1] == RPAREN && Alts(pat, i + 1, j - 1, n + 1, m, a)
    case _ => false
  }

  /** An atom, with or without an operator; never two operators. Only what has width may be repeated. */
  ghost predicate Piece(pat: seq<byte>, i: nat, j: nat, n: nat, m: nat, r: Re)
    decreases r, 1
  {
    i < j <= |pat| && !IsMult(At(pat, j)) &&
    match r
    case Star(a) => pat[j - 1] == ASTERISK && HasWidth(a) && Atom(pat, i, j - 1, n, m, a)
    case Plus(a) => pat[j - 1] == PLUS_SIGN && HasWidth(a) && Atom(pat, i, j - 1, n, m, a)
    case Opt(a) => pat[j - 1] == QUESTION && Atom(pat, i, j - 1, n, m, a)
    case _ => Atom(pat, i, j, n, m, r)
  }

  /** Pieces side by side are concatenated. */
  ghost predicate Pieces(pat: seq<byte>, i: nat, j: nat, n: nat, m: nat, r: Re)
    decreases r, 2
  {
    match r
    case Cat(a, b) => exists k: nat, l: nat :: Pieces(pat, i, k, n, l, a) && Piece(pat, k, j, l, m, b)
    case _ => Piece(pat, i, j, n, m, r)
  }

  /** A branch is a possibly empty concatenation, up to `|`, `)` or the end. */
  ghost predicate Branch(pat: seq<byte>, i: nat, j: nat, n: nat, m: nat, r: Re)
    decreases r, 3
  {
    j <= |pat| && EndsBranch(At(pat, j)) && if r == Empty then i == j && n == m else Pieces(pat, i, j, n, m, r)
  }

  /** Branches separated by `|` are alternatives: concatenation binds tighter. */
  ghost predicate Alts(pat: seq<byte>, i: nat, j: nat, n: nat, m: nat, r: Re)
    decreases r, 4
  {
    match r
    case Alt(a, b) => exists k: nat, l: nat :: Alts(pat, i, k, n, l, a) && k < |pat| && pat[k] == BAR && Branch(pat, k + 1, j, l, m, b)
    case _ => Branch(pat, i, j, n, m, r)
  }

  /** `pat` is a pattern for `r`; the groups take the numbers from 1 up to `m`, `m` excluded. */
  ghost predicate Derives(pat: seq<byte>, r: Re, m: nat) { Alts(pat, 0, |pat|, 1, m, r) }

  /** The inside of a bracket expression up to and including `]`: `^` complements, and a `]` or `-` at the start stands for
      itself. */
  ghost predicate Bracket(pat: seq<byte>, i: nat, j: nat, negated: bool, chars: seq<byte>) {
    && 0 < i < j <= |pat| && (negated <==> pat[i] == CARET)
    && var s := if negated then i + 1 else i;
       var t := if At(pat, s) == RBRACKET || At(pat, s) == DASH then s + 1 else s;
       t < j && pat[j - 1] == RBRACKET && Listed(pat, s, t, j - 1, chars)
  }

  /** `pat[t..j]` lists `chars` behind the leading bytes `pat[s..t]`: item by item, a byte for itself, `-` before the closing
      bracket for itself, and `-` between two bytes for the range from the one to the other. */
  ghost predicate Listed(pat: seq<byte>, s: nat, t: nat, j: nat, chars: seq<byte>)
    requires s <= t && 0 < t && j <= |pat|
    decreases j
  {
    || (j == t && chars == pat[s..t])
    || (j > t && OneByte(pat, j) && chars != [] && chars[|chars| - 1] == pat[j - 1] && Listed(pat, s, t, j - 1, chars[..|chars| - 1]))
    || (j > t + 1 && pat[j - 2] == DASH && pat[j - 1] != RBRACKET && 0 <= pat[j - 1] - pat[j - 3] <= |chars|
        && var k := |chars| - (pat[j - 1] - pat[j - 3]);
           chars[k..] == After(pat[j - 3], pat[j - 1]) && Listed(pat, s, t, j - 2, chars[..k]))
  }

  /** The byte before `j` may stand for itself. */
  ghost predicate OneByte(pat: seq<byte>, j: nat)
    requires 0 < j <= |pat|
  {
    pat[j - 1] != RBRACKET && (pat[j - 1] == DASH ==> j < |pat| && pat[j] == RBRACKET)
  }

  // ----- The parser follows the grammar -----

  lemma {:induction false} ClassSound(pat: seq<byte>, s: nat, t: nat, i: nat, acc: seq<byte>)
    requires s <= t <= i <= |pat| && 0 < t && Listed(pat, s, t, i, acc) && ParseClass(pat, i, acc).ClassOk?
    ensures var c := ParseClass(pat, i, acc);
            t < c.pos <= |pat| && pat[c.pos - 1] == RBRACKET && Listed(pat, s, t, c.pos - 1, c.chars)
    decreases |pat| - i
  {
    hide Listed;
    var b := At(pat, i);
    if b != RBRACKET {
      if b != DASH {
        ByteListed(pat, s, t, i, acc);
        ClassSound(pat, s, t, i + 1, acc + [b]);
      } else {
        var hi := At(pat, i + 1);
        if i + 1 == |pat| || hi == RBRACKET {
          assert i + 1 < |pat|;
          ByteListed(pat, s, t, i, acc);
          ClassSound(pat, s, t, i + 1, acc + [DASH]);
        } else {
          RangeListed(pat, s, t, i, acc);
          ClassSound(pat, s, t, i + 2, acc + After(pat[i - 1], hi));
        }
      }
    }
  }

  lemma ByteListed(pat: seq<byte>, s: nat, t: nat, i: nat, acc: seq<byte>)
    requires s <= t <= i && 0 < t && i < |pat| && Listed(pat, s, t, i, acc) && OneByte(pat, i + 1)
    ensures Listed(pat, s, t, i + 1, acc + [pat[i]])
  {
    assert (acc + [pat[i]])[..|acc|] == acc;
  }

  lemma RangeListed(pat: seq<byte>, s: nat, t: nat, i: nat, acc: seq<byte>)
    requires s <= t <= i && 0 < t && i + 1 < |pat| && Listed(pat, s, t, i, acc)
    requires pat[i] == DASH && pat[i + 1] != RBRACKET && pat[i - 1] <= pat[i + 1]
    ensures Listed(pat, s, t, i + 2, acc + After(pat[i - 1], pat[i + 1]))
  {
    var chars := acc + After(pat[i - 1], pat[i + 1]);
    assert chars[..|acc|] == acc && chars[|acc|..] == After(pat[i - 1], pat[i + 1]);
  }

  lemma {:induction false} ClassComplete(pat: seq<byte>, s: nat, t: nat, j: nat, chars: seq<byte>)
    requires s <= t <= j <= |pat| && 0 < t && Listed(pat, s, t, j, chars)
    ensures ParseClass(pat, t, pat[s..t]) == ParseClass(pat, j, chars)
    decreases j
  {
    hide ParseClass;
    if j == t && chars == pat[s..t] {
    } else if j > t && OneByte(pat, j) && chars != [] && chars[|chars| - 1] == pat[j - 1] && Listed(pat, s, t, j - 1, chars[..|chars| - 1]) {
      var before := chars[..|chars| - 1];
      ClassComplete(pat, s, t, j - 1, before);
      assert chars == before + [pat[j - 1]];
      ByteParsed(pat, j, before);
    } else {
      var k := |chars| - (pat[j - 1] - pat[j - 3]);
      ClassComplete(pat, s, t, j - 2, chars[..k]);
      assert chars == chars[..k] + After(pat[j - 3], pat[j - 1]);
      RangeParsed(pat, j, chars[..k]);
    }
  }

  lemma ByteParsed(pat: seq<byte>, j: nat, acc: seq<byte>)
    requires 1 < j <= |pat| && OneByte(pat, j)
    ensures ParseClass(pat, j - 1, acc) == ParseClass(pat, j, acc + [pat[j - 1]])
  {
  }

  lemma RangeParsed(pat: seq<byte>, j: nat, acc: seq<byte>)
    requires 2 < j <= |pat| && pat[j - 2] == DASH && pat[j - 1] != RBRACKET && pat[j - 3] <= pat[j - 1]
    ensures ParseClass(pat, j - 2, acc) == ParseClass(pat, j, acc + After(pat[j - 3], pat[j - 1]))
  {
  }

  lemma SetSound(pat: seq<byte>, i: nat, n: nat)
    requires 0 < i <= |pat| && ParseSet(pat, i, n).Ok?
    ensures var p := ParseSet(pat, i, n); p.re.Set? && p.npar == n && Bracket(pat, i, p.pos, p.re.negated, p.re.chars)
  {
    hide ParseClass;
    var negated := At(pat, i) == CARET;
    var s := if negated then i + 1 else i;
    var t := if At(pat, s) == RBRACKET || At(pat, s) == DASH then s + 1 else s;
    assert Listed(pat, s, t, t, pat[s..t]);
    ClassSound(pat, s, t, t, pat[s..t]);
  }

  lemma SetComplete(pat: seq<byte>, i: nat, j: nat, n: nat, negated: bool, chars: seq<byte>)
    requires Bracket(pat, i, j, negated, chars)
    ensures ParseSet(pat, i, n) == Ok(Set(negated, chars), j, n)
  {
    hide ParseClass;
    var s := if negated then i + 1 else i;
    var t := if At(pat, s) == RBRACKET || At(pat, s) == DASH then s + 1 else s;
    ClassComplete(pat, s, t, j - 1, chars);
    ClassStops(pat, j - 1, chars);
  }

  lemma ClassStops(pat: seq<byte>, i: nat, chars: seq<byte>)
    requires 0 < i < |pat| && pat[i] == RBRACKET
    ensures ParseClass(pat, i, chars) == ClassOk(chars, i + 1)
  {
  }

  lemma RunSound(pat: seq<byte>, i: nat)
    requires i < |pat| && !IsMeta(pat[i])
    ensures var j := i + LiteralLength(pat, i); i < j <= |pat| && PlainRun(pat, i, j)
  {
    var e := i + LiteralRun(pat, i);
    assert e > i;
  }

  lemma RunComplete(pat: seq<byte>, i: nat, j: nat)
    requires i < j <= |pat| && PlainRun(pat, i, j)
    ensures j == i + LiteralLength(pat, i)
  {
    var e := i + LiteralRun(pat, i);
    assert j <= e;
  }

  /** The parser's atoms are those of the grammar. */
  lemma {:induction false} AtomSound(pat: seq<byte>, i: nat, n: nat)
    requires NulFree(pat) && i <= |pat| && ParseAtom(pat, i, n).Ok?
    ensures var p := ParseAtom(pat, i, n); Atom(pat, i, p.pos, n, p.npar, p.re)
    decreases |pat| - i, 0
  {
    hide ParseSet, ParseAlts, LiteralLength, Bracket, PlainRun;
    var b := At(pat, i);
    if b == LBRACKET {
      SetSound(pat, i + 1, n);
    } else if b == LPAREN {
      if ParseReg(pat, i + 1, n, true).Ok? {
        AltsSound(pat, i + 1, n + 1);
      }
    } else if b != CARET && b != DOLLAR && b != DOT && b != BACKSLASH {
      RunSound(pat, i);
    }
  }

  lemma {:induction false} PieceSound(pat: seq<byte>, i: nat, n: nat)
    requires NulFree(pat) && i <= |pat| && ParsePiece(pat, i, n).Ok?
    ensures var p := ParsePiece(pat, i, n); Piece(pat, i, p.pos, n, p.npar, p.re)
    decreases |pat| - i, 1
  {
    hide ParseAtom, Atom, HasWidth;
    AtomSound(pat, i, n);
    var p := ParsePiece(pat, i, n);
    AtomShape(pat, i, n);
  }

  lemma AtomShape(pat: seq<byte>, i: nat, n: nat)
    requires NulFree(pat) && i <= |pat| && ParseAtom(pat, i, n).Ok?
    ensures Level(ParseAtom(pat, i, n).re) == 0
  {
    hide ParseSet, ParseAlts, LiteralLength;
  }

  /** Pieces read so far: none, or those of `acc`. */
  ghost predicate Sofar(pat: seq<byte>, i: nat, j: nat, n: nat, m: nat, acc: Re) {
    if acc == Empty then i == j && n == m else Pieces(pat, i, j, n, m, acc)
  }

  lemma {:induction false} PiecesSound(pat: seq<byte>, i0: nat, n0: nat, i: nat, n: nat, acc: Re)
    requires NulFree(pat) && i0 <= i <= |pat| && Sofar(pat, i0, i, n0, n, acc) && ParsePieces(pat, i, n, acc).Ok?
    ensures var p := ParsePieces(pat, i, n, acc); Branch(pat, i0, p.pos, n0, p.npar, p.re)
    decreases |pat| - i, 2
  {
    hide ParsePiece, Piece;
    if !EndsBranch(At(pat, i)) {
      var x := ParsePiece(pat, i, n);
      PieceSound(pat, i, n);
      PieceLevel(pat, i, x.pos, n, x.npar, x.re);
      PiecesSound(pat, i0, n0, x.pos, x.npar, if acc == Empty then x.re else Cat(acc, x.re));
    }
  }

  lemma PieceLevel(pat: seq<byte>, i: nat, j: nat, n: nat, m: nat, r: Re)
    requires Piece(pat, i, j, n, m, r)
    ensures !r.Cat? && !r.Alt? && !r.Empty?
  {
  }

  lemma {:induction false} MoreSound(pat: seq<byte>, i0: nat, n0: nat, i: nat, n: nat, acc: Re)
    requires NulFree(pat) && i0 <= i <= |pat| && Alts(pat, i0, i, n0, n, acc) && ParseMore(pat, i, n, acc).Ok?
    ensures var p := ParseMore(pat, i, n, acc); Alts(pat, i0, p.pos, n0, p.npar, p.re)
    decreases |pat| - i, 4
  {
    hide ParseBranch, Branch;
    if At(pat, i) == BAR {
      BranchSound(pat, i + 1, n);
      var b := ParseBranch(pat, i + 1, n);
      MoreSound(pat, i0, n0, b.pos, b.npar, Alt(acc, b.re));
    }
  }

  lemma {:induction false} BranchSound(pat: seq<byte>, i: nat, n: nat)
    requires NulFree(pat) && i <= |pat| && ParseBranch(pat, i, n).Ok?
    ensures var p := ParseBranch(pat, i, n); Branch(pat, i, p.pos, n, p.npar, p.re) && !p.re.Alt?
    decreases |pat| - i, 3
  {
    hide ParsePieces, Pieces;
    PiecesSound(pat, i, n, i, n, Empty);
    BranchLevel(pat, i, n);
  }

  lemma BranchLevel(pat: seq<byte>, i: nat, n: nat)
    requires i <= |pat| && ParseBranch(pat, i, n).Ok?
    ensures !ParseBranch(pat, i, n).re.Alt?
  {
    PiecesLevel(pat, i, n, Empty);
  }

  lemma {:induction false} PiecesLevel(pat: seq<byte>, i: nat, n: nat, acc: Re)
    requires i <= |pat| && !acc.Alt? && ParsePieces(pat, i, n, acc).Ok?
    ensures !ParsePieces(pat, i, n, acc).re.Alt?
    decreases |pat| - i
  {
    hide ParseAtom;
    if !EndsBranch(At(pat, i)) {
      var x := ParsePiece(pat, i, n);
      PieceNotAlt(pat, i, n);
      PiecesLevel(pat, x.pos, x.npar, if acc == Empty then x.re else Cat(acc, x.re));
    }
  }

  lemma PieceNotAlt(pat: seq<byte>, i: nat, n: nat)
    requires i <= |pat| && ParsePiece(pat, i, n).Ok?
    ensures !ParsePiece(pat, i, n).re.Alt?
  {
    hide ParseSet, ParseAlts, LiteralLength;
  }

  lemma {:induction false} AltsSound(pat: seq<byte>, i: nat, n: nat)
    requires NulFree(pat) && i <= |pat| && ParseAlts(pat, i, n).Ok?
    ensures var p := ParseAlts(pat, i, n); Alts(pat, i, p.pos, n, p.npar, p.re)
    decreases |pat| - i, 5
  {
    hide ParseBranch, Branch, ParseMore;
    BranchSound(pat, i, n);
    var b := ParseBranch(pat, i, n);
    MoreSound(pat, i, n, b.pos, b.npar, b.re);
  }

  // ----- The grammar leaves the parser no choice -----

  lemma {:induction false} AtomComplete(pat: seq<byte>, i: nat, j: nat, n: nat, m: nat, r: Re)
    requires NulFree(pat) && Atom(pat, i, j, n, m, r)
    ensures ParseAtom(pat, i, n) == Ok(r, j, m)
    decreases r, 0
  {
    hide ParseSet, ParseAlts, LiteralLength, Bracket, Alts;
    match r
    case Set(negated, chars) => SetComplete(pat, i + 1, j, n, negated, chars);
    case Exactly(str) =>
      if !Escaped(pat, i, j, str) {
        RunComplete(pat, i, j);
        assert !IsMeta(pat[i]);
      }
    case Group(no, a) =>
      AltsComplete(pat, i + 1, j - 1, n + 1, m, a);
      MoreStops(pat, j - 1, m, a);
    case _ =>
  }

  lemma MoreStops(pat: seq<byte>, i: nat, n: nat, acc: Re)
    requires i <= |pat| && At(pat, i) != BAR
    ensures ParseMore(pat, i, n, acc) == Ok(acc, i, n)
  {
  }

  lemma {:induction false} PieceComplete(pat: seq<byte>, i: nat, j: nat, n: nat, m: nat, r: Re)
    requires NulFree(pat) && Piece(pat, i, j, n, m, r)
    ensures ParsePiece(pat, i, n) == Ok(r, j, m) && !EndsBranch(At(pat, i))
    decreases r, 1
  {
    hide ParseAtom, Atom, HasWidth;
    match r
    case Star(a) =>
      AtomComplete(pat, i, j - 1, n, m, a);
      AtomStart(pat, i, n);
    case Plus(a) =>
      AtomComplete(pat, i, j - 1, n, m, a);
      AtomStart(pat, i, n);
    case Opt(a) =>
      AtomComplete(pat, i, j - 1, n, m, a);
      AtomStart(pat, i, n);
    case _ =>
      AtomComplete(pat, i, j, n, m, r);
      AtomStart(pat, i, n);
  }

  lemma AtomStart(pat: seq<byte>, i: nat, n: nat)
    requires i <= |pat| && ParseAtom(pat, i, n).Ok?
    ensures !EndsBranch(At(pat, i))
  {
    hide ParseSet, ParseReg, LiteralLength;
  }

  /** The parser gets through the pieces of a tree, and has that tree then. */
  lemma {:induction false} PiecesComplete(pat: seq<byte>, i: nat, j: nat, n: nat, m: nat, r: Re)
    requires NulFree(pat) && i <= |pat| && Pieces(pat, i, j, n, m, r)
    ensures j <= |pat| && r != Empty && ParsePieces(pat, i, n, Empty) == ParsePieces(pat, j, m, r)
    decreases r, 2
  {
    hide ParsePiece, Piece, ParsePieces;
    match r
    case Cat(a, b) =>
      var k: nat, l: nat :| Pieces(pat, i, k, n, l, a) && Piece(pat, k, j, l, m, b);
      PiecesComplete(pat, i, k, n, l, a);
      PieceComplete(pat, k, j, l, m, b);
      PiecesStep(pat, k, l, a);
    case _ =>
      PieceComplete(pat, i, j, n, m, r);
      PieceLevel(pat, i, j, n, m, r);
      PiecesStep(pat, i, n, Empty);
  }

  lemma PiecesStep(pat: seq<byte>, i: nat, n: nat, acc: Re)
    requires i <= |pat|
    ensures EndsBranch(At(pat, i)) ==> ParsePieces(pat, i, n, acc) == Ok(acc, i, n)
    ensures !EndsBranch(At(pat, i)) && ParsePiece(pat, i, n).Ok? ==>
              var x := ParsePiece(pat, i, n);
              ParsePieces(pat, i, n, acc) == ParsePieces(pat, x.pos, x.npar, if acc == Empty then x.re else Cat(acc, x.re))
  {
    hide ParsePiece;
  }

  lemma {:induction false} BranchComplete(pat: seq<byte>, i: nat, j: nat, n: nat, m: nat, r: Re)
    requires NulFree(pat) && i <= |pat| && Branch(pat, i, j, n, m, r)
    ensures ParseBranch(pat, i, n) == Ok(r, j, m)
    decreases r, 3
  {
    hide ParsePieces, Pieces;
    if r != Empty {
      PiecesComplete(pat, i, j, n, m, r);
    }
    PiecesStep(pat, j, m, r);
  }

  lemma {:induction false} AltsComplete(pat: seq<byte>, i: nat, j: nat, n: nat, m: nat, r: Re)
    requires NulFree(pat) && i <= |pat| && Alts(pat, i, j, n, m, r)
    ensures j <= |pat| && ParseAlts(pat, i, n) == ParseMore(pat, j, m, r)
    decreases r, 4
  {
    hide ParseBranch, Branch, ParseMore;
    match r
    case Alt(a, b) =>
      var k: nat, l: nat :| Alts(pat, i, k, n, l, a) && k < |pat| && pat[k] == BAR && Branch(pat, k + 1, j, l, m, b);
      AltsComplete(pat, i, k, n, l, a);
      BranchComplete(pat, k + 1, j, l, m, b);
      BranchEnd(pat, k + 1, j, l, m, b);
      MoreGoesOn(pat, k, l, a);
    case _ =>
      BranchComplete(pat, i, j, n, m, r);
      BranchEnd(pat, i, j, n, m, r);
  }

  lemma BranchEnd(pat: seq<byte>, i: nat, j: nat, n: nat, m: nat, r: Re)
    requires Branch(pat, i, j, n, m, r)
    ensures j <= |pat|
  {
    hide Pieces;
  }

  lemma MoreGoesOn(pat: seq<byte>, i: nat, n: nat, acc: Re)
    requires i < |pat| && pat[i] == BAR && ParseBranch(pat, i + 1, n).Ok?
    ensures var b := ParseBranch(pat, i + 1, n); ParseMore(pat, i, n, acc) == ParseMore(pat, b.pos, b.npar, Alt(acc, b.re))
  {
    hide ParseBranch;
  }

  /** The parser accepts exactly the patterns of the grammar, and gives each its only tree. */
  lemma ParseIsGrammar(pat: seq<byte>, r: Re, m: nat)
    requires NulFree(pat)
    ensures Parse(pat) == Ok(r, |pat|, m) <==> Derives(pat, r, m)
  {
    hide ParseAlts, Alts;
    if Parse(pat) == Ok(r, |pat|, m) {
      AltsSound(pat, 0, 1);
    }
    if Derives(pat, r, m) {
      AltsComplete(pat, 0, |pat|, 1, m, r);
      MoreStops(pat, |pat|, m, r);
    }
  }

  /** The same, without naming the tree: the pattern is accepted if and only if it has one. */
  lemma AcceptedIffDerived(pat: seq<byte>)
    requires NulFree(pat)
    ensures Parse(pat).Ok? ==> Derives(pat, Parse(pat).re, Parse(pat).npar)
    ensures forall r, m :: Derives(pat, r, m) ==> Parse(pat).Ok? && Parse(pat).re == r
  {
    hide Parse, Derives;
    if Parse(pat).Ok? {
      ParseIsGrammar(pat, Parse(pat).re, Parse(pat).npar);
    }
    forall r, m | Derives(pat, r, m)
      ensures Parse(pat).Ok? && Parse(pat).re == r
    {
      ParseIsGrammar(pat, r, m);
    }
  }

  /** An operator behind a run of ordinary bytes applies to the last of them. */
  lemma OperatorTakesOneByte(run: seq<byte>, op: byte)
    requires |run| >= 2 && NulFree(run) && IsMult(op) && forall k :: 0 <= k < |run| ==> !IsMeta(run[k])
    ensures var n := |run| - 1;
            Parse(run + [op]) == Ok(Cat(Exactly(run[..n]), Operated(op, Exactly([run[n]]))), |run| + 1, 1)
  {
    var pat := run + [op];
    var n := |run| - 1;
    var a, b := Exactly(run[..n]), Operated(op, Exactly([run[n]]));
    assert pat[0..n] == run[..n] && pat[n..n + 1] == [run[n]];
    assert Piece(pat, 0, n, 1, 1, a);
    assert Atom(pat, n, n + 1, 1, 1, Exactly([run[n]]));
    assert Piece(pat, n, |pat|, 1, 1, b);
    assert Pieces(pat, 0, n, 1, 1, a);
    assert Pieces(pat, 0, |pat|, 1, 1, Cat(a, b));
    assert Branch(pat, 0, |pat|, 1, 1, Cat(a, b));
    assert NulFree(pat);
    ParseIsGrammar(pat, Cat(a, b), 1);
  }
}
