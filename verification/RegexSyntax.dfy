/**
  Syntax and meaning of the regular expressions of `regexp.c`.

  A pattern is a NUL-free byte string.  `Parse` maps it to a syntax tree `Re`, and `Matches` says
  which stretches of a subject string a tree denotes.  The code generator and the matcher live in
  other modules and are proved against these two definitions.
*/
module RegexSyntax {
  import opened Bytes

  /** The byte a C pointer `i` bytes into `s` sees: NUL at the end. */
  function At(s: seq<byte>, i: nat): byte
    requires i <= |s|
  {
    if i < |s| then s[i] else 0
  }

  const CARET: byte := '^' as int
  const DOLLAR: byte := '$' as int
  const DOT: byte := '.' as int
  const LBRACKET: byte := '[' as int
  const RBRACKET: byte := ']' as int
  const LPAREN: byte := '(' as int
  const RPAREN: byte := ')' as int
  const BAR: byte := '|' as int
  const QUESTION: byte := '?' as int
  const PLUS_SIGN: byte := '+' as int
  const ASTERISK: byte := '*' as int
  const BACKSLASH: byte := '\\' as int
  const DASH: byte := '-' as int

  /** At most nine parenthesised groups. */
  const NSUBEXP := 10

  predicate IsMult(b: byte) {
    b == ASTERISK || b == PLUS_SIGN || b == QUESTION
  }

  predicate IsMeta(b: byte) {
    || b == CARET || b == DOLLAR || b == DOT || b == LBRACKET || b == LPAREN || b == RPAREN
    || b == BAR || b == BACKSLASH || IsMult(b)
  }

  /** A byte that ends a branch: end of pattern, `|` or `)`. */
  predicate EndsBranch(b: byte) {
    b == 0 || b == BAR || b == RPAREN
  }

  /** Syntax trees.  Concatenation and alternation nest to the left, in the order they are parsed. */
  datatype Re =
    | Empty
    | Bol
    | Eol
    | Any
    | Set(negated: bool, chars: seq<byte>)
    | Exactly(str: seq<byte>)
    | Cat(first: Re, second: Re)
    | Alt(left: Re, right: Re)
    | Group(no: nat, body: Re)
    | Star(rep: Re)
    | Plus(rep: Re)
    | Opt(rep: Re)

  // ----- Meaning -----

  /** `s[i..j]`, in the context of the whole of `s`, is one of the strings `r` denotes. */
  ghost predicate Matches(r: Re, s: seq<byte>, i: nat, j: nat)
    decreases r, 0
  {
    && i <= j <= |s|
    && match r
       case Empty => i == j
       case Bol => i == j == 0
       case Eol => i == j == |s|
       case Any => j == i + 1
       case Set(negated, chars) => j == i + 1 && (s[i] in chars) != negated
       case Exactly(str) => s[i..j] == str
       case Cat(a, b) => exists k: nat :: i <= k <= j && Matches(a, s, i, k) && Matches(b, s, k, j)
       case Alt(a, b) => Matches(a, s, i, j) || Matches(b, s, i, j)
       case Group(_, a) => Matches(a, s, i, j)
       case Star(a) => Iterates(a, s, i, j)
       case Plus(a) => exists k: nat :: i <= k <= j && Matches(a, s, i, k) && Iterates(a, s, k, j)
       case Opt(a) => i == j || Matches(a, s, i, j)
  }

  /** `s[i..j]` is a concatenation of zero or more non-empty matches of `a`. */
  ghost predicate Iterates(a: Re, s: seq<byte>, i: nat, j: nat)
    decreases a, 1 + if i <= j then j - i else 0
  {
    && i <= j <= |s|
    && (i == j || exists k: nat :: i < k <= j && Matches(a, s, i, k) && Iterates(a, s, k, j))
  }

  /** The textbook reading of `a*`: cut points of any number of matches of `a`, empty ones included. */
  ghost predicate IsCut(a: Re, s: seq<byte>, cuts: seq<nat>) {
    && |cuts| > 0
    && forall m :: 0 <= m < |cuts| - 1 ==> Matches(a, s, cuts[m], cuts[m + 1])
  }

  lemma {:induction false} IteratesHasCuts(a: Re, s: seq<byte>, i: nat, j: nat) returns (cuts: seq<nat>)
    requires Iterates(a, s, i, j)
    ensures IsCut(a, s, cuts) && cuts[0] == i && cuts[|cuts| - 1] == j
    decreases j - i
  {
    if i == j {
      cuts := [i];
    } else {
      var k: nat :| i < k <= j && Matches(a, s, i, k) && Iterates(a, s, k, j);
      var rest := IteratesHasCuts(a, s, k, j);
      cuts := [i] + rest;
      forall m | 0 <= m < |cuts| - 1
        ensures Matches(a, s, cuts[m], cuts[m + 1])
      {
        assert cuts[m + 1] == rest[m];
        if m > 0 {
          assert cuts[m] == rest[m - 1];
        }
      }
    }
  }

  lemma {:induction false} CutsIterate(a: Re, s: seq<byte>, cuts: seq<nat>)
    requires IsCut(a, s, cuts) && cuts[|cuts| - 1] <= |s|
    ensures Iterates(a, s, cuts[0], cuts[|cuts| - 1])
    decreases |cuts|
  {
    if |cuts| > 1 {
      var rest := cuts[1..];
      forall m | 0 <= m < |rest| - 1
        ensures Matches(a, s, rest[m], rest[m + 1])
      {
        assert rest[m] == cuts[m + 1] && rest[m + 1] == cuts[m + 2];
      }
      CutsIterate(a, s, rest);
      assert Matches(a, s, cuts[0], cuts[1]);
    }
  }

  /** `Matches(Star(a), ...)` is the reflexive-transitive closure of `Matches(a, ...)`. */
  lemma StarIsClosure(a: Re, s: seq<byte>, i: nat, j: nat)
    requires i <= |s| && j <= |s|
    ensures Matches(Star(a), s, i, j) <==>
            exists cuts: seq<nat> :: IsCut(a, s, cuts) && cuts[0] == i && cuts[|cuts| - 1] == j
  {
    if Matches(Star(a), s, i, j) {
      var cuts := IteratesHasCuts(a, s, i, j);
    }
    forall cuts: seq<nat> | IsCut(a, s, cuts) && cuts[0] == i && cuts[|cuts| - 1] == j
      ensures Matches(Star(a), s, i, j)
    {
      CutsIterate(a, s, cuts);
    }
  }

  // ----- The compiler's flags, as properties of trees -----

  /** Flag HASWIDTH. */
  predicate HasWidth(r: Re) {
    match r
    case Any => true
    case Set(_, _) => true
    case Exactly(str) => str != []
    case Cat(a, b) => HasWidth(a) || HasWidth(b)
    case Alt(a, b) => HasWidth(a) && HasWidth(b)
    case Group(_, a) => HasWidth(a)
    case Plus(a) => HasWidth(a)
    case _ => false
  }

  /** Flag SIMPLE: matches exactly one byte, so that STAR and PLUS can repeat it. */
  predicate IsSimple(r: Re) {
    r.Any? || r.Set? || (r.Exactly? && |r.str| == 1)
  }

  /** Flag SPSTART: begins with `*` (or `?`, which the compiler flags too). */
  predicate SpStart(r: Re) {
    match r
    case Cat(a, _) => SpStart(a)
    case Alt(a, b) => SpStart(a) || SpStart(b)
    case Group(_, a) => SpStart(a)
    case Star(_) => true
    case Opt(_) => true
    case _ => false
  }

  /** HASWIDTH is sound: a flagged tree never matches the empty string. */
  lemma {:induction false} HasWidthSound(r: Re, s: seq<byte>, i: nat, j: nat)
    requires HasWidth(r) && Matches(r, s, i, j)
    ensures i < j
  {
    match r
    case Any =>
    case Set(_, _) =>
    case Exactly(str) =>
    case Cat(a, b) =>
      var k: nat :| i <= k <= j && Matches(a, s, i, k) && Matches(b, s, k, j);
      if HasWidth(a) { HasWidthSound(a, s, i, k); } else { HasWidthSound(b, s, k, j); }
    case Alt(a, b) =>
      if Matches(a, s, i, j) { HasWidthSound(a, s, i, j); } else { HasWidthSound(b, s, i, j); }
    case Group(_, a) => HasWidthSound(a, s, i, j);
    case Plus(a) =>
      var k: nat :| i <= k <= j && Matches(a, s, i, k) && Iterates(a, s, k, j);
      HasWidthSound(a, s, i, k);
  }

  // ----- Shape of the trees the parser builds -----

  /** Which level of the grammar a tree belongs to: atom, piece, branch with pieces, branch, alternatives. */
  function Level(r: Re): nat {
    match r
    case Star(_) => 1
    case Plus(_) => 1
    case Opt(_) => 1
    case Cat(_, _) => 2
    case Empty => 3
    case Alt(_, _) => 4
    case _ => 0
  }

  /** The trees the grammar allows; in particular only atoms that have width are repeated. */
  predicate WellFormed(r: Re) {
    match r
    case Set(_, chars) => 0 !in chars
    case Exactly(str) => str != [] && 0 !in str
    case Group(no, a) => 1 <= no < NSUBEXP && WellFormed(a)
    case Star(a) => Level(a) == 0 && HasWidth(a) && WellFormed(a)
    case Plus(a) => Level(a) == 0 && HasWidth(a) && WellFormed(a)
    case Opt(a) => Level(a) == 0 && WellFormed(a)
    case Cat(a, b) => Level(a) <= 2 && Level(b) <= 1 && WellFormed(a) && WellFormed(b)
    case Alt(a, b) => Level(b) <= 3 && WellFormed(a) && WellFormed(b)
    case _ => true
  }

  predicate IsAtom(r: Re) { Level(r) == 0 && WellFormed(r) }

  predicate IsPiece(r: Re) { Level(r) <= 1 && WellFormed(r) }

  predicate IsBranch(r: Re) { Level(r) <= 3 && WellFormed(r) }

  /** And it is exact: a tree of the grammar is flagged if and only if it does not match nothing in the empty string. */
  lemma {:induction false} HasWidthExact(r: Re)
    requires WellFormed(r)
    ensures HasWidth(r) <==> !Matches(r, [], 0, 0)
    decreases r
  {
    match r
    case Cat(a, b) =>
      HasWidthExact(a);
      HasWidthExact(b);
    case Alt(a, b) =>
      HasWidthExact(a);
      HasWidthExact(b);
    case Group(_, a) => HasWidthExact(a);
    case Plus(a) =>
      HasWidthExact(a);
    case _ =>
  }

  // ----- Parsing -----

  /** The tree for operator `op` on `a`. */
  function Operated(op: byte, a: Re): Re {
    if op == ASTERISK then Star(a) else if op == PLUS_SIGN then Plus(a) else Opt(a)
  }

  datatype Parsed = Bad | Ok(re: Re, pos: nat, npar: nat)

  /** Number of bytes from `i` on that are not metacharacters (`my_strcspn` against META). */
  function LiteralRun(pat: seq<byte>, i: nat): (n: nat)
    requires i <= |pat|
    ensures i + n <= |pat|
    ensures forall k :: i <= k < i + n ==> !IsMeta(pat[k])
    ensures i + n < |pat| ==> IsMeta(pat[i + n])
    decreases |pat| - i
  {
    if i == |pat| || IsMeta(pat[i]) then 0 else 1 + LiteralRun(pat, i + 1)
  }

  /** How much of that run is one atom: a following `*`, `+` or `?` takes the last byte only. */
  function LiteralLength(pat: seq<byte>, i: nat): (n: nat)
    requires i <= |pat|
    ensures i + n <= |pat|
    ensures LiteralRun(pat, i) > 0 ==> n > 0
  {
    var n := LiteralRun(pat, i);
    if n > 1 && IsMult(At(pat, i + n)) then n - 1 else n
  }

  /** The bytes after `lo` up to and including `hi`, ascending. */
  function After(lo: int, hi: byte): (r: seq<byte>)
    requires 0 <= lo
    ensures forall x: byte :: x in r <==> lo < x <= hi
    ensures |r| == if lo <= hi then hi - lo else 0
    decreases hi - lo
  {
    if lo >= hi then [] else [lo + 1] + After(lo + 1, hi)
  }

  datatype Class = BadClass | ClassOk(chars: seq<byte>, pos: nat)

  /** The body of `[...]` from `i` on, `acc` having been listed so far; stops at `]`. */
  function ParseClass(pat: seq<byte>, i: nat, acc: seq<byte>): (c: Class)
    requires 0 < i <= |pat|
    ensures c.ClassOk? ==> i < c.pos <= |pat| && pat[c.pos - 1] == RBRACKET
    ensures c.ClassOk? && 0 !in acc && NulFree(pat) ==> 0 !in c.chars
    ensures c.ClassOk? ==> acc <= c.chars
    decreases |pat| - i
  {
    var b := At(pat, i);
    if b == RBRACKET then ClassOk(acc, i + 1)
    else if i == |pat| then BadClass
    else if b != DASH then ParseClass(pat, i + 1, acc + [b])
    else
      var hi := At(pat, i + 1);
      if i + 1 == |pat| || hi == RBRACKET then ParseClass(pat, i + 1, acc + [DASH])
      else if pat[i - 1] > hi then BadClass
      else ParseClass(pat, i + 2, acc + After(pat[i - 1], hi))
  }

  /** A bracket expression, `i` being just after `[`. */
  function ParseSet(pat: seq<byte>, i: nat, npar: nat): (p: Parsed)
    requires 0 < i <= |pat|
    ensures p.Ok? ==> i < p.pos <= |pat| && p.npar == npar && p.re.Set?
    ensures p.Ok? && NulFree(pat) ==> IsAtom(p.re)
  {
    var negated := At(pat, i) == CARET;
    var j := if negated then i + 1 else i;
    var b := At(pat, j);
    var lead := if b == RBRACKET || b == DASH then 1 else 0;
    match ParseClass(pat, j + lead, pat[j..j + lead])
    case BadClass => Bad
    case ClassOk(chars, pos) => Ok(Set(negated, chars), pos, npar)
  }

  function ParseAtom(pat: seq<byte>, i: nat, npar: nat): (p: Parsed)
    requires i <= |pat|
    ensures p.Ok? ==> i < p.pos <= |pat| && npar <= p.npar
    ensures p.Ok? && NulFree(pat) && 1 <= npar ==> IsAtom(p.re)
    decreases |pat| - i, 0
  {
    var b := At(pat, i);
    if b == CARET then Ok(Bol, i + 1, npar)
    else if b == DOLLAR then Ok(Eol, i + 1, npar)
    else if b == DOT then Ok(Any, i + 1, npar)
    else if b == LBRACKET then ParseSet(pat, i + 1, npar)
    else if b == LPAREN then ParseReg(pat, i + 1, npar, true)
    else if EndsBranch(b) || IsMult(b) then Bad
    else if b == BACKSLASH then
      if i + 1 == |pat| then Bad else Ok(Exactly([pat[i + 1]]), i + 2, npar)
    else
      var n := LiteralLength(pat, i);
      Ok(Exactly(pat[i..i + n]), i + n, npar)
  }

  function ParsePiece(pat: seq<byte>, i: nat, npar: nat): (p: Parsed)
    requires i <= |pat|
    ensures p.Ok? ==> i < p.pos <= |pat| && npar <= p.npar
    ensures p.Ok? && NulFree(pat) && 1 <= npar ==> IsPiece(p.re)
    decreases |pat| - i, 1
  {
    match ParseAtom(pat, i, npar)
    case Bad => Bad
    case Ok(a, pos, n) =>
      var op := At(pat, pos);
      if !IsMult(op) then Ok(a, pos, n)
      else if !HasWidth(a) && op != QUESTION then Bad
      else if IsMult(At(pat, pos + 1)) then Bad
      else Ok(if op == ASTERISK then Star(a) else if op == PLUS_SIGN then Plus(a) else Opt(a), pos + 1, n)
  }

  /** The pieces from `i` on, `acc` being those before them. */
  function ParsePieces(pat: seq<byte>, i: nat, npar: nat, acc: Re): (p: Parsed)
    requires i <= |pat|
    ensures p.Ok? ==> i <= p.pos <= |pat| && npar <= p.npar && EndsBranch(At(pat, p.pos))
    ensures p.Ok? && NulFree(pat) && 1 <= npar && IsBranch(acc) ==> IsBranch(p.re)
    decreases |pat| - i, 2
  {
    if EndsBranch(At(pat, i)) then Ok(acc, i, npar)
    else
      match ParsePiece(pat, i, npar)
      case Bad => Bad
      case Ok(x, pos, n) =>
        ParsePieces(pat, pos, n, if acc == Empty then x else Cat(acc, x))
  }

  function ParseBranch(pat: seq<byte>, i: nat, npar: nat): (p: Parsed)
    requires i <= |pat|
    ensures p.Ok? ==> i <= p.pos <= |pat| && npar <= p.npar && EndsBranch(At(pat, p.pos))
    ensures p.Ok? && NulFree(pat) && 1 <= npar ==> IsBranch(p.re)
    decreases |pat| - i, 3
  {
    ParsePieces(pat, i, npar, Empty)
  }

  /** The alternatives after `acc`, `i` being just after `acc`. */
  function ParseMore(pat: seq<byte>, i: nat, npar: nat, acc: Re): (p: Parsed)
    requires i <= |pat|
    ensures p.Ok? ==> i <= p.pos <= |pat| && npar <= p.npar && At(pat, p.pos) != BAR
    ensures p.Ok? && EndsBranch(At(pat, i)) ==> EndsBranch(At(pat, p.pos))
    ensures p.Ok? && NulFree(pat) && 1 <= npar && WellFormed(acc) ==> WellFormed(p.re)
    decreases |pat| - i, 4
  {
    if At(pat, i) != BAR then Ok(acc, i, npar)
    else
      match ParseBranch(pat, i + 1, npar)
      case Bad => Bad
      case Ok(b, pos, n) => ParseMore(pat, pos, n, Alt(acc, b))
  }

  function ParseAlts(pat: seq<byte>, i: nat, npar: nat): (p: Parsed)
    requires i <= |pat|
    ensures p.Ok? ==> i <= p.pos <= |pat| && npar <= p.npar && EndsBranch(At(pat, p.pos)) && At(pat, p.pos) != BAR
    ensures p.Ok? && NulFree(pat) && 1 <= npar ==> WellFormed(p.re)
    decreases |pat| - i, 5
  {
    match ParseBranch(pat, i, npar)
    case Bad => Bad
    case Ok(b, pos, n) =>
      ParseMore(pat, pos, n, b)
  }

  /** A parenthesised group, `i` being just after its parenthesis, or a whole pattern. */
  function ParseReg(pat: seq<byte>, i: nat, npar: nat, paren: bool): (p: Parsed)
    requires i <= |pat|
    ensures p.Ok? ==> i <= p.pos <= |pat| && npar <= p.npar
    ensures p.Ok? && paren ==> p.re.Group? && p.re.no == npar < NSUBEXP
    ensures p.Ok? && NulFree(pat) && !paren ==> p.pos == |pat|
    ensures p.Ok? && NulFree(pat) && 1 <= npar ==> WellFormed(p.re)
    decreases |pat| - i, 6
  {
    if paren then
      if npar >= NSUBEXP then Bad else
      var p := ParseAlts(pat, i, npar + 1);
      if p.Ok? && At(pat, p.pos) == RPAREN then Ok(Group(npar, p.re), p.pos + 1, p.npar) else Bad
    else
      var p := ParseAlts(pat, i, npar);
      if p.Ok? && At(pat, p.pos) != 0 then Bad else p
  }

  /** A whole pattern: alternatives that end where the pattern does. */
  function Parse(pat: seq<byte>): (p: Parsed)
    ensures p.Ok? && NulFree(pat) ==> p.pos == |pat| && WellFormed(p.re)
  {
    ParseReg(pat, 0, 1, false)
  }
}
