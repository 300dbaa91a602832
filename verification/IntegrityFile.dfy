/**
  The file-integrity whitelist as a byte string: records packed one after another, each padded to a
  multiple of 4 bytes, with deleted records left in place as tombstones whose hash is zero.

  The two laws the update protocol rests on are proved here: appending behind padding appends the parsed
  records, and overwriting payloads with zeros keeps all framing.
*/
module IntegrityFile {
  import opened Bytes

  const HEADER: nat := 4
  const HASH: nat := 32

  /** Size field arithmetic of the record at `i`: header, hash, extension, path. */
  function RecordSize(b: seq<byte>, i: nat): (n: nat)
    requires i + HEADER <= |b|
    ensures n >= HEADER + HASH
  {
    HEADER + HASH + b[i + 1] as int + b[i + 2] as int * 256 + b[i + 3] as int
  }

  /** A record found in a buffer: where it starts and its bytes without padding. */
  datatype Placed = Placed(offset: nat, raw: seq<byte>)

  datatype Parsed = Bad | Ok(records: seq<Placed>)

  function ExtendSize(raw: seq<byte>): byte
    requires |raw| >= HEADER + HASH
  {
    raw[1]
  }

  function PathLength(raw: seq<byte>): nat
    requires |raw| >= HEADER + HASH
  {
    raw[2] as int * 256 + raw[3] as int
  }

  function HashOf(raw: seq<byte>): seq<byte>
    requires |raw| >= HEADER + HASH
  {
    raw[HEADER..HEADER + HASH]
  }

  /** `file_integrity_check`: the size of the record at `i`, or 0 if the buffer is too short for it. */
  function Check(b: seq<byte>, i: nat): (n: nat)
    requires i <= |b|
    ensures n > 0 ==> n >= HEADER + HASH && i + n <= |b| && n == RecordSize(b, i)
  {
    if |b| - i < HEADER + HASH then 0
    else if RecordSize(b, i) <= |b| - i then RecordSize(b, i) else 0
  }

  /** `buffer_to_item_array` from position `i` on. */
  function ParseFrom(b: seq<byte>, i: nat): (p: Parsed)
    decreases |b| - i
  {
    if i >= |b| then Ok([])
    else
      var n := Check(b, i);
      if n == 0 then Bad
      else
        var rest := ParseFrom(b, i + Align4(n));
        if rest.Bad? then Bad else Ok([Placed(i, b[i..i + n])] + rest.records)
  }

  function Parse(b: seq<byte>): Parsed {
    ParseFrom(b, 0)
  }

  /** The bytes of a record agree with its own size fields. */
  predicate Framed(p: Placed) {
    |p.raw| >= HEADER + HASH && |p.raw| == RecordSize(p.raw, 0)
  }

  function Shift(ps: seq<Placed>, d: nat): (r: seq<Placed>)
    ensures |r| == |ps|
    ensures forall k :: 0 <= k < |ps| ==> r[k] == Placed(ps[k].offset + d, ps[k].raw)
  {
    seq(|ps|, k requires 0 <= k < |ps| => Placed(ps[k].offset + d, ps[k].raw))
  }

  /** The file zero-filled to a multiple of 4. */
  function Pad(b: seq<byte>): (r: seq<byte>)
    ensures |r| == Align4(|b|)
  {
    b + Zeros(Align4(|b|) - |b|)
  }

  /** One record off the front: what `ParseFrom` does at `i`. */
  lemma ParseStep(b: seq<byte>, i: nat)
    requires i < |b|
    ensures Check(b, i) == 0 ==> ParseFrom(b, i).Bad?
    ensures var n := Check(b, i);
            var rest := ParseFrom(b, i + Align4(n));
            && (n > 0 && rest.Bad? ==> ParseFrom(b, i).Bad?)
            && (n > 0 && rest.Ok? ==> ParseFrom(b, i) == Ok([Placed(i, b[i..i + n])] + rest.records))
  {
  }

  lemma ParseEnd(b: seq<byte>, i: nat)
    requires i >= |b|
    ensures ParseFrom(b, i) == Ok([])
  {
  }

  lemma {:induction false} ParseFramed(b: seq<byte>, i: nat)
    requires ParseFrom(b, i).Ok?
    ensures forall k :: 0 <= k < |ParseFrom(b, i).records| ==> Framed(ParseFrom(b, i).records[k])
    decreases |b| - i
  {
    hide ParseFrom, Align4;
    if i < |b| {
      ParseStep(b, i);
      var n := Check(b, i);
      RecordSizeSame(b, i, b[i..i + n], 0);
      ParseFramed(b, i + Align4(n));
    } else {
      ParseEnd(b, i);
    }
  }

  // ----- Appending -----

  lemma RecordSizeSame(b: seq<byte>, i: nat, c: seq<byte>, j: nat)
    requires i + HEADER <= |b| && j + HEADER <= |c|
    requires b[i + 1] == c[j + 1] && b[i + 2] == c[j + 2] && b[i + 3] == c[j + 3]
    ensures RecordSize(b, i) == RecordSize(c, j)
  {
  }

  lemma ShiftCons(x: Placed, ps: seq<Placed>, d: nat)
    ensures Shift([x] + ps, d) == [Placed(x.offset + d, x.raw)] + Shift(ps, d)
  {
    var l, r := Shift([x] + ps, d), [Placed(x.offset + d, x.raw)] + Shift(ps, d);
    forall k | 0 <= k < |l|
      ensures l[k] == r[k]
    {
      if k > 0 { assert ([x] + ps)[k] == ps[k - 1]; }
    }
  }

  /** Parsing `new` where it stands inside a longer buffer. */
  lemma {:induction false} ParseInside(pre: seq<byte>, new': seq<byte>, i: nat)
    ensures ParseFrom(new', i).Bad? ==> ParseFrom(pre + new', |pre| + i).Bad?
    ensures ParseFrom(new', i).Ok? ==>
              ParseFrom(pre + new', |pre| + i) == Ok(Shift(ParseFrom(new', i).records, |pre|))
    decreases |new'| - i
  {
    hide ParseFrom, Align4, Check, Shift;
    var b := pre + new';
    if i >= |new'| {
      ParseEnd(new', i);
      ParseEnd(b, |pre| + i);
      ShiftNil(|pre|);
    } else {
      CheckInside(pre, new', i);
      ParseStep(new', i);
      ParseStep(b, |pre| + i);
      var n := Check(new', i);
      if n > 0 {
        var j := i + Align4(n);
        assert b[|pre| + i..|pre| + i + n] == new'[i..i + n];
        ParseInside(pre, new', j);
        assert |pre| + i + Align4(n) == |pre| + j;
        if ParseFrom(new', j).Ok? {
          ShiftCons(Placed(i, new'[i..i + n]), ParseFrom(new', j).records, |pre|);
        }
      }
    }
  }

  lemma ShiftNil(d: nat)
    ensures Shift([], d) == []
  {
  }

  lemma CheckInside(pre: seq<byte>, new': seq<byte>, i: nat)
    requires i <= |new'|
    ensures Check(pre + new', |pre| + i) == Check(new', i)
  {
    var b := pre + new';
    if i + HEADER <= |new'| {
      RecordSizeSame(b, |pre| + i, new', i);
    }
  }

  /** Parsing a padded file followed by more records: the file's own records first, then the rest. */
  lemma {:induction false} ParsePadded(b: seq<byte>, tail: seq<byte>, i: nat)
    requires i <= |Pad(b)| && i % 4 == 0 && ParseFrom(b, i).Ok?
    ensures var rest := ParseFrom(Pad(b) + tail, |Pad(b)|);
            && (rest.Bad? ==> ParseFrom(Pad(b) + tail, i).Bad?)
            && (rest.Ok? ==> ParseFrom(Pad(b) + tail, i) == Ok(ParseFrom(b, i).records + rest.records))
    decreases |b| - i
  {
    hide ParseFrom, Align4, Check, Pad;
    var c := Pad(b) + tail;
    var rest := ParseFrom(c, |Pad(b)|);
    if i >= |b| {
      ParseEnd(b, i);
      PadEnd(b, i);
      if rest.Ok? { assert [] + rest.records == rest.records; }
    } else {
      ParseStep(b, i);
      ParseStep(c, i);
      var n := Check(b, i);
      var j := i + Align4(n);
      CheckPadded(b, tail, i);
      PadStep(b, i, n);
      ParsePadded(b, tail, j);
      if rest.Ok? {
        var x := [Placed(i, b[i..i + n])];
        assert x + (ParseFrom(b, j).records + rest.records) == (x + ParseFrom(b, j).records) + rest.records;
      }
    }
  }

  lemma PadEnd(b: seq<byte>, i: nat)
    requires |b| <= i <= |Pad(b)| && i % 4 == 0
    ensures i == |Pad(b)|
  {
    Align4Unique(|b|, i);
  }

  lemma PadStep(b: seq<byte>, i: nat, n: nat)
    requires i % 4 == 0 && i + n <= |b|
    ensures i + Align4(n) <= |Pad(b)| && (i + Align4(n)) % 4 == 0
  {
    Align4Add(i, n);
    Align4Monotone(i + n, |b|);
  }

  lemma Align4Monotone(m: nat, n: nat)
    requires m <= n
    ensures Align4(m) <= Align4(n)
  {
  }

  lemma CheckPadded(b: seq<byte>, tail: seq<byte>, i: nat)
    requires i <= |b| && Check(b, i) > 0
    ensures Check(Pad(b) + tail, i) == Check(b, i)
    ensures var n := Check(b, i); (Pad(b) + tail)[i..i + n] == b[i..i + n]
  {
    RecordSizeSame(b, i, Pad(b) + tail, i);
    var n := Check(b, i);
    assert (Pad(b) + tail)[i..i + n] == b[i..i + n];
  }

  /** The append law: padded old followed by new parses to old's records, then new's, shifted. */
  lemma AppendLaw(old': seq<byte>, new': seq<byte>)
    requires Parse(old').Ok?
    ensures Parse(new').Bad? ==> Parse(Pad(old') + new').Bad?
    ensures Parse(new').Ok? ==>
              Parse(Pad(old') + new') == Ok(Parse(old').records + Shift(Parse(new').records, |Pad(old')|))
  {
    hide ParseFrom, Pad, Shift;
    ParsePadded(old', new', 0);
    ParseInside(Pad(old'), new', 0);
  }

  // ----- Tombstones -----

  predicate ZeroHash(raw: seq<byte>)
    requires |raw| >= HEADER + HASH
  {
    HashOf(raw) == Zeros(HASH)
  }

  predicate Live(p: Placed) {
    |p.raw| >= HEADER + HASH && !ZeroHash(p.raw)
  }

  /** The records that are not tombstones, in file order. */
  function LiveOf(ps: seq<Placed>): (r: seq<Placed>)
    ensures forall k :: 0 <= k < |r| ==> r[k] in ps && Live(r[k])
  {
    if ps == [] then []
    else (if Live(ps[0]) then [ps[0]] else []) + LiveOf(ps[1..])
  }

  lemma {:induction false} LiveAppend(a: seq<Placed>, b: seq<Placed>)
    ensures LiveOf(a + b) == LiveOf(a) + LiveOf(b)
    decreases |a|
  {
    if a == [] {
      assert a + b == b;
    } else {
      LiveAppend(a[1..], b);
      assert (a + b)[1..] == a[1..] + b;
      var x := if Live(a[0]) then [a[0]] else [];
      assert x + (LiveOf(a[1..]) + LiveOf(b)) == (x + LiveOf(a[1..])) + LiveOf(b);
    }
  }

  lemma {:induction false} LiveShift(ps: seq<Placed>, d: nat)
    ensures LiveOf(Shift(ps, d)) == Shift(LiveOf(ps), d)
    decreases |ps|
  {
    hide Shift, ZeroHash;
    if ps == [] {
      ShiftNil(d);
    } else {
      var x, rest := ps[0], ps[1..];
      assert ps == [x] + rest;
      ShiftCons(x, rest, d);
      LiveShift(rest, d);
      LiveCons(x, rest);
      LiveCons(Placed(x.offset + d, x.raw), Shift(rest, d));
      if Live(x) { ShiftCons(x, LiveOf(rest), d); }
    }
  }

  lemma LiveCons(x: Placed, ps: seq<Placed>)
    ensures LiveOf([x] + ps) == if Live(x) then [x] + LiveOf(ps) else LiveOf(ps)
  {
    assert ([x] + ps)[1..] == ps;
  }

  /** Record `p` is what stands in `b` at its offset, on a 4-byte boundary. */
  ghost predicate StandsIn(p: Placed, b: seq<byte>) {
    && p.offset % 4 == 0 && p.offset + |p.raw| <= |b|
    && p.raw == b[p.offset..p.offset + |p.raw|]
  }

  /** The records lie in order without overlap, padding included, all from `i` on. */
  ghost predicate InOrder(ps: seq<Placed>, i: nat) {
    && (forall k :: 0 <= k < |ps| ==> i <= ps[k].offset)
    && (forall k, m :: 0 <= k < m < |ps| ==> ps[k].offset + Align4(|ps[k].raw|) <= ps[m].offset)
  }

  lemma OrderedFrom(ps: seq<Placed>, i: nat, k: nat)
    requires InOrder(ps, i) && k < |ps|
    ensures i <= ps[k].offset
  {
  }

  lemma InOrderCons(x: Placed, ps: seq<Placed>, i: nat)
    requires InOrder(ps, x.offset + Align4(|x.raw|)) && i <= x.offset
    ensures InOrder([x] + ps, i)
  {
    hide Align4;
    var all := [x] + ps;
    assert forall k :: 0 < k < |all| ==> all[k] == ps[k - 1];
  }

  /** Every record stands in the file where its offset says, and they do not overlap. */
  lemma {:induction false} Offsets(b: seq<byte>, i: nat)
    requires i % 4 == 0 && ParseFrom(b, i).Ok?
    ensures InOrder(ParseFrom(b, i).records, i)
    ensures forall k :: 0 <= k < |ParseFrom(b, i).records| ==> StandsIn(ParseFrom(b, i).records[k], b)
    decreases |b| - i
  {
    hide ParseFrom, Align4, InOrder;
    if i < |b| {
      ParseStep(b, i);
      var n := Check(b, i);
      Align4Sum(i, n);
      Offsets(b, i + Align4(n));
      InOrderCons(Placed(i, b[i..i + n]), ParseFrom(b, i + Align4(n)).records, i);
    } else {
      ParseEnd(b, i);
      InOrderNil(i);
    }
  }

  lemma InOrderNil(i: nat)
    ensures InOrder([], i)
  {
  }

  lemma Align4Sum(i: nat, n: nat)
    requires i % 4 == 0
    ensures (i + Align4(n)) % 4 == 0
  {
    Align4Add(i, n);
  }

  /** One section of `httc_util_file_write_offset_array`: `n` bytes of `src` written at `at`, growing the file if need be. */
  function WriteAt(b: seq<byte>, at: nat, src: seq<byte>, n: nat): (r: seq<byte>)
    requires at <= |b| && n <= |src|
    ensures |r| == if at + n <= |b| then |b| else at + n
  {
    if at + n <= |b| then b[..at] + src[..n] + b[at + n..] else b[..at] + src[..n]
  }

  /** A record whose payload was overwritten from `src`. */
  function Buried(raw: seq<byte>, src: seq<byte>): (r: seq<byte>)
    requires |raw| >= HEADER + HASH && |src| >= |raw|
    ensures |r| == |raw|
  {
    raw[..HEADER] + src[..|raw| - HEADER]
  }

  /** Overwriting memory that begins with a zero hash. */
  predicate Shroud(src: seq<byte>) {
    |src| >= HASH && src[..HASH] == Zeros(HASH)
  }

  lemma BuriedIsTombstone(p: Placed, src: seq<byte>)
    requires Framed(p) && Shroud(src) && |src| >= |p.raw|
    ensures Framed(Placed(p.offset, Buried(p.raw, src))) && !Live(Placed(p.offset, Buried(p.raw, src)))
  {
    RecordSizeSame(p.raw, 0, Buried(p.raw, src), 0);
    assert HashOf(Buried(p.raw, src)) == src[..HASH];
  }

  /** The file after the payload of the record at `at` of padded size `a` was overwritten from `src`. */
  function Bury(b: seq<byte>, at: nat, a: nat, src: seq<byte>): (r: seq<byte>)
    requires at + HEADER <= |b| && a >= HEADER && |src| >= a
  {
    WriteAt(b, at + HEADER, src, a - HEADER)
  }

  /** Overwriting one payload keeps the framing: only the record at that offset changes. */
  lemma {:induction false} BuryLaw(b: seq<byte>, i: nat, k: nat, src: seq<byte>)
    requires i % 4 == 0 && ParseFrom(b, i).Ok? && k < |ParseFrom(b, i).records|
    requires |src| >= Align4(|ParseFrom(b, i).records[k].raw|)
    ensures var p := ParseFrom(b, i).records[k];
            && Framed(p) && p.offset + HEADER <= |b|
            && ParseFrom(Bury(b, p.offset, Align4(|p.raw|), src), i) ==
               Ok(ParseFrom(b, i).records[k := Placed(p.offset, Buried(p.raw, src))])
    decreases |b| - i
  {
    hide ParseFrom, Align4, Check, Bury, Buried, RecordSize, InOrder;
    Offsets(b, i);
    ParseFramed(b, i);
    var ps := ParseFrom(b, i).records;
    var p := ps[k];
    var x := Placed(p.offset, Buried(p.raw, src));
    if i >= |b| {
      ParseEnd(b, i);
      assert false;
    }
    ParseStep(b, i);
    var n := Check(b, i);
    var j := i + Align4(n);
    var rest := ParseFrom(b, j).records;
    var c := Bury(b, p.offset, Align4(|p.raw|), src);
    Align4Sum(i, n);
    assert ps == [Placed(i, b[i..i + n])] + rest;
    if k == 0 {
      BuryHere(b, i, src);
      ParseSuffix(b, c, j);
      ParseStep(c, i);
      assert ps[0 := x] == [x] + rest;
    } else {
      assert p == rest[k - 1];
      BuryLaw(b, j, k - 1, src);
      Offsets(b, j);
      OrderedFrom(rest, j, k - 1);
      BuryAfter(b, i, p.offset, Align4(|p.raw|), src);
      ParseStep(c, i);
      assert ps[k := x] == [Placed(i, b[i..i + n])] + rest[k - 1 := x];
    }
  }

  /** A record before the one that is overwritten. */
  lemma BuryAfter(b: seq<byte>, i: nat, at: nat, a: nat, src: seq<byte>)
    requires i < |b| && Check(b, i) > 0 && i + Check(b, i) <= at && at + HEADER <= |b| && a >= HEADER && |src| >= a
    ensures var c := Bury(b, at, a, src);
            && i < |c| && Check(c, i) == Check(b, i) && c[i..i + Check(b, i)] == b[i..i + Check(b, i)]
  {
    var c := Bury(b, at, a, src);
    RecordSizeSame(b, i, c, i);
  }

  /** The record at `i` itself. */
  lemma BuryHere(b: seq<byte>, i: nat, src: seq<byte>)
    requires i < |b| && Check(b, i) > 0 && |src| >= Align4(Check(b, i))
    ensures var n := Check(b, i);
            var c := Bury(b, i, Align4(n), src);
            && Check(c, i) == n && c[i..i + n] == Buried(b[i..i + n], src) && |b| <= |c|
            && (i + Align4(n) <= |b| ==> |c| == |b|)
            && (i + Align4(n) > |b| ==> |c| == i + Align4(n))
            && forall x :: i + Align4(n) <= x < |b| ==> c[x] == b[x]
  {
    var n := Check(b, i);
    var c := Bury(b, i, Align4(n), src);
    RecordSizeSame(b, i, c, i);
    assert c[i..i + n] == Buried(b[i..i + n], src);
  }

  /** Parsing from `j` on depends only on the bytes from `j` on. */
  lemma {:induction false} ParseSuffix(b: seq<byte>, c: seq<byte>, j: nat)
    requires (j <= |b| && |c| == |b| && forall x :: j <= x < |b| ==> c[x] == b[x]) || (|b| <= j && |c| <= j)
    ensures ParseFrom(b, j) == ParseFrom(c, j)
    decreases |b| - j
  {
    hide ParseFrom, Align4;
    if j >= |b| {
      ParseEnd(b, j);
      ParseEnd(c, j);
    } else {
      ParseStep(b, j);
      ParseStep(c, j);
      if j + HEADER <= |b| { RecordSizeSame(b, j, c, j); }
      var n := Check(b, j);
      if n > 0 {
        assert b[j..j + n] == c[j..j + n];
        ParseSuffix(b, c, j + Align4(n));
      }
    }
  }

  // ----- Overwriting several payloads -----

  /** All records are framed, and `src` is long enough to overwrite any of them, padding included. */
  ghost predicate Coverable(ps: seq<Placed>, src: seq<byte>) {
    forall k {:trigger ps[k]} :: 0 <= k < |ps| ==> Framed(ps[k]) && |ps[k].raw| <= Align4(|ps[k].raw|) <= |src|
  }

  /** A record after overwriting, if its offset is in `gone`. */
  ghost function BuryOne(p: Placed, gone: set<nat>, src: seq<byte>): Placed {
    if p.offset in gone && HEADER + HASH <= |p.raw| <= |src| then Placed(p.offset, Buried(p.raw, src)) else p
  }

  /** The records with those at the offsets in `gone` overwritten. */
  ghost function BuryMany(ps: seq<Placed>, gone: set<nat>, src: seq<byte>): (r: seq<Placed>)
    ensures |r| == |ps|
    ensures forall k :: 0 <= k < |ps| ==> r[k] == BuryOne(ps[k], gone, src)
  {
    seq(|ps|, k requires 0 <= k < |ps| => BuryOne(ps[k], gone, src))
  }

  /** The records whose offset is not in `gone`. */
  function Survivors(ps: seq<Placed>, gone: set<nat>): seq<Placed> {
    if ps == [] then []
    else (if ps[0].offset in gone then [] else [ps[0]]) + Survivors(ps[1..], gone)
  }

  lemma CoverableTail(ps: seq<Placed>, src: seq<byte>)
    requires Coverable(ps, src) && ps != []
    ensures Coverable(ps[1..], src) && Framed(ps[0]) && |ps[0].raw| <= |src|
  {
    assert forall k :: 0 <= k < |ps[1..]| ==> ps[1..][k] == ps[k + 1];
  }

  /** Only the records at those offsets stop being live; the others keep bytes, offsets and order. */
  lemma {:induction false} LiveAfterBury(ps: seq<Placed>, gone: set<nat>, src: seq<byte>)
    requires Coverable(ps, src)
    requires Shroud(src)
    ensures LiveOf(BuryMany(ps, gone, src)) == Survivors(LiveOf(ps), gone)
    decreases |ps|
  {
    hide Buried, ZeroHash, Align4;
    if ps != [] {
      var x, rest := ps[0], ps[1..];
      assert ps == [x] + rest;
      CoverableTail(ps, src);
      LiveAfterBury(rest, gone, src);
      var y := BuryOne(x, gone, src);
      BuryCons(x, rest, gone, src);
      LiveCons(x, rest);
      LiveCons(y, BuryMany(rest, gone, src));
      BuriedIsTombstone(x, src);
      if Live(x) { SurvivorsCons(x, LiveOf(rest), gone); }
    }
  }

  lemma BuryCons(x: Placed, ps: seq<Placed>, gone: set<nat>, src: seq<byte>)
    ensures BuryMany([x] + ps, gone, src) == [BuryOne(x, gone, src)] + BuryMany(ps, gone, src)
  {
    hide BuryOne;
    var l, r := BuryMany([x] + ps, gone, src), [BuryOne(x, gone, src)] + BuryMany(ps, gone, src);
    forall k | 0 <= k < |l|
      ensures l[k] == r[k]
    {
      if k > 0 { assert ([x] + ps)[k] == ps[k - 1]; }
    }
  }

  lemma SurvivorsCons(x: Placed, ps: seq<Placed>, gone: set<nat>)
    ensures Survivors([x] + ps, gone) == if x.offset in gone then Survivors(ps, gone) else [x] + Survivors(ps, gone)
  {
    assert ([x] + ps)[1..] == ps;
  }

  /** Overwriting one more record of a file in which those at `gone` have been overwritten already. */
  lemma BuryOneMore(b: seq<byte>, ps: seq<Placed>, gone: set<nat>, k: nat, src: seq<byte>)
    requires Coverable(ps, src)
    requires Parse(b) == Ok(BuryMany(ps, gone, src)) && InOrder(ps, 0) && k < |ps| && ps[k].offset !in gone
    ensures ps[k].offset + HEADER <= |b|
    ensures Parse(Bury(b, ps[k].offset, Align4(|ps[k].raw|), src)) == Ok(BuryMany(ps, gone + {ps[k].offset}, src))
  {
    hide ParseFrom, Buried, Bury, Align4;
    var now := BuryMany(ps, gone, src);
    assert now[k] == ps[k];
    BuryLaw(b, 0, k, src);
    var after := BuryMany(ps, gone + {ps[k].offset}, src);
    var x := Placed(ps[k].offset, Buried(ps[k].raw, src));
    forall m | 0 <= m < |ps|
      ensures now[k := x][m] == after[m]
    {
      if m != k { DistinctOffsets(ps, m, k); }
    }
    assert now[k := x] == after;
  }

  lemma DistinctOffsets(ps: seq<Placed>, m: nat, k: nat)
    requires InOrder(ps, 0) && m < |ps| && k < |ps| && m != k
    requires Framed(ps[m]) && Framed(ps[k])
    ensures ps[m].offset != ps[k].offset
  {
    if m < k {
      assert ps[m].offset + Align4(|ps[m].raw|) <= ps[k].offset;
    } else {
      assert ps[k].offset + Align4(|ps[k].raw|) <= ps[m].offset;
    }
  }

  /** Each record starts where the padding of the one before it ends, the first at `i`. */
  lemma {:induction false} Consecutive(b: seq<byte>, i: nat, k: nat)
    requires ParseFrom(b, i).Ok? && k < |ParseFrom(b, i).records|
    ensures var ps := ParseFrom(b, i).records;
            ps[k].offset == if k == 0 then i else ps[k - 1].offset + Align4(|ps[k - 1].raw|)
    decreases |b| - i
  {
    hide ParseFrom, Align4;
    if i < |b| {
      ParseStep(b, i);
      var n := Check(b, i);
      var j := i + Align4(n);
      if k > 0 {
        Consecutive(b, j, k - 1);
      }
    } else {
      ParseEnd(b, i);
    }
  }
}
