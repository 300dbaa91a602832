/**
  File protection policy: `tcf_util_file_protect_policy_serialize`, `tcf_util_file_protect_policy_extract` and the length
  walk `get_file_protect_date_len` (`tcf_file_protect.c`).

  An item is two flag bytes, a 16-bit number of privileged processes and a zero-filled path field of 256 bytes, followed
  by the processes: a 32-bit type, a path field and a hash of 32 bytes each.
*/
module PolicyProtect {
  import opened Bytes
  import opened RecordLayout

  const PATH: nat := 256
  const HASH: nat := 32
  const ITEM: nat := 260
  const PROC: nat := 292
  const TWO16: nat := 0x1_0000
  const TWO31: nat := 0x8000_0000

  datatype Proc = Proc(privi: nat, path: seq<byte>, hash: seq<byte>)

  datatype Item = Item(flags: nat, kind: nat, path: seq<byte>, procs: seq<Proc>)

  /** A path as a fixed field, filled with zeros. */
  function Field(path: seq<byte>): (r: seq<byte>)
    ensures |r| == PATH
  {
    if |path| <= PATH then path + Zeros(PATH - |path|) else path[..PATH]
  }

  function Digest(hash: seq<byte>): (r: seq<byte>)
    ensures |r| == HASH
  {
    if |hash| >= HASH then hash[..HASH] else hash + Zeros(HASH - |hash|)
  }

  function ProcBytes(p: Proc): (r: seq<byte>)
    ensures |r| == PROC
  {
    Be32(p.privi) + Field(p.path) + Digest(p.hash)
  }

  function ProcsBytes(ps: seq<Proc>): (r: seq<byte>)
    ensures |r| == PROC * |ps|
  {
    if ps == [] then [] else ProcsBytes(ps[..|ps| - 1]) + ProcBytes(ps[|ps| - 1])
  }

  function HeadBytes(x: Item): (r: seq<byte>)
    ensures |r| == ITEM
  {
    [x.flags % 256, x.kind % 256] + Be16(|x.procs|) + Field(x.path)
  }

  function ItemBytes(x: Item): (r: seq<byte>)
    ensures |r| == ITEM + PROC * |x.procs|
  {
    HeadBytes(x) + ProcsBytes(x.procs)
  }

  // ----- What a reader finds -----

  /** The string that `strlen` and a copy find: everything up to the first NUL, even if that lies behind the field. */
  ghost predicate PathIn(mem: Mem, at: nat, path: seq<byte>) {
    NulFree(path) && Slice(mem, at, |path|) == path && mem(at + |path|) == 0
  }

  ghost predicate NulFrom(mem: Mem, at: nat) { exists k: nat :: at <= k && mem(k) == 0 }

  /** Every string ends somewhere, so that `strlen` does. */
  ghost predicate Terminated(mem: Mem) { forall at: nat :: NulFrom(mem, at) }

  ghost predicate ProcIn(mem: Mem, at: nat, p: Proc) {
    Word(mem, at) == p.privi && PathIn(mem, at + 4, p.path) && Slice(mem, at + ITEM, HASH) == p.hash
  }

  ghost predicate ProcsIn(mem: Mem, at: nat, ps: seq<Proc>) {
    forall j :: 0 <= j < |ps| ==> ProcIn(mem, at + PROC * j, ps[j])
  }

  ghost predicate ItemIn(mem: Mem, op: nat, x: Item) {
    && mem(op) == x.flags && mem(op + 1) == x.kind && Half(mem, op + 2) == |x.procs|
    && PathIn(mem, op + 4, x.path) && ProcsIn(mem, op + ITEM, x.procs)
  }

  /** Strings without their terminator, and whole hashes. */
  ghost predicate WellFormed(x: Item) {
    NulFree(x.path) && forall j :: 0 <= j < |x.procs| ==> ProcFormed(x.procs[j])
  }

  ghost predicate ProcFormed(p: Proc) { NulFree(p.path) && |p.hash| == HASH && p.privi < 0x1_0000_0000 }

  predicate PathsFit(x: Item) {
    |x.path| < PATH && forall j :: 0 <= j < |x.procs| ==> |x.procs[j].path| < PATH
  }

  predicate Fits(x: Item) { x.flags < 256 && x.kind < 256 && |x.procs| < TWO16 }

  /** What is left of an item when its fields are cut to their widths. */
  function Cut(x: Item): Item {
    ModLe(|x.procs|);
    Item(x.flags % 256, x.kind % 256, x.path, x.procs[..|x.procs| % TWO16])
  }

  lemma ModLe(n: nat)
    ensures n % TWO16 <= n && (n % TWO16 == n <==> n < TWO16)
  {
  }

  // ----- Serializing -----

  method WriteProc(buf: array<byte>, at: nat, p: Proc) returns (ok: bool)
    requires at + PROC <= buf.Length && |p.hash| == HASH
    modifies buf
    ensures ok == (|p.path| < PATH)
    ensures ok ==> Seg(buf[..], at, ProcBytes(p))
    ensures KeepsBelow(old(buf[..]), buf[..], at)
  {
    hide Seg, Over, Be32, Field, Digest, ProcBytes;
    Put(buf, at, Be32(p.privi));
    if |p.path| + 1 > PATH {
      return false;
    }
    Put(buf, at + 4, Field(p.path));
    Put(buf, at + 4 + PATH, Digest(p.hash));
    ok := true;
    JoinProc(buf[..], at, p);
  }

  lemma JoinProc(b: seq<byte>, at: nat, p: Proc)
    requires Seg(b, at, Be32(p.privi)) && Seg(b, at + 4, Field(p.path)) && Seg(b, at + ITEM, Digest(p.hash))
    ensures Seg(b, at, ProcBytes(p))
  {
    hide Seg, Be32, Field, Digest;
    SegJoin(b, at, Be32(p.privi), Field(p.path));
    SegJoin(b, at, Be32(p.privi) + Field(p.path), Digest(p.hash));
  }

  lemma ProcsNext(ps: seq<Proc>, j: nat)
    requires j < |ps|
    ensures ProcsBytes(ps[..j + 1]) == ProcsBytes(ps[..j]) + ProcBytes(ps[j])
  {
    hide ProcBytes;
    assert ps[..j + 1][..j] == ps[..j];
  }

  lemma NoProcs(b: seq<byte>, at: nat, ps: seq<Proc>)
    requires at <= |b|
    ensures Seg(b, at, ProcsBytes(ps[..0])) && KeepsBelow(b, b, at)
  {
    assert ps[..0] == [];
  }

  method WriteProcs(buf: array<byte>, at: nat, ps: seq<Proc>) returns (ok: bool, opt: nat)
    requires at + PROC * |ps| <= buf.Length && forall j :: 0 <= j < |ps| ==> |ps[j].hash| == HASH
    modifies buf
    ensures ok == forall j :: 0 <= j < |ps| ==> |ps[j].path| < PATH
    ensures ok ==> opt == PROC * |ps| && Seg(buf[..], at, ProcsBytes(ps))
    ensures KeepsBelow(old(buf[..]), buf[..], at)
  {
    hide Seg, KeepsBelow, ProcsBytes, ProcBytes;
    opt := 0;
    var j := 0;
    NoProcs(buf[..], at, ps);
    while j < |ps|
      invariant 0 <= j <= |ps| && opt == PROC * j
      invariant forall k :: 0 <= k < j ==> |ps[k].path| < PATH
      invariant Seg(buf[..], at, ProcsBytes(ps[..j])) && KeepsBelow(old(buf[..]), buf[..], at)
    {
      ghost var before := buf[..];
      ok := WriteProc(buf, at + opt, ps[j]);
      KeepsTwice(old(buf[..]), before, buf[..], at, at + opt);
      if !ok {
        return;
      }
      Kept(before, buf[..], at + opt, at, ProcsBytes(ps[..j]));
      SegJoin(buf[..], at, ProcsBytes(ps[..j]), ProcBytes(ps[j]));
      ProcsNext(ps, j);
      opt := opt + PROC;
      j := j + 1;
    }
    assert ps[..j] == ps;
    ok := true;
  }

  method WriteItem(buf: array<byte>, op: nat, x: Item) returns (ok: bool, size: nat)
    requires op + |ItemBytes(x)| <= buf.Length && forall j :: 0 <= j < |x.procs| ==> |x.procs[j].hash| == HASH
    modifies buf
    ensures ok == PathsFit(x)
    ensures ok ==> size == |ItemBytes(x)| && Seg(buf[..], op, ItemBytes(x)) && KeepsBelow(old(buf[..]), buf[..], op)
  {
    hide Seg, Over, Be16, Field, ProcsBytes, HeadBytes, ItemBytes;
    size := 0;
    Put(buf, op, [x.flags % 256, x.kind % 256]);
    Put(buf, op + 2, Be16(|x.procs|));
    if |x.path| + 1 > PATH {
      return false, size;
    }
    Put(buf, op + 4, Field(x.path));
    var opt;
    ok, opt := WriteProcs(buf, op + ITEM, x.procs);
    size := ITEM + opt;
    if ok {
      JoinItem(buf[..], op, x);
    }
  }

  lemma JoinItem(b: seq<byte>, op: nat, x: Item)
    requires Seg(b, op, [x.flags % 256, x.kind % 256]) && Seg(b, op + 2, Be16(|x.procs|)) && Seg(b, op + 4, Field(x.path))
    requires Seg(b, op + ITEM, ProcsBytes(x.procs))
    ensures Seg(b, op, ItemBytes(x))
  {
    hide Seg, Be16, Field, ProcsBytes;
    var first := [x.flags % 256, x.kind % 256];
    SegJoin(b, op, first, Be16(|x.procs|));
    SegJoin(b, op, first + Be16(|x.procs|), Field(x.path));
    SegJoin(b, op, HeadBytes(x), ProcsBytes(x.procs));
  }

  method Measure(items: seq<Item>) returns (len: nat)
    ensures len == End(ItemBytes, items)
  {
    hide ItemBytes;
    len := 0;
    var i := 0;
    while i < |items|
      invariant 0 <= i <= |items| && len == End(ItemBytes, items[..i])
    {
      EndAligned(ItemBytes, items[..i]);
      EndNext(ItemBytes, items, i);
      Align4Add(len, ITEM + |items[i].procs| * PROC);
      len := Align4(len + ITEM + |items[i].procs| * PROC);
      i := i + 1;
    }
    assert items[..i] == items;
  }

  ghost predicate AllFormed(items: seq<Item>) { forall i :: 0 <= i < |items| ==> WellFormed(items[i]) }

  predicate AllPathsFit(items: seq<Item>) { forall i :: 0 <= i < |items| ==> PathsFit(items[i]) }

  /** `tcf_util_file_protect_policy_serialize`: refuses paths of more than 255 bytes; the length computed beforehand is
      the offset behind the last item. */
  method Serialize(items: seq<Item>) returns (ok: bool, buf: array<byte>)
    requires AllFormed(items) && End(ItemBytes, items) < TWO31
    ensures fresh(buf)
    ensures ok == AllPathsFit(items)
    ensures ok ==> Encoded(ItemBytes, buf[..], items)
  {
    hide ItemBytes, AllPathsFit, AllFormed, End;
    var bufLen := Measure(items);
    buf := new byte[bufLen];
    ok := WriteAll(buf, items);
  }

  /** The writing loop. */
  method WriteAll(buf: array<byte>, items: seq<Item>) returns (ok: bool)
    requires AllFormed(items) && End(ItemBytes, items) == buf.Length
    modifies buf
    ensures ok == AllPathsFit(items)
    ensures ok ==> Encoded(ItemBytes, buf[..], items)
  {
    hide ItemBytes, PathsFit, WellFormed, Encoded, End;
    var op := 0;
    var i := 0;
    NothingEncoded(ItemBytes, buf[..], items);
    assert buf[..][..0] == buf[..0];
    while i < |items|
      invariant 0 <= i <= |items| && op == End(ItemBytes, items[..i]) <= buf.Length
      invariant Encoded(ItemBytes, buf[..op], items[..i])
      invariant forall k :: 0 <= k < i ==> PathsFit(items[k])
    {
      ok, op := WriteNext(buf, op, items, i);
      if !ok {
        return;
      }
      i := i + 1;
    }
    assert items[..i] == items && buf[..op] == buf[..];
    ok := true;
  }

  /** One turn of the writing loop. */
  method WriteNext(buf: array<byte>, op: nat, items: seq<Item>, i: nat) returns (ok: bool, op': nat)
    requires i < |items| && WellFormed(items[i]) && End(ItemBytes, items) == buf.Length
    requires op == End(ItemBytes, items[..i]) <= buf.Length && Encoded(ItemBytes, buf[..op], items[..i])
    modifies buf
    ensures ok == PathsFit(items[i])
    ensures ok ==> op' == End(ItemBytes, items[..i + 1]) <= buf.Length && Encoded(ItemBytes, buf[..op'], items[..i + 1])
  {
    hide ItemBytes, PathsFit, Seg, Encoded, End, KeepsBelow;
    EndNext(ItemBytes, items, i);
    EndPrefix(ItemBytes, items, i + 1);
    ghost var was := buf[..];
    ghost var before := buf[..op];
    SegPrefix(was, op);
    assert was[..op] == before;
    var size;
    op' := op;
    ok, size := WriteItem(buf, op, items[i]);
    if ok {
      Kept(was, buf[..], op, 0, before);
      EncodedStep(ItemBytes, buf[..], before, items, i);
      op' := op + Align4(size);
      assert buf[..][..op'] == buf[..op'];
    }
  }

  // ----- Extracting -----

  /** `strlen`, and the copy that follows it. */
  method ReadPath(mem: Mem, at: nat) returns (path: seq<byte>)
    requires Terminated(mem)
    ensures PathIn(mem, at, path)
  {
    assert NulFrom(mem, at);
    ghost var end: nat :| at <= end && mem(end) == 0;
    var n := 0;
    while mem(at + n) != 0
      invariant 0 <= n && at + n <= end
      invariant NulFree(Slice(mem, at, n))
      decreases end - at - n
    {
      SliceJoin(mem, at, n, 1);
      n := n + 1;
    }
    path := Slice(mem, at, n);
  }

  lemma PathUnique(mem: Mem, at: nat, p: seq<byte>, q: seq<byte>)
    requires PathIn(mem, at, p) && PathIn(mem, at, q)
    ensures p == q
  {
    hide PathIn;
    PathEnd(mem, at, p);
    PathEnd(mem, at, q);
    if |p| < |q| {
      PathChar(mem, at, q, |p|);
    } else if |q| < |p| {
      PathChar(mem, at, p, |q|);
    }
  }

  lemma PathEnd(mem: Mem, at: nat, p: seq<byte>)
    requires PathIn(mem, at, p)
    ensures mem(at + |p|) == 0 && Slice(mem, at, |p|) == p
  {
  }

  lemma PathChar(mem: Mem, at: nat, p: seq<byte>, k: nat)
    requires PathIn(mem, at, p) && k < |p|
    ensures mem(at + k) != 0
  {
    assert Slice(mem, at, |p|)[k] == p[k];
  }

  lemma ProcUnique(mem: Mem, at: nat, p: Proc, q: Proc)
    requires ProcIn(mem, at, p) && ProcIn(mem, at, q)
    ensures p == q
  {
    hide PathIn, Word;
    PathUnique(mem, at + 4, p.path, q.path);
  }

  /** Memory holds one item at an offset, not two. */
  lemma ItemUnique(mem: Mem, op: nat, x: Item, y: Item)
    requires ItemIn(mem, op, x) && ItemIn(mem, op, y)
    ensures x == y
  {
    hide PathIn, Half, ProcIn;
    PathUnique(mem, op + 4, x.path, y.path);
    forall j | 0 <= j < |x.procs|
      ensures x.procs[j] == y.procs[j]
    {
      ProcUnique(mem, op + ITEM + PROC * j, x.procs[j], y.procs[j]);
    }
  }

  method ExtractProc(mem: Mem, at: nat) returns (p: Proc)
    requires Terminated(mem)
    ensures ProcIn(mem, at, p)
  {
    hide Terminated;
    var path := ReadPath(mem, at + 4);
    p := Proc(Word(mem, at), path, Slice(mem, at + ITEM, HASH));
  }

  method ExtractItem(mem: Mem, op: nat) returns (x: Item)
    requires Terminated(mem)
    ensures ItemIn(mem, op, x)
  {
    hide Word, Half, PathIn, ProcIn, Terminated;
    var path := ReadPath(mem, op + 4);
    var num := Half(mem, op + 2);
    var procs: seq<Proc> := [];
    var opt := 0;
    while |procs| < num
      invariant |procs| <= num && opt == PROC * |procs| && ProcsIn(mem, op + ITEM, procs)
    {
      var p := ExtractProc(mem, op + ITEM + opt);
      procs := procs + [p];
      opt := opt + PROC;
    }
    x := Item(mem(op), mem(op + 1), path, procs);
  }

  lemma Whole(n: nat)
    ensures Align4(ITEM + PROC * n) == ITEM + PROC * n
  {
  }

  /** `tcf_util_file_protect_policy_extract`: succeeds with `want` if and only if memory holds exactly `want`, within the
      length given. */
  method Extract(mem: Mem, length: nat, num: nat, ghost want: seq<Item>) returns (r: Result<seq<Item>>)
    requires Terminated(mem)
    ensures |want| == num && Laid(ItemBytes, ItemIn, mem, want) && End(ItemBytes, want) <= length ==> r == Ok(want)
    ensures r.Ok? ==> |r.value| == num && Laid(ItemBytes, ItemIn, mem, r.value) && End(ItemBytes, r.value) <= length
    ensures r.Err? ==> r.error == OutputExceed
  {
    hide ItemBytes, ItemIn, End, Laid, Terminated, Align4;
    ghost var good := |want| == num && Laid(ItemBytes, ItemIn, mem, want) && End(ItemBytes, want) <= length;
    var items: seq<Item> := [];
    var op := 0;
    var i := 0;
    NoItems(mem, want);
    while i < num
      invariant 0 <= i <= num && |items| == i && op == End(ItemBytes, items) && Laid(ItemBytes, ItemIn, mem, items)
      invariant op <= length || i == 0
      invariant good ==> items == want[..i]
    {
      var x := ExtractItem(mem, op);
      if good {
        SameNext(mem, want, i, x);
      }
      OneMore(mem, items, x);
      items := items + [x];
      op := Align4(op + ITEM + PROC * |x.procs|);
      if op > length {
        return Err(OutputExceed);
      }
      i := i + 1;
    }
    assert good ==> want[..num] == want;
    r := Ok(items);
  }

  lemma NoItems(mem: Mem, want: seq<Item>)
    ensures want[..0] == [] && End(ItemBytes, []) == 0 && Laid(ItemBytes, ItemIn, mem, [])
  {
  }

  /** The item found where `want[i]` stands is that item. */
  lemma SameNext(mem: Mem, want: seq<Item>, i: nat, x: Item)
    requires i < |want| && Laid(ItemBytes, ItemIn, mem, want) && ItemIn(mem, End(ItemBytes, want[..i]), x)
    ensures x == want[i] && want[..i + 1] == want[..i] + [x] && End(ItemBytes, want[..i + 1]) <= End(ItemBytes, want)
  {
    hide ItemBytes, ItemIn, End, Laid;
    LaidPrefix(ItemBytes, ItemIn, mem, want, i);
    ItemUnique(mem, End(ItemBytes, want[..i]), x, want[i]);
    EndPrefix(ItemBytes, want, i + 1);
  }

  lemma OneMore(mem: Mem, items: seq<Item>, x: Item)
    requires Laid(ItemBytes, ItemIn, mem, items) && ItemIn(mem, End(ItemBytes, items), x)
    ensures Laid(ItemBytes, ItemIn, mem, items + [x])
    ensures End(ItemBytes, items + [x]) == Align4(End(ItemBytes, items) + ITEM + PROC * |x.procs|)
  {
    hide ItemBytes, ItemIn, End, Laid;
    LaidNext(ItemBytes, ItemIn, mem, items, x);
    EndAligned(ItemBytes, items);
    Align4Add(End(ItemBytes, items), ITEM + PROC * |x.procs|);
  }

  /** The one field of an item that the length walk reads. */
  ghost predicate CountIn(mem: Mem, op: nat, x: Item) { Half(mem, op + 2) == |x.procs| }

  /** `get_file_protect_date_len`: the walk ends behind any items whose numbers of processes memory holds. */
  method DataLength(mem: Mem, num: nat, ghost want: seq<Item>) returns (len: nat)
    ensures |want| == num && Laid(ItemBytes, CountIn, mem, want) ==> len == End(ItemBytes, want)
  {
    hide ItemBytes, End, Laid, Half, CountIn;
    ghost var good := |want| == num && Laid(ItemBytes, CountIn, mem, want);
    len := 0;
    var i := 0;
    NoItems(mem, want);
    while i < num
      invariant 0 <= i <= num && (good ==> len == End(ItemBytes, want[..i]))
    {
      if good {
        NextCount(mem, want, i);
      }
      len := len + ITEM + Half(mem, len + 2) * PROC;
      i := i + 1;
    }
    assert good ==> want[..num] == want;
  }

  lemma NextCount(mem: Mem, want: seq<Item>, i: nat)
    requires i < |want| && Laid(ItemBytes, CountIn, mem, want)
    ensures var e := End(ItemBytes, want[..i]); End(ItemBytes, want[..i + 1]) == e + ITEM + Half(mem, e + 2) * PROC
  {
    hide ItemBytes, End, Laid, Half, Align4;
    LaidPrefix(ItemBytes, CountIn, mem, want, i);
    EndNext(ItemBytes, want, i);
    Whole(|want[i].procs|);
  }

  lemma {:induction false} CountsLaid(mem: Mem, xs: seq<Item>)
    requires Laid(ItemBytes, ItemIn, mem, xs)
    ensures Laid(ItemBytes, CountIn, mem, xs)
    decreases |xs|
  {
    hide ItemBytes, PathIn, ProcsIn, Half;
    if xs != [] {
      CountsLaid(mem, xs[..|xs| - 1]);
    }
  }

  // ----- Round trip -----

  lemma FieldIn(mem: Mem, at: nat, path: seq<byte>)
    requires Slice(mem, at, PATH) == Field(path) && NulFree(path) && |path| < PATH
    ensures PathIn(mem, at, path)
  {
    SlicePart(mem, at, PATH, 0, |path|);
    assert mem(at + |path|) == Slice(mem, at, PATH)[|path|];
  }

  lemma ProcBytesIn(mem: Mem, at: nat, p: Proc)
    requires Slice(mem, at, PROC) == ProcBytes(p) && ProcFormed(p) && |p.path| < PATH
    ensures ProcIn(mem, at, p)
  {
    hide Word, Be32, Field;
    SliceSplit(mem, at, Be32(p.privi) + Field(p.path), Digest(p.hash));
    SliceSplit(mem, at, Be32(p.privi), Field(p.path));
    WordBe32(mem, at, p.privi);
    FieldIn(mem, at + 4, p.path);
    assert Digest(p.hash) == p.hash;
  }

  lemma {:induction false} ProcsBytesIn(mem: Mem, at: nat, ps: seq<Proc>)
    requires Slice(mem, at, PROC * |ps|) == ProcsBytes(ps)
    requires forall j :: 0 <= j < |ps| ==> ProcFormed(ps[j]) && |ps[j].path| < PATH
    ensures ProcsIn(mem, at, ps)
    decreases |ps|
  {
    hide ProcBytes, ProcIn, ProcFormed;
    if ps != [] {
      var front, last := ps[..|ps| - 1], ps[|ps| - 1];
      SliceSplit(mem, at, ProcsBytes(front), ProcBytes(last));
      ProcsBytesIn(mem, at, front);
      ProcBytesIn(mem, at + PROC * |front|, last);
    }
  }

  /** The reader finds the item, cut to the widths of its fields. */
  lemma BytesIn(mem: Mem, op: nat, x: Item)
    requires Slice(mem, op, |ItemBytes(x)|) == ItemBytes(x) && WellFormed(x) && PathsFit(x)
    ensures ItemIn(mem, op, Cut(x))
  {
    hide Half, Be16, Field, ProcsBytes, ProcIn, PathIn, ProcFormed;
    var first := [x.flags % 256, x.kind % 256];
    SliceSplit(mem, op, HeadBytes(x), ProcsBytes(x.procs));
    SliceSplit(mem, op, first + Be16(|x.procs|), Field(x.path));
    SliceSplit(mem, op, first, Be16(|x.procs|));
    assert mem(op) == Slice(mem, op, 2)[0] && mem(op + 1) == Slice(mem, op, 2)[1];
    HalfBe16(mem, op + 2, |x.procs|);
    FieldIn(mem, op + 4, x.path);
    ProcsBytesIn(mem, op + ITEM, x.procs);
  }

  lemma CutFits(x: Item)
    ensures Cut(x) == x <==> Fits(x)
  {
    ModLe(|x.procs|);
    if Fits(x) {
      assert x.procs[..|x.procs|] == x.procs;
    }
  }

  predicate AllFit(items: seq<Item>) { forall i :: 0 <= i < |items| ==> Fits(items[i]) }

  predicate CountsFit(items: seq<Item>) { forall i :: 0 <= i < |items| ==> |items[i].procs| < TWO16 }

  function Cuts(items: seq<Item>): (r: seq<Item>)
    ensures |r| == |items| && forall i :: 0 <= i < |items| ==> r[i] == Cut(items[i])
  {
    seq(|items|, i requires 0 <= i < |items| => Cut(items[i]))
  }

  /** What a reader finds of items whose numbers of processes fit. */
  lemma {:induction false} CutsLaid(mem: Mem, b: seq<byte>, items: seq<Item>)
    requires AllFormed(items) && AllPathsFit(items) && CountsFit(items)
    requires Encoded(ItemBytes, b, items) && Starts(mem, b)
    ensures Laid(ItemBytes, ItemIn, mem, Cuts(items)) && End(ItemBytes, Cuts(items)) == End(ItemBytes, items)
    decreases |items|
  {
    hide ItemBytes, ItemIn, PathsFit, WellFormed, Cut;
    if items != [] {
      var n := |items| - 1;
      var front, last := items[..n], items[n];
      var e := End(ItemBytes, front);
      SlicePart(mem, 0, |b|, 0, e);
      CutsLaid(mem, b[..e], front);
      assert Cuts(items)[..n] == Cuts(front);
      SlicePart(mem, 0, |b|, e, |ItemBytes(last)|);
      BytesIn(mem, e, last);
      CutSize(last);
    }
  }

  /** Extracting what was serialized gives the items back if and only if all fields fit their widths. As long as the numbers
      of processes do, what comes back are the items with their flags and types cut to a byte, and the length walk agrees with
      the length computed when writing. */
  method RoundTrip(items: seq<Item>, beyond: Mem) returns (r: Result<seq<Item>>, len: nat)
    requires AllFormed(items) && AllPathsFit(items) && End(ItemBytes, items) < TWO31 && Terminated(beyond)
    ensures r == Ok(items) <==> AllFit(items)
    ensures CountsFit(items) ==> r == Ok(Cuts(items)) && len == End(ItemBytes, items)
  {
    hide ItemBytes, ItemIn, PathsFit, WellFormed, Encoded, End, Laid, Cuts, Terminated;
    var ok, buf := Serialize(items);
    var b := buf[..];
    var mem: Mem := (i: nat) => if i < |b| then b[i] else beyond(i);
    assert Starts(mem, b);
    StillTerminated(mem, b, beyond);
    EncodedLength(b, items);
    if CountsFit(items) {
      CutsLaid(mem, b, items);
      CountsLaid(mem, Cuts(items));
    }
    r := Extract(mem, |b|, |items|, Cuts(items));
    len := DataLength(mem, |items|, Cuts(items));
    if r == Ok(items) {
      forall i | 0 <= i < |items|
        ensures Fits(items[i])
      {
        LaidPrefix(ItemBytes, ItemIn, mem, items, i);
        NarrowFields(mem, End(ItemBytes, items[..i]), items[i]);
      }
    }
    if AllFit(items) {
      CutsFit(items);
    }
  }

  lemma StillTerminated(mem: Mem, b: seq<byte>, beyond: Mem)
    requires Terminated(beyond) && forall i: nat :: i >= |b| ==> mem(i) == beyond(i)
    ensures Terminated(mem)
  {
    forall at: nat
      ensures NulFrom(mem, at)
    {
      assert NulFrom(beyond, at + |b|);
      var k: nat :| at + |b| <= k && beyond(k) == 0;
      assert mem(k) == 0;
    }
  }

  lemma EncodedLength(b: seq<byte>, items: seq<Item>)
    requires Encoded(ItemBytes, b, items)
    ensures |b| == End(ItemBytes, items)
  {
  }

  lemma NarrowFields(mem: Mem, op: nat, x: Item)
    requires ItemIn(mem, op, x)
    ensures Fits(x)
  {
    hide PathIn, ProcsIn;
  }

  lemma CutsFit(items: seq<Item>)
    requires AllFit(items)
    ensures Cuts(items) == items
  {
    forall i | 0 <= i < |items|
      ensures Cut(items[i]) == items[i]
    {
      CutFits(items[i]);
    }
  }

  /** Bit 8 of the flags is accepted and lost. */
  lemma FlagLost()
    ensures var x := Item(256, 0, [], []);
            WellFormed(x) && PathsFit(x) && !Fits(x) && Cut(x) == Item(0, 0, [], [])
  {
  }

  /** For a single item the length walk agrees with the length computed when writing if and only if the number of processes
      fits 16 bits; whatever the number, what comes back is the item cut to its fields. */
  method RoundTripOne(x: Item, beyond: Mem) returns (r: Result<seq<Item>>, len: nat)
    requires WellFormed(x) && PathsFit(x) && |ItemBytes(x)| < TWO31 - 4 && Terminated(beyond)
    ensures r == Ok([Cut(x)])
    ensures len == |ItemBytes(x)| <==> |x.procs| < TWO16
  {
    hide ItemBytes, ItemIn, PathsFit, WellFormed, Fits, Cut, Terminated;
    CutSize(x);
    EndOne(x);
    EndOne(Cut(x));
    var ok, buf := Serialize([x]);
    var b := buf[..];
    var mem: Mem := (i: nat) => if i < |b| then b[i] else beyond(i);
    assert Starts(mem, b);
    StillTerminated(mem, b, beyond);
    EncodedOne(mem, b, x);
    BytesIn(mem, 0, x);
    LaidNext(ItemBytes, ItemIn, mem, [], Cut(x));
    assert [] + [Cut(x)] == [Cut(x)];
    CountsLaid(mem, [Cut(x)]);
    r := Extract(mem, |b|, 1, [Cut(x)]);
    len := DataLength(mem, 1, [Cut(x)]);
  }

  lemma CutSize(x: Item)
    ensures |ItemBytes(Cut(x))| <= |ItemBytes(x)| && (|ItemBytes(Cut(x))| == |ItemBytes(x)| <==> |x.procs| < TWO16)
    ensures Align4(|ItemBytes(x)|) == |ItemBytes(x)| && Align4(|ItemBytes(Cut(x))|) == |ItemBytes(Cut(x))|
  {
    hide ItemBytes, Align4;
    ModLe(|x.procs|);
    Whole(|x.procs|);
    Whole(|Cut(x).procs|);
  }

  lemma EndOne(x: Item)
    ensures End(ItemBytes, [x]) == Align4(|ItemBytes(x)|)
  {
    hide ItemBytes;
    assert [x][..0] == [];
  }

  lemma EncodedOne(mem: Mem, b: seq<byte>, x: Item)
    requires Encoded(ItemBytes, b, [x]) && Starts(mem, b)
    ensures |b| == End(ItemBytes, [x]) && Slice(mem, 0, |ItemBytes(x)|) == ItemBytes(x)
  {
    hide ItemBytes;
    assert [x][..0] == [];
    SlicePart(mem, 0, |b|, 0, |ItemBytes(x)|);
  }
}
