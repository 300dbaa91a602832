/**
  Preparing an update: `tcf_prepare_update_file_integrity` packs the administrator's items into records, which
  `buffer_to_item_array` later takes apart again.
*/
module IntegrityPrepare {
  import opened Bytes
  import opened Lists
  import opened RecordLayout
  import File = IntegrityFile
  import IntegrityIndex
  import IntegrityRuns

  const HASH: nat := 32
  const MAX_PATH: nat := 4096

  /** An item as the administrator fills it in; `None` is a null pointer. */
  datatype Item = Item(hash: Option<seq<byte>>, hashLength: nat, extend: Option<seq<byte>>, extendSize: nat,
                       path: Option<seq<byte>>, pathLength: nat, isEnable: int, isControl: int, isFullPath: int)

  /** Buffers are as long as their length fields say. */
  predicate Complete(x: Item) {
    && (x.hash.Some? ==> |x.hash.value| == x.hashLength)
    && (x.extend.Some? ==> |x.extend.value| == x.extendSize)
    && (x.path.Some? ==> |x.path.value| == x.pathLength)
  }

  predicate IsBool(v: int) { v == 0 || v == 1 }

  /** The checks of the packing loop. */
  predicate Legal(x: Item) {
    && x.hash.Some?
    && (x.extend.Some? ==> 0 < x.extendSize < 255)
    && x.hashLength == HASH
    && (x.path.Some? ==> (x.isFullPath != 0 || x.pathLength == HASH) && x.pathLength <= MAX_PATH)
    && IsBool(x.isEnable) && IsBool(x.isControl) && IsBool(x.isFullPath)
  }

  function Given(o: Option<seq<byte>>): seq<byte> { if o.Some? then o.value else [] }

  function Flags(x: Item): byte {
    (if x.isEnable != 0 then 1 else 0) + (if x.isControl != 0 then 2 else 0) + (if x.isFullPath != 0 then 4 else 0)
  }

  function Header(x: Item): (r: seq<byte>)
    ensures |r| == 4
  {
    [Flags(x), x.extendSize % 256] + Be16(x.pathLength)
  }

  function Payload(x: Item): seq<byte> { Given(x.hash) + Given(x.extend) + Given(x.path) }

  function ItemBytes(x: Item): seq<byte> { Header(x) + Payload(x) }

  /** A size is given only together with its buffer. */
  predicate Consistent(x: Item) {
    (x.extend.None? ==> x.extendSize % 256 == 0) && (x.path.None? ==> x.pathLength % 0x1_0000 == 0)
  }

  // ----- Packing -----

  predicate AllLegal(items: seq<Item>) { forall i :: 0 <= i < |items| ==> Legal(items[i]) }

  predicate AllComplete(items: seq<Item>) { forall i :: 0 <= i < |items| ==> Complete(items[i]) }

  predicate AllConsistent(items: seq<Item>) { forall i :: 0 <= i < |items| ==> Consistent(items[i]) }

  /** The data part of `tcf_prepare_update_file_integrity`; the buffer is large enough for the longest records, and
      the result is its used part. */
  method Prepare(items: seq<Item>) returns (ok: bool, data: seq<byte>)
    requires AllComplete(items)
    ensures ok == AllLegal(items)
    ensures ok ==> Encoded(ItemBytes, data, items)
  {
    hide ItemBytes, Legal, Complete, Encoded, End;
    data := [];
    var buf := new byte[(4 + HASH + 256 + MAX_PATH) * |items|];
    var pos := 0;
    var i := 0;
    NothingEncoded(ItemBytes, buf[..], items);
    assert buf[..][..0] == buf[..0];
    while i < |items|
      invariant 0 <= i <= |items| && pos == End(ItemBytes, items[..i]) <= (4 + HASH + 256 + MAX_PATH) * i
      invariant forall k :: 0 <= k < i ==> Legal(items[k])
      invariant Encoded(ItemBytes, buf[..pos], items[..i])
    {
      if !Legal(items[i]) {
        return false, data;
      }
      Room(i, |items|);
      pos := WriteNext(buf, pos, items, i);
      i := i + 1;
    }
    assert items[..i] == items;
    return true, buf[..pos];
  }

  lemma Room(i: nat, n: nat)
    requires i < n
    ensures (4 + HASH + 256 + MAX_PATH) * i + (4 + HASH + 256 + MAX_PATH) <= (4 + HASH + 256 + MAX_PATH) * n
  {
  }

  method WriteNext(buf: array<byte>, pos: nat, items: seq<Item>, i: nat) returns (pos': nat)
    requires i < |items| && Legal(items[i]) && Complete(items[i]) && pos + 4 + HASH + 256 + MAX_PATH <= buf.Length
    requires pos == End(ItemBytes, items[..i]) && Encoded(ItemBytes, buf[..pos], items[..i])
    modifies buf
    ensures pos' == End(ItemBytes, items[..i + 1]) <= pos + 4 + HASH + 256 + MAX_PATH
    ensures Encoded(ItemBytes, buf[..pos'], items[..i + 1])
  {
    hide ItemBytes, Seg, Encoded, End, KeepsBelow;
    ghost var was := buf[..];
    ghost var before := buf[..pos];
    SegPrefix(was, pos);
    assert was[..pos] == before;
    var dataLen := WriteItem(buf, pos, items[i]);
    Kept(was, buf[..], pos, 0, before);
    ItemSize(items[i]);
    Align4Add(4, dataLen);
    EncodedStep(ItemBytes, buf[..], before, items, i);
    pos' := pos + 4 + Align4(dataLen);
    assert buf[..][..pos'] == buf[..pos'];
  }

  lemma ItemSize(x: Item)
    ensures |ItemBytes(x)| == 4 + |Payload(x)|
    ensures Legal(x) && Complete(x) ==> Align4(|ItemBytes(x)|) <= 4 + HASH + 256 + MAX_PATH
  {
  }

  method WriteItem(buf: array<byte>, pos: nat, x: Item) returns (dataLen: nat)
    requires Legal(x) && Complete(x) && pos + 4 + HASH + 256 + MAX_PATH <= buf.Length
    modifies buf
    ensures dataLen == |Payload(x)| && Seg(buf[..], pos, ItemBytes(x))
    ensures KeepsBelow(old(buf[..]), buf[..], pos)
  {
    hide Seg, Over, Be16, Flags, KeepsBelow;
    PutHeader(buf, pos, x);
    ghost var b := buf[..];
    PutPart(buf, pos + 4, x.hash, pos, Header(x));
    KeepsTwice(old(buf[..]), b, buf[..], pos, pos);
    dataLen := x.hashLength;
    ghost var done := Header(x) + Given(x.hash);
    b := buf[..];
    PutPart(buf, pos + 4 + dataLen, x.extend, pos, done);
    KeepsTwice(old(buf[..]), b, buf[..], pos, pos);
    if x.extend.Some? {
      dataLen := dataLen + x.extendSize;
    }
    done := done + Given(x.extend);
    b := buf[..];
    PutPart(buf, pos + 4 + dataLen, x.path, pos, done);
    KeepsTwice(old(buf[..]), b, buf[..], pos, pos);
    if x.path.Some? {
      dataLen := dataLen + x.pathLength;
    }
    assert ItemBytes(x) == done + Given(x.path);
  }

  method PutHeader(buf: array<byte>, pos: nat, x: Item)
    requires pos + 4 <= buf.Length
    modifies buf
    ensures Seg(buf[..], pos, Header(x)) && KeepsBelow(old(buf[..]), buf[..], pos)
  {
    hide Seg, Over, Be16, Flags;
    Put(buf, pos, [Flags(x), x.extendSize % 256]);
    Put(buf, pos + 2, Be16(x.pathLength));
    SegJoin(buf[..], pos, [Flags(x), x.extendSize % 256], Be16(x.pathLength));
  }

  /** The next part of a record, behind what is `done`, if its pointer is not null. */
  method PutPart(buf: array<byte>, at: nat, o: Option<seq<byte>>, ghost pos: nat, ghost done: seq<byte>)
    requires Seg(buf[..], pos, done) && at == pos + |done| && at + |Given(o)| <= buf.Length
    modifies buf
    ensures Seg(buf[..], pos, done + Given(o)) && KeepsBelow(old(buf[..]), buf[..], pos)
  {
    hide Seg, Over;
    if o.Some? {
      Put(buf, at, o.value);
      SegJoin(buf[..], pos, done, o.value);
    } else {
      assert done + Given(o) == done;
    }
  }

  // ----- What the parser makes of it -----

  ghost function Records(items: seq<Item>, i: nat): (ps: seq<File.Placed>)
    requires i <= |items|
    ensures |ps| == |items| - i
    decreases |items| - i
  {
    if i == |items| then [] else [File.Placed(End(ItemBytes, items[..i]), ItemBytes(items[i]))] + Records(items, i + 1)
  }

  /** The size a record claims is its size exactly when the item is consistent. */
  lemma ClaimedSize(x: Item)
    requires Legal(x) && Complete(x)
    ensures |ItemBytes(x)| >= File.HEADER + File.HASH
    ensures File.RecordSize(ItemBytes(x), 0) == |ItemBytes(x)| <==> Consistent(x)
  {
    var b := ItemBytes(x);
    assert b[0] == Header(x)[0] && b[1] == Header(x)[1] && b[2] == Header(x)[2] && b[3] == Header(x)[3];
    TwoBytes(x.pathLength);
  }

  /** Reading a record where the rest of the code looks for its parts gives the item. */
  predicate Carries(raw: seq<byte>, x: Item) {
    && |raw| >= File.HEADER + File.HASH && File.RecordSize(raw, 0) == |raw|
    && Some(File.HashOf(raw)) == x.hash
    && ExtensionOf(raw) == Given(x.extend)
    && IntegrityIndex.PathOf(raw) == Given(x.path)
    && (Bit(raw[0], 0) <==> x.isEnable != 0)
    && (Bit(raw[0], 1) <==> x.isControl != 0)
    && (Bit(raw[0], 2) <==> x.isFullPath != 0)
  }

  function ExtensionOf(raw: seq<byte>): seq<byte>
    requires |raw| >= File.HEADER + File.HASH && File.RecordSize(raw, 0) == |raw|
  {
    raw[File.HEADER + File.HASH..File.HEADER + File.HASH + File.ExtendSize(raw) as int]
  }

  /** Bit `k` of a byte: FILE_INTEGRITY_FLAG_ENABLE, _CONTROL and _FULL_PATH are 0, 1 and 2. */
  predicate Bit(b: byte, k: nat)
    requires k < 3
  {
    (if k == 0 then b else if k == 1 then b / 2 else b / 4) % 2 == 1
  }

  /** Hash, extension, path and flags come back from the packed record exactly when the item is consistent. */
  lemma FieldsReadBack(x: Item)
    requires Legal(x) && Complete(x)
    ensures Carries(ItemBytes(x), x) <==> Consistent(x)
  {
    hide Flags, Be16, Bit;
    ClaimedSize(x);
    FlagBits(x);
    var raw, hash, ext, path := ItemBytes(x), x.hash.value, Given(x.extend), Given(x.path);
    if Consistent(x) {
      assert raw[0] == Header(x)[0] && raw[1] == Header(x)[1] && raw[2] == Header(x)[2] && raw[3] == Header(x)[3];
      TwoBytes(x.pathLength);
      assert raw == Header(x) + hash + ext + path;
      assert raw[4..36] == hash && raw[36..36 + |ext|] == ext && raw[36 + |ext|..] == path;
    }
  }

  lemma FlagBits(x: Item)
    ensures Bit(Flags(x), 0) <==> x.isEnable != 0
    ensures Bit(Flags(x), 1) <==> x.isControl != 0
    ensures Bit(Flags(x), 2) <==> x.isFullPath != 0
  {
  }

  lemma {:induction false} EncodedAt(b: seq<byte>, items: seq<Item>, i: nat)
    requires Encoded(ItemBytes, b, items) && i < |items|
    ensures Seg(b, End(ItemBytes, items[..i]), ItemBytes(items[i]))
    ensures End(ItemBytes, items[..i]) + Align4(|ItemBytes(items[i])|) == End(ItemBytes, items[..i + 1]) <= |b|
    decreases |items|
  {
    hide ItemBytes, Encoded, End, Align4;
    var n := |items| - 1;
    var front := items[..n];
    EncodedLast(b, items);
    EndNext(ItemBytes, items, i);
    EndPrefix(ItemBytes, items, i + 1);
    EncodedLength(b, items);
    if i < n {
      EncodedAt(b[..End(ItemBytes, front)], front, i);
      assert front[..i] == items[..i];
    } else {
      assert items[..i] == front;
    }
  }

  lemma EncodedLast(b: seq<byte>, items: seq<Item>)
    requires Encoded(ItemBytes, b, items) && items != []
    ensures var front := items[..|items| - 1];
            && End(ItemBytes, front) <= |b| && Encoded(ItemBytes, b[..End(ItemBytes, front)], front)
            && Seg(b, End(ItemBytes, front), ItemBytes(items[|items| - 1]))
  {
    hide ItemBytes;
  }

  lemma {:induction false} ParsesFrom(b: seq<byte>, items: seq<Item>, i: nat)
    requires Encoded(ItemBytes, b, items) && AllLegal(items) && AllComplete(items) && AllConsistent(items) && i <= |items|
    ensures File.ParseFrom(b, End(ItemBytes, items[..i])) == File.Ok(Records(items, i))
    decreases |items| - i
  {
    hide ItemBytes, Encoded, File.ParseFrom, File.Check, End, Legal, Complete, Consistent;
    var at := End(ItemBytes, items[..i]);
    if i == |items| {
      assert items[..i] == items;
      EncodedLength(b, items);
      File.ParseEnd(b, at);
    } else {
      ParsesFrom(b, items, i + 1);
      EncodedAt(b, items, i);
      CheckAt(b, at, items[i]);
      File.ParseStep(b, at);
    }
  }

  lemma EncodedLength(b: seq<byte>, items: seq<Item>)
    requires Encoded(ItemBytes, b, items)
    ensures |b| == End(ItemBytes, items)
  {
  }

  lemma CheckAt(b: seq<byte>, at: nat, x: Item)
    requires Seg(b, at, ItemBytes(x)) && Legal(x) && Complete(x) && Consistent(x)
    ensures at < |b| && File.Check(b, at) == |ItemBytes(x)| && b[at..at + |ItemBytes(x)|] == ItemBytes(x)
  {
    hide ItemBytes, Consistent, Legal, Complete;
    ClaimedSize(x);
    File.RecordSizeSame(ItemBytes(x), 0, b, at);
  }

  /** The parser finds exactly the prepared records if and only if no item gives a size without its buffer. */
  lemma PreparedParses(b: seq<byte>, items: seq<Item>)
    requires Encoded(ItemBytes, b, items) && AllLegal(items) && AllComplete(items)
    ensures File.Parse(b) == File.Ok(Records(items, 0)) <==> AllConsistent(items)
  {
    hide ItemBytes, Encoded, File.ParseFrom, End, Legal, Complete, Consistent;
    NothingEncoded(ItemBytes, b, items);
    if AllConsistent(items) {
      ParsesFrom(b, items, 0);
    }
    if File.Parse(b) == File.Ok(Records(items, 0)) {
      File.ParseFramed(b, 0);
      forall i | 0 <= i < |items|
        ensures Consistent(items[i])
      {
        RecordAt(items, 0, i);
        assert File.Framed(File.ParseFrom(b, 0).records[i]);
        ClaimedSize(items[i]);
      }
    }
  }

  lemma {:induction false} RecordAt(items: seq<Item>, i: nat, k: nat)
    requires i <= k < |items|
    ensures Records(items, i)[k - i] == File.Placed(End(ItemBytes, items[..k]), ItemBytes(items[k]))
    decreases |items| - i
  {
    hide ItemBytes, End;
    if i < k {
      RecordAt(items, i + 1, k);
    }
  }

  /** An item with a size for an extension and no extension. */
  function Sizeless(): Item { Item(Some(Zeros(HASH)), HASH, None, 1, None, 0, 1, 0, 0) }

  /** It is packed into 36 bytes which claim to be 37: the parser refuses the whole data. */
  lemma SizelessRefused(b: seq<byte>)
    requires Encoded(ItemBytes, b, [Sizeless()])
    ensures Legal(Sizeless()) && Complete(Sizeless()) && |b| == 36 && File.Parse(b) == File.Bad
  {
    hide Encoded, End, File.ParseFrom;
    var x := Sizeless();
    assert |ItemBytes(x)| == 36 && ItemBytes(x)[1] == 1 && ItemBytes(x)[2] == 0 && ItemBytes(x)[3] == 0;
    EncodedAt(b, [x], 0);
    OnlyItem(b, x);
    assert b[..36] == ItemBytes(x);
    assert b[1] == b[..36][1] && b[2] == b[..36][2] && b[3] == b[..36][3];
    File.ParseStep(b, 0);
  }

  lemma OnlyItem(b: seq<byte>, x: Item)
    requires Encoded(ItemBytes, b, [x])
    ensures [x][..0] == [] && End(ItemBytes, [x][..0]) == 0 && |b| == Align4(|ItemBytes(x)|)
  {
    hide ItemBytes;
    assert [x][..0] == [];
  }

  // ----- Preparing and setting -----

  /** An all-zero hash makes a record look deleted. */
  predicate Tombstone(x: Item) { x.hash == Some(Zeros(HASH)) }

  /** The records of the items that are not tombstones, in order. */
  function Wanted(items: seq<Item>): seq<seq<byte>> {
    if items == [] then []
    else Wanted(items[..|items| - 1]) + if Tombstone(items[|items| - 1]) then [] else [ItemBytes(items[|items| - 1])]
  }

  lemma {:induction false} WantedAll(items: seq<Item>)
    requires forall i :: 0 <= i < |items| ==> !Tombstone(items[i])
    ensures |Wanted(items)| == |items|
    ensures forall i :: 0 <= i < |items| ==> Wanted(items)[i] == ItemBytes(items[i])
  {
    hide ItemBytes, Tombstone;
    if items != [] {
      WantedAll(items[..|items| - 1]);
    }
  }

  lemma LiveRecord(x: Item, at: nat)
    requires Legal(x) && Complete(x) && Consistent(x)
    ensures File.Live(File.Placed(at, ItemBytes(x))) <==> !Tombstone(x)
  {
    hide ItemBytes, Legal, Complete, Consistent;
    FieldsReadBack(x);
  }

  lemma WantedNext(items: seq<Item>, i: nat)
    requires i < |items|
    ensures Wanted(items[..i + 1]) == Wanted(items[..i]) + if Tombstone(items[i]) then [] else [ItemBytes(items[i])]
  {
    hide ItemBytes, Tombstone;
    assert items[..i + 1][..i] == items[..i];
  }

  lemma RawsCons(p: File.Placed, ps: seq<File.Placed>)
    ensures IntegrityRuns.Raws([p] + ps) == [p.raw] + IntegrityRuns.Raws(ps)
  {
    assert ([p] + ps)[1..] == ps;
  }

  lemma {:induction false} LiveRecords(items: seq<Item>, i: nat)
    requires AllLegal(items) && AllComplete(items) && AllConsistent(items) && i <= |items|
    ensures Wanted(items[..i]) + IntegrityRuns.Raws(File.LiveOf(Records(items, i))) == Wanted(items)
    decreases |items| - i
  {
    hide ItemBytes, Legal, Complete, Consistent, Tombstone, Wanted, Records, File.LiveOf, File.Live, IntegrityRuns.Raws;
    if i == |items| {
      assert items[..i] == items;
      NoneLive();
      NoRecords(items);
    } else {
      LiveRecords(items, i + 1);
      LiveFirst(items, i);
      WantedNext(items, i);
      var rest := IntegrityRuns.Raws(File.LiveOf(Records(items, i + 1)));
      if !Tombstone(items[i]) {
        Regroup(Wanted(items[..i]), ItemBytes(items[i]), rest);
      } else {
        assert Wanted(items[..i]) + [] == Wanted(items[..i]);
      }
    }
  }

  lemma Regroup(a: seq<seq<byte>>, x: seq<byte>, b: seq<seq<byte>>)
    ensures (a + [x]) + b == a + ([x] + b)
  {
  }

  lemma NoRecords(items: seq<Item>)
    ensures Records(items, |items|) == []
  {
  }

  /** What the record of item `i` adds to the live records. */
  lemma LiveFirst(items: seq<Item>, i: nat)
    requires i < |items| && Legal(items[i]) && Complete(items[i]) && Consistent(items[i])
    ensures var rest := IntegrityRuns.Raws(File.LiveOf(Records(items, i + 1)));
            IntegrityRuns.Raws(File.LiveOf(Records(items, i))) ==
            if Tombstone(items[i]) then rest else [ItemBytes(items[i])] + rest
  {
    hide ItemBytes, Legal, Complete, Consistent, End, Tombstone, File.LiveOf, File.Live, IntegrityRuns.Raws;
    var p := File.Placed(End(ItemBytes, items[..i]), ItemBytes(items[i]));
    LiveRecord(items[i], p.offset);
    File.LiveCons(p, Records(items, i + 1));
    RawsCons(p, File.LiveOf(Records(items, i + 1)));
  }

  lemma NoneLive()
    ensures IntegrityRuns.Raws(File.LiveOf([])) == [] && Wanted([]) == []
  {
  }

  /** The whitelist of prepared data is the items that are not tombstones. */
  lemma PreparedWhitelist(b: seq<byte>, items: seq<Item>)
    requires Encoded(ItemBytes, b, items) && AllLegal(items) && AllComplete(items) && AllConsistent(items)
    ensures File.Parse(b).Ok? && IntegrityRuns.Whitelist(b) == Wanted(items)
  {
    hide ItemBytes, Encoded, AllLegal, AllComplete, AllConsistent, Wanted, File.Parse, File.LiveOf, IntegrityRuns.Raws;
    PreparedParses(b, items);
    LiveRecords(items, 0);
    NoneLive();
    assert items[..0] == [];
  }

  /** An administrator prepares items and sets the whitelist to them: afterwards it holds exactly their records, from
      which every item reads back. */
  method PrepareAndSet(index: IntegrityIndex.Index, items: seq<Item>, accepted: bool) returns (ok: bool)
    requires index.Fresh() && AllComplete(items)
    modifies index
    ensures ok ==> AllLegal(items) && accepted && index.InSync()
    ensures AllConsistent(items) ==> ok == (AllLegal(items) && accepted)
    ensures ok && AllConsistent(items) ==> File.Parse(index.file).Ok? && IntegrityRuns.Whitelist(index.file) == Wanted(items)
    ensures ok && AllConsistent(items) && (forall i :: 0 <= i < |items| ==> !Tombstone(items[i])) ==>
              && |IntegrityRuns.Whitelist(index.file)| == |items|
              && forall i :: 0 <= i < |items| ==> Carries(IntegrityRuns.Whitelist(index.file)[i], items[i])
    ensures !ok ==> index.file == old(index.file)
  {
    hide ItemBytes, Encoded, Legal, Complete, Consistent, Tombstone, Carries, Wanted, File.Parse, IntegrityRuns.Whitelist;
    var data;
    ok, data := Prepare(items);
    if !ok { return; }
    ok := index.Set(data, accepted);
    if AllConsistent(items) {
      PreparedWhitelist(data, items);
      if forall i :: 0 <= i < |items| ==> !Tombstone(items[i]) {
        WantedAll(items);
        forall i | 0 <= i < |items|
          ensures Carries(ItemBytes(items[i]), items[i])
        {
          FieldsReadBack(items[i]);
        }
      }
    }
  }
}
