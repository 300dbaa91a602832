/**
  Process identities: `tcf_util_process_ids_serialize` and `tcf_util_process_ids_extract` (`tcf_process.c`).

  A record is the name length and the number of specific libraries (one byte each), the length of one hash and the
  number of libraries (16 bits each), the hashes of the program and of its libraries, and the name. The writer cuts
  the total hash length to 16 bits; the reader computes it from the two fields.
*/
module PolicyIds {
  import opened Bytes
  import opened Lists
  import opened RecordLayout

  const MAX_NAME: nat := 64
  const TWO16: nat := 0x1_0000
  const TWO31: nat := 0x8000_0000

  datatype Id = Id(name: seq<byte>, hashLength: nat, specificLibs: nat, libNumber: nat, hash: seq<byte>)

  function HashBytes(x: Id): nat { (x.libNumber + 1) * x.hashLength }

  /** The caller's buffer holds all the hashes. */
  predicate Complete(x: Id) { |x.hash| == HashBytes(x) }

  function IdBytes(x: Id): seq<byte> {
    [|x.name| % 256, x.specificLibs % 256] + Be16(x.hashLength) + Be16(x.libNumber) + x.hash + x.name
  }

  ghost predicate IdIn(mem: Mem, op: nat, x: Id) {
    && mem(op) == |x.name| && mem(op + 1) == x.specificLibs
    && Half(mem, op + 2) == x.hashLength && Half(mem, op + 4) == x.libNumber
    && Complete(x)
    && Slice(mem, op + 6, |x.hash|) == x.hash && Slice(mem, op + 6 + |x.hash|, |x.name|) == x.name
  }

  lemma IdSize(x: Id)
    ensures |IdBytes(x)| == 6 + |x.hash| + |x.name|
  {
  }

  /** The fields fit their widths. */
  predicate Fits(x: Id) { x.hashLength < TWO16 && x.libNumber < TWO16 && HashBytes(x) < TWO16 }

  /** What the writer keeps of the hashes. */
  function Cut(x: Id): Id
    requires Complete(x)
  {
    CutBound(x);
    x.(hash := x.hash[..HashBytes(x) % TWO16])
  }

  lemma CutBound(x: Id)
    ensures HashBytes(x) % TWO16 <= HashBytes(x)
  {
    assert HashBytes(x) == HashBytes(x) / TWO16 * TWO16 + HashBytes(x) % TWO16;
  }

  function Cuts(xs: seq<Id>): (r: seq<Id>)
    requires forall i :: 0 <= i < |xs| ==> Complete(xs[i])
    ensures |r| == |xs| && forall i :: 0 <= i < |xs| ==> r[i] == Cut(xs[i])
  {
    seq(|xs|, i requires 0 <= i < |xs| => Cut(xs[i]))
  }

  // ----- Serializing -----

  method MeasureAll(ids: seq<Id>) returns (actLen: Option<nat>)
    requires AllComplete(ids)
    ensures actLen == if Named(ids) then Some(End(IdBytes, Cuts(ids))) else None
  {
    hide IdBytes, Complete;
    var len := 0;
    var i := 0;
    ghost var cuts := Cuts(ids);
    while i < |ids|
      invariant 0 <= i <= |ids| && len == End(IdBytes, cuts[..i])
      invariant forall k :: 0 <= k < i ==> |ids[k].name| <= MAX_NAME
    {
      if |ids[i].name| > MAX_NAME {
        return None;
      }
      IdSize(Cut(ids[i]));
      EndNext(IdBytes, cuts, i);
      var hashLen := (ids[i].libNumber + 1) * ids[i].hashLength % TWO16;
      CutSize(ids[i]);
      len := len + Align4(6 + |ids[i].name| + hashLen);
      i := i + 1;
    }
    assert cuts[..i] == cuts;
    return Some(len);
  }

  lemma CutSize(x: Id)
    requires Complete(x)
    ensures |Cut(x).hash| == (x.libNumber + 1) * x.hashLength % TWO16
  {
    CutBound(x);
  }

  method WriteId(buf: array<byte>, op: nat, x: Id) returns (size: nat)
    requires Complete(x) && |x.name| <= MAX_NAME && x.specificLibs < 256 && op + |IdBytes(Cut(x))| <= buf.Length
    modifies buf
    ensures size == |IdBytes(Cut(x))| && Seg(buf[..], op, IdBytes(Cut(x)))
    ensures KeepsBelow(old(buf[..]), buf[..], op)
  {
    hide Seg, Over, Be16, Complete, IdBytes;
    IdSize(Cut(x));
    CutSize(x);
    var hashLen := (x.libNumber + 1) * x.hashLength % TWO16;
    Put(buf, op, [|x.name|, x.specificLibs]);
    Put(buf, op + 4, Be16(x.libNumber));
    Put(buf, op + 2, Be16(x.hashLength));
    HashPrefix(x);
    Put(buf, op + 6, x.hash[..hashLen]);
    Put(buf, op + 6 + hashLen, x.name);
    size := 6 + |x.name| + hashLen;
    JoinId(buf[..], op, Cut(x));
  }

  lemma JoinId(b: seq<byte>, op: nat, x: Id)
    requires |x.name| < 256 && x.specificLibs < 256
    requires Seg(b, op, [|x.name|, x.specificLibs]) && Seg(b, op + 2, Be16(x.hashLength)) && Seg(b, op + 4, Be16(x.libNumber))
    requires Seg(b, op + 6, x.hash) && Seg(b, op + 6 + |x.hash|, x.name)
    ensures Seg(b, op, IdBytes(x))
  {
    hide Seg, Be16;
    var h := [|x.name|, x.specificLibs] + Be16(x.hashLength);
    SegJoin(b, op, [|x.name|, x.specificLibs], Be16(x.hashLength));
    SegJoin(b, op, h, Be16(x.libNumber));
    SegJoin(b, op, h + Be16(x.libNumber), x.hash);
    SegJoin(b, op, h + Be16(x.libNumber) + x.hash, x.name);
  }

  lemma HashPrefix(x: Id)
    requires Complete(x)
    ensures (x.libNumber + 1) * x.hashLength % TWO16 <= |x.hash|
  {
    CutBound(x);
  }

  /** One turn of the writing loop. */
  method WriteNext(buf: array<byte>, op: nat, x: Id, ghost cuts: seq<Id>, ghost i: nat) returns (op': nat)
    requires Complete(x) && |x.name| <= MAX_NAME && x.specificLibs < 256
    requires i < |cuts| && cuts[i] == Cut(x) && End(IdBytes, cuts) == buf.Length
    requires op == End(IdBytes, cuts[..i]) <= buf.Length && Encoded(IdBytes, buf[..op], cuts[..i])
    modifies buf
    ensures op' == End(IdBytes, cuts[..i + 1]) <= buf.Length && Encoded(IdBytes, buf[..op'], cuts[..i + 1])
  {
    hide IdBytes, Seg, Complete, Cut, Encoded, End, KeepsBelow;
    EndNext(IdBytes, cuts, i);
    EndPrefix(IdBytes, cuts, i + 1);
    ghost var was := buf[..];
    ghost var before := buf[..op];
    SegPrefix(was, op);
    assert was[..op] == before;
    var size := WriteId(buf, op, x);
    Kept(was, buf[..], op, 0, before);
    EncodedStep(IdBytes, buf[..], before, cuts, i);
    op' := op + Align4(size);
    assert buf[..][..op'] == buf[..op'];
  }

  predicate Named(ids: seq<Id>) { forall i :: 0 <= i < |ids| ==> |ids[i].name| <= MAX_NAME }

  predicate FewLibs(ids: seq<Id>) { forall i :: 0 <= i < |ids| ==> ids[i].specificLibs < 256 }

  ghost predicate AllComplete(ids: seq<Id>) { forall i :: 0 <= i < |ids| ==> Complete(ids[i]) }

  /** `tcf_util_process_ids_serialize`: refuses long names and more than 255 specific libraries. */
  method Serialize(ids: seq<Id>) returns (ok: bool, buf: array<byte>)
    requires AllComplete(ids) && End(IdBytes, Cuts(ids)) < TWO31
    ensures fresh(buf)
    ensures ok == (Named(ids) && FewLibs(ids))
    ensures ok ==> Encoded(IdBytes, buf[..], Cuts(ids))
  {
    hide IdBytes, Complete, Cut, Cuts;
    var actLen := MeasureAll(ids);
    if actLen == None {
      return false, new byte[0];
    }
    buf := new byte[actLen.value];
    ok := WriteAll(buf, ids, Cuts(ids));
  }

  /** The writing loop. */
  method WriteAll(buf: array<byte>, ids: seq<Id>, ghost cuts: seq<Id>) returns (ok: bool)
    requires AllComplete(ids) && Named(ids) && |cuts| == |ids| && End(IdBytes, cuts) == buf.Length
    requires forall i :: 0 <= i < |ids| ==> cuts[i] == Cut(ids[i])
    modifies buf
    ensures ok == FewLibs(ids)
    ensures ok ==> Encoded(IdBytes, buf[..], cuts)
  {
    hide IdBytes, Complete, Cut, Encoded, End;
    var op := 0;
    var i := 0;
    NothingEncoded(IdBytes, buf[..], cuts);
    assert buf[..][..0] == buf[..0];
    while i < |ids|
      invariant 0 <= i <= |ids| && op == End(IdBytes, cuts[..i]) <= buf.Length
      invariant Encoded(IdBytes, buf[..op], cuts[..i])
      invariant forall k :: 0 <= k < i ==> ids[k].specificLibs < 256
    {
      if ids[i].specificLibs > 255 {
        return false;
      }
      op := WriteNext(buf, op, ids[i], cuts, i);
      i := i + 1;
    }
    assert cuts[..i] == cuts && buf[..op] == buf[..];
    ok := true;
  }

  // ----- Extracting -----

  method ExtractId(mem: Mem, length: nat, op: nat, ghost want: Id) returns (r: Option<Id>, op': nat)
    ensures IdIn(mem, op, want) && op + Align4(|IdBytes(want)|) <= length ==> r == Some(want)
    ensures r.Some? ==> IdIn(mem, op, r.value) && op' == op + Align4(|IdBytes(r.value)|) <= length
  {
    hide IdBytes, Half;
    IdSize(want);
    op' := op;
    var nameLen := mem(op);
    var hashLength := Half(mem, op + 2);
    var libNumber := Half(mem, op + 4);
    var hashLen := (libNumber + 1) * hashLength;
    if op + hashLen + nameLen > length {
      return None, op';
    }
    var name := Slice(mem, op + 6 + hashLen, nameLen);
    var hash := Slice(mem, op + 6, hashLen);
    var x := Id(name, hashLength, mem(op + 1), libNumber, hash);
    IdSize(x);
    op' := op + Align4(hashLen + nameLen + 6);
    if op' > length {
      return None, op';
    }
    r := Some(x);
  }

  /** `tcf_util_process_ids_extract`: succeeds with `want` if and only if memory holds exactly `want`, within the length
      given. */
  method Extract(mem: Mem, num: nat, length: nat, ghost want: seq<Id>) returns (r: Result<seq<Id>>)
    ensures |want| == num && Laid(IdBytes, IdIn, mem, want) && End(IdBytes, want) <= length ==> r == Ok(want)
    ensures r.Ok? ==> |r.value| == num && Laid(IdBytes, IdIn, mem, r.value) && End(IdBytes, r.value) <= length
    ensures r.Err? ==> r.error == Parameter
  {
    hide IdBytes, IdIn, End, Laid, Align4;
    ghost var good := |want| == num && Laid(IdBytes, IdIn, mem, want) && End(IdBytes, want) <= length;
    var ids: seq<Id> := [];
    var op := 0;
    var i := 0;
    assert want[..0] == [];
    LaidNone(IdBytes, IdIn, mem);
    while i < num
      invariant 0 <= i <= num && |ids| == i && op == End(IdBytes, ids) && Laid(IdBytes, IdIn, mem, ids)
      invariant op <= length || i == 0
      invariant good ==> ids == want[..i]
    {
      ghost var next := if good then want[i] else Id([], 0, 0, 0, []);
      if good {
        LaidPrefix(IdBytes, IdIn, mem, want, i);
        assert want[..i + 1] == want[..i] + [want[i]];
      }
      var x, op' := ExtractId(mem, length, op, next);
      if x == None {
        return Err(Parameter);
      }
      LaidNext(IdBytes, IdIn, mem, ids, x.value);
      ids := ids + [x.value];
      op := op';
      i := i + 1;
    }
    assert good ==> want[..num] == want;
    r := Ok(ids);
  }

  // ----- Round trip -----

  lemma BytesIn(mem: Mem, op: nat, x: Id)
    requires Slice(mem, op, |IdBytes(x)|) == IdBytes(x)
    requires Complete(x) && Fits(x) && |x.name| <= MAX_NAME && x.specificLibs < 256
    ensures IdIn(mem, op, x)
  {
    hide Be16, Half, Complete;
    var first := [|x.name| % 256, x.specificLibs % 256];
    var h := first + Be16(x.hashLength);
    var h' := h + Be16(x.libNumber);
    SliceSplit(mem, op, h' + x.hash, x.name);
    SliceSplit(mem, op, h', x.hash);
    SliceSplit(mem, op, h, Be16(x.libNumber));
    SliceSplit(mem, op, first, Be16(x.hashLength));
    assert mem(op) == Slice(mem, op, 2)[0] && mem(op + 1) == Slice(mem, op, 2)[1];
    HalfBe16(mem, op + 2, x.hashLength);
    HalfBe16(mem, op + 4, x.libNumber);
  }

  lemma CutsFit(ids: seq<Id>)
    requires forall i :: 0 <= i < |ids| ==> Complete(ids[i]) && Fits(ids[i])
    ensures Cuts(ids) == ids
  {
    forall i | 0 <= i < |ids|
      ensures Cut(ids[i]) == ids[i]
    {
      assert ids[i].hash[..|ids[i].hash|] == ids[i].hash;
    }
  }

  predicate AllFit(ids: seq<Id>) { forall i :: 0 <= i < |ids| ==> Fits(ids[i]) }

  /** Extracting what was serialized gives the identities back if and only if all fields fit their widths. */
  method RoundTrip(ids: seq<Id>, beyond: Mem) returns (r: Result<seq<Id>>)
    requires AllComplete(ids) && Named(ids) && FewLibs(ids) && End(IdBytes, Cuts(ids)) < TWO31
    ensures r == Ok(ids) <==> AllFit(ids)
  {
    hide IdBytes, IdIn, Fits, Complete, Cuts, Laid, End, Encoded;
    var ok, buf := Serialize(ids);
    var b := buf[..];
    var mem: Mem := (i: nat) => if i < |b| then b[i] else beyond(i);
    assert Starts(mem, b);
    if AllFit(ids) {
      FittingLaid(mem, b, ids);
    }
    EncodedLength(b, Cuts(ids));
    r := Extract(mem, |ids|, |b|, ids);
    if r == Ok(ids) {
      forall i | 0 <= i < |ids|
        ensures Fits(ids[i])
      {
        LaidPrefix(IdBytes, IdIn, mem, ids, i);
        CutsShorter(ids, i);
        NarrowFields(mem, End(IdBytes, ids[..i]), ids[i]);
      }
    }
  }

  lemma FittingLaid(mem: Mem, b: seq<byte>, ids: seq<Id>)
    requires AllComplete(ids) && Named(ids) && FewLibs(ids) && AllFit(ids)
    requires Starts(mem, b) && Encoded(IdBytes, b, Cuts(ids))
    ensures Cuts(ids) == ids && Laid(IdBytes, IdIn, mem, ids)
  {
    hide IdBytes, IdIn, Fits, Complete, Cuts;
    CutsFit(ids);
    forall at, k | 0 <= k < |ids| && Slice(mem, at, |IdBytes(ids[k])|) == IdBytes(ids[k])
      ensures IdIn(mem, at, ids[k])
    {
      BytesIn(mem, at, ids[k]);
    }
    EncodedLaid(IdBytes, IdIn, mem, b, ids);
  }

  lemma EncodedLength(b: seq<byte>, xs: seq<Id>)
    requires Encoded(IdBytes, b, xs)
    ensures |b| == End(IdBytes, xs)
  {
  }

  lemma NarrowFields(mem: Mem, at: nat, x: Id)
    requires IdIn(mem, at, x) && HashBytes(x) < TWO16
    ensures Fits(x)
  {
  }

  /** What the writer leaves out of the hashes makes the buffer shorter than a reader needs. */
  lemma {:induction false} CutsShorter(ids: seq<Id>, i: nat)
    requires AllComplete(ids) && i < |ids|
    ensures End(IdBytes, Cuts(ids)) <= End(IdBytes, ids)
    ensures HashBytes(ids[i]) >= TWO16 ==> End(IdBytes, Cuts(ids)) < End(IdBytes, ids)
    decreases |ids|
  {
    hide IdBytes, Complete, Cut;
    var n := |ids| - 1;
    var front, last := ids[..n], ids[n];
    assert Cuts(ids)[..n] == Cuts(front);
    CutSizes(last);
    if i < n {
      CutsShorter(front, i);
    } else if n > 0 {
      CutsShorter(front, 0);
    }
  }

  lemma CutSizes(x: Id)
    requires Complete(x)
    ensures Align4(|IdBytes(Cut(x))|) <= Align4(|IdBytes(x)|)
    ensures HashBytes(x) >= TWO16 ==> Align4(|IdBytes(Cut(x))|) < Align4(|IdBytes(x)|)
  {
    hide IdBytes;
    IdSize(x);
    IdSize(Cut(x));
    CutSize(x);
    CutBound(x);
    if HashBytes(x) >= TWO16 {
      TooLong(x);
    }
  }

  /** Hashes that do not fit lose at least 65536 bytes. */
  lemma TooLong(x: Id)
    requires Complete(x) && HashBytes(x) >= TWO16
    ensures |Cut(x).hash| + TWO16 <= |x.hash|
  {
    var q := HashBytes(x) / TWO16;
    assert HashBytes(x) == q * TWO16 + HashBytes(x) % TWO16;
    assert q >= 1;
  }

  /** A program with 2047 libraries: its 2048 hashes of 32 bytes take 65536 bytes. */
  function Wide(): (x: Id)
    ensures Complete(x)
  {
    Id([97], 32, 0, 2047, Zeros(TWO16))
  }

  /** The writer accepts it and leaves out every hash; no reader of the buffer gets it back. */
  lemma HashesLost(mem: Mem, b: seq<byte>)
    requires Encoded(IdBytes, b, Cuts([Wide()]))
    ensures Named([Wide()]) && FewLibs([Wide()]) && Cut(Wide()).hash == [] && |b| == 8
    ensures !(Laid(IdBytes, IdIn, mem, [Wide()]) && End(IdBytes, [Wide()]) <= |b|)
  {
    hide Laid, IdBytes;
    var x := Wide();
    assert Cuts([x]) == [Cut(x)];
    assert [x][..0] == [] && [Cut(x)][..0] == [];
    IdSize(x);
    IdSize(Cut(x));
  }
}
