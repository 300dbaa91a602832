/**
  Runs of SET, ADD and DELETE as changes of the file, against the whitelist an administrator has in mind:
  a plain list of records that is replaced, extended and filtered.

  However many tombstones and padding bytes a run leaves in the file, its live records are that list.
*/
module IntegrityRuns {
  import opened Bytes
  import opened IntegrityFile
  import opened IntegrityIndex

  /** An accepted operation; `mem` is the memory the delete requests are read from. */
  datatype Op = SetTo(data: seq<byte>) | AddTo(data: seq<byte>) | DeleteFrom(data: seq<byte>, mem: seq<byte>, src: seq<byte>)

  function Raws(ps: seq<Placed>): seq<seq<byte>> {
    if ps == [] then [] else [ps[0].raw] + Raws(ps[1..])
  }

  /** The live records of a file. */
  function Whitelist(file: seq<byte>): seq<seq<byte>>
    requires Parse(file).Ok?
  {
    Raws(LiveOf(Parse(file).records))
  }

  // ----- The plain list -----

  ghost function Keep(l: seq<seq<byte>>, mem: seq<byte>, reqs: seq<Placed>): seq<seq<byte>> {
    if l == [] then []
    else (if SelectedBy(mem, reqs, l[0]) then [] else [l[0]]) + Keep(l[1..], mem, reqs)
  }

  ghost function ListStep(l: seq<seq<byte>>, op: Op): seq<seq<byte>>
    requires Parse(op.data).Ok?
  {
    match op
    case SetTo(data) => Whitelist(data)
    case AddTo(data) => l + Whitelist(data)
    case DeleteFrom(data, mem, _) => Keep(l, mem, Parse(data).records)
  }

  ghost function ListRun(l: seq<seq<byte>>, ops: seq<Op>): seq<seq<byte>>
    requires forall i :: 0 <= i < |ops| ==> Parse(ops[i].data).Ok?
    decreases |ops|
  {
    if ops == [] then l else ListStep(ListRun(l, ops[..|ops| - 1]), ops[|ops| - 1])
  }

  // ----- The file -----

  /** The offsets of the live records a delete request selects. */
  ghost predicate Selects(ps: seq<Placed>, gone: set<nat>, mem: seq<byte>, reqs: seq<Placed>) {
    forall k :: 0 <= k < |LiveOf(ps)| ==> (LiveOf(ps)[k].offset in gone <==> SelectedBy(mem, reqs, LiveOf(ps)[k].raw))
  }

  /** What the three operations of `Index` do to the file. */
  ghost predicate FileStep(file: seq<byte>, op: Op, file': seq<byte>) {
    && Parse(file).Ok? && Parse(op.data).Ok?
    && match op
       case SetTo(data) => file' == data
       case AddTo(data) => file' == Pad(file) + data
       case DeleteFrom(data, mem, src) =>
         var ps := Parse(file).records;
         && Coverable(ps, src) && Shroud(src)
         && exists gone: set<nat> ::
              Selects(ps, gone, mem, Parse(data).records) && Parse(file') == Ok(BuryMany(ps, gone, src))
  }

  ghost predicate FileRun(files: seq<seq<byte>>, ops: seq<Op>) {
    && |files| == |ops| + 1 && Parse(files[0]).Ok?
    && forall i :: 0 <= i < |ops| ==> FileStep(files[i], ops[i], files[i + 1])
  }

  // ----- Refinement -----

  lemma {:induction false} RawsAppend(a: seq<Placed>, b: seq<Placed>)
    ensures Raws(a + b) == Raws(a) + Raws(b)
    decreases |a|
  {
    if a == [] {
      assert a + b == b;
    } else {
      RawsAppend(a[1..], b);
      assert (a + b)[1..] == a[1..] + b;
    }
  }

  lemma {:induction false} RawsShift(ps: seq<Placed>, d: nat)
    ensures Raws(Shift(ps, d)) == Raws(ps)
    decreases |ps|
  {
    if ps != [] {
      RawsShift(ps[1..], d);
      assert Shift(ps, d)[1..] == Shift(ps[1..], d);
    }
  }

  lemma {:induction false} KeepSurvivors(ps: seq<Placed>, gone: set<nat>, mem: seq<byte>, reqs: seq<Placed>)
    requires forall k :: 0 <= k < |ps| ==> (ps[k].offset in gone <==> SelectedBy(mem, reqs, ps[k].raw))
    ensures Raws(Survivors(ps, gone)) == Keep(Raws(ps), mem, reqs)
    decreases |ps|
  {
    hide SelectedBy;
    if ps != [] {
      var x, rest := ps[0], ps[1..];
      assert forall k :: 0 <= k < |rest| ==> rest[k] == ps[k + 1];
      KeepSurvivors(rest, gone, mem, reqs);
      var l := Raws(ps);
      assert l == [x.raw] + Raws(rest) && l[0] == x.raw && l[1..] == Raws(rest);
      assert ps[0].offset in gone <==> SelectedBy(mem, reqs, x.raw);
      SurvivorsCons(x, rest, gone);
      assert ps == [x] + rest;
      RawsAppend([x], Survivors(rest, gone));
      assert Raws([x]) == [x.raw];
    }
  }

  lemma StepRefines(file: seq<byte>, op: Op, file': seq<byte>)
    requires FileStep(file, op, file')
    ensures Parse(file').Ok? && Whitelist(file') == ListStep(Whitelist(file), op)
  {
    hide ParseFrom, LiveOf, Raws, Keep, BuryOne, Pad, SelectedBy;
    var ps := Parse(file).records;
    match op
    case SetTo(data) =>
    case AddTo(data) =>
      var qs := Parse(data).records;
      var d := |Pad(file)|;
      AppendLaw(file, data);
      LiveAppend(ps, Shift(qs, d));
      LiveShift(qs, d);
      RawsAppend(LiveOf(ps), Shift(LiveOf(qs), d));
      RawsShift(LiveOf(qs), d);
    case DeleteFrom(data, mem, src) =>
      var gone: set<nat> :|
        Selects(ps, gone, mem, Parse(data).records) && Parse(file') == Ok(BuryMany(ps, gone, src));
      LiveAfterBury(ps, gone, src);
      KeepSurvivors(LiveOf(ps), gone, mem, Parse(data).records);
  }

  /** Over every run, the live records of the file are the administrator's list. */
  lemma {:induction false} RunRefines(files: seq<seq<byte>>, ops: seq<Op>)
    requires FileRun(files, ops)
    ensures (forall i :: 0 <= i < |ops| ==> Parse(ops[i].data).Ok?)
    ensures Parse(files[|ops|]).Ok? && Whitelist(files[|ops|]) == ListRun(Whitelist(files[0]), ops)
    decreases |ops|
  {
    hide Parse, Whitelist, ListStep;
    if ops != [] {
      var n := |ops| - 1;
      var init := ops[..n];
      assert FileRun(files[..n + 1], init) by {
        forall i | 0 <= i < n
          ensures FileStep(files[..n + 1][i], init[i], files[..n + 1][i + 1])
        {
          assert FileStep(files[i], ops[i], files[i + 1]);
        }
      }
      RunRefines(files[..n + 1], init);
      assert FileStep(files[n], ops[n], files[n + 1]);
      StepRefines(files[n], ops[n], files[n + 1]);
    }
  }

  // ----- Running the index -----

  /** A request and the trusted module's verdict on it; `after` and `beyond` are the memory behind a delete request and
      behind the zero block. */
  datatype Request =
    | SetReq(data: seq<byte>, accepted: bool)
    | AddReq(data: seq<byte>, accepted: bool)
    | DeleteReq(data: seq<byte>, accepted: bool, after: seq<byte>, beyond: seq<byte>)

  ghost function OpOf(q: Request): Op {
    match q
    case SetReq(data, _) => SetTo(data)
    case AddReq(data, _) => AddTo(data)
    case DeleteReq(data, _, after, beyond) => DeleteFrom(data, data + after, Zeros(1024) + beyond)
  }

  /** Well-formed data and a favourable verdict are all it takes. */
  predicate Succeeds(q: Request) { Parse(q.data).Ok? && q.accepted }

  /** The operations a sequence of requests comes to. */
  ghost function OpsOf(reqs: seq<Request>): seq<Op> {
    if reqs == [] then []
    else OpsOf(reqs[..|reqs| - 1]) + if Succeeds(reqs[|reqs| - 1]) then [OpOf(reqs[|reqs| - 1])] else []
  }

  /** Carries out one request on the index. */
  method Perform(index: Index, q: Request) returns (ok: bool)
    requires index.Fresh() && Parse(index.file).Ok? && (q.DeleteReq? ==> |q.beyond| >= 65536)
    modifies index
    ensures index.Fresh() && Parse(index.file).Ok? && ok == Succeeds(q)
    ensures ok ==> FileStep(old(index.file), OpOf(q), index.file) && index.InSync()
    ensures !ok ==> index.file == old(index.file)
  {
    hide ParseFrom, LiveOf, BuryOne, Pad, SelectedBy, Linked, Survivors;
    ghost var file := index.file;
    match q
    case SetReq(data, accepted) => ok := index.Set(data, accepted);
    case AddReq(data, accepted) => ok := index.Add(data, accepted);
    case DeleteReq(data, accepted, after, beyond) =>
      ghost var gone;
      ok, gone := index.Delete(data, after, beyond, accepted);
      if ok {
        Covers(file, Zeros(1024) + beyond);
        ShroudZero(beyond);
        assert Selects(Parse(file).records, gone, data + after, Parse(data).records);
      }
  }

  /** Any sequence of requests on the index: the files it leaves make a run of the operations that succeeded, the live
      records of the last one are the administrator's list, and memory is in step with it whenever the last request
      succeeded. */
  method Execute(index: Index, reqs: seq<Request>) returns (ghost files: seq<seq<byte>>, ok: bool)
    requires index.Fresh() && Parse(index.file).Ok?
    requires forall i :: 0 <= i < |reqs| && reqs[i].DeleteReq? ==> |reqs[i].beyond| >= 65536
    modifies index
    ensures FileRun(files, OpsOf(reqs)) && files[0] == old(index.file) && files[|OpsOf(reqs)|] == index.file
    ensures forall i :: 0 <= i < |OpsOf(reqs)| ==> Parse(OpsOf(reqs)[i].data).Ok?
    ensures Parse(index.file).Ok? && Whitelist(index.file) == ListRun(Whitelist(old(index.file)), OpsOf(reqs))
    ensures reqs != [] ==> ok == Succeeds(reqs[|reqs| - 1])
    ensures ok ==> index.InSync()
  {
    hide Parse, FileStep, OpOf, Succeeds, Whitelist;
    files := [index.file];
    ok := false;
    var i := 0;
    assert reqs[..0] == [];
    while i < |reqs|
      invariant 0 <= i <= |reqs| && index.Fresh() && Parse(index.file).Ok?
      invariant FileRun(files, OpsOf(reqs[..i])) && files[0] == old(index.file) && files[|files| - 1] == index.file
      invariant i > 0 ==> ok == Succeeds(reqs[i - 1])
      invariant ok ==> i > 0 && index.InSync()
    {
      ghost var ops := OpsOf(reqs[..i]);
      assert reqs[..i + 1][..i] == reqs[..i];
      ok := Perform(index, reqs[i]);
      if ok {
        RunNext(files, ops, OpOf(reqs[i]), index.file);
        files := files + [index.file];
      }
      i := i + 1;
    }
    assert reqs[..i] == reqs;
    RunRefines(files, OpsOf(reqs));
  }

  lemma RunNext(files: seq<seq<byte>>, ops: seq<Op>, op: Op, file: seq<byte>)
    requires FileRun(files, ops) && FileStep(files[|ops|], op, file)
    ensures FileRun(files + [file], ops + [op])
  {
    hide FileStep, Parse;
    var fs, os := files + [file], ops + [op];
    forall i | 0 <= i < |os|
      ensures FileStep(fs[i], os[i], fs[i + 1])
    {
      if i < |ops| {
        assert FileStep(files[i], ops[i], files[i + 1]);
      }
    }
  }
}
