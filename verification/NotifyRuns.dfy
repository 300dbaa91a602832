/**
  Whole runs of the notifier: readers that open and close, notices that are posted, fetched and, when the
  ring is full or is resized, dropped.

  Every step is one critical section of `notify.c`; the queue operations are the ones `RingQueue` is proved
  to perform.  Each open reader carries a history: what was posted since it opened, and what became of
  each notice.  The central invariant is that what a reader is still owed is a suffix of the queue.
*/
module NotifyRuns {
  import opened NotifyRing

  datatype Event<N> = Got(notice: N) | Lost(notice: N)

  /** An open reader: its counter `notify_sum`, notices taken but not yet subtracted from it, and its history. */
  datatype Reader<N> = Reader(sum: nat, inflight: nat, sent: seq<N>, log: seq<Event<N>>)

  datatype State<N> = State(items: seq<Slot<N>>, cap: nat, readers: map<nat, Reader<N>>)

  datatype Op<N> =
    | Open(r: nat)
    | Close(r: nat)
    | Post(notice: N)
    | Take(r: nat)       // retrieve_queue, under the lock
    | Settle(r: nat)     // atomic_dec of notify_sum, after it
    | Resize(length: nat)

  function Notices<N>(log: seq<Event<N>>): seq<N> {
    if log == [] then [] else Notices(log[..|log| - 1]) + [log[|log| - 1].notice]
  }

  predicate LegalLength(length: nat) {
    MIN_BUF_ITEMS_NUM <= length <= MAX_BUF_ITEMS_NUM
  }

  // ----- Steps -----

  /** Every reader in `bits` loses `notice`. */
  function Lose<N>(readers: map<nat, Reader<N>>, bits: set<nat>, notice: N): map<nat, Reader<N>> {
    map r | r in readers :: if r in bits then readers[r].(log := readers[r].log + [Lost(notice)]) else readers[r]
  }

  /** Drops the oldest slots until `n` are left. */
  function Trim<N>(s: State<N>, n: nat): State<N>
    decreases |s.items|
  {
    if |s.items| <= n then s
    else Trim(s.(items := s.items[1..], readers := Lose(s.readers, s.items[0].bits, s.items[0].notice)), n)
  }

  function Append<N>(s: State<N>, notice: N): State<N> {
    s.(items := s.items + [Slot(s.readers.Keys, notice)],
       readers := map r | r in s.readers ::
         var x := s.readers[r];
         x.(sum := if x.sum < s.cap then x.sum + 1 else x.sum, sent := x.sent + [notice]))
  }

  function Recount<N>(s: State<N>): State<N> {
    s.(readers := map r | r in s.readers :: s.readers[r].(sum := |Pending(s.items, r)|))
  }

  function Step<N>(s: State<N>, op: Op<N>): State<N> {
    match op
    case Open(r) =>
      if r in s.readers || r >= MAX_CONCURR_PROCESS then s
      else s.(readers := s.readers[r := Reader(0, 0, [], [])])
    case Close(r) =>
      if r !in s.readers then s else s.(items := ClearAll(s.items, r), readers := s.readers - {r})
    case Post(notice) =>
      if s.readers.Keys == {} then s else Append(if s.cap > 0 then Trim(s, s.cap - 1) else s, notice)
    case Take(r) =>
      var k := FirstOwed(s.items, r);
      if r !in s.readers || k == |s.items| then s
      else
        var x := s.readers[r];
        s.(items := AfterRetrieve(s.items, r),
           readers := s.readers[r := x.(inflight := x.inflight + 1, log := x.log + [Got(s.items[k].notice)])])
    case Settle(r) =>
      if r !in s.readers || s.readers[r].inflight == 0 then s
      else
        var x := s.readers[r];
        s.(readers := s.readers[r := x.(inflight := x.inflight - 1, sum := if x.sum > 0 then x.sum - 1 else 0)])
    case Resize(length) =>
      var len := if LegalLength(length) then length else DEFAULT_BUF_ITEMS_NUM;
      if length == s.cap + 1 then s else Recount(Trim(s, len - 1).(cap := len - 1))
  }

  function Run<N>(ops: seq<Op<N>>): State<N> {
    if ops == [] then State([], DEFAULT_BUF_ITEMS_NUM - 1, map[])
    else Step(Run(ops[..|ops| - 1]), ops[|ops| - 1])
  }

  // ----- Invariants -----

  /** What any reader is owed is a suffix of the queue. */
  ghost predicate Suffix<N>(items: seq<Slot<N>>) {
    forall i, j :: 0 <= i <= j < |items| ==> items[i].bits <= items[j].bits
  }

  ghost predicate OnlyOpen<N>(items: seq<Slot<N>>, open: set<nat>) {
    forall i :: 0 <= i < |items| ==> items[i].bits <= open
  }

  /** Everything posted since the reader opened was fetched or lost, in order, or is still queued for it. */
  ghost predicate Accounted<N>(items: seq<Slot<N>>, r: nat, x: Reader<N>) {
    x.sent == Notices(x.log) + Pending(items, r)
  }

  ghost predicate Inv<N>(s: State<N>) {
    && MIN_BUF_ITEMS_NUM - 1 <= s.cap && |s.items| <= s.cap
    && Suffix(s.items) && OnlyOpen(s.items, s.readers.Keys)
    && (forall r :: r in s.readers ==> Accounted(s.items, r, s.readers[r]))
    && (forall r :: r in s.readers ==> s.readers[r].sum <= |Pending(s.items, r)| + s.readers[r].inflight)
  }

  // ----- Lemmas on the specification functions -----

  lemma NoticesSnoc<N>(log: seq<Event<N>>, e: Event<N>)
    ensures Notices(log + [e]) == Notices(log) + [e.notice]
  {
    assert (log + [e])[..|log|] == log;
  }

  lemma {:induction false} PendingNone<N>(items: seq<Slot<N>>, r: nat)
    requires forall i :: 0 <= i < |items| ==> r !in items[i].bits
    ensures Pending(items, r) == []
    decreases |items|
  {
    if items != [] { PendingNone(items[1..], r); }
  }

  lemma {:induction false} PendingClear<N>(items: seq<Slot<N>>, r: nat, q: nat)
    requires q != r
    ensures Pending(ClearAll(items, r), q) == Pending(items, q)
    decreases |items|
  {
    if items != [] {
      PendingClear(items[1..], r, q);
      assert ClearAll(items, r)[1..] == ClearAll(items[1..], r);
    }
  }

  /** With the suffix property, a reader owed the oldest slot is owed every slot. */
  lemma {:induction false} PendingAll<N>(items: seq<Slot<N>>, r: nat)
    requires forall i :: 0 <= i < |items| ==> r in items[i].bits
    ensures |Pending(items, r)| == |items|
    decreases |items|
  {
    if items != [] { PendingAll(items[1..], r); }
  }

  /** Clearing `r` at its oldest owed slot removes that notice from what it is owed, and nobody else's. */
  lemma {:induction false} PendingClearAt<N>(items: seq<Slot<N>>, r: nat, q: nat)
    requires FirstOwed(items, r) < |items|
    ensures var k := FirstOwed(items, r);
            && (q != r ==> Pending(ClearAt(items, k, r), q) == Pending(items, q))
            && Pending(items, r) == [items[k].notice] + Pending(ClearAt(items, k, r), r)
    decreases |items|
  {
    var k := FirstOwed(items, r);
    var c := ClearAt(items, k, r);
    if k == 0 {
      assert c[1..] == items[1..];
    } else {
      PendingClearAt(items[1..], r, q);
      assert c[1..] == ClearAt(items[1..], k - 1, r) && c[0] == items[0] && items[1..][k - 1] == items[k];
    }
  }

  /** The head popped inside `retrieve_queue` is owed to nobody: its bits are among those of the slot just read. */
  lemma PoppedHeadUnowed<N>(items: seq<Slot<N>>, r: nat)
    requires Suffix(items) && FirstOwed(items, r) < |items|
    requires items[FirstOwed(items, r)].bits - {r} == {}
    ensures ClearAt(items, FirstOwed(items, r), r)[0].bits == {}
  {
    var k := FirstOwed(items, r);
    assert items[0].bits <= items[k].bits;
  }

  lemma PendingPopUnowed<N>(items: seq<Slot<N>>, q: nat)
    requires items != [] && items[0].bits == {}
    ensures Pending(items[1..], q) == Pending(items, q)
  {
  }

  /** A retrieval hands `r` its oldest owed notice and takes nothing away from anyone else. */
  lemma RetrieveEffect<N>(items: seq<Slot<N>>, r: nat, q: nat)
    requires Suffix(items) && FirstOwed(items, r) < |items|
    ensures Pending(items, r) == [items[FirstOwed(items, r)].notice] + Pending(AfterRetrieve(items, r), r)
    ensures q != r ==> Pending(AfterRetrieve(items, r), q) == Pending(items, q)
  {
    hide Pending, FirstOwed;
    var k := FirstOwed(items, r);
    var c := ClearAt(items, k, r);
    PendingClearAt(items, r, q);
    if items[k].bits - {r} == {} {
      PoppedHeadUnowed(items, r);
      PendingPopUnowed(c, r);
      PendingPopUnowed(c, q);
    }
  }

  lemma RetrieveKeepsSuffix<N>(items: seq<Slot<N>>, r: nat, open: set<nat>)
    requires Suffix(items) && OnlyOpen(items, open)
    ensures Suffix(AfterRetrieve(items, r)) && OnlyOpen(AfterRetrieve(items, r), open)
    ensures |AfterRetrieve(items, r)| <= |items|
  {
    var k := FirstOwed(items, r);
    if k < |items| {
      var c := ClearAt(items, k, r);
      forall i, j | 0 <= i <= j < |c|
        ensures c[i].bits <= c[j].bits
      {
        assert items[i].bits <= items[j].bits;
      }
      TailKeepsSuffix(c, open);
    }
  }

  lemma TailKeepsSuffix<N>(items: seq<Slot<N>>, open: set<nat>)
    requires Suffix(items) && OnlyOpen(items, open) && items != []
    ensures Suffix(items[1..]) && OnlyOpen(items[1..], open)
  {
    var t := items[1..];
    forall i, j | 0 <= i <= j < |t|
      ensures t[i].bits <= t[j].bits
    {
      assert items[i + 1].bits <= items[j + 1].bits;
    }
  }

  // ----- Each step keeps the invariant -----

  lemma OpenKeeps<N>(s: State<N>, r: nat)
    requires Inv(s)
    ensures Inv(Step(s, Open(r)))
  {
    if r !in s.readers && r < MAX_CONCURR_PROCESS {
      var s' := Step(s, Open(r));
      assert OnlyOpen(s'.items, s'.readers.Keys);
      forall i | 0 <= i < |s.items|
        ensures r !in s.items[i].bits
      {
        assert s.items[i].bits <= s.readers.Keys;
      }
      PendingNone(s.items, r);
      assert Accounted(s'.items, r, s'.readers[r]);
    }
  }

  lemma CloseKeeps<N>(s: State<N>, r: nat)
    requires Inv(s)
    ensures Inv(Step(s, Close(r)))
  {
    hide Pending, Notices;
    if r in s.readers {
      var s' := Step(s, Close(r));
      forall i, j | 0 <= i <= j < |s'.items|
        ensures s'.items[i].bits <= s'.items[j].bits
      {
        assert s.items[i].bits <= s.items[j].bits;
      }
      assert OnlyOpen(s'.items, s'.readers.Keys);
      forall q | q in s'.readers
        ensures Accounted(s'.items, q, s'.readers[q]) && Pending(s'.items, q) == Pending(s.items, q)
      {
        assert Accounted(s.items, q, s.readers[q]);
        PendingClear(s.items, r, q);
      }
    }
  }

  lemma TakeKeeps<N>(s: State<N>, r: nat)
    requires Inv(s)
    ensures Inv(Step(s, Take(r)))
  {
    hide Pending, Notices, FirstOwed, AfterRetrieve;
    var k := FirstOwed(s.items, r);
    if r in s.readers && k < |s.items| {
      var s' := Step(s, Take(r));
      RetrieveKeepsSuffix(s.items, r, s.readers.Keys);
      forall q | q in s'.readers
        ensures Accounted(s'.items, q, s'.readers[q])
        ensures s'.readers[q].sum <= |Pending(s'.items, q)| + s'.readers[q].inflight
      {
        assert Accounted(s.items, q, s.readers[q]);
        RetrieveEffect(s.items, r, q);
        NoticesSnoc(s.readers[r].log, Got(s.items[k].notice));
      }
    }
  }

  lemma SettleKeeps<N>(s: State<N>, r: nat)
    requires Inv(s)
    ensures Inv(Step(s, Settle(r)))
  {
    hide Pending, Notices;
    var s' := Step(s, Settle(r));
    forall q | q in s'.readers
      ensures Accounted(s'.items, q, s'.readers[q])
    {
      assert Accounted(s.items, q, s.readers[q]);
    }
  }

  /** The part of the invariant that dropping the oldest slots keeps; counters are settled afterwards. */
  ghost predicate TrimInv<N>(s: State<N>) {
    && Suffix(s.items) && OnlyOpen(s.items, s.readers.Keys)
    && forall r :: r in s.readers ==> Accounted(s.items, r, s.readers[r])
  }

  lemma DropAccounted<N>(items: seq<Slot<N>>, r: nat, x: Reader<N>)
    requires items != [] && Accounted(items, r, x)
    ensures Accounted(items[1..], r, if r in items[0].bits then x.(log := x.log + [Lost(items[0].notice)]) else x)
  {
    hide Notices, Pending;
    var n, done, rest := items[0].notice, Notices(x.log), Pending(items[1..], r);
    NoticesSnoc(x.log, Lost(n));
    PendingHead(items, r);
    assert done + ([n] + rest) == (done + [n]) + rest;
  }

  lemma PendingHead<N>(items: seq<Slot<N>>, r: nat)
    requires items != []
    ensures r in items[0].bits ==> Pending(items, r) == [items[0].notice] + Pending(items[1..], r)
    ensures r !in items[0].bits ==> Pending(items, r) == Pending(items[1..], r)
  {
  }

  lemma DropKeeps<N>(s: State<N>)
    requires TrimInv(s) && s.items != []
    ensures TrimInv(s.(items := s.items[1..], readers := Lose(s.readers, s.items[0].bits, s.items[0].notice)))
  {
    hide Accounted;
    var s' := s.(items := s.items[1..], readers := Lose(s.readers, s.items[0].bits, s.items[0].notice));
    TailKeepsSuffix(s.items, s.readers.Keys);
    assert s'.readers.Keys == s.readers.Keys;
    forall q | q in s'.readers
      ensures Accounted(s'.items, q, s'.readers[q])
    {
      DropAccounted(s.items, q, s.readers[q]);
    }
  }

  lemma {:induction false} TrimKeeps<N>(s: State<N>, n: nat)
    requires TrimInv(s)
    ensures TrimInv(Trim(s, n)) && Trim(s, n).items == Newest(s.items, n)
    ensures Trim(s, n).readers.Keys == s.readers.Keys && Trim(s, n).cap == s.cap
    ensures forall r :: r in s.readers ==>
              Trim(s, n).readers[r].sum == s.readers[r].sum && Trim(s, n).readers[r].inflight == s.readers[r].inflight
    decreases |s.items|
  {
    hide TrimInv, Lose, Trim;
    TrimStep(s, n);
    if |s.items| > n {
      var s' := s.(items := s.items[1..], readers := Lose(s.readers, s.items[0].bits, s.items[0].notice));
      DropKeeps(s);
      LoseKeeps(s.readers, s.items[0].bits, s.items[0].notice);
      TrimKeeps(s', n);
      assert Newest(s'.items, n) == Newest(s.items, n);
    }
  }

  /** What each step does to the queue, by the contracts of the ring operations it stands for. */
  lemma StepItems<N>(s: State<N>, op: Op<N>)
    requires Inv(s)
    ensures Step(s, op).items ==
            match op
            case Open(_) => s.items
            case Close(r) => if r in s.readers then ClearAll(s.items, r) else s.items
            case Post(notice) =>
              if s.readers.Keys == {} then s.items else Newest(s.items, s.cap - 1) + [Slot(s.readers.Keys, notice)]
            case Take(r) => if r in s.readers then AfterRetrieve(s.items, r) else s.items
            case Settle(_) => s.items
            case Resize(length) =>
              if length == s.cap + 1 then s.items
              else Newest(s.items, (if LegalLength(length) then length else DEFAULT_BUF_ITEMS_NUM) - 1)
    ensures Step(s, op).readers.Keys ==
            match op
            case Open(r) => if r < MAX_CONCURR_PROCESS then s.readers.Keys + {r} else s.readers.Keys
            case Close(r) => s.readers.Keys - {r}
            case _ => s.readers.Keys
    ensures Step(s, op).cap ==
            if op.Resize? && op.length != s.cap + 1
            then (if LegalLength(op.length) then op.length else DEFAULT_BUF_ITEMS_NUM) - 1
            else s.cap
  {
    hide Trim, Pending, ClearAll, Newest;
    match op
    case Post(_) => TrimKeeps(s, s.cap - 1);
    case Resize(length) => TrimKeeps(s, (if LegalLength(length) then length else DEFAULT_BUF_ITEMS_NUM) - 1);
    case _ =>
  }

  lemma TrimStep<N>(s: State<N>, n: nat)
    ensures Trim(s, n) == if |s.items| <= n then s
            else Trim(s.(items := s.items[1..], readers := Lose(s.readers, s.items[0].bits, s.items[0].notice)), n)
  {
  }

  lemma LoseKeeps<N>(readers: map<nat, Reader<N>>, bits: set<nat>, notice: N)
    ensures Lose(readers, bits, notice).Keys == readers.Keys
    ensures forall r :: r in readers ==>
              Lose(readers, bits, notice)[r].sum == readers[r].sum && Lose(readers, bits, notice)[r].inflight == readers[r].inflight
  {
  }

  lemma AppendKeeps<N>(s: State<N>, notice: N)
    requires TrimInv(s)
    ensures TrimInv(Append(s, notice))
    ensures forall r :: r in s.readers ==> |Pending(Append(s, notice).items, r)| == |Pending(s.items, r)| + 1
  {
    hide Notices, Pending;
    var s' := Append(s, notice);
    assert s'.readers.Keys == s.readers.Keys;
    forall i, j | 0 <= i <= j < |s'.items|
      ensures s'.items[i].bits <= s'.items[j].bits
    {
      if j < |s.items| { assert s.items[i].bits <= s.items[j].bits; }
      else if i < |s.items| { assert s.items[i].bits <= s.readers.Keys; }
    }
    forall q | q in s'.readers
      ensures Accounted(s'.items, q, s'.readers[q]) && |Pending(s'.items, q)| == |Pending(s.items, q)| + 1
    {
      assert Accounted(s.items, q, s.readers[q]);
      PendingAppend(s.items, [Slot(s.readers.Keys, notice)], q);
      PendingOne(Slot(s.readers.Keys, notice), q);
    }
  }

  lemma PendingOne<N>(x: Slot<N>, q: nat)
    requires q in x.bits
    ensures Pending([x], q) == [x.notice]
  {
  }

  /** What dropping the oldest slot does to a reader's count: nothing, unless it was owed the whole queue. */
  lemma DropCount<N>(items: seq<Slot<N>>, r: nat)
    requires Suffix(items) && items != []
    ensures r !in items[0].bits ==> Pending(items[1..], r) == Pending(items, r)
    ensures r in items[0].bits ==> |Pending(items, r)| == |items| && |Pending(items[1..], r)| == |items| - 1
  {
    if r in items[0].bits {
      forall i | 0 <= i < |items|
        ensures r in items[i].bits
      {
        assert items[0].bits <= items[i].bits;
      }
      PendingAll(items, r);
    }
  }

  lemma PostKeeps<N>(s: State<N>, notice: N)
    requires Inv(s)
    ensures Inv(Step(s, Post(notice)))
  {
    hide Notices, Pending;
    if s.readers.Keys != {} {
      var m := Trim(s, s.cap - 1);
      var s' := Append(m, notice);
      TrimKeeps(s, s.cap - 1);
      AppendKeeps(m, notice);
      forall r | r in s'.readers
        ensures s'.readers[r].sum <= |Pending(s'.items, r)| + s'.readers[r].inflight
      {
        TrimCount(s.items, s.cap, r);
      }
    }
  }

  /** Making room in a full queue costs a reader a notice only if all of the queue was owed to it. */
  lemma TrimCount<N>(items: seq<Slot<N>>, cap: nat, r: nat)
    requires Suffix(items) && |items| <= cap && cap > 0
    ensures |Pending(Newest(items, cap - 1), r)| ==
            if |Pending(items, r)| == cap then cap - 1 else |Pending(items, r)|
  {
    PendingBound(items, r);
    if |items| == cap {
      DropCount(items, r);
      PendingBound(items[1..], r);
    }
  }

  lemma {:induction false} PendingBound<N>(items: seq<Slot<N>>, r: nat)
    ensures |Pending(items, r)| <= |items|
    decreases |items|
  {
    if items != [] { PendingBound(items[1..], r); }
  }

  lemma ResizeKeeps<N>(s: State<N>, length: nat)
    requires Inv(s)
    ensures Inv(Step(s, Resize(length)))
  {
    hide Notices, Pending;
    var len := if LegalLength(length) then length else DEFAULT_BUF_ITEMS_NUM;
    if length != s.cap + 1 {
      var m := Trim(s, len - 1);
      TrimKeeps(s, len - 1);
      var s' := Recount(m.(cap := len - 1));
      assert s'.readers.Keys == m.readers.Keys;
      forall q | q in s'.readers
        ensures Accounted(s'.items, q, s'.readers[q])
      {
        assert Accounted(m.items, q, m.readers[q]);
      }
    }
  }

  // ----- Runs -----

  /** In every reachable state what each reader is owed is a suffix of the queue, and nothing is unaccounted for. */
  lemma {:induction false} RunsKeepInv<N>(ops: seq<Op<N>>)
    ensures Inv(Run(ops))
    decreases |ops|
  {
    if ops == [] {
      assert Inv(Run<N>([]));
    } else {
      var s := Run(ops[..|ops| - 1]);
      RunsKeepInv(ops[..|ops| - 1]);
      match ops[|ops| - 1]
      case Open(r) => OpenKeeps(s, r);
      case Close(r) => CloseKeeps(s, r);
      case Post(notice) => PostKeeps(s, notice);
      case Take(r) => TakeKeeps(s, r);
      case Settle(r) => SettleKeeps(s, r);
      case Resize(length) => ResizeKeeps(s, length);
    }
  }

  function Received<N>(log: seq<Event<N>>): seq<N> {
    if log == [] then []
    else Received(log[..|log| - 1]) + if log[|log| - 1].Got? then [log[|log| - 1].notice] else []
  }

  lemma {:induction false} NothingLost<N>(log: seq<Event<N>>)
    requires forall i :: 0 <= i < |log| ==> log[i].Got?
    ensures Received(log) == Notices(log)
    decreases |log|
  {
    if log != [] { NothingLost(log[..|log| - 1]); }
  }

  /** Without drops, an open reader has received everything posted since it opened, once and in order,
      except what is still queued for it. */
  lemma ExactDelivery<N>(ops: seq<Op<N>>, r: nat)
    requires r in Run(ops).readers
    requires forall i :: 0 <= i < |Run(ops).readers[r].log| ==> Run(ops).readers[r].log[i].Got?
    ensures var x := Run(ops).readers[r];
            x.sent == Received(x.log) + Pending(Run(ops).items, r)
  {
    RunsKeepInv(ops);
    var x := Run(ops).readers[r];
    assert Accounted(Run(ops).items, r, x);
    NothingLost(x.log);
  }

  /** No retrieval in any run drops a slot that is still owed to somebody. */
  lemma NoOwedSlotPopped<N>(ops: seq<Op<N>>, r: nat)
    ensures var items := Run(ops).items;
            var k := FirstOwed(items, r);
            k < |items| && items[k].bits - {r} == {} ==> ClearAt(items, k, r)[0].bits == {}
  {
    RunsKeepInv(ops);
    var items := Run(ops).items;
    var k := FirstOwed(items, r);
    if k < |items| && items[k].bits - {r} == {} {
      PoppedHeadUnowed(items, r);
    }
  }

  // ----- Channel count and retrievals -----

  /** What `r` gets by fetching until nothing is left. */
  function Drain<N>(items: seq<Slot<N>>, r: nat, fuel: nat): seq<N>
    decreases fuel
  {
    var k := FirstOwed(items, r);
    if fuel == 0 || k == |items| then [] else [items[k].notice] + Drain(AfterRetrieve(items, r), r, fuel - 1)
  }

  /** `get_channel_num` is exactly the number of successful retrievals left, and they come in queue order. */
  lemma {:induction false} DrainIsPending<N>(items: seq<Slot<N>>, r: nat, open: set<nat>, fuel: nat)
    requires Suffix(items) && OnlyOpen(items, open) && |Pending(items, r)| <= fuel
    ensures Drain(items, r, fuel) == Pending(items, r)
    decreases fuel
  {
    var k := FirstOwed(items, r);
    if k == |items| {
      PendingNone(items, r);
    } else {
      RetrieveEffect(items, r, r);
      RetrieveKeepsSuffix(items, r, open);
      if fuel > 0 {
        DrainIsPending(AfterRetrieve(items, r), r, open, fuel - 1);
      }
    }
  }

  // ----- The reader's counter -----

  /** `notify_sum` counts what is queued plus what was taken and not yet subtracted. */
  ghost predicate SumExact<N>(s: State<N>, r: nat)
    requires r in s.readers
  {
    s.readers[r].sum == |Pending(s.items, r)| + s.readers[r].inflight
  }

  /** The two windows in which an exact counter is lost. Both need a reader that has taken notices without having
      subtracted them yet: a post that finds them, together with what is queued, reaching the capacity, so that it
      does not count; and a change of the queue length, which recounts what is queued and forgets them. */
  ghost predicate Window<N>(s: State<N>, op: Op<N>, r: nat)
    requires r in s.readers
  {
    var x := s.readers[r];
    match op
    case Post(_) => |Pending(s.items, r)| < s.cap <= |Pending(s.items, r)| + x.inflight
    case Resize(length) => length != s.cap + 1 && x.inflight > 0
    case _ => false
  }

  lemma PostKeepsSumExact<N>(s: State<N>, notice: N, r: nat)
    requires Inv(s) && r in s.readers && SumExact(s, r)
    ensures r in Step(s, Post(notice)).readers
    ensures SumExact(Step(s, Post(notice)), r) <==> !Window(s, Post(notice), r)
  {
    hide Pending, Notices;
    assert s.readers.Keys != {};
    var m := Trim(s, s.cap - 1);
    TrimKeeps(s, s.cap - 1);
    AppendKeeps(m, notice);
    TrimCount(s.items, s.cap, r);
    PendingBound(s.items, r);
  }

  lemma ResizeKeepsSumExact<N>(s: State<N>, length: nat, r: nat)
    requires Inv(s) && r in s.readers && SumExact(s, r)
    ensures r in Step(s, Resize(length)).readers
    ensures SumExact(Step(s, Resize(length)), r) <==> !Window(s, Resize(length), r)
  {
    hide Pending, Notices;
    if length != s.cap + 1 {
      var len := if LegalLength(length) then length else DEFAULT_BUF_ITEMS_NUM;
      var m := Trim(s, len - 1);
      TrimKeeps(s, len - 1);
      assert m.readers[r].inflight == s.readers[r].inflight;
    }
  }

  lemma TakeKeepsSumExact<N>(s: State<N>, q: nat, r: nat)
    requires Inv(s) && r in s.readers && SumExact(s, r)
    ensures r in Step(s, Take(q)).readers && SumExact(Step(s, Take(q)), r)
  {
    hide Pending, Notices, FirstOwed, AfterRetrieve;
    if q in s.readers && FirstOwed(s.items, q) < |s.items| {
      RetrieveEffect(s.items, q, r);
    }
  }

  /** Exactly the two windows break an exact counter; every other step of any reader or writer keeps it. */
  lemma StepKeepsSumExact<N>(s: State<N>, op: Op<N>, r: nat)
    requires Inv(s) && r in s.readers && SumExact(s, r) && r in Step(s, op).readers
    ensures SumExact(Step(s, op), r) <==> !Window(s, op, r)
  {
    hide Pending, Notices, FirstOwed, AfterRetrieve;
    match op
    case Open(q) =>
    case Close(q) => PendingClear(s.items, q, r);
    case Post(notice) => PostKeepsSumExact(s, notice, r);
    case Take(q) => TakeKeepsSumExact(s, q, r);
    case Settle(q) =>
    case Resize(length) => ResizeKeepsSumExact(s, length, r);
  }

  /** A reader that has just opened has an exact counter. */
  lemma OpenSumExact<N>(s: State<N>, op: Op<N>, r: nat)
    requires Inv(s) && r !in s.readers && r in Step(s, op).readers
    ensures SumExact(Step(s, op), r)
  {
    match op
    case Open(q) =>
      forall i | 0 <= i < |s.items|
        ensures r !in s.items[i].bits
      {
        assert s.items[i].bits <= s.readers.Keys;
      }
      PendingNone(s.items, r);
    case Post(notice) =>
      if s.readers.Keys != {} { TrimKeeps(s, s.cap - 1); }
    case Resize(length) =>
      TrimKeeps(s, (if LegalLength(length) then length else DEFAULT_BUF_ITEMS_NUM) - 1);
    case _ =>
  }

  /** No step of the run meets a window of reader `r`. */
  ghost predicate NoWindow<N>(ops: seq<Op<N>>, r: nat) {
    forall k :: 0 <= k < |ops| && r in Run(ops[..k]).readers ==> !Window(Run(ops[..k]), ops[k], r)
  }

  /** In every run that meets no window, the counter of an open reader is what is queued for it plus what it has taken
      and not subtracted yet. */
  lemma {:induction false} RunsKeepSumExact<N>(ops: seq<Op<N>>, r: nat)
    requires NoWindow(ops, r) && r in Run(ops).readers
    ensures SumExact(Run(ops), r)
    decreases |ops|
  {
    hide SumExact, Window, Step;
    assert ops != [] by { assert Run<N>([]).readers == map[]; }
    var n := |ops| - 1;
    var before := ops[..n];
    RunsKeepInv(before);
    if r in Run(before).readers {
      assert NoWindow(before, r) by {
        forall k | 0 <= k < n && r in Run(before[..k]).readers
          ensures !Window(Run(before[..k]), before[k], r)
        {
          assert before[..k] == ops[..k];
        }
      }
      RunsKeepSumExact(before, r);
      StepKeepsSumExact(Run(before), ops[n], r);
    } else {
      OpenSumExact(Run(before), ops[n], r);
    }
  }

  // ----- A run that meets a window -----

  function Posts(n: nat): (ops: seq<Op<int>>)
    ensures |ops| == n && forall k :: 0 <= k < n ==> ops[k] == Post(0)
  {
    if n == 0 then [] else Posts(n - 1) + [Post(0)]
  }

  function Setup(): seq<Op<int>> { [Resize(100), Open(0)] }

  lemma RunSnoc<N>(ops: seq<Op<N>>, op: Op<N>)
    ensures Run(ops + [op]) == Step(Run(ops), op)
  {
    assert (ops + [op])[..|ops|] == ops;
  }

  /** One reader, `n` notices queued for it, nothing fetched. */
  ghost predicate Waiting(s: State<int>, n: nat) {
    && s.cap == 99 && |s.items| == n && s.readers.Keys == {0}
    && (forall i :: 0 <= i < n ==> s.items[i].bits == {0})
    && s.readers[0].sum == n && s.readers[0].inflight == 0
  }

  lemma SetupWaits()
    ensures Waiting(Run(Setup()), 0)
  {
    var first: seq<Op<int>> := [Resize(100)];
    RunSnoc<int>([], Resize(100));
    RunSnoc(first, Open(0));
    assert [] + first == first && first + [Open(0)] == Setup();
    var s0 := Run<int>([]);
    assert s0 == State([], 499, map[]);
    assert Step(s0, Resize(100)).readers == map[];
  }

  lemma {:induction false} PostsWait(n: nat)
    requires n <= 99
    ensures Waiting(Run(Setup() + Posts(n)), n)
  {
    if n == 0 {
      assert Setup() + Posts(0) == Setup();
      SetupWaits();
    } else {
      PostsWait(n - 1);
      var before := Setup() + Posts(n - 1);
      assert Setup() + Posts(n) == before + [Post(0)];
      RunSnoc(before, Post(0));
      PostWaits(Run(before), n - 1);
    }
  }

  lemma PostWaits(s: State<int>, n: nat)
    requires Waiting(s, n) && n < 99
    ensures Waiting(Step(s, Post(0)), n + 1)
  {
    assert 0 in s.readers.Keys;
    assert Trim(s, 98) == s;
    var s' := Step(s, Post(0));
    assert s'.readers.Keys == {0};
  }

  /** A reader takes one notice of a full queue, and a notice is posted before the reader has subtracted it: from then
      on the counter is one short of what is owed. */
  lemma SumWindowReachable()
    ensures var s := Run(Setup() + Posts(99) + [Take(0), Post(7), Settle(0)]);
            0 in s.readers && s.readers[0].inflight == 0 && s.readers[0].sum == |Pending(s.items, 0)| - 1
  {
    hide Pending, Run, Step, AfterRetrieve;
    var ops := Setup() + Posts(99);
    PostsWait(99);
    RunSnoc(ops, Take(0));
    RunSnoc(ops + [Take(0)], Post(7));
    RunSnoc(ops + [Take(0)] + [Post(7)], Settle(0));
    assert ops + [Take(0)] + [Post(7)] + [Settle(0)] == ops + [Take(0), Post(7), Settle(0)];
    var s := Run(ops);
    RunsKeepInv(ops);
    RunsKeepInv(ops + [Take(0)]);
    FullTaken(s);
    PostUncounted(Step(s, Take(0)));
  }

  lemma FullTaken(s: State<int>)
    requires Inv(s) && Waiting(s, 99)
    ensures var t := Step(s, Take(0));
            0 in t.readers && t.cap == 99 && t.readers[0].sum == 99 && t.readers[0].inflight == 1 && |Pending(t.items, 0)| == 98
  {
    hide Pending;
    PendingAll(s.items, 0);
    assert FirstOwed(s.items, 0) == 0;
    RetrieveEffect(s.items, 0, 0);
  }

  lemma PostUncounted(t: State<int>)
    requires Inv(t) && 0 in t.readers && t.cap == 99
    requires t.readers[0].sum == 99 && t.readers[0].inflight == 1 && |Pending(t.items, 0)| == 98
    ensures var u := Step(Step(t, Post(7)), Settle(0));
            0 in u.readers && u.readers[0].inflight == 0 && u.readers[0].sum == 98 && |Pending(u.items, 0)| == 99
  {
    hide Pending, Notices;
    assert t.readers.Keys != {};
    var m := Trim(t, 98);
    TrimKeeps(t, 98);
    AppendKeeps(m, 7);
    TrimCount(t.items, 99, 0);
  }

  /** The other window: the queue is resized between taking and subtracting. */
  lemma ResizeWindowReachable()
    ensures var s := Run(Setup() + Posts(2) + [Take(0), Resize(200), Settle(0)]);
            0 in s.readers && s.readers[0].inflight == 0 && s.readers[0].sum == |Pending(s.items, 0)| - 1
  {
    hide Pending, Run, Step, AfterRetrieve;
    var ops := Setup() + Posts(2);
    PostsWait(2);
    RunSnoc(ops, Take(0));
    RunSnoc(ops + [Take(0)], Resize(200));
    RunSnoc(ops + [Take(0)] + [Resize(200)], Settle(0));
    assert ops + [Take(0)] + [Resize(200)] + [Settle(0)] == ops + [Take(0), Resize(200), Settle(0)];
    var s := Run(ops);
    RunsKeepInv(ops);
    TwoTaken(s);
    RecountForgets(Step(s, Take(0)));
  }

  lemma TwoTaken(s: State<int>)
    requires Inv(s) && Waiting(s, 2)
    ensures var t := Step(s, Take(0));
            0 in t.readers && t.cap == 99 && |t.items| <= 2 && t.readers[0].inflight == 1 && |Pending(t.items, 0)| == 1
  {
    hide Pending;
    PendingAll(s.items, 0);
    assert FirstOwed(s.items, 0) == 0;
    RetrieveEffect(s.items, 0, 0);
  }

  lemma RecountForgets(t: State<int>)
    requires 0 in t.readers && t.cap == 99 && |t.items| <= 2 && t.readers[0].inflight == 1 && |Pending(t.items, 0)| == 1
    ensures var u := Step(Step(t, Resize(200)), Settle(0));
            0 in u.readers && u.readers[0].inflight == 0 && u.readers[0].sum == 0 && |Pending(u.items, 0)| == 1
  {
    hide Pending;
    assert Trim(t, 199) == t;
  }
}
