/**
  Every run of the allocator, seen from its clients.

  The clients know only their requests and the answers. From these alone they can tell what they hold; the
  theorem is that what they hold is always safe to use, and that the answers are the right ones.
*/
module ShmRuns {
  import opened ShmPool
  import opened ShmAlloc

  datatype Op = AllocData(size: nat) | FreeData(buffer: nat) | AllocHeader | FreeHeader(header: nat)

  /** What the clients hold: buffers, with the size they asked for, and command headers. */
  datatype Client = Client(data: map<nat, nat>, cmds: set<nat>)

  /** The view after one more request; an answer is an address, or 1 and 0 for success and failure. */
  ghost function Next(c: Client, op: Op, answer: nat): Client {
    if answer == 0 then c else
    match op
    case AllocData(size) => c.(data := c.data[answer := size])
    case FreeData(buffer) => c.(data := c.data - {buffer})
    case AllocHeader => c.(cmds := c.cmds + {answer})
    case FreeHeader(header) => c.(cmds := set a | a in c.cmds && !Hits(header, a))
  }

  ghost function View(ops: seq<Op>, answers: seq<nat>): Client
    requires |ops| == |answers|
  {
    if ops == [] then Client(map[], {})
    else
      var n := |ops| - 1;
      Next(View(ops[..n], answers[..n]), ops[n], answers[n])
  }

  /** Freeing `header` frees the header at `a`. */
  ghost predicate Hits(header: nat, a: nat) { (header - a) % WINDOW < HEADER }

  /** Held buffers are disjoint, lie in the data region and have the size asked for; held headers are whole
      headers of the header area. */
  ghost predicate Safe(at: nat, c: Client) {
    && (forall a, b :: a in c.data && b in c.data && a != b ==> a + c.data[a] <= b || b + c.data[b] <= a)
    && (forall a :: a in c.data ==> 0 < c.data[a] && at + DATA_OFFSET <= a && a + c.data[a] <= at + DATA_OFFSET + DATA_SIZE)
    && (forall a :: a in c.cmds ==> at + HEADER_OFFSET <= a && a + HEADER <= at + SHARED_SIZE && (a - at) % HEADER == 0)
  }

  ghost predicate Exhausted(at: nat, c: Client, size: nat) {
    forall b :: IsBlock(b) && size <= Unit(b.area) ==> Addr(at, b) in c.data
  }

  /** Requests fail only for a reason the clients can see. */
  ghost predicate Right(at: nat, c: Client, op: Op, answer: nat) {
    match op
    case AllocData(size) => if answer == 0 then size == 0 || Exhausted(at, c, size) else 0 < size && answer !in c.data
    case FreeData(buffer) => answer != 0 <==> buffer in c.data
    case AllocHeader =>
      if answer == 0 then forall i :: 0 <= i < HEADERS ==> HeaderAddr(at, i) in c.cmds else answer !in c.cmds
    case FreeHeader(header) => answer != 0 <==> exists a :: a in c.cmds && Hits(header, a)
  }

  /** The clients' view describes the allocator. */
  ghost predicate Agrees(mem: SharedMemory, c: Client)
    requires mem.Valid()
    reads mem, mem.repr
  {
    && (forall a :: a in c.data <==> mem.LiveAt(a))
    && (forall b :: mem.Live(b) ==> IsBlock(b) && Addr(mem.base, b) in c.data && 0 < c.data[Addr(mem.base, b)] <= Unit(b.area))
    && (forall a :: a in c.cmds ==> exists i :: 0 <= i < HEADERS && a == HeaderAddr(mem.base, i))
    && (forall i :: 0 <= i < HEADERS ==> (HeaderAddr(mem.base, i) in c.cmds <==> mem.LiveHeader(i)))
  }

  lemma AgreesSafe(mem: SharedMemory, c: Client)
    requires mem.Valid() && Agrees(mem, c)
    ensures Safe(mem.base, c)
  {
    hide Addr, Unit, Count, mem.Valid;
    forall a, b | a in c.data && b in c.data && a != b
      ensures a + c.data[a] <= b || b + c.data[b] <= a
    {
      var x :| mem.Live(x) && IsBlock(x) && Addr(mem.base, x) == a;
      var y :| mem.Live(y) && IsBlock(y) && Addr(mem.base, y) == b;
      BlocksDisjoint(mem.base, x, y);
    }
    forall a | a in c.data
      ensures 0 < c.data[a] && mem.base + DATA_OFFSET <= a && a + c.data[a] <= mem.base + DATA_OFFSET + DATA_SIZE
    {
      var x :| mem.Live(x) && IsBlock(x) && Addr(mem.base, x) == a;
      BlockInRegion(mem.base, x);
    }
  }

  /** Carries out one request. */
  method Serve(mem: SharedMemory, op: Op, ghost c: Client) returns (answer: nat)
    requires mem.Valid() && Agrees(mem, c) && (op.FreeHeader? ==> op.header < TWO64)
    modifies mem.repr
    ensures mem.Valid() && Right(mem.base, c, op, answer) && Agrees(mem, Next(c, op, answer))
  {
    match op
    case AllocData(size) => answer := ServeAllocData(mem, size, c);
    case FreeData(buffer) => answer := ServeFreeData(mem, buffer, c);
    case AllocHeader => answer := ServeAllocHeader(mem, c);
    case FreeHeader(header) => answer := ServeFreeHeader(mem, header, c);
  }

  method ServeAllocData(mem: SharedMemory, size: nat, ghost c: Client) returns (answer: nat)
    requires mem.Valid() && Agrees(mem, c)
    modifies mem.repr
    ensures mem.Valid() && Right(mem.base, c, AllocData(size), answer)
    ensures Agrees(mem, Next(c, AllocData(size), answer))
  {
    hide mem.Valid, Addr, Unit, Count;
    ghost var block;
    answer, block := mem.AllocData(size);
    if answer != 0 {
      forall b | IsBlock(b) && Addr(mem.base, b) == answer ensures b == block { AddrInjective(mem.base, b, block); }
    }
  }

  method ServeFreeData(mem: SharedMemory, buffer: nat, ghost c: Client) returns (answer: nat)
    requires mem.Valid() && Agrees(mem, c)
    modifies mem.repr
    ensures mem.Valid() && Right(mem.base, c, FreeData(buffer), answer)
    ensures Agrees(mem, Next(c, FreeData(buffer), answer))
  {
    hide mem.Valid, Addr, Unit, Count;
    var ok := mem.FreeData(buffer);
    answer := if ok then 1 else 0;
  }

  method ServeAllocHeader(mem: SharedMemory, ghost c: Client) returns (answer: nat)
    requires mem.Valid() && Agrees(mem, c)
    modifies mem.repr
    ensures mem.Valid() && Right(mem.base, c, AllocHeader, answer)
    ensures Agrees(mem, Next(c, AllocHeader, answer))
  {
    hide mem.Valid, Addr, Unit, Count;
    ghost var index;
    answer, index := mem.AllocHeader();
  }

  method ServeFreeHeader(mem: SharedMemory, header: nat, ghost c: Client) returns (answer: nat)
    requires mem.Valid() && Agrees(mem, c) && header < TWO64
    modifies mem.repr
    ensures mem.Valid() && Right(mem.base, c, FreeHeader(header), answer)
    ensures Agrees(mem, Next(c, FreeHeader(header), answer))
  {
    hide mem.Valid, Addr, Unit, Count, HeaderIndex;
    forall i | 0 <= i < HEADERS
      ensures HeaderIndex(mem.base, header) == i <==> Hits(header, HeaderAddr(mem.base, i))
    {
      HitsMeaning(mem.base, header, i);
    }
    var ok := mem.FreeHeader(header);
    answer := if ok then 1 else 0;
  }

  lemma HitsMeaning(at: nat, header: nat, i: nat)
    requires i < HEADERS
    ensures HeaderIndex(at, header) == i <==> Hits(header, HeaderAddr(at, i))
  {
    hide HeaderIndex;
    HeaderIndexMeaning(at, header, i);
    var x := header - (at + HEADER_OFFSET);
    var r := x % WINDOW;
    var k := HEADER * i;
    assert x - k == WINDOW * (x / WINDOW) + (r - k);
    if r >= k {
      WindowMod(x / WINDOW, r - k, x - k);
    } else {
      WindowMod(x / WINDOW - 1, WINDOW + r - k, x - k);
    }
  }

  /** The view after each prefix of a run is safe, and each answer is right for the view before it. */
  ghost predicate RunIsRight(at: nat, ops: seq<Op>, answers: seq<nat>)
    requires |ops| == |answers|
  {
    && Safe(at, View(ops, answers))
    && (ops != [] ==>
          var n := |ops| - 1;
          Right(at, View(ops[..n], answers[..n]), ops[n], answers[n]) && RunIsRight(at, ops[..n], answers[..n]))
  }

  /** Safety over whole runs. */
  method Run(at: nat, ops: seq<Op>) returns (answers: seq<nat>)
    requires 0 < at && at + SHARED_SIZE < TWO64
    requires forall i :: 0 <= i < |ops| && ops[i].FreeHeader? ==> ops[i].header < TWO64
    ensures |answers| == |ops| && RunIsRight(at, ops, answers)
  {
    hide Safe, Right, Next;
    var mem := new SharedMemory(at);
    answers := [];
    NothingHeld(mem);
    AgreesSafe(mem, View([], []));
    var n := 0;
    assert ops[..0] == [];
    while n < |ops|
      invariant 0 <= n == |answers| <= |ops| && mem.Valid() && fresh(mem.repr) && mem.base == at
      invariant Agrees(mem, View(ops[..n], answers)) && RunIsRight(at, ops[..n], answers)
    {
      ghost var c := View(ops[..n], answers);
      ghost var before := answers;
      var answer := Serve(mem, ops[n], c);
      answers := answers + [answer];
      n := n + 1;
      ViewNext(at, ops, n - 1, before, answer);
      AgreesSafe(mem, View(ops[..n], answers));
    }
    assert ops[..n] == ops;
  }

  lemma NothingHeld(mem: SharedMemory)
    requires mem.Valid() && (forall b :: !mem.Live(b)) && (forall i :: !mem.LiveHeader(i))
    ensures Agrees(mem, View([], []))
  {
    hide mem.Valid;
  }

  lemma ViewNext(at: nat, ops: seq<Op>, n: nat, answers: seq<nat>, answer: nat)
    requires n == |answers| < |ops|
    requires RunIsRight(at, ops[..n], answers)
    requires Right(at, View(ops[..n], answers), ops[n], answer)
    ensures View(ops[..n + 1], answers + [answer]) == Next(View(ops[..n], answers), ops[n], answer)
    ensures Safe(at, View(ops[..n + 1], answers + [answer])) ==> RunIsRight(at, ops[..n + 1], answers + [answer])
  {
    hide Safe, Right, Next;
    assert ops[..n + 1][..n] == ops[..n];
    assert (answers + [answer])[..n] == answers;
  }
}
