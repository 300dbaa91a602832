/**
  Concurrent senders and completion notices of `tdd.c`, as interleaved steps.

  A call of `tdd_send_command` takes a command header, allocates a node, draws a sequence number, links the node
  into the bucket of that number, hands the command to the device and waits, at most five times, for a notice to
  mark the node. List operations take more than one step: insertion and removal first read the neighbouring
  pointers and then write them, and a notice walks along its bucket node by node. Most of them hold the lock; the
  error path of a failed send unlinks and frees its node without it, so its steps fall between those of the others.

  Each event is one step of one call or of the notice in progress; a run is any sequence of events. Events that are
  not possible in a state leave it as it is. A run goes `bad` when it follows or writes a pointer that is no longer
  valid; the model says nothing about what happens afterwards.
*/
module TddProtocol {
  import opened Lists

  const BUCKETS: nat := 64
  const HEADERS: nat := 0x8000
  const WAITS: nat := 5
  const TWO64: nat := 0x1_0000_0000_0000_0000

  /** Where a call of `tdd_send_command` stands. */
  datatype Pc =
    | HasHeader | HasNode | Numbered | Linked | Waiting(left: nat) | Unlinked | HeaderFreed
    | FailSent | FailFreed | FailUnlinking(pred: Option<nat>, next: Option<nat>) | FailUnlinked
    | SyncNumbered | SyncSent
    | Leaked | Done

  datatype Result = Pending | Success | Timeout | SendFailed | Refused | DeviceError | TooLong | NoMemory

  /** A call: whether it is over a length limit, and the header it got, if any. */
  datatype Call = Call(isAsync: bool, overLimit: bool, pc: Pc, header: Option<nat>, seqno: nat, result: Result)

  datatype Node = Node(seqno: nat, handled: bool)

  /** Who holds `wait_lock`, and the pointers it has read: an insertion, a removal, or a notice on its walk. */
  datatype Lock =
    | Free
    | Linking(id: nat, first: Option<nat>)
    | Deleting(id: nat, pred: Option<nat>, next: Option<nat>, result: Result)
    | Walking(seqno: nat, at: Option<nat>, found: bool)

  datatype State = State(
    calls: map<nat, Call>,
    /** Allocated nodes, by the call that allocated them. */
    nodes: map<nat, Node>,
    sent: seq<seq<nat>>,
    lock: Lock,
    /** Command headers in use, with the call that took them. */
    used: map<nat, nat>,
    current: nat,
    issued: nat,
    /** Sequence numbers drawn so far, with the call that drew them. */
    drawn: map<nat, nat>,
    /** Sequence numbers whose notice found a node. */
    hits: set<nat>,
    bad: bool)

  datatype Event =
    | Start(id: nat, isAsync: bool, overLimit: bool, header: Option<nat>)
    | MakeNode(id: nat, ok: bool)
    | Number(id: nat)
    | LinkBegin(id: nat)
    | LinkEnd
    | Send(id: nat, outcome: Result)
    | Check(id: nat)
    | LastCheck(id: nat)
    | DelEnd
    | Finish(id: nat, answer: Result)
    | FreeHeaderLate(id: nat)
    | UnlinkBegin(id: nat)
    | UnlinkEnd(id: nat)
    | FreeNode(id: nat)
    | NoticeLock(seqno: nat)
    | Walk
    | NoticeUnlock

  function Empty(n: nat): (r: seq<seq<nat>>)
    ensures |r| == n && forall k :: 0 <= k < n ==> r[k] == []
  {
    if n == 0 then [] else Empty(n - 1) + [[]]
  }

  const Init: State := State(map[], map[], Empty(BUCKETS), Free, map[], 0, 0, map[], {}, false)

  // ----- Lists -----

  function First(list: seq<nat>): Option<nat> { if list == [] then None else Some(list[0]) }

  /** The nodes before and behind `id`. */
  function Pred(list: seq<nat>, id: nat): Option<nat> {
    var k := IndexOf(list, id);
    if 0 < k < |list| then Some(list[k - 1]) else None
  }

  function Succ(list: seq<nat>, id: nat): Option<nat> {
    var k := IndexOf(list, id);
    if k + 1 < |list| then Some(list[k + 1]) else None
  }

  /** `hlist_del` of `id` may write through the pointers it has read. */
  predicate Between(list: seq<nat>, id: nat, pred: Option<nat>, next: Option<nat>) {
    id in list && Pred(list, id) == pred && Succ(list, id) == next
  }

  // ----- Shared operations -----

  function Put(s: State, id: nat, c: Call): State { s.(calls := s.calls[id := c]) }

  function Wreck(s: State): State { s.(bad := true) }

  /** `tdd_free_cmd_header`. */
  function FreeHeader(s: State, h: Option<nat>): State {
    if h.Some? && h.value in s.used then s.(used := s.used - {h.value}) else Wreck(s)
  }

  function Bucket(q: nat): nat { q % BUCKETS }

  function ListOf(s: State, q: nat): seq<nat>
    requires |s.sent| == BUCKETS
  {
    s.sent[Bucket(q)]
  }

  function SetList(s: State, q: nat, list: seq<nat>): State
    requires |s.sent| == BUCKETS
  {
    s.(sent := s.sent[Bucket(q) := list])
  }

  predicate Unlisted(sent: seq<seq<nat>>, id: nat) { forall j :: 0 <= j < |sent| ==> id !in sent[j] }

  /** `kfree` of a node. */
  function FreeIt(s: State, id: nat): State {
    if id in s.nodes && Unlisted(s.sent, id) then s.(nodes := s.nodes - {id}) else Wreck(s)
  }

  // ----- Events -----

  predicate NoneFree(used: map<nat, nat>) { forall h :: 0 <= h < HEADERS ==> h in used }

  /** `tdd_alloc_cmd_header` and the length checks after it, which return without giving the header back. */
  function DoStart(s: State, e: Event): State
    requires e.Start?
  {
    if e.id in s.calls then s else
    match e.header
    case None =>
      if NoneFree(s.used) then
        Put(s, e.id, Call(e.isAsync, e.overLimit, Done, None, 0, if e.overLimit then TooLong else NoMemory))
      else s
    case Some(h) =>
      if h < HEADERS && h !in s.used then
        Put(s.(used := s.used[h := e.id]), e.id,
            if e.overLimit then Call(e.isAsync, true, Leaked, Some(h), 0, TooLong)
            else Call(e.isAsync, false, HasHeader, Some(h), 0, Pending))
      else s
  }

  predicate At(s: State, id: nat, pc: Pc) { id in s.calls && s.calls[id].pc == pc }

  function DoMakeNode(s: State, id: nat, ok: bool): State {
    if At(s, id, HasHeader) && s.calls[id].isAsync then
      var c := s.calls[id];
      if ok then Put(s.(nodes := s.nodes[id := Node(0, false)]), id, c.(pc := HasNode))
      else Put(FreeHeader(s, c.header), id, c.(pc := Done, result := NoMemory))
    else s
  }

  function DoNumber(s: State, id: nat): State {
    if At(s, id, HasNode) || (At(s, id, HasHeader) && !s.calls[id].isAsync) then
      var c := s.calls[id];
      var q := (s.current + 1) % TWO64;
      Put(s.(current := q, issued := s.issued + 1, drawn := s.drawn[q := id]), id,
          c.(seqno := q, pc := if c.isAsync then Numbered else SyncNumbered))
    else s
  }

  /** Takes the lock and reads the head of the bucket. */
  function DoLinkBegin(s: State, id: nat): State
    requires |s.sent| == BUCKETS
  {
    if At(s, id, Numbered) && s.lock == Free then
      if id in s.nodes then
        var q := s.calls[id].seqno;
        s.(nodes := s.nodes[id := s.nodes[id].(seqno := q)], lock := Linking(id, First(ListOf(s, q))))
      else Wreck(s)
    else s
  }

  /** Writes the new head, and the back pointer of the head that was read. */
  function DoLinkEnd(s: State): State
    requires |s.sent| == BUCKETS
  {
    if s.lock.Linking? && s.lock.id in s.calls then
      var id := s.lock.id;
      var c := s.calls[id];
      if First(ListOf(s, c.seqno)) != s.lock.first then Wreck(s)
      else Put(SetList(s, c.seqno, [id] + ListOf(s, c.seqno)), id, c.(pc := Linked)).(lock := Free)
    else s
  }

  function DoSend(s: State, id: nat, outcome: Result): State {
    if outcome != Pending && !Unsent(outcome) then s
    else if At(s, id, Linked) then
      Put(s, id, s.calls[id].(pc := if outcome == Pending then Waiting(WAITS) else FailSent, result := outcome))
    else if At(s, id, SyncNumbered) then
      Put(s, id, s.calls[id].(pc := SyncSent, result := outcome))
    else s
  }

  /** The command could not be sent, or the device refused it at once. */
  predicate Unsent(r: Result) { r == SendFailed || r == Refused }

  predicate IsWaiting(s: State, id: nat) { id in s.calls && s.calls[id].pc.Waiting? }

  /** The lock, for a removal that has read its neighbours. */
  function Removal(s: State, id: nat, q: nat, r: Result): Lock
    requires |s.sent| == BUCKETS
  {
    Deleting(id, Pred(ListOf(s, q), id), Succ(ListOf(s, q), id), r)
  }

  /** One turn of the wait loop. */
  function DoCheck(s: State, id: nat): State
    requires |s.sent| == BUCKETS
  {
    if IsWaiting(s, id) && s.calls[id].pc.left > 0 && s.lock == Free then
      var c := s.calls[id];
      if id !in s.nodes then Wreck(s)
      else if s.nodes[id].handled then s.(lock := Removal(s, id, c.seqno, Pending))
      else Put(s, id, c.(pc := Waiting(c.pc.left - 1)))
    else s
  }

  /** The section after the loop ran out. */
  function DoLastCheck(s: State, id: nat): State
    requires |s.sent| == BUCKETS
  {
    if IsWaiting(s, id) && s.calls[id].pc.left == 0 && s.lock == Free then
      if id !in s.nodes then Wreck(s)
      else s.(lock := Removal(s, id, s.calls[id].seqno, if s.nodes[id].handled then Pending else Timeout))
    else s
  }

  /** A removal under the lock writes its neighbours' pointers. */
  function DoDelEnd(s: State): State
    requires |s.sent| == BUCKETS
  {
    if s.lock.Deleting? && s.lock.id in s.calls then
      var id := s.lock.id;
      var c := s.calls[id];
      var list := ListOf(s, c.seqno);
      if !Between(list, id, s.lock.pred, s.lock.next) then Wreck(s)
      else Put(SetList(s, c.seqno, Without(list, id)), id, c.(pc := Unlinked, result := s.lock.result)).(lock := Free)
    else s
  }

  /** A synchronous call looks at the length of the answer only: the device's code came with the send. */
  predicate Answerable(s: State, id: nat, answer: Result) {
    (At(s, id, Unlinked) && Answered(answer)) || (At(s, id, SyncSent) && (answer == Success || answer == TooLong))
  }

  /** Reads the device's answer, unless an error is already known, and gives the header back. */
  function DoFinish(s: State, id: nat, answer: Result): State {
    if Answerable(s, id, answer) then
      var c := s.calls[id];
      Put(FreeHeader(s, c.header), id,
          c.(pc := if c.isAsync then HeaderFreed else Done, result := if c.result == Pending then answer else c.result))
    else s
  }

  /** The error path frees the header first. */
  function DoFreeHeaderLate(s: State, id: nat): State {
    if At(s, id, FailSent) then Put(FreeHeader(s, s.calls[id].header), id, s.calls[id].(pc := FailFreed)) else s
  }

  /** Then it reads its neighbours, without the lock, */
  function DoUnlinkBegin(s: State, id: nat): State
    requires |s.sent| == BUCKETS
  {
    if At(s, id, FailFreed) then
      var c := s.calls[id];
      var list := ListOf(s, c.seqno);
      if id in list then Put(s, id, c.(pc := FailUnlinking(Pred(list, id), Succ(list, id)))) else Wreck(s)
    else s
  }

  /** and writes their pointers. */
  function DoUnlinkEnd(s: State, id: nat): State
    requires |s.sent| == BUCKETS
  {
    if id in s.calls && s.calls[id].pc.FailUnlinking? then
      var c := s.calls[id];
      var list := ListOf(s, c.seqno);
      if !Between(list, id, c.pc.pred, c.pc.next) then Wreck(s)
      else Put(SetList(s, c.seqno, Without(list, id)), id, c.(pc := FailUnlinked))
    else s
  }

  /** Freeing the node, on either path; no lock is held. */
  function DoFreeNode(s: State, id: nat): State {
    if At(s, id, HeaderFreed) || At(s, id, FailUnlinked) then Put(FreeIt(s, id), id, s.calls[id].(pc := Done)) else s
  }

  /** `notify` for a finished command takes the lock and goes to the head of the bucket. */
  function DoNoticeLock(s: State, q: nat): State
    requires |s.sent| == BUCKETS
  {
    if s.lock == Free then s.(lock := Walking(q, First(ListOf(s, q)), false)) else s
  }

  /** Looks at one node: marks it, or follows its pointer, which is poisoned if the node was unlinked meanwhile. */
  function DoWalk(s: State): State
    requires |s.sent| == BUCKETS
  {
    if s.lock.Walking? && s.lock.at.Some? then
      var i := s.lock.at.value;
      var q := s.lock.seqno;
      if i !in s.nodes then Wreck(s)
      else if s.nodes[i].seqno == q then
        s.(nodes := s.nodes[i := s.nodes[i].(handled := true)], hits := s.hits + {q}, lock := Walking(q, None, true))
      else if i !in ListOf(s, q) then Wreck(s)
      else s.(lock := Walking(q, Succ(ListOf(s, q), i), false))
    else s
  }

  function DoNoticeUnlock(s: State): State {
    if s.lock.Walking? && s.lock.at.None? then s.(lock := Free) else s
  }

  function Do(s: State, e: Event): (s': State)
    requires |s.sent| == BUCKETS
    ensures |s'.sent| == BUCKETS
  {
    match e
    case Start(_, _, _, _) => DoStart(s, e)
    case MakeNode(id, ok) => DoMakeNode(s, id, ok)
    case Number(id) => DoNumber(s, id)
    case LinkBegin(id) => DoLinkBegin(s, id)
    case LinkEnd => DoLinkEnd(s)
    case Send(id, outcome) => DoSend(s, id, outcome)
    case Check(id) => DoCheck(s, id)
    case LastCheck(id) => DoLastCheck(s, id)
    case DelEnd => DoDelEnd(s)
    case Finish(id, answer) => DoFinish(s, id, answer)
    case FreeHeaderLate(id) => DoFreeHeaderLate(s, id)
    case UnlinkBegin(id) => DoUnlinkBegin(s, id)
    case UnlinkEnd(id) => DoUnlinkEnd(s, id)
    case FreeNode(id) => DoFreeNode(s, id)
    case NoticeLock(q) => DoNoticeLock(s, q)
    case Walk => DoWalk(s)
    case NoticeUnlock => DoNoticeUnlock(s)
  }

  /** A step that goes bad leaves the rest of the state as it was, and is the last one. */
  function Apply(s: State, e: Event): (s': State)
    requires |s.sent| == BUCKETS
    ensures |s'.sent| == BUCKETS
  {
    if s.bad then s else if Do(s, e).bad then Wreck(s) else Do(s, e)
  }

  function Run(events: seq<Event>): (s: State)
    ensures |s.sent| == BUCKETS
  {
    if events == [] then Init else Apply(Run(events[..|events| - 1]), events[|events| - 1])
  }

  // ----- The invariant -----

  /** Between taking and giving back the header; a call over the length limit stays here for ever. */
  predicate Holding(pc: Pc) {
    match pc
    case HeaderFreed | FailFreed | FailUnlinking(_, _) | FailUnlinked | Done => false
    case _ => true
  }

  predicate OwnsNode(pc: Pc) {
    match pc
    case HasHeader | SyncNumbered | SyncSent | Leaked | Done => false
    case _ => true
  }

  predicate InList(pc: Pc) {
    match pc
    case Linked | Waiting(_) | FailSent | FailFreed | FailUnlinking(_, _) => true
    case _ => false
  }

  /** The node carries the call's number. */
  predicate Stamped(pc: Pc) { InList(pc) || pc.Unlinked? || pc.HeaderFreed? || pc.FailUnlinked? }

  predicate IsSync(pc: Pc) { pc.SyncNumbered? || pc.SyncSent? }

  /** Before the call has drawn its number, if it ever does. */
  predicate Early(pc: Pc) { pc.HasHeader? || pc.HasNode? || pc.Leaked? }

  /** In the buckets, `id` is listed once in bucket `j` and nowhere else, or not at all. */
  ghost predicate ListedIn(sent: seq<seq<nat>>, id: nat, listed: bool, j: nat) {
    forall k :: 0 <= k < |sent| ==> Times(sent[k], id) == if listed && k == j then 1 else 0
  }

  ghost predicate Owns(used: map<nat, nat>, id: nat, holding: bool, header: Option<nat>) {
    forall h :: (h in used && used[h] == id) <==> (holding && header == Some(h))
  }

  /** How far the result is decided, and by what. */
  ghost predicate ResultFits(c: Call, handled: bool, hit: bool) {
    match c.pc
    case HasHeader | HasNode | Numbered => c.result == Pending && !handled && !hit
    case Linked | Waiting(_) => c.result == Pending && handled == hit
    case FailSent | FailFreed | FailUnlinking(_, _) => Unsent(c.result) && handled == hit
    case FailUnlinked => Unsent(c.result)
    case Unlinked => c.result == (if hit then Pending else Timeout)
    case HeaderFreed => if hit then Answered(c.result) else c.result == Timeout
    case Done =>
      && !c.result.Pending?
      && (c.result == Timeout ==> !hit)
      && (c.isAsync && (c.result == Success || c.result == DeviceError) ==> hit)
    case Leaked => c.result == TooLong
    case SyncNumbered => c.result == Pending
    case SyncSent => c.result == Pending || Unsent(c.result)
  }

  predicate Answered(r: Result) { r == Success || r == DeviceError || r == TooLong }

  /** A header is given, and kept for ever exactly by calls over the limit. */
  ghost predicate HeaderFits(c: Call) {
    && (c.header.None? ==> c.pc.Done?)
    && (c.pc.Leaked? <==> c.overLimit && c.header.Some?)
  }

  /** What holds of a call that has started. */
  ghost predicate CallFits(s: State, id: nat, c: Call) {
    && (if c.isAsync then !IsSync(c.pc) else !OwnsNode(c.pc))
    && (c.seqno != 0 ==> c.seqno in s.drawn && s.drawn[c.seqno] == id && !Early(c.pc))
    && (c.seqno == 0 ==> (Early(c.pc) || c.pc.Done?) && c.result != Timeout)
    && (id in s.nodes <==> OwnsNode(c.pc))
    && (id in s.nodes && Stamped(c.pc) ==> s.nodes[id].seqno == c.seqno)
    && ListedIn(s.sent, id, InList(c.pc), Bucket(c.seqno))
    && Owns(s.used, id, Holding(c.pc), c.header)
    && HeaderFits(c)
    && ResultFits(c, id in s.nodes && s.nodes[id].handled, c.seqno in s.hits)
  }

  ghost predicate Local(s: State, id: nat) {
    if id in s.calls then CallFits(s, id, s.calls[id])
    else id !in s.nodes && ListedIn(s.sent, id, false, 0) && Owns(s.used, id, false, None)
  }

  /** What holds of the shared counters. */
  ghost predicate Shared(s: State) {
    && |s.sent| == BUCKETS && s.current == s.issued && s.issued < TWO64
    && (forall q :: q in s.drawn ==> 0 < q <= s.issued)
    && (forall q :: q in s.hits ==> q in s.drawn)
  }

  /** The notice has not passed call `i`, if it is looking for its number. */
  ghost predicate Ahead(s: State, q: nat, at: Option<nat>, i: nat)
    requires |s.sent| == BUCKETS
  {
    i in s.calls && InList(s.calls[i].pc) && s.calls[i].seqno == q ==>
      at.Some? && (at.value in ListOf(s, q) ==> IndexOf(ListOf(s, q), at.value) <= IndexOf(ListOf(s, q), i))
  }

  /** Where the holder of the lock stands. A notice stands on a node that is listed, or was when it came there. */
  ghost predicate LockFits(s: State)
    requires |s.sent| == BUCKETS
  {
    match s.lock
    case Free => true
    case Linking(id, _) => At(s, id, Numbered) && id in s.nodes && s.nodes[id].seqno == s.calls[id].seqno
    case Deleting(id, _, _, r) => IsWaiting(s, id) && r == (if s.calls[id].seqno in s.hits then Pending else Timeout)
    case Walking(q, at, found) =>
      if found then at.None? && q in s.hits
      else
        && (at.Some? ==> Reached(s, at.value))
        && (forall i: nat :: Ahead(s, q, at, i))
  }

  ghost predicate Reached(s: State, i: nat) {
    i in s.calls && s.calls[i].seqno != 0 && (InList(s.calls[i].pc) || s.calls[i].pc.FailUnlinked? || s.calls[i].pc.Done?)
  }

  /** Every call, started or not, is where it should be, and so is the holder of the lock. */
  ghost predicate Inv(s: State) {
    Shared(s) && LockFits(s) && forall id: nat :: Local(s, id)
  }

  lemma InitInv()
    ensures Inv(Init)
  {
  }

  // ----- How a step goes bad -----

  /** A list operation is completed although the pointers it read are no longer those of the list, or a notice looks at a
      node that was freed, or follows the pointer of one that was unlinked. */
  ghost predicate Harm(s: State, e: Event)
    requires |s.sent| == BUCKETS
  {
    match e
    case LinkEnd => s.lock.Linking? && At(s, s.lock.id, Numbered) && First(ListOf(s, s.calls[s.lock.id].seqno)) != s.lock.first
    case DelEnd =>
      && s.lock.Deleting? && IsWaiting(s, s.lock.id)
      && !Between(ListOf(s, s.calls[s.lock.id].seqno), s.lock.id, s.lock.pred, s.lock.next)
    case UnlinkEnd(id) =>
      && id in s.calls && s.calls[id].pc.FailUnlinking?
      && !Between(ListOf(s, s.calls[id].seqno), id, s.calls[id].pc.pred, s.calls[id].pc.next)
    case Walk =>
      && s.lock.Walking? && s.lock.at.Some?
      && var i := s.lock.at.value;
         i !in s.nodes || (s.nodes[i].seqno != s.lock.seqno && i !in ListOf(s, s.lock.seqno))
    case _ => false
  }

  /** What a step must do: go bad exactly when it does harm, and otherwise keep call `i` in order. */
  ghost predicate Keeps(s: State, e: Event, s': State, i: nat)
    requires |s.sent| == BUCKETS
  {
    (s'.bad <==> Harm(s, e)) && (!s'.bad ==> Shared(s') && Local(s', i))
  }

  // ----- Lists -----

  /** Unlinking a listed node takes it out of its bucket, and no other node out of any. */
  lemma DelLists(s: State, id: nat, q: nat, i: nat, listed: bool, j: nat)
    requires |s.sent| == BUCKETS && ListedIn(s.sent, id, true, Bucket(q)) && ListedIn(s.sent, i, listed, j)
    ensures ListedIn(SetList(s, q, Without(ListOf(s, q), id)).sent, i, listed && i != id, j)
  {
    hide Without;
    var list := ListOf(s, q);
    assert Times(list, id) == 1;
    WithoutTimes(list, id, i);
    if i == id && listed {
      assert Times(s.sent[j % BUCKETS], id) == if j % BUCKETS == j then 1 else 0;
    }
  }

  lemma AddLists(s: State, id: nat, q: nat, i: nat, listed: bool, j: nat)
    requires |s.sent| == BUCKETS && ListedIn(s.sent, id, false, Bucket(q)) && ListedIn(s.sent, i, listed, j)
    ensures ListedIn(SetList(s, q, [id] + ListOf(s, q)).sent, i, if i == id then true else listed, if i == id then Bucket(q) else j)
  {
  }

  /** Whatever a bucket lists is allocated and linked. */
  lemma ListedAllocated(s: State, list: seq<nat>, j: nat, b: nat)
    requires Inv(s) && b < BUCKETS && list == s.sent[b] && j in list
    ensures j in s.calls && j in s.nodes && InList(s.calls[j].pc) && s.nodes[j].seqno == s.calls[j].seqno
    ensures s.calls[j].seqno != 0 && Bucket(s.calls[j].seqno) == b
  {
    assert Local(s, j);
    assert Times(s.sent[b], j) > 0;
  }

  /** A linked call is in the bucket of its number. */
  lemma LinkedListed(s: State, i: nat)
    requires Inv(s) && i in s.calls && InList(s.calls[i].pc)
    ensures i in ListOf(s, s.calls[i].seqno) && Times(ListOf(s, s.calls[i].seqno), i) == 1
    ensures i in s.nodes && s.nodes[i].seqno == s.calls[i].seqno && s.calls[i].seqno != 0
  {
    assert Local(s, i);
  }

  // ----- Every step keeps every call in order -----

  lemma TakeOwns(used: map<nat, nat>, h: nat, id: nat, i: nat, holding: bool, header: Option<nat>)
    requires h !in used && Owns(used, i, holding, header) && (i == id ==> !holding)
    ensures i != id ==> Owns(used[h := id], i, holding, header)
    ensures i == id ==> Owns(used[h := id], i, true, Some(h))
  {
  }

  lemma StartKeepsOwn(s: State, e: Event)
    requires Inv(s) && e.Start?
    ensures Local(DoStart(s, e), e.id)
  {
    hide ListedIn, NoneFree, LockFits, Owns, Shared;
    assert Local(s, e.id);
    NoZeroHit(s);
    if e.id !in s.calls {
      OwnsNothing(s.used, e.id);
      ListedNowhere(s.sent, e.id);
      if e.header.Some? && e.header.value !in s.used {
        TakeOwns(s.used, e.header.value, e.id, e.id, false, None);
      }
    }
  }

  lemma NoZeroHit(s: State)
    requires Shared(s)
    ensures 0 !in s.hits
  {
  }

  lemma OwnsNothing(used: map<nat, nat>, id: nat)
    requires Owns(used, id, false, None)
    ensures forall holding, header :: !holding ==> Owns(used, id, holding, header)
  {
  }

  lemma ListedNowhere(sent: seq<seq<nat>>, id: nat)
    requires ListedIn(sent, id, false, 0)
    ensures forall j :: ListedIn(sent, id, false, j)
  {
    hide Times;
  }

  lemma StartKeepsOther(s: State, e: Event, i: nat)
    requires Inv(s) && e.Start? && i != e.id
    ensures Local(DoStart(s, e), i)
  {
    hide ListedIn, NoneFree, ResultFits, Holding, OwnsNode, InList, LockFits, HeaderFits, Owns, Shared;
    assert Local(s, i);
    if e.header.Some? && e.header.value !in s.used {
      if i in s.calls {
        TakeOwns(s.used, e.header.value, e.id, i, Holding(s.calls[i].pc), s.calls[i].header);
      } else {
        TakeOwns(s.used, e.header.value, e.id, i, false, None);
      }
    }
  }

  lemma StartKeeps(s: State, e: Event, i: nat)
    requires Inv(s) && !s.bad && e.Start?
    ensures Keeps(s, e, DoStart(s, e), i)
  {
    hide Local, NoneFree, LockFits;
    if i == e.id { StartKeepsOwn(s, e); } else { StartKeepsOther(s, e, i); }
  }

  lemma MakeNodeKeeps(s: State, id: nat, ok: bool, i: nat)
    requires Inv(s) && !s.bad
    ensures Keeps(s, MakeNode(id, ok), DoMakeNode(s, id, ok), i)
  {
    hide ListedIn, LockFits;
    assert Local(s, i) && Local(s, id);
  }

  lemma NumberKeeps(s: State, id: nat, i: nat)
    requires Inv(s) && !s.bad && DoNumber(s, id).issued < TWO64
    ensures Keeps(s, Number(id), DoNumber(s, id), i)
  {
    hide Owns, LockFits;
    assert Local(s, i) && Local(s, id);
  }

  lemma LinkBeginKeeps(s: State, id: nat, i: nat)
    requires Inv(s) && !s.bad
    ensures Keeps(s, LinkBegin(id), DoLinkBegin(s, id), i)
  {
    hide Owns, ListedIn, LockFits, HeaderFits;
    assert Local(s, i) && Local(s, id);
  }

  lemma LinkEndKeeps(s: State, i: nat)
    requires Inv(s) && !s.bad
    ensures Keeps(s, LinkEnd, DoLinkEnd(s), i)
  {
    hide Owns, ListedIn, First;
    assert Local(s, i);
    if s.lock.Linking? && s.lock.id in s.calls {
      var id := s.lock.id;
      assert Local(s, id);
      AddLists(s, id, s.calls[id].seqno, i, i in s.calls && InList(s.calls[i].pc),
               if i in s.calls then Bucket(s.calls[i].seqno) else 0);
    }
  }

  lemma SendKeeps(s: State, id: nat, outcome: Result, i: nat)
    requires Inv(s) && !s.bad
    ensures Keeps(s, Send(id, outcome), DoSend(s, id, outcome), i)
  {
    hide Owns, ListedIn, LockFits;
    assert Local(s, i) && Local(s, id);
  }

  lemma CheckKeeps(s: State, id: nat, i: nat)
    requires Inv(s) && !s.bad
    ensures Keeps(s, Check(id), DoCheck(s, id), i)
  {
    hide Owns, ListedIn, LockFits, Pred, Succ;
    assert Local(s, i) && Local(s, id);
  }

  lemma LastCheckKeeps(s: State, id: nat, i: nat)
    requires Inv(s) && !s.bad
    ensures Keeps(s, LastCheck(id), DoLastCheck(s, id), i)
  {
    hide Owns, ListedIn, LockFits, Pred, Succ;
    assert Local(s, i) && Local(s, id);
  }

  lemma DelEndKeeps(s: State, i: nat)
    requires Inv(s) && !s.bad
    ensures Keeps(s, DelEnd, DoDelEnd(s), i)
  {
    hide Owns, ListedIn, Between, Without;
    assert Local(s, i);
    if s.lock.Deleting? && s.lock.id in s.calls {
      var id := s.lock.id;
      assert Local(s, id);
      DelLists(s, id, s.calls[id].seqno, i, i in s.calls && InList(s.calls[i].pc),
               if i in s.calls then Bucket(s.calls[i].seqno) else 0);
    }
  }

  lemma FinishKeeps(s: State, id: nat, answer: Result, i: nat)
    requires Inv(s) && !s.bad
    ensures Keeps(s, Finish(id, answer), DoFinish(s, id, answer), i)
  {
    hide ListedIn, LockFits;
    assert Local(s, i) && Local(s, id);
  }

  lemma FreeHeaderLateKeeps(s: State, id: nat, i: nat)
    requires Inv(s) && !s.bad
    ensures Keeps(s, FreeHeaderLate(id), DoFreeHeaderLate(s, id), i)
  {
    hide ListedIn, LockFits;
    assert Local(s, i) && Local(s, id);
  }

  lemma UnlinkBeginKeeps(s: State, id: nat, i: nat)
    requires Inv(s) && !s.bad
    ensures Keeps(s, UnlinkBegin(id), DoUnlinkBegin(s, id), i)
  {
    hide ListedIn, Owns, LockFits, Pred, Succ;
    assert Local(s, i) && Local(s, id);
    if At(s, id, FailFreed) { LinkedListed(s, id); }
  }

  lemma UnlinkEndKeeps(s: State, id: nat, i: nat)
    requires Inv(s) && !s.bad
    ensures Keeps(s, UnlinkEnd(id), DoUnlinkEnd(s, id), i)
  {
    hide ListedIn, Owns, LockFits, Between, Without;
    assert Local(s, i) && Local(s, id);
    if id in s.calls && s.calls[id].pc.FailUnlinking? {
      DelLists(s, id, s.calls[id].seqno, i, i in s.calls && InList(s.calls[i].pc),
               if i in s.calls then Bucket(s.calls[i].seqno) else 0);
    }
  }

  lemma FreeNodeKeeps(s: State, id: nat, i: nat)
    requires Inv(s) && !s.bad
    ensures Keeps(s, FreeNode(id), DoFreeNode(s, id), i)
  {
    hide Owns, LockFits;
    assert Local(s, i) && Local(s, id);
  }

  lemma NoticeLockKeeps(s: State, q: nat, i: nat)
    requires Inv(s) && !s.bad
    ensures Keeps(s, NoticeLock(q), DoNoticeLock(s, q), i)
  {
    hide Owns, ListedIn, LockFits, HeaderFits, ResultFits;
    assert Local(s, i);
  }

  lemma WalkKeeps(s: State, i: nat)
    requires Inv(s) && !s.bad
    ensures Keeps(s, Walk, DoWalk(s), i)
  {
    hide Owns, ListedIn, HeaderFits, Succ, Ahead;
    assert Local(s, i);
    if s.lock.Walking? && s.lock.at.Some? {
      assert Local(s, s.lock.at.value);
    }
  }

  lemma NoticeUnlockKeeps(s: State, i: nat)
    requires Inv(s) && !s.bad
    ensures Keeps(s, NoticeUnlock, DoNoticeUnlock(s), i)
  {
    hide Owns, ListedIn, LockFits, HeaderFits, ResultFits;
    assert Local(s, i);
  }

  // ----- Every step keeps the holder of the lock in order -----

  /** Removing a node keeps the order of the others. */
  lemma {:induction false} WithoutOrder(list: seq<nat>, x: nat, a: nat, b: nat)
    requires a != x && b != x && a in list && IndexOf(list, a) <= IndexOf(list, b)
    ensures a in Without(list, x) && IndexOf(Without(list, x), a) <= IndexOf(Without(list, x), b)
  {
    if list[0] == x {
      assert list == [x] + list[1..];
    } else if list[0] != a {
      WithoutOrder(list[1..], x, a, b);
      assert Without(list, x)[1..] == Without(list[1..], x);
    } else {
      assert Without(list, x)[0] == a;
    }
  }

  /** A step of another call, which leaves lock, hits and lists alone, keeps it. */
  lemma LockStays(s: State, s': State, id: nat)
    requires Inv(s) && s'.lock == s.lock && s'.hits == s.hits && s'.sent == s.sent
    requires id in s'.calls && s'.calls == s.calls[id := s'.calls[id]]
    requires forall i :: i != id && i in s.nodes ==> i in s'.nodes && s'.nodes[i] == s.nodes[i]
    requires InList(s'.calls[id].pc) ==> id in s.calls && InList(s.calls[id].pc) && s'.calls[id].seqno == s.calls[id].seqno
    requires Reached(s, id) ==> Reached(s', id)
    requires s.lock.Linking? || s.lock.Deleting? ==> s.lock.id != id
    ensures LockFits(s')
  {
    hide Local, IndexOf;
    if s.lock.Walking? && !s.lock.found {
      forall i: nat
        ensures Ahead(s', s.lock.seqno, s.lock.at, i)
      {
        assert Ahead(s, s.lock.seqno, s.lock.at, i);
      }
    }
  }

  lemma StartLock(s: State, e: Event)
    requires Inv(s) && e.Start?
    ensures LockFits(DoStart(s, e))
  {
    hide Local, Shared, NoneFree;
    if e.id !in s.calls && DoStart(s, e) != s {
      LockStays(s, DoStart(s, e), e.id);
    }
  }

  lemma MakeNodeLock(s: State, id: nat, ok: bool)
    requires Inv(s) && !DoMakeNode(s, id, ok).bad
    ensures LockFits(DoMakeNode(s, id, ok))
  {
    hide Ahead, ListedIn, Owns, ResultFits, HeaderFits, Pred, Succ, Unlisted, Shared;
    assert Local(s, id);
    if DoMakeNode(s, id, ok) != s {
      LockStays(s, DoMakeNode(s, id, ok), id);
    }
  }

  lemma NumberLock(s: State, id: nat)
    requires Inv(s) && !DoNumber(s, id).bad
    ensures LockFits(DoNumber(s, id))
  {
    hide Ahead, ListedIn, Owns, ResultFits, HeaderFits, Pred, Succ, Unlisted, Shared;
    assert Local(s, id);
    if DoNumber(s, id) != s {
      LockStays(s, DoNumber(s, id), id);
    }
  }

  lemma SendLock(s: State, id: nat, outcome: Result)
    requires Inv(s) && !DoSend(s, id, outcome).bad
    ensures LockFits(DoSend(s, id, outcome))
  {
    hide Ahead, ListedIn, Owns, ResultFits, HeaderFits, Pred, Succ, Unlisted, Shared;
    assert Local(s, id);
    if DoSend(s, id, outcome) != s {
      LockStays(s, DoSend(s, id, outcome), id);
    }
  }

  lemma FinishLock(s: State, id: nat, answer: Result)
    requires Inv(s) && !DoFinish(s, id, answer).bad
    ensures LockFits(DoFinish(s, id, answer))
  {
    hide Ahead, ListedIn, Owns, ResultFits, HeaderFits, Pred, Succ, Unlisted, Shared;
    assert Local(s, id);
    if DoFinish(s, id, answer) != s {
      LockStays(s, DoFinish(s, id, answer), id);
    }
  }

  lemma FreeHeaderLateLock(s: State, id: nat)
    requires Inv(s) && !DoFreeHeaderLate(s, id).bad
    ensures LockFits(DoFreeHeaderLate(s, id))
  {
    hide Ahead, ListedIn, Owns, ResultFits, HeaderFits, Pred, Succ, Unlisted, Shared;
    assert Local(s, id);
    if DoFreeHeaderLate(s, id) != s {
      LockStays(s, DoFreeHeaderLate(s, id), id);
    }
  }

  lemma UnlinkBeginLock(s: State, id: nat)
    requires Inv(s) && !DoUnlinkBegin(s, id).bad
    ensures LockFits(DoUnlinkBegin(s, id))
  {
    hide Ahead, ListedIn, Owns, ResultFits, HeaderFits, Pred, Succ, Unlisted;
    assert Local(s, id);
    if DoUnlinkBegin(s, id) != s {
      LockStays(s, DoUnlinkBegin(s, id), id);
    }
  }

  lemma FreeNodeLock(s: State, id: nat)
    requires Inv(s) && !DoFreeNode(s, id).bad
    ensures LockFits(DoFreeNode(s, id))
  {
    hide Ahead, ListedIn, Owns, ResultFits, HeaderFits, Pred, Succ, Unlisted, Shared;
    assert Local(s, id);
    if DoFreeNode(s, id) != s {
      LockStays(s, DoFreeNode(s, id), id);
    }
  }

  lemma CheckLock(s: State, e: Event)
    requires Inv(s) && (e.Check? || e.LastCheck? || e.LinkBegin?) && !Do(s, e).bad
    ensures LockFits(Do(s, e))
  {
    hide Ahead, ListedIn, Owns, HeaderFits, Pred, Succ, First;
    assert Local(s, e.id);
  }

  /** A notice starts in front of everything in its bucket. */
  lemma NoticeLockLock(s: State, q: nat)
    requires Inv(s)
    ensures LockFits(DoNoticeLock(s, q))
  {
    hide Local;
    if s.lock == Free {
      var s' := DoNoticeLock(s, q);
      var list := ListOf(s, q);
      if list != [] {
        ListedAllocated(s, list, list[0], Bucket(q));
      }
      forall i: nat
        ensures Ahead(s', q, First(list), i)
      {
        if i in s.calls && InList(s.calls[i].pc) && s.calls[i].seqno == q {
          LinkedListed(s, i);
          assert list != [] && IndexOf(list, list[0]) == 0;
        }
      }
    }
  }

  /** A notice that goes on has not passed the call it looks for. */
  lemma WalkLock(s: State)
    requires Inv(s) && !DoWalk(s).bad
    ensures LockFits(DoWalk(s))
  {
    hide Local;
    if s.lock.Walking? && s.lock.at.Some? {
      var at := s.lock.at.value;
      var q := s.lock.seqno;
      var list := ListOf(s, q);
      var s' := DoWalk(s);
      if s.nodes[at].seqno != q {
        var k := IndexOf(list, at);
        if k + 1 < |list| {
          ListedAllocated(s, list, list[k + 1], Bucket(q));
          SuccIndex(s, list, Bucket(q), k + 1);
        }
        forall i: nat
          ensures Ahead(s', q, Succ(list, at), i)
        {
          assert Ahead(s, q, s.lock.at, i);
          if i in s.calls && InList(s.calls[i].pc) && s.calls[i].seqno == q {
            LinkedListed(s, i);
          }
        }
      }
    }
  }

  /** Nothing is listed twice. */
  lemma SuccIndex(s: State, list: seq<nat>, b: nat, k: nat)
    requires Inv(s) && b < BUCKETS && list == s.sent[b] && k < |list|
    ensures IndexOf(list, list[k]) == k
  {
    hide IndexOf;
    var l := IndexOf(list, list[k]);
    ListedAllocated(s, list, list[k], b);
    LinkedListed(s, list[k]);
    if l != k {
      TwiceListed(list, l, k);
    }
  }

  lemma TwiceListed(list: seq<nat>, k: nat, l: nat)
    requires k < |list| && l < |list| && k != l && list[k] == list[l]
    ensures Times(list, list[k]) >= 2
  {
    var m := if k < l then k else l;
    var n := if k < l then l else k;
    assert list == list[..m] + [list[m]] + list[m + 1..n] + [list[n]] + list[n + 1..];
  }

  /** An unlocked removal does not move a notice past the call it looks for. */
  lemma UnlinkEndLock(s: State, id: nat)
    requires Inv(s) && !DoUnlinkEnd(s, id).bad
    ensures LockFits(DoUnlinkEnd(s, id))
  {
    hide Local, Between, Without, IndexOf;
    if id in s.calls && s.calls[id].pc.FailUnlinking? {
      var s' := DoUnlinkEnd(s, id);
      var p := s.calls[id].seqno;
      LinkedListed(s, id);
      if s.lock.Walking? && !s.lock.found {
        var q, at := s.lock.seqno, s.lock.at;
        forall i: nat
          ensures Ahead(s', q, at, i)
        {
          assert Ahead(s, q, at, i);
          if i in s'.calls && InList(s'.calls[i].pc) && s'.calls[i].seqno == q && Bucket(p) == Bucket(q) {
            StillAhead(ListOf(s, q), id, at.value, i);
          }
        }
        if at.Some? { assert Reached(s, at.value); }
      }
    }
  }

  lemma StillAhead(list: seq<nat>, x: nat, a: nat, i: nat)
    requires i != x && (a in list ==> IndexOf(list, a) <= IndexOf(list, i)) && Times(list, x) <= 1
    ensures a in Without(list, x) ==> IndexOf(Without(list, x), a) <= IndexOf(Without(list, x), i)
  {
    hide IndexOf, Without;
    WithoutTimes(list, x, a);
    assert a in Without(list, x) <==> Times(Without(list, x), a) > 0;
    if a in Without(list, x) {
      assert a in list && (a == x ==> Times(list, x) == 1);
      WithoutOrder(list, x, a, i);
    }
  }

  // ----- Runs -----

  lemma StepKeeps(s: State, e: Event, i: nat)
    requires Inv(s) && !s.bad && Do(s, e).issued < TWO64
    ensures Keeps(s, e, Do(s, e), i)
  {
    hide Local, Shared, LockFits, Harm, Keeps, DoStart, DoMakeNode, DoLinkBegin, DoLinkEnd, DoSend, DoCheck, DoLastCheck, DoDelEnd, DoFinish,
      DoFreeHeaderLate, DoUnlinkBegin, DoUnlinkEnd, DoFreeNode, DoNoticeLock, DoWalk, DoNoticeUnlock;
    match e
    case Start(_, _, _, _) => StartKeeps(s, e, i);
    case MakeNode(id, ok) => MakeNodeKeeps(s, id, ok, i);
    case Number(id) => NumberKeeps(s, id, i);
    case LinkBegin(id) => LinkBeginKeeps(s, id, i);
    case LinkEnd => LinkEndKeeps(s, i);
    case Send(id, outcome) => SendKeeps(s, id, outcome, i);
    case Check(id) => CheckKeeps(s, id, i);
    case LastCheck(id) => LastCheckKeeps(s, id, i);
    case DelEnd => DelEndKeeps(s, i);
    case Finish(id, answer) => FinishKeeps(s, id, answer, i);
    case FreeHeaderLate(id) => FreeHeaderLateKeeps(s, id, i);
    case UnlinkBegin(id) => UnlinkBeginKeeps(s, id, i);
    case UnlinkEnd(id) => UnlinkEndKeeps(s, id, i);
    case FreeNode(id) => FreeNodeKeeps(s, id, i);
    case NoticeLock(q) => NoticeLockKeeps(s, q, i);
    case Walk => WalkKeeps(s, i);
    case NoticeUnlock => NoticeUnlockKeeps(s, i);
  }

  lemma StepLock(s: State, e: Event)
    requires Inv(s) && !s.bad && !Do(s, e).bad
    ensures LockFits(Do(s, e))
  {
    hide Local, LockFits, DoStart, DoMakeNode, DoNumber, DoLinkBegin, DoSend, DoCheck, DoLastCheck, DoFinish, DoFreeHeaderLate,
      DoUnlinkBegin, DoUnlinkEnd, DoFreeNode, DoNoticeLock, DoWalk, Inv;
    match e
    case Start(_, _, _, _) => StartLock(s, e);
    case MakeNode(id, ok) => MakeNodeLock(s, id, ok);
    case Number(id) => NumberLock(s, id);
    case LinkBegin(id) => CheckLock(s, e);
    case LinkEnd => EndLock(s, e);
    case Send(id, outcome) => SendLock(s, id, outcome);
    case Check(id) => CheckLock(s, e);
    case LastCheck(id) => CheckLock(s, e);
    case DelEnd => EndLock(s, e);
    case Finish(id, answer) => FinishLock(s, id, answer);
    case FreeHeaderLate(id) => FreeHeaderLateLock(s, id);
    case UnlinkBegin(id) => UnlinkBeginLock(s, id);
    case UnlinkEnd(id) => UnlinkEndLock(s, id);
    case FreeNode(id) => FreeNodeLock(s, id);
    case NoticeLock(q) => NoticeLockLock(s, q);
    case Walk => WalkLock(s);
    case NoticeUnlock => EndLock(s, e);
  }

  lemma EndLock(s: State, e: Event)
    requires Inv(s) && (e.LinkEnd? || e.DelEnd? || e.NoticeUnlock?) && !Do(s, e).bad
    ensures LockFits(Do(s, e))
  {
    hide Local, Ahead, Between, Without;
  }

  /** Every event of every call and notice keeps the invariant, as long as the 64-bit counter does not wrap; and it goes bad
      exactly by a stale pointer, never by freeing a node that is linked or freed, or a header twice. */
  lemma ApplyInv(s: State, e: Event)
    requires Inv(s) && Apply(s, e).issued < TWO64
    ensures Inv(Apply(s, e))
    ensures !s.bad ==> (Apply(s, e).bad <==> Harm(s, e))
  {
    hide Local, LockFits, Harm, Do;
    if !s.bad {
      BadSameIssued(s, e);
      forall i: nat
        ensures Keeps(s, e, Do(s, e), i)
      {
        StepKeeps(s, e, i);
      }
      assert Keeps(s, e, Do(s, e), 0);
      if Do(s, e).bad {
        WreckInv(s);
      } else {
        StepLock(s, e);
        assert forall i: nat :: Keeps(s, e, Do(s, e), i) ==> Local(Do(s, e), i);
      }
    }
  }

  lemma BadSameIssued(s: State, e: Event)
    requires |s.sent| == BUCKETS && s.issued < TWO64 && !s.bad && Apply(s, e).issued < TWO64
    ensures Do(s, e).issued < TWO64
  {
    hide Without, Unlisted, NoneFree, Between, Pred, Succ;
  }

  lemma WreckInv(s: State)
    requires Inv(s)
    ensures Inv(Wreck(s))
  {
    hide ListedIn, Owns, ResultFits, HeaderFits;
    forall i: nat
      ensures Local(Wreck(s), i)
    {
      assert Local(s, i);
    }
    if s.lock.Walking? && !s.lock.found {
      forall i: nat
        ensures Ahead(Wreck(s), s.lock.seqno, s.lock.at, i)
      {
        assert Ahead(s, s.lock.seqno, s.lock.at, i);
      }
    }
  }

  lemma IssuedGrows(s: State, e: Event)
    requires |s.sent| == BUCKETS
    ensures s.issued <= Apply(s, e).issued
  {
    hide Without, Unlisted, NoneFree, Between, Pred, Succ;
  }

  /** The invariant holds after every run that draws fewer than 2^64 numbers. */
  lemma {:induction false} RunInv(events: seq<Event>)
    requires Run(events).issued < TWO64
    ensures Inv(Run(events))
  {
    hide Apply, Inv, Harm;
    if events == [] {
      InitInv();
    } else {
      var before := events[..|events| - 1];
      var e := events[|events| - 1];
      IssuedGrows(Run(before), e);
      RunInv(before);
      ApplyInv(Run(before), e);
    }
  }

  lemma RunSnoc(events: seq<Event>, e: Event)
    ensures Run(events + [e]) == Apply(Run(events), e)
  {
    assert (events + [e])[..|events|] == events;
  }
}
