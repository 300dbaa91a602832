/**
  Which runs of the command protocol go bad.

  A run goes bad exactly by using a stale pointer, and none does in which no two list operations on one bucket
  overlap. The lock prevents that for all of them but the error path of a failed send, which takes no lock: whenever a
  notice stands on its node, or an insertion has read it as the head, it can pull the node away.
*/
module TddSafety {
  import opened Lists
  import opened TddProtocol

  /** A run goes bad at its first harmful step, and in no other way. */
  lemma {:induction false} BadExactly(events: seq<Event>)
    requires Run(events).issued < TWO64
    ensures Run(events).bad <==> exists k :: 0 <= k < |events| && HarmAt(events, k)
  {
    hide Apply, Inv, Harm;
    if events != [] {
      var n := |events| - 1;
      var before := events[..n];
      IssuedGrows(Run(before), events[n]);
      RunInv(before);
      BadExactly(before);
      ApplyInv(Run(before), events[n]);
      if Run(before).bad { BadStays(Run(before), events[n]); }
      forall k | 0 <= k < n
        ensures HarmAt(events, k) <==> HarmAt(before, k)
      {
        assert before[..k] == events[..k];
      }
      assert HarmAt(events, n) <==> !Run(before).bad && Harm(Run(before), events[n]);
    }
  }

  /** Step `k` of the run does harm, and nothing before it did. */
  ghost predicate HarmAt(events: seq<Event>, k: nat)
    requires k < |events|
  {
    !Run(events[..k]).bad && Harm(Run(events[..k]), events[k])
  }

  lemma BadStays(s: State, e: Event)
    requires |s.sent| == BUCKETS && s.bad
    ensures Apply(s, e) == s
  {
  }

  /** The bucket of the operation that holds the lock. */
  ghost function LockBucket(s: State): Option<nat> {
    match s.lock
    case Free => None
    case Linking(id, _) => if id in s.calls then Some(Bucket(s.calls[id].seqno)) else None
    case Deleting(id, _, _, _) => if id in s.calls then Some(Bucket(s.calls[id].seqno)) else None
    case Walking(q, _, _) => Some(Bucket(q))
  }

  /** The error path of call `i` is in the middle of unlinking from bucket `b`. */
  ghost predicate Unlinking(s: State, i: nat, b: nat) {
    i in s.calls && s.calls[i].pc.FailUnlinking? && Bucket(s.calls[i].seqno) == b
  }

  /** A list operation on bucket `b` is in progress. */
  ghost predicate Busy(s: State, b: nat) { LockBucket(s) == Some(b) || exists i :: Unlinking(s, i, b) }

  /** The bucket of the list operation the event starts, if it starts one. */
  ghost function Starts(s: State, e: Event): Option<nat> {
    match e
    case LinkBegin(id) => if At(s, id, Numbered) && s.lock == Free then Some(Bucket(s.calls[id].seqno)) else None
    case Check(id) =>
      if IsWaiting(s, id) && s.calls[id].pc.left > 0 && s.lock == Free && id in s.nodes && s.nodes[id].handled
      then Some(Bucket(s.calls[id].seqno)) else None
    case LastCheck(id) =>
      if IsWaiting(s, id) && s.calls[id].pc.left == 0 && s.lock == Free then Some(Bucket(s.calls[id].seqno)) else None
    case NoticeLock(q) => if s.lock == Free then Some(Bucket(q)) else None
    case UnlinkBegin(id) => if At(s, id, FailFreed) then Some(Bucket(s.calls[id].seqno)) else None
    case _ => None
  }

  /** Two list operations on one bucket overlap. */
  ghost predicate Clash(s: State, e: Event) { Starts(s, e).Some? && Busy(s, Starts(s, e).value) }

  ghost predicate NoClash(events: seq<Event>) {
    forall k :: 0 <= k < |events| ==> !Clash(Run(events[..k]), events[k])
  }

  /** The pointers an unlocked removal has read are those of the list, and nothing else is at work on its bucket. */
  ghost predicate Alone(s: State, i: nat)
    requires |s.sent| == BUCKETS
  {
    i in s.calls && s.calls[i].pc.FailUnlinking? ==>
      var c := s.calls[i];
      && Between(ListOf(s, c.seqno), i, c.pc.pred, c.pc.next)
      && LockBucket(s) != Some(Bucket(c.seqno))
      && forall j :: Unlinking(s, j, Bucket(c.seqno)) ==> j == i
  }

  /** The pointers the holder of the lock has read are those of the list. */
  ghost predicate LockCurrent(s: State)
    requires |s.sent| == BUCKETS
  {
    match s.lock
    case Free => true
    case Linking(id, first) => id in s.calls && First(ListOf(s, s.calls[id].seqno)) == first
    case Deleting(id, pred, next, _) => id in s.calls && Between(ListOf(s, s.calls[id].seqno), id, pred, next)
    case Walking(q, at, _) => at.Some? ==> at.value in ListOf(s, q)
  }

  ghost predicate Current(s: State)
    requires |s.sent| == BUCKETS
  {
    LockCurrent(s) && forall i: nat :: Alone(s, i)
  }

  /** With current pointers no step does harm. */
  lemma CurrentHarmless(s: State, e: Event)
    requires Inv(s) && Current(s)
    ensures !Harm(s, e)
  {
    hide Local, Between, First;
    match e
    case UnlinkEnd(id) => assert Alone(s, id);
    case Walk =>
      if s.lock.Walking? && s.lock.at.Some? {
        ListedAllocated(s, ListOf(s, s.lock.seqno), s.lock.at.value, Bucket(s.lock.seqno));
      }
    case _ =>
  }

  /** A step that changes neither lists nor lock, nor starts or ends an unlocked removal, keeps them current. */
  lemma PlainCurrent(s: State, s': State, id: nat)
    requires Inv(s) && Current(s) && s'.lock == s.lock && s'.sent == s.sent
    requires id in s'.calls && s'.calls == s.calls[id := s'.calls[id]]
    requires !s'.calls[id].pc.FailUnlinking? && (id in s.calls ==> !s.calls[id].pc.FailUnlinking?)
    requires s.lock.Linking? || s.lock.Deleting? ==> s.lock.id != id
    ensures Current(s')
  {
    hide Local, Between, First;
    assert LockBucket(s') == LockBucket(s);
    forall i: nat
      ensures Alone(s', i)
    {
      assert Alone(s, i);
      assert forall j, b :: Unlinking(s', j, b) <==> Unlinking(s, j, b);
    }
  }

  lemma StartCurrent(s: State, e: Event)
    requires Inv(s) && Current(s) && e.Start?
    ensures Current(DoStart(s, e))
  {
    hide Local, Between, First, NoneFree;
    if DoStart(s, e) != s {
      PlainCurrent(s, DoStart(s, e), e.id);
    }
  }

  lemma MakeNodeCurrent(s: State, e: Event)
    requires Inv(s) && Current(s) && !Do(s, e).bad && e.MakeNode?
    ensures Current(Do(s, e))
  {
    hide Local, Between, First, Alone, LockCurrent, Unlisted, Shared;
    if Do(s, e) != s {
      PlainCurrent(s, Do(s, e), e.id);
    }
  }

  lemma NumberCurrent(s: State, e: Event)
    requires Inv(s) && Current(s) && !Do(s, e).bad && e.Number?
    ensures Current(Do(s, e))
  {
    hide Local, Between, First, Alone, LockCurrent, Unlisted, Shared;
    if Do(s, e) != s {
      PlainCurrent(s, Do(s, e), e.id);
    }
  }

  lemma SendCurrent(s: State, e: Event)
    requires Inv(s) && Current(s) && !Do(s, e).bad && (e.Send?)
    ensures Current(Do(s, e))
  {
    hide Local, Between, First, Alone, LockCurrent, Unlisted, Shared;
    if Do(s, e) != s {
      PlainCurrent(s, Do(s, e), e.id);
    }
  }

  lemma LateCurrent(s: State, e: Event)
    requires Inv(s) && Current(s) && !Do(s, e).bad && (e.Finish? || e.FreeHeaderLate? || e.FreeNode?)
    ensures Current(Do(s, e))
  {
    hide Local, Between, First, Alone, LockCurrent, Unlisted, Shared;
    if Do(s, e) != s {
      PlainCurrent(s, Do(s, e), e.id);
    }
  }

  /** Taking the lock for an operation on a bucket nobody is at work on. */
  lemma LockTaken(s: State, s': State)
    requires Inv(s) && Current(s) && s.lock == Free && s' == s.(lock := s'.lock, nodes := s'.nodes)
    requires LockCurrent(s') && LockBucket(s').Some? && !Busy(s, LockBucket(s').value)
    ensures Current(s')
  {
    hide Local, Between, First, LockCurrent;
    forall i: nat
      ensures Alone(s', i)
    {
      assert Alone(s, i);
      assert forall j, b :: Unlinking(s', j, b) <==> Unlinking(s, j, b);
      if i in s.calls && s.calls[i].pc.FailUnlinking? {
        assert Unlinking(s, i, Bucket(s.calls[i].seqno));
      }
    }
  }

  lemma TakeCurrent(s: State, e: Event)
    requires Inv(s) && Current(s) && !Do(s, e).bad && !Clash(s, e)
    requires e.LinkBegin? || e.LastCheck? || e.Check? || e.NoticeLock?
    ensures Current(Do(s, e))
  {
    hide Local, Alone;
    var s' := Do(s, e);
    if s' != s {
      if Starts(s, e).Some? {
        TakenPointers(s, e);
        LockTaken(s, s');
      } else {
        PlainCurrent(s, s', e.id);
      }
    }
  }

  lemma TakenPointers(s: State, e: Event)
    requires Inv(s) && !Do(s, e).bad && Starts(s, e).Some? && !e.UnlinkBegin?
    ensures var s' := Do(s, e);
            s.lock == Free && s' == s.(lock := s'.lock, nodes := s'.nodes) && LockCurrent(s') && LockBucket(s') == Starts(s, e)
  {
    hide Local, IndexOf;
    if e.Check? || e.LastCheck? {
      LinkedListed(s, e.id);
    }
  }

  /** An unlocked removal starts on a bucket nobody is at work on. */
  lemma UnlinkBeginCurrent(s: State, id: nat)
    requires Inv(s) && Current(s) && !DoUnlinkBegin(s, id).bad && !Clash(s, UnlinkBegin(id))
    ensures Current(DoUnlinkBegin(s, id))
  {
    hide Local, Pred, Succ, First;
    if At(s, id, FailFreed) {
      var s' := DoUnlinkBegin(s, id);
      var b := Bucket(s.calls[id].seqno);
      assert !Busy(s, b);
      LinkedListed(s, id);
      assert LockBucket(s') == LockBucket(s);
      forall i: nat
        ensures Alone(s', i)
      {
        assert Alone(s, i);
        assert forall j, a :: Unlinking(s', j, a) <==> Unlinking(s, j, a) || (j == id && a == b);
        if i in s.calls && s.calls[i].pc.FailUnlinking? {
          assert Unlinking(s, i, Bucket(s.calls[i].seqno));
        }
      }
    }
  }

  /** The end of an operation changes the list of its own bucket only, on which nothing else is at work. */
  lemma UnlinkEndCurrent(s: State, id: nat)
    requires Inv(s) && Current(s) && !DoUnlinkEnd(s, id).bad
    ensures Current(DoUnlinkEnd(s, id))
  {
    hide Local, Between, First, Without;
    if id in s.calls && s.calls[id].pc.FailUnlinking? {
      var s' := DoUnlinkEnd(s, id);
      var b := Bucket(s.calls[id].seqno);
      assert Alone(s, id);
      assert LockBucket(s') == LockBucket(s);
      forall i: nat
        ensures Alone(s', i)
      {
        assert Alone(s, i);
        assert forall j, a :: Unlinking(s', j, a) ==> Unlinking(s, j, a);
        assert Unlinking(s, i, b) ==> i == id;
      }
    }
  }

  /** The same for an operation that holds the lock; `s'` is the state after it. */
  lemma ReleaseCurrent(s: State, s': State, id: nat)
    requires Inv(s) && Current(s) && s'.lock == Free && id in s.calls && |s'.sent| == BUCKETS
    requires s.lock.Linking? || s.lock.Deleting?
    requires s.lock.id == id && id in s'.calls && s'.calls == s.calls[id := s'.calls[id]]
    requires !s.calls[id].pc.FailUnlinking? && !s'.calls[id].pc.FailUnlinking?
    requires forall k :: 0 <= k < BUCKETS && k != Bucket(s.calls[id].seqno) ==> s'.sent[k] == s.sent[k]
    ensures Current(s')
  {
    hide Local, Between, First;
    forall i: nat
      ensures Alone(s', i)
    {
      assert Alone(s, i);
      assert forall j, a :: Unlinking(s', j, a) <==> Unlinking(s, j, a);
    }
  }

  lemma EndCurrent(s: State, e: Event)
    requires Inv(s) && Current(s) && !Do(s, e).bad && (e.LinkEnd? || e.DelEnd?)
    ensures Current(Do(s, e))
  {
    hide Local, Between, First, Without, Alone, LockCurrent;
    if Do(s, e) != s {
      ReleaseCurrent(s, Do(s, e), s.lock.id);
    }
  }

  /** A notice goes from listed node to listed node. */
  lemma WalkCurrent(s: State, e: Event)
    requires Inv(s) && Current(s) && !Do(s, e).bad && (e.Walk? || e.NoticeUnlock?)
    ensures Current(Do(s, e))
  {
    hide Local, Between, First;
    var s' := Do(s, e);
    assert s'.sent == s.sent && s'.calls == s.calls;
    forall i: nat
      ensures Alone(s', i)
    {
      assert Alone(s, i);
      assert forall j, a :: Unlinking(s', j, a) <==> Unlinking(s, j, a);
    }
  }

  lemma StepCurrent(s: State, e: Event)
    requires Inv(s) && Current(s) && !s.bad && !Do(s, e).bad && !Clash(s, e)
    ensures Current(Do(s, e))
  {
    hide Local, Current, Clash, Inv, DoStart, DoMakeNode, DoNumber, DoLinkBegin, DoLinkEnd, DoSend, DoCheck, DoLastCheck, DoDelEnd,
      DoFinish, DoFreeHeaderLate, DoUnlinkBegin, DoUnlinkEnd, DoFreeNode, DoNoticeLock, DoWalk, DoNoticeUnlock;
    match e
    case Start(_, _, _, _) => StartCurrent(s, e);
    case MakeNode(_, _) => MakeNodeCurrent(s, e);
    case Number(_) => NumberCurrent(s, e);
    case LinkBegin(_) => TakeCurrent(s, e);
    case LinkEnd => EndCurrent(s, e);
    case Send(_, _) => SendCurrent(s, e);
    case Check(_) => TakeCurrent(s, e);
    case LastCheck(_) => TakeCurrent(s, e);
    case DelEnd => EndCurrent(s, e);
    case Finish(_, _) => LateCurrent(s, e);
    case FreeHeaderLate(_) => LateCurrent(s, e);
    case UnlinkBegin(id) => UnlinkBeginCurrent(s, id);
    case UnlinkEnd(id) => UnlinkEndCurrent(s, id);
    case FreeNode(_) => LateCurrent(s, e);
    case NoticeLock(_) => TakeCurrent(s, e);
    case Walk => WalkCurrent(s, e);
    case NoticeUnlock => WalkCurrent(s, e);
  }

  /** Memory safety: a run in which no two list operations on one bucket overlap is never bad. So no node is unlinked while
      not linked, freed while linked or freed already, or followed after it was freed, and no header is freed twice. */
  lemma {:induction false} NeverBad(events: seq<Event>)
    requires Run(events).issued < TWO64 && NoClash(events)
    ensures !Run(events).bad && Current(Run(events))
  {
    hide Inv, Harm, Clash, Current, Do;
    if events == [] {
      InitCurrent();
    } else {
      var n := |events| - 1;
      var before := events[..n];
      IssuedGrows(Run(before), events[n]);
      assert NoClash(before) by {
        forall k | 0 <= k < n
          ensures !Clash(Run(before[..k]), before[k])
        {
          assert before[..k] == events[..k];
        }
      }
      NeverBad(before);
      RunInv(before);
      ApplyInv(Run(before), events[n]);
      CurrentHarmless(Run(before), events[n]);
      StepCurrent(Run(before), events[n]);
    }
  }

  lemma InitCurrent()
    ensures Current(Init) && !Init.bad
  {
  }

  /** The lock keeps all other operations apart: if they overlap, one of them is the error path of a failed send. */
  lemma ClashNeedsFailure(s: State, e: Event)
    requires Clash(s, e)
    ensures e.UnlinkBegin? || exists i, b :: Unlinking(s, i, b)
  {
  }

  ghost predicate Failing(pc: Pc) { pc.FailSent? || pc.FailFreed? || pc.FailUnlinking? }

  /** No call is on the error path. */
  ghost predicate Smooth(s: State) { forall i :: i in s.calls ==> !Failing(s.calls[i].pc) }

  /** In particular, a run in which no send fails, so that no call is ever on the error path, is never bad. */
  lemma SafeWithoutFailure(events: seq<Event>)
    requires Run(events).issued < TWO64 && forall k :: 0 <= k < |events| ==> Smooth(Run(events[..k]))
    ensures !Run(events).bad
  {
    hide Run, Current;
    forall k | 0 <= k < |events|
      ensures !Clash(Run(events[..k]), events[k])
    {
      if Clash(Run(events[..k]), events[k]) {
        ClashNeedsFailure(Run(events[..k]), events[k]);
      }
    }
    NeverBad(events);
  }

  // ----- Runs that go bad -----

  /** The error path unlinks its node. */
  lemma Unlinks(s: State, id: nat)
    requires Inv(s) && !s.bad && At(s, id, FailFreed)
    ensures var s' := Apply(Apply(s, UnlinkBegin(id)), UnlinkEnd(id));
            && !s'.bad && At(s', id, FailUnlinked) && s'.lock == s.lock && s'.nodes == s.nodes
            && s'.calls == s.calls[id := s'.calls[id]] && s'.calls[id].seqno == s.calls[id].seqno
            && ListOf(s', s.calls[id].seqno) == Without(ListOf(s, s.calls[id].seqno), id)
  {
    hide Local, Pred, Succ, Without, Do;
    LinkedListed(s, id);
    UnlinksHalf(s, id);
    UnlinksRest(DoUnlinkBegin(s, id), id);
  }

  lemma UnlinksHalf(s: State, id: nat)
    requires |s.sent| == BUCKETS && !s.bad && At(s, id, FailFreed) && id in ListOf(s, s.calls[id].seqno)
    ensures Do(s, UnlinkBegin(id)) == DoUnlinkBegin(s, id) && !DoUnlinkBegin(s, id).bad
  {
    hide Pred, Succ;
  }

  lemma UnlinksRest(s: State, id: nat)
    requires |s.sent| == BUCKETS && !s.bad && id in s.calls && s.calls[id].pc.FailUnlinking?
    requires Between(ListOf(s, s.calls[id].seqno), id, s.calls[id].pc.pred, s.calls[id].pc.next)
    ensures Do(s, UnlinkEnd(id)) == DoUnlinkEnd(s, id) && !DoUnlinkEnd(s, id).bad
  {
    hide Between, Without;
  }

  /** In every state where a notice stands on the node of a failed send, the error path can free the node under it: the
      next look at it goes bad. */
  lemma WalkerCaught(events: seq<Event>, id: nat)
    requires Run(events).issued < TWO64
    requires var s := Run(events); !s.bad && s.lock.Walking? && s.lock.at == Some(id) && At(s, id, FailFreed)
    ensures Run(events + [UnlinkBegin(id)] + [UnlinkEnd(id)] + [FreeNode(id)] + [Walk]).bad
  {
    hide Run, Local, Apply;
    RunInv(events);
    var s := Run(events);
    RunSnoc(events, UnlinkBegin(id));
    RunSnoc(events + [UnlinkBegin(id)], UnlinkEnd(id));
    RunSnoc(events + [UnlinkBegin(id)] + [UnlinkEnd(id)], FreeNode(id));
    RunSnoc(events + [UnlinkBegin(id)] + [UnlinkEnd(id)] + [FreeNode(id)], Walk);
    Unlinks(s, id);
    FreedUnderWalk(Run(events + [UnlinkBegin(id)] + [UnlinkEnd(id)]), id);
  }

  lemma FreedUnderWalk(s: State, id: nat)
    requires |s.sent| == BUCKETS && !s.bad && At(s, id, FailUnlinked) && s.lock.Walking? && s.lock.at == Some(id)
    ensures Apply(Apply(s, FreeNode(id)), Walk).bad
  {
    hide Unlisted;
  }

  /** In every state where an insertion has read the node of a failed send as the head of its bucket, the error path can
      unlink that node in between: the insertion goes bad. */
  lemma InsertionCaught(events: seq<Event>, id: nat)
    requires Run(events).issued < TWO64
    requires var s := Run(events);
             && !s.bad && s.lock.Linking? && s.lock.first == Some(id) && At(s, id, FailFreed)
             && s.lock.id in s.calls && Bucket(s.calls[s.lock.id].seqno) == Bucket(s.calls[id].seqno)
    ensures Run(events + [UnlinkBegin(id)] + [UnlinkEnd(id)] + [LinkEnd]).bad
  {
    hide Run, Local, Without, Apply;
    RunInv(events);
    var s := Run(events);
    RunSnoc(events, UnlinkBegin(id));
    RunSnoc(events + [UnlinkBegin(id)], UnlinkEnd(id));
    RunSnoc(events + [UnlinkBegin(id)] + [UnlinkEnd(id)], LinkEnd);
    Unlinks(s, id);
    LinkedListed(s, id);
    WithoutTimes(ListOf(s, s.calls[id].seqno), id, id);
    var t := Run(events + [UnlinkBegin(id)] + [UnlinkEnd(id)]);
    assert t.calls[s.lock.id] == s.calls[s.lock.id];
    HeadGone(t, id);
  }

  lemma HeadGone(t: State, id: nat)
    requires |t.sent| == BUCKETS && !t.bad && t.lock.Linking? && t.lock.id in t.calls && t.lock.first == Some(id)
    requires Times(ListOf(t, t.calls[t.lock.id].seqno), id) == 0
    ensures Apply(t, LinkEnd).bad
  {
  }

  /** One call, whose send has failed, while a notice has just reached its node. */
  const Exposed: State :=
    State(map[0 := Call(true, false, FailFreed, Some(0), 1, SendFailed)], map[0 := Node(1, false)], Empty(BUCKETS)[1 := [0]],
          Walking(1, Some(0), false), map[], 1, 1, map[1 := 0], {}, false)

  function Prelude(): seq<Event> {
    [Start(0, true, false, Some(0)), MakeNode(0, true), Number(0), LinkBegin(0), LinkEnd]
  }

  function Exposing(): seq<Event> { Prelude() + [NoticeLock(1)] + [Send(0, SendFailed)] + [FreeHeaderLate(0)] }

  /** The call after its node was linked. */
  const Joined: State :=
    State(map[0 := Call(true, false, Linked, Some(0), 1, Pending)], map[0 := Node(1, false)], Empty(BUCKETS)[1 := [0]],
          Free, map[0 := 0], 1, 1, map[1 := 0], {}, false)

  /** The call once it has drawn its number. */
  const Counted: State :=
    State(map[0 := Call(true, false, Numbered, Some(0), 1, Pending)], map[0 := Node(0, false)], Empty(BUCKETS),
          Free, map[0 := 0], 1, 1, map[1 := 0], {}, false)

  lemma CountedReached()
    ensures Run(Prelude()[..3]) == Counted
  {
    hide Run, Empty;
    var e := Prelude()[..3];
    assert e[..0] == [] && e[..1] == e[..0] + [e[0]] && e[..2] == e[..1] + [e[1]] && e == e[..2] + [e[2]];
    RunSnoc(e[..0], e[0]);
    RunSnoc(e[..1], e[1]);
    RunSnoc(e[..2], e[2]);
    NoRun();
    var c := Call(true, false, HasHeader, Some(0), 0, Pending);
    var s1 := Init.(calls := map[0 := c], used := map[0 := 0]);
    assert Run(e[..1]) == s1;
    var s2 := s1.(calls := map[0 := c.(pc := HasNode)], nodes := map[0 := Node(0, false)]);
    assert Run(e[..2]) == s2;
  }

  const Joining: State := Counted.(nodes := map[0 := Node(1, false)], lock := Linking(0, None))

  lemma JoiningNext()
    ensures Apply(Counted, LinkBegin(0)) == Joining
  {
    assert DoLinkBegin(Counted, 0) == Joining;
  }

  lemma JoinedNext()
    ensures Apply(Joining, LinkEnd) == Joined
  {
    assert [0] + Empty(BUCKETS)[1] == [0];
    assert DoLinkEnd(Joining) == Joined;
  }

  lemma JoinedReached()
    ensures Run(Prelude()) == Joined
  {
    hide Run, Apply;
    var e := Prelude();
    CountedReached();
    assert e[..4] == e[..3] + [e[3]] && e == e[..4] + [e[4]];
    RunSnoc(e[..3], e[3]);
    RunSnoc(e[..4], e[4]);
    JoiningNext();
    JoinedNext();
  }

  lemma NoRun()
    ensures Run([]) == Init
  {
  }

  const Noticed: State := Joined.(lock := Walking(1, Some(0), false))

  const Failed: State := Noticed.(calls := map[0 := Call(true, false, FailSent, Some(0), 1, SendFailed)])

  lemma NoticedNext()
    ensures Apply(Joined, NoticeLock(1)) == Noticed
  {
    hide Empty;
    assert ListOf(Joined, 1) == [0];
  }

  lemma FailedNext()
    ensures Apply(Noticed, Send(0, SendFailed)) == Failed
  {
    hide Empty;
    assert DoSend(Noticed, 0, SendFailed) == Failed;
  }

  lemma ExposedNext()
    ensures Apply(Failed, FreeHeaderLate(0)) == Exposed
  {
    hide Empty;
    assert DoFreeHeaderLate(Failed, 0) == Exposed;
  }

  lemma ExposedReached()
    ensures Run(Exposing()) == Exposed
  {
    hide Run, Apply;
    JoinedReached();
    RunSnoc(Prelude(), NoticeLock(1));
    RunSnoc(Prelude() + [NoticeLock(1)], Send(0, SendFailed));
    RunSnoc(Prelude() + [NoticeLock(1)] + [Send(0, SendFailed)], FreeHeaderLate(0));
    NoticedNext();
    FailedNext();
    ExposedNext();
  }

  /** A run that goes bad: a notice is on its way when the send it is about fails, and looks at a node that is freed. */
  lemma RaceReachable()
    ensures Run(Exposing() + [UnlinkBegin(0)] + [UnlinkEnd(0)] + [FreeNode(0)] + [Walk]).bad
  {
    hide Run;
    ExposedReached();
    WalkerCaught(Exposing(), 0);
  }
}
