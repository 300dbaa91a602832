/**
  What the invariant of the command protocol says about buckets, results, notices and headers, in every run.
*/
module TddResults {
  import opened Lists
  import opened TddProtocol

  /** Bucketed nodes have distinct sequence numbers, congruent to their bucket. */
  lemma BucketsDistinct(events: seq<Event>, j: nat, k: nat, j': nat, k': nat)
    requires Run(events).issued < TWO64
    requires j < BUCKETS && k < |Run(events).sent[j]| && j' < BUCKETS && k' < |Run(events).sent[j']|
    ensures var s := Run(events); var a := s.sent[j][k]; var b := s.sent[j'][k'];
            && a in s.nodes && b in s.nodes && s.nodes[a].seqno % BUCKETS == j
            && (s.nodes[a].seqno == s.nodes[b].seqno ==> j == j' && k == k')
  {
    hide Run, CallFits, LockFits, IndexOf;
    RunInv(events);
    var s := Run(events);
    var a := s.sent[j][k];
    var b := s.sent[j'][k'];
    ListedAllocated(s, s.sent[j], a, j);
    ListedAllocated(s, s.sent[j'], b, j');
    NumberOwner(s, a);
    NumberOwner(s, b);
    SuccIndex(s, s.sent[j], j, k);
    SuccIndex(s, s.sent[j'], j', k');
  }

  lemma NumberOwner(s: State, a: nat)
    requires Inv(s) && a in s.calls && s.calls[a].seqno != 0
    ensures s.calls[a].seqno in s.drawn && s.drawn[s.calls[a].seqno] == a
  {
    assert Local(s, a);
  }

  /** An asynchronous call succeeds only if a notice with its own number found its node, and times out only if none did; the
      notice is an event of the run. */
  lemma ResultNeedsNotice(events: seq<Event>, id: nat)
    requires Run(events).issued < TWO64 && id in Run(events).calls && Run(events).calls[id].isAsync
    ensures var s := Run(events); var c := s.calls[id];
            && (c.result == Success ==> c.seqno in s.hits && NoticeLock(c.seqno) in events)
            && (c.result == Timeout ==> c.seqno !in s.hits)
  {
    hide Run, ListedIn, Owns, LockFits;
    RunInv(events);
    var s := Run(events);
    assert Local(s, id);
    if s.calls[id].seqno in s.hits {
      HitsAreNotices(events, s.calls[id].seqno);
    }
  }

  /** A node is only ever marked by a notice of the run. */
  lemma {:induction false} HitsAreNotices(events: seq<Event>, q: nat)
    requires q in Run(events).hits || (Run(events).lock.Walking? && Run(events).lock.seqno == q)
    ensures NoticeLock(q) in events
  {
    hide Apply;
    if events != [] {
      var before := events[..|events| - 1];
      var e := events[|events| - 1];
      if q in Run(before).hits || (Run(before).lock.Walking? && Run(before).lock.seqno == q) {
        HitsAreNotices(before, q);
      } else {
        OnlyNoticesHit(Run(before), e, q);
      }
    }
  }

  /** A step of call `id` keeps its request, leaves the other calls alone, marks nothing and starts no walk; a `plain` one
      keeps its result too. */
  ghost predicate Moves(s: State, s': State, id: nat, plain: bool) {
    && s'.hits == s.hits && (s'.lock.Walking? ==> s'.lock == s.lock)
    && (s'.calls == s.calls
        || (id in s.calls && id in s'.calls && s'.calls == s.calls[id := s'.calls[id]] && SameRequest(s.calls[id], s'.calls[id])
            && (plain ==> s'.calls[id].result == s.calls[id].result)))
  }

  ghost predicate SameRequest(c: Call, d: Call) {
    d.isAsync == c.isAsync && d.overLimit == c.overLimit && d.header == c.header
  }

  lemma MakeNodeMoves(s: State, id: nat, ok: bool)
    requires |s.sent| == BUCKETS
    ensures Moves(s, DoMakeNode(s, id, ok), id, false)
  {
    hide Between, Without, Unlisted, Pred, Succ, First;
  }

  lemma NumberMoves(s: State, id: nat)
    requires |s.sent| == BUCKETS
    ensures Moves(s, DoNumber(s, id), id, true)
  {
    hide Between, Without, Unlisted, Pred, Succ, First;
  }

  lemma LinkBeginMoves(s: State, id: nat)
    requires |s.sent| == BUCKETS
    ensures Moves(s, DoLinkBegin(s, id), id, true)
  {
    hide Between, Without, Unlisted, Pred, Succ, First;
  }

  lemma LinkEndMoves(s: State)
    requires |s.sent| == BUCKETS
    ensures Moves(s, DoLinkEnd(s), if s.lock.Linking? then s.lock.id else 0, true)
  {
    hide Between, Without, Unlisted, Pred, Succ, First;
  }

  lemma SendMoves(s: State, id: nat, outcome: Result)
    requires |s.sent| == BUCKETS
    ensures Moves(s, DoSend(s, id, outcome), id, false)
  {
    hide Between, Without, Unlisted, Pred, Succ, First;
  }

  lemma CheckMoves(s: State, id: nat)
    requires |s.sent| == BUCKETS
    ensures Moves(s, DoCheck(s, id), id, true)
  {
    hide Between, Without, Unlisted, Pred, Succ, First;
  }

  lemma LastCheckMoves(s: State, id: nat)
    requires |s.sent| == BUCKETS
    ensures Moves(s, DoLastCheck(s, id), id, true)
  {
    hide Between, Without, Unlisted, Pred, Succ, First;
  }

  lemma DelEndMoves(s: State)
    requires |s.sent| == BUCKETS
    ensures Moves(s, DoDelEnd(s), if s.lock.Deleting? then s.lock.id else 0, false)
  {
    hide Between, Without, Unlisted, Pred, Succ, First;
  }

  lemma FinishMoves(s: State, id: nat, answer: Result)
    requires |s.sent| == BUCKETS
    ensures Moves(s, DoFinish(s, id, answer), id, false)
  {
    hide Between, Without, Unlisted, Pred, Succ, First;
  }

  lemma FreeHeaderLateMoves(s: State, id: nat)
    requires |s.sent| == BUCKETS
    ensures Moves(s, DoFreeHeaderLate(s, id), id, true)
  {
    hide Between, Without, Unlisted, Pred, Succ, First;
  }

  lemma UnlinkBeginMoves(s: State, id: nat)
    requires |s.sent| == BUCKETS
    ensures Moves(s, DoUnlinkBegin(s, id), id, true)
  {
    hide Between, Without, Unlisted, Pred, Succ, First;
  }

  lemma UnlinkEndMoves(s: State, id: nat)
    requires |s.sent| == BUCKETS
    ensures Moves(s, DoUnlinkEnd(s, id), id, true)
  {
    hide Between, Without, Unlisted, Pred, Succ, First;
  }

  lemma FreeNodeMoves(s: State, id: nat)
    requires |s.sent| == BUCKETS
    ensures Moves(s, DoFreeNode(s, id), id, true)
  {
    hide Between, Without, Unlisted, Pred, Succ, First;
  }

  /** The events that may decide a result. */
  predicate Decisive(e: Event) { e.MakeNode? || e.Send? || e.DelEnd? || e.Finish? }

  /** All events but a start and those of a notice are steps of one call. */
  lemma CallMoves(s: State, e: Event) returns (i: nat)
    requires |s.sent| == BUCKETS && !e.Start? && !e.NoticeLock? && !e.Walk? && !e.NoticeUnlock?
    ensures Moves(s, Do(s, e), i, !Decisive(e)) && (e.MakeNode? || e.Send? || e.Finish? ==> i == e.id)
    ensures e.DelEnd? && s.lock.Deleting? ==> i == s.lock.id
  {
    hide Moves, DoStart, DoMakeNode, DoNumber, DoLinkBegin, DoLinkEnd, DoSend, DoCheck, DoLastCheck, DoDelEnd, DoFinish,
      DoFreeHeaderLate, DoUnlinkBegin, DoUnlinkEnd, DoFreeNode;
    i := if e.LinkEnd? then (if s.lock.Linking? then s.lock.id else 0)
         else if e.DelEnd? then (if s.lock.Deleting? then s.lock.id else 0)
         else e.id;
    match e
    case MakeNode(id, ok) => MakeNodeMoves(s, id, ok);
    case Number(id) => NumberMoves(s, id);
    case LinkBegin(id) => LinkBeginMoves(s, id);
    case LinkEnd => LinkEndMoves(s);
    case Send(id, outcome) => SendMoves(s, id, outcome);
    case Check(id) => CheckMoves(s, id);
    case LastCheck(id) => LastCheckMoves(s, id);
    case DelEnd => DelEndMoves(s);
    case Finish(id, answer) => FinishMoves(s, id, answer);
    case FreeHeaderLate(id) => FreeHeaderLateMoves(s, id);
    case UnlinkBegin(id) => UnlinkBeginMoves(s, id);
    case UnlinkEnd(id) => UnlinkEndMoves(s, id);
    case FreeNode(id) => FreeNodeMoves(s, id);
  }

  lemma StartMoves(s: State, e: Event, id: nat)
    requires e.Start? && |s.sent| == BUCKETS
    ensures var s' := Do(s, e);
            && s'.hits == s.hits && s'.lock == s.lock
            && (id in s.calls ==> id in s'.calls && s'.calls[id] == s.calls[id])
            && (id in s'.calls && id !in s.calls ==>
                  e == Start(id, s'.calls[id].isAsync, s'.calls[id].overLimit, s'.calls[id].header))
  {
    hide NoneFree, DoMakeNode, DoNumber, DoLinkBegin, DoLinkEnd, DoSend, DoCheck, DoLastCheck, DoDelEnd, DoFinish,
      DoFreeHeaderLate, DoUnlinkBegin, DoUnlinkEnd, DoFreeNode, DoNoticeLock, DoWalk, DoNoticeUnlock;
  }

  lemma NoticeMoves(s: State, e: Event)
    requires |s.sent| == BUCKETS && (e.NoticeLock? || e.Walk? || e.NoticeUnlock?)
    ensures var s' := Do(s, e);
            && s'.calls == s.calls
            && (forall q :: q in s'.hits && q !in s.hits ==> s.lock.Walking? && q == s.lock.seqno)
            && (s'.lock.Walking? && !s.lock.Walking? ==> e == NoticeLock(s'.lock.seqno))
            && (s'.lock.Walking? && s.lock.Walking? ==> s'.lock.seqno == s.lock.seqno)
  {
    hide First, Succ;
  }

  lemma OnlyNoticesHit(s: State, e: Event, q: nat)
    requires |s.sent| == BUCKETS && q !in s.hits && !(s.lock.Walking? && s.lock.seqno == q)
    requires q in Apply(s, e).hits || (Apply(s, e).lock.Walking? && Apply(s, e).lock.seqno == q)
    ensures e == NoticeLock(q)
  {
    hide Do;
    if e.Start? {
      StartMoves(s, e, 0);
    } else if e.NoticeLock? || e.Walk? || e.NoticeUnlock? {
      NoticeMoves(s, e);
    } else {
      var i := CallMoves(s, e);
    }
  }

  /** A notice that has come to its end has marked the node with its number, or no linked call has that number, whatever the
      error path took out of the bucket meanwhile. */
  lemma NoticeReaches(events: seq<Event>)
    requires Run(events).issued < TWO64 && Run(events).lock.Walking? && Run(events).lock.at.None?
    ensures var s := Run(events); var q := s.lock.seqno;
            if s.lock.found then q in s.hits
            else forall i :: i in s.calls && InList(s.calls[i].pc) ==> s.calls[i].seqno != q
  {
    hide Run, Local, IndexOf;
    RunInv(events);
    var s := Run(events);
    if !s.lock.found {
      forall i | i in s.calls && InList(s.calls[i].pc)
        ensures s.calls[i].seqno != s.lock.seqno
      {
        assert Ahead(s, s.lock.seqno, s.lock.at, i);
      }
    }
  }

  ghost predicate SameHeader(s: State, i: nat, j: nat) {
    && i in s.calls && j in s.calls && Holding(s.calls[i].pc) && Holding(s.calls[j].pc)
    && s.calls[i].header == s.calls[j].header
  }

  /** The headers in use are exactly those of the calls between taking and giving back a header. */
  lemma HeadersExact(events: seq<Event>, h: nat)
    requires Run(events).issued < TWO64
    ensures var s := Run(events);
            h in s.used <==> exists id :: id in s.calls && Holding(s.calls[id].pc) && s.calls[id].header == Some(h)
    ensures var s := Run(events); forall i, j :: SameHeader(s, i, j) ==> i == j
  {
    hide Run, ListedIn, ResultFits, LockFits;
    RunInv(events);
    var s := Run(events);
    forall id | id in s.calls && Holding(s.calls[id].pc)
      ensures s.calls[id].header.Some? && s.calls[id].header.value in s.used && s.used[s.calls[id].header.value] == id
    {
      assert Local(s, id);
    }
    if h in s.used {
      assert Local(s, s.used[h]);
    }
  }

  /** The call was over a length limit and had been given a header. */
  predicate OverLimit(c: Call) { c.overLimit && c.header.Some? }

  /** When every call has returned no node is left anywhere, and no header is in use if and only if no request over a length
      limit was given one. */
  lemma Quiescent(events: seq<Event>)
    requires Run(events).issued < TWO64
    requires forall id :: id in Run(events).calls ==> Run(events).calls[id].pc in {Done, Leaked}
    ensures var s := Run(events); s.nodes == map[] && forall j :: 0 <= j < BUCKETS ==> s.sent[j] == []
    ensures var s := Run(events); s.used == map[] <==> forall id :: id in s.calls ==> !OverLimit(s.calls[id])
  {
    hide Run, Owns, ListedIn, ResultFits, LockFits;
    RunInv(events);
    var s := Run(events);
    forall id ensures id !in s.nodes { assert Local(s, id); }
    forall j | 0 <= j < BUCKETS
      ensures s.sent[j] == []
    {
      if s.sent[j] != [] {
        ListedAllocated(s, s.sent[j], s.sent[j][0], j);
      }
    }
    forall id | id in s.calls
      ensures s.calls[id].pc.Leaked? <==> OverLimit(s.calls[id])
      ensures s.calls[id].pc.Leaked? ==> s.calls[id].header.value in s.used
    {
      assert Local(s, id);
      if s.calls[id].pc.Leaked? {
        Held(s.used, id, s.calls[id].header);
      }
    }
    forall h | h in s.used
      ensures s.used[h] in s.calls && s.calls[s.used[h]].pc == Leaked
    {
      HeldBy(s, h);
    }
  }

  lemma Held(used: map<nat, nat>, id: nat, header: Option<nat>)
    requires Owns(used, id, true, header) && header.Some?
    ensures header.value in used
  {
  }

  lemma HeldBy(s: State, h: nat)
    requires Inv(s) && h in s.used
    ensures s.used[h] in s.calls && Holding(s.calls[s.used[h]].pc)
  {
    assert Local(s, s.used[h]);
  }

  /** What a call records of its request is what its start event says. */
  lemma {:induction false} CallsAreStarted(events: seq<Event>, id: nat)
    requires id in Run(events).calls
    ensures var c := Run(events).calls[id]; Start(id, c.isAsync, c.overLimit, c.header) in events
  {
    hide Apply;
    if events != [] {
      var before := events[..|events| - 1];
      var e := events[|events| - 1];
      OnlyStartsBegin(Run(before), e, id);
      if id in Run(before).calls {
        CallsAreStarted(before, id);
      }
    }
  }

  lemma OnlyStartsBegin(s: State, e: Event, id: nat)
    requires |s.sent| == BUCKETS && id in Apply(s, e).calls
    ensures var c := Apply(s, e).calls[id];
            if id in s.calls then SameRequest(s.calls[id], c) else e == Start(id, c.isAsync, c.overLimit, c.header)
  {
    hide Do;
    if e.Start? {
      StartMoves(s, e, id);
    } else if e.NoticeLock? || e.Walk? || e.NoticeUnlock? {
      NoticeMoves(s, e);
    } else {
      var i := CallMoves(s, e);
    }
  }

  /** A run that loses a header: one request over the limit. */
  lemma LeakReachable()
    ensures var s := Run([Start(0, false, true, Some(0))]);
            0 in s.calls && s.calls[0].pc == Leaked && s.calls[0].result == TooLong && 0 in s.used
  {
    RunSnoc([], Start(0, false, true, Some(0)));
    assert [] + [Start(0, false, true, Some(0))] == [Start(0, false, true, Some(0))];
  }

  // ----- Where results come from -----

  /** The result an event decides for call `id`. */
  ghost predicate DecidedBy(s: State, e: Event, id: nat, r: Result) {
    || (e == MakeNode(id, false) && r == NoMemory)
    || (e == Send(id, r) && Unsent(r))
    || (e == DelEnd && s.lock.Deleting? && s.lock.id == id && r == Timeout)
    || (e == Finish(id, r) && Answered(r))
  }

  lemma DecisiveStep(s: State, e: Event, id: nat)
    requires Inv(s) && !s.bad && Decisive(e) && id in s.calls && id in Do(s, e).calls && !Do(s, e).bad
    requires Do(s, e).calls[id].result != s.calls[id].result
    ensures s.calls[id].result == Pending && DecidedBy(s, e, id, Do(s, e).calls[id].result)
  {
    hide ListedIn, Owns, HeaderFits, Between, Without, Ahead;
    assert Local(s, id);
    var i := CallMoves(s, e);
  }

  /** One step: a result other than Pending stays; Pending is decided by the event for it, or stays. */
  lemma ResultStep(s: State, e: Event, id: nat)
    requires Inv(s) && id in s.calls
    ensures id in Apply(s, e).calls && SameRequest(s.calls[id], Apply(s, e).calls[id])
    ensures var r, r' := s.calls[id].result, Apply(s, e).calls[id].result; r' == r || (r == Pending && DecidedBy(s, e, id, r'))
  {
    hide Do, Local, LockFits, DecidedBy;
    if e.Start? {
      StartMoves(s, e, id);
    } else if e.NoticeLock? || e.Walk? || e.NoticeUnlock? {
      NoticeMoves(s, e);
    } else {
      var i := CallMoves(s, e);
      if !s.bad && !Do(s, e).bad && Decisive(e) && Do(s, e).calls[id].result != s.calls[id].result {
        DecisiveStep(s, e, id);
      }
    }
  }

  lemma StartResult(s: State, e: Event, id: nat)
    requires |s.sent| == BUCKETS && id !in s.calls && id in Apply(s, e).calls
    ensures var c := Apply(s, e).calls[id];
            c.result == Pending || c.result == NoMemory || (c.result == TooLong && c.overLimit)
  {
    hide Do;
    OnlyStartsBegin(s, e, id);
    FirstResult(s, e, id);
  }

  lemma FirstResult(s: State, e: Event, id: nat)
    requires |s.sent| == BUCKETS && e.Start? && id !in s.calls && id in Do(s, e).calls
    ensures var c := Do(s, e).calls[id];
            c.result == Pending || c.result == NoMemory || (c.result == TooLong && c.overLimit)
  {
    hide NoneFree;
  }

  /** What a call reports as the device's answer is the device's answer: success, an error of the device, or a reply that is
      too long for a request within the limits, has its own event in the run. */
  lemma {:induction false} ResultIsAnswer(events: seq<Event>, id: nat)
    requires Run(events).issued < TWO64 && id in Run(events).calls
    ensures var c := Run(events).calls[id];
            && (Answered(c.result) && !(c.result == TooLong && c.overLimit) ==> Finish(id, c.result) in events)
            && (Unsent(c.result) ==> Send(id, c.result) in events)
  {
    hide Apply, Inv;
    if events != [] {
      var n := |events| - 1;
      var before := events[..n];
      var s := Run(before);
      IssuedGrows(s, events[n]);
      RunInv(before);
      assert events[n] in events;
      if id in s.calls {
        ResultStep(s, events[n], id);
        ResultIsAnswer(before, id);
        assert forall e :: e in before ==> e in events;
      } else {
        StartResult(s, events[n], id);
      }
    }
  }

  /** A result, once decided, is final. */
  lemma {:induction false} ResultFinal(events: seq<Event>, more: seq<Event>, id: nat)
    requires Run(events + more).issued < TWO64
    requires id in Run(events).calls && Run(events).calls[id].result != Pending
    ensures id in Run(events + more).calls && Run(events + more).calls[id].result == Run(events).calls[id].result
    decreases |more|
  {
    hide Run, Apply, Inv;
    if more == [] {
      assert events + more == events;
    } else {
      var n := |more| - 1;
      assert events + more == (events + more[..n]) + [more[n]];
      RunSnoc(events + more[..n], more[n]);
      IssuedGrows(Run(events + more[..n]), more[n]);
      ResultFinal(events, more[..n], id);
      RunInv(events + more[..n]);
      ResultStep(Run(events + more[..n]), more[n], id);
    }
  }

  /** The device's answer is what the call returns: if it is read while no error is known, it is the result for ever. */
  lemma AnswerIsResult(events: seq<Event>, id: nat, answer: Result, more: seq<Event>)
    requires Run(events + [Finish(id, answer)] + more).issued < TWO64
    requires var s := Run(events);
             && s.issued < TWO64 && !s.bad && Answerable(s, id, answer) && s.calls[id].result == Pending
    ensures var s := Run(events + [Finish(id, answer)] + more); id in s.calls && s.calls[id].result == answer
  {
    hide Run, Inv, Do;
    RunInv(events);
    RunSnoc(events, Finish(id, answer));
    FinishKeeps(Run(events), id, answer, id);
    FinishReads(Run(events), id, answer);
    ResultFinal(events + [Finish(id, answer)], more, id);
  }

  lemma FinishReads(s: State, id: nat, answer: Result)
    requires |s.sent| == BUCKETS && !s.bad && Answerable(s, id, answer) && s.calls[id].result == Pending
    ensures Do(s, Finish(id, answer)) == DoFinish(s, id, answer)
    ensures id in DoFinish(s, id, answer).calls && DoFinish(s, id, answer).calls[id].result == answer
  {
  }

  /** A call whose send fails, or is refused by the device, returns that failure, whatever comes later. */
  lemma FailureIsResult(events: seq<Event>, id: nat, failure: Result, more: seq<Event>)
    requires Run(events + [Send(id, failure)] + more).issued < TWO64 && Unsent(failure)
    requires var s := Run(events); s.issued < TWO64 && !s.bad && (At(s, id, SyncNumbered) || At(s, id, Linked))
    ensures var s := Run(events + [Send(id, failure)] + more); id in s.calls && s.calls[id].result == failure
  {
    hide Run, Inv, Do;
    RunInv(events);
    RunSnoc(events, Send(id, failure));
    SendKeeps(Run(events), id, failure, id);
    SendReads(Run(events), id, failure);
    ResultFinal(events + [Send(id, failure)], more, id);
  }

  lemma SendReads(s: State, id: nat, failure: Result)
    requires |s.sent| == BUCKETS && !s.bad && (At(s, id, SyncNumbered) || At(s, id, Linked)) && Unsent(failure)
    ensures Do(s, Send(id, failure)) == DoSend(s, id, failure)
    ensures id in DoSend(s, id, failure).calls && DoSend(s, id, failure).calls[id].result == failure
  {
  }
}
