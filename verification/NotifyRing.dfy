/**
  The notice ring of the kernel's notifier: one circular buffer shared by all readers, every slot with a
  bitmap of the readers that have not fetched it yet.

  The class follows `ring_array.c` slot by slot; its methods are specified by functions on `Items()`, the
  queued slots from oldest to newest.
*/
module NotifyRing {
  import opened Lists

  const MAX_CONCURR_PROCESS: nat := 32
  const MAX_BUF_ITEMS_NUM: nat := 1000
  const MIN_BUF_ITEMS_NUM: nat := 100
  const DEFAULT_BUF_ITEMS_NUM: nat := 500

  datatype Slot<N> = Slot(bits: set<nat>, notice: N)

  // ----- Specification on sequences -----

  /** Index of the oldest slot still owed to `r`, or the length. */
  function FirstOwed<N>(items: seq<Slot<N>>, r: nat): (k: nat)
    ensures k <= |items|
    ensures forall i :: 0 <= i < k ==> r !in items[i].bits
    ensures k < |items| ==> r in items[k].bits
  {
    if items == [] || r in items[0].bits then 0 else 1 + FirstOwed(items[1..], r)
  }

  function ClearAt<N>(items: seq<Slot<N>>, k: nat, r: nat): seq<Slot<N>>
    requires k < |items|
  {
    items[k := Slot(items[k].bits - {r}, items[k].notice)]
  }

  /** What is queued after `r` fetched its oldest notice: if nobody else is owed it, the HEAD is dropped. */
  function AfterRetrieve<N>(items: seq<Slot<N>>, r: nat): seq<Slot<N>> {
    var k := FirstOwed(items, r);
    if k == |items| then items
    else if items[k].bits - {r} == {} then ClearAt(items, k, r)[1..]
    else ClearAt(items, k, r)
  }

  function ClearAll<N>(items: seq<Slot<N>>, r: nat): (res: seq<Slot<N>>)
    ensures |res| == |items|
    ensures forall i :: 0 <= i < |items| ==> res[i] == Slot(items[i].bits - {r}, items[i].notice)
  {
    seq(|items|, i requires 0 <= i < |items| => Slot(items[i].bits - {r}, items[i].notice))
  }

  /** The newest `n` slots. */
  function Newest<N>(items: seq<Slot<N>>, n: nat): seq<Slot<N>> {
    if |items| <= n then items else items[|items| - n..]
  }

  /** The notices owed to `r`, oldest first. */
  function Pending<N>(items: seq<Slot<N>>, r: nat): seq<N> {
    if items == [] then []
    else (if r in items[0].bits then [items[0].notice] else []) + Pending(items[1..], r)
  }

  // ----- The ring -----

  /** Successor of index `i` around a ring of `n` places, as the source computes it. */
  function Succ(i: nat, n: nat): (j: nat)
    requires i < n
    ensures j < n && j == if i + 1 == n then 0 else i + 1
  {
    SuccMod(i, n);
    (i + 1) % n
  }

  lemma SuccMod(i: nat, n: nat)
    requires i < n
    ensures (i + 1) % n == if i + 1 == n then 0 else i + 1
  {
    if i + 1 < n { SmallMod(i + 1, n); }
  }

  lemma SmallMod(x: nat, n: nat)
    requires x < n
    ensures x % n == x
  {
  }

  /** The slots after `head` up to `tail`, around the ring. */
  function Window<T>(s: seq<T>, head: nat, tail: nat): (w: seq<T>)
    requires head < |s| && tail < |s|
    ensures |w| == if tail >= head then tail - head else tail + |s| - head
  {
    if head <= tail then s[head + 1..tail + 1] else s[head + 1..] + s[..tail + 1]
  }

  /** The place of the `k`-th slot after `head`. */
  function Place(n: nat, head: nat, k: nat): (p: nat)
    requires head < n && k < n
    ensures p < n
  {
    if head + 1 + k < n then head + 1 + k else head + 1 + k - n
  }

  lemma WindowAt<T>(s: seq<T>, head: nat, tail: nat, k: nat)
    requires head < |s| && tail < |s| && k < |Window(s, head, tail)|
    ensures Window(s, head, tail)[k] == s[Place(|s|, head, k)]
  {
  }

  lemma WindowUpdate<T>(s: seq<T>, head: nat, tail: nat, k: nat, x: T)
    requires head < |s| && tail < |s| && k < |Window(s, head, tail)|
    ensures Window(s[Place(|s|, head, k) := x], head, tail) == Window(s, head, tail)[k := x]
  {
  }

  lemma WindowPush<T>(s: seq<T>, head: nat, tail: nat, x: T)
    requires head < |s| && tail < |s| && |Window(s, head, tail)| < |s| - 1
    ensures var t := Succ(tail, |s|);
            Window(s[t := x], head, t) == Window(s, head, tail) + [x]
  {
  }

  lemma WindowPop<T>(s: seq<T>, head: nat, tail: nat)
    requires head < |s| && tail < |s| && head != tail
    ensures Window(s, Succ(head, |s|), tail) == Window(s, head, tail)[1..]
  {
  }

  /** Walking from `h`, the place of slot `n - 1` (or `head`), one step reaches slot `n`; the walk ends at `tail`. */
  lemma WalkStep<T>(s: seq<T>, head: nat, tail: nat, h: nat, n: nat)
    requires head < |s| && tail < |s| && h < |s| && n <= |Window(s, head, tail)|
    requires h == if n == 0 then head else Place(|s|, head, n - 1)
    ensures h == tail <==> n == |Window(s, head, tail)|
    ensures n < |Window(s, head, tail)| ==> Succ(h, |s|) == Place(|s|, head, n)
  {
  }

  class RingQueue<N(0)> {
    var mask: set<nat>
    var length: nat
    var head: nat
    var tail: nat
    var slots: array<Slot<N>>

    constructor (wanted: nat)
      ensures Valid() && fresh(slots) && mask == {} && Items() == []
      ensures length == if MIN_BUF_ITEMS_NUM <= wanted <= MAX_BUF_ITEMS_NUM then wanted else DEFAULT_BUF_ITEMS_NUM
    {
      var len := wanted;
      if len > MAX_BUF_ITEMS_NUM || len < MIN_BUF_ITEMS_NUM {
        len := DEFAULT_BUF_ITEMS_NUM;
      }
      mask, length, head, tail := {}, len, len - 1, len - 1;
      slots := new Slot<N>[len];
    }

    ghost predicate Valid()
      reads this
    {
      MIN_BUF_ITEMS_NUM <= length == slots.Length && head < length && tail < length
    }

    /** The queued slots, oldest first. */
    ghost function Items(): (items: seq<Slot<N>>)
      requires Valid()
      reads this, slots
      ensures |items| < length
    {
      Window(slots[..], head, tail)
    }

    method IsFull() returns (full: bool)
      requires Valid()
      ensures full <==> |Items()| == length - 1
    {
      SmallMod(head, length);
      full := Succ(tail, length) == head % length;
    }

    method IsEmpty() returns (empty: bool)
      requires Valid()
      ensures empty <==> Items() == []
    {
      SmallMod(head, length);
      SmallMod(tail, length);
      empty := head % length == tail % length;
    }

    /** `put_queue`: fails on a full ring, else appends a slot owed to every open reader. */
    method Put(notice: N) returns (ok: bool)
      requires Valid()
      modifies this`tail, slots
      ensures Valid() && ok == (old(|Items()|) < length - 1)
      ensures Items() == if ok then old(Items()) + [Slot(mask, notice)] else old(Items())
    {
      hide Window;
      ok := false;
      var full := IsFull();
      if full { return; }
      WindowPush(slots[..], head, tail, Slot(mask, notice));
      ghost var s := slots[..];
      tail := Succ(tail, length);
      slots[tail] := Slot(mask, notice);
      assert slots[..] == s[tail := Slot(mask, notice)];
      ok := true;
    }

    /** `get_queue`: drops the oldest slot. */
    method Get() returns (ok: bool)
      requires Valid()
      modifies this`head
      ensures Valid() && ok == (old(Items()) != [])
      ensures Items() == if ok then old(Items())[1..] else []
    {
      hide Window;
      var empty := IsEmpty();
      if empty { return false; }
      WindowPop(slots[..], head, tail);
      head := Succ(head, length);
      ok := true;
    }

    /** `retrieve_queue`. */
    method Retrieve(ident: nat) returns (res: Option<N>)
      requires Valid()
      modifies this`head, slots
      ensures Valid() && Items() == AfterRetrieve(old(Items()), ident)
      ensures var k := FirstOwed(old(Items()), ident);
              res == if k == |old(Items())| then None else Some(old(Items())[k].notice)
    {
      hide Window, Place, FirstOwed;
      ghost var items, s := Items(), slots[..];
      var empty := IsEmpty();
      if empty {
        FirstOwedNone(items, ident);
        return None;
      }
      var h := head;
      ghost var n := 0;
      while h != tail
        invariant slots[..] == s && head == old(head) && h < length
        invariant 0 <= n <= |items| && h == if n == 0 then head else Place(|s|, head, n - 1)
        invariant forall i :: 0 <= i < n ==> ident !in items[i].bits
        decreases |items| - n
      {
        WalkStep(s, head, tail, h, n);
        h := Succ(h, length);
        WindowAt(s, head, tail, n);
        var item := slots[h];
        if ident in item.bits {
          FirstOwedIs(items, ident, n);
          var cleared := Slot(item.bits - {ident}, item.notice);
          WindowUpdate(s, head, tail, n, cleared);
          slots[h] := cleared;
          assert slots[..] == s[h := cleared];
          if cleared.bits == {} {
            var ok := Get();
          }
          return Some(item.notice);
        }
        n := n + 1;
      }
      WalkStep(s, head, tail, h, n);
      FirstOwedNone(items, ident);
      return None;
    }

    /** `clear_queue_bit`. */
    method ClearBit(nr: nat)
      requires Valid() && nr <= MAX_CONCURR_PROCESS
      modifies slots
      ensures Items() == ClearAll(old(Items()), nr)
    {
      hide Window, Place;
      ghost var items := Items();
      var empty := IsEmpty();
      if empty { return; }
      var h := head;
      ghost var n := 0;
      while h != tail
        invariant h < length && 0 <= n <= |items| == |Items()|
        invariant h == if n == 0 then head else Place(length, head, n - 1)
        invariant forall i :: 0 <= i < n ==> Items()[i] == ClearAll(items, nr)[i]
        invariant forall i :: n <= i < |items| ==> Items()[i] == items[i]
        decreases |items| - n
      {
        ghost var s := slots[..];
        WalkStep(s, head, tail, h, n);
        h := Succ(h, length);
        WindowAt(s, head, tail, n);
        var cleared := Slot(slots[h].bits - {nr}, slots[h].notice);
        WindowUpdate(s, head, tail, n, cleared);
        slots[h] := cleared;
        assert slots[..] == s[h := cleared];
        n := n + 1;
      }
      WalkStep(slots[..], head, tail, h, n);
    }

    /** `get_channel_num`: how many queued notices are owed to `channel`. */
    method ChannelNum(channel: nat) returns (count: nat)
      requires Valid()
      ensures count == |Pending(Items(), channel)|
    {
      hide Window, Place;
      count := 0;
      var empty := IsEmpty();
      if empty { return; }
      var h := head;
      ghost var n, items, s := 0, Items(), slots[..];
      while h != tail
        invariant h < length && 0 <= n <= |items|
        invariant h == if n == 0 then head else Place(|s|, head, n - 1)
        invariant count == |Pending(items[..n], channel)|
        decreases |items| - n
      {
        WalkStep(s, head, tail, h, n);
        h := Succ(h, length);
        WindowAt(s, head, tail, n);
        PendingSnoc(items, n, channel);
        if channel in slots[h].bits {
          count := count + 1;
        }
        n := n + 1;
      }
      WalkStep(s, head, tail, h, n);
      assert items[..n] == items;
    }

    /** `copy_queue` into a fresh ring: the newest slots that fit, bitmaps included. */
    method CopyTo(des: RingQueue<N>)
      requires Valid() && des.Valid() && des != this && des.slots != slots && des.Items() == []
      modifies des`head, des`tail, des.slots
      ensures des.Valid() && Items() == old(Items())
      ensures des.Items() == Newest(Items(), des.length - 1)
    {
      hide Window, Place, Newest, Succ;
      ghost var items, s := Items(), slots[..];
      NewestNone(items, des.length - 1);
      var empty := IsEmpty();
      if empty { return; }
      var h := head;
      ghost var n := 0;
      while h != tail
        invariant des.Valid() && slots[..] == s && h < length && 0 <= n <= |items|
        invariant h == if n == 0 then head else Place(|s|, head, n - 1)
        invariant des.Items() == Newest(items[..n], des.length - 1)
        decreases |items| - n
      {
        WalkStep(s, head, tail, h, n);
        h := Succ(h, length);
        WindowAt(s, head, tail, n);
        NewestSnoc(items, n, des.length - 1);
        des.Push(slots[h]);
        n := n + 1;
      }
      WalkStep(s, head, tail, h, n);
      assert items[..n] == items;
    }

    /** The queue part of `tsb_put_notify`: with a reader open, the newest notice displaces the oldest of a full ring. */
    method Post(notice: N)
      requires Valid()
      modifies this`head, this`tail, slots
      ensures Valid()
      ensures mask == {} ==> Items() == old(Items())
      ensures mask != {} ==> Items() == Newest(old(Items()), length - 2) + [Slot(mask, notice)]
    {
      if mask != {} {
        var full := IsFull();
        if full {
          var dropped := Get();
        }
        var ok := Put(notice);
      }
    }

    /** One round of the copying loop: make room, put the notice, then overwrite its bitmap. */
    method Push(slot: Slot<N>)
      requires Valid()
      modifies this`head, this`tail, slots
      ensures Valid()
      ensures Items() == (if |old(Items())| == length - 1 then old(Items())[1..] else old(Items())) + [slot]
    {
      hide Window, Place;
      var full := IsFull();
      if full {
        var dropped := Get();
      }
      ghost var room := Items();
      var ok := Put(slot.notice);
      ghost var s := slots[..];
      LastPlace(s, head, tail, |room|);
      WindowUpdate(s, head, tail, |room|, slot);
      slots[tail] := Slot(slot.bits, slots[tail].notice);
      WindowAt(s, head, tail, |room|);
      assert slots[..] == s[tail := slot];
    }
  }

  lemma LastPlace<T>(s: seq<T>, head: nat, tail: nat, k: nat)
    requires head < |s| && tail < |s| && |Window(s, head, tail)| == k + 1
    ensures Place(|s|, head, k) == tail
  {
  }

  lemma NewestSnoc<N>(items: seq<Slot<N>>, n: nat, cap: nat)
    requires n < |items| && cap > 0
    ensures var old' := Newest(items[..n], cap);
            Newest(items[..n + 1], cap) == (if |old'| == cap then old'[1..] else old') + [items[n]]
  {
    assert items[..n + 1] == items[..n] + [items[n]];
  }

  lemma NewestNone<N>(items: seq<Slot<N>>, cap: nat)
    ensures Newest(items[..0], cap) == [] && (items == [] ==> Newest(items, cap) == [])
  {
  }

  lemma PendingSnoc<N>(items: seq<Slot<N>>, n: nat, r: nat)
    requires n < |items|
    ensures Pending(items[..n + 1], r) ==
            Pending(items[..n], r) + if r in items[n].bits then [items[n].notice] else []
  {
    assert items[..n + 1] == items[..n] + [items[n]];
    PendingAppend(items[..n], [items[n]], r);
  }

  lemma {:induction false} FirstOwedIs<N>(items: seq<Slot<N>>, r: nat, k: nat)
    requires k < |items| && r in items[k].bits && forall i :: 0 <= i < k ==> r !in items[i].bits
    ensures FirstOwed(items, r) == k
  {
  }

  lemma FirstOwedNone<N>(items: seq<Slot<N>>, r: nat)
    requires forall i :: 0 <= i < |items| ==> r !in items[i].bits
    ensures FirstOwed(items, r) == |items|
  {
  }

  lemma {:induction false} PendingAppend<N>(a: seq<Slot<N>>, b: seq<Slot<N>>, r: nat)
    ensures Pending(a + b, r) == Pending(a, r) + Pending(b, r)
    decreases |a|
  {
    if a == [] {
      assert a + b == b;
    } else {
      var first := if r in a[0].bits then [a[0].notice] else [];
      PendingAppend(a[1..], b, r);
      assert (a + b)[1..] == a[1..] + b;
      assert Pending(a, r) == first + Pending(a[1..], r);
      assert Pending(a + b, r) == first + Pending(a[1..] + b, r);
    }
  }
}
