/**
  A free list threaded through an array of shorts (`cmd_man.c`).

  A slot of the array holds the index of the next free slot, -1 at the end of the list, or -2 while the slot
  is in use. The same structure serves the command headers and each of the ten buffer areas.
*/
module ShmPool {
  type Short = x: int | -0x8000 <= x < 0x8000

  const END: Short := -1
  const USED: Short := -2

  /** Following the links from `next` visits `chain` and ends. */
  ghost predicate Listed(links: seq<Short>, next: int, chain: seq<nat>)
    decreases chain
  {
    if chain == [] then next == END
    else next == chain[0] && chain[0] < |links| && Listed(links, links[chain[0]], chain[1..])
  }

  ghost predicate Once(chain: seq<nat>) {
    forall j, k :: 0 <= j < k < |chain| ==> chain[j] != chain[k]
  }

  /** The slots not visited are exactly those marked as used. */
  ghost predicate Marked(links: seq<Short>, chain: seq<nat>) {
    forall i {:trigger links[i]} :: 0 <= i < |links| ==> (links[i] == USED <==> i !in chain)
  }

  /** The list is acyclic and visits exactly the slots that are not in use. */
  ghost predicate Threaded(links: seq<Short>, next: int, chain: seq<nat>) {
    Listed(links, next, chain) && Once(chain) && Marked(links, chain)
  }

  /** The list is determined by the array: following the links can visit nothing else. */
  lemma {:induction false} ChainUnique(links: seq<Short>, next: int, c: seq<nat>, d: seq<nat>)
    requires Listed(links, next, c) && Listed(links, next, d)
    ensures c == d
    decreases c
  {
    if c != [] {
      ChainUnique(links, links[c[0]], c[1..], d[1..]);
      assert c == [c[0]] + c[1..] && d == [d[0]] + d[1..];
    }
  }

  /** Writing a slot the list does not visit leaves the list as it is. */
  lemma {:induction false} ListedElsewhere(links: seq<Short>, next: int, chain: seq<nat>, i: nat, x: Short)
    requires Listed(links, next, chain) && i < |links| && i !in chain
    ensures Listed(links[i := x], next, chain)
    decreases chain
  {
    if chain != [] {
      ListedElsewhere(links, links[chain[0]], chain[1..], i, x);
    }
  }

  lemma PopThreaded(links: seq<Short>, next: int, chain: seq<nat>)
    requires Threaded(links, next, chain) && chain != []
    ensures 0 <= next < |links| && next == chain[0] && links[next] != USED
    ensures Threaded(links[next := USED], links[next], chain[1..])
  {
    var tail := chain[1..];
    assert chain == [chain[0]] + tail;
    assert chain[0] !in tail;
    ListedElsewhere(links, links[next], tail, next, USED);
    assert Once(tail);
  }

  lemma PushThreaded(links: seq<Short>, next: Short, chain: seq<nat>, i: nat)
    requires Threaded(links, next, chain) && i < |links| && links[i] == USED
    ensures Threaded(links[i := next], i, [i] + chain)
  {
    hide Listed;
    ListedElsewhere(links, next, chain, i, next);
    ListedFirst(links[i := next], i, chain);
    ThreadedHead(links, next, chain);
    assert Once([i] + chain);
  }

  lemma ListedFirst(links: seq<Short>, i: nat, chain: seq<nat>)
    requires i < |links| && Listed(links, links[i], chain)
    ensures Listed(links, i, [i] + chain)
  {
    assert ([i] + chain)[1..] == chain;
  }

  lemma ThreadedHead(links: seq<Short>, next: int, chain: seq<nat>)
    requires Threaded(links, next, chain)
    ensures if chain == [] then next == END else next == chain[0]
    ensures Marked(links, chain)
  {
  }

  /** The initial list runs down from the last slot. */
  ghost function Down(n: nat): (chain: seq<nat>)
    ensures |chain| == n && (forall k :: 0 <= k < n ==> chain[k] == n - 1 - k)
  {
    seq(n, k requires 0 <= k < n => n - 1 - k)
  }

  lemma {:induction false} DownListed(links: seq<Short>, n: nat)
    requires n <= |links| && forall k :: 0 <= k < n ==> links[k] == k - 1
    ensures Listed(links, n - 1, Down(n))
  {
    if n > 0 {
      DownListed(links, n - 1);
      assert Down(n)[1..] == Down(n - 1);
    }
  }

  lemma DownThreaded(links: seq<Short>)
    requires forall k :: 0 <= k < |links| ==> links[k] == k - 1
    ensures Threaded(links, |links| - 1, Down(|links|))
  {
    DownListed(links, |links|);
    forall k | 0 <= k < |links|
      ensures k in Down(|links|)
    {
      assert Down(|links|)[|links| - 1 - k] == k;
    }
  }

  class Pool {
    var next: Short
    const links: array<Short>
    ghost var chain: seq<nat>

    ghost predicate Valid()
      reads this, links
    {
      Threaded(links[..], next, chain)
    }

    predicate InUse(i: nat)
      reads this, links
    {
      i < links.Length && links[i] == USED
    }

    /** `shm_init` for one list: all slots are free. */
    constructor (n: nat)
      requires n < 0x8001
      ensures Valid() && fresh(links) && links.Length == n
      ensures forall i :: !InUse(i)
    {
      hide Threaded, Down;
      links := new Short[n];
      next := n - 1;
      chain := Down(n);
      new;
      var i := 0;
      while i < n
        invariant 0 <= i <= n && next == n - 1 && chain == Down(n)
        invariant forall k :: 0 <= k < i ==> links[k] == k - 1
        modifies links
      {
        links[i] := i - 1;
        i := i + 1;
      }
      assert |links[..]| == n;
      DownThreaded(links[..]);
    }

    /** Takes the first free slot; -1 when there is none, which is when every slot is in use. */
    method Take() returns (index: int)
      requires Valid()
      modifies this, links
      ensures Valid()
      ensures if old(chain) == [] then index == END else index == old(chain)[0] && chain == old(chain)[1..]
      ensures index == END ==> (forall i :: 0 <= i < links.Length ==> InUse(i)) && chain == old(chain)
      ensures index != END ==> 0 <= index < links.Length && !old(InUse(index))
      ensures forall i :: InUse(i) <==> old(InUse(i)) || i == index
    {
      hide Listed, Once, Threaded;
      index := END;
      ThreadedHead(links[..], next, chain);
      if next != END {
        PopThreaded(links[..], next, chain);
        ghost var before := links[..];
        index := next;
        next := links[index];
        links[index] := USED;
        chain := chain[1..];
        assert links[..] == before[index := USED];
      } else {
        forall i | 0 <= i < links.Length
          ensures InUse(i)
        {
          assert links[..][i] == links[i];
        }
      }
    }

    /** Gives a slot back; refused, without any change, unless the slot is in use. */
    method Give(index: nat) returns (ok: bool)
      requires Valid() && index < links.Length <= 0x8000
      modifies this, links
      ensures Valid() && ok == old(InUse(index))
      ensures chain == if ok then [index] + old(chain) else old(chain)
      ensures forall i :: InUse(i) <==> old(InUse(i)) && i != index
    {
      hide Listed, Once, Threaded;
      ThreadedHead(links[..], next, chain);
      ok := links[index] == USED;
      if ok {
        PushThreaded(links[..], next, chain, index);
        ghost var before := links[..];
        links[index] := next;
        assert links[..] == before[index := next];
        next := index;
        chain := [index] + chain;
      }
    }
  }
}
