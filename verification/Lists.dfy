/** Lists of node numbers, as the chains and queues of several components use them. */
module Lists {
  datatype Option<T> = None | Some(value: T)

  /** How often `id` is listed. */
  function Times(list: seq<nat>, id: nat): nat { multiset(list)[id] }

  /** The list after its first `id` was unlinked. */
  function Without(list: seq<nat>, id: nat): (r: seq<nat>)
    ensures forall x :: x in r ==> x in list
    ensures id !in list ==> r == list
  {
    if list == [] then [] else if list[0] == id then list[1..] else [list[0]] + Without(list[1..], id)
  }

  /** Unlinking takes one occurrence away and leaves all else. */
  lemma {:induction false} WithoutTimes(list: seq<nat>, id: nat, i: nat)
    ensures Times(Without(list, id), i) == if i == id && id in list then Times(list, i) - 1 else Times(list, i)
  {
    if list != [] {
      assert list == [list[0]] + list[1..];
      if list[0] != id {
        WithoutTimes(list[1..], id, i);
      }
    }
  }

  /** Place of the first `id` in the list, or its length. */
  function IndexOf(list: seq<nat>, id: nat): (k: nat)
    ensures k <= |list| && (k < |list| <==> id in list) && (k < |list| ==> list[k] == id)
  {
    if list == [] || list[0] == id then 0 else 1 + IndexOf(list[1..], id)
  }

  /** Unlinking closes the gap at the first place. */
  lemma {:induction false} WithoutFirst(list: seq<nat>, id: nat)
    requires id in list
    ensures var k := IndexOf(list, id); Without(list, id) == list[..k] + list[k + 1..]
  {
    if list[0] != id {
      var k := IndexOf(list, id);
      WithoutFirst(list[1..], id);
      assert list[..k] == [list[0]] + list[1..][..k - 1];
      assert list[1..][k..] == list[k + 1..];
    }
  }
}
