/**
  The in-memory index of the file-integrity whitelist, and the SET, ADD and DELETE operations that change
  the file and the index side by side.

  Nodes are known by address: the ordered list and the bucket chains refer to the same nodes.  After every
  successful operation the index is what rebuilding from the resulting file would give: the live records
  in file order with their offsets, the record count and the live count; and every bucket chain holds
  exactly the listed nodes whose hash begins with that bucket's two bytes.
*/
module IntegrityIndex {
  import opened Bytes
  import opened Lists
  import opened IntegrityFile

  const BUCKETS: nat := 65536

  /** A node: its copy of the record, and the file offset of the original. */
  datatype Info = Info(raw: seq<byte>, offset: nat)

  /** The bucket of a record: the first two bytes of its hash as a host 16-bit number. */
  function Bucket(raw: seq<byte>): (h: nat)
    requires |raw| >= HEADER + HASH
    ensures h < BUCKETS
  {
    raw[4] as int + raw[5] as int * 256
  }

  // ----- Values -----

  ghost predicate NoDup<T>(s: seq<T>) {
    forall i, j :: 0 <= i < j < |s| ==> s[i] != s[j]
  }

  ghost predicate Known(nodes: map<nat, Info>, ids: seq<nat>) {
    forall id :: id in ids ==> id in nodes && |nodes[id].raw| >= HEADER + HASH
  }

  /** Bucket `h` holds exactly the nodes among `ids` that belong there, each once. */
  ghost predicate ChainOf(nodes: map<nat, Info>, chain: seq<nat>, h: nat, ids: seq<nat>)
    requires Known(nodes, ids)
  {
    && NoDup(chain)
    && forall id :: id in chain <==> id in ids && Bucket(nodes[id].raw) == h
  }

  /** The chains partition `ids` by the first two hash bytes. */
  ghost predicate Linked(nodes: map<nat, Info>, table: seq<seq<nat>>, ids: seq<nat>) {
    && |table| == BUCKETS && NoDup(ids) && Known(nodes, ids)
    && forall h :: 0 <= h < BUCKETS ==> ChainOf(nodes, table[h], h, ids)
  }

  ghost function Infos(nodes: map<nat, Info>, ids: seq<nat>): (ps: seq<Placed>)
    requires Known(nodes, ids)
    ensures |ps| == |ids|
    ensures forall k :: 0 <= k < |ids| ==> ps[k] == Placed(nodes[ids[k]].offset, nodes[ids[k]].raw)
  {
    seq(|ids|, k requires 0 <= k < |ids| => assert ids[k] in ids; Placed(nodes[ids[k]].offset, nodes[ids[k]].raw))
  }

  /** A node put at the front of its chain. */
  function PushNode(table: seq<seq<nat>>, h: nat, id: nat): seq<seq<nat>>
    requires h < |table|
  {
    table[h := [id] + table[h]]
  }

  function DropNode(table: seq<seq<nat>>, h: nat, id: nat): seq<seq<nat>>
    requires h < |table|
  {
    table[h := Without(table[h], id)]
  }

  lemma {:induction false} WithoutElems(chain: seq<nat>, id: nat)
    requires NoDup(chain)
    ensures NoDup(Without(chain, id))
    ensures forall x :: x in Without(chain, id) <==> x in chain && x != id
    decreases |chain|
  {
    if chain != [] {
      var rest := chain[1..];
      assert chain == [chain[0]] + rest;
      NoDupTail(chain);
      if chain[0] != id {
        WithoutElems(rest, id);
        ConsNoDup(chain[0], Without(rest, id));
      }
    }
  }

  lemma {:induction false} WithoutAt(chain: seq<nat>, id: nat, pos: nat)
    requires pos < |chain| && chain[pos] == id && id !in chain[..pos]
    ensures Without(chain, id) == chain[..pos] + chain[pos + 1..]
    decreases pos
  {
    if pos > 0 {
      assert chain[..pos][0] == chain[0];
      assert chain[1..][..pos - 1] == chain[..pos][1..];
      WithoutAt(chain[1..], id, pos - 1);
      assert chain[1..][pos..] == chain[pos + 1..];
      assert chain[..pos] == [chain[0]] + chain[1..][..pos - 1];
    }
  }

  lemma NoDupTail(s: seq<nat>)
    requires NoDup(s) && s != []
    ensures NoDup(s[1..]) && s[0] !in s[1..]
  {
    var rest := s[1..];
    forall i | 0 <= i < |rest|
      ensures rest[i] != s[0] && forall j :: i < j < |rest| ==> rest[i] != rest[j]
    {
      assert rest[i] == s[i + 1];
      forall j | i < j < |rest| ensures rest[i] != rest[j] { assert rest[j] == s[j + 1]; }
    }
  }

  lemma ConsNoDup(x: nat, s: seq<nat>)
    requires NoDup(s) && x !in s
    ensures NoDup([x] + s)
  {
  }

  lemma SnocNoDup(s: seq<nat>, x: nat)
    requires NoDup(s) && x !in s
    ensures NoDup(s + [x])
  {
  }

  /** Adding a new node at the front of its chain. */
  lemma PushLinked(nodes: map<nat, Info>, table: seq<seq<nat>>, ids: seq<nat>, id: nat, raw: seq<byte>, offset: nat)
    requires Linked(nodes, table, ids) && id !in nodes && |raw| >= HEADER + HASH
    ensures Linked(nodes[id := Info(raw, offset)], PushNode(table, Bucket(raw), id), ids + [id])
  {
    var nodes', ids' := nodes[id := Info(raw, offset)], ids + [id];
    var table' := PushNode(table, Bucket(raw), id);
    assert id !in ids;
    SnocNoDup(ids, id);
    forall h | 0 <= h < BUCKETS
      ensures ChainOf(nodes', table'[h], h, ids')
    {
      assert ChainOf(nodes, table[h], h, ids);
      assert id !in table[h];
      if h == Bucket(raw) { ConsNoDup(id, table[h]); }
    }
  }

  /** Removing a node from its chain: what is left is linked for the other nodes. */
  lemma DropLinked(nodes: map<nat, Info>, table: seq<seq<nat>>, ids: seq<nat>, id: nat, ids': seq<nat>)
    requires Linked(nodes, table, ids) && id in ids
    requires NoDup(ids') && forall x :: x in ids' <==> x in ids && x != id
    ensures Linked(nodes, DropNode(table, Bucket(nodes[id].raw), id), ids')
  {
    var b := Bucket(nodes[id].raw);
    var table' := DropNode(table, b, id);
    forall h | 0 <= h < BUCKETS
      ensures ChainOf(nodes, table'[h], h, ids')
    {
      assert ChainOf(nodes, table[h], h, ids);
      if h == b { WithoutElems(table[h], id); }
    }
  }

  /** Offsets do not matter to the chains. */
  lemma MoveLinked(nodes: map<nat, Info>, nodes': map<nat, Info>, table: seq<seq<nat>>, ids: seq<nat>)
    requires Linked(nodes, table, ids)
    requires forall id :: id in ids ==> id in nodes' && nodes'[id].raw == nodes[id].raw
    ensures Linked(nodes', table, ids)
  {
    forall h | 0 <= h < BUCKETS
      ensures ChainOf(nodes', table[h], h, ids)
    {
      assert ChainOf(nodes, table[h], h, ids);
    }
  }

  lemma EmptyLinked(nodes: map<nat, Info>)
    ensures Linked(nodes, seq(BUCKETS, _ => []), [])
  {
  }

  // ----- Pushing and popping a batch -----

  function PushAll(nodes: map<nat, Info>, table: seq<seq<nat>>, ids: seq<nat>): (r: seq<seq<nat>>)
    requires |table| == BUCKETS && forall id :: id in ids ==> id in nodes && |nodes[id].raw| >= HEADER + HASH
    ensures |r| == BUCKETS
  {
    if ids == [] then table
    else
      var last := ids[|ids| - 1];
      PushNode(PushAll(nodes, table, ids[..|ids| - 1]), Bucket(nodes[last].raw), last)
  }

  function DropAll(nodes: map<nat, Info>, table: seq<seq<nat>>, ids: seq<nat>): (r: seq<seq<nat>>)
    requires |table| == BUCKETS && forall id :: id in ids ==> id in nodes && |nodes[id].raw| >= HEADER + HASH
    ensures |r| == BUCKETS
    decreases |ids|
  {
    if ids == [] then table
    else DropAll(nodes, DropNode(table, Bucket(nodes[ids[0]].raw), ids[0]), ids[1..])
  }

  /** Dropping a node that was pushed below others takes it out of the stack of pushes. */
  lemma {:induction false} DropUnder(nodes: map<nat, Info>, table: seq<seq<nat>>, id: nat, ids: seq<nat>)
    requires |table| == BUCKETS && Known(nodes, [id] + ids) && id !in ids
    ensures DropNode(PushAll(nodes, PushNode(table, Bucket(nodes[id].raw), id), ids), Bucket(nodes[id].raw), id) ==
            PushAll(nodes, table, ids)
    decreases |ids|
  {
    var b := Bucket(nodes[id].raw);
    assert forall x :: x in ids ==> x in [id] + ids;
    assert id in [id] + ids;
    if ids == [] {
      assert DropNode(PushNode(table, b, id), b, id) == table;
    } else {
      var init, last := ids[..|ids| - 1], ids[|ids| - 1];
      DropUnder(nodes, table, id, init);
      var t1 := PushAll(nodes, PushNode(table, b, id), init);
      var t0 := PushAll(nodes, table, init);
      var c := Bucket(nodes[last].raw);
      assert DropNode(t1, b, id) == t0;
      assert last != id;
      assert DropNode(PushNode(t1, c, last), b, id) == PushNode(t0, c, last) by {
        if c == b {
          assert Without([last] + t1[b], id) == [last] + Without(t1[b], id) by {
            assert ([last] + t1[b])[1..] == t1[b];
          }
          assert t0[b] == Without(t1[b], id);
        }
        assert forall h :: 0 <= h < BUCKETS && h != b ==> t1[h] == t0[h];
      }
    }
  }

  /** The first of a batch is pushed first. */
  lemma {:induction false} PushAllCons(nodes: map<nat, Info>, table: seq<seq<nat>>, ids: seq<nat>)
    requires |table| == BUCKETS && Known(nodes, ids) && ids != []
    ensures PushAll(nodes, table, ids) == PushAll(nodes, PushNode(table, Bucket(nodes[ids[0]].raw), ids[0]), ids[1..])
    decreases |ids|
  {
    var init := ids[..|ids| - 1];
    if |ids| > 1 {
      PushAllCons(nodes, table, init);
      assert init[1..] == ids[1..][..|ids| - 2];
      assert ids[1..][|ids| - 2] == ids[|ids| - 1];
    } else {
      assert ids == [ids[0]];
    }
  }

  /** Rolling back a batch restores the hash table exactly. */
  lemma {:induction false} RollbackExact(nodes: map<nat, Info>, table: seq<seq<nat>>, ids: seq<nat>)
    requires |table| == BUCKETS && Known(nodes, ids) && NoDup(ids)
    ensures DropAll(nodes, PushAll(nodes, table, ids), ids) == table
    decreases |ids|
  {
    if ids != [] {
      var id, rest := ids[0], ids[1..];
      assert ids == [id] + rest;
      NoDupTail(ids);
      PushAllCons(nodes, table, ids);
      DropUnder(nodes, table, id, rest);
      RollbackExact(nodes, table, rest);
    }
  }

  // ----- Matching a delete request -----

  /** Bytes `x..x + n` of memory. */
  predicate SameBytes(a: seq<byte>, x: nat, b: seq<byte>, y: nat, n: nat) {
    x + n <= |a| && y + n <= |b| && a[x..x + n] == b[y..y + n]
  }

  /** The test of `file_integrity_match` for the request at `pos` in memory `mem`.  The request's path is looked
      for where the NODE's extension ends. */
  predicate Matches(mem: seq<byte>, pos: nat, raw: seq<byte>) {
    && |raw| >= HEADER + HASH && pos + HEADER + HASH <= |mem|
    && mem[pos + 2] as int * 256 + mem[pos + 3] as int == PathLength(raw)
    && mem[pos + HEADER..pos + HEADER + HASH] == HashOf(raw)
    && (PathLength(raw) != 0 ==>
          var d := HEADER + HASH + ExtendSize(raw) as int;
          SameBytes(raw, d, mem, pos + d, PathLength(raw)))
  }

  function PathOf(raw: seq<byte>): seq<byte>
    requires |raw| >= HEADER + HASH && |raw| == RecordSize(raw, 0)
  {
    raw[|raw| - PathLength(raw)..]
  }

  lemma SliceSlice(s: seq<byte>, a: nat, b: nat, c: nat, d: nat)
    requires a <= b <= |s| && c <= d <= b - a
    ensures s[a..b][c..d] == s[a + c..a + d]
  {
    var x := s[a..b];
    forall k | 0 <= k < d - c
      ensures x[c..d][k] == s[a + c..a + d][k]
    {
    }
  }

  lemma OneMore(items: seq<Placed>, item: Placed, rest: seq<Placed>)
    ensures items + ([item] + rest) == (items + [item]) + rest
  {
  }

  /** What matching means. The hashes and the path lengths are the same, and the node's path stands where the NODE's
      extension ends, counted from the request. With extensions of the same size, or without a path, this is to say that
      hash and path are the same. */
  lemma MatchMeaning(mem: seq<byte>, q: Placed, raw: seq<byte>)
    requires Framed(q) && Framed(Placed(0, raw))
    requires q.offset + |q.raw| <= |mem| && mem[q.offset..q.offset + |q.raw|] == q.raw
    ensures Matches(mem, q.offset, raw) <==>
              && HashOf(q.raw) == HashOf(raw) && PathLength(q.raw) == PathLength(raw)
              && (PathOf(raw) != [] ==>
                    SameBytes(PathOf(raw), 0, mem, q.offset + |raw| - PathLength(raw), PathLength(raw)))
    ensures ExtendSize(q.raw) == ExtendSize(raw) || PathLength(raw) == 0 ==>
              (Matches(mem, q.offset, raw) <==> HashOf(q.raw) == HashOf(raw) && PathOf(q.raw) == PathOf(raw))
  {
    hide Matches, SameBytes;
    MatchParts(mem, q, raw);
    if PathLength(q.raw) == PathLength(raw) && (ExtendSize(q.raw) == ExtendSize(raw) || PathLength(raw) == 0) {
      SamePaths(mem, q, raw);
    }
  }

  lemma MatchParts(mem: seq<byte>, q: Placed, raw: seq<byte>)
    requires Framed(q) && Framed(Placed(0, raw))
    requires q.offset + |q.raw| <= |mem| && mem[q.offset..q.offset + |q.raw|] == q.raw
    ensures Matches(mem, q.offset, raw) <==>
              && HashOf(q.raw) == HashOf(raw) && PathLength(q.raw) == PathLength(raw)
              && (PathOf(raw) != [] ==>
                    SameBytes(PathOf(raw), 0, mem, q.offset + |raw| - PathLength(raw), PathLength(raw)))
  {
    var m, n, d := q.offset, |q.raw|, HEADER + HASH + ExtendSize(raw) as int;
    assert mem[m + 2] == q.raw[2] && mem[m + 3] == q.raw[3] by {
      assert mem[m..m + n][2] == mem[m + 2] && mem[m..m + n][3] == mem[m + 3];
    }
    SliceSlice(mem, m, m + n, HEADER, HEADER + HASH);
    assert raw[d..d + PathLength(raw)] == PathOf(raw);
    assert PathOf(raw)[0..PathLength(raw)] == PathOf(raw);
  }

  lemma SamePaths(mem: seq<byte>, q: Placed, raw: seq<byte>)
    requires Framed(q) && Framed(Placed(0, raw)) && PathLength(q.raw) == PathLength(raw)
    requires q.offset + |q.raw| <= |mem| && mem[q.offset..q.offset + |q.raw|] == q.raw
    requires ExtendSize(q.raw) == ExtendSize(raw) || PathLength(raw) == 0
    ensures PathOf(q.raw) == PathOf(raw) <==>
              (PathOf(raw) != [] ==>
                 SameBytes(PathOf(raw), 0, mem, q.offset + |raw| - PathLength(raw), PathLength(raw)))
  {
    var m, n, d := q.offset, |q.raw|, HEADER + HASH + ExtendSize(raw) as int;
    assert PathOf(raw)[0..PathLength(raw)] == PathOf(raw);
    if ExtendSize(q.raw) == ExtendSize(raw) {
      SliceSlice(mem, m, m + n, d, n);
      assert q.raw[d..n] == PathOf(q.raw);
    }
  }

  /** A record with hash bytes 1, a one-byte path 9 and the given extension. */
  function Sample(ext: seq<byte>): (r: seq<byte>)
    requires |ext| < 256
    ensures |r| == HEADER + HASH + |ext| + 1
  {
    [0, |ext|, 0, 1] + seq(HASH, _ => 1) + ext + [9]
  }

  lemma SampleParts(ext: seq<byte>)
    requires |ext| < 256
    ensures var r := Sample(ext);
            && RecordSize(r, 0) == |r| && ExtendSize(r) == |ext| && PathLength(r) == 1
            && HashOf(r) == seq(HASH, _ => 1) && PathOf(r) == [9] && r[HEADER + HASH..] == ext + [9]
  {
    var r := Sample(ext);
    var head: seq<byte> := [0, |ext|, 0, 1];
    assert r == head + (seq(HASH, _ => 1) + (ext + [9]));
    assert r[1] == head[1] && r[2] == head[2] && r[3] == head[3];
    assert r[|r| - 1..] == [9];
  }

  /** With extensions of different sizes a request for the same hash and the same path may miss its node. */
  lemma ShiftedPath()
    ensures var req, node := Sample([5]), Sample([]);
            && RecordSize(req, 0) == |req| && RecordSize(node, 0) == |node|
            && HashOf(req) == HashOf(node) && PathOf(req) == PathOf(node) && !Matches(req, 0, node)
  {
    hide Sample;
    var req, node := Sample([5]), Sample([]);
    SampleParts([5]);
    SampleParts([]);
    assert req[36..][0] == req[36] && node[36..][0] == node[36];
    assert req[36..37][0] == 5 && node[36..37][0] == 9;
  }

  // ----- The index -----

  class Index {
    var file: seq<byte>             // contents of integrity.data
    var nodes: map<nat, Info>       // allocated nodes, by address
    var table: seq<seq<nat>>        // bucket chains
    var list: seq<nat>
    var total: nat
    var valid: nat
    var length: int
    var next: nat                   // no node at or above this address

    constructor (file: seq<byte>)
      ensures Valid() && this.file == file
    {
      this.file := file;
      nodes, list, total, valid, length, next := map[], [], 0, 0, 0, 0;
      table := seq(BUCKETS, _ => []);
      EmptyLinked(map[]);
    }

    ghost predicate Fresh()
      reads this
    {
      forall id :: id in nodes ==> id < next
    }

    ghost predicate Valid()
      reads this
    {
      Fresh() && Linked(nodes, table, list)
    }

    /** The index is what the file says. */
    ghost predicate InSync()
      reads this
    {
      && Valid() && Parse(file).Ok?
      && Infos(nodes, list) == LiveOf(Parse(file).records)
      && total == |Parse(file).records| && valid == |list|
    }

    /** `file_integrity_add_to_hash_table`. */
    method AddToTable(raw: seq<byte>, ghost ids: seq<nat>) returns (id: nat)
      requires |raw| >= HEADER + HASH && Fresh() && Linked(nodes, table, ids)
      modifies this`nodes, this`table, this`next
      ensures id == old(next) && id !in old(nodes) && nodes == old(nodes)[id := Info(raw, 0)]
      ensures table == PushNode(old(table), Bucket(raw), id)
      ensures Fresh() && Linked(nodes, table, ids + [id])
    {
      id := next;
      PushLinked(nodes, table, ids, id, raw, 0);
      next := next + 1;
      nodes := nodes[id := Info(raw, 0)];
      var h := Bucket(raw);
      table := table[h := [id] + table[h]];
    }

    /** `file_integrity_delete_from_hash_table`: walk the chain with a trailing pointer and unlink. */
    method DeleteFromTable(id: nat)
      requires |table| == BUCKETS && id in nodes && |nodes[id].raw| >= HEADER + HASH
      modifies this`table
      ensures table == DropNode(old(table), Bucket(nodes[id].raw), id)
    {
      hide Without;
      var h := Bucket(nodes[id].raw);
      var chain := table[h];
      var pos := 0;
      while pos < |chain|
        invariant 0 <= pos <= |chain| && table == old(table)
        invariant id !in chain[..pos]
      {
        if chain[pos] == id {
          WithoutAt(chain, id, pos);
          table := table[h := chain[..pos] + chain[pos + 1..]];
          return;
        }
        assert chain[..pos + 1] == chain[..pos] + [chain[pos]];
        pos := pos + 1;
      }
      assert chain[..pos] == chain;
      assert table == table[h := chain];
    }

    /** `buffer_to_item_array`. */
    method BufferToItems(data: seq<byte>) returns (r: Parsed)
      ensures r == Parse(data)
    {
      hide Align4, Check, ParseFrom;
      var pos := 0;
      var items: seq<Placed> := [];
      while pos < |data|
        invariant 0 <= pos
        invariant Parse(data).Bad? <==> ParseFrom(data, pos).Bad?
        invariant Parse(data).Ok? ==> Parse(data).records == items + ParseFrom(data, pos).records
        decreases |data| - pos
      {
        ParseStep(data, pos);
        var n := Check(data, pos);
        if n == 0 {
          return Bad;
        }
        var item := Placed(pos, data[pos..pos + n]);
        if Parse(data).Ok? {
          OneMore(items, item, ParseFrom(data, pos + Align4(n)).records);
        }
        items := items + [item];
        pos := pos + Align4(n);
      }
      ParseEnd(data, pos);
      assert items + [] == items;
      return Ok(items);
    }

    /** `file_integrity_hash_policy_data`: parse, and hash every record that is no tombstone. */
    method HashPolicyData(data: seq<byte>, ghost ids: seq<nat>) returns (ok: bool, batch': seq<nat>, count: nat)
      requires Fresh() && Linked(nodes, table, ids)
      modifies this`nodes, this`table, this`next
      ensures ok == Parse(data).Ok?
      ensures !ok ==> nodes == old(nodes) && table == old(table) && next == old(next)
      ensures ok ==>
                && count == |Parse(data).records|
                && Fresh() && Linked(nodes, table, ids + batch') && NoDup(batch')
                && Extends(old(nodes), nodes) && Known(nodes, batch') && (forall id :: id in batch' ==> id !in old(nodes))
                && Infos(nodes, batch') == LiveOf(Parse(data).records)
                && |old(table)| == BUCKETS && table == PushAll(nodes, old(table), batch')
    {
      hide ParseFrom, Linked, LiveOf, PushAll;
      batch', count := [], 0;
      var r := BufferToItems(data);
      if r.Bad? {
        return false, [], 0;
      }
      ok, count := true, |r.records|;
      ParseFramed(data, 0);
      forall k | 0 <= k < |r.records|
        ensures r.records[k].offset == if k == 0 then 0 else r.records[k - 1].offset + Align4(|r.records[k - 1].raw|)
      {
        Consecutive(data, 0, k);
      }
      batch' := HashItems(r.records, ids);
    }

    /** `file_integrity_add_list_to_hash_table`; memory does not run out here. */
    method HashItems(items: seq<Placed>, ghost ids: seq<nat>) returns (batch: seq<nat>)
      requires Fresh() && Linked(nodes, table, ids)
      requires forall k :: 0 <= k < |items| ==> Framed(items[k])
      requires forall k :: 0 <= k < |items| ==>
                 items[k].offset == if k == 0 then 0 else items[k - 1].offset + Align4(|items[k - 1].raw|)
      modifies this`nodes, this`table, this`next
      ensures Fresh() && Linked(nodes, table, ids + batch) && NoDup(batch)
      ensures Extends(old(nodes), nodes) && Known(nodes, batch) && forall id :: id in batch ==> id !in old(nodes)
      ensures Infos(nodes, batch) == LiveOf(items)
      ensures |old(table)| == BUCKETS && table == PushAll(nodes, old(table), batch)
    {
      hide Linked, LiveOf, PushAll, Align4;
      ghost var nodes0, table0 := nodes, table;
      LinkedSize(nodes, table, ids);
      PushNone(nodes, table);
      LiveNone();
      batch := [];
      var i, filePos := 0, 0;
      assert items[..0] == [] && ids + batch == ids;
      while i < |items|
        invariant 0 <= i <= |items|
        invariant filePos == if i == 0 then 0 else items[i - 1].offset + Align4(|items[i - 1].raw|)
        invariant Fresh() && Linked(nodes, table, ids + batch) && NoDup(batch)
        invariant Extends(nodes0, nodes) && Known(nodes, batch) && forall id :: id in batch ==> id !in nodes0
        invariant Infos(nodes, batch) == LiveOf(items[..i])
        invariant table == PushAll(nodes, table0, batch)
      {
        assert items[..i + 1] == items[..i] + [items[i]];
        LiveSnoc(items[..i], items[i]);
        if ZeroHash(items[i].raw) {
          filePos := filePos + Align4(RecordSize(items[i].raw, 0));
        } else {
          batch := HashOne(items[i], filePos, ids, batch, nodes0, table0);
          filePos := filePos + Align4(|items[i].raw|);
        }
        i := i + 1;
      }
      assert items[..i] == items;
    }

    /** One live record: a node at the front of its chain, with its file offset. */
    method HashOne(item: Placed, filePos: nat, ghost ids: seq<nat>, batch: seq<nat>,
                   ghost nodes0: map<nat, Info>, ghost table0: seq<seq<nat>>) returns (batch': seq<nat>)
      requires |item.raw| >= HEADER + HASH && filePos == item.offset
      requires Fresh() && Linked(nodes, table, ids + batch) && NoDup(batch)
      requires Extends(nodes0, nodes) && Known(nodes, batch) && forall id :: id in batch ==> id !in nodes0
      requires |table0| == BUCKETS && table == PushAll(nodes, table0, batch)
      modifies this`nodes, this`table, this`next
      ensures Fresh() && Linked(nodes, table, ids + batch') && NoDup(batch')
      ensures Extends(nodes0, nodes) && Known(nodes, batch') && forall id :: id in batch' ==> id !in nodes0
      ensures Infos(nodes, batch') == Infos(old(nodes), batch) + [item]
      ensures table == PushAll(nodes, table0, batch')
    {
      hide Linked, PushAll, Infos, Bucket, NoDup;
      var id := AddToTable(item.raw, ids + batch);
      batch' := batch + [id];
      ghost var before := old(nodes);
      assert ids + batch + [id] == ids + batch';
      SnocNoDup(batch, id);
      LinkedSize(nodes, table, ids + batch');
      MoveLinked(nodes, nodes[id := Info(item.raw, filePos)], table, ids + batch');
      nodes := nodes[id := Info(item.raw, filePos)];
      assert nodes == before[id := Info(item.raw, item.offset)];
      OneMoreHashed(before, table0, batch, id, item);
    }

    /** `file_integrity_reset`. */
    method Reset()
      modifies this`nodes, this`table, this`list, this`total, this`valid, this`length
      requires Fresh()
      ensures Valid() && list == [] && total == 0 && valid == 0 && length == 0
      ensures table == seq(BUCKETS, _ => [])
    {
      ghost var before := nodes;
      var i := 0;
      while i < |list|
        invariant forall id :: id in nodes ==> id in before
      {
        nodes := nodes - {list[i]};
        i := i + 1;
      }
      table := seq(BUCKETS, _ => []);
      list, total, valid, length := [], 0, 0, 0;
      EmptyLinked(nodes);
    }

    /** `file_integrity_append_hashed_array`: hashed nodes join the list, their offsets based on the length so far. */
    method AppendHashed(batch: seq<nat>, count: nat, dataLength: nat)
      requires Fresh() && Linked(nodes, table, list + batch) && length >= 0
      modifies this`nodes, this`list, this`total, this`valid, this`length
      ensures Fresh() && list == old(list) + batch && Linked(nodes, table, list)
      ensures Known(old(nodes), old(list)) && Known(old(nodes), batch)
      ensures Infos(nodes, list) == Infos(old(nodes), old(list)) + Shift(Infos(old(nodes), batch), old(length))
      ensures total == old(total) + count && valid == old(valid) + |batch|
      ensures length == if count > 0 then old(length) + Align4(dataLength) else old(length)
    {
      ghost var nodes0, list0, length0 := nodes, list, length;
      LinkedParts(nodes, table, list, batch);
      total := total + count;
      var i := 0;
      assert list0 + batch[..0] == list0;
      while i < |batch|
        invariant 0 <= i <= |batch| && list == list0 + batch[..i] && length == length0
        invariant valid == old(valid) + i && total == old(total) + count
        invariant Fresh() && nodes.Keys == nodes0.Keys
        invariant forall id :: id in nodes0 && id !in batch[..i] ==> nodes[id] == nodes0[id]
        invariant forall id :: id in batch[..i] ==> nodes[id] == Info(nodes0[id].raw, nodes0[id].offset + length0)
      {
        var id := batch[i];
        assert id in batch && id !in batch[..i] by { NotBefore(batch, i); }
        nodes := nodes[id := Info(nodes[id].raw, nodes[id].offset + length)];
        assert batch[..i + 1] == batch[..i] + [id];
        list := list + [id];
        valid := valid + 1;
        i := i + 1;
      }
      assert batch[..i] == batch;
      MoveLinked(nodes0, nodes, table, list);
      assert Infos(nodes, list) == Infos(nodes0, list0) + Shift(Infos(nodes0, batch), length0) by {
        forall k | 0 <= k < |list|
          ensures Infos(nodes, list)[k] == (Infos(nodes0, list0) + Shift(Infos(nodes0, batch), length0))[k]
        {
          if k < |list0| {
            assert list[k] == list0[k] && list0[k] in list0;
            Disjoint(list0, batch, list0[k]);
          } else {
            assert list[k] == batch[k - |list0|] && batch[k - |list0|] in batch;
          }
        }
      }
      if count > 0 {
        length := length + Align4(dataLength);
      }
    }

    /** `file_integrity_delete_from_hashtable_array`: takes a hashed batch out again. */
    method RemoveBatch(batch: seq<nat>)
      requires |table| == BUCKETS && Known(nodes, batch) && NoDup(batch)
      modifies this`nodes, this`table
      ensures |old(table)| == BUCKETS && Known(old(nodes), batch) && table == DropAll(old(nodes), old(table), batch)
      ensures nodes == old(nodes) - (set id | id in batch)
    {
      ghost var nodes0, table0 := nodes, table;
      var i := 0;
      assert batch[0..] == batch;
      while i < |batch|
        invariant 0 <= i <= |batch| && |table| == BUCKETS
        invariant Known(nodes0, batch[i..]) && DropAll(nodes0, table, batch[i..]) == DropAll(nodes0, table0, batch)
        invariant nodes == nodes0 - (set id | id in batch[..i])
      {
        assert batch[i] in batch && batch[i] !in batch[..i] by { NotBefore(batch, i); }
        assert batch[i..][1..] == batch[i + 1..];
        assert batch[..i + 1] == batch[..i] + [batch[i]];
        DeleteFromTable(batch[i]);
        nodes := nodes - {batch[i]};
        i := i + 1;
      }
      assert batch[..i] == batch;
    }

    /** `build_integrity_data` for an existing file. */
    method Build() returns (ok: bool)
      requires Fresh()
      modifies this`nodes, this`table, this`list, this`total, this`valid, this`length, this`next
      ensures Fresh() && ok == Parse(file).Ok?
      ensures ok ==> InSync() && length == |Pad(file)|
    {
      hide ParseFrom, Linked, Align4, Shift, PushAll;
      Reset();
      ParseSome(file);
      LiveNone();
      if |file| == 0 {
        return true;
      }
      var batch, count;
      assert list + [] == list;
      ok, batch, count := HashPolicyData(file, list);
      if ok {
        assert list + batch == batch;
        ShiftZero(Infos(nodes, batch));
        AppendHashed(batch, count, |file|);
      }
    }

    /** SET: `file_integrity_set`.  The trusted module may refuse the update. */
    method Set(data: seq<byte>, accepted: bool) returns (ok: bool)
      requires Fresh()
      modifies this
      ensures ok == (Parse(data).Ok? && accepted)
      ensures ok ==> file == data && InSync()
      ensures !ok ==> file == old(file) && Valid() && list == []
    {
      hide ParseFrom, Linked, Align4, Shift, PushAll, DropAll;
      Reset();
      var batch, count;
      assert list + [] == list;
      ok, batch, count := HashPolicyData(data, list);
      if !ok { return; }
      assert list + batch == batch;
      LinkedSize(nodes, table, batch);
      if !accepted {
        RemoveBatch(batch);
        Reset();
        return false;
      }
      file := data;
      ShiftZero(Infos(nodes, batch));
      AppendHashed(batch, count, |data|);
    }

    /** ADD: `file_integrity_add`.  On refusal the hash table is rolled back to exactly what it was. */
    method Add(data: seq<byte>, accepted: bool) returns (ok: bool)
      requires Fresh()
      modifies this
      ensures ok == (Parse(old(file)).Ok? && Parse(data).Ok? && accepted)
      ensures ok ==> file == Pad(old(file)) + data && InSync()
      ensures !ok ==> file == old(file) && (Parse(file).Ok? ==> InSync())
    {
      hide ParseFrom, Linked, Align4, Shift, PushAll, DropAll, LiveOf, Pad;
      ok := Build();
      if !ok { return; }
      var batch, count;
      ghost var table1, nodes1 := table, nodes;
      LinkedSize(nodes, table, list);
      assert list + [] == list;
      ok, batch, count := HashPolicyData(data, list);
      if !ok { return; }
      LinkedSize(nodes, table, list + batch);
      if !accepted {
        RollbackExact(nodes, table1, batch);
        RemoveBatch(batch);
        BackOut(nodes1, nodes, list);
        MoveLinkedBack(nodes1, nodes, table, list);
        return false;
      }
      AppendLaw(file, data);
      LiveAppend(Parse(file).records, Shift(Parse(data).records, |Pad(file)|));
      LiveShift(Parse(data).records, |Pad(file)|);
      SameInfos(nodes1, nodes, list);
      file := Pad(file) + data;
      AppendHashed(batch, count, |data|);
    }

    /** `file_integrity_match` (from 0) and `file_integrity_match_next` (from the place after a hit). */
    method MatchFrom(chain: seq<nat>, from: nat, mem: seq<byte>, pos: nat) returns (i: nat)
      requires Known(nodes, chain) && from <= |chain|
      ensures from <= i <= |chain|
      ensures forall k :: from <= k < i ==> !Matches(mem, pos, nodes[chain[k]].raw)
      ensures i < |chain| ==> Matches(mem, pos, nodes[chain[i]].raw)
    {
      i := from;
      while i < |chain|
        invariant from <= i <= |chain|
        invariant forall k :: from <= k < i ==> !Matches(mem, pos, nodes[chain[k]].raw)
      {
        if Matches(mem, pos, nodes[chain[i]].raw) { return; }
        i := i + 1;
      }
    }

    /** One delete request: every node of its bucket that matches, unless selected already. */
    method SelectOne(mem: seq<byte>, pos: nat, del: seq<nat>) returns (del': seq<nat>)
      requires Valid() && pos + HEADER + HASH <= |mem| && NoDup(del)
      ensures NoDup(del')
      ensures forall id :: id in del' <==> id in del || (id in list && id in nodes && Matches(mem, pos, nodes[id].raw))
    {
      hide Matches, Bucket;
      var h := mem[pos + 4] as int + mem[pos + 5] as int * 256;
      var chain := table[h];
      BucketComplete(nodes, table, list, mem, pos, h);
      del' := del;
      var i := MatchFrom(chain, 0, mem, pos);
      while i < |chain|
        invariant 0 <= i <= |chain| && NoDup(del')
        invariant i < |chain| ==> Matches(mem, pos, nodes[chain[i]].raw)
        invariant forall k :: 0 <= k < i && Matches(mem, pos, nodes[chain[k]].raw) ==> chain[k] in del'
        invariant forall id :: id in del ==> id in del'
        invariant forall id :: id in del' && id !in del ==> id in chain && Matches(mem, pos, nodes[id].raw)
        decreases |chain| - i
      {
        if chain[i] !in del' {
          SnocNoDup(del', chain[i]);
          del' := del' + [chain[i]];
        }
        i := MatchFrom(chain, i + 1, mem, pos);
      }
    }

    /** `file_integrity_delete_policy_data_prepare`: exactly the listed nodes some request matches, each once. */
    method Select(reqs: seq<Placed>, mem: seq<byte>) returns (del: seq<nat>)
      requires Valid() && forall k :: 0 <= k < |reqs| ==> reqs[k].offset + HEADER + HASH <= |mem|
      ensures NoDup(del)
      ensures forall id :: id in del <==> id in list && id in nodes && SelectedBy(mem, reqs, nodes[id].raw)
    {
      hide Matches, Linked;
      del := [];
      var i := 0;
      while i < |reqs|
        invariant 0 <= i <= |reqs| && NoDup(del)
        invariant forall id :: id in del <==> id in list && id in nodes && SelectedBy(mem, reqs[..i], nodes[id].raw)
      {
        ghost var del0 := del;
        del := SelectOne(mem, reqs[i].offset, del);
        forall id | id in nodes
          ensures SelectedBy(mem, reqs[..i + 1], nodes[id].raw) <==>
                  SelectedBy(mem, reqs[..i], nodes[id].raw) || Matches(mem, reqs[i].offset, nodes[id].raw)
        {
          SelectedSnoc(mem, reqs, i, nodes[id].raw);
        }
        i := i + 1;
      }
      assert reqs[..i] == reqs;
    }

    /** Overwrites the payload of every selected record in the file. */
    method WriteSections(del: seq<nat>, src: seq<byte>)
      requires InSync() && NoDup(del) && (forall id :: id in del ==> id in list)
      requires Coverable(Parse(file).records, src)
      modifies this`file
      ensures Known(nodes, list) && Parse(file) == Ok(BuryMany(Parse(old(file)).records, OffsetsOf(nodes, del), src))
    {
      hide ParseFrom, Linked, LiveOf, BuryOne, Align4, Bury;
      LinkedSize(nodes, table, list);
      ghost var ps := Parse(file).records;
      Offsets(file, 0);
      var i := 0;
      BuryNone(ps, src);
      assert OffsetsOf(nodes, del[..0]) == {};
      while i < |del|
        invariant 0 <= i <= |del|
        invariant Parse(file) == Ok(BuryMany(ps, OffsetsOf(nodes, del[..i]), src))
      {
        assert del[i] in del && del[i] in list;
        ghost var k := FindRecord(nodes, list, del[i], ps);
        NewOffset(nodes, list, ps, del, i);
        BuryOneMore(file, ps, OffsetsOf(nodes, del[..i]), k, src);
        file := Bury(file, nodes[del[i]].offset, Align4(|nodes[del[i]].raw|), src);
        OffsetsSnoc(nodes, del, i);
        i := i + 1;
      }
      assert del[..i] == del;
    }

    /** `file_integrity_delete_policy_data`. */
    method DeletePolicyData(del: seq<nat>)
      requires Valid() && valid == |list| && NoDup(del) && (forall id :: id in del ==> id in list)
      modifies this`nodes, this`table, this`list, this`valid, this`length
      ensures Fresh() && list == Remaining(old(list), del) && Linked(nodes, table, list) && valid == |list|
      ensures forall id :: id in list ==> id in old(nodes) && nodes[id] == old(nodes)[id]
    {
      hide Linked, Remaining, Without, Align4;
      ghost var nodes0, list0 := nodes, list;
      LinkedSize(nodes, table, list);
      RemainingNone(list);
      var i := 0;
      while i < |del|
        invariant 0 <= i <= |del| && list == Remaining(list0, del[..i]) && valid == |list|
        invariant Fresh() && Linked(nodes, table, list)
        invariant forall id :: id in nodes ==> id in nodes0 && nodes[id] == nodes0[id]
      {
        var id := del[i];
        assert id in del && id !in del[..i] by { NotBefore(del, i); }
        LinkedSize(nodes, table, list);
        RemainingElems(list0, del[..i]);
        RemainingSnoc(list0, del, i);
        WithoutElems(list, id);
        DropLinked(nodes, table, list, id, Without(list, id));
        WithoutSize(list, id);
        DeleteFromTable(id);
        list := Without(list, id);
        valid := valid - 1;
        length := length - Align4(|nodes[id].raw|);
        ForgetLinked(nodes, table, list, id);
        nodes := nodes - {id};
        i := i + 1;
      }
      LinkedSize(nodes, table, list);
      assert del[..i] == del;
    }

    /** DELETE: `file_integrity_del`.  `after` is the memory behind the request, `beyond` that behind the
        1024-byte zero block the payloads are overwritten from. */
    method Delete(data: seq<byte>, after: seq<byte>, beyond: seq<byte>, accepted: bool) returns (ok: bool, ghost gone: set<nat>)
      requires Fresh() && |beyond| >= 65536
      modifies this
      ensures ok == (Parse(old(file)).Ok? && Parse(data).Ok? && accepted)
      ensures ok ==>
                && InSync() && total == |Parse(old(file)).records|
                && Infos(nodes, list) == Survivors(LiveOf(Parse(old(file)).records), gone)
                && (forall k :: 0 <= k < |LiveOf(Parse(old(file)).records)| ==>
                      var p := LiveOf(Parse(old(file)).records)[k];
                      p.offset in gone <==> SelectedBy(data + after, Parse(data).records, p.raw))
                && Parse(file) == Ok(BuryMany(Parse(old(file)).records, gone, Zeros(1024) + beyond))
      ensures !ok ==> file == old(file) && (Parse(file).Ok? ==> InSync())
    {
      hide ParseFrom, Linked, LiveOf, BuryOne, Align4, Remaining, SelectedBy, Survivors;
      gone := {};
      ok := Build();
      if !ok { return; }
      var r := BufferToItems(data);
      if r.Bad? {
        return false, {};
      }
      ParseBounds(data, after);
      var del := Select(r.records, data + after);
      if !accepted {
        return false, {};
      }
      ghost var ps, nodes0, list0 := Parse(file).records, nodes, list;
      LinkedSize(nodes, table, list);
      gone := OffsetsOf(nodes, del);
      var src := Zeros(1024) + beyond;
      Covers(file, src);
      ShroudZero(beyond);
      Offsets(file, 0);
      WriteSections(del, src);
      DeletePolicyData(del);
      LinkedSize(nodes, table, list);
      SurvivingList(nodes0, list0, del, ps);
      SameInfos(nodes0, nodes, list);
      LiveAfterBury(ps, gone, src);
      GoneMeans(nodes0, list0, del, ps, data + after, r.records);
    }
  }

  ghost predicate SelectedBy(mem: seq<byte>, reqs: seq<Placed>, raw: seq<byte>) {
    exists k :: 0 <= k < |reqs| && Matches(mem, reqs[k].offset, raw)
  }

  lemma SelectedSnoc(mem: seq<byte>, reqs: seq<Placed>, i: nat, raw: seq<byte>)
    requires i < |reqs|
    ensures SelectedBy(mem, reqs[..i + 1], raw) <==> SelectedBy(mem, reqs[..i], raw) || Matches(mem, reqs[i].offset, raw)
  {
    hide Matches;
    var a, b := reqs[..i], reqs[..i + 1];
    if SelectedBy(mem, a, raw) {
      var k :| 0 <= k < |a| && Matches(mem, a[k].offset, raw);
      assert b[k] == a[k];
    }
    if Matches(mem, reqs[i].offset, raw) {
      assert b[i] == reqs[i];
    }
    if SelectedBy(mem, b, raw) {
      var k :| 0 <= k < |b| && Matches(mem, b[k].offset, raw);
      if k < i { assert a[k] == b[k]; }
    }
  }

  /** A bucket lookup sees every node a linear scan of the list would find. */
  lemma BucketComplete(nodes: map<nat, Info>, table: seq<seq<nat>>, ids: seq<nat>, mem: seq<byte>, pos: nat, h: nat)
    requires Linked(nodes, table, ids) && pos + HEADER + HASH <= |mem|
    requires h == mem[pos + 4] as int + mem[pos + 5] as int * 256
    ensures h < BUCKETS && Known(nodes, table[h])
    ensures forall id :: id in table[h] ==> id in ids
    ensures forall id :: id in ids && Matches(mem, pos, nodes[id].raw) ==> id in table[h]
  {
    assert ChainOf(nodes, table[h], h, ids);
    forall id | id in ids && Matches(mem, pos, nodes[id].raw)
      ensures id in table[h]
    {
      var raw := nodes[id].raw;
      assert mem[pos + HEADER..pos + HEADER + HASH][0] == HashOf(raw)[0];
      assert mem[pos + HEADER..pos + HEADER + HASH][1] == HashOf(raw)[1];
    }
  }

  // ----- Offsets of nodes -----

  ghost function OffsetsOf(nodes: map<nat, Info>, ids: seq<nat>): set<nat> {
    set id | id in ids && id in nodes :: nodes[id].offset
  }

  lemma OffsetsSnoc(nodes: map<nat, Info>, ids: seq<nat>, i: nat)
    requires i < |ids| && ids[i] in nodes
    ensures OffsetsOf(nodes, ids[..i + 1]) == OffsetsOf(nodes, ids[..i]) + {nodes[ids[i]].offset}
  {
    assert ids[..i + 1] == ids[..i] + [ids[i]];
  }

  lemma BuryNone(ps: seq<Placed>, src: seq<byte>)
    ensures BuryMany(ps, {}, src) == ps
  {
  }

  lemma FindRecord(nodes: map<nat, Info>, ids: seq<nat>, id: nat, ps: seq<Placed>) returns (k: nat)
    requires Known(nodes, ids) && Infos(nodes, ids) == LiveOf(ps) && id in ids
    ensures k < |ps| && ps[k] == Placed(nodes[id].offset, nodes[id].raw)
  {
    var i :| 0 <= i < |ids| && ids[i] == id;
    assert LiveOf(ps)[i] in ps;
    k :| 0 <= k < |ps| && ps[k] == Infos(nodes, ids)[i];
  }

  lemma {:induction false} LiveInOrder(ps: seq<Placed>, i: nat)
    requires InOrder(ps, i)
    ensures InOrder(LiveOf(ps), i)
    decreases |ps|
  {
    hide Align4, Live, InOrder, LiveOf;
    if ps == [] {
      LiveNone();
    } else {
      var x, rest := ps[0], ps[1..];
      assert ps == [x] + rest;
      InOrderTail(x, rest, i);
      LiveInOrder(rest, x.offset + Align4(|x.raw|));
      LiveCons(x, rest);
      if Live(x) { InOrderCons(x, LiveOf(rest), i); } else { InOrderWeaken(LiveOf(rest), x.offset + Align4(|x.raw|), i); }
    }
  }

  lemma InOrderTail(x: Placed, rest: seq<Placed>, i: nat)
    requires InOrder([x] + rest, i)
    ensures i <= x.offset && InOrder(rest, x.offset + Align4(|x.raw|))
  {
    hide Align4;
    var ps := [x] + rest;
    assert ps[0] == x;
    assert forall k :: 0 <= k < |rest| ==> rest[k] == ps[k + 1];
  }

  lemma InOrderWeaken(ps: seq<Placed>, i: nat, j: nat)
    requires InOrder(ps, i) && j <= i
    ensures InOrder(ps, j)
  {
  }

  /** Listed nodes have different offsets. */
  lemma OffsetsInjective(nodes: map<nat, Info>, ids: seq<nat>, ps: seq<Placed>, a: nat, b: nat)
    requires Known(nodes, ids) && Infos(nodes, ids) == LiveOf(ps) && InOrder(ps, 0)
    requires a in ids && b in ids && nodes[a].offset == nodes[b].offset
    ensures a == b
  {
    hide LiveOf, InOrder, Align4;
    LiveInOrder(ps, 0);
    var i :| 0 <= i < |ids| && ids[i] == a;
    var j :| 0 <= j < |ids| && ids[j] == b;
    if i < j {
      LaterOffset(Infos(nodes, ids), i, j);
    } else if j < i {
      LaterOffset(Infos(nodes, ids), j, i);
    }
  }

  lemma LaterOffset(ps: seq<Placed>, i: nat, j: nat)
    requires InOrder(ps, 0) && i < j < |ps| && |ps[i].raw| > 0
    ensures ps[i].offset < ps[j].offset
  {
    assert ps[i].offset + Align4(|ps[i].raw|) <= ps[j].offset;
  }

  lemma NewOffset(nodes: map<nat, Info>, ids: seq<nat>, ps: seq<Placed>, del: seq<nat>, i: nat)
    requires Known(nodes, ids) && Infos(nodes, ids) == LiveOf(ps) && InOrder(ps, 0)
    requires i < |del| && NoDup(del) && forall id :: id in del ==> id in ids
    ensures del[i] in nodes && nodes[del[i]].offset !in OffsetsOf(nodes, del[..i])
  {
    assert del[i] in del;
    forall id | id in del[..i] && id in nodes
      ensures nodes[id].offset != nodes[del[i]].offset
    {
      NotBefore(del, i);
      assert id in del;
      if nodes[id].offset == nodes[del[i]].offset { OffsetsInjective(nodes, ids, ps, id, del[i]); }
    }
  }

  // ----- The list after removals -----

  /** `ids` without those in `del`. */
  function Remaining(ids: seq<nat>, del: seq<nat>): seq<nat> {
    if ids == [] then []
    else (if ids[0] in del then [] else [ids[0]]) + Remaining(ids[1..], del)
  }

  lemma {:induction false} RemainingNone(ids: seq<nat>)
    ensures Remaining(ids, []) == ids
    decreases |ids|
  {
    if ids != [] { RemainingNone(ids[1..]); }
  }

  lemma {:induction false} RemainingElems(ids: seq<nat>, del: seq<nat>)
    ensures forall x :: x in Remaining(ids, del) <==> x in ids && x !in del
    decreases |ids|
  {
    if ids != [] {
      RemainingElems(ids[1..], del);
      assert ids == [ids[0]] + ids[1..];
    }
  }

  lemma RemainingCons(x: nat, rest: seq<nat>, del: seq<nat>)
    ensures Remaining([x] + rest, del) == if x in del then Remaining(rest, del) else [x] + Remaining(rest, del)
  {
    assert ([x] + rest)[1..] == rest;
  }

  lemma WithoutCons(x: nat, rest: seq<nat>, id: nat)
    ensures Without([x] + rest, id) == if x == id then rest else [x] + Without(rest, id)
  {
    assert ([x] + rest)[1..] == rest;
  }

  lemma {:induction false} RemainingSnoc(ids: seq<nat>, del: seq<nat>, i: nat)
    requires NoDup(ids) && i < |del| && del[i] !in del[..i]
    ensures Remaining(ids, del[..i + 1]) == Without(Remaining(ids, del[..i]), del[i])
    decreases |ids|
  {
    hide Remaining, Without;
    var d, d' := del[..i], del[..i + 1];
    assert d' == d + [del[i]];
    if ids == [] {
      RemainingNil(d);
      RemainingNil(d');
    } else {
      var x, rest := ids[0], ids[1..];
      assert ids == [x] + rest;
      NoDupTail(ids);
      RemainingSnoc(rest, del, i);
      RemainingCons(x, rest, d);
      RemainingCons(x, rest, d');
      WithoutCons(x, Remaining(rest, d), del[i]);
      RemainingElems(rest, d);
    }
  }

  lemma RemainingNil(del: seq<nat>)
    ensures Remaining([], del) == [] && Without([], 0) == []
  {
  }

  lemma {:induction false} WithoutSize(chain: seq<nat>, id: nat)
    requires id in chain
    ensures |Without(chain, id)| == |chain| - 1
    decreases |chain|
  {
    if chain[0] != id { WithoutSize(chain[1..], id); }
  }

  lemma ForgetLinked(nodes: map<nat, Info>, table: seq<seq<nat>>, ids: seq<nat>, id: nat)
    requires Linked(nodes, table, ids) && id !in ids
    ensures Linked(nodes - {id}, table, ids)
  {
    MoveLinked(nodes, nodes - {id}, table, ids);
  }

  /** What is left on the list are the survivors of the live records. */
  lemma SurvivingList(nodes: map<nat, Info>, ids: seq<nat>, del: seq<nat>, ps: seq<Placed>)
    requires Known(nodes, ids) && Infos(nodes, ids) == LiveOf(ps) && InOrder(ps, 0)
    requires forall id :: id in del ==> id in ids
    ensures Known(nodes, Remaining(ids, del))
    ensures Infos(nodes, Remaining(ids, del)) == Survivors(LiveOf(ps), OffsetsOf(nodes, del))
  {
    hide Remaining, Survivors, LiveOf;
    forall k | 0 <= k < |ids|
      ensures nodes[ids[k]].offset in OffsetsOf(nodes, del) <==> ids[k] in del
    {
      assert ids[k] in ids;
      if nodes[ids[k]].offset in OffsetsOf(nodes, del) {
        var id :| id in del && id in nodes && nodes[id].offset == nodes[ids[k]].offset;
        OffsetsInjective(nodes, ids, ps, id, ids[k]);
      }
    }
    SurvivingInfos(nodes, ids, del, OffsetsOf(nodes, del));
  }

  lemma InfosCons(nodes: map<nat, Info>, x: nat, rest: seq<nat>)
    requires Known(nodes, [x] + rest)
    ensures x in nodes && Known(nodes, rest)
    ensures Infos(nodes, [x] + rest) == [Placed(nodes[x].offset, nodes[x].raw)] + Infos(nodes, rest)
  {
    assert x in [x] + rest;
    assert forall y :: y in rest ==> y in [x] + rest;
    var l, r := Infos(nodes, [x] + rest), [Placed(nodes[x].offset, nodes[x].raw)] + Infos(nodes, rest);
    forall k | 0 <= k < |l|
      ensures l[k] == r[k]
    {
      if k > 0 { assert ([x] + rest)[k] == rest[k - 1]; }
    }
  }

  lemma {:induction false} SurvivingInfos(nodes: map<nat, Info>, ids: seq<nat>, del: seq<nat>, gone: set<nat>)
    requires Known(nodes, ids)
    requires forall k :: 0 <= k < |ids| ==> ids[k] in nodes && (nodes[ids[k]].offset in gone <==> ids[k] in del)
    ensures Known(nodes, Remaining(ids, del))
    ensures Infos(nodes, Remaining(ids, del)) == Survivors(Infos(nodes, ids), gone)
    decreases |ids|
  {
    hide Infos;
    RemainingElems(ids, del);
    if ids == [] {
    } else {
      var x, rest := ids[0], ids[1..];
      assert ids == [x] + rest;
      InfosCons(nodes, x, rest);
      assert forall k :: 0 <= k < |rest| ==> rest[k] == ids[k + 1];
      SurvivingInfos(nodes, rest, del, gone);
      SurvivorsCons(Placed(nodes[x].offset, nodes[x].raw), Infos(nodes, rest), gone);
      RemainingCons(x, rest, del);
      if x !in del {
        InfosCons(nodes, x, Remaining(rest, del));
      }
    }
  }

  lemma GoneMeans(nodes: map<nat, Info>, ids: seq<nat>, del: seq<nat>, ps: seq<Placed>, mem: seq<byte>, reqs: seq<Placed>)
    requires Known(nodes, ids) && Infos(nodes, ids) == LiveOf(ps) && InOrder(ps, 0)
    requires forall id :: id in del <==> id in ids && id in nodes && SelectedBy(mem, reqs, nodes[id].raw)
    ensures forall k :: 0 <= k < |LiveOf(ps)| ==>
              (LiveOf(ps)[k].offset in OffsetsOf(nodes, del) <==> SelectedBy(mem, reqs, LiveOf(ps)[k].raw))
  {
    hide SelectedBy, LiveOf;
    forall k | 0 <= k < |LiveOf(ps)|
      ensures LiveOf(ps)[k].offset in OffsetsOf(nodes, del) <==> SelectedBy(mem, reqs, LiveOf(ps)[k].raw)
    {
      var id := ids[k];
      assert id in ids && LiveOf(ps)[k] == Placed(nodes[id].offset, nodes[id].raw);
      if nodes[id].offset in OffsetsOf(nodes, del) {
        var d :| d in del && d in nodes && nodes[d].offset == nodes[id].offset;
        OffsetsInjective(nodes, ids, ps, d, id);
      }
    }
  }

  lemma ParseBounds(data: seq<byte>, after: seq<byte>)
    requires Parse(data).Ok?
    ensures forall k :: 0 <= k < |Parse(data).records| ==> Parse(data).records[k].offset + HEADER + HASH <= |data + after|
  {
    Offsets(data, 0);
    ParseFramed(data, 0);
    forall k | 0 <= k < |Parse(data).records|
      ensures Parse(data).records[k].offset + HEADER + HASH <= |data + after|
    {
      assert StandsIn(Parse(data).records[k], data) && Framed(Parse(data).records[k]);
    }
  }

  lemma Covers(b: seq<byte>, src: seq<byte>)
    requires Parse(b).Ok? && |src| >= 1024 + 65536
    ensures Coverable(Parse(b).records, src)
  {
    ParseFramed(b, 0);
    forall k | 0 <= k < |Parse(b).records|
      ensures Framed(Parse(b).records[k]) && |Parse(b).records[k].raw| <= Align4(|Parse(b).records[k].raw|) <= |src|
    {
      assert Framed(Parse(b).records[k]);
    }
  }

  lemma ShroudZero(beyond: seq<byte>)
    ensures Shroud(Zeros(1024) + beyond)
  {
    assert (Zeros(1024) + beyond)[..HASH] == Zeros(HASH);
  }

  ghost predicate Extends(nodes: map<nat, Info>, nodes': map<nat, Info>) {
    forall id :: id in nodes ==> id in nodes' && nodes'[id] == nodes[id]
  }

  lemma LinkedSize(nodes: map<nat, Info>, table: seq<seq<nat>>, ids: seq<nat>)
    requires Linked(nodes, table, ids)
    ensures |table| == BUCKETS && Known(nodes, ids) && NoDup(ids)
  {
  }

  lemma PushNone(nodes: map<nat, Info>, table: seq<seq<nat>>)
    requires |table| == BUCKETS
    ensures PushAll(nodes, table, []) == table
  {
  }

  lemma LiveNone()
    ensures LiveOf([]) == []
  {
  }

  lemma LiveSnoc(ps: seq<Placed>, x: Placed)
    ensures LiveOf(ps + [x]) == LiveOf(ps) + if Live(x) then [x] else []
  {
    LiveAppend(ps, [x]);
  }

  lemma {:induction false} PushAllExtends(nodes: map<nat, Info>, nodes': map<nat, Info>, table: seq<seq<nat>>, ids: seq<nat>)
    requires |table| == BUCKETS && Known(nodes, ids) && Extends(nodes, nodes')
    ensures PushAll(nodes, table, ids) == PushAll(nodes', table, ids)
    decreases |ids|
  {
    if ids != [] { PushAllExtends(nodes, nodes', table, ids[..|ids| - 1]); }
  }

  /** A new node at the end of a batch. */
  lemma OneMoreHashed(nodes: map<nat, Info>, table0: seq<seq<nat>>, batch: seq<nat>, id: nat, item: Placed)
    requires |table0| == BUCKETS && Known(nodes, batch) && id !in nodes && |item.raw| >= HEADER + HASH
    ensures var nodes' := nodes[id := Info(item.raw, item.offset)];
            && Extends(nodes, nodes') && Known(nodes', batch + [id])
            && Infos(nodes', batch + [id]) == Infos(nodes, batch) + [item]
            && PushAll(nodes', table0, batch + [id]) == PushNode(PushAll(nodes, table0, batch), Bucket(item.raw), id)
  {
    var nodes' := nodes[id := Info(item.raw, item.offset)];
    var batch' := batch + [id];
    assert forall x :: x in batch' ==> x in batch || x == id;
    PushAllExtends(nodes, nodes', table0, batch);
    assert batch'[..|batch|] == batch;
    assert Infos(nodes', batch') == Infos(nodes, batch) + [item];
  }

  lemma NotBefore(s: seq<nat>, i: nat)
    requires NoDup(s) && i < |s|
    ensures s[i] !in s[..i]
  {
  }

  lemma Disjoint(a: seq<nat>, b: seq<nat>, x: nat)
    requires NoDup(a + b) && x in a
    ensures x !in b
  {
    var i :| 0 <= i < |a| && a[i] == x;
    forall j | 0 <= j < |b|
      ensures b[j] != x
    {
      assert (a + b)[i] != (a + b)[|a| + j];
    }
  }

  lemma LinkedParts(nodes: map<nat, Info>, table: seq<seq<nat>>, a: seq<nat>, b: seq<nat>)
    requires Linked(nodes, table, a + b)
    ensures Known(nodes, a) && Known(nodes, b) && NoDup(a) && NoDup(b)
  {
    assert forall x :: x in a ==> x in a + b;
    assert forall x :: x in b ==> x in a + b;
    forall i, j | 0 <= i < j < |b|
      ensures b[i] != b[j]
    {
      assert (a + b)[|a| + i] != (a + b)[|a| + j];
    }
    forall i, j | 0 <= i < j < |a|
      ensures a[i] != a[j]
    {
      assert (a + b)[i] != (a + b)[j];
    }
  }

  lemma ParseSome(b: seq<byte>)
    ensures |b| == 0 ==> Parse(b) == Ok([])
    ensures |b| > 0 && Parse(b).Ok? ==> |Parse(b).records| > 0
    ensures |b| == 0 ==> |Pad(b)| == 0
  {
    if |b| == 0 { ParseEnd(b, 0); } else { ParseStep(b, 0); }
  }

  lemma ShiftZero(ps: seq<Placed>)
    ensures Shift(ps, 0) == ps
  {
  }

  lemma SameInfos(nodes: map<nat, Info>, nodes': map<nat, Info>, ids: seq<nat>)
    requires Known(nodes, ids) && forall id :: id in ids ==> id in nodes' && nodes'[id] == nodes[id]
    ensures Known(nodes', ids) && Infos(nodes', ids) == Infos(nodes, ids)
  {
    forall k | 0 <= k < |ids|
      ensures ids[k] in nodes' && nodes'[ids[k]] == nodes[ids[k]]
    {
      assert ids[k] in ids;
    }
  }

  /** After a batch is freed, the nodes that were there before it are still there. */
  lemma BackOut(before: map<nat, Info>, now: map<nat, Info>, ids: seq<nat>)
    requires Known(before, ids)
    requires forall id :: id in before ==> id in now && now[id] == before[id]
    ensures Known(now, ids) && Infos(now, ids) == Infos(before, ids)
  {
    SameInfos(before, now, ids);
  }

  lemma MoveLinkedBack(before: map<nat, Info>, now: map<nat, Info>, table: seq<seq<nat>>, ids: seq<nat>)
    requires Linked(before, table, ids) && forall id :: id in before ==> id in now && now[id] == before[id]
    ensures Linked(now, table, ids)
  {
    MoveLinked(before, now, table, ids);
  }
}
