/**
  The shared-memory allocator of `cmd_man.c`: command headers and data buffers in ten size classes.

  Addresses are plain numbers; 0 is the null pointer. Every run keeps the live blocks pairwise disjoint,
  inside the data region and at least as large as asked for.
*/
module ShmAlloc {
  import opened ShmPool

  datatype Area = Area(offset: nat, unit: nat, size: nat)

  const AREAS: seq<Area> := [
    Area(0x200000, 0x1000, 0x200000),
    Area(0x400000, 0x2000, 0x200000),
    Area(0x600000, 0x4000, 0x200000),
    Area(0x800000, 0x8000, 0x200000),
    Area(0xA00000, 0x10000, 0x200000),
    Area(0xC00000, 0x20000, 0x200000),
    Area(0xE00000, 0x40000, 0x200000),
    Area(0x1000000, 0x80000, 0x200000),
    Area(0x1200000, 0x100000, 0x400000),
    Area(0x1600000, 0x200000, 0x800000)]

  const NUM: nat := 10
  const DATA_OFFSET: nat := 0x200000
  const DATA_SIZE: nat := 0x1C00000
  const HEADER_OFFSET: nat := 0x1E00000
  const SHARED_SIZE: nat := 0x1F00000
  /** Size of `struct cmd_header`. */
  const HEADER: nat := 32
  const HEADERS: nat := 0x8000
  const MAX_UNIT: nat := 0x200000
  const TWO32: nat := 0x1_0000_0000
  const TWO64: nat := 0x1_0000_0000_0000_0000

  function Offset(k: nat): nat requires k < NUM { AREAS[k].offset }

  function Unit(k: nat): nat requires k < NUM { AREAS[k].unit }

  function Size(k: nat): nat requires k < NUM { AREAS[k].size }

  function Count(k: nat): nat
    requires k < NUM
  {
    AreaFacts(k);
    Size(k) / Unit(k)
  }

  lemma CountBound(k: nat)
    requires k < NUM
    ensures Count(k) <= 512
  {
  }

  lemma AreaFacts(k: nat)
    requires k < NUM
    ensures 0 < Unit(k) <= MAX_UNIT && Size(k) / Unit(k) <= 512 && Size(k) == Size(k) / Unit(k) * Unit(k)
    ensures Offset(k) + Size(k) == if k + 1 < NUM then Offset(k + 1) else DATA_OFFSET + DATA_SIZE
    ensures k + 1 < NUM ==> Unit(k) < Unit(k + 1)
  {
  }

  /** The areas follow one another. */
  lemma {:induction false} AreaOrder(j: nat, k: nat)
    requires j < k < NUM
    ensures Offset(j) + Size(j) <= Offset(k) && Unit(j) < Unit(k)
    decreases k
  {
    AreaFacts(j);
    AreaFacts(k - 1);
    if j < k - 1 {
      AreaOrder(j, k - 1);
    }
  }

  lemma AreaInRegion(k: nat)
    requires k < NUM
    ensures DATA_OFFSET <= Offset(k) && Offset(k) + Size(k) <= DATA_OFFSET + DATA_SIZE
  {
    AreaFacts(k);
    if 0 < k { AreaOrder(0, k); }
    if k < NUM - 1 { AreaOrder(k, NUM - 1); AreaFacts(NUM - 1); }
  }

  // ----- Blocks -----

  datatype Block = Block(area: nat, index: nat)

  ghost predicate IsBlock(b: Block) { b.area < NUM && b.index < Count(b.area) }

  ghost function Addr(base: nat, b: Block): nat
    requires IsBlock(b)
  {
    base + Offset(b.area) + b.index * Unit(b.area)
  }

  lemma Scale(i: nat, n: nat, u: nat)
    requires i < n
    ensures (i + 1) * u <= n * u && (i + 1) * u == i * u + u
  {
  }

  lemma BlockInArea(base: nat, b: Block)
    requires IsBlock(b)
    ensures base + Offset(b.area) <= Addr(base, b)
    ensures Addr(base, b) + Unit(b.area) <= base + Offset(b.area) + Size(b.area)
  {
    hide Offset, Unit, Size, Count;
    CountTotal(b.area);
    Scale(b.index, Count(b.area), Unit(b.area));
  }

  lemma CountTotal(k: nat)
    requires k < NUM
    ensures Size(k) == Count(k) * Unit(k)
  {
    hide Unit, Size;
    AreaFacts(k);
  }

  /** Blocks lie in the data region, below the command headers. */
  lemma BlockInRegion(base: nat, b: Block)
    requires IsBlock(b)
    ensures base + DATA_OFFSET <= Addr(base, b)
    ensures Addr(base, b) + Unit(b.area) <= base + DATA_OFFSET + DATA_SIZE
  {
    hide Offset, Unit, Size, Addr;
    BlockInArea(base, b);
    AreaInRegion(b.area);
  }

  /** Different blocks do not overlap. */
  lemma BlocksDisjoint(base: nat, b: Block, c: Block)
    requires IsBlock(b) && IsBlock(c) && b != c
    ensures Addr(base, b) + Unit(b.area) <= Addr(base, c) || Addr(base, c) + Unit(c.area) <= Addr(base, b)
  {
    hide Offset, Unit, Size;
    if b.area == c.area {
      if b.index < c.index {
        Scale(b.index, c.index, Unit(b.area));
      } else {
        Scale(c.index, b.index, Unit(b.area));
      }
    } else {
      BlockInArea(base, b);
      BlockInArea(base, c);
      if b.area < c.area { AreaOrder(b.area, c.area); } else { AreaOrder(c.area, b.area); }
    }
  }

  /** A block is known by its address. */
  lemma AddrInjective(base: nat, b: Block, c: Block)
    requires IsBlock(b) && IsBlock(c) && Addr(base, b) == Addr(base, c)
    ensures b == c
  {
    hide Offset, Unit, Size, Addr;
    AreaFacts(b.area);
    AreaFacts(c.area);
    if b != c {
      BlocksDisjoint(base, b, c);
    }
  }

  // ----- The allocator -----

  /** `get_area`: the smallest class that holds `size`, or the last one. */
  method GetArea(size: nat) returns (i: nat)
    requires size <= MAX_UNIT
    ensures i < NUM && size <= Unit(i) && forall k :: 0 <= k < i ==> Unit(k) < size
  {
    i := 0;
    while i < NUM - 1
      invariant 0 <= i < NUM && forall k :: 0 <= k < i ==> Unit(k) < size
    {
      if size <= AREAS[i].unit {
        break;
      }
      i := i + 1;
    }
  }

  /** `get_area_point`: the area an address of the data region lies in. */
  method GetAreaPoint(base: nat, buffer: nat) returns (i: nat)
    requires base + DATA_OFFSET <= buffer < base + DATA_OFFSET + DATA_SIZE
    ensures i < NUM && base + Offset(i) <= buffer < base + Offset(i) + Size(i)
  {
    hide Size;
    i := 0;
    while i < NUM - 1
      invariant 0 <= i < NUM && base + Offset(i) <= buffer
    {
      AreaFacts(i);
      if buffer < base + AREAS[i + 1].offset {
        break;
      }
      i := i + 1;
    }
    AreaFacts(i);
  }

  class SharedMemory {
    const base: nat
    const headers: Pool
    const pools: seq<Pool>

    ghost const repr: set<object>

    ghost predicate Valid()
      reads this, repr
    {
      && 0 < base && base + SHARED_SIZE < TWO64
      && |pools| == NUM
      && (forall k :: 0 <= k < NUM ==> {pools[k], pools[k].links} <= repr)
      && {headers, headers.links} <= repr
      && (forall k :: 0 <= k < NUM ==> pools[k] != headers && pools[k].links != headers.links)
      && (forall j, k :: 0 <= j < k < NUM ==> pools[j] != pools[k] && pools[j].links != pools[k].links)
      && (forall k :: 0 <= k < NUM ==> pools[k].Valid() && pools[k].links.Length == Count(k))
      && headers.Valid() && headers.links.Length == HEADERS
    }

    /** The block is handed out. */
    ghost predicate Live(b: Block)
      requires Valid()
      reads this, repr
    {
      IsBlock(b) && pools[b.area].InUse(b.index)
    }

    ghost predicate LiveHeader(i: nat)
      requires Valid()
      reads this, repr
    {
      headers.InUse(i)
    }

    /** `shm_init`: everything is free. */
    constructor (at: nat)
      requires 0 < at && at + SHARED_SIZE < TWO64
      ensures Valid() && fresh(repr) && base == at
      ensures (forall b :: !Live(b)) && (forall i :: !LiveHeader(i))
    {
      hide Threaded, Count;
      base := at;
      var cmds := new Pool(HEADERS);
      var list: seq<Pool> := [];
      ghost var owned: set<object> := {cmds, cmds.links};
      while |list| < NUM
        invariant |list| <= NUM && fresh(owned) && cmds.Valid() && {cmds, cmds.links} <= owned
        invariant forall k :: 0 <= k < |list| ==> {list[k], list[k].links} <= owned
        invariant forall k :: 0 <= k < |list| ==> list[k] != cmds && list[k].links != cmds.links
        invariant forall j, k :: 0 <= j < k < |list| ==> list[j] != list[k] && list[j].links != list[k].links
        invariant forall k :: 0 <= k < |list| ==> list[k].Valid() && list[k].links.Length == Count(k)
        invariant forall k :: 0 <= k < |list| ==> forall i :: !list[k].InUse(i)
        invariant cmds.links.Length == HEADERS && forall i :: !cmds.InUse(i)
      {
        CountBound(|list|);
        var pool := new Pool(Count(|list|));
        owned := owned + {pool, pool.links};
        list := list + [pool];
      }
      headers, pools, repr := cmds, list, owned;
    }

    lemma BaseNotNull()
      requires Valid()
      ensures 0 < base
    {
    }

    /** One class: takes a block, or finds all of them live. */
    method TakeFrom(area: nat) returns (index: int)
      requires Valid() && area < NUM
      modifies repr
      ensures Valid()
      ensures forall i :: LiveHeader(i) == old(LiveHeader(i))
      ensures index == END ==> forall b :: Live(b) == old(Live(b))
      ensures index == END ==> forall i :: 0 <= i < Count(area) ==> Live(Block(area, i))
      ensures index != END ==> 0 <= index && IsBlock(Block(area, index)) && !old(Live(Block(area, index)))
      ensures index != END ==> forall b :: Live(b) <==> old(Live(b)) || b == Block(area, index)
    {
      hide Count, Threaded;
      index := pools[area].Take();
      assert forall k :: 0 <= k < NUM && k != area ==> pools[k].Valid();
    }

    /** `tdd_alloc_data_buffer`: a free block of the smallest class that still has one and is large enough;
        null only when every sufficient class is exhausted. */
    method AllocData(size: nat) returns (buf: nat, ghost block: Block)
      requires Valid()
      modifies repr
      ensures Valid()
      ensures forall i :: LiveHeader(i) == old(LiveHeader(i))
      ensures buf != 0 ==> 0 < size && IsBlock(block) && buf == Addr(base, block) && size <= Unit(block.area)
      ensures buf != 0 ==> !old(Live(block)) && forall b :: Live(b) <==> old(Live(b)) || b == block
      ensures buf != 0 ==> forall k, i :: 0 <= k < block.area && size <= Unit(k) && 0 <= i < Count(k) ==> old(Live(Block(k, i)))
      ensures buf == 0 ==> forall b :: Live(b) == old(Live(b))
      ensures buf == 0 && 0 < size ==> forall b :: IsBlock(b) && size <= Unit(b.area) ==> old(Live(b))
    {
      hide Valid, Live, LiveHeader, Count, Unit, Offset;
      buf := 0;
      block := Block(0, 0);
      if size == 0 || size > MAX_UNIT {
        forall b | IsBlock(b) ensures Unit(b.area) <= MAX_UNIT { AreaFacts(b.area); }
        return;
      }
      var area := GetArea(size);
      while area < NUM
        invariant 0 <= area <= NUM && Valid() && (area < NUM ==> size <= Unit(area))
        invariant forall k, i :: 0 <= k < area && size <= Unit(k) && 0 <= i < Count(k) ==> Live(Block(k, i))
        invariant forall b :: Live(b) == old(Live(b))
        invariant forall i :: LiveHeader(i) == old(LiveHeader(i))
      {
        var index := TakeFrom(area);
        if index != END {
          block := Block(area, index);
          buf := base + Offset(area) + index * Unit(area);
          BaseNotNull();
          return;
        }
        AreaFacts(area);
        area := area + 1;
      }
    }

    /** The address is the base of a block that is handed out. */
    ghost predicate LiveAt(buffer: nat)
      requires Valid()
      reads this, repr
    {
      exists b :: Live(b) && IsBlock(b) && Addr(base, b) == buffer
    }

    /** One class: gives a block back, if it is live. */
    method GiveTo(area: nat, index: nat) returns (ok: bool)
      requires Valid() && IsBlock(Block(area, index))
      modifies repr
      ensures Valid() && ok == old(Live(Block(area, index)))
      ensures forall i :: LiveHeader(i) == old(LiveHeader(i))
      ensures forall b :: Live(b) <==> old(Live(b)) && b != Block(area, index)
    {
      hide Threaded;
      AreaFacts(area);
      ok := pools[area].Give(index);
      assert forall k :: 0 <= k < NUM && k != area ==> pools[k].Valid();
    }

    /** `tdd_free_data_buffer`: succeeds exactly for the base address of a live block; any other address, inside
        or outside the region, changes nothing. */
    method FreeData(buffer: nat) returns (ok: bool)
      requires Valid()
      modifies repr
      ensures Valid() && ok == old(LiveAt(buffer))
      ensures forall i :: LiveHeader(i) == old(LiveHeader(i))
      ensures forall b :: Live(b) <==> old(Live(b)) && IsBlock(b) && Addr(base, b) != buffer
    {
      hide Valid, Offset, Unit, Size, Count, Addr;
      LiveAreBlocks();
      if buffer >= base + DATA_OFFSET + DATA_SIZE || buffer < base + DATA_OFFSET {
        forall b | IsBlock(b) ensures Addr(base, b) != buffer { AreaFacts(b.area); BlockInRegion(base, b); }
        return false;
      }
      var area := GetAreaPoint(base, buffer);
      var diff := buffer - (base + Offset(area));
      AreaFacts(area);
      if diff % Unit(area) != 0 {
        forall b | IsBlock(b) ensures Addr(base, b) != buffer { OffBase(base, buffer, area, b); }
        return false;
      }
      var index := diff / Unit(area);
      OnBase(base, buffer, area, index);
      forall b | IsBlock(b) && Addr(base, b) == buffer
        ensures b == Block(area, index)
      {
        AddrInjective(base, b, Block(area, index));
      }
      ok := GiveTo(area, index);
    }

    lemma LiveAreBlocks()
      requires Valid()
      ensures forall b :: Live(b) ==> IsBlock(b)
    {
    }

    /** `tdd_alloc_cmd_header`: null only when all headers are in use. */
    method AllocHeader() returns (cmd: nat, ghost index: nat)
      requires Valid()
      modifies repr
      ensures Valid()
      ensures forall b :: Live(b) == old(Live(b))
      ensures cmd != 0 ==> index < HEADERS && cmd == HeaderAddr(base, index) && !old(LiveHeader(index))
      ensures cmd != 0 ==> forall i :: LiveHeader(i) <==> old(LiveHeader(i)) || i == index
      ensures cmd == 0 ==> forall i :: 0 <= i < HEADERS ==> old(LiveHeader(i)) && LiveHeader(i)
    {
      hide Threaded;
      cmd, index := 0, 0;
      var slot := headers.Take();
      if slot != END {
        index := slot;
        cmd := base + HEADER_OFFSET + HEADER * slot;
      }
    }

    /** `tdd_free_cmd_header`. */
    method FreeHeader(header: nat) returns (ok: bool)
      requires Valid() && header < TWO64
      modifies repr
      ensures Valid()
      ensures forall b :: Live(b) == old(Live(b))
      ensures var i := HeaderIndex(base, header);
              ok == (0 <= i < HEADERS && old(LiveHeader(i)))
      ensures forall i :: LiveHeader(i) <==> old(LiveHeader(i)) && i != HeaderIndex(base, header)
    {
      hide Threaded, HeaderIndex;
      var index := HeaderIndex(base, header);
      if index < 0 || index >= HEADERS {
        return false;
      }
      ok := headers.Give(index);
    }
  }

  /** An address off the unit grid of its area is no block's base. */
  lemma OffBase(base: nat, buffer: nat, area: nat, b: Block)
    requires area < NUM && IsBlock(b) && 0 < Unit(area)
    requires base + Offset(area) <= buffer < base + Offset(area) + Size(area)
    requires (buffer - (base + Offset(area))) % Unit(area) != 0
    ensures Addr(base, b) != buffer
  {
    hide Offset, Unit, Size;
    if Addr(base, b) == buffer {
      AreaFacts(b.area);
      BlockInArea(base, b);
      if area < b.area { AreaOrder(area, b.area); } else if b.area < area { AreaOrder(b.area, area); }
      assert b.area == area;
      Multiple(b.index, Unit(area));
    }
  }

  lemma Multiple(i: nat, u: nat)
    requires u > 0
    ensures (i * u) % u == 0
  {
    var q := i * u / u;
    var r := i * u % u;
    assert i * u == q * u + r;
    assert r == (i - q) * u;
    if i - q >= 1 {
      Scale(0, i - q, u);
    } else if i - q <= -1 {
      Scale(0, q - i, u);
    }
  }

  /** An address on the unit grid is the base of the block the division gives. */
  lemma OnBase(base: nat, buffer: nat, area: nat, index: nat)
    requires area < NUM && 0 < Unit(area) && base + Offset(area) <= buffer < base + Offset(area) + Size(area)
    requires (buffer - (base + Offset(area))) % Unit(area) == 0
    requires index == (buffer - (base + Offset(area))) / Unit(area)
    ensures IsBlock(Block(area, index)) && Addr(base, Block(area, index)) == buffer
  {
    hide Offset, Unit, Size, Count;
    CountTotal(area);
    var u := Unit(area);
    var diff := buffer - (base + Offset(area));
    assert diff == index * u;
    LessFactor(index, Count(area), u);
  }

  lemma LessFactor(i: nat, n: nat, u: nat)
    ensures i * u < n * u ==> i < n
  {
    if n < i { Scale(n, i, u); }
  }

  // ----- Command headers -----

  function HeaderAddr(base: nat, i: nat): nat { base + HEADER_OFFSET + HEADER * i }

  /** The index `tdd_free_cmd_header` computes: an unsigned difference, divided, and cut to a signed int. */
  function HeaderIndex(base: nat, header: nat): int {
    var diff := (header - (base + HEADER_OFFSET)) % TWO64;
    var cut := diff / HEADER % TWO32;
    if cut < 0x8000_0000 then cut else cut - TWO32
  }

  const WINDOW: nat := 0x20_0000_0000

  /** Exactly the addresses that, modulo 2^37, fall into header `i` free it: there is no alignment check, and the
      conversion to int makes far addresses alias. */
  lemma HeaderIndexMeaning(base: nat, header: nat, i: nat)
    requires i < HEADERS
    ensures HeaderIndex(base, header) == i <==> HEADER * i <= (header - (base + HEADER_OFFSET)) % WINDOW < HEADER * i + HEADER
  {
    var x := header - (base + HEADER_OFFSET);
    var diff := x % TWO64;
    var q := diff / HEADER;
    assert diff == HEADER * q + diff % HEADER;
    assert q == TWO32 * (q / TWO32) + q % TWO32;
    assert diff == WINDOW * (q / TWO32) + (HEADER * (q % TWO32) + diff % HEADER);
    assert x == TWO64 * (x / TWO64) + diff;
    WindowMod(x / TWO64 * 0x800_0000 + q / TWO32, HEADER * (q % TWO32) + diff % HEADER, x);
  }

  lemma WindowMod(t: int, r: nat, x: int)
    requires r < WINDOW && x == WINDOW * t + r
    ensures x % WINDOW == r
  {
  }

  /** A header's own address frees that header. */
  lemma HeaderRoundTrip(base: nat, i: nat)
    requires i < HEADERS
    ensures HeaderIndex(base, HeaderAddr(base, i)) == i
  {
    hide HeaderIndex;
    HeaderIndexMeaning(base, HeaderAddr(base, i), i);
  }

  /** Two addresses that are no header and yet free header 0. */
  lemma HeaderFreeUnchecked(base: nat)
    ensures HeaderIndex(base, HeaderAddr(base, 0) + 1) == 0
    ensures HeaderIndex(base, HeaderAddr(base, 0) + WINDOW) == 0
  {
    hide HeaderIndex;
    HeaderIndexMeaning(base, HeaderAddr(base, 0) + 1, 0);
    HeaderIndexMeaning(base, HeaderAddr(base, 0) + WINDOW, 0);
  }
}
