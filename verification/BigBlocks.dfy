/**
 kmalloc and kfree of kern/mm/kmalloc.c for all sizes: blocks below a page come from the SLOB heap,
 larger ones are whole pages on a list of their own.  Addresses are counted in units of 16 bytes.
 */
module BigBlocks {
  import opened FreeBlocks
  import opened Options
  import opened Slob

  // ----- find_order ---------------------------------------------------------------------------

  function Pow2(k: nat): (p: nat)
    ensures p > 0
  {
    if k == 0 then 1 else 2 * Pow2(k - 1)
  }

  /** The conversion of a size_t to an int. */
  function AsInt(size: nat): int {
    (size + 0x8000_0000) % 0x1_0000_0000 - 0x8000_0000
  }

  /** The number of times that the size is halved until it is at most 4096. */
  function Order(size: int): nat
    decreases if size > 4096 then size else 0
  {
    if size <= 4096 then 0 else 1 + Order(size / 2)
  }

  method FindOrder(size: int) returns (order: nat)
    ensures order == Order(size)
  {
    order := 0;
    var n := size;
    while n > 4096
      invariant order + Order(n) == Order(size)
      decreases n
    {
      n := n / 2;
      order := order + 1;
    }
  }

  lemma {:induction false} OrderIs(size: nat, j: nat)
    requires size < 4097 * Pow2(j) && (j > 0 ==> size >= 4097 * Pow2(j - 1))
    ensures Order(size) == j
  {
    if j > 0 {
      OrderIs(size / 2, j - 1);
    }
  }

  lemma OrderBetween(size: nat, k: nat)
    requires 4096 * Pow2(k) < size <= 4096 * Pow2(k + 1)
    ensures Order(size) == if size < 4097 * Pow2(k) then k else k + 1
  {
    OrderIs(size, if size < 4097 * Pow2(k) then k else k + 1);
  }

  lemma {:induction false} SomeOrder(size: nat) returns (k: nat)
    requires size > 4096
    ensures 4096 * Pow2(k) < size <= 4096 * Pow2(k + 1)
    decreases size
  {
    if size <= 8192 {
      k := 0;
      assert Pow2(1) == 2;
    } else {
      k := SomeOrder((size + 1) / 2);
      k := k + 1;
    }
  }

  /** The pages that kmalloc asks for hold `size` bytes. */
  predicate Enough(size: nat) {
    size <= PAGE_SIZE * Pow2(Order(AsInt(size)))
  }

  /** The size lies in the gap after a power of two of pages in which halving, which rounds down,
      stops one step too early. */
  ghost predicate InGap(size: nat) {
    exists k: nat :: 4096 * Pow2(k) < size < 4097 * Pow2(k)
  }

  /** kmalloc asks for enough pages just when the size fits an int and is not in a gap. */
  lemma OrderEnough(size: nat)
    requires size < 0x1_0000_0000_0000_0000
    ensures Enough(size) <==> size < 0x8000_0000 && !InGap(size)
  {
    if size >= 0x8000_0000 {
      TooLarge(size);
    } else if size > 4096 {
      var k := SomeOrder(size);
      OrderBetween(size, k);
      GapAt(size, k);
    } else {
      forall m: nat ensures !(4096 * Pow2(m) < size < 4097 * Pow2(m)) {
      }
    }
  }

  lemma GapAt(size: nat, k: nat)
    requires 4096 * Pow2(k) < size <= 4096 * Pow2(k + 1)
    ensures InGap(size) <==> size < 4097 * Pow2(k)
  {
    if InGap(size) {
      var m: nat :| 4096 * Pow2(m) < size < 4097 * Pow2(m);
      SameOrder(size, k, m);
    }
  }

  /** An int never calls for more than 2^19 pages. */
  lemma TooLarge(size: nat)
    requires size >= 0x8000_0000
    ensures !Enough(size)
  {
    assert Pow2(3) == 8;
    assert Pow2(6) == 64;
    assert Pow2(9) == 512;
    assert Pow2(12) == 4096;
    assert Pow2(15) == 32768;
    assert Pow2(18) == 0x4_0000;
    assert Pow2(19) == 0x8_0000;
    SmallOrder(AsInt(size), 19);
    Pow2Grows(Order(AsInt(size)), 19);
    if size == 0x8000_0000 {
      assert Order(AsInt(size)) == 0;
    }
  }

  lemma {:induction false} Pow2Grows(a: nat, b: nat)
    requires a <= b
    ensures Pow2(a) <= Pow2(b)
  {
    if a < b {
      Pow2Grows(a, b - 1);
    }
  }

  lemma SameOrder(size: nat, k: nat, m: nat)
    requires 4096 * Pow2(k) < size <= 4096 * Pow2(k + 1) && 4096 * Pow2(m) < size < 4097 * Pow2(m)
    ensures k == m
  {
    if k < m {
      Pow2Grows(k + 1, m);
    } else if m < k {
      Pow2Grows(m + 1, k);
    }
  }

  lemma {:induction false} SmallOrder(size: int, k: nat)
    requires size <= 4096 * Pow2(k)
    ensures Order(size) <= k
  {
    if size > 4096 && k > 0 {
      SmallOrder(size / 2, k - 1);
    }
  }

  /** A request for 8193 bytes gets two pages. */
  lemma GapExample()
    ensures Order(AsInt(8193)) == 1 && !Enough(8193)
  {
    assert Order(8193) == 1 + Order(4096);
  }

  // ----- kmalloc and kfree --------------------------------------------------------------------

  /** sizeof(bigblock_t). */
  const NODE := 24

  datatype Big = Big(order: nat, pages: int, node: int)

  /** The node of a big block is a block of two units in use. */
  ghost predicate NodeOk(live: map<int, int>, owned: set<int>, b: Big) {
    b.node in live && live[b.node] == 2 && b.node != 0 && b.pages != 0 && b.pages % PAGE_UNITS == 0 && b.pages !in owned
  }

  ghost predicate ListOk(live: map<int, int>, owned: set<int>, bs: seq<Big>) {
    && (forall i | 0 <= i < |bs| :: NodeOk(live, owned, bs[i]))
    && (forall i, j | 0 <= i < j < |bs| :: bs[i].node != bs[j].node && bs[i].pages != bs[j].pages)
  }

  class Kheap {
    const heap: Heap
    var bigs: seq<Big>

    ghost predicate Valid()
      reads this, heap
    {
      heap.Valid() && heap.Accounted() && 0 !in heap.owned && ListOk(heap.live, heap.owned, bigs)
    }

    constructor (a: int)
      requires a != 0
      ensures Valid() && fresh(heap) && bigs == [] && heap.arena == a && heap.live == map[]
    {
      heap := new Heap(a);
      bigs := [];
    }

    /** A page that may be given to the heap: nobody's so far. */
    ghost predicate FreshFor(page: int)
      reads this, heap
    {
      page > 0 && heap.FreshPage(page) && forall i | 0 <= i < |bigs| :: bigs[i].pages !in PageUnits(page)
    }

    /** __kmalloc.  `page` is what a call for one page to refill the heap returns, and `pages` what the
        call for the pages of the block does; 0 stands for NULL. */
    method Kmalloc(size: nat, page: int, pages: int) returns (ret: KmallocResult)
      requires Valid() && size < 0x1_0000_0000_0000_0000 && (size == 0 ==> heap.Askable(SLOB_UNIT))
      requires page != 0 ==> FreshFor(page)
      requires pages != 0 ==>
                 && pages % PAGE_UNITS == 0 && pages !in heap.owned && (page != 0 ==> pages !in PageUnits(page))
                 && forall i | 0 <= i < |bigs| :: bigs[i].pages != pages
      modifies this, heap
      ensures Valid()
      ensures ret.Panics? <==> PAGE_SIZE - 2 * SLOB_UNIT <= size < PAGE_SIZE - SLOB_UNIT
      ensures !ret.Got? ==> heap.live == old(heap.live) && bigs == old(bigs)
      ensures ret.Got? && size < PAGE_SIZE - SLOB_UNIT ==>
                && bigs == old(bigs) && ret.block - 1 !in old(heap.live)
                && heap.live == old(heap.live)[ret.block - 1 := Units(size) + 1]
      ensures ret.Got? && size >= PAGE_SIZE - SLOB_UNIT ==>
                && ret.block == pages != 0 && bigs != [] && bigs[1..] == old(bigs)
                && bigs[0].order == Order(AsInt(size)) && bigs[0].pages == pages
                && bigs[0].node !in old(heap.live) && heap.live == old(heap.live)[bigs[0].node := 2]
    {
      if size < PAGE_SIZE - SLOB_UNIT {
        ghost var live, owned := heap.live, heap.owned;
        SmallUnits(size);
        var refilled;
        ret, refilled := heap.Kmalloc(size, page);
        ListStays(live, owned, heap.live, heap.owned, bigs, page, refilled);
      } else {
        ret := KmallocBig(size, page, pages);
      }
    }

    /** The part of __kmalloc for whole pages. */
    method KmallocBig(size: nat, page: int, pages: int) returns (ret: KmallocResult)
      requires Valid() && (page != 0 ==> FreshFor(page))
      requires pages != 0 ==>
                 && pages % PAGE_UNITS == 0 && pages !in heap.owned && (page != 0 ==> pages !in PageUnits(page))
                 && forall i | 0 <= i < |bigs| :: bigs[i].pages != pages
      modifies this, heap
      ensures Valid() && !ret.Panics?
      ensures ret.Nothing? ==> heap.live == old(heap.live) && bigs == old(bigs)
      ensures ret.Got? ==>
                && ret.block == pages != 0 && bigs != [] && bigs[1..] == old(bigs)
                && bigs[0].order == Order(AsInt(size)) && bigs[0].pages == pages
                && bigs[0].node !in old(heap.live) && heap.live == old(heap.live)[bigs[0].node := 2]
    {
      ghost var live, owned := heap.live, heap.owned;
      var ok, bb, refilled := heap.AllocBooked(NODE, page);
      ListStays(live, owned, heap.live, heap.owned, bigs, page, refilled);
      if !ok {
        return Nothing;
      }
      LiveIsOwned(heap.units, heap.blocks, heap.live, heap.owned, heap.arena, bb);
      var order := FindOrder(AsInt(size));
      if pages != 0 {
        NewNode(live, heap.live, heap.owned, bigs, Big(order, pages, bb));
        bigs := [Big(order, pages, bb)] + bigs;
        return Got(pages);
      }
      ghost var live1 := heap.live;
      heap.FreeBooked(bb, NODE);
      assert live1 - {bb} == live;
      return Nothing;
    }

    /** kfree.  A big block is told by its address; `freed` is the order of the pages given back. */
    method Kfree(block: int) returns (freed: Option<nat>)
      requires Valid()
      requires block == 0 || IsBig(bigs, block)
               || (block - 1 in heap.live && forall i | 0 <= i < |bigs| :: bigs[i].node != block - 1)
      modifies this, heap
      ensures Valid()
      ensures block == 0 ==> freed.None? && bigs == old(bigs) && heap.live == old(heap.live)
      ensures block != 0 && !IsBig(old(bigs), block) ==>
                freed.None? && bigs == old(bigs) && heap.live == old(heap.live) - {block - 1}
      ensures IsBig(old(bigs), block) ==>
                exists i: nat | i < |old(bigs)| && old(bigs)[i].pages == block ::
                  && freed == Some(old(bigs)[i].order) && bigs == old(bigs)[..i] + old(bigs)[i + 1..]
                  && heap.live == old(heap.live) - {old(bigs)[i].node}
    {
      if block == 0 {
        return None;
      }
      if block % PAGE_UNITS == 0 {
        var i := 0;
        while i < |bigs|
          invariant 0 <= i <= |bigs| && forall j | 0 <= j < i :: bigs[j].pages != block
        {
          if bigs[i].pages == block {
            freed := FreeBig(i);
            return;
          }
          i := i + 1;
        }
      }
      LiveIsOwned(heap.units, heap.blocks, heap.live, heap.owned, heap.arena, block - 1);
      ghost var live := heap.live;
      heap.Kfree(block);
      ListLess(live, heap.owned, bigs, block - 1);
      return None;
    }

    /** The block at `i` is taken off the list, and its pages and its node freed. */
    method FreeBig(i: nat) returns (freed: Option<nat>)
      requires Valid() && i < |bigs|
      modifies this, heap
      ensures Valid() && freed == Some(old(bigs)[i].order) && bigs == old(bigs)[..i] + old(bigs)[i + 1..]
      ensures heap.live == old(heap.live) - {old(bigs)[i].node}
    {
      ghost var live := heap.live;
      var bb := bigs[i];
      bigs := bigs[..i] + bigs[i + 1..];
      ListWithout(live, heap.owned, old(bigs), i, bigs);
      heap.FreeBooked(bb.node, NODE);
      ListLess(live, heap.owned, bigs, bb.node);
      return Some(bb.order);
    }
  }

  ghost predicate IsBig(bs: seq<Big>, block: int) {
    exists i: nat | i < |bs| :: bs[i].pages == block
  }

  // ----- the list and the account -------------------------------------------------------------

  lemma SmallUnits(size: nat)
    ensures size > 0 ==> Units(size + SLOB_UNIT) >= 2
  {
  }

  lemma LiveIsOwned(units: map<int, int>, bs: seq<Block>, live: map<int, int>, owned: set<int>, arena: int, a: int)
    requires Account(units, bs, live, owned, arena) && a in live
    ensures a in owned && live[a] > 0
  {
    assert LiveBlock(units, bs, live, arena, a);
    assert In(Block(a, live[a]), a);
    assert InUse(live, a);
  }

  /** A block that was asked for with a size other than 0 is not taken for a big one; */
  lemma SmallIsNotBig(units: map<int, int>, bs: seq<Block>, live: map<int, int>, owned: set<int>, arena: int,
          bigs: seq<Big>, block: int)
    requires Account(units, bs, live, owned, arena) && ListOk(live, owned, bigs) && block - 1 in live
    ensures IsBig(bigs, block) ==> live[block - 1] == 1 && block !in owned
  {
    if live[block - 1] != 1 {
      assert LiveBlock(units, bs, live, arena, block - 1) && In(Block(block - 1, live[block - 1]), block);
      assert InUse(live, block);
    }
  }

  /** one of size 0 at the end of a page of the heap is, if the next page is a big block. */
  lemma ZeroTakenForBig(bs: seq<Block>, live: map<int, int>, bigs: seq<Big>)
    requires bs == [Block(1, 1), Block(258, 253)] && live == map[256 := 2, 511 := Units(0) + 1]
    requires bigs == [Big(1, 512, 256)]
    ensures Account(map[1 := 1, 258 := 253, 256 := 2, 511 := 1], bs, live, {1} + PageUnits(256), 1)
    ensures ListOk(live, {1} + PageUnits(256), bigs) && IsBig(bigs, 512)
  {
    assert Units(0) == 0;
    assert bigs[0].pages == 512;
    forall x ensures x in {1} + PageUnits(256) <==> Covers(bs, x) || InUse(live, x) {
      assert In(bs[0], x) <==> x == 1;
      assert In(bs[1], x) <==> 258 <= x < 511;
      assert In(Block(256, live[256]), x) <==> 256 <= x < 258;
      assert In(Block(511, live[511]), x) <==> x == 511;
    }
    assert Outside(bs, Block(256, 2)) && Outside(bs, Block(511, 1));
  }

  /** The list stays well formed when blocks and a page come in, */
  lemma ListStays(live: map<int, int>, owned: set<int>, live': map<int, int>, owned': set<int>, bs: seq<Big>,
          page: int, refilled: bool)
    requires ListOk(live, owned, bs) && 0 !in owned && owned' == owned + if refilled then PageUnits(page) else {}
    requires refilled ==> page > 0 && forall i | 0 <= i < |bs| :: bs[i].pages !in PageUnits(page)
    requires forall a | a in live :: a in live' && live'[a] == live[a]
    ensures ListOk(live', owned', bs) && 0 !in owned'
  {
    forall i | 0 <= i < |bs| ensures NodeOk(live', owned', bs[i]) {
      assert NodeOk(live, owned, bs[i]);
    }
  }

  /** when a node is added, */
  lemma NewNode(live: map<int, int>, live': map<int, int>, owned: set<int>, bs: seq<Big>, b: Big)
    requires ListOk(live', owned, bs) && NodeOk(live', owned, b) && b.node !in live
    requires forall i | 0 <= i < |bs| :: bs[i].pages != b.pages && bs[i].node in live
    ensures ListOk(live', owned, [b] + bs)
  {
  }

  /** when a node is taken off, */
  lemma ListWithout(live: map<int, int>, owned: set<int>, bs: seq<Big>, i: nat, cs: seq<Big>)
    requires ListOk(live, owned, bs) && i < |bs| && cs == bs[..i] + bs[i + 1..]
    ensures ListOk(live, owned, cs) && forall j | 0 <= j < |cs| :: cs[j].node != bs[i].node
  {
    forall j | 0 <= j < |cs| ensures NodeOk(live, owned, cs[j]) && cs[j].node != bs[i].node {
      assert cs[j] == bs[if j < i then j else j + 1];
    }
  }

  /** and when a block that is no node is freed. */
  lemma ListLess(live: map<int, int>, owned: set<int>, bs: seq<Big>, a: int)
    requires ListOk(live, owned, bs) && forall i | 0 <= i < |bs| :: bs[i].node != a
    ensures ListOk(live - {a}, owned, bs)
  {
    forall i | 0 <= i < |bs| ensures NodeOk(live - {a}, owned, bs[i]) {
      assert NodeOk(live, owned, bs[i]);
    }
  }
}
