/**
 The SLOB heap of kern/mm/kmalloc.c: a circular, address-ordered list of free blocks with
 K&R coalescing.  Addresses are counted in units of sizeof(slob_t) = 16 bytes.
 */
module Slob {
  import opened FreeBlocks

  const SLOB_UNIT := 16
  const PAGE_SIZE := 4096
  const PAGE_UNITS := PAGE_SIZE / SLOB_UNIT

  function Units(size: nat): nat {
    (size + SLOB_UNIT - 1) / SLOB_UNIT
  }

  // ----- the list in memory -------------------------------------------------------------------

  /** Headers in memory spell the list, and the last block points back at the first. */
  ghost predicate Linked(units: map<int, int>, next: map<int, int>, bs: seq<Block>) {
    forall i: nat | i < |bs| :: Link(units, next, bs, i)
  }

  ghost predicate Link(units: map<int, int>, next: map<int, int>, bs: seq<Block>, i: nat)
    requires i < |bs|
  {
    && bs[i].addr in units && units[bs[i].addr] == bs[i].units
    && bs[i].addr in next && next[bs[i].addr] == bs[Succ(i, |bs|)].addr
  }

  /** The header of a block that stays when `d` comes in at position `lo`. */
  ghost predicate Reheaded(bs: seq<Block>, lo: nat, d: Block, units: map<int, int>, next: map<int, int>, i: nat)
    requires i < |bs|
  {
    && bs[i].addr in units && units[bs[i].addr] == bs[i].units && bs[i].addr in next
    && next[bs[i].addr] == if i == (if lo > 0 then lo - 1 else |bs| - 1) then d.addr else bs[Succ(i, |bs|)].addr
  }

  /** One block takes the place of the blocks from `lo` to `hi`: only its own header and the
      link of the block before it may change. */
  lemma Relink(bs: seq<Block>, lo: nat, d: Block, hi: nat, units: map<int, int>, next: map<int, int>)
    requires lo <= hi <= |bs| && bs != [] && (hi - lo == |bs| ==> d.addr == bs[0].addr)
    requires forall i: nat | i < |bs| && (i < lo || i >= hi) :: Reheaded(bs, lo, d, units, next, i)
    requires d.addr in units && units[d.addr] == d.units
    requires d.addr in next && next[d.addr] == if hi < |bs| then bs[hi].addr else bs[0].addr
    ensures Linked(units, next, bs[..lo] + [d] + bs[hi..])
  {
    var js := bs[..lo] + [d] + bs[hi..];
    forall m: nat | m < |js| ensures Link(units, next, js, m) {
      if m != lo {
        var i := if m < lo then m else m - lo - 1 + hi;
        assert js[m] == bs[i] && Reheaded(bs, lo, d, units, next, i);
      }
    }
  }

  /** The header of a block that stays when the block at `j` goes. */
  ghost predicate Bypassed(bs: seq<Block>, j: nat, units: map<int, int>, next: map<int, int>, i: nat)
    requires i < |bs| && j < |bs|
  {
    && bs[i].addr in units && units[bs[i].addr] == bs[i].units && bs[i].addr in next
    && next[bs[i].addr] == if Succ(i, |bs|) == j then bs[Succ(j, |bs|)].addr else bs[Succ(i, |bs|)].addr
  }

  lemma Unlink(bs: seq<Block>, j: nat, units: map<int, int>, next: map<int, int>)
    requires j < |bs| && |bs| > 1
    requires forall i: nat | i < |bs| && i != j :: Bypassed(bs, j, units, next, i)
    ensures Linked(units, next, bs[..j] + bs[j + 1..])
  {
    var js := bs[..j] + bs[j + 1..];
    forall m: nat | m < |js| ensures Link(units, next, js, m) {
      var i := if m < j then m else m + 1;
      assert js[m] == bs[i] && Bypassed(bs, j, units, next, i);
    }
  }

  // ----- the search of slob_free --------------------------------------------------------------

  /** The block after which a block at `b` belongs. */
  function Gap(bs: seq<Block>, b: int): int {
    if Below(bs, b) == 0 then |bs| - 1 else Below(bs, b) - 1
  }

  /** The loop of slob_free stops at `cur`. */
  predicate Stops(cur: int, next: int, b: int) {
    (b > cur && b < next) || (cur >= next && (b > cur || b < next))
  }

  /** It stops at that block and at no other, so it ends from wherever it starts. */
  lemma StopsAtGap(bs: seq<Block>, b: int, i: nat)
    requires Apart(bs) && i < |bs| && forall k | 0 <= k < |bs| :: bs[k].addr != b
    ensures Stops(bs[i].addr, bs[Succ(i, |bs|)].addr, b) <==> i == Gap(bs, b)
  {
    BelowSplits(bs, b);
  }

  function Steps(i: int, g: int, n: nat): int {
    if i <= g then g - i else g - i + n
  }

  class Heap {
    var units: map<int, int>
    var next: map<int, int>
    var slobfree: int
    const arena: int
    ghost var blocks: seq<Block>
    ghost var live: map<int, int>   // blocks handed out by kmalloc and not yet freed, with their units
    ghost var owned: set<int>       // all units ever obtained: pages, and arena

    /** The free list is well formed, and `arena` is still on it. */
    ghost predicate Valid()
      reads `units, `next, `slobfree, `blocks
    {
      && Apart(blocks) && Linked(units, next, blocks)
      && OnList(blocks, slobfree)
      && Block(arena, 1) in blocks
    }

    /** Every unit is free or in exactly one block that is in use, and the header of each such
        block still tells its size. */
    ghost predicate Accounted()
      reads `units, `blocks, `live, `owned
    {
      Account(units, blocks, live, owned, arena)
    }

    constructor (a: int)
      ensures Valid() && Accounted() && arena == a && blocks == [Block(a, 1)] && live == map[] && owned == {a}
    {
      arena, slobfree := a, a;
      units, next := map[a := 1], map[a := a];
      blocks, live, owned := [Block(a, 1)], map[], {a};
      new;
      assert blocks[0].addr == slobfree;
      assert In(blocks[0], a);
    }

    /** The reinsertion search of slob_free. */
    method FindGap(b: int) returns (cur: int)
      requires Valid() && forall k | 0 <= k < |blocks| :: blocks[k].addr != b
      ensures cur == blocks[Gap(blocks, b)].addr
    {
      cur := slobfree;
      ghost var n := |blocks|;
      ghost var i: nat :| i < n && blocks[i].addr == slobfree;
      assert Link(units, next, blocks, i);
      while !(b > cur && b < next[cur])
        invariant i < n && cur == blocks[i].addr && Link(units, next, blocks, i)
        decreases Steps(i, Gap(blocks, b), n)
      {
        StopsAtGap(blocks, b, i);
        if cur >= next[cur] && (b > cur || b < next[cur]) {
          break;
        }
        cur := next[cur];
        i := Succ(i, n);
        assert Link(units, next, blocks, i);
      }
      StopsAtGap(blocks, b, i);
    }
  
    /** The first test of slob_free: does the block touch the one after it? */
    method JoinUp(b: int, n: int, cur: int)
      requires Apart(blocks) && blocks != [] && Fits(blocks, Block(b, n)) && Linked(units, next, blocks)
      requires b in units && units[b] == n && 0 <= Gap(blocks, b) < |blocks| && cur == blocks[Gap(blocks, b)].addr
      modifies `units, `next
      ensures WrittenUp(old(units), old(next), blocks, Block(b, n), units, next)
    {
      ghost var g, h := Gap(blocks, b), Succ(Gap(blocks, b), |blocks|);
      Neighbours(blocks, Block(b, n));
      assert Link(units, next, blocks, g) && Link(units, next, blocks, h);
      if b + units[b] == next[cur] {
        units, next := units[b := units[b] + units[next[cur]]], next[b := next[next[cur]]];
      } else {
        next := next[b := next[cur]];
      }
    }

    /** Both tests of slob_free, once the place is found. */
    method Splice(b: int, n: int, cur: int)
      requires Apart(blocks) && blocks != [] && Fits(blocks, Block(b, n)) && Linked(units, next, blocks)
      requires b in units && units[b] == n && 0 <= Gap(blocks, b) < |blocks| && cur == blocks[Gap(blocks, b)].addr
      modifies `units, `next
      ensures Written(old(units), old(next), blocks, Block(b, n), units, next)
    {
      Neighbours(blocks, Block(b, n));
      NotAStart(blocks, Block(b, n));
      assert Link(units, next, blocks, Gap(blocks, b));
      JoinUp(b, n, cur);
      if cur + units[cur] == b {
        units, next := units[cur := units[cur] + units[b]], next[cur := next[b]];
      } else {
        next := next[cur := b];
      }
    }

    /** slob_free from the point where the block's size is known. */
    method Insert(b: int, n: int)
      requires Valid() && b in units && units[b] == n > 0
      requires Outside(blocks, Block(b, n)) && b + n != arena && arena + 1 != b
      modifies `units, `next, `slobfree, `blocks
      ensures Valid()
      ensures blocks == Joined(old(blocks), Below(old(blocks), b), Block(b, n))
      ensures Frame(old(units), units, blocks)
    {
      ghost var bs, x := blocks, Block(b, n);
      OutsideFits(bs, x);
      NotAStart(bs, x);
      var cur := FindGap(b);
      Splice(b, n, cur);
      slobfree := cur;
      blocks := Joined(bs, Below(bs, b), x);
      JoinedApart(bs, x);
      ArenaAlone(bs, x, arena);
      InsertLinked(old(units), old(next), bs, x, units, next);
      GapOnList(bs, x);
      InsertFrame(old(units), old(next), bs, x, units, next);
    }
  
    /** slob_free. */
    method Free(block: int, size: nat)
      requires Valid()
      requires block != 0 && size == 0 ==> block in units
      requires block != 0 ==>
                 var n := if size != 0 then Units(size) else units[block];
                 && n > 0 && Outside(blocks, Block(block, n)) && block + n != arena && arena + 1 != block
      modifies `units, `next, `slobfree, `blocks
      ensures Valid()
      ensures block == 0 ==> blocks == old(blocks) && units == old(units)
      ensures block != 0 ==>
                var x := Block(block, if size != 0 then Units(size) else old(units)[block]);
                && blocks == Joined(old(blocks), Below(old(blocks), block), x)
                && Frame(old(units), units, blocks)
    {
      if block == 0 {
        return;
      }
      ghost var x := Block(block, if size != 0 then Units(size) else units[block]);
      JoinedCovers(blocks, Below(blocks, block), x, block);
      OutsideFits(blocks, x);
      NotAStart(blocks, x);
      if size != 0 {
        units := units[block := Units(size)];
        SameLinks(old(units), next, blocks, block, Units(size));
      }
      Insert(block, units[block]);
    }

    /** The end of slob_alloc: `n` units come off the front of `cur`, which follows `prev`. */
    method Take(prev: int, cur: int, n: int, ghost j: nat)
      requires Apart(blocks) && Linked(units, next, blocks) && |blocks| > 1
      requires j < |blocks| && cur == blocks[j].addr && 0 < n <= blocks[j].units
      requires prev == blocks[Pred(j, |blocks|)].addr
      modifies `units, `next, `slobfree, `blocks
      ensures blocks == Taken(old(blocks), j, n) && Linked(units, next, blocks) && slobfree == prev
      ensures cur in units && units[cur] == n
      ensures Frame(old(units), units, old(blocks))
    {
      ghost var bs := blocks;
      assert Link(units, next, bs, j) && Link(units, next, bs, Pred(j, |bs|));
      if units[cur] == n {
        next := next[prev := next[cur]];
        TakeWhole(units, old(next), bs, j);
      } else {
        next := next[prev := cur + n][cur + n := next[cur]];
        units := units[cur + n := units[cur] - n][cur := n];
        TakeFront(old(units), old(next), bs, j, n);
      }
      slobfree := prev;
      blocks := Taken(bs, j, n);
      assert In(bs[j], cur) && (bs[j].units > n ==> In(bs[j], cur + n));
    }
  
    /** The part of slob_alloc that hands out `n` units of a block that is large enough. */
    method HandOut(prev: int, cur: int, n: int, ghost j: nat)
      requires Valid() && j < |blocks| && cur == blocks[j].addr && 1 <= n <= blocks[j].units && cur != arena
      requires prev == blocks[Pred(j, |blocks|)].addr
      modifies `units, `next, `slobfree, `blocks
      ensures Valid() && TookFrom(old(blocks), j, cur, n, blocks)
      ensures cur in units && units[cur] == n && Frame(old(units), units, old(blocks))
    {
      ghost var bs := blocks;
      ArenaStays(bs, j, n, arena);
      Take(prev, cur, n, j);
      TakenApart(bs, j, n);
      PredStays(bs, j, n);
    }

    /** The part of slob_alloc that frees a fresh page into the list. */
    method Refill(page: int)
      requires Valid() && page != 0 && Outside(blocks, Block(page, PAGE_UNITS))
      requires page + PAGE_UNITS != arena && arena + 1 != page
      modifies `units, `next, `slobfree, `blocks
      ensures Valid() && blocks == WithPage(old(blocks), page) && Frame(old(units), units, blocks)
      ensures exists b <- blocks :: b.units >= PAGE_UNITS
    {
      assert Units(PAGE_SIZE) == PAGE_UNITS;
      PageIsThere(blocks, page);
      Free(page, PAGE_SIZE);
    }

    /** The search of slob_alloc stands at `cur`, `t` steps after the first block it looked at. */
    ghost predicate Searching(k: nat, t: nat, prev: int, cur: int, n: int)
      reads `slobfree, `blocks
    {
      && k < |blocks| && blocks[k].addr == slobfree
      && t < |blocks| && cur == blocks[Turn(k, t, |blocks|)].addr
      && prev == blocks[Pred(Turn(k, t, |blocks|), |blocks|)].addr
      && forall s: nat | s < t :: Visited(blocks, k, s, n)
    }

    /** The start of a search: `cur = prev->next` with prev == slobfree. */
    lemma StartSearch(k: nat, n: int)
      requires Valid() && k < |blocks| && blocks[k].addr == slobfree
      ensures slobfree in next && Searching(k, 0, slobfree, next[slobfree], n)
    {
      assert Link(units, next, blocks, k);
    }

    /** Before the refill nothing has changed; after it there is a block that is large enough. */
    ghost predicate Phase(bs: seq<Block>, us: map<int, int>, start: int, page: int, n: int, refilled: bool)
      reads `units, `slobfree, `blocks
    {
      if refilled then
        && page != 0 && blocks == WithPage(bs, page) && Frame(us, units, blocks)
        && (exists b <- blocks :: b.units >= n) && (forall b <- bs :: b.units < n)
      else
        blocks == bs && units == us && slobfree == start
    }

    lemma LookAt(k: nat, t: nat, prev: int, cur: int, n: int)
      requires Valid() && Searching(k, t, prev, cur, n)
      ensures cur in units && units[cur] == blocks[Turn(k, t, |blocks|)].units
      ensures units[cur] < n ==> Visited(blocks, k, t, n)
      ensures units[cur] >= n ==> FirstFitAt(blocks, k, t, cur, n)
      ensures units[cur] >= 1 && (units[cur] >= 2 ==> cur != arena)
    {
      assert Link(units, next, blocks, Turn(k, t, |blocks|));
      NotArena(blocks, Turn(k, t, |blocks|), arena);
    }

    /** One step of the search past a block that is too small. */
    lemma NextSearch(k: nat, t: nat, prev: int, cur: int, n: int)
      requires Valid() && Searching(k, t, prev, cur, n) && Visited(blocks, k, t, n) && cur != slobfree
      ensures cur in next && Searching(k, t + 1, cur, next[cur], n)
    {
      assert Link(units, next, blocks, Turn(k, t, |blocks|));
    }

    /** The loop of slob_alloc, up to the block it settles on.  It asks for a page at most once. */
    method FindFit(n: int, page: int) returns (ok: bool, prev: int, cur: int, refilled: bool, ghost k: nat,
            ghost t: nat)
      requires Valid() && 1 <= n <= PAGE_UNITS && (n == 1 ==> slobfree in next && next[slobfree] != arena)
      requires page != 0 ==>
                 && Outside(blocks, Block(page, PAGE_UNITS))
                 && page + PAGE_UNITS != arena && arena + 1 != page
      modifies `units, `next, `slobfree, `blocks
      ensures Valid() && Phase(old(blocks), old(units), old(slobfree), page, n, refilled)
      ensures ok ==> Searching(k, t, prev, cur, n) && blocks[Turn(k, t, |blocks|)].units >= n && cur != arena
      ensures !ok ==> !refilled && page == 0 && forall b <- blocks :: b.units < n
    {
      refilled := false;
      k :| k < |blocks| && blocks[k].addr == slobfree;
      t := 0;
      StartSearch(k, n);
      prev := slobfree;
      cur := next[prev];
      while true
        invariant Valid() && Searching(k, t, prev, cur, n) && (n == 1 ==> cur != arena)
        invariant Phase(old(blocks), old(units), old(slobfree), page, n, refilled)
        decreases !refilled, |blocks| - t
      {
        LookAt(k, t, prev, cur, n);
        if units[cur] >= n {
          return true, prev, cur, refilled, k, t;
        }
        if cur == slobfree {
          AllVisited(blocks, k, t, n);
          if page == 0 {
            return false, 0, 0, false, k, t;
          }
          Refill(page);
          refilled := true;
          k :| k < |blocks| && blocks[k].addr == slobfree;
          t := 0;
          cur := slobfree;
          StartSearch(k, n);
        } else {
          NextSearch(k, t, prev, cur, n);
          t := t + 1;
        }
        prev, cur := cur, next[cur];
      }
    }

    /** One unit can be had without harm unless the next block to be looked at is `arena`. */
    predicate Askable(size: nat)
      reads `next, `slobfree
    {
      Units(size) >= 2 || (Units(size) == 1 && slobfree in next && next[slobfree] != arena)
    }

    /** Otherwise it is `arena` that is handed out, and the list is without it. */
    lemma ArenaTaken(j: nat)
      requires Valid() && slobfree in next && next[slobfree] == arena && j < |blocks| && blocks[j].addr == arena
      ensures FirstFit(blocks, slobfree, arena, 1) && Block(arena, 1) !in Taken(blocks, j, 1)
    {
      ServedFirst();
      NotArena(blocks, j, arena);
      GoneWithout(blocks, j);
    }

    /** A request for one unit is met by the first block that is looked at. */
    lemma ServedFirst()
      requires Valid() && slobfree in next
      ensures FirstFit(blocks, slobfree, next[slobfree], 1)
    {
      var k: nat :| k < |blocks| && blocks[k].addr == slobfree;
      StartSearch(k, 1);
      NotArena(blocks, Turn(k, 0, |blocks|), arena);
      assert FirstFitAt(blocks, k, 0, next[slobfree], 1);
    }

    /** slob_alloc with align 0.  `page` is what __slob_get_free_page returns if it is called
        (0 for NULL); `refilled` tells whether it was. */
    method Alloc(size: nat, page: int) returns (ok: bool, r: int, refilled: bool)
      requires Valid() && size + SLOB_UNIT < PAGE_SIZE && Askable(size)
      requires page != 0 ==>
                 && Outside(blocks, Block(page, PAGE_UNITS))
                 && page + PAGE_UNITS != arena && arena + 1 != page
      modifies `units, `next, `slobfree, `blocks
      ensures Valid()
      ensures !ok ==> !refilled && page == 0 && blocks == old(blocks) && units == old(units)
      ensures refilled ==> page != 0
      ensures !ok || refilled ==> forall b <- old(blocks) :: b.units < Units(size)
      ensures ok && !refilled ==> FirstFit(old(blocks), old(slobfree), r, Units(size))
      ensures ok ==>
                && Took(Base(old(blocks), page, refilled), r, Units(size), blocks)
                && r in units && units[r] == Units(size) && r != arena
                && Frame(old(units), units, Base(old(blocks), page, refilled))
    {
      var n := Units(size);
      var prev, cur;
      ghost var k, t;
      ok, prev, cur, refilled, k, t := FindFit(n, page);
      r := cur;
      if ok {
        LookAt(k, t, prev, cur, n);
        HandOut(prev, cur, n, Turn(k, t, |blocks|));
      }
    }
  
    /** A page from alloc_pages: none of its units is owned yet, and it does not touch `arena`. */
    ghost predicate FreshPage(page: int)
      reads `owned
    {
      PageUnits(page) !! owned && page + PAGE_UNITS != arena && arena + 1 != page
    }

    /** Enters what Alloc has handed out. */
    ghost method Book(us: map<int, int>, bs: seq<Block>, page: int, refilled: bool, r: int, n: int)
      requires Apart(bs) && Account(us, bs, live, owned, arena) && Block(arena, 1) in bs && n >= 1 && r != arena
      requires refilled ==> FreshPage(page)
      requires Took(Base(bs, page, refilled), r, n, blocks) && Frame(us, units, Base(bs, page, refilled))
      requires r in units && units[r] == n
      modifies `live, `owned
      ensures Accounted() && r !in old(live) && live == old(live)[r := n]
      ensures owned == old(owned) + if refilled then PageUnits(page) else {}
    {
      AllocAccounted(us, bs, live, owned, arena, page, refilled, units, blocks, r, n);
      owned := owned + if refilled then PageUnits(page) else {};
      live := live[r := n];
    }

    /** Alloc for a page that is on nobody's account. */
    method AllocFresh(size: nat, page: int) returns (ok: bool, r: int, refilled: bool)
      requires Valid() && Accounted() && size + SLOB_UNIT < PAGE_SIZE && Askable(size)
      requires page != 0 ==> FreshPage(page)
      modifies `units, `next, `slobfree, `blocks
      ensures Valid() && (refilled ==> page != 0 && ok)
      ensures !ok ==> page == 0 && units == old(units) && blocks == old(blocks)
      ensures ok ==>
                && Took(Base(old(blocks), page, refilled), r, Units(size), blocks)
                && r in units && units[r] == Units(size) && r != arena
                && Frame(old(units), units, Base(old(blocks), page, refilled))
    {
      if page != 0 {
        PageOutside(units, blocks, live, owned, arena, page);
      }
      ok, r, refilled := Alloc(size, page);
    }

    /** slob_alloc, with what it hands out entered in the account. */
    method AllocBooked(size: nat, page: int) returns (ok: bool, r: int, refilled: bool)
      requires Valid() && Accounted() && size + SLOB_UNIT < PAGE_SIZE && Askable(size)
      requires page != 0 ==> FreshPage(page)
      modifies `units, `next, `slobfree, `blocks, `live, `owned
      ensures Valid() && Accounted()
      ensures (refilled ==> page != 0) && (!ok ==> live == old(live) && !refilled && page == 0)
      ensures ok ==> r !in old(live) && live == old(live)[r := Units(size)]
      ensures owned == old(owned) + if refilled then PageUnits(page) else {}
    {
      ghost var us, bs := units, blocks;
      ok, r, refilled := AllocFresh(size, page);
      if ok {
        Book(us, bs, page, refilled, r, Units(size));
      }
    }

    /** __kmalloc below a page: a block with a header in front.  `page` as for Alloc.  Sizes that pass
        the test of __kmalloc and not the assert of slob_alloc end in a panic. */
    method Kmalloc(size: nat, page: int) returns (ret: KmallocResult, refilled: bool)
      requires Valid() && Accounted() && size < PAGE_SIZE - SLOB_UNIT && Askable(size + SLOB_UNIT)
      requires page != 0 ==> FreshPage(page)
      modifies `units, `next, `slobfree, `blocks, `live, `owned
      ensures Valid() && Accounted()
      ensures ret.Panics? <==> size >= PAGE_SIZE - 2 * SLOB_UNIT
      ensures (refilled ==> page != 0) && (!ret.Got? ==> live == old(live) && !refilled && (ret.Nothing? ==> page == 0))
      ensures ret.Got? ==> ret.block - 1 !in old(live) && live == old(live)[ret.block - 1 := Units(size) + 1]
      ensures owned == old(owned) + if refilled then PageUnits(page) else {}
    {
      OneMore(size);
      if size + SLOB_UNIT + SLOB_UNIT >= PAGE_SIZE {
        return Panics, false;
      }
      var ok, m;
      ok, m, refilled := AllocBooked(size + SLOB_UNIT, page);
      ret := if ok then Got(m + 1) else Nothing;
    }

    /** kfree of a block below a page, or of NULL. */
    method Kfree(block: int)
      requires Valid() && Accounted() && (block != 0 ==> block - 1 in live && block - 1 != 0)
      modifies `units, `next, `slobfree, `blocks, `live
      ensures Valid() && Accounted() && owned == old(owned)
      ensures live == if block == 0 then old(live) else old(live) - {block - 1}
    {
      if block == 0 {
        return;
      }
      FreeBooked(block - 1, 0);
    }

    /** slob_free of a block in use, by its header or by the size that it was asked for with. */
    method FreeBooked(a: int, size: nat)
      requires Valid() && Accounted() && a in live && a != 0 && (size != 0 ==> Units(size) == live[a])
      modifies `units, `next, `slobfree, `blocks, `live
      ensures Valid() && Accounted() && live == old(live) - {a} && owned == old(owned)
    {
      ghost var x := Block(a, live[a]);
      assert LiveBlock(units, blocks, live, arena, a);
      Free(a, size);
      FreeAccounted(old(units), units, old(blocks), x, live, owned, arena);
      live := live - {a};
    }
  }

  datatype KmallocResult = Got(block: int) | Nothing | Panics

  /** The header takes one unit. */
  lemma OneMore(size: nat)
    ensures Units(size + SLOB_UNIT) == Units(size) + 1
    ensures size > 0 ==> Units(size) >= 1
  {
  }

  ghost function PageUnits(page: int): set<int> {
    set x | page <= x < page + PAGE_UNITS && In(Block(page, PAGE_UNITS), x)
  }

  lemma PageOutside(units: map<int, int>, bs: seq<Block>, live: map<int, int>, owned: set<int>,
          arena: int, page: int)
    requires Account(units, bs, live, owned, arena) && PageUnits(page) !! owned
    ensures Outside(bs, Block(page, PAGE_UNITS))
  {
    forall a | In(Block(page, PAGE_UNITS), a) ensures !Covers(bs, a) {
      assert a in PageUnits(page);
    }
  }

  /** A refill keeps the account, with the page on it. */
  lemma PageAccounted(units: map<int, int>, bs: seq<Block>, live: map<int, int>, owned: set<int>,
          arena: int, page: int)
    requires Apart(bs) && Account(units, bs, live, owned, arena) && PageUnits(page) !! owned
    ensures Account(units, WithPage(bs, page), live, owned + PageUnits(page), arena)
  {
    var k, x, bs' := Below(bs, page), Block(page, PAGE_UNITS), WithPage(bs, page);
    forall a <- live ensures LiveBlock(units, bs', live, arena, a) {
      assert LiveBlock(units, bs, live, arena, a);
      forall y | In(Block(a, live[a]), y) ensures !Covers(bs', y) {
        JoinedCovers(bs, k, x, y);
        assert InUse(live, y);
        assert y !in PageUnits(page);
      }
    }
    forall y ensures y in owned + PageUnits(page) <==> Covers(bs', y) || InUse(live, y) {
      JoinedCovers(bs, k, x, y);
      assert y in PageUnits(page) <==> In(x, y);
    }
  }

  /** An allocated block overlaps nothing that is in use, and does not touch `arena`. */
  lemma NewBlock(units: map<int, int>, bs: seq<Block>, live: map<int, int>, owned: set<int>,
          arena: int, j: nat, n: int)
    requires Apart(bs) && Account(units, bs, live, owned, arena) && Block(arena, 1) in bs
    requires j < |bs| && 1 <= n <= bs[j].units && bs[j].addr != arena
    ensures var r := bs[j].addr;
            && r !in live && (forall a <- live :: (a < r ==> a + live[a] <= r) && (r < a ==> r + n <= a))
            && r + n != arena && arena + 1 != r
            && Outside(Taken(bs, j, n), Block(r, n))
  {
    var r := bs[j].addr;
    assert In(bs[j], r);
    forall a <- live ensures a != r && (a < r ==> a + live[a] <= r) && (r < a ==> r + n <= a) {
      assert LiveBlock(units, bs, live, arena, a);
      assert !In(Block(a, live[a]), r);
      assert In(Block(a, live[a]), a) && !In(bs[j], a);
    }
    forall y | In(Block(r, n), y) ensures !Covers(Taken(bs, j, n), y) {
      TakenCovers(bs, j, n, y);
    }
    var i :| 0 <= i < |bs| && bs[i] == Block(arena, 1);
  }

  /** Allocation keeps the account. */
  lemma TakeAccounted(units: map<int, int>, units': map<int, int>, bs: seq<Block>, j: nat, n: int,
          live: map<int, int>, owned: set<int>, arena: int)
    requires Apart(bs) && Account(units, bs, live, owned, arena) && Block(arena, 1) in bs
    requires j < |bs| && 1 <= n <= bs[j].units && bs[j].addr != arena && Frame(units, units', bs)
    requires bs[j].addr in units' && units'[bs[j].addr] == n
    ensures bs[j].addr !in live && Account(units', Taken(bs, j, n), live[bs[j].addr := n], owned, arena)
  {
    var r, bs', live' := bs[j].addr, Taken(bs, j, n), live[bs[j].addr := n];
    NewBlock(units, bs, live, owned, arena, j, n);
    forall a <- live' ensures LiveBlock(units', bs', live', arena, a) {
      if a != r {
        assert LiveBlock(units, bs, live, arena, a);
        assert In(Block(a, live[a]), a);
        forall y | In(Block(a, live[a]), y) ensures !Covers(bs', y) {
          TakenCovers(bs, j, n, y);
        }
      }
    }
    forall y ensures y in owned <==> Covers(bs', y) || InUse(live', y) {
      TakenCovers(bs, j, n, y);
      if InUse(live, y) {
        var a :| a in live && In(Block(a, live[a]), y);
        assert In(Block(a, live'[a]), y);
      }
      if InUse(live', y) {
        var a :| a in live' && In(Block(a, live'[a]), y);
        assert a != r ==> In(Block(a, live[a]), y);
      }
      assert In(Block(r, n), y) ==> In(Block(r, live'[r]), y);
    }
  }

  lemma AllocAccounted(units: map<int, int>, bs: seq<Block>, live: map<int, int>, owned: set<int>,
          arena: int, page: int, refilled: bool, units': map<int, int>, bs': seq<Block>, r: int, n: int)
    requires Apart(bs) && Account(units, bs, live, owned, arena) && Block(arena, 1) in bs && n >= 1 && r != arena
    requires refilled ==> PageUnits(page) !! owned && page + PAGE_UNITS != arena && arena + 1 != page
    requires Took(Base(bs, page, refilled), r, n, bs') && Frame(units, units', Base(bs, page, refilled))
    requires r in units' && units'[r] == n
    ensures r !in live
    ensures Account(units', bs', live[r := n], owned + if refilled then PageUnits(page) else {}, arena)
  {
    var base := Base(bs, page, refilled);
    var owned' := owned + if refilled then PageUnits(page) else {};
    if refilled {
      PageOutside(units, bs, live, owned, arena, page);
      PageAccounted(units, bs, live, owned, arena, page);
      ArenaAlone(bs, Block(page, PAGE_UNITS), arena);
      OutsideFits(bs, Block(page, PAGE_UNITS));
      JoinedApart(bs, Block(page, PAGE_UNITS));
    } else {
      assert owned' == owned;
    }
    var j: nat :| TookFrom(base, j, r, n, bs');
    TakeAccounted(units, units', base, j, n, live, owned', arena);
  }

  /** Freeing keeps the account. */
  lemma FreeAccounted(units: map<int, int>, units': map<int, int>, bs: seq<Block>, x: Block,
          live: map<int, int>, owned: set<int>, arena: int)
    requires Apart(bs) && x.addr in live && x.units == live[x.addr]
    requires Account(units, bs, live, owned, arena)
    requires Frame(units, units', Joined(bs, Below(bs, x.addr), x))
    ensures Account(units', Joined(bs, Below(bs, x.addr), x), live - {x.addr}, owned, arena)
  {
    var k, live' := Below(bs, x.addr), live - {x.addr};
    var bs' := Joined(bs, k, x);
    assert LiveBlock(units, bs, live, arena, x.addr);
    forall a <- live' ensures LiveBlock(units', bs', live', arena, a) {
      assert LiveBlock(units, bs, live, arena, a);
      forall y | In(Block(a, live[a]), y) ensures !Covers(bs', y) {
        JoinedCovers(bs, k, x, y);
      }
      assert In(Block(a, live[a]), a);
    }
    forall y ensures y in owned <==> Covers(bs', y) || InUse(live', y) {
      JoinedCovers(bs, k, x, y);
      if InUse(live, y) {
        var a :| a in live && In(Block(a, live[a]), y);
        assert a != x.addr ==> a in live' && In(Block(a, live'[a]), y);
      }
      if InUse(live', y) {
        var a :| a in live' && In(Block(a, live'[a]), y);
        assert In(Block(a, live[a]), y);
      }
    }
  }

  ghost predicate Account(units: map<int, int>, bs: seq<Block>, live: map<int, int>, owned: set<int>, arena: int) {
    && (forall a <- live :: LiveBlock(units, bs, live, arena, a))
    && (forall a <- live, b <- live :: a < b ==> a + live[a] <= b)
    && (forall x :: x in owned <==> Covers(bs, x) || InUse(live, x))
  }

  ghost predicate InUse(live: map<int, int>, x: int) {
    exists a <- live :: In(Block(a, live[a]), x)
  }

  ghost predicate LiveBlock(units: map<int, int>, bs: seq<Block>, live: map<int, int>, arena: int, a: int)
    requires a in live
  {
    && live[a] > 0 && a in units && units[a] == live[a]
    && Outside(bs, Block(a, live[a])) && a + live[a] != arena && arena + 1 != a
  }

  /** The t-th block after the one at `k`, round the list. */
  function Turn(k: nat, t: nat, n: nat): nat
    requires k < n && t < n
  {
    if k + 1 + t < n then k + 1 + t else k + 1 + t - n
  }

  ghost predicate Visited(bs: seq<Block>, k: nat, t: nat, n: int) {
    k < |bs| && t < |bs| && bs[Turn(k, t, |bs|)].units < n
  }

  /** `r` is the first block that is large enough, going round from the one after slobfree. */
  ghost predicate FirstFitAt(bs: seq<Block>, k: nat, t: nat, r: int, n: int) {
    && k < |bs| && t < |bs|
    && bs[Turn(k, t, |bs|)].addr == r && bs[Turn(k, t, |bs|)].units >= n
    && forall s: nat | s < t :: Visited(bs, k, s, n)
  }

  ghost predicate FirstFit(bs: seq<Block>, slobfree: int, r: int, n: int) {
    exists k: nat, t: nat :: FirstFitAt(bs, k, t, r, n) && bs[k].addr == slobfree
  }

  /** The free list after a fresh page is freed into it. */
  function WithPage(bs: seq<Block>, page: int): seq<Block> {
    Joined(bs, Below(bs, page), Block(page, PAGE_UNITS))
  }

  ghost predicate TookFrom(bs: seq<Block>, j: nat, r: int, n: int, bs': seq<Block>) {
    j < |bs| && bs[j].addr == r && 0 < n <= bs[j].units && bs' == Taken(bs, j, n)
  }

  /** `n` units at `r` came off the front of one of the blocks. */
  ghost predicate Took(bs: seq<Block>, r: int, n: int, bs': seq<Block>) {
    exists j: nat :: TookFrom(bs, j, r, n, bs')
  }

  function Base(bs: seq<Block>, page: int, refilled: bool): seq<Block> {
    if refilled then WithPage(bs, page) else bs
  }

  lemma AllVisited(bs: seq<Block>, k: nat, t: nat, n: int)
    requires Apart(bs) && k < |bs| && t < |bs| && bs[Turn(k, t, |bs|)].addr == bs[k].addr
    requires forall s: nat | s <= t :: Visited(bs, k, s, n)
    ensures forall b <- bs :: b.units < n
  {
    forall i | 0 <= i < |bs| ensures bs[i].units < n {
      assert Visited(bs, k, if i > k then i - k - 1 else i - k - 1 + |bs|, n);
    }
  }

  lemma PageIsThere(bs: seq<Block>, page: int)
    requires Apart(bs)
    ensures exists b <- WithPage(bs, page) :: b.units >= PAGE_UNITS
  {
    var k, x := Below(bs, page), Block(page, PAGE_UNITS);
    assert Joined(bs, k, x)[if Down(bs, k, x) then k - 1 else k] == Union(bs, k, x);
    assert Union(bs, k, x) in WithPage(bs, page);
  }

  lemma ArenaStays(bs: seq<Block>, j: nat, n: int, arena: int)
    requires Block(arena, 1) in bs && j < |bs| && 1 <= n <= bs[j].units && bs[j].addr != arena
    ensures |bs| > 1 && Block(arena, 1) in Taken(bs, j, n)
  {
    var i: nat :| i < |bs| && bs[i] == Block(arena, 1);
    TakenHas(bs, j, n, i);
  }

  lemma TakenHas(bs: seq<Block>, j: nat, n: int, i: nat)
    requires i < |bs| && j < |bs| && i != j
    ensures bs[i] in Taken(bs, j, n)
  {
    var m := if i < j || bs[j].units != n then i else i - 1;
    assert Taken(bs, j, n)[m] == bs[i];
  }

  lemma GoneWithout(bs: seq<Block>, j: nat)
    requires Apart(bs) && j < |bs|
    ensures bs[j] !in Taken(bs, j, bs[j].units)
  {
  }

  /** A block of two units or more is not `arena`. */
  lemma NotArena(bs: seq<Block>, j: nat, arena: int)
    requires Apart(bs) && Block(arena, 1) in bs && j < |bs|
    ensures bs[j].units >= 1 && (bs[j].units >= 2 ==> bs[j].addr != arena)
  {
    var i :| 0 <= i < |bs| && bs[i] == Block(arena, 1);
  }

  lemma PredStays(bs: seq<Block>, j: nat, n: int)
    requires |bs| > 1 && j < |bs|
    ensures OnList(Taken(bs, j, n), bs[Pred(j, |bs|)].addr)
  {
    var i := Pred(j, |bs|);
    assert Taken(bs, j, n)[if i < j || bs[j].units != n then i else i - 1] == bs[i];
  }

  /** `prev->next = cur->next` takes `cur` off the list if and only if it is not the only block:
      a request for one unit, met by `arena` alone, would leave it on the list. */
  lemma UnlinkWorks(units: map<int, int>, next: map<int, int>, bs: seq<Block>, j: nat)
    requires Apart(bs) && Linked(units, next, bs) && j < |bs|
    ensures var next' := next[bs[Pred(j, |bs|)].addr := bs[Succ(j, |bs|)].addr];
            (forall i: nat | i < |bs| :: !PointsAt(next', bs[i].addr, bs[j].addr)) <==> |bs| > 1
  {
    var next' := next[bs[Pred(j, |bs|)].addr := bs[Succ(j, |bs|)].addr];
    forall i: nat | i < |bs| && |bs| > 1 ensures !PointsAt(next', bs[i].addr, bs[j].addr) {
      assert Link(units, next, bs, i);
    }
    assert |bs| == 1 ==> PointsAt(next', bs[0].addr, bs[j].addr);
  }

  ghost predicate PointsAt(next: map<int, int>, a: int, b: int) {
    a in next && next[a] == b
  }

  lemma TakeWhole(units: map<int, int>, next: map<int, int>, bs: seq<Block>, j: nat)
    requires Apart(bs) && Linked(units, next, bs) && |bs| > 1 && j < |bs|
    ensures Linked(units, next[bs[Pred(j, |bs|)].addr := bs[Succ(j, |bs|)].addr], Taken(bs, j, bs[j].units))
  {
    var next' := next[bs[Pred(j, |bs|)].addr := bs[Succ(j, |bs|)].addr];
    forall i: nat | i < |bs| && i != j ensures Bypassed(bs, j, units, next', i) {
      assert Link(units, next, bs, i);
    }
    Unlink(bs, j, units, next');
  }

  lemma FrontHeader(units: map<int, int>, next: map<int, int>, bs: seq<Block>, j: nat, d: Block,
          i: nat)
    requires Apart(bs) && Linked(units, next, bs) && j < |bs| && i < |bs| && i != j
             && bs[j].addr < d.addr < bs[j].addr + bs[j].units
    ensures Reheaded(bs, j, d, units[d.addr := d.units][bs[j].addr := d.addr - bs[j].addr],
                     next[bs[Pred(j, |bs|)].addr := d.addr][d.addr := bs[Succ(j, |bs|)].addr], i)
  {
    assert Link(units, next, bs, i);
    assert bs[i].addr != d.addr && bs[i].addr != bs[j].addr;
    assert bs[i].addr == bs[Pred(j, |bs|)].addr ==> i == Pred(j, |bs|);
  }

  lemma TakeFront(units: map<int, int>, next: map<int, int>, bs: seq<Block>, j: nat, n: int)
    requires Apart(bs) && Linked(units, next, bs) && |bs| > 1 && j < |bs| && 0 < n < bs[j].units
    ensures var a := bs[j].addr;
            Linked(units[a + n := bs[j].units - n][a := n],
                   next[bs[Pred(j, |bs|)].addr := a + n][a + n := bs[Succ(j, |bs|)].addr], Taken(bs, j, n))
  {
    var d := Block(bs[j].addr + n, bs[j].units - n);
    var units' := units[d.addr := d.units][bs[j].addr := n];
    var next' := next[bs[Pred(j, |bs|)].addr := d.addr][d.addr := bs[Succ(j, |bs|)].addr];
    forall i: nat | i < |bs| && (i < j || i >= j + 1) ensures Reheaded(bs, j, d, units', next', i) {
      FrontHeader(units, next, bs, j, d, i);
    }
    Relink(bs, j, d, j + 1, units', next');
  }

  function Pred(i: nat, n: nat): nat
    requires 0 < n
  {
    if i == 0 then n - 1 else i - 1
  }

  lemma SameLinks(units: map<int, int>, next: map<int, int>, bs: seq<Block>, a: int, n: int)
    requires Linked(units, next, bs) && forall i | 0 <= i < |bs| :: bs[i].addr != a
    ensures Linked(units[a := n], next, bs)
  {
    var units' := units[a := n];
    forall i: nat | i < |bs| ensures Link(units', next, bs, i) {
      assert Link(units, next, bs, i);
    }
  }

  /** Headers outside the free units are untouched. */
  ghost predicate Frame(units: map<int, int>, units': map<int, int>, bs: seq<Block>) {
    forall a <- units :: !Covers(bs, a) ==> a in units' && units'[a] == units[a]
  }

  lemma NotAStart(bs: seq<Block>, x: Block)
    requires Apart(bs) && Fits(bs, x)
    ensures bs != [] ==> 0 <= Gap(bs, x.addr) < |bs|
    ensures forall i | 0 <= i < |bs| :: bs[i].addr != x.addr
  {
  }

  /** `arena` touches no other block, so it survives, and the list is not just the block joined. */
  lemma ArenaAlone(bs: seq<Block>, x: Block, arena: int)
    requires Block(arena, 1) in bs && x.addr + x.units != arena && arena + 1 != x.addr
    ensures Block(arena, 1) in Joined(bs, Below(bs, x.addr), x)
    ensures |bs| > 1 || !Up(bs, Below(bs, x.addr), x)
  {
    var i :| 0 <= i < |bs| && bs[i] == Block(arena, 1);
    JoinedKeeps(bs, Below(bs, x.addr), x, i);
  }

  /** In the list, the successor of the block before `x` is the block after `x`; so the tests of
      slob_free on `cur` and `cur->next` are the tests on neighbours in address order. */
  lemma Neighbours(bs: seq<Block>, x: Block)
    requires Apart(bs) && bs != [] && Fits(bs, x)
    ensures var k, g := Below(bs, x.addr), Gap(bs, x.addr);
            && 0 <= g < |bs|
            && (Up(bs, k, x) <==> x.addr + x.units == bs[Succ(g, |bs|)].addr)
            && (Down(bs, k, x) <==> bs[g].addr + bs[g].units == x.addr)
            && (Up(bs, k, x) ==> Succ(g, |bs|) == k)
            && (Down(bs, k, x) ==> g == k - 1)
  {
  }

  /** What slob_free writes into the headers: first that of the freed block, ... */
  ghost predicate WrittenUp(units: map<int, int>, next: map<int, int>, bs: seq<Block>, x: Block,
          units': map<int, int>, next': map<int, int>)
    requires 0 <= Gap(bs, x.addr) < |bs|
  {
    var h := Succ(Gap(bs, x.addr), |bs|);
    if Up(bs, Below(bs, x.addr), x) then
      units' == units[x.addr := x.units + bs[h].units] && next' == next[x.addr := bs[Succ(h, |bs|)].addr]
    else
      units' == units && next' == next[x.addr := bs[h].addr]
  }

  /** ... and then that of the block before it. */
  ghost predicate Written(units: map<int, int>, next: map<int, int>, bs: seq<Block>, x: Block, units': map<int, int>,
          next': map<int, int>)
    requires 0 <= Gap(bs, x.addr) < |bs| && x.addr in units && units[x.addr] == x.units
  {
    var k, g := Below(bs, x.addr), Gap(bs, x.addr);
    var h := Succ(g, |bs|);
    var units1 := if Up(bs, k, x) then units[x.addr := x.units + bs[h].units] else units;
    var next1 := next[x.addr := if Up(bs, k, x) then bs[Succ(h, |bs|)].addr else bs[h].addr];
    if Down(bs, k, x) then
      units' == units1[bs[g].addr := bs[g].units + units1[x.addr]] && next' == next1[bs[g].addr := next1[x.addr]]
    else
      units' == units1 && next' == next1[bs[g].addr := x.addr]
  }

  lemma {:induction false} InsertHeader(units: map<int, int>, next: map<int, int>, bs: seq<Block>, x: Block,
          units': map<int, int>, next': map<int, int>, i: nat)
    requires Apart(bs) && bs != [] && Fits(bs, x) && Linked(units, next, bs)
    requires x.addr in units && units[x.addr] == x.units
    requires 0 <= Gap(bs, x.addr) < |bs| && Written(units, next, bs, x, units', next')
    requires var k := Below(bs, x.addr);
             i < |bs| && (i < (if Down(bs, k, x) then k - 1 else k) || i >= (if Up(bs, k, x) then k + 1 else k))
    ensures var k := Below(bs, x.addr);
            Reheaded(bs, if Down(bs, k, x) then k - 1 else k, Union(bs, k, x), units', next', i)
  {
    Neighbours(bs, x);
    NotAStart(bs, x);
    assert Link(units, next, bs, i);
  }

  /** The block that holds `x` now has its header. */
  ghost predicate Headed(bs: seq<Block>, x: Block, units: map<int, int>, next: map<int, int>) {
    var k := Below(bs, x.addr);
    var d, hi := Union(bs, k, x), if Up(bs, k, x) then k + 1 else k;
    && d.addr in units && units[d.addr] == d.units
    && d.addr in next && next[d.addr] == if hi < |bs| then bs[hi].addr else if bs != [] then bs[0].addr else 0
  }

  /** It is the header of the block below, if `x` joins that, */
  lemma UnionDown(units: map<int, int>, next: map<int, int>, bs: seq<Block>, x: Block,
          units': map<int, int>, next': map<int, int>)
    requires x.addr in units && units[x.addr] == x.units && (|bs| > 1 || !Up(bs, Below(bs, x.addr), x))
    requires 0 <= Gap(bs, x.addr) < |bs| && Written(units, next, bs, x, units', next')
    requires Down(bs, Below(bs, x.addr), x)
    ensures Headed(bs, x, units', next')
  {
  }

  /** and otherwise its own. */
  lemma UnionKeeps(units: map<int, int>, next: map<int, int>, bs: seq<Block>, x: Block,
          units': map<int, int>, next': map<int, int>)
    requires x.addr in units && units[x.addr] == x.units
    requires 0 <= Gap(bs, x.addr) < |bs| && Written(units, next, bs, x, units', next')
    requires !Down(bs, Below(bs, x.addr), x) && bs[Gap(bs, x.addr)].addr != x.addr
    requires Up(bs, Below(bs, x.addr), x) ==> Succ(Gap(bs, x.addr), |bs|) == Below(bs, x.addr)
    ensures Headed(bs, x, units', next')
  {
  }

  lemma UnionHeader(units: map<int, int>, next: map<int, int>, bs: seq<Block>, x: Block,
          units': map<int, int>, next': map<int, int>)
    requires Apart(bs) && bs != [] && Fits(bs, x) && x.addr in units && units[x.addr] == x.units
    requires |bs| > 1 || !Up(bs, Below(bs, x.addr), x)
    requires 0 <= Gap(bs, x.addr) < |bs| && Written(units, next, bs, x, units', next')
    ensures Headed(bs, x, units', next')
  {
    Neighbours(bs, x);
    NotAStart(bs, x);
    if Down(bs, Below(bs, x.addr), x) {
      UnionDown(units, next, bs, x, units', next');
    } else {
      UnionKeeps(units, next, bs, x, units', next');
    }
  }

  lemma JoinedIs(bs: seq<Block>, k: nat, x: Block)
    requires k <= |bs|
    ensures var lo, hi := if Down(bs, k, x) then k - 1 else k, if Up(bs, k, x) then k + 1 else k;
            && 0 <= lo <= hi <= |bs| && Joined(bs, k, x) == bs[..lo] + [Union(bs, k, x)] + bs[hi..]
            && (hi - lo == |bs| > 0 && (|bs| > 1 || !Up(bs, k, x)) ==> Union(bs, k, x).addr == bs[0].addr)
  {
  }

  /** The headers after slob_free, whichever of its four cases was taken. */
  lemma InsertLinked(units: map<int, int>, next: map<int, int>, bs: seq<Block>, x: Block,
          units': map<int, int>, next': map<int, int>)
    requires Apart(bs) && bs != [] && Fits(bs, x) && Linked(units, next, bs)
    requires x.addr in units && units[x.addr] == x.units
    requires |bs| > 1 || !Up(bs, Below(bs, x.addr), x)
    requires 0 <= Gap(bs, x.addr) < |bs| && Written(units, next, bs, x, units', next')
    ensures Linked(units', next', Joined(bs, Below(bs, x.addr), x))
  {
    var k := Below(bs, x.addr);
    var lo, hi, d := if Down(bs, k, x) then k - 1 else k, if Up(bs, k, x) then k + 1 else k, Union(bs, k, x);
    JoinedIs(bs, k, x);
    UnionHeader(units, next, bs, x, units', next');
    forall i: nat | i < |bs| && (i < lo || i >= hi) ensures Reheaded(bs, lo, d, units', next', i) {
      InsertHeader(units, next, bs, x, units', next', i);
    }
    Relink(bs, lo, d, hi, units', next');
  }

  lemma GapOnList(bs: seq<Block>, x: Block)
    requires Apart(bs) && bs != [] && Fits(bs, x) && (|bs| > 1 || !Up(bs, Below(bs, x.addr), x))
    requires 0 <= Gap(bs, x.addr) < |bs|
    ensures OnList(Joined(bs, Below(bs, x.addr), x), bs[Gap(bs, x.addr)].addr)
  {
    var k := Below(bs, x.addr);
    Neighbours(bs, x);
    if Down(bs, k, x) {
      assert Joined(bs, k, x)[k - 1].addr == bs[k - 1].addr;
    } else {
      JoinedKeeps(bs, k, x, Gap(bs, x.addr));
    }
  }

  /** Only headers of units that are free now were written. */
  lemma InsertFrame(units: map<int, int>, next: map<int, int>, bs: seq<Block>, x: Block,
          units': map<int, int>, next': map<int, int>)
    requires Apart(bs) && bs != [] && x.units > 0 && x.addr in units && units[x.addr] == x.units
    requires 0 <= Gap(bs, x.addr) < |bs| && Written(units, next, bs, x, units', next')
    ensures Frame(units, units', Joined(bs, Below(bs, x.addr), x))
  {
    var g := bs[Gap(bs, x.addr)];
    JoinedCovers(bs, Below(bs, x.addr), x, x.addr);
    JoinedCovers(bs, Below(bs, x.addr), x, g.addr);
    assert In(g, g.addr);
  }
}
