/**
 Lists of free blocks in address order, in which neighbours that touch have been joined.
 Both the SLOB heap (kern/mm/kmalloc.c) and the first-fit page allocator
 (kern/mm/default_pmm.c) keep one; this is what the two have in common.
 */
module FreeBlocks {

  datatype Block = Block(addr: int, units: int)

  // ----- lists of free blocks, lowest address first ----------------------------------------

  /** In address order, and no two blocks touch: neighbours have been joined. */
  ghost predicate Apart(bs: seq<Block>) {
    && (forall i | 0 <= i < |bs| :: bs[i].units > 0)
    && (forall i, j | 0 <= i < j < |bs| :: bs[i].addr + bs[i].units < bs[j].addr)
  }

  ghost predicate In(b: Block, a: int) {
    b.addr <= a < b.addr + b.units
  }

  /** The unit at `a` is free. */
  ghost predicate Covers(bs: seq<Block>, a: int) {
    exists i | 0 <= i < |bs| :: In(bs[i], a)
  }

  /** `b` overlaps no free block. */
  ghost predicate Outside(bs: seq<Block>, b: Block) {
    forall a :: In(b, a) ==> !Covers(bs, a)
  }

  /** How many blocks lie below `a`. */
  function Below(bs: seq<Block>, a: int): (k: nat)
    ensures k <= |bs|
  {
    if bs == [] || bs[0].addr >= a then 0 else 1 + Below(bs[1..], a)
  }

  lemma {:induction false} BelowSplits(bs: seq<Block>, a: int)
    requires Apart(bs)
    ensures forall i | 0 <= i < Below(bs, a) :: bs[i].addr < a
    ensures forall i | Below(bs, a) <= i < |bs| :: bs[i].addr >= a
  {
    if bs != [] && bs[0].addr < a {
      BelowSplits(bs[1..], a);
      forall i | 0 <= i < Below(bs, a) ensures bs[i].addr < a {
        if i > 0 { assert bs[i] == bs[1..][i - 1]; }
      }
      forall i | Below(bs, a) <= i < |bs| ensures bs[i].addr >= a {
        assert bs[i] == bs[1..][i - 1];
      }
    }
  }

  /** Freeing `b` below the block at position `k`: does it touch that block, or the one before? */
  predicate Up(bs: seq<Block>, k: nat, b: Block) {
    k < |bs| && b.addr + b.units == bs[k].addr
  }

  predicate Down(bs: seq<Block>, k: nat, b: Block) {
    0 < k <= |bs| && bs[k - 1].addr + bs[k - 1].units == b.addr
  }

  /** `b` with the blocks that it touches. */
  function Union(bs: seq<Block>, k: nat, b: Block): Block
    requires k <= |bs|
  {
    var addr := if Down(bs, k, b) then bs[k - 1].addr else b.addr;
    Block(addr, (if Up(bs, k, b) then bs[k].addr + bs[k].units else b.addr + b.units) - addr)
  }

  /** The list with `b` put in at position `k` and joined to the blocks that it touches. */
  function Joined(bs: seq<Block>, k: nat, b: Block): seq<Block>
    requires k <= |bs|
  {
    bs[..if Down(bs, k, b) then k - 1 else k] + [Union(bs, k, b)] + bs[if Up(bs, k, b) then k + 1 else k..]
  }

  /** The blocks from `i` to `j` may be replaced by one that lies in their place. */
  lemma ReplaceApart(bs: seq<Block>, i: nat, x: Block, j: nat)
    requires Apart(bs) && i <= j <= |bs| && x.units > 0
    requires i > 0 ==> bs[i - 1].addr + bs[i - 1].units < x.addr
    requires j < |bs| ==> x.addr + x.units < bs[j].addr
    ensures Apart(bs[..i] + [x] + bs[j..])
  {
    var s := bs[..i] + [x] + bs[j..];
    forall p, q | 0 <= p < q < |s| ensures s[p].addr + s[p].units < s[q].addr {
      if p < i {
        assert s[p] == bs[p];
      }
      if q > i {
        assert s[q] == bs[q - i - 1 + j];
      }
      if p > i {
        assert s[p] == bs[p - i - 1 + j];
      }
      if q < i {
        assert s[q] == bs[q];
      }
    }
  }

  /** `x` lies between the blocks below it and the others. */
  ghost predicate Fits(bs: seq<Block>, x: Block) {
    && x.units > 0
    && (forall i | 0 <= i < Below(bs, x.addr) :: bs[i].addr + bs[i].units <= x.addr)
    && (forall i | Below(bs, x.addr) <= i < |bs| :: x.addr + x.units <= bs[i].addr)
  }

  lemma OutsideFits(bs: seq<Block>, x: Block)
    requires Apart(bs) && x.units > 0 && Outside(bs, x)
    ensures Fits(bs, x)
  {
    BelowSplits(bs, x.addr);
    forall i | 0 <= i < |bs| ensures i < Below(bs, x.addr) ==> bs[i].addr + bs[i].units <= x.addr {
      assert In(x, x.addr) && (In(bs[i], x.addr) ==> Covers(bs, x.addr));
    }
    forall i | 0 <= i < |bs| ensures i >= Below(bs, x.addr) ==> x.addr + x.units <= bs[i].addr {
      assert In(bs[i], bs[i].addr) && Covers(bs, bs[i].addr);
      assert !In(x, bs[i].addr);
    }
  }

  lemma JoinedApart(bs: seq<Block>, x: Block)
    requires Apart(bs) && Fits(bs, x)
    ensures Apart(Joined(bs, Below(bs, x.addr), x))
  {
    var k := Below(bs, x.addr);
    ReplaceApart(bs, if Down(bs, k, x) then k - 1 else k, Union(bs, k, x), if Up(bs, k, x) then k + 1 else k);
  }

  lemma JoinedCoversAll(bs: seq<Block>, k: nat, b: Block, a: int)
    requires k <= |bs| && (forall i | 0 <= i < |bs| :: bs[i].units > 0) && b.units > 0
    requires Covers(bs, a) || In(b, a)
    ensures Covers(Joined(bs, k, b), a)
  {
    var js, lo, hi := Joined(bs, k, b), if Down(bs, k, b) then k - 1 else k, if Up(bs, k, b) then k + 1 else k;
    if In(b, a) {
      assert In(js[lo], a);
    } else {
      var i :| 0 <= i < |bs| && In(bs[i], a);
      if i < lo {
        assert js[i] == bs[i];
      } else if i < hi {
        assert In(js[lo], a);
      } else {
        assert js[i - hi + lo + 1] == bs[i];
      }
    }
  }

  lemma JoinedCoversOnly(bs: seq<Block>, k: nat, b: Block, a: int)
    requires k <= |bs| && Covers(Joined(bs, k, b), a)
    ensures Covers(bs, a) || In(b, a)
  {
    var js, lo, hi := Joined(bs, k, b), if Down(bs, k, b) then k - 1 else k, if Up(bs, k, b) then k + 1 else k;
    var m :| 0 <= m < |js| && In(js[m], a);
    if m < lo {
      assert js[m] == bs[m];
    } else if m > lo {
      assert js[m] == bs[m - lo - 1 + hi];
    } else {
      assert js[m] == Union(bs, k, b);
      assert In(b, a) || (Down(bs, k, b) && In(bs[k - 1], a)) || (Up(bs, k, b) && In(bs[k], a));
    }
  }

  /** Freeing adds exactly the units of the block. */
  lemma JoinedCovers(bs: seq<Block>, k: nat, b: Block, a: int)
    requires k <= |bs| && (forall i | 0 <= i < |bs| :: bs[i].units > 0) && b.units > 0
    ensures Covers(Joined(bs, k, b), a) <==> Covers(bs, a) || In(b, a)
  {
    if Covers(bs, a) || In(b, a) {
      JoinedCoversAll(bs, k, b, a);
    } else if Covers(Joined(bs, k, b), a) {
      JoinedCoversOnly(bs, k, b, a);
    }
  }

  /** A free list is determined by the units that are free: order and joining leave no choice. */
  lemma {:induction false} CoverDetermines(bs: seq<Block>, cs: seq<Block>)
    requires Apart(bs) && Apart(cs)
    requires forall a :: Covers(bs, a) <==> Covers(cs, a)
    ensures bs == cs
    decreases |bs|
  {
    FirstCovered(bs);
    FirstCovered(cs);
    if bs != [] && cs != [] {
      FirstEqual(bs, cs);
      forall a ensures Covers(bs[1..], a) <==> Covers(cs[1..], a) {
        TailCovers(bs, a);
        TailCovers(cs, a);
      }
      CoverDetermines(bs[1..], cs[1..]);
      assert bs == [bs[0]] + bs[1..] && cs == [cs[0]] + cs[1..];
    }
  }

  lemma FirstCovered(bs: seq<Block>)
    requires Apart(bs)
    ensures bs != [] ==> Covers(bs, bs[0].addr)
  {
    if bs != [] {
      assert In(bs[0], bs[0].addr);
    }
  }

  lemma TailCovers(bs: seq<Block>, a: int)
    requires Apart(bs) && bs != []
    ensures Covers(bs[1..], a) <==> Covers(bs, a) && !In(bs[0], a)
  {
    if Covers(bs[1..], a) {
      var i :| 0 <= i < |bs[1..]| && In(bs[1..][i], a);
      assert In(bs[i + 1], a);
    }
    if Covers(bs, a) && !In(bs[0], a) {
      var i :| 0 <= i < |bs| && In(bs[i], a);
      assert In(bs[1..][i - 1], a);
    }
  }

  lemma FirstEqual(bs: seq<Block>, cs: seq<Block>)
    requires Apart(bs) && Apart(cs) && bs != [] && cs != []
    requires forall a :: Covers(bs, a) <==> Covers(cs, a)
    ensures bs[0] == cs[0]
  {
    FirstNotLess(bs, cs);
    FirstNotLess(cs, bs);
    FirstNotLonger(bs, cs);
    FirstNotLonger(cs, bs);
  }

  lemma FirstNotLess(bs: seq<Block>, cs: seq<Block>)
    requires Apart(bs) && Apart(cs) && bs != [] && cs != []
    requires forall a :: Covers(bs, a) ==> Covers(cs, a)
    ensures cs[0].addr <= bs[0].addr
  {
    assert In(bs[0], bs[0].addr);
    assert Covers(bs, bs[0].addr);
    var i :| 0 <= i < |cs| && In(cs[i], bs[0].addr);
  }

  lemma FirstNotLonger(bs: seq<Block>, cs: seq<Block>)
    requires Apart(bs) && Apart(cs) && bs != [] && cs != [] && bs[0].addr == cs[0].addr
    requires forall a :: Covers(bs, a) ==> Covers(cs, a)
    ensures bs[0].units <= cs[0].units
  {
    var a := cs[0].addr + cs[0].units;
    assert !Covers(cs, a);
    assert In(bs[0], a) ==> Covers(bs, a);
  }

  // ----- taking units from the front of a block ---------------------------------------------

  function Taken(bs: seq<Block>, j: nat, n: int): seq<Block>
    requires j < |bs|
  {
    if bs[j].units == n then bs[..j] + bs[j + 1..]
    else bs[..j] + [Block(bs[j].addr + n, bs[j].units - n)] + bs[j + 1..]
  }

  lemma TakenApart(bs: seq<Block>, j: nat, n: int)
    requires Apart(bs) && j < |bs| && 0 < n <= bs[j].units
    ensures Apart(Taken(bs, j, n))
  {
    if bs[j].units == n {
      var s := bs[..j] + bs[j + 1..];
      forall p, q | 0 <= p < q < |s| ensures s[p].addr + s[p].units < s[q].addr {
        assert s[p] == bs[if p < j then p else p + 1] && s[q] == bs[if q < j then q else q + 1];
      }
    } else {
      ReplaceApart(bs, j, Block(bs[j].addr + n, bs[j].units - n), j + 1);
    }
  }

  /** What an allocation leaves at each position. */
  lemma TakenAt(bs: seq<Block>, j: nat, n: int, m: nat)
    requires j < |bs| && m < |Taken(bs, j, n)|
    ensures Taken(bs, j, n)[m] == (if m < j then bs[m]
                                   else if bs[j].units == n then bs[m + 1]
                                   else if m == j then Block(bs[j].addr + n, bs[j].units - n)
                                   else bs[m])
  {
  }

  lemma TakenCoversOnly(bs: seq<Block>, j: nat, n: int, a: int)
    requires Apart(bs) && j < |bs| && 0 < n <= bs[j].units && Covers(Taken(bs, j, n), a)
    ensures Covers(bs, a) && !In(Block(bs[j].addr, n), a)
  {
    var m: nat :| m < |Taken(bs, j, n)| && In(Taken(bs, j, n)[m], a);
    TakenAt(bs, j, n, m);
    assert In(bs[if m < j || bs[j].units > n then m else m + 1], a);
  }

  lemma TakenCoversAll(bs: seq<Block>, j: nat, n: int, a: int)
    requires j < |bs| && 0 < n <= bs[j].units && Covers(bs, a) && !In(Block(bs[j].addr, n), a)
    ensures Covers(Taken(bs, j, n), a)
  {
    var js, d := Taken(bs, j, n), if bs[j].units == n then 0 else 1;
    var i :| 0 <= i < |bs| && In(bs[i], a);
    assert In(js[if i < j then i else if i == j then j else i - 1 + d], a);
  }

  /** Allocation removes exactly the units that it hands out. */
  lemma TakenCovers(bs: seq<Block>, j: nat, n: int, a: int)
    requires Apart(bs) && j < |bs| && 0 < n <= bs[j].units
    ensures Covers(Taken(bs, j, n), a) <==> Covers(bs, a) && !In(Block(bs[j].addr, n), a)
    ensures In(Block(bs[j].addr, n), a) ==> Covers(bs, a)
  {
    if Covers(Taken(bs, j, n), a) {
      TakenCoversOnly(bs, j, n, a);
    } else if Covers(bs, a) && !In(Block(bs[j].addr, n), a) {
      TakenCoversAll(bs, j, n, a);
    }
    assert In(Block(bs[j].addr, n), a) ==> In(bs[j], a);
  }

  // ----- positions -------------------------------------------------------------------------

  function Succ(i: nat, n: nat): nat {
    if i + 1 >= n then 0 else i + 1
  }

  ghost predicate OnList(bs: seq<Block>, a: int) {
    exists i | 0 <= i < |bs| :: bs[i].addr == a
  }

  /** Every block that does not touch the freed one stays as it is. */
  lemma JoinedKeeps(bs: seq<Block>, k: nat, x: Block, i: nat)
    requires k <= |bs| && i < |bs|
    requires !(Up(bs, k, x) && i == k) && !(Down(bs, k, x) && i == k - 1)
    ensures bs[i] in Joined(bs, k, x)
  {
    var js, lo, hi := Joined(bs, k, x), if Down(bs, k, x) then k - 1 else k, if Up(bs, k, x) then k + 1 else k;
    assert js[if i < lo then i else i - hi + lo + 1] == bs[i];
  }

  // ----- how many units are free -----------------------------------------------------------

  function Total(bs: seq<Block>): int {
    if bs == [] then 0 else bs[0].units + Total(bs[1..])
  }

  lemma {:induction false} TotalConcat(bs: seq<Block>, cs: seq<Block>)
    ensures Total(bs + cs) == Total(bs) + Total(cs)
  {
    if bs == [] {
      assert bs + cs == cs;
    } else {
      TotalConcat(bs[1..], cs);
      assert (bs + cs)[1..] == bs[1..] + cs;
    }
  }

  lemma TotalReplaced(bs: seq<Block>, lo: nat, d: seq<Block>, hi: nat)
    requires lo <= hi <= |bs|
    ensures Total(bs[..lo] + d + bs[hi..]) == Total(bs) - Total(bs[lo..hi]) + Total(d)
  {
    assert bs == bs[..lo] + bs[lo..hi] + bs[hi..];
    TotalConcat(bs[..lo] + bs[lo..hi], bs[hi..]);
    TotalConcat(bs[..lo], bs[lo..hi]);
    TotalConcat(bs[..lo] + d, bs[hi..]);
    TotalConcat(bs[..lo], d);
  }

  lemma TotalTaken(bs: seq<Block>, j: nat, n: int)
    requires j < |bs|
    ensures Total(Taken(bs, j, n)) == Total(bs) - n
  {
    assert bs[j..j + 1] == [bs[j]];
    if bs[j].units == n {
      TotalReplaced(bs, j, [], j + 1);
      assert bs[..j] + [] + bs[j + 1..] == Taken(bs, j, n);
    } else {
      TotalReplaced(bs, j, [Block(bs[j].addr + n, bs[j].units - n)], j + 1);
    }
  }

  lemma {:induction false} TotalAtLeast(bs: seq<Block>, j: nat)
    requires j < |bs| && forall i | 0 <= i < |bs| :: bs[i].units > 0
    ensures bs[j].units <= Total(bs) && 0 <= Total(bs[1..])
  {
    TotalNonNegative(bs[1..]);
    if j > 0 {
      TotalAtLeast(bs[1..], j - 1);
    }
  }

  lemma {:induction false} TotalNonNegative(bs: seq<Block>)
    requires forall i | 0 <= i < |bs| :: bs[i].units > 0
    ensures Total(bs) >= 0
  {
    if bs != [] {
      TotalNonNegative(bs[1..]);
    }
  }

  // ----- there and back ----------------------------------------------------------------------

  /** Freeing what was just allocated restores the list, block for block. */
  lemma FreeUndoesAlloc(bs: seq<Block>, j: nat, n: int)
    requires Apart(bs) && j < |bs| && 0 < n <= bs[j].units
    ensures var x, cs := Block(bs[j].addr, n), Taken(bs, j, n);
            Joined(cs, Below(cs, x.addr), x) == bs
  {
    var x, cs := Block(bs[j].addr, n), Taken(bs, j, n);
    TakenApart(bs, j, n);
    forall a ensures Covers(cs, a) <==> Covers(bs, a) && !In(x, a) {
      TakenCovers(bs, j, n, a);
    }
    OutsideFits(cs, x);
    JoinedApart(cs, x);
    var js := Joined(cs, Below(cs, x.addr), x);
    forall a ensures Covers(js, a) <==> Covers(bs, a) {
      JoinedCovers(cs, Below(cs, x.addr), x, a);
      TakenCovers(bs, j, n, a);
    }
    CoverDetermines(js, bs);
  }
}
