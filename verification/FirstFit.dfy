/**
 The first-fit page allocator of kern/mm/default_pmm.c, down to the prev and next pointers of
 libs/list.h.  A list entry is known by the number of its page; `HEAD` is free_list itself.
 */
module FirstFit {
  import opened FreeBlocks

  const HEAD := -1

  // ----- doubly linked lists ------------------------------------------------------------------

  datatype Links = Links(next: map<int, int>, prev: map<int, int>)

  /** __list_add. */
  function ListAdd(l: Links, elm: int, prev: int, next: int): Links {
    Links(l.next[prev := elm][elm := next], l.prev[next := elm][elm := prev])
  }

  /** __list_del. */
  function ListDel(l: Links, prev: int, next: int): Links {
    Links(l.next[prev := next], l.prev[next := prev])
  }

  ghost predicate Distinct(ns: seq<int>) {
    forall i, j | 0 <= i < j < |ns| :: ns[i] != ns[j]
  }

  ghost predicate RingAt(l: Links, ns: seq<int>, i: nat)
    requires i < |ns|
  {
    var s := ns[Succ(i, |ns|)];
    ns[i] in l.next && l.next[ns[i]] == s && s in l.prev && l.prev[s] == ns[i]
  }

  /** next and prev both spell the circular list `ns`. */
  ghost predicate Ring(l: Links, ns: seq<int>) {
    Distinct(ns) && forall i: nat | i < |ns| :: RingAt(l, ns, i)
  }

  lemma RingAdd(l: Links, ns: seq<int>, i: nat, e: int)
    requires Ring(l, ns) && i < |ns| && e !in ns
    ensures Ring(ListAdd(l, e, ns[i], ns[Succ(i, |ns|)]), ns[..i + 1] + [e] + ns[i + 1..])
  {
    var l', ns' := ListAdd(l, e, ns[i], ns[Succ(i, |ns|)]), ns[..i + 1] + [e] + ns[i + 1..];
    assert RingAt(l, ns, i);
    forall m: nat | m < |ns'| ensures RingAt(l', ns', m) {
      if m < i {
        assert RingAt(l, ns, m);
      } else if m > i + 1 {
        assert RingAt(l, ns, m - 1);
      }
    }
  }

  lemma RingDel(l: Links, ns: seq<int>, i: nat)
    requires Ring(l, ns) && 0 < i < |ns|
    ensures Ring(ListDel(l, ns[i - 1], ns[Succ(i, |ns|)]), ns[..i] + ns[i + 1..])
  {
    var l', ns' := ListDel(l, ns[i - 1], ns[Succ(i, |ns|)]), ns[..i] + ns[i + 1..];
    forall m: nat | m < |ns'| ensures RingAt(l', ns', m) {
      assert RingAt(l, ns, if m < i then m else m + 1);
    }
  }

  // ----- the free list ------------------------------------------------------------------------

  /** The list entries of the free blocks, after free_list itself. */
  function Names(bs: seq<Block>): (ns: seq<int>)
    ensures |ns| == |bs| + 1
  {
    [HEAD] + seq(|bs|, i requires 0 <= i < |bs| => bs[i].addr)
  }

  /** Where the insertion loops of default_init_memmap and default_free_pages do what they are
      meant to: the list is empty, or some free block lies above. */
  predicate HasUpper(bs: seq<Block>, base: int) {
    bs == [] || base < bs[|bs| - 1].addr
  }

  ghost predicate Sized(property: map<int, int>, b: Block) {
    b.addr >= 0 && b.addr in property && property[b.addr] == b.units
  }

  ghost predicate AllSized(property: map<int, int>, bs: seq<Block>) {
    forall i | 0 <= i < |bs| :: Sized(property, bs[i])
  }

  /** The list and the page records spell the free blocks `bs`. */
  ghost predicate Shape(l: Links, property: map<int, int>, bs: seq<Block>) {
    Ring(l, Names(bs)) && AllSized(property, bs)
  }

  /** PG_property is set on the first pages of free blocks only. */
  ghost predicate Flags(flagged: set<int>, bs: seq<Block>) {
    forall a :: a in flagged <==> OnList(bs, a)
  }

  class FreeArea {
    var links: Links
    var property: map<int, int>
    var flagged: set<int>       // pages with PG_property
    var nrFree: int
    ghost var bs: seq<Block>

    /** The list spells the blocks `bs`, which may touch each other. */
    ghost predicate Loose()
      reads this
    {
      Shape(links, property, bs) && Flags(flagged, bs) && nrFree == Total(bs)
    }

    /** Between calls the blocks are also in order, disjoint, and joined where they touch. */
    ghost predicate Valid()
      reads this
    {
      Loose() && Apart(bs)
    }

    /** default_init. */
    constructor ()
      ensures Valid() && bs == []
    {
      links := Links(map[HEAD := HEAD], map[HEAD := HEAD]);
      property, flagged, nrFree, bs := map[], {}, 0, [];
    }

    /** The search of default_alloc_pages. */
    method FindFirst(n: int) returns (found: bool, page: int, ghost j: nat)
      requires Valid()
      ensures found ==> j < |bs| && page == bs[j].addr && bs[j].units >= n && forall i | 0 <= i < j :: bs[i].units < n
      ensures !found ==> forall i | 0 <= i < |bs| :: bs[i].units < n
    {
      ghost var ns := Names(bs);
      j := 0;
      assert RingAt(links, ns, 0);
      var le := links.next[HEAD];
      while le != HEAD
        invariant j <= |bs| && le == ns[Succ(j, |ns|)]
        invariant forall i | 0 <= i < j :: bs[i].units < n
        decreases |bs| - j
      {
        assert Sized(property, bs[j]);
        if property[le] >= n {
          return true, le, j;
        }
        assert RingAt(links, ns, j + 1);
        le := links.next[le];
        j := j + 1;
      }
      return false, 0, j;
    }
  
    /** default_alloc_pages: the lowest block that is large enough, or nothing if there is none. */
    method AllocPages(n: int) returns (ok: bool, page: int, ghost j: nat)
      requires Valid() && n > 0
      modifies this
      ensures Valid()
      ensures !ok ==> bs == old(bs) && forall i | 0 <= i < |bs| :: bs[i].units < n
      ensures ok ==>
                && j < |old(bs)| && page == old(bs)[j].addr && old(bs)[j].units >= n
                && (forall i | 0 <= i < j :: old(bs)[i].units < n)
                && bs == Taken(old(bs), j, n)
    {
      if n > nrFree {
        forall i | 0 <= i < |bs| ensures bs[i].units < n {
          TotalAtLeast(bs, i);
        }
        return false, 0, 0;
      }
      ok, page, j := FindFirst(n);
      if ok {
        TakePages(page, n, j);
      }
    }

    /** The rest of a block that default_alloc_pages splits, listed behind `prev`. */
    method PutBack(prev: int, p: int, units: int, ghost ds: seq<Block>, ghost j: nat, ghost cs: seq<Block>)
      requires Shape(links, property, ds) && j <= |ds| && prev == Names(ds)[j] && p >= 0 && p !in Names(ds)
      requires cs == ds[..j] + [Block(p, units)] + ds[j..]
      modifies `links, `property, `flagged
      ensures Shape(links, property, cs)
      ensures flagged == old(flagged) + {p}
    {
      ListedShape(links, property, ds, j, Block(p, units));
      property := property[p := units];
      flagged := flagged + {p};
      links := ListAdd(links, p, prev, links.next[prev]);
    }

    /** list_del of a block that was found. */
    method Unlist(page: int, ghost j: nat) returns (prev: int)
      requires Shape(links, property, bs) && j < |bs| && page == bs[j].addr
      modifies `links
      ensures Shape(links, property, bs[..j] + bs[j + 1..]) && prev == Names(bs[..j] + bs[j + 1..])[j]
    {
      WithoutShape(links, property, bs, j);
      prev := links.prev[page];
      links := ListDel(links, prev, links.next[page]);
    }

    /** The update of default_alloc_pages once a block is found. */
    method TakePages(page: int, n: int, ghost j: nat)
      requires Valid() && j < |bs| && page == bs[j].addr && 0 < n <= bs[j].units
      modifies this
      ensures Valid() && bs == Taken(old(bs), j, n)
    {
      ghost var cs, ds := Taken(bs, j, n), bs[..j] + bs[j + 1..];
      TakenIs(property, bs, j, n);
      Detach(page, n, j, ds, cs);
      TakenFlags(old(flagged), bs, j, n);
      TakenApart(bs, j, n);
      TotalTaken(bs, j, n);
      nrFree := nrFree - n;
      flagged := flagged - {page};
      bs := cs;
    }

    /** The pages come off the list. */
    method Detach(page: int, n: int, ghost j: nat, ghost ds: seq<Block>, ghost cs: seq<Block>)
      requires Shape(links, property, bs) && j < |bs| && page == bs[j].addr && ds == bs[..j] + bs[j + 1..]
      requires Sized(property, bs[j]) && 0 < n <= bs[j].units
      requires bs[j].units == n ==> cs == ds
      requires bs[j].units > n ==>
                 page + n !in Names(ds) && cs == ds[..j] + [Block(page + n, bs[j].units - n)] + ds[j..]
      modifies `links, `property, `flagged
      ensures Shape(links, property, cs)
      ensures flagged == if bs[j].units == n then old(flagged) else old(flagged) + {page + n}
    {
      var prev := Unlist(page, j);
      if property[page] > n {
        PutBack(prev, page + n, property[page] - n, ds, j, cs);
      }
    }

    /** The block at `q` joins the one at `p` before it. */
    method Absorb(p: int, q: int, ghost i: nat)
      requires Loose() && i + 1 < |bs| && p == bs[i].addr && q == bs[i + 1].addr
      modifies this
      ensures Loose() && bs == Fused(old(bs), i)
    {
      FusedShape(links, property, bs, i);
      FusedFlags(flagged, bs, i);
      TotalFused(bs, i);
      property := property[p := property[p] + property[q]];
      flagged := flagged - {q};
      links := ListDel(links, links.prev[q], links.next[q]);
      bs := Fused(bs, i);
    }

    /** The merging half of default_free_pages; `x` was entered into the list `was`, or `alone`
        says that the insertion loop has made it its own predecessor. */
    method Coalesce(base: int, ghost was: seq<Block>, ghost x: Block, ghost alone: bool)
      requires base >= 0 && base == x.addr && x.units > 0
      requires alone ==>
                 && base in links.prev && base in links.next && base in property
                 && links.prev[base] == base && links.next[base] == HEAD && property[base] > 0
      requires !alone ==> Loose() && bs == Entered(was, x)
      modifies this
      ensures alone ==> unchanged(this)
      ensures !alone ==> Loose() && bs == Joined(was, Below(was, x.addr), x)
    {
      ghost var k := Below(was, x.addr);
      if !alone {
        EntryAt(links, property, bs, k);
      }
      var b := base;
      var le := links.prev[b];
      if le != HEAD {
        if le + property[le] == b {
          Absorb(le, b, k - 1);
          b := le;
        }
      }
      ghost var i := LoweredAt(was, x);
      MergesJoin(was, x);
      if !alone {
        EntryAt(links, property, bs, i);
      }
      le := links.next[b];
      if le != HEAD {
        if b + property[b] == le {
          Absorb(b, le, i);
        }
      }
    }

    /** The insertion loop that default_init_memmap and default_free_pages share. */
    method InsertEntry(base: int)
      requires Shape(links, property, bs) && Apart(bs) && base >= 0 && !OnList(bs, base)
      modifies `links
      ensures links == Inserted(old(links), bs, base)
    {
      ghost var ns, k := Names(bs), Below(bs, base);
      BelowSplits(bs, base);
      assert RingAt(links, ns, 0);
      if links.next[HEAD] == HEAD {
        links := ListAdd(links, base, HEAD, links.next[HEAD]);
      } else {
        var le := links.next[HEAD];
        ghost var j := 0;
        assert RingAt(links, ns, 1);
        while le != HEAD
          invariant Scanning(old(links), links, bs, base, le, j)
          decreases |bs| + 1 - j
        {
          if base < le {
            ScanStops(links, bs, base, j);
            links := ListAdd(links, base, links.prev[le], le);
            return;
          } else if links.next[le] == HEAD {
            ScanReachesEnd(old(links), links, bs, base, le, j);
            links := ListAdd(links, base, le, links.next[le]);
          } else {
            ScanGoesOn(old(links), links, bs, base, le, j);
          }
          le := links.next[le];
          j := j + 1;
        }
      }
    }

    /** The part that default_init_memmap and default_free_pages share. */
    method Enter(base: int, n: int)
      requires Valid() && base >= 0 && n > 0 && !OnList(bs, base)
      modifies this
      ensures property == old(property)[base := n]
      ensures HasUpper(old(bs), base) ==> Loose() && bs == Entered(old(bs), Block(base, n))
      ensures !HasUpper(old(bs), base) ==>
                && links == Inserted(old(links), old(bs), base) && bs == old(bs)
                && flagged == old(flagged) + {base} && nrFree == old(nrFree) + n
    {
      ghost var x := Block(base, n);
      EnteredShape(links, property, bs, x);
      EnteredFlags(flagged, bs, x);
      TotalEntered(bs, x);
      InsertEntry(base);
      property := property[base := n];
      flagged := flagged + {base};
      nrFree := nrFree + n;
      if HasUpper(bs, base) {
        bs := Entered(bs, x);
      }
    }

    /** default_init_memmap, for pages that no free block holds. */
    method InitMemmap(base: int, n: int)
      requires Valid() && base >= 0 && n > 0 && Outside(bs, Block(base, n))
      modifies this
      ensures HasUpper(old(bs), base) ==> Loose() && bs == Entered(old(bs), Block(base, n))
      ensures !HasUpper(old(bs), base) ==> !Doubly(links, base)
    {
      OutsideIsNew(bs, Block(base, n));
      if !HasUpper(bs, base) {
        BrokenAtEnd(links, bs, base);
      }
      Enter(base, n);
    }

    /** default_free_pages: the pages go back as one block joined to its neighbours, if the list
        is empty or some free block lies above, and otherwise the list is a ring no more. */
    method FreePages(base: int, n: int)
      requires Valid() && base >= 0 && n > 0 && Outside(bs, Block(base, n))
      modifies this
      ensures HasUpper(old(bs), base) ==> Valid() && bs == Joined(old(bs), Below(old(bs), base), Block(base, n))
      ensures !HasUpper(old(bs), base) ==>
                && !Doubly(links, base)
                && links == Inserted(old(links), old(bs), base) && property == old(property)[base := n]
                && flagged == old(flagged) + {base} && nrFree == old(nrFree) + n
    {
      ghost var x, was := Block(base, n), bs;
      OutsideIsNew(bs, x);
      var p := base;
      while p != base + n
        invariant base <= p <= base + n && Valid() && bs == was
        invariant unchanged(this)
        decreases base + n - p
      {
        NotFlagged(flagged, bs, x, p);
        assert p !in flagged;
        assert flagged - {p} == flagged;
        flagged := flagged - {p};
        p := p + 1;
      }
      ghost var alone := !HasUpper(bs, base);
      if alone {
        BrokenAtEnd(links, bs, base);
      }
      Enter(base, n);
      Coalesce(base, was, x, alone);
      if !alone {
        OutsideFits(was, x);
        JoinedApart(was, x);
      }
    }
  }

  /** `base` is on a well linked list. */
  ghost predicate Doubly(l: Links, base: int) {
    exists ns: seq<int> :: HEAD in ns && base in ns && Ring(l, ns)
  }

  lemma OutsideIsNew(bs: seq<Block>, x: Block)
    requires Apart(bs) && x.units > 0 && Outside(bs, x)
    ensures !OnList(bs, x.addr)
  {
    if OnList(bs, x.addr) {
      var i :| 0 <= i < |bs| && bs[i].addr == x.addr;
      assert In(bs[i], x.addr) && In(x, x.addr);
    }
  }

  /** default_free_pages finds no PG_property on the pages that it is given. */
  lemma NotFlagged(flagged: set<int>, bs: seq<Block>, x: Block, p: int)
    requires Apart(bs) && Flags(flagged, bs) && Outside(bs, x) && In(x, p)
    ensures p !in flagged
  {
    assert forall i | 0 <= i < |bs| && bs[i].addr == p :: In(bs[i], p);
  }

  /** Without a free block above, the insertion leaves an entry that is its own predecessor. */
  lemma BrokenAtEnd(l: Links, bs: seq<Block>, base: int)
    requires Ring(l, Names(bs)) && Apart(bs) && base >= 0 && !HasUpper(bs, base) && !OnList(bs, base)
    ensures var l' := Inserted(l, bs, base);
            && base in l'.prev && base in l'.next && l'.prev[base] == base && l'.next[base] == HEAD
            && !Doubly(l', base)
  {
    BelowSplits(bs, base);
    assert RingAt(l, Names(bs), |bs|);
    var l' := Inserted(l, bs, base);
    forall ns: seq<int> | HEAD in ns && base in ns ensures !Ring(l', ns) {
      NoRing(l', ns, base);
    }
  }

  lemma NoRing(l: Links, ns: seq<int>, base: int)
    requires HEAD in ns && base in ns && base != HEAD && base in l.prev && l.prev[base] == base
    ensures !Ring(l, ns)
  {
    var i :| 0 <= i < |ns| && ns[i] == base;
    var h :| 0 <= h < |ns| && ns[h] == HEAD;
    var p := if i == 0 then |ns| - 1 else i - 1;
    assert RingAt(l, ns, p) ==> ns[p] == base;
  }

  /** What the broken entry costs: when such a block is allocated, list_del leaves it listed. */
  lemma TakenButListed(l: Links, bs: seq<Block>, base: int)
    requires Ring(l, Names(bs)) && Apart(bs) && base >= 0 && !HasUpper(bs, base) && !OnList(bs, base)
    ensures var l' := Inserted(l, bs, base);
            && base in l'.prev && base in l'.next && bs[|bs| - 1].addr in l'.next
            && ListDel(l', l'.prev[base], l'.next[base]).next[bs[|bs| - 1].addr] == base
  {
    BelowSplits(bs, base);
    assert RingAt(l, Names(bs), |bs|);
  }

  /** Memory of `n` pages. */
  method NewArea(n: int) returns (f: FreeArea)
    requires n > 0
    ensures fresh(f) && f.Valid() && f.bs == [Block(0, n)]
  {
    f := new FreeArea();
    f.InitMemmap(0, n);
    assert Entered([], Block(0, n)) == [Block(0, n)];
  }

  /** The first page of the only block. */
  method TakeFirst(f: FreeArea, a: int, n: int) returns (page: int)
    requires f.Valid() && n > 0 && f.bs == [Block(a, n)]
    modifies f
    ensures f.Valid() && page == a && f.bs == if n == 1 then [] else [Block(a + 1, n - 1)]
  {
    assert f.bs[0].units >= 1;
    var ok, p, j := f.AllocPages(1);
    page := p;
  }

  /** All pages are allocated one by one. */
  method TakeAll(f: FreeArea, n: int)
    requires f.Valid() && n > 0 && f.bs == [Block(0, n)]
    modifies f
    ensures f.Valid() && f.bs == []
  {
    var i := 0;
    while i < n
      invariant 0 <= i <= n && f.Valid() && f.bs == if i == n then [] else [Block(i, n - i)]
    {
      var page := TakeFirst(f, i, n - i);
      assert page == i;
      i := i + 1;
    }
  }

  /** When page 0 is freed first and then the last page, the list is broken. */
  method FreeFirstAndLast(n: int) returns (f: FreeArea)
    requires n >= 2
    ensures fresh(f) && !Doubly(f.links, n - 1)
  {
    f := NewArea(n);
    TakeAll(f, n);
    f.FreePages(0, 1);
    assert f.bs == [Block(0, 1)];
    f.FreePages(n - 1, 1);
  }

  /** After an allocation, freeing the pages again finds a block above, or an empty list, unless
      they were the whole of the last of several blocks. */
  lemma ReturnFindsUpper(bs: seq<Block>, j: nat, n: int)
    requires Apart(bs) && j < |bs| && 0 < n <= bs[j].units
    ensures HasUpper(Taken(bs, j, n), bs[j].addr) <==> bs[j].units > n || j + 1 < |bs| || |bs| == 1
  {
    var cs := Taken(bs, j, n);
    if j + 1 < |bs| {
      assert cs[|cs| - 1] == bs[|bs| - 1];
    } else if bs[j].units == n && j > 0 {
      assert cs[|cs| - 1] == bs[j - 1];
    }
  }

  /** What the records say around the `k`-th block. */
  lemma EntryAt(l: Links, property: map<int, int>, bs: seq<Block>, k: nat)
    requires Shape(l, property, bs) && k < |bs|
    ensures var a := bs[k].addr;
            && a >= 0 && a in l.prev && a in l.next && Sized(property, bs[k])
            && l.prev[a] == (if k == 0 then HEAD else bs[k - 1].addr)
            && l.next[a] == (if k + 1 == |bs| then HEAD else bs[k + 1].addr)
            && (k > 0 ==> Sized(property, bs[k - 1]))
            && (k + 1 < |bs| ==> Sized(property, bs[k + 1]))
  {
    assert RingAt(l, Names(bs), k) && RingAt(l, Names(bs), k + 1);
  }

  /** A free block put in its place, joined to nothing. */
  function Entered(bs: seq<Block>, x: Block): seq<Block> {
    var k := Below(bs, x.addr);
    bs[..k] + [x] + bs[k..]
  }

  lemma EnteredShape(l: Links, property: map<int, int>, bs: seq<Block>, x: Block)
    requires Shape(l, property, bs) && x.addr >= 0 && !OnList(bs, x.addr)
    ensures Shape(InOrder(l, bs, x.addr), property[x.addr := x.units], Entered(bs, x))
  {
    ListedShape(l, property, bs, Below(bs, x.addr), x);
  }

  lemma EnteredFlags(flagged: set<int>, bs: seq<Block>, x: Block)
    requires Flags(flagged, bs)
    ensures Flags(flagged + {x.addr}, Entered(bs, x))
  {
    var k, cs := Below(bs, x.addr), Entered(bs, x);
    forall a ensures OnList(cs, a) <==> OnList(bs, a) || a == x.addr {
      if OnList(cs, a) {
        var i :| 0 <= i < |cs| && cs[i].addr == a;
        assert i != k ==> cs[i] == bs[if i < k then i else i - 1];
      }
      if OnList(bs, a) {
        var m :| 0 <= m < |bs| && bs[m].addr == a;
        assert cs[if m < k then m else m + 1] == bs[m];
      }
      assert cs[k] == x;
    }
  }

  lemma TotalEntered(bs: seq<Block>, x: Block)
    ensures Total(Entered(bs, x)) == Total(bs) + x.units
  {
    var k := Below(bs, x.addr);
    TotalReplaced(bs, k, [x], k);
    assert bs[k..k] == [];
  }

  /** The list after the first merge of default_free_pages, and where the freed block is in it. */
  function Lowered(bs: seq<Block>, x: Block): seq<Block> {
    var k := Below(bs, x.addr);
    if Down(bs, k, x) then Fused(Entered(bs, x), k - 1) else Entered(bs, x)
  }

  function LoweredAt(bs: seq<Block>, x: Block): nat {
    var k := Below(bs, x.addr);
    if Down(bs, k, x) then k - 1 else k
  }

  lemma LoweredIs(bs: seq<Block>, x: Block)
    ensures var k, i := Below(bs, x.addr), LoweredAt(bs, x);
            Lowered(bs, x) ==
            bs[..i] + [Block(if i < k then bs[i].addr else x.addr,
                (if i < k then bs[i].units else 0) + x.units)] + bs[k..]
  {
    var k, mid := Below(bs, x.addr), Entered(bs, x);
    if Down(bs, k, x) {
      assert mid[k - 1] == bs[k - 1] && mid[k] == x;
      assert mid[..k - 1] == bs[..k - 1] && mid[k + 1..] == bs[k..];
    }
  }

  /** The two merges make the joined list. */
  lemma {:induction false} MergesJoin(bs: seq<Block>, x: Block)
    ensures var k, cs, i := Below(bs, x.addr), Lowered(bs, x), LoweredAt(bs, x);
            && i < |cs| && cs[i].addr + cs[i].units == x.addr + x.units
            && (i + 1 < |cs| <==> k < |bs|)
            && (k < |bs| ==> cs[i + 1] == bs[k])
            && Joined(bs, k, x) == if Up(bs, k, x) then Fused(cs, i) else cs
  {
    var k, cs, i := Below(bs, x.addr), Lowered(bs, x), LoweredAt(bs, x);
    LoweredIs(bs, x);
    if Up(bs, k, x) {
      SliceAround(bs[..i], cs[i], bs[k..]);
    }
  }

  lemma {:induction false} SliceAround(p: seq<Block>, b: Block, q: seq<Block>)
    requires q != []
    ensures (p + [b] + q)[..|p|] == p && (p + [b] + q)[|p| + 2..] == q[1..]
  {
  }

  /** The links after the insertion loop.  When no free block lies above, the loop goes on after
      it has put `base` at the end, meets `base` itself, and puts it in again behind itself. */
  ghost function Inserted(l: Links, bs: seq<Block>, base: int): Links
    requires Ring(l, Names(bs))
  {
    var good := InOrder(l, bs, base);
    if HasUpper(bs, base) then good else Links(good.next, good.prev[base := base])
  }

  /** Two neighbours made one. */
  function Fused(bs: seq<Block>, i: nat): seq<Block>
    requires i + 1 < |bs|
  {
    bs[..i] + [Block(bs[i].addr, bs[i].units + bs[i + 1].units)] + bs[i + 2..]
  }

  lemma FusedShape(l: Links, property: map<int, int>, bs: seq<Block>, i: nat)
    requires Shape(l, property, bs) && i + 1 < |bs|
    ensures var p, q := bs[i].addr, bs[i + 1].addr;
            && p in property && q in property && q in l.prev && q in l.next
            && Shape(ListDel(l, l.prev[q], l.next[q]), property[p := property[p] + property[q]], Fused(bs, i))
  {
    RingDelBlock(l, bs, i + 1);
    assert Names(bs[..i + 1] + bs[i + 2..]) == Names(Fused(bs, i));
    FusedSized(property, bs, i);
  }

  lemma FusedSized(property: map<int, int>, bs: seq<Block>, i: nat)
    requires AllSized(property, bs) && Distinct(Names(bs)) && i + 1 < |bs|
    ensures var p, q := bs[i].addr, bs[i + 1].addr;
            && p in property && q in property
            && AllSized(property[p := property[p] + property[q]], Fused(bs, i))
  {
    var p, q, cs := bs[i].addr, bs[i + 1].addr, Fused(bs, i);
    assert Sized(property, bs[i]) && Sized(property, bs[i + 1]);
    var property' := property[p := property[p] + property[q]];
    forall m | 0 <= m < |cs| ensures Sized(property', cs[m]) {
      if m != i {
        var m' := if m < i then m else m + 1;
        assert cs[m] == bs[m'] && Sized(property, bs[m']);
        assert Names(bs)[m' + 1] != Names(bs)[i + 1];
      }
    }
  }

  lemma FusedFlags(flagged: set<int>, bs: seq<Block>, i: nat)
    requires Flags(flagged, bs) && Distinct(Names(bs)) && i + 1 < |bs|
    ensures Flags(flagged - {bs[i + 1].addr}, Fused(bs, i))
  {
    var q, cs := bs[i + 1].addr, Fused(bs, i);
    forall a ensures OnList(cs, a) <==> OnList(bs, a) && a != q {
      if OnList(cs, a) {
        var m :| 0 <= m < |cs| && cs[m].addr == a;
        var m' := if m <= i then m else m + 1;
        assert bs[m'].addr == a;
        assert Names(bs)[m' + 1] != Names(bs)[i + 2];
      }
      if OnList(bs, a) && a != q {
        var m' :| 0 <= m' < |bs| && bs[m'].addr == a;
        assert cs[if m' <= i then m' else m' - 1].addr == a;
      }
    }
  }

  lemma TotalFused(bs: seq<Block>, i: nat)
    requires i + 1 < |bs|
    ensures Total(Fused(bs, i)) == Total(bs)
  {
    TotalReplaced(bs, i, [Block(bs[i].addr, bs[i].units + bs[i + 1].units)], i + 2);
    assert bs[i..i + 2] == [bs[i]] + [bs[i + 1]];
    TotalConcat([bs[i]], [bs[i + 1]]);
  }

  /** `base` put in where it belongs. */
  ghost function InOrder(l: Links, bs: seq<Block>, base: int): Links
    requires Ring(l, Names(bs))
  {
    var p := Names(bs)[Below(bs, base)];
    assert RingAt(l, Names(bs), Below(bs, base));
    ListAdd(l, base, p, l.next[p])
  }

  ghost predicate Scanning(l0: Links, l: Links, bs: seq<Block>, base: int, le: int, j: nat)
    requires Ring(l0, Names(bs))
  {
    && le in l.next && le in l.prev
    && if j < |bs| then l == l0 && le == bs[j].addr && j <= Below(bs, base)
       else
         && !HasUpper(bs, base)
         && if j == |bs| then l == InOrder(l0, bs, base) && le == base
            else j == |bs| + 1 && l == Inserted(l0, bs, base) && le == HEAD
  }

  lemma ScanStops(l: Links, bs: seq<Block>, base: int, j: nat)
    requires Ring(l, Names(bs)) && Apart(bs) && !OnList(bs, base)
    requires j < |bs| && j <= Below(bs, base) && base < bs[j].addr
    ensures HasUpper(bs, base) && bs[j].addr in l.prev
    ensures ListAdd(l, base, l.prev[bs[j].addr], bs[j].addr) == InOrder(l, bs, base)
  {
    BelowSplits(bs, base);
    assert RingAt(l, Names(bs), j);
  }

  lemma ScanReachesEnd(l0: Links, l: Links, bs: seq<Block>, base: int, le: int, j: nat)
    requires Ring(l0, Names(bs)) && Apart(bs) && base >= 0 && !OnList(bs, base)
    requires Scanning(l0, l, bs, base, le, j) && le != HEAD && le <= base && l.next[le] == HEAD
    ensures var l' := ListAdd(l, base, le, HEAD);
            le in l'.next && Scanning(l0, l', bs, base, l'.next[le], j + 1)
  {
    BelowSplits(bs, base);
    assert RingAt(l0, Names(bs), |bs|) && RingAt(l0, Names(bs), 0);
    if j < |bs| {
      assert RingAt(l0, Names(bs), j + 1);
      assert j + 1 == |bs|;
    }
  }

  lemma ScanGoesOn(l0: Links, l: Links, bs: seq<Block>, base: int, le: int, j: nat)
    requires Ring(l0, Names(bs)) && Apart(bs) && base >= 0 && !OnList(bs, base)
    requires Scanning(l0, l, bs, base, le, j) && le != HEAD && le <= base && l.next[le] != HEAD
    ensures Scanning(l0, l, bs, base, l.next[le], j + 1)
  {
    BelowSplits(bs, base);
    assert RingAt(l0, Names(bs), |bs|);
    if j < |bs| {
      assert RingAt(l0, Names(bs), j + 1);
      assert j + 1 < |bs| && Names(bs)[j + 2] == bs[j + 1].addr;
      assert RingAt(l0, Names(bs), j + 2);
      assert bs[j].addr < base;
    }
  }

  lemma NamesWithout(bs: seq<Block>, j: nat)
    requires j < |bs|
    ensures Names(bs)[..j + 1] + Names(bs)[j + 2..] == Names(bs[..j] + bs[j + 1..])
  {
  }

  /** list_del of the entry of block `j`. */
  lemma RingDelBlock(l: Links, bs: seq<Block>, j: nat)
    requires Ring(l, Names(bs)) && j < |bs|
    ensures var a := bs[j].addr;
            && a in l.prev && a in l.next && l.prev[a] == Names(bs)[j]
            && Ring(ListDel(l, l.prev[a], l.next[a]), Names(bs[..j] + bs[j + 1..]))
  {
    var ns := Names(bs);
    assert RingAt(l, ns, j) && RingAt(l, ns, j + 1);
    RingDel(l, ns, j + 1);
    NamesWithout(bs, j);
  }

  /** list_add of a new entry behind the `k`-th. */
  lemma RingAddBlock(l: Links, bs: seq<Block>, k: nat, x: Block)
    requires Ring(l, Names(bs)) && k <= |bs| && x.addr !in Names(bs)
    ensures var p := Names(bs)[k];
            && p in l.next && l.next[p] == Names(bs)[Succ(k, |bs| + 1)]
            && Ring(ListAdd(l, x.addr, p, l.next[p]), Names(bs[..k] + [x] + bs[k..]))
  {
    var ns := Names(bs);
    assert RingAt(l, ns, k);
    RingAdd(l, ns, k, x.addr);
    assert ns[..k + 1] + [x.addr] + ns[k + 1..] == Names(bs[..k] + [x] + bs[k..]);
  }

  /** An address inside a block is not the start of one. */
  lemma InnerIsNew(property: map<int, int>, bs: seq<Block>, j: nat, n: int)
    requires Apart(bs) && AllSized(property, bs) && j < |bs| && 0 < n < bs[j].units
    ensures bs[j].addr + n !in Names(bs[..j] + bs[j + 1..])
  {
    var cs := bs[..j] + bs[j + 1..];
    assert Sized(property, bs[j]);
    forall i | 0 <= i < |cs| ensures cs[i].addr != bs[j].addr + n {
      assert cs[i] == bs[if i < j then i else i + 1];
    }
  }

  /** The list without block `j`. */
  lemma WithoutShape(l: Links, property: map<int, int>, bs: seq<Block>, j: nat)
    requires Shape(l, property, bs) && j < |bs|
    ensures var page, ds := bs[j].addr, bs[..j] + bs[j + 1..];
            && page in l.prev && page in l.next && l.prev[page] == Names(ds)[j]
            && Shape(ListDel(l, l.prev[page], l.next[page]), property, ds)
  {
    var ds := bs[..j] + bs[j + 1..];
    RingDelBlock(l, bs, j);
    assert Names(ds)[j] == Names(bs)[j];
    forall i | 0 <= i < |ds| ensures Sized(property, ds[i]) {
      assert ds[i] == bs[if i < j then i else i + 1];
    }
  }

  /** What is left of block `j` takes its place. */
  lemma TakenIs(property: map<int, int>, bs: seq<Block>, j: nat, n: int)
    requires Apart(bs) && AllSized(property, bs) && j < |bs| && 0 < n <= bs[j].units
    ensures var ds, rest := bs[..j] + bs[j + 1..], Block(bs[j].addr + n, bs[j].units - n);
            && Sized(property, bs[j]) && |ds| == |bs| - 1
            && (bs[j].units == n ==> Taken(bs, j, n) == ds)
            && (bs[j].units > n ==> rest.addr !in Names(ds) && Taken(bs, j, n) == ds[..j] + [rest] + ds[j..])
  {
    if bs[j].units > n {
      InnerIsNew(property, bs, j, n);
    }
  }

  lemma ListedShape(l: Links, property: map<int, int>, bs: seq<Block>, k: nat, x: Block)
    requires Shape(l, property, bs) && k <= |bs| && x.addr >= 0 && x.addr !in Names(bs)
    ensures var p := Names(bs)[k];
            && p in l.next
            && Shape(ListAdd(l, x.addr, p, l.next[p]), property[x.addr := x.units], bs[..k] + [x] + bs[k..])
  {
    RingAddBlock(l, bs, k, x);
    var cs, property' := bs[..k] + [x] + bs[k..], property[x.addr := x.units];
    forall i | 0 <= i < |cs| ensures Sized(property', cs[i]) {
      if i != k {
        var m := if i < k then i else i - 1;
        assert cs[i] == bs[m] && Sized(property, bs[m]);
        assert Names(bs)[m + 1] != x.addr;
      }
    }
  }

  lemma TakenFlags(flagged: set<int>, bs: seq<Block>, j: nat, n: int)
    requires Apart(bs) && Flags(flagged, bs) && j < |bs| && 0 < n <= bs[j].units
    ensures bs[j].units == n ==> Flags(flagged - {bs[j].addr}, Taken(bs, j, n))
    ensures bs[j].units > n ==> Flags(flagged + {bs[j].addr + n} - {bs[j].addr}, Taken(bs, j, n))
  {
    forall a ensures OnList(Taken(bs, j, n), a) <==>
                       (OnList(bs, a) && a != bs[j].addr) || (bs[j].units > n && a == bs[j].addr + n) {
      TakenStarts(bs, j, n, a);
    }
  }

  lemma StartsOnly(bs: seq<Block>, j: nat, n: int, a: int)
    requires Apart(bs) && j < |bs| && 0 < n <= bs[j].units && OnList(Taken(bs, j, n), a)
    ensures (OnList(bs, a) && a != bs[j].addr) || (bs[j].units > n && a == bs[j].addr + n)
  {
    var m: nat :| m < |Taken(bs, j, n)| && Taken(bs, j, n)[m].addr == a;
    TakenAt(bs, j, n, m);
  }

  lemma StartsAll(bs: seq<Block>, j: nat, n: int, a: int)
    requires j < |bs| && 0 < n <= bs[j].units
    requires (OnList(bs, a) && a != bs[j].addr) || (bs[j].units > n && a == bs[j].addr + n)
    ensures OnList(Taken(bs, j, n), a)
  {
    var m: nat;
    if bs[j].units > n && a == bs[j].addr + n {
      m := j;
    } else {
      var i: nat :| i < |bs| && bs[i].addr == a;
      m := if i < j || bs[j].units > n then i else i - 1;
    }
    TakenAt(bs, j, n, m);
    assert Taken(bs, j, n)[m].addr == a;
  }

  /** The starts of free blocks after an allocation. */
  lemma TakenStarts(bs: seq<Block>, j: nat, n: int, a: int)
    requires Apart(bs) && j < |bs| && 0 < n <= bs[j].units
    ensures OnList(Taken(bs, j, n), a) <==>
              (OnList(bs, a) && a != bs[j].addr) || (bs[j].units > n && a == bs[j].addr + n)
  {
    if OnList(Taken(bs, j, n), a) {
      StartsOnly(bs, j, n, a);
    } else if (OnList(bs, a) && a != bs[j].addr) || (bs[j].units > n && a == bs[j].addr + n) {
      StartsAll(bs, j, n, a);
    }
  }
}
