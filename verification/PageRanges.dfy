/**
 The loops of kern/mm/pmm.c over ranges of user pages: unmap_range, and copy_range, which gives a
 forked child its own copy of each page of the parent.
 */
module PageRanges {
  import opened Options
  import opened PageTable

  const USERBASE := 0x20_0000
  const USERTOP := 0x8000_0000
  const PTE_USER: bv10 := 0x01F

  /** What unmap_range and copy_range assert of their arguments. */
  predicate UserRange(start: nat, end: nat) {
    && start % PGSIZE == 0 && end % PGSIZE == 0
    && USERBASE <= start < end <= USERTOP
  }

  /** The page of `a` is one of those from `lo` to `hi`. */
  predicate InPages(a: nat, lo: nat, hi: nat) {
    lo / PGSIZE <= Vpn(a) < hi / PGSIZE
  }

  function Min(a: nat, b: nat): nat {
    if a < b then a else b
  }

  /** ROUNDDOWN(la + PTSIZE, PTSIZE). */
  function NextTable(la: nat): (n: nat)
    ensures la < n <= la + PTSIZE && n % PGSIZE == 0
  {
    (la / PTSIZE + 1) * PTSIZE
  }

  function NextPage(la: nat, end: nat): (n: nat)
    requires la % PGSIZE == 0 && end % PGSIZE == 0 && la < end
    ensures la < n <= end && n % PGSIZE == 0 && n == la + PGSIZE
  {
    la + PGSIZE
  }

  lemma UserPages(la: nat)
    requires la < USERTOP
    ensures User(la) && Vpn(la) == la / PGSIZE
  {
  }

  /** Up to the next table, the upper indices stay the same. */
  lemma SameTable(la: nat, a: nat)
    requires la < USERTOP && InPages(a, la, NextTable(la))
    ensures Pdx1(a) == Pdx1(la) && Pdx0(a) == Pdx0(la)
  {
    VpnParts(a);
    VpnParts(la);
    UserPages(la);
    assert la / PTSIZE == la / PGSIZE / 512;
    assert NextTable(la) / PGSIZE == (la / PTSIZE + 1) * 512;
    assert Vpn(a) / 512 == Vpn(la) / 512;
    assert Vpn(a) / 512 == Pdx1(a) * 0x200 + Pdx0(a);
    assert Vpn(la) / 512 == Pdx1(la) * 0x200 + Pdx0(la);
  }

  /** Where the table for `la` is missing, nothing is mapped up to the next table. */
  lemma SkipIsSafe(ts: Tables, root: nat, la: nat, a: nat)
    requires la < USERTOP && Walk(ts, root, la).None? && InPages(a, la, NextTable(la))
    ensures Mapped(ts, root, a).None?
  {
    SameTable(la, a);
  }

  /** Going on by one page, or to the next table, reaches just the pages in between. */
  lemma InPagesSplit(a: nat, lo: nat, mid: nat, hi: nat)
    requires lo <= mid <= hi
    ensures InPages(a, lo, hi) <==> InPages(a, lo, mid) || InPages(a, mid, hi)
  {
  }

  lemma InOnePage(a: nat, la: nat)
    requires la < USERTOP && la % PGSIZE == 0
    ensures InPages(a, la, la + PGSIZE) <==> Vpn(a) == Vpn(la)
  {
    UserPages(la);
  }

  // ----- unmap_range --------------------------------------------------------------------------

  /** Of the address space `root`, exactly the pages from `lo` to `hi` are gone. */
  ghost predicate Unmapped(ts: Tables, tree: Tree, ts': Tables, root: nat, lo: nat, hi: nat) {
    forall r: nat, a: nat | IsRoot(tree, r) && User(a) ::
      Mapped(ts', r, a) == if r == root && InPages(a, lo, hi) then None else Mapped(ts, r, a)
  }

  lemma UnmapSkips(ts: Tables, tree: Tree, ts': Tables, root: nat, lo: nat, la: nat, end: nat)
    requires Unmapped(ts, tree, ts', root, lo, la) && lo <= la < end <= USERTOP && Walk(ts', root, la).None?
    ensures Unmapped(ts, tree, ts', root, lo, Min(NextTable(la), end))
  {
    var la' := Min(NextTable(la), end);
    forall r: nat, a: nat | IsRoot(tree, r) && User(a)
      ensures Mapped(ts', r, a) == if r == root && InPages(a, lo, la') then None else Mapped(ts, r, a) {
      InPagesSplit(a, lo, la, la');
      InPagesSplit(a, la, la', NextTable(la));
      if r == root && InPages(a, la, la') {
        SkipIsSafe(ts', root, la, a);
      }
    }
  }

  lemma UnmapOne(ts: Tables, tree: Tree, ts1: Tables, ts2: Tables, root: nat, lo: nat, la: nat)
    requires Unmapped(ts, tree, ts1, root, lo, la) && lo <= la < USERTOP && la % PGSIZE == 0
    requires MapsUpdated(ts1, tree, ts2, root, la, None)
    ensures Unmapped(ts, tree, ts2, root, lo, la + PGSIZE)
  {
    forall r: nat, a: nat | IsRoot(tree, r) && User(a)
      ensures Mapped(ts2, r, a) == if r == root && InPages(a, lo, la + PGSIZE) then None else Mapped(ts, r, a) {
      InPagesSplit(a, lo, la, la + PGSIZE);
      InOnePage(a, la);
    }
  }

  lemma RemovedTransitive(p: Phys, q: Phys, r: Phys)
    requires OnlyRemoved(p, q) && OnlyRemoved(q, r)
    ensures OnlyRemoved(p, r)
  {
    forall g ensures Dropped(p, r, g) <==> Dropped(p, q, g) || Dropped(q, r, g) {
      assert Users(q.ts, q.tree, g) <= Users(p.ts, p.tree, g);
    }
  }

  /** The turn of the loop of unmap_range at `la`. */
  method UnmapTurn(m: Memory, root: nat, la: nat, end: nat, ghost p: Phys, ghost lo: nat) returns (next: nat)
    requires m.Valid() && IsRoot(m.tree, root) && m.tree == p.tree
    requires lo <= la < end <= USERTOP && la % PGSIZE == 0 && end % PGSIZE == 0
    requires Unmapped(p.ts, p.tree, m.tables, root, lo, la) && OnlyRemoved(p, m.State())
    modifies m`tables, m`ref, m`free, m`tree
    ensures m.Valid() && m.tree == p.tree && la < next && next % PGSIZE == 0
    ensures Unmapped(p.ts, p.tree, m.tables, root, lo, Min(next, end)) && OnlyRemoved(p, m.State())
  {
    UserPages(la);
    ghost var was := m.State();
    var ptep := m.GetPte(root, la, false);
    if ptep.None? {
      UnmapSkips(p.ts, p.tree, m.tables, root, lo, la, end);
      return NextTable(la);
    }
    RemoveEffect(m.State(), root, la);
    if At(m.tables, ptep.value) != EMPTY {
      m.RemovePte(ptep.value);
    }
    UnmapOne(p.ts, p.tree, was.ts, m.tables, root, lo, la);
    RemovedTransitive(p, was, m.State());
    next := NextPage(la, end);
  }

  /** unmap_range: the pages of the range are unmapped, and frames freed when no entry is left. */
  method UnmapRange(m: Memory, root: nat, start: nat, end: nat)
    requires m.Valid() && IsRoot(m.tree, root) && UserRange(start, end)
    modifies m`tables, m`ref, m`free, m`tree
    ensures m.Valid() && m.tree == old(m.tree)
    ensures Unmapped(old(m.tables), m.tree, m.tables, root, start, end)
    ensures OnlyRemoved(old(m.State()), m.State())
  {
    var la := start;
    while la != 0 && la < end
      invariant start <= la && la % PGSIZE == 0
      invariant m.Valid() && m.tree == old(m.tree)
      invariant Unmapped(old(m.tables), m.tree, m.tables, root, start, Min(la, end))
      invariant OnlyRemoved(old(m.State()), m.State())
      decreases end - la
    {
      la := UnmapTurn(m, root, la, end, old(m.State()), start);
    }
  }

  // ----- copy_range ---------------------------------------------------------------------------

  datatype Outcome = Copied | NoMemory | Panicked

  type Contents = map<nat, Bytes>

  /** At `a` the address space `to` has its own copy of the page that `e` names. */
  ghost predicate OwnCopy(pd: Contents, e: Entry, q: Phys, qd: Contents, to: nat, a: nat) {
    && Mapped(q.ts, to, a).Some? && Walk(q.ts, to, a).Some?
    && var e' := Mapped(q.ts, to, a).value;
       && e' == PteCreate(e'.ppn, PTE_V | (e.flags & PTE_USER))
       && e.ppn in pd && e'.ppn in qd && qd[e'.ppn] == pd[e.ppn]
       && Users(q.ts, q.tree, e'.ppn) == {Walk(q.ts, to, a).value}
  }

  /** What copy_range makes of the page of `a`, from the state `p` to the state `q`. */
  ghost predicate PageDone(p: Phys, pd: Contents, q: Phys, qd: Contents, to: nat, from: nat, a: nat) {
    match Mapped(p.ts, from, a)
    case None => Mapped(q.ts, to, a) == Mapped(p.ts, to, a)
    case Some(e) => OwnCopy(pd, e, q, qd, to, a)
  }

  ghost predicate PagesDone(p: Phys, pd: Contents, q: Phys, qd: Contents, to: nat, from: nat, lo: nat, hi: nat) {
    forall a: nat | User(a) && InPages(a, lo, hi) :: PageDone(p, pd, q, qd, to, from, a)
  }

  /** The other pages of `to`, and all of every other address space, are mapped as before. */
  ghost predicate OthersKept(p: Phys, q: Phys, to: nat, lo: nat, hi: nat) {
    forall r: nat, a: nat | IsRoot(p.tree, r) && User(a) && (r != to || !InPages(a, lo, hi)) ::
      Mapped(q.ts, r, a) == Mapped(p.ts, r, a)
  }

  /** No other address space sees a byte change, nor does `to` outside the range. */
  ghost predicate ContentsKept(p: Phys, pd: Contents, qd: Contents, to: nat, lo: nat, hi: nat) {
    forall r: nat, a: nat | IsRoot(p.tree, r) && User(a)
        && (r != to || !InPages(a, lo, hi)) :: SameBytes(p, pd, qd, r, a)
  }

  ghost predicate SameBytes(p: Phys, pd: Contents, qd: Contents, r: nat, a: nat) {
    Mapped(p.ts, r, a).Some? ==>
      var g := Mapped(p.ts, r, a).value.ppn;
      g in pd && g in qd && qd[g] == pd[g]
  }

  ghost predicate CopyInv(p: Phys, pd: Contents, q: Phys, qd: Contents, to: nat, from: nat, lo: nat, hi: nat) {
    && RootsKept(p.tree, q.tree) && PagesDone(p, pd, q, qd, to, from, lo, hi)
    && OthersKept(p, q, to, lo, hi) && ContentsKept(p, pd, qd, to, lo, hi)
  }

  /** One page of copy_range: `npage`, which nobody used, is a copy of `src` mapped at `la`. */
  ghost predicate PageCopied(q: Phys, qd: Contents, r: Phys, rd: Contents, to: nat, la: nat, perm: bv10, src: nat,
          npage: nat) {
    && RootsKept(q.tree, r.tree) && WalksKept(q.ts, q.tree, r.ts) && Walk(r.ts, to, la).Some?
    && MapsUpdated(q.ts, q.tree, r.ts, to, la, Some(PteCreate(npage, PTE_V | perm)))
    && UsersUpdated(q, r, Walk(r.ts, to, la).value, npage) && Users(q.ts, q.tree, npage) == {}
    && src in qd && rd == qd[npage := qd[src]]
  }

  /** How a page of copy_range ends with `n` free frames, when `k` tables are missing in the child:
      get_pte fails, there is no frame for the page, whose assert fails, or all is well. */
  function PageOutcome(n: nat, k: nat): Outcome {
    if n < k then NoMemory else if n == k then Panicked else Copied
  }

  /** The tables for `la` are there, and if it was not mapped before, `n` frames have been taken. */
  ghost predicate PageTaken(p: Phys, q: Phys, to: nat, la: nat, n: nat) {
    Made(p.ts, p.tree, q.ts, to, la) && (Mapped(p.ts, to, la).None? ==> |q.free| == |p.free| - n)
  }

  lemma TakenOneMore(p: Phys, q: Phys, r: Phys, to: nat, la: nat, npage: nat)
    requires npage in p.free && q == p.(free := p.free - {npage}) && PageTaken(q, r, to, la, 0)
    ensures PageTaken(p, r, to, la, 1)
  {
  }

  lemma TakenAfterMade(p: Phys, q: Phys, r: Phys, to: nat, la: nat)
    requires IsRoot(p.tree, to) && User(la) && Kept(p, q) && Made(p.ts, p.tree, q.ts, to, la)
    requires |q.free| == |p.free| - Missing(p.ts, to, la) && PageTaken(q, r, to, la, 1)
    ensures PageTaken(p, r, to, la, Missing(p.ts, to, la) + 1)
  {
    MadeThenMade(p, q, r, to, la);
  }

  lemma MappedIsUsed(ts: Tables, tree: Tree, root: nat, a: nat)
    requires Dirs(ts, tree) && IsRoot(tree, root) && User(a) && Mapped(ts, root, a).Some?
    ensures Walk(ts, root, a).Some? && Walk(ts, root, a).value in Users(ts, tree, Mapped(ts, root, a).value.ppn)
  {
    WalkEndsAtLeaf(ts, tree, root, a);
    assert Uses(ts, tree, Walk(ts, root, a).value, Mapped(ts, root, a).value.ppn);
  }

  /** A frame with one leaf entry is mapped at one page of one address space. */
  lemma OwnCopyIsPrivate(pd: Contents, e: Entry, q: Phys, qd: Contents, to: nat, a: nat, r: nat,
          b: nat)
    requires Sound(q) && OwnCopy(pd, e, q, qd, to, a) && IsRoot(q.tree, to) && IsRoot(q.tree, r) && User(a) && User(b)
    requires Mapped(q.ts, r, b).Some? && Mapped(q.ts, r, b).value.ppn == Mapped(q.ts, to, a).value.ppn
    ensures r == to && Vpn(b) == Vpn(a)
    ensures Mapped(q.ts, to, a).value.ppn in q.ref && q.ref[Mapped(q.ts, to, a).value.ppn] == 1
  {
    MappedIsUsed(q.ts, q.tree, r, b);
    MappedIsUsed(q.ts, q.tree, to, a);
    WalksApart(q.ts, q.tree, to, a, r, b);
    assert Uses(q.ts, q.tree, Walk(q.ts, to, a).value, Mapped(q.ts, to, a).value.ppn);
  }

  /** The copies made so far stay copies. */
  lemma OwnCopyStays(pd: Contents, e: Entry, q: Phys, qd: Contents, r: Phys, rd: Contents, to: nat,
          a: nat, la: nat, perm: bv10, src: nat, npage: nat)
    requires OwnCopy(pd, e, q, qd, to, a) && Sound(r) && IsRoot(q.tree, to) && User(a) && User(la)
    requires PageCopied(q, qd, r, rd, to, la, perm, src, npage) && Vpn(a) != Vpn(la)
    ensures OwnCopy(pd, e, r, rd, to, a)
  {
    var s, g := Walk(q.ts, to, a).value, Mapped(q.ts, to, a).value.ppn;
    assert Mapped(r.ts, to, a) == Mapped(q.ts, to, a) && Walk(r.ts, to, a) == Some(s);
    if Walk(r.ts, to, la) == Some(s) {
      WalksApart(r.ts, r.tree, to, a, to, la);
    }
    assert Users(r.ts, r.tree, g) == {s};
  }

  lemma OwnCopyMade(p: Phys, pd: Contents, q: Phys, qd: Contents, r: Phys, rd: Contents, to: nat,
          from: nat, a: nat, la: nat, e: Entry, npage: nat)
    requires IsRoot(p.tree, from) && IsRoot(q.tree, to) && to != from && User(a) && User(la) && Vpn(a) == Vpn(la)
    requires SameBytes(p, pd, qd, from, la) && Mapped(p.ts, from, la) == Some(e)
    requires PageCopied(q, qd, r, rd, to, la, e.flags & PTE_USER, e.ppn, npage)
    ensures PageDone(p, pd, r, rd, to, from, a)
  {
    WalkOfPage(p.ts, from, a, la);
    WalkOfPage(r.ts, to, a, la);
    assert Users(r.ts, r.tree, npage) == {Walk(r.ts, to, a).value};
  }

  lemma PagesDoneStep(p: Phys, pd: Contents, q: Phys, qd: Contents, r: Phys, rd: Contents, to: nat,
          from: nat, lo: nat, la: nat, e: Entry, npage: nat)
    requires IsRoot(p.tree, from) && IsRoot(p.tree, to) && to != from && lo <= la < USERTOP && la % PGSIZE == 0
    requires CopyInv(p, pd, q, qd, to, from, lo, la) && Sound(r)
    requires PageCopied(q, qd, r, rd, to, la, e.flags & PTE_USER, e.ppn, npage) && Mapped(p.ts, from, la) == Some(e)
    ensures PagesDone(p, pd, r, rd, to, from, lo, la + PGSIZE)
  {
    UserPages(la);
    forall a: nat | User(a) && InPages(a, lo, la + PGSIZE) ensures PageDone(p, pd, r, rd, to, from, a) {
      InPagesSplit(a, lo, la, la + PGSIZE);
      InOnePage(a, la);
      if Vpn(a) == Vpn(la) {
        assert SameBytes(p, pd, qd, from, la);
        OwnCopyMade(p, pd, q, qd, r, rd, to, from, a, la, e, npage);
      } else {
        assert PageDone(p, pd, q, qd, to, from, a);
        if Mapped(p.ts, from, a).Some? {
          OwnCopyStays(pd, Mapped(p.ts, from, a).value, q, qd, r, rd, to, a, la, e.flags & PTE_USER, e.ppn, npage);
        }
      }
    }
  }

  lemma OthersKeptStep(p: Phys, pd: Contents, q: Phys, qd: Contents, r: Phys, rd: Contents,
          to: nat, from: nat, lo: nat, la: nat, perm: bv10, src: nat, npage: nat)
    requires lo <= la < USERTOP && la % PGSIZE == 0 && Sound(q)
    requires CopyInv(p, pd, q, qd, to, from, lo, la) && PageCopied(q, qd, r, rd, to, la, perm, src, npage)
    ensures OthersKept(p, r, to, lo, la + PGSIZE) && ContentsKept(p, pd, rd, to, lo, la + PGSIZE)
  {
    forall x: nat, a: nat | IsRoot(p.tree, x) && User(a) && (x != to || !InPages(a, lo, la + PGSIZE))
      ensures Mapped(r.ts, x, a) == Mapped(p.ts, x, a) {
      InPagesSplit(a, lo, la, la + PGSIZE);
      InOnePage(a, la);
    }
    forall x: nat, a: nat | IsRoot(p.tree, x) && User(a) && (x != to || !InPages(a, lo, la + PGSIZE))
      ensures SameBytes(p, pd, rd, x, a) {
      InPagesSplit(a, lo, la, la + PGSIZE);
      assert SameBytes(p, pd, qd, x, a) && Mapped(q.ts, x, a) == Mapped(p.ts, x, a);
      if Mapped(p.ts, x, a).Some? {
        MappedIsUsed(q.ts, q.tree, x, a);
      }
    }
  }

  lemma CopyStep(p: Phys, pd: Contents, q: Phys, qd: Contents, r: Phys, rd: Contents, to: nat,
          from: nat, lo: nat, la: nat, e: Entry, npage: nat)
    requires IsRoot(p.tree, from) && IsRoot(p.tree, to) && to != from && lo <= la < USERTOP && la % PGSIZE == 0
    requires CopyInv(p, pd, q, qd, to, from, lo, la) && Sound(q) && Sound(r)
    requires PageCopied(q, qd, r, rd, to, la, e.flags & PTE_USER, e.ppn, npage) && Mapped(p.ts, from, la) == Some(e)
    ensures CopyInv(p, pd, r, rd, to, from, lo, la + PGSIZE)
  {
    PagesDoneStep(p, pd, q, qd, r, rd, to, from, lo, la, e, npage);
    OthersKeptStep(p, pd, q, qd, r, rd, to, from, lo, la, e.flags & PTE_USER, e.ppn, npage);
  }

  /** Pages that the parent does not map need no work. */
  lemma CopySkips(p: Phys, pd: Contents, q: Phys, qd: Contents, to: nat, from: nat, lo: nat,
          la: nat, hi: nat)
    requires CopyInv(p, pd, q, qd, to, from, lo, la) && lo <= la <= hi && IsRoot(p.tree, to)
             && IsRoot(p.tree, from) && to != from
    requires forall a: nat | User(a) && InPages(a, la, hi) :: Mapped(q.ts, from, a).None?
    ensures CopyInv(p, pd, q, qd, to, from, lo, hi)
  {
    forall a: nat | User(a) && InPages(a, lo, hi) ensures PageDone(p, pd, q, qd, to, from, a) {
      InPagesSplit(a, lo, la, hi);
      if InPages(a, lo, la) {
        assert PageDone(p, pd, q, qd, to, from, a);
      } else {
        assert Mapped(q.ts, from, a) == Mapped(p.ts, from, a);
      }
    }
    forall r: nat, a: nat | IsRoot(p.tree, r) && User(a) && (r != to || !InPages(a, lo, hi))
      ensures Mapped(q.ts, r, a) == Mapped(p.ts, r, a) && SameBytes(p, pd, qd, r, a) {
      InPagesSplit(a, lo, la, hi);
      assert SameBytes(p, pd, qd, r, a);
    }
  }

  lemma CopyKept(p: Phys, pd: Contents, q: Phys, qd: Contents, r: Phys, to: nat, from: nat,
          lo: nat, hi: nat)
    requires CopyInv(p, pd, q, qd, to, from, lo, hi) && Kept(q, r) && IsRoot(p.tree, to)
    ensures CopyInv(p, pd, r, qd, to, from, lo, hi)
  {
    forall a: nat | User(a) && InPages(a, lo, hi) ensures PageDone(p, pd, r, qd, to, from, a) {
      assert PageDone(p, pd, q, qd, to, from, a);
    }
  }

  /** get_pte on the child comes before the page is copied. */
  lemma CopiedAfterKept(q: Phys, m: Phys, d: Contents, r: Phys, rd: Contents, to: nat, la: nat,
          perm: bv10, src: nat, npage: nat)
    requires Kept(q, m) && PageCopied(m, d, r, rd, to, la, perm, src, npage)
    ensures PageCopied(q, d, r, rd, to, la, perm, src, npage)
  {
  }

  lemma TakenSound(m: Phys, npage: nat)
    requires Sound(m) && npage in m.free
    ensures Sound(m.(free := m.free - {npage})) && npage in m.ref && npage !in m.ts && Users(m.ts, m.tree, npage) == {}
  {
    assert forall s :: s in Users(m.ts, m.tree, npage) ==> Uses(m.ts, m.tree, s, npage);
  }

  /** A new page with the contents of `page`, entered at `la`, whose slot exists. */
  method FillPage(m: Memory, to: nat, la: nat, perm: bv10, page: nat) returns (out: Outcome, ghost npage: nat)
    requires m.Valid() && IsRoot(m.tree, to) && User(la) && Walk(m.tables, to, la).Some?
    requires page in m.data && m.ref.Keys <= m.data.Keys
    modifies m
    ensures m.Valid() && m.ref.Keys <= m.data.Keys
    ensures out == if old(m.free) == {} then Panicked else Copied
    ensures out.Copied? ==> PageCopied(old(m.State()), old(m.data), m.State(), m.data, to, la, perm, page, npage)
    ensures out.Copied? ==> PageTaken(old(m.State()), m.State(), to, la, 1)
    ensures !out.Copied? ==> m.State() == old(m.State()) && m.data == old(m.data) && m.free == {}
  {
    npage := 0;
    var got := m.AllocPage();
    if got.None? {
      return Panicked, npage;
    }
    npage := got.value;
    TakenSound(old(m.State()), npage);
    ghost var mid := m.State();
    EnterCopy(m, to, got.value, la, perm, page);
    TakenOneMore(old(m.State()), mid, m.State(), to, la, npage);
    return Copied, npage;
  }

  method EnterCopy(m: Memory, to: nat, npage: nat, la: nat, perm: bv10, page: nat)
    requires m.Valid() && IsRoot(m.tree, to) && User(la) && Walk(m.tables, to, la).Some?
    requires npage in m.ref && npage !in m.free && npage !in m.tables && Users(m.tables, m.tree, npage) == {}
    requires page in m.data && m.ref.Keys <= m.data.Keys
    modifies m
    ensures m.Valid() && m.ref.Keys <= m.data.Keys
    ensures PageCopied(old(m.State()), old(m.data), m.State(), m.data, to, la, perm, page, npage)
    ensures PageTaken(old(m.State()), m.State(), to, la, 0)
  {
    m.data := m.data[npage := m.data[page]];
    var ret := m.PageInsert(to, npage, la, perm);
    assert ret;
  }

  /** The body of the loop of copy_range for a page that the parent maps. */
  method CopyPage(m: Memory, to: nat, from: nat, la: nat, ptep: Slot) returns (out: Outcome, ghost npage: nat)
    requires m.Valid() && IsRoot(m.tree, to) && IsRoot(m.tree, from) && to != from && User(la)
    requires Walk(m.tables, from, la) == Some(ptep) && Present(At(m.tables, ptep)) && m.ref.Keys <= m.data.Keys
    modifies m
    ensures m.Valid() && m.ref.Keys <= m.data.Keys
    ensures out.Copied? ==>
              var e := At(old(m.tables), ptep);
              PageCopied(old(m.State()), old(m.data), m.State(), m.data, to, la, e.flags & PTE_USER, e.ppn, npage)
    ensures out == PageOutcome(|old(m.free)|, Missing(old(m.tables), to, la))
    ensures out.Copied? ==> PageTaken(old(m.State()), m.State(), to, la, Missing(old(m.tables), to, la) + 1)
    ensures !out.Copied? ==> Kept(old(m.State()), m.State()) && m.data == old(m.data) && m.free == {}
  {
    npage := 0;
    ghost var was := m.State();
    assert Mapped(was.ts, from, la).Some?;
    MappedIsUsed(was.ts, was.tree, from, la);
    var nptep := m.GetPte(to, la, true);
    if nptep.None? {
      return NoMemory, npage;
    }
    assert Mapped(m.tables, from, la) == Mapped(was.ts, from, la) && Walk(m.tables, from, la) == Some(ptep);
    var perm := At(m.tables, ptep).flags & PTE_USER;
    var page := At(m.tables, ptep).ppn;
    assert Uses(was.ts, was.tree, ptep, page);
    ghost var mid := m.State();
    out, npage := FillPage(m, to, la, perm, page);
    if out.Copied? {
      TakenAfterMade(was, mid, m.State(), to, la);
      CopiedAfterKept(was, mid, old(m.data), m.State(), m.data, to, la, perm, page, npage);
    }
  }

  // ----- the frames that copy_range takes -----------------------------------------------------

  /** The pages from `lo` to `hi`, by number, that the parent maps. */
  function Pages(ts: Tables, from: nat, lo: nat, hi: nat): set<nat> {
    set v: nat | lo <= v < hi && Mapped(ts, from, v * PGSIZE).Some?
  }

  /** The first and the second tables that the child lacks for the pages `vs`. */
  function NewDirs(ts: Tables, to: nat, vs: set<nat>): set<nat> {
    set v | v in vs && Missing(ts, to, v * PGSIZE) == 2 :: Pdx1(v * PGSIZE)
  }

  function NewTables(ts: Tables, to: nat, vs: set<nat>): set<nat> {
    set v | v in vs && Missing(ts, to, v * PGSIZE) >= 1 :: v / 512
  }

  /** The frames for copies of these pages: one for each page and for each table. */
  function Frames(ts: Tables, to: nat, vs: set<nat>): nat {
    |vs| + |NewDirs(ts, to, vs)| + |NewTables(ts, to, vs)|
  }

  /** The tables for page `v` that are missing when those for the pages `vs` have been made. */
  function MissingAfter(ts: Tables, to: nat, vs: set<nat>, v: nat): nat {
    var k := Missing(ts, to, v * PGSIZE);
    if v / 512 in NewTables(ts, to, vs) then 0
    else if k == 2 && Pdx1(v * PGSIZE) in NewDirs(ts, to, vs) then 1 else k
  }

  /** The upper indices of a page below USERTOP. */
  lemma PageIndices(v: nat)
    requires v < USERTOP / PGSIZE
    ensures User(v * PGSIZE) && Vpn(v * PGSIZE) == v
    ensures Pdx1(v * PGSIZE) == v / 512 / 512 && Pdx0(v * PGSIZE) == v / 512 % 512
  {
    UserPages(v * PGSIZE);
    VpnParts(v * PGSIZE);
  }

  lemma SameDirMissing(ts: Tables, to: nat, u: nat, v: nat)
    requires u < USERTOP / PGSIZE && v < USERTOP / PGSIZE && u / 512 == v / 512
    ensures Missing(ts, to, u * PGSIZE) == Missing(ts, to, v * PGSIZE) && Pdx1(u * PGSIZE) == Pdx1(v * PGSIZE)
  {
    PageIndices(u);
    PageIndices(v);
  }

  lemma SetsAdd(ts: Tables, to: nat, vs: set<nat>, v: nat)
    requires v < USERTOP / PGSIZE && forall u | u in vs :: u < USERTOP / PGSIZE
    ensures var k, ds, us := Missing(ts, to, v * PGSIZE), NewDirs(ts, to, vs), NewTables(ts, to, vs);
            && NewDirs(ts, to, vs + {v}) == (if k == 2 then ds + {Pdx1(v * PGSIZE)} else ds)
            && NewTables(ts, to, vs + {v}) == (if k >= 1 then us + {v / 512} else us)
            && (v / 512 in us ==> k >= 1 && (k == 2 ==> Pdx1(v * PGSIZE) in ds))
  {
    if v / 512 in NewTables(ts, to, vs) {
      var u :| u in vs && Missing(ts, to, u * PGSIZE) >= 1 && u / 512 == v / 512;
      SameDirMissing(ts, to, u, v);
    }
  }

  lemma CardAdd(a: set<nat>, x: nat)
    ensures |a + {x}| == |a| + if x in a then 0 else 1
  {
    if x in a {
      assert a + {x} == a;
    }
  }

  /** One more page takes a frame, and one for each table that is missing still. */
  lemma FramesAdd(ts: Tables, to: nat, vs: set<nat>, v: nat)
    requires v !in vs && v < USERTOP / PGSIZE && forall u | u in vs :: u < USERTOP / PGSIZE
    ensures Frames(ts, to, vs + {v}) == Frames(ts, to, vs) + 1 + MissingAfter(ts, to, vs, v)
  {
    SetsAdd(ts, to, vs, v);
    CardAdd(vs, v);
    CardAdd(NewDirs(ts, to, vs), Pdx1(v * PGSIZE));
    CardAdd(NewTables(ts, to, vs), v / 512);
  }

  /** The frames that copy_range takes for the pages from `lo` to `hi`, page by page. */
  function Used(ts: Tables, to: nat, from: nat, lo: nat, hi: nat): nat {
    if hi <= lo then 0 else Used(ts, to, from, lo, hi - 1) + PageCost(ts, to, from, lo, hi - 1)
  }

  function PageCost(ts: Tables, to: nat, from: nat, lo: nat, v: nat): nat {
    if Mapped(ts, from, v * PGSIZE).None? then 0 else 1 + MissingAfter(ts, to, Pages(ts, from, lo, v), v)
  }

  /** Whatever starts at nothing and grows by the cost of each page is what the copy takes. */
  lemma {:induction false} UsedIsTotal(ts: Tables, to: nat, from: nat, lo: nat, hi: nat, total: nat -> nat)
    requires lo <= hi && total(lo) == 0
    requires forall v: nat | lo <= v < hi :: total(v + 1) == total(v) + PageCost(ts, to, from, lo, v)
    ensures Used(ts, to, from, lo, hi) == total(hi)
  {
    if lo < hi {
      UsedIsTotal(ts, to, from, lo, hi - 1, total);
      assert total(hi - 1 + 1) == total(hi - 1) + PageCost(ts, to, from, lo, hi - 1);
    }
  }

  /** That is one for each page and one for each table that the child lacks. */
  lemma UsedIsFrames(ts: Tables, to: nat, from: nat, lo: nat, hi: nat)
    requires lo <= hi <= USERTOP / PGSIZE
    ensures Used(ts, to, from, lo, hi) == Frames(ts, to, Pages(ts, from, lo, hi))
  {
    var total: nat -> nat := v => Frames(ts, to, Pages(ts, from, lo, v));
    NoFrames(ts, to, Pages(ts, from, lo, lo));
    forall v: nat | lo <= v < hi ensures total(v + 1) == total(v) + PageCost(ts, to, from, lo, v) {
      FramesNext(ts, to, from, lo, v, Pages(ts, from, lo, v), Pages(ts, from, lo, v + 1));
    }
    UsedIsTotal(ts, to, from, lo, hi, total);
  }

  lemma FramesNext(ts: Tables, to: nat, from: nat, lo: nat, v: nat, vs: set<nat>, ws: set<nat>)
    requires lo <= v < USERTOP / PGSIZE && vs == Pages(ts, from, lo, v) && ws == Pages(ts, from, lo, v + 1)
    ensures Frames(ts, to, ws) == Frames(ts, to, vs) + PageCost(ts, to, from, lo, v)
  {
    PagesNext(ts, from, lo, v);
    if Mapped(ts, from, v * PGSIZE).Some? {
      FramesAdd(ts, to, vs, v);
    }
  }

  lemma NoFrames(ts: Tables, to: nat, vs: set<nat>)
    requires forall v :: v !in vs
    ensures Frames(ts, to, vs) == 0
  {
    assert vs == {} && NewDirs(ts, to, vs) == {} && NewTables(ts, to, vs) == {};
  }

  lemma PagesNext(ts: Tables, from: nat, lo: nat, v: nat)
    requires lo <= v
    ensures Pages(ts, from, lo, v + 1) ==
            if Mapped(ts, from, v * PGSIZE).Some? then Pages(ts, from, lo, v) + {v} else Pages(ts, from, lo, v)
  {
  }

  lemma {:induction false} UsedMore(ts: Tables, to: nat, from: nat, lo: nat, u: nat, v: nat)
    requires u <= v
    ensures Used(ts, to, from, lo, u) <= Used(ts, to, from, lo, v)
    decreases v
  {
    if u < v && lo < v {
      UsedMore(ts, to, from, lo, u, v - 1);
    }
  }

  lemma {:induction false} UsedSame(ts: Tables, to: nat, from: nat, lo: nat, u: nat, v: nat)
    requires lo <= u <= v && forall w: nat | u <= w < v :: Mapped(ts, from, w * PGSIZE).None?
    ensures Used(ts, to, from, lo, u) == Used(ts, to, from, lo, v) && Pages(ts, from, lo, v) == Pages(ts, from, lo, u)
    decreases v
  {
    if u < v {
      UsedSame(ts, to, from, lo, u, v - 1);
      PagesNext(ts, from, lo, v - 1);
    }
  }

  /** The child maps nothing in the range, as after setup_pgdir. */
  ghost predicate Blank(ts: Tables, to: nat, lo: nat, hi: nat) {
    forall a: nat | User(a) && InPages(a, lo, hi) :: Mapped(ts, to, a).None?
  }

  /** The tables of the child are those of `p` and those for the pages `vs`. */
  ghost predicate Ledger(p: Phys, q: Phys, to: nat, vs: set<nat>) {
    forall v: nat | v < USERTOP / PGSIZE :: LedgerAt(p, q, to, vs, v)
  }

  ghost predicate LedgerAt(p: Phys, q: Phys, to: nat, vs: set<nat>, v: nat) {
    Missing(q.ts, to, v * PGSIZE) == MissingAfter(p.ts, to, vs, v)
  }

  lemma LedgerStep(p: Phys, q: Phys, r: Phys, to: nat, vs: set<nat>, v: nat)
    requires Ledger(p, q, to, vs) && v < USERTOP / PGSIZE && forall u | u in vs :: u < USERTOP / PGSIZE
    requires IsRoot(q.tree, to) && Made(q.ts, q.tree, r.ts, to, v * PGSIZE)
    ensures Ledger(p, r, to, vs + {v})
  {
    forall w: nat | w < USERTOP / PGSIZE ensures LedgerAt(p, r, to, vs + {v}, w) {
      assert LedgerAt(p, q, to, vs, w);
      PageIndices(w);
      PageIndices(v);
      assert MadeAt(q.ts, r.ts, to, v * PGSIZE, to, w * PGSIZE);
      MissingStep(p.ts, to, vs, v, w);
    }
  }

  /** The tables for `v` serve `w` so far as they are the same. */
  lemma MissingStep(ts: Tables, to: nat, vs: set<nat>, v: nat, w: nat)
    requires v < USERTOP / PGSIZE && w < USERTOP / PGSIZE && forall u | u in vs :: u < USERTOP / PGSIZE
    ensures MissingAfter(ts, to, vs + {v}, w) == StillMissing(MissingAfter(ts, to, vs, w), v * PGSIZE, w * PGSIZE)
  {
    PageIndices(v);
    PageIndices(w);
    SetsAdd(ts, to, vs, v);
    if v / 512 == w / 512 {
      SameDirMissing(ts, to, v, w);
    }
  }

  lemma TableMissing(ts: Tables, root: nat, la: nat, end: nat)
    requires la < end <= USERTOP && Walk(ts, root, la).None?
    ensures forall a: nat | User(a) && InPages(a, la, Min(NextTable(la), end)) :: Mapped(ts, root, a).None?
  {
    forall a: nat | User(a) && InPages(a, la, Min(NextTable(la), end)) ensures Mapped(ts, root, a).None? {
      InPagesSplit(a, la, Min(NextTable(la), end), NextTable(la));
      SkipIsSafe(ts, root, la, a);
    }
  }

  lemma PageMissing(ts: Tables, root: nat, la: nat)
    requires la < USERTOP && la % PGSIZE == 0 && Mapped(ts, root, la).None?
    ensures forall a: nat | User(a) && InPages(a, la, la + PGSIZE) :: Mapped(ts, root, a).None?
  {
    forall a: nat | User(a) && InPages(a, la, la + PGSIZE) ensures Mapped(ts, root, a).None? {
      InOnePage(a, la);
      WalkOfPage(ts, root, a, la);
    }
  }

  /** The account of a copy that has come to the page `v`. */
  ghost predicate Booked(p: Phys, q: Phys, to: nat, from: nat, lo: nat, v: nat) {
    && Ledger(p, q, to, Pages(p.ts, from, lo, v))
    && |q.free| == |p.free| - Used(p.ts, to, from, lo, v)
  }

  /** The copy ends with `out` at page `v`, which the parent maps, as the free frames before it decide. */
  ghost predicate Stopped(p: Phys, to: nat, from: nat, lo: nat, v: nat, out: Outcome) {
    && lo <= v && Mapped(p.ts, from, v * PGSIZE).Some? && Used(p.ts, to, from, lo, v) <= |p.free|
    && out == PageOutcome(|p.free| - Used(p.ts, to, from, lo, v), PageCost(p.ts, to, from, lo, v) - 1) != Copied
  }

  /** A turn of copy_range at a page that the parent maps. */
  method CopyMapped(m: Memory, to: nat, from: nat, la: nat, ptep: Slot, ghost p: Phys, ghost pd: Contents,
          ghost lo: nat)
    returns (out: Outcome)
    requires m.Valid() && m.ref.Keys <= m.data.Keys && IsRoot(p.tree, to) && IsRoot(p.tree, from) && to != from
    requires lo <= la < USERTOP && la % PGSIZE == 0 && User(la) && CopyInv(p, pd, m.State(), m.data, to, from, lo, la)
    requires Walk(m.tables, from, la) == Some(ptep) && Present(At(m.tables, ptep))
    modifies m
    ensures m.Valid() && m.ref.Keys <= m.data.Keys
    ensures out.Copied? ==> CopyInv(p, pd, m.State(), m.data, to, from, lo, la + PGSIZE)
    ensures !out.Copied? ==> CopyInv(p, pd, m.State(), m.data, to, from, lo, la) && m.free == {}
    ensures out == PageOutcome(|old(m.free)|, Missing(old(m.tables), to, la))
    ensures out.Copied? ==> PageTaken(old(m.State()), m.State(), to, la, Missing(old(m.tables), to, la) + 1)
  {
    ghost var q, qd := m.State(), m.data;
    ghost var npage;
    out, npage := CopyPage(m, to, from, la, ptep);
    if out.Copied? {
      assert Mapped(p.ts, from, la) == Mapped(q.ts, from, la);
      CopyStep(p, pd, q, qd, m.State(), m.data, to, from, lo, la, At(q.ts, ptep), npage);
    } else {
      CopyKept(p, pd, q, qd, m.State(), to, from, lo, la);
    }
  }

  /** What a turn of copy_range at `la` does to the frames, from the state `q` to the state `r`. */
  ghost predicate Turned(q: Phys, r: Phys, to: nat, from: nat, la: nat, next: nat, out: Outcome) {
    if Mapped(q.ts, from, la).Some? then
      && next == la + PGSIZE && out == PageOutcome(|q.free|, Missing(q.ts, to, la))
      && (out.Copied? ==> PageTaken(q, r, to, la, Missing(q.ts, to, la) + 1))
    else
      && out.Copied? && r == q && forall a: nat | User(a) && InPages(a, la, next) :: Mapped(q.ts, from, a).None?
  }

  /** A page is entered in the account, or ends it. */
  lemma BookPage(p: Phys, q: Phys, r: Phys, to: nat, from: nat, lo: nat, v: nat, out: Outcome)
    requires lo <= v < USERTOP / PGSIZE && IsRoot(q.tree, to) && Booked(p, q, to, from, lo, v)
    requires Mapped(q.ts, to, v * PGSIZE).None? && Mapped(p.ts, from, v * PGSIZE).Some?
    requires out == PageOutcome(|q.free|, Missing(q.ts, to, v * PGSIZE))
    requires out.Copied? ==> PageTaken(q, r, to, v * PGSIZE, Missing(q.ts, to, v * PGSIZE) + 1)
    ensures out.Copied? ==> Booked(p, r, to, from, lo, v + 1)
    ensures !out.Copied? ==> Stopped(p, to, from, lo, v, out)
  {
    var vs := Pages(p.ts, from, lo, v);
    assert LedgerAt(p, q, to, vs, v);
    if out.Copied? {
      LedgerStep(p, q, r, to, vs, v);
      PagesNext(p.ts, from, lo, v);
    }
  }

  /** Before `la` nothing has changed at `la`, in the child and in the parent. */
  lemma SameAhead(p: Phys, q: Phys, to: nat, from: nat, lo: nat, la: nat, v: nat)
    requires IsRoot(p.tree, to) && IsRoot(p.tree, from) && to != from && OthersKept(p, q, to, lo, la)
    requires la / PGSIZE <= v < USERTOP / PGSIZE
    ensures Mapped(q.ts, to, v * PGSIZE) == Mapped(p.ts, to, v * PGSIZE)
    ensures Mapped(q.ts, from, v * PGSIZE) == Mapped(p.ts, from, v * PGSIZE)
  {
    PageIndices(v);
  }

  /** Pages that the parent does not map are not entered. */
  lemma BookSkips(p: Phys, q: Phys, to: nat, from: nat, lo: nat, la: nat, next: nat)
    requires IsRoot(p.tree, to) && IsRoot(p.tree, from) && to != from && lo <= la <= next <= USERTOP
    requires la % PGSIZE == 0 && next % PGSIZE == 0
    requires OthersKept(p, q, to, lo, la) && Booked(p, q, to, from, lo / PGSIZE, la / PGSIZE)
    requires forall a: nat | User(a) && InPages(a, la, next) :: Mapped(q.ts, from, a).None?
    ensures Booked(p, q, to, from, lo / PGSIZE, next / PGSIZE)
  {
    forall v: nat | la / PGSIZE <= v < next / PGSIZE ensures Mapped(p.ts, from, v * PGSIZE).None? {
      PageIndices(v);
      SameAhead(p, q, to, from, lo, la, v);
    }
    UsedSame(p.ts, to, from, lo / PGSIZE, la / PGSIZE, next / PGSIZE);
  }

  lemma BookStarts(p: Phys, to: nat, from: nat, lo: nat)
    ensures Booked(p, p, to, from, lo, lo)
  {
    var vs := Pages(p.ts, from, lo, lo);
    forall v: nat ensures LedgerAt(p, p, to, vs, v) {
      assert v / 512 !in NewTables(p.ts, to, vs) && Pdx1(v * PGSIZE) !in NewDirs(p.ts, to, vs);
    }
  }

  /** Where the child mapped nothing, it still maps nothing at `la`, and the parent what it did. */
  lemma AheadAt(p: Phys, q: Phys, to: nat, from: nat, lo: nat, la: nat, next: nat)
    requires IsRoot(p.tree, to) && IsRoot(p.tree, from) && to != from && lo <= la < next <= USERTOP
    requires la % PGSIZE == 0 == next % PGSIZE && OthersKept(p, q, to, lo, la) && Blank(p.ts, to, lo, next)
    ensures Mapped(q.ts, to, la).None? && Mapped(p.ts, from, la) == Mapped(q.ts, from, la)
  {
    PageIndices(la / PGSIZE);
    SameAhead(p, q, to, from, lo, la, la / PGSIZE);
    assert InPages(la, lo, next);
  }

  lemma BookMapped(p: Phys, q: Phys, r: Phys, to: nat, from: nat, lo: nat, la: nat, next: nat, out: Outcome)
    requires IsRoot(q.tree, to) && lo <= la < USERTOP && la % PGSIZE == 0
    requires Mapped(q.ts, to, la).None? && Mapped(p.ts, from, la) == Mapped(q.ts, from, la) != None
    requires Turned(q, r, to, from, la, next, out) && Booked(p, q, to, from, lo / PGSIZE, la / PGSIZE)
    ensures out.Copied? ==> Booked(p, r, to, from, lo / PGSIZE, la / PGSIZE + 1)
    ensures !out.Copied? ==> Stopped(p, to, from, lo / PGSIZE, la / PGSIZE, out)
  {
    var v := la / PGSIZE;
    assert la == v * PGSIZE;
    BookPage(p, q, r, to, from, lo / PGSIZE, v, out);
  }

  lemma BookTurn(p: Phys, q: Phys, r: Phys, to: nat, from: nat, lo: nat, la: nat, next: nat, out: Outcome)
    requires IsRoot(p.tree, to) && IsRoot(p.tree, from) && to != from && lo <= la < next <= USERTOP
    requires la % PGSIZE == 0 && next % PGSIZE == 0 && RootsKept(p.tree, q.tree) && OthersKept(p, q, to, lo, la)
    requires Blank(p.ts, to, lo, next) && Turned(q, r, to, from, la, next, out)
    requires Booked(p, q, to, from, lo / PGSIZE, la / PGSIZE)
    ensures out.Copied? ==> Booked(p, r, to, from, lo / PGSIZE, next / PGSIZE)
    ensures !out.Copied? ==> Stopped(p, to, from, lo / PGSIZE, la / PGSIZE, out)
  {
    if Mapped(q.ts, from, la).Some? {
      AheadAt(p, q, to, from, lo, la, next);
      BookMapped(p, q, r, to, from, lo, la, next, out);
    } else {
      BookSkips(p, q, to, from, lo, la, next);
    }
  }

  /** The turn of the loop of copy_range at `la`. */
  method CopyTurn(m: Memory, to: nat, from: nat, la: nat, end: nat, ghost p: Phys, ghost pd: Contents, ghost lo: nat)
    returns (next: nat, out: Outcome)
    requires m.Valid() && m.ref.Keys <= m.data.Keys && IsRoot(p.tree, to) && IsRoot(p.tree, from) && to != from
    requires lo <= la < end <= USERTOP && la % PGSIZE == 0 && end % PGSIZE == 0
    requires CopyInv(p, pd, m.State(), m.data, to, from, lo, la)
    modifies m
    ensures m.Valid() && m.ref.Keys <= m.data.Keys && la < next && next % PGSIZE == 0
    ensures out.Copied? ==> CopyInv(p, pd, m.State(), m.data, to, from, lo, Min(next, end))
    ensures !out.Copied? ==> CopyInv(p, pd, m.State(), m.data, to, from, lo, la) && m.free == {}
    ensures Turned(old(m.State()), m.State(), to, from, la, Min(next, end), out)
  {
    UserPages(la);
    ghost var q, qd := m.State(), m.data;
    out := Copied;
    var ptep := m.GetPte(from, la, false);
    if ptep.None? {
      next := NextTable(la);
      TableMissing(q.ts, from, la, end);
      CopySkips(p, pd, q, qd, to, from, lo, la, Min(next, end));
      return;
    }
    next := NextPage(la, end);
    if Present(At(m.tables, ptep.value)) {
      out := CopyMapped(m, to, from, la, ptep.value, p, pd, lo);
    } else {
      PageMissing(q.ts, from, la);
      CopySkips(p, pd, q, qd, to, from, lo, la, next);
    }
  }

  /** There are as many free frames as the copy of the range takes. */
  predicate Enough(p: Phys, to: nat, from: nat, start: nat, end: nat) {
    Used(p.ts, to, from, start / PGSIZE, end / PGSIZE) <= |p.free|
  }

  /** The copies up to and including some page that the parent maps take one frame more than there are. */
  ghost predicate OneShort(p: Phys, to: nat, from: nat, start: nat, end: nat) {
    exists v: nat | start / PGSIZE <= v < end / PGSIZE && Mapped(p.ts, from, v * PGSIZE).Some? ::
      Used(p.ts, to, from, start / PGSIZE, v + 1) == |p.free| + 1
  }

  /** copy_range: for every page of the range that the parent maps the child maps its own copy, with
      the parent's contents and user permissions.  Nobody else's pages change, also when memory
      runs out half way.  Into a child that maps nothing in the range the copy succeeds just when
      there are frames enough, the assert on the new page fails just when they are one short for
      the pages up to some page, and otherwise -E_NO_MEM is returned. */
  method CopyRange(m: Memory, to: nat, from: nat, start: nat, end: nat) returns (out: Outcome, ghost done: nat)
    requires m.Valid() && m.ref.Keys <= m.data.Keys && IsRoot(m.tree, to) && IsRoot(m.tree, from) && to != from
    requires UserRange(start, end)
    modifies m
    ensures m.Valid() && RootsKept(old(m.tree), m.tree) && done <= end && (out.Copied? ==> done == end)
    ensures PagesDone(old(m.State()), old(m.data), m.State(), m.data, to, from, start, done)
    ensures OthersKept(old(m.State()), m.State(), to, start, done)
    ensures ContentsKept(old(m.State()), old(m.data), m.data, to, start, done)
    ensures !out.Copied? ==> m.free == {}
    ensures Blank(old(m.tables), to, start, end) ==>
              && (out.Copied? <==> Enough(old(m.State()), to, from, start, end))
              && (out.Panicked? <==> OneShort(old(m.State()), to, from, start, end))
  {
    var la := start;
    ghost var p, pd := m.State(), m.data;
    CopyStarts(p, pd, to, from, start);
    BookStarts(p, to, from, start / PGSIZE);
    while la != 0 && la < end
      invariant start <= la && la % PGSIZE == 0
      invariant m.Valid() && m.ref.Keys <= m.data.Keys
      invariant CopyInv(p, pd, m.State(), m.data, to, from, start, Min(la, end))
      invariant Blank(p.ts, to, start, end) ==> Booked(p, m.State(), to, from, start / PGSIZE, Min(la, end) / PGSIZE)
      decreases end - la
    {
      ghost var q := m.State();
      var next, o := CopyTurn(m, to, from, la, end, p, pd, start);
      if Blank(p.ts, to, start, end) {
        BlankBelow(p.ts, to, start, Min(next, end), end);
        BookTurn(p, q, m.State(), to, from, start, la, Min(next, end), o);
      }
      if !o.Copied? {
        if Blank(p.ts, to, start, end) {
          FailsHere(p, to, from, start, end, la / PGSIZE, o);
        }
        return o, la;
      }
      la := next;
    }
    if Blank(p.ts, to, start, end) {
      AllBooked(p, m.State(), to, from, start, end);
    }
    return Copied, end;
  }

  lemma BlankBelow(ts: Tables, to: nat, lo: nat, mid: nat, hi: nat)
    requires Blank(ts, to, lo, hi) && mid <= hi
    ensures Blank(ts, to, lo, mid)
  {
  }

  lemma AllBooked(p: Phys, q: Phys, to: nat, from: nat, start: nat, end: nat)
    requires Booked(p, q, to, from, start / PGSIZE, end / PGSIZE)
    ensures Enough(p, to, from, start, end) && !OneShort(p, to, from, start, end)
  {
    if OneShort(p, to, from, start, end) {
      var v: nat :| start / PGSIZE <= v < end / PGSIZE && Mapped(p.ts, from, v * PGSIZE).Some?
                    && Used(p.ts, to, from, start / PGSIZE, v + 1) == |p.free| + 1;
      UsedMore(p.ts, to, from, start / PGSIZE, v + 1, end / PGSIZE);
    }
  }

  lemma FailsHere(p: Phys, to: nat, from: nat, start: nat, end: nat, v: nat, out: Outcome)
    requires start / PGSIZE <= v < end / PGSIZE && Stopped(p, to, from, start / PGSIZE, v, out)
    ensures !Enough(p, to, from, start, end) && (out.Panicked? <==> OneShort(p, to, from, start, end))
  {
    var lo := start / PGSIZE;
    UsedMore(p.ts, to, from, lo, v + 1, end / PGSIZE);
    forall u: nat | lo <= u && u != v && Mapped(p.ts, from, u * PGSIZE).Some?
      ensures Used(p.ts, to, from, lo, u + 1) != |p.free| + 1 {
      ShortOnce(p, to, from, lo, v, u);
    }
  }

  /** Before the page at which the frames run out there are enough, and after it more than one is short. */
  lemma ShortOnce(p: Phys, to: nat, from: nat, lo: nat, v: nat, u: nat)
    requires lo <= u && u != v && Mapped(p.ts, from, u * PGSIZE).Some?
    requires Used(p.ts, to, from, lo, v) <= |p.free| < Used(p.ts, to, from, lo, v + 1)
    ensures Used(p.ts, to, from, lo, u + 1) != |p.free| + 1
  {
    if u < v {
      UsedMore(p.ts, to, from, lo, u + 1, v);
    } else {
      UsedMore(p.ts, to, from, lo, v + 1, u);
    }
  }

  lemma CopyStarts(p: Phys, pd: Contents, to: nat, from: nat, start: nat)
    requires Sound(p) && p.ref.Keys <= pd.Keys
    ensures CopyInv(p, pd, p, pd, to, from, start, start)
  {
    forall r: nat, a: nat | IsRoot(p.tree, r) && User(a) ensures SameBytes(p, pd, pd, r, a) {
      if Mapped(p.ts, r, a).Some? {
        MappedIsUsed(p.ts, p.tree, r, a);
        assert Uses(p.ts, p.tree, Walk(p.ts, r, a).value, Mapped(p.ts, r, a).value.ppn);
      }
    }
  }

  /** A child that mapped nothing in the range maps a page of it just when the parent does. */
  lemma CopiedAlike(p: Phys, pd: Contents, q: Phys, qd: Contents, to: nat, from: nat, start: nat, end: nat, a: nat)
    requires PagesDone(p, pd, q, qd, to, from, start, end) && Blank(p.ts, to, start, end)
    requires User(a) && InPages(a, start, end)
    ensures Mapped(q.ts, to, a).Some? <==> Mapped(p.ts, from, a).Some?
  {
    assert PageDone(p, pd, q, qd, to, from, a);
  }

  // ----- the smallest copy --------------------------------------------------------------------

  /** A root below which there is no table for a user page. */
  predicate Bare(ts: Tables, root: nat) {
    forall i: nat | i < KERNEL_SLOT :: !Present(At(ts, Slot(root, i)))
  }

  lemma BareMaps(ts: Tables, root: nat, a: nat)
    requires Bare(ts, root) && User(a)
    ensures Missing(ts, root, a) == 2 && Mapped(ts, root, a).None?
  {
    assert Pdx1(a) < KERNEL_SLOT;
  }

  /** One more address space. */
  method NewSpace(m: Memory) returns (root: nat)
    requires m.Valid() && m.free != {}
    modifies m`tables, m`free, m`tree
    ensures m.Valid() && |m.free| == |old(m.free)| - 1 && IsRoot(m.tree, root) && Bare(m.tables, root)
    ensures forall r | IsRoot(old(m.tree), r) :: r != root && IsRoot(m.tree, r)
    ensures forall r | IsRoot(old(m.tree), r) && Bare(old(m.tables), r) :: Bare(m.tables, r)
  {
    var boot := seq(ENTRIES, i => EMPTY);
    ghost var tables := m.tables;
    var r := m.SetupPgdir(boot);
    root := r.value;
    NewRootBare(tables, root, boot);
  }

  method TwoSpaces(m: Memory) returns (to: nat, from: nat)
    requires m.Valid() && |m.free| >= 2
    modifies m`tables, m`free, m`tree
    ensures m.Valid() && |m.free| == |old(m.free)| - 2
    ensures IsRoot(m.tree, to) && IsRoot(m.tree, from) && to != from && Bare(m.tables, to) && Bare(m.tables, from)
  {
    from := NewSpace(m);
    to := NewSpace(m);
  }

  lemma NewRootBare(ts: Tables, root: nat, boot: seq<Entry>)
    requires |boot| == ENTRIES && forall i | 0 <= i < KERNEL_SLOT :: !Present(boot[i])
    ensures Bare(ts[root := boot], root)
    ensures forall r: nat | r != root && Bare(ts, r) :: Bare(ts[root := boot], r)
  {
    var ts' := ts[root := boot];
    forall r: nat, i: nat | i < KERNEL_SLOT && r != root ensures At(ts', Slot(r, i)) == At(ts, Slot(r, i)) {
    }
  }

  lemma OneInserted(ts: Tables, tree: Tree, ts': Tables, to: nat, from: nat, e: Entry)
    requires IsRoot(tree, to) && IsRoot(tree, from) && to != from && Bare(ts, to)
    requires MapsUpdated(ts, tree, ts', from, USERBASE, Some(e)) && Made(ts, tree, ts', from, USERBASE)
    ensures Mapped(ts', from, USERBASE).Some? && Missing(ts', to, USERBASE) == 2
    ensures Blank(ts', to, USERBASE, USERBASE + PGSIZE)
  {
    UserPages(USERBASE);
    BareMaps(ts, to, USERBASE);
    assert MadeAt(ts, ts', from, USERBASE, to, USERBASE);
    forall a: nat | User(a) && InPages(a, USERBASE, USERBASE + PGSIZE) ensures Mapped(ts', to, a).None? {
      BareMaps(ts, to, a);
    }
  }

  /** A first page for one of two bare address spaces. */
  method FirstPage(m: Memory, to: nat, from: nat)
    requires m.Valid() && |m.free| >= 3 && IsRoot(m.tree, to) && IsRoot(m.tree, from) && to != from
    requires Bare(m.tables, to) && Bare(m.tables, from)
    modifies m`tables, m`ref, m`free, m`tree
    ensures m.Valid() && m.ref.Keys == old(m.ref.Keys) && |m.free| == |old(m.free)| - 3
    ensures IsRoot(m.tree, to) && IsRoot(m.tree, from)
    ensures Mapped(m.tables, from, USERBASE).Some? && Missing(m.tables, to, USERBASE) == 2
    ensures Blank(m.tables, to, USERBASE, USERBASE + PGSIZE)
  {
    ghost var was := m.State();
    var page := m.AllocPage();
    TakenSound(was, page.value);
    UserPages(USERBASE);
    BareMaps(was.ts, from, USERBASE);
    var ok := m.PageInsert(from, page.value, USERBASE, PTE_U);
    OneInserted(was.ts, was.tree, m.tables, to, from, PteCreate(page.value, PTE_V | PTE_U));
  }

  /** An address space with one page, and a new one beside it. */
  method OnePage(m: Memory) returns (to: nat, from: nat)
    requires m.Valid() && |m.free| >= 5
    modifies m`tables, m`ref, m`free, m`tree
    ensures m.Valid() && m.ref.Keys == old(m.ref.Keys) && |m.free| == |old(m.free)| - 5
    ensures IsRoot(m.tree, to) && IsRoot(m.tree, from) && to != from
    ensures Mapped(m.tables, from, USERBASE).Some? && Missing(m.tables, to, USERBASE) == 2
    ensures Blank(m.tables, to, USERBASE, USERBASE + PGSIZE)
  {
    to, from := TwoSpaces(m);
    FirstPage(m, to, from);
  }

  /** Two tables and a page are to be had for the copy: with two free frames the assert fails. */
  method SmallestCopy(frames: set<nat>, contents: map<nat, Bytes>) returns (out: Outcome)
    requires |frames| >= 5 && frames <= contents.Keys
    ensures out == if |frames| < 7 then NoMemory else if |frames| == 7 then Panicked else Copied
  {
    var m := new Memory(frames, contents);
    var to, from := OnePage(m);
    ghost var done;
    ThreeFrames(m.State(), to, from);
    out, done := CopyRange(m, to, from, USERBASE, USERBASE + PGSIZE);
  }

  lemma ThreeFrames(p: Phys, to: nat, from: nat)
    requires Mapped(p.ts, from, USERBASE).Some? && Missing(p.ts, to, USERBASE) == 2
    ensures Enough(p, to, from, USERBASE, USERBASE + PGSIZE) <==> |p.free| >= 3
    ensures OneShort(p, to, from, USERBASE, USERBASE + PGSIZE) <==> |p.free| == 2
  {
    var v := USERBASE / PGSIZE;
    var vs := Pages(p.ts, from, v, v);
    assert v * PGSIZE == USERBASE && v / 512 !in NewTables(p.ts, to, vs) && Pdx1(USERBASE) !in NewDirs(p.ts, to, vs);
    assert PageCost(p.ts, to, from, v, v) == 3 && Used(p.ts, to, from, v, v) == 0;
    assert Used(p.ts, to, from, v, v + 1) == 3;
  }
}
