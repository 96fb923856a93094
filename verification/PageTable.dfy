/**
 The three-level Sv39 page tables of kern/mm/pmm.c: get_pte, page_insert, page_remove and
 unmap_range over tables that live in page frames, with the reference counts of kern/mm/pmm.h.
 Page directories share the kernel half, entry 511, which these operations never touch.
 */
module PageTable {
  import opened Options

  // ----- entries and addresses ----------------------------------------------------------------

  const ENTRIES := 512
  const KERNEL_SLOT := 511
  const PTE_V: bv10 := 0x001
  const PTE_U: bv10 := 0x010
  const PGSIZE := 4096
  const PTSIZE := 0x20_0000

  /** A table entry: a page number and the ten flag bits. */
  datatype Entry = Entry(ppn: nat, flags: bv10)

  const EMPTY := Entry(0, 0)

  predicate Present(e: Entry) {
    e.flags & PTE_V != 0
  }

  /** pte_create. */
  function PteCreate(ppn: nat, perm: bv10): (e: Entry)
    ensures Present(e) && e.ppn == ppn
  {
    Entry(ppn, PTE_V | perm)
  }

  /** pte_create and PTE_ADDR on the machine word. */
  function PteWord(ppn: bv64, perm: bv64): bv64 {
    (ppn << 10) | 1 | perm
  }

  function PteAddr(w: bv64): bv64 {
    (w & !0x3FF) << 2
  }

  /** The word keeps the page number and the flags apart, for page numbers of 44 bits. */
  lemma WordKeepsEntry(ppn: bv64, perm: bv64)
    requires ppn < 0x1000_0000_0000 && perm < 0x400
    ensures PteAddr(PteWord(ppn, perm)) == (ppn << 12)
    ensures PteWord(ppn, perm) & 0x3FF == (1 | perm) && PteWord(ppn, perm) & 1 == 1
  {
  }

  function Pdx1(la: nat): nat {
    la / 0x4000_0000 % 512
  }

  function Pdx0(la: nat): nat {
    la / 0x20_0000 % 512
  }

  function Ptx(la: nat): nat {
    la / 0x1000 % 512
  }

  /** The virtual page of an address: 27 bits above the page offset. */
  function Vpn(la: nat): nat {
    la / 0x1000 % 0x800_0000
  }

  /** Outside the part of the address space that belongs to the kernel. */
  predicate User(la: nat) {
    Pdx1(la) < KERNEL_SLOT
  }

  lemma VpnParts(la: nat)
    ensures Vpn(la) == Pdx1(la) * 0x4_0000 + Pdx0(la) * 0x200 + Ptx(la)
    ensures Ptx(la) < 0x200 && Pdx0(la) < 0x200 && Pdx1(la) < 0x200
  {
    var v := la / 0x1000;
    assert la / 0x20_0000 == v / 0x200;
    assert la / 0x4000_0000 == v / 0x4_0000;
    assert v / 0x4_0000 == v / 0x200 / 0x200;
  }

  /** The three indices name the page. */
  lemma IndicesNamePage(la: nat, lb: nat)
    ensures Pdx1(la) == Pdx1(lb) && Pdx0(la) == Pdx0(lb) && Ptx(la) == Ptx(lb) <==> Vpn(la) == Vpn(lb)
  {
    VpnParts(la);
    VpnParts(lb);
  }

  // ----- tables -----------------------------------------------------------------------------------

  /** The frames that hold tables. */
  type Tables = map<nat, seq<Entry>>

  datatype Slot = Slot(table: nat, index: nat)

  function At(ts: Tables, s: Slot): Entry {
    if s.table in ts && s.index < |ts[s.table]| then ts[s.table][s.index] else EMPTY
  }

  function Write(ts: Tables, s: Slot, e: Entry): (ts': Tables)
    requires s.table in ts && s.index < |ts[s.table]|
    ensures ts'.Keys == ts.Keys
    ensures forall x: Slot :: At(ts', x) == if x == s then e else At(ts, x)
  {
    ts[s.table := ts[s.table][s.index := e]]
  }

  /** get_pte without create: the slot for `la`, if the tables on the way exist. */
  function Walk(ts: Tables, root: nat, la: nat): Option<Slot> {
    var e1 := At(ts, Slot(root, Pdx1(la)));
    if !Present(e1) then None
    else
      var e0 := At(ts, Slot(e1.ppn, Pdx0(la)));
      if !Present(e0) then None else Some(Slot(e0.ppn, Ptx(la)))
  }

  /** What `la` maps to. */
  function Mapped(ts: Tables, root: nat, la: nat): Option<Entry> {
    match Walk(ts, root, la)
    case None => None
    case Some(s) => if Present(At(ts, s)) then Some(At(ts, s)) else None
  }

  /** The tables that are missing on the way to `la`. */
  function Missing(ts: Tables, root: nat, la: nat): nat {
    if !Present(At(ts, Slot(root, Pdx1(la)))) then 2 else if Walk(ts, root, la).None? then 1 else 0
  }

  // ----- well formed tables -----------------------------------------------------------------------

  /** For each table its level (2 for a root, 0 for the last), and the slot that names it. */
  datatype Tree = Tree(level: map<nat, nat>, up: map<nat, Slot>)

  predicate IsRoot(tree: Tree, f: nat) {
    f in tree.level && tree.level[f] == 2
  }

  predicate IsLeaf(tree: Tree, s: Slot) {
    s.table in tree.level && tree.level[s.table] == 0 && s.index < ENTRIES
  }

  predicate IsDir(tree: Tree, s: Slot) {
    && s.table in tree.level && 0 < tree.level[s.table] <= 2
    && s.index < if tree.level[s.table] == 2 then KERNEL_SLOT else ENTRIES
  }

  /** A directory entry names a table one level down, and is the only one to do so. */
  ghost predicate DirAt(ts: Tables, tree: Tree, s: Slot) {
    IsDir(tree, s) && Present(At(ts, s)) ==>
      var c := At(ts, s).ppn;
      c in tree.level && tree.level[c] == tree.level[s.table] - 1 && c in tree.up && tree.up[c] == s
  }

  ghost predicate Dirs(ts: Tables, tree: Tree) {
    && ts.Keys == tree.level.Keys
    && (forall f | f in ts :: |ts[f]| == ENTRIES && tree.level[f] <= 2)
    && forall s: Slot :: DirAt(ts, tree, s)
  }

  /** The leaf entry at `s` names the frame `g`. */
  predicate Uses(ts: Tables, tree: Tree, s: Slot, g: nat) {
    IsLeaf(tree, s) && Present(At(ts, s)) && At(ts, s).ppn == g
  }

  /** The leaf entries that name the frame `g`. */
  ghost function Users(ts: Tables, tree: Tree, g: nat): (us: set<Slot>)
    ensures forall s :: s in us <==> Uses(ts, tree, s, g)
  {
    set f, i | f in tree.level && 0 <= i < ENTRIES && Uses(ts, tree, Slot(f, i), g) :: Slot(f, i)
  }

  /** Leaf entries name frames in use that hold no table. */
  ghost predicate Leaves(ts: Tables, tree: Tree, ref: map<nat, int>, free: set<nat>) {
    forall s: Slot, g: nat :: Uses(ts, tree, s, g) ==> g in ref && g !in ts && g !in free
  }

  /** The reference count of a data frame is the number of leaf entries that name it. */
  ghost predicate Counted(ts: Tables, tree: Tree, ref: map<nat, int>) {
    forall g | g in ref && g !in ts :: ref[g] == |Users(ts, tree, g)|
  }

  ghost predicate Wf(ts: Tables, tree: Tree, ref: map<nat, int>, free: set<nat>) {
    && Dirs(ts, tree) && Leaves(ts, tree, ref, free) && Counted(ts, tree, ref)
    && ts.Keys <= ref.Keys && free <= ref.Keys && free !! ts.Keys
  }

  // ----- walks ------------------------------------------------------------------------------------

  lemma WalkEndsAtLeaf(ts: Tables, tree: Tree, root: nat, la: nat)
    requires Dirs(ts, tree) && IsRoot(tree, root) && User(la)
    ensures Walk(ts, root, la).Some? ==> IsLeaf(tree, Walk(ts, root, la).value)
    ensures Walk(ts, root, la).Some? ==>
              var t := Walk(ts, root, la).value.table;
              && t in tree.up && tree.up[t].table in tree.up
              && tree.up[t].index == Pdx0(la)
              && tree.up[tree.up[t].table] == Slot(root, Pdx1(la))
  {
    var s1 := Slot(root, Pdx1(la));
    assert DirAt(ts, tree, s1);
    if Present(At(ts, s1)) {
      assert DirAt(ts, tree, Slot(At(ts, s1).ppn, Pdx0(la)));
    }
  }

  /** Different pages have different slots, within one address space and across all of them. */
  lemma WalksApart(ts: Tables, tree: Tree, root: nat, la: nat, root': nat, la': nat)
    requires Dirs(ts, tree) && IsRoot(tree, root) && IsRoot(tree, root') && User(la) && User(la')
    requires Walk(ts, root, la).Some? && Walk(ts, root, la) == Walk(ts, root', la')
    ensures root == root' && Vpn(la) == Vpn(la')
  {
    WalkEndsAtLeaf(ts, tree, root, la);
    WalkEndsAtLeaf(ts, tree, root', la');
    IndicesNamePage(la, la');
  }

  lemma WalkOfPage(ts: Tables, root: nat, la: nat, la': nat)
    requires Vpn(la) == Vpn(la')
    ensures Walk(ts, root, la) == Walk(ts, root, la') && Mapped(ts, root, la) == Mapped(ts, root, la')
  {
    IndicesNamePage(la, la');
  }

  // ----- writing a leaf entry ---------------------------------------------------------------------

  lemma WriteKeepsDirs(ts: Tables, tree: Tree, s: Slot, e: Entry)
    requires Dirs(ts, tree) && IsLeaf(tree, s)
    ensures Dirs(Write(ts, s, e), tree)
  {
    var ts' := Write(ts, s, e);
    forall x: Slot ensures DirAt(ts', tree, x) {
      assert DirAt(ts, tree, x);
    }
  }

  lemma WriteUsers(ts: Tables, tree: Tree, s: Slot, e: Entry, g: nat)
    requires Dirs(ts, tree) && IsLeaf(tree, s)
    ensures Users(Write(ts, s, e), tree, g)
         == if Present(e) && e.ppn == g then Users(ts, tree, g) + {s} else Users(ts, tree, g) - {s}
  {
    var ts' := Write(ts, s, e);
    forall x: Slot ensures Uses(ts', tree, x, g) <==> if x == s then Present(e)
        && e.ppn == g else Uses(ts, tree, x, g) {
    }
  }

  /** Writing the slot of one page changes what that page maps to, and nothing else. */
  lemma WriteMaps(ts: Tables, tree: Tree, root: nat, la: nat, e: Entry, root': nat, la': nat)
    requires Dirs(ts, tree) && IsRoot(tree, root) && IsRoot(tree, root') && User(la) && User(la')
    requires Walk(ts, root, la).Some? && IsLeaf(tree, Walk(ts, root, la).value)
    ensures Walk(Write(ts, Walk(ts, root, la).value, e), root', la') == Walk(ts, root', la')
    ensures Missing(Write(ts, Walk(ts, root, la).value, e), root', la') == Missing(ts, root', la')
    ensures Mapped(Write(ts, Walk(ts, root, la).value, e), root', la')
         == if root' == root && Vpn(la') == Vpn(la) then (if Present(e) then Some(e) else None)
             else Mapped(ts, root', la')
  {
    var s := Walk(ts, root, la).value;
    var ts' := Write(ts, s, e);
    assert DirAt(ts, tree, Slot(root', Pdx1(la')));
    assert Walk(ts', root', la') == Walk(ts, root', la');
    if root' == root && Vpn(la') == Vpn(la) {
      WalkOfPage(ts, root, la, la');
    } else if Walk(ts, root', la') == Some(s) {
      WalksApart(ts, tree, root, la, root', la');
    }
  }

  // ----- adding a table ---------------------------------------------------------------------------

  /** A table cleared by memset. */
  function Zeroed(): seq<Entry> {
    seq(ENTRIES, i => EMPTY)
  }

  /** A zeroed table at `n`, named by the directory entry at `d`. */
  function Grown(ts: Tables, d: Slot, n: nat): (ts': Tables)
    requires d.table in ts && d.index < |ts[d.table]| && n != d.table
    ensures ts'.Keys == ts.Keys + {n}
    ensures forall x: Slot :: At(ts', x) == if x == d then PteCreate(n, PTE_U | PTE_V)
                                            else if x.table == n then EMPTY
                                            else At(ts, x)
  {
    Write(ts[n := Zeroed()], d, PteCreate(n, PTE_U | PTE_V))
  }

  function GrownTree(tree: Tree, d: Slot, n: nat): Tree
    requires IsDir(tree, d)
  {
    Tree(tree.level[n := tree.level[d.table] - 1], tree.up[n := d])
  }

  lemma GrownDirs(ts: Tables, tree: Tree, d: Slot, n: nat)
    requires Dirs(ts, tree) && IsDir(tree, d) && n !in ts
    ensures Dirs(Grown(ts, d, n), GrownTree(tree, d, n))
  {
    var ts', tree' := Grown(ts, d, n), GrownTree(tree, d, n);
    forall x: Slot ensures DirAt(ts', tree', x) {
      assert DirAt(ts, tree, x);
    }
  }

  lemma GrownUsers(ts: Tables, tree: Tree, d: Slot, n: nat, g: nat)
    requires Dirs(ts, tree) && IsDir(tree, d) && n !in ts
    ensures Users(Grown(ts, d, n), GrownTree(tree, d, n), g) == Users(ts, tree, g)
  {
    var ts', tree' := Grown(ts, d, n), GrownTree(tree, d, n);
    forall x: Slot ensures Uses(ts', tree', x, g) <==> Uses(ts, tree, x, g) {
    }
  }

  /** A new table changes no translation, and no walk that reached its end. */
  lemma GrownMaps(ts: Tables, tree: Tree, d: Slot, n: nat, root: nat, la: nat)
    requires Dirs(ts, tree) && IsDir(tree, d) && n !in ts && !Present(At(ts, d))
    requires IsRoot(tree, root) && User(la)
    ensures Mapped(Grown(ts, d, n), root, la) == Mapped(ts, root, la)
    ensures Walk(ts, root, la).Some? ==> Walk(Grown(ts, d, n), root, la) == Walk(ts, root, la)
  {
    var s1 := Slot(root, Pdx1(la));
    assert DirAt(ts, tree, s1);
    if Present(At(ts, s1)) {
      assert DirAt(ts, tree, Slot(At(ts, s1).ppn, Pdx0(la)));
    }
  }

  /** Where the tables for `la` are there now, those for `a` are there so far as they are the same. */
  function StillMissing(k: nat, la: nat, a: nat): nat {
    if Pdx1(a) != Pdx1(la) then k else if Pdx0(a) == Pdx0(la) then 0 else if k == 2 then 1 else k
  }

  /** The tables for `la` in the address space `root` have been made, and no others. */
  ghost predicate Made(ts: Tables, tree: Tree, ts': Tables, root: nat, la: nat) {
    forall r: nat, a: nat | IsRoot(tree, r) && User(a) :: MadeAt(ts, ts', root, la, r, a)
  }

  ghost predicate MadeAt(ts: Tables, ts': Tables, root: nat, la: nat, r: nat, a: nat) {
    Missing(ts', r, a) == if r == root then StillMissing(Missing(ts, r, a), la, a) else Missing(ts, r, a)
  }

  /** A directory below a root, */
  lemma GrownDir(ts: Tables, tree: Tree, root: nat, la: nat, n: nat, r: nat, a: nat)
    requires Dirs(ts, tree) && IsRoot(tree, root) && User(la) && n !in ts && Missing(ts, root, la) == 2
    requires IsRoot(tree, r) && User(a)
    ensures Missing(Grown(ts, Slot(root, Pdx1(la)), n), r, a) ==
            if r == root && Pdx1(a) == Pdx1(la) then 1 else Missing(ts, r, a)
  {
    assert DirAt(ts, tree, Slot(r, Pdx1(a)));
  }

  /** and a table below that. */
  lemma GrownTable(ts: Tables, tree: Tree, root: nat, la: nat, n: nat, r: nat, a: nat)
    requires Dirs(ts, tree) && IsRoot(tree, root) && User(la) && n !in ts && Missing(ts, root, la) == 1
    requires IsRoot(tree, r) && User(a)
    ensures IsDir(tree, Slot(At(ts, Slot(root, Pdx1(la))).ppn, Pdx0(la)))
    ensures Missing(Grown(ts, Slot(At(ts, Slot(root, Pdx1(la))).ppn, Pdx0(la)), n), r, a) ==
            if r == root && Pdx1(a) == Pdx1(la) && Pdx0(a) == Pdx0(la) then 0 else Missing(ts, r, a)
  {
    assert DirAt(ts, tree, Slot(r, Pdx1(a))) && DirAt(ts, tree, Slot(root, Pdx1(la)));
  }

  lemma GrownWf(ts: Tables, tree: Tree, ref: map<nat, int>, free: set<nat>, d: Slot, n: nat)
    requires Wf(ts, tree, ref, free) && IsDir(tree, d) && n in free
    ensures Wf(Grown(ts, d, n), GrownTree(tree, d, n), ref[n := 1], free - {n})
  {
    var ts', tree' := Grown(ts, d, n), GrownTree(tree, d, n);
    GrownDirs(ts, tree, d, n);
    forall g ensures Users(ts', tree', g) == Users(ts, tree, g) {
      GrownUsers(ts, tree, d, n, g);
    }
    forall s: Slot, g: nat | Uses(ts', tree', s, g) ensures g in ref && g !in ts' && g !in free {
      assert s in Users(ts, tree, g);
      assert Uses(ts, tree, s, g);
    }
  }

  /** Every address space that was there translates as before. */
  ghost predicate SameMaps(ts: Tables, tree: Tree, ts': Tables) {
    forall r: nat, a: nat | IsRoot(tree, r) && User(a) :: Mapped(ts', r, a) == Mapped(ts, r, a)
  }

  /** The slots that were reached are reached still. */
  ghost predicate WalksKept(ts: Tables, tree: Tree, ts': Tables) {
    forall r: nat, a: nat | IsRoot(tree, r) && User(a) && Walk(ts, r, a).Some? :: Walk(ts', r, a) == Walk(ts, r, a)
  }

  ghost predicate SameUsers(ts: Tables, tree: Tree, ts': Tables, tree': Tree) {
    forall g: nat :: Users(ts', tree', g) == Users(ts, tree, g)
  }

  ghost predicate RootsKept(tree: Tree, tree': Tree) {
    forall r: nat | IsRoot(tree, r) :: IsRoot(tree', r)
  }

  /** All that these operations change, but for the contents of data frames. */
  datatype Phys = Phys(ts: Tables, tree: Tree, ref: map<nat, int>, free: set<nat>)

  /** Tables may have been added, from free frames; no translation and no user of a frame changed. */
  ghost predicate Kept(p: Phys, q: Phys) {
    && RootsKept(p.tree, q.tree) && SameMaps(p.ts, p.tree, q.ts) && SameUsers(p.ts, p.tree, q.ts, q.tree)
    && WalksKept(p.ts, p.tree, q.ts)
    && p.ts.Keys <= q.ts.Keys && q.free <= p.free && p.ref.Keys == q.ref.Keys
    && (forall f :: f in q.ts && f !in p.ts <==> f in p.free && f !in q.free)
  }

  lemma KeptTransitive(p: Phys, q: Phys, r: Phys)
    requires Kept(p, q) && Kept(q, r)
    ensures Kept(p, r)
  {
  }

  lemma GrownKept(p: Phys, d: Slot, n: nat)
    requires Wf(p.ts, p.tree, p.ref, p.free) && IsDir(p.tree, d) && !Present(At(p.ts, d)) && n in p.free
    ensures Kept(p, Phys(Grown(p.ts, d, n), GrownTree(p.tree, d, n), p.ref[n := 1], p.free - {n}))
  {
    var ts', tree' := Grown(p.ts, d, n), GrownTree(p.tree, d, n);
    forall r: nat, a: nat | IsRoot(p.tree, r) && User(a)
      ensures Mapped(ts', r, a) == Mapped(p.ts, r, a)
      ensures Walk(p.ts, r, a).Some? ==> Walk(ts', r, a) == Walk(p.ts, r, a) {
      GrownMaps(p.ts, p.tree, d, n, r, a);
    }
    forall g: nat ensures Users(ts', tree', g) == Users(p.ts, p.tree, g) {
      GrownUsers(p.ts, p.tree, d, n, g);
    }
  }

  /** `la` maps to `v` now; every other page of every address space maps to what it did. */
  ghost predicate MapsUpdated(ts: Tables, tree: Tree, ts': Tables, root: nat, la: nat, v: Option<Entry>) {
    forall r: nat, a: nat | IsRoot(tree, r) && User(a) ::
      Mapped(ts', r, a) == if r == root && Vpn(a) == Vpn(la) then v else Mapped(ts, r, a)
  }

  /** The leaf entry at `s` names `page` now; all others name what they did. */
  ghost predicate UsersUpdated(p: Phys, q: Phys, s: Slot, page: nat) {
    forall g: nat ::
      Users(q.ts, q.tree, g) == if g == page then Users(p.ts, p.tree, g) + {s} else Users(p.ts, p.tree, g) - {s}
  }

  /** The frame `g` has lost the last leaf entry that named it. */
  ghost predicate Dropped(p: Phys, q: Phys, g: nat) {
    Users(p.ts, p.tree, g) != {} && Users(q.ts, q.tree, g) == {}
  }

  /** Exactly the frames that lost their last entry became free. */
  ghost predicate FreedWhenUnused(p: Phys, q: Phys) {
    && (forall g :: Dropped(p, q, g) ==> g in q.free)
    && (forall g | g in q.free && g !in p.free :: Dropped(p, q, g))
  }

  /** Entries were only removed, and exactly the frames that lost their last one became free. */
  ghost predicate OnlyRemoved(p: Phys, q: Phys) {
    && FreedWhenUnused(p, q) && p.free <= q.free
    && forall g: nat :: Users(q.ts, q.tree, g) <= Users(p.ts, p.tree, g)
  }

  /** The state with a page directory `boot` at the free frame `n`. */
  function Rooted(p: Phys, n: nat, boot: seq<Entry>): Phys {
    Phys(p.ts[n := boot], p.tree.(level := p.tree.level[n := 2]), p.ref, p.free - {n})
  }

  lemma RootedUsers(p: Phys, n: nat, boot: seq<Entry>, g: nat)
    requires Sound(p) && n in p.free
    ensures Users(Rooted(p, n, boot).ts, Rooted(p, n, boot).tree, g) == Users(p.ts, p.tree, g)
  {
    var q := Rooted(p, n, boot);
    forall x: Slot ensures Uses(q.ts, q.tree, x, g) <==> Uses(p.ts, p.tree, x, g) {
    }
  }

  lemma RootedSound(p: Phys, n: nat, boot: seq<Entry>)
    requires Sound(p) && n in p.free && |boot| == ENTRIES && forall i | 0 <= i < KERNEL_SLOT :: !Present(boot[i])
    ensures Sound(Rooted(p, n, boot))
  {
    var q := Rooted(p, n, boot);
    forall x: Slot ensures DirAt(q.ts, q.tree, x) {
      assert DirAt(p.ts, p.tree, x);
    }
    forall g ensures Users(q.ts, q.tree, g) == Users(p.ts, p.tree, g) {
      RootedUsers(p, n, boot, g);
    }
    forall s: Slot, g: nat | Uses(q.ts, q.tree, s, g) ensures g in q.ref && g !in q.ts && g !in q.free {
      assert s in Users(p.ts, p.tree, g);
      assert Uses(p.ts, p.tree, s, g);
    }
  }

  lemma RootedWalk(p: Phys, n: nat, boot: seq<Entry>, r: nat, a: nat)
    requires Sound(p) && n in p.free && IsRoot(p.tree, r) && User(a)
    ensures Walk(Rooted(p, n, boot).ts, r, a) == Walk(p.ts, r, a)
            && Mapped(Rooted(p, n, boot).ts, r, a) == Mapped(p.ts, r, a)
  {
    var s1 := Slot(r, Pdx1(a));
    assert DirAt(p.ts, p.tree, s1);
    if Present(At(p.ts, s1)) {
      assert DirAt(p.ts, p.tree, Slot(At(p.ts, s1).ppn, Pdx0(a)));
    }
  }

  /** A new page directory leaves every other address space alone. */
  lemma RootedKept(p: Phys, n: nat, boot: seq<Entry>)
    requires Sound(p) && n in p.free && |boot| == ENTRIES && forall i | 0 <= i < KERNEL_SLOT :: !Present(boot[i])
    ensures Sound(Rooted(p, n, boot)) && Kept(p, Rooted(p, n, boot)) && n !in p.tree.level
    ensures forall a: nat | User(a) :: Mapped(Rooted(p, n, boot).ts, n, a) == None
  {
    var q := Rooted(p, n, boot);
    RootedSound(p, n, boot);
    forall r: nat, a: nat | IsRoot(p.tree, r) && User(a)
      ensures Mapped(q.ts, r, a) == Mapped(p.ts, r, a) && Walk(q.ts, r, a) == Walk(p.ts, r, a) {
      RootedWalk(p, n, boot, r, a);
    }
    forall g: nat ensures Users(q.ts, q.tree, g) == Users(p.ts, p.tree, g) {
      RootedUsers(p, n, boot, g);
    }
  }

  // ----- physical memory --------------------------------------------------------------------------

  type Bytes = seq<bv8>

  class Memory {
    var tables: Tables
    var ref: map<nat, int>
    var free: set<nat>
    var data: map<nat, Bytes>
    ghost var tree: Tree

    ghost predicate Valid()
      reads this
    {
      Wf(tables, tree, ref, free)
    }

    /** All frames are free, and there is no address space yet. */
    constructor (frames: set<nat>, contents: map<nat, Bytes>)
      ensures Valid() && free == frames == ref.Keys && tables == map[] && data == contents
    {
      tables, ref, free, data := map[], map f | f in frames :: 0, frames, contents;
      tree := Tree(map[], map[]);
    }

    /** setup_pgdir: a new address space that maps no user page, with the kernel's entry copied. */
    method SetupPgdir(boot: seq<Entry>) returns (root: Option<nat>)
      requires Valid() && |boot| == ENTRIES && forall i | 0 <= i < KERNEL_SLOT :: !Present(boot[i])
      modifies `tables, `free, `tree
      ensures Valid() && Kept(old(State()), State())
      ensures root.None? <==> old(free) == {}
      ensures root.None? ==> State() == old(State())
      ensures root.Some? ==>
                && root.value in old(free) && free == old(free) - {root.value}
                && tables == old(tables)[root.value := boot]
                && IsRoot(tree, root.value) && root.value !in old(tree.level)
                && forall a: nat | User(a) :: Mapped(tables, root.value, a) == None
    {
      root := AllocPage();
      if root.Some? {
        RootedKept(old(State()), root.value, boot);
        tables := tables[root.value := boot];
        tree := tree.(level := tree.level[root.value := 2]);
      }
    }

    /** alloc_page, with swapping off: some free frame, if there is one. */
    method AllocPage() returns (page: Option<nat>)
      modifies `free
      ensures page.None? ==> free == {} == old(free)
      ensures page.Some? ==> page.value in old(free) && free == old(free) - {page.value}
    {
      if free == {} {
        return None;
      }
      var f :| f in free;
      free := free - {f};
      return Some(f);
    }

    ghost function State(): Phys
      reads this
    {
      Phys(tables, tree, ref, free)
    }

    /** One level of get_pte: the table that the entry at `d` names, made if it is missing. */
    method Descend(d: Slot, create: bool) returns (table: Option<nat>)
      requires Valid() && IsDir(tree, d)
      modifies `tables, `ref, `free, `tree
      ensures Valid() && Kept(old(State()), State()) && IsDir(tree, d)
      ensures table.Some? <==> Present(At(tables, d))
      ensures table.Some? ==> table.value == At(tables, d).ppn
      ensures forall x: Slot | x.table in old(tables) && x != d :: At(tables, x) == At(old(tables), x)
      ensures Present(At(old(tables), d)) || !create ==> State() == old(State())
      ensures create ==> (table.Some? <==> Present(At(old(tables), d)) || old(free) != {})
      ensures table.None? ==> State() == old(State())
      ensures table.Some? && !Present(At(old(tables), d)) ==>
                && table.value in old(free) && free == old(free) - {table.value}
                && table.value !in old(tables) && d.table in old(tables) && d.index < |old(tables)[d.table]|
                && tables == Grown(old(tables), d, table.value) && tree == GrownTree(old(tree), d, table.value)
    {
      if !Present(At(tables, d)) {
        if !create {
          return None;
        }
        var page := AllocPage();
        if page.None? {
          return None;
        }
        var n := page.value;
        GrownWf(tables, tree, ref, old(free), d, n);
        GrownKept(old(State()), d, n);
        ref := ref[n := 1];
        tables := Grown(tables, d, n);
        tree := GrownTree(tree, d, n);
      }
      return Some(At(tables, d).ppn);
    }

    /** get_pte: the slot for `la`, made if `create` says so, or None when it is missing or no
        frame is left for a table.  No translation and no user of a frame changes. */
    method GetPte(root: nat, la: nat, create: bool) returns (slot: Option<Slot>)
      requires Valid() && IsRoot(tree, root) && User(la)
      modifies `tables, `ref, `free, `tree
      ensures Valid() && Kept(old(State()), State())
      ensures slot == Walk(tables, root, la) && (slot.Some? ==> IsLeaf(tree, slot.value))
      ensures !create || old(Walk(tables, root, la)).Some? ==> State() == old(State())
      ensures create ==> (slot.Some? <==> Missing(old(tables), root, la) <= |old(free)|)
      ensures create && slot.Some? ==>
                && |free| == |old(free)| - Missing(old(tables), root, la)
                && Made(old(tables), old(tree), tables, root, la)
      ensures create && slot.None? ==> free == {}
    {
      var d1 := Slot(root, Pdx1(la));
      assert DirAt(tables, tree, d1);
      var pd0 := Descend(d1, create);
      if pd0.None? {
        return None;
      }
      slot := LastLevel(root, la, pd0.value, create, old(State()));
    }

    /** The second level of get_pte, below the directory `dir`. */
    method LastLevel(root: nat, la: nat, dir: nat, create: bool, ghost p: Phys) returns (slot: Option<Slot>)
      requires Valid() && Sound(p) && IsRoot(p.tree, root) && User(la) && DirMade(p, State(), root, la, dir)
      requires create || State() == p
      modifies `tables, `ref, `free, `tree
      ensures Valid() && Kept(p, State())
      ensures slot == Walk(tables, root, la) && (slot.Some? ==> IsLeaf(tree, slot.value))
      ensures !create || Walk(p.ts, root, la).Some? ==> State() == p
      ensures create ==> (slot.Some? <==> Missing(p.ts, root, la) <= |p.free|)
      ensures create && slot.Some? ==>
                |free| == |p.free| - Missing(p.ts, root, la) && Made(p.ts, p.tree, tables, root, la)
      ensures create && slot.None? ==> free == {}
    {
      ghost var mid := State();
      assert DirAt(tables, tree, Slot(root, Pdx1(la)));
      DirMissing(p, mid, root, la, dir);
      var pt := Descend(Slot(dir, Pdx0(la)), create);
      KeptTransitive(p, mid, State());
      if pt.None? {
        return None;
      }
      WalkEndsAtLeaf(tables, tree, root, la);
      if create {
        MadeTables(p, mid, State(), root, la, dir, pt.value);
      }
      return Some(Slot(pt.value, Ptx(la)));
    }

    /** page_remove_pte, on a leaf entry. */
    method RemovePte(s: Slot)
      requires Dirs(tables, tree) && IsLeaf(tree, s)
      requires Present(At(tables, s)) ==> At(tables, s).ppn in ref
      modifies `tables, `ref, `free
      ensures State() == Removed(old(State()), s)
    {
      if Present(At(tables, s)) {
        var page := At(tables, s).ppn;
        ref := ref[page := ref[page] - 1];
        if ref[page] == 0 {
          free := free + {page};
        }
        tables := Write(tables, s, EMPTY);
      }
    }

    /** page_remove: deletion from the flat map. */
    method PageRemove(root: nat, la: nat)
      requires Valid() && IsRoot(tree, root) && User(la)
      modifies `tables, `ref, `free, `tree
      ensures Valid() && tree == old(tree) && ref.Keys == old(ref.Keys)
      ensures MapsUpdated(old(tables), tree, tables, root, la, None)
      ensures OnlyRemoved(old(State()), State())
    {
      var slot := GetPte(root, la, false);
      if slot.Some? {
        RemoveEffect(State(), root, la);
        RemovePte(slot.value);
      } else {
        forall a: nat | User(a) && Vpn(a) == Vpn(la) ensures Mapped(tables, root, a).None? {
          WalkOfPage(tables, root, a, la);
        }
      }
    }

    /** The part of page_insert that follows get_pte. */
    method PutEntry(s: Slot, page: nat, perm: bv10)
      requires Dirs(tables, tree) && IsLeaf(tree, s) && page in ref
      requires Present(At(tables, s)) ==> At(tables, s).ppn in ref
      modifies `tables, `ref, `free
      ensures State() == Inserted(old(State()), s, page, PTE_V | perm)
    {
      PutIsInserted(State(), s, page, PTE_V | perm);
      ref := ref[page := ref[page] + 1];
      if Present(At(tables, s)) {
        if At(tables, s).ppn == page {
          ref := ref[page := ref[page] - 1];
        } else {
          RemovePte(s);
        }
      }
      tables := Write(tables, s, PteCreate(page, PTE_V | perm));
    }

    /** page_insert: update of the flat map, or -E_NO_MEM and no change to it. */
    method PageInsert(root: nat, page: nat, la: nat, perm: bv10) returns (ok: bool)
      requires Valid() && IsRoot(tree, root) && User(la)
      requires page in ref && page !in tables && page !in free
      modifies `tables, `ref, `free, `tree
      ensures Valid() && RootsKept(old(tree), tree) && ref.Keys == old(ref.Keys)
      ensures ok ==> MapsUpdated(old(tables), old(tree), tables, root, la, Some(PteCreate(page, PTE_V | perm)))
      ensures ok ==> FreedWhenUnused(old(State()), State()) && page !in free
      ensures ok ==> Walk(tables, root, la).Some? && WalksKept(old(tables), old(tree), tables)
      ensures ok ==> UsersUpdated(old(State()), State(), Walk(tables, root, la).value, page)
      ensures ok ==> Made(old(tables), old(tree), tables, root, la)
      ensures ok <==> Missing(old(tables), root, la) <= |old(free)|
      ensures ok && Mapped(old(tables), root, la).None? ==> |free| == |old(free)| - Missing(old(tables), root, la)
      ensures !ok ==> Kept(old(State()), State()) && free == {} && old(Walk(tables, root, la)).None?
    {
      var slot := GetPte(root, la, true);
      if slot.None? {
        return false;
      }
      ghost var mid := State();
      InsertEffect(mid, root, la, page, PTE_V | perm);
      PutEntry(slot.value, page, perm);
      KeptThenUpdated(old(State()), mid, State(), root, la, Some(PteCreate(page, PTE_V | perm)));
      MadeThenMade(old(State()), mid, State(), root, la);
      return true;
    }
  }

  /** After the first level of get_pte: `dir` is there, made if it was not. */
  ghost predicate DirMade(p: Phys, q: Phys, root: nat, la: nat, dir: nat) {
    && Kept(p, q) && At(q.ts, Slot(root, Pdx1(la))).ppn == dir && Present(At(q.ts, Slot(root, Pdx1(la))))
    && if Missing(p.ts, root, la) == 2
       then dir in p.free && dir !in p.ts && q.free == p.free - {dir} && root in p.ts && root != dir
            && Pdx1(la) < |p.ts[root]| && q.ts == Grown(p.ts, Slot(root, Pdx1(la)), dir)
       else q == p
  }

  lemma DirMissing(p: Phys, q: Phys, root: nat, la: nat, dir: nat)
    requires Sound(p) && IsRoot(p.tree, root) && User(la) && DirMade(p, q, root, la, dir)
    ensures Missing(q.ts, root, la) == if Missing(p.ts, root, la) == 2 then 1 else Missing(p.ts, root, la)
  {
    if Missing(p.ts, root, la) == 2 {
      GrownDir(p.ts, p.tree, root, la, dir, root, la);
    }
  }

  /** What get_pte has made: both tables, the second, or none. */
  lemma MadeTables(p: Phys, q: Phys, r: Phys, root: nat, la: nat, dir: nat, table: nat)
    requires Sound(p) && Sound(q) && IsRoot(p.tree, root) && User(la) && DirMade(p, q, root, la, dir)
    requires if Missing(p.ts, root, la) >= 1
             then table !in q.ts && dir in q.ts && Pdx0(la) < |q.ts[dir]|
                  && r.ts == Grown(q.ts, Slot(dir, Pdx0(la)), table)
             else r == q
    ensures Made(p.ts, p.tree, r.ts, root, la)
  {
    forall x: nat, a: nat | IsRoot(p.tree, x) && User(a) ensures MadeAt(p.ts, r.ts, root, la, x, a) {
      DirMissing(p, q, root, la, dir);
      if Missing(p.ts, root, la) == 2 {
        GrownDir(p.ts, p.tree, root, la, dir, x, a);
      }
      if Missing(p.ts, root, la) >= 1 {
        GrownTable(q.ts, q.tree, root, la, table, x, a);
      }
    }
  }

  lemma WriteTwice(ts: Tables, s: Slot, d: Entry, e: Entry)
    requires s.table in ts && s.index < |ts[s.table]|
    ensures Write(Write(ts, s, d), s, e) == Write(ts, s, e)
  {
    assert ts[s.table][s.index := d][s.index := e] == ts[s.table][s.index := e];
  }

  /** The reference is taken before the old entry is removed, which comes to the same. */
  lemma PutIsInserted(p: Phys, s: Slot, page: nat, perm: bv10)
    requires s.table in p.ts && s.index < |p.ts[s.table]| && page in p.ref
    requires Present(At(p.ts, s)) ==> At(p.ts, s).ppn in p.ref
    ensures var e, q := PteCreate(page, perm), p.(ref := p.ref[page := p.ref[page] + 1]);
            Inserted(p, s, page, perm) ==
              if !Present(At(p.ts, s)) then q.(ts := Write(p.ts, s, e))
              else if At(p.ts, s).ppn == page
                  then Phys(Write(p.ts, s, e), p.tree, q.ref[page := q.ref[page] - 1], p.free)
              else Removed(q, s).(ts := Write(Write(p.ts, s, EMPTY), s, e))
  {
    WriteTwice(p.ts, s, EMPTY, PteCreate(page, perm));
  }

  lemma KeptThenUpdated(p: Phys, m: Phys, q: Phys, root: nat, la: nat, v: Option<Entry>)
    requires Kept(p, m) && MapsUpdated(m.ts, m.tree, q.ts, root, la, v) && FreedWhenUnused(m, q)
    ensures MapsUpdated(p.ts, p.tree, q.ts, root, la, v) && FreedWhenUnused(p, q)
  {
    forall g ensures Dropped(p, q, g) == Dropped(m, q, g) {
    }
  }

  lemma MadeThenMade(p: Phys, q: Phys, r: Phys, root: nat, la: nat)
    requires RootsKept(p.tree, q.tree) && Made(p.ts, p.tree, q.ts, root, la) && Made(q.ts, q.tree, r.ts, root, la)
    ensures Made(p.ts, p.tree, r.ts, root, la)
  {
    forall x: nat, a: nat | IsRoot(p.tree, x) && User(a) ensures MadeAt(p.ts, r.ts, root, la, x, a) {
      assert MadeAt(p.ts, q.ts, root, la, x, a) && MadeAt(q.ts, r.ts, root, la, x, a);
    }
  }

  ghost predicate Sound(p: Phys) {
    Wf(p.ts, p.tree, p.ref, p.free)
  }

  /** The state after page_remove_pte on the entry at `s`. */
  function Removed(p: Phys, s: Slot): Phys
    requires s.table in p.ts && s.index < |p.ts[s.table]| && (Present(At(p.ts, s)) ==> At(p.ts, s).ppn in p.ref)
  {
    if !Present(At(p.ts, s)) then p
    else
      var g := At(p.ts, s).ppn;
      Phys(Write(p.ts, s, EMPTY), p.tree, p.ref[g := p.ref[g] - 1], Released(p.ref, p.free, g))
  }

  lemma RemoveEffect(p: Phys, root: nat, la: nat)
    requires Sound(p) && IsRoot(p.tree, root) && User(la) && Walk(p.ts, root, la).Some?
    ensures var s := Walk(p.ts, root, la).value;
            && IsLeaf(p.tree, s) && (Present(At(p.ts, s)) ==> At(p.ts, s).ppn in p.ref)
            && Sound(Removed(p, s)) && OnlyRemoved(p, Removed(p, s))
            && MapsUpdated(p.ts, p.tree, Removed(p, s).ts, root, la, None)
  {
    var s := Walk(p.ts, root, la).value;
    WalkEndsAtLeaf(p.ts, p.tree, root, la);
    if Present(At(p.ts, s)) {
      RemovedWf(p.ts, p.tree, p.ref, p.free, s);
    }
    var q := Removed(p, s);
    RemovedMaps(p, root, la);
    RemovedFrees(p, s);
  }

  lemma RemovedMaps(p: Phys, root: nat, la: nat)
    requires Sound(p) && IsRoot(p.tree, root) && User(la) && Walk(p.ts, root, la).Some?
    requires var s := Walk(p.ts, root, la).value;
             IsLeaf(p.tree, s) && (Present(At(p.ts, s)) ==> At(p.ts, s).ppn in p.ref)
    ensures MapsUpdated(p.ts, p.tree, Removed(p, Walk(p.ts, root, la).value).ts, root, la, None)
  {
    var s := Walk(p.ts, root, la).value;
    var q := Removed(p, s);
    forall r: nat, a: nat | IsRoot(p.tree, r) && User(a)
      ensures Mapped(q.ts, r, a) == if r == root && Vpn(a) == Vpn(la) then None else Mapped(p.ts, r, a) {
      if Present(At(p.ts, s)) {
        WriteMaps(p.ts, p.tree, root, la, EMPTY, r, a);
      } else if r == root && Vpn(a) == Vpn(la) {
        WalkOfPage(p.ts, root, a, la);
      }
    }
  }

  lemma RemovedFrees(p: Phys, s: Slot)
    requires Sound(p) && IsLeaf(p.tree, s) && (Present(At(p.ts, s)) ==> At(p.ts, s).ppn in p.ref)
    ensures OnlyRemoved(p, Removed(p, s))
  {
    var q := Removed(p, s);
    if Present(At(p.ts, s)) {
      var h := At(p.ts, s).ppn;
      assert Uses(p.ts, p.tree, s, h);
      assert s in Users(p.ts, p.tree, h);
      forall g ensures Users(q.ts, q.tree, g) == Users(p.ts, p.tree, g) - {s} {
        WriteUsers(p.ts, p.tree, s, EMPTY, g);
      }
      forall g ensures Dropped(p, q, g) ==> g == h {
        if g != h {
          assert s !in Users(p.ts, p.tree, g);
        }
      }
      assert |Users(q.ts, q.tree, h)| == p.ref[h] - 1;
    }
  }

  /** The state after page_insert has written `page` to the slot `s`. */
  function Inserted(p: Phys, s: Slot, page: nat, perm: bv10): Phys
    requires s.table in p.ts && s.index < |p.ts[s.table]| && page in p.ref
    requires Present(At(p.ts, s)) ==> At(p.ts, s).ppn in p.ref
  {
    var ts := Write(p.ts, s, PteCreate(page, perm));
    if Present(At(p.ts, s)) && At(p.ts, s).ppn == page then p.(ts := ts)
    else
      var q := Removed(p, s);
      Phys(ts, p.tree, q.ref[page := q.ref[page] + 1], q.free)
  }

  /** The users of each frame after page_insert. */
  lemma InsertedUsers(p: Phys, s: Slot, page: nat, perm: bv10, g: nat)
    requires Sound(p) && IsLeaf(p.tree, s) && page in p.ref
    requires Present(At(p.ts, s)) ==> At(p.ts, s).ppn in p.ref
    ensures var q := Inserted(p, s, page, perm);
            Users(q.ts, q.tree, g) == if g == page then Users(p.ts, p.tree, g) + {s} else Users(p.ts, p.tree, g) - {s}
  {
    WriteUsers(p.ts, p.tree, s, PteCreate(page, perm), g);
  }

  lemma InsertedSame(p: Phys, s: Slot, page: nat, perm: bv10)
    requires Sound(p) && IsLeaf(p.tree, s) && Uses(p.ts, p.tree, s, page) && page in p.ref
    ensures Sound(Inserted(p, s, page, perm)) && FreedWhenUnused(p, Inserted(p, s, page, perm))
  {
    var q := Inserted(p, s, page, perm);
    WriteKeepsDirs(p.ts, p.tree, s, PteCreate(page, perm));
    forall g ensures Users(q.ts, q.tree, g) == Users(p.ts, p.tree, g) {
      InsertedUsers(p, s, page, perm, g);
      assert s in Users(p.ts, p.tree, g) <==> g == page;
    }
    forall x: Slot, h: nat | Uses(q.ts, q.tree, x, h) ensures h in q.ref && h !in q.ts && h !in q.free {
      assert x in Users(p.ts, p.tree, h);
      assert Uses(p.ts, p.tree, x, h);
    }
  }

  lemma InsertedFresh(p: Phys, s: Slot, page: nat, perm: bv10)
    requires Sound(p) && IsLeaf(p.tree, s) && !Present(At(p.ts, s))
    requires page in p.ref && page !in p.ts && page !in p.free
    ensures Sound(Inserted(p, s, page, perm)) && FreedWhenUnused(p, Inserted(p, s, page, perm))
  {
    var q := Inserted(p, s, page, perm);
    EnteredWf(p.ts, p.tree, p.ref, p.free, s, PteCreate(page, perm));
    forall g ensures !Dropped(p, q, g) {
      InsertedUsers(p, s, page, perm, g);
      assert s !in Users(p.ts, p.tree, g);
    }
  }

  lemma InsertedOver(p: Phys, s: Slot, page: nat, perm: bv10)
    requires Sound(p) && IsLeaf(p.tree, s) && Present(At(p.ts, s)) && At(p.ts, s).ppn != page
    requires page in p.ref && page !in p.ts && page !in p.free
    ensures At(p.ts, s).ppn in p.ref
    ensures Sound(Inserted(p, s, page, perm)) && page !in Inserted(p, s, page, perm).free
  {
    RemovedWf(p.ts, p.tree, p.ref, p.free, s);
    var r, e := Removed(p, s), PteCreate(page, perm);
    EnteredWf(r.ts, r.tree, r.ref, r.free, s, e);
    WriteTwice(p.ts, s, EMPTY, e);
    assert Inserted(p, s, page, perm) == Phys(Write(r.ts, s, e), r.tree, r.ref[e.ppn := r.ref[e.ppn] + 1], r.free);
  }

  lemma InsertedOverFrees(p: Phys, s: Slot, page: nat, perm: bv10)
    requires Sound(p) && IsLeaf(p.tree, s) && Present(At(p.ts, s)) && At(p.ts, s).ppn != page
    requires page in p.ref && page !in p.ts && page !in p.free && At(p.ts, s).ppn in p.ref
    ensures FreedWhenUnused(p, Inserted(p, s, page, perm))
  {
    var r, q := Removed(p, s), Inserted(p, s, page, perm);
    RemovedFrees(p, s);
    forall g ensures Users(q.ts, q.tree, g) == if g == page
        then Users(r.ts, r.tree, g) + {s} else Users(r.ts, r.tree, g) {
      InsertedUsers(p, s, page, perm, g);
      WriteUsers(p.ts, p.tree, s, EMPTY, g);
    }
    forall g ensures Dropped(p, q, g) ==> Dropped(p, r, g) {
    }
    forall g | g in q.free && g !in p.free ensures Dropped(p, q, g) {
      assert Dropped(p, r, g);
    }
  }

  lemma InsertedSound(p: Phys, s: Slot, page: nat, perm: bv10)
    requires Sound(p) && IsLeaf(p.tree, s) && page in p.ref && page !in p.ts && page !in p.free
    ensures Present(At(p.ts, s)) ==> At(p.ts, s).ppn in p.ref
    ensures var q := Inserted(p, s, page, perm);
            Sound(q) && FreedWhenUnused(p, q) && page !in q.free
  {
    if !Present(At(p.ts, s)) {
      InsertedFresh(p, s, page, perm);
    } else if At(p.ts, s).ppn == page {
      InsertedSame(p, s, page, perm);
    } else {
      InsertedOver(p, s, page, perm);
      InsertedOverFrees(p, s, page, perm);
    }
  }

  lemma InsertedMaps(p: Phys, root: nat, la: nat, page: nat, perm: bv10)
    requires Sound(p) && IsRoot(p.tree, root) && User(la) && Walk(p.ts, root, la).Some? && page in p.ref
    requires var s := Walk(p.ts, root, la).value;
             IsLeaf(p.tree, s) && (Present(At(p.ts, s)) ==> At(p.ts, s).ppn in p.ref)
    ensures var q := Inserted(p, Walk(p.ts, root, la).value, page, perm);
            && MapsUpdated(p.ts, p.tree, q.ts, root, la, Some(PteCreate(page, perm)))
            && WalksKept(p.ts, p.tree, q.ts) && Made(p.ts, p.tree, q.ts, root, la)
  {
    var s := Walk(p.ts, root, la).value;
    var e, q := PteCreate(page, perm), Inserted(p, s, page, perm);
    forall r: nat, a: nat | IsRoot(p.tree, r) && User(a)
      ensures Mapped(q.ts, r, a) == if r == root && Vpn(a) == Vpn(la) then Some(e) else Mapped(p.ts, r, a)
      ensures Walk(q.ts, r, a) == Walk(p.ts, r, a) && MadeAt(p.ts, q.ts, root, la, r, a) {
      WriteMaps(p.ts, p.tree, root, la, e, r, a);
    }
  }

  lemma InsertedUsage(p: Phys, s: Slot, page: nat, perm: bv10)
    requires Sound(p) && IsLeaf(p.tree, s) && page in p.ref
    requires Present(At(p.ts, s)) ==> At(p.ts, s).ppn in p.ref
    ensures UsersUpdated(p, Inserted(p, s, page, perm), s, page)
    ensures Inserted(p, s, page, perm).ref.Keys == p.ref.Keys && Inserted(p, s, page, perm).tree == p.tree
  {
    var q := Inserted(p, s, page, perm);
    forall g: nat
      ensures Users(q.ts, q.tree, g) == if g == page
              then Users(p.ts, p.tree, g) + {s} else Users(p.ts, p.tree, g) - {s} {
      InsertedUsers(p, s, page, perm, g);
    }
  }

  lemma InsertEffect(p: Phys, root: nat, la: nat, page: nat, perm: bv10)
    requires Sound(p) && IsRoot(p.tree, root) && User(la) && Walk(p.ts, root, la).Some?
    requires page in p.ref && page !in p.ts && page !in p.free
    ensures var s := Walk(p.ts, root, la).value;
            && IsLeaf(p.tree, s) && (Present(At(p.ts, s)) ==> At(p.ts, s).ppn in p.ref)
            && var q := Inserted(p, s, page, perm);
               && Sound(q) && FreedWhenUnused(p, q) && page !in q.free
               && q.ref.Keys == p.ref.Keys && q.tree == p.tree
               && MapsUpdated(p.ts, p.tree, q.ts, root, la, Some(PteCreate(page, perm)))
               && WalksKept(p.ts, p.tree, q.ts) && UsersUpdated(p, q, s, page)
               && Made(p.ts, p.tree, q.ts, root, la) && (!Present(At(p.ts, s)) ==> q.free == p.free)
  {
    var s := Walk(p.ts, root, la).value;
    WalkEndsAtLeaf(p.ts, p.tree, root, la);
    InsertedSound(p, s, page, perm);
    InsertedMaps(p, root, la, page, perm);
    InsertedUsage(p, s, page, perm);
  }

  /** The free frames once `g` has lost a reference. */
  function Released(ref: map<nat, int>, free: set<nat>, g: nat): set<nat>
    requires g in ref
  {
    if ref[g] == 1 then free + {g} else free
  }

  lemma RemovedWf(ts: Tables, tree: Tree, ref: map<nat, int>, free: set<nat>, s: Slot)
    requires Wf(ts, tree, ref, free) && IsLeaf(tree, s) && Present(At(ts, s))
    ensures var g := At(ts, s).ppn;
            && g in ref && g !in free && g !in ts
            && Wf(Write(ts, s, EMPTY), tree, ref[g := ref[g] - 1], Released(ref, free, g))
  {
    var g, ts' := At(ts, s).ppn, Write(ts, s, EMPTY);
    assert Uses(ts, tree, s, g);
    WriteKeepsDirs(ts, tree, s, EMPTY);
    forall h ensures Users(ts', tree, h) == Users(ts, tree, h) - {s} {
      WriteUsers(ts, tree, s, EMPTY, h);
    }
    assert s in Users(ts, tree, g);
    assert |Users(ts', tree, g)| == ref[g] - 1;
    forall x: Slot, h: nat | Uses(ts', tree, x, h) ensures h in ref && h !in ts' && h !in Released(ref, free, g) {
      assert Uses(ts, tree, x, h);
      assert x in Users(ts', tree, h);
    }
  }

  lemma EnteredWf(ts: Tables, tree: Tree, ref: map<nat, int>, free: set<nat>, s: Slot, e: Entry)
    requires Wf(ts, tree, ref, free) && IsLeaf(tree, s) && !Present(At(ts, s))
    requires Present(e) && e.ppn in ref && e.ppn !in ts && e.ppn !in free
    ensures Wf(Write(ts, s, e), tree, ref[e.ppn := ref[e.ppn] + 1], free)
  {
    var ts' := Write(ts, s, e);
    WriteKeepsDirs(ts, tree, s, e);
    forall h ensures Users(ts', tree, h) == if h == e.ppn then Users(ts, tree, h) + {s} else Users(ts, tree, h) - {s} {
      WriteUsers(ts, tree, s, e, h);
    }
    forall x: Slot, h: nat | Uses(ts', tree, x, h) ensures h in ref && h !in ts' && h !in free {
      assert x != s ==> Uses(ts, tree, x, h);
    }
  }
}
