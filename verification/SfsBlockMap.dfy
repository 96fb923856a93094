/**
 The block map of the simple file system (kern/fs/sfs/sfs_inode.c): twelve direct blocks and one
 indirect block per inode, taken from and given back to the free-block bitmap.
 */
module SfsBlockMap {
  import opened Bitmap
  import opened Options
  import opened SfsDisk

  const NDIRECT := 12
  const MAXBLOCKS := NDIRECT + NENTRY

  datatype Inode = Inode(size: nat, blocks: nat, direct: seq<nat>, indirect: nat)

  /** A volume: the bitmap (set means free), super.unused_blocks, the blocks and the inodes. */
  datatype Vol = Vol(bits: seq<bool>, unused: int, disk: Disk, nodes: map<nat, Inode>)

  /** sfs_bmap_get_nolock without create: the disk block of logical block `k`, or 0. */
  function Lookup(disk: Disk, nd: Inode, k: nat): nat {
    if k < NDIRECT then if k < |nd.direct| then nd.direct[k] else 0
    else if k < MAXBLOCKS && 0 < nd.indirect < |disk| then EntryOf(disk[nd.indirect], k - NDIRECT)
    else 0
  }

  /** The contents of logical block `k` of inode `i`; a block that is not there reads as zeros. */
  function BlockAt(v: Vol, i: nat, k: nat): Block {
    if i !in v.nodes then Zeros() else
      var b := Lookup(v.disk, v.nodes[i], k);
      if 0 < b < |v.disk| then v.disk[b] else Zeros()
  }

  // ----- well formed volumes ------------------------------------------------------------------

  /** What a block in use is for. */
  datatype Pos = Node(ino: nat) | Data(ino: nat, index: nat) | Table(ino: nat)

  type Owners = map<nat, Pos>

  ghost predicate Held(v: Vol, owner: Owners, b: nat, p: Pos) {
    0 < b < |v.bits| && !v.bits[b] && b in owner && owner[b] == p
  }

  /** Logical block `k` of `i` is mapped just when it is below `blocks`, to a block in use that is
      held for this position and so for no other. */
  ghost predicate PosOk(v: Vol, owner: Owners, i: nat, k: nat) {
    i in v.nodes && k < MAXBLOCKS ==>
      var b := Lookup(v.disk, v.nodes[i], k);
      && (b != 0 <==> k < v.nodes[i].blocks)
      && (b != 0 ==> Held(v, owner, b, Data(i, k)))
  }

  ghost predicate NodeOk(v: Vol, owner: Owners, i: nat) {
    i in v.nodes ==>
      && |v.nodes[i].direct| == NDIRECT && v.nodes[i].blocks <= MAXBLOCKS && Held(v, owner, i, Node(i))
      && (v.nodes[i].indirect != 0 ==> Held(v, owner, v.nodes[i].indirect, Table(i)))
  }

  ghost predicate Wf(v: Vol, owner: Owners) {
    && 0 < |v.bits| == |v.disk| < 0x1_0000_0000 && !v.bits[0] && v.unused == Count(v.bits)
    && (forall i: nat :: NodeOk(v, owner, i))
    && (forall i: nat, k: nat :: PosOk(v, owner, i, k))
  }

  /** In use, but for no position yet. */
  ghost predicate Spare(v: Vol, owner: Owners, b: nat) {
    0 < b < |v.bits| && !v.bits[b] && b !in owner
  }

  /** No disk block belongs to two positions, and none that is the block of an inode to any. */
  lemma NoBlockTwice(v: Vol, owner: Owners, i: nat, k: nat, j: nat, n: nat)
    requires Wf(v, owner) && i in v.nodes && j in v.nodes && k < MAXBLOCKS && n < MAXBLOCKS
    requires Lookup(v.disk, v.nodes[i], k) == Lookup(v.disk, v.nodes[j], n) != 0
    ensures i == j && k == n
    ensures Lookup(v.disk, v.nodes[i], k) != v.nodes[j].indirect
    ensures Lookup(v.disk, v.nodes[i], k) !in v.nodes && v.nodes[j].indirect !in v.nodes
  {
    assert PosOk(v, owner, i, k) && PosOk(v, owner, j, n) && NodeOk(v, owner, j);
    assert NodeOk(v, owner, Lookup(v.disk, v.nodes[i], k)) && NodeOk(v, owner, v.nodes[j].indirect);
  }

  /** Past the last block of a file everything is zero. */
  lemma MissingIsZero(v: Vol, owner: Owners, i: nat, k: nat)
    requires Wf(v, owner) && i in v.nodes && k >= v.nodes[i].blocks
    ensures BlockAt(v, i, k) == Zeros()
  {
    assert PosOk(v, owner, i, k);
  }

  // ----- what stays the same ------------------------------------------------------------------

  ghost predicate KeptAt(v: Vol, v': Vol, j: nat, n: nat) {
    && j in v.nodes && j in v'.nodes
    && Lookup(v'.disk, v'.nodes[j], n) == Lookup(v.disk, v.nodes[j], n) && BlockAt(v', j, n) == BlockAt(v, j, n)
  }

  ghost predicate SameNode(v: Vol, v': Vol, j: nat) {
    j in v.nodes ==> j in v'.nodes && v'.nodes[j] == v.nodes[j]
  }

  /** Of inode `i` the first `m` blocks are mapped and filled as before; of all others everything is. */
  ghost predicate Keeps(v: Vol, v': Vol, i: nat, m: nat) {
    && v'.nodes.Keys == v.nodes.Keys
    && (forall j: nat | j != i :: SameNode(v, v', j))
    && (forall j: nat, n: nat | j in v.nodes && n < if j == i then m else v.nodes[j].blocks :: KeptAt(v, v', j, n))
  }

  lemma KeepsTransitive(u: Vol, v: Vol, w: Vol, i: nat, m: nat)
    requires Keeps(u, v, i, m) && Keeps(v, w, i, m)
    ensures Keeps(u, w, i, m)
  {
    forall j: nat | j != i ensures SameNode(u, w, j) {
      assert SameNode(u, v, j) && SameNode(v, w, j);
    }
    forall j: nat, n: nat | j in u.nodes && n < if j == i then m else u.nodes[j].blocks ensures KeptAt(u, w, j, n) {
      assert j != i ==> SameNode(u, v, j);
      assert KeptAt(u, v, j, n) && KeptAt(v, w, j, n);
    }
  }

  // ----- taking and releasing a block ---------------------------------------------------------

  /** sfs_block_alloc: the lowest free block, cleared. */
  function Taken(v: Vol): Vol
    requires Lowest(v.bits) < |v.bits|
  {
    var b := Lowest(v.bits);
    Vol(v.bits[b := false], v.unused - 1, Store(v.disk, b, Zeros()), v.nodes)
  }

  /** sfs_block_free. */
  function Released(v: Vol, b: nat): Vol
    requires b < |v.bits|
  {
    Vol(v.bits[b := true], v.unused + 1, v.disk, v.nodes)
  }

  lemma TakenWf(v: Vol, owner: Owners, i: nat, m: nat)
    requires Wf(v, owner) && Lowest(v.bits) < |v.bits|
    ensures var b := Lowest(v.bits);
            Wf(Taken(v), owner - {b}) && Spare(Taken(v), owner - {b}, b)
    ensures (i in v.nodes ==> m <= v.nodes[i].blocks) ==> Keeps(v, Taken(v), i, m)
    ensures v.unused > 0
  {
    var b, v' := Lowest(v.bits), Taken(v);
    CountUpdate(v.bits, b, false);
    CountPositive(v.bits, b);
    forall j: nat ensures NodeOk(v', owner - {b}, j) {
      assert NodeOk(v, owner, j);
    }
    forall j: nat, k: nat ensures PosOk(v', owner - {b}, j, k) {
      assert NodeOk(v, owner, j) && PosOk(v, owner, j, k);
    }
    forall j: nat, n: nat | j in v.nodes && n < v.nodes[j].blocks ensures KeptAt(v, v', j, n) {
      assert NodeOk(v, owner, j) && PosOk(v, owner, j, n);
    }
  }

  lemma ReleasedWf(v: Vol, owner: Owners, b: nat)
    requires Wf(v, owner) && Spare(v, owner, b)
    ensures Wf(Released(v, b), owner)
  {
    var v' := Released(v, b);
    CountUpdate(v.bits, b, true);
    forall j: nat ensures NodeOk(v', owner, j) {
      assert NodeOk(v, owner, j);
    }
    forall j: nat, k: nat ensures PosOk(v', owner, j, k) {
      assert PosOk(v, owner, j, k);
    }
  }

  // ----- writing one entry of the block map ---------------------------------------------------

  predicate CanPoint(v: Vol, i: nat, k: nat) {
    && i in v.nodes && k < MAXBLOCKS
    && if k < NDIRECT then |v.nodes[i].direct| == NDIRECT else v.nodes[i].indirect < |v.disk|
  }

  /** Logical block `k` of `i` names `b`. */
  function Point(v: Vol, i: nat, k: nat, b: nat): Vol
    requires CanPoint(v, i, k)
  {
    var nd := v.nodes[i];
    if k < NDIRECT then v.(nodes := v.nodes[i := nd.(direct := nd.direct[k := b])])
    else v.(disk := Store(v.disk, nd.indirect, PutEntry(v.disk[nd.indirect], k - NDIRECT, b)))
  }

  function SetBlocks(v: Vol, i: nat, n: nat): Vol
    requires i in v.nodes
  {
    v.(nodes := v.nodes[i := v.nodes[i].(blocks := n)])
  }

  ghost predicate Pointable(v: Vol, owner: Owners, i: nat, k: nat) {
    Wf(v, owner) && i in v.nodes && k < MAXBLOCKS && (k >= NDIRECT ==> v.nodes[i].indirect != 0)
  }

  lemma PointReady(v: Vol, owner: Owners, i: nat, k: nat)
    requires Pointable(v, owner, i, k)
    ensures CanPoint(v, i, k)
  {
    assert NodeOk(v, owner, i);
  }

  /** Only that entry changes, */
  lemma PointLookup(v: Vol, owner: Owners, i: nat, k: nat, b: nat, m: nat, j: nat, n: nat)
    requires Pointable(v, owner, i, k) && b < 0x1_0000_0000 && j in v.nodes && n < MAXBLOCKS
    ensures CanPoint(v, i, k)
    ensures var v' := SetBlocks(Point(v, i, k, b), i, m);
            Lookup(v'.disk, v'.nodes[j], n) == if j == i && n == k then b else Lookup(v.disk, v.nodes[j], n)
  {
    PointReady(v, owner, i, k);
    assert NodeOk(v, owner, i) && NodeOk(v, owner, j);
    if k >= NDIRECT && n >= NDIRECT {
      EntryPut(v.disk[v.nodes[i].indirect], k - NDIRECT, b, n - NDIRECT);
    }
  }

  /** and no data block does. */
  lemma PointKeeps(v: Vol, owner: Owners, i: nat, k: nat, b: nat, m: nat, q: nat)
    requires Pointable(v, owner, i, k) && b < 0x1_0000_0000 && q <= k && q <= v.nodes[i].blocks
    ensures CanPoint(v, i, k) && Keeps(v, SetBlocks(Point(v, i, k, b), i, m), i, q)
  {
    PointReady(v, owner, i, k);
    var v' := SetBlocks(Point(v, i, k, b), i, m);
    forall j: nat, n: nat | j in v.nodes && n < if j == i then q else v.nodes[j].blocks ensures KeptAt(v, v', j, n) {
      assert NodeOk(v, owner, j) && NodeOk(v, owner, i) && PosOk(v, owner, j, n);
      PointLookup(v, owner, i, k, b, m, j, n);
    }
  }

  // ----- one block more, one block less -------------------------------------------------------

  /** The spare block `b` becomes the next block of `i`. */
  function Grown(v: Vol, i: nat, b: nat): Vol
    requires i in v.nodes && CanPoint(v, i, v.nodes[i].blocks)
  {
    SetBlocks(Point(v, i, v.nodes[i].blocks, b), i, v.nodes[i].blocks + 1)
  }

  lemma GrownWf(v: Vol, owner: Owners, i: nat, b: nat)
    requires i in v.nodes && Pointable(v, owner, i, v.nodes[i].blocks) && Spare(v, owner, b)
    ensures CanPoint(v, i, v.nodes[i].blocks)
    ensures Wf(Grown(v, i, b), owner[b := Data(i, v.nodes[i].blocks)])
  {
    var k := v.nodes[i].blocks;
    PointReady(v, owner, i, k);
    var v', owner' := Grown(v, i, b), owner[b := Data(i, k)];
    forall j: nat ensures NodeOk(v', owner', j) {
      assert NodeOk(v, owner, j);
    }
    forall j: nat, n: nat ensures PosOk(v', owner', j, n) {
      assert PosOk(v, owner, j, n);
      if j in v.nodes && n < MAXBLOCKS {
        PointLookup(v, owner, i, k, b, k + 1, j, n);
      }
    }
  }

  lemma GrownBlock(v: Vol, owner: Owners, i: nat, b: nat)
    requires i in v.nodes && Pointable(v, owner, i, v.nodes[i].blocks) && Spare(v, owner, b)
    ensures CanPoint(v, i, v.nodes[i].blocks)
    ensures var k, v' := v.nodes[i].blocks, Grown(v, i, b);
            && Keeps(v, v', i, k) && Lookup(v'.disk, v'.nodes[i], k) == b && BlockAt(v', i, k) == v.disk[b]
  {
    var k := v.nodes[i].blocks;
    PointKeeps(v, owner, i, k, b, k + 1, k);
    assert NodeOk(v, owner, i);
    PointLookup(v, owner, i, k, b, k + 1, i, k);
  }

  /** The last block of `i` becomes spare. */
  function Shrunk(v: Vol, i: nat): Vol
    requires i in v.nodes && v.nodes[i].blocks > 0 && CanPoint(v, i, v.nodes[i].blocks - 1)
  {
    SetBlocks(Point(v, i, v.nodes[i].blocks - 1, 0), i, v.nodes[i].blocks - 1)
  }

  lemma LastIsPointable(v: Vol, owner: Owners, i: nat)
    requires Wf(v, owner) && i in v.nodes && v.nodes[i].blocks > 0
    ensures Pointable(v, owner, i, v.nodes[i].blocks - 1) && CanPoint(v, i, v.nodes[i].blocks - 1)
    ensures var b := Lookup(v.disk, v.nodes[i], v.nodes[i].blocks - 1);
            0 < b < |v.bits| && !v.bits[b]
  {
    assert NodeOk(v, owner, i) && PosOk(v, owner, i, v.nodes[i].blocks - 1);
  }

  lemma ShrunkPos(v: Vol, owner: Owners, i: nat, j: nat, n: nat)
    requires Wf(v, owner) && i in v.nodes && v.nodes[i].blocks > 0 && CanPoint(v, i, v.nodes[i].blocks - 1)
    requires Pointable(v, owner, i, v.nodes[i].blocks - 1)
    ensures PosOk(Shrunk(v, i), owner - {Lookup(v.disk, v.nodes[i], v.nodes[i].blocks - 1)}, j, n)
  {
    var k := v.nodes[i].blocks - 1;
    assert PosOk(v, owner, i, k) && PosOk(v, owner, j, n);
    if j in v.nodes && n < MAXBLOCKS {
      PointLookup(v, owner, i, k, 0, k, j, n);
    }
  }

  lemma ShrunkWf(v: Vol, owner: Owners, i: nat)
    requires Wf(v, owner) && i in v.nodes && v.nodes[i].blocks > 0
    ensures CanPoint(v, i, v.nodes[i].blocks - 1)
    ensures var k, v' := v.nodes[i].blocks - 1, Shrunk(v, i);
            var b := Lookup(v.disk, v.nodes[i], k);
            Wf(v', owner - {b}) && Spare(v', owner - {b}, b) && Keeps(v, v', i, k)
  {
    var k := v.nodes[i].blocks - 1;
    LastIsPointable(v, owner, i);
    var b, v' := Lookup(v.disk, v.nodes[i], k), Shrunk(v, i);
    PointKeeps(v, owner, i, k, 0, k, k);
    assert PosOk(v, owner, i, k);
    forall j: nat ensures NodeOk(v', owner - {b}, j) {
      assert NodeOk(v, owner, j);
    }
    forall j: nat, n: nat ensures PosOk(v', owner - {b}, j, n) {
      ShrunkPos(v, owner, i, j, n);
    }
  }

  /** sfs_bmap_truncate: the last block of `i` is free again. */
  function Cut(v: Vol, i: nat): Vol
    requires i in v.nodes && v.nodes[i].blocks > 0 && CanPoint(v, i, v.nodes[i].blocks - 1)
    requires Lookup(v.disk, v.nodes[i], v.nodes[i].blocks - 1) < |v.bits|
  {
    Released(Shrunk(v, i), Lookup(v.disk, v.nodes[i], v.nodes[i].blocks - 1))
  }

  lemma CutWf(v: Vol, owner: Owners, i: nat)
    requires Wf(v, owner) && i in v.nodes && v.nodes[i].blocks > 0
    ensures CanPoint(v, i, v.nodes[i].blocks - 1)
    ensures var k := v.nodes[i].blocks - 1; var b := Lookup(v.disk, v.nodes[i], k);
            0 < b < |v.bits| && !v.bits[b] && Wf(Cut(v, i), owner - {b}) && Keeps(v, Cut(v, i), i, k)
  {
    var k := v.nodes[i].blocks - 1;
    var b := Lookup(v.disk, v.nodes[i], k);
    LastIsPointable(v, owner, i);
    ShrunkWf(v, owner, i);
    ReleasedWf(Shrunk(v, i), owner - {b}, b);
    forall j: nat, n: nat | j in v.nodes
        && n < if j == i then k else v.nodes[j].blocks ensures KeptAt(v, Cut(v, i), j, n) {
      assert KeptAt(v, Shrunk(v, i), j, n);
    }
  }

  /** Freeing the last block and counting one less is that. */
  lemma FreeIsCut(v: Vol, owner: Owners, i: nat)
    requires Wf(v, owner) && i in v.nodes && v.nodes[i].blocks > 0
    ensures CanPoint(v, i, v.nodes[i].blocks - 1)
    ensures var k := v.nodes[i].blocks - 1; var b := Lookup(v.disk, v.nodes[i], k);
            && 0 < b < |v.bits|
            && var u := Released(Point(v, i, k, 0), b);
               && u.bits == v.bits[b := true] && u.unused == v.unused + 1
               && i in u.nodes && u.nodes[i].blocks == k + 1 && u.nodes[i].size == v.nodes[i].size
               && SetBlocks(u, i, k) == Cut(v, i) && Wf(Cut(v, i), owner - {b}) && Keeps(v, Cut(v, i), i, k)
  {
    CutWf(v, owner, i);
  }

  /** The cleared spare block `t` becomes the indirect block of `i`. */
  function Adopted(v: Vol, i: nat, t: nat): Vol
    requires i in v.nodes
  {
    v.(nodes := v.nodes[i := v.nodes[i].(indirect := t)])
  }

  lemma AdoptedWf(v: Vol, owner: Owners, i: nat, t: nat)
    requires Wf(v, owner) && i in v.nodes && v.nodes[i].indirect == 0 && Spare(v, owner, t) && v.disk[t] == Zeros()
    ensures Wf(Adopted(v, i, t), owner[t := Table(i)]) && Keeps(v, Adopted(v, i, t), i, v.nodes[i].blocks)
  {
    var v', owner' := Adopted(v, i, t), owner[t := Table(i)];
    forall j: nat ensures NodeOk(v', owner', j) {
      assert NodeOk(v, owner, j);
    }
    forall j: nat, n: nat ensures PosOk(v', owner', j, n) {
      assert PosOk(v, owner, j, n);
      if j == i && NDIRECT <= n < MAXBLOCKS {
        EntryZeros(n - NDIRECT);
      }
    }
    forall j: nat, n: nat | j in v.nodes && n < v.nodes[j].blocks ensures KeptAt(v, v', j, n) {
      assert NodeOk(v, owner, j) && PosOk(v, owner, j, n);
    }
  }

  // ----- the next block of a file -------------------------------------------------------------

  predicate Full(v: Vol) {
    Lowest(v.bits) == |v.bits|
  }

  predicate NeedsTable(v: Vol, i: nat)
    requires i in v.nodes
  {
    v.nodes[i].blocks >= NDIRECT && v.nodes[i].indirect == 0
  }

  /** The free blocks that it takes for `i` to have `t` blocks. */
  function Cost(v: Vol, i: nat, t: nat): nat
    requires i in v.nodes
  {
    if t <= v.nodes[i].blocks then 0
    else t - v.nodes[i].blocks + if v.nodes[i].indirect == 0 && t > NDIRECT then 1 else 0
  }

  /** `i` has `t` blocks or can be given them. */
  predicate Granted(v: Vol, i: nat, t: nat)
    requires i in v.nodes
  {
    t <= v.nodes[i].blocks || (t <= MAXBLOCKS && Cost(v, i, t) <= v.unused)
  }

  /** The volume in which the next block of `i` is going to be entered: one block has been taken,
      or two of which the first is its new indirect block; None when the volume is full. */
  function Prepared(v: Vol, i: nat): Option<(Vol, nat)>
    requires i in v.nodes
  {
    if Full(v) then None
    else if !NeedsTable(v, i) then Some((Taken(v), Lowest(v.bits)))
    else if Full(Taken(v)) then None
    else Some((Adopted(Taken(Taken(v)), i, Lowest(v.bits)), Lowest(Taken(v).bits)))
  }

  ghost function PreparedOwners(v: Vol, owner: Owners, i: nat): Owners
    requires i in v.nodes && Prepared(v, i).Some?
  {
    if !NeedsTable(v, i) then owner - {Lowest(v.bits)}
    else (owner - {Lowest(v.bits)} - {Lowest(Taken(v).bits)})[Lowest(v.bits) := Table(i)]
  }

  lemma PreparedWf(v: Vol, owner: Owners, i: nat)
    requires Wf(v, owner) && i in v.nodes && Prepared(v, i).Some?
    ensures var (w, b) := Prepared(v, i).value; var owner' := PreparedOwners(v, owner, i);
            && Wf(w, owner') && Spare(w, owner', b) && w.disk[b] == Zeros() && v.bits[b]
            && i in w.nodes && w.nodes[i].blocks == v.nodes[i].blocks && w.nodes[i].size == v.nodes[i].size
            && (w.nodes[i].blocks >= NDIRECT ==> w.nodes[i].indirect != 0)
            && Keeps(v, w, i, v.nodes[i].blocks)
  {
    var t, m := Lowest(v.bits), v.nodes[i].blocks;
    TakenWf(v, owner, i, m);
    if NeedsTable(v, i) {
      var v1, owner1 := Taken(v), owner - {t};
      var b := Lowest(v1.bits);
      TakenWf(v1, owner1, i, m);
      var v2, owner2 := Taken(v1), owner1 - {b};
      KeepsTransitive(v, v1, v2, i, m);
      AdoptedWf(v2, owner2, i, t);
      KeepsTransitive(v, v2, Adopted(v2, i, t), i, m);
    }
  }

  /** The block that is going to be the next of `i`, */
  function NewBlock(v: Vol, i: nat): nat
    requires i in v.nodes
  {
    match Prepared(v, i) case None => 0 case Some((w, b)) => b
  }

  /** and the volume once it has been entered but not counted. */
  function Entered(v: Vol, i: nat): Vol
    requires i in v.nodes
  {
    match Prepared(v, i)
    case None => v
    case Some((w, b)) => if CanPoint(w, i, v.nodes[i].blocks) then Point(w, i, v.nodes[i].blocks, b) else v
  }

  /** sfs_bmap_load for the block after the last: one block more, or None. */
  function Extended(v: Vol, i: nat): Option<(Vol, nat)>
    requires i in v.nodes
  {
    match Prepared(v, i)
    case None => None
    case Some((w, b)) => if CanPoint(w, i, v.nodes[i].blocks) && i in w.nodes && w.nodes[i].blocks == v.nodes[i].blocks
                         then Some((Grown(w, i, b), b)) else None
  }

  ghost function ExtendedOwners(v: Vol, owner: Owners, i: nat): Owners
    requires i in v.nodes && Prepared(v, i).Some?
  {
    PreparedOwners(v, owner, i)[Prepared(v, i).value.1 := Data(i, v.nodes[i].blocks)]
  }

  /** A block that was free follows the last one of `i`, cleared, and nothing else changes. */
  ghost predicate GrewByOne(v: Vol, v': Vol, i: nat, b: nat)
    requires i in v.nodes
  {
    var k := v.nodes[i].blocks;
    && Keeps(v, v', i, k) && i in v'.nodes
    && b < |v.bits| && v.bits[b] && 0 < b < |v'.bits| && !v'.bits[b] && Lookup(v'.disk, v'.nodes[i], k) == b
        && BlockAt(v', i, k) == Zeros()
    && v'.nodes[i].blocks == k + 1 && v'.nodes[i].size == v.nodes[i].size && k < MAXBLOCKS
    && v'.unused == v.unused - Cost(v, i, k + 1) >= 0
    && (v'.nodes[i].indirect == 0 <==> v.nodes[i].indirect == 0 && k < NDIRECT)
  }

  /** What an extension is: it fails just when no block is free, or only one and two are needed;
      otherwise the file grows by one block. */
  lemma ExtensionMeaning(v: Vol, owner: Owners, i: nat)
    requires Wf(v, owner) && i in v.nodes && v.nodes[i].blocks < MAXBLOCKS
    ensures Extended(v, i).Some? <==> Granted(v, i, v.nodes[i].blocks + 1)
    ensures Extended(v, i).Some? ==>
              && Prepared(v, i).Some?
              && var (v', b) := Extended(v, i).value;
                 && Wf(v', ExtendedOwners(v, owner, i)) && GrewByOne(v, v', i, b)
  {
    FullIsZero(v.bits);
    if !Full(v) {
      TakenWf(v, owner, i, 0);
      FullIsZero(Taken(v).bits);
    }
    if Prepared(v, i).Some? {
      PreparedWf(v, owner, i);
      var (w, b) := Prepared(v, i).value;
      var owner' := PreparedOwners(v, owner, i);
      GrownWf(w, owner', i, b);
      GrownBlock(w, owner', i, b);
      KeepsTransitive(v, w, Grown(w, i, b), i, v.nodes[i].blocks);
      assert PosOk(Grown(w, i, b), ExtendedOwners(v, owner, i), i, v.nodes[i].blocks);
    }
  }

  lemma FullIsZero(bits: seq<bool>)
    ensures Lowest(bits) == |bits| <==> Count(bits) == 0
  {
    if Lowest(bits) == |bits| {
      CountZero(bits);
    } else {
      CountPositive(bits, Lowest(bits));
    }
  }

  // ----- the operations -----------------------------------------------------------------------

  datatype Ret = Ok | NoMem | Inval | Panic

  /** How a load of block `k` of `i` ends. */
  function LoadRet(v: Vol, i: nat, k: nat): Ret
    requires i in v.nodes
  {
    if k > v.nodes[i].blocks || k >= MAXBLOCKS then Panic else if Granted(v, i, k + 1) then Ok else NoMem
  }

  /** Nothing changed but the contents of free blocks. */
  ghost predicate Untouched(v: Vol, v': Vol) {
    && v'.bits == v.bits && v'.unused == v.unused && v'.nodes == v.nodes && |v'.disk| == |v.disk|
    && forall b: nat | b < |v.disk| :: v'.disk[b] == v.disk[b] || (b < |v.bits| && v.bits[b])
  }

  lemma UntouchedWf(v: Vol, v': Vol, owner: Owners, i: nat)
    requires Wf(v, owner) && Untouched(v, v') && i in v.nodes
    ensures Wf(v', owner) && Keeps(v, v', i, v.nodes[i].blocks)
  {
    forall j: nat ensures NodeOk(v', owner, j) {
      assert NodeOk(v, owner, j);
    }
    forall j: nat, k: nat ensures PosOk(v', owner, j, k) {
      assert NodeOk(v, owner, j) && PosOk(v, owner, j, k);
    }
    forall j: nat, n: nat | j in v.nodes && n < v.nodes[j].blocks ensures KeptAt(v, v', j, n) {
      assert NodeOk(v, owner, j) && PosOk(v, owner, j, n);
    }
  }

  /** The volume after a create that failed: an indirect block that was cleared is free again. */
  function Failed(v: Vol, i: nat): Vol
    requires i in v.nodes
  {
    if NeedsTable(v, i) && !Full(v) then v.(disk := Store(v.disk, Lowest(v.bits), Zeros())) else v
  }

  /** The volume after a load of block `k` of `i`. */
  function Loaded(v: Vol, i: nat, k: nat): Vol
    requires i in v.nodes
  {
    if k != v.nodes[i].blocks || k >= MAXBLOCKS then v
    else match Extended(v, i)
      case None => Failed(v, i)
      case Some((w, b)) => w
  }

  ghost function LoadedOwners(v: Vol, owner: Owners, i: nat, k: nat): Owners
    requires i in v.nodes
  {
    if k == v.nodes[i].blocks < MAXBLOCKS && Prepared(v, i).Some? then ExtendedOwners(v, owner, i) else owner
  }

  lemma FailedUntouched(v: Vol, owner: Owners, i: nat)
    requires Wf(v, owner) && i in v.nodes
    ensures Untouched(v, Failed(v, i))
  {
  }

  /** What a load is. */
  lemma LoadedMeaning(v: Vol, owner: Owners, i: nat, k: nat)
    requires Wf(v, owner) && i in v.nodes
    ensures Wf(Loaded(v, i, k), LoadedOwners(v, owner, i, k))
    ensures k < v.nodes[i].blocks || LoadRet(v, i, k).Panic? ==> Loaded(v, i, k) == v
    ensures LoadRet(v, i, k).NoMem? ==> Untouched(v, Loaded(v, i, k)) && Loaded(v, i, k) == Failed(v, i)
    ensures k == v.nodes[i].blocks < MAXBLOCKS ==>
              (LoadRet(v, i, k).Ok? <==> Prepared(v, i).Some?) && (LoadRet(v, i, k).Ok? <==> Extended(v, i).Some?)
    ensures k == v.nodes[i].blocks && LoadRet(v, i, k).Ok? ==>
              GrewByOne(v, Loaded(v, i, k), i, Lookup(Loaded(v, i, k).disk, Loaded(v, i, k).nodes[i], k))
    ensures i in Loaded(v, i, k).nodes
    ensures LoadRet(v, i, k).Ok? ==>
              var w := Loaded(v, i, k); var b := Lookup(w.disk, w.nodes[i], k);
              0 < b < |w.bits| && !w.bits[b] && b < |w.disk| && w.disk[b] == BlockAt(w, i, k)
  {
    assert NodeOk(v, owner, i) && PosOk(v, owner, i, k);
    if k == v.nodes[i].blocks < MAXBLOCKS {
      ExtensionMeaning(v, owner, i);
      if Extended(v, i).None? {
        PreparedIfExtended(v, owner, i);
        FailedUntouched(v, owner, i);
        UntouchedWf(v, Failed(v, i), owner, i);
      }
    }
  }

  lemma PreparedIfExtended(v: Vol, owner: Owners, i: nat)
    requires Wf(v, owner) && i in v.nodes && v.nodes[i].blocks < MAXBLOCKS
    ensures Prepared(v, i).Some? <==> Extended(v, i).Some?
  {
    if Prepared(v, i).Some? {
      PreparedWf(v, owner, i);
      PointReady(Prepared(v, i).value.0, PreparedOwners(v, owner, i), i, v.nodes[i].blocks);
    }
  }

  /** Counting the block that has been entered is that. */
  lemma EnteredIsLoaded(v: Vol, owner: Owners, i: nat)
    requires Wf(v, owner) && i in v.nodes && v.nodes[i].blocks < MAXBLOCKS && Prepared(v, i).Some?
    ensures var k, u, b := v.nodes[i].blocks, Entered(v, i), NewBlock(v, i); var w := Loaded(v, i, k);
            && i in u.nodes && SetBlocks(u, i, k + 1) == w && Wf(w, LoadedOwners(v, owner, i, k))
            && 0 < b < |u.bits| && !u.bits[b] && i in w.nodes && b == Lookup(w.disk, w.nodes[i], k)
  {
    PreparedWf(v, owner, i);
    ExtensionMeaning(v, owner, i);
    PreparedIfExtended(v, owner, i);
  }

  /** A load of the next block, case by case. */
  lemma NextLoad(v: Vol, owner: Owners, i: nat)
    requires Wf(v, owner) && i in v.nodes
    ensures var k := v.nodes[i].blocks; var w := Loaded(v, i, k);
            && (k >= MAXBLOCKS ==> LoadRet(v, i, k) == Panic && w == v)
            && (k < MAXBLOCKS && Prepared(v, i).None? ==>
                  LoadRet(v, i, k) == NoMem && w == Failed(v, i) && Wf(w, owner))
            && (k < MAXBLOCKS && Prepared(v, i).Some? ==>
                  && LoadRet(v, i, k) == Ok && i in Entered(v, i).nodes && w == SetBlocks(Entered(v, i), i, k + 1)
                  && Wf(w, LoadedOwners(v, owner, i, k)) && i in w.nodes
                      && NewBlock(v, i) == Lookup(w.disk, w.nodes[i], k)
                  && 0 < NewBlock(v, i) < |Entered(v, i).bits| && !Entered(v, i).bits[NewBlock(v, i)])
  {
    LoadedMeaning(v, owner, i, v.nodes[i].blocks);
    if v.nodes[i].blocks < MAXBLOCKS && Prepared(v, i).Some? {
      EnteredIsLoaded(v, owner, i);
    }
  }

  class Fs {
    var bits: seq<bool>
    var unused: int
    var disk: Disk
    var nodes: map<nat, Inode>
    ghost var owner: Owners

    ghost function State(): Vol
      reads this
    {
      Vol(bits, unused, disk, nodes)
    }

    ghost predicate Valid()
      reads this
    {
      Wf(State(), owner)
    }

    /** What sfs_do_mount finds on the disk. */
    constructor (freemap: seq<bool>, unusedBlocks: int, blocks: Disk, inodes: map<nat, Inode>, ghost holders: Owners)
      requires Wf(Vol(freemap, unusedBlocks, blocks, inodes), holders)
      ensures Valid() && State() == Vol(freemap, unusedBlocks, blocks, inodes)
    {
      bits, unused, disk, nodes, owner := freemap, unusedBlocks, blocks, inodes, holders;
    }

    /** sfs_block_alloc. */
    method BlockAlloc() returns (ret: Ret, ino: nat)
      requires |bits| == |disk| > 0 && !bits[0] && unused == Count(bits)
      modifies `bits, `unused, `disk
      ensures ret == if Full(old(State())) then NoMem else Ok
      ensures ret.NoMem? ==> State() == old(State())
      ensures ret.Ok? ==> ino == Lowest(old(bits)) && State() == Taken(old(State()))
    {
      ino := Lowest(bits);
      if ino == |bits| {
        return NoMem, ino;
      }
      CountPositive(bits, ino);
      bits := bits[ino := false];
      assert unused > 0;
      unused := unused - 1;
      assert ino != 0 && ino < |bits| && !bits[ino];
      disk := disk[ino := Zeros()];
      return Ok, ino;
    }

    /** sfs_block_free. */
    method BlockFree(ino: nat)
      requires 0 < ino < |bits| && !bits[ino]
      modifies `bits, `unused
      ensures State() == Released(old(State()), ino)
    {
      bits := bits[ino := true];
      unused := unused + 1;
    }

    /** sfs_bmap_get_sub_nolock: entry `index` of the indirect block `entp`. */
    method GetSub(entp: nat, index: nat, create: bool, ghost i: nat) returns (ret: Ret, ent: nat, ino: nat)
      requires Valid() && i in nodes && entp == nodes[i].indirect && index < NENTRY
      requires create ==> nodes[i].blocks == NDIRECT + index
      modifies `bits, `unused, `disk
      ensures !create ==>
                && ret.Ok? && ent == entp && ino == Lookup(disk, nodes[i], NDIRECT + index) && State() == old(State())
      ensures create ==> ret == if Prepared(old(State()), i).None? then NoMem else Ok
      ensures create && ret.NoMem? ==> State() == Failed(old(State()), i)
      ensures create && ret.Ok? ==>
                var (w, b) := Prepared(old(State()), i).value;
                && ino == b && CanPoint(w, i, NDIRECT + index) && ent == w.nodes[i].indirect
                && Adopted(State(), i, ent) == Point(w, i, NDIRECT + index, b)
    {
      ghost var v := State();
      assert NodeOk(v, owner, i) && PosOk(v, owner, i, NDIRECT + index);
      ent, ino := entp, 0;
      if ent != 0 {
        ino := EntryOf(disk[ent], index);
        if ino != 0 || !create {
          return Ok, ent, ino;
        }
      } else {
        if !create {
          return Ok, ent, ino;
        }
        ret, ent := BlockAlloc();
        if ret.NoMem? {
          return;
        }
        TakenWf(v, owner, i, 0);
      }
      ghost var u := State();
      ret, ino := BlockAlloc();
      if ret.NoMem? {
        if ent != entp {
          BlockFree(ent);
          assert v.bits[ent := false][ent := true] == v.bits;
        }
        return;
      }
      PreparedWf(v, owner, i);
      disk := disk[ent := PutEntry(disk[ent], index, ino)];
    }

    /** sfs_bmap_get_nolock. */
    method Get(i: nat, index: nat, create: bool) returns (ret: Ret, ino: nat)
      requires Valid() && i in nodes && (create ==> nodes[i].blocks == index)
      modifies `bits, `unused, `disk, `nodes
      ensures ret.Panic? <==> index >= MAXBLOCKS
      ensures ret.Panic? ==> State() == old(State())
      ensures !create && !ret.Panic? ==> ret.Ok? && ino == old(Lookup(disk, nodes[i], index)) && State() == old(State())
      ensures create && !ret.Panic? ==> ret == if Prepared(old(State()), i).None? then NoMem else Ok
      ensures create && ret.NoMem? ==> State() == Failed(old(State()), i)
      ensures create && ret.Ok? ==> ino == NewBlock(old(State()), i) && State() == Entered(old(State()), i)
    {
      ghost var v := State();
      assert NodeOk(v, owner, i) && PosOk(v, owner, i, index);
      if index < NDIRECT {
        ret, ino := Ok, nodes[i].direct[index];
        if ino == 0 && create {
          ret, ino := BlockAlloc();
          if ret.NoMem? {
            return;
          }
          nodes := nodes[i := nodes[i].(direct := nodes[i].direct[index := ino])];
        }
      } else if index - NDIRECT < NENTRY {
        var ent;
        ret, ent, ino := GetSub(nodes[i].indirect, index - NDIRECT, create, i);
        if ret.NoMem? {
          return;
        }
        if ent != nodes[i].indirect {
          assert nodes[i].indirect == 0;
          nodes := nodes[i := nodes[i].(indirect := ent)];
        } else {
          assert nodes[i := nodes[i].(indirect := ent)] == nodes;
        }
      } else {
        return Panic, 0;
      }
      if create {
        PreparedWf(v, owner, i);
      }
      assert ino == 0 || (ino < |bits| && !bits[ino]);
    }

    /** sfs_bmap_load_nolock: the block with this index, or one more block when it is the next.  Its
        first assert and the panic of sfs_bmap_get_nolock are the outcome Panic. */
    method Load(i: nat, index: nat) returns (ret: Ret, ino: nat)
      requires Valid() && i in nodes
      modifies this
      ensures Valid() && i in nodes
      ensures ret == LoadRet(old(State()), i, index) && State() == Loaded(old(State()), i, index)
      ensures ret.Ok? ==> ino == Lookup(disk, nodes[i], index)
    {
      ghost var v := State();
      LoadedMeaning(v, owner, i, index);
      if index > nodes[i].blocks {
        return Panic, 0;
      }
      assert NodeOk(v, owner, i) && PosOk(v, owner, i, index);
      var create := index == nodes[i].blocks;
      if create {
        ret, ino := LoadNext(i, index);
      } else {
        ret, ino := Get(i, index, false);
        assert ino != 0 && ino < |bits| && !bits[ino];
      }
    }

    /** din->blocks. */
    method CountBlocks(i: nat, n: nat, ghost holders: Owners)
      requires i in nodes && Wf(SetBlocks(State(), i, n), holders)
      modifies `nodes, `owner
      ensures Valid() && i in old(nodes) && State() == SetBlocks(old(State()), i, n)
    {
      nodes := nodes[i := nodes[i].(blocks := n)];
      owner := holders;
    }

    /** sfs_bmap_load_nolock with create set. */
    method LoadNext(i: nat, index: nat) returns (ret: Ret, ino: nat)
      requires Valid() && i in nodes && index == nodes[i].blocks
      modifies this
      ensures Valid()
      ensures ret == LoadRet(old(State()), i, index) && State() == Loaded(old(State()), i, index)
      ensures i in nodes && (ret.Ok? ==> ino == Lookup(disk, nodes[i], index))
    {
      ghost var v := State();
      NextLoad(v, owner, i);
      ret, ino := Get(i, index, true);
      if ret.Ok? {
        assert ino != 0 && ino < |bits| && !bits[ino];
        CountBlocks(i, index + 1, LoadedOwners(v, owner, i, index));
      }
    }

    /** sfs_bmap_free_sub_nolock. */
    method FreeSub(ent: nat, index: nat)
      requires |bits| == |disk| && index < NENTRY && 0 < ent < |bits| && !bits[ent]
      requires var ino := EntryOf(disk[ent], index); ino != 0 ==> ino < |bits| && !bits[ino]
      modifies `bits, `unused, `disk
      ensures var ino := EntryOf(old(disk)[ent], index);
              State() == if ino == 0 then old(State())
                         else Released(old(State()), ino).(disk := old(disk)[ent := PutEntry(old(disk)[ent], index, 0)])
    {
      var ino := EntryOf(disk[ent], index);
      if ino != 0 {
        disk := disk[ent := PutEntry(disk[ent], index, 0)];
        BlockFree(ino);
      }
    }

    /** sfs_bmap_free_nolock. */
    method Free(i: nat, index: nat)
      requires Valid() && i in nodes
      modifies `bits, `unused, `disk, `nodes
      ensures index >= old(nodes[i].blocks) ==> State() == old(State())
      ensures index < old(nodes[i].blocks) ==>
                && CanPoint(old(State()), i, index) && 0 < old(Lookup(disk, nodes[i], index)) < |old(bits)|
                && State() == Released(Point(old(State()), i, index, 0), old(Lookup(disk, nodes[i], index)))
    {
      assert NodeOk(State(), owner, i) && PosOk(State(), owner, i, index);
      if index < NDIRECT {
        var ino := nodes[i].direct[index];
        if ino != 0 {
          BlockFree(ino);
          nodes := nodes[i := nodes[i].(direct := nodes[i].direct[index := 0])];
        }
      } else if index - NDIRECT < NENTRY {
        var ent := nodes[i].indirect;
        if ent != 0 {
          FreeSub(ent, index - NDIRECT);
        }
      }
    }

    /** sfs_bmap_truncate_nolock: the last block of the file is free again. */
    method Truncate(i: nat)
      requires Valid() && i in nodes && nodes[i].blocks != 0
      modifies this
      ensures Valid() && unused == old(unused) + 1
      ensures Keeps(old(State()), State(), i, old(nodes[i].blocks) - 1)
      ensures i in nodes && nodes[i].blocks == old(nodes[i].blocks) - 1 && nodes[i].size == old(nodes[i].size)
      ensures var b := old(Lookup(disk, nodes[i], nodes[i].blocks - 1));
              0 < b < |old(bits)| && bits == old(bits)[b := true]
    {
      ghost var v := State();
      ghost var b := Lookup(disk, nodes[i], nodes[i].blocks - 1);
      FreeIsCut(v, owner, i);
      Free(i, nodes[i].blocks - 1);
      CountBlocks(i, nodes[i].blocks - 1, owner - {b});
    }
  }
}
