/**
 The image builder tools/mksfs.c: every image it makes is a volume that the kernel's block map can
 rely on, and a file in it reads as the file it was made from.
 */
module Mksfs {
  import opened Options
  import opened SfsDisk
  import opened Bitmap
  import opened SfsBlockMap
  import opened SfsFile

  const BLKBITS := 32768
  const MAX_NBLKS := 0x8_0000
  const SUPER := 0
  const ROOT := 1
  const FREEMAP := 2
  const SFS_MAGIC := 0x2f8dbe2a

  /** The blocks of the free-block bitmap, and the first block after them. */
  function MapBlocks(n: nat): nat { (n + BLKBITS - 1) / BLKBITS }
  function Reserved(n: nat): nat { FREEMAP + MapBlocks(n) }

  /** The free-block bitmap of an image in which the blocks from `next` on are unused. */
  function FreeFrom(n: nat, next: nat): (bits: seq<bool>)
    ensures |bits| == n && forall b | 0 <= b < n :: bits[b] <==> b >= next
  {
    seq(n, b => b >= next)
  }

  lemma FreeFromCount(n: nat, next: nat)
    requires next <= n
    ensures Count(FreeFrom(n, next)) == n - next
  {
    var lo, hi := seq(next, b => false), seq(n - next, b => true);
    assert FreeFrom(n, next) == lo + hi;
    CountConcat(lo, hi);
    CountZero(lo);
    CountAll(hi);
  }

  const NEWNODE := Inode(0, 0, [0, 0, 0, 0, 0, 0, 0, 0, 0, 0, 0, 0], 0)

  // ----- steps of the builder on volumes ------------------------------------------------------

  /** A free block taken, with its contents left as they are. */
  function Claimed(v: Vol, b: nat): Vol
    requires b < |v.bits|
  {
    v.(bits := v.bits[b := false], unused := v.unused - 1)
  }

  lemma ClaimedWf(v: Vol, owner: Owners, b: nat, i: nat, m: nat)
    requires Wf(v, owner) && b < |v.bits| && v.bits[b] && (i in v.nodes ==> m <= v.nodes[i].blocks)
    ensures Wf(Claimed(v, b), owner - {b}) && Spare(Claimed(v, b), owner - {b}, b) && Keeps(v, Claimed(v, b), i, m)
  {
    var v', owner' := Claimed(v, b), owner - {b};
    CountUpdate(v.bits, b, false);
    forall j: nat ensures NodeOk(v', owner', j) {
      assert NodeOk(v, owner, j);
    }
    forall j: nat, k: nat ensures PosOk(v', owner', j, k) {
      assert PosOk(v, owner, j, k);
    }
  }

  /** A block that is in use for nothing yet may be filled. */
  lemma FilledWf(v: Vol, owner: Owners, b: nat, blk: Block, i: nat, m: nat)
    requires Wf(v, owner) && Spare(v, owner, b) && (i in v.nodes ==> m <= v.nodes[i].blocks)
    ensures var v' := Overwritten(v, b, blk);
            Wf(v', owner) && Spare(v', owner, b) && v'.disk[b] == blk && Keeps(v, v', i, m)
  {
    var v' := Overwritten(v, b, blk);
    forall j: nat ensures NodeOk(v', owner, j) {
      assert NodeOk(v, owner, j);
    }
    forall j: nat, k: nat ensures PosOk(v', owner, j, k) {
      assert NodeOk(v, owner, j) && PosOk(v, owner, j, k);
    }
    forall j: nat, n: nat | j in v.nodes && n < v.nodes[j].blocks ensures KeptAt(v, v', j, n) {
      assert NodeOk(v, owner, j) && PosOk(v, owner, j, n);
    }
  }

  /** A new inode. */
  lemma NewNodeWf(v: Vol, owner: Owners, ino: nat)
    requires Wf(v, owner) && ino !in v.nodes && Spare(v, owner, ino)
    ensures Wf(v.(nodes := v.nodes[ino := NEWNODE]), owner[ino := Node(ino)])
  {
    var v', owner' := v.(nodes := v.nodes[ino := NEWNODE]), owner[ino := Node(ino)];
    forall j: nat ensures NodeOk(v', owner', j) {
      assert NodeOk(v, owner, j);
    }
    forall j: nat, k: nat ensures PosOk(v', owner', j, k) {
      assert PosOk(v, owner, j, k);
    }
  }

  // ----- the freemap on the disk --------------------------------------------------------------

  function BitOfByte(b: nat, t: nat): bool {
    if t == 0 then b % 2 == 1 else BitOfByte(b / 2, t - 1)
  }

  /** Bits to a number, lowest first. */
  function PackByte(bits: seq<bool>): (b: nat)
    requires |bits| <= 8
    ensures b < [1, 2, 4, 8, 16, 32, 64, 128, 256][|bits|]
  {
    if bits == [] then 0 else (if bits[0] then 1 else 0) + 2 * PackByte(bits[1..])
  }

  lemma {:induction false} PackedByte(bits: seq<bool>, t: nat)
    requires t < |bits| <= 8
    ensures BitOfByte(PackByte(bits), t) <==> bits[t]
  {
    if t > 0 {
      PackedByte(bits[1..], t - 1);
      assert PackByte(bits) / 2 == PackByte(bits[1..]);
    }
  }

  /** Bit `j` of a block, as bitmap_test finds it. */
  function BitOfBlock(b: Block, j: nat): bool
    requires j < BLKBITS
  {
    BitOfByte(b[j / 8], j % 8)
  }

  function Pack(bits: seq<bool>): Block
    requires |bits| == BLKBITS
  {
    seq(BLKSIZE, x requires 0 <= x < BLKSIZE => PackByte(bits[8 * x..8 * x + 8]))
  }

  /** Bits packed into a block are found again. */
  lemma PackedBit(bits: seq<bool>, j: nat)
    requires |bits| == BLKBITS && j < BLKBITS
    ensures BitOfBlock(Pack(bits), j) <==> bits[j]
  {
    var x, t := j / 8, j % 8;
    PackedByte(bits[8 * x..8 * x + 8], t);
    assert bits[8 * x..8 * x + 8][t] == bits[j];
  }

  /** The bitmap stands on the disk: the bits from `next` up to `n`. */
  ghost predicate FreemapOn(disk: Disk, n: nat, next: nat) {
    Reserved(n) <= |disk| && forall f: nat | f < MapBlocks(n) :: FreemapBlock(disk[FREEMAP + f], f * BLKBITS, n, next)
  }

  /** Bit `x` of a freemap block is set just when block `base + x` exists and is unused. */
  ghost predicate FreemapBlock(b: Block, base: nat, n: nat, next: nat) {
    forall x: nat | x < BLKBITS :: BitOfBlock(b, x) <==> next <= base + x < n
  }

  ghost predicate SuperOn(disk: Disk, n: nat, unused: int) {
    && disk != [] && EntryOf(disk[SUPER], 0) == SFS_MAGIC
    && EntryOf(disk[SUPER], 1) == n && EntryOf(disk[SUPER], 2) == unused
  }

  /** Blocks that belong to nothing may be written. */
  lemma ReservedWf(v: Vol, owner: Owners, b: nat, blk: Block)
    requires Wf(v, owner) && b !in owner
    ensures var v' := Overwritten(v, b, blk);
            Wf(v', owner) && forall j: nat, k: nat | j in v.nodes && k < v.nodes[j].blocks :: KeptAt(v, v', j, k)
  {
    var v' := Overwritten(v, b, blk);
    forall j: nat ensures NodeOk(v', owner, j) {
      assert NodeOk(v, owner, j);
    }
    forall j: nat, k: nat ensures PosOk(v', owner, j, k) {
      assert NodeOk(v, owner, j) && PosOk(v, owner, j, k);
    }
    forall j: nat, k: nat | j in v.nodes && k < v.nodes[j].blocks ensures KeptAt(v, v', j, k) {
      assert NodeOk(v, owner, j) && PosOk(v, owner, j, k);
    }
  }

  // ----- inodes on the disk -------------------------------------------------------------------

  /** 32-bit words written one after the other, from word `at` on. */
  function PutWords(b: Block, at: nat, ws: seq<nat>): Block
    requires at + |ws| <= NENTRY
    decreases |ws|
  {
    if ws == [] then b else PutWords(PutEntry(b, at, ws[0]), at + 1, ws[1..])
  }

  lemma {:induction false} WordsKept(b: Block, at: nat, ws: seq<nat>, j: nat)
    requires at + |ws| <= NENTRY && j < NENTRY && forall k | 0 <= k < |ws| :: ws[k] < 0x1_0000_0000
    ensures EntryOf(PutWords(b, at, ws), j) == if at <= j < at + |ws| then ws[j - at] else EntryOf(b, j)
    decreases |ws|
  {
    if ws != [] {
      WordsKept(PutEntry(b, at, ws[0]), at + 1, ws[1..], j);
      EntryPut(b, at, ws[0], j);
    }
  }

  /** struct inode in a block; `tag` is the type and the number of links. */
  function Layout(nd: Inode, tag: nat): seq<nat> {
    [nd.size, tag, nd.blocks] + nd.direct + [nd.indirect]
  }

  /** What sfs_load_inode makes of it. */
  function NodeOf(b: Block): Inode {
    Inode(EntryOf(b, 0), EntryOf(b, 2), seq(NDIRECT, k requires 0 <= k < NDIRECT => EntryOf(b, 3 + k)), EntryOf(b, 15))
  }

  predicate Fits(nd: Inode) {
    && nd.size < 0x1_0000_0000 && nd.blocks < 0x1_0000_0000 && nd.indirect < 0x1_0000_0000
    && |nd.direct| == NDIRECT && forall k | 0 <= k < NDIRECT :: nd.direct[k] < 0x1_0000_0000
  }

  /** An inode is read back as it was written. */
  lemma NodeRoundTrip(nd: Inode, tag: nat)
    requires Fits(nd) && tag < 0x1_0000_0000
    ensures |Layout(nd, tag)| == 16 && NodeOf(PutWords(Zeros(), 0, Layout(nd, tag))) == nd
  {
    var ws := Layout(nd, tag);
    var b := PutWords(Zeros(), 0, ws);
    forall j: nat | j < 16 ensures EntryOf(b, j) == ws[j] {
      WordsKept(Zeros(), 0, ws, j);
    }
    assert NodeOf(b).direct == nd.direct;
  }

  /** In a well formed volume the inodes fit, if their sizes do. */
  lemma NodesFit(v: Vol, owner: Owners, i: nat)
    requires Wf(v, owner) && i in v.nodes && v.nodes[i].size <= v.nodes[i].blocks * BLKSIZE
    ensures Fits(v.nodes[i])
  {
    assert NodeOk(v, owner, i);
    forall k: nat | k < NDIRECT ensures v.nodes[i].direct[k] < 0x1_0000_0000 {
      assert PosOk(v, owner, i, k);
    }
  }

  /** Writing an inode changes no block of any file. */
  lemma FlushedWf(v: Vol, owner: Owners, i: nat, blk: Block)
    requires Wf(v, owner) && i in v.nodes
    ensures var v' := Overwritten(v, i, blk); Wf(v', owner) && Keeps(v, v', i, v.nodes[i].blocks)
  {
    var v' := Overwritten(v, i, blk);
    assert NodeOk(v, owner, i);
    forall j: nat ensures NodeOk(v', owner, j) {
      assert NodeOk(v, owner, j);
    }
    forall j: nat, k: nat ensures PosOk(v', owner, j, k) {
      assert NodeOk(v, owner, j) && PosOk(v, owner, j, k);
    }
    forall j: nat, n: nat | j in v.nodes && n < v.nodes[j].blocks ensures KeptAt(v, v', j, n) {
      assert NodeOk(v, owner, j) && PosOk(v, owner, j, n);
    }
  }

  // ----- the builder --------------------------------------------------------------------------

  /** The cached indirect block is the one that the inode names, and the size is within the blocks. */
  ghost predicate CacheOk(nodes: map<nat, Inode>, l1: map<nat, nat>, i: nat) {
    i in nodes ==> i in l1 && l1[i] == nodes[i].indirect && nodes[i].size <= nodes[i].blocks * BLKSIZE
  }

  ghost predicate Cached(nodes: map<nat, Inode>, l1: map<nat, nat>) {
    forall i: nat :: CacheOk(nodes, l1, i)
  }

  lemma CachedUpdate(nodes: map<nat, Inode>, l1: map<nat, nat>, i: nat, nd: Inode)
    requires Cached(nodes, l1) && nd.size <= nd.blocks * BLKSIZE
    ensures Cached(nodes[i := nd], l1[i := nd.indirect])
    ensures i in l1 && l1[i] == nd.indirect ==> Cached(nodes[i := nd], l1)
  {
    var nodes', l1' := nodes[i := nd], l1[i := nd.indirect];
    forall j: nat ensures CacheOk(nodes', l1', j) {
      assert CacheOk(nodes, l1, j);
    }
    if i in l1 && l1[i] == nd.indirect {
      assert l1[i := nd.indirect] == l1;
    }
  }

  /** Blocks in use have been handed out; only that of the root comes before the first of them. */
  ghost predicate Below(owner: Owners, ninos: nat, next: nat) {
    forall b | b in owner :: b < next && (b == ROOT || b >= Reserved(ninos))
  }

  ghost predicate FilesKept(v: Vol, v': Vol) {
    v'.nodes == v.nodes && forall j: nat, k: nat | j in v.nodes && k < v.nodes[j].blocks :: KeptAt(v, v', j, k)
  }

  lemma FilesKeptThen(u: Vol, v: Vol, w: Vol)
    requires FilesKept(u, v) && FilesKept(v, w)
    ensures FilesKept(u, w)
  {
    forall j: nat, k: nat | j in u.nodes && k < u.nodes[j].blocks ensures KeptAt(u, w, j, k) {
      assert KeptAt(u, v, j, k) && KeptAt(v, w, j, k);
    }
  }

  class Image {
    var ninos: nat
    var nextIno: nat
    var unused: int               // super.unused_blocks
    var img: Disk                 // what has been or will be written, cached entry blocks included
    var nodes: map<nat, Inode>    // the cached inodes, by block number
    var l1: map<nat, nat>         // the cached indirect block of each, by block number; 0 if none
    ghost var owner: Owners

    ghost function Volume(): Vol
      reads this
    {
      Vol(FreeFrom(ninos, nextIno), unused, img, nodes)
    }

    /** The image is well formed at all times, and all numbers in use have been handed out. */
    ghost predicate Valid()
      reads this
    {
      && Reserved(ninos) <= nextIno <= ninos < 0x1_0000_0000 && Wf(Volume(), owner)
      && Below(owner, ninos, nextIno) && Cached(nodes, l1)
    }

    /** create_sfs, for an image file of `size` bytes that is large enough. */
    constructor (size: nat, contents: Disk)
      requires var n := Min(size / BLKSIZE, MAX_NBLKS);
               Reserved(n) < n && |contents| == n
      ensures Valid() && nodes == map[ROOT := NEWNODE] && ninos == Min(size / BLKSIZE, MAX_NBLKS)
      ensures nextIno == Reserved(ninos) && unused == ninos - nextIno
    {
      ninos := Min(size / BLKSIZE, MAX_NBLKS);
      nextIno := Reserved(Min(size / BLKSIZE, MAX_NBLKS));
      unused := Min(size / BLKSIZE, MAX_NBLKS) - Reserved(Min(size / BLKSIZE, MAX_NBLKS));
      img := contents;
      nodes := map[ROOT := NEWNODE];
      l1 := map[ROOT := 0];
      owner := map[ROOT := Node(ROOT)];
      new;
      FreeFromCount(ninos, nextIno);
      var v := Volume();
      forall j: nat, k: nat ensures PosOk(v, owner, j, k) {
      }
    }

    /** sfs_alloc_ino: a block number that was never handed out before, until none is left. */
    method AllocIno() returns (ok: bool, ino: nat)
      requires Valid()
      modifies `nextIno, `unused
      ensures Valid() && ino == old(nextIno) && ok == (old(nextIno) < ninos)
      ensures !ok ==> Volume() == old(Volume()) && nextIno == old(nextIno)
      ensures ok ==>
                && nextIno == ino + 1 && Volume() == Claimed(old(Volume()), ino) && Spare(Volume(), owner, ino)
                && ino !in nodes && owner == old(owner)
    {
      ino := nextIno;
      if nextIno < ninos {
        ClaimedWf(Volume(), owner, ino, 0, 0);
        assert owner - {ino} == owner;
        assert NodeOk(Volume(), owner, ino);
        assert FreeFrom(ninos, nextIno)[ino := false] == FreeFrom(ninos, nextIno + 1);
        unused := unused - 1;
        nextIno := nextIno + 1;
        return true, ino;
      }
      return false, ino;
    }

    /** alloc_cache_inode for a new file or directory. */
    method NewInode() returns (ok: bool, ino: nat)
      requires Valid()
      modifies `nextIno, `unused, `nodes, `l1, `owner
      ensures Valid()
      ensures !ok ==> Volume() == old(Volume())
      ensures ok ==> ino !in old(nodes) && nodes == old(nodes)[ino := NEWNODE] && img == old(img)
    {
      ok, ino := AllocIno();
      if ok {
        NewNodeWf(Volume(), owner, ino);
        CachedUpdate(nodes, l1, ino, NEWNODE);
        nodes := nodes[ino := NEWNODE];
        l1 := l1[ino := 0];
        owner := owner[ino := Node(ino)];
      }
    }

    /** update_cache on the indirect block: made, cleared, when there is none.  The cached block is
        always the one that the inode names, so that it is never searched for. */
    method UpdateCache(i: nat, ghost ino: nat) returns (ok: bool)
      requires Valid() && i in nodes && Spare(Volume(), owner, ino) && Reserved(ninos) <= ino < nextIno && ino !in nodes
      modifies this
      ensures Valid() && i in nodes && Spare(Volume(), owner, ino) && Reserved(ninos) <= ino < nextIno && ino !in nodes
      ensures ok ==> i in l1 && l1[i] == nodes[i].indirect != 0 && img[ino] == old(img)[ino] && ninos == old(ninos)
      ensures ok ==> nodes[i].blocks == old(nodes[i].blocks) && nodes[i].size == old(nodes[i].size)
      ensures ok ==> Keeps(old(Volume()), Volume(), i, old(nodes[i].blocks))
    {
      ghost var v, m := Volume(), nodes[i].blocks;
      assert CacheOk(nodes, l1, i);
      if nodes[i].indirect != 0 {
        assert l1[i] == nodes[i].indirect;
        KeepsItself(v, i, m);
        return true;
      }
      var t;
      ok, t := AllocIno();
      if !ok {
        return;
      }
      TableSteps(v, owner, i, t);
      CachedUpdate(nodes, l1, i, nodes[i].(indirect := t));
      img := img[t := Zeros()];
      nodes := nodes[i := nodes[i].(indirect := t)];
      l1 := l1[i := t];
      owner := owner[t := Table(i)];
    }

    /** append_block: block `ino`, which has been filled, becomes the next block of the file. */
    method AppendBlock(i: nat, size: nat, ino: nat) returns (ok: bool)
      requires Valid() && i in nodes && nodes[i].blocks < MAXBLOCKS && size <= BLKSIZE
      requires Spare(Volume(), owner, ino) && Reserved(ninos) <= ino < nextIno && ino !in nodes
      modifies this
      ensures Valid() && (ok ==> ninos == old(ninos))
      ensures ok ==> Appended(old(Volume()), Volume(), i, size, ino)
    {
      ghost var v, k := Volume(), nodes[i].blocks;
      if nodes[i].blocks >= NDIRECT {
        ok := UpdateCache(i, ino);
        if !ok {
          return;
        }
      } else {
        KeepsItself(v, i, k);
      }
      AppendNow(i, size, ino, v);
      ok := true;
    }

    /** append_block, once the indirect block is there. */
    method AppendNow(i: nat, size: nat, ino: nat, ghost v: Vol)
      requires Valid() && Steps(v, Volume(), owner, i, size, ino) && Reserved(ninos) <= ino < nextIno
      modifies `img, `nodes, `owner
      ensures Valid() && i in v.nodes && Appended(v, Volume(), i, size, ino)
    {
      AppendSteps(v, Volume(), owner, i, size, ino);
      EnterBlock(i, size, ino, owner[ino := Data(i, v.nodes[i].blocks)]);
    }

    /** The writes of append_block. */
    method EnterBlock(i: nat, size: nat, ino: nat, ghost holders: Owners)
      requires Valid() && i in nodes && CanPoint(Volume(), i, nodes[i].blocks) && size <= BLKSIZE
               && Below(holders, ninos, nextIno)
      requires Wf(Resized(Grown(Volume(), i, ino), i, nodes[i].size + size), holders)
      modifies `img, `nodes, `owner
      ensures Valid() && Volume() == Resized(Grown(old(Volume()), i, ino), i, old(nodes[i].size) + size)
    {
      ghost var w := Resized(Grown(Volume(), i, ino), i, nodes[i].size + size);
      assert CacheOk(nodes, l1, i);
      if nodes[i].blocks < NDIRECT {
        CachedUpdate(nodes, l1, i, nodes[i].(direct := nodes[i].direct[nodes[i].blocks := ino]));
        nodes := nodes[i := nodes[i].(direct := nodes[i].direct[nodes[i].blocks := ino])];
      } else {
        var t := l1[i];
        img := img[t := PutEntry(img[t], nodes[i].blocks - NDIRECT, ino)];
      }
      CachedUpdate(nodes, l1, i, nodes[i].(size := nodes[i].size + size, blocks := nodes[i].blocks + 1));
      nodes := nodes[i := nodes[i].(size := nodes[i].size + size, blocks := nodes[i].blocks + 1)];
      assert Volume() == w;
      owner := holders;
    }

    /** A block number is taken, its block written and appended, as for each block of a file and
        for each entry of a directory (add_entry). */
    method AddBlock(i: nat, s: seq<Byte>) returns (ok: bool)
      requires Valid() && i in nodes && nodes[i].blocks < MAXBLOCKS && |s| <= BLKSIZE
      modifies this
      ensures Valid() && (ok ==> ninos == old(ninos) && GrewBy(old(Volume()), Volume(), i, s))
    {
      ghost var v, k := Volume(), nodes[i].blocks;
      var ino;
      ok, ino := AllocIno();
      if !ok {
        return;
      }
      ghost var u := Volume();
      ClaimedWf(v, owner, ino, i, k);
      FilledWf(u, owner, ino, Patch(Zeros(), 0, s), i, k);
      img := img[ino := Patch(Zeros(), 0, s)];
      ghost var w := Volume();
      KeepsTransitive(v, u, w, i, k);
      ok := AppendBlock(i, |s|, ino);
      if ok {
        KeepsTransitive(v, w, Volume(), i, k);
      }
    }

    /** open_file: the kernel reads back what the file held, with the blocks its size calls for. */
    method OpenFile(i: nat, content: seq<Byte>) returns (ok: bool)
      requires Valid() && i in nodes && nodes[i] == NEWNODE && |content| <= MAXBLOCKS * BLKSIZE
      modifies this
      ensures Valid()
      ensures ok ==> i in nodes && Sized(nodes[i]) && Flat(Volume(), i) == content
      ensures ok ==> Keeps(old(Volume()), Volume(), i, 0)
    {
      ghost var v := Volume();
      var pos, last := 0, BLKSIZE;
      KeepsItself(v, i, 0);
      while pos < |content|
        invariant Valid() && pos <= |content| && i in nodes
        invariant pos < |content| ==> last == BLKSIZE
        invariant last == BLKSIZE ==> pos == nodes[i].blocks * BLKSIZE
        invariant Holds(Volume(), i, content, pos) && Keeps(v, Volume(), i, 0)
        decreases |content| - pos
      {
        assert last == BLKSIZE;
        var ret := Min(|content| - pos, BLKSIZE);
        ghost var u := Volume();
        assert u.nodes[i].blocks < MAXBLOCKS;
        ok := AddBlock(i, content[pos..pos + ret]);
        if !ok {
          return;
        }
        HoldsMore(u, Volume(), i, content, pos, ret);
        KeepsFewer(u, Volume(), i, u.nodes[i].blocks, 0);
        KeepsTransitive(v, u, Volume(), i, 0);
        pos, last := pos + ret, ret;
      }
      assert Flat(Volume(), i) == content;
      ok := true;
    }

    /** A block below the first that was handed out, and not that of the root. */
    method WriteReserved(b: nat, blk: Block)
      requires Valid() && b < Reserved(ninos) && b != ROOT
      modifies `img
      ensures Valid() && b < |old(img)| && img == old(img)[b := blk] && FilesKept(old(Volume()), Volume())
    {
      ReservedWf(Volume(), owner, b, blk);
      img := img[b := blk];
    }

    /** The freemap in close_sfs: the bits of the blocks that were never handed out. */
    method WriteFreemap()
      requires Valid()
      modifies `img
      ensures Valid() && FreemapOn(img, ninos, nextIno) && FilesKept(old(Volume()), Volume())
    {
      ghost var v := Volume();
      var i, f: nat := 0, 0;
      while i < ninos
        invariant Valid() && i == f * BLKBITS && f <= MapBlocks(ninos) && FilesKept(v, Volume())
        invariant forall g: nat | g < f :: FreemapBlock(img[FREEMAP + g], g * BLKBITS, ninos, nextIno)
        decreases ninos - i
      {
        var buffer := MapBits(i);
        ghost var u := Volume();
        assert f < MapBlocks(ninos);
        WriteReserved(FREEMAP + f, Pack(buffer));
        FilesKeptThen(v, u, Volume());
        PackedBlock(buffer, i, ninos, nextIno);
        i, f := i + BLKBITS, f + 1;
      }
    }

    /** The bits for the blocks from `i` on. */
    method MapBits(i: nat) returns (buffer: seq<bool>)
      requires Valid() && i < ninos
      ensures |buffer| == BLKBITS && forall x: nat | x < BLKBITS :: buffer[x] <==> nextIno <= i + x < ninos
    {
      buffer := seq(BLKBITS, j => false);
      if i + BLKBITS > nextIno {
        var start, end := 0, BLKBITS;
        if i < nextIno {
          start := nextIno - i;
        }
        if i + BLKBITS > ninos {
          end := ninos - i;
        }
        var j := start;
        while j < end
          invariant start <= j && (j <= end || start > end) && |buffer| == BLKBITS
          invariant forall x: nat | x < BLKBITS :: buffer[x] <==> start <= x < j
          decreases end - j
        {
          buffer := buffer[j := true];
          j := j + 1;
        }
      }
    }

    /** The superblock, in close_sfs. */
    method WriteSuper()
      requires Valid()
      modifies `img
      ensures Valid() && SuperOn(img, ninos, unused) && FilesKept(old(Volume()), Volume())
      ensures |img| == |old(img)| && forall b: nat | 0 < b < |img| :: img[b] == old(img)[b]
    {
      FreeFromCount(ninos, nextIno);
      var ws := [SFS_MAGIC, ninos, unused];
      WordsKept(Zeros(), 0, ws, 0);
      WordsKept(Zeros(), 0, ws, 1);
      WordsKept(Zeros(), 0, ws, 2);
      WriteReserved(SUPER, PutWords(Zeros(), 0, ws));
    }

    /** The loop of close_sfs over the cached inodes: each is written to its block, and no file
        changes.  `tags` holds the type and the number of links of each. */
    method FlushInodes(tags: map<nat, nat>)
      requires Valid() && forall i | i in nodes :: i in tags && tags[i] < 0x1_0000_0000
      modifies `img
      ensures Valid() && Flushed(Volume()) && FilesKept(old(Volume()), Volume())
      ensures |img| == |old(img)| && forall b: nat | b < |img| && b !in nodes :: img[b] == old(img)[b]
    {
      ghost var v := Volume();
      var todo := nodes.Keys;
      while todo != {}
        invariant Valid() && todo <= nodes.Keys && FilesKept(v, Volume())
        invariant |img| == |v.disk| && forall b: nat | b < |img| && b !in nodes :: img[b] == v.disk[b]
        invariant forall j: nat | j in nodes && j !in todo :: j < |img| && NodeOf(img[j]) == nodes[j]
        decreases todo
      {
        var i :| i in todo;
        ghost var u := Volume();
        FlushOne(i, tags[i]);
        FilesKeptThen(v, u, Volume());
        todo := todo - {i};
      }
    }

    /** flush_cache_inode. */
    method FlushOne(i: nat, tag: nat)
      requires Valid() && i in nodes && tag < 0x1_0000_0000
      modifies `img
      ensures Valid() && i < |img| == |old(img)| && NodeOf(img[i]) == nodes[i] && FilesKept(old(Volume()), Volume())
      ensures forall b: nat | b < |img| && b != i :: img[b] == old(img)[b]
    {
      ghost var v := Volume();
      assert CacheOk(nodes, l1, i) && NodeOk(v, owner, i);
      NodesFit(v, owner, i);
      NodeRoundTrip(nodes[i], tag);
      var blk := PutWords(Zeros(), 0, Layout(nodes[i], tag));
      FlushedWf(v, owner, i, blk);
      img := img[i := blk];
    }

    /** close_sfs: all that the kernel needs is on the disk, and no file changes. */
    method Close(tags: map<nat, nat>)
      requires Valid() && forall i | i in nodes :: i in tags && tags[i] < 0x1_0000_0000
      modifies `img
      ensures Valid() && Complete(Volume(), nextIno) && FilesKept(old(Volume()), Volume())
    {
      ghost var v := Volume();
      WriteFreemap();
      ghost var v1 := Volume();
      WriteSuper();
      ghost var v2 := Volume();
      FilesKeptThen(v, v1, v2);
      FlushInodes(tags);
      FilesKeptThen(v, v2, Volume());
      StillComplete(v1, v2, Volume(), owner, ninos, nextIno);
    }
  }

  lemma PackedBlock(bits: seq<bool>, base: nat, n: nat, next: nat)
    requires |bits| == BLKBITS && forall x: nat | x < BLKBITS :: bits[x] <==> next <= base + x < n
    ensures FreemapBlock(Pack(bits), base, n, next)
  {
    forall x: nat | x < BLKBITS ensures BitOfBlock(Pack(bits), x) <==> next <= base + x < n {
      PackedBit(bits, x);
    }
  }

  /** The superblock, the freemap and the inodes stand on the disk. */
  ghost predicate Complete(v: Vol, next: nat) {
    SuperOn(v.disk, |v.bits|, v.unused) && FreemapOn(v.disk, |v.bits|, next) && Flushed(v)
  }

  /** Neither the superblock nor an inode is written over the freemap. */
  lemma StillComplete(u: Vol, v: Vol, w: Vol, owner: Owners, n: nat, next: nat)
    requires Wf(w, owner) && Below(owner, n, next) && n == |w.bits| && v.unused == w.unused && Flushed(w)
    requires FreemapOn(u.disk, n, next) && SuperOn(v.disk, n, v.unused) && |u.disk| == |v.disk| == |w.disk|
    requires forall b: nat | 0 < b < |v.disk| :: v.disk[b] == u.disk[b]
    requires forall b: nat | b < |w.disk| && b !in w.nodes :: w.disk[b] == v.disk[b]
    ensures Complete(w, next)
  {
    assert NodeOk(w, owner, SUPER);
    forall f: nat | f < MapBlocks(n) ensures FreemapBlock(w.disk[FREEMAP + f], f * BLKBITS, n, next) {
      assert NodeOk(w, owner, FREEMAP + f);
      assert FreemapBlock(u.disk[FREEMAP + f], f * BLKBITS, n, next);
    }
  }

  /** Every inode stands in its block. */
  ghost predicate Flushed(v: Vol) {
    forall i: nat :: i in v.nodes ==> i < |v.disk| && NodeOf(v.disk[i]) == v.nodes[i]
  }

  /** sfs_do_mount of a finished image, and sfs_load_inode of the inodes in it, from the disk alone:
      the bits it counts are super.unused_blocks, so its assert holds, and what it finds is the volume
      that was built, well formed. */
  method Mount(disk: Disk, inos: set<nat>, ghost v: Vol, ghost owner: Owners, ghost next: nat)
    returns (ret: Ret, fs: Option<Fs>)
    requires Wf(v, owner) && disk == v.disk && inos == v.nodes.Keys && Complete(v, next)
    requires next <= |v.bits| && v.bits == FreeFrom(|v.bits|, next)
    ensures ret.Ok? && fs.Some? && fresh(fs.value) && fs.value.Valid() && fs.value.State() == v
  {
    if EntryOf(disk[SUPER], 0) != SFS_MAGIC {
      return Inval, None;
    }
    var blocks := EntryOf(disk[SUPER], 1);
    if blocks > |disk| {
      return Inval, None;
    }
    var freemap, count := ReadFreemap(disk, blocks, next);
    assert freemap == v.bits;
    if count != EntryOf(disk[SUPER], 2) {
      return Panic, None;
    }
    assert forall i | i in inos :: NodeOk(v, owner, i);
    var nodes := map i | i in inos :: NodeOf(disk[i]);
    assert nodes == v.nodes;
    var f := new Fs(freemap, EntryOf(disk[SUPER], 2), disk, nodes, owner);
    return Ok, Some(f);
  }

  /** The image closed and mounted: the kernel has the files that were built. */
  method Install(image: Image, tags: map<nat, nat>) returns (ret: Ret, fs: Option<Fs>)
    requires image.Valid() && forall i | i in image.nodes :: i in tags && tags[i] < 0x1_0000_0000
    modifies image`img
    ensures ret.Ok? && fs.Some? && fs.value.Valid() && fs.value.nodes == old(image.nodes)
    ensures forall i: nat | i in old(image.nodes) :: Flat(fs.value.State(), i) == Flat(old(image.Volume()), i)
  {
    ghost var v := image.Volume();
    image.Close(tags);
    ret, fs := Mount(image.img, image.nodes.Keys, image.Volume(), image.owner, image.nextIno);
    assert forall i: nat | i in v.nodes :: CacheOk(v.nodes, image.l1, i);
    FilesReadAlike(v, fs.value.State());
  }

  lemma FilesReadAlike(v: Vol, w: Vol)
    requires FilesKept(v, w) && forall i: nat | i in v.nodes :: v.nodes[i].size <= v.nodes[i].blocks * BLKSIZE
    ensures forall i: nat | i in v.nodes :: Flat(w, i) == Flat(v, i)
  {
    forall i: nat | i in v.nodes ensures Flat(w, i) == Flat(v, i) {
      forall p: nat | p < v.nodes[i].size ensures Flat(w, i)[p] == Flat(v, i)[p] {
        assert KeptAt(v, w, i, p / BLKSIZE);
      }
    }
  }

  /** The loop over the freemap in sfs_do_mount. */
  method ReadFreemap(disk: Disk, n: nat, ghost next: nat) returns (freemap: seq<bool>, count: nat)
    requires FreemapOn(disk, n, next) && next <= n
    ensures |freemap| == n && forall b | 0 <= b < n :: freemap[b] <==> b >= next
    ensures count == Count(freemap) == n - next
  {
    FreeFromCount(n, next);
    var nbits := MapBlocks(n) * BLKBITS;
    var i: nat := 0;
    freemap, count := [], 0;
    while i < nbits
      invariant i <= nbits
      invariant count == if Min(i, n) <= next then 0 else Min(i, n) - next
      invariant |freemap| == Min(i, n) && forall b | 0 <= b < |freemap| :: freemap[b] <==> b >= next
    {
      BitOf(disk, n, next, i);
      var bit := BitOfBlock(disk[FREEMAP + i / BLKBITS], i % BLKBITS);
      if bit {
        count := count + 1;
      }
      if i < n {
        freemap := freemap + [bit];
      }
      i := i + 1;
    }
    assert freemap == FreeFrom(n, next);
  }

  lemma BitOf(disk: Disk, n: nat, next: nat, i: nat)
    requires FreemapOn(disk, n, next) && i < MapBlocks(n) * BLKBITS
    ensures FREEMAP + i / BLKBITS < |disk|
    ensures BitOfBlock(disk[FREEMAP + i / BLKBITS], i % BLKBITS) <==> next <= i < n
  {
    var f, x := i / BLKBITS, i % BLKBITS;
    assert FreemapBlock(disk[FREEMAP + f], f * BLKBITS, n, next);
  }

  /** The file has one more block, which starts with `s`. */
  ghost predicate GrewBy(v: Vol, v': Vol, i: nat, s: seq<Byte>)
    requires i in v.nodes && |s| <= BLKSIZE
  {
    var k := v.nodes[i].blocks;
    && Keeps(v, v', i, k) && i in v'.nodes
    && v'.nodes[i].blocks == k + 1 && v'.nodes[i].size == v.nodes[i].size + |s|
        && BlockAt(v', i, k) == Patch(Zeros(), 0, s)
  }

  /** The first `n` bytes of the file are those of `content`. */
  ghost predicate Holds(v: Vol, i: nat, content: seq<Byte>, n: nat) {
    && n <= |content| && i in v.nodes && v.nodes[i].size == n && Sized(v.nodes[i])
    && forall p: nat | p < n :: ByteAt(v, i, p) == content[p]
  }

  lemma HoldsMore(v: Vol, v': Vol, i: nat, content: seq<Byte>, n: nat, m: nat)
    requires Holds(v, i, content, n) && n == v.nodes[i].blocks * BLKSIZE && 0 < m <= BLKSIZE && n + m <= |content|
    requires GrewBy(v, v', i, content[n..n + m])
    ensures Holds(v', i, content, n + m)
  {
    var k := v.nodes[i].blocks;
    Rounding(k, n + m);
    forall p: nat | p < n + m ensures ByteAt(v', i, p) == content[p] {
      if p < n {
        assert KeptAt(v, v', i, p / BLKSIZE);
      } else {
        InBlock(k, p - n);
      }
    }
  }

  /** `ino` is the next block of `i` in the kernel's block map, with the contents it had. */
  ghost predicate Appended(v: Vol, v': Vol, i: nat, size: nat, ino: nat)
    requires i in v.nodes
  {
    var k := v.nodes[i].blocks;
    && Keeps(v, v', i, k) && i in v'.nodes && ino < |v.disk|
    && v'.nodes[i].blocks == k + 1 && v'.nodes[i].size == v.nodes[i].size + size
    && Lookup(v'.disk, v'.nodes[i], k) == ino && BlockAt(v', i, k) == v.disk[ino]
  }

  lemma TableSteps(v: Vol, owner: Owners, i: nat, t: nat)
    requires Wf(v, owner) && i in v.nodes && v.nodes[i].indirect == 0 && t < |v.bits| && v.bits[t] && t !in owner
    ensures var w := Adopted(Overwritten(Claimed(v, t), t, Zeros()), i, t);
            Wf(w, owner[t := Table(i)]) && Keeps(v, w, i, v.nodes[i].blocks)
  {
    var m := v.nodes[i].blocks;
    var u1 := Claimed(v, t);
    ClaimedWf(v, owner, t, i, m);
    assert owner - {t} == owner;
    var u2 := Overwritten(u1, t, Zeros());
    FilledWf(u1, owner, t, Zeros(), i, m);
    KeepsTransitive(v, u1, u2, i, m);
    AdoptedWf(u2, owner, i, t);
    KeepsTransitive(v, u2, Adopted(u2, i, t), i, m);
  }

  /** `u` is `v` with nothing more than an indirect block for `i`, and `ino` is filled and spare. */
  ghost predicate Steps(v: Vol, u: Vol, owner: Owners, i: nat, size: nat, ino: nat) {
    && i in v.nodes && i in u.nodes && Keeps(v, u, i, v.nodes[i].blocks) && Spare(u, owner, ino)
    && u.nodes[i].blocks == v.nodes[i].blocks < MAXBLOCKS && u.nodes[i].size == v.nodes[i].size
    && (u.nodes[i].blocks >= NDIRECT ==> u.nodes[i].indirect != 0)
    && ino < |v.disk| && ino < |u.disk| && u.disk[ino] == v.disk[ino] && size <= BLKSIZE
  }

  lemma AppendSteps(v: Vol, u: Vol, owner: Owners, i: nat, size: nat, ino: nat)
    requires Wf(u, owner) && Steps(v, u, owner, i, size, ino)
    ensures CanPoint(u, i, u.nodes[i].blocks)
    ensures var w := Resized(Grown(u, i, ino), i, v.nodes[i].size + size);
            Wf(w, owner[ino := Data(i, v.nodes[i].blocks)]) && Appended(v, w, i, size, ino)
  {
    var k := v.nodes[i].blocks;
    GrownWf(u, owner, i, ino);
    GrownBlock(u, owner, i, ino);
    var g := Grown(u, i, ino);
    var w := Resized(g, i, v.nodes[i].size + size);
    SizeOnly(g, owner[ino := Data(i, k)], i, v.nodes[i].size + size);
    KeepsTransitive(v, u, g, i, k);
    KeepsTransitive(v, g, w, i, k);
  }
}
