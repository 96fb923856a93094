/**
 Requests of several whole blocks: the middle part of sfs_io_nolock (kern/fs/sfs/sfs_inode.c) looks
 up the first block only, and sfs_rwblock (kern/fs/sfs/sfs_io.c) moves consecutive disk blocks.
 */
module SfsRuns {
  import opened Bitmap
  import SfsSizes
  import opened SfsDisk
  import opened SfsBlockMap
  import opened SfsFile

  // ----- consecutive disk blocks --------------------------------------------------------------

  /** sfs_rblock; its assert on a block number is the outcome Panic. */
  method ReadBlocks(fs: Fs, blkno: nat, nblks: nat) returns (ret: Ret, bufs: seq<Block>)
    requires fs.Valid() && 0 < blkno
    ensures ret == if nblks == 0 || blkno + nblks <= |fs.bits| then Ok else Panic
    ensures ret.Ok? ==> |bufs| == nblks && forall j: nat | j < nblks :: bufs[j] == fs.disk[blkno + j]
  {
    bufs := [];
    var n: nat, b: nat := nblks, blkno;
    while n != 0
      invariant n <= nblks && b + n == blkno + nblks && |bufs| == nblks - n && (n < nblks ==> b <= |fs.bits|)
      invariant forall j: nat | j < |bufs| :: bufs[j] == fs.disk[blkno + j]
      decreases n
    {
      if b >= |fs.bits| {
        return Panic, bufs;
      }
      bufs := bufs + [fs.disk[b]];
      b, n := b + 1, n - 1;
    }
    ret := Ok;
  }

  /** The disk once the blocks from `b` on hold `bufs`. */
  function Overrun(disk: Disk, b: nat, bufs: seq<Block>): (r: Disk)
    ensures |r| == |disk| && forall d: nat | d < |r| :: r[d] == if b <= d < b + |bufs| then bufs[d - b] else disk[d]
  {
    seq(|disk|, d requires 0 <= d < |disk| => if b <= d < b + |bufs| then bufs[d - b] else disk[d])
  }

  /** sfs_wblock. */
  method WriteBlocks(fs: Fs, blkno: nat, bufs: seq<Block>) returns (ret: Ret)
    requires fs.Valid() && 0 < blkno
    modifies fs`disk
    ensures ret == if bufs == [] || blkno + |bufs| <= |fs.bits| then Ok else Panic
    ensures ret.Ok? ==> fs.disk == Overrun(old(fs.disk), blkno, bufs)
  {
    ghost var disk := fs.disk;
    var n: nat := 0;
    assert disk == Overrun(disk, blkno, bufs[..0]);
    while n != |bufs|
      invariant n <= |bufs| && (n > 0 ==> blkno + n <= |fs.bits|) && fs.disk == Overrun(disk, blkno, bufs[..n])
      decreases |bufs| - n
    {
      if blkno + n >= |fs.bits| {
        return Panic;
      }
      fs.disk := fs.disk[blkno + n := bufs[n]];
      OverrunNext(disk, blkno, bufs, n);
      n := n + 1;
    }
    assert bufs[..n] == bufs;
    ret := Ok;
  }

  lemma OverrunNext(disk: Disk, b: nat, bufs: seq<Block>, n: nat)
    requires n < |bufs| && b + n < |disk|
    ensures Overrun(disk, b, bufs[..n])[b + n := bufs[n]] == Overrun(disk, b, bufs[..n + 1])
  {
  }

  // ----- the middle part of sfs_io_nolock -----------------------------------------------------

  /** The disk blocks of the logical blocks from `k` on follow each other. */
  predicate Contiguous(v: Vol, i: nat, k: nat, n: nat)
    requires i in v.nodes
  {
    forall j: nat | j < n :: Follows(v, i, k, j)
  }

  predicate Follows(v: Vol, i: nat, k: nat, j: nat)
    requires i in v.nodes
  {
    Lookup(v.disk, v.nodes[i], k + j) == Lookup(v.disk, v.nodes[i], k) + j
  }

  lemma InRange(v: Vol, owner: Owners, i: nat, k: nat, n: nat)
    requires Wf(v, owner) && i in v.nodes && k < v.nodes[i].blocks && n > 0
    ensures 0 < Lookup(v.disk, v.nodes[i], k)
    ensures Contiguous(v, i, k, n) ==> Lookup(v.disk, v.nodes[i], k) + n <= |v.bits|
  {
    assert NodeOk(v, owner, i) && PosOk(v, owner, i, k);
    if Contiguous(v, i, k, n) {
      assert Follows(v, i, k, n - 1) && PosOk(v, owner, i, k + (n - 1));
    }
  }

  /** After a load that succeeds the file has the block. */
  lemma LoadedHas(v: Vol, owner: Owners, i: nat, k: nat)
    requires Wf(v, owner) && i in v.nodes && LoadRet(v, i, k).Ok?
    ensures i in Loaded(v, i, k).nodes && k < Loaded(v, i, k).nodes[i].blocks
    ensures Wf(Loaded(v, i, k), LoadedOwners(v, owner, i, k))
  {
    LoadedMeaning(v, owner, i, k);
  }

  /** How a transfer of `n` blocks from logical block `k` on ends, when `w` is the volume after the load. */
  function RunRet(v: Vol, w: Vol, i: nat, k: nat, n: nat): Ret
    requires i in v.nodes && i in w.nodes
  {
    if !LoadRet(v, i, k).Ok? then LoadRet(v, i, k)
    else if Lookup(w.disk, w.nodes[i], k) + n <= |w.bits| then Ok else Panic
  }

  /** A read of `n` whole blocks of a file: what follows its first block on the disk. */
  method ReadRun(fs: Fs, i: nat, k: nat, n: nat) returns (ret: Ret, bufs: seq<Block>)
    requires fs.Valid() && i in fs.nodes && n > 0
    modifies fs
    ensures fs.Valid() && i in fs.nodes && fs.State() == Loaded(old(fs.State()), i, k)
    ensures ret == RunRet(old(fs.State()), fs.State(), i, k, n)
    ensures ret.Ok? ==>
              var b := Lookup(fs.disk, fs.nodes[i], k);
              |bufs| == n && forall j: nat | j < n :: b + j < |fs.disk| && bufs[j] == fs.disk[b + j]
    ensures LoadRet(old(fs.State()), i, k).Ok? && Contiguous(fs.State(), i, k, n) ==>
              ret.Ok? && |bufs| == n && forall j: nat | j < n :: bufs[j] == BlockAt(fs.State(), i, k + j)
  {
    ghost var v, owner := fs.State(), fs.owner;
    var ino;
    ret, ino := fs.Load(i, k);
    bufs := [];
    if ret.Ok? {
      LoadedHas(v, owner, i, k);
      InRange(fs.State(), LoadedOwners(v, owner, i, k), i, k, n);
      ret, bufs := ReadBlocks(fs, ino, n);
      if Contiguous(fs.State(), i, k, n) {
        forall j: nat | j < n ensures bufs[j] == BlockAt(fs.State(), i, k + j) {
          assert Follows(fs.State(), i, k, j);
        }
      }
    }
  }

  /** A write of whole blocks to a file. */
  method WriteRun(fs: Fs, i: nat, k: nat, bufs: seq<Block>) returns (ret: Ret)
    requires fs.Valid() && i in fs.nodes && bufs != []
    modifies fs
    ensures var w := Loaded(old(fs.State()), i, k);
            && fs.nodes == w.nodes && fs.bits == w.bits && fs.unused == w.unused && i in w.nodes
            && ret == RunRet(old(fs.State()), w, i, k, |bufs|)
            && (ret.Ok? ==> fs.disk == Overrun(w.disk, Lookup(w.disk, w.nodes[i], k), bufs))
            && (ret.NoMem? ==> fs.State() == w)
            && (LoadRet(old(fs.State()), i, k).Ok? && Contiguous(w, i, k, |bufs|) ==>
                  ret.Ok? && RightWrite(w, fs.disk, i, k, bufs))
  {
    ghost var v, owner := fs.State(), fs.owner;
    var ino;
    ret, ino := fs.Load(i, k);
    if ret.Ok? {
      ghost var w := fs.State();
      LoadedHas(v, owner, i, k);
      InRange(w, LoadedOwners(v, owner, i, k), i, k, |bufs|);
      ret := WriteBlocks(fs, ino, bufs);
      if Contiguous(w, i, k, |bufs|) {
        RightIfContiguous(w, i, k, bufs);
      }
    }
  }

  // ----- exactly when that is right -----------------------------------------------------------

  /** What ReadRun delivers is what the file holds. */
  ghost predicate RightRead(v: Vol, i: nat, k: nat, n: nat)
    requires i in v.nodes
  {
    forall j: nat | j < n :: RightBlock(v, i, k, j)
  }

  ghost predicate RightBlock(v: Vol, i: nat, k: nat, j: nat)
    requires i in v.nodes
  {
    var b := Lookup(v.disk, v.nodes[i], k) + j;
    b < |v.disk| && v.disk[b] == BlockAt(v, i, k + j)
  }

  /** The same block map over other contents. */
  ghost predicate SameMap(v: Vol, w: Vol, i: nat)
    requires i in v.nodes
  {
    && w.nodes == v.nodes && w.bits == v.bits
    && forall m: nat :: Lookup(w.disk, w.nodes[i], m) == Lookup(v.disk, v.nodes[i], m)
  }

  /** A read of several whole blocks is right, whatever the blocks hold, exactly when the disk
      blocks of that part of the file are contiguous. */
  lemma ReadsNeedContiguity(v: Vol, owner: Owners, i: nat, k: nat, n: nat)
    requires Wf(v, owner) && i in v.nodes && k + n <= v.nodes[i].blocks
    ensures Contiguous(v, i, k, n) <==> forall w | Wf(w, owner) && SameMap(v, w, i) :: RightRead(w, i, k, n)
  {
    if Contiguous(v, i, k, n) {
      forall w | Wf(w, owner) && SameMap(v, w, i) ensures RightRead(w, i, k, n) {
        forall j: nat | j < n ensures RightBlock(w, i, k, j) {
          assert Follows(v, i, k, j);
          assert NodeOk(w, owner, i) && PosOk(w, owner, i, k + j);
        }
      }
    } else {
      var j: nat :| j < n && !Follows(v, i, k, j);
      WrongBlock(v, owner, i, k, j);
    }
  }

  lemma WrongBlock(v: Vol, owner: Owners, i: nat, k: nat, j: nat)
    requires Wf(v, owner) && i in v.nodes && k + j < v.nodes[i].blocks && !Follows(v, i, k, j)
    ensures exists w :: Wf(w, owner) && SameMap(v, w, i) && !RightBlock(w, i, k, j)
  {
    var b := Lookup(v.disk, v.nodes[i], k) + j;
    var blk: Block := Zeros()[0 := if b < |v.disk| && v.disk[b][0] == 0 then 1 else 0];
    var w := Overwritten(v, Lookup(v.disk, v.nodes[i], k + j), blk);
    OverwrittenWf(v, owner, i, k + j, blk);
    assert NodeOk(v, owner, i) && PosOk(v, owner, i, k + j);
    assert SameMap(v, w, i);
    assert b < |w.disk| ==> w.disk[b][0] != blk[0];
  }

  /** Position of `d` among the disk blocks of the logical blocks from `k` on, if it is one. */
  ghost predicate IsTarget(v: Vol, i: nat, k: nat, n: nat, d: nat, j: nat)
    requires i in v.nodes
  {
    j < n && d == Lookup(v.disk, v.nodes[i], k + j)
  }

  /** The blocks of the file hold `bufs` now, and no other disk block has changed. */
  ghost predicate RightWrite(v: Vol, disk: Disk, i: nat, k: nat, bufs: seq<Block>)
    requires i in v.nodes
  {
    && |disk| == |v.disk|
    && (forall j: nat | j < |bufs| :: Placed(v, i, k, j))
    && forall d: nat | d < |v.disk| :: RightAt(v, disk, i, k, bufs, d)
  }

  /** The file has a disk block there. */
  ghost predicate Placed(v: Vol, i: nat, k: nat, j: nat)
    requires i in v.nodes
  {
    Lookup(v.disk, v.nodes[i], k + j) != 0
  }

  ghost predicate RightAt(v: Vol, disk: Disk, i: nat, k: nat, bufs: seq<Block>, d: nat)
    requires i in v.nodes && d < |v.disk| && d < |disk|
  {
    && (forall j: nat | IsTarget(v, i, k, |bufs|, d, j) :: disk[d] == bufs[j])
    && ((forall j: nat :: !IsTarget(v, i, k, |bufs|, d, j)) ==> disk[d] == v.disk[d])
  }

  lemma RightIfContiguous(v: Vol, i: nat, k: nat, bufs: seq<Block>)
    requires i in v.nodes && Contiguous(v, i, k, |bufs|) && Lookup(v.disk, v.nodes[i], k) > 0
    ensures RightWrite(v, Overrun(v.disk, Lookup(v.disk, v.nodes[i], k), bufs), i, k, bufs)
  {
    var b := Lookup(v.disk, v.nodes[i], k);
    var disk := Overrun(v.disk, b, bufs);
    forall j: nat | j < |bufs| ensures Placed(v, i, k, j) {
      assert Follows(v, i, k, j);
    }
    forall d: nat | d < |v.disk| ensures RightAt(v, disk, i, k, bufs, d) {
      forall j: nat | IsTarget(v, i, k, |bufs|, d, j) ensures disk[d] == bufs[j] {
        assert Follows(v, i, k, j);
      }
      if b <= d < b + |bufs| {
        assert Follows(v, i, k, d - b) && IsTarget(v, i, k, |bufs|, d, d - b);
      }
    }
  }

  /** A write of several whole blocks is right, whatever is written, exactly when the disk blocks of
      that part of the file are contiguous; */
  lemma WritesNeedContiguity(v: Vol, owner: Owners, i: nat, k: nat, n: nat)
    requires Wf(v, owner) && i in v.nodes && 0 < n && k < v.nodes[i].blocks
    ensures var b := Lookup(v.disk, v.nodes[i], k);
            Contiguous(v, i, k, n) <==>
            b + n <= |v.bits| && forall bufs: seq<Block> | |bufs| == n ::
                RightWrite(v, Overrun(v.disk, b, bufs), i, k, bufs)
  {
    InRange(v, owner, i, k, n);
    var b := Lookup(v.disk, v.nodes[i], k);
    if Contiguous(v, i, k, n) {
      forall bufs: seq<Block> | |bufs| == n ensures RightWrite(v, Overrun(v.disk, b, bufs), i, k, bufs) {
        RightIfContiguous(v, i, k, bufs);
      }
    } else if b + n <= |v.bits| {
      var j: nat :| j < n && !Follows(v, i, k, j);
      var bufs := Tell(n, j, v.disk[b + j]);
      ForeignBlock(v, owner, i, k, bufs, j);
    }
  }

  /** Blocks of which the one at `j` is unlike all others and unlike `was`. */
  function Tell(n: nat, j: nat, was: Block): (bufs: seq<Block>)
    requires j < n
    ensures |bufs| == n && bufs[j] != was && forall m | 0 <= m < n && m != j :: bufs[m] != bufs[j]
  {
    var blk: Block := Zeros()[0 := if was[0] == 1 then 2 else 1];
    assert blk[0] != Zeros()[0] && blk[0] != was[0];
    seq(n, m => if m == j then blk else Zeros())
  }

  /** otherwise the disk block `j` places after the first is overwritten, for every `j` at which the
      file does not go on there: a block that is not for this place of the file, and that may be in
      any other place of any file. */
  lemma ForeignBlock(v: Vol, owner: Owners, i: nat, k: nat, bufs: seq<Block>, j: nat)
    requires Wf(v, owner) && i in v.nodes && k < v.nodes[i].blocks && j < |bufs| && !Follows(v, i, k, j)
    requires Lookup(v.disk, v.nodes[i], k) + |bufs| <= |v.bits|
    ensures var b := Lookup(v.disk, v.nodes[i], k); var disk := Overrun(v.disk, b, bufs);
            && b + j < |v.disk| && disk[b + j] == bufs[j]
            && (forall x: nat, m: nat | x in v.nodes && Lookup(v.disk, v.nodes[x], m) == b + j :: x != i || m != k + j)
            && (bufs[j] != v.disk[b + j] && (forall m | 0 <= m < |bufs| && m != j :: bufs[m] != bufs[j])
                ==> !RightWrite(v, disk, i, k, bufs))
  {
    var b := Lookup(v.disk, v.nodes[i], k);
    var disk := Overrun(v.disk, b, bufs);
    InRange(v, owner, i, k, |bufs|);
    if bufs[j] != v.disk[b + j] && forall m | 0 <= m < |bufs| && m != j :: bufs[m] != bufs[j] {
      assert !RightAt(v, disk, i, k, bufs, b + j);
    }
  }

  /** Past the last block of the file no write is right, whatever it leaves on the disk; */
  lemma PastTheEnd(v: Vol, owner: Owners, i: nat, k: nat, bufs: seq<Block>, disk: Disk)
    requires Wf(v, owner) && i in v.nodes && k < v.nodes[i].blocks < k + |bufs|
    ensures !Contiguous(v, i, k, |bufs|) && !RightWrite(v, disk, i, k, bufs)
  {
    var j := v.nodes[i].blocks - k;
    InRange(v, owner, i, k, |bufs|);
    assert NodeOk(v, owner, i) && PosOk(v, owner, i, k + j);
    assert !Follows(v, i, k, j) && !Placed(v, i, k, j);
  }

  /** so of the writes at the end of a file, which get one block, those of one block are right. */
  lemma AppendsOneBlock(v: Vol, owner: Owners, i: nat, bufs: seq<Block>)
    requires Wf(v, owner) && i in v.nodes && LoadRet(v, i, v.nodes[i].blocks).Ok? && bufs != []
    ensures var k := v.nodes[i].blocks; var w := Loaded(v, i, k);
            && i in w.nodes && w.nodes[i].blocks == k + 1
            && (|bufs| == 1 <==> RightWrite(w, Overrun(w.disk, Lookup(w.disk, w.nodes[i], k), bufs), i, k, bufs))
  {
    var k := v.nodes[i].blocks;
    var w, owner' := Loaded(v, i, k), LoadedOwners(v, owner, i, k);
    LoadedHas(v, owner, i, k);
    LoadedMeaning(v, owner, i, k);
    InRange(w, owner', i, k, 1);
    if |bufs| == 1 {
      assert Follows(w, i, k, 0);
      RightIfContiguous(w, i, k, bufs);
    } else {
      PastTheEnd(w, owner', i, k, bufs, Overrun(w.disk, Lookup(w.disk, w.nodes[i], k), bufs));
    }
  }

  // ----- two files that grow in turn ----------------------------------------------------------

  /** Empty files at blocks 1 and 2, and `free` blocks. */
  function Pair(free: nat): Vol {
    Vol([false, false, false] + seq(free, b => true), free, seq(free + 3, b => Zeros()),
        map[1 := SfsSizes.EMPTY, 2 := SfsSizes.EMPTY])
  }

  lemma PairWf(free: nat)
    requires free + 3 < 0x1_0000_0000
    ensures Wf(Pair(free), map[1 := Node(1), 2 := Node(2)])
  {
    var v := Pair(free);
    CountConcat([false, false, false], seq(free, b => true));
    CountZero([false, false, false]);
    CountAll(seq(free, b => true));
    forall i: nat, k: nat ensures PosOk(v, map[1 := Node(1), 2 := Node(2)], i, k) {
    }
  }

  /** The bytes of a file are those of its blocks. */
  lemma BlockOfBytes(v: Vol, w: Vol, i: nat, k: nat, m: nat, buf: Block)
    requires forall p: nat :: ByteAt(w, i, p) ==
               if k * BLKSIZE <= p < k * BLKSIZE + BLKSIZE then buf[p - k * BLKSIZE] else ByteAt(v, i, p)
    ensures BlockAt(w, i, m) == if m == k then buf else BlockAt(v, i, m)
  {
    var b := if m == k then buf else BlockAt(v, i, m);
    forall off: nat | off < BLKSIZE ensures BlockAt(w, i, m)[off] == b[off] {
      InBlock(m, off);
      assert ByteAt(w, i, m * BLKSIZE + off) == BlockAt(w, i, m)[off];
    }
  }

  /** One more block for a file with whole blocks. */
  method Append(fs: Fs, i: nat, k: nat, buf: Block)
    requires fs.Valid() && i in fs.nodes && fs.nodes[i].blocks == k < NDIRECT && fs.nodes[i].size == k * BLKSIZE
    requires Lowest(fs.bits) < |fs.bits|
    modifies fs
    ensures fs.Valid() && i in fs.nodes && OthersSame(old(fs.State()), fs.State(), i)
    ensures fs.nodes[i].blocks == k + 1 && fs.nodes[i].size == (k + 1) * BLKSIZE
    ensures |old(fs.nodes[i].direct)| == NDIRECT
    ensures fs.nodes[i].direct == old(fs.nodes[i].direct)[k := Lowest(old(fs.bits))]
    ensures fs.bits == old(fs.bits)[Lowest(old(fs.bits)) := false]
    ensures forall m: nat :: BlockAt(fs.State(), i, m) == if m == k then buf else BlockAt(old(fs.State()), i, m)
  {
    ghost var v := fs.State();
    CountPositive(fs.bits, Lowest(fs.bits));
    assert Granted(v, i, k + 1);
    var ret, alen := WriteFile(fs, i, k * BLKSIZE, buf);
    forall m: nat ensures BlockAt(fs.State(), i, m) == if m == k then buf else BlockAt(v, i, m) {
      BlockOfBytes(v, fs.State(), i, k, m, buf);
    }
  }

  /** The blocks below `n` are in use and the others are free. */
  ghost predicate UsedBelow(bits: seq<bool>, n: nat) {
    forall b | 0 <= b < |bits| :: bits[b] <==> b >= n
  }

  lemma NextUsed(bits: seq<bool>, n: nat)
    requires UsedBelow(bits, n) && n < |bits|
    ensures Lowest(bits) == n && UsedBelow(bits[n := false], n + 1)
  {
    assert bits[n];
    var k := Lowest(bits);
    assert k < |bits| ==> bits[k];
  }

  /** The file has this many blocks, all full, and these are the first two. */
  ghost predicate Holds(v: Vol, i: nat, blocks: nat, b: nat, c: nat) {
    && i in v.nodes && v.nodes[i].blocks == blocks && v.nodes[i].size == blocks * BLKSIZE
    && |v.nodes[i].direct| == NDIRECT && v.nodes[i].direct[0] == b && v.nodes[i].direct[1] == c
  }

  /** Three blocks written to the files 1, 2 and 1 go to the disk blocks 3, 4 and 5. */
  method GrowInTurn(free: nat, a: Block, b: Block, c: Block) returns (fs: Fs)
    requires 3 <= free && free + 3 < 0x1_0000_0000
    ensures fresh(fs) && fs.Valid() && |fs.bits| == free + 3
    ensures Holds(fs.State(), 1, 2, 3, 5) && BlockAt(fs.State(), 1, 0) == a && BlockAt(fs.State(), 1, 1) == c
    ensures Holds(fs.State(), 2, 1, 4, 0) && BlockAt(fs.State(), 2, 0) == b
  {
    PairWf(free);
    var v := Pair(free);
    fs := new Fs(v.bits, v.unused, v.disk, v.nodes, map[1 := Node(1), 2 := Node(2)]);
    assert UsedBelow(fs.bits, 3);
    NextUsed(fs.bits, 3);
    Append(fs, 1, 0, a);
    ghost var v1 := fs.State();
    assert SameFile(v, v1, 2);
    NextUsed(fs.bits, 4);
    Append(fs, 2, 0, b);
    ghost var v2 := fs.State();
    assert SameFile(v1, v2, 1);
    FirstBlockSame(v1, v2, 1);
    NextUsed(fs.bits, 5);
    Append(fs, 1, 1, c);
    assert SameFile(v2, fs.State(), 2);
    FirstBlockSame(v2, fs.State(), 2);
  }

  lemma FirstBlockSame(v: Vol, w: Vol, i: nat)
    requires i in v.nodes && SameFile(v, w, i) && v.nodes[i].size >= BLKSIZE
    ensures BlockAt(w, i, 0) == BlockAt(v, i, 0)
  {
    SliceOfBlock(v, i, 0, 0, BLKSIZE);
    SliceOfBlock(w, i, 0, 0, BLKSIZE);
  }

  /** Where the transfers of two blocks of file 1 go. */
  lemma CrossBlocks(v: Vol, owner: Owners)
    requires Wf(v, owner) && |v.bits| >= 6 && Holds(v, 1, 2, 3, 5) && Holds(v, 2, 1, 4, 0)
    ensures LoadRet(v, 1, 0).Ok? && Loaded(v, 1, 0) == v && RunRet(v, v, 1, 0, 2).Ok?
    ensures v.disk[3] == BlockAt(v, 1, 0) && v.disk[4] == BlockAt(v, 2, 0) && v.disk[5] == BlockAt(v, 1, 1)
  {
  }

  /** The files once two blocks have been written there. */
  lemma CrossWrite(v: Vol, owner: Owners, w: Vol, d: Block, e: Block)
    requires Wf(v, owner) && |v.bits| >= 6 && Holds(v, 1, 2, 3, 5) && Holds(v, 2, 1, 4, 0)
    requires w.nodes == v.nodes && w.disk == Overrun(v.disk, 3, [d, e])
    ensures Flat(w, 1) == d + BlockAt(v, 1, 1) && Flat(w, 2) == e
  {
    assert w.disk[3] == d && w.disk[4] == e && w.disk[5] == v.disk[5];
    FlatTwo(w, 1, d, BlockAt(v, 1, 1));
    FlatOne(w, 2, e);
  }

  method ReadCross(fs: Fs) returns (read: seq<Block>)
    requires fs.Valid() && |fs.bits| >= 6 && Holds(fs.State(), 1, 2, 3, 5) && Holds(fs.State(), 2, 1, 4, 0)
    modifies fs
    ensures fs.Valid() && fs.State() == old(fs.State())
    ensures read == [BlockAt(old(fs.State()), 1, 0), BlockAt(old(fs.State()), 2, 0)]
  {
    ghost var v := fs.State();
    CrossBlocks(v, fs.owner);
    var ret;
    ret, read := ReadRun(fs, 1, 0, 2);
    assert |read| == 2 && read[0] == v.disk[3 + 0] && read[1] == v.disk[3 + 1];
  }

  method WriteCross(fs: Fs, d: Block, e: Block)
    requires fs.Valid() && |fs.bits| >= 6 && Holds(fs.State(), 1, 2, 3, 5) && Holds(fs.State(), 2, 1, 4, 0)
    modifies fs
    ensures fs.nodes == old(fs.nodes)
    ensures Flat(fs.State(), 1) == d + BlockAt(old(fs.State()), 1, 1) && Flat(fs.State(), 2) == e
  {
    ghost var v, owner := fs.State(), fs.owner;
    CrossBlocks(v, owner);
    var ret := WriteRun(fs, 1, 0, [d, e]);
    CrossWrite(v, owner, fs.State(), d, e);
  }

  /** A read of two blocks of file 1 delivers a block of file 2, and a write of two blocks changes it. */
  method RunsCross(free: nat, a: Block, b: Block, c: Block, d: Block, e: Block)
    returns (fs: Fs, read: seq<Block>, ghost before: Vol)
    requires 3 <= free && free + 3 < 0x1_0000_0000
    ensures 1 in before.nodes && 2 in before.nodes && Flat(before, 1) == a + c && Flat(before, 2) == b
    ensures read == [a, b]
    ensures fs.nodes == before.nodes && Flat(fs.State(), 1) == d + c && Flat(fs.State(), 2) == e
  {
    fs := GrowInTurn(free, a, b, c);
    before := fs.State();
    FlatOne(before, 2, b);
    FlatTwo(before, 1, a, c);
    read := ReadCross(fs);
    WriteCross(fs, d, e);
  }

  lemma FlatOne(v: Vol, i: nat, b: Block)
    requires i in v.nodes && v.nodes[i].size == BLKSIZE && BlockAt(v, i, 0) == b
    ensures Flat(v, i) == b
  {
  }

  lemma FlatTwo(v: Vol, i: nat, b: Block, c: Block)
    requires i in v.nodes && v.nodes[i].size == 2 * BLKSIZE && BlockAt(v, i, 0) == b && BlockAt(v, i, 1) == c
    ensures Flat(v, i) == b + c
  {
    forall p: nat | p < 2 * BLKSIZE ensures Flat(v, i)[p] == (b + c)[p] {
      InBlock(p / BLKSIZE, p % BLKSIZE);
    }
  }
}
