/**
 Files whose size and blocks disagree: how sfs_truncfile and sfs_io_nolock (kern/fs/sfs/sfs_inode.c)
 make them when the disk is full, what becomes of them, and what holds of them over every session.
 */
module SfsSizes {
  import opened Bitmap
  import opened SfsDisk
  import opened SfsBlockMap
  import opened SfsFile

  // ----- a failed seek and a truncation -------------------------------------------------------

  function SeekRet(v: Vol, i: nat, pos: int): Ret
    requires i in v.nodes
  {
    if pos < 0 || pos >= MAX_FILE_SIZE then Inval
    else if pos > v.nodes[i].size then GrowRet(v, i, BlocksFor(pos)) else Ok
  }

  /** sfs_tryseek: a seek past the end enlarges the file. */
  method TrySeek(fs: Fs, i: nat, pos: int) returns (ret: Ret)
    requires fs.Valid() && i in fs.nodes
    modifies fs
    ensures fs.Valid() && i in fs.nodes
    ensures ret == SeekRet(old(fs.State()), i, pos)
    ensures ret.Inval? || pos <= old(fs.nodes[i].size) ==> fs.State() == old(fs.State())
    ensures ret.Ok? ==> fs.nodes[i].size == Max(old(fs.nodes[i].size), pos)
    ensures !ret.Ok? ==> Padded(old(fs.State()), fs.State(), i)
    ensures ret.NoMem? && Sized(old(fs.nodes[i])) ==>
              (Sized(fs.nodes[i]) <==> !Granted(old(fs.State()), i, old(fs.nodes[i].blocks) + 1))
  {
    if pos < 0 || pos >= MAX_FILE_SIZE {
      return Inval;
    }
    if pos > fs.nodes[i].size {
      ret := TruncFile(fs, i, pos);
    } else {
      ret := Ok;
    }
  }

  /** lseek past the end of a file, and then a truncation to the size that the file has: if the disk
      gets full on the way, the assert of the second call fails just when there was room for one
      block more before the first. */
  method SeekThenTruncate(fs: Fs, i: nat, pos: int) returns (first: Ret, second: Ret)
    requires fs.Valid() && i in fs.nodes && Sized(fs.nodes[i])
    modifies fs
    ensures first == SeekRet(old(fs.State()), i, pos)
    ensures first.NoMem? ==>
              second == if Granted(old(fs.State()), i, old(fs.nodes[i].blocks) + 1) then Panic else Ok
  {
    assert NodeOk(fs.State(), fs.owner, i);
    var size := fs.nodes[i].size;
    first := TrySeek(fs, i, pos);
    second := first;
    if first.NoMem? {
      second := TruncFile(fs, i, size);
    }
  }

  // ----- the smallest volumes -----------------------------------------------------------------

  const EMPTY := Inode(0, 0, [0, 0, 0, 0, 0, 0, 0, 0, 0, 0, 0, 0], 0)

  /** An empty file at block 1, and `free` blocks. */
  function Tiny(free: nat): Vol {
    Vol([false, false] + seq(free, b => true), free, seq(free + 2, b => Zeros()), map[1 := EMPTY])
  }

  lemma TinyWf(free: nat)
    requires free < 1000
    ensures Wf(Tiny(free), map[1 := Node(1)])
  {
    var v := Tiny(free);
    CountConcat([false, false], seq(free, b => true));
    CountZero([false, false]);
    CountAll(seq(free, b => true));
    forall i: nat, k: nat ensures PosOk(v, map[1 := Node(1)], i, k) {
    }
  }

  /** On a full disk a byte written at 100 of an empty file leaves size 100 and no block. */
  method ShortFile() returns (fs: Fs, ret: Ret, alen: nat)
    ensures fs.Valid() && ret == NoMem && alen == 0
    ensures 1 in fs.nodes && fs.nodes[1].size == 100 && fs.nodes[1].blocks == 0 && !Sized(fs.nodes[1])
  {
    TinyWf(0);
    var v := Tiny(0);
    fs := new Fs(v.bits, v.unused, v.disk, v.nodes, map[1 := Node(1)]);
    assert !Granted(v, 1, 1);
    ret, alen := WriteFile(fs, 1, 100, [7]);
  }

  /** With one free block, a seek of an empty file to 8192 and a truncation to 0 end in a panic. */
  method HalfEnlarged() returns (first: Ret, second: Ret)
    ensures first == NoMem && second == Panic
  {
    TinyWf(1);
    var v := Tiny(1);
    var fs := new Fs(v.bits, v.unused, v.disk, v.nodes, map[1 := Node(1)]);
    assert Granted(v, 1, 1) && !Granted(v, 1, 2);
    first, second := SeekThenTruncate(fs, 1, 8192);
  }

  // ----- every session ------------------------------------------------------------------------

  /** At most one block is missing, and only if a file may have that many. */
  predicate Near(nd: Inode) {
    BlocksFor(nd.size) <= nd.blocks + 1 && BlocksFor(nd.size) <= MAXBLOCKS
  }

  ghost predicate AllNear(v: Vol) {
    forall i: nat :: i in v.nodes ==> Near(v.nodes[i])
  }

  lemma MovedNear(v: Vol, v': Vol, owner: Owners, i: nat, offset: nat, end: nat, buf: seq<Byte>, ret: Ret, alen: nat)
    requires Wf(v', owner) && i in v.nodes && offset < end <= offset + BLKSIZE
    requires Moved(v, v', i, offset, end, buf, ret, alen) && Near(v.nodes[i]) && !ret.Panic?
    ensures Near(v'.nodes[i])
  {
    assert NodeOk(v', owner, i);
    var q, m := Divide(offset, end), v.nodes[i].blocks;
    Rounding(m + 1, offset);
    Rounding(MAXBLOCKS, offset);
    Rounding(q.blkno, offset + q.first);
    Rounding(q.blkno + 1, offset + q.first + q.rest);
  }

  /** A read of a file that lacks at most one block does not panic. */
  lemma ReadIsSafe(v: Vol, owner: Owners, i: nat, offset: int, len: nat)
    requires Wf(v, owner) && i in v.nodes && Near(v.nodes[i]) && len <= BLKSIZE
    ensures !TransferRet(v, i, offset, ReadEnd(v.nodes[i], offset, len)).Panic?
  {
    var end := ReadEnd(v.nodes[i], offset, len);
    if 0 <= offset < MAX_FILE_SIZE && offset < end {
      var q := Divide(offset, end);
      Rounding(v.nodes[i].blocks + 1, v.nodes[i].size);
      Rounding(MAXBLOCKS, v.nodes[i].size);
      Rounding(MAXBLOCKS, end);
    }
  }

  datatype Op =
    | ReadOp(ino: nat, offset: int, len: nat)
    | WriteOp(ino: nat, offset: int, buf: seq<Byte>)
    | TruncOp(ino: nat, length: int)

  predicate Small(op: Op) {
    match op
    case ReadOp(_, _, len) => len <= BLKSIZE
    case WriteOp(_, _, buf) => |buf| <= BLKSIZE
    case TruncOp(_, _) => true
  }

  lemma NearAgain(v: Vol, v': Vol, i: nat)
    requires AllNear(v) && i in v'.nodes && Near(v'.nodes[i]) && v'.nodes.Keys == v.nodes.Keys
    requires forall j: nat | j != i :: SameNode(v, v', j)
    ensures AllNear(v')
  {
    forall j: nat | j in v'.nodes ensures Near(v'.nodes[j]) {
      assert j != i ==> SameNode(v, v', j);
    }
  }

  lemma SameNodes(v: Vol, v': Vol, i: nat)
    requires OthersSame(v, v', i)
    ensures forall j: nat | j != i :: SameNode(v, v', j)
  {
    forall j: nat | j != i ensures SameNode(v, v', j) {
      assert SameFile(v, v', j);
    }
  }

  method DoRead(fs: Fs, i: nat, offset: int, len: nat) returns (ret: Ret)
    requires fs.Valid() && i in fs.nodes && AllNear(fs.State()) && len <= BLKSIZE
    modifies fs
    ensures fs.Valid() && fs.nodes.Keys == old(fs.nodes.Keys) && AllNear(fs.State()) && !ret.Panic?
  {
    ghost var v := fs.State();
    assert Near(v.nodes[i]);
    ReadIsSafe(v, fs.owner, i, offset, len);
    var buf;
    ret, buf := Read(fs, i, offset, len);
    assert fs.nodes[i].size == |Flat(fs.State(), i)| == |Flat(v, i)|;
    SameNodes(v, fs.State(), i);
    NearAgain(v, fs.State(), i);
  }

  method DoWrite(fs: Fs, i: nat, offset: int, buf: seq<Byte>) returns (ret: Ret)
    requires fs.Valid() && i in fs.nodes && AllNear(fs.State()) && |buf| <= BLKSIZE
    modifies fs
    ensures fs.Valid() && fs.nodes.Keys == old(fs.nodes.Keys) && (!ret.Panic? ==> AllNear(fs.State()))
  {
    ghost var v := fs.State();
    assert Near(v.nodes[i]);
    var alen;
    ret, alen := WriteFile(fs, i, offset, buf);
    if !ret.Panic? {
      if !ret.Inval? && buf != [] {
        MovedNear(v, fs.State(), fs.owner, i, offset, WriteEnd(offset, |buf|), buf, ret, alen);
      }
      SameNodes(v, fs.State(), i);
      NearAgain(v, fs.State(), i);
    }
  }

  method DoTrunc(fs: Fs, i: nat, length: int) returns (ret: Ret)
    requires fs.Valid() && i in fs.nodes && AllNear(fs.State())
    modifies fs
    ensures fs.Valid() && fs.nodes.Keys == old(fs.nodes.Keys) && AllNear(fs.State())
  {
    ghost var v := fs.State();
    assert Near(v.nodes[i]);
    ret := TruncFile(fs, i, length);
    assert NodeOk(fs.State(), fs.owner, i);
    NearAgain(v, fs.State(), i);
  }

  /** One operation on one of the files. */
  method Do(fs: Fs, op: Op) returns (ret: Ret)
    requires fs.Valid() && op.ino in fs.nodes && AllNear(fs.State()) && Small(op)
    modifies fs
    ensures fs.Valid() && fs.nodes.Keys == old(fs.nodes.Keys)
    ensures !ret.Panic? ==> AllNear(fs.State())
    ensures op.ReadOp? ==> !ret.Panic?
  {
    match op {
      case ReadOp(ino, offset, len) => ret := DoRead(fs, ino, offset, len);
      case WriteOp(ino, offset, buf) => ret := DoWrite(fs, ino, offset, buf);
      case TruncOp(ino, length) => ret := DoTrunc(fs, ino, length);
    }
  }

  /** Any operations in any order, up to the first panic if there is one: no read ever panics, and no
      file ever lacks more than one block. */
  method Session(fs: Fs, ops: seq<Op>) returns (rets: seq<Ret>)
    requires fs.Valid() && AllNear(fs.State()) && forall op | op in ops :: op.ino in fs.nodes && Small(op)
    modifies fs
    ensures fs.Valid() && |rets| <= |ops|
    ensures forall n | 0 <= n < |rets| :: ops[n].ReadOp? || n < |rets| - 1 ==> !rets[n].Panic?
    ensures |rets| < |ops| ==> rets != [] && rets[|rets| - 1].Panic?
    ensures rets == [] || !rets[|rets| - 1].Panic? ==> AllNear(fs.State())
  {
    rets := [];
    while |rets| < |ops|
      invariant fs.Valid() && AllNear(fs.State()) && fs.nodes.Keys == old(fs.nodes.Keys) && |rets| <= |ops|
      invariant forall n | 0 <= n < |rets| :: !rets[n].Panic?
      decreases |ops| - |rets|
    {
      var ret := Do(fs, ops[|rets|]);
      rets := rets + [ret];
      if ret.Panic? {
        return;
      }
    }
  }
}
