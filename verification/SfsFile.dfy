/**
 Files of the simple file system as flat byte sequences: sfs_truncfile and sfs_io_nolock of
 kern/fs/sfs/sfs_inode.c over the block map.
 */
module SfsFile {
  import opened Bitmap
  import opened SfsDisk
  import opened SfsBlockMap

  const MAX_FILE_SIZE := 0x800_0000

  function BlocksFor(n: nat): nat {
    (n + BLKSIZE - 1) / BLKSIZE
  }

  /** A file has the blocks that its size calls for. */
  predicate Sized(nd: Inode) {
    nd.blocks == BlocksFor(nd.size)
  }

  function Min(a: nat, b: nat): nat {
    if a < b then a else b
  }

  function Max(a: nat, b: nat): nat {
    if a < b then b else a
  }

  // ----- sfs_truncfile ------------------------------------------------------------------------

  lemma KeepsFewer(v: Vol, v': Vol, i: nat, m: nat, n: nat)
    requires Keeps(v, v', i, m) && n <= m
    ensures Keeps(v, v', i, n)
  {
    forall j: nat, k: nat | j in v.nodes && k < if j == i then n else v.nodes[j].blocks ensures KeptAt(v, v', j, k) {
      assert KeptAt(v, v', j, k);
    }
  }

  /** What `i` can be given is the same. */
  ghost predicate SameGrants(v: Vol, v': Vol, i: nat) {
    i in v.nodes && i in v'.nodes && forall t: nat :: Granted(v', i, t) <==> Granted(v, i, t)
  }

  /** `i` may have more blocks, of zeros; nothing else that can be read has changed. */
  ghost predicate Padded(v: Vol, v': Vol, i: nat) {
    && i in v.nodes && i in v'.nodes && Keeps(v, v', i, v.nodes[i].blocks) && SameGrants(v, v', i)
    && v'.nodes[i].size == v.nodes[i].size && v.nodes[i].blocks <= v'.nodes[i].blocks
    && forall k: nat :: BlockAt(v', i, k) == BlockAt(v, i, k)
  }

  lemma PaddedThen(u: Vol, v: Vol, w: Vol, i: nat)
    requires Padded(u, v, i) && Padded(v, w, i)
    ensures Padded(u, w, i)
  {
    KeepsFewer(v, w, i, v.nodes[i].blocks, u.nodes[i].blocks);
    KeepsTransitive(u, v, w, i, u.nodes[i].blocks);
  }

  lemma GrownIsPadded(v: Vol, v': Vol, owner: Owners, owner': Owners, i: nat, b: nat)
    requires Wf(v, owner) && Wf(v', owner') && i in v.nodes && GrewByOne(v, v', i, b)
    ensures Padded(v, v', i)
  {
    var n := v.nodes[i].blocks;
    forall k: nat ensures BlockAt(v', i, k) == BlockAt(v, i, k) {
      if k < n {
        assert KeptAt(v, v', i, k);
      } else {
        MissingIsZero(v, owner, i, k);
        if k > n {
          MissingIsZero(v', owner', i, k);
        }
      }
    }
  }

  lemma UntouchedIsPadded(v: Vol, v': Vol, owner: Owners, i: nat)
    requires Wf(v, owner) && Untouched(v, v') && i in v.nodes
    ensures Padded(v, v', i)
  {
    UntouchedWf(v, v', owner, i);
    forall k: nat ensures BlockAt(v', i, k) == BlockAt(v, i, k) {
      if k < v.nodes[i].blocks {
        assert KeptAt(v, v', i, k);
      } else {
        MissingIsZero(v, owner, i, k);
        MissingIsZero(v', owner, i, k);
      }
    }
  }

  /** A load gives the file zeros more, or nothing. */
  lemma LoadIsPadding(v: Vol, owner: Owners, i: nat, k: nat)
    requires Wf(v, owner) && i in v.nodes
    ensures var w := Loaded(v, i, k);
            && Padded(v, w, i) && Wf(w, LoadedOwners(v, owner, i, k))
            && w.nodes[i].blocks == (if LoadRet(v, i, k).Ok?
                then Max(v.nodes[i].blocks, k + 1) else v.nodes[i].blocks) <= MAXBLOCKS
  {
    var w := Loaded(v, i, k);
    LoadedMeaning(v, owner, i, k);
    assert NodeOk(v, owner, i);
    if w == v {
      KeepsItself(v, i, v.nodes[i].blocks);
    } else if LoadRet(v, i, k).Ok? {
      GrownIsPadded(v, w, owner, LoadedOwners(v, owner, i, k), i, Lookup(w.disk, w.nodes[i], k));
    } else {
      UntouchedIsPadded(v, w, owner, i);
    }
  }

  /** How an attempt to give `i` `t` blocks, one by one, ends. */
  function GrowRet(v: Vol, i: nat, t: nat): Ret
    requires i in v.nodes
  {
    if Granted(v, i, t) then Ok else if t > MAXBLOCKS && Granted(v, i, MAXBLOCKS) then Panic else NoMem
  }

  /** The enlarging loop of sfs_truncfile: it succeeds just when the blocks are there before the
      call, and otherwise the file has as many as could be had. */
  method Enlarge(fs: Fs, i: nat, tblks: nat) returns (ret: Ret)
    requires fs.Valid() && i in fs.nodes && fs.nodes[i].blocks <= tblks
    modifies fs
    ensures fs.Valid() && Padded(old(fs.State()), fs.State(), i)
    ensures ret == GrowRet(old(fs.State()), i, tblks)
    ensures ret.Ok? <==> fs.nodes[i].blocks == tblks
    ensures fs.nodes[i].blocks <= tblks && Granted(old(fs.State()), i, fs.nodes[i].blocks)
    ensures !ret.Ok? ==> !Granted(old(fs.State()), i, fs.nodes[i].blocks + 1)
  {
    ghost var u := fs.State();
    KeepsItself(u, i, u.nodes[i].blocks);
    assert NodeOk(u, fs.owner, i);
    var nblks := fs.nodes[i].blocks;
    while nblks != tblks
      invariant fs.Valid() && Padded(u, fs.State(), i)
      invariant nblks == fs.nodes[i].blocks <= tblks && nblks <= MAXBLOCKS
      decreases tblks - nblks
    {
      ghost var v := fs.State();
      LoadIsPadding(v, fs.owner, i, nblks);
      var ino;
      ret, ino := fs.Load(i, nblks);
      PaddedThen(u, v, fs.State(), i);
      if !ret.Ok? {
        NotGranted(u, v, i, nblks, tblks);
        return;
      }
      nblks := nblks + 1;
    }
    assert Granted(fs.State(), i, tblks);
    return Ok;
  }

  lemma NotGranted(u: Vol, v: Vol, i: nat, n: nat, t: nat)
    requires SameGrants(u, v, i) && v.nodes[i].blocks == n < t && n <= MAXBLOCKS && LoadRet(v, i, n) != Ok
    ensures LoadRet(v, i, n) == GrowRet(u, i, t) != Ok
    ensures Granted(u, i, n) && !Granted(u, i, n + 1)
  {
    assert Granted(v, i, n) && !Granted(v, i, n + 1) && !Granted(v, i, t);
    assert n < MAXBLOCKS ==> !Granted(v, i, MAXBLOCKS);
  }

  /** The reducing loop of sfs_truncfile. */
  method Reduce(fs: Fs, i: nat, tblks: nat)
    requires fs.Valid() && i in fs.nodes && tblks <= fs.nodes[i].blocks
    modifies fs
    ensures fs.Valid() && i in fs.nodes && fs.nodes[i].size == old(fs.nodes[i].size) && fs.nodes[i].blocks == tblks
    ensures Keeps(old(fs.State()), fs.State(), i, tblks)
    ensures fs.unused == old(fs.unused) + old(fs.nodes[i].blocks) - tblks
  {
    ghost var u := fs.State();
    var nblks := fs.nodes[i].blocks;
    while nblks != tblks
      invariant fs.Valid() && i in fs.nodes && fs.nodes[i].size == u.nodes[i].size
      invariant tblks <= nblks == fs.nodes[i].blocks
      invariant Keeps(u, fs.State(), i, nblks)
      invariant fs.unused == u.unused + u.nodes[i].blocks - nblks
      decreases nblks
    {
      ghost var v := fs.State();
      fs.Truncate(i);
      KeepsFewer(u, v, i, nblks, nblks - 1);
      KeepsTransitive(u, v, fs.State(), i, nblks - 1);
      nblks := nblks - 1;
    }
  }

  /** How sfs_truncfile ends. */
  function TruncRet(v: Vol, i: nat, len: int): Ret
    requires i in v.nodes
  {
    if len < 0 || len > MAX_FILE_SIZE then Inval
    else if v.nodes[i].size == len then if Sized(v.nodes[i]) then Ok else Panic
    else GrowRet(v, i, BlocksFor(len))
  }

  /** sfs_truncfile: what is below the new end, up to the end of its block, stays, and what is added
      is zero.  When no block is left the size and all that can be read stay as they were, but the
      file keeps the blocks added so far, as many as could be had. */
  method TruncFile(fs: Fs, i: nat, len: int) returns (ret: Ret)
    requires fs.Valid() && i in fs.nodes
    modifies fs
    ensures fs.Valid() && i in fs.nodes && Keeps(old(fs.State()), fs.State(), i, 0)
    ensures ret == TruncRet(old(fs.State()), i, len)
    ensures ret.Inval? || old(fs.nodes[i].size) == len ==> fs.State() == old(fs.State())
    ensures ret.Ok? ==>
              && fs.nodes[i].size == len && Sized(fs.nodes[i])
              && forall k: nat ::
                   BlockAt(fs.State(), i, k) == if k < BlocksFor(len) then BlockAt(old(fs.State()), i, k) else Zeros()
    ensures !ret.Ok? ==> Padded(old(fs.State()), fs.State(), i)
    ensures !ret.Ok? && !ret.Inval? && old(fs.nodes[i].size) != len ==>
              && Granted(old(fs.State()), i, fs.nodes[i].blocks) && !Granted(old(fs.State()), i, fs.nodes[i].blocks + 1)
    ensures ret.NoMem? && Sized(old(fs.nodes[i])) ==>
              (Sized(fs.nodes[i]) <==> !Granted(old(fs.State()), i, old(fs.nodes[i].blocks) + 1))
  {
    ghost var v := fs.State();
    KeepsItself(v, i, 0);
    KeepsItself(v, i, v.nodes[i].blocks);
    if len < 0 || len > MAX_FILE_SIZE {
      return Inval;
    }
    var tblks := BlocksFor(len);
    if fs.nodes[i].size == len {
      AllMissing(v, fs.owner, i);
      return if tblks == fs.nodes[i].blocks then Ok else Panic;
    }
    var nblks := fs.nodes[i].blocks;
    if nblks < tblks {
      ret := Enlarge(fs, i, tblks);
      KeepsFewer(v, fs.State(), i, nblks, 0);
      if !ret.Ok? {
        return;
      }
      AllMissing(fs.State(), fs.owner, i);
    } else {
      Reduce(fs, i, tblks);
      KeepsFewer(v, fs.State(), i, tblks, 0);
      Reduced(v, fs.State(), fs.owner, i, tblks);
    }
    assert fs.nodes[i].blocks == tblks;
    ghost var u := fs.State();
    SizeOnly(u, fs.owner, i, len);
    fs.nodes := fs.nodes[i := fs.nodes[i].(size := len)];
    KeepsTransitive(v, u, fs.State(), i, 0);
    ret := Ok;
  }

  lemma AllMissing(v: Vol, owner: Owners, i: nat)
    requires Wf(v, owner) && i in v.nodes
    ensures forall k: nat | k >= v.nodes[i].blocks :: BlockAt(v, i, k) == Zeros()
  {
    forall k: nat | k >= v.nodes[i].blocks ensures BlockAt(v, i, k) == Zeros() {
      MissingIsZero(v, owner, i, k);
    }
  }

  lemma Reduced(v: Vol, v': Vol, owner: Owners, i: nat, t: nat)
    requires i in v.nodes && Wf(v', owner) && Keeps(v, v', i, t) && v'.nodes[i].blocks == t
    ensures forall k: nat :: BlockAt(v', i, k) == if k < t then BlockAt(v, i, k) else Zeros()
  {
    AllMissing(v', owner, i);
    forall k: nat | k < t ensures BlockAt(v', i, k) == BlockAt(v, i, k) {
      assert KeptAt(v, v', i, k);
    }
  }

  lemma KeepsItself(v: Vol, i: nat, m: nat)
    ensures Keeps(v, v, i, m)
  {
  }

  function Resized(v: Vol, i: nat, n: nat): Vol
    requires i in v.nodes
  {
    v.(nodes := v.nodes[i := v.nodes[i].(size := n)])
  }

  /** The size plays no part in the block map. */
  lemma SizeOnly(v: Vol, owner: Owners, i: nat, n: nat)
    requires Wf(v, owner) && i in v.nodes
    ensures Wf(Resized(v, i, n), owner)
    ensures forall m: nat :: Keeps(v, Resized(v, i, n), i, m)
    ensures forall k: nat :: BlockAt(Resized(v, i, n), i, k) == BlockAt(v, i, k)
  {
    var v' := Resized(v, i, n);
    forall j: nat ensures NodeOk(v', owner, j) {
      assert NodeOk(v, owner, j);
    }
    forall j: nat, k: nat ensures PosOk(v', owner, j, k) {
      assert PosOk(v, owner, j, k);
    }
  }

  // ----- bytes --------------------------------------------------------------------------------

  /** Byte `p` of the blocks of `i`. */
  function ByteAt(v: Vol, i: nat, p: nat): Byte {
    BlockAt(v, i, p / BLKSIZE)[p % BLKSIZE]
  }

  /** The file as its readers see it. */
  function Flat(v: Vol, i: nat): (f: seq<Byte>)
    requires i in v.nodes
    ensures |f| == v.nodes[i].size && forall p | 0 <= p < |f| :: f[p] == ByteAt(v, i, p)
  {
    seq(v.nodes[i].size, p requires p >= 0 => ByteAt(v, i, p))
  }

  lemma InBlock(k: nat, off: nat)
    requires off < BLKSIZE
    ensures (k * BLKSIZE + off) / BLKSIZE == k && (k * BLKSIZE + off) % BLKSIZE == off
  {
  }

  /** Bytes from one block are the bytes of the file. */
  lemma SliceOfBlock(v: Vol, i: nat, k: nat, off: nat, n: nat)
    requires i in v.nodes && off + n <= BLKSIZE && k * BLKSIZE + off + n <= v.nodes[i].size
    ensures BlockAt(v, i, k)[off..off + n] == Flat(v, i)[k * BLKSIZE + off..k * BLKSIZE + off + n]
  {
    var p := k * BLKSIZE + off;
    var s, t := BlockAt(v, i, k)[off..off + n], Flat(v, i)[p..p + n];
    forall m | 0 <= m < n ensures s[m] == t[m] {
      InBlock(k, off + m);
      assert t[m] == Flat(v, i)[p + m] == ByteAt(v, i, k * BLKSIZE + (off + m));
    }
  }

  // ----- one transfer -------------------------------------------------------------------------

  /** A request of at most one block: `first` bytes from `off` in block `blkno`, and the `rest` of
      them, if any, from the start of the next block. */
  datatype Request = Request(blkno: nat, off: nat, first: nat, rest: nat) {
    predicate Valid() {
      && 0 < first && off + first <= BLKSIZE && first + rest <= BLKSIZE && (rest > 0 ==> off + first == BLKSIZE)
    }

    /** The blocks that the file has to have. */
    function Blocks(): nat {
      if rest > 0 then blkno + 2 else blkno + 1
    }

    function Start(): nat {
      blkno * BLKSIZE + off
    }
  }

  /** How sfs_io_nolock divides a request. */
  function Divide(offset: nat, endpos: nat): (q: Request)
    requires offset < endpos <= offset + BLKSIZE
    ensures q.Valid() && q.Start() == offset && endpos == offset + q.first + q.rest
    ensures q.blkno == offset / BLKSIZE && q.Blocks() == BlocksFor(endpos)
  {
    var blkno, blkoff := offset / BLKSIZE, offset % BLKSIZE;
    var nblks := endpos / BLKSIZE - blkno;
    if blkoff != 0 && nblks != 0 then Request(blkno, blkoff, BLKSIZE - blkoff, endpos % BLKSIZE)
    else if blkoff != 0 then Request(blkno, blkoff, endpos - offset, 0)
    else if nblks > 0 then Request(blkno, 0, nblks * BLKSIZE, 0)
    else Request(blkno, 0, endpos % BLKSIZE, 0)
  }

  /** The bytes `s` stand at `o`; every other byte of every file is as it was, and bytes that were
      not there before count as zero. */
  ghost predicate Written(v: Vol, v': Vol, i: nat, o: nat, s: seq<Byte>) {
    && i in v.nodes && i in v'.nodes && Keeps(v, v', i, 0) && SameGrants(v, v', i)
    && v'.nodes[i].size == v.nodes[i].size && v.nodes[i].blocks <= v'.nodes[i].blocks
    && forall p: nat :: ByteAt(v', i, p) == if o <= p < o + |s| then s[p - o] else ByteAt(v, i, p)
  }

  lemma NoStep(v: Vol, i: nat, o: nat)
    requires i in v.nodes
    ensures Written(v, v, i, o, [])
  {
    KeepsItself(v, i, 0);
  }

  lemma WrittenThen(u: Vol, v: Vol, w: Vol, i: nat, o: nat, s: seq<Byte>, o': nat, t: seq<Byte>)
    requires Written(u, v, i, o, s) && Written(v, w, i, o', t) && o' == o + |s|
    ensures Written(u, w, i, o, s + t)
  {
    KeepsTransitive(u, v, w, i, 0);
  }

  lemma PaddedIsWritten(v: Vol, v': Vol, i: nat, o: nat)
    requires Padded(v, v', i)
    ensures Written(v, v', i, o, [])
  {
    KeepsFewer(v, v', i, v.nodes[i].blocks, 0);
  }

  lemma Rounding(k: nat, n: nat)
    ensures k * BLKSIZE < n <= (k + 1) * BLKSIZE ==> BlocksFor(n) == k + 1
    ensures n <= k * BLKSIZE <==> BlocksFor(n) <= k
  {
  }

  /** How the transfers of a request end. */
  function IoRet(v: Vol, i: nat, q: Request): Ret
    requires i in v.nodes
  {
    if q.blkno > v.nodes[i].blocks then Panic else GrowRet(v, i, q.Blocks())
  }

  /** The bytes moved: all, those in the first block, or none. */
  function IoLen(v: Vol, i: nat, q: Request): nat
    requires i in v.nodes
  {
    if q.blkno > v.nodes[i].blocks then 0
    else if Granted(v, i, q.Blocks()) then q.first + q.rest
    else if Granted(v, i, q.blkno + 1) then q.first
    else 0
  }

  /** The blocks of the file then. */
  function IoBlocks(v: Vol, i: nat, q: Request): nat
    requires i in v.nodes
  {
    var alen := IoLen(v, i, q);
    if alen == 0 then v.nodes[i].blocks else Max(v.nodes[i].blocks, if alen > q.first then q.blkno + 2 else q.blkno + 1)
  }

  /** One transfer ends with `ret`: block `k` has been loaded and, if that succeeded, `s` written at
      `o`, which is in it. */
  ghost predicate Part(v: Vol, v': Vol, i: nat, k: nat, o: nat, s: seq<Byte>, ret: Ret) {
    && i in v.nodes && ret == LoadRet(v, i, k) && Written(v, v', i, o, if ret.Ok? then s else [])
    && v'.nodes[i].blocks == (if ret.Ok? then Max(v.nodes[i].blocks, k + 1) else v.nodes[i].blocks) <= MAXBLOCKS
  }

  /** There is a second transfer if the first succeeded and bytes are left. */
  predicate Second(v: Vol, i: nat, q: Request)
    requires i in v.nodes
  {
    q.rest > 0 && LoadRet(v, i, q.blkno).Ok?
  }

  /** How the last transfer ends, when `u` is the volume after the first. */
  function LastRet(v: Vol, u: Vol, i: nat, q: Request): Ret
    requires i in v.nodes
  {
    if Second(v, i, q) && i in u.nodes then LoadRet(u, i, q.blkno + 1) else LoadRet(v, i, q.blkno)
  }

  /** What can be given decides it before the request. */
  lemma Outcome(v: Vol, u: Vol, i: nat, q: Request)
    requires q.Valid() && SameGrants(v, u, i) && v.nodes[i].blocks <= MAXBLOCKS
    requires u.nodes[i].blocks == if LoadRet(v, i, q.blkno).Ok?
             then Max(v.nodes[i].blocks, q.blkno + 1) else v.nodes[i].blocks
    ensures LastRet(v, u, i, q) == IoRet(v, i, q)
    ensures IoLen(v, i, q) == if !LoadRet(v, i, q.blkno).Ok? then 0 else if LastRet(v, u, i, q).Ok?
            then q.first + q.rest else q.first
  {
    var k := q.blkno;
    assert Granted(u, i, k + 1) <==> Granted(v, i, k + 1);
    assert Granted(u, i, k + 2) <==> Granted(v, i, k + 2);
    assert Granted(u, i, MAXBLOCKS) <==> Granted(v, i, MAXBLOCKS);
    assert Granted(v, i, k + 2) ==> Granted(v, i, k + 1);
    assert k < MAXBLOCKS && Granted(v, i, MAXBLOCKS) ==> Granted(v, i, k + 1);
  }

  /** The bytes that are written. */
  function Sent(v: Vol, i: nat, q: Request, s: seq<Byte>, t: seq<Byte>): seq<Byte>
    requires i in v.nodes
  {
    if IoLen(v, i, q) == 0 then [] else if IoRet(v, i, q).Ok? then s + t else s
  }

  /** One transfer, and a second if there is need and the first succeeded, make the request. */
  lemma Transfers(v: Vol, u: Vol, w: Vol, i: nat, o: nat, q: Request, s: seq<Byte>, t: seq<Byte>)
    requires i in v.nodes && q.Valid() && v.nodes[i].blocks <= MAXBLOCKS
    requires Part(v, u, i, q.blkno, o, s, LoadRet(v, i, q.blkno))
    requires if Second(v, i, q) then Part(u, w, i, q.blkno + 1, o + |s|, t, LastRet(v, u, i, q))
             else w == u && (q.rest == 0 ==> t == [])
    ensures LastRet(v, u, i, q) == IoRet(v, i, q) && i in w.nodes && w.nodes[i].blocks == IoBlocks(v, i, q)
    ensures Written(v, w, i, o, Sent(v, i, q, s, t))
    ensures IoLen(v, i, q) == if !LoadRet(v, i, q.blkno).Ok? then 0 else if IoRet(v, i, q).Ok?
            then q.first + q.rest else q.first
  {
    Outcome(v, u, i, q);
    if Second(v, i, q) {
      WrittenThen(v, u, w, i, o, s, o + |s|, if LastRet(v, u, i, q).Ok? then t else []);
      assert s + [] == s;
    } else {
      assert t == [] ==> s + t == s;
    }
  }

  // ----- reading ------------------------------------------------------------------------------

  /** sfs_bmap_load and sfs_rbuf, or one block of sfs_rblock. */
  method ReadPart(fs: Fs, i: nat, blkno: nat, off: nat, n: nat) returns (ret: Ret, s: seq<Byte>)
    requires fs.Valid() && i in fs.nodes && off + n <= BLKSIZE
    modifies fs
    ensures fs.Valid() && ret == LoadRet(old(fs.State()), i, blkno) && fs.State() == Loaded(old(fs.State()), i, blkno)
    ensures s == if ret.Ok? then BlockAt(fs.State(), i, blkno)[off..off + n] else []
  {
    LoadedMeaning(fs.State(), fs.owner, i, blkno);
    var ino;
    ret, ino := fs.Load(i, blkno);
    s := if ret.Ok? then fs.disk[ino][off..off + n] else [];
  }

  /** The volume after the transfers for a read. */
  function ReadVol(v: Vol, i: nat, q: Request): Vol
    requires i in v.nodes
  {
    var u := Loaded(v, i, q.blkno);
    if Second(v, i, q) && i in u.nodes then Loaded(u, i, q.blkno + 1) else u
  }

  lemma LoadIsPart(v: Vol, owner: Owners, i: nat, k: nat, o: nat)
    requires Wf(v, owner) && i in v.nodes
    ensures Part(v, Loaded(v, i, k), i, k, o, [], LoadRet(v, i, k))
    ensures Wf(Loaded(v, i, k), LoadedOwners(v, owner, i, k)) && Flat(Loaded(v, i, k), i) == Flat(v, i)
  {
    LoadIsPadding(v, owner, i, k);
    PaddedIsWritten(v, Loaded(v, i, k), i, o);
    SameFlat(v, Loaded(v, i, k), i, o);
  }

  lemma ReadMeaning(v: Vol, owner: Owners, i: nat, q: Request, o: nat)
    requires Wf(v, owner) && i in v.nodes && q.Valid()
    ensures var u, w := Loaded(v, i, q.blkno), ReadVol(v, i, q);
            && LastRet(v, u, i, q) == IoRet(v, i, q)
            && IoLen(v, i, q) == (if !LoadRet(v, i, q.blkno).Ok? then 0 else if IoRet(v, i, q).Ok?
                then q.first + q.rest else q.first)
            && Written(v, w, i, o, []) && w.nodes[i].blocks == IoBlocks(v, i, q)
            && i in u.nodes && Flat(u, i) == Flat(w, i) == Flat(v, i)
    ensures q.Blocks() <= v.nodes[i].blocks ==> ReadVol(v, i, q) == v
  {
    ReadParts(v, owner, i, q, o);
    assert NodeOk(v, owner, i);
    Transfers(v, Loaded(v, i, q.blkno), ReadVol(v, i, q), i, o, q, [], []);
  }

  lemma ReadParts(v: Vol, owner: Owners, i: nat, q: Request, o: nat)
    requires Wf(v, owner) && i in v.nodes && q.Valid()
    ensures var u, w := Loaded(v, i, q.blkno), ReadVol(v, i, q);
            && i in u.nodes && Part(v, u, i, q.blkno, o, [], LoadRet(v, i, q.blkno))
            && (if Second(v, i, q) then Part(u, w, i, q.blkno + 1, o, [], LastRet(v, u, i, q)) else w == u)
            && Flat(u, i) == Flat(w, i) == Flat(v, i)
  {
    LoadIsPart(v, owner, i, q.blkno, o);
    if Second(v, i, q) {
      LoadIsPart(Loaded(v, i, q.blkno), LoadedOwners(v, owner, i, q.blkno), i, q.blkno + 1, o);
    }
  }

  lemma SameFlat(v: Vol, v': Vol, i: nat, o: nat)
    requires Written(v, v', i, o, [])
    ensures Flat(v', i) == Flat(v, i)
  {
    var f, g := Flat(v', i), Flat(v, i);
    forall p: nat | p < |f| ensures f[p] == g[p] {
      assert ByteAt(v', i, p) == ByteAt(v, i, p);
    }
  }

  /** The transfers of sfs_io_nolock for a read, once the end has been settled; `s` and `t` are the
      bytes that they deliver. */
  method ReadRange(fs: Fs, i: nat, q: Request) returns (ret: Ret, s: seq<Byte>, t: seq<Byte>)
    requires fs.Valid() && i in fs.nodes && q.Valid()
    modifies fs
    ensures fs.Valid() && fs.State() == ReadVol(old(fs.State()), i, q)
    ensures ret == LastRet(old(fs.State()), Loaded(old(fs.State()), i, q.blkno), i, q)
    ensures s == if LoadRet(old(fs.State()), i, q.blkno).Ok?
                 then BlockAt(Loaded(old(fs.State()), i, q.blkno), i, q.blkno)[q.off..q.off + q.first] else []
    ensures t == if Second(old(fs.State()), i, q) && ret.Ok? then BlockAt(fs.State(), i, q.blkno + 1)[0..q.rest] else []
  {
    LoadedThere(fs.State(), fs.owner, i, q.blkno);
    t := [];
    ret, s := ReadPart(fs, i, q.blkno, q.off, q.first);
    if ret.Ok? && q.rest > 0 {
      ret, t := ReadPart(fs, i, q.blkno + 1, 0, q.rest);
    }
  }

  lemma LoadedThere(v: Vol, owner: Owners, i: nat, k: nat)
    requires Wf(v, owner) && i in v.nodes
    ensures i in Loaded(v, i, k).nodes
  {
    LoadedMeaning(v, owner, i, k);
  }

  /** How sfs_io_nolock ends; `end` is where the request ends once it has been cut. */
  function TransferRet(v: Vol, i: nat, offset: int, end: int): Ret
    requires i in v.nodes && end <= offset + BLKSIZE
  {
    if offset < 0 || offset >= MAX_FILE_SIZE then Inval else if end <= offset
        then Ok else IoRet(v, i, Divide(offset, end))
  }

  function ReadEnd(nd: Inode, offset: int, len: nat): int {
    if offset < 0 then offset else Min(Min(offset + len, MAX_FILE_SIZE), nd.size)
  }

  /** `buf` is what a request from `offset` to `end` delivers, and the missing blocks it met are there. */
  ghost predicate Delivered(v: Vol, v': Vol, i: nat, offset: nat, end: nat, buf: seq<Byte>)
    requires i in v.nodes && offset < end <= offset + BLKSIZE && end <= v.nodes[i].size
  {
    var q := Divide(offset, end);
    && |buf| == IoLen(v, i, q) && offset + |buf| <= end && buf == Flat(v, i)[offset..offset + |buf|]
    && i in v'.nodes && v'.nodes[i].blocks == IoBlocks(v, i, q)
    && (BlocksFor(end) <= v.nodes[i].blocks ==> v' == v)
  }

  /** sfs_io_nolock for a read of at most one block: a slice of the flat file.  A file that has the
      blocks which its size calls for is not changed; otherwise the missing ones are added, as zeros. */
  method Read(fs: Fs, i: nat, offset: int, len: nat) returns (ret: Ret, buf: seq<Byte>)
    requires fs.Valid() && i in fs.nodes && len <= BLKSIZE
    modifies fs
    ensures fs.Valid() && i in fs.nodes && Flat(fs.State(), i) == Flat(old(fs.State()), i)
    ensures OthersSame(old(fs.State()), fs.State(), i)
    ensures ret == TransferRet(old(fs.State()), i, offset, ReadEnd(old(fs.nodes[i]), offset, len))
    ensures var end := ReadEnd(old(fs.nodes[i]), offset, len);
            if ret.Inval? || end <= offset then buf == [] && fs.State() == old(fs.State())
            else Delivered(old(fs.State()), fs.State(), i, offset, end, buf)
    ensures BlocksFor(old(fs.nodes[i].size)) <= old(fs.nodes[i].blocks) ==>
              fs.State() == old(fs.State()) && (ret.Ok? || ret.Inval?)
  {
    buf := [];
    ghost var v := fs.State();
    NoStep(v, i, 0);
    AllSame(v, v, fs.owner, fs.owner, i, 0, []);
    var endpos := offset + len;
    if offset < 0 || offset >= MAX_FILE_SIZE || offset > endpos {
      return Inval, buf;
    }
    if offset == endpos {
      return Ok, buf;
    }
    if endpos > MAX_FILE_SIZE {
      endpos := MAX_FILE_SIZE;
    }
    if offset >= fs.nodes[i].size {
      return Ok, buf;
    }
    if endpos > fs.nodes[i].size {
      endpos := fs.nodes[i].size;
    }
    assert endpos == ReadEnd(fs.nodes[i], offset, len);
    ret, buf := ReadWithin(fs, i, offset, endpos);
  }

  /** sfs_io_nolock for a read, once the end has been settled. */
  method ReadWithin(fs: Fs, i: nat, offset: nat, endpos: nat) returns (ret: Ret, buf: seq<Byte>)
    requires fs.Valid() && i in fs.nodes && offset < endpos <= offset + BLKSIZE && endpos <= fs.nodes[i].size
    modifies fs
    ensures fs.Valid() && i in fs.nodes && Flat(fs.State(), i) == Flat(old(fs.State()), i)
    ensures OthersSame(old(fs.State()), fs.State(), i) && ret == IoRet(old(fs.State()), i, Divide(offset, endpos))
    ensures Delivered(old(fs.State()), fs.State(), i, offset, endpos, buf)
    ensures BlocksFor(old(fs.nodes[i].size)) <= old(fs.nodes[i].blocks) ==> fs.State() == old(fs.State()) && ret.Ok?
  {
    ghost var v, owner := fs.State(), fs.owner;
    var q := Divide(offset, endpos);
    ReadMeaning(v, owner, i, q, offset);
    var s, t;
    ret, s, t := ReadRange(fs, i, q);
    Slices(v, Loaded(v, i, q.blkno), fs.State(), i, q, offset, LoadRet(v, i, q.blkno), ret, s, t);
    buf := s + t;
    AllSame(v, fs.State(), owner, fs.owner, i, offset, []);
    EnoughBlocks(v.nodes[i].blocks, offset, endpos, v.nodes[i].size);
  }

  /** The bytes of the transfers that succeed make a slice of the file. */
  lemma Slices(v: Vol, u: Vol, w: Vol, i: nat, q: Request, o: nat, first: Ret, last: Ret, s: seq<Byte>, t: seq<Byte>)
    requires i in v.nodes && i in u.nodes && i in w.nodes && Flat(u, i) == Flat(w, i) == Flat(v, i)
    requires q.Valid() && o == q.Start() && o + q.first + q.rest <= v.nodes[i].size
    requires s == if first.Ok? then BlockAt(u, i, q.blkno)[q.off..q.off + q.first] else []
    requires t == if q.rest > 0 && first.Ok? && last.Ok? then BlockAt(w, i, q.blkno + 1)[0..q.rest] else []
    ensures o + |s + t| <= v.nodes[i].size && s + t == Flat(v, i)[o..o + |s + t|]
    ensures |s| == (if first.Ok? then q.first else 0) && |t| == if first.Ok? && last.Ok? then q.rest else 0
  {
    FirstSlice(v, u, i, q, o, first.Ok?, s);
    SecondSlice(v, w, i, q, o + q.first, first.Ok? && last.Ok?, t);
    Join(Flat(v, i), o, q, first.Ok?, last.Ok?, s, t);
  }

  lemma FirstSlice(v: Vol, u: Vol, i: nat, q: Request, o: nat, ok: bool, s: seq<Byte>)
    requires i in v.nodes && i in u.nodes && Flat(u, i) == Flat(v, i) && q.Valid() && o == q.Start()
    requires o + q.first <= v.nodes[i].size && s == if ok then BlockAt(u, i, q.blkno)[q.off..q.off + q.first] else []
    ensures s == if ok then Flat(v, i)[o..o + q.first] else []
  {
    SliceOfFile(v, u, i, q.blkno, q.off, q.first, o);
  }

  lemma SecondSlice(v: Vol, w: Vol, i: nat, q: Request, o: nat, ok: bool, t: seq<Byte>)
    requires i in v.nodes && i in w.nodes && Flat(w, i) == Flat(v, i) && q.Valid() && o == q.Start() + q.first
    requires o + q.rest <= v.nodes[i].size
    requires t == if q.rest > 0 && ok then BlockAt(w, i, q.blkno + 1)[0..q.rest] else []
    ensures t == if ok then Flat(v, i)[o..o + q.rest] else []
  {
    if q.rest > 0 {
      SliceOfFile(v, w, i, q.blkno + 1, 0, q.rest, o);
    }
  }

  lemma SliceOfFile(v: Vol, u: Vol, i: nat, k: nat, off: nat, n: nat, p: nat)
    requires i in v.nodes && i in u.nodes && Flat(u, i) == Flat(v, i) && off + n <= BLKSIZE
    requires p == k * BLKSIZE + off && p + n <= v.nodes[i].size
    ensures BlockAt(u, i, k)[off..off + n] == Flat(v, i)[p..p + n]
  {
    SliceOfBlock(u, i, k, off, n);
  }

  lemma Join(f: seq<Byte>, o: nat, q: Request, first: bool, last: bool, s: seq<Byte>, t: seq<Byte>)
    requires o + q.first + q.rest <= |f|
    requires s == if first then f[o..o + q.first] else []
    requires t == if q.rest > 0 && first && last then f[o + q.first..o + q.first + q.rest] else []
    ensures |s| == (if first then q.first else 0) && |t| == if first && last then q.rest else 0
    ensures o + |s + t| <= |f| && s + t == f[o..o + |s + t|]
  {
  }

  lemma EnoughBlocks(m: nat, offset: nat, end: nat, size: nat)
    requires offset < end <= size
    ensures BlocksFor(size) <= m ==> BlocksFor(end) <= m && offset / BLKSIZE <= m
  {
  }

  /** Other files read as before. */
  ghost predicate OthersSame(v: Vol, v': Vol, i: nat) {
    v'.nodes.Keys == v.nodes.Keys && forall j: nat | j != i :: SameFile(v, v', j)
  }

  ghost predicate SameFile(v: Vol, v': Vol, j: nat) {
    j in v.nodes ==> j in v'.nodes && v'.nodes[j] == v.nodes[j] && Flat(v', j) == Flat(v, j)
  }

  lemma AllSame(v: Vol, v': Vol, owner: Owners, owner': Owners, i: nat, o: nat, s: seq<Byte>)
    requires Written(v, v', i, o, s) && Wf(v, owner) && Wf(v', owner')
    ensures OthersSame(v, v', i)
  {
    forall j: nat | j in v.nodes && j != i ensures SameFile(v, v', j) {
      assert SameNode(v, v', j);
      forall p: nat | p < v.nodes[j].size ensures Flat(v', j)[p] == Flat(v, j)[p] {
        OtherBlock(v, v', owner, owner', i, j, p / BLKSIZE);
      }
    }
  }

  lemma OtherBlock(v: Vol, v': Vol, owner: Owners, owner': Owners, i: nat, j: nat, k: nat)
    requires Keeps(v, v', i, 0) && Wf(v, owner) && Wf(v', owner') && j in v.nodes && j != i
    ensures BlockAt(v', j, k) == BlockAt(v, j, k)
  {
    assert SameNode(v, v', j);
    if k < v.nodes[j].blocks {
      assert KeptAt(v, v', j, k);
    } else {
      MissingIsZero(v, owner, j, k);
      MissingIsZero(v', owner', j, k);
    }
  }

  // ----- writing ------------------------------------------------------------------------------

  function Overwritten(v: Vol, b: nat, blk: Block): Vol {
    v.(disk := Store(v.disk, b, blk))
  }

  /** Writing a data block changes that block of that file only. */
  lemma OverwrittenWf(v: Vol, owner: Owners, i: nat, k: nat, blk: Block)
    requires Wf(v, owner) && i in v.nodes && k < v.nodes[i].blocks
    ensures var v' := Overwritten(v, Lookup(v.disk, v.nodes[i], k), blk);
            && Wf(v', owner) && Keeps(v, v', i, k) && BlockAt(v', i, k) == blk
            && forall n: nat | n != k :: BlockAt(v', i, n) == BlockAt(v, i, n)
  {
    var b := Lookup(v.disk, v.nodes[i], k);
    var v' := Overwritten(v, b, blk);
    assert NodeOk(v, owner, i) && PosOk(v, owner, i, k);
    forall j: nat, n: nat ensures j in v.nodes ==> Lookup(v'.disk, v'.nodes[j], n) == Lookup(v.disk, v.nodes[j], n) {
      assert NodeOk(v, owner, j);
    }
    forall j: nat ensures NodeOk(v', owner, j) {
      assert NodeOk(v, owner, j);
    }
    forall j: nat, n: nat ensures PosOk(v', owner, j, n) {
      assert PosOk(v, owner, j, n);
    }
    forall j: nat, n: nat | j in v.nodes && n < v.nodes[j].blocks && (j != i || n != k) ensures KeptAt(v, v', j, n) {
      assert NodeOk(v, owner, j) && PosOk(v, owner, j, n);
    }
    forall n: nat | n != k ensures BlockAt(v', i, n) == BlockAt(v, i, n) {
      if n < v.nodes[i].blocks {
        assert KeptAt(v, v', i, n);
      } else {
        MissingIsZero(v, owner, i, n);
        MissingIsZero(v', owner, i, n);
      }
    }
  }

  /** Writing into a block of a file lays bytes over the file. */
  lemma PatchIsWritten(v: Vol, v': Vol, i: nat, k: nat, off: nat, s: seq<Byte>, o: nat)
    requires i in v.nodes && k < v.nodes[i].blocks && off + |s| <= BLKSIZE && o == k * BLKSIZE + off
    requires Keeps(v, v', i, 0) && v'.nodes == v.nodes && v'.unused == v.unused
    requires BlockAt(v', i, k) == Patch(BlockAt(v, i, k), off, s)
    requires forall n: nat | n != k :: BlockAt(v', i, n) == BlockAt(v, i, n)
    ensures Written(v, v', i, o, s)
  {
    forall p: nat ensures ByteAt(v', i, p) == if o <= p < o + |s| then s[p - o] else ByteAt(v, i, p) {
      if p / BLKSIZE == k {
        assert p == k * BLKSIZE + p % BLKSIZE;
      } else {
        assert !(o <= p < o + |s|);
      }
    }
  }

  /** The volume after a transfer for a write: `s` at `off` in block `k`. */
  function PartVol(v: Vol, i: nat, k: nat, off: nat, s: seq<Byte>): Vol
    requires i in v.nodes && off + |s| <= BLKSIZE
  {
    var w := Loaded(v, i, k);
    var b := if i in w.nodes then Lookup(w.disk, w.nodes[i], k) else 0;
    if LoadRet(v, i, k).Ok? && b < |w.disk| then Overwritten(w, b, Patch(w.disk[b], off, s)) else w
  }

  lemma PartMeaning(v: Vol, owner: Owners, i: nat, k: nat, off: nat, s: seq<Byte>, o: nat)
    requires Wf(v, owner) && i in v.nodes && off + |s| <= BLKSIZE && o == k * BLKSIZE + off
    ensures var w := PartVol(v, i, k, off, s);
            Part(v, w, i, k, o, s, LoadRet(v, i, k)) && Wf(w, LoadedOwners(v, owner, i, k))
  {
    var u := Loaded(v, i, k);
    LoadIsPadding(v, owner, i, k);
    PaddedIsWritten(v, u, i, o);
    if LoadRet(v, i, k).Ok? {
      LoadedMeaning(v, owner, i, k);
      var b := Lookup(u.disk, u.nodes[i], k);
      var w := Overwritten(u, b, Patch(u.disk[b], off, s));
      OverwrittenWf(u, LoadedOwners(v, owner, i, k), i, k, Patch(u.disk[b], off, s));
      KeepsFewer(u, w, i, k, 0);
      PatchIsWritten(u, w, i, k, off, s, o);
      WrittenThen(v, u, w, i, o, [], o, s);
      assert [] + s == s;
    }
  }

  /** sfs_bmap_load and sfs_wbuf, or one block of sfs_wblock. */
  method WritePart(fs: Fs, i: nat, blkno: nat, off: nat, s: seq<Byte>) returns (ret: Ret)
    requires fs.Valid() && i in fs.nodes && off + |s| <= BLKSIZE
    modifies fs
    ensures fs.Valid() && ret == LoadRet(old(fs.State()), i, blkno)
    ensures fs.State() == PartVol(old(fs.State()), i, blkno, off, s)
  {
    ghost var v, owner := fs.State(), fs.owner;
    PartMeaning(v, owner, i, blkno, off, s, blkno * BLKSIZE + off);
    LoadedMeaning(v, owner, i, blkno);
    var ino;
    ret, ino := fs.Load(i, blkno);
    if ret.Ok? {
      fs.disk := fs.disk[ino := Patch(fs.disk[ino], off, s)];
      fs.owner := LoadedOwners(v, owner, i, blkno);
    }
  }

  /** If `k` is the block after the last, and a direct one, then it is the lowest free disk block now. */
  ghost predicate Fills(v: Vol, v': Vol, i: nat, k: nat) {
    && i in v.nodes && i in v'.nodes
    && (k == v.nodes[i].blocks < NDIRECT && LoadRet(v, i, k).Ok? ==>
          var b := Lowest(v.bits);
          && b < |v.bits| && v'.bits == v.bits[b := false]
          && |v.nodes[i].direct| == NDIRECT && v'.nodes[i].direct == v.nodes[i].direct[k := b])
  }

  lemma PartFills(v: Vol, owner: Owners, i: nat, k: nat, off: nat, s: seq<Byte>)
    requires Wf(v, owner) && i in v.nodes && off + |s| <= BLKSIZE
    ensures Fills(v, PartVol(v, i, k, off, s), i, k)
  {
    LoadedMeaning(v, owner, i, k);
    assert NodeOk(v, owner, i);
  }

  /** What WritePart does, for its callers. */
  method Transfer(fs: Fs, i: nat, blkno: nat, off: nat, s: seq<Byte>, ghost o: nat) returns (ret: Ret)
    requires fs.Valid() && i in fs.nodes && off + |s| <= BLKSIZE && o == blkno * BLKSIZE + off
    modifies fs
    ensures fs.Valid() && ret == LoadRet(old(fs.State()), i, blkno)
    ensures Part(old(fs.State()), fs.State(), i, blkno, o, s, ret) && Fills(old(fs.State()), fs.State(), i, blkno)
  {
    PartMeaning(fs.State(), fs.owner, i, blkno, off, s, o);
    PartFills(fs.State(), fs.owner, i, blkno, off, s);
    ret := WritePart(fs, i, blkno, off, s);
  }

  /** The bytes of a request that have to go to the next block. */
  method TransferRest(fs: Fs, i: nat, q: Request, ghost s: seq<Byte>, t: seq<Byte>, ghost v: Vol) returns (ret: Ret)
    requires fs.Valid() && q.Valid() && |s| == q.first && |t| == q.rest
    requires i in v.nodes && v.nodes[i].blocks <= MAXBLOCKS && Second(v, i, q)
    requires Part(v, fs.State(), i, q.blkno, q.Start(), s, LoadRet(v, i, q.blkno))
    modifies fs
    ensures fs.Valid() && i in fs.nodes && fs.nodes[i].blocks == IoBlocks(v, i, q)
    ensures ret == IoRet(v, i, q) && Written(v, fs.State(), i, q.Start(), Sent(v, i, q, s, t))
    ensures IoLen(v, i, q) == if ret.Ok? then q.first + q.rest else q.first
  {
    ghost var u := fs.State();
    ret := Transfer(fs, i, q.blkno + 1, 0, t, q.Start() + |s|);
    Transfers(v, u, fs.State(), i, q.Start(), q, s, t);
  }

  /** The transfers of sfs_io_nolock for a write of at most one block, once the end has been settled. */
  method WriteRange(fs: Fs, i: nat, q: Request, s: seq<Byte>, t: seq<Byte>) returns (ret: Ret, alen: nat)
    requires fs.Valid() && i in fs.nodes && q.Valid() && |s| == q.first && |t| == q.rest
    modifies fs
    ensures fs.Valid() && Written(old(fs.State()), fs.State(), i, q.Start(), Sent(old(fs.State()), i, q, s, t))
    ensures ret == IoRet(old(fs.State()), i, q) && alen == IoLen(old(fs.State()), i, q)
    ensures fs.nodes[i].blocks == IoBlocks(old(fs.State()), i, q)
    ensures q.rest == 0 ==> Fills(old(fs.State()), fs.State(), i, q.blkno)
  {
    ghost var v := fs.State();
    assert NodeOk(v, fs.owner, i);
    ret := Transfer(fs, i, q.blkno, q.off, s, q.Start());
    if ret.Ok? && q.rest > 0 {
      ret := TransferRest(fs, i, q, s, t, v);
      alen := if ret.Ok? then q.first + q.rest else q.first;
    } else {
      alen := if ret.Ok? then q.first else 0;
      Transfers(v, fs.State(), fs.State(), i, q.Start(), q, s, t);
    }
  }

  lemma SentIs(v: Vol, i: nat, q: Request, buf: seq<Byte>)
    requires i in v.nodes && q.Valid() && q.first + q.rest <= |buf|
    requires IoLen(v, i, q) == 0 || IoLen(v, i, q) == if IoRet(v, i, q).Ok? then q.first + q.rest else q.first
    ensures IoLen(v, i, q) <= |buf|
    ensures Sent(v, i, q, buf[..q.first], buf[q.first..q.first + q.rest]) == buf[..IoLen(v, i, q)]
  {
    Prefixes(buf, q.first, q.rest);
  }

  lemma Prefixes(buf: seq<Byte>, n: nat, m: nat)
    requires n + m <= |buf|
    ensures buf[..n] + buf[n..n + m] == buf[..n + m] && buf[..0] == []
  {
  }

  /** `alen` bytes of `buf` have been written from `offset` on, on the way to `end`, with outcome `ret`.
      Short of a panic the size reaches `offset + alen`, also when `alen` is 0. */
  ghost predicate Moved(v: Vol, v': Vol, i: nat, offset: nat, end: nat, buf: seq<Byte>, ret: Ret, alen: nat)
    requires i in v.nodes && offset < end <= offset + BLKSIZE
  {
    var q := Divide(offset, end);
    && ret == IoRet(v, i, q) && alen == IoLen(v, i, q) <= |buf|
    && i in v'.nodes && v'.nodes[i].blocks == IoBlocks(v, i, q)
    && v'.nodes[i].size == (if ret.Panic? then v.nodes[i].size else Max(v.nodes[i].size, offset + alen))
    && forall p: nat :: ByteAt(v', i, p) == if offset <= p < offset + alen then buf[p - offset] else ByteAt(v, i, p)
  }

  /** The transfers and the update of the size make a request. */
  lemma WrittenIsMoved(v: Vol, u: Vol, i: nat, offset: nat, end: nat, buf: seq<Byte>, ret: Ret, alen: nat)
    requires i in v.nodes && offset < end <= offset + BLKSIZE && alen <= |buf| && OthersSame(v, u, i)
    requires Written(v, u, i, offset, buf[..alen]) && u.nodes[i].blocks == IoBlocks(v, i, Divide(offset, end))
    requires ret == IoRet(v, i, Divide(offset, end)) && alen == IoLen(v, i, Divide(offset, end))
    ensures var w := if ret.Panic? then u else Resized(u, i, Max(u.nodes[i].size, offset + alen));
            OthersSame(v, w, i) && Moved(v, w, i, offset, end, buf, ret, alen)
  {
    WrittenResized(v, u, i, offset, buf[..alen], Max(u.nodes[i].size, offset + alen));
  }

  /** sfs_io_nolock for a write, once the end has been settled. */
  method WriteWithin(fs: Fs, i: nat, offset: nat, end: nat, buf: seq<Byte>) returns (ret: Ret, alen: nat)
    requires fs.Valid() && i in fs.nodes && offset < end <= offset + BLKSIZE && end <= offset + |buf|
    modifies fs
    ensures fs.Valid() && OthersSame(old(fs.State()), fs.State(), i)
    ensures Moved(old(fs.State()), fs.State(), i, offset, end, buf, ret, alen)
    ensures offset / BLKSIZE == (end - 1) / BLKSIZE ==> Fills(old(fs.State()), fs.State(), i, offset / BLKSIZE)
  {
    ghost var v, owner := fs.State(), fs.owner;
    var q := Divide(offset, end);
    ret, alen := WriteRange(fs, i, q, buf[..q.first], buf[q.first..q.first + q.rest]);
    SentIs(v, i, q, buf);
    AllSame(v, fs.State(), owner, fs.owner, i, offset, buf[..alen]);
    WrittenIsMoved(v, fs.State(), i, offset, end, buf, ret, alen);
    assert q.rest == 0 <==> offset / BLKSIZE == (end - 1) / BLKSIZE;
    if !ret.Panic? {
      WriteSize(fs, i, offset + alen);
    }
  }

  /** `s` laid over `f` at `o`. */
  function Overlay(f: seq<Byte>, o: nat, s: seq<Byte>): seq<Byte>
    requires o <= |f|
  {
    f[..o] + s + if o + |s| < |f| then f[o + |s|..] else []
  }

  /** What writing `s` at `offset` does to the file.  If the blocks were those that the size calls for,
      they still are just when the offset is not past the last one or the block for it could be had. */
  ghost predicate Effect(v: Vol, v': Vol, i: nat, offset: nat, s: seq<Byte>) {
    && i in v.nodes && i in v'.nodes
    && (Sized(v.nodes[i]) ==>
          (Sized(v'.nodes[i]) <==> offset <= v.nodes[i].blocks * BLKSIZE || Granted(v, i, offset / BLKSIZE + 1)))
    && (offset <= v.nodes[i].size ==> Flat(v', i) == Overlay(Flat(v, i), offset, s))
  }

  function WriteEnd(offset: int, n: nat): int {
    if offset < 0 then offset else Min(offset + n, MAX_FILE_SIZE)
  }

  /** sfs_io_nolock for a write of at most one block.  When the first block cannot be had the size
      still becomes the offset. */
  method WriteFile(fs: Fs, i: nat, offset: int, buf: seq<Byte>) returns (ret: Ret, alen: nat)
    requires fs.Valid() && i in fs.nodes && |buf| <= BLKSIZE
    modifies fs
    ensures fs.Valid() && i in fs.nodes && alen <= |buf| && OthersSame(old(fs.State()), fs.State(), i)
    ensures ret == TransferRet(old(fs.State()), i, offset, WriteEnd(offset, |buf|))
    ensures if ret.Inval? || buf == [] then fs.State() == old(fs.State()) && alen == 0
            else Moved(old(fs.State()), fs.State(), i, offset, WriteEnd(offset, |buf|), buf, ret, alen)
    ensures !ret.Inval? && buf != [] && offset / BLKSIZE == (WriteEnd(offset, |buf|) - 1) / BLKSIZE ==>
              Fills(old(fs.State()), fs.State(), i, offset / BLKSIZE)
    ensures buf != [] && (ret.Ok? || ret.NoMem?) ==> Effect(old(fs.State()), fs.State(), i, offset, buf[..alen])
  {
    alen := 0;
    ghost var v := fs.State();
    NoStep(v, i, 0);
    AllSame(v, v, fs.owner, fs.owner, i, 0, []);
    var endpos := offset + |buf|;
    if offset < 0 || offset >= MAX_FILE_SIZE || offset > endpos {
      return Inval, 0;
    }
    if offset == endpos {
      return Ok, 0;
    }
    if endpos > MAX_FILE_SIZE {
      endpos := MAX_FILE_SIZE;
    }
    assert endpos == WriteEnd(offset, |buf|);
    ret, alen := WriteWithin(fs, i, offset, endpos, buf);
    if !ret.Panic? {
      MovedMeans(v, fs.State(), i, offset, endpos, buf, ret, alen);
    }
  }

  lemma MovedMeans(v: Vol, v': Vol, i: nat, offset: nat, end: nat, buf: seq<Byte>, ret: Ret, alen: nat)
    requires i in v.nodes && offset < end <= offset + BLKSIZE && end <= offset + |buf|
    requires Moved(v, v', i, offset, end, buf, ret, alen) && !ret.Panic?
    ensures Effect(v, v', i, offset, buf[..alen])
  {
    if Sized(v.nodes[i]) {
      SizedAfter(v, i, offset, Divide(offset, end));
    }
    if offset <= v.nodes[i].size {
      FlatOfWritten(v, v', i, offset, buf[..alen]);
    }
  }

  /** The end of sfs_io_nolock. */
  method WriteSize(fs: Fs, i: nat, n: nat)
    requires fs.Valid() && i in fs.nodes
    modifies fs
    ensures fs.Valid() && i in old(fs.nodes) && fs.State() == Resized(old(fs.State()), i, Max(old(fs.nodes[i].size), n))
  {
    ghost var u := fs.State();
    SizeOnly(u, fs.owner, i, Max(u.nodes[i].size, n));
    ResizedSame(u, i);
    if n > fs.nodes[i].size {
      fs.nodes := fs.nodes[i := fs.nodes[i].(size := n)];
    }
    assert fs.State() == Resized(u, i, Max(u.nodes[i].size, n));
  }

  lemma WrittenResized(v: Vol, u: Vol, i: nat, o: nat, s: seq<Byte>, n: nat)
    requires Written(v, u, i, o, s) && OthersSame(v, u, i)
    ensures OthersSame(v, Resized(u, i, n), i)
    ensures forall p: nat ::
              ByteAt(Resized(u, i, n), i, p) == if o <= p < o + |s| then s[p - o] else ByteAt(v, i, p)
  {
    var w := Resized(u, i, n);
    forall p: nat ensures ByteAt(w, i, p) == ByteAt(u, i, p) {
    }
    forall j: nat | j != i ensures SameFile(v, w, j) {
      assert SameFile(v, u, j);
      assert j in v.nodes ==> Flat(w, j) == Flat(u, j);
    }
  }

  /** The blocks and the size agree after a write just when the offset was within the blocks or the
      first block of the request could be had. */
  lemma SizedAfter(v: Vol, i: nat, offset: nat, q: Request)
    requires i in v.nodes && q.Valid() && offset == q.Start() && Sized(v.nodes[i]) && !IoRet(v, i, q).Panic?
    ensures IoBlocks(v, i, q) == BlocksFor(Max(v.nodes[i].size, offset + IoLen(v, i, q))) <==>
            offset <= v.nodes[i].blocks * BLKSIZE || Granted(v, i, q.blkno + 1)
  {
    var m, k := v.nodes[i].blocks, q.blkno;
    Rounding(m, offset);
    Rounding(k, offset + q.first);
    Rounding(k + 1, offset + q.first + q.rest);
  }

  /** Bytes written through the block map are bytes laid over the flat file. */
  lemma FlatOfWritten(v: Vol, v': Vol, i: nat, o: nat, s: seq<Byte>)
    requires i in v.nodes && i in v'.nodes && o <= v.nodes[i].size && v'.nodes[i].size == Max(v.nodes[i].size, o + |s|)
    requires forall p: nat :: ByteAt(v', i, p) == if o <= p < o + |s| then s[p - o] else ByteAt(v, i, p)
    ensures Flat(v', i) == Overlay(Flat(v, i), o, s)
  {
    var f, g := Flat(v', i), Overlay(Flat(v, i), o, s);
    forall p: nat | p < |f| ensures f[p] == g[p] {
      assert f[p] == ByteAt(v', i, p);
    }
  }

  lemma ResizedSame(v: Vol, i: nat)
    requires i in v.nodes
    ensures Resized(v, i, v.nodes[i].size) == v
  {
  }
}
