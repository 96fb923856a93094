/**
 Disk blocks of the simple file system: bytes, the 32-bit entries of an indirect block, and the
 read-modify-write of kern/fs/sfs/sfs_io.c.
 */
module SfsDisk {

  const BLKSIZE := 4096
  const NENTRY := 1024

  type Byte = b: int | 0 <= b < 256
  type Block = b: seq<Byte> | |b| == BLKSIZE witness seq(BLKSIZE, i => 0)
  type Disk = seq<Block>

  /** What sfs_clear_block writes. */
  function Zeros(): Block {
    seq(BLKSIZE, i => 0)
  }

  /** A block written; there is none past the end. */
  function Store(disk: Disk, b: nat, blk: Block): (d: Disk)
    ensures |d| == |disk| && forall c: nat | c < |d| :: d[c] == if c == b then blk else disk[c]
  {
    if b < |disk| then disk[b := blk] else disk
  }

  /** memcpy into a block buffer. */
  function Patch(b: Block, offset: nat, s: seq<Byte>): (r: Block)
    requires offset + |s| <= BLKSIZE
    ensures forall i | 0 <= i < BLKSIZE :: r[i] == if offset <= i < offset + |s| then s[i - offset] else b[i]
  {
    b[..offset] + s + b[offset + |s|..]
  }

  /** A 32-bit word in memory, lowest byte first. */
  function Encode(n: nat): (s: seq<Byte>)
    ensures |s| == 4
  {
    [n % 256, n / 0x100 % 256, n / 0x1_0000 % 256, n / 0x100_0000 % 256]
  }

  function Decode(s: seq<Byte>): nat
    requires |s| == 4
  {
    var a: int, b: int, c: int, d: int := s[0], s[1], s[2], s[3];
    a + 0x100 * b + 0x1_0000 * c + 0x100_0000 * d
  }

  lemma DecodeEncode(n: nat)
    requires n < 0x1_0000_0000
    ensures Decode(Encode(n)) == n
  {
    var a, b := n / 0x100, n / 0x1_0000;
    assert b == a / 0x100;
    assert n / 0x100_0000 == b / 0x100;
  }

  /** Entry `i` of an indirect block. */
  function EntryOf(b: Block, i: nat): nat
    requires i < NENTRY
  {
    Decode(b[4 * i..4 * i + 4])
  }

  function PutEntry(b: Block, i: nat, n: nat): Block
    requires i < NENTRY
  {
    Patch(b, 4 * i, Encode(n))
  }

  /** Writing one entry leaves the others alone. */
  lemma EntryPut(b: Block, i: nat, n: nat, j: nat)
    requires i < NENTRY && j < NENTRY && n < 0x1_0000_0000
    ensures EntryOf(PutEntry(b, i, n), j) == if j == i then n else EntryOf(b, j)
  {
    var r := PutEntry(b, i, n);
    if j == i {
      assert r[4 * i..4 * i + 4] == Encode(n);
      DecodeEncode(n);
    } else {
      assert r[4 * j..4 * j + 4] == b[4 * j..4 * j + 4];
    }
  }

  lemma EntryZeros(i: nat)
    requires i < NENTRY
    ensures EntryOf(Zeros(), i) == 0
  {
    assert Zeros()[4 * i..4 * i + 4] == [0, 0, 0, 0];
  }
}
