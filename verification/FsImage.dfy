/** The on-disk format of fs.h: the free bit map and the inode blocks. */
module FsImage {
  import opened Blocks
  import opened Wal

  const BPB := 4096
  const IPB := 8
  const NDIRECT := 12
  const NINDIRECT := 128
  const MAXFILE := 140

  type Ushort = x: int | 0 <= x < 65536

  datatype Super = Super(size: nat, ninodes: nat, inodestart: nat, bmapstart: nat, nmeta: nat)

  /** The regions that mkfs lays out one after the other. */
  ghost predicate SuperOk(sb: Super) {
    && sb.inodestart >= 2 && sb.inodestart + sb.ninodes / IPB + 1 <= sb.bmapstart
    && sb.bmapstart + sb.size / BPB + 1 <= sb.nmeta <= sb.size < 0x1_0000_0000
  }

  // ----- bits

  function Pow2(n: nat): nat {
    if n == 0 then 1 else 2 * Pow2(n - 1)
  }

  /** x & (1 << k) is not zero. */
  predicate TestBit(x: nat, k: nat) {
    if k == 0 then x % 2 == 1 else TestBit(x / 2, k - 1)
  }

  /** x | (1 << k) if v, else x & ~(1 << k), on integers of n bits. */
  function PutBit(x: nat, k: nat, v: bool, n: nat): (r: nat)
    requires k < n && x < Pow2(n)
    ensures r < Pow2(n)
    decreases k
  {
    assert Pow2(n) == 2 * Pow2(n - 1);
    if k == 0 then x / 2 * 2 + if v then 1 else 0 else PutBit(x / 2, k - 1, v, n - 1) * 2 + x % 2
  }

  lemma {:induction false} PutBitAt(x: nat, k: nat, v: bool, n: nat, j: nat)
    requires k < n && j < n && x < Pow2(n)
    ensures TestBit(PutBit(x, k, v, n), j) == if j == k then v else TestBit(x, j)
  {
    var y := PutBit(x, k, v, n);
    if k > 0 {
      assert y / 2 == PutBit(x / 2, k - 1, v, n - 1) && y % 2 == x % 2;
      if j > 0 {
        PutBitAt(x / 2, k - 1, v, n - 1, j - 1);
      }
    } else {
      assert y / 2 == x / 2;
    }
  }

  lemma Pow2Of8()
    ensures Pow2(8) == 256
  {
  }

  ghost predicate Fits(dev: Disk, sb: Super) {
    SuperOk(sb) && |dev| == sb.size
  }

  lemma BitmapBlock(sb: Super, b: nat)
    requires SuperOk(sb) && b < sb.size
    ensures sb.bmapstart <= b / BPB + sb.bmapstart < sb.nmeta
  {
  }

  /** Block b's bit in the free map. */
  ghost predicate BitOf(dev: Disk, sb: Super, b: nat)
    requires Fits(dev, sb) && b < sb.size
  {
    BitmapBlock(sb, b);
    TestBit(dev[b / BPB + sb.bmapstart][b % BPB / 8], b % 8)
  }

  function WithBit(blk: Block, b: nat, v: bool): Block {
    Pow2Of8();
    blk[b % BPB / 8 := PutBit(blk[b % BPB / 8], b % 8, v, 8)]
  }

  lemma WithBitAt(dev: Disk, sb: Super, b: nat, v: bool, c: nat)
    requires Fits(dev, sb) && b < sb.size && c < sb.size
    ensures b / BPB + sb.bmapstart < sb.nmeta
    ensures BitOf(dev[b / BPB + sb.bmapstart := WithBit(dev[b / BPB + sb.bmapstart], b, v)], sb, c) ==
              if c == b then v else BitOf(dev, sb, c)
  {
    hide TestBit, PutBit, Pow2;
    Pow2Of8();
    BitmapBlock(sb, b);
    BitmapBlock(sb, c);
    if c / BPB == b / BPB && c % BPB / 8 == b % BPB / 8 {
      PutBitAt(dev[b / BPB + sb.bmapstart][b % BPB / 8], b % 8, v, 8, c % 8);
      if c % 8 == b % 8 {
        assert c % BPB == 8 * (c % BPB / 8) + c % 8 && b % BPB == 8 * (b % BPB / 8) + b % 8;
        assert c == b;
      }
    }
  }

  // ----- inodes

  datatype Dinode = Dinode(kind: Ushort, major: Ushort, minor: Ushort, nlink: Ushort, size: Uint, addrs: seq<Uint>)

  function Encode(d: Dinode): seq<Uint> {
    [d.kind + 65536 * d.major, d.minor + 65536 * d.nlink, d.size] + d.addrs
  }

  function Decode(w: seq<Uint>): Dinode
    requires |w| == 16
  {
    Dinode(w[0] % 65536, w[0] / 65536, w[1] % 65536, w[1] / 65536, w[2], w[3..])
  }

  lemma DecodeEncode(d: Dinode)
    requires |d.addrs| == NDIRECT + 1
    ensures |Encode(d)| == 16 && Decode(Encode(d)) == d
  {
  }

  lemma InodeBlock(sb: Super, inum: nat)
    requires SuperOk(sb) && inum < sb.ninodes
    ensures sb.inodestart <= inum / IPB + sb.inodestart < sb.bmapstart
  {
  }

  /** The inode as it is on the disk. */
  ghost function DiskNode(dev: Disk, sb: Super, inum: nat): (d: Dinode)
    requires Fits(dev, sb) && inum < sb.ninodes
    ensures |d.addrs| == NDIRECT + 1
  {
    InodeBlock(sb, inum);
    Decode(GetUints(dev[inum / IPB + sb.inodestart], 16 * (inum % IPB), 16))
  }

  lemma SameUints(a: Block, b: Block, k: nat, n: nat)
    requires k + n <= UINTS && forall i :: k <= i < k + n ==> GetUint(a, i) == GetUint(b, i)
    ensures GetUints(a, k, n) == GetUints(b, k, n)
  {
  }

  lemma PutThenGet(a: Block, k: nat, us: seq<Uint>)
    requires k + |us| <= UINTS
    ensures GetUints(PutUints(a, k, us), k, |us|) == us
  {
    forall i | 0 <= i < |us| ensures GetUints(PutUints(a, k, us), k, |us|)[i] == us[i] {
      GetUintsAt(PutUints(a, k, us), k, |us|, i);
      GetPutUints(a, k, us, k + i);
    }
  }

  lemma PutElsewhere(a: Block, k: nat, us: seq<Uint>, j: nat, n: nat)
    requires k + |us| <= UINTS && j + n <= UINTS && (j + n <= k || k + |us| <= j)
    ensures GetUints(PutUints(a, k, us), j, n) == GetUints(a, j, n)
  {
    hide PutUints, GetUint, GetUints;
    forall i | j <= i < j + n ensures GetUint(PutUints(a, k, us), i) == GetUint(a, i) {
      GetPutUints(a, k, us, i);
    }
    SameUints(PutUints(a, k, us), a, j, n);
  }

  /** iupdate() changes one inode on the disk and no other. */
  lemma PutNodeAt(dev: Disk, sb: Super, inum: nat, d: Dinode, j: nat)
    requires Fits(dev, sb) && inum < sb.ninodes && j < sb.ninodes && |d.addrs| == NDIRECT + 1
    ensures inum / IPB + sb.inodestart < sb.bmapstart
    ensures
      var k := inum / IPB + sb.inodestart;
      DiskNode(dev[k := PutUints(dev[k], 16 * (inum % IPB), Encode(d))], sb, j)
            == if j == inum then d else DiskNode(dev, sb, j)
  {
    hide PutUints, GetUints, Encode, Decode;
    InodeBlock(sb, inum);
    InodeBlock(sb, j);
    DecodeEncode(d);
    var blk := dev[inum / IPB + sb.inodestart];
    if j == inum {
      PutThenGet(blk, 16 * (inum % IPB), Encode(d));
    } else if j / IPB == inum / IPB {
      PutElsewhere(blk, 16 * (inum % IPB), Encode(d), 16 * (j % IPB), 16);
    }
  }
}
