/** Who owns each disk block: the invariant between the free bit map, the inodes and
    the indirect blocks, and the changes that keep it. */
module FsOwn {
  import opened Blocks
  import opened Wal
  import opened FsImage

  /** An inode's block table: its direct blocks, its indirect block, and the blocks
      that the indirect block lists. */
  const INDIRECT := NDIRECT
  const NSLOTS := NDIRECT + 1 + NINDIRECT

  datatype Owner = NoOne | Slot(i: nat, s: nat)

  ghost predicate Sizes(dev: Disk, sb: Super, node: seq<Dinode>, tab: seq<seq<Uint>>, owner: seq<Owner>) {
    && Fits(dev, sb) && |node| == |tab| == sb.ninodes && |owner| == sb.size
    && forall i :: 0 <= i < |node| ==> |node[i].addrs| == NDIRECT + 1 && |tab[i]| == NSLOTS
  }

  /** t is the block table of the inode d. */
  ghost predicate InodeTab(dev: Disk, d: Dinode, t: seq<Uint>)
    requires |d.addrs| == NDIRECT + 1 && |t| == NSLOTS
  {
    && (forall s :: 0 <= s <= INDIRECT ==> t[s] == d.addrs[s])
    && (t[INDIRECT] == 0 ==> forall s :: INDIRECT < s < NSLOTS ==> t[s] == 0)
    && (t[INDIRECT] != 0 ==> t[INDIRECT] < |dev| && Listed(dev[t[INDIRECT]], t))
  }

  ghost predicate Listed(blk: Block, t: seq<Uint>)
    requires |t| == NSLOTS
  {
    forall j :: 0 <= j < NINDIRECT ==> GetUint(blk, j) == t[INDIRECT + 1 + j]
  }

  ghost predicate Tabs(dev: Disk, node: seq<Dinode>, tab: seq<seq<Uint>>, but: int)
    requires |node| == |tab|
    requires forall i :: 0 <= i < |node| ==> |node[i].addrs| == NDIRECT + 1 && |tab[i]| == NSLOTS
  {
    forall i :: 0 <= i < |node| && i != but ==> InodeTab(dev, node[i], tab[i])
  }

  /** No block has two owners, and owned blocks are data blocks. */
  ghost predicate Owns(tab: seq<seq<Uint>>, owner: seq<Owner>, sb: Super)
    requires forall i :: 0 <= i < |tab| ==> |tab[i]| == NSLOTS
  {
    && (forall i, s :: 0 <= i < |tab| && 0 <= s < NSLOTS && tab[i][s] != 0 ==>
          sb.nmeta <= tab[i][s] < |owner| && owner[tab[i][s]] == Slot(i, s))
    && forall b :: 0 <= b < |owner| && owner[b].Slot? ==>
         owner[b].i < |tab| && owner[b].s < NSLOTS && tab[owner[b].i][owner[b].s] == b && b >= sb.nmeta
  }

  /** The bits set are those of the metadata, of the owned blocks, and of block x if it
      has just been allocated. */
  ghost predicate Bits(dev: Disk, sb: Super, owner: seq<Owner>, x: int)
    requires Fits(dev, sb) && |owner| == sb.size
  {
    && (x >= 0 ==> sb.nmeta <= x < sb.size && owner[x] == NoOne)
    && forall b :: 0 <= b < sb.size ==> BitOf(dev, sb, b) == (b < sb.nmeta || owner[b] != NoOne || b == x)
  }

  ghost predicate Synced(dev: Disk, sb: Super, node: seq<Dinode>, but: int)
    requires Fits(dev, sb) && |node| == sb.ninodes
  {
    forall i :: 0 <= i < |node| && i != but ==> DiskNode(dev, sb, i) == node[i]
  }

  /** The file-system invariant; inode `unsynced` may differ from its disk copy, and
      block x may be allocated without an owner. */
  ghost predicate FsOk(dev: Disk, sb: Super, node: seq<Dinode>, tab: seq<seq<Uint>>, owner: seq<Owner>, unsynced: int,
                       x: int) {
    && Sizes(dev, sb, node, tab, owner) && Tabs(dev, node, tab, -1) && Owns(tab, owner, sb)
    && Bits(dev, sb, owner, x) && Synced(dev, sb, node, unsynced)
  }

  /** Where an inode's block table holds its bn-th data block. */
  function DataSlot(bn: nat): nat {
    if bn < NDIRECT then bn else bn + 1
  }

  function PutTab(tab: seq<seq<Uint>>, i: nat, s: nat, b: Uint): seq<seq<Uint>>
    requires i < |tab| && s < |tab[i]|
  {
    var t: seq<Uint> := tab[i][s := b];
    tab[i := t]
  }

  // ----- frames

  lemma SameMeta(dev: Disk, dev': Disk, sb: Super)
    requires Fits(dev, sb) && |dev'| == |dev| && forall b :: 0 <= b < sb.nmeta ==> dev'[b] == dev[b]
    ensures forall b :: 0 <= b < sb.size ==> BitOf(dev', sb, b) == BitOf(dev, sb, b)
    ensures forall i :: 0 <= i < sb.ninodes ==> DiskNode(dev', sb, i) == DiskNode(dev, sb, i)
  {
  }

  lemma SameTabs(dev: Disk, dev': Disk, sb: Super, node: seq<Dinode>, tab: seq<seq<Uint>>, owner: seq<Owner>, but: int)
    requires Sizes(dev, sb, node, tab, owner) && Tabs(dev, node, tab, but) && Owns(tab, owner, sb) && |dev'| == |dev|
    requires forall b :: 0 <= b < |dev| && owner[b].Slot? && owner[b].s == INDIRECT && owner[b].i != but ==>
               dev'[b] == dev[b]
    ensures Tabs(dev', node, tab, but)
  {
  }

  /** Writing a block that is no metadata and no indirect block keeps the invariant. */
  lemma DataWrite(dev: Disk, sb: Super, node: seq<Dinode>, tab: seq<seq<Uint>>, owner: seq<Owner>, e: int, x: int,
                  b: nat, blk: Block)
    requires FsOk(dev, sb, node, tab, owner, e, x) && sb.nmeta <= b < |dev|
    requires owner[b].Slot? ==> owner[b].s != INDIRECT
    ensures FsOk(dev[b := blk], sb, node, tab, owner, e, x)
  {
    hide BitOf, DiskNode, InodeTab, Owns;
    SameMeta(dev, dev[b := blk], sb);
    SameTabs(dev, dev[b := blk], sb, node, tab, owner, -1);
  }

  // ----- the bit map

  /** A write to a block of the bit map changes bits only. */
  lemma BitWrite(dev: Disk, sb: Super, node: seq<Dinode>, tab: seq<seq<Uint>>, owner: seq<Owner>, e: int, f: int,
                 b: nat, v: bool)
    requires Sizes(dev, sb, node, tab, owner) && Tabs(dev, node, tab, f) && Owns(tab, owner, sb)
    requires Synced(dev, sb, node, e)
    requires b < sb.size
    ensures b / BPB + sb.bmapstart < sb.nmeta
    ensures
      var dev' := dev[b / BPB + sb.bmapstart := WithBit(dev[b / BPB + sb.bmapstart], b, v)];
      && Tabs(dev', node, tab, f) && Synced(dev', sb, node, e)
      && forall c :: 0 <= c < sb.size ==> BitOf(dev', sb, c) == if c == b then v else BitOf(dev, sb, c)
  {
    hide BitOf, WithBit, InodeTab, GetUints, Decode;
    BitmapBlock(sb, b);
    var k := b / BPB + sb.bmapstart;
    var dev' := dev[k := WithBit(dev[k], b, v)];
    forall c | 0 <= c < sb.size ensures BitOf(dev', sb, c) == if c == b then v else BitOf(dev, sb, c) {
      WithBitAt(dev, sb, b, v, c);
    }
    SameTabs(dev, dev', sb, node, tab, owner, f);
    forall i | 0 <= i < |node| && i != e ensures DiskNode(dev', sb, i) == node[i] {
      InodeBlock(sb, i);
    }
  }

  lemma TakeBit(dev: Disk, sb: Super, node: seq<Dinode>, tab: seq<seq<Uint>>, owner: seq<Owner>, e: int, b: nat)
    requires FsOk(dev, sb, node, tab, owner, e, -1) && b < sb.size && !BitOf(dev, sb, b)
    ensures b / BPB + sb.bmapstart < sb.nmeta <= b && owner[b] == NoOne
    ensures
      var k := b / BPB + sb.bmapstart;
      FsOk(dev[k := WithBit(dev[k], b, true)], sb, node, tab, owner, e, b)
  {
    hide Tabs, Owns, Synced, BitOf, WithBit;
    BitWrite(dev, sb, node, tab, owner, e, -1, b, true);
  }

  // ----- ownership changes

  /** A loose block becomes the block of an empty slot. */
  lemma Give(tab: seq<seq<Uint>>, owner: seq<Owner>, sb: Super, i: nat, s: nat, b: Uint)
    requires (forall i :: 0 <= i < |tab| ==> |tab[i]| == NSLOTS) && Owns(tab, owner, sb)
    requires i < |tab| && s < NSLOTS && tab[i][s] == 0 && 0 < sb.nmeta <= b < |owner| && owner[b] == NoOne
    ensures Owns(PutTab(tab, i, s, b), owner[b := Slot(i, s)], sb)
  {
  }

  /** A slot gives its block up. */
  lemma TakeBack(tab: seq<seq<Uint>>, owner: seq<Owner>, sb: Super, i: nat, s: nat)
    requires (forall i :: 0 <= i < |tab| ==> |tab[i]| == NSLOTS) && Owns(tab, owner, sb)
    requires i < |tab| && s < NSLOTS && tab[i][s] != 0
    ensures tab[i][s] < |owner|
    ensures Owns(PutTab(tab, i, s, 0), owner[tab[i][s] := NoOne], sb)
  {
  }

  /** bmap() stores a new block in addrs, direct or indirect. */
  lemma AttachDirect(dev: Disk, sb: Super, node: seq<Dinode>, tab: seq<seq<Uint>>, owner: seq<Owner>, i: nat, s: nat,
                     b: Uint)
    requires FsOk(dev, sb, node, tab, owner, i, b) && i < |node| && s <= INDIRECT && node[i].addrs[s] == 0
    requires s == INDIRECT ==> dev[b] == ZeroBlock()
    ensures
      var d := node[i].(addrs := node[i].addrs[s := b]);
      FsOk(dev, sb, node[i := d], PutTab(tab, i, s, b), owner[b := Slot(i, s)], i, -1)
  {
    hide BitOf, DiskNode, Owns, Listed;
    assert InodeTab(dev, node[i], tab[i]);
    Give(tab, owner, sb, i, s, b);
    var d := node[i].(addrs := node[i].addrs[s := b]);
    TabAfterDirect(dev, node[i], tab[i], s, b);
    forall j | 0 <= j < |node| && j != i ensures InodeTab(dev, node[i := d][j], PutTab(tab, i, s, b)[j]) {
      assert InodeTab(dev, node[j], tab[j]);
    }
  }

  lemma TabAfterDirect(dev: Disk, d: Dinode, t: seq<Uint>, s: nat, b: Uint)
    requires |d.addrs| == NDIRECT + 1 && |t| == NSLOTS && InodeTab(dev, d, t) && s <= INDIRECT && d.addrs[s] == 0
    requires 0 < b < |dev| && (s == INDIRECT ==> dev[b] == ZeroBlock())
    ensures InodeTab(dev, d.(addrs := d.addrs[s := b]), t[s := b])
  {
  }

  /** bmap() stores a new block in the indirect block. */
  lemma AttachIndirect(dev: Disk, sb: Super, node: seq<Dinode>, tab: seq<seq<Uint>>, owner: seq<Owner>, i: nat, j: nat,
                       b: Uint)
    requires FsOk(dev, sb, node, tab, owner, i, b) && i < |node| && j < NINDIRECT
    requires tab[i][INDIRECT] != 0 && tab[i][INDIRECT + 1 + j] == 0
    ensures tab[i][INDIRECT] < |dev|
    ensures
      var k := tab[i][INDIRECT];
      FsOk(dev[k := PutUint(dev[k], j, b)], sb, node, PutTab(tab, i, INDIRECT + 1 + j, b),
           owner[b := Slot(i, INDIRECT + 1 + j)], i, -1)
  {
    hide BitOf, DiskNode, Owns, Listed, GetUint, PutUint;
    assert InodeTab(dev, node[i], tab[i]);
    var k := tab[i][INDIRECT];
    KindOf(tab, owner, sb, i, INDIRECT);
    var dev', tab' := dev[k := PutUint(dev[k], j, b)], PutTab(tab, i, INDIRECT + 1 + j, b);
    SameMeta(dev, dev', sb);
    Give(tab, owner, sb, i, INDIRECT + 1 + j, b);
    ListedAfter(dev[k], tab[i], j, b);
    SameTabs(dev, dev', sb, node, tab, owner, i);
    forall m | 0 <= m < |node| && m != i ensures InodeTab(dev', node[m], tab'[m]) {
      assert InodeTab(dev', node[m], tab[m]);
    }
    assert InodeTab(dev', node[i], tab'[i]);
  }

  lemma KindOf(tab: seq<seq<Uint>>, owner: seq<Owner>, sb: Super, i: nat, s: nat)
    requires (forall i :: 0 <= i < |tab| ==> |tab[i]| == NSLOTS) && Owns(tab, owner, sb)
    requires i < |tab| && s < NSLOTS && tab[i][s] != 0
    ensures sb.nmeta <= tab[i][s] < |owner| && owner[tab[i][s]] == Slot(i, s)
    ensures forall b :: 0 <= b < |owner| && owner[b] == Slot(i, s) ==> b == tab[i][s]
  {
  }

  lemma ListedAfter(blk: Block, t: seq<Uint>, j: nat, b: Uint)
    requires |t| == NSLOTS && Listed(blk, t) && j < NINDIRECT
    ensures Listed(PutUint(blk, j, b), t[INDIRECT + 1 + j := b])
  {
    hide GetUint, PutUint;
    forall m | 0 <= m < NINDIRECT ensures GetUint(PutUint(blk, j, b), m) == t[INDIRECT + 1 + j := b][INDIRECT + 1 + m] {
      GetPut(blk, j, b, m);
    }
  }

  // ----- freeing

  /** The block of a slot is freed while its inode i is being emptied. */
  lemma Drop(dev: Disk, sb: Super, node: seq<Dinode>, tab: seq<seq<Uint>>, owner: seq<Owner>, i: nat, s: nat)
    requires Sizes(dev, sb, node, tab, owner) && Tabs(dev, node, tab, i) && Owns(tab, owner, sb)
    requires Bits(dev, sb, owner, -1) && Synced(dev, sb, node, i)
    requires i < |node| && s < NSLOTS && tab[i][s] != 0
    ensures sb.nmeta <= tab[i][s] < sb.size && BitOf(dev, sb, tab[i][s])
    ensures
      var b := tab[i][s];
      var k := b / BPB + sb.bmapstart;
      && k < sb.nmeta
      && var dev', tab', owner' := dev[k := WithBit(dev[k], b, false)], PutTab(tab, i, s, 0), owner[b := NoOne];
      && Sizes(dev', sb, node, tab', owner') && Tabs(dev', node, tab', i) && Owns(tab', owner', sb)
      && Bits(dev', sb, owner', -1) && Synced(dev', sb, node, i)
  {
    hide InodeTab, BitOf, WithBit, DiskNode, Owns;
    KindOf(tab, owner, sb, i, s);
    BitWrite(dev, sb, node, tab, owner, i, i, tab[i][s], false);
    TakeBack(tab, owner, sb, i, s);
  }

  /** An inode whose table is empty is in order again. */
  lemma Emptied(dev: Disk, sb: Super, node: seq<Dinode>, tab: seq<seq<Uint>>, owner: seq<Owner>, i: nat)
    requires Sizes(dev, sb, node, tab, owner) && Tabs(dev, node, tab, i) && i < |node|
    requires forall s :: 0 <= s < NSLOTS ==> tab[i][s] == 0
    requires forall s :: 0 <= s <= INDIRECT ==> node[i].addrs[s] == 0
    ensures Tabs(dev, node, tab, -1)
  {
  }

  /** iupdate() brings the disk copy up to date. */
  lemma Updated(dev: Disk, sb: Super, node: seq<Dinode>, tab: seq<seq<Uint>>, owner: seq<Owner>, i: nat)
    requires FsOk(dev, sb, node, tab, owner, i, -1) && i < |node|
    ensures i / IPB + sb.inodestart < sb.bmapstart
    ensures
      var k := i / IPB + sb.inodestart;
      FsOk(dev[k := PutUints(dev[k], 16 * (i % IPB), Encode(node[i]))], sb, node, tab, owner, -1, -1)
  {
    hide InodeTab, BitOf, DiskNode, PutUints, Encode;
    InodeBlock(sb, i);
    var k := i / IPB + sb.inodestart;
    DecodeEncode(node[i]);
    var dev' := dev[k := PutUints(dev[k], 16 * (i % IPB), Encode(node[i]))];
    SameTabs(dev, dev', sb, node, tab, owner, -1);
    forall j | 0 <= j < |node| ensures DiskNode(dev', sb, j) == node[j] {
      PutNodeAt(dev, sb, i, node[i], j);
    }
    forall b | 0 <= b < sb.size ensures BitOf(dev', sb, b) == BitOf(dev, sb, b) {
      OtherBits(dev, sb, k, dev'[k], b);
    }
  }

  lemma OtherBits(dev: Disk, sb: Super, k: nat, blk: Block, b: nat)
    requires Fits(dev, sb) && k < sb.bmapstart && b < sb.size
    ensures BitOf(dev[k := blk], sb, b) == BitOf(dev, sb, b)
  {
  }

  /** The bits set are exactly the metadata and what the inodes reach; a block is reached
      from one slot only. */
  lemma BitIffReachable(dev: Disk, sb: Super, node: seq<Dinode>, tab: seq<seq<Uint>>, owner: seq<Owner>, b: nat)
    requires FsOk(dev, sb, node, tab, owner, -1, -1) && b < sb.size
    ensures BitOf(dev, sb, b) <==>
              b < sb.nmeta || exists i, s :: 0 <= i < |tab| && 0 <= s < NSLOTS && tab[i][s] == b != 0
    ensures forall i, s, j, r ::
              0 <= i < |tab| && 0 <= s < NSLOTS && 0 <= j < |tab| && 0 <= r < NSLOTS && tab[i][s] == tab[j][r] != 0 ==>
              i == j && s == r && tab[i][s] >= sb.nmeta
  {
  }
}
