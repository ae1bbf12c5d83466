/** Block allocation and inode contents, fs.c. The blocks are as bread() returns them;
    a panic is a false result. */
module Fs {
  import opened Blocks
  import opened Wal
  import opened FsImage
  import opened FsOwn

  /** Slots of inode i were filled; no other inode and no data block changed. */
  ghost predicate Grew(dev: Disk, tab: seq<seq<Uint>>, owner: seq<Owner>, dev': Disk, tab': seq<seq<Uint>>,
                       owner': seq<Owner>, i: nat) {
    && |dev'| == |dev| == |owner| == |owner'| && |tab| == |tab'|
    && (forall j :: 0 <= j < |tab| && j != i ==> tab'[j] == tab[j])
    && (i < |tab| ==>
          && |tab'[i]| == |tab[i]|
          && forall s :: 0 <= s < |tab[i]| && tab[i][s] != 0 ==> tab'[i][s] == tab[i][s])
    && forall b :: 0 <= b < |dev| && owner[b].Slot? ==>
         owner'[b] == owner[b] && (owner[b] != Slot(i, INDIRECT) ==> dev'[b] == dev[b])
  }

  ghost predicate OnlyAddrs(node: seq<Dinode>, node': seq<Dinode>, i: nat) {
    i < |node| == |node'| && node' == node[i := node[i].(addrs := node'[i].addrs)]
  }

  ghost predicate Full(dev: Disk, sb: Super) {
    Fits(dev, sb) && forall b :: 0 <= b < sb.size ==> BitOf(dev, sb, b)
  }

  /** The blocks before the bit map, inodes included, did not change. */
  ghost predicate SameInodes(dev: Disk, dev': Disk, sb: Super) {
    |dev'| == |dev| && forall b :: 0 <= b < sb.bmapstart && b < |dev| ==> dev'[b] == dev[b]
  }

  ghost predicate IsBitmap(sb: Super, b: nat) {
    sb.bmapstart <= b <= sb.bmapstart + sb.size / BPB
  }

  lemma NewBlockGrew(dev: Disk, tab: seq<seq<Uint>>, owner: seq<Owner>, dev': Disk, i: nat, s: nat, b: Uint, sb: Super)
    requires (forall i :: 0 <= i < |tab| ==> |tab[i]| == NSLOTS) && Owns(tab, owner, sb) && |dev'| == |dev| == |owner|
    requires i < |tab| && s < NSLOTS && tab[i][s] == 0 && b < |owner| && owner[b] == NoOne
    requires forall c :: 0 <= c < |dev| && c >= sb.nmeta && c != b && owner[c] != Slot(i, INDIRECT) ==>
               dev'[c] == dev[c]
    ensures Grew(dev, tab, owner, dev', PutTab(tab, i, s, b), owner[b := Slot(i, s)], i)
  {
  }

  class Fs {
    const sb: Super
    var dev: Disk
    var node: seq<Dinode>              // the inodes in memory
    ghost var tab: seq<seq<Uint>>      // their block tables
    ghost var owner: seq<Owner>
    ghost var logged: set<nat>         // blocks passed to log_write() in this operation

    ghost predicate Ok(unsynced: int, x: int)
      reads this
    {
      FsOk(dev, sb, node, tab, owner, unsynced, x)
    }

    ghost predicate Valid()
      reads this
    {
      Ok(-1, -1)
    }

    /** A disk in order, with every inode read in. */
    constructor (sb: Super, dev: Disk, node: seq<Dinode>, ghost tab: seq<seq<Uint>>, ghost owner: seq<Owner>)
      requires FsOk(dev, sb, node, tab, owner, -1, -1)
      ensures Valid() && this.sb == sb && this.dev == dev && this.node == node && this.tab == tab && this.owner == owner
      ensures logged == {}
    {
      this.sb, this.dev, this.node := sb, dev, node;
      this.tab, this.owner, logged := tab, owner, {};
    }

    /** balloc()'s marking and zeroing of the free block b. */
    method Claim(ghost e: int, b: nat)
      requires Ok(e, -1) && b < sb.size && !BitOf(dev, sb, b)
      modifies this`dev, this`logged
      ensures 0 < sb.nmeta <= b && Ok(e, b) && owner[b] == NoOne && dev[b] == ZeroBlock()
      ensures forall c :: 0 <= c < |dev| && c >= sb.nmeta && c != b ==> dev[c] == old(dev)[c]
      ensures SameInodes(old(dev), dev, sb) && logged == old(logged) + {b / BPB + sb.bmapstart, b}
    {
      hide Tabs, Owns, Bits, Synced, BitOf, WithBit;
      TakeBit(dev, sb, node, tab, owner, e, b);
      dev := dev[b / BPB + sb.bmapstart := WithBit(dev[b / BPB + sb.bmapstart], b, true)];
      DataWrite(dev, sb, node, tab, owner, e, b, b, ZeroBlock());
      dev := dev[b := ZeroBlock()];
      logged := logged + {b / BPB + sb.bmapstart, b};
    }

    /** balloc(): the first free block, zeroed. */
    method Balloc(ghost e: int) returns (ok: bool, b: Uint)
      requires Ok(e, -1)
      modifies this`dev, this`logged
      ensures !ok ==> dev == old(dev) && Full(dev, sb)
      ensures ok ==>
                && b < sb.size && !BitOf(old(dev), sb, b) && (forall c :: 0 <= c < b ==> BitOf(old(dev), sb, c))
                && 0 < sb.nmeta <= b && Ok(e, b) && owner[b] == NoOne && dev[b] == ZeroBlock()
                && (forall c :: 0 <= c < |dev| && c >= sb.nmeta && c != b ==> dev[c] == old(dev)[c])
                && SameInodes(old(dev), dev, sb)
                && IsBitmap(sb, b / BPB + sb.bmapstart) && logged == old(logged) + {b / BPB + sb.bmapstart, b}
    {
      hide Tabs, Owns, Bits, Synced, BitOf, WithBit;
      var c := 0;
      while c < sb.size
        invariant c % BPB == 0 && dev == old(dev) && logged == old(logged) && Ok(e, -1)
        invariant forall d :: 0 <= d < c && d < sb.size ==> BitOf(dev, sb, d)
      {
        var bi := 0;
        while bi < BPB && c + bi < sb.size
          invariant 0 <= bi <= BPB && dev == old(dev) && logged == old(logged) && Ok(e, -1)
          invariant forall d :: 0 <= d < c + bi && d < sb.size ==> BitOf(dev, sb, d)
        {
          BitAt(dev, sb, c, bi);
          var blk := dev[c / BPB + sb.bmapstart];
          if !TestBit(blk[bi / 8], bi % 8) {
            Claim(e, c + bi);
            return true, c + bi;
          }
          bi := bi + 1;
        }
        c := c + BPB;
      }
      return false, 0;
    }

    /** bfree(): false is the panic on a block that is free already. */
    method Bfree(b: nat) returns (ok: bool)
      requires Fits(dev, sb) && b < sb.size
      modifies this`dev, this`logged
      ensures ok <==> BitOf(old(dev), sb, b)
      ensures b / BPB + sb.bmapstart < |old(dev)|
      ensures ok ==> dev == old(dev)[b / BPB + sb.bmapstart := WithBit(old(dev)[b / BPB + sb.bmapstart], b, false)]
      ensures !ok ==> dev == old(dev)
    {
      hide WithBit, PutBit, TestBit;
      BitmapBlock(sb, b);
      var blk := dev[b / BPB + sb.bmapstart];
      if !TestBit(blk[b % BPB / 8], b % BPB % 8) { return false; }
      dev := dev[b / BPB + sb.bmapstart := WithBit(blk, b, false)];
      logged := logged + {b / BPB + sb.bmapstart};
      return true;
    }

    method Iupdate(i: nat)
      requires Ok(i, -1) && i < |node|
      modifies this`dev, this`logged
      ensures Valid() && logged == old(logged) + {i / IPB + sb.inodestart}
      ensures forall c :: 0 <= c < |dev| && c >= sb.nmeta ==> dev[c] == old(dev)[c]
    {
      hide Tabs, Owns, Bits, Synced, PutUints, Encode;
      Updated(dev, sb, node, tab, owner, i);
      DecodeEncode(node[i]);
      dev := dev[i / IPB + sb.inodestart := PutUints(dev[i / IPB + sb.inodestart], 16 * (i % IPB), Encode(node[i]))];
      logged := logged + {i / IPB + sb.inodestart};
    }

    /** ip->addrs[s] = balloc(ip->dev), for a direct block or the indirect block. */
    method AllocAddr(i: nat, s: nat) returns (ok: bool, b: Uint)
      requires Ok(i, -1) && i < |node| && s <= INDIRECT && node[i].addrs[s] == 0
      modifies this
      ensures !ok ==> Full(dev, sb)
      ensures ok ==>
                && Ok(i, -1) && sb.nmeta <= b < |dev| && tab == PutTab(old(tab), i, s, b) && dev[b] == ZeroBlock()
                && Grew(old(dev), old(tab), old(owner), dev, tab, owner, i) && SameInodes(old(dev), dev, sb)
                && node == old(node)[i := old(node)[i].(addrs := old(node)[i].addrs[s := b])]
                && forall c :: c in logged ==> c in old(logged) || IsBitmap(sb, c) || c == b
    {
      hide Tabs, Owns, Bits, Synced, Grew, BitOf;
      SlotIsAddr(dev, node, tab, i, s);
      ok, b := Balloc(i);
      if !ok { return; }
      AttachDirect(dev, sb, node, tab, owner, i, s, b);
      NewBlockGrew(old(dev), tab, owner, dev, i, s, b, sb);
      node := node[i := node[i].(addrs := node[i].addrs[s := b])];
      tab, owner := PutTab(tab, i, s, b), owner[b := Slot(i, s)];
    }

    /** a[j] = balloc(ip->dev), a being the indirect block. */
    method AllocListed(i: nat, j: nat) returns (ok: bool, b: Uint)
      requires Ok(i, -1) && i < |node| && j < NINDIRECT && tab[i][INDIRECT] != 0 && tab[i][INDIRECT + 1 + j] == 0
      modifies this
      ensures !ok ==> Full(dev, sb)
      ensures ok ==>
                && Ok(i, -1) && sb.nmeta <= b < |dev| && tab == PutTab(old(tab), i, INDIRECT + 1 + j, b)
                && dev[b] == ZeroBlock()
                && Grew(old(dev), old(tab), old(owner), dev, tab, owner, i) && SameInodes(old(dev), dev, sb)
                && node == old(node)
                && forall c :: c in logged ==> c in old(logged) || IsBitmap(sb, c) || c == b || c == tab[i][INDIRECT]
    {
      hide Tabs, Owns, Bits, Synced, Grew, BitOf, PutUint, DiskNode, IsBitmap;
      SlotIsAddr(dev, node, tab, i, INDIRECT);
      ok, b := Balloc(i);
      if !ok { return; }
      var k := node[i].addrs[INDIRECT];
      KindOf(tab, owner, sb, i, INDIRECT);
      AttachIndirect(dev, sb, node, tab, owner, i, j, b);
      dev := dev[k := PutUint(dev[k], j, b)];
      logged := logged + {k};
      NewBlockGrew(old(dev), tab, owner, dev, i, INDIRECT + 1 + j, b, sb);
      tab, owner := PutTab(tab, i, INDIRECT + 1 + j, b), owner[b := Slot(i, INDIRECT + 1 + j)];
    }

    /** bmap(): the block of the bn-th data block, allocated if there is none. */
    method Bmap(i: nat, bn: nat) returns (ok: bool, addr: Uint)
      requires Ok(i, -1) && i < |node| && bn < MAXFILE
      modifies this
      ensures old(tab)[i][DataSlot(bn)] != 0 ==>
                && ok && dev == old(dev) && node == old(node) && tab == old(tab) && owner == old(owner)
                && logged == old(logged)
      ensures !ok ==> Full(dev, sb)
      ensures ok ==>
                && Ok(i, -1) && addr == tab[i][DataSlot(bn)] && sb.nmeta <= addr < |dev|
                && (old(tab)[i][DataSlot(bn)] == 0 ==> dev[addr] == ZeroBlock())
                && Grew(old(dev), old(tab), old(owner), dev, tab, owner, i) && OnlyAddrs(old(node), node, i)
                && SameInodes(old(dev), dev, sb)
                && (forall c :: c in logged ==>
                      c in old(logged) || IsBitmap(sb, c) || c == addr || c == tab[i][INDIRECT] != 0)
                && IsBlock(dev, node[i], bn, addr)
    {
      hide Tabs, Owns, Bits, Synced, Grew, BitOf, GetUint, IsBlock;
      GrewRefl(dev, tab, owner, i);
      if bn < NDIRECT {
        SlotIsAddr(dev, node, tab, i, bn);
        addr := node[i].addrs[bn];
        if addr == 0 {
          ok, addr := AllocAddr(i, bn);
          if ok {
            SlotIsBlock(dev, node, tab, i, bn);
          }
          return;
        }
        KindOf(tab, owner, sb, i, bn);
        SlotIsBlock(dev, node, tab, i, bn);
        return true, addr;
      }
      ok, addr := BmapIndirect(i, bn - NDIRECT);
      if ok {
        SlotIsBlock(dev, node, tab, i, bn);
      }
    }

    /** bmap() on a block that the indirect block lists. */
    method BmapIndirect(i: nat, j: nat) returns (ok: bool, addr: Uint)
      requires Ok(i, -1) && i < |node| && j < NINDIRECT
      modifies this
      ensures old(tab)[i][INDIRECT + 1 + j] != 0 ==>
                && ok && dev == old(dev) && node == old(node) && tab == old(tab) && owner == old(owner)
                && logged == old(logged)
      ensures !ok ==> Full(dev, sb)
      ensures ok ==>
                && Ok(i, -1) && addr == tab[i][INDIRECT + 1 + j] && sb.nmeta <= addr < |dev|
                && (old(tab)[i][INDIRECT + 1 + j] == 0 ==> dev[addr] == ZeroBlock())
                && Grew(old(dev), old(tab), old(owner), dev, tab, owner, i) && OnlyAddrs(old(node), node, i)
                && SameInodes(old(dev), dev, sb)
                && forall c :: c in logged ==>
                   c in old(logged) || IsBitmap(sb, c) || c == addr || c == tab[i][INDIRECT] != 0
    {
      hide Tabs, Owns, Bits, Synced, Grew, BitOf, GetUint;
      GrewRefl(dev, tab, owner, i);
      SlotIsAddr(dev, node, tab, i, INDIRECT);
      NoListWithoutBlock(dev, node, tab, i, j);
      addr := node[i].addrs[INDIRECT];
      if addr == 0 {
        ok, addr := AllocAddr(i, INDIRECT);
        if !ok { return; }
      }
      ghost var dev1, tab1, owner1 := dev, tab, owner;
      SlotIsListed(dev, node, tab, i, j);
      KindOf(tab, owner, sb, i, INDIRECT);
      addr := GetUint(dev[addr], j);
      if addr == 0 {
        ok, addr := AllocListed(i, j);
        if !ok { return; }
        GrewTrans(old(dev), old(tab), old(owner), dev1, tab1, owner1, dev, tab, owner, i);
      } else {
        KindOf(tab, owner, sb, i, INDIRECT + 1 + j);
      }
      return true, addr;
    }

    /** The invariant while inode i is being emptied. */
    ghost predicate Dropping(i: nat)
      reads this
    {
      && Sizes(dev, sb, node, tab, owner) && Tabs(dev, node, tab, i) && Owns(tab, owner, sb)
      && Bits(dev, sb, owner, -1) && Synced(dev, sb, node, i) && i < |node|
    }

    method DropSlot(i: nat, ghost s: nat, b: nat) returns (ok: bool)
      requires Dropping(i) && s < NSLOTS && tab[i][s] == b != 0
      modifies this
      ensures ok && Dropping(i) && node == old(node) && tab == PutTab(old(tab), i, s, 0)
      ensures forall c :: 0 <= c < |dev| && c >= sb.nmeta ==> dev[c] == old(dev)[c]
    {
      hide Tabs, Owns, Bits, Synced, BitOf, WithBit;
      Drop(dev, sb, node, tab, owner, i, s);
      ok := Bfree(b);
      tab, owner := PutTab(tab, i, s, 0), owner[b := NoOne];
    }

    /** itrunc()'s loop over the direct blocks. */
    method DropDirect(i: nat) returns (ok: bool)
      requires Dropping(i) && forall r :: 0 <= r <= INDIRECT ==> node[i].addrs[r] == tab[i][r]
      modifies this
      ensures ok && Dropping(i) && OnlyAddrs(old(node), node, i)
      ensures forall j :: 0 <= j < |tab| && j != i ==> tab[j] == old(tab)[j]
      ensures forall r :: 0 <= r < NSLOTS ==> tab[i][r] == if r < NDIRECT then 0 else old(tab)[i][r]
      ensures forall r :: 0 <= r <= INDIRECT ==> node[i].addrs[r] == tab[i][r]
      ensures forall c :: 0 <= c < |dev| && c >= sb.nmeta ==> dev[c] == old(dev)[c]
    {
      hide Tabs, Owns, Bits, Synced;
      var s := 0;
      ok := true;
      while s < NDIRECT
        invariant s <= NDIRECT && ok && Dropping(i) && OnlyAddrs(old(node), node, i) && |tab| == |old(tab)|
        invariant forall j :: 0 <= j < |tab| && j != i ==> tab[j] == old(tab)[j]
        invariant forall r :: 0 <= r < NSLOTS ==> tab[i][r] == if r < s then 0 else old(tab)[i][r]
        invariant forall r :: 0 <= r <= INDIRECT ==> node[i].addrs[r] == tab[i][r]
        invariant forall c :: 0 <= c < |dev| && c >= sb.nmeta ==> dev[c] == old(dev)[c]
      {
        if node[i].addrs[s] != 0 {
          ok := DropSlot(i, s, node[i].addrs[s]);
          SetLoose(i, node[i].(addrs := node[i].addrs[s := 0]));
        }
        s := s + 1;
      }
    }

    /** The inode being emptied may change in memory. */
    method SetLoose(i: nat, d: Dinode)
      requires Dropping(i) && |d.addrs| == NDIRECT + 1
      modifies this`node
      ensures Dropping(i) && node == old(node)[i := d]
    {
      hide Owns, Bits, InodeTab, DiskNode;
      node := node[i := d];
    }

    /** itrunc()'s loop over the blocks that the indirect block lists. */
    method DropListed(i: nat, blk: Block) returns (ok: bool)
      requires Dropping(i) && Listed(blk, tab[i])
      modifies this
      ensures ok && Dropping(i) && node == old(node)
      ensures forall j :: 0 <= j < |tab| && j != i ==> tab[j] == old(tab)[j]
      ensures forall r :: 0 <= r < NSLOTS ==> tab[i][r] == if r > INDIRECT then 0 else old(tab)[i][r]
      ensures forall c :: 0 <= c < |dev| && c >= sb.nmeta ==> dev[c] == old(dev)[c]
    {
      hide Tabs, Owns, Bits, Synced, GetUint;
      var j := 0;
      ok := true;
      while j < NINDIRECT
        invariant j <= NINDIRECT && ok && Dropping(i) && node == old(node) && |tab| == |old(tab)|
        invariant forall k :: 0 <= k < |tab| && k != i ==> tab[k] == old(tab)[k]
        invariant forall r :: 0 <= r < NSLOTS ==>
                    tab[i][r] == if INDIRECT < r <= INDIRECT + j then 0 else old(tab)[i][r]
        invariant forall c :: 0 <= c < |dev| && c >= sb.nmeta ==> dev[c] == old(dev)[c]
      {
        var b := GetUint(blk, j);
        assert b == old(tab)[i][INDIRECT + 1 + j];
        if b != 0 {
          ok := DropSlot(i, INDIRECT + 1 + j, b);
        }
        j := j + 1;
      }
    }

    /** itrunc(): every block of the inode is freed, and only once, or it would panic. */
    method Itrunc(i: nat) returns (ok: bool)
      requires Ok(i, -1) && i < |node|
      modifies this
      ensures ok && Valid()
      ensures node == old(node)[i := old(node)[i].(size := 0, addrs := node[i].addrs)]
      ensures forall s :: 0 <= s < NSLOTS ==> tab[i][s] == 0
      ensures forall j :: 0 <= j < |tab| && j != i ==> tab[j] == old(tab)[j]
      ensures forall b :: 0 <= b < |owner| ==>
                owner[b] == if old(owner)[b].Slot? && old(owner)[b].i == i then NoOne else old(owner)[b]
      ensures forall c :: 0 <= c < |dev| && c >= sb.nmeta ==> dev[c] == old(dev)[c]
    {
      hide Tabs, Owns, Bits, Synced, GetUint, Listed;
      Loosened(dev, node, tab, i);
      ok := DropDirect(i);
      if node[i].addrs[INDIRECT] != 0 {
        KindOf(tab, owner, sb, i, INDIRECT);
        ListedStill(dev[tab[i][INDIRECT]], old(tab)[i], tab[i]);
        ok := DropListed(i, dev[node[i].addrs[INDIRECT]]);
        ok := DropSlot(i, INDIRECT, node[i].addrs[INDIRECT]);
        SetLoose(i, node[i].(addrs := node[i].addrs[INDIRECT := 0]));
      }
      SetLoose(i, node[i].(size := 0));
      Emptied(dev, sb, node, tab, owner, i);
      OwnerByTab(old(tab), old(owner), tab, owner, sb, i);
      Iupdate(i);
    }
  }

  lemma Loosened(dev: Disk, node: seq<Dinode>, tab: seq<seq<Uint>>, i: nat)
    requires i < |node| == |tab|
    requires forall i :: 0 <= i < |node| ==> |node[i].addrs| == NDIRECT + 1 && |tab[i]| == NSLOTS
    requires Tabs(dev, node, tab, -1)
    ensures Tabs(dev, node, tab, i)
    ensures forall r :: 0 <= r <= INDIRECT ==> node[i].addrs[r] == tab[i][r]
    ensures tab[i][INDIRECT] == 0 ==> forall s :: INDIRECT < s < NSLOTS ==> tab[i][s] == 0
    ensures tab[i][INDIRECT] != 0 ==> tab[i][INDIRECT] < |dev| && Listed(dev[tab[i][INDIRECT]], tab[i])
  {
  }

  lemma ListedStill(blk: Block, t: seq<Uint>, t': seq<Uint>)
    requires |t| == |t'| == NSLOTS && Listed(blk, t) && forall s :: INDIRECT <= s < NSLOTS ==> t'[s] == t[s]
    ensures Listed(blk, t')
  {
  }

  /** The owners follow from the tables. */
  lemma OwnerByTab(tab: seq<seq<Uint>>, owner: seq<Owner>, tab': seq<seq<Uint>>, owner': seq<Owner>, sb: Super, i: nat)
    requires |tab'| == |tab| && |owner'| == |owner| && sb.nmeta > 0
    requires forall i :: 0 <= i < |tab| ==> |tab[i]| == |tab'[i]| == NSLOTS
    requires Owns(tab, owner, sb) && Owns(tab', owner', sb)
    requires i < |tab| && (forall s :: 0 <= s < NSLOTS ==> tab'[i][s] == 0)
    requires forall j :: 0 <= j < |tab| && j != i ==> tab'[j] == tab[j]
    ensures forall b :: 0 <= b < |owner| ==> owner'[b] == if owner[b].Slot? && owner[b].i == i then NoOne else owner[b]
  {
  }

  lemma GrewRefl(dev: Disk, tab: seq<seq<Uint>>, owner: seq<Owner>, i: nat)
    requires |dev| == |owner|
    ensures Grew(dev, tab, owner, dev, tab, owner, i)
  {
  }

  lemma GrewTrans(dev: Disk, tab: seq<seq<Uint>>, owner: seq<Owner>, dev1: Disk, tab1: seq<seq<Uint>>,
                  owner1: seq<Owner>,
                  dev2: Disk, tab2: seq<seq<Uint>>, owner2: seq<Owner>, i: nat)
    requires Grew(dev, tab, owner, dev1, tab1, owner1, i) && Grew(dev1, tab1, owner1, dev2, tab2, owner2, i)
    ensures Grew(dev, tab, owner, dev2, tab2, owner2, i)
  {
  }

  lemma SlotIsListed(dev: Disk, node: seq<Dinode>, tab: seq<seq<Uint>>, i: nat, j: nat)
    requires i < |node| == |tab| && j < NINDIRECT
    requires forall i :: 0 <= i < |node| ==> |node[i].addrs| == NDIRECT + 1 && |tab[i]| == NSLOTS
    requires Tabs(dev, node, tab, -1) && tab[i][INDIRECT] != 0
    ensures tab[i][INDIRECT] < |dev| && GetUint(dev[tab[i][INDIRECT]], j) == tab[i][INDIRECT + 1 + j]
  {
  }

  lemma NoListWithoutBlock(dev: Disk, node: seq<Dinode>, tab: seq<seq<Uint>>, i: nat, j: nat)
    requires i < |node| == |tab| && j < NINDIRECT
    requires forall i :: 0 <= i < |node| ==> |node[i].addrs| == NDIRECT + 1 && |tab[i]| == NSLOTS
    requires Tabs(dev, node, tab, -1)
    ensures tab[i][INDIRECT] == 0 ==> tab[i][INDIRECT + 1 + j] == 0
  {
  }

  /** Block bn of an inode as it is on disk: one of the 12 addresses, or entry bn - 12 of
      the indirect block. */
  ghost predicate IsBlock(dev: Disk, d: Dinode, bn: nat, b: Uint) {
    && |d.addrs| == 13 && bn < 140
    && if bn < 12 then b == d.addrs[bn]
       else d.addrs[12] != 0 && d.addrs[12] < |dev| && b == GetUint(dev[d.addrs[12]], bn - 12)
  }

  lemma SlotIsBlock(dev: Disk, node: seq<Dinode>, tab: seq<seq<Uint>>, i: nat, bn: nat)
    requires i < |node| == |tab| && bn < MAXFILE
    requires forall i :: 0 <= i < |node| ==> |node[i].addrs| == NDIRECT + 1 && |tab[i]| == NSLOTS
    requires Tabs(dev, node, tab, -1) && tab[i][DataSlot(bn)] != 0
    ensures IsBlock(dev, node[i], bn, tab[i][DataSlot(bn)])
  {
    hide Tabs, GetUint;
    if bn < NDIRECT {
      SlotIsAddr(dev, node, tab, i, bn);
    } else {
      NoListWithoutBlock(dev, node, tab, i, bn - NDIRECT);
      SlotIsListed(dev, node, tab, i, bn - NDIRECT);
      SlotIsAddr(dev, node, tab, i, INDIRECT);
    }
  }

  lemma SlotIsAddr(dev: Disk, node: seq<Dinode>, tab: seq<seq<Uint>>, i: nat, s: nat)
    requires i < |node| == |tab| && s <= INDIRECT
    requires forall i :: 0 <= i < |node| ==> |node[i].addrs| == NDIRECT + 1 && |tab[i]| == NSLOTS
    requires Tabs(dev, node, tab, -1)
    ensures tab[i][s] == node[i].addrs[s]
  {
  }

  lemma Within(c: nat, bi: nat)
    requires c % BPB == 0 && bi < BPB
    ensures (c + bi) / BPB == c / BPB && (c + bi) % BPB == bi && (c + bi) % 8 == bi % 8
  {
  }

  lemma BitAt(dev: Disk, sb: Super, c: nat, bi: nat)
    requires Fits(dev, sb) && c % BPB == 0 && bi < BPB && c + bi < sb.size
    ensures (c + bi) / BPB == c / BPB
    ensures c / BPB + sb.bmapstart < sb.nmeta && IsBitmap(sb, c / BPB + sb.bmapstart)
    ensures BitOf(dev, sb, c + bi) == TestBit(dev[c / BPB + sb.bmapstart][bi / 8], bi % 8)
  {
    hide TestBit;
    Within(c, bi);
    BitmapBlock(sb, c + bi);
  }
}
