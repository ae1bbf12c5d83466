/** mkfs.c: the image it builds is a file system in order. While it builds, the bit map
    is not written yet; the invariant is about the image with the map filled in. */
module Mkfs {
  import opened Blocks
  import opened Wal
  import opened FsImage
  import opened FsOwn
  import opened Fs
  import opened FsFile

  const FSSIZE := 1000
  const NINODES := 200
  const NLOG := 30
  const NINODEBLOCKS := NINODES / IPB + 1
  const NBITMAP := FSSIZE / BPB + 1
  const NMETA := 2 + NLOG + NINODEBLOCKS + NBITMAP

  function Layout(): Super {
    Super(FSSIZE, NINODES, 2 + NLOG, 2 + NLOG + NINODEBLOCKS, NMETA)
  }

  function SuperBlock(): Block {
    var sb := Layout();
    PutUints(ZeroBlock(), 0, [sb.size, FSSIZE - NMETA, sb.ninodes, NLOG, 2, sb.inodestart, sb.bmapstart])
  }

  function ZeroDisk(): (d: Disk)
    ensures |d| == FSSIZE && d[1] == SuperBlock() && forall b :: 0 <= b < FSSIZE && b != 1 ==> d[b] == ZeroBlock()
  {
    var first: Block := SuperBlock();
    seq(FSSIZE, b => if b == 1 then first else ZeroBlock())
  }

  /** The words of the super block: sizes of the disk, its data, inodes and log, and where
      the log, the inodes and the bit map start; the kernel's layout is the same. */
  ghost predicate SuperWords(dev: Disk) {
    && |dev| == 1000
    && GetUint(dev[1], 0) == 1000 && GetUint(dev[1], 1) == 941 && GetUint(dev[1], 2) == 200
    && GetUint(dev[1], 3) == 30 && GetUint(dev[1], 4) == 2 && GetUint(dev[1], 5) == 32 && GetUint(dev[1], 6) == 58
    && Layout() == Super(1000, 200, 32, 58, 59)
  }

  lemma SuperRead(dev: Disk)
    requires |dev| == FSSIZE && dev[1] == SuperBlock()
    ensures SuperWords(dev)
  {
    hide PutUints, GetUint;
    var sb := Layout();
    var us: seq<Uint> := [sb.size, FSSIZE - NMETA, sb.ninodes, NLOG, 2, sb.inodestart, sb.bmapstart];
    forall j | 0 <= j < 7 ensures GetUint(dev[1], j) == us[j] {
      GetPutUints(ZeroBlock(), 0, us, j);
    }
  }

  /** The bit map with the first n bits set. */
  function MapOf(n: nat): Block {
    if n == 0 then ZeroBlock() else WithBit(MapOf(n - 1), n - 1, true)
  }

  lemma ZeroBit(k: nat)
    ensures !TestBit(0, k)
  {
  }

  lemma {:induction false} MapBits(dev: Disk, sb: Super, n: nat, c: nat)
    requires Fits(dev, sb) && sb.size < BPB && n <= sb.size && c < sb.size && dev[sb.bmapstart] == MapOf(n)
    ensures BitOf(dev, sb, c) == (c < n)
    decreases n
  {
    hide WithBit, TestBit;
    BitmapBlock(sb, c);
    if n == 0 {
      ZeroBit(c % 8);
    } else {
      var dev1 := dev[sb.bmapstart := MapOf(n - 1)];
      MapBits(dev1, sb, n - 1, c);
      WithBitAt(dev1, sb, n - 1, true, c);
      assert dev1[sb.bmapstart := WithBit(MapOf(n - 1), n - 1, true)] == dev;
    }
  }

  /** Exactly the blocks below the size are there. */
  ghost predicate Exact(t: seq<Uint>, size: nat) {
    |t| == NSLOTS && forall bn :: 0 <= bn < MAXFILE ==> (t[DataSlot(bn)] != 0 <==> bn * BSIZE < size)
  }

  function Zeros(n: nat): (z: seq<Byte>)
    ensures |z| == n && forall k :: 0 <= k < n ==> z[k] == 0
  {
    seq(n, _ => 0)
  }

  /** Contents and the zeros in the rest of their last block. */
  function Pad(c: seq<Byte>): seq<Byte> {
    c + Zeros(if |c| % BSIZE == 0 then 0 else BSIZE - |c| % BSIZE)
  }

  /** The image with its bit map filled in. */
  ghost function Mapped(dev: Disk, free: nat): Disk
    requires |dev| == FSSIZE
  {
    dev[Layout().bmapstart := MapOf(free)]
  }

  ghost predicate Building(dev: Disk, free: nat, node: seq<Dinode>, tab: seq<seq<Uint>>, owner: seq<Owner>, e: int) {
    && |dev| == FSSIZE && NMETA <= free <= FSSIZE
    && FsOk(Mapped(dev, free), Layout(), node, tab, owner, e, -1)
    && forall b :: free <= b < FSSIZE ==> dev[b] == ZeroBlock()
  }

  /** freeblock++ */
  lemma Next(dev: Disk, free: nat, node: seq<Dinode>, tab: seq<seq<Uint>>, owner: seq<Owner>, e: int)
    requires Building(dev, free, node, tab, owner, e) && free < FSSIZE
    ensures FsOk(Mapped(dev, free + 1), Layout(), node, tab, owner, e, free) && owner[free] == NoOne
  {
    hide Tabs, Owns, Bits, Synced, BitOf, WithBit;
    MapBits(Mapped(dev, free), Layout(), free, free);
    TakeBit(Mapped(dev, free), Layout(), node, tab, owner, e, free);
    assert Mapped(dev, free)[Layout().bmapstart := WithBit(MapOf(free), free, true)] == Mapped(dev, free + 1);
  }

  class Mkfs {
    var dev: Disk
    var freeinode: nat
    var freeblock: nat
    ghost var node: seq<Dinode>
    ghost var tab: seq<seq<Uint>>
    ghost var owner: seq<Owner>

    ghost predicate Ok(e: int)
      reads this
    {
      Building(dev, freeblock, node, tab, owner, e) && dev[1] == SuperBlock()
    }

    /** din.addrs[s] = freeblock++ */
    method NewAddr(i: nat, din: Dinode, s: nat) returns (ok: bool, din': Dinode)
      requires Ok(i) && i < |node| && node[i] == din && s <= INDIRECT && din.addrs[s] == 0
      modifies this`dev, this`freeblock, this`node, this`tab, this`owner
      ensures !ok ==> freeblock == FSSIZE
      ensures ok ==>
                && Ok(i) && freeblock == old(freeblock) + 1 && din' == din.(addrs := din.addrs[s := old(freeblock)])
                && node == old(node)[i := din'] && dev == old(dev) && dev[old(freeblock)] == ZeroBlock()
                && tab == PutTab(old(tab), i, s, old(freeblock))
                && Grew(old(dev), old(tab), old(owner), dev, tab, owner, i)
    {
      hide Tabs, Owns, Bits, Synced, Grew, MapOf;
      if freeblock == FSSIZE { return false, din; }
      Next(dev, freeblock, node, tab, owner, i);
      SlotIsAddr(Mapped(dev, freeblock), node, tab, i, s);
      ghost var b: Uint := freeblock;
      AttachDirect(Mapped(dev, freeblock + 1), Layout(), node, tab, owner, i, s, b);
      NewBlockGrew(dev, tab, owner, dev, i, s, b, Layout());
      ok, din' := true, din.(addrs := din.addrs[s := freeblock]);
      node, tab, owner := node[i := din'], PutTab(tab, i, s, b), owner[b := Slot(i, s)];
      freeblock := freeblock + 1;
    }

    /** indirect[j] = freeblock++, and the indirect block written back. */
    method NewListed(i: nat, din: Dinode, j: nat) returns (ok: bool)
      requires Ok(i) && i < |node| && node[i] == din && j < NINDIRECT && tab[i][INDIRECT] != 0
      requires tab[i][INDIRECT + 1 + j] == 0
      modifies this`dev, this`freeblock, this`node, this`tab, this`owner
      ensures !ok ==> freeblock == FSSIZE
      ensures ok ==>
                && Ok(i) && freeblock == old(freeblock) + 1 && node == old(node) && dev[old(freeblock)] == ZeroBlock()
                && tab == PutTab(old(tab), i, INDIRECT + 1 + j, old(freeblock))
                && Grew(old(dev), old(tab), old(owner), dev, tab, owner, i)
    {
      hide Tabs, Owns, Bits, Synced, Grew, MapOf, PutUint, BitOf;
      if freeblock == FSSIZE { return false; }
      Next(dev, freeblock, node, tab, owner, i);
      SlotIsAddr(Mapped(dev, freeblock), node, tab, i, INDIRECT);
      KindOf(tab, owner, Layout(), i, INDIRECT);
      OwnedBelow(dev, freeblock, node, tab, owner, i, i, INDIRECT);
      ghost var b: Uint := freeblock;
      AttachIndirect(Mapped(dev, freeblock + 1), Layout(), node, tab, owner, i, j, b);
      var k := din.addrs[INDIRECT];
      var blk := PutUint(dev[k], j, freeblock);
      assert Mapped(dev[k := blk], freeblock + 1) == Mapped(dev, freeblock + 1)[k := blk];
      NewBlockGrew(dev, tab, owner, dev[k := blk], i, INDIRECT + 1 + j, b, Layout());
      dev := dev[k := blk];
      tab, owner := PutTab(tab, i, INDIRECT + 1 + j, b), owner[b := Slot(i, INDIRECT + 1 + j)];
      freeblock := freeblock + 1;
      return true;
    }

    /** Block j of the indirect block, which is there. */
    method PlaceListed(i: nat, din: Dinode, j: nat) returns (ok: bool, x: nat)
      requires Ok(i) && i < |node| && node[i] == din && j < NINDIRECT && tab[i][INDIRECT] != 0
      modifies this`dev, this`freeblock, this`node, this`tab, this`owner
      ensures !ok ==> freeblock == FSSIZE
      ensures ok ==>
                && Ok(i) && node == old(node) && x == tab[i][INDIRECT + 1 + j] != 0
                && (old(tab)[i][INDIRECT + 1 + j] == 0 ==> x < |dev| && dev[x] == ZeroBlock())
                && Grew(old(dev), old(tab), old(owner), dev, tab, owner, i)
                && |tab| == |old(tab)| && tab[i] == old(tab)[i][INDIRECT + 1 + j := x]
    {
      hide Tabs, Owns, Bits, Synced, Grew, MapOf, GetUint, BitOf;
      GrewRefl(dev, tab, owner, i);
      SlotIsAddr(Mapped(dev, freeblock), node, tab, i, INDIRECT);
      KindOf(tab, owner, Layout(), i, INDIRECT);
      SlotIsListed(Mapped(dev, freeblock), node, tab, i, j);
      x := GetUint(dev[din.addrs[INDIRECT]], j);
      if x == 0 {
        x := freeblock;
        ok := NewListed(i, din, j);
        return ok, x;
      }
      return true, x;
    }

    /** iappend()'s choice of the block x for block fbn of the file. */
    method Place(i: nat, din: Dinode, fbn: nat) returns (ok: bool, din': Dinode, x: nat)
      requires Ok(i) && i < |node| && node[i] == din && fbn < MAXFILE
      modifies this`dev, this`freeblock, this`node, this`tab, this`owner
      ensures !ok ==> freeblock == FSSIZE
      ensures ok ==>
                && Ok(i) && OnlyAddrs(old(node), node, i) && node[i] == din' && x == tab[i][DataSlot(fbn)] != 0
                && (old(tab)[i][DataSlot(fbn)] == 0 ==> x < |dev| && dev[x] == ZeroBlock())
                && Grew(old(dev), old(tab), old(owner), dev, tab, owner, i)
                && forall bn :: 0 <= bn < MAXFILE && bn != fbn ==> tab[i][DataSlot(bn)] == old(tab)[i][DataSlot(bn)]
    {
      hide Tabs, Owns, Bits, Synced, Grew, MapOf, GetUint, BitOf;
      GrewRefl(dev, tab, owner, i);
      din' := din;
      if fbn < NDIRECT {
        SlotIsAddr(Mapped(dev, freeblock), node, tab, i, fbn);
        if din.addrs[fbn] == 0 {
          ok, din' := NewAddr(i, din, fbn);
          if !ok { return false, din', 0; }
        }
        return true, din', din'.addrs[fbn];
      }
      SlotIsAddr(Mapped(dev, freeblock), node, tab, i, INDIRECT);
      if din.addrs[INDIRECT] == 0 {
        ok, din' := NewAddr(i, din, INDIRECT);
        if !ok { return false, din', 0; }
      }
      ghost var dev1, tab1, owner1 := dev, tab, owner;
      ok, x := PlaceListed(i, din', fbn - NDIRECT);
      if !ok { return false, din', 0; }
      GrewTrans(old(dev), old(tab), old(owner), dev1, tab1, owner1, dev, tab, owner, i);
    }

    /** One turn of iappend()'s loop. */
    method AppendChunk(i: nat, din: Dinode, a: seq<Byte>, ghost c: seq<Byte>, off: nat) returns (ok: bool, din': Dinode)
      requires Ok(i) && i < |node| && node[i] == din && off == |c| && 0 < |a| && off % BSIZE + |a| <= BSIZE
      requires off + |a| <= MAXFILE * BSIZE
      requires Holds(dev, tab[i], Pad(c)) && Exact(tab[i], |c|)
      modifies this`dev, this`freeblock, this`node, this`tab, this`owner
      ensures !ok ==> freeblock == FSSIZE
      ensures ok ==>
                && Ok(i) && OnlyAddrs(old(node), node, i) && node[i] == din'
                && Holds(dev, tab[i], Pad(c + a)) && Exact(tab[i], |c + a|)
                && Touched(old(dev), old(tab), old(owner), dev, tab, owner, i)
    {
      hide Tabs, Owns, Bits, Synced, Grew, MapOf, BitOf, Holds, Touched, Exact, Pad;
      var fbn, x := off / BSIZE, 0;
      ok, din', x := Place(i, din, fbn);
      if !ok { return; }
      GrewHolds(old(dev), Layout(), old(tab), old(owner), dev, tab, owner, i, Pad(c));
      KindOf(tab, owner, Layout(), i, DataSlot(fbn));
      OwnedBelow(dev, freeblock, node, tab, owner, i, i, DataSlot(fbn));
      ExactMore(old(tab)[i], tab[i], |c|, |a|);
      Room(dev, old(tab)[i], tab[i], c);
      PatchSplices(dev, Layout(), tab, owner, i, c + Zeros(BSIZE - off % BSIZE), off, a);
      SplicePads(c, a);
      var blk := Patch(dev[x], off % BSIZE, a);
      DataWrite(Mapped(dev, freeblock), Layout(), node, tab, owner, i, -1, x, blk);
      assert Mapped(dev[x := blk], freeblock) == Mapped(dev, freeblock)[x := blk];
      TouchedWrite(dev, tab, owner, i, DataSlot(fbn), blk, Layout());
      TouchedTrans(old(dev), old(tab), old(owner), dev, tab, owner, dev[x := blk], tab, owner, i);
      dev := dev[x := blk];
    }

    method Rinode(i: nat) returns (din: Dinode)
      requires Ok(-1) && i < |node|
      ensures din == node[i]
    {
      hide Tabs, Owns, Bits, GetUints, Decode;
      OnDisk(dev, freeblock, node, tab, owner, i);
      InodeBlock(Layout(), i);
      din := Decode(GetUints(dev[i / IPB + Layout().inodestart], 16 * (i % IPB), 16));
    }

    /** winode(): the inode on disk becomes din. */
    method Winode(i: nat, din: Dinode)
      requires Ok(i) && i < |node| && node[i] == din
      modifies this`dev
      ensures Ok(-1) && forall b :: 0 <= b < |dev| && b >= NMETA ==> dev[b] == old(dev)[b]
    {
      hide FsOk, PutUints, Encode, MapOf;
      SizesOf(Mapped(dev, freeblock), node, tab, owner, i);
      InodeBlock(Layout(), i);
      DecodeEncode(din);
      Updated(Mapped(dev, freeblock), Layout(), node, tab, owner, i);
      var k := i / IPB + Layout().inodestart;
      var blk := PutUints(dev[k], 16 * (i % IPB), Encode(din));
      assert Mapped(dev[k := blk], freeblock) == Mapped(dev, freeblock)[k := blk];
      dev := dev[k := blk];
    }

    /** iappend(): the bytes go to the end of the contents. */
    method Iappend(i: nat, p: seq<Byte>, ghost c: seq<Byte>) returns (ok: bool)
      requires Ok(-1) && i < |node| && Holds(dev, tab[i], Pad(c)) && |c| == node[i].size && Exact(tab[i], |c|)
      modifies this`dev, this`freeblock, this`node, this`tab, this`owner
      ensures !ok ==> freeblock == FSSIZE || |c| + |p| > MAXFILE * BSIZE
      ensures ok ==>
                && Ok(-1) && |tab| == |old(tab)| && Holds(dev, tab[i], Pad(c + p)) && Exact(tab[i], |c + p|)
                && node == old(node)[i := old(node)[i].(size := |c + p|, addrs := node[i].addrs)]
                && Touched(old(dev), old(tab), old(owner), dev, tab, owner, i)
    {
      hide FsOk, Holds, Touched, Exact, Mapped, Pad;
      Relaxed(dev, freeblock, node, tab, owner, i);
      TouchedRefl(dev, tab, owner, i);
      var din := Rinode(i);
      var off, n := din.size as nat, 0;
      assert c + p[..0] == c;
      while n < |p|
        invariant 0 <= n <= |p| && off == |c| + n && Ok(i) && i < |node| && node[i] == din
        invariant |tab| == |old(tab)| == |node|
        invariant Holds(dev, tab[i], Pad(c + p[..n])) && Exact(tab[i], |c + p[..n]|) && OnlyAddrs(old(node), node, i)
        invariant Touched(old(dev), old(tab), old(owner), dev, tab, owner, i)
        invariant |tab[i]| == NSLOTS
      {
        var fbn := off / BSIZE;
        if fbn >= MAXFILE { return false; }
        var n1 := if |p| - n < (fbn + 1) * BSIZE - off then |p| - n else (fbn + 1) * BSIZE - off;
        ghost var dev1, tab1, owner1 := dev, tab, owner;
        ok, din := AppendChunk(i, din, p[n..n + n1], c + p[..n], off);
        if !ok { return; }
        TouchedTrans(old(dev), old(tab), old(owner), dev1, tab1, owner1, dev, tab, owner, i);
        assert c + p[..n] + p[n..n + n1] == c + p[..n + n1];
        n, off := n + n1, off + n1;
      }
      assert p[..n] == p;
      HoldsSize(dev, tab[i], c + p);
      Finish(i, din, off, Pad(c + p), old(dev), old(tab), old(owner));
      return true;
    }

    /** iappend()'s last two lines. */
    method Finish(i: nat, din0: Dinode, off: Uint, ghost c: seq<Byte>, ghost dev0: Disk, ghost tab0: seq<seq<Uint>>,
                  ghost owner0: seq<Owner>)
      requires Ok(i) && i < |node| && node[i] == din0 && Holds(dev, tab[i], c)
      requires Touched(dev0, tab0, owner0, dev, tab, owner, i)
      requires |tab0| == |tab| && (forall i :: 0 <= i < |tab0| ==> |tab0[i]| == NSLOTS) && Owns(tab0, owner0, Layout())
      modifies this`dev, this`node
      ensures Ok(-1) && Holds(dev, tab[i], c) && node == old(node)[i := din0.(size := off)]
      ensures Touched(dev0, tab0, owner0, dev, tab, owner, i)
    {
      hide Tabs, Owns, Bits, Synced, Holds, Touched, MapOf;
      ghost var dev1 := dev;
      SizeFree(Mapped(dev, freeblock), Layout(), node, tab, owner, i, off);
      node := node[i := din0.(size := off)];
      Winode(i, din0.(size := off));
      MetaTouched(dev0, tab0, owner0, dev1, tab, owner, dev, Layout(), i, c);
    }

    /** mkfs's zeroed disk, with the super block written. */
    constructor ()
      ensures Ok(-1) && Fresh(1) && freeinode == 1 && freeblock == NMETA && SuperWords(dev)
      ensures forall i :: 0 <= i < NINODES ==> node[i] == NoNode() && tab[i] == NoTab()
    {
      hide SuperBlock, SuperWords, ZeroDisk, Building;
      var d := ZeroDisk();
      SuperRead(d);
      var nodes, tabs := seq(NINODES, _ => NoNode()), seq(NINODES, _ => NoTab());
      var owners := seq(FSSIZE, _ => NoOne);
      Empty(d, nodes, tabs, owners);
      dev, freeinode, freeblock, node, tab, owner := d, 1, NMETA, nodes, tabs, owners;
    }

    /** The inodes from n on are unused. */
    ghost predicate Fresh(n: nat)
      reads this
    {
      && |node| == |tab| == NINODES
      && forall i :: n <= i < NINODES ==> node[i].addrs == NoNode().addrs && tab[i] == NoTab()
    }

    method Ialloc(kind: Ushort) returns (i: nat)
      requires Ok(-1) && freeinode < NINODES && Fresh(freeinode)
      modifies this`dev, this`node, this`freeinode
      ensures i == old(freeinode) && freeinode == i + 1 && Ok(-1) && Fresh(freeinode) && tab[i] == NoTab()
      ensures node == old(node)[i := NoNode().(kind := kind, nlink := 1)]
      ensures forall b :: 0 <= b < |dev| && b >= NMETA ==> dev[b] == old(dev)[b]
    {
      hide FsOk, Mapped, Owns;
      i := freeinode;
      freeinode := freeinode + 1;
      var din := NoNode().(kind := kind, nlink := 1);
      Renamed(dev, freeblock, node, tab, owner, i, din);
      node := node[i := din];
      Winode(i, din);
    }

    /** The rounding of the root directory's size. */
    method FixRoot(i: nat)
      requires Ok(-1) && i < |node| && node[i].size < 0xffff_0000
      modifies this`dev, this`node
      ensures Ok(-1) && node == old(node)[i := old(node)[i].(size := (old(node)[i].size / BSIZE + 1) * BSIZE)]
      ensures forall b :: 0 <= b < |dev| && b >= NMETA ==> dev[b] == old(dev)[b]
    {
      hide FsOk, MapOf;
      Relaxed(dev, freeblock, node, tab, owner, i);
      var din := Rinode(i);
      var off := (din.size / BSIZE + 1) * BSIZE;
      SizeFree(Mapped(dev, freeblock), Layout(), node, tab, owner, i, off);
      din := din.(size := off);
      node := node[i := din];
      Winode(i, din);
    }

    /** balloc(): with its bit map written, the image is a file system in order. */
    method Balloc(used: nat)
      requires Ok(-1) && used == freeblock
      modifies this`dev
      ensures |dev| == FSSIZE && FsOk(dev, Layout(), node, tab, owner, -1, -1) && dev[1] == SuperBlock()
      ensures forall b :: 0 <= b < FSSIZE ==> (BitOf(dev, Layout(), b) <==> b < used)
      ensures forall b :: 0 <= b < |dev| && b >= NMETA ==> dev[b] == old(dev)[b]
    {
      hide FsOk, WithBit, BitOf;
      var buf := ZeroBlock();
      for i := 0 to used
        invariant buf == MapOf(i) && dev == old(dev)
      {
        buf := WithBit(buf, i, true);
      }
      dev := dev[Layout().bmapstart := buf];
      SizesOf(dev, node, tab, owner, -1);
      forall b | 0 <= b < FSSIZE ensures BitOf(dev, Layout(), b) <==> b < used {
        MapBits(dev, Layout(), used, b);
      }
    }

    /** The read loop of main(): a file's bytes, BSIZE at a time. */
    method AppendFile(i: nat, data: seq<Byte>) returns (ok: bool)
      requires Ok(-1) && i < |node| && node[i].size == 0 && tab[i] == NoTab()
      modifies this`dev, this`freeblock, this`node, this`tab, this`owner
      ensures !ok ==> freeblock == FSSIZE || |data| > MAXFILE * BSIZE
      ensures ok ==>
                && Ok(-1) && |tab| == |old(tab)| && File(dev, node, tab, i, data)
                && node == old(node)[i := old(node)[i].(size := |data|, addrs := node[i].addrs)]
                && Touched(old(dev), old(tab), old(owner), dev, tab, owner, i)
    {
      hide FsOk, Touched, Mapped;
      Relaxed(dev, freeblock, node, tab, owner, i);
      TouchedRefl(dev, tab, owner, i);
      var n := 0;
      while n < |data|
        invariant 0 <= n <= |data| && Ok(-1) && i < |node| == |old(node)| && |tab| == |old(tab)|
        invariant File(dev, node, tab, i, data[..n])
        invariant node == old(node)[i := old(node)[i].(size := n, addrs := node[i].addrs)]
        invariant Touched(old(dev), old(tab), old(owner), dev, tab, owner, i)
      {
        var cc := if |data| - n < BSIZE then |data| - n else BSIZE;
        ghost var dev1, tab1, owner1 := dev, tab, owner;
        ok := Iappend(i, data[n..n + cc], data[..n]);
        if !ok { return; }
        TouchedTrans(old(dev), old(tab), old(owner), dev1, tab1, owner1, dev, tab, owner, i);
        assert data[..n] + data[n..n + cc] == data[..n + cc];
        n := n + cc;
      }
      assert data[..n] == data;
      return true;
    }

    /** One directory entry, and the files before it as they were. */
    method AddEntry(de: seq<Byte>, ghost root: seq<Byte>, ghost files: seq<(seq<Byte>, seq<Byte>)>,
                    ghost n: nat) returns (ok: bool)
      requires Ok(-1) && Stored(dev, node, tab, root, files, n) && Fresh(n + 2)
      modifies this`dev, this`freeblock, this`node, this`tab, this`owner
      ensures ok ==> Ok(-1) && Stored(dev, node, tab, root + de, files, n) && Fresh(n + 2)
      ensures ok && n + 2 < NINODES ==> node[n + 2] == old(node)[n + 2]
      ensures !ok ==> freeblock == FSSIZE || |root + de| > MAXFILE * BSIZE
    {
      hide FsOk, Touched, Mapped, Holds, Exact;
      Relaxed(dev, freeblock, node, tab, owner, -1);
      ok := Iappend(1, de, root);
      if ok {
        FilesKeep(old(dev), old(node), old(tab), old(owner), dev, node, tab, owner, files, n, 1);
        StillFresh(old(dev), old(tab), old(owner), dev, tab, owner, 1, n + 2);
      }
    }

    /** One file of the command line. */
    method AddFile(name: seq<Byte>, data: seq<Byte>, ghost root: seq<Byte>, ghost files: seq<(seq<Byte>, seq<Byte>)>,
                   ghost n: nat) returns (ok: bool)
      requires Ok(-1) && Stored(dev, node, tab, root, files, n) && Fresh(n + 2) && n < |files|
      requires files[n] == (name, data)
      requires freeinode == n + 2 < NINODES && |name| == DIRSIZ
      modifies this
      ensures ok ==>
                && Ok(-1) && Stored(dev, node, tab, root + Dirent(n + 2, name), files, n + 1) && Fresh(n + 3)
                && freeinode == n + 3
      ensures !ok ==> freeblock == FSSIZE || |data| > MAXFILE * BSIZE || |root| + 2 + DIRSIZ > MAXFILE * BSIZE
    {
      hide FsOk, Touched, Mapped, Holds, Exact;
      Relaxed(dev, freeblock, node, tab, owner, -1);
      ghost var dev0, node0 := dev, node;
      var inum := Ialloc(T_FILE);
      MetaFiles(dev0, node0, dev, node, tab, owner, root, files, n);
      ok := AddEntry(Dirent(inum, name), root, files, n);
      if !ok { return; }
      ghost var dev1, node1, tab1, owner1 := dev, node, tab, owner;
      Relaxed(dev, freeblock, node, tab, owner, -1);
      ok := AppendFile(inum, data);
      if !ok { return; }
      FilesKeep(dev1, node1, tab1, owner1, dev, node, tab, owner, files, n, inum);
      RootKeeps(dev1, node1, tab1, owner1, dev, node, tab, owner, root + Dirent(inum, name), inum);
      StillFresh(dev1, tab1, owner1, dev, tab, owner, inum, n + 3);
    }

    /** The root directory with its two dots. */
    method MakeRoot(dot: seq<Byte>, dotdot: seq<Byte>, ghost files: seq<(seq<Byte>, seq<Byte>)>) returns (ok: bool)
      requires Ok(-1) && Fresh(1) && freeinode == 1 && |files| + 2 <= NINODES && |dot| == |dotdot| == DIRSIZ
      modifies this
      ensures !ok ==> freeblock == FSSIZE
      ensures ok ==> Ok(-1) && Fresh(2) && freeinode == 2
      ensures ok ==> Stored(dev, node, tab, Root(dot, dotdot, files, 0), files, 0)
    {
      hide FsOk, Touched, Mapped, Holds, Exact, Owns, Pad;
      var rootino := Ialloc(T_DIR);
      EmptyFile(dev, node, tab, 1);
      ok := AddEntry(Dirent(rootino, dot), [], files, 0);
      if !ok { return; }
      ok := AddEntry(Dirent(rootino, dotdot), [] + Dirent(1, dot), files, 0);
      assert [] + Dirent(1, dot) + Dirent(1, dotdot) == Root(dot, dotdot, files, 0);
    }

    /** The rounding of the root's size and the bit map. */
    method Seal(ghost root: seq<Byte>, ghost files: seq<(seq<Byte>, seq<Byte>)>)
      requires Ok(-1) && Stored(dev, node, tab, root, files, |files|) && |root| < MAXFILE * BSIZE
      modifies this`dev, this`node
      ensures |dev| == FSSIZE && FsOk(dev, Layout(), node, tab, owner, -1, -1) && dev[1] == SuperBlock()
      ensures forall b :: 0 <= b < FSSIZE ==> (BitOf(dev, Layout(), b) <==> b < freeblock)
      ensures forall k :: 0 <= k < |files| ==> File(dev, node, tab, k + 2, files[k].1)
      ensures RootStored(dev, node, tab, root, |root| % BSIZE != 0)
    {
      hide FsOk, Touched, Mapped, Holds, Exact, BitOf, Owns, Pad, RootStored;
      ghost var dev1, node1 := dev, node;
      Relaxed(dev, freeblock, node, tab, owner, -1);
      FixRoot(1);
      Balloc(freeblock);
      MetaFiles(dev1, node1, dev, node1, tab, owner, root, files, |files|);
      Rounded(dev, node1, node, tab, root);
    }

    /** main(), after the disk is zeroed: every file is stored whole, the root directory
        lists them, and the result is a file system in order. */
    method Build(dot: seq<Byte>, dotdot: seq<Byte>, files: seq<(seq<Byte>, seq<Byte>)>) returns (ok: bool)
      requires Ok(-1) && Fresh(1) && freeinode == 1 && |files| + 2 <= NINODES && |dot| == |dotdot| == DIRSIZ
      requires forall k :: 0 <= k < |files| ==> |files[k].0| == DIRSIZ
      modifies this
      ensures !ok ==> freeblock == FSSIZE || exists k :: 0 <= k < |files| && |files[k].1| > MAXFILE * BSIZE
      ensures ok ==>
                && FsOk(dev, Layout(), node, tab, owner, -1, -1)
                && (forall b :: 0 <= b < FSSIZE ==> (BitOf(dev, Layout(), b) <==> b < freeblock))
                && (forall k :: 0 <= k < |files| ==> File(dev, node, tab, k + 2, files[k].1))
                && RootStored(dev, node, tab, Root(dot, dotdot, files, |files|), |files| % 32 != 30)
                && SuperWords(dev)
    {
      hide FsOk, Touched, Mapped, Holds, Exact, BitOf, Owns, Pad, RootStored, Root, SuperBlock, SuperWords;
      ok := MakeRoot(dot, dotdot, files);
      if !ok { return; }
      var n := 0;
      while n < |files|
        invariant 0 <= n <= |files| && Ok(-1) && Fresh(n + 2) && freeinode == n + 2
        invariant Stored(dev, node, tab, Root(dot, dotdot, files, n), files, n)
      {
        RootLength(dot, dotdot, files, n);
        RootNext(dot, dotdot, files, n);
        ok := AddFile(files[n].0, files[n].1, Root(dot, dotdot, files, n), files, n);
        if !ok { return; }
        n := n + 1;
      }
      RootLength(dot, dotdot, files, n);
      Seal(Root(dot, dotdot, files, n), files);
      SuperRead(dev);
      return true;
    }
  }

  /** Entry e of a directory gives back an inode number and a name. */
  ghost predicate EntryIs(root: seq<Byte>, e: nat, inum: nat, name: seq<Byte>) {
    && 16 * e + 16 <= |root|
    && (root[16 * e] as int) + 256 * (root[16 * e + 1] as int) == inum && root[16 * e + 2..16 * e + 16] == name
  }

  /** Entry k + 2 of the root is inode k + 2 under the name of file k. */
  lemma {:induction false} RootEntry(dot: seq<Byte>, dotdot: seq<Byte>, files: seq<(seq<Byte>, seq<Byte>)>, n: nat,
                                     k: nat)
    requires k < n <= |files| && n + 2 <= NINODES && |dot| == |dotdot| == DIRSIZ
    requires forall k :: 0 <= k < |files| ==> |files[k].0| == DIRSIZ
    ensures EntryIs(Root(dot, dotdot, files, n), k + 2, k + 2, files[k].0)
  {
    hide EntryIs, Dirent;
    var front, last := Root(dot, dotdot, files, n - 1), Dirent(n + 1, files[n - 1].0);
    RootNext(dot, dotdot, files, n - 1);
    if k < n - 1 {
      RootEntry(dot, dotdot, files, n - 1, k);
      EntryMore(front, last, k + 2, k + 2, files[k].0);
    } else {
      RootLength(dot, dotdot, files, n - 1);
      EntryLast(front, n + 1, files[k].0, []);
      assert front + last + [] == front + last;
    }
  }

  /** The first two entries are the dots, both inode 1. */
  lemma {:induction false} DotEntries(dot: seq<Byte>, dotdot: seq<Byte>, files: seq<(seq<Byte>, seq<Byte>)>, n: nat)
    requires n <= |files| && n + 2 <= NINODES && |dot| == |dotdot| == DIRSIZ
    ensures EntryIs(Root(dot, dotdot, files, n), 0, 1, dot) && EntryIs(Root(dot, dotdot, files, n), 1, 1, dotdot)
  {
    hide EntryIs;
    var root := Root(dot, dotdot, files, n);
    if n == 0 {
      assert [] + Dirent(1, dot) + Dirent(1, dotdot) == root && Dirent(1, dot) + Dirent(1, dotdot) + [] == root;
      EntryLast([], 1, dot, Dirent(1, dotdot));
      EntryLast(Dirent(1, dot), 1, dotdot, []);
    } else {
      DotEntries(dot, dotdot, files, n - 1);
      EntryMore(Root(dot, dotdot, files, n - 1), Dirent(n + 1, files[n - 1].0), 0, 1, dot);
      EntryMore(Root(dot, dotdot, files, n - 1), Dirent(n + 1, files[n - 1].0), 1, 1, dotdot);
    }
  }

  lemma EntryLast(front: seq<Byte>, inum: nat, name: seq<Byte>, rest: seq<Byte>)
    requires |front| % 16 == 0 && inum < 65536 && |name| == DIRSIZ
    ensures EntryIs(front + Dirent(inum, name) + rest, |front| / 16, inum, name)
  {
  }

  lemma EntryMore(root: seq<Byte>, rest: seq<Byte>, e: nat, inum: nat, name: seq<Byte>)
    requires EntryIs(root, e, inum, name)
    ensures EntryIs(root + rest, e, inum, name)
  {
  }

  lemma RootNext(dot: seq<Byte>, dotdot: seq<Byte>, files: seq<(seq<Byte>, seq<Byte>)>, n: nat)
    requires n < |files| && n + 3 <= NINODES
    ensures Root(dot, dotdot, files, n + 1) == Root(dot, dotdot, files, n) + Dirent(n + 2, files[n].0)
  {
  }

  /** The root directory with its size rounded up: the bytes up to that size are there,
      the entries and then zeros, iff the directory is whole; if not, the last block
      below the size is missing. */
  ghost predicate RootStored(dev: Disk, node: seq<Dinode>, tab: seq<seq<Uint>>, root: seq<Byte>, whole: bool) {
    && 1 < |node| == |tab| && Exact(tab[1], |root|) && Holds(dev, tab[1], root)
    && node[1].size == (|root| / BSIZE + 1) * BSIZE
    && (whole <==> forall bn :: 0 <= bn < MAXFILE && bn * BSIZE < node[1].size ==> tab[1][DataSlot(bn)] != 0)
    && (whole ==> Holds(dev, tab[1], root + Zeros(node[1].size - |root|)))
    && (!whole ==> node[1].size == |root| + BSIZE && tab[1][DataSlot(|root| / BSIZE)] == 0)
  }

  lemma Rounded(dev: Disk, node: seq<Dinode>, node': seq<Dinode>, tab: seq<seq<Uint>>, root: seq<Byte>)
    requires File(dev, node, tab, 1, root) && |node'| == |node| && |root| < MAXFILE * BSIZE
    requires node'[1].size == (|root| / BSIZE + 1) * BSIZE
    ensures RootStored(dev, node', tab, root, |root| % BSIZE != 0)
  {
    hide DataSlot;
    PadPrefix(dev, tab[1], root);
    RootHole(tab[1], |root|);
    if |root| % BSIZE != 0 {
      assert Pad(root) == root + Zeros(node'[1].size - |root|);
    }
  }

  lemma PadPrefix(dev: Disk, t: seq<Uint>, c: seq<Byte>)
    requires Holds(dev, t, Pad(c))
    ensures Holds(dev, t, c)
  {
    hide ByteIs;
    forall o | 0 <= o < |c| ensures ByteIs(dev, t, o, c[o]) {
      assert Pad(c)[o] == c[o];
    }
  }

  /** The block that takes the next byte is there, and zeros follow the contents. */
  lemma Room(dev: Disk, t: seq<Uint>, t': seq<Uint>, c: seq<Byte>)
    requires |c| < MAXFILE * BSIZE && Holds(dev, t', Pad(c)) && Exact(t, |c|)
    requires 0 < t'[DataSlot(|c| / BSIZE)] < |dev|
    requires t[DataSlot(|c| / BSIZE)] == 0 ==> dev[t'[DataSlot(|c| / BSIZE)]] == ZeroBlock()
    ensures Holds(dev, t', c + Zeros(BSIZE - |c| % BSIZE))
  {
    var c' := c + Zeros(BSIZE - |c| % BSIZE);
    if |c| % BSIZE == 0 {
      var bn := |c| / BSIZE;
      assert t[DataSlot(bn)] == 0;
      PadPrefix(dev, t', c);
      forall o | 0 <= o < |c'| ensures ByteIs(dev, t', o, c'[o]) {
        assert o >= |c| ==> o / BSIZE == bn && c'[o] == 0;
      }
    } else {
      assert c' == Pad(c);
    }
  }

  lemma SplicePads(c: seq<Byte>, a: seq<Byte>)
    requires |c| % BSIZE + |a| <= BSIZE && 0 < |a|
    ensures Splice(c + Zeros(BSIZE - |c| % BSIZE), |c|, a) == Pad(c + a)
  {
    var k := BSIZE - |c| % BSIZE;
    assert (|c| + |a|) % BSIZE == if |a| == k then 0 else |c| % BSIZE + |a|;
  }

  /** The root directory: the two dots and one entry a file. */
  function Root(dot: seq<Byte>, dotdot: seq<Byte>, files: seq<(seq<Byte>, seq<Byte>)>, n: nat): seq<Byte>
    requires n <= |files| && n + 2 <= NINODES
  {
    if n == 0 then Dirent(1, dot) + Dirent(1, dotdot)
    else Root(dot, dotdot, files, n - 1) + Dirent(n + 1, files[n - 1].0)
  }

  lemma {:induction false} RootLength(dot: seq<Byte>, dotdot: seq<Byte>, files: seq<(seq<Byte>, seq<Byte>)>, n: nat)
    requires n <= |files| && n + 2 <= NINODES && |dot| == |dotdot| == DIRSIZ
    requires forall k :: 0 <= k < |files| ==> |files[k].0| == DIRSIZ
    ensures |Root(dot, dotdot, files, n)| == (n + 2) * (2 + DIRSIZ)
  {
    if n > 0 {
      RootLength(dot, dotdot, files, n - 1);
    }
  }

  lemma EmptyFile(dev: Disk, node: seq<Dinode>, tab: seq<seq<Uint>>, i: nat)
    requires i < |node| == |tab| && node[i].size == 0 && tab[i] == NoTab()
    ensures File(dev, node, tab, i, [])
  {
  }

  const DIRSIZ := 14
  const T_DIR := 1
  const T_FILE := 2

  function Dirent(inum: nat, name: seq<Byte>): seq<Byte>
    requires inum < 65536
  {
    [inum % 256, inum / 256] + name
  }

  /** Inode i is the file with these bytes, zeros fill its last block, and it has no
      blocks beyond them. */
  ghost predicate File(dev: Disk, node: seq<Dinode>, tab: seq<seq<Uint>>, i: nat, data: seq<Byte>) {
    i < |node| == |tab| && Holds(dev, tab[i], Pad(data)) && Exact(tab[i], |data|) && node[i].size == |data|
  }

  /** The root directory and the first n files are stored, from inode 1 on. */
  ghost predicate Stored(dev: Disk, node: seq<Dinode>, tab: seq<seq<Uint>>, root: seq<Byte>,
                         files: seq<(seq<Byte>, seq<Byte>)>, n: nat) {
    && n <= |files| && n + 2 <= NINODES && File(dev, node, tab, 1, root)
    && forall k :: 0 <= k < n ==> File(dev, node, tab, k + 2, files[k].1)
  }

  lemma FilesKeep(dev: Disk, node: seq<Dinode>, tab: seq<seq<Uint>>, owner: seq<Owner>, dev': Disk, node': seq<Dinode>,
                  tab': seq<seq<Uint>>, owner': seq<Owner>,
                  files: seq<(seq<Byte>, seq<Byte>)>, n: nat, i: nat)
    requires Touched(dev, tab, owner, dev', tab', owner', i) && n <= |files| && |node| == |node'| == |tab'|
    requires (i == 1 || i >= n + 2)
    requires (forall i :: 0 <= i < |tab| ==> |tab[i]| == NSLOTS) && Owns(tab, owner, Layout())
    requires forall j :: 0 <= j < |node| && j != i ==> node'[j] == node[j]
    requires forall k :: 0 <= k < n ==> File(dev, node, tab, k + 2, files[k].1)
    ensures forall k :: 0 <= k < n ==> File(dev', node', tab', k + 2, files[k].1)
  {
  }

  lemma RootKeeps(dev: Disk, node: seq<Dinode>, tab: seq<seq<Uint>>, owner: seq<Owner>, dev': Disk, node': seq<Dinode>,
                  tab': seq<seq<Uint>>, owner': seq<Owner>,
                  root: seq<Byte>, i: nat)
    requires Touched(dev, tab, owner, dev', tab', owner', i) && |node| == |node'| == |tab'| && i != 1
    requires (forall i :: 0 <= i < |tab| ==> |tab[i]| == NSLOTS) && Owns(tab, owner, Layout())
    requires forall j :: 0 <= j < |node| && j != i ==> node'[j] == node[j]
    requires File(dev, node, tab, 1, root)
    ensures File(dev', node', tab', 1, root)
  {
  }

  lemma StillFresh(dev: Disk, tab: seq<seq<Uint>>, owner: seq<Owner>, dev': Disk, tab': seq<seq<Uint>>,
                   owner': seq<Owner>, i: nat, n: nat)
    requires Touched(dev, tab, owner, dev', tab', owner', i) && i < n
    requires forall j :: n <= j < |tab| ==> tab[j] == NoTab()
    ensures forall j :: n <= j < |tab'| ==> tab'[j] == NoTab()
  {
  }

  /** A change of inodes without blocks leaves the files. */
  lemma MetaFiles(dev: Disk, node: seq<Dinode>, dev': Disk, node': seq<Dinode>, tab: seq<seq<Uint>>, owner: seq<Owner>,
                  root: seq<Byte>, files: seq<(seq<Byte>, seq<Byte>)>, n: nat)
    requires Stored(dev, node, tab, root, files, n) && |dev'| == |dev| == |owner| && |node'| == |node|
    requires forall b :: 0 <= b < |dev| && b >= NMETA ==> dev'[b] == dev[b]
    requires forall j :: 0 <= j < n + 2 && j < |node| ==> node'[j] == node[j]
    requires (forall i :: 0 <= i < |tab| ==> |tab[i]| == NSLOTS) && Owns(tab, owner, Layout())
    ensures Stored(dev', node', tab, root, files, n)
  {
  }

  function NoNode(): Dinode {
    Dinode(0, 0, 0, 0, 0, [0, 0, 0, 0, 0, 0, 0, 0, 0, 0, 0, 0, 0])
  }

  function NoTab(): (t: seq<Uint>)
    ensures |t| == NSLOTS && forall s :: 0 <= s < NSLOTS ==> t[s] == 0
  {
    seq(NSLOTS, _ => 0)
  }

  lemma Empty(dev: Disk, node: seq<Dinode>, tab: seq<seq<Uint>>, owner: seq<Owner>)
    requires |dev| == FSSIZE && (forall b :: 0 <= b < FSSIZE && b != 1 ==> dev[b] == ZeroBlock())
    requires |node| == |tab| == NINODES && |owner| == FSSIZE
    requires forall i :: 0 <= i < NINODES ==> node[i] == NoNode() && tab[i] == NoTab()
    requires forall b :: 0 <= b < FSSIZE ==> owner[b] == NoOne
    ensures Building(dev, NMETA, node, tab, owner, -1)
  {
    hide MapOf, BitOf, DiskNode;
    var d := Mapped(dev, NMETA);
    forall b | 0 <= b < FSSIZE ensures BitOf(d, Layout(), b) <==> b < NMETA {
      MapBits(d, Layout(), NMETA, b);
    }
    forall i | 0 <= i < NINODES ensures DiskNode(d, Layout(), i) == NoNode() {
      ZeroNode(d, i);
    }
  }

  lemma ZeroNode(dev: Disk, i: nat)
    requires Fits(dev, Layout()) && i < NINODES && dev[i / IPB + Layout().inodestart] == ZeroBlock()
    ensures DiskNode(dev, Layout(), i) == NoNode()
  {
    hide GetUint;
    var w := GetUints(ZeroBlock(), 16 * (i % IPB), 16);
    forall k | 0 <= k < 16 ensures w[k] == 0 {
      GetUintsAt(ZeroBlock(), 16 * (i % IPB), 16, k);
      ZeroUints(16 * (i % IPB) + k);
    }
    assert w[3..] == NoNode().addrs;
  }

  /** An inode without blocks may be given any other fields. */
  lemma Renamed(dev: Disk, free: nat, node: seq<Dinode>, tab: seq<seq<Uint>>, owner: seq<Owner>, i: nat, d: Dinode)
    requires Building(dev, free, node, tab, owner, -1) && i < |node| && d.addrs == node[i].addrs
    ensures Building(dev, free, node[i := d], tab, owner, i)
  {
  }

  /** The rounded size leaves a hole iff it was a multiple of BSIZE already. */
  lemma RootHole(t: seq<Uint>, size: nat)
    requires Exact(t, size) && size < MAXFILE * BSIZE
    ensures (forall bn :: 0 <= bn < MAXFILE && bn * BSIZE < (size / BSIZE + 1) * BSIZE ==> t[DataSlot(bn)] != 0) <==>
              size % BSIZE != 0
  {
    var q := size / BSIZE;
    assert size == q * BSIZE + size % BSIZE;
    assert t[DataSlot(q)] != 0 <==> q * BSIZE < size;
  }

  /** So mkfs leaves a hole in the root directory for every 32nd number of files. */
  lemma RootWhole(dot: seq<Byte>, dotdot: seq<Byte>, files: seq<(seq<Byte>, seq<Byte>)>, t: seq<Uint>)
    requires |files| + 2 <= NINODES && |dot| == |dotdot| == DIRSIZ
    requires forall k :: 0 <= k < |files| ==> |files[k].0| == DIRSIZ
    requires Exact(t, |Root(dot, dotdot, files, |files|)|)
    ensures
      var size := |Root(dot, dotdot, files, |files|)|;
      (exists bn :: 0 <= bn < MAXFILE && bn * BSIZE < (size / BSIZE + 1) * BSIZE && t[DataSlot(bn)] == 0) <==>
        |files| % 32 == 30
  {
    hide Exact, Root, DataSlot;
    RootLength(dot, dotdot, files, |files|);
    RootHole(t, |Root(dot, dotdot, files, |files|)|);
  }

  /** Thirty files: 32 entries fill block 0, the size says two blocks, and block 1 is
      missing. */
  lemma ThirtyFiles(dot: seq<Byte>, dotdot: seq<Byte>, files: seq<(seq<Byte>, seq<Byte>)>, t: seq<Uint>)
    requires |files| == 30 && |dot| == |dotdot| == DIRSIZ
    requires forall k :: 0 <= k < |files| ==> |files[k].0| == DIRSIZ
    requires Exact(t, |Root(dot, dotdot, files, 30)|)
    ensures
      var size := |Root(dot, dotdot, files, 30)|;
      size == BSIZE && (size / BSIZE + 1) * BSIZE == 2 * BSIZE && t[DataSlot(0)] != 0 && t[DataSlot(1)] == 0
  {
    hide Root;
    RootLength(dot, dotdot, files, 30);
  }

  lemma HoldsSize(dev: Disk, t: seq<Uint>, c: seq<Byte>)
    requires Holds(dev, t, Pad(c))
    ensures |c| <= MAXFILE * BSIZE
  {
  }

  lemma SizesOf(dev: Disk, node: seq<Dinode>, tab: seq<seq<Uint>>, owner: seq<Owner>, e: int)
    requires FsOk(dev, Layout(), node, tab, owner, e, -1)
    ensures Sizes(dev, Layout(), node, tab, owner)
  {
  }

  lemma Relaxed(dev: Disk, free: nat, node: seq<Dinode>, tab: seq<seq<Uint>>, owner: seq<Owner>, i: int)
    requires Building(dev, free, node, tab, owner, -1)
    ensures Building(dev, free, node, tab, owner, i) && |tab| == |node| && |dev| == |owner|
    ensures (forall i :: 0 <= i < |tab| ==> |tab[i]| == NSLOTS) && Owns(tab, owner, Layout())
  {
    hide MapOf, Owns, Bits, Tabs, DiskNode;
  }

  lemma OnDisk(dev: Disk, free: nat, node: seq<Dinode>, tab: seq<seq<Uint>>, owner: seq<Owner>, i: nat)
    requires Building(dev, free, node, tab, owner, -1) && i < |node|
    ensures Fits(dev, Layout()) && DiskNode(dev, Layout(), i) == node[i]
  {
    hide MapOf, Owns, Bits, Tabs, GetUints, Decode;
    InodeBlock(Layout(), i);
    assert DiskNode(Mapped(dev, free), Layout(), i) == node[i];
  }

  lemma OwnedBelow(dev: Disk, free: nat, node: seq<Dinode>, tab: seq<seq<Uint>>, owner: seq<Owner>, e: int, i: nat,
                   s: nat)
    requires Building(dev, free, node, tab, owner, e) && i < |tab| && s < NSLOTS && tab[i][s] != 0
    ensures NMETA <= tab[i][s] < free
  {
    hide Tabs, Synced, BitOf, MapOf;
    KindOf(tab, owner, Layout(), i, s);
    MapBits(Mapped(dev, free), Layout(), free, tab[i][s]);
  }

  lemma ExactMore(t: seq<Uint>, t': seq<Uint>, off: nat, m: nat)
    requires Exact(t, off) && |t'| == NSLOTS && 0 < m && off % BSIZE + m <= BSIZE && off + m <= MAXFILE * BSIZE
    requires t'[DataSlot(off / BSIZE)] != 0
    requires forall bn :: 0 <= bn < MAXFILE && bn != off / BSIZE ==> t'[DataSlot(bn)] == t[DataSlot(bn)]
    ensures Exact(t', off + m)
  {
  }
}
