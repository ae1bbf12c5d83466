/** readi(), writei() and filewrite(): through the direct and indirect blocks, an inode
    is one sequence of bytes. */
module FsFile {
  import opened Blocks
  import opened Wal
  import opened FsImage
  import opened FsOwn
  import opened Fs

  const T_DEV := 3

  /** The inode with block table t has the contents c, without holes. */
  ghost predicate Holds(dev: Disk, t: seq<Uint>, c: seq<Byte>) {
    && |t| == NSLOTS && |c| <= MAXFILE * BSIZE
    && forall o :: 0 <= o < |c| ==> ByteIs(dev, t, o, c[o])
  }

  ghost predicate ByteIs(dev: Disk, t: seq<Uint>, o: nat, x: Byte)
    requires |t| == NSLOTS && o < MAXFILE * BSIZE
  {
    var b := t[DataSlot(o / BSIZE)];
    0 < b < |dev| && dev[b][o % BSIZE] == x
  }

  /** Contents are determined by the table and the blocks. */
  lemma HoldsOne(dev: Disk, t: seq<Uint>, c: seq<Byte>, c': seq<Byte>)
    requires Holds(dev, t, c) && Holds(dev, t, c') && |c| == |c'|
    ensures c == c'
  {
  }

  /** c with a written over it at off, and longer if a reaches beyond. */
  function Splice(c: seq<Byte>, off: nat, a: seq<Byte>): (r: seq<Byte>)
    requires off <= |c|
    ensures |r| == if off + |a| > |c| then off + |a| else |c|
  {
    c[..off] + a + if off + |a| < |c| then c[off + |a|..] else []
  }

  lemma SpliceAt(c: seq<Byte>, off: nat, a: seq<Byte>, o: nat)
    requires off <= |c| && o < |Splice(c, off, a)|
    ensures Splice(c, off, a)[o] == if off <= o < off + |a| then a[o - off] else c[o]
  {
  }

  lemma SpliceTwice(c: seq<Byte>, off: nat, a: seq<Byte>, b: seq<Byte>)
    requires off <= |c|
    ensures off + |a| <= |Splice(c, off, a)| && Splice(Splice(c, off, a), off + |a|, b) == Splice(c, off, a + b)
  {
  }

  lemma SpliceNothing(c: seq<Byte>, off: nat)
    requires off <= |c|
    ensures Splice(c, off, []) == c
  {
  }

  /** No other inode's table, blocks or contents changed, and no slot was emptied. */
  ghost predicate Touched(dev: Disk, tab: seq<seq<Uint>>, owner: seq<Owner>, dev': Disk, tab': seq<seq<Uint>>,
                          owner': seq<Owner>, i: nat) {
    && |dev'| == |dev| == |owner| == |owner'| && i < |tab| == |tab'| && |tab'[i]| == |tab[i]|
    && (forall j :: 0 <= j < |tab| && j != i ==> tab'[j] == tab[j])
    && (forall s :: 0 <= s < |tab[i]| && tab[i][s] != 0 ==> tab'[i][s] == tab[i][s])
    && forall b :: 0 <= b < |dev| && owner[b].Slot? ==> owner'[b] == owner[b] && (owner[b].i != i ==> dev'[b] == dev[b])
  }

  lemma TouchedTrans(dev: Disk, tab: seq<seq<Uint>>, owner: seq<Owner>, dev1: Disk, tab1: seq<seq<Uint>>,
                     owner1: seq<Owner>,
                     dev2: Disk, tab2: seq<seq<Uint>>, owner2: seq<Owner>, i: nat)
    requires Touched(dev, tab, owner, dev1, tab1, owner1, i) && Touched(dev1, tab1, owner1, dev2, tab2, owner2, i)
    ensures Touched(dev, tab, owner, dev2, tab2, owner2, i)
  {
  }

  /** A write to inode i leaves the contents of every other inode as they were. */
  lemma OthersKeep(dev: Disk, sb: Super, tab: seq<seq<Uint>>, owner: seq<Owner>, dev': Disk, tab': seq<seq<Uint>>,
                   owner': seq<Owner>, i: nat, j: nat, c: seq<Byte>)
    requires Touched(dev, tab, owner, dev', tab', owner', i) && j < |tab| && j != i
    requires (forall i :: 0 <= i < |tab| ==> |tab[i]| == NSLOTS) && Owns(tab, owner, sb)
    requires Holds(dev, tab[j], c)
    ensures Holds(dev', tab'[j], c)
  {
  }

  /** New blocks do not disturb what an inode already holds. */
  lemma GrewHolds(dev: Disk, sb: Super, tab: seq<seq<Uint>>, owner: seq<Owner>, dev': Disk, tab': seq<seq<Uint>>,
                  owner': seq<Owner>, i: nat, c: seq<Byte>)
    requires Grew(dev, tab, owner, dev', tab', owner', i) && i < |tab|
    requires (forall i :: 0 <= i < |tab| ==> |tab[i]| == NSLOTS) && Owns(tab, owner, sb)
    requires Holds(dev, tab[i], c)
    ensures Holds(dev', tab'[i], c) && Touched(dev, tab, owner, dev', tab', owner', i)
  {
  }

  /** memmove() into a block. */
  function Patch(blk: Block, p: nat, a: seq<Byte>): Block
    requires p + |a| <= BSIZE
  {
    blk[..p] + a + blk[p + |a|..]
  }

  /** Patching the block of offset off is splicing the contents. */
  lemma PatchSplices(dev: Disk, sb: Super, tab: seq<seq<Uint>>, owner: seq<Owner>, i: nat, c: seq<Byte>, off: nat,
                     a: seq<Byte>)
    requires (forall i :: 0 <= i < |tab| ==> |tab[i]| == NSLOTS) && Owns(tab, owner, sb)
    requires i < |tab| && Holds(dev, tab[i], c) && off <= |c| && 0 < |a|
    requires off % BSIZE + |a| <= BSIZE && off + |a| <= MAXFILE * BSIZE
    requires 0 < tab[i][DataSlot(off / BSIZE)] < |dev|
    ensures
      var b := tab[i][DataSlot(off / BSIZE)];
      Holds(dev[b := Patch(dev[b], off % BSIZE, a)], tab[i], Splice(c, off, a))
  {
    hide Splice, Owns;
    var b := tab[i][DataSlot(off / BSIZE)];
    var dev' := dev[b := Patch(dev[b], off % BSIZE, a)];
    var c' := Splice(c, off, a);
    forall o | 0 <= o < |c'| ensures ByteIs(dev', tab[i], o, c'[o]) {
      SpliceAt(c, off, a, o);
      OneByte(dev, sb, tab, owner, i, c, off, a, o);
    }
  }

  lemma OneByte(dev: Disk, sb: Super, tab: seq<seq<Uint>>, owner: seq<Owner>, i: nat, c: seq<Byte>, off: nat,
                a: seq<Byte>, o: nat)
    requires (forall i :: 0 <= i < |tab| ==> |tab[i]| == NSLOTS) && Owns(tab, owner, sb)
    requires i < |tab| && Holds(dev, tab[i], c) && off <= |c| && 0 < |a|
    requires off % BSIZE + |a| <= BSIZE && off + |a| <= MAXFILE * BSIZE
    requires 0 < tab[i][DataSlot(off / BSIZE)] < |dev|
    requires off <= o < off + |a| || o < |c|
    ensures
      var b := tab[i][DataSlot(off / BSIZE)];
      ByteIs(dev[b := Patch(dev[b], off % BSIZE, a)], tab[i], o, if off <= o < off + |a| then a[o - off] else c[o])
  {
  }

  /** What writing to inode i logs: the bit map, its indirect block and its data blocks
      from lo to hi. */
  ghost predicate LogsOnly(logged: set<nat>, was: set<nat>, sb: Super, t: seq<Uint>, lo: nat, hi: nat)
    requires |t| == NSLOTS && hi <= MAXFILE
  {
    forall b :: b in logged ==>
      b in was || IsBitmap(sb, b) || b == t[INDIRECT] != 0 || exists bn :: lo <= bn < hi && t[DataSlot(bn)] == b != 0
  }

  /** One turn of writei()'s loop. */
  method WriteChunk(fs: Fs, i: nat, off: nat, a: seq<Byte>, ghost c: seq<Byte>) returns (ok: bool)
    requires fs.Ok(i, -1) && i < |fs.node| && Holds(fs.dev, fs.tab[i], c) && off <= |c| && 0 < |a|
    requires off % BSIZE + |a| <= BSIZE && off + |a| <= MAXFILE * BSIZE
    modifies fs
    ensures !ok ==> Full(fs.dev, fs.sb)
    ensures ok ==>
              && fs.Ok(i, -1) && OnlyAddrs(old(fs.node), fs.node, i) && Holds(fs.dev, fs.tab[i], Splice(c, off, a))
              && Touched(old(fs.dev), old(fs.tab), old(fs.owner), fs.dev, fs.tab, fs.owner, i)
              && (off + |a| <= |c| ==> fs.node == old(fs.node)) && SameInodes(old(fs.dev), fs.dev, fs.sb)
              && fs.tab[i][DataSlot(off / BSIZE)] != 0
              && forall b :: b in fs.logged ==>
                   || b in old(fs.logged) || IsBitmap(fs.sb, b) || b == fs.tab[i][INDIRECT] != 0
                   || b == fs.tab[i][DataSlot(off / BSIZE)]
  {
    hide Tabs, Owns, Bits, Synced, Holds, Splice, Touched, Grew;
    var bn := off / BSIZE;
    if off + |a| <= |c| {
      HasBlock(fs.dev, fs.tab[i], c, off);
    }
    var addr: Uint;
    ok, addr := fs.Bmap(i, bn);
    if !ok { return; }
    GrewHolds(old(fs.dev), fs.sb, old(fs.tab), old(fs.owner), fs.dev, fs.tab, fs.owner, i, c);
    KindOf(fs.tab, fs.owner, fs.sb, i, DataSlot(bn));
    PatchSplices(fs.dev, fs.sb, fs.tab, fs.owner, i, c, off, a);
    ghost var dev1 := fs.dev;
    var blk := Patch(fs.dev[addr], off % BSIZE, a);
    DataWrite(fs.dev, fs.sb, fs.node, fs.tab, fs.owner, i, -1, addr, blk);
    fs.dev := fs.dev[addr := blk];
    fs.logged := fs.logged + {addr};
    TouchedWrite(dev1, fs.tab, fs.owner, i, DataSlot(bn), blk, fs.sb);
    TouchedTrans(old(fs.dev), old(fs.tab), old(fs.owner), dev1, fs.tab, fs.owner, fs.dev, fs.tab, fs.owner, i);
  }

  lemma HasBlock(dev: Disk, t: seq<Uint>, c: seq<Byte>, off: nat)
    requires Holds(dev, t, c) && off < |c|
    ensures t[DataSlot(off / BSIZE)] != 0
  {
    assert ByteIs(dev, t, off, c[off]);
  }

  lemma TouchedWrite(dev: Disk, tab: seq<seq<Uint>>, owner: seq<Owner>, i: nat, s: nat, blk: Block, sb: Super)
    requires (forall i :: 0 <= i < |tab| ==> |tab[i]| == NSLOTS) && Owns(tab, owner, sb) && |owner| == |dev|
    requires i < |tab| && s < NSLOTS && 0 < tab[i][s] < |dev|
    ensures Touched(dev, tab, owner, dev[tab[i][s] := blk], tab, owner, i)
  {
  }

  /** The 32-bit test of readi() and writei() on off + n. */
  predicate Wraps(off: Uint, n: Uint) {
    (off + n) % 0x1_0000_0000 < off
  }

  lemma WrapsIff(off: Uint, n: Uint)
    ensures Wraps(off, n) <==> off + n >= 0x1_0000_0000
  {
  }

  /** readi() returns the slice of the contents, cut at the end of the file. */
  method ReadI(fs: Fs, i: nat, off: Uint, n0: Uint, ghost c: seq<Byte>) returns (r: int, dst: seq<Byte>)
    requires fs.Valid() && i < |fs.node| && fs.node[i].kind != T_DEV
    requires Holds(fs.dev, fs.tab[i], c) && |c| == fs.node[i].size
    modifies fs
    ensures fs.dev == old(fs.dev) && fs.node == old(fs.node) && fs.tab == old(fs.tab) && fs.owner == old(fs.owner)
    ensures fs.logged == old(fs.logged)
    ensures off > |c| || off + n0 >= 0x1_0000_0000 ==> r == -1 && dst == []
    ensures !(off > |c| || off + n0 >= 0x1_0000_0000) ==>
              r == (if off + n0 > |c| then |c| - off else n0) && dst == c[off..off + r]
  {
    hide FsOk, Holds;
    WrapsIff(off, n0);
    dst := [];
    if off > fs.node[i].size || Wraps(off, n0) { return -1, dst; }
    var n := if off + n0 > fs.node[i].size then fs.node[i].size - off else n0;
    var tot := 0;
    while tot < n
      invariant 0 <= tot <= n && dst == c[off..off + tot] && off + n <= |c|
      invariant fs.dev == old(fs.dev) && fs.node == old(fs.node) && fs.tab == old(fs.tab) && fs.owner == old(fs.owner)
      invariant fs.logged == old(fs.logged)
    {
      var o := off + tot;
      Relax(fs.dev, fs.sb, fs.node, fs.tab, fs.owner, i);
      HasBlock(fs.dev, fs.tab[i], c, o);
      BlockInRange(fs.dev, fs.tab[i], c, o);
      var ok, addr := fs.Bmap(i, o / BSIZE);
      var m := if n - tot < BSIZE - o % BSIZE then n - tot else BSIZE - o % BSIZE;
      SliceOfBlock(fs.dev, fs.tab[i], c, o, m);
      assert c[off..off + tot] + c[o..o + m] == c[off..off + (tot + m)];
      dst := dst + fs.dev[addr][o % BSIZE..o % BSIZE + m];
      tot := tot + m;
    }
    return n, dst;
  }

  lemma Relax(dev: Disk, sb: Super, node: seq<Dinode>, tab: seq<seq<Uint>>, owner: seq<Owner>, i: nat)
    requires FsOk(dev, sb, node, tab, owner, -1, -1)
    ensures FsOk(dev, sb, node, tab, owner, i, -1) && |dev| == |owner| && |tab| == |node|
    ensures forall i :: 0 <= i < |tab| ==> |tab[i]| == NSLOTS
  {
  }

  lemma BlockInRange(dev: Disk, t: seq<Uint>, c: seq<Byte>, o: nat)
    requires Holds(dev, t, c) && o < |c|
    ensures o / BSIZE < MAXFILE
  {
  }

  lemma SliceOfBlock(dev: Disk, t: seq<Uint>, c: seq<Byte>, o: nat, m: nat)
    requires Holds(dev, t, c) && o + m <= |c| && o % BSIZE + m <= BSIZE && 0 < m
    ensures
      var b := t[DataSlot(o / BSIZE)];
      b < |dev| && dev[b][o % BSIZE..o % BSIZE + m] == c[o..o + m]
  {
    var b := t[DataSlot(o / BSIZE)];
    assert ByteIs(dev, t, o, c[o]);
    var x, y := dev[b][o % BSIZE..o % BSIZE + m], c[o..o + m];
    forall k | 0 <= k < m ensures x[k] == y[k] {
      assert ByteIs(dev, t, o + k, c[o + k]);
      assert (o + k) / BSIZE == o / BSIZE && (o + k) % BSIZE == o % BSIZE + k;
    }
  }

  /** The end of the last data block that n bytes at off reach. */
  function LastBlock(off: nat, n: nat): nat {
    if n == 0 then off / BSIZE else (off + n - 1) / BSIZE + 1
  }

  /** writei()'s loop. */
  method WriteLoop(fs: Fs, i: nat, off: nat, src: seq<Byte>, ghost c: seq<Byte>) returns (ok: bool)
    requires fs.Valid() && i < |fs.node| && Holds(fs.dev, fs.tab[i], c) && off <= |c| && off + |src| <= MAXFILE * BSIZE
    modifies fs
    ensures !ok ==> Full(fs.dev, fs.sb)
    ensures ok ==>
              && fs.Ok(i, -1) && OnlyAddrs(old(fs.node), fs.node, i) && Holds(fs.dev, fs.tab[i], Splice(c, off, src))
              && Touched(old(fs.dev), old(fs.tab), old(fs.owner), fs.dev, fs.tab, fs.owner, i)
              && (off + |src| <= |c| ==> fs.node == old(fs.node)) && SameInodes(old(fs.dev), fs.dev, fs.sb)
              && LogsOnly(fs.logged, old(fs.logged), fs.sb, fs.tab[i], off / BSIZE, LastBlock(off, |src|))
  {
    hide Tabs, Owns, Bits, Synced, Holds, Splice, Touched, Grew, LogsOnly;
    Relax(fs.dev, fs.sb, fs.node, fs.tab, fs.owner, i);
    SpliceNothing(c, off);
    TouchedRefl(fs.dev, fs.tab, fs.owner, i);
    LogsNothing(fs.logged, fs.sb, fs.tab[i], off);
    var tot := 0;
    while tot < |src|
      invariant 0 <= tot <= |src| && fs.Ok(i, -1) && OnlyAddrs(old(fs.node), fs.node, i) && src[..0] == []
      invariant Holds(fs.dev, fs.tab[i], Splice(c, off, src[..tot]))
      invariant Touched(old(fs.dev), old(fs.tab), old(fs.owner), fs.dev, fs.tab, fs.owner, i)
      invariant (off + tot <= |c| ==> fs.node == old(fs.node)) && SameInodes(old(fs.dev), fs.dev, fs.sb)
      invariant LogsOnly(fs.logged, old(fs.logged), fs.sb, fs.tab[i], off / BSIZE, LastBlock(off, tot))
    {
      var o := off + tot;
      var m := if |src| - tot < BSIZE - o % BSIZE then |src| - tot else BSIZE - o % BSIZE;
      ghost var dev1, tab1, owner1, logged1 := fs.dev, fs.tab, fs.owner, fs.logged;
      SpliceTwice(c, off, src[..tot], src[tot..tot + m]);
      assert src[..tot] + src[tot..tot + m] == src[..tot + m];
      ok := WriteChunk(fs, i, o, src[tot..tot + m], Splice(c, off, src[..tot]));
      if !ok { return; }
      TouchedTrans(old(fs.dev), old(fs.tab), old(fs.owner), dev1, tab1, owner1, fs.dev, fs.tab, fs.owner, i);
      LogsMore(fs.logged, logged1, old(fs.logged), fs.sb, dev1, tab1, owner1, fs.dev, fs.tab, fs.owner, i, off, tot, m);
      tot := tot + m;
    }
    assert src[..tot] == src;
    return true;
  }

  lemma TouchedRefl(dev: Disk, tab: seq<seq<Uint>>, owner: seq<Owner>, i: nat)
    requires |dev| == |owner| && i < |tab|
    ensures Touched(dev, tab, owner, dev, tab, owner, i)
  {
  }

  lemma LogsNothing(logged: set<nat>, sb: Super, t: seq<Uint>, off: nat)
    requires |t| == NSLOTS && off <= MAXFILE * BSIZE
    ensures LogsOnly(logged, logged, sb, t, off / BSIZE, LastBlock(off, 0))
  {
  }

  lemma LogsMore(logged: set<nat>, logged1: set<nat>, was: set<nat>, sb: Super, dev1: Disk, tab1: seq<seq<Uint>>,
                 owner1: seq<Owner>,
                 dev2: Disk, tab2: seq<seq<Uint>>, owner2: seq<Owner>, i: nat, off: nat, tot: nat, m: nat)
    requires i < |tab1| && |tab1[i]| == NSLOTS && Touched(dev1, tab1, owner1, dev2, tab2, owner2, i)
    requires 0 < m && off + tot + m <= MAXFILE * BSIZE && (off + tot) % BSIZE + m <= BSIZE
    requires LogsOnly(logged1, was, sb, tab1[i], off / BSIZE, LastBlock(off, tot))
    requires forall b :: b in logged ==>
               || b in logged1 || IsBitmap(sb, b) || b == tab2[i][INDIRECT] != 0
               || b == tab2[i][DataSlot((off + tot) / BSIZE)]
    requires tab2[i][DataSlot((off + tot) / BSIZE)] != 0
    ensures LogsOnly(logged, was, sb, tab2[i], off / BSIZE, LastBlock(off, tot + m))
  {
  }

  lemma SizeFree(dev: Disk, sb: Super, node: seq<Dinode>, tab: seq<seq<Uint>>, owner: seq<Owner>, i: nat, size: Uint)
    requires FsOk(dev, sb, node, tab, owner, i, -1) && i < |node|
    ensures FsOk(dev, sb, node[i := node[i].(size := size)], tab, owner, i, -1)
  {
  }

  /** An inode that did not change is still equal to its disk copy. */
  lemma Resync(dev: Disk, dev': Disk, sb: Super, node: seq<Dinode>, tab: seq<seq<Uint>>, owner: seq<Owner>,
               tab': seq<seq<Uint>>, owner': seq<Owner>, i: nat)
    requires FsOk(dev, sb, node, tab, owner, -1, -1) && FsOk(dev', sb, node, tab', owner', i, -1)
    requires SameInodes(dev, dev', sb)
    ensures FsOk(dev', sb, node, tab', owner', -1, -1)
  {
  }

  /** iupdate() touches no data block. */
  lemma MetaTouched(dev: Disk, tab: seq<seq<Uint>>, owner: seq<Owner>, dev1: Disk, tab1: seq<seq<Uint>>,
                    owner1: seq<Owner>,
                    dev2: Disk, sb: Super, i: nat, c: seq<Byte>)
    requires Touched(dev, tab, owner, dev1, tab1, owner1, i) && Holds(dev1, tab1[i], c) && |dev2| == |dev1|
    requires forall b :: 0 <= b < |dev1| && b >= sb.nmeta ==> dev2[b] == dev1[b]
    requires (forall i :: 0 <= i < |tab| ==> |tab[i]| == |tab1[i]| == NSLOTS) && Owns(tab, owner, sb)
    requires Owns(tab1, owner1, sb)
    ensures Touched(dev, tab, owner, dev2, tab1, owner1, i) && Holds(dev2, tab1[i], c)
  {
  }

  lemma LogsPlus(logged: set<nat>, was: set<nat>, sb: Super, t: seq<Uint>, lo: nat, hi: nat, b: nat)
    requires |t| == NSLOTS && hi <= MAXFILE && LogsOnly(logged, was, sb, t, lo, hi)
    ensures LogsOnly(logged, was + {b}, sb, t, lo, hi) && LogsOnly(logged + {b}, was + {b}, sb, t, lo, hi)
  {
  }

  /** writei() splices the bytes into the contents; the inode in memory and on disk are
      equal again although only a growing write calls iupdate(). */
  method WriteI(fs: Fs, i: nat, src: seq<Byte>, off: Uint, ghost c: seq<Byte>) returns (ok: bool, r: int)
    requires fs.Valid() && i < |fs.node| && fs.node[i].kind != T_DEV && |src| < 0x1_0000_0000
    requires Holds(fs.dev, fs.tab[i], c) && |c| == fs.node[i].size
    modifies fs
    ensures off > |c| || off + |src| > MAXFILE * BSIZE ==>
              && ok && r == -1 && fs.dev == old(fs.dev) && fs.node == old(fs.node) && fs.tab == old(fs.tab)
              && fs.owner == old(fs.owner) && fs.logged == old(fs.logged)
    ensures !ok ==> Full(fs.dev, fs.sb)
    ensures ok && off <= |c| && off + |src| <= MAXFILE * BSIZE ==>
              && r == |src| && fs.Valid() && Holds(fs.dev, fs.tab[i], Splice(c, off, src))
              && fs.node == old(fs.node)[i := old(fs.node)[i].(size := |Splice(c, off, src)|,
                                                               addrs := fs.node[i].addrs)]
              && Touched(old(fs.dev), old(fs.tab), old(fs.owner), fs.dev, fs.tab, fs.owner, i)
              && LogsOnly(fs.logged, old(fs.logged) + {i / IPB + fs.sb.inodestart}, fs.sb, fs.tab[i], off / BSIZE,
                          LastBlock(off, |src|))
  {
    hide Tabs, Owns, Bits, Synced, Holds, Touched, LogsOnly;
    WrapsIff(off, |src|);
    if off > fs.node[i].size || Wraps(off, |src|) { return true, -1; }
    if off + |src| > MAXFILE * BSIZE { return true, -1; }
    ok := WriteLoop(fs, i, off, src, c);
    if !ok { return false, 0; }
    LogsPlus(fs.logged, old(fs.logged), fs.sb, fs.tab[i], off / BSIZE, LastBlock(off, |src|),
             i / IPB + fs.sb.inodestart);
    if |src| > 0 && off + |src| > fs.node[i].size {
      ghost var dev1 := fs.dev;
      SizeFree(fs.dev, fs.sb, fs.node, fs.tab, fs.owner, i, off + |src|);
      fs.node := fs.node[i := fs.node[i].(size := off + |src|)];
      fs.Iupdate(i);
      MetaTouched(old(fs.dev), old(fs.tab), old(fs.owner), dev1, fs.tab, fs.owner, fs.dev, fs.sb, i,
                  Splice(c, off, src));
    } else {
      Resync(old(fs.dev), fs.dev, fs.sb, fs.node, old(fs.tab), old(fs.owner), fs.tab, fs.owner, i);
    }
    return true, |src|;
  }

  // ----- filewrite

  /** Seven blocks at most: bit map, inode, indirect block and four data blocks. */
  lemma AtMostSeven(logged: set<nat>, was: set<nat>, sb: Super, t: seq<Uint>, off: nat, n: nat, inode: nat)
    requires |t| == NSLOTS && off + n <= MAXFILE * BSIZE && n <= 3 * BSIZE && sb.size < BPB
    requires LogsOnly(logged, was, sb, t, off / BSIZE, LastBlock(off, n)) && was <= {inode}
    ensures |logged| <= 7
  {
    var lo := off / BSIZE;
    assert LastBlock(off, n) <= lo + 4;
    var d: seq<nat> := [BlockAt(t, lo), BlockAt(t, lo + 1), BlockAt(t, lo + 2), BlockAt(t, lo + 3)];
    var ind: nat := t[INDIRECT];
    var most: set<nat> := {inode, sb.bmapstart, ind, d[0], d[1], d[2], d[3]};
    forall b | b in logged ensures b in most {
      if b != inode && !IsBitmap(sb, b) && b != t[INDIRECT] {
        var bn :| lo <= bn < LastBlock(off, n) && t[DataSlot(bn)] == b != 0;
        assert b == d[bn - lo];
      }
    }
    Bigger(logged, most);
    Seven(inode, sb.bmapstart, ind, d[0], d[1], d[2], d[3]);
  }

  function BlockAt(t: seq<Uint>, bn: nat): nat
    requires |t| == NSLOTS
  {
    if bn < MAXFILE then t[DataSlot(bn)] else 0
  }

  lemma Bigger(a: set<nat>, b: set<nat>)
    requires a <= b
    ensures |a| <= |b|
  {
    assert b == a + (b - a);
  }

  lemma Seven(a: nat, b: nat, c: nat, d: nat, e: nat, f: nat, g: nat)
    ensures |{a, b, c, d, e, f, g}| <= 7
  {
  }

  /** One operation of filewrite(), between begin_op() and end_op(). */
  method WriteOp(fs: Fs, i: nat, src: seq<Byte>, off: Uint, ghost c: seq<Byte>) returns (ok: bool, r: int)
    requires fs.Valid() && i < |fs.node| && fs.node[i].kind != T_DEV && |src| <= 3 * BSIZE
    requires Holds(fs.dev, fs.tab[i], c) && |c| == fs.node[i].size
    modifies fs
    ensures !ok ==> Full(fs.dev, fs.sb)
    ensures ok ==> fs.Valid() && |fs.node| == |fs.tab| == |old(fs.node)| && fs.node[i].kind != T_DEV
    ensures ok ==> Touched(old(fs.dev), old(fs.tab), old(fs.owner), fs.dev, fs.tab, fs.owner, i)
    ensures ok ==> (fs.sb.size < BPB ==> |fs.logged| <= 7)
    ensures ok && (off > |c| || off + |src| > MAXFILE * BSIZE) ==>
              r == -1 && Holds(fs.dev, fs.tab[i], c) && fs.node[i].size == |c|
    ensures ok && off <= |c| && off + |src| <= MAXFILE * BSIZE ==>
              r == |src| && Holds(fs.dev, fs.tab[i], Splice(c, off, src)) && fs.node[i].size == |Splice(c, off, src)|
  {
    hide FsOk, Holds, Touched, LogsOnly, Splice;
    Relax(fs.dev, fs.sb, fs.node, fs.tab, fs.owner, i);
    TouchedRefl(fs.dev, fs.tab, fs.owner, i);
    fs.logged := {};
    ok, r := WriteI(fs, i, src, off, c);
    if ok {
      Relax(fs.dev, fs.sb, fs.node, fs.tab, fs.owner, i);
      if fs.sb.size < BPB && r >= 0 {
        AtMostSeven(fs.logged, {} + {i / IPB + fs.sb.inodestart}, fs.sb, fs.tab[i], off, |src|,
                    i / IPB + fs.sb.inodestart);
      }
    }
  }

  /** What filewrite() has made of the contents after n bytes. */
  function Written(c: seq<Byte>, off: nat, src: seq<Byte>, n: nat): seq<Byte>
    requires n <= |src|
  {
    if off <= |c| then Splice(c, off, src[..n]) else c
  }

  /** How many of n bytes the next operation of filewrite() takes. */
  function Chunk(n: nat): nat {
    if n > 3 * BSIZE then 3 * BSIZE else n
  }

  /** One turn of filewrite()'s loop, n bytes into the source. */
  method WriteTurn(fs: Fs, i: nat, src: seq<Byte>, n: nat, n1: nat, off: Uint, ghost off0: nat,
                   ghost c: seq<Byte>)
    returns (ok: bool, w: int)
    requires fs.Valid() && i < |fs.node| && fs.node[i].kind != T_DEV && 0 < n1 <= 3 * BSIZE && n + n1 <= |src|
    requires off == off0 + n && i < |fs.tab| && Holds(fs.dev, fs.tab[i], Written(c, off0, src, n))
    requires fs.node[i].size == |Written(c, off0, src, n)|
    modifies fs
    ensures !ok ==> Full(fs.dev, fs.sb)
    ensures ok ==> fs.Valid() && |fs.node| == |fs.tab| == |old(fs.node)| && fs.node[i].kind != T_DEV
    ensures ok ==> Touched(old(fs.dev), old(fs.tab), old(fs.owner), fs.dev, fs.tab, fs.owner, i)
    ensures ok ==> (fs.sb.size < BPB ==> |fs.logged| <= 7)
    ensures ok ==> w == if off0 > |c| || off + n1 > MAXFILE * BSIZE then -1 else n1
    ensures ok ==>
              var n' := if w < 0 then n else n + n1;
              Holds(fs.dev, fs.tab[i], Written(c, off0, src, n')) && fs.node[i].size == |Written(c, off0, src, n')|
  {
    hide FsOk, Holds, Touched, Written, Splice;
    WrittenSize(c, off0, src, n);
    ok, w := WriteOp(fs, i, src[n..n + n1], off, Written(c, off0, src, n));
    if ok && off0 <= |c| {
      WrittenMore(c, off0, src, n, n1);
    }
  }

  /** filewrite() gets through done of len bytes in n operations. */
  ghost predicate Through(size: nat, off: nat, len: nat, done: nat, n: nat) {
    && done <= len && (done == len <==> len == 0 || (off <= size && off + len <= MAXFILE * BSIZE))
    && (off > size ==> done == 0)
    && (done < len && off <= size ==>
          done == 1536 * n && off + done <= MAXFILE * BSIZE < off + done + Chunk(len - done))
  }

  lemma Stops(size: nat, off: nat, len: nat, done: nat, n: nat)
    requires size <= MAXFILE * BSIZE && done < len && (done > 0 ==> off <= size && off + done <= MAXFILE * BSIZE)
    requires done == 1536 * n && (off > size || off + done + Chunk(len - done) > MAXFILE * BSIZE)
    ensures Through(size, off, len, done, n)
  {
  }

  lemma GoesThrough(size: nat, off: nat, len: nat, n: nat)
    requires len > 0 ==> off <= size && off + len <= MAXFILE * BSIZE
    ensures Through(size, off, len, len, n)
  {
  }

  /** filewrite()'s loop. */
  method FileLoop(fs: Fs, i: nat, off0: Uint, src: seq<Byte>, ghost c: seq<Byte>)
    returns (ok: bool, n: nat, ghost ops: seq<set<nat>>)
    requires fs.Valid() && i < |fs.node| && fs.node[i].kind != T_DEV && |src| < 0x8000_0000
    requires Holds(fs.dev, fs.tab[i], c) && |c| == fs.node[i].size
    modifies fs
    ensures !ok ==> Full(fs.dev, fs.sb)
    ensures ok ==>
              && fs.Valid() && n <= |src| && i < |fs.node| && i < |fs.tab| && off0 + n < 0x1_0000_0000
              && Holds(fs.dev, fs.tab[i], Written(c, off0, src, n)) && fs.node[i].size == |Written(c, off0, src, n)|
              && Touched(old(fs.dev), old(fs.tab), old(fs.owner), fs.dev, fs.tab, fs.owner, i)
              && Through(|c|, off0, |src|, n, |ops|)
    ensures fs.sb.size < BPB ==> forall k :: 0 <= k < |ops| ==> |ops[k]| <= 7
  {
    hide FsOk, Holds, Touched, Written, Splice, Through;
    var max := (MAXOPBLOCKS - 1 - 1 - 2) / 2 * 512;
    Relax(fs.dev, fs.sb, fs.node, fs.tab, fs.owner, i);
    Bounded(fs.dev, fs.tab[i], c);
    TouchedRefl(fs.dev, fs.tab, fs.owner, i);
    WrittenNone(c, off0, src);
    ok, ops, n := true, [], 0;
    while n < |src|
      invariant 0 <= n <= |src| && (n < |src| ==> n == 1536 * |ops|) && fs.Valid() && ok
      invariant |fs.node| == |fs.tab| == |old(fs.node)| && fs.node[i].kind != T_DEV
      invariant Holds(fs.dev, fs.tab[i], Written(c, off0, src, n)) && fs.node[i].size == |Written(c, off0, src, n)|
      invariant n > 0 ==> off0 <= |c| && off0 + n <= MAXFILE * BSIZE
      invariant Touched(old(fs.dev), old(fs.tab), old(fs.owner), fs.dev, fs.tab, fs.owner, i)
      invariant fs.sb.size < BPB ==> forall k :: 0 <= k < |ops| ==> |ops[k]| <= 7
    {
      var n1 := if |src| - n > max then max else |src| - n;
      ghost var dev1, tab1, owner1 := fs.dev, fs.tab, fs.owner;
      var w: int;
      ok, w := WriteTurn(fs, i, src, n, n1, off0 + n, off0, c);
      if !ok { return; }
      TouchedTrans(old(fs.dev), old(fs.tab), old(fs.owner), dev1, tab1, owner1, fs.dev, fs.tab, fs.owner, i);
      if w < 0 {
        Stops(|c|, off0, |src|, n, |ops|);
        return;
      }
      ops := ops + [fs.logged];
      n := n + n1;
    }
    GoesThrough(|c|, off0, |src|, |ops|);
  }

  /** filewrite() on an inode: in operations of at most three blocks' bytes, each within
      the log's budget; it stops early only where writei() refuses. */
  method FileWrite(fs: Fs, i: nat, off0: Uint, src: seq<Byte>, ghost c: seq<Byte>)
    returns (ok: bool, r: int, off: Uint, ghost done: nat, ghost ops: seq<set<nat>>)
    requires fs.Valid() && i < |fs.node| && fs.node[i].kind != T_DEV && |src| < 0x8000_0000
    requires Holds(fs.dev, fs.tab[i], c) && |c| == fs.node[i].size
    modifies fs
    ensures !ok ==> Full(fs.dev, fs.sb)
    ensures ok ==>
              && fs.Valid() && done <= |src| && off == off0 + done && i < |fs.node| && i < |fs.tab|
              && r == (if done == |src| then |src| else -1)
              && Holds(fs.dev, fs.tab[i], if off0 <= |c| then Splice(c, off0, src[..done]) else c)
              && fs.node[i].size == (if off0 <= |c| && off0 + done > |c| then off0 + done else |c|)
              && Touched(old(fs.dev), old(fs.tab), old(fs.owner), fs.dev, fs.tab, fs.owner, i)
              && (done == |src| <==> |src| == 0 || (off0 <= |c| && off0 + |src| <= MAXFILE * BSIZE))
              && (off0 > |c| ==> done == 0)
              && (done < |src| && off0 <= |c| ==>
                    && done == 1536 * |ops|
                    && off0 + done <= MAXFILE * BSIZE < off0 + done + 1536 && MAXFILE * BSIZE < off0 + |src|)
    ensures fs.sb.size < BPB ==> forall k :: 0 <= k < |ops| ==> |ops[k]| <= 7 < MAXOPBLOCKS
  {
    hide FsOk, Holds, Touched, Written, Splice;
    off, r, done := off0, -1, 0;
    var n: nat;
    ok, n, ops := FileLoop(fs, i, off0, src, c);
    if !ok { return; }
    WrittenSize(c, off0, src, n);
    off, r, done := off0 + n, if n == |src| then n else -1, n;
  }

  lemma Bounded(dev: Disk, t: seq<Uint>, c: seq<Byte>)
    requires Holds(dev, t, c)
    ensures |c| <= MAXFILE * BSIZE
  {
  }

  lemma WrittenSize(c: seq<Byte>, off: nat, src: seq<Byte>, n: nat)
    requires n <= |src|
    ensures Written(c, off, src, n) == if off <= |c| then Splice(c, off, src[..n]) else c
    ensures |Written(c, off, src, n)| == if off <= |c| && off + n > |c| then off + n else |c|
  {
  }

  lemma WrittenNone(c: seq<Byte>, off: nat, src: seq<Byte>)
    ensures Written(c, off, src, 0) == c
  {
  }

  lemma WrittenMore(c: seq<Byte>, off: nat, src: seq<Byte>, n: nat, m: nat)
    requires n + m <= |src| && 0 < m && off + n <= |Written(c, off, src, n)|
    ensures Splice(Written(c, off, src, n), off + n, src[n..n + m]) == Written(c, off, src, n + m)
  {
  }
}
