/** The buffer cache of bio.c over the memory disk of memide.c. A buffer is an
    index into bcache.buf; index NBUF is the sentinel bcache.head. */
module BufferCache {
  import opened Blocks
  import opened Common
  import opened Wal
  import opened Ring

  const NBUF := 3 * MAXOPBLOCKS

  datatype Buf = Buf(dev: nat, blockno: nat, valid: bool, dirty: bool, refcnt: nat, locked: bool, data: Block) {
    predicate Caches(d: nat, b: nat) {
      dev == d && blockno == b
    }

    /** bget's test for a buffer that may be recycled. */
    predicate Recyclable() {
      refcnt == 0 && !dirty
    }
  }

  /** The ring holds the sentinel first and then every buffer once. */
  ghost predicate RingOfAll(next: seq<nat>, prev: seq<nat>, ring: seq<nat>, pos: seq<nat>) {
    && |next| == NBUF + 1 && |ring| == NBUF + 1
    && Linked(next, prev, ring, pos)
    && ring[0] == NBUF
    && forall b :: 0 <= b <= NBUF ==> pos[b] <= NBUF && ring[pos[b]] == b
  }

  /** From the front of the ring to its back, buffers were released longer ago. */
  ghost predicate ByRelease(ring: seq<nat>, stamp: seq<nat>, clock: nat)
    requires |ring| == NBUF + 1 && |stamp| == NBUF
  {
    && (forall i :: 1 <= i <= NBUF ==> ring[i] < NBUF && stamp[ring[i]] < clock)
    && (forall i, j :: 1 <= i < j <= NBUF ==> ring[i] < NBUF && ring[j] < NBUF && stamp[ring[j]] < stamp[ring[i]])
  }

  /** A block of a device other than 0 has at most one buffer. */
  ghost predicate OneBuffer(buf: seq<Buf>) {
    forall i, j :: 0 <= i < j < |buf| && buf[i].dev != 0 ==> !buf[j].Caches(buf[i].dev, buf[i].blockno)
  }

  ghost predicate BufOk(b: Buf) {
    (b.dirty ==> b.valid) && (b.locked ==> b.refcnt > 0) && (b.valid ==> b.dev == 1)
  }

  /** cur is what each block reads as; at says which buffer holds it. An unlocked,
      valid, clean buffer equals its disk block. */
  ghost predicate Agrees(buf: seq<Buf>, disk: Disk, cur: seq<Block>, at: seq<int>) {
    && |cur| == |at| == |disk|
    && (forall i :: 0 <= i < |buf| ==> BufOk(buf[i]))
    && (forall i :: 0 <= i < |buf| && buf[i].valid ==>
          && buf[i].blockno < |disk| && at[buf[i].blockno] == i && cur[buf[i].blockno] == buf[i].data
          && (buf[i].dirty || buf[i].locked || buf[i].data == disk[buf[i].blockno]))
    && (forall b :: 0 <= b < |disk| ==>
          if at[b] == -1 then cur[b] == disk[b]
          else 0 <= at[b] < |buf| && buf[at[b]].valid && buf[at[b]].blockno == b)
  }

  /** Two buffers can be recycled. */
  ghost predicate Spare(buf: seq<Buf>) {
    exists i, j :: 0 <= i < j < |buf| && buf[i].Recyclable() && buf[j].Recyclable()
  }

  /** What could be recycled still can. */
  ghost predicate StillSpare(buf: seq<Buf>, buf': seq<Buf>) {
    |buf'| == |buf| && forall i :: 0 <= i < |buf| && buf[i].Recyclable() ==> buf'[i].Recyclable()
  }

  /** One more user of buffer i, which caches the block and is locked. */
  ghost predicate Waits(buf: seq<Buf>, buf': seq<Buf>, i: nat, dev: nat, blockno: nat) {
    && i < |buf| && buf[i].Caches(dev, blockno) && buf[i].locked
    && buf' == buf[i := buf[i].(refcnt := buf[i].refcnt + 1)]
  }

  lemma SpareStays(buf: seq<Buf>, buf': seq<Buf>)
    requires StillSpare(buf, buf')
    ensures Spare(buf) ==> Spare(buf')
  {
  }

  class BCache {
    var disk: Disk
    var buf: seq<Buf>
    var next: seq<nat>
    var prev: seq<nat>

    ghost var ring: seq<nat>
    ghost var pos: seq<nat>
    ghost var stamp: seq<nat>     // when each buffer was last put at the front
    ghost var clock: nat
    ghost var cur: seq<Block>
    ghost var at: seq<int>
    ghost var disk0: Disk         // the disk at boot
    ghost var writes: seq<Write>  // every block write since

    ghost predicate Valid()
      reads this
    {
      && |buf| == |stamp| == NBUF
      && RingOfAll(next, prev, ring, pos)
      && ByRelease(ring, stamp, clock)
      && OneBuffer(buf)
      && Agrees(buf, disk, cur, at)
      && disk == Apply(disk0, writes)
    }

    ghost predicate Unlocked()
      reads this
      requires |buf| == NBUF
    {
      forall i :: 0 <= i < NBUF ==> !buf[i].locked
    }

    /** Nobody holds a buffer. */
    ghost predicate Idle()
      reads this
    {
      Valid() && Unlocked() && |cur| == |disk|
    }

    constructor (d: Disk)
      ensures Idle()
      ensures disk == cur == disk0 == d && writes == []
      ensures forall i :: 0 <= i < NBUF ==> buf[i] == Buf(0, 0, false, false, 0, false, ZeroBlock())
    {
      disk, cur, disk0, writes := d, d, d, [];
      at := seq(|d|, _ => -1);
      buf := seq(NBUF, _ => Buf(0, 0, false, false, 0, false, ZeroBlock()));
      clock := NBUF;
      stamp := seq(NBUF, i => i);
      var nx, pv, cyc, ps := Binit();
      next, prev, ring, pos := nx, pv, cyc, ps;
    }

    /** The loop of binit(): each buffer in turn goes to the front of the ring. */
    static method Binit() returns (next: seq<nat>, prev: seq<nat>, ghost ring: seq<nat>, ghost pos: seq<nat>)
      ensures RingOfAll(next, prev, ring, pos)
      ensures forall i :: 1 <= i <= NBUF ==> ring[i] == NBUF - i
      ensures |next| == |prev| == NBUF + 1
      ensures forall b :: 0 <= b <= NBUF ==>
                next[b] == (if b > 0 then b - 1 else NBUF) && prev[b] == if b < NBUF then b + 1 else 0
    {
      next, prev := seq(NBUF + 1, _ => NBUF), seq(NBUF + 1, _ => NBUF);
      ring, pos := [NBUF], seq(NBUF + 1, _ => 0);
      for b := 0 to NBUF
        invariant |next| == NBUF + 1 && |ring| == b + 1
        invariant Linked(next, prev, ring, pos)
        invariant ring[0] == NBUF && forall i :: 1 <= i <= b ==> ring[i] == b - i
      {
        LinkFirst(next, prev, ring, pos, b);
        next, prev := next[b := next[NBUF]][NBUF := b], prev[b := NBUF][next[NBUF] := b];
        ring, pos := Insert(ring, 1, b), PosInsert(pos, 1, b);
      }
      forall x | 0 <= x <= NBUF ensures pos[x] <= NBUF && ring[pos[x]] == x {
        assert x < NBUF ==> ring[NBUF - x] == x;
      }
      forall b | 0 <= b <= NBUF
        ensures next[b] == (if b > 0 then b - 1 else NBUF) && prev[b] == if b < NBUF then b + 1 else 0
      {
        var i := if b == NBUF then 0 else NBUF - b;
        assert ring[i] == b && next[ring[i]] == (if i < NBUF then ring[i + 1] else NBUF);
        assert prev[ring[i]] == if i > 0 then ring[i - 1] else ring[NBUF];
      }
    }

    /** The first loop of bget(): the buffer of the block, or NBUF. */
    method FindCached(dev: nat, blockno: nat) returns (b: nat)
      requires Valid()
      ensures b <= NBUF
      ensures b < NBUF ==> buf[b].Caches(dev, blockno)
      ensures b == NBUF ==> forall i :: 0 <= i < NBUF ==> !buf[i].Caches(dev, blockno)
    {
      b := next[NBUF];
      assert next[ring[0]] == ring[1];
      ghost var k := 1;
      while b != NBUF && !buf[b].Caches(dev, blockno)
        invariant 1 <= k <= NBUF + 1 && b == if k <= NBUF then ring[k] else NBUF
        invariant forall j :: 1 <= j < k ==> !buf[ring[j]].Caches(dev, blockno)
        decreases NBUF + 1 - k
      {
        assert next[ring[k]] == if k + 1 < |ring| then ring[k + 1] else ring[0];
        b := next[b];
        k := k + 1;
      }
      if b == NBUF {
        assert pos[b] == 0;
        forall i | 0 <= i < NBUF ensures !buf[i].Caches(dev, blockno) {
          assert ring[pos[i]] == i;
        }
      }
    }

    /** The second loop of bget(): the recyclable buffer released longest ago, or NBUF. */
    method FindVictim() returns (b: nat)
      requires Valid()
      ensures b <= NBUF
      ensures b < NBUF ==> buf[b].Recyclable()
      ensures b < NBUF ==> forall i :: 0 <= i < NBUF && buf[i].Recyclable() ==> stamp[b] <= stamp[i]
      ensures b == NBUF ==> forall i :: 0 <= i < NBUF ==> !buf[i].Recyclable()
    {
      b := prev[NBUF];
      assert prev[ring[0]] == ring[NBUF];
      ghost var k := NBUF;
      while b != NBUF && !buf[b].Recyclable()
        invariant 0 <= k <= NBUF && b == ring[k]
        invariant forall j :: k < j <= NBUF ==> !buf[ring[j]].Recyclable()
        decreases k
      {
        assert k > 0 && prev[ring[k]] == ring[k - 1];
        b := prev[b];
        k := k - 1;
      }
      assert b == NBUF ==> pos[ring[k]] == k;
      forall i | 0 <= i < NBUF ensures buf[i].Recyclable() ==> k != 0 && pos[i] <= k {
        assert ring[pos[i]] == i;
      }
    }

    /** The region of bget() under bcache.lock. -1 stands for its panic. */
    method Bget(dev: nat, blockno: nat) returns (r: int)
      requires Valid()
      modifies this`buf, this`at
      ensures Valid()
      ensures -1 <= r < NBUF
      ensures r >= 0 && old(buf[r]).Caches(dev, blockno) ==>
                buf == old(buf)[r := old(buf)[r].(refcnt := old(buf)[r].refcnt + 1)] && at == old(at)
      ensures r >= 0 && !old(buf[r]).Caches(dev, blockno) ==>
                && (forall i :: 0 <= i < NBUF ==> !old(buf[i]).Caches(dev, blockno))
                && old(buf[r]).Recyclable()
                && (forall i :: 0 <= i < NBUF && old(buf[i]).Recyclable() ==> stamp[r] <= stamp[i])
                && buf == old(buf)[r := Buf(dev, blockno, false, false, 1, false, old(buf[r]).data)]
      ensures r == -1 ==>
                && buf == old(buf) && at == old(at)
                && forall i :: 0 <= i < NBUF ==> !buf[i].Caches(dev, blockno) && !buf[i].Recyclable()
    {
      hide RingOfAll, ByRelease, Apply;
      var b := FindCached(dev, blockno);
      if b < NBUF {
        RefUp(buf, disk, cur, at, b);
        buf := buf[b := buf[b].(refcnt := buf[b].refcnt + 1)];
        return b;
      }
      b := FindVictim();
      if b < NBUF {
        Recycle(buf, disk, cur, at, b, dev, blockno);
        if buf[b].valid { at := at[buf[b].blockno := -1]; }
        buf := buf[b := Buf(dev, blockno, false, false, 1, false, buf[b].data)];
        return b;
      }
      return -1;
    }

    /** acquiresleep(), once the lock is free. */
    method Acquire(b: nat)
      requires Valid() && b < NBUF && !buf[b].locked && buf[b].refcnt > 0
      modifies this`buf
      ensures Valid() && buf == old(buf)[b := old(buf)[b].(locked := true)]
    {
      hide RingOfAll, ByRelease, OneBuffer;
      Change(buf, disk, cur, at, b, true, buf[b].dirty, buf[b].data);
      buf := buf[b := buf[b].(locked := true)];
    }

    /** iderw() on a buffer that is not valid: read the block. False is its panic. */
    method ReadIn(b: nat) returns (ok: bool)
      requires Valid() && b < NBUF && buf[b].locked && !buf[b].valid && !buf[b].dirty
      modifies this`buf, this`at
      ensures Valid()
      ensures ok <==> old(buf)[b].dev == 1 && old(buf)[b].blockno < |disk|
      ensures ok ==> buf == old(buf)[b := old(buf)[b].(valid := true, data := cur[old(buf)[b].blockno])]
      ensures ok ==> cur[old(buf)[b].blockno] == disk[old(buf)[b].blockno]
      ensures !ok ==> buf == old(buf)
    {
      hide RingOfAll, ByRelease, OneBuffer;
      ok := buf[b].dev == 1 && buf[b].blockno < |disk|;
      if ok {
        Fill(buf, disk, cur, at, b);
        at := at[buf[b].blockno := b];
        buf := buf[b := buf[b].(valid := true, data := disk[buf[b].blockno])];
      }
    }

    /** bread(): the locked buffer of a block, holding what the block reads as. -1 is a
        panic; -2 is going to sleep in acquiresleep(), a user of the buffer already. */
    method Bread(dev: nat, blockno: nat) returns (r: int)
      requires Valid()
      modifies this`buf, this`at
      ensures Valid() && -2 <= r < NBUF
      ensures r == -2 ==> at == old(at) && exists i :: Waits(old(buf), buf, i, dev, blockno)
      ensures r >= 0 ==>
                && dev == 1 && blockno < |disk| && !old(buf[r]).locked
                && buf[r] == Buf(1, blockno, true, old(buf[r]).Caches(1, blockno) && old(buf[r]).dirty,
                                 buf[r].refcnt, true, cur[blockno])
                && (buf[r].dirty || buf[r].data == disk[blockno])
                && buf[r].refcnt == 1 + (if old(buf[r]).Caches(1, blockno) then old(buf[r]).refcnt else 0)
                && (!old(buf[r]).Caches(1, blockno) ==> old(buf[r]).Recyclable())
                && forall i :: 0 <= i < NBUF && i != r ==> buf[i] == old(buf[i])
      ensures r == -1 ==>
                || dev != 1 || blockno >= |disk|
                || forall i :: 0 <= i < NBUF ==> !old(buf[i]).Caches(dev, blockno) && !old(buf[i]).Recyclable()
    {
      hide RingOfAll, ByRelease, OneBuffer, Apply;
      r := Bget(dev, blockno);
      if r == -1 { return; }
      if buf[r].locked {
        assert Waits(old(buf), buf, r, dev, blockno);
        return -2;
      }
      Acquire(r);
      if !buf[r].valid {
        var ok := ReadIn(r);
        if !ok { return -1; }
      }
    }

    /** The holder of the lock stores new contents. */
    method Store(b: nat, data: Block)
      requires Valid() && b < NBUF && buf[b].locked && buf[b].valid
      modifies this`buf, this`cur
      ensures Valid()
      ensures buf == old(buf)[b := old(buf)[b].(data := data)]
      ensures cur == old(cur)[old(buf)[b].blockno := data]
    {
      hide RingOfAll, ByRelease, OneBuffer;
      Change(buf, disk, cur, at, b, true, buf[b].dirty, data);
      cur := cur[buf[b].blockno := data];
      buf := buf[b := buf[b].(data := data)];
    }

    /** b->flags |= B_DIRTY: from now on bget() will not recycle the buffer. */
    method MarkDirty(b: nat)
      requires Valid() && b < NBUF && buf[b].locked && buf[b].valid
      modifies this`buf
      ensures Valid() && buf == old(buf)[b := old(buf)[b].(dirty := true)]
    {
      hide RingOfAll, ByRelease, OneBuffer;
      Change(buf, disk, cur, at, b, true, true, buf[b].data);
      buf := buf[b := buf[b].(dirty := true)];
    }

    /** bwrite(): mark dirty, and iderw() writes the block and marks it clean. */
    method Bwrite(b: nat)
      requires Valid() && b < NBUF && buf[b].locked && buf[b].valid
      modifies this`buf, this`disk, this`writes
      ensures Valid()
      ensures buf == old(buf)[b := old(buf)[b].(dirty := false)]
      ensures disk == old(disk)[old(buf)[b].blockno := old(buf)[b].data]
      ensures writes == old(writes) + [Write(old(buf)[b].blockno, old(buf)[b].data)]
    {
      hide RingOfAll, ByRelease, OneBuffer, Agrees, Apply;
      WriteOut(buf, disk, cur, at, b);
      ApplyAppend(disk0, writes, Write(buf[b].blockno, buf[b].data));
      disk := disk[buf[b].blockno := buf[b].data];
      writes := writes + [Write(buf[b].blockno, buf[b].data)];
      buf := buf[b := buf[b].(dirty := false)];
    }

    /** brelse(). The cache stays in order iff the holder passed changed contents to
        bwrite or to log_write, which keeps a clean cached block equal to the disk. */
    method Brelse(b: nat)
      requires Valid() && b < NBUF && buf[b].locked && buf[b].valid
      modifies this`buf, this`next, this`prev, this`ring, this`pos, this`stamp, this`clock
      ensures Valid() <==> old(buf)[b].dirty || old(buf)[b].data == disk[old(buf)[b].blockno]
      ensures buf == old(buf)[b := old(buf)[b].(locked := false, refcnt := old(buf)[b].refcnt - 1)]
      ensures if buf[b].refcnt > 0 then ring == old(ring) && stamp == old(stamp)
              else
                && old(1 <= pos[b] <= NBUF) && ring == ToFront(old(ring), old(pos[b]))
                && stamp == old(stamp)[b := old(clock)]
    {
      hide RingOfAll, ByRelease, OneBuffer, Apply, ToFront;
      Unlock(buf, disk, cur, at, b);
      buf := buf[b := buf[b].(locked := false, refcnt := buf[b].refcnt - 1)];
      if buf[b].refcnt == 0 {
        MakeRecent(b);
      }
    }

    /** The pointer updates of brelse(): b goes to the head of the MRU list. */
    method MakeRecent(b: nat)
      requires |stamp| == NBUF && RingOfAll(next, prev, ring, pos) && ByRelease(ring, stamp, clock) && b < NBUF
      modifies this`next, this`prev, this`ring, this`pos, this`stamp, this`clock
      ensures |stamp| == NBUF && RingOfAll(next, prev, ring, pos) && ByRelease(ring, stamp, clock)
      ensures old(1 <= pos[b] <= NBUF) && ring == ToFront(old(ring), old(pos[b]))
      ensures stamp == old(stamp)[b := old(clock)]
    {
      MoveToFront(next, prev, ring, pos, b);
      Restamp(ring, stamp, clock, pos[b], b);
      prev := prev[next[b] := prev[b]];
      next := next[prev[b] := next[b]];
      next := next[b := next[NBUF]];
      prev := prev[b := NBUF];
      prev := prev[next[NBUF] := b];
      next := next[NBUF := b];
      ring, pos := ToFront(ring, pos[b]), PosInsert(PosWithout(pos, pos[b]), 1, b);
      stamp, clock := stamp[b := clock], clock + 1;
    }
  }

  ghost function ToFront(ring: seq<nat>, k: nat): (r: seq<nat>)
    requires 1 <= k < |ring|
    ensures |r| == |ring|
  {
    Insert(Without(ring, k), 1, ring[k])
  }

  lemma MoveToFront(next: seq<nat>, prev: seq<nat>, ring: seq<nat>, pos: seq<nat>, b: nat)
    requires RingOfAll(next, prev, ring, pos) && b < NBUF
    ensures 1 <= pos[b] < |ring| && next[b] <= NBUF && prev[b] <= NBUF
    ensures
      var n1, p1 := next[prev[b] := next[b]], prev[next[b] := prev[b]];
      && n1[NBUF] <= NBUF
      && RingOfAll(n1[b := n1[NBUF]][NBUF := b], p1[b := NBUF][n1[NBUF] := b],
                   ToFront(ring, pos[b]), PosInsert(PosWithout(pos, pos[b]), 1, b))
  {
    var k := pos[b];
    assert ring[k] == b;
    Unlink(next, prev, ring, pos, k);
    var n1, p1, ring1, pos1 := next[prev[b] := next[b]], prev[next[b] := prev[b]], Without(ring, k), PosWithout(pos, k);
    forall i | 0 <= i < |ring1| ensures ring1[i] != b {
      assert ring1[i] == ring[if i < k then i else i + 1];
    }
    LinkFirst(n1, p1, ring1, pos1, b);
    MovedIsAll(ring, pos, k);
  }

  lemma MovedIsAll(ring: seq<nat>, pos: seq<nat>, k: nat)
    requires |ring| == |pos| == NBUF + 1 && 1 <= k <= NBUF
    requires forall b :: 0 <= b <= NBUF ==> pos[b] <= NBUF && ring[pos[b]] == b
    requires ring[k] <= NBUF && pos[ring[k]] == k
    ensures
      var pos' := PosInsert(PosWithout(pos, k), 1, ring[k]);
      forall b :: 0 <= b <= NBUF ==> pos'[b] <= NBUF && ToFront(ring, k)[pos'[b]] == b
  {
  }

  lemma Restamp(ring: seq<nat>, stamp: seq<nat>, clock: nat, k: nat, b: nat)
    requires |ring| == NBUF + 1 && |stamp| == NBUF && ByRelease(ring, stamp, clock)
    requires 1 <= k <= NBUF && ring[k] == b < NBUF
    ensures ByRelease(ToFront(ring, k), stamp[b := clock], clock + 1)
  {
    var ring', stamp' := ToFront(ring, k), stamp[b := clock];
    forall i | 1 <= i <= NBUF ensures ring'[i] == ring[if i == 1 then k else if i <= k then i - 1 else i] {
    }
    forall i, j | 1 <= i < j <= NBUF
      ensures ring'[i] < NBUF && ring'[j] < NBUF && stamp'[ring'[j]] < stamp'[ring'[i]]
    {
      var i0 := if i == 1 then k else if i <= k then i - 1 else i;
      var j0 := if j <= k then j - 1 else j;
      assert ring'[i] == ring[i0] && ring'[j] == ring[j0];
    }
  }

  lemma RefUp(buf: seq<Buf>, disk: Disk, cur: seq<Block>, at: seq<int>, b: nat)
    requires OneBuffer(buf) && Agrees(buf, disk, cur, at) && b < |buf|
    ensures
      var buf' := buf[b := buf[b].(refcnt := buf[b].refcnt + 1)];
      OneBuffer(buf') && Agrees(buf', disk, cur, at)
  {
  }

  lemma Recycle(buf: seq<Buf>, disk: Disk, cur: seq<Block>, at: seq<int>, b: nat, dev: nat, blockno: nat)
    requires OneBuffer(buf) && Agrees(buf, disk, cur, at) && b < |buf| && buf[b].Recyclable()
    requires forall i :: 0 <= i < |buf| ==> !buf[i].Caches(dev, blockno)
    ensures
      var buf' := buf[b := Buf(dev, blockno, false, false, 1, false, buf[b].data)];
      var at' := if buf[b].valid then at[buf[b].blockno := -1] else at;
      OneBuffer(buf') && Agrees(buf', disk, cur, at')
  {
  }

  /** The holder's changes: taking the lock, marking dirty, storing data. */
  lemma Change(buf: seq<Buf>, disk: Disk, cur: seq<Block>, at: seq<int>, b: nat, locked: bool, dirty: bool, data: Block)
    requires OneBuffer(buf) && Agrees(buf, disk, cur, at) && b < |buf| && buf[b].refcnt > 0 && locked
    requires dirty ==> buf[b].valid
    ensures
      var buf' := buf[b := buf[b].(locked := locked, dirty := dirty, data := data)];
      var cur' := if buf[b].valid then cur[buf[b].blockno := data] else cur;
      OneBuffer(buf') && Agrees(buf', disk, cur', at)
  {
  }

  lemma Fill(buf: seq<Buf>, disk: Disk, cur: seq<Block>, at: seq<int>, b: nat)
    requires OneBuffer(buf) && Agrees(buf, disk, cur, at) && b < |buf|
    requires !buf[b].valid && buf[b].locked && buf[b].dev == 1 && buf[b].blockno < |disk|
    ensures cur[buf[b].blockno] == disk[buf[b].blockno]
    ensures
      var buf' := buf[b := buf[b].(valid := true, data := disk[buf[b].blockno])];
      OneBuffer(buf') && Agrees(buf', disk, cur, at[buf[b].blockno := b])
  {
  }

  lemma WriteOut(buf: seq<Buf>, disk: Disk, cur: seq<Block>, at: seq<int>, b: nat)
    requires OneBuffer(buf) && Agrees(buf, disk, cur, at) && b < |buf| && buf[b].valid && buf[b].locked
    ensures buf[b].blockno < |disk|
    ensures
      var buf' := buf[b := buf[b].(dirty := false)];
      OneBuffer(buf') && Agrees(buf', disk[buf[b].blockno := buf[b].data], cur, at)
  {
  }

  lemma Unlock(buf: seq<Buf>, disk: Disk, cur: seq<Block>, at: seq<int>, b: nat)
    requires OneBuffer(buf) && Agrees(buf, disk, cur, at) && b < |buf| && buf[b].valid && buf[b].locked
    ensures
      var buf' := buf[b := buf[b].(locked := false, refcnt := buf[b].refcnt - 1)];
      && OneBuffer(buf')
      && (Agrees(buf', disk, cur, at) <==> buf[b].dirty || buf[b].data == disk[buf[b].blockno])
  {
    var buf' := buf[b := buf[b].(locked := false, refcnt := buf[b].refcnt - 1)];
    assert buf'[b].valid && !buf'[b].locked;
  }
}
