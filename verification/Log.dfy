/** log.c over the buffer cache. Every block write goes through bwrite and is
    recorded in bc.writes, so a crash or a panic leaves some prefix of what
    these methods promise to write. A method that reaches a panic returns false. */
module Log {
  import opened Blocks
  import opened Wal
  import opened BufferCache

  const ROOTDEV := 1

  class Log {
    const bc: BCache
    const region: Region

    var lh: seq<nat>       // lh.block[0..lh.n]
    var outstanding: nat
    var committing: bool
    var asleep: set<nat>   // the processes that sleep on &log in begin_op()

    /** The cache is in order, log.start..+size is on disk, and nobody holds a buffer of
        the log or of a block in its header. */
    ghost predicate Quiet()
      reads this, bc
    {
      bc.Valid() && |bc.cur| == |bc.disk| && Loggable(region, |bc.disk|, lh) && Unheld(bc.buf, region, lh)
    }

    /** Nobody sleeps in begin_op() who would be let in. */
    predicate NoLostWakeup()
      reads this
    {
      !committing && Room(|lh|, outstanding) ==> asleep == {}
    }

    constructor (bc: BCache, region: Region)
      requires bc.Idle()
      requires 1 <= region.size && region.start + region.size <= |bc.disk|
      ensures this.bc == bc && this.region == region && Quiet()
      ensures lh == [] && outstanding == 0 && !committing && asleep == {}
    {
      this.bc, this.region := bc, region;
      lh, outstanding, committing, asleep := [], 0, false, {};
    }

    /** Two buffers held at once, read in this order. */
    method ReadBoth(a: nat, b: nat) returns (ra: int, rb: int)
      requires bc.Valid() && a != b && UnheldBlock(bc.buf, a) && UnheldBlock(bc.buf, b)
      modifies bc`buf, bc`at
      ensures bc.Valid() && -1 <= ra < NBUF && -1 <= rb < NBUF
      ensures rb >= 0 ==> ra >= 0 && ra != rb && a < |bc.disk| && b < |bc.disk|
      ensures rb >= 0 ==> Held(bc.buf[ra], a) && Held(bc.buf[rb], b)
      ensures rb >= 0 ==> Taken(old(bc.buf), bc.buf, ra, rb)
      ensures Spare(old(bc.buf)) && a < |bc.disk| && b < |bc.disk| ==> rb >= 0
    {
      hide RingOfAll, ByRelease, OneBuffer, Apply, Agrees;
      rb := -1;
      ra := bc.Bread(ROOTDEV, a);
      if ra >= 0 {
        rb := bc.Bread(ROOTDEV, b);
      }
    }

    /** A buffer as bread returns it. */
    ghost predicate Held(b: Buf, blockno: nat)
      reads bc
      requires blockno < |bc.disk| && blockno < |bc.cur|
    {
      && b.dev == 1 && b.blockno == blockno && b.valid && b.locked && b.data == bc.cur[blockno]
      && (b.dirty || b.data == bc.disk[blockno])
    }

    /** bwrite() of new contents. */
    method Overwrite(to: nat, data: Block, ghost t: nat)
      requires bc.Valid() && to < NBUF && t < |bc.disk| && Held(bc.buf[to], t)
      modifies bc`buf, bc`cur, bc`disk, bc`writes
      ensures bc.Valid() && bc.buf == old(bc.buf)[to := old(bc.buf)[to].(data := data, dirty := false)]
      ensures bc.cur == old(bc.cur)[t := data] && bc.disk == old(bc.disk)[t := data]
      ensures bc.writes == old(bc.writes) + [Write(t, data)]
    {
      hide RingOfAll, ByRelease, OneBuffer, Apply, Agrees;
      bc.Store(to, data);
      bc.Bwrite(to);
    }

    /** memmove(to->data, from->data); bwrite(to); brelse(from); brelse(to). */
    method Transfer(to: nat, from: nat, ghost t: nat, ghost f: nat)
      requires bc.Valid() && to < NBUF && from < NBUF && to != from && t < |bc.disk| && f < |bc.disk|
      requires Held(bc.buf[to], t) && Held(bc.buf[from], f)
      modifies bc
      ensures bc.Valid()
      ensures bc.cur == old(bc.cur)[t := old(bc.cur)[f]]
      ensures bc.disk == old(bc.disk)[t := old(bc.cur)[f]]
      ensures bc.writes == old(bc.writes) + [Write(t, old(bc.cur)[f])]
      ensures bc.disk0 == old(bc.disk0) && Returned(old(bc.buf), bc.buf, to, from)
    {
      hide RingOfAll, ByRelease, OneBuffer, Apply, ToFront;
      Overwrite(to, bc.buf[from].data, t);
      bc.Brelse(from);
      bc.Brelse(to);
    }

    /** Store new contents in a buffer held, bwrite it and brelse it. */
    method Finish(b: nat, data: Block, ghost blockno: nat)
      requires bc.Valid() && b < NBUF && blockno < |bc.disk| && Held(bc.buf[b], blockno)
      modifies bc
      ensures bc.Valid()
      ensures bc.cur == old(bc.cur)[blockno := data]
      ensures bc.disk == old(bc.disk)[blockno := data]
      ensures bc.writes == old(bc.writes) + [Write(blockno, data)]
      ensures bc.disk0 == old(bc.disk0) && Returned(old(bc.buf), bc.buf, b, b)
    {
      hide RingOfAll, ByRelease, OneBuffer, Apply, ToFront;
      Overwrite(b, data, blockno);
      bc.Brelse(b);
    }

    /** One turn of the loop of write_log(): cache block to log block. */
    method LogBlock(tail: nat) returns (ok: bool)
      requires Quiet() && tail < |lh|
      modifies bc
      ensures bc.Valid() && bc.disk0 == old(bc.disk0)
      ensures !ok ==> bc.writes == old(bc.writes)
      ensures ok ==> Quiet() && Copied(old(bc.cur), bc.cur, region.start + tail + 1, lh[tail])
      ensures ok ==> bc.writes == old(bc.writes) + [Write(region.start + tail + 1, old(bc.cur)[lh[tail]])]
      ensures (ok ==> StillSpare(old(bc.buf), bc.buf)) && (Spare(old(bc.buf)) ==> ok)
    {
      hide RingOfAll, ByRelease, OneBuffer, Apply;
      assert !region.Contains(lh[tail]);
      var to, from := ReadBoth(region.start + tail + 1, lh[tail]);
      if from < 0 { return false; }
      ghost var taken := bc.buf;
      Transfer(to, from, region.start + tail + 1, lh[tail]);
      GivenBack(old(bc.buf), taken, bc.buf, to, from, region, lh);
      return true;
    }

    /** write_log(): k log blocks reach the disk, all of them unless it panics. */
    method WriteLog(ghost vs: seq<Block>) returns (ok: bool, ghost k: nat)
      requires Quiet() && Contents(bc.cur, lh, vs)
      modifies bc
      ensures bc.Valid() && bc.disk0 == old(bc.disk0)
      ensures k <= |lh| && (ok ==> k == |lh|)
      ensures bc.writes == old(bc.writes) + LogWrites(region, vs, k)
      ensures ok ==> Quiet() && Kept(region, old(bc.cur), bc.cur)
      ensures ok ==> Logged(region, bc.cur, vs, |lh|)
      ensures (ok ==> StillSpare(old(bc.buf), bc.buf)) && (Spare(old(bc.buf)) ==> ok)
    {
      hide BCache.Valid, Unheld, Kept, Logged, Copied, Loggable, Spare;
      ghost var cur0 := bc.cur;
      LogStart(region, cur0, lh, vs);
      var tail := 0;
      while tail < |lh|
        invariant 0 <= tail <= |lh| && Quiet() && bc.disk0 == old(bc.disk0)
        invariant bc.writes == old(bc.writes) + LogWrites(region, vs, tail)
        invariant |bc.cur| == |cur0| && Kept(region, cur0, bc.cur)
        invariant Logged(region, bc.cur, vs, tail) && StillSpare(old(bc.buf), bc.buf)
      {
        ghost var cur1 := bc.cur;
        SpareStays(old(bc.buf), bc.buf);
        ok := LogBlock(tail);
        if !ok { return false, tail; }
        LogStep(region, cur0, cur1, bc.cur, lh, vs, tail);
        tail := tail + 1;
      }
      return true, tail;
    }

    /** write_head(): the in-memory header goes to disk in one block write. */
    method WriteHead() returns (ok: bool)
      requires Quiet()
      modifies bc
      ensures bc.Valid() && bc.disk0 == old(bc.disk0)
      ensures !ok ==> bc.writes == old(bc.writes)
      ensures ok ==> Quiet() && bc.cur == old(bc.cur)[region.start := PutHead(old(bc.cur)[region.start], lh)]
      ensures ok ==> bc.writes == old(bc.writes) + [Write(region.start, PutHead(old(bc.cur)[region.start], lh))]
      ensures (ok ==> StillSpare(old(bc.buf), bc.buf)) && (Spare(old(bc.buf)) ==> ok)
    {
      hide RingOfAll, ByRelease, OneBuffer, Apply, PutHead;
      var b := bc.Bread(ROOTDEV, region.start);
      if b < 0 { return false; }
      var hb := EncodeHead(bc.buf[b].data, lh);
      ghost var taken := bc.buf;
      Finish(b, hb, region.start);
      GivenBack(old(bc.buf), taken, bc.buf, b, b, region, lh);
      return true;
    }

    /** One turn of the loop of install_trans(): log block to home block. */
    method InstallBlock(tail: nat) returns (ok: bool)
      requires Quiet() && tail < |lh|
      modifies bc
      ensures bc.Valid() && bc.disk0 == old(bc.disk0)
      ensures !ok ==> bc.writes == old(bc.writes)
      ensures ok ==> Quiet() && Copied(old(bc.cur), bc.cur, lh[tail], region.start + tail + 1)
      ensures ok ==> bc.writes == old(bc.writes) + [Write(lh[tail], old(bc.cur)[region.start + tail + 1])]
      ensures (ok ==> StillSpare(old(bc.buf), bc.buf)) && (Spare(old(bc.buf)) ==> ok)
    {
      hide RingOfAll, ByRelease, OneBuffer, Apply;
      assert !region.Contains(lh[tail]);
      var lbuf, dbuf := ReadBoth(region.start + tail + 1, lh[tail]);
      if dbuf < 0 { return false; }
      ghost var taken := bc.buf;
      Transfer(dbuf, lbuf, lh[tail], region.start + tail + 1);
      GivenBack(old(bc.buf), taken, bc.buf, dbuf, lbuf, region, lh);
      return true;
    }

    /** install_trans(): k home blocks get their logged contents, all unless it panics. */
    method InstallTrans(ghost vs: seq<Block>) returns (ok: bool, ghost k: nat)
      requires Quiet() && |vs| == |lh| && Logged(region, bc.cur, vs, |lh|)
      modifies bc
      ensures bc.Valid() && bc.disk0 == old(bc.disk0)
      ensures k <= |lh| && (ok ==> k == |lh|)
      ensures bc.writes == old(bc.writes) + HomeWrites(lh, vs, k)
      ensures ok ==> Quiet() && |bc.cur| == |old(bc.cur)| && bc.cur[region.start] == old(bc.cur)[region.start]
      ensures ok ==> Homes(region, bc.cur) == Overlay(Homes(region, old(bc.cur)), lh, vs)
      ensures (ok ==> StillSpare(old(bc.buf), bc.buf)) && (Spare(old(bc.buf)) ==> ok)
    {
      hide Unheld, BCache.Valid, Copied, InstallingTo, Homes, Logged, Loggable, Spare;
      ghost var cur0 := bc.cur;
      InstallStart(region, cur0, lh, vs);
      var tail := 0;
      while tail < |lh|
        invariant 0 <= tail <= |lh| && Quiet() && bc.disk0 == old(bc.disk0)
        invariant bc.writes == old(bc.writes) + HomeWrites(lh, vs, tail)
        invariant InstallingTo(region, cur0, bc.cur, lh, vs, tail) && StillSpare(old(bc.buf), bc.buf)
      {
        ghost var cur1 := bc.cur;
        SpareStays(old(bc.buf), bc.buf);
        ok := InstallBlock(tail);
        if !ok { return false, tail; }
        InstallStep(region, cur0, cur1, bc.cur, lh, vs, tail);
        tail := tail + 1;
      }
      InstallEnd(region, cur0, bc.cur, lh, vs);
      return true, tail;
    }

    /** install_trans(); log.lh.n = 0; write_head(): the end of commit() and of
        recover_from_log(). */
    method InstallAndErase(ghost vs: seq<Block>) returns (ok: bool, ghost k: nat)
      requires Quiet() && |vs| == |lh| && Logged(region, bc.cur, vs, |lh|)
      modifies bc, this`lh
      ensures bc.Valid() && bc.disk0 == old(bc.disk0)
      ensures k <= |vs| + 1 && (ok ==> k == |vs| + 1)
      ensures bc.writes == old(bc.writes)
                + InstallWrites(region, old(lh), vs, PutHead(old(bc.cur)[region.start], []), k)
      ensures ok ==> lh == [] && Quiet()
      ensures ok ==> Homes(region, bc.cur) == Overlay(Homes(region, old(bc.cur)), old(lh), vs)
      ensures (ok ==> StillSpare(old(bc.buf), bc.buf)) && (Spare(old(bc.buf)) ==> ok)
    {
      hide Unheld, BCache.Valid, PutHead, Homes, OverlayFirst, HomeWrites, Logged, Spare;
      ok, k := InstallTrans(vs);
      if !ok { return; }
      UnheldNone(bc.buf, region, lh);
      lh := [];
      SpareStays(old(bc.buf), bc.buf);
      ghost var cur1 := bc.cur;
      ok := WriteHead();
      if !ok { return; }
      k := k + 1;
      HomesUpdate(region, cur1, region.start, PutHead(cur1[region.start], []));
    }

    /** write_log(); write_head(): the first half of commit(). */
    method LogTransaction(ghost vs: seq<Block>) returns (ok: bool, ghost k: nat)
      requires Quiet() && Contents(bc.cur, lh, vs)
      modifies bc
      ensures bc.Valid() && bc.disk0 == old(bc.disk0)
      ensures k <= |lh| + 1 && (ok <==> k == |lh| + 1)
      ensures !ok ==> bc.writes == old(bc.writes) + LogWrites(region, vs, k)
      ensures ok ==>
                var ws := LogWrites(region, vs, |lh|) + [Write(region.start, PutHead(old(bc.cur)[region.start], lh))];
                bc.writes == old(bc.writes) + ws
      ensures ok ==> Quiet() && Logged(region, bc.cur, vs, |lh|)
      ensures ok ==> bc.cur[region.start] == PutHead(old(bc.cur)[region.start], lh)
      ensures ok ==> Homes(region, bc.cur) == Homes(region, old(bc.cur))
      ensures (ok ==> StillSpare(old(bc.buf), bc.buf)) && (Spare(old(bc.buf)) ==> ok)
    {
      hide Unheld, BCache.Valid, PutHead, LogWrites, Spare;
      ok, k := WriteLog(vs);
      if !ok { return; }
      SpareStays(old(bc.buf), bc.buf);
      ghost var cur1 := bc.cur;
      ok := WriteHead();
      if !ok { return; }
      k := k + 1;
      HomesUpdate(region, cur1, region.start, PutHead(cur1[region.start], lh));
    }

    /** commit(). However far it gets, the writes are a prefix of CommitWrites; with two
        buffers to recycle it gets to the end. */
    method Commit(ghost vs: seq<Block>) returns (ok: bool, ghost k: nat)
      requires Quiet() && Contents(bc.cur, lh, vs)
      modifies bc, this`lh
      ensures bc.Valid() && bc.disk0 == old(bc.disk0)
      ensures
        var ws := CommitWrites(region, old(bc.cur)[region.start], old(lh), vs);
        k <= |ws| && bc.writes == old(bc.writes) + ws[..k] && (ok ==> k == |ws|)
      ensures ok ==> lh == [] && Quiet()
      ensures ok ==> Homes(region, bc.cur) == Homes(region, old(bc.cur))
      ensures Spare(old(bc.buf)) ==> ok
    {
      if |lh| > 0 {
        ok, k := CommitSome(vs);
      } else {
        ok, k := true, 0;
      }
    }

    method CommitSome(ghost vs: seq<Block>) returns (ok: bool, ghost k: nat)
      requires Quiet() && Contents(bc.cur, lh, vs) && lh != []
      modifies bc, this`lh
      ensures bc.Valid() && bc.disk0 == old(bc.disk0)
      ensures
        var ws := CommitWrites(region, old(bc.cur)[region.start], old(lh), vs);
        k <= |ws| && bc.writes == old(bc.writes) + ws[..k] && (ok ==> k == |ws|)
      ensures ok ==> lh == [] && Quiet()
      ensures ok ==> Homes(region, bc.cur) == Homes(region, old(bc.cur))
      ensures Spare(old(bc.buf)) ==> ok
    {
      hide Unheld, BCache.Valid, PutHead, Homes, Overlay, Logged, TwoPhase, LogWrites, InstallWrites, Spare, StillSpare;
      ghost var bs, cur0, h1 := lh, bc.cur, PutHead(bc.cur[region.start], lh);
      ghost var h2 := PutHead(h1, []);
      CommitKeeps(region, cur0, cur0, bs, vs);
      ok, k := LogTransaction(vs);
      TwoPhasePrefix(region, bs, vs, h1, h2, k);
      if !ok { return; }
      SpareStays(old(bc.buf), bc.buf);
      ghost var j;
      ok, j := InstallAndErase(vs);
      k := |bs| + 1 + j;
      TwoPhasePrefix(region, bs, vs, h1, h2, k);
    }

    /** One turn of the loop of begin_op() under log.lock; false is going to sleep. */
    method BeginOp(p: nat) returns (admitted: bool)
      modifies this`outstanding, this`asleep
      ensures admitted == (!committing && |lh| + (old(outstanding) + 1) * MAXOPBLOCKS <= LOGSIZE)
      ensures outstanding == old(outstanding) + if admitted then 1 else 0
      ensures asleep == old(asleep) + if admitted then {} else {p}
      ensures old(NoLostWakeup()) ==> NoLostWakeup()
    {
      if committing || |lh| + (outstanding + 1) * MAXOPBLOCKS > LOGSIZE {
        asleep := asleep + {p};
        return false;
      }
      outstanding := outstanding + 1;
      return true;
    }

    /** The first locked region of end_op(): the last operation out must commit, any
        other wakes the sleepers. False is the panic on an operation that ends during a
        commit. */
    method EndOp() returns (ok: bool, doCommit: bool)
      requires outstanding > 0
      modifies this`outstanding, this`committing, this`asleep
      ensures ok <==> !old(committing)
      ensures outstanding == old(outstanding) - 1
      ensures ok ==> doCommit == committing == (outstanding == 0)
      ensures asleep == if ok && !doCommit then {} else old(asleep)
      ensures NoLostWakeup()
    {
      outstanding := outstanding - 1;
      if committing { return false, false; }
      doCommit := outstanding == 0;
      if doCommit {
        committing := true;
      } else {
        asleep := {};
      }
      return true, doCommit;
    }

    /** The last locked region of end_op(), after the commit. */
    method EndCommit()
      modifies this`committing, this`asleep
      ensures !committing && asleep == {} && NoLostWakeup()
    {
      committing, asleep := false, {};
    }

    /** log_write() on a buffer that the caller holds and has changed. */
    method LogWrite(b: nat) returns (ok: bool)
      requires bc.Valid() && b < NBUF && bc.buf[b].locked && bc.buf[b].valid
      requires Loggable(region, |bc.disk|, lh) && Distinct(lh)
      requires bc.buf[b].blockno < |bc.disk| && bc.buf[b].blockno < 0x1_0000_0000 && !region.Contains(bc.buf[b].blockno)
      modifies bc`buf, this`lh
      ensures bc.Valid()
      ensures ok == (old(|lh|) < LOGSIZE && old(|lh|) < region.size - 1 && outstanding >= 1)
      ensures ok ==> Loggable(region, |bc.disk|, lh) && Distinct(lh)
      ensures ok ==> lh == Absorb(old(lh), old(bc.buf)[b].blockno)
      ensures ok ==> bc.buf == old(bc.buf)[b := old(bc.buf)[b].(dirty := true)]
      ensures old(NoLostWakeup()) ==> NoLostWakeup()
    {
      hide RingOfAll, ByRelease, OneBuffer, Agrees, Apply;
      if |lh| >= LOGSIZE || |lh| >= region.size - 1 || outstanding < 1 {
        return false;
      }
      var i := 0;
      while i < |lh| && lh[i] != bc.buf[b].blockno
        invariant 0 <= i <= |lh| && forall j :: 0 <= j < i ==> lh[j] != bc.buf[b].blockno
      {
        i := i + 1;
      }
      if i == |lh| {
        lh := lh + [bc.buf[b].blockno];
      }
      bc.MarkDirty(b);
      return true;
    }

    /** read_head(). */
    method ReadHead() returns (ok: bool)
      requires Quiet() && GetUint(bc.cur[region.start], 0) <= LOGSIZE
      modifies bc, this`lh
      ensures bc.Valid() && bc.disk0 == old(bc.disk0) && bc.writes == old(bc.writes) && bc.cur == old(bc.cur)
      ensures ok ==> lh == Head(bc.cur[region.start]) && Locked(old(bc.buf), bc.buf)
      ensures (ok ==> StillSpare(old(bc.buf), bc.buf)) && (Spare(old(bc.buf)) ==> ok)
    {
      hide RingOfAll, ByRelease, OneBuffer, Apply, Agrees, ToFront;
      var b := bc.Bread(ROOTDEV, region.start);
      if b < 0 { return false; }
      lh := DecodeHead(bc.buf[b].data);
      ghost var taken := bc.buf;
      bc.Brelse(b);
      GivenBack(old(bc.buf), taken, bc.buf, b, b, region, []);
      return true;
    }

    /** recover_from_log() at boot, when the cache holds nothing that the disk does
        not: the writes are a prefix of RecoverWrites. */
    method RecoverFromLog() returns (ok: bool, ghost k: nat)
      requires Quiet() && bc.cur == bc.disk && WellFormed(region, bc.disk)
      requires Unheld(bc.buf, region, Head(bc.disk[region.start]))
      modifies bc, this`lh
      ensures bc.Valid() && bc.disk0 == old(bc.disk0)
      ensures
        var ws := RecoverWrites(region, old(bc.disk));
        k <= |ws| && bc.writes == old(bc.writes) + ws[..k] && (ok ==> k == |ws|)
      ensures ok ==> lh == [] && Quiet()
      ensures Spare(old(bc.buf)) ==> ok
    {
      ghost var d := bc.disk;
      ghost var bs := Head(d[region.start]);
      ghost var vs, h := LogData(region, d, |bs|), PutHead(d[region.start], []);
      k := 0;
      ok := ReadHead();
      if !ok { return; }
      assert Logged(region, d, vs, |bs|);
      assert |RecoverWrites(region, d)| == |bs| + 1;
      SpareStays(old(bc.buf), bc.buf);
      hide BCache.Valid, PutHead, RecoverWrites, InstallWrites, Logged, Head;
      ok, k := InstallAndErase(vs);
      RecoverWritesPrefix(region, d, k);
    }
  }

  /** Only ra and rb are taken; one that could be recycled has one user and is clean. */
  ghost predicate Taken(buf: seq<Buf>, buf': seq<Buf>, ra: int, rb: int) {
    && |buf'| == |buf| && (forall i :: 0 <= i < |buf| && i != ra && i != rb ==> buf'[i] == buf[i])
    && forall i :: 0 <= i < |buf| && (i == ra || i == rb) && buf[i].Recyclable() ==>
       buf'[i].refcnt == 1 && !buf'[i].dirty
  }

  /** Nobody holds a buffer of block b. */
  ghost predicate UnheldBlock(buf: seq<Buf>, b: nat) {
    forall i :: 0 <= i < |buf| && buf[i].Caches(1, b) ==> !buf[i].locked
  }

  ghost predicate Unheld(buf: seq<Buf>, r: Region, lh: seq<nat>) {
    forall i :: 0 <= i < |buf| && buf[i].locked && buf[i].dev == 1 ==>
      !r.Contains(buf[i].blockno) && buf[i].blockno !in lh
  }

  lemma UnheldNone(buf: seq<Buf>, r: Region, lh: seq<nat>)
    requires Unheld(buf, r, lh)
    ensures Unheld(buf, r, [])
  {
  }

  /** Every buffer held was held before, and is as it was. */
  ghost predicate Locked(buf: seq<Buf>, buf': seq<Buf>) {
    |buf'| == |buf| && forall i :: 0 <= i < |buf| && buf'[i].locked ==> buf'[i] == buf[i]
  }

  /** Users of a and b left, neither got dirty and neither is held. */
  ghost predicate Returned(buf: seq<Buf>, buf': seq<Buf>, a: nat, b: nat) {
    && |buf'| == |buf| && (forall i :: 0 <= i < |buf| && i != a && i != b ==> buf'[i] == buf[i])
    && forall i :: 0 <= i < |buf| && (i == a || i == b) ==>
         buf'[i].refcnt == buf[i].refcnt - 1 && (buf'[i].dirty ==> buf[i].dirty) && !buf'[i].locked
  }

  lemma GivenBack(buf: seq<Buf>, taken: seq<Buf>, buf': seq<Buf>, a: nat, b: nat, r: Region, lh: seq<nat>)
    requires (Taken(buf, taken, a, b) || Taken(buf, taken, b, a)) && Returned(taken, buf', a, b)
    ensures StillSpare(buf, buf') && Locked(buf, buf')
    ensures Unheld(buf, r, lh) ==> Unheld(buf', r, lh)
  {
  }

  /** Recording a block number in the in-memory header (log absorption). */
  function Absorb(lh: seq<nat>, b: nat): (lh': seq<nat>)
    ensures lh <= lh' && |lh'| <= |lh| + 1 && (forall x :: x in lh' <==> x in lh || x == b)
    ensures Distinct(lh) ==> Distinct(lh')
  {
    if b in lh then lh else lh + [b]
  }

  /** The guard of begin_op(): room for every outstanding operation and one more. */
  predicate Room(n: nat, outstanding: nat) {
    n + (outstanding + 1) * MAXOPBLOCKS <= LOGSIZE
  }

  /** The guard of log_write() that panics with "too big a transaction". */
  predicate TooBig(n: nat, logSize: nat) {
    n >= LOGSIZE || n >= logSize - 1
  }

  /** The loop of write_head(): n and then each block number. */
  method EncodeHead(b: Block, lh: seq<nat>) returns (hb: Block)
    requires FitsHead(lh)
    ensures hb == PutHead(b, lh)
  {
    hb := PutUint(b, 0, |lh|);
    ghost var hb0 := hb;
    for i := 0 to |lh|
      invariant hb == PutUints(hb0, 1, lh[..i])
    {
      hb := PutUint(hb, 1 + i, lh[i]);
      assert lh[..i + 1][..i] == lh[..i];
    }
    assert lh[..|lh|] == lh;
  }

  /** The loop of read_head(). */
  method DecodeHead(hb: Block) returns (lh: seq<nat>)
    requires GetUint(hb, 0) <= LOGSIZE
    ensures lh == Head(hb)
  {
    lh := [];
    while |lh| < GetUint(hb, 0)
      invariant |lh| <= GetUint(hb, 0) && lh == GetUints(hb, 1, |lh|)
    {
      lh := lh + [GetUint(hb, 1 + |lh|)];
    }
  }

  ghost predicate InstallingTo(r: Region, cur0: seq<Block>, cur: seq<Block>, lh: seq<nat>, vs: seq<Block>, k: nat) {
    && |cur| == |cur0| && |vs| == |lh| && k <= |lh|
    && r.start + |lh| < |cur| && cur[r.start] == cur0[r.start]
    && Logged(r, cur, vs, |lh|)
    && Homes(r, cur) == OverlayFirst(Homes(r, cur0), lh, vs, k)
  }

  lemma InstallStep(r: Region, cur0: seq<Block>, cur: seq<Block>, cur': seq<Block>, lh: seq<nat>, vs: seq<Block>,
                    k: nat)
    requires Loggable(r, |cur0|, lh) && k < |lh| && InstallingTo(r, cur0, cur, lh, vs, k)
    requires Copied(cur, cur', lh[k], r.start + k + 1)
    ensures cur[r.start + k + 1] == vs[k]
    ensures InstallingTo(r, cur0, cur', lh, vs, k + 1)
  {
  }

  ghost predicate Copied(cur: seq<Block>, cur': seq<Block>, to: nat, from: nat) {
    to < |cur| && from < |cur| && cur' == cur[to := cur[from]]
  }

  lemma LogStart(r: Region, cur: seq<Block>, lh: seq<nat>, vs: seq<Block>)
    requires Loggable(r, |cur|, lh) && |vs| == |lh|
    ensures r.start + |vs| < |cur| && Kept(r, cur, cur) && Logged(r, cur, vs, 0)
  {
  }

  lemma InstallStart(r: Region, cur: seq<Block>, lh: seq<nat>, vs: seq<Block>)
    requires Loggable(r, |cur|, lh) && |vs| == |lh| && Logged(r, cur, vs, |lh|)
    ensures InstallingTo(r, cur, cur, lh, vs, 0)
  {
  }

  lemma InstallEnd(r: Region, cur0: seq<Block>, cur: seq<Block>, lh: seq<nat>, vs: seq<Block>)
    requires |vs| == |lh| && InstallingTo(r, cur0, cur, lh, vs, |lh|)
    ensures |cur| == |cur0| && r.start < |cur| && cur[r.start] == cur0[r.start]
    ensures Homes(r, cur) == Overlay(Homes(r, cur0), lh, vs)
  {
  }

  lemma LogStep(r: Region, cur0: seq<Block>, cur: seq<Block>, cur': seq<Block>, lh: seq<nat>, vs: seq<Block>, tail: nat)
    requires Loggable(r, |cur0|, lh) && Contents(cur0, lh, vs) && tail < |lh|
    requires Kept(r, cur0, cur) && Logged(r, cur, vs, tail)
    requires Copied(cur, cur', r.start + tail + 1, lh[tail])
    ensures cur[lh[tail]] == vs[tail]
    ensures |cur'| == |cur0| && Kept(r, cur0, cur') && Logged(r, cur', vs, tail + 1)
  {
  }

  /** vs are the contents of the blocks lh. */
  ghost predicate Contents(cur: seq<Block>, lh: seq<nat>, vs: seq<Block>) {
    |vs| == |lh| && forall i :: 0 <= i < |lh| ==> lh[i] < |cur| && cur[lh[i]] == vs[i]
  }

  /** Home blocks and the header read as before. */
  ghost predicate Kept(r: Region, cur: seq<Block>, cur': seq<Block>) {
    && |cur| == |cur'|
    && forall b :: 0 <= b < |cur| && !(r.start < b < r.start + r.size) ==> cur'[b] == cur[b]
  }

  /** Installing the cached contents changes no block's cached contents. */
  lemma CommitKeeps(r: Region, cur0: seq<Block>, cur1: seq<Block>, lh: seq<nat>, vs: seq<Block>)
    requires Loggable(r, |cur0|, lh) && Contents(cur0, lh, vs) && Kept(r, cur0, cur1)
    ensures Homes(r, cur1) == Homes(r, cur0)
    ensures Overlay(Homes(r, cur0), lh, vs) == Homes(r, cur0)
  {
    OverlaySelf(r, cur0, lh, vs, |lh|);
  }

  lemma {:induction false} OverlaySelf(r: Region, cur: seq<Block>, lh: seq<nat>, vs: seq<Block>, k: nat)
    requires Loggable(r, |cur|, lh) && Contents(cur, lh, vs) && k <= |lh|
    ensures OverlayFirst(Homes(r, cur), lh, vs, k) == Homes(r, cur)
  {
    if k > 0 {
      OverlaySelf(r, cur, lh, vs, k - 1);
      assert Homes(r, cur)[lh[k - 1]] == vs[k - 1];
    }
  }
}
