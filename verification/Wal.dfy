/** The redo log of log.c as a discipline on single block writes: what a disk
    means (the home blocks a recovery would leave), the writes that a commit and
    a recovery make, and what a crash after any of them leaves. */
module Wal {
  import opened Blocks

  const MAXOPBLOCKS := 10
  const LOGSIZE := 3 * MAXOPBLOCKS

  type Disk = seq<Block>

  datatype Write = Write(blockno: nat, data: Block)

  /** The log area: a header block at start, then size - 1 log blocks. */
  datatype Region = Region(start: nat, size: nat) {
    predicate Contains(b: nat) {
      start <= b < start + size
    }
  }

  function Apply1(d: Disk, w: Write): (d': Disk)
    ensures |d'| == |d|
  {
    if w.blockno < |d| then d[w.blockno := w.data] else d
  }

  function Apply(d: Disk, ws: seq<Write>): (d': Disk)
    ensures |d'| == |d|
  {
    if ws == [] then d else Apply1(Apply(d, ws[..|ws| - 1]), ws[|ws| - 1])
  }

  lemma ApplyAppend(d: Disk, ws: seq<Write>, w: Write)
    ensures Apply(d, ws + [w]) == Apply1(Apply(d, ws), w)
  {
  }

  lemma {:induction false} ApplyConcat(d: Disk, ws: seq<Write>, vs: seq<Write>)
    ensures Apply(d, ws + vs) == Apply(Apply(d, ws), vs)
  {
    if vs == [] {
      assert ws + vs == ws;
    } else {
      ApplyConcat(d, ws, vs[..|vs| - 1]);
      assert (ws + vs)[..|ws + vs| - 1] == ws + vs[..|vs| - 1];
    }
  }

  // ----- the header block

  /** The block numbers that a header block lists. */
  function Head(b: Block): (bs: seq<nat>)
    requires GetUint(b, 0) <= LOGSIZE
    ensures |bs| == GetUint(b, 0)
  {
    GetUints(b, 1, GetUint(b, 0))
  }

  predicate HeadIs(b: Block, bs: seq<nat>) {
    GetUint(b, 0) <= LOGSIZE && Head(b) == bs
  }

  predicate FitsHead(lh: seq<nat>) {
    |lh| <= LOGSIZE && forall i :: 0 <= i < |lh| ==> lh[i] < 0x1_0000_0000
  }

  /** The header buffer b after lh has been written into it. */
  function PutHead(b: Block, lh: seq<nat>): Block
    requires FitsHead(lh)
  {
    PutUints(PutUint(b, 0, |lh|), 1, lh)
  }

  lemma HeadRoundTrip(b: Block, lh: seq<nat>)
    requires FitsHead(lh)
    ensures HeadIs(PutHead(b, lh), lh)
  {
    GetPut(b, 0, |lh|, 0);
    GetPutUints(PutUint(b, 0, |lh|), 1, lh, 0);
    forall i | 0 <= i < |lh| ensures Head(PutHead(b, lh))[i] == lh[i] {
      GetUintsAt(PutHead(b, lh), 1, |lh|, i);
      GetPutUints(PutUint(b, 0, |lh|), 1, lh, 1 + i);
    }
  }

  // ----- what a disk means

  ghost predicate Distinct(s: seq<nat>) {
    forall i, j :: 0 <= i < j < |s| ==> s[i] != s[j]
  }

  /** lh can be a transaction on a disk of n blocks. */
  ghost predicate Loggable(r: Region, n: nat, lh: seq<nat>) {
    && 1 <= r.size && r.start + r.size <= n
    && FitsHead(lh)
    && |lh| < r.size
    && forall i :: 0 <= i < |lh| ==> lh[i] < n && !r.Contains(lh[i])
  }

  ghost predicate WellFormed(r: Region, d: Disk) {
    && r.start < |d| && GetUint(d[r.start], 0) <= LOGSIZE
    && Loggable(r, |d|, Head(d[r.start]))
  }

  function Homes(r: Region, d: Disk): (m: map<nat, Block>)
  {
    map b: nat | b < |d| && !r.Contains(b) :: d[b]
  }

  function LogData(r: Region, d: Disk, n: nat): (vs: seq<Block>)
    requires r.start + n < |d|
    ensures |vs| == n
  {
    d[r.start + 1..r.start + 1 + n]
  }

  /** m with the first k of the blocks bs set to vs. */
  function OverlayFirst(m: map<nat, Block>, bs: seq<nat>, vs: seq<Block>, k: nat): map<nat, Block>
    requires |bs| == |vs| && k <= |bs|
  {
    if k == 0 then m else OverlayFirst(m, bs, vs, k - 1)[bs[k - 1] := vs[k - 1]]
  }

  function Overlay(m: map<nat, Block>, bs: seq<nat>, vs: seq<Block>): map<nat, Block>
    requires |bs| == |vs|
  {
    OverlayFirst(m, bs, vs, |bs|)
  }

  lemma {:induction false} OverlayFirstAt(m: map<nat, Block>, bs: seq<nat>, vs: seq<Block>, k: nat)
    requires |bs| == |vs| && k <= |bs| && Distinct(bs)
    ensures forall i :: 0 <= i < k ==> bs[i] in OverlayFirst(m, bs, vs, k) && OverlayFirst(m, bs, vs, k)[bs[i]] == vs[i]
    ensures forall b :: b in m && b !in bs ==> b in OverlayFirst(m, bs, vs, k) && OverlayFirst(m, bs, vs, k)[b] == m[b]
  {
    if k > 0 {
      OverlayFirstAt(m, bs, vs, k - 1);
    }
  }

  /** The home blocks that a completed recovery of d leaves: the logged values
      where the header lists a block, d's own value elsewhere. */
  ghost function View(r: Region, d: Disk): map<nat, Block>
    requires WellFormed(r, d)
  {
    var bs := Head(d[r.start]);
    Overlay(Homes(r, d), bs, LogData(r, d, |bs|))
  }

  // ----- the writes of commit and of recovery

  /** The first k log block writes of a commit with contents vs. */
  function LogWrites(r: Region, vs: seq<Block>, k: nat): (ws: seq<Write>)
    requires k <= |vs|
    ensures |ws| == k
  {
    if k == 0 then [] else LogWrites(r, vs, k - 1) + [Write(r.start + k, vs[k - 1])]
  }

  /** The first k home block writes. */
  function HomeWrites(bs: seq<nat>, vs: seq<Block>, k: nat): (ws: seq<Write>)
    requires |bs| == |vs| && k <= |bs|
    ensures |ws| == k
  {
    if k == 0 then [] else HomeWrites(bs, vs, k - 1) + [Write(bs[k - 1], vs[k - 1])]
  }

  function TwoPhase(r: Region, bs: seq<nat>, vs: seq<Block>, h1: Block, h2: Block): (ws: seq<Write>)
    requires |bs| == |vs|
    ensures |ws| == 2 * |bs| + 2
  {
    LogWrites(r, vs, |vs|) + [Write(r.start, h1)] + HomeWrites(bs, vs, |bs|) + [Write(r.start, h2)]
  }

  /** commit() on transaction bs with cached contents vs; h is the header block. */
  function CommitWrites(r: Region, h: Block, bs: seq<nat>, vs: seq<Block>): seq<Write>
    requires |bs| == |vs| && FitsHead(bs)
  {
    if bs == [] then []
    else TwoPhase(r, bs, vs, PutHead(h, bs), PutHead(PutHead(h, bs), []))
  }

  /** recover_from_log() on disk d. */
  function RecoverWrites(r: Region, d: Disk): seq<Write>
    requires r.start < |d| && GetUint(d[r.start], 0) <= LOGSIZE
    requires r.start + GetUint(d[r.start], 0) < |d|
  {
    var bs := Head(d[r.start]);
    HomeWrites(bs, LogData(r, d, |bs|), |bs|) + [Write(r.start, PutHead(d[r.start], []))]
  }

  ghost predicate Logged(r: Region, d: Disk, vs: seq<Block>, k: nat)
    requires r.start + |vs| < |d|
  {
    forall i :: 0 <= i < |vs| && i < k ==> d[r.start + 1 + i] == vs[i]
  }

  /** Midway through committing or installing bs with contents vs on disk base:
      d has the first i log blocks, the header head, and the first m home blocks. */
  ghost predicate Stage(r: Region, base: Disk, d: Disk, bs: seq<nat>, vs: seq<Block>, i: nat, head: seq<nat>, m: nat)
    requires |bs| == |vs| && m <= |bs|
  {
    && |d| == |base|
    && Loggable(r, |d|, bs)
    && Logged(r, d, vs, i)
    && HeadIs(d[r.start], head)
    && Homes(r, d) == OverlayFirst(Homes(r, base), bs, vs, m)
  }

  lemma HomesUpdate(r: Region, d: Disk, b: nat, v: Block)
    requires b < |d|
    ensures Homes(r, d[b := v]) == if r.Contains(b) then Homes(r, d) else Homes(r, d)[b := v]
  {
  }

  lemma {:induction false} OverlayUpdate(m: map<nat, Block>, b: nat, v: Block, bs: seq<nat>, vs: seq<Block>, k: nat)
    requires |bs| == |vs| && k <= |bs|
    ensures
      var o := OverlayFirst(m, bs, vs, k);
      OverlayFirst(m[b := v], bs, vs, k) == if b in bs[..k] then o else o[b := v]
  {
    if k > 0 {
      OverlayUpdate(m, b, v, bs, vs, k - 1);
      assert bs[..k] == bs[..k - 1] + [bs[k - 1]];
    }
  }

  /** Installing some blocks first does not change what installing all of them gives. */
  lemma {:induction false} OverlayAgain(m: map<nat, Block>, bs: seq<nat>, vs: seq<Block>, k: nat)
    requires |bs| == |vs| && k <= |bs|
    ensures Overlay(OverlayFirst(m, bs, vs, k), bs, vs) == Overlay(m, bs, vs)
    decreases k
  {
    if k > 0 {
      OverlayAgain(m, bs, vs, k - 1);
      assert bs[..|bs|] == bs && bs[k - 1] in bs;
      OverlayUpdate(OverlayFirst(m, bs, vs, k - 1), bs[k - 1], vs[k - 1], bs, vs, |bs|);
    }
  }

  lemma StageLogBlock(r: Region, base: Disk, d: Disk, bs: seq<nat>, vs: seq<Block>, i: nat, head: seq<nat>)
    requires |bs| == |vs| && i < |bs| && Stage(r, base, d, bs, vs, i, head, 0)
    ensures Stage(r, base, Apply1(d, Write(r.start + 1 + i, vs[i])), bs, vs, i + 1, head, 0)
  {
  }

  lemma StageHeader(r: Region, base: Disk, d: Disk, bs: seq<nat>, vs: seq<Block>, i: nat, head: seq<nat>, m: nat,
                    h: Block, head': seq<nat>)
    requires |bs| == |vs| && m <= |bs| && Stage(r, base, d, bs, vs, i, head, m) && HeadIs(h, head')
    ensures Stage(r, base, Apply1(d, Write(r.start, h)), bs, vs, i, head', m)
  {
  }

  lemma StageHomeBlock(r: Region, base: Disk, d: Disk, bs: seq<nat>, vs: seq<Block>, i: nat, head: seq<nat>, m: nat)
    requires |bs| == |vs| && m < |bs| && Stage(r, base, d, bs, vs, i, head, m)
    ensures Stage(r, base, Apply1(d, Write(bs[m], vs[m])), bs, vs, i, head, m + 1)
  {
  }

  /** Until the header is written the disk means the old state; with the header
      written, and again once every block is installed, it means the new one. */
  lemma StageView(r: Region, base: Disk, d: Disk, bs: seq<nat>, vs: seq<Block>, i: nat, head: seq<nat>, m: nat)
    requires |bs| == |vs| && m <= |bs| && Stage(r, base, d, bs, vs, i, head, m)
    requires (head == bs && i >= |bs|) || (head == [] && (m == 0 || m == |bs|))
    ensures WellFormed(r, d)
    ensures View(r, d) ==
              if head == [] && m == 0 then Homes(r, base) else Overlay(Homes(r, base), bs, vs)
  {
    if head == bs && i >= |bs| {
      assert LogData(r, d, |bs|) == vs;
      OverlayAgain(Homes(r, base), bs, vs, m);
    }
  }

  lemma {:induction false} LogPhase(r: Region, base: Disk, d: Disk, bs: seq<nat>, vs: seq<Block>, head: seq<nat>,
                                    k: nat)
    requires |bs| == |vs| && k <= |vs| && Stage(r, base, d, bs, vs, 0, head, 0)
    ensures Stage(r, base, Apply(d, LogWrites(r, vs, k)), bs, vs, k, head, 0)
  {
    hide Stage, Apply1;
    if k > 0 {
      LogPhase(r, base, d, bs, vs, head, k - 1);
      ApplyAppend(d, LogWrites(r, vs, k - 1), Write(r.start + k, vs[k - 1]));
      StageLogBlock(r, base, Apply(d, LogWrites(r, vs, k - 1)), bs, vs, k - 1, head);
    }
  }

  lemma {:induction false} HomePhase(r: Region, base: Disk, d: Disk, bs: seq<nat>, vs: seq<Block>, i: nat,
                                     head: seq<nat>, k: nat)
    requires |bs| == |vs| && k <= |vs| && Stage(r, base, d, bs, vs, i, head, 0)
    ensures Stage(r, base, Apply(d, HomeWrites(bs, vs, k)), bs, vs, i, head, k)
  {
    hide Stage, Apply1;
    if k > 0 {
      HomePhase(r, base, d, bs, vs, i, head, k - 1);
      ApplyAppend(d, HomeWrites(bs, vs, k - 1), Write(bs[k - 1], vs[k - 1]));
      StageHomeBlock(r, base, Apply(d, HomeWrites(bs, vs, k - 1)), bs, vs, i, head, k - 1);
    }
  }

  lemma {:induction false} WritesPrefix(r: Region, bs: seq<nat>, vs: seq<Block>, n: nat, k: nat)
    requires |bs| == |vs| && k <= n <= |bs|
    ensures LogWrites(r, vs, n)[..k] == LogWrites(r, vs, k)
    ensures HomeWrites(bs, vs, n)[..k] == HomeWrites(bs, vs, k)
  {
    if k < n {
      WritesPrefix(r, bs, vs, n - 1, k);
      assert LogWrites(r, vs, n)[..k] == LogWrites(r, vs, n - 1)[..k];
      assert HomeWrites(bs, vs, n)[..k] == HomeWrites(bs, vs, n - 1)[..k];
    }
  }

  /** The second half of a commit, which is also all of a recovery: install the
      blocks, then erase the header. */
  function InstallWrites(r: Region, bs: seq<nat>, vs: seq<Block>, h: Block, k: nat): (ws: seq<Write>)
    requires |bs| == |vs| && k <= |bs| + 1
  {
    if k <= |bs| then HomeWrites(bs, vs, k) else HomeWrites(bs, vs, |bs|) + [Write(r.start, h)]
  }

  lemma InstallPhase(r: Region, base: Disk, d: Disk, bs: seq<nat>, vs: seq<Block>, h: Block, k: nat)
    requires |bs| == |vs| && k <= |vs| + 1 && Stage(r, base, d, bs, vs, |bs|, bs, 0) && HeadIs(h, [])
    ensures WellFormed(r, Apply(d, InstallWrites(r, bs, vs, h, k)))
    ensures View(r, Apply(d, InstallWrites(r, bs, vs, h, k))) == Overlay(Homes(r, base), bs, vs)
  {
    hide Stage, Apply1, View;
    if k <= |bs| {
      HomePhase(r, base, d, bs, vs, |bs|, bs, k);
      StageView(r, base, Apply(d, HomeWrites(bs, vs, k)), bs, vs, |bs|, bs, k);
    } else {
      var ws := HomeWrites(bs, vs, |bs|);
      HomePhase(r, base, d, bs, vs, |bs|, bs, |bs|);
      ApplyAppend(d, ws, Write(r.start, h));
      StageHeader(r, base, Apply(d, ws), bs, vs, |bs|, bs, |bs|, h, []);
      StageView(r, base, Apply(d, ws + [Write(r.start, h)]), bs, vs, |bs|, [], |bs|);
    }
  }

  lemma CommitLogPart(r: Region, d: Disk, bs: seq<nat>, vs: seq<Block>, k: nat)
    requires WellFormed(r, d) && HeadIs(d[r.start], [])
    requires |vs| == |bs| && Loggable(r, |d|, bs) && k <= |bs|
    ensures WellFormed(r, Apply(d, LogWrites(r, vs, k)))
    ensures View(r, Apply(d, LogWrites(r, vs, k))) == Homes(r, d)
  {
    LogPhase(r, d, d, bs, vs, [], k);
    StageView(r, d, Apply(d, LogWrites(r, vs, k)), bs, vs, k, [], 0);
  }

  lemma CommitHeadWritten(r: Region, d: Disk, bs: seq<nat>, vs: seq<Block>, h1: Block)
    requires WellFormed(r, d) && HeadIs(d[r.start], [])
    requires |vs| == |bs| && Loggable(r, |d|, bs) && HeadIs(h1, bs)
    ensures Stage(r, d, Apply(d, LogWrites(r, vs, |bs|) + [Write(r.start, h1)]), bs, vs, |bs|, bs, 0)
  {
    hide Apply1;
    var lws := LogWrites(r, vs, |bs|);
    LogPhase(r, d, d, bs, vs, [], |bs|);
    ApplyAppend(d, lws, Write(r.start, h1));
    StageHeader(r, d, Apply(d, lws), bs, vs, |bs|, [], 0, h1, bs);
  }

  lemma CommitInstallPart(r: Region, d: Disk, bs: seq<nat>, vs: seq<Block>, h1: Block, h2: Block, j: nat)
    requires WellFormed(r, d) && HeadIs(d[r.start], [])
    requires |vs| == |bs| && Loggable(r, |d|, bs) && HeadIs(h1, bs) && HeadIs(h2, []) && j <= |bs| + 1
    ensures
      var ws := LogWrites(r, vs, |bs|) + [Write(r.start, h1)] + InstallWrites(r, bs, vs, h2, j);
      WellFormed(r, Apply(d, ws)) && View(r, Apply(d, ws)) == Overlay(Homes(r, d), bs, vs)
  {
    hide Stage, View, WellFormed, InstallWrites;
    var lws := LogWrites(r, vs, |bs|) + [Write(r.start, h1)];
    CommitHeadWritten(r, d, bs, vs, h1);
    InstallPhase(r, d, Apply(d, lws), bs, vs, h2, j);
    ApplyConcat(d, lws, InstallWrites(r, bs, vs, h2, j));
  }

  lemma TwoPhasePrefix(r: Region, bs: seq<nat>, vs: seq<Block>, h1: Block, h2: Block, k: nat)
    requires |vs| == |bs| && k <= |TwoPhase(r, bs, vs, h1, h2)|
    ensures TwoPhase(r, bs, vs, h1, h2)[..k] ==
      if k <= |bs| then LogWrites(r, vs, k)
      else LogWrites(r, vs, |bs|) + [Write(r.start, h1)] + InstallWrites(r, bs, vs, h2, k - |bs| - 1)
  {
    var n, all := |bs|, TwoPhase(r, bs, vs, h1, h2);
    if k <= n {
      WritesPrefix(r, bs, vs, n, k);
      assert all[..k] == LogWrites(r, vs, n)[..k];
    } else if k <= 2 * n + 1 {
      WritesPrefix(r, bs, vs, n, k - n - 1);
      assert all[..k] == LogWrites(r, vs, n) + [Write(r.start, h1)] + HomeWrites(bs, vs, n)[..k - n - 1];
    }
  }

  /** Crash atomicity of commit(): whatever single block write the crash follows,
      the home blocks recover to all-old or all-new, and the switch is the first
      write of the header. */
  lemma CommitCrash(r: Region, d: Disk, bs: seq<nat>, vs: seq<Block>, k: nat)
    requires WellFormed(r, d) && HeadIs(d[r.start], [])
    requires |vs| == |bs| && Loggable(r, |d|, bs) && k <= |CommitWrites(r, d[r.start], bs, vs)|
    ensures WellFormed(r, Apply(d, CommitWrites(r, d[r.start], bs, vs)[..k]))
    ensures View(r, Apply(d, CommitWrites(r, d[r.start], bs, vs)[..k]))
         == if k <= |bs| then Homes(r, d) else Overlay(Homes(r, d), bs, vs)
  {
    if bs != [] {
      var h1 := PutHead(d[r.start], bs);
      HeadRoundTrip(d[r.start], bs);
      HeadRoundTrip(h1, []);
      TwoPhasePrefix(r, bs, vs, h1, PutHead(h1, []), k);
      if k <= |bs| {
        CommitLogPart(r, d, bs, vs, k);
      } else {
        CommitInstallPart(r, d, bs, vs, h1, PutHead(h1, []), k - |bs| - 1);
      }
    }
  }

  /** A commit that runs to its end leaves an empty log and the new home blocks. */
  lemma CommitDone(r: Region, d: Disk, bs: seq<nat>, vs: seq<Block>)
    requires WellFormed(r, d) && HeadIs(d[r.start], [])
    requires |vs| == |bs| && Loggable(r, |d|, bs)
    ensures
      var d' := Apply(d, CommitWrites(r, d[r.start], bs, vs));
      && WellFormed(r, d') && HeadIs(d'[r.start], [])
      && Homes(r, d') == Overlay(Homes(r, d), bs, vs)
  {
    var ws := CommitWrites(r, d[r.start], bs, vs);
    assert ws[..|ws|] == ws;
    CommitCrash(r, d, bs, vs, |ws|);
    if bs != [] {
      HeadRoundTrip(PutHead(d[r.start], bs), []);
      ApplyLast(d, ws);
    }
  }

  lemma ApplyLast(d: Disk, ws: seq<Write>)
    requires ws != [] && ws[|ws| - 1].blockno < |d|
    ensures Apply(d, ws)[ws[|ws| - 1].blockno] == ws[|ws| - 1].data
  {
  }

  /** No write of a recovery changes what the disk means. */
  lemma RecoverCrash(r: Region, d: Disk, k: nat)
    requires WellFormed(r, d) && k <= |RecoverWrites(r, d)|
    ensures WellFormed(r, Apply(d, RecoverWrites(r, d)[..k]))
    ensures View(r, Apply(d, RecoverWrites(r, d)[..k])) == View(r, d)
  {
    var bs := Head(d[r.start]);
    var vs, h := LogData(r, d, |bs|), PutHead(d[r.start], []);
    HeadRoundTrip(d[r.start], []);
    assert Stage(r, d, d, bs, vs, |bs|, bs, 0);
    InstallPhase(r, d, d, bs, vs, h, k);
    RecoverWritesPrefix(r, d, k);
  }

  lemma RecoverWritesPrefix(r: Region, d: Disk, k: nat)
    requires WellFormed(r, d) && k <= |RecoverWrites(r, d)|
    ensures
      var bs := Head(d[r.start]);
      && k <= |bs| + 1
      && RecoverWrites(r, d)[..k] == InstallWrites(r, bs, LogData(r, d, |bs|), PutHead(d[r.start], []), k)
  {
    var bs := Head(d[r.start]);
    var vs := LogData(r, d, |bs|);
    if k <= |bs| {
      WritesPrefix(r, bs, vs, |bs|, k);
      assert RecoverWrites(r, d)[..k] == HomeWrites(bs, vs, |bs|)[..k];
    }
  }

  lemma RecoverDone(r: Region, d: Disk)
    requires WellFormed(r, d)
    ensures
      var d' := Apply(d, RecoverWrites(r, d));
      WellFormed(r, d') && HeadIs(d'[r.start], []) && Homes(r, d') == View(r, d)
  {
    var ws := RecoverWrites(r, d);
    assert ws[..|ws|] == ws;
    RecoverCrash(r, d, |ws|);
    HeadRoundTrip(d[r.start], []);
    ApplyLast(d, ws);
  }

  /** Boots of the machine: the ith boot's recovery crashes after crashes[i] block
      writes (or after all of them), and the last boot's recovery completes. */
  ghost function Boot(r: Region, d: Disk, crashes: seq<nat>): (d': Disk)
    requires WellFormed(r, d)
    decreases |crashes|
  {
    var ws := RecoverWrites(r, d);
    if crashes == [] then Apply(d, ws)
    else
      var k := if crashes[0] <= |ws| then crashes[0] else |ws|;
      RecoverCrash(r, d, k);
      Boot(r, Apply(d, ws[..k]), crashes[1..])
  }

  lemma {:induction false} BootRecovers(r: Region, d: Disk, crashes: seq<nat>)
    requires WellFormed(r, d)
    ensures WellFormed(r, Boot(r, d, crashes))
    ensures HeadIs(Boot(r, d, crashes)[r.start], [])
    ensures Homes(r, Boot(r, d, crashes)) == View(r, d)
    decreases |crashes|
  {
    var ws := RecoverWrites(r, d);
    if crashes == [] {
      RecoverDone(r, d);
    } else {
      var k := if crashes[0] <= |ws| then crashes[0] else |ws|;
      RecoverCrash(r, d, k);
      BootRecovers(r, Apply(d, ws[..k]), crashes[1..]);
    }
  }

  /** The whole story: a commit cut after k block writes, then any number of boots
      cut during recovery, then one that completes. The home blocks are all old
      when the header had not been written (k <= |bs|), all new when it had. */
  lemma CrashAtomicity(r: Region, d: Disk, bs: seq<nat>, vs: seq<Block>, k: nat, crashes: seq<nat>)
    requires WellFormed(r, d) && HeadIs(d[r.start], [])
    requires |vs| == |bs| && Loggable(r, |d|, bs) && Distinct(bs) && k <= |CommitWrites(r, d[r.start], bs, vs)|
    ensures WellFormed(r, Apply(d, CommitWrites(r, d[r.start], bs, vs)[..k]))
    ensures
      var up := Boot(r, Apply(d, CommitWrites(r, d[r.start], bs, vs)[..k]), crashes);
      && |up| == |d|
      && (forall b: nat :: b < |d| && !r.Contains(b) && b !in bs ==> up[b] == d[b])
      && (k <= |bs| ==> forall i :: 0 <= i < |bs| ==> up[bs[i]] == d[bs[i]])
      && (k > |bs| ==> forall i :: 0 <= i < |bs| ==> up[bs[i]] == vs[i])
  {
    var d1 := Apply(d, CommitWrites(r, d[r.start], bs, vs)[..k]);
    CommitCrash(r, d, bs, vs, k);
    BootRecovers(r, d1, crashes);
    BootSize(r, d1, crashes);
    OverlayFirstAt(Homes(r, d), bs, vs, |bs|);
    var up := Boot(r, d1, crashes);
    assert forall b: nat :: b < |d| && !r.Contains(b) ==> Homes(r, up)[b] == up[b];
    assert forall b: nat :: b < |d| && !r.Contains(b) ==> Homes(r, d)[b] == d[b];
  }

  lemma {:induction false} BootSize(r: Region, d: Disk, crashes: seq<nat>)
    requires WellFormed(r, d)
    ensures |Boot(r, d, crashes)| == |d|
    decreases |crashes|
  {
    if crashes != [] {
      var ws := RecoverWrites(r, d);
      var k := if crashes[0] <= |ws| then crashes[0] else |ws|;
      RecoverCrash(r, d, k);
      BootSize(r, Apply(d, ws[..k]), crashes[1..]);
    }
  }
}
