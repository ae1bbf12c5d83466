/** The reservation arithmetic of begin_op against the guard of log_write. */
module LogSpace {
  import opened Blocks
  import opened Wal
  import opened GroupCommit

  /** Step t leaves its operation with at most bound logged blocks. */
  ghost predicate Within(bound: nat, s: State, t: Step) {
    t.LogWrite? && t.k < |s.open| ==> |s.open[t.k].blocks + {t.b}| <= bound
  }

  ghost predicate IsRunWithin(r: Region, bound: nat, ss: seq<State>, ts: seq<Step>) {
    IsRun(r, ss, ts) && forall i :: 0 <= i < |ts| ==> Within(bound, ss[i], ts[i])
  }

  /** log_write would panic: an operation is open and the header is full. */
  ghost predicate WouldPanic(r: Region, s: State) {
    s.open != [] && Log.TooBig(|s.lh|, r.size)
  }

  function Spare(open: seq<Op>): int {
    if open == [] then 0 else Spare(open[..|open| - 1]) + MAXOPBLOCKS - 1 - |open[|open| - 1].blocks|
  }

  lemma {:induction false} SpareUpdate(open: seq<Op>, k: nat, o: Op)
    requires k < |open|
    ensures Spare(open[k := o]) == Spare(open) + |open[k].blocks| - |o.blocks|
  {
    var n := |open| - 1;
    if k < n {
      SpareUpdate(open[..n], k, o);
      assert open[k := o][..n] == open[..n][k := o];
    } else {
      assert open[k := o][..n] == open[..n];
    }
  }

  lemma {:induction false} SpareRemove(open: seq<Op>, k: nat)
    requires k < |open|
    ensures Spare(open[..k] + open[k + 1..]) == Spare(open) - (MAXOPBLOCKS - 1 - |open[k].blocks|)
  {
    var n := |open| - 1;
    var rest := open[..k] + open[k + 1..];
    if k < n {
      SpareRemove(open[..n], k);
      assert rest[..|rest| - 1] == open[..n][..k] + open[..n][k + 1..];
    } else {
      assert rest == open[..n];
    }
  }

  lemma {:induction false} SpareBound(open: seq<Op>)
    ensures Spare(open) <= (MAXOPBLOCKS - 1) * |open|
  {
    if open != [] { SpareBound(open[..|open| - 1]); }
  }

  ghost predicate OpsOk(lh: seq<nat>, open: seq<Op>) {
    forall k :: 0 <= k < |open| ==>
      |open[k].blocks| <= MAXOPBLOCKS - 1 && forall b :: b in open[k].blocks ==> b in lh
  }

  ghost predicate SpaceInv(s: State) {
    && OpsOk(s.lh, s.open)
    && (s.open != [] ==> |s.lh| + Spare(s.open) <= LOGSIZE - 2)
  }

  lemma BeginSpace(lh: seq<nat>, open: seq<Op>, id: nat)
    requires OpsOk(lh, open) && Log.Room(|lh|, |open|) && (open == [] ==> lh == [])
    ensures OpsOk(lh, open + [Op(id, {})]) && |lh| + Spare(open + [Op(id, {})]) <= LOGSIZE - 2
  {
    var open' := open + [Op(id, {})];
    assert open'[..|open|] == open;
    SpareBound(open);
  }

  lemma WriteSpace(lh: seq<nat>, open: seq<Op>, k: nat, b: nat)
    requires OpsOk(lh, open) && k < |open| && |open[k].blocks + {b}| <= MAXOPBLOCKS - 1
    requires |lh| + Spare(open) <= LOGSIZE - 2
    ensures
      var open' := open[k := Op(open[k].id, open[k].blocks + {b})];
      OpsOk(Log.Absorb(lh, b), open') && |Log.Absorb(lh, b)| + Spare(open') <= LOGSIZE - 2
  {
    var o := Op(open[k].id, open[k].blocks + {b});
    SpareUpdate(open, k, o);
    assert b !in open[k].blocks ==> |o.blocks| == |open[k].blocks| + 1;
    assert b in open[k].blocks ==> o.blocks == open[k].blocks;
  }

  lemma EndSpace(lh: seq<nat>, open: seq<Op>, k: nat)
    requires OpsOk(lh, open) && k < |open| && |lh| + Spare(open) <= LOGSIZE - 2
    ensures OpsOk(lh, open[..k] + open[k + 1..])
    ensures |lh| + Spare(open[..k] + open[k + 1..]) <= LOGSIZE - 2
  {
    SpareRemove(open, k);
    hide Spare;
    var rest := open[..k] + open[k + 1..];
    assert |open[k].blocks| <= MAXOPBLOCKS - 1;
    forall i | 0 <= i < |rest|
      ensures |rest[i].blocks| <= MAXOPBLOCKS - 1 && forall b :: b in rest[i].blocks ==> b in lh
    {
      assert rest[i] == open[if i < k then i else i + 1];
    }
  }

  lemma StepSpace(r: Region, m0: map<nat, Block>, s: State, t: Step)
    requires Inv(r, m0, s) && SpaceInv(s) && Can(r, s, t) && Within(MAXOPBLOCKS - 1, s, t)
    ensures SpaceInv(Do(r, s, t))
  {
    hide OpsOk, View, WellFormed, Loggable, CleanCopies, DirtyOnly, Cur, HeadIs, OpenOk, Opened, Effects, Spare;
    var s' := Do(r, s, t);
    EmptyOps(s'.lh);
    match t
    case Begin(id) => BeginSpace(s.lh, s.open, id);
    case LogWrite(k, b, data) => WriteSpace(s.lh, s.open, k, b);
    case End(k) => EndSpace(s.lh, s.open, k);
    case _ =>
  }

  lemma EmptyOps(lh: seq<nat>)
    ensures OpsOk(lh, [])
  {
  }

  lemma {:induction false} RunSpace(r: Region, ss: seq<State>, ts: seq<Step>, n: nat)
    requires IsRunWithin(r, MAXOPBLOCKS - 1, ss, ts) && n <= |ts|
    ensures SpaceInv(ss[n])
  {
    if n > 0 {
      RunSpace(r, ss, ts, n - 1);
      RunKeeps(r, ss, ts, n - 1);
      StepSpace(r, View(r, ss[0].disk), ss[n - 1], ts[n - 1]);
    }
  }

  /** With a 30-block log, operations that log at most 9 blocks each never meet the
      panic of log_write, in any interleaving. */
  lemma NeverTooBig(r: Region, bound: nat, ss: seq<State>, ts: seq<Step>, n: nat)
    requires IsRunWithin(r, bound, ss, ts) && n <= |ts| && r.size == LOGSIZE && bound <= MAXOPBLOCKS - 1
    ensures !WouldPanic(r, ss[n])
  {
    RunSpace(r, ss, ts, n);
    SpareNonNegative(ss[n].lh, ss[n].open);
  }

  lemma {:induction false} SpareNonNegative(lh: seq<nat>, open: seq<Op>)
    requires OpsOk(lh, open)
    ensures Spare(open) >= 0
  {
    if open != [] {
      SpareNonNegative(lh, open[..|open| - 1]);
    }
  }

  // ----- one block more is too many

  /** The last state of a run that logs at most 10 blocks an operation: log blocks
      below b, operations still running. */
  ghost predicate Going(r: Region, d: Disk, ss: seq<State>, ts: seq<Step>, b: nat) {
    && IsRunWithin(r, MAXOPBLOCKS, ss, ts)
    && var s := ss[|ts|];
       && Shape(r, s) && s.disk == d && s.phase.Run?
       && forall i :: 0 <= i < |s.lh| ==> s.lh[i] < b
  }

  lemma Extend(r: Region, ss: seq<State>, ts: seq<Step>, t: Step)
    requires IsRunWithin(r, MAXOPBLOCKS, ss, ts)
    requires Shape(r, ss[|ts|]) && Can(r, ss[|ts|], t) && Within(MAXOPBLOCKS, ss[|ts|], t)
    ensures IsRunWithin(r, MAXOPBLOCKS, ss + [Do(r, ss[|ts|], t)], ts + [t])
  {
    hide Shape, Can, Do, Init, Within;
  }

  lemma AbsorbNew(lh: seq<nat>, b: nat)
    requires forall i :: 0 <= i < |lh| ==> lh[i] < b
    ensures Log.Absorb(lh, b) == lh + [b]
  {
  }

  /** Operation k logs the m blocks b, b+1, ... */
  lemma {:induction false} Fill(r: Region, d: Disk, ss: seq<State>, ts: seq<Step>, k: nat, b: nat, m: nat, j: nat)
    returns (ss': seq<State>, ts': seq<Step>)
    requires Going(r, d, ss, ts, b) && r.size == LOGSIZE
    requires r.start + r.size <= b && b + m <= |d| && b + m <= 0x1_0000_0000
    requires k < |ss[|ts|].open| && |ss[|ts|].open[k].blocks| <= j && j + m <= MAXOPBLOCKS
    requires |ss[|ts|].lh| + m <= LOGSIZE - 1
    ensures Going(r, d, ss', ts', b + m) && ss'[0] == ss[0]
    ensures |ss'[|ts'|].lh| == |ss[|ts|].lh| + m
    ensures |ss'[|ts'|].open| == |ss[|ts|].open|
    ensures forall i :: 0 <= i < |ss[|ts|].open| && i != k ==> ss'[|ts'|].open[i] == ss[|ts|].open[i]
    decreases m
  {
    if m == 0 { return ss, ts; }
    var s, t := ss[|ts|], LogWrite(k, b, ZeroBlock());
    assert |s.open[k].blocks + {b}| <= |s.open[k].blocks| + 1 by {
      assert s.open[k].blocks + {b} == s.open[k].blocks || |s.open[k].blocks + {b}| == |s.open[k].blocks| + 1;
    }
    Extend(r, ss, ts, t);
    AbsorbNew(s.lh, b);
    AbsorbOk(r, |s.disk|, s.lh, b);
    ss', ts' := Fill(r, d, ss + [Do(r, s, t)], ts + [t], k, b + 1, m - 1, j + 1);
  }

  lemma StartThree(r: Region, d: Disk) returns (ss: seq<State>, ts: seq<Step>)
    requires WellFormed(r, d) && HeadIs(d[r.start], [])
    ensures Going(r, d, ss, ts, 0) && ss[0].disk == d
    ensures ss[|ts|].open == [Op(0, {}), Op(1, {}), Op(2, {})] && ss[|ts|].lh == []
  {
    var s0 := State(d, map[], [], [], GroupCommit.Boot, {}, [], 0);
    var s1 := Do(r, s0, ReadHead);
    var s2 := Do(r, s1, EraseHead);
    PutZeroBack(d[r.start], 0);
    assert s2.disk == d;
    ss, ts := [s0], [];
    Extend(r, ss, ts, ReadHead);
    ss, ts := [s0, s1], [ReadHead];
    Extend(r, ss, ts, EraseHead);
    ss, ts := [s0, s1, s2], [ReadHead, EraseHead];
    ss, ts := StartOps(r, d, ss, ts);
  }

  lemma StartOps(r: Region, d: Disk, ss: seq<State>, ts: seq<Step>) returns (ss': seq<State>, ts': seq<Step>)
    requires Going(r, d, ss, ts, 0) && ss[|ts|].open == [] && ss[|ts|].events == [] && ss[|ts|].lh == []
    requires ss[|ts|].asleep == {}
    ensures Going(r, d, ss', ts', 0) && ss'[0] == ss[0]
    ensures ss'[|ts'|].open == [Op(0, {}), Op(1, {}), Op(2, {})] && ss'[|ts'|].lh == []
  {
    ss', ts' := ss, ts;
    var k := 0;
    while k < 3
      invariant 0 <= k <= 3 && Going(r, d, ss', ts', 0) && ss'[0] == ss[0] && ss'[|ts'|].lh == []
      invariant ss'[|ts'|].asleep == {} && |ss'[|ts'|].open| == k
      invariant forall i :: 0 <= i < k ==> ss'[|ts'|].open[i] == Op(i, {})
      invariant forall i :: 0 <= i < |ss'[|ts'|].events| ==> ss'[|ts'|].events[i].op < k
    {
      Extend(r, ss', ts', Begin(k));
      ss', ts' := ss' + [Do(r, ss'[|ts'|], Begin(k))], ts' + [Begin(k)];
      k := k + 1;
    }
  }

  /** Three operations of 10, 10 and 9 blocks fill the header to 29: although each
      keeps to MAXOPBLOCKS, the third one's tenth log_write panics. */
  lemma PanicRun(r: Region, d: Disk) returns (ss: seq<State>, ts: seq<Step>)
    requires WellFormed(r, d) && HeadIs(d[r.start], [])
    requires r.size == LOGSIZE && r.start + 2 * LOGSIZE <= |d| <= 0x1_0000_0000
    ensures IsRunWithin(r, MAXOPBLOCKS, ss, ts) && ss[0].disk == d && WouldPanic(r, ss[|ts|])
  {
    var b := r.start + r.size;
    ss, ts := StartThree(r, d);
    assert Going(r, d, ss, ts, b);
    ss, ts := Fill(r, d, ss, ts, 0, b, 10, 0);
    ss, ts := Fill(r, d, ss, ts, 1, b + 10, 10, 0);
    ss, ts := Fill(r, d, ss, ts, 2, b + 20, 9, 0);
  }

  /** The exact bound, for mkfs's 30-block log: some interleaving panics if and only
      if operations may log MAXOPBLOCKS blocks or more. */
  lemma PanicIff(r: Region, d: Disk, bound: nat)
    requires WellFormed(r, d) && HeadIs(d[r.start], [])
    requires r.size == LOGSIZE && r.start + 2 * LOGSIZE <= |d| <= 0x1_0000_0000
    ensures bound >= MAXOPBLOCKS <==>
              exists ss: seq<State>, ts: seq<Step> ::
                IsRunWithin(r, bound, ss, ts) && ss[0].disk == d && WouldPanic(r, ss[|ts|])
  {
    if bound >= MAXOPBLOCKS {
      var ss, ts := PanicRun(r, d);
      forall i | 0 <= i < |ts| ensures Within(bound, ss[i], ts[i]) {
        assert Within(MAXOPBLOCKS, ss[i], ts[i]);
      }
      assert IsRunWithin(r, bound, ss, ts);
    } else {
      forall ss: seq<State>, ts: seq<Step> | IsRunWithin(r, bound, ss, ts) && ss[0].disk == d
        ensures !WouldPanic(r, ss[|ts|])
      {
        NeverTooBig(r, bound, ss, ts, |ts|);
      }
    }
  }
}
