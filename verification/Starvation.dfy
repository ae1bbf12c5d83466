/** No process waits for ever: aging brings it to level 0, where every arrival goes
    behind it. Runs are sequences of the steps that the Scheduler class specifies:
    a dispatch, an aging pass, one process becoming runnable, or one process changing
    without being queued or taken from a queue. */
module Starvation {
  import opened Common
  import opened DList
  import opened Scheduler

  datatype Sys = Sys(proc: seq<Proc>, q: seq<seq<nat>>)

  datatype Event = Dispatching | AgingPass | Arriving(p: nat, x: Proc) | Changing(p: nat, x: Proc)

  /** What the run-queue invariant says of the lists, without the links. */
  ghost predicate Fine(s: Sys) {
    && |s.proc| == NPROC && |s.q| == PLEVELS && Queued(s.proc, s.q)
    && (forall x :: 0 <= x < NPROC ==> s.proc[x].nice < PLEVELS)
    && (forall x :: 0 <= x < NPROC && s.proc[x].state == Runnable ==> exists i: nat :: At(s.q, x, s.proc[x].nice, i))
    && forall l :: 0 <= l < PLEVELS ==> Distinct(s.q[l])
  }

  ghost predicate Distinct(s: seq<nat>) {
    forall i, j :: 0 <= i < j < |s| ==> s[i] != s[j]
  }

  lemma ValidIsFine(proc: seq<Proc>, ln: Links, q: seq<seq<nat>>, pos: seq<seq<nat>>)
    requires ValidBut(proc, ln, q, pos, -1)
    ensures Fine(Sys(proc, q))
  {
    forall x | 0 <= x < NPROC && proc[x].state == Runnable ensures exists i: nat :: At(q, x, proc[x].nice, i) {
      RunnableIffQueued(proc, ln, q, pos, x);
    }
    forall l, i, j | 0 <= l < PLEVELS && 0 <= i < j < |q[l]| ensures q[l][i] != q[l][j] {
      assert List(ln.next, ln.back, ln.heads[l], ln.lasts[l], q[l], pos[l]);
    }
  }

  ghost predicate Step(s: Sys, t: Sys, e: Event) {
    match e
    case Dispatching => exists p :: Dispatched(s.proc, s.q, t.proc, t.q, p)
    case AgingPass => AgedAll(s.proc, s.q, t.proc, t.q)
    case Arriving(p, x) =>
      && p < |s.proc| && s.proc[p].state != Runnable && x.state == Runnable && x.nice < |s.q|
      && t == Sys(s.proc[p := x], Pushed(s.q, x.nice, p))
    case Changing(p, x) =>
      && p < |s.proc| && x.nice < |s.q| && t == Sys(s.proc[p := x], s.q)
      && if s.proc[p].state == Runnable then x == s.proc[p].(killed := x.killed) else x.state != Runnable
  }

  ghost predicate IsRun(ss: seq<Sys>, ev: seq<Event>) {
    && |ss| == |ev| + 1 && Fine(ss[0])
    && forall k :: 0 <= k < |ev| ==> Step(ss[k], ss[k + 1], ev[k])
  }

  function Count(ev: seq<Event>, e: Event): nat {
    if ev == [] then 0 else (if ev[0] == e then 1 else 0) + Count(ev[1..], e)
  }

  ghost predicate Waits(s: Sys, p: nat) {
    p < |s.proc| && s.proc[p].state == Runnable
  }

  /** Step k of the run dispatches p. */
  ghost predicate Runs(ss: seq<Sys>, ev: seq<Event>, p: nat, k: nat) {
    k < |ev| && k + 1 < |ss| && ev[k] == Dispatching && Dispatched(ss[k].proc, ss[k].q, ss[k + 1].proc, ss[k + 1].q, p)
  }

  // ----- every state of a run is in order

  lemma FineDispatch(s: Sys, t: Sys, p: int)
    requires Fine(s) && Dispatched(s.proc, s.q, t.proc, t.q, p)
    ensures Fine(t)
  {
    var l := FirstLevel(s.q);
    if l < |s.q| {
      assert forall i :: 0 <= i < |t.q[l]| ==> t.q[l][i] == s.q[l][i];
      forall x | 0 <= x < NPROC && t.proc[x].state == Runnable ensures exists i: nat :: At(t.q, x, t.proc[x].nice, i) {
        var i: nat :| At(s.q, x, s.proc[x].nice, i);
        assert s.proc[x].nice == l ==> i < |s.q[l]| - 1;
        assert At(t.q, x, t.proc[x].nice, i);
      }
    }
  }

  /** The other processes stay on their lists when p arrives on level l. */
  lemma ArriveAt(q: seq<seq<nat>>, l: nat, p: nat, y: nat, m: nat, i: nat)
    requires l < |q| && At(q, y, m, i)
    ensures At(Pushed(q, l, p), y, m, if m == l then i + 1 else i)
  {
  }

  lemma ArriveQueued(s: Sys, p: nat, x: Proc)
    requires Fine(s) && p < NPROC && s.proc[p].state != Runnable && x.state == Runnable && x.nice < PLEVELS
    ensures
      var t := Sys(s.proc[p := x], Pushed(s.q, x.nice, p));
      Queued(t.proc, t.q) && forall l :: 0 <= l < PLEVELS ==> Distinct(t.q[l])
  {
    hide At;
    var q := Pushed(s.q, x.nice, p);
    assert forall i :: 0 <= i < |q[x.nice]| ==> q[x.nice][i] == if i == 0 then p else s.q[x.nice][i - 1];
  }

  lemma FineArrive(s: Sys, t: Sys, p: nat, x: Proc)
    requires Fine(s) && Step(s, t, Arriving(p, x))
    ensures Fine(t)
  {
    ArriveQueued(s, p, x);
    hide Queued, Distinct;
    forall y | 0 <= y < NPROC && t.proc[y].state == Runnable ensures exists i: nat :: At(t.q, y, t.proc[y].nice, i) {
      if y == p {
        assert At(t.q, y, x.nice, 0);
      } else {
        hide At, Pushed;
        var i: nat :| At(s.q, y, s.proc[y].nice, i);
        ArriveAt(s.q, x.nice, p, y, s.proc[y].nice, i);
      }
    }
  }

  lemma FineChange(s: Sys, t: Sys, p: nat, x: Proc)
    requires Fine(s) && Step(s, t, Changing(p, x))
    ensures Fine(t)
  {
  }

  /** Of a list without repetition: those that stay, and those that rise, are among
      the first k, and do not repeat. */
  lemma {:induction false} Parts(proc: seq<Proc>, s: seq<nat>, k: nat)
    requires Distinct(s) && k <= |s| && forall i :: 0 <= i < |s| ==> s[i] < |proc|
    ensures Distinct(Stay(proc, s, k)) && Distinct(Rise(proc, s, k))
    ensures forall i :: 0 <= i < |Stay(proc, s, k)| ==>
              Stay(proc, s, k)[i] in s[..k] && Stay(proc, s, k)[i] < |proc| && !Old(proc[Stay(proc, s, k)[i]])
    ensures forall i :: 0 <= i < |Rise(proc, s, k)| ==>
              Rise(proc, s, k)[i] in s[..k] && Rise(proc, s, k)[i] < |proc| && Old(proc[Rise(proc, s, k)[i]])
  {
    if k > 0 {
      Parts(proc, s, k - 1);
      StayNext(proc, s, k);
      RiseNext(proc, s, k);
      hide Stay, Rise, Old;
      assert s[..k] == s[..k - 1] + [s[k - 1]];
      assert s[k - 1] !in s[..k - 1];
    }
  }

  /** Level l after an aging pass: the processes of that level, each once. */
  ghost predicate LevelFine(proc: seq<Proc>, s: seq<nat>, l: nat) {
    && Distinct(s)
    && forall i :: 0 <= i < |s| ==> s[i] < |proc| && proc[s[i]].nice == l && proc[s[i]].state == Runnable
  }

  ghost predicate FromLevel(proc: seq<Proc>, s: seq<nat>, l: nat) {
    forall i :: 0 <= i < |s| ==> s[i] < |proc| && proc[s[i]].nice == l
  }

  lemma OwnFine(s: Sys, t: Sys, l: nat)
    requires Fine(s) && AgedAll(s.proc, s.q, t.proc, t.q) && l < PLEVELS
    ensures
      var own := if l == 0 then s.q[0] else Stay(s.proc, s.q[l], |s.q[l]|);
      LevelFine(t.proc, own, l) && FromLevel(s.proc, own, l)
  {
    hide Stay, Rise, LevelAfter;
    if l > 0 {
      Parts(s.proc, s.q[l], |s.q[l]|);
    }
  }

  lemma RisenFine(s: Sys, t: Sys, l: nat)
    requires Fine(s) && AgedAll(s.proc, s.q, t.proc, t.q) && l + 1 < PLEVELS
    ensures
      var risen := Rise(s.proc, s.q[l + 1], |s.q[l + 1]|);
      LevelFine(t.proc, risen, l) && FromLevel(s.proc, risen, l + 1)
  {
    hide Stay, Rise, LevelAfter;
    Parts(s.proc, s.q[l + 1], |s.q[l + 1]|);
  }

  lemma JoinFine(proc: seq<Proc>, proc': seq<Proc>, a: seq<nat>, b: seq<nat>, l: nat)
    requires LevelFine(proc', a, l) && LevelFine(proc', b, l) && FromLevel(proc, a, l + 1) && FromLevel(proc, b, l)
    ensures LevelFine(proc', a + b, l)
  {
    forall i, j | 0 <= i < |a| && 0 <= j < |b| ensures a[i] != b[j] {
      assert proc[a[i]].nice != proc[b[j]].nice;
    }
  }

  lemma AgedLevel(s: Sys, t: Sys, l: nat)
    requires Fine(s) && AgedAll(s.proc, s.q, t.proc, t.q) && l < PLEVELS
    ensures LevelFine(t.proc, t.q[l], l)
  {
    hide Stay, Rise, LevelFine, FromLevel, Distinct, Queued, At;
    OwnFine(s, t, l);
    if l + 1 < PLEVELS {
      RisenFine(s, t, l);
    }
    var own := if l == 0 then s.q[0] else Stay(s.proc, s.q[l], |s.q[l]|);
    if l + 1 < PLEVELS {
      JoinFine(s.proc, t.proc, Rise(s.proc, s.q[l + 1], |s.q[l + 1]|), own, l);
    }
    assert t.q[l] == LevelAfter(s.proc, s.q, l, PLEVELS);
  }

  /** A process that waits is on its level's list after an aging pass. */
  lemma AgedAt(s: Sys, t: Sys, x: nat) returns (i: nat)
    requires Fine(s) && AgedAll(s.proc, s.q, t.proc, t.q) && x < NPROC && s.proc[x].state == Runnable
    ensures At(t.q, x, t.proc[x].nice, i)
  {
    hide Stay, Rise;
    var l := s.proc[x].nice;
    var j: nat :| At(s.q, x, l, j);
    if l == 0 {
      i := |t.q[0]| - |s.q[0]| + j;
    } else if Old(s.proc[x]) {
      RiseAt(s.proc, s.q[l], |s.q[l]|, j);
      i := |Rise(s.proc, s.q[l], |s.q[l]|)| - |Rise(s.proc, s.q[l], j + 1)|;
    } else {
      StayAt(s.proc, s.q[l], |s.q[l]|, j);
      i := |t.q[l]| - |Stay(s.proc, s.q[l], |s.q[l]|)| + |Stay(s.proc, s.q[l], j)|;
    }
  }

  lemma FineAging(s: Sys, t: Sys)
    requires Fine(s) && AgedAll(s.proc, s.q, t.proc, t.q)
    ensures Fine(t)
  {
    hide LevelAfter;
    forall l | 0 <= l < PLEVELS ensures LevelFine(t.proc, t.q[l], l) {
      AgedLevel(s, t, l);
    }
    forall x | 0 <= x < NPROC && t.proc[x].state == Runnable ensures exists i: nat :: At(t.q, x, t.proc[x].nice, i) {
      var i := AgedAt(s, t, x);
    }
  }

  lemma FineStep(s: Sys, t: Sys, e: Event)
    requires Fine(s) && Step(s, t, e)
    ensures Fine(t)
  {
    hide Fine, AgedAll, Dispatched;
    match e
    case Dispatching =>
      var p :| Dispatched(s.proc, s.q, t.proc, t.q, p);
      FineDispatch(s, t, p);
    case AgingPass => FineAging(s, t);
    case Arriving(p, x) => FineArrive(s, t, p, x);
    case Changing(p, x) => FineChange(s, t, p, x);
  }

  /** The run-queue invariant holds throughout a run. */
  lemma {:induction false} FineRun(ss: seq<Sys>, ev: seq<Event>, n: nat)
    requires IsRun(ss, ev) && n <= |ev|
    ensures Fine(ss[n])
  {
    hide Fine, Step;
    if n > 0 {
      FineRun(ss, ev, n - 1);
      FineStep(ss[n - 1], ss[n], ev[n - 1]);
    }
  }

  // ----- the steps of the Scheduler class

  lemma CalmUndisturbed(s: Sys, t: Sys, e: Event)
    requires Step(s, t, e) && (e.Arriving? || e.Changing?)
    ensures Undisturbed(s.proc, s.q, t.proc, t.q)
  {
    match e
    case Arriving(p, x) => PushUndisturbed(s.proc, s.q, p, x);
    case Changing(p, x) =>
  }

  /** kill() is one step. */
  lemma KillIsStep(s: Sys, t: Sys, pid: int, p: nat) returns (e: Event)
    requires Fine(s) && Killed(s.proc, s.q, t.proc, t.q, pid, p)
    ensures Step(s, t, e) && (e.Arriving? || e.Changing?)
  {
    e := if s.proc[p].state == Sleeping then Arriving(p, t.proc[p]) else Changing(p, t.proc[p]);
  }

  /** The processes after wakeup1(chan) has passed the first n. */
  ghost function AwakeTo(proc: seq<Proc>, chan: int, n: nat): seq<Proc> {
    seq(|proc|, x requires 0 <= x < |proc| =>
      if x < n && SleepsOn(proc[x], chan) then Awake(proc[x]) else proc[x])
  }

  /** wakeup1() is a run of arrivals. */
  lemma {:induction false} WakeupIsRun(s: Sys, chan: int, n: nat) returns (ss: seq<Sys>, ev: seq<Event>)
    requires Fine(s) && n <= NPROC
    ensures IsRun(ss, ev) && ss[0] == s && forall k :: 0 <= k < |ev| ==> ev[k].Arriving?
    ensures ss[|ev|] == Sys(AwakeTo(s.proc, chan, n), Roused(s.proc, s.q, chan, n))
  {
    if n == 0 {
      assert AwakeTo(s.proc, chan, 0) == s.proc;
      return [s], [];
    }
    ss, ev := WakeupIsRun(s, chan, n - 1);
    var p := n - 1;
    if SleepsOn(s.proc[p], chan) {
      var x := Awake(s.proc[p]);
      var t := Sys(AwakeTo(s.proc, chan, n), Roused(s.proc, s.q, chan, n));
      assert t.proc == AwakeTo(s.proc, chan, n - 1)[p := x];
      assert Step(ss[|ev|], t, Arriving(p, x));
      ss, ev := ss + [t], ev + [Arriving(p, x)];
    } else {
      assert AwakeTo(s.proc, chan, n) == AwakeTo(s.proc, chan, n - 1);
    }
  }

  // ----- one step

  /** The only step that ends p's waiting is its dispatch. */
  lemma LeavesByDispatch(s: Sys, t: Sys, e: Event, p: nat)
    requires Fine(s) && Fine(t) && Step(s, t, e) && Waits(s, p)
    ensures Waits(t, p) || (e == Dispatching && Dispatched(s.proc, s.q, t.proc, t.q, p))
    ensures Waits(t, p) && e != AgingPass ==> t.proc[p].nice == s.proc[p].nice && t.proc[p].age == s.proc[p].age
  {
    if e.Arriving? || e.Changing? {
      CalmUndisturbed(s, t, e);
    }
  }

  /** How many aging passes away from level 0 a process is. */
  function Need(x: Proc): nat {
    if x.nice == 0 then 0 else x.nice + if x.age >= AGELIMIT - 1 then 0 else AGELIMIT - 1 - x.age
  }

  lemma NeedStep(s: Sys, t: Sys, e: Event, p: nat)
    requires Fine(s) && Fine(t) && Step(s, t, e) && Waits(s, p) && Waits(t, p)
    ensures Need(t.proc[p]) == if e == AgingPass && s.proc[p].nice > 0 then Need(s.proc[p]) - 1 else Need(s.proc[p])
  {
    hide LevelAfter;
    if e != AgingPass {
      LeavesByDispatch(s, t, e, p);
    }
  }

  lemma {:induction false} NeedFalls(ss: seq<Sys>, ev: seq<Event>, p: nat)
    requires IsRun(ss, ev) && p < NPROC && forall j :: 0 <= j < |ss| ==> Waits(ss[j], p)
    ensures Waits(ss[0], p) && Waits(ss[|ev|], p)
    ensures Need(ss[|ev|].proc[p]) == 0 || Need(ss[|ev|].proc[p]) + Count(ev, AgingPass) <= Need(ss[0].proc[p])
  {
    if ev != [] {
      FineStep(ss[0], ss[1], ev[0]);
      NeedStep(ss[0], ss[1], ev[0], p);
      hide Step, Fine, Need;
      NeedFalls(ss[1..], ev[1..], p);
    }
  }

  /** A process that waits at level k for AGELIMIT - 1 + k aging passes is at level 0. */
  lemma RisesToTop(ss: seq<Sys>, ev: seq<Event>, p: nat)
    requires IsRun(ss, ev) && p < NPROC && forall j :: 0 <= j < |ss| ==> Waits(ss[j], p)
    requires Count(ev, AgingPass) >= AGELIMIT - 1 + ss[0].proc[p].nice
    ensures Waits(ss[|ev|], p) && ss[|ev|].proc[p].nice == 0
  {
    NeedFalls(ss, ev, p);
  }

  /** At level 0 nothing overtakes p: each dispatch takes it or one of those before it. */
  lemma TopStep(s: Sys, t: Sys, e: Event, p: nat, i: nat) returns (i': nat)
    requires Fine(s) && Fine(t) && Step(s, t, e) && Waits(t, p) && p < NPROC && At(s.q, p, 0, i)
    ensures At(t.q, p, 0, i') && |t.q[0]| - i' == |s.q[0]| - i - if e == Dispatching then 1 else 0
  {
    hide Fine, AgedAll, Undisturbed, Dispatched;
    match e
    case Dispatching =>
      var x :| Dispatched(s.proc, s.q, t.proc, t.q, x);
      i' := i;
      TopDispatch(s, t, p, i, x);
    case AgingPass =>
      i' := TopAging(s, t, p, i);
    case _ =>
      CalmUndisturbed(s, t, e);
      i' := TopOther(s, t, p, i);
  }

  lemma TopDispatch(s: Sys, t: Sys, p: nat, i: nat, x: int)
    requires Fine(s) && Dispatched(s.proc, s.q, t.proc, t.q, x) && Waits(t, p) && At(s.q, p, 0, i)
    ensures At(t.q, p, 0, i) && |t.q[0]| == |s.q[0]| - 1
  {
  }

  lemma TopAging(s: Sys, t: Sys, p: nat, i: nat) returns (i': nat)
    requires AgedAll(s.proc, s.q, t.proc, t.q) && At(s.q, p, 0, i)
    ensures At(t.q, p, 0, i') && |t.q[0]| - i' == |s.q[0]| - i
  {
    hide Stay, Rise;
    i' := i + |t.q[0]| - |s.q[0]|;
    assert t.q[0] == LevelAfter(s.proc, s.q, 0, PLEVELS);
  }

  lemma TopOther(s: Sys, t: Sys, p: nat, i: nat) returns (i': nat)
    requires Undisturbed(s.proc, s.q, t.proc, t.q) && At(s.q, p, 0, i)
    ensures At(t.q, p, 0, i') && |t.q[0]| - i' == |s.q[0]| - i
  {
    i' := i + |t.q[0]| - |s.q[0]|;
    assert Behind(s.q[0], t.q[0]);
    assert t.q[0][i'] == t.q[0][|t.q[0]| - |s.q[0]|..][i];
  }

  /** From level 0 a process is dispatched within one more dispatch than the number of
      entries that are served before it. */
  lemma {:induction false} ServedFromTop(ss: seq<Sys>, ev: seq<Event>, p: nat, i: nat) returns (k: nat)
    requires IsRun(ss, ev) && p < NPROC && At(ss[0].q, p, 0, i)
    requires Count(ev, Dispatching) > |ss[0].q[0]| - 1 - i
    ensures Runs(ss, ev, p, k)
    decreases |ev|
  {
    assert ss[0].proc[ss[0].q[0][i]].state == Runnable;
    FineStep(ss[0], ss[1], ev[0]);
    hide Step, Fine;
    LeavesByDispatch(ss[0], ss[1], ev[0], p);
    if Waits(ss[1], p) {
      var j := TopStep(ss[0], ss[1], ev[0], p, i);
      k := ServedFromTop(ss[1..], ev[1..], p, j);
      k := k + 1;
    } else {
      k := 0;
    }
  }

  // ----- whole runs

  lemma {:induction false} Pigeonhole(s: seq<nat>, n: nat)
    requires forall i :: 0 <= i < |s| ==> s[i] < n
    requires forall i, j :: 0 <= i < j < |s| ==> s[i] != s[j]
    ensures |s| <= n
  {
    if s != [] {
      assert s[0] < n;
      if k :| 0 <= k < |s| && s[k] == n - 1 {
        Pigeonhole(s[..k] + s[k + 1..], n - 1);
      } else {
        Pigeonhole(s, n - 1);
      }
    }
  }

  lemma Place(s: Sys, p: nat) returns (i: nat)
    requires Fine(s) && Waits(s, p)
    ensures s.proc[p].nice < PLEVELS && At(s.q, p, s.proc[p].nice, i) && |s.q[0]| <= NPROC
  {
    i :| At(s.q, p, s.proc[p].nice, i);
    Pigeonhole(s.q[0], NPROC);
  }

  /** A process that waits at level k is dispatched in every run with AGELIMIT - 1 + k
      aging passes and then NPROC dispatches. */
  lemma NoStarvation(ss: seq<Sys>, ev: seq<Event>, p: nat, m: nat) returns (k: nat)
    requires IsRun(ss, ev) && Waits(ss[0], p) && m <= |ev|
    requires Count(ev[..m], AgingPass) >= AGELIMIT - 1 + ss[0].proc[p].nice
    requires Count(ev[m..], Dispatching) >= NPROC
    ensures Runs(ss, ev, p, k)
  {
    assert |ss[0].proc| == NPROC;
    hide Fine, Step, Dispatched;
    k := 0;
    while k < m
      invariant k <= m && Fine(ss[k]) && forall j :: 0 <= j <= k ==> Waits(ss[j], p)
    {
      FineRun(ss, ev, k + 1);
      LeavesByDispatch(ss[k], ss[k + 1], ev[k], p);
      if !Waits(ss[k + 1], p) {
        return;
      }
      k := k + 1;
    }
    RisesToTop(ss[..m + 1], ev[..m], p);
    assert ss[..m + 1][m] == ss[m];
    var i := Place(ss[m], p);
    k := ServedFromTop(ss[m..], ev[m..], p, i);
    k := k + m;
  }
}
