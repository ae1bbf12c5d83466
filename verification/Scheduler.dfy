/** The run queues of proc.c. A process is an index into ptable.proc. */
module Scheduler {
  import opened Common
  import opened DList

  const PLEVELS := 4
  const AGELIMIT := 5
  const DEFAULTPLEVEL := 0

  datatype PState = Unused | Embryo | Sleeping | Runnable | Running | Zombie

  datatype Proc = Proc(state: PState, nice: nat, age: nat, pid: int, killed: bool, chan: int)

  /** The next and back fields of every process, and the levels' heads and lasts. */
  datatype Links = Links(next: seq<int>, back: seq<int>, heads: seq<int>, lasts: seq<int>)

  ghost predicate Shape(proc: seq<Proc>, ln: Links, q: seq<seq<nat>>, pos: seq<seq<nat>>) {
    && |proc| == |ln.next| == |ln.back| == NPROC
    && |ln.heads| == |ln.lasts| == |q| == |pos| == PLEVELS
  }

  ghost predicate Lists(ln: Links, q: seq<seq<nat>>, pos: seq<seq<nat>>)
    requires |ln.heads| == |ln.lasts| == |q| == |pos| == PLEVELS
  {
    forall l :: 0 <= l < PLEVELS ==> List(ln.next, ln.back, ln.heads[l], ln.lasts[l], q[l], pos[l])
  }

  /** What is queued is runnable and on the level of its nice value. */
  ghost predicate Queued(proc: seq<Proc>, q: seq<seq<nat>>)
    requires |q| == PLEVELS
  {
    forall l, i :: 0 <= l < PLEVELS && 0 <= i < |q[l]| ==>
      q[l][i] < |proc| && proc[q[l][i]].nice == l && proc[q[l][i]].state == Runnable
  }

  /** Process p is on the list of its level. */
  ghost predicate OnList(proc: seq<Proc>, q: seq<seq<nat>>, pos: seq<seq<nat>>, p: nat)
    requires p < |proc| && |q| == |pos| == PLEVELS
  {
    var l := proc[p].nice;
    l < PLEVELS && p < |pos[l]| && pos[l][p] < |q[l]| && q[l][pos[l][p]] == p
  }

  /** The run-queue invariant, except that process p (none if negative) may be
      runnable without being queued. */
  ghost predicate ValidBut(proc: seq<Proc>, ln: Links, q: seq<seq<nat>>, pos: seq<seq<nat>>, p: int) {
    && Shape(proc, ln, q, pos) && Lists(ln, q, pos) && Queued(proc, q)
    && (forall x :: 0 <= x < NPROC ==> proc[x].nice < PLEVELS)
    && (forall x :: 0 <= x < NPROC && x != p && proc[x].state == Runnable ==> OnList(proc, q, pos, x))
    && (forall l, i :: 0 <= l < PLEVELS && 0 <= i < |q[l]| ==> q[l][i] != p)
  }

  // ----- the effect of enqueue and of cutting a process out

  function PushLinks(ln: Links, l: nat, p: nat): Links
    requires l < |ln.heads| == |ln.lasts| && p < |ln.next| == |ln.back| && ln.heads[l] < |ln.back|
  {
    Links(PushNext(ln.next, ln.heads[l], p), PushBack(ln.back, ln.heads[l], p),
          ln.heads[l := p], if ln.heads[l] >= 0 then ln.lasts else ln.lasts[l := p])
  }

  function CutLinks(ln: Links, l: nat, p: nat): Links
    requires l < |ln.heads| == |ln.lasts| && p < |ln.next| == |ln.back|
    requires ln.next[p] < |ln.next| && ln.back[p] < |ln.next|
  {
    Links(CutNext(ln.next, ln.back, p), CutBack(ln.next, ln.back, p),
          if ln.back[p] >= 0 then ln.heads else ln.heads[l := ln.next[p]],
          if ln.next[p] >= 0 then ln.lasts else ln.lasts[l := ln.back[p]])
  }

  lemma PushLists(ln: Links, q: seq<seq<nat>>, pos: seq<seq<nat>>, l: nat, p: nat)
    requires |ln.heads| == |ln.lasts| == |q| == |pos| == PLEVELS && l < PLEVELS && p < |ln.next| == |ln.back|
    requires Lists(ln, q, pos)
    requires forall m, i :: 0 <= m < PLEVELS && 0 <= i < |q[m]| ==> q[m][i] != p
    requires forall m, i :: 0 <= m < PLEVELS && m != l && 0 <= i < |q[m]| ==> q[m][i] != ln.heads[l]
    ensures ln.heads[l] < |ln.back|
    ensures Lists(PushLinks(ln, l, p), q[l := [p] + q[l]], pos[l := PosPush(pos[l], p)])
  {
    assert List(ln.next, ln.back, ln.heads[l], ln.lasts[l], q[l], pos[l]);
    Push(ln.next, ln.back, ln.heads[l], ln.lasts[l], q[l], pos[l], p);
    var ln' := PushLinks(ln, l, p);
    forall m | 0 <= m < PLEVELS && m != l ensures List(ln'.next, ln'.back, ln'.heads[m], ln'.lasts[m], q[m], pos[m]) {
      assert List(ln.next, ln.back, ln.heads[m], ln.lasts[m], q[m], pos[m]);
      Frame(ln.next, ln.back, ln'.next, ln'.back, q[m], pos[m]);
    }
  }

  lemma CutLists(ln: Links, q: seq<seq<nat>>, pos: seq<seq<nat>>, l: nat, k: nat)
    requires |ln.heads| == |ln.lasts| == |q| == |pos| == PLEVELS && l < PLEVELS && |ln.next| == |ln.back|
    requires Lists(ln, q, pos) && k < |q[l]|
    requires forall m, i, j :: 0 <= m < PLEVELS && m != l && 0 <= i < |q[m]| && 0 <= j < |q[l]| ==> q[m][i] != q[l][j]
    ensures q[l][k] < |ln.next| && ln.next[q[l][k]] < |ln.next| && ln.back[q[l][k]] < |ln.next|
    ensures Lists(CutLinks(ln, l, q[l][k]), q[l := Without(q[l], k)], pos[l := PosWithout(pos[l], k)])
  {
    var p := q[l][k];
    assert List(ln.next, ln.back, ln.heads[l], ln.lasts[l], q[l], pos[l]);
    Cut(ln.next, ln.back, ln.heads[l], ln.lasts[l], q[l], pos[l], k);
    assert ln.next[p] == if k + 1 < |q[l]| then q[l][k + 1] else NULL;
    assert ln.back[p] == if k > 0 then q[l][k - 1] else NULL;
    var ln' := CutLinks(ln, l, p);
    forall m | 0 <= m < PLEVELS && m != l ensures List(ln'.next, ln'.back, ln'.heads[m], ln'.lasts[m], q[m], pos[m]) {
      assert List(ln.next, ln.back, ln.heads[m], ln.lasts[m], q[m], pos[m]);
      Frame(ln.next, ln.back, ln'.next, ln'.back, q[m], pos[m]);
    }
  }

  ghost function Pushed(q: seq<seq<nat>>, l: nat, p: nat): seq<seq<nat>>
    requires l < |q|
  {
    q[l := [p] + q[l]]
  }

  lemma PushQueued(proc: seq<Proc>, q: seq<seq<nat>>, p: nat)
    requires |q| == PLEVELS && Queued(proc, q) && p < |proc| && proc[p].nice < PLEVELS
    requires forall m, i :: 0 <= m < PLEVELS && 0 <= i < |q[m]| ==> q[m][i] != p
    ensures Queued(proc[p := proc[p].(state := Runnable)], Pushed(q, proc[p].nice, p))
  {
  }

  lemma PushOnList(proc: seq<Proc>, q: seq<seq<nat>>, pos: seq<seq<nat>>, p: nat, x: nat)
    requires |q| == |pos| == PLEVELS && p < |proc| && proc[p].nice < PLEVELS && x < |proc|
    requires x == p ==> p < |pos[proc[p].nice]|
    requires x != p ==> OnList(proc, q, pos, x)
    ensures OnList(proc[p := proc[p].(state := Runnable)], Pushed(q, proc[p].nice, p),
                   pos[proc[p].nice := PosPush(pos[proc[p].nice], p)], x)
  {
  }

  /** enqueue() completes the invariant for the process it queues. */
  lemma EnqueueKeeps(proc: seq<Proc>, ln: Links, q: seq<seq<nat>>, pos: seq<seq<nat>>, p: nat)
    requires p < NPROC && ValidBut(proc, ln, q, pos, p)
    ensures ln.heads[proc[p].nice] < NPROC
    ensures ValidBut(proc[p := proc[p].(state := Runnable)], PushLinks(ln, proc[p].nice, p),
                     Pushed(q, proc[p].nice, p), pos[proc[p].nice := PosPush(pos[proc[p].nice], p)], -1)
  {
    hide OnList, Lists, Queued;
    var l := proc[p].nice;
    HeadElsewhere(proc, ln, q, pos, l);
    PushLists(ln, q, pos, l, p);
    PushQueued(proc, q, p);
    var proc', q', pos' := proc[p := proc[p].(state := Runnable)], Pushed(q, l, p), pos[l := PosPush(pos[l], p)];
    forall x | 0 <= x < NPROC && proc'[x].state == Runnable ensures OnList(proc', q', pos', x) {
      PushOnList(proc, q, pos, p, x);
    }
  }

  /** The head of level l is on no other level. */
  lemma HeadElsewhere(proc: seq<Proc>, ln: Links, q: seq<seq<nat>>, pos: seq<seq<nat>>, l: nat)
    requires Shape(proc, ln, q, pos) && Lists(ln, q, pos) && Queued(proc, q) && l < PLEVELS
    ensures forall m, i :: 0 <= m < PLEVELS && m != l && 0 <= i < |q[m]| ==> q[m][i] != ln.heads[l]
    ensures |pos[l]| == NPROC
  {
  }

  ghost function Removed(q: seq<seq<nat>>, l: nat, k: nat): seq<seq<nat>>
    requires l < |q| && k < |q[l]|
  {
    q[l := Without(q[l], k)]
  }

  lemma RemoveQueued(proc: seq<Proc>, q: seq<seq<nat>>, pos: seq<seq<nat>>, l: nat, k: nat)
    requires |q| == |pos| == PLEVELS && Queued(proc, q) && l < PLEVELS && k < |q[l]|
    requires forall i :: 0 <= i < |q[l]| ==> q[l][i] < |pos[l]| && pos[l][q[l][i]] == i
    ensures Queued(proc, Removed(q, l, k))
    ensures forall m, i :: 0 <= m < PLEVELS && 0 <= i < |Removed(q, l, k)[m]| ==> Removed(q, l, k)[m][i] != q[l][k]
  {
  }

  lemma RemoveOnList(proc: seq<Proc>, q: seq<seq<nat>>, pos: seq<seq<nat>>, l: nat, k: nat, x: nat)
    requires |q| == |pos| == PLEVELS && l < PLEVELS && k < |q[l]| && x < |proc|
    requires OnList(proc, q, pos, x) && x != q[l][k]
    ensures OnList(proc, Removed(q, l, k), pos[l := PosWithout(pos[l], k)], x)
  {
  }

  /** Cutting process q[l][k] out of its list leaves the rest in order. */
  lemma RemoveKeeps(proc: seq<Proc>, ln: Links, q: seq<seq<nat>>, pos: seq<seq<nat>>, l: nat, k: nat)
    requires ValidBut(proc, ln, q, pos, -1) && l < PLEVELS && k < |q[l]|
    ensures q[l][k] < NPROC && NULL <= ln.next[q[l][k]] < NPROC && NULL <= ln.back[q[l][k]] < NPROC
    ensures k == |q[l]| - 1 ==> ln.next[q[l][k]] == NULL
    ensures ValidBut(proc, CutLinks(ln, l, q[l][k]), Removed(q, l, k), pos[l := PosWithout(pos[l], k)], q[l][k])
  {
    hide OnList;
    assert List(ln.next, ln.back, ln.heads[l], ln.lasts[l], q[l], pos[l]);
    forall m, i, j | 0 <= m < PLEVELS && m != l && 0 <= i < |q[m]| && 0 <= j < |q[l]| ensures q[m][i] != q[l][j] {
      assert proc[q[m][i]].nice == m && proc[q[l][j]].nice == l;
    }
    CutLists(ln, q, pos, l, k);
    RemoveQueued(proc, q, pos, l, k);
    var q', pos' := Removed(q, l, k), pos[l := PosWithout(pos[l], k)];
    forall x | 0 <= x < NPROC && x != q[l][k] && proc[x].state == Runnable ensures OnList(proc, q', pos', x) {
      RemoveOnList(proc, q, pos, l, k, x);
    }
  }

  /** A process outside the lists can change freely. */
  lemma ChangeLoose(proc: seq<Proc>, ln: Links, q: seq<seq<nat>>, pos: seq<seq<nat>>, p: nat, x: Proc)
    requires p < NPROC && ValidBut(proc, ln, q, pos, p) && x.nice < PLEVELS
    ensures ValidBut(proc[p := x], ln, q, pos, p)
    ensures x.state != Runnable ==> ValidBut(proc[p := x], ln, q, pos, -1)
  {
  }

  lemma Loosen(proc: seq<Proc>, ln: Links, q: seq<seq<nat>>, pos: seq<seq<nat>>, p: nat)
    requires p < NPROC && ValidBut(proc, ln, q, pos, -1) && proc[p].state != Runnable
    ensures ValidBut(proc, ln, q, pos, p)
  {
  }

  lemma EndsOf(proc: seq<Proc>, ln: Links, q: seq<seq<nat>>, pos: seq<seq<nat>>, l: nat)
    requires Shape(proc, ln, q, pos) && Lists(ln, q, pos) && l < PLEVELS
    ensures Ends(ln.heads[l], ln.lasts[l], q[l])
  {
  }

  /** The level that scheduler() picks: the first that is not empty. */
  ghost function FirstLevel(q: seq<seq<nat>>): (l: nat)
    ensures l <= |q| && (l < |q| ==> q[l] != []) && forall m :: 0 <= m < l ==> q[m] == []
    decreases |q|
  {
    if q == [] then 0 else if q[0] != [] then 0 else 1 + FirstLevel(q[1..])
  }

  /** scheduler() took p, the end of the first level that is not empty; -1 if there is none. */
  ghost predicate Dispatched(proc: seq<Proc>, q: seq<seq<nat>>, proc': seq<Proc>, q': seq<seq<nat>>, p: int) {
    var l := FirstLevel(q);
    if l == |q| then p == -1 && proc' == proc && q' == q
    else
      && p == q[l][|q[l]| - 1] && 0 <= p < |proc|
      && q' == Removed(q, l, |q[l]| - 1)
      && proc' == proc[p := proc[p].(state := Running)]
  }

  /** A step that neither dispatches nor ages: arrivals go behind what waits, and
      what waits stays as it is. */
  ghost predicate Undisturbed(proc: seq<Proc>, q: seq<seq<nat>>, proc': seq<Proc>, q': seq<seq<nat>>) {
    && |proc'| == |proc| && |q'| == |q| && (forall l :: 0 <= l < |q| ==> Behind(q[l], q'[l]))
    && forall x :: 0 <= x < |proc| && proc[x].state == Runnable ==>
         proc'[x].state == Runnable && proc'[x].nice == proc[x].nice && proc'[x].age == proc[x].age
  }

  lemma PushUndisturbed(proc: seq<Proc>, q: seq<seq<nat>>, p: nat, x: Proc)
    requires p < |proc| && proc[p].state != Runnable && x.nice < |q|
    ensures Undisturbed(proc, q, proc[p := x], Pushed(q, x.nice, p)) && Undisturbed(proc, q, proc[p := x], q)
  {
  }

  /** The pointer updates of dequeue(). */
  method TakeLast(ln0: Links, l: nat, p: nat) returns (ln: Links)
    requires l < |ln0.heads| == |ln0.lasts| && p < |ln0.next| == |ln0.back|
    requires ln0.next[p] == NULL <= ln0.back[p] < |ln0.next|
    ensures ln == CutLinks(ln0, l, p)
  {
    ln := ln0;
    if ln.back[p] == NULL {
      ln := ln.(lasts := ln.lasts[l := NULL]);
      ln := ln.(heads := ln.heads[l := NULL]);
    } else {
      ln := ln.(next := ln.next[ln.back[p] := NULL]);
      ln := ln.(lasts := ln.lasts[l := ln.back[p]]);
    }
    ln := ln.(back := ln.back[p := NULL]);
    ln := ln.(next := ln.next[p := NULL]);
  }

  /** The pointer updates of removefromlevel(). */
  method TakeOut(ln0: Links, l: nat, p: nat) returns (ln: Links)
    requires l < |ln0.heads| == |ln0.lasts| && p < |ln0.next| == |ln0.back|
    requires NULL <= ln0.next[p] < |ln0.next| && NULL <= ln0.back[p] < |ln0.next|
    ensures ln == CutLinks(ln0, l, p)
  {
    ln := ln0;
    if ln.back[p] == NULL && ln.next[p] == NULL {
      ln := ln.(heads := ln.heads[l := NULL]);
      ln := ln.(lasts := ln.lasts[l := NULL]);
    } else if ln.next[p] == NULL {
      ln := ln.(next := ln.next[ln.back[p] := NULL]);
      ln := ln.(lasts := ln.lasts[l := ln.back[p]]);
    } else if ln.back[p] == NULL {
      ln := ln.(heads := ln.heads[l := ln.next[p]]);
      ln := ln.(back := ln.back[ln.next[p] := NULL]);
    } else {
      ln := Links(ln.next[ln.back[p] := ln.next[p]], ln.back[ln.next[p] := ln.back[p]], ln.heads, ln.lasts);
    }
    ln := ln.(back := ln.back[p := NULL]);
    ln := ln.(next := ln.next[p := NULL]);
  }

  class Scheduler {
    var proc: seq<Proc>
    var ln: Links
    ghost var q: seq<seq<nat>>    // each level's list, head first; service is from the end
    ghost var pos: seq<seq<nat>>

    ghost predicate Valid()
      reads this
    {
      ValidBut(proc, ln, q, pos, -1)
    }

    constructor ()
      ensures Valid() && q == [[], [], [], []]
      ensures forall p :: 0 <= p < NPROC ==> proc[p] == Proc(Unused, 0, 0, 0, false, 0)
    {
      proc := seq(NPROC, _ => Proc(Unused, 0, 0, 0, false, 0));
      ln := Links(seq(NPROC, _ => NULL), seq(NPROC, _ => NULL), [NULL, NULL, NULL, NULL], [NULL, NULL, NULL, NULL]);
      q := [[], [], [], []];
      var none: seq<nat> := seq(NPROC, _ => 0);
      pos := [none, none, none, none];
    }

    /** enqueue(): p becomes runnable and goes to the head of its level's list. */
    method Enqueue(p: nat)
      requires p < NPROC && ValidBut(proc, ln, q, pos, p)
      modifies this
      ensures Valid()
      ensures proc == old(proc)[p := old(proc)[p].(state := Runnable)]
      ensures old(proc)[p].nice < PLEVELS && q == Pushed(old(q), old(proc)[p].nice, p)
    {
      EnqueueKeeps(proc, ln, q, pos, p);
      hide ValidBut;
      var l := proc[p].nice;
      proc := proc[p := proc[p].(state := Runnable)];
      var h := ln.heads[l];
      ln := ln.(next := ln.next[p := h]);
      ln := ln.(back := ln.back[p := NULL]);
      if h >= 0 {
        ln := ln.(back := ln.back[h := p]);
      } else {
        ln := ln.(lasts := ln.lasts[l := p]);
      }
      ln := ln.(heads := ln.heads[l := p]);
      q, pos := Pushed(q, l, p), pos[l := PosPush(pos[l], p)];
    }

    /** dequeue(): the process at the end of the level's list, cut out of it. */
    method Dequeue(l: nat) returns (p: nat)
      requires Valid() && l < PLEVELS && q[l] != []
      modifies this`ln, this`q, this`pos
      ensures p == old(q)[l][|old(q)[l]| - 1] && p < NPROC
      ensures ValidBut(proc, ln, q, pos, p)
      ensures q == Removed(old(q), l, |old(q)[l]| - 1)
    {
      hide Lists, Queued, OnList;
      ghost var k := |q[l]| - 1;
      EndsOf(proc, ln, q, pos, l);
      RemoveKeeps(proc, ln, q, pos, l, k);
      p := ln.lasts[l];
      ln := TakeLast(ln, l, p);
      q, pos := Removed(q, l, k), pos[l := PosWithout(pos[l], k)];
    }

    /** removefromlevel(), for a process anywhere in the list. */
    method RemoveFromLevel(p: nat, l: nat, ghost k: nat)
      requires Valid() && l < PLEVELS && k < |q[l]| && q[l][k] == p
      modifies this`ln, this`q, this`pos
      ensures ValidBut(proc, ln, q, pos, p)
      ensures q == Removed(old(q), l, k)
    {
      hide Lists, Queued, OnList;
      RemoveKeeps(proc, ln, q, pos, l, k);
      ln := TakeOut(ln, l, p);
      q, pos := Removed(q, l, k), pos[l := PosWithout(pos[l], k)];
    }

    /** One turn of scheduler(): dispatch from the first level that is not empty. */
    method Dispatch() returns (p: int)
      requires Valid()
      modifies this
      ensures Valid()
      ensures Dispatched(old(proc), old(q), proc, q, p)
    {
      hide Lists, Queued, OnList;
      var i := 0;
      while i < PLEVELS && ln.heads[i] == NULL
        invariant Valid() && proc == old(proc) && q == old(q)
        invariant 0 <= i <= PLEVELS && forall m :: 0 <= m < i ==> q[m] == []
      {
        EndsOf(proc, ln, q, pos, i);
        i := i + 1;
      }
      if i == PLEVELS { return -1; }
      EndsOf(proc, ln, q, pos, i);
      p := Dequeue(i);
      ChangeLoose(proc, ln, q, pos, p, proc[p].(state := Running));
      proc := proc[p := proc[p].(state := Running)];
    }

    /** fork()'s and userinit()'s last step, for a process that allocproc() made. */
    method Start(p: nat)
      requires Valid() && p < NPROC && proc[p].state == Embryo
      modifies this
      ensures Valid() && proc == old(proc)[p := old(proc)[p].(state := Runnable)]
      ensures q == Pushed(old(q), old(proc)[p].nice, p)
      ensures Undisturbed(old(proc), old(q), proc, q)
    {
      hide Lists, Queued, OnList, Undisturbed;
      PushUndisturbed(proc, q, p, proc[p].(state := Runnable));
      Loosen(proc, ln, q, pos, p);
      Enqueue(p);
    }

    /** allocproc(): the first unused slot; the age it carries is left as it was. */
    method AllocProc(pid: int) returns (p: int)
      requires Valid()
      modifies this
      ensures Valid() && q == old(q)
      ensures p == -1 ==> proc == old(proc) && forall x :: 0 <= x < NPROC ==> proc[x].state != Unused
      ensures p != -1 ==>
                && 0 <= p < NPROC && old(proc)[p].state == Unused
                && (forall x :: 0 <= x < p ==> old(proc)[x].state != Unused)
                && proc == old(proc)[p := old(proc)[p].(state := Embryo, pid := pid, nice := DEFAULTPLEVEL)]
      ensures Undisturbed(old(proc), old(q), proc, q)
    {
      hide Lists, Queued, OnList;
      p := 0;
      while p < NPROC && proc[p].state != Unused
        invariant 0 <= p <= NPROC && Valid() && q == old(q) && proc == old(proc)
        invariant forall x :: 0 <= x < p ==> proc[x].state != Unused
      {
        p := p + 1;
      }
      if p == NPROC { return -1; }
      Set(p, proc[p].(state := Embryo, pid := pid, nice := DEFAULTPLEVEL));
    }

    /** A process that is not queued changes to another state that is not queued. */
    method Set(p: nat, x: Proc)
      requires Valid() && p < NPROC && proc[p].state != Runnable && x.state != Runnable && x.nice < PLEVELS
      modifies this`proc
      ensures Valid() && proc == old(proc)[p := x]
    {
      hide Lists, Queued, OnList;
      Loosen(proc, ln, q, pos, p);
      ChangeLoose(proc, ln, q, pos, p, x);
      proc := proc[p := x];
    }

    /** yield(): one level down unless already at the bottom, and to the list's head. */
    method Yield(p: nat)
      requires Valid() && p < NPROC && proc[p].state == Running
      modifies this
      ensures Valid()
      ensures
        var nice := if old(proc)[p].nice < PLEVELS - 1 then old(proc)[p].nice + 1 else old(proc)[p].nice;
        && nice < PLEVELS && proc == old(proc)[p := old(proc)[p].(state := Runnable, nice := nice)]
        && q == Pushed(old(q), nice, p)
      ensures Undisturbed(old(proc), old(q), proc, q)
    {
      hide Lists, Queued, OnList, Undisturbed;
      if proc[p].nice < PLEVELS - 1 {
        Set(p, proc[p].(nice := proc[p].nice + 1));
      }
      PushUndisturbed(old(proc), q, p, proc[p].(state := Runnable));
      Loosen(proc, ln, q, pos, p);
      Enqueue(p);
    }

    /** sleep(), up to sched(). */
    method Sleep(p: nat, chan: int)
      requires Valid() && p < NPROC && proc[p].state == Running
      modifies this`proc
      ensures Valid() && proc == old(proc)[p := old(proc)[p].(state := Sleeping, chan := chan)]
      ensures Undisturbed(old(proc), old(q), proc, q)
    {
      Set(p, proc[p].(state := Sleeping, chan := chan));
    }

    /** nice(): only the calling, hence running, process changes its own level. */
    method Nice(p: nat, inc: int) returns (r: int)
      requires Valid() && p < NPROC && proc[p].state == Running
      modifies this`proc
      ensures Valid()
      ensures
        var n := old(proc)[p].nice + inc;
        if 0 <= n < PLEVELS then r == n && proc == old(proc)[p := old(proc)[p].(nice := n)]
        else r == -1 && proc == old(proc)
      ensures Undisturbed(old(proc), old(q), proc, q)
    {
      var newnice := proc[p].nice + inc;
      if newnice < 0 || newnice > PLEVELS - 1 { return -1; }
      Set(p, proc[p].(nice := newnice));
      return newnice;
    }

    /** One process that wakeup1() wakes. */
    method Wake(p: nat)
      requires Valid() && p < NPROC && proc[p].state == Sleeping
      modifies this
      ensures
        var x := old(proc)[p];
        var l := if x.nice > 0 then x.nice - 1 else 0;
        && Valid() && proc == old(proc)[p := x.(state := Runnable, nice := l)]
        && l < PLEVELS && q == old(q)[l := [p] + old(q)[l]]
      ensures Undisturbed(old(proc), old(q), proc, q)
    {
      hide Lists, Queued, OnList, Undisturbed;
      if proc[p].nice > 0 {
        Set(p, proc[p].(nice := proc[p].nice - 1));
      }
      PushUndisturbed(old(proc), q, p, proc[p].(state := Runnable));
      Loosen(proc, ln, q, pos, p);
      Enqueue(p);
    }

    /** wakeup1(): every process asleep on chan, and no other, becomes runnable one
        level up, behind what was queued. */
    method Wakeup1(chan: int)
      requires Valid()
      modifies this
      ensures Valid()
      ensures forall x :: 0 <= x < NPROC ==>
                var y := old(proc)[x];
                proc[x] == if y.state == Sleeping && y.chan == chan
                           then y.(state := Runnable, nice := if y.nice > 0 then y.nice - 1 else 0) else y
      ensures (forall x :: 0 <= x < NPROC ==> old(proc)[x].nice < |old(q)|)
      ensures q == Roused(old(proc), old(q), chan, NPROC)
      ensures Undisturbed(old(proc), old(q), proc, q)
      ensures forall l, i, j :: 0 <= l < PLEVELS && 0 <= i < j < |q[l]| - |old(q)[l]| ==> q[l][i] > q[l][j]
    {
      hide Lists, Queued, OnList, Undisturbed;
      UndisturbedRefl(proc, q);
      for p := 0 to NPROC
        invariant Valid()
        invariant forall x :: 0 <= x < NPROC ==>
                    proc[x] == if x < p && SleepsOn(old(proc)[x], chan) then Awake(old(proc)[x]) else old(proc)[x]
        invariant q == Roused(old(proc), old(q), chan, p) && Undisturbed(old(proc), old(q), proc, q)
      {
        ghost var proc1, q1 := proc, q;
        if proc[p].state == Sleeping && proc[p].chan == chan {
          Wake(p);
          UndisturbedTrans(old(proc), old(q), proc1, q1, proc, q);
        }
      }
      RousedOrder(old(proc), old(q), chan, NPROC);
    }

    /** kill(): mark the process, and wake it on its own level if it sleeps. */
    method Kill(pid: int) returns (r: int)
      requires Valid()
      modifies this
      ensures Valid()
      ensures r == -1 ==> proc == old(proc) && q == old(q) && forall x :: 0 <= x < NPROC ==> proc[x].pid != pid
      ensures r != -1 ==> r == 0 && exists p :: Killed(old(proc), old(q), proc, q, pid, p)
      ensures Undisturbed(old(proc), old(q), proc, q)
    {
      hide Lists, Queued, OnList, Undisturbed, Killed;
      UndisturbedRefl(proc, q);
      var p := 0;
      while p < NPROC && proc[p].pid != pid
        invariant 0 <= p <= NPROC && Valid() && q == old(q) && proc == old(proc)
        invariant forall x :: 0 <= x < p ==> proc[x].pid != pid
      {
        p := p + 1;
      }
      if p == NPROC { return -1; }
      KillAt(pid, p);
      return 0;
    }

    /** The rest of kill(), once process p is found. */
    method KillAt(pid: int, p: nat)
      requires Valid() && p < NPROC && proc[p].pid == pid && forall x :: 0 <= x < p ==> proc[x].pid != pid
      modifies this
      ensures Valid() && Killed(old(proc), old(q), proc, q, pid, p)
      ensures
        var x := old(proc)[p];
        var asleep := x.state == Sleeping;
        && proc == old(proc)[p := x.(killed := true, state := if asleep then Runnable else x.state)]
        && x.nice < PLEVELS && q == if asleep then old(q)[x.nice := [p] + old(q)[x.nice]] else old(q)
      ensures Undisturbed(old(proc), old(q), proc, q)
    {
      hide Lists, Queued, OnList, Undisturbed;
      if proc[p].state == Sleeping {
        Set(p, proc[p].(killed := true));
        PushUndisturbed(old(proc), q, p, proc[p].(state := Runnable));
        Loosen(proc, ln, q, pos, p);
        Enqueue(p);
      } else {
        Mark(proc, ln, q, pos, p, proc[p].(killed := true));
        proc := proc[p := proc[p].(killed := true)];
      }
    }

    /** exit(), up to sched(): wake the parent, and init if it inherits a zombie. */
    method Exit(p: nat, parent: int, init: int, orphans: bool)
      requires Valid() && p < NPROC && proc[p].state == Running
      modifies this
      ensures Valid() && proc[p] == old(proc)[p].(state := Zombie)
      ensures forall x :: 0 <= x < NPROC && x != p ==>
                var y := old(proc)[x];
                proc[x] == if y.state == Sleeping && (y.chan == parent || (orphans && y.chan == init))
                           then y.(state := Runnable, nice := if y.nice > 0 then y.nice - 1 else 0) else y
      ensures Undisturbed(old(proc), old(q), proc, q)
    {
      hide Lists, Queued, OnList, Undisturbed, Roused;
      Wakeup1(parent);
      ghost var proc1, q1 := proc, q;
      if orphans {
        Wakeup1(init);
        UndisturbedTrans(old(proc), old(q), proc1, q1, proc, q);
      }
      PushUndisturbed(proc, q, p, proc[p].(state := Zombie));
      UndisturbedTrans(old(proc), old(q), proc, q, proc[p := proc[p].(state := Zombie)], q);
      Set(p, proc[p].(state := Zombie));
    }

    /** One process of aging()'s inner loop; next is read before the lists change. */
    method AgeOne(p: nat, l: nat, ghost k: nat) returns (next: int)
      requires Valid() && 0 < l < PLEVELS && k < |q[l]| && q[l][k] == p
      modifies this
      ensures Valid() && p < NPROC && proc == old(proc)[p := Aged(old(proc)[p])]
      ensures
        var x, up := old(proc)[p], old(proc)[p].age + 1 >= AGELIMIT;
        && proc[p] == x.(age := x.age + 1, nice := if up then l - 1 else l)
        && q == if up then Pushed(Removed(old(q), l, k), l - 1, p) else old(q)
      ensures next == if k + 1 < |old(q)[l]| then old(q)[l][k + 1] else NULL
    {
      hide Lists, Queued, OnList;
      NextOf(proc, ln, q, pos, l, k);
      next := ln.next[p];
      Mark(proc, ln, q, pos, p, proc[p].(age := proc[p].age + 1));
      proc := proc[p := proc[p].(age := proc[p].age + 1)];
      if proc[p].age >= AGELIMIT {
        RemoveFromLevel(p, l, k);
        ChangeLoose(proc, ln, q, pos, p, proc[p].(nice := proc[p].nice - 1));
        proc := proc[p := proc[p].(nice := proc[p].nice - 1)];
        Enqueue(p);
      }
    }

    /** The same, k processes into the level's list. */
    method AgeNext(p: nat, l: nat, ghost proc0: seq<Proc>, ghost q0: seq<seq<nat>>, ghost k: nat,
                   ghost pos0: seq<nat>) returns (next: int)
      requires Valid() && 0 < l < PLEVELS == |q0| && k < |q0[l]| && q0[l][k] == p && IsLevel(proc0, pos0, q0[l], l)
      requires q == AgedTo(proc0, q0, l, k) && AgedFirst(proc0, pos0, proc, l, k)
      modifies this
      ensures Valid() && q == AgedTo(proc0, q0, l, k + 1) && AgedFirst(proc0, pos0, proc, l, k + 1)
      ensures next == if k + 1 < |q0[l]| then q0[l][k + 1] else NULL
    {
      hide Lists, Queued, OnList, AgedTo, Stay, AgedFirst, Aged, Pushed, Removed;
      AgeStep(proc0, q0, l, k);
      OneAged(proc0, pos0, q0[l], proc, l, k);
      ghost var j := |Stay(proc0, q0[l], k)|;
      ghost var rest := q[l][j..];
      assert q[l][j] == rest[0] && |q[l]| - j == |q0[l]| - k && (k + 1 < |q0[l]| ==> q[l][j + 1] == rest[1]);
      next := AgeOne(p, l, j);
    }

    /** aging()'s pass over one level. */
    method AgeLevel(l: nat)
      requires Valid() && 0 < l < PLEVELS
      modifies this
      ensures Valid()
      ensures (forall i :: 0 <= i < |old(q)[l]| ==> old(q)[l][i] < |old(proc)|)
      ensures q == AgedTo(old(proc), old(q), l, |old(q)[l]|)
      ensures forall x :: 0 <= x < NPROC ==>
                proc[x] ==
                  if old(proc)[x].state == Runnable && old(proc)[x].nice == l then Aged(old(proc)[x]) else old(proc)[x]
    {
      hide Lists, Queued, OnList, AgedTo, Stay, AgedFirst;
      ghost var proc0, q0, pos0, s := proc, q, pos[l], q[l];
      Members(proc, ln, q, pos, l);
      AgeStart(proc, q, l);
      NoneAged(proc, pos0, l);
      EndsOf(proc, ln, q, pos, l);
      var p := ln.heads[l];
      ghost var k := 0;
      while p != NULL
        invariant Valid() && k <= |s| && p == (if k < |s| then s[k] else NULL)
        invariant q == AgedTo(proc0, q0, l, k) && AgedFirst(proc0, pos0, proc, l, k)
        decreases |s| - k
      {
        p := AgeNext(p, l, proc0, q0, k, pos0);
        k := k + 1;
      }
      AllAged(proc0, pos0, s, proc, l);
    }

    /** aging(): every process waiting below level 0 grows older by one, exactly once;
        those that reach the limit rise one level, behind what waits there. */
    method Aging()
      requires Valid()
      modifies this
      ensures Valid() && AgedAll(old(proc), old(q), proc, q)
      ensures forall x :: 0 <= x < NPROC ==>
                var y := old(proc)[x];
                proc[x] == if y.state != Runnable || y.nice == 0 then y
                           else y.(age := y.age + 1, nice := if y.age + 1 >= AGELIMIT then y.nice - 1 else y.nice)
    {
      hide Lists, Queued, OnList, InTable, LevelAfter;
      ghost var proc0, q0 := proc, q;
      Before(proc, ln, q, pos);
      var i := 1;
      while i < PLEVELS
        invariant Valid() && 1 <= i <= PLEVELS && InTable(proc0, q0)
        invariant forall x :: 0 <= x < NPROC ==>
                    proc[x] == if proc0[x].state == Runnable && 0 < proc0[x].nice < i then Aged(proc0[x]) else proc0[x]
        invariant forall l :: 0 <= l < PLEVELS ==> q[l] == LevelAfter(proc0, q0, l, i)
      {
        Members(proc, ln, q, pos, i);
        AfterStep(proc0, q0, proc, q, i);
        AgeLevel(i);
        i := i + 1;
      }
    }
  }

  predicate SleepsOn(x: Proc, chan: int) {
    x.state == Sleeping && x.chan == chan
  }

  /** increasepriority() and enqueue() on a sleeping process. */
  function Awake(x: Proc): Proc {
    x.(state := Runnable, nice := if x.nice > 0 then x.nice - 1 else x.nice)
  }

  /** The lists when wakeup1(chan) has passed the first n processes. */
  ghost function Roused(proc: seq<Proc>, q: seq<seq<nat>>, chan: int, n: nat): (r: seq<seq<nat>>)
    requires n <= |proc| && forall x :: 0 <= x < |proc| ==> proc[x].nice < |q|
    ensures |r| == |q|
  {
    if n == 0 then q
    else
      var r := Roused(proc, q, chan, n - 1);
      if SleepsOn(proc[n - 1], chan) then Pushed(r, Awake(proc[n - 1]).nice, n - 1) else r
  }

  /** What wakeup1() queues goes in front, the processes of the table in reverse. */
  lemma {:induction false} RousedOrder(proc: seq<Proc>, q: seq<seq<nat>>, chan: int, n: nat)
    requires n <= |proc| && forall x :: 0 <= x < |proc| ==> proc[x].nice < |q|
    ensures
      var r := Roused(proc, q, chan, n);
      && (forall l :: 0 <= l < |q| ==> |r[l]| >= |q[l]|)
      && (forall l, i :: 0 <= l < |q| && 0 <= i < |r[l]| - |q[l]| ==> r[l][i] < n)
      && forall l, i, j :: 0 <= l < |q| && 0 <= i < j < |r[l]| - |q[l]| ==> r[l][i] > r[l][j]
  {
    if n > 0 {
      RousedOrder(proc, q, chan, n - 1);
    }
  }

  lemma UndisturbedRefl(proc: seq<Proc>, q: seq<seq<nat>>)
    ensures Undisturbed(proc, q, proc, q)
  {
  }

  lemma UndisturbedTrans(proc: seq<Proc>, q: seq<seq<nat>>, proc1: seq<Proc>, q1: seq<seq<nat>>, proc2: seq<Proc>,
                         q2: seq<seq<nat>>)
    requires Undisturbed(proc, q, proc1, q1) && Undisturbed(proc1, q1, proc2, q2)
    ensures Undisturbed(proc, q, proc2, q2)
  {
  }

  /** Arrivals are behind what was there: old is the end of new that is served first. */
  ghost predicate Behind(before: seq<nat>, after: seq<nat>) {
    |before| <= |after| && after[|after| - |before|..] == before
  }

  ghost predicate Killed(proc: seq<Proc>, q: seq<seq<nat>>, proc': seq<Proc>, q': seq<seq<nat>>, pid: int, p: nat) {
    && p < |proc| && proc[p].pid == pid && (forall x :: 0 <= x < p ==> proc[x].pid != pid)
    && if proc[p].state == Sleeping then
         && proc[p].nice < |q| && proc' == proc[p := proc[p].(killed := true, state := Runnable)]
         && q' == Pushed(q, proc[p].nice, p)
       else proc' == proc[p := proc[p].(killed := true)] && q' == q
  }

  /** The invariant depends on states and levels only. */
  lemma Mark(proc: seq<Proc>, ln: Links, q: seq<seq<nat>>, pos: seq<seq<nat>>, p: nat, x: Proc)
    requires p < NPROC && ValidBut(proc, ln, q, pos, -1) && x.state == proc[p].state && x.nice == proc[p].nice
    ensures ValidBut(proc[p := x], ln, q, pos, -1)
    ensures x.age == proc[p].age ==> Undisturbed(proc, q, proc[p := x], q)
  {
  }

  // ----- aging

  predicate Old(x: Proc) {
    x.age + 1 >= AGELIMIT
  }

  function Aged(x: Proc): Proc {
    x.(age := x.age + 1, nice := if Old(x) && x.nice > 0 then x.nice - 1 else x.nice)
  }

  /** Of the first k on a level's list: those that stay, in order. */
  ghost function Stay(proc: seq<Proc>, s: seq<nat>, k: nat): seq<nat>
    requires k <= |s| && forall i :: 0 <= i < |s| ==> s[i] < |proc|
  {
    if k == 0 then [] else Stay(proc, s, k - 1) + (if Old(proc[s[k - 1]]) then [] else [s[k - 1]])
  }

  /** Of the first k on a level's list: those that rise, each in front of the ones before. */
  ghost function Rise(proc: seq<Proc>, s: seq<nat>, k: nat): seq<nat>
    requires k <= |s| && forall i :: 0 <= i < |s| ==> s[i] < |proc|
  {
    if k == 0 then [] else (if Old(proc[s[k - 1]]) then [s[k - 1]] else []) + Rise(proc, s, k - 1)
  }

  /** The lists while level l is at its kth process, s being the level's list at first. */
  ghost function AgedTo(proc: seq<Proc>, q: seq<seq<nat>>, l: nat, k: nat): seq<seq<nat>>
    requires 0 < l < |q| && k <= |q[l]| && forall i :: 0 <= i < |q[l]| ==> q[l][i] < |proc|
  {
    q[l := Stay(proc, q[l], k) + q[l][k..]][l - 1 := Rise(proc, q[l], k) + q[l - 1]]
  }

  lemma AgeStep(proc: seq<Proc>, q: seq<seq<nat>>, l: nat, k: nat)
    requires 0 < l < |q| && k < |q[l]| && forall i :: 0 <= i < |q[l]| ==> q[l][i] < |proc|
    ensures |Stay(proc, q[l], k)| < |AgedTo(proc, q, l, k)[l]|
    ensures AgedTo(proc, q, l, k)[l][|Stay(proc, q[l], k)|..] == q[l][k..]
    ensures AgedTo(proc, q, l, k + 1) ==
            if Old(proc[q[l][k]]) then Pushed(Removed(AgedTo(proc, q, l, k), l, |Stay(proc, q[l], k)|), l - 1, q[l][k])
            else AgedTo(proc, q, l, k)
  {
    var a, b, j := AgedTo(proc, q, l, k), AgedTo(proc, q, l, k + 1), |Stay(proc, q[l], k)|;
    if Old(proc[q[l][k]]) {
      var c := Pushed(Removed(a, l, j), l - 1, q[l][k]);
      assert c[l] == b[l];
      assert c[l - 1] == b[l - 1];
      assert c == b;
    } else {
      assert a[l] == b[l];
      assert a[l - 1] == b[l - 1];
      assert a == b;
    }
  }

  /** The first k of level l's list have been aged. */
  ghost predicate AgedFirst(proc: seq<Proc>, pos: seq<nat>, proc': seq<Proc>, l: nat, k: nat) {
    && |proc'| == |proc| == |pos|
    && forall x :: 0 <= x < |proc| ==>
         proc'[x] == if proc[x].state == Runnable && proc[x].nice == l && pos[x] < k then Aged(proc[x]) else proc[x]
  }

  /** s is the list of level l, and pos says where each process is. */
  ghost predicate IsLevel(proc: seq<Proc>, pos: seq<nat>, s: seq<nat>, l: nat) {
    && |pos| == |proc|
    && (forall i :: 0 <= i < |s| ==>
          s[i] < |proc| && pos[s[i]] == i && proc[s[i]].state == Runnable && proc[s[i]].nice == l)
    && forall x :: 0 <= x < |proc| && proc[x].state == Runnable && proc[x].nice == l ==> pos[x] < |s| && s[pos[x]] == x
  }

  lemma NoneAged(proc: seq<Proc>, pos: seq<nat>, l: nat)
    requires |pos| == |proc|
    ensures AgedFirst(proc, pos, proc, l, 0)
  {
  }

  lemma OneAged(proc: seq<Proc>, pos: seq<nat>, s: seq<nat>, proc': seq<Proc>, l: nat, k: nat)
    requires IsLevel(proc, pos, s, l) && k < |s| && AgedFirst(proc, pos, proc', l, k)
    ensures proc'[s[k]] == proc[s[k]] && AgedFirst(proc, pos, proc'[s[k] := Aged(proc[s[k]])], l, k + 1)
  {
    hide Aged;
  }

  lemma AllAged(proc: seq<Proc>, pos: seq<nat>, s: seq<nat>, proc': seq<Proc>, l: nat)
    requires IsLevel(proc, pos, s, l) && AgedFirst(proc, pos, proc', l, |s|)
    ensures forall x :: 0 <= x < |proc| ==>
              proc'[x] == if proc[x].state == Runnable && proc[x].nice == l then Aged(proc[x]) else proc[x]
  {
  }

  lemma AgeStart(proc: seq<Proc>, q: seq<seq<nat>>, l: nat)
    requires 0 < l < |q| && forall i :: 0 <= i < |q[l]| ==> q[l][i] < |proc|
    ensures AgedTo(proc, q, l, 0) == q
  {
    assert AgedTo(proc, q, l, 0)[l] == q[l] && AgedTo(proc, q, l, 0)[l - 1] == q[l - 1];
  }

  lemma NextOf(proc: seq<Proc>, ln: Links, q: seq<seq<nat>>, pos: seq<seq<nat>>, l: nat, k: nat)
    requires ValidBut(proc, ln, q, pos, -1) && l < PLEVELS && k < |q[l]|
    ensures q[l][k] < NPROC && proc[q[l][k]].state == Runnable && proc[q[l][k]].nice == l && pos[l][q[l][k]] == k
    ensures ln.next[q[l][k]] == if k + 1 < |q[l]| then q[l][k + 1] else NULL
  {
  }

  lemma Members(proc: seq<Proc>, ln: Links, q: seq<seq<nat>>, pos: seq<seq<nat>>, l: nat)
    requires ValidBut(proc, ln, q, pos, -1) && l < PLEVELS
    ensures |pos[l]| == NPROC && forall i :: 0 <= i < |q[l]| ==> q[l][i] < NPROC && pos[l][q[l][i]] == i
    ensures forall i :: 0 <= i < |q[l]| ==> proc[q[l][i]].state == Runnable && proc[q[l][i]].nice == l
    ensures forall x :: 0 <= x < NPROC && proc[x].state == Runnable && proc[x].nice == l ==>
              pos[l][x] < |q[l]| && q[l][pos[l][x]] == x
  {
  }

  ghost predicate InTable(proc: seq<Proc>, q: seq<seq<nat>>) {
    |q| == PLEVELS && forall l, i :: 0 <= l < PLEVELS && 0 <= i < |q[l]| ==> q[l][i] < |proc|
  }

  /** One call of aging(). */
  ghost predicate AgedAll(proc: seq<Proc>, q: seq<seq<nat>>, proc': seq<Proc>, q': seq<seq<nat>>) {
    && InTable(proc, q) && |proc'| == |proc| && |q'| == PLEVELS
    && (forall x :: 0 <= x < |proc| ==>
          proc'[x] == if proc[x].state == Runnable && proc[x].nice > 0 then Aged(proc[x]) else proc[x])
    && forall l :: 0 <= l < PLEVELS ==> q'[l] == LevelAfter(proc, q, l, PLEVELS)
  }

  /** Level l's list when aging() has passed the levels below i. */
  ghost function LevelAfter(proc: seq<Proc>, q: seq<seq<nat>>, l: nat, i: nat): seq<nat>
    requires InTable(proc, q) && l < PLEVELS && i <= PLEVELS
  {
    var own := if 0 < l < i then Stay(proc, q[l], |q[l]|) else q[l];
    if l + 1 < i then Rise(proc, q[l + 1], |q[l + 1]|) + own else own
  }

  lemma Before(proc: seq<Proc>, ln: Links, q: seq<seq<nat>>, pos: seq<seq<nat>>)
    requires ValidBut(proc, ln, q, pos, -1)
    ensures InTable(proc, q) && forall l :: 0 <= l < PLEVELS ==> q[l] == LevelAfter(proc, q, l, 1)
  {
  }

  lemma {:induction false} SameAges(proc: seq<Proc>, proc': seq<Proc>, s: seq<nat>, k: nat)
    requires k <= |s| && forall i :: 0 <= i < |s| ==> s[i] < |proc| && s[i] < |proc'| && proc[s[i]] == proc'[s[i]]
    ensures Stay(proc, s, k) == Stay(proc', s, k) && Rise(proc, s, k) == Rise(proc', s, k)
  {
    if k > 0 {
      SameAges(proc, proc', s, k - 1);
    }
  }

  lemma AfterStep(proc: seq<Proc>, q: seq<seq<nat>>, proc': seq<Proc>, q': seq<seq<nat>>, i: nat)
    requires InTable(proc, q) && |q'| == PLEVELS && 0 < i < PLEVELS && |proc| == |proc'|
    requires forall l :: 0 <= l < PLEVELS ==> q'[l] == LevelAfter(proc, q, l, i)
    requires forall j :: 0 <= j < |q'[i]| ==> q'[i][j] < |proc| && proc'[q'[i][j]].nice == i
    requires forall x :: 0 <= x < |proc| && proc'[x] != proc[x] ==> proc'[x].nice < i
    ensures forall j :: 0 <= j < |q'[i]| ==> q'[i][j] < |proc'|
    ensures forall l :: 0 <= l < PLEVELS ==> AgedTo(proc', q', i, |q'[i]|)[l] == LevelAfter(proc, q, l, i + 1)
  {
    hide Stay, Rise, LevelAfter;
    Reached(proc, q, i);
    SameAges(proc, proc', q[i], |q[i]|);
    forall l | 0 <= l < PLEVELS ensures AgedTo(proc', q', i, |q'[i]|)[l] == LevelAfter(proc, q, l, i + 1) {
      LevelStep(proc, q, proc', q', i, l);
    }
  }

  lemma Reached(proc: seq<Proc>, q: seq<seq<nat>>, i: nat)
    requires InTable(proc, q) && 0 < i < PLEVELS
    ensures LevelAfter(proc, q, i, i) == q[i]
  {
  }

  lemma LevelStep(proc: seq<Proc>, q: seq<seq<nat>>, proc': seq<Proc>, q': seq<seq<nat>>, i: nat, l: nat)
    requires InTable(proc, q) && |q'| == PLEVELS && 0 < i < PLEVELS && l < PLEVELS && q'[i] == q[i]
    requires q'[l] == LevelAfter(proc, q, l, i) && q'[i - 1] == LevelAfter(proc, q, i - 1, i)
    requires forall j :: 0 <= j < |q[i]| ==> q[i][j] < |proc'|
    requires Stay(proc, q[i], |q[i]|) == Stay(proc', q[i], |q[i]|)
    requires Rise(proc, q[i], |q[i]|) == Rise(proc', q[i], |q[i]|)
    ensures AgedTo(proc', q', i, |q'[i]|)[l] == LevelAfter(proc, q, l, i + 1)
  {
    hide Stay, Rise;
    var n := |q[i]|;
    if l == i {
      assert AgedTo(proc', q', i, n)[l] == Stay(proc', q[i], n) + q[i][n..];
    } else if l == i - 1 {
      assert AgedTo(proc', q', i, n)[l] == Rise(proc', q[i], n) + q'[l];
    } else {
      assert AgedTo(proc', q', i, n)[l] == q'[l];
    }
  }

  // ----- what the invariant and the specifications say

  ghost predicate At(q: seq<seq<nat>>, p: nat, l: nat, i: nat) {
    l < |q| && i < |q[l]| && q[l][i] == p
  }

  /** The run-queue invariant: a process is runnable iff it is queued, and then on the
      level of its nice value, in one place only. */
  lemma RunnableIffQueued(proc: seq<Proc>, ln: Links, q: seq<seq<nat>>, pos: seq<seq<nat>>, p: nat)
    requires ValidBut(proc, ln, q, pos, -1) && p < NPROC
    ensures proc[p].nice < PLEVELS
    ensures proc[p].state == Runnable <==> exists i: nat :: At(q, p, proc[p].nice, i)
    ensures forall l: nat, i: nat, m: nat, j: nat :: At(q, p, l, i) && At(q, p, m, j) ==>
              l == m == proc[p].nice && i == j
  {
    if proc[p].state == Runnable {
      assert OnList(proc, q, pos, p);
      assert At(q, p, proc[p].nice, pos[proc[p].nice][p]);
    }
    forall l: nat, i: nat, m: nat, j: nat | At(q, p, l, i) && At(q, p, m, j) ensures l == m == proc[p].nice && i == j {
      assert List(ln.next, ln.back, ln.heads[l], ln.lasts[l], q[l], pos[l]);
    }
  }

  lemma StayNext(proc: seq<Proc>, s: seq<nat>, k: nat)
    requires 0 < k <= |s| && forall i :: 0 <= i < |s| ==> s[i] < |proc|
    ensures Stay(proc, s, k) == Stay(proc, s, k - 1) + if Old(proc[s[k - 1]]) then [] else [s[k - 1]]
  {
  }

  lemma RiseNext(proc: seq<Proc>, s: seq<nat>, k: nat)
    requires 0 < k <= |s| && forall i :: 0 <= i < |s| ==> s[i] < |proc|
    ensures Rise(proc, s, k) == (if Old(proc[s[k - 1]]) then [s[k - 1]] else []) + Rise(proc, s, k - 1)
  {
  }

  /** Those that stay keep their order: the jth is preceded by the ones before it. */
  lemma {:induction false} StayAt(proc: seq<Proc>, s: seq<nat>, k: nat, j: nat)
    requires j < k <= |s| && (forall i :: 0 <= i < |s| ==> s[i] < |proc|) && !Old(proc[s[j]])
    ensures |Stay(proc, s, j)| < |Stay(proc, s, k)| && Stay(proc, s, k)[|Stay(proc, s, j)|] == s[j]
  {
    hide Stay, Old;
    StayNext(proc, s, k);
    if j < k - 1 {
      StayAt(proc, s, k - 1, j);
    }
  }

  /** Those that rise are reversed: the jth has only later ones in front of it. */
  lemma {:induction false} RiseAt(proc: seq<Proc>, s: seq<nat>, k: nat, j: nat)
    requires j < k <= |s| && (forall i :: 0 <= i < |s| ==> s[i] < |proc|) && Old(proc[s[j]])
    ensures 0 <= |Rise(proc, s, k)| - |Rise(proc, s, j + 1)| < |Rise(proc, s, k)|
    ensures Rise(proc, s, k)[|Rise(proc, s, k)| - |Rise(proc, s, j + 1)|] == s[j]
  {
    hide Rise, Old;
    RiseNext(proc, s, k);
    if j < k - 1 {
      RiseAt(proc, s, k - 1, j);
    }
  }

  lemma {:induction false} StayOrRise(proc: seq<Proc>, s: seq<nat>, k: nat)
    requires k <= |s| && forall i :: 0 <= i < |s| ==> s[i] < |proc|
    ensures multiset(Stay(proc, s, k)) + multiset(Rise(proc, s, k)) == multiset(s[..k])
  {
    if k > 0 {
      StayOrRise(proc, s, k - 1);
      assert s[..k] == s[..k - 1] + [s[k - 1]];
      OneMore(Stay(proc, s, k - 1), Rise(proc, s, k - 1), s[..k - 1], s[k - 1]);
    }
  }

  lemma OneMore(a: seq<nat>, b: seq<nat>, c: seq<nat>, x: nat)
    requires multiset(a) + multiset(b) == multiset(c)
    ensures multiset(a + [x]) + multiset([] + b) == multiset(c + [x])
    ensures multiset(a + []) + multiset([x] + b) == multiset(c + [x])
  {
  }

  ghost function Waiting(q: seq<seq<nat>>): multiset<nat>
    requires |q| == PLEVELS
  {
    multiset(q[0]) + multiset(q[1]) + multiset(q[2]) + multiset(q[3])
  }

  /** One call of aging() loses and gains no queued process. */
  lemma AgingKeepsWaiting(proc: seq<Proc>, q: seq<seq<nat>>, proc': seq<Proc>, q': seq<seq<nat>>)
    requires AgedAll(proc, q, proc', q')
    ensures Waiting(q') == Waiting(q)
  {
    hide Stay, Rise;
    Whole(proc, q, 1);
    Whole(proc, q, 2);
    Whole(proc, q, 3);
  }

  lemma Whole(proc: seq<Proc>, q: seq<seq<nat>>, l: nat)
    requires InTable(proc, q) && l < PLEVELS
    ensures multiset(Stay(proc, q[l], |q[l]|)) + multiset(Rise(proc, q[l], |q[l]|)) == multiset(q[l])
  {
    StayOrRise(proc, q[l], |q[l]|);
    assert q[l][..|q[l]|] == q[l];
  }
}
