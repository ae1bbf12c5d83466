/** The kernel semaphores of semaphore.c as lock-to-lock steps. What a process is in
    the middle of, while it holds no lock, is part of the state. */
module Semaphores {
  import opened Common

  const SYSMAXSEM := 20
  const PROCMAXSEM := 5
  const EINVAL := -2
  const ENSEM := -3
  const ENSEMSYS := -4

  datatype Semaphore = Semaphore(value: int, references: int)

  /** Attaching: in semget() after the unlock; Asleep, Retry: in semdown()'s loop;
      Waking: in semup() between the unlock and wakeup(). */
  datatype At = Idle | Attaching(key: nat) | Asleep(key: nat) | Retry(key: nat) | Waking(key: nat)

  datatype Task = Task(semids: seq<int>, semcount: int, at: At)

  datatype State = State(list: seq<Semaphore>, used: int, task: seq<Task>)

  // ----- attachments

  /** The first place of k in ids, |ids| if there is none. */
  function Find(ids: seq<int>, k: int): (i: nat)
    ensures i <= |ids| && (i < |ids| ==> ids[i] == k) && forall j :: 0 <= j < i ==> ids[j] != k
  {
    if ids == [] || ids[0] == k then 0 else 1 + Find(ids[1..], k)
  }

  /** i is the first place of k in ids. */
  ghost predicate First(ids: seq<int>, k: int, i: nat) {
    i < |ids| && ids[i] == k && k !in ids[..i]
  }

  /** How often the first n of ids are k. */
  function Occurs(ids: seq<int>, k: int, n: nat): (c: nat)
    requires n <= |ids|
  {
    if n == 0 then 0 else Occurs(ids, k, n - 1) + if ids[n - 1] == k then 1 else 0
  }

  lemma {:induction false} OccursUpdate(ids: seq<int>, i: nat, x: int, k: int, n: nat)
    requires i < |ids| && n <= |ids|
    ensures Occurs(ids[i := x], k, n) == Occurs(ids, k, n) +
            if i < n then (if x == k then 1 else 0) - (if ids[i] == k then 1 else 0) else 0
  {
    if n > 0 {
      OccursUpdate(ids, i, x, k, n - 1);
    }
  }

  lemma {:induction false} OccursIn(ids: seq<int>, i: nat, n: nat)
    requires i < n <= |ids|
    ensures Occurs(ids, ids[i], n) > 0
  {
    if i < n - 1 {
      OccursIn(ids, i, n - 1);
    }
  }

  /** A process's claims on semaphore k: its attachments, and the one it is about to make. */
  function Claims(t: Task, k: nat): nat {
    Occurs(t.semids, k, |t.semids|) + if t.at == Attaching(k) then 1 else 0
  }

  function Total(task: seq<Task>, k: nat, n: nat): nat
    requires n <= |task|
  {
    if n == 0 then 0 else Total(task, k, n - 1) + Claims(task[n - 1], k)
  }

  lemma {:induction false} TotalUpdate(task: seq<Task>, p: nat, t: Task, k: nat, n: nat)
    requires p < |task| && n <= |task|
    ensures Total(task[p := t], k, n) == Total(task, k, n) + if p < n then Claims(t, k) - Claims(task[p], k) else 0
  {
    if n > 0 {
      TotalUpdate(task, p, t, k, n - 1);
    }
  }

  lemma {:induction false} ClaimsCount(task: seq<Task>, p: nat, k: nat, n: nat)
    requires p < n <= |task|
    ensures Claims(task[p], k) <= Total(task, k, n)
  {
    if p < n - 1 {
      ClaimsCount(task, p, k, n - 1);
    }
  }

  // ----- the invariant

  ghost predicate TaskOk(t: Task) {
    && |t.semids| == PROCMAXSEM
    && (forall i :: 0 <= i < PROCMAXSEM ==> -1 <= t.semids[i] < SYSMAXSEM)
    && (t.at != Idle ==> t.at.key < SYSMAXSEM)
    && (t.at.Asleep? || t.at.Retry? || t.at.Waking? ==> Find(t.semids, t.at.key) < PROCMAXSEM)
  }

  ghost predicate Shape(s: State) {
    |s.list| == SYSMAXSEM && |s.task| == NPROC && forall p :: 0 <= p < NPROC ==> TaskOk(s.task[p])
  }

  /** Attachments never exceed references. */
  ghost predicate Counted(list: seq<Semaphore>, task: seq<Task>)
    requires |list| == SYSMAXSEM
  {
    forall k :: 0 <= k < SYSMAXSEM ==> Total(task, k, |task|) <= list[k].references
  }

  /** A sleeper on a positive value is about to be woken. */
  ghost predicate Awakening(list: seq<Semaphore>, task: seq<Task>, p: nat)
    requires p < |task| && (task[p].at.Asleep? ==> task[p].at.key < |list|)
  {
    task[p].at.Asleep? && list[task[p].at.key].value > 0 ==>
      exists w :: 0 <= w < |task| && task[w].at == Waking(task[p].at.key)
  }

  ghost predicate Inv(s: State) {
    && Shape(s) && Counted(s.list, s.task)
    && forall p :: 0 <= p < NPROC ==> Awakening(s.list, s.task, p)
  }

  /** Whoever claims a semaphore keeps it from being free. */
  lemma Held(s: State, p: nat, k: nat)
    requires Inv(s) && p < NPROC && k < SYSMAXSEM
    requires s.task[p].at == Attaching(k) || Find(s.task[p].semids, k) < PROCMAXSEM
    ensures s.list[k].references > 0
  {
    var t := s.task[p];
    ClaimsCount(s.task, p, k, NPROC);
    if t.at != Attaching(k) {
      OccursIn(t.semids, Find(t.semids, k), PROCMAXSEM);
    }
  }

  // ----- the steps

  predicate Free(m: Semaphore) {
    m.references == 0
  }

  /** The slot semcreate() picks, SYSMAXSEM if there is none. */
  function FirstFree(list: seq<Semaphore>): (i: nat)
    ensures i <= |list| && (i < |list| ==> Free(list[i])) && forall j :: 0 <= j < i ==> !Free(list[j])
  {
    if list == [] || Free(list[0]) then 0 else 1 + FirstFree(list[1..])
  }

  function SetAt(s: State, p: nat, at: At): State
    requires p < |s.task|
  {
    s.(task := s.task[p := s.task[p].(at := at)])
  }

  predicate GetError(s: State, p: nat, key: int)
    requires p < |s.task| && |s.list| == SYSMAXSEM
  {
    || s.task[p].semcount > PROCMAXSEM || s.used > SYSMAXSEM
    || key < -1 || key >= SYSMAXSEM || (key >= 0 && Free(s.list[key]))
  }

  /** semget() up to its unlock. */
  function Get(s: State, p: nat, key: int, init: int): State
    requires p < |s.task| && |s.list| == SYSMAXSEM && (key == -1 ==> FirstFree(s.list) < SYSMAXSEM)
  {
    if GetError(s, p, key) then s
    else if key == -1 then
      var k := FirstFree(s.list);
      SetAt(s.(list := s.list[k := Semaphore(init, 1)], used := s.used + 2), p, Attaching(k))
    else
      SetAt(s.(list := s.list[key := Semaphore(s.list[key].value, s.list[key].references + 1)]), p, Attaching(key))
  }

  /** semget()'s semattach(): without a free place the reference stays unattached. */
  function Attach(s: State, p: nat): State
    requires p < |s.task| && s.task[p].at.Attaching?
  {
    var t := s.task[p];
    var i := Find(t.semids, -1);
    var t' := if i < |t.semids| then Task(t.semids[i := t.at.key], t.semcount + 1, Idle) else t.(at := Idle);
    s.(task := s.task[p := t'])
  }

  /** key names a semaphore in use that process p has attached. */
  predicate Usable(s: State, p: nat, key: int)
    requires p < |s.task| && |s.list| == SYSMAXSEM
  {
    0 <= key < SYSMAXSEM && !Free(s.list[key]) && Find(s.task[p].semids, key) < |s.task[p].semids|
  }

  function Release(s: State, p: nat, key: int): State
    requires p < |s.task| && |s.list| == SYSMAXSEM
  {
    if !Usable(s, p, key) then s
    else
      var t, m := s.task[p], s.list[key];
      State(s.list[key := Semaphore(m.value, m.references - 1)], if m.references == 1 then s.used - 1 else s.used,
            s.task[p := Task(t.semids[Find(t.semids, key) := -1], t.semcount - 1, t.at)])
  }

  /** semdown()'s test under the lock, on entry and after every wakeup. */
  function Try(s: State, p: nat, key: nat): State
    requires p < |s.task| && key < |s.list|
  {
    var m := s.list[key];
    if m.value > 0 then SetAt(s.(list := s.list[key := Semaphore(m.value - 1, m.references)]), p, Idle)
    else SetAt(s, p, Asleep(key))
  }

  function Down(s: State, p: nat, key: int): State
    requires p < |s.task| && |s.list| == SYSMAXSEM
  {
    if Usable(s, p, key) then Try(s, p, key) else s
  }

  /** semup() up to its unlock: only a value of 0 makes it a waker. */
  function Up(s: State, p: nat, key: int): State
    requires p < |s.task| && |s.list| == SYSMAXSEM
  {
    if !Usable(s, p, key) then s
    else
      var m := s.list[key];
      SetAt(s.(list := s.list[key := Semaphore(m.value + 1, m.references)]), p,
            if m.value == 0 then Waking(key) else Idle)
  }

  /** wakeup() as it changes one process. */
  function Woken(t: Task, k: nat): Task {
    if t.at == Asleep(k) then t.(at := Retry(k)) else t
  }

  /** Process p's wakeup() of semaphore k turned task into task'. */
  ghost predicate WokeAll(task: seq<Task>, p: nat, task': seq<Task>) {
    && p < |task| == |task'| && task[p].at.Waking? && task'[p] == task[p].(at := Idle)
    && forall x :: 0 <= x < |task| && x != p ==> task'[x] == Woken(task[x], task[p].at.key)
  }

  function Kill(s: State, p: nat): State
    requires p < |s.task|
  {
    var t := s.task[p];
    if t.at.Asleep? then SetAt(s, p, Retry(t.at.key)) else s
  }

  /** One turn of semcopy()'s loop. */
  function CopyOne(s: State, p: nat, child: nat, i: nat): State
    requires p < |s.task| && child < |s.task| && i < |s.task[p].semids| && i < |s.task[child].semids|
    requires s.task[p].semids[i] < |s.list|
  {
    var k, t := s.task[p].semids[i], s.task[child];
    if k < 0 then s
    else s.(list := s.list[k := Semaphore(s.list[k].value, s.list[k].references + 1)],
            task := s.task[child := t.(semids := t.semids[i := k])])
  }

  // ----- every step keeps the invariant

  /** What a change of task p and semaphore k must show: its new claims are counted,
      and a value that turns positive has a waker or no sleepers. */
  lemma Change(s: State, p: nat, t: Task, k: nat, m: Semaphore)
    requires Inv(s) && p < NPROC && k < SYSMAXSEM && TaskOk(t)
    requires forall j :: 0 <= j < SYSMAXSEM ==>
               Claims(t, j) - Claims(s.task[p], j) <= if j == k then m.references - s.list[k].references else 0
    requires t.at.Asleep? ==> s.list[k := m][t.at.key].value <= 0
    requires s.task[p].at.Waking? ==> t.at == s.task[p].at
    requires m.value > 0 ==>
               || s.list[k].value > 0 || t.at == Waking(k)
               || forall x :: 0 <= x < NPROC ==> s.task[x].at != Asleep(k)
    ensures Inv(s.(list := s.list[k := m], task := s.task[p := t]))
  {
    hide Claims, Awakening;
    var list', task' := s.list[k := m], s.task[p := t];
    forall j | 0 <= j < SYSMAXSEM ensures Total(task', j, NPROC) <= list'[j].references {
      TotalUpdate(s.task, p, t, j, NPROC);
    }
    forall x | 0 <= x < NPROC ensures Awakening(list', task', x) {
      StillAwakening(s.list, s.task, p, t, k, m, x);
    }
  }

  lemma StillAwakening(list: seq<Semaphore>, task: seq<Task>, p: nat, t: Task, k: nat, m: Semaphore, x: nat)
    requires p < |task| && x < |task| && k < |list| && (task[x].at.Asleep? ==> task[x].at.key < |list|)
    requires t.at.Asleep? ==> t.at.key < |list| && list[k := m][t.at.key].value <= 0
    requires Awakening(list, task, x) && (task[p].at.Waking? ==> t.at == task[p].at)
    requires m.value > 0 ==>
               || list[k].value > 0 || t.at == Waking(k)
               || forall x :: 0 <= x < |task| ==> task[x].at != Asleep(k)
    ensures Awakening(list[k := m], task[p := t], x)
  {
    if x != p && task[x].at.Asleep? && list[k := m][task[x].at.key].value > 0 {
      if t.at == Waking(task[x].at.key) {
        assert task[p := t][p].at == t.at;
      } else {
        var w :| 0 <= w < |task| && task[w].at == Waking(task[x].at.key);
        assert task[p := t][w].at == task[w].at;
      }
    }
  }

  lemma UsedFree(s: State, u: int)
    requires Inv(s)
    ensures Inv(s.(used := u))
  {
  }

  /** A free slot has no sleeper, so creation takes no semaphore from under one. */
  lemma NoSleeperOnFree(s: State, k: nat)
    requires Inv(s) && k < SYSMAXSEM && Free(s.list[k])
    ensures forall x :: 0 <= x < NPROC ==> s.task[x].at == Idle || s.task[x].at.key != k
  {
    forall x | 0 <= x < NPROC ensures s.task[x].at == Idle || s.task[x].at.key != k {
      if s.task[x].at != Idle && s.task[x].at.key == k {
        Held(s, x, k);
        assert false;
      }
    }
  }

  lemma GetKeeps(s: State, p: nat, key: int, init: int)
    requires Inv(s) && p < NPROC && s.task[p].at == Idle && (key == -1 ==> FirstFree(s.list) < SYSMAXSEM)
    ensures Inv(Get(s, p, key, init))
  {
    hide Counted, Awakening;
    if !GetError(s, p, key) {
      var k := if key == -1 then FirstFree(s.list) else key;
      var t := s.task[p].(at := Attaching(k));
      if key == -1 {
        NoSleeperOnFree(s, k);
        Change(s, p, t, k, Semaphore(init, 1));
        var s1 := s.(list := s.list[k := Semaphore(init, 1)], task := s.task[p := t]);
        UsedFree(s1, s.used + 2);
        assert Get(s, p, key, init) == s1.(used := s.used + 2);
      } else {
        ClaimsCount(s.task, p, k, NPROC);
        Change(s, p, t, k, Semaphore(s.list[k].value, s.list[k].references + 1));
      }
    }
  }

  lemma AttachKeeps(s: State, p: nat)
    requires Inv(s) && p < NPROC && s.task[p].at.Attaching?
    ensures Inv(Attach(s, p))
  {
    var t := s.task[p];
    var i, k := Find(t.semids, -1), t.at.key;
    var t' := Attach(s, p).task[p];
    if i < PROCMAXSEM {
      forall j | 0 <= j < SYSMAXSEM ensures Claims(t', j) <= Claims(t, j) {
        OccursUpdate(t.semids, i, k, j, PROCMAXSEM);
      }
    }
    Change(s, p, t', k, s.list[k]);
    assert s.list[k := s.list[k]] == s.list;
  }

  lemma ReleaseKeeps(s: State, p: nat, key: int)
    requires Inv(s) && p < NPROC && s.task[p].at == Idle
    ensures Inv(Release(s, p, key))
  {
    if Usable(s, p, key) {
      var t, m, s' := s.task[p], s.list[key], Release(s, p, key);
      forall j | 0 <= j < SYSMAXSEM ensures Claims(s'.task[p], j) - Claims(t, j) == if j == key then -1 else 0 {
        OccursUpdate(t.semids, Find(t.semids, key), -1, j, PROCMAXSEM);
      }
      Change(s, p, s'.task[p], key, s'.list[key]);
      UsedFree(s'.(used := s.used), s'.used);
    }
  }

  lemma TryKeeps(s: State, p: nat, key: nat)
    requires Inv(s) && p < NPROC && key < SYSMAXSEM && Find(s.task[p].semids, key) < PROCMAXSEM
    requires s.task[p].at == Idle || s.task[p].at == Retry(key)
    ensures Inv(Try(s, p, key))
  {
    var s' := Try(s, p, key);
    Change(s, p, s'.task[p], key, s'.list[key]);
    assert s.list[key := s'.list[key]] == s'.list;
  }

  lemma UpKeeps(s: State, p: nat, key: int)
    requires Inv(s) && p < NPROC && s.task[p].at == Idle
    ensures Inv(Up(s, p, key))
  {
    if Usable(s, p, key) {
      var s' := Up(s, p, key);
      Held(s, p, key);
      Change(s, p, s'.task[p], key, s'.list[key]);
    }
  }

  lemma WakeKeeps(s: State, p: nat, task': seq<Task>)
    requires Inv(s) && WokeAll(s.task, p, task')
    ensures Inv(s.(task := task'))
  {
    forall k | 0 <= k < SYSMAXSEM ensures Total(task', k, NPROC) <= s.list[k].references {
      SameClaims(s.task, task', k, NPROC);
    }
    forall x | 0 <= x < NPROC ensures Awakening(s.list, task', x) {
      if task'[x].at.Asleep? && s.list[task'[x].at.key].value > 0 {
        assert Awakening(s.list, s.task, x);
        var w :| 0 <= w < NPROC && s.task[w].at == Waking(task'[x].at.key);
        assert task'[w].at == s.task[w].at;
      }
    }
  }

  lemma {:induction false} SameClaims(task: seq<Task>, task': seq<Task>, k: nat, n: nat)
    requires n <= |task| == |task'|
    requires forall x :: 0 <= x < |task| ==>
               && task'[x].semids == task[x].semids && (task'[x].at.Attaching? <==> task[x].at.Attaching?)
               && (task[x].at.Attaching? ==> task'[x].at == task[x].at)
    ensures Total(task', k, n) == Total(task, k, n)
  {
    if n > 0 {
      SameClaims(task, task', k, n - 1);
    }
  }

  lemma KillKeeps(s: State, p: nat)
    requires Inv(s) && p < NPROC
    ensures Inv(Kill(s, p)) && Kill(s, p).list == s.list && Kill(s, p).used == s.used
    ensures forall x :: 0 <= x < NPROC && x != p ==> Kill(s, p).task[x] == s.task[x]
    ensures !Kill(s, p).task[p].at.Asleep? && Kill(s, p).task[p].semids == s.task[p].semids
    ensures if s.task[p].at.Asleep? then Kill(s, p).task[p].at == Retry(s.task[p].at.key)
            else Kill(s, p).task[p] == s.task[p]
  {
    var t := s.task[p];
    if t.at.Asleep? {
      var k := t.at.key;
      Change(s, p, t.(at := Retry(k)), k, s.list[k]);
      assert s.list[k := s.list[k]] == s.list;
    }
  }

  lemma CopyOneKeeps(s: State, p: nat, child: nat, i: nat)
    requires Inv(s) && p < NPROC && child < NPROC && i < PROCMAXSEM && s.task[child].at == Idle
    ensures Inv(CopyOne(s, p, child, i))
  {
    var k, t := s.task[p].semids[i], s.task[child];
    if k >= 0 {
      var t' := t.(semids := t.semids[i := k]);
      forall j | 0 <= j < SYSMAXSEM ensures Claims(t', j) - Claims(t, j) <= if j == k then 1 else 0 {
        OccursUpdate(t.semids, i, k, j, PROCMAXSEM);
      }
      Held(s, p, k);
      Change(s, child, t', k, Semaphore(s.list[k].value, s.list[k].references + 1));
    }
  }

  /** allocproc() and the end of semcopy(). */
  function Renew(s: State, p: nat): State
    requires p < |s.task|
  {
    s.(task := s.task[p := Task([-1, -1, -1, -1, -1], 0, Idle)])
  }

  function CopyCount(s: State, p: nat, child: nat): State
    requires p < |s.task| && child < |s.task|
  {
    s.(task := s.task[child := s.task[child].(semcount := s.task[p].semcount)])
  }

  lemma RenewKeeps(s: State, p: nat)
    requires Inv(s) && p < NPROC && s.task[p].at == Idle
    ensures Inv(Renew(s, p))
  {
    var t := Task([-1, -1, -1, -1, -1], 0, Idle);
    forall j | 0 <= j < SYSMAXSEM ensures Claims(t, j) == 0 {
      OccursNone(t.semids, j, PROCMAXSEM);
    }
    Change(s, p, t, 0, s.list[0]);
    assert s.list[0 := s.list[0]] == s.list;
  }

  lemma {:induction false} OccursNone(ids: seq<int>, k: int, n: nat)
    requires n <= |ids| && forall i :: 0 <= i < n ==> ids[i] != k
    ensures Occurs(ids, k, n) == 0
  {
    if n > 0 {
      OccursNone(ids, k, n - 1);
    }
  }

  lemma CopyCountKeeps(s: State, p: nat, child: nat)
    requires Inv(s) && p < NPROC && child < NPROC && s.task[child].at == Idle
    ensures Inv(CopyCount(s, p, child))
  {
    Change(s, child, s.task[child].(semcount := s.task[p].semcount), 0, s.list[0]);
    assert s.list[0 := s.list[0]] == s.list;
  }

  // ----- runs

  datatype Event =
    | DoGet(p: nat, key: int, init: int) | DoAttach(p: nat) | DoFree(p: nat, key: int)
    | DoDown(p: nat, key: int) | DoRetry(p: nat) | DoUp(p: nat, key: int) | DoWake(p: nat) | DoKill(p: nat)
    | DoRenew(p: nat) | DoCopyOne(p: nat, child: nat, i: nat) | DoCopyCount(p: nat, child: nat)

  /** Any process may take any step it is at, in any order; the guards of DoGet are the
      only demands on callers. */
  ghost predicate Step(s: State, e: Event, s': State)
    requires Shape(s)
  {
    && e.p < NPROC
    && match e
       case DoGet(p, key, init) =>
         s.task[p].at == Idle && (key == -1 ==> FirstFree(s.list) < SYSMAXSEM) && s' == Get(s, p, key, init)
       case DoAttach(p) => s.task[p].at.Attaching? && s' == Attach(s, p)
       case DoFree(p, key) => s.task[p].at == Idle && s' == Release(s, p, key)
       case DoDown(p, key) => s.task[p].at == Idle && s' == Down(s, p, key)
       case DoRetry(p) => s.task[p].at.Retry? && s' == Try(s, p, s.task[p].at.key)
       case DoUp(p, key) => s.task[p].at == Idle && s' == Up(s, p, key)
       case DoWake(p) => WokeAll(s.task, p, s'.task) && s' == s.(task := s'.task)
       case DoKill(p) => s' == Kill(s, p)
       case DoRenew(p) => s.task[p].at == Idle && s' == Renew(s, p)
       case DoCopyOne(p, child, i) =>
         child < NPROC && i < PROCMAXSEM && s.task[child].at == Idle && s' == CopyOne(s, p, child, i)
       case DoCopyCount(p, child) => child < NPROC && s.task[child].at == Idle && s' == CopyCount(s, p, child)
  }

  lemma StepKeeps(s: State, e: Event, s': State)
    requires Inv(s) && Step(s, e, s')
    ensures Inv(s')
  {
    hide Counted, Awakening, Get, Attach, Release, Try, Up, Kill, Renew, CopyOne, CopyCount, WokeAll;
    match e
    case DoGet(p, key, init) => GetKeeps(s, p, key, init);
    case DoAttach(p) => AttachKeeps(s, p);
    case DoFree(p, key) => ReleaseKeeps(s, p, key);
    case DoDown(p, key) => if Usable(s, p, key) { TryKeeps(s, p, key); }
    case DoRetry(p) => TryKeeps(s, p, s.task[p].at.key);
    case DoUp(p, key) => UpKeeps(s, p, key);
    case DoWake(p) => WakeKeeps(s, p, s'.task);
    case DoKill(p) => KillKeeps(s, p);
    case DoRenew(p) => RenewKeeps(s, p);
    case DoCopyOne(p, child, i) => CopyOneKeeps(s, p, child, i);
    case DoCopyCount(p, child) => CopyCountKeeps(s, p, child);
  }

  ghost predicate Init(s: State) {
    && |s.list| == SYSMAXSEM && |s.task| == NPROC
    && (forall k :: 0 <= k < SYSMAXSEM ==> s.list[k].references == 0)
    && forall p :: 0 <= p < NPROC ==> s.task[p].at == Idle && s.task[p].semids == [-1, -1, -1, -1, -1]
  }

  lemma InitHolds(s: State)
    requires Init(s)
    ensures Inv(s)
  {
    forall k | 0 <= k < SYSMAXSEM ensures Total(s.task, k, NPROC) == 0 {
      NoClaims(s.task, k, NPROC);
    }
  }

  lemma {:induction false} NoClaims(task: seq<Task>, k: nat, n: nat)
    requires n <= |task| && forall p :: 0 <= p < |task| ==> task[p].at == Idle && task[p].semids == [-1, -1, -1, -1, -1]
    ensures Total(task, k, n) == 0
  {
    if n > 0 {
      NoClaims(task, k, n - 1);
      OccursNone(task[n - 1].semids, k, PROCMAXSEM);
    }
  }

  ghost predicate IsRun(ss: seq<State>, ev: seq<Event>) {
    && |ss| == |ev| + 1 && Init(ss[0])
    && forall i :: 0 <= i < |ev| ==> Shape(ss[i]) && Step(ss[i], ev[i], ss[i + 1])
  }

  lemma {:induction false} RunKeeps(ss: seq<State>, ev: seq<Event>, n: nat)
    requires IsRun(ss, ev) && n <= |ev|
    ensures Inv(ss[n])
  {
    if n == 0 {
      InitHolds(ss[0]);
    } else {
      RunKeeps(ss, ev, n - 1);
      StepKeeps(ss[n - 1], ev[n - 1], ss[n]);
    }
  }

  /** No wakeup is lost in any interleaving, kills included: whoever sleeps on a positive
      value has a waker on the way, whose step will make it try again. */
  lemma NoLostWakeup(ss: seq<State>, ev: seq<Event>, n: nat, p: nat) returns (w: nat)
    requires IsRun(ss, ev) && n <= |ev| && p < NPROC
    ensures Shape(ss[n])
    ensures ss[n].task[p].at.Asleep? && ss[n].list[ss[n].task[p].at.key].value > 0 ==>
              && w < NPROC && ss[n].task[w].at == Waking(ss[n].task[p].at.key)
              && forall s' :: Step(ss[n], DoWake(w), s') ==>
                 p < |s'.task| && s'.task[p].at == Retry(ss[n].task[p].at.key)
  {
    RunKeeps(ss, ev, n);
    var s := ss[n];
    w := 0;
    assert Awakening(s.list, s.task, p);
    if s.task[p].at.Asleep? && s.list[s.task[p].at.key].value > 0 {
      w :| 0 <= w < NPROC && s.task[w].at == Waking(s.task[p].at.key);
    }
  }

  // ----- what the events say of a semaphore

  /** Process p can name semaphore k: it is in use and attached. */
  ghost predicate Named(s: State, p: nat, k: nat)
    requires p < |s.task| && k < |s.list|
  {
    s.list[k].references != 0 && k in s.task[p].semids
  }

  /** e is a semget(-1, ..) that gets slot k. */
  ghost predicate Creates(s: State, e: Event, k: nat)
    requires Shape(s) && k < SYSMAXSEM
  {
    && e.DoGet? && e.key == -1 && e.p < NPROC && s.task[e.p].semcount <= PROCMAXSEM && s.used <= SYSMAXSEM
    && s.list[k].references == 0 && forall j :: 0 <= j < k ==> s.list[j].references != 0
  }

  /** e is a semget() of semaphore k, or a fork that copies a descriptor of it. */
  ghost predicate Opens(s: State, e: Event, k: nat)
    requires Shape(s) && k < SYSMAXSEM
  {
    && e.p < NPROC && s.list[k].references != 0
    && ((e.DoGet? && e.key == k && s.task[e.p].semcount <= PROCMAXSEM && s.used <= SYSMAXSEM)
        || (e.DoCopyOne? && e.i < PROCMAXSEM && s.task[e.p].semids[e.i] == k))
  }

  ghost predicate Closes(s: State, e: Event, k: nat)
    requires Shape(s) && k < SYSMAXSEM
  {
    e.DoFree? && e.key == k && e.p < NPROC && Named(s, e.p, k)
  }

  ghost predicate Ups(s: State, e: Event, k: nat)
    requires Shape(s) && k < SYSMAXSEM
  {
    e.DoUp? && e.key == k && e.p < NPROC && Named(s, e.p, k)
  }

  /** A semdown() of semaphore k, or its retry after a wakeup, that finds a positive value. */
  ghost predicate Downs(s: State, e: Event, k: nat)
    requires Shape(s) && k < SYSMAXSEM
  {
    && e.p < NPROC && s.list[k].value > 0
    && ((e.DoDown? && e.key == k && Named(s, e.p, k)) || (e.DoRetry? && s.task[e.p].at == Retry(k)))
  }

  function One(b: bool): nat {
    if b then 1 else 0
  }

  /** What step e makes of semaphore k, in terms of the step alone. */
  ghost predicate Effect(s: State, e: Event, m: Semaphore, k: nat)
    requires Shape(s) && k < SYSMAXSEM
  {
    if Creates(s, e, k) then m == Semaphore(e.init, 1)
    else
      && m.value == s.list[k].value + One(Ups(s, e, k)) - One(Downs(s, e, k))
      && m.references == s.list[k].references + One(Opens(s, e, k)) - One(Closes(s, e, k))
      && (s.list[k].references == 0 ==> m.references == 0)
  }

  lemma GetEffect(s: State, e: Event, s': State, k: nat)
    requires Inv(s) && Step(s, e, s') && k < SYSMAXSEM && (e.DoGet? || e.DoFree?)
    ensures |s'.list| == SYSMAXSEM && Effect(s, e, s'.list[k], k)
  {
    hide Counted, Awakening, TaskOk;
  }

  lemma ValueEffect(s: State, e: Event, s': State, k: nat)
    requires Inv(s) && Step(s, e, s') && k < SYSMAXSEM && (e.DoDown? || e.DoRetry? || e.DoUp?)
    ensures |s'.list| == SYSMAXSEM && Effect(s, e, s'.list[k], k)
  {
    if e.DoRetry? {
      Held(s, e.p, s.task[e.p].at.key);
    }
    hide Counted, Awakening;
  }

  lemma CopyEffect(s: State, e: Event, s': State, k: nat)
    requires Inv(s) && Step(s, e, s') && k < SYSMAXSEM && e.DoCopyOne?
    ensures |s'.list| == SYSMAXSEM && Effect(s, e, s'.list[k], k)
  {
    if s.task[e.p].semids[e.i] >= 0 {
      Copied(s, e.p, e.i);
    }
    hide Counted, Awakening;
  }

  lemma StepEffect(s: State, e: Event, s': State, k: nat)
    requires Inv(s) && Step(s, e, s') && k < SYSMAXSEM
    ensures |s'.list| == SYSMAXSEM && Effect(s, e, s'.list[k], k)
  {
    match e
    case DoGet(_, _, _) => GetEffect(s, e, s', k);
    case DoFree(_, _) => GetEffect(s, e, s', k);
    case DoDown(_, _) => ValueEffect(s, e, s', k);
    case DoRetry(_) => ValueEffect(s, e, s', k);
    case DoUp(_, _) => ValueEffect(s, e, s', k);
    case DoCopyOne(_, _, _) => CopyEffect(s, e, s', k);
    case _ =>
      hide Counted, Awakening, TaskOk;
      assert s'.list == s.list;
  }

  lemma Copied(s: State, p: nat, i: nat)
    requires Inv(s) && p < NPROC && i < PROCMAXSEM && s.task[p].semids[i] >= 0
    ensures s.list[s.task[p].semids[i]].references > 0
  {
    assert TaskOk(s.task[p]);
    Held(s, p, s.task[p].semids[i]);
  }

  /** What happened to a semaphore since it was created. */
  datatype Tally = Tally(init: int, ups: nat, downs: nat, opens: nat, closes: nat)

  ghost function Noted(s: State, e: Event, k: nat, y: Tally): Tally
    requires Shape(s) && k < SYSMAXSEM
  {
    if Creates(s, e, k) then Tally(e.init, 0, 0, 0, 0)
    else
      Tally(y.init, y.ups + One(Ups(s, e, k)), y.downs + One(Downs(s, e, k)),
            y.opens + One(Opens(s, e, k)), y.closes + One(Closes(s, e, k)))
  }

  /** The tally of semaphore k over the first n events of a run. */
  ghost function Account(ss: seq<State>, ev: seq<Event>, k: nat, n: nat): Tally
    requires n <= |ev| < |ss| && k < SYSMAXSEM && forall i :: 0 <= i < |ev| ==> Shape(ss[i])
  {
    if n == 0 then Tally(0, 0, 0, 0, 0) else Noted(ss[n - 1], ev[n - 1], k, Account(ss, ev, k, n - 1))
  }

  /** The semaphore is what its tally says. */
  ghost predicate Balanced(m: Semaphore, y: Tally) {
    m.references != 0 ==>
      && m.value == y.init + y.ups - y.downs && (y.init >= 0 ==> m.value >= 0)
      && m.references == 1 + y.opens - y.closes
  }

  lemma BalancedNext(s: State, e: Event, m: Semaphore, k: nat, y: Tally)
    requires Shape(s) && k < SYSMAXSEM && Effect(s, e, m, k) && Balanced(s.list[k], y)
    ensures Balanced(m, Noted(s, e, k, y))
  {
    hide Shape, Creates, Opens, Closes, Ups;
  }

  lemma BalancedFirst(s: State, k: nat)
    requires Init(s) && k < SYSMAXSEM
    ensures |s.list| == SYSMAXSEM && Balanced(s.list[k], Tally(0, 0, 0, 0, 0))
  {
  }

  lemma RunStep(ss: seq<State>, ev: seq<Event>, n: nat)
    requires IsRun(ss, ev) && n < |ev|
    ensures Shape(ss[n]) && Step(ss[n], ev[n], ss[n + 1]) && Inv(ss[n])
  {
    RunKeeps(ss, ev, n);
  }

  lemma {:induction false} BalancedRun(ss: seq<State>, ev: seq<Event>, n: nat, k: nat)
    requires IsRun(ss, ev) && n <= |ev| && k < SYSMAXSEM
    ensures |ss[n].list| == SYSMAXSEM && Balanced(ss[n].list[k], Account(ss, ev, k, n))
    decreases n
  {
    hide Inv, Shape, Init, Step, Effect, Noted, Balanced;
    if n == 0 {
      BalancedFirst(ss[0], k);
    } else {
      RunStep(ss, ev, n - 1);
      BalancedRun(ss, ev, n - 1, k);
      StepEffect(ss[n - 1], ev[n - 1], ss[n], k);
      BalancedNext(ss[n - 1], ev[n - 1], ss[n].list[k], k, Account(ss, ev, k, n - 1));
    }
  }

  /** In every reachable state, the value of a semaphore in use is its initial value plus
      the ups and minus the completed downs since its creation; its references are its
      creation and the opens minus the closes, and bound its attachments. */
  lemma ValueConserved(ss: seq<State>, ev: seq<Event>, n: nat, k: nat)
    requires IsRun(ss, ev) && n <= |ev| && k < SYSMAXSEM
    ensures Shape(ss[n]) && Total(ss[n].task, k, NPROC) <= ss[n].list[k].references
    ensures
      var m, y := ss[n].list[k], Account(ss, ev, k, n);
      m.references != 0 ==>
        && m.value == y.init + y.ups - y.downs && (y.init >= 0 ==> m.value >= 0)
        && m.references == 1 + y.opens - y.closes
    ensures ss[n].list[k].references == 0 ==>
              forall x :: 0 <= x < NPROC ==> ss[n].task[x].at == Idle || ss[n].task[x].at.key != k
  {
    RunKeeps(ss, ev, n);
    BalancedRun(ss, ev, n, k);
    hide Account, Awakening, Step, TaskOk;
    if ss[n].list[k].references == 0 {
      NoSleeperOnFree(ss[n], k);
    }
  }

  // ----- the code

  class SemTable {
    var list: seq<Semaphore>
    var used: int
    var task: seq<Task>

    ghost function S(): State
      reads this
    {
      State(list, used, task)
    }

    ghost predicate Valid()
      reads this
    {
      Inv(S())
    }

    constructor ()
      ensures Valid() && Init(S()) && used == 0
    {
      var free := seq(SYSMAXSEM, _ => Semaphore(0, 0));
      var idle := seq(NPROC, _ => Task([-1, -1, -1, -1, -1], 0, Idle));
      InitHolds(State(free, 0, idle));
      list, used, task := free, 0, idle;
    }

    /** semcreate()'s search. */
    method SemCreate() returns (k: nat)
      requires Valid()
      modifies this`used
      ensures k == FirstFree(list) && used == if k < SYSMAXSEM then old(used) + 1 else old(used)
    {
      k := 0;
      while k < SYSMAXSEM && list[k].references != 0
        invariant k <= SYSMAXSEM && forall j :: 0 <= j < k ==> !Free(list[j])
        invariant used == old(used)
      {
        k := k + 1;
      }
      if k < SYSMAXSEM {
        used := used + 1;
      }
    }

    /** The loop of semattach(), semdetach() and isattached(). */
    static method Search(ids: seq<int>, k: int) returns (i: nat)
      ensures i == Find(ids, k)
    {
      i := 0;
      while i < |ids| && ids[i] != k
        invariant i <= |ids| && forall j :: 0 <= j < i ==> ids[j] != k
      {
        i := i + 1;
      }
    }

    method SemGet(p: nat, key: int, init: int) returns (r: int)
      requires Valid() && p < NPROC && task[p].at == Idle
      requires key != SYSMAXSEM && (key == -1 ==> FirstFree(list) < SYSMAXSEM)
      modifies this
      ensures Valid() && S() == Get(old(S()), p, key, init)
      ensures r == ENSEM <==> old(task)[p].semcount > PROCMAXSEM
      ensures r == ENSEMSYS <==> old(task)[p].semcount <= PROCMAXSEM && old(used) > SYSMAXSEM
      ensures r == EINVAL <==>
                && old(task)[p].semcount <= PROCMAXSEM && old(used) <= SYSMAXSEM
                && (key < -1 || key >= SYSMAXSEM || (key >= 0 && old(list)[key].references == 0))
      ensures r < 0 ==> S() == old(S())
      ensures r >= 0 ==> r < SYSMAXSEM && task == old(task)[p := old(task)[p].(at := Attaching(r))]
      ensures r >= 0 && key == -1 ==>
                && old(list)[r].references == 0 && (forall j :: 0 <= j < r ==> old(list)[j].references != 0)
                && list == old(list)[r := Semaphore(init, 1)] && used == old(used) + 2
      ensures r >= 0 && key != -1 ==>
                && r == key && used == old(used)
                && list == old(list)[r := Semaphore(old(list)[r].value, old(list)[r].references + 1)]
      ensures r >= 0 && key == -1 ==> forall x :: 0 <= x < NPROC ==> old(task)[x].at == Idle || old(task)[x].at.key != r
    {
      GetKeeps(S(), p, key, init);
      if task[p].semcount > PROCMAXSEM { return ENSEM; }
      if used > SYSMAXSEM { return ENSEMSYS; }
      if key < -1 || key > SYSMAXSEM || (key >= 0 && list[key].references == 0) { return EINVAL; }
      if key == -1 {
        var k := SemCreate();
        NoSleeperOnFree(old(S()), k);
        list := list[k := Semaphore(init, 1)];
        used := used + 1;
        task := task[p := task[p].(at := Attaching(k))];
        return k;
      }
      list := list[key := list[key].(references := list[key].references + 1)];
      task := task[p := task[p].(at := Attaching(key))];
      return key;
    }

    method SemAttach(p: nat) returns (r: int)
      requires Valid() && p < NPROC && task[p].at.Attaching?
      modifies this`task
      ensures Valid() && S() == Attach(old(S()), p)
      ensures r == 1 <==> -1 in old(task)[p].semids
      ensures r != 1 ==> r == 0 && task == old(task)[p := old(task)[p].(at := Idle)]
      ensures r == 1 ==>
                exists i: nat :: First(old(task)[p].semids, -1, i) && task == old(task)[p :=
                  Task(old(task)[p].semids[i := old(task)[p].at.key], old(task)[p].semcount + 1, Idle)]
    {
      AttachKeeps(S(), p);
      var i := Search(task[p].semids, -1);
      if i < PROCMAXSEM {
        assert First(task[p].semids, -1, i);
        task := task[p := Task(task[p].semids[i := task[p].at.key], task[p].semcount + 1, Idle)];
        return 1;
      }
      task := task[p := task[p].(at := Idle)];
      return 0;
    }

    method SemFree(p: nat, key: int) returns (r: int)
      requires Valid() && p < NPROC && task[p].at == Idle && key != SYSMAXSEM
      modifies this
      ensures Valid() && S() == Release(old(S()), p, key)
      ensures r == 0 <==> 0 <= key < SYSMAXSEM && Named(old(S()), p, key)
      ensures r != 0 ==> r == EINVAL && S() == old(S())
      ensures r == 0 ==>
                && list == old(list)[key := Semaphore(old(list)[key].value, old(list)[key].references - 1)]
                && used == (if list[key].references == 0 then old(used) - 1 else old(used))
                && exists i: nat :: First(old(task)[p].semids, key, i) && task == old(task)[p :=
                     Task(old(task)[p].semids[i := -1], old(task)[p].semcount - 1, Idle)]
    {
      hide Counted, Awakening;
      ReleaseKeeps(S(), p, key);
      if key < 0 || key > SYSMAXSEM || list[key].references == 0 { return EINVAL; }
      var i := Search(task[p].semids, key);
      if i == PROCMAXSEM { return EINVAL; }
      assert First(task[p].semids, key, i);
      task := task[p := task[p].(semids := task[p].semids[i := -1], semcount := task[p].semcount - 1)];
      list := list[key := list[key].(references := list[key].references - 1)];
      if list[key].references == 0 {
        used := used - 1;
      }
      return 0;
    }

    /** semdown()'s loop body: done, or asleep until the next wakeup. */
    method TryDown(p: nat, key: nat) returns (done: bool)
      requires Valid() && p < NPROC && key < SYSMAXSEM && Find(task[p].semids, key) < PROCMAXSEM
      requires task[p].at == Idle || task[p].at == Retry(key)
      modifies this
      ensures Valid() && S() == Try(old(S()), p, key)
      ensures done <==> old(list)[key].value > 0
      ensures done ==> list == old(list)[key := Semaphore(old(list)[key].value - 1, old(list)[key].references)]
      ensures !done ==> list == old(list)
      ensures used == old(used) && task == old(task)[p := old(task)[p].(at := if done then Idle else Asleep(key))]
    {
      hide Counted, Awakening;
      TryKeeps(S(), p, key);
      if list[key].value > 0 {
        list := list[key := list[key].(value := list[key].value - 1)];
        task := task[p := task[p].(at := Idle)];
        return true;
      }
      task := task[p := task[p].(at := Asleep(key))];
      return false;
    }

    method SemDown(p: nat, key: int) returns (r: int)
      requires Valid() && p < NPROC && task[p].at == Idle && key != SYSMAXSEM
      modifies this
      ensures Valid() && S() == Down(old(S()), p, key)
      ensures r == 0 <==> 0 <= key < SYSMAXSEM && Named(old(S()), p, key)
      ensures r != 0 ==> r == EINVAL && S() == old(S())
      ensures r == 0 ==>
                && used == old(used)
                && var m := old(list)[key];
                   && list == (if m.value > 0 then old(list)[key := Semaphore(m.value - 1, m.references)]
                               else old(list))
                   && task == old(task)[p := old(task)[p].(at := if m.value > 0 then Idle else Asleep(key))]
    {
      if key < 0 || key > SYSMAXSEM || list[key].references == 0 { return EINVAL; }
      var i := Search(task[p].semids, key);
      if i == PROCMAXSEM { return EINVAL; }
      var done := TryDown(p, key);
      return 0;
    }

    method SemUp(p: nat, key: int) returns (r: int)
      requires Valid() && p < NPROC && task[p].at == Idle && key != SYSMAXSEM
      modifies this
      ensures Valid() && S() == Up(old(S()), p, key)
      ensures r == 0 <==> 0 <= key < SYSMAXSEM && Named(old(S()), p, key)
      ensures r != 0 ==> r == EINVAL && S() == old(S())
      ensures r == 0 ==>
                && used == old(used)
                && list == old(list)[key := Semaphore(old(list)[key].value + 1, old(list)[key].references)]
                && task == old(task)[p := old(task)[p].(at := if old(list)[key].value == 0 then Waking(key) else Idle)]
    {
      hide Counted, Awakening;
      UpKeeps(S(), p, key);
      if key < 0 || key > SYSMAXSEM || list[key].references == 0 { return EINVAL; }
      var i := Search(task[p].semids, key);
      if i == PROCMAXSEM { return EINVAL; }
      var semvalue := list[key].value;
      list := list[key := list[key].(value := list[key].value + 1)];
      task := task[p := task[p].(at := if semvalue == 0 then Waking(key) else Idle)];
      return 0;
    }

    method Wakeup(p: nat)
      requires Valid() && p < NPROC && task[p].at.Waking?
      modifies this`task
      ensures Valid() && WokeAll(old(task), p, task)
      ensures forall x :: 0 <= x < NPROC && x != p ==>
                task[x] == if old(task)[x].at == Asleep(old(task)[p].at.key)
                           then old(task)[x].(at := Retry(old(task)[p].at.key)) else old(task)[x]
    {
      ghost var s := S();
      var k := task[p].at.key;
      var t := task;
      for x := 0 to NPROC
        invariant |t| == NPROC && task == old(task)
        invariant forall y :: 0 <= y < NPROC ==> t[y] == if y < x then Woken(task[y], k) else task[y]
      {
        if t[x].at == Asleep(k) {
          t := t[x := t[x].(at := Retry(k))];
        }
      }
      t := t[p := t[p].(at := Idle)];
      WakeKeeps(s, p, t);
      task := t;
    }

    method SemCopyOne(p: nat, child: nat, i: nat)
      requires Valid() && p < NPROC && child < NPROC && i < PROCMAXSEM && task[child].at == Idle
      modifies this
      ensures Valid() && S() == CopyOne(old(S()), p, child, i)
      ensures
        var k := old(task)[p].semids[i];
        if k == -1 then S() == old(S())
        else
          && 0 <= k < SYSMAXSEM && used == old(used)
          && list == old(list)[k := Semaphore(old(list)[k].value, old(list)[k].references + 1)]
          && task == old(task)[child := old(task)[child].(semids := old(task)[child].semids[i := k])]
    {
      CopyOneKeeps(S(), p, child, i);
      var semid := task[p].semids[i];
      if semid != -1 {
        task := task[child := task[child].(semids := task[child].semids[i := semid])];
        list := list[semid := list[semid].(references := list[semid].references + 1)];
      }
    }
  }
}
