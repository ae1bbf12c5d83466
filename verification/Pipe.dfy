/** Pipes, pipe.c: a ring between wrapping 32-bit counters. Each method is what one
    process does while it holds the lock, so between calls the lock is free. */
module Pipe {
  import opened Blocks

  const PIPESIZE := 512
  const WRAP := 0x1_0000_0000

  /** Writing and Reading are ready to run; the others sleep on nwrite and nread. */
  datatype Task =
    | Idle
    | Writing(bytes: seq<Byte>, i: nat)
    | WSleep(bytes: seq<Byte>, i: nat)
    | Reading(n: nat)
    | RSleep(n: nat)

  function WokenReader(t: Task): Task {
    if t.RSleep? then Reading(t.n) else t
  }

  function WokenWriter(t: Task): Task {
    if t.WSleep? then Writing(t.bytes, t.i) else t
  }

  /** The ring holds what was written and not yet read. */
  ghost predicate Ring(data: seq<Byte>, nread: nat, nwrite: nat, written: seq<Byte>, taken: nat) {
    && |data| == PIPESIZE && taken <= |written| <= taken + PIPESIZE
    && nread == taken % WRAP && nwrite == |written| % WRAP
    && forall k :: taken <= k < |written| ==> data[k % PIPESIZE] == written[k]
  }

  /** Counts below a power of two keep their remainder by a smaller one. */
  lemma WrapKeepsIndex(x: nat)
    ensures x % WRAP % PIPESIZE == x % PIPESIZE
  {
    var q := x / WRAP;
    Multiple(q * (WRAP / PIPESIZE), x % WRAP);
    assert x == q * (WRAP / PIPESIZE) * PIPESIZE + x % WRAP;
  }

  lemma {:induction false} Multiple(k: nat, x: nat)
    ensures (k * PIPESIZE + x) % PIPESIZE == x % PIPESIZE
  {
    if k > 0 {
      Multiple(k - 1, x);
    }
  }

  /** Two counts less than 2^32 apart are equal iff they are equal modulo 2^32. */
  lemma WrapKeepsOrder(x: nat, y: nat)
    requires x <= y < x + WRAP
    ensures x % WRAP == y % WRAP <==> x == y
  {
    var p, q := x / WRAP, y / WRAP;
    if x % WRAP == y % WRAP {
      assert y - x == (q - p) * WRAP;
      assert q - p < 1;
    }
  }

  lemma WrapAdds(x: nat, n: nat)
    ensures (x % WRAP + n) % WRAP == (x + n) % WRAP
  {
    var q := x / WRAP;
    assert x + n == q * WRAP + (x % WRAP + n);
    WrapMultiple(q, x % WRAP + n);
  }

  lemma {:induction false} WrapMultiple(q: nat, x: nat)
    ensures (q * WRAP + x) % WRAP == x % WRAP
  {
    if q > 0 {
      WrapMultiple(q - 1, x);
      assert q * WRAP + x == (q - 1) * WRAP + x + WRAP;
    }
  }

  lemma Counters(data: seq<Byte>, nread: nat, nwrite: nat, written: seq<Byte>, taken: nat)
    requires Ring(data, nread, nwrite, written, taken)
    ensures nwrite == (nread + PIPESIZE) % WRAP <==> |written| == taken + PIPESIZE
    ensures nread == nwrite <==> |written| == taken
    ensures nread % PIPESIZE == taken % PIPESIZE && nwrite % PIPESIZE == |written| % PIPESIZE
  {
    WrapKeepsIndex(taken);
    WrapKeepsIndex(|written|);
    WrapKeepsOrder(taken, |written|);
    WrapKeepsOrder(|written|, taken + PIPESIZE);
    WrapAdds(taken, PIPESIZE);
  }

  lemma Add(data: seq<Byte>, nread: nat, nwrite: nat, written: seq<Byte>, taken: nat, b: Byte)
    requires Ring(data, nread, nwrite, written, taken) && |written| < taken + PIPESIZE
    ensures Ring(data[|written| % PIPESIZE := b], nread, (nwrite + 1) % WRAP, written + [b], taken)
  {
    WrapAdds(|written|, 1);
    forall k | taken <= k < |written| ensures k % PIPESIZE != |written| % PIPESIZE {
      Distinct(k, |written|);
    }
  }

  lemma Distinct(j: nat, k: nat)
    requires j < k < j + PIPESIZE
    ensures j % PIPESIZE != k % PIPESIZE
  {
  }

  lemma Remove(data: seq<Byte>, nread: nat, nwrite: nat, written: seq<Byte>, taken: nat)
    requires Ring(data, nread, nwrite, written, taken) && taken < |written|
    ensures Ring(data, (nread + 1) % WRAP, nwrite, written, taken + 1)
    ensures data[taken % PIPESIZE] == written[taken]
  {
    WrapAdds(taken, 1);
  }

  lemma Bound(data: seq<Byte>, nread: nat, nwrite: nat, written: seq<Byte>, taken: nat)
    requires Ring(data, nread, nwrite, written, taken)
    ensures taken <= |written| <= taken + PIPESIZE
  {
  }

  // ----- what a pipe goes through

  /** written and read are all bytes that went in and came out. */
  datatype State = State(
    task: seq<Task>, killed: seq<bool>, written: seq<Byte>, read: seq<Byte>, readopen: bool, writeopen: bool)

  /** First in, first out, with at most PIPESIZE bytes unread. */
  ghost predicate Fifo(s: State) {
    s.read <= s.written && |s.written| <= |s.read| + PIPESIZE
  }

  /** No writer sleeps with room or a closed read end. */
  ghost predicate WritersFine(s: State) {
    forall t :: 0 <= t < |s.task| && s.task[t].WSleep? ==>
      |s.written| == |s.read| + PIPESIZE && s.readopen && s.task[t].i < |s.task[t].bytes|
  }

  /** No reader sleeps with data or a closed write end. */
  ghost predicate ReadersFine(s: State) {
    forall t :: 0 <= t < |s.task| && s.task[t].RSleep? ==> |s.written| == |s.read| && s.writeopen
  }

  /** A process inside piperead() or pipewrite() keeps its end open. */
  ghost predicate EndsOpen(s: State) {
    forall t :: 0 <= t < |s.task| ==>
      && (s.task[t].Reading? || s.task[t].RSleep? ==> s.readopen)
      && (s.task[t].Writing? || s.task[t].WSleep? ==> s.writeopen && s.task[t].i <= |s.task[t].bytes|)
  }

  ghost predicate Inv(s: State) {
    |s.killed| == |s.task| && Fifo(s) && WritersFine(s) && EndsOpen(s)
  }

  /** How many of the writer's remaining bytes fit. */
  ghost function Fitting(s: State, t: nat): int
    requires t < |s.task| && s.task[t].Writing?
  {
    var rest, room := |s.task[t].bytes| - s.task[t].i, PIPESIZE - (|s.written| - |s.read|);
    if rest <= room then rest else room
  }

  /** pipewrite() from lock to lock; r is its result, -2 if it goes to sleep. */
  ghost predicate WriteStep(s: State, t: nat, s': State, r: int)
    requires Inv(s) && t < |s.task| && s.task[t].Writing?
  {
    var bytes, i, m := s.task[t].bytes, s.task[t].i, Fitting(s, t);
    && s' == s.(task := s'.task, written := s.written + bytes[i..i + m]) && |s'.task| == |s.task|
    && r == (if i + m == |bytes| then |bytes| else if !s.readopen || s.killed[t] then -1 else -2)
    && s'.task[t] == (if r == -2 then WSleep(bytes, i + m) else Idle)
    && forall x :: 0 <= x < |s.task| && x != t ==> s'.task[x] == if r == -1 then s.task[x] else WokenReader(s.task[x])
  }

  /** piperead() from lock to lock. */
  ghost predicate ReadStep(s: State, t: nat, s': State, r: int, dst: seq<Byte>)
    requires Inv(s) && t < |s.task| && s.task[t].Reading?
  {
    var n, left := s.task[t].n, |s.written| - |s.read|;
    if left == 0 && s.writeopen then
      && dst == [] && r == (if s.killed[t] then -1 else -2)
      && s' == s.(task := s.task[t := if s.killed[t] then Idle else RSleep(n)])
    else
      && r == (if n <= left then n else left) && dst == s.written[|s.read|..|s.read| + r]
      && s' == s.(task := s'.task, read := s.read + dst) && |s'.task| == |s.task| && s'.task[t] == Idle
      && forall x :: 0 <= x < |s.task| && x != t ==> s'.task[x] == WokenWriter(s.task[x])
  }

  /** pipeclose(), when the last file of that end is closed: nobody is inside. */
  ghost predicate CanClose(s: State, writable: bool) {
    && (if writable then s.writeopen else s.readopen)
    && forall t :: 0 <= t < |s.task| ==>
         if writable then !s.task[t].Writing? && !s.task[t].WSleep? else !s.task[t].Reading? && !s.task[t].RSleep?
  }

  ghost predicate CloseStep(s: State, writable: bool, s': State) {
    && |s'.task| == |s.task|
    && s' == s.(task := s'.task, writeopen := s.writeopen && !writable, readopen := s.readopen && writable)
    && forall x :: 0 <= x < |s.task| ==>
       s'.task[x] == if writable then WokenReader(s.task[x]) else WokenWriter(s.task[x])
  }

  function Killed(s: State, t: nat): State
    requires t < |s.task| == |s.killed|
  {
    s.(killed := s.killed[t := true], task := s.task[t := WokenReader(WokenWriter(s.task[t]))])
  }

  datatype Event =
    | DoStartWrite(t: nat, bytes: seq<Byte>) | DoStartRead(t: nat, n: nat)
    | DoWrite(t: nat) | DoRead(t: nat) | DoClose(writable: bool) | DoKill(t: nat)

  /** Any process may take any step it is at, in any order. */
  ghost predicate Step(s: State, e: Event, s': State)
    requires Inv(s)
  {
    match e
    case DoStartWrite(t, bytes) =>
      t < |s.task| && s.task[t] == Idle && s.writeopen && s' == s.(task := s.task[t := Writing(bytes, 0)])
    case DoStartRead(t, n) =>
      t < |s.task| && s.task[t] == Idle && s.readopen && s' == s.(task := s.task[t := Reading(n)])
    case DoWrite(t) => t < |s.task| && s.task[t].Writing? && exists r :: WriteStep(s, t, s', r)
    case DoRead(t) => t < |s.task| && s.task[t].Reading? && exists r, dst :: ReadStep(s, t, s', r, dst)
    case DoClose(writable) => CanClose(s, writable) && CloseStep(s, writable, s')
    case DoKill(t) => t < |s.task| && s' == Killed(s, t)
  }

  // ----- every step keeps the invariant

  lemma WriteKeeps(s: State, t: nat, s': State, r: int)
    requires Inv(s) && t < |s.task| && s.task[t].Writing? && WriteStep(s, t, s', r)
    ensures Inv(s')
  {
  }

  lemma ReadKeeps(s: State, t: nat, s': State, r: int, dst: seq<Byte>)
    requires Inv(s) && t < |s.task| && s.task[t].Reading? && ReadStep(s, t, s', r, dst)
    ensures Inv(s')
  {
  }

  lemma StepKeeps(s: State, e: Event, s': State)
    requires Inv(s) && Step(s, e, s')
    ensures Inv(s')
  {
    match e {
      case DoWrite(t) =>
        var r :| WriteStep(s, t, s', r);
        WriteKeeps(s, t, s', r);
      case DoRead(t) =>
        var r, dst :| ReadStep(s, t, s', r, dst);
        ReadKeeps(s, t, s', r, dst);
      case _ =>
    }
  }

  // ----- readers

  /** The step that leaves a reader asleep on data: a killed writer with more bytes than
      an empty ring takes returns without waking it. */
  ghost predicate Strands(s: State, e: Event) {
    && e.DoWrite? && e.t < |s.task| == |s.killed| && s.task[e.t].Writing? && s.killed[e.t]
    && |s.task[e.t].bytes| - s.task[e.t].i > PIPESIZE && exists x :: 0 <= x < |s.task| && s.task[x].RSleep?
  }

  lemma WriteReaders(s: State, t: nat, s': State, r: int)
    requires Inv(s) && ReadersFine(s) && t < |s.task| && s.task[t].Writing? && WriteStep(s, t, s', r)
    ensures ReadersFine(s') <==> !Strands(s, DoWrite(t))
  {
    if x :| 0 <= x < |s.task| && s.task[x].RSleep? {
      assert s'.task[x] == if r == -1 then s.task[x] else WokenReader(s.task[x]);
    }
  }

  /** From a state in which no reader sleeps in vain, a step leads to another one iff it
      is not the stranding one. */
  lemma ReadersStep(s: State, e: Event, s': State)
    requires Inv(s) && ReadersFine(s) && Step(s, e, s')
    ensures ReadersFine(s') <==> !Strands(s, e)
  {
    match e {
      case DoWrite(t) =>
        var r :| WriteStep(s, t, s', r);
        WriteReaders(s, t, s', r);
      case DoRead(t) =>
        var r, dst :| ReadStep(s, t, s', r, dst);
      case _ =>
    }
  }

  // ----- whole runs

  ghost predicate Init(s: State) {
    && |s.killed| == |s.task| && s.written == s.read == [] && s.readopen && s.writeopen
    && forall t :: 0 <= t < |s.task| ==> s.task[t] == Idle
  }

  ghost predicate IsRun(ss: seq<State>, ev: seq<Event>) {
    && |ss| == |ev| + 1 && Init(ss[0])
    && forall k :: 0 <= k < |ev| ==> Inv(ss[k]) ==> Step(ss[k], ev[k], ss[k + 1])
  }

  /** In every interleaving, kills included: the bytes read are a prefix of the bytes
      written with at most PIPESIZE unread, and no writer sleeps in vain. */
  lemma {:induction false} FifoRun(ss: seq<State>, ev: seq<Event>, n: nat)
    requires IsRun(ss, ev) && n <= |ev|
    ensures Inv(ss[n])
  {
    if n > 0 {
      FifoRun(ss, ev, n - 1);
      StepKeeps(ss[n - 1], ev[n - 1], ss[n]);
    }
  }

  lemma {:induction false} ReadersFineUntil(ss: seq<State>, ev: seq<Event>, n: nat)
    requires IsRun(ss, ev) && n <= |ev| && forall k :: 0 <= k < n ==> !Strands(ss[k], ev[k])
    ensures ReadersFine(ss[n])
  {
    if n > 0 {
      ReadersFineUntil(ss, ev, n - 1);
      FifoRun(ss, ev, n - 1);
      ReadersStep(ss[n - 1], ev[n - 1], ss[n]);
    }
  }

  /** No reader ever sleeps with data or a closed write end in a run iff no step of the
      run is the stranding one. */
  lemma NoReaderStranded(ss: seq<State>, ev: seq<Event>)
    requires IsRun(ss, ev)
    ensures (forall n :: 0 <= n < |ss| ==> ReadersFine(ss[n])) <==>
              (forall k :: 0 <= k < |ev| ==> !Strands(ss[k], ev[k]))
  {
    if forall k :: 0 <= k < |ev| ==> !Strands(ss[k], ev[k]) {
      forall n | 0 <= n < |ss| ensures ReadersFine(ss[n]) {
        ReadersFineUntil(ss, ev, n);
      }
    }
    if forall n :: 0 <= n < |ss| ==> ReadersFine(ss[n]) {
      forall k | 0 <= k < |ev| ensures !Strands(ss[k], ev[k]) {
        FifoRun(ss, ev, k);
        ReadersStep(ss[k], ev[k], ss[k + 1]);
      }
    }
  }

  // ----- the code

  class Pipe {
    var data: array<Byte>
    var nread: nat
    var nwrite: nat
    var readopen: bool
    var writeopen: bool
    var task: seq<Task>
    var killed: seq<bool>
    ghost var written: seq<Byte>
    ghost var read: seq<Byte>

    ghost function S(): State
      reads this
    {
      State(task, killed, written, read, readopen, writeopen)
    }

    ghost predicate Valid()
      reads this, data
    {
      data.Length == PIPESIZE && Ring(data[..], nread, nwrite, written, |read|) && Inv(S())
    }

    /** pipealloc() */
    constructor (n: nat)
      ensures Valid() && fresh(data) && Init(S()) && |task| == n && forall t :: 0 <= t < n ==> !killed[t]
    {
      data := new Byte[PIPESIZE];
      nread, nwrite, readopen, writeopen := 0, 0, true, true;
      task, killed := seq(n, _ => Idle), seq(n, _ => false);
      written, read := [], [];
    }

    method StartWrite(t: nat, bytes: seq<Byte>)
      requires Valid() && t < |task| && task[t] == Idle && writeopen
      modifies this`task
      ensures Valid() && S() == old(S()).(task := old(task)[t := Writing(bytes, 0)])
      ensures old(ReadersFine(S())) ==> ReadersFine(S())
    {
      task := task[t := Writing(bytes, 0)];
    }

    method StartRead(t: nat, n: nat)
      requires Valid() && t < |task| && task[t] == Idle && readopen
      modifies this`task
      ensures Valid() && S() == old(S()).(task := old(task)[t := Reading(n)])
      ensures old(ReadersFine(S())) ==> ReadersFine(S())
    {
      task := task[t := Reading(n)];
    }

    method WakeReaders()
      modifies this`task
      ensures |task| == |old(task)| && forall x :: 0 <= x < |task| ==> task[x] == WokenReader(old(task)[x])
    {
      for x := 0 to |task|
        invariant |task| == |old(task)|
        invariant forall y :: 0 <= y < |task| ==> task[y] == if y < x then WokenReader(old(task)[y]) else old(task)[y]
      {
        if task[x].RSleep? {
          task := task[x := Reading(task[x].n)];
        }
      }
    }

    method WakeWriters()
      modifies this`task
      ensures |task| == |old(task)| && forall x :: 0 <= x < |task| ==> task[x] == WokenWriter(old(task)[x])
    {
      for x := 0 to |task|
        invariant |task| == |old(task)|
        invariant forall y :: 0 <= y < |task| ==> task[y] == if y < x then WokenWriter(old(task)[y]) else old(task)[y]
      {
        if task[x].WSleep? {
          task := task[x := Writing(task[x].bytes, task[x].i)];
        }
      }
    }

    /** pipewrite()'s copying, until all is written or the ring is full. */
    method Fill(bytes: seq<Byte>, i0: nat) returns (i: nat)
      requires data.Length == PIPESIZE && Ring(data[..], nread, nwrite, written, |read|) && i0 <= |bytes|
      modifies this`nwrite, this`written, data
      ensures Ring(data[..], nread, nwrite, written, |read|) && i0 <= i <= |bytes|
      ensures written == old(written) + bytes[i0..i]
      ensures i < |bytes| ==> |written| == |read| + PIPESIZE
    {
      hide Ring;
      i := i0;
      assert bytes[i0..i0] == [];
      while i < |bytes| && nwrite != (nread + PIPESIZE) % WRAP
        invariant i0 <= i <= |bytes| && Ring(data[..], nread, nwrite, written, |read|)
        invariant written == old(written) + bytes[i0..i]
      {
        Counters(data[..], nread, nwrite, written, |read|);
        Bound(data[..], nread, nwrite, written, |read|);
        Add(data[..], nread, nwrite, written, |read|, bytes[i]);
        ghost var d := data[..];
        data[nwrite % PIPESIZE] := bytes[i];
        assert data[..] == d[nwrite % PIPESIZE := bytes[i]];
        nwrite := (nwrite + 1) % WRAP;
        assert bytes[i0..i] + [bytes[i]] == bytes[i0..i + 1];
        written := written + [bytes[i]];
        i := i + 1;
      }
      Counters(data[..], nread, nwrite, written, |read|);
    }

    /** pipewrite() from where it gets the lock to where it gives it up: done, refused, or
        asleep because the ring is full. */
    method RunWrite(t: nat) returns (r: int)
      requires Valid() && t < |task| && task[t].Writing?
      modifies this, data
      ensures Valid() && data == old(data) && WriteStep(old(S()), t, S(), r)
      ensures old(ReadersFine(S())) ==> (ReadersFine(S()) <==> !old(Strands(S(), DoWrite(t))))
    {
      hide Ring, ReadersFine, Strands;
      ghost var s := S();
      var bytes := task[t].bytes;
      Bound(data[..], nread, nwrite, written, |read|);
      var i := Fill(bytes, task[t].i);
      Bound(data[..], nread, nwrite, written, |read|);
      task := task[t := Idle];
      if i < |bytes| && (!readopen || killed[t]) {
        r := -1;
      } else {
        WakeReaders();
        if i < |bytes| {
          task := task[t := WSleep(bytes, i)];
          r := -2;
        } else {
          r := |bytes|;
        }
      }
      WriteKeeps(s, t, S(), r);
      if ReadersFine(s) {
        WriteReaders(s, t, S(), r);
      }
    }

    /** piperead()'s copying, until n bytes are read or the ring is empty. */
    method Drain(n: nat) returns (dst: seq<Byte>)
      requires data.Length == PIPESIZE && Ring(data[..], nread, nwrite, written, |read|) && read <= written
      modifies this`nread, this`read
      ensures Ring(data[..], nread, nwrite, written, |read|)
      ensures |dst| <= n && read == old(read) + dst <= written && (|dst| < n ==> read == written)
    {
      hide Ring;
      dst := [];
      while |dst| < n && nread != nwrite
        invariant Ring(data[..], nread, nwrite, written, |read|)
        invariant |dst| <= n && read == old(read) + dst <= written
        decreases n - |dst|
      {
        Counters(data[..], nread, nwrite, written, |read|);
        Bound(data[..], nread, nwrite, written, |read|);
        Remove(data[..], nread, nwrite, written, |read|);
        dst := dst + [data[nread % PIPESIZE]];
        read := read + [data[nread % PIPESIZE]];
        nread := (nread + 1) % WRAP;
      }
      Counters(data[..], nread, nwrite, written, |read|);
    }

    /** piperead() from where it gets the lock to where it gives it up. */
    method RunRead(t: nat) returns (r: int, dst: seq<Byte>)
      requires Valid() && t < |task| && task[t].Reading?
      modifies this
      ensures Valid() && data == old(data) && ReadStep(old(S()), t, S(), r, dst)
      ensures old(ReadersFine(S())) ==> ReadersFine(S())
    {
      hide Ring;
      ghost var s := S();
      var n := task[t].n;
      dst := [];
      Counters(data[..], nread, nwrite, written, |read|);
      if nread == nwrite && writeopen {
        if killed[t] {
          task := task[t := Idle];
          return -1, dst;
        }
        task := task[t := RSleep(n)];
        return -2, dst;
      }
      dst := Drain(n);
      task := task[t := Idle];
      WakeWriters();
      r := |dst|;
      ReadKeeps(s, t, S(), r, dst);
    }

    /** pipeclose(): the pipe is freed when both ends are closed. */
    method Close(writable: bool) returns (freed: bool)
      requires Valid() && CanClose(S(), writable)
      modifies this
      ensures Valid() && data == old(data) && CloseStep(old(S()), writable, S())
      ensures freed <==> !readopen && !writeopen
      ensures old(ReadersFine(S())) ==> ReadersFine(S())
    {
      hide Ring;
      if writable {
        writeopen := false;
        WakeReaders();
      } else {
        readopen := false;
        WakeWriters();
      }
      freed := !readopen && !writeopen;
    }

    /** kill() marks a process and wakes it. */
    method Kill(t: nat)
      requires Valid() && t < |task|
      modifies this`task, this`killed
      ensures Valid() && S() == Killed(old(S()), t)
      ensures old(ReadersFine(S())) ==> ReadersFine(S())
    {
      hide Ring;
      killed := killed[t := true];
      task := task[t := WokenReader(WokenWriter(task[t]))];
    }
  }

  /** The stranding step happens: a killed writer fills the ring beside a sleeping reader. */
  method StrandedReader() returns (p: Pipe)
    ensures fresh(p) && p.Valid() && |p.task| == 2 && p.killed == [false, true]
    ensures p.task[0].RSleep? && |p.written| - |p.read| == PIPESIZE && p.writeopen && !ReadersFine(p.S())
  {
    hide Inv;
    p := new Pipe(2);
    p.StartRead(0, 1);
    var r, dst := p.RunRead(0);
    assert p.task == [RSleep(1), Idle] && p.read == p.written == [];
    p.StartWrite(1, seq(PIPESIZE + 1, _ => 0));
    p.Kill(1);
    r := p.RunWrite(1);
    assert p.task[0].RSleep?;
  }
}
