/** Group commit as a state machine: any number of operations run between
    begin_op and end_op, the last one out commits, readers fill and empty the
    cache at any time, and the machine can crash between any two steps. One step
    is one region under log.lock or one block write. */
module GroupCommit {
  import opened Blocks
  import opened Wal
  import Log

  datatype Entry = Entry(data: Block, dirty: bool)

  datatype Event =
    | Began(op: nat)
    | Wrote(op: nat, b: nat, data: Block)
    | Ended(op: nat)

  datatype Op = Op(id: nat, blocks: set<nat>)

  /** Where the committing or recovering process is. */
  datatype Phase =
    | Run              // nobody is committing
    | Logging(i: nat)  // write_log has written i blocks
    | Install(i: nat, booting: bool)  // install_trans has written i blocks
    | Boot             // initlog, before read_head

  /** asleep are the operations that wait in begin_op. events and cut are history:
      what operations have done, and how much of it the last header write made durable. */
  datatype State = State(
    disk: Disk, cache: map<nat, Entry>, lh: seq<nat>, open: seq<Op>, phase: Phase, asleep: set<nat>,
    events: seq<Event>, cut: nat)

  /** What bread returns for block b. */
  function Read(disk: Disk, cache: map<nat, Entry>, b: nat): Block
    requires b < |disk|
  {
    if b in cache then cache[b].data else disk[b]
  }

  datatype Step =
    | Begin(id: nat)
    | Sleep(id: nat)
    | Rouse(id: nat)  // kill()
    | LogWrite(k: nat, b: nat, data: Block)
    | End(k: nat)
    | Load(b: nat)
    | Evict(b: nat)
    | LogBlock
    | WriteHead
    | InstallBlock
    | EraseHead
    | Crash
    | ReadHead

  /** begin_op would let an operation in. */
  ghost predicate Admits(s: State) {
    s.phase.Run? && Log.Room(|s.lh|, |s.open|)
  }

  /** initlog runs before any operation. */
  ghost predicate Booting(s: State) {
    s.phase.Boot? || (s.phase.Install? && s.phase.booting)
  }

  /** Step t can happen in s. */
  ghost predicate Can(r: Region, s: State, t: Step) {
    match t
    case Begin(id) => Admits(s) && Unused(s.events, id) && id !in s.asleep
    case Sleep(id) => !Admits(s) && !Booting(s) && Unused(s.events, id) && id !in s.asleep
    case Rouse(id) => id in s.asleep
    case LogWrite(k, b, data) =>
      && k < |s.open| && s.phase.Run? && !Log.TooBig(|s.lh|, r.size)
      && b < |s.disk| && b < 0x1_0000_0000 && !r.Contains(b)
    case End(k) => k < |s.open| && s.phase.Run?
    case Load(b) => b < |s.disk| && b !in s.cache
    case Evict(b) => b in s.cache && !s.cache[b].dirty
    case LogBlock => s.phase.Logging? && s.phase.i < |s.lh|
    case WriteHead => s.phase.Logging? && s.phase.i == |s.lh|
    case InstallBlock => s.phase.Install? && s.phase.i < |s.lh|
    case EraseHead => s.phase.Install? && s.phase.i == |s.lh|
    case Crash => true
    case ReadHead => s.phase.Boot?
  }

  /** The headers in memory and on disk are in range, so no step leaves an array. */
  ghost predicate Shape(r: Region, s: State) {
    WellFormed(r, s.disk) && Loggable(r, |s.disk|, s.lh) && s.cut <= |s.events|
  }

  /** bwrite(b): the disk and the cached copy. */
  function Bwrite(s: State, b: nat, v: Block): State {
    s.(disk := Apply1(s.disk, Write(b, v)), cache := s.cache[b := Entry(v, false)])
  }

  ghost function Do(r: Region, s: State, t: Step): State
    requires Shape(r, s) && Can(r, s, t)
  {
    match t
    case Begin(id) => s.(open := s.open + [Op(id, {})], events := s.events + [Began(id)])
    case Sleep(id) => s.(asleep := s.asleep + {id})
    case Rouse(id) => s.(asleep := s.asleep - {id})
    case LogWrite(k, b, data) =>
      s.(cache := s.cache[b := Entry(data, true)],
         lh := Log.Absorb(s.lh, b),
         open := s.open[k := Op(s.open[k].id, s.open[k].blocks + {b})],
         events := s.events + [Wrote(s.open[k].id, b, data)])
    case End(k) =>
      var s1 := s.(open := s.open[..k] + s.open[k + 1..], events := s.events + [Ended(s.open[k].id)]);
      if s1.open != [] then s1.(asleep := {})
      else if s1.lh != [] then s1.(phase := Logging(0))
      else s1.(cut := |s1.events|, asleep := {})
    case Load(b) => s.(cache := s.cache[b := Entry(s.disk[b], false)])
    case Evict(b) => s.(cache := s.cache - {b})
    case LogBlock =>
      Bwrite(s, r.start + 1 + s.phase.i, Read(s.disk, s.cache, s.lh[s.phase.i])).(phase := Logging(s.phase.i + 1))
    case WriteHead =>
      Bwrite(s, r.start, PutHead(Read(s.disk, s.cache, r.start), s.lh)).(phase := Install(0, false), cut := |s.events|)
    case InstallBlock =>
      Bwrite(s, s.lh[s.phase.i], Read(s.disk, s.cache, r.start + 1 + s.phase.i)).
      (phase := Install(s.phase.i + 1, s.phase.booting))
    case EraseHead =>
      Bwrite(s, r.start, PutHead(Read(s.disk, s.cache, r.start), [])).
      (lh := [], phase := Run, asleep := if s.phase.booting then s.asleep else {})
    case Crash => s.(cache := map[], lh := [], open := [], phase := Boot, asleep := {}, events := s.events[..s.cut])
    case ReadHead => s.(lh := Head(s.disk[r.start]), phase := Install(0, true))
  }

  // ----- histories of operations

  ghost predicate Unused(es: seq<Event>, id: nat) {
    forall i :: 0 <= i < |es| ==> es[i].op != id
  }

  /** The operations that have begun and not ended. */
  ghost function Opened(es: seq<Event>): set<nat> {
    if es == [] then {}
    else
      var before, e := Opened(es[..|es| - 1]), es[|es| - 1];
      if e.Began? then before + {e.op} else if e.Ended? then before - {e.op} else before
  }

  /** Each operation begins once, and writes and ends only while it is open. */
  ghost predicate Bracketed(es: seq<Event>) {
    es == [] ||
    var before, e := es[..|es| - 1], es[|es| - 1];
    && Bracketed(before)
    && if e.Began? then Unused(before, e.op) else e.op in Opened(before)
  }

  /** The home blocks after the writes of a history. */
  ghost function Effects(m: map<nat, Block>, es: seq<Event>): map<nat, Block> {
    if es == [] then m
    else
      var before, e := Effects(m, es[..|es| - 1]), es[|es| - 1];
      if e.Wrote? then before[e.b := e.data] else before
  }

  lemma {:induction false} BracketedPrefix(es: seq<Event>, k: nat)
    requires Bracketed(es) && k <= |es|
    ensures Bracketed(es[..k])
    decreases |es|
  {
    if k < |es| {
      BracketedPrefix(es[..|es| - 1], k);
      assert es[..|es| - 1][..k] == es[..k];
    } else {
      assert es[..k] == es;
    }
  }

  /** The event at j, in a history that is in order. */
  lemma BracketedAt(es: seq<Event>, j: nat)
    requires Bracketed(es) && j < |es|
    ensures if es[j].Began? then Unused(es[..j], es[j].op) else es[j].op in Opened(es[..j])
  {
    BracketedPrefix(es, j + 1);
    hide Unused, Opened;
    assert es[..j + 1][..j] == es[..j];
  }

  /** An operation that has been seen and is closed at cut is never seen again. */
  lemma {:induction false} ClosedStaysClosed(es: seq<Event>, cut: nat, i: nat, j: nat)
    requires Bracketed(es) && i < cut <= j <= |es|
    requires es[i].op !in Opened(es[..cut])
    ensures es[i].op !in Opened(es[..j])
    ensures j < |es| ==> es[j].op != es[i].op
    decreases j
  {
    hide Bracketed;
    if j > cut {
      ClosedStaysClosed(es, cut, i, j - 1);
      assert es[..j][..j - 1] == es[..j - 1];
    }
    if j < |es| {
      BracketedAt(es, j);
      assert es[..j][i] == es[i];
    }
  }

  /** When no operation is open at cut, every operation is entirely before it or
      entirely after it. */
  lemma AllOrNothing(es: seq<Event>, cut: nat)
    requires Bracketed(es) && cut <= |es| && Opened(es[..cut]) == {}
    ensures forall i, j :: 0 <= i < cut <= j < |es| ==> es[i].op != es[j].op
  {
    forall i, j | 0 <= i < cut <= j < |es| ensures es[i].op != es[j].op {
      ClosedStaysClosed(es, cut, i, j);
    }
  }

  // ----- the invariant

  /** What every home block reads as. */
  ghost function Cur(r: Region, disk: Disk, cache: map<nat, Entry>): map<nat, Block> {
    map b: nat | b < |disk| && !r.Contains(b) :: Read(disk, cache, b)
  }

  ghost predicate CleanCopies(disk: Disk, cache: map<nat, Entry>) {
    forall b :: b in cache ==> b < |disk| && (cache[b].dirty || cache[b].data == disk[b])
  }

  /** Only the blocks of the transaction are dirty. */
  ghost predicate DirtyOnly(cache: map<nat, Entry>, lh: seq<nat>) {
    forall b :: b in cache && cache[b].dirty ==> b in lh
  }

  ghost predicate OpenOk(es: seq<Event>, open: seq<Op>) {
    && Bracketed(es)
    && (forall i, j :: 0 <= i < j < |open| ==> open[i].id != open[j].id)
    && (forall i :: 0 <= i < |open| ==> open[i].id in Opened(es))
    && (forall x :: x in Opened(es) ==> exists i :: 0 <= i < |open| && open[i].id == x)
  }

  ghost predicate PhaseOk(r: Region, m0: map<nat, Block>, s: State)
    requires Shape(r, s)
  {
    match s.phase
    case Run =>
      && HeadIs(s.disk[r.start], []) && DirtyOnly(s.cache, s.lh) && Cur(r, s.disk, s.cache) == Effects(m0, s.events)
      && (s.open == [] ==> s.lh == [] && s.cut == |s.events|)
    case Logging(i) =>
      && HeadIs(s.disk[r.start], []) && DirtyOnly(s.cache, s.lh) && Cur(r, s.disk, s.cache) == Effects(m0, s.events)
      && s.open == [] && i <= |s.lh|
      && (forall j :: 0 <= j < i ==> s.disk[r.start + 1 + j] == Read(s.disk, s.cache, s.lh[j]))
    case Install(i, _) =>
      && HeadIs(s.disk[r.start], s.lh) && i <= |s.lh| && DirtyOnly(s.cache, s.lh[i..])
      && s.open == [] && s.cut == |s.events|
      && (forall j :: 0 <= j < i ==> s.disk[s.lh[j]] == s.disk[r.start + 1 + j])
    case Boot =>
      && s.lh == [] && DirtyOnly(s.cache, s.lh) && s.open == [] && s.cut == |s.events|
      && Distinct(Head(s.disk[r.start]))
  }

  ghost predicate Inv(r: Region, m0: map<nat, Block>, s: State) {
    && Shape(r, s) && Distinct(s.lh) && CleanCopies(s.disk, s.cache)
    && OpenOk(s.events, s.open) && Opened(s.events[..s.cut]) == {}
    && View(r, s.disk) == Effects(m0, s.events[..s.cut])
    && PhaseOk(r, m0, s)
  }

  // ----- each step keeps it

  lemma {:induction false} UnusedNotOpen(es: seq<Event>, id: nat)
    requires Unused(es, id)
    ensures id !in Opened(es)
  {
    if es != [] { UnusedNotOpen(es[..|es| - 1], id); }
  }

  lemma OpenBegin(es: seq<Event>, open: seq<Op>, id: nat)
    requires OpenOk(es, open) && Unused(es, id)
    ensures OpenOk(es + [Began(id)], open + [Op(id, {})])
  {
    UnusedNotOpen(es, id);
    assert (es + [Began(id)])[..|es|] == es;
    var open' := open + [Op(id, {})];
    assert open'[|open|].id == id;
    forall x | x in Opened(es) ensures exists i :: 0 <= i < |open'| && open'[i].id == x {
      var i :| 0 <= i < |open| && open[i].id == x;
      assert open'[i].id == x;
    }
  }

  lemma OpenWrote(es: seq<Event>, open: seq<Op>, k: nat, b: nat, data: Block, bs: set<nat>)
    requires OpenOk(es, open) && k < |open|
    ensures OpenOk(es + [Wrote(open[k].id, b, data)], open[k := Op(open[k].id, bs)])
  {
    var es', open' := es + [Wrote(open[k].id, b, data)], open[k := Op(open[k].id, bs)];
    assert es'[..|es|] == es;
    assert forall i :: 0 <= i < |open| ==> open'[i].id == open[i].id;
    forall x | x in Opened(es) ensures exists i :: 0 <= i < |open'| && open'[i].id == x {
      var i :| 0 <= i < |open| && open[i].id == x;
      assert open'[i].id == x;
    }
  }

  lemma OpenEnd(es: seq<Event>, open: seq<Op>, k: nat)
    requires OpenOk(es, open) && k < |open|
    ensures OpenOk(es + [Ended(open[k].id)], open[..k] + open[k + 1..])
  {
    var es', open' := es + [Ended(open[k].id)], open[..k] + open[k + 1..];
    assert es'[..|es|] == es;
    forall i | 0 <= i < |open'| ensures open'[i] == open[if i < k then i else i + 1] {
    }
    forall x | x in Opened(es') ensures exists i :: 0 <= i < |open'| && open'[i].id == x {
      var i :| 0 <= i < |open| && open[i].id == x;
      assert open'[if i < k then i else i - 1].id == x;
    }
  }

  lemma NoneOpen(es: seq<Event>)
    requires OpenOk(es, [])
    ensures Opened(es) == {}
  {
  }

  lemma BeginKeeps(r: Region, m0: map<nat, Block>, s: State, id: nat)
    requires Inv(r, m0, s) && Can(r, s, Begin(id))
    ensures Inv(r, m0, Do(r, s, Begin(id)))
  {
    hide View, WellFormed, Loggable, Distinct, CleanCopies, DirtyOnly, Cur, HeadIs, OpenOk, Opened;
    var s' := Do(r, s, Begin(id));
    assert s'.events[..s.cut] == s.events[..s.cut];
    assert s'.events[..|s.events|] == s.events;
    OpenBegin(s.events, s.open, id);
  }

  /** The history and the open operations after end_op. */
  lemma EndHistory(r: Region, m0: map<nat, Block>, s: State, k: nat)
    requires Inv(r, m0, s) && k < |s.open| && s.phase.Run?
    ensures
      var es, open := s.events + [Ended(s.open[k].id)], s.open[..k] + s.open[k + 1..];
      && OpenOk(es, open) && Effects(m0, es) == Effects(m0, s.events)
      && es[..s.cut] == s.events[..s.cut] && es[..|es|] == es
      && (open == [] ==> Opened(es) == {})
  {
    hide View, WellFormed, Loggable, Distinct, CleanCopies, DirtyOnly, Cur, HeadIs, OpenOk, Opened;
    var es := s.events + [Ended(s.open[k].id)];
    assert es[..|s.events|] == s.events;
    OpenEnd(s.events, s.open, k);
    if s.open[..k] + s.open[k + 1..] == [] {
      NoneOpen(es);
    }
  }

  /** end_op with operations remaining. */
  lemma EndOpen(r: Region, m0: map<nat, Block>, s: State, k: nat)
    requires Inv(r, m0, s) && Can(r, s, End(k)) && |s.open| > 1
    ensures Inv(r, m0, Do(r, s, End(k)))
  {
    EndHistory(r, m0, s, k);
    hide View, WellFormed, Loggable, Distinct, CleanCopies, DirtyOnly, Cur, HeadIs, OpenOk, Opened, Effects;
  }

  /** The last end_op, with blocks to commit. */
  lemma EndCommits(r: Region, m0: map<nat, Block>, s: State, k: nat)
    requires Inv(r, m0, s) && Can(r, s, End(k)) && |s.open| == 1 && s.lh != []
    ensures Inv(r, m0, Do(r, s, End(k)))
  {
    EndHistory(r, m0, s, k);
    hide View, WellFormed, Loggable, Distinct, CleanCopies, DirtyOnly, Cur, HeadIs, OpenOk, Opened, Effects;
  }

  /** The last end_op, with nothing logged. */
  lemma EndEmpty(r: Region, m0: map<nat, Block>, s: State, k: nat)
    requires Inv(r, m0, s) && Can(r, s, End(k)) && |s.open| == 1 && s.lh == []
    ensures Inv(r, m0, Do(r, s, End(k)))
  {
    EndHistory(r, m0, s, k);
    hide View, WellFormed, Loggable, Distinct, CleanCopies, DirtyOnly, Cur, HeadIs, OpenOk, Opened, Effects;
    NothingPending(r, s.disk, s.cache);
  }

  lemma EndKeeps(r: Region, m0: map<nat, Block>, s: State, k: nat)
    requires Inv(r, m0, s) && Can(r, s, End(k))
    ensures Inv(r, m0, Do(r, s, End(k)))
  {
    hide Inv, Do;
    if |s.open| > 1 {
      EndOpen(r, m0, s, k);
    } else if s.lh != [] {
      EndCommits(r, m0, s, k);
    } else {
      EndEmpty(r, m0, s, k);
    }
  }

  /** With an empty log and nothing dirty, blocks read as the disk means. */
  lemma NothingPending(r: Region, disk: Disk, cache: map<nat, Entry>)
    requires WellFormed(r, disk) && HeadIs(disk[r.start], [])
    requires CleanCopies(disk, cache) && DirtyOnly(cache, [])
    ensures View(r, disk) == Cur(r, disk, cache)
  {
  }

  lemma AbsorbOk(r: Region, n: nat, lh: seq<nat>, b: nat)
    requires Loggable(r, n, lh) && !Log.TooBig(|lh|, r.size) && b < n && b < 0x1_0000_0000 && !r.Contains(b)
    ensures Loggable(r, n, Log.Absorb(lh, b))
  {
  }

  /** Storing new contents in a cached home block and marking it dirty. */
  lemma CacheStore(r: Region, disk: Disk, cache: map<nat, Entry>, lh: seq<nat>, b: nat, data: Block)
    requires CleanCopies(disk, cache) && DirtyOnly(cache, lh) && b < |disk| && !r.Contains(b)
    ensures
      var cache' := cache[b := Entry(data, true)];
      && CleanCopies(disk, cache') && DirtyOnly(cache', Log.Absorb(lh, b))
      && Cur(r, disk, cache') == Cur(r, disk, cache)[b := data]
  {
  }

  lemma LogWriteKeeps(r: Region, m0: map<nat, Block>, s: State, k: nat, b: nat, data: Block)
    requires Inv(r, m0, s) && Can(r, s, LogWrite(k, b, data))
    ensures Inv(r, m0, Do(r, s, LogWrite(k, b, data)))
  {
    hide View, WellFormed, Loggable, Distinct, CleanCopies, DirtyOnly, Cur, HeadIs, OpenOk, Opened;
    var s' := Do(r, s, LogWrite(k, b, data));
    assert s'.events[..s.cut] == s.events[..s.cut];
    assert s'.events[..|s.events|] == s.events;
    OpenWrote(s.events, s.open, k, b, data, s.open[k].blocks + {b});
    AbsorbOk(r, |s.disk|, s.lh, b);
    CacheStore(r, s.disk, s.cache, s.lh, b, data);
  }

  /** Reading a block into the cache, or dropping a clean one, changes no reading. */
  lemma CacheMoves(r: Region, disk: Disk, cache: map<nat, Entry>, lh: seq<nat>, b: nat, cache': map<nat, Entry>)
    requires CleanCopies(disk, cache) && DirtyOnly(cache, lh) && b < |disk|
    requires (b !in cache && cache' == cache[b := Entry(disk[b], false)])
          || (b in cache && !cache[b].dirty && cache' == cache - {b})
    ensures CleanCopies(disk, cache') && DirtyOnly(cache', lh)
    ensures Cur(r, disk, cache') == Cur(r, disk, cache)
    ensures forall x :: 0 <= x < |disk| ==> Read(disk, cache', x) == Read(disk, cache, x)
  {
  }

  lemma CacheMoveKeeps(r: Region, m0: map<nat, Block>, s: State, t: Step)
    requires Inv(r, m0, s) && Can(r, s, t) && (t.Load? || t.Evict?)
    ensures Inv(r, m0, Do(r, s, t))
  {
    var s' := Do(r, s, t);
    assert t.Evict? ==> t.b < |s.disk|;
    CacheMoveKeeps2(r, m0, s, t.b, s'.cache);
  }

  lemma CacheMoveKeeps2(r: Region, m0: map<nat, Block>, s: State, b: nat, cache': map<nat, Entry>)
    requires Inv(r, m0, s) && b < |s.disk|
    requires (b !in s.cache && cache' == s.cache[b := Entry(s.disk[b], false)])
          || (b in s.cache && !s.cache[b].dirty && cache' == s.cache - {b})
    ensures Inv(r, m0, s.(cache := cache'))
  {
    hide View, WellFormed, Loggable, Distinct, CleanCopies, DirtyOnly, Cur, HeadIs, OpenOk, Opened, Effects;
    var dirty := if s.phase.Install? then s.lh[s.phase.i..] else s.lh;
    CacheMoves(r, s.disk, s.cache, dirty, b, cache');
  }

  /** bwrite of a block of the log area. */
  lemma BwriteLogArea(r: Region, disk: Disk, cache: map<nat, Entry>, lh: seq<nat>, b: nat, v: Block)
    requires CleanCopies(disk, cache) && DirtyOnly(cache, lh) && b < |disk| && r.Contains(b)
    ensures
      var disk', cache' := disk[b := v], cache[b := Entry(v, false)];
      && CleanCopies(disk', cache') && DirtyOnly(cache', lh)
      && Cur(r, disk', cache') == Cur(r, disk, cache)
      && forall x :: 0 <= x < |disk| && x != b ==> Read(disk', cache', x) == Read(disk, cache, x)
  {
  }

  lemma LogBlockView(r: Region, disk: Disk, b: nat, v: Block)
    requires WellFormed(r, disk) && HeadIs(disk[r.start], []) && r.Contains(b) && b != r.start && b < |disk|
    ensures WellFormed(r, disk[b := v]) && View(r, disk[b := v]) == View(r, disk)
  {
  }

  lemma LogBlockKeeps(r: Region, m0: map<nat, Block>, s: State)
    requires Inv(r, m0, s) && Can(r, s, LogBlock)
    ensures Inv(r, m0, Do(r, s, LogBlock))
  {
    hide View, WellFormed, Distinct, CleanCopies, DirtyOnly, Cur, HeadIs, OpenOk, Opened, Effects, FitsHead;
    var i := s.phase.i;
    var b, v := r.start + 1 + i, Read(s.disk, s.cache, s.lh[i]);
    BwriteLogArea(r, s.disk, s.cache, s.lh, b, v);
    LogBlockView(r, s.disk, b, v);
    var s' := Do(r, s, LogBlock);
    assert s'.disk == s.disk[b := v] && s'.cache == s.cache[b := Entry(v, false)];
    forall j | 0 <= j < i + 1 ensures s'.disk[r.start + 1 + j] == Read(s'.disk, s'.cache, s'.lh[j]) {
      assert !r.Contains(s.lh[j]);
    }
  }

  /** The transaction on top of the disk is what blocks read as. */
  lemma TransactionIsCur(r: Region, disk: Disk, cache: map<nat, Entry>, lh: seq<nat>, vs: seq<Block>)
    requires Loggable(r, |disk|, lh) && Distinct(lh) && CleanCopies(disk, cache) && DirtyOnly(cache, lh)
    requires |vs| == |lh| && forall j :: 0 <= j < |lh| ==> vs[j] == Read(disk, cache, lh[j])
    ensures Overlay(Homes(r, disk), lh, vs) == Cur(r, disk, cache)
  {
    var o, c := Overlay(Homes(r, disk), lh, vs), Cur(r, disk, cache);
    OverlayFirstAt(Homes(r, disk), lh, vs, |lh|);
    OverlayKeys(Homes(r, disk), lh, vs, |lh|);
    forall b | b in c ensures b in o && o[b] == c[b] {
      if b in lh {
        var j :| 0 <= j < |lh| && lh[j] == b;
      }
    }
    assert o.Keys == c.Keys;
  }

  lemma {:induction false} OverlayKeys(m: map<nat, Block>, bs: seq<nat>, vs: seq<Block>, k: nat)
    requires |bs| == |vs| && k <= |bs| && forall i :: 0 <= i < |bs| ==> bs[i] in m
    ensures OverlayFirst(m, bs, vs, k).Keys == m.Keys
  {
    if k > 0 { OverlayKeys(m, bs, vs, k - 1); }
  }

  lemma HeadView(r: Region, disk: Disk, cache: map<nat, Entry>, lh: seq<nat>, h: Block)
    requires WellFormed(r, disk) && Loggable(r, |disk|, lh) && Distinct(lh) && HeadIs(h, lh)
    requires CleanCopies(disk, cache) && DirtyOnly(cache, lh)
    requires forall j :: 0 <= j < |lh| ==> disk[r.start + 1 + j] == Read(disk, cache, lh[j])
    ensures WellFormed(r, disk[r.start := h]) && View(r, disk[r.start := h]) == Cur(r, disk, cache)
  {
    HomesUpdate(r, disk, r.start, h);
    assert LogData(r, disk[r.start := h], |lh|) == LogData(r, disk, |lh|);
    TransactionIsCur(r, disk, cache, lh, LogData(r, disk, |lh|));
  }

  lemma WriteHeadKeeps(r: Region, m0: map<nat, Block>, s: State)
    requires Inv(r, m0, s) && Can(r, s, WriteHead)
    ensures Inv(r, m0, Do(r, s, WriteHead))
  {
    hide View, Distinct, CleanCopies, DirtyOnly, Cur, HeadIs, OpenOk, Opened, Effects, FitsHead, PutHead;
    var h := PutHead(Read(s.disk, s.cache, r.start), s.lh);
    HeadRoundTrip(Read(s.disk, s.cache, r.start), s.lh);
    HeadView(r, s.disk, s.cache, s.lh, h);
    BwriteLogArea(r, s.disk, s.cache, s.lh, r.start, h);
    NoneOpen(s.events);
    assert s.events[..|s.events|] == s.events && s.lh[0..] == s.lh;
  }

  lemma InstallView(r: Region, disk: Disk, lh: seq<nat>, i: nat)
    requires WellFormed(r, disk) && HeadIs(disk[r.start], lh) && i < |lh|
    ensures lh[i] < |disk| && !r.Contains(lh[i]) && r.start + 1 + i < |disk|
    ensures
      var disk' := disk[lh[i] := disk[r.start + 1 + i]];
      WellFormed(r, disk') && View(r, disk') == View(r, disk)
  {
    var v := disk[r.start + 1 + i];
    assert !r.Contains(lh[i]);
    HomesUpdate(r, disk, lh[i], v);
    assert LogData(r, disk[lh[i] := v], |lh|) == LogData(r, disk, |lh|);
    assert lh[i] in lh && lh[..|lh|] == lh;
    OverlayUpdate(Homes(r, disk), lh[i], v, lh, LogData(r, disk, |lh|), |lh|);
  }

  lemma BwriteHome(disk: Disk, cache: map<nat, Entry>, lh: seq<nat>, i: nat, v: Block)
    requires i < |lh| && lh[i] < |disk|
    requires CleanCopies(disk, cache) && DirtyOnly(cache, lh[i..])
    ensures CleanCopies(disk[lh[i] := v], cache[lh[i] := Entry(v, false)])
    ensures DirtyOnly(cache[lh[i] := Entry(v, false)], lh[i + 1..])
  {
  }

  lemma LogBlockClean(r: Region, disk: Disk, cache: map<nat, Entry>, lh: seq<nat>, i: nat, b: nat)
    requires Loggable(r, |disk|, lh) && CleanCopies(disk, cache) && i <= |lh| && DirtyOnly(cache, lh[i..])
    requires r.Contains(b)
    ensures Read(disk, cache, b) == disk[b]
  {
  }

  lemma InstallBlockKeeps(r: Region, m0: map<nat, Block>, s: State)
    requires Inv(r, m0, s) && Can(r, s, InstallBlock)
    ensures Inv(r, m0, Do(r, s, InstallBlock))
  {
    hide View, WellFormed, CleanCopies, DirtyOnly, Cur, HeadIs, OpenOk, Opened, Effects, FitsHead;
    var i := s.phase.i;
    InstallView(r, s.disk, s.lh, i);
    LogBlockClean(r, s.disk, s.cache, s.lh, i, r.start + 1 + i);
    BwriteHome(s.disk, s.cache, s.lh, i, s.disk[r.start + 1 + i]);
    var s' := Do(r, s, InstallBlock);
    assert s'.disk == s.disk[s.lh[i] := s.disk[r.start + 1 + i]];
    forall j | 0 <= j < i + 1 ensures s'.disk[s.lh[j]] == s'.disk[r.start + 1 + j] {
      assert !r.Contains(s.lh[i]);
    }
  }

  lemma EraseView(r: Region, disk: Disk, lh: seq<nat>, h: Block)
    requires WellFormed(r, disk) && HeadIs(disk[r.start], lh) && HeadIs(h, [])
    requires forall j :: 0 <= j < |lh| ==> disk[lh[j]] == disk[r.start + 1 + j]
    ensures WellFormed(r, disk[r.start := h]) && View(r, disk[r.start := h]) == View(r, disk)
  {
    HomesUpdate(r, disk, r.start, h);
    Log.OverlaySelf(r, disk, lh, LogData(r, disk, |lh|), |lh|);
  }

  lemma EraseHeadKeeps(r: Region, m0: map<nat, Block>, s: State)
    requires Inv(r, m0, s) && Can(r, s, EraseHead)
    ensures Inv(r, m0, Do(r, s, EraseHead))
  {
    hide View, CleanCopies, DirtyOnly, Cur, HeadIs, OpenOk, Opened, Effects, PutHead;
    var h := PutHead(Read(s.disk, s.cache, r.start), []);
    HeadRoundTrip(Read(s.disk, s.cache, r.start), []);
    EraseView(r, s.disk, s.lh, h);
    assert s.lh[|s.lh|..] == [] && s.events[..|s.events|] == s.events;
    BwriteLogArea(r, s.disk, s.cache, [], r.start, h);
    NothingPending(r, s.disk[r.start := h], s.cache[r.start := Entry(h, false)]);
  }

  lemma CrashKeeps(r: Region, m0: map<nat, Block>, s: State)
    requires Inv(r, m0, s)
    ensures Inv(r, m0, Do(r, s, Crash))
  {
    hide View, Cur, Effects;
    var s' := Do(r, s, Crash);
    assert s'.events[..s'.cut] == s'.events == s.events[..s.cut];
    BracketedPrefix(s.events, s.cut);
  }

  lemma ReadHeadKeeps(r: Region, m0: map<nat, Block>, s: State)
    requires Inv(r, m0, s) && Can(r, s, ReadHead)
    ensures Inv(r, m0, Do(r, s, ReadHead))
  {
  }

  lemma SleepKeeps(r: Region, m0: map<nat, Block>, s: State, asleep: set<nat>)
    requires Inv(r, m0, s)
    ensures Inv(r, m0, s.(asleep := asleep))
  {
    hide View, WellFormed, Loggable, Distinct, CleanCopies, DirtyOnly, Cur, HeadIs, OpenOk, Opened, Effects;
  }

  lemma StepKeeps(r: Region, m0: map<nat, Block>, s: State, t: Step)
    requires Inv(r, m0, s) && Can(r, s, t)
    ensures Inv(r, m0, Do(r, s, t))
  {
    hide Inv, Can;
    match t
    case Begin(id) => BeginKeeps(r, m0, s, id);
    case Sleep(id) => SleepKeeps(r, m0, s, s.asleep + {id});
    case Rouse(id) => SleepKeeps(r, m0, s, s.asleep - {id});
    case LogWrite(k, b, data) => LogWriteKeeps(r, m0, s, k, b, data);
    case End(k) => EndKeeps(r, m0, s, k);
    case Load(b) => CacheMoveKeeps(r, m0, s, t);
    case Evict(b) => CacheMoveKeeps(r, m0, s, t);
    case LogBlock => LogBlockKeeps(r, m0, s);
    case WriteHead => WriteHeadKeeps(r, m0, s);
    case InstallBlock => InstallBlockKeeps(r, m0, s);
    case EraseHead => EraseHeadKeeps(r, m0, s);
    case Crash => CrashKeeps(r, m0, s);
    case ReadHead => ReadHeadKeeps(r, m0, s);
  }

  // ----- whole runs

  /** Boot of a disk whose log is empty or holds one committed transaction. */
  ghost predicate Init(r: Region, s: State) {
    && WellFormed(r, s.disk) && Distinct(Head(s.disk[r.start]))
    && s == State(s.disk, map[], [], [], Boot, {}, [], 0)
  }

  /** ss[0], ts[0], ss[1], ts[1], ... is a run. */
  ghost predicate IsRun(r: Region, ss: seq<State>, ts: seq<Step>) {
    && |ss| == |ts| + 1 && Init(r, ss[0])
    && forall i :: 0 <= i < |ts| ==> Shape(r, ss[i]) && Can(r, ss[i], ts[i]) && ss[i + 1] == Do(r, ss[i], ts[i])
  }

  lemma {:induction false} RunKeeps(r: Region, ss: seq<State>, ts: seq<Step>, n: nat)
    requires IsRun(r, ss, ts) && n <= |ts|
    ensures Inv(r, View(r, ss[0].disk), ss[n])
    decreases n
  {
    if n == 0 {
      assert ss[0].events[..0] == [];
    } else {
      RunKeeps(r, ss, ts, n - 1);
      StepKeeps(r, View(r, ss[0].disk), ss[n - 1], ts[n - 1]);
    }
  }

  // ----- the history, from the steps alone

  /** What the steps so far say: the events that a crash has not undone, the operations
      that are open, how many events the last header write made durable, and whether
      anything was logged since. */
  datatype Journal = Journal(events: seq<Event>, open: seq<nat>, cut: nat, logged: bool)

  ghost function Note(j: Journal, t: Step): Journal {
    match t
    case Begin(id) => j.(events := j.events + [Began(id)], open := j.open + [id])
    case LogWrite(k, b, data) =>
      if k < |j.open| then j.(events := j.events + [Wrote(j.open[k], b, data)], logged := true) else j
    case End(k) =>
      if k < |j.open| then
        var es, open := j.events + [Ended(j.open[k])], j.open[..k] + j.open[k + 1..];
        Journal(es, open, if open == [] && !j.logged then |es| else j.cut, j.logged)
      else j
    case WriteHead => j.(cut := |j.events|)
    case EraseHead => j.(logged := false)
    case Crash => Journal(if j.cut <= |j.events| then j.events[..j.cut] else j.events, [], j.cut, false)
    case _ => j
  }

  /** The journal of the first n steps. */
  ghost function History(ts: seq<Step>, n: nat): Journal
    requires n <= |ts|
  {
    if n == 0 then Journal([], [], 0, false) else Note(History(ts, n - 1), ts[n - 1])
  }

  ghost predicate Matches(s: State, j: Journal) {
    && s.events == j.events && s.cut == j.cut && |s.open| == |j.open|
    && (forall i :: 0 <= i < |s.open| ==> s.open[i].id == j.open[i])
    && (s.phase.Run? ==> (s.lh != [] <==> j.logged))
  }

  lemma MatchesEnd(r: Region, s: State, k: nat, j: Journal)
    requires Shape(r, s) && Can(r, s, End(k)) && Matches(s, j)
    ensures Matches(Do(r, s, End(k)), Note(j, End(k)))
  {
    hide WellFormed, Loggable;
    var open, open' := s.open[..k] + s.open[k + 1..], j.open[..k] + j.open[k + 1..];
    forall i | 0 <= i < |open| ensures open[i].id == open'[i] {
      assert open[i] == s.open[if i < k then i else i + 1] && open'[i] == j.open[if i < k then i else i + 1];
    }
  }

  lemma MatchesWrite(r: Region, s: State, k: nat, b: nat, data: Block, j: Journal)
    requires Shape(r, s) && Can(r, s, LogWrite(k, b, data)) && Matches(s, j)
    ensures Matches(Do(r, s, LogWrite(k, b, data)), Note(j, LogWrite(k, b, data)))
  {
    hide WellFormed, Loggable;
  }

  lemma MatchesStep(r: Region, s: State, t: Step, j: Journal)
    requires Shape(r, s) && Can(r, s, t) && Matches(s, j)
    ensures Matches(Do(r, s, t), Note(j, t))
  {
    match t
    case End(k) => MatchesEnd(r, s, k, j);
    case LogWrite(k, b, data) => MatchesWrite(r, s, k, b, data, j);
    case _ => hide WellFormed, Loggable, PutHead, Head, Log.Absorb;
  }

  /** The states' own record of the history is that of the steps. */
  lemma {:induction false} HistoryRun(r: Region, ss: seq<State>, ts: seq<Step>, n: nat)
    requires IsRun(r, ss, ts) && n <= |ts|
    ensures Matches(ss[n], History(ts, n))
    decreases n
  {
    hide Shape, Can, Do, Note;
    if n > 0 {
      HistoryRun(r, ss, ts, n - 1);
      MatchesStep(r, ss[n - 1], ts[n - 1], History(ts, n - 1));
    }
  }

  /** A log_write: the block reads as the new contents, every other block as before. */
  lemma LogWriteReads(r: Region, s: State, k: nat, b: nat, data: Block, x: nat)
    requires Shape(r, s) && Can(r, s, LogWrite(k, b, data)) && x < |s.disk|
    ensures
      var s' := Do(r, s, LogWrite(k, b, data));
      && s'.disk == s.disk && Read(s'.disk, s'.cache, x) == if x == b then data else Read(s.disk, s.cache, x)
  {
    hide WellFormed, Loggable;
  }

  ghost predicate Writes(e: Event, b: nat) {
    e.Wrote? && e.b == b
  }

  /** The last write of block b in a history, -1 if there is none. */
  ghost function LastWrite(es: seq<Event>, b: nat): (i: int)
    ensures -1 <= i < |es| && (i >= 0 ==> Writes(es[i], b)) && forall j :: i < j < |es| ==> !Writes(es[j], b)
  {
    if es == [] then -1 else if Writes(es[|es| - 1], b) then |es| - 1 else LastWrite(es[..|es| - 1], b)
  }

  /** The effect of a history on block b is the last write of it, if there is one. */
  lemma {:induction false} EffectsLast(m: map<nat, Block>, es: seq<Event>, b: nat)
    ensures
      var i := LastWrite(es, b);
      if i < 0 then (b in Effects(m, es) <==> b in m) && (b in m ==> Effects(m, es)[b] == m[b])
      else b in Effects(m, es) && Effects(m, es)[b] == es[i].data
  {
    if es != [] {
      EffectsLast(m, es[..|es| - 1], b);
    }
  }

  /** Group commit refines atomic operations. In every state of every run, and
      whatever crashes interrupt the recoveries that follow: the recovered home
      blocks are those of a prefix of the history; every operation is entirely in
      that prefix or entirely outside it; and when nothing is running the prefix
      is the whole history. */
  lemma GroupCommitRefines(r: Region, ss: seq<State>, ts: seq<Step>, n: nat, crashes: seq<nat>)
    requires IsRun(r, ss, ts) && n <= |ts|
    ensures WellFormed(r, ss[n].disk)
    ensures
      var h := History(ts, n);
      && h.cut <= |h.events| && Bracketed(h.events)
      && Homes(r, Wal.Boot(r, ss[n].disk, crashes)) == Effects(View(r, ss[0].disk), h.events[..h.cut])
      && (forall i, j :: 0 <= i < h.cut <= j < |h.events| ==> h.events[i].op != h.events[j].op)
      && (ss[n].phase.Run? && h.open == [] ==> h.cut == |h.events|)
  {
    RunKeeps(r, ss, ts, n);
    HistoryRun(r, ss, ts, n);
    BootRecovers(r, ss[n].disk, crashes);
    AllOrNothing(ss[n].events, ss[n].cut);
    hide View, Cur, Effects, CleanCopies, DirtyOnly, History, Wal.Boot;
  }

  /** committing implies outstanding == 0, and until a header is written no
      uncommitted block has reached its home. */
  lemma NothingLeaksEarly(r: Region, ss: seq<State>, ts: seq<Step>, n: nat)
    requires IsRun(r, ss, ts) && n <= |ts|
    ensures !ss[n].phase.Run? ==> ss[n].open == [] && History(ts, n).open == []
    ensures WellFormed(r, ss[n].disk) && History(ts, n).cut <= |History(ts, n).events|
    ensures ss[n].phase.Run? || ss[n].phase.Logging? ==>
              Homes(r, ss[n].disk) == Effects(View(r, ss[0].disk), History(ts, n).events[..History(ts, n).cut])
  {
    RunKeeps(r, ss, ts, n);
    HistoryRun(r, ss, ts, n);
    hide Cur, Effects, CleanCopies, DirtyOnly, History;
  }

  /** What a process reads is the last write of the history, committed or not, of an
      operation that a crash has not undone, or what the disk meant at first. */
  lemma ReadsOwnWrites(r: Region, ss: seq<State>, ts: seq<Step>, n: nat, b: nat)
    requires IsRun(r, ss, ts) && n <= |ts| && ss[n].phase.Run? && b < |ss[n].disk| && !r.Contains(b)
    ensures WellFormed(r, ss[0].disk)
    ensures
      var es, v := History(ts, n).events, Read(ss[n].disk, ss[n].cache, b);
      if LastWrite(es, b) >= 0 then v == es[LastWrite(es, b)].data
      else b in View(r, ss[0].disk) && v == View(r, ss[0].disk)[b]
  {
    RunKeeps(r, ss, ts, n);
    HistoryRun(r, ss, ts, n);
    var m := View(r, ss[0].disk);
    assert Read(ss[n].disk, ss[n].cache, b) == Cur(r, ss[n].disk, ss[n].cache)[b];
    assert b in Effects(m, ss[n].events);
    hide View, Cur, Effects, CleanCopies, DirtyOnly, History, OpenOk, Writes;
    EffectsLast(m, ss[n].events, b);
  }

  // ----- sleeping in begin_op

  /** Nobody sleeps in begin_op while it would let an operation in. */
  ghost predicate NoLostWakeup(s: State) {
    (Admits(s) || Booting(s)) ==> s.asleep == {}
  }

  lemma AbsorbGrows(lh: seq<nat>, b: nat)
    ensures |Log.Absorb(lh, b)| >= |lh|
  {
  }

  lemma WakeupStep(r: Region, s: State, t: Step)
    requires Shape(r, s) && Can(r, s, t) && NoLostWakeup(s)
    ensures NoLostWakeup(Do(r, s, t))
  {
    hide Shape, PutHead, Head;
    match t
    case LogWrite(k, b, data) => AbsorbGrows(s.lh, b);
    case _ =>
  }

  /** Somebody is left to wake the sleepers. */
  ghost predicate WakeupToCome(s: State) {
    if s.phase.Run? then s.open != [] && !Log.Room(|s.lh|, |s.open|)
    else s.phase.Logging? || (s.phase.Install? && !s.phase.booting)
  }

  lemma SleepersWait(r: Region, m0: map<nat, Block>, s: State)
    requires Inv(r, m0, s) && NoLostWakeup(s) && s.asleep != {}
    ensures WakeupToCome(s)
  {
    hide View, WellFormed, Loggable, Distinct, CleanCopies, DirtyOnly, Cur, HeadIs, OpenOk, Opened, Effects;
  }

  /** In every state of every run, an operation sleeps in begin_op only while it could
      not be let in, and then a commit is under way or an operation is open: there is
      always a wakeup to come. */
  lemma {:induction false} SleepersRun(r: Region, ss: seq<State>, ts: seq<Step>, n: nat)
    requires IsRun(r, ss, ts) && n <= |ts|
    ensures NoLostWakeup(ss[n])
    ensures ss[n].asleep != {} ==> WakeupToCome(ss[n])
    decreases n
  {
    hide Inv, Do, Can, Shape, WakeupToCome;
    RunKeeps(r, ss, ts, n);
    if n > 0 {
      SleepersRun(r, ss, ts, n - 1);
      WakeupStep(r, ss[n - 1], ts[n - 1]);
    }
    if ss[n].asleep != {} {
      SleepersWait(r, View(r, ss[0].disk), ss[n]);
    }
  }
}
