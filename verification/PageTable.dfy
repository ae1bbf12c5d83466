/** Two-level page tables as values: a directory whose user half points to
    tables of 1024 entries. A table remembers the frame it occupies. */
module PageTable {
  import opened Common
  import opened Cow

  const NPTENTRIES := 1024
  const NUSERTABS := 512                       // KERNBASE / (NPTENTRIES * PGSIZE)
  const NUSERPAGES := NUSERTABS * NPTENTRIES   // KERNBASE / PGSIZE

  datatype Table = Table(frame: nat, ptes: seq<Option<Pte>>)

  /** tabs is the user half of the directory; ktabs are the frames of the tables
      that hold the kernel's mappings. */
  datatype Dir = Dir(tabs: seq<Option<Table>>, ktabs: seq<nat>)

  ghost predicate DirOk(d: Dir) {
    && |d.tabs| == NUSERTABS
    && forall i :: 0 <= i < NUSERTABS && d.tabs[i].Some? ==> |d.tabs[i].value.ptes| == NPTENTRIES
  }

  /** *walkpgdir(d, v, 0): the entry for page v, None if it or its table is absent. */
  function Entry(d: Dir, v: nat): Option<Pte>
    requires DirOk(d) && v < NUSERPAGES
  {
    var t := d.tabs[v / NPTENTRIES];
    if t.None? then None else t.value.ptes[v % NPTENTRIES]
  }

  /** *pte = e, when the table exists. */
  function SetEntry(d: Dir, v: nat, e: Option<Pte>): (d': Dir)
    requires DirOk(d) && v < NUSERPAGES && d.tabs[v / NPTENTRIES].Some?
    ensures DirOk(d')
  {
    var t := d.tabs[v / NPTENTRIES].value;
    Dir(d.tabs[v / NPTENTRIES := Some(Table(t.frame, t.ptes[v % NPTENTRIES := e]))], d.ktabs)
  }

  function EmptyTable(f: nat): (t: Table)
    ensures |t.ptes| == NPTENTRIES
    ensures forall i :: 0 <= i < NPTENTRIES ==> t.ptes[i] == None
  {
    Table(f, seq(NPTENTRIES, _ => None))
  }

  /** The present user entries. */
  ghost function Flat(d: Dir): Space
    requires DirOk(d)
  {
    map v: nat | v < NUSERPAGES && Entry(d, v).Some? :: Entry(d, v).value
  }

  lemma FlatSet(d: Dir, v: nat, e: Option<Pte>)
    requires DirOk(d) && v < NUSERPAGES && d.tabs[v / NPTENTRIES].Some?
    ensures Flat(SetEntry(d, v, e)) == match e case None => Flat(d) - {v} case Some(p) => Flat(d)[v := p]
  {
  }

  lemma FlatNewTable(d: Dir, i: nat, f: nat)
    requires DirOk(d) && i < NUSERTABS && d.tabs[i] == None
    ensures
      var d' := Dir(d.tabs[i := Some(EmptyTable(f))], d.ktabs);
      DirOk(d') && Flat(d') == Flat(d)
  {
  }

  /** Where walkpgdir finds no table, the rest of that table's range is empty. */
  lemma NoTableNoPages(d: Dir, v: nat, x: nat)
    requires DirOk(d) && v < NUSERPAGES && d.tabs[v / NPTENTRIES] == None
    requires v <= x < (v / NPTENTRIES + 1) * NPTENTRIES
    ensures x !in Flat(d)
  {
  }

  /** PGROUNDUP(sz) / PGSIZE: how many pages a process of sz bytes has. */
  function PageCount(sz: nat): nat {
    (sz + PGSIZE - 1) / PGSIZE
  }

  /** A page is among them iff it has a byte below sz. */
  lemma PageCountAt(sz: nat, v: nat)
    ensures v < PageCount(sz) <==> v * PGSIZE < sz
  {
  }

  /** A process of sz bytes has exactly the pages mapped that have a byte below sz. */
  ghost predicate Sized(a: Space, sz: nat) {
    forall v: nat :: v in a <==> v * PGSIZE < sz
  }

  lemma SizedPages(a: Space, sz: nat)
    ensures Sized(a, sz) <==> forall v: nat :: v in a <==> v < PageCount(sz)
  {
    forall v: nat ensures v < PageCount(sz) <==> v * PGSIZE < sz {
      PageCountAt(sz, v);
    }
  }

  /** Every address below sz is on a mapped page. */
  lemma SizedBytes(a: Space, sz: nat, b: nat)
    requires Sized(a, sz) && b < sz
    ensures b / PGSIZE in a
  {
    assert b / PGSIZE * PGSIZE <= b;
  }
}
