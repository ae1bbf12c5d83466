/** kalloc.c and the user half of vm.c. Pages are frame numbers; page
    directories and tables are typed values kept beside the frame they occupy. */
module Vm {
  import opened Common
  import opened Cow
  import opened PageTable

  const NUMPAGES := 0xE000000 / PGSIZE
  const NKERNTABS := 64   // tables for KERNBASE..+PHYSTOP and for DEVSPACE

  function JunkPage(): Page {
    seq(PGSIZE, _ => 1)
  }

  /** What an allocated frame that is not user memory is used for. */
  datatype Owner = OfDir(d: nat) | OfTable(d: nat, i: nat) | OfKernelTable(d: nat, i: nat) | Other

  /** The free list holds each allocatable frame of count 0 once, and nothing else. */
  ghost predicate FreeOk(first: nat, freelist: seq<nat>, refs: seq<nat>) {
    && |refs| == NUMPAGES
    && (forall f :: 0 <= f < NUMPAGES ==> refs[f] < 256 && (f < first ==> refs[f] == 0))
    && forall f :: multiset(freelist)[f] == if first <= f < NUMPAGES && refs[f] == 0 then 1 else 0
  }

  ghost function Spaces(dirs: map<nat, Dir>): map<nat, Space>
    requires DirsOk(dirs)
  {
    map d | d in dirs :: Flat(dirs[d])
  }

  ghost predicate DirsOk(dirs: map<nat, Dir>) {
    forall d :: d in dirs ==> DirOk(dirs[d])
  }

  ghost predicate DirOwned(d: nat, dir: Dir, owner: map<nat, Owner>) {
    && d in owner && owner[d] == OfDir(d)
    && (forall i :: 0 <= i < |dir.tabs| && dir.tabs[i].Some? ==>
          dir.tabs[i].value.frame in owner && owner[dir.tabs[i].value.frame] == OfTable(d, i))
    && (forall i :: 0 <= i < |dir.ktabs| ==>
          dir.ktabs[i] in owner && owner[dir.ktabs[i]] == OfKernelTable(d, i))
  }

  /** Directories and tables occupy allocated frames of count 1, each its own. */
  ghost predicate OwnersOk(first: nat, refs: seq<nat>, dirs: map<nat, Dir>, owner: map<nat, Owner>) {
    && (forall f :: f in owner ==> first <= f < |refs| && refs[f] == 1)
    && (forall d :: d in dirs ==> DirOwned(d, dirs[d], owner))
  }

  /** The count of a page that is user memory is the number of entries mapping it;
      other pages are mapped by none. */
  ghost predicate CountOk(first: nat, refs: seq<nat>, owner: map<nat, Owner>, spaces: map<nat, Space>) {
    && (forall f :: first <= f < |refs| && f !in owner ==> refs[f] == |PtesOf(spaces, f)|)
    && (forall f: nat :: f in owner || !(first <= f < |refs|) ==> PtesOf(spaces, f) == {})
  }

  /** More frames have owners than before, taken from the free ones; other counts
      are as they were. */
  ghost predicate Extended(refs: seq<nat>, owner: map<nat, Owner>, refs': seq<nat>, owner': map<nat, Owner>) {
    && |refs'| == |refs|
    && (forall f :: f in owner ==> f in owner' && owner'[f] == owner[f])
    && (forall f :: f in owner' && f !in owner ==> f < |refs| && refs[f] == 0)
    && (forall f :: 0 <= f < |refs| && (f in owner || f !in owner') ==> refs'[f] == refs[f])
  }

  lemma ExtendedRefl(refs: seq<nat>, owner: map<nat, Owner>)
    ensures Extended(refs, owner, refs, owner)
  {
  }

  lemma ExtendedCount(first: nat, refs: seq<nat>, owner: map<nat, Owner>, refs': seq<nat>, owner': map<nat, Owner>,
                      spaces: map<nat, Space>)
    requires CountOk(first, refs, owner, spaces) && Extended(refs, owner, refs', owner')
    ensures CountOk(first, refs', owner', spaces)
  {
  }

  /** A new table in slot i of directory d, in the free frame f. */
  lemma AddTable(first: nat, refs: seq<nat>, dirs: map<nat, Dir>, owner: map<nat, Owner>, d: nat, i: nat, f: nat)
    requires DirsOk(dirs) && OwnersOk(first, refs, dirs, owner) && d in dirs
    requires i < NUSERTABS && dirs[d].tabs[i] == None && first <= f < |refs| && refs[f] == 0
    ensures
      var dirs' := dirs[d := Dir(dirs[d].tabs[i := Some(EmptyTable(f))], dirs[d].ktabs)];
      && DirsOk(dirs') && Spaces(dirs') == Spaces(dirs)
      && OwnersOk(first, refs[f := 1], dirs', owner[f := OfTable(d, i)])
    ensures Extended(refs, owner, refs[f := 1], owner[f := OfTable(d, i)])
  {
    FlatNewTable(dirs[d], i, f);
    var dir' := Dir(dirs[d].tabs[i := Some(EmptyTable(f))], dirs[d].ktabs);
    AddTableOwned(first, refs, dirs, owner, d, i, f);
  }

  lemma AddTableOwned(first: nat, refs: seq<nat>, dirs: map<nat, Dir>, owner: map<nat, Owner>, d: nat, i: nat, f: nat)
    requires OwnersOk(first, refs, dirs, owner) && d in dirs && i < |dirs[d].tabs|
    requires dirs[d].tabs[i] == None && first <= f < |refs| && refs[f] == 0
    ensures
      var dirs' := dirs[d := Dir(dirs[d].tabs[i := Some(EmptyTable(f))], dirs[d].ktabs)];
      OwnersOk(first, refs[f := 1], dirs', owner[f := OfTable(d, i)])
    ensures Extended(refs, owner, refs[f := 1], owner[f := OfTable(d, i)])
  {
  }

  lemma SetEntryOwned(x: nat, dir: Dir, v: nat, e: Option<Pte>, owner: map<nat, Owner>)
    requires DirOk(dir) && v < NUSERPAGES && dir.tabs[v / NPTENTRIES].Some?
    ensures DirOwned(x, dir, owner) ==> DirOwned(x, SetEntry(dir, v, e), owner)
  {
  }

  lemma SetEntrySpaces(dirs: map<nat, Dir>, d: nat, v: nat, e: Option<Pte>)
    requires DirsOk(dirs) && d in dirs
    requires v < NUSERPAGES && dirs[d].tabs[v / NPTENTRIES].Some?
    ensures DirOk(dirs[d]) && DirsOk(dirs[d := SetEntry(dirs[d], v, e)])
    ensures Spaces(dirs[d := SetEntry(dirs[d], v, e)]) == match e
              case Some(p) => Map(Spaces(dirs), d, v, p)
              case None => Unmap(Spaces(dirs), d, v)
  {
    FlatSet(dirs[d], v, e);
    hide Flat, Entry, DirOk;
  }

  lemma SetEntryOk(first: nat, refs: seq<nat>, dirs: map<nat, Dir>, owner: map<nat, Owner>, d: nat, v: nat,
                   e: Option<Pte>)
    requires DirsOk(dirs) && OwnersOk(first, refs, dirs, owner) && d in dirs
    requires v < NUSERPAGES && dirs[d].tabs[v / NPTENTRIES].Some?
    ensures
      var dirs' := dirs[d := SetEntry(dirs[d], v, e)];
      && DirsOk(dirs') && OwnersOk(first, refs, dirs', owner)
      && Spaces(dirs') == match e
           case Some(p) => Map(Spaces(dirs), d, v, p)
           case None => Unmap(Spaces(dirs), d, v)
  {
    SetEntrySpaces(dirs, d, v, e);
    hide Spaces, DirsOk, DirOwned, SetEntry;
    var dirs' := dirs[d := SetEntry(dirs[d], v, e)];
    forall x | x in dirs' ensures DirOwned(x, dirs'[x], owner) {
      assert DirOwned(x, dirs[x], owner);
      SetEntryOwned(x, dirs[d], v, e, owner);
    }
  }

  lemma UnmapCount(first: nat, refs: seq<nat>, owner: map<nat, Owner>, spaces: map<nat, Space>, p: nat, v: nat)
    requires CountOk(first, refs, owner, spaces) && p in spaces && v in spaces[p]
    ensures
      var f := spaces[p][v].frame;
      && first <= f < |refs| && f !in owner && refs[f] >= 1
      && CountOk(first, refs[f := refs[f] - 1], owner, Unmap(spaces, p, v))
  {
    var f := spaces[p][v].frame;
    assert (p, v) in PtesOf(spaces, f);
    assert |PtesOf(spaces, f)| == |PtesOf(spaces, f) - {(p, v)}| + 1;
    forall g: nat
      ensures PtesOf(Unmap(spaces, p, v), g) == if g == f then PtesOf(spaces, g) - {(p, v)} else PtesOf(spaces, g)
    {
      PtesUnmap(spaces, p, v, g);
    }
  }

  /** Junk in a page that nobody maps harms nobody. */
  lemma JunkKept(spaces: map<nat, Space>, data: seq<Page>, f: nat, junk: Page)
    requires f < |data| && PtesOf(spaces, f) == {}
    ensures Kept(spaces, data, data[f := junk])
  {
    forall p, v | p in spaces && v in spaces[p] ensures spaces[p][v].frame != f {
      assert (p, v) !in PtesOf(spaces, f);
    }
  }

  lemma KeptTrans(small: map<nat, Space>, big: map<nat, Space>, d0: seq<Page>, d1: seq<Page>, d2: seq<Page>)
    requires Kept(big, d0, d1) && Kept(small, d1, d2) && Within(small, big)
    ensures Kept(small, d0, d2)
  {
  }

  /** After clearing page w of a, the pages lo..w are gone. */
  lemma BelowNext(a: Space, lo: nat, w: nat)
    requires lo <= w
    ensures Below(a, lo, w) - {w} == Below(a, lo, w + 1)
    ensures w in Below(a, lo, w) <==> w in a
    ensures w !in a ==> Below(a, lo, w + 1) == Below(a, lo, w)
  {
  }

  lemma BelowSkip(a: Space, lo: nat, w: nat, w': nat)
    requires lo <= w <= w' && forall x :: w <= x < w' ==> x !in Below(a, lo, w)
    ensures Below(a, lo, w') == Below(a, lo, w)
  {
  }

  lemma BelowNone(a: Space, lo: nat)
    ensures Below(a, lo, lo) == a
  {
  }

  class Vm {
    const first: nat          // the first frame after the kernel
    var freelist: seq<nat>
    var refs: seq<nat>        // cow_reference_count
    var data: seq<Page>
    var dirs: map<nat, Dir>
    ghost var owner: map<nat, Owner>

    ghost predicate Base()
      reads this
    {
      && 0 < first && |data| == NUMPAGES && FreeOk(first, freelist, refs)
      && DirsOk(dirs) && OwnersOk(first, refs, dirs, owner)
    }

    ghost predicate Valid()
      reads this
    {
      Base() && CountOk(first, refs, owner, Spaces(dirs))
    }

    ghost function Abs(): Sys
      reads this
      requires DirsOk(dirs)
    {
      Sys(Spaces(dirs), data)
    }

    /** kinit1() and kinit2(): freerange() gives every page from first on to kfree(). */
    constructor (first: nat)
      requires 0 < first <= NUMPAGES
      ensures Valid() && this.first == first && dirs == map[]
      ensures forall f :: 0 <= f < NUMPAGES ==> refs[f] == 0
    {
      this.first := first;
      refs := seq(NUMPAGES, _ => 0);
      data := seq(NUMPAGES, _ => JunkPage());
      dirs, owner := map[], map[];
      var list: seq<nat> := [];
      var p := first;
      while p < NUMPAGES
        invariant first <= p <= NUMPAGES
        invariant forall f :: multiset(list)[f] == if first <= f < p then 1 else 0
      {
        list := [p] + list;
        p := p + 1;
      }
      freelist := list;
    }

    method Kalloc() returns (f: int)
      requires FreeOk(first, freelist, refs)
      modifies this`freelist, this`refs
      ensures FreeOk(first, freelist, refs)
      ensures f == -1 ==> old(freelist) == [] && refs == old(refs) && freelist == old(freelist)
      ensures f != -1 ==>
                && first <= f < NUMPAGES && old(refs)[f] == 0 && refs == old(refs)[f := 1]
                && old(freelist) == [f] + freelist
    {
      if freelist == [] { return -1; }
      assert freelist == [freelist[0]] + freelist[1..];
      f := freelist[0];
      assert multiset(freelist)[f] > 0;
      freelist := freelist[1..];
      refs := refs[f := 1];
    }

    method Kfree(f: nat)
      requires FreeOk(first, freelist, refs) && |data| == NUMPAGES && first <= f < NUMPAGES && refs[f] != 0
      modifies this`freelist, this`refs, this`data
      ensures FreeOk(first, freelist, refs)
      ensures refs == old(refs)[f := 0] && data == old(data)[f := JunkPage()]
    {
      data := data[f := JunkPage()];
      refs := refs[f := 0];
      freelist := [f] + freelist;
    }

    /** The count is an unsigned char. */
    method Incref(f: nat)
      requires FreeOk(first, freelist, refs) && f < NUMPAGES && 0 < refs[f] < 255
      modifies this`refs
      ensures FreeOk(first, freelist, refs) && refs == old(refs)[f := old(refs)[f] + 1]
    {
      refs := refs[f := (refs[f] + 1) % 256];
    }

    method Decref(f: nat)
      requires FreeOk(first, freelist, refs) && f < NUMPAGES && 1 < refs[f]
      modifies this`refs
      ensures FreeOk(first, freelist, refs) && refs == old(refs)[f := old(refs)[f] - 1]
    {
      refs := refs[f := (refs[f] + 255) % 256];
    }

    /** walkpgdir(): true when page v now has a table in directory d. */
    method WalkPgdir(d: nat, v: nat, alloc: bool) returns (ok: bool)
      requires Base() && d in dirs && v < NUSERPAGES
      modifies this`freelist, this`refs, this`dirs, this`owner
      ensures Base() && dirs.Keys == old(dirs.Keys)
      ensures forall x :: x in dirs && x != d ==> dirs[x] == old(dirs)[x]
      ensures ok ==> dirs[d].tabs[v / NPTENTRIES].Some?
      ensures Spaces(dirs) == old(Spaces(dirs))
      ensures Extended(old(refs), old(owner), refs, owner)
      ensures !ok || !alloc || old(dirs)[d].tabs[v / NPTENTRIES].Some? ==>
                freelist == old(freelist) && refs == old(refs) && dirs == old(dirs) && owner == old(owner)
      ensures !ok ==> dirs[d].tabs[v / NPTENTRIES] == None && (alloc ==> old(freelist) == [])
      ensures |freelist| >= |old(freelist)| - 1
    {
      hide Spaces, EmptyTable, OwnersOk, FreeOk, DirOwned, Extended;
      ExtendedRefl(refs, owner);
      var i := v / NPTENTRIES;
      if dirs[d].tabs[i].Some? { return true; }
      if !alloc { return false; }
      FreeLength(first, freelist, refs);
      var f := Kalloc();
      if f == -1 { return false; }
      AddTable(first, old(refs), dirs, owner, d, i, f);
      dirs := dirs[d := Dir(dirs[d].tabs[i := Some(EmptyTable(f))], dirs[d].ktabs)];
      owner := owner[f := OfTable(d, i)];
      return true;
    }

    /** mappages() for one page. The page must not be mapped yet. */
    method MapPage(d: nat, v: nat, e: Pte) returns (ok: bool, remap: bool)
      requires Base() && d in dirs && v < NUSERPAGES
      modifies this`freelist, this`refs, this`dirs, this`owner
      ensures Base() && dirs.Keys == old(dirs.Keys)
      ensures Extended(old(refs), old(owner), refs, owner)
      ensures Spaces(dirs) == if ok then Map(old(Spaces(dirs)), d, v, e) else old(Spaces(dirs))
      ensures !ok ==> freelist == old(freelist) && refs == old(refs) && dirs == old(dirs) && owner == old(owner)
      ensures if d in old(Spaces(dirs)) && v in old(Spaces(dirs))[d] then !ok && remap
              else !remap && (!ok ==> freelist == [])
      ensures |freelist| >= |old(freelist)| - 1
    {
      hide Spaces, OwnersOk, FreeOk, Extended;
      SpacesAt(dirs, d, v);
      ok := WalkPgdir(d, v, true);
      if !ok { return false, false; }
      SpacesAt(dirs, d, v);
      if Entry(dirs[d], v).Some? { return false, true; }
      SetEntryOk(first, refs, dirs, owner, d, v, Some(e));
      dirs := dirs[d := SetEntry(dirs[d], v, Some(e))];
      return true, false;
    }

    /** One present entry in the loop of deallocuvm(): drop the reference, free the
        page if it was the last, and clear the entry. */
    method DropPage(d: nat, v: nat)
      requires Valid() && d in dirs && v < NUSERPAGES && Entry(dirs[d], v).Some?
      modifies this`freelist, this`refs, this`data, this`dirs
      ensures Valid() && dirs.Keys == old(dirs.Keys)
      ensures Spaces(dirs) == Unmap(old(Spaces(dirs)), d, v)
      ensures Kept(Spaces(dirs), old(data), data)
    {
      hide Spaces, OwnersOk, CountOk, FreeOk, PtesOf;
      var f := Entry(dirs[d], v).value.frame;
      SpacesAt(dirs, d, v);
      UnmapCount(first, refs, owner, Spaces(dirs), d, v);
      DropOwners(first, refs, dirs, owner, f, refs[f] - 1);
      FreeLength(first, freelist, refs);
      ghost var spaces', data0 := Unmap(Spaces(dirs), d, v), data;
      assert f != 0;
      if refs[f] == 1 {
        Kfree(f);
        NoEntry(first, refs, owner, spaces', f);
        JunkKept(spaces', data0, f, JunkPage());
      } else {
        Decref(f);
        KeptSame(spaces', data);
      }
      SetEntryOk(first, refs, dirs, owner, d, v, None);
      dirs := dirs[d := SetEntry(dirs[d], v, None)];
    }

    /** One page of deallocuvm(), whose page table is there. */
    method DeallocPage(d: nat, v: nat, ghost spaces0: map<nat, Space>, ghost a: Space, ghost lo: nat,
                       ghost data0: seq<Page>)
      requires Valid() && d in dirs && v < NUSERPAGES && lo <= v
      requires Spaces(dirs) == spaces0[d := Below(a, lo, v)] && Kept(Spaces(dirs), data0, data)
      modifies this`freelist, this`refs, this`data, this`dirs
      ensures Valid() && dirs.Keys == old(dirs.Keys)
      ensures Spaces(dirs) == spaces0[d := Below(a, lo, v + 1)] && Kept(Spaces(dirs), data0, data)
    {
      hide Spaces, OwnersOk, CountOk, FreeOk, Kept, Below;
      SpacesAt(dirs, d, v);
      BelowNext(a, lo, v);
      if Entry(dirs[d], v).Some? {
        ghost var spaces1, data1 := Spaces(dirs), data;
        DropPage(d, v);
        UnmapWithin(spaces1, d, v);
        KeptTrans(Spaces(dirs), spaces1, data0, data1, data);
      }
    }

    /** deallocuvm(): unmap the pages from PGROUNDUP(newsz) up to oldsz, skipping a
        whole table's range where there is no table. */
    method DeallocUvm(d: nat, oldsz: nat, newsz: nat) returns (sz: nat)
      requires Valid() && d in dirs && oldsz <= NUSERPAGES * PGSIZE
      modifies this`freelist, this`refs, this`data, this`dirs, this`owner
      ensures Valid() && dirs.Keys == old(dirs.Keys) && owner == old(owner)
      ensures sz == if newsz >= oldsz then oldsz else newsz
      ensures Shrunk(old(Spaces(dirs)), Spaces(dirs), d, PageCount(newsz), PageCount(oldsz))
      ensures ShrinkStep(old(Abs()), Abs(), d, PageCount(newsz), PageCount(oldsz))
      ensures d in old(Spaces(dirs)) && d in Spaces(dirs)
      ensures DropsBytes(old(Spaces(dirs))[d], Spaces(dirs)[d], newsz, oldsz)
    {
      hide Spaces, OwnersOk, CountOk, FreeOk, Kept, Below;
      SpacesKeys(dirs);
      ghost var spaces0, a, lo, hi := Spaces(dirs), Spaces(dirs)[d], PageCount(newsz), PageCount(oldsz);
      BelowNone(a, lo);
      BelowBytes(a, newsz, oldsz);
      KeptSame(spaces0, data);
      if newsz >= oldsz {
        BelowEmpty(a, lo, hi);
        return oldsz;
      }
      var v := (newsz + PGSIZE - 1) / PGSIZE;
      ghost var w := v;
      while v * PGSIZE < oldsz
        invariant lo <= w <= hi && (v * PGSIZE < oldsz ==> w == v) && (v * PGSIZE >= oldsz ==> w == hi)
        invariant Valid() && dirs.Keys == old(dirs.Keys) && d in dirs && owner == old(owner)
        invariant Spaces(dirs) == spaces0[d := Below(a, lo, w)]
        invariant Kept(Spaces(dirs), old(data), data)
        decreases NUSERPAGES - v
      {
        var ok := WalkPgdir(d, v, false);
        if !ok {
          v := (v / NPTENTRIES + 1) * NPTENTRIES;
          ghost var w' := if v * PGSIZE < oldsz then v else hi;
          SkipTable(dirs, d, w, w');
          assert Spaces(dirs)[d] == Below(a, lo, w);
          BelowSkip(a, lo, w, w');
          w := w';
        } else {
          DeallocPage(d, v, spaces0, a, lo, old(data));
          v := v + 1;
          w := w + 1;
        }
      }
      return newsz;
    }

    /** kalloc() for something that is not user memory. */
    method KallocOther() returns (f: int)
      requires Valid()
      modifies this`freelist, this`refs, this`owner
      ensures Valid() && Extended(old(refs), old(owner), refs, owner)
      ensures f == -1 ==> freelist == old(freelist) == [] && refs == old(refs) && owner == old(owner)
      ensures f != -1 ==>
                && |freelist| == |old(freelist)| - 1
                && first <= f < NUMPAGES && f !in old(owner) && owner == old(owner)[f := Other]
                && PtesOf(Spaces(dirs), f) == {}
    {
      hide Spaces, CountOk, FreeOk, PtesOf;
      FreeLength(first, freelist, refs);
      f := Kalloc();
      if f != -1 {
        AddOther(first, old(refs), dirs, owner, f);
        owner := owner[f := Other];
        ExtendedCount(first, old(refs), old(owner), refs, owner, Spaces(dirs));
        OwnedUnmapped(first, refs, owner, Spaces(dirs), f);
      }
    }

    /** kfree() of such a page. */
    method KfreeOther(f: nat)
      requires Valid() && f in owner && owner[f] == Other
      modifies this`freelist, this`refs, this`data, this`owner
      ensures Valid() && owner == old(owner) - {f}
      ensures Kept(Spaces(dirs), old(data), data)
    {
      hide Spaces, CountOk, FreeOk, PtesOf;
      FreeLength(first, freelist, refs);
      OwnedUnmapped(first, refs, owner, Spaces(dirs), f);
      RemoveOther(first, refs, dirs, owner, f, 0);
      FreeCount(first, refs, owner, Spaces(dirs), f);
      JunkKept(Spaces(dirs), data, f, JunkPage());
      Kfree(f);
      owner := owner - {f};
    }

    /** One turn of the loop of allocuvm(): kalloc, memset, mappages. When only
        mappages fails the page is still the caller's to free. */
    method AllocPage(d: nat, v: nat) returns (ok: bool, mem: int)
      requires Valid() && d in dirs && v < NUSERPAGES && v !in Spaces(dirs)[d]
      modifies this`freelist, this`refs, this`data, this`dirs, this`owner
      ensures Valid() && dirs.Keys == old(dirs.Keys)
      ensures ok ==> 0 <= mem < NUMPAGES && PtesOf(old(Spaces(dirs)), mem) == {}
      ensures ok ==> Abs() == Sys(Map(old(Spaces(dirs)), d, v, Pte(mem, true, true)), old(data)[mem := ZeroPage()])
      ensures !ok ==> Spaces(dirs) == old(Spaces(dirs)) && Kept(Spaces(dirs), old(data), data)
      ensures !ok && mem != -1 ==> 0 <= mem && mem in owner && owner[mem] == Other
      ensures |freelist| >= |old(freelist)| - 2 && (!ok ==> |old(freelist)| < 2)
    {
      hide Spaces, CountOk, FreeOk, PtesOf, Kept, OwnersOk, Extended, DirsOk, Map;
      SpacesKeys(dirs);
      KeptSame(Spaces(dirs), data);
      mem := KallocOther();
      if mem == -1 { return false, -1; }
      JunkKept(Spaces(dirs), data, mem, ZeroPage());
      data := data[mem := ZeroPage()];
      ghost var refs1, owner1, spaces1 := refs, owner, Spaces(dirs);
      var remap;
      ok, remap := MapPage(d, v, Pte(mem, true, true));
      ExtendedOwner(refs1, owner1, refs, owner, mem);
      ExtendedCount(first, refs1, owner1, refs, owner, spaces1);
      if ok {
        RemoveOther(first, refs, dirs, owner, mem, 1);
        MapFreshCount(first, refs, owner, spaces1, d, v, Pte(mem, true, true));
        owner := owner - {mem};
      }
    }

    /** allocuvm(): grow from oldsz to newsz, or leave the mappings as they were. */
    method AllocUvm(d: nat, oldsz: nat, newsz: nat) returns (sz: nat, ghost ok: bool)
      requires Valid() && Inv(Abs()) && d in dirs && Sized(Spaces(dirs)[d], oldsz)
      modifies this`freelist, this`refs, this`data, this`dirs, this`owner
      ensures Valid() && dirs.Keys == old(dirs.Keys)
      ensures sz == if !ok then 0 else if newsz < oldsz then oldsz else newsz
      ensures newsz >= NUSERPAGES * PGSIZE ==> !ok
      ensures GrowStep(old(Abs()), Abs(), d, PageCount(oldsz), PageCount(newsz), ok)
      ensures d in Spaces(dirs) && Sized(Spaces(dirs)[d], if ok && newsz > oldsz then newsz else oldsz)
      ensures ok ==> forall b :: 0 <= b < newsz ==> b / PGSIZE in Spaces(dirs)[d]
      ensures !ok ==> newsz >= NUSERPAGES * PGSIZE || |old(freelist)| < 2 * (PageCount(newsz) - PageCount(oldsz))
    {
      hide Spaces, CountOk, FreeOk, PtesOf, Kept, OwnersOk, Extended, DirsOk, Map, GrowStep, Below, Sized, DropsBytes;
      ghost var s0, lo := Abs(), PageCount(oldsz);
      SpacesKeys(dirs);
      GrowNothing(s0, d, oldsz, newsz);
      SizedAll(s0.spaces[d], oldsz);
      if newsz >= NUSERPAGES * PGSIZE { return 0, false; }
      if newsz < oldsz { return oldsz, true; }
      var v := (oldsz + PGSIZE - 1) / PGSIZE;
      while v * PGSIZE < newsz
        invariant lo <= v <= PageCount(newsz) && Valid() && dirs.Keys == old(dirs.Keys)
        invariant GrowStep(s0, Abs(), d, lo, v, true) && |freelist| >= |old(freelist)| - 2 * (v - lo)
      {
        ghost var s1 := Abs();
        GrowNext(s0, s1, d, lo, v, PageCount(newsz));
        var more, mem := AllocPage(d, v);
        if !more {
          ghost var s2 := Abs();
          var _ := DeallocUvm(d, newsz, oldsz);
          GrowUndone(s0, s1, s2, Abs(), d, lo, v, PageCount(newsz));
          if mem != -1 {
            ghost var s3 := Abs();
            KfreeOther(mem);
            GrowKept(s0, s3, Abs(), d, lo, PageCount(newsz));
          }
          NotGrown(s0, Abs(), d, lo, PageCount(newsz));
          return 0, false;
        }
        GrowOne(s0, s1, Abs(), d, lo, v, mem);
        v := v + 1;
      }
      GrownSized(s0, Abs(), d, oldsz, newsz);
      SizedAll(Spaces(dirs)[d], newsz);
      return newsz, true;
    }

    /** freevm(): unmap all user pages, then free the tables and the directory. The
        directory's contents are read before its frames are freed. */
    method FreeVm(d: nat)
      requires Valid() && d in dirs
      modifies this`freelist, this`refs, this`data, this`dirs, this`owner
      ensures Valid() && dirs.Keys == old(dirs.Keys) - {d}
      ensures ExitStep(old(Abs()), Abs(), d)
    {
      hide Spaces, CountOk, FreeOk, Kept, OwnersOk, Below, DirOk;
      ghost var spaces0 := Spaces(dirs);
      SpacesKeys(dirs);
      var _ := DeallocUvm(d, NUSERPAGES * PGSIZE, 0);
      EmptySpace(dirs, spaces0, d);
      Detach(first, refs, dirs, owner, d);
      ghost var owner0, spaces1, data1 := owner, Spaces(dirs), data;
      var dir := dirs[d];
      owner := Relabel(owner, d);
      dirs := dirs - {d};
      WithinMinus(spaces1, d);
      KeptMono(Spaces(dirs), spaces1, data1, data1);
      FreeTables(d, dir, owner0);
      KeptMono(Spaces(dirs), spaces1, old(data), data1);
      KeptTrans(Spaces(dirs), Spaces(dirs), old(data), data1, data);
    }

    method FreeTables(d: nat, dir: Dir, ghost owner0: map<nat, Owner>)
      requires Valid() && DirOwned(d, dir, owner0) && Pending(owner0, owner, d, 0, 0)
      modifies this`freelist, this`refs, this`data, this`owner
      ensures Valid() && Kept(Spaces(dirs), old(data), data)
    {
      hide Spaces, CountOk, FreeOk, Kept, OwnersOk, Relabel;
      KeptSame(Spaces(dirs), data);
      for i := 0 to |dir.tabs|
        invariant Valid() && Pending(owner0, owner, d, i, 0) && Kept(Spaces(dirs), old(data), data)
      {
        if dir.tabs[i].Some? {
          ghost var data1 := data;
          KfreeOther(dir.tabs[i].value.frame);
          KeptTrans(Spaces(dirs), Spaces(dirs), old(data), data1, data);
        }
      }
      for i := 0 to |dir.ktabs|
        invariant Valid() && Pending(owner0, owner, d, |dir.tabs|, i) && Kept(Spaces(dirs), old(data), data)
      {
        ghost var data1 := data;
        KfreeOther(dir.ktabs[i]);
        KeptTrans(Spaces(dirs), Spaces(dirs), old(data), data1, data);
      }
      ghost var data1 := data;
      KfreeOther(d);
      KeptTrans(Spaces(dirs), Spaces(dirs), old(data), data1, data);
    }

    /** setupkvm(): a directory with the kernel's tables and no user page; -1 and no
        change of mappings when memory runs out. */
    method SetupKvm() returns (d: int)
      requires Valid()
      modifies this`freelist, this`refs, this`data, this`dirs, this`owner
      ensures Valid()
      ensures d == -1 ==> Spaces(dirs) == old(Spaces(dirs))
      ensures d != -1 ==> 0 <= d && d !in old(Spaces(dirs)) && Spaces(dirs) == old(Spaces(dirs))[d := map[]]
      ensures Kept(old(Spaces(dirs)), old(data), data)
      ensures if d == -1 then |old(freelist)| < 1 + NKERNTABS else |freelist| == |old(freelist)| - 1 - NKERNTABS
    {
      hide Spaces, CountOk, FreeOk, Kept, OwnersOk, DirsOk, EmptyDir;
      ghost var spaces0 := Spaces(dirs);
      KeptSame(spaces0, data);
      d := KallocOther();
      if d == -1 { return; }
      AddDir(first, refs, dirs, owner, d);
      dirs := dirs[d := EmptyDir()];
      owner := owner[d := OfDir(d)];
      SpacesKeys(dirs);
      for k := 0 to NKERNTABS
        invariant Valid() && d in dirs && Spaces(dirs) == spaces0[d := map[]] && data == old(data)
        invariant |dirs[d].ktabs| == k && |freelist| == |old(freelist)| - 1 - k
      {
        var t := KallocOther();
        if t == -1 {
          WithinMinus(Spaces(dirs), d);
          FreeVm(d);
          MinusNew(spaces0, d);
          return -1;
        }
        AddKernelTable(first, refs, dirs, owner, d, t);
        owner := owner[t := OfKernelTable(d, k)];
        dirs := dirs[d := Dir(dirs[d].tabs, dirs[d].ktabs + [t])];
      }
    }

    /** cowuvm(): the child shares every page of the parent, and both lose PTE_W; when
        memory runs out the child is gone and the parent has lost some PTE_W bits. */
    method CowUvm(p: nat, sz: nat) returns (c: int, ghost reached: nat)
      requires Valid() && Inv(Abs()) && p in dirs && Sized(Spaces(dirs)[p], sz)
      requires sz <= NUSERPAGES * PGSIZE
      requires |Users(Spaces(dirs))| < 255
      modifies this`freelist, this`refs, this`data, this`dirs, this`owner
      ensures Valid() && -1 <= c
      ensures ForkStep(old(Abs()), Abs(), p, if c == -1 then 0 else c, c != -1, reached)
      ensures c == -1 ==> |old(freelist)| < 1 + NKERNTABS + PageCount(sz)
      ensures c != -1 ==>
                && p in Spaces(dirs) && c in Spaces(dirs) && c !in old(Spaces(dirs))
                && Sized(Spaces(dirs)[c], sz) && Spaces(dirs)[p] == Spaces(dirs)[c]
                && SharesAll(old(Spaces(dirs))[p], Spaces(dirs)[c])
    {
      hide Spaces, CountOk, FreeOk, Kept, OwnersOk, DirsOk, ForkStep, Forking, Inv, Sized, SharesAll;
      ghost var s0 := Abs();
      SpacesKeys(dirs);
      c := SetupKvm();
      reached := 0;
      ForkStart(s0, Abs(), p, c);
      if c == -1 { return; }
      SpacesKeys(dirs);
      var v := 0;
      while v * PGSIZE < sz
        invariant v <= PageCount(sz)
        invariant Valid() && p in dirs && c in dirs && c != p
        invariant Spaces(dirs) == Forking(s0.spaces, p, c, v) && Kept(s0.spaces, s0.data, data)
        invariant |freelist| >= |old(freelist)| - 1 - NKERNTABS - v
      {
        PageCountAt(sz, v);
        SizedPages(s0.spaces[p], sz);
        ForkingAt(s0, p, c, v);
        var ok := SharePage(p, c, v);
        reached := v + 1;
        if !ok {
          ghost var data1 := data;
          FreeVm(c);
          ForkUndone(s0, data1, Abs(), p, c, v);
          return -1, reached;
        }
        ForkingNext(s0, p, c, v);
        v := v + 1;
      }
      PageCountAt(sz, v);
      reached := PageCount(sz);
      SizedPages(s0.spaces[p], sz);
      ForkDone(s0, Abs(), p, c, reached);
      ForkShares(s0, Abs(), p, c, reached, sz);
    }

    /** One turn of the loop of cowuvm(). */
    method SharePage(p: nat, c: nat, v: nat) returns (ok: bool)
      requires Valid() && p in dirs && c in dirs && c != p && v < NUSERPAGES
      requires v in Spaces(dirs)[p] && v !in Spaces(dirs)[c]
      requires |PtesOf(Spaces(dirs), Spaces(dirs)[p][v].frame)| < 255
      modifies this`freelist, this`refs, this`dirs, this`owner
      ensures Valid() && dirs.Keys == old(dirs.Keys)
      ensures
        var e := Protect(old(Spaces(dirs))[p][v], false);
        var protected := Map(old(Spaces(dirs)), p, v, e);
        Spaces(dirs) == if ok then Map(protected, c, v, e) else protected
      ensures |freelist| >= |old(freelist)| - 1 && (!ok ==> old(freelist) == [])
    {
      hide Spaces, CountOk, FreeOk, OwnersOk, PtesOf, Extended;
      SpacesKeys(dirs);
      SpacesAt(dirs, p, v);
      ghost var spaces0 := Spaces(dirs);
      var e := Entry(dirs[p], v).value;
      var e' := Pte(e.frame, false, e.u);
      SetEntryOk(first, refs, dirs, owner, p, v, Some(e'));
      ProtectCount(first, refs, owner, spaces0, p, v);
      dirs := dirs[p := SetEntry(dirs[p], v, Some(e'))];
      ghost var refs1, owner1, spaces1 := refs, owner, Spaces(dirs);
      var remap;
      ok, remap := MapPage(c, v, e');
      ExtendedCount(first, refs1, owner1, refs, owner, spaces1);
      if !ok { return; }
      ShareCount(first, refs, owner, spaces1, p, c, v, e');
      FreeLength(first, freelist, refs);
      DropOwners(first, refs, dirs, owner, e.frame, refs[e.frame] + 1);
      PtesProtect(spaces0, p, v, false, e.frame);
      Incref(e.frame);
    }

    /** handlepgflt(); false kills the process. An address with no page table does, but an
        absent page of a table that is there does not: the fault comes again. */
    method HandlePgFlt(p: nat, v: nat) returns (ok: bool, ghost mem: int)
      requires Valid() && p in dirs
      modifies this`freelist, this`refs, this`data, this`dirs, this`owner
      ensures Valid() && p in old(Spaces(dirs))
      ensures v !in old(Spaces(dirs))[p] ==>
                && Abs() == old(Abs())
                && (ok <==> v < NUSERPAGES && DirOk(old(dirs)[p]) && old(dirs)[p].tabs[v / NPTENTRIES].Some?)
      ensures v in old(Spaces(dirs))[p] ==> Resolved(old(Abs()), Abs(), p, v, ok, mem, old(freelist))
    {
      hide Spaces, CountOk, OwnersOk, Resolved;
      SpacesKeys(dirs);
      SpacesBelow(dirs, p);
      mem := -1;
      if v >= NUSERPAGES { return false, mem; }
      SpacesAt(dirs, p, v);
      var ok1 := WalkPgdir(p, v, false);
      if !ok1 { return false, mem; }
      if Entry(dirs[p], v).None? {
        // the frame number of an absent entry is 0, which nobody counts
        return refs[0] <= 1, mem;
      }
      ok, mem := Resolve(p, v);
    }

    /** The rest of handlepgflt(), on a present page that is not writable. */
    method Resolve(p: nat, v: nat) returns (ok: bool, ghost mem: int)
      requires Valid() && p in dirs && v < NUSERPAGES && v in Spaces(dirs)[p]
      modifies this`freelist, this`refs, this`data, this`dirs, this`owner
      ensures Valid()
      ensures Resolved(old(Abs()), Abs(), p, v, ok, mem, old(freelist))
    {
      hide Spaces, CountOk, FreeOk, OwnersOk, PtesOf, Extended, Map;
      SpacesKeys(dirs);
      SpacesAt(dirs, p, v);
      FreeLength(first, freelist, refs);
      ghost var spaces0 := Spaces(dirs);
      UserPage(first, refs, owner, spaces0, p, v);
      var e := Entry(dirs[p], v).value;
      mem := -1;
      if refs[e.frame] > 1 {
        ok, mem := CopyPage(p, v, e);
      } else {
        SetEntryOk(first, refs, dirs, owner, p, v, Some(Pte(e.frame, true, e.u)));
        GrantCount(first, refs, owner, spaces0, p, v);
        dirs := dirs[p := SetEntry(dirs[p], v, Some(Pte(e.frame, true, e.u)))];
        ok := true;
      }
    }

    /** The branch of handlepgflt() for a shared page. */
    method CopyPage(p: nat, v: nat, e: Pte) returns (ok: bool, mem: int)
      requires Valid() && p in dirs && v < NUSERPAGES && v in Spaces(dirs)[p] && Spaces(dirs)[p][v] == e
      requires e.frame < |data| && |refs| == NUMPAGES && refs[e.frame] > 1
      modifies this`freelist, this`refs, this`data, this`dirs, this`owner
      ensures Valid()
      ensures !ok ==> Abs() == old(Abs()) && old(freelist) == []
      ensures ok ==>
                && 0 <= mem < |old(data)| && PtesOf(old(Spaces(dirs)), mem) == {}
                && Abs() == Sys(Map(old(Spaces(dirs)), p, v, Pte(mem, true, e.u)), old(data)[mem := old(data)[e.frame]])
    {
      hide Spaces, CountOk, FreeOk, OwnersOk, PtesOf, Map, Unmap;
      SpacesKeys(dirs);
      SpacesAt(dirs, p, v);
      ghost var spaces0, refs0, owner0 := Spaces(dirs), refs, owner;
      mem := KallocOther();
      if mem == -1 { return false, -1; }
      data := data[mem := data[e.frame]];
      UnmapCount(first, refs, owner, spaces0, p, v);
      UserPage(first, refs0, owner0, spaces0, p, v);
      ExtendedKeeps(refs0, owner0, refs, owner, e.frame, mem);
      RemoveOther(first, refs, dirs, owner, mem, 1);
      RemapCount(first, refs, owner, spaces0, p, v, Pte(mem, true, e.u));
      SetEntryOk(first, refs, dirs, owner, p, v, Some(Pte(mem, true, e.u)));
      dirs := dirs[p := SetEntry(dirs[p], v, Some(Pte(mem, true, e.u)))];
      RemoveOther(first, refs, dirs, owner, mem, 1);
      owner := owner - {mem};
      DropOwners(first, refs, dirs, owner, e.frame, refs[e.frame] - 1);
      Decref(e.frame);
      ok := true;
    }

    /** A user store to a page with PTE_U: the hardware writes, or faults first. */
    method UserWrite(p: nat, v: nat, bytes: Page) returns (ok: bool)
      requires Valid() && p in dirs && v < NUSERPAGES && v in Spaces(dirs)[p]
      modifies this`freelist, this`refs, this`data, this`dirs, this`owner
      ensures Valid()
      ensures WriteStep(old(Abs()), Abs(), p, v, bytes, ok) && (!ok ==> old(freelist) == [])
    {
      hide Spaces, CountOk, FreeOk, OwnersOk, PtesOf, Map, CopyStep;
      SpacesKeys(dirs);
      SpacesAt(dirs, p, v);
      FreeLength(first, freelist, refs);
      UserPage(first, refs, owner, Spaces(dirs), p, v);
      ghost var s0, e0 := Abs(), Spaces(dirs)[p][v];
      ghost var mem := -1;
      ok := true;
      if !Entry(dirs[p], v).value.w {
        ok, mem := HandlePgFlt(p, v);
      }
      if !ok { return; }
      MapAt(s0.spaces, p, v);
      SpacesKeys(dirs);
      SpacesAt(dirs, p, v);
      var f := Entry(dirs[p], v).value.frame;
      data := data[f := bytes];
      if !e0.w && |PtesOf(s0.spaces, e0.frame)| > 1 {
        IsCopy(s0, Abs(), p, v, e0, bytes, mem);
      }
    }
  }

  /** A fault on a page that is there: an only user gets write access, one of several a
      copy of its own, unless memory is out. */
  ghost predicate Resolved(s: Sys, s': Sys, p: nat, v: nat, ok: bool, mem: int, freelist: seq<nat>) {
    && p in s.spaces && v in s.spaces[p]
    && var e, shared := s.spaces[p][v], |PtesOf(s.spaces, s.spaces[p][v].frame)| > 1;
       && e.frame < |s.data|
       && (!ok ==> shared && s' == s && freelist == [])
       && (ok && !shared ==> s' == Sys(Map(s.spaces, p, v, Pte(e.frame, true, e.u)), s.data))
       && (ok && shared ==>
             && 0 <= mem < |s.data| && PtesOf(s.spaces, mem) == {}
             && s' == Sys(Map(s.spaces, p, v, Pte(mem, true, e.u)), s.data[mem := s.data[e.frame]]))
  }

  lemma SpacesBelow(dirs: map<nat, Dir>, d: nat)
    requires DirsOk(dirs) && d in dirs
    ensures d in Spaces(dirs) && forall v :: v in Spaces(dirs)[d] ==> v < NUSERPAGES
  {
  }

  lemma MapAt(spaces: map<nat, Space>, p: nat, v: nat)
    requires p in spaces
    ensures forall x: Pte ::
              p in Map(spaces, p, v, x) && v in Map(spaces, p, v, x)[p] && Map(spaces, p, v, x)[p][v] == x
  {
  }

  lemma IsCopy(s: Sys, s': Sys, p: nat, v: nat, e: Pte, bytes: Page, g: nat)
    requires p in s.spaces && g < |s.data| && PtesOf(s.spaces, g) == {}
    requires s' == Sys(Map(s.spaces, p, v, Pte(g, true, e.u)), s.data[g := bytes])
    ensures CopyStep(s, s', p, v, e, bytes, g)
  {
    NoPtes(s.spaces, g);
  }

  lemma UserPage(first: nat, refs: seq<nat>, owner: map<nat, Owner>, spaces: map<nat, Space>, p: nat, v: nat)
    requires CountOk(first, refs, owner, spaces) && p in spaces && v in spaces[p]
    ensures
      var f := spaces[p][v].frame;
      first <= f < |refs| && f !in owner && refs[f] == |PtesOf(spaces, f)| >= 1
  {
    InPtes(spaces, p, v);
  }

  lemma GrantCount(first: nat, refs: seq<nat>, owner: map<nat, Owner>, spaces: map<nat, Space>, p: nat, v: nat)
    requires CountOk(first, refs, owner, spaces) && p in spaces && v in spaces[p]
    ensures CountOk(first, refs, owner, Map(spaces, p, v, Pte(spaces[p][v].frame, true, spaces[p][v].u)))
  {
    forall f: nat
      ensures PtesOf(Map(spaces, p, v, Pte(spaces[p][v].frame, true, spaces[p][v].u)), f) == PtesOf(spaces, f)
    {
      PtesProtect(spaces, p, v, true, f);
    }
  }

  lemma ExtendedKeeps(refs: seq<nat>, owner: map<nat, Owner>, refs': seq<nat>, owner': map<nat, Owner>, f: nat, g: nat)
    requires Extended(refs, owner, refs', owner') && owner' == owner[g := Other] && f < |refs| && f !in owner
    requires refs[f] > 0
    ensures f != g && f !in owner' && refs'[f] == refs[f]
  {
  }

  /** An entry moves from a shared page to a page of its own. */
  lemma RemapCount(first: nat, refs: seq<nat>, owner: map<nat, Owner>, spaces: map<nat, Space>, p: nat, v: nat, e: Pte)
    requires CountOk(first, refs, owner, spaces) && p in spaces && v in spaces[p]
    requires e.frame in owner && first <= e.frame < |refs| && refs[e.frame] == 1 && spaces[p][v].frame != e.frame
    requires first <= spaces[p][v].frame < |refs| && refs[spaces[p][v].frame] >= 1
    ensures
      var f := spaces[p][v].frame;
      CountOk(first, refs[f := refs[f] - 1], owner - {e.frame}, Map(spaces, p, v, e))
  {
    hide CountOk;
    var f := spaces[p][v].frame;
    UnmapCount(first, refs, owner, spaces, p, v);
    MapFreshCount(first, refs[f := refs[f] - 1], owner, Unmap(spaces, p, v), p, v, e);
    var a: Space := (spaces[p] - {v})[v := e];
    assert a == spaces[p][v := e];
    assert Map(Unmap(spaces, p, v), p, v, e) == Map(spaces, p, v, e);
  }

  /** A count is at most the number of address spaces that map any page, so with NPROC
      of them the unsigned char never wraps, and a page is free exactly when its count
      is 0. */
  lemma CountsFit(first: nat, freelist: seq<nat>, refs: seq<nat>, dirs: map<nat, Dir>, owner: map<nat, Owner>,
                  data: seq<Page>, f: nat)
    requires FreeOk(first, freelist, refs) && DirsOk(dirs) && OwnersOk(first, refs, dirs, owner)
    requires CountOk(first, refs, owner, Spaces(dirs)) && Inv(Sys(Spaces(dirs), data))
    requires first <= f < NUMPAGES
    ensures refs[f] <= 1 || refs[f] <= |Users(Spaces(dirs))|
    ensures |Users(Spaces(dirs))| <= NPROC ==> refs[f] <= NPROC
    ensures f in freelist <==> refs[f] == 0
    ensures f in freelist ==> Unmapped(Spaces(dirs), f)
  {
    CountBound(Spaces(dirs), f);
    assert f in freelist <==> multiset(freelist)[f] > 0;
    hide Spaces, Injective, DirsOk, Users;
    if f in freelist {
      NoPtes(Spaces(dirs), f);
    }
  }

  lemma ProtectCount(first: nat, refs: seq<nat>, owner: map<nat, Owner>, spaces: map<nat, Space>, p: nat, v: nat)
    requires CountOk(first, refs, owner, spaces) && p in spaces && v in spaces[p]
    ensures CountOk(first, refs, owner, Map(spaces, p, v, Protect(spaces[p][v], false)))
  {
    forall f: nat ensures PtesOf(Map(spaces, p, v, Protect(spaces[p][v], false)), f) == PtesOf(spaces, f) {
      PtesProtect(spaces, p, v, false, f);
    }
  }

  lemma InPtes(spaces: map<nat, Space>, p: nat, v: nat)
    requires p in spaces && v in spaces[p]
    ensures (p, v) in PtesOf(spaces, spaces[p][v].frame)
  {
  }

  /** One more entry for a page, one more reference. */
  lemma ShareCount(first: nat, refs: seq<nat>, owner: map<nat, Owner>, spaces: map<nat, Space>, p: nat, c: nat, v: nat,
                   e: Pte)
    requires CountOk(first, refs, owner, spaces) && p in spaces && v in spaces[p] && spaces[p][v] == e
    requires c in spaces && v !in spaces[c]
    ensures first <= e.frame < |refs| && e.frame !in owner && refs[e.frame] == |PtesOf(spaces, e.frame)| >= 1
    ensures CountOk(first, refs[e.frame := refs[e.frame] + 1], owner, Map(spaces, c, v, e))
  {
    hide PtesOf;
    InPtes(spaces, p, v);
    forall f: nat
      ensures PtesOf(Map(spaces, c, v, e), f) ==
                if f == e.frame then PtesOf(spaces, f) + {(c, v)} else PtesOf(spaces, f)
      ensures (c, v) !in PtesOf(spaces, f)
    {
      PtesMap(spaces, c, v, e, f);
    }
  }

  ghost function First(a: Space, n: nat): Space {
    map v | v in a && v < n :: a[v]
  }

  /** The address spaces when cowuvm has shared the first n pages of p with c. */
  ghost function Forking(spaces: map<nat, Space>, p: nat, c: nat, n: nat): map<nat, Space>
    requires p in spaces
  {
    spaces[p := ReadOnly(spaces[p], n)][c := First(ReadOnly(spaces[p], n), n)]
  }

  lemma ReadOnlyNone(a: Space)
    ensures ReadOnly(a, 0) == a && First(a, 0) == map[]
  {
  }

  lemma ForkStart(s: Sys, s1: Sys, p: nat, c: int)
    requires p in s.spaces && Kept(s.spaces, s.data, s1.data) && -1 <= c
    requires c == -1 ==> s1.spaces == s.spaces
    requires c != -1 ==> 0 <= c && c !in s.spaces && s1.spaces == s.spaces[c := map[]]
    ensures c == -1 ==> ForkStep(s, s1, p, 0, false, 0)
    ensures c != -1 ==> s1.spaces == Forking(s.spaces, p, c, 0) && c != p
  {
    ReadOnlyNone(s.spaces[p]);
    assert s.spaces[p := s.spaces[p]] == s.spaces;
  }

  /** The page about to be shared has the references it had before the fork. */
  lemma NotYet(s: Sys, p: nat, c: nat, v: nat)
    requires Inv(s) && p in s.spaces && c !in s.spaces && v in s.spaces[p]
    ensures PtesOf(Forking(s.spaces, p, c, v), s.spaces[p][v].frame) == PtesOf(s.spaces, s.spaces[p][v].frame)
  {
    var spaces, f := Forking(s.spaces, p, c, v), s.spaces[p][v].frame;
    assert Injective(s.spaces[p]);
    forall q, x ensures (q, x) in PtesOf(spaces, f) <==> (q, x) in PtesOf(s.spaces, f) {
    }
  }

  lemma ForkingAt(s: Sys, p: nat, c: nat, v: nat)
    requires Inv(s) && p in s.spaces && c !in s.spaces && v in s.spaces[p] && |Users(s.spaces)| < 255
    ensures
      var spaces := Forking(s.spaces, p, c, v);
      && v in spaces[p] && v !in spaces[c] && spaces[p][v] == s.spaces[p][v]
      && |PtesOf(spaces, spaces[p][v].frame)| < 255
  {
    CountBound(s.spaces, s.spaces[p][v].frame);
    NotYet(s, p, c, v);
  }

  lemma ReadOnlyNext(a: Space, v: nat)
    requires v in a
    ensures ReadOnly(a, v)[v := Protect(a[v], false)] == ReadOnly(a, v + 1)
    ensures First(ReadOnly(a, v), v)[v := Protect(a[v], false)] == First(ReadOnly(a, v + 1), v + 1)
  {
  }

  lemma ForkingNext(s: Sys, p: nat, c: nat, v: nat)
    requires p in s.spaces && c != p && v in s.spaces[p]
    ensures
      var e := Protect(s.spaces[p][v], false);
      Map(Map(Forking(s.spaces, p, c, v), p, v, e), c, v, e) == Forking(s.spaces, p, c, v + 1)
  {
    hide ReadOnly, First;
    ReadOnlyNext(s.spaces[p], v);
  }

  lemma ForkUndone(s: Sys, data1: seq<Page>, s': Sys, p: nat, c: nat, v: nat)
    requires p in s.spaces && c !in s.spaces && v in s.spaces[p] && Kept(s.spaces, s.data, data1)
    requires s'.spaces == Map(Forking(s.spaces, p, c, v), p, v, Protect(s.spaces[p][v], false)) - {c}
    requires Kept(s'.spaces, data1, s'.data)
    ensures ForkStep(s, s', p, 0, false, v + 1)
  {
    ReadOnlyNext(s.spaces[p], v);
    hide Kept, ReadOnly;
    assert s'.spaces == s.spaces[p := ReadOnly(s.spaces[p], v + 1)];
    KeptReadOnly(s.spaces, p, v + 1, data1, s'.data);
    KeptTrans(s.spaces, s.spaces, s.data, data1, s'.data);
  }

  lemma KeptReadOnly(spaces: map<nat, Space>, p: nat, n: nat, d0: seq<Page>, d1: seq<Page>)
    requires p in spaces && Kept(spaces[p := ReadOnly(spaces[p], n)], d0, d1)
    ensures Kept(spaces, d0, d1)
  {
    var spaces': map<nat, Space> := spaces[p := ReadOnly(spaces[p], n)];
    forall q, v | q in spaces && v in spaces[q] && spaces[q][v].frame < |d0|
      ensures d1[spaces[q][v].frame] == d0[spaces[q][v].frame]
    {
      assert q in spaces' && v in spaces'[q] && spaces'[q][v].frame == spaces[q][v].frame;
    }
  }

  lemma ForkDone(s: Sys, s': Sys, p: nat, c: nat, n: nat)
    requires p in s.spaces && c !in s.spaces && (forall v :: v in s.spaces[p] ==> v < n)
    requires s'.spaces == Forking(s.spaces, p, c, n) && Kept(s.spaces, s.data, s'.data)
    ensures ForkStep(s, s', p, c, true, n)
  {
    assert First(ReadOnly(s.spaces[p], n), n) == ReadOnly(s.spaces[p], n);
  }

  // ----- new directories

  function EmptyDir(): (d: Dir)
    ensures DirOk(d) && d.ktabs == [] && forall i :: 0 <= i < NUSERTABS ==> d.tabs[i] == None
  {
    Dir(seq(NUSERTABS, _ => None), [])
  }

  lemma AddDirSpaces(dirs: map<nat, Dir>, d: nat)
    requires DirsOk(dirs)
    ensures DirsOk(dirs[d := EmptyDir()]) && Spaces(dirs[d := EmptyDir()]) == Spaces(dirs)[d := map[]]
  {
  }

  lemma AddDirOwned(first: nat, refs: seq<nat>, dirs: map<nat, Dir>, owner: map<nat, Owner>, d: nat)
    requires OwnersOk(first, refs, dirs, owner) && d in owner && owner[d] == Other
    ensures d !in dirs && OwnersOk(first, refs, dirs[d := EmptyDir()], owner[d := OfDir(d)])
  {
  }

  lemma AddDirCount(first: nat, refs: seq<nat>, owner: map<nat, Owner>, spaces: map<nat, Space>, d: nat)
    requires CountOk(first, refs, owner, spaces) && d !in spaces && d in owner
    ensures CountOk(first, refs, owner[d := OfDir(d)], spaces[d := map[]])
  {
    hide PtesOf;
    var spaces' := spaces[d := map[]];
    forall f: nat ensures PtesOf(spaces', f) == PtesOf(spaces, f) {
      MinusNew(spaces, d);
      EmptyPtes(spaces', d, f);
    }
  }

  lemma AddDir(first: nat, refs: seq<nat>, dirs: map<nat, Dir>, owner: map<nat, Owner>, d: nat)
    requires DirsOk(dirs) && OwnersOk(first, refs, dirs, owner) && CountOk(first, refs, owner, Spaces(dirs))
    requires d in owner && owner[d] == Other
    ensures
      var dirs', owner' := dirs[d := EmptyDir()], owner[d := OfDir(d)];
      && d !in Spaces(dirs) && DirsOk(dirs') && Spaces(dirs') == Spaces(dirs)[d := map[]]
      && OwnersOk(first, refs, dirs', owner') && CountOk(first, refs, owner', Spaces(dirs'))
  {
    hide OwnersOk, CountOk, DirsOk, Spaces, EmptyDir;
    AddDirSpaces(dirs, d);
    AddDirOwned(first, refs, dirs, owner, d);
    SpacesKeys(dirs);
    AddDirCount(first, refs, owner, Spaces(dirs), d);
  }

  lemma AddKernelTable(first: nat, refs: seq<nat>, dirs: map<nat, Dir>, owner: map<nat, Owner>, d: nat, t: nat)
    requires DirsOk(dirs) && OwnersOk(first, refs, dirs, owner) && CountOk(first, refs, owner, Spaces(dirs))
    requires d in dirs && t in owner && owner[t] == Other
    ensures
      var dirs' := dirs[d := Dir(dirs[d].tabs, dirs[d].ktabs + [t])];
      var owner' := owner[t := OfKernelTable(d, |dirs[d].ktabs|)];
      && DirsOk(dirs') && Spaces(dirs') == Spaces(dirs)
      && OwnersOk(first, refs, dirs', owner') && CountOk(first, refs, owner', Spaces(dirs'))
  {
    var dirs' := dirs[d := Dir(dirs[d].tabs, dirs[d].ktabs + [t])];
    var owner' := owner[t := OfKernelTable(d, |dirs[d].ktabs|)];
    SameSpaces(dirs, d, dirs[d].ktabs + [t]);
    hide Spaces, DirsOk, CountOk, DirOwned;
    forall x | x in dirs' ensures DirOwned(x, dirs'[x], owner') {
      AddOwned(x, dirs[x], owner, d, dirs[d].ktabs, t);
    }
    CountKeys(first, refs, owner, owner', Spaces(dirs));
  }

  lemma SameSpaces(dirs: map<nat, Dir>, d: nat, ktabs: seq<nat>)
    requires DirsOk(dirs) && d in dirs
    ensures
      var dirs' := dirs[d := Dir(dirs[d].tabs, ktabs)];
      DirsOk(dirs') && Spaces(dirs') == Spaces(dirs)
  {
    SameEntries(dirs[d], Dir(dirs[d].tabs, ktabs));
    hide Flat, DirOk;
  }

  lemma CountKeys(first: nat, refs: seq<nat>, owner: map<nat, Owner>, owner': map<nat, Owner>, spaces: map<nat, Space>)
    requires CountOk(first, refs, owner, spaces) && forall f :: f in owner <==> f in owner'
    ensures CountOk(first, refs, owner', spaces)
  {
    hide PtesOf;
  }

  lemma AddOwned(x: nat, dir: Dir, owner: map<nat, Owner>, d: nat, ktabs: seq<nat>, t: nat)
    requires DirOwned(x, dir, owner) && t in owner && owner[t] == Other && (x == d ==> dir.ktabs == ktabs)
    ensures DirOwned(x, if x == d then Dir(dir.tabs, ktabs + [t]) else dir, owner[t := OfKernelTable(d, |ktabs|)])
  {
  }

  lemma SameEntries(d: Dir, d': Dir)
    requires DirOk(d) && d'.tabs == d.tabs
    ensures DirOk(d') && Flat(d') == Flat(d)
  {
  }

  lemma MinusNew(spaces: map<nat, Space>, d: nat)
    requires d !in spaces
    ensures spaces[d := map[]] - {d} == spaces
  {
  }

  // ----- freeing a directory

  ghost predicate Belongs(o: Owner, d: nat) {
    !o.Other? && o.d == d
  }

  ghost function Freed(o: Owner, d: nat): Owner {
    if Belongs(o, d) then Other else o
  }

  ghost function Relabel(owner: map<nat, Owner>, d: nat): map<nat, Owner> {
    map f | f in owner :: Freed(owner[f], d)
  }

  /** The frames of directory d from table i and kernel table k on are still to be freed. */
  ghost predicate Pending(owner0: map<nat, Owner>, owner: map<nat, Owner>, d: nat, i: nat, k: nat) {
    forall f :: f in owner0 && Belongs(owner0[f], d)
      && (owner0[f].OfTable? ==> owner0[f].i >= i) && (owner0[f].OfKernelTable? ==> owner0[f].i >= k)
      ==> f in owner && owner[f] == Other
  }

  lemma EmptySpace(dirs: map<nat, Dir>, spaces0: map<nat, Space>, d: nat)
    requires DirsOk(dirs) && d in dirs && d in spaces0
    requires Shrunk(spaces0, Spaces(dirs), d, PageCount(0), PageCount(NUSERPAGES * PGSIZE))
    ensures Spaces(dirs)[d] == map[] && Spaces(dirs) - {d} == spaces0 - {d}
  {
  }

  lemma Detach(first: nat, refs: seq<nat>, dirs: map<nat, Dir>, owner: map<nat, Owner>, d: nat)
    requires DirsOk(dirs) && OwnersOk(first, refs, dirs, owner) && CountOk(first, refs, owner, Spaces(dirs))
    requires d in dirs && Spaces(dirs)[d] == map[]
    ensures DirsOk(dirs - {d}) && Spaces(dirs - {d}) == Spaces(dirs) - {d}
    ensures OwnersOk(first, refs, dirs - {d}, Relabel(owner, d))
    ensures CountOk(first, refs, Relabel(owner, d), Spaces(dirs - {d}))
    ensures DirOwned(d, dirs[d], owner) && Pending(owner, Relabel(owner, d), d, 0, 0)
  {
    assert Spaces(dirs - {d}) == Spaces(dirs) - {d};
    hide DirOk;
    DetachOwned(first, refs, dirs, owner, d);
    forall f: nat ensures PtesOf(Spaces(dirs) - {d}, f) == PtesOf(Spaces(dirs), f) {
      EmptyPtes(Spaces(dirs), d, f);
    }
  }

  lemma DetachOwned(first: nat, refs: seq<nat>, dirs: map<nat, Dir>, owner: map<nat, Owner>, d: nat)
    requires OwnersOk(first, refs, dirs, owner) && d in dirs
    ensures OwnersOk(first, refs, dirs - {d}, Relabel(owner, d))
  {
  }

  lemma EmptyPtes(spaces: map<nat, Space>, d: nat, f: nat)
    requires d in spaces && spaces[d] == map[]
    ensures PtesOf(spaces - {d}, f) == PtesOf(spaces, f)
  {
  }

  lemma WithinMinus(spaces: map<nat, Space>, d: nat)
    ensures Within(spaces - {d}, spaces)
  {
  }

  // ----- growing

  lemma GrowNothing(s: Sys, d: nat, oldsz: nat, newsz: nat)
    requires Inv(s) && d in s.spaces && Sized(s.spaces[d], oldsz)
    ensures GrowStep(s, s, d, PageCount(oldsz), PageCount(newsz), false)
    ensures GrowStep(s, s, d, PageCount(oldsz), PageCount(oldsz), true)
    ensures newsz < oldsz ==> GrowStep(s, s, d, PageCount(oldsz), PageCount(newsz), true)
  {
    SizedPages(s.spaces[d], oldsz);
  }

  lemma SizedAll(a: Space, sz: nat)
    requires Sized(a, sz)
    ensures forall b :: 0 <= b < sz ==> b / PGSIZE in a
  {
    hide Sized;
    forall b | 0 <= b < sz ensures b / PGSIZE in a {
      SizedBytes(a, sz, b);
    }
  }

  lemma GrownSized(s: Sys, s': Sys, d: nat, oldsz: nat, newsz: nat)
    requires d in s.spaces && Sized(s.spaces[d], oldsz) && oldsz <= newsz
    requires GrowStep(s, s', d, PageCount(oldsz), PageCount(newsz), true)
    ensures d in s'.spaces && Sized(s'.spaces[d], newsz)
  {
    hide Kept, NewPages, Injective;
    SizedPages(s.spaces[d], oldsz);
    SizedPages(s'.spaces[d], newsz);
  }

  lemma NotGrown(s: Sys, s': Sys, d: nat, lo: nat, hi: nat)
    requires GrowStep(s, s', d, lo, hi, false)
    ensures s'.spaces == s.spaces
  {
  }

  /** Of a, exactly the pages that begin from newsz on and below oldsz are gone. */
  ghost predicate DropsBytes(a: Space, a': Space, newsz: nat, oldsz: nat) {
    && (forall v :: v in a' ==> v in a && a'[v] == a[v])
    && forall v :: v in a ==> (v in a' <==> v * PGSIZE < newsz || v * PGSIZE >= oldsz)
  }

  lemma BelowBytes(a: Space, newsz: nat, oldsz: nat)
    ensures DropsBytes(a, Below(a, PageCount(newsz), PageCount(oldsz)), newsz, oldsz)
  {
    forall v: nat ensures v < PageCount(newsz) <==> v * PGSIZE < newsz {
      PageCountAt(newsz, v);
    }
    forall v: nat ensures v < PageCount(oldsz) <==> v * PGSIZE < oldsz {
      PageCountAt(oldsz, v);
    }
  }

  /** b maps the frames of a, read-only. */
  ghost predicate SharesAll(a: Space, b: Space) {
    b.Keys == a.Keys && forall v :: v in a ==> b[v] == Pte(a[v].frame, false, a[v].u)
  }

  lemma ForkShares(s: Sys, s': Sys, p: nat, c: nat, n: nat, sz: nat)
    requires ForkStep(s, s', p, c, true, n) && Sized(s.spaces[p], sz)
    ensures p in s'.spaces && c in s'.spaces && c !in s.spaces && s'.spaces[p] == s'.spaces[c]
    ensures SharesAll(s.spaces[p], s'.spaces[c]) && Sized(s'.spaces[c], sz)
  {
    hide Kept;
  }

  lemma GrowNext(s: Sys, s': Sys, d: nat, lo: nat, v: nat, hi: nat)
    requires GrowStep(s, s', d, lo, v, true) && lo <= v < hi && forall x :: lo <= x < hi ==> x !in s.spaces[d]
    ensures d in s'.spaces && v !in s'.spaces[d]
  {
  }

  lemma NoPtes(spaces: map<nat, Space>, f: nat)
    requires PtesOf(spaces, f) == {}
    ensures Unmapped(spaces, f)
  {
    forall p, v | p in spaces && v in spaces[p] ensures spaces[p][v].frame != f {
      assert (p, v) !in PtesOf(spaces, f);
    }
  }

  lemma GrownUnmapped(s: Sys, s1: Sys, d: nat, lo: nat, v: nat, f: nat)
    requires GrowStep(s, s1, d, lo, v, true) && Unmapped(s1.spaces, f)
    ensures Unmapped(s.spaces, f)
  {
  }

  /** Mapping a fresh zeroed page at v extends the growth by one page. */
  lemma GrowOne(s: Sys, s1: Sys, s2: Sys, d: nat, lo: nat, v: nat, f: nat)
    requires GrowStep(s, s1, d, lo, v, true) && lo <= v && d in s1.spaces && v !in s1.spaces[d] && v !in s.spaces[d]
    requires f < |s1.data| && PtesOf(s1.spaces, f) == {}
    requires s2 == Sys(Map(s1.spaces, d, v, Pte(f, true, true)), s1.data[f := ZeroPage()])
    ensures GrowStep(s, s2, d, lo, v + 1, true)
  {
    hide Kept, NewPage, Injective, PtesOf, Unmapped, Grown, NewPages, Map;
    NoPtes(s1.spaces, f);
    GrownUnmapped(s, s1, d, lo, v, f);
    StoreKept(s.spaces, s.data, s1.data, f);
    InjectiveMap(s1.spaces, d, v, Pte(f, true, true));
    GrownNext(s.spaces, s1.spaces, d, lo, v, Pte(f, true, true));
    NewPagesNext(s, s1, s2, d, lo, v, f);
  }

  lemma GrownNext(spaces: map<nat, Space>, spaces1: map<nat, Space>, d: nat, lo: nat, v: nat, e: Pte)
    requires Grown(spaces, spaces1, d, lo, v) && lo <= v && v !in spaces[d]
    ensures Grown(spaces, Map(spaces1, d, v, e), d, lo, v + 1)
  {
  }

  lemma NewPagesNext(s: Sys, s1: Sys, s2: Sys, d: nat, lo: nat, v: nat, f: nat)
    requires NewPages(s, s1, d, lo, v) && lo <= v && v !in s1.spaces[d]
    requires f < |s1.data| && Unmapped(s1.spaces, f) && Unmapped(s.spaces, f)
    requires s2 == Sys(Map(s1.spaces, d, v, Pte(f, true, true)), s1.data[f := ZeroPage()])
    ensures NewPages(s, s2, d, lo, v + 1)
  {
  }

  lemma StoreKept(spaces: map<nat, Space>, data: seq<Page>, data1: seq<Page>, f: nat)
    requires Kept(spaces, data, data1) && f < |data1| && Unmapped(spaces, f)
    ensures Kept(spaces, data, data1[f := ZeroPage()])
  {
  }

  lemma InjectiveMap(spaces: map<nat, Space>, d: nat, v: nat, e: Pte)
    requires d in spaces && Injective(spaces[d]) && Unmapped(spaces, e.frame)
    ensures Injective(Map(spaces, d, v, e)[d])
  {
  }

  lemma GrowUndone(s: Sys, s1: Sys, s2: Sys, s3: Sys, d: nat, lo: nat, v: nat, hi: nat)
    requires GrowStep(s, s1, d, lo, v, true) && lo <= v <= hi && forall x :: lo <= x < hi ==> x !in s.spaces[d]
    requires s2.spaces == s1.spaces && Kept(s1.spaces, s1.data, s2.data)
    requires Shrunk(s2.spaces, s3.spaces, d, lo, hi) && Kept(s3.spaces, s2.data, s3.data)
    ensures GrowStep(s, s3, d, lo, hi, false)
  {
    GrowBelow(s, s1, d, lo, v, hi);
    assert s3.spaces == s.spaces;
    assert Within(s.spaces, s1.spaces);
    hide GrowStep, Shrunk;
    GrowIsKept(s, s1, d, lo, v, true);
    KeptMono(s.spaces, s1.spaces, s1.data, s2.data);
    KeptTrans(s.spaces, s.spaces, s.data, s1.data, s2.data);
    KeptTrans(s.spaces, s.spaces, s.data, s2.data, s3.data);
    GrowFailed(s, s3, d, lo, hi);
  }

  lemma GrowIsKept(s: Sys, s1: Sys, d: nat, lo: nat, v: nat, ok: bool)
    requires GrowStep(s, s1, d, lo, v, ok)
    ensures Kept(s.spaces, s.data, s1.data)
  {
  }

  lemma GrowFailed(s: Sys, s3: Sys, d: nat, lo: nat, hi: nat)
    requires d in s.spaces && s3.spaces == s.spaces && Kept(s.spaces, s.data, s3.data)
    requires forall x :: lo <= x < hi ==> x !in s.spaces[d]
    ensures GrowStep(s, s3, d, lo, hi, false)
  {
  }

  lemma GrowBelow(s: Sys, s1: Sys, d: nat, lo: nat, v: nat, hi: nat)
    requires GrowStep(s, s1, d, lo, v, true) && lo <= v <= hi && forall x :: lo <= x < hi ==> x !in s.spaces[d]
    ensures Below(s1.spaces[d], lo, hi) == s.spaces[d]
  {
  }

  lemma GrowKept(s: Sys, s3: Sys, s4: Sys, d: nat, lo: nat, hi: nat)
    requires GrowStep(s, s3, d, lo, hi, false) && s4.spaces == s3.spaces && Kept(s3.spaces, s3.data, s4.data)
    ensures GrowStep(s, s4, d, lo, hi, false)
  {
  }

  // ----- frames that are not user memory

  lemma AddOther(first: nat, refs: seq<nat>, dirs: map<nat, Dir>, owner: map<nat, Owner>, f: nat)
    requires OwnersOk(first, refs, dirs, owner) && first <= f < |refs| && refs[f] == 0
    ensures f !in owner && OwnersOk(first, refs[f := 1], dirs, owner[f := Other])
    ensures Extended(refs, owner, refs[f := 1], owner[f := Other])
  {
  }

  lemma RemoveOther(first: nat, refs: seq<nat>, dirs: map<nat, Dir>, owner: map<nat, Owner>, f: nat, n: nat)
    requires OwnersOk(first, refs, dirs, owner) && f in owner && owner[f] == Other
    ensures first <= f < |refs| && refs[f] == 1 && OwnersOk(first, refs[f := n], dirs, owner - {f})
    ensures refs[f := 1] == refs
  {
  }

  lemma OwnedUnmapped(first: nat, refs: seq<nat>, owner: map<nat, Owner>, spaces: map<nat, Space>, f: nat)
    requires CountOk(first, refs, owner, spaces) && f in owner
    ensures PtesOf(spaces, f) == {}
  {
  }

  lemma FreeCount(first: nat, refs: seq<nat>, owner: map<nat, Owner>, spaces: map<nat, Space>, f: nat)
    requires CountOk(first, refs, owner, spaces) && f in owner && first <= f < |refs|
    ensures CountOk(first, refs[f := 0], owner - {f}, spaces)
  {
  }

  lemma ExtendedOwner(refs: seq<nat>, owner: map<nat, Owner>, refs': seq<nat>, owner': map<nat, Owner>, f: nat)
    requires Extended(refs, owner, refs', owner') && f in owner
    ensures f in owner' && owner'[f] == owner[f]
  {
  }

  /** A page with one reference becomes user memory by being mapped once. */
  lemma MapFreshCount(first: nat, refs: seq<nat>, owner: map<nat, Owner>, spaces: map<nat, Space>, p: nat, v: nat,
                      e: Pte)
    requires CountOk(first, refs, owner, spaces) && p in spaces && v !in spaces[p]
    requires e.frame in owner && first <= e.frame < |refs| && refs[e.frame] == 1
    ensures CountOk(first, refs, owner - {e.frame}, Map(spaces, p, v, e))
  {
    hide PtesOf, Map;
    forall g: nat
      ensures PtesOf(Map(spaces, p, v, e), g) == if g == e.frame then {(p, v)} else PtesOf(spaces, g)
    {
      PtesMap(spaces, p, v, e, g);
      assert g == e.frame ==> PtesOf(spaces, g) == {};
    }
  }

  // ----- shrinking

  ghost predicate Shrunk(spaces: map<nat, Space>, spaces': map<nat, Space>, d: nat, lo: nat, hi: nat) {
    d in spaces && spaces' == spaces[d := Below(spaces[d], lo, hi)]
  }

  lemma BelowEmpty(a: Space, lo: nat, hi: nat)
    requires lo >= hi
    ensures Below(a, lo, hi) == a
  {
  }

  lemma SkipTable(dirs: map<nat, Dir>, d: nat, v: nat, w: nat)
    requires DirsOk(dirs) && d in dirs && v < NUSERPAGES && dirs[d].tabs[v / NPTENTRIES] == None
    requires v <= w <= (v / NPTENTRIES + 1) * NPTENTRIES
    ensures forall x :: v <= x < w ==> x !in Spaces(dirs)[d]
  {
  }

  lemma UnmapWithin(spaces: map<nat, Space>, d: nat, v: nat)
    requires d in spaces
    ensures Within(Unmap(spaces, d, v), spaces)
  {
  }

  lemma KeptMono(small: map<nat, Space>, big: map<nat, Space>, d0: seq<Page>, d1: seq<Page>)
    requires Kept(big, d0, d1) && Within(small, big)
    ensures Kept(small, d0, d1)
  {
  }

  lemma SpacesKeys(dirs: map<nat, Dir>)
    requires DirsOk(dirs)
    ensures Spaces(dirs).Keys == dirs.Keys
  {
  }

  lemma SpacesAt(dirs: map<nat, Dir>, d: nat, v: nat)
    requires DirsOk(dirs) && d in dirs && v < NUSERPAGES
    ensures d in Spaces(dirs)
    ensures v in Spaces(dirs)[d] <==> Entry(dirs[d], v).Some?
    ensures Entry(dirs[d], v).Some? ==>
              dirs[d].tabs[v / NPTENTRIES].Some? && Spaces(dirs)[d][v] == Entry(dirs[d], v).value
  {
  }

  lemma DropOwners(first: nat, refs: seq<nat>, dirs: map<nat, Dir>, owner: map<nat, Owner>, f: nat, n: nat)
    requires OwnersOk(first, refs, dirs, owner) && f < |refs| && f !in owner
    ensures OwnersOk(first, refs[f := n], dirs, owner)
  {
  }

  lemma FreeLength(first: nat, freelist: seq<nat>, refs: seq<nat>)
    requires FreeOk(first, freelist, refs)
    ensures |refs| == NUMPAGES
  {
  }

  lemma NoEntry(first: nat, refs: seq<nat>, owner: map<nat, Owner>, spaces: map<nat, Space>, f: nat)
    requires CountOk(first, refs, owner, spaces) && first <= f < |refs| && f !in owner && refs[f] == 0
    ensures PtesOf(spaces, f) == {}
  {
  }

  lemma KeptSame(spaces: map<nat, Space>, data: seq<Page>)
    ensures Kept(spaces, data, data)
  {
  }
}
