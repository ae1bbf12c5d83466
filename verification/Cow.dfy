/** Copy-on-write fork against eager fork. A system is the user page tables of
    every address space and the contents of physical pages; its meaning is what
    each process sees. */
module Cow {
  import opened Blocks

  const PGSIZE := 4096

  type Page = p: seq<Byte> | |p| == PGSIZE witness seq(PGSIZE, _ => 0)

  function ZeroPage(): Page {
    seq(PGSIZE, _ => 0)
  }

  /** A present page table entry: frame number, PTE_W and PTE_U. */
  datatype Pte = Pte(frame: nat, w: bool, u: bool)

  /** The present entries of one page table, by virtual page number. */
  type Space = map<nat, Pte>

  function Map(spaces: map<nat, Space>, p: nat, v: nat, e: Pte): map<nat, Space>
    requires p in spaces
  {
    var a: Space := spaces[p][v := e];
    spaces[p := a]
  }

  function Unmap(spaces: map<nat, Space>, p: nat, v: nat): map<nat, Space>
    requires p in spaces
  {
    spaces[p := spaces[p] - {v}]
  }

  datatype Sys = Sys(spaces: map<nat, Space>, data: seq<Page>)

  datatype UPage = UPage(user: bool, bytes: Page)

  // ----- the counted references

  /** The entries, over all address spaces, that map frame f. */
  ghost function PtesOf(spaces: map<nat, Space>, f: nat): set<(nat, nat)> {
    set p, v | p in spaces && v in spaces[p] && spaces[p][v].frame == f :: (p, v)
  }

  ghost predicate Injective(a: Space) {
    forall v, x :: v in a && x in a && v != x ==> a[v].frame != a[x].frame
  }

  lemma PtesMap(spaces: map<nat, Space>, p: nat, v: nat, e: Pte, f: nat)
    requires p in spaces && v !in spaces[p]
    ensures PtesOf(Map(spaces, p, v, e), f) ==
              if f == e.frame then PtesOf(spaces, f) + {(p, v)} else PtesOf(spaces, f)
    ensures (p, v) !in PtesOf(spaces, f)
  {
  }

  lemma PtesUnmap(spaces: map<nat, Space>, p: nat, v: nat, f: nat)
    requires p in spaces && v in spaces[p]
    ensures PtesOf(Unmap(spaces, p, v), f) ==
              if f == spaces[p][v].frame then PtesOf(spaces, f) - {(p, v)} else PtesOf(spaces, f)
    ensures (p, v) in PtesOf(spaces, f) <==> f == spaces[p][v].frame
  {
  }

  /** Changing only the W bit of an entry changes no count. */
  lemma PtesProtect(spaces: map<nat, Space>, p: nat, v: nat, w: bool, f: nat)
    requires p in spaces && v in spaces[p]
    ensures PtesOf(Map(spaces, p, v, spaces[p][v].(w := w)), f) == PtesOf(spaces, f)
  {
  }

  /** A frame is mapped at most once by each address space, so the count is at
      most the number of address spaces. */
  /** The address spaces that map some page; the kernel's own and one that exec() has
      just begun map none. */
  ghost function Users(spaces: map<nat, Space>): set<nat> {
    set p | p in spaces && spaces[p] != map[]
  }

  lemma CountBound(spaces: map<nat, Space>, f: nat)
    requires forall p :: p in spaces ==> Injective(spaces[p])
    ensures |PtesOf(spaces, f)| <= |Users(spaces)|
  {
    CountBySpace(PtesOf(spaces, f), Users(spaces));
  }

  lemma {:induction false} CountBySpace(s: set<(nat, nat)>, ks: set<nat>)
    requires forall x :: x in s ==> x.0 in ks
    requires forall x, y :: x in s && y in s && x.0 == y.0 ==> x == y
    ensures |s| <= |ks|
    decreases |ks|
  {
    if s != {} {
      var x :| x in s;
      CountBySpace(s - {x}, ks - {x.0});
    }
  }

  // ----- the steps of the copy-on-write system

  datatype Step =
    | Fork(p: nat, c: nat, ok: bool, reached: nat)       // cowuvm, as far as page reached
    | Write(p: nat, v: nat, bytes: Page, ok: bool)       // a user store, its fault resolved
    | Grow(p: nat, from: nat, to: nat, ok: bool)         // allocuvm
    | Shrink(p: nat, from: nat, to: nat)                 // deallocuvm
    | Exit(p: nat)                                       // freevm

  ghost function Protect(e: Pte, keep: bool): Pte {
    Pte(e.frame, e.w && keep, e.u)
  }

  /** Clear PTE_W on the pages below n. */
  ghost function ReadOnly(a: Space, n: nat): Space {
    map v: nat | v in a :: Protect(a[v], v >= n)
  }

  ghost predicate Unmapped(spaces: map<nat, Space>, f: nat) {
    forall p, v :: p in spaces && v in spaces[p] ==> spaces[p][v].frame != f
  }

  /** Every page that spaces map has kept its contents. */
  ghost predicate Kept(spaces: map<nat, Space>, data: seq<Page>, data': seq<Page>) {
    && |data| == |data'|
    && forall p, v :: p in spaces && v in spaces[p] && spaces[p][v].frame < |data| ==>
         data'[spaces[p][v].frame] == data[spaces[p][v].frame]
  }

  ghost function Forked(spaces: map<nat, Space>, p: nat, c: nat, ok: bool, ro: Space): map<nat, Space> {
    if ok then spaces[p := ro][c := ro] else spaces[p := ro]
  }

  ghost predicate ForkStep(s: Sys, s': Sys, p: nat, c: nat, ok: bool, reached: nat) {
    && p in s.spaces && Kept(s.spaces, s.data, s'.data)
    && (ok ==> c !in s.spaces && forall v :: v in s.spaces[p] ==> v < reached)
    && s'.spaces == Forked(s.spaces, p, c, ok, ReadOnly(s.spaces[p], reached))
  }

  /** A store to page v, as the hardware and handlepgflt make it. */
  ghost predicate WriteStep(s: Sys, s': Sys, p: nat, v: nat, bytes: Page, ok: bool) {
    p in s.spaces && v in s.spaces[p] && s.spaces[p][v].frame < |s.data| &&
    StoreStep(s, s', p, v, s.spaces[p][v], bytes, ok)
  }

  ghost predicate StoreStep(s: Sys, s': Sys, p: nat, v: nat, e: Pte, bytes: Page, ok: bool)
    requires p in s.spaces && e.frame < |s.data|
  {
    if e.w then ok && s' == Sys(s.spaces, s.data[e.frame := bytes])
    else if |PtesOf(s.spaces, e.frame)| <= 1 then
      ok && s' == Sys(Map(s.spaces, p, v, Pte(e.frame, true, e.u)), s.data[e.frame := bytes])
    else if !ok then s' == s
    else exists g :: CopyStep(s, s', p, v, e, bytes, g)
  }

  ghost predicate CopyStep(s: Sys, s': Sys, p: nat, v: nat, e: Pte, bytes: Page, g: nat)
    requires p in s.spaces
  {
    && g < |s.data| && Unmapped(s.spaces, g)
    && s' == Sys(Map(s.spaces, p, v, Pte(g, true, e.u)), s.data[g := bytes])
  }

  /** p has gained the pages lo..hi, and nothing else has changed. */
  ghost predicate Grown(spaces: map<nat, Space>, spaces': map<nat, Space>, p: nat, lo: nat, hi: nat) {
    && p in spaces && spaces'.Keys == spaces.Keys
    && (forall q :: q in spaces && q != p ==> spaces'[q] == spaces[q])
    && (forall v :: v in spaces[p] ==> v in spaces'[p] && spaces'[p][v] == spaces[p][v])
    && (forall v :: v in spaces'[p] ==> v in spaces[p] || lo <= v < hi)
    && (forall v :: lo <= v < hi ==> v in spaces'[p])
  }

  ghost predicate NewPages(s: Sys, s': Sys, p: nat, lo: nat, hi: nat) {
    p in s'.spaces && forall v :: lo <= v < hi ==> v in s'.spaces[p] && NewPage(s, s', s'.spaces[p][v])
  }

  ghost predicate GrowStep(s: Sys, s': Sys, p: nat, lo: nat, hi: nat, ok: bool) {
    && p in s.spaces && Kept(s.spaces, s.data, s'.data)
    && (forall v :: lo <= v < hi ==> v !in s.spaces[p])
    && if !ok then s'.spaces == s.spaces
       else Grown(s.spaces, s'.spaces, p, lo, hi) && NewPages(s, s', p, lo, hi) && Injective(s'.spaces[p])
  }

  ghost predicate NewPage(s: Sys, s': Sys, e: Pte) {
    && e.w && e.u && e.frame < |s'.data| && s'.data[e.frame] == ZeroPage()
    && Unmapped(s.spaces, e.frame)
  }

  ghost function Below(a: Space, from: nat, to: nat): Space {
    map v | v in a && !(from <= v < to) :: a[v]
  }

  ghost predicate ShrinkStep(s: Sys, s': Sys, p: nat, lo: nat, hi: nat) {
    && p in s.spaces && s'.spaces == s.spaces[p := Below(s.spaces[p], lo, hi)]
    && Kept(s'.spaces, s.data, s'.data)
  }

  ghost predicate ExitStep(s: Sys, s': Sys, p: nat) {
    p in s.spaces && s'.spaces == s.spaces - {p} && Kept(s'.spaces, s.data, s'.data)
  }

  ghost predicate Next(s: Sys, t: Step, s': Sys) {
    match t
    case Fork(p, c, ok, reached) => ForkStep(s, s', p, c, ok, reached)
    case Write(p, v, bytes, ok) => WriteStep(s, s', p, v, bytes, ok)
    case Grow(p, from, to, ok) => GrowStep(s, s', p, from, to, ok)
    case Shrink(p, from, to) => ShrinkStep(s, s', p, from, to)
    case Exit(p) => ExitStep(s, s', p)
  }

  // ----- the eager model: fork copies every page

  type Eager = map<nat, map<nat, UPage>>

  ghost function Pages(lo: nat, hi: nat): (ps: set<nat>)
    ensures forall v :: v in ps <==> lo <= v < hi
    decreases hi - lo
  {
    if lo >= hi then {} else {lo} + Pages(lo + 1, hi)
  }

  ghost function EagerGrow(a: map<nat, UPage>, from: nat, to: nat): map<nat, UPage> {
    map v: nat | v in a.Keys + Pages(from, to) :: if v in a then a[v] else UPage(true, ZeroPage())
  }

  ghost function EagerShrink(a: map<nat, UPage>, from: nat, to: nat): map<nat, UPage> {
    map v | v in a && !(from <= v < to) :: a[v]
  }

  ghost predicate EagerNext(g: Eager, t: Step, g': Eager) {
    match t
    case Fork(p, c, ok, _) => p in g && g' == if ok then g[c := g[p]] else g
    case Write(p, v, bytes, ok) =>
      && p in g && v in g[p]
      && g' == if ok then g[p := g[p][v := UPage(g[p][v].user, bytes)]] else g
    case Grow(p, from, to, ok) => p in g && g' == if ok then g[p := EagerGrow(g[p], from, to)] else g
    case Shrink(p, from, to) => p in g && g' == g[p := EagerShrink(g[p], from, to)]
    case Exit(p) => p in g && g' == g - {p}
  }

  // ----- what processes see

  ghost function See(a: Space, data: seq<Page>): map<nat, UPage> {
    map v | v in a && a[v].frame < |data| :: UPage(a[v].u, data[a[v].frame])
  }

  ghost function View(s: Sys): Eager {
    map p | p in s.spaces :: See(s.spaces[p], s.data)
  }

  /** No other entry maps the frame of entry v of p. */
  ghost predicate Alone(spaces: map<nat, Space>, p: nat, v: nat)
    requires p in spaces && v in spaces[p]
  {
    forall q, x :: q in spaces && x in spaces[q] && spaces[q][x].frame == spaces[p][v].frame ==> q == p && x == v
  }

  ghost predicate WritableAlone(spaces: map<nat, Space>) {
    forall p, v :: p in spaces && v in spaces[p] && spaces[p][v].w ==> Alone(spaces, p, v)
  }

  /** An entry is alone exactly when the reference count of its frame is 1. */
  lemma AloneIsCountOne(spaces: map<nat, Space>, p: nat, v: nat)
    requires p in spaces && v in spaces[p]
    ensures Alone(spaces, p, v) <==> |PtesOf(spaces, spaces[p][v].frame)| == 1
  {
    var s := PtesOf(spaces, spaces[p][v].frame);
    assert (p, v) in s;
    if Alone(spaces, p, v) {
      assert s == {(p, v)};
    } else if |s| == 1 {
      assert |s - {(p, v)}| == 0;
      forall q, x | q in spaces && x in spaces[q] && spaces[q][x].frame == spaces[p][v].frame ensures q == p && x == v {
        assert (q, x) in s && (q, x) !in s - {(p, v)};
      }
    }
  }

  ghost predicate Inv(s: Sys) {
    && (forall p, v :: p in s.spaces && v in s.spaces[p] ==> s.spaces[p][v].frame < |s.data|)
    && (forall p :: p in s.spaces ==> Injective(s.spaces[p]))
    && WritableAlone(s.spaces)
  }

  lemma SeeKept(a: Space, spaces: map<nat, Space>, p: nat, data: seq<Page>, data': seq<Page>)
    requires p in spaces && spaces[p] == a && Kept(spaces, data, data')
    ensures See(a, data') == See(a, data)
  {
  }

  lemma ForkSees(s: Sys, s': Sys, p: nat, c: nat, ok: bool, reached: nat, q: nat)
    requires ForkStep(s, s', p, c, ok, reached) && q in s'.spaces
    ensures
      var q0 := if ok && q == c then p else q;
      q0 in s.spaces && See(s'.spaces[q], s'.data) == See(s.spaces[q0], s.data)
  {
  }

  lemma ForkKeys(s: Sys, s': Sys, p: nat, c: nat, ok: bool, reached: nat)
    requires ForkStep(s, s', p, c, ok, reached)
    ensures p in s.spaces && s'.spaces.Keys == if ok then s.spaces.Keys + {c} else s.spaces.Keys
    ensures ok ==> c !in s.spaces
  {
    hide Kept, ReadOnly;
  }

  lemma ForkSimulates(s: Sys, s': Sys, p: nat, c: nat, ok: bool, reached: nat)
    requires ForkStep(s, s', p, c, ok, reached)
    ensures EagerNext(View(s), Fork(p, c, ok, reached), View(s'))
  {
    ForkKeys(s, s', p, c, ok, reached);
    var g, g' := View(s), View(s');
    assert g.Keys == s.spaces.Keys && g'.Keys == s'.spaces.Keys;
    forall q | q in g' ensures g'[q] == if ok && q == c then g[p] else g[q] {
      hide See, ForkStep;
      ForkSees(s, s', p, c, ok, reached, q);
    }
    hide View, See, ForkStep;
    var h: Eager := if ok then g[c := g[p]] else g;
    assert g'.Keys == h.Keys;
    assert g' == h;
  }

  lemma ForkInjective(s: Sys, s': Sys, p: nat, c: nat, ok: bool, reached: nat)
    requires Inv(s) && ForkStep(s, s', p, c, ok, reached)
    ensures forall q :: q in s'.spaces ==> Injective(s'.spaces[q])
    ensures forall q, v :: q in s'.spaces && v in s'.spaces[q] ==> s'.spaces[q][v].frame < |s'.data|
  {
  }

  lemma ForkAloneAt(s: Sys, s': Sys, p: nat, c: nat, ok: bool, reached: nat, a: nat, v: nat)
    requires ForkStep(s, s', p, c, ok, reached)
    requires a in s.spaces && v in s.spaces[a] && Alone(s.spaces, a, v)
    requires a in s'.spaces && v in s'.spaces[a] && s'.spaces[a][v].frame == s.spaces[a][v].frame
    requires ok ==> a != p
    ensures Alone(s'.spaces, a, v)
  {
  }

  lemma ForkAlone(s: Sys, s': Sys, p: nat, c: nat, ok: bool, reached: nat)
    requires WritableAlone(s.spaces) && ForkStep(s, s', p, c, ok, reached)
    ensures WritableAlone(s'.spaces)
  {
    hide Kept, Alone;
    forall a, v | a in s'.spaces && v in s'.spaces[a] && s'.spaces[a][v].w ensures Alone(s'.spaces, a, v) {
      assert a in s.spaces && v in s.spaces[a] && s.spaces[a][v].w && s.spaces[a][v].frame == s'.spaces[a][v].frame;
      ForkAloneAt(s, s', p, c, ok, reached, a, v);
    }
  }

  /** Storing to a frame that nobody else maps is seen by its owner only. */
  lemma StoreSeen(spaces: map<nat, Space>, data: seq<Page>, p: nat, v: nat, bytes: Page, q: nat)
    requires p in spaces && v in spaces[p] && spaces[p][v].frame < |data| && Alone(spaces, p, v) && q in spaces
    ensures
      var a := See(spaces[q], data);
      See(spaces[q], data[spaces[p][v].frame := bytes]) ==
        if q == p then a[v := UPage(spaces[p][v].u, bytes)] else a
  {
  }

  lemma StoreView(s: Sys, p: nat, v: nat, bytes: Page)
    requires p in s.spaces && v in s.spaces[p] && s.spaces[p][v].frame < |s.data| && Alone(s.spaces, p, v)
    ensures EagerNext(View(s), Write(p, v, bytes, true), View(Sys(s.spaces, s.data[s.spaces[p][v].frame := bytes])))
  {
    hide See, Alone;
    var s' := Sys(s.spaces, s.data[s.spaces[p][v].frame := bytes]);
    forall q | q in s.spaces
      ensures View(s')[q] == if q == p then View(s)[p][v := UPage(s.spaces[p][v].u, bytes)] else View(s)[q]
    {
      StoreSeen(s.spaces, s.data, p, v, bytes, q);
    }
    SeeAt(s.spaces[p], s.data, v);
  }

  lemma SeeAt(a: Space, data: seq<Page>, v: nat)
    requires v in a && a[v].frame < |data|
    ensures v in See(a, data) && See(a, data)[v] == UPage(a[v].u, data[a[v].frame])
  {
  }

  ghost function Granted(spaces: map<nat, Space>, p: nat, v: nat): map<nat, Space>
    requires p in spaces && v in spaces[p]
  {
    Map(spaces, p, v, Pte(spaces[p][v].frame, true, spaces[p][v].u))
  }

  /** Only the W bit of one entry changes: nothing that is seen. */
  lemma GrantView(spaces: map<nat, Space>, data: seq<Page>, p: nat, v: nat)
    requires p in spaces && v in spaces[p]
    ensures View(Sys(Granted(spaces, p, v), data)) == View(Sys(spaces, data))
  {
    assert See(Granted(spaces, p, v)[p], data) == See(spaces[p], data);
  }

  lemma GrantSameFrames(spaces: map<nat, Space>, p: nat, v: nat)
    requires p in spaces && v in spaces[p]
    ensures
      var spaces': map<nat, Space> := Granted(spaces, p, v);
      forall q, x :: q in spaces && x in spaces[q] ==> (Alone(spaces', q, x) <==> Alone(spaces, q, x))
  {
    var spaces': map<nat, Space> := Granted(spaces, p, v);
    assert forall q: nat, x: nat :: q in spaces && x in spaces[q] ==> spaces'[q][x].frame == spaces[q][x].frame;
  }

  lemma GrantInv(spaces: map<nat, Space>, p: nat, v: nat)
    requires p in spaces && v in spaces[p] && Alone(spaces, p, v)
    requires forall q :: q in spaces ==> Injective(spaces[q])
    requires WritableAlone(spaces)
    ensures
      var spaces': map<nat, Space> := Granted(spaces, p, v);
      WritableAlone(spaces') && forall q :: q in spaces' ==> Injective(spaces'[q])
  {
  }

  lemma CopySees(s: Sys, s': Sys, p: nat, v: nat, bytes: Page, g: nat, q: nat)
    requires p in s.spaces && v in s.spaces[p] && CopyStep(s, s', p, v, s.spaces[p][v], bytes, g) && q in s.spaces
    ensures
      See(s'.spaces[q], s'.data) ==
        if q == p then See(s.spaces[p], s.data)[v := UPage(s.spaces[p][v].u, bytes)] else See(s.spaces[q], s.data)
  {
  }

  lemma CopyView(s: Sys, s': Sys, p: nat, v: nat, bytes: Page, g: nat)
    requires p in s.spaces && v in s.spaces[p] && s.spaces[p][v].frame < |s.data|
    requires CopyStep(s, s', p, v, s.spaces[p][v], bytes, g)
    ensures EagerNext(View(s), Write(p, v, bytes, true), View(s'))
  {
    hide See, Unmapped;
    forall q | q in s.spaces
      ensures View(s')[q] == if q == p then View(s)[p][v := UPage(s.spaces[p][v].u, bytes)] else View(s)[q]
    {
      CopySees(s, s', p, v, bytes, g, q);
    }
    SeeAt(s.spaces[p], s.data, v);
  }

  lemma CopyAlone(spaces: map<nat, Space>, p: nat, v: nat, e: Pte, q: nat, x: nat)
    requires p in spaces && Unmapped(spaces, e.frame)
    requires q in spaces && ((q == p && x == v) || (x in spaces[q] && Alone(spaces, q, x)))
    ensures Alone(Map(spaces, p, v, e), q, x)
  {
  }

  lemma CopyInv(s: Sys, s': Sys, p: nat, v: nat, bytes: Page, g: nat)
    requires Inv(s) && p in s.spaces && v in s.spaces[p] && CopyStep(s, s', p, v, s.spaces[p][v], bytes, g)
    ensures Inv(s')
  {
    hide Alone;
    forall q, x | q in s'.spaces && x in s'.spaces[q] && s'.spaces[q][x].w ensures Alone(s'.spaces, q, x) {
      CopyAlone(s.spaces, p, v, Pte(g, true, s.spaces[p][v].u), q, x);
    }
    assert Injective(s.spaces[p]) && Injective(s'.spaces[p]);
  }

  lemma WriteKeeps(s: Sys, s': Sys, p: nat, v: nat, bytes: Page, ok: bool)
    requires Inv(s) && WriteStep(s, s', p, v, bytes, ok)
    ensures Inv(s') && EagerNext(View(s), Write(p, v, bytes, ok), View(s'))
  {
    hide See, Alone, CopyStep;
    var e := s.spaces[p][v];
    if e.w {
      StoreView(s, p, v, bytes);
    } else if |PtesOf(s.spaces, e.frame)| <= 1 {
      assert (p, v) in PtesOf(s.spaces, e.frame);
      AloneIsCountOne(s.spaces, p, v);
      GrantSameFrames(s.spaces, p, v);
      GrantInv(s.spaces, p, v);
      GrantView(s.spaces, s.data, p, v);
      StoreView(Sys(Granted(s.spaces, p, v), s.data), p, v, bytes);
    } else if ok {
      var g :| CopyStep(s, s', p, v, e, bytes, g);
      CopyView(s, s', p, v, bytes, g);
      CopyInv(s, s', p, v, bytes, g);
    } else {
      SeeAt(s.spaces[p], s.data, v);
    }
  }

  lemma GrowSees(s: Sys, s': Sys, p: nat, lo: nat, hi: nat)
    requires GrowStep(s, s', p, lo, hi, true)
    ensures See(s'.spaces[p], s'.data) == EagerGrow(See(s.spaces[p], s.data), lo, hi)
  {
    hide Injective, Kept, Unmapped;
    SeeKept(s.spaces[p], s.spaces, p, s.data, s'.data);
    assert forall v :: lo <= v < hi ==> NewPage(s, s', s'.spaces[p][v]);
    var a, a' := EagerGrow(See(s.spaces[p], s.data), lo, hi), See(s'.spaces[p], s'.data);
    assert a.Keys == a'.Keys;
    assert a == a';
  }

  lemma GrowView(s: Sys, s': Sys, p: nat, lo: nat, hi: nat, ok: bool)
    requires GrowStep(s, s', p, lo, hi, ok)
    ensures EagerNext(View(s), Grow(p, lo, hi, ok), View(s'))
  {
    hide See, Kept, Injective, NewPage, EagerGrow;
    forall q | q in s.spaces ensures s'.spaces[q] == s.spaces[q] ==> View(s')[q] == View(s)[q] {
      SeeKept(s.spaces[q], s.spaces, q, s.data, s'.data);
    }
    if ok {
      GrowSees(s, s', p, lo, hi);
      assert View(s')[p] == See(s'.spaces[p], s'.data) && View(s)[p] == See(s.spaces[p], s.data);
    }
  }

  lemma GrowAlone(s: Sys, s': Sys, p: nat, lo: nat, hi: nat, q: nat, x: nat)
    requires GrowStep(s, s', p, lo, hi, true) && q in s'.spaces && x in s'.spaces[q]
    requires (q in s.spaces && x in s.spaces[q] && Alone(s.spaces, q, x)) || (q == p && lo <= x < hi)
    ensures Alone(s'.spaces, q, x)
  {
  }

  lemma GrowInv(s: Sys, s': Sys, p: nat, lo: nat, hi: nat, ok: bool)
    requires Inv(s) && GrowStep(s, s', p, lo, hi, ok)
    ensures Inv(s')
  {
    hide Alone, Injective;
    if ok {
      assert forall v :: lo <= v < hi ==> NewPage(s, s', s'.spaces[p][v]);
      forall q, x | q in s'.spaces && x in s'.spaces[q] && s'.spaces[q][x].w ensures Alone(s'.spaces, q, x) {
        GrowAlone(s, s', p, lo, hi, q, x);
      }
    }
  }

  /** Every entry of small is an entry of big. */
  ghost predicate Within(small: map<nat, Space>, big: map<nat, Space>) {
    forall p, v :: p in small && v in small[p] ==> p in big && v in big[p] && small[p][v] == big[p][v]
  }

  lemma WithinInv(s: Sys, s': Sys)
    requires Inv(s) && Within(s'.spaces, s.spaces) && |s'.data| == |s.data|
    requires forall p :: p in s'.spaces ==> p in s.spaces
    ensures Inv(s')
  {
  }

  lemma SeeBelow(a: Space, lo: nat, hi: nat, data: seq<Page>)
    ensures See(Below(a, lo, hi), data) == EagerShrink(See(a, data), lo, hi)
  {
  }

  lemma ShrinkView(s: Sys, s': Sys, p: nat, lo: nat, hi: nat)
    requires Next(s, Shrink(p, lo, hi), s')
    ensures EagerNext(View(s), Shrink(p, lo, hi), View(s'))
  {
    hide See, Below, EagerShrink, Kept;
    SeeBelow(s.spaces[p], lo, hi, s.data);
    forall q | q in s.spaces ensures See(s'.spaces[q], s'.data) == See(s'.spaces[q], s.data) {
      SeeKept(s'.spaces[q], s'.spaces, q, s.data, s'.data);
    }
  }

  lemma ExitView(s: Sys, s': Sys, p: nat)
    requires Next(s, Exit(p), s')
    ensures EagerNext(View(s), Exit(p), View(s'))
  {
    hide See, Kept;
    forall q | q in s'.spaces ensures See(s'.spaces[q], s'.data) == See(s.spaces[q], s.data) {
      SeeKept(s'.spaces[q], s'.spaces, q, s.data, s'.data);
    }
  }

  lemma StepKeeps(s: Sys, t: Step, s': Sys)
    requires Inv(s) && Next(s, t, s')
    ensures Inv(s') && EagerNext(View(s), t, View(s'))
  {
    hide Inv, EagerNext, View, ForkStep, WriteStep, GrowStep;
    match t
    case Fork(p, c, ok, reached) =>
      ForkSimulates(s, s', p, c, ok, reached);
      ForkInv(s, s', p, c, ok, reached);
    case Write(p, v, bytes, ok) =>
      WriteKeeps(s, s', p, v, bytes, ok);
    case Grow(p, from, to, ok) =>
      GrowView(s, s', p, from, to, ok);
      GrowInv(s, s', p, from, to, ok);
    case Shrink(p, from, to) =>
      ShrinkView(s, s', p, from, to);
      WithinInv(s, s');
    case Exit(p) =>
      ExitView(s, s', p);
      WithinInv(s, s');
  }

  lemma ForkInv(s: Sys, s': Sys, p: nat, c: nat, ok: bool, reached: nat)
    requires Inv(s) && ForkStep(s, s', p, c, ok, reached)
    ensures Inv(s')
  {
    hide ForkStep, WritableAlone, Injective;
    ForkInjective(s, s', p, c, ok, reached);
    ForkAlone(s, s', p, c, ok, reached);
  }

  // ----- whole runs

  ghost predicate IsRun(ss: seq<Sys>, ts: seq<Step>) {
    && |ss| == |ts| + 1 && Inv(ss[0])
    && forall i :: 0 <= i < |ts| ==> Next(ss[i], ts[i], ss[i + 1])
  }

  /** The eager model run through the same steps. */
  ghost predicate EagerRun(gs: seq<Eager>, ts: seq<Step>) {
    |gs| == |ts| + 1 && forall i :: 0 <= i < |ts| ==> EagerNext(gs[i], ts[i], gs[i + 1])
  }

  lemma {:induction false} RunKeeps(ss: seq<Sys>, ts: seq<Step>, n: nat)
    requires IsRun(ss, ts) && n <= |ts|
    ensures Inv(ss[n])
  {
    hide Inv, Next;
    if n > 0 {
      RunKeeps(ss, ts, n - 1);
      StepKeeps(ss[n - 1], ts[n - 1], ss[n]);
    }
  }

  /** EagerNext leaves no choice. */
  lemma EagerFunctional(g: Eager, t: Step, g1: Eager, g2: Eager)
    requires EagerNext(g, t, g1) && EagerNext(g, t, g2)
    ensures g1 == g2
  {
  }

  /** Copy-on-write isolation: whatever forks, stores, growth, shrinking and exits
      happen, and whichever of them run out of memory, every process sees what it
      would see if fork had copied every page, and a writable page is never shared. */
  lemma {:induction false} Isolation(ss: seq<Sys>, ts: seq<Step>, gs: seq<Eager>, n: nat)
    requires IsRun(ss, ts) && EagerRun(gs, ts) && gs[0] == View(ss[0]) && n <= |ts|
    ensures View(ss[n]) == gs[n]
    ensures forall p, v :: p in ss[n].spaces && v in ss[n].spaces[p] && ss[n].spaces[p][v].w ==>
              |PtesOf(ss[n].spaces, ss[n].spaces[p][v].frame)| == 1
  {
    if n > 0 {
      assert View(ss[n]) == gs[n] by {
        hide Inv, Next, View, EagerNext;
        Isolation(ss, ts, gs, n - 1);
        RunKeeps(ss, ts, n - 1);
        StepKeeps(ss[n - 1], ts[n - 1], ss[n]);
        EagerFunctional(gs[n - 1], ts[n - 1], View(ss[n]), gs[n]);
      }
    }
    RunKeeps(ss, ts, n);
    forall p, v | p in ss[n].spaces && v in ss[n].spaces[p] && ss[n].spaces[p][v].w
      ensures |PtesOf(ss[n].spaces, ss[n].spaces[p][v].frame)| == 1
    {
      AloneIsCountOne(ss[n].spaces, p, v);
    }
  }
}
