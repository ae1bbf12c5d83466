/** The storage allocator of user/umalloc.c. Addresses count units of sizeof(Header),
    8 bytes; 0 is the null pointer. */
module Umalloc {

  datatype Header = Header(ptr: nat, size: nat)

  datatype Span = Span(a: nat, n: nat)

  type Mem = map<nat, Header>

  // ----- the free list as spans in address order

  ghost predicate Apart(fs: seq<Span>) {
    forall i, j :: 0 <= i < j < |fs| ==> fs[i].a + fs[i].n < fs[j].a
  }

  function NextOf(fs: seq<Span>, i: nat): nat
    requires i < |fs|
  {
    if i + 1 < |fs| then fs[i + 1].a else fs[0].a
  }

  /** The headers in memory form one cycle through the spans. */
  ghost predicate Ring(mem: Mem, fs: seq<Span>) {
    forall i :: 0 <= i < |fs| ==> fs[i].a in mem && mem[fs[i].a] == Header(NextOf(fs, i), fs[i].n)
  }

  ghost predicate Covers(fs: seq<Span>, u: nat) {
    exists i :: 0 <= i < |fs| && fs[i].a <= u < fs[i].a + fs[i].n
  }

  /** The span [a, a + n) comes after span j and before the next one. */
  ghost predicate FitsAfter(fs: seq<Span>, j: nat, a: nat, n: nat) {
    && j < |fs| && fs[j].a < a && fs[j].a + fs[j].n <= a
    && (j + 1 < |fs| ==> a + n <= fs[j + 1].a) && 0 < n
  }

  /** The free list after [a, a + n) has been put behind span j, joined to its neighbours. */
  ghost function Placed(fs: seq<Span>, j: nat, a: nat, n: nat): seq<Span>
    requires j < |fs|
  {
    var up := j + 1 < |fs| && a + n == fs[j + 1].a;
    var m := if up then n + fs[j + 1].n else n;
    var rest := if up then fs[j + 2..] else fs[j + 1..];
    if fs[j].a + fs[j].n == a then fs[..j] + [Span(fs[j].a, fs[j].n + m)] + rest
    else fs[..j + 1] + [Span(a, m)] + rest
  }

  lemma PlacedApart(fs: seq<Span>, j: nat, a: nat, n: nat)
    requires Apart(fs) && FitsAfter(fs, j, a, n)
    ensures Apart(Placed(fs, j, a, n))
  {
    hide Placed;
    var fs' := Placed(fs, j, a, n);
    forall i, k | 0 <= i < k < |fs'| ensures fs'[i].a + fs'[i].n < fs'[k].a {
      PlacedAt(fs, j, a, n, i);
      PlacedAt(fs, j, a, n, k);
    }
  }

  /** free()'s two joins, on the headers. */
  function Joined(mem: Mem, p: nat, a: nat): Mem
    requires p in mem && a in mem && mem[p].ptr in mem
  {
    var q := mem[p].ptr;
    var h := if a + mem[a].size == q then Header(mem[q].ptr, mem[a].size + mem[q].size) else Header(q, mem[a].size);
    var mem1: Mem := mem[a := h];
    if p + mem1[p].size == a then mem1[p := Header(h.ptr, mem1[p].size + h.size)]
    else mem1[p := Header(a, mem1[p].size)]
  }

  predicate Up(fs: seq<Span>, j: nat, a: nat, n: nat) {
    j + 1 < |fs| && a + n == fs[j + 1].a
  }

  predicate Down(fs: seq<Span>, j: nat, a: nat)
    requires j < |fs|
  {
    fs[j].a + fs[j].n == a
  }

  /** Where the spans of the new list come from. */
  lemma PlacedAt(fs: seq<Span>, j: nat, a: nat, n: nat, i: nat)
    requires j < |fs| && i < |Placed(fs, j, a, n)|
    ensures
      var fs', up, down := Placed(fs, j, a, n), Up(fs, j, a, n), Down(fs, j, a);
      var m := if up then n + fs[j + 1].n else n;
      && |fs'| == |fs| + (if down then 0 else 1) - (if up then 1 else 0)
      && (i < j ==> fs'[i] == fs[i])
      && (i == j ==> fs'[i] == if down then Span(fs[j].a, fs[j].n + m) else fs[j])
      && (i == j + 1 && !down ==> fs'[i] == Span(a, m))
      && (i > j && (down || i > j + 1) ==>
            var k := (if down then i else i - 1) + if up then 1 else 0;
            j < k < |fs| && fs'[i] == fs[k])
  {
  }

  lemma PlacedCovers(fs: seq<Span>, j: nat, a: nat, n: nat, u: nat)
    requires FitsAfter(fs, j, a, n)
    ensures Covers(Placed(fs, j, a, n), u) <==> Covers(fs, u) || a <= u < a + n
  {
    hide Placed;
    var fs' := Placed(fs, j, a, n);
    NotEmpty(fs, j, a, n);
    PlacedAt(fs, j, a, n, 0);
    if Covers(fs, u) || a <= u < a + n {
      var c := if Down(fs, j, a) then j else j + 1;
      if a <= u < a + n {
        PlacedAt(fs, j, a, n, c);
        assert fs'[c].a <= u < fs'[c].a + fs'[c].n;
      } else {
        var i :| 0 <= i < |fs| && fs[i].a <= u < fs[i].a + fs[i].n;
        var k := if i <= j then i else i + (if Down(fs, j, a) then 0 else 1) - (if Up(fs, j, a, n) then 1 else 0);
        PlacedAt(fs, j, a, n, k);
        assert fs'[k].a <= u < fs'[k].a + fs'[k].n;
      }
    }
    if Covers(fs', u) && !(a <= u < a + n) {
      var k :| 0 <= k < |fs'| && fs'[k].a <= u < fs'[k].a + fs'[k].n;
      PlacedAt(fs, j, a, n, k);
      assert || fs[j].a <= u < fs[j].a + fs[j].n
             || (Up(fs, j, a, n) && fs[j + 1].a <= u < fs[j + 1].a + fs[j + 1].n)
             || Covers(fs, u);
    }
  }

  lemma NotEmpty(fs: seq<Span>, j: nat, a: nat, n: nat)
    requires j < |fs|
    ensures Placed(fs, j, a, n) != []
  {
  }

  lemma PlacedNext(fs: seq<Span>, j: nat, a: nat, n: nat, i: nat)
    requires j < |fs| && i < |Placed(fs, j, a, n)|
    ensures
      var fs', up, down := Placed(fs, j, a, n), Up(fs, j, a, n), Down(fs, j, a);
      && (i < j ==> NextOf(fs', i) == NextOf(fs, i))
      && (i == j ==> NextOf(fs', i) == if !down then a else if up then NextOf(fs, j + 1) else NextOf(fs, j))
      && (i == j + 1 && !down ==> NextOf(fs', i) == if up then NextOf(fs, j + 1) else NextOf(fs, j))
      && (i > j && (down || i > j + 1) ==>
            var k := (if down then i else i - 1) + if up then 1 else 0;
            k < |fs| && NextOf(fs', i) == NextOf(fs, k))
  {
  }

  lemma JoinedAt(mem: Mem, p: nat, a: nat, x: nat)
    requires p in mem && a in mem && mem[p].ptr in mem && p < a && x in mem
    ensures
      var q, mem' := mem[p].ptr, Joined(mem, p, a);
      var h := if a + mem[a].size == q then Header(mem[q].ptr, mem[a].size + mem[q].size) else Header(q, mem[a].size);
      && x in mem' && (x != p && x != a ==> mem'[x] == mem[x]) && (x == a ==> mem'[x] == h)
      && (x == p ==>
            mem'[x] == if p + mem[p].size == a then Header(h.ptr, mem[p].size + h.size) else Header(a, mem[p].size))
  {
  }

  lemma PlacedRing(mem: Mem, fs: seq<Span>, j: nat, a: nat, n: nat)
    requires Apart(fs) && Ring(mem, fs) && FitsAfter(fs, j, a, n) && a in mem && mem[a].size == n
    ensures mem[fs[j].a].ptr in mem
    ensures Ring(Joined(mem, fs[j].a, a), Placed(fs, j, a, n))
  {
    hide Placed, Joined;
    assert mem[fs[j].a].ptr == NextOf(fs, j);
    var fs', mem' := Placed(fs, j, a, n), Joined(mem, fs[j].a, a);
    forall i | 0 <= i < |fs'| ensures fs'[i].a in mem' && mem'[fs'[i].a] == Header(NextOf(fs', i), fs'[i].n) {
      RingAt(mem, fs, j, a, n, i);
    }
  }

  lemma RingAt(mem: Mem, fs: seq<Span>, j: nat, a: nat, n: nat, i: nat)
    requires Apart(fs) && Ring(mem, fs) && FitsAfter(fs, j, a, n) && a in mem && mem[a].size == n
    requires i < |Placed(fs, j, a, n)|
    requires mem[fs[j].a].ptr in mem
    ensures
      var fs', mem' := Placed(fs, j, a, n), Joined(mem, fs[j].a, a);
      fs'[i].a in mem' && mem'[fs'[i].a] == Header(NextOf(fs', i), fs'[i].n)
  {
    hide Placed, Joined, Ring, Apart, NextOf;
    PlacedAt(fs, j, a, n, i);
    PlacedNext(fs, j, a, n, i);
    var p, up, down := fs[j].a, Up(fs, j, a, n), Down(fs, j, a);
    NodeAt(mem, fs, j, j);
    if i < j {
      NodeAt(mem, fs, i, j);
      JoinedAt(mem, p, a, fs[i].a);
    } else if i > j && (down || i > j + 1) {
      var k := (if down then i else i - 1) + if up then 1 else 0;
      NodeAt(mem, fs, j, k);
      JoinedAt(mem, p, a, fs[k].a);
    } else {
      if up {
        NodeAt(mem, fs, j, j + 1);
      }
      NextIs(fs, j);
      JoinedAt(mem, p, a, if i == j then p else a);
    }
  }

  lemma NodeAt(mem: Mem, fs: seq<Span>, i: nat, k: nat)
    requires Apart(fs) && Ring(mem, fs) && i <= k < |fs|
    ensures fs[i].a in mem && mem[fs[i].a] == Header(NextOf(fs, i), fs[i].n)
    ensures fs[k].a in mem && mem[fs[k].a] == Header(NextOf(fs, k), fs[k].n)
    ensures i < k ==> fs[i].a + fs[i].n < fs[k].a
    ensures i + 1 < k ==> fs[i + 1].a < fs[k].a
  {
  }

  lemma NextIs(fs: seq<Span>, j: nat)
    requires Apart(fs) && j < |fs|
    ensures NextOf(fs, j) == if j + 1 < |fs| then fs[j + 1].a else fs[0].a
    ensures fs[0].a <= fs[j].a
  {
  }

  // ----- the heap

  type Live = map<nat, nat>

  /** Free spans in address order, behind the empty span of base, no two touching. */
  ghost predicate Spans(fs: seq<Span>, base: nat, brk: nat) {
    && fs != [] && fs[0] == Span(base, 0) && Apart(fs)
    && forall i :: 0 <= i < |fs| ==> fs[i].a + fs[i].n <= brk && (i > 0 ==> fs[i].n > 0)
  }

  ghost predicate LiveOk(mem: Mem, live: Live, base: nat, brk: nat) {
    forall a :: a in live ==> base < a && 0 < live[a] && a + live[a] <= brk && a in mem && mem[a].size == live[a]
  }

  /** No live block overlaps a free one or another live one. */
  ghost predicate Disjoint(fs: seq<Span>, live: Live) {
    && (forall a, i :: a in live && 0 <= i < |fs| ==> fs[i].a + fs[i].n <= a || a + live[a] <= fs[i].a)
    && forall a, b :: a in live && b in live && a < b ==> a + live[a] <= b
  }

  ghost predicate InLive(live: Live, u: nat) {
    exists a :: a in live && a <= u < a + live[a]
  }

  /** Free and live blocks together are all the memory obtained from sbrk(). */
  ghost predicate Tiled(fs: seq<Span>, live: Live, got: set<nat>) {
    forall u: nat :: u in got <==> Covers(fs, u) || InLive(live, u)
  }

  ghost predicate Heap(mem: Mem, fs: seq<Span>, live: Live, got: set<nat>, base: nat, brk: nat) {
    && 0 < base < brk && Spans(fs, base, brk) && Ring(mem, fs) && LiveOk(mem, live, base, brk)
    && Disjoint(fs, live) && Tiled(fs, live, got)
  }

  /** A live block fits between the spans around it. */
  lemma LiveFits(mem: Mem, fs: seq<Span>, live: Live, got: set<nat>, base: nat, brk: nat, a: nat, j: nat)
    requires Heap(mem, fs, live, got, base, brk) && a in live && j < |fs|
    requires fs[j].a < a && (j + 1 < |fs| ==> a < fs[j + 1].a)
    ensures FitsAfter(fs, j, a, live[a])
  {
  }

  lemma PlacedSpans(fs: seq<Span>, base: nat, brk: nat, j: nat, a: nat, n: nat)
    requires Spans(fs, base, brk) && FitsAfter(fs, j, a, n) && a + n <= brk
    ensures Spans(Placed(fs, j, a, n), base, brk)
  {
    hide Placed, Apart;
    PlacedApart(fs, j, a, n);
    var fs' := Placed(fs, j, a, n);
    NotEmpty(fs, j, a, n);
    PlacedAt(fs, j, a, n, 0);
    assert j == 0 ==> !Down(fs, j, a);
    forall i | 0 <= i < |fs'| ensures fs'[i].a + fs'[i].n <= brk && (i > 0 ==> fs'[i].n > 0) {
      PlacedAt(fs, j, a, n, i);
    }
  }

  lemma PlacedDisjoint(fs: seq<Span>, live: Live, j: nat, a: nat)
    requires Disjoint(fs, live) && a in live && FitsAfter(fs, j, a, live[a]) && forall b :: b in live ==> live[b] > 0
    ensures Disjoint(Placed(fs, j, a, live[a]), live - {a})
  {
    hide Placed;
    var n, fs' := live[a], Placed(fs, j, a, live[a]);
    forall b, i | b in live && b != a && 0 <= i < |fs'| ensures fs'[i].a + fs'[i].n <= b || b + live[b] <= fs'[i].a {
      PlacedAt(fs, j, a, n, i);
      assert live[b] > 0 && (a < b ==> a + n <= b) && (b < a ==> b + live[b] <= a);
      assert fs[j].a + fs[j].n <= b || b + live[b] <= fs[j].a;
      assert Up(fs, j, a, n) ==> fs[j + 1].a + fs[j + 1].n <= b || b + live[b] <= fs[j + 1].a;
    }
  }

  lemma PlacedTiled(fs: seq<Span>, live: Live, got: set<nat>, j: nat, a: nat)
    requires Tiled(fs, live, got) && a in live && FitsAfter(fs, j, a, live[a])
    requires forall b :: b in live && b != a ==> b + live[b] <= a || a + live[a] <= b
    ensures Tiled(Placed(fs, j, a, live[a]), live - {a}, got)
  {
    hide Placed, Covers;
    forall u: nat ensures u in got <==> Covers(Placed(fs, j, a, live[a]), u) || InLive(live - {a}, u) {
      PlacedCovers(fs, j, a, live[a], u);
      if InLive(live, u) {
        var b :| b in live && b <= u < b + live[b];
        assert b != a ==> b in live - {a} && (live - {a})[b] == live[b];
      }
      if InLive(live - {a}, u) {
        var b :| b in live - {a} && b <= u < b + (live - {a})[b];
        assert b in live && live[b] == (live - {a})[b];
      }
    }
  }

  /** free() gives the block back and joins it to its neighbours. */
  lemma FreeKeeps(mem: Mem, fs: seq<Span>, live: Live, got: set<nat>, base: nat, brk: nat, a: nat, j: nat)
    requires Heap(mem, fs, live, got, base, brk) && a in live && FitsAfter(fs, j, a, live[a])
    ensures fs[j].a in mem && a in mem && mem[fs[j].a].ptr in mem
    ensures Heap(Joined(mem, fs[j].a, a), Placed(fs, j, a, live[a]), live - {a}, got, base, brk)
  {
    hide Placed, Joined, Ring, Tiled, Apart;
    Positive(mem, fs, live, base, brk);
    PlacedSpans(fs, base, brk, j, a, live[a]);
    PlacedRing(mem, fs, j, a, live[a]);
    PlacedDisjoint(fs, live, j, a);
    PlacedTiled(fs, live, got, j, a);
    NodeAt(mem, fs, j, j);
    var mem' := Joined(mem, fs[j].a, a);
    forall b | b in live - {a} ensures b in mem' && mem'[b].size == live[b] {
      assert fs[j].a + fs[j].n <= b || b + live[b] <= fs[j].a;
      assert b != fs[j].a;
      JoinedAt(mem, fs[j].a, a, b);
    }
  }

  lemma Positive(mem: Mem, fs: seq<Span>, live: Live, base: nat, brk: nat)
    requires Spans(fs, base, brk) && LiveOk(mem, live, base, brk)
    ensures (forall b :: b in live ==>
              live[b] > 0) && forall b, i :: b in live && 0 <= i < |fs| && fs[i].a == b ==> fs[i].n > 0
  {
  }

  // ----- what malloc() takes

  ghost function Unlinked(fs: seq<Span>, i: nat): seq<Span>
    requires i < |fs|
  {
    fs[..i] + fs[i + 1..]
  }

  /** The part of a span that the new block is cut from stays free. */
  ghost function Cut(fs: seq<Span>, i: nat, n: nat): seq<Span>
    requires i < |fs| && n <= fs[i].n
  {
    fs[i := Span(fs[i].a, fs[i].n - n)]
  }

  /** An exact fit leaves the list. */
  lemma UnlinkKeeps(mem: Mem, fs: seq<Span>, live: Live, got: set<nat>, base: nat, brk: nat, i: nat)
    requires Heap(mem, fs, live, got, base, brk) && 0 < i < |fs|
    ensures fs[i - 1].a in mem && fs[i].a in mem
    ensures
      var mem': Mem := mem[fs[i - 1].a := Header(mem[fs[i].a].ptr, mem[fs[i - 1].a].size)];
      Heap(mem', Unlinked(fs, i), live[fs[i].a := fs[i].n], got, base, brk)
  {
    hide Tiled, Apart, Ring, Disjoint, Unlinked;
    NodeAt(mem, fs, i - 1, i);
    FreeNotLive(mem, fs, live, base, brk, i, fs[i].a);
    FreeNotLive(mem, fs, live, base, brk, i - 1, fs[i - 1].a);
    Between(fs, 0, i);
    UnlinkSpans(fs, base, brk, i);
    UnlinkTiled(fs, live, got, i);
    UnlinkDisjoint(fs, live, i);
    UnlinkRing(mem, fs, i);
  }

  /** No live block begins where a free one lies. */
  lemma FreeNotLive(mem: Mem, fs: seq<Span>, live: Live, base: nat, brk: nat, i: nat, r: nat)
    requires Spans(fs, base, brk) && LiveOk(mem, live, base, brk) && Disjoint(fs, live) && i < |fs|
    requires r == fs[i].a || fs[i].a < r < fs[i].a + fs[i].n
    ensures r !in live
  {
  }

  lemma UnlinkSpans(fs: seq<Span>, base: nat, brk: nat, i: nat)
    requires Spans(fs, base, brk) && 0 < i < |fs|
    ensures Spans(Unlinked(fs, i), base, brk)
  {
  }

  lemma UnlinkDisjoint(fs: seq<Span>, live: Live, i: nat)
    requires Disjoint(fs, live) && Apart(fs) && i < |fs| && fs[i].a !in live && 0 < fs[i].n
    ensures Disjoint(Unlinked(fs, i), live[fs[i].a := fs[i].n])
  {
  }

  lemma Between(fs: seq<Span>, i: nat, j: nat)
    requires Apart(fs) && i < j < |fs|
    ensures fs[i].a + fs[i].n < fs[j].a
  {
  }

  lemma UnlinkRing(mem: Mem, fs: seq<Span>, i: nat)
    requires Apart(fs) && Ring(mem, fs) && 0 < i < |fs|
    ensures fs[i - 1].a in mem && fs[i].a in mem
    ensures Ring(mem[fs[i - 1].a := Header(mem[fs[i].a].ptr, mem[fs[i - 1].a].size)], Unlinked(fs, i))
  {
  }

  lemma UnlinkTiled(fs: seq<Span>, live: Live, got: set<nat>, i: nat)
    requires Tiled(fs, live, got) && i < |fs| && (fs[i].a in live ==> live[fs[i].a] == 0)
    ensures Tiled(Unlinked(fs, i), live[fs[i].a := fs[i].n], got)
  {
    var fs', live' := Unlinked(fs, i), live[fs[i].a := fs[i].n];
    forall u: nat ensures u in got <==> Covers(fs', u) || InLive(live', u) {
      if Covers(fs, u) {
        var k :| 0 <= k < |fs| && fs[k].a <= u < fs[k].a + fs[k].n;
        if k != i {
          assert fs'[if k < i then k else k - 1] == fs[k];
        } else {
          assert fs[i].a in live' && fs[i].a <= u < fs[i].a + live'[fs[i].a];
        }
      }
      if InLive(live, u) {
        var b :| b in live && b <= u < b + live[b];
        assert b in live' && live'[b] == live[b];
      }
      if Covers(fs', u) {
        var k :| 0 <= k < |fs'| && fs'[k].a <= u < fs'[k].a + fs'[k].n;
        assert fs[if k < i then k else k + 1] == fs'[k];
      }
      if InLive(live', u) {
        var b :| b in live' && b <= u < b + live'[b];
        if b == fs[i].a {
          assert fs[i].a <= u < fs[i].a + fs[i].n;
        } else {
          assert b in live && live[b] == live'[b];
        }
      }
    }
  }

  /** A larger fit is cut at its end. */
  lemma CutKeeps(mem: Mem, fs: seq<Span>, live: Live, got: set<nat>, base: nat, brk: nat, i: nat, n: nat, h: Header)
    requires Heap(mem, fs, live, got, base, brk) && i < |fs| && 0 < n < fs[i].n && h.size == n
    ensures fs[i].a in mem
    ensures
      var r := fs[i].a + fs[i].n - n;
      var mem': Mem := mem[fs[i].a := Header(mem[fs[i].a].ptr, fs[i].n - n)][r := h];
      Heap(mem', Cut(fs, i, n), live[r := n], got, base, brk)
  {
    hide Tiled, Apart, Ring, Disjoint;
    NodeAt(mem, fs, i, i);
    CutApart(fs, i, n);
    FreeNotLive(mem, fs, live, base, brk, i, fs[i].a);
    FreeNotLive(mem, fs, live, base, brk, i, fs[i].a + fs[i].n - n);
    Between(fs, 0, i);
    CutRing(mem, fs, i, n, h);
    CutTiled(fs, live, got, i, n);
    CutDisjoint(fs, live, i, n);
  }

  lemma CutDisjoint(fs: seq<Span>, live: Live, i: nat, n: nat)
    requires Disjoint(fs, live) && Apart(fs) && i < |fs| && 0 < n < fs[i].n && fs[i].a + fs[i].n - n !in live
    ensures Disjoint(Cut(fs, i, n), live[fs[i].a + fs[i].n - n := n])
  {
  }

  lemma CutApart(fs: seq<Span>, i: nat, n: nat)
    requires Apart(fs) && i < |fs| && n <= fs[i].n
    ensures Apart(Cut(fs, i, n))
  {
  }

  lemma CutRing(mem: Mem, fs: seq<Span>, i: nat, n: nat, h: Header)
    requires Apart(fs) && Ring(mem, fs) && i < |fs| && 0 < n < fs[i].n
    ensures fs[i].a in mem
    ensures Ring(mem[fs[i].a := Header(mem[fs[i].a].ptr, fs[i].n - n)][fs[i].a + fs[i].n - n := h], Cut(fs, i, n))
  {
  }

  lemma CutTiled(fs: seq<Span>, live: Live, got: set<nat>, i: nat, n: nat)
    requires Tiled(fs, live, got) && i < |fs| && 0 < n < fs[i].n && fs[i].a + fs[i].n - n !in live
    ensures Tiled(Cut(fs, i, n), live[fs[i].a + fs[i].n - n := n], got)
  {
    var r := fs[i].a + fs[i].n - n;
    var fs', live' := Cut(fs, i, n), live[r := n];
    forall u: nat ensures u in got <==> Covers(fs', u) || InLive(live', u) {
      if Covers(fs, u) {
        var k :| 0 <= k < |fs| && fs[k].a <= u < fs[k].a + fs[k].n;
        if k == i && u >= r {
          assert r in live' && r <= u < r + live'[r];
        } else {
          assert fs'[k].a <= u < fs'[k].a + fs'[k].n;
        }
      }
      if InLive(live, u) {
        var b :| b in live && b <= u < b + live[b];
        assert b in live' && live'[b] == live[b];
      }
      if Covers(fs', u) {
        var k :| 0 <= k < |fs'| && fs'[k].a <= u < fs'[k].a + fs'[k].n;
        assert fs[k].a <= u < fs[k].a + fs[k].n;
      }
      if InLive(live', u) {
        var b :| b in live' && b <= u < b + live'[b];
        if b == r {
          assert fs[i].a <= u < fs[i].a + fs[i].n;
        } else {
          assert b in live && live[b] == live'[b];
        }
      }
    }
  }

  ghost function Units(a: nat, n: nat): (r: set<nat>)
    ensures forall u: nat :: u in r <==> a <= u < a + n
  {
    if n == 0 then {} else Units(a, n - 1) + {a + n - 1}
  }

  /** New memory above the break is a block like those handed out. */
  lemma GrowKeeps(mem: Mem, fs: seq<Span>, live: Live, got: set<nat>, base: nat, brk: nat, a: nat, n: nat, h: Header)
    requires Heap(mem, fs, live, got, base, brk) && brk <= a && 0 < n && h.size == n
    ensures Heap(mem[a := h], fs, live[a := n], got + Units(a, n), base, a + n)
  {
    hide Tiled, Apart;
    Lower(fs, base, brk);
    var live': Live := live[a := n];
    assert a !in live;
    GrowTiled(fs, live, got, a, n);
  }

  lemma Lower(fs: seq<Span>, base: nat, brk: nat)
    requires Spans(fs, base, brk) && base < brk
    ensures forall i :: 0 <= i < |fs| ==> fs[i].a < brk
  {
  }

  lemma GrowTiled(fs: seq<Span>, live: Live, got: set<nat>, a: nat, n: nat)
    requires Tiled(fs, live, got) && a !in live
    ensures Tiled(fs, live[a := n], got + Units(a, n))
  {
    hide Covers;
    var live' := live[a := n];
    forall u: nat ensures u in got + Units(a, n) <==> Covers(fs, u) || InLive(live', u) {
      if InLive(live, u) {
        var b :| b in live && b <= u < b + live[b];
        assert b in live' && live'[b] == live[b];
      }
      if InLive(live', u) && !(a <= u < a + n) {
        var b :| b in live' && b <= u < b + live'[b];
        assert b in live && live[b] == live'[b];
      }
      if a <= u < a + n {
        assert a in live' && live'[a] == n;
      }
    }
  }

  // ----- the cyclic searches

  /** Steps from index i to index t around a cycle of n. */
  function Steps(i: nat, t: nat, n: nat): nat
    requires i < n && t < n
  {
    if i <= t then t - i else n - i + t
  }

  function Turn(i: nat, n: nat): nat {
    if i + 1 < n then i + 1 else 0
  }

  /** The spans from start up to i, going around, have less than n units. */
  ghost predicate Small(fs: seq<Span>, start: nat, i: nat, n: nat)
    requires start < |fs| && i < |fs|
  {
    forall m :: 0 <= m < |fs| && Steps(start, m, |fs|) < Steps(start, i, |fs|) ==> fs[m].n < n
  }

  lemma SmallNone(fs: seq<Span>, start: nat, n: nat)
    requires start < |fs|
    ensures Small(fs, start, start, n)
  {
  }

  lemma SmallMore(fs: seq<Span>, k: nat, i: nat, n: nat)
    requires k < |fs| && i < |fs| && i != k && fs[i].n < n && Small(fs, Turn(k, |fs|), i, n)
    ensures Small(fs, Turn(k, |fs|), Turn(i, |fs|), n)
  {
  }

  lemma SmallAll(fs: seq<Span>, k: nat, n: nat)
    requires k < |fs| && fs[k].n < n && Small(fs, Turn(k, |fs|), k, n)
    ensures forall m :: 0 <= m < |fs| ==> fs[m].n < n
  {
  }

  lemma FindPlace(fs: seq<Span>, bp: nat) returns (t: nat)
    requires fs != [] && fs[0].a < bp && forall i :: 0 <= i < |fs| ==> fs[i].a != bp
    ensures t < |fs| && fs[t].a < bp && (t + 1 < |fs| ==> bp < fs[t + 1].a)
  {
    t := 0;
    while t + 1 < |fs| && fs[t + 1].a < bp
      invariant t < |fs| && fs[t].a < bp
    {
      t := t + 1;
    }
  }

  const LIMIT := 0x1000_0000      // KERNBASE in units
  const MINUNITS := 4096

  /** nunits as computed in 32 bits. */
  function UnitsFor(nbytes: nat): nat
    requires nbytes < 0x1_0000_0000
  {
    (nbytes + 7) % 0x1_0000_0000 / 8 + 1
  }

  /** What sbrk() is passed for nu units: a signed 32-bit integer. */
  function SbrkArg(nu: nat): int {
    var x := nu * 8 % 0x1_0000_0000;
    if x < 0x8000_0000 then x else x - 0x1_0000_0000
  }

  /** malloc()'s arithmetic serves a request iff it is at most 8 * (2^28 - 2) bytes:
      above, the units do not cover it or sbrk() is not asked for them. */
  lemma ServedIff(nbytes: nat)
    requires nbytes < 0x1_0000_0000
    ensures
      var nu := UnitsFor(nbytes);
      8 * (nu - 1) >= nbytes && SbrkArg(nu) == 8 * nu <==> nbytes <= 8 * (LIMIT - 2)
    ensures UnitsFor(nbytes) < LIMIT ==> (8 * (UnitsFor(nbytes) - 1) >= nbytes <==> nbytes + 7 < 0x1_0000_0000)
  {
  }

  /** A request that wraps gets a block without room for one byte. */
  lemma WrapExample()
    ensures UnitsFor(0xffff_ffff) == 1 && SbrkArg(UnitsFor(0x8000_0000)) < 0
  {
  }

  class Arena {
    const base: nat
    var mem: Mem
    var freep: nat
    var brk: nat
    ghost var fs: seq<Span>
    ghost var k: nat               // freep's place in fs
    ghost var live: Live           // blocks handed out, by header address
    ghost var got: set<nat>        // units obtained from sbrk()

    ghost predicate Ready()
      reads this
    {
      Heap(mem, fs, live, got, base, brk) && k < |fs| && freep == fs[k].a && brk <= LIMIT
    }

    ghost predicate Valid()
      reads this
    {
      if freep == 0 then live == map[] && got == {} && 0 < base < brk <= LIMIT else Ready()
    }

    constructor (base: nat, brk: nat)
      requires 0 < base < brk <= LIMIT
      ensures Valid() && freep == 0 && this.base == base && this.brk == brk
    {
      this.base, this.brk := base, brk;
      mem, freep := map[], 0;
      fs, k, live, got := [], 0, map[], {};
    }

    /** free()'s loop: the place of bp in address order. */
    method Search(bp: nat) returns (p: nat, ghost j: nat)
      requires Ready() && bp in live
      ensures j < |fs| && p == fs[j].a && fs[j].a < bp && (j + 1 < |fs| ==> bp < fs[j + 1].a)
      ensures p in mem && p < bp && (bp < mem[p].ptr || mem[p].ptr <= p)
    {
      hide Heap, Ring, Apart;
      ghost var t := Place(mem, fs, live, got, base, brk, bp);
      p := freep;
      j := k;
      Node(mem, fs, live, got, base, brk, j, t);
      while !(bp > p && bp < mem[p].ptr)
        invariant j < |fs| && p == fs[j].a && p in mem && mem[p].ptr == NextOf(fs, j) && NextOf(fs, j) in mem
        invariant fs[0].a < bp && (j + 1 < |fs| ==> fs[j].a < fs[j + 1].a)
        invariant j == t ==> fs[t].a < bp && (t + 1 < |fs| ==> bp < fs[t + 1].a) && fs[0].a <= fs[t].a
        decreases Steps(j, t, |fs|)
      {
        if p >= mem[p].ptr && (bp > p || bp < mem[p].ptr) { break; }
        p := mem[p].ptr;
        j := Turn(j, |fs|);
        Node(mem, fs, live, got, base, brk, j, t);
      }
    }

    method Free(ap: nat)
      requires Valid() && 0 < ap && ap - 1 in live
      modifies this
      ensures Valid() && 0 < freep < ap - 1 && live == old(live) - {ap - 1} && got == old(got) && brk == old(brk)
      ensures Enough(fs, old(live)[ap - 1])
    {
      hide Heap, Ring, Placed, Joined;
      var bp := ap - 1;
      ghost var j: nat;
      var p: nat;
      p, j := Search(bp);
      LiveFits(mem, fs, live, got, base, brk, bp, j);
      FreeKeeps(mem, fs, live, got, base, brk, bp, j);
      LiveSize(mem, fs, live, got, base, brk, bp);
      PlacedEnough(fs, j, bp, live[bp]);
      ghost var mem0 := mem;
      mem := Join(mem, p, bp);
      freep := p;
      fs, k, live := Placed(fs, j, bp, live[bp]), j, live - {bp};
    }

    /** The header updates of free(). */
    static method Join(mem0: Mem, p: nat, bp: nat) returns (mem: Mem)
      requires p in mem0 && bp in mem0 && mem0[p].ptr in mem0 && p < bp
      ensures mem == Joined(mem0, p, bp)
    {
      mem := mem0;
      if bp + mem[bp].size == mem[p].ptr {
        mem := mem[bp := mem[bp].(size := mem[bp].size + mem[mem[p].ptr].size)];
        mem := mem[bp := mem[bp].(ptr := mem[mem[p].ptr].ptr)];
      } else {
        mem := mem[bp := mem[bp].(ptr := mem[p].ptr)];
      }
      if p + mem[p].size == bp {
        mem := mem[p := mem[p].(size := mem[p].size + mem[bp].size)];
        mem := mem[p := mem[p].(ptr := mem[bp].ptr)];
      } else {
        mem := mem[p := mem[p].(ptr := bp)];
      }
    }

    /** malloc()'s loop, once around from freep: the next block that is large enough. */
    method FindFit(nunits: nat) returns (found: bool, prevp: nat, p: nat, ghost i: nat)
      requires Ready() && nunits > 0
      ensures found ==> 0 < i < |fs| && p == fs[i].a && prevp == fs[i - 1].a && fs[i].n >= nunits
      ensures found ==> Small(fs, Turn(k, |fs|), i, nunits)
      ensures !found ==> forall m :: 0 <= m < |fs| ==> fs[m].n < nunits
    {
      hide Heap, Ring, Apart, Small;
      ghost var n, start := |fs|, Turn(k, |fs|);
      BaseSpan(mem, fs, live, got, base, brk);
      Node(mem, fs, live, got, base, brk, k, k);
      prevp := freep;
      p := mem[prevp].ptr;
      i := start;
      SmallNone(fs, start, nunits);
      Node(mem, fs, live, got, base, brk, i, i);
      while mem[p].size < nunits
        invariant i < n && p == fs[i].a && prevp == fs[if i > 0 then i - 1 else n - 1].a
        invariant p in mem && mem[p] == Header(NextOf(fs, i), fs[i].n) && NextOf(fs, i) in mem
        invariant Small(fs, start, i, nunits)
        decreases Steps(i, k, n)
      {
        if p == freep {
          SameSpan(mem, fs, live, got, base, brk, i, k);
          SmallAll(fs, k, nunits);
          return false, 0, 0, 0;
        }
        SmallMore(fs, k, i, nunits);
        prevp := p;
        p := mem[p].ptr;
        i := Turn(i, n);
        Node(mem, fs, live, got, base, brk, i, i);
      }
      return true, prevp, p, i;
    }

    /** malloc()'s use of the block found. */
    method Take(prevp: nat, p0: nat, nunits: nat, ghost i: nat) returns (r: nat)
      requires Ready() && 0 < i < |fs| && p0 == fs[i].a && prevp == fs[i - 1].a && fs[i].n >= nunits > 0
      modifies this
      ensures Ready() && freep != 0 && r > 0 && r - 1 !in old(live) && live == old(live)[r - 1 := nunits]
      ensures got == old(got) && brk == old(brk)
      ensures r - 1 + nunits == old(fs)[i].a + old(fs)[i].n && freep == prevp
    {
      hide Heap, Ring, Unlinked, Cut;
      var p := p0;
      Node(mem, fs, live, got, base, brk, i, i);
      Node(mem, fs, live, got, base, brk, i - 1, i);
      AllPositive(mem, fs, live, got, base, brk);
      NotLive(mem, fs, live, got, base, brk, i, fs[i].a + fs[i].n - nunits);
      if mem[p].size == nunits {
        UnlinkKeeps(mem, fs, live, got, base, brk, i);
        UnlinkedAt(fs, i);
        mem := mem[prevp := mem[prevp].(ptr := mem[p].ptr)];
        fs := Unlinked(fs, i);
      } else {
        mem := mem[p := mem[p].(size := mem[p].size - nunits)];
        p := p + mem[p].size;
        ghost var h := Header(if p in mem then mem[p].ptr else 0, nunits);
        CutKeeps(old(mem), fs, live, got, base, brk, i, nunits, h);
        CutAt(fs, i, nunits);
        mem := mem[p := Header(if p in mem then mem[p].ptr else 0, nunits)];
        fs := Cut(fs, i, nunits);
      }
      live := live[p := nunits];
      freep := prevp;
      k := i - 1;
      return p + 1;
    }

    /** morecore(): the kernel may refuse; skip units went to other callers of sbrk(). */
    method Morecore(nunits: nat, grant: bool, skip: nat) returns (p: nat)
      requires Ready() && nunits < LIMIT
      modifies this
      ensures Ready() && live == old(live) && (p != 0 ==> p == freep)
      ensures
        var nu := if nunits < MINUNITS then MINUNITS else nunits;
        if grant && old(brk) + skip + nu <= LIMIT
        then p != 0 && Enough(fs, nunits) && got == old(got) + Units(old(brk) + skip, nu) && brk == old(brk) + skip + nu
        else p == 0 && mem == old(mem) && fs == old(fs) && got == old(got) && brk == old(brk) && freep == old(freep)
    {
      hide Heap, Ring;
      var nu := if nunits < MINUNITS then MINUNITS else nunits;
      if !grant || brk + skip + nu > LIMIT { return 0; }
      AllPositive(mem, fs, live, got, base, brk);
      var a := brk + skip;
      var h := Header(if a in mem then mem[a].ptr else 0, nu);
      GrowKeeps(mem, fs, live, got, base, brk, a, nu, h);
      mem := mem[a := h];
      brk := a + nu;
      live, got := live[a := nu], got + Units(a, nu);
      Free(a + 1);
      return freep;
    }

    /** The empty free list of the first malloc(). */
    method Init()
      requires Valid()
      modifies this
      ensures Ready() && live == old(live) && got == old(got) && brk == old(brk)
      ensures old(freep) != 0 ==> mem == old(mem) && fs == old(fs) && freep == old(freep)
    {
      hide Heap, Ring;
      if freep == 0 {
        freep := base;
        mem := mem[base := Header(base, 0)];
        fs, k := [Span(base, 0)], 0;
        Start(mem, base, brk);
      }
    }

    /** malloc(): a block of at least nbytes that overlaps no live one, or null if there
        is no room and the kernel gives none. */
    method Malloc(nbytes: nat, grant: bool, skip: nat) returns (r: nat)
      requires Valid() && nbytes < 0x1_0000_0000 && UnitsFor(nbytes) < LIMIT
      modifies this
      ensures Ready() && freep != 0
      ensures r == 0 ==>
                && live == old(live) && got == old(got) && brk == old(brk)
                && (forall m :: 0 <= m < |fs| ==> fs[m].n < UnitsFor(nbytes))
                && var nu := if UnitsFor(nbytes) < MINUNITS then MINUNITS else UnitsFor(nbytes);
                   !grant || brk + skip + nu > LIMIT
      ensures r != 0 ==>
                && r - 1 !in old(live) && live == old(live)[r - 1 := UnitsFor(nbytes)]
                && (nbytes + 7 < 0x1_0000_0000 ==> 8 * (UnitsFor(nbytes) - 1) >= nbytes)
                && forall b :: b in old(live) ==> r - 1 + UnitsFor(nbytes) <= b || b + old(live)[b] <= r - 1
      ensures r != 0 ==>
                var nu := if UnitsFor(nbytes) < MINUNITS then MINUNITS else UnitsFor(nbytes);
                got == old(got) || got == old(got) + Units(old(brk) + skip, nu)
    {
      hide Heap, Ring, Small, Units;
      var nunits := UnitsFor(nbytes);
      ServedIff(nbytes);
      Init();
      AllPositive(mem, fs, live, got, base, brk);
      var found, prevp, p; ghost var i;
      found, prevp, p, i := FindFit(nunits);
      if !found {
        p := Morecore(nunits, grant, skip);
        if p == 0 { return 0; }
        found, prevp, p, i := FindFit(nunits);
      }
      r := Take(prevp, p, nunits, i);
      NewApart(mem, fs, live, got, base, brk, r - 1);
      assert forall b :: b in old(live) ==> b in live && b != r - 1 && live[b] == old(live)[b];
    }
  }

  lemma BaseSpan(mem: Mem, fs: seq<Span>, live: Live, got: set<nat>, base: nat, brk: nat)
    requires Heap(mem, fs, live, got, base, brk)
    ensures fs != [] && fs[0].n == 0
  {
  }

  lemma SameSpan(mem: Mem, fs: seq<Span>, live: Live, got: set<nat>, base: nat, brk: nat, i: nat, j: nat)
    requires Heap(mem, fs, live, got, base, brk) && i < |fs| && j < |fs| && fs[i].a == fs[j].a
    ensures i == j
  {
  }

  lemma AllPositive(mem: Mem, fs: seq<Span>, live: Live, got: set<nat>, base: nat, brk: nat)
    requires Heap(mem, fs, live, got, base, brk)
    ensures 0 < base < brk && (forall i :: 0 <= i < |fs| ==>
              fs[i].a > 0) && forall b :: b in live ==> 0 < live[b] && b + live[b] <= brk
  {
  }

  lemma NotLive(mem: Mem, fs: seq<Span>, live: Live, got: set<nat>, base: nat, brk: nat, i: nat, r: nat)
    requires Heap(mem, fs, live, got, base, brk) && i < |fs| && (r == fs[i].a || fs[i].a < r < fs[i].a + fs[i].n)
    ensures r !in live
  {
  }

  lemma UnlinkedAt(fs: seq<Span>, i: nat)
    requires 0 < i < |fs|
    ensures i - 1 < |Unlinked(fs, i)| && Unlinked(fs, i)[i - 1] == fs[i - 1]
  {
  }

  lemma CutAt(fs: seq<Span>, i: nat, n: nat)
    requires 0 < i < |fs| && n <= fs[i].n
    ensures i - 1 < |Cut(fs, i, n)| && Cut(fs, i, n)[i - 1] == fs[i - 1]
  {
  }

  lemma Start(mem: Mem, base: nat, brk: nat)
    requires 0 < base < brk && base in mem && mem[base] == Header(base, 0)
    ensures Heap(mem, [Span(base, 0)], map[], {}, base, brk)
  {
  }

  lemma NewApart(mem: Mem, fs: seq<Span>, live: Live, got: set<nat>, base: nat, brk: nat, a: nat)
    requires Heap(mem, fs, live, got, base, brk) && a in live
    ensures forall b :: b in live && b != a ==> a + live[a] <= b || b + live[b] <= a
  {
  }

  /** Some free block has n units. */
  ghost predicate Enough(fs: seq<Span>, n: nat) {
    exists i :: 0 <= i < |fs| && fs[i].n >= n
  }

  lemma PlacedEnough(fs: seq<Span>, j: nat, a: nat, n: nat)
    requires FitsAfter(fs, j, a, n)
    ensures Enough(Placed(fs, j, a, n), n) && j < |Placed(fs, j, a, n)| && Placed(fs, j, a, n)[j].a == fs[j].a
  {
    hide Placed;
    NotEmpty(fs, j, a, n);
    PlacedAt(fs, j, a, n, 0);
    PlacedAt(fs, j, a, n, j);
    var c := if Down(fs, j, a) then j else j + 1;
    PlacedAt(fs, j, a, n, c);
    assert Placed(fs, j, a, n)[c].n >= n;
  }

  lemma Place(mem: Mem, fs: seq<Span>, live: Live, got: set<nat>, base: nat, brk: nat, bp: nat) returns (t: nat)
    requires Heap(mem, fs, live, got, base, brk) && bp in live
    ensures t < |fs| && fs[t].a < bp && (t + 1 < |fs| ==> bp < fs[t + 1].a) && fs[0].a < bp
  {
    hide Ring, Tiled, Apart;
    forall i | 0 <= i < |fs| ensures fs[i].a != bp {
      FreeNotLive(mem, fs, live, base, brk, i, fs[i].a);
    }
    t := FindPlace(fs, bp);
  }

  lemma Node(mem: Mem, fs: seq<Span>, live: Live, got: set<nat>, base: nat, brk: nat, j: nat, t: nat)
    requires Heap(mem, fs, live, got, base, brk) && j < |fs| && t < |fs|
    ensures fs[j].a in mem && mem[fs[j].a] == Header(NextOf(fs, j), fs[j].n) && NextOf(fs, j) in mem
    ensures (j + 1 < |fs| ==> fs[j].a < fs[j + 1].a) && fs[0].a <= fs[t].a
  {
  }

  lemma LiveSize(mem: Mem, fs: seq<Span>, live: Live, got: set<nat>, base: nat, brk: nat, a: nat)
    requires Heap(mem, fs, live, got, base, brk) && a in live
    ensures a in mem && mem[a].size == live[a] > 0 && base > 0
    ensures forall i :: 0 <= i < |fs| ==> fs[i].a > 0
  {
  }
}
