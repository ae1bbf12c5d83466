/** The null-terminated doubly linked lists of proc.c, as next and back links
    over table indices (-1 is the null pointer) with a head and a last. */
module DList {
  import opened Common

  const NULL := -1

  ghost predicate Ends(head: int, last: int, q: seq<nat>) {
    if q == [] then head == NULL && last == NULL else head == q[0] && last == q[|q| - 1]
  }

  /** The links describe exactly the acyclic sequence q, head first; pos gives each
      node of q its place. */
  ghost predicate Chain(next: seq<int>, back: seq<int>, q: seq<nat>, pos: seq<nat>) {
    && |next| == |back| == |pos|
    && (forall i :: 0 <= i < |q| ==> q[i] < |pos| && pos[q[i]] == i)
    && (forall i {:trigger next[q[i]]} :: 0 <= i < |q| ==> next[q[i]] == if i + 1 < |q| then q[i + 1] else NULL)
    && (forall i {:trigger back[q[i]]} :: 0 <= i < |q| ==> back[q[i]] == if i > 0 then q[i - 1] else NULL)
  }

  ghost predicate List(next: seq<int>, back: seq<int>, head: int, last: int, q: seq<nat>, pos: seq<nat>) {
    Chain(next, back, q, pos) && Ends(head, last, q)
  }

  /** Lists depend on the links of their own nodes only. */
  lemma Frame(next: seq<int>, back: seq<int>, next': seq<int>, back': seq<int>, q: seq<nat>, pos: seq<nat>)
    requires Chain(next, back, q, pos) && |next'| == |back'| == |next|
    requires forall i :: 0 <= i < |q| ==> next'[q[i]] == next[q[i]] && back'[q[i]] == back[q[i]]
    ensures Chain(next', back', q, pos)
  {
  }

  ghost function PosPush(pos: seq<nat>, p: nat): (r: seq<nat>)
    ensures |r| == |pos|
  {
    seq(|pos|, x requires 0 <= x < |pos| => if x == p then 0 else pos[x] + 1)
  }

  /** The links after p has been pushed in front of head. */
  function PushNext(next: seq<int>, head: int, p: nat): seq<int>
    requires p < |next|
  {
    next[p := head]
  }

  function PushBack(back: seq<int>, head: int, p: nat): seq<int>
    requires p < |back| && head < |back|
  {
    if head >= 0 then back[p := NULL][head := p] else back[p := NULL]
  }

  lemma Push(next: seq<int>, back: seq<int>, head: int, last: int, q: seq<nat>, pos: seq<nat>, p: nat)
    requires List(next, back, head, last, q, pos) && p < |next|
    requires forall i :: 0 <= i < |q| ==> q[i] != p
    ensures head < |back|
    ensures List(PushNext(next, head, p), PushBack(back, head, p), p, if head >= 0 then last else p, [p] + q,
                 PosPush(pos, p))
  {
    var next', back', q', pos' := PushNext(next, head, p), PushBack(back, head, p), [p] + q, PosPush(pos, p);
    forall i | 0 <= i < |q'| ensures q'[i] < |pos'| && pos'[q'[i]] == i {
      assert i > 0 ==> q'[i] == q[i - 1];
    }
    forall i | 0 <= i < |q'| ensures next'[q'[i]] == if i + 1 < |q'| then q'[i + 1] else NULL {
      if i > 0 {
        assert q'[i] == q[i - 1] && next[q[i - 1]] == if i < |q| then q[i] else NULL;
      }
    }
    forall i | 0 <= i < |q'| ensures back'[q'[i]] == if i > 0 then q'[i - 1] else NULL {
      if i > 0 {
        assert q'[i] == q[i - 1] && back[q[i - 1]] == if i > 1 then q[i - 2] else NULL;
      }
    }
  }

  /** The links after node p has been cut out, as removefromlevel() does. */
  function CutNext(next: seq<int>, back: seq<int>, p: nat): (next': seq<int>)
    requires p < |next| == |back| && back[p] < |next|
  {
    (if back[p] >= 0 then next[back[p] := next[p]] else next)[p := NULL]
  }

  function CutBack(next: seq<int>, back: seq<int>, p: nat): (back': seq<int>)
    requires p < |next| == |back| && next[p] < |next|
  {
    (if next[p] >= 0 then back[next[p] := back[p]] else back)[p := NULL]
  }

  lemma Cut(next: seq<int>, back: seq<int>, head: int, last: int, q: seq<nat>, pos: seq<nat>, k: nat)
    requires List(next, back, head, last, q, pos) && k < |q|
    ensures q[k] < |next| && next[q[k]] < |next| && back[q[k]] < |next|
    ensures
      var p := q[k];
      List(CutNext(next, back, p), CutBack(next, back, p),
           if back[p] >= 0 then head else next[p], if next[p] >= 0 then last else back[p],
           Without(q, k), PosWithout(pos, k))
  {
    var p := q[k];
    assert next[q[k]] == (if k + 1 < |q| then q[k + 1] else NULL) && back[q[k]] == if k > 0 then q[k - 1] else NULL;
    CutChain(next, back, q, pos, k);
  }

  lemma CutChain(next: seq<int>, back: seq<int>, q: seq<nat>, pos: seq<nat>, k: nat)
    requires Chain(next, back, q, pos) && k < |q| && next[q[k]] < |next| && back[q[k]] < |next|
    ensures Chain(CutNext(next, back, q[k]), CutBack(next, back, q[k]), Without(q, k), PosWithout(pos, k))
  {
  }
}
