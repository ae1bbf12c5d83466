/** A doubly linked ring threaded through arrays of next and prev links, as
    bio.c threads its buffers through a sentinel. */
module Ring {
  import opened Common

  /** next and prev link the nodes of cyc into one cycle, in that order;
      pos gives each node of cyc its place. */
  ghost predicate Linked(next: seq<nat>, prev: seq<nat>, cyc: seq<nat>, pos: seq<nat>) {
    && |next| == |prev| == |pos| && 0 < |cyc|
    && (forall i :: 0 <= i < |cyc| ==> cyc[i] < |pos| && pos[cyc[i]] == i)
    && (forall i {:trigger next[cyc[i]]} :: 0 <= i < |cyc| ==>
          next[cyc[i]] == if i + 1 < |cyc| then cyc[i + 1] else cyc[0])
    && (forall i {:trigger prev[cyc[i]]} :: 0 <= i < |cyc| ==>
          prev[cyc[i]] == if i > 0 then cyc[i - 1] else cyc[|cyc| - 1])
  }

  function Insert<T>(s: seq<T>, k: nat, x: T): seq<T>
    requires k <= |s|
  {
    s[..k] + [x] + s[k..]
  }

  ghost function PosInsert(pos: seq<nat>, k: nat, b: nat): (p: seq<nat>)
    ensures |p| == |pos|
  {
    seq(|pos|, x requires 0 <= x < |pos| => if x == b then k else if pos[x] >= k then pos[x] + 1 else pos[x])
  }

  /** b->next->prev = b->prev; b->prev->next = b->next. */
  lemma Unlink(next: seq<nat>, prev: seq<nat>, cyc: seq<nat>, pos: seq<nat>, k: nat)
    requires Linked(next, prev, cyc, pos) && 1 <= k < |cyc|
    ensures cyc[k] < |next| && next[cyc[k]] < |next| && prev[cyc[k]] < |next|
    ensures
      var b := cyc[k];
      Linked(next[prev[b] := next[b]], prev[next[b] := prev[b]], Without(cyc, k), PosWithout(pos, k))
  {
  }

  /** b->next = head.next; b->prev = head; head.next->prev = b; head.next = b. */
  lemma LinkFirst(next: seq<nat>, prev: seq<nat>, cyc: seq<nat>, pos: seq<nat>, b: nat)
    requires Linked(next, prev, cyc, pos) && b < |next|
    requires forall i :: 0 <= i < |cyc| ==> cyc[i] != b
    ensures cyc[0] < |next| && next[cyc[0]] < |next|
    ensures
      var h := cyc[0];
      Linked(next[b := next[h]][h := b], prev[b := h][next[h] := b], Insert(cyc, 1, b), PosInsert(pos, 1, b))
  {
  }
}
