/** What several modules share. */
module Common {

  const NPROC := 64

  datatype Option<T> = None | Some(value: T)

  /** s without its element k. */
  function Without<T>(s: seq<T>, k: nat): seq<T>
    requires k < |s|
  {
    s[..k] + s[k + 1..]
  }

  /** The places of the nodes of a list after the node at place k has left it. */
  ghost function PosWithout(pos: seq<nat>, k: nat): (r: seq<nat>)
    ensures |r| == |pos|
  {
    seq(|pos|, x requires 0 <= x < |pos| => if pos[x] > k then (pos[x] - 1) as nat else pos[x])
  }
}
