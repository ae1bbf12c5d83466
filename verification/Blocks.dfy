/** Disk blocks as bytes, and the 32-bit little-endian integers the kernel
    stores in them (the log header, the indirect block). */
module Blocks {

  const BSIZE := 512
  const UINTS := 128

  type Byte = x: int | 0 <= x < 256
  type Uint = x: int | 0 <= x < 0x1_0000_0000
  type Block = b: seq<Byte> | |b| == BSIZE witness seq(BSIZE, _ => 0)

  function ZeroBlock(): Block {
    seq(BSIZE, _ => 0)
  }

  /** The uint at index k of the block seen as an array of uints. */
  function GetUint(b: Block, k: nat): Uint
    requires k < UINTS
  {
    var b0: int, b1: int, b2: int, b3: int := b[4 * k], b[4 * k + 1], b[4 * k + 2], b[4 * k + 3];
    b0 + 256 * (b1 + 256 * (b2 + 256 * b3))
  }

  function PutUint(b: Block, k: nat, v: Uint): Block
    requires k < UINTS
  {
    b[4 * k := v % 256]
     [4 * k + 1 := v / 256 % 256]
     [4 * k + 2 := v / 256 / 256 % 256]
     [4 * k + 3 := v / 256 / 256 / 256]
  }

  lemma GetPut(b: Block, k: nat, v: Uint, j: nat)
    requires k < UINTS && j < UINTS
    ensures GetUint(PutUint(b, k, v), j) == if j == k then v else GetUint(b, j)
  {
  }

  lemma PutZeroBack(b: Block, k: nat)
    requires k < UINTS && GetUint(b, k) == 0
    ensures PutUint(b, k, 0) == b
  {
  }

  /** A block of zero bytes is an array of zero uints. */
  lemma ZeroUints(k: nat)
    requires k < UINTS
    ensures GetUint(ZeroBlock(), k) == 0
  {
  }

  /** The uints at k, k+1, ..., k+n-1. */
  function GetUints(b: Block, k: nat, n: nat): (us: seq<Uint>)
    requires k + n <= UINTS
    ensures |us| == n
  {
    if n == 0 then [] else GetUints(b, k, n - 1) + [GetUint(b, k + n - 1)]
  }

  lemma {:induction false} GetUintsAt(b: Block, k: nat, n: nat, i: nat)
    requires k + n <= UINTS && i < n
    ensures GetUints(b, k, n)[i] == GetUint(b, k + i)
  {
    if i < n - 1 {
      GetUintsAt(b, k, n - 1, i);
    }
  }

  function PutUints(b: Block, k: nat, us: seq<Uint>): Block
    requires k + |us| <= UINTS
    decreases |us|
  {
    if us == [] then b else PutUint(PutUints(b, k, us[..|us| - 1]), k + |us| - 1, us[|us| - 1])
  }

  lemma {:induction false} GetPutUints(b: Block, k: nat, us: seq<Uint>, j: nat)
    requires k + |us| <= UINTS && j < UINTS
    ensures GetUint(PutUints(b, k, us), j) == if k <= j < k + |us| then us[j - k] else GetUint(b, j)
    decreases |us|
  {
    if us != [] {
      var front := us[..|us| - 1];
      GetPutUints(b, k, front, j);
      GetPut(PutUints(b, k, front), k + |us| - 1, us[|us| - 1], j);
    }
  }
}
