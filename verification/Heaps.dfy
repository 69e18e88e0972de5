/**
  The C heap as the certificate loader uses it.  Which allocations fail is unknown.  `Free`, `Realloc`
  and `Write` demand a block that is allocated, and `Write` that it is large enough; identities are
  never used twice, so that a second release of a block could not go unnoticed.
 */
module Heaps {
  import opened Options
  import opened Pbufs

  function Zeroed(n: nat): (s: seq<byte>)
    ensures |s| == n
  {
    seq(n, _ => 0)
  }

  type Blocks = map<nat, seq<byte>>

  function Without(b: Blocks, p: Option<nat>): Blocks {
    if p.Some? then b - {p.value} else b
  }

  class Heap {
    var blocks: Blocks
    var nextId: nat
    var tick: nat
    const fails: nat -> bool

    ghost predicate Valid()
      reads this
    {
      forall k | k in blocks :: k < nextId
    }

    /** No allocation fails. */
    ghost predicate Plenty() {
      forall t :: !fails(t)
    }

    constructor (fails: nat -> bool)
      ensures Valid() && blocks == map[]
    {
      blocks, nextId, tick := map[], 0, 0;
      this.fails := fails;
    }

    method Malloc(n: nat) returns (p: Option<nat>)
      requires Valid()
      modifies this
      ensures Valid() && tick == old(tick) + 1 && (p.Some? <==> !fails(tick))
      ensures p.None? ==> blocks == old(blocks)
      ensures p.Some? ==> p.value !in old(blocks) && blocks == old(blocks)[p.value := Zeroed(n)]
    {
      tick := tick + 1;
      p := None;
      if !fails(tick) {
        p := Some(nextId);
        blocks := blocks[nextId := Zeroed(n)];
        nextId := nextId + 1;
      }
    }

    method Free(p: Option<nat>)
      requires Valid() && (p.Some? ==> p.value in blocks)
      modifies this`blocks
      ensures Valid() && blocks == Without(old(blocks), p)
    {
      blocks := Without(blocks, p);
    }

    /** `realloc` to a positive size: the common part is kept, and a failure leaves the block alone. */
    method Realloc(p: Option<nat>, n: nat) returns (q: Option<nat>)
      requires Valid() && n > 0 && (p.Some? ==> p.value in blocks)
      modifies this
      ensures Valid() && (q.None? ==> !Plenty())
      ensures q.None? ==> blocks == old(blocks)
      ensures q.Some? ==>
        && q.value !in old(blocks) && q.value in blocks && |blocks[q.value]| == n
        && blocks == Without(old(blocks), p)[q.value := blocks[q.value]]
        && (p.Some? ==> forall m | 0 <= m <= n && m <= |old(blocks)[p.value]| :: blocks[q.value][..m] == old(blocks)[p.value][..m])
    {
      tick := tick + 1;
      q := None;
      if !fails(tick) {
        var had := if p.Some? then blocks[p.value] else [];
        var keep := if |had| < n then had + Zeroed(n - |had|) else had[..n];
        q := Some(nextId);
        blocks := Without(blocks, p)[nextId := keep];
        nextId := nextId + 1;
      }
    }

    /** `memcpy` into a block. */
    method Write(p: nat, at: nat, src: seq<byte>)
      requires Valid() && p in blocks && at + |src| <= |blocks[p]|
      modifies this`blocks
      ensures Valid() && blocks == old(blocks)[p := old(blocks)[p][..at] + src + old(blocks)[p][at + |src|..]]
    {
      blocks := blocks[p := blocks[p][..at] + src + blocks[p][at + |src|..]];
    }
  }
}
