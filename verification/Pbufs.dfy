/**
  lwIP packet buffers, as far as the receive path of the clients relies on them.

  A pbuf is a cell with a payload, a link, a 16-bit `tot_len` and a reference
  count.  `pbuf_free` and `pbuf_cat` are given by the walks over the cells that
  lwIP performs; the lemmas say what those walks do to whole chains.
 */
module Pbufs {

  newtype byte = x: int | 0 <= x < 256

  datatype Ptr = Null | At(id: nat)

  datatype Pbuf = Pbuf(payload: seq<byte>, next: Ptr, totLen: nat, refs: nat)

  type Cells = map<nat, Pbuf>

  const U16: nat := 65536
  const U32: nat := 0x1_0000_0000

  function Bytes(payloads: seq<seq<byte>>): seq<byte> {
    if payloads == [] then [] else payloads[0] + Bytes(payloads[1..])
  }

  lemma {:induction false} BytesConcat(a: seq<seq<byte>>, b: seq<seq<byte>>)
    ensures Bytes(a + b) == Bytes(a) + Bytes(b)
  {
    if a == [] {
      assert a + b == b;
    } else {
      assert (a + b)[1..] == a[1..] + b;
      BytesConcat(a[1..], b);
    }
  }

  lemma BytesSnoc(all: seq<seq<byte>>, k: nat)
    requires k < |all|
    ensures Bytes(all[..k + 1]) == Bytes(all[..k]) + all[k]
  {
    assert all[..k + 1] == all[..k] + [all[k]];
    BytesConcat(all[..k], [all[k]]);
    assert [all[k]][1..] == [];
  }

  lemma BytesAdd(all: seq<seq<byte>>, one: seq<byte>)
    ensures Bytes(all + [one]) == Bytes(all) + one
  {
    BytesConcat(all, [one]);
    assert [one][1..] == [];
  }

  /** What lwIP may pass to a receive callback: a chain of non-empty buffers with 16-bit lengths. */
  predicate Deliverable(payloads: seq<seq<byte>>) {
    payloads != [] && forall i | 0 <= i < |payloads| :: 0 < |payloads[i]| < U16
  }

  ghost function Content(cells: Cells, ids: seq<nat>): seq<byte> {
    if ids == [] then []
    else (if ids[0] in cells then cells[ids[0]].payload else []) + Content(cells, ids[1..])
  }

  /** `ids` are distinct cells linked from `p` on to `end`, each with one reference. */
  ghost predicate Run(cells: Cells, p: Ptr, ids: seq<nat>, end: Ptr)
    decreases |ids|
  {
    if ids == [] then p == end
    else
      && p == At(ids[0]) && ids[0] in cells && ids[0] !in ids[1..]
      && cells[ids[0]].refs == 1
      && Run(cells, cells[ids[0]].next, ids[1..], end)
  }

  /**
    `ids` are distinct cells linked from `p` on to the null pointer, with non-empty payloads and
    every `tot_len` the number of bytes from its cell on modulo 2^16.  The first cell has `first`
    references and every other one has one.
   */
  ghost predicate Chain(cells: Cells, p: Ptr, ids: seq<nat>, first: nat)
    decreases |ids|
  {
    if ids == [] then p == Null
    else
      && p == At(ids[0]) && ids[0] in cells && ids[0] !in ids[1..]
      && 0 < |cells[ids[0]].payload| < U16
      && cells[ids[0]].refs == first
      && cells[ids[0]].totLen == |Content(cells, ids)| % U16
      && Chain(cells, cells[ids[0]].next, ids[1..], 1)
  }

  ghost predicate Agree(c: Cells, d: Cells, ids: seq<nat>) {
    forall k | k in ids :: k in c && k in d && c[k] == d[k]
  }

  lemma {:induction false} ContentAppend(cells: Cells, a: seq<nat>, b: seq<nat>)
    ensures Content(cells, a + b) == Content(cells, a) + Content(cells, b)
  {
    if a == [] {
      assert a + b == b;
    } else {
      ContentAppend(cells, a[1..], b);
      assert (a + b)[1..] == a[1..] + b;
    }
  }

  lemma {:induction false} ContentFrame(c: Cells, d: Cells, ids: seq<nat>)
    requires forall k | k in ids :: k in c && k in d && c[k].payload == d[k].payload
    ensures Content(c, ids) == Content(d, ids)
  {
    if ids != [] {
      ContentFrame(c, d, ids[1..]);
    }
  }

  lemma {:induction false} ChainFrame(c: Cells, d: Cells, p: Ptr, ids: seq<nat>, first: nat)
    requires Chain(c, p, ids, first) && Agree(c, d, ids)
    ensures Chain(d, p, ids, first)
    decreases |ids|
  {
    if ids != [] {
      ContentFrame(c, d, ids);
      ChainFrame(c, d, c[ids[0]].next, ids[1..], 1);
    }
  }

  lemma {:induction false} RunFrame(c: Cells, d: Cells, p: Ptr, ids: seq<nat>, end: Ptr)
    requires Run(c, p, ids, end) && Agree(c, d, ids)
    ensures Run(d, p, ids, end)
    decreases |ids|
  {
    if ids != [] {
      RunFrame(c, d, c[ids[0]].next, ids[1..], end);
    }
  }

  lemma {:induction false} ChainPresent(cells: Cells, p: Ptr, ids: seq<nat>, first: nat)
    requires Chain(cells, p, ids, first)
    ensures forall k | k in ids :: k in cells
    decreases |ids|
  {
    if ids != [] {
      ChainPresent(cells, cells[ids[0]].next, ids[1..], 1);
    }
  }

  lemma {:induction false} ChainIsRun(cells: Cells, p: Ptr, ids: seq<nat>)
    requires Chain(cells, p, ids, 1)
    ensures Run(cells, p, ids, Null)
    decreases |ids|
  {
    if ids != [] {
      ChainIsRun(cells, cells[ids[0]].next, ids[1..]);
    }
  }

  /** Only the first count matters to how a chain may be re-counted. */
  lemma Recount(cells: Cells, p: Ptr, ids: seq<nat>, first: nat, again: nat)
    requires ids != [] && Chain(cells, p, ids, first)
    ensures Chain(cells[ids[0] := cells[ids[0]].(refs := again)], p, ids, again)
    ensures Content(cells[ids[0] := cells[ids[0]].(refs := again)], ids) == Content(cells, ids)
  {
    var d := cells[ids[0] := cells[ids[0]].(refs := again)];
    ChainPresent(cells, p, ids, first);
    ContentFrame(cells, d, ids);
    ChainFrame(cells, d, cells[ids[0]].next, ids[1..], 1);
  }

  lemma {:induction false} RunExtend(cells: Cells, p: Ptr, a: seq<nat>, mid: Ptr, b: seq<nat>, end: Ptr)
    requires Run(cells, p, a, mid) && Run(cells, mid, b, end)
    requires forall k | k in a :: k !in b
    ensures Run(cells, p, a + b, end)
    decreases |a|
  {
    if a == [] {
      assert a + b == b;
    } else {
      assert (a + b)[1..] == a[1..] + b;
      RunExtend(cells, cells[a[0]].next, a[1..], mid, b, end);
    }
  }

  // ----- pbuf_free: decrement, and walk on while a count reaches zero -----

  lemma RemoveSmaller(cells: Cells, id: nat)
    requires id in cells
    ensures |cells - {id}| < |cells|
  {
    assert (cells - {id}).Keys == cells.Keys - {id};
  }

  /** Every cell the walk from `p` looks at is allocated and has a positive count. */
  ghost predicate FreeSafe(cells: Cells, p: Ptr)
    decreases |cells|
  {
    if p.Null? then true
    else if p.id !in cells || cells[p.id].refs == 0 then false
    else if cells[p.id].refs > 1 then true
    else RemoveSmaller(cells, p.id); FreeSafe(cells - {p.id}, cells[p.id].next)
  }

  ghost function FreeWalk(cells: Cells, p: Ptr): Cells
    requires FreeSafe(cells, p)
    decreases |cells|
  {
    if p.Null? then cells
    else if cells[p.id].refs > 1 then cells[p.id := cells[p.id].(refs := cells[p.id].refs - 1)]
    else RemoveSmaller(cells, p.id); FreeWalk(cells - {p.id}, cells[p.id].next)
  }

  ghost function Ids(ids: seq<nat>): set<nat> {
    set k | k in ids
  }

  /** Releasing a run of singly referenced cells removes exactly those and goes on at its end. */
  lemma {:induction false} FreeRun(cells: Cells, p: Ptr, ids: seq<nat>, end: Ptr)
    requires Run(cells, p, ids, end) && FreeSafe(cells - Ids(ids), end)
    ensures FreeSafe(cells, p)
    ensures FreeWalk(cells, p) == FreeWalk(cells - Ids(ids), end)
    decreases |ids|
  {
    if ids == [] {
      assert cells - Ids(ids) == cells;
    } else {
      var rest := cells - {ids[0]};
      RunPresent(cells, cells[ids[0]].next, ids[1..], end);
      RunFrame(cells, rest, cells[ids[0]].next, ids[1..], end);
      assert cells - Ids(ids) == rest - Ids(ids[1..]);
      FreeRun(rest, cells[ids[0]].next, ids[1..], end);
    }
  }

  lemma {:induction false} RunPresent(cells: Cells, p: Ptr, ids: seq<nat>, end: Ptr)
    requires Run(cells, p, ids, end)
    ensures forall k | k in ids :: k in cells
    decreases |ids|
  {
    if ids != [] {
      RunPresent(cells, cells[ids[0]].next, ids[1..], end);
    }
  }

  // ----- pbuf_cat: add the tail's length to every cell and link the last one -----

  function Lengthen(c: Pbuf, extra: nat): Pbuf {
    c.(totLen := (c.totLen + extra) % U16)
  }

  ghost function CatWalk(cells: Cells, ids: seq<nat>, tail: Ptr, extra: nat): Cells
    requires ids != [] && forall k | k in ids :: k in cells
  {
    var c := Lengthen(cells[ids[0]], extra);
    if |ids| == 1 then cells[ids[0] := c.(next := tail)]
    else CatWalk(cells[ids[0] := c], ids[1..], tail, extra)
  }

  lemma {:induction false} CatWalkFrame(cells: Cells, ids: seq<nat>, tail: Ptr, extra: nat)
    requires ids != [] && forall k | k in ids :: k in cells
    ensures CatWalk(cells, ids, tail, extra).Keys == cells.Keys
    ensures forall k | k in cells && k !in ids :: CatWalk(cells, ids, tail, extra)[k] == cells[k]
    ensures forall k | k in cells ::
      CatWalk(cells, ids, tail, extra)[k].payload == cells[k].payload && CatWalk(cells, ids, tail, extra)[k].refs == cells[k].refs
  {
    if |ids| > 1 {
      CatWalkFrame(cells[ids[0] := Lengthen(cells[ids[0]], extra)], ids[1..], tail, extra);
    }
  }

  lemma ModAdd(a: nat, b: nat)
    ensures (a % U16 + b % U16) % U16 == (a + b) % U16
  {
  }

  lemma CatContent(cells: Cells, ids: seq<nat>, tail: Ptr, extra: nat, more: seq<nat>)
    requires ids != [] && (forall k | k in ids :: k in cells) && (forall k | k in more :: k in cells)
    ensures Content(CatWalk(cells, ids, tail, extra), ids + more) == Content(cells, ids) + Content(cells, more)
  {
    var d := CatWalk(cells, ids, tail, extra);
    CatWalkFrame(cells, ids, tail, extra);
    ContentFrame(cells, d, ids);
    ContentFrame(cells, d, more);
    ContentAppend(d, ids, more);
  }

  lemma {:induction false} CatChain(cells: Cells, p: Ptr, ids: seq<nat>, first: nat, tail: Ptr, more: seq<nat>)
    requires ids != [] && Chain(cells, p, ids, first) && Chain(cells, tail, more, 1)
    requires forall k | k in ids :: k in cells && k !in more
    ensures Chain(CatWalk(cells, ids, tail, |Content(cells, more)| % U16), p, ids + more, first)
    decreases |ids|
  {
    var extra := |Content(cells, more)| % U16;
    var d := CatWalk(cells, ids, tail, extra);
    ChainPresent(cells, tail, more, 1);
    CatWalkFrame(cells, ids, tail, extra);
    assert Lengthen(cells[ids[0]], extra).totLen == |Content(d, ids + more)| % U16 by {
      CatContent(cells, ids, tail, extra, more);
      ModAdd(|Content(cells, ids)|, |Content(cells, more)|);
    }
    assert (ids + more)[1..] == ids[1..] + more;
    if |ids| == 1 {
      assert ids[1..] + more == more;
      ChainFrame(cells, d, tail, more, 1);
    } else {
      var step := cells[ids[0] := Lengthen(cells[ids[0]], extra)];
      var next := cells[ids[0]].next;
      ContentFrame(cells, step, more);
      ChainFrame(cells, step, next, ids[1..], 1);
      ChainFrame(cells, step, tail, more, 1);
      CatChain(step, next, ids[1..], 1, tail, more);
      CatWalkFrame(step, ids[1..], tail, extra);
    }
  }

  // ----- the cells lwIP hands to a receive callback -----

  function Fresh(cells: Cells, base: nat, payloads: seq<seq<byte>>): Cells
    decreases |payloads|
  {
    if payloads == [] then cells
    else
      var next := if |payloads| == 1 then Null else At(base + 1);
      Fresh(cells, base + 1, payloads[1..])[base := Pbuf(payloads[0], next, |Bytes(payloads)| % U16, 1)]
  }

  ghost function FreshIds(base: nat, n: nat): (ids: seq<nat>)
    ensures forall k :: k in ids <==> base <= k < base + n
    decreases n
  {
    if n == 0 then [] else [base] + FreshIds(base + 1, n - 1)
  }

  lemma {:induction false} FreshFrame(cells: Cells, base: nat, payloads: seq<seq<byte>>)
    ensures var d := Fresh(cells, base, payloads);
      && (forall k :: k in d <==> k in cells || base <= k < base + |payloads|)
      && (forall k | k in cells && !(base <= k < base + |payloads|) :: d[k] == cells[k])
    decreases |payloads|
  {
    if payloads != [] {
      FreshFrame(cells, base + 1, payloads[1..]);
    }
  }

  lemma {:induction false} FreshChain(cells: Cells, base: nat, payloads: seq<seq<byte>>)
    requires Deliverable(payloads)
    ensures var d, ids := Fresh(cells, base, payloads), FreshIds(base, |payloads|);
      Content(d, ids) == Bytes(payloads) && Chain(d, At(base), ids, 1)
    decreases |payloads|
  {
    var d, ids := Fresh(cells, base, payloads), FreshIds(base, |payloads|);
    var tail := ids[1..];
    assert tail == FreshIds(base + 1, |payloads| - 1);
    if |payloads| == 1 {
      assert tail == [] && payloads[1..] == [];
      assert Bytes(payloads[1..]) == [] && Content(d, tail) == [];
    } else {
      var rest := Fresh(cells, base + 1, payloads[1..]);
      FreshChain(cells, base + 1, payloads[1..]);
      ChainPresent(rest, At(base + 1), tail, 1);
      ContentFrame(rest, d, tail);
      ChainFrame(rest, d, At(base + 1), tail, 1);
    }
  }
}
