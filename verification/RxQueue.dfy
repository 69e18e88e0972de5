/**
  The receive queue that `TcpClientInterface` and `TlsClientInterface` share in form: a pointer
  `m_rxBuf` to a chain of pbufs and `m_rxBufOffset`, the bytes already taken from its head.

  Each method is one critical section of the source, or one of the lwIP calls made outside it.
 */
module RxQueues {
  import opened Pbufs

  ghost function First(ids: seq<nat>): Ptr {
    if ids == [] then Null else At(ids[0])
  }

  /**
    What the queue is a representation of.
    `chain`: the cells reachable from `rxBuf`; `limbo`: cells a section has detached that are not
    released yet; `shared`: the one cell in limbo still links to the head of the chain;
    `arrived`: how many bytes of the peer's stream have been delivered; `taken`: how many of those
    have left the chain.
   */
  datatype Ledger = Ledger(chain: seq<nat>, limbo: seq<nat>, shared: bool, arrived: nat, taken: nat)
  {
    ghost function HeadRefs(): nat {
      if shared then 2 else 1
    }

    /** How many bytes have arrived and not been taken. */
    ghost function Held(): int {
      arrived - taken
    }
  }

  /**
    The allocated cells are exactly those of the chain from `rxBuf` and those in limbo.  Every count
    is 1, except that the head of the chain has a second reference while the cell in limbo links to it.
   */
  ghost predicate Owned(cells: Cells, nextId: nat, rxBuf: Ptr, g: Ledger) {
    && Chain(cells, rxBuf, g.chain, g.HeadRefs())
    && Run(cells, First(g.limbo), g.limbo, if g.shared then rxBuf else Null)
    && (g.shared ==> |g.limbo| == 1 && g.chain != [])
    && (forall k | k in g.chain :: k !in g.limbo)
    && (forall k :: k in cells <==> k in g.chain || k in g.limbo)
    && (forall k | k in cells :: k < nextId)
  }

  /** The chain from the offset on holds exactly the arrived bytes that have not been taken. */
  ghost predicate Holds(wire: seq<byte>, cells: Cells, off: nat, g: Ledger) {
    && (if g.chain == [] then off == 0 else g.chain[0] in cells && off < |cells[g.chain[0]].payload|)
    && off <= |Content(cells, g.chain)|
    && g.taken <= g.arrived <= |wire|
    && wire[g.taken..g.arrived] == Content(cells, g.chain)[off..]
  }

  ghost predicate Sound(wire: seq<byte>, cells: Cells, nextId: nat, rxBuf: Ptr, off: nat, g: Ledger) {
    Owned(cells, nextId, rxBuf, g) && Holds(wire, cells, off, g)
  }

  lemma Fronts(wire: seq<byte>, from: nat, to: nat, head: seq<byte>, rest: seq<byte>)
    requires from <= to <= |wire| && wire[from..to] == head + rest
    ensures from + |head| <= to && wire[from..from + |head|] == head
  {
    assert |head + rest| == to - from;
    forall i | 0 <= i < |head| ensures wire[from + i] == head[i] {
      assert wire[from..to][i] == (head + rest)[i];
    }
  }

  lemma Backs(wire: seq<byte>, from: nat, to: nat, head: seq<byte>, rest: seq<byte>)
    requires from <= to <= |wire| && wire[from..to] == head + rest
    ensures from + |head| <= to && wire[from + |head|..to] == rest
  {
    assert |head + rest| == to - from;
    assert wire[from + |head|..to] == wire[from..to][|head|..];
  }

  lemma HeadSound(wire: seq<byte>, cells: Cells, nextId: nat, rxBuf: Ptr, off: nat, g: Ledger)
    requires Sound(wire, cells, nextId, rxBuf, off, g)
    ensures rxBuf == First(g.chain) && g.taken <= g.arrived <= |wire| && (rxBuf.Null? <==> g.Held() == 0) && (rxBuf.Null? ==> off == 0)
    ensures rxBuf.At? ==>
      && rxBuf.id in cells && off < |cells[rxBuf.id].payload| < U16
      && |cells[rxBuf.id].payload| - off <= g.Held()
      && cells[rxBuf.id].payload[off..] == wire[g.taken..g.taken + |cells[rxBuf.id].payload| - off]
      && cells[rxBuf.id].totLen == (g.Held() + off) % U16
  {
    if rxBuf.At? {
      var c := cells[rxBuf.id];
      assert Content(cells, g.chain) == c.payload + Content(cells, g.chain[1..]);
      DropAppend(c.payload, Content(cells, g.chain[1..]), off);
      Fronts(wire, g.taken, g.arrived, c.payload[off..], Content(cells, g.chain[1..]));
    }
  }

  lemma DropAppend(a: seq<byte>, b: seq<byte>, n: nat)
    requires n <= |a|
    ensures (a + b)[n..] == a[n..] + b
  {
  }

  // ----- storing a delivered chain, after the old one or as the new one -----

  lemma FreshSound(cells: Cells, nextId: nat, rxBuf: Ptr, g: Ledger, payloads: seq<seq<byte>>)
    requires Owned(cells, nextId, rxBuf, g) && Deliverable(payloads)
    ensures var with, ids := Fresh(cells, nextId, payloads), FreshIds(nextId, |payloads|);
      && nextId in with && (forall k | k in g.chain :: k in with && k != nextId)
      && Chain(with, rxBuf, g.chain, g.HeadRefs()) && Content(with, g.chain) == Content(cells, g.chain)
      && Chain(with, At(nextId), ids, 1) && Content(with, ids) == Bytes(payloads)
      && (forall k | k in cells :: k in with && with[k] == cells[k])
      && (forall k | k in with :: k in cells || k in ids)
      && ids != [] && ids[0] == nextId
  {
    FreshFrame(cells, nextId, payloads);
    FreshChain(cells, nextId, payloads);
    ChainPresent(cells, rxBuf, g.chain, g.HeadRefs());
    var with := Fresh(cells, nextId, payloads);
    ChainFrame(cells, with, rxBuf, g.chain, g.HeadRefs());
    ContentFrame(cells, with, g.chain);
  }

  ghost function Stored(cells: Cells, nextId: nat, rxBuf: Ptr, g: Ledger, payloads: seq<seq<byte>>): Cells
    requires Owned(cells, nextId, rxBuf, g) && Deliverable(payloads)
  {
    FreshSound(cells, nextId, rxBuf, g, payloads);
    var with := Fresh(cells, nextId, payloads);
    if g.chain == [] then with else CatWalk(with, g.chain, At(nextId), with[nextId].totLen)
  }

  /** TCP delivers the peer's stream in order: the payloads are its next bytes. */
  predicate InOrder(wire: seq<byte>, arrived: nat, payloads: seq<seq<byte>>) {
    arrived + |Bytes(payloads)| <= |wire| && Bytes(payloads) == wire[arrived..arrived + |Bytes(payloads)|]
  }

  /** A callback of lwIP. */
  datatype Event =
    | Data(payloads: seq<seq<byte>>)  // the receive callback with a chain
    | Fin                             // the receive callback with no chain: the peer closed in order
    | Error                           // the error callback: lwIP has freed the pcb

  /** lwIP delivers the stream in order, and never more than the open window. */
  predicate Accepts(e: Event, wire: seq<byte>, nxt: nat, wnd: nat) {
    e.Data? && Deliverable(e.payloads) && InOrder(wire, nxt, e.payloads) && |Bytes(e.payloads)| <= wnd
  }

  lemma AcceptsMeans(e: Event, wire: seq<byte>, nxt: nat, wnd: nat)
    requires Accepts(e, wire, nxt, wnd)
    ensures Deliverable(e.payloads) && InOrder(wire, nxt, e.payloads) && |Bytes(e.payloads)| <= wnd
  {
  }

  function Brought(e: Event, wire: seq<byte>, nxt: nat, wnd: nat): (n: nat)
    ensures n <= wnd && (!e.Data? ==> n == 0)
  {
    if Accepts(e, wire, nxt, wnd) then |Bytes(e.payloads)| else 0
  }

  /** How many bytes a batch of callbacks brings up to an error. */
  function Arrivals(batch: seq<Event>, wire: seq<byte>, nxt: nat, wnd: nat): nat {
    if batch == [] || batch[0].Error? then 0
    else
      var n := Brought(batch[0], wire, nxt, wnd);
      n + Arrivals(batch[1..], wire, nxt + n, wnd - n)
  }

  ghost function Appended(g: Ledger, nextId: nat, payloads: seq<seq<byte>>): Ledger {
    g.(chain := g.chain + FreshIds(nextId, |payloads|), arrived := g.arrived + |Bytes(payloads)|)
  }

  lemma StoredFrame(cells: Cells, nextId: nat, rxBuf: Ptr, g: Ledger, payloads: seq<seq<byte>>)
    requires Owned(cells, nextId, rxBuf, g) && Deliverable(payloads)
    ensures var d := Stored(cells, nextId, rxBuf, g, payloads);
      && (forall k :: k in d <==> k in cells || nextId <= k < nextId + |payloads|)
      && (forall k | k in cells :: k !in g.chain ==> d[k] == cells[k])
      && (forall k | k in cells :: d[k].payload == cells[k].payload)
  {
    FreshSound(cells, nextId, rxBuf, g, payloads);
    FreshFrame(cells, nextId, payloads);
    var with := Fresh(cells, nextId, payloads);
    if g.chain != [] {
      CatWalkFrame(with, g.chain, At(nextId), with[nextId].totLen);
    }
  }

  lemma StoredChain(cells: Cells, nextId: nat, rxBuf: Ptr, g: Ledger, payloads: seq<seq<byte>>)
    requires Owned(cells, nextId, rxBuf, g) && Deliverable(payloads)
    ensures var d, ids := Stored(cells, nextId, rxBuf, g, payloads), g.chain + FreshIds(nextId, |payloads|);
      && Chain(d, if g.chain == [] then At(nextId) else rxBuf, ids, g.HeadRefs())
      && Content(d, ids) == Content(cells, g.chain) + Bytes(payloads)
  {
    FreshSound(cells, nextId, rxBuf, g, payloads);
    var with, ids := Fresh(cells, nextId, payloads), FreshIds(nextId, |payloads|);
    if g.chain == [] {
      assert g.chain + ids == ids;
    } else {
      ChainPresent(with, At(nextId), ids, 1);
      CatChain(with, rxBuf, g.chain, g.HeadRefs(), At(nextId), ids);
      CatContent(with, g.chain, At(nextId), with[nextId].totLen, ids);
    }
  }

  lemma AppendSound(wire: seq<byte>, cells: Cells, nextId: nat, rxBuf: Ptr, off: nat, g: Ledger, payloads: seq<seq<byte>>)
    requires Sound(wire, cells, nextId, rxBuf, off, g) && Deliverable(payloads)
    requires InOrder(wire, g.arrived, payloads)
    ensures var d, h := Stored(cells, nextId, rxBuf, g, payloads), Appended(g, nextId, payloads);
      && Sound(wire, d, nextId + |payloads|, if g.chain == [] then At(nextId) else rxBuf, off, h)
      && (g.chain == [] ==> off == 0)
      && (rxBuf.At? ==> rxBuf.id in cells && rxBuf.id in d && d[rxBuf.id].payload == cells[rxBuf.id].payload)
  {
    StoredChain(cells, nextId, rxBuf, g, payloads);
    StoredFrame(cells, nextId, rxBuf, g, payloads);
    var d, h := Stored(cells, nextId, rxBuf, g, payloads), Appended(g, nextId, payloads);
    RunPresent(cells, First(g.limbo), g.limbo, if g.shared then rxBuf else Null);
    RunFrame(cells, d, First(g.limbo), g.limbo, if g.shared then rxBuf else Null);
    assert wire[g.taken..h.arrived] == wire[g.taken..g.arrived] + Bytes(payloads);
    DropAppend(Content(cells, g.chain), Bytes(payloads), off);
    assert h.chain != [] && (g.chain != [] ==> h.chain[0] == g.chain[0]);
  }

  // ----- taking bytes from the head -----

  lemma SkipSound(wire: seq<byte>, cells: Cells, nextId: nat, rxBuf: Ptr, off: nat, g: Ledger, n: nat)
    requires Sound(wire, cells, nextId, rxBuf, off, g) && rxBuf.At?
    requires rxBuf.id in cells && n < |cells[rxBuf.id].payload| - off
    ensures Sound(wire, cells, nextId, rxBuf, off + n, g.(taken := g.taken + n))
  {
    assert Content(cells, g.chain) == cells[rxBuf.id].payload + Content(cells, g.chain[1..]);
    assert wire[g.taken + n..g.arrived] == wire[g.taken..g.arrived][n..];
  }

  ghost function Popped(g: Ledger, n: nat): Ledger
    requires g.chain != []
  {
    g.(chain := g.chain[1..], limbo := g.chain[..1], shared := |g.chain| > 1, taken := g.taken + n)
  }

  /** `pbuf_ref` of the cell that becomes the head. */
  function Referenced(cells: Cells, next: Ptr): Cells
    requires next.At? ==> next.id in cells
  {
    if next.Null? then cells else cells[next.id := cells[next.id].(refs := cells[next.id].refs + 1)]
  }

  lemma PopChain(cells: Cells, nextId: nat, rxBuf: Ptr, g: Ledger)
    requires Owned(cells, nextId, rxBuf, g) && g.limbo == [] && g.chain != []
    ensures var next := cells[g.chain[0]].next;
      && (next.At? ==> next.id in cells) && (next.Null? <==> |g.chain| == 1)
      && var d := Referenced(cells, next);
      && Chain(d, next, g.chain[1..], if |g.chain| > 1 then 2 else 1)
      && Content(d, g.chain[1..]) == Content(cells, g.chain[1..])
      && Run(d, rxBuf, g.chain[..1], next)
  {
    var next := cells[g.chain[0]].next;
    assert Chain(cells, next, g.chain[1..], 1);
    if next.At? {
      Recount(cells, next, g.chain[1..], 1, 2);
    }
    var d := Referenced(cells, next);
    var head := g.chain[..1];
    assert head[1..] == [] && Run(d, next, head[1..], next);
    assert d[head[0]] == cells[head[0]];
  }

  lemma PopSound(wire: seq<byte>, cells: Cells, nextId: nat, rxBuf: Ptr, off: nat, g: Ledger)
    requires Sound(wire, cells, nextId, rxBuf, off, g) && g.limbo == [] && rxBuf.At?
    ensures rxBuf.id in cells && off < |cells[rxBuf.id].payload| && g.chain != []
    ensures var next := cells[rxBuf.id].next;
      && (next.At? ==> next.id in cells)
      && Sound(wire, Referenced(cells, next), nextId, next, 0, Popped(g, |cells[rxBuf.id].payload| - off))
  {
    PopChain(cells, nextId, rxBuf, g);
    var payload, rest := cells[rxBuf.id].payload, Content(cells, g.chain[1..]);
    assert Content(cells, g.chain) == payload + rest;
    DropAppend(payload, rest, off);
    Backs(wire, g.taken, g.arrived, payload[off..], rest);
    assert g.chain == g.chain[..1] + g.chain[1..];
    assert rest[0..] == rest;
    hide Content;
  }

  // ----- releasing detached cells, and dropping the chain from a callback -----

  ghost function Released(g: Ledger): Ledger {
    g.(limbo := [], shared := false)
  }

  /** `pbuf_free` of the detached cell, whatever arrived or was dropped since the section. */
  lemma ReleaseSound(wire: seq<byte>, cells: Cells, nextId: nat, rxBuf: Ptr, off: nat, g: Ledger)
    requires Sound(wire, cells, nextId, rxBuf, off, g)
    ensures FreeSafe(cells, First(g.limbo))
    ensures var d := FreeWalk(cells, First(g.limbo));
      && Sound(wire, d, nextId, rxBuf, off, Released(g))
      && (rxBuf.At? ==> rxBuf.id in d && rxBuf.id in cells && d[rxBuf.id].payload == cells[rxBuf.id].payload)
  {
    var rest := cells - Ids(g.limbo);
    ChainPresent(cells, rxBuf, g.chain, g.HeadRefs());
    ChainFrame(cells, rest, rxBuf, g.chain, g.HeadRefs());
    ContentFrame(cells, rest, g.chain);
    FreeRun(cells, First(g.limbo), g.limbo, if g.shared then rxBuf else Null);
    if g.shared {
      Recount(rest, rxBuf, g.chain, 2, 1);
    }
  }

  ghost function Dropped(g: Ledger): Ledger {
    g.(chain := [], limbo := if g.shared then g.limbo + g.chain else g.limbo, shared := false, taken := g.arrived)
  }

  /** `pbuf_free` of the chain itself, from a callback that may run while a cell is in limbo. */
  lemma DropSound(wire: seq<byte>, cells: Cells, nextId: nat, rxBuf: Ptr, off: nat, g: Ledger)
    requires Sound(wire, cells, nextId, rxBuf, off, g)
    ensures FreeSafe(cells, rxBuf)
    ensures Sound(wire, FreeWalk(cells, rxBuf), nextId, Null, 0, Dropped(g))
    ensures First(Dropped(g).limbo) == First(g.limbo)
  {
    if g.shared {
      var d := cells[g.chain[0] := cells[g.chain[0]].(refs := 1)];
      Recount(cells, rxBuf, g.chain, 2, 1);
      ChainIsRun(d, rxBuf, g.chain);
      RunFrame(cells, d, First(g.limbo), g.limbo, rxBuf);
      RunExtend(d, First(g.limbo), g.limbo, rxBuf, g.chain, Null);
    } else {
      var d := cells - Ids(g.chain);
      ChainIsRun(cells, rxBuf, g.chain);
      FreeRun(cells, rxBuf, g.chain, Null);
      RunPresent(cells, First(g.limbo), g.limbo, Null);
      RunFrame(cells, d, First(g.limbo), g.limbo, Null);
    }
  }

  ghost function Detached(g: Ledger): Ledger {
    g.(chain := [], limbo := g.chain, taken := g.arrived)
  }

  lemma DetachSound(wire: seq<byte>, cells: Cells, nextId: nat, rxBuf: Ptr, off: nat, g: Ledger)
    requires Sound(wire, cells, nextId, rxBuf, off, g) && g.limbo == []
    ensures Sound(wire, cells, nextId, Null, 0, Detached(g))
  {
    ChainIsRun(cells, rxBuf, g.chain);
  }

  lemma EmptySound(wire: seq<byte>)
    ensures Sound(wire, map[], 0, Null, 0, Ledger([], [], false, 0, 0))
  {
  }

  /** Two bytes arrive, one is taken, and a full window follows: the 16-bit length of the chain is 0. */
  lemma WrappedLength() returns (wire: seq<byte>, cells: Cells, nextId: nat, rxBuf: Ptr, off: nat, g: Ledger)
    ensures Sound(wire, cells, nextId, rxBuf, off, g) && g.Held() == 65535 && off == 1
    ensures rxBuf.At? && rxBuf.id in cells && cells[rxBuf.id].totLen == 0
  {
    hide Owned, Holds;
    wire := seq(65536, _ => 0);
    EmptySound(wire);
    var first, more := [wire[..2]], [wire[2..]];
    g := Ledger([], [], false, 0, 0);
    assert first[1..] == [] && more[1..] == [];
    assert wire[0..0 + 2] == wire[..2] && wire[2..2 + 65534] == wire[2..];
    AppendSound(wire, map[], 0, Null, 0, g, first);
    cells, g := Stored(map[], 0, Null, g, first), Appended(g, 0, first);
    HeadSound(wire, cells, 1, At(0), 0, g);
    SkipSound(wire, cells, 1, At(0), 0, g, 1);
    g := g.(taken := 1);
    AppendSound(wire, cells, 1, At(0), 1, g, more);
    cells, g := Stored(cells, 1, At(0), g, more), Appended(g, 1, more);
    HeadSound(wire, cells, 2, At(0), 1, g);
    nextId, rxBuf, off := 2, At(0), 1;
  }

  class RxQueue {
    const wire: seq<byte> // the peer's whole stream
    var cells: Cells      // every allocated pbuf of this connection
    var nextId: nat
    var rxBuf: Ptr        // m_rxBuf
    var rxOff: nat        // m_rxBufOffset
    ghost var g: Ledger

    ghost predicate Valid()
      reads this
    {
      Sound(wire, cells, nextId, rxBuf, rxOff, g)
    }

    /** The unread part of the head buffer. */
    function HeadBlock(): (s: seq<byte>)
      requires Valid()
      reads this
      ensures |s| <= g.Held() && g.taken + |s| <= |wire| && s == wire[g.taken..g.taken + |s|]
      ensures (s == [] <==> g.Held() == 0) && (s == [] <==> rxBuf == Null) && |s| < U16
    {
      HeadSound(wire, cells, nextId, rxBuf, rxOff, g);
      if rxBuf.Null? then [] else cells[rxBuf.id].payload[rxOff..]
    }

    /** `tot_len` of the head: all that is held, and what has been taken from the head, in 16 bits. */
    function TotLen(): (n: nat)
      requires Valid()
      reads this
      ensures n == (g.Held() + rxOff) % U16 && rxOff < U16 && (g.Held() == 0 ==> rxOff == 0)
    {
      HeadSound(wire, cells, nextId, rxBuf, rxOff, g);
      if rxBuf.Null? then 0 else cells[rxBuf.id].totLen
    }

    /** With nothing held and nothing detached, every buffer has been freed. */
    lemma Empty()
      requires Valid() && g.limbo == [] && g.Held() == 0
      ensures cells == map[]
    {
      HeadSound(wire, cells, nextId, rxBuf, rxOff, g);
    }

    constructor (wire: seq<byte>)
      ensures Valid() && this.wire == wire && g == Ledger([], [], false, 0, 0)
    {
      this.wire := wire;
      cells, nextId, rxBuf, rxOff, g := map[], 0, Null, 0, Ledger([], [], false, 0, 0);
    }

    method PbufFree(p: Ptr)
      requires FreeSafe(cells, p)
      modifies this`cells
      ensures cells == FreeWalk(old(cells), p)
    {
      var q := p;
      while q.At?
        invariant FreeSafe(cells, q) && FreeWalk(cells, q) == FreeWalk(old(cells), p)
        decreases q.At?, |cells|
      {
        var c := cells[q.id];
        if c.refs > 1 {
          cells := cells[q.id := c.(refs := c.refs - 1)];
          q := Null;
        } else {
          RemoveSmaller(cells, q.id);
          cells := cells - {q.id};
          q := c.next;
        }
      }
    }

    method PbufCat(tail: Ptr)
      requires tail.At? && tail.id in cells
      requires Chain(cells, rxBuf, g.chain, g.HeadRefs()) && g.chain != []
      requires forall k | k in g.chain :: k in cells && k != tail.id
      modifies this`cells
      ensures forall k | k in g.chain :: k in old(cells)
      ensures cells == CatWalk(old(cells), g.chain, tail, old(cells)[tail.id].totLen)
    {
      var q := rxBuf;
      var extra := cells[tail.id].totLen;
      ghost var rest := g.chain;
      ghost var first := g.HeadRefs();
      while cells[q.id].next.At?
        invariant rest != [] && (forall k | k in rest :: k in cells) && q == At(rest[0])
        invariant Chain(cells, q, rest, first)
        invariant CatWalk(cells, rest, tail, extra) == CatWalk(old(cells), g.chain, tail, extra)
        decreases |rest|
      {
        var c := cells[q.id];
        ghost var before := cells;
        cells := cells[q.id := Lengthen(c, extra)];
        ChainFrame(before, cells, c.next, rest[1..], 1);
        rest, first := rest[1..], 1;
        q := c.next;
      }
      assert |rest| == 1;
      cells := cells[q.id := Lengthen(cells[q.id], extra).(next := tail)];
    }

    /** The section of `onReceive`: lwIP hands over a chain and it is kept as delivered. */
    method Append(payloads: seq<seq<byte>>)
      requires Valid() && Deliverable(payloads) && InOrder(wire, g.arrived, payloads)
      modifies this
      ensures Valid() && g == Appended(old(g), old(nextId), payloads)
      ensures old(rxBuf).At? ==> HeadBlock() == old(HeadBlock()) && rxOff == old(rxOff)
    {
      AppendSound(wire, cells, nextId, rxBuf, rxOff, g, payloads);
      HeadSound(wire, cells, nextId, rxBuf, rxOff, g);
      FreshSound(cells, nextId, rxBuf, g, payloads);
      var p := At(nextId);
      cells := Fresh(cells, nextId, payloads);
      nextId := nextId + |payloads|;
      if rxBuf != Null {
        PbufCat(p);
      } else {
        rxBuf := p;
        rxOff := 0;
      }
      g := Appended(g, p.id, payloads);
    }

    /** The section of `consumeRxBuffer` and `consumeRxQueue`. */
    method Take(size: nat) returns (released: Ptr, n: nat)
      requires Valid() && g.limbo == []
      modifies this
      ensures Valid() && released == First(g.limbo)
      ensures n <= size && n <= old(g).Held() && (n == 0 <==> size == 0 || old(g).Held() == 0)
      ensures n == if size < |old(HeadBlock())| then size else |old(HeadBlock())|
      ensures g.arrived == old(g).arrived && g.taken == old(g).taken + n
      ensures (released.At? ==> n > 0) && g.Held() + rxOff <= old(g.Held() + rxOff)
    {
      released, n := Null, 0;
      HeadSound(wire, cells, nextId, rxBuf, rxOff, g);
      if rxBuf != Null {
        var headleft := |cells[rxBuf.id].payload| - rxOff;
        n := if size < headleft then size else headleft;
        if n < headleft {
          SkipSound(wire, cells, nextId, rxBuf, rxOff, g, n);
          rxOff := rxOff + n;
          g := g.(taken := g.taken + n);
        } else {
          released := rxBuf;
          PopHead();
        }
      }
    }

    /** The rest of the section when the head is emptied: move on and take a reference to the new head. */
    method PopHead()
      requires Valid() && g.limbo == [] && rxBuf.At?
      modifies this
      ensures Valid() && g.chain == old(g).chain[1..] && old(g).chain != [] && g.limbo == old(g).chain[..1]
      ensures g.arrived == old(g).arrived && g.taken == old(g).taken + |old(HeadBlock())| && rxOff == 0
    {
      PopSound(wire, cells, nextId, rxBuf, rxOff, g);
      g := Popped(g, |HeadBlock()|);
      if cells[rxBuf.id].next == Null {
        rxBuf := Null;
        rxOff := 0;
      } else {
        rxBuf := cells[rxBuf.id].next;
        rxOff := 0;
        cells := Referenced(cells, rxBuf);
      }
    }

    /** `pbuf_free` of what a section detached. */
    method Release(released: Ptr)
      requires Valid() && released == First(g.limbo)
      modifies this
      ensures Valid() && g == Released(old(g)) && HeadBlock() == old(HeadBlock()) && rxOff == old(rxOff)
    {
      ReleaseSound(wire, cells, nextId, rxBuf, rxOff, g);
      if released != Null {
        PbufFree(released);
      }
      g := Released(g);
    }

    /** The section of `flush` and `close`: the whole chain is detached and its unread length noted. */
    method Detach() returns (released: Ptr, pending: nat)
      requires Valid() && g.limbo == []
      modifies this
      ensures Valid() && g == Detached(old(g)) && released == First(g.limbo) && (released == Null <==> old(g).Held() == 0)
      ensures pending % U16 == old(g).Held() % U16 && (pending == 0 <==> old(g).Held() % U16 == 0)
    {
      released, pending := Null, 0;
      HeadSound(wire, cells, nextId, rxBuf, rxOff, g);
      DetachSound(wire, cells, nextId, rxBuf, rxOff, g);
      if rxBuf != Null {
        released := rxBuf;
        pending := (cells[rxBuf.id].totLen - rxOff) % U32;
        PendingModulo(g.Held(), rxOff);
        rxBuf := Null;
        rxOff := 0;
      }
      g := Detached(g);
    }

    static lemma PendingModulo(held: nat, off: nat)
      requires off < U16
      ensures (((held + off) % U16 - off) % U32) % U16 == held % U16
      ensures ((held + off) % U16 - off) % U32 == 0 <==> held % U16 == 0
    {
    }

    /** `flush` as the error callback runs it: detach and release in one go. */
    method Drop()
      requires Valid()
      modifies this
      ensures Valid() && g == Dropped(old(g)) && First(g.limbo) == First(old(g).limbo)
    {
      DropSound(wire, cells, nextId, rxBuf, rxOff, g);
      var released := rxBuf;
      rxBuf := Null;
      rxOff := 0;
      if released != Null {
        PbufFree(released);
      }
      g := Dropped(g);
    }
  }
}
