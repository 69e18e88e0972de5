/**
  `loadCertChain` of the BearSSL certificate loader: a first pass over the PEM file counts the
  certificates and their bytes, a second one copies them into a block of exactly that size.

  The PEM decoder is the sequence of its events.  It does not nest objects, and reports data only
  inside one; the last object may be cut off.
 */
module CertLoader {
  import opened Options
  import opened Pbufs
  import opened Heaps

  datatype Event =
    | Begin(name: string)
    | Data(bytes: seq<byte>)
    | End
    | Error

  /** What one pass gets to see, and whether the file could be read to its end. */
  datatype Pass = Pass(events: seq<Event>, readOk: bool)

  datatype PemObject = PemObject(name: string, data: seq<byte>)

  // ----- the certificates in a file -----

  predicate Contains(s: string, sub: string) {
    |sub| <= |s| && (s[..|sub|] == sub || (s != [] && Contains(s[1..], sub)))
  }

  predicate IsCertificate(name: string) {
    Contains(name, "CERTIFICATE")
  }

  /** Objects do not nest, and data belongs to one. */
  predicate WellFormed(events: seq<Event>, open: bool) {
    events == [] ||
    match events[0]
    case Begin(_) => !open && WellFormed(events[1..], true)
    case Data(_) => open && WellFormed(events[1..], open)
    case End => open && WellFormed(events[1..], false)
    case Error => true
  }

  /** The completed objects, in order, given the one that is open. */
  function Objects(events: seq<Event>, open: Option<PemObject>): seq<PemObject> {
    if events == [] then []
    else
      match events[0]
      case Begin(name) => Objects(events[1..], Some(PemObject(name, [])))
      case Data(bytes) =>
        Objects(events[1..], if open.Some? then Some(open.value.(data := open.value.data + bytes)) else None)
      case End => (if open.Some? then [open.value] else []) + Objects(events[1..], None)
      case Error => []
  }

  /** The contents of the non-empty certificates among the objects. */
  function Certificates(objects: seq<PemObject>): seq<seq<byte>> {
    if objects == [] then []
    else (if Wanted(objects[0]) then [objects[0].data] else []) + Certificates(objects[1..])
  }

  predicate Wanted(o: PemObject) {
    IsCertificate(o.name) && o.data != []
  }

  function Certs(events: seq<Event>, open: Option<PemObject>): seq<seq<byte>> {
    Certificates(Objects(events, open))
  }

  predicate Fails(events: seq<Event>) {
    events != [] && (events[0].Error? || Fails(events[1..]))
  }

  lemma {:induction false} FailsAt(events: seq<Event>)
    ensures Fails(events) <==> exists i | 0 <= i < |events| :: events[i].Error?
  {
    if events != [] {
      FailsAt(events[1..]);
      assert forall i | 0 < i < |events| :: events[i] == events[1..][i - 1];
    }
  }

  lemma CertsStep(events: seq<Event>, open: Option<PemObject>)
    requires events != [] && WellFormed(events, open.Some?)
    ensures Certs(events, open) ==
      match events[0]
      case Begin(name) => Certs(events[1..], Some(PemObject(name, [])))
      case Data(bytes) => Certs(events[1..], Some(open.value.(data := open.value.data + bytes)))
      case End => (if Wanted(open.value) then [open.value.data] else []) + Certs(events[1..], None)
      case Error => []
  {
    if events[0].End? {
      assert Objects(events, open) == [open.value] + Objects(events[1..], None);
      assert ([open.value] + Objects(events[1..], None))[1..] == Objects(events[1..], None);
    }
  }

  /** If anything is still to come out while a certificate is open, that certificate comes out first. */
  lemma {:induction false} OpenFits(events: seq<Event>, o: PemObject)
    requires WellFormed(events, true) && Wanted(o) && Certs(events, Some(o)) != []
    ensures |o.data| <= |Certs(events, Some(o))[0]| && Certs(events, Some(o))[0][..|o.data|] == o.data
  {
    if events != [] {
      CertsStep(events, Some(o));
      if events[0].Data? {
        OpenFits(events[1..], o.(data := o.data + events[0].bytes));
        var c := Certs(events, Some(o))[0];
        assert c[..|o.data + events[0].bytes|][..|o.data|] == c[..|o.data|];
      }
    }
  }

  // ----- first pass -----

  /** `stream_pem` with the counting handler. */
  method CountPass(pass: Pass) returns (ok: bool, count: nat, total: nat)
    requires WellFormed(pass.events, false)
    ensures ok == (pass.readOk && !Fails(pass.events))
    ensures count == |Certs(pass.events, None)| && total == |Bytes(Certs(pass.events, None))|
  {
    ok, count, total := true, 0, 0;
    assert Bytes([]) == [];
    var i, current, sink := 0, 0, false;
    ghost var all := Certs(pass.events, None);
    ghost var open: Option<PemObject> := None;
    assert pass.events[0..] == pass.events;
    assert all[0..] == all && all[..0] == [];
    hide Certs, Pbufs.Bytes;
    while i < |pass.events| && ok
      invariant 0 <= i <= |pass.events| && (ok ==> WellFormed(pass.events[i..], open.Some?))
      invariant count <= |all| && (ok ==> Certs(pass.events[i..], open) == all[count..])
      invariant total == |Bytes(all[..count])|
      invariant current == (if open.Some? && sink then |open.value.data| else 0)
      invariant open.Some? ==> sink == IsCertificate(open.value.name)
      invariant Fails(pass.events) <==> (!ok || Fails(pass.events[i..]))
      invariant !ok ==> count == |all|
      decreases ok, |pass.events| - i
    {
      var e := pass.events[i];
      ghost var rest := pass.events[i..];
      assert rest[1..] == pass.events[i + 1..];
      CertsStep(rest, open);
      match e {
        case Begin(name) =>
          current := 0;
          sink := IsCertificate(name);
          open := Some(PemObject(name, []));
        case Data(bytes) =>
          if sink {
            current := current + |bytes|;
          }
          open := Some(open.value.(data := open.value.data + bytes));
        case End =>
          if current > 0 {
            BytesSnoc(all, count);
            assert all[count..][1..] == all[count + 1..];
            count := count + 1;
            total := total + current;
            current := 0;
          }
          open := None;
        case Error =>
          ok := false;
      }
      i := i + 1;
    }
    assert all[..|all|] == all;
    ok := ok && pass.readOk;
  }

  // ----- second pass -----

  /** An entry of the chain: a slice of the backing block. */
  datatype Entry = Entry(start: nat, len: nat)

  /** The handler's context, and whether the decoder's data goes to the sink. */
  datatype Fill = Fill(pos: nat, chain: seq<Entry>, chainPos: nat, start: nat, sink: bool)

  /**
    How many bytes the copying handler hands to its sink, which has no bound of its own.  `sink`: the
    open object goes there; `got`: some of it has; `done`: entries made so far; `cap`: entries there are.
   */
  function Sunk(events: seq<Event>, sink: bool, got: bool, done: nat, cap: nat): nat {
    if events == [] then 0
    else
      match events[0]
      case Begin(name) => Sunk(events[1..], IsCertificate(name) && done < cap, false, done, cap)
      case Data(bytes) => (if sink then |bytes| else 0) + Sunk(events[1..], sink, got || (sink && bytes != []), done, cap)
      case End => Sunk(events[1..], false, false, if got then done + 1 else done, cap)
      case Error => 0
  }

  function Starts(certs: seq<seq<byte>>, k: nat): nat
    requires k <= |certs|
  {
    |Bytes(certs[..k])|
  }

  /** Entry `k` is the `k`-th certificate, in a slice of its own right behind the ones before. */
  ghost predicate Listed(certs: seq<seq<byte>>, chain: seq<Entry>, n: nat, backing: seq<byte>) {
    && n <= |chain| && n <= |certs|
    && (forall k | 0 <= k < n :: chain[k] == Entry(Starts(certs, k), |certs[k]|))
    && Starts(certs, n) <= |backing| && backing[..Starts(certs, n)] == Bytes(certs[..n])
  }

  /**
    The second pass after some events of any stream: the finished certificates are in place, what the
    sink has got of the open one is behind them, and the rest of the stream yields the ones after.
   */
  ghost predicate Filling(certs: seq<seq<byte>>, f: Fill, backing: seq<byte>, rest: seq<Event>, open: Option<PemObject>) {
    && Listed(certs, f.chain, f.chainPos, backing)
    && WellFormed(rest, open.Some?) && (f.chainPos < |f.chain| ==> Certs(rest, open) == certs[f.chainPos..])
    && f.start == Starts(certs, f.chainPos) <= f.pos <= |backing|
    && (open.None? ==> f.pos == f.start)
    && (open.Some? && f.sink ==> IsCertificate(open.value.name) && f.chainPos < |f.chain| && backing[f.start..f.pos] == open.value.data)
    && (open.Some? && !f.sink ==> f.pos == f.start && (IsCertificate(open.value.name) ==> f.chainPos == |f.chain|))
  }

  /** What is still to come for the sink. */
  function Coming(f: Fill, rest: seq<Event>, open: Option<PemObject>): nat {
    Sunk(rest, open.Some? && f.sink, f.pos > f.start, f.chainPos, |f.chain|)
  }

  lemma FillData(certs: seq<seq<byte>>, f: Fill, backing: seq<byte>, rest: seq<Event>, open: Option<PemObject>)
    requires Filling(certs, f, backing, rest, open) && rest != [] && rest[0].Data?
    ensures open.Some?
    ensures var bytes := rest[0].bytes;
      var o := Some(open.value.(data := open.value.data + bytes));
      if f.sink then
        var g := f.(pos := f.pos + |bytes|);
        && Coming(f, rest, open) == |bytes| + Coming(g, rest[1..], o)
        && (f.pos + |bytes| <= |backing| ==>
              Filling(certs, g, backing[..f.pos] + bytes + backing[f.pos + |bytes|..], rest[1..], o))
      else Filling(certs, f, backing, rest[1..], o) && Coming(f, rest, open) == Coming(f, rest[1..], o)
  {
    CertsStep(rest, open);
    var bytes := rest[0].bytes;
    if f.sink && f.pos + |bytes| <= |backing| {
      var b := backing[..f.pos] + bytes + backing[f.pos + |bytes|..];
      assert b[..f.start] == backing[..f.start];
      assert b[f.start..f.pos + |bytes|] == backing[f.start..f.pos] + bytes;
    }
  }

  lemma FillBegin(certs: seq<seq<byte>>, f: Fill, backing: seq<byte>, rest: seq<Event>, open: Option<PemObject>)
    requires Filling(certs, f, backing, rest, open) && rest != [] && rest[0].Begin?
    ensures var name := rest[0].name;
      var sink := IsCertificate(name) && f.chainPos < |f.chain|;
      var g := f.(start := if sink then f.pos else f.start, sink := sink);
      && Filling(certs, g, backing, rest[1..], Some(PemObject(name, [])))
      && Coming(f, rest, open) == Coming(g, rest[1..], Some(PemObject(name, [])))
  {
    CertsStep(rest, None);
  }

  lemma FillEnd(certs: seq<seq<byte>>, f: Fill, backing: seq<byte>, rest: seq<Event>, open: Option<PemObject>)
    requires Filling(certs, f, backing, rest, open) && rest != [] && rest[0].End?
    ensures f.pos > f.start ==>
      && f.chainPos < |f.chain|
      && var g := f.(chain := f.chain[f.chainPos := Entry(f.start, f.pos - f.start)], chainPos := f.chainPos + 1, start := f.pos);
      && Filling(certs, g, backing, rest[1..], None) && Coming(f, rest, open) == Coming(g, rest[1..], None)
    ensures f.pos == f.start ==> Filling(certs, f, backing, rest[1..], None) && Coming(f, rest, open) == Coming(f, rest[1..], None)
    ensures f.pos >= f.start
  {
    hide Certs, IsCertificate, Fails;
    CertsStep(rest, open);
    if f.pos > f.start {
      assert certs[f.chainPos..][0] == open.value.data && certs[f.chainPos..][1..] == certs[f.chainPos + 1..];
      BytesSnoc(certs, f.chainPos);
      assert backing[..f.pos] == backing[..f.start] + backing[f.start..f.pos];
    }
  }

  /** One event that is not an error; `overrun` says that its data would go past the block. */
  method FillEvent(h: Heap, backing: nat, e: Event, f0: Fill,
                   ghost certs: seq<seq<byte>>, ghost rest: seq<Event>, ghost open0: Option<PemObject>)
    returns (f: Fill, overrun: bool, ghost open: Option<PemObject>)
    requires h.Valid() && backing in h.blocks && rest != [] && e == rest[0] && !e.Error?
    requires Filling(certs, f0, h.blocks[backing], rest, open0)
    modifies h`blocks
    ensures h.Valid() && backing in h.blocks && h.blocks == old(h.blocks)[backing := h.blocks[backing]]
    ensures |h.blocks[backing]| == |old(h.blocks)[backing]| && |f.chain| == |f0.chain|
    ensures overrun ==> f0.pos + Coming(f0, rest, open0) > |h.blocks[backing]|
    ensures !overrun ==>
      && Filling(certs, f, h.blocks[backing], rest[1..], open)
      && f.pos + Coming(f, rest[1..], open) == f0.pos + Coming(f0, rest, open0)
  {
    f, overrun, open := f0, false, open0;
    hide Filling, Coming;
    match e {
      case Begin(name) =>
        FillBegin(certs, f, h.blocks[backing], rest, open);
        var sink := IsCertificate(name) && f.chainPos < |f.chain|;
        f := f.(start := if sink then f.pos else f.start, sink := sink);
        open := Some(PemObject(name, []));
      case Data(bytes) =>
        FillData(certs, f, h.blocks[backing], rest, open);
        if f.sink {
          overrun := f.pos + |bytes| > |h.blocks[backing]|;
          if !overrun {
            h.Write(backing, f.pos, bytes);
          }
          f := f.(pos := f.pos + |bytes|);
        }
        open := Some(open.value.(data := open.value.data + bytes));
      case End =>
        FillEnd(certs, f, h.blocks[backing], rest, open);
        if f.pos > f.start {
          f := f.(chain := f.chain[f.chainPos := Entry(f.start, f.pos - f.start)], chainPos := f.chainPos + 1, start := f.pos);
        }
        open := None;
    }
  }

  /**
    `stream_pem` with the copying handler, over any stream.  It writes past the block exactly if the
    stream hands the sink more bytes than the block has; otherwise the entries are its certificates, as
    many as there are entries for.
   */
  method FillPass(h: Heap, backing: nat, cap: nat, pass: Pass) returns (ok: bool, f: Fill, overrun: bool)
    requires h.Valid() && backing in h.blocks && WellFormed(pass.events, false)
    modifies h`blocks
    ensures h.Valid() && backing in h.blocks && h.blocks == old(h.blocks)[backing := h.blocks[backing]]
    ensures |h.blocks[backing]| == |old(h.blocks)[backing]| && |f.chain| == cap
    ensures overrun <==> Sunk(pass.events, false, false, 0, cap) > |h.blocks[backing]|
    ensures !overrun ==>
      var certs := Certs(pass.events, None);
      && ok == (pass.readOk && !Fails(pass.events)) && Listed(certs, f.chain, f.chainPos, h.blocks[backing])
      && (ok ==> f.chainPos == if |certs| < cap then |certs| else cap)
  {
    hide Filling, Listed, Certs, WellFormed, Coming;
    ghost var events := pass.events;
    ghost var certs := Certs(events, None);
    ghost var total := Sunk(events, false, false, 0, cap);
    ok, overrun := true, false;
    f := Fill(0, seq(cap, _ => Entry(0, 0)), 0, 0, false);
    var i := 0;
    ghost var open: Option<PemObject> := None;
    assert events[0..] == events;
    FillStart(certs, f, h.blocks[backing], events);
    while i < |pass.events| && ok && !overrun
      invariant 0 <= i <= |events| && h.Valid() && backing in h.blocks && |f.chain| == cap
      invariant h.blocks == old(h.blocks)[backing := h.blocks[backing]] && |h.blocks[backing]| == |old(h.blocks)[backing]|
      invariant !overrun ==> Filling(certs, f, h.blocks[backing], events[i..], open) && f.pos + Coming(f, events[i..], open) == total
      invariant overrun ==> total > |h.blocks[backing]|
      invariant !overrun ==> (Fails(events) <==> (!ok || Fails(events[i..]))) && (!ok ==> i < |events| && events[i].Error?)
      decreases ok && !overrun, |pass.events| - i
    {
      ghost var rest := events[i..];
      assert rest[0] == pass.events[i] && rest[1..] == events[i + 1..];
      if pass.events[i].Error? {
        ok := false;
      } else {
        f, overrun, open := FillEvent(h, backing, pass.events[i], f, certs, rest, open);
        i := i + 1;
      }
    }
    if !overrun {
      FillDone(certs, f, h.blocks[backing], events[i..], open);
    }
    ok := ok && pass.readOk;
  }

  lemma FillStart(certs: seq<seq<byte>>, f: Fill, backing: seq<byte>, events: seq<Event>)
    requires WellFormed(events, false) && certs == Certs(events, None) && f.pos == f.chainPos == f.start == 0
    ensures Filling(certs, f, backing, events, None) && Coming(f, events, None) == Sunk(events, false, false, 0, |f.chain|)
  {
    assert certs[..0] == [] && certs[0..] == certs;
  }

  lemma FillDone(certs: seq<seq<byte>>, f: Fill, backing: seq<byte>, rest: seq<Event>, open: Option<PemObject>)
    requires Filling(certs, f, backing, rest, open) && (rest == [] || rest[0].Error?)
    ensures Listed(certs, f.chain, f.chainPos, backing) && f.pos <= |backing| && Coming(f, rest, open) == 0
    ensures rest == [] ==> f.chainPos == if |certs| < |f.chain| then |certs| else |f.chain|
  {
  }

  /**
    Reading the same file again, or as much of it as can be read, never hands the sink more than was
    counted: an open certificate is one of those counted, and an unterminated one finds no entry left.
   */
  lemma {:induction false} SameFits(again: seq<Event>, events: seq<Event>, open: Option<PemObject>, done: nat, cap: nat)
    requires again <= events && WellFormed(events, open.Some?) && done <= cap && |Certs(events, open)| == cap - done
    ensures var sink := open.Some? && IsCertificate(open.value.name) && done < cap;
      var had := if sink then |open.value.data| else 0;
      Sunk(again, sink, had > 0, done, cap) + had <= |Bytes(Certs(events, open))|
  {
    var sink := open.Some? && IsCertificate(open.value.name) && done < cap;
    if again == [] {
      if sink && open.value.data != [] {
        OpenFits(events, open.value);
      }
    } else {
      CertsStep(events, open);
      assert again[0] == events[0] && again[1..] <= events[1..];
      match events[0] {
        case Begin(name) =>
          SameFits(again[1..], events[1..], Some(PemObject(name, [])), done, cap);
        case Data(bytes) =>
          SameFits(again[1..], events[1..], Some(open.value.(data := open.value.data + bytes)), done, cap);
        case End =>
          SameFits(again[1..], events[1..], None, if Wanted(open.value) then done + 1 else done, cap);
          if Wanted(open.value) {
            assert Certs(events, open)[1..] == Certs(events[1..], None);
          } else {
            assert Certs(events, open) == Certs(events[1..], None);
          }
        case Error =>
      }
    }
  }

  /** A loaded chain: its entries and the two blocks it owns. */
  datatype Chain = Chain(entries: seq<Entry>, backing: nat, table: nat)

  const ENTRY_SIZE := 8

  /** How many entries the first pass asks for. */
  function Wants(first: Pass): nat {
    |Certs(first.events, None)|
  }

  /** The certificates of the second reading that the chain has room for. */
  function Loadable(first: Pass, second: Pass): seq<seq<byte>> {
    var certs := Certs(second.events, None);
    if Wants(first) <= |certs| then certs[..Wants(first)] else certs
  }

  predicate Readable(pass: Pass) {
    pass.readOk && !Fails(pass.events)
  }

  /** The second reading has more for the sink than the first one counted. */
  predicate Outgrown(first: Pass, second: Pass) {
    Sunk(second.events, false, false, 0, Wants(first)) > |Bytes(Certs(first.events, None))|
  }

  /**
    `loadCertChain`.  The file may change between the passes: the writes stay in the block exactly if it
    has not outgrown what was counted.  Then the chain lists the certificates of the second reading, as
    many as the first one counted, or the heap is as it was; and it says exactly when.
   */
  method LoadCertChain(h: Heap, first: Pass, second: Pass) returns (chain: Option<Chain>, overrun: bool)
    requires h.Valid() && WellFormed(first.events, false) && WellFormed(second.events, false)
    modifies h
    ensures h.Valid()
    ensures var begun := Readable(first) && Wants(first) > 0 && !h.fails(old(h.tick) + 1) && !h.fails(old(h.tick) + 2);
      && (overrun <==> begun && Outgrown(first, second))
      && (chain.Some? <==> begun && !Outgrown(first, second) && Readable(second) && |Loadable(first, second)| == Wants(first))
    ensures chain.None? && !overrun ==> h.blocks == old(h.blocks)
    ensures chain.Some? ==>
      var c := chain.value;
      && c.backing !in old(h.blocks) && c.table !in old(h.blocks) && c.backing != c.table
      && c.backing in h.blocks && c.table in h.blocks && h.blocks - {c.backing, c.table} == old(h.blocks)
      && |c.entries| == Wants(first) && Listed(Loadable(first, second), c.entries, Wants(first), h.blocks[c.backing])
  {
    hide WellFormed, Certs, Fails, Listed, Sunk;
    chain, overrun := None, false;
    var ok, count, total := CountPass(first);
    CertsNonEmpty(first.events, None);
    if ok && count > 0 && total > 0 {
      var backing := h.Malloc(total);
      var table := h.Malloc(count * ENTRY_SIZE);
      if backing.Some? && table.Some? {
        var filled, f, past := FillPass(h, backing.value, count, second);
        overrun := past;
        if filled && f.chainPos == count && !overrun {
          ListedPart(Certs(second.events, None), f.chain, count, h.blocks[backing.value]);
          chain := Some(Chain(f.chain, backing.value, table.value));
        }
      }
      if chain.None? && !overrun {
        h.Free(backing);
        h.Free(table);
      }
    }
  }

  lemma ListedPart(certs: seq<seq<byte>>, chain: seq<Entry>, n: nat, backing: seq<byte>)
    requires Listed(certs, chain, n, backing)
    ensures n <= |certs| && Listed(certs[..n], chain, n, backing)
  {
    var part := certs[..n];
    assert forall k | 0 <= k <= n :: part[..k] == certs[..k];
  }

  /** A file that has not changed, even if its second reading breaks off, has not outgrown the block. */
  lemma Unchanged(first: Pass, second: Pass)
    requires WellFormed(first.events, false) && second.events <= first.events
    ensures !Outgrown(first, second)
    ensures second.events == first.events ==> Loadable(first, second) == Certs(first.events, None)
  {
    SameFits(second.events, first.events, None, 0, Wants(first));
  }

  /** A certificate that has grown by a byte between the passes is written past the block. */
  lemma GrownFile()
    ensures var name := "CERTIFICATE";
      Outgrown(Pass([Begin(name), Data([1]), End], true), Pass([Begin(name), Data([1, 2]), End], true))
  {
    var name := "CERTIFICATE";
    var a, b := [Begin(name), Data([1]), End], [Begin(name), Data([1, 2]), End];
    assert IsCertificate(name) by {
      assert name[..|name|] == name;
    }
    assert a[1..] == [Data([1]), End] && a[1..][1..] == [End] && [End][1..] == [];
    assert b[1..] == [Data([1, 2]), End] && b[1..][1..] == [End];
    var o := PemObject(name, [] + [1]);
    CertsStep(a, None);
    CertsStep(a[1..], Some(PemObject(name, [])));
    CertsStep([End], Some(o));
    assert Certs([], None) == [] && [] + [1 as byte] == [1];
    assert Certs([End], Some(o)) == [[1]];
    assert Certs(a, None) == [[1]];
    assert [[1 as byte]][1..] == [] && Bytes([[1]]) == [1] + Bytes([]);
    assert Sunk([End], true, true, 0, 1) == 0;
    assert Sunk(b[1..], true, false, 0, 1) == 2;
  }

  lemma {:induction false} CertsNonEmpty(events: seq<Event>, open: Option<PemObject>)
    ensures Certs(events, open) != [] ==> |Bytes(Certs(events, open))| > 0
  {
    SomeBytes(Objects(events, open));
  }

  lemma {:induction false} SomeBytes(objects: seq<PemObject>)
    ensures Certificates(objects) != [] ==> |Bytes(Certificates(objects))| > 0
  {
    if objects != [] && !Wanted(objects[0]) {
      SomeBytes(objects[1..]);
      assert [] + Certificates(objects[1..]) == Certificates(objects[1..]);
    }
  }

  /** The slice an entry names holds its certificate. */
  lemma Slice(certs: seq<seq<byte>>, chain: seq<Entry>, n: nat, backing: seq<byte>, k: nat)
    requires Listed(certs, chain, n, backing) && k < n
    ensures chain[k].start + chain[k].len <= |backing|
    ensures backing[chain[k].start..chain[k].start + chain[k].len] == certs[k]
  {
    BytesSnoc(certs, k);
    var part := certs[..n];
    assert part == part[..k + 1] + part[k + 1..] && part[..k + 1] == certs[..k + 1];
    BytesConcat(part[..k + 1], part[k + 1..]);
    var all := backing[..Starts(certs, n)];
    assert all[chain[k].start..chain[k].start + chain[k].len] == certs[k];
  }

  /** Slices of different entries do not overlap. */
  lemma {:induction false} Disjoint(certs: seq<seq<byte>>, j: nat, k: nat)
    requires j < k < |certs|
    ensures Starts(certs, j) + |certs[j]| <= Starts(certs, k)
    decreases k - j
  {
    BytesSnoc(certs, k - 1);
    if j < k - 1 {
      Disjoint(certs, j, k - 1);
    }
  }

  /** `freeCertChain`. */
  method FreeCertChain(h: Heap, c: Chain)
    requires h.Valid() && c.backing in h.blocks && c.table in h.blocks && c.backing != c.table
    modifies h`blocks
    ensures h.Valid() && h.blocks == old(h.blocks) - {c.backing, c.table}
  {
    h.Free(Some(c.table));
    h.Free(Some(c.backing));
  }

  // ----- which objects count -----

  lemma {:induction false} ContainsAt(s: string, sub: string)
    ensures Contains(s, sub) <==> exists k | 0 <= k <= |s| - |sub| :: s[k..][..|sub|] == sub
  {
    if |sub| <= |s| {
      assert s[0..] == s;
      if s != [] {
        var t := s[1..];
        ContainsAt(t, sub);
        assert forall k | 0 <= k <= |t| :: t[k..] == s[k + 1..];
        if k :| 0 <= k <= |s| - |sub| && s[k..][..|sub|] == sub {
          if k > 0 {
            assert t[k - 1..][..|sub|] == sub;
          }
        }
      }
    }
  }

  /** An object is a certificate exactly if its name has the word in it, wherever that is. */
  lemma CertificateName(name: string)
    ensures IsCertificate(name) <==> exists k | 0 <= k <= |name| - 11 :: name[k..][..11] == "CERTIFICATE"
  {
    ContainsAt(name, "CERTIFICATE");
  }

  /** An object of a file as the decoder reports it, its contents in any pieces. */
  datatype Reported = Reported(name: string, pieces: seq<seq<byte>>) {
    function Contents(): seq<byte> {
      Bytes(pieces)
    }

    function Events(): seq<Event> {
      [Begin(name)] + DataEvents(pieces) + [End]
    }
  }

  function DataEvents(pieces: seq<seq<byte>>): seq<Event> {
    if pieces == [] then [] else [Data(pieces[0])] + DataEvents(pieces[1..])
  }

  function FileEvents(objects: seq<Reported>): seq<Event> {
    if objects == [] then [] else objects[0].Events() + FileEvents(objects[1..])
  }

  /** The contents of the certificates that are not empty. */
  function Selected(objects: seq<Reported>): seq<seq<byte>> {
    if objects == [] then []
    else (if IsCertificate(objects[0].name) && objects[0].Contents() != [] then [objects[0].Contents()] else []) + Selected(objects[1..])
  }

  lemma {:induction false} CertsOfPieces(o: PemObject, pieces: seq<seq<byte>>, rest: seq<Event>)
    ensures var all := o.data + Bytes(pieces);
      Certs(DataEvents(pieces) + ([End] + rest), Some(o)) == (if IsCertificate(o.name) && all != [] then [all] else []) + Certs(rest, None)
    decreases pieces
  {
    var events := DataEvents(pieces) + ([End] + rest);
    if pieces == [] {
      assert events == [End] + rest && events[1..] == rest;
      assert Objects(events, Some(o)) == [o] + Objects(rest, None);
      assert o.data + [] == o.data;
    } else {
      assert events[0] == Data(pieces[0]) && events[1..] == DataEvents(pieces[1..]) + ([End] + rest);
      CertsOfPieces(o.(data := o.data + pieces[0]), pieces[1..], rest);
      assert o.data + pieces[0] + Bytes(pieces[1..]) == o.data + (pieces[0] + Bytes(pieces[1..]));
    }
  }

  lemma {:induction false} SunkOfPieces(sink: bool, got: bool, pieces: seq<seq<byte>>, rest: seq<Event>, done: nat, cap: nat)
    ensures Sunk(DataEvents(pieces) + ([End] + rest), sink, got, done, cap)
         == (if sink then |Bytes(pieces)| else 0)
            + Sunk(rest, false, false, if got || (sink && Bytes(pieces) != []) then done + 1 else done, cap)
    decreases pieces
  {
    var events := DataEvents(pieces) + ([End] + rest);
    if pieces == [] {
      assert events == [End] + rest && events[1..] == rest;
    } else {
      assert events[0] == Data(pieces[0]) && events[1..] == DataEvents(pieces[1..]) + ([End] + rest);
      SunkOfPieces(sink, got || (sink && pieces[0] != []), pieces[1..], rest, done, cap);
    }
  }

  lemma OneObject(o: Reported, rest: seq<Event>, done: nat, cap: nat)
    ensures Certs(o.Events() + rest, None) == Selected([o]) + Certs(rest, None)
    ensures var sink := IsCertificate(o.name) && done < cap;
      Sunk(o.Events() + rest, false, false, done, cap)
      == (if sink then |o.Contents()| else 0) + Sunk(rest, false, false, if sink && o.Contents() != [] then done + 1 else done, cap)
  {
    hide IsCertificate;
    var events := o.Events() + rest;
    assert events[0] == Begin(o.name) && events[1..] == DataEvents(o.pieces) + ([End] + rest);
    CertsOfPieces(PemObject(o.name, []), o.pieces, rest);
    SunkOfPieces(IsCertificate(o.name) && done < cap, false, o.pieces, rest, done, cap);
    assert [] + Bytes(o.pieces) == Bytes(o.pieces);
    assert [o][1..] == [] && Selected([o]) == if IsCertificate(o.name) && o.Contents() != [] then [o.Contents()] else [];
  }

  /** The certificates of a file are the contents of its objects of that name, whole and in order; the rest is left out. */
  lemma {:induction false} CertsOfFile(objects: seq<Reported>, rest: seq<Event>)
    ensures Certs(FileEvents(objects) + rest, None) == Selected(objects) + Certs(rest, None)
  {
    hide Certs, IsCertificate;
    if objects == [] {
      assert FileEvents(objects) + rest == rest;
    } else {
      assert FileEvents(objects) + rest == objects[0].Events() + (FileEvents(objects[1..]) + rest);
      OneObject(objects[0], FileEvents(objects[1..]) + rest, 0, 0);
      CertsOfFile(objects[1..], rest);
      assert [objects[0]][1..] == [];
    }
  }

  /** An object that is no certificate may stand anywhere between the others: nothing of it is counted, or copied. */
  lemma {:induction false} OthersIgnored(before: seq<Reported>, other: Reported, rest: seq<Event>, done: nat, cap: nat)
    requires forall k | 0 <= k <= |other.name| - 11 :: other.name[k..][..11] != "CERTIFICATE"
    ensures Certs(FileEvents(before) + (other.Events() + rest), None) == Certs(FileEvents(before) + rest, None)
    ensures Sunk(FileEvents(before) + (other.Events() + rest), false, false, done, cap) == Sunk(FileEvents(before) + rest, false, false, done, cap)
  {
    hide Certs, Sunk, IsCertificate;
    CertificateName(other.name);
    if before == [] {
      assert FileEvents(before) + (other.Events() + rest) == other.Events() + rest && FileEvents(before) + rest == rest;
      OneObject(other, rest, done, cap);
      assert Selected([other]) == [];
    } else {
      var o, more := before[0], FileEvents(before[1..]);
      assert FileEvents(before) + (other.Events() + rest) == o.Events() + (more + (other.Events() + rest));
      assert FileEvents(before) + rest == o.Events() + (more + rest);
      OneObject(o, more + (other.Events() + rest), done, cap);
      OneObject(o, more + rest, done, cap);
      var sink := IsCertificate(o.name) && done < cap;
      OthersIgnored(before[1..], other, rest, if sink && o.Contents() != [] then done + 1 else done, cap);
    }
  }

  lemma Names()
    ensures IsCertificate("CERTIFICATE") && IsCertificate("X509 CERTIFICATE") && !IsCertificate("PRIVATE KEY")
  {
    hide IsCertificate;
    CertificateName("CERTIFICATE");
    CertificateName("X509 CERTIFICATE");
    CertificateName("PRIVATE KEY");
    assert "CERTIFICATE"[0..][..11] == "CERTIFICATE";
    assert "X509 CERTIFICATE"[5..][..11] == "CERTIFICATE";
    assert "PRIVATE KEY"[0..][..11][0] == 'P';
  }

  /** A key between two certificates is skipped. */
  lemma KeyBetween(a: seq<byte>, key: seq<byte>, b: seq<byte>)
    requires a != [] && b != []
    ensures Certs(FileEvents([Reported("CERTIFICATE", [a]), Reported("PRIVATE KEY", [key]), Reported("X509 CERTIFICATE", [b])]), None) == [a, b]
  {
    hide IsCertificate, FileEvents, Certs;
    var objects := [Reported("CERTIFICATE", [a]), Reported("PRIVATE KEY", [key]), Reported("X509 CERTIFICATE", [b])];
    Names();
    ThreeSelected(objects);
    assert Bytes([a]) == a && Bytes([b]) == b by {
      assert [a][1..] == [] && [b][1..] == [];
    }
    CertsOfFile(objects, []);
    assert FileEvents(objects) + [] == FileEvents(objects);
    assert Certs([], None) == [] by {
      CertsNone();
    }
  }

  lemma CertsNone()
    ensures Certs([], None) == []
  {
  }

  lemma ThreeSelected(objects: seq<Reported>)
    requires |objects| == 3 && IsCertificate(objects[0].name) && !IsCertificate(objects[1].name) && IsCertificate(objects[2].name)
    requires objects[0].Contents() != [] && objects[2].Contents() != []
    ensures Selected(objects) == [objects[0].Contents(), objects[2].Contents()]
  {
    hide IsCertificate, Pbufs.Bytes;
    assert objects[1..][1..] == [objects[2]] && [objects[2]][1..] == [];
    assert Selected([objects[2]]) == [objects[2].Contents()];
    assert Selected(objects[1..]) == [objects[2].Contents()];
  }
}
