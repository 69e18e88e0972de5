/**
  `loadTrustAnchors` and `freeTrustAnchors`: trust anchors built from a certificate chain, with every
  allocation free to fail.  The X.509 decoder is a function from a certificate to what it reports.
 */
module TrustAnchors {
  import opened Options
  import opened Pbufs
  import opened Heaps
  import opened CertLoader

  datatype PublicKey =
    | PkMissing
    | PkRsa(n: seq<byte>, e: seq<byte>)
    | PkEc(curve: nat, q: seq<byte>)
    | PkOther

  /** What the decoder reports: the subject name in pieces, the key, and the CA flag. */
  datatype Decoded = Decoded(dn: seq<seq<byte>>, key: PublicKey, ca: bool)

  datatype Key =
    | NoKey
    | Rsa(n: Option<nat>, nlen: nat, e: Option<nat>, elen: nat)
    | Ec(curve: nat, q: Option<nat>, qlen: nat)

  datatype Anchor = Anchor(dn: Option<nat>, dnLen: nat, ca: bool, key: Key)

  function Single(p: Option<nat>): set<nat> {
    if p.Some? then {p.value} else {}
  }

  function KeyBlocks(key: Key): set<nat> {
    match key
    case NoKey => {}
    case Rsa(n, _, e, _) => Single(n) + Single(e)
    case Ec(_, q, _) => Single(q)
  }

  function Owned(a: Anchor): set<nat> {
    Single(a.dn) + KeyBlocks(a.key)
  }

  /** The blocks of an anchor are allocated and all different, so that each can be released once. */
  ghost predicate Releasable(b: Blocks, a: Anchor) {
    && Owned(a) <= b.Keys
    && Single(a.dn) !! KeyBlocks(a.key)
    && (a.key.Rsa? ==> Single(a.key.n) !! Single(a.key.e))
  }

  /** The anchor says what the decoder reported. */
  ghost predicate Says(b: Blocks, a: Anchor, d: Decoded) {
    && Owned(a) <= b.Keys
    && a.dnLen == |Bytes(d.dn)| && a.ca == d.ca
    && (a.dn.Some? ==> a.dnLen <= |b[a.dn.value]| && b[a.dn.value][..a.dnLen] == Bytes(d.dn))
    && (a.dn.None? ==> Bytes(d.dn) == [])
    && match d.key
       case PkRsa(n, e) => a.key.Rsa? && a.key.n.Some? && a.key.e.Some? && b[a.key.n.value] == n && b[a.key.e.value] == e
                           && a.key.nlen == |n| && a.key.elen == |e|
       case PkEc(curve, q) => a.key.Ec? && a.key.q.Some? && b[a.key.q.value] == q && a.key.curve == curve && a.key.qlen == |q|
       case _ => false
  }

  // ----- capturing the name -----

  datatype Capture = Capture(data: Option<nat>, len: nat, cap: nat, oom: bool)

  /** The buffer is the only block beyond `base`, and starts with what has been captured. */
  ghost predicate Captured(b: Blocks, base: Blocks, c: Capture, text: seq<byte>) {
    && Without(b, c.data) == base
    && (c.data.None? ==> c.cap == 0 && c.len == 0)
    && (c.data.Some? ==> c.data.value !in base && c.data.value in b && |b[c.data.value]| == c.cap && c.len > 0)
    && (!c.oom ==> c.len == |text| <= c.cap && (c.data.Some? ==> b[c.data.value][..c.len] == text))
  }

  function Doubled(x: nat, n: nat): nat {
    if n == 0 then x else 2 * Doubled(x, n - 1)
  }

  /** The size the buffer grows to: doubled until it is large enough, and no further. */
  method Grown(cap: nat, need: nat) returns (newCap: nat, ghost n: nat)
    requires need > cap
    ensures newCap >= need && newCap == Doubled(if cap > 0 then cap else 128, n) && n > 0 && (n > 1 ==> newCap < 2 * need)
  {
    newCap := if cap != 0 then cap * 2 else 256;
    n := 1;
    while newCap < need
      invariant newCap > 0 && n > 0 && newCap == Doubled(if cap > 0 then cap else 128, n) && (n > 1 ==> newCap < 2 * need)
      decreases need - newCap
    {
      newCap := newCap * 2;
      n := n + 1;
    }
  }

  /** `dn_capture_sink`. */
  method Push(h: Heap, c0: Capture, src: seq<byte>, ghost base: Blocks, ghost text: seq<byte>) returns (c: Capture)
    requires h.Valid() && Captured(h.blocks, base, c0, text)
    modifies h
    ensures h.Valid() && Captured(h.blocks, base, c, text + src) && (c0.oom ==> c.oom) && (c.oom && !c0.oom ==> !h.Plenty())
  {
    c := c0;
    if !c.oom {
      if c.len + |src| > c.cap {
        var newCap, _ := Grown(c.cap, c.len + |src|);
        var nb := h.Realloc(c.data, newCap);
        if nb.None? {
          c := c.(oom := true);
        } else {
          c := c.(data := nb, cap := newCap);
        }
      }
      if !c.oom && c.data.Some? {
        h.Write(c.data.value, c.len, src);
        c := c.(len := c.len + |src|);
      }
    }
  }

  method CaptureDn(h: Heap, pushes: seq<seq<byte>>) returns (c: Capture)
    requires h.Valid()
    modifies h
    ensures h.Valid() && Captured(h.blocks, old(h.blocks), c, Bytes(pushes)) && (c.oom ==> !h.Plenty())
  {
    c := Capture(None, 0, 0, false);
    var i := 0;
    while i < |pushes|
      invariant 0 <= i <= |pushes| && h.Valid() && Captured(h.blocks, old(h.blocks), c, Bytes(pushes[..i])) && (c.oom ==> !h.Plenty())
    {
      c := Push(h, c, pushes[i], old(h.blocks), Bytes(pushes[..i]));
      BytesSnoc(pushes, i);
      i := i + 1;
    }
    assert pushes[..|pushes|] == pushes;
  }

  /** The buffer is cut to its content; where that fails it stays as large as it is. */
  method Trim(h: Heap, c0: Capture, ghost base: Blocks, ghost text: seq<byte>) returns (c: Capture)
    requires h.Valid() && Captured(h.blocks, base, c0, text) && !c0.oom
    modifies h
    ensures h.Valid() && !c.oom && c.len == |text| && Without(h.blocks, c.data) == base
    ensures c.data.Some? ==>
      && c.data.value !in base && c.data.value in h.blocks
      && c.len <= |h.blocks[c.data.value]| && h.blocks[c.data.value][..c.len] == text
    ensures c.data.None? ==> text == []
  {
    c := c0;
    if c.len < c.cap {
      var trimmed := h.Realloc(c.data, c.len);
      if trimmed.Some? {
        c := c.(data := trimmed);
      }
    }
  }

  // ----- one anchor -----

  /** `free_ta_contents`. */
  method FreeContents(h: Heap, a: Anchor)
    requires h.Valid() && Releasable(h.blocks, a)
    modifies h`blocks
    ensures h.Valid() && h.blocks == old(h.blocks) - Owned(a)
  {
    h.Free(a.dn);
    match a.key
    case NoKey =>
    case Rsa(n, _, e, _) =>
      h.Free(n);
      h.Free(e);
    case Ec(_, q, _) =>
      h.Free(q);
  }

  /** What a successful `cert_to_trust_anchor` leaves behind. */
  ghost predicate Made(b: Blocks, base: Blocks, a: Anchor, d: Decoded) {
    Releasable(b, a) && Says(b, a, d) && b - Owned(a) == base && Owned(a) !! base.Keys
  }

  /** The anchor before its key is added: the captured name is all it owns. */
  ghost predicate Named(b: Blocks, base: Blocks, a: Anchor, d: Decoded) {
    && a.key.NoKey? && Without(b, a.dn) == base && (a.dn.Some? ==> a.dn.value !in base && a.dn.value in b)
    && a.dnLen == |Bytes(d.dn)| && a.ca == d.ca && (a.dn.None? ==> Bytes(d.dn) == [])
    && (a.dn.Some? ==> a.dnLen <= |b[a.dn.value]| && b[a.dn.value][..a.dnLen] == Bytes(d.dn))
  }

  lemma RsaMade(b: Blocks, base: Blocks, a: Anchor, d: Decoded, n: nat, e: nat)
    requires Named(b, base, a, d) && d.key.PkRsa? && n !in b && e !in b && n != e
    ensures Made(b[n := d.key.n][e := d.key.e], base, a.(key := Rsa(Some(n), |d.key.n|, Some(e), |d.key.e|)), d)
  {
    var c := b[n := d.key.n][e := d.key.e];
    var t := a.(key := Rsa(Some(n), |d.key.n|, Some(e), |d.key.e|));
    assert c - Owned(t) == base;
  }

  lemma EcMade(b: Blocks, base: Blocks, a: Anchor, d: Decoded, q: nat)
    requires Named(b, base, a, d) && d.key.PkEc? && q !in b
    ensures Made(b[q := d.key.q], base, a.(key := Ec(d.key.curve, Some(q), |d.key.q|)), d)
  {
    var c := b[q := d.key.q];
    assert c - Owned(a.(key := Ec(d.key.curve, Some(q), |d.key.q|))) == base;
  }

  /** A fresh block filled from its start. */
  method Copy(h: Heap, p: nat, src: seq<byte>)
    requires h.Valid() && p in h.blocks && h.blocks[p] == Zeroed(|src|)
    modifies h`blocks
    ensures h.Valid() && h.blocks == old(h.blocks)[p := src]
  {
    h.Write(p, 0, src);
    assert Zeroed(|src|)[..0] + src + Zeroed(|src|)[|src|..] == src;
  }

  /** Giving back an anchor whose key is incomplete leaves what was there before it. */
  lemma PartialKey(b: Blocks, base: Blocks, a: Anchor, d: Decoded, n: Option<nat>, nc: seq<byte>, e: Option<nat>, ec: seq<byte>, key: Key)
    requires Named(b, base, a, d) && (n.Some? ==> n.value !in b) && (e.Some? ==> e.value !in b && n != e)
    requires KeyBlocks(key) == Single(n) + Single(e) && (key.Rsa? ==> key.n == n && key.e == e)
    ensures var b1 := if n.Some? then b[n.value := nc] else b;
      var b2 := if e.Some? then b1[e.value := ec] else b1;
      Releasable(b2, a.(key := key)) && b2 - Owned(a.(key := key)) == base
  {
  }

  method AddRsa(h: Heap, named: Anchor, d: Decoded, ghost base: Blocks) returns (a: Option<Anchor>)
    requires h.Valid() && d.key.PkRsa? && Named(h.blocks, base, named, d)
    modifies h
    ensures h.Valid() && (a.None? ==> h.blocks == base && !h.Plenty()) && (a.Some? ==> Made(h.blocks, base, a.value, d))
  {
    a := None;
    ghost var before := h.blocks;
    var nb := h.Malloc(|d.key.n|);
    var eb := h.Malloc(|d.key.e|);
    var t := named.(key := Rsa(nb, |d.key.n|, eb, |d.key.e|));
    if nb.None? || eb.None? {
      PartialKey(before, base, named, d, nb, Zeroed(|d.key.n|), eb, Zeroed(|d.key.e|), t.key);
      hide Named, Releasable;
      FreeContents(h, t);
    } else {
      RsaMade(before, base, named, d, nb.value, eb.value);
      hide Named, Made;
      Copy(h, nb.value, d.key.n);
      Copy(h, eb.value, d.key.e);
      ghost var after: Blocks := before[nb.value := d.key.n];
      assert h.blocks == after[eb.value := d.key.e];
      a := Some(t);
    }
  }

  method AddEc(h: Heap, named: Anchor, d: Decoded, ghost base: Blocks) returns (a: Option<Anchor>)
    requires h.Valid() && d.key.PkEc? && Named(h.blocks, base, named, d)
    modifies h
    ensures h.Valid() && (a.None? ==> h.blocks == base && !h.Plenty()) && (a.Some? ==> Made(h.blocks, base, a.value, d))
  {
    a := None;
    ghost var before := h.blocks;
    var qb := h.Malloc(|d.key.q|);
    var t := named.(key := Ec(d.key.curve, qb, |d.key.q|));
    if qb.None? {
      PartialKey(before, base, named, d, None, [], None, [], t.key);
      hide Named, Releasable;
      FreeContents(h, t);
    } else {
      EcMade(before, base, named, d, qb.value);
      hide Named, Made;
      Copy(h, qb.value, d.key.q);
      a := Some(t);
    }
  }

  /** `cert_to_trust_anchor`: an anchor that says what the certificate says, or nothing left behind. */
  method CertToAnchor(h: Heap, d: Decoded) returns (a: Option<Anchor>)
    requires h.Valid()
    modifies h
    ensures h.Valid()
    ensures a.None? ==> h.blocks == old(h.blocks) && (!h.Plenty() || d.key.PkMissing? || d.key.PkOther?)
    ensures a.Some? ==> Made(h.blocks, old(h.blocks), a.value, d)
  {
    a := None;
    var c := CaptureDn(h, d.dn);
    if c.oom || d.key.PkMissing? {
      h.Free(c.data);
    } else {
      c := Trim(h, c, old(h.blocks), Bytes(d.dn));
      var named := Anchor(c.data, c.len, d.ca, NoKey);
      match d.key
      case PkRsa(_, _) => a := AddRsa(h, named, d, old(h.blocks));
      case PkEc(_, _) => a := AddEc(h, named, d, old(h.blocks));
      case PkOther => FreeContents(h, named);
    }
  }

  // ----- all anchors -----

  const ANCHOR_SIZE: nat := 44

  function OwnedAll(anchors: seq<Anchor>): set<nat> {
    if anchors == [] then {} else Owned(anchors[0]) + OwnedAll(anchors[1..])
  }

  /** Every anchor can be released, and no block belongs to two of them. */
  ghost predicate Apart(b: Blocks, anchors: seq<Anchor>) {
    anchors == [] || (Releasable(b, anchors[0]) && Owned(anchors[0]) !! OwnedAll(anchors[1..]) && Apart(b, anchors[1..]))
  }

  /** Anchor by anchor, what the decoder reported of the certificate. */
  ghost predicate SayAll(b: Blocks, anchors: seq<Anchor>, ds: seq<Decoded>) {
    && |anchors| == |ds|
    && (anchors == [] || (Says(b, anchors[0], ds[0]) && SayAll(b, anchors[1..], ds[1..])))
  }

  ghost predicate Same(b: Blocks, c: Blocks, blocks: set<nat>) {
    forall k | k in blocks && k in b :: k in c && c[k] == b[k]
  }

  lemma {:induction false} ApartFrame(b: Blocks, c: Blocks, anchors: seq<Anchor>)
    requires Apart(b, anchors) && Same(b, c, OwnedAll(anchors))
    ensures Apart(c, anchors)
  {
    if anchors != [] {
      ApartFrame(b, c, anchors[1..]);
    }
  }

  lemma {:induction false} SayFrame(b: Blocks, c: Blocks, anchors: seq<Anchor>, ds: seq<Decoded>)
    requires SayAll(b, anchors, ds) && Same(b, c, OwnedAll(anchors))
    ensures SayAll(c, anchors, ds)
  {
    if anchors != [] {
      SayFrame(b, c, anchors[1..], ds[1..]);
    }
  }

  lemma {:induction false} OwnedSnoc(anchors: seq<Anchor>, a: Anchor)
    ensures OwnedAll(anchors + [a]) == OwnedAll(anchors) + Owned(a)
  {
    if anchors == [] {
      assert [a][1..] == [];
    } else {
      assert (anchors + [a])[1..] == anchors[1..] + [a];
      OwnedSnoc(anchors[1..], a);
    }
  }

  lemma {:induction false} ApartSnoc(b: Blocks, anchors: seq<Anchor>, a: Anchor)
    requires Apart(b, anchors) && Releasable(b, a) && Owned(a) !! OwnedAll(anchors)
    ensures Apart(b, anchors + [a])
  {
    if anchors == [] {
      assert [a][1..] == [];
    } else {
      assert (anchors + [a])[1..] == anchors[1..] + [a];
      OwnedSnoc(anchors[1..], a);
      ApartSnoc(b, anchors[1..], a);
    }
  }

  lemma {:induction false} SaySnoc(b: Blocks, anchors: seq<Anchor>, ds: seq<Decoded>, a: Anchor, d: Decoded)
    requires SayAll(b, anchors, ds) && Says(b, a, d)
    ensures SayAll(b, anchors + [a], ds + [d])
  {
    if anchors == [] {
      assert [a][1..] == [] && [d][1..] == [];
    } else {
      assert (anchors + [a])[1..] == anchors[1..] + [a] && (ds + [d])[1..] == ds[1..] + [d];
      SaySnoc(b, anchors[1..], ds[1..], a, d);
    }
  }

  /** The anchors built so far are all that was added to `base`. */
  ghost predicate Built(b: Blocks, base: Blocks, anchors: seq<Anchor>, ds: seq<Decoded>) {
    && Apart(b, anchors) && SayAll(b, anchors, ds)
    && OwnedAll(anchors) <= b.Keys && b - OwnedAll(anchors) == base && OwnedAll(anchors) !! base.Keys
  }

  lemma BuiltStep(b: Blocks, c: Blocks, base: Blocks, anchors: seq<Anchor>, ds: seq<Decoded>, a: Anchor, d: Decoded)
    requires Built(b, base, anchors, ds) && Made(c, b, a, d)
    ensures Built(c, base, anchors + [a], ds + [d])
  {
    assert Same(b, c, b.Keys) by {
      forall k | k in b ensures k in c && c[k] == b[k] {
        assert k in c - Owned(a);
      }
    }
    ApartFrame(b, c, anchors);
    SayFrame(b, c, anchors, ds);
    OwnedSnoc(anchors, a);
    ApartSnoc(c, anchors, a);
    SaySnoc(c, anchors, ds, a, d);
    assert c - (OwnedAll(anchors) + Owned(a)) == (c - Owned(a)) - OwnedAll(anchors);
  }

  /** The loop of `freeTrustAnchors`, also the cleanup loop of `loadTrustAnchors`. */
  method FreeAll(h: Heap, anchors: seq<Anchor>)
    requires h.Valid() && Apart(h.blocks, anchors)
    modifies h`blocks
    ensures h.Valid() && h.blocks == old(h.blocks) - OwnedAll(anchors)
  {
    var j := 0;
    assert anchors[0..] == anchors;
    while j < |anchors|
      invariant 0 <= j <= |anchors| && h.Valid() && Apart(h.blocks, anchors[j..])
      invariant h.blocks - OwnedAll(anchors[j..]) == old(h.blocks) - OwnedAll(anchors)
    {
      ghost var before := h.blocks;
      assert anchors[j..][1..] == anchors[j + 1..];
      FreeContents(h, anchors[j]);
      ApartFrame(before, h.blocks, anchors[j + 1..]);
      j := j + 1;
    }
  }

  ghost function DecodeAll(certs: seq<seq<byte>>, decode: seq<byte> -> Decoded): (ds: seq<Decoded>)
    ensures |ds| == |certs| && forall i | 0 <= i < |certs| :: ds[i] == decode(certs[i])
  {
    seq(|certs|, i requires 0 <= i < |certs| => decode(certs[i]))
  }

  /** The loop of `loadTrustAnchors`; where a certificate fails, what was built is given back. */
  method BuildAll(h: Heap, chain: Chain, decode: seq<byte> -> Decoded, ghost certs: seq<seq<byte>>) returns (anchors: Option<seq<Anchor>>)
    requires h.Valid() && chain.backing in h.blocks && Listed(certs, chain.entries, |certs|, h.blocks[chain.backing])
    requires |chain.entries| == |certs|
    modifies h
    ensures h.Valid()
    ensures anchors.None? ==> h.blocks == old(h.blocks)
    ensures anchors.None? ==> !h.Plenty() || Undecodable(certs, decode)
    ensures anchors.Some? ==> Built(h.blocks, old(h.blocks), anchors.value, DecodeAll(certs, decode))
  {
    ghost var ds := DecodeAll(certs, decode);
    var done: seq<Anchor>, i, ok := [], 0, true;
    while i < |chain.entries| && ok
      invariant 0 <= i <= |chain.entries| == |certs| && h.Valid()
      invariant Built(h.blocks, old(h.blocks), done, ds[..i])
      invariant !ok ==> !h.Plenty() || Undecodable(certs, decode)
      invariant ok || i < |chain.entries|
      decreases |chain.entries| - i, ok
    {
      ghost var before := h.blocks;
      var e := chain.entries[i];
      assert before[chain.backing] == old(h.blocks)[chain.backing] by {
        assert chain.backing in before - OwnedAll(done);
      }
      Slice(certs, chain.entries, |certs|, h.blocks[chain.backing], i);
      var cert := h.blocks[chain.backing][e.start..e.start + e.len];
      assert cert == certs[i];
      var a := CertToAnchor(h, decode(cert));
      if a.None? {
        ok := false;
      } else {
        BuiltStep(before, h.blocks, old(h.blocks), done, ds[..i], a.value, ds[i]);
        assert ds[..i + 1] == ds[..i] + [ds[i]];
        done := done + [a.value];
        i := i + 1;
      }
    }
    if ok {
      assert ds[..i] == ds;
      anchors := Some(done);
    } else {
      FreeAll(h, done);
      anchors := None;
    }
  }

  datatype Store = Store(anchors: seq<Anchor>, table: nat)

  ghost predicate Undecodable(certs: seq<seq<byte>>, decode: seq<byte> -> Decoded) {
    exists k | 0 <= k < |certs| :: decode(certs[k]).key.PkMissing? || decode(certs[k]).key.PkOther?
  }

  /** What `loadTrustAnchors` hands out: one anchor per certificate, and nothing else beyond `base`. */
  ghost predicate Loaded(b: Blocks, base: Blocks, s: Store, ds: seq<Decoded>) {
    && Apart(b, s.anchors) && SayAll(b, s.anchors, ds)
    && s.table in b && s.table !in OwnedAll(s.anchors)
    && b - OwnedAll(s.anchors) - {s.table} == base
  }

  lemma Unchained(b: Blocks, base: Blocks, c: Chain, table: nat, anchors: seq<Anchor>, ds: seq<Decoded>)
    requires Built(b, base, anchors, ds)
    requires c.backing in base && c.table in base && table in base && table != c.backing && table != c.table
    ensures Loaded(b - {c.backing, c.table}, base - {c.backing, c.table} - {table}, Store(anchors, table), ds)
    ensures c.backing in b && c.table in b
  {
    var r := b - {c.backing, c.table};
    assert Same(b, r, OwnedAll(anchors));
    ApartFrame(b, r, anchors);
    SayFrame(b, r, anchors, ds);
    assert {c.backing, c.table, table} <= (b - OwnedAll(anchors)).Keys;
    assert r - OwnedAll(anchors) - {table} == b - OwnedAll(anchors) - {c.backing, c.table} - {table};
  }

  lemma {:induction false} SaidKeys(b: Blocks, anchors: seq<Anchor>, ds: seq<Decoded>, k: nat)
    requires SayAll(b, anchors, ds) && k < |ds|
    ensures ds[k].key.PkRsa? || ds[k].key.PkEc?
  {
    if k > 0 {
      SaidKeys(b, anchors[1..], ds[1..], k - 1);
    }
  }

  lemma SaidDecodable(b: Blocks, anchors: seq<Anchor>, certs: seq<seq<byte>>, decode: seq<byte> -> Decoded)
    requires SayAll(b, anchors, DecodeAll(certs, decode))
    ensures !Undecodable(certs, decode)
  {
    forall k | 0 <= k < |certs| ensures !(decode(certs[k]).key.PkMissing? || decode(certs[k]).key.PkOther?) {
      SaidKeys(b, anchors, DecodeAll(certs, decode), k);
    }
  }

  /** The part of `loadTrustAnchors` that holds the chain, up to its release. */
  method AnchorsOf(h: Heap, chain: Chain, decode: seq<byte> -> Decoded, ghost certs: seq<seq<byte>>) returns (s: Option<Store>)
    requires h.Valid() && chain.backing in h.blocks && chain.table in h.blocks && chain.backing != chain.table
    requires |chain.entries| == |certs| && Listed(certs, chain.entries, |certs|, h.blocks[chain.backing])
    modifies h
    ensures h.Valid()
    ensures var base := old(h.blocks) - {chain.backing, chain.table};
      && (s.None? ==> h.blocks == base && (!h.Plenty() || Undecodable(certs, decode)))
      && (s.Some? ==> Loaded(h.blocks, base, s.value, DecodeAll(certs, decode)) && !Undecodable(certs, decode))
  {
    hide Apart, SayAll, OwnedAll, Undecodable, Listed;
    s := None;
    var table := h.Malloc(|chain.entries| * ANCHOR_SIZE);
    if table.Some? {
      ghost var base := h.blocks;
      var anchors := BuildAll(h, chain, decode, certs);
      if anchors.Some? {
        SaidDecodable(h.blocks, anchors.value, certs, decode);
        Unchained(h.blocks, base, chain, table.value, anchors.value, DecodeAll(certs, decode));
        hide Built, Loaded;
        s := Some(Store(anchors.value, table.value));
        assert base - {chain.backing, chain.table} - {table.value} == old(h.blocks) - {chain.backing, chain.table};
      } else {
        h.Free(table);
      }
    }
    FreeCertChain(h, chain);
  }

  /**
    `loadTrustAnchors`: one anchor per certificate of the file, or the heap is as it was; unless the file
    has outgrown the block between the two readings.
   */
  method LoadTrustAnchors(h: Heap, first: Pass, second: Pass, decode: seq<byte> -> Decoded) returns (s: Option<Store>, overrun: bool)
    requires h.Valid() && WellFormed(first.events, false) && WellFormed(second.events, false)
    modifies h
    ensures h.Valid()
    ensures s.None? && !overrun ==> h.blocks == old(h.blocks)
    ensures s.Some? ==> !overrun && Loaded(h.blocks, old(h.blocks), s.value, DecodeAll(Loadable(first, second), decode))
    ensures overrun ==> Outgrown(first, second)
    ensures h.Plenty() ==>
      && (overrun <==> Readable(first) && Wants(first) > 0 && Outgrown(first, second))
      && (s.Some? <==> && Readable(first) && Wants(first) > 0 && !Outgrown(first, second) && Readable(second)
                       && |Loadable(first, second)| == Wants(first) && !Undecodable(Loadable(first, second), decode))
  {
    hide WellFormed, Certs, Readable, Outgrown, Wants, Loadable, Loaded, Undecodable, Listed;
    s := None;
    var chain;
    chain, overrun := LoadCertChain(h, first, second);
    if chain.Some? {
      s := AnchorsOf(h, chain.value, decode, Loadable(first, second));
    }
  }

  /** `freeTrustAnchors`: the heap is as it was before the anchors were loaded. */
  method FreeTrustAnchors(h: Heap, s: Option<Store>, ghost base: Blocks, ghost ds: seq<Decoded>)
    requires h.Valid()
    requires s.Some? ==> Loaded(h.blocks, base, s.value, ds)
    modifies h`blocks
    ensures h.Valid()
    ensures h.blocks == if s.Some? then base else old(h.blocks)
  {
    if s.Some? {
      FreeAll(h, s.value.anchors);
      h.Free(Some(s.value.table));
    }
  }
}
