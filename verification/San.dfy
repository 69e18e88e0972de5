/**
  The SubjectAltName extension of a generated server certificate (section 4.2.1.6 of RFC 5280), the test
  whether a certificate still names the device, and the decision to keep it or make a new one.
 */
module San {
  import opened Options
  import opened Pbufs

  type Ipv4 = x: int | 0 <= x < 0x1_0000_0000

  const SAN_BUF_SIZE: nat := 256
  const SEQUENCE: byte := 0x30
  const IP_ADDRESS: byte := 0x87
  const DNS_NAME: byte := 0x82

  /** A general name as the certificate parser lists it. */
  datatype Name = Name(tag: byte, value: seq<byte>)

  /** A context-specific tag with this number, primitive or constructed. */
  predicate Tagged(tag: byte, number: byte) {
    tag / 64 == 2 && tag % 32 == number
  }

  /** Addresses and DNS names have the tags 7 and 2, in either form. */
  lemma TagBytes(tag: byte)
    ensures Tagged(tag, 7) <==> tag == 0x87 || tag == 0xA7
    ensures Tagged(tag, 2) <==> tag == 0x82 || tag == 0xA2
  {
  }

  function Low(x: nat): byte {
    (x % 256) as byte
  }

  /** The address, first byte lowest, as the device keeps it. */
  function IpBytes(ip: Ipv4): (s: seq<byte>)
    ensures |s| == 4
  {
    [Low(ip), Low(ip / 0x100), Low(ip / 0x1_0000), Low(ip / 0x100_0000)]
  }

  function IpOf(s: seq<byte>): (ip: Ipv4)
    requires |s| == 4
  {
    s[0] as int + 0x100 * (s[1] as int) + 0x1_0000 * (s[2] as int) + 0x100_0000 * (s[3] as int)
  }

  function Pow256(i: nat): (p: nat)
    ensures p > 0
  {
    if i == 0 then 1 else 256 * Pow256(i - 1)
  }

  /** Byte `i` is the digit of 256^i. */
  lemma IpByte(ip: Ipv4, i: nat)
    requires i < 4
    ensures IpBytes(ip)[i] as int == ip / Pow256(i) % 256
  {
    assert Pow256(0) == 1 && Pow256(1) == 0x100 && Pow256(2) == 0x1_0000;
    assert Pow256(3) == 0x100_0000;
  }

  lemma IpRoundTrip(ip: Ipv4)
    ensures IpOf(IpBytes(ip)) == ip
  {
    var a, b := ip / 0x100, ip / 0x1_0000;
    assert a / 0x100 == b && b / 0x100 == ip / 0x100_0000 < 256;
  }

  // ----- encoding -----

  function Wanted(ip: Ipv4, dns: seq<byte>): seq<Name> {
    (if ip != 0 then [Name(IP_ADDRESS, IpBytes(ip))] else []) + (if dns != [] then [Name(DNS_NAME, dns)] else [])
  }

  function InnerLength(ip: Ipv4, dns: seq<byte>): nat {
    (if ip != 0 then 6 else 0) + (if dns != [] then 2 + |dns| else 0)
  }

  /** The names fit the one-byte length that the encoder writes. */
  predicate Encodable(ip: Ipv4, dns: seq<byte>, cap: nat) {
    0 < InnerLength(ip, dns) <= 127 && 2 + InnerLength(ip, dns) <= cap
  }

  /** What fits the 256 bytes there are: a name of up to 125 bytes, or 119 beside an address. */
  lemma EncodableWhen(ip: Ipv4, dns: seq<byte>)
    ensures Encodable(ip, dns, 256) <==> (ip != 0 || dns != []) && |dns| <= if ip != 0 then 119 else 125
  {
  }

  /** DER with one-byte lengths. */
  function Tlv(tag: byte, value: seq<byte>): (s: seq<byte>)
    ensures |s| == 2 + |value|
  {
    [tag, Low(|value|)] + value
  }

  function Der(names: seq<Name>): seq<byte> {
    if names == [] then [] else Tlv(names[0].tag, names[0].value) + Der(names[1..])
  }

  /** The buffer starts with `head` and is otherwise as it was. */
  ghost predicate Begins(now: seq<byte>, was: seq<byte>, head: seq<byte>) {
    |head| <= |was| && now == head + was[|head|..]
  }

  lemma BeginsOn(now: seq<byte>, was: seq<byte>, head: seq<byte>, b: byte)
    requires Begins(now, was, head) && |head| < |was|
    ensures |head| < |now| && Begins(now[|head| := b], was, head + [b])
  {
  }

  lemma Written(now: seq<byte>, was: seq<byte>, head: seq<byte>)
    requires Begins(now, was, head)
    ensures |head| <= |now| == |was| && now[..|head|] == head && now[|head|..] == was[|head|..]
  {
  }

  /** Stores `src` into the buffer behind what is there and moves on. */
  method Put(out: array<byte>, pos: nat, src: seq<byte>, ghost was: seq<byte>, ghost head: seq<byte>) returns (next: nat)
    requires Begins(out[..], was, head) && pos == |head| && pos + |src| <= out.Length
    modifies out
    ensures Begins(out[..], was, head + src) && next == |head + src|
  {
    next := pos;
    assert head + src[..0] == head;
    Written(out[..], was, head);
    for i := 0 to |src|
      invariant next == pos + i && |was| == out.Length && Begins(out[..], was, head + src[..i])
    {
      hide Begins;
      BeginsOn(out[..], was, head + src[..i], src[i]);
      assert (head + src[..i]) + [src[i]] == head + src[..i + 1];
      ghost var before := out[..];
      out[next] := src[i];
      assert out[..] == before[next := src[i]];
      next := next + 1;
    }
    assert src[..|src|] == src;
  }

  function IpPart(ip: Ipv4): seq<byte> {
    if ip != 0 then Tlv(IP_ADDRESS, IpBytes(ip)) else []
  }

  function DnsPart(dns: seq<byte>): seq<byte> {
    if dns != [] then Tlv(DNS_NAME, dns) else []
  }

  /** The header, then the names that are wanted. */
  method PutNames(out: array<byte>, ip: Ipv4, dns: seq<byte>, inner: nat, ghost was: seq<byte>) returns (n: nat)
    requires Begins(out[..], was, []) && inner == InnerLength(ip, dns) && 2 + inner <= out.Length
    modifies out
    ensures n == 2 + inner && Begins(out[..], was, [SEQUENCE, Low(inner)] + IpPart(ip) + DnsPart(dns))
  {
    hide Low, Tlv, IpBytes, Begins;
    n := Put(out, 0, [SEQUENCE, Low(inner)], was, []);
    ghost var head := [SEQUENCE, Low(inner)];
    assert [] + head == head && head + [] == head;
    if ip != 0 {
      n := Put(out, n, Tlv(IP_ADDRESS, IpBytes(ip)), was, head);
    }
    head := head + IpPart(ip);
    assert head + [] == head;
    if dns != [] {
      n := Put(out, n, Tlv(DNS_NAME, dns), was, head);
    }
  }

  lemma DerWanted(ip: Ipv4, dns: seq<byte>)
    ensures Der(Wanted(ip, dns)) == IpPart(ip) + DnsPart(dns)
    ensures |Der(Wanted(ip, dns))| == InnerLength(ip, dns)
  {
    var tail := if dns != [] then [Name(DNS_NAME, dns)] else [];
    assert Der(tail) == if dns != [] then Tlv(DNS_NAME, dns) else [] by {
      assert dns != [] ==> tail[1..] == [] && Tlv(DNS_NAME, dns) + [] == Tlv(DNS_NAME, dns);
    }
    if ip != 0 {
      assert Wanted(ip, dns)[1..] == tail;
    } else {
      assert Wanted(ip, dns) == tail;
    }
  }

  /** `encodeSanExtension`: the DER sequence of the wanted names, or nothing where it does not fit. */
  method EncodeSan(out: array<byte>, ip: Ipv4, dns: seq<byte>) returns (n: nat)
    modifies out
    ensures n == 0 <==> !Encodable(ip, dns, out.Length)
    ensures n == 0 ==> out[..] == old(out[..])
    ensures n > 0 ==> n <= out.Length && out[n..] == old(out[n..]) && out[..n] == Tlv(SEQUENCE, Der(Wanted(ip, dns)))
    ensures n > 0 ==> Layout(out[..n], ip, dns)
  {
    n := 0;
    var inner := InnerLength(ip, dns);
    if inner == 0 || inner > 127 || 2 + inner > out.Length {
      return;
    }
    ghost var was := out[..];
    assert Begins(out[..], was, []);
    n := PutNames(out, ip, dns, inner, was);
    Assembled(ip, dns);
    LaidOut(ip, dns);
    Written(out[..], was, Tlv(SEQUENCE, Der(Wanted(ip, dns))));
  }

  /** The bytes themselves: the headers of the sequence and of its names, and the names. */
  ghost predicate Layout(s: seq<byte>, ip: Ipv4, dns: seq<byte>) {
    var at := if ip != 0 then 8 else 2;
    && |s| == at + (if dns != [] then 2 + |dns| else 0) && s[0] == 0x30 && s[1] as int == |s| - 2
    && (ip != 0 ==> s[2] == 0x87 && s[3] == 4 && s[4..8] == IpBytes(ip))
    && (dns != [] ==> s[at] == 0x82 && s[at + 1] as int == |dns| && s[at + 2..] == dns)
  }

  lemma Field(before: seq<byte>, tag: byte, value: seq<byte>, after: seq<byte>)
    requires |value| <= 127
    ensures var s, at := before + Tlv(tag, value) + after, |before|;
      s[at] == tag && s[at + 1] as int == |value| && s[at + 2..at + 2 + |value|] == value
  {
  }

  lemma LaidOut(ip: Ipv4, dns: seq<byte>)
    requires InnerLength(ip, dns) <= 127
    ensures Layout(Tlv(SEQUENCE, Der(Wanted(ip, dns))), ip, dns)
  {
    hide Der, Wanted, IpBytes, Tlv;
    Assembled(ip, dns);
    DerWanted(ip, dns);
    var s := Tlv(SEQUENCE, Der(Wanted(ip, dns)));
    var head := [SEQUENCE, Low(InnerLength(ip, dns))];
    Field([], SEQUENCE, Der(Wanted(ip, dns)), []);
    assert [] + s + [] == s;
    if ip != 0 {
      Field(head, IP_ADDRESS, IpBytes(ip), DnsPart(dns));
    }
    if dns != [] {
      Field(head + IpPart(ip), DNS_NAME, dns, []);
      assert head + IpPart(ip) + DnsPart(dns) + [] == s;
    }
  }

  lemma Assembled(ip: Ipv4, dns: seq<byte>)
    ensures Tlv(SEQUENCE, Der(Wanted(ip, dns))) == [SEQUENCE, Low(InnerLength(ip, dns))] + IpPart(ip) + DnsPart(dns)
  {
    DerWanted(ip, dns);
    var body := Der(Wanted(ip, dns));
    assert Tlv(SEQUENCE, body) == [SEQUENCE, Low(|body|)] + body;
    hide Der, Wanted, Low, Tlv;
    assert [SEQUENCE, Low(InnerLength(ip, dns))] + (IpPart(ip) + DnsPart(dns)) == [SEQUENCE, Low(InnerLength(ip, dns))] + IpPart(ip) + DnsPart(dns);
  }

  // ----- parsing -----

  /** A DER length and the bytes it takes. */
  function Length(s: seq<byte>): Option<(nat, nat)> {
    if |s| >= 1 && s[0] < 128 then Some((s[0] as int, 1))
    else if |s| >= 2 && s[0] == 0x81 then Some((s[1] as int, 2))
    else if |s| >= 3 && s[0] == 0x82 then Some((256 * (s[1] as int) + s[2] as int, 3))
    else None
  }

  function ParseNames(s: seq<byte>): Option<seq<Name>>
    decreases |s|
  {
    if s == [] then Some([]) else
      var l := Length(s[1..]);
      if l.None? || s[0] / 64 != 2 || 1 + l.value.1 + l.value.0 > |s| then None else
        var from := 1 + l.value.1;
        var rest := ParseNames(s[from + l.value.0..]);
        if rest.None? then None else Some([Name(s[0], s[from..from + l.value.0])] + rest.value)
  }

  function Parse(s: seq<byte>): Option<seq<Name>> {
    if s == [] || s[0] != SEQUENCE then None else
      var l := Length(s[1..]);
      if l.None? || 1 + l.value.1 + l.value.0 != |s| then None else ParseNames(s[1 + l.value.1..])
  }

  ghost predicate Short(names: seq<Name>) {
    forall n | n in names :: |n.value| <= 127 && n.tag / 64 == 2
  }

  /** Parsing undoes encoding. */
  lemma {:induction false} ParseDer(names: seq<Name>)
    requires Short(names)
    ensures ParseNames(Der(names)) == Some(names)
  {
    if names != [] {
      var first, rest := names[0], Der(names[1..]);
      var s := Tlv(first.tag, first.value) + rest;
      assert first in names;
      assert s[1..][0] == |first.value| as byte && Length(s[1..]).Some?;
      assert Length(s[1..]).value.0 == |first.value| && Length(s[1..]).value.1 == 1;
      assert s[2..2 + |first.value|] == first.value && s[2 + |first.value|..] == rest;
      ParseDer(names[1..]);
      assert [first] + names[1..] == names;
    }
  }

  lemma ParseSan(ip: Ipv4, dns: seq<byte>, cap: nat)
    requires Encodable(ip, dns, cap)
    ensures Parse(Tlv(SEQUENCE, Der(Wanted(ip, dns)))) == Some(Wanted(ip, dns))
  {
    DerWanted(ip, dns);
    var body := Der(Wanted(ip, dns));
    hide Der;
    assert Tlv(SEQUENCE, body)[1..][0] == |body| as byte && Tlv(SEQUENCE, body)[2..] == body;
    ParseDer(Wanted(ip, dns));
    hide ParseNames;
  }

  // ----- matching -----

  predicate NamesIp(n: Name, ip: Ipv4) {
    Tagged(n.tag, 7) && |n.value| == 4 && IpOf(n.value) == ip
  }

  predicate NamesDns(n: Name, dns: seq<byte>) {
    Tagged(n.tag, 2) && n.value == dns
  }

  /** Every requested part is among the names. */
  predicate Covers(names: seq<Name>, ip: Ipv4, dns: seq<byte>) {
    && (ip == 0 || exists k | 0 <= k < |names| :: NamesIp(names[k], ip))
    && (dns == [] || exists k | 0 <= k < |names| :: NamesDns(names[k], dns))
  }

  /** `sanMatches`. */
  method SanMatches(names: seq<Name>, ip: Ipv4, dns: seq<byte>) returns (matched: bool)
    ensures matched <==> Covers(names, ip, dns)
  {
    var foundIp, foundDns := false, false;
    for i := 0 to |names|
      invariant foundIp <==> ip != 0 && exists k | 0 <= k < i :: NamesIp(names[k], ip)
      invariant foundDns <==> dns != [] && exists k | 0 <= k < i :: NamesDns(names[k], dns)
    {
      var cur := names[i];
      if Tagged(cur.tag, 7) {
        if ip != 0 && |cur.value| == 4 && IpOf(cur.value) == ip {
          foundIp := true;
        }
      } else if Tagged(cur.tag, 2) {
        if dns != [] && cur.value == dns {
          foundDns := true;
        }
      }
    }
    matched := (ip == 0 || foundIp) && (dns == [] || foundDns);
  }

  /** A parsed extension covers a request if and only if each requested part is the encoded one. */
  lemma EncodedCovers(ip: Ipv4, dns: seq<byte>, cap: nat, ip2: Ipv4, dns2: seq<byte>)
    requires Encodable(ip, dns, cap)
    ensures var names := Parse(Tlv(SEQUENCE, Der(Wanted(ip, dns))));
      && names.Some?
      && (Covers(names.value, ip2, dns2) <==> (ip2 == 0 || ip2 == ip) && (dns2 == [] || dns2 == dns))
  {
    ParseSan(ip, dns, cap);
    IpRoundTrip(ip);
    var names := Wanted(ip, dns);
    assert ip != 0 ==> names[0] == Name(IP_ADDRESS, IpBytes(ip)) && NamesIp(names[0], ip);
    assert dns != [] ==> names[|names| - 1] == Name(DNS_NAME, dns) && NamesDns(names[|names| - 1], dns);
  }

  // ----- keeping a certificate -----

  /** The certificate file: not there, not loadable, or a certificate with this extension for a key pair. */
  datatype CertFile = Missing | Unloadable | Cert(san: seq<byte>, pair: nat)

  /** The key file: not there, no key, or the key of a pair. */
  datatype KeyFile = NoKey | Broken | Key(pair: nat)

  /** How far generating and storing a pair gets; the extension is encoded before anything is stored. */
  datatype Generation = NothingStored | CertLost(leftCert: CertFile) | KeyLost(leftKey: KeyFile) | Stored

  /** The names of a certificate, none if it has no extension. */
  function Names(san: seq<byte>): Option<seq<Name>> {
    if san == [] then Some([]) else Parse(san)
  }

  /** The extension for a request, empty where it asks for none. */
  function RequestedSan(ip: Ipv4, dns: seq<byte>): seq<byte> {
    if ip != 0 || dns != [] then Tlv(SEQUENCE, Der(Wanted(ip, dns))) else []
  }

  /** A request names the device at all, and what it asks for the extension can be encoded. */
  predicate Makeable(ip: Ipv4, dns: seq<byte>, subject: seq<byte>) {
    && (ip != 0 || dns != [] || subject != [])
    && (ip != 0 || dns != [] ==> Encodable(ip, dns, SAN_BUF_SIZE))
  }

  class CertStore {
    var cert: CertFile
    var key: KeyFile

    constructor (cert: CertFile, key: KeyFile)
      ensures this.cert == cert && this.key == key
    {
      this.cert, this.key := cert, key;
    }

    /** The certificate can be loaded and names the device. */
    ghost predicate NamesDevice(ip: Ipv4, dns: seq<byte>)
      reads this
    {
      cert.Cert? && Names(cert.san).Some? && Covers(Names(cert.san).value, ip, dns)
    }

    /** What `ensureServerCert` asks of a stored pair: of the key only that its file is there. */
    ghost predicate Current(ip: Ipv4, dns: seq<byte>)
      reads this
    {
      !key.NoKey? && NamesDevice(ip, dns)
    }

    /** The stored key is that of the stored certificate. */
    ghost predicate Paired()
      reads this
    {
      cert.Cert? && key == Key(cert.pair)
    }

    /** The extension for a request, empty where nothing is asked for. */
    method Extension(ip: Ipv4, dns: seq<byte>) returns (ok: bool, san: seq<byte>)
      ensures ok <==> (ip != 0 || dns != [] ==> Encodable(ip, dns, SAN_BUF_SIZE))
      ensures ok ==> san == RequestedSan(ip, dns) && Names(san).Some? && Covers(Names(san).value, ip, dns)
    {
      ok, san := true, [];
      if ip != 0 || dns != [] {
        var buf := new byte[SAN_BUF_SIZE];
        var n := EncodeSan(buf, ip, dns);
        ok := n > 0;
        if ok {
          EncodedCovers(ip, dns, SAN_BUF_SIZE, ip, dns);
          san := buf[..n];
        }
      }
    }

    /** `generateCert`, with the key pair `pair`. */
    method GenerateCert(ip: Ipv4, dns: seq<byte>, subject: seq<byte>, gen: Generation, pair: nat) returns (ok: bool)
      modifies this
      ensures ok <==> Makeable(ip, dns, subject) && gen.Stored?
      ensures ok ==> Current(ip, dns) && Paired() && cert == Cert(RequestedSan(ip, dns), pair)
      ensures !Makeable(ip, dns, subject) || gen.NothingStored? ==> unchanged(this)
      ensures Makeable(ip, dns, subject) && gen.CertLost? ==> cert == gen.leftCert && key == old(key)
      ensures Makeable(ip, dns, subject) && gen.KeyLost? ==> NamesDevice(ip, dns) && cert.pair == pair && key == gen.leftKey
    {
      ok := false;
      if ip != 0 || dns != [] || subject != [] {
        var encoded, san := Extension(ip, dns);
        if encoded {
          match gen {
            case NothingStored =>
            case CertLost(left) =>
              cert := left;
            case KeyLost(left) =>
              cert, key := Cert(san, pair), left;
            case Stored =>
              cert, key := Cert(san, pair), Key(pair);
              ok := true;
          }
        }
      }
    }

    /**
      `ensureServerCert`: a current pair is kept; otherwise a new one is made, if its names can be
      encoded.  After success the key belongs to the certificate, unless a pair was kept that did not
      match before.
     */
    method EnsureServerCert(ip: Ipv4, dns: seq<byte>, gen: Generation, pair: nat) returns (ok: bool)
      modifies this
      ensures ip == 0 && dns == [] ==> !ok && unchanged(this)
      ensures (ip != 0 || dns != []) && old(Current(ip, dns)) ==> ok && unchanged(this)
      ensures (ip != 0 || dns != []) && !old(Current(ip, dns)) ==> (ok <==> Encodable(ip, dns, SAN_BUF_SIZE) && gen.Stored?)
      ensures ok ==> Current(ip, dns) && (Paired() <==> !old(Current(ip, dns)) || old(Paired()))
      ensures ok && !old(Current(ip, dns)) ==> cert == Cert(RequestedSan(ip, dns), pair)
      ensures !old(Current(ip, dns)) && Encodable(ip, dns, SAN_BUF_SIZE) && gen.KeyLost? ==>
        NamesDevice(ip, dns) && cert.pair == pair && key == gen.leftKey
    {
      ok := false;
      if ip != 0 || dns != [] {
        if !key.NoKey? && cert.Cert? && Names(cert.san).Some? {
          ok := SanMatches(Names(cert.san).value, ip, dns);
        }
        if !ok {
          ok := GenerateCert(ip, dns, [], gen, pair);
        }
      }
    }
  }

  /** Once it has succeeded, the same request keeps the pair, whatever generating would do. */
  method EnsureTwice(s: CertStore, ip: Ipv4, dns: seq<byte>, gen: Generation, gen2: Generation, pair: nat) returns (ok: bool, made: CertFile)
    modifies s
    ensures ok ==> s.cert == made && s.Current(ip, dns)
  {
    ok := s.EnsureServerCert(ip, dns, gen, pair);
    made := s.cert;
    if ok {
      ok := s.EnsureServerCert(ip, dns, gen2, pair + 1);
      assert ok;
    }
  }

  /** The new key could not be stored over an older one: the next request takes the two for a pair. */
  method MismatchedPair() returns (s: CertStore, ok: bool)
    ensures ok && s.Current(1, []) && !s.Paired()
  {
    s := new CertStore(Missing, Key(0));
    var made := s.EnsureServerCert(1, [], KeyLost(Key(0)), 1);
    ok := s.EnsureServerCert(1, [], NothingStored, 2);
  }
}
