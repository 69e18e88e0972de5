/**
  `read` and `available` of the esp32 TLS client.  The TLS engine only says how much of the current
  record is left, so `available` decrypts one byte ahead and keeps it for the next `read`.
 */
module PeekRead {
  import opened Pbufs

  /** What a call that needs the next record meets. */
  datatype Fetch = Record(size: nat) | Want | Eof | CloseNotify | Broken

  datatype Rc = Got(bytes: seq<byte>) | Nothing | Closed | Failed

  /** What a call gets of its next record, and how a call that gets nothing ends. */
  function Fetched(f: Fetch, n: nat): nat {
    if f.Record? then Min(n, f.size) else 0
  }

  function Min(a: nat, b: nat): nat {
    if a < b then a else b
  }

  /** The decrypted bytes from position `from` on. */
  function Slice(plain: nat -> byte, from: nat, n: nat): (s: seq<byte>)
    ensures |s| == n && forall i | 0 <= i < n :: s[i] == plain(from + i)
  {
    seq(n, i requires 0 <= i => plain(from + i))
  }

  lemma SliceConcat(plain: nat -> byte, from: nat, n: nat, m: nat)
    ensures Slice(plain, from, n) + Slice(plain, from + n, m) == Slice(plain, from, n + m)
  {
  }

  lemma SliceStart(plain: nat -> byte, from: nat)
    ensures Slice(plain, from, 0) == [] && Slice(plain, from, 1) == [plain(from)]
  {
  }

  class TlsReader {
    const plain: nat -> byte
    const fetch: nat -> Fetch
    const queued: nat -> bool
    // the engine: bytes it has given out, and bytes left in its current record
    var pos: nat
    var left: nat
    var tick: nat
    // the client
    var ready: bool
    var fatal: bool
    var connected: bool
    var peekValid: bool
    var peekByte: byte
    ghost var given: nat

    /** The peeked byte is the only one the engine has given out and the caller has not seen. */
    ghost predicate Valid()
      reads this
    {
      && pos == given + (if peekValid then 1 else 0)
      && (peekValid ==> peekByte == plain(given))
    }

    ghost function Pending(): nat
      reads this
    {
      (if peekValid then 1 else 0) + left
    }

    constructor (plain: nat -> byte, fetch: nat -> Fetch, queued: nat -> bool)
      ensures Valid() && given == 0 && ready && !fatal && connected && this.plain == plain
      ensures this.fetch == fetch && this.queued == queued && left == 0 && !peekValid && tick == 0
    {
      this.plain, this.fetch, this.queued := plain, fetch, queued;
      pos, left, tick := 0, 0, 0;
      ready, fatal, connected, peekValid, peekByte, given := true, false, true, false, 0, 0;
    }

    /** `mbedtls_ssl_read`: never across a record, and a new record only when the last one is used up. */
    method SslRead(n: nat) returns (rc: Rc)
      requires n > 0
      modifies this`pos, this`left, this`tick
      ensures rc.Got? ==> 0 < |rc.bytes| <= n && rc.bytes == Slice(plain, old(pos), |rc.bytes|) && pos == old(pos) + |rc.bytes|
      ensures !rc.Got? ==> pos == old(pos) && left == old(left) == 0
      ensures old(left) > 0 ==> rc.Got? && |rc.bytes| == Min(n, old(left)) && left == old(left) - |rc.bytes| && tick == old(tick)
      ensures old(left) == 0 ==>
        var f := fetch(old(tick) + 1);
        && tick == old(tick) + 1 && (rc.Got? <==> f.Record? && f.size > 0)
        && (rc.Got? ==> |rc.bytes| == Min(n, f.size) && left == f.size - |rc.bytes|)
        && (rc.Closed? <==> f.CloseNotify?) && (rc.Failed? <==> f.Broken?)
    {
      rc := Nothing;
      if left == 0 {
        tick := tick + 1;
        match fetch(tick) {
          case Record(size) => left := size;
          case Want =>
          case Eof =>
          case CloseNotify => rc := Closed;
          case Broken => rc := Failed;
        }
      }
      if left > 0 {
        var k := if n < left then n else left;
        rc := Got(Slice(plain, pos, k));
        pos, left := pos + k, left - k;
      }
    }

    /** The end of both operations where the engine gave nothing. */
    method Settle(rc: Rc)
      modifies this`connected, this`fatal
      ensures fatal == (old(fatal) || rc.Failed?)
      ensures connected == (old(connected) && !rc.Failed? && !rc.Closed?)
    {
      if rc.Closed? {
        connected := false;
      } else if rc.Failed? {
        fatal, connected := true, false;
      }
    }

    /** `read`: the next bytes of the decrypted stream, everything pending if that is enough. */
    method Read(size: nat) returns (out: seq<byte>)
      requires Valid()
      modifies this
      ensures Valid() && ready == old(ready)
      ensures |out| <= size && out == Slice(plain, old(given), |out|) && given == old(given) + |out|
      ensures !old(ready) || old(fatal) ==> out == [] && unchanged(this)
      ensures old(ready) && !old(fatal) && size <= old(Pending()) ==> |out| == size && !fatal && connected == old(connected)
      ensures old(ready) && !old(fatal) && size > old(Pending()) && old(left) > 0 ==>
        |out| == old(Pending()) && !fatal && connected == old(connected) && tick == old(tick)
      ensures old(ready) && !old(fatal) && size > old(Pending()) && old(left) == 0 ==>
        var f := fetch(old(tick) + 1);
        && |out| == old(Pending()) + Fetched(f, size - old(Pending())) && tick == old(tick) + 1
        && left == (if f.Record? then f.size - Fetched(f, size - old(Pending())) else 0)
        && fatal == f.Broken? && connected == (old(connected) && !f.Broken? && !f.CloseNotify?)
      ensures old(ready) && !old(fatal) && size <= old(Pending()) ==> Pending() == old(Pending()) - size
    {
      hide Slice;
      SliceStart(plain, given);
      out := [];
      if size > 0 && ready && !fatal {
        if peekValid {
          out, peekValid, given := [peekByte], false, given + 1;
        }
        if |out| < size {
          var more := ReadEngine(size - |out|);
          SliceConcat(plain, old(given), |out|, |more|);
          out := out + more;
        }
      }
    }

    /** The part of `read` that asks the engine, once. */
    method ReadEngine(n: nat) returns (out: seq<byte>)
      requires Valid() && !peekValid && ready && !fatal && n > 0
      modifies this
      ensures Valid() && ready && !peekValid && out == Slice(plain, old(given), |out|) && given == old(given) + |out|
      ensures old(left) > 0 ==>
        |out| == Min(n, old(left)) && left == old(left) - |out| && !fatal && connected == old(connected) && tick == old(tick)
      ensures old(left) == 0 ==>
        var f := fetch(old(tick) + 1);
        && |out| == Fetched(f, n) && tick == old(tick) + 1 && left == (if f.Record? then f.size - |out| else 0)
        && fatal == f.Broken? && connected == (old(connected) && !f.Broken? && !f.CloseNotify?)
    {
      out := [];
      var rc := SslRead(n);
      if rc.Got? {
        given := given + |rc.bytes|;
        out := rc.bytes;
      } else {
        Settle(rc);
      }
    }

    /** `available`: how much is pending, after looking one byte ahead where nothing is. */
    method Available() returns (n: nat)
      requires Valid()
      modifies this
      ensures Valid() && given == old(given) && ready == old(ready)
      ensures n > 0 ==> ready && !fatal && n == Pending()
      ensures old(ready) && !old(fatal) && old(Pending()) > 0 ==> n == old(Pending()) && unchanged(this)
      ensures (!old(ready) || old(fatal)) ==> n == 0 && unchanged(this)
      ensures old(ready) && !old(fatal) && n == 0 ==> Pending() == 0
      ensures old(ready) && !old(fatal) && old(Pending()) == 0 && !queued(old(tick)) ==> n == 0 && unchanged(this)
      ensures old(ready) && !old(fatal) && old(Pending()) == 0 && queued(old(tick)) ==>
        var f := fetch(old(tick) + 1);
        && n == (if f.Record? then f.size else 0) && peekValid == (n > 0) && tick == old(tick) + 1
        && fatal == f.Broken? && connected == (old(connected) && !f.Broken? && !f.CloseNotify?)
    {
      n := 0;
      if ready && !fatal {
        if peekValid {
          n := 1 + left;
        } else if left > 0 {
          n := left;
        } else if queued(tick) {
          var rc := SslRead(1);
          if rc.Got? {
            peekByte, peekValid := rc.bytes[0], true;
            n := 1 + left;
          } else {
            Settle(rc);
          }
        }
      }
    }
  }

  /** A positive `available` is what the next `read` of that size returns. */
  method ReadWhatIsAvailable(r: TlsReader) returns (n: nat, out: seq<byte>)
    requires r.Valid()
    modifies r
    ensures r.Valid() && |out| == n && out == Slice(r.plain, old(r.given), n) && r.given == old(r.given) + n
    ensures old(r.ready) && !old(r.fatal) ==>
      var f := r.fetch(old(r.tick) + 1);
      n == if old(r.Pending()) > 0 then old(r.Pending()) else if r.queued(old(r.tick)) && f.Record? then f.size else 0
  {
    n := r.Available();
    out := r.Read(n);
  }

  /** Nothing is pending and a record of five bytes is on its way: one call sees all five, and loses none. */
  method LooksAhead(plain: nat -> byte) returns (n: nat, out: seq<byte>)
    ensures n == 5 && out == Slice(plain, 0, 5)
  {
    var r := new TlsReader(plain, _ => Record(5), _ => true);
    n, out := ReadWhatIsAvailable(r);
  }

  datatype Op = DoRead(size: nat) | DoAvailable | EngineFails

  /**
    However the calls are mixed, the bytes read are a prefix of the decrypted stream: all the engine
    has given out, but for a byte that is still held back.
   */
  method Session(plain: nat -> byte, fetch: nat -> Fetch, queued: nat -> bool, ops: seq<Op>) returns (out: seq<byte>, decrypted: nat, held: bool)
    ensures out == Slice(plain, 0, |out|) && decrypted == |out| + (if held then 1 else 0)
  {
    var r := new TlsReader(plain, fetch, queued);
    out := [];
    for i := 0 to |ops|
      invariant r.Valid() && fresh(r) && r.plain == plain
      invariant r.given == |out| && out == Slice(plain, 0, |out|)
    {
      match ops[i] {
        case DoRead(size) =>
          var more := r.Read(size);
          SliceConcat(plain, 0, |out|, |more|);
          out := out + more;
        case DoAvailable =>
          var _ := r.Available();
        case EngineFails =>
          r.fatal := true;
      }
    }
    decrypted, held := r.pos, r.peekValid;
  }
}
