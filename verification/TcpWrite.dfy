/**
  Sending: `write` cuts its data into segments no larger than lwIP's free send buffer, and waits a
  bounded time for room.  Between any two critical sections a callback may take the connection away
  or report an acknowledgement, and lwIP's answers are arbitrary.
 */
module TcpWrite {
  import opened Pbufs

  type Err = e: int | -16 <= e <= 0

  const ERR_OK: Err := 0
  const ERR_MEM: Err := -1
  const ERR_CLSD: Err := -15
  const ERR_STATE := -19
  const DRAIN_TIMEOUT_MS: nat := 500
  const RO_BUFFER: nat := 128

  function FromLwip(e: Err): int {
    -4200 + e
  }

  /** What lwIP answers at each moment, and what its callbacks do there. */
  datatype Env = Env(sndbuf: nat -> nat, write: nat -> Err, output: nat -> Err, drops: nat -> bool, acks: nat -> bool)

  /** A segment lwIP accepted, and whether it was told that more follows. */
  datatype Segment = Segment(payload: seq<byte>, more: bool)

  ghost function Payload(log: seq<Segment>): seq<byte> {
    if log == [] then [] else Payload(log[..|log| - 1]) + log[|log| - 1].payload
  }

  lemma PayloadSnoc(log: seq<Segment>, s: Segment)
    ensures Payload(log + [s]) == Payload(log) + s.payload
  {
    assert (log + [s])[..|log|] == log;
  }

  ghost predicate AllMore(segments: seq<Segment>) {
    forall s | s in segments :: s.more
  }

  /** Unless one segment carries all of `data`, every segment is told that more follows, the last one too. */
  ghost predicate PushedWhole(segments: seq<Segment>, data: seq<byte>) {
    AllMore(segments) || segments == [Segment(data, false)]
  }

  /** An offer to lwIP, accepted or not: its size, and how much was left to send. */
  datatype Try = Try(size: nat, left: nat)

  /** Some offer was cut to the free send buffer. */
  ghost predicate Cut(tries: seq<Try>) {
    exists i | 0 <= i < |tries| :: tries[i].size < tries[i].left
  }

  lemma NoCut()
    ensures !Cut([])
  {
  }

  lemma CutAdd(tries: seq<Try>, t: Try)
    ensures Cut(tries + [t]) <==> Cut(tries) || t.size < t.left
  {
    var all := tries + [t];
    assert forall i | 0 <= i < |tries| :: all[i] == tries[i];
    assert all[|tries|] == t;
  }

  /** A call of `tcp_output`: its answer, and how many segments lwIP had been given by then. */
  datatype Flush = Flush(err: Err, given: nat)

  ghost predicate LastFlush(flushes: seq<Flush>, before: seq<Flush>, f: Flush) {
    before < flushes && flushes[|flushes| - 1] == f
  }

  lemma LastFlushAdd(flushes: seq<Flush>, before: seq<Flush>, f: Flush)
    requires before <= flushes
    ensures LastFlush(flushes + [f], before, f)
  {
  }

  /** No acknowledgement comes in. */
  ghost predicate Quiet(env: Env) {
    forall t :: !env.acks(t)
  }

  lemma QuietAt(env: Env, t: nat)
    requires Quiet(env)
    ensures !env.acks(t)
  {
  }

  /**
    lwIP takes what it is offered, always has some room, and the connection stays.
   */
  ghost predicate Willing(env: Env) {
    && (forall t :: env.sndbuf(t) % 65536 > 0)
    && (forall t :: env.write(t) == ERR_OK) && (forall t :: env.output(t) == ERR_OK) && (forall t :: !env.drops(t))
  }

  lemma WillingAt(env: Env, t: nat)
    requires Willing(env)
    ensures env.sndbuf(t) % 65536 > 0 && env.write(t) == ERR_OK && env.output(t) == ERR_OK && !env.drops(t)
  {
  }

  function Min(a: nat, b: nat): nat {
    if a < b then a else b
  }

  /** What the loop of `write` keeps: `sent` bytes are in the stream, and the flag is set by the first cut. */
  ghost predicate Sending(log: seq<Segment>, start: seq<Segment>, segments: seq<Segment>, data: seq<byte>, sent: nat, flag: bool, flag0: bool, cut: bool) {
    && log == start + segments && sent <= |data|
    && Payload(log) == Payload(start) + data[..sent]
    && PushedWhole(segments, data) && (sent < |data| ==> AllMore(segments))
    && (sent == 0 <==> segments == []) && (!flag ==> sent == 0 || sent == |data|)
    && (flag <==> flag0 || cut) && (flag0 ==> AllMore(segments))
    && (segments != [] && sent == |data| ==> (segments[|segments| - 1].more <==> flag))
  }

  /** One offer, refused or accepted. */
  lemma SendingStep(log: seq<Segment>, start: seq<Segment>, segments: seq<Segment>, data: seq<byte>, sent: nat, flag: bool, flag0: bool, cut: bool, chunk: nat)
    requires Sending(log, start, segments, data, sent, flag, flag0, cut) && sent < |data| && 0 < chunk <= |data| - sent
    ensures var more, c := flag || chunk < |data| - sent, cut || chunk < |data| - sent;
      var s := Segment(data[sent..sent + chunk], more);
      && Sending(log, start, segments, data, sent, more, flag0, c)
      && Sending(log + [s], start, segments + [s], data, sent + chunk, more, flag0, c)
  {
    var s := Segment(data[sent..sent + chunk], flag || chunk < |data| - sent);
    PayloadSnoc(log, s);
    assert data[..sent] + s.payload == data[..sent + chunk];
    assert start + (segments + [s]) == log + [s];
    if !s.more {
      assert s.payload == data && segments + [s] == [s];
    }
  }

  lemma SendingStart(log: seq<Segment>, data: seq<byte>, flag0: bool)
    ensures Sending(log, log, [], data, 0, flag0, flag0, false)
  {
    assert log + [] == log && Payload(log) + data[..0] == Payload(log);
  }

  lemma SendingEnd(log: seq<Segment>, start: seq<Segment>, segments: seq<Segment>, data: seq<byte>, sent: nat, flag: bool, flag0: bool, cut: bool)
    requires Sending(log, start, segments, data, sent, flag, flag0, cut)
    ensures log == start + segments && sent <= |data| && Payload(log) == Payload(start) + data[..sent]
    ensures PushedWhole(segments, data) && (sent == 0 <==> segments == []) && (flag0 ==> AllMore(segments))
    ensures segments != [] && sent == |data| ==> (segments[|segments| - 1].more <==> flag0 || cut)
  {
  }

  class Sender {
    var pcb: bool
    var connected: bool
    var acked: bool
    var tick: nat
    var clock: nat
    const env: Env
    ghost var log: seq<Segment>
    ghost var tried: seq<Try>
    ghost var flushes: seq<Flush>

    /** Callbacks have run once. */
    twostate predicate Later()
      reads this
    {
      && tick == old(tick) + 1
      && (pcb <==> old(pcb) && !env.drops(tick)) && (connected <==> old(connected) && !env.drops(tick))
      && (acked <==> old(acked) || (old(pcb) && env.acks(tick)))
    }

    /** What any number of callbacks leave. */
    twostate predicate Since()
      reads this
    {
      && (pcb ==> old(pcb)) && (connected ==> old(connected)) && (old(acked) ==> acked)
      && (Quiet(env) ==> acked == old(acked)) && (Willing(env) ==> pcb == old(pcb) && connected == old(connected))
    }

    constructor (env: Env)
      ensures pcb && connected && acked && log == [] && flushes == [] && this.env == env
    {
      pcb, connected, acked, tick, clock := true, true, true, 0, 0;
      this.env := env;
      log, tried, flushes := [], [], [];
    }

    /** A point where callbacks run: `onError` takes the pcb away, `onSent` acknowledges. */
    method Preempt()
      modifies this`tick, this`pcb, this`connected, this`acked
      ensures Later()
    {
      tick := tick + 1;
      if env.acks(tick) && pcb {
        acked := true;
      }
      if env.drops(tick) {
        pcb, connected := false, false;
      }
    }

    /** The free send buffer, cut to 16 bits. */
    method Room() returns (avail: nat)
      modifies this`tick, this`pcb, this`connected, this`acked
      ensures avail == if old(pcb) then env.sndbuf(old(tick)) % 65536 else 0
      ensures Since() && (Willing(env) && old(pcb) ==> avail > 0)
    {
      avail := if pcb then env.sndbuf(tick) % 65536 else 0;
      Preempt();
    }

    method Output() returns (err: Err)
      modifies this`tick, this`pcb, this`connected, this`acked, this`flushes
      ensures Later()
      ensures err == if old(pcb) then env.output(old(tick)) else ERR_CLSD
      ensures flushes == old(flushes) + [Flush(err, |log|)]
    {
      err := if pcb then env.output(tick) else ERR_CLSD;
      flushes := flushes + [Flush(err, |log|)];
      Preempt();
    }

    /** One millisecond without room; the first of them is used to get data out. */
    method Wait(idle: nat) returns (err: Err)
      modifies this`tick, this`pcb, this`connected, this`acked, this`clock, this`flushes
      ensures clock == old(clock) + 1 && Since()
      ensures flushes == old(flushes) + if idle == 0 then [Flush(err, |log|)] else []
    {
      err := ERR_OK;
      if idle == 0 {
        err := Output();
      }
      clock := clock + 1;
      Preempt();
    }

    /** `tcp_write`: what it accepts is copied into the stream. */
    method Offer(payload: seq<byte>, more: bool, ghost left: nat) returns (err: Err)
      modifies this`tick, this`pcb, this`connected, this`acked, this`log, this`tried
      ensures log == if err == ERR_OK then old(log) + [Segment(payload, more)] else old(log)
      ensures tried == old(tried) + [Try(|payload|, left)]
      ensures err == if old(pcb) then env.write(old(tick)) else ERR_CLSD
      ensures Later()
    {
      err := if pcb then env.write(tick) else ERR_CLSD;
      tried := tried + [Try(|payload|, left)];
      if err == ERR_OK {
        log := log + [Segment(payload, more)];
      }
      Preempt();
    }

    /** One offer, as large as the room allows. */
    method SendChunk(data: seq<byte>, sent0: nat, more0: bool, avail: nat, ghost flag0: bool,
                     ghost start: seq<Segment>, ghost segments0: seq<Segment>, ghost cut: bool)
      returns (sent: nat, more: bool, err: Err, ghost segments: seq<Segment>)
      requires Sending(log, start, segments0, data, sent0, more0, flag0, cut) && sent0 < |data| && avail > 0
      modifies this`tick, this`pcb, this`connected, this`acked, this`log, this`tried
      ensures var left := |data| - sent0;
        && Sending(log, start, segments, data, sent, more, flag0, cut || Min(left, avail) < left)
        && tried == old(tried) + [Try(Min(left, avail), left)]
        && sent <= |data| && sent == (if err == ERR_OK then sent0 + Min(left, avail) else sent0)
        && more == (more0 || Min(left, avail) < left)
        && segments == if err == ERR_OK then segments0 + [Segment(data[sent0..sent], more)] else segments0
      ensures Since() && (Willing(env) && old(pcb) ==> err == ERR_OK)
    {
      hide Sending;
      var left := |data| - sent0;
      var chunk := Min(left, avail);
      SendingStep(log, start, segments0, data, sent0, more0, flag0, cut, chunk);
      more := more0 || chunk < left;
      sent, segments := sent0, segments0;
      err := Offer(data[sent0..sent0 + chunk], more, left);
      if err == ERR_OK {
        segments := segments + [Segment(data[sent0..sent0 + chunk], more)];
        sent := sent + chunk;
      }
    }

    /**
      The loop of `write`.  It ends for any answers of lwIP: each round sends bytes, or uses up waiting
      time, or follows a refused offer, which cannot happen twice in a row.
     */
    method SendLoop(data: seq<byte>, flag0: bool)
      returns (sent: nat, fault: Err, ghost segments: seq<Segment>, ghost tries: seq<Try>, ghost waited: nat)
      requires |data| < 0x8000_0000
      modifies this
      ensures log == old(log) + segments && sent <= |data| && Payload(log) == Payload(old(log)) + data[..sent]
      ensures tried == old(tried) + tries && PushedWhole(segments, data)
      ensures segments != [] && sent == |data| ==> (segments[|segments| - 1].more <==> flag0 || Cut(tries))
      ensures (sent == 0 <==> segments == []) && (flag0 ==> AllMore(segments))
      ensures old(clock) + waited <= clock <= old(clock) + DRAIN_TIMEOUT_MS * (|segments| + 1)
      ensures (pcb ==> old(pcb)) && (connected ==> old(connected)) && (old(acked) ==> acked) && (Quiet(env) ==> acked == old(acked))
      ensures old(flushes) <= flushes && |flushes| <= |old(flushes)| + |segments| + 1 && (clock == old(clock) <==> flushes == old(flushes))
      ensures fault == ERR_OK && sent < |data| ==> !pcb || waited == DRAIN_TIMEOUT_MS
      ensures fault != ERR_OK ==> sent < |data| && fault != ERR_MEM
      ensures Willing(env) && old(pcb) ==>
        && sent == |data| && pcb && connected == old(connected) && clock == old(clock)
        && (data != [] ==> tries != [] && tries[0] == Try(Min(|data|, env.sndbuf(old(tick)) % 65536), |data|))
    {
      hide Sending, Cut, Willing, Quiet, Payload, AllMore, PushedWhole;
      var err := ERR_OK;
      sent := 0;
      fault := ERR_OK;
      var more, idle: nat, running := flag0, 0, true;
      segments, tries := [], [];
      ghost var cut := false;
      SendingStart(log, data, flag0);
      NoCut();
      ghost var first := Try(Min(|data|, env.sndbuf(tick) % 65536), |data|);
      while sent < |data| && running
        invariant sent <= |data| && idle <= DRAIN_TIMEOUT_MS && Sending(log, old(log), segments, data, sent, more, flag0, cut)
        invariant tried == old(tried) + tries && (cut <==> Cut(tries))
        invariant old(clock) + idle <= clock <= old(clock) + DRAIN_TIMEOUT_MS * |segments| + idle
        invariant (pcb ==> old(pcb)) && (connected ==> old(connected)) && (old(acked) ==> acked) && (Quiet(env) ==> acked == old(acked))
        invariant old(flushes) <= flushes && |flushes| <= |old(flushes)| + |segments| + if idle > 0 then 1 else 0
        invariant clock == old(clock) <==> flushes == old(flushes)
        invariant running ==> fault == ERR_OK
        invariant !running && fault == ERR_OK ==> !pcb || idle == DRAIN_TIMEOUT_MS
        invariant fault != ERR_OK ==> sent < |data| && fault != ERR_MEM
        invariant Willing(env) && old(pcb) ==> pcb && connected == old(connected) && running && err == ERR_OK && clock == old(clock)
        invariant Willing(env) && old(pcb) ==>
          if tries == [] then tick == old(tick) && sent == 0 else tries[0] == first
        decreases running, |data| - sent, DRAIN_TIMEOUT_MS - idle, if err == ERR_MEM then 0 else 1
      {
        var avail := Room();
        if avail == 0 || err == ERR_MEM {
          if !pcb || idle >= DRAIN_TIMEOUT_MS {
            running := false;
          } else {
            err := Wait(idle);
            idle := idle + 1;
          }
        } else {
          ghost var offer := Try(Min(|data| - sent, avail), |data| - sent);
          sent, more, err, segments := SendChunk(data, sent, more, avail, flag0, old(log), segments, cut);
          CutAdd(tries, offer);
          tries, cut := tries + [offer], cut || offer.size < offer.left;
          if err == ERR_OK {
            idle := 0;
          } else if err != ERR_MEM {
            running, fault := false, err;
          }
        }
      }
      SendingEnd(log, old(log), segments, data, sent, more, flag0, cut);
      waited := idle;
    }

    /** The end of `write`: if nothing was unacknowledged, lwIP is told to send, and its error is the result. */
    method Finish(sent: nat, ghost before: seq<Flush>) returns (r: int)
      requires before <= flushes
      modifies this`tick, this`pcb, this`connected, this`acked, this`flushes
      ensures r == sent || -4216 <= r < -4200
      ensures before <= flushes && |flushes| <= |old(flushes)| + 1
      ensures if old(acked) then LastFlush(flushes, before, Flush(if r >= 0 then ERR_OK else r + 4200, |log|)) else flushes == old(flushes) && r >= 0
      ensures (pcb ==> old(pcb)) && (connected ==> old(connected)) && (Quiet(env) ==> !acked)
      ensures Willing(env) && old(pcb) && old(connected) ==> pcb && connected && r == sent
    {
      hide LastFlush, Willing, Quiet;
      if Willing(env) {
        WillingAt(env, tick);
        WillingAt(env, tick + 1);
        WillingAt(env, tick + 2);
      }
      if Quiet(env) {
        QuietAt(env, tick + 1);
        QuietAt(env, tick + 2);
      }
      r := sent;
      if acked {
        acked := false;
        LastFlushAdd(flushes, before, Flush(if pcb then env.output(tick) else ERR_CLSD, |log|));
        var err := Output();
        if err != ERR_OK {
          r := FromLwip(err);
        }
      }
      if r >= 0 {
        Preempt();
      }
    }

    /**
      `write`.  What lwIP accepted is a prefix of the data, and its length is the result unless an error
      is; a short result means the connection is gone or lwIP took nothing for the whole waiting time.
     */
    method Write(data: seq<byte>)
      returns (r: int, ghost taken: nat, ghost segments: seq<Segment>, ghost tries: seq<Try>, ghost waited: nat)
      requires |data| < 0x8000_0000
      modifies this
      ensures log == old(log) + segments && taken <= |data| && Payload(log) == Payload(old(log)) + data[..taken]
      ensures !old(pcb) || !old(connected) ==> r == ERR_STATE && taken == 0 && segments == []
      ensures old(pcb) && old(connected) ==> r == taken || -4216 <= r < -4200
      ensures old(pcb) && old(connected) && 0 <= r < |data| ==> !pcb || waited == DRAIN_TIMEOUT_MS
      ensures tried == old(tried) + tries && PushedWhole(segments, data) && (!old(acked) ==> AllMore(segments))
      ensures taken == |data| > 0 ==> segments != [] && (segments[|segments| - 1].more <==> !old(acked) || Cut(tries))
      ensures old(clock) + waited <= clock <= old(clock) + DRAIN_TIMEOUT_MS * (|segments| + 1)
      ensures (pcb ==> old(pcb)) && (connected ==> old(connected))
      ensures old(flushes) <= flushes && |flushes| <= |old(flushes)| + |segments| + 2 && (clock > old(clock) ==> flushes != old(flushes))
      ensures old(pcb) && old(connected) && old(acked) && r >= 0 ==> LastFlush(flushes, old(flushes), Flush(ERR_OK, |log|))
      ensures old(pcb) && old(connected) && taken == |data| && r < 0 ==> LastFlush(flushes, old(flushes), Flush(r + 4200, |log|))
      ensures Quiet(env) ==> (acked ==> old(acked)) && (old(pcb) && old(connected) && (r >= 0 || taken == |data|) ==> !acked)
      ensures Willing(env) && old(pcb) && old(connected) ==>
        && pcb && connected && r == taken == |data| && clock == old(clock)
        && (data != [] ==> tries != [] && tries[0] == Try(Min(|data|, env.sndbuf(old(tick)) % 65536), |data|))
    {
      r, taken, segments, tries, waited := ERR_STATE, 0, [], [], 0;
      if connected && pcb {
        hide Cut, PushedWhole, AllMore, Payload, LastFlush, Willing, Quiet;
        var sent, fault;
        sent, fault, segments, tries, waited := SendLoop(data, !acked);
        taken := sent;
        if fault != ERR_OK {
          r := FromLwip(fault);
        } else {
          r := Finish(sent, old(flushes));
        }
      }
    }

    /** `write_ro`: read-only text through a small buffer, as far as `write` makes progress. */
    method WriteRo(text: seq<byte>) returns (n: nat, ghost taken: nat)
      requires |text| < 0x8000_0000
      modifies this
      ensures n <= taken <= n + RO_BUFFER && taken <= |text| && Payload(log) == Payload(old(log)) + text[..taken]
      ensures Willing(env) && old(pcb) && old(connected) ==> n == |text|
    {
      hide Payload, AllMore, PushedWhole, Cut, Willing, Quiet, LastFlush;
      n, taken := 0, 0;
      var going := true;
      while n < |text| && going
        invariant n <= taken <= n + RO_BUFFER && taken <= |text| && Payload(log) == Payload(old(log)) + text[..taken]
        invariant going ==> n == taken
        invariant Willing(env) && old(pcb) && old(connected) ==> going && pcb && connected
        decreases |text| - n, going
      {
        var size := if |text| - n < RO_BUFFER then |text| - n else RO_BUFFER;
        var written, got, _, _, _ := Write(text[n..n + size]);
        assert text[..n] + text[n..n + size][..got] == text[..n + got];
        taken := n + got;
        if written <= 0 {
          going := false;
        } else {
          n := n + written;
        }
      }
    }
  }

  /**
    Two bytes, with room for one at a time: both are sent, and neither segment is pushed, although
    nothing was unacknowledged and the second one is the last.
   */
  method SplitWrite() returns (r: int, ghost segments: seq<Segment>)
    ensures r == 2 && segments != [] && AllMore(segments)
  {
    var env := Env(_ => 1, _ => ERR_OK, _ => ERR_OK, _ => false, _ => false);
    assert Willing(env);
    hide Willing, Payload;
    var s := new Sender(env);
    ghost var taken, tries, waited;
    r, taken, segments, tries, waited := s.Write([1, 2]);
    assert tries[0].size < tries[0].left;
  }
}
