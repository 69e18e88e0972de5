/**
  The receive side of `TcpClientInterface` on the esp8266, under every interleaving with lwIP.

  A task using the client can be preempted between any two steps that touch what callbacks touch, and
  between any two calls.  `schedule` holds what lwIP does at the coming preemption points, one batch of
  callbacks per point; nothing is known about it, so a contract that holds for every schedule holds for
  every interleaving.
 */
module TcpReceive {
  import opened Pbufs
  import opened RxQueues
  import opened Delimited

  const ERR_STATE := -19

  datatype FlushType = FlushTx | FlushRx | FlushAll

  /** The batch has an error callback before the peer's close has taken the callbacks off. */
  predicate Kills(batch: seq<Event>) {
    batch != [] && (batch[0].Error? || (batch[0].Data? && Kills(batch[1..])))
  }

  /** The batch takes the pcb away, by an error or by the peer's close. */
  predicate Ends(batch: seq<Event>) {
    batch != [] && (!batch[0].Data? || Ends(batch[1..]))
  }

  lemma {:induction false} KillsEnds(batch: seq<Event>)
    requires Kills(batch)
    ensures Ends(batch)
  {
    if batch[0].Data? {
      KillsEnds(batch[1..]);
    }
  }

  /** The batch has an error callback, wherever: lwIP has freed the pcb. */
  predicate Frees(batch: seq<Event>) {
    batch != [] && (batch[0].Error? || Frees(batch[1..]))
  }

  /** How many bytes a batch brings, up to the end of the connection. */
  function Intake(batch: seq<Event>, wire: seq<byte>, nxt: nat, wnd: nat): nat {
    if batch == [] || !batch[0].Data? then 0
    else
      var n := Brought(batch[0], wire, nxt, wnd);
      n + Intake(batch[1..], wire, nxt + n, wnd - n)
  }

  // ----- schedules -----

  function Later(s: seq<seq<Event>>): seq<seq<Event>> {
    if s == [] then [] else s[1..]
  }

  predicate EndsNow(s: seq<seq<Event>>) {
    s != [] && Ends(s[0])
  }

  predicate KillsNow(s: seq<seq<Event>>) {
    s != [] && Kills(s[0])
  }

  predicate FreesNow(s: seq<seq<Event>>) {
    s != [] && Frees(s[0])
  }

  /** What is left after `k` batches. */
  function After(s: seq<seq<Event>>, k: nat): seq<seq<Event>> {
    if k == 0 then s else After(Later(s), k - 1)
  }

  /** The pcb is taken away in one of the first `k` batches. */
  predicate EndsBefore(s: seq<seq<Event>>, k: nat) {
    k > 0 && (EndsNow(s) || EndsBefore(Later(s), k - 1))
  }

  /** The pcb is taken away in batch `k`, and not before. */
  predicate EndsAt(s: seq<seq<Event>>, k: nat) {
    !EndsBefore(s, k) && EndsNow(After(s, k))
  }

  lemma {:induction false} Batched(s: seq<seq<Event>>, j: nat, k: nat)
    ensures After(After(s, j), k) == After(s, j + k)
    ensures EndsBefore(s, j + k) <==> EndsBefore(s, j) || EndsBefore(After(s, j), k)
    ensures EndsAt(s, j + k) <==> !EndsBefore(s, j) && EndsAt(After(s, j), k)
    decreases j
  {
    if j > 0 {
      Batched(Later(s), j - 1, k);
    }
  }

  lemma Batch(s: seq<seq<Event>>)
    ensures After(s, 0) == s && After(s, 1) == Later(s)
    ensures !EndsBefore(s, 0) && (EndsBefore(s, 1) <==> EndsNow(s)) && (EndsAt(s, 0) <==> EndsNow(s))
    ensures KillsNow(s) ==> EndsNow(s)
  {
    assert EndsBefore(s, 1) <==> EndsNow(s) || EndsBefore(Later(s), 0);
    if KillsNow(s) {
      KillsEnds(s[0]);
    }
  }

  /** No error callback comes while there is a pcb: none ever, or the peer closes before. */
  predicate Orderly(s: seq<seq<Event>>) {
    s == [] || (!Kills(s[0]) && (Ends(s[0]) || Orderly(s[1..])))
  }

  /** The pcb is never taken away. */
  predicate Steady(s: seq<seq<Event>>) {
    s == [] || (!Ends(s[0]) && Steady(s[1..]))
  }

  function Min(a: nat, b: nat): nat {
    if a < b then a else b
  }

  /** `memcpy` into the buffer. */
  method Copy(buffer: array<byte>, at: nat, block: seq<byte>)
    requires at + |block| <= buffer.Length
    modifies buffer
    ensures buffer[..at + |block|] == old(buffer[..at]) + block
    ensures forall i | at + |block| <= i < buffer.Length :: buffer[i] == old(buffer[i])
  {
    forall i | 0 <= i < |block| {
      buffer[at + i] := block[i];
    }
  }

  lemma SixteenBits(held: nat, off: nat)
    requires held < U16 && off < U16
    ensures (held + off) % U16 - off == held - (if held + off < U16 then 0 else U16)
  {
  }

  lemma Front(wire: seq<byte>, start: nat, head: seq<byte>, n: nat)
    requires start + |head| <= |wire| && head == wire[start..start + |head|] && n <= |head|
    ensures head[..n] == wire[start..start + n]
  {
  }

  lemma Adjoin(wire: seq<byte>, start: nat, n: nat, block: seq<byte>)
    requires start + n + |block| <= |wire| && block == wire[start + n..start + n + |block|]
    ensures wire[start..start + n] + block == wire[start..start + n + |block|]
  {
  }

  class TcpClient {
    const rx: RxQueue
    const window: nat              // the receive window lwIP advertises for an idle connection
    var pcb: bool                  // m_pcb is not null
    var isConnected: bool
    var isLastWriteAcked: bool
    var rcvNxt: nat                // lwIP's count of stream bytes received on this pcb
    var rcvWnd: nat                // lwIP's window left on this pcb
    var schedule: seq<seq<Event>>
    ghost var uncredited: nat      // bytes the call in progress has taken and not reported to lwIP
    ghost var drops: nat           // how often unread bytes were thrown away

    /** While the pcb lives, every byte of the window is open, held in the chain, or being taken. */
    ghost predicate Valid()
      reads this, rx
    {
      && rx.Valid()
      && rx.g.taken <= rx.g.arrived <= |rx.wire| && rcvNxt == rx.g.arrived
      && rx.g.Held() + uncredited <= window < U16
      && (pcb ==> rcvWnd + rx.g.Held() + uncredited == window)
    }

    /** No call is in progress: nothing detached, nothing waiting to be credited. */
    ghost predicate Idle()
      reads this, rx
    {
      Valid() && rx.g.limbo == [] && uncredited == 0
    }

    /** No error callback is to come while there is a pcb; so nothing held can be lost. */
    ghost predicate Safe()
      reads this
    {
      pcb ==> Orderly(schedule)
    }

    /** The pcb, if there is one, is there to stay. */
    ghost predicate Firm()
      reads this
    {
      pcb ==> Steady(schedule)
    }

    /**
      What may have changed around a reader: bytes were only added behind those held, unless an error
      dropped everything and took the pcb away; which is never so if no error was to come.
     */
    twostate predicate Advanced()
      reads this, rx
    {
      && old(rx.g).arrived <= rx.g.arrived && old(drops) <= drops
      && (pcb ==> old(pcb)) && (isConnected ==> old(isConnected))
      && (!old(pcb) ==> rx.g.arrived == old(rx.g).arrived && drops == old(drops))
      && (drops != old(drops) ==> rx.g.Held() == 0 && !pcb)
      && (old(Safe()) ==> Safe() && drops == old(drops))
      && (old(Firm()) ==> Firm() && pcb == old(pcb))
    }

    /** So many batches of callbacks have run. */
    twostate predicate Batches(k: nat)
      reads this
    {
      schedule == After(old(schedule), k) && pcb == (old(pcb) && !EndsBefore(old(schedule), k))
    }

    /** What arrives with the next batch. */
    ghost function Next(): nat
      reads this, rx
    {
      if pcb && schedule != [] then Intake(schedule[0], rx.wire, rcvNxt, rcvWnd) else 0
    }

    /** With no callbacks left to come, nothing arrives and nothing is lost. */
    twostate predicate Undisturbed()
      reads this, rx
    {
      old(schedule) == [] ==>
        && rx.g.arrived == old(rx.g).arrived && drops == old(drops) && pcb == old(pcb) && schedule == []
        && rx.g.Held() + rx.rxOff <= old(rx.g.Held() + rx.rxOff)
    }

    /** What callbacks do, besides: the head buffer stays in place and a detached buffer stays detached. */
    twostate predicate Interfered()
      requires old(Valid()) && Valid()
      reads this, rx
    {
      && old(rx.g).arrived <= rx.g.arrived && (!old(pcb) ==> rx.g.arrived == old(rx.g).arrived)
      && (pcb ==> old(pcb)) && (isConnected ==> old(isConnected)) && old(drops) <= drops
      && (drops != old(drops) ==> rx.g.Held() == 0 && !pcb)
      && First(rx.g.limbo) == First(old(rx.g).limbo)
      && (drops == old(drops) ==> rx.g.taken == old(rx.g).taken && (old(rx.g).Held() > 0 ==> rx.HeadBlock() == old(rx.HeadBlock()) && rx.rxOff == old(rx.rxOff)))
    }

    /** The constructor for an accepted pcb whose peer will send `wire`. */
    constructor (wire: seq<byte>, window: nat, schedule: seq<seq<Event>>)
      requires window < U16
      ensures Idle() && fresh(rx) && pcb && isConnected && drops == 0 && rx.wire == wire
      ensures this.window == window && this.schedule == schedule && rx.g.arrived == rx.g.taken == 0
      ensures rcvNxt == 0 && rcvWnd == window
    {
      rx := new RxQueue(wire);
      this.window, rcvNxt, rcvWnd, this.schedule := window, 0, window, schedule;
      pcb, isConnected, isLastWriteAcked, uncredited, drops := true, true, true, 0, 0;
    }

    // ----- lwIP callbacks -----

    method OnReceive(payloads: seq<seq<byte>>)
      requires Valid() && Deliverable(payloads) && InOrder(rx.wire, rx.g.arrived, payloads)
      requires |Bytes(payloads)| <= rcvWnd && rcvWnd + rx.g.Held() + uncredited == window
      modifies rx, this`rcvNxt, this`rcvWnd
      ensures rcvWnd + rx.g.Held() + uncredited == window && rcvWnd == old(rcvWnd) - |Bytes(payloads)|
      ensures Valid() && rx.g == Appended(old(rx.g), old(rx.nextId), payloads)
      ensures old(rx.g).Held() > 0 ==> rx.HeadBlock() == old(rx.HeadBlock()) && rx.rxOff == old(rx.rxOff)
    {
      rcvNxt := rcvNxt + |Bytes(payloads)|;
      rcvWnd := rcvWnd - |Bytes(payloads)|;
      rx.Append(payloads);
    }

    /** `disconnect` as the callback for the peer's close runs it: the pcb is given back, the chain stays readable. */
    method Disconnect()
      requires Valid()
      modifies this`pcb, this`isConnected
      ensures Valid() && !pcb && !isConnected
    {
      pcb := false;
      isConnected := false;
    }

    method OnError()
      requires Valid()
      modifies rx, this`pcb, this`isConnected, this`isLastWriteAcked, this`drops
      ensures Valid() && !pcb && !isConnected
      ensures rx.g == (if old(pcb) then Dropped(old(rx.g)) else old(rx.g))
      ensures drops == old(drops) + (if old(pcb) then 1 else 0)
      ensures First(rx.g.limbo) == First(old(rx.g).limbo)
    {
      var haspcb := pcb;
      pcb := false;
      isConnected := false;
      if haspcb {
        rx.Drop();
        drops := drops + 1;
        isLastWriteAcked := true;
      }
    }

    /**
      lwIP raises a callback.  A batch entry with data that lwIP would not deliver so is not something it
      does, and is skipped.
     */
    method Callback(e: Event)
      requires Valid()
      modifies rx, this`rcvNxt, this`rcvWnd, this`pcb, this`isConnected, this`isLastWriteAcked, this`drops
      ensures Valid() && Interfered()
      ensures pcb == (old(pcb) && e.Data?) && drops == old(drops) + (if old(pcb) && e.Error? then 1 else 0)
      ensures var n := if old(pcb) then Brought(e, rx.wire, old(rcvNxt), old(rcvWnd)) else 0;
        rcvNxt == old(rcvNxt) + n && rcvWnd == old(rcvWnd) - n
    {
      if pcb {
        match e
        case Data(payloads) =>
          if Accepts(e, rx.wire, rcvNxt, rcvWnd) {
            OnReceive(payloads);
          }
        case Fin => Disconnect();
        case Error => OnError();
      }
    }

    method RunBatch(batch: seq<Event>)
      requires Valid()
      modifies rx, this`rcvNxt, this`rcvWnd, this`pcb, this`isConnected, this`isLastWriteAcked, this`drops
      ensures Valid() && Interfered() && pcb == (old(pcb) && !Ends(batch))
      ensures drops == old(drops) + (if old(pcb) && Kills(batch) then 1 else 0)
      ensures rcvNxt == old(rcvNxt) + (if old(pcb) then Intake(batch, rx.wire, old(rcvNxt), old(rcvWnd)) else 0)
    {
      hide RxQueues.Sound, Brought, Accepts;
      var rest := batch;
      while rest != []
        invariant Valid() && Interfered()
        invariant drops + (if pcb && Kills(rest) then 1 else 0) == old(drops) + (if old(pcb) && Kills(batch) then 1 else 0)
        invariant pcb && !Ends(rest) <==> old(pcb) && !Ends(batch)
        invariant rcvNxt + (if pcb then Intake(rest, rx.wire, rcvNxt, rcvWnd) else 0)
               == old(rcvNxt) + (if old(pcb) then Intake(batch, rx.wire, old(rcvNxt), old(rcvWnd)) else 0)
        decreases |rest|
      {
        Callback(rest[0]);
        rest := rest[1..];
      }
    }

    /** A preemption point: the next batch of callbacks runs. */
    method Preempt()
      requires Valid()
      modifies rx, this`rcvNxt, this`rcvWnd, this`pcb, this`isConnected, this`isLastWriteAcked, this`drops, this`schedule
      ensures Valid() && Advanced() && Interfered() && Undisturbed() && Batches(1)
      ensures drops == old(drops) + (if old(pcb) && KillsNow(old(schedule)) then 1 else 0)
      ensures rx.g.arrived == old(rx.g).arrived + old(Next())
    {
      hide RxQueues.Sound, Intake, Kills, Ends, After, EndsBefore;
      Batch(schedule);
      if schedule != [] {
        var batch := schedule[0];
        schedule := schedule[1..];
        RunBatch(batch);
      }
    }

    // ----- closing from a task -----

    /** Callbacks that come while a pcb that the client has given up still has them: data is still stored. */
    method LateBatch(batch: seq<Event>) returns (freed: bool)
      requires Valid() && !pcb && rcvWnd + rx.g.Held() + uncredited == window
      modifies rx, this`rcvNxt, this`rcvWnd
      ensures Valid() && (freed <==> Frees(batch))
      ensures rx.g.arrived == old(rx.g).arrived + Arrivals(batch, rx.wire, old(rcvNxt), old(rcvWnd)) && rx.g.taken == old(rx.g).taken && rx.g.limbo == old(rx.g).limbo
    {
      hide RxQueues.Sound, Accepts;
      freed := false;
      var rest := batch;
      while rest != [] && !freed
        invariant Valid() && rcvWnd + rx.g.Held() + uncredited == window && (freed || Frees(rest) <==> Frees(batch))
        invariant rx.g.arrived + (if freed then 0 else Arrivals(rest, rx.wire, rcvNxt, rcvWnd))
               == old(rx.g).arrived + Arrivals(batch, rx.wire, old(rcvNxt), old(rcvWnd))
        invariant old(rx.g).arrived <= rx.g.arrived && rx.g.taken == old(rx.g).taken && rx.g.limbo == old(rx.g).limbo
        decreases |rest|, !freed
      {
        match rest[0] {
          case Data(payloads) =>
            if Accepts(rest[0], rx.wire, rcvNxt, rcvWnd) {
              AcceptsMeans(rest[0], rx.wire, rcvNxt, rcvWnd);
              OnReceive(payloads);
            }
          case Fin =>
          case Error =>
            freed := true;
        }
        rest := rest[1..];
      }
    }

    /**
      `disconnect` as a task runs it.  `m_pcb` is cleared in a section, and lwIP is called with the pcb
      after it; `stale` stands for calls with a pcb that an error has freed in between.
     */
    method DisconnectByTask() returns (stale: bool)
      requires Idle()
      modifies this, rx
      ensures Idle() && !pcb && !isConnected && drops == old(drops) && isLastWriteAcked == old(isLastWriteAcked)
      ensures stale <==> old(pcb && FreesNow(schedule))
      ensures rx.g.taken == old(rx.g).taken
      ensures rx.g.arrived == old(rx.g).arrived +
        (if old(pcb && schedule != []) then Arrivals(old(schedule)[0], rx.wire, old(rcvNxt), old(rcvWnd)) else 0)
    {
      hide RxQueues.Sound, Frees, RxQueues.Arrivals;
      var had := pcb;
      stale, pcb, isConnected := false, false, false;
      if had && schedule != [] {
        var batch := schedule[0];
        schedule := schedule[1..];
        stale := LateBatch(batch);
      }
    }

    // ----- taking bytes -----

    method TcpRecved(n: nat)
      requires pcb && rcvWnd + n % U16 <= window
      modifies this`rcvWnd
      ensures rcvWnd == old(rcvWnd) + n % U16
    {
      rcvWnd := rcvWnd + n % U16;
    }

    /**
      The test of `m_pcb` and the call of `tcp_recved`, which reads it again and is outside any section.
      `stale` stands for a call with a pcb that is gone.
     */
    method Report(n: nat) returns (stale: bool)
      requires Valid() && uncredited == n % U16 && (n > 0 ==> uncredited > 0)
      modifies this, rx
      ensures Valid() && Advanced() && Interfered() && Undisturbed() && uncredited == 0
      ensures stale <==> n > 0 && old(pcb) && EndsNow(old(schedule))
      ensures Batches(if n > 0 && old(pcb) then 1 else 0)
    {
      hide RxQueues.Sound, Orderly, Steady, Ends, Kills, After, EndsBefore;
      Batch(schedule);
      stale := false;
      if pcb && n > 0 {
        Preempt();
        stale := !pcb;
        if !stale {
          TcpRecved(n);
        }
      }
      uncredited := 0;
    }

    method ReportAndYield(n: nat) returns (stale: bool)
      requires Valid() && uncredited == n % U16 && n > 0 && uncredited > 0
      modifies this, rx
      ensures Valid() && Advanced() && Interfered() && Undisturbed() && uncredited == 0
      ensures stale <==> old(pcb) && EndsNow(old(schedule))
      ensures pcb == (old(pcb) && !EndsBefore(old(schedule), 2)) && (pcb ==> schedule == After(old(schedule), 2))
    {
      hide RxQueues.Sound, Orderly, Steady, Ends, Kills, After, EndsBefore, Intake;
      Batch(schedule);
      Batched(schedule, 1, 1);
      stale := Report(n);
      Preempt();
    }

    /** One round of `consumeRxBuffer`: the section, then `pbuf_free` outside of it. */
    method ConsumeRound(size: nat) returns (n: nat, released: Ptr)
      requires Valid() && rx.g.limbo == [] && size > 0
      modifies this, rx
      ensures Valid() && rx.g.limbo == [] && Advanced() && Undisturbed()
      ensures n == Min(size, |old(rx.HeadBlock())|) <= old(rx.g).Held() && (n == 0 <==> old(rx.g).Held() == 0)
      ensures Batches(2) && (n == 0 ==> released == Null) && uncredited == old(uncredited) + n
      ensures drops == old(drops) ==> rx.g.taken == old(rx.g).taken + n
    {
      hide RxQueues.Sound, Orderly, Steady, Ends, Kills, After, EndsBefore, Intake;
      Batched(schedule, 1, 1);
      released, n := TakeAndFree(size);
      Preempt();
    }

    method TakeAndFree(size: nat) returns (released: Ptr, n: nat)
      requires Valid() && rx.g.limbo == [] && size > 0
      modifies this, rx
      ensures Valid() && rx.g.limbo == [] && Advanced() && Undisturbed()
      ensures n == Min(size, |old(rx.HeadBlock())|) <= old(rx.g).Held() && (n == 0 <==> old(rx.g).Held() == 0)
      ensures Batches(1) && (n == 0 ==> released == Null) && uncredited == old(uncredited) + n
      ensures drops == old(drops) ==> rx.g.taken == old(rx.g).taken + n
    {
      hide RxQueues.Sound, Orderly, Steady, Ends, Kills, After, EndsBefore, Intake;
      released, n := rx.Take(size);
      uncredited := uncredited + n;
      Preempt();
      if released != Null {
        rx.Release(released);
      }
    }

    /** The loop of `consumeRxBuffer`; a caller that asks for no more than the head holds needs one round. */
    method ConsumeLoop(size0: nat) returns (consumed: nat)
      requires Idle()
      modifies this, rx
      ensures Valid() && rx.g.limbo == [] && Advanced() && Undisturbed() && uncredited == consumed <= size0
      ensures drops == old(drops) ==> rx.g.taken == old(rx.g).taken + consumed && consumed >= Min(size0, old(rx.g).Held())
      ensures 0 < size0 <= |old(rx.HeadBlock())| ==> consumed > 0 && Batches(2)
      ensures size0 == 0 ==> consumed == 0
    {
      hide RxQueues.Sound, Orderly, Steady, Ends, Kills, After, EndsBefore, Intake;
      var size, dry := size0, false;
      consumed := 0;
      while size > 0 && !dry
        invariant Valid() && rx.g.limbo == [] && Advanced() && Undisturbed()
        invariant 0 <= size && uncredited == consumed && size + consumed == size0
        invariant drops == old(drops) ==> rx.g.taken == old(rx.g).taken + consumed && (dry ==> consumed >= old(rx.g).Held())
        invariant consumed == 0 && !dry ==> rx.HeadBlock() == old(rx.HeadBlock()) && schedule == old(schedule) && pcb == old(pcb)
        invariant 0 < size0 <= |old(rx.HeadBlock())| && (consumed > 0 || dry) ==> !dry && size == 0 && Batches(2)
        decreases !dry, size
      {
        var n, released := ConsumeRound(size);
        dry := n == 0 && released == Null;
        size := size - n;
        consumed := consumed + n;
      }
    }

    method ConsumeRxBuffer(size0: nat) returns (stale: bool)
      requires Idle()
      modifies this, rx
      ensures Idle() && Advanced() && Undisturbed()
      ensures drops == old(drops) ==>
        old(rx.g).taken + Min(size0, old(rx.g).Held()) <= rx.g.taken <= old(rx.g).taken + size0
      ensures size0 <= |old(rx.HeadBlock())| ==> (stale <==> size0 > 0 && old(pcb) && EndsAt(old(schedule), 2))
      ensures stale ==> !old(Firm())
    {
      hide RxQueues.Sound, Orderly, Ends, Kills, After, EndsBefore, Intake;
      var consumed := ConsumeLoop(size0);
      stale := Report(consumed);
    }

    /** What follows the use of a block: its bytes are taken. */
    method TakeUsed(n: nat) returns (stale: bool)
      requires Idle() && 0 < n <= |rx.HeadBlock()|
      modifies this, rx
      ensures Idle() && Advanced() && Undisturbed() && old(rx.g).taken + n <= rx.g.arrived
      ensures drops == old(drops) ==> rx.g.taken == old(rx.g).taken + n
      ensures (stale <==> old(pcb) && EndsAt(old(schedule), 3)) && (stale ==> !old(Firm()))
    {
      hide RxQueues.Sound, Kills, Ends, Orderly, After, EndsBefore, EndsAt, Intake;
      Batch(schedule);
      Batched(schedule, 1, 2);
      Preempt();
      stale := ConsumeRxBuffer(n);
    }

    // ----- read -----

    /**
      One round of `read`: measure the head, copy from it, take what was copied.  `fault` stands for
      the null pointer the copy follows when an error callback runs between the first two, and it is
      set exactly then.
     */
    method ReadRound(room: nat) returns (block: seq<byte>, fault: bool, stale: bool)
      requires Idle() && room > 0
      modifies this, rx
      ensures Idle() && Advanced() && Undisturbed()
      ensures |block| <= room && old(rx.g).taken + |block| <= rx.g.arrived
      ensures block == rx.wire[old(rx.g).taken..old(rx.g).taken + |block|]
      ensures drops == old(drops) ==> rx.g.taken == old(rx.g).taken + |block|
      ensures fault <==> old(rx.g.Held() > 0 && pcb && KillsNow(schedule))
      ensures stale <==> old(rx.g.Held() > 0 && pcb && EndsAt(schedule, 4))
      ensures (fault ==> !old(Safe())) && (stale ==> !old(Firm()))
      ensures fault ==> drops != old(drops)
      ensures block == [] <==> fault || old(rx.g).Held() == 0
    {
      hide RxQueues.Sound, Kills, Ends, Orderly, Steady, After, EndsBefore, EndsAt, Intake;
      fault, stale, block := false, false, [];
      Batch(schedule);
      Batched(schedule, 1, 3);
      var headleft := |rx.HeadBlock()|;
      Preempt();
      if headleft > 0 {
        fault := rx.rxBuf == Null;
        if !fault {
          var head := rx.HeadBlock();
          block := head[..Min(room, headleft)];
          Front(rx.wire, rx.g.taken, head, |block|);
          stale := TakeUsed(|block|);
        }
      }
    }

    method Read(buffer: array<byte>, size: nat) returns (n: int, fault: bool, stale: bool)
      requires Idle() && size <= buffer.Length
      modifies buffer, this, rx
      ensures Idle() && Advanced() && Undisturbed()
      ensures old(rx.g).Held() == 0 || size == 0 ==> n == ERR_STATE && !fault && !stale && rx.g == old(rx.g) && drops == old(drops)
      ensures old(rx.g).Held() > 0 && size > 0 ==>
        && 0 <= n <= size && old(rx.g).taken + n <= rx.g.arrived
        && buffer[..n] == rx.wire[old(rx.g).taken..old(rx.g).taken + n]
        && (forall i | n <= i < size :: buffer[i] == 0)
        && (drops == old(drops) ==> rx.g.taken == old(rx.g).taken + n && n >= Min(size, old(rx.g).Held()))
      ensures (fault ==> drops != old(drops) && !old(Safe())) && (stale ==> !old(Firm()))
    {
      hide RxQueues.Sound;
      fault, stale := false, false;
      if rx.HeadBlock() == [] || size == 0 {
        n := ERR_STATE;
      } else {
        forall i | 0 <= i < size {
          buffer[i] := 0;
        }
        n, fault, stale := ReadLoop(buffer, size);
      }
    }

    /** What comes before a round, and the round. */
    method YieldAndRead(room: nat) returns (block: seq<byte>, fault: bool, stale: bool)
      requires Idle() && room > 0
      modifies this, rx
      ensures Idle() && Advanced() && Undisturbed()
      ensures |block| <= room && old(rx.g).taken + |block| <= rx.g.arrived
      ensures block == rx.wire[old(rx.g).taken..old(rx.g).taken + |block|]
      ensures drops == old(drops) ==> rx.g.taken == old(rx.g).taken + |block| && (block == [] ==> old(rx.g).Held() == 0)
      ensures (fault ==> drops != old(drops) && !old(Safe())) && (stale ==> !old(Firm()))
    {
      hide RxQueues.Sound, Kills, Ends, Orderly, Steady, EndsAt, After, EndsBefore, Intake;
      Preempt();
      block, fault, stale := ReadRound(room);
    }

    /** The copy loop of `read`, into a cleared buffer. */
    method ReadLoop(buffer: array<byte>, size: nat) returns (copied: nat, fault: bool, stale: bool)
      requires Idle() && size <= buffer.Length && forall i | 0 <= i < size :: buffer[i] == 0
      modifies buffer, this, rx
      ensures Idle() && Advanced() && Undisturbed()
      ensures copied <= size && old(rx.g).taken + copied <= rx.g.arrived
      ensures buffer[..copied] == rx.wire[old(rx.g).taken..old(rx.g).taken + copied]
      ensures forall i | copied <= i < size :: buffer[i] == 0
      ensures drops == old(drops) ==> rx.g.taken == old(rx.g).taken + copied && copied >= Min(size, old(rx.g).Held())
      ensures (fault ==> drops != old(drops) && !old(Safe())) && (stale ==> !old(Firm()))
    {
      hide RxQueues.Sound, Kills, Ends, Orderly, Steady, EndsAt, After, EndsBefore, Intake;
      copied, fault, stale := 0, false, false;
      var dry := false;
      while copied < size && !dry
        invariant Idle() && Advanced() && Undisturbed() && copied <= size
        invariant old(rx.g).taken + copied <= rx.g.arrived
        invariant buffer[..copied] == rx.wire[old(rx.g).taken..old(rx.g).taken + copied]
        invariant forall i | copied <= i < size :: buffer[i] == 0
        invariant drops == old(drops) ==> rx.g.taken == old(rx.g).taken + copied && (dry ==> copied >= old(rx.g).Held())
        invariant (fault ==> drops != old(drops) && !old(Safe())) && (stale ==> !old(Firm()))
        decreases !dry, size - copied
      {
        var block, f, st := YieldAndRead(size - copied);
        Copy(buffer, copied, block);
        Adjoin(rx.wire, old(rx.g).taken, copied, block);
        copied, fault, stale, dry := copied + |block|, fault || f, stale || st, block == [];
      }
    }

    // ----- readStringUntil -----

    /** The scan of the head buffer up to the limit, the delimiter or its end. */
    method ScanHead(q: Request, len: nat) returns (text: seq<byte>, hit: bool)
      requires rx.Valid() && rx.g.Held() > 0 && (q.max > 0 ==> len < q.max)
      ensures Stretch(q, rx.wire, rx.g.taken, text, hit)
      ensures 0 < Used(text, hit) <= |rx.HeadBlock()|
      ensures q.max > 0 ==> len + Used(text, hit) <= q.max
    {
      hide RxQueues.Sound, Delimited.Find, Delimited.Stretch;
      var block := rx.HeadBlock();
      HeadStretch(q, rx.wire, rx.g.taken, block, len);
      block := block[..Cut(q, len, |block|)];
      var at := Find(q, block);
      hit := at < |block|;
      text := block[..at];
    }

    /** One block of the scan; here `fault` stands for scanning a block that has been freed. */
    method ScanRound(q: Request, len: nat) returns (text: seq<byte>, hit: bool, fault: bool, stale: bool)
      requires Idle() && (q.max > 0 ==> len < q.max)
      modifies this, rx
      ensures Idle() && Advanced() && Undisturbed()
      ensures Stretch(q, rx.wire, old(rx.g).taken, text, hit)
      ensures var used := Used(text, hit);
        && old(rx.g).taken + used <= rx.g.arrived
        && (used == 0 <==> fault || old(rx.g).Held() == 0)
        && (drops == old(drops) ==> rx.g.taken == old(rx.g).taken + used)
        && (q.max > 0 ==> len + used <= q.max)
      ensures fault <==> old(rx.g.Held() > 0 && pcb && KillsNow(schedule))
      ensures stale <==> old(rx.g.Held() > 0 && pcb && EndsAt(schedule, 4))
      ensures (fault ==> drops != old(drops) && !old(Safe())) && (stale ==> !old(Firm()))
    {
      hide RxQueues.Sound, Kills, Ends, Orderly, Steady, After, EndsBefore, EndsAt, Intake;
      text, hit, fault, stale := [], false, false, false;
      Batch(schedule);
      Batched(schedule, 1, 3);
      var blocklen := |rx.HeadBlock()|;
      Preempt();
      if blocklen > 0 {
        fault := rx.rxBuf == Null;
        if !fault {
          assert rx.HeadBlock() != [];
          text, hit := ScanHead(q, len);
          stale := TakeUsed(Used(text, hit));
        }
      }
    }

    /** The yield before a block, and the block. */
    method YieldAndScan(q: Request, len: nat) returns (text: seq<byte>, hit: bool, fault: bool, stale: bool)
      requires Idle() && (q.max > 0 ==> len < q.max)
      modifies this, rx
      ensures Idle() && Advanced() && Undisturbed()
      ensures Stretch(q, rx.wire, old(rx.g).taken, text, hit)
      ensures var used := Used(text, hit);
        && old(rx.g).taken + used <= rx.g.arrived
        && (used == 0 && drops == old(drops) ==> old(rx.g).Held() == 0)
        && (drops == old(drops) ==> rx.g.taken == old(rx.g).taken + used)
        && (q.max > 0 ==> len + used <= q.max)
      ensures (fault ==> drops != old(drops) && !old(Safe())) && (stale ==> !old(Firm()))
    {
      hide RxQueues.Sound, Kills, Ends, Orderly, Steady, EndsAt, After, EndsBefore, Intake, Delimited.Stretch;
      NoStretch(q, rx.wire, rx.g.taken);
      Preempt();
      text, hit, fault, stale := ScanRound(q, len);
    }

    /**
      `readStringUntil`.  Whatever arrives meanwhile, the bytes used up and the text appended are those
      of the byte loop; and with nothing arriving they are those of the byte loop on what was held.
     */
    method ReadStringUntil(outstr: seq<byte>, q: Request) returns (out: seq<byte>, fault: bool, stale: bool)
      requires Idle()
      modifies this, rx
      ensures Idle() && Advanced() && Undisturbed()
      ensures drops == old(drops) ==>
        && old(rx.g).taken <= rx.g.taken
        && var r := ByteLoop(q, rx.wire[old(rx.g).taken..rx.g.taken], 0);
        && out == outstr + r.text && r.used == rx.g.taken - old(rx.g).taken
        && (!r.stopped ==> r.used >= old(rx.g).Held())
      ensures old(schedule) == [] ==>
        var r := ByteLoop(q, rx.wire[old(rx.g).taken..old(rx.g).arrived], 0);
        out == outstr + r.text && rx.g.taken == old(rx.g).taken + r.used
      ensures (fault ==> drops != old(drops) && !old(Safe())) && (stale ==> !old(Firm()))
    {
      hide RxQueues.Sound, Delimited.ByteLoop, Delimited.Progress, Delimited.Stretch, Kills, Ends, Orderly, Steady, EndsAt;
      ghost var start, wire := rx.g.taken, rx.wire;
      ghost var used: nat := 0;
      var len, go, stopped := 0, true, false;
      out, fault, stale := outstr, false, false;
      ProgressStart(q, wire, start, outstr);
      while go
        invariant Idle() && Advanced() && Undisturbed() && start + used <= rx.g.arrived
        invariant drops == old(drops) ==> rx.g.taken == start + used
        invariant (fault ==> drops != old(drops) && !old(Safe())) && (stale ==> !old(Firm()))
        invariant go ==> used == len && !stopped && (q.max > 0 ==> len < q.max)
        invariant !go && !stopped && drops == old(drops) ==> used >= old(rx.g).Held()
        invariant Progress(q, wire, start, used, outstr, out, stopped)
        decreases go, |wire| - used
      {
        var text, hit, f, st := YieldAndScan(q, len);
        fault, stale := fault || f, stale || st;
        if text == [] && !hit {
          go := false;
        } else {
          ProgressStep(q, wire, start, used, outstr, out, text, hit);
          used := used + Used(text, hit);
          out := out + text;
          len := len + |text|;
          if hit && q.keep {
            out := out + [q.delim];
          }
          stopped := hit || (q.max > 0 && len >= q.max);
          go := !stopped;
        }
      }
      ProgressEnd(q, wire, start, used, outstr, out, stopped, old(rx.g).arrived);
    }

    // ----- available, flush, close -----

    /** The length of the chain, and then the offset. */
    method Length() returns (n: int, ghost held: nat)
      requires Idle() && rx.g.Held() > 0
      modifies this, rx
      ensures Idle() && Advanced() && Undisturbed() && held == old(rx.g).Held()
      ensures drops == old(drops) ==>
        && rx.g.taken == old(rx.g).taken && rx.rxOff == old(rx.rxOff) && held <= rx.g.Held()
        && n == held - (if held + rx.rxOff < U16 then 0 else U16)
    {
      hide RxQueues.Sound, Kills, Ends, Orderly, Steady, EndsAt, After, EndsBefore, Intake;
      held := rx.g.Held();
      var len := rx.TotLen();
      SixteenBits(held, rx.rxOff);
      Preempt();
      n := len - rx.rxOff;
    }

    /**
      `available`, which reads `m_rxBuf` twice and the offset after it, outside any section.  `held` is
      how many bytes were held when the length was read; the answer is exact for it, unless the bytes
      held and those already taken from the head reach 2^16.
     */
    method Available() returns (n: int, fault: bool, ghost held: nat)
      requires Idle()
      modifies this, rx
      ensures Idle() && Advanced() && Undisturbed() && (drops == old(drops) ==> rx.g.taken == old(rx.g).taken && rx.rxOff == old(rx.rxOff))
      ensures fault <==> old(rx.g.Held() > 0 && pcb && KillsNow(schedule))
      ensures fault ==> drops != old(drops) && !old(Safe())
      ensures drops == old(drops) && old(rx.g).Held() > 0 ==>
        && old(rx.g).Held() <= held <= rx.g.Held()
        && n == held - (if held + rx.rxOff < U16 then 0 else U16)
      ensures old(rx.g).Held() == 0 ==> n == 0 && rx.rxOff == 0 && rx.g == old(rx.g)
    {
      hide RxQueues.Sound, Kills, Ends, Orderly, Steady, EndsAt, After, EndsBefore, Intake;
      n, fault, held := 0, false, 0;
      assert rx.TotLen() >= 0;
      if rx.HeadBlock() != [] {
        Preempt();
        fault := rx.HeadBlock() == [];
        if !fault {
          n, held := Length();
        }
      }
    }

    /** The input part of `flush`: detach the chain, report its bytes as read, release it. */
    method DiscardInput() returns (stale: bool)
      requires Idle() && rx.g.Held() > 0
      modifies this, rx
      ensures Idle() && old(rx.g).arrived <= rx.g.arrived && old(rx.g).arrived <= rx.g.taken
      ensures (pcb ==> old(pcb)) && (isConnected ==> old(isConnected))
      ensures pcb ==> rx.g.taken == old(rx.g).arrived
      ensures !old(pcb) ==> rx.g.arrived == old(rx.g).arrived
      ensures old(Safe()) ==> Safe() && rx.g.taken == old(rx.g).arrived
      ensures stale <==> old(pcb && EndsAt(schedule, 1))
      ensures pcb ==> schedule == After(old(schedule), 4)
      ensures pcb <==> old(pcb && !EndsBefore(schedule, 4))
    {
      hide RxQueues.Sound, Orderly, Steady, Ends, Kills, After, EndsBefore, Intake;
      Batched(schedule, 1, 1);
      Batched(schedule, 2, 1);
      Batched(schedule, 3, 1);
      stale := DetachAndReport();
      Preempt();
    }

    /** The same up to the release. */
    method DetachAndReport() returns (stale: bool)
      requires Idle() && rx.g.Held() > 0
      modifies this, rx
      ensures Idle() && old(rx.g).arrived <= rx.g.arrived && old(rx.g).arrived <= rx.g.taken
      ensures (pcb ==> old(pcb)) && (isConnected ==> old(isConnected))
      ensures pcb ==> rx.g.taken == old(rx.g).arrived
      ensures !old(pcb) ==> rx.g.arrived == old(rx.g).arrived
      ensures old(Safe()) ==> Safe() && rx.g.taken == old(rx.g).arrived
      ensures stale <==> old(pcb && EndsAt(schedule, 1))
      ensures pcb ==> schedule == After(old(schedule), 3)
      ensures pcb <==> old(pcb && !EndsBefore(schedule, 3))
    {
      hide RxQueues.Sound, Orderly, Steady, Ends, Kills, After, EndsBefore, Intake;
      Batch(schedule);
      Batched(schedule, 1, 2);
      uncredited := rx.g.Held();
      var released, pending := rx.Detach();
      drops := drops + 1;
      Preempt();
      stale := ReportAndYield(pending);
      rx.Release(released);
    }

    /** The pcb goes between one of the two tests of `flush` and the call behind it. */
    ghost predicate FlushMeets(kind: FlushType)
      reads this, rx
    {
      var discards := kind != FlushTx && rx.g.Held() > 0;
      || (discards && EndsAt(schedule, 1))
      || (kind != FlushRx && EndsAt(schedule, if discards then 4 else 0))
    }

    /**
      `flush`: discarded bytes reopen the window like read ones, and flushing output keeps the input.
      The test of `m_pcb` and the call of `tcp_output` are apart like those of `tcp_recved`.
     */
    method Flush(kind: FlushType) returns (stale: bool)
      requires Idle()
      modifies this, rx
      ensures Idle() && isLastWriteAcked && old(rx.g).arrived <= rx.g.arrived
      ensures (pcb ==> old(pcb)) && (isConnected ==> old(isConnected))
      ensures !old(pcb) ==> rx.g.arrived == old(rx.g).arrived && !pcb
      ensures kind == FlushTx ==> Advanced() && Undisturbed() && (drops == old(drops) ==> rx.g.taken == old(rx.g).taken)
      ensures kind != FlushTx ==> rx.g.taken >= old(rx.g).arrived
      ensures kind != FlushTx && (pcb || old(Safe())) ==> rx.g.taken == old(rx.g).arrived
      ensures pcb ==> rcvWnd + rx.g.Held() == window
      ensures stale <==> old(pcb) && old(FlushMeets(kind))
    {
      hide RxQueues.Sound, Orderly, Steady, Ends, Kills, After, EndsBefore, Intake;
      Batch(schedule);
      stale := false;
      if kind != FlushTx && rx.HeadBlock() != [] {
        stale := DiscardInput();
        Batch(schedule);
      }
      if kind != FlushRx && pcb {
        Preempt();
        stale := stale || !pcb;
      }
      isLastWriteAcked := true;
    }

    /**
      `close`: the pcb and every buffer go back to lwIP.  Its calls get a pcb that is gone exactly if an
      error comes between the section of `disconnect` and them; those of `flush` never do.
     */
    method Close() returns (stale: bool)
      requires Idle()
      modifies this, rx
      ensures Idle() && !pcb && !isConnected && rx.g.Held() == 0 && rx.cells == map[]
      ensures stale <==> old(pcb && FreesNow(schedule))
    {
      stale := DisconnectByTask();
      var never := Flush(FlushAll);
      assert !never;
      rx.Empty();
    }

    // ----- the byte loop of the base class -----

    /** `read` of a single byte, with nothing arriving meanwhile. */
    method ReadByte() returns (c: byte)
      requires Idle() && schedule == [] && rx.g.Held() > 0
      modifies this, rx
      ensures Idle() && Undisturbed() && rx.g.taken == old(rx.g).taken + 1 && c == rx.wire[old(rx.g).taken]
    {
      hide RxQueues.Sound;
      var cell := new byte[1];
      var n, fault, stale := Read(cell, 1);
      c := cell[0];
      assert cell[..1][0] == rx.wire[old(rx.g).taken..old(rx.g).taken + 1][0];
    }

    /**
      `iIOInterface::readStringUntil` on this client, with nothing arriving meanwhile.  It is the byte
      loop on what is held, except that it sees nothing at all while `available` is off.
     */
    method ReadStringUntilByBytes(outstr: seq<byte>, q: Request) returns (out: seq<byte>)
      requires Idle() && schedule == []
      modifies this, rx
      ensures Idle() && schedule == []
      ensures old(rx.g.Held() + rx.rxOff) < U16 ==>
        var r := ByteLoop(q, rx.wire[old(rx.g).taken..old(rx.g).arrived], 0);
        out == outstr + r.text && rx.g.taken == old(rx.g).taken + r.used
      ensures old(rx.g.Held() + rx.rxOff) >= U16 ==> out == outstr && rx.g.taken == old(rx.g).taken
    {
      hide RxQueues.Sound, Delimited.ByteLoop, Delimited.Progress, Delimited.Stretch;
      ghost var start, wire := rx.g.taken, rx.wire;
      ghost var used: nat := 0;
      var len, go, stopped := 0, true, false;
      out := outstr;
      ProgressStart(q, wire, start, outstr);
      var n, gone, held := Available();
      while go && n > 0
        invariant Idle() && schedule == [] && rx.g.arrived == old(rx.g).arrived && rx.g.taken == start + used
        invariant go ==> used == len && (q.max > 0 ==> len < q.max)
        invariant go == !stopped && n == rx.g.Held() - (if rx.g.Held() + rx.rxOff < U16 then 0 else U16)
        invariant rx.g.Held() + rx.rxOff <= old(rx.g.Held() + rx.rxOff)
        invariant used == 0 || old(rx.g.Held() + rx.rxOff) < U16
        invariant used == 0 ==> out == outstr && rx.rxOff == old(rx.rxOff) && !stopped
        invariant Progress(q, wire, start, used, outstr, out, stopped)
        decreases go, |wire| - used
      {
        var c := ReadByte();
        assert out + [] == out;
        OneByte(q, wire, start + used);
        var hit := Hit(q, c);
        ProgressStep(q, wire, start, used, outstr, out, if hit then [] else [c], hit);
        used := used + 1;
        if hit {
          if q.keep {
            out := out + [c];
          }
          stopped := true;
        } else {
          out := out + [c];
          len := len + 1;
          stopped := q.max > 0 && len >= q.max;
        }
        go := !stopped;
        n, gone, held := Available();
      }
      ProgressEnd(q, wire, start, used, outstr, out, stopped, old(rx.g).arrived);
    }
  }

  // ----- whole sessions -----

  datatype Call =
    | CallRead(size: nat)
    | CallUntil(q: Request)
    | CallAvailable
    | CallFlushOutput

  /** With the delimiter kept, or without one, the text is all that was used. */
  lemma {:induction false} KeptText(q: Request, s: seq<byte>, len: nat)
    requires q.keep || q.delim == 0
    ensures ByteLoop(q, s, len).text == s[..ByteLoop(q, s, len).used]
  {
    if s != [] && !Hit(q, s[0]) && !(q.max > 0 && len + 1 >= q.max) {
      KeptText(q, s[1..], len + 1);
    }
  }

  /** What a call returns for the part of the stream it uses up. */
  ghost predicate Answers(call: Call, text: seq<byte>, part: seq<byte>) {
    match call
    case CallRead(size) => text == part && |part| <= size
    case CallUntil(q) => text == ByteLoop(q, part, 0).text && ByteLoop(q, part, 0).used == |part|
    case _ => text == part == []
  }

  /** A call stops short of what was held only where its size, limit or delimiter says so. */
  ghost predicate Enough(call: Call, part: seq<byte>, held: nat) {
    match call
    case CallRead(size) => |part| >= Min(size, held)
    case CallUntil(q) => ByteLoop(q, part, 0).stopped || |part| >= held
    case _ => true
  }

  /**
    Call `k` has had enough of what was there for it: `marks[k]` bytes had arrived by then, and the calls
    before it had used up those from `from` on that are in their parts.
   */
  ghost predicate SuppliedAt(calls: seq<Call>, parts: seq<seq<byte>>, marks: seq<nat>, from: nat, k: nat)
    requires k < |parts| <= |calls| && |marks| == |parts| + 1
  {
    var used := from + |Bytes(parts[..k])|;
    used <= marks[k] <= marks[k + 1] && Enough(calls[k], parts[k], marks[k] - used)
  }

  ghost predicate Supplied(calls: seq<Call>, parts: seq<seq<byte>>, marks: seq<nat>, from: nat) {
    |parts| <= |calls| && |marks| == |parts| + 1 && forall k | 0 <= k < |parts| :: SuppliedAt(calls, parts, marks, from, k)
  }

  lemma SuppliedStill(calls: seq<Call>, parts: seq<seq<byte>>, marks: seq<nat>, from: nat, part: seq<byte>, mark: nat, k: nat)
    requires k < |parts| < |calls| && |marks| == |parts| + 1 && SuppliedAt(calls, parts, marks, from, k)
    ensures SuppliedAt(calls, parts + [part], marks + [mark], from, k)
  {
    assert (parts + [part])[..k] == parts[..k];
  }

  lemma SuppliedOn(calls: seq<Call>, parts: seq<seq<byte>>, marks: seq<nat>, from: nat, part: seq<byte>, mark: nat)
    requires Supplied(calls, parts, marks, from) && |parts| < |calls| && from + |Bytes(parts)| <= marks[|parts|] <= mark
    requires Enough(calls[|parts|], part, marks[|parts|] - from - |Bytes(parts)|)
    ensures Supplied(calls, parts + [part], marks + [mark], from)
  {
    assert SuppliedAt(calls, parts + [part], marks + [mark], from, |parts|) by {
      assert (parts + [part])[..|parts|] == parts;
    }
    hide SuppliedAt, Pbufs.Bytes, Enough;
    forall k | 0 <= k < |parts| ensures SuppliedAt(calls, parts + [part], marks + [mark], from, k) {
      SuppliedStill(calls, parts, marks, from, part, mark, k);
    }
  }

  lemma SuppliedNone(calls: seq<Call>, marks: seq<nat>, from: nat)
    requires |marks| == 1
    ensures Supplied(calls, [], marks, from) && Bytes([]) == []
  {
  }

  /** What comes between two calls, and a call. */
  method Serve(c: TcpClient, call: Call) returns (text: seq<byte>, ghost part: seq<byte>)
    requires c.Idle()
    modifies c, c.rx
    ensures c.Idle() && old(c.rx.g).arrived + old(c.Next()) <= c.rx.g.arrived && old(c.drops) <= c.drops
    ensures (c.pcb ==> old(c.pcb)) && (!old(c.pcb) ==> c.rx.g.arrived == old(c.rx.g).arrived)
    ensures old(c.Safe()) ==> c.Safe() && c.drops == old(c.drops)
    ensures c.drops == old(c.drops) ==>
      && old(c.rx.g).taken <= c.rx.g.taken && part == c.rx.wire[old(c.rx.g).taken..c.rx.g.taken]
      && Answers(call, text, part) && Enough(call, part, old(c.rx.g).Held() + old(c.Next()))
  {
    hide RxQueues.Sound, Orderly, Steady, EndsAt, After, EndsBefore, Intake, Delimited.ByteLoop;
    c.Preempt();
    text := [];
    match call {
      case CallRead(size) =>
        var buffer := new byte[size];
        var n, fault, stale := c.Read(buffer, size);
        text := if n < 0 then [] else buffer[..n];
      case CallUntil(q) =>
        var fault, stale;
        text, fault, stale := c.ReadStringUntil([], q);
      case CallAvailable =>
        var n, fault, held := c.Available();
      case CallFlushOutput =>
        var stale := c.Flush(FlushTx);
    }
    part := if old(c.rx.g).taken <= c.rx.g.taken then c.rx.wire[old(c.rx.g).taken..c.rx.g.taken] else [];
  }

  /**
    For every schedule of arrivals, closes and errors and every sequence of calls: the parts of the
    stream that the calls used up are, put together, the peer's stream from where it stood, in order,
    with nothing lost and nothing repeated, each text is what its call makes of its part, and each part
    is all that the call asks for of what had arrived by then; unless an error has discarded bytes, which
    only a schedule with an error before the peer's close can do.
   */
  method Session(c: TcpClient, calls: seq<Call>)
    returns (texts: seq<seq<byte>>, ghost parts: seq<seq<byte>>, ghost marks: seq<nat>)
    requires c.Idle()
    modifies c, c.rx
    ensures c.Idle() && old(c.rx.g).arrived <= c.rx.g.arrived && |texts| == |parts| == |calls|
    ensures |marks| == |calls| + 1 && marks[0] == old(c.rx.g).arrived + old(c.Next()) && marks[|calls|] == c.rx.g.arrived + c.Next()
    ensures old(c.Safe()) ==> c.Safe() && c.drops == old(c.drops)
    ensures c.drops == old(c.drops) ==>
      && old(c.rx.g).taken <= c.rx.g.taken && Bytes(parts) == c.rx.wire[old(c.rx.g).taken..c.rx.g.taken]
      && Supplied(calls, parts, marks, old(c.rx.g).taken)
      && forall k | 0 <= k < |calls| :: Answers(calls[k], texts[k], parts[k])
  {
    hide RxQueues.Sound, Orderly, Answers, Enough, Supplied, Pbufs.Bytes;
    texts, parts, marks := [], [], [c.rx.g.arrived + c.Next()];
    SuppliedNone(calls, marks, c.rx.g.taken);
    for k := 0 to |calls|
      invariant c.Idle() && old(c.rx.g).arrived <= c.rx.g.arrived && old(c.drops) <= c.drops && |texts| == |parts| == k
      invariant |marks| == k + 1 && marks[0] == old(c.rx.g).arrived + old(c.Next()) && marks[k] == c.rx.g.arrived + c.Next()
      invariant old(c.Safe()) ==> c.Safe() && c.drops == old(c.drops)
      invariant c.drops == old(c.drops) ==>
        && old(c.rx.g).taken <= c.rx.g.taken && Bytes(parts) == c.rx.wire[old(c.rx.g).taken..c.rx.g.taken]
        && Supplied(calls, parts, marks, old(c.rx.g).taken)
        && forall j | 0 <= j < k :: Answers(calls[j], texts[j], parts[j])
    {
      ghost var taken := c.rx.g.taken;
      var text, part := Serve(c, calls[k]);
      BytesAdd(parts, part);
      if c.drops == old(c.drops) {
        Adjoin(c.rx.wire, old(c.rx.g).taken, taken - old(c.rx.g).taken, part);
        SuppliedOn(calls, parts, marks, old(c.rx.g).taken, part, c.rx.g.arrived + c.Next());
      }
      texts, parts, marks := texts + [text], parts + [part], marks + [c.rx.g.arrived + c.Next()];
    }
  }

  /**
    Reading until nothing is left yields all that arrived; after the peer has closed there is no
    condition, and before it only an error can spoil it.
   */
  method Drain(c: TcpClient, chunk: nat) returns (handed: seq<byte>)
    requires c.Idle() && chunk > 0
    modifies c, c.rx
    ensures c.Idle() && c.rx.g.Held() == 0
    ensures old(c.Safe()) ==> c.Safe() && c.drops == old(c.drops)
    ensures c.drops == old(c.drops) ==>
      old(c.rx.g).arrived <= c.rx.g.taken && handed == c.rx.wire[old(c.rx.g).taken..c.rx.g.taken]
    ensures !old(c.pcb) ==> handed == c.rx.wire[old(c.rx.g).taken..old(c.rx.g).arrived]
  {
    hide RxQueues.Sound, Orderly, Steady;
    handed := [];
    var buffer := new byte[chunk];
    var more := true;
    while more
      invariant c.Idle() && fresh(buffer) && old(c.rx.g).arrived <= c.rx.g.arrived && old(c.drops) <= c.drops
      invariant !more ==> c.rx.g.Held() == 0
      invariant (old(c.Safe()) ==> c.Safe() && c.drops == old(c.drops)) && (c.pcb ==> old(c.pcb))
      invariant !old(c.pcb) ==> c.rx.g.arrived == old(c.rx.g).arrived
      invariant c.drops == old(c.drops) ==>
        old(c.rx.g).taken <= c.rx.g.taken && handed == c.rx.wire[old(c.rx.g).taken..c.rx.g.taken]
      decreases more, |c.rx.wire| - c.rx.g.taken
    {
      var n, fault, stale := c.Read(buffer, chunk);
      more := n > 0;
      handed := handed + if n < 0 then [] else buffer[..n];
    }
  }

  // ----- the windows for a callback, one by one -----

  /** A client that holds a byte, with these callbacks to come. */
  method Holding(schedule: seq<seq<Event>>) returns (c: TcpClient)
    ensures fresh(c) && fresh(c.rx) && c.Idle() && c.rx.g.Held() > 0 && c.pcb && c.schedule == schedule
  {
    c := new TcpClient([7], 10, schedule);
    assert [[7 as byte]][1..] == [];
    c.OnReceive([[7]]);
  }

  /** An error callback between the two steps of a read: the copy follows a null pointer. */
  method ErrorInsideRead() returns (fault: bool)
    ensures fault
  {
    var c := Holding([[Error]]);
    var block, f, stale := c.ReadRound(1);
    fault := f;
  }

  /** The same of `readStringUntil`: the block that is scanned has been freed. */
  method ErrorInsideScan() returns (fault: bool)
    ensures fault
  {
    var c := Holding([[Error]]);
    var text, hit, f, stale := c.ScanRound(Request(10, false, 0), 0);
    fault := f;
  }

  /** The same of `available`, between its test of `m_rxBuf` and its use. */
  method ErrorInsideAvailable() returns (fault: bool)
    ensures fault
  {
    var c := Holding([[Error]]);
    var n, f, held := c.Available();
    fault := f;
  }

  /** The peer closes between the test of `m_pcb` and `tcp_recved`: lwIP is called without a pcb. */
  method CloseInsideRead() returns (stale: bool)
    ensures stale
  {
    var schedule := [[], [], [], [], [Fin]];
    assert Later(schedule) == [[], [], [], [Fin]] && Later(Later(schedule)) == [[], [], [Fin]];
    Batch(schedule);
    Batched(schedule, 1, 1);
    Batched(schedule, 2, 2);
    Batch(Later(schedule));
    Batch([[], [], [Fin]]);
    Batched([[], [], [Fin]], 1, 1);
    Batch([[], [Fin]]);
    Batch([[Fin]]);
    var c := Holding(schedule);
    var block, fault, st := c.ReadRound(1);
    stale := st;
  }

  /** An error between the section of `disconnect` and its calls: lwIP is called with a freed pcb. */
  method ErrorInsideClose() returns (stale: bool)
    ensures stale
  {
    var c := Holding([[Error]]);
    stale := c.Close();
  }

  lemma ByteArrives()
    ensures var batch := [Data([[7]])];
      Intake(batch, [7], 0, 10) == 1 && Orderly([batch])
  {
    var batch: seq<Event> := [Data([[7]])];
    assert [[7 as byte]][1..] == [] && batch[1..] == [] && |[batch][1..]| == 0;
    assert [7 as byte][0..1] == [7] && Bytes([[7]]) == [7] + Bytes([]);
    assert Intake([], [7], 1, 9) == 0;
  }

  /** A client that holds nothing when it is called reads the byte that arrives before the call runs. */
  method ReadsWhatArrives() returns (text: seq<byte>)
    ensures text == [7]
  {
    var batch := [Data([[7]])];
    ByteArrives();
    hide Intake, Orderly, RxQueues.Sound;
    var c := new TcpClient([7], 10, [batch]);
    ghost var part;
    text, part := Serve(c, CallRead(1));
  }
}
