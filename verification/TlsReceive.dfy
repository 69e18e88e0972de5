/**
  The transport side of `TlsClientInterface` on the esp8266: `serviceRx` feeds the received bytes to
  the TLS engine and reports them to lwIP once at the end, through a 16-bit counter.

  `schedule` holds the callbacks at the coming preemption points and `engine` the room the engine
  offers at each request for a record buffer, 0 when it wants none; nothing is known about either.
 */
module TlsReceive {
  import opened Pbufs
  import opened RxQueues

  lemma FedOn(wire: seq<byte>, taken: nat, block: seq<byte>, n: nat)
    requires n <= |block| && taken + |block| <= |wire| && block == wire[taken..taken + |block|]
    ensures wire[..taken] + block[..n] == wire[..taken + n]
  {
  }

  // ----- schedules -----

  predicate Errs(batch: seq<Event>) {
    batch != [] && (batch[0].Error? || Errs(batch[1..]))
  }

  /** What is left after `k` batches. */
  function Rest(plan: seq<seq<Event>>, k: nat): seq<seq<Event>> {
    if k <= |plan| then plan[k..] else []
  }

  /** An error callback is among the first `k` batches. */
  predicate ErrsWithin(plan: seq<seq<Event>>, k: nat) {
    k > 0 && plan != [] && (Errs(plan[0]) || ErrsWithin(plan[1..], k - 1))
  }

  lemma {:induction false} NextBatch(plan: seq<seq<Event>>, k: nat)
    ensures Rest(plan, k + 1) == if Rest(plan, k) == [] then [] else Rest(plan, k)[1..]
    ensures ErrsWithin(plan, k + 1) <==> ErrsWithin(plan, k) || (Rest(plan, k) != [] && Errs(Rest(plan, k)[0]))
  {
    if plan != [] && k > 0 {
      NextBatch(plan[1..], k - 1);
      assert Rest(plan, k) == Rest(plan[1..], k - 1);
      assert Rest(plan, k + 1) == Rest(plan[1..], k);
    }
  }

  // ----- what the engine asks for -----

  /** Why a call of `serviceRx` ends. */
  datatype Stop = Fatal | Empty | Refused

  function Offer(engine: seq<nat>): nat {
    if engine == [] then 0 else engine[0]
  }

  function Further(engine: seq<nat>): seq<nat> {
    if engine == [] then [] else engine[1..]
  }

  function Beyond(engine: seq<nat>, k: nat): seq<nat> {
    if k <= |engine| then engine[k..] else []
  }

  /** The first `k` offers are there and all have room. */
  predicate Positive(engine: seq<nat>, k: nat) {
    k <= |engine| && forall i | 0 <= i < k :: engine[i] > 0
  }

  function Min(a: nat, b: nat): nat {
    if a < b then a else b
  }

  lemma NoOffers(engine: seq<nat>)
    ensures Positive(engine, 0) && Beyond(engine, 0) == engine
  {
  }

  lemma PositiveAt(engine: seq<nat>, k: nat, i: nat)
    requires Positive(engine, k) && i < k
    ensures i < |engine| && engine[i] > 0
  {
  }

  lemma OneOffer(engine: seq<nat>, k: nat)
    requires Positive(engine, k)
    ensures Further(Beyond(engine, k)) == Beyond(engine, k + 1)
    ensures Offer(Beyond(engine, k)) == (if k < |engine| then engine[k] else 0)
    ensures Offer(Beyond(engine, k)) > 0 ==> Positive(engine, k + 1)
  {
  }

  class TlsClient {
    const rx: RxQueue
    const window: nat
    var pcb: bool
    var isConnected: bool
    var engineFatal: bool
    var rcvNxt: nat
    var rcvWnd: nat
    var fed: seq<byte>                 // what the engine has been given
    var schedule: seq<seq<Event>>
    var engine: seq<nat>
    ghost const plan: seq<seq<Event>>  // the whole schedule
    ghost var ran: nat                 // how many batches of it have run
    ghost var closed: bool
    ghost var uncredited: nat          // bytes fed by the call in progress and not reported to lwIP
    ghost var forgotten: nat           // bytes whose report was lost to the 16-bit counter

    /** While the pcb lives, every byte of the window is open, held, being fed, or was forgotten. */
    ghost predicate Accounted()
      reads this, rx
    {
      && rx.Valid()
      && rx.g.taken <= rx.g.arrived <= |rx.wire| && rcvNxt == rx.g.arrived
      && rx.g.Held() + uncredited + forgotten <= window
      && (pcb ==> rcvWnd + rx.g.Held() + uncredited + forgotten == window)
    }

    /** The pcb is there until an error callback has run or the client was closed. */
    ghost predicate Valid()
      reads this, rx
    {
      Accounted() && schedule == Rest(plan, ran) && (pcb <==> !closed && !ErrsWithin(plan, ran))
    }

    /** Between calls the engine has been given exactly the bytes that left the chain, in order. */
    ghost predicate Idle()
      reads this, rx
    {
      Valid() && rx.g.limbo == [] && uncredited == 0 && fed == rx.wire[..rx.g.taken]
    }

    constructor (wire: seq<byte>, window: nat, schedule: seq<seq<Event>>, engine: seq<nat>)
      ensures Idle() && fresh(rx) && pcb && forgotten == 0 && rx.wire == wire && this.window == window
      ensures this.schedule == plan == schedule && this.engine == engine && rx.g.arrived == 0 && ran == 0 && !closed
    {
      rx := new RxQueue(wire);
      this.window, rcvNxt, rcvWnd, this.schedule, this.engine := window, 0, window, schedule, engine;
      pcb, isConnected, engineFatal, fed, uncredited, forgotten := true, true, false, [], 0, 0;
      plan, ran, closed := schedule, 0, false;
    }

    /** Callbacks only add bytes behind those held; the head and a detached buffer stay as they are. */
    twostate predicate Interfered()
      requires old(rx.Valid()) && rx.Valid()
      reads this, rx
    {
      && old(rx.g).arrived <= rx.g.arrived && rx.g.taken == old(rx.g).taken
      && First(rx.g.limbo) == First(old(rx.g).limbo) && (pcb ==> old(pcb))
      && (old(rx.g).Held() > 0 ==> rx.HeadBlock() == old(rx.HeadBlock()))
    }

    /** With no callbacks left to come, nothing arrives. */
    twostate predicate Still()
      reads this, rx
    {
      old(schedule) == [] ==> schedule == [] && rx.g.arrived == old(rx.g).arrived
    }

    /** What arrives with the next batch. */
    ghost function Next(): nat
      reads this, rx
    {
      if pcb && schedule != [] then Arrivals(schedule[0], rx.wire, rcvNxt, rcvWnd) else 0
    }

    method OnReceive(payloads: seq<seq<byte>>)
      requires Accounted() && Deliverable(payloads) && InOrder(rx.wire, rx.g.arrived, payloads)
      requires |Bytes(payloads)| <= rcvWnd && rcvWnd + rx.g.Held() + uncredited + forgotten == window
      modifies rx, this`rcvNxt, this`rcvWnd
      ensures rcvWnd + rx.g.Held() + uncredited + forgotten == window && rcvWnd == old(rcvWnd) - |Bytes(payloads)|
      ensures Accounted() && Interfered() && rx.g == Appended(old(rx.g), old(rx.nextId), payloads)
    {
      rcvNxt := rcvNxt + |Bytes(payloads)|;
      rcvWnd := rcvWnd - |Bytes(payloads)|;
      rx.Append(payloads);
    }

    method Callback(e: Event)
      requires Accounted()
      modifies rx, this`rcvNxt, this`rcvWnd, this`pcb, this`isConnected, this`engineFatal
      ensures Accounted() && Interfered() && pcb == (old(pcb) && !e.Error?)
      ensures var n := if old(pcb) then Brought(e, rx.wire, old(rcvNxt), old(rcvWnd)) else 0;
        rcvNxt == old(rcvNxt) + n && rcvWnd == old(rcvWnd) - n
    {
      if pcb {
        match e
        case Data(payloads) =>
          if Accepts(e, rx.wire, rcvNxt, rcvWnd) {
            OnReceive(payloads);
          }
        case Fin =>
        case Error =>
          pcb := false;
          isConnected := false;
          engineFatal := true;
      }
    }

    method RunBatch(batch: seq<Event>)
      requires Accounted()
      modifies rx, this`rcvNxt, this`rcvWnd, this`pcb, this`isConnected, this`engineFatal
      ensures Accounted() && Interfered() && pcb == (old(pcb) && !Errs(batch))
      ensures rcvNxt == old(rcvNxt) + (if old(pcb) then Arrivals(batch, rx.wire, old(rcvNxt), old(rcvWnd)) else 0)
    {
      hide RxQueues.Sound, Brought;
      var rest := batch;
      while rest != []
        invariant Accounted() && Interfered() && (pcb && !Errs(rest) <==> old(pcb) && !Errs(batch))
        invariant rcvNxt + (if pcb then Arrivals(rest, rx.wire, rcvNxt, rcvWnd) else 0)
               == old(rcvNxt) + (if old(pcb) then Arrivals(batch, rx.wire, old(rcvNxt), old(rcvWnd)) else 0)
        decreases |rest|
      {
        Callback(rest[0]);
        rest := rest[1..];
      }
    }

    /** A preemption point: the next batch of callbacks runs. */
    method Preempt()
      requires Valid()
      modifies rx, this`rcvNxt, this`rcvWnd, this`pcb, this`isConnected, this`engineFatal, this`schedule, this`ran
      ensures Valid() && Interfered() && Still() && ran == old(ran) + 1
      ensures rx.g.arrived == old(rx.g).arrived + old(Next())
    {
      hide RxQueues.Sound, Rest, ErrsWithin, RxQueues.Arrivals;
      NextBatch(plan, ran);
      ran := ran + 1;
      if schedule != [] {
        var batch := schedule[0];
        schedule := schedule[1..];
        RunBatch(batch);
      }
    }

    method TcpRecved(n: nat)
      requires pcb && rcvWnd + n % U16 <= window
      modifies this`rcvWnd
      ensures rcvWnd == old(rcvWnd) + n % U16
    {
      rcvWnd := rcvWnd + n % U16;
    }

    /** The call of `tcp_recved` for the bytes fed, which loses the multiples of 2^16. */
    method Credit(n: nat)
      requires Valid() && pcb && n % U16 == uncredited % U16
      modifies this`rcvWnd, this`uncredited, this`forgotten
      ensures Valid() && uncredited == 0 && forgotten == old(forgotten) + old(uncredited) - old(uncredited) % U16
    {
      TcpRecved(n);
      forgotten := forgotten + uncredited - uncredited % U16;
      uncredited := 0;
    }

    /** The call is over without a report. */
    ghost method WriteOff()
      requires Valid() && (pcb ==> uncredited % U16 == 0)
      modifies this`uncredited, this`forgotten
      ensures Valid() && uncredited == 0 && forgotten == old(forgotten) + if pcb then old(uncredited) else 0
    {
      if pcb {
        forgotten := forgotten + uncredited;
      }
      uncredited := 0;
    }

    /**
      The test of `m_pcb` and the call of `tcp_recved`, which reads it again and is outside any section.
      `stale` stands for a call with a pcb that is gone.
     */
    method Report(n: nat) returns (stale: bool)
      requires Valid() && n % U16 == uncredited % U16 && (n > 0 <==> uncredited % U16 > 0)
      modifies rx, this`rcvNxt, this`rcvWnd, this`pcb, this`isConnected, this`engineFatal, this`schedule, this`ran, this`uncredited, this`forgotten
      ensures Valid() && Interfered() && Still() && uncredited == 0
      ensures stale <==> n > 0 && old(pcb) && ErrsWithin(plan, old(ran) + 1)
      ensures forgotten == old(forgotten) + (if pcb then old(uncredited) - old(uncredited) % U16 else 0)
      ensures old(ran) <= ran
    {
      hide RxQueues.Sound, Rest, RxQueues.Arrivals, Next;
      stale := false;
      if pcb && n > 0 {
        Preempt();
        stale := !pcb;
        if stale {
          WriteOff();
        } else {
          Credit(n);
        }
      } else {
        WriteOff();
      }
    }

    lemma Bounded()
      requires Valid()
      ensures rx.g.taken <= rx.g.arrived <= |rx.wire|
    {
    }

    /** One round of `consumeRxQueue`: the section, then `pbuf_free` outside of it. */
    method TakeAndFree(size: nat) returns (taken: nat)
      requires Valid() && rx.g.limbo == [] && 0 < size <= rx.g.Held()
      modifies rx, this`rcvNxt, this`rcvWnd, this`pcb, this`isConnected, this`engineFatal, this`schedule, this`ran, this`uncredited
      ensures Valid() && rx.g.limbo == [] && (pcb ==> old(pcb)) && 0 < taken <= size
      ensures rx.g.taken == old(rx.g).taken + taken && uncredited == old(uncredited) + taken
      ensures old(rx.g).arrived <= rx.g.arrived && old(ran) <= ran && Still()
    {
      hide RxQueues.Sound, Rest, ErrsWithin, RxQueues.Arrivals, Next;
      var released;
      released, taken := rx.Take(size);
      uncredited := uncredited + taken;
      Preempt();
      if released != Null {
        rx.Release(released);
      }
    }

    method ConsumeRxQueue(size0: nat)
      requires Valid() && rx.g.limbo == [] && size0 <= rx.g.Held()
      modifies rx, this`rcvNxt, this`rcvWnd, this`pcb, this`isConnected, this`engineFatal, this`schedule, this`ran, this`uncredited
      ensures Valid() && rx.g.limbo == [] && (pcb ==> old(pcb))
      ensures rx.g.taken == old(rx.g).taken + size0 && uncredited == old(uncredited) + size0
      ensures old(rx.g).arrived <= rx.g.arrived && old(ran) <= ran && Still()
    {
      hide RxQueues.Sound, Rest, ErrsWithin, RxQueues.Arrivals, Next;
      var size := size0;
      while size > 0
        invariant Valid() && rx.g.limbo == [] && 0 <= size <= rx.g.Held() && (pcb ==> old(pcb))
        invariant rx.g.taken + size == old(rx.g).taken + size0 && uncredited + size == old(uncredited) + size0
        invariant old(rx.g).arrived <= rx.g.arrived && old(ran) <= ran && Still()
      {
        var taken := TakeAndFree(size);
        Preempt();
        size := size - taken;
      }
    }

    /** Copy as much of the head as the engine has room for, and take it off the queue. */
    method FeedHead(room: nat) returns (chunk: nat)
      requires Valid() && rx.g.limbo == [] && fed == rx.wire[..rx.g.taken] && rx.g.Held() > 0 && room > 0
      modifies rx, this`rcvNxt, this`rcvWnd, this`pcb, this`isConnected, this`engineFatal, this`schedule, this`ran, this`uncredited, this`fed
      ensures Valid() && rx.g.limbo == [] && fed == rx.wire[..rx.g.taken] && (pcb ==> old(pcb))
      ensures rx.g.taken == old(rx.g).taken + chunk && uncredited == old(uncredited) + chunk
      ensures old(rx.g).arrived <= rx.g.arrived && 0 < chunk < U16 && old(ran) <= ran && Still()
      ensures chunk == if |old(rx.HeadBlock())| < room then |old(rx.HeadBlock())| else room
    {
      hide RxQueues.Sound, Rest, ErrsWithin, RxQueues.Arrivals, Next;
      var head := rx.HeadBlock();
      chunk := if |head| < room then |head| else room;
      FedOn(rx.wire, rx.g.taken, head, chunk);
      fed := fed + head[..chunk];
      Preempt();
      ConsumeRxQueue(chunk);
    }

    /** The same between the two yields of a round. */
    method FeedAndYield(room: nat) returns (chunk: nat)
      requires Valid() && rx.g.limbo == [] && fed == rx.wire[..rx.g.taken] && rx.g.Held() > 0 && room > 0
      modifies rx, this`rcvNxt, this`rcvWnd, this`pcb, this`isConnected, this`engineFatal, this`schedule, this`ran, this`uncredited, this`fed
      ensures Valid() && rx.g.limbo == [] && fed == rx.wire[..rx.g.taken] && (pcb ==> old(pcb))
      ensures rx.g.taken == old(rx.g).taken + chunk && uncredited == old(uncredited) + chunk
      ensures old(rx.g).arrived <= rx.g.arrived && 0 < chunk < U16 && old(ran) <= ran && Still()
      ensures chunk == Min(room, |old(rx.HeadBlock())|)
    {
      hide RxQueues.Sound, Rest, ErrsWithin, RxQueues.Arrivals, Next;
      Preempt();
      chunk := FeedHead(room);
      Preempt();
    }

    /** One round of `serviceRx`: the engine is asked only if the head holds something, and gets what it has room for. */
    method FeedRound() returns (chunk: nat)
      requires Valid() && rx.g.limbo == [] && fed == rx.wire[..rx.g.taken]
      modifies rx, this`rcvNxt, this`rcvWnd, this`pcb, this`isConnected, this`engineFatal, this`schedule, this`ran, this`uncredited, this`fed, this`engine
      ensures Valid() && rx.g.limbo == [] && fed == rx.wire[..rx.g.taken] && (pcb ==> old(pcb))
      ensures rx.g.taken == old(rx.g).taken + chunk && uncredited == old(uncredited) + chunk
      ensures old(rx.g).arrived <= rx.g.arrived <= |rx.wire| && chunk < U16 && old(ran) <= ran && Still()
      ensures engine == if old(rx.g).Held() == 0 then old(engine) else Further(old(engine))
      ensures chunk == if old(rx.g).Held() == 0 then 0 else Min(Offer(old(engine)), |old(rx.HeadBlock())|)
      ensures chunk == 0 <==> old(rx.g).Held() == 0 || Offer(old(engine)) == 0
    {
      hide RxQueues.Sound, Rest, ErrsWithin, RxQueues.Arrivals, Next;
      chunk := 0;
      var headleft := |rx.HeadBlock()|;
      Preempt();
      if headleft > 0 {
        var room := Offer(engine);
        engine := Further(engine);
        if room > 0 {
          chunk := FeedAndYield(room);
        }
      }
    }

    /** A round after `rounds` offers of `offers` that were all used, and why it is the last if it feeds nothing. */
    method CountedRound(ghost offers: seq<nat>, ghost rounds: nat) returns (chunk: nat, ghost end: Stop)
      requires Valid() && rx.g.limbo == [] && fed == rx.wire[..rx.g.taken]
      requires Positive(offers, rounds) && engine == Beyond(offers, rounds)
      modifies rx, this`rcvNxt, this`rcvWnd, this`pcb, this`isConnected, this`engineFatal, this`schedule, this`ran, this`uncredited, this`fed, this`engine
      ensures Valid() && rx.g.limbo == [] && fed == rx.wire[..rx.g.taken] && (pcb ==> old(pcb))
      ensures rx.g.taken == old(rx.g).taken + chunk && uncredited == old(uncredited) + chunk
      ensures old(rx.g).arrived <= rx.g.arrived <= |rx.wire| && rx.g.taken <= rx.g.arrived && chunk < U16 && old(ran) <= ran && Still()
      ensures chunk > 0 ==> Positive(offers, rounds + 1) && engine == Beyond(offers, rounds + 1)
      ensures chunk == 0 && end == Empty ==> old(rx.g).Held() == 0
      ensures chunk == 0 && end != Empty ==> end == Refused && (rounds >= |offers| || offers[rounds] == 0)
    {
      hide RxQueues.Sound, Rest, ErrsWithin, RxQueues.Arrivals, Next, Positive, Offer, Further, Beyond, Min, Valid;
      end := if rx.g.Held() == 0 then Empty else Refused;
      OneOffer(offers, rounds);
      chunk := FeedRound();
      Bounded();
    }

    /** The loop of `serviceRx`. */
    method FeedAll() returns (reclaimed: nat, ghost rounds: nat, ghost end: Stop)
      requires Idle()
      modifies rx, this`rcvNxt, this`rcvWnd, this`pcb, this`isConnected, this`engineFatal, this`schedule, this`ran, this`uncredited, this`fed, this`engine
      ensures Valid() && rx.g.limbo == [] && fed == rx.wire[..rx.g.taken] && (pcb ==> old(pcb)) && Still()
      ensures uncredited == rx.g.taken - old(rx.g).taken >= rounds && reclaimed == uncredited % U16 && old(ran) <= ran
      ensures end != Fatal && Positive(old(engine), rounds)
      ensures end == Refused ==> rounds >= |old(engine)| || old(engine)[rounds] == 0
      ensures end == Empty ==> rx.g.taken >= old(rx.g).arrived && (old(schedule) == [] ==> rx.g.Held() == 0)
    {
      hide RxQueues.Sound, Rest, ErrsWithin, RxQueues.Arrivals, Next, Positive, Offer, Further, Beyond, Min, Valid;
      reclaimed, rounds, end := 0, 0, Empty;
      NoOffers(engine);
      Bounded();
      var more := true;
      while more
        invariant rx.g.taken <= |rx.wire| && Valid() && rx.g.limbo == [] && fed == rx.wire[..rx.g.taken] && (pcb ==> old(pcb)) && Still()
        invariant uncredited == rx.g.taken - old(rx.g).taken >= rounds && reclaimed == uncredited % U16 && old(ran) <= ran
        invariant Positive(old(engine), rounds) && (more ==> engine == Beyond(old(engine), rounds)) && (!more ==> end != Fatal)
        invariant !more && end == Refused ==> rounds >= |old(engine)| || old(engine)[rounds] == 0
        invariant !more && end == Empty ==> rx.g.taken >= old(rx.g).arrived && (old(schedule) == [] ==> rx.g.Held() == 0)
        invariant old(rx.g).arrived <= rx.g.arrived
        decreases more, |rx.wire| - rx.g.taken
      {
        var chunk;
        chunk, end := CountedRound(old(engine), rounds);
        ModAdd(uncredited - chunk, chunk);
        reclaimed := (reclaimed + chunk) % U16;
        more := chunk > 0;
        rounds := if more then rounds + 1 else rounds;
      }
    }

    /**
      `serviceRx`.  The engine receives the stream in order, and the whole window is accounted for
      afterwards, except for the multiple of 2^16 that the counter drops; with a window below 2^16
      a call never feeds that much, because the window stays shut until its end.  `test` is the number
      of batches that have run when `m_pcb` is tested: the report goes to a pcb that is gone exactly
      when the first error callback comes in the next one.  It ends only with a dead engine, with an
      empty queue, or after `rounds` offers that were all used, with one of nothing.
     */
    method ServiceRx() returns (stale: bool, ghost test: nat, ghost rounds: nat, ghost end: Stop)
      requires Idle()
      modifies rx, this`rcvNxt, this`rcvWnd, this`pcb, this`isConnected, this`engineFatal, this`schedule, this`ran, this`uncredited, this`fed, this`engine, this`forgotten
      ensures Idle() && old(rx.g).taken <= rx.g.taken && (pcb ==> old(pcb)) && old(ran) <= test && Still()
      ensures var n := rx.g.taken - old(rx.g).taken;
        && n + old(forgotten) <= window
        && forgotten == old(forgotten) + (if pcb then n - n % U16 else 0)
        && (stale <==> n % U16 > 0 && !closed && !ErrsWithin(plan, test) && ErrsWithin(plan, test + 1))
      ensures window < U16 ==> forgotten == old(forgotten)
      ensures (end == Fatal <==> old(engineFatal)) && (end == Fatal ==> rx.g.taken == old(rx.g).taken)
      ensures rx.g.taken >= old(rx.g).taken + rounds && Positive(old(engine), rounds)
      ensures end == Refused ==> rounds >= |old(engine)| || old(engine)[rounds] == 0
      ensures end == Empty ==> rx.g.taken >= old(rx.g).arrived && (old(schedule) == [] ==> rx.g.Held() == 0)
    {
      hide RxQueues.Sound, Rest, ErrsWithin, RxQueues.Arrivals, Next, Positive, Offer, Further, Beyond, Min;
      stale, test, rounds, end := false, ran, 0, Fatal;
      NoOffers(engine);
      if !engineFatal {
        var reclaimed;
        reclaimed, rounds, end := FeedAll();
        test := ran;
        stale := Report(reclaimed);
      }
    }

    /** With nothing arriving and an engine that goes on asking, everything that is held is fed. */
    method ServeAll()
      requires Idle() && !engineFatal && schedule == [] && Positive(engine, |engine|) && |engine| >= rx.g.Held()
      modifies rx, this`rcvNxt, this`rcvWnd, this`pcb, this`isConnected, this`engineFatal, this`schedule, this`ran, this`uncredited, this`fed, this`engine, this`forgotten
      ensures Idle() && rx.g.Held() == 0 && fed == rx.wire[..old(rx.g).arrived]
    {
      hide RxQueues.Sound, Rest, ErrsWithin, RxQueues.Arrivals, Next, Positive;
      ghost var offers := engine;
      var stale, test, rounds, end := ServiceRx();
      if rounds < |offers| {
        PositiveAt(offers, |offers|, rounds);
      }
    }

    // ----- closing -----

    /** The part of `close` that releases the receive chain. */
    method ReleaseChain() returns (stale: bool)
      requires Idle()
      modifies rx, this`rcvNxt, this`rcvWnd, this`pcb, this`isConnected, this`engineFatal, this`schedule, this`ran, this`uncredited, this`forgotten
      ensures Valid() && rx.g.limbo == [] && old(rx.g).arrived <= rx.g.taken && uncredited == 0 && old(ran) < ran
      ensures stale <==> old(rx.g).Held() % U16 > 0 && !closed && !ErrsWithin(plan, old(ran) + 1) && ErrsWithin(plan, old(ran) + 2)
    {
      hide RxQueues.Sound, Rest, ErrsWithin, RxQueues.Arrivals, Next;
      uncredited := rx.g.Held();
      var released, pending := rx.Detach();
      Preempt();
      stale := false;
      if released != Null {
        stale := Report(pending);
      } else {
        uncredited := 0;
      }
      rx.Release(released);
    }

    /** Callbacks that come while a pcb that the client has given up still has them: data is still stored. */
    method LateBatch(batch: seq<Event>) returns (freed: bool)
      requires Accounted() && !pcb && rcvWnd + rx.g.Held() + uncredited + forgotten == window
      modifies rx, this`rcvNxt, this`rcvWnd, this`engineFatal
      ensures Accounted() && (freed <==> Errs(batch))
      ensures rx.g.arrived == old(rx.g).arrived + Arrivals(batch, rx.wire, old(rcvNxt), old(rcvWnd)) && rx.g.taken == old(rx.g).taken && rx.g.limbo == old(rx.g).limbo
    {
      hide RxQueues.Sound, Accepts;
      freed := false;
      var rest := batch;
      while rest != [] && !freed
        invariant Accounted() && rcvWnd + rx.g.Held() + uncredited + forgotten == window && (freed || Errs(rest) <==> Errs(batch))
        invariant rx.g.arrived + (if freed then 0 else Arrivals(rest, rx.wire, rcvNxt, rcvWnd))
               == old(rx.g).arrived + Arrivals(batch, rx.wire, old(rcvNxt), old(rcvWnd))
        invariant old(rx.g).arrived <= rx.g.arrived && rx.g.taken == old(rx.g).taken && rx.g.limbo == old(rx.g).limbo
        decreases |rest|, !freed
      {
        match rest[0] {
          case Data(payloads) =>
            if Accepts(rest[0], rx.wire, rcvNxt, rcvWnd) {
              AcceptsMeans(rest[0], rx.wire, rcvNxt, rcvWnd);
              OnReceive(payloads);
            }
          case Fin =>
          case Error =>
            freed, engineFatal := true, true;
        }
        rest := rest[1..];
      }
    }

    /** The part of `close` that gives up the pcb: a section, and the calls of lwIP after it. */
    method GiveUpPcb() returns (gone: bool)
      requires Valid() && rx.g.limbo == [] && uncredited == 0
      modifies rx, this`rcvNxt, this`rcvWnd, this`pcb, this`isConnected, this`engineFatal, this`schedule, this`ran, this`closed
      ensures Valid() && closed && !pcb && !isConnected && rx.g.limbo == [] && old(rx.g).taken == rx.g.taken
      ensures gone <==> !old(closed) && !ErrsWithin(plan, old(ran)) && ErrsWithin(plan, old(ran) + 1)
      ensures rx.g.arrived == old(rx.g).arrived + old(Next())
    {
      hide RxQueues.Sound, Rest, ErrsWithin, RxQueues.Arrivals;
      NextBatch(plan, ran);
      var had := pcb;
      gone, pcb, closed := false, false, true;
      ran := ran + 1;
      if schedule != [] {
        var batch := schedule[0];
        schedule := schedule[1..];
        if had {
          gone := LateBatch(batch);
        }
      }
      isConnected := false;
    }

    /**
      `close`: what had arrived is released, and the pcb is given up.  `stale`: the report of the bytes
      goes to a pcb that is gone; `gone`: so do the calls that give it up, exactly if the first error
      comes in batch `test`, between the section and them.
     */
    method Close() returns (stale: bool, gone: bool, ghost test: nat)
      requires Idle()
      modifies rx, this`rcvNxt, this`rcvWnd, this`pcb, this`isConnected, this`engineFatal, this`schedule, this`ran, this`uncredited, this`forgotten, this`closed
      ensures Valid() && closed && !pcb && !isConnected && rx.g.limbo == [] && old(rx.g).arrived <= rx.g.taken
      ensures stale <==> old(rx.g).Held() % U16 > 0 && !old(closed) && !ErrsWithin(plan, old(ran) + 1) && ErrsWithin(plan, old(ran) + 2)
      ensures old(ran) < test && (gone <==> !old(closed) && !ErrsWithin(plan, test) && ErrsWithin(plan, test + 1))
    {
      hide RxQueues.Sound, Rest, ErrsWithin, RxQueues.Arrivals, Next;
      stale := ReleaseChain();
      Preempt();
      test := ran;
      gone := GiveUpPcb();
    }

    /** The destructor: what still came while the pcb was given up is released too, so no buffer is left. */
    method Destroy() returns (stale: bool, gone: bool)
      requires Idle()
      modifies rx, this`rcvNxt, this`rcvWnd, this`pcb, this`isConnected, this`engineFatal, this`schedule, this`ran, this`uncredited, this`forgotten, this`closed
      ensures !pcb && rx.Valid() && rx.cells == map[]
    {
      hide RxQueues.Sound, Rest, ErrsWithin, RxQueues.Arrivals, Next;
      ghost var test;
      stale, gone, test := Close();
      var released, pending := rx.Detach();
      rx.Release(released);
      rx.Empty();
    }
  }

  /** A client that holds a byte, with these callbacks to come. */
  method Holding(schedule: seq<seq<Event>>) returns (c: TlsClient)
    ensures fresh(c) && fresh(c.rx) && c.Idle() && c.rx.g.Held() == 1 && !c.closed && c.plan == schedule && c.ran == 0
  {
    c := new TlsClient([7], 10, schedule, []);
    assert [[7 as byte]][1..] == [];
    assert c.rx.wire[0..1] == [7];
    hide RxQueues.Sound, Rest, ErrsWithin, RxQueues.Arrivals;
    c.OnReceive([[7]]);
  }

  lemma ErrorSecond()
    ensures !ErrsWithin([[], [Error]], 1) && ErrsWithin([[], [Error]], 2)
  {
    var schedule := [[], [Error]];
    assert schedule[1..] == [[Error]];
  }

  /** An error callback between the test of `m_pcb` and the report in `close`: lwIP is called without a pcb. */
  method ErrorInsideClose() returns (stale: bool)
    ensures stale
  {
    hide RxQueues.Sound, Rest, ErrsWithin, RxQueues.Arrivals;
    ErrorSecond();
    var c := Holding([[], [Error]]);
    var gone;
    ghost var test;
    stale, gone, test := c.Close();
  }

  /** An error callback between the section of `close` and its calls: lwIP is called with a freed pcb. */
  method ErrorAfterSection() returns (gone: bool)
    ensures gone
  {
    var schedule: seq<seq<Event>> := [[Error]];
    assert ErrsWithin(schedule, 1) && !ErrsWithin(schedule, 0);
    hide RxQueues.Sound, Rest, ErrsWithin, RxQueues.Arrivals;
    var c := new TlsClient([7], 10, schedule, []);
    gone := c.GiveUpPcb();
  }
}
