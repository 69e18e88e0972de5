/**
  The server and a client it hands out, together.  A call of the client in `TcpReceive`, with whatever
  lwIP does during it, is a run of the state machine in `PendingSlot`; so the guarantees of that machine
  for every run hold for the code of the client too.
 */
module EndToEnd {
  import opened Options
  import P = Pbufs
  import RxQueues
  import opened PendingSlot
  import TcpReceive

  lemma {:induction false} RunConcat(s: Sys, a: seq<Event>, b: seq<Event>)
    ensures Run(s, a + b) == Run(Run(s, a), b)
  {
    if b == [] {
      assert a + b == a;
    } else {
      var n := |b| - 1;
      assert (a + b)[..|a + b| - 1] == a + b[..n] && (a + b)[|a + b| - 1] == b[n];
      RunConcat(s, a, b[..n]);
    }
  }

  lemma RunOne(s: Sys, e: Event)
    ensures Run(s, []) == s && Run(s, [e]) == Step(s, e)
  {
    assert [e][..0] == [];
  }

  // ----- one call -----

  /** The client has not lost anything, and this is how far it has got. */
  ghost predicate Stands(s: Sys, p: nat, wire: seq<P.byte>, attached: bool, arrived: nat, taken: nat, got: seq<P.byte>) {
    && Inv(s) && s.kind == Tcp && p in s.clients && p in s.pcbs && s.pcbs[p].wire == wire
    && (attached ==> s.clients[p].attached)
    && s.clients[p] == Client(s.clients[p].attached, arrived, taken, 0, got)
  }

  lemma Standing(s: Sys, p: nat, wire: seq<P.byte>, arrived: nat, taken: nat, got: seq<P.byte>)
    requires Stands(s, p, wire, true, arrived, taken, got)
    ensures Inv(s) && s.kind == Tcp && p in s.clients && IsLive(s, p) && s.pcbs[p].recv == TheClient && s.pcbs[p].wire == wire
    ensures s.clients[p] == Client(true, arrived, taken, 0, got)
    ensures arrived == s.pcbs[p].passed <= s.pcbs[p].came <= |wire|
  {
    assert ClientOk(s, p) && PcbOk(s, p);
  }

  lemma Redelivered(s: Sys, p: nat, wire: seq<P.byte>, arrived: nat, taken: nat, got: seq<P.byte>, n: nat)
    requires Stands(s, p, wire, true, arrived, taken, got) && p in s.pcbs && arrived + n <= s.pcbs[p].came
    ensures var t := Step(s, Redeliver(p, n)); Stands(t, p, wire, true, arrived + n, taken, got) && p in t.pcbs && t.pcbs[p].came == s.pcbs[p].came
  {
    hide Inv;
    Standing(s, p, wire, arrived, taken, got);
    StepInv(s, Redeliver(p, n));
  }

  lemma Delivered(s: Sys, p: nat, wire: seq<P.byte>, arrived: nat, taken: nat, got: seq<P.byte>, n: nat)
    requires Stands(s, p, wire, true, arrived, taken, got) && p in s.pcbs && arrived == s.pcbs[p].came && arrived + n <= |wire|
    ensures Stands(Step(s, Segment(p, n)), p, wire, true, arrived + n, taken, got)
  {
    hide Inv;
    Standing(s, p, wire, arrived, taken, got);
    StepInv(s, Segment(p, n));
  }

  /** Bytes arrive: first those that were refused while the connection was pending. */
  lemma Arrives(s: Sys, p: nat, wire: seq<P.byte>, arrived: nat, taken: nat, got: seq<P.byte>, n: nat) returns (events: seq<Event>)
    requires Stands(s, p, wire, true, arrived, taken, got) && arrived + n <= |wire|
    ensures Stands(Run(s, events), p, wire, true, arrived + n, taken, got)
  {
    hide Stands, Step, Inv, Run;
    Standing(s, p, wire, arrived, taken, got);
    var refused := s.pcbs[p].came - arrived;
    var early := if n <= refused then n else refused;
    var e := Redeliver(p, early);
    Redelivered(s, p, wire, arrived, taken, got, early);
    RunOne(s, e);
    events := [e];
    if n > refused {
      var f := Segment(p, n - refused);
      Delivered(Step(s, e), p, wire, arrived + early, taken, got, n - refused);
      RunOne(Step(s, e), f);
      RunConcat(s, [e], [f]);
      events := [e] + [f];
    }
  }

  lemma Reads(s: Sys, p: nat, wire: seq<P.byte>, attached: bool, arrived: nat, taken: nat, got: seq<P.byte>, n: nat)
    requires Stands(s, p, wire, attached, arrived, taken, got) && taken + n <= arrived
    ensures taken + n <= |wire|
    ensures Stands(Run(s, [Read(p, n)]), p, wire, attached, arrived, taken + n, got + wire[taken..taken + n])
  {
    assert ClientOk(s, p);
    StepInv(s, Read(p, n));
    RunOne(s, Read(p, n));
  }

  /** The peer's close, where lwIP has nothing left to deliver before it. */
  lemma Ends(s: Sys, p: nat, wire: seq<P.byte>, arrived: nat, taken: nat, got: seq<P.byte>)
    requires Stands(s, p, wire, true, arrived, taken, got)
    ensures Stands(Run(s, [Fin(p, true)]), p, wire, false, arrived, taken, got)
    ensures s.pcbs[p].came == arrived ==> Run(s, [Fin(p, true)]).pcbs[p].life == Closed
  {
    assert ClientOk(s, p) && PcbOk(s, p);
    StepInv(s, Fin(p, true));
    RunOne(s, Fin(p, true));
  }

  /** Any progress of a client is a run of the machine. */
  lemma Progresses(s: Sys, p: nat, wire: seq<P.byte>, attached: bool, arrived: nat, taken: nat, got: seq<P.byte>, attached2: bool, arrived2: nat, taken2: nat)
    returns (events: seq<Event>)
    requires Stands(s, p, wire, attached, arrived, taken, got)
    requires arrived <= arrived2 <= |wire| && taken <= taken2 <= arrived2
    requires (attached2 ==> attached) && (!attached ==> arrived2 == arrived)
    ensures Stands(Run(s, events), p, wire, attached2, arrived2, taken2, got + wire[taken..taken2])
  {
    hide Stands, Run;
    var first := [];
    RunOne(s, Read(p, 0));
    if attached {
      first := Arrives(s, p, wire, arrived, taken, got, arrived2 - arrived);
    }
    var t := Run(s, first);
    Reads(t, p, wire, attached, arrived2, taken, got, taken2 - taken);
    RunConcat(s, first, [Read(p, taken2 - taken)]);
    events := first + [Read(p, taken2 - taken)];
    if attached && !attached2 {
      Ends(Run(s, events), p, wire, arrived2, taken2, got + wire[taken..taken2]);
      RunConcat(s, events, [Fin(p, true)]);
      events := events + [Fin(p, true)];
    }
  }

  // ----- everything else -----

  /** An event that is not about connection `p`. */
  predicate Elsewhere(e: Event, p: nat) {
    match e
    case Begin(_, _) => true
    case Close(_) => true
    case UserAccept(_) => true
    case Accepted(q, _, _) => q != p
    case Segment(q, _) => q != p
    case Redeliver(q, _) => q != p
    case Fin(q, _) => q != p
    case Error(q) => q != p
    case Poll(q, _) => q != p
    case Read(q, _) => q != p
    case Flush(q) => q != p
    case ClientClose(q, _) => q != p
  }

  ghost predicate Kept(s: Sys, t: Sys, p: nat) {
    && t.kind == s.kind
    && p in s.clients && p in t.clients && t.clients[p] == s.clients[p]
    && p in s.pcbs && p in t.pcbs && t.pcbs[p] == s.pcbs[p]
  }

  predicate ServerEvent(e: Event) {
    e.Begin? || e.Close? || e.Accepted? || e.UserAccept?
  }

  predicate UserEvent(e: Event) {
    e.Read? || e.Flush? || e.ClientClose?
  }

  predicate DataEvent(e: Event) {
    e.Segment? || e.Redeliver?
  }

  /** Data for other connections leaves a client that was handed out alone. */
  lemma DataKeeps(s: Sys, e: Event, p: nat)
    requires p in s.clients && p in s.pcbs && s.slot != Some(p) && Elsewhere(e, p)
    requires DataEvent(e)
    ensures Kept(s, Step(s, e), p)
  {
    hide Hook, Dead, Lose;
  }

  /** So does their end. */
  lemma EndsKeep(s: Sys, e: Event, p: nat)
    requires p in s.clients && p in s.pcbs && s.slot != Some(p) && Elsewhere(e, p)
    requires !ServerEvent(e) && !UserEvent(e) && !DataEvent(e)
    ensures Kept(s, Step(s, e), p)
  {
    hide Hook, Dead, Lose;
  }

  /** So do the users of other clients. */
  lemma UsersKeep(s: Sys, e: Event, p: nat)
    requires p in s.clients && p in s.pcbs && s.slot != Some(p) && Elsewhere(e, p)
    requires UserEvent(e)
    ensures Kept(s, Step(s, e), p)
  {
    hide Hook, Dead, Lose, ReadClient;
  }

  /** The server does, too. */
  lemma ServerKeeps(s: Sys, e: Event, p: nat)
    requires p in s.clients && p in s.pcbs && s.slot != Some(p) && Elsewhere(e, p)
    requires ServerEvent(e)
    ensures Kept(s, Step(s, e), p)
  {
  }

  lemma ElsewhereKeeps(s: Sys, e: Event, p: nat)
    requires Inv(s) && p in s.clients && Elsewhere(e, p)
    ensures Kept(s, Step(s, e), p)
  {
    assert ClientOk(s, p) && PcbOk(s, p);
    hide Inv, PcbOk, ClientOk, Step, Elsewhere;
    if ServerEvent(e) {
      ServerKeeps(s, e, p);
    } else if UserEvent(e) {
      UsersKeep(s, e, p);
    } else if DataEvent(e) {
      DataKeeps(s, e, p);
    } else {
      EndsKeep(s, e, p);
    }
  }

  lemma {:induction false} AllElsewhere(s: Sys, events: seq<Event>, p: nat, wire: seq<P.byte>, attached: bool, arrived: nat, taken: nat, got: seq<P.byte>)
    requires Stands(s, p, wire, attached, arrived, taken, got) && forall e | e in events :: Elsewhere(e, p)
    ensures Stands(Run(s, events), p, wire, attached, arrived, taken, got)
  {
    if events != [] {
      var n := |events| - 1;
      AllElsewhere(s, events[..n], p, wire, attached, arrived, taken, got);
      StepInv(Run(s, events[..n]), events[n]);
      ElsewhereKeeps(Run(s, events[..n]), events[n], p);
    }
  }

  lemma StepKind(s: Sys, e: Event)
    ensures Step(s, e).kind == s.kind
  {
  }

  lemma {:induction false} SameKind(kind: Kind, timeout: nat, events: seq<Event>)
    ensures Run(Start(kind, timeout), events).kind == kind
  {
    if events != [] {
      SameKind(kind, timeout, events[..|events| - 1]);
      StepKind(Run(Start(kind, timeout), events[..|events| - 1]), events[|events| - 1]);
      hide Step;
    }
  }

  /** The pending connection is accepted. */
  lemma Handed(s: Sys, p: nat)
    requires Inv(s) && s.kind == Tcp && s.slot == Some(p)
    ensures p in s.pcbs && Stands(Run(s, [UserAccept(Works)]), p, s.pcbs[p].wire, true, 0, 0, [])
  {
    assert PcbOk(s, p);
    StepInv(s, UserAccept(Works));
    RunOne(s, UserAccept(Works));
  }

  /** A run goes on with the progress of a client and then with events elsewhere. */
  lemma GoesOn(start: Sys, run: seq<Event>, others: seq<Event>, p: nat, wire: seq<P.byte>,
               attached: bool, arrived: nat, taken: nat, got: seq<P.byte>, attached2: bool, arrived2: nat, taken2: nat)
    returns (longer: seq<Event>)
    requires Stands(Run(start, run), p, wire, attached, arrived, taken, got) && forall e | e in others :: Elsewhere(e, p)
    requires arrived <= arrived2 <= |wire| && taken <= taken2 <= arrived2
    requires (attached2 ==> attached) && (!attached ==> arrived2 == arrived)
    ensures run <= longer && Stands(Run(start, longer), p, wire, attached2, arrived2, taken2, got + wire[taken..taken2])
  {
    hide Stands, Run, Elsewhere;
    var here := Run(start, run);
    var events := Progresses(here, p, wire, attached, arrived, taken, got, attached2, arrived2, taken2);
    RunConcat(start, run, events);
    AllElsewhere(Run(here, events), others, p, wire, attached2, arrived2, taken2, got + wire[taken..taken2]);
    RunConcat(start, run + events, others);
    longer := run + events + others;
  }

  /**
    A connection is pending after any run, is accepted, and the client's methods are called while the
    server and other connections go on.  There is a run of the machine in which the same client has
    passed on exactly what the code used up: the start of what the peer sent, cut into the parts that
    the calls answer for, each of them all that its call asks for of what had arrived by then.  Only an
    error callback before the peer's close can spoil it.
   */
  method Connection(timeout: nat, before: seq<Event>, p: nat, window: nat, schedule: seq<seq<RxQueues.Event>>,
                    calls: seq<TcpReceive.Call>, others: seq<seq<Event>>)
    returns (texts: seq<seq<P.byte>>, c: TcpReceive.TcpClient, ghost parts: seq<seq<P.byte>>, ghost marks: seq<nat>, ghost run: seq<Event>)
    requires Run(Start(Tcp, timeout), before).slot == Some(p) && window < P.U16 && |others| == |calls|
    requires forall i | 0 <= i < |others| :: forall e | e in others[i] :: Elsewhere(e, p)
    ensures before <= run && fresh(c) && fresh(c.rx) && c.Idle() && |texts| == |parts| == |calls|
    ensures TcpReceive.Orderly(schedule) ==> c.drops == 0
    ensures |marks| == |calls| + 1 && marks[|calls|] == c.rx.g.arrived + c.Next()
    ensures c.drops == 0 ==>
      && Stands(Run(Start(Tcp, timeout), run), p, c.rx.wire, c.pcb, c.rx.g.arrived, c.rx.g.taken, P.Bytes(parts))
      && c.rx.g.taken <= |c.rx.wire| && P.Bytes(parts) == c.rx.wire[..c.rx.g.taken]
      && TcpReceive.Supplied(calls, parts, marks, 0)
      && forall k | 0 <= k < |calls| :: TcpReceive.Answers(calls[k], texts[k], parts[k])
  {
    hide RxQueues.Sound, Stands, Inv, Step, Start, TcpReceive.Orderly, TcpReceive.Answers, TcpReceive.Enough, TcpReceive.Supplied, P.Bytes, Elsewhere;
    var start := Start(Tcp, timeout);
    var s := Run(start, before);
    RunInv(Tcp, timeout, before);
    SameKind(Tcp, timeout, before);
    Handed(s, p);
    hide Run;
    c := new TcpReceive.TcpClient(s.pcbs[p].wire, window, schedule);
    texts, parts, marks := [], [], [c.rx.g.arrived + c.Next()];
    TcpReceive.SuppliedNone(calls, marks, 0);
    run := before + [UserAccept(Works)];
    RunConcat(start, before, [UserAccept(Works)]);
    for k := 0 to |calls|
      invariant fresh(c) && fresh(c.rx) && c.Idle() && before <= run && c.rx.wire == s.pcbs[p].wire && |texts| == |parts| == k
      invariant |marks| == k + 1 && marks[k] == c.rx.g.arrived + c.Next()
      invariant TcpReceive.Orderly(schedule) ==> c.Safe() && c.drops == 0
      invariant c.drops == 0 ==>
        && Stands(Run(start, run), p, c.rx.wire, c.pcb, c.rx.g.arrived, c.rx.g.taken, P.Bytes(parts))
        && P.Bytes(parts) == c.rx.wire[..c.rx.g.taken]
        && TcpReceive.Supplied(calls, parts, marks, 0)
        && forall j | 0 <= j < k :: TcpReceive.Answers(calls[j], texts[j], parts[j])
    {
      ghost var pcb, arrived: nat, taken: nat, got := c.pcb, c.rx.g.arrived, c.rx.g.taken, P.Bytes(parts);
      var text, part := TcpReceive.Serve(c, calls[k]);
      P.BytesAdd(parts, part);
      if c.drops == 0 {
        run := GoesOn(start, run, others[k], p, c.rx.wire, pcb, arrived, taken, got, c.pcb, c.rx.g.arrived, c.rx.g.taken);
        TcpReceive.SuppliedOn(calls, parts, marks, 0, part, c.rx.g.arrived + c.Next());
      }
      texts, parts, marks := texts + [text], parts + [part], marks + [c.rx.g.arrived + c.Next()];
    }
  }
}
