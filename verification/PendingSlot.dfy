/**
  The pending-client slot of `TcpServerInterface` and `TlsServerInterface`, together with lwIP and the
  clients that the server hands out, as one state machine.

  lwIP accepts a connection and calls `onAccept`; the server keeps the connection in its one slot,
  refusing data, until the application takes it with `accept()`, or a newer connection, an error, the
  peer's close, the poll timer or `close()` removes it.  A connection that has been handed out belongs
  to a client object from then on.
 */
module PendingSlot {
  import opened Options
  import opened Pbufs

  datatype Kind = Tcp | Tls

  datatype Owner = Nobody | TheServer | TheClient

  datatype Life = Live | Closed | Aborted | Freed

  /**
    A connection in lwIP: who its argument and callbacks belong to, what the peer sends, how many of
    those bytes lwIP has taken (`came`) and how many it has passed to a receive callback that kept
    them (`passed`).  The difference is the data a callback refused with `ERR_MEM`.
   */
  datatype Pcb = Pcb(life: Life, arg: Owner, recv: Owner, err: Owner, poll: Owner, wire: seq<byte>, came: nat, passed: nat)

  /**
    A client object: whether it still holds its pcb, its receive ledger, and all the bytes of the wire it
    has passed on, to its reader or, undecrypted, to its TLS engine.
   */
  datatype Client = Client(attached: bool, arrived: nat, taken: nat, drops: nat, got: seq<byte>)

  datatype Sys = Sys(
    kind: Kind,
    timeout: nat,
    listening: bool,
    slot: Option<nat>,      // m_clientPcb
    hasClient: bool,        // m_hasClient
    since: nat,             // m_pendingSince
    pcbs: map<nat, Pcb>,
    clients: map<nat, Client>,
    orphans: set<nat>)      // live pcbs the code has let go of

  /** What `accept()` meets: no memory for the client, a TLS set-up failure and how closing goes then, or neither. */
  datatype Outcome = NoMemory | SetupFails(closeOk: bool) | Works

  datatype Event =
    | Begin(ok: bool, closeOk: bool)
    | Close(closeOk: bool)
    | Accepted(p: nat, wire: seq<byte>, now: nat)
    | UserAccept(outcome: Outcome)
    | Segment(p: nat, n: nat)
    | Redeliver(p: nat, n: nat)
    | Fin(p: nat, closeOk: bool)
    | Error(p: nat)
    | Poll(p: nat, now: nat)
    | Read(p: nat, n: nat)
    | Flush(p: nat)
    | ClientClose(p: nat, closeOk: bool)

  function Hook(q: Pcb, o: Owner): Pcb {
    q.(arg := o, recv := o, err := o, poll := if o == TheServer then TheServer else Nobody)
  }

  function Dead(q: Pcb, life: Life): Pcb {
    Hook(q, Nobody).(life := life)
  }

  predicate IsLive(s: Sys, p: nat) {
    p in s.pcbs && s.pcbs[p].life == Live
  }

  function Vacate(s: Sys): Sys {
    s.(slot := None, hasClient := false, since := 0)
  }

  // ----- what the server does -----

  /** `close`, which aborts the pending pcb where lwIP cannot close it. */
  function CloseServer(s: Sys, closeOk: bool): Sys {
    var t := s.(listening := false, hasClient := false, slot := None);
    if s.slot.None? || s.slot.value !in s.pcbs then t
    else t.(pcbs := s.pcbs[s.slot.value := Dead(s.pcbs[s.slot.value], if closeOk then Closed else Aborted)])
  }

  function BeginServer(s: Sys, ok: bool, closeOk: bool): Sys {
    var t := CloseServer(s, closeOk);
    t.(listening := ok)
  }

  /** `onAccept`: the newest connection wins the slot. */
  function OnAccept(s: Sys, p: nat, wire: seq<byte>, now: nat): Sys {
    if !s.listening || p in s.pcbs then s
    else
      var rest := if s.slot.None? || s.slot.value !in s.pcbs then s.pcbs
                 else s.pcbs[s.slot.value := Dead(s.pcbs[s.slot.value], Aborted)];
      s.(slot := Some(p), hasClient := true, since := now,
         pcbs := rest[p := Hook(Pcb(Live, Nobody, Nobody, Nobody, Nobody, wire, 0, 0), TheServer)])
  }

  /** The pending connection passes to a new client object. */
  function HandOver(s: Sys, p: nat): Sys
    requires p in s.pcbs
  {
    var q := s.pcbs[p];
    Vacate(s).(pcbs := s.pcbs[p := Hook(q, TheClient)], clients := s.clients[p := Client(true, q.passed, q.passed, 0, [])])
  }

  /** The pending connection is closed or aborted. */
  function End(s: Sys, p: nat, life: Life): Sys
    requires p in s.pcbs
  {
    Vacate(s).(pcbs := s.pcbs[p := Dead(s.pcbs[p], life)])
  }

  /** The pending connection is taken off its callbacks and forgotten. */
  function LetGo(s: Sys, p: nat): Sys
    requires p in s.pcbs
  {
    Vacate(s).(pcbs := s.pcbs[p := Hook(s.pcbs[p], Nobody)], orphans := s.orphans + {p})
  }

  /**
    `accept`.  Without memory for the client, only the TLS server gives the connection back; where the
    TLS set-up fails, the client's destructor closes it without looking at the result.
   */
  function Accept(s: Sys, outcome: Outcome): Sys {
    if !s.hasClient || s.slot.None? || s.slot.value !in s.pcbs then s
    else
      if outcome == Works || (s.kind == Tcp && outcome.SetupFails?) then HandOver(s, s.slot.value)
      else if s.kind == Tls && outcome == NoMemory then End(s, s.slot.value, Aborted)
      else if s.kind == Tls && outcome.SetupFails? && outcome.closeOk then End(s, s.slot.value, Closed)
      else LetGo(s, s.slot.value)
  }

  /** `onPendingRecv` with no data, for the pending pcb; the result of `tcp_close` is not looked at. */
  function OnPendingFin(s: Sys, p: nat, closeOk: bool): Sys
    requires p in s.pcbs && s.slot == Some(p)
  {
    if closeOk then End(s, p, Closed) else LetGo(s, p)
  }

  /** `onPendingPoll`: the millisecond difference is taken modulo 2^32. */
  function OnPendingPoll(s: Sys, p: nat, now: nat): Sys
    requires p in s.pcbs
  {
    if s.slot == Some(p) && s.timeout > 0 && (now - s.since) % U32 > s.timeout
    then End(s, p, Aborted)
    else s
  }

  // ----- what a client does -----

  function Lose(c: Client): Client {
    c.(taken := c.arrived, drops := c.drops + 1)
  }

  /** `disconnect` of a TCP client, which aborts where lwIP cannot close; what it holds stays readable. */
  function Detach(s: Sys, p: nat, closeOk: bool): Sys
    requires p in s.pcbs && p in s.clients
  {
    s.(pcbs := s.pcbs[p := Dead(s.pcbs[p], if closeOk then Closed else Aborted)],
       clients := s.clients[p := s.clients[p].(attached := false)])
  }

  /** `close` of a client, which also discards what it holds; the TLS client does not look whether lwIP could close. */
  function CloseClient(s: Sys, p: nat, closeOk: bool): Sys
    requires p in s.pcbs && p in s.clients
  {
    var t := s.(clients := s.clients[p := Lose(s.clients[p]).(attached := false)]);
    if !s.clients[p].attached then t
    else if closeOk || s.kind == Tcp then t.(pcbs := s.pcbs[p := Dead(s.pcbs[p], if closeOk then Closed else Aborted)])
    else t.(pcbs := s.pcbs[p := Hook(s.pcbs[p], Nobody)], orphans := s.orphans + {p})
  }

  function ReadClient(c: Client, wire: seq<byte>, n: nat): Client {
    var k := if c.taken + n <= c.arrived then n else if c.taken <= c.arrived then c.arrived - c.taken else 0;
    if c.taken + k <= |wire| then c.(taken := c.taken + k, got := c.got + wire[c.taken..c.taken + k]) else c
  }

  // ----- what lwIP does with the callbacks -----

  /**
    lwIP has taken `came` bytes and offers those up to `upto` to the receive callback: a server refuses
    them, a client keeps them, and where there is no callback they are discarded.
   */
  function Deliver(s: Sys, p: nat, came: nat, upto: nat): Sys
    requires p in s.pcbs
  {
    var q := s.pcbs[p].(came := came);
    match q.recv
    case TheServer => s.(pcbs := s.pcbs[p := q])
    case Nobody => s.(pcbs := s.pcbs[p := q.(passed := upto)])
    case TheClient =>
      var t := s.(pcbs := s.pcbs[p := q.(passed := upto)]);
      if p in s.clients && upto >= s.pcbs[p].passed
      then t.(clients := s.clients[p := s.clients[p].(arrived := s.clients[p].arrived + (upto - s.pcbs[p].passed))])
      else t
  }

  /**
    lwIP frees the pcb and then calls the error callback: `onPendingError` does not look at which one, a
    TCP client drops what it holds, a TLS client keeps it.
   */
  function Fail(s: Sys, p: nat): Sys
    requires p in s.pcbs
  {
    var q := s.pcbs[p];
    var t := s.(pcbs := s.pcbs[p := Dead(q, Freed)], orphans := s.orphans - {p});
    match q.err
    case TheServer => Vacate(t)
    case TheClient =>
      if p !in s.clients then t
      else t.(clients := s.clients[p := (if s.kind == Tcp then Lose(s.clients[p]) else s.clients[p]).(attached := false)])
    case Nobody => t
  }

  function Step(s: Sys, e: Event): Sys {
    match e
    case Begin(ok, closeOk) => BeginServer(s, ok, closeOk)
    case Close(closeOk) => CloseServer(s, closeOk)
    case Accepted(p, wire, now) => OnAccept(s, p, wire, now)
    case UserAccept(outcome) => Accept(s, outcome)
    case Segment(p, n) =>
      // while data is refused, lwIP takes no more
      if IsLive(s, p) && s.pcbs[p].came == s.pcbs[p].passed && s.pcbs[p].came + n <= |s.pcbs[p].wire|
      then Deliver(s, p, s.pcbs[p].came + n, s.pcbs[p].came + n) else s
    case Redeliver(p, n) =>
      if IsLive(s, p) && s.pcbs[p].passed + n <= s.pcbs[p].came
      then Deliver(s, p, s.pcbs[p].came, s.pcbs[p].passed + n) else s
    case Fin(p, closeOk) =>
      // the close is delivered behind the data
      if !IsLive(s, p) || s.pcbs[p].came != s.pcbs[p].passed then s
      else (match s.pcbs[p].recv
            case TheServer => if s.slot == Some(p) then OnPendingFin(s, p, closeOk) else s
            case TheClient => if p in s.clients && s.kind == Tcp then Detach(s, p, closeOk) else s
            case Nobody => s.(pcbs := s.pcbs[p := Dead(s.pcbs[p], Closed)], orphans := s.orphans - {p}))
    case Error(p) => if IsLive(s, p) then Fail(s, p) else s
    case Poll(p, now) => if IsLive(s, p) && s.pcbs[p].poll == TheServer then OnPendingPoll(s, p, now) else s
    case Read(p, n) => if p in s.clients && p in s.pcbs then s.(clients := s.clients[p := ReadClient(s.clients[p], s.pcbs[p].wire, n)]) else s
    case Flush(p) => if p in s.clients && s.kind == Tcp then s.(clients := s.clients[p := Lose(s.clients[p])]) else s
    case ClientClose(p, closeOk) => if p in s.clients && p in s.pcbs then CloseClient(s, p, closeOk) else s
  }

  function Run(s: Sys, events: seq<Event>): Sys {
    if events == [] then s else Step(Run(s, events[..|events| - 1]), events[|events| - 1])
  }

  function Start(kind: Kind, timeout: nat): Sys {
    Sys(kind, timeout, false, None, false, 0, map[], map[], {})
  }

  // ----- ownership -----

  ghost predicate Attached(s: Sys, p: nat) {
    p in s.clients && s.clients[p].attached
  }

  /** A live pcb's argument and callbacks all belong to the same owner, and that owner holds it. */
  ghost predicate PcbOk(s: Sys, p: nat)
    requires p in s.pcbs
  {
    var q := s.pcbs[p];
    && q == Hook(q, q.arg)
    && q.passed <= q.came <= |q.wire|
    && (q.life != Live ==> q.arg == Nobody)
    && (q.arg == TheServer <==> s.slot == Some(p))
    && (q.arg == TheClient <==> Attached(s, p))
    && (p in s.orphans <==> q.life == Live && q.arg == Nobody)
    && (q.arg == TheServer ==> q.passed == 0 && p !in s.clients)
  }

  ghost predicate ClientOk(s: Sys, p: nat)
    requires p in s.clients
  {
    var c := s.clients[p];
    && p in s.pcbs
    && c.taken <= c.arrived <= s.pcbs[p].passed <= |s.pcbs[p].wire|
    && (c.attached || c.drops == 0 ==> c.arrived == s.pcbs[p].passed)
    && (c.attached || s.pcbs[p].life != Live || c.drops > 0)
    && (c.drops == 0 ==> c.got == s.pcbs[p].wire[..c.taken])
  }

  ghost predicate Inv(s: Sys) {
    && (s.hasClient <==> s.slot.Some?)
    && (s.slot.Some? ==> s.slot.value in s.pcbs)
    && (forall p | p in s.pcbs :: PcbOk(s, p))
    && (forall p | p in s.clients :: ClientOk(s, p))
    && (forall p | p in s.orphans :: p in s.pcbs)
  }

  /** What changes at most the pcb and client `p` keeps the invariant if it does so at `p`. */
  lemma Local(s: Sys, t: Sys, p: nat)
    requires Inv(s)
    requires t.pcbs.Keys == s.pcbs.Keys + {p} && t.clients.Keys <= s.clients.Keys + {p} && s.clients.Keys <= t.clients.Keys
    requires forall q | q in s.pcbs && q != p :: t.pcbs[q] == s.pcbs[q]
    requires forall q | q in s.clients && q != p :: t.clients[q] == s.clients[q]
    requires forall q | q != p :: q in t.orphans <==> q in s.orphans
    requires forall q | q != p :: t.slot == Some(q) <==> s.slot == Some(q)
    requires t.hasClient <==> t.slot.Some?
    requires PcbOk(t, p) && (p in t.clients ==> ClientOk(t, p))
    ensures Inv(t)
  {
    forall q | q in t.pcbs ensures PcbOk(t, q) {
      if q != p { assert PcbOk(s, q); }
    }
    forall q | q in t.clients ensures ClientOk(t, q) {
      if q != p { assert ClientOk(s, q); }
    }
  }

  lemma CloseInv(s: Sys, closeOk: bool, ok: bool)
    requires Inv(s)
    ensures Inv(CloseServer(s, closeOk)) && Inv(BeginServer(s, ok, closeOk))
  {
    if s.slot.Some? {
      assert PcbOk(s, s.slot.value);
      Local(s, CloseServer(s, closeOk), s.slot.value);
      Local(s, BeginServer(s, ok, closeOk), s.slot.value);
    } else {
      forall q | q in s.pcbs ensures PcbOk(CloseServer(s, closeOk), q) && PcbOk(BeginServer(s, ok, closeOk), q) { assert PcbOk(s, q); }
      forall q | q in s.clients ensures ClientOk(CloseServer(s, closeOk), q) && ClientOk(BeginServer(s, ok, closeOk), q) { assert ClientOk(s, q); }
    }
  }

  lemma EndInv(s: Sys, p: nat, life: Life)
    requires Inv(s) && s.slot == Some(p) && p in s.pcbs && life != Live
    ensures Inv(End(s, p, life))
  {
    assert PcbOk(s, p);
    Local(s, End(s, p, life), p);
  }

  lemma LetGoInv(s: Sys, p: nat)
    requires Inv(s) && s.slot == Some(p) && p in s.pcbs
    ensures Inv(LetGo(s, p))
  {
    assert PcbOk(s, p);
    Local(s, LetGo(s, p), p);
  }

  lemma HandOverInv(s: Sys, p: nat)
    requires Inv(s) && s.slot == Some(p) && p in s.pcbs
    ensures Inv(HandOver(s, p))
  {
    assert PcbOk(s, p);
    Local(s, HandOver(s, p), p);
  }

  lemma OnAcceptInv(s: Sys, p: nat, wire: seq<byte>, now: nat)
    requires Inv(s)
    ensures Inv(OnAccept(s, p, wire, now))
  {
    if s.listening && p !in s.pcbs {
      var t := if s.slot.Some? then End(s, s.slot.value, Aborted) else s;
      if s.slot.Some? {
        EndInv(s, s.slot.value, Aborted);
      }
      forall q | q in s.clients ensures q in s.pcbs { assert ClientOk(s, q); }
      Local(t, OnAccept(s, p, wire, now), p);
    }
  }

  lemma AcceptInv(s: Sys, outcome: Outcome)
    requires Inv(s)
    ensures Inv(Accept(s, outcome))
  {
    if s.slot.Some? && s.slot.value in s.pcbs {
      EndInv(s, s.slot.value, Aborted);
      EndInv(s, s.slot.value, Closed);
      LetGoInv(s, s.slot.value);
      HandOverInv(s, s.slot.value);
      hide Inv, End, LetGo, HandOver;
    }
  }

  lemma DeliverInv(s: Sys, p: nat, came: nat, upto: nat)
    requires Inv(s) && p in s.pcbs && s.pcbs[p].life == Live && s.pcbs[p].came <= came <= |s.pcbs[p].wire|
    requires s.pcbs[p].passed <= upto <= came
    ensures Inv(Deliver(s, p, came, upto))
  {
    assert PcbOk(s, p);
    assert p in s.clients ==> ClientOk(s, p);
    Local(s, Deliver(s, p, came, upto), p);
  }

  lemma DetachInv(s: Sys, p: nat, closeOk: bool)
    requires Inv(s) && Attached(s, p) && p in s.pcbs
    ensures Inv(Detach(s, p, closeOk))
  {
    assert ClientOk(s, p) && PcbOk(s, p);
    Local(s, Detach(s, p, closeOk), p);
  }

  lemma ForgottenInv(s: Sys, p: nat)
    requires Inv(s) && p in s.pcbs && s.pcbs[p].arg == Nobody
    ensures Inv(s.(pcbs := s.pcbs[p := Dead(s.pcbs[p], if s.pcbs[p].life == Live then Closed else s.pcbs[p].life)], orphans := s.orphans - {p}))
  {
    assert PcbOk(s, p);
    assert p in s.clients ==> ClientOk(s, p);
    Local(s, s.(pcbs := s.pcbs[p := Dead(s.pcbs[p], if s.pcbs[p].life == Live then Closed else s.pcbs[p].life)], orphans := s.orphans - {p}), p);
  }

  lemma FinInv(s: Sys, p: nat, closeOk: bool)
    requires Inv(s)
    ensures Inv(Step(s, Fin(p, closeOk)))
  {
    if IsLive(s, p) && s.pcbs[p].came == s.pcbs[p].passed {
      assert PcbOk(s, p);
      match s.pcbs[p].recv
      case TheServer =>
        EndInv(s, p, Closed);
        LetGoInv(s, p);
      case TheClient => if s.kind == Tcp { DetachInv(s, p, closeOk); }
      case Nobody => ForgottenInv(s, p);
    }
  }

  lemma FailInv(s: Sys, p: nat)
    requires Inv(s) && p in s.pcbs && s.pcbs[p].life == Live
    ensures Inv(Fail(s, p))
  {
    assert PcbOk(s, p);
    assert p in s.clients ==> ClientOk(s, p);
    Local(s, Fail(s, p), p);
  }

  lemma PollInv(s: Sys, p: nat, now: nat)
    requires Inv(s) && p in s.pcbs
    ensures Inv(OnPendingPoll(s, p, now))
  {
    if s.slot == Some(p) {
      EndInv(s, p, Aborted);
    }
  }

  lemma ReadInv(s: Sys, p: nat, n: nat)
    requires Inv(s)
    ensures Inv(Step(s, Read(p, n)))
  {
    if p in s.clients {
      assert ClientOk(s, p) && PcbOk(s, p);
      var c, wire := s.clients[p], s.pcbs[p].wire;
      var k := ReadClient(c, wire, n).taken - c.taken;
      assert wire[..c.taken] + wire[c.taken..c.taken + k] == wire[..c.taken + k];
      hide Inv;
      Local(s, Step(s, Read(p, n)), p);
    }
  }

  lemma LoseInv(s: Sys, p: nat)
    requires Inv(s) && p in s.clients
    ensures Inv(s.(clients := s.clients[p := Lose(s.clients[p])]))
  {
    assert ClientOk(s, p) && PcbOk(s, p);
    Local(s, s.(clients := s.clients[p := Lose(s.clients[p])]), p);
  }

  lemma ClientCloseInv(s: Sys, p: nat, closeOk: bool)
    requires Inv(s) && p in s.clients && p in s.pcbs
    ensures Inv(CloseClient(s, p, closeOk))
  {
    hide Inv;
    ClosedHere(s, p, closeOk);
    hide PcbOk, ClientOk, Dead, Hook;
    Local(s, CloseClient(s, p, closeOk), p);
  }

  lemma ClosedHere(s: Sys, p: nat, closeOk: bool)
    requires Inv(s) && p in s.clients && p in s.pcbs
    ensures var t := CloseClient(s, p, closeOk);
      PcbOk(t, p) && ClientOk(t, p) && (t.hasClient <==> t.slot.Some?)
  {
    assert ClientOk(s, p) && PcbOk(s, p);
    hide Inv;
  }

  lemma SegmentInv(s: Sys, p: nat, n: nat)
    requires Inv(s)
    ensures Inv(Step(s, Segment(p, n)))
  {
    hide Inv;
    if IsLive(s, p) && s.pcbs[p].came == s.pcbs[p].passed && s.pcbs[p].came + n <= |s.pcbs[p].wire| {
      DeliverInv(s, p, s.pcbs[p].came + n, s.pcbs[p].came + n);
    }
  }

  lemma Bounds(s: Sys, p: nat)
    requires Inv(s) && p in s.pcbs
    ensures s.pcbs[p].passed <= s.pcbs[p].came <= |s.pcbs[p].wire|
  {
    assert PcbOk(s, p);
  }

  lemma RedeliverInv(s: Sys, p: nat, n: nat)
    requires Inv(s)
    ensures Inv(Step(s, Redeliver(p, n)))
  {
    hide Inv, Deliver;
    if IsLive(s, p) && s.pcbs[p].passed + n <= s.pcbs[p].came {
      Bounds(s, p);
      DeliverInv(s, p, s.pcbs[p].came, s.pcbs[p].passed + n);
    }
  }

  /** Every step keeps ownership exact and every stream in order. */
  lemma StepInv(s: Sys, e: Event)
    requires Inv(s)
    ensures Inv(Step(s, e))
  {
    hide Inv;
    match e
    case Begin(ok, closeOk) => CloseInv(s, closeOk, ok);
    case Close(closeOk) => CloseInv(s, closeOk, true);
    case Accepted(p, wire, now) => OnAcceptInv(s, p, wire, now);
    case UserAccept(outcome) => AcceptInv(s, outcome);
    case Segment(p, n) => SegmentInv(s, p, n);
    case Redeliver(p, n) => RedeliverInv(s, p, n);
    case Fin(p, closeOk) => FinInv(s, p, closeOk);
    case Error(p) => if IsLive(s, p) { FailInv(s, p); }
    case Poll(p, now) => if IsLive(s, p) { PollInv(s, p, now); }
    case Read(p, n) => ReadInv(s, p, n);
    case Flush(p) => if p in s.clients { LoseInv(s, p); }
    case ClientClose(p, closeOk) => if p in s.clients && p in s.pcbs { ClientCloseInv(s, p, closeOk); }
  }

  lemma {:induction false} RunInv(kind: Kind, timeout: nat, events: seq<Event>)
    ensures Inv(Run(Start(kind, timeout), events))
  {
    if events != [] {
      RunInv(kind, timeout, events[..|events| - 1]);
      StepInv(Run(Start(kind, timeout), events[..|events| - 1]), events[|events| - 1]);
    }
  }

  // ----- what every run guarantees -----

  function One(b: bool): nat {
    if b then 1 else 0
  }

  /** In every run a pcb that was accepted is in exactly one place, or has come to exactly one end. */
  lemma OneFate(kind: Kind, timeout: nat, events: seq<Event>, p: nat)
    ensures var s := Run(Start(kind, timeout), events);
      p in s.pcbs ==>
        One(s.slot == Some(p)) + One(Attached(s, p)) + One(p in s.orphans)
        + One(s.pcbs[p].life == Closed) + One(s.pcbs[p].life == Aborted) + One(s.pcbs[p].life == Freed) == 1
  {
    RunInv(kind, timeout, events);
    var s := Run(Start(kind, timeout), events);
    if p in s.pcbs { assert PcbOk(s, p); }
  }

  /** The ways the code lets go of a live pcb: three times it does not look whether lwIP could close it. */
  ghost predicate LetsGo(s: Sys, e: Event, p: nat) {
    || (s.slot == Some(p) && p in s.pcbs
        && (|| e == UserAccept(if s.kind == Tcp then NoMemory else SetupFails(false))
            || (e == Fin(p, false) && s.pcbs[p].came == s.pcbs[p].passed)))
    || (Attached(s, p) && s.kind == Tls && e == ClientClose(p, false))
  }

  /** What the invariant says about who holds a pcb. */
  lemma Holder(s: Sys, p: nat)
    requires Inv(s)
    ensures (s.hasClient <==> s.slot.Some?) && (s.slot.Some? ==> s.slot.value in s.pcbs)
    ensures p in s.pcbs ==>
      && s.pcbs[p].recv == s.pcbs[p].arg == s.pcbs[p].err
      && (s.pcbs[p].arg == TheServer <==> s.slot == Some(p)) && (s.pcbs[p].arg == TheClient <==> Attached(s, p))
      && (s.pcbs[p].arg != Nobody ==> s.pcbs[p].life == Live && p !in s.orphans)
    ensures p in s.clients ==> p in s.pcbs && s.slot != Some(p)
  {
    assert p in s.pcbs ==> PcbOk(s, p);
    assert p in s.clients ==> ClientOk(s, p);
  }

  lemma OrphanedExactly(s: Sys, e: Event, p: nat)
    requires Inv(s) && p !in s.orphans
    ensures p in Step(s, e).orphans <==> LetsGo(s, e, p)
  {
    hide Inv, Hook, Dead;
    Holder(s, p);
    if e.Fin? {
      Holder(s, e.p);
    }
  }

  /** An ended connection stays ended, in the way it ended. */
  lemma Final(s: Sys, e: Event, p: nat)
    requires Inv(s) && p in s.pcbs && s.pcbs[p].life != Live
    ensures p in Step(s, e).pcbs && Step(s, e).pcbs[p].life == s.pcbs[p].life
  {
    hide Inv, Hook, ReadClient, Lose;
    Holder(s, p);
  }

  /** A callback for one connection never disturbs another one in the slot, though it does not check. */
  lemma SlotUndisturbed(s: Sys, e: Event)
    requires Inv(s) && (e.Segment? || e.Redeliver? || e.Fin? || e.Error? || e.Poll?)
    requires s.slot != Some(e.p)
    ensures var t := Step(s, e); t.slot == s.slot && t.hasClient == s.hasClient && t.since == s.since
  {
    hide Inv, Hook, Dead;
    Holder(s, e.p);
  }

  /**
    End to end, for every run: what a client has passed on is the start of what its peer sent, unless an
    error, a flush or a close discarded bytes; and what lwIP took from the peer is what was passed on,
    what the client holds, and what a callback refused.
   */
  lemma Stream(kind: Kind, timeout: nat, events: seq<Event>, p: nat)
    ensures var s := Run(Start(kind, timeout), events);
      p in s.clients ==>
        && p in s.pcbs
        && var c, q := s.clients[p], s.pcbs[p];
        && c.taken <= c.arrived <= q.came <= |q.wire|
        && (c.drops == 0 ==> q.wire[..q.came] == c.got + q.wire[c.taken..c.arrived] + q.wire[c.arrived..q.came])
  {
    RunInv(kind, timeout, events);
    var s := Run(Start(kind, timeout), events);
    if p in s.clients {
      assert ClientOk(s, p) && PcbOk(s, p);
      hide Run, Inv;
      var c, q := s.clients[p], s.pcbs[p];
      Split(q.wire, c.taken, c.arrived, q.came);
    }
  }

  lemma Split(wire: seq<byte>, a: nat, b: nat, c: nat)
    requires a <= b <= c <= |wire|
    ensures wire[..c] == wire[..a] + wire[a..b] + wire[b..c]
  {
  }

  /** Only a close of the client itself makes it lose bytes, or an error or a flush of a TCP client. */
  lemma DropsOnly(s: Sys, e: Event, p: nat)
    requires Inv(s) && p in s.clients
    ensures p in Step(s, e).clients
    ensures ((e.ClientClose? || (s.kind == Tcp && (e.Error? || e.Flush?))) && e.p == p) || Step(s, e).clients[p].drops == s.clients[p].drops
  {
    hide Inv, Hook, Dead;
    Holder(s, p);
  }

  /** Bytes refused while the connection was pending all reach the client once it is accepted. */
  lemma RefusedThenDelivered(s: Sys, p: nat)
    requires Inv(s) && s.slot == Some(p)
    ensures p in s.pcbs
    ensures var t := Step(Step(s, UserAccept(Works)), Redeliver(p, s.pcbs[p].came));
      p in t.clients && t.clients[p].arrived == s.pcbs[p].came && t.clients[p].taken == 0
  {
    assert PcbOk(s, p);
  }

  /** After an orderly close everything lwIP took can still be read, and is the whole of it. */
  lemma ReadableAfterFin(s: Sys, p: nat, closeOk: bool, n: nat)
    requires Inv(s) && s.kind == Tcp && Attached(s, p) && p in s.pcbs && s.pcbs[p].came == s.pcbs[p].passed
    ensures var t := Step(s, Fin(p, closeOk));
      && !Attached(t, p) && p in t.clients && t.clients[p].drops == s.clients[p].drops
      && var u := Step(t, Read(p, n));
      && (s.clients[p].drops == 0 && s.clients[p].taken + n >= s.pcbs[p].came ==>
            p in u.clients && u.clients[p].got == s.pcbs[p].wire[..s.pcbs[p].came])
  {
    assert ClientOk(s, p);
    hide Inv, Step, PcbOk, Only;
    ClientSeesClose(s, p, closeOk);
    StepInv(s, Fin(p, closeOk));
    ClientReads(Step(s, Fin(p, closeOk)), p, n);
    var c, wire := s.clients[p], s.pcbs[p].wire;
    assert wire[..c.taken] + wire[c.taken..c.arrived] == wire[..c.arrived];
  }

  /** A connection arrives and there is no memory for its client: nobody can ever close it. */
  lemma OrphanExample(wire: seq<byte>)
    ensures 0 in Run(Start(Tcp, 0), [Begin(true, true), Accepted(0, wire, 0), UserAccept(NoMemory)]).orphans
  {
    var a, b, c := Begin(true, true), Accepted(0, wire, 0), UserAccept(NoMemory);
    assert [a, b, c][..2] == [a, b] && [a, b][..1] == [a] && [a][..0] == [];
    var s := Step(Step(Start(Tcp, 0), a), b);
    assert s.slot == Some(0) && s.hasClient;
    assert Run(Start(Tcp, 0), [a]) == Step(Start(Tcp, 0), a);
    assert Run(Start(Tcp, 0), [a, b]) == s;
    hide Step;
    assert Run(Start(Tcp, 0), [a, b, c]) == Step(s, c);
  }

  // ----- what each event does -----

  /** Nothing but connection `p` and the slot has changed. */
  ghost predicate Only(s: Sys, t: Sys, p: nat) {
    && t.kind == s.kind && t.timeout == s.timeout
    && (forall r | r in s.pcbs && r != p :: r in t.pcbs && t.pcbs[r] == s.pcbs[r])
    && (forall r | r in s.clients && r != p :: r in t.clients && t.clients[r] == s.clients[r])
    && (forall r | r != p :: r in t.orphans <==> r in s.orphans)
  }

  /** The slot is free, and the connection that was in it has come to this end. */
  ghost predicate Vacated(s: Sys, t: Sys, p: nat, life: Life) {
    t.slot == None && !t.hasClient && p in t.pcbs && t.pcbs[p].life == life && p !in t.clients && Only(s, t, p)
  }

  /** The newest connection gets the slot, with nothing of its stream taken; the one before it is aborted. */
  lemma NewestWins(s: Sys, p: nat, wire: seq<byte>, now: nat)
    requires Inv(s) && p !in s.pcbs
    ensures var t := Step(s, Accepted(p, wire, now));
      if !s.listening then t == s else
      && t.slot == Some(p) && t.hasClient && t.since == now && t.listening && t.clients == s.clients
      && IsLive(t, p) && t.pcbs[p].wire == wire && t.pcbs[p].came == t.pcbs[p].passed == 0 && t.pcbs[p].recv == TheServer
      && (s.slot.Some? ==> s.slot.value in t.pcbs && t.pcbs[s.slot.value].life == Aborted)
      && forall r | r in s.pcbs && s.slot != Some(r) :: r in t.pcbs && t.pcbs[r] == s.pcbs[r]
  {
    hide Inv;
    Holder(s, if s.slot.Some? then s.slot.value else p);
  }

  /** The timer aborts the pending connection if and only if a time is set and more of it has passed, modulo 2^32. */
  lemma Expires(s: Sys, p: nat, now: nat)
    requires Inv(s)
    ensures var t := Step(s, Poll(p, now));
      if s.slot == Some(p) && s.timeout > 0 && (now - s.since) % 0x1_0000_0000 > s.timeout
      then Vacated(s, t, p, Aborted) && t.listening == s.listening
      else t == s
  {
    hide Inv, Hook;
    Holder(s, p);
    if s.slot == Some(p) {
      Hooked(s, p);
    }
  }

  /** All callbacks of the pending connection are the server's. */
  lemma Hooked(s: Sys, p: nat)
    requires Inv(s) && s.slot == Some(p)
    ensures s.hasClient && p in s.pcbs && IsLive(s, p) && p !in s.clients
    ensures var q := s.pcbs[p]; q.arg == q.recv == q.err == q.poll == TheServer && q.passed == 0
  {
    assert PcbOk(s, p);
  }

  /** `close` stops listening and ends the pending connection, by an abort where it cannot be closed. */
  lemma ServerCloses(s: Sys, closeOk: bool)
    requires Inv(s)
    ensures var t := Step(s, Close(closeOk));
      && !t.listening && t.slot == None && !t.hasClient && t.clients == s.clients
      && (s.slot.Some? ==> Vacated(s, t, s.slot.value, if closeOk then Closed else Aborted))
      && (s.slot.None? ==> t.pcbs == s.pcbs)
  {
    hide Inv;
    if s.slot.Some? {
      Hooked(s, s.slot.value);
    }
  }

  /** `begin` does the same first, and listens if and only if it worked. */
  lemma ServerBegins(s: Sys, ok: bool, closeOk: bool)
    requires Inv(s)
    ensures var t, c := Step(s, Begin(ok, closeOk)), Step(s, Close(closeOk));
      t.listening == ok && t == c.(listening := ok)
  {
  }

  /** `accept` gives the pending connection to a client that has read nothing and lost nothing. */
  lemma HandsOut(s: Sys, p: nat, outcome: Outcome)
    requires Inv(s) && s.slot == Some(p) && (outcome == Works || (s.kind == Tcp && outcome.SetupFails?))
    ensures var t := Step(s, UserAccept(outcome));
      && t.slot == None && !t.hasClient && t.since == 0 && Only(s, t, p) && t.orphans == s.orphans
      && p in t.clients && t.clients[p] == Client(true, 0, 0, 0, [])
      && IsLive(t, p) && t.pcbs[p].recv == t.pcbs[p].err == TheClient && t.pcbs[p].poll == Nobody
      && p in s.pcbs && t.pcbs[p].came == s.pcbs[p].came && t.pcbs[p].wire == s.pcbs[p].wire && t.pcbs[p].passed == 0
  {
    hide Inv;
    Hooked(s, p);
  }

  /** Where it cannot, there is no client, and the connection ends, or is let go live. */
  lemma CannotHandOut(s: Sys, p: nat, outcome: Outcome)
    requires Inv(s) && s.slot == Some(p) && !(outcome == Works || (s.kind == Tcp && outcome.SetupFails?))
    ensures var t := Step(s, UserAccept(outcome));
      && t.clients == s.clients
      && (s.kind == Tls && outcome == NoMemory ==> Vacated(s, t, p, Aborted) && p !in t.orphans)
      && (s.kind == Tls && outcome == SetupFails(true) ==> Vacated(s, t, p, Closed) && p !in t.orphans)
      && (s.kind == Tls && outcome == SetupFails(false) ==> Vacated(s, t, p, Live) && p in t.orphans)
      && (s.kind == Tcp && outcome == NoMemory ==> Vacated(s, t, p, Live) && p in t.orphans)
  {
    hide Inv;
    Hooked(s, p);
    Holder(s, p);
  }

  /** Without a pending connection there is nothing to accept. */
  lemma NothingToAccept(s: Sys, outcome: Outcome)
    requires Inv(s) && s.slot == None
    ensures Step(s, UserAccept(outcome)) == s
  {
  }

  /** While pending, data is taken by lwIP and refused; more comes only when none is refused. */
  lemma RefusedWhilePending(s: Sys, p: nat, n: nat)
    requires Inv(s) && s.slot == Some(p)
    ensures p in s.pcbs
    ensures var t, q := Step(s, Segment(p, n)), s.pcbs[p];
      && t.slot == s.slot && t.clients == s.clients && Only(s, t, p)
      && p in t.pcbs && t.pcbs[p] == q.(came := if q.came == 0 && n <= |q.wire| then n else q.came)
    ensures Step(s, Redeliver(p, n)) == s
  {
    hide Inv;
    Hooked(s, p);
  }

  /** The peer's close ends the pending connection, but only behind its data. */
  lemma PendingEnds(s: Sys, p: nat, closeOk: bool)
    requires Inv(s) && s.slot == Some(p)
    ensures p in s.pcbs
    ensures var t := Step(s, Fin(p, closeOk));
      if s.pcbs[p].came > 0 then t == s
      else Vacated(s, t, p, if closeOk then Closed else Live) && (p in t.orphans <==> !closeOk)
  {
    hide Inv;
    Hooked(s, p);
    Holder(s, p);
    Bounds(s, p);
  }

  /** An error frees the pending connection, and the server forgets it. */
  lemma PendingFails(s: Sys, p: nat)
    requires Inv(s) && s.slot == Some(p)
    ensures Vacated(s, Step(s, Error(p)), p, Freed)
  {
    hide Inv, Hook;
    Hooked(s, p);
  }

  /** A client gets what lwIP passes on, behind what it has; new data only when none is refused. */
  lemma ClientReceives(s: Sys, p: nat, n: nat)
    requires Inv(s) && Attached(s, p)
    ensures p in s.pcbs
    ensures var t, c, q := Step(s, Segment(p, n)), s.clients[p], s.pcbs[p];
      if q.came != q.passed || q.came + n > |q.wire| then t == s
      else Passed(s, t, p, n) && p in t.pcbs && t.pcbs[p] == q.(came := q.came + n, passed := q.passed + n)
  {
    hide Inv, Hook;
    Holder(s, p);
  }

  /** The client `p` has `n` more bytes. */
  ghost predicate Passed(s: Sys, t: Sys, p: nat, n: nat) {
    Only(s, t, p) && t.slot == s.slot && p in s.clients && p in t.clients && t.clients[p] == s.clients[p].(arrived := s.clients[p].arrived + n)
  }

  /** What was refused is passed on again, as much as lwIP offers of it. */
  lemma ClientReceivesRefused(s: Sys, p: nat, n: nat)
    requires Inv(s) && Attached(s, p)
    ensures p in s.pcbs
    ensures var t, c, q := Step(s, Redeliver(p, n)), s.clients[p], s.pcbs[p];
      if n > q.came - q.passed then t == s
      else Passed(s, t, p, n) && p in t.pcbs && t.pcbs[p] == q.(passed := q.passed + n)
  {
    hide Inv, Hook;
    Holder(s, p);
  }

  /** The peer's close detaches a TCP client and leaves it all it holds; a TLS client does not notice. */
  lemma ClientSeesClose(s: Sys, p: nat, closeOk: bool)
    requires Inv(s) && Attached(s, p)
    ensures p in s.pcbs
    ensures var t, q := Step(s, Fin(p, closeOk)), s.pcbs[p];
      if s.kind == Tls || q.came != q.passed then t == s
      else
        && Only(s, t, p) && p in t.clients && p in t.pcbs && p !in t.orphans
        && t.clients[p] == s.clients[p].(attached := false) && t.pcbs[p].life == (if closeOk then Closed else Aborted)
        && t.pcbs[p].wire == q.wire && t.pcbs[p].came == t.pcbs[p].passed == q.came
  {
    hide Inv;
    Holder(s, p);
  }

  /** An error detaches a client; a TCP client loses what it holds, a TLS client keeps it. */
  lemma ClientSeesError(s: Sys, p: nat)
    requires Inv(s) && Attached(s, p)
    ensures var t, c := Step(s, Error(p)), s.clients[p];
      && Only(s, t, p) && p in t.clients && p in t.pcbs && t.pcbs[p].life == Freed && t.slot == s.slot
      && t.clients[p] == Client(false, c.arrived, if s.kind == Tcp then c.arrived else c.taken, if s.kind == Tcp then c.drops + 1 else c.drops, c.got)
  {
    hide Inv;
    Holder(s, p);
  }

  /** A client passes on the next bytes it holds, as many as are asked for and there. */
  lemma ClientReads(s: Sys, p: nat, n: nat)
    requires Inv(s) && p in s.clients
    ensures p in s.pcbs
    ensures var t, c := Step(s, Read(p, n)), s.clients[p];
      var k := if n <= c.arrived - c.taken then n else c.arrived - c.taken;
      && 0 <= k && c.taken + k <= |s.pcbs[p].wire| && t.pcbs == s.pcbs && t.slot == s.slot && Only(s, t, p) && p in t.clients
      && t.clients[p] == c.(taken := c.taken + k, got := c.got + s.pcbs[p].wire[c.taken..c.taken + k])
  {
    assert ClientOk(s, p);
    hide Inv;
  }

  /** `flush` of a TCP client discards what it holds. */
  lemma ClientFlushes(s: Sys, p: nat)
    requires Inv(s) && p in s.clients
    ensures var t, c := Step(s, Flush(p)), s.clients[p];
      if s.kind == Tls then t == s
      else t.pcbs == s.pcbs && Only(s, t, p) && p in t.clients && t.clients[p] == c.(taken := c.arrived, drops := c.drops + 1)
  {
    hide Inv;
  }

  /** `close` of a client discards what it holds and gives up its pcb: closed, else aborted by TCP and let go by TLS. */
  lemma ClientCloses(s: Sys, p: nat, closeOk: bool)
    requires Inv(s) && p in s.clients
    ensures var t, c := Step(s, ClientClose(p, closeOk)), s.clients[p];
      && Only(s, t, p) && p in t.clients && t.clients[p] == c.(taken := c.arrived, drops := c.drops + 1, attached := false)
      && p in t.pcbs
      && (!c.attached ==> t.pcbs == s.pcbs)
      && (c.attached ==> t.pcbs[p].recv == Nobody && t.pcbs[p].life == if closeOk then Closed else if s.kind == Tcp then Aborted else Live)
  {
    hide Inv, PcbOk, ClientOk;
    Holder(s, p);
  }
}
