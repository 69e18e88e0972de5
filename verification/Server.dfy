/**
  The server object itself, statement by statement, on top of lwIP's calls.  Every `tcp_*` call demands
  a live pcb, and `tcp_abort` one whose error callback is off, since lwIP would call it; so that these
  methods verify says that the server never touches a connection that is gone, provided that no callback
  runs in the middle of `begin`, `close` or `accept`, which have no critical section.  Each method is
  proved to make exactly the step of the state machine in `PendingSlot`, which keeps the invariant.
 */
module Servers {
  import opened Options
  import opened Pbufs
  import opened PendingSlot

  datatype Err = ErrOk | ErrMem | ErrAbrt

  class Server {
    const kind: Kind
    const timeout: nat
    var serverPcb: bool
    var clientPcb: Option<nat>
    var hasClient: bool
    var pendingSince: nat
    var pcbs: map<nat, Pcb>          // lwIP's connections
    var clients: map<nat, Client>    // the client objects handed out
    ghost var orphans: set<nat>

    ghost function State(): Sys
      reads this
    {
      Sys(kind, timeout, serverPcb, clientPcb, hasClient, pendingSince, pcbs, clients, orphans)
    }

    constructor (kind: Kind, timeout: nat)
      ensures State() == Start(kind, timeout)
    {
      this.kind, this.timeout, serverPcb := kind, timeout, false;
      clientPcb, hasClient, pendingSince, pcbs, clients, orphans := None, false, 0, map[], map[], {};
    }

    // ----- lwIP -----

    predicate Usable(p: nat)
      reads this
    {
      p in pcbs && pcbs[p].life == Live
    }

    method TcpArg(p: nat, o: Owner)
      requires Usable(p)
      modifies this`pcbs
      ensures pcbs == old(pcbs)[p := old(pcbs)[p].(arg := o)]
    {
      pcbs := pcbs[p := pcbs[p].(arg := o)];
    }

    method TcpRecv(p: nat, o: Owner)
      requires Usable(p)
      modifies this`pcbs
      ensures pcbs == old(pcbs)[p := old(pcbs)[p].(recv := o)]
    {
      pcbs := pcbs[p := pcbs[p].(recv := o)];
    }

    method TcpErr(p: nat, o: Owner)
      requires Usable(p)
      modifies this`pcbs
      ensures pcbs == old(pcbs)[p := old(pcbs)[p].(err := o)]
    {
      pcbs := pcbs[p := pcbs[p].(err := o)];
    }

    method TcpPoll(p: nat, o: Owner)
      requires Usable(p)
      modifies this`pcbs
      ensures pcbs == old(pcbs)[p := old(pcbs)[p].(poll := o)]
    {
      pcbs := pcbs[p := pcbs[p].(poll := o)];
    }

    method TcpClose(p: nat, ok: bool) returns (r: bool)
      requires Usable(p)
      modifies this`pcbs
      ensures r == ok
      ensures pcbs == if ok then old(pcbs)[p := old(pcbs)[p].(life := Closed)] else old(pcbs)
    {
      r := ok;
      if ok {
        pcbs := pcbs[p := pcbs[p].(life := Closed)];
      }
    }

    method TcpAbort(p: nat)
      requires Usable(p) && pcbs[p].err == Nobody
      modifies this`pcbs
      ensures pcbs == old(pcbs)[p := old(pcbs)[p].(life := Aborted)]
    {
      pcbs := pcbs[p := pcbs[p].(life := Aborted)];
    }

    /** The four calls that take a connection off its callbacks. */
    method Unhook(p: nat)
      requires Usable(p)
      modifies this`pcbs
      ensures pcbs == old(pcbs)[p := Hook(old(pcbs)[p], Nobody)]
    {
      TcpArg(p, Nobody);
      TcpRecv(p, Nobody);
      TcpErr(p, Nobody);
      TcpPoll(p, Nobody);
    }

    /** The calls that put a connection on the server's callbacks. */
    method HookPending(p: nat)
      requires Usable(p)
      modifies this`pcbs
      ensures pcbs == old(pcbs)[p := Hook(old(pcbs)[p], TheServer)]
    {
      TcpArg(p, TheServer);
      TcpErr(p, TheServer);
      TcpRecv(p, TheServer);
      TcpPoll(p, TheServer);
    }

    /** The client's constructor takes over a connection that is off the server's callbacks. */
    method HookClient(p: nat)
      requires Usable(p) && pcbs[p].poll == Nobody
      modifies this`pcbs
      ensures pcbs == old(pcbs)[p := Hook(old(pcbs)[p], TheClient)]
    {
      TcpArg(p, TheClient);
      TcpErr(p, TheClient);
      TcpRecv(p, TheClient);
    }

    lemma Pending()
      requires Inv(State())
      ensures hasClient <==> clientPcb.Some?
      ensures clientPcb.Some? ==>
        Usable(clientPcb.value) && pcbs[clientPcb.value].arg == TheServer && clientPcb.value !in clients
    {
      assert clientPcb.Some? ==> PcbOk(State(), clientPcb.value);
    }

    // ----- the server -----

    method CloseAll(closeOk: bool)
      requires Inv(State())
      modifies this
      ensures State() == CloseServer(old(State()), closeOk)
    {
      hide PendingSlot.Inv;
      if clientPcb.Some? {
        Pending();
        Unhook(clientPcb.value);
        var closed := TcpClose(clientPcb.value, closeOk);
        if !closed {
          TcpAbort(clientPcb.value);
        }
        clientPcb := None;
      }
      serverPcb := false;
      hasClient := false;
    }

    method Begin(ok: bool, closeOk: bool)
      requires Inv(State())
      modifies this
      ensures State() == BeginServer(old(State()), ok, closeOk)
    {
      CloseAll(closeOk);
      if ok {
        serverPcb := true;
        hasClient := false;
        clientPcb := None;
      }
    }

    /** lwIP has a new connection `p` on the listening port. */
    method Accepted(p: nat, wire: seq<byte>, now: nat) returns (e: Err)
      requires Inv(State()) && serverPcb && p !in pcbs
      modifies this
      ensures e == ErrOk && State() == OnAccept(old(State()), p, wire, now)
      ensures clientPcb == Some(p) && hasClient && pendingSince == now && Usable(p) && pcbs[p].recv == TheServer
      ensures old(clientPcb).Some? ==> old(clientPcb).value in pcbs && pcbs[old(clientPcb).value].life == Aborted
    {
      hide PendingSlot.Inv;
      if clientPcb.Some? {
        Pending();
        var displaced := clientPcb.value;
        clientPcb := None;
        hasClient := false;
        pendingSince := 0;
        Unhook(displaced);
        TcpAbort(displaced);
      }
      pcbs := pcbs[p := Pcb(Live, Nobody, Nobody, Nobody, Nobody, wire, 0, 0)];
      clientPcb := Some(p);
      hasClient := true;
      pendingSince := now;
      HookPending(p);
      e := ErrOk;
    }

    /** The rest of `accept`, once the connection is off the slot and its callbacks. */
    method MakeClient(p: nat, outcome: Outcome) returns (client: Option<nat>)
      requires Usable(p) && pcbs[p] == Hook(pcbs[p], Nobody)
      modifies this`pcbs, this`clients, this`orphans
      ensures outcome == Works || (kind == Tcp && outcome.SetupFails?) ==>
        && client == Some(p) && orphans == old(orphans) && pcbs == old(pcbs)[p := Hook(old(pcbs)[p], TheClient)]
        && clients == old(clients)[p := Client(true, old(pcbs)[p].passed, old(pcbs)[p].passed, 0, [])]
      ensures kind == Tls && (outcome == NoMemory || outcome == SetupFails(true)) ==>
        && client == None && clients == old(clients) && orphans == old(orphans)
        && pcbs == old(pcbs)[p := old(pcbs)[p].(life := if outcome == NoMemory then Aborted else Closed)]
      ensures outcome == (if kind == Tcp then NoMemory else SetupFails(false)) ==>
        client == None && clients == old(clients) && pcbs == old(pcbs) && orphans == old(orphans) + {p}
    {
      client := None;
      if outcome == NoMemory {
        if kind == Tls {
          TcpAbort(p);
        } else {
          orphans := orphans + {p};
        }
      } else {
        HookClient(p);
        if kind == Tls && outcome.SetupFails? {
          // the client's destructor gives the connection back
          Unhook(p);
          var closed := TcpClose(p, outcome.closeOk);
          if !closed {
            orphans := orphans + {p};
          }
        } else {
          clients := clients[p := Client(true, pcbs[p].passed, pcbs[p].passed, 0, [])];
          client := Some(p);
        }
      }
    }

    /** `accept`; `client` is the connection whose client object the caller gets. */
    method TakeClient(outcome: Outcome) returns (client: Option<nat>)
      requires Inv(State())
      modifies this
      ensures State() == Accept(old(State()), outcome)
      ensures client == (if outcome == Works || (kind == Tcp && outcome.SetupFails?) then old(clientPcb) else None)
      ensures client.Some? ==> Attached(State(), client.value)
    {
      hide PendingSlot.Inv;
      Pending();
      client := None;
      if hasClient && clientPcb.Some? {
        var p := clientPcb.value;
        clientPcb := None;
        hasClient := false;
        pendingSince := 0;
        Unhook(p);
        client := MakeClient(p, outcome);
      }
    }

    /** lwIP frees a pending connection and calls `onPendingError`, which has only the server to go by. */
    method OnPendingError(p: nat)
      requires Inv(State()) && Usable(p) && pcbs[p].err == TheServer
      modifies this
      ensures State() == Fail(old(State()), p)
    {
      hide PendingSlot.Inv;
      Holder(State(), p);
      assert orphans - {p} == orphans;
      pcbs := pcbs[p := Dead(pcbs[p], Freed)];
      clientPcb := None;
      hasClient := false;
      pendingSince := 0;
    }

    /** `onPendingRecv`: `more` is the number of bytes offered, none for the peer's close. */
    method OnPendingRecv(p: nat, more: nat, closeOk: bool) returns (e: Err)
      requires Inv(State()) && Usable(p) && pcbs[p].recv == TheServer
      requires more == 0 ==> pcbs[p].came == pcbs[p].passed
      modifies this
      ensures more == 0 ==> e == ErrOk && State() == Step(old(State()), Fin(p, closeOk))
      ensures more > 0 ==> e == ErrMem && State() == old(State())
    {
      hide PendingSlot.Inv;
      Holder(State(), p);
      e := ErrMem;
      if more == 0 {
        if clientPcb == Some(p) {
          clientPcb := None;
          hasClient := false;
          pendingSince := 0;
        }
        Unhook(p);
        var closed := TcpClose(p, closeOk);
        if !closed {
          orphans := orphans + {p};
        }
        e := ErrOk;
      }
    }

    method PollPending(p: nat, now: nat) returns (e: Err)
      requires Inv(State()) && Usable(p) && pcbs[p].poll == TheServer
      modifies this
      ensures State() == OnPendingPoll(old(State()), p, now)
      ensures e == ErrAbrt <==> State().pcbs[p].life == Aborted
    {
      hide PendingSlot.Inv;
      Holder(State(), p);
      e := ErrOk;
      if clientPcb == Some(p) && timeout > 0 && (now - pendingSince) % U32 > timeout {
        clientPcb := None;
        hasClient := false;
        pendingSince := 0;
        Unhook(p);
        TcpAbort(p);
        e := ErrAbrt;
      }
    }
  }
}
