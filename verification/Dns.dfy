/**
  The name lookup of `connect`.  lwIP keeps the lookups it has accepted and may answer any of them at
  any yield, also long after the call that made it has given up.
 */
module Dns {
  import opened Options

  type Addr = nat

  type Refusal = e: int | -16 <= e < 0 witness -1

  const ERR_STATE := -19
  const DNS_FAILED := -602
  const LWIP_BASE := -4200

  /** What lwIP does during one yield: nothing, or an answer to one of its lookups. */
  datatype Poll = Quiet | Answer(index: nat, addr: Option<Addr>)

  /** What `dns_gethostbyname` says at once. */
  datatype Begin = Cached(addr: Addr) | InProgress | Rejected(err: Refusal)

  /** One call: the host, its value where it is a literal address, and how lwIP behaves until the timeout. */
  datatype Call = Call(host: string, literal: Option<Addr>, begin: Begin, polls: seq<Poll>)

  datatype Answered = Answered(host: string, addr: Option<Addr>)

  datatype Outcome = Outcome(code: int, target: Option<Addr>)

  /** The answer a lone lookup gets, if any. */
  function Reply(polls: seq<Poll>): Option<Option<Addr>> {
    if polls == [] then None
    else if polls[0].Answer? && polls[0].index == 0 then Some(polls[0].addr)
    else Reply(polls[1..])
  }

  predicate IsReply(p: Poll) {
    p.Answer? && p.index == 0
  }

  /** It is the first answer there is. */
  lemma {:induction false} FirstAnswer(polls: seq<Poll>)
    ensures Reply(polls).None? <==> forall i | 0 <= i < |polls| :: !IsReply(polls[i])
    ensures Reply(polls).Some? ==>
      exists i | 0 <= i < |polls| :: polls[i] == Answer(0, Reply(polls).value) && forall j | 0 <= j < i :: !IsReply(polls[j])
  {
    if polls != [] {
      var rest := polls[1..];
      FirstAnswer(rest);
      assert forall j | 0 < j < |polls| :: polls[j] == rest[j - 1];
      if !IsReply(polls[0]) && Reply(rest).Some? {
        var i :| 0 <= i < |rest| && rest[i] == Answer(0, Reply(rest).value) && forall j | 0 <= j < i :: !IsReply(rest[j]);
        assert polls[i + 1] == Answer(0, Reply(polls).value);
      } else if IsReply(polls[0]) {
        assert polls[0] == Answer(0, Reply(polls).value);
      }
    }
  }

  class Resolver {
    var addr: Addr
    var found: bool
    var inFlight: bool
    // lwIP's side: the hosts it still owes a callback
    var outstanding: seq<string>
    ghost var history: seq<Answered>

    /** Outside `connect`, a lookup is in flight if and only if exactly one callback is outstanding. */
    ghost predicate Valid()
      reads this
    {
      |outstanding| == if inFlight then 1 else 0
    }

    constructor ()
      ensures Valid() && !inFlight && history == []
    {
      addr, found, inFlight, outstanding, history := 0, false, false, [], [];
    }

    /** `onDnsFound`. */
    method OnDnsFound(answer: Option<Addr>)
      modifies this`addr, this`found, this`inFlight
      ensures !inFlight && (if answer.Some? then found && addr == answer.value else found == old(found) && addr == old(addr))
    {
      if answer.Some? {
        addr, found := answer.value, true;
      }
      inFlight := false;
    }

    /** lwIP runs. */
    method Yield(p: Poll)
      modifies this
      ensures if p.Answer? && p.index < |old(outstanding)| then
                && outstanding == old(outstanding)[..p.index] + old(outstanding)[p.index + 1..]
                && history == old(history) + [Answered(old(outstanding)[p.index], p.addr)]
                && !inFlight
                && (if p.addr.Some? then found && addr == p.addr.value else found == old(found) && addr == old(addr))
              else
                unchanged(this)
    {
      if p.Answer? && p.index < |outstanding| {
        history := history + [Answered(outstanding[p.index], p.addr)];
        outstanding := outstanding[..p.index] + outstanding[p.index + 1..];
        OnDnsFound(p.addr);
      }
    }

    /**
      The lookup in `connect`.  An address comes from a literal, from the cache, or from the answer lwIP
      gave to this very lookup while the call was waiting; never from an earlier one.
     */
    method Lookup(c: Call) returns (r: Outcome)
      requires Valid()
      modifies this
      ensures Valid()
      ensures r.code == 0 <==> r.target.Some?
      ensures c.literal.Some? ==> r.target == c.literal && unchanged(this)
      ensures c.literal.None? && old(inFlight) ==> r.code == ERR_STATE && unchanged(this)
      ensures c.literal.None? && !old(inFlight) ==>
        match c.begin
        case Cached(a) => r.target == Some(a) && !inFlight && history == old(history)
        case Rejected(e) => r.target.None? && !inFlight && history == old(history) && r.code == LWIP_BASE + e
        case InProgress =>
          var reply := Reply(c.polls);
          && (inFlight <==> reply.None?)
          && (reply.None? ==> r.code == DNS_FAILED && outstanding == [c.host] && history == old(history))
          && (reply.Some? ==> r.target == reply.value && history == old(history) + [Answered(c.host, reply.value)])
          && (r.target.None? ==> r.code == DNS_FAILED)
    {
      r := Outcome(0, c.literal);
      if c.literal.None? {
        if inFlight {
          return Outcome(ERR_STATE, None);
        }
        inFlight, found := true, false;
        match c.begin {
          case Cached(a) =>
            inFlight := false;
            r := Outcome(0, Some(a));
          case Rejected(e) =>
            inFlight := false;
            r := Outcome(LWIP_BASE + e, None);
          case InProgress =>
            outstanding := outstanding + [c.host];
            r := Await(c);
        }
      }
    }

    /** The waiting loop, and what is made of its end. */
    method Await(c: Call) returns (r: Outcome)
      requires inFlight && !found && outstanding == [c.host]
      modifies this
      ensures Valid()
      ensures var reply := Reply(c.polls);
        && r.target == (if reply.Some? then reply.value else None)
        && r.code == (if r.target.Some? then 0 else DNS_FAILED)
        && (inFlight <==> reply.None?)
        && outstanding == (if reply.None? then [c.host] else [])
        && history == if reply.None? then old(history) else old(history) + [Answered(c.host, reply.value)]
    {
      var i := 0;
      assert c.polls[0..] == c.polls;
      while inFlight && i < |c.polls|
        invariant 0 <= i <= |c.polls| && Valid()
        invariant inFlight ==> !found && outstanding == [c.host] && history == old(history) && Reply(c.polls) == Reply(c.polls[i..])
        invariant !inFlight ==>
          && Reply(c.polls).Some? && history == old(history) + [Answered(c.host, Reply(c.polls).value)]
          && found == Reply(c.polls).value.Some? && (found ==> addr == Reply(c.polls).value.value)
      {
        assert c.polls[i..][1..] == c.polls[i + 1..];
        Yield(c.polls[i]);
        i := i + 1;
      }
      if inFlight || !found {
        r := Outcome(DNS_FAILED, None);
      } else {
        r := Outcome(0, Some(addr));
      }
    }
  }

  /** What happens to a client over time: calls, and lwIP running between them. */
  datatype Action = Connect(call: Call) | Between(poll: Poll)

  /** The outcomes a client should see, from the host lwIP still owes an answer, if any. */
  function Expected(actions: seq<Action>, owed: Option<string>): seq<Outcome> {
    if actions == [] then [] else
      match actions[0]
      case Between(p) => Expected(actions[1..], if p.Answer? && p.index == 0 then None else owed)
      case Connect(c) =>
        if c.literal.Some? then [Outcome(0, c.literal)] + Expected(actions[1..], owed)
        else if owed.Some? then [Outcome(ERR_STATE, None)] + Expected(actions[1..], owed)
        else match c.begin
          case Cached(a) => [Outcome(0, Some(a))] + Expected(actions[1..], None)
          case Rejected(e) => [Outcome(LWIP_BASE + e, None)] + Expected(actions[1..], None)
          case InProgress =>
            var reply := Reply(c.polls);
            if reply.None? then [Outcome(DNS_FAILED, None)] + Expected(actions[1..], Some(c.host))
            else if reply.value.None? then [Outcome(DNS_FAILED, None)] + Expected(actions[1..], None)
            else [Outcome(0, reply.value)] + Expected(actions[1..], None)
  }

  /** The same, but for what lwIP answers between two calls. */
  ghost predicate SameButLate(a: seq<Action>, b: seq<Action>) {
    && |a| == |b|
    && forall i | 0 <= i < |a| :: a[i] == b[i] || (a[i].Between? && b[i].Between? && a[i].poll.Answer? && b[i].poll.Answer? && a[i].poll.index == b[i].poll.index)
  }

  /** What a late answer says makes no difference; that it comes ends the wait. */
  lemma {:induction false} LateAnswers(a: seq<Action>, b: seq<Action>, owed: Option<string>)
    requires SameButLate(a, b)
    ensures Expected(a, owed) == Expected(b, owed)
    decreases |a|
  {
    if a != [] {
      assert SameButLate(a[1..], b[1..]);
      match a[0] {
        case Between(p) =>
          LateAnswers(a[1..], b[1..], if IsReply(p) then None else owed);
        case Connect(c) =>
          LateAnswers(a[1..], b[1..], owed);
          LateAnswers(a[1..], b[1..], None);
          LateAnswers(a[1..], b[1..], Some(c.host));
      }
    }
  }

  /** Over every sequence of calls, timeouts and late callbacks no outcome depends on a late answer. */
  method Life(actions: seq<Action>) returns (client: Resolver, outcomes: seq<Outcome>)
    ensures client.Valid() && outcomes == Expected(actions, None)
  {
    client := new Resolver();
    outcomes := [];
    var i := 0;
    assert actions[0..] == actions;
    while i < |actions|
      invariant 0 <= i <= |actions| && client.Valid() && fresh(client)
      invariant Expected(actions, None) == outcomes + Expected(actions[i..], if client.inFlight then Some(client.outstanding[0]) else None)
    {
      assert actions[i..][1..] == actions[i + 1..];
      match actions[i] {
        case Between(p) => client.Yield(p);
        case Connect(c) =>
          var r := client.Lookup(c);
          ghost var rest := Expected(actions[i + 1..], if client.inFlight then Some(client.outstanding[0]) else None);
          assert outcomes + ([r] + rest) == (outcomes + [r]) + rest;
          outcomes := outcomes + [r];
      }
      i := i + 1;
    }
  }
}
