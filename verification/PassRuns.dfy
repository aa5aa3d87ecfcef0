/** The program's own poll loop as runs of the group chat. */
module PassRuns {
  import opened GroupServer
  import opened GroupSystem
  import opened GroupRuns
  import opened PollPass

  /** Every read of a pass is one a legal run allows at that point. */
  predicate PassLegal(s: Server, i: nat, input: Input)
    requires GameInvariant(s) && ListenerFirst(s) && input.newFd != s.listener && PassDefined(s, i, input)
    decreases ToVisit(|s.pfds|, i)
  {
    if i >= |s.pfds| then true
    else if !s.pfds[i].ready then PassLegal(s, i + 1, input)
    else if i == 0 then PassLegal(Accept(s, input.newFd), 1, input)
    else
      var arrival := input.arrivals[s.pfds[i].fd];
      HandleKeepsPass(s, i, arrival);
      LegalRecv(s, i, arrival.recv)
      && PassLegal(Handle(s, i, arrival).0, Resume(i, arrival), input)
  }

  /** The events a pass consists of. */
  function PassEvents(s: Server, i: nat, input: Input): seq<Event>
    requires GameInvariant(s) && ListenerFirst(s) && input.newFd != s.listener && PassDefined(s, i, input)
    decreases ToVisit(|s.pfds|, i)
  {
    if i >= |s.pfds| then []
    else if !s.pfds[i].ready then PassEvents(s, i + 1, input)
    else if i == 0 then
      (if input.newFd == -1 then [] else [Accepted(input.newFd)]) + PassEvents(Accept(s, input.newFd), 1, input)
    else
      var arrival := input.arrivals[s.pfds[i].fd];
      HandleKeepsPass(s, i, arrival);
      [Served(i, arrival)] + PassEvents(Handle(s, i, arrival).0, Resume(i, arrival), input)
  }

  /** What a channel carries, without the bookkeeping. */
  function Contents(channel: seq<Envelope>): (packets: seq<Packet>)
    ensures |packets| == |channel|
  {
    seq(|channel|, i requires 0 <= i < |channel| => channel[i].packet)
  }

  /** `now` is `was` with these packets put behind it. */
  predicate Longer(was: seq<Envelope>, now: seq<Envelope>, packets: seq<Packet>) {
    was <= now && Contents(now[|was|..]) == packets
  }

  lemma LongerTwice(was: seq<Envelope>, mid: seq<Envelope>, now: seq<Envelope>, a: seq<Packet>, b: seq<Packet>)
    requires Longer(was, mid, a) && Longer(mid, now, b)
    ensures Longer(was, now, a + b)
  {
    assert now[|was|..] == mid[|was|..] + now[|mid|..];
  }

  lemma StampLengthens(was: seq<Envelope>, packets: seq<Packet>, origin: Member)
    ensures Longer(was, was + Stamp(packets, origin), packets)
  {
    assert (was + Stamp(packets, origin))[|was|..] == Stamp(packets, origin);
  }

  /** Every channel has become longer by exactly the packets sent to its connection,
      in the order they were sent; a connection accepted meanwhile had nothing before. */
  predicate ChannelsCarry(sys: System, sys': System, sends: seq<Sent>) {
    && sys.channel.Keys <= sys'.channel.Keys
    && forall fd :: fd in sys'.channel ==>
         Longer(if fd in sys.channel then sys.channel[fd] else [], sys'.channel[fd], PacketsTo(sends, fd))
  }

  lemma NothingCarried(sys: System, sys': System)
    requires sys'.channel == sys.channel
    ensures ChannelsCarry(sys, sys', [])
  {
    forall fd | fd in sys'.channel ensures Longer(sys.channel[fd], sys'.channel[fd], PacketsTo([], fd)) {
      assert sys.channel[fd][|sys.channel[fd]|..] == [];
    }
  }

  lemma CarryTwice(sys: System, mid: System, sys': System, a: seq<Sent>, b: seq<Sent>)
    requires ChannelsCarry(sys, mid, a) && ChannelsCarry(mid, sys', b)
    requires sys.channel.Keys == mid.channel.Keys == sys'.channel.Keys
    ensures ChannelsCarry(sys, sys', a + b)
  {
    forall fd | fd in sys'.channel
      ensures Longer(if fd in sys.channel then sys.channel[fd] else [], sys'.channel[fd], PacketsTo(a + b, fd))
    {
      PacketsToAppend(a, b, fd);
      LongerTwice(sys.channel[fd], mid.channel[fd], sys'.channel[fd], PacketsTo(a, fd), PacketsTo(b, fd));
    }
  }

  lemma ServedCarries(sys: System, slot: nat, arrival: Arrival)
    requires StepDefined(sys, Served(slot, arrival))
    ensures ChannelsCarry(sys, Step(sys, Served(slot, arrival)), Handle(sys.server, slot, arrival).1)
    ensures Step(sys, Served(slot, arrival)).channel.Keys == sys.channel.Keys
  {
    var sends, origin := Handle(sys.server, slot, arrival).1, SenderOf(sys.identity, sys.server.pfds[slot].fd);
    forall fd | fd in sys.channel
      ensures Longer(sys.channel[fd], sys.channel[fd] + Stamp(PacketsTo(sends, fd), origin), PacketsTo(sends, fd))
    {
      StampLengthens(sys.channel[fd], PacketsTo(sends, fd), origin);
    }
  }

  lemma {:induction false} PassIsRunFrom(sys: System, i: nat, input: Input) returns (sys': System)
    requires Invariant(sys) && input.newFd != sys.server.listener && i > 0
    requires PassDefined(sys.server, i, input) && PassLegal(sys.server, i, input)
    ensures Run(sys, PassEvents(sys.server, i, input), sys')
    ensures sys'.server == Pass(sys.server, i, input).0
    ensures ChannelsCarry(sys, sys', Pass(sys.server, i, input).1) && sys'.channel.Keys == sys.channel.Keys
    decreases |sys.server.pfds| - i, 1
  {
    var s := sys.server;
    if i >= |s.pfds| {
      sys' := sys;
      NothingCarried(sys, sys');
    } else if !s.pfds[i].ready {
      sys' := PassIsRunFrom(sys, i + 1, input);
    } else {
      sys' := PassIsRunAfterRead(sys, i, input);
    }
  }

  lemma {:induction false} PassIsRunAfterRead(sys: System, i: nat, input: Input) returns (sys': System)
    requires Invariant(sys) && input.newFd != sys.server.listener && 0 < i < |sys.server.pfds| && sys.server.pfds[i].ready
    requires PassDefined(sys.server, i, input) && PassLegal(sys.server, i, input)
    ensures Run(sys, PassEvents(sys.server, i, input), sys')
    ensures sys'.server == Pass(sys.server, i, input).0
    ensures ChannelsCarry(sys, sys', Pass(sys.server, i, input).1) && sys'.channel.Keys == sys.channel.Keys
    decreases |sys.server.pfds| - i, 0
  {
    var s := sys.server;
    var arrival := input.arrivals[s.pfds[i].fd];
    HandleKeepsPass(s, i, arrival);
    StepKeepsInvariant(sys, Served(i, arrival));
    var next, resume := Step(sys, Served(i, arrival)), Resume(i, arrival);
    sys' := PassIsRunFrom(next, resume, input);
    RunCons(sys, Served(i, arrival), next, PassEvents(next.server, resume, input), sys');
    ServedCarries(sys, i, arrival);
    CarryTwice(sys, next, sys', Handle(s, i, arrival).1, Pass(next.server, resume, input).1);
  }

  /** What `process_connections` does is a run of the system: the server ends as the run
      ends, and every channel has become longer by what the loop sent to it, in order.
      So what holds over all legal runs holds of the program's own loop. */
  lemma PassIsRun(sys: System, input: Input) returns (sys': System)
    requires Invariant(sys) && input.newFd != sys.server.listener
    requires PassDefined(sys.server, 0, input) && PassLegal(sys.server, 0, input)
    requires sys.server.pfds[0].ready && input.newFd != -1 ==> Legal(sys, Accepted(input.newFd))
    ensures Run(sys, PassEvents(sys.server, 0, input), sys')
    ensures sys'.server == Pass(sys.server, 0, input).0
    ensures ChannelsCarry(sys, sys', Pass(sys.server, 0, input).1)
  {
    var e := Accepted(input.newFd);
    if sys.server.pfds[0].ready && input.newFd != -1 {
      StepKeepsInvariant(sys, e);
      var next := Step(sys, e);
      sys' := PassIsRunFrom(next, 1, input);
      RunCons(sys, e, next, PassEvents(next.server, 1, input), sys');
      CarrySinceAccept(sys, input.newFd, sys', Pass(sys.server, 0, input).1);
    } else {
      sys' := PassIsRunFrom(sys, 1, input);
      assert [] + PassEvents(sys.server, 1, input) == PassEvents(sys.server, 1, input);
    }
  }

  lemma CarrySinceAccept(sys: System, newFd: int, sys': System, sends: seq<Sent>)
    requires newFd !in sys.channel && ChannelsCarry(Step(sys, Accepted(newFd)), sys', sends)
    requires sys'.channel.Keys == Step(sys, Accepted(newFd)).channel.Keys
    ensures ChannelsCarry(sys, sys', sends)
  {
    var next := Step(sys, Accepted(newFd));
    assert forall fd :: fd in next.channel ==> next.channel[fd] == if fd in sys.channel then sys.channel[fd] else [];
  }

  /** One round of the main loop: what `poll` reports ready is what the pass after it reads,
      each connection once. */
  lemma PolledThenRead(sys: System, ready: set<int>, input: Input, k: nat)
    requires Invariant(sys) && 1 <= k < |sys.server.pfds|
    requires var s := Step(sys, Polled(ready)).server;
             GameInvariant(s) && ListenerFirst(s) && input.newFd != s.listener && PassDefined(s, 0, input)
    ensures var fd := sys.server.pfds[k].fd;
            multiset(Pass(Step(sys, Polled(ready)).server, 0, input).2)[fd] == if fd in ready then 1 else 0
  {
    var pfds, marked := sys.server.pfds, Step(sys, Polled(ready)).server.pfds;
    assert forall i :: 0 <= i < |pfds| ==> marked[i].fd == pfds[i].fd;
    EachReadyOnce(Step(sys, Polled(ready)).server, input, k);
  }
}
