/** Delivery of chat over whole runs: what each client hears of the others. */
module GroupDelivery {
  import opened Collections
  import opened GroupServer
  import opened GroupSystem
  import opened GroupRuns
  import History

  /** The relayed packets of a channel, in order. */
  function Relays(channel: seq<Envelope>): seq<Envelope> {
    if channel == [] then []
    else Relays(channel[..|channel| - 1]) + if channel[|channel| - 1].packet.Relay? then [channel[|channel| - 1]] else []
  }

  lemma {:induction false} RelaysAppend(a: seq<Envelope>, b: seq<Envelope>)
    ensures Relays(a + b) == Relays(a) + Relays(b)
  {
    if b == [] {
      assert a + b == a;
    } else {
      assert (a + b)[..|a + b| - 1] == a + b[..|b| - 1];
      RelaysAppend(a, b[..|b| - 1]);
    }
  }

  /** What the connection `fd` is due when `who` is served in `slot`: another
      connection's message, unless it is game input, with that sender's slot. */
  function Due(s: Server, slot: nat, recv: Recv, who: Member, fd: int): seq<Envelope>
    requires Connected(s, slot)
  {
    if fd !in Fds(s.pfds) || fd == s.listener || fd == s.pfds[slot].fd then []
    else match recv
         case Got(Chat(text)) => if InGame(s, who.uid) then [] else [Envelope(Relay(LMP_MSG, slot - 1, text), who)]
         case Got(Other(code, text)) => [Envelope(Relay(code, slot - 1, text), who)]
         case _ => []
  }

  function DueFrom(sys: System, e: Event, fd: int): seq<Envelope>
    requires StepDefined(sys, e)
  {
    match e
    case Served(slot, arrival) =>
      Due(sys.server, slot, arrival.recv, SenderOf(sys.identity, sys.server.pfds[slot].fd), fd)
    case _ => []
  }

  /** What client `fd` takes in with one event. */
  function TakenBy(sys: System, e: Event, fd: int): seq<Envelope>
    requires StepDefined(sys, e)
  {
    if e == Consumed(fd) then [sys.channel[fd][0]] else []
  }

  function DueDuring(sys: System, events: seq<Event>, sys': System, fd: int): seq<Envelope>
    requires Run(sys, events, sys')
    decreases |events|
  {
    if events == [] then []
    else DueFrom(sys, events[0], fd) + DueDuring(Step(sys, events[0]), events[1..], sys', fd)
  }

  function TakenDuring(sys: System, events: seq<Event>, sys': System, fd: int): seq<Envelope>
    requires Run(sys, events, sys')
    decreases |events|
  {
    if events == [] then []
    else TakenBy(sys, events[0], fd) + TakenDuring(Step(sys, events[0]), events[1..], sys', fd)
  }

  /** Only chat outside the game and frames of unknown type are relayed. */
  lemma OthersRelayNothing(s: Server, slot: nat, arrival: Arrival)
    requires InBounds(s, slot, arrival.recv) && GameReady(s.game)
    requires match arrival.recv
             case Got(Chat(_)) => false
             case Got(Other(_, _)) => false
             case _ => true
    ensures forall x :: x in Handle(s, slot, arrival).1 ==> !x.packet.Relay?
  {
    var s', fd := Handle(s, slot, arrival).0, s.pfds[slot].fd;
    match arrival.recv
    case Got(Load) => LinesPackets(fd, History.HistoryLines(s.history));
    case Got(Hangman(text)) =>
      SendAllPackets(s.pfds, {s.listener, fd}, HangmanNote(Announced(s.members[slot - 1].nick)));
    case _ =>
      HandleSends(s, slot, arrival);
      SendAllPackets(s'.pfds, {s'.listener}, GroupObj(GroupOf(s')));
  }

  lemma NoRelaysTo(sends: seq<Sent>, fd: int, origin: Member)
    requires forall x :: x in sends ==> !x.packet.Relay?
    ensures Relays(Stamp(PacketsTo(sends, fd), origin)) == []
  {
    NoRelayPackets(sends, fd);
    NoRelaysIn(Stamp(PacketsTo(sends, fd), origin));
  }

  lemma {:induction false} NoRelayPackets(sends: seq<Sent>, fd: int)
    requires forall x :: x in sends ==> !x.packet.Relay?
    ensures forall p :: p in PacketsTo(sends, fd) ==> !p.Relay?
  {
    if sends != [] {
      NoRelayPackets(sends[..|sends| - 1], fd);
      assert sends[|sends| - 1] in sends;
    }
  }

  lemma {:induction false} NoRelaysIn(channel: seq<Envelope>)
    requires forall e :: e in channel ==> !e.packet.Relay?
    ensures Relays(channel) == []
  {
    if channel != [] {
      NoRelaysIn(channel[..|channel| - 1]);
      assert channel[|channel| - 1] in channel;
    }
  }

  lemma ChatDelivers(s: Server, slot: nat, text: string, rands: seq<nat>, fd: int)
    requires PfdsWellFormed(s) && InBounds(s, slot, Got(Chat(text))) && GameReady(s.game)
    ensures var who := s.members[slot - 1];
            Relays(Stamp(PacketsTo(AfterChat(s, slot, text, rands).1, fd), who)) == Due(s, slot, Got(Chat(text)), who, fd)
  {
    var who := s.members[slot - 1];
    if InGame(s, who.uid) {
      GameInputStaysInGame(s, slot, text, rands);
      NoRelaysTo(AfterChat(s, slot, text, rands).1, fd, who);
    } else {
      ChatRelayedOnce(s, slot, text, rands, fd);
      StampOne(Relay(LMP_MSG, slot - 1, text), who);
    }
  }

  lemma OtherDelivers(s: Server, slot: nat, code: nat, text: string, who: Member, fd: int)
    requires PfdsWellFormed(s) && 1 <= slot < |s.pfds|
    ensures Relays(Stamp(PacketsTo(Relayed(s, slot, code, text), fd), who)) == Due(s, slot, Got(Other(code, text)), who, fd)
  {
    PacketsToSendAll(s.pfds, {s.listener, s.pfds[slot].fd}, Relay(code, slot - 1, text), fd);
    StampOne(Relay(code, slot - 1, text), who);
  }

  /** What a served event puts on the way to `fd` is, as far as relays go, what is due. */
  lemma ServedDelivers(s: Server, slot: nat, arrival: Arrival, who: Member, fd: int)
    requires PfdsWellFormed(s) && InBounds(s, slot, arrival.recv) && GameReady(s.game)
    requires arrival.recv.Got? && arrival.recv.request.Chat? ==> who == s.members[slot - 1]
    ensures Relays(Stamp(PacketsTo(Handle(s, slot, arrival).1, fd), who)) == Due(s, slot, arrival.recv, who, fd)
  {
    match arrival.recv
    case Got(Chat(text)) => ChatDelivers(s, slot, text, arrival.rands, fd);
    case Got(Other(code, text)) => OtherDelivers(s, slot, code, text, who, fd);
    case _ =>
      OthersRelayNothing(s, slot, arrival);
      NoRelaysTo(Handle(s, slot, arrival).1, fd, who);
  }

  lemma StampOne(packet: Packet, who: Member)
    requires packet.Relay?
    ensures Relays(Stamp([packet], who)) == [Envelope(packet, who)] && Relays(Stamp([], who)) == []
  {
    var one := Stamp([packet], who);
    assert one == [Envelope(packet, who)] && one[..0] == [];
  }

  lemma AddedIsDue(sys: System, slot: nat, arrival: Arrival, fd: int)
    requires Invariant(sys) && Legal(sys, Served(slot, arrival)) && fd in sys.channel
    requires StepDefined(sys, Served(slot, arrival))
    ensures Relays(Added(sys, slot, arrival, fd)) == DueFrom(sys, Served(slot, arrival), fd)
  {
    if !ChangesGroup(arrival.recv) {
      SenderIsMember(sys, slot, arrival);
    }
    ServedDelivers(sys.server, slot, arrival, SenderOf(sys.identity, sys.server.pfds[slot].fd), fd);
  }

  /** One event: what is taken and what is still on the way grow by what is due. */
  lemma StepDelivers(sys: System, e: Event, fd: int)
    requires Invariant(sys) && Legal(sys, e) && StepDefined(sys, e) && fd in sys.channel
    ensures fd in Step(sys, e).channel
    ensures Relays(TakenBy(sys, e, fd)) + Relays(Step(sys, e).channel[fd])
         == Relays(sys.channel[fd]) + DueFrom(sys, e, fd)
  {
    var was := sys.channel[fd];
    match e
    case Polled(_) =>
    case Accepted(_) =>
    case Consumed(c) =>
      if c == fd {
        assert was == [was[0]] + was[1..];
        RelaysAppend([was[0]], was[1..]);
      }
    case Served(slot, arrival) =>
      AddedIsDue(sys, slot, arrival, fd);
      RelaysAppend(was, Added(sys, slot, arrival, fd));
  }

  /** Exactly-once, in-order delivery over any legal run: the relayed packets a client
      has taken in, followed by those still on its way, are those on its way before,
      followed by the message of every other connection handled while it was connected
      (game input excepted), each once, in handling order, with its true sender. */
  lemma {:induction false} ChatDelivered(sys: System, events: seq<Event>, sys': System, fd: int)
    requires Invariant(sys) && Run(sys, events, sys') && fd in sys.channel
    ensures fd in sys'.channel
    ensures Relays(TakenDuring(sys, events, sys', fd)) + Relays(sys'.channel[fd])
         == Relays(sys.channel[fd]) + DueDuring(sys, events, sys', fd)
    decreases |events|
  {
    if events != [] {
      var e, next := events[0], Step(sys, events[0]);
      StepKeepsInvariant(sys, e);
      StepDelivers(sys, e, fd);
      ChatDelivered(next, events[1..], sys', fd);
      var taken, later := TakenBy(sys, e, fd), TakenDuring(next, events[1..], sys', fd);
      RelaysAppend(taken, later);
      ConcatAssociates(Relays(taken), Relays(later), Relays(sys'.channel[fd]));
      ConcatAssociates(Relays(taken), Relays(next.channel[fd]), DueDuring(next, events[1..], sys', fd));
      ConcatAssociates(Relays(sys.channel[fd]), DueFrom(sys, e, fd), DueDuring(next, events[1..], sys', fd));
    }
  }
}
