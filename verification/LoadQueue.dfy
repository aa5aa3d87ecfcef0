/** The channel of the group chat and the queue of the load protocol are the same one, as
    far as loads go. */
module LoadQueue {
  import opened Collections
  import opened GroupServer
  import opened GroupSystem
  import opened GroupRuns
  import opened LoadRuns
  import History
  import LoadProtocol

  /** What is on the way to a client of loads, in order. */
  function LoadsOn(channel: seq<Envelope>): seq<LoadProtocol.Down> {
    if channel == [] then []
    else LoadsOn(channel[..|channel| - 1]) + LoadPart(channel[|channel| - 1].packet)
  }

  /** The same in the load protocol, which lets a reply be sent line by line. */
  function LoadsIn(down: seq<LoadProtocol.Down>): seq<LoadProtocol.Down> {
    if down == [] then [] else (if down[0] == LoadProtocol.OtherPacket then [] else [down[0]]) + LoadsIn(down[1..])
  }

  /** What of a reply has yet to be sent. */
  function Unsent(serving: LoadProtocol.Serving): seq<LoadProtocol.Down> {
    match serving
    case NotServing => []
    case ServingLines(rest) => LoadProtocol.AsLines(rest) + [LoadProtocol.End]
  }

  function OnTheWay(session: LoadProtocol.Session): seq<LoadProtocol.Down> {
    LoadsIn(session.down) + Unsent(session.serving)
  }

  function ChannelOf(sys: System, fd: int): seq<Envelope> {
    if fd in sys.channel then sys.channel[fd] else []
  }

  /** The history lines and end markers on the client's channel are those its session has
      on the way. */
  predicate OneQueue(c: Joint, fd: int) {
    LoadsOn(ChannelOf(c.sys, fd)) == OnTheWay(c.session)
  }

  lemma {:induction false} LoadsOnAppend(a: seq<Envelope>, b: seq<Envelope>)
    ensures LoadsOn(a + b) == LoadsOn(a) + LoadsOn(b)
  {
    if b == [] {
      assert a + b == a;
    } else {
      assert (a + b)[..|a + b| - 1] == a + b[..|b| - 1];
      LoadsOnAppend(a, b[..|b| - 1]);
    }
  }

  lemma LoadsOnOne(e: Envelope)
    ensures LoadsOn([e]) == LoadPart(e.packet)
  {
    assert [e][..0] == [];
  }

  lemma {:induction false} LoadsInSnoc(down: seq<LoadProtocol.Down>, x: LoadProtocol.Down)
    ensures LoadsIn(down + [x]) == LoadsIn(down) + if x == LoadProtocol.OtherPacket then [] else [x]
  {
    var last := if x == LoadProtocol.OtherPacket then [] else [x];
    if down == [] {
      assert down + [x] == [x];
      ConcatNothing(last);
    } else {
      assert (down + [x])[1..] == down[1..] + [x];
      LoadsInSnoc(down[1..], x);
      ConcatAssociates(if down[0] == LoadProtocol.OtherPacket then [] else [down[0]], LoadsIn(down[1..]), last);
    }
  }

  /** Packets that are nothing in the load protocol. */
  lemma {:induction false} NoLoadsOn(channel: seq<Envelope>)
    requires forall e :: e in channel ==> LoadPart(e.packet) == []
    ensures LoadsOn(channel) == []
  {
    if channel != [] {
      NoLoadsOn(channel[..|channel| - 1]);
      assert channel[|channel| - 1] in channel;
    }
  }

  /** A whole reply on the channel. */
  lemma {:induction false} LinesOn(lines: seq<string>, origin: Member)
    ensures LoadsOn(Stamp(AsPackets(lines), origin)) == LoadProtocol.AsLines(lines)
  {
    if lines != [] {
      var before, all := lines[..|lines| - 1], Stamp(AsPackets(lines), origin);
      LinesOn(before, origin);
      assert all[..|all| - 1] == Stamp(AsPackets(before), origin);
      assert LoadProtocol.AsLines(lines) == LoadProtocol.AsLines(before) + [LoadProtocol.Line(lines[|lines| - 1])];
    }
  }

  lemma ReplyOn(lines: seq<string>, origin: Member)
    ensures LoadsOn(Stamp(AsPackets(lines) + [LoadEnd], origin)) == LoadProtocol.AsLines(lines) + [LoadProtocol.End]
  {
    var all := Stamp(AsPackets(lines) + [LoadEnd], origin);
    assert all[..|lines|] == Stamp(AsPackets(lines), origin);
    LinesOn(lines, origin);
  }

  // ------------------------------------------------------------------ the session's side

  lemma ClientKeepsQueue(session: LoadProtocol.Session, a: LoadProtocol.Action)
    requires LoadProtocol.Enabled(session, a) && !LoadProtocol.TakesLoad(session, a) && !ReceivesReply(session, a)
    ensures OnTheWay(LoadProtocol.Next(session, a)) == OnTheWay(session)
  {
    match a
    case ServeLine => LineKeepsQueue(session.down, session.serving.rest);
    case ServeEnd =>
      LoadsInSnoc(session.down, LoadProtocol.End);
      ConcatNothing(LoadsIn(session.down) + [LoadProtocol.End]);
      ConcatNothing([LoadProtocol.End]);
    case ServeOther =>
      LoadsInSnoc(session.down, LoadProtocol.OtherPacket);
      ConcatNothing(LoadsIn(session.down));
    case TakePacket => ConcatNothing(LoadsIn(session.down[1..]));
    case _ =>
  }

  lemma LineKeepsQueue(down: seq<LoadProtocol.Down>, rest: seq<string>)
    requires rest != []
    ensures LoadsIn(down + [LoadProtocol.Line(rest[0])]) + (LoadProtocol.AsLines(rest[1..]) + [LoadProtocol.End])
         == LoadsIn(down) + (LoadProtocol.AsLines(rest) + [LoadProtocol.End])
  {
    var line, later := [LoadProtocol.Line(rest[0])], LoadProtocol.AsLines(rest[1..]);
    LoadsInSnoc(down, line[0]);
    assert LoadProtocol.AsLines(rest) == line + later;
    ConcatAssociates(line, later, [LoadProtocol.End]);
    ConcatAssociates(LoadsIn(down), line, later + [LoadProtocol.End]);
  }

  lemma AnswerLengthens(session: LoadProtocol.Session, lines: seq<string>)
    requires LoadProtocol.Enabled(session, LoadProtocol.ServeRequest(lines))
    requires LoadProtocol.TakesLoad(session, LoadProtocol.ServeRequest(lines))
    ensures OnTheWay(LoadProtocol.Next(session, LoadProtocol.ServeRequest(lines)))
         == OnTheWay(session) + (LoadProtocol.AsLines(lines) + [LoadProtocol.End])
  {
    ConcatNothing(LoadsIn(session.down));
  }

  lemma TakeShortens(session: LoadProtocol.Session)
    requires LoadProtocol.Enabled(session, LoadProtocol.TakePacket) && ReceivesReply(session, LoadProtocol.TakePacket)
    ensures OnTheWay(session) == [session.down[0]] + OnTheWay(LoadProtocol.Next(session, LoadProtocol.TakePacket))
  {
    ConcatAssociates([session.down[0]], LoadsIn(session.down[1..]), Unsent(session.serving));
  }

  // ------------------------------------------------------------------ the chat's side

  /** Nobody but the client's own load sends it anything of a load. */
  lemma OthersSendNoLoads(s: Server, slot: nat, arrival: Arrival, fd: int)
    requires InBounds(s, slot, arrival.recv) && GameReady(s.game)
    requires arrival.recv == Got(Load) ==> s.pfds[slot].fd != fd
    ensures forall x :: x in Handle(s, slot, arrival).1 && x.fd == fd ==> LoadPart(x.packet) == []
  {
    var s', sender := Handle(s, slot, arrival).0, s.pfds[slot].fd;
    match arrival.recv
    case Got(Load) => LinesPackets(sender, History.HistoryLines(s.history));
    case Got(Hangman(text)) =>
      SendAllPackets(s.pfds, {s.listener, sender}, HangmanNote(Announced(s.members[slot - 1].nick)));
    case Got(Chat(text)) =>
      if InGame(s, s.members[slot - 1].uid) {
        GameInputStaysInGame(s, slot, text, arrival.rands);
      } else {
        SendAllPackets(s.pfds, {s.listener, sender}, Relay(LMP_MSG, slot - 1, text));
      }
    case Got(Other(code, text)) => SendAllPackets(s.pfds, {s.listener, sender}, Relay(code, slot - 1, text));
    case _ =>
      HandleSends(s, slot, arrival);
      SendAllPackets(s'.pfds, {s'.listener}, GroupObj(GroupOf(s')));
  }

  lemma {:induction false} PacketsAmong(sends: seq<Sent>, fd: int)
    requires forall x :: x in sends && x.fd == fd ==> LoadPart(x.packet) == []
    ensures forall p :: p in PacketsTo(sends, fd) ==> LoadPart(p) == []
  {
    if sends != [] {
      PacketsAmong(sends[..|sends| - 1], fd);
      assert sends[|sends| - 1] in sends;
    }
  }

  lemma OthersKeepQueue(sys: System, slot: nat, arrival: Arrival, fd: int)
    requires StepDefined(sys, Served(slot, arrival)) && !LoadsFor(sys.server, Served(slot, arrival), fd)
    ensures LoadsOn(ChannelOf(Step(sys, Served(slot, arrival)), fd)) == LoadsOn(ChannelOf(sys, fd))
  {
    if fd in sys.channel {
      var more := Added(sys, slot, arrival, fd);
      OthersSendNoLoads(sys.server, slot, arrival, fd);
      PacketsAmong(Handle(sys.server, slot, arrival).1, fd);
      NoLoadsOn(more);
      LoadsOnAppend(sys.channel[fd], more);
      ConcatNothing(LoadsOn(sys.channel[fd]));
    }
  }

  lemma HeadOff(channel: seq<Envelope>)
    requires channel != []
    ensures LoadsOn(channel) == LoadPart(channel[0].packet) + LoadsOn(channel[1..])
  {
    assert channel == [channel[0]] + channel[1..];
    LoadsOnAppend([channel[0]], channel[1..]);
    LoadsOnOne(channel[0]);
  }

  lemma EventKeepsQueue(sys: System, e: Event, fd: int)
    requires Legal(sys, e) && StepDefined(sys, e) && !LoadsFor(sys.server, e, fd) && !TakesReply(sys, e, fd)
    ensures LoadsOn(ChannelOf(Step(sys, e), fd)) == LoadsOn(ChannelOf(sys, fd))
  {
    match e
    case Polled(_) =>
    case Accepted(_) =>
    case Served(slot, arrival) => OthersKeepQueue(sys, slot, arrival, fd);
    case Consumed(c) =>
      if c == fd {
        HeadOff(sys.channel[fd]);
        ConcatNothing(LoadsOn(sys.channel[fd][1..]));
      }
  }

  lemma AnswerSends(sys: System, slot: nat, rands: seq<nat>, fd: int)
    requires Invariant(sys) && StepDefined(sys, LoadEvent(slot, rands)) && LoadsFor(sys.server, LoadEvent(slot, rands), fd)
    ensures LoadsOn(ChannelOf(Step(sys, LoadEvent(slot, rands)), fd))
         == LoadsOn(ChannelOf(sys, fd)) + (LoadProtocol.AsLines(History.HistoryLines(sys.server.history)) + [LoadProtocol.End])
  {
    var arrival := Arrival(Got(Load), rands);
    var lines, origin := History.HistoryLines(sys.server.history), SenderOf(sys.identity, fd);
    LoadSends(sys.server, slot, fd);
    ReplyOn(lines, origin);
    LoadsOnAppend(sys.channel[fd], Added(sys, slot, arrival, fd));
  }

  // ------------------------------------------------------------------ joined

  lemma MoveKeepsQueue(c: Joint, m: Move, fd: int)
    requires Invariant(c.sys) && OneQueue(c, fd) && Allowed(c, m, fd)
    ensures Invariant(Next(c, m, fd).sys) && OneQueue(Next(c, m, fd), fd)
    ensures m.Take? ==> LoadPart(c.sys.channel[fd][0].packet) == [c.session.down[0]]
  {
    match m
    case Group(e) =>
      StepKeepsInvariant(c.sys, e);
      EventKeepsQueue(c.sys, e, fd);
    case Client(a) => ClientKeepsQueue(c.session, a);
    case Answer(slot, rands) =>
      StepKeepsInvariant(c.sys, LoadEvent(slot, rands));
      AnswerSends(c.sys, slot, rands, fd);
      AnswerLengthens(c.session, History.HistoryLines(c.sys.server.history));
    case Take =>
      StepKeepsInvariant(c.sys, Consumed(fd));
      HeadOff(c.sys.channel[fd]);
      TakeShortens(c.session);
      SameHead(LoadPart(c.sys.channel[fd][0].packet), LoadsOn(c.sys.channel[fd][1..]),
               [c.session.down[0]], OnTheWay(LoadProtocol.Next(c.session, LoadProtocol.TakePacket)));
  }

  lemma SameHead<T>(a: seq<T>, more: seq<T>, b: seq<T>, rest: seq<T>)
    requires |a| == |b| && a + more == b + rest
    ensures a == b && more == rest
  {
    assert a == (a + more)[..|a|] && b == (b + rest)[..|b|];
    assert more == (a + more)[|a|..] && rest == (b + rest)[|b|..];
  }

  lemma {:induction false} RunKeepsQueue(c: Joint, moves: seq<Move>, c': Joint, fd: int)
    requires Invariant(c.sys) && OneQueue(c, fd) && LoadRuns.Run(c, moves, c', fd)
    ensures Invariant(c'.sys) && OneQueue(c', fd)
    decreases |moves|
  {
    if moves != [] {
      MoveKeepsQueue(c, moves[0], fd);
      RunKeepsQueue(Next(c, moves[0], fd), moves[1..], c', fd);
    }
  }

  /** In every joint run the lines and end markers that the group chat has on the client's
      channel are those its session has yet to receive, in order, and what the client
      takes in of one is the same in the other. */
  lemma LoadsShareOneQueue(listener: int, earlier: seq<History.Entry>, words: string, moves: seq<Move>, c: Joint, fd: int)
    requires LoadRuns.Run(Opened(listener, earlier, words), moves, c, fd)
    ensures OneQueue(c, fd)
    ensures Allowed(c, Take, fd) ==> LoadPart(c.sys.channel[fd][0].packet) == [c.session.down[0]]
  {
    StartInvariant(listener, History.FileOf(earlier), words);
    RunKeepsQueue(Opened(listener, earlier, words), moves, c, fd);
    if Allowed(c, Take, fd) {
      MoveKeepsQueue(c, Take, fd);
    }
  }
}
