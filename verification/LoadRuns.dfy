/** The load protocol of one client joined to whole runs of the group chat: what a
    finished load has shown of what the run had stored. */
module LoadRuns {
  import opened Collections
  import opened CText
  import opened GroupServer
  import opened History
  import GroupSystem
  import GroupRuns
  import LoadProtocol

  /** The group chat, and the session of the client on connection `fd` with it. */
  datatype Joint = Joint(sys: GroupSystem.System, session: LoadProtocol.Session)

  /** An event of the group chat or a step of the client's or its replies' own that does
      not concern the other; the server taking up the client's load request; the client
      taking in a packet of a reply. */
  datatype Move =
    | Group(event: GroupSystem.Event)
    | Client(action: LoadProtocol.Action)
    | Answer(slot: nat, rands: seq<nat>)
    | Take

  function LoadEvent(slot: nat, rands: seq<nat>): GroupSystem.Event {
    GroupSystem.Served(slot, Arrival(Got(Load), rands))
  }

  predicate LoadsFor(s: Server, e: GroupSystem.Event, fd: int) {
    e.Served? && e.arrival.recv == Got(Load) && GroupSystem.Connected(s, e.slot) && s.pfds[e.slot].fd == fd
  }

  /** What a packet is in the load protocol, if it is anything. */
  function LoadPart(packet: Packet): seq<LoadProtocol.Down> {
    match packet
    case HistoryLine(text) => [LoadProtocol.Line(text)]
    case LoadEnd => [LoadProtocol.End]
    case _ => []
  }

  predicate TakesReply(sys: GroupSystem.System, e: GroupSystem.Event, fd: int) {
    e == GroupSystem.Consumed(fd) && fd in sys.channel && sys.channel[fd] != [] && LoadPart(sys.channel[fd][0].packet) != []
  }

  predicate ReceivesReply(session: LoadProtocol.Session, a: LoadProtocol.Action)
    requires LoadProtocol.Enabled(session, a)
  {
    a == LoadProtocol.TakePacket && session.down[0] != LoadProtocol.OtherPacket
  }

  /** Taking up a request fixes the reply: the lines of the history as it is then. */
  function Reply(s: Server): LoadProtocol.Action {
    LoadProtocol.ServeRequest(HistoryLines(s.history))
  }

  predicate Allowed(c: Joint, m: Move, fd: int) {
    match m
    case Group(e) =>
      && GroupSystem.Legal(c.sys, e) && GroupSystem.StepDefined(c.sys, e)
      && !LoadsFor(c.sys.server, e, fd) && !TakesReply(c.sys, e, fd)
    case Client(a) =>
      && LoadProtocol.Enabled(c.session, a)
      && !LoadProtocol.TakesLoad(c.session, a) && !ReceivesReply(c.session, a)
    case Answer(slot, rands) =>
      var e := LoadEvent(slot, rands);
      && GroupSystem.Legal(c.sys, e) && GroupSystem.StepDefined(c.sys, e) && LoadsFor(c.sys.server, e, fd)
      && LoadProtocol.Enabled(c.session, Reply(c.sys.server))
      && LoadProtocol.TakesLoad(c.session, Reply(c.sys.server))
    case Take =>
      var e := GroupSystem.Consumed(fd);
      && GroupSystem.Legal(c.sys, e) && GroupSystem.StepDefined(c.sys, e) && TakesReply(c.sys, e, fd)
      && LoadProtocol.Enabled(c.session, LoadProtocol.TakePacket)
      && ReceivesReply(c.session, LoadProtocol.TakePacket)
  }

  function Next(c: Joint, m: Move, fd: int): Joint
    requires Allowed(c, m, fd)
  {
    match m
    case Group(e) => c.(sys := GroupSystem.Step(c.sys, e))
    case Client(a) => c.(session := LoadProtocol.Next(c.session, a))
    case Answer(slot, rands) =>
      Joint(GroupSystem.Step(c.sys, LoadEvent(slot, rands)), LoadProtocol.Next(c.session, Reply(c.sys.server)))
    case Take =>
      Joint(GroupSystem.Step(c.sys, GroupSystem.Consumed(fd)), LoadProtocol.Next(c.session, LoadProtocol.TakePacket))
  }

  predicate Run(c: Joint, moves: seq<Move>, c': Joint, fd: int)
    decreases |moves|
  {
    if moves == [] then c == c'
    else Allowed(c, moves[0], fd) && Run(Next(c, moves[0], fd), moves[1..], c', fd)
  }

  /** What one move adds to the history. */
  function StoredBy(c: Joint, m: Move, fd: int): seq<Entry>
    requires Allowed(c, m, fd)
  {
    match m
    case Group(e) => GroupRuns.StoredBy(c.sys, e)
    case _ => []
  }

  /** What the moves add to the history, in handling order. */
  function StoredDuring(c: Joint, moves: seq<Move>, c': Joint, fd: int): seq<Entry>
    requires Run(c, moves, c', fd)
    decreases |moves|
  {
    if moves == [] then []
    else StoredBy(c, moves[0], fd) + StoredDuring(Next(c, moves[0], fd), moves[1..], c', fd)
  }

  function AnswerAt(m: Move, n: nat): seq<nat> {
    if m.Answer? then [n] else []
  }

  /** How many entries had been stored when each of the client's requests was taken up,
      those in `stored` before the first move. */
  function AnsweredAt(c: Joint, moves: seq<Move>, c': Joint, fd: int, stored: seq<Entry>): seq<nat>
    requires Run(c, moves, c', fd)
    decreases |moves|
  {
    if moves == [] then []
    else
      AnswerAt(moves[0], |stored|)
      + AnsweredAt(Next(c, moves[0], fd), moves[1..], c', fd, stored + StoredBy(c, moves[0], fd))
  }

  /** The run's side: the history is what was stored. */
  predicate Keeps(sys: GroupSystem.System, stored: seq<Entry>) {
    && GroupSystem.Invariant(sys)
    && sys.server.history == FileOf(stored)
    && forall e :: e in stored ==> |e.uid| == UID_LENGTH
  }

  /** The client's side: each finished load, and then the reply under way, is the history
      as it was when its request was taken up. */
  predicate Shows(session: LoadProtocol.Session, stored: seq<Entry>, answered: seq<nat>) {
    && LoadProtocol.Invariant(session)
    && |answered| == |session.finished| + (if LoadProtocol.BeingServed(session) then 1 else 0)
    && (forall k :: 0 <= k < |answered| ==> answered[k] <= |stored|)
    && (forall k :: 0 <= k < |session.finished| ==> session.finished[k].reply == LinesAt(stored, answered[k]))
    && (LoadProtocol.BeingServed(session) ==> session.reply == LinesAt(stored, answered[|answered| - 1]))
  }

  /** Both. */
  predicate Agrees(c: Joint, stored: seq<Entry>, answered: seq<nat>) {
    Keeps(c.sys, stored) && Shows(c.session, stored, answered)
  }

  /** The lines of the history when `n` entries had been stored. */
  function LinesAt(stored: seq<Entry>, n: nat): seq<string>
    requires n <= |stored|
  {
    HistoryLines(FileOf(stored[..n]))
  }

  lemma StoringKeepsShown(session: LoadProtocol.Session, stored: seq<Entry>, more: seq<Entry>, answered: seq<nat>)
    requires Shows(session, stored, answered)
    ensures Shows(session, stored + more, answered)
  {
    forall k | 0 <= k < |answered| ensures (stored + more)[..answered[k]] == stored[..answered[k]] {
    }
  }

  lemma ClientKeepsShown(session: LoadProtocol.Session, a: LoadProtocol.Action, stored: seq<Entry>, answered: seq<nat>)
    requires Shows(session, stored, answered) && LoadProtocol.Enabled(session, a) && !LoadProtocol.TakesLoad(session, a)
    ensures Shows(LoadProtocol.Next(session, a), stored, answered)
  {
    LoadProtocol.StepKeepsInvariant(session, a);
    LoadProtocol.ServiceStep(session, a);
  }

  lemma AnswerIsShown(session: LoadProtocol.Session, lines: seq<string>, stored: seq<Entry>, answered: seq<nat>)
    requires Shows(session, stored, answered) && lines == LinesAt(stored, |stored|)
    requires LoadProtocol.Enabled(session, LoadProtocol.ServeRequest(lines))
    requires LoadProtocol.TakesLoad(session, LoadProtocol.ServeRequest(lines))
    ensures Shows(LoadProtocol.Next(session, LoadProtocol.ServeRequest(lines)), stored, answered + [|stored|])
  {
    var a := LoadProtocol.ServeRequest(lines);
    LoadProtocol.StepKeepsInvariant(session, a);
    LoadProtocol.ServiceStep(session, a);
    forall k | 0 <= k < |answered| ensures (answered + [|stored|])[k] == answered[k] {
    }
  }

  lemma EventKeeps(sys: GroupSystem.System, e: GroupSystem.Event, stored: seq<Entry>)
    requires Keeps(sys, stored) && GroupSystem.Legal(sys, e) && GroupSystem.StepDefined(sys, e)
    ensures Keeps(GroupSystem.Step(sys, e), stored + GroupRuns.StoredBy(sys, e))
  {
    GroupSystem.StepKeepsInvariant(sys, e);
    GroupRuns.StepStores(sys, e);
    FileOfAppend(stored, GroupRuns.StoredBy(sys, e));
  }

  /** One move, whichever side makes it. */
  lemma MoveKeeps(c: Joint, m: Move, fd: int, stored: seq<Entry>, answered: seq<nat>)
    requires Agrees(c, stored, answered) && Allowed(c, m, fd)
    ensures Agrees(Next(c, m, fd), stored + StoredBy(c, m, fd), answered + AnswerAt(m, |stored|))
  {
    assert stored + [] == stored && answered + [] == answered;
    match m
    case Group(e) =>
      EventKeeps(c.sys, e, stored);
      StoringKeepsShown(c.session, stored, GroupRuns.StoredBy(c.sys, e), answered);
    case Client(a) => ClientKeepsShown(c.session, a, stored, answered);
    case Answer(slot, rands) =>
      EventKeeps(c.sys, LoadEvent(slot, rands), stored);
      assert stored[..|stored|] == stored;
      AnswerIsShown(c.session, HistoryLines(c.sys.server.history), stored, answered);
    case Take =>
      EventKeeps(c.sys, GroupSystem.Consumed(fd), stored);
      ClientKeepsShown(c.session, LoadProtocol.TakePacket, stored, answered);
  }

  lemma {:induction false} RunKeeps(c: Joint, moves: seq<Move>, c': Joint, fd: int, stored: seq<Entry>, answered: seq<nat>)
    returns (stored': seq<Entry>, answered': seq<nat>)
    requires Agrees(c, stored, answered) && Run(c, moves, c', fd)
    ensures stored' == stored + StoredDuring(c, moves, c', fd)
    ensures answered' == answered + AnsweredAt(c, moves, c', fd, stored)
    ensures Agrees(c', stored', answered')
    decreases |moves|
  {
    if moves == [] {
      stored', answered' := stored, answered;
      ConcatNothing(stored);
      ConcatNothing(answered);
    } else {
      var next := Next(c, moves[0], fd);
      var storedNext, answeredNext := stored + StoredBy(c, moves[0], fd), answered + AnswerAt(moves[0], |stored|);
      MoveKeeps(c, moves[0], fd, stored, answered);
      stored', answered' := RunKeeps(next, moves[1..], c', fd, storedNext, answeredNext);
      StoredStep(c, moves, c', fd, stored);
      AnsweredStep(c, moves, c', fd, stored, answered);
    }
  }

  lemma StoredStep(c: Joint, moves: seq<Move>, c': Joint, fd: int, stored: seq<Entry>)
    requires Run(c, moves, c', fd) && moves != []
    ensures stored + StoredDuring(c, moves, c', fd)
         == (stored + StoredBy(c, moves[0], fd)) + StoredDuring(Next(c, moves[0], fd), moves[1..], c', fd)
  {
    ConcatAssociates(stored, StoredBy(c, moves[0], fd), StoredDuring(Next(c, moves[0], fd), moves[1..], c', fd));
  }

  lemma AnsweredStep(c: Joint, moves: seq<Move>, c': Joint, fd: int, stored: seq<Entry>, answered: seq<nat>)
    requires Run(c, moves, c', fd) && moves != []
    ensures answered + AnsweredAt(c, moves, c', fd, stored)
            == (answered + AnswerAt(moves[0], |stored|))
               + AnsweredAt(Next(c, moves[0], fd), moves[1..], c', fd, stored + StoredBy(c, moves[0], fd))
  {
    ConcatAssociates(answered, AnswerAt(moves[0], |stored|),
                     AnsweredAt(Next(c, moves[0], fd), moves[1..], c', fd, stored + StoredBy(c, moves[0], fd)));
  }

  /** Loads end to end: however the client's threads, the server and everybody else's
      messages interleave, the client's k-th finished load has shown exactly the lines of
      what had been stored, by earlier servers and by this one, when the server took up
      its k-th request; split into UIDs and messages they are the stored entries, in
      order, if and only if each of those is one line of at most 1014 characters. */
  lemma FinishedLoadsShowStored(listener: int, earlier: seq<Entry>, words: string, moves: seq<Move>, c: Joint, fd: int)
    requires forall e :: e in earlier ==> |e.uid| == UID_LENGTH
    requires Run(Opened(listener, earlier, words), moves, c, fd)
    ensures var start := Opened(listener, earlier, words);
            var stored := earlier + StoredDuring(start, moves, c, fd);
            var answered := AnsweredAt(start, moves, c, fd, earlier);
            && |c.session.finished| <= |answered| <= |c.session.finished| + 1
            && forall k :: 0 <= k < |c.session.finished| ==>
                 var shown := c.session.finished[k].shown;
                 && answered[k] <= |stored|
                 && shown == LinesAt(stored, answered[k])
                 && (ParseAll(shown) == Shown(stored[..answered[k]])
                     <==> forall e :: e in stored[..answered[k]] ==> OneLine(e))
  {
    var start := Opened(listener, earlier, words);
    StartAgrees(listener, earlier, words);
    var stored, answered := RunKeeps(start, moves, c, fd, earlier, []);
    ConcatNothing(AnsweredAt(start, moves, c, fd, earlier));
    ShownIsStored(c, stored, answered);
  }

  lemma StartAgrees(listener: int, earlier: seq<Entry>, words: string)
    requires forall e :: e in earlier ==> |e.uid| == UID_LENGTH
    ensures Agrees(Opened(listener, earlier, words), earlier, [])
  {
    GroupSystem.StartInvariant(listener, FileOf(earlier), words);
  }

  lemma ShownIsStored(c: Joint, stored: seq<Entry>, answered: seq<nat>)
    requires Agrees(c, stored, answered)
    ensures |c.session.finished| <= |answered| <= |c.session.finished| + 1
    ensures forall k :: 0 <= k < |c.session.finished| ==>
              var shown := c.session.finished[k].shown;
              && answered[k] <= |stored|
              && shown == LinesAt(stored, answered[k])
              && (ParseAll(shown) == Shown(stored[..answered[k]])
                  <==> forall e :: e in stored[..answered[k]] ==> OneLine(e))
  {
    forall k | 0 <= k < |c.session.finished|
      ensures ParseAll(LinesAt(stored, answered[k])) == Shown(stored[..answered[k]])
              <==> forall e :: e in stored[..answered[k]] ==> OneLine(e)
    {
      HistoryReplays(stored[..answered[k]]);
    }
  }

  /** A server opened on what earlier ones stored, and a client that has loaded nothing. */
  function Opened(listener: int, earlier: seq<Entry>, words: string): Joint {
    Joint(GroupSystem.Start(listener, FileOf(earlier), words), LoadProtocol.FRESH)
  }

  // ------------------------------------------------------------------ the run behind it

  /** The group chat's part of a move. */
  function GroupEvent(m: Move, fd: int): seq<GroupSystem.Event> {
    match m
    case Group(e) => [e]
    case Client(_) => []
    case Answer(slot, rands) => [LoadEvent(slot, rands)]
    case Take => [GroupSystem.Consumed(fd)]
  }

  function GroupEvents(moves: seq<Move>, fd: int): seq<GroupSystem.Event> {
    if moves == [] then [] else GroupEvent(moves[0], fd) + GroupEvents(moves[1..], fd)
  }

  /** Leaving the client's own steps out gives a run of the group chat that stores the
      same, so all that holds of those runs holds here. */
  lemma {:induction false} GroupPartIsRun(c: Joint, moves: seq<Move>, c': Joint, fd: int)
    requires Run(c, moves, c', fd)
    ensures GroupSystem.Run(c.sys, GroupEvents(moves, fd), c'.sys)
    ensures GroupRuns.StoredDuring(c.sys, GroupEvents(moves, fd), c'.sys) == StoredDuring(c, moves, c', fd)
    decreases |moves|
  {
    if moves != [] {
      var next, later := Next(c, moves[0], fd), GroupEvents(moves[1..], fd);
      GroupPartIsRun(next, moves[1..], c', fd);
      match moves[0]
      case Client(_) =>
        ConcatNothing(later);
        ConcatNothing(StoredDuring(next, moves[1..], c', fd));
      case _ => StoredCons(c.sys, GroupEvent(moves[0], fd)[0], later, c'.sys);
    }
  }

  lemma StoredCons(sys: GroupSystem.System, e: GroupSystem.Event, events: seq<GroupSystem.Event>, sys': GroupSystem.System)
    requires GroupSystem.Legal(sys, e) && GroupSystem.StepDefined(sys, e)
    requires GroupSystem.Run(GroupSystem.Step(sys, e), events, sys')
    ensures GroupSystem.Run(sys, [e] + events, sys')
    ensures GroupRuns.StoredDuring(sys, [e] + events, sys')
         == GroupRuns.StoredBy(sys, e) + GroupRuns.StoredDuring(GroupSystem.Step(sys, e), events, sys')
  {
    assert ([e] + events)[1..] == events;
  }
}
