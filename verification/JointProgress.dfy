/** That loads do happen in the group chat as a whole: a registered client's load can be
    asked for, answered from the history as it is, and finished, in every reachable state. */
module JointProgress {
  import opened Collections
  import opened GroupServer
  import opened LoadRuns
  import opened LoadQueue
  import GroupSystem
  import GroupRuns
  import History
  import LoadProtocol
  import LoadProgress

  /** Both sides are as they are in runs. */
  predicate Sound(c: Joint, fd: int) {
    GroupSystem.Invariant(c.sys) && LoadProtocol.Invariant(c.session) && OneQueue(c, fd)
  }

  /** ... the client on `fd` is the registered one in `slot`, and nobody is typing there. */
  predicate Ready(c: Joint, slot: nat, fd: int) {
    Sound(c, fd) && c.session.typing == LoadProtocol.AtPrompt && Registered(c.sys, slot, fd)
  }

  predicate Registered(sys: GroupSystem.System, slot: nat, fd: int) {
    1 <= slot <= sys.server.count && slot < |sys.server.pfds| && sys.server.pfds[slot].fd == fd
  }

  function LinesNow(c: Joint): seq<string> {
    History.HistoryLines(c.sys.server.history)
  }

  /** The next move of the server or of the receiving side, if there is any. */
  function NextMove(c: Joint, slot: nat, fd: int): Option<Move> {
    match LoadProgress.Pending(c.session, LinesNow(c))
    case None => None
    case Some(a) =>
      if a.ServeRequest? && c.session.up != [] && c.session.up[0] == LoadProtocol.LoadRequest then Some(Answer(slot, []))
      else if a.TakePacket? && c.session.down != [] && c.session.down[0] != LoadProtocol.OtherPacket then
        Some(if TakesReply(c.sys, GroupSystem.Consumed(fd), fd) then Take else Move.Group(GroupSystem.Consumed(fd)))
      else Some(Client(a))
  }

  /** Nothing of the server but its channels has changed. */
  predicate SameServer(c: Joint, c': Joint) {
    c'.sys.server == c.sys.server && c'.sys.identity == c.sys.identity
  }

  function Owed(c: Joint): seq<LoadProtocol.Finished> {
    LoadProgress.Owed(c.session, LinesNow(c))
  }

  predicate Nearer(c': Joint, c: Joint, fd: int) {
    LoadProgress.Nearer(c'.session, c.session)
    || (c'.session == c.session && |ChannelOf(c'.sys, fd)| < |ChannelOf(c.sys, fd)|)
  }

  lemma AnswerMove(c: Joint, slot: nat, fd: int)
    requires Ready(c, slot, fd) && NextMove(c, slot, fd) == Some(Answer(slot, []))
    ensures Allowed(c, Answer(slot, []), fd)
    ensures var c' := Next(c, Answer(slot, []), fd);
            && SameServer(c, c') && Ready(c', slot, fd)
            && c'.session.finished + Owed(c') == c.session.finished + Owed(c) && Nearer(c', c, fd)
  {
    GroupSystem.LegalIsDefined(c.sys, LoadEvent(slot, []));
    MoveKeepsQueue(c, Answer(slot, []), fd);
    LoadProgress.PendingStep(c.session, LinesNow(c));
  }

  lemma ClientMove(c: Joint, slot: nat, fd: int, a: LoadProtocol.Action)
    requires Ready(c, slot, fd) && NextMove(c, slot, fd) == Some(Client(a))
    ensures Allowed(c, Client(a), fd)
    ensures var c' := Next(c, Client(a), fd);
            && SameServer(c, c') && Ready(c', slot, fd)
            && c'.session.finished + Owed(c') == c.session.finished + Owed(c) && Nearer(c', c, fd)
  {
    LoadProgress.PendingStep(c.session, LinesNow(c));
    MoveKeepsQueue(c, Client(a), fd);
  }

  lemma TakeMove(c: Joint, slot: nat, fd: int)
    requires Ready(c, slot, fd) && NextMove(c, slot, fd) == Some(Take)
    ensures Allowed(c, Take, fd)
    ensures var c' := Next(c, Take, fd);
            && SameServer(c, c') && Ready(c', slot, fd)
            && c'.session.finished + Owed(c') == c.session.finished + Owed(c) && Nearer(c', c, fd)
  {
    LoadProgress.PendingStep(c.session, LinesNow(c));
    MoveKeepsQueue(c, Take, fd);
  }

  /** A packet of another kind is ahead of the reply on the client's channel. */
  lemma OtherMove(c: Joint, slot: nat, fd: int)
    requires Ready(c, slot, fd) && NextMove(c, slot, fd) == Some(Move.Group(GroupSystem.Consumed(fd)))
    ensures Allowed(c, Move.Group(GroupSystem.Consumed(fd)), fd)
    ensures var c' := Next(c, Move.Group(GroupSystem.Consumed(fd)), fd);
            && SameServer(c, c') && Ready(c', slot, fd)
            && c'.session.finished + Owed(c') == c.session.finished + Owed(c) && Nearer(c', c, fd)
  {
    assert OnTheWay(c.session) == [c.session.down[0]] + LoadsIn(c.session.down[1..]) + Unsent(c.session.serving);
    assert ChannelOf(c.sys, fd) != [];
    MoveKeepsQueue(c, Move.Group(GroupSystem.Consumed(fd)), fd);
  }

  lemma MoveOnward(c: Joint, slot: nat, fd: int)
    requires Ready(c, slot, fd) && NextMove(c, slot, fd).Some?
    ensures var m := NextMove(c, slot, fd).value;
            Allowed(c, m, fd) &&
            var c' := Next(c, m, fd);
            && SameServer(c, c') && Ready(c', slot, fd)
            && c'.session.finished + Owed(c') == c.session.finished + Owed(c) && Nearer(c', c, fd)
  {
    match NextMove(c, slot, fd).value
    case Answer(_, _) => AnswerMove(c, slot, fd);
    case Take => TakeMove(c, slot, fd);
    case Client(a) => ClientMove(c, slot, fd, a);
    case Group(_) => OtherMove(c, slot, fd);
  }

  lemma RunCons(c: Joint, m: Move, rest: seq<Move>, c': Joint, fd: int)
    requires Allowed(c, m, fd) && Run(Next(c, m, fd), rest, c', fd)
    ensures Run(c, [m] + rest, c', fd)
  {
    assert ([m] + rest)[1..] == rest;
  }

  /** With nobody typing, the load under way is finished with the whole history shown. */
  lemma {:induction false} Settle(c: Joint, slot: nat, fd: int) returns (moves: seq<Move>, c': Joint)
    requires Ready(c, slot, fd)
    ensures Run(c, moves, c', fd) && LoadProgress.Quiet(c'.session) && SameServer(c, c')
    ensures c'.session.finished == c.session.finished + Owed(c)
    decreases |c.session.up|, LoadProgress.ServingSize(c.session), |c.session.down|,
              LoadProgress.ReceivingSize(c.session.receiving), |ChannelOf(c.sys, fd)|
  {
    if NextMove(c, slot, fd).None? {
      LoadProgress.AtRest(c.session, LinesNow(c));
      moves, c' := [], c;
      ConcatNothing(c.session.finished);
    } else {
      var m := NextMove(c, slot, fd).value;
      MoveOnward(c, slot, fd);
      moves, c' := Settle(Next(c, m, fd), slot, fd);
      RunCons(c, m, moves, c', fd);
      moves := [m] + moves;
    }
  }

  // ------------------------------------------------------------------ asking for one

  predicate OnlyTyping(actions: seq<LoadProtocol.Action>) {
    forall a :: a in actions ==> !a.ServeRequest? && !a.TakePacket?
  }

  function AsMoves(actions: seq<LoadProtocol.Action>): seq<Move> {
    if actions == [] then [] else [Client(actions[0])] + AsMoves(actions[1..])
  }

  lemma {:induction false} ClientRun(c: Joint, actions: seq<LoadProtocol.Action>, session: LoadProtocol.Session, fd: int)
    requires OnlyTyping(actions) && LoadProtocol.Run(c.session, actions, session)
    ensures Run(c, AsMoves(actions), c.(session := session), fd)
    decreases |actions|
  {
    if actions != [] {
      assert actions[0] in actions && forall a :: a in actions[1..] ==> a in actions;
      var next := Next(c, Client(actions[0]), fd);
      ClientRun(next, actions[1..], session, fd);
      RunCons(c, Client(actions[0]), AsMoves(actions[1..]), c.(session := session), fd);
    }
  }

  lemma {:induction false} RunsJoin(c: Joint, a: seq<Move>, mid: Joint, b: seq<Move>, c': Joint, fd: int)
    requires Run(c, a, mid, fd) && Run(mid, b, c', fd)
    ensures Run(c, a + b, c', fd)
    decreases |a|
  {
    if a == [] {
      ConcatNothing(b);
    } else {
      assert (a + b)[1..] == a[1..] + b;
      RunsJoin(Next(c, a[0], fd), a[1..], mid, b, c', fd);
    }
  }

  /** In every reachable state of the group chat, a registered client that is idle can ask
      for a load, have it answered, and finish it with every line of the history as it is
      shown, while the server stays as it was. */
  lemma RegisteredLoadCanFinish(listener: int, earlier: seq<History.Entry>, words: string,
                                before: seq<Move>, c: Joint, slot: nat, fd: int)
    returns (moves: seq<Move>, c': Joint)
    requires forall e :: e in earlier ==> |e.uid| == 8
    requires Run(Opened(listener, earlier, words), before, c, fd) && Registered(c.sys, slot, fd)
    requires c.session.state == LoadProtocol.Idle && c.session.typing == LoadProtocol.AtPrompt
    ensures Run(c, AsMoves(LoadProgress.TYPING) + moves, c', fd)
    ensures SameServer(c, c') && LoadProgress.Quiet(c'.session)
    ensures c'.session.finished == c.session.finished + [LoadProtocol.Finished(LinesNow(c), LinesNow(c))]
  {
    ReachableIsSound(listener, earlier, words, before, c, fd);
    var asked := Ask(c, slot, fd);
    moves, c' := Settle(asked, slot, fd);
    RunsJoin(c, AsMoves(LoadProgress.TYPING), asked, moves, c', fd);
  }

  lemma Ask(c: Joint, slot: nat, fd: int) returns (asked: Joint)
    requires Sound(c, fd) && Registered(c.sys, slot, fd)
    requires c.session.state == LoadProtocol.Idle && c.session.typing == LoadProtocol.AtPrompt
    ensures Run(c, AsMoves(LoadProgress.TYPING), asked, fd)
    ensures Ready(asked, slot, fd) && SameServer(c, asked) && asked.session.finished == c.session.finished
    ensures Owed(asked) == [LoadProtocol.Finished(LinesNow(c), LinesNow(c))]
  {
    var session := c.session.(state := LoadProtocol.Requesting, up := c.session.up + [LoadProtocol.LoadRequest]);
    asked := c.(session := session);
    LoadProgress.IdleLoadIsSent(c.session);
    LoadProtocol.RunKeepsInvariant(c.session, LoadProgress.TYPING, session);
    ClientRun(c, LoadProgress.TYPING, session, fd);
  }

  lemma ReachableIsSound(listener: int, earlier: seq<History.Entry>, words: string, moves: seq<Move>, c: Joint, fd: int)
    requires forall e :: e in earlier ==> |e.uid| == 8
    requires Run(Opened(listener, earlier, words), moves, c, fd)
    ensures Sound(c, fd)
  {
    StartAgrees(listener, earlier, words);
    var stored, answered := RunKeeps(Opened(listener, earlier, words), moves, c, fd, earlier, []);
    LoadsShareOneQueue(listener, earlier, words, moves, c, fd);
  }
}
