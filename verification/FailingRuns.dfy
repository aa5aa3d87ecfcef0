/** Runs in which the program falls short of what one would expect of it: each is legal,
    so the theorems on legal runs say exactly how far it does. */
module FailingRuns {
  import opened Collections
  import opened CText
  import opened GroupServer
  import opened GroupSystem
  import opened GroupRuns
  import opened GameRuns
  import opened Hangman
  import WordChoice

  /** One client registered, a second accepted and not registered yet. */
  predicate SecondWaiting(sys: System, a: Member) {
    && Invariant(sys) && sys.server.listener == 0
    && sys.server.pfds == [PollFd(0, false), PollFd(1, false), PollFd(2, false)]
    && sys.server.count == 1 && sys.identity == map[1 := a]
    && sys.server.game.phase == Phase.Initial
    && 2 in sys.channel && sys.channel[2] == [] && 2 in sys.clients && sys.clients[2] == Client(EMPTY_GROUP, false)
  }

  /** One client is accepted and registers. */
  function Registration(a: Member): seq<Event> {
    [Accepted(1)] + [Served(1, Arrival(Got(Init(a)), []))]
  }

  predicate OneAccepted(sys: System) {
    && Invariant(sys) && sys.server.listener == 0 && sys.server.pfds == [PollFd(0, false), PollFd(1, false)]
    && sys.server.count == 0 && sys.identity == map[] && sys.channel.Keys == {1}
    && sys.server.game.phase == Phase.Initial
  }

  predicate OneRegistered(sys: System, a: Member) {
    && Invariant(sys) && sys.server.listener == 0 && sys.server.pfds == [PollFd(0, false), PollFd(1, false)]
    && sys.server.count == 1 && sys.identity == map[1 := a] && sys.channel.Keys == {1}
    && sys.server.game.phase == Phase.Initial
  }

  lemma FirstAccepted(words: string) returns (sys: System)
    ensures Run(Start(0, "", words), [Accepted(1)], sys) && OneAccepted(sys)
  {
    var start := Start(0, "", words);
    StartInvariant(0, "", words);
    StepKeepsInvariant(start, Accepted(1));
    sys := Step(start, Accepted(1));
    RunCons(start, Accepted(1), sys, [], sys);
  }

  lemma InitStep(sys: System, a: Member)
    requires OneAccepted(sys) && |a.uid| == UID_LENGTH
    ensures var e := Served(1, Arrival(Got(Init(a)), []));
            Legal(sys, e) && StepDefined(sys, e) && OneRegistered(Step(sys, e), a)
  {
    StepKeepsInvariant(sys, Served(1, Arrival(Got(Init(a)), [])));
  }

  lemma AcceptStep(sys: System, a: Member)
    requires OneRegistered(sys, a)
    ensures Legal(sys, Accepted(2)) && StepDefined(sys, Accepted(2)) && SecondWaiting(Step(sys, Accepted(2)), a)
  {
    StepKeepsInvariant(sys, Accepted(2));
  }

  lemma FirstRegisters(words: string, a: Member) returns (sys: System)
    requires |a.uid| == UID_LENGTH
    ensures Run(Start(0, "", words), Registration(a), sys) && OneRegistered(sys, a)
  {
    var first := FirstAccepted(words);
    var e := Served(1, Arrival(Got(Init(a)), []));
    InitStep(first, a);
    RunThenStep(Start(0, "", words), [Accepted(1)], first, e);
    sys := Step(first, e);
  }

  lemma SecondWaits(words: string, a: Member) returns (sys: System)
    requires |a.uid| == UID_LENGTH
    ensures Run(Start(0, "", words), Registration(a) + [Accepted(2)], sys) && SecondWaiting(sys, a)
  {
    var registered := FirstRegisters(words, a);
    AcceptStep(registered, a);
    RunThenStep(Start(0, "", words), Registration(a), registered, Accepted(2));
    sys := Step(registered, Accepted(2));
  }

  /** The failing case of attribution is a legal run: a client that hears a message
      between being accepted and the first broadcast after it has no copy of the group
      yet, and resolves the sender to nobody. */
  lemma EarlyMessageIsUnattributed(words: string, a: Member) returns (events: seq<Event>, sys: System)
    requires |a.uid| == UID_LENGTH
    ensures Run(Start(0, "", words), events, sys)
    ensures 2 in sys.channel && 2 in sys.clients && |sys.clients[2].view.members| == MAX_GROUP_MEMBERS
    ensures sys.channel[2] == [Envelope(Relay(LMP_MSG, 0, "hi"), a)] && sys.clients[2].view.members[0] == NOBODY != a
  {
    var mid := SecondWaits(words, a);
    var hi := Arrival(Got(Chat("hi")), []);
    events := Registration(a) + [Accepted(2)] + [Served(1, hi)];
    StepKeepsInvariant(mid, Served(1, hi));
    sys := Step(mid, Served(1, hi));
    RunThenStep(Start(0, "", words), Registration(a) + [Accepted(2)], mid, Served(1, hi));
    HiReachesSecond(mid, a);
  }

  lemma HiReachesSecond(mid: System, a: Member)
    requires SecondWaiting(mid, a) && StepDefined(mid, Served(1, Arrival(Got(Chat("hi")), [])))
    ensures Step(mid, Served(1, Arrival(Got(Chat("hi")), []))).channel[2] == [Envelope(Relay(LMP_MSG, 0, "hi"), a)]
  {
    assert mid.server.pfds[2].fd in Fds(mid.server.pfds);
    ChatRelayedOnce(mid.server, 1, "hi", [], 2);
  }

  /** The failing case of alignment is reachable: the second connection hangs up before it
      has registered, and the server then counts no member although the first one is
      connected and registered. */
  lemma MisaligningHangup(words: string, a: Member) returns (events: seq<Event>, sys: System)
    requires |a.uid| == UID_LENGTH
    ensures Run(Start(0, "", words), events, sys) && Aligned(sys.server, sys.identity)
    ensures InBounds(sys.server, 2, Hangup)
    ensures var after, identity := Delete(sys.server, 2), IdentityAfter(sys.server, 2, Hangup, sys.identity);
            && !Aligned(after, identity)
            && after.pfds == [PollFd(0, false), PollFd(1, false)] && identity == map[1 := a] && after.count == 0
  {
    events := Registration(a) + [Accepted(2)];
    sys := SecondWaits(words, a);
    HangupAligned(sys.server, 2, sys.identity);
    assert sys.identity - {2} == map[1 := a];
  }

  // ------------------------------------------------------------------ the game

  /** The one member has this game and these listings. */
  predicate Alone(sys: System, a: Member, listings: seq<string>) {
    && Invariant(sys) && sys.server.pfds == [PollFd(0, false), PollFd(1, false)]
    && sys.server.count == 1 && sys.identity == map[1 := a]
    && (sys.server.game.phase == Phase.Initial <==> listings == []) && sys.server.players == listings
  }

  function Command(text: string): Event {
    Served(1, Arrival(Got(Request.Hangman(text)), []))
  }

  /** A start without a game, a join in one, or an exit from a second listing. */
  predicate Answered(listings: seq<string>, a: Member, text: string) {
    if listings == [] then CStr(text) == "start"
    else CStr(text) == "join" || (CStr(text) == "exit" && |listings| > 1 && listings[0] == a.uid)
  }

  /** One `/hangman` request of the only member. */
  lemma OneCommand(sys: System, a: Member, listings: seq<string>, text: string)
    requires Alone(sys, a, listings)
    requires Answered(listings, a, text)
    ensures Legal(sys, Command(text)) && StepDefined(sys, Command(text))
    ensures Alone(Step(sys, Command(text)), a, if CStr(text) == "exit" then listings[1..] else [a.uid] + listings)
  {
    var arrival := Arrival(Got(Request.Hangman(text)), []);
    StepKeepsInvariant(sys, Command(text));
    SenderIsMember(sys, 1, arrival);
    HandleLists(sys.server, 1, arrival);
    HandleSends(sys.server, 1, arrival);
    CommandKeepsGame(sys.server, text);
  }

  lemma CommandKeepsGame(s: Server, text: string)
    requires InBounds(s, 1, Got(Request.Hangman(text))) && GameReady(s.game)
    ensures var s' := AfterHangman(s, 1, text, []).0;
            s'.game.phase == (if CStr(text) == "start" && s.game.phase == Phase.Initial then Playing else s.game.phase)
  {
  }

  lemma Commands()
    ensures CStr("start") == "start" && CStr("join") == "join" && CStr("exit") == "exit"
  {
    CStrIs("start", "start");
    CStrIs("join", "join");
    CStrIs("exit", "exit");
  }

  lemma ThenCommand(words: string, events: seq<Event>, sys: System, a: Member, listings: seq<string>, text: string)
    returns (sys': System)
    requires Run(Start(0, "", words), events, sys) && Alone(sys, a, listings) && Answered(listings, a, text)
    ensures Run(Start(0, "", words), events + [Command(text)], sys')
    ensures Alone(sys', a, if CStr(text) == "exit" then listings[1..] else [a.uid] + listings)
  {
    OneCommand(sys, a, listings, text);
    RunThenStep(Start(0, "", words), events, sys, Command(text));
    sys' := Step(sys, Command(text));
  }

  lemma FirstAlone(words: string, a: Member) returns (sys: System)
    requires |a.uid| == UID_LENGTH
    ensures Run(Start(0, "", words), Registration(a), sys)
    ensures Alone(sys, a, [])
  {
    sys := FirstRegisters(words, a);
  }

  lemma PlayerJoins(words: string, a: Member, start: string, join: string) returns (sys: System)
    requires |a.uid| == UID_LENGTH && CStr(start) == "start" && CStr(join) == "join"
    ensures Run(Start(0, "", words), Registration(a) + [Command(start)] + [Command(join)], sys)
    ensures Alone(sys, a, [a.uid] + [a.uid])
  {
    sys := FirstAlone(words, a);
    sys := ThenCommand(words, Registration(a), sys, a, [], start);
    ConcatNothing([a.uid]);
    sys := ThenCommand(words, Registration(a) + [Command(start)], sys, a, [a.uid], join);
  }

  lemma PlayerExits(words: string, a: Member, start: string, join: string, exit: string) returns (sys: System)
    requires |a.uid| == UID_LENGTH && CStr(start) == "start" && CStr(join) == "join" && CStr(exit) == "exit"
    ensures Run(Start(0, "", words), Registration(a) + [Command(start)] + [Command(join)] + [Command(exit)], sys)
    ensures Alone(sys, a, [a.uid])
  {
    sys := PlayerJoins(words, a, start, join);
    sys := ThenCommand(words, Registration(a) + [Command(start)] + [Command(join)], sys, a, [a.uid] + [a.uid], exit);
    assert ([a.uid] + [a.uid])[1..] == [a.uid];
  }

  /** The failing case of leaving the game: a member starts a game, joins it and exits,
      and is still in it. */
  lemma ExitKeepsPlaying(words: string, a: Member) returns (sys: System)
    requires |a.uid| == UID_LENGTH
    ensures var events := Registration(a) + [Command("start")] + [Command("join")] + [Command("exit")];
            Run(Start(0, "", words), events, sys)
    ensures sys.identity == map[1 := a] && InGame(sys.server, a.uid)
  {
    Commands();
    sys := PlayerExits(words, a, "start", "join", "exit");
  }

  /** The failing case of ending a game: without an eligible word in the file a game
      starts without a word, and no run ends it. */
  lemma WordlessGame(words: string, a: Member) returns (sys: System)
    requires |a.uid| == UID_LENGTH && WordChoice.Eligible(FgetsAll(words, 1024)) == []
    ensures Run(Start(0, "", words), Registration(a) + [Command("start")], sys)
    ensures sys.server.game.phase == Playing && sys.server.game.word == ""
    ensures forall events, sys' :: Run(sys, events, sys') ==> sys'.server.game == sys.server.game
  {
    Commands();
    var start, first := Start(0, "", words), Registration(a);
    sys := FirstAlone(words, a);
    sys := ThenCommand(words, first, sys, a, [], "start");
    StartInvariant(0, "", words);
    NoWordsNoWord(start, first + [Command("start")], sys);
    forall events, sys' | Run(sys, events, sys') ensures sys'.server.game == sys.server.game {
      WordlessGameNeverEnds(sys, events, sys');
    }
  }
}
