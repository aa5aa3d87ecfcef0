/** Which games can be brought to their end: in every reachable state of the group chat,
    exactly those that have a word. */
module EndingRuns {
  import opened CText
  import opened GroupServer
  import opened GroupSystem
  import opened GroupRuns
  import opened GameRuns
  import opened Hangman

  // ------------------------------------------------------------------ a run that ends one

  /** A game is on and the first registered member plays it. */
  predicate FirstPlays(sys: System) {
    && Invariant(sys) && sys.server.game.phase == Playing
    && sys.server.count >= 1 && InGame(sys.server, sys.server.members[0].uid)
  }

  function FirstGuesses(c: char): Event {
    Served(1, Arrival(Got(Chat([c])), []))
  }

  lemma GuessStep(sys: System, c: char)
    requires FirstPlays(sys) && c != NUL
    ensures Legal(sys, FirstGuesses(c)) && StepDefined(sys, FirstGuesses(c))
    ensures var sys' := Step(sys, FirstGuesses(c));
            && sys'.server.game == Turn(sys.server.game, c)
            && (sys'.server.game.phase == Playing ==> FirstPlays(sys'))
  {
    var arrival := Arrival(Got(Chat([c])), []);
    assert CStr([c]) == [c];
    StepKeepsInvariant(sys, FirstGuesses(c));
    SenderIsMember(sys, 1, arrival);
    OnlyGuessesPlay(sys.server, 1, arrival);
    HandleLists(sys.server, 1, arrival);
    HandleSends(sys.server, 1, arrival);
  }

  /** The first member's guesses are a run, for as long as the game is on. */
  lemma {:induction false} GuessRun(sys: System, guesses: string) returns (events: seq<Event>, sys': System)
    requires FirstPlays(sys) && NUL !in guesses
    ensures Run(sys, events, sys') && sys'.server.game == After(sys.server.game, guesses)
    ensures sys'.server.game.phase == Playing ==> FirstPlays(sys')
    decreases |guesses|
  {
    if guesses == "" {
      events, sys' := [], sys;
    } else {
      var before, c := guesses[..|guesses| - 1], guesses[|guesses| - 1];
      events, sys' := GuessRun(sys, before);
      if sys'.server.game.phase == Playing {
        GuessStep(sys', c);
        RunThenStep(sys, events, sys', FirstGuesses(c));
        events, sys' := events + [FirstGuesses(c)], Step(sys', FirstGuesses(c));
      }
    }
  }

  // ------------------------------------------------------------------ somebody to play

  /** A bound on finitely many descriptors. */
  lemma {:induction false} Above(used: set<int>) returns (n: nat)
    ensures forall fd :: fd in used ==> fd < n
  {
    n := 0;
    if fd :| fd in used {
      n := Above(used - {fd});
      n := if fd < n then n else fd + 1;
      assert forall x :: x in used ==> x == fd || x in used - {fd};
    }
  }

  /** There is a connection, if need be a new one. */
  lemma Connect(sys: System) returns (events: seq<Event>, sys': System)
    requires Invariant(sys)
    ensures Run(sys, events, sys') && Invariant(sys') && Connections(sys'.server) >= 1
    ensures sys'.server.game == sys.server.game && sys'.server.count == sys.server.count
  {
    events, sys' := [], sys;
    if Connections(sys.server) == 0 {
      var fd := Above(sys.channel.Keys + {sys.server.listener});
      StepKeepsInvariant(sys, Accepted(fd));
      events, sys' := [Accepted(fd)], Step(sys, Accepted(fd));
      RunCons(sys, Accepted(fd), sys', [], sys');
    }
  }

  const SOMEBODY := Member(seq(UID_LENGTH, _ => 'a'), "")

  /** There is a member, if need be a new one. */
  lemma Register(sys: System) returns (events: seq<Event>, sys': System)
    requires Invariant(sys)
    ensures Run(sys, events, sys') && Invariant(sys') && sys'.server.count >= 1
    ensures sys'.server.game == sys.server.game
  {
    events, sys' := Connect(sys);
    if sys.server.count == 0 {
      var e := Served(1, Arrival(Got(Init(SOMEBODY)), []));
      RunKeepsInvariant(sys, events, sys');
      StepKeepsInvariant(sys', e);
      RunThenStep(sys, events, sys', e);
      events, sys' := events + [e], Step(sys', e);
    }
  }

  /** The first member plays, if need be after joining. */
  lemma SomebodyPlays(sys: System) returns (events: seq<Event>, sys': System)
    requires Invariant(sys) && sys.server.game.phase == Playing
    ensures Run(sys, events, sys') && FirstPlays(sys') && sys'.server.game == sys.server.game
  {
    events, sys' := Register(sys);
    var e := Served(1, Arrival(Got(Request.Hangman("join")), []));
    CStrIs("join", "join");
    JoinStep(sys', e, "join");
    RunThenStep(sys, events, sys', e);
    events, sys' := events + [e], Step(sys', e);
  }

  lemma JoinStep(sys: System, e: Event, text: string)
    requires Invariant(sys) && sys.server.game.phase == Playing && sys.server.count >= 1
    requires e == Served(1, Arrival(Got(Request.Hangman(text)), [])) && CStr(text) == "join"
    ensures Legal(sys, e) && StepDefined(sys, e)
    ensures FirstPlays(Step(sys, e)) && Step(sys, e).server.game == sys.server.game
  {
    var arrival := Arrival(Got(Request.Hangman(text)), []);
    StepKeepsInvariant(sys, e);
    SenderIsMember(sys, 1, arrival);
    OnlyGuessesPlay(sys.server, 1, arrival);
    HandleLists(sys.server, 1, arrival);
    HandleSends(sys.server, 1, arrival);
  }

  // ------------------------------------------------------------------ which games can end

  /** The game is one that was opened and has had some guesses. */
  ghost predicate Rooted(game: Game) {
    exists g, guesses :: Opened(g) && game == After(g, guesses)
  }

  predicate Opened(g: Game) {
    WellFormed(g) && g.phase == Playing && !g.started
  }

  /** Whenever a game is on, it is such a game. */
  ghost predicate OnlyRooted(s: Server) {
    s.game.phase == Playing ==> Rooted(s.game)
  }

  lemma TurnKeepsRooted(game: Game, c: char)
    requires Rooted(game) && WellFormed(game) && game.phase == Playing
    ensures Rooted(Turn(game, c))
  {
    var g, guesses :| Opened(g) && game == After(g, guesses);
    assert (guesses + [c])[..|guesses|] == guesses;
    assert Turn(game, c) == After(g, guesses + [c]);
  }

  lemma OpenedIsRooted(g: Game)
    requires Opened(g)
    ensures Rooted(g)
  {
    assert g == After(g, "");
  }

  lemma HandleKeepsRooted(s: Server, slot: nat, arrival: Arrival)
    requires InBounds(s, slot, arrival.recv) && GameInvariant(s) && OnlyRooted(s)
    ensures OnlyRooted(Handle(s, slot, arrival).0)
  {
    var g := Handle(s, slot, arrival).0.game;
    if s.game.phase == Playing {
      OnlyGuessesPlay(s, slot, arrival);
      forall c ensures Rooted(Turn(s.game, c)) {
        TurnKeepsRooted(s.game, c);
      }
    } else if g.phase == Playing {
      HandleKeepsGame(s, slot, arrival);
      StartIsOpened(s, slot, arrival);
      OpenedIsRooted(g);
    }
  }

  lemma StartIsOpened(s: Server, slot: nat, arrival: Arrival)
    requires InBounds(s, slot, arrival.recv) && GameInvariant(s) && s.game.phase == Phase.Initial
    ensures var g := Handle(s, slot, arrival).0.game;
            g.phase == Playing ==> Opened(g)
  {
    match arrival.recv
    case Got(Chat(text)) => ChatKeepsGame(s, slot, text, arrival.rands);
    case _ =>
  }

  lemma {:induction false} RunKeepsRooted(sys: System, events: seq<Event>, sys': System)
    requires Invariant(sys) && Run(sys, events, sys') && OnlyRooted(sys.server)
    ensures OnlyRooted(sys'.server)
    decreases |events|
  {
    if events != [] {
      StepKeepsInvariant(sys, events[0]);
      match events[0] {
        case Served(slot, arrival) => HandleKeepsRooted(sys.server, slot, arrival);
        case _ =>
      }
      RunKeepsRooted(Step(sys, events[0]), events[1..], sys');
    }
  }

  lemma {:induction false} AfterTwice(g: Game, a: string, b: string)
    requires WellFormed(g)
    ensures After(After(g, a), b) == After(g, a + b)
    decreases |b|
  {
    if b == "" {
      assert a + b == a;
    } else {
      assert (a + b)[..|a + b| - 1] == a + b[..|b| - 1];
      AfterTwice(g, a, b[..|b| - 1]);
    }
  }

  lemma TwelveMoreEndIt(game: Game)
    requires Rooted(game) && WellFormed(game) && game.word != ""
    ensures After(game, TwelveLetters()).phase == Phase.Initial
  {
    var g, guesses :| Opened(g) && game == After(g, guesses);
    AfterTwice(g, guesses, TwelveLetters());
    TwelveMoreEnd(g, guesses);
  }

  ghost predicate CanEndGame(sys: System) {
    exists events, sys' :: Run(sys, events, sys') && sys'.server.game.phase == Phase.Initial
  }

  /** In every reachable state in which a game is on, some legal run brings it to its end
      if and only if it has a word. */
  lemma ReachableGameCanEnd(listener: int, history: string, words: string, events: seq<Event>, sys: System)
    requires Run(Start(listener, history, words), events, sys) && sys.server.game.phase == Playing
    ensures CanEndGame(sys) <==> sys.server.game.word != ""
  {
    StartInvariant(listener, history, words);
    RunKeepsInvariant(Start(listener, history, words), events, sys);
    RunKeepsRooted(Start(listener, history, words), events, sys);
    if sys.server.game.word != "" {
      EndIt(sys);
    } else {
      forall more, sys' | Run(sys, more, sys') ensures sys'.server.game.phase == Playing {
        WordlessGameNeverEnds(sys, more, sys');
      }
    }
  }

  lemma EndIt(sys: System)
    requires Invariant(sys) && Rooted(sys.server.game) && sys.server.game.phase == Playing && sys.server.game.word != ""
    ensures CanEndGame(sys)
  {
    var first, ready := SomebodyPlays(sys);
    var later, end := GuessRun(ready, TwelveLetters());
    TwelveMoreEndIt(sys.server.game);
    RunsJoin(sys, first, ready, later, end);
    assert Run(sys, first + later, end);
  }

  lemma {:induction false} RunsJoin(sys: System, a: seq<Event>, mid: System, b: seq<Event>, sys': System)
    requires Run(sys, a, mid) && Run(mid, b, sys')
    ensures Run(sys, a + b, sys')
    decreases |a|
  {
    if a == [] {
      assert a + b == b;
    } else {
      assert (a + b)[1..] == a[1..] + b;
      RunsJoin(Step(sys, a[0]), a[1..], mid, b, sys');
    }
  }
}
