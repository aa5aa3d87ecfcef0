/** The hangman game in whole legal runs: how a round goes while everything else goes on,
    and who is playing. */
module GameRuns {
  import opened Collections
  import opened CText
  import opened GroupServer
  import opened GroupSystem
  import opened GroupRuns
  import opened Hangman
  import opened Participants
  import opened Answers
  import WordChoice

  // ------------------------------------------------------------------ rounds in runs

  /** A participant's single letter, with the nickname he has when it is handled. */
  datatype Guess = Guess(who: string, letter: char)

  /** The letters guessed, as the game's history. */
  function Spelled(guesses: seq<Guess>): (s: string)
    ensures |s| == |guesses|
  {
    seq(|guesses|, i requires 0 <= i < |guesses| => guesses[i].letter)
  }

  lemma SpelledSnoc(guesses: seq<Guess>, x: Guess)
    ensures Spelled(guesses + [x]) == Spelled(guesses) + [x.letter]
    ensures Spelled(guesses + [x])[..|guesses|] == Spelled(guesses)
  {
  }

  /** The guess an event contributes to the round, if any. */
  function GuessOf(sys: System, e: Event): seq<Guess>
    requires StepDefined(sys, e)
  {
    match e
    case Served(slot, Arrival(Got(Chat(text)), _)) =>
      var who := SenderOf(sys.identity, sys.server.pfds[slot].fd);
      if InGame(sys.server, who.uid) && |CStr(text)| == 1 then [Guess(who.nick, text[0])] else []
    case _ => []
  }

  /** A game is on before every event of the run. */
  predicate RoundOpen(sys: System, events: seq<Event>, sys': System)
    requires Run(sys, events, sys')
    decreases |events|
  {
    events != [] ==>
      sys.server.game.phase == Playing && RoundOpen(Step(sys, events[0]), events[1..], sys')
  }

  /** The guesses a run contributes, in handling order. */
  function GuessesDuring(sys: System, events: seq<Event>, sys': System): seq<Guess>
    requires Run(sys, events, sys')
    decreases |events|
  {
    if events == [] then [] else GuessOf(sys, events[0]) + GuessesDuring(Step(sys, events[0]), events[1..], sys')
  }

  /** What the players were last told: the start notice until there is a guess, then the
      reply to the last one, in the state the guesses before it had led to. */
  function Latest(g: Game, starter: string, guesses: seq<Guess>): Notice
    requires Fresh(g)
  {
    if guesses == [] then Started(starter)
    else
      var before, last := guesses[..|guesses| - 1], guesses[|guesses| - 1];
      Scored(last.who, last.letter, UpdateHangman(After(g, Spelled(before)).(phase := Updating), last.letter).1)
  }

  /** The round opened as `g` by `starter` stands as after these guesses, and the text
      kept for those who join is the latest the players were told. */
  predicate Follows(s: Server, g: Game, starter: string, guesses: seq<Guess>)
    requires Fresh(g)
  {
    s.game == After(g, Spelled(guesses)) && s.last == Latest(g, starter, guesses)
  }

  lemma OnlyGuessesPlay(s: Server, slot: nat, arrival: Arrival)
    requires InBounds(s, slot, arrival.recv) && GameReady(s.game) && s.game.phase == Playing
    ensures var s' := Handle(s, slot, arrival).0;
            if arrival.recv.Got? && arrival.recv.request.Chat? && InGame(s, s.members[slot - 1].uid)
               && |CStr(arrival.recv.request.text)| == 1
            then
              var letter := arrival.recv.request.text[0];
              && s'.game == Turn(s.game, letter)
              && s'.last == Scored(s.members[slot - 1].nick, letter, UpdateHangman(s.game.(phase := Updating), letter).1)
            else s'.game == s.game && s'.last == s.last
  {
  }

  lemma GuessFollows(s: Server, s': Server, g: Game, starter: string, guesses: seq<Guess>, x: Guess)
    requires Fresh(g) && Follows(s, g, starter, guesses) && s.game.phase == Playing
    requires s'.game == Turn(s.game, x.letter)
    requires s'.last == Scored(x.who, x.letter, UpdateHangman(s.game.(phase := Updating), x.letter).1)
    ensures Follows(s', g, starter, guesses + [x])
  {
    SpelledSnoc(guesses, x);
    assert (guesses + [x])[..|guesses|] == guesses;
  }

  lemma StepFollows(sys: System, e: Event, g: Game, starter: string, guesses: seq<Guess>)
    requires Invariant(sys) && Legal(sys, e) && StepDefined(sys, e)
    requires Fresh(g) && Follows(sys.server, g, starter, guesses) && sys.server.game.phase == Playing
    ensures Follows(Step(sys, e).server, g, starter, guesses + GuessOf(sys, e))
  {
    assert guesses + [] == guesses;
    match e
    case Polled(_) =>
    case Accepted(_) =>
    case Consumed(_) =>
    case Served(slot, arrival) =>
      OnlyGuessesPlay(sys.server, slot, arrival);
      if arrival.recv.Got? && arrival.recv.request.Chat? {
        SenderIsMember(sys, slot, arrival);
        var text := arrival.recv.request.text;
        assert arrival == Arrival(Got(Chat(text)), arrival.rands);
        if GuessOf(sys, e) != [] {
          GuessFollows(sys.server, Step(sys, e).server, g, starter, guesses, GuessOf(sys, e)[0]);
        }
      }
  }

  /** A round in a run: whatever else happens meanwhile (chats, joins, exits, hangups,
      registrations, loads), the server's game is the fresh game after exactly the
      letters its participants sent, so all that holds of guess histories holds of it;
      its word is the word drawn at the start, and the text kept for those who join is
      the reply to the latest guess, or the start notice if there was none. */
  lemma {:induction false} GameFollowsGuesses(sys: System, events: seq<Event>, sys': System,
                                              g: Game, starter: string, guesses: seq<Guess>)
    requires Invariant(sys) && Run(sys, events, sys') && RoundOpen(sys, events, sys')
    requires Fresh(g) && Follows(sys.server, g, starter, guesses)
    ensures Follows(sys'.server, g, starter, guesses + GuessesDuring(sys, events, sys'))
    ensures sys'.server.game.word == g.word
    decreases |events|
  {
    if events == [] {
      assert guesses + [] == guesses;
    } else {
      var first, next := events[0], Step(sys, events[0]);
      StepKeepsInvariant(sys, first);
      StepFollows(sys, first, g, starter, guesses);
      GameFollowsGuesses(next, events[1..], sys', g, starter, guesses + GuessOf(sys, first));
      ConcatAssociates(guesses, GuessOf(sys, first), GuessesDuring(next, events[1..], sys'));
    }
  }

  /** The start notice, or a reply to the latest guesser that shows the game as it is. */
  predicate LatestShown(g: Game, starter: string, guesses: seq<Guess>, notice: Notice) {
    if guesses == [] then notice == Started(starter)
    else
      var last := guesses[|guesses| - 1];
      notice.Scored? && notice.who == last.who && notice.letter == last.letter
      && Shows(notice.reply, g.word, Spelled(guesses))
  }

  lemma LatestIsShown(g: Game, starter: string, guesses: seq<Guess>)
    requires Fresh(g) && After(g, Spelled(guesses)).phase == Playing
    ensures LatestShown(g, starter, guesses, Latest(g, starter, guesses))
  {
    if guesses != [] {
      var before, last := guesses[..|guesses| - 1], guesses[|guesses| - 1];
      SpelledLast(guesses);
      LastReplyShows(g, Spelled(guesses), Spelled(before), last.letter);
    }
  }

  lemma SpelledLast(guesses: seq<Guess>)
    requires guesses != []
    ensures Spelled(guesses) == Spelled(guesses[..|guesses| - 1]) + [guesses[|guesses| - 1].letter]
  {
  }

  lemma LastReplyShows(g: Game, spelled: string, before: string, letter: char)
    requires Fresh(g) && spelled == before + [letter] && After(g, spelled).phase == Playing
    ensures Shows(UpdateHangman(After(g, before).(phase := Updating), letter).1, g.word, spelled)
  {
    OpenBefore(g, spelled);
    assert spelled[..|spelled| - 1] == before;
    RoundReplyShows(g, before, letter);
  }

  /** Whoever joins at any later point of a round is shown, and he alone, what the
      players were last told, and is playing from then on. */
  lemma JoinerSeesLatest(sys: System, events: seq<Event>, sys': System, g: Game, starter: string,
                         slot: nat, text: string, rands: seq<nat>, fd: int)
    requires Invariant(sys) && Run(sys, events, sys') && RoundOpen(sys, events, sys')
    requires Fresh(g) && Follows(sys.server, g, starter, []) && sys'.server.game.phase == Playing
    requires Legal(sys', Served(slot, Arrival(Got(Request.Hangman(text)), rands))) && CStr(text) == "join"
    ensures InBounds(sys'.server, slot, Got(Request.Hangman(text))) && GameReady(sys'.server.game)
    ensures var (s'', sends) := Handle(sys'.server, slot, Arrival(Got(Request.Hangman(text)), rands));
            var latest := Latest(g, starter, GuessesDuring(sys, events, sys'));
            && PacketsTo(sends, fd) == (if fd == sys'.server.pfds[slot].fd then [HangmanNote(latest)] else [])
            && InGame(s'', sys'.server.members[slot - 1].uid)
            && LatestShown(g, starter, GuessesDuring(sys, events, sys'), latest)
  {
    GameFollowsGuesses(sys, events, sys', g, starter, []);
    ConcatNothing(GuessesDuring(sys, events, sys'));
    LatestIsShown(g, starter, GuessesDuring(sys, events, sys'));
    RunKeepsInvariant(sys, events, sys');
    JoinAsked(sys', slot, text, rands, fd);
  }

  lemma JoinAsked(sys: System, slot: nat, text: string, rands: seq<nat>, fd: int)
    requires Invariant(sys) && sys.server.game.phase == Playing
    requires Legal(sys, Served(slot, Arrival(Got(Request.Hangman(text)), rands))) && CStr(text) == "join"
    ensures InBounds(sys.server, slot, Got(Request.Hangman(text)))
    ensures var (s', sends) := Handle(sys.server, slot, Arrival(Got(Request.Hangman(text)), rands));
            && PacketsTo(sends, fd) == (if fd == sys.server.pfds[slot].fd then [HangmanNote(sys.server.last)] else [])
            && InGame(s', sys.server.members[slot - 1].uid)
  {
    SenderIsMember(sys, slot, Arrival(Got(Request.Hangman(text)), rands));
    JoinAnswered(sys.server, slot, text, rands, fd);
  }

  lemma NoWordsNoChoice(word: string, file: string, rands: seq<nat>)
    requires WordChoice.Eligible(FgetsAll(file, 1024)) == []
    ensures WordChoice.Chosen(word, file, rands) == word
  {
  }

  lemma CommandKeepsOrChooses(s: Server, slot: nat, text: string, rands: seq<nat>)
    requires InBounds(s, slot, Got(Request.Hangman(text))) && GameReady(s.game)
    ensures var game := AfterHangman(s, slot, text, rands).0.game;
            game == s.game || game.word == WordChoice.Chosen(s.game.word, s.words, rands)
  {
  }

  lemma WordIsKeptOrChosen(s: Server, slot: nat, arrival: Arrival)
    requires InBounds(s, slot, arrival.recv) && GameInvariant(s)
    ensures var word := Handle(s, slot, arrival).0.game.word;
            word == s.game.word || word == WordChoice.Chosen(s.game.word, s.words, arrival.rands)
  {
    match arrival.recv
    case Got(Chat(text)) => ChatKeepsGame(s, slot, text, arrival.rands);
    case Got(Hangman(text)) => CommandKeepsOrChooses(s, slot, text, arrival.rands);
    case _ =>
  }

  lemma NoWordsKeepWord(s: Server, slot: nat, arrival: Arrival)
    requires InBounds(s, slot, arrival.recv) && GameInvariant(s) && WordChoice.Eligible(FgetsAll(s.words, 1024)) == []
    ensures Handle(s, slot, arrival).0.game.word == s.game.word
  {
    WordIsKeptOrChosen(s, slot, arrival);
    NoWordsNoChoice(s.game.word, s.words, arrival.rands);
  }

  /** With a word file that has no eligible word, the word stays what it was. */
  lemma {:induction false} NoWordsNoWord(sys: System, events: seq<Event>, sys': System)
    requires Invariant(sys) && Run(sys, events, sys') && WordChoice.Eligible(FgetsAll(sys.server.words, 1024)) == []
    ensures sys'.server.game.word == sys.server.game.word
    decreases |events|
  {
    if events != [] {
      StepKeepsInvariant(sys, events[0]);
      StepStores(sys, events[0]);
      match events[0] {
        case Served(slot, arrival) => NoWordsKeepWord(sys.server, slot, arrival);
        case _ =>
      }
      NoWordsNoWord(Step(sys, events[0]), events[1..], sys');
    }
  }

  /** A game that started without a word cannot end: whatever happens in a run, and
      whoever guesses or leaves, it stays as it is. */
  lemma {:induction false} WordlessGameNeverEnds(sys: System, events: seq<Event>, sys': System)
    requires Invariant(sys) && Run(sys, events, sys')
    requires sys.server.game.phase == Playing && sys.server.game.word == ""
    ensures sys'.server.game == sys.server.game
    decreases |events|
  {
    if events != [] {
      StepKeepsInvariant(sys, events[0]);
      match events[0] {
        case Served(slot, arrival) => OnlyGuessesPlay(sys.server, slot, arrival);
        case _ =>
      }
      WordlessGameNeverEnds(Step(sys, events[0]), events[1..], sys');
    }
  }

  // ------------------------------------------------------------------ who is playing

  /** What an event does to the participant list: a start or a join during a game adds
      the sender, an exit removes him once, a guess that ends the round frees the list. */
  function ListOpsOf(sys: System, e: Event): seq<ListOp>
    requires StepDefined(sys, e)
  {
    match e
    case Served(slot, Arrival(Got(Hangman(text)), _)) =>
      var uid, playing := SenderOf(sys.identity, sys.server.pfds[slot].fd).uid, sys.server.game.phase != Phase.Initial;
      if CStr(text) == "exit" then [Remove(uid)]
      else if CStr(text) == "start" && !playing then [Add(uid)]
      else if CStr(text) == "join" && playing then [Add(uid)]
      else []
    case Served(slot, Arrival(Got(Chat(_)), _)) =>
      if sys.server.game.phase != Phase.Initial && Step(sys, e).server.game.phase == Phase.Initial then [Free] else []
    case _ => []
  }

  function ListOpsDuring(sys: System, events: seq<Event>, sys': System): seq<ListOp>
    requires Run(sys, events, sys')
    decreases |events|
  {
    if events == [] then [] else ListOpsOf(sys, events[0]) + ListOpsDuring(Step(sys, events[0]), events[1..], sys')
  }

  lemma StepLists(sys: System, e: Event, ops: seq<ListOp>)
    requires Invariant(sys) && Legal(sys, e) && StepDefined(sys, e) && sys.server.players == ListAfter(ops)
    ensures Step(sys, e).server.players == ListAfter(ops + ListOpsOf(sys, e))
  {
    assert ops + [] == ops;
    match e
    case Polled(_) =>
    case Accepted(_) =>
    case Consumed(_) =>
    case Served(slot, arrival) =>
      if !ChangesGroup(arrival.recv) {
        SenderIsMember(sys, slot, arrival);
        HandleLists(sys.server, slot, arrival);
        var more := ListOpsOf(sys, e);
        if more != [] {
          assert more == [more[0]] && (ops + more)[..|ops|] == ops;
        }
      }
  }

  lemma HandleLists(s: Server, slot: nat, arrival: Arrival)
    requires InBounds(s, slot, arrival.recv) && GameInvariant(s) && 1 <= slot <= |s.members|
    requires |s.members[slot - 1].uid| == UID_LENGTH
    ensures var s', uid := Handle(s, slot, arrival).0, s.members[slot - 1].uid;
            s'.players ==
              match arrival.recv
              case Got(Hangman(text)) =>
                if CStr(text) == "exit" then RemoveFirst(s.players, uid)
                else if CStr(text) == "start" && s.game.phase == Phase.Initial then [uid] + s.players
                else if CStr(text) == "join" && s.game.phase != Phase.Initial then [uid] + s.players
                else s.players
              case Got(Chat(_)) =>
                if s.game.phase != Phase.Initial && s'.game.phase == Phase.Initial then [] else s.players
              case _ => s.players
  {
  }

  /** Over any legal run the participant list is what the participants' own requests
      make it, so each UID is listed as often as it was added less removed since the
      last round ended. */
  lemma {:induction false} PlayersFollowRequests(sys: System, events: seq<Event>, sys': System, ops: seq<ListOp>)
    requires Invariant(sys) && Run(sys, events, sys') && sys.server.players == ListAfter(ops)
    ensures sys'.server.players == ListAfter(ops + ListOpsDuring(sys, events, sys'))
    ensures forall uid :: multiset(sys'.server.players)[uid] == Tally(ops + ListOpsDuring(sys, events, sys'), uid)
    decreases |events|
  {
    if events == [] {
      assert ops + [] == ops;
      forall uid ensures multiset(sys'.server.players)[uid] == Tally(ops, uid) {
        MultiplicityIsTally(ops, uid);
      }
    } else {
      var next, first := Step(sys, events[0]), ListOpsOf(sys, events[0]);
      StepKeepsInvariant(sys, events[0]);
      StepLists(sys, events[0], ops);
      PlayersFollowRequests(next, events[1..], sys', ops + first);
      ConcatAssociates(ops, first, ListOpsDuring(next, events[1..], sys'));
    }
  }

  /** `/hangman start` opens a round with its starter as the one participant, tells the
      starter and announces it to everybody else.  The word is one of the file's that
      fit, or the last round's if none does; the round can be played to its end if and
      only if that word is not empty. */
  lemma StartOpensRound(s: Server, slot: nat, rands: seq<nat>, fd: int)
    requires PfdsWellFormed(s) && InBounds(s, slot, Got(Request.Hangman("start"))) && GameInvariant(s)
    requires s.game.phase == Phase.Initial && |s.members[slot - 1].uid| == UID_LENGTH
    ensures var (s', sends) := AfterStart(s, slot, rands);
            var sender, words := s.members[slot - 1], WordChoice.Eligible(FgetsAll(s.words, 1024));
            && s'.game.phase == Playing
            && (if words == [] then s'.game.word == s.game.word else s'.game.word in words)
            && (forall ws, last :: WordChoice.ShortLines(ws, last) && s.words == WordChoice.WordFile(ws, last) ==>
                  words == WordChoice.Fitting(ws + if last == "" then [] else [last]))
            && ((exists guesses :: After(s'.game, guesses).phase == Phase.Initial) <==> s'.game.word != "")
            && (s'.game.word != "" ==> Fresh(s'.game) && Follows(s', s'.game, sender.nick, []))
            && s'.players == [sender.uid]
            && PacketsTo(sends, fd) ==
               (if fd == s.pfds[slot].fd then [HangmanNote(Started(sender.nick))]
                else if fd in Fds(s.pfds) && fd != s.listener then [HangmanNote(Announced(sender.nick))]
                else [])
  {
    StartSends(s, slot, s.members[slot - 1].nick, fd);
    CanEnd(AfterStart(s, slot, rands).0.game);
    forall ws, last | WordChoice.ShortLines(ws, last) && s.words == WordChoice.WordFile(ws, last)
      ensures WordChoice.Eligible(FgetsAll(s.words, 1024)) == WordChoice.Fitting(ws + if last == "" then [] else [last])
    {
      WordChoice.EligibleWords(ws, last);
    }
  }
}
