/** What whole legal runs of the group chat do: who is sent what, what is stored and
    loaded back. */
module GroupRuns {
  import opened Collections
  import opened CText
  import opened GroupServer
  import opened GroupSystem
  import opened History
  import opened Hangman
  import opened Participants

  // ------------------------------------------------------------------ runs

  lemma RunCons(sys: System, e: Event, next: System, events: seq<Event>, sys': System)
    requires Legal(sys, e) && StepDefined(sys, e) && next == Step(sys, e) && Run(next, events, sys')
    ensures Run(sys, [e] + events, sys')
  {
    assert ([e] + events)[1..] == events;
  }

  lemma {:induction false} RunThenStep(sys: System, events: seq<Event>, mid: System, e: Event)
    requires Run(sys, events, mid) && Legal(mid, e) && StepDefined(mid, e)
    ensures Run(sys, events + [e], Step(mid, e))
    decreases |events|
  {
    if events == [] {
      RunCons(mid, e, Step(mid, e), [], Step(mid, e));
      assert [] + [e] == [e] + [];
    } else {
      assert (events + [e])[1..] == events[1..] + [e];
      RunThenStep(Step(sys, events[0]), events[1..], mid, e);
    }
  }

  // ------------------------------------------------------------------ who is sent what

  lemma {:induction false} PacketsToAppend(a: seq<Sent>, b: seq<Sent>, fd: int)
    ensures PacketsTo(a + b, fd) == PacketsTo(a, fd) + PacketsTo(b, fd)
  {
    if b == [] {
      assert a + b == a;
    } else {
      assert (a + b)[..|a + b| - 1] == a + b[..|b| - 1];
      PacketsToAppend(a, b[..|b| - 1], fd);
    }
  }

  lemma PacketsToOne(x: Sent, fd: int)
    ensures PacketsTo([x], fd) == if x.fd == fd then [x.packet] else []
  {
    assert [x][..0] == [];
  }

  /** A chat message outside the game goes once to every other connection, with the
      sender's slot and the text as received, and not back to the sender. */
  lemma ChatRelayedOnce(s: Server, slot: nat, text: string, rands: seq<nat>, fd: int)
    requires PfdsWellFormed(s) && InBounds(s, slot, Got(Chat(text))) && GameReady(s.game)
    requires !InGame(s, s.members[slot - 1].uid)
    ensures PacketsTo(AfterChat(s, slot, text, rands).1, fd)
            == if fd in Fds(s.pfds) && fd != s.listener && fd != s.pfds[slot].fd
               then [Relay(LMP_MSG, slot - 1, text)] else []
  {
    PacketsToSendAll(s.pfds, {s.listener, s.pfds[slot].fd}, Relay(LMP_MSG, slot - 1, text), fd);
  }

  /** A participant's message during a game is neither relayed nor stored. */
  lemma GameInputStaysInGame(s: Server, slot: nat, text: string, rands: seq<nat>)
    requires InBounds(s, slot, Got(Chat(text))) && GameReady(s.game) && InGame(s, s.members[slot - 1].uid)
    ensures var (s', sends) := AfterChat(s, slot, text, rands);
            s'.history == s.history && forall x :: x in sends ==> x.packet.HangmanNote?
  {
    if s.game.phase != Updating && |CStr(text)| == 1 {
      RepliesPackets(s, s.players, AfterGuess(s, slot, text, rands).0.last);
    }
  }

  lemma StartSends(s: Server, slot: nat, nick: CString, fd: int)
    requires PfdsWellFormed(s) && 1 <= slot < |s.pfds|
    ensures var sender := s.pfds[slot].fd;
            PacketsTo(Note(sender, Started(nick)) + SendAll(s.pfds, {s.listener, sender}, HangmanNote(Announced(nick))), fd)
            == if fd == sender then [HangmanNote(Started(nick))]
               else if fd in Fds(s.pfds) && fd != s.listener then [HangmanNote(Announced(nick))]
               else []
  {
    var sender := s.pfds[slot].fd;
    var note, all := Note(sender, Started(nick)), SendAll(s.pfds, {s.listener, sender}, HangmanNote(Announced(nick)));
    PacketsToAppend(note, all, fd);
    PacketsToOne(Sent(sender, HangmanNote(Started(nick))), fd);
    AnnouncementsTo(s, slot, HangmanNote(Announced(nick)), fd);
    ConcatNothing(PacketsTo(note, fd));
    ConcatNothing(PacketsTo(all, fd));
  }

  lemma AnnouncementsTo(s: Server, slot: nat, packet: Packet, fd: int)
    requires PfdsWellFormed(s) && 1 <= slot < |s.pfds|
    ensures PacketsTo(SendAll(s.pfds, {s.listener, s.pfds[slot].fd}, packet), fd)
            == if fd != s.pfds[slot].fd && fd in Fds(s.pfds) && fd != s.listener then [packet] else []
  {
    PacketsToSendAll(s.pfds, {s.listener, s.pfds[slot].fd}, packet, fd);
  }

  function Copies(n: nat, packet: Packet): seq<Packet> {
    if n == 0 then [] else Copies(n - 1, packet) + [packet]
  }

  /** How often the member in slot k, if it is registered, is listed; the listener in
      slot 0 is not. */
  function Listings(s: Server, players: seq<string>, k: nat): nat
    requires s.count <= |s.members|
  {
    if 1 <= k <= s.count then multiset(players)[s.members[k - 1].uid] else 0
  }

  lemma ListingsSnoc(s: Server, before: seq<string>, uid: string, k: nat)
    requires s.count <= |s.members|
    ensures Listings(s, before + [uid], k)
         == Listings(s, before, k) + if 1 <= k <= s.count && s.members[k - 1].uid == uid then 1 else 0
  {
  }

  /** Guess delivery: each connection is sent the reply exactly as often as its UID is
      in the participant list, an unregistered one and the listener never, and nothing
      goes to a descriptor outside the poll array. */
  lemma {:induction false} RepliesPerListing(s: Server, players: seq<string>, notice: Notice, k: nat)
    requires PfdsWellFormed(s) && DistinctUids(s) && s.count < |s.pfds| && k < |s.pfds|
    ensures PacketsTo(Replies(s, players, notice), s.pfds[k].fd) == Copies(Listings(s, players, k), HangmanNote(notice))
    ensures forall x :: x in Replies(s, players, notice) ==> x.fd in Fds(s.pfds)
  {
    RepliesPackets(s, players, notice);
    if players != [] {
      var before, uid := players[..|players| - 1], players[|players| - 1];
      assert players == before + [uid];
      RepliesPerListing(s, before, notice, k);
      OneMoreListing(s, before, uid, notice, k);
    }
  }

  lemma OneMoreListing(s: Server, before: seq<string>, uid: string, notice: Notice, k: nat)
    requires PfdsWellFormed(s) && DistinctUids(s) && s.count < |s.pfds| && k < |s.pfds|
    requires PacketsTo(Replies(s, before, notice), s.pfds[k].fd) == Copies(Listings(s, before, k), HangmanNote(notice))
    ensures PacketsTo(Replies(s, before + [uid], notice), s.pfds[k].fd)
         == Copies(Listings(s, before + [uid], k), HangmanNote(notice))
  {
    ReplyReaches(s, uid, notice, k);
    ListingsSnoc(s, before, uid, k);
    PacketsSnoc(s, before, uid, notice, s.pfds[k].fd);
    CopiesSnoc(Listings(s, before, k), HangmanNote(notice), PacketsTo(ReplyTo(s, uid, notice), s.pfds[k].fd));
  }

  lemma CopiesSnoc(n: nat, packet: Packet, more: seq<Packet>)
    requires more == [] || more == [packet]
    ensures Copies(n, packet) + more == Copies(n + |more|, packet)
  {
    assert Copies(n, packet) + [] == Copies(n, packet);
  }

  lemma PacketsSnoc(s: Server, before: seq<string>, uid: string, notice: Notice, fd: int)
    requires s.count <= |s.members| && s.count < |s.pfds|
    ensures PacketsTo(Replies(s, before + [uid], notice), fd)
         == PacketsTo(Replies(s, before, notice), fd) + PacketsTo(ReplyTo(s, uid, notice), fd)
  {
    assert (before + [uid])[..|before|] == before;
    PacketsToAppend(Replies(s, before, notice), ReplyTo(s, uid, notice), fd);
  }

  lemma ReplyReaches(s: Server, uid: string, notice: Notice, k: nat)
    requires PfdsWellFormed(s) && DistinctUids(s) && s.count < |s.pfds| && k < |s.pfds|
    ensures PacketsTo(ReplyTo(s, uid, notice), s.pfds[k].fd)
            == if 1 <= k <= s.count && s.members[k - 1].uid == uid then [HangmanNote(notice)] else []
  {
    var j := FindMember(s.members, s.count, uid);
    if j < s.count {
      PacketsToOne(Sent(s.pfds[j + 1].fd, HangmanNote(notice)), s.pfds[k].fd);
      assert s.members[j].uid == uid;
      if 1 <= k <= s.count && k - 1 != j {
        assert s.members[k - 1].uid != uid;
      }
    }
  }

  /** A participant's single letter: every connection gets the scored reply, which shows
      the game as it is after all guesses up to this one, once per listing of its member, those who join later get that same reply, and the list is
      emptied exactly when the round is over. */
  lemma GuessAnswered(s: Server, slot: nat, text: string, rands: seq<nat>, k: nat)
    requires PfdsWellFormed(s) && DistinctUids(s) && GameInvariant(s) && k < |s.pfds|
    requires InBounds(s, slot, Got(Chat(text))) && InGame(s, s.members[slot - 1].uid) && |CStr(text)| == 1
    ensures var (s', sends) := AfterChat(s, slot, text, rands);
            var scored := Scored(s.members[slot - 1].nick, text[0], UpdateHangman(s.game.(phase := Updating), text[0]).1);
            && PacketsTo(sends, s.pfds[k].fd) == Copies(Listings(s, s.players, k), HangmanNote(scored))
            && s' == s.(game := s'.game, last := s'.last, players := s'.players)
            && s'.last == scored && s'.game == Turn(s.game, text[0])
            && s'.players == (if s'.game.phase == Phase.Initial then [] else s.players)
            && (s.game.word == "" ==> scored.reply == Reply(NoWord, "", "", 0))
            && forall g, before :: Fresh(g) && s.game == After(g, before) ==>
                 Shows(scored.reply, g.word, before + [text[0]])
  {
    RepliesPerListing(s, s.players, AfterChat(s, slot, text, rands).0.last, k);
    forall g, before | Fresh(g) && s.game == After(g, before)
      ensures Shows(UpdateHangman(s.game.(phase := Updating), text[0]).1, g.word, before + [text[0]])
    {
      RoundReplyShows(g, before, text[0]);
    }
  }

  /** `/hangman exit` returns its sender to normal messaging if and only if he was listed
      at most once: who started and joined, or joined twice, goes on playing. */
  lemma ExitLeavesGame(s: Server, slot: nat)
    requires 1 <= slot < |s.pfds| && slot <= |s.members| && s.game.phase != Phase.Initial
    ensures var uid := s.members[slot - 1].uid;
            !InGame(AfterExit(s, slot).0, uid) <==> multiset(s.players)[uid] <= 1
    ensures forall other :: other != s.members[slot - 1].uid ==>
              InGame(AfterExit(s, slot).0, other) == InGame(s, other)
  {
    var uid := s.members[slot - 1].uid;
    var after := RemoveFirst(s.players, uid);
    RemoveFirstCounts(s.players, uid, uid);
    assert uid in after <==> uid in multiset(after);
    forall other | other != uid ensures other in after <==> other in s.players {
      RemoveFirstCounts(s.players, uid, other);
      assert other in after <==> other in multiset(after);
      assert other in s.players <==> other in multiset(s.players);
    }
  }

  // ------------------------------------------------------------------ what is stored

  /** What one event adds to the history: a storable chat message of somebody who is
      not playing, under the sender's true UID. */
  function StoredBy(sys: System, e: Event): seq<Entry>
    requires StepDefined(sys, e)
  {
    match e
    case Served(slot, Arrival(Got(Chat(text)), _)) =>
      var who := SenderOf(sys.identity, sys.server.pfds[slot].fd);
      if !InGame(sys.server, who.uid) && Storable(who.uid, CStr(text)) then [Entry(who.uid, CStr(text))] else []
    case _ => []
  }

  /** What a legal run adds to the history, in handling order. */
  function StoredDuring(sys: System, events: seq<Event>, sys': System): seq<Entry>
    requires Run(sys, events, sys')
    decreases |events|
  {
    if events == [] then []
    else StoredBy(sys, events[0]) + StoredDuring(Step(sys, events[0]), events[1..], sys')
  }

  lemma StepStores(sys: System, e: Event)
    requires Invariant(sys) && Legal(sys, e) && StepDefined(sys, e)
    ensures Step(sys, e).server.history == sys.server.history + FileOf(StoredBy(sys, e))
    ensures Step(sys, e).server.words == sys.server.words
  {
    match e
    case Polled(_) =>
    case Accepted(_) =>
    case Consumed(_) =>
    case Served(slot, arrival) =>
      if arrival.recv.Got? && arrival.recv.request.Chat? {
        var text := arrival.recv.request.text;
        SenderIsMember(sys, slot, arrival);
        ChatStores(sys.server, slot, text, arrival.rands);
        assert arrival == Arrival(Got(Chat(text)), arrival.rands);
        var who := sys.server.members[slot - 1];
        assert FileOf([Entry(who.uid, CStr(text))]) == Record(Entry(who.uid, CStr(text))) + FileOf([]);
      } else {
        OthersStoreNothing(sys.server, slot, arrival);
      }
  }

  lemma ChatStores(s: Server, slot: nat, text: string, rands: seq<nat>)
    requires InBounds(s, slot, Got(Chat(text))) && GameReady(s.game)
    ensures var (s', who) := (AfterChat(s, slot, text, rands).0, s.members[slot - 1]);
            s'.history == (if InGame(s, who.uid) then s.history else Saved(s.history, who.uid, CStr(text)))
            && s'.words == s.words
  {
  }

  lemma OthersStoreNothing(s: Server, slot: nat, arrival: Arrival)
    requires InBounds(s, slot, arrival.recv) && GameReady(s.game)
    requires arrival.recv.Got? ==> !arrival.recv.request.Chat?
    ensures Handle(s, slot, arrival).0.history == s.history
    ensures Handle(s, slot, arrival).0.words == s.words
  {
  }

  /** Message conservation: over any legal run the history file grows by exactly the
      storable chat messages not consumed as game input, in the order handled. */
  lemma {:induction false} HistoryGrowsByStored(sys: System, events: seq<Event>, sys': System)
    requires Invariant(sys) && Run(sys, events, sys')
    ensures sys'.server.history == sys.server.history + FileOf(StoredDuring(sys, events, sys'))
    decreases |events|
  {
    if events != [] {
      var next := Step(sys, events[0]);
      StepKeepsInvariant(sys, events[0]);
      StepStores(sys, events[0]);
      HistoryGrowsByStored(next, events[1..], sys');
      var first, later := StoredBy(sys, events[0]), StoredDuring(next, events[1..], sys');
      FileOfAppend(first, later);
      ConcatAssociates(sys.server.history, FileOf(first), FileOf(later));
    }
  }

  lemma {:induction false} StoredUids(sys: System, events: seq<Event>, sys': System)
    requires Run(sys, events, sys')
    ensures forall e :: e in StoredDuring(sys, events, sys') ==> Storable(e.uid, e.message)
    decreases |events|
  {
    if events != [] {
      StoredUids(Step(sys, events[0]), events[1..], sys');
    }
  }

  function AsPackets(lines: seq<string>): seq<Packet> {
    seq(|lines|, i requires 0 <= i < |lines| => HistoryLine(lines[i]))
  }

  lemma {:induction false} PacketsToLines(fd: int, lines: seq<string>, to: int)
    ensures PacketsTo(LinesTo(fd, lines), to) == if to == fd then AsPackets(lines) else []
  {
    if lines != [] {
      var before, last := lines[..|lines| - 1], HistoryLine(lines[|lines| - 1]);
      PacketsToLines(fd, before, to);
      PacketsToSnoc(LinesTo(fd, before), Sent(fd, last), to);
      assert AsPackets(lines) == AsPackets(before) + [last];
    }
  }

  lemma LoadSends(s: Server, slot: nat, fd: int)
    requires InBounds(s, slot, Got(Load))
    ensures PacketsTo(AfterLoad(s, slot).1, fd)
            == if fd == s.pfds[slot].fd then AsPackets(HistoryLines(s.history)) + [LoadEnd] else []
  {
    var sender, lines := s.pfds[slot].fd, HistoryLines(s.history);
    PacketsToLines(sender, lines, fd);
    PacketsToSnoc(LinesTo(sender, lines), Sent(sender, LoadEnd), fd);
  }

  /** Loading end to end: in any legal run of a server opened on the records of earlier
      ones, a load request is answered, to its sender alone, by those and the messages
      stored since, and an end marker; the client reads them back as they were stored,
      in order, each with its newline, if and only if every stored message is one line
      of at most 1014 characters, under a UID without a newline. */
  lemma LoadReplaysRun(listener: int, earlier: seq<Entry>, words: string, events: seq<Event>, sys: System,
                       slot: nat, rands: seq<nat>, fd: int)
    requires forall e :: e in earlier ==> |e.uid| == UID_LENGTH
    requires Run(Start(listener, FileOf(earlier), words), events, sys)
    requires Legal(sys, Served(slot, Arrival(Got(Load), rands)))
    ensures InBounds(sys.server, slot, Got(Load))
    ensures var stored := earlier + StoredDuring(Start(listener, FileOf(earlier), words), events, sys);
            var lines := HistoryLines(sys.server.history);
            && PacketsTo(AfterLoad(sys.server, slot).1, fd)
               == (if fd == sys.server.pfds[slot].fd then AsPackets(lines) + [LoadEnd] else [])
            && (ParseAll(lines) == Shown(stored) <==> forall e :: e in stored ==> OneLine(e))
  {
    var start := Start(listener, FileOf(earlier), words);
    StartInvariant(listener, FileOf(earlier), words);
    RunKeepsInvariant(start, events, sys);
    HistoryGrowsByStored(start, events, sys);
    var during := StoredDuring(start, events, sys);
    FileOfAppend(earlier, during);
    StoredUids(start, events, sys);
    HistoryReplays(earlier + during);
    LoadSends(sys.server, slot, fd);
  }
}
