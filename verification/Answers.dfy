/** What the server does about each kind of frame, and who is told what: the new state in
    full, and for every descriptor the packets it is sent. */
module Answers {
  import opened Collections
  import opened CText
  import opened GroupServer
  import opened GroupSystem
  import opened GroupRuns
  import opened Hangman
  import opened Participants
  import History
  import WordChoice

  /** The connections other than the listener. */
  predicate Client(s: Server, fd: int) {
    fd in Fds(s.pfds) && fd != s.listener
  }

  // ------------------------------------------------------------------ changes of the group

  /** A hangup: the last connection takes the slot that became free, the entry at its
      position in the member array goes with it, nothing else moves, and everybody who is
      left is sent the group as it then is. */
  lemma HangupAnswered(s: Server, slot: nat, rands: seq<nat>, fd: int)
    requires PfdsWellFormed(s) && InBounds(s, slot, Hangup) && GameReady(s.game)
    ensures var (s', sends) := Handle(s, slot, Arrival(Hangup, rands));
            var n := |s.pfds| - 1;
            && s' == s.(pfds := s'.pfds, members := s'.members, count := s.count - 1)
            && |s'.pfds| == n && (forall k :: 0 <= k < n ==> s'.pfds[k] == s.pfds[if k == slot then n else k])
            && |s'.members| == 10
            && (forall k :: 0 <= k < 10 ==> s'.members[k] == s.members[if k == slot - 1 then n - 1 else k])
            && PacketsTo(sends, fd)
               == (if Client(s, fd) && fd != s.pfds[slot].fd then [GroupObj(Group(s'.members, s.count - 1))] else [])
  {
    HangupMoves(s, slot);
    GroupToTheRest(s, slot, fd);
  }

  lemma HangupMoves(s: Server, slot: nat)
    requires InBounds(s, slot, Hangup)
    ensures var s', n := Delete(s, slot), |s.pfds| - 1;
            && s' == s.(pfds := s'.pfds, members := s'.members, count := s.count - 1)
            && |s'.pfds| == n && (forall k :: 0 <= k < n ==> s'.pfds[k] == s.pfds[if k == slot then n else k])
            && |s'.members| == 10
            && (forall k :: 0 <= k < 10 ==> s'.members[k] == s.members[if k == slot - 1 then n - 1 else k])
  {
  }

  lemma GroupToTheRest(s: Server, slot: nat, fd: int)
    requires PfdsWellFormed(s) && InBounds(s, slot, Hangup)
    ensures var s' := Delete(s, slot);
            PacketsTo(NewGroup(s'), fd) == if Client(s, fd) && fd != s.pfds[slot].fd then [GroupObj(GroupOf(s'))] else []
  {
    SentToTheRest(s.pfds, slot, s.listener, GroupObj(GroupOf(Delete(s, slot))), fd);
  }

  lemma SentToTheRest(pfds: seq<PollFd>, slot: nat, listener: int, packet: Packet, fd: int)
    requires 1 <= slot < |pfds| && forall i, j :: 0 <= i < j < |pfds| ==> pfds[i].fd != pfds[j].fd
    ensures PacketsTo(SendAll(pfds[slot := pfds[|pfds| - 1]][..|pfds| - 1], {listener}, packet), fd)
         == if fd in Fds(pfds) && fd != listener && fd != pfds[slot].fd then [packet] else []
  {
    RemovalKeepsFds(pfds, slot);
    RemovalDrops(pfds, slot, fd);
    PacketsToSendAll(pfds[slot := pfds[|pfds| - 1]][..|pfds| - 1], {listener}, packet, fd);
  }

  lemma RemovalDrops(pfds: seq<PollFd>, slot: nat, fd: int)
    requires 1 <= slot < |pfds| && forall i, j :: 0 <= i < j < |pfds| ==> pfds[i].fd != pfds[j].fd
    ensures fd in Fds(pfds[slot := pfds[|pfds| - 1]][..|pfds| - 1]) <==> fd in Fds(pfds) && fd != pfds[slot].fd
  {
    var n := |pfds| - 1;
    var after := pfds[slot := pfds[n]][..n];
    assert forall i :: 0 <= i < n ==> after[i] == pfds[if i == slot then n else i];
    if fd in Fds(pfds) && fd != pfds[slot].fd {
      var i :| 0 <= i < |pfds| && pfds[i].fd == fd;
      assert after[if i == n then slot else i].fd == fd;
    }
  }

  /** A nickname: at most its first 31 characters go into the sender's entry, nothing else
      changes, and everybody is sent the group. */
  lemma NickAnswered(s: Server, slot: nat, text: string, rands: seq<nat>, fd: int)
    requires PfdsWellFormed(s) && InBounds(s, slot, Got(Nick(text))) && GameReady(s.game)
    ensures var (s', sends) := Handle(s, slot, Arrival(Got(Nick(text)), rands));
            var nick := CStr(text);
            && s' == s.(members := s'.members) && |s'.members| == 10
            && (forall k :: 0 <= k < 10 && k != slot - 1 ==> s'.members[k] == s.members[k])
            && s'.members[slot - 1] == Member(s.members[slot - 1].uid, if |nick| <= 31 then nick else nick[..31])
            && PacketsTo(sends, fd) == (if Client(s, fd) then [GroupObj(Group(s'.members, s.count))] else [])
  {
    var s' := AfterNick(s, slot, text).0;
    PacketsToSendAll(s'.pfds, {s'.listener}, GroupObj(GroupOf(s')), fd);
  }

  /** A registration: the member goes behind the others, and everybody is sent the group. */
  lemma InitAnswered(s: Server, slot: nat, member: Member, rands: seq<nat>, fd: int)
    requires PfdsWellFormed(s) && InBounds(s, slot, Got(Init(member))) && GameReady(s.game)
    ensures var (s', sends) := Handle(s, slot, Arrival(Got(Init(member)), rands));
            && s' == s.(members := s'.members, count := s.count + 1) && |s'.members| == 10
            && (forall k :: 0 <= k < 10 ==> s'.members[k] == if k == s.count then member else s.members[k])
            && PacketsTo(sends, fd) == (if Client(s, fd) then [GroupObj(Group(s'.members, s.count + 1))] else [])
  {
    var s' := AfterInit(s, slot, member).0;
    PacketsToSendAll(s'.pfds, {s'.listener}, GroupObj(GroupOf(s')), fd);
  }

  // ------------------------------------------------------------------ /hangman

  function ToSender(s: Server, slot: nat, fd: int, notice: Notice): seq<Packet>
    requires slot < |s.pfds|
  {
    if fd == s.pfds[slot].fd then [HangmanNote(notice)] else []
  }

  /** A start without a game tells the sender and everybody else; one during a game tells
      the sender alone that a game is on. */
  lemma StartAnswered(s: Server, slot: nat, text: string, rands: seq<nat>, fd: int)
    requires PfdsWellFormed(s) && InBounds(s, slot, Got(Request.Hangman(text))) && GameReady(s.game)
    requires CStr(text) == "start"
    ensures var (s', sends) := Handle(s, slot, Arrival(Got(Request.Hangman(text)), rands));
            var who := s.members[slot - 1];
            if s.game.phase == Phase.Initial then
              && s' == s.(game := s.game.(phase := Playing, word := WordChoice.Chosen(s.game.word, s.words, rands)),
                          players := [Clip(who.uid, 8)] + s.players, last := Started(who.nick))
              && PacketsTo(sends, fd) == (if fd != s.pfds[slot].fd && Client(s, fd) then [HangmanNote(Announced(who.nick))]
                                          else ToSender(s, slot, fd, Started(who.nick)))
            else s' == s && PacketsTo(sends, fd) == ToSender(s, slot, fd, InProgress)
  {
    StartSends(s, slot, s.members[slot - 1].nick, fd);
    PacketsToOne(Sent(s.pfds[slot].fd, HangmanNote(InProgress)), fd);
  }

  /** An exit tells its sender, and nobody else, that he has left, and takes him off the
      list once. */
  lemma ExitAnswered(s: Server, slot: nat, text: string, rands: seq<nat>, fd: int)
    requires PfdsWellFormed(s) && InBounds(s, slot, Got(Request.Hangman(text))) && GameReady(s.game)
    requires CStr(text) == "exit"
    ensures var (s', sends) := Handle(s, slot, Arrival(Got(Request.Hangman(text)), rands));
            s' == s.(players := RemoveFirst(s.players, s.members[slot - 1].uid))
            && PacketsTo(sends, fd) == ToSender(s, slot, fd, Exited)
  {
    PacketsToOne(Sent(s.pfds[slot].fd, HangmanNote(Exited)), fd);
  }

  /** A join during a game lists its sender and shows him, and nobody else, the text kept
      for him; without a game it does nothing and tells nobody anything. */
  lemma JoinAnswered(s: Server, slot: nat, text: string, rands: seq<nat>, fd: int)
    requires PfdsWellFormed(s) && InBounds(s, slot, Got(Request.Hangman(text))) && GameReady(s.game)
    requires CStr(text) == "join"
    ensures var (s', sends) := Handle(s, slot, Arrival(Got(Request.Hangman(text)), rands));
            if s.game.phase == Phase.Initial then s' == s && PacketsTo(sends, fd) == []
            else s' == s.(players := [Clip(s.members[slot - 1].uid, 8)] + s.players)
                 && PacketsTo(sends, fd) == ToSender(s, slot, fd, s.last)
  {
    PacketsToOne(Sent(s.pfds[slot].fd, HangmanNote(s.last)), fd);
  }

  /** Any other word behind `/hangman` does nothing. */
  lemma UnknownCommandIgnored(s: Server, slot: nat, text: string, rands: seq<nat>)
    requires InBounds(s, slot, Got(Request.Hangman(text))) && GameReady(s.game)
    requires CStr(text) != "start" && CStr(text) != "exit" && CStr(text) != "join"
    ensures Handle(s, slot, Arrival(Got(Request.Hangman(text)), rands)) == (s, [])
  {
  }

  // ------------------------------------------------------------------ messages

  /** A participant's message that is not a single character tells him so, and does
      nothing else. */
  lemma LongGuessRefused(s: Server, slot: nat, text: string, rands: seq<nat>, fd: int)
    requires PfdsWellFormed(s) && InBounds(s, slot, Got(Request.Chat(text))) && GameInvariant(s)
    requires InGame(s, s.members[slot - 1].uid) && |CStr(text)| != 1
    ensures var (s', sends) := Handle(s, slot, Arrival(Got(Request.Chat(text)), rands));
            s' == s && PacketsTo(sends, fd) == ToSender(s, slot, fd, NotALetter)
  {
    PacketsToOne(Sent(s.pfds[slot].fd, HangmanNote(NotALetter)), fd);
  }

  /** A participant's message that meets the game while it is answering tells him to wait;
      `GroupServer.HandleKeepsGame` proves that this never happens. */
  lemma EarlyGuessRefused(s: Server, slot: nat, text: string, rands: seq<nat>, fd: int)
    requires PfdsWellFormed(s) && InBounds(s, slot, Got(Request.Chat(text))) && GameReady(s.game)
    requires InGame(s, s.members[slot - 1].uid) && s.game.phase == Updating
    ensures var (s', sends) := Handle(s, slot, Arrival(Got(Request.Chat(text)), rands));
            s' == s && PacketsTo(sends, fd) == ToSender(s, slot, fd, Busy)
  {
    PacketsToOne(Sent(s.pfds[slot].fd, HangmanNote(Busy)), fd);
  }

  /** Any other chat message is appended to the history, if its sender has an
      eight-character UID and it has at most 1015 characters, and goes once to everybody
      else. */
  lemma ChatAnswered(s: Server, slot: nat, text: string, rands: seq<nat>, fd: int)
    requires PfdsWellFormed(s) && InBounds(s, slot, Got(Request.Chat(text))) && GameReady(s.game)
    requires !InGame(s, s.members[slot - 1].uid)
    ensures var (s', sends) := Handle(s, slot, Arrival(Got(Request.Chat(text)), rands));
            var uid, message := s.members[slot - 1].uid, CStr(text);
            && s' == s.(history := if |uid| == 8 && |message| <= 1015 then s.history + (uid + message + "\n") else s.history)
            && PacketsTo(sends, fd)
               == (if Client(s, fd) && fd != s.pfds[slot].fd then [Relay(0x01, slot - 1, text)] else [])
  {
    History.SavedExactly(s.history, s.members[slot - 1].uid, CStr(text));
    ChatRelayedOnce(s, slot, text, rands, fd);
  }

  /** A frame of any other type goes once to everybody else and changes nothing. */
  lemma OtherAnswered(s: Server, slot: nat, code: nat, text: string, rands: seq<nat>, fd: int)
    requires PfdsWellFormed(s) && InBounds(s, slot, Got(Other(code, text))) && GameReady(s.game)
    ensures var (s', sends) := Handle(s, slot, Arrival(Got(Other(code, text)), rands));
            && s' == s
            && PacketsTo(sends, fd)
               == (if Client(s, fd) && fd != s.pfds[slot].fd then [Relay(code, slot - 1, text)] else [])
  {
    PacketsToSendAll(s.pfds, {s.listener, s.pfds[slot].fd}, Relay(code, slot - 1, text), fd);
  }

  /** A load request changes nothing, and its sender alone is sent the history's lines and
      an end marker. */
  lemma LoadAnswered(s: Server, slot: nat, rands: seq<nat>, fd: int)
    requires PfdsWellFormed(s) && InBounds(s, slot, Got(Load)) && GameReady(s.game)
    ensures var (s', sends) := Handle(s, slot, Arrival(Got(Load), rands));
            s' == s && PacketsTo(sends, fd)
                       == (if fd == s.pfds[slot].fd then AsPackets(FgetsAll(s.history, 1024)) + [LoadEnd] else [])
  {
    LoadSends(s, slot, fd);
  }
}
