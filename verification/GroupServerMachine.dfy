/** The group server in place (group_server_comms.c): poll array, member array, game
    buffers and participant list, proved against the value model of module GroupServer. */
module GroupServerMachine {
  import opened CText
  import opened Hangman
  import opened History
  import opened GroupServer
  import opened PollPass
  import opened HangmanMachine
  import opened Participants
  import opened Framing
  import opened Wire
  import WordChoice

  const MAX_GROUP_CONNECTIONS: nat := MAX_GROUP_MEMBERS + 5

  /** A connected client as one pass meets it: its socket, what the handler's buffer would
      begin with, and the `rand()` results a word choice would use. */
  datatype Peer = Peer(sock: Socket, stack: string, rands: seq<nat>)

  /** What one pass meets: what `accept` would return, and the clients by descriptor. */
  datatype Outside = Outside(newFd: int, peers: map<int, Peer>)

  ghost function Sockets(o: Outside): set<object> {
    set fd | fd in o.peers :: o.peers[fd].sock
  }

  /** Every client has a socket of its own. */
  predicate Apart(o: Outside) {
    && (forall fd :: fd in o.peers ==> |o.peers[fd].stack| == BUFFER)
    && forall a, b :: a in o.peers && b in o.peers && a != b ==> o.peers[a].sock != o.peers[b].sock
  }

  /** What reading from the client would give now. */
  ghost function Yields(peer: Peer): Arrival
    requires |peer.stack| == BUFFER
    reads peer.sock
  {
    Arrival(ReceivedFrom(peer.sock.script, peer.sock.incoming, peer.stack), peer.rands)
  }

  ghost function InputOf(o: Outside): Input
    requires Apart(o)
    reads Sockets(o)
  {
    Input(o.newFd, map fd | fd in o.peers :: Yields(o.peers[fd]))
  }

  /** The clients that would still yield what `input` says. */
  ghost function Intact(o: Outside, input: Input): set<int>
    requires Apart(o)
    reads Sockets(o)
  {
    set fd | fd in o.peers && fd in input.arrivals && Yields(o.peers[fd]) == input.arrivals[fd]
  }

  /** The ready connections from slot `i` on are among `fds`, and are different ones. */
  predicate Unread(pfds: seq<PollFd>, i: nat, fds: set<int>) {
    && (forall k :: 1 <= k < |pfds| && i <= k && pfds[k].ready ==> pfds[k].fd in fds)
    && forall j, k :: 1 <= j < k < |pfds| && i <= j && pfds[j].ready && pfds[k].ready ==> pfds[j].fd != pfds[k].fd
  }

  /** Reading one connection leaves the others still to be read, wherever they end up. */
  lemma UnreadAfter(pfds: seq<PollFd>, i: nat, arrival: Arrival, fds: set<int>)
    requires 1 <= i < |pfds| && pfds[i].ready && Unread(pfds, i, fds)
    ensures var after := if arrival.recv == Hangup then pfds[i := pfds[|pfds| - 1]][..|pfds| - 1] else pfds;
            Unread(after, Resume(i, arrival), fds - {pfds[i].fd})
  {
    var n := |pfds| - 1;
    if arrival.recv == Hangup {
      var after := pfds[i := pfds[n]][..n];
      forall k | 0 <= k < n ensures after[k] == pfds[if k == i then n else k] {
      }
    }
  }

  /** A pass stands at slot `i`, with the clients `fds` as they were when it began. */
  predicate Midway(s: Server, i: nat, input: Input, fds: set<int>) {
    && GameInvariant(s) && ListenerFirst(s) && input.newFd != s.listener
    && PassDefined(s, i, input) && Unread(s.pfds, i, fds)
  }

  lemma ClientReady(s: Server, i: nat, input: Input, fds: set<int>)
    requires Midway(s, i, input, fds) && i < |s.pfds| && s.pfds[i].ready && s.pfds[i].fd != s.listener
    ensures i >= 1 && s.pfds[i].fd in fds && s.pfds[i].fd in input.arrivals
    ensures InBounds(s, i, input.arrivals[s.pfds[i].fd].recv)
  {
  }

  lemma ClientVisited(s: Server, i: nat, input: Input, sent: seq<Sent>, handled: seq<int>, fds: set<int>,
                      s': Server, next: nat, sent': seq<Sent>, more: set<int>)
    requires Midway(s, i, input, fds) && 1 <= i < |s.pfds| && s.pfds[i].ready
    requires (s', sent') == (Handle(s, i, input.arrivals[s.pfds[i].fd]).0, sent + Handle(s, i, input.arrivals[s.pfds[i].fd]).1)
    requires next == Resume(i, input.arrivals[s.pfds[i].fd]) && fds - {s.pfds[i].fd} <= more
    ensures Midway(s', next, input, more) && ToVisit(|s'.pfds|, next) < ToVisit(|s.pfds|, i)
    ensures PassFrom(s, i, input, sent, handled) == PassFrom(s', next, input, sent', handled + [s.pfds[i].fd])
  {
    var fd := s.pfds[i].fd;
    HandleKeepsPass(s, i, input.arrivals[fd]);
    PassFromStep(s, i, input, sent, handled);
    UnreadAfter(s.pfds, i, input.arrivals[fd], fds);
  }

  lemma SlotPassed(s: Server, i: nat, input: Input, sent: seq<Sent>, handled: seq<int>, fds: set<int>)
    requires Midway(s, i, input, fds) && i < |s.pfds| && (!s.pfds[i].ready || s.pfds[i].fd == s.listener)
    ensures var s' := if s.pfds[i].ready then Accept(s, input.newFd) else s;
            && Midway(s', i + 1, input, fds)
            && ToVisit(|s'.pfds|, i + 1) < ToVisit(|s.pfds|, i)
            && PassFrom(s, i, input, sent, handled) == PassFrom(s', i + 1, input, sent, handled)
  {
    PassFromSkip(s, i, input, sent, handled);
  }

  class GroupServerProcess {
    const listener: int
    var pfds: array<PollFd>
    var fdCount: nat
    const members: array<Member>
    var memberCount: int
    const fsm: HangmanFsm
    const users: UserList
    var oldResponse: Notice
    var history: string
    const words: string
    var sent: seq<Sent>  // everything handed to send(), in order

    ghost predicate Valid()
      reads this`pfds, this`fdCount, users, users.nodes, fsm, fsm.hangmanWord, fsm.guessedLetters, fsm.revealedWord
    {
      && 1 <= fdCount <= pfds.Length
      && members.Length == MAX_GROUP_MEMBERS
      && fsm.Valid() && users.Valid()
    }

    ghost function State(): Server
      requires Valid()
      reads this`pfds, this`fdCount, this`memberCount, this`oldResponse, this`history
      reads pfds, members, users, users.nodes, fsm, fsm.hangmanWord, fsm.guessedLetters, fsm.revealedWord
    {
      Server(listener, pfds[..fdCount], members[..], memberCount, fsm.game, users.Uids(), oldResponse, history, words)
    }

    ghost function Footprint(): set<object>
      reads this, users
    {
      {this, pfds, members, users, fsm, fsm.hangmanWord, fsm.guessedLetters, fsm.revealedWord}
      + (set n | n in users.nodes)
    }

    /** `group_server_TCP_listen` up to its loop. */
    constructor (listener: int, history: string, words: string)
      ensures Valid() && fresh(Footprint()) && sent == []
      ensures State() == Server(listener, [PollFd(listener, false)], NO_MEMBERS, 0,
                                Game(Phase.Initial, "", "", 0, "", false), [], Silence, history, words)
    {
      this.listener, this.history, this.words := listener, history, words;
      pfds := new PollFd[MAX_GROUP_CONNECTIONS](_ => PollFd(listener, false));
      fdCount := 1;
      members := new Member[MAX_GROUP_MEMBERS](_ => NOBODY);
      memberCount := 0;
      fsm := new HangmanFsm();
      users := new UserList();
      oldResponse, sent := Silence, [];
      new;
      assert pfds[..1] == [PollFd(listener, false)];
      assert members[..] == NO_MEMBERS;
    }

    method Send(fd: int, packet: Packet)
      requires Valid()
      modifies this`sent
      ensures Valid() && State() == old(State()) && sent == old(sent) + [Sent(fd, packet)]
    {
      sent := sent + [Sent(fd, packet)];
    }

    /** The loops that send to every descriptor but the listener and, at times, the sender. */
    method SendToAll(skip: set<int>, packet: Packet)
      requires Valid()
      modifies this`sent
      ensures Valid() && State() == old(State())
      ensures sent == old(sent) + SendAll(State().pfds, skip, packet)
    {
      ghost var all := pfds[..fdCount];
      for i := 0 to fdCount
        invariant sent == old(sent) + SendAll(all[..i], skip, packet)
      {
        assert all[..i + 1][..i] == all[..i] && all[..i + 1][i] == pfds[i];
        var destFd := pfds[i].fd;
        if destFd !in skip {
          sent := sent + [Sent(destFd, packet)];
        }
      }
      assert all[..fdCount] == all;
    }

    method SendNewGroupToUsers()
      requires Valid()
      modifies this`sent
      ensures Valid() && State() == old(State()) && sent == old(sent) + NewGroup(State())
    {
      SendToAll({listener}, GroupObj(Group(members[..], memberCount)));
    }

    /** The doubling `realloc`. */
    method Grow()
      requires Valid()
      modifies this`pfds
      ensures Valid() && fresh(pfds) && pfds.Length == 2 * old(pfds.Length)
      ensures State() == old(State())
    {
      var larger := new PollFd[2 * pfds.Length](_ => PollFd(0, false));
      forall k | 0 <= k < fdCount {
        larger[k] := pfds[k];
      }
      assert larger[..fdCount] == pfds[..fdCount];
      pfds := larger;
    }

    method AddToPfds(newFd: int)
      requires Valid()
      modifies this`pfds, this`fdCount, pfds
      ensures Valid() && (pfds == old(pfds) || fresh(pfds))
      ensures State() == old(State()).(pfds := old(State()).pfds + [PollFd(newFd, false)])
    {
      if fdCount == pfds.Length {
        Grow();
      }
      pfds[fdCount] := PollFd(newFd, false);
      fdCount := fdCount + 1;
      assert pfds[..fdCount] == old(pfds[..fdCount]) + [PollFd(newFd, false)];
    }

    method HandleNewConnection(newFd: int)
      requires Valid()
      modifies this`pfds, this`fdCount, pfds
      ensures Valid() && (pfds == old(pfds) || fresh(pfds))
      ensures State() == Accept(old(State()), newFd)
    {
      if newFd == -1 { return; }
      AddToPfds(newFd);
    }

    method DelFromPfds(i: nat)
      requires Valid() && InBounds(State(), i, Hangup)
      modifies this`fdCount, this`memberCount, pfds, members
      ensures Valid() && State() == Delete(old(State()), i)
    {
      ghost var after := Delete(State(), i);
      pfds[i] := pfds[fdCount - 1];
      members[i - 1] := members[fdCount - 2];
      memberCount := memberCount - 1;
      fdCount := fdCount - 1;
      assert pfds[..fdCount] == after.pfds;
      assert members[..] == after.members;
    }

    method HandleHangup(i: nat)
      requires Valid() && InBounds(State(), i, Hangup)
      modifies this`fdCount, this`memberCount, this`sent, pfds, members
      ensures Valid()
      ensures var (s', sends) := AfterHangup(old(State()), i); State() == s' && sent == old(sent) + sends
    {
      DelFromPfds(i);
      SendNewGroupToUsers();
    }

    method HandleNick(i: nat, text: string)
      requires Valid() && InBounds(State(), i, Got(Nick(text)))
      modifies this`sent, members
      ensures Valid()
      ensures var (s', sends) := AfterNick(old(State()), i, text); State() == s' && sent == old(sent) + sends
    {
      ghost var after := AfterNick(State(), i, text).0;
      members[i - 1] := members[i - 1].(nick := Clip(CStr(text), NICKNAME_MAX_LEN - 1));
      assert members[..] == after.members;
      SendNewGroupToUsers();
    }

    method HandleInit(i: nat, member: Member)
      requires Valid() && InBounds(State(), i, Got(Init(member)))
      modifies this`memberCount, this`sent, members
      ensures Valid()
      ensures var (s', sends) := AfterInit(old(State()), i, member); State() == s' && sent == old(sent) + sends
    {
      ghost var after := AfterInit(State(), i, member).0;
      members[memberCount] := member;
      memberCount := memberCount + 1;
      assert members[..] == after.members;
      SendNewGroupToUsers();
    }

    method HandleLoad(i: nat)
      requires Valid() && InBounds(State(), i, Got(Load))
      modifies this`sent
      ensures Valid()
      ensures var (s', sends) := AfterLoad(old(State()), i); State() == s' && sent == old(sent) + sends
    {
      var senderFd, rest := pfds[i].fd, history;
      ghost var lines: seq<string> := [];
      assert lines + HistoryLines(history) == HistoryLines(history);
      while rest != ""
        invariant sent == old(sent) + LinesTo(senderFd, lines)
        invariant lines + FgetsAll(rest, RECORD) == HistoryLines(history)
        decreases |rest|
      {
        FgetsNext(lines, rest, RECORD);
        var k := FgetsLen(rest, RECORD);
        LinesStep(senderFd, lines, rest[..k], old(sent));
        sent := sent + [Sent(senderFd, HistoryLine(rest[..k]))];
        lines, rest := lines + [rest[..k]], rest[k..];
      }
      assert lines + [] == lines;
      Send(senderFd, LoadEnd);
    }

    method Enlist(uid: string)
      requires Valid()
      modifies users
      ensures Valid() && fresh(Footprint() - old(Footprint()))
      ensures State() == old(State()).(players := [Clip(uid, UID_LENGTH)] + old(State()).players)
    {
      users.AddUser(uid);
    }

    method OpenGame(who: string, rands: seq<nat>)
      requires Valid() && GameReady(State().game) && fsm.state == Phase.Initial
      modifies this`oldResponse, fsm, fsm.hangmanWord, fsm.guessedLetters, fsm.revealedWord
      ensures Valid()
      ensures State() == old(State()).(last := Started(who), game :=
                OpenRound(old(State()).game, WordChoice.Chosen(old(State()).game.word, words, rands)))
    {
      var reply := fsm.Process(NUL, words, rands);
      oldResponse := Started(who);
    }

    method BeginGame(who: Member, rands: seq<nat>)
      requires Valid() && GameReady(State().game) && fsm.state == Phase.Initial
      modifies this`oldResponse, users, fsm, fsm.hangmanWord, fsm.guessedLetters, fsm.revealedWord
      ensures Valid() && fresh(Footprint() - old(Footprint()))
      ensures State() == old(State()).(last := Started(who.nick), players := [Clip(who.uid, UID_LENGTH)] + old(State()).players,
                game := OpenRound(old(State()).game, WordChoice.Chosen(old(State()).game.word, words, rands)))
    {
      OpenGame(who.nick, rands);
      Enlist(who.uid);
    }

    method Announce(senderFd: int, nick: string)
      requires Valid()
      modifies this`sent
      ensures Valid() && State() == old(State())
      ensures sent == old(sent) + (Note(senderFd, Started(nick))
                        + SendAll(State().pfds, {listener, senderFd}, HangmanNote(Announced(nick))))
    {
      Send(senderFd, HangmanNote(Started(nick)));
      SendToAll({listener, senderFd}, HangmanNote(Announced(nick)));
    }

    method HangmanStart(i: nat, rands: seq<nat>)
      requires Valid() && 1 <= i < fdCount && i <= MAX_GROUP_MEMBERS && GameReady(State().game)
      modifies this`sent, this`oldResponse, users, fsm, fsm.hangmanWord, fsm.guessedLetters, fsm.revealedWord
      ensures Valid() && fresh(Footprint() - old(Footprint()))
      ensures var (s', sends) := AfterStart(old(State()), i, rands); State() == s' && sent == old(sent) + sends
    {
      var senderFd, who := pfds[i].fd, members[i - 1];
      if fsm.state != Phase.Initial {
        Send(senderFd, HangmanNote(InProgress));
        return;
      }
      BeginGame(who, rands);
      Announce(senderFd, who.nick);
    }

    method HangmanExit(i: nat)
      requires Valid() && 1 <= i < fdCount && i <= MAX_GROUP_MEMBERS
      modifies this`sent, users, users.nodes
      ensures Valid() && fresh(Footprint() - old(Footprint()))
      ensures var (s', sends) := AfterExit(old(State()), i); State() == s' && sent == old(sent) + sends
    {
      users.RemoveUser(members[i - 1].uid);
      Send(pfds[i].fd, HangmanNote(Exited));
    }

    method HangmanJoin(i: nat)
      requires Valid() && 1 <= i < fdCount && i <= MAX_GROUP_MEMBERS
      modifies this`sent, users
      ensures Valid() && fresh(Footprint() - old(Footprint()))
      ensures var (s', sends) := AfterJoin(old(State()), i); State() == s' && sent == old(sent) + sends
    {
      if fsm.state != Phase.Initial {
        Enlist(members[i - 1].uid);
        Send(pfds[i].fd, HangmanNote(oldResponse));
      }
    }

    method HandleHangman(i: nat, text: string, rands: seq<nat>)
      requires Valid() && InBounds(State(), i, Got(Hangman(text))) && GameReady(State().game)
      modifies this`sent, this`oldResponse, users, users.nodes, fsm, fsm.hangmanWord, fsm.guessedLetters, fsm.revealedWord
      ensures Valid() && fresh(Footprint() - old(Footprint()))
      ensures var (s', sends) := AfterHangman(old(State()), i, text, rands); State() == s' && sent == old(sent) + sends
    {
      var command := CStr(text);
      if command == "start" {
        HangmanStart(i, rands);
      } else if command == "exit" {
        HangmanExit(i);
      } else if command == "join" {
        HangmanJoin(i);
      }
    }

    /** The inner loop of the guess broadcast. */
    method FindMemberIndex(uid: string) returns (j: nat)
      requires Valid() && memberCount <= MAX_GROUP_MEMBERS
      ensures j == FindMember(State().members, memberCount, uid)
    {
      j := 0;
      while j < memberCount
        invariant j <= memberCount || j == 0
        invariant FindFrom(members[..], memberCount, uid, j) == FindMember(members[..], memberCount, uid)
        decreases memberCount - j
      {
        if members[j].uid == uid { return; }
        j := j + 1;
      }
    }

    method SendReply(uid: string, notice: Notice)
      requires Valid() && memberCount <= MAX_GROUP_MEMBERS && memberCount < fdCount
      modifies this`sent
      ensures Valid() && State() == old(State())
      ensures sent == old(sent) + ReplyTo(State(), uid, notice)
    {
      var j := FindMemberIndex(uid);
      if j < memberCount {
        Send(pfds[j + 1].fd, HangmanNote(notice));
      }
    }

    /** The body of the outer loop. */
    method ReplyAndAdvance(current: UserNode, ghost k: nat, notice: Notice) returns (next: UserNode?)
      requires Valid() && memberCount <= MAX_GROUP_MEMBERS && memberCount < fdCount
      requires k < |users.nodes| && current == users.nodes[k]
      modifies this`sent
      ensures Valid() && State() == old(State())
      ensures sent == old(sent) + ReplyTo(State(), State().players[k], notice)
      ensures next == users.NodeAt(k + 1)
    {
      next := current.next;
      SendReply(current.uid, notice);
    }

    /** The outer loop: one reply per list entry. */
    method SendReplies(notice: Notice)
      requires Valid() && memberCount <= MAX_GROUP_MEMBERS && memberCount < fdCount
      modifies this`sent
      ensures Valid() && State() == old(State())
      ensures sent == old(sent) + Replies(State(), State().players, notice)
    {
      var current := users.head;
      ghost var s, k := State(), 0;
      while current != null
        invariant k <= |users.nodes| && current == users.NodeAt(k)
        invariant State() == s
        invariant sent == old(sent) + Replies(s, s.players[..k], notice)
        decreases |users.nodes| - k
      {
        RepliesStep(s, k, notice, old(sent));
        current := ReplyAndAdvance(current, k, notice);
        k := k + 1;
      }
      assert s.players[..k] == s.players;
    }

    method ScoreGuess(who: string, letter: char, rands: seq<nat>)
      requires Valid() && GameReady(State().game)
      modifies this`oldResponse, fsm, fsm.hangmanWord, fsm.guessedLetters, fsm.revealedWord
      ensures Valid()
      ensures var (game, reply) := ProcessHangmanState(old(State()).game, letter,
                                     WordChoice.Chosen(old(State()).game.word, words, rands));
              State() == old(State()).(game := game, last := Scored(who, letter, reply))
    {
      var reply := fsm.Process(letter, words, rands);
      oldResponse := Scored(who, letter, reply);
    }

    method FinishGuess()
      requires Valid()
      modifies users, fsm
      ensures Valid() && users.nodes <= old(users.nodes)
      ensures var finished := FinishBroadcast(old(State()).game);
              State() == old(State()).(game := finished,
                players := if finished.phase == Phase.Initial then [] else old(State()).players)
    {
      fsm.Finish();
      if fsm.state == Phase.Initial {
        users.FreeUsers();
      }
    }

    method HandleGuess(i: nat, text: string, rands: seq<nat>)
      requires Valid() && InBounds(State(), i, Got(Chat(text))) && GameReady(State().game)
      modifies this`sent, this`oldResponse, users, fsm, fsm.hangmanWord, fsm.guessedLetters, fsm.revealedWord
      ensures Valid() && fresh(Footprint() - old(Footprint()))
      ensures var (s', sends) := AfterGuess(old(State()), i, text, rands); State() == s' && sent == old(sent) + sends
    {
      if fsm.state == Updating {
        Send(pfds[i].fd, HangmanNote(Busy));
      } else if |CStr(text)| != 1 {
        Send(pfds[i].fd, HangmanNote(NotALetter));
      } else {
        PlayGuess(i, text, rands);
      }
    }

    method PlayGuess(i: nat, text: string, rands: seq<nat>)
      requires Valid() && InBounds(State(), i, Got(Chat(text))) && GameReady(State().game)
      requires State().game.phase != Updating && |CStr(text)| == 1
      modifies this`sent, this`oldResponse, users, fsm, fsm.hangmanWord, fsm.guessedLetters, fsm.revealedWord
      ensures Valid() && fresh(Footprint() - old(Footprint()))
      ensures var (s', sends) := AfterGuess(old(State()), i, text, rands); State() == s' && sent == old(sent) + sends
    {
      ScoreAndReply(members[i - 1].nick, text[0], rands);
      FinishGuess();
    }

    method ScoreAndReply(who: string, letter: char, rands: seq<nat>)
      requires Valid() && memberCount <= MAX_GROUP_MEMBERS && memberCount < fdCount && GameReady(State().game)
      modifies this`sent, this`oldResponse, fsm, fsm.hangmanWord, fsm.guessedLetters, fsm.revealedWord
      ensures Valid()
      ensures var s := old(State());
              var (game, reply) := ProcessHangmanState(s.game, letter, WordChoice.Chosen(s.game.word, words, rands));
              && State() == s.(game := game, last := Scored(who, letter, reply))
              && sent == old(sent) + Replies(s, s.players, Scored(who, letter, reply))
    {
      ghost var s := State();
      ScoreGuess(who, letter, rands);
      SendReplies(oldResponse);
      RepliesFrame(s, State(), s.players, oldResponse);
    }

    method Plays(uid: string) returns (playing: bool)
      requires Valid()
      ensures playing == InGame(State(), uid)
    {
      playing := false;
      if fsm.state != Phase.Initial {
        playing := users.UserInList(uid);
      }
    }

    method HandleChat(i: nat, text: string, rands: seq<nat>)
      requires Valid() && InBounds(State(), i, Got(Chat(text))) && GameReady(State().game)
      modifies this`sent, this`oldResponse, this`history, users, fsm, fsm.hangmanWord, fsm.guessedLetters, fsm.revealedWord
      ensures Valid() && fresh(Footprint() - old(Footprint()))
      ensures var (s', sends) := AfterChat(old(State()), i, text, rands); State() == s' && sent == old(sent) + sends
    {
      var playing := Plays(members[i - 1].uid);
      if playing {
        HandleGuess(i, text, rands);
        return;
      }
      StoreAndRelay(i, text);
    }

    /** A message outside the game. */
    method StoreAndRelay(i: nat, text: string)
      requires Valid() && 1 <= i < fdCount && i <= MAX_GROUP_MEMBERS
      modifies this`sent, this`history
      ensures Valid()
      ensures var s := old(State());
              && State() == s.(history := Saved(s.history, s.members[i - 1].uid, CStr(text)))
              && sent == old(sent) + Relayed(s, i, LMP_MSG, text)
    {
      var senderFd := pfds[i].fd;
      var status;
      status, history := SaveMessageToHistory(history, members[i - 1].uid, CStr(text));
      SendToAll({listener, senderFd}, Relay(LMP_MSG, i - 1, text));
    }

    /** `handle_client_data`: reads one frame and handles it.  The result is the caller's
        index afterwards. */
    method HandleClientData(i: nat, peer: Peer) returns (next: nat)
      requires Valid() && GameReady(State().game)
      requires |peer.stack| == BUFFER && peer.sock !in Footprint() && InBounds(State(), i, Yields(peer).recv)
      modifies Footprint(), peer.sock
      ensures Valid() && fresh(Footprint() - old(Footprint()))
      ensures var (s', sends) := Handle(old(State()), i, old(Yields(peer))); State() == s' && sent == old(sent) + sends
      ensures next == if old(Yields(peer)).recv == Hangup then i - 1 else i
      ensures !ReadFails(old(peer.sock.script), old(peer.sock.incoming), BUFFER) ==>
                peer.sock.incoming == Receive(old(peer.sock.incoming), peer.stack).rest
    {
      var recv := ReadRequest(peer.sock, peer.stack);
      next := HandleReceived(i, Arrival(recv, peer.rands));
    }

    /** The two branches on the status, and the `switch` on the type. */
    method HandleReceived(i: nat, arrival: Arrival) returns (next: nat)
      requires Valid() && InBounds(State(), i, arrival.recv) && GameReady(State().game)
      modifies Footprint()
      ensures Valid() && fresh(Footprint() - old(Footprint()))
      ensures var (s', sends) := Handle(old(State()), i, arrival); State() == s' && sent == old(sent) + sends
      ensures next == if arrival.recv == Hangup then i - 1 else i
    {
      next := i;
      match arrival.recv
      case Hangup => HandleHangup(i); next := i - 1;
      case Got(Nick(text)) => HandleNick(i, text);
      case Got(Init(member)) => HandleInit(i, member);
      case Got(Load) => HandleLoad(i);
      case Got(Hangman(text)) => HandleHangman(i, text, arrival.rands);
      case Got(Chat(text)) => HandleChat(i, text, arrival.rands);
      case Got(Other(code, text)) => SendToAll({listener, pfds[i].fd}, Relay(code, i - 1, text));
    }

    /** `process_connections`: the C loop, its index stepping back on a hangup. */
    method ProcessConnections(o: Outside) returns (handled: seq<int>)
      requires Valid() && Apart(o) && Sockets(o) !! Footprint()
      requires Midway(State(), 0, InputOf(o), o.peers.Keys)
      modifies Footprint(), Sockets(o)
      ensures Valid() && fresh(Footprint() - old(Footprint()))
      ensures (State(), sent, handled) == PassFrom(old(State()), 0, old(InputOf(o)), old(sent), [])
    {
      handled := [];
      var i: nat := 0;
      ghost var input := InputOf(o);
      while i < fdCount
        invariant Valid() && fresh(Footprint() - old(Footprint())) && Sockets(o) !! Footprint()
        invariant Midway(State(), i, input, Intact(o, input))
        invariant PassFrom(State(), i, input, sent, handled) == PassFrom(old(State()), 0, input, old(sent), [])
        decreases ToVisit(fdCount, i)
      {
        i, handled := VisitSlot(i, o, input, handled);
      }
      PassFromEnd(State(), i, input, sent, handled);
    }

    /** The loop's body, with its increment. */
    method VisitSlot(i: nat, o: Outside, ghost input: Input, before: seq<int>) returns (next: nat, handled: seq<int>)
      requires Valid() && Apart(o) && Sockets(o) !! Footprint() && o.newFd == input.newFd
      requires i < fdCount && Midway(State(), i, input, Intact(o, input))
      modifies Footprint(), Sockets(o)
      ensures Valid() && fresh(Footprint() - old(Footprint()))
      ensures Midway(State(), next, input, Intact(o, input))
      ensures PassFrom(State(), next, input, sent, handled) == PassFrom(old(State()), i, input, old(sent), before)
      ensures ToVisit(fdCount, next) < ToVisit(old(fdCount), i)
    {
      if pfds[i].ready && pfds[i].fd != listener {
        next, handled := VisitClient(i, o, input, before);
      } else {
        handled := before;
        next := PassSlot(i, o, input, before);
      }
    }

    /** A slot that is not ready, or the listener's. */
    method PassSlot(i: nat, o: Outside, ghost input: Input, ghost handled: seq<int>) returns (next: nat)
      requires Valid() && Apart(o) && Sockets(o) !! Footprint() && o.newFd == input.newFd
      requires i < fdCount && Midway(State(), i, input, Intact(o, input))
      requires !pfds[i].ready || pfds[i].fd == listener
      modifies this`pfds, this`fdCount, pfds
      ensures Valid() && (pfds == old(pfds) || fresh(pfds))
      ensures Midway(State(), next, input, Intact(o, input))
      ensures PassFrom(State(), next, input, sent, handled) == PassFrom(old(State()), i, input, sent, handled)
      ensures ToVisit(fdCount, next) < ToVisit(old(fdCount), i)
    {
      SlotPassed(State(), i, input, sent, handled, Intact(o, input));
      if pfds[i].ready {
        HandleNewConnection(o.newFd);
      }
      next := i + 1;
    }

    method VisitClient(i: nat, o: Outside, ghost input: Input, before: seq<int>) returns (next: nat, handled: seq<int>)
      requires Valid() && Apart(o) && Sockets(o) !! Footprint()
      requires i < fdCount && Midway(State(), i, input, Intact(o, input))
      requires pfds[i].ready && pfds[i].fd != listener
      modifies Footprint(), Sockets(o)
      ensures Valid() && fresh(Footprint() - old(Footprint()))
      ensures Midway(State(), next, input, Intact(o, input))
      ensures PassFrom(State(), next, input, sent, handled) == PassFrom(old(State()), i, input, old(sent), before)
      ensures ToVisit(fdCount, next) < ToVisit(old(fdCount), i)
    {
      ghost var s, was, fds := State(), sent, Intact(o, input);
      handled := before + [pfds[i].fd];
      ClientReady(s, i, input, fds);
      next := ServeClient(i, o, input);
      next := next + 1;
      ClientVisited(s, i, input, was, before, fds, State(), next, sent, Intact(o, input));
    }

    method ServeClient(i: nat, o: Outside, ghost input: Input) returns (next: nat)
      requires Valid() && GameReady(State().game) && Apart(o) && Sockets(o) !! Footprint()
      requires i < fdCount && pfds[i].fd in Intact(o, input) && InBounds(State(), i, input.arrivals[pfds[i].fd].recv)
      modifies Footprint(), Sockets(o)
      ensures Valid() && fresh(Footprint() - old(Footprint()))
      ensures var arrival := input.arrivals[old(pfds[i].fd)];
              && (State(), sent) == (Handle(old(State()), i, arrival).0, old(sent) + Handle(old(State()), i, arrival).1)
              && next + 1 == Resume(i, arrival)
      ensures old(Intact(o, input)) - {old(pfds[i].fd)} <= Intact(o, input)
    {
      ghost var visited := pfds[i].fd;
      next := HandleClientData(i, o.peers[pfds[i].fd]);
      forall fd | fd in old(Intact(o, input)) && fd != visited ensures fd in Intact(o, input) {
        assert o.peers[fd].sock in Sockets(o);
        assert Yields(o.peers[fd]) == old(Yields(o.peers[fd]));
      }
    }
  }

  lemma LinesStep(fd: int, lines: seq<string>, line: string, before: seq<Sent>)
    ensures before + LinesTo(fd, lines + [line]) == before + LinesTo(fd, lines) + [Sent(fd, HistoryLine(line))]
  {
    assert (lines + [line])[..|lines|] == lines;
    assert before + (LinesTo(fd, lines) + [Sent(fd, HistoryLine(line))])
        == before + LinesTo(fd, lines) + [Sent(fd, HistoryLine(line))];
  }

  lemma RepliesStep(s: Server, k: nat, notice: Notice, before: seq<Sent>)
    requires s.count <= |s.members| && s.count < |s.pfds| && k < |s.players|
    ensures before + Replies(s, s.players[..k + 1], notice)
         == before + Replies(s, s.players[..k], notice) + ReplyTo(s, s.players[k], notice)
  {
    assert s.players[..k + 1][..k] == s.players[..k];
    var a, b := Replies(s, s.players[..k], notice), ReplyTo(s, s.players[k], notice);
    assert before + (a + b) == before + a + b;
  }

  /** The reply loop looks only at the connections and the group. */
  lemma {:induction false} RepliesFrame(s: Server, t: Server, players: seq<string>, notice: Notice)
    requires s.count == t.count <= |s.members| && s.count < |s.pfds|
    requires s.members == t.members && s.pfds == t.pfds
    ensures Replies(s, players, notice) == Replies(t, players, notice)
  {
    if players != [] {
      RepliesFrame(s, t, players[..|players| - 1], notice);
    }
  }
}
