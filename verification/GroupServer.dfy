/** The group server (group_server_comms.c) on values: its state, what handling one
    event does to it, and what it sends. */
module GroupServer {
  import opened CText
  import opened Hangman
  import opened History
  import Participants
  import WordChoice

  const MAX_GROUP_MEMBERS: nat := 10
  const NICKNAME_MAX_LEN: nat := 32
  const LMP_MSG: nat := 0x01
  const LMP_GRP_OBJ: nat := 0x80
  const LMP_GRP_LOADING_MSG: nat := 0x14

  datatype PollFd = PollFd(fd: int, ready: bool)

  datatype Member = Member(uid: CString, nick: CString)

  const NOBODY := Member("", "")

  /** The zeroed member array. */
  const NO_MEMBERS: seq<Member> :=
    [NOBODY, NOBODY, NOBODY, NOBODY, NOBODY, NOBODY, NOBODY, NOBODY, NOBODY, NOBODY]

  /** The `Group` object as it is sent: every slot, used or not, and the count. */
  datatype Group = Group(members: seq<Member>, count: int)

  /** A client frame, decoded.  `Other` is any type the server has no case for. */
  datatype Request =
    | Nick(text: string)
    | Init(member: Member)
    | Load
    | Hangman(text: string)
    | Chat(text: string)
    | Other(code: nat, text: string)

  /** What `lmp_recv` gives: a negative status or a frame. */
  datatype Recv = Hangup | Got(request: Request)

  /** One read event, with the `rand()` results a word choice would use. */
  datatype Arrival = Arrival(recv: Recv, rands: seq<nat>)

  /** A hangman message, apart from its wording. */
  datatype Notice =
    | Silence
    | Started(who: string)
    | Announced(who: string)
    | InProgress
    | Exited
    | Busy
    | NotALetter
    | Scored(who: string, letter: char, reply: Reply)

  datatype Packet =
    | GroupObj(group: Group)
    | Relay(code: nat, slot: nat, text: string)
    | HistoryLine(text: string)
    | LoadEnd
    | HangmanNote(notice: Notice)

  datatype Sent = Sent(fd: int, packet: Packet)

  /** `pfds` is the used part of the poll array, slot 0 the listener; `members` is all
      of `current_group.members`, `count` its `member_count`. */
  datatype Server = Server(
    listener: int,
    pfds: seq<PollFd>,
    members: seq<Member>,
    count: int,
    game: Game,
    players: seq<string>,
    last: Notice,
    history: string,
    words: string)

  function GroupOf(s: Server): Group {
    Group(s.members, s.count)
  }

  /** How many connections are open, the listener not counted. */
  function Connections(s: Server): int {
    |s.pfds| - 1
  }

  /** What the game buffers satisfy between events. */
  predicate GameReady(g: Game) {
    WellFormed(g) && (g.phase == Phase.Initial ==> !g.started)
  }

  /** The memory the handler touches exists: what the C code needs to be defined. */
  predicate InBounds(s: Server, slot: nat, recv: Recv) {
    && 1 <= slot < |s.pfds|
    && |s.members| == MAX_GROUP_MEMBERS
    && match recv
       case Hangup => slot <= MAX_GROUP_MEMBERS && Connections(s) <= MAX_GROUP_MEMBERS
       case Got(Init(_)) => 0 <= s.count < MAX_GROUP_MEMBERS
       case Got(Other(_, _)) => true
       case Got(Chat(_)) => slot <= MAX_GROUP_MEMBERS && s.count <= MAX_GROUP_MEMBERS && s.count <= Connections(s)
       case Got(_) => slot <= MAX_GROUP_MEMBERS
  }

  /** One packet to every descriptor of the poll array outside `skip`, in slot order. */
  function SendAll(pfds: seq<PollFd>, skip: set<int>, packet: Packet): seq<Sent> {
    if pfds == [] then []
    else
      var fd := pfds[|pfds| - 1].fd;
      SendAll(pfds[..|pfds| - 1], skip, packet) + if fd in skip then [] else [Sent(fd, packet)]
  }

  /** `send_new_group_to_users`. */
  function NewGroup(s: Server): seq<Sent> {
    SendAll(s.pfds, {s.listener}, GroupObj(GroupOf(s)))
  }

  /** `del_from_pfds`. */
  function Delete(s: Server, slot: nat): Server
    requires InBounds(s, slot, Hangup)
  {
    var n := Connections(s);
    s.(pfds := s.pfds[slot := s.pfds[n]][..n],
       members := s.members[slot - 1 := s.members[n - 1]],
       count := s.count - 1)
  }

  function AfterHangup(s: Server, slot: nat): (Server, seq<Sent>)
    requires InBounds(s, slot, Hangup)
  {
    var s' := Delete(s, slot);
    (s', NewGroup(s'))
  }

  function AfterNick(s: Server, slot: nat, text: string): (Server, seq<Sent>)
    requires InBounds(s, slot, Got(Nick(text)))
  {
    var nick := Clip(CStr(text), NICKNAME_MAX_LEN - 1);
    var s' := s.(members := s.members[slot - 1 := s.members[slot - 1].(nick := nick)]);
    (s', NewGroup(s'))
  }

  function AfterInit(s: Server, slot: nat, member: Member): (Server, seq<Sent>)
    requires InBounds(s, slot, Got(Init(member)))
  {
    var s' := s.(members := s.members[s.count := member], count := s.count + 1);
    (s', NewGroup(s'))
  }

  function LinesTo(fd: int, lines: seq<string>): seq<Sent> {
    if lines == [] then []
    else LinesTo(fd, lines[..|lines| - 1]) + [Sent(fd, HistoryLine(lines[|lines| - 1]))]
  }

  function AfterLoad(s: Server, slot: nat): (Server, seq<Sent>)
    requires InBounds(s, slot, Got(Load))
  {
    var fd := s.pfds[slot].fd;
    (s, LinesTo(fd, HistoryLines(s.history)) + [Sent(fd, LoadEnd)])
  }

  function Note(fd: int, notice: Notice): seq<Sent> {
    [Sent(fd, HangmanNote(notice))]
  }

  /** `/hangman start`. */
  function AfterStart(s: Server, slot: nat, rands: seq<nat>): (Server, seq<Sent>)
    requires 1 <= slot < |s.pfds| && slot <= |s.members| && GameReady(s.game)
  {
    var fd, who := s.pfds[slot].fd, s.members[slot - 1];
    if s.game.phase == Phase.Initial then
      var game := OpenRound(s.game, WordChoice.Chosen(s.game.word, s.words, rands));
      (s.(game := game, players := [Clip(who.uid, UID_LENGTH)] + s.players, last := Started(who.nick)),
       Note(fd, Started(who.nick)) + SendAll(s.pfds, {s.listener, fd}, HangmanNote(Announced(who.nick))))
    else (s, Note(fd, InProgress))
  }

  /** `/hangman exit`. */
  function AfterExit(s: Server, slot: nat): (Server, seq<Sent>)
    requires 1 <= slot < |s.pfds| && slot <= |s.members|
  {
    (s.(players := Participants.RemoveFirst(s.players, s.members[slot - 1].uid)), Note(s.pfds[slot].fd, Exited))
  }

  /** `/hangman join`. */
  function AfterJoin(s: Server, slot: nat): (Server, seq<Sent>)
    requires 1 <= slot < |s.pfds| && slot <= |s.members|
  {
    if s.game.phase == Phase.Initial then (s, [])
    else (s.(players := [Clip(s.members[slot - 1].uid, UID_LENGTH)] + s.players), Note(s.pfds[slot].fd, s.last))
  }

  function AfterHangman(s: Server, slot: nat, text: string, rands: seq<nat>): (Server, seq<Sent>)
    requires InBounds(s, slot, Got(Hangman(text))) && GameReady(s.game)
  {
    match CStr(text)
    case "start" => AfterStart(s, slot, rands)
    case "exit" => AfterExit(s, slot)
    case "join" => AfterJoin(s, slot)
    case _ => (s, [])
  }

  /** The first slot of the group that holds `uid`, or the count. */
  function FindMember(members: seq<Member>, count: int, uid: string): (j: nat)
    requires count <= |members|
    ensures j < count ==> members[j].uid == uid
    ensures forall k :: 0 <= k < j && k < count ==> members[k].uid != uid
    ensures count <= 0 ==> j == 0
    ensures count >= 0 ==> j <= count
  {
    FindFrom(members, count, uid, 0)
  }

  function FindFrom(members: seq<Member>, count: int, uid: string, from: nat): (j: nat)
    requires count <= |members| && (from <= count || from == 0)
    ensures from <= j && (j < count ==> members[j].uid == uid)
    ensures forall k :: from <= k < j && k < count ==> members[k].uid != uid
    ensures from <= count ==> j <= count
    ensures count < from ==> j == from
    decreases count - from
  {
    if from >= count || members[from].uid == uid then from else FindFrom(members, count, uid, from + 1)
  }

  /** The reply for one list entry: to the member with that UID, if there is one. */
  function ReplyTo(s: Server, uid: string, notice: Notice): seq<Sent>
    requires s.count <= |s.members| && s.count < |s.pfds|
  {
    var j := FindMember(s.members, s.count, uid);
    if j < s.count then Note(s.pfds[j + 1].fd, notice) else []
  }

  /** The reply to a guess, once per list entry. */
  function Replies(s: Server, players: seq<string>, notice: Notice): seq<Sent>
    requires s.count <= |s.members| && s.count < |s.pfds|
  {
    if players == [] then []
    else Replies(s, players[..|players| - 1], notice) + ReplyTo(s, players[|players| - 1], notice)
  }

  /** A participant's message during a game. */
  function AfterGuess(s: Server, slot: nat, text: string, rands: seq<nat>): (Server, seq<Sent>)
    requires InBounds(s, slot, Got(Chat(text))) && GameReady(s.game)
  {
    var fd, who := s.pfds[slot].fd, s.members[slot - 1];
    if s.game.phase == Updating then (s, Note(fd, Busy))
    else if |CStr(text)| != 1 then (s, Note(fd, NotALetter))
    else
      var (game, reply) := ProcessHangmanState(s.game, text[0], WordChoice.Chosen(s.game.word, s.words, rands));
      var finished := FinishBroadcast(game);
      var notice := Scored(who.nick, text[0], reply);
      (s.(game := finished, last := notice,
          players := if finished.phase == Phase.Initial then [] else s.players),
       Replies(s, s.players, notice))
  }

  predicate InGame(s: Server, uid: string) {
    s.game.phase != Phase.Initial && uid in s.players
  }

  /** The `default` branch: the payload to everybody else, with the sender's slot. */
  function Relayed(s: Server, slot: nat, code: nat, text: string): seq<Sent>
    requires 1 <= slot < |s.pfds|
  {
    SendAll(s.pfds, {s.listener, s.pfds[slot].fd}, Relay(code, slot - 1, text))
  }

  function AfterChat(s: Server, slot: nat, text: string, rands: seq<nat>): (Server, seq<Sent>)
    requires InBounds(s, slot, Got(Chat(text))) && GameReady(s.game)
  {
    var who := s.members[slot - 1];
    if InGame(s, who.uid) then AfterGuess(s, slot, text, rands)
    else (s.(history := Saved(s.history, who.uid, CStr(text))), Relayed(s, slot, LMP_MSG, text))
  }

  /** `handle_client_data` for what was read from the connection in `slot`. */
  function Handle(s: Server, slot: nat, arrival: Arrival): (Server, seq<Sent>)
    requires InBounds(s, slot, arrival.recv) && GameReady(s.game)
  {
    match arrival.recv
    case Hangup => AfterHangup(s, slot)
    case Got(Nick(text)) => AfterNick(s, slot, text)
    case Got(Init(member)) => AfterInit(s, slot, member)
    case Got(Load) => AfterLoad(s, slot)
    case Got(Hangman(text)) => AfterHangman(s, slot, text, arrival.rands)
    case Got(Chat(text)) => AfterChat(s, slot, text, arrival.rands)
    case Got(Other(code, text)) => (s, Relayed(s, slot, code, text))
  }

  /** `handle_new_connection`; -1 is a failed `accept`. */
  function Accept(s: Server, newFd: int): Server {
    if newFd == -1 then s else s.(pfds := s.pfds + [PollFd(newFd, false)])
  }

  // ------------------------------------------------------- the game inside the server

  /** Between handled events: the machine is never caught updating, without a game
      there is no participant and no round, and during one the text kept for those who
      join is a start notice or a scored reply (which one is a matter of whole runs). */
  predicate GameInvariant(s: Server) {
    && GameReady(s.game)
    && s.game.phase != Updating
    && (s.game.phase == Phase.Initial ==> s.players == [])
    && (s.game.phase != Phase.Initial ==> s.last.Started? || s.last.Scored?)
  }

  /** Every event keeps the game invariant, so the busy reply is never sent; the word is
      only ever replaced when a game starts. */
  lemma HandleKeepsGame(s: Server, slot: nat, arrival: Arrival)
    requires InBounds(s, slot, arrival.recv) && GameInvariant(s)
    ensures var (s', sends) := Handle(s, slot, arrival);
            && GameInvariant(s')
            && (forall x :: x in sends ==> x.packet != HangmanNote(Busy))
            && (s.game.phase != Phase.Initial ==> s'.game.word == s.game.word)
            && (s.game.phase == Phase.Initial && s'.game.phase == Phase.Initial ==> s'.game == s.game)
  {
    match arrival.recv
    case Hangup => SendAllPackets(Delete(s, slot).pfds, {s.listener}, GroupObj(GroupOf(Delete(s, slot))));
    case Got(Nick(text)) =>
      var s' := AfterNick(s, slot, text).0;
      SendAllPackets(s'.pfds, {s.listener}, GroupObj(GroupOf(s')));
    case Got(Init(member)) =>
      var s' := AfterInit(s, slot, member).0;
      SendAllPackets(s'.pfds, {s.listener}, GroupObj(GroupOf(s')));
    case Got(Load) => LinesPackets(s.pfds[slot].fd, HistoryLines(s.history));
    case Got(Hangman(text)) =>
      SendAllPackets(s.pfds, {s.listener, s.pfds[slot].fd}, HangmanNote(Announced(s.members[slot - 1].nick)));
    case Got(Chat(text)) => ChatKeepsGame(s, slot, text, arrival.rands);
    case Got(Other(code, text)) =>
      SendAllPackets(s.pfds, {s.listener, s.pfds[slot].fd}, Relay(code, slot - 1, text));
  }

  lemma ChatKeepsGame(s: Server, slot: nat, text: string, rands: seq<nat>)
    requires InBounds(s, slot, Got(Chat(text))) && GameInvariant(s)
    ensures var (s', sends) := AfterChat(s, slot, text, rands);
            && GameInvariant(s')
            && (forall x :: x in sends ==> x.packet != HangmanNote(Busy))
            && s'.game.word == s.game.word
            && (s.game.phase == Phase.Initial ==> s'.game == s.game)
  {
    if InGame(s, s.members[slot - 1].uid) {
      if |CStr(text)| == 1 {
        var drawn := WordChoice.Chosen(s.game.word, s.words, rands);
        GuessKeepsReady(s.game, text[0], drawn);
        var reply := ProcessHangmanState(s.game, text[0], drawn).1;
        RepliesPackets(s, s.players, Scored(s.members[slot - 1].nick, text[0], reply));
      }
    } else {
      SendAllPackets(s.pfds, {s.listener, s.pfds[slot].fd}, Relay(LMP_MSG, slot - 1, text));
    }
  }

  lemma GuessKeepsReady(g: Game, letter: char, drawn: string)
    requires GameReady(g) && g.phase == Playing && |drawn| <= HANGMAN_MAX_WORD_LENGTH && NUL !in drawn
    ensures var after := FinishBroadcast(ProcessHangmanState(g, letter, drawn).0);
            GameReady(after) && after.phase != Updating && after.word == g.word
  {
  }

  /** The descriptors of a poll array. */
  function Fds(pfds: seq<PollFd>): set<int> {
    set i | 0 <= i < |pfds| :: pfds[i].fd
  }

  lemma FdsSnoc(pfds: seq<PollFd>)
    requires pfds != []
    ensures Fds(pfds) == Fds(pfds[..|pfds| - 1]) + {pfds[|pfds| - 1].fd}
  {
    var before := pfds[..|pfds| - 1];
    assert forall i :: 0 <= i < |before| ==> before[i] == pfds[i];
  }

  lemma {:induction false} SendAllPackets(pfds: seq<PollFd>, skip: set<int>, packet: Packet)
    ensures forall x :: x in SendAll(pfds, skip, packet) ==> x.packet == packet && x.fd !in skip && x.fd in Fds(pfds)
  {
    if pfds != [] {
      var before := pfds[..|pfds| - 1];
      SendAllPackets(before, skip, packet);
      FdsSnoc(pfds);
    }
  }

  lemma {:induction false} LinesPackets(fd: int, lines: seq<string>)
    ensures forall x :: x in LinesTo(fd, lines) ==> x.packet.HistoryLine? && x.fd == fd
  {
    if lines != [] {
      LinesPackets(fd, lines[..|lines| - 1]);
    }
  }

  lemma {:induction false} RepliesPackets(s: Server, players: seq<string>, notice: Notice)
    requires s.count <= |s.members| && s.count < |s.pfds|
    ensures forall x :: x in Replies(s, players, notice) ==> x.packet == HangmanNote(notice) && x.fd in Fds(s.pfds)
  {
    if players != [] {
      RepliesPackets(s, players[..|players| - 1], notice);
    }
  }
}
