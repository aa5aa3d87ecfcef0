/** The whole group chat as a transition system: the server, one FIFO channel to each
    client, and each client's own copy of the group. */
module GroupSystem {
  import opened CText
  import opened GroupServer
  import Hangman
  import History
  import PollPass

  /** A packet on its way, with the member the event behind it really came from.
      `origin` is bookkeeping for the theorems; it is not transmitted. */
  datatype Envelope = Envelope(packet: Packet, origin: Member)

  /** `user_group` and `user_group_is_initialized`. */
  datatype Client = Client(view: Group, initialized: bool)

  /** `identity` is who each connection has really registered as, kept apart from the
      server's arrays; `channel` and `clients` cover every connection ever accepted. */
  datatype System = System(
    server: Server,
    identity: map<int, Member>,
    channel: map<int, seq<Envelope>>,
    clients: map<int, Client>)

  datatype Event =
    | Polled(ready: set<int>)
    | Accepted(fd: int)
    | Served(slot: nat, arrival: Arrival)
    | Consumed(fd: int)

  const EMPTY_GROUP := Group(NO_MEMBERS, 0)

  // ------------------------------------------------------------- server-side alignment

  predicate Connected(s: Server, slot: nat) {
    1 <= slot < |s.pfds|
  }

  /** The listener is slot 0, and no descriptor is in the poll array twice. */
  predicate PfdsWellFormed(s: Server) {
    && |s.pfds| > 0 && s.pfds[0].fd == s.listener
    && forall i, j :: 0 <= i < j < |s.pfds| ==> s.pfds[i].fd != s.pfds[j].fd
  }

  /** `members[i - 1]` belongs to `pfds[i]` for i = 1, ..., member_count, those are
      exactly the connections that have registered, and the others come after them. */
  predicate Aligned(s: Server, identity: map<int, Member>) {
    && |s.members| == MAX_GROUP_MEMBERS
    && 0 <= s.count <= MAX_GROUP_MEMBERS && s.count <= Connections(s)
    && (forall i :: 1 <= i <= s.count ==> s.pfds[i].fd in identity && s.members[i - 1] == identity[s.pfds[i].fd])
    && (forall i :: s.count < i < |s.pfds| ==> s.pfds[i].fd !in identity)
    && (forall fd :: fd in identity ==> exists i :: 1 <= i < |s.pfds| && s.pfds[i].fd == fd)
  }

  /** No two registered members share a UID. */
  predicate DistinctUids(s: Server) {
    0 <= s.count <= |s.members|
    && forall i, j :: 0 <= i < j < s.count ==> s.members[i].uid != s.members[j].uid
  }

  /** Who the connections are after one served event. */
  function IdentityAfter(s: Server, slot: nat, recv: Recv, identity: map<int, Member>): map<int, Member>
    requires Connected(s, slot)
  {
    var fd := s.pfds[slot].fd;
    match recv
    case Hangup => identity - {fd}
    case Got(Init(member)) => identity[fd := member]
    case Got(Nick(text)) =>
      if fd in identity then identity[fd := identity[fd].(nick := Clip(CStr(text), NICKNAME_MAX_LEN - 1))] else identity
    case Got(_) => identity
  }

  /** A hangup keeps the arrays aligned if and only if every accepted connection has
      registered, or the connection that left is the last registered one: `del_from_pfds`
      moves the last connection down but the last *accepted* one's member entry. */
  lemma HangupAligned(s: Server, slot: nat, identity: map<int, Member>)
    requires PfdsWellFormed(s) && Aligned(s, identity) && InBounds(s, slot, Hangup)
    ensures Aligned(Delete(s, slot), IdentityAfter(s, slot, Hangup, identity))
            <==> s.count == Connections(s) || slot == s.count
  {
    if s.count == Connections(s) || slot == s.count {
      SafeHangup(s, slot, identity);
    } else {
      UnsafeHangup(s, slot, identity);
    }
  }

  lemma SafeHangup(s: Server, slot: nat, identity: map<int, Member>)
    requires PfdsWellFormed(s) && Aligned(s, identity) && InBounds(s, slot, Hangup)
    requires s.count == Connections(s) || slot == s.count
    ensures Aligned(Delete(s, slot), identity - {s.pfds[slot].fd})
  {
    var s', after, n := Delete(s, slot), identity - {s.pfds[slot].fd}, Connections(s);
    forall i | 1 <= i <= s'.count ensures s'.pfds[i].fd in after && s'.members[i - 1] == after[s'.pfds[i].fd] {
      var was := if i == slot then n else i;
      assert s'.pfds[i] == s.pfds[was] && s'.members[i - 1] == s.members[was - 1];
    }
    forall i | s'.count < i < |s'.pfds| ensures s'.pfds[i].fd !in after {
      assert s'.pfds[i] == s.pfds[if i == slot then n else i];
    }
    forall fd | fd in after ensures exists i :: 1 <= i < |s'.pfds| && s'.pfds[i].fd == fd {
      var i :| 1 <= i < |s.pfds| && s.pfds[i].fd == fd;
      assert s'.pfds[if i == n then slot else i].fd == fd;
    }
  }

  lemma UnsafeHangup(s: Server, slot: nat, identity: map<int, Member>)
    requires PfdsWellFormed(s) && Aligned(s, identity) && InBounds(s, slot, Hangup)
    requires s.count < Connections(s) && slot != s.count
    ensures !Aligned(Delete(s, slot), identity - {s.pfds[slot].fd})
  {
    var s', n := Delete(s, slot), Connections(s);
    if slot < s.count {
      assert s'.pfds[slot].fd == s.pfds[n].fd;
    } else if s.count > 0 {
      assert s'.pfds[s.count].fd == s.pfds[s.count].fd;
    }
  }

  /** A registration keeps the arrays aligned if and only if it comes from the first
      connection that has not registered yet; a second one of the same connection never
      does. */
  lemma InitAligned(s: Server, slot: nat, member: Member, identity: map<int, Member>)
    requires PfdsWellFormed(s) && Aligned(s, identity) && 1 <= slot < |s.pfds| && s.count < MAX_GROUP_MEMBERS
    ensures Aligned(AfterInit(s, slot, member).0, IdentityAfter(s, slot, Got(Init(member)), identity))
            <==> slot == s.count + 1
  {
    var s', after := AfterInit(s, slot, member).0, identity[s.pfds[slot].fd := member];
    if slot == s.count + 1 {
      assert s'.pfds == s.pfds;
    } else if s.count + 1 < |s.pfds| {
      assert s'.pfds[s.count + 1].fd !in after;
    }
  }

  lemma NickAligned(s: Server, slot: nat, text: string, identity: map<int, Member>)
    requires PfdsWellFormed(s) && Aligned(s, identity) && 1 <= slot <= s.count
    ensures Aligned(AfterNick(s, slot, text).0, IdentityAfter(s, slot, Got(Nick(text)), identity))
  {
  }

  lemma AcceptAligned(s: Server, fd: int, identity: map<int, Member>)
    requires PfdsWellFormed(s) && Aligned(s, identity) && fd != -1
    requires fd !in identity && forall i :: 0 <= i < |s.pfds| ==> s.pfds[i].fd != fd
    ensures PfdsWellFormed(Accept(s, fd)) && Aligned(Accept(s, fd), identity)
  {
    var s' := Accept(s, fd);
    assert forall i :: 0 <= i < |s.pfds| ==> s'.pfds[i] == s.pfds[i];
    forall k | k in identity ensures exists i :: 1 <= i < |s'.pfds| && s'.pfds[i].fd == k {
      var i :| 1 <= i < |s.pfds| && s.pfds[i].fd == k;
      assert s'.pfds[i].fd == k;
    }
  }

  // ------------------------------------------------------------------ steps and runs

  /** The events of a legal run: the first frame of a connection is its INIT, INITs are
      handled in slot order, a hangup comes when the arrays can take it (see
      `HangupAligned`), UIDs are eight characters and distinct, at most ten members. */
  predicate LegalRecv(s: Server, slot: nat, recv: Recv) {
    Connected(s, slot)
    && match recv
       case Hangup => Connections(s) <= MAX_GROUP_MEMBERS && (s.count == Connections(s) || slot == s.count)
       case Got(Init(member)) =>
         && slot == s.count + 1 && s.count < MAX_GROUP_MEMBERS
         && |member.uid| == UID_LENGTH
         && forall i :: 0 <= i < s.count && i < |s.members| ==> s.members[i].uid != member.uid
       case Got(Other(code, _)) => slot <= s.count && code != LMP_GRP_OBJ && code != LMP_GRP_LOADING_MSG
       case Got(_) => slot <= s.count
  }

  predicate Legal(sys: System, e: Event) {
    match e
    case Polled(_) => true
    case Accepted(fd) => fd != -1 && fd != sys.server.listener && fd !in sys.channel
    case Served(slot, arrival) => LegalRecv(sys.server, slot, arrival.recv)
    case Consumed(fd) => fd in sys.channel && sys.channel[fd] != [] && fd in sys.clients
  }

  /** The packets of `sends` that go to `fd`, in order. */
  function PacketsTo(sends: seq<Sent>, fd: int): seq<Packet> {
    if sends == [] then []
    else
      var last := sends[|sends| - 1];
      PacketsTo(sends[..|sends| - 1], fd) + if last.fd == fd then [last.packet] else []
  }

  function Stamp(packets: seq<Packet>, origin: Member): (es: seq<Envelope>)
    ensures |es| == |packets|
  {
    seq(|packets|, i requires 0 <= i < |packets| => Envelope(packets[i], origin))
  }

  function Deliver(channel: map<int, seq<Envelope>>, sends: seq<Sent>, origin: Member): map<int, seq<Envelope>> {
    map fd | fd in channel :: channel[fd] + Stamp(PacketsTo(sends, fd), origin)
  }

  /** A client takes in one packet: a group object replaces its copy of the group. */
  function Receive(client: Client, packet: Packet): Client {
    match packet
    case GroupObj(group) => Client(group, true)
    case _ => client
  }

  function SenderOf(identity: map<int, Member>, fd: int): Member {
    if fd in identity then identity[fd] else NOBODY
  }

  predicate StepDefined(sys: System, e: Event) {
    match e
    case Polled(_) => true
    case Accepted(fd) => true
    case Served(slot, arrival) => InBounds(sys.server, slot, arrival.recv) && GameReady(sys.server.game)
    case Consumed(fd) => fd in sys.channel && sys.channel[fd] != [] && fd in sys.clients
  }

  /** `poll` reports which descriptors can be read. */
  function MarkReady(pfds: seq<PollFd>, ready: set<int>): seq<PollFd> {
    seq(|pfds|, i requires 0 <= i < |pfds| => PollFd(pfds[i].fd, pfds[i].fd in ready))
  }

  function Step(sys: System, e: Event): System
    requires StepDefined(sys, e)
  {
    match e
    case Polled(ready) => sys.(server := sys.server.(pfds := MarkReady(sys.server.pfds, ready)))
    case Accepted(fd) =>
      sys.(server := Accept(sys.server, fd),
           channel := sys.channel[fd := []],
           clients := sys.clients[fd := Client(EMPTY_GROUP, false)])
    case Served(slot, arrival) =>
      var (s', sends) := Handle(sys.server, slot, arrival);
      sys.(server := s',
           identity := IdentityAfter(sys.server, slot, arrival.recv, sys.identity),
           channel := Deliver(sys.channel, sends, SenderOf(sys.identity, sys.server.pfds[slot].fd)))
    case Consumed(fd) =>
      sys.(channel := sys.channel[fd := sys.channel[fd][1..]],
           clients := sys.clients[fd := Receive(sys.clients[fd], sys.channel[fd][0].packet)])
  }

  // ------------------------------------------------------------------ client views

  /** What becomes of a client that takes in everything on its way. */
  function Drain(client: Client, channel: seq<Envelope>): Client {
    if channel == [] then client
    else Receive(Drain(client, channel[..|channel| - 1]), channel[|channel| - 1].packet)
  }

  /** A client with this view resolves a relayed packet to its true sender: exactly if
      it has a copy of the group. */
  predicate Resolves(client: Client, e: Envelope) {
    e.packet.Relay? ==>
      && e.origin != NOBODY
      && |client.view.members| == MAX_GROUP_MEMBERS && e.packet.slot < MAX_GROUP_MEMBERS
      && (client.view.members[e.packet.slot] == e.origin <==> client.initialized)
  }

  /** Every packet on the way will be resolved when its turn comes. */
  predicate AllResolve(client: Client, channel: seq<Envelope>) {
    channel == [] ||
    var before := channel[..|channel| - 1];
    AllResolve(client, before) && Resolves(Drain(client, before), channel[|channel| - 1])
  }

  /** Draining the channel of a connection gives the server's group, unless nothing was
      broadcast since it was accepted. */
  predicate UpToDate(sys: System, fd: int)
    requires fd in sys.channel && fd in sys.clients
  {
    var drained := Drain(sys.clients[fd], sys.channel[fd]);
    && (drained.initialized ==> drained.view == GroupOf(sys.server))
    && (!drained.initialized ==> drained.view == EMPTY_GROUP)
    && (fd in sys.identity ==> drained.initialized)
  }

  predicate ChannelsCover(sys: System) {
    && sys.channel.Keys == sys.clients.Keys
    && sys.server.listener !in sys.channel
    && forall i :: 1 <= i < |sys.server.pfds| ==> sys.server.pfds[i].fd in sys.channel
  }

  /** The invariant of all legal runs. */
  predicate Invariant(sys: System) {
    && PfdsWellFormed(sys.server) && GameInvariant(sys.server)
    && Aligned(sys.server, sys.identity) && DistinctUids(sys.server)
    && (forall fd :: fd in sys.identity ==> |sys.identity[fd].uid| == UID_LENGTH)
    && ChannelsCover(sys)
    && (forall fd :: fd in sys.channel ==> AllResolve(sys.clients[fd], sys.channel[fd]))
    && (forall i :: 1 <= i < |sys.server.pfds| ==> UpToDate(sys, sys.server.pfds[i].fd))
  }

  // ------------------------------------------------------------------ what a step sends

  predicate ChangesGroup(recv: Recv) {
    recv.Hangup? || recv.request.Nick? || recv.request.Init?
  }

  /** Sends that leave the group alone: no group object, and the sender's own slot on
      every relayed packet. */
  predicate Passive(sends: seq<Sent>, pfds: seq<PollFd>, slot: nat) {
    forall x :: x in sends ==>
      !x.packet.GroupObj? && x.fd in Fds(pfds) && (x.packet.Relay? ==> x.packet.slot == slot - 1)
  }

  /** Every change of the group is broadcast, and nothing else touches it. */
  lemma HandleSends(s: Server, slot: nat, arrival: Arrival)
    requires InBounds(s, slot, arrival.recv) && GameReady(s.game)
    ensures var (s', sends) := Handle(s, slot, arrival);
            if ChangesGroup(arrival.recv) then sends == NewGroup(s')
            else s'.pfds == s.pfds && GroupOf(s') == GroupOf(s) && Passive(sends, s.pfds, slot)
  {
    var fd := s.pfds[slot].fd;
    match arrival.recv
    case Hangup =>
    case Got(Nick(text)) =>
    case Got(Init(member)) =>
    case Got(Load) => LinesPackets(fd, History.HistoryLines(s.history));
    case Got(Hangman(text)) =>
      SendAllPackets(s.pfds, {s.listener, fd}, HangmanNote(Announced(s.members[slot - 1].nick)));
    case Got(Chat(text)) => ChatSends(s, slot, text, arrival.rands);
    case Got(Other(code, text)) => SendAllPackets(s.pfds, {s.listener, fd}, Relay(code, slot - 1, text));
  }

  lemma ChatSends(s: Server, slot: nat, text: string, rands: seq<nat>)
    requires InBounds(s, slot, Got(Chat(text))) && GameReady(s.game)
    ensures var (s', sends) := AfterChat(s, slot, text, rands);
            s'.pfds == s.pfds && GroupOf(s') == GroupOf(s) && Passive(sends, s.pfds, slot)
  {
    if InGame(s, s.members[slot - 1].uid) {
      GuessSends(s, slot, text, rands);
    } else {
      SendAllPackets(s.pfds, {s.listener, s.pfds[slot].fd}, Relay(LMP_MSG, slot - 1, text));
    }
  }

  lemma GuessSends(s: Server, slot: nat, text: string, rands: seq<nat>)
    requires InBounds(s, slot, Got(Chat(text))) && GameReady(s.game)
    ensures var (s', sends) := AfterGuess(s, slot, text, rands);
            s'.pfds == s.pfds && GroupOf(s') == GroupOf(s) && Passive(sends, s.pfds, slot)
  {
    if s.game.phase != Hangman.Updating && |CStr(text)| == 1 {
      var notice := AfterGuess(s, slot, text, rands).0.last;
      RepliesPackets(s, s.players, notice);
    }
  }

  lemma {:induction false} PacketsToSendAll(pfds: seq<PollFd>, skip: set<int>, packet: Packet, fd: int)
    requires forall i, j :: 0 <= i < j < |pfds| ==> pfds[i].fd != pfds[j].fd
    ensures PacketsTo(SendAll(pfds, skip, packet), fd) == if fd in Fds(pfds) && fd !in skip then [packet] else []
  {
    if pfds != [] {
      var before, last := pfds[..|pfds| - 1], pfds[|pfds| - 1].fd;
      PacketsToSendAll(before, skip, packet, fd);
      FdsSnoc(pfds);
      assert last !in Fds(before);
      if last in skip {
        assert SendAll(before, skip, packet) + [] == SendAll(before, skip, packet);
      } else {
        PacketsToSnoc(SendAll(before, skip, packet), Sent(last, packet), fd);
      }
    }
  }

  lemma PacketsToSnoc(sends: seq<Sent>, x: Sent, fd: int)
    ensures PacketsTo(sends + [x], fd) == PacketsTo(sends, fd) + if x.fd == fd then [x.packet] else []
  {
    assert (sends + [x])[..|sends|] == sends;
  }

  lemma {:induction false} PacketsToPassive(sends: seq<Sent>, pfds: seq<PollFd>, slot: nat, fd: int)
    requires Passive(sends, pfds, slot)
    ensures forall p :: p in PacketsTo(sends, fd) ==> !p.GroupObj? && (p.Relay? ==> p.slot == slot - 1)
    ensures fd !in Fds(pfds) ==> PacketsTo(sends, fd) == []
  {
    if sends != [] {
      assert forall x :: x in sends[..|sends| - 1] ==> x in sends;
      PacketsToPassive(sends[..|sends| - 1], pfds, slot, fd);
      assert sends[|sends| - 1] in sends;
    }
  }

  // ------------------------------------------------------------------ channels

  lemma {:induction false} TakeHead(client: Client, channel: seq<Envelope>)
    requires channel != []
    ensures Drain(client, channel) == Drain(Receive(client, channel[0].packet), channel[1..])
    ensures AllResolve(client, channel) ==>
              Resolves(client, channel[0]) && AllResolve(Receive(client, channel[0].packet), channel[1..])
  {
    if |channel| > 1 {
      var before := channel[..|channel| - 1];
      TakeHead(client, before);
      assert channel[1..][..|channel| - 2] == before[1..];
    } else {
      assert channel[..0] == [];
      assert Drain(client, channel[..0]) == client;
    }
  }

  lemma {:induction false} AppendPassive(client: Client, channel: seq<Envelope>, more: seq<Envelope>)
    requires AllResolve(client, channel)
    requires forall e :: e in more ==> !e.packet.GroupObj? && Resolves(Drain(client, channel), e)
    ensures AllResolve(client, channel + more) && Drain(client, channel + more) == Drain(client, channel)
  {
    if more == [] {
      assert channel + more == channel;
    } else {
      var init := more[..|more| - 1];
      AppendPassive(client, channel, init);
      assert (channel + more)[..|channel + more| - 1] == channel + init;
      assert more[|more| - 1] in more;
    }
  }

  lemma AppendGroup(client: Client, channel: seq<Envelope>, group: Group, origin: Member)
    requires AllResolve(client, channel)
    ensures var longer := channel + Stamp([GroupObj(group)], origin);
            AllResolve(client, longer) && Drain(client, longer) == Client(group, true)
  {
    var longer := channel + Stamp([GroupObj(group)], origin);
    assert longer[..|longer| - 1] == channel;
  }

  // ------------------------------------------------------------------ the invariant holds

  lemma LegalIsDefined(sys: System, e: Event)
    requires Invariant(sys) && Legal(sys, e)
    ensures StepDefined(sys, e)
  {
  }

  lemma ConsumedKeepsInvariant(sys: System, fd: int)
    requires Invariant(sys) && Legal(sys, Consumed(fd))
    ensures Invariant(Step(sys, Consumed(fd)))
  {
    var sys' := Step(sys, Consumed(fd));
    TakeHead(sys.clients[fd], sys.channel[fd]);
    forall c | c in sys'.channel ensures AllResolve(sys'.clients[c], sys'.channel[c]) {
      if c != fd { assert sys'.channel[c] == sys.channel[c]; }
    }
    forall i | 1 <= i < |sys'.server.pfds| ensures UpToDate(sys', sys'.server.pfds[i].fd) {
      assert UpToDate(sys, sys.server.pfds[i].fd);
    }
  }

  lemma PolledKeepsInvariant(sys: System, ready: set<int>)
    requires Invariant(sys)
    ensures Invariant(Step(sys, Polled(ready)))
  {
    var sys' := Step(sys, Polled(ready));
    var pfds, pfds' := sys.server.pfds, sys'.server.pfds;
    assert forall i :: 0 <= i < |pfds| ==> pfds'[i].fd == pfds[i].fd;
    forall fd | fd in sys.identity ensures exists i :: 1 <= i < |pfds'| && pfds'[i].fd == fd {
      var i :| 1 <= i < |pfds| && pfds[i].fd == fd;
      assert pfds'[i].fd == fd;
    }
    forall i | 1 <= i < |pfds'| ensures UpToDate(sys', pfds'[i].fd) {
      assert UpToDate(sys, pfds[i].fd);
    }
  }

  lemma AcceptedKeepsInvariant(sys: System, fd: int)
    requires Invariant(sys) && Legal(sys, Accepted(fd))
    ensures Invariant(Step(sys, Accepted(fd)))
  {
    var sys' := Step(sys, Accepted(fd));
    AcceptAligned(sys.server, fd, sys.identity);
    forall i | 1 <= i < |sys'.server.pfds| ensures UpToDate(sys', sys'.server.pfds[i].fd) {
      if i < |sys.server.pfds| {
        assert sys'.server.pfds[i] == sys.server.pfds[i];
        assert UpToDate(sys, sys.server.pfds[i].fd);
      } else {
        assert sys'.server.pfds[i].fd == fd;
      }
    }
  }

  /** The server half of a served event. */
  lemma ServedKeepsAlignment(sys: System, slot: nat, arrival: Arrival)
    requires Invariant(sys) && Legal(sys, Served(slot, arrival))
    ensures var (s', sends) := Handle(sys.server, slot, arrival);
            && Aligned(s', IdentityAfter(sys.server, slot, arrival.recv, sys.identity))
  {
    var s := sys.server;
    match arrival.recv
    case Hangup => HangupAligned(s, slot, sys.identity);
    case Got(Init(member)) => InitAligned(s, slot, member, sys.identity);
    case Got(Nick(text)) => NickAligned(s, slot, text, sys.identity);
    case Got(Load) =>
    case Got(Hangman(text)) =>
    case Got(Chat(text)) => ChatSends(s, slot, text, arrival.rands);
    case Got(Other(code, text)) =>
  }

  lemma ServedKeepsPfds(sys: System, slot: nat, arrival: Arrival)
    requires Invariant(sys) && Legal(sys, Served(slot, arrival))
    ensures var (s', sends) := Handle(sys.server, slot, arrival);
            && PfdsWellFormed(s') && s'.listener == sys.server.listener && Fds(s'.pfds) <= Fds(sys.server.pfds)
            && DistinctUids(s') && GameInvariant(s')
  {
    HandleKeepsPfds(sys.server, slot, arrival);
    ServedKeepsDistinctUids(sys.server, slot, arrival);
  }

  lemma HandleKeepsPfds(s: Server, slot: nat, arrival: Arrival)
    requires PfdsWellFormed(s) && GameInvariant(s) && InBounds(s, slot, arrival.recv)
    ensures var s' := Handle(s, slot, arrival).0;
            PfdsWellFormed(s') && s'.listener == s.listener && Fds(s'.pfds) <= Fds(s.pfds) && GameInvariant(s')
  {
    PollPass.HandleKeepsPass(s, slot, arrival);
    RemovalKeepsFds(s.pfds, slot);
  }

  lemma RemovalKeepsFds(pfds: seq<PollFd>, slot: nat)
    requires 1 <= slot < |pfds| && forall i, j :: 0 <= i < j < |pfds| ==> pfds[i].fd != pfds[j].fd
    ensures var after := pfds[slot := pfds[|pfds| - 1]][..|pfds| - 1];
            && after[0] == pfds[0] && Fds(after) <= Fds(pfds)
            && forall i, j :: 0 <= i < j < |after| ==> after[i].fd != after[j].fd
  {
    var n := |pfds| - 1;
    var after := pfds[slot := pfds[n]][..n];
    forall i | 0 <= i < n ensures after[i] == pfds[if i == slot then n else i] {
    }
  }

  lemma ServedKeepsDistinctUids(s: Server, slot: nat, arrival: Arrival)
    requires DistinctUids(s) && InBounds(s, slot, arrival.recv) && GameReady(s.game) && LegalRecv(s, slot, arrival.recv)
    ensures DistinctUids(Handle(s, slot, arrival).0)
  {
    HandleSends(s, slot, arrival);
  }

  /** What a served event adds to a channel. */
  function Added(sys: System, slot: nat, arrival: Arrival, fd: int): (more: seq<Envelope>)
    requires StepDefined(sys, Served(slot, arrival)) && fd in sys.channel
    ensures Step(sys, Served(slot, arrival)).channel[fd] == sys.channel[fd] + more
  {
    Stamp(PacketsTo(Handle(sys.server, slot, arrival).1, fd), SenderOf(sys.identity, sys.server.pfds[slot].fd))
  }

  lemma GroupChangeAdds(sys: System, slot: nat, arrival: Arrival, fd: int)
    requires Invariant(sys) && Legal(sys, Served(slot, arrival)) && ChangesGroup(arrival.recv) && fd in sys.channel
    ensures StepDefined(sys, Served(slot, arrival))
    ensures var s' := Handle(sys.server, slot, arrival).0;
            Added(sys, slot, arrival, fd)
            == Stamp(if fd in Fds(s'.pfds) then [GroupObj(GroupOf(s'))] else [], SenderOf(sys.identity, sys.server.pfds[slot].fd))
  {
    var s' := Handle(sys.server, slot, arrival).0;
    HandleSends(sys.server, slot, arrival);
    ServedKeepsPfds(sys, slot, arrival);
    PacketsToSendAll(s'.pfds, {s'.listener}, GroupObj(GroupOf(s')), fd);
  }

  /** One client's end of a step that changed the group. */
  lemma GroupChangeReaches(sys: System, slot: nat, arrival: Arrival, fd: int)
    requires Invariant(sys) && Legal(sys, Served(slot, arrival)) && ChangesGroup(arrival.recv) && fd in sys.channel
    ensures var sys' := Step(sys, Served(slot, arrival));
            && AllResolve(sys'.clients[fd], sys'.channel[fd])
            && (fd in Fds(sys'.server.pfds) ==>
                  Drain(sys'.clients[fd], sys'.channel[fd]) == Client(GroupOf(sys'.server), true))
  {
    var s' := Handle(sys.server, slot, arrival).0;
    var origin, was := SenderOf(sys.identity, sys.server.pfds[slot].fd), sys.channel[fd];
    GroupChangeAdds(sys, slot, arrival, fd);
    if fd in Fds(s'.pfds) {
      AppendGroup(sys.clients[fd], was, GroupOf(s'), origin);
    } else {
      assert was + Stamp([], origin) == was;
    }
  }

  /** Whom a legal frame comes from: the array entry of its slot is its true sender. */
  lemma SenderIsMember(sys: System, slot: nat, arrival: Arrival)
    requires Invariant(sys) && Legal(sys, Served(slot, arrival)) && !ChangesGroup(arrival.recv)
    ensures 1 <= slot <= sys.server.count <= MAX_GROUP_MEMBERS
    ensures SenderOf(sys.identity, sys.server.pfds[slot].fd) == sys.server.members[slot - 1] != NOBODY
  {
    assert sys.server.pfds[slot].fd in sys.identity;
  }

  /** One client's end of a step that left the group alone. */
  lemma PassiveStepReaches(sys: System, slot: nat, arrival: Arrival, fd: int)
    requires Invariant(sys) && Legal(sys, Served(slot, arrival)) && !ChangesGroup(arrival.recv) && fd in sys.channel
    ensures var sys' := Step(sys, Served(slot, arrival));
            && AllResolve(sys'.clients[fd], sys'.channel[fd])
            && (fd in Fds(sys.server.pfds) ==>
                  Drain(sys'.clients[fd], sys'.channel[fd]) == Drain(sys.clients[fd], sys.channel[fd]))
  {
    var s, sends := sys.server, Handle(sys.server, slot, arrival).1;
    var origin := SenderOf(sys.identity, s.pfds[slot].fd);
    HandleSends(s, slot, arrival);
    SenderIsMember(sys, slot, arrival);
    PacketsToPassive(sends, s.pfds, slot, fd);
    var packets := PacketsTo(sends, fd);
    var more := Stamp(packets, origin);
    if fd in Fds(s.pfds) {
      StampedResolve(sys, slot, fd, packets, origin);
      AppendPassive(sys.clients[fd], sys.channel[fd], more);
    } else {
      assert sys.channel[fd] + more == sys.channel[fd];
    }
  }

  lemma StampedResolve(sys: System, slot: nat, fd: int, packets: seq<Packet>, origin: Member)
    requires Invariant(sys) && fd in sys.channel && fd in Fds(sys.server.pfds)
    requires 1 <= slot <= sys.server.count && origin == sys.server.members[slot - 1] != NOBODY
    requires forall p :: p in packets ==> !p.GroupObj? && (p.Relay? ==> p.slot == slot - 1)
    ensures forall e :: e in Stamp(packets, origin) ==>
              !e.packet.GroupObj? && Resolves(Drain(sys.clients[fd], sys.channel[fd]), e)
  {
    var i :| 0 <= i < |sys.server.pfds| && sys.server.pfds[i].fd == fd;
    assert UpToDate(sys, sys.server.pfds[i].fd);
  }

  lemma ServedKeepsInvariant(sys: System, slot: nat, arrival: Arrival)
    requires Invariant(sys) && Legal(sys, Served(slot, arrival))
    ensures Invariant(Step(sys, Served(slot, arrival)))
  {
    var sys' := Step(sys, Served(slot, arrival));
    ServedKeepsAlignment(sys, slot, arrival);
    ServedKeepsPfds(sys, slot, arrival);
    ServedKeepsUids(sys, slot, arrival);
    assert ChannelsCover(sys') by { StillCovered(sys, sys'); }
    forall fd | fd in sys'.channel ensures AllResolve(sys'.clients[fd], sys'.channel[fd]) {
      if ChangesGroup(arrival.recv) { GroupChangeReaches(sys, slot, arrival, fd); }
      else { PassiveStepReaches(sys, slot, arrival, fd); }
    }
    forall i | 1 <= i < |sys'.server.pfds| ensures UpToDate(sys', sys'.server.pfds[i].fd) {
      ServedKeepsUpToDate(sys, slot, arrival, i);
    }
  }

  lemma StillCovered(sys: System, sys': System)
    requires ChannelsCover(sys) && PfdsWellFormed(sys.server) && PfdsWellFormed(sys'.server)
    requires sys'.channel.Keys == sys.channel.Keys && sys'.clients == sys.clients
    requires sys'.server.listener == sys.server.listener && Fds(sys'.server.pfds) <= Fds(sys.server.pfds)
    ensures ChannelsCover(sys')
  {
    forall i | 1 <= i < |sys'.server.pfds| ensures sys'.server.pfds[i].fd in sys'.channel {
      assert sys'.server.pfds[i].fd in Fds(sys'.server.pfds);
      var k :| 0 <= k < |sys.server.pfds| && sys.server.pfds[k].fd == sys'.server.pfds[i].fd;
    }
  }

  lemma ServedKeepsUids(sys: System, slot: nat, arrival: Arrival)
    requires Invariant(sys) && Legal(sys, Served(slot, arrival))
    ensures var after := IdentityAfter(sys.server, slot, arrival.recv, sys.identity);
            forall fd :: fd in after ==> |after[fd].uid| == UID_LENGTH
  {
  }

  lemma ServedKeepsUpToDate(sys: System, slot: nat, arrival: Arrival, i: nat)
    requires Invariant(sys) && Legal(sys, Served(slot, arrival))
    requires var s' := Handle(sys.server, slot, arrival).0;
             1 <= i < |s'.pfds| && Fds(s'.pfds) <= Fds(sys.server.pfds) && PfdsWellFormed(s')
             && s'.listener == sys.server.listener
    ensures var sys' := Step(sys, Served(slot, arrival));
            var fd := sys'.server.pfds[i].fd;
            fd in sys'.channel && fd in sys'.clients && UpToDate(sys', fd)
  {
    var sys' := Step(sys, Served(slot, arrival));
    var fd := sys'.server.pfds[i].fd;
    assert fd in Fds(sys'.server.pfds);
    var k :| 0 <= k < |sys.server.pfds| && sys.server.pfds[k].fd == fd;
    assert k > 0 && UpToDate(sys, sys.server.pfds[k].fd);
    if ChangesGroup(arrival.recv) {
      GroupChangeReaches(sys, slot, arrival, fd);
    } else {
      PassiveStepReaches(sys, slot, arrival, fd);
      HandleSends(sys.server, slot, arrival);
    }
  }

  lemma StepKeepsInvariant(sys: System, e: Event)
    requires Invariant(sys) && Legal(sys, e)
    ensures StepDefined(sys, e) && Invariant(Step(sys, e))
  {
    LegalIsDefined(sys, e);
    match e
    case Polled(ready) => PolledKeepsInvariant(sys, ready);
    case Accepted(fd) => AcceptedKeepsInvariant(sys, fd);
    case Served(slot, arrival) => ServedKeepsInvariant(sys, slot, arrival);
    case Consumed(fd) => ConsumedKeepsInvariant(sys, fd);
  }

  // ------------------------------------------------------------------ runs

  /** A server that has just opened its listener. */
  function Start(listener: int, history: string, words: string): System {
    System(Server(listener, [PollFd(listener, false)], NO_MEMBERS, 0,
                  Hangman.Game(Hangman.Phase.Initial, "", "", 0, "", false), [], Silence, history, words),
           map[], map[], map[])
  }

  /** `sys'` is reached from `sys` by the legal run `events`, first event first. */
  predicate Run(sys: System, events: seq<Event>, sys': System)
    decreases |events|
  {
    if events == [] then sys == sys'
    else Legal(sys, events[0]) && StepDefined(sys, events[0]) && Run(Step(sys, events[0]), events[1..], sys')
  }

  lemma {:induction false} RunKeepsInvariant(sys: System, events: seq<Event>, sys': System)
    requires Invariant(sys) && Run(sys, events, sys')
    ensures Invariant(sys')
    decreases |events|
  {
    if events != [] {
      StepKeepsInvariant(sys, events[0]);
      RunKeepsInvariant(Step(sys, events[0]), events[1..], sys');
    }
  }

  lemma StartInvariant(listener: int, history: string, words: string)
    ensures Invariant(Start(listener, history, words))
  {
  }

  /** Slot alignment in every reachable state: the listener keeps slot 0, the first
      `count` connections are exactly the registered ones, each with its own entry. */
  lemma ReachableIsAligned(listener: int, history: string, words: string, events: seq<Event>, sys: System)
    requires Run(Start(listener, history, words), events, sys)
    ensures PfdsWellFormed(sys.server) && Aligned(sys.server, sys.identity) && DistinctUids(sys.server)
    ensures GameInvariant(sys.server)
  {
    StartInvariant(listener, history, words);
    RunKeepsInvariant(Start(listener, history, words), events, sys);
  }

  /** Sender attribution over all legal runs: when a client takes in a relayed packet,
      the entry of its own group copy at the packet's slot is the UID and nickname the
      real sender had when the server relayed it, if and only if the client has
      received a group object at all. */
  lemma RelayedPacketsAreAttributed(listener: int, history: string, words: string, events: seq<Event>, sys: System, fd: int)
    requires Run(Start(listener, history, words), events, sys)
    requires fd in sys.channel && fd in sys.clients && sys.channel[fd] != [] && sys.channel[fd][0].packet.Relay?
    ensures var client, e := sys.clients[fd], sys.channel[fd][0];
            && |client.view.members| == MAX_GROUP_MEMBERS && e.packet.slot < MAX_GROUP_MEMBERS
            && (client.view.members[e.packet.slot] == e.origin <==> client.initialized)
  {
    StartInvariant(listener, history, words);
    RunKeepsInvariant(Start(listener, history, words), events, sys);
    TakeHead(sys.clients[fd], sys.channel[fd]);
  }

  /** Draining the channel of any registered connection gives the server's group. */
  lemma DrainedViewIsCurrent(listener: int, history: string, words: string, events: seq<Event>, sys: System, fd: int)
    requires Run(Start(listener, history, words), events, sys) && fd in sys.identity
    ensures fd in sys.channel && fd in sys.clients
    ensures Drain(sys.clients[fd], sys.channel[fd]) == Client(GroupOf(sys.server), true)
  {
    StartInvariant(listener, history, words);
    RunKeepsInvariant(Start(listener, history, words), events, sys);
    var i :| 1 <= i < |sys.server.pfds| && sys.server.pfds[i].fd == fd;
    assert UpToDate(sys, sys.server.pfds[i].fd);
  }
}
