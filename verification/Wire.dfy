/** Client frames as bytes: what a client sends for each request, and what the server's
    handler makes of what it reads (group_server_comms.c, with the structure of group.h). */
module Wire {
  import opened CText
  import opened Framing
  import opened GroupServer

  const LMP_NICK: nat := 0x02
  const LMP_GRP_INIT_MEMBER: nat := 0x12
  const LMP_GRP_LOAD_MSG: nat := 0x13
  const LMP_GRP_HANGMAN: nat := 0x15

  const BUFFER: nat := 4096  // the handler's local buffer
  const UID_FIELD: nat := UID_LENGTH + 1
  const MEMBER_SIZE: nat := UID_FIELD + NICKNAME_MAX_LEN

  /** A text copied into a zeroed field, clipped to leave room for its terminator. */
  function Field(text: CString, size: nat): (f: string)
    requires size > 0
    ensures |f| == size
  {
    var kept := Clip(text, size - 1);
    kept + seq(size - |kept|, _ => NUL)
  }

  /** The bytes of a `GroupMember`. */
  function MemberBytes(m: Member): (b: string)
    ensures |b| == MEMBER_SIZE
  {
    Field(m.uid, UID_FIELD) + Field(m.nick, NICKNAME_MAX_LEN)
  }

  /** `*(GroupMember *)buf`: a whole structure is read, however short the payload was. */
  function MemberIn(buf: string): Member
    requires |buf| >= MEMBER_SIZE
  {
    Member(CStr(buf[..UID_FIELD]), CStr(buf[UID_FIELD..MEMBER_SIZE]))
  }

  /** The `switch` on the type of a frame of `len` payload bytes in `buf`. */
  function RequestIn(code: nat, len: nat, buf: string): Request
    requires len < |buf| && |buf| >= MEMBER_SIZE
  {
    if code == LMP_NICK then Nick(buf[..len])
    else if code == LMP_GRP_INIT_MEMBER then Init(MemberIn(buf))
    else if code == LMP_GRP_LOAD_MSG then Load
    else if code == LMP_GRP_HANGMAN then Hangman(buf[..len])
    else if code == LMP_MSG then Chat(buf[..len])
    else Other(code, buf[..len])
  }

  /** What the handler gets from the bytes `wire`, its buffer holding `was` before. */
  function Received(wire: string, was: string): Recv
    requires |was| == BUFFER
  {
    var o := Receive(wire, was);
    if o.status != 0 then Hangup else Got(RequestIn(o.frame.code, |o.frame.payload|, o.buf))
  }

  /** The same on a socket served by `script`: a read error counts as a hangup. */
  function ReceivedFrom(script: seq<ReadEvent>, wire: string, was: string): Recv
    requires |was| == BUFFER
  {
    if ReadFails(script, wire, BUFFER) then Hangup else Received(wire, was)
  }

  /** The reading part of the handler, into its local buffer, which begins with whatever
      the stack held. */
  method ReadRequest(sock: Socket, stack: string) returns (recv: Recv)
    requires |stack| == BUFFER
    modifies sock
    ensures recv == ReceivedFrom(old(sock.script), old(sock.incoming), stack)
    ensures !ReadFails(old(sock.script), old(sock.incoming), BUFFER) ==>
              sock.incoming == Receive(old(sock.incoming), stack).rest
  {
    var buf := new char[BUFFER](i requires 0 <= i < BUFFER => stack[i]);
    assert buf[..] == stack;
    var status, code, sender, len := GroupLmpRecv(sock, buf);
    recv := if status < 0 then Hangup else Got(RequestIn(code, len, buf[..]));
  }

  /** Which type is which request, and where the parts of a registration are. */
  lemma RequestsByType(len: nat, buf: string)
    requires len < |buf| == 4096
    ensures RequestIn(0x01, len, buf) == Chat(buf[..len])
    ensures RequestIn(0x02, len, buf) == Nick(buf[..len])
    ensures RequestIn(0x12, len, buf) == Init(Member(CStr(buf[..9]), CStr(buf[9..41])))
    ensures RequestIn(0x13, len, buf) == Load
    ensures RequestIn(0x15, len, buf) == Hangman(buf[..len])
    ensures forall code: nat :: code !in {0x01, 0x02, 0x12, 0x13, 0x15} ==> RequestIn(code, len, buf) == Other(code, buf[..len])
  {
  }

  /** The bytes of a member: the UID from byte 0 on, the nickname from byte 9 on, each with
      zeros behind it, 41 bytes in all. */
  lemma MemberLayout(m: Member)
    requires |m.uid| <= 8 && |m.nick| <= 31
    ensures var b := MemberBytes(m);
            && |b| == 41 && b[..|m.uid|] == m.uid && b[9..9 + |m.nick|] == m.nick
            && (forall i :: |m.uid| <= i < 9 ==> b[i] == NUL)
            && forall i :: 9 + |m.nick| <= i < 41 ==> b[i] == NUL
  {
  }

  // ------------------------------------------------------------------ what clients send

  function FrameOf(r: Request): Frame {
    match r
    case Nick(text) => Frame(LMP_NICK, 0, text)
    case Init(member) => Frame(LMP_GRP_INIT_MEMBER, 0, MemberBytes(member))
    case Load => Frame(LMP_GRP_LOAD_MSG, 0, "")
    case Hangman(text) => Frame(LMP_GRP_HANGMAN, 0, text)
    case Chat(text) => Frame(LMP_MSG, 0, text)
    case Other(code, text) => Frame(code, 0, text)
  }

  /** A frame can carry the request, and `Other` is a type without a case of its own. */
  predicate Sendable(r: Request) {
    && Encodable(FrameOf(r))
    && (r.Other? ==> r.code !in {LMP_NICK, LMP_GRP_INIT_MEMBER, LMP_GRP_LOAD_MSG, LMP_GRP_HANGMAN, LMP_MSG})
  }

  /** The request as it can arrive: a member's texts clipped to their fields. */
  function Clipped(r: Request): Request {
    match r
    case Init(member) => Init(Member(Clip(member.uid, UID_LENGTH), Clip(member.nick, NICKNAME_MAX_LEN - 1)))
    case _ => r
  }

  lemma FieldRoundTrip(text: CString, size: nat)
    requires size > 0
    ensures CStr(Field(text, size)) == Clip(text, size - 1)
  {
    CStrIs(Field(text, size), Clip(text, size - 1));
  }

  /** A member survives its structure but for clipping, whatever lies behind it. */
  lemma MemberRoundTrip(m: Member, behind: string)
    ensures MemberIn(MemberBytes(m) + behind) == Member(Clip(m.uid, UID_LENGTH), Clip(m.nick, NICKNAME_MAX_LEN - 1))
  {
    var uid, nick := Field(m.uid, UID_FIELD), Field(m.nick, NICKNAME_MAX_LEN);
    FieldRoundTrip(m.uid, UID_FIELD);
    FieldRoundTrip(m.nick, NICKNAME_MAX_LEN);
    assert (uid + nick + behind)[..UID_FIELD] == uid;
    assert (uid + nick + behind)[UID_FIELD..MEMBER_SIZE] == nick;
  }

  /** A request arrives as it was sent, members clipped to their fields and nothing
      behind it touched, if and only if its payload is shorter than the handler's buffer;
      a longer one is taken for a hangup. */
  lemma RequestRoundTrip(r: Request, tail: string, was: string)
    requires Sendable(r) && |was| == BUFFER
    ensures Received(Encode(FrameOf(r)) + tail, was)
            == if |FrameOf(r).payload| < 4096 then Got(Clipped(r)) else Hangup
    ensures |FrameOf(r).payload| < 4096 ==> Receive(Encode(FrameOf(r)) + tail, was).rest == tail
  {
    var f := FrameOf(r);
    if |f.payload| < BUFFER {
      ReceiveEncoded(f, tail, was);
      ContentArrives(r, was);
    } else {
      OversizeRefused(f, tail, was);
    }
  }

  lemma ContentArrives(r: Request, was: string)
    requires Sendable(r) && |was| == BUFFER && |FrameOf(r).payload| < BUFFER
    ensures var f := FrameOf(r);
            var buf := f.payload + [NUL] + was[|f.payload| + 1..];
            |buf| == BUFFER && RequestIn(f.code, |f.payload|, buf) == Clipped(r)
  {
    var f := FrameOf(r);
    var behind := [NUL] + was[|f.payload| + 1..];
    var buf := f.payload + [NUL] + was[|f.payload| + 1..];
    assert buf[..|f.payload|] == f.payload;
    if r.Init? {
      assert buf == f.payload + behind;
      MemberRoundTrip(r.member, behind);
    }
  }

  lemma OversizeRefused(f: Frame, tail: string, was: string)
    requires Encodable(f) && |f.payload| >= |was| > 0
    ensures Receive(Encode(f) + tail, was).status == -4
  {
    var wire := Encode(f) + tail;
    NetworkOrder(|f.payload|);
    assert wire[4..8] == ToNetwork(|f.payload|);
  }

  function BytesOf(rs: seq<Request>): string
    requires forall i :: 0 <= i < |rs| ==> Sendable(rs[i])
  {
    if rs == [] then ""
    else
      assert Sendable(rs[0]);
      Encode(FrameOf(rs[0])) + BytesOf(rs[1..])
  }

  /** The requests as they can arrive, and the hangup behind them. */
  function Arriving(rs: seq<Request>): seq<Recv> {
    if rs == [] then [Hangup] else [Got(Clipped(rs[0]))] + Arriving(rs[1..])
  }

  /** What successive calls of the handler get from one connection, to its hangup. */
  function AllReceived(wire: string, was: string): seq<Recv>
    requires |was| == BUFFER
    decreases |wire|
  {
    if Receive(wire, was).status != 0 then [Hangup]
    else [Received(wire, was)] + AllReceived(Receive(wire, was).rest, Receive(wire, was).buf)
  }

  /** Whatever a client sends on its connection is handled request by request as sent,
      the last being its hangup. */
  lemma {:induction false} RequestsRoundTrip(rs: seq<Request>, was: string)
    requires |was| == BUFFER && forall i :: 0 <= i < |rs| ==> Sendable(rs[i]) && |FrameOf(rs[i]).payload| < BUFFER
    ensures AllReceived(BytesOf(rs), was) == Arriving(rs)
    decreases |rs|
  {
    if rs != [] {
      var wire := BytesOf(rs);
      RequestRoundTrip(rs[0], BytesOf(rs[1..]), was);
      RequestsRoundTrip(rs[1..], Receive(wire, was).buf);
    }
  }
}
