/** LMP framing (lmp.c, group_user_comms.c, group_server_comms.c): an 8-byte header
    with a big-endian payload length, read back through a socket that delivers its
    bytes in arbitrary pieces. */
module Framing {
  import opened Collections
  import opened CText

  const LMP_MAGIC_0: char := 0x4C as char
  const LMP_MAGIC_1: char := 0x4D as char
  const HEADER: nat := 8

  /** One frame on the wire: type byte, reserved byte (the sender's slot in group
      chat) and payload. */
  datatype Frame = Frame(code: nat, sender: nat, payload: string)

  predicate Encodable(f: Frame) {
    f.code < 256 && f.sender < 256 && |f.payload| < 0x1_0000_0000
  }

  /** `htonl`. */
  function ToNetwork(n: nat): string
    requires n < 0x1_0000_0000
  {
    [(n / 0x100_0000) as char, (n / 0x1_0000 % 256) as char, (n / 256 % 256) as char, (n % 256) as char]
  }

  /** `ntohl`. */
  function FromNetwork(b: string): nat
    requires |b| == 4
  {
    ((b[0] as nat * 256 + b[1] as nat) * 256 + b[2] as nat) * 256 + b[3] as nat
  }

  lemma NetworkOrder(n: nat)
    requires n < 0x1_0000_0000
    ensures FromNetwork(ToNetwork(n)) == n
  {
    var h := n / 256;
    assert n == h * 256 + n % 256;
    assert n / 0x1_0000 == h / 256 && n / 0x100_0000 == h / 256 / 256;
    assert h == (h / 256) * 256 + h % 256;
  }

  /** What `lmp_send` and `group_lmp_send` put on the wire. */
  function Encode(f: Frame): string
    requires Encodable(f)
  {
    [LMP_MAGIC_0, LMP_MAGIC_1, f.code as char, f.sender as char] + ToNetwork(|f.payload|) + f.payload
  }

  /** Where everything is in a frame: the two magic letters, the type, the sender, the
      length with its highest byte first, the payload. */
  lemma FrameLayout(f: Frame)
    requires Encodable(f)
    ensures var w := Encode(f);
            && |w| == 8 + |f.payload|
            && w[0] == 'L' && w[1] == 'M' && w[2] as int == f.code && w[3] as int == f.sender
            && w[4] as int * 0x100_0000 + w[5] as int * 0x1_0000 + w[6] as int * 0x100 + w[7] as int == |f.payload|
            && w[8..] == f.payload
  {
    NetworkOrder(|f.payload|);
    var n := ToNetwork(|f.payload|);
    assert Encode(f)[4] == n[0] && Encode(f)[5] == n[1] && Encode(f)[6] == n[2] && Encode(f)[7] == n[3];
  }

  function EncodeAll(fs: seq<Frame>): string
    requires forall f :: f in fs ==> Encodable(f)
  {
    if fs == [] then "" else Encode(fs[0]) + EncodeAll(fs[1..])
  }

  // ---------------------------------------------------------------- receiving

  /** The outcome of one receive call: its status, the frame it reported (meaningful
      at status 0), the caller's buffer afterwards and the bytes left on the wire. */
  datatype Outcome = Outcome(status: int, frame: Frame, buf: string, rest: string)

  const NO_FRAME := Frame(0, 0, "")

  /** Receiving from the bytes `wire`, after which the peer closes, into `buf`.
      A payload cut short is reported as complete as soon as one byte of it arrived:
      the rest of the reported payload is what the buffer held before. */
  function Receive(wire: string, buf: string): (o: Outcome)
    ensures |o.buf| == |buf|
    ensures o.status == 0 ==> |o.rest| < |wire|
  {
    if wire == "" then Outcome(-2, NO_FRAME, buf, "")
    else if |wire| < HEADER then Outcome(-3, NO_FRAME, buf, "")
    else if wire[0] != LMP_MAGIC_0 || wire[1] != LMP_MAGIC_1 then Outcome(-3, NO_FRAME, buf, wire[HEADER..])
    else
      var plen := FromNetwork(wire[4..8]);
      var body := wire[HEADER..];
      if plen >= |buf| then Outcome(-4, NO_FRAME, buf, body)
      else if plen > 0 && body == "" then Outcome(-5, NO_FRAME, buf, body)
      else
        var got := if plen <= |body| then plen else |body|;
        var filled := (body[..got] + buf[got..])[plen := NUL];
        Outcome(0, Frame(wire[2] as nat, wire[3] as nat, filled[..plen]), filled, body[got..])
  }

  /** The status of a receive call, from the bytes and the size of the buffer: -2 with
      nothing to read, -3 for a header that is short or does not begin with "LM", -4 for a
      payload that does not fit with its terminator, -5 for one that is missing. */
  lemma StatusExact(wire: string, buf: string)
    requires |buf| > 0
    ensures var size := if |wire| < 8 then 0
                        else wire[4] as int * 0x100_0000 + wire[5] as int * 0x1_0000 + wire[6] as int * 0x100 + wire[7] as int;
            Receive(wire, buf).status ==
              if wire == "" then -2
              else if |wire| < 8 || wire[0] != 'L' || wire[1] != 'M' then -3
              else if size >= |buf| then -4
              else if size > 0 && |wire| == 8 then -5
              else 0
    ensures Receive(wire, buf).status in {-3, -4, -5} ==>
              Receive(wire, buf).rest == if |wire| < 8 then "" else wire[8..]
  {
  }

  /** The receive loop: frames until the first non-zero status. */
  function ReceiveAll(wire: string, buf: string): (r: (seq<Frame>, int))
    decreases |wire|
  {
    var o := Receive(wire, buf);
    if o.status != 0 then ([], o.status)
    else
      var (fs, status) := ReceiveAll(o.rest, o.buf);
      ([o.frame] + fs, status)
  }

  /** One encoded frame is decoded exactly, and nothing behind it is touched. */
  lemma {:induction false} ReceiveEncoded(f: Frame, tail: string, buf: string)
    requires Encodable(f) && |f.payload| < |buf|
    ensures var o := Receive(Encode(f) + tail, buf);
            o.status == 0 && o.frame == f && o.rest == tail
            && o.buf == f.payload + [NUL] + buf[|f.payload| + 1..]
  {
    var wire := Encode(f) + tail;
    var n := |f.payload|;
    NetworkOrder(n);
    assert wire[4..8] == ToNetwork(n);
    assert wire[HEADER..] == f.payload + tail;
    assert (f.payload + tail)[..n] == f.payload && (f.payload + tail)[n..] == tail;
    var filled := (f.payload + buf[n..])[n := NUL];
    assert filled == f.payload + [NUL] + buf[n + 1..];
    assert filled[..n] == f.payload;
  }

  /** A concatenation of encoded frames followed by `tail` decodes to those frames,
      then to whatever `tail` decodes to. */
  lemma {:induction false} FramesRoundTrip(fs: seq<Frame>, tail: string, buf: string)
    requires forall f :: f in fs ==> Encodable(f) && |f.payload| < |buf|
    requires 0 < |tail| < HEADER || tail == ""
    ensures ReceiveAll(EncodeAll(fs) + tail, buf) == (fs, if tail == "" then -2 else -3)
  {
    if fs == [] {
      assert EncodeAll(fs) + tail == tail;
    } else {
      var rest := EncodeAll(fs[1..]) + tail;
      ConcatAssociates(Encode(fs[0]), EncodeAll(fs[1..]), tail);
      ReceiveEncoded(fs[0], rest, buf);
      FramesRoundTrip(fs[1..], tail, Receive(EncodeAll(fs) + tail, buf).buf);
      assert fs == [fs[0]] + fs[1..];
    }
  }

  /** Encoding determines the frames: two lists with the same bytes are the same. */
  lemma EncodingInjective(fs: seq<Frame>, gs: seq<Frame>)
    requires forall f :: f in fs || f in gs ==> Encodable(f)
    requires EncodeAll(fs) == EncodeAll(gs)
    ensures fs == gs
  {
    var buf := seq(0x1_0000_0000, _ => NUL);
    assert EncodeAll(fs) + "" == EncodeAll(fs) && EncodeAll(gs) + "" == EncodeAll(gs);
    FramesRoundTrip(fs, "", buf);
    FramesRoundTrip(gs, "", buf);
  }

  /** Truncating a frame inside its payload is noticed if and only if the cut leaves
      no payload byte at all; otherwise a frame of the announced length is reported. */
  lemma TruncatedPayloadNoticed(f: Frame, cut: nat, buf: string)
    requires Encodable(f) && |f.payload| < |buf| && HEADER <= cut < HEADER + |f.payload|
    ensures var o := Receive(Encode(f)[..cut], buf);
            && (o.status != 0 <==> cut == HEADER)
            && (o.status != 0 ==> o.status == -5)
            && (o.status == 0 ==>
                  && |o.frame.payload| == |f.payload|
                  && o.frame.payload[..cut - HEADER] == f.payload[..cut - HEADER]
                  && o.frame.payload[cut - HEADER..] == buf[cut - HEADER..|f.payload|])
  {
    var wire := Encode(f)[..cut];
    NetworkOrder(|f.payload|);
    assert wire[4..8] == ToNetwork(|f.payload|);
    assert wire[HEADER..] == f.payload[..cut - HEADER];
  }

  // ---------------------------------------------------------------- the socket

  /** What one `read` call meets: a piece of at most k bytes, a signal (EINTR), or a
      real error. */
  datatype ReadEvent = Piece(k: nat) | Interrupt | Fault

  /** What `read` calls for n of the bytes `wire` come to, however they are served: the
      number of bytes they give, or -1 at a real error, and the events left. */
  function Reading(script: seq<ReadEvent>, wire: string, n: nat): (r: (int, seq<ReadEvent>))
    ensures r.0 == -1 || r.0 == if n <= |wire| then n else |wire|
    decreases |script|
  {
    if n == 0 then (0, script)
    else if script == [] then (Served(n, n, wire), [])
    else match script[0]
         case Interrupt => Reading(script[1..], wire, n)
         case Fault => (-1, script[1..])
         case Piece(k) =>
           var r := Served(k, n, wire);
           if r == 0 then (0, script[1..]) else Further(r, Reading(script[1..], wire[r..], n - r))
  }

  /** How many of n bytes one `read` call gives that is served k at most. */
  function Served(k: nat, n: nat, wire: string): (r: nat)
    requires n > 0
    ensures r <= n && r <= |wire| && (r == 0 <==> wire == "")
  {
    var most := if 0 < k < n then k else n;
    if most <= |wire| then most else |wire|
  }

  function Further(r: nat, later: (int, seq<ReadEvent>)): (int, seq<ReadEvent>) {
    (if later.0 == -1 then -1 else r + later.0, later.1)
  }

  lemma {:induction false} NoFaultNoError(script: seq<ReadEvent>, wire: string, n: nat)
    ensures Fault !in script ==> Reading(script, wire, n).0 != -1 && Fault !in Reading(script, wire, n).1
    decreases |script|
  {
    if n > 0 && script != [] {
      assert script[0] in script;
      match script[0]
      case Interrupt => NoFaultNoError(script[1..], wire, n);
      case Fault =>
      case Piece(k) =>
        var r := Served(k, n, wire);
        NoFaultNoError(script[1..], wire[r..], n - r);
    }
  }

  /** The bytes given before a real error. */
  function Given(script: seq<ReadEvent>): nat {
    if script == [] then 0 else (if script[0].Piece? then script[0].k else 0) + Given(script[1..])
  }

  /** A real error that comes before all n bytes are there makes the series fail. */
  lemma {:induction false} FaultFails(before: seq<ReadEvent>, after: seq<ReadEvent>, wire: string, n: nat)
    requires forall e :: e in before ==> e == Interrupt || (e.Piece? && e.k > 0)
    requires Given(before) < n && Given(before) <= |wire|
    ensures Reading(before + ([Fault] + after), wire, n) == (-1, after)
    decreases |before|
  {
    if before == [] {
      ConcatNothing([Fault] + after);
      assert ([Fault] + after)[1..] == after;
    } else {
      var e, rest := before[0], before[1..];
      assert e in before && forall x :: x in rest ==> x in before;
      assert (before + ([Fault] + after))[1..] == rest + ([Fault] + after);
      FaultFails(rest, after, if e == Interrupt then wire else wire[e.k..], if e == Interrupt then n else n - e.k);
    }
  }

  /** What one `read` call leaves of a series that is to give n bytes. */
  predicate AfterRead(script: seq<ReadEvent>, wire: string, n: nat, r: int, eintr: bool,
                      script': seq<ReadEvent>, wire': string)
    requires -1 <= r <= n
  {
    Reading(script, wire, n) ==
      if r == -1 then (if eintr then Reading(script', wire', n) else (-1, script'))
      else if r == 0 then (0, script')
      else Further(r, Reading(script', wire', n - r))
  }

  lemma OneRead(script: seq<ReadEvent>, wire: string, n: nat)
    requires n > 0
    ensures script != [] && script[0] == Interrupt ==> AfterRead(script, wire, n, -1, true, script[1..], wire)
    ensures script != [] && script[0] == Fault ==> AfterRead(script, wire, n, -1, false, script[1..], wire)
    ensures script == [] || script[0].Piece? ==>
              var r := Served(if script == [] then n else script[0].k, n, wire);
              AfterRead(script, wire, n, r, false, if script == [] then [] else script[1..], wire[r..])
  {
  }

  /** A connected socket: the bytes the peer has sent before closing, and how the
      coming `read` calls will be served.  When the script is used up, reads are
      served in full. */
  class Socket {
    var incoming: string
    var script: seq<ReadEvent>

    constructor (incoming: string, script: seq<ReadEvent>)
      ensures this.incoming == incoming && this.script == script
    {
      this.incoming, this.script := incoming, script;
    }

    /** `read(fd, buf + at, n)`; -1 with `eintr` is an interrupted call. */
    method Read(buf: array<char>, at: nat, n: nat) returns (r: int, eintr: bool)
      requires n > 0 && at + n <= buf.Length
      modifies this, buf
      ensures -1 <= r <= n
      ensures AfterRead(old(script), old(incoming), n, r, eintr, script, incoming)
      ensures r == -1 ==> incoming == old(incoming) && buf[..] == old(buf[..]) && |script| < |old(script)|
      ensures r != -1 ==>
                && r <= |old(incoming)| && (r == 0 <==> old(incoming) == "")
                && incoming == old(incoming)[r..]
                && buf[..] == old(buf[..at]) + old(incoming)[..r] + old(buf[at + r..])
    {
      var most := n;
      OneRead(script, incoming, n);
      if script != [] {
        var e := script[0];
        script := script[1..];
        match e
        case Interrupt => return -1, true;
        case Fault => return -1, false;
        case Piece(k) =>
          if 0 < k < n { most := k; }
      }
      r, eintr := if most <= |incoming| then most else |incoming|, false;
      Store(buf, at, incoming[..r]);
      incoming := incoming[r..];
    }
  }

  /** `memcpy(buf + at, data, |data|)`. */
  method Store(buf: array<char>, at: nat, data: string)
    requires at + |data| <= buf.Length
    modifies buf
    ensures buf[..] == old(buf[..at]) + data + old(buf[at + |data|..])
  {
    for i := 0 to |data|
      invariant forall j :: 0 <= j < buf.Length ==>
                  buf[j] == if at <= j < at + i then data[j - at] else old(buf[j])
    {
      buf[at + i] := data[i];
    }
  }

  /** The first `total` bytes of `wire` have gone into a buffer that held `was`. */
  predicate Stored(wire: string, was: string, total: nat, incoming: string, buf: string) {
    && total <= |wire| && total <= |was|
    && incoming == wire[total..] && buf == wire[..total] + was[total..]
  }

  lemma NothingStored(wire: string, was: string)
    ensures Stored(wire, was, 0, wire, was)
  {
  }

  /** The next piece goes behind the bytes stored so far. */
  lemma PieceStored(wire: string, was: string, total: nat, incoming: string, buf: string, r: nat)
    requires Stored(wire, was, total, incoming, buf) && r <= |incoming| && total + r <= |was|
    ensures Stored(wire, was, total + r, incoming[r..], buf[..total] + incoming[..r] + buf[total + r..])
  {
  }

  /** `total` of the n bytes have been read, and what comes of reading the rest is what
      the whole series comes to. */
  predicate Underway(whole: (int, seq<ReadEvent>), total: nat, script: seq<ReadEvent>, wire: string, n: nat) {
    total <= n && whole == Further(total, Reading(script, wire, n - total))
  }

  lemma ReadGoesOn(whole: (int, seq<ReadEvent>), total: nat, n: nat, r: int, eintr: bool,
                   script: seq<ReadEvent>, wire: string, script': seq<ReadEvent>, wire': string)
    requires Underway(whole, total, script, wire, n) && total < n && -1 <= r <= n - total
    requires AfterRead(script, wire, n - total, r, eintr, script', wire')
    ensures if r == -1 then (if eintr then Underway(whole, total, script', wire', n) else whole == (-1, script'))
            else if r == 0 then whole == (total, script')
            else Underway(whole, total + r, script', wire', n)
  {
  }

  /** One `read` of the loop: `wire` and `was` are the bytes and the buffer it began with. */
  method ReadPiece(sock: Socket, buf: array<char>, total: nat, n: nat,
                   ghost wire: string, ghost was: string, ghost whole: (int, seq<ReadEvent>))
    returns (r: int, eintr: bool)
    requires total < n <= buf.Length == |was| && Stored(wire, was, total, sock.incoming, buf[..])
    requires Underway(whole, total, sock.script, sock.incoming, n)
    modifies sock, buf
    ensures -1 <= r <= n - total && (r == 0 ==> total == |wire|)
    ensures Stored(wire, was, total + (if r == -1 then 0 else r), sock.incoming, buf[..])
    ensures r == -1 && eintr ==> |sock.script| < |old(sock.script)|
    ensures if r == -1 && !eintr then whole == (-1, sock.script)
            else if r == 0 then whole == (total, sock.script)
            else Underway(whole, total + (if r == -1 then 0 else r), sock.script, sock.incoming, n)
  {
    ghost var script, incoming, held := sock.script, sock.incoming, buf[..];
    r, eintr := sock.Read(buf, total, n - total);
    ReadGoesOn(whole, total, n, r, eintr, script, incoming, sock.script, sock.incoming);
    if r != -1 {
      PieceStored(wire, was, total, incoming, held, r);
    }
  }

  lemma UnderwayAtEnds(script: seq<ReadEvent>, wire: string, n: nat)
    ensures Underway(Reading(script, wire, n), 0, script, wire, n)
    ensures forall whole :: Underway(whole, n, script, wire, n) ==> whole == (n, script)
  {
  }

  /** `read_all`: n bytes, or fewer at end of file, however they arrive; -1 exactly at a
      real error. */
  method ReadAll(sock: Socket, buf: array<char>, n: nat) returns (total: int)
    requires n <= buf.Length
    modifies sock, buf
    ensures (total, sock.script) == Reading(old(sock.script), old(sock.incoming), n)
    ensures total != -1 ==>
              && total == (if n <= |old(sock.incoming)| then n else |old(sock.incoming)|)
              && Stored(old(sock.incoming), old(buf[..]), total, sock.incoming, buf[..])
  {
    ghost var wire, was, whole := sock.incoming, buf[..], Reading(sock.script, sock.incoming, n);
    total := 0;
    UnderwayAtEnds(sock.script, wire, n);
    NothingStored(wire, was);
    while total < n
      invariant 0 <= total <= n && Stored(wire, was, total, sock.incoming, buf[..])
      invariant Underway(whole, total, sock.script, sock.incoming, n)
      decreases n - total, |sock.script|
    {
      var r, eintr := ReadPiece(sock, buf, total, n, wire, was, whole);
      if r < 0 {
        if eintr { continue; }
        return -1;
      }
      if r == 0 {
        return total;
      }
      total := total + r;
    }
    UnderwayAtEnds(sock.script, sock.incoming, n);
  }

  /** A real error comes before the frame is complete. */
  predicate ReadFails(script: seq<ReadEvent>, wire: string, size: nat) {
    var (header, later) := Reading(script, wire, HEADER);
    header == -1
    || (|wire| >= HEADER && wire[0] == LMP_MAGIC_0 && wire[1] == LMP_MAGIC_1
        && var plen := FromNetwork(wire[4..8]);
           plen < size && Reading(later, wire[HEADER..], plen).0 == -1)
  }

  /** `group_lmp_recv` (`lmp_recv` is the same without the sender).  Unless a real error
      comes first, the result does not depend on how the bytes were cut up. */
  method GroupLmpRecv(sock: Socket, buf: array<char>) returns (status: int, code: nat, sender: nat, len: nat)
    requires buf.Length > 0
    modifies sock, buf
    ensures Fault !in old(sock.script) ==> Fault !in sock.script && !ReadFails(old(sock.script), old(sock.incoming), buf.Length)
    ensures status <= 0
    ensures if ReadFails(old(sock.script), old(sock.incoming), buf.Length) then status < 0
            else
              var o := Receive(old(sock.incoming), old(buf[..]));
              && status == o.status && sock.incoming == o.rest && buf[..] == o.buf
              && (status == 0 ==> len < buf.Length && Frame(code, sender, buf[..len]) == o.frame)
  {
    ghost var wire, was := sock.incoming, buf[..];
    status, code, sender, len := 0, 0, 0, 0;
    var hdr := new char[HEADER];
    NoFaultNoError(sock.script, wire, HEADER);
    var headerBytes := ReadAll(sock, hdr, HEADER);
    if headerBytes < 0 { return -1, 0, 0, 0; }
    if headerBytes == 0 { return -2, 0, 0, 0; }
    if hdr[0] != LMP_MAGIC_0 || hdr[1] != LMP_MAGIC_1 || headerBytes < HEADER {
      return -3, 0, 0, 0;
    }
    assert hdr[..] == wire[..HEADER];
    assert forall i :: 0 <= i < HEADER ==> hdr[..][i] == wire[i];
    assert hdr[4..8] == wire[4..8];
    var plen := FromNetwork(hdr[4..8]);
    if plen >= buf.Length { return -4, 0, 0, 0; }
    NoFaultNoError(sock.script, sock.incoming, plen);
    if plen > 0 {
      var got := ReadAll(sock, buf, plen);
      if got <= 0 { return -5, 0, 0, 0; }
    }
    buf[plen] := NUL;
    code, sender, len := hdr[2] as nat, hdr[3] as nat, plen;
    ghost var body := wire[HEADER..];
    ghost var got := if plen <= |body| then plen else |body|;
    assert buf[..] == (body[..got] + was[got..])[plen := NUL];
  }

  /** The client's receive loop, collecting what it hands to the dispatcher. */
  method Receiver(sock: Socket, buf: array<char>) returns (frames: seq<Frame>, status: int)
    requires buf.Length > 0 && Fault !in sock.script
    modifies sock, buf
    ensures (frames, status) == ReceiveAll(old(sock.incoming), old(buf[..]))
  {
    frames := [];
    ghost var all := ReceiveAll(sock.incoming, buf[..]);
    assert [] + all.0 == all.0;
    while true
      invariant Fault !in sock.script
      invariant var (fs, st) := ReceiveAll(sock.incoming, buf[..]);
                all == (frames + fs, st)
      decreases |sock.incoming|
    {
      ghost var wire, was := sock.incoming, buf[..];
      var code, sender, len;
      status, code, sender, len := GroupLmpRecv(sock, buf);
      if status != 0 {
        assert frames + [] == frames;
        return;
      }
      ConcatAssociates(frames, [Frame(code, sender, buf[..len])], ReceiveAll(sock.incoming, buf[..]).0);
      frames := frames + [Frame(code, sender, buf[..len])];
    }
  }
}
