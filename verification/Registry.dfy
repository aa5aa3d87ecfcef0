/** The command registry and dispatch (lmp.c), and the rewriting of plain lines into
    `/msg` commands (group_user_comms.c). */
module Registry {
  import opened Collections
  import opened CText

  const MAX_COMMANDS: nat := 32
  const MAX_NAME_LEN: nat := 32
  const LINE_BUFFER: nat := 256    // dispatch_send's copy of the line
  const INPUT_BUFFER: nat := 1024  // chat_loop_user's line

  /** A table entry; handlers are named by number, `None` is a NULL pointer. */
  datatype Entry = Entry(code: nat, name: string, send: Option<nat>, recv: Option<nat>)

  datatype Request = Request(code: nat, name: Option<string>, send: Option<nat>, recv: Option<nat>)

  /** COMMAND_UNRECOGNIZED, COMMAND_ERROR, or the handler called with its arguments. */
  datatype Dispatch = Unrecognized | Error | Called(handler: nat, code: nat, args: string)

  // ------------------------------------------------------------------ the table

  function EntryOf(r: Request): Entry
    requires r.name.Some?
  {
    Entry(r.code, r.name.value, r.send, r.recv)
  }

  predicate Clashes(table: seq<Entry>, code: nat, name: string) {
    exists i :: 0 <= i < |table| && (table[i].code == code || table[i].name == name)
  }

  predicate Accepted(table: seq<Entry>, r: Request) {
    && r.name.Some? && |table| < MAX_COMMANDS && |r.name.value| < MAX_NAME_LEN
    && !Clashes(table, r.code, r.name.value)
  }

  /** `register_command`. */
  function Register(table: seq<Entry>, r: Request): seq<Entry> {
    if Accepted(table, r) then table + [EntryOf(r)] else table
  }

  /** What a registration does: an entry behind the others if it has a name of at most 31
      characters, there are less than 32 entries, and neither its code nor its name is
      taken; otherwise nothing. */
  lemma RegisterExactly(table: seq<Entry>, r: Request)
    ensures Register(table, r) ==
      if r.name.Some? && |r.name.value| <= 31 && |table| < 32
         && forall i :: 0 <= i < |table| ==> table[i].code != r.code && table[i].name != r.name.value
      then table + [Entry(r.code, r.name.value, r.send, r.recv)]
      else table
  {
  }

  function RegisterAll(requests: seq<Request>): seq<Entry> {
    if requests == [] then []
    else Register(RegisterAll(requests[..|requests| - 1]), requests[|requests| - 1])
  }

  predicate Distinct(table: seq<Entry>) {
    && |table| <= MAX_COMMANDS
    && (forall i, j :: 0 <= i < j < |table| ==> table[i].code != table[j].code && table[i].name != table[j].name)
    && forall i :: 0 <= i < |table| ==> |table[i].name| < MAX_NAME_LEN
  }

  /** After any registrations, codes and names are pairwise distinct within 32 entries. */
  lemma {:induction false} RegisteredDistinct(requests: seq<Request>)
    ensures Distinct(RegisterAll(requests))
  {
    if requests != [] {
      RegisteredDistinct(requests[..|requests| - 1]);
    }
  }

  /** Requests that fit the table and do not get in each other's way. */
  predicate Clear(requests: seq<Request>) {
    && |requests| <= MAX_COMMANDS
    && (forall i :: 0 <= i < |requests| ==> requests[i].name.Some? && |requests[i].name.value| < MAX_NAME_LEN)
    && forall i, j :: 0 <= i < j < |requests| ==>
         requests[i].code != requests[j].code && requests[i].name != requests[j].name
  }

  /** Such requests are all accepted. */
  lemma {:induction false} AllAccepted(requests: seq<Request>)
    requires Clear(requests)
    ensures var table := RegisterAll(requests);
            |table| == |requests| && forall i :: 0 <= i < |table| ==> requests[i].name.Some? && table[i] == EntryOf(requests[i])
  {
    if requests != [] {
      AllAccepted(requests[..|requests| - 1]);
    }
  }

  // ------------------------------------------------------------------ lookups

  /** The first entry with this name, or the table's length. */
  function ByName(table: seq<Entry>, name: string): (i: nat)
    ensures i <= |table| && (i < |table| ==> table[i].name == name)
    ensures forall k :: 0 <= k < i ==> table[k].name != name
  {
    if table == [] || table[0].name == name then 0 else 1 + ByName(table[1..], name)
  }

  /** The first entry with this code, or the table's length. */
  function ByCode(table: seq<Entry>, code: nat): (i: nat)
    ensures i <= |table| && (i < |table| ==> table[i].code == code)
    ensures forall k :: 0 <= k < i ==> table[k].code != code
  {
    if table == [] || table[0].code == code then 0 else 1 + ByCode(table[1..], code)
  }

  function SendVia(table: seq<Entry>, name: string, args: string): Dispatch {
    var i := ByName(table, name);
    if i == |table| then Unrecognized
    else if table[i].send.None? then Error
    else Called(table[i].send.value, table[i].code, args)
  }

  function ReceiveVia(table: seq<Entry>, code: nat, payload: string): Dispatch {
    var i := ByCode(table, code);
    if i == |table| then Unrecognized
    else if table[i].recv.None? then Error
    else Called(table[i].recv.value, code, payload)
  }

  /** Lookup by name and lookup by code agree on every entry of a registered table. */
  lemma LookupsAgree(requests: seq<Request>, k: nat)
    requires k < |RegisterAll(requests)|
    ensures var table := RegisterAll(requests);
            ByName(table, table[k].name) == k == ByCode(table, table[k].code)
  {
    RegisteredDistinct(requests);
  }

  /** The order in which clear requests are registered does not matter to dispatch. */
  lemma OrderIrrelevant(requests: seq<Request>, others: seq<Request>, name: string, code: nat, text: string)
    requires Clear(requests) && Clear(others) && forall r :: r in requests <==> r in others
    ensures SendVia(RegisterAll(requests), name, text) == SendVia(RegisterAll(others), name, text)
    ensures ReceiveVia(RegisterAll(requests), code, text) == ReceiveVia(RegisterAll(others), code, text)
  {
    RegisteredDistinct(requests);
    RegisteredDistinct(others);
    var t, u := RegisterAll(requests), RegisterAll(others);
    Registered(requests, others, ByName(t, name));
    Registered(requests, others, ByCode(t, code));
    Registered(others, requests, ByName(u, name));
    Registered(others, requests, ByCode(u, code));
    SameByName(t, u, name);
    SameByCode(t, u, code);
  }

  lemma Registered(requests: seq<Request>, others: seq<Request>, i: nat)
    requires Clear(requests) && Clear(others) && forall r :: r in requests ==> r in others
    ensures i < |RegisterAll(requests)| ==> RegisterAll(requests)[i] in RegisterAll(others)
  {
    AllAccepted(requests);
    AllAccepted(others);
    if i < |requests| {
      assert requests[i] in others;
      var j :| 0 <= j < |others| && others[j] == requests[i];
      assert RegisterAll(others)[j] == EntryOf(requests[i]);
    }
  }

  lemma SameByName(t: seq<Entry>, u: seq<Entry>, name: string)
    requires Distinct(t) && Distinct(u)
    requires var i := ByName(t, name); i < |t| ==> t[i] in u
    requires var j := ByName(u, name); j < |u| ==> u[j] in t
    ensures var i, j := ByName(t, name), ByName(u, name);
            if i == |t| then j == |u| else j < |u| && t[i] == u[j]
  {
    var i, j := ByName(t, name), ByName(u, name);
    if i < |t| {
      var k :| 0 <= k < |u| && u[k] == t[i];
      assert u[k].name == name;
    }
  }

  lemma SameByCode(t: seq<Entry>, u: seq<Entry>, code: nat)
    requires Distinct(t) && Distinct(u)
    requires var i := ByCode(t, code); i < |t| ==> t[i] in u
    requires var j := ByCode(u, code); j < |u| ==> u[j] in t
    ensures var i, j := ByCode(t, code), ByCode(u, code);
            if i == |t| then j == |u| else j < |u| && t[i] == u[j]
  {
    var i, j := ByCode(t, code), ByCode(u, code);
    if i < |t| {
      var k :| 0 <= k < |u| && u[k] == t[i];
      assert u[k].code == code;
    }
  }

  // ------------------------------------------------------------------ tokenising

  function SkipSpaces(s: string): string {
    if s != "" && s[0] == ' ' then SkipSpaces(s[1..]) else s
  }

  /** The length of the part in front of the first space. */
  function WordLength(s: string): (k: nat)
    ensures k <= |s| && ' ' !in s[..k] && (k < |s| ==> s[k] == ' ')
  {
    if s == "" || s[0] == ' ' then 0 else 1 + WordLength(s[1..])
  }

  /** `strtok(buf, " ")` then `strtok(NULL, "")` (ISO/IEC 9899:1990, section 7.11.5.8):
      the first word, and everything behind the one space that ends it. */
  function Tokens(line: string): Option<(string, string)> {
    var s := SkipSpaces(line);
    var k := WordLength(s);
    if s == "" then None
    else Some((s[..k], if k < |s| then s[k + 1..] else ""))
  }

  /** `dispatch_send`. */
  function DispatchLine(table: seq<Entry>, line: string): Dispatch {
    if |line| >= LINE_BUFFER then Error
    else match Tokens(line)
         case None => Unrecognized
         case Some((name, args)) => SendVia(table, name, args)
  }

  /** What becomes of a line typed in group chat; `None` is "Message too long". */
  function TypedLine(table: seq<Entry>, line: string): Option<Dispatch> {
    if line != "" && line[0] == '/' then Some(DispatchLine(table, line[1..]))
    else if |line| + 5 < INPUT_BUFFER then Some(DispatchLine(table, ("/msg " + line)[1..]))
    else None
  }

  /** A command line: blanks in front of the name are skipped, the one behind it goes, and
      whatever follows, blanks included, is the argument. */
  lemma CommandTokens(blanks: nat, name: string, args: Option<string>)
    requires name != "" && ' ' !in name
    ensures var line := seq(blanks, _ => ' ') + (name + if args.None? then "" else " " + args.value);
            Tokens(line) == Some((name, args.GetOr("")))
  {
    var rest := name + if args.None? then "" else " " + args.value;
    BlanksSkipped(blanks, rest);
    WordLengthIs(rest, |name|);
    assert rest[..|name|] == name;
    if args.Some? {
      assert rest[|name| + 1..] == args.value;
    }
  }

  lemma {:induction false} BlanksSkipped(blanks: nat, rest: string)
    requires rest == "" || rest[0] != ' '
    ensures SkipSpaces(seq(blanks, _ => ' ') + rest) == rest
  {
    var all := seq(blanks, _ => ' ') + rest;
    if blanks > 0 {
      assert all[1..] == seq(blanks - 1, _ => ' ') + rest;
      BlanksSkipped(blanks - 1, rest);
    } else {
      assert all == rest;
    }
  }

  lemma WordLengthIs(s: string, k: nat)
    requires k <= |s| && (forall i :: 0 <= i < k ==> s[i] != ' ') && (k < |s| ==> s[k] == ' ')
    ensures WordLength(s) == k
  {
    var w := WordLength(s);
    assert forall i :: 0 <= i < w ==> s[i] == s[..w][i];
  }

  /** What a command line typed in group chat does: the handler of its name is called with
      its code and the arguments, exactly as typed; without a handler it is an error, as is
      a line of more than 255 characters behind the slash; a name nobody registered is
      not recognized. */
  lemma CommandReachesHandler(requests: seq<Request>, name: string, args: Option<string>)
    requires name != "" && ' ' !in name
    ensures var table, line := RegisterAll(requests), name + if args.None? then "" else " " + args.value;
            && (|line| > 255 ==> TypedLine(table, "/" + line) == Some(Error))
            && (|line| <= 255 && (forall i :: 0 <= i < |table| ==> table[i].name != name) ==>
                  TypedLine(table, "/" + line) == Some(Unrecognized))
            && forall k :: 0 <= k < |table| && table[k].name == name && |line| <= 255 ==>
                 TypedLine(table, "/" + line)
                 == Some(match table[k].send case None => Error case Some(h) => Called(h, table[k].code, args.GetOr("")))
  {
    var table, line := RegisterAll(requests), name + if args.None? then "" else " " + args.value;
    assert ("/" + line)[1..] == line;
    CommandTokens(0, name, args);
    assert seq(0, _ => ' ') + line == line;
    forall k | 0 <= k < |table| && table[k].name == name ensures ByName(table, name) == k {
      LookupsAgree(requests, k);
    }
  }

  /** A line of blanks only is not recognized. */
  lemma BlankLineUnrecognized(table: seq<Entry>, blanks: nat)
    requires blanks <= 255
    ensures TypedLine(table, "/" + seq(blanks, _ => ' ')) == Some(Unrecognized)
  {
    var line := seq(blanks, _ => ' ');
    BlanksSkipped(blanks, "");
    assert ("/" + line)[1..] == line && line + "" == line;
  }

  /** What a received frame does: the handler of its code is called with the payload;
      without one it is an error, and a code nobody registered is not recognized. */
  lemma FrameReachesHandler(requests: seq<Request>, code: nat, payload: string)
    ensures var table := RegisterAll(requests);
            && ((forall i :: 0 <= i < |table| ==> table[i].code != code) ==> ReceiveVia(table, code, payload) == Unrecognized)
            && forall k :: 0 <= k < |table| && table[k].code == code ==>
                 ReceiveVia(table, code, payload)
                 == match table[k].recv case None => Error case Some(h) => Called(h, code, payload)
  {
    var table := RegisterAll(requests);
    forall k | 0 <= k < |table| && table[k].code == code ensures ByCode(table, code) == k {
      LookupsAgree(requests, k);
    }
  }

  /** A plain line reaches the `msg` handler byte for byte, leading spaces included, if
      and only if it is at most 251 characters long. */
  lemma PlainLineReachesMsg(requests: seq<Request>, k: nat, handler: nat, line: string)
    requires k < |RegisterAll(requests)|
    requires RegisterAll(requests)[k].name == "msg" && RegisterAll(requests)[k].send == Some(handler)
    requires line != "" ==> line[0] != '/'
    ensures var table := RegisterAll(requests);
            TypedLine(table, line) == Some(Called(handler, table[k].code, line)) <==> |line| <= 251
  {
    var table, sent := RegisterAll(requests), "msg " + line;
    assert ("/msg " + line)[1..] == sent;
    LookupsAgree(requests, k);
    assert sent[0] == 'm' && sent[1] == 's' && sent[2] == 'g' && sent[3] == ' ';
    assert WordLength(sent) == 3 by {
      var w := WordLength(sent);
      assert forall i :: 0 <= i < w ==> sent[..w][i] != ' ';
      assert w < |sent| ==> sent[w] == ' ';
    }
    assert sent[..3] == "msg" && sent[4..] == line;
  }

  /** A longer plain line is refused by dispatch, or, from 1019 characters on, reported too
      long before it gets there. */
  lemma LongPlainLine(table: seq<Entry>, line: string)
    requires |line| > 251 && line[0] != '/'
    ensures TypedLine(table, line) == if |line| <= 1018 then Some(Error) else None
  {
    assert |("/msg " + line)[1..]| == |line| + 4;
  }

  // ------------------------------------------------------------------ in place

  class CommandTable {
    const table: array<Entry>
    var count: nat

    ghost predicate Valid()
      reads this
    {
      table.Length == MAX_COMMANDS && count <= MAX_COMMANDS
    }

    ghost function Entries(): seq<Entry>
      requires Valid()
      reads this, table
    {
      table[..count]
    }

    constructor ()
      ensures Valid() && Entries() == [] && fresh(table)
    {
      table := new Entry[MAX_COMMANDS](_ => Entry(0, "", None, None));
      count := 0;
    }

    method RegisterCommand(r: Request)
      requires Valid()
      modifies this, table
      ensures Valid() && Entries() == Register(old(Entries()), r)
    {
      if r.name.None? { return; }
      var name := r.name.value;
      if count >= MAX_COMMANDS { return; }
      if |name| >= MAX_NAME_LEN { return; }
      for i := 0 to count
        invariant Entries() == old(Entries()) && count == old(count)
        invariant forall k :: 0 <= k < i ==> Entries()[k].code != r.code && Entries()[k].name != name
      {
        assert Entries()[i] == table[i];
        if table[i].code == r.code { return; }
        if table[i].name == name { return; }
      }
      table[count] := EntryOf(r);
      count := count + 1;
      assert Entries() == old(Entries()) + [EntryOf(r)];
    }

    method DispatchRecv(code: nat, payload: string) returns (d: Dispatch)
      requires Valid()
      ensures d == ReceiveVia(Entries(), code, payload)
    {
      ghost var all := Entries();
      for i := 0 to count
        invariant forall k :: 0 <= k < i ==> all[k].code != code
      {
        assert all[i] == table[i];
        if table[i].code == code {
          if table[i].recv.None? { return Error; }
          return Called(table[i].recv.value, code, payload);
        }
      }
      return Unrecognized;
    }

    method DispatchSend(line: CString) returns (d: Dispatch)
      requires Valid()
      ensures d == DispatchLine(Entries(), line)
    {
      if |line| >= LINE_BUFFER { return Error; }
      var tokens := StrTok(line);
      if tokens.None? { return Unrecognized; }
      var (name, args) := tokens.value;
      ghost var all := Entries();
      for i := 0 to count
        invariant forall k :: 0 <= k < i ==> all[k].name != name
      {
        assert all[i] == table[i];
        if table[i].name == name {
          if table[i].send.None? { return Error; }
          return Called(table[i].send.value, table[i].code, args);
        }
      }
      return Unrecognized;
    }
  }

  /** `strncpy` into the local, zeroed buffer. */
  method CopyLine(line: CString) returns (buf: array<char>)
    requires |line| < LINE_BUFFER
    ensures fresh(buf) && buf.Length == LINE_BUFFER && Holds(buf, line)
  {
    buf := new char[LINE_BUFFER](_ => NUL);
    for i := 0 to |line|
      invariant forall k :: 0 <= k < LINE_BUFFER ==> buf[k] == if k < i then line[k] else NUL
    {
      buf[i] := line[i];
    }
  }

  /** Both `strtok` calls on the local copy of the line, which they cut in place. */
  method StrTok(line: CString) returns (tokens: Option<(string, string)>)
    requires |line| < LINE_BUFFER
    ensures tokens == Tokens(line)
  {
    var buf := CopyLine(line);
    var start := WordStart(buf, line);
    if buf[start] == NUL {
      NotInside(buf, line, start);
      return None;
    }
    var end := WordEnd(buf, line, start);
    TokensAre(line, start, end);
    var name, args := Cut(buf, line, start, end);
    tokens := Some((name, args));
  }

  /** The buffer holds the line, up to its terminator. */
  predicate Holds(buf: array<char>, line: CString)
    reads buf
  {
    |line| < buf.Length && buf[|line|] == NUL && forall k :: 0 <= k < |line| ==> buf[k] == line[k]
  }

  lemma NotInside(buf: array<char>, line: CString, i: nat)
    requires Holds(buf, line) && i <= |line|
    ensures buf[i] == NUL <==> i == |line|
  {
    assert i < |line| ==> line[i] in line;
  }

  /** The first loop: over the leading spaces. */
  method WordStart(buf: array<char>, line: CString) returns (start: nat)
    requires Holds(buf, line)
    ensures start <= |line| && SkipSpaces(line) == line[start..] && buf[start] != ' '
  {
    start := 0;
    assert line[0..] == line;
    while buf[start] == ' '
      invariant start <= |line| && SkipSpaces(line[start..]) == SkipSpaces(line)
      decreases |line| - start
    {
      assert line[start..][1..] == line[start + 1..];
      start := start + 1;
    }
  }

  /** The second: over the word. */
  method WordEnd(buf: array<char>, line: CString, start: nat) returns (end: nat)
    requires Holds(buf, line) && start <= |line|
    ensures start <= end <= |line| && WordLength(line[start..]) == end - start
    ensures end < |line| ==> line[end] == ' '
  {
    end := start;
    while buf[end] != ' ' && buf[end] != NUL
      invariant start <= end <= |line|
      invariant WordLength(line[start..]) == end - start + WordLength(line[end..])
      decreases |line| - end
    {
      NotInside(buf, line, end);
      assert line[end..][1..] == line[end + 1..];
      end := end + 1;
    }
    NotInside(buf, line, end);
  }

  /** The tokens in terms of where the first word begins and ends. */
  lemma TokensAre(line: string, start: nat, end: nat)
    requires start <= end <= |line| && start < |line| && SkipSpaces(line) == line[start..]
    requires WordLength(line[start..]) == end - start
    ensures Tokens(line) == Some((line[start..end], if end < |line| then line[end + 1..] else ""))
  {
    TokensFrom(line, line[start..], end - start);
    SliceOfRest(line, start, end);
  }

  lemma TokensFrom(line: string, s: string, k: nat)
    requires SkipSpaces(line) == s != "" && WordLength(s) == k
    ensures Tokens(line) == Some((s[..k], if k < |s| then s[k + 1..] else ""))
  {
  }

  lemma SliceOfRest(line: string, start: nat, end: nat)
    requires start <= end <= |line|
    ensures line[start..][..end - start] == line[start..end]
    ensures end < |line| ==> line[start..][end - start] == line[end] && line[start..][end - start + 1..] == line[end + 1..]
  {
  }

  /** The word gets its terminator; the rest, if a space ended the word, follows it. */
  method Cut(buf: array<char>, ghost line: CString, start: nat, end: nat) returns (name: string, args: string)
    requires Holds(buf, line) && start <= end <= |line|
    requires end < |line| ==> line[end] == ' '
    modifies buf
    ensures name == line[start..end] && args == if end < |line| then line[end + 1..] else ""
  {
    assert forall k :: 0 <= k < |line| ==> line[k] in line;
    var rest := if buf[end] == ' ' then end + 1 else end;
    buf[end] := NUL;
    assert line[start..end] <= buf[start..];
    CStrIs(buf[start..], line[start..end]);
    name := CStr(buf[start..]);
    assert line[rest..] <= buf[rest..];
    CStrIs(buf[rest..], line[rest..]);
    args := CStr(buf[rest..]);
  }

  /** `memmove(line + shift, line, len + 1)`. */
  method ShiftRight(line: array<char>, len: nat, shift: nat)
    requires len + shift < line.Length
    modifies line
    ensures forall k :: shift <= k <= len + shift ==> line[k] == old(line[..])[k - shift]
  {
    ghost var was := line[..];
    var i := len + 1;
    while i > 0
      invariant 0 <= i <= len + 1
      invariant forall k :: i + shift <= k <= len + shift ==> line[k] == was[k - shift]
      invariant forall k :: 0 <= k < i ==> line[k] == was[k]
    {
      i := i - 1;
      line[i + shift] := line[i];
    }
  }

  /** The rewriting of a plain line in its buffer: shift by five, then the prefix. */
  method PrefixPlainLine(line: array<char>, text: string) returns (ok: bool)
    requires line.Length == INPUT_BUFFER && NUL !in text && |text| < INPUT_BUFFER
    requires line[..|text|] == text && line[|text|] == NUL
    modifies line
    ensures ok == (|text| + 5 < INPUT_BUFFER)
    ensures CStr(line[..]) == if ok then "/msg " + text else text
  {
    var len := |text|;
    if len + 5 >= INPUT_BUFFER {
      CStrIs(line[..], text);
      return false;
    }
    ghost var was := line[..];
    assert was[..len] == text;
    ShiftRight(line, len, 5);
    line[0], line[1], line[2], line[3], line[4] := '/', 'm', 's', 'g', ' ';
    assert line[..len + 5] == "/msg " + text;
    CStrIs(line[..], "/msg " + text);
    return true;
  }

  // ------------------------------------------------------------------ the program's table

  /** The registrations `init_commands` makes, in order; handlers numbered by code. */
  const INIT_COMMANDS: seq<Request> := [
    Request(0x01, Some("msg"), Some(0x01), Some(0x01)),
    Request(0x02, Some("nick"), Some(0x02), Some(0x02)),
    Request(0x03, Some("ack"), None, Some(0x03)),
    Request(0xFF, Some("error"), None, Some(0xFF)),
    Request(0x04, Some("uid"), None, Some(0x04)),
    Request(0x10, Some("meow"), Some(0x10), None),
    Request(0x05, Some("sticker"), Some(0x05), Some(0x05)),
    Request(0x80, Some("grpobj"), Some(0x80), Some(0x80)),
    Request(0x11, Some("gi"), Some(0x11), None),
    Request(0x12, Some("initmember"), None, None),
    Request(0x13, Some("load"), Some(0x13), Some(0x13)),
    Request(0x14, Some("grploadingmsg"), None, Some(0x14)),
    Request(0x15, Some("hangman"), Some(0x15), Some(0x15))]

  /** None of the program's own registrations is refused, and a plain line goes out as
      an LMP_MSG exactly when it is at most 251 characters long. */
  lemma ProgramTable(line: string)
    requires line != "" ==> line[0] != '/'
    ensures |RegisterAll(INIT_COMMANDS)| == |INIT_COMMANDS| == 13
    ensures TypedLine(RegisterAll(INIT_COMMANDS), line) == Some(Called(0x01, 0x01, line)) <==> |line| <= 251
  {
    InitCommandsClear();
    AllAccepted(INIT_COMMANDS);
    assert RegisterAll(INIT_COMMANDS)[0] == EntryOf(INIT_COMMANDS[0]);
    PlainLineReachesMsg(INIT_COMMANDS, 0, 0x01, line);
  }

  lemma InitCommandsClear()
    ensures Clear(INIT_COMMANDS)
  {
    InitCodes();
    InitNames();
    ShapesDiffer(INIT_CODES, INIT_LENGTHS, INIT_INITIALS);
  }

  const INIT_CODES: seq<nat> := [0x01, 0x02, 0x03, 0xFF, 0x04, 0x10, 0x05, 0x80, 0x11, 0x12, 0x13, 0x14, 0x15]
  const INIT_LENGTHS: seq<nat> := [3, 4, 3, 5, 3, 4, 7, 6, 2, 10, 4, 13, 7]
  const INIT_INITIALS: seq<char> := ['m', 'n', 'a', 'e', 'u', 'm', 's', 'g', 'g', 'i', 'l', 'g', 'h']

  lemma InitCodes()
    ensures forall i :: 0 <= i < 13 ==> INIT_COMMANDS[i].code == INIT_CODES[i]
  {
  }

  lemma InitNames()
    ensures forall i :: 0 <= i < 13 ==>
              var name := INIT_COMMANDS[i].name;
              name.Some? && |name.value| == INIT_LENGTHS[i] > 0 && name.value[0] == INIT_INITIALS[i]
  {
  }

  lemma ShapesDiffer(codes: seq<nat>, lengths: seq<nat>, initials: seq<char>)
    requires codes == [0x01, 0x02, 0x03, 0xFF, 0x04, 0x10, 0x05, 0x80, 0x11, 0x12, 0x13, 0x14, 0x15]
    requires lengths == [3, 4, 3, 5, 3, 4, 7, 6, 2, 10, 4, 13, 7]
    requires initials == ['m', 'n', 'a', 'e', 'u', 'm', 's', 'g', 'g', 'i', 'l', 'g', 'h']
    ensures forall i, j :: 0 <= i < j < 13 ==>
              codes[i] != codes[j] && (lengths[i] != lengths[j] || initials[i] != initials[j])
    ensures forall i :: 0 <= i < 13 ==> lengths[i] < MAX_NAME_LEN
  {
  }
}
