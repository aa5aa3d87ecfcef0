/** The group's chat history (group_server.c): fixed-width-prefix records appended to a
    file, read back line by line by the server and split again by the client. */
module History {
  import opened CText

  const RECORD: nat := 1024  // sizeof(HistoryFormat), and of the server's line buffer
  const MESSAGE: nat := RECORD - UID_LENGTH

  /** One saved message. */
  datatype Entry = Entry(uid: string, message: string)

  predicate Storable(uid: string, message: string) {
    |uid| == UID_LENGTH && |message| < MESSAGE
  }

  function Record(e: Entry): string {
    e.uid + e.message + "\n"
  }

  /** The history file after an attempt to save. */
  function Saved(file: string, uid: string, message: string): string {
    if Storable(uid, message) then file + Record(Entry(uid, message)) else file
  }

  /** Which messages are stored, and as what: those of a sender with an eight-character
      UID that have at most 1015 characters. */
  lemma SavedExactly(file: string, uid: string, message: string)
    ensures Saved(file, uid, message)
         == if |uid| == 8 && |message| <= 1015 then file + (uid + message + "\n") else file
    ensures |uid| == 8 ==> (Saved(file, uid, message) == file + (uid + message + "\n") <==> |message| <= 1015)
  {
  }

  /** `save_message_to_history`: the record is assembled in a zeroed structure whose
      UID field has no terminator, and printed as one string. */
  method SaveMessageToHistory(file: string, uid: CString, message: CString) returns (status: int, after: string)
    ensures after == Saved(file, uid, message)
    ensures status == if Storable(uid, message) then 0 else -1
  {
    if |uid| != UID_LENGTH { return -1, file; }
    if |message| >= MESSAGE { return -1, file; }
    var format := new char[RECORD](_ => NUL);
    for i := 0 to UID_LENGTH
      invariant forall k :: 0 <= k < RECORD ==> format[k] == if k < i then uid[k] else NUL
    {
      format[i] := uid[i];
    }
    for i := 0 to |message|
      invariant forall k :: 0 <= k < RECORD ==>
                  format[k] == if k < UID_LENGTH then uid[k]
                               else if k < UID_LENGTH + i then message[k - UID_LENGTH] else NUL
    {
      format[UID_LENGTH + i] := message[i];
    }
    assert uid + message <= format[..];
    CStrIs(format[..], uid + message);
    status, after := 0, file + CStr(format[..]) + "\n";
  }

  // ---------------------------------------------------------------- replay

  function FileOf(entries: seq<Entry>): string {
    if entries == [] then "" else Record(entries[0]) + FileOf(entries[1..])
  }

  lemma {:induction false} FileOfAppend(a: seq<Entry>, b: seq<Entry>)
    ensures FileOf(a + b) == FileOf(a) + FileOf(b)
  {
    if a == [] {
      assert a + b == b;
    } else {
      assert (a + b)[1..] == a[1..] + b;
      FileOfAppend(a[1..], b);
    }
  }

  /** The lines the server sends for a load request. */
  function HistoryLines(file: string): seq<string> {
    FgetsAll(file, RECORD)
  }

  /** How the client reads one line: its first 8 characters, and what follows them. */
  function Parse(line: string): Entry {
    if |line| < UID_LENGTH then Entry(line, "") else Entry(line[..UID_LENGTH], line[UID_LENGTH..])
  }

  function ParseAll(lines: seq<string>): (es: seq<Entry>)
    ensures |es| == |lines|
  {
    if lines == [] then [] else [Parse(lines[0])] + ParseAll(lines[1..])
  }

  /** The entries as a load shows them: each message with its trailing newline. */
  function Shown(entries: seq<Entry>): (es: seq<Entry>)
    ensures |es| == |entries|
  {
    if entries == [] then [] else [Entry(entries[0].uid, entries[0].message + "\n")] + Shown(entries[1..])
  }

  /** The record is one line, and short enough for the server's line buffer. */
  predicate OneLine(e: Entry) {
    '\n' !in e.uid && '\n' !in e.message && |e.message| <= MESSAGE - 2
  }

  /** One record makes one line exactly if it has no newline inside and fits. */
  lemma RecordLines(e: Entry)
    requires |e.uid| == UID_LENGTH
    ensures OneLine(e) ==> HistoryLines(Record(e)) == [Record(e)]
    ensures !OneLine(e) ==> |HistoryLines(Record(e))| > 1
  {
    var r := Record(e);
    var k := FgetsLen(r, RECORD);
    assert forall i :: 0 <= i < UID_LENGTH ==> r[i] == e.uid[i];
    assert forall i :: 0 <= i < |e.message| ==> r[UID_LENGTH + i] == e.message[i];
    if OneLine(e) {
      FgetsWholeLine(e.uid + e.message, "", RECORD);
      assert r + "" == r;
    } else if k == |r| {
      assert false;
    } else {
      assert HistoryLines(r)[1..] == FgetsAll(r[k..], RECORD);
    }
  }

  lemma {:induction false} AtLeastOneLineEach(entries: seq<Entry>)
    requires forall e :: e in entries ==> |e.uid| == UID_LENGTH
    ensures |HistoryLines(FileOf(entries))| >= |entries|
    ensures |HistoryLines(FileOf(entries))| == |entries| ==> forall e :: e in entries ==> OneLine(e)
  {
    if entries != [] {
      var first, rest := entries[0], entries[1..];
      FgetsAllSplits(Record(first), FileOf(rest), RECORD);
      RecordLines(first);
      AtLeastOneLineEach(rest);
      assert entries == [first] + rest;
    }
  }

  lemma {:induction false} OneLineEach(entries: seq<Entry>)
    requires forall e :: e in entries ==> |e.uid| == UID_LENGTH && OneLine(e)
    ensures ParseAll(HistoryLines(FileOf(entries))) == Shown(entries)
  {
    if entries != [] {
      var first, rest := entries[0], entries[1..];
      FgetsAllSplits(Record(first), FileOf(rest), RECORD);
      RecordLines(first);
      OneLineEach(rest);
      assert Record(first)[..UID_LENGTH] == first.uid;
      assert Record(first)[UID_LENGTH..] == first.message + "\n";
    }
  }

  /** A history replays as saved if and only if every message in it, and its sender's
      UID, is free of newlines and the message is at most 1014 characters long; a
      storable message of 1015 characters already comes back as two entries. */
  lemma HistoryReplays(entries: seq<Entry>)
    requires forall e :: e in entries ==> |e.uid| == UID_LENGTH
    ensures ParseAll(HistoryLines(FileOf(entries))) == Shown(entries)
            <==> forall e :: e in entries ==> OneLine(e)
  {
    AtLeastOneLineEach(entries);
    if forall e :: e in entries ==> OneLine(e) {
      OneLineEach(entries);
    }
  }

  /** The failing case: it is stored, and it does not replay. */
  lemma LongestMessageSplits(uid: string)
    requires |uid| == UID_LENGTH
    ensures var e := Entry(uid, seq(MESSAGE - 1, _ => 'x'));
            Storable(e.uid, e.message) && ParseAll(HistoryLines(FileOf([e]))) != Shown([e])
  {
    var e := Entry(uid, seq(MESSAGE - 1, _ => 'x'));
    assert e in [e] && !OneLine(e);
    HistoryReplays([e]);
  }
}
