/** The sticker file (sticker_commands.c): entries printed between tags, read back with a
    512-character line buffer. */
module Stickers {
  import opened Collections
  import opened CText

  const LINE: nat := 512
  const MAX_NAME_LEN: nat := 32
  const MAX_STICKERS: nat := 64
  const MAX_STICKER_LEN: nat := 2048

  const CLOSE_TAG := "</STICKER>"

  const OPEN_LINE := "<STICKER>\n"
  const CLOSE_LINE := "</STICKER>\n"

  datatype Sticker = Sticker(name: string, body: string)

  /** What `save_sticker` appends to the file. */
  function Print(s: Sticker): string {
    OPEN_LINE + ((s.name + "\n") + ((s.body + "\n") + CLOSE_LINE))
  }

  function PrintAll(stickers: seq<Sticker>): string {
    if stickers == [] then "" else Print(stickers[0]) + PrintAll(stickers[1..])
  }

  predicate IsOpening(line: string) {
    line == OPEN_LINE
  }

  predicate IsClosing(line: string) {
    line == CLOSE_LINE || line == CLOSE_TAG
  }

  /** `line[strcspn(line, "\r\n")] = '\0'`. */
  function CutLine(line: string): string {
    if line == "" || line[0] == '\r' || line[0] == '\n' then "" else [line[0]] + CutLine(line[1..])
  }

  /** The position of the first closing line, or the number of lines. */
  function Closing(lines: seq<string>): (k: nat)
    ensures k <= |lines| && (k < |lines| ==> IsClosing(lines[k]))
    ensures forall i :: 0 <= i < k ==> !IsClosing(lines[i])
  {
    if lines == [] || IsClosing(lines[0]) then 0 else 1 + Closing(lines[1..])
  }

  /** `load_stickers` on the lines its `fgets` calls return.  `None` stands for a file
      on which the C loop never ends, its last line being appended again and again. */
  function Parse(lines: seq<string>): Option<seq<Sticker>>
    decreases |lines|
  {
    if lines == [] then Some([])
    else if !IsOpening(lines[0]) then Parse(lines[1..])
    else match EntryOf(lines)
         case None => None
         case Some((sticker, used)) => Join([sticker], Parse(lines[used..]))
  }

  /** The entry that begins with the opening line `lines[0]`, and the lines it takes. */
  function EntryOf(lines: seq<string>): (e: Option<(Sticker, nat)>)
    requires lines != []
    ensures e.Some? ==> 0 < e.value.1 <= |lines|
  {
    if |lines| == 1 then None
    else
      var name, body := CutLine(lines[1]), lines[2..];
      var k := Closing(body);
      // fgets leaves the name in the buffer at end of file, and it can read as the closing line
      if body == [] && name == CLOSE_TAG then Some((Sticker(name, ""), 2))
      else if k == |body| then None
      else Some((Sticker(name, Concat(body[..k])), 2 + k + 1))
  }

  /** Entries read so far and what the rest of the file gives. */
  function Join(before: seq<Sticker>, rest: Option<seq<Sticker>>): Option<seq<Sticker>> {
    if rest.None? then None else Some(before + rest.value)
  }

  function Load(file: string): Option<seq<Sticker>> {
    Parse(FgetsAll(file, LINE))
  }

  /** What fits one entry of the table, with the terminators. */
  predicate FitsEntry(s: Sticker) {
    |s.name| < MAX_NAME_LEN && |s.body| < MAX_STICKER_LEN
  }

  predicate FitsTable(stickers: seq<Sticker>) {
    |stickers| <= MAX_STICKERS && forall i :: 0 <= i < |stickers| ==> FitsEntry(stickers[i])
  }

  /** The table `load_stickers` fills from a file.  `None` stands for a file on which the
      C code does not end or writes outside the table: nothing is said of it then. */
  function TableFrom(file: string): Option<seq<Sticker>> {
    var all := Load(file);
    if all.Some? && FitsTable(all.value) then all else None
  }

  // ------------------------------------------------------------------ round trip

  /** The stickers as they come back: each body with one more newline. */
  function Reloaded(stickers: seq<Sticker>): (r: seq<Sticker>)
    ensures |r| == |stickers|
  {
    if stickers == [] then []
    else [Sticker(stickers[0].name, stickers[0].body + "\n")] + Reloaded(stickers[1..])
  }

  /** A name typed on one line that fits its field. */
  predicate ProperName(name: string) {
    '\n' !in name && |name| < MAX_NAME_LEN
  }

  /** No line of the body, as `fgets` cuts it, is a closing tag. */
  predicate Clean(body: string) {
    var lines := FgetsAll(body + "\n", LINE);
    Closing(lines) == |lines|
  }

  /** A sticker the file gives back, its body with one newline more. */
  predicate Kept(s: Sticker) {
    '\r' !in s.name && Clean(s.body)
  }

  predicate AllKept(stickers: seq<Sticker>) {
    forall i :: 0 <= i < |stickers| ==> Kept(stickers[i])
  }

  predicate AllShort(stickers: seq<Sticker>) {
    forall i :: 0 <= i < |stickers| ==> |stickers[i].body| <= 2046
  }

  /** A name is cut at its first carriage return. */
  lemma {:induction false} NameEndsAtReturn(name: string, more: string)
    requires '\n' !in name && '\r' !in name
    ensures CutLine(name + ("\r" + more)) == name
  {
    if name == "" {
      ConcatNothing("\r" + more);
    } else {
      assert (name + ("\r" + more))[1..] == name[1..] + ("\r" + more);
      assert name == [name[0]] + name[1..];
      NameEndsAtReturn(name[1..], more);
    }
  }

  lemma {:induction false} CutLineKeeps(name: string)
    requires '\n' !in name
    ensures CutLine(name + "\n") == name <==> '\r' !in name
    ensures |CutLine(name + "\n")| <= |name|
  {
    if name != "" {
      assert name == [name[0]] + name[1..];
      assert (name + "\n")[1..] == name[1..] + "\n";
      CutLineKeeps(name[1..]);
    }
  }

  lemma Regroup(a: string, b: string, c: string, d: string, rest: string)
    ensures a + (b + (c + d)) + rest == a + (b + (c + (d + rest)))
  {
    assert c + d + rest == c + (d + rest);
    assert b + (c + d) + rest == b + (c + d + rest);
    assert a + (b + (c + d)) + rest == a + (b + (c + d) + rest);
  }

  /** The lines of one entry; `tail` begins with the one that closes it. */
  function EntryLines(name: string, body: seq<string>, tail: seq<string>): seq<string> {
    [OPEN_LINE] + ([name] + (body + tail))
  }

  /** The lines of one printed sticker in front of the rest of the file, whose closing tag
      lacks its newline if it is the last. */
  lemma PrintedLines(s: Sticker, rest: string)
    requires ProperName(s.name)
    ensures FgetsAll(Print(s) + rest, LINE)
         == EntryLines(s.name + "\n", FgetsAll(s.body + "\n", LINE), [CLOSE_LINE] + FgetsAll(rest, LINE))
  {
    Regroup(OPEN_LINE, s.name + "\n", s.body + "\n", CLOSE_LINE, rest);
    HeadLines(s, CLOSE_LINE + rest);
    CloseLineFirst(rest);
  }

  lemma CloseLineFirst(rest: string)
    ensures FgetsAll(CLOSE_LINE + rest, LINE) == [CLOSE_LINE] + FgetsAll(rest, LINE)
  {
    ClosingTag();
    ClosingTagLine();
    FgetsAllSplits(CLOSE_LINE, rest, LINE);
  }

  lemma HeadLines(s: Sticker, tail: string)
    requires ProperName(s.name)
    ensures FgetsAll(OPEN_LINE + ((s.name + "\n") + ((s.body + "\n") + tail)), LINE)
         == EntryLines(s.name + "\n", FgetsAll(s.body + "\n", LINE), FgetsAll(tail, LINE))
  {
    var name, body := s.name + "\n", s.body + "\n";
    assert "<STICKER>" + "\n" == OPEN_LINE;
    OneLine("<STICKER>");
    OneLine(s.name);
    FgetsAllSplits(body, tail, LINE);
    FgetsAllSplits(name, body + tail, LINE);
    FgetsAllSplits(OPEN_LINE, name + (body + tail), LINE);
  }

  lemma EntryShape(name: string, body: seq<string>, tail: seq<string>)
    ensures var lines := EntryLines(name, body, tail);
            |lines| >= 2 && lines[0] == OPEN_LINE && lines[1] == name && lines[2..] == body + tail
  {
  }

  /** Reading one entry's lines: its body ends at the first closing line. */
  lemma EntryParses(name: string, body: seq<string>, tail: seq<string>)
    requires tail != [] && IsClosing(tail[0])
    ensures var k := Closing(body);
            var rest := if k < |body| then body[k + 1..] + tail else tail[1..];
            Parse(EntryLines(name, body, tail)) == Join([Sticker(CutLine(name), Concat(body[..k]))], Parse(rest))
  {
    EntryRead(name, body, tail);
    LinesBehind(name, body, tail, Closing(body));
  }

  lemma EntryRead(name: string, body: seq<string>, tail: seq<string>)
    requires tail != [] && IsClosing(tail[0])
    ensures var k := Closing(body);
            EntryOf(EntryLines(name, body, tail)) == Some((Sticker(CutLine(name), Concat(body[..k])), 2 + k + 1))
  {
    ClosingSkips(body, tail);
    EntryShape(name, body, tail);
    assert (body + tail)[..Closing(body)] == body[..Closing(body)];
  }

  lemma LinesBehind(name: string, body: seq<string>, tail: seq<string>, k: nat)
    requires k <= |body| && tail != []
    ensures var lines := EntryLines(name, body, tail);
            |lines| >= 2 + k + 1
            && lines[2 + k + 1..] == if k < |body| then body[k + 1..] + tail else tail[1..]
  {
  }

  lemma OneLine(text: string)
    requires '\n' !in text && |text| + 1 < LINE
    ensures FgetsAll(text + "\n", LINE) == [text + "\n"]
  {
    FgetsWholeLine(text, "", LINE);
    assert text + "\n" + "" == text + "\n";
    assert FgetsAll((text + "\n")[|text| + 1..], LINE) == [];
  }

  lemma {:induction false} ClosingSkips(a: seq<string>, b: seq<string>)
    ensures Closing(a + b) == if Closing(a) < |a| then Closing(a) else |a| + Closing(b)
  {
    if a == [] {
      assert a + b == b;
    } else {
      assert (a + b)[1..] == a[1..] + b;
      ClosingSkips(a[1..], b);
    }
  }

  /** What becomes of one printed sticker, and of the file behind it. */
  lemma PrintedStickerParses(s: Sticker, rest: string)
    requires ProperName(s.name) && Clean(s.body)
    ensures var more := Load(rest);
            Load(Print(s) + rest) ==
              if more.None? then None else Some([Sticker(CutLine(s.name + "\n"), s.body + "\n")] + more.value)
  {
    var body := FgetsAll(s.body + "\n", LINE);
    PrintedLines(s, rest);
    EntryParses(s.name + "\n", body, [CLOSE_LINE] + FgetsAll(rest, LINE));
    FgetsAllPartitions(s.body + "\n", LINE);
    assert body[..|body|] == body;
  }

  /** A kept sticker comes back with one newline more, and leaves the rest of the file
      as it is. */
  lemma KeptStickerParses(s: Sticker, rest: string)
    requires ProperName(s.name) && Kept(s)
    ensures var more := Load(rest);
            Load(Print(s) + rest) ==
              if more.None? then None else Some([Sticker(s.name, s.body + "\n")] + more.value)
  {
    PrintedStickerParses(s, rest);
    CutLineKeeps(s.name);
  }

  /** The last sticker of a file is read even if its closing tag lacks the newline. */
  lemma LastTagWithoutNewline(s: Sticker)
    requires ProperName(s.name) && Kept(s)
    ensures Load(OPEN_LINE + ((s.name + "\n") + ((s.body + "\n") + CLOSE_TAG))) == Some([Sticker(s.name, s.body + "\n")])
  {
    ClosingTag();
    LastLine(CLOSE_TAG);
    HeadLines(s, CLOSE_TAG);
    LastEntryParses(s, CLOSE_TAG);
  }

  lemma LastEntryParses(s: Sticker, tag: string)
    requires ProperName(s.name) && Kept(s) && IsClosing(tag)
    ensures Parse(EntryLines(s.name + "\n", FgetsAll(s.body + "\n", LINE), [tag])) == Some([Sticker(s.name, s.body + "\n")])
  {
    var body := FgetsAll(s.body + "\n", LINE);
    EntryParses(s.name + "\n", body, [tag]);
    FgetsAllPartitions(s.body + "\n", LINE);
    CutLineKeeps(s.name);
    assert body[..|body|] == body && [tag][1..] == [];
    ConcatNothing([Sticker(s.name, s.body + "\n")]);
  }

  lemma LastLine(text: string)
    requires text != "" && '\n' !in text && |text| < LINE
    ensures FgetsAll(text, LINE) == [text]
  {
    assert forall i :: 0 <= i < |text| ==> text[i] in text;
    assert FgetsLen(text, LINE) == |text| && text[..|text|] == text;
  }

  /** Text between the stickers that holds no opening line is passed over, whatever else
      it holds, and the stickers behind it are read. */
  lemma StrayTextSkipped(text: string, rest: string)
    requires text != "" ==> text[|text| - 1] == '\n'
    requires forall line :: line in FgetsAll(text, 512) ==> line != "<STICKER>\n"
    ensures Load(text + rest) == Load(rest)
  {
    if text == "" {
      ConcatNothing(rest);
    } else {
      FgetsAllSplits(text, rest, LINE);
      StrayLinesSkipped(FgetsAll(text, LINE), FgetsAll(rest, LINE));
    }
  }

  lemma {:induction false} StrayLinesSkipped(stray: seq<string>, later: seq<string>)
    requires forall line :: line in stray ==> line != "<STICKER>\n"
    ensures Parse(stray + later) == Parse(later)
  {
    if stray == [] {
      ConcatNothing(later);
    } else {
      assert stray[0] in stray && forall line :: line in stray[1..] ==> line in stray;
      assert (stray + later)[1..] == stray[1..] + later;
      StrayLinesSkipped(stray[1..], later);
    }
  }

  /** These lines, each with its newline. */
  function Lines(ls: seq<string>): string {
    if ls == [] then "" else (ls[0] + "\n") + Lines(ls[1..])
  }

  /** A body of ordinary lines is kept if and only if none of them is the closing tag and
      nothing else. */
  lemma CleanExactly(body: string, ls: seq<string>)
    requires body + "\n" == Lines(ls) && forall l :: l in ls ==> '\n' !in l && |l| <= 510
    ensures Clean(body) <==> "</STICKER>" !in ls
  {
    ClosingAmong(ls);
  }

  lemma {:induction false} ClosingAmong(ls: seq<string>)
    requires forall l :: l in ls ==> '\n' !in l && |l| <= 510
    ensures var lines := FgetsAll(Lines(ls), LINE);
            Closing(lines) == |lines| <==> CLOSE_TAG !in ls
  {
    if ls != [] {
      assert ls[0] in ls && forall l :: l in ls[1..] ==> l in ls;
      ClosingAmong(ls[1..]);
      LinesFirst(ls);
      ClosesExactly(ls[0]);
      assert CLOSE_TAG in ls <==> ls[0] == CLOSE_TAG || CLOSE_TAG in ls[1..];
    }
  }

  lemma LinesFirst(ls: seq<string>)
    requires ls != [] && '\n' !in ls[0] && |ls[0]| <= 510
    ensures var lines, later := FgetsAll(Lines(ls), LINE), FgetsAll(Lines(ls[1..]), LINE);
            |lines| == 1 + |later| && Closing(lines) == if IsClosing(ls[0] + "\n") then 0 else 1 + Closing(later)
  {
    var line, later := ls[0] + "\n", FgetsAll(Lines(ls[1..]), LINE);
    OneLine(ls[0]);
    FgetsAllSplits(line, Lines(ls[1..]), LINE);
    assert ([line] + later)[1..] == later;
  }

  lemma ClosesExactly(line: string)
    requires '\n' !in line
    ensures IsClosing(line + "\n") <==> line == CLOSE_TAG
  {
    ClosingTag();
    assert (line + "\n")[|line|] == '\n';
    if line + "\n" == CLOSE_TAG + "\n" {
      assert line == (line + "\n")[..|line|] && CLOSE_TAG == (CLOSE_TAG + "\n")[..|CLOSE_TAG|];
    }
  }

  /** A failing case: a closing tag that happens to begin where the 512-character line
      buffer ends one piece and begins another closes the sticker. */
  lemma TagAtCutCloses()
    ensures !Clean(seq(511, _ => 'x') + "</STICKER>")
  {
    var head := seq(511, _ => 'x');
    ClosingTag();
    ConcatAssociates(head, CLOSE_TAG, "\n");
    CutAt511(head, CLOSE_LINE);
    ClosingTagLine();
    ClosingSkips([head], [CLOSE_LINE]);
    assert [head][1..] == [] && |head| == 511;
  }

  lemma CutAt511(head: string, tail: string)
    requires |head| == 511 && '\n' !in head && tail != ""
    ensures FgetsAll(head + tail, LINE) == [head] + FgetsAll(tail, LINE)
  {
    var text := head + tail;
    assert forall i :: 0 <= i < 511 ==> text[i] == head[i] && head[i] in head;
    assert FgetsLen(text, LINE) == 511;
    assert text[..511] == head && text[511..] == tail;
  }

  /** The file's text for one sticker. */
  lemma PrintedAs(s: Sticker)
    ensures Print(s) == "<STICKER>\n" + s.name + "\n" + s.body + "\n" + "</STICKER>\n"
  {
    ConcatAssociates("<STICKER>\n", s.name, "\n");
    ConcatAssociates("<STICKER>\n" + s.name + "\n", s.body, "\n");
    ConcatAssociates("<STICKER>\n", s.name + "\n", s.body + "\n");
    ConcatAssociates("<STICKER>\n", (s.name + "\n") + (s.body + "\n"), "</STICKER>\n");
    ConcatAssociates(s.name + "\n", s.body + "\n", "</STICKER>\n");
  }

  /** What the table has room for. */
  lemma TableLimits(stickers: seq<Sticker>)
    ensures FitsTable(stickers)
            <==> |stickers| <= 64 && forall i :: 0 <= i < |stickers| ==> |stickers[i].name| <= 31 && |stickers[i].body| <= 2047
  {
  }

  /** A sticker with a closing line inside loses everything from that line on. */
  lemma UncleanStickerCut(s: Sticker, rest: string)
    requires ProperName(s.name) && !Clean(s.body)
    ensures var r := Load(Print(s) + rest);
            r.None? || (r.value != [] && |r.value[0].body| < |s.body| + 1)
  {
    var body := FgetsAll(s.body + "\n", LINE);
    PrintedLines(s, rest);
    EntryParses(s.name + "\n", body, [CLOSE_LINE] + FgetsAll(rest, LINE));
    FgetsAllPartitions(s.body + "\n", LINE);
    CutIsShorter(body, Closing(body));
  }

  lemma CutIsShorter(lines: seq<string>, k: nat)
    requires k < |lines| && IsClosing(lines[k])
    ensures |Concat(lines[..k])| < |Concat(lines)|
  {
    ConcatSnoc(lines, k);
    ConcatGrows(lines, k + 1, |lines|);
    assert lines[..|lines|] == lines;
  }

  lemma UnkeptStickerChanged(s: Sticker, rest: string)
    requires ProperName(s.name) && !Kept(s)
    ensures var r := Load(Print(s) + rest);
            r.None? || (r.value != [] && r.value[0] != Sticker(s.name, s.body + "\n"))
  {
    if Clean(s.body) {
      PrintedStickerParses(s, rest);
      CutLineKeeps(s.name);
    } else {
      UncleanStickerCut(s, rest);
    }
  }

  /** As far as the text of the file goes, any list of stickers is read back, names in
      order and each body with exactly one newline added, if and only if no name has a
      carriage return and no body has a closing tag for a line; opening tags inside
      bodies do no harm. */
  lemma {:induction false} FileRoundTrip(stickers: seq<Sticker>)
    requires forall i :: 0 <= i < |stickers| ==> ProperName(stickers[i].name)
    ensures Load(PrintAll(stickers)) == Some(Reloaded(stickers))
            <==> AllKept(stickers)
  {
    if stickers != [] {
      var first, rest := stickers[0], stickers[1..];
      assert forall i :: 0 <= i < |rest| ==> rest[i] == stickers[i + 1];
      FileRoundTrip(rest);
      AllFromTail(stickers);
      if Kept(first) {
        KeptStickerParses(first, PrintAll(rest));
        ConsEqual(Sticker(first.name, first.body + "\n"), Load(PrintAll(rest)), Reloaded(rest));
      } else {
        UnkeptStickerChanged(first, PrintAll(rest));
      }
    }
  }

  lemma AllFromTail(stickers: seq<Sticker>)
    requires stickers != []
    ensures AllKept(stickers) <==> Kept(stickers[0]) && AllKept(stickers[1..])
  {
    if Kept(stickers[0]) && AllKept(stickers[1..]) {
      forall i | 0 <= i < |stickers| ensures Kept(stickers[i]) {
        if i > 0 { assert stickers[i] == stickers[1..][i - 1]; }
      }
    } else if Kept(stickers[0]) {
      var i :| 0 <= i < |stickers[1..]| && !Kept(stickers[1..][i]);
      assert stickers[1..][i] == stickers[i + 1];
    }
  }

  lemma {:induction false} ReloadedAt(stickers: seq<Sticker>, i: nat)
    requires i < |stickers|
    ensures Reloaded(stickers)[i] == Sticker(stickers[i].name, stickers[i].body + "\n")
  {
    if i > 0 {
      ReloadedAt(stickers[1..], i - 1);
    }
  }

  /** A sticker as `create_sticker` makes it: a name typed on one line, two C strings
      that fit the entry. */
  predicate Created(s: Sticker) {
    FitsEntry(s) && ProperName(s.name) && NUL !in s.name && NUL !in s.body
  }

  /** The added newline is what can make a created sticker too long for the table. */
  lemma ReloadedFits(stickers: seq<Sticker>)
    requires |stickers| <= MAX_STICKERS && forall i :: 0 <= i < |stickers| ==> Created(stickers[i])
    ensures FitsTable(Reloaded(stickers))
            <==> AllShort(stickers)
  {
    var back := Reloaded(stickers);
    forall i | 0 <= i < |stickers|
      ensures FitsEntry(back[i]) <==> |stickers[i].body| + 1 < MAX_STICKER_LEN
    {
      ReloadedAt(stickers, i);
    }
    if !FitsTable(back) {
      var i :| 0 <= i < |back| && !FitsEntry(back[i]);
      assert |stickers[i].body| + 1 >= MAX_STICKER_LEN;
    }
  }

  /** The round trip through the file into the table: any stickers the program can have
      created, up to the 64 the table holds, are recovered in it, names in order and one
      newline added to each body, if and only if every name is free of carriage returns,
      no body has a closing tag for a line, and every body leaves room for the newline,
      being at most 2046 characters long. */
  lemma StickersRoundTrip(stickers: seq<Sticker>)
    requires |stickers| <= MAX_STICKERS && forall i :: 0 <= i < |stickers| ==> Created(stickers[i])
    ensures TableFrom(PrintAll(stickers)) == Some(Reloaded(stickers)) <==> AllKept(stickers) && AllShort(stickers)
  {
    FileRoundTrip(stickers);
    ReloadedFits(stickers);
  }

  /** A failing case: a body that fits the table when created does not when reloaded. */
  lemma LongestBodyOverflows()
    ensures var s := Sticker("a", seq(MAX_STICKER_LEN - 1, _ => 'x'));
            Created(s) && Kept(s) && Load(Print(s)).Some? && TableFrom(Print(s)).None?
  {
    var s := Sticker("a", seq(MAX_STICKER_LEN - 1, _ => 'x'));
    forall i: nat | i < |s.body| ensures !TagAt(s.body, i) {
      if i + |CLOSE_TAG| <= |s.body| {
        assert s.body[i..i + |CLOSE_TAG|][0] == 'x';
      }
    }
    NoTagIsClean(s.body);
    KeptStickerParses(s, "");
    assert Print(s) + "" == Print(s);
    assert !FitsEntry(Load(Print(s)).value[0]);
  }

  /** A failing case: a body that is a closing tag comes back empty. */
  lemma ClosingBodyIsLost(name: string)
    requires ProperName(name) && NUL !in name && '\r' !in name
    ensures var s := Sticker(name, CLOSE_TAG);
            Created(s) && !Clean(s.body) && TableFrom(Print(s)) == Some([Sticker(name, "")])
  {
    var s := Sticker(name, CLOSE_TAG);
    ClosingTagLine();
    PrintedLines(s, "");
    ConcatNothing([CLOSE_LINE]);
    ClosingFirst(name + "\n");
    CutLineKeeps(name);
    assert Print(s) + "" == Print(s);
  }

  lemma ClosingTagLine()
    ensures FgetsAll(CLOSE_TAG + "\n", LINE) == [CLOSE_LINE]
    ensures NUL !in CLOSE_TAG
  {
    ClosingTag();
    OneLine(CLOSE_TAG);
  }

  lemma ClosingTag()
    ensures CLOSE_TAG + "\n" == CLOSE_LINE && '\n' !in CLOSE_TAG && NUL !in CLOSE_TAG
  {
  }

  lemma ClosingFirst(name: string)
    ensures Parse(EntryLines(name, [CLOSE_LINE], [CLOSE_LINE])) == Some([Sticker(CutLine(name), "")])
  {
    var body, tail: seq<string> := [CLOSE_LINE], [CLOSE_LINE];
    var entry := Sticker(CutLine(name), "");
    EntryParses(name, body, tail);
    assert body[1..] + tail == [CLOSE_LINE] && body[..0] == [];
    assert |CLOSE_LINE| != |OPEN_LINE|;
    assert [CLOSE_LINE][1..] == [];
    assert Parse([CLOSE_LINE]) == Parse([]);
    assert [entry] + [] == [entry];
  }

  lemma ConsEqual(first: Sticker, more: Option<seq<Sticker>>, rest: seq<Sticker>)
    ensures more.Some? ==> ([first] + more.value == [first] + rest <==> more == Some(rest))
  {
    if more.Some? {
      assert ([first] + more.value)[1..] == more.value && ([first] + rest)[1..] == rest;
    }
  }

  predicate TagAt(body: string, i: nat) {
    i + |CLOSE_TAG| <= |body| && body[i..i + |CLOSE_TAG|] == CLOSE_TAG
  }

  /** The closing tag occurs nowhere in the body. */
  predicate NoTagIn(body: string) {
    forall i: nat :: i < |body| ==> !TagAt(body, i)
  }

  /** A body without the closing tag is read back, however long its lines. */
  lemma NoTagIsClean(body: string)
    requires NoTagIn(body)
    ensures Clean(body)
  {
    var text := body + "\n";
    forall i: nat | i < |text| ensures !TagAt(text, i) {
      if TagAt(text, i) {
        assert text[i..i + |CLOSE_TAG|][|CLOSE_TAG| - 1] == '>';
        assert body[i..i + |CLOSE_TAG|] == text[i..i + |CLOSE_TAG|];
        assert TagAt(body, i);
      }
    }
    NoTagInLines(text);
  }

  lemma {:induction false} NoTagInLines(text: string)
    requires NoTagIn(text)
    ensures Closing(FgetsAll(text, LINE)) == |FgetsAll(text, LINE)|
    decreases |text|
  {
    if text != "" {
      var k := FgetsLen(text, LINE);
      NoTagInRest(text, k);
      NoTagInLines(text[k..]);
      NotClosing(text, k);
      assert FgetsAll(text, LINE)[1..] == FgetsAll(text[k..], LINE);
    }
  }

  lemma NoTagInRest(text: string, k: nat)
    requires NoTagIn(text) && k <= |text|
    ensures NoTagIn(text[k..])
  {
    forall i: nat | i < |text| - k ensures !TagAt(text[k..], i) {
      assert !TagAt(text, k + i);
      assert k + i + |CLOSE_TAG| <= |text| ==>
          text[k..][i..i + |CLOSE_TAG|] == text[k + i..k + i + |CLOSE_TAG|];
    }
  }

  lemma NotClosing(text: string, k: nat)
    requires NoTagIn(text) && 0 < k <= |text|
    ensures !IsClosing(text[..k])
  {
    var n := |CLOSE_TAG|;
    assert CLOSE_LINE[..n] == CLOSE_TAG && CLOSE_TAG[..n] == CLOSE_TAG;
    if k >= n {
      assert text[..k][..n] == text[0..0 + n];
      assert !TagAt(text, 0);
    }
  }

  // ------------------------------------------------------------------ in place

  class StickerTable {
    const table: array<Sticker>
    var count: nat
    var file: string  // saved_stickers.txt

    ghost predicate Valid()
      reads this, table
    {
      && table.Length == MAX_STICKERS && count <= MAX_STICKERS
      && (forall k :: 0 <= k < count ==> FitsEntry(table[k]))
      && forall k :: count <= k < MAX_STICKERS ==> table[k] == Sticker("", "")
    }

    ghost function Stickers(): seq<Sticker>
      requires Valid()
      reads this, table
    {
      table[..count]
    }

    constructor (file: string)
      ensures Valid() && fresh(table) && Stickers() == [] && this.file == file
    {
      table := new Sticker[MAX_STICKERS](_ => Sticker("", ""));
      count := 0;
      this.file := file;
    }

    /** `get_sticker`. */
    method GetSticker(name: string) returns (found: bool, body: string)
      requires Valid()
      ensures found <==> exists k :: 0 <= k < count && table[k].name == name
      ensures found ==> exists k :: 0 <= k < count && table[k] == Sticker(name, body)
                          && forall i :: 0 <= i < k ==> table[i].name != name
    {
      for i := 0 to count
        invariant forall k :: 0 <= k < i ==> table[k].name != name
      {
        if table[i].name == name {
          return true, table[i].body;
        }
      }
      return false, "";
    }

    /** `create_sticker`, with the text the editor returned.  The C code copies name and
        text unchecked: `defined` is whether it stays inside the table. */
    method CreateSticker(name: string, text: string) returns (defined: bool)
      requires Valid()
      modifies this, table
      ensures Valid()
      ensures var s, known := Sticker(name, text), exists k :: 0 <= k < old(count) && old(table[k]).name == name;
              && defined == (known || (old(count) < MAX_STICKERS && FitsEntry(s)))
              && (defined && !known ==> Stickers() == old(Stickers()) + [s] && file == old(file) + Print(s))
              && (known ==> Stickers() == old(Stickers()) && file == old(file))
    {
      var found, body := GetSticker(name);
      if found { return true; }
      if count == MAX_STICKERS || |text| >= MAX_STICKER_LEN || |name| >= MAX_NAME_LEN { return false; }
      table[count] := Sticker(name, text);
      file := file + Print(table[count]);
      count := count + 1;
      assert Stickers() == old(Stickers()) + [Sticker(name, text)];
      return true;
    }

    /** The inner loop of `load_stickers`: body lines up to the closing one, which may be
        missing, into an entry they may not fit. */
    method LoadBody(lines: seq<string>) returns (defined: bool, k: nat)
      requires table.Length == MAX_STICKERS && count < MAX_STICKERS && table[count].body == ""
      modifies table
      ensures defined <==> Closing(lines) < |lines| && |Concat(lines[..Closing(lines)])| < MAX_STICKER_LEN
      ensures forall i :: 0 <= i < MAX_STICKERS && i != count ==> table[i] == old(table[i])
      ensures defined ==> k == Closing(lines) && table[count] == old(table[count]).(body := Concat(lines[..k]))
    {
      k := 0;
      assert lines[..0] == [];
      while k < |lines| && !IsClosing(lines[k])
        invariant k <= Closing(lines)
        invariant forall i :: 0 <= i < MAX_STICKERS && i != count ==> table[i] == old(table[i])
        invariant table[count] == old(table[count]).(body := Concat(lines[..k]))
        invariant |Concat(lines[..k])| < MAX_STICKER_LEN
        decreases |lines| - k
      {
        ConcatSnoc(lines, k);
        if |table[count].body| + |lines[k]| >= MAX_STICKER_LEN {
          ConcatGrows(lines, k + 1, Closing(lines));
          return false, k;
        }
        table[count] := table[count].(body := table[count].body + lines[k]);
        k := k + 1;
      }
      return k < |lines|, k;
    }

    /** `load_stickers`: `defined` is whether it ends and stays inside the table. */
    method LoadStickers() returns (defined: bool)
      requires Valid() && count == 0
      modifies this`count, table
      ensures defined <==> TableFrom(file).Some?
      ensures defined ==> Valid() && TableFrom(file) == Some(Stickers())
    {
      var lines := FgetsAll(file, LINE);
      var at := 0;
      assert lines[0..] == lines;
      JoinNothing(Load(file));
      while at < |lines|
        invariant Valid() && at <= |lines|
        invariant Join(Stickers(), Parse(lines[at..])) == Load(file)
      {
        assert lines[at..][1..] == lines[at + 1..];
        if IsOpening(lines[at]) {
          var ok, next := LoadEntry(lines, at);
          if !ok { return false; }
          at := next;
        } else {
          at := at + 1;
        }
      }
      assert Stickers() + [] == Stickers();
      return true;
    }

    /** One round of the outer loop at an opening line. */
    method LoadEntry(lines: seq<string>, at: nat) returns (defined: bool, next: nat)
      requires Valid() && at < |lines| && IsOpening(lines[at])
      requires Join(Stickers(), Parse(lines[at..])) == Load(file)
      modifies this`count, table
      ensures !defined ==> TableFrom(file).None?
      ensures defined ==> Valid() && at < next <= |lines| && Join(Stickers(), Parse(lines[next..])) == Load(file)
    {
      ghost var before := Stickers();
      ghost var rest := lines[at..];
      NoTable(file, before, Parse(rest));
      if count == MAX_STICKERS { return false, at; }
      defined, next := ReadEntry(lines, at);
      if defined {
        assert rest[next - at..] == lines[next..];
        JoinOne(before, table[count], Parse(lines[next..]));
        count := count + 1;
        assert Stickers() == before + [table[count - 1]];
      }
    }

    method ReadEntry(lines: seq<string>, at: nat) returns (defined: bool, next: nat)
      requires Valid() && at < |lines| && IsOpening(lines[at]) && count < MAX_STICKERS
      modifies table
      ensures var e := EntryOf(lines[at..]); defined <==> e.Some? && FitsEntry(e.value.0)
      ensures defined ==> next > at && EntryOf(lines[at..]) == Some((table[count], next - at))
      ensures forall i :: 0 <= i < MAX_STICKERS && i != count ==> table[i] == old(table[i])
    {
      if at + 1 == |lines| { return false, at; }
      var name := CutLine(lines[at + 1]);
      var body := lines[at + 2..];
      assert lines[at..][2..] == body;
      if |name| >= MAX_NAME_LEN { return false, at; }
      table[count] := Sticker(name, "");
      if body == [] && name == CLOSE_TAG {
        return true, |lines|;
      }
      var k;
      defined, k := LoadBody(body);
      next := at + 2 + k + 1;
    }
  }

  /** A file with an entry the table has no room for. */
  lemma NoTable(file: string, before: seq<Sticker>, rest: Option<seq<Sticker>>)
    requires Join(before, rest) == Load(file)
    ensures rest.None? ==> TableFrom(file).None?
    ensures rest.Some? && rest.value != [] && (|before| >= MAX_STICKERS || !FitsEntry(rest.value[0])) ==> TableFrom(file).None?
  {
    if rest.Some? && rest.value != [] {
      assert (before + rest.value)[|before|] == rest.value[0];
    }
  }

  lemma JoinNothing(rest: Option<seq<Sticker>>)
    ensures Join([], rest) == rest
  {
    if rest.Some? {
      assert [] + rest.value == rest.value;
    }
  }

  lemma JoinOne(before: seq<Sticker>, entry: Sticker, rest: Option<seq<Sticker>>)
    ensures Join(before + [entry], rest) == Join(before, Join([entry], rest))
  {
    if rest.Some? {
      ConcatAssociates(before, [entry], rest.value);
    }
  }

  lemma ConcatGrows(lines: seq<string>, j: nat, k: nat)
    requires j <= k <= |lines|
    ensures |Concat(lines[..j])| <= |Concat(lines[..k])|
  {
    assert lines[..k] == lines[..j] + lines[j..k];
    ConcatAppend(lines[..j], lines[j..k]);
  }

  lemma {:induction false} ConcatSnoc(lines: seq<string>, k: nat)
    requires k < |lines|
    ensures Concat(lines[..k + 1]) == Concat(lines[..k]) + lines[k]
  {
    assert lines[..k + 1] == lines[..k] + [lines[k]];
    ConcatAppend(lines[..k], [lines[k]]);
    assert Concat([lines[k]]) == lines[k] + Concat([]);
  }
}
