/** The few C library facts the program rests on, stated on values.

    A C `char` is a Dafny `char`, one per byte.  A character buffer is a sequence;
    the string it holds is the part in front of its first NUL. */
module CText {
  import opened Collections

  const NUL: char := '\0'
  const UID_LENGTH: nat := 8

  /** A text without NUL, as a C string variable holds it. */
  type CString = s: string | NUL !in s

  /** The C string held in buffer `s` (what `strlen`, `strcmp` and `%s` see). */
  function CStr(s: string): (r: string)
    ensures NUL !in r
    ensures r <= s
    ensures |r| < |s| ==> s[|r|] == NUL
  {
    if s == [] || s[0] == NUL then [] else [s[0]] + CStr(s[1..])
  }

  /** Nothing but the text before the first NUL satisfies the contract of `CStr`. */
  lemma {:induction false} CStrIs(s: string, r: string)
    requires r <= s && NUL !in r
    requires |r| < |s| ==> s[|r|] == NUL
    ensures CStr(s) == r
  {
    if r != [] {
      assert s[0] == r[0] && r[0] in r;
      CStrIs(s[1..], r[1..]);
    }
  }

  /** How many characters `fgets(buf, n, fp)` takes from `text`, the unread rest of
      the file: through the first newline, at most n-1, fewer at end of file
      (ISO/IEC 9899:1990, section 7.9.7.2). */
  function FgetsLen(text: string, n: nat): (k: nat)
    requires n >= 2
    ensures k <= |text| && k < n
    ensures k == 0 <==> text == []
    ensures forall i :: 0 <= i < k - 1 ==> text[i] != '\n'
    ensures k < |text| && k < n - 1 ==> text[k - 1] == '\n'
  {
    if text == [] then 0
    else if text[0] == '\n' || n == 2 then 1
    else 1 + FgetsLen(text[1..], n - 1)
  }

  /** The buffers successive `fgets(buf, n, fp)` calls produce until they report
      end of file. */
  function FgetsAll(text: string, n: nat): (lines: seq<string>)
    requires n >= 2
    ensures text == [] <==> lines == []
  {
    if text == [] then []
    else
      var k := FgetsLen(text, n);
      [text[..k]] + FgetsAll(text[k..], n)
  }

  /** One more call of a reading loop. */
  lemma FgetsNext(lines: seq<string>, text: string, n: nat)
    requires n >= 2 && text != ""
    ensures var k := FgetsLen(text, n);
            lines + FgetsAll(text, n) == (lines + [text[..k]]) + FgetsAll(text[k..], n)
  {
  }

  /** A line that fits the buffer together with its newline is read in one call. */
  lemma FgetsWholeLine(line: string, rest: string, n: nat)
    requires n >= 2 && '\n' !in line && |line| + 1 < n
    ensures FgetsLen(line + "\n" + rest, n) == |line| + 1
  {
    var text := line + "\n" + rest;
    assert text[|line|] == '\n';
    assert forall i :: 0 <= i < |line| ==> text[i] == line[i] && line[i] in line;
  }

  /** Where a text ends in a newline, reading starts afresh. */
  lemma {:induction false} FgetsAllSplits(a: string, rest: string, n: nat)
    requires n >= 2 && a != "" && a[|a| - 1] == '\n'
    ensures FgetsAll(a + rest, n) == FgetsAll(a, n) + FgetsAll(rest, n)
    decreases |a|
  {
    FgetsLenSplits(a, rest, n);
    var k := FgetsLen(a, n);
    assert (a + rest)[..k] == a[..k] && (a + rest)[k..] == a[k..] + rest;
    if k < |a| {
      FgetsAllSplits(a[k..], rest, n);
    } else {
      assert a[k..] + rest == rest && [] + FgetsAll(rest, n) == FgetsAll(rest, n);
    }
    ConcatAssociates([a[..k]], FgetsAll(a[k..], n), FgetsAll(rest, n));
  }

  lemma {:induction false} FgetsLenSplits(a: string, rest: string, n: nat)
    requires n >= 2 && a != "" && a[|a| - 1] == '\n'
    ensures FgetsLen(a + rest, n) == FgetsLen(a, n)
  {
    if a[0] != '\n' && n > 2 {
      FgetsLenSplits(a[1..], rest, n - 1);
      assert (a + rest)[1..] == a[1..] + rest;
    }
  }

  /** At most the first n characters. */
  function Clip(s: string, n: nat): string {
    if |s| <= n then s else s[..n]
  }

  function Concat(parts: seq<string>): string {
    if parts == [] then "" else parts[0] + Concat(parts[1..])
  }

  lemma ConcatCons(part: string, parts: seq<string>)
    ensures Concat([part] + parts) == part + Concat(parts)
  {
    assert ([part] + parts)[1..] == parts;
  }

  lemma ConcatAppend(a: seq<string>, b: seq<string>)
    ensures Concat(a + b) == Concat(a) + Concat(b)
  {
    if a == [] {
      assert a + b == b;
    } else {
      assert (a + b)[0] == a[0] && (a + b)[1..] == a[1..] + b;
      ConcatAppend(a[1..], b);
    }
  }

  /** Reading a file to its end loses and invents nothing. */
  lemma {:induction false} FgetsAllPartitions(text: string, n: nat)
    requires n >= 2
    ensures Concat(FgetsAll(text, n)) == text
    decreases |text|
  {
    if text != [] {
      var k := FgetsLen(text, n);
      FgetsAllPartitions(text[k..], n);
      ConcatCons(text[..k], FgetsAll(text[k..], n));
      assert text == text[..k] + text[k..];
    }
  }
}
