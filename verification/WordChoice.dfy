/** The reservoir loop of `set_random_word` (hangman.c): which line of the word file it
    keeps, and that with ideal draws every eligible line is equally likely. */
module WordChoice {
  import opened Collections
  import opened CText
  import opened Hangman

  /** The word on one line read by `fgets`: cut at its NUL, less a final newline. */
  function WordOf(line: string): (w: string)
    ensures NUL !in w
  {
    var s := CStr(line);
    if s != [] && s[|s| - 1] == '\n' then s[..|s| - 1] else s
  }

  /** The words of the file that fit the word buffer, in file order. */
  function Eligible(lines: seq<string>): (ws: seq<string>)
    ensures forall w :: w in ws ==> |w| <= HANGMAN_MAX_WORD_LENGTH && NUL !in w
  {
    if lines == [] then []
    else
      var init, w := Eligible(lines[..|lines| - 1]), WordOf(lines[|lines| - 1]);
      if |w| <= HANGMAN_MAX_WORD_LENGTH then init + [w] else init
  }

  // ------------------------------------------------------------------ word files

  lemma {:induction false} WordOfLine(w: string)
    requires NUL !in w && '\n' !in w
    ensures WordOf(w + "\n") == w == WordOf(w)
  {
    var line := w + "\n";
    CStrIs(line, line);
    CStrIs(w, w);
    assert line[..|line| - 1] == w;
    assert w != "" ==> w[|w| - 1] in w;
  }

  /** A line of a word file that `fgets` reads in one piece. */
  predicate ShortLine(w: string) {
    NUL !in w && '\n' !in w && |w| <= 1022
  }

  predicate ShortLines(ws: seq<string>, last: string) {
    (forall i :: 0 <= i < |ws| ==> ShortLine(ws[i])) && ShortLine(last)
  }

  /** A file of these lines, the last of which may lack its newline. */
  function WordFile(ws: seq<string>, last: string): string {
    if ws == [] then last else ws[0] + "\n" + WordFile(ws[1..], last)
  }

  /** The words of at most seven characters, in order. */
  function Fitting(ws: seq<string>): (fit: seq<string>)
    ensures forall w :: w in fit <==> w in ws && |w| <= 7
  {
    if ws == [] then []
    else (if |ws[0]| <= 7 then [ws[0]] else []) + Fitting(ws[1..])
  }

  lemma {:induction false} EligibleAppend(a: seq<string>, b: seq<string>)
    ensures Eligible(a + b) == Eligible(a) + Eligible(b)
  {
    if b == [] {
      ConcatNothing(a);
      ConcatNothing(Eligible(a));
    } else {
      var init, w := b[..|b| - 1], WordOf(b[|b| - 1]);
      assert (a + b)[..|a + b| - 1] == a + init;
      EligibleAppend(a, init);
      ConcatAssociates(Eligible(a), Eligible(init), [w]);
    }
  }

  lemma EligibleOne(line: string)
    ensures Eligible([line]) == if |WordOf(line)| <= 7 then [WordOf(line)] else []
  {
    assert [line][..0] == [];
  }

  /** The words to choose from are the file's lines of at most seven characters, without
      their newlines, in file order. */
  lemma {:induction false} EligibleWords(ws: seq<string>, last: string)
    requires ShortLines(ws, last)
    ensures Eligible(FgetsAll(WordFile(ws, last), 1024)) == Fitting(ws + if last == "" then [] else [last])
    decreases |ws|
  {
    if ws == [] {
      LastLine(last);
    } else {
      var line, rest := ws[0] + "\n", WordFile(ws[1..], last);
      EligibleWords(ws[1..], last);
      FgetsAllSplits(line, rest, 1024);
      FgetsWholeLine(ws[0], "", 1024);
      ConcatNothing(line);
      ConcatNothing([line]);
      EligibleAppend([line], FgetsAll(rest, 1024));
      EligibleOne(line);
      WordOfLine(ws[0]);
      FittingCons(ws, if last == "" then [] else [last]);
    }
  }

  lemma FittingCons(ws: seq<string>, more: seq<string>)
    requires ws != []
    ensures Fitting(ws + more) == (if |ws[0]| <= 7 then [ws[0]] else []) + Fitting(ws[1..] + more)
  {
    assert (ws + more)[1..] == ws[1..] + more;
  }

  lemma LastLine(last: string)
    requires ShortLine(last)
    ensures Eligible(FgetsAll(last, 1024)) == Fitting([] + if last == "" then [] else [last])
  {
    if last != "" {
      WholeLastLine(last);
      ConcatNothing([last]);
      EligibleOne(last);
      WordOfLine(last);
      ConcatNothing(if |last| <= 7 then [last] else []);
      assert [last][1..] == [];
    }
  }

  lemma WholeLastLine(last: string)
    requires ShortLine(last) && last != ""
    ensures FgetsAll(last, 1024) == [last]
  {
    assert forall i :: 0 <= i < |last| ==> last[i] in last;
    assert FgetsLen(last, 1024) == |last| && last[..|last|] == last;
  }

  /** A longer line is read in pieces, and what is left of it behind its first 1023
      characters counts as a line of its own. */
  lemma LongLineTail(w: string, rest: string)
    requires NUL !in w && '\n' !in w && |w| >= 1023
    ensures Eligible(FgetsAll(w + "\n" + rest, 1024)) == Eligible(FgetsAll(w[1023..] + "\n" + rest, 1024))
  {
    var text := w + "\n" + rest;
    assert forall i :: 0 <= i < 1023 ==> text[i] == w[i] && w[i] in w;
    var k := FgetsLen(text, 1024);
    assert k == 1023;
    var piece, more := text[..k], FgetsAll(text[k..], 1024);
    assert piece == w[..1023] && text[k..] == w[1023..] + "\n" + rest;
    assert forall c :: c in piece ==> c in w;
    WordOfLine(piece);
    EligibleAppend([piece], more);
    EligibleOne(piece);
    ConcatNothing(Eligible(more));
  }

  // ------------------------------------------------------------------ the choice

  /** The k-th result of `rand()`; runs without enough results continue with 0. */
  function Rand(rands: seq<nat>, k: nat): nat {
    if k < |rands| then rands[k] else 0
  }

  /** The draws `rand() % count` made for count = 1, ..., n. */
  function Draws(rands: seq<nat>, n: nat): seq<nat> {
    seq(n, k requires 0 <= k < n => Rand(rands, k) % (k + 1))
  }

  /** The line a draw vector ends with: the last one whose draw was 0. */
  function Kept(draws: seq<nat>): (j: nat)
    requires draws != []
    ensures j < |draws|
    ensures draws[0] == 0 ==> draws[j] == 0
    ensures forall k :: j < k < |draws| ==> draws[k] != 0
  {
    var last := |draws| - 1;
    if last == 0 || draws[last] == 0 then last else Kept(draws[..last])
  }

  /** The word buffer after the lines read so far. */
  function Reservoir(oldWord: string, lines: seq<string>, rands: seq<nat>): (w: string)
    ensures var ws := Eligible(lines); if ws == [] then w == oldWord else w in ws
  {
    var ws := Eligible(lines);
    if ws == [] then oldWord else ws[Kept(Draws(rands, |ws|))]
  }

  /** The word buffer after `set_random_word`. */
  function Chosen(oldWord: string, file: string, rands: seq<nat>): string {
    Reservoir(oldWord, FgetsAll(file, 1024), rands)
  }

  /** Keeping the newest line on draw 0 and the old choice otherwise is what the loop
      does with each line that fits. */
  lemma ReservoirStep(oldWord: string, lines: seq<string>, line: string, rands: seq<nat>)
    ensures var w, n := WordOf(line), |Eligible(lines)|;
            var longer := lines + [line];
            if |w| <= HANGMAN_MAX_WORD_LENGTH then
              && |Eligible(longer)| == n + 1
              && Reservoir(oldWord, longer, rands)
                 == (if Rand(rands, n) % (n + 1) == 0 then w else Reservoir(oldWord, lines, rands))
            else
              Eligible(longer) == Eligible(lines)
  {
    var ws, w := Eligible(lines), WordOf(line);
    EligibleSnoc(lines, line);
    if |w| <= HANGMAN_MAX_WORD_LENGTH {
      KeptStep(rands, |ws|);
      assert ws != [] ==> (ws + [w])[Kept(Draws(rands, |ws|))] == ws[Kept(Draws(rands, |ws|))];
    }
  }

  lemma EligibleSnoc(lines: seq<string>, line: string)
    ensures Eligible(lines + [line]) ==
            Eligible(lines) + if |WordOf(line)| <= HANGMAN_MAX_WORD_LENGTH then [WordOf(line)] else []
  {
    assert (lines + [line])[..|lines|] == lines;
  }

  lemma KeptStep(rands: seq<nat>, n: nat)
    ensures Kept(Draws(rands, n + 1)) == if n == 0 || Rand(rands, n) % (n + 1) == 0 then n else Kept(Draws(rands, n))
  {
    var draws := Draws(rands, n + 1);
    assert draws[..n] == Draws(rands, n);
  }

  // ------------------------------------------------------------------ uniformity

  /** The vectors of `vs`, each with one more entry d, lo <= d < hi. */
  function Extend(vs: set<seq<nat>>, lo: nat, hi: nat): set<seq<nat>> {
    set v, d: nat | v in vs && lo <= d < hi :: v + [d]
  }

  lemma InExtend(vs: set<seq<nat>>, lo: nat, hi: nat, w: seq<nat>)
    ensures w in Extend(vs, lo, hi) <==> |w| > 0 && w[..|w| - 1] in vs && lo <= w[|w| - 1] < hi
  {
    if |w| > 0 {
      assert w == w[..|w| - 1] + [w[|w| - 1]];
    }
    if w in Extend(vs, lo, hi) {
      var v, d: nat :| v in vs && lo <= d < hi && w == v + [d];
      assert w[..|w| - 1] == v;
    }
  }

  /** All vectors of ideal draws for n lines: the k-th entry ranges over 0, ..., k. */
  function DrawVectors(n: nat): set<seq<nat>> {
    if n == 0 then {[]} else Extend(DrawVectors(n - 1), 0, n)
  }

  lemma {:induction false} DrawVectorsExact(n: nat, v: seq<nat>)
    ensures v in DrawVectors(n) <==> |v| == n && forall k :: 0 <= k < n ==> v[k] <= k
  {
    if n > 0 {
      InExtend(DrawVectors(n - 1), 0, n, v);
      if |v| > 0 {
        DrawVectorsExact(n - 1, v[..|v| - 1]);
      }
    }
  }

  function Factorial(n: nat): nat {
    if n == 0 then 1 else n * Factorial(n - 1)
  }

  lemma {:induction false} ExtendByOne(vs: set<seq<nat>>, d: nat)
    ensures |Extend(vs, d, d + 1)| == |vs|
  {
    if vs != {} {
      var v :| v in vs;
      ExtendByOne(vs - {v}, d);
      OneMore(vs, v, d);
    }
  }

  lemma OneMore(vs: set<seq<nat>>, v: seq<nat>, d: nat)
    requires v in vs
    ensures Extend(vs, d, d + 1) == Extend(vs - {v}, d, d + 1) + {v + [d]}
    ensures v + [d] !in Extend(vs - {v}, d, d + 1)
  {
    InExtend(vs - {v}, d, d + 1, v + [d]);
    assert (v + [d])[..|v|] == v;
    var all, fewer := Extend(vs, d, d + 1), Extend(vs - {v}, d, d + 1) + {v + [d]};
    forall w | w in all || w in fewer ensures w in all && w in fewer {
      InExtend(vs, d, d + 1, w);
      InExtend(vs - {v}, d, d + 1, w);
      assert w == w[..|w| - 1] + [w[|w| - 1]];
    }
  }

  lemma {:induction false} ExtendCounts(vs: set<seq<nat>>, lo: nat, m: nat)
    ensures |Extend(vs, lo, lo + m)| == |vs| * m
  {
    if m == 0 {
      assert Extend(vs, lo, lo) == {};
    } else {
      ExtendCounts(vs, lo, m - 1);
      ExtendByOne(vs, lo + m - 1);
      LayerCounts(vs, lo, lo + m);
      assert |vs| * (m - 1) + |vs| == |vs| * m;
    }
  }

  lemma LayerCounts(vs: set<seq<nat>>, lo: nat, hi: nat)
    requires lo < hi
    ensures |Extend(vs, lo, hi)| == |Extend(vs, lo, hi - 1)| + |Extend(vs, hi - 1, hi)|
  {
    var init, last := Extend(vs, lo, hi - 1), Extend(vs, hi - 1, hi);
    forall w | w in init ensures w !in last {
      InExtend(vs, lo, hi - 1, w);
      InExtend(vs, hi - 1, hi, w);
    }
    assert Extend(vs, lo, hi) == init + last;
    assert init !! last;
  }

  lemma {:induction false} DrawVectorCount(n: nat)
    ensures |DrawVectors(n)| == Factorial(n)
  {
    if n > 0 {
      DrawVectorCount(n - 1);
      ExtendCounts(DrawVectors(n - 1), 0, n);
    }
  }

  /** The draw vectors for n lines that end with line j. */
  function VectorsKeeping(n: nat, j: nat): set<seq<nat>>
    requires j < n
  {
    set v | v in DrawVectors(n) && Kept(v) == j
  }

  /** The choice is exactly uniform: of the n! equally likely draw vectors, the same
      number (n-1)! ends with each of the n lines. */
  lemma {:induction false} ChoiceIsUniform(n: nat, j: nat)
    requires j < n
    ensures |VectorsKeeping(n, j)| == Factorial(n - 1)
    ensures |DrawVectors(n)| == Factorial(n)
    decreases n
  {
    DrawVectorCount(n);
    if j == n - 1 {
      LastLineKept(n);
      DrawVectorCount(n - 1);
      ExtendCounts(DrawVectors(n - 1), 0, 1);
    } else {
      ChoiceIsUniform(n - 1, j);
      EarlierLineCount(n, j);
    }
  }

  lemma EarlierLineCount(n: nat, j: nat)
    requires j < n - 1 && |VectorsKeeping(n - 1, j)| == Factorial(n - 2)
    ensures |VectorsKeeping(n, j)| == Factorial(n - 1)
  {
    EarlierLineKept(n, j);
    var fewer := VectorsKeeping(n - 1, j);
    ExtendCounts(fewer, 1, n - 1);
    FactorialStep(n - 1, |fewer|);
  }

  lemma FactorialStep(n: nat, f: nat)
    requires n > 0 && f == Factorial(n - 1)
    ensures f * n == Factorial(n)
  {
  }

  lemma LastLineKept(n: nat)
    requires n > 0
    ensures VectorsKeeping(n, n - 1) == Extend(DrawVectors(n - 1), 0, 1)
  {
    var kept, other := VectorsKeeping(n, n - 1), Extend(DrawVectors(n - 1), 0, 1);
    forall w | w in kept || w in other ensures w in kept && w in other {
      InExtend(DrawVectors(n - 1), 0, 1, w);
      InExtend(DrawVectors(n - 1), 0, n, w);
      VectorLength(n - 1, w[..|w| - 1]);
      KeptAfterLast(w);
    }
  }

  lemma EarlierLineKept(n: nat, j: nat)
    requires j < n - 1
    ensures VectorsKeeping(n, j) == Extend(VectorsKeeping(n - 1, j), 1, n)
  {
    var kept, other := VectorsKeeping(n, j), Extend(VectorsKeeping(n - 1, j), 1, n);
    forall w | w in kept || w in other ensures w in kept && w in other {
      InExtend(VectorsKeeping(n - 1, j), 1, n, w);
      InExtend(DrawVectors(n - 1), 0, n, w);
      VectorLength(n - 1, w[..|w| - 1]);
      KeptAfterLast(w);
    }
  }

  lemma VectorLength(n: nat, v: seq<nat>)
    ensures v in DrawVectors(n) ==> |v| == n
  {
    DrawVectorsExact(n, v);
  }

  lemma KeptAfterLast(w: seq<nat>)
    requires w != []
    ensures w[|w| - 1] == 0 ==> Kept(w) == |w| - 1
    ensures w[|w| - 1] != 0 && |w| > 1 ==> Kept(w) == Kept(w[..|w| - 1]) < |w| - 1
  {
  }

  /** Every sequence of `rand()` results makes one of the counted draw vectors. */
  lemma DrawsAreCounted(rands: seq<nat>, n: nat)
    ensures Draws(rands, n) in DrawVectors(n)
  {
    DrawVectorsExact(n, Draws(rands, n));
  }

  /** ... and every counted vector is made by some. */
  lemma DrawsAreAll(v: seq<nat>, n: nat)
    requires v in DrawVectors(n)
    ensures Draws(v, n) == v
  {
    DrawVectorsExact(n, v);
    forall k | 0 <= k < n ensures Draws(v, n)[k] == v[k] {
      Remainder(v[k], k);
    }
  }

  lemma Remainder(d: nat, k: nat)
    requires d <= k
    ensures d % (k + 1) == d
  {
  }
}
