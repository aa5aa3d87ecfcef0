/** The hangman game (hangman.c) on values: its state machine and what a round means
    in terms of the guesses made so far. */
module Hangman {
  import opened CText

  const HANGMAN_MAX_WORD_LENGTH: nat := 7
  const HANGMAN_MAX_ATTEMPTS: nat := 5
  const HANGMAN_EMPTY_CHARACTER: char := '_'

  datatype Phase = Initial | Playing | Updating

  /** `HANGMAN_FSM`, its buffers read as C strings. */
  datatype Game = Game(phase: Phase, word: string, wrong: string, attempts: int, revealed: string, started: bool)

  datatype Verdict = Welcome | Waiting | NoWord | Won | Lost | Invalid | Repeated | Hit | Miss

  /** What a reply shows, apart from its wording. */
  datatype Reply = Reply(verdict: Verdict, masked: string, wrong: string, attempts: int)

  /** What the buffers always satisfy. */
  predicate WellFormed(g: Game) {
    && |g.word| <= HANGMAN_MAX_WORD_LENGTH && NUL !in g.word
    && |g.wrong| <= HANGMAN_MAX_ATTEMPTS && NUL !in g.wrong
    && |g.revealed| <= HANGMAN_MAX_WORD_LENGTH && NUL !in g.revealed
    && (g.started ==> |g.revealed| == |g.word|)
  }

  /** `tolower` and `isalpha` in the C locale. */
  function Lower(c: char): char {
    if 'A' <= c <= 'Z' then (c as int + 32) as char else c
  }

  predicate IsAlpha(c: char) {
    'a' <= c <= 'z' || 'A' <= c <= 'Z'
  }

  /** The first guess of a round clears what the last round left behind. */
  function BeginRound(g: Game): Game {
    if g.started then g
    else g.(revealed := seq(|g.word|, _ => HANGMAN_EMPTY_CHARACTER), wrong := "",
            attempts := HANGMAN_MAX_ATTEMPTS, started := true)
  }

  predicate AlreadyGuessed(g: Game, c: char)
    requires g.started && WellFormed(g)
  {
    if c in g.word then exists i :: 0 <= i < |g.word| && g.word[i] == c && g.revealed[i] == c
    else c in g.wrong
  }

  /** Every place of letter `c` uncovered. */
  function Reveal(g: Game, c: char): Game
    requires g.started && WellFormed(g)
  {
    g.(revealed := seq(|g.word|, i requires 0 <= i < |g.word| => if g.word[i] == c then c else g.revealed[i]))
  }

  /** One more wrong letter; both counters saturate. */
  function CountMiss(g: Game, c: char): Game {
    g.(wrong := if |g.wrong| < HANGMAN_MAX_ATTEMPTS then g.wrong + [c] else g.wrong,
       attempts := if g.attempts > 0 then g.attempts - 1 else g.attempts)
  }

  /** Scoring one lower-case letter. */
  function Score(g: Game, c: char): (r: Game)
    requires g.started && WellFormed(g)
    ensures c != NUL ==> WellFormed(r)
  {
    if AlreadyGuessed(g, c) then g
    else if c in g.word then Reveal(g, c)
    else CountMiss(g, c)
  }

  /** The word as displayed, a space between any two places. */
  function Spaced(s: string): string {
    if |s| <= 1 then s else [s[0], ' '] + Spaced(s[1..])
  }

  /** `update_hangman`. */
  function UpdateHangman(g: Game, input: char): (r: (Game, Reply))
    requires WellFormed(g)
    ensures WellFormed(r.0)
  {
    if g.word == "" then (g, Reply(NoWord, "", "", 0))
    else
      var c := Lower(input);
      var begun := BeginRound(g);
      var repeated := IsAlpha(c) && AlreadyGuessed(begun, c);
      var after := if IsAlpha(c) then Score(begun, c) else begun;
      var verdict :=
        if after.revealed == after.word then Won
        else if after.attempts <= 0 then Lost
        else if !IsAlpha(c) then Invalid
        else if repeated then Repeated
        else if c in g.word then Hit
        else Miss;
      var ended := verdict == Won || verdict == Lost;
      (if ended then after.(phase := Initial, started := false) else after,
       Reply(verdict, Spaced(after.revealed), after.wrong, after.attempts))
  }

  /** A new round on the word drawn for it. */
  function OpenRound(g: Game, drawn: string): Game {
    g.(word := drawn, phase := Playing)
  }

  /** `process_hangman_state`; `drawn` is the word `set_random_word` leaves behind. */
  function ProcessHangmanState(g: Game, input: char, drawn: string): (r: (Game, Reply))
    requires WellFormed(g) && |drawn| <= HANGMAN_MAX_WORD_LENGTH && NUL !in drawn
    requires g.phase == Initial ==> !g.started
    ensures WellFormed(r.0)
  {
    match g.phase
    case Initial => (OpenRound(g, drawn), Reply(Welcome, "", "", 0))
    case Playing => UpdateHangman(g.(phase := Updating), input)
    case Updating => (g, Reply(Waiting, "", "", 0))
  }

  /** `hangman_finish_broadcast`. */
  function FinishBroadcast(g: Game): Game {
    if g.phase == Updating then g.(phase := Playing) else g
  }

  // ------------------------------------------------------- rounds and their history

  /** One guess as the server plays it: process, broadcast, finish. */
  function Turn(g: Game, input: char): (r: Game)
    requires WellFormed(g) && g.phase == Playing
    ensures WellFormed(r) && r.word == g.word
  {
    FinishBroadcast(UpdateHangman(g.(phase := Updating), input).0)
  }

  /** A freshly started round: a word was drawn, nothing was guessed yet. */
  predicate Fresh(g: Game) {
    WellFormed(g) && g.phase == Playing && !g.started && g.word != ""
  }

  /** The game after a guess sequence; once the round has ended nothing more is scored
      for it. */
  function After(g: Game, guesses: string): (r: Game)
    requires WellFormed(g)
    ensures WellFormed(r) && r.word == g.word
    decreases |guesses|
  {
    if guesses == [] then g
    else
      var before := After(g, guesses[..|guesses| - 1]);
      if before.phase == Playing then Turn(before, guesses[|guesses| - 1]) else before
  }

  /** The round was still open when the last of these guesses was made. */
  predicate Open(g: Game, guesses: string)
    requires Fresh(g)
  {
    guesses == [] || After(g, guesses[..|guesses| - 1]).phase == Playing
  }

  function Letters(word: string): set<char> {
    set c | c in word
  }

  lemma LettersAppend(s: string, c: char)
    ensures Letters(s + [c]) == Letters(s) + {c}
  {
  }

  /** The letters guessed, whatever their case. */
  function Guessed(guesses: string): set<char> {
    set c | c in guesses && IsAlpha(c) :: Lower(c)
  }

  /** The word with everything hidden but the letters in `known`. */
  function Mask(word: string, known: set<char>): (m: string)
    ensures |m| == |word|
  {
    seq(|word|, i requires 0 <= i < |word| => if word[i] in known then word[i] else HANGMAN_EMPTY_CHARACTER)
  }

  /** The distinct wrong letters in the order of their first guess. */
  function Misses(word: string, guesses: string): (m: string)
    decreases |guesses|
  {
    if guesses == [] then []
    else
      var before := Misses(word, guesses[..|guesses| - 1]);
      var c := Lower(guesses[|guesses| - 1]);
      if IsAlpha(c) && c !in word && c !in before then before + [c] else before
  }

  lemma GuessedStep(before: string, last: char)
    ensures Guessed(before + [last]) == Guessed(before) + if IsAlpha(last) then {Lower(last)} else {}
  {
    var guesses := before + [last];
    assert forall c :: c in guesses <==> c in before || c == last;
    if IsAlpha(last) {
      assert Lower(last) in Guessed(guesses);
    }
  }

  lemma MissesStep(word: string, before: string, last: char)
    ensures var m, c := Misses(word, before), Lower(last);
            Misses(word, before + [last]) == if IsAlpha(c) && c !in word && c !in m then m + [c] else m
  {
    assert (before + [last])[..|before|] == before;
  }

  /** `Misses` is what its name says: each wrong letter once, none else. */
  lemma {:induction false} MissesExact(word: string, guesses: string)
    ensures var m := Misses(word, guesses);
            && (forall i, j :: 0 <= i < j < |m| ==> m[i] != m[j])
            && Letters(m) == Guessed(guesses) - Letters(word)
    decreases |guesses|
  {
    if guesses != [] {
      var before, last := guesses[..|guesses| - 1], guesses[|guesses| - 1];
      assert guesses == before + [last];
      MissesExact(word, before);
      GuessedStep(before, last);
      LettersAppend(Misses(word, before), Lower(last));
    }
  }

  /** ... in first-guess order: more guesses only ever append. */
  lemma {:induction false} MissesGrow(word: string, guesses: string, k: nat)
    requires k <= |guesses|
    ensures Misses(word, guesses[..k]) <= Misses(word, guesses)
    decreases |guesses|
  {
    if k == |guesses| {
      assert guesses[..k] == guesses;
    } else {
      var before := guesses[..|guesses| - 1];
      MissesGrow(word, before, k);
      assert before[..k] == guesses[..k];
    }
  }

  /** Scoring a letter on a history-shaped state extends the history by that letter:
      the all-or-none positions of a letter are what makes `already_guessed` right. */
  lemma ScoreExtendsHistory(g: Game, known: set<char>, c: char)
    requires g.started && WellFormed(g) && 'a' <= c <= 'z'
    requires g.revealed == Mask(g.word, known)
    requires Letters(g.wrong) == known - Letters(g.word)
    requires |g.wrong| < HANGMAN_MAX_ATTEMPTS && g.attempts == HANGMAN_MAX_ATTEMPTS - |g.wrong|
    ensures AlreadyGuessed(g, c) <==> c in known
    ensures var r := Score(g, c);
            && r == g.(revealed := r.revealed, wrong := r.wrong, attempts := r.attempts)
            && r.revealed == Mask(g.word, known + {c})
            && r.wrong == (if c in g.word || c in known then g.wrong else g.wrong + [c])
            && r.attempts == HANGMAN_MAX_ATTEMPTS - |r.wrong|
  {
    if c in g.word {
      var i :| 0 <= i < |g.word| && g.word[i] == c;
      assert g.revealed[i] == if c in known then c else HANGMAN_EMPTY_CHARACTER;
    } else {
      assert c in g.wrong <==> c in Letters(g.wrong);
    }
    assert Score(g, c).revealed == Mask(g.word, known + {c});
  }

  /** What a game looks like after `guesses`, read off the guesses alone. */
  predicate Matches(g: Game, word: string, guesses: string) {
    var misses := Misses(word, guesses);
    && g.word == word
    && g.revealed == Mask(word, Guessed(guesses))
    && g.wrong == misses
    && g.attempts == HANGMAN_MAX_ATTEMPTS - |misses|
  }

  predicate Ended(word: string, guesses: string) {
    Mask(word, Guessed(guesses)) == word || |Misses(word, guesses)| == HANGMAN_MAX_ATTEMPTS
  }

  /** The state a guess finds: nothing guessed yet, or the history so far and not over. */
  predicate Running(g: Game, word: string, before: string) {
    && WellFormed(g) && g.phase == Playing && g.word == word != ""
    && if before == [] then !g.started else g.started && Matches(g, word, before) && !Ended(word, before)
  }

  lemma BegunMatches(g: Game, word: string, before: string)
    requires Running(g, word, before)
    ensures var begun := BeginRound(g.(phase := Updating));
            && WellFormed(begun) && begun.started && begun.phase == Updating && Matches(begun, word, before)
            && Letters(begun.wrong) == Guessed(before) - Letters(word)
            && |begun.wrong| < HANGMAN_MAX_ATTEMPTS
  {
    MissesExact(word, before);
  }

  lemma TurnExtendsHistory(g: Game, word: string, before: string, input: char)
    requires Running(g, word, before)
    ensures var guesses, r := before + [input], Turn(g, input);
            && Matches(r, word, guesses)
            && r.phase == (if Ended(word, guesses) then Initial else Playing)
            && r.started == !Ended(word, guesses)
            && |Misses(word, guesses)| <= HANGMAN_MAX_ATTEMPTS
  {
    BegunMatches(g, word, before);
    LetterExtendsHistory(BeginRound(g.(phase := Updating)), word, before, input);
  }

  /** What a guess does to a round that has begun, before its end is decided. */
  lemma LetterExtendsHistory(begun: Game, word: string, before: string, input: char)
    requires WellFormed(begun) && begun.started && Matches(begun, word, before)
    requires Letters(begun.wrong) == Guessed(before) - Letters(word) && |begun.wrong| < HANGMAN_MAX_ATTEMPTS
    ensures var c := Lower(input);
            var after := if IsAlpha(c) then Score(begun, c) else begun;
            && after == begun.(revealed := after.revealed, wrong := after.wrong, attempts := after.attempts)
            && Matches(after, word, before + [input])
            && |Misses(word, before + [input])| <= HANGMAN_MAX_ATTEMPTS
  {
    var c := Lower(input);
    GuessedStep(before, input);
    MissesStep(word, before, input);
    if IsAlpha(c) {
      ScoreExtendsHistory(begun, Guessed(before), c);
      assert c !in word ==> (c in Guessed(before) <==> c in Letters(begun.wrong));
    }
  }

  /** The incremental state refines the guess history: after any guesses up to the end
      of the round, the display is the word masked by the guessed letters, the wrong
      letters are listed once in first-guess order, and the attempts are what is left
      of five; the round is over exactly when the word is out or five letters missed. */
  lemma {:induction false} GameRefinesHistory(g: Game, guesses: string)
    requires Fresh(g) && Open(g, guesses) && guesses != []
    ensures Matches(After(g, guesses), g.word, guesses)
    ensures After(g, guesses).phase == if Ended(g.word, guesses) then Initial else Playing
    ensures After(g, guesses).started == !Ended(g.word, guesses)
    ensures |Misses(g.word, guesses)| <= HANGMAN_MAX_ATTEMPTS
    decreases |guesses|
  {
    var before := guesses[..|guesses| - 1];
    assert before + [guesses[|guesses| - 1]] == guesses;
    if before != [] {
      assert After(g, before[..|before| - 1]).phase == Playing;
      GameRefinesHistory(g, before);
    }
    TurnExtendsHistory(After(g, before), g.word, before, guesses[|guesses| - 1]);
  }

  /** Repeats, changes of case and non-letters leave a running round as it is. */
  lemma RepeatChangesNothing(g: Game, guesses: string, input: char)
    requires Fresh(g) && guesses != [] && After(g, guesses).phase == Playing
    requires IsAlpha(input) ==> Lower(input) in Guessed(guesses)
    ensures After(g, guesses + [input]) == After(g, guesses)
  {
    assert (guesses + [input])[..|guesses|] == guesses;
    OpenBefore(g, guesses);
    GameRefinesHistory(g, guesses);
    TurnExtendsHistory(After(g, guesses), g.word, guesses, input);
    GuessedStep(guesses, input);
    MissesStep(g.word, guesses, input);
    MissesExact(g.word, guesses);
    assert Lower(input) in Misses(g.word, guesses) <==> Lower(input) in Letters(Misses(g.word, guesses));
  }

  /** A round that is running now was running at every earlier guess. */
  lemma OpenBefore(g: Game, guesses: string)
    requires Fresh(g) && After(g, guesses).phase == Playing
    ensures Open(g, guesses)
  {
  }

  /** Hidden letters plus attempts left. */
  function Distance(word: string, guesses: string): int {
    |Letters(word) - Guessed(guesses)| + (HANGMAN_MAX_ATTEMPTS - |Misses(word, guesses)|)
  }

  lemma {:induction false} DistinctCount(s: string)
    requires forall i, j :: 0 <= i < j < |s| ==> s[i] != s[j]
    ensures |Letters(s)| == |s|
  {
    if s != [] {
      var init, last := s[..|s| - 1], s[|s| - 1];
      DistinctCount(init);
      assert s == init + [last];
      LettersAppend(init, last);
      assert last !in Letters(init);
    }
  }

  /** Every fresh letter brings the end one step nearer, and nothing else does. */
  lemma DistanceCountsFreshLetters(word: string, guesses: string)
    ensures Distance(word, guesses) == |Letters(word)| + HANGMAN_MAX_ATTEMPTS - |Guessed(guesses)|
  {
    MissesExact(word, guesses);
    DistinctCount(Misses(word, guesses));
    var l, g := Letters(word), Guessed(guesses);
    assert l == (l - g) + (l * g);
    assert g == (g - l) + (l * g);
  }

  /** The word is out exactly when every letter of it is known; a place whose letter is
      the one that hides others never looks hidden. */
  lemma MaskComplete(word: string, known: set<char>)
    ensures Mask(word, known) == word <==> Letters(word) - {HANGMAN_EMPTY_CHARACTER} <= known
  {
    var m := Mask(word, known);
    if m == word {
      forall c | c in Letters(word) && c != HANGMAN_EMPTY_CHARACTER ensures c in known {
        var i :| 0 <= i < |word| && word[i] == c;
        assert m[i] == c;
      }
    } else if Letters(word) - {HANGMAN_EMPTY_CHARACTER} <= known {
      forall i | 0 <= i < |word| ensures m[i] == word[i] {
        assert word[i] in Letters(word);
      }
    }
  }

  /** A round on a word of d distinct characters is over by its (d+4)-th fresh letter. */
  lemma RoundTerminates(g: Game, guesses: string)
    requires Fresh(g) && Open(g, guesses) && guesses != []
    requires |Guessed(guesses)| >= |Letters(g.word)| + 4
    ensures After(g, guesses).phase == Initial
  {
    GameRefinesHistory(g, guesses);
    EndedByDistance(g.word, guesses);
  }

  /** One step from the end there is no step left to take. */
  lemma EndedByDistance(word: string, guesses: string)
    requires |Misses(word, guesses)| <= HANGMAN_MAX_ATTEMPTS
    requires |Guessed(guesses)| >= |Letters(word)| + 4
    ensures Ended(word, guesses)
  {
    DistanceCountsFreshLetters(word, guesses);
    MaskComplete(word, Guessed(guesses));
    var hidden := Letters(word) - Guessed(guesses);
    if hidden == {} {
      assert forall c :: c in Letters(word) && c !in Guessed(guesses) ==> c in hidden;
    }
  }

  /** Enough letters to end any round. */
  function TwelveLetters(): (letters: string)
    ensures |letters| == 12 && forall i :: 0 <= i < 12 ==> 'a' <= letters[i] <= 'z'
  {
    seq(12, i requires 0 <= i < 12 => ('a' as int + i) as char)
  }

  lemma TwelveGuessed()
    ensures |Guessed(TwelveLetters())| == 12
  {
    var letters := TwelveLetters();
    DistinctCount(letters);
    assert forall c :: c in letters ==> IsAlpha(c) && Lower(c) == c;
    assert Guessed(letters) == Letters(letters);
  }

  lemma {:induction false} FewLetters(word: string)
    ensures |Letters(word)| <= |word|
  {
    if word != "" {
      FewLetters(word[..|word| - 1]);
      assert word == word[..|word| - 1] + [word[|word| - 1]];
      LettersAppend(word[..|word| - 1], word[|word| - 1]);
    }
  }

  lemma {:induction false} NeverUpdating(g: Game, guesses: string)
    requires WellFormed(g) && g.phase == Playing
    ensures After(g, guesses).phase != Updating
    decreases |guesses|
  {
    if guesses != [] {
      NeverUpdating(g, guesses[..|guesses| - 1]);
    }
  }

  lemma {:induction false} WordlessStays(g: Game, guesses: string)
    requires WellFormed(g) && g.phase == Playing && g.word == ""
    ensures After(g, guesses) == g
    decreases |guesses|
  {
    if guesses != [] {
      WordlessStays(g, guesses[..|guesses| - 1]);
    }
  }

  lemma MoreGuessed(before: string, more: string)
    ensures Guessed(more) <= Guessed(before + more)
  {
  }

  /** Whatever was guessed so far, twelve more letters end the round. */
  lemma TwelveMoreEnd(g: Game, before: string)
    requires Fresh(g)
    ensures After(g, before + TwelveLetters()).phase == Initial
  {
    var guesses := before + TwelveLetters();
    NeverUpdating(g, guesses);
    if After(g, guesses).phase == Playing {
      OpenBefore(g, guesses);
      TwelveGuessed();
      FewLetters(g.word);
      MoreGuessed(before, TwelveLetters());
      SubsetCount(Guessed(TwelveLetters()), Guessed(guesses));
      RoundTerminates(g, guesses);
    }
  }

  lemma SubsetCount(a: set<char>, b: set<char>)
    requires a <= b
    ensures |a| <= |b|
  {
    assert b == a + (b - a);
  }

  /** A round just opened can be played to its end if and only if its word is not empty. */
  lemma CanEnd(g: Game)
    requires WellFormed(g) && g.phase == Playing && !g.started
    ensures (exists guesses :: After(g, guesses).phase == Initial) <==> g.word != ""
  {
    if g.word != "" {
      TwelveMoreEnd(g, "");
    } else {
      forall guesses ensures After(g, guesses).phase == Playing {
        WordlessStays(g, guesses);
      }
    }
  }

  /** The verdict of a guess and the ways a round can end, read off the history: a
      round ends as a win or as a loss and never both, and it is won exactly when
      every letter of the word was guessed. */
  lemma VerdictsMatchHistory(g: Game, word: string, before: string, input: char)
    requires Running(g, word, before)
    ensures var guesses, c := before + [input], Lower(input);
            UpdateHangman(g.(phase := Updating), input).1.verdict ==
              if AllGuessed(word, guesses) then Won
              else if |Misses(word, guesses)| == HANGMAN_MAX_ATTEMPTS then Lost
              else if !IsAlpha(input) then Invalid
              else if c in Guessed(before) then Repeated
              else if c in word then Hit
              else Miss
    ensures !(AllGuessed(word, before + [input])
              && |Misses(word, before + [input])| == HANGMAN_MAX_ATTEMPTS)
  {
    var guesses, c := before + [input], Lower(input);
    TurnExtendsHistory(g, word, before, input);
    BegunMatches(g, word, before);
    GuessedStep(before, input);
    MissesStep(word, before, input);
    MaskComplete(word, Guessed(guesses));
    MaskComplete(word, Guessed(before));
    if IsAlpha(c) {
      ScoreExtendsHistory(BeginRound(g.(phase := Updating)), Guessed(before), c);
    }
  }

  /** Every letter of the word was guessed, '_' needing no guess. */
  predicate AllGuessed(word: string, guesses: string) {
    Letters(word) - {HANGMAN_EMPTY_CHARACTER} <= Guessed(guesses)
  }

  /** The same over a whole round. */
  lemma RepliesMatchHistory(g: Game, before: string, input: char)
    requires Fresh(g) && After(g, before).phase == Playing
    ensures Running(After(g, before), g.word, before)
    ensures var verdict := ProcessHangmanState(After(g, before), input, "").1.verdict;
            && (verdict == Won <==> AllGuessed(g.word, before + [input]))
            && (verdict == Lost <==> |Misses(g.word, before + [input])| == HANGMAN_MAX_ATTEMPTS)
            && (verdict == Won || verdict == Lost <==> After(g, before + [input]).phase == Initial)
  {
    assert (before + [input])[..|before|] == before;
    if before != [] {
      OpenBefore(g, before);
      GameRefinesHistory(g, before);
    }
    VerdictsMatchHistory(After(g, before), g.word, before, input);
    GameRefinesHistory(g, before + [input]);
    MaskComplete(g.word, Guessed(before + [input]));
  }

  /** In the initial state any input opens a round on the word drawn, without being scored;
      while an answer is being sent, input changes nothing. */
  lemma ProcessByState(g: Game, input: char, drawn: string)
    requires WellFormed(g) && |drawn| <= HANGMAN_MAX_WORD_LENGTH && NUL !in drawn
    requires g.phase == Initial ==> !g.started
    ensures g.phase == Initial ==>
              ProcessHangmanState(g, input, drawn) == (g.(word := drawn, phase := Playing), Reply(Welcome, "", "", 0))
    ensures g.phase == Updating ==> ProcessHangmanState(g, input, drawn) == (g, Reply(Waiting, "", "", 0))
  {
  }

  // ------------------------------------------------------- what a reply shows

  /** A letter counts as guessed in either case, and nothing else does. */
  lemma GuessedExact(guesses: string, c: char)
    ensures c in Guessed(guesses)
            <==> 'a' <= c <= 'z' && (c in guesses || (c as int - 32) as char in guesses)
  {
    if 'a' <= c <= 'z' {
      var capital := (c as int - 32) as char;
      assert Lower(capital) == c && Lower(c) == c;
    }
  }

  /** What a reply shows, read off the guesses up to and including the one it answers: the
      word with a space between any two places and '_' at those not guessed yet, the
      wrong letters, and how many of five attempts are left. */
  predicate Shows(reply: Reply, word: string, guesses: string) {
    && |reply.masked| == 2 * |word| - 1
    && (forall i :: 0 <= i < |word| ==> reply.masked[2 * i] == if word[i] in Guessed(guesses) then word[i] else '_')
    && (forall i :: 0 <= i < |word| - 1 ==> reply.masked[2 * i + 1] == ' ')
    && reply.wrong == Misses(word, guesses)
    && reply.attempts == 5 - |Misses(word, guesses)|
  }

  lemma {:induction false} SpacedAt(s: string)
    requires s != ""
    ensures |Spaced(s)| == 2 * |s| - 1
    ensures forall i :: 0 <= i < |s| ==> Spaced(s)[2 * i] == s[i]
    ensures forall i :: 0 <= i < |s| - 1 ==> Spaced(s)[2 * i + 1] == ' '
  {
    if |s| > 1 {
      var rest := Spaced(s[1..]);
      SpacedAt(s[1..]);
      assert Spaced(s) == [s[0], ' '] + rest;
      forall i | 0 <= i < |s| ensures Spaced(s)[2 * i] == s[i] {
        assert i > 0 ==> rest[2 * (i - 1)] == s[1..][i - 1];
      }
      forall i | 0 <= i < |s| - 1 ensures Spaced(s)[2 * i + 1] == ' ' {
        assert i > 0 ==> rest[2 * (i - 1) + 1] == ' ';
      }
    }
  }

  /** Every reply shows the state after its own guess. */
  lemma ReplyShows(g: Game, word: string, before: string, input: char)
    requires Running(g, word, before)
    ensures Shows(UpdateHangman(g.(phase := Updating), input).1, word, before + [input])
  {
    BegunMatches(g, word, before);
    LetterExtendsHistory(BeginRound(g.(phase := Updating)), word, before, input);
    SpacedAt(Mask(word, Guessed(before + [input])));
  }

  /** The same over a whole round. */
  lemma RoundReplyShows(g: Game, before: string, input: char)
    requires Fresh(g) && After(g, before).phase == Playing
    ensures Shows(UpdateHangman(After(g, before).(phase := Updating), input).1, g.word, before + [input])
  {
    RepliesMatchHistory(g, before, input);
    ReplyShows(After(g, before), g.word, before, input);
  }

  /** A game without a word answers every guess the same way and stays as it is. */
  lemma WordlessReply(g: Game, input: char)
    requires WellFormed(g) && g.word == ""
    ensures UpdateHangman(g, input) == (g, Reply(NoWord, "", "", 0))
  {
  }
}
