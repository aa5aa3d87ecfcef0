/** The hangman machine in place (hangman.c): fixed buffers updated by loops, proved to
    compute the value model of module Hangman. */
module HangmanMachine {
  import opened CText
  import opened Hangman
  import opened WordChoice

  /** Buffer `a` holds the C string `s`. */
  ghost predicate Holds(a: array<char>, s: string)
    reads a
  {
    |s| < a.Length && a[..|s|] == s && a[|s|] == NUL && NUL !in s
  }

  /** `strlen`. */
  method StrLen(a: array<char>, ghost s: string) returns (n: nat)
    requires Holds(a, s)
    ensures n == |s|
  {
    assert forall k :: 0 <= k < |s| ==> a[k] == s[k] && s[k] in s;
    n := 0;
    while a[n] != NUL
      invariant n <= |s|
      decreases |s| - n
    {
      n := n + 1;
    }
  }

  /** `strncpy(a, s, bound)` followed by `a[bound] = '\0'`. */
  method StrNCpy(a: array<char>, s: string, bound: nat)
    requires bound < a.Length && |s| <= bound && NUL !in s
    modifies a
    ensures Holds(a, s)
  {
    for i := 0 to bound
      invariant forall k :: 0 <= k < i ==> a[k] == if k < |s| then s[k] else NUL
    {
      a[i] := if i < |s| then s[i] else NUL;
    }
    a[bound] := NUL;
  }

  /** The loop over the letters in a buffer, to one of them or to the end. */
  method ScanFor(letters: array<char>, ghost s: string, c: char) returns (found: bool, i: nat)
    requires Holds(letters, s) && c != NUL
    ensures found == (c in s) && (!found ==> i == |s|)
  {
    assert forall k :: 0 <= k < |s| ==> letters[k] == s[k] && s[k] in s;
    found, i := false, 0;
    while letters[i] != NUL
      invariant i <= |s| && c !in s[..i]
      decreases |s| - i
    {
      if letters[i] == c {
        found := true;
        return;
      }
      i := i + 1;
    }
    assert s[..i] == s;
  }

  /** The loop that puts a letter in all its places. */
  method Uncover(word: array<char>, shown: array<char>, length: nat, c: char)
    requires word != shown && length <= word.Length && length <= shown.Length
    modifies shown
    ensures forall k :: 0 <= k < shown.Length ==>
              shown[k] == if k < length && word[k] == c then c else old(shown[k])
  {
    for i := 0 to length
      invariant forall k :: 0 <= k < shown.Length ==>
                  shown[k] == if k < i && word[k] == c then c else old(shown[k])
    {
      if word[i] == c {
        shown[i] := c;
      }
    }
  }

  class HangmanFsm {
    var state: Phase
    const hangmanWord: array<char>
    const guessedLetters: array<char>
    var attemptsLeft: int
    const revealedWord: array<char>
    var roundInitialized: bool
    ghost var game: Game

    ghost predicate Valid()
      reads this, hangmanWord, guessedLetters, revealedWord
    {
      && hangmanWord.Length == HANGMAN_MAX_WORD_LENGTH + 1
      && guessedLetters.Length == HANGMAN_MAX_ATTEMPTS + 1
      && revealedWord.Length == HANGMAN_MAX_WORD_LENGTH + 1
      && hangmanWord != revealedWord && hangmanWord != guessedLetters && revealedWord != guessedLetters
      && Holds(hangmanWord, game.word) && Holds(guessedLetters, game.wrong) && Holds(revealedWord, game.revealed)
      && game.phase == state && game.attempts == attemptsLeft && game.started == roundInitialized
      && WellFormed(game)
    }

    /** The zeroed global. */
    constructor ()
      ensures Valid() && game == Game(Initial, "", "", 0, "", false)
      ensures fresh(hangmanWord) && fresh(guessedLetters) && fresh(revealedWord)
    {
      state, attemptsLeft, roundInitialized := Initial, 0, false;
      hangmanWord := new char[HANGMAN_MAX_WORD_LENGTH + 1](_ => NUL);
      guessedLetters := new char[HANGMAN_MAX_ATTEMPTS + 1](_ => NUL);
      revealedWord := new char[HANGMAN_MAX_WORD_LENGTH + 1](_ => NUL);
      game := Game(Initial, "", "", 0, "", false);
    }

    /** `set_random_word`, reading the word file `file`. */
    method SetRandomWord(file: string, rands: seq<nat>)
      requires Valid() && !game.started
      modifies this`game, hangmanWord
      ensures Valid() && game == old(game).(word := Chosen(old(game).word, file, rands))
    {
      var rest, count := file, 0;
      ghost var lines := [];
      ghost var first := game.word;
      while rest != ""
        invariant Valid() && game == old(game).(word := Reservoir(first, lines, rands))
        invariant lines + FgetsAll(rest, 1024) == FgetsAll(file, 1024)
        invariant count == |Eligible(lines)|
        decreases |rest|
      {
        var k := FgetsLen(rest, 1024);
        var line := rest[..k];
        FgetsNext(lines, rest, 1024);
        ReservoirStep(first, lines, line, rands);
        rest, lines := rest[k..], lines + [line];
        var word := WordOf(line);
        if |word| <= HANGMAN_MAX_WORD_LENGTH {
          count := count + 1;
          Consider(word, Rand(rands, count - 1) % count);
        }
      }
      assert lines + [] == lines;
    }

    /** Keep the newest word if its draw is 0. */
    method Consider(word: string, draw: nat)
      requires Valid() && !game.started && |word| <= HANGMAN_MAX_WORD_LENGTH && NUL !in word
      modifies this`game, hangmanWord
      ensures Valid() && game == if draw == 0 then old(game).(word := word) else old(game)
    {
      if draw == 0 {
        StrNCpy(hangmanWord, word, HANGMAN_MAX_WORD_LENGTH);
        game := game.(word := word);
      }
    }

    /** The first guess of a round. */
    method StartRound()
      requires Valid() && game.word != ""
      modifies this, guessedLetters, revealedWord
      ensures Valid() && game == BeginRound(old(game))
    {
      if !roundInitialized {
        var wordLength := StrLen(hangmanWord, game.word);
        ghost var begun := BeginRound(game);
        StrNCpy(revealedWord, seq(wordLength, _ => HANGMAN_EMPTY_CHARACTER), wordLength);
        StrNCpy(guessedLetters, "", HANGMAN_MAX_ATTEMPTS);
        attemptsLeft := HANGMAN_MAX_ATTEMPTS;
        roundInitialized := true;
        game := begun;
      }
    }

    /** The first scan: is the letter in the word, and is it showing somewhere? */
    method FindLetter(c: char) returns (foundLetter: bool, alreadyGuessed: bool)
      requires Valid() && game.started
      ensures foundLetter <==> c in game.word
      ensures alreadyGuessed <==> exists i :: 0 <= i < |game.word| && game.word[i] == c && game.revealed[i] == c
    {
      var wordLength := StrLen(hangmanWord, game.word);
      foundLetter, alreadyGuessed := false, false;
      for i := 0 to wordLength
        invariant foundLetter <==> c in game.word[..i]
        invariant alreadyGuessed <==> exists k :: 0 <= k < i && game.word[k] == c && game.revealed[k] == c
      {
        assert hangmanWord[i] == hangmanWord[..wordLength][i] == game.word[i];
        assert revealedWord[i] == revealedWord[..wordLength][i] == game.revealed[i];
        if hangmanWord[i] == c {
          foundLetter := true;
          if revealedWord[i] == c { alreadyGuessed := true; }
        }
        assert game.word[..i + 1] == game.word[..i] + [game.word[i]];
      }
      assert game.word[..wordLength] == game.word;
    }

    method RevealLetter(c: char)
      requires Valid() && game.started && c != NUL
      modifies this`game, revealedWord
      ensures Valid() && game == Reveal(old(game), c)
    {
      var wordLength := StrLen(hangmanWord, game.word);
      ghost var shown, after := game.revealed, Reveal(game, c);
      assert forall k :: 0 <= k < |shown| ==> revealedWord[k] == shown[k] && shown[k] in shown;
      Uncover(hangmanWord, revealedWord, wordLength, c);
      assert forall k :: 0 <= k < wordLength ==> hangmanWord[k] == hangmanWord[..wordLength][k];
      assert revealedWord[..wordLength] == after.revealed;
      game := after;
    }

    /** The scan and update of `guessed_letters` for a letter not in the word. */
    method NoteMiss(c: char) returns (alreadyGuessed: bool)
      requires Valid() && game.started && c != NUL
      modifies this`game, this`attemptsLeft, guessedLetters
      ensures Valid() && alreadyGuessed == (c in old(game).wrong)
      ensures game == if alreadyGuessed then old(game) else CountMiss(old(game), c)
    {
      ghost var wrong := game.wrong;
      var i;
      alreadyGuessed, i := ScanFor(guessedLetters, wrong, c);
      if alreadyGuessed { return; }
      ghost var after := CountMiss(game, c);
      if i < HANGMAN_MAX_ATTEMPTS {
        guessedLetters[i] := c;
        guessedLetters[i + 1] := NUL;
        assert guessedLetters[..i + 1] == wrong + [c];
      }
      if attemptsLeft > 0 {
        attemptsLeft := attemptsLeft - 1;
      }
      game := after;
    }

    /** The masked word: its places with a space between any two. */
    method MaskedWord() returns (masked: string)
      requires Valid() && game.started
      ensures masked == Spaced(game.revealed)
    {
      var wordLength := StrLen(hangmanWord, game.word);
      masked := "";
      ghost var shown := game.revealed;
      for i := 0 to wordLength
        invariant i < wordLength ==> masked + Spaced(shown[i..]) == Spaced(shown)
        invariant i == wordLength ==> masked == Spaced(shown)
      {
        assert revealedWord[i] == revealedWord[..wordLength][i] == shown[i];
        assert shown[i..][1..] == shown[i + 1..];
        masked := masked + [revealedWord[i]];
        if i < wordLength - 1 {
          assert masked + [' '] + Spaced(shown[i + 1..]) == masked[..|masked| - 1] + ([shown[i], ' '] + Spaced(shown[i + 1..]));
          masked := masked + [' '];
        } else {
          assert masked == masked[..|masked| - 1] + Spaced(shown[i..]);
        }
      }
    }

    /** `strcmp(revealed_word, hangman_word) == 0`. */
    method WordIsOut() returns (same: bool)
      requires Valid() && game.started
      ensures same <==> game.revealed == game.word
    {
      var wordLength := StrLen(hangmanWord, game.word);
      ghost var word, shown := game.word, game.revealed;
      for i := 0 to wordLength
        invariant shown[..i] == word[..i]
      {
        assert revealedWord[i] == revealedWord[..wordLength][i] == shown[i];
        assert hangmanWord[i] == hangmanWord[..wordLength][i] == word[i];
        if revealedWord[i] != hangmanWord[i] { return false; }
      }
      return true;
    }

    /** `update_hangman`. */
    method Update(input: char) returns (reply: Reply)
      requires Valid()
      modifies this, guessedLetters, revealedWord
      ensures Valid() && (game, reply) == UpdateHangman(old(game), input)
    {
      assert game.word != "" ==> hangmanWord[0] == game.word[0] && game.word[0] in game.word;
      if hangmanWord[0] == NUL {
        return Reply(NoWord, "", "", 0);
      }
      StartRound();
      var c := Lower(input);
      var foundLetter, alreadyGuessed := false, false;
      if IsAlpha(c) {
        foundLetter, alreadyGuessed := ScoreLetter(c);
      }
      reply := Conclude(c, foundLetter, alreadyGuessed);
    }

    /** Scoring a letter, in place. */
    method ScoreLetter(c: char) returns (foundLetter: bool, alreadyGuessed: bool)
      requires Valid() && game.started && c != NUL
      modifies this`game, this`attemptsLeft, guessedLetters, revealedWord
      ensures Valid() && game == Score(old(game), c)
      ensures foundLetter == (c in old(game).word) && alreadyGuessed == AlreadyGuessed(old(game), c)
    {
      foundLetter, alreadyGuessed := FindLetter(c);
      if foundLetter && !alreadyGuessed {
        RevealLetter(c);
      } else if !foundLetter {
        alreadyGuessed := NoteMiss(c);
      }
    }

    /** The end of `update_hangman`: what to answer, and whether the round is over. */
    method Conclude(c: char, foundLetter: bool, alreadyGuessed: bool) returns (reply: Reply)
      requires Valid() && game.started
      modifies this
      ensures Valid()
      ensures var g := old(game);
              reply == Reply(if g.revealed == g.word then Won
                             else if g.attempts <= 0 then Lost
                             else if !IsAlpha(c) then Invalid
                             else if alreadyGuessed then Repeated
                             else if foundLetter then Hit
                             else Miss, Spaced(g.revealed), g.wrong, g.attempts)
              && game == if g.revealed == g.word || g.attempts <= 0 then g.(phase := Initial, started := false) else g
    {
      var masked := MaskedWord();
      var wrongLength := StrLen(guessedLetters, game.wrong);
      var wrong := guessedLetters[..wrongLength];
      var won := WordIsOut();
      if won || attemptsLeft <= 0 {
        reply := Reply(if won then Won else Lost, masked, wrong, attemptsLeft);
        state, roundInitialized := Initial, false;
        game := game.(phase := Initial, started := false);
        return;
      }
      reply := Reply(if !IsAlpha(c) then Invalid else if alreadyGuessed then Repeated else if foundLetter then Hit else Miss,
                     masked, wrong, attemptsLeft);
    }

    /** `process_hangman_state`. */
    method Process(input: char, file: string, rands: seq<nat>) returns (reply: Reply)
      requires Valid() && (game.phase == Initial ==> !game.started)
      modifies this, hangmanWord, guessedLetters, revealedWord
      ensures Valid()
      ensures (game, reply) == ProcessHangmanState(old(game), input, Chosen(old(game).word, file, rands))
    {
      match state
      case Initial =>
        SetRandomWord(file, rands);
        state := Playing;
        game := game.(phase := Playing);
        reply := Reply(Welcome, "", "", 0);
      case Playing =>
        state := Updating;
        game := game.(phase := Updating);
        reply := Update(input);
      case Updating =>
        reply := Reply(Waiting, "", "", 0);
    }

    /** `hangman_finish_broadcast`. */
    method Finish()
      requires Valid()
      modifies this
      ensures Valid() && game == FinishBroadcast(old(game))
    {
      if state == Updating {
        state := Playing;
        game := game.(phase := Playing);
      }
    }
  }
}
