/**
 * Worked examples on concrete transcripts and a few short sessions driven
 * through the `Piano` methods. Each fact about a literal string is its own
 * small lemma.
 */
module Scenarios {
  import opened Text
  import opened Notes
  import opened Game

  // ---------------------------------------------------------------------------
  // "play three five nine"

  /** While a game is played, "play three five nine" yields 3, 5, 9 in that order. */
  lemma PlayThreeFiveNine(s: string)
    requires s == "play three five nine"
    ensures NotesOf(Split(Lower(s))) == [3, 5, 9]
  {
    ThreeFiveNineIsLower(s);
    NotesOfThreeFiveNine(s);
  }

  lemma ThreeFiveNineIsLower(s: string)
    requires s == "play three five nine"
    ensures Lower(s) == s
  {
    LowerOfLowerCase(s);
  }

  lemma NotesOfThreeFiveNine(s: string)
    requires s == "play three five nine"
    ensures NotesOf(Split(s)) == [3, 5, 9]
  {
    var ws := ["three", "five", "nine"];
    JoinThreeFiveNine(s, ws);
    PlayIsNoNote("play");
    NamesThreeFiveNine(ws);
    NotesOfWordThenNames("play", ws, [3, 5, 9]);
  }


  lemma JoinThreeFiveNine(s: string, ws: seq<string>)
    requires s == "play three five nine" && ws == ["three", "five", "nine"]
    ensures JoinWords(["play"] + ws) == s
  {
    var all := ["play"] + ws;
    assert all[1..] == ws && ws[1..] == ["five", "nine"] && ws[2..] == ["nine"];
    assert JoinWords(ws[2..]) == "nine";
    assert JoinWords(ws[1..]) == "five nine";
    assert JoinWords(ws) == "three five nine";
  }

  lemma NamesThreeFiveNine(ws: seq<string>)
    requires ws == ["three", "five", "nine"]
    ensures forall k :: 0 <= k < 3 ==> 0 <= [3, 5, 9][k] < 10 && ws[k] == DigitWords[[3, 5, 9][k]]
  {
  }

  /** "play" is a word that names no note. */
  lemma PlayIsNoNote(w: string)
    requires w == "play"
    ensures IsWord(w) && TokenNote(w) == []
  {
    assert !IsDigitChar(w[0]);
  }

  // ---------------------------------------------------------------------------
  // "play one two three"

  /** "play one two three" carries no control keyword and names the notes 1, 2, 3. */
  lemma PlayOneTwoThree(s: string)
    requires s == "play one two three"
    ensures ControlOf(s) == NoControl
    ensures NotesOf(Split(Lower(s))) == [1, 2, 3]
  {
    OneTwoThreeIsLower(s);
    NoControlInOneTwoThree(s);
    ControlOfLowerCase(s);
    NotesOfOneTwoThree(s);
  }

  lemma OneTwoThreeIsLower(s: string)
    requires s == "play one two three"
    ensures Lower(s) == s
  {
    LowerOfLowerCase(s);
  }

  lemma NoControlInOneTwoThree(s: string)
    requires s == "play one two three"
    ensures !Contains(s, StartGame) && !Contains(s, EndGame) && !Contains(s, CloseWord)
  {
    NoGInOneTwoThree(s);
    NoCInOneTwoThree(s);
    NotContainsMissingChar(s, StartGame, 6);
    NotContainsMissingChar(s, EndGame, 4);
    NotContainsMissingChar(s, CloseWord, 0);
  }

  lemma NotesOfOneTwoThree(s: string)
    requires s == "play one two three"
    ensures NotesOf(Split(s)) == [1, 2, 3]
  {
    var ws := ["one", "two", "three"];
    JoinOneTwoThree(s, ws);
    PlayIsNoNote("play");
    NamesOneTwoThree(ws);
    NotesOfWordThenNames("play", ws, [1, 2, 3]);
  }

  lemma NoGInOneTwoThree(s: string)
    requires s == "play one two three"
    ensures StartGame[6] !in s && EndGame[4] !in s
  {
    assert StartGame[6] == 'g' && EndGame[4] == 'g';
  }

  lemma NoCInOneTwoThree(s: string)
    requires s == "play one two three"
    ensures CloseWord[0] !in s
  {
    assert CloseWord[0] == 'c';
  }


  lemma JoinOneTwoThree(s: string, ws: seq<string>)
    requires s == "play one two three" && ws == ["one", "two", "three"]
    ensures JoinWords(["play"] + ws) == s
  {
    var all := ["play"] + ws;
    assert all[1..] == ws && ws[1..] == ["two", "three"] && ws[2..] == ["three"];
    assert JoinWords(ws[2..]) == "three";
    assert JoinWords(ws[1..]) == "two three";
    assert JoinWords(ws) == "one two three";
  }

  lemma NamesOneTwoThree(ws: seq<string>)
    requires ws == ["one", "two", "three"]
    ensures forall k :: 0 <= k < 3 ==> 0 <= [1, 2, 3][k] < 10 && ws[k] == DigitWords[[1, 2, 3][k]]
  {
  }

  // ---------------------------------------------------------------------------
  // Control keywords alone and in a sentence

  /** "start game" alone is a start command. */
  lemma StartGameAlone(s: string)
    requires s == StartGame
    ensures ControlOf(s) == StartControl
  {
    StartGameIsLower(s);
    ContainsIff(s, StartGame);
    assert OccursAt(s, StartGame, 0);
    ControlOfLowerCase(s);
  }

  lemma StartGameIsLower(s: string)
    requires s == StartGame
    ensures Lower(s) == s
  {
    LowerOfLowerCase(s);
  }

  /** "end game" alone is an end command. */
  lemma EndGameAlone(s: string)
    requires s == EndGame
    ensures ControlOf(s) == EndControl
  {
    EndGameIsLower(s);
    KeywordsInEndGame(s);
    ControlOfLowerCase(s);
  }

  lemma EndGameIsLower(s: string)
    requires s == EndGame
    ensures Lower(s) == s
  {
    LowerOfLowerCase(s);
  }

  lemma KeywordsInEndGame(s: string)
    requires s == EndGame
    ensures !Contains(s, StartGame) && Contains(s, EndGame)
  {
    NoTInEndGame(s);
    NotContainsMissingChar(s, StartGame, 1);
    ContainsIff(s, EndGame);
    assert OccursAt(s, EndGame, 0);
  }

  lemma NoTInEndGame(s: string)
    requires s == EndGame
    ensures StartGame[1] !in s
  {
    assert StartGame[1] == 't';
  }

  /** "please close the app now" is a close command. */
  lemma PleaseCloseTheAppNow(s: string)
    requires s == "please close the app now"
    ensures ControlOf(s) == CloseControl
  {
    PleaseCloseIsLower(s);
    KeywordsInPleaseClose(s);
    ControlOfLowerCase(s);
  }

  lemma PleaseCloseIsLower(s: string)
    requires s == "please close the app now"
    ensures Lower(s) == s
  {
    LowerOfLowerCase(s);
  }

  lemma KeywordsInPleaseClose(s: string)
    requires s == "please close the app now"
    ensures !Contains(s, StartGame) && !Contains(s, EndGame) && Contains(s, CloseWord)
  {
    NoGInPleaseClose(s);
    NotContainsMissingChar(s, StartGame, 6);
    NotContainsMissingChar(s, EndGame, 4);
    CloseInPleaseClose(s);
    ContainsIff(s, CloseWord);
  }

  lemma NoGInPleaseClose(s: string)
    requires s == "please close the app now"
    ensures StartGame[6] !in s && EndGame[4] !in s
  {
    assert StartGame[6] == 'g' && EndGame[4] == 'g';
  }

  lemma CloseInPleaseClose(s: string)
    requires s == "please close the app now"
    ensures OccursAt(s, CloseWord, 7)
  {
    assert s[7..12] == "close";
  }

  // ---------------------------------------------------------------------------
  // Sessions

  /** Three keys handed over in turn sound one `NoteDelayMs` apart. */
  lemma PlaysThreeKeys(a: int, b: int, c: int, now: int)
    requires InRange(a) && InRange(b) && InRange(c)
    ensures Plays([a, b, c], now) == [Note(a, now), Note(b, now + NoteDelayMs), Note(c, now + 2 * NoteDelayMs)]
  {
    assert [a, b, c][1..] == [b, c] && [b, c][1..] == [c] && [c][1..] == [];
    assert Plays([c], now + 2 * NoteDelayMs) == [Note(c, now + 2 * NoteDelayMs)];
    assert Plays([b, c], now + NoteDelayMs) == [Note(b, now + NoteDelayMs), Note(c, now + 2 * NoteDelayMs)];
  }

  /** Voice commands from the initial state: "start game", "play one two three"
      (three notes in order, the last one highlighted), then "end game". */
  method VoiceSession(keySizes: seq<(int, int)>, now: int)
    requires |keySizes| == KeyCount
  {
    var p := new Piano(keySizes);
    var start, play, end := StartGame, "play one two three", EndGame;
    StartGameAlone(start);
    p.ProcessCommand(start, now);
    assert p.Phase() == Playing;

    PlayOneTwoThree(play);
    PlaysThreeKeys(1, 2, 3, now);
    p.ProcessCommand(play, now);
    assert p.played == [Note(1, now), Note(2, now + 500), Note(3, now + 1000)];
    assert p.highlightedKey == 3 && p.Phase() == Playing;

    EndGameAlone(end);
    p.ProcessCommand(end, now + 2000);
    assert p.Phase() == Ended;
  }

  /** From a game that has ended, Enter starts a new one. */
  method RestartByEnter(p: Piano, now: int)
    requires p.Valid() && p.Phase() == Ended
    modifies p
  {
    assert KeyStep(Ended, KeyReturn) == KeyEffect(Playing, false, []);
    p.HandleKeyDown(KeyReturn, now);
    assert p.Phase() == Playing && p.running == old(p.running);
  }

  /** In any state, a close command such as "please close the app now" sets the
      quit flag, and the next frame stops the loop. */
  method CloseByVoice(p: Piano, command: string, now: int)
    requires p.Valid()
    requires ControlOf(command) == CloseControl
    modifies p
  {
    p.ProcessCommand(command, now);
    assert p.shouldQuit && p.Phase() == old(p.Phase());
    p.RunFrame([], now);
    assert !p.running;
  }
}
