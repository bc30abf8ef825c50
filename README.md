# Voice-controlled piano: command interpreter and game state

This project models, in Dafny, the logic of a small voice-controlled piano game
(`piano_game.py`). A speech recogniser turns microphone input into lines of text.
Each line goes to the command interpreter. The interpreter first lower-cases the
text. It then checks for the keywords "start game", "end game" and "close", in
that order, and the first one found wins. Otherwise, and only while a game is
played, it picks out the note numbers: digit strings, and the names "zero" to
"nine". It hands each number in turn to the key player. The key player checks
the number against the ten keys, plays the sound and moves the single highlight
to that key. The main loop also reacts to the keyboard (Enter, Space, Escape,
the digit keys), to mouse clicks on the key images, to the window being closed,
and to the quit flag.

Layout:

- `text.dfy`, module `Text`: the string operations the interpreter uses, restricted to ASCII. This covers lower-casing, the substring test, splitting on runs of whitespace, the digit-string test and decimal conversion.
- `notes.dfy`, module `Notes`: the word-to-digit table, the number a token stands for, and the token loop that collects the numbers of a command (`ExtractNumbers`).
- `game.dfy`, module `Game`: the class `Piano`. It holds the flags `started`, `ended`, `shouldQuit` and `running`, the highlight pair `highlightedKey`/`highlightTime`, and `played`, a log of every sound played. Its methods are the interpreter, the key player, and the keyboard, mouse and event handlers. The module also holds the pure specifications those methods are proved against: `ControlOf`, `Plays`, `HitNotes` and `KeyStep`.
- `scenarios.dfy`, module `Scenarios`: worked examples on concrete transcripts, and short sessions driven through the `Piano` methods.

The object invariant `Piano.Valid` states four things: the game is never started and ended at once; only keys 0 to 9 ever sound; the highlight is the last note played, or the initial -1 at time 0; and there are ten key rectangles. Every method is proved to keep it.

Time is an integer number of milliseconds and is passed in as a parameter. A note call is modelled as a `Note(key, time)` entry appended to `played`. For a voice command, the k-th number (counting from 0) is handed to the key player at `now + 500 k`. The source pauses 500 ms after every number, including numbers that are out of range.

The model follows the code in these points, which are easy to misread:

- "end game" switches to the Ended phase from any phase, including Idle. It is not limited to a game being played.
- "close" only sets the quit flag. The phase flags are left as they were.
- Escape in the Idle or Ended phase stops the main loop directly. It does not set the quit flag.
- A voice "start game" while a game is played just sets the same flags again.

## Model

| member | source | states |
|---|---|---|
| `Text.Lower` | piano_game.py:74 | The result has the input's length. Each character is the ASCII lower-case form of the input character at the same place. |
| `Text.LowerIdempotent` | piano_game.py:74 | Lower-casing an already lower-cased text changes nothing. |
| `Text.LowerAppend` | piano_game.py:74 | Lower-casing distributes over concatenation, so a keyword keeps its place in the lower-cased text. |
| `Text.Contains` | piano_game.py:75 | Defined as Python's `p in s` for strings. `ContainsIff` characterises it. |
| `Text.ContainsIff` | piano_game.py:75 | The substring test holds exactly when the pattern occurs at some position of the text. Both directions are proved. |
| `Text.ContainsInside` | piano_game.py:75 | A pattern is found whatever text comes before and after it. |
| `Text.NotContainsMissingChar` | piano_game.py:75-84 | A pattern with a character that the text lacks is not found in it. |
| `Text.LowerOfLowerCase` | piano_game.py:74 | A text with no upper-case letter is its own lower-case form. |
| `Text.Split` | piano_game.py:88 | Defined as Python's `str.split()` with no argument: whitespace is skipped, and each maximal run of other characters becomes a token. Its properties are `SplitWords`, `SplitAtSpace` and `SplitJoinWords`. |
| `Text.SplitAtSpace` | piano_game.py:88 | Any whitespace character separates: the split of `a + [c] + b` is the split of `a` followed by the split of `b`. So leading, trailing and repeated whitespace yield no token, and no other character is lost or reordered. |
| `Text.SplitWords` | piano_game.py:88 | Every token of the whitespace split is non-empty and contains no whitespace. |
| `Text.SplitJoinWords` | piano_game.py:88 | Splitting words joined by single spaces gives back exactly those words, in order. |
| `Text.IsDigitString` | piano_game.py:89 | Defined as `str.isdigit()` on ASCII: non-empty and made only of the characters 0 to 9. |
| `Text.DecimalValue` | piano_game.py:90 | Defined as `int(s)` for a digit string: the decimal value, with leading zeros allowed. `DecimalRoundTrip` and `DecimalLeadingZero` characterise it. |
| `Text.DecimalRoundTrip` | piano_game.py:89-90 | Converting the decimal representation of n gives back n. |
| `Text.DecimalLeadingZero` | piano_game.py:89-90 | A leading zero does not change a digit string's value, as with `int("007")`. |
| `Text.SingleDigitValue` | piano_game.py:89-90 | A one-character digit string converts to that digit, which is in 0..9. |
| `Notes.WordTableIsDigitNames` | piano_game.py:67-70 | The table maps the name of each digit 0..9 to that digit. Every entry's value is in 0..9 and is the digit its key names. |
| `Notes.TokenNote` | piano_game.py:89-92 | A token yields at most one number. A digit string yields its decimal value, which may exceed 9. The name of digit d, taken from the list of digit names rather than the table, yields d. A token that is neither yields nothing. |
| `Notes.NotesOf` | piano_game.py:87-92 | The numbers of a token list, one per token that stands for a number, in token order. There are never more numbers than tokens. |
| `Notes.NotesOfAppend` | piano_game.py:87-92 | Collecting numbers distributes over concatenation of token lists, so the numbers keep the order of their tokens. |
| `Notes.NotesOfFromTokens` | piano_game.py:87-92 | Every collected number is non-negative and comes from some token of the command. |
| `Notes.NotesOfSkipsOthers` | piano_game.py:89-92 | Tokens that are neither digit strings nor table words contribute nothing. |
| `Notes.NotesOfDigitNames` | piano_game.py:91-92 | A list of digit names yields those digits, in the same order. |
| `Notes.ExtractNumbers` | piano_game.py:86-92 | The token loop returns exactly the numbers of the split tokens, in token order. |
| `Notes.NotesOfWordThenNames` | piano_game.py:86-92 | A command of one word that names no note, followed by digit names separated by spaces, yields exactly those digits in order. |
| `Notes.DecimalTokenNote` | piano_game.py:89-90 | The decimal string of any n yields n. So "10" yields 10, a number outside the ten keys. |
| `Game.ControlOf` | piano_game.py:74-84 | Defined as the keyword test on the lower-cased transcript, in the order "start game", "end game", "close". The three lemmas below state its behaviour. |
| `Game.StartGameAnywhere` | piano_game.py:74-77 | "start game", in any letter case and anywhere in the transcript, makes it a start command, whatever else it holds. |
| `Game.EndGameAnywhere` | piano_game.py:78-80 | "end game" in any letter case makes the transcript an end command, unless it also holds "start game". |
| `Game.CloseAnywhere` | piano_game.py:81-84 | "close" in any letter case makes the transcript a close command, unless it also holds "start game" or "end game". |
| `Game.Plays` | piano_game.py:93-95 | Defined as the notes that sound when the numbers are handed to the key player one every 500 ms. Out-of-range numbers sound nothing but still take their turn. `PlaysSnoc`, `PlaysKeys` and `PlaysInOrder` characterise it. |
| `Game.PlaysSnoc` | piano_game.py:93-95 | One more number adds its note at its own turn (start + 500 times its position) if it names a key, and nothing otherwise. |
| `Game.PlaysKeys` | piano_game.py:62-64 | The keys that sound are exactly the in-range numbers, in their original order. |
| `Game.PlaysInOrder` | piano_game.py:93-95 | The notes of one command sound no earlier than its start time, each strictly after the previous one. |
| `Game.Collides` | piano_game.py:133 | Defined as `Rect.collidepoint`: the left and top edges are inside, the right and bottom edges are outside. |
| `Game.KeyRects` | piano_game.py:24 | Key i's rectangle is at (50 + 70 i, 300) with its image's size. There is one rectangle per image. |
| `Game.HitNotes` | piano_game.py:130-134 | Defined as the notes of a click, over the keys in order. There are never more notes than keys. `HitNotesExact` characterises it. |
| `Game.HitNotesExact` | piano_game.py:130-134 | A click sounds exactly the keys whose rectangles hold the point, each once, all at the click's time, in increasing key order. |
| `Game.KeyStepLeavesPlayingOnlyByEscape` | piano_game.py:109-128 | Only Escape leaves a game being played, and it leads to Ended. Only Enter or Space leaves Idle, and they lead to Playing. |
| `Game.KeyStep` | piano_game.py:109-128 | The transitions are these. Enter or Space in Idle or Ended starts a game. Escape in Idle or Ended stops the loop and keeps the phase. Escape during a game goes to Ended. Digit key k during a game plays key k; none of the other transitions plays anything. Any other key changes nothing: the phase stays, the loop runs on and no note sounds. Conversely, only Escape stops the loop, only Enter or Space enters Playing, and only Escape during a game enters Ended. |
| `Scenarios.PlayThreeFiveNine` | piano_game.py:86-92 | "play three five nine" yields [3, 5, 9]. |
| `Scenarios.PlayOneTwoThree` | piano_game.py:74-92 | "play one two three" has no control keyword and yields the numbers [1, 2, 3]. |
| `Scenarios.StartGameAlone` | piano_game.py:74-77 | "start game" alone is a start command. |
| `Scenarios.EndGameAlone` | piano_game.py:78-80 | "end game" alone is an end command. |
| `Scenarios.PleaseCloseTheAppNow` | piano_game.py:81-84 | "please close the app now" is a close command. |
| `Scenarios.PlaysThreeKeys` | piano_game.py:93-95 | Three keys handed over in turn sound at now, now + 500 and now + 1000. |
| `Game.Piano.Valid` | piano_game.py:55-65 | The object invariant: never started and ended at once, ten key rectangles, only keys 0 to 9 ever sound, and the highlight is the last note played or the initial -1 at time 0. Every method keeps it. |
| `Game.Piano.IsHighlighted` | piano_game.py:142-147 | Defined as the drawing test: during a game, key i is drawn highlighted when it is the highlighted key and was played less than 300 ms ago. `PlayKey` proves the key just played is the only one drawn highlighted. |
| `Game.Piano.constructor` | piano_game.py:11-100 | The initial state: Idle, not quitting, running, no note played, highlight -1 at time 0, each key rectangle at (50 + 70 i, 300) with its image's size. |
| `Game.Piano.PlayKey` | piano_game.py:60-65 | An index in 0..9 is played and becomes the highlight at time `now`, and during a game it is then the only key drawn highlighted. Any other index changes nothing. The invariant is kept. |
| `Game.Piano.ProcessCommand` | piano_game.py:72-95 | "start game" gives Playing, "end game" gives Ended and "close" sets the quit flag; each of these plays nothing. With no keyword and no game being played, nothing changes. With no keyword during a game, the command's notes are played in order, the flags stay, and the highlight is the last key played, or unchanged when none was. The quit flag never goes back to false. |
| `Game.Piano.PlayNumbers` | piano_game.py:93-95 | Each number goes to the key player in turn, 500 ms apart. The new notes are `Plays(numbers, now)`. The highlight is the last of them, or unchanged when there is none. |
| `Game.Piano.HandleKeyDown` | piano_game.py:109-128 | The new phase, the running flag, the notes played and the highlight are those `KeyStep` gives for the old phase and the key. The invariant is kept. |
| `Game.Piano.HandleClick` | piano_game.py:130-134 | The notes played are `HitNotes` of the key rectangles at the click. An empty hit changes nothing. |
| `Game.Piano.HandleEvent` | piano_game.py:105-134 | Window close stops the loop. A key press follows `KeyStep`. A click plays what it hits, but only during a game. Any other event changes nothing. |
| `Game.Piano.RunFrame` | piano_game.py:101-158 | After a frame's events and the quit-flag check, the loop runs only if it ran before and the quit flag is not set. Notes played earlier stay in the log. |

## Left out

- The console message `print("Close command received.")` of the close branch (piano_game.py:82): it is output only, and no state depends on it.
- Audio capture, the queue, the Vosk recogniser and its JSON results (piano_game.py:33-53): these are I/O and a foreign speech library. The transcripts are the `command` argument of `ProcessCommand`.
- The background recognition thread and its unsynchronised sharing of the globals with the main loop: each voice command and each event is modelled as one sequential step on the same `Piano` object.
- The pygame set-up, asset loading and all drawing (piano_game.py:10-30, 136-159): the ten sounds are the `played` log. The only pixel facts kept are the key rectangles' positions. Their sizes, which come from the key images, are a constructor parameter.
- `Game.Piano.PlayNumbers`: the k-th note's time is the idealised `now + 500 k`. The real `time.time()` after `pygame.time.delay(500)` is only at least that.
- Floating-point seconds: times are integer milliseconds. `IsHighlighted` uses a 300 ms window for the source's 0.3 s.
- `Text.DecimalValue`: it has no error path. Python's `int` raises `ValueError` on a digit string longer than 4300 characters, which is the default limit since Python 3.11. It also raises on characters such as "²" that `isdigit` accepts. Either exception escapes `process_command` and ends the recognition thread. The model accepts digit strings of any length, and its ASCII-only `IsDigitString` never accepts "²".
- Unicode: `str.lower`, `str.isdigit` and `str.split` are modelled on ASCII only, with the ASCII whitespace set of `str.split`. Non-ASCII digit characters, which Python's `isdigit` accepts, are not modelled.
- The mouse position is the event's `(x, y)` rather than a separate `pygame.mouse.get_pos()` call.
- `Game.Piano.RunFrame`: its contract does not give the frame's exact new state. That state is given event by event by `HandleEvent`, which `RunFrame` calls in order.
- The outer `while running` loop and `pygame.quit()` are not modelled. `running` is a field that the handlers and `RunFrame` clear.
