/**
 * The game state of the voice-controlled piano: the two phase flags, the quit
 * flag, the main loop's running flag, the single highlighted key, and the
 * handlers that change them: the voice command interpreter, the key player, and
 * the keyboard, mouse and window events of the main loop.
 */
module Game {
  import opened Text
  import opened Notes

  /** Ten keys, ten sounds. */
  const KeyCount := 10
  /** The pause after each note of a voice command, in milliseconds. */
  const NoteDelayMs := 500
  /** How long a played key stays highlighted, in milliseconds. */
  const HighlightWindowMs := 300

  /** The pygame key codes the handler looks at. */
  const KeyReturn := 13
  const KeyEscape := 27
  const KeySpace := 32
  const Key0 := 48
  const Key9 := 57

  /** The control keywords, tested in this order on the lower-cased transcript. */
  const StartGame := "start game"
  const EndGame := "end game"
  const CloseWord := "close"

  /** One sound played: which key, and when (milliseconds). */
  datatype Note = Note(key: int, time: int)

  /** Idle: neither flag set; Playing: started; Ended: ended. */
  datatype Phase = Idle | Playing | Ended

  /** The control keyword a transcript carries, if any. */
  datatype Control = StartControl | EndControl | CloseControl | NoControl

  /** An axis-aligned screen rectangle, as pygame's `Rect`. */
  datatype Rect = Rect(x: int, y: int, w: int, h: int)

  /** The events the main loop reacts to; any other event is `OtherEvent`. */
  datatype Event = Quit | KeyDown(key: int) | MouseDown(x: int, y: int) | OtherEvent

  /** What a key press does in a phase: the next phase, whether the main loop
      stops, and the key (at most one) to play. */
  datatype KeyEffect = KeyEffect(next: Phase, stop: bool, play: seq<int>)

  predicate InRange(i: int)
  {
    0 <= i < KeyCount
  }

  predicate IsStartKey(key: int)
  {
    key == KeyReturn || key == KeySpace
  }

  predicate IsDigitKey(key: int)
  {
    Key0 <= key <= Key9
  }

  /** pygame's `Rect.collidepoint`: the right and bottom edges are outside. */
  predicate Collides(r: Rect, px: int, py: int)
  {
    r.x <= px < r.x + r.w && r.y <= py < r.y + r.h
  }

  /** The key rectangles: key `i` at (50 + 70 i, 300), sized as its image. */
  function KeyRects(sizes: seq<(int, int)>): (rs: seq<Rect>)
    ensures |rs| == |sizes|
  {
    seq(|sizes|, i requires 0 <= i < |sizes| => Rect(50 + i * 70, 300, sizes[i].0, sizes[i].1))
  }

  // ---------------------------------------------------------------------------
  // Control keywords

  /** The control keyword of a transcript; "start game" wins over "end game",
      which wins over "close", whatever else the text holds. */
  function ControlOf(command: string): Control
  {
    var lc := Lower(command);
    if Contains(lc, StartGame) then StartControl
    else if Contains(lc, EndGame) then EndControl
    else if Contains(lc, CloseWord) then CloseControl
    else NoControl
  }

  /** For a lower-case transcript, the control keyword is read off the
      keyword occurrences directly, in precedence order. */
  lemma ControlOfLowerCase(s: string)
    requires Lower(s) == s
    ensures Contains(s, StartGame) ==> ControlOf(s) == StartControl
    ensures !Contains(s, StartGame) && Contains(s, EndGame) ==> ControlOf(s) == EndControl
    ensures !Contains(s, StartGame) && !Contains(s, EndGame) && Contains(s, CloseWord) ==> ControlOf(s) == CloseControl
    ensures !Contains(s, StartGame) && !Contains(s, EndGame) && !Contains(s, CloseWord) ==> ControlOf(s) == NoControl
  {
  }

  /** "start game" written in any letter case anywhere in a transcript makes it a
      start command, whatever surrounds it. */
  lemma StartGameAnywhere(pre: string, kw: string, post: string)
    requires Lower(kw) == StartGame
    ensures ControlOf(pre + kw + post) == StartControl
  {
    LowerAppend(pre + kw, post);
    LowerAppend(pre, kw);
    ContainsInside(Lower(pre), StartGame, Lower(post));
  }

  /** "end game" in any letter case makes a transcript an end command unless
      it also holds "start game". */
  lemma EndGameAnywhere(pre: string, kw: string, post: string)
    requires Lower(kw) == EndGame
    requires !Contains(Lower(pre + kw + post), StartGame)
    ensures ControlOf(pre + kw + post) == EndControl
  {
    LowerAppend(pre + kw, post);
    LowerAppend(pre, kw);
    ContainsInside(Lower(pre), EndGame, Lower(post));
  }

  /** "close" in any letter case makes a transcript a close command unless it
      also holds "start game" or "end game". */
  lemma CloseAnywhere(pre: string, kw: string, post: string)
    requires Lower(kw) == CloseWord
    requires !Contains(Lower(pre + kw + post), StartGame)
    requires !Contains(Lower(pre + kw + post), EndGame)
    ensures ControlOf(pre + kw + post) == CloseControl
  {
    LowerAppend(pre + kw, post);
    LowerAppend(pre, kw);
    ContainsInside(Lower(pre), CloseWord, Lower(post));
  }

  // ---------------------------------------------------------------------------
  // What a note list sounds like

  /** The note a number sounds at time `t`: one if it names a key, none otherwise. */
  function NoteAt(x: int, t: int): seq<Note>
  {
    if InRange(x) then [Note(x, t)] else []
  }

  /** The notes that sound when the numbers are handed to the key player one
      every `NoteDelayMs` from `start`: out-of-range numbers sound nothing but
      still take their turn. */
  function Plays(nums: seq<int>, start: int): seq<Note>
  {
    if nums == [] then [] else NoteAt(nums[0], start) + Plays(nums[1..], start + NoteDelayMs)
  }

  /** The numbers that name one of the keys, in their original order. */
  function KeysOnly(nums: seq<int>): (ks: seq<int>)
    ensures forall k :: 0 <= k < |ks| ==> InRange(ks[k])
  {
    if nums == [] then []
    else (if InRange(nums[0]) then [nums[0]] else []) + KeysOnly(nums[1..])
  }

  /** The notes of a voice command heard while playing. */
  function Heard(command: string, now: int): seq<Note>
  {
    Plays(NotesOf(Split(Lower(command))), now)
  }

  /** Playing one more number adds its note, at its turn, if it names a key. */
  lemma {:induction false} PlaysSnoc(nums: seq<int>, x: int, start: int)
    ensures Plays(nums + [x], start) == Plays(nums, start) + NoteAt(x, start + |nums| * NoteDelayMs)
    decreases |nums|
  {
    if nums == [] {
      assert nums + [x] == [x];
      assert Plays([x], start) == NoteAt(x, start) + Plays([], start + NoteDelayMs);
    } else {
      var head, rest := NoteAt(nums[0], start), nums[1..];
      assert (nums + [x])[1..] == rest + [x];
      calc {
        Plays(nums + [x], start);
        head + Plays(rest + [x], start + NoteDelayMs);
        { PlaysSnoc(rest, x, start + NoteDelayMs); }
        head + (Plays(rest, start + NoteDelayMs) + NoteAt(x, start + NoteDelayMs + |rest| * NoteDelayMs));
        { assert start + NoteDelayMs + |rest| * NoteDelayMs == start + |nums| * NoteDelayMs; }
        (head + Plays(rest, start + NoteDelayMs)) + NoteAt(x, start + |nums| * NoteDelayMs);
      }
    }
  }

  /** The keys that sound are exactly the in-range numbers, in order. */
  lemma {:induction false} PlaysKeys(nums: seq<int>, start: int)
    ensures |Plays(nums, start)| == |KeysOnly(nums)|
    ensures forall k :: 0 <= k < |KeysOnly(nums)| ==> Plays(nums, start)[k].key == KeysOnly(nums)[k]
    decreases |nums|
  {
    if nums != [] {
      PlaysKeys(nums[1..], start + NoteDelayMs);
    }
  }

  /** The notes sound in order: no earlier than `start`, each strictly after the one before. */
  lemma {:induction false} PlaysInOrder(nums: seq<int>, start: int)
    ensures forall k :: 0 <= k < |Plays(nums, start)| ==> start <= Plays(nums, start)[k].time
    ensures forall j, k :: 0 <= j < k < |Plays(nums, start)| ==> Plays(nums, start)[j].time < Plays(nums, start)[k].time
    decreases |nums|
  {
    if nums != [] {
      PlaysInOrder(nums[1..], start + NoteDelayMs);
    }
  }

  /** The notes a click at (px, py) sounds, at time `now`: one per key among the
      first `n` whose rectangle holds the point, in key order. */
  function HitNotes(rects: seq<Rect>, px: int, py: int, n: nat, now: int): (r: seq<Note>)
    requires n <= |rects|
    ensures |r| <= n
  {
    if n == 0 then []
    else HitNotes(rects, px, py, n - 1, now) + (if Collides(rects[n - 1], px, py) then [Note(n - 1, now)] else [])
  }

  /** Every note of a click is at the click's time, for a key among the first
      `n` whose rectangle holds the point. */
  lemma {:induction false} HitNotesSound(rects: seq<Rect>, px: int, py: int, n: nat, now: int)
    requires n <= |rects|
    ensures forall note :: note in HitNotes(rects, px, py, n, now) ==>
      note.time == now && 0 <= note.key < n && Collides(rects[note.key], px, py)
    decreases n
  {
    if n > 0 {
      HitNotesSound(rects, px, py, n - 1, now);
    }
  }

  /** The notes of a click are in strictly increasing key order. */
  lemma {:induction false} HitNotesOrdered(rects: seq<Rect>, px: int, py: int, n: nat, now: int)
    requires n <= |rects|
    ensures forall j, k :: 0 <= j < k < |HitNotes(rects, px, py, n, now)| ==>
      HitNotes(rects, px, py, n, now)[j].key < HitNotes(rects, px, py, n, now)[k].key
    decreases n
  {
    if n > 0 {
      var prev := HitNotes(rects, px, py, n - 1, now);
      HitNotesOrdered(rects, px, py, n - 1, now);
      HitNotesSound(rects, px, py, n - 1, now);
      assert forall j :: 0 <= j < |prev| ==> prev[j] in prev;
    }
  }

  /** Every key among the first `n` that the point hits sounds. */
  lemma {:induction false} HitNotesComplete(rects: seq<Rect>, px: int, py: int, n: nat, now: int)
    requires n <= |rects|
    ensures forall i :: 0 <= i < n && Collides(rects[i], px, py) ==> Note(i, now) in HitNotes(rects, px, py, n, now)
    decreases n
  {
    if n > 0 {
      HitNotesComplete(rects, px, py, n - 1, now);
    }
  }

  /** A click sounds exactly the keys it hits, each once, in increasing key order. */
  lemma HitNotesExact(rects: seq<Rect>, px: int, py: int, n: nat, now: int)
    requires n <= |rects|
    ensures forall k :: 0 <= k < |HitNotes(rects, px, py, n, now)| ==>
      var note := HitNotes(rects, px, py, n, now)[k];
      note.time == now && 0 <= note.key < n && Collides(rects[note.key], px, py)
    ensures forall j, k :: 0 <= j < k < |HitNotes(rects, px, py, n, now)| ==>
      HitNotes(rects, px, py, n, now)[j].key < HitNotes(rects, px, py, n, now)[k].key
    ensures forall i :: 0 <= i < n && Collides(rects[i], px, py) ==> Note(i, now) in HitNotes(rects, px, py, n, now)
  {
    HitNotesSound(rects, px, py, n, now);
    HitNotesOrdered(rects, px, py, n, now);
    HitNotesComplete(rects, px, py, n, now);
  }

  // ---------------------------------------------------------------------------
  // The keyboard transition table

  /** What a key press does: Enter or Space starts a game from Idle or Ended,
      Escape ends a game being played and stops the loop otherwise, and a digit
      key plays its key while a game is played. */
  function KeyStep(p: Phase, key: int): (e: KeyEffect)
    ensures e.play != [] ==> p == Playing && e.next == Playing && e.play == [key - Key0] && InRange(key - Key0)
    ensures e.stop ==> key == KeyEscape && p != Playing && e.next == p && e.play == []
    ensures e.next != p ==> e.play == [] && !e.stop && (e.next == Playing <==> IsStartKey(key))
    ensures e.next == Ended && p != Ended ==> p == Playing && key == KeyEscape
    ensures p != Playing && IsStartKey(key) ==> e == KeyEffect(Playing, false, [])
    ensures p != Playing && key == KeyEscape ==> e == KeyEffect(p, true, [])
    ensures p == Playing && key == KeyEscape ==> e == KeyEffect(Ended, false, [])
    ensures p == Playing && IsDigitKey(key) ==> e == KeyEffect(Playing, false, [key - Key0])
    ensures !IsStartKey(key) && key != KeyEscape && !(p == Playing && IsDigitKey(key)) ==> e == KeyEffect(p, false, [])
  {
    match p
    case Idle =>
      if IsStartKey(key) then KeyEffect(Playing, false, [])
      else if key == KeyEscape then KeyEffect(Idle, true, [])
      else KeyEffect(Idle, false, [])
    case Playing =>
      if key == KeyEscape then KeyEffect(Ended, false, [])
      else if IsDigitKey(key) then KeyEffect(Playing, false, [key - Key0])
      else KeyEffect(Playing, false, [])
    case Ended =>
      if key == KeyEscape then KeyEffect(Ended, true, [])
      else if IsStartKey(key) then KeyEffect(Playing, false, [])
      else KeyEffect(Ended, false, [])
  }

  /** A game is never entered from Idle except by Enter or Space, and only the
      Escape key ever leaves a game being played. */
  lemma KeyStepLeavesPlayingOnlyByEscape(p: Phase, key: int)
    ensures p == Playing && KeyStep(p, key).next != Playing ==> key == KeyEscape && KeyStep(p, key).next == Ended
    ensures p == Idle && KeyStep(p, key).next != Idle ==> IsStartKey(key) && KeyStep(p, key).next == Playing
  {
  }

  // ---------------------------------------------------------------------------
  // The game state

  class Piano {
    var started: bool
    var ended: bool
    /** Set by the "close" voice command; it never goes back to false. */
    var shouldQuit: bool
    /** The main loop's own flag. */
    var running: bool
    var highlightedKey: int
    var highlightTime: int
    /** Every sound played so far, in order; stands for the calls to the sound objects. */
    var played: seq<Note>
    const keyRects: seq<Rect>

    /** Never started and ended at once; the highlight is the last note played
        (or the initial -1 at time 0), and only keys 0..9 ever sound. */
    ghost predicate Valid()
      reads this
    {
      && !(started && ended)
      && |keyRects| == KeyCount
      && (forall k :: 0 <= k < |played| ==> InRange(played[k].key))
      && (played == [] ==> highlightedKey == -1 && highlightTime == 0)
      && (played != [] ==> highlightedKey == played[|played| - 1].key && highlightTime == played[|played| - 1].time)
    }

    function Phase(): Phase
      reads this
    {
      if started then Playing else if ended then Ended else Idle
    }

    /** Key `i` is drawn highlighted at time `now`: a game is being played and `i`
        was played less than the highlight window ago. */
    predicate IsHighlighted(i: int, now: int)
      reads this
    {
      started && InRange(i) && i == highlightedKey && now - highlightTime < HighlightWindowMs
    }

    /** The initial state; `keySizes` are the sizes of the ten key images. */
    constructor (keySizes: seq<(int, int)>)
      requires |keySizes| == KeyCount
      ensures Valid() && Phase() == Idle
      ensures !started && !ended && !shouldQuit && running
      ensures played == [] && highlightedKey == -1 && highlightTime == 0
      ensures keyRects == KeyRects(keySizes)
    {
      started, ended, shouldQuit, running := false, false, false, true;
      highlightedKey, highlightTime := -1, 0;
      played := [];
      keyRects := KeyRects(keySizes);
    }

    /** Plays key `index` at time `now` if it is one of the ten keys; the new note
        replaces the highlight. Any other index is silently ignored. */
    method PlayKey(index: int, now: int)
      requires Valid()
      modifies this`highlightedKey, this`highlightTime, this`played
      ensures Valid()
      ensures played == old(played) + NoteAt(index, now)
      ensures InRange(index) ==> highlightedKey == index && highlightTime == now
      ensures !InRange(index) ==> highlightedKey == old(highlightedKey) && highlightTime == old(highlightTime)
      ensures InRange(index) && started ==> forall j :: IsHighlighted(j, now) <==> j == index
    {
      if 0 <= index < KeyCount {
        played := played + [Note(index, now)];
        highlightedKey := index;
        highlightTime := now;
      }
    }

    /** Interprets one recognised transcript. A control keyword decides alone;
        otherwise, while a game is played, the note numbers of the transcript are
        played in order, one every `NoteDelayMs` from `now`. */
    method ProcessCommand(command: string, now: int)
      requires Valid()
      modifies this`started, this`ended, this`shouldQuit, this`highlightedKey, this`highlightTime, this`played
      ensures Valid()
      ensures ControlOf(command) == StartControl ==>
        started && !ended && shouldQuit == old(shouldQuit)
        && played == old(played) && highlightedKey == old(highlightedKey) && highlightTime == old(highlightTime)
      ensures ControlOf(command) == EndControl ==>
        !started && ended && shouldQuit == old(shouldQuit)
        && played == old(played) && highlightedKey == old(highlightedKey) && highlightTime == old(highlightTime)
      ensures ControlOf(command) == CloseControl ==>
        shouldQuit && started == old(started) && ended == old(ended)
        && played == old(played) && highlightedKey == old(highlightedKey) && highlightTime == old(highlightTime)
      ensures ControlOf(command) == NoControl && !old(started) ==>
        started == old(started) && ended == old(ended) && shouldQuit == old(shouldQuit)
        && played == old(played) && highlightedKey == old(highlightedKey) && highlightTime == old(highlightTime)
      ensures ControlOf(command) == NoControl && old(started) ==>
        started && ended == old(ended) && shouldQuit == old(shouldQuit)
        && played == old(played) + Heard(command, now)
        && (Heard(command, now) == [] ==> highlightedKey == old(highlightedKey) && highlightTime == old(highlightTime))
        && (Heard(command, now) != [] ==> highlightedKey == Heard(command, now)[|Heard(command, now)| - 1].key)
      ensures old(shouldQuit) ==> shouldQuit
    {
      var lc := Lower(command);
      if Contains(lc, StartGame) {
        started := true;
        ended := false;
      } else if Contains(lc, EndGame) {
        started := false;
        ended := true;
      } else if Contains(lc, CloseWord) {
        shouldQuit := true;
      } else if started {
        var numbers := ExtractNumbers(lc);
        PlayNumbers(numbers, now);
      }
    }

    /** The note loop of the interpreter: each number goes to the key player in
        order, the next one `NoteDelayMs` later. */
    method PlayNumbers(numbers: seq<int>, now: int)
      requires Valid()
      modifies this`highlightedKey, this`highlightTime, this`played
      ensures Valid()
      ensures played == old(played) + Plays(numbers, now)
      ensures Plays(numbers, now) == [] ==> highlightedKey == old(highlightedKey) && highlightTime == old(highlightTime)
      ensures Plays(numbers, now) != [] ==> highlightedKey == Plays(numbers, now)[|Plays(numbers, now)| - 1].key
    {
      var i := 0;
      while i < |numbers|
        invariant 0 <= i <= |numbers|
        invariant Valid()
        invariant played == old(played) + Plays(numbers[..i], now)
        invariant Plays(numbers[..i], now) == [] ==> highlightedKey == old(highlightedKey) && highlightTime == old(highlightTime)
      {
        PlayKey(numbers[i], now + i * NoteDelayMs);
        PlaysSnoc(numbers[..i], numbers[i], now);
        assert numbers[..i + 1] == numbers[..i] + [numbers[i]];
        i := i + 1;
      }
      assert numbers[..i] == numbers;
    }

    /** The KEYDOWN branch of the main loop, following `KeyStep`. */
    method HandleKeyDown(key: int, now: int)
      requires Valid()
      modifies this`started, this`ended, this`running, this`highlightedKey, this`highlightTime, this`played
      ensures Valid()
      ensures Phase() == KeyStep(old(Phase()), key).next
      ensures running == (old(running) && !KeyStep(old(Phase()), key).stop)
      ensures played == old(played) + Plays(KeyStep(old(Phase()), key).play, now)
      ensures KeyStep(old(Phase()), key).play == [] ==>
        highlightedKey == old(highlightedKey) && highlightTime == old(highlightTime)
      ensures KeyStep(old(Phase()), key).play != [] ==>
        highlightedKey == key - Key0 && highlightTime == now
    {
      if !started && !ended {
        if key == KeyReturn || key == KeySpace {
          started := true;
        } else if key == KeyEscape {
          running := false;
        }
      } else if started {
        if key == KeyEscape {
          started := false;
          ended := true;
        } else if Key0 <= key <= Key9 {
          PlayKey(key - Key0, now);
        }
      } else if ended {
        if key == KeyEscape {
          running := false;
        } else if key == KeyReturn || key == KeySpace {
          started := true;
          ended := false;
        }
      }
    }

    /** A mouse click at (px, py): every key whose rectangle holds the point is
        played, in key order, so the last such key keeps the highlight. */
    method HandleClick(px: int, py: int, now: int)
      requires Valid()
      modifies this`highlightedKey, this`highlightTime, this`played
      ensures Valid()
      ensures played == old(played) + HitNotes(keyRects, px, py, KeyCount, now)
      ensures HitNotes(keyRects, px, py, KeyCount, now) == [] ==>
        highlightedKey == old(highlightedKey) && highlightTime == old(highlightTime)
    {
      var i := 0;
      while i < KeyCount
        invariant 0 <= i <= KeyCount
        invariant Valid()
        invariant played == old(played) + HitNotes(keyRects, px, py, i, now)
        invariant HitNotes(keyRects, px, py, i, now) == [] ==>
          highlightedKey == old(highlightedKey) && highlightTime == old(highlightTime)
      {
        if Collides(keyRects[i], px, py) {
          PlayKey(i, now);
        }
        i := i + 1;
      }
    }

    /** One event of the main loop. */
    method HandleEvent(e: Event, now: int)
      requires Valid()
      modifies this`started, this`ended, this`running, this`highlightedKey, this`highlightTime, this`played
      ensures Valid()
      ensures e.Quit? ==> !running && Phase() == old(Phase()) && played == old(played)
      ensures e.KeyDown? ==>
        Phase() == KeyStep(old(Phase()), e.key).next
        && running == (old(running) && !KeyStep(old(Phase()), e.key).stop)
        && played == old(played) + Plays(KeyStep(old(Phase()), e.key).play, now)
      ensures e.MouseDown? ==>
        Phase() == old(Phase()) && running == old(running)
        && played == old(played) + (if old(started) then HitNotes(keyRects, e.x, e.y, KeyCount, now) else [])
      ensures e.OtherEvent? ==> Phase() == old(Phase()) && running == old(running) && played == old(played)
    {
      match e
      case Quit =>
        running := false;
      case KeyDown(key) =>
        HandleKeyDown(key, now);
      case MouseDown(px, py) =>
        if started {
          HandleClick(px, py, now);
        }
      case OtherEvent =>
    }

    /** One pass of the main loop: the frame's events in order, then the quit
        flag stops the loop. */
    method RunFrame(events: seq<Event>, now: int)
      requires Valid()
      modifies this`started, this`ended, this`running, this`highlightedKey, this`highlightTime, this`played
      ensures Valid()
      ensures running ==> old(running) && !shouldQuit
      ensures old(played) <= played
    {
      for i := 0 to |events|
        invariant Valid()
        invariant running ==> old(running)
        invariant old(played) <= played
      {
        HandleEvent(events[i], now);
      }
      if shouldQuit {
        running := false;
      }
    }
  }
}
