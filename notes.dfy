/**
 * How a voice transcript becomes the ordered list of note numbers that the
 * playing branch of the command interpreter passes to the key player.
 */
module Notes {
  import opened Text

  /** The digit names in digit order; `DigitWords[d]` is the name of `d`. */
  const DigitWords: seq<string> :=
    ["zero", "one", "two", "three", "four", "five", "six", "seven", "eight", "nine"]

  /** The static word-to-digit table of the interpreter. */
  const WordToDigit: map<string, int> := map[
    "zero" := 0, "one" := 1, "two" := 2, "three" := 3, "four" := 4,
    "five" := 5, "six" := 6, "seven" := 7, "eight" := 8, "nine" := 9]

  /** The table maps the name of every digit to that digit, and nothing else. */
  lemma WordTableIsDigitNames()
    ensures forall d :: 0 <= d < 10 ==> DigitWords[d] in WordToDigit && WordToDigit[DigitWords[d]] == d
    ensures forall w :: w in WordToDigit ==> 0 <= WordToDigit[w] < 10 && DigitWords[WordToDigit[w]] == w
  {
  }

  /** The note number a single token stands for, if any: a digit string by its decimal
      value (which may exceed 9), else a digit name through the table. */
  function TokenNote(t: string): (r: seq<int>)
    ensures |r| <= 1
    ensures IsDigitString(t) ==> r == [DecimalValue(t)]
    ensures forall d :: 0 <= d < 10 && t == DigitWords[d] ==> r == [d]
    ensures !IsDigitString(t) && (forall d :: 0 <= d < 10 ==> t != DigitWords[d]) ==> r == []
  {
    WordTableIsDigitNames();
    DigitWordsAreNotDigitStrings();
    if IsDigitString(t) then [DecimalValue(t)]
    else if t in WordToDigit then [WordToDigit[t]]
    else []
  }

  /** No digit name is a digit string: each starts with a letter. */
  lemma DigitWordsAreNotDigitStrings()
    ensures forall d :: 0 <= d < 10 ==> !IsDigitString(DigitWords[d])
  {
    forall d | 0 <= d < 10 ensures !IsDigitString(DigitWords[d]) {
      assert !IsDigitChar(DigitWords[d][0]);
    }
  }

  /** The note numbers of a token list, kept in token order; other tokens are skipped. */
  function NotesOf(tokens: seq<string>): (r: seq<int>)
    ensures |r| <= |tokens|
  {
    if tokens == [] then [] else TokenNote(tokens[0]) + NotesOf(tokens[1..])
  }

  /** Note extraction distributes over concatenation of token lists. */
  lemma {:induction false} NotesOfAppend(a: seq<string>, b: seq<string>)
    ensures NotesOf(a + b) == NotesOf(a) + NotesOf(b)
    decreases |a|
  {
    if a != [] {
      assert (a + b)[1..] == a[1..] + b;
      NotesOfAppend(a[1..], b);
    } else {
      assert a + b == b;
    }
  }

  /** Each note number comes from some token, and every one is non-negative. */
  lemma {:induction false} NotesOfFromTokens(tokens: seq<string>)
    ensures forall n :: n in NotesOf(tokens) ==> n >= 0 && exists t :: t in tokens && TokenNote(t) == [n]
    decreases |tokens|
  {
    if tokens != [] {
      NotesOfFromTokens(tokens[1..]);
      forall n | n in NotesOf(tokens)
        ensures n >= 0 && exists t :: t in tokens && TokenNote(t) == [n]
      {
        if n in TokenNote(tokens[0]) {
          assert TokenNote(tokens[0]) == [n];
        } else {
          var t :| t in tokens[1..] && TokenNote(t) == [n];
          assert t in tokens;
        }
      }
    }
  }

  /** Tokens that are neither digit strings nor digit names contribute nothing. */
  lemma {:induction false} NotesOfSkipsOthers(tokens: seq<string>)
    requires forall k :: 0 <= k < |tokens| ==> !IsDigitString(tokens[k]) && tokens[k] !in WordToDigit
    ensures NotesOf(tokens) == []
    decreases |tokens|
  {
    if tokens != [] {
      NotesOfSkipsOthers(tokens[1..]);
    }
  }

  /** The names of digits, in any number and order, give back those digits. */
  lemma {:induction false} NotesOfDigitNames(ws: seq<string>, ds: seq<int>)
    requires |ws| == |ds|
    requires forall k :: 0 <= k < |ds| ==> 0 <= ds[k] < 10 && ws[k] == DigitWords[ds[k]]
    ensures NotesOf(ws) == ds
    decreases |ds|
  {
    if ds != [] {
      WordTableIsDigitNames();
      assert !IsDigitString(ws[0]) by {
        assert !IsDigitChar(ws[0][0]);
      }
      assert TokenNote(ws[0]) == [ds[0]];
      NotesOfDigitNames(ws[1..], ds[1..]);
    }
  }

  /** A command made of one word that names no note followed by digit names
      yields exactly those digits, in order. */
  lemma NotesOfWordThenNames(first: string, ws: seq<string>, ds: seq<int>)
    requires IsWord(first) && TokenNote(first) == []
    requires |ws| == |ds|
    requires forall k :: 0 <= k < |ds| ==> 0 <= ds[k] < 10 && ws[k] == DigitWords[ds[k]]
    ensures NotesOf(Split(JoinWords([first] + ws))) == ds
  {
    var all := [first] + ws;
    WordThenNamesAreWords(first, ws, ds, all);
    SplitJoinWords(all);
    NotesOfCons(first, ws, all);
    NotesOfDigitNames(ws, ds);
  }

  lemma WordThenNamesAreWords(first: string, ws: seq<string>, ds: seq<int>, all: seq<string>)
    requires IsWord(first) && |ws| == |ds| && all == [first] + ws
    requires forall k :: 0 <= k < |ds| ==> 0 <= ds[k] < 10 && ws[k] == DigitWords[ds[k]]
    ensures forall k :: 0 <= k < |all| ==> IsWord(all[k])
  {
    DigitWordsAreWords();
    forall k | 0 <= k < |all| ensures IsWord(all[k]) {
      if k > 0 {
        assert all[k] == DigitWords[ds[k - 1]];
      }
    }
  }

  lemma NotesOfCons(first: string, ws: seq<string>, all: seq<string>)
    requires all == [first] + ws
    ensures NotesOf(all) == TokenNote(first) + NotesOf(ws)
  {
    assert all[0] == first && all[1..] == ws;
  }

  /** Every digit name is a single whitespace-free word. */
  lemma DigitWordsAreWords()
    ensures forall d :: 0 <= d < 10 ==> IsWord(DigitWords[d])
  {
  }

  /** The interpreter's loop over the whitespace tokens of the (already lower-cased)
      command, appending the number each token stands for. */
  method ExtractNumbers(command: string) returns (numbers: seq<int>)
    ensures numbers == NotesOf(Split(command))
  {
    var tokens := Split(command);
    numbers := [];
    var i := 0;
    while i < |tokens|
      invariant 0 <= i <= |tokens|
      invariant numbers == NotesOf(tokens[..i])
    {
      var s := tokens[i];
      if IsDigitString(s) {
        numbers := numbers + [DecimalValue(s)];
      } else if s in WordToDigit {
        numbers := numbers + [WordToDigit[s]];
      }
      assert tokens[..i + 1] == tokens[..i] + [s];
      NotesOfAppend(tokens[..i], [s]);
      assert NotesOf([s]) == TokenNote(s);
      i := i + 1;
    }
    assert tokens[..i] == tokens;
  }

  /** The decimal string of any number yields that number, so "10" yields 10, a
      number outside the ten keys. */
  lemma DecimalTokenNote(n: nat)
    ensures TokenNote(DecimalString(n)) == [n]
  {
    DecimalRoundTrip(n);
  }
}
