/** Greedy word wrap with hyphenation, on the debug subtitle screen. */
module WrapLines {
  import opened Words

  // ----- When the hyphenation ends -----

  ghost predicate AllFit(words: seq<Word>, width: nat) {
    forall i | 0 <= i < |words| :: |words[i]| <= width
  }

  // What one turn of the hyphenation loop leaves of a word, by the rules of Python's slices.
  function Chopped(word: string, width: nat): string
    requires |word| > width
  {
    if width == 0 then word[|word| - 1..] else word[width - 1..]
  }

  function ChoppedTimes(word: string, width: nat, n: nat): string
    decreases n
  {
    if n == 0 || |word| <= width then word else ChoppedTimes(Chopped(word, width), width, n - 1)
  }

  ghost predicate HyphenationEnds(word: string, width: nat) {
    exists n: nat :: |ChoppedTimes(word, width, n)| <= width
  }

  lemma {:induction false} NarrowNeverEnds(word: string, width: nat, n: nat)
    requires width < 2 && |word| > width
    ensures |ChoppedTimes(word, width, n)| > width
    decreases n
  {
    if n > 0 {
      NarrowNeverEnds(Chopped(word, width), width, n - 1);
    }
  }

  lemma {:induction false} WideEnds(word: string, width: nat) returns (n: nat)
    requires width >= 2
    ensures |ChoppedTimes(word, width, n)| <= width
    decreases |word|
  {
    if |word| <= width {
      n := 0;
    } else {
      var m := WideEnds(Chopped(word, width), width);
      n := m + 1;
    }
  }

  ghost predicate Ends(words: seq<Word>, width: nat) {
    width >= 2 || AllFit(words, width)
  }

  /** The hyphenation of every word comes to an end exactly if the width is at least two or no word is wider. */
  lemma WrapEndsIff(words: seq<Word>, width: nat)
    ensures Ends(words, width) <==> forall i | 0 <= i < |words| :: HyphenationEnds(words[i], width)
  {
    forall i | 0 <= i < |words|
      ensures HyphenationEnds(words[i], width) <==> width >= 2 || |words[i]| <= width
    {
      if width >= 2 {
        var n := WideEnds(words[i], width);
      } else if |words[i]| <= width {
        assert |ChoppedTimes(words[i], width, 0)| <= width;
      } else {
        forall n: nat ensures |ChoppedTimes(words[i], width, n)| > width {
          NarrowNeverEnds(words[i], width, n);
        }
      }
    }
  }

  // ----- The lines -----

  // The lines still to come when `current` is the open line and `words` are left.
  ghost function LinesFrom(current: string, words: seq<Word>, width: nat): seq<string>
    requires Ends(words, width)
    decreases |words|, 0, 1
  {
    if words == [] then if current == "" then [] else [current]
    else
      var word: string := words[0];
      var candidate := if current == "" then word else current + " " + word;
      if |candidate| <= width then LinesFrom(candidate, words[1..], width)
      else (if current == "" then [] else [current]) + PiecesThen(word, words[1..], width)
  }

  // A word on a line of its own, hyphenated while it is wider than the line.
  ghost function PiecesThen(word: string, words: seq<Word>, width: nat): seq<string>
    requires Ends(words, width) && (width >= 2 || |word| <= width)
    decreases |words|, 1, |word|
  {
    if |word| > width then [word[..width - 1] + "-"] + PiecesThen(word[width - 1..], words, width)
    else LinesFrom(word, words, width)
  }

  // The inner loop: pieces of a word that is wider than the line, and what is left of it.
  method Hyphenate(word: string, ghost words: seq<Word>, width: nat) returns (pieces: seq<string>, rest: string)
    requires Ends(words, width) && (width >= 2 || |word| <= width)
    ensures pieces + LinesFrom(rest, words, width) == PiecesThen(word, words, width)
  {
    hide LinesFrom, Ends;
    pieces, rest := [], word;
    ghost var goal := PiecesThen(word, words, width);
    assert pieces + goal == goal;
    while |rest| > width
      invariant width >= 2 || |rest| <= width
      invariant pieces + PiecesThen(rest, words, width) == goal
      decreases |rest|
    {
      ghost var more := PiecesThen(rest[width - 1..], words, width);
      var piece := rest[..width - 1] + "-";
      assert pieces + ([piece] + more) == (pieces + [piece]) + more;
      pieces := pieces + [piece];
      rest := rest[width - 1..];
    }
  }

  lemma EndsLater(words: seq<Word>, i: nat, width: nat)
    requires Ends(words, width) && i < |words|
    ensures words[i..] != [] && words[i..][0] == words[i] && words[i..][1..] == words[i + 1..]
    ensures Ends(words[i..], width) && Ends(words[i + 1..], width) && (width >= 2 || |words[i]| <= width)
  {
    hide Solid;
  }

  // One turn of the outer loop.
  lemma LinesStep(current: string, words: seq<Word>, width: nat)
    requires Ends(words, width) && words != []
    ensures Ends(words[1..], width) && (width >= 2 || |words[0]| <= width)
    ensures var word: string := words[0]; var candidate := if current == "" then word else current + " " + word;
      LinesFrom(current, words, width) ==
        if |candidate| <= width then LinesFrom(candidate, words[1..], width)
        else (if current == "" then [] else [current]) + PiecesThen(word, words[1..], width)
  {
    hide Solid, PiecesThen;
  }

  lemma NoMoreLines(current: string, width: nat)
    ensures Ends([], width) && LinesFrom(current, [], width) == if current == "" then [] else [current]
  {
  }

  method Wrap(text: string, width: nat) returns (lines: seq<string>)
    requires Ends(Split(text), width)
    ensures var all := LinesFrom("", Split(text), width); lines == if all == [] then [""] else all
  {
    hide *;
    lines := [];
    var current := "";
    var words := Split(text);
    ghost var goal := LinesFrom("", words, width);
    assert words[0..] == words && lines + goal == goal;
    for i := 0 to |words|
      invariant Ends(words[i..], width) && lines + LinesFrom(current, words[i..], width) == goal
    {
      EndsLater(words, i, width);
      LinesStep(current, words[i..], width);
      var word: string := words[i];
      var candidate := if current == "" then word else current + " " + word;
      if |candidate| <= width {
        current := candidate;
      } else {
        var open := if current != "" then [current] else [];
        var pieces, rest := Hyphenate(word, words[i + 1..], width);
        ghost var later := LinesFrom(rest, words[i + 1..], width);
        assert lines + (open + (pieces + later)) == (lines + open + pieces) + later;
        lines := lines + open + pieces;
        current := rest;
      }
    }
    NoMoreLines(current, width);
    assert words[|words|..] == [];
    if current != "" {
      lines := lines + [current];
    }
    assert goal + [] == goal;
    lines := if lines == [] then [""] else lines;
  }

  // ----- Every line fits -----

  lemma {:induction false} LinesFit(current: string, words: seq<Word>, width: nat)
    requires Ends(words, width) && |current| <= width
    ensures forall i | 0 <= i < |LinesFrom(current, words, width)| :: |LinesFrom(current, words, width)[i]| <= width
    decreases |words|, 0, 1
  {
    if words != [] {
      var word: string := words[0];
      var candidate := if current == "" then word else current + " " + word;
      if |candidate| <= width {
        LinesFit(candidate, words[1..], width);
      } else {
        PiecesFit(word, words[1..], width);
      }
    }
  }

  lemma {:induction false} PiecesFit(word: string, words: seq<Word>, width: nat)
    requires Ends(words, width) && (width >= 2 || |word| <= width)
    ensures forall i | 0 <= i < |PiecesThen(word, words, width)| :: |PiecesThen(word, words, width)[i]| <= width
    decreases |words|, 1, |word|
  {
    if |word| > width {
      PiecesFit(word[width - 1..], words, width);
    } else {
      LinesFit(word, words, width);
    }
  }

  // ----- Undoing the wrap -----

  // A full line that is one run of characters and ends in a hyphen.
  predicate LooksHyphenated(line: string, width: nat) {
    |line| == width > 0 && line[width - 1] == '-' && Solid(line)
  }

  // Of a hyphenated word at least two characters are left for the next line.
  predicate GoesOn(lines: seq<string>, width: nat) {
    |lines| > 1 && LooksHyphenated(lines[0], width) && RunLength(lines[1]) >= 2
  }

  // The text read back: a hyphenated line continues in the next one.
  function Glue(lines: seq<string>, width: nat): string {
    if lines == [] then ""
    else if GoesOn(lines, width) then lines[0][..width - 1] + Glue(lines[1..], width)
    else lines[0] + " " + Glue(lines[1..], width)
  }

  // What is left of a word after its hyphenated pieces.
  function LastPiece(word: string, width: nat): string
    requires width >= 2
    decreases |word|
  {
    if |word| > width then LastPiece(word[width - 1..], width) else word
  }

  // The word's last line is full and ends in a hyphen of the word itself.
  predicate Ambiguous(word: string, width: nat)
    requires width >= 2
  {
    LooksHyphenated(LastPiece(word, width), width)
  }

  // Such a word in front of one of two or more characters.
  predicate Swallows(word: string, words: seq<Word>, width: nat)
    requires width >= 2
  {
    words != [] && Ambiguous(word, width) && |words[0]| >= 2
  }

  // What reading back makes of the words: such a word loses its hyphen and swallows its successor.
  function Merged(words: seq<Word>, width: nat): (r: seq<Word>)
    requires width >= 2
    ensures |r| <= |words| && (words != [] ==> r != [])
  {
    if |words| <= 1 then words
    else
      var rest := Merged(words[1..], width);
      if Swallows(words[0], words[1..], width) then
        LongWhenAmbiguous(words[0], width);
        [MergeTwo(words[0], rest[0])] + rest[1..]
      else [words[0]] + rest
  }

  function MergeTwo(w: Word, next: Word): Word
    requires |w| >= 2
  {
    w[..|w| - 1] + next
  }

  lemma {:induction false} LongWhenAmbiguous(word: string, width: nat)
    requires width >= 2 && Ambiguous(word, width)
    ensures |word| >= 2 && word[|word| - 1] == '-'
    decreases |word|
  {
    if |word| > width {
      LongWhenAmbiguous(word[width - 1..], width);
    }
  }

  // No word of these swallows its successor.
  predicate NoneSwallows(words: seq<Word>, width: nat)
    requires width >= 2
  {
    forall i | 0 <= i < |words| - 1 :: !(Ambiguous(words[i], width) && |words[i + 1]| >= 2)
  }

  lemma NoneSwallowsStep(words: seq<Word>, width: nat)
    requires width >= 2 && |words| > 1
    ensures NoneSwallows(words, width) <==> !Swallows(words[0], words[1..], width) && NoneSwallows(words[1..], width)
  {
    hide Ambiguous, Solid;
    var rest := words[1..];
    forall i | 0 <= i < |words| - 1
      ensures rest[i] == words[i + 1] && (i > 0 ==> rest[i - 1] == words[i])
    {
    }
    if NoneSwallows(rest, width) && !Swallows(words[0], rest, width) {
      forall i | 0 <= i < |words| - 1 ensures !(Ambiguous(words[i], width) && |words[i + 1]| >= 2) {
        if i > 0 {
          assert !(Ambiguous(rest[i - 1], width) && |rest[i - 1 + 1]| >= 2);
        }
      }
    }
    if NoneSwallows(words, width) {
      forall i | 0 <= i < |rest| - 1 ensures !(Ambiguous(rest[i], width) && |rest[i + 1]| >= 2) {
        assert !(Ambiguous(words[i + 1], width) && |words[i + 1 + 1]| >= 2);
      }
    }
  }

  lemma {:induction false} MergedIsWords(words: seq<Word>, width: nat)
    requires width >= 2
    ensures |Merged(words, width)| == |words| <==> NoneSwallows(words, width)
    ensures |Merged(words, width)| == |words| ==> Merged(words, width) == words
  {
    hide Ambiguous, Solid;
    if |words| > 1 {
      MergedIsWords(words[1..], width);
      NoneSwallowsStep(words, width);
      hide NoneSwallows;
      MergedStep(words, width);
    }
  }

  // A run of characters in front of a text that starts with a word lengthens that word.
  lemma SplitLongerWord(prefix: Word, text: string)
    requires text != "" && !IsSpace(text[0])
    ensures Split(text) != []
    ensures Split(prefix + text) == [prefix + Split(text)[0]] + Split(text)[1..]
  {
    var k := RunLength(text);
    assert text == text[..k] + text[k..];
    RunOfWord(text[..k], text[k..]);
    RunOfWord(prefix + text[..k], text[k..]);
    var all := prefix + text;
    assert all == (prefix + text[..k]) + text[k..];
    assert all[..|prefix| + k] == prefix + text[..k] && all[|prefix| + k..] == text[k..];
  }

  lemma Regroup(a: string, b: string, c: string)
    ensures a + " " + b + " " + c == a + (" " + (b + " " + c))
    ensures a + " " + c == a + (" " + c)
  {
  }

  // Words, a space, then more text.
  lemma {:induction false} SplitAfterWords(words: seq<Word>, text: string)
    requires words != []
    ensures Split(Join(words) + " " + text) == words + Split(text)
  {
    hide Solid, Split;
    var w := words[0];
    if |words| == 1 {
      Regroup(w, "", text);
      SplitFirst(w, text);
    } else {
      var rest := Join(words[1..]);
      assert Join(words) == w + " " + rest;
      hide Join;
      Regroup(w, rest, text);
      SplitFirst(w, rest + " " + text);
      SplitAfterWords(words[1..], text);
      assert words + Split(text) == [w] + (words[1..] + Split(text));
    }
  }

  // The first line starts with the word, or a piece of at least two characters.
  lemma PiecesStart(word: Word, words: seq<Word>, width: nat)
    requires width >= 2
    ensures var lines := PiecesThen(word, words, width);
      && lines != [] && (RunLength(lines[0]) >= 2 <==> |word| >= 2)
      && Glue(lines, width) != "" && !IsSpace(Glue(lines, width)[0])
  {
    hide IsSpace, Glue;
    var lines := PiecesThen(word, words, width);
    if |word| <= width {
      LineStartsWith(word, "", words, width);
    } else {
      PieceIsRun(word[..width - 1]);
    }
    FirstOfRun(lines[0]);
    GlueStart(lines, width);
  }

  lemma {:induction false} LineStartsWith(word: Word, more: string, words: seq<Word>, width: nat)
    requires width >= 2 && (more == "" || IsSpace(more[0]))
    ensures var lines := LinesFrom(word + more, words, width); lines != [] && RunLength(lines[0]) == |word|
    ensures word + "" == word
    decreases |words|
  {
    hide Solid, RunLength;
    RunOfWord(word, more);
    if words != [] && |word + more + " " + words[0]| <= width {
      var more' := more + (" " + words[0]);
      assert word + more + " " + words[0] == word + more';
      assert more'[0] == if more == "" then ' ' else more[0];
      LineStartsWith(word, more', words[1..], width);
    }
  }

  lemma PieceIsRun(prefix: Word)
    ensures RunLength(prefix + "-") == |prefix| + 1
  {
    var piece: Word := prefix + "-";
    RunOfWord(piece, "");
    assert piece + "" == piece;
  }

  lemma FirstOfRun(line: string)
    ensures RunLength(line) > 0 <==> line != "" && !IsSpace(line[0])
  {
  }

  lemma GlueStart(lines: seq<string>, width: nat)
    requires width >= 2 && lines != [] && lines[0] != ""
    ensures Glue(lines, width) != "" && Glue(lines, width)[0] == lines[0][0]
  {
  }

  // A line of joined words looks hyphenated only if it is one ambiguous word.
  lemma LineLooksHyphenated(words: seq<Word>, width: nat)
    requires width >= 2 && words != [] && |Join(words)| <= width
    ensures LooksHyphenated(Join(words), width) <==> |words| == 1 && Ambiguous(words[0], width)
    ensures |words| > 1 ==> forall i | 0 <= i < |words| :: !Ambiguous(words[i], width)
  {
    if |words| > 1 {
      var w: string := words[0];
      assert Join(words)[|w|] == ' ';
      forall i | 0 <= i < |words|
        ensures |words[i]| < width
      {
        WordInLine(words, i);
      }
    }
  }

  lemma HyphenatedLine(line: string, width: nat)
    requires width >= 2 && LooksHyphenated(line, width)
    ensures |line| == width && Solid(line[..width - 1])
  {
  }

  lemma {:induction false} WordInLine(words: seq<Word>, i: nat)
    requires i < |words| && |words| > 1
    ensures |words[i]| < |Join(words)|
  {
    if i > 0 && |words| > 2 {
      WordInLine(words[1..], i - 1);
    }
  }

  lemma MergedPlain(w: Word, words: seq<Word>, width: nat)
    requires width >= 2 && !Swallows(w, words, width)
    ensures Merged([w] + words, width) == [w] + Merged(words, width)
  {
    hide Solid, Swallows;
    assert ([w] + words)[1..] == words;
  }

  lemma {:induction false} MergedSkips(line: seq<Word>, words: seq<Word>, width: nat)
    requires width >= 2 && forall i | 0 <= i < |line| :: !Ambiguous(line[i], width)
    ensures Merged(line + words, width) == line + Merged(words, width)
  {
    hide Solid, Ambiguous, Merged;
    if line == [] {
      assert line + words == words && line + Merged(words, width) == Merged(words, width);
    } else {
      var w, rest := line[0], line[1..];
      MergedSkips(rest, words, width);
      MergedPlain(w, rest + words, width);
      assert line + words == [w] + (rest + words);
      assert line + Merged(words, width) == [w] + (rest + Merged(words, width));
    }
  }

  lemma ReadBackLast(line: seq<Word>, width: nat)
    requires width >= 2 && line != [] && |Join(line)| <= width
    ensures Split(Glue([Join(line)], width)) == Merged(line, width)
  {
    hide Solid, IsSpace, Ambiguous, Merged;
    var current := Join(line);
    LineLooksHyphenated(line, width);
    assert Glue([current], width) == current + " " + "" by { assert [current][1..] == []; }
    SplitAfterWords(line, "");
    assert line + [] == line;
    MergedIsWords(line, width);
  }

  // A line in front of lines that read back as words.
  lemma ReadBackBreak(line: seq<Word>, rest: seq<string>, words: seq<Word>, width: nat)
    requires width >= 2 && line != [] && |Join(line)| <= width && words != [] && rest != []
    requires RunLength(rest[0]) >= 2 <==> |words[0]| >= 2
    requires var text := Glue(rest, width); text != "" && !IsSpace(text[0]) && Split(text) == Merged(words, width)
    ensures Split(Glue([Join(line)] + rest, width)) == Merged(line + words, width)
  {
    var current, text := Join(line), Glue(rest, width);
    LineLooksHyphenated(line, width);
    assert ([current] + rest)[1..] == rest && ([current] + rest)[1] == rest[0];
    hide Solid, IsSpace, Ambiguous, RunLength;
    if GoesOn([current] + rest, width) {
      HyphenatedLine(current, width);
      assert Glue([current] + rest, width) == current[..width - 1] + text;
      SplitLongerWord(current[..width - 1], text);
      assert line == [line[0]] && (line + words)[1..] == words;
    } else {
      assert Glue([current] + rest, width) == current + " " + text;
      SplitAfterWords(line, text);
      MergedBreak(line, words, width);
    }
  }

  lemma MergedBreak(line: seq<Word>, words: seq<Word>, width: nat)
    requires width >= 2 && line != [] && words != []
    requires (|line| == 1 && !Swallows(line[0], words, width)) || forall i | 0 <= i < |line| :: !Ambiguous(line[i], width)
    ensures Merged(line + words, width) == line + Merged(words, width)
  {
    hide Solid, Merged, Ambiguous;
    if |line| == 1 {
      assert line == [line[0]];
      MergedPlain(line[0], words, width);
    } else {
      MergedSkips(line, words, width);
    }
  }

  lemma {:induction false} ReadBackLines(line: seq<Word>, words: seq<Word>, width: nat)
    requires width >= 2 && line != [] && |Join(line)| <= width
    ensures Split(Glue(LinesFrom(Join(line), words, width), width)) == Merged(line + words, width)
    decreases |words|, 0, 1
  {
    hide Solid, IsSpace, LooksHyphenated, Ambiguous, Glue, Merged, Split;
    JoinIsEmpty(line);
    if words == [] {
      ReadBackLast(line, width);
      assert line + [] == line;
    } else {
      var w := words[0];
      JoinOfParts(line, [w]);
      if |Join(line) + " " + w| <= width {
        ReadBackLines(line + [w], words[1..], width);
        assert line + words == (line + [w]) + words[1..];
      } else {
        ReadBackPieces(w, words[1..], width);
        PiecesStart(w, words[1..], width);
        assert [w] + words[1..] == words;
        ReadBackBreak(line, PiecesThen(w, words[1..], width), words, width);
      }
    }
  }

  lemma {:induction false} ReadBackPieces(w: Word, words: seq<Word>, width: nat)
    requires width >= 2
    ensures Split(Glue(PiecesThen(w, words, width), width)) == Merged([w] + words, width)
    decreases |words|, 1, |w|
  {
    hide *;
    if |w| <= width {
      OnePiece(w, words, width);
      ReadBackLines([w], words, width);
    } else {
      var prefix, tail := FirstPiece(w, words, width);
      var rest := PiecesThen(tail, words, width);
      ReadBackPieces(tail, words, width);
      PiecesStart(tail, words, width);
      GluePiece(prefix, rest, width);
      SplitLongerWord(prefix, Glue(rest, width));
      MergedLonger(prefix, tail, words, width);
    }
  }

  lemma OnePiece(w: Word, words: seq<Word>, width: nat)
    requires width >= 2 && |w| <= width
    ensures Join([w]) == w && PiecesThen(w, words, width) == LinesFrom(w, words, width)
  {
    hide Solid, LinesFrom;
  }

  lemma FirstPiece(w: Word, words: seq<Word>, width: nat) returns (prefix: Word, tail: Word)
    requires width >= 2 && |w| > width
    ensures Ends(words, width) && |prefix| == width - 1 && 1 < |tail| < |w| && prefix + tail == w
    ensures PiecesThen(w, words, width) == [prefix + "-"] + PiecesThen(tail, words, width)
  {
    hide IsSpace, LinesFrom;
    prefix, tail := w[..width - 1], w[width - 1..];
  }

  lemma GluePiece(prefix: Word, rest: seq<string>, width: nat)
    requires width >= 2 && |prefix| == width - 1 && rest != [] && RunLength(rest[0]) >= 2
    ensures Glue([prefix + "-"] + rest, width) == prefix + Glue(rest, width)
  {
    var piece := prefix + "-";
    assert ([piece] + rest)[1..] == rest && ([piece] + rest)[1] == rest[0] && piece[..width - 1] == prefix;
    assert LooksHyphenated(piece, width);
  }

  // Pieces cut off the front of a word do not change what it merges with.
  lemma MergedLonger(prefix: Word, tail: Word, words: seq<Word>, width: nat)
    requires width >= 2 && |prefix| == width - 1 && |tail| > 1
    ensures var m := Merged([tail] + words, width);
      Merged([prefix + tail] + words, width) == [prefix + m[0]] + m[1..]
  {
    var w: Word := prefix + tail;
    assert w[width - 1..] == tail;
    assert LastPiece(w, width) == LastPiece(tail, width);
    assert ([tail] + words)[1..] == words && ([w] + words)[1..] == words;
    if Swallows(tail, words, width) {
      LongWhenAmbiguous(tail, width);
      var next := Merged(words, width)[0];
      assert MergeTwo(w, next) == prefix + MergeTwo(tail, next);
    } else {
      var rest := Merged(words, width);
      assert Merged([tail] + words, width) == [tail] + rest && ([tail] + rest)[1..] == rest;
      assert Merged([w] + words, width) == [w] + rest;
    }
  }

  lemma ReadBackAll(words: seq<Word>, width: nat)
    requires width >= 2
    ensures Split(Glue(LinesFrom("", words, width), width)) == Merged(words, width)
  {
    hide Solid, IsSpace, LooksHyphenated, Ambiguous;
    if words != [] {
      assert [words[0]] + words[1..] == words;
      if |words[0]| <= width {
        ReadBackLines([words[0]], words[1..], width);
      } else {
        ReadBackPieces(words[0], words[1..], width);
        assert [] + PiecesThen(words[0], words[1..], width) == PiecesThen(words[0], words[1..], width);
      }
    }
  }

  /** Reading the wrapped lines back gives the original words in order exactly when no word fills its last line, ends in
      a hyphen of its own, and stands in front of a word of two or more characters. */
  lemma WrapReadsBackIff(text: string, width: nat)
    requires width >= 2
    ensures var words := Split(text);
      Split(Glue(LinesFrom("", words, width), width)) == words <==> NoneSwallows(words, width)
  {
    hide *;
    MergedIsWords(Split(text), width);
    ReadBackAll(Split(text), width);
  }

  // ----- No reader does better -----

  // A word that fills the line at least starts a line of its own.
  lemma WideWord(current: string, w: Word, words: seq<Word>, width: nat)
    requires width >= 2 && |w| >= width
    ensures LinesFrom(current, [w] + words, width)
      == (if current == "" then [] else [current]) + PiecesThen(w, words, width)
  {
    hide Solid;
    assert ([w] + words)[1..] == words;
    LinesStep(current, [w] + words, width);
    if current == "" && |w| == width {
      assert [] + LinesFrom(w, words, width) == LinesFrom(w, words, width);
    }
  }

  // A word with a hyphen of its own takes the same lines as if it were cut there.
  lemma {:induction false} SameCut(w: Word, v: Word, words: seq<Word>, width: nat)
    requires width >= 2 && Ambiguous(w, width) && |v| >= 2
    ensures |w| >= width && PiecesThen(w, [v] + words, width) == PiecesThen(w[..|w| - 1] + v, words, width)
    decreases |w|
  {
    hide IsSpace, Split;
    var u := w[..|w| - 1] + v;
    if |w| > width {
      var tail := w[width - 1..];
      SameCut(tail, v, words, width);
      assert u[..width - 1] == w[..width - 1];
      assert u[width - 1..] == tail[..|tail| - 1] + v;
    } else {
      assert u[..width - 1] + "-" == w && u[width - 1..] == v;
      assert ([v] + words)[1..] == words;
      LinesStep(w, [v] + words, width);
    }
  }

  lemma SwallowedLines(current: string, w: Word, rest: seq<Word>, width: nat)
    requires width >= 2 && rest != [] && Ambiguous(w, width) && |rest[0]| >= 2
    ensures |w| >= 2
    ensures LinesFrom(current, [w] + rest, width) == LinesFrom(current, [MergeTwo(w, rest[0])] + rest[1..], width)
  {
    hide Solid, Ambiguous;
    SameCut(w, rest[0], rest[1..], width);
    assert [rest[0]] + rest[1..] == rest;
    WideWord(current, w, rest, width);
    WideWord(current, MergeTwo(w, rest[0]), rest[1..], width);
  }

  lemma MergedStep(words: seq<Word>, width: nat)
    requires width >= 2 && |words| > 1
    ensures var w, m := words[0], Merged(words[1..], width);
      && m != [] && (|words[1]| >= 2 ==> |m[0]| >= 2)
      && Merged(words, width)
        == if Swallows(w, words[1..], width) then (LongWhenAmbiguous(w, width); [MergeTwo(w, m[0])] + m[1..]) else [w] + m
  {
    hide Solid, Ambiguous;
    if |words| > 2 && Swallows(words[1], words[2..], width) {
      LongWhenAmbiguous(words[1], width);
    }
  }

  // Words that give the same lines behind any open line.
  ghost predicate SameLines(words: seq<Word>, words': seq<Word>, width: nat)
    requires width >= 2
  {
    forall current: string :: LinesFrom(current, words, width) == LinesFrom(current, words', width)
  }

  lemma {:induction false} SamePieces(word: string, words: seq<Word>, words': seq<Word>, width: nat)
    requires width >= 2 && SameLines(words, words', width)
    ensures PiecesThen(word, words, width) == PiecesThen(word, words', width)
    decreases |word|
  {
    hide Solid, LinesFrom;
    if |word| > width {
      SamePieces(word[width - 1..], words, words', width);
    }
  }

  lemma SameBehind(w: Word, words: seq<Word>, words': seq<Word>, width: nat)
    requires width >= 2 && SameLines(words, words', width)
    ensures SameLines([w] + words, [w] + words', width)
  {
    hide Solid, LinesFrom, PiecesThen;
    forall current: string ensures LinesFrom(current, [w] + words, width) == LinesFrom(current, [w] + words', width) {
      assert ([w] + words)[1..] == words && ([w] + words')[1..] == words';
      LinesStep(current, [w] + words, width);
      LinesStep(current, [w] + words', width);
      SamePieces(w, words, words', width);
    }
  }

  lemma {:induction false} MergedLines(words: seq<Word>, width: nat)
    requires width >= 2
    ensures SameLines(words, Merged(words, width), width)
    decreases |words|
  {
    hide Solid, Ambiguous, LinesFrom, PiecesThen;
    if |words| > 1 {
      var w, m := words[0], Merged(words[1..], width);
      MergedStep(words, width);
      MergedLines(words[1..], width);
      SameBehind(w, words[1..], m, width);
      assert [w] + words[1..] == words;
      if Swallows(w, words[1..], width) {
        forall current: string ensures LinesFrom(current, words, width) == LinesFrom(current, Merged(words, width), width) {
          SwallowedLines(current, w, m, width);
        }
      }
    }
  }

  /** What is read back, right or wrong, is wrapped to the very same lines: where reading back fails the lines themselves
      have lost the words. */
  lemma ReadBackWrapsAlike(words: seq<Word>, width: nat)
    requires width >= 2
    ensures var read := Split(Glue(LinesFrom("", words, width), width));
      LinesFrom("", read, width) == LinesFrom("", words, width)
  {
    hide LinesFrom, Merged, Split, Glue;
    MergedLines(words, width);
    ReadBackAll(words, width);
  }

  // At width two "a-", "cb" and "acb" are wrapped to the same lines.
  lemma OwnHyphenIsLost()
    ensures LinesFrom("", ["a-", "cb"], 2) == LinesFrom("", ["acb"], 2)
  {
    var w: Word, v: Word := "a-", "cb";
    assert Ambiguous(w, 2);
    SwallowedLines("", w, [v], 2);
    assert w[..1] + v == "acb" && [v][1..] == [];
    assert [w] + [v] == [w, v] && [MergeTwo(w, v)] + [] == [MergeTwo(w, v)];
  }

  // ----- Fewest lines -----

  // Lines of as many words as fit.
  ghost function GreedyLines(words: seq<Word>, width: nat): nat
    decreases |words|
  {
    if words == [] then 0 else 1 + GreedyLines(words[LineCount(words, width)..], width)
  }

  // The code's lines are the greedy ones: an open line of leading words is filled up first.
  lemma {:induction false} LinesAreGreedy(line: seq<Word>, words: seq<Word>, width: nat)
    requires AllFit(words, width) && line != [] && |Join(line)| <= width
    ensures |LinesFrom(Join(line), words, width)| == GreedyLines(line + words, width)
    decreases |words|
  {
    hide Solid, Join;
    var all := line + words;
    var n := LineCount(all, width);
    assert all[..|line|] == line;
    JoinIsEmpty(line);
    if words == [] {
      assert all == line && n == |line|;
    } else {
      var w := words[0];
      JoinOfParts(line, [w]);
      JoinOfOne(w);
      assert all[..|line| + 1] == line + [w];
      if |Join(line + [w])| <= width {
        LinesAreGreedy(line + [w], words[1..], width);
        assert all == (line + [w]) + words[1..];
      } else {
        assert n == |line| by {
          if n > |line| {
            LongerPrefix(all, |line| + 1, n);
          }
        }
        assert all[n..] == words && [w] + words[1..] == words;
        LinesAreGreedy([w], words[1..], width);
      }
    }
  }

  lemma JoinOfOne(w: Word)
    ensures Join([w]) == w
  {
  }

  // Fewer words never need more lines.
  lemma {:induction false} GreedyIsMonotone(words: seq<Word>, k: nat, width: nat)
    requires k <= |words|
    ensures GreedyLines(words[k..], width) <= GreedyLines(words, width)
    decreases |words|, k
  {
    hide *;
    assert words[0..] == words;
    if k > 0 {
      GreedyStep(words, width);
      var n, rest := LineCount(words, width), words[k..];
      if k >= n {
        GreedyIsMonotone(words[n..], k - n, width);
        assert words[n..][k - n..] == rest;
      } else {
        // The shortened first line reaches at least as far.
        GreedyStep(rest, width);
        var m := LineCount(rest, width);
        SuffixFits(words, k, n, width);
        FittingPrefix(rest, n - k, width);
        GreedyIsMonotone(words[n..], m - (n - k), width);
        assert words[n..][m - (n - k)..] == rest[m..];
      }
    }
  }

  lemma GreedyStep(words: seq<Word>, width: nat)
    requires words != []
    ensures var n := LineCount(words, width);
      0 < n <= |words| && GreedyLines(words, width) == 1 + GreedyLines(words[n..], width)
  {
    hide LineCount, Join;
  }

  lemma FittingPrefix(words: seq<Word>, j: nat, width: nat)
    requires j <= |words| && |Join(words[..j])| <= width
    ensures j <= LineCount(words, width) <= |words|
  {
    hide LineCount, Join;
  }

  // The end of a line that fits, fits.
  lemma SuffixFits(words: seq<Word>, k: nat, n: nat, width: nat)
    requires 0 < k < n == LineCount(words, width)
    ensures |Join(words[k..][..n - k])| <= width
  {
    hide Solid, Join, LineCount;
    assert words[..n] == words[..k] + words[k..][..n - k];
    JoinOfParts(words[..k], words[k..][..n - k]);
  }

  // A way of breaking the words into lines.
  ghost predicate IsLayout(groups: seq<seq<Word>>, words: seq<Word>, width: nat) {
    if groups == [] then words == []
    else
      && groups[0] != [] && groups[0] <= words && |Join(groups[0])| <= width
      && IsLayout(groups[1..], words[|groups[0]|..], width)
  }

  lemma {:induction false} NoLayoutIsShorter(groups: seq<seq<Word>>, words: seq<Word>, width: nat)
    requires IsLayout(groups, words, width)
    ensures GreedyLines(words, width) <= |groups|
    decreases |groups|
  {
    if groups != [] {
      var j := |groups[0]|;
      var n := LineCount(words, width);
      assert words[..j] == groups[0];
      NoLayoutIsShorter(groups[1..], words[j..], width);
      GreedyIsMonotone(words[j..], n - j, width);
      assert words[j..][n - j..] == words[n..];
    }
  }

  /** When no word is wider than the line, no way of breaking the words into lines uses fewer of them. */
  lemma WrapUsesFewestLines(words: seq<Word>, groups: seq<seq<Word>>, width: nat)
    requires AllFit(words, width) && IsLayout(groups, words, width)
    ensures |LinesFrom("", words, width)| <= |groups|
  {
    hide Solid;
    NoLayoutIsShorter(groups, words, width);
    if words != [] {
      JoinOfOne(words[0]);
      assert [words[0]] + words[1..] == words;
      LinesAreGreedy([words[0]], words[1..], width);
    }
  }
}
