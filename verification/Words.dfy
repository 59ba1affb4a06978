/** Text as words: what `str.split()` and `" ".join(...)` do to each other, and the two word-boundary cuts. */
module Words {
  import opened Common

  // The characters Python's `str.isspace` accepts.
  predicate IsSpace(c: char) {
    var n := c as int;
    || 0x09 <= n <= 0x0D || 0x1C <= n <= 0x20 || n == 0x85 || n == 0xA0 || n == 0x1680
    || 0x2000 <= n <= 0x200A || n == 0x2028 || n == 0x2029 || n == 0x202F || n == 0x205F || n == 0x3000
  }

  predicate Solid(s: string) {
    forall i | 0 <= i < |s| :: !IsSpace(s[i])
  }

  type Word = w: string | w != "" && Solid(w) witness "a"

  // Characters before the first white space.
  function RunLength(text: string): (k: nat)
    ensures k <= |text| && Solid(text[..k])
    ensures k < |text| ==> IsSpace(text[k])
  {
    if text == "" || IsSpace(text[0]) then 0 else 1 + RunLength(text[1..])
  }

  // `text.split()`.
  function Split(text: string): seq<Word>
    decreases |text|
  {
    if text == "" then []
    else if IsSpace(text[0]) then Split(text[1..])
    else
      var k := RunLength(text);
      [text[..k]] + Split(text[k..])
  }

  // `" ".join(words)`.
  function Join(words: seq<Word>): string {
    if words == [] then ""
    else if |words| == 1 then words[0]
    else words[0] + " " + Join(words[1..])
  }

  lemma {:induction false} RunOfWord(w: Word, rest: string)
    requires rest == "" || IsSpace(rest[0])
    ensures RunLength(w + rest) == |w|
  {
    if |w| > 1 {
      assert w[1..] + rest == (w + rest)[1..];
      RunOfWord(w[1..], rest);
    } else {
      assert (w + rest)[1..] == rest;
    }
  }

  lemma SplitWordThen(w: Word, rest: string)
    requires rest == "" || IsSpace(rest[0])
    ensures Split(w + rest) == [w] + Split(rest)
  {
    RunOfWord(w, rest);
    assert (w + rest)[..|w|] == w && (w + rest)[|w|..] == rest;
  }

  lemma SplitSpace(text: string)
    ensures Split(" " + text) == Split(text)
  {
    assert (" " + text)[1..] == text;
  }

  lemma SplitFirst(w: Word, text: string)
    ensures Split(w + (" " + text)) == [w] + Split(text)
  {
    hide Solid, Split;
    assert (" " + text)[0] == ' ';
    SplitWordThen(w, " " + text);
    SplitSpace(text);
  }

  /** Splitting joined words gives the words back. */
  lemma {:induction false} SplitOfJoin(words: seq<Word>)
    ensures Split(Join(words)) == words
  {
    if words != [] {
      var w := words[0];
      var rest := Join(words[1..]);
      if |words| == 1 {
        assert w + "" == Join(words);
        SplitWordThen(w, "");
      } else {
        assert w + " " + rest == w + (" " + rest);
        SplitFirst(w, rest);
        SplitOfJoin(words[1..]);
      }
      hide *;
      assert words == [w] + words[1..];
    }
  }

  lemma {:induction false} JoinOfParts(left: seq<Word>, right: seq<Word>)
    ensures Join(left + right)
      == if left == [] then Join(right) else if right == [] then Join(left) else Join(left) + " " + Join(right)
  {
    if left == [] {
      assert left + right == right;
    } else if right == [] {
      assert left + right == left;
    } else {
      assert (left + right)[1..] == left[1..] + right;
      JoinOfParts(left[1..], right);
    }
  }

  lemma JoinIsEmpty(words: seq<Word>)
    ensures Join(words) == "" <==> words == []
  {
  }

  // How many leading words fit in `limit` characters, at least one.
  ghost predicate FitsLine(words: seq<Word>, limit: nat, count: nat) {
    && (words == [] <==> count == 0)
    && count <= |words|
    && (count > 1 ==> |Join(words[..count])| <= limit)
    && (forall k | count < k <= |words| :: |Join(words[..k])| > limit)
  }

  lemma PrefixGrows(words: seq<Word>, k: nat)
    requires k < |words|
    ensures |Join(words[..k + 1])| == |Join(words[..k])| + (if k > 0 then 1 else 0) + |words[k]|
  {
    assert words[..k + 1] == words[..k] + [words[k]];
    JoinOfParts(words[..k], [words[k]]);
  }

  lemma {:induction false} LongerPrefix(words: seq<Word>, j: nat, k: nat)
    requires j <= k <= |words|
    ensures |Join(words[..j])| <= |Join(words[..k])|
  {
    if j < k {
      LongerPrefix(words, j, k - 1);
      PrefixGrows(words, k - 1);
    }
  }

  /** The largest number of leading words that fits; only a first word may be wider than the line. */
  ghost function LineCount(words: seq<Word>, limit: nat): (count: nat)
    ensures FitsLine(words, limit, count)
  {
    if words == [] then 0 else LineCountFrom(words, limit, 1)
  }

  ghost function LineCountFrom(words: seq<Word>, limit: nat, count: nat): (r: nat)
    requires 1 <= count <= |words|
    requires count > 1 ==> |Join(words[..count])| <= limit
    ensures FitsLine(words, limit, r)
    decreases |words| - count
  {
    if count < |words| && |Join(words[..count + 1])| <= limit then LineCountFrom(words, limit, count + 1)
    else
      assert forall k | count < k <= |words| :: |Join(words[..k])| > limit by {
        forall k | count < k <= |words| ensures |Join(words[..k])| > limit {
          LongerPrefix(words, count + 1, k);
        }
      }
      count
  }

  /** Counts words while the joined line stays within the limit; only a first word may be wider. */
  method TakeLineWords(words: seq<Word>, maxChars: nat) returns (taken: nat)
    ensures taken == LineCount(words, maxChars)
  {
    if words == [] {
      return 0;
    }
    var total, count := 0, 0;
    while count < |words|
      invariant count <= |words|
      invariant total == |Join(words[..count])|
      invariant count > 1 ==> total <= maxChars
    {
      PrefixGrows(words, count);
      var extra := |words[count]| + if count != 0 then 1 else 0;
      if count != 0 && total + extra > maxChars {
        forall k | count < k <= |words|
          ensures |Join(words[..k])| > maxChars
        {
          LongerPrefix(words, count + 1, k);
        }
        break;
      }
      total := total + extra;
      count := count + 1;
    }
    taken := Max(count, 1);
  }

  // ----- Longest whole-word suffix -----

  // The suffix of `words` starting at `from` is the longest one that fits.
  ghost predicate IsTail(words: seq<Word>, limit: nat, from: int) {
    && 0 <= from <= |words|
    && |Join(words[from..])| <= limit
    && forall k | 0 <= k < from :: |Join(words[k..])| > limit
  }

  lemma SuffixGrows(words: seq<Word>, k: nat)
    requires k < |words|
    ensures |Join(words[k..])| == |words[k]| + (if k + 1 < |words| then 1 else 0) + |Join(words[k + 1..])|
  {
    assert words[k..] == [words[k]] + words[k + 1..];
    JoinOfParts([words[k]], words[k + 1..]);
  }

  lemma {:induction false} LongerSuffix(words: seq<Word>, j: nat, k: nat)
    requires j <= k <= |words|
    ensures |Join(words[k..])| <= |Join(words[j..])|
    decreases k - j
  {
    if j < k {
      LongerSuffix(words, j + 1, k);
      SuffixGrows(words, j);
    }
  }

  ghost function TailFrom(words: seq<Word>, limit: nat, from: nat): (r: int)
    requires from <= |words|
    requires forall k | 0 <= k < from :: |Join(words[k..])| > limit
    ensures IsTail(words, limit, r)
    decreases |words| - from
  {
    if |Join(words[from..])| <= limit then from else TailFrom(words, limit, from + 1)
  }

  // `text[-n:]`, which is the whole text for n = 0.
  function LastCharacters(text: string, n: nat): string {
    if n == 0 || n >= |text| then text else text[|text| - n..]
  }

  /** The firmware-visible text: all of it if it fits, else its longest whole-word tail, else its last characters. With
      no room at all the program gives up and returns the text. */
  ghost function Tail(text: string, limit: nat): (tail: string)
    ensures limit > 0 ==> |tail| <= limit
    ensures limit == 0 ==> tail == text
  {
    if |text| <= limit then text
    else
      var words := Split(text);
      var from := TailFrom(words, limit, 0);
      JoinIsEmpty(words[from..]);
      if from < |words| then Join(words[from..]) else LastCharacters(text, limit)
  }

  /** What the visible text is: the longest whole-word tail that fits has no longer one that does, and there is none only
      if the last word does not fit. */
  lemma TailIs(text: string, limit: nat) returns (from: nat)
    requires |text| > limit > 0
    ensures var words := Split(text);
      && from <= |words| && (forall k | 0 <= k < from :: |Join(words[k..])| > limit)
      && if from < |words| then Tail(text, limit) == Join(words[from..]) && |Join(words[from..])| <= limit
         else Tail(text, limit) == text[|text| - limit..]
  {
    hide Solid, Split, Join;
    from := TailFrom(Split(text), limit, 0);
  }

  // White space in front of a word is skipped, whatever and however much it is.
  lemma SplitSkips(c: char, text: string)
    requires IsSpace(c)
    ensures Split([c] + text) == Split(text) && Split("") == []
  {
    assert ([c] + text)[1..] == text;
  }

  method BoundedTail(text: string, maxChars: nat) returns (tail: string)
    ensures tail == Tail(text, maxChars)
  {
    if |text| <= maxChars {
      return text;
    }
    var words := Split(text);
    var kept: seq<Word> := [];
    var total := 0;
    ghost var at := |words|;
    for i := 0 to |words|
      invariant at == |words| - i && kept == words[at..]
      invariant total == |Join(kept)| <= maxChars
    {
      var word := words[|words| - 1 - i];
      SuffixGrows(words, at - 1);
      var extra := |word| + if kept != [] then 1 else 0;
      if total + extra > maxChars {
        break;
      }
      kept := [word] + kept;
      total := total + extra;
      at := at - 1;
    }
    forall k | 0 <= k < at ensures |Join(words[k..])| > maxChars {
      LongerSuffix(words, k, at - 1);
    }
    assert IsTail(words, maxChars, at);
    tail := if kept != [] then Join(kept) else LastCharacters(text, maxChars);
  }
}
