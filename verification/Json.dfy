/** Cursor scanning of the flat JSON objects the server sends. A C string is a `string` of bytes without NUL; reading
    at its end gives NUL. */
module Json {
  import opened Common
  import opened Utf8

  const MAX_DEPTH := 4
  const TOKEN_MAX := 64
  const NUL := 0 as char

  // What `strtod` takes as one whole finite number.
  type Numeric = string -> bool

  function At(t: string, i: nat): char {
    if i < |t| then t[i] else NUL
  }

  // C's `isspace` in the C locale.
  predicate IsSpace(c: char) {
    c == ' ' || 9 <= c as int <= 13
  }

  // ----- Specification functions: the new cursor, if the scan succeeds -----

  function SkipSpace(t: string, i: nat): (j: nat)
    requires i <= |t|
    ensures i <= j <= |t| && !IsSpace(At(t, j))
    decreases |t| - i
  {
    if IsSpace(At(t, i)) then SkipSpace(t, i + 1) else i
  }

  predicate IsEscape(c: char) {
    c in {'b', 'f', 'n', 'r', 't', '"', '\\', '/'}
  }

  // Behind the opening quote: the cursor after the closing one.
  function SkipBody(t: string, i: nat): (r: Option<nat>)
    requires i <= |t|
    ensures r.Some? ==> i < r.value <= |t|
    decreases |t| - i
  {
    if i == |t| then None
    else if t[i] == '"' then Some(i + 1)
    else if t[i] < ' ' then None
    else if t[i] == '\\' then
      if i + 1 < |t| && IsEscape(t[i + 1]) then SkipBody(t, i + 2) else None
    else SkipBody(t, i + 1)
  }

  function SkipString(t: string, i: nat): (r: Option<nat>)
    requires i <= |t|
    ensures r.Some? ==> i < r.value <= |t|
  {
    if At(t, i) != '"' then None else SkipBody(t, i + 1)
  }

  predicate EndsScalar(c: char) {
    c == NUL || c == ',' || c == '}' || c == ']' || IsSpace(c)
  }

  function ScalarEnd(t: string, i: nat): (j: nat)
    requires i <= |t|
    ensures i <= j <= |t| && EndsScalar(At(t, j)) && forall k | i <= k < j :: !EndsScalar(t[k])
    decreases |t| - i
  {
    if EndsScalar(At(t, i)) then i else ScalarEnd(t, i + 1)
  }

  predicate IsScalar(token: string, numeric: Numeric) {
    token == "true" || token == "null" || token == "false"
    || (0 < |token| < TOKEN_MAX && (token[0] == '-' || '0' <= token[0] <= '9') && numeric(token))
  }

  function SkipScalar(t: string, i: nat, numeric: Numeric): (r: Option<nat>)
    requires i <= |t|
    ensures r.Some? ==> i < r.value <= |t|
  {
    var j := ScalarEnd(t, i);
    if IsScalar(t[i..j], numeric) then Some(j) else None
  }

  // A key, a colon and the white space around it.
  function SkipKey(t: string, i: nat): (r: Option<nat>)
    requires i <= |t|
    ensures r.Some? ==> i < r.value <= |t|
  {
    var key := SkipString(t, i);
    if key.None? then None
    else
      var j := SkipSpace(t, key.value);
      if At(t, j) != ':' then None else Some(SkipSpace(t, j + 1))
  }

  function Closing(opening: char): char {
    if opening == '[' then ']' else '}'
  }

  function SkipValue(t: string, i: nat, depth: nat, numeric: Numeric): (r: Option<nat>)
    requires i <= |t|
    ensures r.Some? ==> i < r.value <= |t|
    decreases |t| - i, 2
  {
    if At(t, i) == '[' || At(t, i) == '{' then SkipContainer(t, i, depth, numeric)
    else if At(t, i) == '"' then SkipString(t, i)
    else SkipScalar(t, i, numeric)
  }

  function SkipContainer(t: string, i: nat, depth: nat, numeric: Numeric): (r: Option<nat>)
    requires i < |t|
    ensures r.Some? ==> i < r.value <= |t|
    decreases |t| - i, 1
  {
    if depth >= MAX_DEPTH then None
    else
      var j := SkipSpace(t, i + 1);
      if At(t, j) == Closing(t[i]) then Some(j + 1) else SkipItems(t, j, t[i], depth, numeric)
  }

  // One item and all that follow it, up to the closing bracket.
  function SkipItems(t: string, i: nat, opening: char, depth: nat, numeric: Numeric): (r: Option<nat>)
    requires i <= |t|
    ensures r.Some? ==> i < r.value <= |t|
    decreases |t| - i, 3
  {
    var start := if opening == '{' then SkipKey(t, i) else Some(i);
    if start.None? then None
    else
      var value := SkipValue(t, start.value, depth + 1, numeric);
      if value.None? then None
      else
        var j := SkipSpace(t, value.value);
        if At(t, j) == ',' then SkipItems(t, SkipSpace(t, j + 1), opening, depth, numeric)
        else if At(t, j) == Closing(opening) then Some(j + 1)
        else None
  }

  // ----- What a string field decodes to -----

  function Unescape(c: char): char {
    if c in {'b', 'f', 'n', 'r', 't'} then ' ' else c
  }

  // The bytes from i up to the closing quote, escapes decoded.
  function DecodeFrom(t: string, i: nat): string
    requires i <= |t| && SkipBody(t, i).Some?
    decreases |t| - i
  {
    if t[i] == '"' then ""
    else if t[i] == '\\' then [Unescape(t[i + 1])] + DecodeFrom(t, i + 2)
    else [t[i]] + DecodeFrom(t, i + 1)
  }

  // An escape is two bytes of text and one decoded byte.
  lemma EscapeStep(t: string, i: nat)
    requires i < |t| && SkipBody(t, i).Some? && t[i] == '\\' && IsUtf8(t[i..SkipBody(t, i).value - 1])
    ensures i + 1 < |t| && SkipBody(t, i + 2) == SkipBody(t, i) && IsUtf8(t[i + 2..SkipBody(t, i).value - 1])
    ensures SequenceLength(Unescape(t[i + 1])) == 1
    ensures DecodeFrom(t, i) == [Unescape(t[i + 1])] + DecodeFrom(t, i + 2)
  {
    hide IsContinuation, SequenceLength, IsEscape, Unescape;
    var end := SkipBody(t, i).value - 1;
    var body := t[i..end];
    EscapesAreSingle(t[i + 1]);
    assert body[1..] == t[i + 1..end] && body[1..][1..] == t[i + 2..end];
    assert IsUtf8(body[1..]) && body[1..][0] == t[i + 1];
  }

  // A plain code point is decoded as it stands.
  lemma PlainStep(t: string, i: nat) returns (n: nat)
    requires i < |t| && SkipBody(t, i).Some? && t[i] != '\\' && t[i] != '"' && IsUtf8(t[i..SkipBody(t, i).value - 1])
    ensures 0 < n && i + n < SkipBody(t, i).value && SkipBody(t, i + n) == SkipBody(t, i)
    ensures IsUtf8(t[i + n..SkipBody(t, i).value - 1]) && IsUtf8(t[i..i + n])
    ensures DecodeFrom(t, i) == t[i..i + n] + DecodeFrom(t, i + n)
  {
    hide IsContinuation, SequenceLength, DecodeFrom;
    PlainByte(t, i);
    hide SkipBody;
    var end := SkipBody(t, i).value - 1;
    var body := t[i..end];
    n := SequenceLength(t[i]);
    assert body[n..] == t[i + n..end] && t[i..i + n] == body[..n] && body[..n][n..] == "";
    assert forall k | i < k < i + n :: t[k] == body[k - i];
    PlainBytes(t, i, n);
  }

  lemma AtClosingQuote(t: string, i: nat)
    requires i <= |t| && SkipBody(t, i).Some?
    ensures i < |t| && (t[i] == '"' ==> DecodeFrom(t, i) == "" && IsUtf8(""))
  {
  }

  /** Escapes are single bytes that stand for single bytes: decoding keeps UTF-8 well-formed. */
  lemma {:induction false} DecodedIsUtf8(t: string, i: nat)
    requires i <= |t| && SkipBody(t, i).Some? && IsUtf8(t[i..SkipBody(t, i).value - 1])
    ensures IsUtf8(DecodeFrom(t, i))
    decreases |t| - i
  {
    hide SkipBody, DecodeFrom, IsUtf8, SequenceLength;
    AtClosingQuote(t, i);
    if t[i] == '"' {
    } else if t[i] == '\\' {
      EscapeStep(t, i);
      DecodedIsUtf8(t, i + 2);
      OneByteMore(Unescape(t[i + 1]), DecodeFrom(t, i + 2));
    } else {
      var n := PlainStep(t, i);
      DecodedIsUtf8(t, i + n);
      Utf8Prefix(t[i..i + n], DecodeFrom(t, i + n));
    }
  }

  lemma OneByteMore(c: char, s: string)
    requires SequenceLength(c) == 1 && IsUtf8(s)
    ensures IsUtf8([c] + s)
  {
    assert ([c] + s)[1..] == s;
  }

  lemma EscapesAreSingle(c: char)
    requires IsEscape(c)
    ensures SequenceLength(c) == 1 && SequenceLength(Unescape(c)) == 1 && SequenceLength('\\') == 1
  {
  }

  lemma ContinuationIsPlain(c: char)
    requires IsContinuation(c)
    ensures c != '"' && c != '\\' && c >= ' '
  {
  }

  lemma PlainByte(t: string, i: nat)
    requires i < |t| && SkipBody(t, i).Some? && t[i] != '"' && t[i] != '\\'
    ensures SkipBody(t, i + 1) == SkipBody(t, i) && DecodeFrom(t, i) == [t[i]] + DecodeFrom(t, i + 1)
  {
  }

  // A code point without escapes decodes to itself.
  lemma {:induction false} PlainBytes(t: string, i: nat, n: nat)
    requires i <= |t| && SkipBody(t, i).Some? && 0 < n && i + n < SkipBody(t, i).value
    requires t[i] != '\\' && t[i] != '"' && forall k | i < k < i + n :: IsContinuation(t[k])
    ensures SkipBody(t, i + n) == SkipBody(t, i)
    ensures DecodeFrom(t, i) == t[i..i + n] + DecodeFrom(t, i + n)
    decreases n
  {
    hide IsContinuation, SkipBody, DecodeFrom;
    PlainByte(t, i);
    if n > 1 {
      ContinuationIsPlain(t[i + 1]);
      PlainBytes(t, i + 1, n - 1);
      assert t[i..i + n] == [t[i]] + t[i + 1..i + n];
    }
  }

  /** A bounded field ends up with the longest whole-code-point prefix of the decoded text, for every capacity. */
  lemma FieldHoldsLongestPrefix(t: string, cursor: nat, cap: nat)
    requires cursor <= |t| && SkipString(t, cursor).Some?
    requires IsUtf8(t[cursor + 1..SkipString(t, cursor).value - 1])
    ensures var text := DecodeFrom(t, cursor + 1); IsLongestPrefix(Stored(text, cap), text, cap)
  {
    DecodedIsUtf8(t, cursor + 1);
    StoredIsLongestPrefix(DecodeFrom(t, cursor + 1), cap);
  }

  // ----- The cursor code -----

  method SkipWhitespace(t: string, cursor: nat) returns (next: nat)
    requires cursor <= |t|
    ensures next == SkipSpace(t, cursor)
  {
    next := cursor;
    while IsSpace(At(t, next))
      invariant next <= |t| && SkipSpace(t, next) == SkipSpace(t, cursor)
      decreases |t| - next
    {
      next := next + 1;
    }
  }

  method ScalarSpan(t: string, cursor: nat) returns (end: Option<nat>)
    requires cursor <= |t|
    ensures end == if ScalarEnd(t, cursor) == cursor then None else Some(ScalarEnd(t, cursor))
  {
    var e := cursor;
    while !EndsScalar(At(t, e))
      invariant e <= |t| && ScalarEnd(t, e) == ScalarEnd(t, cursor)
      decreases |t| - e
    {
      e := e + 1;
    }
    end := if e == cursor then None else Some(e);
  }

  // The trimming loop at the end of a truncated copy.
  method TrimStored(dst: array<char>, used: nat) returns (out: nat)
    requires used < dst.Length
    ensures out <= used && dst[..out] == TrimTail(dst[..used])
  {
    var i: nat := used;
    ghost var s := dst[..used];
    while i > 0 && IsContinuation(dst[i - 1])
      invariant i <= used && BehindLead(s, used) == BehindLead(s, i)
    {
      i := i - 1;
    }
    out := used;
    if i > 0 {
      var expected := SequenceLength(dst[i - 1]);
      if expected == 0 || out - (i - 1) < expected {
        out := i - 1;
      }
    }
  }

  // `length` is that of the stored text.
  datatype StringResult = Parsed(next: nat, truncated: bool, length: nat) | Malformed

  // The buffer holds what fits of the text so far.
  ghost predicate Copied(dst: array<char>, out: nat, truncated: bool, sofar: string)
    reads dst
  {
    && out < dst.Length && out <= |sofar| && dst[..out] == sofar[..out]
    && truncated == (|sofar| > dst.Length - 1)
    && out == (if truncated then dst.Length - 1 else |sofar|)
  }

  // One decoded byte is stored if there is room before the terminator.
  method PutByte(dst: array<char>, out: nat, truncated: bool, ch: char, ghost sofar: string) returns (out': nat, truncated': bool)
    requires Copied(dst, out, truncated, sofar)
    modifies dst
    ensures Copied(dst, out', truncated', sofar + [ch])
  {
    out', truncated' := out, truncated;
    if out + 1 < dst.Length {
      dst[out] := ch;
      out' := out + 1;
    } else {
      truncated' := true;
    }
  }

  // Trims a truncated copy and terminates it.
  method Terminate(dst: array<char>, used: nat, truncated: bool, ghost text: string) returns (out: nat)
    requires Copied(dst, used, truncated, text)
    modifies dst
    ensures out == |Stored(text, dst.Length - 1)|
    ensures var kept := Stored(text, dst.Length - 1);
      |kept| < dst.Length && dst[..|kept|] == kept && dst[|kept|] == NUL
  {
    hide TrimTail;
    out := used;
    if truncated {
      out := TrimStored(dst, used);
    }
    assert dst[..out] == Stored(text, dst.Length - 1);
    dst[out] := NUL;
  }

  // One byte of the string, an escape counting as one.
  method NextByte(t: string, cursor: nat) returns (ch: char, next: Option<nat>)
    requires cursor < |t| && t[cursor] != '"'
    ensures next.None? ==> SkipBody(t, cursor).None?
    ensures next.Some? ==> cursor < next.value <= |t| && SkipBody(t, cursor) == SkipBody(t, next.value)
    ensures next.Some? && SkipBody(t, cursor).Some? ==> DecodeFrom(t, cursor) == [ch] + DecodeFrom(t, next.value)
  {
    ch := t[cursor];
    if ch < ' ' {
      return ch, None;
    }
    var behind := cursor + 1;
    if ch == '\\' {
      if At(t, behind) == NUL || !IsEscape(At(t, behind)) {
        return ch, None;
      }
      ch := Unescape(t[behind]);
      behind := behind + 1;
    }
    next := Some(behind);
  }

  lemma EndOfBody(t: string, i: nat)
    requires i <= |t| && (At(t, i) == NUL || At(t, i) == '"')
    ensures if At(t, i) == '"' then i < |t| && SkipBody(t, i) == Some(i + 1) && DecodeFrom(t, i) == ""
      else SkipBody(t, i) == None
  {
  }

  // The loop over the characters behind the opening quote.
  method CopyBody(t: string, start: nat, dst: array?<char>) returns (end: Option<nat>, out: nat, truncated: bool)
    requires start <= |t| && (dst == null || dst.Length > 0)
    modifies dst
    ensures end == SkipBody(t, start)
    ensures end.Some? && dst != null ==> Copied(dst, out, truncated, DecodeFrom(t, start))
    ensures dst == null ==> !truncated
    ensures end.Some? ==> (end.value == start + 1 <==> DecodeFrom(t, start) == "")
  {
    hide SkipBody, DecodeFrom;
    var next := start;
    out, truncated := 0, false;
    ghost var sofar := "";
    while At(t, next) != NUL && At(t, next) != '"'
      invariant next <= |t| && SkipBody(t, next) == SkipBody(t, start)
      invariant SkipBody(t, next).Some? ==> sofar + DecodeFrom(t, next) == DecodeFrom(t, start)
      invariant dst == null ==> !truncated
      invariant dst != null ==> Copied(dst, out, truncated, sofar)
      invariant next == start <==> sofar == ""
      decreases |t| - next
    {
      hide Copied;
      var ch, behind := NextByte(t, next);
      if behind.None? {
        return None, out, truncated;
      }
      next := behind.value;
      if dst != null {
        out, truncated := PutByte(dst, out, truncated, ch, sofar);
      }
      sofar := sofar + [ch];
    }
    EndOfBody(t, next);
    if At(t, next) != '"' {
      return None, out, truncated;
    }
    assert sofar + "" == sofar;
    end := Some(next + 1);
  }

  /** Parses a string into the caller's buffer, or only skips it when there is none. The field ends up holding the
      stored part of the decoded text and its terminator. */
  method ParseString(t: string, cursor: nat, dst: array?<char>, requireNonEmpty: bool) returns (r: StringResult)
    requires cursor <= |t|
    modifies dst
    ensures r.Parsed? <==>
      && SkipString(t, cursor).Some? && (dst == null || dst.Length > 0)
      && (!requireNonEmpty || DecodeFrom(t, cursor + 1) != "")
    ensures r.Parsed? ==> Some(r.next) == SkipString(t, cursor)
    ensures r.Parsed? && dst != null ==>
      var text := DecodeFrom(t, cursor + 1); var kept := Stored(text, dst.Length - 1);
      |kept| == r.length < dst.Length && dst[..|kept|] == kept && dst[|kept|] == NUL
      && r.truncated == (|text| > dst.Length - 1)
    ensures r.Parsed? && dst == null ==> !r.truncated
  {
    hide Stored, SkipBody, DecodeFrom;
    if At(t, cursor) != '"' || (dst != null && dst.Length == 0) {
      return Malformed;
    }
    var end, out, truncated := CopyBody(t, cursor + 1, dst);
    if end.None? {
      return Malformed;
    }
    if dst != null {
      out := Terminate(dst, out, truncated, DecodeFrom(t, cursor + 1));
    }
    r := if requireNonEmpty && end.value == cursor + 2 then Malformed else Parsed(end.value, truncated, out);
  }

  /** Skips one value: scalar, string, array or object. */
  method SkipValueAt(t: string, cursor: nat, depth: nat, numeric: Numeric) returns (next: Option<nat>)
    requires cursor <= |t|
    ensures next == SkipValue(t, cursor, depth, numeric)
    decreases |t| - cursor, 2
  {
    if At(t, cursor) == '[' || At(t, cursor) == '{' {
      next := SkipContainerAt(t, cursor, depth, numeric);
      return;
    }
    if At(t, cursor) == '"' {
      var r := ParseString(t, cursor, null, false);
      return if r.Parsed? then Some(r.next) else None;
    }
    var end := ScalarSpan(t, cursor);
    if end.None? {
      return None;
    }
    var token := t[cursor..end.value];
    if token == "true" || token == "null" || token == "false" {
      return end;
    }
    if |token| >= TOKEN_MAX || (token[0] != '-' && !('0' <= token[0] <= '9')) || !numeric(token) {
      return None;
    }
    next := end;
  }

  method SkipKeyAt(t: string, cursor: nat) returns (next: Option<nat>)
    requires cursor <= |t|
    ensures next == SkipKey(t, cursor)
  {
    var r := ParseString(t, cursor, null, false);
    if r.Malformed? {
      return None;
    }
    var j := SkipWhitespace(t, r.next);
    if At(t, j) != ':' {
      return None;
    }
    j := SkipWhitespace(t, j + 1);
    next := Some(j);
  }

  method SkipContainerAt(t: string, cursor: nat, depth: nat, numeric: Numeric) returns (next: Option<nat>)
    requires cursor < |t|
    ensures next == SkipContainer(t, cursor, depth, numeric)
    decreases |t| - cursor, 1
  {
    hide SkipValue, SkipKey, SkipSpace, IsSpace;
    var opening := t[cursor];
    var closing := Closing(opening);
    if depth >= MAX_DEPTH {
      return None;
    }
    var at := SkipWhitespace(t, cursor + 1);
    if At(t, at) == closing {
      return Some(at + 1);
    }
    while true
      invariant cursor < at <= |t|
      invariant SkipContainer(t, cursor, depth, numeric) == SkipItems(t, at, opening, depth, numeric)
      decreases |t| - at
    {
      ghost var start := at;
      if opening == '{' {
        var key := SkipKeyAt(t, at);
        if key.None? {
          return None;
        }
        at := key.value;
      }
      var value := SkipValueAt(t, at, depth + 1, numeric);
      if value.None? {
        return None;
      }
      at := SkipWhitespace(t, value.value);
      if At(t, at) == ',' {
        at := SkipWhitespace(t, at + 1);
      } else if At(t, at) == closing {
        return Some(at + 1);
      } else {
        return None;
      }
    }
  }
}
