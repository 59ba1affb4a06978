/** The field callbacks of the server's messages, and what they accept against what the walker would skip. */
module SessionFields {
  import opened Common
  import opened Json
  import opened SessionJson
  import opened SessionStart

  // ----- Bounded decimal numbers -----

  predicate IsBounded(text: string, min: nat, max: nat) {
    text != "" && IsDigits(text) && min <= DecimalValue(text) <= max
  }

  lemma {:induction false} DigitsOfPrefix(text: string, i: nat)
    requires i <= |text| && IsDigits(text)
    ensures IsDigits(text[..i]) && DecimalValue(text[..i]) <= DecimalValue(text)
    decreases |text|
  {
    if i == |text| {
      assert text[..i] == text;
    } else {
      DigitsOfPrefix(text[..|text| - 1], i);
      assert text[..|text| - 1][..i] == text[..i];
    }
  }

  lemma OneDigitMore(text: string, i: nat)
    requires i < |text| && IsDigits(text[..i]) && '0' <= text[i] <= '9'
    ensures IsDigits(text[..i + 1])
    ensures DecimalValue(text[..i + 1]) == DecimalValue(text[..i]) * 10 + (text[i] as int - '0' as int)
  {
    assert text[..i + 1][..i] == text[..i];
  }

  /** Reads a span of decimal digits; the value never passes the bound on the way. */
  method ParseU32(text: string, min: nat, max: nat) returns (value: Option<nat>)
    requires max < U32_LIMIT
    ensures value == if IsBounded(text, min, max) then Some(DecimalValue(text)) else None
  {
    hide DecimalValue, IsDigits;
    if text == "" || min > max {
      return None;
    }
    var parsed := 0;
    StartOfDigits(text);
    for i := 0 to |text|
      invariant IsDigits(text[..i]) && parsed == DecimalValue(text[..i]) <= max
    {
      if text[i] < '0' || text[i] > '9' {
        NoDigit(text, i);
        return None;
      }
      var digit := text[i] as int - '0' as int;
      OneDigitMore(text, i);
      if digit > max || parsed > (max - digit) / 10 {
        if IsDigits(text) {
          DigitsOfPrefix(text, i + 1);
        }
        return None;
      }
      parsed := parsed * 10 + digit;
    }
    assert text[..|text|] == text;
    return if parsed < min then None else Some(parsed);
  }

  lemma StartOfDigits(text: string)
    ensures IsDigits(text[..0]) && DecimalValue(text[..0]) == 0
  {
  }

  lemma NoDigit(text: string, i: nat)
    requires i < |text| && !('0' <= text[i] <= '9')
    ensures !IsDigits(text)
  {
  }

  // ----- What the readers do to the cursor -----

  function ReadString(t: string, i: nat, requireNonEmpty: bool): (r: Reply)
    requires i <= |t|
    ensures r.Took? ==> i < r.next <= |t|
  {
    var end := SkipString(t, i);
    if end.None? || (requireNonEmpty && DecodeFrom(t, i + 1) == "") then Refused else Took(end.value)
  }

  function ReadRaw(t: string, i: nat, numeric: Numeric): (r: Reply)
    requires i <= |t|
    ensures r.Took? ==> i < r.next <= |t|
  {
    var end := SkipValue(t, i, 0, numeric);
    if end.None? then Refused else Took(end.value)
  }

  function ReadU32(t: string, i: nat): (r: Reply)
    requires i <= |t|
    ensures r.Took? ==> i < r.next <= |t|
  {
    var end := ScalarEnd(t, i);
    if IsBounded(t[i..end], 0, U32_LIMIT - 1) then Took(end) else Refused
  }

  function ReadBool(t: string, i: nat): (r: Reply)
    requires i <= |t|
    ensures r.Took? ==> i < r.next <= |t|
  {
    var end := ScalarEnd(t, i);
    if t[i..end] in {"true", "false", "0", "1"} then Took(end) else Refused
  }

  // ----- The callbacks -----

  function OnType(): OnField {
    (key: string, t: string, i: nat) =>
      if i > |t| then Refused else if key == "type" then ReadString(t, i, true) else NotMine
  }

  function OnReady(numeric: Numeric): OnField {
    (key: string, t: string, i: nat) =>
      if i > |t| then Refused
      else if key == "version" || key == "sample_rate_hz" then ReadU32(t, i)
      else if key == "run_engine" then ReadString(t, i, false)
      else if key == "run_config" then ReadRaw(t, i, numeric)
      else NotMine
  }

  function OnError(): OnField {
    (key: string, t: string, i: nat) =>
      if i > |t| then Refused
      else if key == "message" then ReadString(t, i, false)
      else if key == "busy" then ReadBool(t, i)
      else NotMine
  }

  // The walker may use all three.
  lemma CallbacksGoForward(numeric: Numeric)
    ensures Forward(OnType()) && Forward(OnReady(numeric)) && Forward(OnError())
  {
    hide SkipBody, SkipContainer, SkipScalar, DecodeFrom, DecimalValue, IsDigits, ScalarEnd;
    forall onField: OnField | onField in {OnType(), OnReady(numeric), OnError()}
      ensures Forward(onField)
    {
      forall key: string, t: string, i: nat | onField(key, t, i).Took?
        ensures i < onField(key, t, i).next <= |t|
      {
        var replies := {ReadString(t, i, true), ReadString(t, i, false), ReadRaw(t, i, numeric), ReadU32(t, i), ReadBool(t, i)};
        assert onField(key, t, i) in replies;
      }
    }
  }

  // ----- Reading and skipping -----

  lemma StringsAreSkipped(t: string, i: nat, requireNonEmpty: bool, numeric: Numeric)
    requires i <= |t| && ReadString(t, i, requireNonEmpty).Took?
    ensures SkipValue(t, i, 0, numeric) == Some(ReadString(t, i, requireNonEmpty).next)
  {
    hide DecodeFrom, SkipBody;
  }

  lemma TokensAreSkipped(t: string, i: nat, numeric: Numeric)
    requires i < |t| && t[i] !in {'[', '{', '"'}
    ensures SkipValue(t, i, 0, numeric) == if IsScalar(t[i..ScalarEnd(t, i)], numeric) then Some(ScalarEnd(t, i)) else None
  {
    hide IsScalar, ScalarEnd;
  }

  lemma FirstOfToken(t: string, i: nat)
    requires i <= |t| && t[i..ScalarEnd(t, i)] != ""
    ensures i < |t| && t[i..ScalarEnd(t, i)][0] == t[i]
  {
  }

  lemma NumberToken(t: string, i: nat)
    requires i <= |t| && ReadU32(t, i).Took?
    ensures i < |t| && '0' <= t[i] <= '9' && ReadU32(t, i).next == ScalarEnd(t, i) > i && IsDigits(t[i..ScalarEnd(t, i)])
  {
    hide ScalarEnd, DecimalValue;
    FirstOfToken(t, i);
  }

  // All short runs of digits are numbers.
  ghost predicate TakesDigits(numeric: Numeric) {
    forall s: string | s != "" && IsDigits(s) && |s| < TOKEN_MAX :: numeric(s)
  }

  /** A number the callbacks read can be skipped exactly if its token is shorter than 64 characters, as one value then. */
  lemma NumberIsSkippedIff(t: string, i: nat, numeric: Numeric)
    requires i <= |t| && ReadU32(t, i).Took? && TakesDigits(numeric)
    ensures SkipValue(t, i, 0, numeric)
      == if ReadU32(t, i).next - i < TOKEN_MAX then Some(ReadU32(t, i).next) else None
  {
    hide ScalarEnd, ReadU32, DecimalValue;
    NumberToken(t, i);
    FirstOfToken(t, i);
    TokensAreSkipped(t, i, numeric);
    var token := t[i..ScalarEnd(t, i)];
    assert token !in {"true", "false", "null"} by {
      assert token[0] != 't' && token[0] != 'f' && token[0] != 'n';
    }
  }

  // Sixty-four zeros are read as the number zero, and cannot be skipped.
  lemma LongZeroIsReadNotSkipped(numeric: Numeric) returns (t: string)
    requires TakesDigits(numeric)
    ensures ReadU32(t, 0).Took? && SkipValue(t, 0, 0, numeric) == None
  {
    hide *;
    t := LongZero();
    ZerosAreRead(t);
    NumberIsSkippedIff(t, 0, numeric);
  }

  lemma LongZero() returns (t: string)
    ensures |t| >= TOKEN_MAX && IsDigits(t) && DecimalValue(t) == 0
  {
    hide IsDigits, DecimalValue, Zeros;
    t := Zeros(TOKEN_MAX);
    ZerosAreZero(TOKEN_MAX);
  }

  lemma ZerosAreRead(t: string)
    requires |t| >= TOKEN_MAX && IsDigits(t) && DecimalValue(t) == 0
    ensures ReadU32(t, 0) == Took(|t|)
  {
    hide DecimalValue;
    ScalarOfDigits(t, 0);
    assert t[0..|t|] == t;
  }

  function Zeros(n: nat): string {
    if n == 0 then "" else Zeros(n - 1) + "0"
  }

  lemma {:induction false} ZerosAreZero(n: nat)
    ensures |Zeros(n)| == n && IsDigits(Zeros(n)) && DecimalValue(Zeros(n)) == 0
  {
    if n > 0 {
      ZerosAreZero(n - 1);
      assert Zeros(n)[..n - 1] == Zeros(n - 1);
    }
  }

  lemma {:induction false} ScalarOfDigits(t: string, i: nat)
    requires i <= |t| && IsDigits(t)
    ensures ScalarEnd(t, i) == |t|
    decreases |t| - i
  {
    if i < |t| {
      assert '0' <= t[i] <= '9';
      ScalarOfDigits(t, i + 1);
    }
  }

  lemma BoolIsSkipped(t: string, i: nat, numeric: Numeric)
    requires i <= |t| && ReadBool(t, i).Took? && SkipValue(t, i, 0, numeric).Some?
    ensures SkipValue(t, i, 0, numeric) == Some(ReadBool(t, i).next)
  {
    hide ScalarEnd, SkipValue, IsScalar;
    FirstOfToken(t, i);
    TokensAreSkipped(t, i, numeric);
  }

  lemma NumberIsSkipped(t: string, i: nat, numeric: Numeric)
    requires i <= |t| && ReadU32(t, i).Took? && SkipValue(t, i, 0, numeric).Some?
    ensures SkipValue(t, i, 0, numeric) == Some(ReadU32(t, i).next)
  {
    hide ScalarEnd, SkipValue, IsScalar, ReadU32;
    NumberToken(t, i);
    TokensAreSkipped(t, i, numeric);
  }

  // ----- The walks -----

  lemma TypeIsHonest(numeric: Numeric)
    ensures Honest(OnType(), numeric)
  {
    hide ReadString, SkipValue;
    forall key: string, t: string, i: nat | i <= |t| && OnType()(key, t, i).Took?
      ensures SkipValue(t, i, 0, numeric) == Some(OnType()(key, t, i).next)
    {
      StringsAreSkipped(t, i, true, numeric);
    }
  }

  lemma ReadyAgrees(numeric: Numeric)
    ensures Agrees(OnReady(numeric), numeric)
  {
    hide ReadString, SkipValue, ReadU32;
    forall key: string, t: string, i: nat |
      i <= |t| && OnReady(numeric)(key, t, i).Took? && SkipValue(t, i, 0, numeric).Some?
      ensures SkipValue(t, i, 0, numeric) == Some(OnReady(numeric)(key, t, i).next)
    {
      if key == "version" || key == "sample_rate_hz" {
        assert OnReady(numeric)(key, t, i) == ReadU32(t, i);
        NumberIsSkipped(t, i, numeric);
      } else if key == "run_engine" {
        StringsAreSkipped(t, i, false, numeric);
      } else {
        assert OnReady(numeric)(key, t, i) == ReadRaw(t, i, numeric);
      }
    }
  }

  lemma ErrorAgrees(numeric: Numeric)
    ensures Agrees(OnError(), numeric)
  {
    hide ReadString, SkipValue, ReadBool;
    forall key: string, t: string, i: nat |
      i <= |t| && OnError()(key, t, i).Took? && SkipValue(t, i, 0, numeric).Some?
      ensures SkipValue(t, i, 0, numeric) == Some(OnError()(key, t, i).next)
    {
      if key == "busy" {
        BoolIsSkipped(t, i, numeric);
      } else {
        StringsAreSkipped(t, i, false, numeric);
      }
    }
  }

  /** A message is walked for its type first. Where that walk gets through, the walks for the fields of a ready or an
      error message see the same fields, or refuse one. */
  lemma LaterWalkSeesTheSame(t: string, onField: OnField, numeric: Numeric)
    requires WalkWith(t, OnType(), numeric).Some? && onField in {OnReady(numeric), OnError()}
    ensures var first := SkipSpace(t, 0) + 1;
      && WalkWith(t, OnType(), numeric) == Walk(t, numeric)
      && WalkWith(t, onField, numeric)
        == if Walk(t, numeric) != Some([]) && first <= |t| && RefusedFrom(t, first, onField, numeric) then None
           else Walk(t, numeric)
  {
    hide *;
    TypeIsHonest(numeric);
    HonestWalk(t, OnType(), numeric);
    ReadyAgrees(numeric);
    ErrorAgrees(numeric);
    AgreeingWalk(t, onField, numeric);
  }
}
