/** The session messages: the builder of `session_start` and the walker over top-level objects. */
module SessionJson {
  import opened Common
  import opened Utf8
  import opened Json
  import opened JsonGrammar

  const KEY_MAX := 32
  const LANG_MAX := 16
  const U32_LIMIT: nat := 0x1_0000_0000

  // ----- The walker -----

  // One top-level field: the key as far as it fits the walker's buffer, and the raw text of the value.
  datatype Field = Field(key: string, truncated: bool, raw: string)

  function FieldAt(t: string, i: nat, start: nat, end: nat): Field
    requires i <= |t| && SkipString(t, i).Some? && start <= end <= |t|
  {
    var key := DecodeFrom(t, i + 1);
    Field(Stored(key, KEY_MAX - 1), |key| > KEY_MAX - 1, t[start..end])
  }

  // The fields from the key at i on, when every value is skipped.
  function WalkFields(t: string, i: nat, numeric: Numeric): Option<seq<Field>>
    requires i <= |t|
    decreases |t| - i
  {
    var at := SkipSpace(t, i);
    var start := SkipKey(t, at);
    if start.None? then None
    else
      var end := SkipValue(t, start.value, 0, numeric);
      if end.None? then None
      else
        var field := FieldAt(t, at, start.value, end.value);
        var j := SkipSpace(t, end.value);
        if At(t, j) == ',' then
          Prepend([field], WalkFields(t, j + 1, numeric))
        else if At(t, j) == '}' && SkipSpace(t, j + 1) == |t| then Some([field])
        else None
  }

  function Prepend(seen: seq<Field>, rest: Option<seq<Field>>): Option<seq<Field>> {
    if rest.None? then None else Some(seen + rest.value)
  }

  lemma PrependInTurn(seen: seq<Field>, field: Field, rest: Option<seq<Field>>)
    ensures Prepend(seen, Prepend([field], rest)) == Prepend(seen + [field], rest)
    ensures Prepend([], rest) == rest
  {
    if rest.Some? {
      assert [] + rest.value == rest.value;
      assert seen + ([field] + rest.value) == (seen + [field]) + rest.value;
    }
  }

  function Walk(t: string, numeric: Numeric): Option<seq<Field>> {
    var i := SkipSpace(t, 0);
    if At(t, i) != '{' then None
    else if At(t, SkipSpace(t, i + 1)) == '}' then Some([])
    else WalkFields(t, i + 1, numeric)
  }

  // What a field callback does at the cursor behind the colon: nothing, so that the walker skips the value; read the
  // value itself; or give up.
  datatype Reply = NotMine | Took(next: nat) | Refused

  type OnField = (string, string, nat) -> Reply

  // Callbacks move the cursor forward, within the text.
  ghost predicate Forward(onField: OnField) {
    forall key: string, t: string, i: nat :: onField(key, t, i).Took? ==> i < onField(key, t, i).next <= |t|
  }

  // A truncated key is nobody's.
  function ReplyTo(t: string, at: nat, start: nat, onField: OnField): Reply
    requires at <= |t| && SkipString(t, at).Some?
  {
    var key := DecodeFrom(t, at + 1);
    if |key| > KEY_MAX - 1 then NotMine else onField(Stored(key, KEY_MAX - 1), t, start)
  }

  function EndBy(t: string, at: nat, start: nat, onField: OnField, numeric: Numeric): (end: Option<nat>)
    requires at <= |t| && SkipString(t, at).Some? && start <= |t|
    ensures end.Some? ==> start < end.value <= |t|
  {
    match ReplyTo(t, at, start, onField)
    case NotMine => SkipValue(t, start, 0, numeric)
    case Took(next) => if start < next <= |t| then Some(next) else None
    case Refused => None
  }

  function WalkFieldsWith(t: string, i: nat, onField: OnField, numeric: Numeric): Option<seq<Field>>
    requires i <= |t|
    decreases |t| - i
  {
    var at := SkipSpace(t, i);
    var start := SkipKey(t, at);
    if start.None? then None
    else
      var end := EndBy(t, at, start.value, onField, numeric);
      if end.None? then None
      else
        var field := FieldAt(t, at, start.value, end.value);
        var j := SkipSpace(t, end.value);
        if At(t, j) == ',' then
          Prepend([field], WalkFieldsWith(t, j + 1, onField, numeric))
        else if At(t, j) == '}' && SkipSpace(t, j + 1) == |t| then Some([field])
        else None
  }

  function WalkWith(t: string, onField: OnField, numeric: Numeric): Option<seq<Field>> {
    var i := SkipSpace(t, 0);
    if At(t, i) != '{' then None
    else if At(t, SkipSpace(t, i + 1)) == '}' then Some([])
    else WalkFieldsWith(t, i + 1, onField, numeric)
  }

  /** Scans a top-level object and offers each field to the callback; `fields` are the keys and the raw text of the
      values. */
  method WalkObject(t: string, onField: OnField, numeric: Numeric) returns (fields: Option<seq<Field>>)
    requires Forward(onField)
    ensures fields == WalkWith(t, onField, numeric)
  {
    hide SkipKey, SkipValue, SkipSpace, EndBy;
    var cursor := SkipWhitespace(t, 0);
    if At(t, cursor) != '{' {
      return None;
    }
    cursor := cursor + 1;
    var first := SkipWhitespace(t, cursor);
    if At(t, first) == '}' {
      return Some([]);
    }
    fields := WalkMembers(t, cursor, onField, numeric);
  }

  method WalkMembers(t: string, from: nat, onField: OnField, numeric: Numeric) returns (fields: Option<seq<Field>>)
    requires from <= |t| && Forward(onField)
    ensures fields == WalkFieldsWith(t, from, onField, numeric)
  {
    hide SkipKey, SkipValue, SkipSpace, FieldAt, Prepend, EndBy, Forward;
    var cursor := from;
    var seen: seq<Field> := [];
    PrependInTurn([], Field("", false, ""), WalkFieldsWith(t, from, onField, numeric));
    while true
      invariant cursor <= |t|
      invariant WalkFieldsWith(t, from, onField, numeric) == Prepend(seen, WalkFieldsWith(t, cursor, onField, numeric))
      decreases |t| - cursor
    {
      PrependEnds(seen);
      var at := SkipWhitespace(t, cursor);
      var field, end := WalkOne(t, at, onField, numeric);
      if end.None? {
        return None;
      }
      var j := SkipWhitespace(t, end.value);
      if At(t, j) == ',' {
        PrependInTurn(seen, field, WalkFieldsWith(t, j + 1, onField, numeric));
        seen := seen + [field];
        cursor := j + 1;
      } else if At(t, j) == '}' {
        var last := SkipWhitespace(t, j + 1);
        PrependLast(seen, field);
        return if last == |t| then Some(seen + [field]) else None;
      } else {
        return None;
      }
    }
  }

  lemma PrependEnds(seen: seq<Field>)
    ensures Prepend(seen, None) == None
  {
  }

  lemma PrependLast(seen: seq<Field>, field: Field)
    ensures Prepend(seen, Some([field])) == Some(seen + [field])
  {
  }

  // The key into the walker's buffer, and the colon.
  method ReadKey(t: string, at: nat) returns (key: string, truncated: bool, start: Option<nat>)
    requires at <= |t|
    ensures start == SkipKey(t, at)
    ensures start.Some? ==>
      var whole := DecodeFrom(t, at + 1); key == Stored(whole, KEY_MAX - 1) && truncated == (|whole| > KEY_MAX - 1)
  {
    hide SkipBody, DecodeFrom, Stored, SkipSpace;
    key, truncated, start := "", false, None;
    var buffer := new char[KEY_MAX](_ => NUL);
    var r := ParseString(t, at, buffer, false);
    if r.Malformed? {
      return;
    }
    key, truncated := buffer[..r.length], r.truncated;
    var j := SkipWhitespace(t, r.next);
    if At(t, j) != ':' {
      return;
    }
    var behind := SkipWhitespace(t, j + 1);
    start := Some(behind);
  }

  // One field: key, colon, and the value behind it by the callback or by skipping.
  method WalkOne(t: string, at: nat, onField: OnField, numeric: Numeric) returns (field: Field, end: Option<nat>)
    requires at <= |t| && Forward(onField)
    ensures end.None? <==> SkipKey(t, at).None? || EndBy(t, at, SkipKey(t, at).value, onField, numeric).None?
    ensures end.Some? ==>
      && at < end.value <= |t| && end == EndBy(t, at, SkipKey(t, at).value, onField, numeric)
      && field == FieldAt(t, at, SkipKey(t, at).value, end.value)
  {
    hide SkipKey, SkipString, SkipValue, DecodeFrom, Stored;
    if SkipKey(t, at).Some? {
      KeyIsString(t, at);
    }
    field, end := Field("", false, ""), None;
    var key, truncated, start := ReadKey(t, at);
    if start.None? {
      return;
    }
    var reply := if truncated then NotMine else onField(key, t, start.value);
    match reply {
      case Refused =>
      case NotMine => end := SkipValueAt(t, start.value, 0, numeric);
      case Took(next) => end := Some(next);
    }
    if end.Some? {
      field := Field(key, truncated, t[start.value..end.value]);
    }
  }

  // A callback that reads just one value where it reads any.
  ghost predicate Honest(onField: OnField, numeric: Numeric) {
    forall key: string, t: string, i: nat | i <= |t| && onField(key, t, i).Took? ::
      SkipValue(t, i, 0, numeric) == Some(onField(key, t, i).next)
  }

  /** A callback is offered whole keys only, of at most 31 bytes; a longer one is nobody's. */
  lemma ReplyIs(t: string, at: nat, start: nat, onField: OnField)
    requires at <= |t| && SkipString(t, at).Some?
    ensures var key := DecodeFrom(t, at + 1);
      ReplyTo(t, at, start, onField) == if |key| <= 31 then onField(key, t, start) else NotMine
  {
    hide DecodeFrom, SkipBody, TrimTail;
  }

  // Some field of the object is refused.
  ghost predicate RefusedFrom(t: string, i: nat, onField: OnField, numeric: Numeric)
    requires i <= |t|
    decreases |t| - i
  {
    var at := SkipSpace(t, i);
    var start := SkipKey(t, at);
    start.Some? &&
    (KeyIsString(t, at);
     ReplyTo(t, at, start.value, onField).Refused?
     || (var end := SkipValue(t, start.value, 0, numeric);
         end.Some? && At(t, SkipSpace(t, end.value)) == ','
         && RefusedFrom(t, SkipSpace(t, end.value) + 1, onField, numeric)))
  }

  lemma HonestEnd(t: string, at: nat, start: nat, onField: OnField, numeric: Numeric)
    requires at <= |t| && SkipString(t, at).Some? && start <= |t| && Honest(onField, numeric)
    ensures EndBy(t, at, start, onField, numeric)
      == if ReplyTo(t, at, start, onField).Refused? then None else SkipValue(t, start, 0, numeric)
  {
    hide SkipValue, DecodeFrom, Stored, SkipString;
  }

  lemma {:induction false} HonestFields(t: string, i: nat, onField: OnField, numeric: Numeric)
    requires i <= |t| && Honest(onField, numeric)
    ensures WalkFieldsWith(t, i, onField, numeric)
      == if RefusedFrom(t, i, onField, numeric) then None else WalkFields(t, i, numeric)
    decreases |t| - i
  {
    hide SkipKey, SkipValue, SkipSpace, FieldAt, DecodeFrom, Stored, ReplyTo, EndBy, Honest, Prepend, SkipString;
    var at := SkipSpace(t, i);
    var start := SkipKey(t, at);
    if start.Some? {
      KeyIsString(t, at);
      HonestEnd(t, at, start.value, onField, numeric);
      var end := SkipValue(t, start.value, 0, numeric);
      if end.Some? {
        var j := SkipSpace(t, end.value);
        if At(t, j) == ',' {
          HonestFields(t, j + 1, onField, numeric);
          PrependEnds([FieldAt(t, at, start.value, end.value)]);
        }
      }
    }
  }

  /** A callback that reads whole values decides only whether a field is refused: what else is accepted, and the fields,
      are those of the walk that skips all values. */
  lemma HonestWalk(t: string, onField: OnField, numeric: Numeric)
    requires Honest(onField, numeric)
    ensures var first := SkipSpace(t, 0) + 1;
      WalkWith(t, onField, numeric) ==
        if Walk(t, numeric) != Some([]) && first <= |t| && RefusedFrom(t, first, onField, numeric) then None
        else Walk(t, numeric)
  {
    hide SkipSpace, WalkFields, WalkFieldsWith, RefusedFrom, Honest;
    var i := SkipSpace(t, 0);
    if i < |t| {
      HonestFields(t, i + 1, onField, numeric);
      WalkFieldsNotEmpty(t, i + 1, numeric);
    }
  }

  // A callback that may also read what cannot be skipped, but otherwise reads just one value.
  ghost predicate Agrees(onField: OnField, numeric: Numeric) {
    forall key: string, t: string, i: nat | i <= |t| && onField(key, t, i).Took? && SkipValue(t, i, 0, numeric).Some? ::
      SkipValue(t, i, 0, numeric) == Some(onField(key, t, i).next)
  }

  lemma AgreeingEnd(t: string, at: nat, start: nat, onField: OnField, numeric: Numeric)
    requires at <= |t| && SkipString(t, at).Some? && start <= |t| && Agrees(onField, numeric)
    requires SkipValue(t, start, 0, numeric).Some?
    ensures EndBy(t, at, start, onField, numeric)
      == if ReplyTo(t, at, start, onField).Refused? then None else SkipValue(t, start, 0, numeric)
  {
    hide SkipValue, DecodeFrom, Stored, SkipString;
  }

  lemma {:induction false} AgreeingFields(t: string, i: nat, onField: OnField, numeric: Numeric)
    requires i <= |t| && Agrees(onField, numeric) && WalkFields(t, i, numeric).Some?
    ensures WalkFieldsWith(t, i, onField, numeric)
      == if RefusedFrom(t, i, onField, numeric) then None else WalkFields(t, i, numeric)
    decreases |t| - i
  {
    hide SkipKey, SkipValue, SkipSpace, FieldAt, DecodeFrom, Stored, ReplyTo, EndBy, Agrees, Prepend, SkipString, IsSpace;
    var at, start, end, j := FirstMember(t, i, numeric);
    KeyIsString(t, at);
    AgreeingEnd(t, at, start, onField, numeric);
    if t[j] == ',' {
      AgreeingFields(t, j + 1, onField, numeric);
      PrependEnds([FieldAt(t, at, start, end)]);
    }
  }

  /** Such a callback, too, decides only whether a field is refused, on texts that can be walked without it. */
  lemma AgreeingWalk(t: string, onField: OnField, numeric: Numeric)
    requires Agrees(onField, numeric) && Walk(t, numeric).Some?
    ensures var first := SkipSpace(t, 0) + 1;
      WalkWith(t, onField, numeric) ==
        if Walk(t, numeric) != Some([]) && first <= |t| && RefusedFrom(t, first, onField, numeric) then None
        else Walk(t, numeric)
  {
    hide SkipSpace, WalkFields, WalkFieldsWith, RefusedFrom, Agrees;
    var i := SkipSpace(t, 0);
    if i < |t| {
      WalkFieldsNotEmpty(t, i + 1, numeric);
      if Walk(t, numeric) != Some([]) {
        AgreeingFields(t, i + 1, onField, numeric);
      }
    }
  }

  // ----- The walker reads back every printed object -----

  // The text a well-formed body stands for: an escaped quote, backslash or slash is itself, any other escape a space.
  function DecodeBody(body: string): string
    requires IsBody(body)
  {
    if body == "" then ""
    else if body[0] == '\\' then [if body[1] in {'"', '\\', '/'} then body[1] else ' '] + DecodeBody(body[2..])
    else [body[0]] + DecodeBody(body[1..])
  }

  lemma EscapeMeans(c: char)
    requires IsEscape(c)
    ensures Unescape(c) == if c in {'"', '\\', '/'} then c else ' '
  {
  }

  lemma {:induction false} DecodeWholeBody(t: string, i: nat, body: string)
    requires IsBody(body) && StandsAt(t, i, body + "\"")
    ensures SkipBody(t, i).Some? && DecodeFrom(t, i) == DecodeBody(body)
    decreases |body|
  {
    hide IsEscape, Unescape;
    if body != "" && body[0] == '\\' {
      EscapeMeans(body[1]);
    }
    SkipWholeBody(t, i, body);
    var s := body + "\"";
    assert t[i] == t[i..i + |s|][0];
    if body != "" {
      if body[0] == '\\' {
        assert t[i + 1] == t[i..i + |s|][1];
        assert t[i + 2..i + |s|] == t[i..i + |s|][2..] == body[2..] + "\"";
        DecodeWholeBody(t, i + 2, body[2..]);
      } else {
        assert t[i + 1..i + |s|] == t[i..i + |s|][1..] == body[1..] + "\"";
        DecodeWholeBody(t, i + 1, body[1..]);
      }
    }
  }

  function FieldOf(key: string, raw: string): Field {
    Field(Stored(key, 31), |key| > 31, raw)
  }

  // The members of a printed object as the walker should see them.
  function FieldsOf(items: Items, numeric: Numeric): seq<Field>
    requires ItemsFit(items, true, numeric)
  {
    match items
    case Last(key, value, _) => [FieldOf(DecodeBody(key.body), Print(value))]
    case More(key, value, _, _, rest) => [FieldOf(DecodeBody(key.body), Print(value))] + FieldsOf(rest, numeric)
  }

  lemma KeyDecodes(t: string, i: nat, key: Key)
    requires key.Key? && KeyFits(key, true) && StandsAt(t, i, PrintKey(key))
    ensures SkipString(t, i).Some? && DecodeFrom(t, i + 1) == DecodeBody(key.body)
  {
    hide StandsAt, PrintKey, IsBody, Blank, DecodeFrom, DecodeBody, SkipString;
    KeyParts(t, i, key);
    TextDecodes(t, i, key.body);
  }

  lemma TextDecodes(t: string, i: nat, body: string)
    requires StandsAt(t, i, "\"" + body + "\"") && IsBody(body)
    ensures i < |t| && SkipString(t, i) == Some(i + |body| + 2)
    ensures SkipBody(t, i + 1).Some? && DecodeFrom(t, i + 1) == DecodeBody(body)
  {
    hide *;
    SkipText(t, i, body);
    InsideQuotes(t, i, body);
    DecodeWholeBody(t, i + 1, body);
  }

  lemma {:induction false} WalkWholeItems(t: string, from: nat, i: nat, items: Items, numeric: Numeric)
    requires ItemsFit(items, true, numeric) && ItemsNesting(items) <= MAX_DEPTH
    requires from <= |t| && SkipSpace(t, from) == i && StandsAt(t, i, PrintItems(items, true))
    requires i + |PrintItems(items, true)| <= |t| && SkipSpace(t, i + |PrintItems(items, true)|) == |t|
    ensures WalkFields(t, from, numeric) == Some(FieldsOf(items, numeric))
    decreases items
  {
    hide IsSpace, EndsScalar, PrintItems, Print, PrintKey, SkipKey, SkipSpace, StandsAt, SkipValue, DecodeBody, Stored, SkipString, DecodeFrom;
    hide ValueAt, TailAt, Tail;
    ItemShape(t, i, items, true);
    KeyScan(t, i, items, true, numeric);
    TailScan(t, i, items, true, numeric);
    var j, l := ValueAt(i, items), TailAt(i, items);
    TailStarts(t, l, items, true);
    SkipWholeValue(t, j, items.value, 0, numeric);
    KeyDecodes(t, i, items.key);
    RawText(t, j, Print(items.value));
    KeyIsString(t, i);
    if items.More? {
      RestScan(t, l, items, true, numeric);
      WalkWholeItems(t, l + 1, l + 1 + |items.lead|, items.rest, numeric);
    }
  }

  lemma RawText(t: string, j: nat, s: string)
    requires StandsAt(t, j, s)
    ensures j + |s| <= |t| && t[j..j + |s|] == s
  {
  }

  lemma KeyIsString(t: string, i: nat)
    requires i <= |t| && SkipKey(t, i).Some?
    ensures SkipString(t, i).Some?
  {
  }

  // One turn of the walker: key, value, end of the value, and the separator behind it.
  lemma FirstMember(t: string, from: nat, numeric: Numeric) returns (at: nat, j: nat, k: nat, l: nat)
    requires from <= |t| && WalkFields(t, from, numeric).Some?
    ensures at == SkipSpace(t, from) && SkipKey(t, at) == Some(j) && j <= |t| && SkipValue(t, j, 0, numeric) == Some(k)
    ensures k <= |t| && l == SkipSpace(t, k) && l < |t|
    ensures if t[l] == ',' then WalkFields(t, l + 1, numeric).Some? else t[l] == '}' && SkipSpace(t, l + 1) == |t|
  {
    hide IsSpace, SkipKey, SkipValue, SkipSpace, FieldAt;
    at := SkipSpace(t, from);
    j := SkipKey(t, at).value;
    k := SkipValue(t, j, 0, numeric).value;
    l := SkipSpace(t, k);
  }

  // The member that turn reads, as a tree.
  lemma WalkedMember(t: string, from: nat, numeric: Numeric)
    returns (at: nat, key: Key, value: Value, after: string, l: nat)
    requires from <= |t| && WalkFields(t, from, numeric).Some?
    ensures at == SkipSpace(t, from) && key.Key? && KeyFits(key, true) && StandsAt(t, at, PrintKey(key))
    ensures WellFormed(value, numeric) && Nesting(value) <= MAX_DEPTH && StandsAt(t, at + |PrintKey(key)|, Print(value))
    ensures Blank(after) && StandsAt(t, at + |PrintKey(key)| + |Print(value)|, after)
    ensures l == at + |PrintKey(key)| + |Print(value)| + |after| < |t|
    ensures if t[l] == ',' then WalkFields(t, l + 1, numeric).Some? else t[l] == '}' && SkipSpace(t, l + 1) == |t|
  {
    var j: nat, k: nat;
    hide *;
    at, j, k, l := FirstMember(t, from, numeric);
    key := SkippedIsKey(t, at);
    value := ValueThere(t, j, numeric);
    after := BlankThere(t, k);
  }

  lemma ValueThere(t: string, i: nat, numeric: Numeric) returns (v: Value)
    requires i <= |t| && SkipValue(t, i, 0, numeric).Some?
    ensures WellFormed(v, numeric) && Nesting(v) <= MAX_DEPTH && StandsAt(t, i, Print(v))
    ensures SkipValue(t, i, 0, numeric).value == i + |Print(v)|
  {
    hide SkipValue, WellFormed, Nesting, StandsAt, Print;
    v := SkippedIsValue(t, i, 0, numeric);
  }

  lemma MemberFits(key: Key, value: Value, after: string, lead: string, rest: Items, numeric: Numeric)
    requires KeyFits(key, true) && WellFormed(value, numeric) && Nesting(value) <= MAX_DEPTH && Blank(after)
    ensures ItemsFit(Last(key, value, after), true, numeric) && ItemsNesting(Last(key, value, after)) <= MAX_DEPTH
    ensures Blank(lead) && ItemsFit(rest, true, numeric) && ItemsNesting(rest) <= MAX_DEPTH ==>
      var items := More(key, value, after, lead, rest);
      ItemsFit(items, true, numeric) && ItemsNesting(items) <= MAX_DEPTH
  {
    hide KeyFits, WellFormed, Nesting, Blank;
  }

  // Only what some member list prints is walked.
  lemma {:induction false} WalkedIsItems(t: string, from: nat, numeric: Numeric) returns (items: Items)
    requires from <= |t| && WalkFields(t, from, numeric).Some?
    ensures ItemsFit(items, true, numeric) && ItemsNesting(items) <= MAX_DEPTH
    ensures var i := SkipSpace(t, from); var end := i + |PrintItems(items, true)|;
      StandsAt(t, i, PrintItems(items, true)) && end <= |t| && SkipSpace(t, end) == |t|
    decreases |t| - from
  {
    hide *;
    var at, key, value, after, l := WalkedMember(t, from, numeric);
    items := Last(key, value, after);
    if t[l] == ',' {
      var lead := BlankThere(t, l + 1);
      var rest := WalkedIsItems(t, l + 1, numeric);
      items := More(key, value, after, lead, rest);
      MemberFits(key, value, after, lead, rest, numeric);
      MoreThere(t, at, items, l);
    } else {
      MemberFits(key, value, after, "", items, numeric);
      LastThere(t, at, items, l);
    }
  }

  lemma LastThere(t: string, i: nat, items: Items, l: nat)
    requires items.Last? && StandsAt(t, i, PrintKey(items.key)) && StandsAt(t, i + |PrintKey(items.key)|, Print(items.value))
    requires StandsAt(t, i + |PrintKey(items.key)| + |Print(items.value)|, items.after)
    requires l == i + |PrintKey(items.key)| + |Print(items.value)| + |items.after| < |t| && t[l] == '}'
    ensures StandsAt(t, i, PrintItems(items, true)) && i + |PrintItems(items, true)| == l + 1
  {
    hide StandsAt, PrintKey, Print, PrintItems;
    LastStands(t, i, items, true);
  }

  lemma MoreThere(t: string, i: nat, items: Items, l: nat)
    requires items.More? && StandsAt(t, i, PrintKey(items.key)) && StandsAt(t, i + |PrintKey(items.key)|, Print(items.value))
    requires StandsAt(t, i + |PrintKey(items.key)| + |Print(items.value)|, items.after)
    requires l == i + |PrintKey(items.key)| + |Print(items.value)| + |items.after| < |t| && t[l] == ','
    requires StandsAt(t, l + 1, items.lead) && StandsAt(t, l + 1 + |items.lead|, PrintItems(items.rest, true))
    ensures StandsAt(t, i, PrintItems(items, true))
    ensures i + |PrintItems(items, true)| == l + 1 + |items.lead| + |PrintItems(items.rest, true)|
  {
    hide StandsAt, PrintKey, Print, PrintItems;
    MoreStands(t, i, items, true);
  }

  // The text of an object with white space around it.
  function Surrounded(before: string, inner: string, after: string): string {
    before + (inner + after)
  }

  ghost predicate IsObject(lead: string, items: Items, numeric: Numeric) {
    Blank(lead) && ItemsFit(items, true, numeric) && ItemsNesting(items) <= 4
  }

  lemma SkipOnlyBlank(t: string, i: nat, s: string)
    requires StandsAt(t, i, s) && Blank(s) && i + |s| == |t|
    ensures SkipSpace(t, i) == |t|
  {
    assert At(t, |t|) == NUL;
    ColonIsNoSpace();
    SkipBlank(t, i, s);
  }

  lemma SurroundedParts(before: string, inner: string, after: string)
    ensures var t := Surrounded(before, inner, after);
      && StandsAt(t, 0, before) && StandsAt(t, |before|, inner) && StandsAt(t, |before| + |inner|, after)
      && |t| == |before| + |inner| + |after|
  {
    var t := Surrounded(before, inner, after);
    assert StandsAt(t, 0, t);
    hide StandsAt;
    StandsInParts(t, 0, before, inner + after);
    StandsInParts(t, |before|, inner, after);
  }

  lemma PartsSurround(t: string, before: string, inner: string, after: string)
    requires StandsAt(t, 0, before) && StandsAt(t, |before|, inner) && StandsAt(t, |before| + |inner|, after)
    requires |t| == |before| + |inner| + |after|
    ensures t == Surrounded(before, inner, after)
  {
    StandsInParts(t, |before|, inner, after);
    StandsInParts(t, 0, before, inner + after);
    assert t[0..|t|] == t;
  }

  /** Walking a printed object with any white space in and around it gives exactly its members in order: decoded keys
      and the raw text of the values. */
  lemma WalkReadsObject(before: string, lead: string, items: Items, after: string, numeric: Numeric)
    requires Blank(before) && IsObject(lead, items, numeric) && Blank(after)
    ensures Walk(Surrounded(before, Print(Container(true, lead, items)), after), numeric) == Some(FieldsOf(items, numeric))
  {
    hide PrintItems, WalkFields, FieldsOf, ItemsFit, StandsAt, Surrounded, SkipSpace, Blank, IsSpace;
    var inner := Print(Container(true, lead, items));
    var t := Surrounded(before, inner, after);
    SurroundedParts(before, inner, after);
    ContainerShape(t, |before|, true, lead, items, numeric);
    ColonIsNoSpace();
    SkipBlank(t, 0, before);
    SkipOnlyBlank(t, |before| + |inner|, after);
    WalkWholeItems(t, |before| + 1, |before| + 1 + |lead|, items, numeric);
  }

  lemma WalkFieldsNotEmpty(t: string, i: nat, numeric: Numeric)
    requires i <= |t|
    ensures WalkFields(t, i, numeric) != Some([])
  {
    hide SkipSpace, SkipKey, SkipValue, FieldAt;
  }

  // The object that was walked, and the white space around it.
  lemma WalkedIsObject(t: string, numeric: Numeric) returns (before: string, lead: string, items: Items, after: string)
    requires Walk(t, numeric).Some? && Walk(t, numeric).value != []
    ensures Blank(before) && IsObject(lead, items, numeric) && Blank(after)
    ensures t == Surrounded(before, Print(Container(true, lead, items)), after)
  {
    hide *;
    var i := SkipSpace(t, 0);
    WalkOpens(t, numeric);
    items := WalkedIsItems(t, i + 1, numeric);
    before := BlankThere(t, 0);
    lead := BlankThere(t, i + 1);
    after := BlankThere(t, i + 1 + |lead| + |PrintItems(items, true)|);
    ObjectStands(t, i, lead, items);
    PartsSurround(t, before, Print(Container(true, lead, items)), after);
    AnObject(lead, items, numeric);
  }

  lemma WalkOpens(t: string, numeric: Numeric)
    requires Walk(t, numeric).Some? && Walk(t, numeric).value != []
    ensures var i := SkipSpace(t, 0); i < |t| && t[i] == '{' && WalkFields(t, i + 1, numeric).Some?
  {
    hide WalkFields, SkipSpace;
  }

  lemma ObjectStands(t: string, i: nat, lead: string, items: Items)
    requires i < |t| && t[i] == '{' && StandsAt(t, i + 1, lead) && StandsAt(t, i + 1 + |lead|, PrintItems(items, true))
    ensures var s := Print(Container(true, lead, items));
      StandsAt(t, i, s) && |s| == 1 + |lead| + |PrintItems(items, true)|
  {
    hide StandsAt, PrintItems;
    OneCharStands(t, i, "{");
    StandsInParts(t, i + 1, lead, PrintItems(items, true));
    StandsInParts(t, i, "{", lead + PrintItems(items, true));
  }

  lemma AnObject(lead: string, items: Items, numeric: Numeric)
    requires Blank(lead) && ItemsFit(items, true, numeric) && ItemsNesting(items) <= MAX_DEPTH
    ensures IsObject(lead, items, numeric)
  {
    hide Blank, ItemsFit, ItemsNesting;
  }

  /** The walker finds fields exactly in the text of one object, nested at most four deep below its members, with white
      space around it, and they are its members. */
  lemma WalkAcceptsObjects(t: string, fields: seq<Field>, numeric: Numeric)
    requires fields != []
    ensures Walk(t, numeric) == Some(fields) <==>
      exists before, lead, items, after ::
        && Blank(before) && IsObject(lead, items, numeric) && Blank(after)
        && t == Surrounded(before, Print(Container(true, lead, items)), after) && fields == FieldsOf(items, numeric)
  {
    hide Walk, FieldsOf, Print, Surrounded, Blank, ItemsFit, ItemsNesting;
    if Walk(t, numeric) == Some(fields) {
      var before, lead, items, after := WalkedIsObject(t, numeric);
      WalkReadsObject(before, lead, items, after, numeric);
    }
    forall before, lead, items, after | Blank(before) && IsObject(lead, items, numeric) && Blank(after)
      && t == Surrounded(before, Print(Container(true, lead, items)), after) && fields == FieldsOf(items, numeric)
      ensures Walk(t, numeric) == Some(fields)
    {
      WalkReadsObject(before, lead, items, after, numeric);
    }
  }

  /** It finds no fields exactly in a text that starts with an empty object: what follows the bracket is not looked at. */
  lemma WalkAcceptsEmptyIff(t: string, numeric: Numeric)
    ensures Walk(t, numeric) == Some([]) <==>
      exists before, lead :: Blank(before) && Blank(lead) && before + ("{" + (lead + "}")) <= t
  {
    if Walk(t, numeric) == Some([]) {
      var before, lead := WalkedIsEmpty(t, numeric);
    }
    forall before, lead | Blank(before) && Blank(lead) && before + ("{" + (lead + "}")) <= t
      ensures Walk(t, numeric) == Some([])
    {
      EmptyObjectWalks(t, before, lead, numeric);
    }
  }

  lemma EmptyObjectWalks(t: string, before: string, lead: string, numeric: Numeric)
    requires Blank(before) && Blank(lead) && before + ("{" + (lead + "}")) <= t
    ensures Walk(t, numeric) == Some([])
  {
    EmptyObjectStands(t, before, lead);
    hide StandsAt, SkipSpace, Blank, IsSpace, WalkFields, Print;
    EmptyShape(t, |before|, true, lead);
    ColonIsNoSpace();
    SkipBlank(t, 0, before);
  }

  lemma WalkedIsEmpty(t: string, numeric: Numeric) returns (before: string, lead: string)
    requires Walk(t, numeric) == Some([])
    ensures Blank(before) && Blank(lead) && before + ("{" + (lead + "}")) <= t
  {
    hide StandsAt, SkipSpace, Blank, IsSpace, WalkFields;
    var i := SkipSpace(t, 0);
    WalkFieldsNotEmpty(t, i + 1, numeric);
    before := BlankThere(t, 0);
    lead := BlankThere(t, i + 1);
    OneCharStands(t, i, "{");
    OneCharStands(t, i + 1 + |lead|, "}");
    StandsInParts(t, i + 1, lead, "}");
    StandsInParts(t, i, "{", lead + "}");
    StandsInParts(t, 0, before, "{" + (lead + "}"));
    StandsAtStart(t, before + ("{" + (lead + "}")));
  }

  lemma StandsAtStart(t: string, s: string)
    requires StandsAt(t, 0, s)
    ensures s <= t
  {
  }

  lemma EmptyObjectStands(t: string, before: string, lead: string)
    requires before + ("{" + (lead + "}")) <= t
    ensures StandsAt(t, 0, before) && StandsAt(t, |before|, Print(Empty(true, lead)))
  {
    var s := before + ("{" + (lead + "}"));
    assert t[0..|s|] == s;
    StandsInParts(t, 0, before, "{" + (lead + "}"));
  }
}
