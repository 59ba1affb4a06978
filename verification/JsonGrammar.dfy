/** The JSON the scanner accepts, as trees with their white space, and the proof that it accepts exactly that. */
module JsonGrammar {
  import opened Common
  import opened Json

  // The key of an object member with the white space around the colon; array items have none.
  datatype Key = NoKey | Key(body: string, before: string, after: string)

  datatype Value =
    | Scalar(token: string)
    | Text(body: string)
    | Empty(isObject: bool, lead: string)
    | Container(isObject: bool, lead: string, items: Items)

  // A non-empty list of items; `after` is the white space behind a value, `lead` that behind a comma.
  datatype Items =
    | Last(key: Key, value: Value, after: string)
    | More(key: Key, value: Value, after: string, lead: string, rest: Items)

  function PrintKey(k: Key): string {
    match k
    case NoKey => ""
    case Key(body, before, after) => "\"" + body + "\"" + before + ":" + after
  }

  function Bracket(isObject: bool): string {
    if isObject then "{" else "["
  }

  function EndBracket(isObject: bool): string {
    if isObject then "}" else "]"
  }

  function Print(v: Value): string {
    match v
    case Scalar(token) => token
    case Text(body) => "\"" + body + "\""
    case Empty(isObject, lead) => Bracket(isObject) + (lead + EndBracket(isObject))
    case Container(isObject, lead, items) => Bracket(isObject) + (lead + PrintItems(items, isObject))
  }

  function PrintItems(items: Items, isObject: bool): string {
    match items
    case Last(key, value, after) => PrintKey(key) + (Print(value) + (after + EndBracket(isObject)))
    case More(key, value, after, lead, rest) =>
      PrintKey(key) + (Print(value) + (after + ("," + (lead + PrintItems(rest, isObject)))))
  }

  // Space, tab, line feed, vertical tab, form feed, carriage return.
  predicate Blank(s: string) {
    forall i | 0 <= i < |s| :: s[i] in {' ', '\t', '\n', '\U{B}', '\U{C}', '\r'}
  }

  // The inside of a string: no quote, no control character, only the known escapes.
  predicate IsBody(s: string) {
    s == "" ||
    if s[0] == '\\' then |s| > 1 && s[1] in {'"', '\\', '/', 'b', 'f', 'n', 'r', 't'} && IsBody(s[2..])
    else s[0] != '"' && s[0] >= ' ' && IsBody(s[1..])
  }

  predicate IsSeparator(c: char) {
    c in {',', ']', '}', ' ', '\t', '\n', '\U{B}', '\U{C}', '\r', '\0'}
  }

  // A literal, or a number of fewer than 64 characters.
  predicate IsToken(token: string, numeric: Numeric) {
    && (token in {"true", "false", "null"}
        || (0 < |token| < 64 && (token[0] == '-' || '0' <= token[0] <= '9') && numeric(token)))
    && forall i | 0 <= i < |token| :: !IsSeparator(token[i])
  }

  lemma SeparatorIs(c: char)
    ensures IsSeparator(c) == EndsScalar(c)
  {
  }

  // The scanner takes just these for scalars.
  lemma TokenIs(token: string, numeric: Numeric)
    ensures IsToken(token, numeric) <==>
      IsScalar(token, numeric) && |token| > 0 && token[0] !in {'[', '{', '"'}
      && forall i | 0 <= i < |token| :: !EndsScalar(token[i])
  {
    hide EndsScalar, IsSeparator;
    forall i | 0 <= i < |token| ensures IsSeparator(token[i]) == EndsScalar(token[i]) {
      SeparatorIs(token[i]);
    }
  }

  predicate KeyFits(k: Key, isObject: bool) {
    match k
    case NoKey => !isObject
    case Key(body, before, after) => isObject && IsBody(body) && Blank(before) && Blank(after)
  }

  predicate WellFormed(v: Value, numeric: Numeric) {
    match v
    case Scalar(token) => IsToken(token, numeric)
    case Text(body) => IsBody(body)
    case Empty(_, lead) => Blank(lead)
    case Container(isObject, lead, items) => Blank(lead) && ItemsFit(items, isObject, numeric)
  }

  predicate ItemsFit(items: Items, isObject: bool, numeric: Numeric) {
    match items
    case Last(key, value, after) => KeyFits(key, isObject) && WellFormed(value, numeric) && Blank(after)
    case More(key, value, after, lead, rest) =>
      KeyFits(key, isObject) && WellFormed(value, numeric) && Blank(after) && Blank(lead)
      && ItemsFit(rest, isObject, numeric)
  }

  // Containers inside each other.
  function Nesting(v: Value): nat {
    match v
    case Scalar(_) => 0
    case Text(_) => 0
    case Empty(_, _) => 1
    case Container(_, _, items) => 1 + ItemsNesting(items)
  }

  function ItemsNesting(items: Items): nat {
    match items
    case Last(_, value, _) => Nesting(value)
    case More(_, value, _, _, rest) => Max(Nesting(value), ItemsNesting(rest))
  }

  // `s` stands in t at position i.
  predicate StandsAt(t: string, i: nat, s: string) {
    i + |s| <= |t| && t[i..i + |s|] == s
  }

  lemma StandsInParts(t: string, i: nat, a: string, b: string)
    ensures StandsAt(t, i, a + b) <==> StandsAt(t, i, a) && StandsAt(t, i + |a|, b)
  {
    if StandsAt(t, i, a + b) {
      assert t[i..i + |a|] == t[i..i + |a + b|][..|a|];
      assert t[i + |a|..i + |a| + |b|] == t[i..i + |a + b|][|a|..];
    }
    if StandsAt(t, i, a) && StandsAt(t, i + |a|, b) {
      assert t[i..i + |a + b|] == t[i..i + |a|] + t[i + |a|..i + |a| + |b|];
    }
  }

  // What stands at i starts with its first character.
  lemma StartsWith(t: string, i: nat, s: string)
    requires StandsAt(t, i, s) && s != ""
    ensures i < |t| && At(t, i) == s[0]
  {
    assert t[i] == t[i..i + |s|][0];
  }

  lemma OneCharStands(t: string, i: nat, s: string)
    requires i < |t| && |s| == 1 && t[i] == s[0]
    ensures StandsAt(t, i, s)
  {
    assert t[i..i + 1] == s;
  }

  // ----- The pieces -----

  lemma {:induction false} SkipBlank(t: string, i: nat, s: string)
    requires StandsAt(t, i, s) && Blank(s) && !IsSpace(At(t, i + |s|))
    ensures SkipSpace(t, i) == i + |s|
    decreases |s|
  {
    if s != "" {
      assert t[i] == t[i..i + |s|][0];
      assert t[i + 1..i + |s|] == t[i..i + |s|][1..];
      SkipBlank(t, i + 1, s[1..]);
    }
  }

  lemma {:induction false} SkippedIsBlank(t: string, i: nat)
    requires i <= |t|
    ensures Blank(t[i..SkipSpace(t, i)])
    decreases |t| - i
  {
    if IsSpace(At(t, i)) {
      SkippedIsBlank(t, i + 1);
      assert t[i..SkipSpace(t, i)] == [t[i]] + t[i + 1..SkipSpace(t, i + 1)];
    }
  }

  // The white space skipped at i.
  lemma BlankThere(t: string, i: nat) returns (s: string)
    requires i <= |t|
    ensures Blank(s) && StandsAt(t, i, s) && i + |s| == SkipSpace(t, i)
  {
    s := t[i..SkipSpace(t, i)];
    SkippedIsBlank(t, i);
  }

  lemma {:induction false} SkipWholeBody(t: string, i: nat, body: string)
    requires StandsAt(t, i, body + "\"") && IsBody(body)
    ensures SkipBody(t, i) == Some(i + |body| + 1)
    decreases |body|
  {
    var s := body + "\"";
    assert t[i] == t[i..i + |s|][0];
    if body != "" {
      if body[0] == '\\' {
        assert t[i + 1] == t[i..i + |s|][1];
        assert t[i + 2..i + |s|] == t[i..i + |s|][2..] == body[2..] + "\"";
        SkipWholeBody(t, i + 2, body[2..]);
      } else {
        assert t[i + 1..i + |s|] == t[i..i + |s|][1..] == body[1..] + "\"";
        SkipWholeBody(t, i + 1, body[1..]);
      }
    }
  }

  lemma {:induction false} SkippedIsBody(t: string, i: nat)
    requires i <= |t| && SkipBody(t, i).Some?
    ensures var j := SkipBody(t, i).value; IsBody(t[i..j - 1]) && t[j - 1] == '"'
    decreases |t| - i
  {
    if t[i] == '"' {
    } else if t[i] == '\\' {
      SkippedIsBody(t, i + 2);
      var j := SkipBody(t, i).value;
      assert t[i..j - 1][2..] == t[i + 2..j - 1];
    } else {
      SkippedIsBody(t, i + 1);
      var j := SkipBody(t, i).value;
      assert t[i..j - 1][1..] == t[i + 1..j - 1];
    }
  }

  // What stands behind an opening quote.
  lemma InsideQuotes(t: string, i: nat, body: string)
    requires StandsAt(t, i, "\"" + body + "\"")
    ensures i < |t| && t[i] == '"' && StandsAt(t, i + 1, body + "\"")
  {
    hide StandsAt;
    assert "\"" + body + "\"" == "\"" + (body + "\"");
    StandsInParts(t, i, "\"", body + "\"");
    StartsWith(t, i, "\"");
  }

  lemma SkipText(t: string, i: nat, body: string)
    requires StandsAt(t, i, "\"" + body + "\"") && IsBody(body)
    ensures SkipString(t, i) == Some(i + |body| + 2)
  {
    hide StandsAt, IsBody, SkipBody;
    InsideQuotes(t, i, body);
    SkipWholeBody(t, i + 1, body);
  }

  lemma SkippedIsText(t: string, i: nat) returns (body: string)
    requires i <= |t| && SkipString(t, i).Some?
    ensures IsBody(body) && StandsAt(t, i, "\"" + body + "\"") && SkipString(t, i).value == i + |body| + 2
  {
    var j := SkipString(t, i).value;
    SkippedIsBody(t, i + 1);
    body := t[i + 1..j - 1];
    assert t[i..j] == "\"" + body + "\"";
  }

  // Where the parts of a key stand.
  lemma KeyParts(t: string, i: nat, k: Key)
    requires k.Key?
    ensures var quoted := "\"" + k.body + "\""; var j := i + |quoted|; var colon := j + |k.before|;
      && |PrintKey(k)| == |quoted| + |k.before| + 1 + |k.after|
      && (StandsAt(t, i, PrintKey(k)) <==>
            && StandsAt(t, i, quoted) && StandsAt(t, j, k.before)
            && StandsAt(t, colon, ":") && StandsAt(t, colon + 1, k.after))
  {
    hide *;
    var quoted := "\"" + k.body + "\"";
    KeyInParts(k);
    StandsInParts(t, i, quoted, k.before + (":" + k.after));
    StandsInParts(t, i + |quoted|, k.before, ":" + k.after);
    StandsInParts(t, i + |quoted| + |k.before|, ":", k.after);
  }

  lemma KeyInParts(k: Key)
    requires k.Key?
    ensures PrintKey(k) == "\"" + k.body + "\"" + (k.before + (":" + k.after))
  {
  }

  lemma SkipWholeKey(t: string, i: nat, k: Key)
    requires k.Key? && KeyFits(k, true) && StandsAt(t, i, PrintKey(k)) && !IsSpace(At(t, i + |PrintKey(k)|))
    ensures SkipKey(t, i) == Some(i + |PrintKey(k)|)
  {
    hide IsSpace, StandsAt, PrintKey, IsBody, Blank, SkipString, SkipSpace;
    KeyParts(t, i, k);
    var j := i + |"\"" + k.body + "\""|;
    var colon := j + |k.before|;
    StartsWith(t, colon, ":");
    SkipText(t, i, k.body);
    ColonIsNoSpace();
    SkipBlank(t, j, k.before);
    SkipBlank(t, colon + 1, k.after);
  }

  lemma ColonIsNoSpace()
    ensures !IsSpace(':') && !IsSpace(',') && !IsSpace('}') && !IsSpace(']') && !IsSpace('[') && !IsSpace('{')
    ensures !IsSpace('"') && !IsSpace(NUL)
  {
  }

  lemma SkippedIsKey(t: string, i: nat) returns (k: Key)
    requires i <= |t| && SkipKey(t, i).Some?
    ensures k.Key? && KeyFits(k, true) && StandsAt(t, i, PrintKey(k)) && SkipKey(t, i).value == i + |PrintKey(k)|
  {
    hide IsSpace, PrintKey, IsBody, Blank, SkipString, SkipSpace, StandsAt;
    var body := SkippedIsText(t, i);
    var a := SkipString(t, i).value;
    var before := BlankThere(t, a);
    var b := SkipSpace(t, a);
    OneCharStands(t, b, ":");
    var after := BlankThere(t, b + 1);
    k := Key(body, before, after);
    KeyParts(t, i, k);
  }

  lemma {:induction false} ScalarEndIs(t: string, i: nat, token: string)
    requires StandsAt(t, i, token) && EndsScalar(At(t, i + |token|))
    requires forall k | 0 <= k < |token| :: !EndsScalar(token[k])
    ensures ScalarEnd(t, i) == i + |token|
    decreases |token|
  {
    hide EndsScalar;
    if token != "" {
      assert t[i] == t[i..i + |token|][0];
      assert t[i + 1..i + |token|] == t[i..i + |token|][1..];
      assert EndsScalar(At(t, i + 1 + |token[1..]|));
      ScalarEndIs(t, i + 1, token[1..]);
    }
  }

  // ----- Whole values -----

  predicate Allowed(nesting: nat, depth: nat) {
    nesting == 0 || depth + nesting <= MAX_DEPTH
  }

  lemma PrintStarts(v: Value, numeric: Numeric)
    requires WellFormed(v, numeric)
    ensures Print(v) != "" && !IsSpace(Print(v)[0]) && Print(v)[0] !in {']', '}'}
  {
  }

  lemma ItemsStart(items: Items, isObject: bool, numeric: Numeric)
    requires ItemsFit(items, isObject, numeric)
    ensures PrintItems(items, isObject) != "" && !IsSpace(PrintItems(items, isObject)[0])
    ensures PrintItems(items, isObject)[0] !in {']', '}'}
  {
    hide IsSpace;
    ColonIsNoSpace();
    PrintStarts(items.value, numeric);
  }

  lemma EmptyShape(t: string, i: nat, isObject: bool, lead: string)
    requires StandsAt(t, i, Print(Empty(isObject, lead))) && Blank(lead)
    ensures i < |t| && t[i] == Bracket(isObject)[0]
    ensures SkipSpace(t, i + 1) == i + 1 + |lead| && At(t, i + 1 + |lead|) == Closing(t[i])
  {
    hide IsSpace, StandsAt, Blank, SkipSpace;
    ColonIsNoSpace();
    StandsInParts(t, i, Bracket(isObject), lead + EndBracket(isObject));
    StandsInParts(t, i + 1, lead, EndBracket(isObject));
    StartsWith(t, i, Bracket(isObject));
    StartsWith(t, i + 1 + |lead|, EndBracket(isObject));
    SkipBlank(t, i + 1, lead);
  }

  lemma ContainerShape(t: string, i: nat, isObject: bool, lead: string, items: Items, numeric: Numeric)
    requires StandsAt(t, i, Print(Container(isObject, lead, items))) && Blank(lead) && ItemsFit(items, isObject, numeric)
    ensures i < |t| && t[i] == Bracket(isObject)[0]
    ensures SkipSpace(t, i + 1) == i + 1 + |lead| && At(t, i + 1 + |lead|) != Closing(t[i])
    ensures StandsAt(t, i + 1 + |lead|, PrintItems(items, isObject))
  {
    hide IsSpace, PrintItems, ItemsFit, StandsAt, Blank, SkipSpace;
    var inner := PrintItems(items, isObject);
    StandsInParts(t, i, Bracket(isObject), lead + inner);
    StandsInParts(t, i + 1, lead, inner);
    ItemsStart(items, isObject, numeric);
    StartsWith(t, i, Bracket(isObject));
    StartsWith(t, i + 1 + |lead|, inner);
    SkipBlank(t, i + 1, lead);
  }

  // What is printed behind the white space that follows the first value.
  function Tail(items: Items, isObject: bool): string {
    match items
    case Last(_, _, _) => EndBracket(isObject)
    case More(_, _, _, lead, rest) => "," + (lead + PrintItems(rest, isObject))
  }

  lemma PrintedInParts(items: Items, isObject: bool)
    ensures PrintItems(items, isObject)
      == PrintKey(items.key) + (Print(items.value) + (items.after + Tail(items, isObject)))
  {
    hide PrintKey, Print;
  }

  // Where the parts of the first item stand when the list stands at i.
  function ValueAt(i: nat, items: Items): nat {
    i + |PrintKey(items.key)|
  }

  function ValueEnd(i: nat, items: Items): nat {
    ValueAt(i, items) + |Print(items.value)|
  }

  function TailAt(i: nat, items: Items): nat {
    ValueEnd(i, items) + |items.after|
  }

  lemma ItemShape(t: string, i: nat, items: Items, isObject: bool)
    ensures i + |PrintItems(items, isObject)| == TailAt(i, items) + |Tail(items, isObject)|
    ensures StandsAt(t, i, PrintItems(items, isObject)) <==>
      && StandsAt(t, i, PrintKey(items.key)) && StandsAt(t, ValueAt(i, items), Print(items.value))
      && StandsAt(t, ValueEnd(i, items), items.after) && StandsAt(t, TailAt(i, items), Tail(items, isObject))
  {
    PrintedInParts(items, isObject);
    hide StandsAt, PrintKey, Print, PrintItems, Tail;
    var key, value, tail := PrintKey(items.key), Print(items.value), Tail(items, isObject);
    StandsInParts(t, i, key, value + (items.after + tail));
    StandsInParts(t, i + |key|, value, items.after + tail);
    StandsInParts(t, i + |key| + |value|, items.after, tail);
  }

  lemma MoreShape(t: string, l: nat, items: Items, isObject: bool)
    requires items.More?
    ensures |Tail(items, isObject)| == 1 + |items.lead| + |PrintItems(items.rest, isObject)|
    ensures StandsAt(t, l, Tail(items, isObject)) <==>
      && StandsAt(t, l, ",") && StandsAt(t, l + 1, items.lead)
      && StandsAt(t, l + 1 + |items.lead|, PrintItems(items.rest, isObject))
  {
    hide StandsAt, PrintItems;
    StandsInParts(t, l, ",", items.lead + PrintItems(items.rest, isObject));
    StandsInParts(t, l + 1, items.lead, PrintItems(items.rest, isObject));
  }

  lemma TailStarts(t: string, l: nat, items: Items, isObject: bool)
    requires StandsAt(t, l, Tail(items, isObject))
    ensures l < |t| && At(t, l) == if items.Last? then EndBracket(isObject)[0] else ','
    ensures items.Last? ==> |Tail(items, isObject)| == 1
  {
    hide StandsAt, PrintItems;
    StartsWith(t, l, Tail(items, isObject));
  }

  // What the scanner meets on a key, or on none.
  lemma KeyScan(t: string, i: nat, items: Items, isObject: bool, numeric: Numeric)
    requires ItemsFit(items, isObject, numeric) && StandsAt(t, i, PrintKey(items.key))
    requires StandsAt(t, ValueAt(i, items), Print(items.value))
    ensures (if isObject then SkipKey(t, i) else Some(i)) == Some(ValueAt(i, items))
  {
    hide StandsAt, Print, SkipKey, IsSpace;
    if isObject {
      hide PrintKey;
      PrintStarts(items.value, numeric);
      StartsWith(t, ValueAt(i, items), Print(items.value));
      SkipWholeKey(t, i, items.key);
    }
  }

  // What it meets behind the first value.
  lemma TailScan(t: string, i: nat, items: Items, isObject: bool, numeric: Numeric)
    requires ItemsFit(items, isObject, numeric) && StandsAt(t, ValueEnd(i, items), items.after)
    requires StandsAt(t, TailAt(i, items), Tail(items, isObject))
    ensures EndsScalar(At(t, ValueEnd(i, items))) && SkipSpace(t, ValueEnd(i, items)) == TailAt(i, items)
  {
    hide StandsAt, Print, PrintKey, Tail, IsSpace, EndsScalar, ValueEnd;
    TailStarts(t, TailAt(i, items), items, isObject);
    ColonIsNoSpace();
    SkipBlank(t, ValueEnd(i, items), items.after);
    ValueEnds(t, ValueEnd(i, items), items.after, At(t, TailAt(i, items)));
  }

  // What it meets behind a comma.
  lemma RestScan(t: string, l: nat, items: Items, isObject: bool, numeric: Numeric)
    requires items.More? && ItemsFit(items, isObject, numeric) && StandsAt(t, l, Tail(items, isObject))
    ensures var m := l + 1 + |items.lead|;
      && SkipSpace(t, l + 1) == m && StandsAt(t, m, PrintItems(items.rest, isObject))
      && m + |PrintItems(items.rest, isObject)| == l + |Tail(items, isObject)|
  {
    hide StandsAt, PrintItems, Tail, IsSpace, SkipSpace, Blank;
    MoreShape(t, l, items, isObject);
    ItemsStart(items.rest, isObject, numeric);
    var m := l + 1 + |items.lead|;
    StartsWith(t, m, PrintItems(items.rest, isObject));
    hide ItemsFit;
    SkipBlank(t, l + 1, items.lead);
  }

  /** A printed value, whatever its white space, is skipped to exactly its end if at most four containers are nested
      from the top level on, and refused otherwise. */
  lemma {:induction false} SkipWholeValue(t: string, i: nat, v: Value, depth: nat, numeric: Numeric)
    requires WellFormed(v, numeric) && StandsAt(t, i, Print(v))
    requires v.Scalar? ==> EndsScalar(At(t, i + |Print(v)|))
    ensures SkipValue(t, i, depth, numeric)
      == if Allowed(Nesting(v), depth) then Some(i + |Print(v)|) else None
    decreases v
  {
    hide IsSpace, EndsScalar, IsScalar, IsEscape, SkipItems, PrintItems, SkipString, SkipSpace;
    PrintStarts(v, numeric);
    StartsWith(t, i, Print(v));
    match v {
      case Scalar(token) =>
        TokenIs(token, numeric);
        ScalarEndIs(t, i, token);
      case Text(body) => SkipText(t, i, body);
      case Empty(isObject, lead) => EmptyShape(t, i, isObject, lead);
      case Container(isObject, lead, items) =>
        ContainerShape(t, i, isObject, lead, items, numeric);
        if depth < MAX_DEPTH {
          SkipWholeItems(t, i + 1 + |lead|, items, isObject, depth, numeric);
        }
    }
  }

  // One turn of the scanner's loop, once the key is read.
  lemma ItemsTurn(t: string, i: nat, j: nat, isObject: bool, depth: nat, numeric: Numeric)
    requires i <= j <= |t| && (if isObject then SkipKey(t, i) else Some(i)) == Some(j)
    ensures var value := SkipValue(t, j, depth + 1, numeric);
      SkipItems(t, i, Bracket(isObject)[0], depth, numeric) ==
        if value.None? then None
        else
          var l := SkipSpace(t, value.value);
          if At(t, l) == ',' then SkipItems(t, SkipSpace(t, l + 1), Bracket(isObject)[0], depth, numeric)
          else if At(t, l) == EndBracket(isObject)[0] then Some(l + 1) else None
  {
    hide IsSpace, SkipKey, SkipValue, SkipSpace;
  }

  lemma {:induction false} SkipWholeItems(t: string, i: nat, items: Items, isObject: bool, depth: nat, numeric: Numeric)
    requires ItemsFit(items, isObject, numeric) && StandsAt(t, i, PrintItems(items, isObject)) && depth < MAX_DEPTH
    ensures SkipItems(t, i, Bracket(isObject)[0], depth, numeric)
      == if depth + 1 + ItemsNesting(items) <= MAX_DEPTH then Some(i + |PrintItems(items, isObject)|) else None
    decreases items
  {
    hide EndsScalar, PrintItems, Print, PrintKey, SkipKey, SkipSpace, StandsAt, SkipValue, SkipItems, ValueAt, TailAt, Tail;
    ItemShape(t, i, items, isObject);
    KeyScan(t, i, items, isObject, numeric);
    TailScan(t, i, items, isObject, numeric);
    var l := TailAt(i, items);
    TailStarts(t, l, items, isObject);
    var j := ValueAt(i, items);
    ItemsTurn(t, i, j, isObject, depth, numeric);
    SkipWholeValue(t, j, items.value, depth + 1, numeric);
    if items.More? {
      RestScan(t, l, items, isObject, numeric);
      SkipWholeItems(t, l + 1 + |items.lead|, items.rest, isObject, depth, numeric);
    }
  }

  // White space, a comma or a closing bracket ends a scalar.
  lemma ValueEnds(t: string, k: nat, after: string, next: char)
    requires StandsAt(t, k, after) && Blank(after) && At(t, k + |after|) == next && next in {',', ']', '}'}
    ensures EndsScalar(At(t, k))
  {
    if after != "" {
      StartsWith(t, k, after);
    }
  }

  // ----- Nothing else is accepted -----

  lemma SkippedIsScalar(t: string, i: nat, numeric: Numeric) returns (v: Value)
    requires i <= |t| && SkipScalar(t, i, numeric).Some? && At(t, i) !in {'[', '{', '"'}
    ensures v.Scalar? && WellFormed(v, numeric) && StandsAt(t, i, Print(v))
    ensures SkipScalar(t, i, numeric).value == i + |Print(v)| && EndsScalar(At(t, i + |Print(v)|))
  {
    hide EndsScalar, IsScalar;
    var j := ScalarEnd(t, i);
    v := Scalar(t[i..j]);
    assert t[i..j][0] == t[i];
    TokenIs(t[i..j], numeric);
  }

  /** Whatever the scanner skips is a printed value of the grammar with at most four nested containers. */
  lemma {:induction false} SkippedIsValue(t: string, i: nat, depth: nat, numeric: Numeric) returns (v: Value)
    requires i <= |t| && SkipValue(t, i, depth, numeric).Some?
    ensures WellFormed(v, numeric) && Allowed(Nesting(v), depth) && StandsAt(t, i, Print(v))
    ensures SkipValue(t, i, depth, numeric).value == i + |Print(v)|
    ensures v.Scalar? ==> EndsScalar(At(t, i + |Print(v)|))
    decreases |t| - i, 2
  {
    hide IsSpace, EndsScalar, IsScalar, IsEscape, SkipItems, PrintItems, IsBody, SkipScalar, SkipString, StandsAt;
    if At(t, i) == '[' || At(t, i) == '{' {
      var isObject := At(t, i) == '{';
      var j := SkipSpace(t, i + 1);
      var lead := BlankThere(t, i + 1);
      OneCharStands(t, i, Bracket(isObject));
      if At(t, j) == Closing(t[i]) {
        v := Empty(isObject, lead);
        OneCharStands(t, j, EndBracket(isObject));
        StandsInParts(t, i + 1, lead, EndBracket(isObject));
        StandsInParts(t, i, Bracket(isObject), lead + EndBracket(isObject));
      } else {
        var items := SkippedIsItems(t, j, isObject, depth, numeric);
        v := Container(isObject, lead, items);
        StandsInParts(t, i + 1, lead, PrintItems(items, isObject));
        StandsInParts(t, i, Bracket(isObject), lead + PrintItems(items, isObject));
      }
    } else if At(t, i) == '"' {
      var body := SkippedIsText(t, i);
      v := Text(body);
    } else {
      v := SkippedIsScalar(t, i, numeric);
    }
  }

  // One turn of the scanner's loop.
  lemma ItemsStep(t: string, i: nat, isObject: bool, depth: nat, numeric: Numeric)
    requires i <= |t| && SkipItems(t, i, Bracket(isObject)[0], depth, numeric).Some?
    ensures var start := if isObject then SkipKey(t, i) else Some(i);
      && start.Some? && SkipValue(t, start.value, depth + 1, numeric).Some?
      && var l := SkipSpace(t, SkipValue(t, start.value, depth + 1, numeric).value);
        && l < |t| && (t[l] == ',' || t[l] == EndBracket(isObject)[0])
        && SkipItems(t, i, Bracket(isObject)[0], depth, numeric)
          == (if t[l] == ',' then SkipItems(t, SkipSpace(t, l + 1), Bracket(isObject)[0], depth, numeric) else Some(l + 1))
  {
    hide IsSpace, SkipKey, SkipValue, SkipSpace;
  }

  // A list put together from where its parts stand.
  lemma LastStands(t: string, i: nat, items: Items, isObject: bool)
    requires items.Last? && StandsAt(t, i, PrintKey(items.key)) && StandsAt(t, ValueAt(i, items), Print(items.value))
    requires StandsAt(t, ValueEnd(i, items), items.after)
    requires TailAt(i, items) < |t| && t[TailAt(i, items)] == EndBracket(isObject)[0]
    ensures StandsAt(t, i, PrintItems(items, isObject)) && i + |PrintItems(items, isObject)| == TailAt(i, items) + 1
  {
    assert Tail(items, isObject) == EndBracket(isObject);
    hide *;
    OneCharStands(t, TailAt(i, items), EndBracket(isObject));
    ItemShape(t, i, items, isObject);
  }

  lemma MoreStands(t: string, i: nat, items: Items, isObject: bool)
    requires items.More? && StandsAt(t, i, PrintKey(items.key)) && StandsAt(t, ValueAt(i, items), Print(items.value))
    requires StandsAt(t, ValueEnd(i, items), items.after)
    requires var l := TailAt(i, items); var m := l + 1 + |items.lead|;
      && l < |t| && t[l] == ',' && StandsAt(t, l + 1, items.lead) && StandsAt(t, m, PrintItems(items.rest, isObject))
    ensures StandsAt(t, i, PrintItems(items, isObject))
    ensures i + |PrintItems(items, isObject)|
      == TailAt(i, items) + 1 + |items.lead| + |PrintItems(items.rest, isObject)|
  {
    hide *;
    OneCharStands(t, TailAt(i, items), ",");
    MoreShape(t, TailAt(i, items), items, isObject);
    ItemShape(t, i, items, isObject);
  }

  lemma {:induction false} SkippedIsItems(t: string, i: nat, isObject: bool, depth: nat, numeric: Numeric) returns (items: Items)
    requires i <= |t| && depth < MAX_DEPTH && SkipItems(t, i, Bracket(isObject)[0], depth, numeric).Some?
    ensures ItemsFit(items, isObject, numeric) && depth + 1 + ItemsNesting(items) <= MAX_DEPTH
    ensures StandsAt(t, i, PrintItems(items, isObject))
    ensures SkipItems(t, i, Bracket(isObject)[0], depth, numeric).value == i + |PrintItems(items, isObject)|
    decreases |t| - i, 3
  {
    hide IsSpace, EndsScalar, SkipKey, SkipValue, SkipSpace, StandsAt, PrintKey, Print, PrintItems, WellFormed, Nesting, Blank, SkipItems;
    ItemsStep(t, i, isObject, depth, numeric);
    var key := NoKey;
    NoKeyStands(t, i);
    if isObject {
      key := SkippedIsKey(t, i);
    }
    var j := i + |PrintKey(key)|;
    var value := SkippedIsValue(t, j, depth + 1, numeric);
    var k := j + |Print(value)|;
    var l := SkipSpace(t, k);
    var after := BlankThere(t, k);
    if At(t, l) == ',' {
      var lead := BlankThere(t, l + 1);
      var rest := SkippedIsItems(t, SkipSpace(t, l + 1), isObject, depth, numeric);
      items := More(key, value, after, lead, rest);
      MoreStands(t, i, items, isObject);
    } else {
      items := Last(key, value, after);
      LastStands(t, i, items, isObject);
    }
  }

  lemma NoKeyStands(t: string, i: nat)
    requires i <= |t|
    ensures PrintKey(NoKey) == "" && StandsAt(t, i, "")
  {
  }

  /** The scanner skips to j exactly when a value of the grammar, nested at most four deep, stands from i to j. */
  lemma SkipAcceptsTheGrammar(t: string, i: nat, j: nat, numeric: Numeric)
    requires i <= |t|
    ensures SkipValue(t, i, 0, numeric) == Some(j) <==>
      exists v: Value ::
        && WellFormed(v, numeric) && Nesting(v) <= 4 && StandsAt(t, i, Print(v)) && j == i + |Print(v)|
        && (v.Scalar? ==> IsSeparator(At(t, j)))
  {
    SeparatorIs(At(t, j));
    hide IsSeparator, SkipValue, EndsScalar, WellFormed, Print, StandsAt;
    if SkipValue(t, i, 0, numeric) == Some(j) {
      var v := SkippedIsValue(t, i, 0, numeric);
    }
    forall v: Value | WellFormed(v, numeric) && Nesting(v) <= 4 && StandsAt(t, i, Print(v))
      && (v.Scalar? ==> IsSeparator(At(t, i + |Print(v)|)))
      ensures SkipValue(t, i, 0, numeric) == Some(i + |Print(v)|)
    {
      SeparatorIs(At(t, i + |Print(v)|));
      SkipWholeValue(t, i, v, 0, numeric);
    }
  }
}
