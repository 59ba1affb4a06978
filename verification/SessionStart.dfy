/** The `session_start` message: written piece by piece into the caller's buffer, read back by the walker. */
module SessionStart {
  import opened Common
  import opened Json
  import opened JsonGrammar
  import opened SessionJson

  datatype Start = Start(sampleRate: nat, channels: nat, format: nat, chunkMs: nat, samplesPerChunk: nat, bytesPerChunk: nat,
                         latencyMs: nat, stopHistoryEouMs: nat, residueTokensAtEnd: nat, targetLang: string)

  // The fields hold 32-bit numbers and the language fits its array.
  predicate InRange(s: Start) {
    && s.sampleRate < U32_LIMIT && s.channels < U32_LIMIT && s.format < U32_LIMIT && s.chunkMs < U32_LIMIT
    && s.samplesPerChunk < U32_LIMIT && s.bytesPerChunk < U32_LIMIT && s.latencyMs < U32_LIMIT
    && s.stopHistoryEouMs < U32_LIMIT && s.residueTokensAtEnd < U32_LIMIT && |s.targetLang| < LANG_MAX
  }

  predicate BasicsFit(s: Start) {
    s.sampleRate != 0 && s.channels == 1 && s.format == 1 && s.bytesPerChunk != 0
  }

  predicate IsTagChar(c: char) {
    'a' <= c <= 'z' || 'A' <= c <= 'Z' || '0' <= c <= '9' || c == '-' || c == '_'
  }

  predicate SafeTag(tag: string) {
    forall i | 0 <= i < |tag| :: IsTagChar(tag[i])
  }

  // ----- Decimal numbers -----

  function Digit(d: nat): char
    requires d < 10
  {
    '0' + d as char
  }

  function Decimal(n: nat): (s: string)
    ensures s != ""
  {
    if n < 10 then [Digit(n)] else Decimal(n / 10) + [Digit(n % 10)]
  }

  predicate IsDigits(s: string) {
    forall i | 0 <= i < |s| :: '0' <= s[i] <= '9'
  }

  function DecimalValue(s: string): nat
    requires IsDigits(s)
  {
    if s == "" then 0 else DecimalValue(s[..|s| - 1]) * 10 + (s[|s| - 1] as int - '0' as int)
  }

  /** Printing a number and reading its digits gives the number. */
  lemma {:induction false} DecimalReadsBack(n: nat)
    ensures IsDigits(Decimal(n)) && DecimalValue(Decimal(n)) == n
  {
    if n < 10 {
      assert [Digit(n)][..0] == "";
    } else {
      DecimalReadsBack(n / 10);
      var s := Decimal(n);
      assert s[..|s| - 1] == Decimal(n / 10);
    }
  }

  lemma {:induction false} DecimalIsShort(n: nat, k: nat, limit: nat)
    requires n < limit && limit <= PowerOfTen(k)
    ensures |Decimal(n)| <= k + 1
    decreases k
  {
    if n >= 10 {
      assert k > 0;
      DecimalIsShort(n / 10, k - 1, n / 10 + 1);
    }
  }

  function PowerOfTen(k: nat): nat {
    if k == 0 then 1 else 10 * PowerOfTen(k - 1)
  }

  // ----- The message -----

  // A member with its raw value.
  datatype Member = Member(key: string, raw: string)

  function MemberText(m: Member): string {
    "\"" + m.key + "\":" + m.raw
  }

  function Members(ms: seq<Member>): string {
    if ms == [] then ""
    else if |ms| == 1 then MemberText(ms[0])
    else MemberText(ms[0]) + "," + Members(ms[1..])
  }

  function Basics(s: Start): seq<Member> {
    [Member("type", "\"session_start\""), Member("version", Decimal(1)),
     Member("sample_rate_hz", Decimal(s.sampleRate)), Member("channels", Decimal(s.channels)),
     Member("format", Decimal(s.format)), Member("chunk_ms", Decimal(s.chunkMs)),
     Member("samples_per_chunk", Decimal(s.samplesPerChunk)), Member("bytes_per_chunk", Decimal(s.bytesPerChunk))]
  }

  // A zero override is left out.
  function IfSet(key: string, value: nat): seq<Member> {
    if value == 0 then [] else [Member(key, Decimal(value))]
  }

  function Language(tag: string): seq<Member> {
    if tag == "" then [] else [Member("target_lang", "\"" + tag + "\"")]
  }

  function Overrides(s: Start): seq<Member> {
    Language(s.targetLang) + IfSet("latency_ms", s.latencyMs)
    + IfSet("stop_history_eou_ms", s.stopHistoryEouMs) + IfSet("residue_tokens_at_end", s.residueTokensAtEnd)
  }

  function BackendConfig(s: Start): string {
    "{" + Members(Overrides(s)) + "}"
  }

  // The members of the whole message.
  function AllMembers(s: Start): seq<Member> {
    Basics(s) + if Overrides(s) == [] then [] else [Member("backend_config", BackendConfig(s))]
  }

  // Letters, digits, hyphens and underscores.
  predicate IsLanguageTag(tag: string) {
    forall i | 0 <= i < |tag| ::
      'A' <= tag[i] <= 'Z' || 'a' <= tag[i] <= 'z' || '0' <= tag[i] <= '9' || tag[i] in {'-', '_'}
  }

  lemma SafeTagIs(tag: string)
    ensures SafeTag(tag) == IsLanguageTag(tag)
  {
    if SafeTag(tag) {
      forall i | 0 <= i < |tag| ensures IsTagChar(tag[i]) {
      }
    }
  }

  function StartText(s: Start): string {
    "{" + Members(AllMembers(s)) + "}"
  }

  // The piece one override adds behind the members already written.
  function NextPiece(before: seq<Member>, next: seq<Member>): string
    requires |next| <= 1
  {
    if next == [] then "" else (if before == [] then "" else ",") + MemberText(next[0])
  }

  lemma {:induction false} MembersGrow(before: seq<Member>, next: seq<Member>)
    requires |next| <= 1
    ensures Members(before + next) == Members(before) + NextPiece(before, next)
  {
    hide MemberText;
    if next == [] {
      assert before + next == before;
    } else if before == [] {
      assert before + next == next;
    } else {
      assert (before + next)[1..] == before[1..] + next && (before + next)[0] == before[0];
      MembersGrow(before[1..], next);
    }
  }

  const OPEN_BACKEND := ",\"backend_config\":{"

  // The pieces of the message in the order they are written.
  function FirstPiece(s: Start): string {
    "{" + Members(Basics(s))
  }

  ghost function OverridePieces(s: Start): (string, string, string, string) {
    var l, a, b, c := Language(s.targetLang), IfSet("latency_ms", s.latencyMs),
      IfSet("stop_history_eou_ms", s.stopHistoryEouMs), IfSet("residue_tokens_at_end", s.residueTokensAtEnd);
    (NextPiece([], l), NextPiece(l, a), NextPiece(l + a, b), NextPiece(l + a + b, c))
  }

  lemma OverridesInPieces(s: Start)
    ensures var (p, q, r, t) := OverridePieces(s); Members(Overrides(s)) == p + q + r + t
  {
    hide Members, NextPiece;
    var l, a, b, c := Language(s.targetLang), IfSet("latency_ms", s.latencyMs),
      IfSet("stop_history_eou_ms", s.stopHistoryEouMs), IfSet("residue_tokens_at_end", s.residueTokensAtEnd);
    MembersGrow([], l);
    MembersGrow(l, a);
    MembersGrow(l + a, b);
    MembersGrow(l + a + b, c);
    NoMembers();
    assert [] + l == l;
  }

  lemma NoMembers()
    ensures Members([]) == ""
  {
  }

  /** The message is the concatenation of the pieces. */
  lemma TextInPieces(s: Start)
    ensures var (p, q, r, t) := OverridePieces(s);
      StartText(s) == FirstPiece(s) +
        (if Overrides(s) == [] then "}" else OPEN_BACKEND + (p + (q + (r + (t + ("}" + "}"))))))
  {
    hide Members, NextPiece, Basics, Overrides, OverridePieces;
    var (p, q, r, t) := OverridePieces(s);
    if Overrides(s) == [] {
      assert Basics(s) + [] == Basics(s);
    } else {
      OverridesInPieces(s);
      MembersGrow(Basics(s), [Member("backend_config", BackendConfig(s))]);
      BackendPiece(s);
      Reassociate(Members(Basics(s)), p, q, r, t);
    }
  }

  lemma BackendPiece(s: Start)
    ensures NextPiece(Basics(s), [Member("backend_config", BackendConfig(s))])
      == OPEN_BACKEND + Members(Overrides(s)) + "}"
  {
    hide Members, Overrides;
    var inner := Members(Overrides(s));
    assert "," + ("\"" + "backend_config" + "\":" + ("{" + inner + "}")) == OPEN_BACKEND + inner + "}";
  }

  lemma Reassociate(first: string, p: string, q: string, r: string, t: string)
    ensures "{" + (first + (OPEN_BACKEND + (p + q + r + t) + "}")) + "}"
      == ("{" + first) + (OPEN_BACKEND + (p + (q + (r + (t + ("}" + "}"))))))
  {
    assert (OPEN_BACKEND + (p + q + r + t) + "}") + "}" == OPEN_BACKEND + (p + (q + (r + (t + ("}" + "}")))));
  }

  // ----- The builder -----

  // One `snprintf` behind the text so far: it fits if the terminator does too. `rest` is what still follows.
  method Append(out: array<char>, used: nat, piece: string, ghost text: string, ghost rest: string) returns (used': nat, fits: bool)
    requires used < out.Length && out[..used] == text
    modifies out
    ensures fits <==> |text + piece| < out.Length
    ensures fits ==> used' == |text + piece| && out[..used'] == text + piece && out[used'] == NUL
    ensures !fits ==> |text + (piece + rest)| >= out.Length
    ensures text + (piece + rest) == (text + piece) + rest
  {
    used', fits := used, used + |piece| < out.Length;
    var n := if fits then |piece| else out.Length - used - 1;
    forall i | 0 <= i < n {
      out[used + i] := piece[i];
    }
    out[used + n] := NUL;
    if fits {
      used' := used + |piece|;
    }
  }

  // Writes one override unless it is zero; a comma goes before all but the first.
  method AppendU32Field(out: array<char>, used: nat, ghost before: seq<Member>, separator: string, key: string, value: nat,
                        ghost text: string, ghost rest: string) returns (used': nat, separator': string, fits: bool)
    requires used < out.Length && out[..used] == text && separator == if before == [] then "" else ","
    modifies out
    ensures var piece := NextPiece(before, IfSet(key, value));
      && (fits ==> used' == |text + piece| < out.Length && out[..used'] == text + piece)
      && (!fits ==> |text + (piece + rest)| >= out.Length)
      && text + (piece + rest) == (text + piece) + rest
    ensures fits ==> separator' == if before + IfSet(key, value) == [] then "" else ","
  {
    if value == 0 {
      assert text + "" == text && "" + rest == rest;
      return used, separator, true;
    }
    used', fits := Append(out, used, separator + MemberText(Member(key, Decimal(value))), text, rest);
    separator' := ",";
  }

  datatype BuildResult = Written(length: nat) | Invalid | NoSpace

  // The override object behind the first piece.
  method AppendBackend(out: array<char>, used: nat, s: Start) returns (r: BuildResult)
    requires used < out.Length && out[..used] == FirstPiece(s) && Overrides(s) != []
    modifies out
    ensures r.Invalid? <==> !SafeTag(s.targetLang)
    ensures r.Written? ==> r.length == |StartText(s)| - 1 < out.Length && out[..r.length] + "}" == StartText(s)
    ensures r.NoSpace? ==> |StartText(s)| >= out.Length
  {
    hide FirstPiece, StartText, MemberText, NextPiece;
    if s.targetLang != "" && !SafeTag(s.targetLang) {
      return Invalid;
    }
    TextInPieces(s);
    var at, fits := used, true;
    ghost var text := FirstPiece(s);
    ghost var (p, q, b, t) := OverridePieces(s);
    ghost var l, a, c := Language(s.targetLang), IfSet("latency_ms", s.latencyMs), IfSet("stop_history_eou_ms", s.stopHistoryEouMs);
    at, fits := Append(out, at, OPEN_BACKEND, text, p + (q + (b + (t + ("}" + "}")))));
    if !fits {
      return NoSpace;
    }
    text := text + OPEN_BACKEND;
    var separator := "";
    FirstOverride(s.targetLang);
    if s.targetLang != "" {
      at, fits := Append(out, at, MemberText(Member("target_lang", "\"" + s.targetLang + "\"")), text, q + (b + (t + ("}" + "}"))));
      if !fits {
        return NoSpace;
      }
      separator := ",";
    } else {
      assert text + (p + (q + (b + (t + ("}" + "}"))))) == (text + p) + (q + (b + (t + ("}" + "}"))));
      assert text + p == text;
    }
    text := text + p;
    at, separator, fits := AppendU32Field(out, at, l, separator, "latency_ms", s.latencyMs, text, b + (t + ("}" + "}")));
    if !fits {
      return NoSpace;
    }
    text := text + q;
    at, separator, fits := AppendU32Field(out, at, l + a, separator, "stop_history_eou_ms", s.stopHistoryEouMs, text, t + ("}" + "}"));
    if !fits {
      return NoSpace;
    }
    text := text + b;
    at, separator, fits := AppendU32Field(out, at, l + a + c, separator, "residue_tokens_at_end", s.residueTokensAtEnd, text, "}" + "}");
    if !fits {
      return NoSpace;
    }
    text := text + t;
    at, fits := Append(out, at, "}", text, "}");
    if !fits {
      return NoSpace;
    }
    r := Written(at);
  }

  lemma FirstOverride(tag: string)
    ensures NextPiece([], Language(tag))
      == if tag == "" then "" else MemberText(Member("target_lang", "\"" + tag + "\""))
  {
  }

  /** Builds the message. It runs out of space exactly when text and terminator do not fit; an unsafe language is only
      looked at once the first piece is written. */
  method BuildStart(out: array<char>, s: Start) returns (r: BuildResult)
    modifies out
    ensures r.Written? ==> r.length == |StartText(s)| < out.Length && out[..r.length] == StartText(s) && out[r.length] == NUL
    ensures r.Invalid? <==>
      || out.Length == 0 || s.sampleRate == 0 || s.channels != 1 || s.format != 1 || s.bytesPerChunk == 0
      || (!IsLanguageTag(s.targetLang) && |FirstPiece(s)| < out.Length)
    ensures r.NoSpace? <==> !r.Invalid? && |StartText(s)| >= out.Length
  {
    hide FirstPiece, StartText, Members, IsLanguageTag;
    SafeTagIs(s.targetLang);
    if out.Length == 0 {
      return Invalid;
    }
    if !BasicsFit(s) {
      return Invalid;
    }
    TextInPieces(s);
    var used, fits := Append(out, 0, FirstPiece(s), "", StartText(s)[|FirstPiece(s)|..]);
    assert "" + FirstPiece(s) == FirstPiece(s);
    if !fits {
      return NoSpace;
    }
    ghost var text := FirstPiece(s);
    if s.latencyMs != 0 || s.stopHistoryEouMs != 0 || s.residueTokensAtEnd != 0 || s.targetLang != "" {
      r := AppendBackend(out, used, s);
      if !r.Written? {
        return;
      }
      used := r.length;
      text := StartText(s)[..|StartText(s)| - 1];
    }
    used, fits := Append(out, used, "}", text, "");
    r := if fits then Written(used) else NoSpace;
  }

  // ----- Reading the message back -----

  // A member as a tree.
  datatype Node = Node(key: string, value: Value)

  function MemberOf(n: Node): Member {
    Member(n.key, Print(n.value))
  }

  function MembersOf(nodes: seq<Node>): seq<Member> {
    if nodes == [] then [] else [MemberOf(nodes[0])] + MembersOf(nodes[1..])
  }

  // Letters and underscores only, short enough for the walker's buffer.
  predicate PlainKey(key: string) {
    |key| < KEY_MAX && forall i | 0 <= i < |key| :: 'a' <= key[i] <= 'z' || key[i] == '_'
  }

  ghost predicate NodeFits(n: Node, depth: nat, numeric: Numeric) {
    PlainKey(n.key) && WellFormed(n.value, numeric) && Nesting(n.value) <= depth
  }

  function ToItems(nodes: seq<Node>): Items
    requires nodes != []
  {
    var key := Key(nodes[0].key, "", "");
    if |nodes| == 1 then Last(key, nodes[0].value, "") else More(key, nodes[0].value, "", "", ToItems(nodes[1..]))
  }

  lemma {:induction false} ItemsText(nodes: seq<Node>)
    requires nodes != []
    ensures PrintItems(ToItems(nodes), true) == Members(MembersOf(nodes)) + "}"
  {
    hide *;
    var n, rest := nodes[0], nodes[1..];
    ToItemsStep(nodes);
    MembersStep(nodes);
    KeyText(n.key);
    if |nodes| == 1 {
      LastText(n.key, n.value);
    } else {
      ItemsText(rest);
      MoreText(n.key, n.value, ToItems(rest), Members(MembersOf(rest)));
    }
  }

  lemma ToItemsStep(nodes: seq<Node>)
    requires nodes != []
    ensures var n, key := nodes[0], Key(nodes[0].key, "", "");
      ToItems(nodes) == if |nodes| == 1 then Last(key, n.value, "") else More(key, n.value, "", "", ToItems(nodes[1..]))
  {
  }

  lemma MembersStep(nodes: seq<Node>)
    requires nodes != []
    ensures var text := MemberText(MemberOf(nodes[0]));
      Members(MembersOf(nodes)) == if |nodes| == 1 then text else text + "," + Members(MembersOf(nodes[1..]))
    ensures MemberText(MemberOf(nodes[0])) == "\"" + nodes[0].key + "\":" + Print(nodes[0].value)
  {
    hide Print;
    MembersCount(nodes[1..]);
    assert MembersOf(nodes)[1..] == MembersOf(nodes[1..]);
  }

  lemma LastText(name: string, value: Value)
    requires PrintKey(Key(name, "", "")) == "\"" + name + "\":"
    ensures PrintItems(Last(Key(name, "", ""), value, ""), true) == "\"" + name + "\":" + Print(value) + "}"
  {
    hide Print, PrintKey;
    var key := PrintKey(Key(name, "", ""));
    assert "" + EndBracket(true) == "}";
    assert key + (Print(value) + "}") == key + Print(value) + "}";
  }

  lemma MoreText(name: string, value: Value, rest: Items, text: string)
    requires PrintKey(Key(name, "", "")) == "\"" + name + "\":" && PrintItems(rest, true) == text + "}"
    ensures PrintItems(More(Key(name, "", ""), value, "", "", rest), true)
      == "\"" + name + "\":" + Print(value) + "," + text + "}"
  {
    var key, printed, inner := PrintKey(Key(name, "", "")), Print(value), PrintItems(rest, true);
    MoreInParts(Key(name, "", ""), value, rest);
    hide *;
    assert key + (printed + ("," + (text + "}"))) == key + printed + "," + text + "}";
  }

  lemma MoreInParts(key: Key, value: Value, rest: Items)
    ensures PrintItems(More(key, value, "", "", rest), true)
      == PrintKey(key) + (Print(value) + ("," + PrintItems(rest, true)))
  {
    hide Print, PrintKey;
    var inner := PrintItems(rest, true);
    assert "" + inner == inner && "" + ("," + inner) == "," + inner;
  }

  lemma KeyText(key: string)
    ensures PrintKey(Key(key, "", "")) == "\"" + key + "\":"
  {
  }

  lemma {:induction false} MembersCount(nodes: seq<Node>)
    ensures |MembersOf(nodes)| == |nodes|
  {
    if nodes != [] {
      MembersCount(nodes[1..]);
    }
  }

  lemma {:induction false} PlainBody(key: string)
    requires PlainKey(key)
    ensures IsBody(key) && DecodeBody(key) == key
  {
    if key != "" {
      PlainBody(key[1..]);
    }
  }

  function ReadAs(members: seq<Member>): seq<Field> {
    if members == [] then [] else [Field(members[0].key, false, members[0].raw)] + ReadAs(members[1..])
  }

  lemma {:induction false} ItemsReadAs(nodes: seq<Node>, depth: nat, numeric: Numeric)
    requires nodes != [] && forall i | 0 <= i < |nodes| :: NodeFits(nodes[i], depth, numeric)
    ensures ItemsFit(ToItems(nodes), true, numeric) && ItemsNesting(ToItems(nodes)) <= depth
    ensures FieldsOf(ToItems(nodes), numeric) == ReadAs(MembersOf(nodes))
  {
    hide Print, DecodeBody, IsBody;
    assert NodeFits(nodes[0], depth, numeric);
    PlainBody(nodes[0].key);
    if |nodes| == 1 {
      assert MembersOf(nodes[1..]) == [];
    } else {
      assert forall i | 0 <= i < |nodes| - 1 :: nodes[1..][i] == nodes[i + 1];
      ItemsReadAs(nodes[1..], depth, numeric);
      assert MembersOf(nodes)[1..] == MembersOf(nodes[1..]);
    }
  }

  lemma WalkReadsMembers(nodes: seq<Node>, depth: nat, numeric: Numeric)
    requires depth <= MAX_DEPTH && nodes != [] && forall i | 0 <= i < |nodes| :: NodeFits(nodes[i], depth, numeric)
    ensures Walk("{" + Members(MembersOf(nodes)) + "}", numeric) == Some(ReadAs(MembersOf(nodes)))
  {
    hide Members, PrintItems, Walk, ToItems, MembersOf, FieldsOf, ReadAs, NodeFits;
    var items := ToItems(nodes);
    ItemsReadAs(nodes, depth, numeric);
    ItemsText(nodes);
    WalkReadsObject("", "", items, "", numeric);
    assert Surrounded("", Print(Container(true, "", items)), "") == Print(Container(true, "", items));
    assert Print(Container(true, "", items)) == "{" + ("" + PrintItems(items, true));
    assert "{" + ("" + (Members(MembersOf(nodes)) + "}")) == "{" + Members(MembersOf(nodes)) + "}";
  }

  // `strtod` takes every 32-bit decimal number.
  ghost predicate AcceptsDecimals(numeric: Numeric) {
    forall n: nat | n < U32_LIMIT :: numeric(Decimal(n))
  }

  function NumberNode(key: string, n: nat): Node {
    Node(key, Scalar(Decimal(n)))
  }

  lemma {:induction false} NumberFits(key: string, n: nat, numeric: Numeric)
    requires PlainKey(key) && n < U32_LIMIT && AcceptsDecimals(numeric)
    ensures NodeFits(NumberNode(key, n), 0, numeric) && MemberOf(NumberNode(key, n)) == Member(key, Decimal(n))
  {
    DecimalReadsBack(n);
    assert PowerOfTen(10) == 10_000_000_000;
    DecimalIsShort(n, 10, U32_LIMIT);
  }

  lemma {:induction false} TagIsBody(tag: string)
    requires SafeTag(tag)
    ensures IsBody(tag)
  {
    if tag != "" {
      TagIsBody(tag[1..]);
    }
  }

  lemma TextFits(key: string, body: string, numeric: Numeric)
    requires PlainKey(key) && IsBody(body)
    ensures NodeFits(Node(key, Text(body)), 0, numeric) && MemberOf(Node(key, Text(body))) == Member(key, "\"" + body + "\"")
  {
  }

  // Trees whose members are the given ones.
  ghost predicate Represents(nodes: seq<Node>, members: seq<Member>, depth: nat, numeric: Numeric) {
    (forall i | 0 <= i < |nodes| :: NodeFits(nodes[i], depth, numeric)) && MembersOf(nodes) == members
  }

  lemma RepresentsTogether(nodes: seq<Node>, more: seq<Node>, members: seq<Member>, others: seq<Member>, depth: nat, numeric: Numeric)
    requires Represents(nodes, members, depth, numeric) && Represents(more, others, depth, numeric)
    ensures Represents(nodes + more, members + others, depth, numeric)
  {
    hide NodeFits;
    MembersOfParts(nodes, more);
  }

  lemma {:induction false} MembersOfParts(nodes: seq<Node>, more: seq<Node>)
    ensures MembersOf(nodes + more) == MembersOf(nodes) + MembersOf(more)
  {
    if nodes == [] {
      assert nodes + more == more;
    } else {
      assert (nodes + more)[1..] == nodes[1..] + more;
      MembersOfParts(nodes[1..], more);
    }
  }

  lemma OneRepresents(node: Node, member: Member, depth: nat, numeric: Numeric)
    requires NodeFits(node, depth, numeric) && MemberOf(node) == member
    ensures Represents([node], [member], depth, numeric)
  {
    assert MembersOf([node][1..]) == [];
  }

  lemma NumberRepresents(key: string, n: nat, numeric: Numeric) returns (nodes: seq<Node>)
    requires PlainKey(key) && n < U32_LIMIT && AcceptsDecimals(numeric)
    ensures Represents(nodes, IfSet(key, n), 0, numeric)
  {
    if n == 0 {
      nodes := [];
    } else {
      NumberFits(key, n, numeric);
      nodes := [NumberNode(key, n)];
      OneRepresents(nodes[0], Member(key, Decimal(n)), 0, numeric);
    }
  }

  function NumberMembers(numbers: seq<(string, nat)>): seq<Member> {
    if numbers == [] then [] else [Member(numbers[0].0, Decimal(numbers[0].1))] + NumberMembers(numbers[1..])
  }

  lemma {:induction false} NumbersRepresented(numbers: seq<(string, nat)>, numeric: Numeric) returns (nodes: seq<Node>)
    requires forall i | 0 <= i < |numbers| :: PlainKey(numbers[i].0) && numbers[i].1 < U32_LIMIT
    requires AcceptsDecimals(numeric)
    ensures Represents(nodes, NumberMembers(numbers), 0, numeric)
    decreases |numbers|
  {
    if numbers == [] {
      nodes := [];
    } else {
      var (key, n) := numbers[0];
      var rest := NumbersRepresented(numbers[1..], numeric);
      hide Represents, AcceptsDecimals, PlainKey;
      assert PlainKey(key) && n < U32_LIMIT;
      NumberFits(key, n, numeric);
      OneRepresents(NumberNode(key, n), Member(key, Decimal(n)), 0, numeric);
      RepresentsTogether([NumberNode(key, n)], rest, [Member(key, Decimal(n))], NumberMembers(numbers[1..]), 0, numeric);
      nodes := [NumberNode(key, n)] + rest;
    }
  }

  // The numeric members every message has.
  function BasicNumbers(s: Start): seq<(string, nat)> {
    [("version", 1), ("sample_rate_hz", s.sampleRate), ("channels", s.channels), ("format", s.format),
     ("chunk_ms", s.chunkMs), ("samples_per_chunk", s.samplesPerChunk), ("bytes_per_chunk", s.bytesPerChunk)]
  }

  lemma BasicsAreNumbers(s: Start)
    ensures Basics(s) == [TYPE_MEMBER] + NumberMembers(BasicNumbers(s))
  {
    hide Decimal;
    var ns := BasicNumbers(s);
    assert NumberMembers(ns[7..]) == [];
    assert NumberMembers(ns[6..]) == [Member("bytes_per_chunk", Decimal(s.bytesPerChunk))] by { assert ns[6..][1..] == ns[7..]; }
    assert ns[5..][1..] == ns[6..] && ns[4..][1..] == ns[5..] && ns[3..][1..] == ns[4..];
    assert ns[2..][1..] == ns[3..] && ns[1..][1..] == ns[2..] && ns[0..] == ns;
    assert NumberMembers(ns[4..]) == [Member("chunk_ms", Decimal(s.chunkMs)),
      Member("samples_per_chunk", Decimal(s.samplesPerChunk)), Member("bytes_per_chunk", Decimal(s.bytesPerChunk))];
    assert NumberMembers(ns[2..]) == [Member("channels", Decimal(s.channels)), Member("format", Decimal(s.format))]
      + NumberMembers(ns[4..]);
  }

  lemma BasicKeysArePlain(s: Start)
    requires InRange(s)
    ensures forall i | 0 <= i < |BasicNumbers(s)| :: PlainKey(BasicNumbers(s)[i].0) && BasicNumbers(s)[i].1 < U32_LIMIT
  {
    assert PlainKey("version") && PlainKey("sample_rate_hz") && PlainKey("channels") && PlainKey("format");
    assert PlainKey("chunk_ms") && PlainKey("samples_per_chunk") && PlainKey("bytes_per_chunk");
  }

  const TYPE_MEMBER := Member("type", "\"session_start\"")

  lemma TextRepresented(key: string, body: string, numeric: Numeric)
    requires PlainKey(key) && IsBody(body)
    ensures Represents([Node(key, Text(body))], [Member(key, "\"" + body + "\"")], 0, numeric)
  {
    hide PlainKey, IsBody;
    TextFits(key, body, numeric);
    OneRepresents(Node(key, Text(body)), Member(key, "\"" + body + "\""), 0, numeric);
  }

  lemma TypeText()
    ensures PlainKey("type") && SafeTag("session_start")
    ensures Member("type", "\"" + "session_start" + "\"") == TYPE_MEMBER
  {
  }

  lemma TypeRepresented(numeric: Numeric) returns (nodes: seq<Node>)
    ensures Represents(nodes, [TYPE_MEMBER], 0, numeric)
  {
    hide *;
    TypeText();
    TagIsBody("session_start");
    TextRepresented("type", "session_start", numeric);
    nodes := [Node("type", Text("session_start"))];
  }

  lemma BasicsRepresented(s: Start, numeric: Numeric) returns (nodes: seq<Node>)
    requires InRange(s) && AcceptsDecimals(numeric)
    ensures Represents(nodes, Basics(s), 0, numeric)
  {
    BasicsAreNumbers(s);
    BasicKeysArePlain(s);
    hide *;
    nodes := TypeRepresented(numeric);
    var rest := NumbersRepresented(BasicNumbers(s), numeric);
    RepresentsTogether(nodes, rest, [TYPE_MEMBER], NumberMembers(BasicNumbers(s)), 0, numeric);
    nodes := nodes + rest;
  }

  lemma OverridesRepresented(s: Start, numeric: Numeric) returns (nodes: seq<Node>)
    requires InRange(s) && SafeTag(s.targetLang) && AcceptsDecimals(numeric)
    ensures Represents(nodes, Overrides(s), 0, numeric)
  {
    hide *;
    nodes := LanguageRepresented(s.targetLang, numeric);
    OverridesTogether(s);
    var a := NumberRepresents("latency_ms", s.latencyMs, numeric);
    var b := NumberRepresents("stop_history_eou_ms", s.stopHistoryEouMs, numeric);
    var c := NumberRepresents("residue_tokens_at_end", s.residueTokensAtEnd, numeric);
    var l, m, n, o := Language(s.targetLang), IfSet("latency_ms", s.latencyMs),
      IfSet("stop_history_eou_ms", s.stopHistoryEouMs), IfSet("residue_tokens_at_end", s.residueTokensAtEnd);
    RepresentsTogether(nodes, a, l, m, 0, numeric);
    RepresentsTogether(nodes + a, b, l + m, n, 0, numeric);
    RepresentsTogether(nodes + a + b, c, l + m + n, o, 0, numeric);
    nodes := nodes + a + b + c;
  }

  lemma OverridesTogether(s: Start)
    requires InRange(s)
    ensures Overrides(s) == Language(s.targetLang) + IfSet("latency_ms", s.latencyMs)
      + IfSet("stop_history_eou_ms", s.stopHistoryEouMs) + IfSet("residue_tokens_at_end", s.residueTokensAtEnd)
    ensures s.latencyMs < U32_LIMIT && s.stopHistoryEouMs < U32_LIMIT && s.residueTokensAtEnd < U32_LIMIT
    ensures PlainKey("latency_ms") && PlainKey("stop_history_eou_ms") && PlainKey("residue_tokens_at_end")
  {
    hide Language, IfSet;
  }

  lemma LanguageRepresented(tag: string, numeric: Numeric) returns (nodes: seq<Node>)
    requires SafeTag(tag)
    ensures Represents(nodes, Language(tag), 0, numeric)
  {
    if tag == "" {
      nodes := [];
    } else {
      TagIsBody(tag);
      TextRepresented("target_lang", tag, numeric);
      nodes := [Node("target_lang", Text(tag))];
    }
  }

  // An object of flat members is itself a well-formed value, one level deep.
  lemma ObjectFits(key: string, nodes: seq<Node>, numeric: Numeric)
    requires PlainKey(key) && nodes != [] && forall i | 0 <= i < |nodes| :: NodeFits(nodes[i], 0, numeric)
    ensures NodeFits(Node(key, Container(true, "", ToItems(nodes))), 1, numeric)
  {
    hide ItemsFit, ToItems, FieldsOf, ReadAs, MembersOf, PlainKey, ItemsNesting, IsToken, IsBody, DecodeBody;
    ItemsReadAs(nodes, 0, numeric);
  }

  lemma ObjectText(key: string, nodes: seq<Node>)
    requires nodes != []
    ensures MemberOf(Node(key, Container(true, "", ToItems(nodes)))) == Member(key, "{" + Members(MembersOf(nodes)) + "}")
  {
    hide *;
    ItemsText(nodes);
    ObjectIs(key, ToItems(nodes));
    assert "{" + (Members(MembersOf(nodes)) + "}") == "{" + Members(MembersOf(nodes)) + "}";
  }

  lemma ObjectIs(key: string, items: Items)
    ensures MemberOf(Node(key, Container(true, "", items))) == Member(key, "{" + PrintItems(items, true))
  {
    hide PrintItems;
    assert "" + PrintItems(items, true) == PrintItems(items, true);
  }

  lemma BackendRepresented(s: Start, numeric: Numeric) returns (node: Node)
    requires InRange(s) && SafeTag(s.targetLang) && AcceptsDecimals(numeric) && Overrides(s) != []
    ensures Represents([node], [Member("backend_config", BackendConfig(s))], 1, numeric)
  {
    var nodes := OverridesRepresented(s, numeric);
    MembersCount(nodes);
    assert PlainKey("backend_config");
    hide Overrides, AcceptsDecimals, MemberOf, NodeFits, Members;
    ObjectFits("backend_config", nodes, numeric);
    ObjectText("backend_config", nodes);
    node := Node("backend_config", Container(true, "", ToItems(nodes)));
    OneRepresents(node, Member("backend_config", BackendConfig(s)), 1, numeric);
  }

  /** The message is one complete object for the walker, which reads back exactly the configured members in order; an
      override that is zero or empty is absent. */
  lemma MessageReadsBack(s: Start, numeric: Numeric)
    requires InRange(s) && SafeTag(s.targetLang) && AcceptsDecimals(numeric)
    ensures Walk(StartText(s), numeric) == Some(ReadAs(AllMembers(s)))
  {
    hide Members, Overrides, AcceptsDecimals, Walk, ReadAs, BackendConfig;
    var nodes := BasicsRepresented(s, numeric);
    MembersCount(nodes);
    if Overrides(s) == [] {
      assert Basics(s) + [] == Basics(s);
      WalkReadsMembers(nodes, 0, numeric);
    } else {
      var backend := BackendRepresented(s, numeric);
      Deeper(nodes, Basics(s), numeric);
      RepresentsTogether(nodes, [backend], Basics(s), [Member("backend_config", BackendConfig(s))], 1, numeric);
      WalkReadsMembers(nodes + [backend], 1, numeric);
    }
  }

  lemma Deeper(nodes: seq<Node>, members: seq<Member>, numeric: Numeric)
    requires Represents(nodes, members, 0, numeric)
    ensures Represents(nodes, members, 1, numeric)
  {
    forall i | 0 <= i < |nodes| ensures NodeFits(nodes[i], 1, numeric) {
      assert NodeFits(nodes[i], 0, numeric);
    }
  }

  /** The nested object reads back as exactly the overrides that are set. */
  lemma OverridesReadBack(s: Start, numeric: Numeric)
    requires InRange(s) && SafeTag(s.targetLang) && AcceptsDecimals(numeric) && Overrides(s) != []
    ensures Walk(BackendConfig(s), numeric) == Some(ReadAs(Overrides(s)))
  {
    hide Members, AcceptsDecimals, Walk, ReadAs;
    var nodes := OverridesRepresented(s, numeric);
    MembersCount(nodes);
    WalkReadsMembers(nodes, 0, numeric);
  }

  // ----- The message, field by field -----

  // A field with this key and this number.
  predicate Says(f: Field, key: string, n: nat) {
    f.key == key && !f.truncated && IsDigits(f.raw) && DecimalValue(f.raw) == n
  }

  // The numbers that are set, in order.
  function SetNumbers(numbers: seq<(string, nat)>): seq<(string, nat)> {
    if numbers == [] then [] else (if numbers[0].1 == 0 then [] else [numbers[0]]) + SetNumbers(numbers[1..])
  }

  function OverrideNumbers(s: Start): seq<(string, nat)> {
    [("latency_ms", s.latencyMs), ("stop_history_eou_ms", s.stopHistoryEouMs),
     ("residue_tokens_at_end", s.residueTokensAtEnd)]
  }

  predicate AllSay(fields: seq<Field>, numbers: seq<(string, nat)>) {
    |fields| == |numbers| && forall i | 0 <= i < |fields| :: Says(fields[i], numbers[i].0, numbers[i].1)
  }

  // The language in front, if there is one, and the overrides that are set.
  predicate SaysOverrides(fields: seq<Field>, s: Start) {
    var n := if s.targetLang == "" then 0 else 1;
    && |fields| >= n && (n == 1 ==> fields[0] == Field("target_lang", false, "\"" + s.targetLang + "\""))
    && AllSay(fields[n..], SetNumbers(OverrideNumbers(s)))
  }

  predicate NoOverrides(s: Start) {
    s.targetLang == "" && s.latencyMs == 0 && s.stopHistoryEouMs == 0 && s.residueTokensAtEnd == 0
  }

  lemma NumberSays(key: string, n: nat)
    ensures ReadAs([Member(key, Decimal(n))]) == [Field(key, false, Decimal(n))] && Says(Field(key, false, Decimal(n)), key, n)
  {
    DecimalReadsBack(n);
    assert [Member(key, Decimal(n))][1..] == [];
  }

  lemma {:induction false} ReadInParts(first: seq<Member>, second: seq<Member>)
    ensures ReadAs(first + second) == ReadAs(first) + ReadAs(second)
  {
    if first == [] {
      assert first + second == second;
    } else {
      assert (first + second)[1..] == first[1..] + second;
      ReadInParts(first[1..], second);
    }
  }

  lemma {:induction false} SayingSays(numbers: seq<(string, nat)>)
    ensures AllSay(ReadAs(NumberMembers(numbers)), numbers)
  {
    hide Decimal, Says;
    if numbers != [] {
      NumberSays(numbers[0].0, numbers[0].1);
      SayingSays(numbers[1..]);
      ReadInParts([Member(numbers[0].0, Decimal(numbers[0].1))], NumberMembers(numbers[1..]));
    }
  }

  lemma OverridesSay(s: Start)
    ensures Overrides(s) == Language(s.targetLang) + NumberMembers(SetNumbers(OverrideNumbers(s)))
  {
    hide Decimal;
    var ns := OverrideNumbers(s);
    assert SetNumbers(ns[3..]) == [];
    assert ns[2..][1..] == ns[3..] && ns[1..][1..] == ns[2..];
    SetOne(ns[2..]);
    SetOne(ns[1..]);
    SetOne(ns);
  }

  lemma SetOne(numbers: seq<(string, nat)>)
    requires numbers != []
    ensures NumberMembers(SetNumbers(numbers))
      == IfSet(numbers[0].0, numbers[0].1) + NumberMembers(SetNumbers(numbers[1..]))
  {
    hide Decimal, NumberMembers;
    var rest := SetNumbers(numbers[1..]);
    if numbers[0].1 != 0 {
      OneNumberMore(numbers[0], rest);
    } else {
      assert [] + rest == rest;
    }
  }

  lemma OneNumberMore(number: (string, nat), rest: seq<(string, nat)>)
    ensures NumberMembers([number] + rest) == [Member(number.0, Decimal(number.1))] + NumberMembers(rest)
  {
    hide Decimal;
    assert ([number] + rest)[1..] == rest;
  }

  lemma LanguageSays(tag: string)
    ensures ReadAs(Language(tag)) == if tag == "" then [] else [Field("target_lang", false, "\"" + tag + "\"")]
  {
    if tag != "" {
      assert Language(tag)[1..] == [];
    }
  }

  // What the overrides read back as.
  lemma OverridesRead(s: Start)
    ensures SaysOverrides(ReadAs(Overrides(s)), s)
    ensures NoOverrides(s) <==> Overrides(s) == []
  {
    hide ReadAs, NumberMembers, AllSay, Says, Decimal;
    var numbers := SetNumbers(OverrideNumbers(s));
    OverridesSay(s);
    ReadInParts(Language(s.targetLang), NumberMembers(numbers));
    LanguageSays(s.targetLang);
    SayingSays(numbers);
    var fields := ReadAs(Overrides(s));
    assert fields[|ReadAs(Language(s.targetLang))|..] == ReadAs(NumberMembers(numbers));
  }

  /** The session is started with the numbers configured: the walker reads the type, seven numbers, and, if anything is
      overridden, an object in which it reads the language and the numbers that are set. */
  lemma StartSays(s: Start, numeric: Numeric)
    requires InRange(s) && IsLanguageTag(s.targetLang) && AcceptsDecimals(numeric)
    ensures Walk(StartText(s), numeric).Some?
    ensures var fields := Walk(StartText(s), numeric).value;
      && |fields| == (if NoOverrides(s) then 8 else 9)
      && fields[0] == Field("type", false, "\"session_start\"")
      && Says(fields[1], "version", 1) && Says(fields[2], "sample_rate_hz", s.sampleRate)
      && Says(fields[3], "channels", s.channels) && Says(fields[4], "format", s.format)
      && Says(fields[5], "chunk_ms", s.chunkMs) && Says(fields[6], "samples_per_chunk", s.samplesPerChunk)
      && Says(fields[7], "bytes_per_chunk", s.bytesPerChunk)
      && (!NoOverrides(s) ==>
            && fields[8].key == "backend_config" && !fields[8].truncated
            && Walk(fields[8].raw, numeric).Some? && SaysOverrides(Walk(fields[8].raw, numeric).value, s))
  {
    hide *;
    SafeTagIs(s.targetLang);
    MessageReadsBack(s, numeric);
    BasicsAreNumbers(s);
    OverridesRead(s);
    SayingSays(BasicNumbers(s));
    if Overrides(s) != [] {
      OverridesReadBack(s, numeric);
    }
    AllMembersRead(s);
    SevenNumbers(ReadAs(AllMembers(s)), s);
  }

  lemma SevenNumbers(fields: seq<Field>, s: Start)
    requires |fields| >= 8 && AllSay(fields[1..8], BasicNumbers(s))
    ensures Says(fields[1], "version", 1) && Says(fields[2], "sample_rate_hz", s.sampleRate)
    ensures Says(fields[3], "channels", s.channels) && Says(fields[4], "format", s.format)
    ensures Says(fields[5], "chunk_ms", s.chunkMs) && Says(fields[6], "samples_per_chunk", s.samplesPerChunk)
    ensures Says(fields[7], "bytes_per_chunk", s.bytesPerChunk)
  {
    hide Says;
    var ns := BasicNumbers(s);
    forall i | 0 <= i < 7 ensures Says(fields[i + 1], ns[i].0, ns[i].1) {
      assert fields[1..8][i] == fields[i + 1];
    }
  }

  lemma AllMembersRead(s: Start)
    requires Basics(s) == [TYPE_MEMBER] + NumberMembers(BasicNumbers(s))
    requires AllSay(ReadAs(NumberMembers(BasicNumbers(s))), BasicNumbers(s))
    ensures var fields := ReadAs(AllMembers(s));
      && |fields| == (if Overrides(s) == [] then 8 else 9)
      && fields[0] == Field("type", false, "\"session_start\"") && AllSay(fields[1..8], BasicNumbers(s))
      && (Overrides(s) != [] ==> fields[8] == Field("backend_config", false, BackendConfig(s)))
  {
    hide Basics, Overrides, BackendConfig, NumberMembers, Says;
    ReadInParts([TYPE_MEMBER], NumberMembers(BasicNumbers(s)));
    assert [TYPE_MEMBER][1..] == [];
    if Overrides(s) == [] {
      assert Basics(s) + [] == Basics(s);
    } else {
      var backend := [Member("backend_config", BackendConfig(s))];
      ReadInParts(Basics(s), backend);
      assert backend[1..] == [];
    }
    assert ReadAs(AllMembers(s))[1..8] == ReadAs(NumberMembers(BasicNumbers(s)));
  }
}
