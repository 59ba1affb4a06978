/** The WebSocket receive path: a byte stream cut anywhere becomes frames, frames become text messages. */
module WsClient {
  import opened Common
  import opened Bytes
  import opened WsFrame

  const RX_MAX_PAYLOAD := 8192
  const RX_SIZE := RX_MAX_PAYLOAD + 64
  const MSG_SIZE := 1280

  // What the receiver does with the outside: answer a ping, hand up one text message.
  datatype Action = SendPong(payload: seq<byte>) | HandText(text: seq<byte>)

  datatype Failure = BadFrame | FrameTooBig | ServerClosed | TransportFailed | ActionFailed

  datatype Status = Open | Failed(failure: Failure)

  // Whether the latest action succeeds; it may depend on everything done so far.
  type Outcome = seq<Action> -> bool

  // The message under assembly.
  datatype Assembly = Assembly(text: seq<byte>, active: bool, overflow: bool)

  datatype Receiver = Receiver(pending: seq<byte>, message: Assembly, done: seq<Action>, protocolErrors: nat, status: Status)

  function Act(r: Receiver, action: Action, succeeds: Outcome): Receiver {
    var done := r.done + [action];
    r.(done := done, status := if succeeds(done) then Open else Failed(ActionFailed))
  }

  // The text as a C string: up to its first NUL.
  function CString(text: seq<byte>): (s: seq<byte>)
    ensures s <= text && 0 !in s && (|s| < |text| ==> text[|s|] == 0)
  {
    if text == [] || text[0] == 0 then [] else [text[0]] + CString(text[1..])
  }

  const NewMessage := Assembly([], true, false)

  function Joined(message: Assembly, payload: seq<byte>): Assembly {
    if |message.text| + |payload| < MSG_SIZE then message.(text := message.text + payload) else message.(overflow := true)
  }

  // One data frame joins the message under assembly, which leaves when the frame is final.
  function JoinFragment(r: Receiver, frame: ServerFrame, succeeds: Outcome): Receiver {
    var joined := Joined(if frame.opcode == TEXT then NewMessage else r.message, frame.payload);
    if !frame.fin then r.(message := joined)
    else if joined.overflow then
      r.(message := Assembly([], false, true), protocolErrors := r.protocolErrors + 1)
    else Act(r.(message := Assembly([], false, false)), HandText(CString(joined.text)), succeeds)
  }

  function HandleFrame(r: Receiver, frame: ServerFrame, succeeds: Outcome): Receiver {
    if frame.opcode == PING then Act(r, SendPong(frame.payload), succeeds)
    else if frame.opcode == PONG then r
    else if frame.opcode == CLOSE then r.(status := Failed(ServerClosed))
    else if frame.opcode == BINARY then r.(protocolErrors := r.protocolErrors + 1)
    else if frame.opcode != TEXT && !r.message.active then r.(protocolErrors := r.protocolErrors + 1)
    else JoinFragment(r, frame, succeeds)
  }

  // Works off every complete frame waiting in the buffer.
  function Drain(r: Receiver, succeeds: Outcome): Receiver
    decreases |r.pending|
  {
    match Decode(r.pending, RX_MAX_PAYLOAD)
    case Again => r
    case Protocol => r.(protocolErrors := r.protocolErrors + 1, status := Failed(BadFrame))
    case TooBig => r.(protocolErrors := r.protocolErrors + 1, status := Failed(FrameTooBig))
    case Decoded(frame) =>
      var rest := r.pending[frame.headerLen + |frame.payload|..];
      var r' := HandleFrame(r, frame, succeeds).(pending := rest);
      if r'.status.Open? then Drain(r', succeeds) else r'
  }

  // More bytes arrive on a live session.
  function Receive(r: Receiver, bytes: seq<byte>, succeeds: Outcome): Receiver {
    if r.status.Open? then Drain(r.(pending := r.pending + bytes), succeeds) else r
  }

  // A failed session is dropped with whatever is left in its buffer.
  function Settled(r: Receiver): Receiver {
    if r.status.Open? then r else r.(pending := [])
  }

  const NewReceiver := Receiver([], Assembly([], false, false), [], 0, Open)

  // ----- Where the stream is cut does not matter -----

  lemma {:induction false} DrainInParts(r: Receiver, more: seq<byte>, succeeds: Outcome)
    requires r.status.Open?
    ensures Settled(Receive(Drain(r, succeeds), more, succeeds))
      == Settled(Drain(r.(pending := r.pending + more), succeeds))
    decreases |r.pending|
  {
    hide Drain, Decode, HandleFrame, Receive, Settled;
    var all := r.(pending := r.pending + more);
    var answer := Decode(r.pending, RX_MAX_PAYLOAD);
    DrainTurn(r, succeeds);
    ReceiveIs(r, more, succeeds);
    if !answer.Again? {
      DecodeIsPrefixStable(r.pending, more, RX_MAX_PAYLOAD);
      DrainTurn(all, succeeds);
      DroppedBuffer(Drain(r, succeeds), more, succeeds);
    }
    if answer.Decoded? {
      var size := answer.frame.headerLen + |answer.frame.payload|;
      var r' := HandleFrame(r, answer.frame, succeeds).(pending := r.pending[size..]);
      assert (r.pending + more)[size..] == r.pending[size..] + more;
      HandleFrameIgnoresBuffer(r, all.pending, answer.frame, succeeds);
      if r'.status.Open? {
        DrainInParts(r', more, succeeds);
      } else {
        DroppedBuffer(r', more, succeeds);
      }
    } else if !answer.Again? {
      DroppedBuffer(Drain(r, succeeds), more, succeeds);
    }
  }

  // One turn of working off the buffer.
  lemma DrainTurn(r: Receiver, succeeds: Outcome)
    ensures match Decode(r.pending, RX_MAX_PAYLOAD)
      case Again => Drain(r, succeeds) == r
      case Protocol => Drain(r, succeeds) == r.(protocolErrors := r.protocolErrors + 1, status := Failed(BadFrame))
      case TooBig => Drain(r, succeeds) == r.(protocolErrors := r.protocolErrors + 1, status := Failed(FrameTooBig))
      case Decoded(frame) =>
        var size := frame.headerLen + |frame.payload|;
        size > 0 && size <= |r.pending|
        && var r' := HandleFrame(r, frame, succeeds).(pending := r.pending[size..]);
           Drain(r, succeeds) == if r'.status.Open? then Drain(r', succeeds) else r'
  {
    hide Decode, HandleFrame;
    if Decode(r.pending, RX_MAX_PAYLOAD).Decoded? {
      DecodedFits(r.pending, RX_MAX_PAYLOAD);
    }
  }

  lemma ReceiveIs(r: Receiver, more: seq<byte>, succeeds: Outcome)
    ensures r.status.Open? ==> Receive(r, more, succeeds) == Drain(r.(pending := r.pending + more), succeeds)
    ensures r.status.Failed? ==> Receive(r, more, succeeds) == r
  {
    hide Drain;
  }

  // What is left in the buffer of a failed session does not count.
  lemma DroppedBuffer(r: Receiver, more: seq<byte>, succeeds: Outcome)
    ensures r.status.Failed? ==>
      Receive(r, more, succeeds) == r && Settled(r.(pending := r.pending + more)) == Settled(r)
  {
    hide Drain;
  }

  lemma HandleFrameIgnoresBuffer(r: Receiver, pending: seq<byte>, frame: ServerFrame, succeeds: Outcome)
    ensures HandleFrame(r.(pending := pending), frame, succeeds) == HandleFrame(r, frame, succeeds).(pending := pending)
  {
  }

  function ReceiveEach(r: Receiver, chunks: seq<seq<byte>>, succeeds: Outcome): Receiver
    decreases |chunks|
  {
    if chunks == [] then r else ReceiveEach(Receive(r, chunks[0], succeeds), chunks[1..], succeeds)
  }

  lemma {:induction false} ReceiveNoMore(r: Receiver, chunks: seq<seq<byte>>, succeeds: Outcome)
    requires r.status.Failed?
    ensures ReceiveEach(r, chunks, succeeds) == r
    decreases |chunks|
  {
    if chunks != [] {
      ReceiveNoMore(r, chunks[1..], succeeds);
    }
  }

  /** What is done, counted and failed depends only on the bytes received, never on where `recv` cut them. */
  lemma {:induction false} CutsDoNotMatter(r: Receiver, chunks: seq<seq<byte>>, succeeds: Outcome)
    requires r.status.Open?
    ensures Settled(ReceiveEach(Drain(r, succeeds), chunks, succeeds))
      == Settled(Drain(r.(pending := r.pending + Flatten(chunks)), succeeds))
    decreases |chunks|
  {
    hide *;
    var d := Drain(r, succeeds);
    FirstChunk(d, chunks, succeeds);
    if chunks == [] {
      assert r.pending + [] == r.pending;
    } else {
      DrainInParts(r, Flatten(chunks), succeeds);
      if d.status.Failed? {
        ReceiveNoMore(d, chunks, succeeds);
      } else {
        var next := d.(pending := d.pending + chunks[0]);
        CutsDoNotMatter(next, chunks[1..], succeeds);
        assert d.pending + chunks[0] + Flatten(chunks[1..]) == d.pending + Flatten(chunks);
      }
    }
  }

  lemma FirstChunk(r: Receiver, chunks: seq<seq<byte>>, succeeds: Outcome)
    ensures chunks == [] ==> Flatten(chunks) == [] && ReceiveEach(r, chunks, succeeds) == r
    ensures r.status.Failed? ==> Receive(r, Flatten(chunks), succeeds) == r
    ensures chunks != [] && r.status.Open? ==>
      && Flatten(chunks) == chunks[0] + Flatten(chunks[1..])
      && ReceiveEach(r, chunks, succeeds)
        == ReceiveEach(Drain(r.(pending := r.pending + chunks[0]), succeeds), chunks[1..], succeeds)
      && Receive(r, Flatten(chunks), succeeds) == Drain(r.(pending := r.pending + Flatten(chunks)), succeeds)
  {
    hide Drain;
  }

  // ----- The receive buffer -----

  datatype Received = Bytes(data: seq<byte>) | WouldBlock | Closed | Broken

  // What one call of `recv` is willing to do.
  datatype Grant = Give(limit: nat) | Break

  /** The transport: bytes waiting, and what each call of `recv` does with them. */
  class Transport {
    var waiting: seq<byte>
    var grants: seq<Grant>
    const closed: bool

    constructor (waiting: seq<byte>, grants: seq<Grant>, closed: bool)
      ensures this.waiting == waiting && this.grants == grants && this.closed == closed
    {
      this.waiting, this.grants, this.closed := waiting, grants, closed;
    }

    method Recv(space: nat) returns (r: Received)
      requires space > 0
      modifies this
      ensures r.Bytes? ==> 0 < |r.data| <= space && old(waiting) == r.data + waiting
      ensures !r.Bytes? ==> waiting == old(waiting)
      ensures r.Closed? ==> closed && waiting == []
      ensures r.WouldBlock? ==> waiting == [] || grants == []
    {
      if grants != [] && grants[0].Break? {
        return Broken;
      }
      if grants == [] || waiting == [] {
        return if closed && waiting == [] then Closed else WouldBlock;
      }
      var n := if grants[0].limit == 0 then 1 else grants[0].limit;
      n := if n > space then space else n;
      n := if n > |waiting| then |waiting| else n;
      r := Bytes(waiting[..n]);
      waiting := waiting[n..];
      grants := grants[1..];
    }
  }

  class Client {
    const rx: array<byte>
    const msg: array<byte>
    const succeeds: Outcome
    var rxUsed: nat
    var msgUsed: nat
    var msgActive: bool
    var msgOverflow: bool
    var done: seq<Action>
    var protocolErrors: nat

    ghost predicate Valid()
      reads this
    {
      && rx.Length == RX_SIZE && msg.Length == MSG_SIZE && rx != msg
      && rxUsed <= rx.Length && msgUsed < msg.Length
    }

    ghost function View(status: Status): Receiver
      requires Valid()
      reads this, rx, msg
    {
      Receiver(rx[..rxUsed], Assembly(msg[..msgUsed], msgActive, msgOverflow), done, protocolErrors, status)
    }

    constructor (succeeds: Outcome)
      ensures Valid() && fresh(rx) && fresh(msg)
      ensures View(Open) == NewReceiver && this.succeeds == succeeds
    {
      rx := new byte[RX_SIZE];
      msg := new byte[MSG_SIZE];
      this.succeeds := succeeds;
      rxUsed, msgUsed, msgActive, msgOverflow, done, protocolErrors := 0, 0, false, false, [], 0;
    }

    method Perform(action: Action) returns (status: Status)
      modifies this`done
      ensures done == old(done) + [action]
      ensures status == if succeeds(done) then Open else Failed(ActionFailed)
    {
      done := done + [action];
      status := if succeeds(done) then Open else Failed(ActionFailed);
    }

    method JoinMessage(frame: ServerFrame) returns (status: Status)
      requires Valid() && (frame.opcode == TEXT || msgActive)
      modifies this, msg
      ensures Valid() && rxUsed == old(rxUsed)
      ensures View(status) == JoinFragment(old(View(Open)), frame, succeeds)
    {
      var length := |frame.payload|;
      if frame.opcode == TEXT {
        msgUsed, msgOverflow, msgActive := 0, false, true;
      }
      ghost var text := msg[..msgUsed];
      if msgUsed + length >= msg.Length {
        msgOverflow := true;
      } else {
        CopyIn(frame.payload);
        assert msg[..msgUsed] == text + frame.payload;
      }
      if !frame.fin {
        return Open;
      }
      msgActive := false;
      if msgOverflow {
        protocolErrors := protocolErrors + 1;
        msgUsed := 0;
        return Open;
      }
      var whole := msg[..msgUsed];
      msgUsed := 0;
      status := Perform(HandText(CString(whole)));
    }

    // memcpy to the end of the message.
    method CopyIn(payload: seq<byte>)
      requires Valid() && msgUsed + |payload| < msg.Length
      modifies this`msgUsed, msg
      ensures Valid() && msgUsed == old(msgUsed) + |payload|
      ensures msg[..msgUsed] == old(msg[..msgUsed]) + payload
    {
      var at := msgUsed;
      forall i | 0 <= i < |payload| {
        msg[at + i] := payload[i];
      }
      msgUsed := msgUsed + |payload|;
    }

    method HandleOne(frame: ServerFrame) returns (status: Status)
      requires Valid()
      modifies this, msg
      ensures Valid() && rxUsed == old(rxUsed)
      ensures View(status) == HandleFrame(old(View(Open)), frame, succeeds)
    {
      if frame.opcode == PING {
        status := Perform(SendPong(frame.payload));
        return;
      }
      if frame.opcode == PONG {
        return Open;
      }
      if frame.opcode == CLOSE {
        return Failed(ServerClosed);
      }
      if frame.opcode == BINARY {
        protocolErrors := protocolErrors + 1;
        return Open;
      }
      if frame.opcode != TEXT && !msgActive {
        protocolErrors := protocolErrors + 1;
        return Open;
      }
      status := JoinMessage(frame);
    }

    // memmove: the first `consumed` bytes leave the buffer.
    method Consume(consumed: nat)
      requires Valid() && consumed <= rxUsed
      modifies this`rxUsed, rx
      ensures Valid() && rxUsed == old(rxUsed) - consumed
      ensures rx[..rxUsed] == old(rx[..rxUsed])[consumed..]
    {
      var left := rxUsed - consumed;
      forall i | 0 <= i < left {
        rx[i] := rx[i + consumed];
      }
      rxUsed := left;
    }

    // Received bytes go behind those already waiting.
    method Append(data: seq<byte>)
      requires Valid() && rxUsed + |data| <= rx.Length
      modifies this`rxUsed, rx
      ensures Valid() && rxUsed == old(rxUsed) + |data|
      ensures rx[..rxUsed] == old(rx[..rxUsed]) + data
    {
      var at := rxUsed;
      forall i | 0 <= i < |data| {
        rx[at + i] := data[i];
      }
      rxUsed := rxUsed + |data|;
    }

    // Handles the frame at the start of the buffer and removes it.
    method TakeFrame(frame: ServerFrame) returns (status: Status)
      requires Valid() && Decode(rx[..rxUsed], RX_MAX_PAYLOAD) == Decoded(frame)
      modifies this, rx, msg
      ensures Valid() && rxUsed < old(rxUsed)
      ensures status.Open? ==> Drain(View(Open), succeeds) == Drain(old(View(Open)), succeeds)
      ensures status.Failed? ==> View(status) == Drain(old(View(Open)), succeeds)
    {
      hide Decode, HandleFrame;
      DecodedFits(rx[..rxUsed], RX_MAX_PAYLOAD);
      status := HandleOne(frame);
      Consume(frame.headerLen + |frame.payload|);
    }

    /** Reads and processes until the transport has nothing more; the whole effect is that of working off the bytes
        taken. The buffer never fills up with an incomplete frame. */
    method PumpRx(net: Transport) returns (status: Status, ghost taken: seq<byte>, ghost ended: bool)
      requires Valid()
      modifies this, rx, msg, net
      ensures Valid()
      ensures old(net.waiting) == taken + net.waiting
      ensures status.Open? ==> net.waiting == [] || net.grants == []
      ensures ended ==>
        (status == Failed(ServerClosed) && net.closed && net.waiting == []) || status == Failed(TransportFailed)
      ensures Settled(View(if ended then Open else status))
        == Settled(Drain(old(View(Open).(pending := View(Open).pending + taken)), succeeds))
    {
      hide Drain, Decode, Settled;
      taken, ended := [], false;
      ghost var start := View(Open);
      assert start.pending + taken == start.pending;
      while true
        invariant Valid() && !ended
        invariant old(net.waiting) == taken + net.waiting
        invariant SameWork(View(Open), start, taken, succeeds)
        decreases |net.waiting|, rxUsed
      {
        var answer := DecodeFrame(rx, rxUsed, RX_MAX_PAYLOAD);
        DrainStops(View(Open), succeeds);
        if answer.Decoded? {
          status := TakeFrame(answer.frame);
          if status.Failed? {
            return;
          }
          continue;
        }
        if !answer.Again? {
          protocolErrors := protocolErrors + 1;
          status := Failed(if answer.Protocol? then BadFrame else FrameTooBig);
          return;
        }
        IncompleteIsShort(rx[..rxUsed], RX_MAX_PAYLOAD);
        if rxUsed >= rx.Length {
          assert false;
        }
        var received := net.Recv(rx.Length - rxUsed);
        match received
        case WouldBlock =>
          status := Open;
          return;
        case Closed =>
          status, ended := Failed(ServerClosed), true;
          return;
        case Broken =>
          status, ended := Failed(TransportFailed), true;
          return;
        case Bytes(data) =>
          TookMore(View(Open), start, taken, data, succeeds);
          taken := taken + data;
          Append(data);
      }
    }
  }

  // Working off r is the same as working off `start` with the bytes taken since.
  ghost predicate SameWork(r: Receiver, start: Receiver, taken: seq<byte>, succeeds: Outcome) {
    Settled(Drain(r, succeeds)) == Settled(Drain(start.(pending := start.pending + taken), succeeds))
  }

  lemma TookMore(r: Receiver, start: Receiver, taken: seq<byte>, data: seq<byte>, succeeds: Outcome)
    requires r.status.Open? && start.status.Open? && SameWork(r, start, taken, succeeds)
    ensures SameWork(r.(pending := r.pending + data), start, taken + data, succeeds)
  {
    hide Drain;
    var s := start.(pending := start.pending + taken);
    DrainInParts(r, data, succeeds);
    DrainInParts(s, data, succeeds);
    assert start.pending + (taken + data) == s.pending + data;
    SettledReceive(Drain(r, succeeds), Drain(s, succeeds), data, succeeds);
  }

  lemma SettledReceive(r: Receiver, s: Receiver, data: seq<byte>, succeeds: Outcome)
    requires Settled(r) == Settled(s)
    ensures Settled(Receive(r, data, succeeds)) == Settled(Receive(s, data, succeeds))
  {
    hide Drain;
  }

  // Without a complete frame the buffer is worked off.
  lemma DrainStops(r: Receiver, succeeds: Outcome)
    ensures match Decode(r.pending, RX_MAX_PAYLOAD)
      case Again => Drain(r, succeeds) == r
      case Protocol =>
        Drain(r, succeeds) == r.(protocolErrors := r.protocolErrors + 1, status := Failed(BadFrame))
      case TooBig =>
        Drain(r, succeeds) == r.(protocolErrors := r.protocolErrors + 1, status := Failed(FrameTooBig))
      case Decoded(_) => true
  {
    hide Decode, HandleFrame;
  }

  // ----- What a server stream delivers -----

  // Frames that are no part of a message. A stray one continues no message under assembly.
  datatype Aside =
    | Ping(payload: seq<byte>)
    | Pong(payload: seq<byte>)
    | Binary(fin: bool, payload: seq<byte>)
    | Stray(opcode: byte, fin: bool, payload: seq<byte>)

  // The opcode counts behind the first fragment of a message, which is TEXT.
  datatype Fragment = Fragment(before: seq<Aside>, opcode: byte, payload: seq<byte>)

  // The receiver takes all reserved opcodes of section 5.2 of RFC 6455 for continuations.
  predicate Continues(opcode: byte) {
    opcode == 0x0 || 0x3 <= opcode <= 0x7 || 0xB <= opcode <= 0xF
  }

  // Control frames are whole and short, others have at most 8192 bytes.
  predicate FrameFits(opcode: byte, fin: bool, payload: seq<byte>) {
    opcode <= 0x0F && |payload| <= 8192 && (opcode >= 0x8 ==> fin && |payload| <= 125)
  }

  function AsideOpcode(a: Aside): byte {
    match a case Ping(_) => 0x9 case Pong(_) => 0xA case Binary(_, _) => 0x2 case Stray(opcode, _, _) => opcode
  }

  function AsideFin(a: Aside): bool {
    if a.Ping? || a.Pong? then true else a.fin
  }

  predicate AsideFits(a: Aside) {
    FrameFits(AsideOpcode(a), AsideFin(a), a.payload) && (a.Stray? ==> Continues(a.opcode))
  }

  predicate AsidesFit(asides: seq<Aside>) {
    asides == [] || (AsideFits(asides[0]) && AsidesFit(asides[1..]))
  }

  predicate NoneStray(asides: seq<Aside>) {
    asides == [] || (!asides[0].Stray? && NoneStray(asides[1..]))
  }

  function AsideBytes(a: Aside): seq<byte>
    requires AsideFits(a)
  {
    ServerBytes(AsideOpcode(a), AsideFin(a), a.payload)
  }

  function AsidesBytes(asides: seq<Aside>): seq<byte>
    requires AsidesFit(asides)
  {
    if asides == [] then [] else AsideBytes(asides[0]) + AsidesBytes(asides[1..])
  }

  // Binary and stray frames are counted as errors.
  function Wrong(asides: seq<Aside>): nat {
    if asides == [] then 0 else (if asides[0].Binary? || asides[0].Stray? then 1 else 0) + Wrong(asides[1..])
  }

  function FrameOpcode(f: Fragment, first: bool): byte {
    if first then 0x1 else f.opcode
  }

  // A reserved control opcode stands only on a last fragment, since its frame is final.
  predicate FragmentFits(f: Fragment, first: bool, last: bool) {
    && AsidesFit(f.before) && (first || (NoneStray(f.before) && Continues(f.opcode)))
    && FrameFits(FrameOpcode(f, first), last, f.payload)
  }

  // The fragments of one message, or those still to come.
  predicate FragmentsFit(fragments: seq<Fragment>, first: bool) {
    fragments == [] || (FragmentFits(fragments[0], first, |fragments| == 1) && FragmentsFit(fragments[1..], false))
  }

  function FragmentsBytes(fragments: seq<Fragment>, first: bool): seq<byte>
    requires FragmentsFit(fragments, first)
  {
    if fragments == [] then []
    else
      AsidesBytes(fragments[0].before)
      + ServerBytes(FrameOpcode(fragments[0], first), |fragments| == 1, fragments[0].payload)
      + FragmentsBytes(fragments[1..], false)
  }

  function MessageText(fragments: seq<Fragment>): seq<byte> {
    if fragments == [] then [] else fragments[0].payload + MessageText(fragments[1..])
  }

  function WrongBetween(fragments: seq<Fragment>): nat {
    if fragments == [] then 0 else Wrong(fragments[0].before) + WrongBetween(fragments[1..])
  }

  // The text messages among the actions.
  function Texts(done: seq<Action>): seq<seq<byte>> {
    if done == [] then []
    else
      Texts(done[..|done| - 1]) + if done[|done| - 1].HandText? then [done[|done| - 1].text] else []
  }

  // A stream: whole messages, each a non-empty list of fragments.
  predicate StreamFits(messages: seq<seq<Fragment>>) {
    messages == [] || (messages[0] != [] && FragmentsFit(messages[0], true) && StreamFits(messages[1..]))
  }

  function StreamBytes(messages: seq<seq<Fragment>>): seq<byte>
    requires StreamFits(messages)
  {
    if messages == [] then [] else FragmentsBytes(messages[0], true) + StreamBytes(messages[1..])
  }

  // Exactly the messages of fewer than 1280 bytes, as the C strings they are read as.
  function Deliverable(messages: seq<seq<Fragment>>): seq<seq<byte>> {
    if messages == [] then [] else Delivered(messages[0]) + Deliverable(messages[1..])
  }

  function Delivered(fragments: seq<Fragment>): seq<seq<byte>> {
    if |MessageText(fragments)| < 1280 then [CString(MessageText(fragments))] else []
  }

  // The answers to pings.
  function Pongs(asides: seq<Aside>): seq<Action> {
    if asides == [] then []
    else (if asides[0].Ping? then [SendPong(asides[0].payload)] else []) + Pongs(asides[1..])
  }

  function PongsBetween(fragments: seq<Fragment>): seq<Action> {
    if fragments == [] then [] else Pongs(fragments[0].before) + PongsBetween(fragments[1..])
  }

  function Hand(texts: seq<seq<byte>>): seq<Action> {
    if texts == [] then [] else [HandText(texts[0])] + Hand(texts[1..])
  }

  /** All that is to be done about a stream, in its order: each ping is answered with its payload, and each deliverable
      message is handed up when it is complete. */
  function ToDo(messages: seq<seq<Fragment>>): seq<Action> {
    if messages == [] then []
    else PongsBetween(messages[0]) + Hand(Delivered(messages[0])) + ToDo(messages[1..])
  }

  // The errors counted: binary and stray frames, and messages that do not fit.
  function Errors(messages: seq<seq<Fragment>>): nat {
    if messages == [] then 0 else MessageErrors(messages[0]) + Errors(messages[1..])
  }

  function MessageErrors(fragments: seq<Fragment>): nat {
    WrongBetween(fragments) + if |MessageText(fragments)| < 1280 then 0 else 1
  }

  ghost predicate AllSucceed(succeeds: Outcome) {
    forall done: seq<Action> :: succeeds(done)
  }

  // The receiver after one frame has left the buffer; where the payload started does not matter.
  function AfterFrame(r: Receiver, opcode: byte, fin: bool, payload: seq<byte>, rest: seq<byte>, succeeds: Outcome): Receiver {
    HandleFrame(r, ServerFrame(opcode, fin, payload, 0), succeeds).(pending := rest)
  }

  lemma HandleFrameIgnoresHeader(r: Receiver, f: ServerFrame, g: ServerFrame, succeeds: Outcome)
    requires f.(headerLen := 0) == g.(headerLen := 0)
    ensures HandleFrame(r, f, succeeds) == HandleFrame(r, g, succeeds)
  {
  }

  lemma ServerBytesSize(opcode: byte, fin: bool, payload: seq<byte>)
    requires |payload| <= 8192
    ensures |ServerBytes(opcode, fin, payload)| >= 2 + |payload|
  {
  }

  // One well-formed frame at the front of the buffer is handled and leaves.
  lemma DrainOneFrame(r: Receiver, opcode: byte, fin: bool, payload: seq<byte>, rest: seq<byte>, succeeds: Outcome)
    requires FrameFits(opcode, fin, payload)
    requires r.pending == ServerBytes(opcode, fin, payload) + rest
    ensures var r' := AfterFrame(r, opcode, fin, payload, rest, succeeds);
      Drain(r, succeeds) == if r'.status.Open? then Drain(r', succeeds) else r'
  {
    hide Decode, HandleFrame, ServerBytes;
    ControlOpcodes(opcode);
    hide IsControl;
    var bytes := ServerBytes(opcode, fin, payload);
    ServerFrameDecodes(opcode, fin, payload, rest, RX_MAX_PAYLOAD);
    assert (bytes + rest)[|bytes|..] == rest;
    ServerBytesSize(opcode, fin, payload);
    HandleFrameIgnoresHeader(r, ServerFrame(opcode, fin, payload, |bytes| - |payload|),
                             ServerFrame(opcode, fin, payload, 0), succeeds);
  }

  lemma ControlOpcodes(opcode: byte)
    requires opcode <= 0x0F
    ensures IsControl(opcode) <==> opcode >= 0x8
  {
  }

  // One aside leaves the message under assembly alone, and only a ping is answered.
  lemma HandleAside(r: Receiver, a: Aside, rest: seq<byte>, succeeds: Outcome)
    requires AsideFits(a) && !(r.message.active && a.Stray?) && r.status.Open? && AllSucceed(succeeds)
    ensures var r' := AfterFrame(r, AsideOpcode(a), AsideFin(a), a.payload, rest, succeeds);
      && r'.pending == rest && r'.status.Open? && r'.message == r.message
      && r'.done == r.done + (if a.Ping? then [SendPong(a.payload)] else [])
      && r'.protocolErrors == r.protocolErrors + if a.Binary? || a.Stray? then 1 else 0
  {
    hide IsControl;
    assert r.done + [] == r.done;
  }

  lemma AsidesStep(asides: seq<Aside>, rest: seq<byte>)
    requires AsidesFit(asides)
    ensures asides == [] ==> AsidesBytes(asides) + rest == rest && Wrong(asides) == 0 && Pongs(asides) == []
    ensures asides != [] ==>
      var a := asides[0];
      && AsideFits(a) && FrameFits(AsideOpcode(a), AsideFin(a), a.payload) && AsidesFit(asides[1..])
      && (NoneStray(asides) ==> !a.Stray? && NoneStray(asides[1..]))
      && AsidesBytes(asides) + rest
        == ServerBytes(AsideOpcode(a), AsideFin(a), a.payload) + (AsidesBytes(asides[1..]) + rest)
      && Wrong(asides) == (if a.Binary? || a.Stray? then 1 else 0) + Wrong(asides[1..])
      && Pongs(asides) == (if a.Ping? then [SendPong(a.payload)] else []) + Pongs(asides[1..])
  {
    hide ServerBytes, Continues;
  }

  lemma {:induction false} DrainAsides(r: Receiver, asides: seq<Aside>, rest: seq<byte>, succeeds: Outcome) returns (r': Receiver)
    requires AsidesFit(asides) && (r.message.active ==> NoneStray(asides))
    requires r.status.Open? && AllSucceed(succeeds) && r.pending == AsidesBytes(asides) + rest
    ensures Drain(r, succeeds) == Drain(r', succeeds)
    ensures r'.pending == rest && r'.status.Open? && r'.message == r.message
    ensures r'.done == r.done + Pongs(asides) && r'.protocolErrors == r.protocolErrors + Wrong(asides)
    decreases |asides|
  {
    hide *;
    AsidesStep(asides, rest);
    if asides == [] {
      r' := r;
      assert r.done + [] == r.done;
    } else {
      var a := asides[0];
      var more := AsidesBytes(asides[1..]) + rest;
      DrainOneFrame(r, AsideOpcode(a), AsideFin(a), a.payload, more, succeeds);
      HandleAside(r, a, more, succeeds);
      r' := DrainAsides(AfterFrame(r, AsideOpcode(a), AsideFin(a), a.payload, more, succeeds), asides[1..], rest, succeeds);
    }
  }

  // One data frame of a message.
  lemma HandleFragment(r: Receiver, opcode: byte, fin: bool, payload: seq<byte>, rest: seq<byte>, succeeds: Outcome)
    requires opcode == TEXT || (Continues(opcode) && r.message.active)
    requires r.status.Open? && AllSucceed(succeeds)
    ensures var r' := AfterFrame(r, opcode, fin, payload, rest, succeeds);
      var joined := Joined(if opcode == TEXT then NewMessage else r.message, payload);
      && r'.pending == rest && r'.status.Open?
      && if fin then
           && r'.done == r.done + (if joined.overflow then [] else [HandText(CString(joined.text))])
           && !r'.message.active
           && r'.protocolErrors == r.protocolErrors + (if joined.overflow then 1 else 0)
         else r'.message == joined && r'.done == r.done && r'.protocolErrors == r.protocolErrors
  {
    hide CString, Joined;
    assert r.done + [] == r.done;
  }

  lemma FragmentStep(fragments: seq<Fragment>, first: bool, rest: seq<byte>)
    requires fragments != [] && FragmentsFit(fragments, first)
    ensures var f, later := fragments[0], fragments[1..]; var opcode := FrameOpcode(f, first);
      && AsidesFit(f.before) && (first || NoneStray(f.before))
      && (opcode == TEXT || Continues(opcode)) && (opcode == TEXT <==> first)
      && FrameFits(opcode, |fragments| == 1, f.payload) && |f.payload| < UINT63_LIMIT && FragmentsFit(later, false)
      && FragmentsBytes(fragments, first) + rest
        == AsidesBytes(f.before)
           + (ServerBytes(opcode, |fragments| == 1, f.payload) + (FragmentsBytes(later, false) + rest))
      && MessageText(fragments) == f.payload + MessageText(later)
      && WrongBetween(fragments) == Wrong(f.before) + WrongBetween(later)
      && PongsBetween(fragments) == Pongs(f.before) + PongsBetween(later)
    ensures FragmentsBytes([], false) + rest == rest && MessageText([]) == [] && WrongBetween([]) == 0
    ensures PongsBetween([]) == [] && NewMessage == Assembly([], true, false) && MSG_SIZE == 1280
  {
    hide ServerBytes, AsidesBytes, AsidesFit, Wrong, Pongs;
  }

  // What is delivered of a message of which `before` is assembled and `payload` and `text` are to come.
  lemma JoinedText(before: Assembly, payload: seq<byte>, text: seq<byte>)
    requires |before.text| < MSG_SIZE
    ensures var joined := Joined(before, payload); var whole := before.text + (payload + text);
      && joined.active == before.active && |joined.text| < MSG_SIZE
      && (!joined.overflow && |joined.text + text| < MSG_SIZE <==> !before.overflow && |whole| < MSG_SIZE)
      && (!joined.overflow ==> joined.text + text == whole)
  {
  }

  // The fragments of a message are joined; the whole is handed up exactly when it fits.
  lemma {:induction false} DrainFragments(r: Receiver, fragments: seq<Fragment>, first: bool, rest: seq<byte>,
                                          succeeds: Outcome) returns (r': Receiver)
    requires fragments != [] && FragmentsFit(fragments, first)
    requires r.status.Open? && AllSucceed(succeeds) && r.pending == FragmentsBytes(fragments, first) + rest
    requires if first then r.message.active ==> NoneStray(fragments[0].before)
             else r.message.active && |r.message.text| < MSG_SIZE
    ensures Drain(r, succeeds) == Drain(r', succeeds) && r'.pending == rest && r'.status.Open? && !r'.message.active
    ensures var before := if first then NewMessage else r.message;
      var whole := before.text + MessageText(fragments);
      var fits := !before.overflow && |whole| < MSG_SIZE;
      && r'.done == r.done + (PongsBetween(fragments) + (if fits then [HandText(CString(whole))] else []))
      && r'.protocolErrors == r.protocolErrors + WrongBetween(fragments) + if fits then 0 else 1
    decreases |fragments|
  {
    hide *;
    var f, later := fragments[0], fragments[1..];
    FragmentStep(fragments, first, rest);
    var before := if first then NewMessage else r.message;
    var opcode := FrameOpcode(f, first);
    var more := FragmentsBytes(later, false) + rest;
    var frame := ServerBytes(opcode, |fragments| == 1, f.payload) + more;
    var r1 := DrainAsides(r, f.before, frame, succeeds);
    DrainOneFrame(r1, opcode, |fragments| == 1, f.payload, more, succeeds);
    HandleFragment(r1, opcode, |fragments| == 1, f.payload, more, succeeds);
    r' := AfterFrame(r1, opcode, |fragments| == 1, f.payload, more, succeeds);
    JoinedText(before, f.payload, MessageText(later));
    if later == [] {
      var text := Joined(before, f.payload).text;
      assert text + [] == text;
    } else {
      r' := DrainFragments(r', later, false, rest, succeeds);
    }
  }

  // No frame is stray while a message is still under assembly.
  predicate Starts(messages: seq<seq<Fragment>>, active: bool) {
    active && messages != [] && messages[0] != [] ==> NoneStray(messages[0][0].before)
  }

  /** Of a stream of messages, with control and binary frames interleaved at will and stray frames between them, exactly
      this is done, in order: each ping is answered, and the concatenated fragments of each message whose total is under
      1280 bytes are handed up to their first NUL. All else is counted as errors. */
  lemma {:induction false} StreamDelivers(r: Receiver, messages: seq<seq<Fragment>>, rest: seq<byte>, succeeds: Outcome) returns (r': Receiver)
    requires StreamFits(messages) && Starts(messages, r.message.active) && r.status.Open? && AllSucceed(succeeds)
    requires r.pending == StreamBytes(messages) + rest
    ensures Drain(r, succeeds) == Drain(r', succeeds) && r'.pending == rest && r'.status.Open?
    ensures r'.done == r.done + ToDo(messages) && r'.protocolErrors == r.protocolErrors + Errors(messages)
    ensures r'.message.active ==> messages == [] && r.message.active
    decreases |messages|
  {
    hide *;
    StartsIs(messages, r.message.active);
    StreamStep(messages, rest);
    if messages == [] {
      r' := r;
      assert r.done + [] == r.done;
    } else {
      var more := StreamBytes(messages[1..]) + rest;
      var r1 := DrainFragments(r, messages[0], true, more, succeeds);
      assert [] + MessageText(messages[0]) == MessageText(messages[0]);
      DeliveredIs(messages[0]);
      r' := StreamDelivers(r1, messages[1..], rest, succeeds);
    }
  }

  lemma StartsIs(messages: seq<seq<Fragment>>, active: bool)
    ensures Starts(messages, active) && active && messages != [] && messages[0] != [] ==> NoneStray(messages[0][0].before)
    ensures Starts(messages, false)
    ensures messages != [] ==> Starts(messages[1..], false)
  {
  }

  lemma DeliveredIs(fragments: seq<Fragment>)
    ensures var text := MessageText(fragments); var fits := |text| < MSG_SIZE;
      && Hand(Delivered(fragments)) == (if fits then [HandText(CString(text))] else [])
      && MessageErrors(fragments) == WrongBetween(fragments) + if fits then 0 else 1
    ensures NewMessage.text == [] && !NewMessage.overflow
  {
    hide MessageText, CString, WrongBetween;
  }

  lemma StreamStep(messages: seq<seq<Fragment>>, rest: seq<byte>)
    requires StreamFits(messages)
    ensures messages == [] ==>
      StreamBytes(messages) + rest == rest && ToDo(messages) == [] && Errors(messages) == 0
    ensures messages != [] ==>
      && messages[0] != [] && FragmentsFit(messages[0], true) && StreamFits(messages[1..])
      && StreamBytes(messages) + rest == FragmentsBytes(messages[0], true) + (StreamBytes(messages[1..]) + rest)
      && ToDo(messages) == PongsBetween(messages[0]) + Hand(Delivered(messages[0])) + ToDo(messages[1..])
      && Errors(messages) == MessageErrors(messages[0]) + Errors(messages[1..])
  {
    hide FragmentsFit, FragmentsBytes, MessageErrors, Delivered, PongsBetween, Hand;
  }

  // The bytes of such a stream, and of asides behind it.
  function AllBytes(messages: seq<seq<Fragment>>, behind: seq<Aside>): seq<byte>
    requires StreamFits(messages) && AsidesFit(behind)
  {
    StreamBytes(messages) + AsidesBytes(behind)
  }

  /** However `recv` cuts such a stream, the receiver stays open, all that is to be done is done in order and nothing
      else, and the errors are counted. */
  lemma CutStreamDelivers(messages: seq<seq<Fragment>>, behind: seq<Aside>, chunks: seq<seq<byte>>, succeeds: Outcome)
    requires StreamFits(messages) && AsidesFit(behind) && AllSucceed(succeeds)
    requires Flatten(chunks) == AllBytes(messages, behind)
    ensures var r := ReceiveEach(NewReceiver, chunks, succeeds);
      && r.status.Open? && r.pending == [] && r.done == ToDo(messages) + Pongs(behind)
      && r.protocolErrors == Errors(messages) + Wrong(behind)
  {
    hide *;
    var all := NewReceiver.(pending := Flatten(chunks));
    NothingReceived(all.pending);
    AllBytesIs(messages, behind);
    CutsDoNotMatter(NewReceiver, chunks, succeeds);
    DrainStops(NewReceiver, succeeds);
    StartsIs(messages, false);
    var r1 := StreamDelivers(all, messages, AsidesBytes(behind), succeeds);
    var r2 := DrainAsides(r1, behind, [], succeeds);
    DrainStops(r2, succeeds);
    SettledOpen(ReceiveEach(NewReceiver, chunks, succeeds), r2);
  }

  // What the stream ends with: the beginning of a frame, a frame that is refused, or a close frame.
  datatype Ending = Nothing | BeginningOfFrame | Bad | Big | Close

  predicate EndsLike(last: seq<byte>, ending: Ending) {
    match Decode(last, 8192)
    case Again => ending == if last == [] then Nothing else BeginningOfFrame
    case Protocol => ending.Bad?
    case TooBig => ending.Big?
    case Decoded(frame) => ending.Close? && frame.opcode == 0x8
  }

  /** A refused frame or a close frame ends the session: all in front of it is done, and nothing behind it, whatever and
      however much that is. The beginning of a frame stays in the buffer. */
  lemma CutStreamEnds(messages: seq<seq<Fragment>>, behind: seq<Aside>, last: seq<byte>, ending: Ending,
                      chunks: seq<seq<byte>>, succeeds: Outcome)
    requires StreamFits(messages) && AsidesFit(behind) && AllSucceed(succeeds) && EndsLike(last, ending)
    requires Flatten(chunks) == AllBytes(messages, behind) + last
    ensures var r := ReceiveEach(NewReceiver, chunks, succeeds);
      && r.done == ToDo(messages) + Pongs(behind)
      && r.protocolErrors == Errors(messages) + Wrong(behind) + (if ending.Bad? || ending.Big? then 1 else 0)
      && match ending
         case Bad => r.status == Failed(BadFrame)
         case Big => r.status == Failed(FrameTooBig)
         case Close => r.status == Failed(ServerClosed)
         case _ => r.status.Open? && r.pending == last
  {
    hide *;
    var all := NewReceiver.(pending := Flatten(chunks));
    NothingReceived(all.pending);
    AllBytesIs(messages, behind);
    CutsDoNotMatter(NewReceiver, chunks, succeeds);
    DrainStops(NewReceiver, succeeds);
    StartsIs(messages, false);
    assert StreamBytes(messages) + AsidesBytes(behind) + last == StreamBytes(messages) + (AsidesBytes(behind) + last);
    var r1 := StreamDelivers(all, messages, AsidesBytes(behind) + last, succeeds);
    var r2 := DrainAsides(r1, behind, last, succeeds);
    Ends(r2, ending, succeeds);
    SameSettled(ReceiveEach(NewReceiver, chunks, succeeds), Drain(r2, succeeds));
  }

  lemma Ends(r: Receiver, ending: Ending, succeeds: Outcome)
    requires r.status.Open? && EndsLike(r.pending, ending)
    ensures var r' := Drain(r, succeeds);
      && r'.done == r.done && r'.protocolErrors == r.protocolErrors + (if ending.Bad? || ending.Big? then 1 else 0)
      && match ending
         case Bad => r'.status == Failed(BadFrame)
         case Big => r'.status == Failed(FrameTooBig)
         case Close => r'.status == Failed(ServerClosed)
         case _ => r'.status.Open? && r'.pending == r.pending
  {
    hide Decode;
    DrainTurn(r, succeeds);
  }

  lemma SameSettled(r: Receiver, r': Receiver)
    requires Settled(r) == Settled(r')
    ensures r.(pending := []) == r'.(pending := []) && (r.status.Open? ==> r == r')
  {
  }

  // ----- Actions that fail -----

  function Always(): Outcome {
    (done: seq<Action>) => true
  }

  // From `from` actions on, all succeed; or `k` is the number of those done when the first one fails.
  ghost predicate AllGoWell(done: seq<Action>, from: nat, succeeds: Outcome) {
    forall k | from < k <= |done| :: succeeds(done[..k])
  }

  ghost predicate FailsAt(done: seq<Action>, from: nat, k: nat, succeeds: Outcome) {
    from < k <= |done| && !succeeds(done[..k]) && forall j | from < j < k :: succeeds(done[..j])
  }

  /** An action that fails ends the session then and there: what is done up to it is what would have been done, and
      nothing is done behind it. */
  lemma {:induction false} FailureStops(r: Receiver, succeeds: Outcome) returns (k: nat)
    requires r.status.Open?
    ensures var d, s := Drain(r, Always()), Drain(r, succeeds);
      && r.done <= d.done
      && if AllGoWell(d.done, |r.done|, succeeds) then s == d
         else FailsAt(d.done, |r.done|, k, succeeds) && s.done == d.done[..k] && s.status == Failed(ActionFailed)
    decreases |r.pending|
  {
    hide Drain, Decode, HandleFrame, AllGoWell, FailsAt, AllSucceed, Always;
    k := 0;
    DrainTurn(r, succeeds);
    DrainTurn(r, Always());
    AlwaysIs();
    var answer := Decode(r.pending, RX_MAX_PAYLOAD);
    if answer.Decoded? {
      var size := answer.frame.headerLen + |answer.frame.payload|;
      var r' := HandleFrame(r, answer.frame, succeeds).(pending := r.pending[size..]);
      var d' := HandleFrame(r, answer.frame, Always()).(pending := r.pending[size..]);
      HandleBoth(r, answer.frame, succeeds);
      if d'.status.Open? {
        var k' := FailureStops(d', succeeds);
        k := if r' == d' then k' else |r.done| + 1;
        GoesOnFrom(r.done, d'.done, Drain(d', Always()).done, succeeds, k');
      } else {
        NoneFails(d'.done, succeeds);
        GoesOnFrom(r.done, d'.done, d'.done, succeeds, k);
      }
    } else {
      NoneFails(r.done, succeeds);
    }
  }

  lemma AlwaysIs()
    ensures AllSucceed(Always())
  {
  }

  lemma NoneFails(done: seq<Action>, succeeds: Outcome)
    ensures AllGoWell(done, |done|, succeeds)
  {
  }

  // One frame does at most one thing.
  lemma HandleBoth(r: Receiver, frame: ServerFrame, succeeds: Outcome)
    requires r.status.Open?
    ensures var s, d := HandleFrame(r, frame, succeeds), HandleFrame(r, frame, Always());
      && (d.done == r.done || (|d.done| == |r.done| + 1 && r.done < d.done && d.status.Open?))
      && s.done == d.done
      && if d.done == r.done || succeeds(d.done) then s == d else s.status == Failed(ActionFailed)
  {
    hide CString, Joined;
  }

  lemma GoesOnFrom(before: seq<Action>, now: seq<Action>, later: seq<Action>, succeeds: Outcome, k: nat)
    requires now <= later && (now == before || (|now| == |before| + 1 && before < now))
    ensures before <= later && later[..|now|] == now
    ensures AllGoWell(later, |before|, succeeds)
      <==> (now == before || succeeds(now)) && AllGoWell(later, |now|, succeeds)
    ensures FailsAt(later, |now|, k, succeeds) && (now == before || succeeds(now)) ==> FailsAt(later, |before|, k, succeeds)
    ensures now != before && !succeeds(now) ==> FailsAt(later, |before|, |now|, succeeds)
  {
    if AllGoWell(later, |before|, succeeds) && now != before {
      assert succeeds(later[..|now|]);
    }
  }

  lemma SettledOpen(r: Receiver, r': Receiver)
    ensures Settled(r) == Settled(r') && r'.status.Open? ==> r == r'
  {
  }

  lemma NothingReceived(bytes: seq<byte>)
    ensures NewReceiver.pending + bytes == bytes && NewReceiver.status.Open? && !NewReceiver.message.active
    ensures NewReceiver.done == [] && NewReceiver.protocolErrors == 0
    ensures Decode(NewReceiver.pending, RX_MAX_PAYLOAD) == Again && Decode([], RX_MAX_PAYLOAD) == Again
  {
  }

  lemma AllBytesIs(messages: seq<seq<Fragment>>, behind: seq<Aside>)
    requires StreamFits(messages) && AsidesFit(behind)
    ensures AllBytes(messages, behind) == StreamBytes(messages) + AsidesBytes(behind)
    ensures AsidesBytes(behind) + [] == AsidesBytes(behind)
  {
    hide StreamBytes, AsidesBytes;
  }

  lemma {:induction false} TextsOfParts(first: seq<Action>, second: seq<Action>)
    ensures Texts(first + second) == Texts(first) + Texts(second)
    decreases |second|
  {
    if second == [] {
      assert first + second == first;
    } else {
      var front := second[..|second| - 1];
      assert (first + second)[..|first + second| - 1] == first + front;
      TextsOfParts(first, front);
    }
  }

  lemma OneText(action: Action)
    ensures Texts([action]) == (if action.HandText? then [action.text] else []) && Texts([]) == []
  {
    assert [action][..0] == [];
  }

  lemma {:induction false} NoTextsInPongs(asides: seq<Aside>)
    ensures Texts(Pongs(asides)) == []
  {
    if asides != [] {
      NoTextsInPongs(asides[1..]);
      OneText(SendPong(asides[0].payload));
      TextsOfParts(if asides[0].Ping? then [SendPong(asides[0].payload)] else [], Pongs(asides[1..]));
    }
  }

  lemma {:induction false} NoTextsBetween(fragments: seq<Fragment>)
    ensures Texts(PongsBetween(fragments)) == []
  {
    if fragments != [] {
      NoTextsInPongs(fragments[0].before);
      NoTextsBetween(fragments[1..]);
      TextsOfParts(Pongs(fragments[0].before), PongsBetween(fragments[1..]));
    }
  }

  lemma {:induction false} TextsOfHand(texts: seq<seq<byte>>)
    ensures Texts(Hand(texts)) == texts
  {
    if texts != [] {
      TextsOfHand(texts[1..]);
      OneText(HandText(texts[0]));
      TextsOfParts([HandText(texts[0])], Hand(texts[1..]));
    }
  }

  // The texts among all that is done.
  lemma {:induction false} TextsOfStream(messages: seq<seq<Fragment>>)
    ensures Texts(ToDo(messages)) == Deliverable(messages)
  {
    hide Texts, Delivered, Hand;
    if messages == [] {
      OneText(SendPong([]));
    } else {
      var pongs, hand := PongsBetween(messages[0]), Hand(Delivered(messages[0]));
      NoTextsBetween(messages[0]);
      TextsOfHand(Delivered(messages[0]));
      TextsOfParts(pongs, hand);
      TextsOfParts(pongs + hand, ToDo(messages[1..]));
      TextsOfStream(messages[1..]);
    }
  }

  // The same fragments but for what stands between them and the opcodes of those behind the first.
  ghost predicate SamePayloads(messages: seq<seq<Fragment>>, messages': seq<seq<Fragment>>) {
    && |messages| == |messages'|
    && forall m | 0 <= m < |messages| ::
         && |messages[m]| == |messages'[m]|
         && forall i | 0 <= i < |messages[m]| :: messages[m][i].payload == messages'[m][i].payload
  }

  lemma {:induction false} SameText(fragments: seq<Fragment>, fragments': seq<Fragment>)
    requires |fragments| == |fragments'|
    requires forall i | 0 <= i < |fragments| :: fragments[i].payload == fragments'[i].payload
    ensures MessageText(fragments) == MessageText(fragments')
  {
    if fragments != [] {
      SameText(fragments[1..], fragments'[1..]);
    }
  }

  lemma {:induction false} SameDeliverable(messages: seq<seq<Fragment>>, messages': seq<seq<Fragment>>)
    requires SamePayloads(messages, messages')
    ensures Deliverable(messages) == Deliverable(messages')
    decreases |messages|
  {
    hide MessageText;
    if messages != [] {
      SameText(messages[0], messages'[0]);
      SameDeliverable(messages[1..], messages'[1..]);
    }
  }

  /** Reserved opcodes are not refused: a stream that labels its continuations with them, whatever it interleaves and
      however it is cut, delivers the same texts as the proper one. */
  lemma ReservedOpcodeContinues(messages: seq<seq<Fragment>>, messages': seq<seq<Fragment>>,
                                chunks: seq<seq<byte>>, chunks': seq<seq<byte>>, succeeds: Outcome)
    requires StreamFits(messages) && StreamFits(messages') && SamePayloads(messages, messages') && AllSucceed(succeeds)
    requires Flatten(chunks) == AllBytes(messages, []) && Flatten(chunks') == AllBytes(messages', [])
    ensures var r, r' := ReceiveEach(NewReceiver, chunks, succeeds), ReceiveEach(NewReceiver, chunks', succeeds);
      r.status.Open? && r'.status.Open? && Texts(r.done) == Texts(r'.done)
  {
    hide *;
    NoAsides();
    CutStreamDelivers(messages, [], chunks, succeeds);
    CutStreamDelivers(messages', [], chunks', succeeds);
    SameDeliverable(messages, messages');
    TextsOfStream(messages);
    TextsOfStream(messages');
    assert ToDo(messages) + [] == ToDo(messages) && ToDo(messages') + [] == ToDo(messages');
  }

  lemma NoAsides()
    ensures AsidesFit([]) && Pongs([]) == []
  {
  }

  /** A message that a reserved control opcode cuts short is delivered with that frame's payload at its end; what was to
      continue it is counted as errors and lost. */
  lemma ReservedControlEndsMessage(fragments: seq<Fragment>, behind: seq<Aside>, chunks: seq<seq<byte>>,
                                   succeeds: Outcome)
    requires |fragments| > 1 && FragmentsFit(fragments, true) && 0xB <= fragments[|fragments| - 1].opcode
    requires AsidesFit(behind) && (forall i | 0 <= i < |behind| :: behind[i].Stray?) && AllSucceed(succeeds)
    requires StreamFits([fragments]) && Flatten(chunks) == AllBytes([fragments], behind)
    requires WrongBetween(fragments) == 0 && |MessageText(fragments)| < 1280
    ensures var r := ReceiveEach(NewReceiver, chunks, succeeds);
      && r.status.Open? && r.protocolErrors == |behind|
      && r.done == PongsBetween(fragments) + [HandText(CString(MessageText(fragments)))]
  {
    hide ReceiveEach, MessageText, CString, AsidesFit, FragmentsFit, AllBytes, WrongBetween, StreamFits, Pongs, PongsBetween;
    CutStreamDelivers([fragments], behind, chunks, succeeds);
    AllStray(behind);
    assert [fragments][1..] == [];
    assert ToDo([fragments]) == PongsBetween(fragments) + Hand(Delivered(fragments)) + [];
  }

  lemma {:induction false} AllStray(asides: seq<Aside>)
    requires forall i | 0 <= i < |asides| :: asides[i].Stray?
    ensures Wrong(asides) == |asides| && Pongs(asides) == []
  {
    if asides != [] {
      AllStray(asides[1..]);
    }
  }
}
