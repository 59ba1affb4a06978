/** RFC 6455 framing as this client does it: masked client frames out, unmasked server frames in. */
module WsFrame {
  import opened Bytes

  const CONTROL_MAX := 125
  const UINT16_MAX := 0xFFFF
  const UINT63_LIMIT: nat := 0x8000_0000_0000_0000

  const TEXT: byte := 0x1
  const BINARY: byte := 0x2
  const CLOSE: byte := 0x8
  const PING: byte := 0x9
  const PONG: byte := 0xA

  predicate IsControl(opcode: byte) {
    opcode & 0x08 != 0
  }

  // ----- Fields of the first two bytes -----

  predicate IsReserved(first: byte) {
    first & 0x70 != 0
  }

  predicate IsFinal(first: byte) {
    first & 0x80 != 0
  }

  function OpcodeOf(first: byte): byte {
    first & 0x0F
  }

  predicate IsMasked(second: byte) {
    second & 0x80 != 0
  }

  function LengthCode(second: byte): (code: nat)
    ensures code <= 127
  {
    (second & 0x7F) as nat
  }

  // ----- Client frames -----

  function LengthField(n: nat, masked: byte): seq<byte>
    requires n < UINT63_LIMIT
  {
    if n > UINT16_MAX then [masked | 127] + ToBigEndian(n, 8)
    else if n > CONTROL_MAX then [masked | 126] + ToBigEndian(n, 2)
    else [masked | LowByte(n)]
  }

  function Masked(payload: seq<byte>, key: seq<byte>): seq<byte>
    requires |key| == 4
  {
    seq(|payload|, i requires 0 <= i < |payload| => payload[i] ^ key[i % 4])
  }

  /** The bytes of one client frame. */
  function ClientFrame(opcode: byte, payload: seq<byte>, maskKey: nat): seq<byte>
    requires |payload| < UINT63_LIMIT
  {
    var key := ToBigEndian(maskKey, 4);
    [0x80 | (opcode & 0x0F)] + LengthField(|payload|, 0x80) + key + Masked(payload, key)
  }

  datatype EncodeResult = Written(size: nat) | Invalid | NoSpace

  // A buffer with bytes written over it from offset `at` on.
  function Splice(buffer: seq<byte>, at: nat, bytes: seq<byte>): seq<byte>
    requires at + |bytes| <= |buffer|
  {
    buffer[..at] + bytes + buffer[at + |bytes|..]
  }

  lemma SpliceOne(buffer: seq<byte>, at: nat, bytes: seq<byte>, i: nat)
    requires i < |bytes| && at + |bytes| <= |buffer|
    ensures |Splice(buffer, at, bytes[..i])| == |buffer|
    ensures Splice(buffer, at, bytes[..i])[at + i := bytes[i]] == Splice(buffer, at, bytes[..i + 1])
  {
  }

  lemma SpliceEnds(buffer: seq<byte>, at: nat, bytes: seq<byte>)
    requires at + |bytes| <= |buffer|
    ensures Splice(buffer, at, bytes[..0]) == buffer && bytes[..|bytes|] == bytes
  {
  }

  // The buffer with its first bytes replaced.
  function Over(bytes: seq<byte>, buffer: seq<byte>): seq<byte>
    requires |bytes| <= |buffer|
  {
    bytes + buffer[|bytes|..]
  }

  lemma SpliceAfter(bytes: seq<byte>, more: seq<byte>, buffer: seq<byte>)
    requires |bytes| + |more| <= |buffer|
    ensures |Over(bytes, buffer)| == |buffer|
    ensures Splice(Over(bytes, buffer), |bytes|, more) == Over(bytes + more, buffer)
  {
  }

  // Stores bytes from offset `at` on.
  method Store(out: array<byte>, at: nat, bytes: seq<byte>)
    requires at + |bytes| <= out.Length
    modifies out
    ensures out[..] == Splice(old(out[..]), at, bytes)
  {
    hide Splice;
    SpliceEnds(out[..], at, bytes);
    for i := 0 to |bytes|
      invariant out[..] == Splice(old(out[..]), at, bytes[..i])
    {
      SpliceOne(old(out[..]), at, bytes, i);
      out[at + i] := bytes[i];
    }
  }

  // Byte 1 and up to eight more: the length in its shortest form.
  method WriteLength(out: array<byte>, n: nat)
    requires n < UINT63_LIMIT && out.Length >= 1 + |LengthField(n, 0x80)|
    modifies out
    ensures out[..] == Splice(old(out[..]), 1, LengthField(n, 0x80))
  {
    if n > UINT16_MAX {
      out[1] := 0x80 | 127;
      WriteBigEndian(out, n);
    } else if n > CONTROL_MAX {
      BigEndianByte(n, 2, 0);
      BigEndianByte(n, 2, 1);
      Store(out, 1, [0x80 | 126, ShiftedByte(n, 1), ShiftedByte(n, 0)]);
    } else {
      out[1] := 0x80 | LowByte(n);
    }
  }

  method WriteBigEndian(out: array<byte>, n: nat)
    requires out.Length >= 10
    modifies out
    ensures out[..] == Splice(old(out[..]), 2, ToBigEndian(n, 8))
  {
    hide ShiftedByte, ToBigEndian, Splice;
    SpliceEnds(out[..], 2, ToBigEndian(n, 8));
    for i := 0 to 8
      invariant out[..] == Splice(old(out[..]), 2, ToBigEndian(n, 8)[..i])
    {
      BigEndianByte(n, 8, i);
      SpliceOne(old(out[..]), 2, ToBigEndian(n, 8), i);
      out[2 + i] := ShiftedByte(n, 7 - i);
    }
  }

  lemma MaskedAt(payload: seq<byte>, key: seq<byte>, i: nat)
    requires |key| == 4 && i < |payload|
    ensures |Masked(payload, key)| == |payload| && Masked(payload, key)[i] == payload[i] ^ key[i % 4]
  {
  }

  method WriteMasked(out: array<byte>, at: nat, payload: seq<byte>, mask: seq<byte>)
    requires at + |payload| <= out.Length && |mask| == 4
    modifies out
    ensures |Masked(payload, mask)| == |payload| && out[..] == Splice(old(out[..]), at, Masked(payload, mask))
  {
    hide Masked, Splice;
    MaskedLength(payload, mask);
    SpliceEnds(out[..], at, Masked(payload, mask));
    for i := 0 to |payload|
      invariant out[..] == Splice(old(out[..]), at, Masked(payload, mask)[..i])
    {
      MaskedAt(payload, mask, i);
      SpliceOne(old(out[..]), at, Masked(payload, mask), i);
      out[at + i] := payload[i] ^ mask[i % 4];
    }
  }

  /** Writes one client frame into the caller's buffer. */
  method EncodeFrame(out: array<byte>, opcode: byte, payload: seq<byte>, maskKey: nat) returns (r: EncodeResult)
    requires |payload| < UINT63_LIMIT
    modifies out
    ensures r.Invalid? <==> IsControl(opcode) && |payload| > CONTROL_MAX
    ensures r.NoSpace? <==> !r.Invalid? && out.Length < |ClientFrame(opcode, payload, maskKey)|
    ensures r.Written? ==> r.size == |ClientFrame(opcode, payload, maskKey)|
    ensures r.Written? ==> out[..] == Over(ClientFrame(opcode, payload, maskKey), old(out[..]))
    ensures !r.Written? ==> out[..] == old(out[..])
  {
    hide ToBigEndian, Masked, LengthField;
    if IsControl(opcode) && |payload| > CONTROL_MAX {
      return Invalid;
    }
    var header := 2;
    if |payload| > UINT16_MAX {
      header := header + 8;
    } else if |payload| > CONTROL_MAX {
      header := header + 2;
    }
    header := header + 4;
    var total := header + |payload|;
    var mask := ToBigEndian(maskKey, 4);
    LengthFieldSize(|payload|);
    MaskedLength(payload, mask);
    if out.Length < total {
      return NoSpace;
    }
    ghost var was := out[..];
    out[0] := 0x80 | (opcode & 0x0F);
    ghost var first, field := [out[0]], LengthField(|payload|, 0x80);
    assert out[..] == Over(first, was);
    hide Over, Splice;
    WriteLength(out, |payload|);
    SpliceAfter(first, field, was);
    Store(out, header - 4, mask);
    SpliceAfter(first + field, mask, was);
    WriteMasked(out, header, payload, mask);
    SpliceAfter(first + field + mask, Masked(payload, mask), was);
    r := Written(total);
  }

  lemma LengthFieldSize(n: nat)
    requires n < UINT63_LIMIT
    ensures |LengthField(n, 0x80)| == if n > UINT16_MAX then 9 else if n > CONTROL_MAX then 3 else 1
  {
  }

  lemma MaskedLength(payload: seq<byte>, key: seq<byte>)
    requires |key| == 4
    ensures |Masked(payload, key)| == |payload|
  {
  }

  // ----- The receiver's reading of client frames, sections 5.2 and 5.3 of RFC 6455 -----

  // `Short`: the frame is not there yet as a whole.
  datatype Read = Frame(fin: bool, opcode: byte, key: seq<byte>, payload: seq<byte>, size: nat) | Malformed | Short

  // Length code 0..125, or 126 / 127 with two / eight more bytes; the shortest form is required.
  function HeaderSize(second: byte): nat {
    if LengthCode(second) == 127 then 10 else if LengthCode(second) == 126 then 4 else 2
  }

  function ReadLength(bytes: seq<byte>): nat
    requires |bytes| >= 2 && |bytes| >= HeaderSize(bytes[1])
  {
    var header := HeaderSize(bytes[1]);
    if header == 2 then LengthCode(bytes[1]) else BigEndian(bytes[2..header])
  }

  predicate Shortest(length: nat, header: nat) {
    if length > UINT16_MAX then header == 10 else if length > CONTROL_MAX then header == 4 else header == 2
  }

  /** Reads the masked frame at the start of the bytes. */
  function ReadClientFrame(bytes: seq<byte>): Read {
    if |bytes| < 2 then Short
    else if IsReserved(bytes[0]) || !IsMasked(bytes[1]) then Malformed
    else
      var header := HeaderSize(bytes[1]);
      if |bytes| < header then Short
      else
        var length := ReadLength(bytes);
        if !Shortest(length, header) || length >= UINT63_LIMIT then Malformed
        else if |bytes| < header + 4 + length then Short
        else
          var key := bytes[header..header + 4];
          Frame(IsFinal(bytes[0]), OpcodeOf(bytes[0]), key, Masked(bytes[header + 4..header + 4 + length], key),
                header + 4 + length)
  }

  /** Masking is its own inverse. */
  lemma MaskTwice(payload: seq<byte>, key: seq<byte>)
    requires |key| == 4
    ensures Masked(Masked(payload, key), key) == payload
  {
    forall i | 0 <= i < |payload| ensures Masked(Masked(payload, key), key)[i] == payload[i] {
      XorTwice(payload[i], key[i % 4]);
    }
  }

  lemma XorTwice(b: byte, k: byte)
    ensures (b ^ k) ^ k == b
  {
  }

  lemma FirstByte(opcode: byte)
    ensures var b := 0x80 | (opcode & 0x0F); !IsReserved(b) && IsFinal(b) && OpcodeOf(b) == opcode & 0x0F
  {
  }

  lemma ShortLengthCode(n: nat, masked: byte)
    requires n <= CONTROL_MAX && (masked == 0x80 || masked == 0)
    ensures var b := masked | LowByte(n); LengthCode(b) == n && IsMasked(b) == (masked != 0)
  {
    hide LengthCode, IsMasked, LowByte;
    var m := LowByte(n);
    assert m as nat == n;
    ShortCodeBits(m, masked);
  }

  lemma ShortCodeBits(m: byte, masked: byte)
    requires m as nat <= CONTROL_MAX && (masked == 0x80 || masked == 0)
    ensures LengthCode(masked | m) == m as nat && IsMasked(masked | m) == (masked != 0)
  {
    assert m <= 125;
    assert (masked | m) & 0x7F == m;
  }

  lemma LongLengthCodes(masked: byte)
    requires masked == 0x80 || masked == 0
    ensures LengthCode(masked | 127) == 127 && LengthCode(masked | 126) == 126
    ensures IsMasked(masked | 127) == IsMasked(masked | 126) == (masked != 0)
  {
  }

  // Whatever follows, the length field reads back as the length, in its shortest form.
  lemma ReadLengthField(first: byte, n: nat, masked: byte, rest: seq<byte>)
    requires n < UINT63_LIMIT && (masked == 0x80 || masked == 0)
    ensures var bytes, header := [first] + LengthField(n, masked) + rest, 1 + |LengthField(n, masked)|;
      && |bytes| >= header >= 2 && HeaderSize(bytes[1]) == header && ReadLength(bytes) == n
      && Shortest(n, header) && IsMasked(bytes[1]) == (masked != 0) && bytes[0] == first
  {
    hide ToBigEndian, BigEndian, LengthCode, IsMasked;
    var bytes := [first] + LengthField(n, masked) + rest;
    LongLengthCodes(masked);
    PowersOf256();
    if n > UINT16_MAX {
      assert bytes[2..10] == ToBigEndian(n, 8);
      BigEndianRoundTrip(n, 8);
    } else if n > CONTROL_MAX {
      assert bytes[2..4] == ToBigEndian(n, 2);
      BigEndianRoundTrip(n, 2);
    } else {
      ShortLengthCode(n, masked);
    }
  }

  lemma PowersOf256()
    ensures Power256(2) == UINT16_MAX + 1 && Power256(8) == 2 * UINT63_LIMIT
  {
    assert Power256(4) == 0x1_0000_0000;
    assert Power256(6) == 0x1_0000 * Power256(4);
    assert Power256(8) == 0x1_0000 * Power256(6);
  }

  /** Reading an encoded client frame recovers opcode and payload for every key, whatever bytes follow, if any. */
  lemma ClientFrameReadsBack(opcode: byte, payload: seq<byte>, maskKey: nat, rest: seq<byte>)
    requires |payload| < UINT63_LIMIT
    ensures var frame := ClientFrame(opcode, payload, maskKey);
      && ReadClientFrame(frame + rest) == Frame(true, opcode & 0x0F, ToBigEndian(maskKey, 4), payload, |frame|)
      && (maskKey < 0x1_0000_0000 ==> BigEndian(ToBigEndian(maskKey, 4)) == maskKey)
  {
    hide ToBigEndian, BigEndian, Masked, LengthField, ReadLength, HeaderSize, IsReserved, IsFinal, OpcodeOf, IsMasked;
    var key := ToBigEndian(maskKey, 4);
    var field, masked := LengthField(|payload|, 0x80), Masked(payload, key);
    MaskedLength(payload, key);
    var first := 0x80 | (opcode & 0x0F);
    var bytes := ClientFrame(opcode, payload, maskKey) + rest;
    assert bytes == [first] + field + (key + masked + rest);
    ReadLengthField(first, |payload|, 0x80, key + masked + rest);
    FirstByte(opcode);
    PowersOf256();
    if maskKey < 0x1_0000_0000 {
      BigEndianRoundTrip(maskKey, 4);
    }
    var header := 1 + |field|;
    assert bytes[header..header + 4] == key;
    assert bytes[header + 4..header + 4 + |payload|] == masked;
    MaskTwice(payload, key);
  }

  // The reader looks at nothing behind the frame, and misses nothing it needs in front of its end.
  lemma ReadOfPrefix(bytes: seq<byte>, k: nat)
    requires k <= |bytes| && ReadClientFrame(bytes).Frame?
    ensures k < ReadClientFrame(bytes).size ==> ReadClientFrame(bytes[..k]) == Short
  {
    hide BigEndian, Masked, IsReserved, IsFinal, OpcodeOf, IsMasked, LengthCode;
    if 2 <= k {
      var header := HeaderSize(bytes[1]);
      if header <= k {
        assert bytes[..k][2..header] == bytes[2..header];
      }
    }
  }

  /** A frame cut short anywhere is neither read nor refused. */
  lemma CutClientFrameIsShort(opcode: byte, payload: seq<byte>, maskKey: nat, k: nat)
    requires |payload| < UINT63_LIMIT && k < |ClientFrame(opcode, payload, maskKey)|
    ensures ReadClientFrame(ClientFrame(opcode, payload, maskKey)[..k]) == Short
  {
    hide ClientFrame, ReadClientFrame;
    var frame := ClientFrame(opcode, payload, maskKey);
    ClientFrameReadsBack(opcode, payload, maskKey, []);
    assert frame + [] == frame;
    ReadOfPrefix(frame, k);
  }

  // ----- Server frames -----

  datatype ServerFrame = ServerFrame(opcode: byte, fin: bool, payload: seq<byte>, headerLen: nat)

  datatype DecodeResult = Again | TooBig | Protocol | Decoded(frame: ServerFrame)

  // The checks after the header: control frames, the size limit, then the payload.
  function DecodeBody(data: seq<byte>, maxPayload: nat, header: nat, length: nat): DecodeResult
    requires 2 <= header <= |data|
  {
    var opcode, fin := OpcodeOf(data[0]), IsFinal(data[0]);
    if IsControl(opcode) && (length > CONTROL_MAX || !fin) then Protocol
    else if length > maxPayload then TooBig
    else if |data| - header < length then Again
    else Decoded(ServerFrame(opcode, fin, data[header..header + length], header))
  }

  function Decode(data: seq<byte>, maxPayload: nat): DecodeResult {
    if |data| < 2 then Again
    else if IsReserved(data[0]) || IsMasked(data[1]) then Protocol
    else
      var field := LengthCode(data[1]);
      if field == 126 then
        if |data| < 4 then Again else DecodeBody(data, maxPayload, 4, BigEndian(data[2..4]))
      else if field == 127 then
        if |data| < 10 then Again
        else if BigEndian(data[2..10]) >= UINT63_LIMIT then Protocol
        else DecodeBody(data, maxPayload, 10, BigEndian(data[2..10]))
      else DecodeBody(data, maxPayload, 2, field)
  }

  lemma SliceOfPrefix<T>(s: seq<T>, size: nat, from: nat, to: nat)
    requires from <= to <= size <= |s|
    ensures s[..size][from..to] == s[from..to]
  {
  }

  lemma TwoByteLength(data: seq<byte>)
    requires |data| >= 4
    ensures BigEndian(data[2..4]) == data[2] as nat * 256 + data[3] as nat
  {
    var high, low := data[2], data[3];
    assert data[2..4] == [high, low];
    assert [high, low][..1] == [high];
    assert BigEndian([high]) == BigEndian([high][..0]) * 256 + high as nat;
  }

  method ReadEightBytes(data: array<byte>) returns (length: nat)
    requires data.Length >= 10
    ensures length == BigEndian(data[2..10])
  {
    length := 0;
    for i := 0 to 8
      invariant length == BigEndian(data[2..2 + i])
    {
      assert data[2..3 + i][..i] == data[2..2 + i];
      length := length * 256 + data[2 + i] as nat;
    }
  }

  method DecodePayload(data: array<byte>, size: nat, maxPayload: nat, header: nat, length: nat) returns (r: DecodeResult)
    requires 2 <= header <= size <= data.Length
    ensures r == DecodeBody(data[..size], maxPayload, header, length)
  {
    hide IsFinal, OpcodeOf, IsControl;
    var opcode, fin := OpcodeOf(data[0]), IsFinal(data[0]);
    if IsControl(opcode) && (length > CONTROL_MAX || !fin) {
      return Protocol;
    }
    if length > maxPayload {
      return TooBig;
    }
    if size - header < length {
      return Again;
    }
    SliceOfPrefix(data[..], size, header, header + length);
    r := Decoded(ServerFrame(opcode, fin, data[header..header + length], header));
  }

  /** Decodes the frame at the start of the receive buffer. */
  method DecodeFrame(data: array<byte>, size: nat, maxPayload: nat) returns (r: DecodeResult)
    requires size <= data.Length
    ensures r == Decode(data[..size], maxPayload)
  {
    hide BigEndian, IsReserved, IsMasked, LengthCode, DecodeBody;
    var header := 2;
    if size < header {
      return Again;
    }
    if IsReserved(data[0]) {
      return Protocol;
    }
    if IsMasked(data[1]) {
      return Protocol;
    }
    var field := LengthCode(data[1]);
    var length := field;
    if field == 126 {
      header := header + 2;
      if size < header {
        return Again;
      }
      length := data[2] as nat * 256 + data[3] as nat;
      TwoByteLength(data[..size]);
    } else if field == 127 {
      header := header + 8;
      if size < header {
        return Again;
      }
      length := ReadEightBytes(data);
      SliceOfPrefix(data[..], size, 2, 10);
      if length >= UINT63_LIMIT {
        return Protocol;
      }
    }
    r := DecodePayload(data, size, maxPayload, header, length);
  }

  lemma DecodedFits(data: seq<byte>, maxPayload: nat)
    requires Decode(data, maxPayload).Decoded?
    ensures var f := Decode(data, maxPayload).frame;
      && 2 <= f.headerLen && f.headerLen + |f.payload| <= |data| && |f.payload| <= maxPayload
      && f.payload == data[f.headerLen..f.headerLen + |f.payload|]
  {
    hide BigEndian, IsReserved, IsMasked, IsFinal, OpcodeOf, LengthCode, IsControl;
  }

  /** Once the decoder stops asking for more bytes, more bytes never change its answer. */
  lemma DecodeIsPrefixStable(data: seq<byte>, more: seq<byte>, maxPayload: nat)
    requires !Decode(data, maxPayload).Again?
    ensures Decode(data + more, maxPayload) == Decode(data, maxPayload)
  {
    hide BigEndian, IsReserved, IsMasked, IsFinal, OpcodeOf, LengthCode, IsControl;
    var all := data + more;
    LengthBytesOfPrefix(data, more);
    var r := Decode(data, maxPayload);
    if r.Decoded? {
      var f := r.frame;
      assert all[..|data|] == data;
      SliceOfPrefix(all, |data|, f.headerLen, f.headerLen + |f.payload|);
    }
  }

  /** An incomplete frame is shorter than the longest header plus the largest payload. */
  lemma IncompleteIsShort(data: seq<byte>, maxPayload: nat)
    requires Decode(data, maxPayload).Again?
    ensures |data| < 10 + maxPayload
  {
    hide BigEndian, IsReserved, IsMasked, IsFinal, OpcodeOf, LengthCode, IsControl;
  }

  // What a server sends for one frame, in the shortest form.
  function ServerBytes(opcode: byte, fin: bool, payload: seq<byte>): seq<byte>
    requires |payload| < UINT63_LIMIT
  {
    [(if fin then 0x80 else 0) | (opcode & 0x0F)] + LengthField(|payload|, 0) + payload
  }

  lemma FirstServerByte(opcode: byte, fin: bool)
    requires opcode <= 0x0F
    ensures var b := (if fin then 0x80 else 0) | (opcode & 0x0F);
      !IsReserved(b) && IsFinal(b) == fin && OpcodeOf(b) == opcode
  {
  }

  /** A well-formed server frame decodes to itself, whatever bytes follow. */
  lemma ServerFrameDecodes(opcode: byte, fin: bool, payload: seq<byte>, rest: seq<byte>, maxPayload: nat)
    requires |payload| < UINT63_LIMIT && |payload| <= maxPayload && opcode <= 0x0F
    requires IsControl(opcode) ==> fin && |payload| <= CONTROL_MAX
    ensures var bytes := ServerBytes(opcode, fin, payload);
      Decode(bytes + rest, maxPayload)
        == Decoded(ServerFrame(opcode, fin, payload, |bytes| - |payload|))
  {
    hide ToBigEndian, BigEndian, LengthField, IsReserved, IsMasked, IsFinal, OpcodeOf, IsControl, ReadLength, HeaderSize, Decode;
    var field := LengthField(|payload|, 0);
    var first := (if fin then 0x80 else 0) | (opcode & 0x0F);
    FirstServerByte(opcode, fin);
    var data := ServerBytes(opcode, fin, payload) + rest;
    assert data == [first] + field + (payload + rest);
    ReadLengthField(first, |payload|, 0, payload + rest);
    var header := 1 + |field|;
    assert data[header..header + |payload|] == payload;
    DecodeByLength(data, maxPayload);
  }

  // ----- What the decoder refuses -----

  datatype Header = Partly | Whole(size: nat, length: nat)

  /** The header of section 5.2 of RFC 6455, once it is there: its size, and the length it declares. */
  function HeaderOf(data: seq<byte>): Header {
    if |data| < 2 then Partly
    else
      var code := data[1] & 0x7F;
      if code == 0x7E then
        if |data| < 4 then Partly else Whole(4, data[2] as nat * 0x100 + data[3] as nat)
      else if code == 0x7F then
        if |data| < 10 then Partly else Whole(10, BigEndian(data[2..10]))
      else Whole(2, code as nat)
  }

  lemma FirstByteBits(b: byte)
    ensures IsReserved(b) == (b & 0x70 != 0) && IsControl(OpcodeOf(b)) == (b & 0x08 != 0) && IsFinal(b) == (b & 0x80 != 0)
    ensures OpcodeOf(b) == b & 0x0F
  {
  }

  lemma SecondByteBits(b: byte)
    ensures IsMasked(b) == (b & 0x80 != 0) && LengthCode(b) == (b & 0x7F) as nat
    ensures (LengthCode(b) == 126 <==> b & 0x7F == 0x7E) && (LengthCode(b) == 127 <==> b & 0x7F == 0x7F)
  {
  }

  lemma DecodeByHeader(data: seq<byte>, maxPayload: nat)
    requires |data| >= 2 && !IsReserved(data[0]) && !IsMasked(data[1])
    ensures match HeaderOf(data)
      case Partly => Decode(data, maxPayload) == Again
      case Whole(size, length) =>
        && 2 <= size <= |data|
        && Decode(data, maxPayload) == (if size == 10 && length >= 0x8000_0000_0000_0000 then Protocol
                                        else DecodeBody(data, maxPayload, size, length))
  {
    hide BigEndian, IsReserved, IsMasked, DecodeBody, LengthCode;
    SecondByteBits(data[1]);
    if |data| >= 4 {
      TwoByteLength(data);
    }
  }

  /** A frame is refused for its first two bytes at once; behind a whole header, for a length of 2^63 or more, and as a
      control frame that is long or not final. It is too big if it is not refused and declares more than is accepted. */
  lemma DecoderRefusesIff(data: seq<byte>, maxPayload: nat)
    ensures var answer, h := Decode(data, maxPayload), HeaderOf(data);
      var bits := |data| >= 2 && (data[0] & 0x70 != 0 || data[1] & 0x80 != 0);
      var control := h.Whole? && data[0] & 0x08 != 0 && (h.length > 125 || data[0] & 0x80 == 0);
      var long := h.Whole? && h.size == 10 && h.length >= 0x8000_0000_0000_0000;
      && (answer.Protocol? <==> bits || control || long)
      && (answer.TooBig? <==> !answer.Protocol? && h.Whole? && h.length > maxPayload)
      && (answer.Again? <==> !answer.Protocol? && !answer.TooBig? && (h.Partly? || |data| < h.size + h.length))
  {
    hide BigEndian, IsReserved, IsMasked, IsFinal, IsControl, OpcodeOf, LengthCode;
    if |data| >= 2 {
      FirstByteBits(data[0]);
      SecondByteBits(data[1]);
      if !IsReserved(data[0]) && !IsMasked(data[1]) {
        DecodeByHeader(data, maxPayload);
      }
    }
  }

  /** Otherwise the frame has the parts its bytes say. */
  lemma DecodedParts(data: seq<byte>, maxPayload: nat)
    requires Decode(data, maxPayload).Decoded?
    ensures var f, h := Decode(data, maxPayload).frame, HeaderOf(data);
      && h.Whole? && h.size + h.length <= |data| && f.headerLen == h.size
      && f.opcode == data[0] & 0x0F && f.fin == (data[0] & 0x80 != 0)
      && f.payload == data[h.size..h.size + h.length]
  {
    hide BigEndian, IsReserved, IsMasked, IsFinal, IsControl, OpcodeOf, LengthCode;
    FirstByteBits(data[0]);
    DecodeByHeader(data, maxPayload);
  }

  // Bytes that follow do not change the length bytes.
  lemma LengthBytesOfPrefix(data: seq<byte>, more: seq<byte>)
    ensures |data| >= 4 ==> (data + more)[2..4] == data[2..4]
    ensures |data| >= 10 ==> (data + more)[2..10] == data[2..10]
  {
  }

  // The decoder reads the length as the specification does.
  lemma DecodeByLength(data: seq<byte>, maxPayload: nat)
    requires |data| >= 2 && !IsReserved(data[0]) && !IsMasked(data[1]) && HeaderSize(data[1]) <= |data|
    requires ReadLength(data) < UINT63_LIMIT
    ensures Decode(data, maxPayload) == DecodeBody(data, maxPayload, HeaderSize(data[1]), ReadLength(data))
  {
    hide BigEndian, IsReserved, IsMasked, LengthCode, DecodeBody;
  }
}
