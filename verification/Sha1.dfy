/** The in-house streaming SHA-1 against FIPS 180-4. */
module Sha1 {
  import opened Bytes

  type word = bv32

  const BLOCK := 64
  const LENGTH_LIMIT: nat := 0x1_0000_0000_0000_0000

  // ----- FIPS 180-4: functions, constants and the compression of one block (sections 4.1.1, 4.2.1, 6.1.2) -----

  datatype Hash = Hash(a: word, b: word, c: word, d: word, e: word)

  const INITIAL := Hash(0x67452301, 0xEFCDAB89, 0x98BADCFE, 0x10325476, 0xC3D2E1F0)

  function Rotl(x: word, n: bv32): word
    requires 0 < n < 32
  {
    (x << n) | (x >> (32 - n))
  }

  function Ch(x: word, y: word, z: word): word {
    (x & y) ^ (!x & z)
  }

  function Parity(x: word, y: word, z: word): word {
    x ^ y ^ z
  }

  function Maj(x: word, y: word, z: word): word {
    (x & y) ^ (x & z) ^ (y & z)
  }

  function F(t: nat, x: word, y: word, z: word): word {
    if t < 20 then Ch(x, y, z) else if t < 40 then Parity(x, y, z) else if t < 60 then Maj(x, y, z) else Parity(x, y, z)
  }

  function K(t: nat): word {
    if t < 20 then 0x5A827999 else if t < 40 then 0x6ED9EBA1 else if t < 60 then 0x8F1BBCDC else 0xCA62C1D6
  }

  // Four bytes, most significant first.
  function WordAt(block: seq<byte>, i: nat): word
    requires i * 4 + 4 <= |block|
  {
    (block[i * 4] as bv32 << 24) | (block[i * 4 + 1] as bv32 << 16)
    | (block[i * 4 + 2] as bv32 << 8) | (block[i * 4 + 3] as bv32)
  }

  function Expand(w3: word, w8: word, w14: word, w16: word): word {
    Rotl(w3 ^ w8 ^ w14 ^ w16, 1)
  }

  // The message schedule.
  ghost function Schedule(block: seq<byte>, t: nat): word
    requires |block| == BLOCK
  {
    if t < 16 then WordAt(block, t)
    else
      Expand(Schedule(block, t - 3), Schedule(block, t - 8), Schedule(block, t - 14), Schedule(block, t - 16))
  }

  function FiveTerms(a5: word, f: word, e: word, k: word, w: word): word {
    a5 + f + e + k + w
  }

  function Temp(a: word, f: word, e: word, k: word, w: word): word {
    FiveTerms(Rotl(a, 5), f, e, k, w)
  }

  function Round(h: Hash, t: nat, w: word): Hash {
    Hash(Temp(h.a, F(t, h.b, h.c, h.d), h.e, K(t), w), h.a, Rotl(h.b, 30), h.c, h.d)
  }

  ghost function Rounds(h: Hash, block: seq<byte>, t: nat): Hash
    requires |block| == BLOCK
  {
    if t == 0 then h else Round(Rounds(h, block, t - 1), t - 1, Schedule(block, t - 1))
  }

  function Plus(x: word, y: word): word {
    x + y
  }

  function Sum(h: Hash, g: Hash): Hash {
    Hash(Plus(h.a, g.a), Plus(h.b, g.b), Plus(h.c, g.c), Plus(h.d, g.d), Plus(h.e, g.e))
  }

  ghost function Compressed(h: Hash, block: seq<byte>): Hash
    requires |block| == BLOCK
  {
    Sum(h, Rounds(h, block, 80))
  }

  // ----- Padding and the hash of a whole message (sections 5.1.1 and 6.1.2) -----

  function ZeroBytes(length: nat): (n: nat)
    ensures n < BLOCK && (length + 1 + n) % BLOCK == 56
  {
    (119 - length % BLOCK) % BLOCK
  }

  function Zeros(n: nat): (r: seq<byte>)
    ensures |r| == n
  {
    seq(n, _ => 0)
  }

  /** The message, a one bit, the fewest zeros that leave eight bytes in a block, and the length in bits. */
  function Padded(message: seq<byte>): seq<byte> {
    message + [0x80] + Zeros(ZeroBytes(|message|)) + ToBigEndian(|message| * 8 % LENGTH_LIMIT, 8)
  }

  ghost function HashBlocks(blocks: seq<byte>): Hash
    requires |blocks| % BLOCK == 0
  {
    if blocks == [] then INITIAL
    else Compressed(HashBlocks(blocks[..|blocks| - BLOCK]), blocks[|blocks| - BLOCK..])
  }

  lemma NothingHashed()
    ensures HashBlocks([]) == INITIAL
  {
  }

  function WordByte(w: word, i: nat): byte
    requires i < 4
  {
    ((w >> (24 - i * 8)) & 0xFF) as bv8
  }

  function Part(h: Hash, i: nat): word
    requires i < 5
  {
    if i == 0 then h.a else if i == 1 then h.b else if i == 2 then h.c else if i == 3 then h.d else h.e
  }

  function Digest(h: Hash): seq<byte> {
    seq(20, i requires 0 <= i < 20 => WordByte(Part(h, i / 4), i % 4))
  }

  ghost function HashOf(message: seq<byte>): seq<byte> {
    PaddedIsBlocks(message);
    Digest(HashBlocks(Padded(message)))
  }

  lemma PaddedIsBlocks(message: seq<byte>)
    ensures |Padded(message)| % BLOCK == 0
  {
    hide Padded, ZeroBytes;
    PaddedLength(message);
    EightMore(|message| + 1 + ZeroBytes(|message|));
  }

  lemma PaddedLength(message: seq<byte>)
    ensures |Padded(message)| == |message| + 1 + ZeroBytes(|message|) + 8
  {
    hide ToBigEndian, ZeroBytes, Zeros;
  }

  lemma EightMore(n: nat)
    requires n % BLOCK == 56
    ensures (n + 8) % BLOCK == 0
  {
  }

  lemma FewestZeros(length: nat, k: nat)
    requires (length + 1 + k) % BLOCK == 56
    ensures k >= ZeroBytes(length)
  {
  }

  // ----- The code -----

  // The expanded words of one block.
  method ExpandBlock(block: array<byte>) returns (w: array<word>)
    requires block.Length == BLOCK
    ensures fresh(w) && w.Length == 80
    ensures forall t | 0 <= t < 80 :: w[t] == Schedule(block[..], t)
  {
    hide Expand, CodeExpand, WordAt;
    w := new word[80](_ => 0);
    ghost var bytes := block[..];
    for i := 0 to 16
      invariant forall t | 0 <= t < i :: w[t] == Schedule(bytes, t)
    {
      w[i] := WordAt(block[..], i);
    }
    for i := 16 to 80
      invariant forall t | 0 <= t < i :: w[t] == Schedule(bytes, t)
    {
      SumFormulas(w[i - 3], w[i - 8], w[i - 14], w[i - 16], 0);
      w[i] := CodeExpand(w[i - 3], w[i - 8], w[i - 14], w[i - 16]);
    }
  }

  // The bit formulas as the code writes them.
  function CodeCh(b: word, c: word, d: word): word {
    (b & c) | (!b & d)
  }

  function CodeMaj(b: word, c: word, d: word): word {
    (b & c) | (b & d) | (c & d)
  }

  function CodeRotl1(x: word): word {
    (x << 1) | (x >> 31)
  }

  function CodeRotl5(x: word): word {
    (x << 5) | (x >> 27)
  }

  function CodeExpand(w3: word, w8: word, w14: word, w16: word): word {
    CodeRotl1(w3 ^ w8 ^ w14 ^ w16)
  }

  function CodeTemp(a: word, f: word, e: word, k: word, w: word): word {
    FiveTerms(CodeRotl5(a), f, e, k, w)
  }

  lemma RotlFormulas(x: word)
    ensures CodeRotl1(x) == Rotl(x, 1) && CodeRotl5(x) == Rotl(x, 5)
  {
  }

  lemma SumFormulas(a: word, b: word, c: word, d: word, e: word)
    ensures CodeExpand(a, b, c, d) == Expand(a, b, c, d) && CodeTemp(a, b, c, d, e) == Temp(a, b, c, d, e)
  {
    hide Rotl, CodeRotl1, CodeRotl5, FiveTerms;
    RotlFormulas(a);
    RotlFormulas(a ^ b ^ c ^ d);
  }

  lemma ChFormula(b: word, c: word, d: word)
    ensures (b & c) | (!b & d) == (b & c) ^ (!b & d)
  {
  }

  lemma MajFormula(b: word, c: word, d: word)
    ensures (b & c) | (b & d) | (c & d) == (b & c) ^ (b & d) ^ (c & d)
  {
  }

  lemma CodeFormulas(b: word, c: word, d: word)
    ensures CodeCh(b, c, d) == Ch(b, c, d) && CodeMaj(b, c, d) == Maj(b, c, d)
  {
    ChFormula(b, c, d);
    MajFormula(b, c, d);
  }

  method RoundFunction(i: nat, b: word, c: word, d: word) returns (f: word, k: word)
    ensures f == F(i, b, c, d) && k == K(i)
  {
    hide Ch, Maj, CodeCh, CodeMaj, Parity;
    CodeFormulas(b, c, d);
    if i < 20 {
      f, k := CodeCh(b, c, d), 0x5A827999;
    } else if i < 40 {
      f, k := Parity(b, c, d), 0x6ED9EBA1;
    } else if i < 60 {
      f, k := CodeMaj(b, c, d), 0x8F1BBCDC;
    } else {
      f, k := Parity(b, c, d), 0xCA62C1D6;
    }
  }

  method EightyRounds(ghost block: seq<byte>, w: array<word>, a0: word, b0: word, c0: word, d0: word, e0: word)
    returns (a: word, b: word, c: word, d: word, e: word)
    requires |block| == BLOCK && w.Length == 80 && forall t | 0 <= t < 80 :: w[t] == Schedule(block, t)
    ensures Hash(a, b, c, d, e) == Rounds(Hash(a0, b0, c0, d0, e0), block, 80)
  {
    hide Rotl, F, K, Schedule, Temp, CodeTemp, Expand, CodeExpand, FiveTerms;
    a, b, c, d, e := a0, b0, c0, d0, e0;
    for i := 0 to 80
      invariant Hash(a, b, c, d, e) == Rounds(Hash(a0, b0, c0, d0, e0), block, i)
    {
      var f, k := RoundFunction(i, b, c, d);
      SumFormulas(a, f, e, k, w[i]);
      var temp := CodeTemp(a, f, e, k, w[i]);
      e, d, c, b, a := d, c, Rotl(b, 30), a, temp;
    }
  }

  /** The hashing context; `fed` is everything absorbed so far. */
  class Context {
    const state: array<word>
    const block: array<byte>
    var bitCount: nat
    var blockUsed: nat
    ghost var fed: seq<byte>

    ghost function State(): Hash
      requires state.Length == 5
      reads state
    {
      Hash(state[0], state[1], state[2], state[3], state[4])
    }

    // Whole blocks of the message are in the state, the rest is in the block buffer.
    ghost predicate Absorbed(message: seq<byte>)
      reads this`blockUsed, state, block
    {
      && state.Length == 5 && block.Length == BLOCK && blockUsed <= BLOCK && blockUsed <= |message|
      && (|message| - blockUsed) % BLOCK == 0
      && State() == HashBlocks(message[..|message| - blockUsed])
      && block[..blockUsed] == message[|message| - blockUsed..]
    }

    ghost predicate Valid()
      reads this, state, block
    {
      Absorbed(fed) && blockUsed < BLOCK && bitCount == |fed| * 8 % LENGTH_LIMIT
    }

    constructor ()
      ensures Valid() && fed == [] && fresh(state) && fresh(block)
    {
      hide HashBlocks;
      state := new word[5](_ => 0);
      block := new byte[BLOCK](_ => 0);
      bitCount, blockUsed, fed := 0, 0, [];
      new;
      StoreInitial();
      NothingHashed();
    }

    method StoreInitial()
      requires state.Length == 5
      modifies state
      ensures State() == INITIAL
    {
      state[0], state[1], state[2], state[3], state[4] := 0x67452301, 0xEFCDAB89, 0x98BADCFE, 0x10325476, 0xC3D2E1F0;
    }

    method Compress()
      requires state.Length == 5 && block.Length == BLOCK
      modifies state
      ensures State() == Compressed(old(State()), block[..])
    {
      hide Rounds, Plus, Schedule;
      var w := ExpandBlock(block);
      var a, b, c, d, e := EightyRounds(block[..], w, state[0], state[1], state[2], state[3], state[4]);
      state[0], state[1], state[2], state[3], state[4]
        := Plus(state[0], a), Plus(state[1], b), Plus(state[2], c), Plus(state[3], d), Plus(state[4], e);
    }

    // memcpy into the block buffer.
    method Fill(data: seq<byte>, ghost message: seq<byte>)
      requires Absorbed(message) && blockUsed + |data| <= BLOCK
      modifies this`blockUsed, block
      ensures Absorbed(message + data) && blockUsed == old(blockUsed) + |data|
    {
      hide HashBlocks;
      ghost var tail := block[..blockUsed];
      var at := blockUsed;
      forall i | 0 <= i < |data| {
        block[at + i] := data[i];
      }
      blockUsed := blockUsed + |data|;
      assert block[..blockUsed] == tail + data;
      assert (message + data)[..|message| - at] == message[..|message| - at];
    }

    method CompressFull(ghost message: seq<byte>)
      requires Absorbed(message) && blockUsed == BLOCK
      modifies this`blockUsed, state
      ensures Absorbed(message) && blockUsed == 0
    {
      hide Compressed;
      assert block[..] == message[|message| - BLOCK..] by { assert block[..] == block[..blockUsed]; }
      Compress();
      blockUsed := 0;
      assert message[..|message|] == message;
    }

    /** Absorbing bytes appends them to what was fed, whatever the split. */
    method Update(data: seq<byte>)
      requires Valid()
      modifies this, state, block
      ensures Valid() && fed == old(fed) + data
    {
      hide Absorbed;
      var cursor := 0;
      BitsAdd(|fed|, |data|);
      bitCount := (bitCount + |data| * 8) % LENGTH_LIMIT;
      ghost var bits := bitCount;
      assert fed + data[..cursor] == fed;
      while cursor < |data|
        invariant cursor <= |data| && blockUsed < BLOCK && fed == old(fed)
        invariant Absorbed(fed + data[..cursor])
        invariant bitCount == bits
      {
        var room := BLOCK - blockUsed;
        var take := if |data| - cursor < room then |data| - cursor else room;
        Fill(data[cursor..cursor + take], fed + data[..cursor]);
        NextPiece(fed, data, cursor, cursor + take);
        cursor := cursor + take;
        if blockUsed == BLOCK {
          CompressFull(fed + data[..cursor]);
        }
      }
      assert data[..cursor] == data;
      FedGrows(fed + data);
    }

    ghost method FedGrows(message: seq<byte>)
      requires Absorbed(message) && blockUsed < BLOCK && bitCount == |message| * 8 % LENGTH_LIMIT
      modifies this`fed
      ensures Valid() && fed == message
    {
      fed := message;
    }

    /** Padding with single bytes ends with exactly 56 bytes in the block. */
    method Pad()
      requires Valid()
      modifies this, state, block
      ensures Valid() && blockUsed == 56
      ensures fed == old(fed) + [0x80] + Zeros(ZeroBytes(|old(fed)|))
    {
      hide *;
      ghost var message := fed;
      Update([0x80]);
      ghost var marked := fed;
      ghost var n: nat := 0;
      ZerosGrow(0);
      assert marked + [] == marked;
      while blockUsed != 56
        invariant Valid() && fed == marked + Zeros(n)
        invariant n <= ZeroBytes(|message|)
        decreases ZeroBytes(|message|) - n
      {
        UsedBytes();
        StillPadding(|message|, n, blockUsed);
        Update([0x00]);
        ZerosGrow(n);
        assert marked + Zeros(n) + [0x00] == marked + (Zeros(n) + [0x00]);
        n := n + 1;
      }
      UsedBytes();
      PaddingDone(|message|, n);
    }

    lemma UsedBytes()
      requires Valid()
      ensures blockUsed == |fed| % BLOCK < BLOCK
    {
      hide HashBlocks;
    }

    /** The digest is the hash of everything fed. */
    method Final() returns (digest: seq<byte>)
      requires Valid()
      modifies this, state, block
      ensures digest == HashOf(old(fed))
    {
      hide HashBlocks, ToBigEndian, ZeroBytes, Digest, Absorbed;
      var bits := bitCount;
      ghost var message := fed;
      Pad();
      Fill(ToBigEndian(bits, 8), fed);
      PaddedIsBlocks(message);
      CompressFull(Padded(message));
      WholeAbsorbed(Padded(message));
      digest := DigestBytes();
    }

    lemma WholeAbsorbed(message: seq<byte>)
      requires Absorbed(message) && blockUsed == 0
      ensures |message| % BLOCK == 0 && state.Length == 5 && State() == HashBlocks(message)
    {
      hide HashBlocks;
      assert message[..|message|] == message;
    }

    method DigestBytes() returns (digest: seq<byte>)
      requires state.Length == 5
      ensures digest == Digest(State())
    {
      hide WordByte;
      digest := [];
      for i := 0 to 20
        invariant digest == Digest(State())[..i]
      {
        assert state[i / 4] == Part(State(), i / 4);
        digest := digest + [WordByte(state[i / 4], i % 4)];
      }
    }
  }

  lemma BitsAdd(x: nat, y: nat)
    ensures (x * 8 % LENGTH_LIMIT + y * 8) % LENGTH_LIMIT == (x + y) * 8 % LENGTH_LIMIT
  {
  }

  lemma NextPiece(fed: seq<byte>, data: seq<byte>, from: nat, to: nat)
    requires from <= to <= |data|
    ensures fed + data[..from] + data[from..to] == fed + data[..to]
  {
  }

  lemma ZerosGrow(n: nat)
    ensures Zeros(0) == [] && Zeros(n) + [0x00] == Zeros(n + 1)
  {
  }

  lemma StillPadding(length: nat, n: nat, used: nat)
    requires n <= ZeroBytes(length) && used < BLOCK && used != 56 && used == (length + 1 + n) % BLOCK
    ensures n < ZeroBytes(length)
  {
  }

  lemma PaddingDone(length: nat, n: nat)
    requires n <= ZeroBytes(length) && (length + 1 + n) % BLOCK == 56
    ensures n == ZeroBytes(length)
  {
  }

  /** Hashing in any pieces gives the hash of the whole. */
  method HashInPieces(pieces: seq<seq<byte>>) returns (digest: seq<byte>)
    ensures digest == HashOf(Joined(pieces))
  {
    hide HashOf, HashBlocks;
    var context := new Context();
    for i := 0 to |pieces|
      invariant context.Valid() && fresh(context) && fresh(context.state) && fresh(context.block)
      invariant context.fed == Joined(pieces[..i])
    {
      context.Update(pieces[i]);
      assert pieces[..i + 1][..i] == pieces[..i];
    }
    assert pieces[..|pieces|] == pieces;
    digest := context.Final();
  }

  function Joined(pieces: seq<seq<byte>>): seq<byte> {
    if pieces == [] then [] else Joined(pieces[..|pieces| - 1]) + pieces[|pieces| - 1]
  }
}
