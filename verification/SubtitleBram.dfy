/** The subtitle mask memory: a word-at-a-time diff path beside a simple per-pixel path. */
module SubtitleBram {

  type byte = bv8
  type word = bv32
  type BitIndex = k: bv32 | k < 32

  const MASK_WIDTH := 1024
  const MASK_HEIGHT := 256
  const WORDS_PER_ROW := 32
  const WORD_COUNT := 8192

  // ----- Bits of a word -----

  predicate Bit(w: word, k: BitIndex) {
    (w >> k) & 1 == 1
  }

  // The index of bit p, counted up from zero.
  function Place(p: nat): (k: BitIndex)
    requires p < 32
    ensures k as nat == p
  {
    if p == 0 then 0 else Place(p - 1) + 1
  }

  function WithBit(w: word, k: BitIndex, b: bool): word {
    if b then w | (1 << k) else w & !(1 << k)
  }

  lemma BitOfWithBit(w: word, k: BitIndex, b: bool, i: BitIndex)
    ensures Bit(WithBit(w, k, b), i) == if i == k then b else Bit(w, i)
  {
  }

  lemma EqualLane0(a: word, b: word)
    requires forall k: BitIndex :: Bit(a, k) == Bit(b, k)
    ensures a & 0xFF == b & 0xFF
  {
    assert Bit(a, 0) == Bit(b, 0) && Bit(a, 1) == Bit(b, 1) && Bit(a, 2) == Bit(b, 2) && Bit(a, 3) == Bit(b, 3);
    assert Bit(a, 4) == Bit(b, 4) && Bit(a, 5) == Bit(b, 5) && Bit(a, 6) == Bit(b, 6) && Bit(a, 7) == Bit(b, 7);
  }

  lemma EqualLane1(a: word, b: word)
    requires forall k: BitIndex :: Bit(a, k) == Bit(b, k)
    ensures a & 0xFF00 == b & 0xFF00
  {
    assert Bit(a, 8) == Bit(b, 8) && Bit(a, 9) == Bit(b, 9) && Bit(a, 10) == Bit(b, 10) && Bit(a, 11) == Bit(b, 11);
    assert Bit(a, 12) == Bit(b, 12) && Bit(a, 13) == Bit(b, 13) && Bit(a, 14) == Bit(b, 14) && Bit(a, 15) == Bit(b, 15);
  }

  lemma EqualLane2(a: word, b: word)
    requires forall k: BitIndex :: Bit(a, k) == Bit(b, k)
    ensures a & 0xFF0000 == b & 0xFF0000
  {
    assert Bit(a, 16) == Bit(b, 16) && Bit(a, 17) == Bit(b, 17) && Bit(a, 18) == Bit(b, 18) && Bit(a, 19) == Bit(b, 19);
    assert Bit(a, 20) == Bit(b, 20) && Bit(a, 21) == Bit(b, 21) && Bit(a, 22) == Bit(b, 22) && Bit(a, 23) == Bit(b, 23);
  }

  lemma EqualLane3(a: word, b: word)
    requires forall k: BitIndex :: Bit(a, k) == Bit(b, k)
    ensures a & 0xFF000000 == b & 0xFF000000
  {
    assert Bit(a, 24) == Bit(b, 24) && Bit(a, 25) == Bit(b, 25) && Bit(a, 26) == Bit(b, 26) && Bit(a, 27) == Bit(b, 27);
    assert Bit(a, 28) == Bit(b, 28) && Bit(a, 29) == Bit(b, 29) && Bit(a, 30) == Bit(b, 30) && Bit(a, 31) == Bit(b, 31);
  }

  /** A word is known by its bits. */
  lemma EqualBits(a: word, b: word)
    requires forall k: BitIndex :: Bit(a, k) == Bit(b, k)
    ensures a == b
  {
    hide Bit;
    EqualLane0(a, b);
    EqualLane1(a, b);
    EqualLane2(a, b);
    EqualLane3(a, b);
  }

  // ----- Packing -----

  type OctetIndex = j: bv8 | j < 8

  function Octet(p: nat): (j: OctetIndex)
    requires p < 8
    ensures j as nat == p
  {
    if p == 0 then 0 else Octet(p - 1) + 1
  }

  // Bit 7 moves to bit 0, bit 6 to bit 1, and so on.
  function ReverseBits(value: byte): byte {
    var halves := ((value & 0xF0) >> 4) | ((value & 0x0F) << 4);
    var pairs := ((halves & 0xCC) >> 2) | ((halves & 0x33) << 2);
    ((pairs & 0xAA) >> 1) | ((pairs & 0x55) << 1)
  }

  // The j-th pixel of a byte from the left.
  predicate ByteBit(b: byte, j: OctetIndex) {
    (b >> (7 - j)) & 1 == 1
  }

  lemma ReversedBit(b: byte, j: OctetIndex)
    ensures (ReverseBits(b) >> j) & 1 == 1 <==> ByteBit(b, j)
  {
  }

  function PackWord(src: seq<byte>): word
    requires |src| == 4
  {
    Lanes(ReverseBits(src[0]), ReverseBits(src[1]), ReverseBits(src[2]), ReverseBits(src[3]))
  }

  function Lanes(b0: byte, b1: byte, b2: byte, b3: byte): word {
    (b0 as bv32 << 0) | (b1 as bv32 << 8) | (b2 as bv32 << 16) | (b3 as bv32 << 24)
  }

  lemma BitOfLanes(b0: byte, b1: byte, b2: byte, b3: byte, j: OctetIndex)
    ensures var w, i := Lanes(b0, b1, b2, b3), j as bv32;
      && (Bit(w, i) <==> (b0 >> j) & 1 == 1) && (Bit(w, i + 8) <==> (b1 >> j) & 1 == 1)
      && (Bit(w, i + 16) <==> (b2 >> j) & 1 == 1) && (Bit(w, i + 24) <==> (b3 >> j) & 1 == 1)
  {
  }

  lemma PlaceInLane(p: nat)
    requires p < 8
    ensures Place(p) == Octet(p) as bv32 && Place(p + 8) == Octet(p) as bv32 + 8
    ensures Place(p + 16) == Octet(p) as bv32 + 16 && Place(p + 24) == Octet(p) as bv32 + 24
  {
    assert p == 0 || p == 1 || p == 2 || p == 3 || p == 4 || p == 5 || p == 6 || p == 7;
  }

  /** Bit p of the packed word is the p-th source pixel from the left. */
  lemma PackedPixel(src: seq<byte>, p: nat)
    requires |src| == 4 && p < 32
    ensures Bit(PackWord(src), Place(p)) <==> ByteBit(src[p / 8], Octet(p % 8))
  {
    hide Bit, ReverseBits, ByteBit, Lanes, Place, Octet;
    PlaceInLane(p % 8);
    ReversedBit(src[p / 8], Octet(p % 8));
    BitOfLanes(ReverseBits(src[0]), ReverseBits(src[1]), ReverseBits(src[2]), ReverseBits(src[3]), Octet(p % 8));
  }

  // ----- The memory as a screen -----

  ghost predicate Pixel(mem: seq<word>, x: nat, y: nat)
    requires |mem| == WORD_COUNT && x < MASK_WIDTH && y < MASK_HEIGHT
  {
    Bit(mem[y * WORDS_PER_ROW + x / 32], Place(x % 32))
  }

  lemma SameScreen(a: seq<word>, b: seq<word>)
    requires |a| == |b| == WORD_COUNT
    requires forall x: nat, y: nat | x < MASK_WIDTH && y < MASK_HEIGHT :: Pixel(a, x, y) == Pixel(b, x, y)
    ensures a == b
  {
    hide Bit;
    forall i | 0 <= i < WORD_COUNT
      ensures a[i] == b[i]
    {
      forall k: BitIndex
        ensures Bit(a[i], k) == Bit(b[i], k)
      {
        var p := k as nat;
        PlaceOf(k);
        var x, y := i % 32 * 32 + p, i / 32;
        assert x / 32 == i % 32 && x % 32 == p && y * WORDS_PER_ROW + x / 32 == i;
        assert Pixel(a, x, y) == Pixel(b, x, y);
      }
      EqualBits(a[i], b[i]);
    }
  }

  lemma PlaceOf(k: BitIndex)
    ensures k as nat < 32 && Place(k as nat) == k
  {
  }

  // The bitmap's pixel in the given row and column, MSB first.
  predicate SourcePixel(src: seq<byte>, stride: nat, row: nat, col: nat)
    requires row * stride + col / 8 < |src|
  {
    ByteBit(src[row * stride + col / 8], Octet(col % 8))
  }

  // The bitmap has all bytes of the rows that can be seen.
  ghost predicate Covers(src: seq<byte>, stride: nat, y: int, width: nat, height: nat) {
    forall row: nat, col: nat | row < height && col < width && 0 <= y + row < MASK_HEIGHT ::
      row * stride + col / 8 < |src|
  }

  ghost predicate Inside(x: int, y: int, width: nat, height: nat, px: nat, py: nat) {
    x <= px < x + width && y <= py < y + height
  }

  /** `after` shows the bitmap at (x, y), clipped to the mask, and everything else as before. */
  ghost predicate Painted(before: seq<word>, after: seq<word>, src: seq<byte>, stride: nat, x: int, y: int,
                          width: nat, height: nat)
    requires |before| == WORD_COUNT && Covers(src, stride, y, width, height)
  {
    && |after| == WORD_COUNT
    && forall px: nat, py: nat | px < MASK_WIDTH && py < MASK_HEIGHT ::
         Pixel(after, px, py) ==
           if Inside(x, y, width, height, px, py) then SourcePixel(src, stride, py - y, px - x) else Pixel(before, px, py)
  }

  // ----- The fast path on values -----

  // Word i lies under an aligned bitmap of this size.
  predicate UnderBitmap(i: nat, width: nat, height: nat) {
    i / WORDS_PER_ROW < height && i % WORDS_PER_ROW < width / 32
  }

  ghost predicate CoversWords(src: seq<byte>, stride: nat, width: nat, height: nat) {
    forall row: nat, col: nat | row < height && col < width / 32 :: row * stride + col * 4 + 4 <= |src|
  }

  function NewWord(src: seq<byte>, stride: nat, row: nat, col: nat): word
    requires row * stride + col * 4 + 4 <= |src|
  {
    PackWord(src[row * stride + col * 4..row * stride + col * 4 + 4])
  }

  // The fast path compares with the shadow, not with the memory.
  ghost predicate DiffWritten(mem: seq<word>, shadow: seq<word>, mem': seq<word>, shadow': seq<word>,
                              src: seq<byte>, stride: nat, width: nat, height: nat, upTo: nat)
    requires CoversWords(src, stride, width, height)
  {
    && |mem| == |shadow| == |mem'| == |shadow'| == WORD_COUNT
    && forall i | 0 <= i < WORD_COUNT ::
         if i < upTo && UnderBitmap(i, width, height) then
           var w := NewWord(src, stride, i / WORDS_PER_ROW, i % WORDS_PER_ROW);
           shadow'[i] == w && mem'[i] == if w != shadow[i] then w else mem[i]
         else shadow'[i] == shadow[i] && mem'[i] == mem[i]
  }

  // The addresses written, in order: those under the bitmap whose new word differs from the shadow.
  ghost predicate IsWriteLog(log: seq<nat>, shadow: seq<word>, src: seq<byte>, stride: nat, width: nat, height: nat, upTo: nat)
    requires CoversWords(src, stride, width, height) && |shadow| == WORD_COUNT && upTo <= WORD_COUNT
  {
    && (forall a, b | 0 <= a < b < |log| :: log[a] < log[b])
    && (forall a | 0 <= a < |log| :: log[a] < upTo)
    && (forall i: nat | i < upTo :: i in log <==>
          UnderBitmap(i, width, height)
          && NewWord(src, stride, i / WORDS_PER_ROW, i % WORDS_PER_ROW) != shadow[i])
  }

  // ----- The pixel path on values -----

  ghost function SetPixel(mem: seq<word>, x: nat, y: nat, b: bool): (r: seq<word>)
    requires |mem| == WORD_COUNT && x < MASK_WIDTH && y < MASK_HEIGHT
    ensures |r| == WORD_COUNT
  {
    var i := y * WORDS_PER_ROW + x / 32;
    mem[i := WithBit(mem[i], Place(x % 32), b)]
  }

  lemma PixelOfSetPixel(mem: seq<word>, x: nat, y: nat, b: bool, px: nat, py: nat)
    requires |mem| == WORD_COUNT && x < MASK_WIDTH && y < MASK_HEIGHT && px < MASK_WIDTH && py < MASK_HEIGHT
    ensures Pixel(SetPixel(mem, x, y, b), px, py) == if px == x && py == y then b else Pixel(mem, px, py)
  {
    hide Bit, WithBit;
    var i, j := y * WORDS_PER_ROW + x / 32, py * WORDS_PER_ROW + px / 32;
    BitOfWithBit(mem[i], Place(x % 32), b, Place(px % 32));
    if i == j && Place(x % 32) == Place(px % 32) {
      assert x % 32 == px % 32 && x / 32 == px / 32 && y == py;
    }
  }

  datatype Status = Done | Invalid | NotMapped

  /** The adapter; `writes` lists the addresses the diff path stores to. */
  class SubtitleBram {
    const words: array<word>
    const shadow: array<word>
    const mapped: bool
    ghost var writes: seq<nat>

    ghost predicate Valid() {
      words.Length == shadow.Length == WORD_COUNT && words != shadow
    }

    ghost predicate InSync()
      reads words, shadow
    {
      words[..] == shadow[..]
    }

    constructor (mapped: bool)
      ensures Valid() && this.mapped == mapped && fresh(words) && fresh(shadow)
      ensures forall i | 0 <= i < WORD_COUNT :: shadow[i] == 0
    {
      words := new word[WORD_COUNT];
      shadow := new word[WORD_COUNT](_ => 0);
      this.mapped := mapped;
      writes := [];
    }

    method Clear() returns (status: Status)
      requires Valid()
      modifies words, shadow
      ensures status == if mapped then Done else NotMapped
      ensures !mapped ==> words[..] == old(words[..]) && shadow[..] == old(shadow[..])
      ensures mapped ==> InSync() && forall i | 0 <= i < WORD_COUNT :: words[i] == 0
    {
      if !mapped {
        return NotMapped;
      }
      for i := 0 to WORD_COUNT
        invariant forall k | 0 <= k < i :: words[k] == shadow[k] == 0
      {
        words[i] := 0;
        shadow[i] := 0;
      }
      assert words[..] == shadow[..];
      status := Done;
    }

    // One word of the fast path: stored only if it differs from the shadow.
    method WriteIfChanged(i: nat, newWord: word)
      requires Valid() && i < WORD_COUNT
      modifies this, words, shadow
      ensures words[..] == if newWord != old(shadow[i]) then old(words[..])[i := newWord] else old(words[..])
      ensures shadow[..] == old(shadow[..])[i := newWord]
      ensures writes == if newWord != old(shadow[i]) then old(writes) + [i] else old(writes)
    {
      if newWord != shadow[i] {
        words[i] := newWord;
        shadow[i] := newWord;
        writes := writes + [i];
      }
    }

    method WriteFullBitmap(src: seq<byte>, stride: nat, width: nat, height: nat) returns (ghost log: seq<nat>)
      requires Valid() && CoversWords(src, stride, width, height)
      requires width % 32 == 0 && width <= MASK_WIDTH && height <= MASK_HEIGHT
      modifies this, words, shadow
      ensures DiffWritten(old(words[..]), old(shadow[..]), words[..], shadow[..], src, stride, width, height, WORD_COUNT)
      ensures writes == old(writes) + log
      ensures IsWriteLog(log, old(shadow[..]), src, stride, width, height, WORD_COUNT)
    {
      hide NewWord, DiffWritten, IsWriteLog, CoversWords, UnderBitmap;
      var wordsPerRow := width / 32;
      ghost var mem, sh := words[..], shadow[..];
      log := [];
      NothingWritten(mem, sh, src, stride, width, height);
      for row := 0 to height
        invariant DiffWritten(mem, sh, words[..], shadow[..], src, stride, width, height, row * WORDS_PER_ROW)
        invariant writes == old(writes) + log
        invariant IsWriteLog(log, sh, src, stride, width, height, row * WORDS_PER_ROW)
      {
        for col := 0 to wordsPerRow
          invariant DiffWritten(mem, sh, words[..], shadow[..], src, stride, width, height, row * WORDS_PER_ROW + col)
          invariant writes == old(writes) + log
          invariant IsWriteLog(log, sh, src, stride, width, height, row * WORDS_PER_ROW + col)
        {
          var i := row * WORDS_PER_ROW + col;
          WordPlace(src, stride, width, height, row, col);
          var newWord := NewWord(src, stride, row, col);
          OneMoreWord(mem, sh, words[..], shadow[..], log, src, stride, width, height, i);
          ghost var changed := newWord != shadow[i];
          WriteIfChanged(i, newWord);
          log := if changed then log + [i] else log;
        }
        SkipToNextRow(mem, sh, words[..], shadow[..], log, src, stride, width, height, row);
      }
      SkipToEnd(mem, sh, words[..], shadow[..], log, src, stride, width, height);
    }

    /** The simple path: one pixel at a time, clipped, memory only. */
    method WritePixels(src: seq<byte>, stride: nat, x: int, y: int, width: nat, height: nat)
      requires Valid() && Covers(src, stride, y, width, height)
      modifies words
      ensures Painted(old(words[..]), words[..], src, stride, x, y, width, height)
    {
      hide SetPixel, PaintedUpTo, SourcePixel;
      ghost var before := words[..];
      NothingPainted(before, src, stride, x, y, width, height);
      for row := 0 to height
        invariant PaintedUpTo(before, words[..], src, stride, x, y, width, height, row, 0)
      {
        var dstY := y + row;
        if dstY < 0 || dstY >= MASK_HEIGHT {
          HiddenRow(before, words[..], src, stride, x, y, width, height, row);
          continue;
        }
        for col := 0 to width
          invariant PaintedUpTo(before, words[..], src, stride, x, y, width, height, row, col)
        {
          var dstX := x + col;
          var srcBit := SourcePixel(src, stride, row, col);
          PaintOne(before, words[..], src, stride, x, y, width, height, row, col);
          if dstX < 0 || dstX >= MASK_WIDTH {
            continue;
          }
          StorePixel(dstX, dstY, srcBit);
        }
        RowDone(before, words[..], src, stride, x, y, width, height, row);
      }
      AllPainted(before, words[..], src, stride, x, y, width, height);
    }

    // Sets or clears one bit of one word.
    method StorePixel(x: nat, y: nat, srcBit: bool)
      requires Valid() && x < MASK_WIDTH && y < MASK_HEIGHT
      modifies words
      ensures words[..] == SetPixel(old(words[..]), x, y, srcBit)
    {
      hide WithBit, Place;
      var i := y * WORDS_PER_ROW + x / 32;
      words[i] := WithBit(words[i], Place(x % 32), srcBit);
    }

    /** The public write: the fast path for aligned bitmaps, the pixel path for the rest. */
    method WriteBitmap(src: seq<byte>, stride: nat, x: int, y: int, width: nat, height: nat)
      returns (status: Status, ghost log: seq<nat>)
      requires Valid()
      requires mapped && stride > 0 && Aligned(x, y, width, height) ==> CoversWords(src, stride, width, height)
      requires mapped && stride > 0 && !Aligned(x, y, width, height) ==> Covers(src, stride, y, width, height)
      modifies this, words, shadow
      ensures status == if !mapped then NotMapped
        else if stride == 0 || width == 0 || height == 0 then Invalid else Done
      ensures !status.Done? ==> words[..] == old(words[..]) && shadow[..] == old(shadow[..]) && log == []
      ensures status.Done? && x == 0 && y == 0 && width % 32 == 0 && width <= 1024 && height <= 256 ==>
        && DiffWritten(old(words[..]), old(shadow[..]), words[..], shadow[..], src, stride, width, height, WORD_COUNT)
        && IsWriteLog(log, old(shadow[..]), src, stride, width, height, WORD_COUNT)
      ensures status.Done? && !(x == 0 && y == 0 && width % 32 == 0 && width <= 1024 && height <= 256) ==>
        && Painted(old(words[..]), words[..], src, stride, x, y, width, height)
        && shadow[..] == old(shadow[..])
    {
      log := [];
      if !mapped {
        return NotMapped, log;
      }
      if stride == 0 || width == 0 || height == 0 {
        return Invalid, log;
      }
      if x == 0 && y == 0 && width % 32 == 0 && width <= MASK_WIDTH && height <= MASK_HEIGHT {
        log := WriteFullBitmap(src, stride, width, height);
        return Done, log;
      }
      WritePixels(src, stride, x, y, width, height);
      status := Done;
    }
  }

  predicate Aligned(x: int, y: int, width: nat, height: nat) {
    x == 0 && y == 0 && width % 32 == 0 && width <= MASK_WIDTH && height <= MASK_HEIGHT
  }

  // The rows before `row`, and the columns before `col` in it, are painted.
  ghost predicate PaintedUpTo(before: seq<word>, after: seq<word>, src: seq<byte>, stride: nat, x: int, y: int,
                              width: nat, height: nat, row: nat, col: nat)
    requires |before| == WORD_COUNT && Covers(src, stride, y, width, height)
  {
    && |after| == WORD_COUNT
    && forall px: nat, py: nat | px < MASK_WIDTH && py < MASK_HEIGHT ::
         Pixel(after, px, py) ==
           if Inside(x, y, width, height, px, py) && (py - y < row || (py - y == row && px - x < col))
           then SourcePixel(src, stride, py - y, px - x) else Pixel(before, px, py)
  }

  lemma NothingPainted(before: seq<word>, src: seq<byte>, stride: nat, x: int, y: int, width: nat, height: nat)
    requires |before| == WORD_COUNT && Covers(src, stride, y, width, height)
    ensures PaintedUpTo(before, before, src, stride, x, y, width, height, 0, 0)
  {
    hide Pixel, SourcePixel;
  }

  lemma HiddenRow(before: seq<word>, mem: seq<word>, src: seq<byte>, stride: nat, x: int, y: int, width: nat, height: nat, row: nat)
    requires |before| == WORD_COUNT && Covers(src, stride, y, width, height)
    requires !(0 <= y + row < MASK_HEIGHT)
    requires PaintedUpTo(before, mem, src, stride, x, y, width, height, row, 0)
    ensures PaintedUpTo(before, mem, src, stride, x, y, width, height, row + 1, 0)
  {
    hide Pixel, SourcePixel;
  }

  lemma RowDone(before: seq<word>, mem: seq<word>, src: seq<byte>, stride: nat, x: int, y: int, width: nat, height: nat, row: nat)
    requires |before| == WORD_COUNT && Covers(src, stride, y, width, height)
    requires PaintedUpTo(before, mem, src, stride, x, y, width, height, row, width)
    ensures PaintedUpTo(before, mem, src, stride, x, y, width, height, row + 1, 0)
  {
    hide Pixel, SourcePixel;
  }

  lemma AllPainted(before: seq<word>, mem: seq<word>, src: seq<byte>, stride: nat, x: int, y: int, width: nat, height: nat)
    requires |before| == WORD_COUNT && Covers(src, stride, y, width, height)
    requires PaintedUpTo(before, mem, src, stride, x, y, width, height, height, 0)
    ensures Painted(before, mem, src, stride, x, y, width, height)
  {
    hide Pixel, SourcePixel;
  }

  lemma PaintOne(before: seq<word>, mem: seq<word>, src: seq<byte>, stride: nat, x: int, y: int, width: nat, height: nat,
                 row: nat, col: nat)
    requires |before| == WORD_COUNT && Covers(src, stride, y, width, height)
    requires row < height && col < width && 0 <= y + row < MASK_HEIGHT
    requires PaintedUpTo(before, mem, src, stride, x, y, width, height, row, col)
    ensures |mem| == WORD_COUNT
    ensures if 0 <= x + col < MASK_WIDTH
      then PaintedUpTo(before, SetPixel(mem, x + col, y + row, SourcePixel(src, stride, row, col)),
                       src, stride, x, y, width, height, row, col + 1)
      else PaintedUpTo(before, mem, src, stride, x, y, width, height, row, col + 1)
  {
    hide Pixel, SourcePixel, SetPixel;
    if 0 <= x + col < MASK_WIDTH {
      var b := SourcePixel(src, stride, row, col);
      forall px: nat, py: nat | px < MASK_WIDTH && py < MASK_HEIGHT
        ensures Pixel(SetPixel(mem, x + col, y + row, b), px, py)
          == if px == x + col && py == y + row then b else Pixel(mem, px, py)
      {
        PixelOfSetPixel(mem, x + col, y + row, b, px, py);
      }
    }
  }

  lemma NothingWritten(mem: seq<word>, sh: seq<word>, src: seq<byte>, stride: nat, width: nat, height: nat)
    requires |mem| == |sh| == WORD_COUNT && CoversWords(src, stride, width, height)
    ensures DiffWritten(mem, sh, mem, sh, src, stride, width, height, 0)
    ensures IsWriteLog([], sh, src, stride, width, height, 0)
  {
  }

  lemma OneMoreWord(mem: seq<word>, sh: seq<word>, mem': seq<word>, sh': seq<word>, log: seq<nat>,
                    src: seq<byte>, stride: nat, width: nat, height: nat, i: nat)
    requires CoversWords(src, stride, width, height) && i < WORD_COUNT && UnderBitmap(i, width, height)
    requires DiffWritten(mem, sh, mem', sh', src, stride, width, height, i)
    requires IsWriteLog(log, sh, src, stride, width, height, i)
    ensures var w := NewWord(src, stride, i / WORDS_PER_ROW, i % WORDS_PER_ROW);
      && |sh'| == |mem'| == WORD_COUNT
      && DiffWritten(mem, sh, if w != sh'[i] then mem'[i := w] else mem', sh'[i := w], src, stride, width, height, i + 1)
      && IsWriteLog(if w != sh'[i] then log + [i] else log, sh, src, stride, width, height, i + 1)
  {
    hide PackWord, NewWord;
    var log' := log + [i];
    assert forall k :: k in log' <==> k in log || k == i;
  }

  lemma WordPlace(src: seq<byte>, stride: nat, width: nat, height: nat, row: nat, col: nat)
    requires CoversWords(src, stride, width, height) && width <= MASK_WIDTH && height <= MASK_HEIGHT
    requires row < height && col < width / 32
    ensures row * stride + col * 4 + 4 <= |src|
    ensures var i := row * WORDS_PER_ROW + col;
      i < WORD_COUNT && i / WORDS_PER_ROW == row && i % WORDS_PER_ROW == col && UnderBitmap(i, width, height)
  {
  }

  lemma SkipToNextRow(mem: seq<word>, sh: seq<word>, mem': seq<word>, sh': seq<word>, log: seq<nat>,
                      src: seq<byte>, stride: nat, width: nat, height: nat, row: nat)
    requires CoversWords(src, stride, width, height) && width <= MASK_WIDTH && row < height <= MASK_HEIGHT
    requires DiffWritten(mem, sh, mem', sh', src, stride, width, height, row * WORDS_PER_ROW + width / 32)
    requires IsWriteLog(log, sh, src, stride, width, height, row * WORDS_PER_ROW + width / 32)
    ensures DiffWritten(mem, sh, mem', sh', src, stride, width, height, (row + 1) * WORDS_PER_ROW)
    ensures IsWriteLog(log, sh, src, stride, width, height, (row + 1) * WORDS_PER_ROW)
  {
    hide PackWord, NewWord;
    forall i | row * WORDS_PER_ROW + width / 32 <= i < (row + 1) * WORDS_PER_ROW
      ensures !UnderBitmap(i, width, height)
    {
      assert i / WORDS_PER_ROW == row;
    }
  }

  lemma SkipToEnd(mem: seq<word>, sh: seq<word>, mem': seq<word>, sh': seq<word>, log: seq<nat>,
                  src: seq<byte>, stride: nat, width: nat, height: nat)
    requires CoversWords(src, stride, width, height) && height <= MASK_HEIGHT
    requires DiffWritten(mem, sh, mem', sh', src, stride, width, height, height * WORDS_PER_ROW)
    requires IsWriteLog(log, sh, src, stride, width, height, height * WORDS_PER_ROW)
    ensures DiffWritten(mem, sh, mem', sh', src, stride, width, height, WORD_COUNT)
    ensures IsWriteLog(log, sh, src, stride, width, height, WORD_COUNT)
  {
    hide PackWord, NewWord;
  }

  // ----- The two paths agree -----

  // The pixels of a packed word are the source pixels.
  lemma NewWordPixel(src: seq<byte>, stride: nat, row: nat, x: nat)
    requires row * stride + x / 32 * 4 + 4 <= |src| && row * stride + x / 8 < |src|
    ensures Bit(NewWord(src, stride, row, x / 32), Place(x % 32)) == SourcePixel(src, stride, row, x)
  {
    hide Bit, ByteBit, PackWord, Place;
    var base := row * stride + x / 32 * 4;
    PackedPixel(src[base..base + 4], x % 32);
    ByteInWord(x);
    hide NewWord;
    assert src[base..base + 4][x % 32 / 8] == src[base + x % 32 / 8];
  }

  lemma ByteInWord(x: nat)
    ensures x / 8 == x / 32 * 4 + x % 32 / 8 && x % 32 % 8 == x % 8
  {
  }

  lemma CoverageAgrees(src: seq<byte>, stride: nat, width: nat, height: nat)
    requires width % 32 == 0 && CoversWords(src, stride, width, height)
    ensures Covers(src, stride, 0, width, height)
  {
    forall row: nat, col: nat | row < height && col < width && row < MASK_HEIGHT
      ensures row * stride + col / 8 < |src|
    {
      assert row * stride + col / 32 * 4 + 4 <= |src|;
    }
  }

  /** With shadow and memory in agreement, the fast path paints the bitmap, keeps the agreement, and stores to exactly
      the words that change. */
  lemma FastPathPaints(mem: seq<word>, mem': seq<word>, shadow': seq<word>, src: seq<byte>, stride: nat, width: nat,
                       height: nat, log: seq<nat>)
    requires width % 32 == 0 && width <= MASK_WIDTH && height <= MASK_HEIGHT && |mem| == WORD_COUNT
    requires CoversWords(src, stride, width, height)
    requires DiffWritten(mem, mem, mem', shadow', src, stride, width, height, WORD_COUNT)
    requires IsWriteLog(log, mem, src, stride, width, height, WORD_COUNT)
    ensures mem' == shadow'
    ensures Covers(src, stride, 0, width, height) && Painted(mem, mem', src, stride, 0, 0, width, height)
    ensures forall i: nat | i < WORD_COUNT :: i in log <==> mem'[i] != mem[i]
  {
    CoverageAgrees(src, stride, width, height);
    hide Bit, NewWord, SourcePixel;
    forall px: nat, py: nat | px < MASK_WIDTH && py < MASK_HEIGHT
      ensures Pixel(mem', px, py) ==
        if Inside(0, 0, width, height, px, py) then SourcePixel(src, stride, py, px) else Pixel(mem, px, py)
    {
      var i := py * WORDS_PER_ROW + px / 32;
      assert i / WORDS_PER_ROW == py && i % WORDS_PER_ROW == px / 32;
      assert UnderBitmap(i, width, height) <==> Inside(0, 0, width, height, px, py);
      if Inside(0, 0, width, height, px, py) {
        NewWordPixel(src, stride, py, px);
      }
    }
  }

  /** Memory painted by either path from the same start is the same memory. */
  lemma PathsAgree(mem: seq<word>, fast: seq<word>, shadow': seq<word>, slow: seq<word>, src: seq<byte>, stride: nat,
                   width: nat, height: nat, log: seq<nat>)
    requires width % 32 == 0 && width <= MASK_WIDTH && height <= MASK_HEIGHT && |mem| == WORD_COUNT
    requires CoversWords(src, stride, width, height)
    requires DiffWritten(mem, mem, fast, shadow', src, stride, width, height, WORD_COUNT)
    requires IsWriteLog(log, mem, src, stride, width, height, WORD_COUNT)
    requires (CoverageAgrees(src, stride, width, height); Painted(mem, slow, src, stride, 0, 0, width, height))
    ensures fast == slow
  {
    hide Pixel, SourcePixel, DiffWritten, IsWriteLog;
    FastPathPaints(mem, fast, shadow', src, stride, width, height, log);
    SameScreen(fast, slow);
  }

  /** From agreement, a pixel write keeps memory and shadow in agreement exactly when every pixel it paints is already
      there: the pixel path does not follow the shadow. */
  lemma PixelPathKeepsSyncIff(mem: seq<word>, mem': seq<word>, src: seq<byte>, stride: nat, x: int, y: int,
                              width: nat, height: nat)
    requires |mem| == WORD_COUNT && Covers(src, stride, y, width, height)
    requires Painted(mem, mem', src, stride, x, y, width, height)
    ensures mem' == mem <==>
      forall px: nat, py: nat | px < MASK_WIDTH && py < MASK_HEIGHT && Inside(x, y, width, height, px, py) ::
        Pixel(mem, px, py) == SourcePixel(src, stride, py - y, px - x)
  {
    hide Pixel, SourcePixel;
    if forall px: nat, py: nat | px < MASK_WIDTH && py < MASK_HEIGHT && Inside(x, y, width, height, px, py) ::
        Pixel(mem, px, py) == SourcePixel(src, stride, py - y, px - x) {
      SameScreen(mem, mem');
    }
  }

  /** Once memory and shadow differ, an aligned write paints exactly when no word it leaves alone is stale. */
  lemma StaleShadowIff(mem: seq<word>, shadow: seq<word>, mem': seq<word>, shadow': seq<word>, src: seq<byte>,
                       stride: nat, width: nat, height: nat)
    requires width % 32 == 0 && width <= MASK_WIDTH && height <= MASK_HEIGHT
    requires |mem| == |shadow| == WORD_COUNT
    requires CoversWords(src, stride, width, height)
    requires DiffWritten(mem, shadow, mem', shadow', src, stride, width, height, WORD_COUNT)
    ensures Covers(src, stride, 0, width, height)
    ensures Painted(mem, mem', src, stride, 0, 0, width, height) <==>
      forall i | 0 <= i < WORD_COUNT && UnderBitmap(i, width, height) ::
        var w := NewWord(src, stride, i / WORDS_PER_ROW, i % WORDS_PER_ROW);
        shadow[i] == w ==> mem[i] == w
  {
    CoverageAgrees(src, stride, width, height);
    hide Pixel, SourcePixel, NewWord;
    var good := seq(WORD_COUNT, i requires 0 <= i < WORD_COUNT =>
      if UnderBitmap(i, width, height) then NewWord(src, stride, i / WORDS_PER_ROW, i % WORDS_PER_ROW) else mem[i]);
    var log := WriteLogExists(mem, src, stride, width, height);
    assert DiffWritten(mem, mem, good, good, src, stride, width, height, WORD_COUNT);
    FastPathPaints(mem, good, good, src, stride, width, height, log);
    if Painted(mem, mem', src, stride, 0, 0, width, height) {
      SameScreen(mem', good);
    }
    if forall i | 0 <= i < WORD_COUNT :: mem'[i] == good[i] {
      assert mem' == good;
    }
  }

  lemma WriteLogExists(shadow: seq<word>, src: seq<byte>, stride: nat, width: nat, height: nat) returns (log: seq<nat>)
    requires CoversWords(src, stride, width, height) && |shadow| == WORD_COUNT
    ensures IsWriteLog(log, shadow, src, stride, width, height, WORD_COUNT)
  {
    hide NewWord;
    log := [];
    var i: nat := 0;
    while i < WORD_COUNT
      invariant i <= WORD_COUNT && IsWriteLog(log, shadow, src, stride, width, height, i)
    {
      if UnderBitmap(i, width, height) && NewWord(src, stride, i / WORDS_PER_ROW, i % WORDS_PER_ROW) != shadow[i] {
        var log' := log + [i];
        assert forall k :: k in log' <==> k in log || k == i;
        log := log';
      }
      i := i + 1;
    }
  }

  // ----- Where pixels are -----

  /** The leftmost pixel of a byte is its highest bit. */
  lemma PixelsOfByte(b: byte)
    ensures ByteBit(b, 0) == (b & 0x80 != 0) && ByteBit(b, 1) == (b & 0x40 != 0)
    ensures ByteBit(b, 2) == (b & 0x20 != 0) && ByteBit(b, 3) == (b & 0x10 != 0)
    ensures ByteBit(b, 4) == (b & 0x08 != 0) && ByteBit(b, 5) == (b & 0x04 != 0)
    ensures ByteBit(b, 6) == (b & 0x02 != 0) && ByteBit(b, 7) == (b & 0x01 != 0)
  {
  }

  // Two to the power of p, as a word.
  function Power(p: nat): word
    requires p < 32
  {
    if p == 0 then 1 else 2 * Power(p - 1)
  }

  lemma BitOfPower(w: word, p: nat)
    requires p < 32
    ensures Bit(w, Place(p)) <==> w & Power(p) != 0
  {
    ShiftOfPower(p);
    hide Power, Place;
    BitIsMask(w, Place(p));
  }

  lemma BitIsMask(w: word, k: BitIndex)
    ensures Bit(w, k) <==> w & (1 << k) != 0
  {
  }

  lemma {:induction false} ShiftOfPower(p: nat)
    requires p < 32
    ensures 1 << Place(p) == Power(p)
  {
    if p > 0 {
      ShiftOfPower(p - 1);
      DoubledShift(Place(p - 1));
    }
  }

  lemma DoubledShift(k: BitIndex)
    requires k < 31
    ensures (1 as bv32) << (k + 1) == 2 * ((1 as bv32) << k)
  {
  }

  /** The screen: 32 words to a line of 1024 pixels, the leftmost pixel in the lowest bit. */
  lemma PixelIsBit(mem: seq<word>, x: nat, y: nat)
    requires |mem| == 8192 && x < 1024 && y < 256
    ensures Pixel(mem, x, y) <==> mem[y * 32 + x / 32] & Power(x % 32) != 0
  {
    hide *;
    PixelPlace(mem, x, y);
    BitOfPower(mem[y * 32 + x / 32], x % 32);
  }

  lemma PixelPlace(mem: seq<word>, x: nat, y: nat)
    requires |mem| == 8192 && x < 1024 && y < 256
    ensures y * 32 + x / 32 < |mem| && x % 32 < 32 && |mem| == WORD_COUNT && x < MASK_WIDTH && y < MASK_HEIGHT
    ensures Pixel(mem, x, y) == Bit(mem[y * 32 + x / 32], Place(x % 32))
  {
    hide Bit, Place;
  }

  // ----- The pixel path at one input -----

  function Zeros(): (mem: seq<word>)
    ensures |mem| == WORD_COUNT
  {
    seq(WORD_COUNT, _ => 0)
  }

  lemma OnePixelSource()
    ensures var src: seq<byte> := [0x80];
      Covers(src, 1, 0, 1, 1) && SourcePixel(src, 1, 0, 0) && !Pixel(Zeros(), 0, 0) && Inside(0, 0, 1, 1, 0, 0)
  {
    assert Octet(0) == 0 && Place(0) == 0;
  }

  // One white pixel on cleared memory: the memory changes, the cleared shadow stays.
  lemma OnePixelBreaksSync(mem': seq<word>)
    requires var src: seq<byte> := [0x80]; Covers(src, 1, 0, 1, 1) && Painted(Zeros(), mem', src, 1, 0, 0, 1, 1)
    ensures mem' != Zeros()
  {
    OnePixelSource();
    hide Pixel, SourcePixel;
    PixelPathKeepsSyncIff(Zeros(), mem', [0x80], 1, 0, 0, 1, 1);
  }

  lemma BlankWord()
    ensures var src: seq<byte> := [0, 0, 0, 0];
      CoversWords(src, 4, 32, 1) && NewWord(src, 4, 0, 0) == 0 && UnderBitmap(0, 32, 1)
  {
    assert ReverseBits(0) == 0;
  }

  // Clearing that pixel again with a blank aligned bitmap leaves it on the screen.
  lemma StalePixelStays(mem: seq<word>, mem': seq<word>, shadow': seq<word>)
    requires mem == Zeros()[0 := 1]
    requires var src: seq<byte> := [0, 0, 0, 0];
      CoversWords(src, 4, 32, 1) && DiffWritten(mem, Zeros(), mem', shadow', src, 4, 32, 1, WORD_COUNT)
    ensures var src: seq<byte> := [0, 0, 0, 0];
      mem' == mem && Covers(src, 4, 0, 32, 1) && !Painted(mem, mem', src, 4, 0, 0, 32, 1)
  {
    var src: seq<byte> := [0, 0, 0, 0];
    BlankWord();
    hide NewWord, Pixel, SourcePixel;
    StaleShadowIff(mem, Zeros(), mem', shadow', src, 4, 32, 1);
    assert Zeros()[0] == NewWord(src, 4, 0 / WORDS_PER_ROW, 0 % WORDS_PER_ROW);
    forall i | 0 <= i < WORD_COUNT && UnderBitmap(i, 32, 1)
      ensures i == 0
    {
    }
  }

  // ----- Runs of clears and writes -----

  datatype Op =
    | ClearAll
    | Draw(src: seq<byte>, stride: nat, width: nat, height: nat)
    | DrawPixels(src: seq<byte>, stride: nat, x: int, y: int, width: nat, height: nat)

  // Memory and shadow after one operation.
  ghost predicate Follows(mem: seq<word>, shadow: seq<word>, op: Op, mem': seq<word>, shadow': seq<word>) {
    match op
    case ClearAll =>
      |mem'| == |shadow'| == WORD_COUNT && forall i | 0 <= i < WORD_COUNT :: mem'[i] == shadow'[i] == 0
    case Draw(src, stride, width, height) =>
      && Aligned(0, 0, width, height) && CoversWords(src, stride, width, height)
      && DiffWritten(mem, shadow, mem', shadow', src, stride, width, height, WORD_COUNT)
    case DrawPixels(src, stride, x, y, width, height) =>
      && |mem| == WORD_COUNT && !Aligned(x, y, width, height) && Covers(src, stride, y, width, height)
      && Painted(mem, mem', src, stride, x, y, width, height) && shadow' == shadow
  }

  /** One operation and the agreement of memory and shadow: a clear makes it, an aligned write keeps it, a pixel write
      keeps it exactly if it changes nothing. */
  lemma SyncAfter(mem: seq<word>, shadow: seq<word>, op: Op, mem': seq<word>, shadow': seq<word>)
    requires Follows(mem, shadow, op, mem', shadow')
    ensures op.ClearAll? ==> mem' == shadow'
    ensures op.Draw? && mem == shadow ==> mem' == shadow'
    ensures op.DrawPixels? && mem == shadow ==>
      (mem' == shadow' <==>
        forall px: nat, py: nat |
          px < MASK_WIDTH && py < MASK_HEIGHT && Inside(op.x, op.y, op.width, op.height, px, py) ::
          Pixel(mem, px, py) == SourcePixel(op.src, op.stride, py - op.y, px - op.x))
  {
    hide NewWord, Pixel, SourcePixel;
    if op.DrawPixels? {
      hide Painted;
      PixelPathKeepsSyncIff(mem, mem', op.src, op.stride, op.x, op.y, op.width, op.height);
    } else {
      assert mem == shadow && op.Draw? ==> mem' == shadow';
    }
  }

  ghost predicate IsRun(mems: seq<seq<word>>, shadows: seq<seq<word>>, ops: seq<Op>) {
    && |mems| == |shadows| == |ops| + 1
    && forall i | 0 <= i < |ops| :: Follows(mems[i], shadows[i], ops[i], mems[i + 1], shadows[i + 1])
  }

  /** From agreement, every run of clears and aligned writes stays in agreement. */
  lemma {:induction false} RunsStayInSync(mems: seq<seq<word>>, shadows: seq<seq<word>>, ops: seq<Op>, from: nat)
    requires IsRun(mems, shadows, ops) && from <= |ops| && mems[from] == shadows[from]
    requires forall i | from <= i < |ops| :: !ops[i].DrawPixels?
    ensures forall i | from <= i < |mems| :: mems[i] == shadows[i]
    decreases |ops| - from
  {
    hide Follows;
    if from < |ops| {
      SyncAfter(mems[from], shadows[from], ops[from], mems[from + 1], shadows[from + 1]);
      RunsStayInSync(mems, shadows, ops, from + 1);
    }
  }

  /** Whatever memory and shadow held before and whatever was drawn, from a clear on they agree, until the pixel path is
      used again. */
  lemma ClearStartsSync(mems: seq<seq<word>>, shadows: seq<seq<word>>, ops: seq<Op>, k: nat)
    requires IsRun(mems, shadows, ops) && k < |ops| && ops[k].ClearAll?
    requires forall i | k < i < |ops| :: !ops[i].DrawPixels?
    ensures forall i | k < i < |mems| :: mems[i] == shadows[i]
  {
    hide Follows;
    SyncAfter(mems[k], shadows[k], ops[k], mems[k + 1], shadows[k + 1]);
    RunsStayInSync(mems, shadows, ops, k + 1);
  }
}
