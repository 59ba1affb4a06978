/** The examples of FIPS 180-4: the digests of "abc" and of the message of two blocks. */
module Sha1Examples {
  import opened Bytes
  import opened Sha1

  // ----- Schedule and rounds over literal words -----

  // Word i + 16 of the schedule that starts with these words.
  predicate Expands(ws: seq<word>, i: nat)
    requires i + 16 < |ws|
  {
    ws[i + 16] == Expand(ws[i + 13], ws[i + 8], ws[i + 2], ws[i])
  }

  predicate Next16(ws: seq<word>) {
    && |ws| == 32
    && Expands(ws, 0) && Expands(ws, 1) && Expands(ws, 2) && Expands(ws, 3)
    && Expands(ws, 4) && Expands(ws, 5) && Expands(ws, 6) && Expands(ws, 7)
    && Expands(ws, 8) && Expands(ws, 9) && Expands(ws, 10) && Expands(ws, 11)
    && Expands(ws, 12) && Expands(ws, 13) && Expands(ws, 14) && Expands(ws, 15)
  }

  // Sixteen bytes that read as four words.
  predicate Reads(piece: seq<byte>, w0: word, w1: word, w2: word, w3: word) {
    && |piece| == 16
    && WordAt(piece, 0) == w0 && WordAt(piece, 1) == w1 && WordAt(piece, 2) == w2 && WordAt(piece, 3) == w3
  }

  lemma PieceOf(block: seq<byte>, from: nat, piece: seq<byte>, i: nat)
    requires i < 4 && |piece| == 16 && from * 16 + 16 <= |block| && block[from * 16..from * 16 + 16] == piece
    ensures WordAt(block, from * 4 + i) == WordAt(piece, i)
  {
    forall k | 0 <= k < 16 ensures block[from * 16 + k] == piece[k] {
      assert block[from * 16..from * 16 + 16][k] == piece[k];
    }
  }

  lemma PieceWords(block: seq<byte>, k: nat, piece: seq<byte>, w0: word, w1: word, w2: word, w3: word)
    requires |block| == BLOCK && k < 4 && Reads(piece, w0, w1, w2, w3) && block[k * 16..k * 16 + 16] == piece
    ensures Schedule(block, 4 * k) == w0 && Schedule(block, 4 * k + 1) == w1
    ensures Schedule(block, 4 * k + 2) == w2 && Schedule(block, 4 * k + 3) == w3
  {
    hide WordAt, Schedule;
    for i := 0 to 4
      invariant forall j | 0 <= j < i :: Schedule(block, 4 * k + j) == WordAt(piece, j)
    {
      PieceOf(block, k, piece, i);
      FirstWord(block, 4 * k + i);
    }
    assert Schedule(block, 4 * k + 0) == w0;
  }

  lemma HasFirst(p0: seq<byte>, p1: seq<byte>, p2: seq<byte>, p3: seq<byte>, ws: seq<word>)
    requires |ws| == 16
    requires Reads(p0, ws[0], ws[1], ws[2], ws[3]) && Reads(p1, ws[4], ws[5], ws[6], ws[7])
    requires Reads(p2, ws[8], ws[9], ws[10], ws[11]) && Reads(p3, ws[12], ws[13], ws[14], ws[15])
    ensures Has(p0 + p1 + p2 + p3, 0, ws)
  {
    hide WordAt, Schedule;
    var block := p0 + p1 + p2 + p3;
    assert block[0..16] == p0 && block[16..32] == p1 && block[32..48] == p2 && block[48..64] == p3;
    PieceWords(block, 0, p0, ws[0], ws[1], ws[2], ws[3]);
    PieceWords(block, 1, p1, ws[4], ws[5], ws[6], ws[7]);
    PieceWords(block, 2, p2, ws[8], ws[9], ws[10], ws[11]);
    PieceWords(block, 3, p3, ws[12], ws[13], ws[14], ws[15]);
  }

  lemma FirstWord(block: seq<byte>, i: nat)
    requires |block| == BLOCK && i < 16
    ensures Schedule(block, i) == WordAt(block, i)
  {
    hide WordAt;
  }

  // Sixteen words of the schedule from t on.
  ghost predicate Has(block: seq<byte>, t: nat, ws: seq<word>) {
    |block| == BLOCK && |ws| == 16 && forall i | 0 <= i < 16 :: Schedule(block, t + i) == ws[i]
  }

  lemma WordsAre(block: seq<byte>, t: nat, ws: seq<word>)
    requires Has(block, t, ws)
    ensures Schedule(block, t + 0) == ws[0] && Schedule(block, t + 1) == ws[1] && Schedule(block, t + 2) == ws[2]
    ensures Schedule(block, t + 3) == ws[3] && Schedule(block, t + 4) == ws[4] && Schedule(block, t + 5) == ws[5]
    ensures Schedule(block, t + 6) == ws[6] && Schedule(block, t + 7) == ws[7] && Schedule(block, t + 8) == ws[8]
    ensures Schedule(block, t + 9) == ws[9] && Schedule(block, t + 10) == ws[10] && Schedule(block, t + 11) == ws[11]
    ensures Schedule(block, t + 12) == ws[12] && Schedule(block, t + 13) == ws[13] && Schedule(block, t + 14) == ws[14]
    ensures Schedule(block, t + 15) == ws[15]
  {
    hide Schedule;
  }

  lemma HasNext(block: seq<byte>, t: nat, ws: seq<word>, next: seq<word>)
    requires Has(block, t, ws) && Next16(ws + next)
    ensures Has(block, t + 16, next)
  {
    hide Expand, Expands, Schedule;
    var all := ws + next;
    for i := 0 to 16
      invariant forall j | 0 <= j < i + 16 :: Schedule(block, t + j) == all[j]
    {
      OneOf16(all, i);
      ExpandsIs(all, i);
      ScheduleStep(block, t + i);
      assert Schedule(block, t + (i + 13)) == all[i + 13] && Schedule(block, t + (i + 8)) == all[i + 8];
      assert Schedule(block, t + (i + 2)) == all[i + 2] && Schedule(block, t + i) == all[i];
    }
    forall i | 0 <= i < 16 ensures Schedule(block, t + 16 + i) == next[i] {
      assert Schedule(block, t + (16 + i)) == all[16 + i];
    }
  }

  lemma OneOf16(ws: seq<word>, i: nat)
    requires Next16(ws) && i < 16
    ensures |ws| == 32 && Expands(ws, i)
  {
    hide Expands;
  }

  lemma ExpandsIs(ws: seq<word>, i: nat)
    requires i + 16 < |ws| && Expands(ws, i)
    ensures ws[i + 16] == Expand(ws[i + 13], ws[i + 8], ws[i + 2], ws[i])
  {
    hide Expand;
  }

  lemma ScheduleStep(block: seq<byte>, t: nat)
    requires |block| == BLOCK
    ensures Schedule(block, t + 16)
      == Expand(Schedule(block, t + 13), Schedule(block, t + 8), Schedule(block, t + 2), Schedule(block, t))
  {
    hide Expand;
  }

  lemma NoRounds(h: Hash, block: seq<byte>)
    requires |block| == BLOCK
    ensures Rounds(h, block, 0) == h
  {
  }

  lemma AllRounds(h: Hash, block: seq<byte>)
    requires |block| == BLOCK
    ensures Compressed(h, block) == Sum(h, Rounds(h, block, 80))
  {
    hide Rounds, Sum;
  }

  // ----- The block of "abc" -----

  const AbcBytes0: seq<byte> := [
    0x61, 0x62, 0x63, 0x80, 0x00, 0x00, 0x00, 0x00, 0x00, 0x00, 0x00, 0x00, 0x00, 0x00, 0x00, 0x00]
  const AbcBytes1: seq<byte> := [
    0x00, 0x00, 0x00, 0x00, 0x00, 0x00, 0x00, 0x00, 0x00, 0x00, 0x00, 0x00, 0x00, 0x00, 0x00, 0x00]
  const AbcBytes2: seq<byte> := [
    0x00, 0x00, 0x00, 0x00, 0x00, 0x00, 0x00, 0x00, 0x00, 0x00, 0x00, 0x00, 0x00, 0x00, 0x00, 0x00]
  const AbcBytes3: seq<byte> := [
    0x00, 0x00, 0x00, 0x00, 0x00, 0x00, 0x00, 0x00, 0x00, 0x00, 0x00, 0x00, 0x00, 0x00, 0x00, 0x18]
  const Abc: seq<byte> := AbcBytes0 + AbcBytes1 + AbcBytes2 + AbcBytes3

  const AbcWords0: seq<word> := [
    0x61626380, 0x00000000, 0x00000000, 0x00000000, 0x00000000, 0x00000000, 0x00000000, 0x00000000,
    0x00000000, 0x00000000, 0x00000000, 0x00000000, 0x00000000, 0x00000000, 0x00000000, 0x00000018]
  const AbcWords1: seq<word> := [
    0xC2C4C700, 0x00000000, 0x00000030, 0x85898E01, 0x00000000, 0x00000060, 0x0B131C03, 0x00000030,
    0x85898EC1, 0x16263806, 0x00000000, 0x00000180, 0x2C4C700C, 0x000000F0, 0x93AFB507, 0x5898E048]
  const AbcWords2: seq<word> := [
    0x8E9A9202, 0x00000600, 0xB131C0F0, 0x16263BC6, 0x4EBED41E, 0x626380A1, 0x16263806, 0x000018C0,
    0xD2E138C4, 0x00000F00, 0x3AFB5079, 0x898E04E5, 0xE2BA3C2B, 0x000060C0, 0x053A37CD, 0x74458547]
  const AbcWords3: seq<word> := [
    0xDA9415ED, 0x26380A16, 0x626383A1, 0x4EBF54DE, 0x3835B44B, 0x0000F600, 0x1E84C7A3, 0x98E04D98,
    0x651D16A0, 0x62658CA1, 0x458544D6, 0x44584CB7, 0x7BA06619, 0x6380AEA2, 0x0AE55269, 0x627B49A1]
  const AbcWords4: seq<word> := [
    0x7CD45C9D, 0x000F0000, 0xFB50753A, 0xEC6765E8, 0xBA3C2BE2, 0x0060C000, 0x3A37CD05, 0x458546F4,
    0xB8599DD6, 0x380A1A26, 0x01E02203, 0xE7CC3456, 0xE6E60B69, 0x00F60A00, 0x5795EF4F, 0x822E0879]

  lemma AbcRounds0(h: Hash, block: seq<byte>)
    requires Has(block, 0, AbcWords0)
    requires Rounds(h, block, 0) == Hash(0x67452301, 0xEFCDAB89, 0x98BADCFE, 0x10325476, 0xC3D2E1F0)
    ensures Rounds(h, block, 16) == Hash(0x20BDD62F, 0x196BEE77, 0x644A3DA5, 0x1181ED99, 0x18C623F9)
  {
    hide Schedule;
    WordsAre(block, 0, AbcWords0);
    assert Rounds(h, block, 2) == Hash(0x8990536D, 0x0116FC33, 0x59D148C0, 0x7BF36AE2, 0x98BADCFE);
    assert Rounds(h, block, 4) == Hash(0xCDD8E11B, 0xA1390F08, 0x626414DB, 0xC045BF0C, 0x59D148C0);
    assert Rounds(h, block, 6) == Hash(0x3FC7CA40, 0xCFD499DE, 0xF3763846, 0x284E43C2, 0x626414DB);
    assert Rounds(h, block, 8) == Hash(0x9E8C07D4, 0x993E30C1, 0x0FF1F290, 0xB3F52677, 0xF3763846);
    assert Rounds(h, block, 10) == Hash(0x8351F929, 0x4B6AE328, 0x27A301F5, 0x664F8C30, 0x0FF1F290);
    assert Rounds(h, block, 12) == Hash(0x63188FE4, 0xFBDA9E89, 0x60D47E4A, 0x12DAB8CA, 0x27A301F5);
    assert Rounds(h, block, 14) == Hash(0x9128F695, 0x4607B664, 0x18C623F9, 0x7EF6A7A2, 0x60D47E4A);
  }

  lemma AbcRounds16(h: Hash, block: seq<byte>)
    requires Has(block, 16, AbcWords1)
    requires Rounds(h, block, 16) == Hash(0x20BDD62F, 0x196BEE77, 0x644A3DA5, 0x1181ED99, 0x18C623F9)
    ensures Rounds(h, block, 32) == Hash(0x3B845D33, 0x1267B407, 0x717EEBD7, 0xA0DC2D4B, 0xD2AA1365)
  {
    hide Schedule;
    WordsAre(block, 16, AbcWords1);
    assert Rounds(h, block, 18) == Hash(0x82AA6728, 0x4E925823, 0xC82F758B, 0xC65AFB9D, 0x644A3DA5);
    assert Rounds(h, block, 20) == Hash(0xFD9E1D7D, 0xDC64901D, 0x20AA99CA, 0xD3A49608, 0xC82F758B);
    assert Rounds(h, block, 22) == Hash(0x33A23BFC, 0x1A37B0CA, 0x7F67875F, 0x77192407, 0x20AA99CA);
    assert Rounds(h, block, 24) == Hash(0xD541F12D, 0x21283486, 0x0CE88EFF, 0x868DEC32, 0x7F67875F);
    assert Rounds(h, block, 26) == Hash(0x48413BA4, 0xC7567DC6, 0x75507C4B, 0x884A0D21, 0x0CE88EFF);
    assert Rounds(h, block, 28) == Hash(0x4AA84D97, 0xBE35FBD5, 0x12104EE9, 0xB1D59F71, 0x75507C4B);
    assert Rounds(h, block, 30) == Hash(0xC5FBAF5D, 0x8370B52E, 0xD2AA1365, 0x6F8D7EF5, 0x12104EE9);
  }

  lemma AbcRounds32(h: Hash, block: seq<byte>)
    requires Has(block, 32, AbcWords2)
    requires Rounds(h, block, 32) == Hash(0x3B845D33, 0x1267B407, 0x717EEBD7, 0xA0DC2D4B, 0xD2AA1365)
    ensures Rounds(h, block, 48) == Hash(0xBEAD02CA, 0xA01B846C, 0x8714787C, 0x503CA382, 0xFB86C6AB)
  {
    hide Schedule;
    WordsAre(block, 32, AbcWords2);
    assert Rounds(h, block, 34) == Hash(0x2C0EBC11, 0x046FAA0A, 0xCEE1174C, 0xC499ED01, 0x717EEBD7);
    assert Rounds(h, block, 36) == Hash(0xDCBBB0CB, 0x21796AD4, 0x4B03AF04, 0x811BEA82, 0xCEE1174C);
    assert Rounds(h, block, 38) == Hash(0xDC63973F, 0x0F511FD8, 0xF72EEC32, 0x085E5AB5, 0x4B03AF04);
    assert Rounds(h, block, 40) == Hash(0x32DE1CBA, 0x4C986405, 0xF718E5CF, 0x03D447F6, 0xF72EEC32);
    assert Rounds(h, block, 42) == Hash(0x970A0D5C, 0xFC87DEDF, 0x8CB7872E, 0x53261901, 0xF718E5CF);
    assert Rounds(h, block, 44) == Hash(0xEE1B1AAF, 0x7F193DC5, 0x25C28357, 0xFF21F7B7, 0x8CB7872E);
    assert Rounds(h, block, 46) == Hash(0x1C51E1F2, 0x40F28E09, 0xFB86C6AB, 0x5FC64F71, 0x25C28357);
  }

  lemma AbcRounds48(h: Hash, block: seq<byte>)
    requires Has(block, 48, AbcWords3)
    requires Rounds(h, block, 48) == Hash(0xBEAD02CA, 0xA01B846C, 0x8714787C, 0x503CA382, 0xFB86C6AB)
    ensures Rounds(h, block, 64) == Hash(0x6B61C9E1, 0xB66C020B, 0x9523272C, 0xF5D5B051, 0x8FD4B796)
  {
    hide Schedule;
    WordsAre(block, 48, AbcWords3);
    assert Rounds(h, block, 50) == Hash(0x120731C5, 0xBAF39337, 0xAFAB40B2, 0x2806E11B, 0x8714787C);
    assert Rounds(h, block, 52) == Hash(0x3847AD66, 0x641DB2CE, 0x4481CC71, 0xEEBCE4CD, 0xAFAB40B2);
    assert Rounds(h, block, 54) == Hash(0x27E9F1D8, 0xE490436D, 0x8E11EB59, 0x99076CB3, 0x4481CC71);
    assert Rounds(h, block, 56) == Hash(0x5E6456AF, 0x7B71F76D, 0x09FA7C76, 0x792410DB, 0x8E11EB59);
    assert Rounds(h, block, 58) == Hash(0xD262FF50, 0xC846093F, 0xD79915AB, 0x5EDC7DDB, 0x09FA7C76);
    assert Rounds(h, block, 60) == Hash(0x3F52DE5A, 0x09D785FD, 0x3498BFD4, 0xF211824F, 0xD79915AB);
    assert Rounds(h, block, 62) == Hash(0x548C9CB2, 0xD756C147, 0x8FD4B796, 0x4275E17F, 0x3498BFD4);
  }

  lemma AbcRounds64(h: Hash, block: seq<byte>)
    requires Has(block, 64, AbcWords4)
    requires Rounds(h, block, 64) == Hash(0x6B61C9E1, 0xB66C020B, 0x9523272C, 0xF5D5B051, 0x8FD4B796)
    ensures Rounds(h, block, 80) == Hash(0x42541B35, 0x5738D5E1, 0x21834873, 0x681E6DF6, 0xD8FDF6AD)
  {
    hide Schedule;
    WordsAre(block, 64, AbcWords4);
    assert Rounds(h, block, 66) == Hash(0x101655F9, 0x19DFA7AC, 0x5AD87278, 0xED9B0082, 0x9523272C);
    assert Rounds(h, block, 68) == Hash(0x78DD4D2B, 0x0C3DF2B4, 0x4405957E, 0x0677E9EB, 0x5AD87278);
    assert Rounds(h, block, 70) == Hash(0x3F2588C2, 0x497093C0, 0xDE37534A, 0x030F7CAD, 0x4405957E);
    assert Rounds(h, block, 72) == Hash(0x39859DE7, 0xC199F8C7, 0x8FC96230, 0x125C24F0, 0xDE37534A);
    assert Rounds(h, block, 74) == Hash(0x11793F6F, 0xEDB42DE4, 0xCE616779, 0xF0667E31, 0x8FC96230);
    assert Rounds(h, block, 76) == Hash(0x63F7DAB7, 0x5EE76897, 0xC45E4FDB, 0x3B6D0B79, 0xCE616779);
    assert Rounds(h, block, 78) == Hash(0x860D21CC, 0xA079B7D9, 0xD8FDF6AD, 0xD7B9DA25, 0xC45E4FDB);
  }

  lemma AbcSchedule16()
    ensures Next16(AbcWords0 + AbcWords1)
  {
  }

  lemma AbcSchedule32()
    ensures Next16(AbcWords1 + AbcWords2)
  {
  }

  lemma AbcSchedule48()
    ensures Next16(AbcWords2 + AbcWords3)
  {
  }

  lemma AbcSchedule64()
    ensures Next16(AbcWords3 + AbcWords4)
  {
  }

  lemma AbcStart0()
    ensures Reads(AbcBytes0, 0x61626380, 0x00000000, 0x00000000, 0x00000000)
  {
  }

  lemma AbcStart1()
    ensures Reads(AbcBytes1, 0x00000000, 0x00000000, 0x00000000, 0x00000000)
  {
  }

  lemma AbcStart2()
    ensures Reads(AbcBytes2, 0x00000000, 0x00000000, 0x00000000, 0x00000000)
  {
  }

  lemma AbcStart3()
    ensures Reads(AbcBytes3, 0x00000000, 0x00000000, 0x00000000, 0x00000018)
  {
  }

  lemma AbcHas()
    ensures |Abc| == BLOCK && Has(Abc, 0, AbcWords0)
  {
    hide Reads, Has;
    AbcStart0();
    AbcStart1();
    AbcStart2();
    AbcStart3();
    HasFirst(AbcBytes0, AbcBytes1, AbcBytes2, AbcBytes3, AbcWords0);
  }

  lemma AbcSum(h: Hash)
    requires h == Hash(0x67452301, 0xEFCDAB89, 0x98BADCFE, 0x10325476, 0xC3D2E1F0)
    ensures Sum(h, Hash(0x42541B35, 0x5738D5E1, 0x21834873, 0x681E6DF6, 0xD8FDF6AD))
      == Hash(0xA9993E36, 0x4706816A, 0xBA3E2571, 0x7850C26C, 0x9CD0D89D)
  {
  }

  lemma AbcCompressed(h: Hash)
    requires h == Hash(0x67452301, 0xEFCDAB89, 0x98BADCFE, 0x10325476, 0xC3D2E1F0)
    ensures Compressed(h, Abc) == Hash(0xA9993E36, 0x4706816A, 0xBA3E2571, 0x7850C26C, 0x9CD0D89D)
  {
    hide *;
    AbcHas();
    NoRounds(h, Abc);
    AbcSchedule16();
    HasNext(Abc, 0, AbcWords0, AbcWords1);
    AbcSchedule32();
    HasNext(Abc, 16, AbcWords1, AbcWords2);
    AbcSchedule48();
    HasNext(Abc, 32, AbcWords2, AbcWords3);
    AbcSchedule64();
    HasNext(Abc, 48, AbcWords3, AbcWords4);
    AbcRounds0(h, Abc);
    AbcRounds16(h, Abc);
    AbcRounds32(h, Abc);
    AbcRounds48(h, Abc);
    AbcRounds64(h, Abc);
    AbcSum(h);
    AllRounds(h, Abc);
  }

  // ----- The first of two blocks -----

  const FirstBytes0: seq<byte> := [
    0x61, 0x62, 0x63, 0x64, 0x62, 0x63, 0x64, 0x65, 0x63, 0x64, 0x65, 0x66, 0x64, 0x65, 0x66, 0x67]
  const FirstBytes1: seq<byte> := [
    0x65, 0x66, 0x67, 0x68, 0x66, 0x67, 0x68, 0x69, 0x67, 0x68, 0x69, 0x6A, 0x68, 0x69, 0x6A, 0x6B]
  const FirstBytes2: seq<byte> := [
    0x69, 0x6A, 0x6B, 0x6C, 0x6A, 0x6B, 0x6C, 0x6D, 0x6B, 0x6C, 0x6D, 0x6E, 0x6C, 0x6D, 0x6E, 0x6F]
  const FirstBytes3: seq<byte> := [
    0x6D, 0x6E, 0x6F, 0x70, 0x6E, 0x6F, 0x70, 0x71, 0x80, 0x00, 0x00, 0x00, 0x00, 0x00, 0x00, 0x00]
  const First: seq<byte> := FirstBytes0 + FirstBytes1 + FirstBytes2 + FirstBytes3

  const FirstWords0: seq<word> := [
    0x61626364, 0x62636465, 0x63646566, 0x64656667, 0x65666768, 0x66676869, 0x6768696A, 0x68696A6B,
    0x696A6B6C, 0x6A6B6C6D, 0x6B6C6D6E, 0x6C6D6E6F, 0x6D6E6F70, 0x6E6F7071, 0x80000000, 0x00000000]
  const FirstWords1: seq<word> := [
    0x0A063A3E, 0xD8DADCDF, 0xDADCDEC0, 0xC8D2B4BE, 0x6F757B5B, 0x757B5967, 0x8DA16D70, 0xDAEEFABA,
    0xFAF6CAB6, 0xA6FB675A, 0x0C604CC8, 0x604CC02C, 0x49C0E6E2, 0x2EE8CBBC, 0xCFD72EC4, 0x97E9810E]
  const FirstWords2: seq<word> := [
    0x0989CBE8, 0xF24843FE, 0x5C40D0BA, 0xA8D9CC3B, 0xB2B9666E, 0xBA7B71B7, 0x20B28A72, 0xB28AF500,
    0x8AC87842, 0x289ADDF4, 0x56D51F21, 0xD96B7FD2, 0x3868E778, 0xAB5E4848, 0x7F0E2118, 0xDE87A111]
  const FirstWords3: seq<word> := [
    0xE8BE56B0, 0x1A0AE652, 0xCD5611C8, 0x46EF29DC, 0x60D3DA6D, 0xDDF3BA6E, 0x2737F5E9, 0x4888A710,
    0xD2A1177B, 0x9999633B, 0xD6C69D03, 0xCCF6127B, 0x7C58FE6D, 0xFDD99C68, 0xF8E32074, 0xE0BA3C7D]
  const FirstWords4: seq<word> := [
    0x152198D6, 0x7B3F1982, 0x37F2D5B7, 0x8596323E, 0x810790D6, 0xBEA0A942, 0x11C7E1B1, 0x6158D101,
    0x5FCD77D9, 0x7F2F12E6, 0xF868CFB1, 0xD6E997E9, 0xF526B852, 0xB7578DCC, 0x55D99DF4, 0x1FF69958]

  lemma FirstRounds0(h: Hash, block: seq<byte>)
    requires Has(block, 0, FirstWords0)
    requires Rounds(h, block, 0) == Hash(0x67452301, 0xEFCDAB89, 0x98BADCFE, 0x10325476, 0xC3D2E1F0)
    ensures Rounds(h, block, 16) == Hash(0x42637E39, 0xB2E7A8BE, 0x4CBE52A1, 0xA180D207, 0xB867B2A8)
  {
    hide Schedule;
    WordsAre(block, 0, FirstWords0);
    assert Rounds(h, block, 2) == Hash(0xEBF3B452, 0x0116FC17, 0x59D148C0, 0x7BF36AE2, 0x98BADCFE);
    assert Rounds(h, block, 4) == Hash(0x2C4F6EAC, 0x5109913A, 0xBAFCED14, 0xC045BF05, 0x59D148C0);
    assert Rounds(h, block, 6) == Hash(0x96B85189, 0x33F4AE5B, 0x0B13DBAB, 0x9442644E, 0xBAFCED14);
    assert Rounds(h, block, 8) == Hash(0x45833F0F, 0xDB04CB58, 0x65AE1462, 0xCCFD2B96, 0x0B13DBAB);
    assert Rounds(h, block, 10) == Hash(0x6350AFDA, 0xC565C35E, 0xD160CFC3, 0x36C132D6, 0x65AE1462);
    assert Rounds(h, block, 12) == Hash(0xE19ECAA2, 0x8993EA77, 0x98D42BF6, 0xB15970D7, 0xD160CFC3);
    assert Rounds(h, block, 14) == Hash(0x32F94A85, 0x8603481E, 0xB867B2A8, 0xE264FA9D, 0x98D42BF6);
  }

  lemma FirstRounds16(h: Hash, block: seq<byte>)
    requires Has(block, 16, FirstWords1)
    requires Rounds(h, block, 16) == Hash(0x42637E39, 0xB2E7A8BE, 0x4CBE52A1, 0xA180D207, 0xB867B2A8)
    ensures Rounds(h, block, 32) == Hash(0x52E31F60, 0xA9C84BEC, 0x816D15EC, 0x78448908, 0x3549A991)
  {
    hide Schedule;
    WordsAre(block, 16, FirstWords1);
    assert Rounds(h, block, 18) == Hash(0x426B9C35, 0x6B068048, 0x5098DF8E, 0xACB9EA2F, 0x4CBE52A1);
    assert Rounds(h, block, 20) == Hash(0x6C445652, 0x944B1BD1, 0x509AE70D, 0x1AC1A012, 0x5098DF8E);
    assert Rounds(h, block, 22) == Hash(0x09511177, 0x95836DA5, 0x9B111594, 0x6512C6F4, 0x509AE70D);
    assert Rounds(h, block, 24) == Hash(0xFD224575, 0xE2B92DC4, 0xC254445D, 0x6560DB69, 0x9B111594);
    assert Rounds(h, block, 26) == Hash(0x5A142C1A, 0xEEB82D9A, 0x7F48915D, 0x38AE4B71, 0xC254445D);
    assert Rounds(h, block, 28) == Hash(0xD526A644, 0x2972F7C7, 0x96850B06, 0xBBAE0B66, 0x7F48915D);
    assert Rounds(h, block, 30) == Hash(0x05B457B2, 0xE1122421, 0x3549A991, 0xCA5CBDF1, 0x96850B06);
  }

  lemma FirstRounds32(h: Hash, block: seq<byte>)
    requires Has(block, 32, FirstWords2)
    requires Rounds(h, block, 32) == Hash(0x52E31F60, 0xA9C84BEC, 0x816D15EC, 0x78448908, 0x3549A991)
    ensures Rounds(h, block, 48) == Hash(0xC8A69090, 0xA2AD4F02, 0xB1BA8907, 0x26307A99, 0x58CFA558)
  {
    hide Schedule;
    WordsAre(block, 32, FirstWords2);
    assert Rounds(h, block, 34) == Hash(0x31C756A9, 0x5AF3242C, 0x14B8C7D8, 0x2A7212FB, 0x816D15EC);
    assert Rounds(h, block, 36) == Hash(0xAB7C32EE, 0xE9AC987C, 0x4C71D5AA, 0x16BCC90B, 0x14B8C7D8);
    assert Rounds(h, block, 38) == Hash(0x43F87AE9, 0x5933FC99, 0xAADF0CBB, 0x3A6B261F, 0x4C71D5AA);
    assert Rounds(h, block, 40) == Hash(0xADEB7478, 0x24957F22, 0x50FE1EBA, 0x564CFF26, 0xAADF0CBB);
    assert Rounds(h, block, 42) == Hash(0x79BCFB08, 0xD70E5010, 0x2B7ADD1E, 0x89255FC8, 0x50FE1EBA);
    assert Rounds(h, block, 44) == Hash(0x633E9561, 0xF9BCB8DE, 0x1E6F3EC2, 0x35C39404, 0x2B7ADD1E);
    assert Rounds(h, block, 46) == Hash(0xC6EA241E, 0x98C1EA64, 0x58CFA558, 0xBE6F2E37, 0x1E6F3EC2);
  }

  lemma FirstRounds48(h: Hash, block: seq<byte>)
    requires Has(block, 48, FirstWords3)
    requires Rounds(h, block, 48) == Hash(0xC8A69090, 0xA2AD4F02, 0xB1BA8907, 0x26307A99, 0x58CFA558)
    ensures Rounds(h, block, 64) == Hash(0x513F9CA0, 0x2BFAF7A8, 0x10203537, 0xCD8952C4, 0xE7BDDD70)
  {
    hide Schedule;
    WordsAre(block, 48, FirstWords3);
    assert Rounds(h, block, 50) == Hash(0x7E846F58, 0x88341600, 0x3229A424, 0xA8AB53C0, 0xB1BA8907);
    assert Rounds(h, block, 52) == Hash(0x8D2E76C8, 0x86E358BA, 0x1FA11BD6, 0x220D0580, 0x3229A424);
    assert Rounds(h, block, 54) == Hash(0xEDEA95B1, 0xCE892E10, 0x234B9DB2, 0xA1B8D62E, 0x1FA11BD6);
    assert Rounds(h, block, 56) == Hash(0x776C3910, 0x36D1230A, 0x7B7AA56C, 0x33A24B84, 0x234B9DB2);
    assert Rounds(h, block, 58) == Hash(0xAC0A794F, 0xA681B723, 0x1DDB0E44, 0x8DB448C2, 0x7B7AA56C);
    assert Rounds(h, block, 60) == Hash(0x9EF775C3, 0xF03D3782, 0xEB029E53, 0xE9A06DC8, 0x1DDB0E44);
    assert Rounds(h, block, 62) == Hash(0x4080D4DC, 0x36254B13, 0xE7BDDD70, 0xBC0F4DE0, 0xEB029E53);
  }

  lemma FirstRounds64(h: Hash, block: seq<byte>)
    requires Has(block, 64, FirstWords4)
    requires Rounds(h, block, 64) == Hash(0x513F9CA0, 0x2BFAF7A8, 0x10203537, 0xCD8952C4, 0xE7BDDD70)
    ensures Rounds(h, block, 80) == Hash(0x8CE34517, 0xD3AD7C25, 0x6B4E1883, 0x74351CD2, 0x86838382)
  {
    hide Schedule;
    WordsAre(block, 64, FirstWords4);
    assert Rounds(h, block, 66) == Hash(0x1037D2D5, 0xE5895C81, 0x144FE728, 0x0AFEBDEA, 0x10203537);
    assert Rounds(h, block, 68) == Hash(0x6D17C9FD, 0x14A82DA9, 0x440DF4B5, 0x79625720, 0x144FE728);
    assert Rounds(h, block, 70) == Hash(0xFDF6EFFF, 0x2C7B07BD, 0x5B45F27F, 0x452A0B6A, 0x440DF4B5);
    assert Rounds(h, block, 72) == Hash(0x84065712, 0x112B96E3, 0xFF7DBBFF, 0x4B1EC1EF, 0x5B45F27F);
    assert Rounds(h, block, 74) == Hash(0xC5210E35, 0xAB89FB71, 0xA10195C4, 0xC44AE5B8, 0xFF7DBBFF);
    assert Rounds(h, block, 76) == Hash(0x1A0E0E0A, 0x352D9F4B, 0x7148438D, 0x6AE27EDC, 0xA10195C4);
    assert Rounds(h, block, 78) == Hash(0xAD38620D, 0xD0D47349, 0x86838382, 0xCD4B67D2, 0x7148438D);
  }

  lemma FirstSchedule16()
    ensures Next16(FirstWords0 + FirstWords1)
  {
  }

  lemma FirstSchedule32()
    ensures Next16(FirstWords1 + FirstWords2)
  {
  }

  lemma FirstSchedule48()
    ensures Next16(FirstWords2 + FirstWords3)
  {
  }

  lemma FirstSchedule64()
    ensures Next16(FirstWords3 + FirstWords4)
  {
  }

  lemma FirstStart0()
    ensures Reads(FirstBytes0, 0x61626364, 0x62636465, 0x63646566, 0x64656667)
  {
  }

  lemma FirstStart1()
    ensures Reads(FirstBytes1, 0x65666768, 0x66676869, 0x6768696A, 0x68696A6B)
  {
  }

  lemma FirstStart2()
    ensures Reads(FirstBytes2, 0x696A6B6C, 0x6A6B6C6D, 0x6B6C6D6E, 0x6C6D6E6F)
  {
  }

  lemma FirstStart3()
    ensures Reads(FirstBytes3, 0x6D6E6F70, 0x6E6F7071, 0x80000000, 0x00000000)
  {
  }

  lemma FirstHas()
    ensures |First| == BLOCK && Has(First, 0, FirstWords0)
  {
    hide Reads, Has;
    FirstStart0();
    FirstStart1();
    FirstStart2();
    FirstStart3();
    HasFirst(FirstBytes0, FirstBytes1, FirstBytes2, FirstBytes3, FirstWords0);
  }

  lemma FirstSum(h: Hash)
    requires h == Hash(0x67452301, 0xEFCDAB89, 0x98BADCFE, 0x10325476, 0xC3D2E1F0)
    ensures Sum(h, Hash(0x8CE34517, 0xD3AD7C25, 0x6B4E1883, 0x74351CD2, 0x86838382))
      == Hash(0xF4286818, 0xC37B27AE, 0x0408F581, 0x84677148, 0x4A566572)
  {
  }

  lemma FirstCompressed(h: Hash)
    requires h == Hash(0x67452301, 0xEFCDAB89, 0x98BADCFE, 0x10325476, 0xC3D2E1F0)
    ensures Compressed(h, First) == Hash(0xF4286818, 0xC37B27AE, 0x0408F581, 0x84677148, 0x4A566572)
  {
    hide *;
    FirstHas();
    NoRounds(h, First);
    FirstSchedule16();
    HasNext(First, 0, FirstWords0, FirstWords1);
    FirstSchedule32();
    HasNext(First, 16, FirstWords1, FirstWords2);
    FirstSchedule48();
    HasNext(First, 32, FirstWords2, FirstWords3);
    FirstSchedule64();
    HasNext(First, 48, FirstWords3, FirstWords4);
    FirstRounds0(h, First);
    FirstRounds16(h, First);
    FirstRounds32(h, First);
    FirstRounds48(h, First);
    FirstRounds64(h, First);
    FirstSum(h);
    AllRounds(h, First);
  }

  // ----- The second of two blocks -----

  const SecondBytes0: seq<byte> := [
    0x00, 0x00, 0x00, 0x00, 0x00, 0x00, 0x00, 0x00, 0x00, 0x00, 0x00, 0x00, 0x00, 0x00, 0x00, 0x00]
  const SecondBytes1: seq<byte> := [
    0x00, 0x00, 0x00, 0x00, 0x00, 0x00, 0x00, 0x00, 0x00, 0x00, 0x00, 0x00, 0x00, 0x00, 0x00, 0x00]
  const SecondBytes2: seq<byte> := [
    0x00, 0x00, 0x00, 0x00, 0x00, 0x00, 0x00, 0x00, 0x00, 0x00, 0x00, 0x00, 0x00, 0x00, 0x00, 0x00]
  const SecondBytes3: seq<byte> := [
    0x00, 0x00, 0x00, 0x00, 0x00, 0x00, 0x00, 0x00, 0x00, 0x00, 0x00, 0x00, 0x00, 0x00, 0x01, 0xC0]
  const Second: seq<byte> := SecondBytes0 + SecondBytes1 + SecondBytes2 + SecondBytes3

  const SecondWords0: seq<word> := [
    0x00000000, 0x00000000, 0x00000000, 0x00000000, 0x00000000, 0x00000000, 0x00000000, 0x00000000,
    0x00000000, 0x00000000, 0x00000000, 0x00000000, 0x00000000, 0x00000000, 0x00000000, 0x000001C0]
  const SecondWords1: seq<word> := [
    0x00000000, 0x00000000, 0x00000380, 0x00000000, 0x00000000, 0x00000700, 0x00000000, 0x00000380,
    0x00000E00, 0x00000000, 0x00000000, 0x00001C00, 0x00000000, 0x00000D80, 0x00003800, 0x00000480]
  const SecondWords2: seq<word> := [
    0x00000000, 0x00007000, 0x00000E00, 0x00003600, 0x0000E000, 0x00000E00, 0x00000000, 0x0001CE00,
    0x00000000, 0x0000D800, 0x00038000, 0x00004F00, 0x00000000, 0x00070E00, 0x0000EE00, 0x00037500]
  const SecondWords3: seq<word> := [
    0x000E0000, 0x0000E000, 0x00003600, 0x001CEE00, 0x00000000, 0x000DF000, 0x00380000, 0x0004C600,
    0x0000E000, 0x0070EE00, 0x000EE000, 0x00369E00, 0x00E00000, 0x000ED600, 0x0000E000, 0x01CEA600]
  const SecondWords4: seq<word> := [
    0x00000000, 0x00D80000, 0x0380E000, 0x004F0000, 0x00000000, 0x070E0000, 0x00EE0000, 0x03751C00,
    0x0E000000, 0x00E0E000, 0x00363800, 0x1CEE9000, 0x00000000, 0x0DF09000, 0x3800E000, 0x04C77400]

  lemma SecondRounds0(h: Hash, block: seq<byte>)
    requires Has(block, 0, SecondWords0)
    requires Rounds(h, block, 0) == Hash(0xF4286818, 0xC37B27AE, 0x0408F581, 0x84677148, 0x4A566572)
    ensures Rounds(h, block, 16) == Hash(0xD9772360, 0x258B0BAA, 0x2898132A, 0xFFB35EEF, 0xD0E89E4B)
  {
    hide Schedule;
    WordsAre(block, 0, SecondWords0);
    assert Rounds(h, block, 2) == Hash(0x4D3DC58F, 0x2DF257E9, 0x3D0A1A06, 0xB0DEC9EB, 0x0408F581);
    assert Rounds(h, block, 4) == Hash(0xEEF743C6, 0xC352BB05, 0xD34F7163, 0x4B7C95FA, 0x3D0A1A06);
    assert Rounds(h, block, 6) == Hash(0x5443915C, 0x41E34277, 0xBBBDD0F1, 0x70D4AEC1, 0xD34F7163);
    assert Rounds(h, block, 8) == Hash(0xC6946813, 0xE7FA0377, 0x1510E457, 0xD078D09D, 0xBBBDD0F1);
    assert Rounds(h, block, 10) == Hash(0xB8538ACA, 0xFDDE1DE1, 0xF1A51A04, 0xF9FE80DD, 0x1510E457);
    assert Rounds(h, block, 12) == Hash(0x43A2792F, 0x6BA94F63, 0xAE14E2B2, 0x7F778778, 0xF1A51A04);
    assert Rounds(h, block, 14) == Hash(0xA2604CA8, 0xFECD7BBF, 0xD0E89E4B, 0xDAEA53D8, 0xAE14E2B2);
  }

  lemma SecondRounds16(h: Hash, block: seq<byte>)
    requires Has(block, 16, SecondWords1)
    requires Rounds(h, block, 16) == Hash(0xD9772360, 0x258B0BAA, 0x2898132A, 0xFFB35EEF, 0xD0E89E4B)
    ensures Rounds(h, block, 32) == Hash(0x8A4AF384, 0x17986223, 0x028BEC42, 0xC90A6F97, 0xD7105B6B)
  {
    hide Schedule;
    WordsAre(block, 16, SecondWords1);
    assert Rounds(h, block, 18) == Hash(0xA51B58BC, 0x5507DB6E, 0x365DC8D8, 0x8962C2EA, 0x2898132A);
    assert Rounds(h, block, 20) == Hash(0xD8992153, 0xC2EB709F, 0x2946D62F, 0x9541F6DB, 0x365DC8D8);
    assert Rounds(h, block, 22) == Hash(0xEE8700BD, 0x37482F5F, 0xF6264854, 0xF0BADC27, 0x2946D62F);
    assert Rounds(h, block, 24) == Hash(0x8FBAA5B9, 0x9AD594B9, 0x7BA1C02F, 0xCDD20BD7, 0xF6264854);
    assert Rounds(h, block, 26) == Hash(0xEEC50521, 0x88FB5867, 0x63EEA96E, 0x66B5652E, 0x7BA1C02F);
    assert Rounds(h, block, 28) == Hash(0x5C416DAF, 0x50BCE434, 0x7BB14148, 0xE23ED619, 0x63EEA96E);
    assert Rounds(h, block, 30) == Hash(0x0A2FB108, 0x2429BE5F, 0xD7105B6B, 0x142F390D, 0x7BB14148);
  }

  lemma SecondRounds32(h: Hash, block: seq<byte>)
    requires Has(block, 32, SecondWords2)
    requires Rounds(h, block, 32) == Hash(0x8A4AF384, 0x17986223, 0x028BEC42, 0xC90A6F97, 0xD7105B6B)
    ensures Rounds(h, block, 48) == Hash(0x46F93B68, 0x7316056A, 0xB0F40CFA, 0xCF2BB5EB, 0x7B074F58)
  {
    hide Schedule;
    WordsAre(block, 32, SecondWords2);
    assert Rounds(h, block, 34) == Hash(0xF15F04F3, 0x6B629993, 0x2292BCE1, 0xC5E61888, 0x028BEC42);
    assert Rounds(h, block, 36) == Hash(0x696DA404, 0x295CC25B, 0xFC57C13C, 0xDAD8A664, 0x2292BCE1);
    assert Rounds(h, block, 38) == Hash(0x87D5B80C, 0xCEF5AE12, 0x1A5B6901, 0xCA573096, 0xFC57C13C);
    assert Rounds(h, block, 40) == Hash(0x03BB6310, 0x84E2A5F2, 0x21F56E03, 0xB3BD6B84, 0x1A5B6901);
    assert Rounds(h, block, 42) == Hash(0xBFB25768, 0xC2D8F75F, 0x00EED8C4, 0xA138A97C, 0x21F56E03);
    assert Rounds(h, block, 44) == Hash(0xEC1D3D61, 0x28589152, 0x2FEC95DA, 0xF0B63DD7, 0x00EED8C4);
    assert Rounds(h, block, 46) == Hash(0xC3D033EA, 0x3CAED7AF, 0x7B074F58, 0x8A162454, 0x2FEC95DA);
  }

  lemma SecondRounds48(h: Hash, block: seq<byte>)
    requires Has(block, 48, SecondWords3)
    requires Rounds(h, block, 48) == Hash(0x46F93B68, 0x7316056A, 0xB0F40CFA, 0xCF2BB5EB, 0x7B074F58)
    ensures Rounds(h, block, 64) == Hash(0xD504902B, 0xF66D9BF4, 0x24D85327, 0xDEAAC406, 0xE996063D)
  {
    hide Schedule;
    WordsAre(block, 48, SecondWords3);
    assert Rounds(h, block, 50) == Hash(0x850D411C, 0xDC8E7F26, 0x11BE4EDA, 0x9CC5815A, 0xB0F40CFA);
    assert Rounds(h, block, 52) == Hash(0x89FBD41D, 0x7E4672C0, 0x21435047, 0xB7239FC9, 0x11BE4EDA);
    assert Rounds(h, block, 54) == Hash(0x431D65BC, 0x1797E228, 0x627EF507, 0x1F919CB0, 0x21435047);
    assert Rounds(h, block, 56) == Hash(0x6DA72E7F, 0x2BDBB8CB, 0x10C7596F, 0x05E5F88A, 0x627EF507);
    assert Rounds(h, block, 58) == Hash(0xE785655A, 0xA8495A9B, 0xDB69CB9F, 0xCAF6EE32, 0x10C7596F);
    assert Rounds(h, block, 60) == Hash(0xA65818F7, 0x5B086C42, 0xB9E15956, 0xEA1256A6, 0xDB69CB9F);
    assert Rounds(h, block, 62) == Hash(0x93614C9C, 0x7AAB101B, 0xE996063D, 0x96C21B10, 0xB9E15956);
  }

  lemma SecondRounds64(h: Hash, block: seq<byte>)
    requires Has(block, 64, SecondWords4)
    requires Rounds(h, block, 64) == Hash(0xD504902B, 0xF66D9BF4, 0x24D85327, 0xDEAAC406, 0xE996063D)
    ensures Rounds(h, block, 80) == Hash(0x906FD62C, 0x58C0AAC0, 0xB6A55520, 0x74E9B89D, 0x9AF00B7F)
  {
    hide Schedule;
    WordsAre(block, 64, SecondWords4);
    assert Rounds(h, block, 66) == Hash(0x8B687819, 0x60A9DA62, 0xF541240A, 0x3D9B66FD, 0x24D85327);
    assert Rounds(h, block, 68) == Hash(0xF6226BBF, 0x083E90C3, 0x62DA1E06, 0x982A7698, 0xF541240A);
    assert Rounds(h, block, 70) == Hash(0x989DD165, 0x76C0563B, 0xFD889AEF, 0xC20FA430, 0x62DA1E06);
    assert Rounds(h, block, 72) == Hash(0xAE1B8E7B, 0x8B2C7573, 0x66277459, 0xDDB0158E, 0xFD889AEF);
    assert Rounds(h, block, 74) == Hash(0x16F3BABB, 0xCA1840DE, 0xEB86E39E, 0xE2CB1D5C, 0x66277459);
    assert Rounds(h, block, 76) == Hash(0x6BC02DFE, 0xD28D83AD, 0xC5BCEEAE, 0xB2861037, 0xEB86E39E);
    assert Rounds(h, block, 78) == Hash(0xDA955482, 0xD3A6E275, 0x9AF00B7F, 0x74A360EB, 0xC5BCEEAE);
  }

  lemma SecondSchedule16()
    ensures Next16(SecondWords0 + SecondWords1)
  {
  }

  lemma SecondSchedule32()
    ensures Next16(SecondWords1 + SecondWords2)
  {
  }

  lemma SecondSchedule48()
    ensures Next16(SecondWords2 + SecondWords3)
  {
  }

  lemma SecondSchedule64()
    ensures Next16(SecondWords3 + SecondWords4)
  {
  }

  lemma SecondStart0()
    ensures Reads(SecondBytes0, 0x00000000, 0x00000000, 0x00000000, 0x00000000)
  {
  }

  lemma SecondStart1()
    ensures Reads(SecondBytes1, 0x00000000, 0x00000000, 0x00000000, 0x00000000)
  {
  }

  lemma SecondStart2()
    ensures Reads(SecondBytes2, 0x00000000, 0x00000000, 0x00000000, 0x00000000)
  {
  }

  lemma SecondStart3()
    ensures Reads(SecondBytes3, 0x00000000, 0x00000000, 0x00000000, 0x000001C0)
  {
  }

  lemma SecondHas()
    ensures |Second| == BLOCK && Has(Second, 0, SecondWords0)
  {
    hide Reads, Has;
    SecondStart0();
    SecondStart1();
    SecondStart2();
    SecondStart3();
    HasFirst(SecondBytes0, SecondBytes1, SecondBytes2, SecondBytes3, SecondWords0);
  }

  lemma SecondSum(h: Hash)
    requires h == Hash(0xF4286818, 0xC37B27AE, 0x0408F581, 0x84677148, 0x4A566572)
    ensures Sum(h, Hash(0x906FD62C, 0x58C0AAC0, 0xB6A55520, 0x74E9B89D, 0x9AF00B7F))
      == Hash(0x84983E44, 0x1C3BD26E, 0xBAAE4AA1, 0xF95129E5, 0xE54670F1)
  {
  }

  lemma SecondCompressed(h: Hash)
    requires h == Hash(0xF4286818, 0xC37B27AE, 0x0408F581, 0x84677148, 0x4A566572)
    ensures Compressed(h, Second) == Hash(0x84983E44, 0x1C3BD26E, 0xBAAE4AA1, 0xF95129E5, 0xE54670F1)
  {
    hide *;
    SecondHas();
    NoRounds(h, Second);
    SecondSchedule16();
    HasNext(Second, 0, SecondWords0, SecondWords1);
    SecondSchedule32();
    HasNext(Second, 16, SecondWords1, SecondWords2);
    SecondSchedule48();
    HasNext(Second, 32, SecondWords2, SecondWords3);
    SecondSchedule64();
    HasNext(Second, 48, SecondWords3, SecondWords4);
    SecondRounds0(h, Second);
    SecondRounds16(h, Second);
    SecondRounds32(h, Second);
    SecondRounds48(h, Second);
    SecondRounds64(h, Second);
    SecondSum(h);
    AllRounds(h, Second);
  }

  // ----- Padding and digest -----

  lemma {:induction false} ZeroIsZeros(k: nat)
    ensures ToBigEndian(0, k) == Zeros(k)
  {
    if k > 0 {
      ZeroIsZeros(k - 1);
      LowByteIs(0, 0);
    }
  }

  lemma LowByteIs(n: nat, b: byte)
    requires n % 256 == b as nat
    ensures LowByte(n) == b
  {
    hide LowByte;
    assert LowByte(n) as nat == b as nat;
  }

  // A length below 2^16.
  lemma LengthBytes(n: nat, high: byte, low: byte)
    requires n == high as nat * 256 + low as nat
    ensures ToBigEndian(n, 8) == Zeros(6) + [high, low]
  {
    hide LowByte;
    LowByteIs(n, low);
    assert n / 256 == high as nat;
    LowByteIs(n / 256, high);
    assert n / 256 / 256 == 0;
    ZeroIsZeros(6);
    assert ToBigEndian(n, 8) == ToBigEndian(n / 256 / 256, 6) + [LowByte(n / 256)] + [LowByte(n)];
  }

  predicate BytesOf(w: word, bytes: seq<byte>) {
    && |bytes| == 4
    && WordByte(w, 0) == bytes[0] && WordByte(w, 1) == bytes[1] && WordByte(w, 2) == bytes[2] && WordByte(w, 3) == bytes[3]
  }

  lemma DigestIs(h: Hash, a: seq<byte>, b: seq<byte>, c: seq<byte>, d: seq<byte>, e: seq<byte>)
    requires BytesOf(h.a, a) && BytesOf(h.b, b) && BytesOf(h.c, c) && BytesOf(h.d, d) && BytesOf(h.e, e)
    ensures Digest(h) == a + b + c + d + e
  {
    hide WordByte;
    PartIs(h, 0, a);
    PartIs(h, 1, b);
    PartIs(h, 2, c);
    PartIs(h, 3, d);
    PartIs(h, 4, e);
    hide *;
    InFours(Digest(h));
  }

  lemma InFours(s: seq<byte>)
    requires |s| == 20
    ensures s == s[0..4] + s[4..8] + s[8..12] + s[12..16] + s[16..20]
  {
  }

  lemma PartIs(h: Hash, k: nat, bytes: seq<byte>)
    requires k < 5 && BytesOf(Part(h, k), bytes)
    ensures |Digest(h)| == 20 && Digest(h)[4 * k..4 * k + 4] == bytes
  {
    hide WordByte;
    forall i | 0 <= i < 4 ensures Digest(h)[4 * k + i] == bytes[i] {
      assert (4 * k + i) / 4 == k && (4 * k + i) % 4 == i;
    }
  }

  lemma LastBlock(blocks: seq<byte>, block: seq<byte>)
    requires |blocks| % BLOCK == 0 && |block| == BLOCK
    ensures HashBlocks(blocks + block) == Compressed(HashBlocks(blocks), block)
  {
    hide Compressed;
    var all := blocks + block;
    assert all[..|all| - BLOCK] == blocks && all[|all| - BLOCK..] == block;
  }

  lemma AbcDigest()
    ensures Digest(Hash(0xA9993E36, 0x4706816A, 0xBA3E2571, 0x7850C26C, 0x9CD0D89D))
      == [0xA9, 0x99, 0x3E, 0x36]
         + [0x47, 0x06, 0x81, 0x6A]
         + [0xBA, 0x3E, 0x25, 0x71]
         + [0x78, 0x50, 0xC2, 0x6C]
         + [0x9C, 0xD0, 0xD8, 0x9D]
  {
    hide Digest;
    DigestIs(Hash(0xA9993E36, 0x4706816A, 0xBA3E2571, 0x7850C26C, 0x9CD0D89D),
             [0xA9, 0x99, 0x3E, 0x36], [0x47, 0x06, 0x81, 0x6A], [0xBA, 0x3E, 0x25, 0x71],
             [0x78, 0x50, 0xC2, 0x6C], [0x9C, 0xD0, 0xD8, 0x9D]);
  }

  lemma SecondDigest()
    ensures Digest(Hash(0x84983E44, 0x1C3BD26E, 0xBAAE4AA1, 0xF95129E5, 0xE54670F1))
      == [0x84, 0x98, 0x3E, 0x44]
         + [0x1C, 0x3B, 0xD2, 0x6E]
         + [0xBA, 0xAE, 0x4A, 0xA1]
         + [0xF9, 0x51, 0x29, 0xE5]
         + [0xE5, 0x46, 0x70, 0xF1]
  {
    hide Digest;
    DigestIs(Hash(0x84983E44, 0x1C3BD26E, 0xBAAE4AA1, 0xF95129E5, 0xE54670F1),
             [0x84, 0x98, 0x3E, 0x44], [0x1C, 0x3B, 0xD2, 0x6E], [0xBA, 0xAE, 0x4A, 0xA1],
             [0xF9, 0x51, 0x29, 0xE5], [0xE5, 0x46, 0x70, 0xF1]);
  }

  // ----- The digests -----

  lemma HashIs(message: seq<byte>)
    ensures |Padded(message)| % BLOCK == 0 && HashOf(message) == Digest(HashBlocks(Padded(message)))
  {
    hide Padded, HashBlocks, Digest;
    PaddedIsBlocks(message);
  }

  // "abc"
  const Message1: seq<byte> := [0x61, 0x62, 0x63]

  lemma Padded1()
    ensures Padded(Message1) == [] + Abc
  {
    hide ToBigEndian;
    LengthBytes(24, 0, 24);
    assert AbcBytes0 == Message1 + [0x80] + Zeros(12) && AbcBytes1 == Zeros(16) && AbcBytes2 == Zeros(16);
    assert AbcBytes3 == Zeros(8) + (Zeros(6) + [0, 24]);
    hide Zeros;
    ZerosInParts(12, 16);
    ZerosInParts(28, 16);
    ZerosInParts(44, 8);
  }

  lemma ZerosInParts(m: nat, n: nat)
    ensures Zeros(m + n) == Zeros(m) + Zeros(n)
  {
  }

  /** The digest of "abc", in section A.1 of the examples of FIPS 180. */
  lemma DigestOfAbc()
    ensures HashOf(Message1)
      == [0xA9, 0x99, 0x3E, 0x36]
         + [0x47, 0x06, 0x81, 0x6A]
         + [0xBA, 0x3E, 0x25, 0x71]
         + [0x78, 0x50, 0xC2, 0x6C]
         + [0x9C, 0xD0, 0xD8, 0x9D]
  {
    hide *;
    Padded1();
    HashIs(Message1);
    NothingHashed();
    AbcHas();
    LastBlock([], Abc);
    Initial();
    AbcCompressed(INITIAL);
    AbcDigest();
  }

  lemma Initial()
    ensures INITIAL == Hash(0x67452301, 0xEFCDAB89, 0x98BADCFE, 0x10325476, 0xC3D2E1F0) && 0 % BLOCK == 0
  {
  }

  // "abcdbcdecdefdefgefghfghighijhijkijkljklmklmnlmnomnopnopq"
  const Message2: seq<byte> := FirstBytes0 + FirstBytes1 + FirstBytes2 + [0x6D, 0x6E, 0x6F, 0x70, 0x6E, 0x6F, 0x70, 0x71]

  lemma Padded2()
    ensures Padded(Message2) == First + Second
  {
    hide ToBigEndian;
    LengthBytes(448, 1, 0xC0);
    assert FirstBytes3 == [0x6D, 0x6E, 0x6F, 0x70, 0x6E, 0x6F, 0x70, 0x71] + [0x80] + Zeros(7);
    assert SecondBytes0 + SecondBytes1 + SecondBytes2 + SecondBytes3 == Zeros(56) + (Zeros(6) + [1, 0xC0]);
    hide Zeros;
    ZerosInParts(7, 56);
  }

  /** The digest of the message of two blocks. */
  lemma DigestOfTwoBlocks()
    ensures HashOf(Message2)
      == [0x84, 0x98, 0x3E, 0x44]
         + [0x1C, 0x3B, 0xD2, 0x6E]
         + [0xBA, 0xAE, 0x4A, 0xA1]
         + [0xF9, 0x51, 0x29, 0xE5]
         + [0xE5, 0x46, 0x70, 0xF1]
  {
    hide *;
    Padded2();
    HashIs(Message2);
    NothingHashed();
    FirstHas();
    SecondHas();
    Initial();
    LastBlock([], First);
    LastBlock([] + First, Second);
    assert [] + First == First;
    FirstCompressed(INITIAL);
    SecondCompressed(HashBlocks(First));
    SecondDigest();
  }
}
