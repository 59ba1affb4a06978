/** Carries the boundary between displayed and undisplayed words into a revised hypothesis. */
module CommittedBoundary {
  import opened Common
  import opened Arithmetic

  datatype Tag = Equal | Replace | Delete | Insert

  // One block of an alignment: source[i1..i2] became target[j1..j2].
  datatype Opcode = Opcode(tag: Tag, i1: nat, i2: nat, j1: nat, j2: nat)

  predicate BlockShape(op: Opcode) {
    match op.tag
    case Equal => op.i1 < op.i2 && op.i2 - op.i1 == op.j2 - op.j1
    case Replace => op.i1 < op.i2 && op.j1 < op.j2
    case Delete => op.i1 < op.i2 && op.j1 == op.j2
    case Insert => op.i1 == op.i2 && op.j1 < op.j2
  }

  /** The blocks tile source[i..n] and target[j..m] from left to right. */
  predicate Tiles(ops: seq<Opcode>, i: nat, j: nat, n: nat, m: nat) {
    if ops == [] then i == n && j == m
    else
      var op := ops[0];
      && BlockShape(op) && op.i1 == i && op.j1 == j
      && Tiles(ops[1..], op.i2, op.j2, n, m)
  }

  // x / y rounded up.
  function CeilDiv(x: nat, y: nat): nat
    requires y > 0
  {
    (x + y - 1) / y
  }

  // The place of a boundary that lies in the block, after its first word.
  function MapInBlock(op: Opcode, boundary: nat): nat
    requires BlockShape(op) && op.i1 < boundary <= op.i2
  {
    var consumed := boundary - op.i1;
    if op.tag.Equal? then op.j1 + consumed
    else if op.tag.Delete? then op.j1
    else if boundary == op.i2 then op.j2
    else Min(op.j2, op.j1 + CeilDiv(consumed * (op.j2 - op.j1), op.i2 - op.i1))
  }

  /** Where a boundary after `boundary` source words falls in the target. */
  function MapFrom(ops: seq<Opcode>, i: nat, j: nat, n: nat, m: nat, boundary: nat): nat
    requires Tiles(ops, i, j, n, m) && i <= boundary <= n
  {
    if ops == [] || (boundary == i && !ops[0].tag.Insert?) then j
    else if ops[0].tag.Insert? || boundary > ops[0].i2 then MapFrom(ops[1..], ops[0].i2, ops[0].j2, n, m, boundary)
    else MapInBlock(ops[0], boundary)
  }

  function MapBoundary(ops: seq<Opcode>, n: nat, m: nat, committed: int): nat
    requires Tiles(ops, 0, 0, n, m)
  {
    var boundary := if committed < 0 then 0 else Min(committed, n);
    if boundary == 0 then 0 else MapFrom(ops, 0, 0, n, m, boundary)
  }

  lemma {:induction false} TilesEnd(ops: seq<Opcode>, i: nat, j: nat, n: nat, m: nat)
    requires Tiles(ops, i, j, n, m)
    ensures i <= n && j <= m
  {
    if ops != [] {
      TilesEnd(ops[1..], ops[0].i2, ops[0].j2, n, m);
    }
  }

  /** The loop over the opcodes computes MapBoundary. */
  method MapCommittedWordBoundary(ops: seq<Opcode>, n: nat, m: nat, committed: int) returns (result: nat)
    requires Tiles(ops, 0, 0, n, m)
    ensures result == MapBoundary(ops, n, m, committed)
  {
    var boundary := if committed < 0 then 0 else Min(committed, n);
    if boundary == 0 || n == 0 {
      return 0;
    }
    var mapped: nat := 0;
    ghost var i: nat := 0;
    for k := 0 to |ops|
      invariant Tiles(ops[k..], i, mapped, n, m) && i <= boundary
      invariant MapFrom(ops[k..], i, mapped, n, m, boundary) == MapBoundary(ops, n, m, committed)
      invariant i == boundary ==> k > 0 && ops[k - 1].tag.Insert?
    {
      var op := ops[k];
      assert ops[k..][1..] == ops[k + 1..];
      if op.tag.Insert? {
        if op.i1 <= boundary {
          mapped := op.j2;
          i := op.i2;
          continue;
        }
        break;
      }
      if boundary < op.i1 {
        break;
      }
      if boundary == op.i1 {
        return Max(mapped, op.j1);
      }
      if boundary <= op.i2 {
        var consumed := boundary - op.i1;
        if op.tag.Equal? {
          return op.j1 + consumed;
        }
        if op.tag.Delete? {
          return op.j1;
        }
        var sourceSize := op.i2 - op.i1;
        var targetSize := op.j2 - op.j1;
        if boundary == op.i2 || sourceSize <= 0 {
          return op.j2;
        }
        var mappedInside := (consumed * targetSize + sourceSize - 1) / sourceSize;
        return Min(op.j2, op.j1 + mappedInside);
      }
      mapped := op.j2;
      i := op.i2;
    }
    result := Min(mapped, m);
  }

  // The rounded-up share of a block's words grows with the words consumed and never exceeds the block.
  lemma ShareIsMonotone(c: nat, c': nat, target: nat, source: nat)
    requires c <= c' <= source && source > 0
    ensures CeilDiv(c * target, source) <= CeilDiv(c' * target, source) <= target
  {
    var top := source * target + source - 1;
    Product(c, c', target);
    Product(c', source, target);
    DivMonotone(c * target + source - 1, c' * target + source - 1, source);
    DivMonotone(c' * target + source - 1, top, source);
    assert (target + 1) * source == source * target + source;
    if top / source > target {
      Product(target + 1, top / source, source);
    }
  }

  lemma {:induction false} MapFromInRange(ops: seq<Opcode>, i: nat, j: nat, n: nat, m: nat, boundary: nat)
    requires Tiles(ops, i, j, n, m) && i <= boundary <= n
    ensures j <= MapFrom(ops, i, j, n, m, boundary) <= m
  {
    TilesEnd(ops, i, j, n, m);
    if ops != [] {
      var op := ops[0];
      TilesEnd(ops[1..], op.i2, op.j2, n, m);
      if op.tag.Insert? || boundary > op.i2 {
        MapFromInRange(ops[1..], op.i2, op.j2, n, m, boundary);
      } else if op.tag.Replace? {
        ShareIsMonotone(boundary - op.i1, op.i2 - op.i1, op.j2 - op.j1, op.i2 - op.i1);
      }
    }
  }

  lemma {:induction false} MapFromMonotone(ops: seq<Opcode>, i: nat, j: nat, n: nat, m: nat, b: nat, b': nat)
    requires Tiles(ops, i, j, n, m) && i <= b <= b' <= n
    ensures MapFrom(ops, i, j, n, m, b) <= MapFrom(ops, i, j, n, m, b')
  {
    MapFromInRange(ops, i, j, n, m, b');
    if ops != [] && (ops[0].tag.Insert? || b > i) {
      var op := ops[0];
      if op.tag.Insert? || b > op.i2 {
        MapFromMonotone(ops[1..], op.i2, op.j2, n, m, b, b');
      } else if b' > op.i2 {
        MapFromInRange(ops[1..], op.i2, op.j2, n, m, b');
        ShareIsMonotone(b - op.i1, op.i2 - op.i1, op.j2 - op.j1, op.i2 - op.i1);
      } else {
        ShareIsMonotone(b - op.i1, b' - op.i1, op.j2 - op.j1, op.i2 - op.i1);
      }
    }
  }

  /** The mapped boundary stays inside the revised text and never moves back when more words are committed. */
  lemma BoundaryIsMonotone(ops: seq<Opcode>, n: nat, m: nat, committed: int, committed': int)
    requires Tiles(ops, 0, 0, n, m) && committed <= committed'
    ensures MapBoundary(ops, n, m, committed) <= MapBoundary(ops, n, m, committed') <= m
  {
    if 0 < committed' && 0 < n {
      MapFromInRange(ops, 0, 0, n, m, Min(committed', n));
      if 0 < committed {
        MapFromMonotone(ops, 0, 0, n, m, Min(committed, n), Min(committed', n));
      }
    }
  }

  // ----- The image of every boundary -----

  /** The image p of a boundary b that lies in this block, its end included. A kept word takes its place over, a deleted
      block ends where it starts, and of a replaced one p has the least share that is no smaller than the displayed one:
      all of it for all of it. */
  predicate IsImage(op: Opcode, b: nat, p: nat)
    requires op.i1 < b <= op.i2
  {
    match op.tag
    case Equal => p - op.j1 == b - op.i1
    case Delete => p == op.j1
    case Insert => false
    case Replace =>
      && (p - op.j1 - 1) * (op.i2 - op.i1) < (b - op.i1) * (op.j2 - op.j1) <= (p - op.j1) * (op.i2 - op.i1)
      && op.j1 < p <= op.j2 && (b == op.i2 ==> p == op.j2)
  }

  // Rounding up gives the least such share.
  lemma LeastShare(x: nat, y: nat)
    requires x > 0 && y > 0
    ensures (CeilDiv(x, y) - 1) * y < x <= CeilDiv(x, y) * y
  {
    var c := CeilDiv(x, y);
    assert x + y - 1 == c * y + (x + y - 1) % y;
    assert (c - 1) * y == c * y - y;
  }

  lemma ShareOfReplaced(consumed: nat, target: nat, source: nat)
    requires 0 < consumed <= source && 0 < target
    ensures var c := CeilDiv(consumed * target, source);
      0 < c <= target && (c - 1) * source < consumed * target <= c * source
  {
    ShareIsMonotone(consumed, source, target, source);
    assert consumed * target > 0;
    LeastShare(consumed * target, source);
  }

  lemma WholeShare(target: nat, source: nat)
    requires source > 0
    ensures (target - 1) * source < source * target <= target * source
  {
    assert (target - 1) * source == target * source - source;
  }

  lemma ImageInBlock(op: Opcode, b: nat)
    requires BlockShape(op) && op.i1 < b <= op.i2
    ensures IsImage(op, b, MapInBlock(op, b))
  {
    if op.tag.Replace? {
      ShareOfReplaced(b - op.i1, op.j2 - op.j1, op.i2 - op.i1);
      WholeShare(op.j2 - op.j1, op.i2 - op.i1);
      hide CeilDiv;
    }
  }

  lemma {:induction false} ImageFrom(ops: seq<Opcode>, i: nat, j: nat, n: nat, m: nat, boundary: nat, k: nat)
    requires Tiles(ops, i, j, n, m) && i <= boundary <= n && k < |ops| && ops[k].i1 < boundary <= ops[k].i2
    ensures IsImage(ops[k], boundary, MapFrom(ops, i, j, n, m, boundary))
  {
    hide IsImage, MapInBlock;
    KeptBlockPlace(ops, i, j, n, m, k);
    if k > 0 {
      KeptBlockPlace(ops[1..], ops[0].i2, ops[0].j2, n, m, k - 1);
      ImageFrom(ops[1..], ops[0].i2, ops[0].j2, n, m, boundary, k - 1);
    } else {
      ImageInBlock(ops[0], boundary);
    }
  }

  // Every boundary behind the start lies in a block.
  lemma {:induction false} BlockOf(ops: seq<Opcode>, i: nat, j: nat, n: nat, m: nat, boundary: nat) returns (k: nat)
    requires Tiles(ops, i, j, n, m) && i < boundary <= n
    ensures k < |ops| && ops[k].i1 < boundary <= ops[k].i2
  {
    if boundary <= ops[0].i2 {
      k := 0;
    } else {
      k := BlockOf(ops[1..], ops[0].i2, ops[0].j2, n, m, boundary);
      k := k + 1;
    }
  }

  /** Where a committed boundary goes: a boundary of none stays there, every other one lies in one block, and goes to
      its image. */
  lemma BoundaryImage(ops: seq<Opcode>, n: nat, m: nat, committed: int) returns (k: nat)
    requires Tiles(ops, 0, 0, n, m)
    ensures var p, b := MapBoundary(ops, n, m, committed), Min(committed, n);
      if b <= 0 then p == 0 else k < |ops| && ops[k].i1 < b <= ops[k].i2 && IsImage(ops[k], b, p)
  {
    hide IsImage;
    var b := Min(committed, n);
    k := 0;
    if b > 0 {
      k := BlockOf(ops, 0, 0, n, m, b);
      ImageFrom(ops, 0, 0, n, m, b, k);
    }
  }

  lemma {:induction false} KeptWordSideFrom(ops: seq<Opcode>, i: nat, j: nat, n: nat, m: nat, boundary: nat,
                                            k: nat, word: nat)
    requires Tiles(ops, i, j, n, m) && i <= boundary <= n
    requires k < |ops| && ops[k].tag.Equal? && ops[k].i1 <= word < ops[k].i2
    ensures word < boundary <==> ops[k].j1 + word - ops[k].i1 < MapFrom(ops, i, j, n, m, boundary)
  {
    var op := ops[0];
    KeptBlockPlace(ops, i, j, n, m, k);
    if op.tag.Insert? || boundary > op.i2 {
      MapFromInRange(ops[1..], op.i2, op.j2, n, m, boundary);
      if k > 0 {
        KeptWordSideFrom(ops[1..], op.i2, op.j2, n, m, boundary, k - 1, word);
      }
    } else if k > 0 {
      KeptBlockPlace(ops[1..], op.i2, op.j2, n, m, k - 1);
      if boundary > op.i1 {
        ShareIsMonotone(boundary - op.i1, op.i2 - op.i1, op.j2 - op.j1, op.i2 - op.i1);
      }
    }
  }

  // Later blocks lie further right on both sides.
  lemma {:induction false} KeptBlockPlace(ops: seq<Opcode>, i: nat, j: nat, n: nat, m: nat, k: nat)
    requires Tiles(ops, i, j, n, m) && k < |ops|
    ensures i <= ops[k].i1 && j <= ops[k].j1
  {
    if k > 0 {
      KeptBlockPlace(ops[1..], ops[0].i2, ops[0].j2, n, m, k - 1);
    }
  }

  /** A word the revision keeps is behind the mapped boundary exactly when it was behind the old one:
      nothing displayed is shown again and nothing undisplayed is skipped. */
  lemma KeptWordSide(ops: seq<Opcode>, n: nat, m: nat, committed: int, k: nat, word: nat)
    requires Tiles(ops, 0, 0, n, m) && k < |ops|
    requires ops[k].tag.Equal? && ops[k].i1 <= word < ops[k].i2 <= n
    ensures word < committed <==> ops[k].j1 + word - ops[k].i1 < MapBoundary(ops, n, m, committed)
  {
    if 0 < committed {
      KeptWordSideFrom(ops, 0, 0, n, m, Min(committed, n), k, word);
    }
  }

  /** Words inserted right at a positive boundary stay undisplayed, unlike those inserted before it. */
  lemma {:induction false} InsertedBlockSideFrom(ops: seq<Opcode>, i: nat, j: nat, n: nat, m: nat, boundary: nat, k: nat)
    requires Tiles(ops, i, j, n, m) && i < boundary <= n
    requires k < |ops| && ops[k].tag.Insert?
    ensures if ops[k].i1 < boundary then ops[k].j2 <= MapFrom(ops, i, j, n, m, boundary)
            else MapFrom(ops, i, j, n, m, boundary) <= ops[k].j1
  {
    var op := ops[0];
    KeptBlockPlace(ops, i, j, n, m, k);
    if op.tag.Insert? || boundary > op.i2 {
      MapFromInRange(ops[1..], op.i2, op.j2, n, m, boundary);
      if k > 0 {
        InsertedBlockSideFrom(ops[1..], op.i2, op.j2, n, m, boundary, k - 1);
      }
    } else {
      KeptBlockPlace(ops[1..], op.i2, op.j2, n, m, k - 1);
      ShareIsMonotone(boundary - op.i1, op.i2 - op.i1, op.j2 - op.j1, op.i2 - op.i1);
    }
  }

  lemma InsertedBlockSide(ops: seq<Opcode>, n: nat, m: nat, committed: int, k: nat)
    requires Tiles(ops, 0, 0, n, m) && k < |ops| && ops[k].tag.Insert?
    ensures if ops[k].i1 < Min(committed, n) then ops[k].j2 <= MapBoundary(ops, n, m, committed)
            else MapBoundary(ops, n, m, committed) <= ops[k].j1
  {
    if 0 < Min(committed, n) {
      InsertedBlockSideFrom(ops, 0, 0, n, m, Min(committed, n), k);
    }
  }

  lemma OneTiles(op: Opcode, n: nat, m: nat)
    requires BlockShape(op) && op.i1 == op.j1 == 0 && op.i2 == n && op.j2 == m
    ensures Tiles([op], 0, 0, n, m)
  {
    assert [op][1..] == [];
  }

  lemma TwoTile(first: Opcode, second: Opcode, n: nat, m: nat)
    requires BlockShape(first) && BlockShape(second) && first.i1 == first.j1 == 0
    requires second.i1 == first.i2 && second.j1 == first.j2 && second.i2 == n && second.j2 == m
    ensures [first, second][1..] == [second] && Tiles([second], first.i2, first.j2, n, m)
    ensures Tiles([first, second], 0, 0, n, m)
  {
    assert [first, second][1..] == [second] && [second][1..] == [];
  }

  // One displayed word, and one inserted behind it: the boundary stays in front of the new word.
  lemma InsertionAtBoundaryIsNotConsumed()
    ensures var ops := [Opcode(Equal, 0, 1, 0, 1), Opcode(Insert, 1, 1, 1, 2)];
      Tiles(ops, 0, 0, 1, 2) && MapBoundary(ops, 1, 2, 1) == 1 == ops[1].j1 < ops[1].j2
  {
    TwoTile(Opcode(Equal, 0, 1, 0, 1), Opcode(Insert, 1, 1, 1, 2), 1, 2);
  }

  // One displayed word, and one inserted in front of it: the boundary moves behind both.
  lemma FrontInsertionIsConsumed(ops: seq<Opcode>)
    requires ops == [Opcode(Insert, 0, 0, 0, 1), Opcode(Equal, 0, 1, 1, 2)]
    ensures Tiles(ops, 0, 0, 1, 2) && MapBoundary(ops, 1, 2, 1) == 2
  {
    hide *;
    TwoTile(ops[0], ops[1], 1, 2);
    KeptWordSide(ops, 1, 2, 1, 1, 0);
    BoundaryIsMonotone(ops, 1, 2, 1, 1);
  }

  /** A leading equal block keeps every boundary it covers where it was. */
  lemma LeadingBlockKeepsBoundary(ops: seq<Opcode>, n: nat, m: nat, committed: nat, k: nat)
    requires Tiles(ops, 0, 0, n, m) && committed <= k
    requires ops != [] && ops[0] == Opcode(Equal, 0, k, 0, k)
    ensures MapBoundary(ops, n, m, committed) == committed
  {
    TilesEnd(ops[1..], k, k, n, m);
  }

  /** So a revision that only appends keeps them all. */
  lemma AppendKeepsBoundary(ops: seq<Opcode>, n: nat, m: nat, committed: nat)
    requires Tiles(ops, 0, 0, n, m) && committed <= n
    requires ops != [] && ops[0] == Opcode(Equal, 0, n, 0, n)
    ensures MapBoundary(ops, n, m, committed) == committed
  {
    hide *;
    LeadingBlockKeepsBoundary(ops, n, m, committed, n);
  }
}
