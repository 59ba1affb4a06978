/** Myers' bit-vector edit distance: one column of the edit table per hypothesis unit, packed in two integers. */
module BitParallel {
  import opened EditDistance
  import opened PythonInt

  lemma {:induction false} RowsDifferByOne<T>(a: seq<T>, b: seq<T>, i: nat, j: nat)
    requires i < |a| && j <= |b|
    ensures -1 <= Cell(a, b, i + 1, j) - Cell(a, b, i, j) <= 1
    decreases j
  {
    if j > 0 {
      RowsDifferByOne(a, b, i, j - 1);
    }
  }

  lemma {:induction false} ColumnsDifferByOne<T>(a: seq<T>, b: seq<T>, i: nat, j: nat)
    requires i <= |a| && j < |b|
    ensures -1 <= Cell(a, b, i, j + 1) - Cell(a, b, i, j) <= 1
    decreases i
  {
    if i > 0 {
      ColumnsDifferByOne(a, b, i - 1, j);
    }
  }

  // Going from row i to row i + 1 in column j adds one.
  ghost predicate Rises<T>(a: seq<T>, b: seq<T>, i: nat, j: nat)
    requires i < |a| && j <= |b|
  {
    Cell(a, b, i + 1, j) == Cell(a, b, i, j) + 1
  }

  // Going from row i to row i + 1 in column j takes one away.
  ghost predicate Falls<T>(a: seq<T>, b: seq<T>, i: nat, j: nat)
    requires i < |a| && j <= |b|
  {
    Cell(a, b, i + 1, j) == Cell(a, b, i, j) - 1
  }

  /** The two integers hold column j: which rows rise and which rows fall. */
  ghost predicate IsColumn<T>(positive: int, negative: int, a: seq<T>, b: seq<T>, j: nat)
    requires j <= |b|
  {
    forall i: nat | i < |a| ::
      && (Bit(positive, i) <==> Rises(a, b, i, j))
      && (Bit(negative, i) <==> Falls(a, b, i, j))
  }

  // Bit i of `equal` says whether unit i of a is the given one.
  ghost predicate IsMask<T>(equal: int, a: seq<T>, unit: T) {
    forall i: nat :: Bit(equal, i) <==> i < |a| && a[i] == unit
  }

  // The integer computed by `(((equal & positive) + positive) ^ positive) | equal`.
  function Horizontal(equal: int, positive: int): int {
    Or(Xor(And(equal, positive) + positive, positive), equal)
  }

  /** Carries run through the rising rows below a match, so they stop where the row above turns down. */
  lemma CarryRunsThroughRises(equal: int, positive: int, i: nat)
    ensures Bit(Horizontal(equal, positive), i) <==>
      Bit(equal, i) || Carry(And(equal, positive), positive, 0, i)
    ensures Carry(And(equal, positive), positive, 0, i + 1) <==>
      Bit(positive, i) && Bit(Horizontal(equal, positive), i)
  {
    var both := And(equal, positive);
    BitOfAnd(equal, positive, i);
    RippleAdd(both, positive, 0, i);
    BitOfXor(both + positive, positive, i);
    BitOfOr(Xor(both + positive, positive), equal, i);
  }

  // Row i is cheaper by one in column j + 1 than in column j exactly when a carry enters place i.
  lemma {:induction false} CarryIsCheaperCell<T>(equal: int, positive: int, negative: int, a: seq<T>, b: seq<T>,
                                                 i: nat, j: nat)
    requires i <= |a| && j < |b|
    requires IsMask(equal, a, b[j]) && IsColumn(positive, negative, a, b, j)
    ensures Carry(And(equal, positive), positive, 0, i) <==> Cell(a, b, i, j + 1) == Cell(a, b, i, j) - 1
  {
    hide And, Or, Not, Xor, Bit, Horizontal;
    if i > 0 {
      CarryIsCheaperCell(equal, positive, negative, a, b, i - 1, j);
      CarryRunsThroughRises(equal, positive, i - 1);
      RowsDifferByOne(a, b, i - 1, j);
      ColumnsDifferByOne(a, b, i - 1, j);
    }
  }

  // The integer computed by `negative | ~(horizontal | positive)`.
  function DearerRows(horizontal: int, positive: int, negative: int): int {
    Or(negative, Not(Or(horizontal, positive)))
  }

  /** Before the shift, bit i says how row i + 1 changes from column j to column j + 1. */
  lemma RowChange<T>(equal: int, positive: int, negative: int, a: seq<T>, b: seq<T>, i: nat, j: nat)
    requires i < |a| && j < |b|
    requires IsMask(equal, a, b[j]) && IsColumn(positive, negative, a, b, j)
    ensures var horizontal := Horizontal(equal, positive);
      && (Bit(DearerRows(horizontal, positive, negative), i) <==> Cell(a, b, i + 1, j + 1) == Cell(a, b, i + 1, j) + 1)
      && (Bit(And(positive, horizontal), i) <==> Cell(a, b, i + 1, j + 1) == Cell(a, b, i + 1, j) - 1)
  {
    hide And, Or, Not, Xor, Bit, Carry, Horizontal;
    var horizontal := Horizontal(equal, positive);
    CarryIsCheaperCell(equal, positive, negative, a, b, i, j);
    CarryRunsThroughRises(equal, positive, i);
    BitOfAnd(positive, horizontal, i);
    BitOfOr(horizontal, positive, i);
    BitOfNot(Or(horizontal, positive), i);
    BitOfOr(negative, Not(Or(horizontal, positive)), i);
    RowsDifferByOne(a, b, i, j);
    ColumnsDifferByOne(a, b, i, j);
  }

  // After the shift, bit i says how row i changes; row 0 always grows by one.
  ghost predicate IsRowChange<T>(dearer: int, cheaper: int, a: seq<T>, b: seq<T>, j: nat)
    requires j < |b|
  {
    forall i: nat | i < |a| ::
      && (Bit(dearer, i) <==> Cell(a, b, i, j + 1) == Cell(a, b, i, j) + 1)
      && (Bit(cheaper, i) <==> Cell(a, b, i, j + 1) == Cell(a, b, i, j) - 1)
  }

  lemma ShiftedRowChange<T>(equal: int, positive: int, negative: int, a: seq<T>, b: seq<T>, j: nat)
    requires j < |b| && IsMask(equal, a, b[j]) && IsColumn(positive, negative, a, b, j)
    ensures var horizontal := Horizontal(equal, positive); var limit := Pow2(|a|) - 1;
      IsRowChange(And(Or(2 * DearerRows(horizontal, positive, negative), 1), limit),
                  And(2 * And(positive, horizontal), limit), a, b, j)
  {
    hide And, Or, Not, Xor, Bit, Horizontal, DearerRows, Cell;
    var horizontal, limit := Horizontal(equal, positive), Pow2(|a|) - 1;
    var dearer, cheaper := DearerRows(horizontal, positive, negative), And(positive, horizontal);
    forall i: nat | i < |a|
      ensures Bit(And(Or(2 * dearer, 1), limit), i) <==> Cell(a, b, i, j + 1) == Cell(a, b, i, j) + 1
      ensures Bit(And(2 * cheaper, limit), i) <==> Cell(a, b, i, j + 1) == Cell(a, b, i, j) - 1
    {
      BitOfMask(|a|, i);
      BitOfAnd(Or(2 * dearer, 1), limit, i);
      BitOfAnd(2 * cheaper, limit, i);
      BitOfOr(2 * dearer, 1, i);
      BitOfShift(dearer, 0, i);
      BitOfShift(cheaper, 0, i);
      assert Pow2(0) == 1;
      BitOfPow2(0, i);
      BorderCells(a, b, 0, j + 1);
      BorderCells(a, b, 0, j);
      if i > 0 {
        RowChange(equal, positive, negative, a, b, i - 1, j);
      }
    }
  }

  /** The last two assignments of the loop body give column j + 1. */
  lemma NextColumn<T>(equal: int, positive: int, negative: int, dearer: int, cheaper: int, a: seq<T>, b: seq<T>, j: nat)
    requires j < |b| && IsMask(equal, a, b[j]) && IsColumn(positive, negative, a, b, j)
    requires IsRowChange(dearer, cheaper, a, b, j)
    ensures var vertical := Or(equal, negative);
      IsColumn(And(Or(cheaper, Not(Or(vertical, dearer))), Pow2(|a|) - 1), And(dearer, vertical), a, b, j + 1)
  {
    hide And, Or, Not, Xor, Bit, Pow2;
    var vertical, limit := Or(equal, negative), Pow2(|a|) - 1;
    var positive' := And(Or(cheaper, Not(Or(vertical, dearer))), limit);
    forall i: nat | i < |a|
      ensures Bit(positive', i) <==> Rises(a, b, i, j + 1)
      ensures Bit(And(dearer, vertical), i) <==> Falls(a, b, i, j + 1)
    {
      BitOfMask(|a|, i);
      BitOfAnd(Or(cheaper, Not(Or(vertical, dearer))), limit, i);
      BitOfOr(cheaper, Not(Or(vertical, dearer)), i);
      BitOfNot(Or(vertical, dearer), i);
      BitOfOr(vertical, dearer, i);
      BitOfOr(equal, negative, i);
      BitOfAnd(dearer, vertical, i);
      RowsDifferByOne(a, b, i, j);
      ColumnsDifferByOne(a, b, i, j);
    }
  }

  // The dictionary gives every unit of a its mask, and nothing to other units.
  ghost predicate AreMasks<T(!new)>(masks: map<T, int>, a: seq<T>) {
    forall unit: T :: IsMask(if unit in masks then masks[unit] else 0, a, unit)
  }

  method BuildMasks<T(==, !new)>(reference: seq<T>) returns (masks: map<T, int>)
    ensures AreMasks(masks, reference)
  {
    masks := map[];
    forall i: nat ensures !Bit(0, i) { BitOfConstants(i); }
    for index := 0 to |reference|
      invariant AreMasks(masks, reference[..index])
    {
      var unit := reference[index];
      var before := if unit in masks then masks[unit] else 0;
      masks := masks[unit := Or(before, Pow2(index))];
      forall i: nat ensures Bit(Or(before, Pow2(index)), i) <==> Bit(before, i) || i == index {
        BitOfOr(before, Pow2(index), i);
        BitOfPow2(index, i);
      }
    }
    assert reference[..|reference|] == reference;
  }

  lemma FirstColumn<T>(a: seq<T>, b: seq<T>)
    ensures IsColumn(Pow2(|a|) - 1, 0, a, b, 0)
  {
    forall i: nat | i < |a|
      ensures Bit(Pow2(|a|) - 1, i) && !Bit(0, i)
    {
      BitOfMask(|a|, i);
      BitOfConstants(i);
    }
  }

  // Testing the top bit of the two row changes tells how the last row moves.
  lemma LastRowChange<T>(equal: int, positive: int, negative: int, a: seq<T>, b: seq<T>, j: nat)
    requires a != [] && j < |b|
    requires IsMask(equal, a, b[j]) && IsColumn(positive, negative, a, b, j)
    ensures var horizontal := Horizontal(equal, positive); var last := Pow2(|a| - 1);
      Cell(a, b, |a|, j + 1) == Cell(a, b, |a|, j)
        + if And(DearerRows(horizontal, positive, negative), last) != 0 then 1
          else if And(And(positive, horizontal), last) != 0 then -1 else 0
  {
    RowChange(equal, positive, negative, a, b, |a| - 1, j);
    TestBit(DearerRows(Horizontal(equal, positive), positive, negative), |a| - 1);
    TestBit(And(positive, Horizontal(equal, positive)), |a| - 1);
    ColumnsDifferByOne(a, b, |a|, j);
  }

  /** The bit-vector loop returns exactly the distance of the two-row program. */
  method BitParallelDistance<T(==, !new)>(reference: seq<T>, hypothesis: seq<T>) returns (distance: int)
    ensures distance == Distance(reference, hypothesis)
  {
    hide And, Or, Not, Xor, Bit, Pow2, Cell, Horizontal, DearerRows;
    var length := |reference|;
    BorderCells(reference, hypothesis, length, |hypothesis|);
    if length == 0 {
      return |hypothesis|;
    }
    var masks := BuildMasks(reference);
    var limit := Pow2(length) - 1;
    var positive, negative := limit, 0;
    distance := length;
    var last := Pow2(length - 1);
    FirstColumn(reference, hypothesis);
    for j := 0 to |hypothesis|
      invariant distance == Cell(reference, hypothesis, length, j)
      invariant IsColumn(positive, negative, reference, hypothesis, j)
    {
      var unit := hypothesis[j];
      var equal := if unit in masks then masks[unit] else 0;
      var vertical := Or(equal, negative);
      var horizontal := Horizontal(equal, positive);
      var positiveHorizontal := DearerRows(horizontal, positive, negative);
      var negativeHorizontal := And(positive, horizontal);
      LastRowChange(equal, positive, negative, reference, hypothesis, j);
      if And(positiveHorizontal, last) != 0 {
        distance := distance + 1;
      } else if And(negativeHorizontal, last) != 0 {
        distance := distance - 1;
      }
      ShiftedRowChange(equal, positive, negative, reference, hypothesis, j);
      positiveHorizontal := And(Or(2 * positiveHorizontal, 1), limit);
      negativeHorizontal := And(2 * negativeHorizontal, limit);
      NextColumn(equal, positive, negative, positiveHorizontal, negativeHorizontal, reference, hypothesis, j);
      positive := And(Or(negativeHorizontal, Not(Or(vertical, positiveHorizontal))), limit);
      negative := And(positiveHorizontal, vertical);
    }
  }
}
