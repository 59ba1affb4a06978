/** Levenshtein distance: the two-row dynamic program and what its value means. */
module EditDistance {
  import opened Common

  // Cell (i, j) of the edit table: distance between the first i units of a and the first j units of b.
  function Cell<T(==)>(a: seq<T>, b: seq<T>, i: nat, j: nat): nat
    requires i <= |a| && j <= |b|
    decreases i + j
  {
    if i == 0 then j
    else if j == 0 then i
    else
      Min(Min(Cell(a, b, i, j - 1) + 1, Cell(a, b, i - 1, j) + 1),
          Cell(a, b, i - 1, j - 1) + if a[i - 1] != b[j - 1] then 1 else 0)
  }

  lemma BorderCells<T>(a: seq<T>, b: seq<T>, i: nat, j: nat)
    requires i <= |a| && j <= |b|
    ensures Cell(a, b, 0, j) == j && Cell(a, b, i, 0) == i
  {
  }

  function Distance<T(==)>(a: seq<T>, b: seq<T>): nat {
    Cell(a, b, |a|, |b|)
  }

  // The list holds the first |cells| cells of row i of the edit table.
  ghost predicate IsRow<T>(cells: seq<nat>, a: seq<T>, b: seq<T>, i: nat)
    requires i <= |a|
  {
    |cells| <= |b| + 1 && forall j | 0 <= j < |cells| :: cells[j] == Cell(a, b, i, j)
  }

  lemma RowGrows<T>(previous: seq<nat>, current: seq<nat>, a: seq<T>, b: seq<T>, i: nat)
    requires i < |a| && IsRow(previous, a, b, i) && |previous| == |b| + 1
    requires IsRow(current, a, b, i + 1) && 0 < |current| <= |b|
    ensures var j := |current|;
      IsRow(current + [Min(Min(current[j - 1] + 1, previous[j] + 1),
                           previous[j - 1] + if a[i] != b[j - 1] then 1 else 0)], a, b, i + 1)
  {
  }

  /** The row-by-row program: `previous` and `current` are rows of the edit table. */
  method TwoRowDistance<T(==)>(reference: seq<T>, hypothesis: seq<T>) returns (distance: nat)
    ensures distance == Distance(reference, hypothesis)
  {
    var previous: seq<nat> := seq(|hypothesis| + 1, i => i);
    for row := 0 to |reference|
      invariant |previous| == |hypothesis| + 1 && IsRow(previous, reference, hypothesis, row)
    {
      var expected := reference[row];
      var current: seq<nat> := [row + 1];
      for column := 1 to |hypothesis| + 1
        invariant |current| == column && IsRow(current, reference, hypothesis, row + 1)
      {
        RowGrows(previous, current, reference, hypothesis, row);
        var change := if expected != hypothesis[column - 1] then 1 else 0;
        current := current
          + [Min(Min(current[column - 1] + 1, previous[column] + 1), previous[column - 1] + change)];
      }
      previous := current;
    }
    distance := previous[|previous| - 1];
  }

  // ----- Edit scripts: the independent meaning of the distance -----

  datatype Edit<T> = Keep(unit: T) | Substitute(from: T, to: T) | Insert(to: T) | Delete(from: T)

  function Reads<T>(e: Edit<T>): seq<T> {
    match e
    case Keep(u) => [u]
    case Substitute(u, _) => [u]
    case Insert(_) => []
    case Delete(u) => [u]
  }

  function Writes<T>(e: Edit<T>): seq<T> {
    match e
    case Keep(u) => [u]
    case Substitute(_, u) => [u]
    case Insert(u) => [u]
    case Delete(_) => []
  }

  function Price<T>(e: Edit<T>): nat {
    if e.Keep? then 0 else 1
  }

  /** The sequence a script reads. */
  function Source<T>(script: seq<Edit<T>>): seq<T> {
    if script == [] then [] else Source(script[..|script| - 1]) + Reads(script[|script| - 1])
  }

  /** The sequence a script writes. */
  function Target<T>(script: seq<Edit<T>>): seq<T> {
    if script == [] then [] else Target(script[..|script| - 1]) + Writes(script[|script| - 1])
  }

  /** Every edit but Keep costs one. */
  function Cost<T>(script: seq<Edit<T>>): nat {
    if script == [] then 0
    else Cost(script[..|script| - 1]) + Price(script[|script| - 1])
  }

  lemma ScriptGrows<T>(rest: seq<Edit<T>>, e: Edit<T>)
    ensures Source(rest + [e]) == Source(rest) + Reads(e)
    ensures Target(rest + [e]) == Target(rest) + Writes(e)
    ensures Cost(rest + [e]) == Cost(rest) + Price(e)
  {
    assert (rest + [e])[..|rest|] == rest;
  }

  ghost predicate Turns<T>(script: seq<Edit<T>>, a: seq<T>, b: seq<T>) {
    Source(script) == a && Target(script) == b
  }

  // A cell looks only at the prefixes it stands for.
  lemma {:induction false} CellOfPrefixes<T>(a: seq<T>, b: seq<T>, a': seq<T>, b': seq<T>, i: nat, j: nat)
    requires i <= |a| && j <= |b| && i <= |a'| && j <= |b'|
    requires a[..i] == a'[..i] && b[..j] == b'[..j]
    ensures Cell(a, b, i, j) == Cell(a', b', i, j)
    decreases i + j
  {
    if i > 0 && j > 0 {
      assert a[..i - 1] == a[..i][..i - 1] == a'[..i - 1];
      assert b[..j - 1] == b[..j][..j - 1] == b'[..j - 1];
      assert a[i - 1] == a[..i][i - 1] == a'[i - 1];
      assert b[j - 1] == b[..j][j - 1] == b'[j - 1];
      CellOfPrefixes(a, b, a', b', i - 1, j);
      CellOfPrefixes(a, b, a', b', i, j - 1);
      CellOfPrefixes(a, b, a', b', i - 1, j - 1);
    }
  }

  // Dropping the last unit of one side changes the distance by at most one.
  lemma DistanceOfPrefix<T>(a: seq<T>, b: seq<T>, i: nat, j: nat)
    requires i <= |a| && j <= |b|
    ensures Distance(a[..i], b[..j]) == Cell(a, b, i, j)
  {
    CellOfPrefixes(a, b, a[..i], b[..j], i, j);
  }

  // One more edit adds at most its price to the distance.
  lemma EditAddsPrice<T>(a: seq<T>, b: seq<T>, e: Edit<T>)
    ensures Distance(a + Reads(e), b + Writes(e)) <= Distance(a, b) + Price(e)
  {
    var a', b' := a + Reads(e), b + Writes(e);
    assert a'[..|a|] == a && b'[..|b|] == b;
    DistanceOfPrefix(a', b', |a|, |b|);
    BorderCells(a', b', |a'|, |b'|);
  }

  /** No script is cheaper than the distance. */
  lemma {:induction false} NoCheaperScript<T>(script: seq<Edit<T>>)
    ensures Distance(Source(script), Target(script)) <= Cost(script)
  {
    hide Cell, Reads, Writes;
    if script == [] {
      BorderCells(Source(script), Target(script), 0, 0);
    } else {
      var rest := script[..|script| - 1];
      NoCheaperScript(rest);
      EditAddsPrice(Source(rest), Target(rest), script[|script| - 1]);
    }
  }

  lemma InnerCell<T>(a: seq<T>, b: seq<T>, i: nat, j: nat)
    requires 0 < i <= |a| && 0 < j <= |b|
    ensures Cell(a, b, i, j) ==
      Min(Min(Cell(a, b, i, j - 1) + 1, Cell(a, b, i - 1, j) + 1),
          Cell(a, b, i - 1, j - 1) + if a[i - 1] != b[j - 1] then 1 else 0)
  {
  }

  // The edit e makes the rest of a and b behind their first i and j units.
  ghost predicate EndsIn<T>(a: seq<T>, b: seq<T>, i: nat, j: nat, e: Edit<T>) {
    && i <= |a| && j <= |b| && i + j < |a| + |b|
    && a == a[..i] + Reads(e) && b == b[..j] + Writes(e)
  }

  lemma EndEdits<T>(a: seq<T>, b: seq<T>)
    ensures b != [] ==> EndsIn(a, b, |a|, |b| - 1, Insert(b[|b| - 1]))
    ensures a != [] ==> EndsIn(a, b, |a| - 1, |b|, Delete(a[|a| - 1]))
    ensures a != [] && b != [] ==> EndsIn(a, b, |a| - 1, |b| - 1, Substitute(a[|a| - 1], b[|b| - 1]))
    ensures a != [] && b != [] && a[|a| - 1] == b[|b| - 1] ==> EndsIn(a, b, |a| - 1, |b| - 1, Keep(a[|a| - 1]))
  {
  }

  // The last edit of a cheapest script, and how much of each side it leaves.
  lemma LastEdit<T>(a: seq<T>, b: seq<T>) returns (i: nat, j: nat, e: Edit<T>)
    requires a != [] || b != []
    ensures EndsIn(a, b, i, j, e)
    ensures Distance(a, b) == Cell(a, b, i, j) + Price(e)
  {
    var m, n := |a|, |b|;
    BorderCells(a, b, m, n);
    EndEdits(a, b);
    hide EndsIn;
    if m == 0 {
      i, j, e := m, n - 1, Insert(b[n - 1]);
      BorderCells(a, b, i, j);
    } else if n == 0 {
      i, j, e := m - 1, n, Delete(a[m - 1]);
      BorderCells(a, b, i, j);
    } else {
      i, j, e := LastInnerEdit(a, b, m, n);
    }
  }

  lemma CellChoice<T>(a: seq<T>, b: seq<T>, i: nat, j: nat)
    requires 0 < i <= |a| && 0 < j <= |b|
    ensures Cell(a, b, i, j) == Cell(a, b, i, j - 1) + 1 || Cell(a, b, i, j) == Cell(a, b, i - 1, j) + 1
      || Cell(a, b, i, j) == Cell(a, b, i - 1, j - 1) + if a[i - 1] != b[j - 1] then 1 else 0
  {
    InnerCell(a, b, i, j);
  }

  lemma PriceIs<T>(e: Edit<T>)
    ensures Price(e) == if e.Keep? then 0 else 1
  {
  }

  lemma LastInnerEdit<T>(a: seq<T>, b: seq<T>, m: nat, n: nat) returns (i: nat, j: nat, e: Edit<T>)
    requires 0 < m == |a| && 0 < n == |b|
    ensures EndsIn(a, b, i, j, e)
    ensures Cell(a, b, m, n) == Cell(a, b, i, j) + Price(e)
  {
    hide *;
    CellChoice(a, b, m, n);
    EndEdits(a, b);
    if Cell(a, b, m, n) == Cell(a, b, m, n - 1) + 1 {
      i, j, e := m, n - 1, Insert(b[n - 1]);
    } else if Cell(a, b, m, n) == Cell(a, b, m - 1, n) + 1 {
      i, j, e := m - 1, n, Delete(a[m - 1]);
    } else if a[m - 1] == b[n - 1] {
      i, j, e := m - 1, n - 1, Keep(a[m - 1]);
    } else {
      i, j, e := m - 1, n - 1, Substitute(a[m - 1], b[n - 1]);
    }
    PriceIs(e);
  }

  /** Some script costs exactly the distance. */
  lemma {:induction false} BestScript<T>(a: seq<T>, b: seq<T>) returns (script: seq<Edit<T>>)
    ensures Turns(script, a, b)
    ensures Cost(script) == Distance(a, b)
    decreases |a| + |b|
  {
    if a == [] && b == [] {
      return [];
    }
    hide Cell, Source, Target, Cost, Reads, Writes;
    var i, j, e := LastEdit(a, b);
    DistanceOfPrefix(a, b, i, j);
    var rest := BestScript(a[..i], b[..j]);
    ScriptGrows(rest, e);
    script := rest + [e];
  }

  /** The distance is the least cost of a script turning a into b. */
  lemma DistanceIsLeastCost<T>(a: seq<T>, b: seq<T>, d: nat)
    ensures d == Distance(a, b) <==>
      && (exists script: seq<Edit<T>> :: Turns(script, a, b) && Cost(script) == d)
      && (forall script: seq<Edit<T>> :: Turns(script, a, b) ==> d <= Cost(script))
  {
    forall script: seq<Edit<T>> | Turns(script, a, b)
      ensures Distance(a, b) <= Cost(script)
    {
      NoCheaperScript(script);
    }
    var best := BestScript(a, b);
    assert Turns(best, a, b);
  }

  // ----- The distance is a metric -----

  function Mirror<T>(e: Edit<T>): Edit<T> {
    match e
    case Keep(u) => Keep(u)
    case Substitute(u, v) => Substitute(v, u)
    case Insert(u) => Delete(u)
    case Delete(u) => Insert(u)
  }

  lemma {:induction false} MirrorScript<T>(script: seq<Edit<T>>) returns (back: seq<Edit<T>>)
    ensures Turns(back, Target(script), Source(script))
    ensures Cost(back) == Cost(script)
  {
    if script == [] {
      back := [];
    } else {
      var rest := MirrorScript(script[..|script| - 1]);
      back := rest + [Mirror(script[|script| - 1])];
      ScriptGrows(rest, Mirror(script[|script| - 1]));
    }
  }

  // One edit with the effect of e followed by f on the unit they share.
  function Fuse<T>(e: Edit<T>, f: Edit<T>): Edit<T> {
    match (e, f)
    case (Keep(_), _) => f
    case (_, Keep(_)) => e
    case (Substitute(u, _), Substitute(_, w)) => Substitute(u, w)
    case (Substitute(u, _), _) => Delete(u)
    case (_, Substitute(_, w)) => Insert(w)
    case (_, _) => e
  }

  lemma FuseJoins<T>(e: Edit<T>, f: Edit<T>)
    requires Writes(e) == Reads(f) != [] && !(e.Insert? && f.Delete?)
    ensures Reads(Fuse(e, f)) == Reads(e) && Writes(Fuse(e, f)) == Writes(f)
    ensures Price(Fuse(e, f)) <= Price(e) + Price(f)
  {
  }

  lemma ScriptEnds<T>(script: seq<Edit<T>>)
    requires script != []
    ensures var rest, e := script[..|script| - 1], script[|script| - 1];
      && Source(script) == Source(rest) + Reads(e) && Target(script) == Target(rest) + Writes(e)
      && Cost(script) == Cost(rest) + Price(e) && |Reads(e)| <= 1 && |Writes(e)| <= 1
      && (Writes(e) == [] <==> e.Delete?) && (Reads(e) == [] <==> e.Insert?)
  {
  }

  lemma SameEnd<T>(x: seq<T>, u: seq<T>, y: seq<T>, v: seq<T>)
    requires x + u == y + v && |u| == |v|
    ensures x == y && u == v
  {
    assert (x + u)[..|x|] == x && (y + v)[..|y|] == y;
    assert (x + u)[|x|..] == u && (y + v)[|y|..] == v;
  }

  // Runs two scripts one after the other as one script.
  lemma {:induction false} ComposeScripts<T>(first: seq<Edit<T>>, second: seq<Edit<T>>) returns (both: seq<Edit<T>>)
    requires Target(first) == Source(second)
    ensures Turns(both, Source(first), Target(second))
    ensures Cost(both) <= Cost(first) + Cost(second)
    decreases |first| + |second|
  {
    if first == [] && second == [] {
      return [];
    }
    if first != [] {
      ScriptEnds(first);
    }
    if second != [] {
      ScriptEnds(second);
    }
    EmptyScript<T>();
    hide Source, Target, Cost, Reads, Writes, Fuse, Price;
    if first != [] && first[|first| - 1].Delete? {
      both := ComposeScripts(first[..|first| - 1], second);
      ScriptGrows(both, first[|first| - 1]);
      DeletePrice(first[|first| - 1]);
      both := both + [first[|first| - 1]];
    } else if second != [] && second[|second| - 1].Insert? {
      both := ComposeScripts(first, second[..|second| - 1]);
      ScriptGrows(both, second[|second| - 1]);
      both := both + [second[|second| - 1]];
    } else {
      var first', e := first[..|first| - 1], first[|first| - 1];
      var second', f := second[..|second| - 1], second[|second| - 1];
      SameEnd(Target(first'), Writes(e), Source(second'), Reads(f));
      both := ComposeScripts(first', second');
      if !(e.Insert? && f.Delete?) {
        FuseJoins(e, f);
        ScriptGrows(both, Fuse(e, f));
        both := both + [Fuse(e, f)];
      } else {
        assert Reads(e) == [] && Writes(f) == [];
      }
    }
  }

  lemma EmptyScript<T>()
    ensures Source<T>([]) == [] && Target<T>([]) == []
  {
  }

  lemma DeletePrice<T>(e: Edit<T>)
    ensures e.Delete? ==> Writes(e) == []
    ensures e.Insert? ==> Reads(e) == []
  {
  }

  /** Zero exactly for equal sequences, symmetric, and never longer than a detour through b. */
  lemma DistanceIsMetric<T>(a: seq<T>, b: seq<T>, c: seq<T>)
    ensures Distance(a, b) == 0 <==> a == b
    ensures Distance(a, b) == Distance(b, a)
    ensures Distance(a, c) <= Distance(a, b) + Distance(b, c)
  {
    var ab := BestScript(a, b);
    var bc := BestScript(b, c);
    var ac := ComposeScripts(ab, bc);
    NoCheaperScript(ac);
    var ba := MirrorScript(ab);
    NoCheaperScript(ba);
    var ba' := BestScript(b, a);
    var ab' := MirrorScript(ba');
    NoCheaperScript(ab');
    if Distance(a, b) == 0 {
      FreeScriptCopies(ab);
    }
    if a == b {
      NoCheaperScript(CopyScript(a));
    }
  }

  // A script that costs nothing only copies.
  lemma {:induction false} FreeScriptCopies<T>(script: seq<Edit<T>>)
    requires Cost(script) == 0
    ensures Source(script) == Target(script)
  {
    if script != [] {
      FreeScriptCopies(script[..|script| - 1]);
    }
  }

  ghost function CopyScript<T>(a: seq<T>): (script: seq<Edit<T>>)
    ensures Turns(script, a, a) && Cost(script) == 0
  {
    if a == [] then []
    else
      var rest := CopyScript(a[..|a| - 1]);
      ScriptGrows(rest, Keep(a[|a| - 1]));
      rest + [Keep(a[|a| - 1])]
  }
}
