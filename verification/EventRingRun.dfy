/** Network worker and UI thread on one event ring: every interleaving of push, the phases of drain, and invalidate. */
module EventRingRun {
  import opened Common
  import opened EventRing

  // An event handed to the display, with its arrival number.
  datatype Delivered = Delivered(id: nat, generation: nat, seqNo: nat)

  // The ring, what a drain in progress holds outside the lock, and what was delivered. The arrival numbers of the
  // entries run beside them, and `log` holds all entries ever admitted: the program has neither.
  datatype World = World(ring: Ring, held: seq<Entry>, delivered: seq<Delivered>,
                         ringIds: seq<nat>, heldIds: seq<nat>, admitted: nat, log: seq<Entry>)

  // One critical section of one thread.
  datatype Step = PushLine(line: string) | BeginDrain(max: nat) | CheckNext | Invalidate

  const NewWorld := World(NewRing, [], [], [], [], 0, [])

  function RoomIds(entries: seq<Entry>, ids: seq<nat>): seq<nat>
    requires |ids| == |entries|
  {
    if |entries| == DEPTH then Remove(ids, Victim(entries)) else ids
  }

  // Every buffered or held entry has its number.
  ghost predicate Numbered(w: World) {
    |w.ringIds| == |w.ring.entries| && |w.heldIds| == |w.held|
  }

  ghost function Next(w: World, step: Step, parse: Parser): (w': World)
    requires Numbered(w)
    ensures Numbered(w')
  {
    match step
    case PushLine(line) =>
      if |line| >= LINE_MAX || parse(line).None? then w
      else
        w.(ring := Pushed(w.ring, line, parse(line).value.isFinal),
           ringIds := RoomIds(w.ring.entries, w.ringIds) + [w.admitted],
           admitted := w.admitted + 1,
           log := w.log + [Entry(line, parse(line).value.isFinal, w.ring.generation)])
    case BeginDrain(max) =>
      if w.held != [] then w
      else
        var (ring, held) := Taken(w.ring, max);
        w.(ring := ring, held := held, heldIds := w.ringIds[..|held|], ringIds := w.ringIds[|held|..])
    case CheckNext =>
      if w.held == [] then w
      else
        var w1 := w.(held := w.held[1..], heldIds := w.heldIds[1..]);
        var entry := w.held[0];
        if parse(entry.line).None? then w1
        else
          var seqNo := parse(entry.line).value.seqNo;
          var (ring, verdict) := Checked(w.ring, entry, seqNo);
          w1.(ring := ring,
              delivered := w.delivered +
                if verdict.Accepted? then [Delivered(w.heldIds[0], entry.generation, seqNo)] else [])
    case Invalidate => w.(ring := Invalidated(w.ring), ringIds := [])
  }

  ghost predicate AscendingBelow(s: seq<nat>, bound: nat) {
    && (forall i, j | 0 <= i < j < |s| :: s[i] < s[j])
    && (forall i | 0 <= i < |s| :: s[i] < bound)
  }

  function Ids(delivered: seq<Delivered>): seq<nat> {
    seq(|delivered|, i requires 0 <= i < |delivered| => delivered[i].id)
  }

  /** Arrival numbers ascend from what is out over what is held to what is in the ring: nothing overtakes, nothing is
      delivered twice. */
  ghost predicate InArrivalOrder(w: World) {
    Numbered(w) && AscendingBelow(Ids(w.delivered) + w.heldIds + w.ringIds, w.admitted)
  }

  /** Nothing vanishes: admitted = delivered + dropped + rejected as old + in the ring + held by drain. */
  ghost predicate Conserved(w: World) {
    && w.ring.received == w.admitted == w.ring.partials + w.ring.finals
    && w.admitted == |w.delivered| + w.ring.dropped + w.ring.rejectedOld + |w.ring.entries| + |w.held|
  }

  ghost predicate Parses(entries: seq<Entry>, parse: Parser) {
    forall i | 0 <= i < |entries| ::
      parse(entries[i].line).Some? && parse(entries[i].line).value.isFinal == entries[i].isFinal
  }

  // The ring holds only entries of the live generation; drain may hold dead ones.
  ghost predicate GenerationsSound(w: World, parse: Parser) {
    && |w.ring.entries| <= DEPTH
    && w.ring.lastGeneration == w.ring.generation
    && Parses(w.ring.entries, parse) && Parses(w.held, parse)
    && (forall i | 0 <= i < |w.ring.entries| :: w.ring.entries[i].generation == w.ring.generation)
    && (forall i | 0 <= i < |w.held| :: w.held[i].generation <= w.ring.generation)
  }

  /** Within one generation the delivered sequence numbers strictly increase, and the latest one is remembered. */
  ghost predicate SequencesIncrease(w: World) {
    && (forall i, j | 0 <= i < j < |w.delivered| ::
          w.delivered[i].generation <= w.delivered[j].generation
          && (w.delivered[i].generation == w.delivered[j].generation ==> w.delivered[i].seqNo < w.delivered[j].seqNo))
    && (forall i | 0 <= i < |w.delivered| ::
          && w.delivered[i].generation <= w.ring.generation
          && (w.delivered[i].generation == w.ring.generation ==>
                w.ring.haveLast && w.delivered[i].seqNo <= w.ring.lastSeq))
    && (w.ring.haveLast ==>
          && w.delivered != []
          && var last := w.delivered[|w.delivered| - 1];
            last.generation == w.ring.generation && last.seqNo == w.ring.lastSeq)
  }

  ghost predicate Inv(w: World, parse: Parser) {
    InArrivalOrder(w) && Conserved(w) && GenerationsSound(w, parse) && SequencesIncrease(w)
  }

  lemma DropNumbers(left: seq<nat>, middle: seq<nat>, right: seq<nat>, bound: nat)
    requires AscendingBelow(left + middle + right, bound)
    ensures AscendingBelow(left + right, bound)
  {
    var all, some := left + middle + right, left + right;
    forall i | 0 <= i < |some|
      ensures some[i] == all[if i < |left| then i else i + |middle|]
    {
    }
  }

  lemma AddNumber(ids: seq<nat>, bound: nat)
    requires AscendingBelow(ids, bound)
    ensures AscendingBelow(ids + [bound], bound + 1)
  {
  }

  lemma PushKeepsOrder(w: World, line: string, parse: Parser)
    requires InArrivalOrder(w)
    ensures InArrivalOrder(Next(w, PushLine(line), parse))
  {
    hide AscendingBelow, Ids;
    var w' := Next(w, PushLine(line), parse);
    if w' != w {
      var out := Ids(w.delivered) + w.heldIds;
      var room := RoomIds(w.ring.entries, w.ringIds);
      if |w.ring.entries| == DEPTH {
        var k := Victim(w.ring.entries);
        var ids := w.ringIds;
        assert out + ids == (out + ids[..k]) + [ids[k]] + ids[k + 1..];
        DropNumbers(out + ids[..k], [ids[k]], ids[k + 1..], w.admitted);
        assert out + room == out + ids[..k] + ids[k + 1..];
      }
      AddNumber(out + room, w.admitted);
      assert out + (room + [w.admitted]) == out + room + [w.admitted];
    }
  }

  lemma CheckKeepsOrder(w: World, parse: Parser)
    requires InArrivalOrder(w)
    ensures InArrivalOrder(Next(w, CheckNext, parse))
  {
    hide AscendingBelow, Checked;
    var w' := Next(w, CheckNext, parse);
    if w.held != [] {
      var out, rest := Ids(w.delivered), w.heldIds[1..] + w.ringIds;
      assert out + w.heldIds + w.ringIds == out + [w.heldIds[0]] + rest;
      DropNumbers(out, [w.heldIds[0]], rest, w.admitted);
      assert out + w.heldIds[1..] + w.ringIds == out + rest;
      if w'.delivered != w.delivered {
        assert Ids(w'.delivered) == out + [w.heldIds[0]];
        assert Ids(w'.delivered) + w.heldIds[1..] + w.ringIds == out + w.heldIds + w.ringIds;
      }
    }
  }

  lemma OtherStepsKeepOrder(w: World, step: Step, parse: Parser)
    requires InArrivalOrder(w) && (step.BeginDrain? || step.Invalidate?)
    ensures InArrivalOrder(Next(w, step, parse))
  {
    hide AscendingBelow;
    var w' := Next(w, step, parse);
    var out := Ids(w.delivered) + w.heldIds;
    if step.Invalidate? {
      assert out + w.ringIds == out + w.ringIds + [];
      DropNumbers(out, w.ringIds, [], w.admitted);
      assert out + [] == Ids(w'.delivered) + w'.heldIds + w'.ringIds;
    } else if w.held == [] {
      assert Ids(w.delivered) + w'.heldIds + w'.ringIds == out + w.ringIds;
    }
  }

  lemma StepConserves(w: World, step: Step, parse: Parser)
    requires Numbered(w) && Conserved(w) && GenerationsSound(w, parse)
    ensures Conserved(Next(w, step, parse))
  {
  }

  lemma StepKeepsGenerations(w: World, step: Step, parse: Parser)
    requires Numbered(w) && GenerationsSound(w, parse)
    ensures GenerationsSound(Next(w, step, parse), parse)
  {
    hide MakeRoom, RoomIds;
    if step.PushLine? {
      RoomKeeps(w.ring.entries);
    }
  }

  // Making room keeps entries that were there.
  lemma RoomKeeps(entries: seq<Entry>)
    ensures forall i | 0 <= i < |MakeRoom(entries)| :: MakeRoom(entries)[i] in entries
  {
  }

  lemma StepKeepsSequences(w: World, step: Step, parse: Parser)
    requires Numbered(w) && GenerationsSound(w, parse) && SequencesIncrease(w)
    ensures SequencesIncrease(Next(w, step, parse))
  {
    hide *;
    if step.CheckNext? {
      CheckKeepsSequences(w, parse);
    } else {
      OthersKeepSequences(w, step, parse);
    }
  }

  lemma CheckKeepsSequences(w: World, parse: Parser)
    requires Numbered(w) && GenerationsSound(w, parse) && SequencesIncrease(w)
    ensures SequencesIncrease(Next(w, CheckNext, parse))
  {
    hide Parses;
  }

  lemma OthersKeepSequences(w: World, step: Step, parse: Parser)
    requires Numbered(w) && SequencesIncrease(w) && !step.CheckNext?
    ensures SequencesIncrease(Next(w, step, parse))
  {
    hide MakeRoom, RoomIds;
  }

  /** Every critical section of either thread keeps the invariant. */
  lemma StepKeepsInv(w: World, step: Step, parse: Parser)
    requires Inv(w, parse)
    ensures Inv(Next(w, step, parse), parse)
  {
    hide InArrivalOrder, Conserved, GenerationsSound, SequencesIncrease, Next;
    InvIsNumbered(w, parse);
    match step {
      case PushLine(line) => PushKeepsOrder(w, line, parse);
      case CheckNext => CheckKeepsOrder(w, parse);
      case _ => OtherStepsKeepOrder(w, step, parse);
    }
    StepConserves(w, step, parse);
    StepKeepsGenerations(w, step, parse);
    StepKeepsSequences(w, step, parse);
  }

  lemma InvIsNumbered(w: World, parse: Parser)
    requires Inv(w, parse)
    ensures Numbered(w)
  {
  }

  ghost function Run(w: World, steps: seq<Step>, parse: Parser): World
    requires Numbered(w)
    decreases |steps|
  {
    if steps == [] then w else Run(Next(w, steps[0], parse), steps[1..], parse)
  }

  lemma {:induction false} RunKeepsInv(w: World, steps: seq<Step>, parse: Parser)
    requires Inv(w, parse) && Numbered(w)
    ensures Inv(Run(w, steps, parse), parse)
    decreases |steps|
  {
    hide Next, Inv;
    if steps != [] {
      StepKeepsInv(w, steps[0], parse);
      InvIsNumbered(w, parse);
      RunKeepsInv(Next(w, steps[0], parse), steps[1..], parse);
    }
  }

  lemma NewWorldInv(parse: Parser)
    ensures Inv(NewWorld, parse) && Numbered(NewWorld)
  {
  }

  /** In every interleaving: admitted transcripts are all accounted for, what is delivered keeps arrival order without
      repetition, and its sequence numbers strictly increase within each generation. */
  lemma EveryInterleaving(steps: seq<Step>, parse: Parser)
    ensures var w := Run(NewWorld, steps, parse);
      Conserved(w) && InArrivalOrder(w) && SequencesIncrease(w) && |w.ring.entries| <= DEPTH
  {
    hide Next, Run;
    NewWorldInv(parse);
    RunKeepsInv(NewWorld, steps, parse);
  }

  // ----- What is delivered are the lines that came in -----

  // The entries are those admitted under these numbers.
  ghost predicate AreLogged(entries: seq<Entry>, ids: seq<nat>, log: seq<Entry>) {
    |ids| == |entries| && forall i | 0 <= i < |ids| :: ids[i] < |log| && entries[i] == log[ids[i]]
  }

  /** Buffered, held and delivered are the very lines that were pushed, in the generation of their push. */
  ghost predicate Traced(w: World, parse: Parser) {
    && |w.log| == w.admitted
    && AreLogged(w.ring.entries, w.ringIds, w.log) && AreLogged(w.held, w.heldIds, w.log)
    && forall i | 0 <= i < |w.delivered| ::
         && w.delivered[i].id < |w.log|
         && var e := w.log[w.delivered[i].id];
            && e.generation == w.delivered[i].generation
            && parse(e.line).Some? && parse(e.line).value.seqNo == w.delivered[i].seqNo
  }

  lemma LogGrows(entries: seq<Entry>, ids: seq<nat>, log: seq<Entry>, e: Entry)
    requires AreLogged(entries, ids, log)
    ensures AreLogged(entries, ids, log + [e]) && AreLogged(entries + [e], ids + [|log|], log + [e])
  {
  }

  lemma RoomIsLogged(entries: seq<Entry>, ids: seq<nat>, log: seq<Entry>)
    requires AreLogged(entries, ids, log)
    ensures AreLogged(MakeRoom(entries), RoomIds(entries, ids), log)
  {
    hide Victim, Remove;
    if |entries| == DEPTH {
      RemoveIsLogged(entries, ids, log, Victim(entries));
    }
  }

  lemma RemoveIsLogged(entries: seq<Entry>, ids: seq<nat>, log: seq<Entry>, k: nat)
    requires AreLogged(entries, ids, log) && k < |entries| == |ids|
    ensures AreLogged(Remove(entries, k), Remove(ids, k), log)
  {
    forall i | 0 <= i < |Remove(ids, k)|
      ensures Remove(ids, k)[i] < |log| && Remove(entries, k)[i] == log[Remove(ids, k)[i]]
    {
      var j := if i < k then i else i + 1;
      assert Remove(ids, k)[i] == ids[j] && Remove(entries, k)[i] == entries[j];
    }
  }

  lemma StepKeepsTrace(w: World, step: Step, parse: Parser)
    requires Numbered(w) && Traced(w, parse)
    ensures Traced(Next(w, step, parse), parse)
  {
    hide MakeRoom, RoomIds, Checked;
    match step {
      case PushLine(line) =>
        if |line| < LINE_MAX && parse(line).Some? {
          var e := Entry(line, parse(line).value.isFinal, w.ring.generation);
          RoomIsLogged(w.ring.entries, w.ringIds, w.log);
          LogGrows(MakeRoom(w.ring.entries), RoomIds(w.ring.entries, w.ringIds), w.log, e);
          LogGrows(w.held, w.heldIds, w.log, e);
        }
      case CheckNext =>
        if w.held != [] && parse(w.held[0].line).Some? {
          CheckedKeeps(w.ring, w.held[0], parse(w.held[0].line).value.seqNo);
        }
      case _ =>
    }
  }

  // A check touches no entry, and settles the first of those held.
  lemma CheckedKeeps(r: Ring, entry: Entry, seqNo: nat)
    ensures var r' := Checked(r, entry, seqNo).0;
      && r'.entries == r.entries && r'.generation == r.generation
      && r'.received == r.received && r'.partials == r.partials && r'.finals == r.finals
  {
  }

  lemma {:induction false} RunKeepsTrace(w: World, steps: seq<Step>, parse: Parser)
    requires Numbered(w) && Traced(w, parse)
    ensures Traced(Run(w, steps, parse), parse)
    decreases |steps|
  {
    hide Next, Traced;
    if steps != [] {
      StepKeepsTrace(w, steps[0], parse);
      RunKeepsTrace(Next(w, steps[0], parse), steps[1..], parse);
    }
  }

  // The lines that are admitted, with the generation they came in.
  ghost function Admitted(generation: nat, steps: seq<Step>, parse: Parser): seq<Entry>
    decreases |steps|
  {
    if steps == [] then []
    else
      var step := steps[0];
      (if step.PushLine? && |step.line| < 1280 && parse(step.line).Some?
       then [Entry(step.line, parse(step.line).value.isFinal, generation)] else [])
      + Admitted(generation + (if step.Invalidate? then 1 else 0), steps[1..], parse)
  }

  lemma LogStep(w: World, step: Step, parse: Parser)
    requires Numbered(w)
    ensures var w' := Next(w, step, parse);
      && w'.ring.generation == w.ring.generation + (if step.Invalidate? then 1 else 0)
      && w'.log == w.log + Admitted(w.ring.generation, [step], parse)
  {
    hide MakeRoom, RoomIds;
    assert [step][1..] == [] && Admitted(w.ring.generation, [step][1..], parse) == [];
  }

  lemma AdmittedInTurn(generation: nat, steps: seq<Step>, parse: Parser)
    requires steps != []
    ensures Admitted(generation, steps, parse)
      == Admitted(generation, [steps[0]], parse)
         + Admitted(generation + (if steps[0].Invalidate? then 1 else 0), steps[1..], parse)
  {
    assert [steps[0]][1..] == [];
  }

  lemma {:induction false} LogIsAdmitted(w: World, steps: seq<Step>, parse: Parser)
    requires Numbered(w)
    ensures Run(w, steps, parse).log == w.log + Admitted(w.ring.generation, steps, parse)
    decreases |steps|
  {
    hide Next, Admitted;
    if steps == [] {
      NothingAdmitted(w.ring.generation, parse);
      assert w.log + [] == w.log;
    } else {
      LogStep(w, steps[0], parse);
      AdmittedInTurn(w.ring.generation, steps, parse);
      LogIsAdmitted(Next(w, steps[0], parse), steps[1..], parse);
    }
  }

  lemma NothingAdmitted(generation: nat, parse: Parser)
    ensures Admitted(generation, [], parse) == []
  {
  }

  /** In every interleaving what is buffered, held and delivered are the lines pushed, numbered in their order. */
  lemma EveryLineIsTraced(steps: seq<Step>, parse: Parser)
    ensures var w := Run(NewWorld, steps, parse); Traced(w, parse) && w.log == Admitted(0, steps, parse)
  {
    hide *;
    NewWorldInv(parse);
    NothingLogged(parse);
    RunKeepsTrace(NewWorld, steps, parse);
    LogIsAdmitted(NewWorld, steps, parse);
    assert [] + Admitted(0, steps, parse) == Admitted(0, steps, parse);
  }

  lemma NothingLogged(parse: Parser)
    ensures Traced(NewWorld, parse) && NewWorld.log == [] && NewWorld.ring.generation == 0
  {
  }

  /** A check delivers the first held entry exactly when its generation is the live one and its number is new to it;
      else it counts a drop, or an old number. */
  lemma CheckDeliversIff(w: World, parse: Parser)
    requires Inv(w, parse) && w.held != []
    ensures var e, seqNo := w.held[0], parse(w.held[0].line).value.seqNo; var w' := Next(w, CheckNext, parse);
      var live := e.generation == w.ring.generation;
      var isNew := forall i | 0 <= i < |w.delivered| && w.delivered[i].generation == e.generation :: w.delivered[i].seqNo < seqNo;
      && w'.delivered == w.delivered + (if live && isNew then [Delivered(w.heldIds[0], e.generation, seqNo)] else [])
      && w'.ring.dropped == w.ring.dropped + (if live then 0 else 1)
      && w'.ring.rejectedOld == w.ring.rejectedOld + (if live && !isNew then 1 else 0)
      && w'.ring.entries == w.ring.entries && w'.held == w.held[1..]
  {
    hide InArrivalOrder, Conserved;
    assert w.delivered + [] == w.delivered;
  }

  // ----- A drain gets done -----

  function Checks(steps: seq<Step>): nat {
    if steps == [] then 0 else (if steps[0].CheckNext? then 1 else 0) + Checks(steps[1..])
  }

  /** Begun with empty hands, a drain takes the oldest entries, as many as asked for or there are. */
  lemma DrainTakes(w: World, max: nat, parse: Parser)
    requires Inv(w, parse) && Numbered(w) && w.held == []
    ensures var w' := Next(w, BeginDrain(max), parse); var n := Min(max, |w.ring.entries|);
      && w'.held == w.ring.entries[..n] && w'.heldIds == w.ringIds[..n]
      && w'.ring.entries == w.ring.entries[n..] && w'.ringIds == w.ringIds[n..] && w'.delivered == w.delivered
      && (max >= 8 ==> w'.ring.entries == [])
  {
  }

  // What other steps do to those held.
  lemma HeldStep(w: World, step: Step, parse: Parser)
    requires Numbered(w) && (w.held != [] || !step.BeginDrain?)
    ensures var w' := Next(w, step, parse);
      if step.CheckNext? then w.held != [] ==> w'.held == w.held[1..] && w'.heldIds == w.heldIds[1..]
      else w'.held == w.held && w'.heldIds == w.heldIds && w'.delivered == w.delivered
  {
    hide Pushed, Invalidated;
  }

  /** Whatever pushes and invalidations come in between, each check settles one entry: as many checks as it holds and
      the drain is done. */
  lemma {:induction false} DrainGetsDone(w: World, steps: seq<Step>, parse: Parser)
    requires Numbered(w) && Checks(steps) <= |w.held| && forall i | 0 <= i < |steps| :: !steps[i].BeginDrain?
    ensures var w' := Run(w, steps, parse); w'.held == w.held[Checks(steps)..] && w'.heldIds == w.heldIds[Checks(steps)..]
    decreases |steps|
  {
    hide Next;
    if steps != [] {
      HeldStep(w, steps[0], parse);
      DrainGetsDone(Next(w, steps[0], parse), steps[1..], parse);
    }
  }

  /** The entries whose numbers exceed all before them, and the last one delivered. */
  function Rising(entries: seq<Entry>, ids: seq<nat>, last: Option<nat>, parse: Parser): seq<Delivered>
    requires |ids| == |entries|
  {
    if entries == [] then []
    else
      var e := entries[0];
      if parse(e.line).Some? && (last.None? || last.value < parse(e.line).value.seqNo) then
        var seqNo := parse(e.line).value.seqNo;
        [Delivered(ids[0], e.generation, seqNo)] + Rising(entries[1..], ids[1..], Some(seqNo), parse)
      else Rising(entries[1..], ids[1..], last, parse)
  }

  // The number the next one must exceed.
  function LastNumber(r: Ring): Option<nat> {
    if r.haveLast then Some(r.lastSeq) else None
  }

  lemma RisingStep(w: World, step: Step, parse: Parser)
    requires Inv(w, parse) && Numbered(w) && (w.held != [] || !step.BeginDrain?) && !step.Invalidate?
    requires forall i | 0 <= i < |w.held| :: w.held[i].generation == w.ring.generation
    ensures var w' := Next(w, step, parse);
      && w'.ring.generation == w.ring.generation
      && (forall i | 0 <= i < |w'.held| :: w'.held[i].generation == w'.ring.generation)
      && w'.delivered + Rising(w'.held, w'.heldIds, LastNumber(w'.ring), parse)
        == w.delivered + Rising(w.held, w.heldIds, LastNumber(w.ring), parse)
  {
    hide InArrivalOrder, Conserved, SequencesIncrease, MakeRoom, RoomIds;
    if step.CheckNext? && w.held != [] {
      var rest := Rising(w.held[1..], w.heldIds[1..], Some(parse(w.held[0].line).value.seqNo), parse);
      var one := [Delivered(w.heldIds[0], w.held[0].generation, parse(w.held[0].line).value.seqNo)];
      assert w.delivered + (one + rest) == (w.delivered + one) + rest;
      assert w.delivered + [] == w.delivered;
    }
  }

  lemma {:induction false} DrainRises(w: World, steps: seq<Step>, parse: Parser)
    requires Inv(w, parse) && Numbered(w) && Checks(steps) == |w.held|
    requires forall i | 0 <= i < |steps| :: !steps[i].BeginDrain? && !steps[i].Invalidate?
    requires forall i | 0 <= i < |w.held| :: w.held[i].generation == w.ring.generation
    ensures Run(w, steps, parse).delivered == w.delivered + Rising(w.held, w.heldIds, LastNumber(w.ring), parse)
    decreases |steps|
  {
    hide Next, Inv, Rising;
    if steps == [] {
      NothingRises(w.heldIds, LastNumber(w.ring), parse);
      assert w.delivered + [] == w.delivered;
    } else {
      var w1 := Next(w, steps[0], parse);
      RisingStep(w, steps[0], parse);
      HeldStep(w, steps[0], parse);
      StepKeepsInv(w, steps[0], parse);
      DrainRises(w1, steps[1..], parse);
    }
  }

  lemma NothingRises(ids: seq<nat>, last: Option<nat>, parse: Parser)
    requires ids == []
    ensures Rising([], ids, last, parse) == []
  {
  }

  /** A drain that no invalidation disturbs delivers, of the oldest entries, as many as asked for or there are, exactly
      those whose numbers rise, whatever is pushed meanwhile. */
  lemma DrainDelivers(w: World, max: nat, steps: seq<Step>, parse: Parser)
    requires Inv(w, parse) && Numbered(w) && w.held == [] && Checks(steps) == Min(max, |w.ring.entries|)
    requires forall i | 0 <= i < |steps| :: !steps[i].BeginDrain? && !steps[i].Invalidate?
    ensures var w' := Run(Next(w, BeginDrain(max), parse), steps, parse); var n := Min(max, |w.ring.entries|);
      && w'.held == []
      && w'.delivered == w.delivered + Rising(w.ring.entries[..n], w.ringIds[..n], LastNumber(w.ring), parse)
  {
    hide Rising, Run, Checks, InArrivalOrder, Conserved, SequencesIncrease;
    var w1 := Next(w, BeginDrain(max), parse);
    DrainTakes(w, max, parse);
    StepKeepsInv(w, BeginDrain(max), parse);
    DrainGetsDone(w1, steps, parse);
    DrainRises(w1, steps, parse);
  }

  // ----- The drain of the ring as steps -----

  function CheckAll(n: nat): seq<Step> {
    if n == 0 then [] else [CheckNext] + CheckAll(n - 1)
  }

  // The events handed up, with their numbers and generations.
  predicate HandedUp(events: seq<Transcript>, delivered: seq<Delivered>) {
    |events| == |delivered| && forall i | 0 <= i < |events| :: events[i].seqNo == delivered[i].seqNo
  }

  lemma OneCheck(w: World, parse: Parser)
    requires Numbered(w) && w.held != []
    ensures var w' := Next(w, CheckNext, parse); var (r, accepted) := CheckedOne(w.ring, w.held[0], parse);
      && w'.ring == r && w'.held == w.held[1..]
      && w'.delivered == w.delivered + (if accepted.Some?
                                        then [Delivered(w.heldIds[0], w.held[0].generation, accepted.value.seqNo)] else [])
  {
    hide Checked;
    assert w.delivered + [] == w.delivered;
  }

  lemma {:induction false} ChecksAreSteps(w: World, parse: Parser) returns (more: seq<Delivered>)
    requires Numbered(w)
    ensures var w' := Run(w, CheckAll(|w.held|), parse); var (r, events) := CheckedEach(w.ring, w.held, parse);
      && w'.ring == r && w'.held == [] && w'.delivered == w.delivered + more && HandedUp(events, more)
    decreases |w.held|
  {
    hide Next, CheckedOne;
    more := [];
    assert w.delivered + [] == w.delivered;
    if w.held != [] {
      var w1 := Next(w, CheckNext, parse);
      OneCheck(w, parse);
      var accepted := CheckedOne(w.ring, w.held[0], parse).1;
      assert CheckAll(|w.held|)[1..] == CheckAll(|w1.held|);
      var rest := ChecksAreSteps(w1, parse);
      var first := if accepted.Some? then [Delivered(w.heldIds[0], w.held[0].generation, accepted.value.seqNo)] else [];
      more := first + rest;
      assert w.delivered + more == (w.delivered + first) + rest;
    }
  }

  /** A drain nobody interrupts is its steps: it begins, and checks all it took; what it hands up is what is delivered. */
  lemma DrainIsSteps(w: World, max: nat, parse: Parser) returns (more: seq<Delivered>)
    requires Numbered(w) && w.held == []
    ensures var w1 := Next(w, BeginDrain(max), parse); var w' := Run(w1, CheckAll(|w1.held|), parse);
      var (r, events) := CheckedEach(Taken(w.ring, max).0, Taken(w.ring, max).1, parse);
      && w'.ring == r && w'.held == [] && w'.delivered == w.delivered + more && HandedUp(events, more)
  {
    hide Run, CheckedEach, CheckAll, HandedUp;
    more := ChecksAreSteps(Next(w, BeginDrain(max), parse), parse);
  }

  // Everything numbered below the bound is delivered already or belongs to a dead generation.
  ghost predicate OldAreDead(w: World, delivered: seq<Delivered>, bound: nat) {
    && Numbered(w) && bound <= w.admitted
    && (forall i | 0 <= i < |w.held| :: w.heldIds[i] >= bound || w.held[i].generation < w.ring.generation)
    && (forall i | 0 <= i < |w.ringIds| :: w.ringIds[i] >= bound)
    && (forall i | 0 <= i < |w.delivered| :: w.delivered[i] in delivered || w.delivered[i].id >= bound)
  }

  lemma StepKeepsOldDead(w: World, step: Step, delivered: seq<Delivered>, bound: nat, parse: Parser)
    requires OldAreDead(w, delivered, bound)
    ensures OldAreDead(Next(w, step, parse), delivered, bound)
  {
  }

  lemma {:induction false} RunKeepsOldDead(w: World, steps: seq<Step>, delivered: seq<Delivered>, bound: nat, parse: Parser)
    requires OldAreDead(w, delivered, bound)
    ensures OldAreDead(Run(w, steps, parse), delivered, bound)
    decreases |steps|
  {
    hide Next;
    if steps != [] {
      StepKeepsOldDead(w, steps[0], delivered, bound, parse);
      RunKeepsOldDead(Next(w, steps[0], parse), steps[1..], delivered, bound, parse);
    }
  }

  /** After an invalidation nothing that was buffered or held before it is ever delivered. */
  lemma InvalidationIsFinal(w: World, steps: seq<Step>, parse: Parser)
    requires Inv(w, parse)
    ensures var w' := Run(Next(w, Invalidate, parse), steps, parse);
      forall i | 0 <= i < |w'.delivered| :: w'.delivered[i] in w.delivered || w'.delivered[i].id >= w.admitted
  {
    var w1 := Next(w, Invalidate, parse);
    assert OldAreDead(w1, w.delivered, w.admitted);
    RunKeepsOldDead(w1, steps, w.delivered, w.admitted, parse);
  }

  // ----- What overflow does to finals -----

  predicate Admits(line: string, parse: Parser) {
    |line| < LINE_MAX && parse(line).Some?
  }

  // A push that finds finals in all slots.
  predicate MeetsOnlyFinals(w: World, step: Step, parse: Parser) {
    step.PushLine? && Admits(step.line, parse) && |Finals(w.ring.entries)| == 8
  }

  function PushedFinal(step: Step, parse: Parser): nat {
    if step.PushLine? && Admits(step.line, parse) && parse(step.line).value.isFinal then 1 else 0
  }

  // Finals that leave the ring while a line is pushed.
  ghost function Evicted(w: World, step: Step, parse: Parser): int
    requires Numbered(w)
  {
    if step.PushLine? then
      |Finals(w.ring.entries)| + PushedFinal(step, parse) - |Finals(Next(w, step, parse).ring.entries)|
    else 0
  }

  // Finals that leave it, or the hands of drain, otherwise: checked, or discarded by an invalidation.
  function Settled(w: World, step: Step): nat {
    match step
    case CheckNext => if w.held != [] && w.held[0].isFinal then 1 else 0
    case Invalidate => |Finals(w.ring.entries)|
    case _ => 0
  }

  /** A step evicts a final exactly if it is a push that meets finals only, and then just one. */
  lemma EvictsIff(w: World, step: Step, parse: Parser)
    requires Numbered(w) && |w.ring.entries| <= DEPTH
    ensures Evicted(w, step, parse) == if MeetsOnlyFinals(w, step, parse) then 1 else 0
  {
    hide Pushed, Finals, Remove, MakeRoom;
    FinalsFill(w.ring.entries);
    if step.PushLine? && Admits(step.line, parse) {
      FinalsAfterPush(w.ring, step.line, parse(step.line).value.isFinal);
    }
  }

  // Finals still on their way.
  function FinalsInside(w: World): nat {
    |Finals(w.ring.entries)| + |Finals(w.held)|
  }

  lemma FinalsBalance(w: World, step: Step, parse: Parser)
    requires Numbered(w)
    ensures var w' := Next(w, step, parse);
      && w'.ring.finals == w.ring.finals + PushedFinal(step, parse)
      && FinalsInside(w') == FinalsInside(w) + PushedFinal(step, parse) - Evicted(w, step, parse) - Settled(w, step)
  {
    hide Finals, MakeRoom;
    FinalsStep([]);
    match step {
      case BeginDrain(max) =>
        if w.held == [] {
          var n := if |w.ring.entries| < max then |w.ring.entries| else max;
          FinalsOfParts(w.ring.entries[..n], w.ring.entries[n..]);
          assert w.ring.entries[..n] + w.ring.entries[n..] == w.ring.entries;
        }
      case CheckNext =>
        if w.held != [] {
          FinalsOfParts([w.held[0]], w.held[1..]);
          FinalsOfOne(w.held[0]);
          assert [w.held[0]] + w.held[1..] == w.held;
        }
      case _ =>
    }
  }

  ghost function EvictedInRun(w: World, steps: seq<Step>, parse: Parser): int
    requires Numbered(w)
    decreases |steps|
  {
    if steps == [] then 0
    else Evicted(w, steps[0], parse) + EvictedInRun(Next(w, steps[0], parse), steps[1..], parse)
  }

  ghost function SettledInRun(w: World, steps: seq<Step>, parse: Parser): nat
    requires Numbered(w)
    decreases |steps|
  {
    if steps == [] then 0
    else Settled(w, steps[0]) + SettledInRun(Next(w, steps[0], parse), steps[1..], parse)
  }

  // The state in front of step k.
  ghost function Before(w: World, steps: seq<Step>, k: nat, parse: Parser): World
    requires Numbered(w) && k <= |steps|
  {
    Run(w, steps[..k], parse)
  }

  lemma BeforeLater(w: World, steps: seq<Step>, k: nat, parse: Parser)
    requires Numbered(w) && k < |steps|
    ensures Before(w, steps, k + 1, parse) == Before(Next(w, steps[0], parse), steps[1..], k, parse)
    ensures Before(w, steps, 0, parse) == w
  {
    hide Next;
    assert steps[..k + 1][0] == steps[0] && steps[..k + 1][1..] == steps[1..][..k];
  }

  lemma {:induction false} RunEvictsIff(w: World, steps: seq<Step>, parse: Parser)
    requires Inv(w, parse) && Numbered(w)
    ensures EvictedInRun(w, steps, parse) >= 0
    ensures EvictedInRun(w, steps, parse) == 0 <==>
      forall k: nat | k < |steps| :: !MeetsOnlyFinals(Before(w, steps, k, parse), steps[k], parse)
    decreases |steps|
  {
    hide Next, Inv, MeetsOnlyFinals, Evicted, Before;
    if steps != [] {
      var w1, rest := Next(w, steps[0], parse), steps[1..];
      StepKeepsInv(w, steps[0], parse);
      RingFits(w, parse);
      EvictsIff(w, steps[0], parse);
      RunEvictsIff(w1, rest, parse);
      BeforeLater(w, steps, 0, parse);
      forall k: nat | k < |rest|
        ensures Before(w, steps, k + 1, parse) == Before(w1, rest, k, parse) && steps[k + 1] == rest[k]
      {
        BeforeLater(w, steps, k, parse);
      }
      if forall k: nat | k < |steps| :: !MeetsOnlyFinals(Before(w, steps, k, parse), steps[k], parse) {
        assert !MeetsOnlyFinals(Before(w, steps, 0, parse), steps[0], parse);
        forall k: nat | k < |rest| ensures !MeetsOnlyFinals(Before(w1, rest, k, parse), rest[k], parse) {
          assert !MeetsOnlyFinals(Before(w, steps, k + 1, parse), steps[k + 1], parse);
        }
      } else {
        var k: nat :| k < |steps| && MeetsOnlyFinals(Before(w, steps, k, parse), steps[k], parse);
        if k > 0 {
          assert Before(w, steps, k - 1 + 1, parse) == Before(w1, rest, k - 1, parse);
          assert MeetsOnlyFinals(Before(w1, rest, k - 1, parse), rest[k - 1], parse);
        }
      }
    }
  }

  lemma RingFits(w: World, parse: Parser)
    requires Inv(w, parse)
    ensures |w.ring.entries| <= DEPTH
  {
  }

  lemma {:induction false} RunBalancesFinals(w: World, steps: seq<Step>, parse: Parser)
    requires Numbered(w)
    ensures var w' := Run(w, steps, parse);
      w'.ring.finals - FinalsInside(w') - w.ring.finals + FinalsInside(w)
        == SettledInRun(w, steps, parse) + EvictedInRun(w, steps, parse)
    decreases |steps|
  {
    hide Next, FinalsInside, Evicted, Settled;
    if steps != [] {
      FinalsBalance(w, steps[0], parse);
      RunBalancesFinals(Next(w, steps[0], parse), steps[1..], parse);
    }
  }

  /** In every interleaving each admitted final is buffered, held, checked, invalidated or evicted, and none is evicted
      exactly when no push meets finals in all slots. */
  lemma FinalsInEveryInterleaving(steps: seq<Step>, parse: Parser)
    ensures Numbered(NewWorld)
    ensures var w, evicted := Run(NewWorld, steps, parse), EvictedInRun(NewWorld, steps, parse);
      && w.ring.finals
        == |Finals(w.ring.entries)| + |Finals(w.held)| + SettledInRun(NewWorld, steps, parse) + evicted
      && (evicted == 0 <==>
            forall k: nat | k < |steps| :: !MeetsOnlyFinals(Before(NewWorld, steps, k, parse), steps[k], parse))
  {
    hide *;
    NewWorldInv(parse);
    NothingInside();
    FinalsAreInside(Run(NewWorld, steps, parse));
    RunEvictsIff(NewWorld, steps, parse);
    RunBalancesFinals(NewWorld, steps, parse);
  }

  lemma NothingInside()
    ensures NewWorld.ring.finals == 0 && FinalsInside(NewWorld) == 0
  {
  }

  lemma FinalsAreInside(w: World)
    ensures FinalsInside(w) == |Finals(w.ring.entries)| + |Finals(w.held)|
  {
  }
}
