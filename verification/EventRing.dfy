/** The transcript event ring: a circular buffer that sheds its oldest partial first. */
module EventRing {
  import opened Common

  const DEPTH := 8
  const LINE_MAX := 1280

  datatype Transcript = Transcript(seqNo: nat, isFinal: bool)

  // What the transcript parser makes of a line.
  type Parser = string -> Option<Transcript>

  datatype Entry = Entry(line: string, isFinal: bool, generation: nat)

  // The fields behind the lock, with the circular buffer read out in order.
  datatype Ring = Ring(
    entries: seq<Entry>, generation: nat, lastGeneration: nat, haveLast: bool, lastSeq: nat,
    dropped: nat, rejectedOld: nat, received: nat, partials: nat, finals: nat)

  const NewRing := Ring([], 0, 0, false, 0, 0, 0, 0, 0, 0)

  // ----- Which entry is shed -----

  // Position of the first partial from i on, or the length.
  function FirstPartial(entries: seq<Entry>, i: nat): (k: nat)
    requires i <= |entries|
    ensures i <= k <= |entries|
    ensures forall j | i <= j < k :: entries[j].isFinal
    ensures k < |entries| ==> !entries[k].isFinal
    decreases |entries| - i
  {
    if i < |entries| && entries[i].isFinal then FirstPartial(entries, i + 1) else i
  }

  function Victim(entries: seq<Entry>): nat
    requires entries != []
    ensures Victim(entries) < |entries|
  {
    var k := FirstPartial(entries, 0);
    if k == |entries| then 0 else k
  }

  function Remove<T>(s: seq<T>, k: nat): seq<T>
    requires k < |s|
  {
    s[..k] + s[k + 1..]
  }

  function MakeRoom(entries: seq<Entry>): (r: seq<Entry>)
    ensures |entries| <= DEPTH ==> |r| < DEPTH
  {
    if |entries| == DEPTH then Remove(entries, Victim(entries)) else entries
  }

  // ----- The operations under the lock -----

  function Pushed(r: Ring, line: string, isFinal: bool): Ring {
    r.(entries := MakeRoom(r.entries) + [Entry(line, isFinal, r.generation)],
       dropped := r.dropped + if |r.entries| == DEPTH then 1 else 0,
       received := r.received + 1,
       finals := r.finals + if isFinal then 1 else 0,
       partials := r.partials + if isFinal then 0 else 1)
  }

  // The first lock phase of drain: up to `max` entries leave the ring.
  function Taken(r: Ring, max: nat): (Ring, seq<Entry>) {
    var n := if |r.entries| < max then |r.entries| else max;
    (r.(entries := r.entries[n..]), r.entries[..n])
  }

  datatype Verdict = Accepted | DeadGeneration | OldSequence

  // The second lock phase: the check of one taken entry.
  function Checked(r: Ring, entry: Entry, seqNo: nat): (Ring, Verdict) {
    if entry.generation != r.generation then (r.(dropped := r.dropped + 1), DeadGeneration)
    else
      var r1 := if r.lastGeneration != entry.generation
                then r.(lastGeneration := entry.generation, haveLast := false, lastSeq := 0) else r;
      if r1.haveLast && seqNo <= r1.lastSeq then (r1.(rejectedOld := r1.rejectedOld + 1), OldSequence)
      else (r1.(lastSeq := seqNo, haveLast := true), Accepted)
  }

  function CheckedOne(r: Ring, entry: Entry, parse: Parser): (Ring, Option<Transcript>) {
    var target := parse(entry.line);
    if target.None? then (r, None)
    else
      var (r1, verdict) := Checked(r, entry, target.value.seqNo);
      (r1, if verdict.Accepted? then target else None)
  }

  // The checks of all taken entries, one after the other.
  function CheckedEach(r: Ring, held: seq<Entry>, parse: Parser): (Ring, seq<Transcript>)
    decreases |held|
  {
    if held == [] then (r, [])
    else
      var (r1, accepted) := CheckedOne(r, held[0], parse);
      var (r2, es) := CheckedEach(r1, held[1..], parse);
      (r2, if accepted.Some? then [accepted.value] + es else es)
  }

  function Invalidated(r: Ring): Ring {
    r.(generation := r.generation + 1, haveLast := false, lastSeq := 0, lastGeneration := r.generation + 1,
       dropped := r.dropped + |r.entries|, entries := [])
  }

  // ----- The circular layout -----

  // The slot i places behind another.
  function Slot(head: nat, i: nat): (k: nat)
    ensures k < DEPTH
  {
    (head + i) % DEPTH
  }

  // The buffered entries, oldest first.
  function InOrder<T>(slots: seq<T>, head: nat, count: nat): (r: seq<T>)
    requires |slots| == DEPTH && head < DEPTH && count <= DEPTH
    ensures |r| == count
  {
    seq(count, i requires 0 <= i => slots[Slot(head, i)])
  }

  lemma SlotIs(head: nat, i: nat)
    requires head < DEPTH && i <= DEPTH
    ensures Slot(head, i) == if head + i < DEPTH then head + i else head + i - DEPTH
  {
  }

  lemma SlotSteps(head: nat, i: nat)
    requires head < DEPTH && i < DEPTH
    ensures Slot(head, 0) == head
    ensures Slot(Slot(head, 1), i) == Slot(head, i + 1)
    ensures 0 < i ==> Slot(head, i) != head && Slot(Slot(head, i), DEPTH - 1) == Slot(head, i - 1)
  {
    hide Slot;
    SlotIs(head, 0);
    SlotIs(head, 1);
    SlotIs(head, i);
    SlotIs(head, i + 1);
    SlotIs(Slot(head, 1), i);
    SlotIs(Slot(head, i), DEPTH - 1);
    if i > 0 {
      SlotIs(head, i - 1);
    }
  }

  lemma SameSlot(head: nat, i: nat, j: nat)
    requires head < DEPTH && i < DEPTH && j < DEPTH && Slot(head, i) == Slot(head, j)
    ensures i == j
  {
    hide Slot;
    SlotIs(head, i);
    SlotIs(head, j);
  }

  lemma DropHead<T>(slots: seq<T>, head: nat, count: nat)
    requires |slots| == DEPTH && head < DEPTH && 0 < count <= DEPTH
    ensures InOrder(slots, Slot(head, 1), count - 1) == InOrder(slots, head, count)[1..]
    ensures InOrder(slots, head, count)[0] == slots[head]
  {
    hide Slot;
    forall i: nat | i < DEPTH
      ensures Slot(Slot(head, 1), i) == Slot(head, i + 1)
    {
      SlotSteps(head, i);
    }
    SlotSteps(head, 0);
  }

  lemma WriteSlot<T>(slots: seq<T>, head: nat, count: nat, j: nat, e: T)
    requires |slots| == DEPTH && head < DEPTH && count <= DEPTH && j < DEPTH
    ensures var written := InOrder(slots[Slot(head, j) := e], head, count);
      written == if j < count then InOrder(slots, head, count)[j := e] else InOrder(slots, head, count)
  {
    hide Slot;
    forall i: nat | i < count && Slot(head, i) == Slot(head, j)
      ensures i == j
    {
      SameSlot(head, i, j);
    }
  }

  lemma PutTail<T>(slots: seq<T>, head: nat, count: nat, e: T)
    requires |slots| == DEPTH && head < DEPTH && count < DEPTH
    ensures InOrder(slots[Slot(head, count) := e], head, count + 1) == InOrder(slots, head, count) + [e]
  {
    hide Slot;
    var after := slots[Slot(head, count) := e];
    WriteSlot(slots, head, count, count, e);
    assert InOrder(after, head, count + 1)[..count] == InOrder(after, head, count);
  }

  // Copying the predecessor into the victim's slot closes the gap by one.
  lemma ShiftUp<T>(slots: seq<T>, head: nat, count: nat, j: nat)
    requires |slots| == DEPTH && head < DEPTH && 0 < j < count <= DEPTH
    ensures var victim := Slot(head, j); var previous := Slot(victim, DEPTH - 1);
      && victim != head && previous == Slot(head, j - 1)
      && InOrder(slots[victim := slots[previous]], head, count)
        == InOrder(slots, head, count)[j := InOrder(slots, head, count)[j - 1]]
  {
    hide Slot;
    SlotSteps(head, j);
    var e := slots[Slot(head, j - 1)];
    assert InOrder(slots, head, count)[j - 1] == e;
    hide InOrder;
    WriteSlot(slots, head, count, j, e);
  }

  // The entries at positions j + 1 to k have moved up by one.
  ghost function Shifted<T>(was: seq<T>, j: nat, k: nat): seq<T>
    requires j <= k < |was|
  {
    seq(|was|, i requires 0 <= i < |was| => if j < i <= k then was[i - 1] else was[i])
  }

  lemma ShiftedSteps<T>(was: seq<T>, j: nat, k: nat)
    requires j <= k < |was|
    ensures j == k ==> Shifted(was, j, k) == was
    ensures j > 0 ==> Shifted(was, j, k)[j := Shifted(was, j, k)[j - 1]] == Shifted(was, j - 1, k)
    ensures j == 0 ==> Shifted(was, j, k)[1..] == Remove(was, k)
  {
  }

  datatype PushResult = Ok(isFinal: bool) | Invalid

  /** The shared object. */
  class EventRing {
    const slots: array<Entry>
    const parse: Parser
    var head: nat
    var count: nat
    var sessionGeneration: nat
    var lastEventGeneration: nat
    var haveLastEventSeq: bool
    var lastEventSeq: nat
    var eventsDropped: nat
    var eventsRejectedOld: nat
    var transcriptsReceived: nat
    var transcriptsPartial: nat
    var transcriptsFinal: nat

    ghost predicate Valid()
      reads this
    {
      slots.Length == DEPTH && head < DEPTH && count <= DEPTH
    }

    ghost function Entries(): (r: seq<Entry>)
      requires Valid()
      reads this, slots
      ensures |r| == count
    {
      InOrder(slots[..], head, count)
    }

    ghost function View(): Ring
      requires Valid()
      reads this, slots
    {
      Ring(Entries(), sessionGeneration, lastEventGeneration, haveLastEventSeq, lastEventSeq,
           eventsDropped, eventsRejectedOld, transcriptsReceived, transcriptsPartial, transcriptsFinal)
    }

    constructor (parse: Parser)
      ensures Valid() && fresh(slots)
      ensures View() == NewRing && this.parse == parse
    {
      slots := new Entry[DEPTH](_ => Entry("", false, 0));
      this.parse := parse;
      head, count, sessionGeneration, lastEventGeneration, haveLastEventSeq, lastEventSeq := 0, 0, 0, 0, false, 0;
      eventsDropped, eventsRejectedOld, transcriptsReceived, transcriptsPartial, transcriptsFinal := 0, 0, 0, 0, 0;
    }

    // Finds the oldest partial; if all are finals, the oldest entry.
    method FindVictim() returns (k: nat)
      requires Valid() && count == DEPTH
      ensures k == Victim(Entries())
    {
      for i := 0 to DEPTH
        invariant FirstPartial(Entries(), 0) == FirstPartial(Entries(), i)
      {
        assert Entries()[i] == slots[Slot(head, i)];
        if !slots[Slot(head, i)].isFinal {
          return i;
        }
      }
      return 0;
    }

    // Shifts the entries before the victim one slot up and lets the head follow.
    method Shed(k: nat)
      requires Valid() && k < count
      modifies this`head, this`count, this`eventsDropped, slots
      ensures Valid() && count == old(count) - 1 && eventsDropped == old(eventsDropped) + 1
      ensures Entries() == Remove(old(Entries()), k)
    {
      hide InOrder, Shifted, Remove, Slot;
      ghost var was := Entries();
      var victim := Slot(head, k);
      ghost var j: nat := k;
      ShiftedSteps(was, k, k);
      SlotSteps(head, 0);
      while victim != head
        invariant j <= k && victim == Slot(head, j)
        invariant Entries() == Shifted(was, j, k)
        decreases j
        modifies slots
      {
        ghost var before := slots[..];
        ShiftUp(before, head, count, j);
        var previous := Slot(victim, DEPTH - 1);
        slots[victim] := slots[previous];
        assert slots[..] == before[victim := before[previous]];
        ShiftedSteps(was, j, k);
        victim := previous;
        j := j - 1;
      }
      assert j == 0 by { SameSlot(head, j, 0); }
      ShiftedSteps(was, 0, k);
      DropHead(slots[..], head, count);
      head := Slot(head, 1);
      count := count - 1;
      eventsDropped := eventsDropped + 1;
    }

    // Writes behind the newest entry.
    method Append(entry: Entry)
      requires Valid() && count < DEPTH
      modifies this`count, slots
      ensures Valid() && count == old(count) + 1
      ensures Entries() == old(Entries()) + [entry]
    {
      hide InOrder;
      PutTail(slots[..], head, count, entry);
      var tail := Slot(head, count);
      slots[tail] := entry;
      count := count + 1;
    }

    method Push(line: string) returns (r: PushResult)
      requires Valid()
      modifies this, slots
      ensures Valid()
      ensures r.Invalid? <==> |line| >= 1280 || parse(line).None?
      ensures r.Invalid? ==> View() == old(View())
      ensures r.Ok? ==> r.isFinal == parse(line).value.isFinal && View() == Pushed(old(View()), line, r.isFinal)
    {
      hide InOrder, Victim, Remove;
      if |line| >= LINE_MAX {
        return Invalid;
      }
      var parsed := parse(line);
      if parsed.None? {
        return Invalid;
      }
      var isFinal := parsed.value.isFinal;
      if count == DEPTH {
        var k := FindVictim();
        Shed(k);
      }
      Append(Entry(line, isFinal, sessionGeneration));
      transcriptsReceived := transcriptsReceived + 1;
      if isFinal {
        transcriptsFinal := transcriptsFinal + 1;
      } else {
        transcriptsPartial := transcriptsPartial + 1;
      }
      r := Ok(isFinal);
    }

    method Take(max: nat) returns (pending: seq<Entry>)
      requires Valid()
      modifies this`head, this`count
      ensures Valid()
      ensures (View(), pending) == Taken(old(View()), max)
      ensures pending + Entries() == old(Entries()) && |pending| <= max && (|pending| == max || Entries() == [])
    {
      hide InOrder;
      pending := [];
      ghost var was := Entries();
      while count > 0 && |pending| < max && |pending| < DEPTH
        invariant Valid() && |pending| + count == |was| && |pending| <= max
        invariant pending == was[..|pending|] && Entries() == was[|pending|..]
      {
        DropHead(slots[..], head, count);
        pending := pending + [slots[head]];
        head := Slot(head, 1);
        count := count - 1;
      }
    }

    method Check(entry: Entry, seqNo: nat) returns (verdict: Verdict)
      requires Valid()
      modifies this`eventsDropped, this`eventsRejectedOld, this`lastEventGeneration, this`haveLastEventSeq, this`lastEventSeq
      ensures Valid()
      ensures (View(), verdict) == Checked(old(View()), entry, seqNo)
    {
      if entry.generation != sessionGeneration {
        eventsDropped := eventsDropped + 1;
        return DeadGeneration;
      }
      if lastEventGeneration != entry.generation {
        lastEventGeneration, haveLastEventSeq, lastEventSeq := entry.generation, false, 0;
      }
      if haveLastEventSeq && seqNo <= lastEventSeq {
        eventsRejectedOld := eventsRejectedOld + 1;
        return OldSequence;
      }
      lastEventSeq, haveLastEventSeq := seqNo, true;
      verdict := Accepted;
    }

    // Parses one taken line and checks it; an unparsable one is passed over.
    method CheckLine(entry: Entry) returns (accepted: Option<Transcript>)
      requires Valid()
      modifies this`eventsDropped, this`eventsRejectedOld, this`lastEventGeneration, this`haveLastEventSeq, this`lastEventSeq
      ensures Valid()
      ensures (View(), accepted) == CheckedOne(old(View()), entry, parse)
    {
      var target := parse(entry.line);
      if target.None? {
        return None;
      }
      var verdict := Check(entry, target.value.seqNo);
      accepted := if verdict.Accepted? then target else None;
    }

    method CheckEach(pending: seq<Entry>) returns (events: seq<Transcript>)
      requires Valid()
      modifies this`eventsDropped, this`eventsRejectedOld, this`lastEventGeneration, this`haveLastEventSeq, this`lastEventSeq
      ensures Valid()
      ensures (View(), events) == CheckedEach(old(View()), pending, parse)
    {
      hide InOrder, CheckedOne;
      events := [];
      assert pending[0..] == pending;
      ghost var goal := CheckedEach(View(), pending, parse);
      assert events + goal.1 == goal.1;
      for i := 0 to |pending|
        invariant Valid()
        invariant CheckedEach(View(), pending[i..], parse).0 == goal.0
        invariant events + CheckedEach(View(), pending[i..], parse).1 == goal.1
      {
        assert pending[i..][0] == pending[i] && pending[i..][1..] == pending[i + 1..];
        var accepted := CheckLine(pending[i]);
        ghost var later := CheckedEach(View(), pending[i + 1..], parse).1;
        if accepted.Some? {
          assert events + ([accepted.value] + later) == (events + [accepted.value]) + later;
          events := events + [accepted.value];
        }
      }
      assert events + [] == events;
    }

    /** A drain nobody interrupts: what is handed up is what the checks accept, in order. */
    method Drain(max: nat) returns (events: seq<Transcript>)
      requires Valid()
      modifies this
      ensures Valid()
      ensures (View(), events) == CheckedEach(Taken(old(View()), max).0, Taken(old(View()), max).1, parse)
    {
      hide InOrder, CheckedEach;
      var pending := Take(max);
      events := CheckEach(pending);
    }

    method InvalidateSession() returns (discarded: nat)
      requires Valid()
      modifies this
      ensures Valid()
      ensures View() == Invalidated(old(View())) && discarded == |old(Entries())|
      ensures Entries() == [] && sessionGeneration == old(sessionGeneration) + 1
    {
      sessionGeneration := sessionGeneration + 1;
      haveLastEventSeq, lastEventSeq, lastEventGeneration := false, 0, sessionGeneration;
      discarded := count;
      eventsDropped := eventsDropped + discarded;
      head, count := 0, 0;
    }
  }

  // ----- What overflow loses -----

  /** Overflow sheds one entry, the first partial or else the oldest final; the survivors keep their order. */
  lemma OverflowShedsOldestPartial(r: Ring, line: string, isFinal: bool) returns (k: nat)
    requires |r.entries| == DEPTH
    ensures k < DEPTH
    ensures Pushed(r, line, isFinal).entries
      == r.entries[..k] + r.entries[k + 1..] + [Entry(line, isFinal, r.generation)]
    ensures forall i | 0 <= i < k :: r.entries[i].isFinal
    ensures r.entries[k].isFinal ==> k == 0 && forall i | 0 <= i < DEPTH :: r.entries[i].isFinal
  {
    k := Victim(r.entries);
  }

  // The finals among the entries, in order.
  function Finals(entries: seq<Entry>): seq<Entry> {
    if entries == [] then []
    else Finals(entries[..|entries| - 1]) + if entries[|entries| - 1].isFinal then [entries[|entries| - 1]] else []
  }

  lemma FinalsStep(entries: seq<Entry>)
    ensures Finals([]) == []
    ensures entries != [] ==>
      var rest, last := entries[..|entries| - 1], entries[|entries| - 1];
      Finals(entries) == Finals(rest) + if last.isFinal then [last] else []
  {
  }

  lemma {:induction false} FinalsOfParts(left: seq<Entry>, right: seq<Entry>)
    ensures Finals(left + right) == Finals(left) + Finals(right)
  {
    hide *;
    FinalsStep(right);
    if right == [] {
      assert left + right == left;
    } else {
      var rest, last := right[..|right| - 1], right[|right| - 1];
      FinalsOfParts(left, rest);
      FinalsStep(left + right);
      assert (left + right)[..|left + right| - 1] == left + rest;
    }
  }

  lemma FinalsOfOne(e: Entry)
    ensures Finals([e]) == if e.isFinal then [e] else []
  {
    FinalsStep([e]);
    assert [e][..0] == [];
  }

  lemma FinalsWithout(entries: seq<Entry>, k: nat)
    requires k < |entries|
    ensures entries[k].isFinal ==> |Finals(Remove(entries, k))| == |Finals(entries)| - 1
    ensures !entries[k].isFinal ==> Finals(Remove(entries, k)) == Finals(entries)
  {
    hide *;
    var left, e, right := entries[..k], entries[k], entries[k + 1..];
    RemoveIs(entries, k);
    assert entries == left + ([e] + right);
    FinalsOfParts(left, [e] + right);
    FinalsOfParts([e], right);
    FinalsOfParts(left, right);
    FinalsOfOne(e);
  }

  lemma RemoveIs(entries: seq<Entry>, k: nat)
    requires k < |entries|
    ensures Remove(entries, k) == entries[..k] + entries[k + 1..]
  {
  }

  lemma {:induction false} FinalsFill(entries: seq<Entry>)
    ensures |Finals(entries)| <= |entries|
    ensures |Finals(entries)| == |entries| <==> forall i | 0 <= i < |entries| :: entries[i].isFinal
    ensures |Finals(entries)| == |entries| ==> Finals(entries) == entries
  {
    hide *;
    FinalsStep(entries);
    if entries != [] {
      var rest := entries[..|entries| - 1];
      FinalsFill(rest);
      assert entries == rest + [entries[|entries| - 1]];
    }
  }

  function PushedEach(r: Ring, lines: seq<(string, bool)>): Ring
    decreases |lines|
  {
    if lines == [] then r else PushedEach(Pushed(r, lines[0].0, lines[0].1), lines[1..])
  }

  function FinalLines(lines: seq<(string, bool)>, generation: nat): seq<Entry> {
    if lines == [] then []
    else (if lines[0].1 then [Entry(lines[0].0, true, generation)] else []) + FinalLines(lines[1..], generation)
  }

  function OneFinal(line: string, isFinal: bool, generation: nat): seq<Entry> {
    if isFinal then [Entry(line, true, generation)] else []
  }

  lemma PushedIs(r: Ring, line: string, isFinal: bool)
    ensures Pushed(r, line, isFinal).entries == MakeRoom(r.entries) + [Entry(line, isFinal, r.generation)]
    ensures Pushed(r, line, isFinal).generation == r.generation
    ensures MakeRoom(r.entries) == if |r.entries| == DEPTH then Remove(r.entries, Victim(r.entries)) else r.entries
  {
  }

  // What a push does to the finals.
  lemma FinalsAfterPush(r: Ring, line: string, isFinal: bool)
    requires |r.entries| <= DEPTH
    ensures var after := Finals(Pushed(r, line, isFinal).entries);
      && (|Finals(r.entries)| < DEPTH ==> after == Finals(r.entries) + OneFinal(line, isFinal, r.generation))
      && (|Finals(r.entries)| == DEPTH ==> after == Finals(r.entries)[1..] + OneFinal(line, isFinal, r.generation))
  {
    hide *;
    PushedIs(r, line, isFinal);
    var e := Entry(line, isFinal, r.generation);
    FinalsOfParts(MakeRoom(r.entries), [e]);
    FinalsOfOne(e);
    OneFinalIs(line, isFinal, r.generation);
    FinalsFill(r.entries);
    if |r.entries| == DEPTH {
      VictimIn(r.entries);
      FinalsWithout(r.entries, Victim(r.entries));
      if |Finals(r.entries)| == DEPTH {
        AllFinalsLoseTheFirst(r.entries);
      }
    }
  }

  lemma OneFinalIs(line: string, isFinal: bool, generation: nat)
    ensures OneFinal(line, isFinal, generation) == if isFinal then [Entry(line, isFinal, generation)] else []
  {
  }

  lemma VictimIn(entries: seq<Entry>)
    requires |entries| == DEPTH
    ensures Victim(entries) < |entries| && DEPTH > 0
    ensures entries[Victim(entries)].isFinal ==> |Finals(entries)| == DEPTH
  {
    hide Finals;
    FinalsFill(entries);
  }

  lemma AllFinalsLoseTheFirst(entries: seq<Entry>)
    requires |entries| == DEPTH && |Finals(entries)| == DEPTH
    ensures Finals(Remove(entries, Victim(entries))) == Finals(entries)[1..]
  {
    hide Finals;
    FinalsFill(entries);
    assert Remove(entries, Victim(entries)) == entries[1..];
    FinalsFill(entries[1..]);
  }

  /** A push keeps all finals exactly when they leave one of the eight slots free, whatever else is buffered and whatever
      arrives. */
  lemma PushKeepsFinalsIff(r: Ring, line: string, isFinal: bool)
    requires |r.entries| <= 8
    ensures Finals(Pushed(r, line, isFinal).entries) == Finals(r.entries) + OneFinal(line, isFinal, r.generation)
      <==> |Finals(r.entries)| < 8
  {
    hide *;
    SomeSlots();
    FinalsAfterPush(r, line, isFinal);
    FinalsFill(r.entries);
  }

  lemma SomeSlots()
    ensures DEPTH == 8
  {
  }

  lemma PushStep(r: Ring, lines: seq<(string, bool)>)
    requires lines != [] && |r.entries| <= DEPTH
    ensures var r1 := Pushed(r, lines[0].0, lines[0].1);
      && PushedEach(r, lines) == PushedEach(r1, lines[1..]) && |r1.entries| <= DEPTH && r1.generation == r.generation
    ensures FinalLines(lines, r.generation)
      == OneFinal(lines[0].0, lines[0].1, r.generation) + FinalLines(lines[1..], r.generation)
  {
  }

  lemma NoPush(r: Ring)
    ensures PushedEach(r, []) == r && FinalLines([], r.generation) == []
  {
  }

  // Pushes never bring a lost final back.
  lemma {:induction false} FinalsAtMost(r: Ring, lines: seq<(string, bool)>)
    requires |r.entries| <= DEPTH
    ensures |Finals(PushedEach(r, lines).entries)| <= |Finals(r.entries)| + |FinalLines(lines, r.generation)|
    decreases |lines|
  {
    hide *;
    if lines == [] {
      NoPush(r);
    } else {
      PushStep(r, lines);
      FinalsAfterPush(r, lines[0].0, lines[0].1);
      FinalsFill(r.entries);
      FinalsAtMost(Pushed(r, lines[0].0, lines[0].1), lines[1..]);
    }
  }

  /** A run of pushes loses no final exactly when the finals in front of its last push leave a slot free. */
  lemma {:induction false} FinalsSurviveIff(r: Ring, lines: seq<(string, bool)>)
    requires |r.entries| <= DEPTH
    ensures Finals(PushedEach(r, lines).entries) == Finals(r.entries) + FinalLines(lines, r.generation) <==>
      lines == [] || |Finals(r.entries)| + |FinalLines(lines[..|lines| - 1], r.generation)| < DEPTH
    decreases |lines|
  {
    hide *;
    if lines == [] {
      NoPush(r);
      assert Finals(r.entries) + [] == Finals(r.entries);
    } else {
      var g, first, rest := r.generation, lines[0], lines[1..];
      var r1, one := Pushed(r, first.0, first.1), OneFinal(first.0, first.1, g);
      PushStep(r, lines);
      FinalsAfterPush(r, first.0, first.1);
      FinalsFill(r.entries);
      FinalsAtMost(r1, rest);
      FinalsSurviveIff(r1, rest);
      FinalLinesBefore(lines, g);
      if |Finals(r.entries)| < DEPTH {
        assert (Finals(r.entries) + one) + FinalLines(rest, g) == Finals(r.entries) + FinalLines(lines, g);
      }
    }
  }

  // The finals in front of the last line.
  lemma FinalLinesBefore(lines: seq<(string, bool)>, generation: nat)
    requires lines != []
    ensures FinalLines([], generation) == [] && DEPTH > 0
    ensures |lines| == 1 ==> lines[..0] == [] && FinalLines(lines[1..], generation) == []
    ensures |lines| > 1 ==>
      |FinalLines(lines[..|lines| - 1], generation)|
        == |OneFinal(lines[0].0, lines[0].1, generation)| + |FinalLines(lines[1..][..|lines| - 2], generation)|
  {
    var front := lines[..|lines| - 1];
    if |lines| > 1 {
      assert front[1..] == lines[1..][..|lines| - 2];
    }
  }

  /** With finals in all slots even an arriving partial costs the oldest final. */
  lemma PartialEvictsFinal(r: Ring, line: string)
    requires |r.entries| == DEPTH && |Finals(r.entries)| == DEPTH
    ensures Finals(Pushed(r, line, false).entries) == Finals(r.entries)[1..]
  {
    hide *;
    FinalsAfterPush(r, line, false);
    OneFinalIs(line, false, r.generation);
  }
}
