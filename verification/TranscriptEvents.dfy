/** What the adapter sends: which events a step gives, how words are laid out on lines, and when events start and end. */
module TranscriptEvents {
  import opened Common
  import opened Words
  import opened CommittedBoundary
  import opened TranscriptAdapter
  import opened TranscriptRun

  // ----- Lines -----

  predicate FinishesSentence(text: string) {
    text != "" && text[|text| - 1] in {'.', '?', '!', '\U{2026}'}
  }

  // The words of the lines.
  function Lines(events: seq<Event>): seq<seq<Word>> {
    if events == [] then [] else [Split(events[0].fullText)] + Lines(events[1..])
  }

  /** Words laid out on lines, and what is left. While they do not fit 55 characters the longest line that fits goes, or
      one single word. What fits goes only as a finished sentence of an open utterance. */
  ghost predicate LaidOut(words: seq<Word>, lines: seq<seq<Word>>, rest: seq<Word>, open: bool)
    decreases |lines|
  {
    var fits := |Join(words)| <= 55;
    var finished := open && FinishesSentence(Join(words));
    if lines == [] then rest == words && fits && !finished
    else
      var line := lines[0];
      && line != [] && line <= words
      && (if fits then finished && line == words
          else (|line| == 1 || |Join(line)| <= 55) && (line != words ==> |Join(words[..|line| + 1])| > 55))
      && LaidOut(words[|line|..], lines[1..], rest, open)
  }

  // The next line is laid out as it should be.
  lemma NextLineFits(s: AdapterState, close: bool)
    requires s.Valid()
    ensures var n, words := NextLine(s, close), s.Pending();
      var fits, finished := |Join(words)| <= 55, !close && FinishesSentence(Join(words));
      && n <= |words| && (n == 0 <==> fits && !finished)
      && (n > 0 ==> words[..n] != [] && words[..n] <= words
                    && if fits then words[..n] == words
                       else (n == 1 || |Join(words[..n])| <= 55) && (n < |words| ==> |Join(words[..n + 1])| > 55))
  {
    hide Solid, Join;
    JoinIsEmpty(s.Pending());
    assert s.Pending()[..|s.Pending()|] == s.Pending();
  }

  lemma LaidOutStep(words: seq<Word>, n: nat, lines: seq<seq<Word>>, rest: seq<Word>, open: bool)
    requires 0 < n <= |words| && LaidOut(words[n..], lines, rest, open)
    requires var fits, finished := |Join(words)| <= 55, open && FinishesSentence(Join(words));
      if fits then finished && words[..n] == words
      else (n == 1 || |Join(words[..n])| <= 55) && (n < |words| ==> |Join(words[..n + 1])| > 55)
    ensures LaidOut(words, [words[..n]] + lines, rest, open)
  {
    hide Solid, Join, FinishesSentence;
    var all := [words[..n]] + lines;
    assert all[0] == words[..n] && all[1..] == lines;
  }

  // Finished lines, all of one kind and one end, each starting where the one in front ended.
  ghost predicate AreLines(events: seq<Event>, start: real, at: Clock) {
    && (forall i | 0 <= i < |events| ::
          && events[i].isFinal && events[i].reason == DisplayRollup
          && events[i].endSec == at.end && events[i].fromSegments == at.fromSegments
          && events[i].startSec == if i == 0 then start else at.end)
  }

  function StartOf(s: AdapterState): real {
    if s.startSec.Some? then s.startSec.value else s.lastEnd
  }

  lemma OneMoreLine(e: Event, events: seq<Event>, start: real, at: Clock)
    requires e.isFinal && e.reason == DisplayRollup && e.endSec == at.end && e.fromSegments == at.fromSegments
    requires e.startSec == start && AreLines(events, at.end, at)
    ensures AreLines([e] + events, start, at)
    ensures Lines([e] + events) == [Split(e.fullText)] + Lines(events)
  {
    hide Split;
    assert ([e] + events)[1..] == events;
  }

  /** The finished lines of a roll-up. */
  lemma {:induction false} LinesOf(s: AdapterState, close: bool, at: Clock)
    requires s.Valid()
    ensures var (s', es) := RollLines(s, close, at);
      && AreLines(es, StartOf(s), at) && LaidOut(s.Pending(), Lines(es), s'.Pending(), !close)
      && s'.startSec == (if es == [] then s.startSec else Some(at.end)) && s'.lastEnd == s.lastEnd
      && s'.lastPartial == (if es == [] then s.lastPartial else None)
    decreases |s.words| - s.promoted
  {
    hide *;
    NextLineFits(s, close);
    RollLinesTurn(s, close, at);
    NoLines(StartOf(s), at);
    var n := NextLine(s, close);
    if n == 0 {
      NothingLaidOut(s.Pending(), !close);
    } else {
      var (s1, e) := Promote(s, n, DisplayRollup, at);
      LineIs(s, n, at);
      LinesOf(s1, close, at);
      var (s2, es) := RollLines(s1, close, at);
      OneMoreLine(e, es, StartOf(s), at);
      LaidOutStep(s.Pending(), n, Lines(es), s2.Pending(), !close);
    }
  }

  lemma NoLines(start: real, at: Clock)
    ensures AreLines([], start, at) && Lines([]) == []
  {
  }

  lemma NothingLaidOut(words: seq<Word>, open: bool)
    requires |Join(words)| <= 55 && !(open && FinishesSentence(Join(words)))
    ensures LaidOut(words, [], words, open)
  {
    hide Join, FinishesSentence;
  }

  lemma LineIs(s: AdapterState, n: nat, at: Clock)
    requires s.Valid() && n <= |s.Pending()|
    ensures var (s', e) := Promote(s, n, DisplayRollup, at);
      && e.isFinal && e.reason == DisplayRollup && e.endSec == at.end && e.fromSegments == at.fromSegments
      && e.startSec == StartOf(s) && Split(e.fullText) == s.Pending()[..n]
      && s'.Valid() && s'.Pending() == s.Pending()[n..] && StartOf(s') == at.end && s'.startSec == Some(at.end)
      && s'.lastEnd == s.lastEnd && s'.lastPartial == None
  {
    hide Solid, Join, Split, Tail;
    SplitOfJoin(s.Pending()[..n]);
  }

  // ----- The events of a step -----

  // The event behind the lines, if there is one.
  ghost predicate EndsWith(events: seq<Event>, k: nat, reason: Reason, words: seq<Word>, start: real, at: Clock) {
    && |events| == k + 1
    && var e := events[k];
      && e.reason == reason && (e.isFinal <==> reason != Partial) && e.fullText == Join(words)
      && e.startSec == start && e.endSec == at.end && e.fromSegments == at.fromSegments
  }

  /** A roll-up of an open utterance: finished lines, then the words left as the live partial, unless they are no news. */
  lemma OpenRollup(s: AdapterState, at: Clock) returns (k: nat)
    requires s.Valid()
    ensures var (s', es) := Rollup(s, None, at); var live := s'.Pending();
      var start := if k == 0 then StartOf(s) else at.end;
      && k <= |es| && AreLines(es[..k], StartOf(s), at) && LaidOut(s.Pending(), Lines(es[..k]), live, true)
      && (if live != [] && !(k == 0 && s.lastPartial == Some(Join(live)))
          then EndsWith(es, k, Partial, live, start, at) else |es| == k)
      && s'.lastPartial == (if live != [] then Some(Join(live)) else if k == 0 then s.lastPartial else None)
      && s'.startSec == (if k == 0 then s.startSec else Some(at.end)) && s'.lastEnd == s.lastEnd
  {
    hide Solid, Split, Join, RollLines, LaidOut, AreLines, Tail, Lines;
    LinesOf(s, false, at);
    var (s1, lines) := RollLines(s, false, at);
    k := |lines|;
    assert Rollup(s, None, at).1[..k] == lines;
  }

  /** A closing roll-up: finished lines, then the words left as one final with the reason of the close. */
  lemma ClosedRollup(s: AdapterState, reason: Reason, at: Clock) returns (k: nat, rest: seq<Word>)
    requires s.Valid() && reason != Partial && reason != DisplayRollup
    ensures var (s', es) := Rollup(s, Some(reason), at);
      var start := if k == 0 then StartOf(s) else at.end;
      && k <= |es| && AreLines(es[..k], StartOf(s), at)
      && LaidOut(s.Pending(), Lines(es[..k]), rest, false)
      && if rest != [] then EndsWith(es, k, reason, rest, start, at) else |es| == k
  {
    hide Solid, Split, Join, RollLines, LaidOut, AreLines, Tail, Lines;
    LinesOf(s, true, at);
    var (s1, lines) := RollLines(s, true, at);
    k, rest := |lines|, s1.Pending();
    assert Rollup(s, Some(reason), at).1[..k] == lines;
    assert rest[..|rest|] == rest;
  }

  // When the first line of a hypothesis starts: where the utterance stands, or with the step.
  function HypothesisStart(s: AdapterState, times: Times): real {
    if s.startSec.Some? then s.startSec.value else if times.audioStart.Some? then times.audioStart.value else s.lastEnd
  }

  /** The events of a hypothesis, whatever it revises. A partial is sent, as the last event, exactly if words are left
      and they are not the live words already shown; otherwise they are counted as a repeat. */
  lemma HypothesisEvents(s: AdapterState, words: seq<Word>, times: Times, align: Aligner) returns (k: nat)
    requires s.Valid() && Aligns(align) && words != []
    ensures var (s', es) := IngestPartial(s, words, times, align);
      var live, at, start := s'.Pending(), Clock(s.lastEnd, false), HypothesisStart(s, times);
      && k <= |es| && AreLines(es[..k], start, at)
      && LaidOut(words[Revise(s, words, align).promoted..], Lines(es[..k]), live, true)
      && (if live != [] && !(k == 0 && s.lastPartial == Some(Join(live)))
          then EndsWith(es, k, Partial, live, if k == 0 then start else at.end, at) else |es| == k)
      && s'.lastPartial == (if live != [] then Some(Join(live)) else if k == 0 then s.lastPartial else None)
      && s'.startSec == Some(if k == 0 then start else s.lastEnd) && s'.lastEnd == s.lastEnd
  {
    hide Solid, Split, Join, Rollup, LaidOut, AreLines, Lines, MapBoundary, Rewritten, EndsWith;
    var r := ReadyToShow(s, words, times, align);
    k := OpenRollup(r, Clock(s.lastEnd, false));
  }

  // When the first line of a closing text starts.
  function ClosingStart(s: AdapterState, times: Times): real {
    if s.startSec.Some? then s.startSec.value
    else if times.segmentStart.Some? then times.segmentStart.value
    else if times.audioStart.Some? then times.audioStart.value
    else s.lastEnd
  }

  /** The events of a closing text: lines, then what is left as a final of the end of the utterance, or of the session;
      no partial. They end with the segments if there are any, and the utterance is forgotten. */
  lemma ClosingEvents(s: AdapterState, words: seq<Word>, sessionEnd: bool, times: Times, align: Aligner)
    returns (k: nat, rest: seq<Word>)
    requires s.Valid() && Aligns(align) && words != []
    ensures var (s', es) := IngestFinal(s, words, sessionEnd, times, align);
      var end := if times.segmentEnd.Some? then times.segmentEnd.value else s.lastEnd;
      var at, start := Clock(end, times.segmentEnd.Some?), ClosingStart(s, times);
      && k <= |es| && AreLines(es[..k], start, at)
      && LaidOut(words[Revise(s, words, align).promoted..], Lines(es[..k]), rest, false)
      && (if rest != []
          then EndsWith(es, k, if sessionEnd then SessionEndFinal else ModelEou, rest, if k == 0 then start else end, at)
          else |es| == k)
      && s'.words == [] && s'.promoted == 0 && s'.lastPartial == None && s'.startSec == None && s'.lastEnd == s.lastEnd
  {
    hide Solid, Split, Join, Rollup, LaidOut, AreLines, Lines, MapBoundary, Rewritten, EndsWith;
    var r := ReadyToClose(s, words, times, align);
    k, rest := ClosedRollup(r, ClosingReason(sessionEnd), ClosingClock(s, times));
    RollupKeepsEnd(r, Some(ClosingReason(sessionEnd)), ClosingClock(s, times));
  }

  lemma {:induction false} RollLinesKeepEnd(s: AdapterState, close: bool, at: Clock)
    requires s.Valid()
    ensures RollLines(s, close, at).0.lastEnd == s.lastEnd
    decreases |s.words| - s.promoted
  {
    hide Solid, Join, NextLine, Tail;
    var n := NextLine(s, close);
    if n > 0 {
      RollLinesKeepEnd(Promote(s, n, DisplayRollup, at).0, close, at);
    }
  }

  lemma RollupKeepsEnd(s: AdapterState, close: Option<Reason>, at: Clock)
    requires s.Valid()
    ensures Rollup(s, close, at).0.lastEnd == s.lastEnd
  {
    hide Solid, Join, RollLines, Tail;
    RollLinesKeepEnd(s, close.Some?, at);
  }

  /** The events of the flush: lines of what is pending, then the rest as a final of the flush; no partial. */
  lemma FlushEvents(s: AdapterState, audioEnd: Option<real>) returns (k: nat, rest: seq<Word>)
    requires s.Valid() && !s.flushed
    ensures var es := AfterFlush(s, audioEnd).1;
      var end := if audioEnd.Some? then audioEnd.value else s.lastEnd;
      var at, start := Clock(end, false), if s.startSec.Some? then s.startSec.value else end;
      && k <= |es| && AreLines(es[..k], start, at)
      && LaidOut(s.Pending(), Lines(es[..k]), rest, false)
      && if rest != [] then EndsWith(es, k, SessionFlush, rest, if k == 0 then start else end, at) else |es| == k
  {
    hide Solid, Split, Rollup, LaidOut, AreLines, Lines, EndsWith;
    var s1 := Tick(s, audioEnd).(flushed := true);
    assert s1.Pending() == s.Pending();
    if s.promoted >= |s.words| {
      k, rest := 0, [];
      assert s.Pending() == [] && Join([]) == "";
      hide Join;
      NothingLaidOut([], false);
      NoLines(StartOf(s1), Clock(s1.lastEnd, false));
      assert AfterFlush(s, audioEnd).1[..0] == [];
    } else {
      k, rest := ClosedRollup(s1, SessionFlush, Clock(s1.lastEnd, false));
    }
  }

  // ----- From line to line -----

  // Each event starts where the last finished line ended; `open` is where the first one starts.
  ghost predicate Chained(events: seq<Event>, open: real) {
    events == []
    || (events[0].startSec == open && Chained(events[1..], if events[0].isFinal then events[0].endSec else open))
  }

  function NextStart(events: seq<Event>, open: real): real {
    if events == [] then open
    else NextStart(events[1..], if events[0].isFinal then events[0].endSec else open)
  }

  lemma {:induction false} ChainedInTurn(first: seq<Event>, second: seq<Event>, open: real)
    requires Chained(first, open) && Chained(second, NextStart(first, open))
    ensures Chained(first + second, open)
    ensures NextStart(first + second, open) == NextStart(second, NextStart(first, open))
  {
    if first == [] {
      assert first + second == second;
    } else {
      assert (first + second)[1..] == first[1..] + second;
      ChainedInTurn(first[1..], second, if first[0].isFinal then first[0].endSec else open);
    }
  }

  lemma {:induction false} LinesChain(events: seq<Event>, start: real, at: Clock)
    requires AreLines(events, start, at)
    ensures Chained(events, start) && NextStart(events, start) == if events == [] then start else at.end
  {
    if events != [] {
      var rest := events[1..];
      assert AreLines(rest, at.end, at) by {
        forall i | 0 <= i < |rest| ensures rest[i] == events[i + 1] {
        }
      }
      LinesChain(rest, at.end, at);
    }
  }

  // Lines, and perhaps one event behind them.
  lemma LinesAndOneChain(events: seq<Event>, k: nat, start: real, at: Clock)
    requires k <= |events| <= k + 1 && AreLines(events[..k], start, at)
    requires |events| > k ==> events[k].startSec == if k == 0 then start else at.end
    ensures Chained(events, start)
    ensures NextStart(events, start)
      == if |events| > k && events[k].isFinal then events[k].endSec else if k == 0 then start else at.end
  {
    hide AreLines;
    LinesChain(events[..k], start, at);
    var last := events[k..];
    assert events == events[..k] + last;
    assert last != [] ==> last[1..] == [];
    ChainedInTurn(events[..k], last, start);
  }

  lemma HypothesisChains(s: AdapterState, words: seq<Word>, times: Times, align: Aligner)
    requires s.Valid() && Aligns(align) && words != []
    ensures var (s', es) := IngestPartial(s, words, times, align); var open := HypothesisStart(s, times);
      Chained(es, open) && s'.startSec == Some(NextStart(es, open)) && s'.lastEnd == s.lastEnd
  {
    hide Split, Join, IngestPartial, LaidOut, AreLines, Chained, NextStart, Revise;
    var k := HypothesisEvents(s, words, times, align);
    var es := IngestPartial(s, words, times, align).1;
    LinesAndOneChain(es, k, HypothesisStart(s, times), Clock(s.lastEnd, false));
  }

  lemma ClosingChains(s: AdapterState, words: seq<Word>, sessionEnd: bool, times: Times, align: Aligner)
    requires s.Valid() && Aligns(align) && words != []
    ensures var (s', es) := IngestFinal(s, words, sessionEnd, times, align);
      Chained(es, ClosingStart(s, times)) && s'.startSec == None && s'.lastEnd == s.lastEnd
  {
    hide Split, Join, IngestFinal, LaidOut, AreLines, Chained, NextStart, Revise;
    var k, rest := ClosingEvents(s, words, sessionEnd, times, align);
    var es := IngestFinal(s, words, sessionEnd, times, align).1;
    var end := if times.segmentEnd.Some? then times.segmentEnd.value else s.lastEnd;
    LinesAndOneChain(es, k, ClosingStart(s, times), Clock(end, times.segmentEnd.Some?));
  }

  // The steps of one utterance: hypotheses, and at the end perhaps its closing text.
  predicate OneUtterance(steps: seq<Step>) {
    forall i | 0 <= i < |steps| ::
      Split(steps[i].finalText) != [] ==> i == |steps| - 1 && Split(steps[i].partialText) == []
  }

  // When the utterance starts: it has started already, or does with the first text of it.
  function Opening(s: AdapterState, steps: seq<Step>): real
    decreases |steps|
  {
    if s.startSec.Some? then s.startSec.value
    else if steps == [] then s.lastEnd
    else
      var s0 := Tick(s, steps[0].times.audioEnd);
      if Split(steps[0].finalText) != [] then ClosingStart(s0, steps[0].times)
      else if Split(steps[0].partialText) != [] then HypothesisStart(s0, steps[0].times)
      else Opening(s0, steps[1..])
  }

  /** The events of an utterance run from line to line without gap or overlap, whatever it revises: each starts where
      the last finished line ended, and the first one where the utterance starts. */
  lemma {:induction false} UtteranceChains(s: AdapterState, steps: seq<Step>, align: Aligner)
    requires s.Valid() && Aligns(align) && OneUtterance(steps)
    ensures Chained(Run(s, steps, align).1, Opening(s, steps))
    decreases |steps|
  {
    hide *;
    NoSteps(s, align);
    if steps != [] {
      var open := Opening(s, steps);
      var (s1, es1) := AfterStep(s, steps[0], align);
      var es2 := Run(s1, steps[1..], align).1;
      UtteranceStep(s, steps, align);
      UtteranceChains(s1, steps[1..], align);
      ChainedInTurn(es1, es2, open);
    }
  }

  lemma NoSteps(s: AdapterState, align: Aligner)
    requires s.Valid() && Aligns(align)
    ensures Run(s, [], align) == (s, []) && Chained([], Opening(s, []))
  {
  }

  // The steps of an utterance one by one.
  lemma OneStepLess(steps: seq<Step>)
    requires OneUtterance(steps) && steps != []
    ensures OneUtterance(steps[1..])
    ensures Split(steps[0].finalText) != [] ==> steps[1..] == [] && Split(steps[0].partialText) == []
  {
    hide Split;
    forall i | 0 <= i < |steps[1..]|
      ensures steps[1..][i] == steps[i + 1]
    {
    }
  }

  lemma StepChains(s: AdapterState, step: Step, align: Aligner)
    requires s.Valid() && Aligns(align) && (Split(step.finalText) == [] || Split(step.partialText) == [])
    ensures var (s', es) := AfterStep(s, step, align); var s0 := Tick(s, step.times.audioEnd);
      && s'.lastEnd == s0.lastEnd
      && if Split(step.finalText) != [] then Chained(es, ClosingStart(s0, step.times))
         else if Split(step.partialText) != [] then
           var open := HypothesisStart(s0, step.times);
           Chained(es, open) && s'.startSec == Some(NextStart(es, open))
         else es == [] && s'.startSec == s0.startSec
  {
    hide Solid, Split, Join, IngestFinal, IngestPartial, Revise, Chained, NextStart;
    var s0 := Tick(s, step.times.audioEnd);
    IngestNothing(s0, step, align);
    var (s1, es1) := IngestFinal(s0, Split(step.finalText), step.sessionEnd, step.times, align);
    if Split(step.finalText) != [] {
      ClosingChains(s0, Split(step.finalText), step.sessionEnd, step.times, align);
      IngestNothing(s1, step, align);
      assert es1 + [] == es1;
    } else if Split(step.partialText) != [] {
      HypothesisChains(s0, Split(step.partialText), step.times, align);
      var es2 := IngestPartial(s1, Split(step.partialText), step.times, align).1;
      assert [] + es2 == es2;
    }
  }

  lemma UtteranceStep(s: AdapterState, steps: seq<Step>, align: Aligner)
    requires s.Valid() && Aligns(align) && OneUtterance(steps) && steps != []
    ensures var (s1, es1) := AfterStep(s, steps[0], align);
      && OneUtterance(steps[1..]) && s1.Valid() && Run(s, steps, align).1 == es1 + Run(s1, steps[1..], align).1
      && Chained(es1, Opening(s, steps))
      && (steps[1..] != [] ==> Opening(s1, steps[1..]) == NextStart(es1, Opening(s, steps)))
      && (steps[1..] == [] ==> Run(s1, steps[1..], align).1 == [] && Chained([], NextStart(es1, Opening(s, steps))))
  {
    hide Solid, Split, Join, AfterStep, OneUtterance;
    OneStepLess(steps);
    StepChains(s, steps[0], align);
    if AfterStep(s, steps[0], align).0.startSec == s.startSec {
      OpeningLooks(Tick(s, steps[0].times.audioEnd), AfterStep(s, steps[0], align).0, steps[1..]);
    }
  }

  lemma {:induction false} OpeningLooks(s: AdapterState, s': AdapterState, steps: seq<Step>)
    requires s'.startSec == s.startSec && s'.lastEnd == s.lastEnd
    ensures Opening(s', steps) == Opening(s, steps)
    decreases |steps|
  {
    hide Split;
    if steps != [] {
      OpeningLooks(Tick(s, steps[0].times.audioEnd), Tick(s', steps[0].times.audioEnd), steps[1..]);
    }
  }

  // ----- Where events end -----

  // An event of this step: it ends with the segments, if it says so, or else with the audio; and its reason is of the
  // step.
  ghost predicate FromStep(e: Event, step: Step) {
    && (if e.fromSegments then step.times.segmentEnd == Some(e.endSec) else step.times.audioEnd == Some(e.endSec))
    && (e.isFinal <==> e.reason != Partial) && e.reason != SessionFlush
    && (e.reason == ModelEou ==> !step.sessionEnd) && (e.reason == SessionEndFinal ==> step.sessionEnd)
  }

  ghost predicate AllFromStep(events: seq<Event>, step: Step) {
    forall i | 0 <= i < |events| :: FromStep(events[i], step)
  }

  // Lines, and perhaps one event behind them.
  lemma LinesFromStep(events: seq<Event>, k: nat, reason: Reason, rest: seq<Word>, first: real, start: real, at: Clock, step: Step)
    requires k <= |events| && AreLines(events[..k], first, at)
    requires |events| == k || EndsWith(events, k, reason, rest, start, at)
    requires if at.fromSegments then step.times.segmentEnd == Some(at.end) else step.times.audioEnd == Some(at.end)
    requires reason == Partial || reason == if step.sessionEnd then SessionEndFinal else ModelEou
    ensures AllFromStep(events, step)
  {
    hide Join;
    forall i | 0 <= i < |events| ensures FromStep(events[i], step) {
      if i < k {
        assert events[..k][i] == events[i];
      }
    }
  }

  lemma StepEvents(s: AdapterState, step: Step, align: Aligner)
    requires s.Valid() && Aligns(align) && step.times.audioEnd.Some?
    ensures AllFromStep(AfterStep(s, step, align).1, step)
  {
    hide Solid, Split, Join, IngestFinal, IngestPartial, Revise, LaidOut, AreLines, EndsWith, FromStep;
    var s0 := Tick(s, step.times.audioEnd);
    IngestNothing(s0, step, align);
    var (s1, es1) := IngestFinal(s0, Split(step.finalText), step.sessionEnd, step.times, align);
    var (s2, es2) := IngestPartial(s1, Split(step.partialText), step.times, align);
    if Split(step.finalText) != [] {
      var end := if step.times.segmentEnd.Some? then step.times.segmentEnd.value else s0.lastEnd;
      var k, rest := ClosingEvents(s0, Split(step.finalText), step.sessionEnd, step.times, align);
      var start := ClosingStart(s0, step.times);
      LinesFromStep(es1, k, if step.sessionEnd then SessionEndFinal else ModelEou, rest, start,
                    if k == 0 then start else end, Clock(end, step.times.segmentEnd.Some?), step);
    }
    IngestNothing(s1, step, align);
    if Split(step.partialText) != [] {
      var k := HypothesisEvents(s1, Split(step.partialText), step.times, align);
      var start := HypothesisStart(s1, step.times);
      LinesFromStep(es2, k, Partial, s2.Pending(), start, if k == 0 then start else s1.lastEnd, Clock(s1.lastEnd, false), step);
    }
  }

  // Each event comes from one of the steps.
  ghost predicate FromSteps(events: seq<Event>, steps: seq<Step>) {
    forall i | 0 <= i < |events| :: exists j :: 0 <= j < |steps| && FromStep(events[i], steps[j])
  }

  lemma FromMoreSteps(first: seq<Event>, second: seq<Event>, steps: seq<Step>)
    requires steps != [] && AllFromStep(first, steps[0]) && FromSteps(second, steps[1..])
    ensures FromSteps(first + second, steps)
  {
    hide FromStep;
    forall i | 0 <= i < |first + second|
      ensures exists j :: 0 <= j < |steps| && FromStep((first + second)[i], steps[j])
    {
      if i < |first| {
        assert FromStep((first + second)[i], steps[0]);
      } else {
        var j :| 0 <= j < |steps[1..]| && FromStep(second[i - |first|], steps[1..][j]);
        assert FromStep((first + second)[i], steps[j + 1]);
      }
    }
  }

  /** Each event of a run ends with the audio of its step, or with its segments. */
  lemma {:induction false} RunEvents(s: AdapterState, steps: seq<Step>, align: Aligner)
    requires s.Valid() && Aligns(align) && forall i | 0 <= i < |steps| :: steps[i].times.audioEnd.Some?
    ensures FromSteps(Run(s, steps, align).1, steps)
    decreases |steps|
  {
    hide AfterStep, FromStep;
    if steps != [] {
      var (s1, es1) := AfterStep(s, steps[0], align);
      StepEvents(s, steps[0], align);
      RunEvents(s1, steps[1..], align);
      FromMoreSteps(es1, Run(s1, steps[1..], align).1, steps);
    }
  }

  // ----- The spans of events -----

  // The steps come with the audio clock, which does not run back, and without segments.
  predicate OnClock(steps: seq<Step>, clock: real) {
    steps == []
    || (var t := steps[0].times;
        && t.segmentStart == None && t.segmentEnd == None && t.audioStart.Some? && t.audioEnd.Some?
        && 0.0 <= t.audioStart.value <= t.audioEnd.value && clock <= t.audioEnd.value
        && OnClock(steps[1..], t.audioEnd.value))
  }

  // The clock behind the steps.
  function EndClock(steps: seq<Step>, clock: real): real {
    if steps == [] then clock else EndClock(steps[1..], Else(steps[0].times.audioEnd, Some(clock)).value)
  }

  lemma {:induction false} ClockInTurn(first: seq<Step>, second: seq<Step>, clock: real)
    requires OnClock(first, clock) && OnClock(second, EndClock(first, clock))
    ensures OnClock(first + second, clock) && EndClock(first + second, clock) == EndClock(second, EndClock(first, clock))
    ensures clock <= EndClock(first, clock)
  {
    if first == [] {
      assert first + second == second;
    } else {
      assert (first + second)[1..] == first[1..] + second;
      ClockInTurn(first[1..], second, first[0].times.audioEnd.value);
    }
  }

  // Events that end no sooner than they start, one no sooner than the one in front, all between two times.
  ghost predicate Spans(events: seq<Event>, from: real, to: real) {
    && (forall i | 0 <= i < |events| :: 0.0 <= events[i].startSec <= events[i].endSec && from <= events[i].endSec <= to)
    && (forall i, j | 0 <= i < j < |events| :: events[i].endSec <= events[j].endSec)
  }

  lemma SpansInTurn(first: seq<Event>, second: seq<Event>, from: real, mid: real, to: real)
    requires from <= mid <= to && Spans(first, from, mid) && Spans(second, mid, to)
    ensures Spans(first + second, from, to)
  {
  }

  // The utterance has started in time.
  predicate InTime(s: AdapterState) {
    0.0 <= s.lastEnd && (s.startSec.Some? ==> 0.0 <= s.startSec.value <= s.lastEnd)
  }

  lemma LinesSpan(events: seq<Event>, k: nat, reason: Reason, rest: seq<Word>, first: real, start: real, at: Clock)
    requires k <= |events| && AreLines(events[..k], first, at) && 0.0 <= first <= at.end && 0.0 <= start <= at.end
    requires |events| == k || EndsWith(events, k, reason, rest, start, at)
    ensures Spans(events, at.end, at.end)
  {
    hide Join;
    forall i | 0 <= i < |events| ensures 0.0 <= events[i].startSec <= events[i].endSec == at.end {
      if i < k {
        assert events[..k][i] == events[i];
      }
    }
  }

  lemma StepSpans(s: AdapterState, step: Step, align: Aligner)
    requires s.Valid() && Aligns(align) && InTime(s) && OnClock([step], s.lastEnd)
    ensures var (s', es) := AfterStep(s, step, align); var clock := step.times.audioEnd.value;
      s.lastEnd <= clock && Spans(es, clock, clock) && InTime(s') && s'.lastEnd == clock
  {
    hide Solid, Split, Join, IngestFinal, IngestPartial, Revise, LaidOut, AreLines, EndsWith;
    assert [step][0] == step;
    var s0 := Tick(s, step.times.audioEnd);
    var clock := s0.lastEnd;
    IngestNothing(s0, step, align);
    var (s1, es1) := IngestFinal(s0, Split(step.finalText), step.sessionEnd, step.times, align);
    var (s2, es2) := IngestPartial(s1, Split(step.partialText), step.times, align);
    hide Spans;
    NoSpans(clock);
    if Split(step.finalText) != [] {
      var k, rest := ClosingEvents(s0, Split(step.finalText), step.sessionEnd, step.times, align);
      var start := ClosingStart(s0, step.times);
      LinesSpan(es1, k, if step.sessionEnd then SessionEndFinal else ModelEou, rest, start, if k == 0 then start else clock, Clock(clock, false));
    }
    IngestNothing(s1, step, align);
    if Split(step.partialText) != [] {
      var k := HypothesisEvents(s1, Split(step.partialText), step.times, align);
      var start := HypothesisStart(s1, step.times);
      LinesSpan(es2, k, Partial, s2.Pending(), start, if k == 0 then start else clock, Clock(clock, false));
    }
    SpansInTurn(es1, es2, clock, clock, clock);
  }

  lemma NoSpans(clock: real)
    ensures Spans([], clock, clock)
  {
  }

  lemma WiderSpans(events: seq<Event>, from: real, to: real, from': real, to': real)
    requires Spans(events, from, to) && from' <= from && to <= to'
    ensures Spans(events, from', to')
  {
  }

  lemma NoClock(clock: real)
    ensures EndClock([], clock) == clock
  {
  }

  lemma ClockStep(steps: seq<Step>, clock: real)
    requires OnClock(steps, clock) && steps != []
    ensures OnClock([steps[0]], clock) && steps[0].times.audioEnd.Some? && clock <= steps[0].times.audioEnd.value
    ensures OnClock(steps[1..], steps[0].times.audioEnd.value)
    ensures EndClock(steps, clock) == EndClock(steps[1..], steps[0].times.audioEnd.value)
  {
    assert [steps[0]][1..] == [];
  }

  /** On the audio clock and without segments, every event of a run starts at or before its end, events end in order, and
      none ends in front of the run or behind it. */
  lemma {:induction false} RunSpans(s: AdapterState, steps: seq<Step>, align: Aligner)
    requires s.Valid() && Aligns(align) && InTime(s) && OnClock(steps, s.lastEnd)
    ensures var (s', es) := Run(s, steps, align);
      && Spans(es, s.lastEnd, s'.lastEnd) && InTime(s') && s.lastEnd <= s'.lastEnd == EndClock(steps, s.lastEnd)
    decreases |steps|
  {
    hide AfterStep, OnClock, Spans, EndClock;
    NoSpans(s.lastEnd);
    NoClock(s.lastEnd);
    if steps != [] {
      var (s1, es1) := AfterStep(s, steps[0], align);
      ClockStep(steps, s.lastEnd);
      StepSpans(s, steps[0], align);
      RunSpans(s1, steps[1..], align);
      WiderSpans(es1, s1.lastEnd, s1.lastEnd, s.lastEnd, s1.lastEnd);
      SpansInTurn(es1, Run(s1, steps[1..], align).1, s.lastEnd, s1.lastEnd, Run(s1, steps[1..], align).0.lastEnd);
    }
  }

  // So do the events of the flush, at the end of the audio.
  lemma FlushSpans(s: AdapterState, end: real)
    requires s.Valid() && InTime(s) && s.lastEnd <= end
    ensures Spans(AfterFlush(s, Some(end)).1, end, end)
  {
    hide Join, AfterFlush, LaidOut, AreLines, EndsWith, Spans;
    NoSpans(end);
    if s.flushed {
      AlreadyFlushed(s, Some(end));
    } else {
      var k, rest := FlushEvents(s, Some(end));
      var first := if s.startSec.Some? then s.startSec.value else end;
      LinesSpan(AfterFlush(s, Some(end)).1, k, SessionFlush, rest, first, if k == 0 then first else end, Clock(end, false));
    }
  }

  lemma AlreadyFlushed(s: AdapterState, audioEnd: Option<real>)
    requires s.Valid() && s.flushed
    ensures AfterFlush(s, audioEnd).1 == []
  {
  }

  const OneA: seq<Word> := ["a"]

  /** With segments an event can end in front of its start: the utterance goes on from the end of its last line, and its
      segments ended before. */
  lemma SegmentsCanEndTooEarly(s: AdapterState, times: Times, align: Aligner)
    requires s.Valid() && Aligns(align) && s.words == [] && s.startSec == Some(5.0) && times.segmentEnd == Some(4.0)
    ensures var es := IngestFinal(s, OneA, false, times, align).1; |es| == 1 && es[0].startSec == 5.0 && es[0].endSec == 4.0
  {
    hide Solid, Split, IngestFinal, Revise, LaidOut, AreLines, MapBoundary;
    var k, rest := ClosingEvents(s, OneA, false, times, align);
    var lines := IngestFinal(s, OneA, false, times, align).1[..k];
    RevisedFromNothing(s, OneA, align);
    OneShortWord(OneA, Lines(lines), rest);
    NoLinesHere(lines);
  }

  lemma NoLinesHere(events: seq<Event>)
    ensures Lines(events) == [] <==> events == []
  {
    hide Split;
  }

  lemma RevisedFromNothing(s: AdapterState, words: seq<Word>, align: Aligner)
    requires s.Valid() && Aligns(align) && s.words == []
    ensures Revise(s, words, align).promoted == 0 && words[0..] == words
  {
    assert AlignsPair(align, s.words, words);
  }

  lemma OneShortWord(words: seq<Word>, lines: seq<seq<Word>>, rest: seq<Word>)
    requires words == OneA && LaidOut(words, lines, rest, false)
    ensures lines == [] && rest == words
  {
    assert Join(words) == "a";
  }

  const OneB: seq<Word> := ["b"]

  /** When one utterance is closed and the next one shown in one step, the new one starts with the step and the old one
      ends with it: they overlap exactly if the step takes time. */
  lemma UtterancesOverlapIff(s: AdapterState, times: Times, align: Aligner)
    requires s.Valid() && Aligns(align) && s.words == [] && s.startSec == None && s.lastPartial == None
    requires times.segmentEnd == None && times.audioStart.Some? && times.audioEnd == Some(s.lastEnd)
    ensures var (s1, closed) := IngestFinal(s, OneA, false, times, align);
      var open := IngestPartial(s1, OneB, times, align).1;
      && |closed| == 1 == |open|
      && (open[0].startSec < closed[0].endSec <==> times.audioStart.value < times.audioEnd.value)
  {
    hide Solid, Split, IngestFinal, IngestPartial, Revise, LaidOut, AreLines, MapBoundary;
    var k, rest := ClosingEvents(s, OneA, false, times, align);
    var (s1, closed) := IngestFinal(s, OneA, false, times, align);
    RevisedFromNothing(s, OneA, align);
    OneShortWord(OneA, Lines(closed[..k]), rest);
    NoLinesHere(closed[..k]);
    var open := IngestPartial(s1, OneB, times, align).1;
    var k' := HypothesisEvents(s1, OneB, times, align);
    RevisedFromNothing(s1, OneB, align);
    OpenShortWord(OneB, Lines(open[..k']), IngestPartial(s1, OneB, times, align).0.Pending());
    NoLinesHere(open[..k']);
  }

  lemma OpenShortWord(words: seq<Word>, lines: seq<seq<Word>>, rest: seq<Word>)
    requires words == OneB && LaidOut(words, lines, rest, true)
    ensures lines == [] && rest == words
  {
    assert Join(words) == "b";
  }
}
