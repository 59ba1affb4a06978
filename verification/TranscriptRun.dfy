/** Whole sessions of the caption adapter: words are conserved, events are numbered, lines are short. */
module TranscriptRun {
  import opened Common
  import opened Words
  import opened CommittedBoundary
  import opened TranscriptAdapter

  // The words the final events put on screen, in order.
  ghost function FinalWords(events: seq<Event>): seq<Word> {
    if events == [] then []
    else (if events[0].isFinal then Split(events[0].fullText) else []) + FinalWords(events[1..])
  }

  lemma {:induction false} FinalWordsOfParts(left: seq<Event>, right: seq<Event>)
    ensures FinalWords(left + right) == FinalWords(left) + FinalWords(right)
  {
    if left == [] {
      assert left + right == right;
    } else {
      assert (left + right)[1..] == left[1..] + right;
      FinalWordsOfParts(left[1..], right);
    }
  }

  lemma PromoteConserves(s: AdapterState, n: nat, reason: Reason, at: Clock)
    requires s.Valid() && n <= |s.Pending()| && !reason.Partial?
    ensures var (s', e) := Promote(s, n, reason, at);
      Split(e.fullText) + s'.Pending() == s.Pending()
  {
    SplitOfJoin(s.Pending()[..n]);
  }

  lemma {:induction false} RollLinesConserves(s: AdapterState, close: bool, at: Clock)
    requires s.Valid()
    ensures var (s', es) := RollLines(s, close, at);
      && FinalWords(es) + s'.Pending() == s.Pending()
      && NextLine(s', close) == 0
    decreases |s.words| - s.promoted
  {
    hide *;
    FirstEvent([]);
    RollLinesTurn(s, close, at);
    var n := NextLine(s, close);
    if n > 0 {
      var (s1, e) := Promote(s, n, DisplayRollup, at);
      var es := RollLines(s1, close, at).1;
      PromoteConserves(s, n, DisplayRollup, at);
      RollLinesConserves(s1, close, at);
      FirstEvent([e] + es);
      assert ([e] + es)[1..] == es;
    } else {
      assert [] + s.Pending() == s.Pending();
    }
  }

  lemma FirstEvent(events: seq<Event>)
    ensures FinalWords(events) == if events == [] then []
      else (if events[0].isFinal then Split(events[0].fullText) else []) + FinalWords(events[1..])
  {
  }

  lemma RollLinesTurn(s: AdapterState, close: bool, at: Clock)
    requires s.Valid()
    ensures s.promoted <= |s.words|
    ensures var n := NextLine(s, close);
      if n == 0 then RollLines(s, close, at) == (s, [])
      else
        var (s1, e) := Promote(s, n, DisplayRollup, at); var (s2, es) := RollLines(s1, close, at);
        && s1.Valid() && s1.promoted <= |s1.words| && |s1.words| - s1.promoted < |s.words| - s.promoted && e.isFinal
        && RollLines(s, close, at) == (s2, [e] + es)
  {
    hide Solid, Join, NextLine, Tail;
  }

  /** The roll-up moves pending words onto finished lines without losing, repeating or reordering any. */
  lemma RollupConserves(s: AdapterState, close: Option<Reason>, at: Clock)
    requires s.Valid() && close != Some(Partial)
    ensures var (s', es) := Rollup(s, close, at);
      && s'.words == s.words && s'.flushed == s.flushed
      && FinalWords(es) + s'.Pending() == s.Pending()
      && (close.Some? ==> s'.Pending() == [])
      && (close.None? && s'.Pending() != [] ==> s'.lastPartial == Some(Join(s'.Pending())))
  {
    hide Solid, Split, Join, RollLines, NextLine, FinalWords;
    RollLinesConserves(s, close.Some?, at);
    RollLinesKeeps(s, close.Some?, at);
    var (s1, es) := RollLines(s, close.Some?, at);
    var words := s1.Pending();
    if words != [] && close.Some? {
      PromoteConserves(s1, |words|, close.value, at);
      OneMoreEvent(es, Promote(s1, |words|, close.value, at).1);
    } else if words != [] {
      OneMoreEvent(es, EventFor(s1, Join(words), Partial, at));
    }
  }

  lemma OneMoreEvent(events: seq<Event>, e: Event)
    ensures FinalWords(events + [e]) == FinalWords(events) + if e.isFinal then Split(e.fullText) else []
  {
    hide Split;
    FinalWordsOfParts(events, [e]);
  }

  lemma {:induction false} RollLinesKeeps(s: AdapterState, close: bool, at: Clock)
    requires s.Valid()
    ensures RollLines(s, close, at).0.flushed == s.flushed
    decreases |s.words| - s.promoted
  {
    var n := NextLine(s, close);
    if n > 0 {
      RollLinesKeeps(Promote(s, n, DisplayRollup, at).0, close, at);
    }
  }

  /** Whatever the engine revises, a step shows exactly the words behind the mapped boundary: finished lines
      carry them in order and what is left is the live partial. */
  lemma PartialShowsUnseenWords(s: AdapterState, words: seq<Word>, times: Times, align: Aligner)
    requires s.Valid() && Aligns(align) && words != []
    ensures var (s', es) := IngestPartial(s, words, times, align);
      && FinalWords(es) + s'.Pending() == words[Revise(s, words, align).promoted..]
      && s'.words == words && s'.flushed == s.flushed
      && (s'.Pending() != [] ==> s'.lastPartial == Some(Join(s'.Pending())))
  {
    hide Rollup, MapBoundary, SharedPrefix, Rewritten;
    RollupConserves(ReadyToShow(s, words, times, align), None, Clock(s.lastEnd, false));
  }

  lemma FinalShowsUnseenWords(s: AdapterState, words: seq<Word>, sessionEnd: bool, times: Times, align: Aligner)
    requires s.Valid() && Aligns(align) && words != []
    ensures var (s', es) := IngestFinal(s, words, sessionEnd, times, align);
      && FinalWords(es) == words[Revise(s, words, align).promoted..]
      && s'.words == [] && s'.flushed == s.flushed
  {
    hide Rollup, MapBoundary, SharedPrefix, Rewritten;
    RollupConserves(ReadyToClose(s, words, times, align), Some(ClosingReason(sessionEnd)), ClosingClock(s, times));
  }

  // ----- Sessions -----

  ghost function Run(s: AdapterState, steps: seq<Step>, align: Aligner): (r: (AdapterState, seq<Event>))
    requires s.Valid() && Aligns(align)
    ensures r.0.Valid()
    decreases |steps|
  {
    if steps == [] then (s, [])
    else
      var (s1, es1) := AfterStep(s, steps[0], align);
      var (s2, es2) := Run(s1, steps[1..], align);
      (s2, es1 + es2)
  }

  // A whole session: steps, then the closing flush.
  ghost function Session(steps: seq<Step>, audioEnd: Option<real>, align: Aligner): (r: (AdapterState, seq<Event>))
    requires Aligns(align)
    ensures r.0.Valid()
  {
    var (s1, es1) := Run(NewAdapter, steps, align);
    var (s2, es2) := AfterFlush(s1, audioEnd);
    (s2, es1 + es2)
  }

  // The hypothesis in progress after a step.
  ghost function NextHypothesis(current: seq<Word>, step: Step): seq<Word> {
    if Split(step.partialText) != [] then Split(step.partialText)
    else if Split(step.finalText) != [] then []
    else current
  }

  ghost predicate GrowsBy(current: seq<Word>, step: Step) {
    var final_, partial := Split(step.finalText), Split(step.partialText);
    && (final_ != [] ==> current <= final_)
    && (partial != [] && final_ == [] ==> current <= partial)
  }

  /** Within each utterance the hypothesis only grows; its final text is the last extension. */
  ghost predicate Grows(current: seq<Word>, steps: seq<Step>)
    decreases |steps|
  {
    steps == [] || (GrowsBy(current, steps[0]) && Grows(NextHypothesis(current, steps[0]), steps[1..]))
  }

  /** The words spoken: each closed utterance, then the one still open at the end. */
  ghost function SpokenWords(current: seq<Word>, steps: seq<Step>): seq<Word>
    decreases |steps|
  {
    if steps == [] then current
    else
      Split(steps[0].finalText)
      + SpokenWords(NextHypothesis(current, steps[0]), steps[1..])
  }

  // The new hypothesis keeps the displayed words, and the alignment puts the boundary behind them.
  ghost predicate KeepsDisplayed(s: AdapterState, words: seq<Word>, align: Aligner)
    requires s.Valid() && Aligns(align)
  {
    s.words[..s.promoted] <= words && Revise(s, words, align).promoted == s.promoted
  }

  ghost predicate StepKeeps(s: AdapterState, step: Step, align: Aligner)
    requires s.Valid() && Aligns(align)
  {
    var final_, partial := Split(step.finalText), Split(step.partialText);
    && (final_ != [] ==> KeepsDisplayed(s, final_, align))
    && (partial != [] && final_ == [] ==> KeepsDisplayed(s, partial, align))
  }

  /** Whatever the engine revises, it leaves the words already displayed alone. */
  ghost predicate RunKeeps(s: AdapterState, steps: seq<Step>, align: Aligner)
    requires s.Valid() && Aligns(align)
    decreases |steps|
  {
    steps == [] || (StepKeeps(s, steps[0], align) && RunKeeps(AfterStep(s, steps[0], align).0, steps[1..], align))
  }

  /** A step shows each word of its hypothesis once and in order exactly when it keeps what is displayed. */
  lemma ShowsOnceIffKept(s: AdapterState, words: seq<Word>, times: Times, align: Aligner)
    requires s.Valid() && Aligns(align) && words != []
    ensures var (s', es) := IngestPartial(s, words, times, align);
      s.words[..s.promoted] + FinalWords(es) + s'.Pending() == words <==> KeepsDisplayed(s, words, align)
  {
    hide Solid, Split, Join, Rollup, RollLines, MapBoundary, SharedPrefix, IngestPartial, FinalWords, Revise;
    PartialShowsUnseenWords(s, words, times, align);
    var (s', es) := IngestPartial(s, words, times, align);
    var before, from := s.words[..s.promoted], Revise(s, words, align).promoted;
    RevisedFits(s, words, align);
    assert before + FinalWords(es) + s'.Pending() == before + (FinalWords(es) + s'.Pending());
    PrefixOfWhole(before, words, from);
  }

  // ----- A word that is never shown -----

  const Displayed: seq<Word> := ["a."]
  const Corrected: seq<Word> := ["b", "a."]
  const FrontInsertion := [Opcode(Insert, 0, 0, 0, 1), Opcode(Equal, 0, 1, 1, 2)]

  /** The sentence "a." is displayed and the engine corrects itself to "b a.": the boundary moves behind both words, so
      "b" is never shown. */
  lemma WordInFrontIsNeverShown(s: AdapterState, times: Times, align: Aligner)
    requires s.Valid() && Aligns(align) && s.words == Displayed && s.promoted == 1
    requires align(Displayed, Corrected) == FrontInsertion
    ensures var (s', es) := IngestPartial(s, Corrected, times, align);
      es == [] && s'.words == Corrected && s'.Pending() == []
    ensures !KeepsDisplayed(s, Corrected, align)
  {
    hide Rollup, MapBoundary, SharedPrefix, Tiles, Solid, Rewritten;
    FrontInsertionIsConsumed(FrontInsertion);
    var r := ReadyToShow(s, Corrected, times, align);
    assert r.promoted == 2 && r.Pending() == [];
    NothingToRollUp(r, Clock(s.lastEnd, false));
  }

  lemma NothingToRollUp(s: AdapterState, at: Clock)
    requires s.Valid() && s.Pending() == []
    ensures Rollup(s, None, at) == (s, [])
  {
    assert Join(s.Pending()) == "";
    assert RollLines(s, false, at) == (s, []);
  }

  // Blocks that find one side at the front or the end of the other.
  function EndBlocks(a: seq<Word>, b: seq<Word>): seq<Opcode> {
    if a == [] then if b == [] then [] else [Opcode(Insert, 0, 0, 0, |b|)]
    else if b == [] then [Opcode(Delete, 0, |a|, 0, 0)]
    else if a == b then [Opcode(Equal, 0, |a|, 0, |b|)]
    else if a < b then [Opcode(Equal, 0, |a|, 0, |a|), Opcode(Insert, |a|, |a|, |a|, |b|)]
    else if |a| < |b| && b[|b| - |a|..] == a then
      [Opcode(Insert, 0, 0, 0, |b| - |a|), Opcode(Equal, 0, |a|, |b| - |a|, |b|)]
    else [Opcode(Replace, 0, |a|, 0, |b|)]
  }

  /** A matcher that gives these blocks does all that is asked of one. */
  lemma FrontInsertionHappens()
    ensures Aligns(EndBlocks) && EndBlocks(Displayed, Corrected) == FrontInsertion
  {
    forall a: seq<Word>, b: seq<Word> ensures AlignsPair(EndBlocks, a, b) {
      EndBlocksTile(a, b);
    }
    assert Corrected[1..] == Displayed && Corrected[0] != Displayed[0];
  }

  lemma EndBlocksTile(a: seq<Word>, b: seq<Word>)
    ensures AlignsPair(EndBlocks, a, b)
  {
    hide Solid;
    var ops := EndBlocks(a, b);
    if |ops| == 2 {
      TwoTile(ops[0], ops[1], |a|, |b|);
    } else if |ops| == 1 {
      OneTiles(ops[0], |a|, |b|);
    }
  }

  lemma RevisedFits(s: AdapterState, words: seq<Word>, align: Aligner)
    requires s.Valid() && Aligns(align)
    ensures Revise(s, words, align).promoted <= |words|
  {
  }

  lemma PrefixOfWhole(before: seq<Word>, words: seq<Word>, from: nat)
    requires from <= |words|
    ensures before + words[from..] == words <==> before <= words && from == |before|
  {
    hide Solid;
    if before + words[from..] == words {
      assert |before| + (|words| - from) == |words|;
      assert words[..|before|] == before;
    }
  }

  lemma PartialShowsTail(s: AdapterState, words: seq<Word>, times: Times, align: Aligner)
    requires s.Valid() && Aligns(align) && words != [] && KeepsDisplayed(s, words, align)
    ensures var (s', es) := IngestPartial(s, words, times, align);
      && s'.words == words && s'.flushed == s.flushed
      && s.words[..s.promoted] + FinalWords(es) == words[..s'.promoted]
  {
    hide Solid, Split, Join, Rollup, RollLines, MapBoundary, SharedPrefix, IngestPartial, FinalWords, Revise;
    PartialShowsUnseenWords(s, words, times, align);
    var (s', es) := IngestPartial(s, words, times, align);
    ShownBefore(s.words[..s.promoted], FinalWords(es), words, s.promoted, s'.promoted);
  }

  lemma ShownBefore(before: seq<Word>, shown: seq<Word>, words: seq<Word>, from: nat, to: nat)
    requires from <= |words| && to <= |words| && before == words[..from] && shown + words[to..] == words[from..]
    ensures before + shown == words[..to]
  {
    hide Solid;
    assert before + (shown + words[to..]) == words;
    assert (before + shown) + words[to..] == words;
  }

  lemma FinalShowsTail(s: AdapterState, words: seq<Word>, sessionEnd: bool, times: Times, align: Aligner)
    requires s.Valid() && Aligns(align) && words != [] && KeepsDisplayed(s, words, align)
    ensures var (s', es) := IngestFinal(s, words, sessionEnd, times, align);
      && s'.words == [] && s'.promoted == 0 && s'.flushed == s.flushed
      && s.words[..s.promoted] + FinalWords(es) == words
  {
    hide *;
    FinalEmpties(s, words, sessionEnd, times, align);
    FinalShowsUnseenWords(s, words, sessionEnd, times, align);
    DisplayedKept(s, words, align);
    assert words[..s.promoted] + words[s.promoted..] == words;
  }

  lemma DisplayedKept(s: AdapterState, words: seq<Word>, align: Aligner)
    requires s.Valid() && Aligns(align) && KeepsDisplayed(s, words, align)
    ensures s.promoted <= |s.words| && s.promoted <= |words| && s.words[..s.promoted] == words[..s.promoted]
    ensures Revise(s, words, align).promoted == s.promoted
  {
    hide Solid, Revise;
  }

  lemma FinalEmpties(s: AdapterState, words: seq<Word>, sessionEnd: bool, times: Times, align: Aligner)
    requires s.Valid() && Aligns(align) && words != []
    ensures IngestFinal(s, words, sessionEnd, times, align).0.promoted == 0
  {
    hide Solid, Split, Join, Rollup, RollLines, MapBoundary, SharedPrefix, Revise;
  }

  // Nothing displayed is kept by any hypothesis.
  lemma EmptyKeeps(s: AdapterState, words: seq<Word>, align: Aligner)
    requires s.Valid() && Aligns(align) && s.words == []
    ensures KeepsDisplayed(s, words, align)
  {
    hide Solid, Split, Join, MapBoundary, SharedPrefix, Revise;
    assert s.words <= words;
  }

  /** One step that keeps what is displayed moves words from the hypothesis to the finished lines, in order. */
  lemma StepConserves(s: AdapterState, step: Step, align: Aligner)
    requires s.Valid() && Aligns(align) && StepKeeps(s, step, align)
    ensures var (s', es) := AfterStep(s, step, align);
      && s'.words == NextHypothesis(s.words, step) && s'.flushed == s.flushed
      && s.words[..s.promoted] + FinalWords(es) == Split(step.finalText) + s'.words[..s'.promoted]
  {
    hide Solid, Split, Join, IngestFinal, IngestPartial, FinalWords, KeepsDisplayed;
    var final_, partial := Split(step.finalText), Split(step.partialText);
    var s0 := Tick(s, step.times.audioEnd);
    TickKeeps(s, step.times.audioEnd, final_, align);
    TickKeeps(s, step.times.audioEnd, partial, align);
    var (s1, es1) := IngestFinal(s0, final_, step.sessionEnd, step.times, align);
    var (s2, es2) := IngestPartial(s1, partial, step.times, align);
    var shown := s.words[..s.promoted];
    FinalWordsOfParts(es1, es2);
    assert shown + (FinalWords(es1) + FinalWords(es2)) == (shown + FinalWords(es1)) + FinalWords(es2);
    NoWordsNoChange(s0, s1, step, align);
    if final_ != [] {
      FinalShowsTail(s0, final_, step.sessionEnd, step.times, align);
      EmptyKeeps(s1, partial, align);
    }
    assert shown + FinalWords(es1) == final_ + s1.words[..s1.promoted];
    if partial != [] {
      PartialShowsTail(s1, partial, step.times, align);
    }
    assert s1.words[..s1.promoted] + FinalWords(es2) == s2.words[..s2.promoted];
  }

  // The clock changes nothing about the words.
  lemma TickKeeps(s: AdapterState, audioEnd: Option<real>, words: seq<Word>, align: Aligner)
    requires s.Valid() && Aligns(align)
    ensures var s0 := Tick(s, audioEnd);
      && s0.Valid() && s0.words == s.words && s0.promoted == s.promoted && s0.flushed == s.flushed
      && (KeepsDisplayed(s0, words, align) <==> KeepsDisplayed(s, words, align))
  {
    hide Solid, MapBoundary;
  }

  lemma NoWordsNoChange(s: AdapterState, s1: AdapterState, step: Step, align: Aligner)
    requires s.Valid() && s1.Valid() && Aligns(align)
    ensures IngestFinal(s, [], step.sessionEnd, step.times, align) == (s, [])
    ensures IngestPartial(s1, [], step.times, align) == (s1, [])
    ensures FinalWords([]) == []
  {
  }

  // What a step leaves as the hypothesis, kept or not.
  lemma StepHypothesis(s: AdapterState, step: Step, align: Aligner)
    requires s.Valid() && Aligns(align)
    ensures AfterStep(s, step, align).0.words == NextHypothesis(s.words, step)
    ensures AfterStep(s, step, align).0.flushed == s.flushed
  {
    hide Solid, Split, Join, IngestFinal, IngestPartial, FinalWords, Revise;
    var final_, partial := Split(step.finalText), Split(step.partialText);
    var s0 := Tick(s, step.times.audioEnd);
    var s1 := IngestFinal(s0, final_, step.sessionEnd, step.times, align).0;
    NoWordsNoChange(s0, s1, step, align);
    if final_ != [] {
      FinalShowsUnseenWords(s0, final_, step.sessionEnd, step.times, align);
    }
    if partial != [] {
      PartialShowsUnseenWords(s1, partial, step.times, align);
    }
  }

  lemma ExtensionKeeps(s: AdapterState, words: seq<Word>, align: Aligner)
    requires s.Valid() && Aligns(align) && s.words <= words
    ensures KeepsDisplayed(s, words, align)
  {
    hide Solid, Split, Join, MapBoundary, SharedPrefix, Revise;
    assert s.words[..s.promoted] == words[..s.promoted];
  }

  /** A growing session keeps what is displayed, whatever the aligner. */
  lemma {:induction false} GrowingIsKept(s: AdapterState, steps: seq<Step>, align: Aligner)
    requires s.Valid() && Aligns(align) && Grows(s.words, steps)
    ensures RunKeeps(s, steps, align)
    decreases |steps|
  {
    hide Solid, Split, Join, KeepsDisplayed, AfterStep, NextHypothesis;
    if steps != [] {
      var final_, partial := Split(steps[0].finalText), Split(steps[0].partialText);
      if final_ != [] {
        ExtensionKeeps(s, final_, align);
      } else if partial != [] {
        ExtensionKeeps(s, partial, align);
      }
      StepHypothesis(s, steps[0], align);
      GrowingIsKept(AfterStep(s, steps[0], align).0, steps[1..], align);
    }
  }

  /** So does any revision of undisplayed words, like a last word that gets longer, if the alignment starts with an
      equal block over the displayed ones. */
  lemma RevisionBehindIsKept(s: AdapterState, words: seq<Word>, k: nat, align: Aligner)
    requires s.Valid() && Aligns(align) && s.promoted <= k && s.words[..s.promoted] <= words
    requires s.promoted > 0 ==>
      var ops := align(s.words, words); ops != [] && ops[0] == Opcode(Equal, 0, k, 0, k)
    ensures KeepsDisplayed(s, words, align)
  {
    hide Solid, Split, Join, SharedPrefix;
    if s.promoted > 0 {
      assert AlignsPair(align, s.words, words);
      hide MapBoundary;
      LeadingBlockKeepsBoundary(align(s.words, words), |s.words|, |words|, s.promoted, k);
    }
  }

  lemma Regroup<T>(shown: seq<T>, now: seq<T>, closed: seq<T>, open: seq<T>, later: seq<T>, pending: seq<T>)
    requires shown + now == closed + open
    ensures shown + (now + later) + pending == closed + (open + later + pending)
  {
    assert shown + (now + later) + pending == (shown + now) + later + pending;
  }

  lemma {:induction false} RunConserves(s: AdapterState, steps: seq<Step>, align: Aligner)
    requires s.Valid() && Aligns(align) && RunKeeps(s, steps, align)
    ensures var (s', es) := Run(s, steps, align);
      && s'.flushed == s.flushed
      && s.words[..s.promoted] + FinalWords(es) + s'.Pending() == SpokenWords(s.words, steps)
    decreases |steps|
  {
    hide Solid, Split, Join, AfterStep, StepKeeps, NextHypothesis;
    if steps == [] {
      assert s.words[..s.promoted] + [] + s.Pending() == s.words;
    } else {
      var (s1, es1) := AfterStep(s, steps[0], align);
      var (s2, es2) := Run(s1, steps[1..], align);
      StepConserves(s, steps[0], align);
      RunConserves(s1, steps[1..], align);
      FinalWordsOfParts(es1, es2);
      Regroup(s.words[..s.promoted], FinalWords(es1), Split(steps[0].finalText), s1.words[..s1.promoted],
              FinalWords(es2), s2.Pending());
    }
  }

  lemma {:induction false} RunKeepsFlushed(s: AdapterState, steps: seq<Step>, align: Aligner)
    requires s.Valid() && Aligns(align)
    ensures Run(s, steps, align).0.flushed == s.flushed
    decreases |steps|
  {
    hide AfterStep;
    if steps != [] {
      StepHypothesis(s, steps[0], align);
      RunKeepsFlushed(AfterStep(s, steps[0], align).0, steps[1..], align);
    }
  }

  // The flush puts what is pending on a finished line and leaves nothing pending.
  lemma FlushShowsPending(s: AdapterState, audioEnd: Option<real>)
    requires s.Valid() && !s.flushed
    ensures var (s', es) := AfterFlush(s, audioEnd); FinalWords(es) == s.Pending() && s'.Pending() == [] && s'.flushed
  {
    hide Solid, Split, Join, Rollup;
    var s1 := Tick(s, audioEnd).(flushed := true);
    RollupConserves(s1, Some(SessionFlush), Clock(s1.lastEnd, false));
    assert s1.Pending() == s.Pending();
  }

  /** Over a whole session that leaves displayed words alone, and its flush, the finished lines carry exactly the spoken
      words: the final text of each utterance and what was open at the end, in order. */
  lemma SessionShowsEveryWordOnce(steps: seq<Step>, audioEnd: Option<real>, align: Aligner)
    requires Aligns(align) && RunKeeps(NewAdapter, steps, align)
    ensures FinalWords(Session(steps, audioEnd, align).1) == SpokenWords([], steps)
  {
    hide Solid, Split, Join, Run, Rollup, AfterFlush, FinalWords, RunKeeps, SpokenWords;
    var (s1, es1) := Run(NewAdapter, steps, align);
    RunConserves(NewAdapter, steps, align);
    FlushShowsPending(s1, audioEnd);
    FinalWordsOfParts(es1, AfterFlush(s1, audioEnd).1);
    assert [] + FinalWords(es1) == FinalWords(es1);
  }

  /** In particular if within each utterance the hypothesis only grows. */
  lemma GrowingSessionShowsEveryWordOnce(steps: seq<Step>, audioEnd: Option<real>, align: Aligner)
    requires Aligns(align) && Grows([], steps)
    ensures FinalWords(Session(steps, audioEnd, align).1) == SpokenWords([], steps)
  {
    hide FinalWords, Session, RunKeeps, SpokenWords, Grows;
    GrowingIsKept(NewAdapter, steps, align);
    SessionShowsEveryWordOnce(steps, audioEnd, align);
  }

  // ----- Numbering, counters and line length, over every session -----

  ghost function Count(events: seq<Event>, reason: Reason): nat {
    if events == [] then 0
    else (if events[0].reason == reason then 1 else 0) + Count(events[1..], reason)
  }

  lemma {:induction false} CountOfParts(left: seq<Event>, right: seq<Event>, reason: Reason)
    ensures Count(left + right, reason) == Count(left, reason) + Count(right, reason)
  {
    if left == [] {
      assert left + right == right;
    } else {
      assert (left + right)[1..] == left[1..] + right;
      CountOfParts(left[1..], right, reason);
    }
  }

  // A line of at most 55 characters, or one single word; the firmware gets its bounded tail.
  ghost predicate ShortLine(e: Event) {
    && (|e.fullText| <= 55 || |Split(e.fullText)| == 1)
    && e.text == Tail(e.fullText, 120)
    && (e.isFinal <==> e.reason != Partial)
  }

  ghost predicate CountsAgree(c: Counters, events: seq<Event>, c': Counters) {
    && c'.partialsEmitted == c.partialsEmitted + Count(events, Partial)
    && c'.finalsEmitted + Count(events, Partial) == c.finalsEmitted + |events|
    && c'.displayRollupFinals == c.displayRollupFinals + Count(events, DisplayRollup)
    && c'.modelEouFinals == c.modelEouFinals + Count(events, ModelEou)
    && c'.sessionEndFinals == c.sessionEndFinals + Count(events, SessionEndFinal)
  }

  /** From s to s' exactly these events went out: numbered without gaps, counted by kind, every line short. */
  ghost predicate Accounts(s: AdapterState, events: seq<Event>, s': AdapterState) {
    && s'.seqNo == s.seqNo + |events|
    && (forall k | 0 <= k < |events| :: events[k].seqNo == s.seqNo + k && ShortLine(events[k]))
    && CountsAgree(s.counts, events, s'.counts)
  }

  lemma AccountsInTurn(s: AdapterState, first: seq<Event>, s1: AdapterState, second: seq<Event>, s2: AdapterState)
    requires Accounts(s, first, s1) && Accounts(s1, second, s2)
    ensures Accounts(s, first + second, s2)
  {
    hide Solid, ShortLine;
    CountOfParts(first, second, Partial);
    CountOfParts(first, second, DisplayRollup);
    CountOfParts(first, second, ModelEou);
    CountOfParts(first, second, SessionEndFinal);
  }

  lemma PromoteAccounts(s: AdapterState, n: nat, reason: Reason, at: Clock)
    requires s.Valid() && n <= |s.Pending()| && reason != Partial
    requires n == 1 || |Join(s.Pending()[..n])| <= DISPLAY_LINE_MAX_CHARS
    ensures var (s', e) := Promote(s, n, reason, at); Accounts(s, [e], s')
  {
    hide Solid, Join, Split, Tail;
    SplitOfJoin(s.Pending()[..n]);
    assert forall r: Reason :: Count([EventFor(s, Join(s.Pending()[..n]), reason, at)], r) == if r == reason then 1 else 0;
  }

  lemma {:induction false} RollLinesAccounts(s: AdapterState, close: bool, at: Clock)
    requires s.Valid()
    ensures var (s', es) := RollLines(s, close, at); Accounts(s, es, s')
    decreases |s.words| - s.promoted
  {
    hide Solid, Join, Split, Tail, Accounts;
    var n := NextLine(s, close);
    if n > 0 {
      var (s1, e) := Promote(s, n, DisplayRollup, at);
      assert s.Pending()[..|s.Pending()|] == s.Pending();
      PromoteAccounts(s, n, DisplayRollup, at);
      RollLinesAccounts(s1, close, at);
      AccountsInTurn(s, [e], s1, RollLines(s1, close, at).1, RollLines(s1, close, at).0);
    } else {
      NothingAccounts(s);
    }
  }

  lemma NothingAccounts(s: AdapterState)
    ensures Accounts(s, [], s)
  {
  }

  lemma RollupAccounts(s: AdapterState, close: Option<Reason>, at: Clock)
    requires s.Valid() && close != Some(Partial)
    ensures var (s', es) := Rollup(s, close, at); Accounts(s, es, s')
  {
    hide Solid, Join, Split, Tail, Accounts, RollLines, ShortLine;
    var (s1, es) := RollLines(s, close.Some?, at);
    RollLinesAccounts(s, close.Some?, at);
    RollLinesConserves(s, close.Some?, at);
    var words := s1.Pending();
    assert words[..|words|] == words;
    NothingAccounts(s1);
    if words != [] {
      FitsWhenNoLine(s1, close.Some?);
      if close.Some? {
        PromoteAccounts(s1, |words|, close.value, at);
        AccountsInTurn(s, es, s1, [Promote(s1, |words|, close.value, at).1], Promote(s1, |words|, close.value, at).0);
      } else if s1.lastPartial == Some(Join(words)) {
        SameCountsAccount(s, es, s1, Rollup(s, close, at).0);
      } else {
        PartialAccounts(s1, Rollup(s, close, at).0, at);
        AccountsInTurn(s, es, s1, [EventFor(s1, Join(words), Partial, at)], Rollup(s, close, at).0);
      }
    }
  }

  // When no further line is due the pending words fit on one.
  lemma FitsWhenNoLine(s: AdapterState, close: bool)
    requires s.Valid() && NextLine(s, close) == 0 && s.Pending() != []
    ensures |Join(s.Pending())| <= DISPLAY_LINE_MAX_CHARS
  {
    hide Solid, Join;
  }

  // A suppressed duplicate or a bookkeeping change sends nothing out.
  lemma SameCountsAccount(s: AdapterState, es: seq<Event>, s1: AdapterState, s2: AdapterState)
    requires Accounts(s, es, s1) && s2.seqNo == s1.seqNo
    requires CountsAgree(s1.counts, [], s2.counts)
    ensures Accounts(s, es, s2)
  {
    hide Solid, ShortLine;
  }

  lemma PartialAccounts(s: AdapterState, s': AdapterState, at: Clock)
    requires s.Valid() && |Join(s.Pending())| <= DISPLAY_LINE_MAX_CHARS
    requires s'.seqNo == s.seqNo + 1
    requires s'.counts == s.counts.(partialsEmitted := s.counts.partialsEmitted + 1)
    ensures Accounts(s, [EventFor(s, Join(s.Pending()), Partial, at)], s')
  {
    hide Solid, Join, Split, Tail;
    assert forall r: Reason :: Count([EventFor(s, Join(s.Pending()), Partial, at)], r) == if r == Partial then 1 else 0;
  }

  lemma StepAccounts(s: AdapterState, step: Step, align: Aligner)
    requires s.Valid() && Aligns(align)
    ensures var (s', es) := AfterStep(s, step, align); Accounts(s, es, s')
  {
    hide Solid, Join, Split, Accounts, IngestFinal, IngestPartial;
    var s0 := Tick(s, step.times.audioEnd);
    var (s1, es1) := IngestFinal(s0, Split(step.finalText), step.sessionEnd, step.times, align);
    var (s2, es2) := IngestPartial(s1, Split(step.partialText), step.times, align);
    CloseAccounts(s0, Split(step.finalText), step.sessionEnd, step.times, align);
    ShowAccounts(s1, Split(step.partialText), step.times, align);
    AccountsInTurn(s0, es1, s1, es2, s2);
    Renamed(s, s0, es1 + es2, s2, CountEmpty(s2, step));
  }

  lemma CloseAccounts(s: AdapterState, words: seq<Word>, sessionEnd: bool, times: Times, align: Aligner)
    requires s.Valid() && Aligns(align)
    ensures var (s', es) := IngestFinal(s, words, sessionEnd, times, align); Accounts(s, es, s')
  {
    hide Solid, Join, Split, Accounts, Rollup, Rewritten, MapBoundary;
    NothingAccounts(s);
    if words != [] {
      var r, close, at := ReadyToClose(s, words, times, align), Some(ClosingReason(sessionEnd)), ClosingClock(s, times);
      RollupAccounts(r, close, at);
      var (r', es) := Rollup(r, close, at);
      Renamed(s, r, es, r', IngestFinal(s, words, sessionEnd, times, align).0);
    }
  }

  lemma ShowAccounts(s: AdapterState, words: seq<Word>, times: Times, align: Aligner)
    requires s.Valid() && Aligns(align)
    ensures var (s', es) := IngestPartial(s, words, times, align); Accounts(s, es, s')
  {
    hide Solid, Join, Split, Accounts, Rollup, Rewritten, MapBoundary;
    NothingAccounts(s);
    if words != [] {
      var r := ReadyToShow(s, words, times, align);
      RollupAccounts(r, None, Clock(s.lastEnd, false));
      var (r', es) := Rollup(r, None, Clock(s.lastEnd, false));
      Renamed(s, r, es, r', r');
    }
  }

  // Accounts looks at numbers and counters only.
  lemma Renamed(s: AdapterState, r: AdapterState, es: seq<Event>, r': AdapterState, s': AdapterState)
    requires Accounts(r, es, r')
    requires s.seqNo == r.seqNo && CountsAgree(s.counts, [], r.counts)
    requires s'.seqNo == r'.seqNo && CountsAgree(r'.counts, [], s'.counts)
    ensures Accounts(s, es, s')
  {
    hide Solid, ShortLine;
  }

  lemma {:induction false} RunAccounts(s: AdapterState, steps: seq<Step>, align: Aligner)
    requires s.Valid() && Aligns(align)
    ensures var (s', es) := Run(s, steps, align); Accounts(s, es, s')
    decreases |steps|
  {
    hide Solid, Accounts, AfterStep;
    NothingAccounts(s);
    if steps != [] {
      var (s1, es1) := AfterStep(s, steps[0], align);
      StepAccounts(s, steps[0], align);
      RunAccounts(s1, steps[1..], align);
      AccountsInTurn(s, es1, s1, Run(s1, steps[1..], align).1, Run(s1, steps[1..], align).0);
    }
  }

  lemma FlushAccounts(s: AdapterState, audioEnd: Option<real>)
    requires s.Valid()
    ensures var (s', es) := AfterFlush(s, audioEnd); Accounts(s, es, s')
  {
    hide Solid, Accounts, Rollup;
    NothingAccounts(s);
    var s1 := Tick(s, audioEnd).(flushed := true);
    var at := Clock(s1.lastEnd, false);
    var (s2, es) := Rollup(s1, Some(SessionFlush), at);
    RollupAccounts(s1, Some(SessionFlush), at);
    if s.flushed || s.promoted >= |s.words| {
      Renamed(s, s, [], s, AfterFlush(s, audioEnd).0);
    } else {
      Renamed(s, s1, es, s2, AfterFlush(s, audioEnd).0);
    }
  }

  /** In every session, revised hypotheses included, events are numbered from 0 without gaps, `seq` is partials plus
      finals, each counter is the number of events of its kind, and each line is short or a single word. */
  lemma SessionAccounts(steps: seq<Step>, audioEnd: Option<real>, align: Aligner)
    requires Aligns(align)
    ensures var (s, es) := Session(steps, audioEnd, align);
      && Accounts(NewAdapter, es, s)
      && s.seqNo == |es| == s.counts.partialsEmitted + s.counts.finalsEmitted
  {
    hide Solid, Run, AfterFlush;
    var (s1, es1) := Run(NewAdapter, steps, align);
    RunAccounts(NewAdapter, steps, align);
    FlushAccounts(s1, audioEnd);
    AccountsInTurn(NewAdapter, es1, s1, AfterFlush(s1, audioEnd).1, AfterFlush(s1, audioEnd).0);
  }

  // ----- Counters of steps -----

  // How many steps close an utterance, close the session, bring a hypothesis, bring nothing; how many closing texts and
  // how many hypotheses rewrite displayed words; and how many hypotheses leave words live that are news, or none.
  datatype Tally = Tally(eous: nat, sessionEnds: nat, hypotheses: nat, empties: nat, mismatches: nat, revisions: nat,
                         news: nat, repeats: nat)
  {
    function Plus(t: Tally): Tally {
      Tally(eous + t.eous, sessionEnds + t.sessionEnds, hypotheses + t.hypotheses, empties + t.empties,
            mismatches + t.mismatches, revisions + t.revisions, news + t.news, repeats + t.repeats)
    }
  }

  const Nothing := Tally(0, 0, 0, 0, 0, 0, 0, 0)

  predicate NoFinals(events: seq<Event>) {
    forall i | 0 <= i < |events| :: !events[i].isFinal
  }

  // Live words that were the live words before, with no line finished since, are no news.
  ghost predicate IsRepeat(before: AdapterState, events: seq<Event>, live: seq<Word>) {
    live != [] && NoFinals(events) && before.lastPartial == Some(Join(live))
  }

  ghost predicate IsNews(before: AdapterState, events: seq<Event>, live: seq<Word>) {
    live != [] && !(NoFinals(events) && before.lastPartial == Some(Join(live)))
  }

  function One(b: bool): nat {
    if b then 1 else 0
  }

  ghost function TallyOf(s: AdapterState, step: Step, align: Aligner): Tally
    requires s.Valid() && Aligns(align)
  {
    var final_, partial := Split(step.finalText), Split(step.partialText);
    var s0 := Tick(s, step.times.audioEnd);
    var s1 := IngestFinal(s0, final_, step.sessionEnd, step.times, align).0;
    var (s2, es) := IngestPartial(s1, partial, step.times, align);
    Tally(One(final_ != [] && !step.sessionEnd), One(final_ != [] && step.sessionEnd),
          One(partial != []), One(final_ == [] && partial == []),
          One(final_ != [] && !(s0.words[..s0.promoted] <= final_)), One(partial != [] && !(s1.words[..s1.promoted] <= partial)),
          One(partial != [] && IsNews(s1, es, s2.Pending())), One(partial != [] && IsRepeat(s1, es, s2.Pending())))
  }

  // The counters have moved by the tally: live words that are news are sent, others are suppressed.
  ghost predicate Advanced(c: Counters, c': Counters, t: Tally) {
    && c'.eouCount == c.eouCount + t.eous && c'.sessionEndCount == c.sessionEndCount + t.sessionEnds
    && c'.partialsReceived == c.partialsReceived + t.hypotheses && c'.emptySteps == c.emptySteps + t.empties
    && c'.finalPrefixMismatches == c.finalPrefixMismatches + t.mismatches
    && c'.partialRevisions == c.partialRevisions + t.revisions
    && c'.partialsEmitted == c.partialsEmitted + t.news
    && c'.duplicatesSuppressed == c.duplicatesSuppressed + t.repeats
  }

  lemma {:induction false} RollLinesAdvance(s: AdapterState, close: bool, at: Clock)
    requires s.Valid()
    ensures var (s', es) := RollLines(s, close, at);
      && Advanced(s.counts, s'.counts, Nothing) && s'.counts.flushFinals == s.counts.flushFinals
      && (es == [] ==> s' == s) && (es != [] ==> es[0].isFinal && s'.lastPartial == None)
    decreases |s.words| - s.promoted
  {
    hide Solid, Join, NextLine, Tail;
    var n := NextLine(s, close);
    if n > 0 {
      RollLinesAdvance(Promote(s, n, DisplayRollup, at).0, close, at);
    }
  }

  lemma RollupAdvances(s: AdapterState, close: Option<Reason>, at: Clock)
    requires s.Valid()
    ensures var (s', es) := Rollup(s, close, at); var live := s'.Pending();
      && Advanced(s.counts, s'.counts, Nothing.(news := One(close.None? && IsNews(s, es, live)),
                                                repeats := One(close.None? && IsRepeat(s, es, live))))
      && s'.counts.flushFinals == s.counts.flushFinals
  {
    hide Solid, Join, RollLines, Tail;
    RollLinesAdvance(s, close.Some?, at);
    var lines, all := RollLines(s, close.Some?, at).1, Rollup(s, close, at).1;
    if lines != [] {
      assert all[0] == lines[0];
    } else if close.None? {
      assert NoFinals(all);
    }
  }

  lemma RewrittenIs(s: AdapterState, words: seq<Word>)
    requires s.Valid()
    ensures Rewritten(s, words) <==> !(s.words[..s.promoted] <= words)
  {
    hide Solid;
    var shown := s.words[..s.promoted];
    var k := SharedPrefix(shown, words);
    if shown <= words {
      assert k == |shown|;
    }
  }

  lemma CloseAdvances(s: AdapterState, words: seq<Word>, sessionEnd: bool, times: Times, align: Aligner)
    requires s.Valid() && Aligns(align)
    ensures var s' := IngestFinal(s, words, sessionEnd, times, align).0; var some := words != [];
      && Advanced(s.counts, s'.counts, Nothing.(eous := One(some && !sessionEnd), sessionEnds := One(some && sessionEnd),
                                                mismatches := One(some && !(s.words[..s.promoted] <= words))))
      && s'.counts.flushFinals == s.counts.flushFinals
  {
    hide Solid, Join, Rollup, MapBoundary, Rewritten;
    RewrittenIs(s, words);
    if words != [] {
      RollupAdvances(ReadyToClose(s, words, times, align), Some(ClosingReason(sessionEnd)), ClosingClock(s, times));
    }
  }

  lemma ShowAdvances(s: AdapterState, words: seq<Word>, times: Times, align: Aligner)
    requires s.Valid() && Aligns(align)
    ensures var (s', es) := IngestPartial(s, words, times, align); var some := words != [];
      && Advanced(s.counts, s'.counts, Nothing.(hypotheses := One(some), revisions := One(some && !(s.words[..s.promoted] <= words)),
                                                news := One(some && IsNews(s, es, s'.Pending())),
                                                repeats := One(some && IsRepeat(s, es, s'.Pending()))))
      && s'.counts.flushFinals == s.counts.flushFinals
  {
    hide Solid, Join, Rollup, MapBoundary, Rewritten;
    RewrittenIs(s, words);
    if words != [] {
      RollupAdvances(ReadyToShow(s, words, times, align), None, Clock(s.lastEnd, false));
    }
  }

  lemma StepAdvances(s: AdapterState, step: Step, align: Aligner)
    requires s.Valid() && Aligns(align)
    ensures var s' := AfterStep(s, step, align).0;
      && Advanced(s.counts, s'.counts, TallyOf(s, step, align)) && s'.counts.flushFinals == s.counts.flushFinals
  {
    hide Solid, Join, Split, IngestFinal, IngestPartial, Rewritten;
    var s0 := Tick(s, step.times.audioEnd);
    var s1 := IngestFinal(s0, Split(step.finalText), step.sessionEnd, step.times, align).0;
    CloseAdvances(s0, Split(step.finalText), step.sessionEnd, step.times, align);
    ShowAdvances(s1, Split(step.partialText), step.times, align);
  }

  ghost function RunTally(s: AdapterState, steps: seq<Step>, align: Aligner): Tally
    requires s.Valid() && Aligns(align)
    decreases |steps|
  {
    if steps == [] then Nothing
    else TallyOf(s, steps[0], align).Plus(RunTally(AfterStep(s, steps[0], align).0, steps[1..], align))
  }

  lemma {:induction false} RunCountsSteps(s: AdapterState, steps: seq<Step>, align: Aligner)
    requires s.Valid() && Aligns(align)
    ensures var s' := Run(s, steps, align).0;
      && Advanced(s.counts, s'.counts, RunTally(s, steps, align)) && s'.counts.flushFinals == s.counts.flushFinals
    decreases |steps|
  {
    hide AfterStep, TallyOf;
    if steps != [] {
      StepAdvances(s, steps[0], align);
      RunCountsSteps(AfterStep(s, steps[0], align).0, steps[1..], align);
    }
  }

  lemma FlushAdvances(s: AdapterState, audioEnd: Option<real>)
    requires s.Valid()
    ensures var (s', es) := AfterFlush(s, audioEnd);
      Advanced(s.counts, s'.counts, Nothing) && s'.counts.flushFinals == s.counts.flushFinals + |es|
  {
    hide Solid, Join, Split, Rollup;
    var s1 := Tick(s, audioEnd).(flushed := true);
    RollupAdvances(s1, Some(SessionFlush), Clock(s1.lastEnd, false));
  }

  // The clock when the first hypothesis arrives.
  function FirstShown(clock: real, steps: seq<Step>): Option<real>
    decreases |steps|
  {
    if steps == [] then None
    else
      var now := if steps[0].times.audioEnd.Some? then steps[0].times.audioEnd.value else clock;
      if Split(steps[0].partialText) != [] then Some(now) else FirstShown(now, steps[1..])
  }

  lemma {:induction false} RollLinesKeepFirst(s: AdapterState, close: bool, at: Clock)
    requires s.Valid()
    ensures var s' := RollLines(s, close, at).0; s'.firstPartialSec == s.firstPartialSec && s'.lastEnd == s.lastEnd
    decreases |s.words| - s.promoted
  {
    hide Solid, Join, NextLine, Tail;
    var n := NextLine(s, close);
    if n > 0 {
      RollLinesKeepFirst(Promote(s, n, DisplayRollup, at).0, close, at);
    }
  }

  lemma StepKeepsFirst(s: AdapterState, step: Step, align: Aligner)
    requires s.Valid() && Aligns(align)
    ensures var s' := AfterStep(s, step, align).0; var now := Tick(s, step.times.audioEnd).lastEnd;
      && s'.lastEnd == now
      && s'.firstPartialSec == if s.firstPartialSec.None? && Split(step.partialText) != [] then Some(now) else s.firstPartialSec
  {
    hide Solid, Join, Split, IngestFinal, IngestPartial;
    var final_, partial := Split(step.finalText), Split(step.partialText);
    var s0 := Tick(s, step.times.audioEnd);
    CloseKeepsFirst(s0, final_, step.sessionEnd, step.times, align);
    ShowKeepsFirst(IngestFinal(s0, final_, step.sessionEnd, step.times, align).0, partial, step.times, align);
  }

  lemma RollupKeepsFirst(s: AdapterState, close: Option<Reason>, at: Clock)
    requires s.Valid()
    ensures var s' := Rollup(s, close, at).0; s'.firstPartialSec == s.firstPartialSec && s'.lastEnd == s.lastEnd
  {
    hide Solid, Join, RollLines, Tail;
    RollLinesKeepFirst(s, close.Some?, at);
  }

  lemma CloseKeepsFirst(s: AdapterState, words: seq<Word>, sessionEnd: bool, times: Times, align: Aligner)
    requires s.Valid() && Aligns(align)
    ensures var s' := IngestFinal(s, words, sessionEnd, times, align).0;
      s'.firstPartialSec == s.firstPartialSec && s'.lastEnd == s.lastEnd
  {
    hide Solid, Rollup, Rewritten, MapBoundary;
    if words != [] {
      RollupKeepsFirst(ReadyToClose(s, words, times, align), Some(ClosingReason(sessionEnd)), ClosingClock(s, times));
    }
  }

  lemma ShowKeepsFirst(s: AdapterState, words: seq<Word>, times: Times, align: Aligner)
    requires s.Valid() && Aligns(align)
    ensures var s' := IngestPartial(s, words, times, align).0;
      && s'.lastEnd == s.lastEnd
      && s'.firstPartialSec == if words != [] && s.firstPartialSec.None? then Some(s.lastEnd) else s.firstPartialSec
  {
    hide Solid, Rollup, Rewritten, MapBoundary;
    if words != [] {
      RollupKeepsFirst(ReadyToShow(s, words, times, align), None, Clock(s.lastEnd, false));
    }
  }

  /** The time of the first hypothesis is the clock when it arrived, and is kept from then on. */
  lemma {:induction false} FirstHypothesisIsTimed(s: AdapterState, steps: seq<Step>, align: Aligner)
    requires s.Valid() && Aligns(align)
    ensures Run(s, steps, align).0.firstPartialSec
      == if s.firstPartialSec.Some? then s.firstPartialSec else FirstShown(s.lastEnd, steps)
    decreases |steps|
  {
    hide AfterStep, Split;
    if steps != [] {
      StepKeepsFirst(s, steps[0], align);
      FirstHypothesisIsTimed(AfterStep(s, steps[0], align).0, steps[1..], align);
    }
  }

  /** Over every session each counter of steps is the tally of its kind, what was live was sent or suppressed, and the
      flush counts the events it sends itself. */
  lemma SessionCountsSteps(steps: seq<Step>, audioEnd: Option<real>, align: Aligner)
    requires Aligns(align)
    ensures NewAdapter.Valid()
    ensures var (s, es) := Session(steps, audioEnd, align); var before := Run(NewAdapter, steps, align).1;
      && Advanced(NewAdapter.counts, s.counts, RunTally(NewAdapter, steps, align))
      && before <= es && s.counts.flushFinals == |es| - |before|
  {
    hide Run, AfterFlush, RunTally;
    RunCountsSteps(NewAdapter, steps, align);
    FlushAdvances(Run(NewAdapter, steps, align).0, audioEnd);
  }

  /** The flush works once: a second one changes nothing and sends nothing. */
  lemma FlushOnce(s: AdapterState, audioEnd: Option<real>, later: Option<real>)
    requires s.Valid()
    ensures var s1 := AfterFlush(s, audioEnd).0; AfterFlush(s1, later) == (s1, [])
  {
    hide Solid, Join, Split, NextLine, Rollup;
    var s1 := Tick(s, audioEnd).(flushed := true);
    RollupConserves(s1, Some(SessionFlush), Clock(s1.lastEnd, false));
  }
}
