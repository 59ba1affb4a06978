/** The live caption adapter: each step brings the whole growing hypothesis, each word must be shown once. */
module TranscriptAdapter {
  import opened Common
  import opened Words
  import opened CommittedBoundary

  const VISIBLE_TEXT_MAX_CHARS := 120
  const DISPLAY_LINE_MAX_CHARS := 55

  datatype Reason = Partial | DisplayRollup | ModelEou | SessionEndFinal | SessionFlush

  // The marks `eou`, `session_end` and `forced_flush` are the reasons ModelEou, SessionEndFinal and SessionFlush.
  // Times are in seconds, before they are rounded for display.
  datatype Event = Event(
    seqNo: nat, isFinal: bool, text: string, fullText: string, reason: Reason,
    startSec: real, endSec: real, fromSegments: bool)

  // The session clock before and after the step, and the bounds of the segments the engine reports.
  datatype Times = Times(
    audioStart: Option<real>, audioEnd: Option<real>, segmentStart: Option<real>, segmentEnd: Option<real>)

  // One engine output: closed utterance text and in-progress text, either may be empty.
  datatype Step = Step(finalText: string, partialText: string, sessionEnd: bool, times: Times)

  // The end of the events of one roll-up, and whether it comes from segments.
  datatype Clock = Clock(end: real, fromSegments: bool)

  // Block alignment of two hypotheses, as the sequence matcher reports it.
  type Aligner = (seq<Word>, seq<Word>) -> seq<Opcode>

  // What is known of the matcher: its blocks tile both sides, and a pure append starts with one equal block.
  ghost predicate AlignsPair(align: Aligner, a: seq<Word>, b: seq<Word>) {
    && Tiles(align(a, b), 0, 0, |a|, |b|)
    && (a != [] && a <= b ==> align(a, b) != [] && align(a, b)[0] == Opcode(Equal, 0, |a|, 0, |a|))
  }

  ghost predicate Aligns(align: Aligner) {
    forall a: seq<Word>, b: seq<Word> :: AlignsPair(align, a, b)
  }

  datatype Counters = Counters(
    partialsEmitted: nat, duplicatesSuppressed: nat, finalsEmitted: nat,
    displayRollupFinals: nat, modelEouFinals: nat, sessionEndFinals: nat, flushFinals: nat,
    partialRevisions: nat, finalPrefixMismatches: nat,
    partialsReceived: nat, eouCount: nat, sessionEndCount: nat, emptySteps: nat)

  // The adapter's fields as one value.
  datatype AdapterState = AdapterState(
    seqNo: nat, words: seq<Word>, promoted: nat, lastPartial: Option<string>, flushed: bool,
    startSec: Option<real>, lastEnd: real, firstPartialSec: Option<real>, counts: Counters)
  {
    ghost predicate Valid() {
      promoted <= |words|
    }

    // Words of the utterance not yet on a finished line.
    ghost function Pending(): seq<Word>
      requires Valid()
    {
      words[promoted..]
    }
  }

  predicate EndsSentence(pending: string) {
    pending != "" && pending[|pending| - 1] in {'.', '?', '!', '\U{2026}'}
  }

  function Else<T>(first: Option<T>, second: Option<T>): Option<T> {
    if first.Some? then first else second
  }

  ghost function EventFor(s: AdapterState, visible: string, reason: Reason, at: Clock): Event {
    Event(s.seqNo, !reason.Partial?, Tail(visible, VISIBLE_TEXT_MAX_CHARS), visible, reason,
          Else(s.startSec, Some(s.lastEnd)).value, at.end, at.fromSegments)
  }

  function CountFinal(c: Counters, reason: Reason): Counters {
    c.(finalsEmitted := c.finalsEmitted + 1,
       displayRollupFinals := c.displayRollupFinals + if reason.DisplayRollup? then 1 else 0,
       modelEouFinals := c.modelEouFinals + if reason.ModelEou? then 1 else 0,
       sessionEndFinals := c.sessionEndFinals + if reason.SessionEndFinal? then 1 else 0)
  }

  // A finished line of n words leaves the pending text.
  ghost function Promote(s: AdapterState, n: nat, reason: Reason, at: Clock): (AdapterState, Event)
    requires s.Valid() && n <= |s.Pending()|
  {
    (s.(seqNo := s.seqNo + 1, promoted := s.promoted + n, lastPartial := None, counts := CountFinal(s.counts, reason),
        startSec := if reason.DisplayRollup? then Some(at.end) else s.startSec),
     EventFor(s, Join(s.Pending()[..n]), reason, at))
  }

  // Words of the next finished line, 0 for none: full lines always, a finished sentence only while the utterance is open.
  ghost function NextLine(s: AdapterState, close: bool): (n: nat)
    requires s.Valid()
    ensures n <= |s.Pending()|
  {
    var words := s.Pending();
    var pending := Join(words);
    if |pending| > DISPLAY_LINE_MAX_CHARS then LineCount(words, DISPLAY_LINE_MAX_CHARS)
    else if EndsSentence(pending) && !close then |words|
    else 0
  }

  // The roll-up loop.
  ghost function RollLines(s: AdapterState, close: bool, at: Clock): (r: (AdapterState, seq<Event>))
    requires s.Valid()
    ensures r.0.Valid() && r.0.words == s.words && r.0.promoted >= s.promoted
    decreases |s.words| - s.promoted
  {
    var n := NextLine(s, close);
    if n == 0 then (s, [])
    else
      var (s1, e) := Promote(s, n, DisplayRollup, at);
      var (s2, es) := RollLines(s1, close, at);
      (s2, [e] + es)
  }

  // One turn of the loop, behind the lines already finished.
  lemma OneLine(s: AdapterState, close: bool, at: Clock, done: seq<Event>)
    requires s.Valid()
    ensures var n := NextLine(s, close); var (s', es) := RollLines(s, close, at);
      if n == 0 then (s', done + es) == (s, done)
      else
        var (s1, e) := Promote(s, n, DisplayRollup, at);
        n <= |s.words| - s.promoted && s1.Valid() && s1.promoted == s.promoted + n
        && (s', done + es) == (RollLines(s1, close, at).0, (done + [e]) + RollLines(s1, close, at).1)
  {
    hide NextLine, Join;
    assert done + [] == done;
    var n := NextLine(s, close);
    if n > 0 {
      var (s1, e) := Promote(s, n, DisplayRollup, at);
      var es := RollLines(s1, close, at).1;
      assert done + ([e] + es) == (done + [e]) + es;
    }
  }

  // `close` carries the reason of the closing event when the utterance is over.
  ghost function Rollup(s: AdapterState, close: Option<Reason>, at: Clock): (r: (AdapterState, seq<Event>))
    requires s.Valid()
    ensures r.0.Valid()
  {
    var (s1, es) := RollLines(s, close.Some?, at);
    var words := s1.Pending();
    if words == [] then (s1, es)
    else if close.Some? then
      var (s2, e) := Promote(s1, |words|, close.value, at);
      (s2, es + [e])
    else if s1.lastPartial == Some(Join(words)) then
      (s1.(counts := s1.counts.(duplicatesSuppressed := s1.counts.duplicatesSuppressed + 1)), es)
    else
      (s1.(seqNo := s1.seqNo + 1, lastPartial := Some(Join(words)),
           counts := s1.counts.(partialsEmitted := s1.counts.partialsEmitted + 1)),
       es + [EventFor(s1, Join(words), Partial, at)])
  }

  ghost function Reset(s: AdapterState): AdapterState {
    s.(words := [], promoted := 0, lastPartial := None, startSec := None)
  }

  // An utterance starts when its first hypothesis arrives.
  function Opened(s: AdapterState, start: Option<real>): AdapterState {
    s.(startSec := Else(s.startSec, start))
  }

  function Tick(s: AdapterState, audioEnd: Option<real>): AdapterState {
    s.(lastEnd := Else(audioEnd, Some(s.lastEnd)).value)
  }

  // Number of leading words both sides share.
  ghost function SharedPrefix(left: seq<Word>, right: seq<Word>): (k: nat)
    ensures k <= |left| && k <= |right| && left[..k] == right[..k]
    ensures k < |left| && k < |right| ==> left[k] != right[k]
  {
    if left != [] && right != [] && left[0] == right[0] then 1 + SharedPrefix(left[1..], right[1..]) else 0
  }

  // The new hypothesis replaces the old one; the committed boundary moves along.
  ghost function Revise(s: AdapterState, words: seq<Word>, align: Aligner): (s': AdapterState)
    requires s.Valid() && Aligns(align)
    ensures s'.Valid() && s'.words == words
    ensures s.words <= words ==> s'.promoted == s.promoted
  {
    assert AlignsPair(align, s.words, words);
    var ops := align(s.words, words);
    BoundaryIsMonotone(ops, |s.words|, |words|, s.promoted, s.promoted);
    assert s.words <= words ==> MapBoundary(ops, |s.words|, |words|, s.promoted) == s.promoted by {
      if s.words != [] && s.words <= words {
        AppendKeepsBoundary(ops, |s.words|, |words|, s.promoted);
      }
    }
    s.(words := words, promoted := MapBoundary(ops, |s.words|, |words|, s.promoted))
  }

  ghost predicate Rewritten(s: AdapterState, words: seq<Word>)
    requires s.Valid()
  {
    SharedPrefix(s.words[..s.promoted], words) < s.promoted
  }

  ghost function CountMismatch(s: AdapterState, words: seq<Word>): AdapterState
    requires s.Valid()
  {
    s.(counts := s.counts.(finalPrefixMismatches :=
         s.counts.finalPrefixMismatches + if Rewritten(s, words) then 1 else 0))
  }

  ghost function CountRevision(s: AdapterState, words: seq<Word>): AdapterState
    requires s.Valid()
  {
    s.(counts := s.counts.(partialRevisions := s.counts.partialRevisions + if Rewritten(s, words) then 1 else 0,
                           partialsReceived := s.counts.partialsReceived + 1),
       firstPartialSec := Else(s.firstPartialSec, Some(s.lastEnd)))
  }

  function CountClose(c: Counters, sessionEnd: bool): Counters {
    if sessionEnd then c.(sessionEndCount := c.sessionEndCount + 1) else c.(eouCount := c.eouCount + 1)
  }

  // The state the roll-up of a closed utterance starts from, and its clock.
  ghost function ReadyToClose(s: AdapterState, words: seq<Word>, times: Times, align: Aligner): (s': AdapterState)
    requires s.Valid() && Aligns(align)
    ensures s'.Valid() && s'.words == words
  {
    Opened(Revise(CountMismatch(s, words), words, align), Else(times.segmentStart, times.audioStart))
  }

  function ClosingClock(s: AdapterState, times: Times): Clock {
    Clock(Else(times.segmentEnd, Some(s.lastEnd)).value, times.segmentEnd.Some?)
  }

  function ClosingReason(sessionEnd: bool): Reason {
    if sessionEnd then SessionEndFinal else ModelEou
  }

  ghost function IngestFinal(s: AdapterState, words: seq<Word>, sessionEnd: bool, times: Times, align: Aligner):
    (r: (AdapterState, seq<Event>))
    requires s.Valid() && Aligns(align)
    ensures r.0.Valid()
  {
    if words == [] then (s, [])
    else
      var (s1, es) :=
        Rollup(ReadyToClose(s, words, times, align), Some(ClosingReason(sessionEnd)), ClosingClock(s, times));
      (Reset(s1.(counts := CountClose(s1.counts, sessionEnd))), es)
  }

  // The state the roll-up of an open hypothesis starts from.
  ghost function ReadyToShow(s: AdapterState, words: seq<Word>, times: Times, align: Aligner): (s': AdapterState)
    requires s.Valid() && Aligns(align)
    ensures s'.Valid() && s'.words == words
  {
    Opened(Revise(CountRevision(s, words), words, align), Else(times.audioStart, Some(s.lastEnd)))
  }

  ghost function IngestPartial(s: AdapterState, words: seq<Word>, times: Times, align: Aligner): (r: (AdapterState, seq<Event>))
    requires s.Valid() && Aligns(align)
    ensures r.0.Valid()
  {
    if words == [] then (s, []) else Rollup(ReadyToShow(s, words, times, align), None, Clock(s.lastEnd, false))
  }

  function CountEmpty(s: AdapterState, step: Step): AdapterState {
    if Split(step.finalText) == [] && Split(step.partialText) == [] then
      s.(counts := s.counts.(emptySteps := s.counts.emptySteps + 1))
    else s
  }

  ghost function AfterStep(s: AdapterState, step: Step, align: Aligner): (r: (AdapterState, seq<Event>))
    requires s.Valid() && Aligns(align)
    ensures r.0.Valid()
  {
    var s0 := Tick(s, step.times.audioEnd);
    var (s1, es1) := IngestFinal(s0, Split(step.finalText), step.sessionEnd, step.times, align);
    var (s2, es2) := IngestPartial(s1, Split(step.partialText), step.times, align);
    (CountEmpty(s2, step), es1 + es2)
  }

  ghost function AfterFlush(s: AdapterState, audioEnd: Option<real>): (r: (AdapterState, seq<Event>))
    requires s.Valid()
    ensures r.0.Valid()
  {
    if s.flushed then (s, [])
    else
      var s1 := Tick(s, audioEnd).(flushed := true);
      if s.promoted >= |s.words| then (s1, [])
      else
        var (s2, es) := Rollup(s1, Some(SessionFlush), Clock(s1.lastEnd, false));
        (Reset(s2.(counts := s2.counts.(flushFinals := s2.counts.flushFinals + |es|))), es)
  }

  /** The object the session feeds; each method does to the fields what the function above says. */
  class Adapter {
    const align: Aligner
    var seqNo: nat
    var utteranceWords: seq<Word>
    var promotedWords: nat
    var lastPartialVisible: Option<string>
    var flushed: bool
    var partialsEmitted: nat
    var duplicatesSuppressed: nat
    var finalsEmitted: nat
    var displayRollupFinals: nat
    var modelEouFinals: nat
    var sessionEndFinals: nat
    var flushFinals: nat
    var partialRevisions: nat
    var finalPrefixMismatches: nat
    var partialsReceived: nat
    var eouCount: nat
    var sessionEndCount: nat
    var emptySteps: nat
    var utteranceStartSec: Option<real>
    var lastEndSec: real
    var firstPartialAudioSec: Option<real>

    ghost function View(): AdapterState
      reads this
    {
      AdapterState(seqNo, utteranceWords, promotedWords, lastPartialVisible, flushed,
        utteranceStartSec, lastEndSec, firstPartialAudioSec,
        Counters(partialsEmitted, duplicatesSuppressed, finalsEmitted,
                 displayRollupFinals, modelEouFinals, sessionEndFinals, flushFinals,
                 partialRevisions, finalPrefixMismatches,
                 partialsReceived, eouCount, sessionEndCount, emptySteps))
    }

    ghost predicate Valid()
      reads this
    {
      View().Valid() && Aligns(align)
    }

    constructor (align: Aligner)
      requires Aligns(align)
      ensures Valid() && this.align == align
      ensures View() == NewAdapter
    {
      this.align := align;
      seqNo, utteranceWords, promotedWords, lastPartialVisible, flushed := 0, [], 0, None, false;
      partialsEmitted, duplicatesSuppressed, finalsEmitted := 0, 0, 0;
      displayRollupFinals, modelEouFinals, sessionEndFinals, flushFinals := 0, 0, 0, 0;
      partialRevisions, finalPrefixMismatches := 0, 0;
      partialsReceived, eouCount, sessionEndCount, emptySteps := 0, 0, 0, 0;
      utteranceStartSec, lastEndSec, firstPartialAudioSec := None, 0.0, None;
    }

    method Emit(visible: string, reason: Reason, at: Clock) returns (event: Event)
      modifies this`seqNo
      ensures event == EventFor(old(View()), visible, reason, at)
      ensures View() == old(View()).(seqNo := old(View()).seqNo + 1)
    {
      var text := BoundedTail(visible, VISIBLE_TEXT_MAX_CHARS);
      var start := if utteranceStartSec.Some? then utteranceStartSec.value else lastEndSec;
      event := Event(seqNo, !reason.Partial?, text, visible, reason, start, at.end, at.fromSegments);
      seqNo := seqNo + 1;
    }

    method TakeNextLine(close: bool) returns (promoted: nat)
      requires Valid()
      ensures promoted == NextLine(View(), close)
    {
      var pendingWords := utteranceWords[promotedWords..];
      var pending := Join(pendingWords);
      JoinIsEmpty(pendingWords);
      if pending == "" {
        return 0;
      }
      var overWidth := |pending| > DISPLAY_LINE_MAX_CHARS;
      if !overWidth && !(EndsSentence(pending) && !close) {
        return 0;
      }
      promoted := |pendingWords|;
      if overWidth {
        promoted := TakeLineWords(pendingWords, DISPLAY_LINE_MAX_CHARS);
      }
    }

    // The first half of the roll-up: finished lines.
    method PromoteLines(close: bool, at: Clock) returns (events: seq<Event>)
      requires Valid()
      modifies this
      ensures (View(), events) == RollLines(old(View()), close, at)
    {
      hide Solid, NextLine, Join, Tail, RollLines, Promote;
      events := [];
      ghost var goal := RollLines(View(), close, at);
      assert events + goal.1 == goal.1;
      while true
        invariant Valid()
        invariant var (s, es) := RollLines(View(), close, at); (s, events + es) == goal
        decreases |utteranceWords| - promotedWords
      {
        OneLine(View(), close, at, events);
        var promoted := TakeNextLine(close);
        if promoted == 0 {
          break;
        }
        var head := FinishLine(promoted, DisplayRollup, at);
        events := events + [head];
      }
    }

    method CountLine(reason: Reason)
      modifies this`finalsEmitted, this`displayRollupFinals, this`modelEouFinals, this`sessionEndFinals
      ensures View() == old(View()).(counts := CountFinal(old(View()).counts, reason))
    {
      finalsEmitted := finalsEmitted + 1;
      if reason.DisplayRollup? {
        displayRollupFinals := displayRollupFinals + 1;
      } else if reason.ModelEou? {
        modelEouFinals := modelEouFinals + 1;
      } else if reason.SessionEndFinal? {
        sessionEndFinals := sessionEndFinals + 1;
      }
    }

    method MoveBoundary(promoted: nat, reason: Reason, at: Clock)
      modifies this`promotedWords, this`lastPartialVisible, this`utteranceStartSec
      ensures var s := old(View());
        View() == s.(promoted := s.promoted + promoted, lastPartial := None,
                     startSec := if reason.DisplayRollup? then Some(at.end) else s.startSec)
    {
      promotedWords := promotedWords + promoted;
      lastPartialVisible := None;
      if reason.DisplayRollup? {
        utteranceStartSec := Some(at.end);
      }
    }

    lemma ViewFields()
      ensures View().words == utteranceWords && View().promoted == promotedWords && View().seqNo == seqNo
      ensures View().lastPartial == lastPartialVisible && View().flushed == flushed && View().lastEnd == lastEndSec
    {
    }

    // One finished line leaves the pending words.
    method FinishLine(promoted: nat, reason: Reason, at: Clock) returns (event: Event)
      requires Valid() && promoted <= |utteranceWords| - promotedWords
      modifies this
      ensures (View(), event) == Promote(old(View()), promoted, reason, at)
    {
      hide Solid, Join, Tail, Split, View, CountFinal, EventFor, Valid;
      ViewFields();
      event := Emit(Join(utteranceWords[promotedWords..][..promoted]), reason, at);
      CountLine(reason);
      MoveBoundary(promoted, reason, at);
    }

    method RollUp(close: Option<Reason>, at: Clock) returns (events: seq<Event>)
      requires Valid()
      modifies this
      ensures Valid()
      ensures (View(), events) == Rollup(old(View()), close, at)
    {
      hide Solid, RollLines, Join, Tail, Split;
      events := PromoteLines(close.Some?, at);
      var pending := Join(utteranceWords[promotedWords..]);
      JoinIsEmpty(utteranceWords[promotedWords..]);
      if pending == "" {
        return;
      }
      if close.Some? {
        var last := FinishLine(|utteranceWords| - promotedWords, close.value, at);
        return events + [last];
      }
      if lastPartialVisible == Some(pending) {
        duplicatesSuppressed := duplicatesSuppressed + 1;
        return;
      }
      var live := Emit(pending, Partial, at);
      events := events + [live];
      partialsEmitted := partialsEmitted + 1;
      lastPartialVisible := Some(pending);
    }

    method ResetUtterance()
      requires Valid()
      modifies this
      ensures Valid()
      ensures View() == Reset(old(View()))
    {
      utteranceWords, promotedWords, lastPartialVisible, utteranceStartSec := [], 0, None, None;
    }

    method CommonWordPrefix(left: seq<Word>, right: seq<Word>) returns (index: nat)
      ensures index == SharedPrefix(left, right)
    {
      index := 0;
      assert left[0..] == left && right[0..] == right;
      while index < |left| && index < |right| && left[index] == right[index]
        invariant index <= |left| && index <= |right|
        invariant index + SharedPrefix(left[index..], right[index..]) == SharedPrefix(left, right)
      {
        assert left[index..][1..] == left[index + 1..] && right[index..][1..] == right[index + 1..];
        index := index + 1;
      }
    }

    // Tells whether the new hypothesis rewrites displayed words.
    method Rewrites(words: seq<Word>) returns (rewritten: bool)
      requires Valid()
      ensures rewritten == Rewritten(View(), words)
    {
      var shared := CommonWordPrefix(utteranceWords[..promotedWords], words);
      rewritten := shared < promotedWords;
    }

    method NoteMismatch(words: seq<Word>)
      requires Valid()
      modifies this`finalPrefixMismatches
      ensures Valid()
      ensures View() == CountMismatch(old(View()), words)
    {
      hide Rewritten;
      var rewritten := Rewrites(words);
      if rewritten {
        finalPrefixMismatches := finalPrefixMismatches + 1;
      }
    }

    method NoteRevision(words: seq<Word>)
      requires Valid()
      modifies this`partialRevisions, this`partialsReceived, this`firstPartialAudioSec
      ensures Valid()
      ensures View() == CountRevision(old(View()), words)
    {
      hide Rewritten;
      var rewritten := Rewrites(words);
      partialsReceived := partialsReceived + 1;
      if firstPartialAudioSec.None? {
        firstPartialAudioSec := Some(lastEndSec);
      }
      if rewritten {
        partialRevisions := partialRevisions + 1;
      }
    }

    // Puts the new hypothesis in place and moves the boundary along.
    method Adopt(words: seq<Word>)
      requires Valid()
      modifies this`utteranceWords, this`promotedWords
      ensures Valid()
      ensures View() == Revise(old(View()), words, align)
    {
      hide MapBoundary;
      assert AlignsPair(align, utteranceWords, words);
      var mapped := MapCommittedWordBoundary(align(utteranceWords, words), |utteranceWords|, |words|, promotedWords);
      utteranceWords := words;
      promotedWords := mapped;
      assert View() == Revise(old(View()), words, align);
    }

    // The utterance starts unless it has started already.
    method Open(start: Option<real>)
      requires Valid()
      modifies this`utteranceStartSec
      ensures Valid()
      ensures View() == Opened(old(View()), start)
    {
      if utteranceStartSec.None? {
        utteranceStartSec := start;
      }
    }

    method CountClosed(sessionEnd: bool)
      requires Valid()
      modifies this`sessionEndCount, this`eouCount
      ensures Valid()
      ensures View() == old(View()).(counts := CountClose(old(View()).counts, sessionEnd))
    {
      if sessionEnd {
        sessionEndCount := sessionEndCount + 1;
      } else {
        eouCount := eouCount + 1;
      }
    }

    // The authoritative text of an utterance that just closed.
    method CloseUtterance(words: seq<Word>, sessionEnd: bool, times: Times) returns (events: seq<Event>)
      requires Valid() && words != []
      modifies this
      ensures Valid()
      ensures (View(), events) == IngestFinal(old(View()), words, sessionEnd, times, align)
    {
      hide Rollup, MapBoundary, SharedPrefix, View, Rewritten, Revise, Opened, CountClose, Reset, CountMismatch;
      ViewFields();
      var at := if times.segmentEnd.Some? then Clock(times.segmentEnd.value, true) else Clock(lastEndSec, false);
      NoteMismatch(words);
      Adopt(words);
      Open(if times.segmentStart.Some? then times.segmentStart else times.audioStart);
      events := RollUp(Some(if sessionEnd then SessionEndFinal else ModelEou), at);
      CountClosed(sessionEnd);
      ResetUtterance();
    }

    // The hypothesis of the utterance in progress.
    method ShowHypothesis(words: seq<Word>, times: Times) returns (events: seq<Event>)
      requires Valid() && words != []
      modifies this
      ensures Valid()
      ensures (View(), events) == IngestPartial(old(View()), words, times, align)
    {
      hide Rollup, MapBoundary, SharedPrefix, View, Rewritten, Revise, Opened, CountRevision;
      ViewFields();
      var lastEnd := lastEndSec;
      NoteRevision(words);
      Adopt(words);
      Open(if times.audioStart.Some? then times.audioStart else Some(lastEnd));
      events := RollUp(None, Clock(lastEnd, false));
    }

    method Ingest(step: Step) returns (events: seq<Event>)
      requires Valid()
      modifies this
      ensures Valid()
      ensures (View(), events) == AfterStep(old(View()), step, align)
    {
      hide IngestFinal, IngestPartial, Split;
      IngestNothing(Tick(View(), step.times.audioEnd), step, align);
      events := [];
      var finalWords, partialWords := Split(step.finalText), Split(step.partialText);
      if step.times.audioEnd.Some? {
        lastEndSec := step.times.audioEnd.value;
      }
      if finalWords != [] {
        events := CloseUtterance(finalWords, step.sessionEnd, step.times);
      }
      IngestNothing(View(), step, align);
      if partialWords != [] {
        var more := ShowHypothesis(partialWords, step.times);
        events := events + more;
      } else {
        if finalWords == [] {
          emptySteps := emptySteps + 1;
        }
        assert events + [] == events;
      }
    }

    method StartFlush(audioEnd: Option<real>)
      requires Valid()
      modifies this`flushed, this`lastEndSec
      ensures Valid()
      ensures View() == Tick(old(View()), audioEnd).(flushed := true)
    {
      flushed := true;
      if audioEnd.Some? {
        lastEndSec := audioEnd.value;
      }
    }

    method CountFlush(n: nat)
      requires Valid()
      modifies this`flushFinals
      ensures Valid()
      ensures var s := old(View()); View() == s.(counts := s.counts.(flushFinals := s.counts.flushFinals + n))
    {
      flushFinals := flushFinals + n;
    }

    method ForceFinal(audioEnd: Option<real>) returns (events: seq<Event>)
      requires Valid()
      modifies this
      ensures Valid()
      ensures (View(), events) == AfterFlush(old(View()), audioEnd)
    {
      hide Rollup, View, Reset;
      ViewFields();
      if flushed {
        return [];
      }
      StartFlush(audioEnd);
      ViewFields();
      if promotedWords >= |utteranceWords| {
        return [];
      }
      events := RollUp(Some(SessionFlush), Clock(lastEndSec, false));
      CountFlush(|events|);
      ResetUtterance();
    }
  }

  lemma IngestNothing(s: AdapterState, step: Step, align: Aligner)
    requires s.Valid() && Aligns(align)
    ensures IngestFinal(s, [], step.sessionEnd, step.times, align) == (s, [])
    ensures IngestPartial(s, [], step.times, align) == (s, [])
  {
  }

  const NewAdapter :=
    AdapterState(0, [], 0, None, false, None, 0.0, None, Counters(0, 0, 0, 0, 0, 0, 0, 0, 0, 0, 0, 0, 0))
}
