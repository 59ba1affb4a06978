/** One streaming session: arbitrary audio chunks become fixed frames, frames become engine steps, steps become events. */
module NemotronSession {
  import opened Common
  import opened Arithmetic
  import opened Words
  import opened TranscriptAdapter
  import opened TranscriptRun
  import opened TranscriptEvents

  // Float samples at the model's rate.
  type Sample = real

  // One call of the engine.
  datatype Frame = Frame(samples: seq<Sample>, isFirst: bool, isLast: bool, validLength: nat)

  // The texts, and the bounds of the segments behind the closed one, if any.
  datatype EngineOutput =
    EngineOutput(finalText: string, partialText: string, segmentStart: Option<real>, segmentEnd: Option<real>)

  // The speech engine: its answer to the latest frame may depend on all frames so far.
  type Engine = seq<Frame> -> seq<EngineOutput>

  datatype SessionState = SessionState(
    log: seq<Frame>, residue: seq<Sample>, samplesConsumed: nat, firstFrame: bool, finished: bool,
    adapter: AdapterState)
  {
    // Flags and clock agree with the frames given.
    ghost predicate Sound() {
      adapter.Valid() && (firstFrame <==> log == []) && samplesConsumed == Consumed(log)
    }

    ghost predicate Valid(frameSamples: nat) {
      Sound() && |residue| < frameSamples
    }
  }

  function Consumed(log: seq<Frame>): nat {
    if log == [] then 0 else Consumed(log[..|log| - 1]) + log[|log| - 1].validLength
  }

  const TARGET_RATE := 16000.0

  function Seconds(samples: nat): real {
    samples as real / TARGET_RATE
  }

  // What the engine said about the latest frame, with the clock before and after it.
  function ToSteps(log: seq<Frame>, engine: Engine): seq<Step>
    requires log != []
  {
    var outputs, isLast := engine(log), log[|log| - 1].isLast;
    var start, end := Some(Seconds(Consumed(log[..|log| - 1]))), Some(Seconds(Consumed(log)));
    seq(|outputs|, i requires 0 <= i < |outputs| =>
      Step(outputs[i].finalText, outputs[i].partialText, isLast,
           Times(start, end, outputs[i].segmentStart, outputs[i].segmentEnd)))
  }

  // One engine step on one frame.
  ghost function FeedFrame(s: SessionState, samples: seq<Sample>, validLength: nat, isLast: bool,
                           engine: Engine, align: Aligner): (r: (SessionState, seq<Event>))
    requires s.Sound() && Aligns(align)
    ensures r.0.Sound()
  {
    var log := s.log + [Frame(samples, s.firstFrame, isLast, validLength)];
    assert log[..|log| - 1] == s.log;
    var (adapter, events) := Run(s.adapter, ToSteps(log, engine), align);
    (s.(log := log, firstFrame := false, samplesConsumed := s.samplesConsumed + validLength, adapter := adapter), events)
  }

  // All whole frames of the audio go to the engine; the rest is kept.
  ghost function FeedAll(s: SessionState, audio: seq<Sample>, frameSamples: nat, engine: Engine, align: Aligner):
    (r: (SessionState, seq<Event>))
    requires frameSamples > 0 && s.Sound() && Aligns(align)
    ensures r.0.Valid(frameSamples)
    decreases |audio|
  {
    if |audio| < frameSamples then (s.(residue := audio), [])
    else
      var (s1, es1) := FeedFrame(s, audio[..frameSamples], frameSamples, false, engine, align);
      var (s2, es2) := FeedAll(s1, audio[frameSamples..], frameSamples, engine, align);
      (s2, es1 + es2)
  }

  ghost function AfterPush(s: SessionState, audio: seq<Sample>, frameSamples: nat, engine: Engine, align: Aligner):
    (r: (SessionState, seq<Event>))
    requires s.Valid(frameSamples) && Aligns(align)
    ensures r.0.Valid(frameSamples)
  {
    FeedAll(s.(residue := []), s.residue + audio, frameSamples, engine, align)
  }

  function Silence(n: nat): seq<Sample> {
    seq(n, _ => 0.0)
  }

  ghost function AfterClose(s: SessionState, frameSamples: nat, engine: Engine, align: Aligner):
    (r: (SessionState, seq<Event>))
    requires s.Valid(frameSamples) && Aligns(align)
    ensures r.0.Valid(frameSamples)
  {
    if s.finished then (s, [])
    else
      var padded := s.residue + Silence(frameSamples - |s.residue|);
      var (s1, es1) := FeedFrame(s.(finished := true, residue := []), padded, |s.residue|, true, engine, align);
      var (adapter, es2) := AfterFlush(s1.adapter, Some(Seconds(s1.samplesConsumed)));
      (s1.(adapter := adapter), es1 + es2)
  }

  const NewSession := SessionState([], [], 0, true, false, NewAdapter)

  /** The session object; the engine's memory is the list of frames it was given. */
  class NemotronSession {
    const engine: Engine
    const frameSamples: nat
    const adapter: Adapter
    var frames: seq<Frame>
    var residue: seq<Sample>
    var samplesConsumed: nat
    var firstFrame: bool
    var finished: bool

    ghost function View(): SessionState
      reads this, adapter
    {
      SessionState(frames, residue, samplesConsumed, firstFrame, finished, adapter.View())
    }

    ghost predicate Sound()
      reads this, adapter
    {
      frameSamples > 0 && adapter.Valid() && View().Sound()
    }

    ghost predicate Valid()
      reads this, adapter
    {
      Sound() && |residue| < frameSamples
    }

    constructor (engine: Engine, frameSamples: nat, align: Aligner)
      requires Aligns(align)
      ensures Valid() && fresh(adapter)
      ensures this.engine == engine && adapter.align == align
      ensures this.frameSamples == if frameSamples == 0 then 1 else frameSamples
      ensures View() == NewSession
    {
      this.engine := engine;
      this.frameSamples := if frameSamples == 0 then 1 else frameSamples;
      frames, residue, samplesConsumed, firstFrame, finished := [], [], 0, true, false;
      var newAdapter := new Adapter(align);
      adapter := newAdapter;
    }

    method IngestEach(steps: seq<Step>) returns (events: seq<Event>)
      requires adapter.Valid()
      modifies adapter
      ensures adapter.Valid()
      ensures (adapter.View(), events) == Run(old(adapter.View()), steps, adapter.align)
    {
      hide AfterStep;
      events := [];
      ghost var goal := Run(adapter.View(), steps, adapter.align);
      assert steps[0..] == steps && [] + goal.1 == goal.1;
      for i := 0 to |steps|
        invariant adapter.Valid()
        invariant var (s, es) := Run(adapter.View(), steps[i..], adapter.align); (s, events + es) == goal
      {
        assert steps[i..][1..] == steps[i + 1..] && steps[i..][0] == steps[i];
        var more := adapter.Ingest(steps[i]);
        ghost var later := Run(adapter.View(), steps[i + 1..], adapter.align).1;
        assert events + (more + later) == (events + more) + later;
        events := events + more;
      }
      assert events + [] == events;
    }

    method RunStep(samples: seq<Sample>, validLength: nat, isLast: bool) returns (events: seq<Event>)
      requires Sound()
      modifies this, adapter
      ensures Sound()
      ensures (View(), events) == FeedFrame(old(View()), samples, validLength, isLast, engine, adapter.align)
    {
      hide Run, ToSteps;
      ghost var before := frames;
      frames := frames + [Frame(samples, firstFrame, isLast, validLength)];
      assert frames[..|frames| - 1] == before;
      firstFrame := false;
      samplesConsumed := samplesConsumed + validLength;
      events := IngestEach(ToSteps(frames, engine));
    }

    method PushFloat32(input: seq<Sample>) returns (events: seq<Event>)
      requires Valid()
      modifies this, adapter
      ensures Valid()
      ensures (View(), events) == AfterPush(old(View()), input, frameSamples, engine, adapter.align)
    {
      hide FeedFrame, Run, FeedAll, Consumed, ToSteps;
      var audio := residue + input;
      residue := [];
      events := [];
      var offset := 0;
      ghost var goal := FeedAll(View(), audio, frameSamples, engine, adapter.align);
      assert audio[0..] == audio && [] + goal.1 == goal.1;
      while |audio| - offset >= frameSamples
        invariant Sound() && offset <= |audio|
        invariant var (s, es) := FeedAll(View(), audio[offset..], frameSamples, engine, adapter.align);
          (s, events + es) == goal
      {
        ghost var rest := audio[offset..];
        assert rest[..frameSamples] == audio[offset..offset + frameSamples];
        assert rest[frameSamples..] == audio[offset + frameSamples..];
        FeedStep(View(), rest, frameSamples, engine, adapter.align);
        var more := RunStep(audio[offset..offset + frameSamples], frameSamples, false);
        offset := offset + frameSamples;
        ghost var later := FeedAll(View(), audio[offset..], frameSamples, engine, adapter.align).1;
        assert events + (more + later) == (events + more) + later;
        events := events + more;
      }
      FeedStep(View(), audio[offset..], frameSamples, engine, adapter.align);
      residue := audio[offset..];
      assert events + [] == events;
    }

    method Flush() returns (events: seq<Event>)
      requires Valid()
      modifies this, adapter
      ensures Valid()
      ensures (View(), events) == AfterClose(old(View()), frameSamples, engine, adapter.align)
    {
      hide Run, AfterFlush;
      if finished {
        return [];
      }
      finished := true;
      var remainder := residue;
      residue := [];
      var frame := remainder + Silence(frameSamples - |remainder|);
      events := RunStep(frame, |remainder|, true);
      var more := adapter.ForceFinal(Some(Seconds(samplesConsumed)));
      events := events + more;
    }
  }

  // ----- Any splitting of the audio gives the same frames and the same events -----

  // One turn of the cut.
  lemma FeedStep(s: SessionState, audio: seq<Sample>, frameSamples: nat, engine: Engine, align: Aligner)
    requires frameSamples > 0 && s.Sound() && Aligns(align)
    ensures if |audio| < frameSamples then FeedAll(s, audio, frameSamples, engine, align) == (s.(residue := audio), [])
      else
        var (s1, es1) := FeedFrame(s, audio[..frameSamples], frameSamples, false, engine, align);
        var (s2, es2) := FeedAll(s1, audio[frameSamples..], frameSamples, engine, align);
        s1.residue == s.residue && FeedAll(s, audio, frameSamples, engine, align) == (s2, es1 + es2)
  {
    hide Run;
  }

  lemma PushIsFeed(s: SessionState, audio: seq<Sample>, frameSamples: nat, engine: Engine, align: Aligner)
    requires s.Valid(frameSamples) && Aligns(align)
    ensures s.(residue := []).Sound() && frameSamples > 0
    ensures AfterPush(s, audio, frameSamples, engine, align)
      == FeedAll(s.(residue := []), s.residue + audio, frameSamples, engine, align)
  {
    hide FeedAll;
  }

  lemma {:induction false} FeedInParts(s: SessionState, first: seq<Sample>, second: seq<Sample>, frameSamples: nat,
                                       engine: Engine, align: Aligner)
    requires frameSamples > 0 && s.Sound() && Aligns(align) && s.residue == []
    ensures var (s1, es1) := FeedAll(s, first, frameSamples, engine, align);
      var (s2, es2) := AfterPush(s1, second, frameSamples, engine, align);
      FeedAll(s, first + second, frameSamples, engine, align) == (s2, es1 + es2)
    decreases |first|
  {
    hide *;
    FeedStep(s, first, frameSamples, engine, align);
    var (s1, es1) := FeedAll(s, first, frameSamples, engine, align);
    PushIsFeed(s1, second, frameSamples, engine, align);
    if |first| < frameSamples {
      assert s1.(residue := []) == s;
      var es := FeedAll(s, first + second, frameSamples, engine, align).1;
      assert [] + es == es;
    } else {
      FeedStep(s, first + second, frameSamples, engine, align);
      assert (first + second)[..frameSamples] == first[..frameSamples];
      assert (first + second)[frameSamples..] == first[frameSamples..] + second;
      var (t, es) := FeedFrame(s, first[..frameSamples], frameSamples, false, engine, align);
      FeedInParts(t, first[frameSamples..], second, frameSamples, engine, align);
      var (t1, es1) := FeedAll(t, first[frameSamples..], frameSamples, engine, align);
      var es2 := AfterPush(t1, second, frameSamples, engine, align).1;
      assert es + (es1 + es2) == (es + es1) + es2;
    }
  }

  ghost function PushEach(s: SessionState, chunks: seq<seq<Sample>>, frameSamples: nat, engine: Engine, align: Aligner):
    (r: (SessionState, seq<Event>))
    requires s.Valid(frameSamples) && Aligns(align)
    ensures r.0.Valid(frameSamples)
    decreases |chunks|
  {
    if chunks == [] then (s, [])
    else
      var (s1, es1) := AfterPush(s, chunks[0], frameSamples, engine, align);
      var (s2, es2) := PushEach(s1, chunks[1..], frameSamples, engine, align);
      (s2, es1 + es2)
  }

  /** Pushing the audio piece by piece does what one push of the whole does. */
  lemma {:induction false} SplittingDoesNotMatter(s: SessionState, chunks: seq<seq<Sample>>, frameSamples: nat,
                                                  engine: Engine, align: Aligner)
    requires s.Valid(frameSamples) && Aligns(align)
    ensures PushEach(s, chunks, frameSamples, engine, align)
      == AfterPush(s, Flatten(chunks), frameSamples, engine, align)
    decreases |chunks|
  {
    hide *;
    PushEachStep(s, chunks, frameSamples, engine, align);
    if chunks == [] {
      PushNothing(s, frameSamples, engine, align);
    } else {
      var s1 := AfterPush(s, chunks[0], frameSamples, engine, align).0;
      SplittingDoesNotMatter(s1, chunks[1..], frameSamples, engine, align);
      PushInTurn(s, chunks[0], Flatten(chunks[1..]), frameSamples, engine, align);
    }
  }

  lemma PushEachStep(s: SessionState, chunks: seq<seq<Sample>>, frameSamples: nat, engine: Engine, align: Aligner)
    requires s.Valid(frameSamples) && Aligns(align)
    ensures chunks == [] ==> PushEach(s, chunks, frameSamples, engine, align) == (s, []) && Flatten(chunks) == []
    ensures chunks != [] ==>
      var (s1, es1) := AfterPush(s, chunks[0], frameSamples, engine, align);
      var (s2, es2) := PushEach(s1, chunks[1..], frameSamples, engine, align);
      && PushEach(s, chunks, frameSamples, engine, align) == (s2, es1 + es2)
      && Flatten(chunks) == chunks[0] + Flatten(chunks[1..])
  {
    hide AfterPush;
  }

  lemma PushNothing(s: SessionState, frameSamples: nat, engine: Engine, align: Aligner)
    requires s.Valid(frameSamples) && Aligns(align)
    ensures AfterPush(s, [], frameSamples, engine, align) == (s, [])
  {
    assert s.residue + [] == s.residue;
  }

  lemma PushInTurn(s: SessionState, first: seq<Sample>, second: seq<Sample>, frameSamples: nat, engine: Engine, align: Aligner)
    requires s.Valid(frameSamples) && Aligns(align)
    ensures var (s1, es1) := AfterPush(s, first, frameSamples, engine, align);
      var (s2, es2) := AfterPush(s1, second, frameSamples, engine, align);
      AfterPush(s, first + second, frameSamples, engine, align) == (s2, es1 + es2)
  {
    hide *;
    PushIsFeed(s, first, frameSamples, engine, align);
    PushIsFeed(s, first + second, frameSamples, engine, align);
    FeedInParts(s.(residue := []), s.residue + first, second, frameSamples, engine, align);
    assert s.residue + first + second == s.residue + (first + second);
  }

  // ----- What the engine is given -----

  // A whole session: pushes, then the flush.
  ghost function WholeSession(chunks: seq<seq<Sample>>, frameSamples: nat, engine: Engine, align: Aligner):
    (SessionState, seq<Event>)
    requires frameSamples > 0 && Aligns(align)
  {
    var (s1, es1) := PushEach(NewSession, chunks, frameSamples, engine, align);
    var (s2, es2) := AfterClose(s1, frameSamples, engine, align);
    (s2, es1 + es2)
  }

  /** The fixed-size cut of the audio: whole frames, then one zero-padded last frame, possibly of silence only. */
  ghost predicate IsCut(log: seq<Frame>, audio: seq<Sample>, frameSamples: nat)
    requires frameSamples > 0
  {
    var whole := |audio| / frameSamples;
    var rest := |audio| % frameSamples;
    && |log| == whole + 1
    && (forall k | 0 <= k < |log| ::
          (log[k].isFirst <==> k == 0) && (log[k].isLast <==> k == whole) && |log[k].samples| == frameSamples)
    && (forall k | 0 <= k < whole ::
          log[k].validLength == frameSamples
          && forall i | 0 <= i < frameSamples ::
               0 <= k * frameSamples + i < |audio| && log[k].samples[i] == audio[k * frameSamples + i])
    && log[whole].validLength == rest
    && log[whole].samples == audio[|audio| - rest..] + Silence(frameSamples - rest)
  }

  // The whole frames of the audio, in order.
  ghost function WholeFrames(audio: seq<Sample>, frameSamples: nat, first: bool): seq<Frame>
    requires frameSamples > 0
    decreases |audio|
  {
    if |audio| < frameSamples then []
    else
      [Frame(audio[..frameSamples], first, false, frameSamples)]
      + WholeFrames(audio[frameSamples..], frameSamples, false)
  }

  lemma {:induction false} FeedAllLog(s: SessionState, audio: seq<Sample>, frameSamples: nat, engine: Engine, align: Aligner)
    requires frameSamples > 0 && s.Sound() && Aligns(align)
    ensures var s' := FeedAll(s, audio, frameSamples, engine, align).0; var kept := |s'.residue|;
      && s'.log == s.log + WholeFrames(audio, frameSamples, s.firstFrame)
      && kept <= |audio| && s'.residue == audio[|audio| - kept..]
      && s'.finished == s.finished
      && s'.samplesConsumed == s.samplesConsumed + (|audio| - kept)
    decreases |audio|
  {
    hide FeedFrame;
    if |audio| >= frameSamples {
      var first, rest := audio[..frameSamples], audio[frameSamples..];
      FeedOneLog(s, first, frameSamples, engine, align);
      FeedAllLog(FeedFrame(s, first, frameSamples, false, engine, align).0, rest, frameSamples, engine, align);
    }
  }

  lemma {:induction false} ResidueLength(s: SessionState, audio: seq<Sample>, frameSamples: nat, engine: Engine, align: Aligner)
    requires frameSamples > 0 && s.Sound() && Aligns(align)
    ensures |FeedAll(s, audio, frameSamples, engine, align).0.residue| == |audio| % frameSamples
    decreases |audio|
  {
    if |audio| < frameSamples {
      DivIsUnique(|audio|, frameSamples, 0, |audio|);
    } else {
      DivStep(|audio|, frameSamples);
      var s1 := FeedFrame(s, audio[..frameSamples], frameSamples, false, engine, align).0;
      hide FeedFrame;
      ResidueLength(s1, audio[frameSamples..], frameSamples, engine, align);
    }
  }

  lemma FeedOneLog(s: SessionState, samples: seq<Sample>, frameSamples: nat, engine: Engine, align: Aligner)
    requires s.Sound() && Aligns(align)
    ensures var s' := FeedFrame(s, samples, frameSamples, false, engine, align).0;
      && s'.log == s.log + [Frame(samples, s.firstFrame, false, frameSamples)]
      && s'.firstFrame == false && s'.finished == s.finished
      && s'.samplesConsumed == s.samplesConsumed + frameSamples
  {
    hide Run;
  }

  lemma {:induction false} WholeFramesAt(audio: seq<Sample>, frameSamples: nat, first: bool, k: nat)
    requires frameSamples > 0
    ensures |WholeFrames(audio, frameSamples, first)| == |audio| / frameSamples
    ensures k < |audio| / frameSamples ==>
      && 0 <= k * frameSamples <= |audio| - frameSamples
      && WholeFrames(audio, frameSamples, first)[k]
           == Frame(audio[k * frameSamples..k * frameSamples + frameSamples], first && k == 0, false, frameSamples)
    decreases |audio|
  {
    if |audio| >= frameSamples {
      DivStep(|audio|, frameSamples);
      if k > 0 {
        WholeFramesAt(audio[frameSamples..], frameSamples, false, k - 1);
        assert k * frameSamples == (k - 1) * frameSamples + frameSamples;
      } else {
        WholeFramesAt(audio[frameSamples..], frameSamples, false, 0);
        assert k * frameSamples == 0;
      }
    }
  }

  lemma CutFrames(log: seq<Frame>, audio: seq<Sample>, frameSamples: nat)
    requires frameSamples > 0
    requires var rest := |audio| % frameSamples;
      log == WholeFrames(audio, frameSamples, true)
        + [Frame(audio[|audio| - rest..] + Silence(frameSamples - rest), |audio| < frameSamples, true, rest)]
    ensures IsCut(log, audio, frameSamples)
  {
    var whole := |audio| / frameSamples;
    WholeFramesAt(audio, frameSamples, true, 0);
    forall k | 0 <= k < whole
      ensures 0 <= k * frameSamples <= |audio| - frameSamples
      ensures log[k] == Frame(audio[k * frameSamples..k * frameSamples + frameSamples], k == 0, false, frameSamples)
    {
      WholeFramesAt(audio, frameSamples, true, k);
    }
    if |audio| < frameSamples {
      DivIsUnique(|audio|, frameSamples, 0, |audio|);
    } else {
      DivStep(|audio|, frameSamples);
    }
  }

  lemma FirstOfWhole(audio: seq<Sample>, frameSamples: nat)
    requires frameSamples > 0
    ensures WholeFrames(audio, frameSamples, true) == [] <==> |audio| < frameSamples
  {
  }

  // The session behind the first flush.
  ghost function Closed(audio: seq<Sample>, frameSamples: nat, engine: Engine, align: Aligner): (r: (SessionState, seq<Event>))
    requires frameSamples > 0 && Aligns(align)
    ensures r.0.Valid(frameSamples)
  {
    var (s1, es1) := AfterPush(NewSession, audio, frameSamples, engine, align);
    var (s2, es2) := AfterClose(s1, frameSamples, engine, align);
    (s2, es1 + es2)
  }

  lemma PushFromNew(audio: seq<Sample>, frameSamples: nat, engine: Engine, align: Aligner)
    requires frameSamples > 0 && Aligns(align)
    ensures NewSession.Valid(frameSamples)
    ensures AfterPush(NewSession, audio, frameSamples, engine, align) == FeedAll(NewSession, audio, frameSamples, engine, align)
  {
    hide FeedAll;
    assert [] + audio == audio && NewSession.(residue := []) == NewSession;
  }

  lemma CloseAddsLast(s: SessionState, frameSamples: nat, engine: Engine, align: Aligner)
    requires s.Valid(frameSamples) && !s.finished && Aligns(align)
    ensures var s' := AfterClose(s, frameSamples, engine, align).0; var n := |s.residue|;
      && s'.log == s.log + [Frame(s.residue + Silence(frameSamples - n), s.firstFrame, true, n)]
      && s'.samplesConsumed == s.samplesConsumed + n && s'.finished && s'.residue == [] && !s'.firstFrame
  {
    hide Run, AfterFlush;
  }

  lemma ClosedLog(audio: seq<Sample>, frameSamples: nat, engine: Engine, align: Aligner)
    requires frameSamples > 0 && Aligns(align)
    ensures var s := Closed(audio, frameSamples, engine, align).0;
      && IsCut(s.log, audio, frameSamples) && s.samplesConsumed == |audio|
      && s.finished && s.residue == [] && !s.firstFrame
  {
    hide Run, AfterFlush, FeedAll, AfterPush, AfterClose, IsCut, Silence;
    PushFromNew(audio, frameSamples, engine, align);
    FeedAllLog(NewSession, audio, frameSamples, engine, align);
    ResidueLength(NewSession, audio, frameSamples, engine, align);
    FirstOfWhole(audio, frameSamples);
    var s1 := FeedAll(NewSession, audio, frameSamples, engine, align).0;
    CloseAddsLast(s1, frameSamples, engine, align);
    assert NewSession.log + WholeFrames(audio, frameSamples, true) == WholeFrames(audio, frameSamples, true);
    CutFrames(Closed(audio, frameSamples, engine, align).0.log, audio, frameSamples);
  }

  lemma WholeIsClosed(chunks: seq<seq<Sample>>, frameSamples: nat, engine: Engine, align: Aligner)
    requires frameSamples > 0 && Aligns(align)
    ensures WholeSession(chunks, frameSamples, engine, align) == Closed(Flatten(chunks), frameSamples, engine, align)
  {
    hide AfterPush, AfterClose, PushEach, Flatten;
    SplittingDoesNotMatter(NewSession, chunks, frameSamples, engine, align);
  }

  /** However the audio was split, the engine is given the fixed-size cut of the whole, and all samples are counted. */
  lemma EngineSeesTheCut(chunks: seq<seq<Sample>>, frameSamples: nat, engine: Engine, align: Aligner)
    requires frameSamples > 0 && Aligns(align)
    ensures var (s, es) := WholeSession(chunks, frameSamples, engine, align);
      && IsCut(s.log, Flatten(chunks), frameSamples)
      && s.samplesConsumed == |Flatten(chunks)|
  {
    hide *;
    WholeIsClosed(chunks, frameSamples, engine, align);
    ClosedLog(Flatten(chunks), frameSamples, engine, align);
  }

  /** Two ways of splitting the same audio give the same frames and the same events. */
  lemma SameAudioSameEvents(chunks: seq<seq<Sample>>, chunks': seq<seq<Sample>>, frameSamples: nat,
                            engine: Engine, align: Aligner)
    requires frameSamples > 0 && Aligns(align) && Flatten(chunks) == Flatten(chunks')
    ensures WholeSession(chunks, frameSamples, engine, align) == WholeSession(chunks', frameSamples, engine, align)
  {
    SplittingDoesNotMatter(NewSession, chunks, frameSamples, engine, align);
    SplittingDoesNotMatter(NewSession, chunks', frameSamples, engine, align);
  }

  // ----- Any calls in any order -----

  datatype Call = Push(audio: seq<Sample>) | Close

  ghost function AfterCall(s: SessionState, call: Call, frameSamples: nat, engine: Engine, align: Aligner):
    (r: (SessionState, seq<Event>))
    requires s.Valid(frameSamples) && Aligns(align)
    ensures r.0.Valid(frameSamples)
  {
    match call
    case Push(audio) => AfterPush(s, audio, frameSamples, engine, align)
    case Close => AfterClose(s, frameSamples, engine, align)
  }

  ghost function CallEach(s: SessionState, calls: seq<Call>, frameSamples: nat, engine: Engine, align: Aligner):
    (r: (SessionState, seq<Event>))
    requires s.Valid(frameSamples) && Aligns(align)
    ensures r.0.Valid(frameSamples)
    decreases |calls|
  {
    if calls == [] then (s, [])
    else
      var (s1, es1) := AfterCall(s, calls[0], frameSamples, engine, align);
      var (s2, es2) := CallEach(s1, calls[1..], frameSamples, engine, align);
      (s2, es1 + es2)
  }

  predicate Closes(calls: seq<Call>) {
    calls != [] && (calls[0].Close? || Closes(calls[1..]))
  }

  function AllAudio(calls: seq<Call>): seq<Sample> {
    if calls == [] then [] else (if calls[0].Push? then calls[0].audio else []) + AllAudio(calls[1..])
  }

  // The audio pushed before the first flush, and that pushed after it.
  function AudioBefore(calls: seq<Call>): seq<Sample> {
    if calls == [] || calls[0].Close? then [] else calls[0].audio + AudioBefore(calls[1..])
  }

  function AudioAfter(calls: seq<Call>): seq<Sample> {
    if calls == [] then [] else if calls[0].Close? then AllAudio(calls[1..]) else AudioAfter(calls[1..])
  }

  lemma PushKeepsFinished(s: SessionState, audio: seq<Sample>, frameSamples: nat, engine: Engine, align: Aligner)
    requires s.Valid(frameSamples) && Aligns(align)
    ensures AfterPush(s, audio, frameSamples, engine, align).0.finished == s.finished
  {
    hide FeedAll;
    FeedAllLog(s.(residue := []), s.residue + audio, frameSamples, engine, align);
  }

  // Further flushes do nothing, so calls on a closed session are one push of their audio.
  lemma {:induction false} LateCalls(s: SessionState, calls: seq<Call>, frameSamples: nat, engine: Engine, align: Aligner)
    requires s.Valid(frameSamples) && s.finished && Aligns(align)
    ensures CallEach(s, calls, frameSamples, engine, align) == AfterPush(s, AllAudio(calls), frameSamples, engine, align)
    decreases |calls|
  {
    hide AfterPush;
    if calls == [] {
      PushNothing(s, frameSamples, engine, align);
    } else {
      var audio := if calls[0].Push? then calls[0].audio else [];
      PushNothing(s, frameSamples, engine, align);
      PushKeepsFinished(s, audio, frameSamples, engine, align);
      PushInTurn(s, audio, AllAudio(calls[1..]), frameSamples, engine, align);
      LateCalls(AfterPush(s, audio, frameSamples, engine, align).0, calls[1..], frameSamples, engine, align);
    }
  }

  // Any calls: what was pushed before the first flush, that flush if there is one, and what was pushed after it.
  ghost function InPhases(s: SessionState, calls: seq<Call>, frameSamples: nat, engine: Engine, align: Aligner):
    (SessionState, seq<Event>)
    requires s.Valid(frameSamples) && Aligns(align)
  {
    var (s1, es1) := AfterPush(s, AudioBefore(calls), frameSamples, engine, align);
    if !Closes(calls) then (s1, es1)
    else
      var (s2, es2) := AfterClose(s1, frameSamples, engine, align);
      var (s3, es3) := AfterPush(s2, AudioAfter(calls), frameSamples, engine, align);
      (s3, es1 + es2 + es3)
  }

  lemma {:induction false} CallsInPhases(s: SessionState, calls: seq<Call>, frameSamples: nat, engine: Engine, align: Aligner)
    requires s.Valid(frameSamples) && !s.finished && Aligns(align)
    ensures CallEach(s, calls, frameSamples, engine, align) == InPhases(s, calls, frameSamples, engine, align)
    decreases |calls|
  {
    hide AfterPush, AfterClose;
    PushNothing(s, frameSamples, engine, align);
    if calls != [] {
      var rest := calls[1..];
      if calls[0].Close? {
        CloseAddsLast(s, frameSamples, engine, align);
        var (s2, es2) := AfterClose(s, frameSamples, engine, align);
        LateCalls(s2, rest, frameSamples, engine, align);
        assert [] + es2 == es2;
      } else {
        var audio := calls[0].audio;
        var (s1, es1) := AfterPush(s, audio, frameSamples, engine, align);
        PushKeepsFinished(s, audio, frameSamples, engine, align);
        CallsInPhases(s1, rest, frameSamples, engine, align);
        PushInTurn(s, audio, AudioBefore(rest), frameSamples, engine, align);
        if Closes(rest) {
          var (t1, fs1) := AfterPush(s1, AudioBefore(rest), frameSamples, engine, align);
          var (t2, fs2) := AfterClose(t1, frameSamples, engine, align);
          var fs3 := AfterPush(t2, AudioAfter(rest), frameSamples, engine, align).1;
          assert es1 + (fs1 + fs2 + fs3) == (es1 + fs1) + fs2 + fs3;
        }
      }
    }
  }

  lemma {:induction false} WholeFramesAreNotLast(audio: seq<Sample>, frameSamples: nat, first: bool)
    requires frameSamples > 0
    ensures forall k | 0 <= k < |WholeFrames(audio, frameSamples, first)| :: !WholeFrames(audio, frameSamples, first)[k].isLast
    ensures WholeFrames(audio, frameSamples, first) == [] <==> |audio| < frameSamples
    decreases |audio|
  {
    if |audio| >= frameSamples {
      WholeFramesAreNotLast(audio[frameSamples..], frameSamples, false);
    }
  }

  lemma LateLog(s: SessionState, audio: seq<Sample>, frameSamples: nat, engine: Engine, align: Aligner)
    requires s.Valid(frameSamples) && s.residue == [] && !s.firstFrame && Aligns(align)
    ensures AfterPush(s, audio, frameSamples, engine, align).0.log == s.log + WholeFrames(audio, frameSamples, false)
  {
    hide FeedAll;
    FeedAllLog(s.(residue := []), audio, frameSamples, engine, align);
    assert [] + audio == audio;
  }

  /** After any pushes and flushes the engine has been given the cut of the audio before the first flush, and then all
      whole frames of the audio after it. */
  lemma LogOfCalls(calls: seq<Call>, frameSamples: nat, engine: Engine, align: Aligner) returns (cut: seq<Frame>)
    requires frameSamples > 0 && Aligns(align)
    ensures var log := CallEach(NewSession, calls, frameSamples, engine, align).0.log;
      if Closes(calls) then
        IsCut(cut, AudioBefore(calls), frameSamples) && log == cut + WholeFrames(AudioAfter(calls), frameSamples, false)
      else log == WholeFrames(AudioBefore(calls), frameSamples, true)
  {
    hide *;
    var before, after := AudioBefore(calls), AudioAfter(calls);
    NewSessionIsValid(frameSamples);
    CallsInPhases(NewSession, calls, frameSamples, engine, align);
    PhasesFromNew(calls, frameSamples, engine, align);
    if Closes(calls) {
      var s2 := Closed(before, frameSamples, engine, align).0;
      ClosedLog(before, frameSamples, engine, align);
      LateLog(s2, after, frameSamples, engine, align);
      cut := s2.log;
    } else {
      PushFromNew(before, frameSamples, engine, align);
      FeedAllLog(NewSession, before, frameSamples, engine, align);
      assert [] + WholeFrames(before, frameSamples, true) == WholeFrames(before, frameSamples, true);
      cut := [];
    }
  }

  lemma NewSessionIsValid(frameSamples: nat)
    requires frameSamples > 0
    ensures NewSession.Valid(frameSamples) && !NewSession.finished && NewSession.log == [] && NewSession.firstFrame
    ensures NewSession.adapter.Valid()
  {
  }

  lemma PhasesFromNew(calls: seq<Call>, frameSamples: nat, engine: Engine, align: Aligner)
    requires frameSamples > 0 && Aligns(align)
    ensures var s' := InPhases(NewSession, calls, frameSamples, engine, align).0;
      s' == if Closes(calls)
            then AfterPush(Closed(AudioBefore(calls), frameSamples, engine, align).0, AudioAfter(calls), frameSamples, engine, align).0
            else AfterPush(NewSession, AudioBefore(calls), frameSamples, engine, align).0
  {
    hide AfterPush, AfterClose;
  }

  ghost predicate LastIsLast(log: seq<Frame>) {
    forall i | 0 <= i < |log| - 1 :: !log[i].isLast
  }

  /** No frame follows the last one exactly when the audio pushed after the first flush makes up no whole frame: pushes
      are not refused then. */
  lemma LastIsLastIff(calls: seq<Call>, frameSamples: nat, engine: Engine, align: Aligner)
    requires frameSamples > 0 && Aligns(align)
    ensures LastIsLast(CallEach(NewSession, calls, frameSamples, engine, align).0.log) <==> |AudioAfter(calls)| < frameSamples
  {
    hide CallEach, WholeFrames;
    var after := AudioAfter(calls);
    var cut := LogOfCalls(calls, frameSamples, engine, align);
    WholeFramesAreNotLast(AudioBefore(calls), frameSamples, true);
    WholeFramesAreNotLast(after, frameSamples, false);
    if Closes(calls) {
      BehindTheCut(cut, WholeFrames(after, frameSamples, false), AudioBefore(calls), frameSamples);
    } else {
      NothingAfter(calls);
    }
  }

  lemma CutFlags(log: seq<Frame>, audio: seq<Sample>, frameSamples: nat)
    requires frameSamples > 0 && IsCut(log, audio, frameSamples)
    ensures |log| == |audio| / frameSamples + 1 && forall k | 0 <= k < |log| :: log[k].isLast <==> k == |log| - 1
  {
  }

  lemma BehindTheCut(cut: seq<Frame>, late: seq<Frame>, before: seq<Sample>, frameSamples: nat)
    requires frameSamples > 0 && IsCut(cut, before, frameSamples) && forall k | 0 <= k < |late| :: !late[k].isLast
    ensures LastIsLast(cut + late) <==> late == []
  {
    CutFlags(cut, before, frameSamples);
    hide IsCut;
    assert (cut + late)[|cut| - 1].isLast;
  }

  lemma {:induction false} NothingAfter(calls: seq<Call>)
    requires !Closes(calls)
    ensures AudioAfter(calls) == []
  {
    if calls != [] {
      NothingAfter(calls[1..]);
    }
  }

  // A whole frame of audio pushed after the flush does reach the engine behind the last frame.
  lemma PushAfterFlushFollowsLast(audio: seq<Sample>, frameSamples: nat, engine: Engine, align: Aligner)
    requires 0 < frameSamples <= |audio| && Aligns(align)
    ensures !LastIsLast(CallEach(NewSession, [Close, Push(audio)], frameSamples, engine, align).0.log)
  {
    var calls := [Close, Push(audio)];
    assert calls[1..] == [Push(audio)] && [Push(audio)][1..] == [] && audio + [] == audio;
    hide CallEach;
    LastIsLastIff(calls, frameSamples, engine, align);
  }

  // ----- From audio to captions -----

  // What the engine said from frame k on.
  ghost function SpokenSince(log: seq<Frame>, k: nat, engine: Engine): seq<Step> {
    if |log| <= k then []
    else SpokenSince(log[..|log| - 1], k, engine) + ToSteps(log, engine)
  }

  lemma {:induction false} RunInParts(s: AdapterState, first: seq<Step>, second: seq<Step>, align: Aligner)
    requires s.Valid() && Aligns(align)
    ensures var (s1, es1) := Run(s, first, align);
      var (s2, es2) := Run(s1, second, align);
      Run(s, first + second, align) == (s2, es1 + es2)
    decreases |first|
  {
    hide AfterStep;
    if first == [] {
      assert first + second == second;
      var es := Run(s, second, align).1;
      assert [] + es == es;
    } else {
      assert (first + second)[0] == first[0] && (first + second)[1..] == first[1..] + second;
      var (t, es) := AfterStep(s, first[0], align);
      RunInParts(t, first[1..], second, align);
      var (t1, es1) := Run(t, first[1..], align);
      var (t2, es2) := Run(t1, second, align);
      assert es + (es1 + es2) == (es + es1) + es2;
    }
  }

  // The adapter got where it is from `base` on what the engine said from frame k on.
  ghost predicate Follows(base: AdapterState, k: nat, s: SessionState, events: seq<Event>, engine: Engine, align: Aligner)
    requires Aligns(align)
  {
    base.Valid() && k <= |s.log| && Run(base, SpokenSince(s.log, k, engine), align) == (s.adapter, events)
  }

  lemma FeedFrameFollows(base: AdapterState, k: nat, s: SessionState, events: seq<Event>, samples: seq<Sample>,
                         validLength: nat, isLast: bool, engine: Engine, align: Aligner)
    requires s.Sound() && Aligns(align) && Follows(base, k, s, events, engine, align)
    ensures var (s', es) := FeedFrame(s, samples, validLength, isLast, engine, align);
      Follows(base, k, s', events + es, engine, align)
  {
    hide AfterStep, Run;
    var log := s.log + [Frame(samples, s.firstFrame, isLast, validLength)];
    assert log[..|log| - 1] == s.log;
    RunInParts(base, SpokenSince(s.log, k, engine), ToSteps(log, engine), align);
  }

  lemma {:induction false} FeedAllFollows(base: AdapterState, k: nat, s: SessionState, events: seq<Event>, audio: seq<Sample>,
                                          frameSamples: nat, engine: Engine, align: Aligner)
    requires frameSamples > 0 && s.Sound() && Aligns(align) && Follows(base, k, s, events, engine, align)
    ensures var (s', es) := FeedAll(s, audio, frameSamples, engine, align);
      Follows(base, k, s', events + es, engine, align)
    decreases |audio|
  {
    hide Run, SpokenSince, Follows;
    if |audio| < frameSamples {
      assert events + [] == events;
      ResidueFollows(base, k, s, audio, events, engine, align);
    } else {
      FeedFrameFollows(base, k, s, events, audio[..frameSamples], frameSamples, false, engine, align);
      var (s1, es1) := FeedFrame(s, audio[..frameSamples], frameSamples, false, engine, align);
      FeedAllFollows(base, k, s1, events + es1, audio[frameSamples..], frameSamples, engine, align);
      var es2 := FeedAll(s1, audio[frameSamples..], frameSamples, engine, align).1;
      assert events + (es1 + es2) == (events + es1) + es2;
    }
  }

  lemma ResidueFollows(base: AdapterState, k: nat, s: SessionState, residue: seq<Sample>, events: seq<Event>,
                       engine: Engine, align: Aligner)
    requires Aligns(align) && Follows(base, k, s, events, engine, align)
    ensures Follows(base, k, s.(residue := residue), events, engine, align)
    ensures Follows(base, k, s.(residue := residue, finished := true), events, engine, align)
  {
    hide Run, SpokenSince;
  }

  lemma NothingSpoken(s: SessionState, engine: Engine, align: Aligner)
    requires s.adapter.Valid() && Aligns(align)
    ensures Follows(s.adapter, |s.log|, s, [], engine, align)
  {
  }

  // A push follows from where it starts.
  lemma PushFollows(s: SessionState, audio: seq<Sample>, frameSamples: nat, engine: Engine, align: Aligner)
    requires s.Valid(frameSamples) && Aligns(align)
    ensures var (s', es) := AfterPush(s, audio, frameSamples, engine, align);
      Follows(s.adapter, |s.log|, s', es, engine, align)
  {
    hide FeedAll, Follows;
    NothingSpoken(s, engine, align);
    ResidueFollows(s.adapter, |s.log|, s, [], [], engine, align);
    FeedAllFollows(s.adapter, |s.log|, s.(residue := []), [], s.residue + audio, frameSamples, engine, align);
    var es := FeedAll(s.(residue := []), s.residue + audio, frameSamples, engine, align).1;
    assert [] + es == es;
  }

  // The flush ends the adapter's session too.
  lemma CloseFollows(s: SessionState, events: seq<Event>, frameSamples: nat, engine: Engine, align: Aligner)
    requires s.Valid(frameSamples) && !s.finished && Aligns(align) && Follows(NewAdapter, 0, s, events, engine, align)
    ensures var (s', es) := AfterClose(s, frameSamples, engine, align);
      && (s'.adapter, events + es) == Session(SpokenSince(s'.log, 0, engine), Some(Seconds(s'.samplesConsumed)), align)
      && s'.adapter.flushed && s'.adapter.Pending() == []
  {
    hide Run, AfterFlush, SpokenSince;
    var padded := s.residue + Silence(frameSamples - |s.residue|);
    var s1 := s.(residue := [], finished := true);
    ResidueFollows(NewAdapter, 0, s, [], events, engine, align);
    FeedFrameFollows(NewAdapter, 0, s1, events, padded, |s.residue|, true, engine, align);
    var (s2, es2) := FeedFrame(s1, padded, |s.residue|, true, engine, align);
    RunKeepsFlushed(NewAdapter, SpokenSince(s2.log, 0, engine), align);
    var now := Some(Seconds(s2.samplesConsumed));
    FlushShowsPending(s2.adapter, now);
    var es3 := AfterFlush(s2.adapter, now).1;
    assert events + (es2 + es3) == (events + es2) + es3;
  }

  lemma ClosedFollows(audio: seq<Sample>, frameSamples: nat, engine: Engine, align: Aligner)
    requires frameSamples > 0 && Aligns(align)
    ensures var (s, events) := Closed(audio, frameSamples, engine, align);
      && (s.adapter, events) == Session(SpokenSince(s.log, 0, engine), Some(Seconds(s.samplesConsumed)), align)
      && s.adapter.flushed && s.adapter.Pending() == []
  {
    hide AfterPush, AfterClose, Session, SpokenSince, Follows;
    var (s1, es1) := AfterPush(NewSession, audio, frameSamples, engine, align);
    PushFollows(NewSession, audio, frameSamples, engine, align);
    PushKeepsFinished(NewSession, audio, frameSamples, engine, align);
    CloseFollows(s1, es1, frameSamples, engine, align);
  }

  /** End to end: the captions of a session are those of the adapter on everything the engine said, so if that leaves
      displayed words alone, the finished lines carry every spoken word once and in order. */
  lemma SessionCaptions(chunks: seq<seq<Sample>>, frameSamples: nat, engine: Engine, align: Aligner)
    requires frameSamples > 0 && Aligns(align)
    ensures var (s, events) := WholeSession(chunks, frameSamples, engine, align);
      var steps := SpokenSince(s.log, 0, engine);
      && (s.adapter, events) == Session(steps, Some(Seconds(s.samplesConsumed)), align)
      && (RunKeeps(NewAdapter, steps, align) ==> FinalWords(events) == SpokenWords([], steps))
  {
    hide *;
    var audio := Flatten(chunks);
    WholeIsClosed(chunks, frameSamples, engine, align);
    ClosedFollows(audio, frameSamples, engine, align);
    NewAdapterIsValid();
    var steps := SpokenSince(WholeSession(chunks, frameSamples, engine, align).0.log, 0, engine);
    if RunKeeps(NewAdapter, steps, align) {
      SessionShowsEveryWordOnce(steps, Some(Seconds(WholeSession(chunks, frameSamples, engine, align).0.samplesConsumed)), align);
    }
  }

  lemma NewAdapterIsValid()
    ensures NewAdapter.Valid()
  {
  }

  // ----- The sample clock -----

  // The audio given when frame k has been given, and the engine's segments for it.
  ghost predicate EndsOnFrame(e: Event, log: seq<Frame>, k: nat, engine: Engine) {
    && 0 < k <= |log|
    && (if e.fromSegments then exists i :: 0 <= i < |engine(log[..k])| && engine(log[..k])[i].segmentEnd == Some(e.endSec)
        else e.endSec * 16000.0 == Consumed(log[..k]) as real)
    && (e.reason == ModelEou ==> !log[k - 1].isLast) && (e.reason == SessionEndFinal ==> log[k - 1].isLast)
  }

  // What the engine said is of some frame.
  lemma {:induction false} SaidOnFrame(log: seq<Frame>, engine: Engine, i: nat) returns (k: nat, j: nat)
    requires i < |SpokenSince(log, 0, engine)|
    ensures 0 < k <= |log| && j < |ToSteps(log[..k], engine)|
    ensures SpokenSince(log, 0, engine)[i] == ToSteps(log[..k], engine)[j]
    decreases |log|
  {
    hide ToSteps;
    var front := log[..|log| - 1];
    if i < |SpokenSince(front, 0, engine)| {
      k, j := SaidOnFrame(front, engine, i);
      assert front[..k] == log[..k];
    } else {
      k, j := |log|, i - |SpokenSince(front, 0, engine)|;
      assert log[..|log|] == log;
    }
  }

  lemma StepOfFrame(e: Event, log: seq<Frame>, k: nat, j: nat, engine: Engine)
    requires 0 < k <= |log| && j < |ToSteps(log[..k], engine)| && FromStep(e, ToSteps(log[..k], engine)[j])
    ensures EndsOnFrame(e, log, k, engine)
  {
    assert log[..k][k - 1] == log[k - 1];
  }

  lemma {:induction false} AllHaveClocks(log: seq<Frame>, engine: Engine)
    ensures forall i | 0 <= i < |SpokenSince(log, 0, engine)| :: SpokenSince(log, 0, engine)[i].times.audioEnd.Some?
    decreases |log|
  {
    if log != [] {
      AllHaveClocks(log[..|log| - 1], engine);
    }
  }

  lemma RunEndsOnFrames(log: seq<Frame>, engine: Engine, align: Aligner, i: nat) returns (k: nat)
    requires Aligns(align) && NewAdapter.Valid()
    requires i < |Run(NewAdapter, SpokenSince(log, 0, engine), align).1|
    ensures EndsOnFrame(Run(NewAdapter, SpokenSince(log, 0, engine), align).1[i], log, k, engine)
  {
    hide Run, SpokenSince, ToSteps, FromStep, EndsOnFrame, Consumed;
    var steps := SpokenSince(log, 0, engine);
    var e := Run(NewAdapter, steps, align).1[i];
    AllHaveClocks(log, engine);
    RunEvents(NewAdapter, steps, align);
    var j :| 0 <= j < |steps| && FromStep(e, steps[j]);
    var j';
    k, j' := SaidOnFrame(log, engine, j);
    StepOfFrame(e, log, k, j', engine);
  }

  lemma FlushEndsOnFrame(s: AdapterState, log: seq<Frame>, engine: Engine, i: nat)
    requires s.Valid() && !s.flushed && log != []
    requires i < |AfterFlush(s, Some(Seconds(Consumed(log)))).1|
    ensures EndsOnFrame(AfterFlush(s, Some(Seconds(Consumed(log)))).1[i], log, |log|, engine)
  {
    hide AfterFlush, LaidOut, Consumed, Join;
    var k, rest := FlushEvents(s, Some(Seconds(Consumed(log))));
    var es := AfterFlush(s, Some(Seconds(Consumed(log)))).1;
    assert log[..|log|] == log;
    if i < k {
      assert es[..k][i] == es[i];
    }
  }

  // Behind k frames of the cut, k times the frame size has been given, or all there is.
  lemma {:induction false} ConsumedOfCut(log: seq<Frame>, audio: seq<Sample>, frameSamples: nat, k: nat)
    requires frameSamples > 0 && IsCut(log, audio, frameSamples) && k <= |log|
    ensures Consumed(log[..k]) == Min(k * frameSamples, |audio|)
    ensures |log| == |audio| / frameSamples + 1
  {
    var whole := |audio| / frameSamples;
    WholeFits(|audio|, frameSamples, k);
    if k > 0 {
      ConsumedOfCut(log, audio, frameSamples, k - 1);
      WholeFits(|audio|, frameSamples, k - 1);
      assert log[..k][..k - 1] == log[..k - 1];
    }
  }

  lemma WholeFits(n: nat, d: nat, k: nat)
    requires d > 0 && k <= n / d + 1
    ensures if k <= n / d then k * d <= n else n - n % d == (k - 1) * d && n < k * d
    ensures k > 0 ==> k * d == (k - 1) * d + d
  {
    var whole := n / d;
    assert n == whole * d + n % d;
    assert (k - 1) * d == k * d - d;
    if k <= whole {
      Product(k, whole, d);
    }
  }

  // An event of the session of this audio.
  ghost predicate EndsInAudio(e: Event, audio: seq<Sample>, frameSamples: nat, k: nat)
    requires frameSamples > 0
  {
    var whole := |audio| / frameSamples;
    && 0 < k <= whole + 1
    && (!e.fromSegments ==> e.endSec * 16000.0 == Min(k * frameSamples, |audio|) as real)
    && (e.reason == ModelEou ==> k <= whole) && (e.reason == SessionEndFinal ==> k == whole + 1)
  }

  /** Every event that does not end with the engine's segments ends with the audio given when the engine had some frame:
      whole frames of it, at 16000 samples a second, or all. Only behind the last frame the session can end, only in
      front of it an utterance. */
  lemma EventsEndOnFrames(chunks: seq<seq<Sample>>, frameSamples: nat, engine: Engine, align: Aligner, i: nat) returns (k: nat)
    requires frameSamples > 0 && Aligns(align)
    requires i < |WholeSession(chunks, frameSamples, engine, align).1|
    ensures EndsInAudio(WholeSession(chunks, frameSamples, engine, align).1[i], Flatten(chunks), frameSamples, k)
  {
    hide *;
    var (s, events) := WholeSession(chunks, frameSamples, engine, align);
    var audio := Flatten(chunks);
    EngineSeesTheCut(chunks, frameSamples, engine, align);
    SessionCaptions(chunks, frameSamples, engine, align);
    AllConsumed(s.log, audio, frameSamples);
    k := SessionEndsOnFrame(s.log, engine, align, i);
    FrameOfCut(events[i], s.log, audio, frameSamples, k, engine);
  }

  lemma AllConsumed(log: seq<Frame>, audio: seq<Sample>, frameSamples: nat)
    requires frameSamples > 0 && IsCut(log, audio, frameSamples)
    ensures log != [] && Consumed(log) == |audio|
  {
    hide IsCut, Consumed;
    CutFlags(log, audio, frameSamples);
    ConsumedOfCut(log, audio, frameSamples, |log|);
    WholeFits(|audio|, frameSamples, |log|);
    assert log[..|log|] == log;
  }

  // The captions of a session, as run and flush.
  lemma SessionEndsOnFrame(log: seq<Frame>, engine: Engine, align: Aligner, i: nat) returns (k: nat)
    requires Aligns(align) && log != []
    requires i < |Session(SpokenSince(log, 0, engine), Some(Seconds(Consumed(log))), align).1|
    ensures EndsOnFrame(Session(SpokenSince(log, 0, engine), Some(Seconds(Consumed(log))), align).1[i], log, k, engine)
  {
    hide Run, AfterFlush, SpokenSince, EndsOnFrame, Consumed;
    var steps := SpokenSince(log, 0, engine);
    var (s1, es1) := Run(NewAdapter, steps, align);
    RunKeepsFlushed(NewAdapter, steps, align);
    if i < |es1| {
      k := RunEndsOnFrames(log, engine, align, i);
    } else {
      k := |log|;
      FlushEndsOnFrame(s1, log, engine, i - |es1|);
    }
  }

  lemma FrameOfCut(e: Event, log: seq<Frame>, audio: seq<Sample>, frameSamples: nat, k: nat, engine: Engine)
    requires frameSamples > 0 && IsCut(log, audio, frameSamples) && EndsOnFrame(e, log, k, engine)
    ensures EndsInAudio(e, audio, frameSamples, k)
  {
    hide IsCut, Consumed;
    CutFlags(log, audio, frameSamples);
    ConsumedOfCut(log, audio, frameSamples, k);
  }

  // An engine that reports no segments.
  ghost predicate NoSegments(engine: Engine) {
    forall log: seq<Frame> :: forall i | 0 <= i < |engine(log)| ::
      engine(log)[i].segmentStart == None && engine(log)[i].segmentEnd == None
  }

  lemma {:induction false} StepsOnClock(steps: seq<Step>, from: real, start: real, end: real)
    requires from <= end && 0.0 <= start <= end
    requires forall i | 0 <= i < |steps| :: steps[i].times == Times(Some(start), Some(end), None, None)
    ensures OnClock(steps, from) && EndClock(steps, from) <= end
    decreases |steps|
  {
    if steps != [] {
      StepsOnClock(steps[1..], end, start, end);
    }
  }

  lemma {:induction false} SpokenOnClock(log: seq<Frame>, engine: Engine)
    requires NoSegments(engine)
    ensures OnClock(SpokenSince(log, 0, engine), 0.0)
    ensures EndClock(SpokenSince(log, 0, engine), 0.0) <= Seconds(Consumed(log))
    decreases |log|
  {
    if log != [] {
      var front := log[..|log| - 1];
      SpokenOnClock(front, engine);
      var clock := EndClock(SpokenSince(front, 0, engine), 0.0);
      StepsOnClock(ToSteps(log, engine), clock, Seconds(Consumed(front)), Seconds(Consumed(log)));
      ClockInTurn(SpokenSince(front, 0, engine), ToSteps(log, engine), 0.0);
    }
  }

  /** Without segments every event of a session lies within its audio, starts at or before its end, and ends no sooner
      than the one in front. */
  lemma SessionSpans(chunks: seq<seq<Sample>>, frameSamples: nat, engine: Engine, align: Aligner)
    requires frameSamples > 0 && Aligns(align) && NoSegments(engine)
    ensures Spans(WholeSession(chunks, frameSamples, engine, align).1, 0.0, |Flatten(chunks)| as real / 16000.0)
  {
    hide *;
    var (s, events) := WholeSession(chunks, frameSamples, engine, align);
    EngineSeesTheCut(chunks, frameSamples, engine, align);
    SessionCaptions(chunks, frameSamples, engine, align);
    AllConsumed(s.log, Flatten(chunks), frameSamples);
    SpokenOnClock(s.log, engine);
    SecondsAre(|Flatten(chunks)|);
    RunAndFlushSpan(SpokenSince(s.log, 0, engine), Seconds(s.samplesConsumed), align);
  }

  lemma SecondsAre(n: nat)
    ensures Seconds(n) == n as real / 16000.0
  {
  }

  lemma RunAndFlushSpan(steps: seq<Step>, end: real, align: Aligner)
    requires Aligns(align) && OnClock(steps, 0.0) && EndClock(steps, 0.0) <= end
    ensures Spans(Session(steps, Some(end), align).1, 0.0, end)
  {
    hide Run, AfterFlush, OnClock, EndClock, Spans;
    var (s1, es1) := Run(NewAdapter, steps, align);
    RunSpans(NewAdapter, steps, align);
    FlushSpans(s1, end);
    var es2 := AfterFlush(s1, Some(end)).1;
    WiderSpans(es1, 0.0, s1.lastEnd, 0.0, end);
    SpansInTurn(es1, es2, 0.0, end, end);
  }

  // ----- Words said after the flush -----

  // Words the engine says after the flush reach finished lines only as far as lines fill up, sentences end or
  // utterances close: what is pending in the end stays pending, and no further flush helps.
  lemma LateWordsStayPending(audio: seq<Sample>, calls: seq<Call>, frameSamples: nat, engine: Engine, align: Aligner)
    requires frameSamples > 0 && Aligns(align)
    ensures var s := Closed(audio, frameSamples, engine, align).0;
      var (s', es) := CallEach(s, calls, frameSamples, engine, align);
      var late := SpokenSince(s'.log, |s.log|, engine);
      && AfterClose(s', frameSamples, engine, align) == (s', [])
      && (RunKeeps(s.adapter, late, align) ==>
            s.adapter.words + FinalWords(es) + s'.adapter.Pending() == SpokenWords(s.adapter.words, late))
  {
    hide CallEach, AfterPush, Closed, SpokenSince, SpokenWords, FinalWords, RunKeeps, Run;
    var s := Closed(audio, frameSamples, engine, align).0;
    ClosedLog(audio, frameSamples, engine, align);
    ClosedFollows(audio, frameSamples, engine, align);
    LateCalls(s, calls, frameSamples, engine, align);
    PushKeepsFinished(s, AllAudio(calls), frameSamples, engine, align);
    PushFollows(s, AllAudio(calls), frameSamples, engine, align);
    var (s', es) := CallEach(s, calls, frameSamples, engine, align);
    var late := SpokenSince(s'.log, |s.log|, engine);
    if RunKeeps(s.adapter, late, align) {
      RunConserves(s.adapter, late, align);
      AllDisplayed(s.adapter);
    }
  }

  lemma AllDisplayed(s: AdapterState)
    requires s.Valid() && s.Pending() == []
    ensures s.words[..s.promoted] == s.words
  {
  }

  // What the engine says up to the flush, and behind it.
  ghost function SpokenInTime(audio: seq<Sample>, frameSamples: nat, engine: Engine, align: Aligner): seq<Step>
    requires frameSamples > 0 && Aligns(align)
  {
    SpokenSince(Closed(audio, frameSamples, engine, align).0.log, 0, engine)
  }

  ghost function SpokenLate(audio: seq<Sample>, calls: seq<Call>, frameSamples: nat, engine: Engine, align: Aligner): seq<Step>
    requires frameSamples > 0 && Aligns(align)
  {
    var s := Closed(audio, frameSamples, engine, align).0;
    SpokenSince(CallEach(s, calls, frameSamples, engine, align).0.log, |s.log|, engine)
  }

  // The engine never rewrites a displayed word, before the flush or behind it.
  ghost predicate KeepsThroughout(audio: seq<Sample>, calls: seq<Call>, frameSamples: nat, engine: Engine, align: Aligner)
    requires frameSamples > 0 && Aligns(align)
  {
    && NewAdapter.Valid()
    && RunKeeps(NewAdapter, SpokenInTime(audio, frameSamples, engine, align), align)
    && RunKeeps(Closed(audio, frameSamples, engine, align).0.adapter,
                SpokenLate(audio, calls, frameSamples, engine, align), align)
  }

  // Behind the words shown at the flush, the finals carry all that is said.
  ghost predicate LateWordsAreFinal(audio: seq<Sample>, calls: seq<Call>, frameSamples: nat, engine: Engine, align: Aligner)
    requires frameSamples > 0 && Aligns(align)
  {
    var s := Closed(audio, frameSamples, engine, align).0;
    s.adapter.words + FinalWords(CallEach(s, calls, frameSamples, engine, align).1)
      == SpokenWords(s.adapter.words, SpokenLate(audio, calls, frameSamples, engine, align))
  }

  // Less than a frame behind the flush is not heard at all.
  lemma NothingSaidLate(audio: seq<Sample>, calls: seq<Call>, frameSamples: nat, engine: Engine, align: Aligner)
    requires frameSamples > 0 && Aligns(align) && |AllAudio(calls)| < frameSamples
    ensures LateWordsAreFinal(audio, calls, frameSamples, engine, align)
  {
    hide *;
    var s := Closed(audio, frameSamples, engine, align).0;
    ClosedLog(audio, frameSamples, engine, align);
    LateCalls(s, calls, frameSamples, engine, align);
    ShortPush(s, AllAudio(calls), frameSamples, engine, align);
    NoWords(s.adapter.words);
    LateIs(audio, calls, frameSamples, engine, align);
    NothingSince(s.log, engine);
    assert s.adapter.words + [] == s.adapter.words;
  }

  lemma ShortPush(s: SessionState, audio: seq<Sample>, frameSamples: nat, engine: Engine, align: Aligner)
    requires s.Valid(frameSamples) && Aligns(align) && s.residue == [] && |audio| < frameSamples
    ensures AfterPush(s, audio, frameSamples, engine, align) == (s.(residue := audio), [])
  {
    assert [] + audio == audio;
  }

  lemma NoWords(current: seq<Word>)
    ensures FinalWords([]) == [] && SpokenWords(current, []) == current
  {
  }

  lemma NothingSince(log: seq<Frame>, engine: Engine)
    ensures SpokenSince(log, |log|, engine) == []
  {
  }

  // The predicates above, said of the session behind the calls.
  lemma LateIs(audio: seq<Sample>, calls: seq<Call>, frameSamples: nat, engine: Engine, align: Aligner)
    requires frameSamples > 0 && Aligns(align)
    ensures var s := Closed(audio, frameSamples, engine, align).0;
      var (s', es) := CallEach(s, calls, frameSamples, engine, align);
      var late := SpokenSince(s'.log, |s.log|, engine);
      && SpokenLate(audio, calls, frameSamples, engine, align) == late
      && (LateWordsAreFinal(audio, calls, frameSamples, engine, align) <==>
            s.adapter.words + FinalWords(es) == SpokenWords(s.adapter.words, late))
  {
    hide Closed, CallEach, SpokenSince, FinalWords, SpokenWords;
  }

  // An engine that hears the same word in every frame.
  function HearsA(): Engine {
    log => [EngineOutput("", "a", None, None)]
  }

  // Steps with that word as the whole hypothesis.
  ghost predicate SaysA(steps: seq<Step>) {
    forall i | 0 <= i < |steps| :: steps[i].finalText == "" && steps[i].partialText == "a"
  }

  lemma {:induction false} HearsASaysA(log: seq<Frame>, k: nat)
    requires k <= |log|
    ensures SaysA(SpokenSince(log, k, HearsA())) && |SpokenSince(log, k, HearsA())| == |log| - k
    decreases |log|
  {
    if k < |log| {
      HearsASaysA(log[..|log| - 1], k);
      assert |ToSteps(log, HearsA())| == 1 && ToSteps(log, HearsA())[0].partialText == "a";
    }
  }

  lemma OneWord()
    ensures Split("") == [] && Split("a") == ["a"] && Join(["a"]) == "a"
  {
    assert Join(["a"]) == "a";
    SplitOfJoin(["a"]);
  }

  lemma {:induction false} SayingAGrows(current: seq<Word>, steps: seq<Step>)
    requires SaysA(steps) && current <= ["a"]
    ensures Grows(current, steps)
    decreases |steps|
  {
    hide Split, Solid;
    if steps != [] {
      OneWord();
      assert SaysA(steps[1..]);
      SayingAGrows(["a"], steps[1..]);
    }
  }

  // One such step leaves the word pending.
  lemma AStaysPending(s: AdapterState, step: Step, align: Aligner)
    requires s.Valid() && Aligns(align) && s.promoted == 0 && step.finalText == "" && step.partialText == "a"
    ensures var s' := AfterStep(s, step, align).0; s'.promoted == 0 && s'.words == ["a"]
  {
    hide Split, Solid, Join, RollLines, Rollup, SharedPrefix;
    OneWord();
    var s0 := Tick(s, step.times.audioEnd);
    IngestNothing(s0, step, align);
    var r := ReadyToShow(s0, ["a"], step.times, align);
    assert r.words == ["a"] && r.promoted == 0;
    RollupOfA(r, Clock(s0.lastEnd, false));
  }

  lemma RollupOfA(s: AdapterState, at: Clock)
    requires s.words == ["a"] && s.promoted == 0
    ensures var s' := Rollup(s, None, at).0; s'.words == ["a"] && s'.promoted == 0
  {
    OneWord();
    assert s.Pending() == ["a"];
    assert NextLine(s, false) == 0;
    assert RollLines(s, false, at) == (s, []);
  }

  lemma {:induction false} SayingAStaysPending(s: AdapterState, steps: seq<Step>, align: Aligner)
    requires s.Valid() && Aligns(align) && s.promoted == 0 && SaysA(steps)
    ensures var s' := Run(s, steps, align).0; s'.promoted == 0 && s'.words == if steps == [] then s.words else ["a"]
    decreases |steps|
  {
    hide AfterStep, Split, Solid;
    if steps != [] {
      AStaysPending(s, steps[0], align);
      SayingAStaysPending(AfterStep(s, steps[0], align).0, steps[1..], align);
    }
  }

  lemma FlushForgets(s: AdapterState, audioEnd: Option<real>)
    requires s.Valid() && s.promoted == 0 && !s.flushed
    ensures var s' := AfterFlush(s, audioEnd).0; s'.promoted == 0 && s'.words == []
  {
    hide Rollup;
  }

  // The session of that engine: it keeps displayed words, and is flushed with nothing left of them.
  lemma HearsAKeeps(audio: seq<Sample>, frameSamples: nat, align: Aligner)
    requires frameSamples > 0 && Aligns(align)
    ensures NewAdapter.Valid() && RunKeeps(NewAdapter, SpokenInTime(audio, frameSamples, HearsA(), align), align)
    ensures var s := Closed(audio, frameSamples, HearsA(), align).0.adapter; s.Valid() && s.words == [] && s.promoted == 0
  {
    hide *;
    var s := Closed(audio, frameSamples, HearsA(), align).0;
    var steps := SpokenInTime(audio, frameSamples, HearsA(), align);
    InTimeIs(audio, frameSamples, HearsA(), align);
    HearsASaysA(s.log, 0);
    NewAdapterIsValid();
    NoWordsYet();
    SayingAGrows([], steps);
    GrowingIsKept(NewAdapter, steps, align);
    ClosedFollows(audio, frameSamples, HearsA(), align);
    var end := Some(Seconds(s.samplesConsumed));
    SessionIs(steps, end, align);
    SayingAStaysPending(NewAdapter, steps, align);
    RunKeepsFlushed(NewAdapter, steps, align);
    FlushForgets(Run(NewAdapter, steps, align).0, end);
  }

  lemma InTimeIs(audio: seq<Sample>, frameSamples: nat, engine: Engine, align: Aligner)
    requires frameSamples > 0 && Aligns(align)
    ensures SpokenInTime(audio, frameSamples, engine, align) == SpokenSince(Closed(audio, frameSamples, engine, align).0.log, 0, engine)
  {
    hide Closed, SpokenSince;
  }

  lemma SessionIs(steps: seq<Step>, audioEnd: Option<real>, align: Aligner)
    requires Aligns(align)
    ensures NewAdapter.Valid() && Session(steps, audioEnd, align).0 == AfterFlush(Run(NewAdapter, steps, align).0, audioEnd).0
  {
    hide Run, AfterFlush;
  }

  lemma NoWordsYet()
    ensures NewAdapter.words == [] <= ["a"] && NewAdapter.promoted == 0 && !NewAdapter.flushed
  {
  }

  // Pending words are what the finals miss.
  lemma MissesPending(shown: seq<Word>, finals: seq<Word>, pending: seq<Word>, spoken: seq<Word>)
    requires shown + finals + pending == spoken && pending != []
    ensures shown + finals != spoken
  {
    assert |shown + finals + pending| == |shown + finals| + |pending|;
  }

  /** From a whole frame behind the flush on, an engine that only ever says "a" loses it, whatever the aligner. */
  lemma LateWordIsLost(audio: seq<Sample>, calls: seq<Call>, frameSamples: nat, align: Aligner)
    requires frameSamples > 0 && Aligns(align) && |AllAudio(calls)| >= frameSamples
    ensures KeepsThroughout(audio, calls, frameSamples, HearsA(), align)
    ensures !LateWordsAreFinal(audio, calls, frameSamples, HearsA(), align)
  {
    hide *;
    var s := Closed(audio, frameSamples, HearsA(), align).0;
    var (s', es) := CallEach(s, calls, frameSamples, HearsA(), align);
    var late := SpokenSince(s'.log, |s.log|, HearsA());
    LateIs(audio, calls, frameSamples, HearsA(), align);
    HearsAKeeps(audio, frameSamples, align);
    LateLogGrows(audio, calls, frameSamples, HearsA(), align);
    HearsASaysA(s'.log, |s.log|);
    EmptyFits();
    SayingAGrows(s.adapter.words, late);
    GrowingIsKept(s.adapter, late, align);
    KeepsIs(audio, calls, frameSamples, HearsA(), align);
    LateWordsStayPending(audio, calls, frameSamples, HearsA(), align);
    LateFollows(audio, calls, frameSamples, HearsA(), align);
    SayingAStaysPending(s.adapter, late, align);
    PendingA(s'.adapter);
    MissesPending(s.adapter.words, FinalWords(es), s'.adapter.Pending(), SpokenWords(s.adapter.words, late));
  }

  lemma EmptyFits()
    ensures [] <= ["a"]
  {
  }

  lemma PendingA(s: AdapterState)
    requires s.words == ["a"] && s.promoted == 0
    ensures s.Valid() && s.Pending() != []
  {
  }

  lemma KeepsIs(audio: seq<Sample>, calls: seq<Call>, frameSamples: nat, engine: Engine, align: Aligner)
    requires frameSamples > 0 && Aligns(align) && NewAdapter.Valid()
    requires RunKeeps(NewAdapter, SpokenInTime(audio, frameSamples, engine, align), align)
    requires Closed(audio, frameSamples, engine, align).0.adapter.Valid()
    requires RunKeeps(Closed(audio, frameSamples, engine, align).0.adapter,
                      SpokenLate(audio, calls, frameSamples, engine, align), align)
    ensures KeepsThroughout(audio, calls, frameSamples, engine, align)
  {
    hide RunKeeps, SpokenInTime, SpokenLate, Closed;
  }

  // Behind the flush the adapter follows from where the flush left it.
  lemma LateFollows(audio: seq<Sample>, calls: seq<Call>, frameSamples: nat, engine: Engine, align: Aligner)
    requires frameSamples > 0 && Aligns(align)
    ensures var s := Closed(audio, frameSamples, engine, align).0;
      var (s', es) := CallEach(s, calls, frameSamples, engine, align);
      s.adapter.Valid() && s'.adapter.Valid()
      && Run(s.adapter, SpokenSince(s'.log, |s.log|, engine), align) == (s'.adapter, es)
  {
    hide Closed, AfterPush, CallEach, SpokenSince, Run;
    var s := Closed(audio, frameSamples, engine, align).0;
    ClosedLog(audio, frameSamples, engine, align);
    LateCalls(s, calls, frameSamples, engine, align);
    PushFollows(s, AllAudio(calls), frameSamples, engine, align);
  }

  lemma LateLogGrows(audio: seq<Sample>, calls: seq<Call>, frameSamples: nat, engine: Engine, align: Aligner)
    requires frameSamples > 0 && Aligns(align) && |AllAudio(calls)| >= frameSamples
    ensures var s := Closed(audio, frameSamples, engine, align).0;
      |CallEach(s, calls, frameSamples, engine, align).0.log| > |s.log|
  {
    hide *;
    var s := Closed(audio, frameSamples, engine, align).0;
    ClosedLog(audio, frameSamples, engine, align);
    LateCalls(s, calls, frameSamples, engine, align);
    LateLog(s, AllAudio(calls), frameSamples, engine, align);
    WholeFramesAreNotLast(AllAudio(calls), frameSamples, false);
  }

  /** Every engine that keeps displayed words gets all it says into the finals exactly if less than a frame of audio is
      pushed behind the flush. */
  lemma LateWordsAreFinalIff(audio: seq<Sample>, calls: seq<Call>, frameSamples: nat, align: Aligner)
    requires frameSamples > 0 && Aligns(align)
    ensures |AllAudio(calls)| < frameSamples <==>
      forall engine: Engine :: KeepsThroughout(audio, calls, frameSamples, engine, align) ==>
        LateWordsAreFinal(audio, calls, frameSamples, engine, align)
  {
    hide *;
    if |AllAudio(calls)| < frameSamples {
      forall engine: Engine ensures LateWordsAreFinal(audio, calls, frameSamples, engine, align) {
        NothingSaidLate(audio, calls, frameSamples, engine, align);
      }
    } else {
      LateWordIsLost(audio, calls, frameSamples, align);
    }
  }
}
