# Verified models of the live-caption system

The repository puts live speech on a video picture: a board streams audio to a recognition server over a WebSocket,
the server turns the recogniser's growing hypothesis into caption lines, and the board receives those lines, buffers
them between two threads and paints them into a subtitle memory. This project models the parts of that path whose
correctness is not visible from one function body, and proves what they promise for all inputs, all runs and all
interleavings.

Run `dafny verify dfyconfig.toml` here to check everything.

| module | what it models |
|---|---|
| `EditDistance` | the two-row edit-distance program; its value is the least cost of an edit script, and a metric |
| `PythonInt`, `BitParallel` | Python's unbounded integers as endless bit strings; Myers' bit-vector loop equals the two-row program |
| `Words` | splitting and joining words, the line cut, the bounded tail |
| `CommittedBoundary` | carrying the boundary of displayed words into a revised hypothesis |
| `TranscriptAdapter`, `TranscriptRun`, `TranscriptEvents` | the caption adapter as an object, whole sessions of it, and which events it sends when |
| `NemotronSession` | audio re-framing around the adapter under any calls, up to the captions of a whole session |
| `Sha1`, `Sha1Examples` | the streaming SHA-1 against FIPS 180-4, and its published examples |
| `WsFrame`, `WsClient` | RFC 6455 framing, and the receive path over a byte stream cut anywhere |
| `EventRing`, `EventRingRun` | the transcript ring in its array, and the two threads on it |
| `SubtitleBram` | the shadowed subtitle memory, fast path against pixel path |
| `Utf8`, `Json`, `JsonGrammar` | bounded UTF-8 copies, the JSON cursor, and the grammar it accepts |
| `SessionJson`, `SessionStart`, `SessionFields` | the object walker, the `session_start` builder it reads back, and the field callbacks |
| `WrapLines` | greedy wrapping with hyphenation, and when it ends |
| `EventLoop` | the event loop and its stop protocol as a step system |
| `Common`, `Arithmetic`, `Bytes` | options and concatenation, integer division, big-endian numbers |

Code that works in place is modelled as classes, arrays and loops, each method tied to a function of the old state; the
lemmas then say what that function means. Concurrent code is a step system in which one step is one critical section.
Outside behaviour is a parameter: the recogniser is any function of the frames it was given (`Engine`), the sequence
matcher any function whose blocks tile both sides and which answers a pure append with one leading equal block
(`Aligner`), the transcript parser any function of the line (`Parser`), `strtod` any predicate on tokens (`Numeric`),
sending and handing up messages may fail depending on everything done before (`Outcome`), and the transport grants any
part of the waiting bytes or fails.

## What the code does not do

Each point is proved about the code as it is, wherever there is a condition to meet as an exact one.

- A comment in the boundary mapping (`server/runtime/nemotron.py:354-356`) says words inserted at or before the
  committed boundary are consumed. At a positive boundary the code consumes only those strictly before it, because the
  blocks in front of the boundary return first (`CommittedBoundary.InsertedBlockSide`; one displayed word and one
  inserted behind it: `InsertionAtBoundaryIsNotConsumed`).
- A new hypothesis shows each of its words once exactly when it starts with the displayed words and the alignment puts
  the boundary behind them (`TranscriptRun.ShowsOnceIffKept`); for that it is enough that the alignment starts with an
  equal block over the displayed words (`TranscriptRun.RevisionBehindIsKept`). If "a." is displayed and corrected to
  "b a.", the boundary moves behind both words and "b" is never shown (`TranscriptRun.WordInFrontIsNeverShown`).
- With segments an event can end in front of its start: the utterance goes on from the end of its last line, which its
  segments may precede (`TranscriptEvents.SegmentsCanEndTooEarly`; without segments: `RunSpans`). When one step closes an
  utterance and shows the next, the two overlap exactly if the step takes time (`TranscriptEvents.UtterancesOverlapIff`;
  within an utterance there is neither gap nor overlap: `UtteranceChains`).
- Audio pushed after the flush is not refused. No frame follows the last one exactly when less than a frame of audio is
  pushed after the first flush (`NemotronSession.LastIsLastIff`, `PushAfterFlushFollowsLast`). On the same condition,
  and on no weaker one, every engine that keeps displayed words gets all it says into the finals
  (`NemotronSession.LateWordsAreFinalIff`); otherwise an engine that only ever says "a" loses it (`LateWordIsLost`).
- Finals can be lost to overflow. A push keeps them all exactly when they leave a slot free
  (`EventRing.PushKeepsFinalsIff`), a run of pushes exactly when those in front of its last push do
  (`EventRing.FinalsSurviveIff`), and an interleaving of both threads exactly when no push meets finals in all slots
  (`EventRingRun.FinalsInEveryInterleaving`). Else the oldest goes, even for a partial (`EventRing.PartialEvictsFinal`).
- The object walker does not look behind an empty object: it finds no fields exactly in texts that start with one
  (`SessionJson.WalkAcceptsEmptyIff`, `EmptyObjectWalks`). Every other text it accepts is one whole object with white
  space around it (`SessionJson.WalkAcceptsObjects`).
- A frame with a reserved opcode is joined like a continuation, in every stream and however it is cut
  (`WsClient.ReservedOpcodeContinues`); one with a reserved control opcode thereby ends its message, and what was to
  continue it is lost (`WsClient.ReservedControlEndsMessage`). Section 5.2 of RFC 6455 asks the receiver to fail the
  connection.
- A number of 64 and more characters is read by the field callbacks but cannot be skipped
  (`SessionFields.NumberIsSkippedIff`; sixty-four zeros: `LongZeroIsReadNotSkipped`). No message is affected, because
  the walk for the type has skipped all of it before (`SessionFields.LaterWalkSeesTheSame`).
- A text message is read as a C string, so only the part in front of its first NUL is seen (`WsClient.StreamDelivers`).
- The pixel path of the subtitle memory does not update the shadow. It keeps memory and shadow in agreement exactly
  when it changes nothing (`SubtitleBram.PixelPathKeepsSyncIff`; one white pixel: `OnePixelBreaksSync`); with a stale
  shadow an aligned write is right exactly when no word it skips is stale (`SubtitleBram.StaleShadowIff`; that pixel
  survives a blank bitmap: `StalePixelStays`).
- The wrapped lines do not always determine the words: at width two `a-`, `cb` and `acb` are wrapped alike
  (`WrapLines.OwnHyphenIsLost`). The reader `Glue` joins a line that looks hyphenated with a next one whose first word
  has two characters or more. It is right exactly when no word fills its last line, ends in its own hyphen and stands in
  front of such a word (`WrapLines.WrapReadsBackIff`), and no other reader does better: the words it reads are wrapped
  to the very same lines (`WrapLines.ReadBackWrapsAlike`).
- Wrapping ends exactly when the width is at least two or no word is wider than the line (`WrapLines.WrapEndsIff`).
- The bounded tail at limit zero is the whole text, because `text[-0:]` is (`Words.BoundedTail`).
- A thread other than the loop and the ticker can enter its critical section after the mutex is destroyed; threads
  inside cannot. Posts from outside are enough for that, and so are stops (`EventLoop.UsedAfterDestroyIff`,
  `OutsidePostCanComeTooLate`, `OutsideStopCanComeTooLate`). The program stops the loop from an event handler
  (`src/svc/system/SystemAO.c:467`), so it depends on its posts.

## Model

| member | source | states |
|---|---|---|
| `EditDistance.TwoRowDistance` | server/evaluation/dataset.py:118-131 | the two rolling rows compute the recursively defined distance of the whole sequences |
| `EditDistance.DistanceIsLeastCost` | server/evaluation/dataset.py:118-131 | a number is the distance exactly when some script of insertions, deletions and substitutions costs it and none costs less |
| `EditDistance.NoCheaperScript` | server/evaluation/dataset.py:118-131 | every edit script costs at least the distance between what it reads and what it writes |
| `EditDistance.BestScript` | server/evaluation/dataset.py:118-131 | builds a script that turns the one sequence into the other at exactly the distance |
| `EditDistance.DistanceIsMetric` | server/evaluation/dataset.py:118-131 | zero exactly for equal sequences, symmetric, triangle inequality |
| `PythonInt.BitOfAnd` | server/evaluation/physical.py:498-508 | `&` on unbounded, possibly negative integers is bitwise conjunction |
| `PythonInt.BitOfNot` | server/evaluation/physical.py:499-507 | `~` flips every one of the infinitely many bits |
| `PythonInt.BitOfOr` | server/evaluation/physical.py:497-507 | or is bitwise disjunction on unbounded integers |
| `PythonInt.BitOfXor` | server/evaluation/physical.py:498 | `^` is bitwise inequality on unbounded integers |
| `PythonInt.BitOfShift` | server/evaluation/physical.py:505-506 | shifting left by one moves every bit up and stores the new low bit |
| `PythonInt.BitOfMask` | server/evaluation/physical.py:490 | `(1 << k) - 1` has exactly the bits below k |
| `PythonInt.TestBit` | server/evaluation/physical.py:501-504 | a number masked with one bit is non-zero exactly when that bit is set |
| `PythonInt.RippleAdd` | server/evaluation/physical.py:498 | integer addition is the ripple-carry adder on the bits, for all integers |
| `BitParallel.BuildMasks` | server/evaluation/physical.py:487-489 | the mask of a unit has bit i exactly where the reference holds that unit; absent units have no mask |
| `BitParallel.CarryRunsThroughRises` | server/evaluation/physical.py:498 | what the addition trick leaves in bit i: a match, or a carry coming through rising rows from a match below |
| `BitParallel.CarryIsCheaperCell` | server/evaluation/physical.py:498 | the carry into row i says that cell i got cheaper from one column to the next |
| `BitParallel.RowChange` | server/evaluation/physical.py:498-500 | before the shift bit i of the two horizontal words says whether row i + 1 gets dearer or cheaper by one |
| `BitParallel.ShiftedRowChange` | server/evaluation/physical.py:505-506 | the shifted, masked words hold the change of every row, row 0 getting dearer |
| `BitParallel.NextColumn` | server/evaluation/physical.py:497-508 | from the row changes the last two assignments give the vertical rises and falls of the next column |
| `BitParallel.LastRowChange` | server/evaluation/physical.py:501-504 | the two tests on the last bit follow the bottom cell of the edit table |
| `BitParallel.BitParallelDistance` | server/evaluation/physical.py:477-509 | the bit-vector loop returns exactly the distance of the two-row program, for all sequences |
| `Words.SplitOfJoin` | server/runtime/nemotron.py:491-492 | splitting words joined by single spaces gives the words back |
| `Words.SplitSkips` | server/runtime/nemotron.py:604 | white space in front of a word is skipped, whatever and however much it is |
| `Words.TakeLineWords` | server/runtime/nemotron.py:307-322 | takes the largest number of leading words whose joined line fits, at least one of a non-empty list |
| `Words.BoundedTail` | server/runtime/captions.py:35-47 | the text if it fits, else its longest whole-word tail, else its last characters, which at limit zero are the whole text |
| `Words.TailIs` | server/runtime/captions.py:35-47 | a longer text is cut to the longest tail of whole words that fits, and to its last characters only if the last word does not fit |
| `CommittedBoundary.MapCommittedWordBoundary` | server/runtime/nemotron.py:334-386 | the loop over any tiling list of opcodes finds the recursively defined image of the clamped boundary |
| `CommittedBoundary.BoundaryImage` | server/runtime/nemotron.py:334-386 | every positive boundary lies in one block and goes to its image there: a kept word takes its place over, a deleted block ends where it starts, and of a replaced one the least share no smaller than the displayed one, stated by products |
| `CommittedBoundary.BoundaryIsMonotone` | server/runtime/nemotron.py:334-386 | the image stays within the revised words and never moves back when more words are committed, rounding included |
| `CommittedBoundary.KeptWordSide` | server/runtime/nemotron.py:373-374 | a kept word is behind the new boundary exactly when it was behind the old one: never shown twice, never lost |
| `CommittedBoundary.InsertedBlockSide` | server/runtime/nemotron.py:354-361 | an inserted block is swallowed exactly when it stands before the clamped boundary, for every committed count |
| `CommittedBoundary.InsertionAtBoundaryIsNotConsumed` | server/runtime/nemotron.py:354-361 | the comment's case at one input: a word inserted right at the boundary stays undisplayed |
| `CommittedBoundary.FrontInsertionIsConsumed` | server/runtime/nemotron.py:354-361 | a word inserted in front of the one displayed word moves the boundary behind both |
| `CommittedBoundary.LeadingBlockKeepsBoundary` | server/runtime/nemotron.py:373-374 | a leading equal block keeps every boundary it covers |
| `CommittedBoundary.AppendKeepsBoundary` | server/runtime/nemotron.py:373-374 | a revision that only appends leaves the boundary where it was |
| `TranscriptAdapter.Adapter.constructor` | server/runtime/nemotron.py:410-435 | a new adapter has no words, sequence number and clock zero, and zero counters |
| `TranscriptAdapter.Adapter.Emit` | server/runtime/nemotron.py:439-479 | numbers one event with its mark and its start and end, keeps the full line and its bounded tail, counts the sequence up |
| `TranscriptAdapter.Adapter.TakeNextLine` | server/runtime/nemotron.py:490-505 | how many pending words the next finished line takes: a full line, a finished sentence in an open utterance, or none |
| `TranscriptAdapter.Adapter.FinishLine` | server/runtime/nemotron.py:506-524 | one finished line leaves the pending words, with its event, its counters and the start of the next line |
| `TranscriptAdapter.Adapter.PromoteLines` | server/runtime/nemotron.py:488-524 | the loop emits every finished line in order and stops when none is left |
| `TranscriptAdapter.Adapter.RollUp` | server/runtime/nemotron.py:481-571 | finished lines, then the rest as closing final, new partial or suppressed duplicate; the whole new state with its times is stated |
| `TranscriptAdapter.Adapter.ResetUtterance` | server/runtime/nemotron.py:573-577 | forgets the words and the start of the utterance and nothing else |
| `TranscriptAdapter.Adapter.CommonWordPrefix` | server/runtime/nemotron.py:325-331 | the length of the longest common prefix |
| `TranscriptAdapter.Adapter.NoteMismatch` | server/runtime/nemotron.py:605-610 | counts a closing text that rewrites displayed words, exactly then |
| `TranscriptAdapter.Adapter.NoteRevision` | server/runtime/nemotron.py:637-646 | counts a hypothesis, and a revision exactly if it rewrites displayed words; keeps the time of the first |
| `TranscriptAdapter.Adapter.Adopt` | server/runtime/nemotron.py:611-615 | replaces the hypothesis and maps the boundary |
| `TranscriptAdapter.Adapter.Open` | server/runtime/nemotron.py:616-617 | an utterance keeps the start it has |
| `TranscriptAdapter.Adapter.CloseUtterance` | server/runtime/nemotron.py:601-634 | a closed utterance shows its undisplayed words with the bounds of its segments, counts as utterance or session end, and leaves an empty one |
| `TranscriptAdapter.Adapter.ShowHypothesis` | server/runtime/nemotron.py:636-662 | an open hypothesis rolls up on the sample clock and leaves the rest as the live partial |
| `TranscriptAdapter.Adapter.Ingest` | server/runtime/nemotron.py:581-666 | one engine output: the clock, the closed utterance, the open one, or an empty step |
| `TranscriptAdapter.Adapter.ForceFinal` | server/runtime/nemotron.py:668-687 | sets the clock and flushes the pending words once; later calls do nothing |
| `TranscriptRun.RollupConserves` | server/runtime/nemotron.py:481-571 | words of the finals plus words still pending are the words that were pending; a close leaves none, a partial shows them all |
| `TranscriptRun.PartialShowsUnseenWords` | server/runtime/nemotron.py:636-662 | whatever the engine revises, exactly the words behind the mapped boundary go to finals or to the live partial |
| `TranscriptRun.FinalShowsUnseenWords` | server/runtime/nemotron.py:601-634 | closing an utterance puts exactly the words behind the mapped boundary on finished lines |
| `TranscriptRun.ShowsOnceIffKept` | server/runtime/nemotron.py:636-662 | a hypothesis shows each word once and in order exactly when it keeps the displayed words and their boundary |
| `TranscriptRun.WordInFrontIsNeverShown` | server/runtime/nemotron.py:636-662 | the displayed sentence "a." corrected to "b a.": no event, nothing pending, "b" is never shown |
| `TranscriptRun.StepConserves` | server/runtime/nemotron.py:581-666 | a step that keeps the displayed words moves words from the hypothesis to finished lines, in order |
| `TranscriptRun.SessionShowsEveryWordOnce` | server/runtime/nemotron.py:581-687 | over a whole session and its flush the finals carry exactly the spoken words, none lost, repeated or moved, whatever is revised behind the displayed words |
| `TranscriptRun.RevisionBehindIsKept` | server/runtime/nemotron.py:334-386 | a revision behind the displayed words, like a last word that gets longer, keeps them if the alignment starts with an equal block over them |
| `TranscriptRun.GrowingSessionShowsEveryWordOnce` | server/runtime/nemotron.py:581-687 | in particular if hypotheses only grow, whatever tiling the aligner chooses otherwise |
| `TranscriptRun.SessionAccounts` | server/runtime/nemotron.py:439-571 | over any session the numbers run without gaps, `seq` is partials plus finals, the counters of emitted events and of their reasons match the events, every line has at most 55 characters or is one word |
| `TranscriptRun.RunCountsSteps` | server/runtime/nemotron.py:581-666 | over any run each counter of steps is a tally: closed utterances and sessions, hypotheses, empty steps, closing texts and hypotheses that do not start with the displayed words, and, each alone, the hypotheses that leave live words that are news, which are sent, and that leave the live words shown before, which are suppressed |
| `TranscriptRun.SessionCountsSteps` | server/runtime/nemotron.py:581-687 | the same over any whole session, and the flush counts exactly the events it sends |
| `TranscriptRun.FirstHypothesisIsTimed` | server/runtime/nemotron.py:638-639 | the time of the first hypothesis is the clock when it arrived, and is kept |
| `TranscriptRun.FlushOnce` | server/runtime/nemotron.py:668-687 | a second flush changes nothing and emits nothing |
| `TranscriptEvents.LinesOf` | server/runtime/nemotron.py:488-524 | words are laid out as they should be: the longest line of at most 55 characters or one word while they do not fit, and a finished sentence of an open utterance at once |
| `TranscriptEvents.HypothesisEvents` | server/runtime/nemotron.py:636-662 | for every hypothesis: finished lines, then exactly one partial, last, with the words left, if words are left and they are not the live words shown before; times stated |
| `TranscriptEvents.ClosingEvents` | server/runtime/nemotron.py:601-634 | a closing text sends its unseen words as lines and one final of the end of utterance or session; no partial |
| `TranscriptEvents.FlushEvents` | server/runtime/nemotron.py:668-687 | the flush sends the pending words as lines and one final of the flush; no partial |
| `TranscriptEvents.UtteranceChains` | server/runtime/nemotron.py:481-666 | whatever an utterance revises, each of its events starts where the last finished line ended, the first where the utterance starts |
| `TranscriptEvents.RunEvents` | server/runtime/nemotron.py:581-666 | each event of a run ends with the audio of its step, or with its segments, and its reason is of that step |
| `TranscriptEvents.RunSpans` | server/runtime/nemotron.py:439-666 | on the audio clock without segments every event of a run starts at or before its end, events end in order, within the run |
| `TranscriptEvents.SegmentsCanEndTooEarly` | server/runtime/nemotron.py:616-634 | an utterance that goes on from 5 s with segments ending at 4 s gives an event that ends in front of its start |
| `TranscriptEvents.UtterancesOverlapIff` | server/runtime/nemotron.py:601-662 | an utterance closed and the next one shown in one step overlap exactly if the step takes time |
| `NemotronSession.NemotronSession.constructor` | server/runtime/nemotron.py:733-753 | an empty session around a new adapter; an absent frame size counts as one |
| `NemotronSession.NemotronSession.RunStep` | server/runtime/nemotron.py:824-852 | one frame goes to the engine with its flags and length, the clock advances, its outputs go to the adapter in order |
| `NemotronSession.NemotronSession.PushFloat32` | server/runtime/nemotron.py:781-800 | residue and new audio are cut into whole frames, the rest is kept, flushed session or not |
| `NemotronSession.NemotronSession.Flush` | server/runtime/nemotron.py:802-822 | the zero-padded rest goes out as the last frame, then the adapter is flushed; a second call does nothing |
| `NemotronSession.SplittingDoesNotMatter` | server/runtime/nemotron.py:781-800 | pushing audio piece by piece gives the state and events of one push of the whole |
| `NemotronSession.EngineSeesTheCut` | server/runtime/nemotron.py:781-852 | for any splitting the engine gets the fixed-size cut of the whole audio with one zero-padded last frame, one first and one last flag, valid lengths summing to the samples |
| `NemotronSession.SameAudioSameEvents` | server/runtime/nemotron.py:781-852 | two splittings of the same audio give the same frames, state and events |
| `NemotronSession.LogOfCalls` | server/runtime/nemotron.py:781-852 | after any pushes and flushes in any order the engine has got the cut of the audio before the first flush, then all whole frames of the audio after it |
| `NemotronSession.LastIsLastIff` | server/runtime/nemotron.py:781-822 | no frame follows the last one exactly when the audio pushed after the first flush is shorter than one frame |
| `NemotronSession.PushAfterFlushFollowsLast` | server/runtime/nemotron.py:781-822 | a frame of audio pushed behind a flush reaches the engine behind the last frame |
| `NemotronSession.SessionCaptions` | server/runtime/nemotron.py:781-852 | from audio to captions: the events are those of the adapter on all the engine said, with the sample clock; if that keeps displayed words, the finals are the words the engine said, once and in order |
| `NemotronSession.EventsEndOnFrames` | server/runtime/nemotron.py:777-852 | every event without segments ends with the audio of some number of frames, at 16000 samples a second; an utterance ends in front of the last frame, the session behind it |
| `NemotronSession.SessionSpans` | server/runtime/nemotron.py:739-852 | without segments every event of a session lies within its audio, starts at or before its end, and ends no sooner than the one in front |
| `NemotronSession.LateWordsStayPending` | server/runtime/nemotron.py:668-822 | behind a flush further flushes do nothing, and finals and pending words together are the words said |
| `NemotronSession.LateWordsAreFinalIff` | server/runtime/nemotron.py:668-852 | for every aligner: all engines that keep displayed words get all they say into the finals exactly if less than a frame is pushed behind the flush |
| `NemotronSession.LateWordIsLost` | server/runtime/nemotron.py:668-852 | from a whole frame behind the flush on, an engine that only ever says one word keeps displayed words and loses it |
| `Sha1.CodeFormulas` | src/svc/stt/stt_ws_frame.c:105-118 | the choice and majority formulas of the code are those of section 4.1.1 of FIPS 180-4 |
| `Sha1.ExpandBlock` | src/svc/stt/stt_ws_frame.c:89-97 | the 80 expanded words of section 6.1.2 of FIPS 180-4 |
| `Sha1.EightyRounds` | src/svc/stt/stt_ws_frame.c:99-133 | the loop over five rotating variables computes the 80 rounds of the standard |
| `Sha1.Context.Compress` | src/svc/stt/stt_ws_frame.c:79-140 | one block is compressed into the state as the standard says |
| `Sha1.Context.constructor` | src/svc/stt/stt_ws_frame.c:143-151 | a new context has absorbed nothing |
| `Sha1.Context.Update` | src/svc/stt/stt_ws_frame.c:154-175 | absorbing bytes appends them to what was absorbed, whatever the sizes |
| `Sha1.Context.Pad` | src/svc/stt/stt_ws_frame.c:184-190 | padding one byte at a time ends with exactly 56 bytes in the block and has added the padding of the standard |
| `Sha1.FewestZeros` | src/svc/stt/stt_ws_frame.c:184-190 | no shorter zero padding leaves eight bytes in a block, as section 5.1.1 of FIPS 180-4 asks |
| `Sha1.Context.Final` | src/svc/stt/stt_ws_frame.c:178-204 | the digest is the hash of the padded message of everything absorbed |
| `Sha1.HashInPieces` | src/svc/stt/stt_ws_frame.c:143-204 | hashing a message in any pieces gives the one-shot hash of the whole |
| `Sha1Examples.DigestOfAbc` | src/svc/stt/stt_ws_frame.c:79-204 | the published digest of "abc" |
| `Sha1Examples.DigestOfTwoBlocks` | src/svc/stt/stt_ws_frame.c:79-204 | the published digest of the message of two blocks |
| `WsFrame.EncodeFrame` | src/svc/stt/stt_ws_frame.c:346-417 | writes the frame and leaves the rest of the buffer; refuses long control frames; reports no space exactly when it does not fit, writing nothing |
| `WsFrame.ClientFrameReadsBack` | src/svc/stt/stt_ws_frame.c:346-417 | reading an encoded frame by sections 5.2 and 5.3 of RFC 6455 recovers opcode, key and payload, in the shortest length form, whatever follows, if anything |
| `WsFrame.CutClientFrameIsShort` | src/svc/stt/stt_ws_frame.c:346-417 | an encoded frame cut short anywhere is neither read nor refused: no frame is the start of another |
| `WsFrame.MaskTwice` | src/svc/stt/stt_ws_frame.c:411-414 | masking twice with one key is the identity |
| `WsFrame.DecodeFrame` | src/svc/stt/stt_ws_frame.c:427-515 | the decoder over the receive buffer answers as the function of the bytes in use |
| `WsFrame.DecodeIsPrefixStable` | src/svc/stt/stt_ws_frame.c:427-515 | once the decoder stops asking for more, more bytes never change its answer |
| `WsFrame.IncompleteIsShort` | src/svc/stt/stt_ws_frame.c:427-515 | a frame still incomplete is shorter than the longest header plus the largest payload |
| `WsFrame.ServerFrameDecodes` | src/svc/stt/stt_ws_frame.c:427-515 | a well-formed server frame decodes to its opcode, final bit and payload, whatever follows |
| `WsFrame.DecoderRefusesIff` | src/svc/stt/stt_ws_frame.c:427-515 | exactly when the answer is a protocol error, too big, or more bytes: reserved bits, mask bit, control frames, lengths |
| `WsFrame.DecodedParts` | src/svc/stt/stt_ws_frame.c:427-515 | what is decoded has the opcode, final bit, header and payload its bytes say |
| `WsClient.Client.constructor` | src/svc/stt/stt_ws_client.c:750-814 | an empty receive path: no bytes, no message, no errors |
| `WsClient.Client.JoinMessage` | src/svc/stt/stt_ws_client.c:606-647 | a fragment is joined, or marks the message too long; the last fragment hands the text up to its first NUL, or counts an error |
| `WsClient.Client.HandleOne` | src/svc/stt/stt_ws_client.c:578-648 | one frame acts by its opcode; the whole new state is stated |
| `WsClient.Client.TakeFrame` | src/svc/stt/stt_ws_client.c:665-676 | handling the first frame and moving the rest down is one step of working off the buffer |
| `WsClient.Client.PumpRx` | src/svc/stt/stt_ws_client.c:654-707 | reading until the transport has no more, closes or fails has the effect of working off all bytes taken; the full-buffer exit is unreachable, and the connection is left open only when nothing more is granted |
| `WsClient.DrainInParts` | src/svc/stt/stt_ws_client.c:654-707 | working off a buffer, receiving more and going on equals working off all at once |
| `WsClient.CutsDoNotMatter` | src/svc/stt/stt_ws_client.c:654-707 | what is done, counted and failed depends only on the bytes, never on where they were cut |
| `WsClient.StreamDelivers` | src/svc/stt/stt_ws_client.c:515-707 | of a stream of messages with pings, pongs and binary frames anywhere, stray frames between messages and any reserved opcodes for continuations exactly this is done, in order: each ping is answered with its payload, each message under 1280 bytes is handed up to its first NUL; all else is counted as errors |
| `WsClient.CutStreamDelivers` | src/svc/stt/stt_ws_client.c:515-707 | the same however the stream is cut, and the connection stays open |
| `WsClient.CutStreamEnds` | src/svc/stt/stt_ws_client.c:578-707 | a close frame or a refused frame ends the session with its failure: all in front is done and counted, nothing behind; the beginning of a frame waits |
| `WsClient.FailureStops` | src/svc/stt/stt_ws_client.c:578-676 | an answer or hand-up that fails ends the session there: what is done is the beginning of what would have been done, up to the first failure |
| `WsClient.ReservedOpcodeContinues` | src/svc/stt/stt_ws_client.c:600-707 | a stream that labels continuations with reserved opcodes delivers the texts of the proper one, however both are cut |
| `WsClient.ReservedControlEndsMessage` | src/svc/stt/stt_ws_client.c:600-647 | a message cut short by a reserved control opcode is delivered with that frame's payload, and each frame that was to continue it counts as an error |
| `EventRing.EventRing.constructor` | src/svc/stt/stt_event_ring.c:29-39 | an empty ring, generation zero |
| `EventRing.EventRing.FindVictim` | src/svc/stt/stt_event_ring.c:82-99 | the scan over the circle finds the first partial in order, or the oldest entry |
| `EventRing.EventRing.Shed` | src/svc/stt/stt_event_ring.c:101-110 | shifting slots in place removes exactly the victim and keeps the order of the rest |
| `EventRing.EventRing.Push` | src/svc/stt/stt_event_ring.c:52-133 | refuses long or unparsable lines unchanged; else makes room, appends and counts |
| `EventRing.EventRing.Take` | src/svc/stt/stt_event_ring.c:151-159 | the first lock phase takes the oldest entries, as many as asked for or there are |
| `EventRing.EventRing.Check` | src/svc/stt/stt_event_ring.c:169-197 | the second lock phase drops a dead generation, rejects an old number, or accepts and remembers the number |
| `EventRing.EventRing.Drain` | src/svc/stt/stt_event_ring.c:135-202 | undisturbed, a drain hands up what the checks accept, in order |
| `EventRing.EventRing.InvalidateSession` | src/svc/stt/stt_event_ring.c:204-224 | starts a new generation, empties the ring, and counts and reports what it discarded |
| `EventRing.OverflowShedsOldestPartial` | src/svc/stt/stt_event_ring.c:80-119 | a push into a full ring is: remove the first partial, or the first entry if all are finals, then append |
| `EventRing.PushKeepsFinalsIff` | src/svc/stt/stt_event_ring.c:80-119 | a push keeps every final exactly when the finals leave a slot free, whatever arrives |
| `EventRing.FinalsSurviveIff` | src/svc/stt/stt_event_ring.c:80-119 | a run of pushes keeps every final exactly when the finals in front of its last push leave a slot free |
| `EventRing.PartialEvictsFinal` | src/svc/stt/stt_event_ring.c:96-99 | with finals in all slots an arriving partial costs the oldest one |
| `EventRingRun.StepKeepsInv` | src/svc/stt/stt_event_ring.c:78-222 | every critical section of either thread keeps order, accounting, generations and sequence numbers |
| `EventRingRun.EveryInterleaving` | src/svc/stt/stt_event_ring.c:78-222 | in every interleaving admitted = delivered + dropped + rejected + buffered + held, arrival order is kept without repetition, and sequence numbers strictly increase within a generation |
| `EventRingRun.EveryLineIsTraced` | src/svc/stt/stt_event_ring.c:52-202 | in every interleaving what is buffered, held and delivered are the lines pushed, with the generation of their push |
| `EventRingRun.DrainTakes` | src/svc/stt/stt_event_ring.c:151-159 | a drain takes the oldest entries, as many as asked for or there are; asked for eight it leaves none |
| `EventRingRun.DrainGetsDone` | src/svc/stt/stt_event_ring.c:160-202 | with any pushes and invalidations in between, each check settles one held entry, so as many checks as it holds end the drain |
| `EventRingRun.DrainDelivers` | src/svc/stt/stt_event_ring.c:135-202 | with any pushes in between, a drain delivers, of the oldest entries, as many as asked for or there are, exactly those whose numbers rise |
| `EventRingRun.DrainIsSteps` | src/svc/stt/stt_event_ring.c:135-202 | an uninterrupted drain of the ring is its steps, and hands up what they deliver |
| `EventRingRun.CheckDeliversIff` | src/svc/stt/stt_event_ring.c:169-192 | a check delivers an entry exactly if its generation is live and its number exceeds every one delivered in it; else it counts a drop or an old number |
| `EventRingRun.InvalidationIsFinal` | src/svc/stt/stt_event_ring.c:169-222 | nothing buffered or held at an invalidation is ever delivered after it, in any continuation |
| `EventRingRun.EvictsIff` | src/svc/stt/stt_event_ring.c:78-119 | a step of either thread evicts a final exactly if it pushes while finals fill all slots, and then one |
| `EventRingRun.FinalsInEveryInterleaving` | src/svc/stt/stt_event_ring.c:78-222 | in every interleaving each admitted final is buffered, held, checked, invalidated or evicted, and none is evicted exactly when no push meets finals in all slots |
| `SubtitleBram.PackedPixel` | src/hal/subtitle_bram/subtitle_bram.c:85-104 | bit p of a packed word is the p-th source pixel from the left |
| `SubtitleBram.PixelsOfByte` | src/hal/subtitle_bram/subtitle_bram.c:259-270 | the leftmost source pixel of a byte is its highest bit |
| `SubtitleBram.PixelIsBit` | src/hal/subtitle_bram/subtitle_bram.c:259-280 | the leftmost pixel of a word is its lowest bit, 32 words to a line |
| `SubtitleBram.SubtitleBram.constructor` | src/hal/subtitle_bram/subtitle_bram.c:161-174 | the shadow starts zero; the memory is what it was |
| `SubtitleBram.SubtitleBram.Clear` | src/hal/subtitle_bram/subtitle_bram.c:181-200 | memory and shadow are all zero and agree, or untouched when unmapped |
| `SubtitleBram.SubtitleBram.WriteFullBitmap` | src/hal/subtitle_bram/subtitle_bram.c:121-152 | every word under the bitmap is in the shadow afterwards, in memory exactly if it differed from the shadow; the stores are exactly those, in order |
| `SubtitleBram.SubtitleBram.WritePixels` | src/hal/subtitle_bram/subtitle_bram.c:244-284 | every visible pixel under the clipped bitmap is the source pixel, every other one unchanged |
| `SubtitleBram.SubtitleBram.WriteBitmap` | src/hal/subtitle_bram/subtitle_bram.c:213-285 | unmapped and empty requests change nothing; aligned bitmaps take the fast path, others the pixel path |
| `SubtitleBram.FastPathPaints` | src/hal/subtitle_bram/subtitle_bram.c:121-152 | from agreement the fast path paints the bitmap, keeps the agreement and stores to exactly the words that change |
| `SubtitleBram.PathsAgree` | src/hal/subtitle_bram/subtitle_bram.c:235-284 | both paths give the same memory for every aligned bitmap |
| `SubtitleBram.PixelPathKeepsSyncIff` | src/hal/subtitle_bram/subtitle_bram.c:272-279 | the pixel path keeps the agreement exactly when every pixel it paints is already there |
| `SubtitleBram.OnePixelBreaksSync` | src/hal/subtitle_bram/subtitle_bram.c:272-279 | one white pixel on cleared memory leaves the shadow behind |
| `SubtitleBram.StaleShadowIff` | src/hal/subtitle_bram/subtitle_bram.c:141-147 | with a stale shadow an aligned write paints the bitmap exactly when no word it skips is stale |
| `SubtitleBram.StalePixelStays` | src/hal/subtitle_bram/subtitle_bram.c:141-147 | a blank aligned bitmap then leaves that pixel on the screen |
| `SubtitleBram.SyncAfter` | src/hal/subtitle_bram/subtitle_bram.c:121-285 | a clear makes agreement, an aligned write keeps it, a pixel write keeps it exactly if it changes nothing |
| `SubtitleBram.RunsStayInSync` | src/hal/subtitle_bram/subtitle_bram.c:121-200 | from agreement, every run of clears and aligned writes stays in agreement |
| `SubtitleBram.ClearStartsSync` | src/svc/subtitle_pipeline/subtitle_pipeline.c:112-119 | whatever memory and shadow held and whatever was drawn, from a clear on they agree until the pixel path is used |
| `Utf8.StoredIsLongestPrefix` | src/svc/stt/stt_json.c:238-283 | for well-formed text and every capacity the trimmed copy is the longest prefix of whole code points that fits |
| `Utf8.Utf8IsTheTable` | src/svc/stt/stt_json.c:241-279 | the code's byte tests are those of the table in RFC 3629 |
| `Json.ParseString` | src/svc/stt/stt_json.c:162-296 | succeeds exactly on a string of the accepted form, stops behind its quote, and leaves the stored part of the decoded text with its terminator |
| `Json.TrimStored` | src/svc/stt/stt_json.c:241-279 | the loop over continuation bytes drops an incomplete or invalid last code point |
| `Json.DecodedIsUtf8` | src/svc/stt/stt_json.c:193-221 | decoding escapes keeps UTF-8 well-formed |
| `Json.FieldHoldsLongestPrefix` | src/svc/stt/stt_json.c:162-296 | a bounded field ends up with the longest whole-code-point prefix of the decoded string, for every capacity |
| `Json.SkipWhitespace` | src/svc/stt/stt_json.c:150-156 | stops at the first character that is no white space |
| `Json.ScalarSpan` | src/svc/stt/stt_json.c:299-327 | a scalar token ends at the next separator and is refused when empty |
| `Json.SkipValueAt` | src/svc/stt/stt_json.c:116-145 | skipping terminates and gives the specified new cursor or a refusal |
| `Json.SkipContainerAt` | src/svc/stt/stt_json.c:49-113 | the loop over items gives the cursor behind the container or a refusal, depth included |
| `JsonGrammar.SkipWholeValue` | src/svc/stt/stt_json.c:49-145 | a printed value with any white space is skipped to exactly its end if at most four containers are nested, and refused otherwise |
| `JsonGrammar.SkippedIsValue` | src/svc/stt/stt_json.c:49-145 | whatever is skipped is a printed value of the grammar within the depth limit |
| `JsonGrammar.SkipAcceptsTheGrammar` | src/svc/stt/stt_json.c:49-145 | the scanner skips from i to j exactly when a value of the grammar, nested at most four deep, stands there |
| `SessionJson.WalkObject` | src/svc/stt/stt_session_json.c:66-139 | the walk over a top-level object offers each key to the callback, skips the values it does not read, and gives the fields in order, or a refusal |
| `SessionJson.ReplyIs` | src/svc/stt/stt_session_json.c:110-115 | a callback is offered whole keys of at most 31 bytes; longer ones are nobody's |
| `SessionJson.HonestWalk` | src/svc/stt/stt_session_json.c:66-139 | a callback that reads whole values only decides whether a field is refused: all else is as if every value were skipped |
| `SessionJson.AgreeingWalk` | src/svc/stt/stt_session_json.c:66-139 | the same for a callback that may read what cannot be skipped, on texts that can be walked without it |
| `SessionJson.WalkReadsObject` | src/svc/stt/stt_session_json.c:66-139 | walking a printed object, with any white space in and around it, gives exactly its members: decoded keys and raw values |
| `SessionJson.WalkAcceptsObjects` | src/svc/stt/stt_session_json.c:66-139 | the walker finds fields exactly in one whole object of the grammar, values nested at most four deep, and they are its members |
| `SessionJson.WalkAcceptsEmptyIff` | src/svc/stt/stt_session_json.c:77-86 | the walker finds no fields exactly in texts that start with an empty object, whatever follows |
| `SessionJson.DecodeWholeBody` | src/svc/stt/stt_json.c:193-221 | a well-formed string decodes to its text: an escaped quote, backslash or slash is itself, any other escape a space |
| `SessionStart.AppendU32Field` | src/svc/stt/stt_session_json.c:285-308 | appends the separated field, nothing for zero, and fails only when the message cannot fit |
| `SessionStart.BuildStart` | src/svc/stt/stt_session_json.c:345-443 | the exact conditions of success, refusal and no space, and the text in the buffer |
| `SessionStart.DecimalReadsBack` | src/svc/stt/stt_session_json.c:299-300 | the printed digits of a number read back as the number |
| `SessionStart.MessageReadsBack` | src/svc/stt/stt_session_json.c:345-443 | the message is one complete object for the walker, which reads back exactly the configured members; zero or empty overrides are absent |
| `SessionStart.StartSays` | src/svc/stt/stt_session_json.c:345-443 | the message says, key by key, the type, version 1, the six numbers configured, and an object with the language and the numbers that override |
| `SessionStart.OverridesReadBack` | src/svc/stt/stt_session_json.c:375-434 | the nested object reads back as exactly the overrides that are set |
| `SessionFields.ParseU32` | src/utils/number_parse/number_parse.c:34-75 | the loop with its overflow test accepts exactly digits whose value is within the bounds, and gives that value |
| `SessionFields.TypeIsHonest` | src/svc/stt/stt_session_json.c:211-228 | the callback for the type reads just what the walker would skip |
| `SessionFields.NumberIsSkippedIff` | src/svc/stt/stt_session_json.c:235-242 | a number a callback reads can be skipped, as one value, exactly if it is shorter than 64 characters |
| `SessionFields.LongZeroIsReadNotSkipped` | src/svc/stt/stt_session_json.c:235-242 | sixty-four zeros are read as a number and cannot be skipped |
| `SessionFields.LaterWalkSeesTheSame` | src/svc/stt/stt_session_json.c:450-515 | once the walk for the type gets through, the walks for the fields of ready and error messages see the same fields or refuse one |
| `WrapLines.Wrap` | server/audio_tests/subtitle_debug.py:57-75 | whenever the hyphenation ends, the loops give the recursively defined lines, one empty line for no words |
| `WrapLines.Hyphenate` | server/audio_tests/subtitle_debug.py:69-72 | the inner loop cuts a word into full lines with hyphens and leaves the rest |
| `WrapLines.WrapEndsIff` | server/audio_tests/subtitle_debug.py:69-71 | the hyphenation of every word ends exactly if the width is at least two or no word is wider |
| `WrapLines.LinesFit` | server/audio_tests/subtitle_debug.py:57-75 | no line is wider than the width, whenever wrapping ends |
| `WrapLines.WrapReadsBackIff` | server/audio_tests/subtitle_debug.py:57-75 | undoing the hyphenation gives the words in order exactly when no word fills its last line, ends in a hyphen, and stands in front of a word of two or more characters |
| `WrapLines.ReadBackWrapsAlike` | server/audio_tests/subtitle_debug.py:57-75 | for all words, what is read back is wrapped to the very same lines, so where it is wrong the lines have lost the words |
| `WrapLines.OwnHyphenIsLost` | server/audio_tests/subtitle_debug.py:57-75 | at width two `a-`, `cb` and `acb` are wrapped to the same lines |
| `WrapLines.WrapUsesFewestLines` | server/audio_tests/subtitle_debug.py:57-75 | when no word is wider than the line, no way of breaking the words into lines uses fewer |
| `EventLoop.StepKeepsInv` | src/bsp/qpc_port/qf_port.c:284-357 | every step of loop, ticker, posters and stopper keeps the ready set, the wake-ups, the stop and the order of destruction sound |
| `EventLoop.StoppedLoopNeverHangs` | src/bsp/qpc_port/qf_port.c:311-321 | once the stop is complete the loop never waits on an empty ready set, even after the marker bit was dropped, and a waiting loop has its wake-up |
| `EventLoop.StoppedLoopLeaves` | src/bsp/qpc_port/qf_port.c:284-323 | after a complete stop five steps of the loop thread, whatever the others do, take it out of the loop |
| `EventLoop.DispatchFindsAnEvent` | src/bsp/qpc_port/qf_port.c:286-297 | whenever the loop takes an event, the chosen queue holds one: the stop marker is never dispatched |
| `EventLoop.NoEventIsLost` | src/bsp/qpc_port/qf_port.c:284-357 | in every run what was queued and posted to a queue is taken from it or still queued |
| `EventLoop.HighestGoesFirst` | src/bsp/qpc_port/qf_port.c:286-297 | the loop takes from the highest queue that holds an event |
| `EventLoop.QueuedEventIsTaken` | src/bsp/qpc_port/qf_port.c:284-323 | six steps of a running loop take an event if one is queued, whatever others do in between but stop |
| `EventLoop.DestroyedAfterTicker` | src/bsp/qpc_port/qf_port.c:324-336 | mutex and condition variable are destroyed only after the ticker has ended |
| `EventLoop.InsideCallersAreSafe` | src/bsp/qpc_port/qf_port.c:284-357 | with all posts and the stop coming from event handlers and tick callbacks nothing uses the mutex after its destruction |
| `EventLoop.UsedAfterDestroyIff` | src/bsp/qpc_port/qf_port.c:324-357 | from every start some run uses the mutex after its destruction exactly when other threads may post, or may stop: either is enough |
| `EventLoop.OutsidePostCanComeTooLate` | src/bsp/qpc_port/qf_port.c:284-357 | from every start there is a run with a stop from inside in which a post from outside uses the destroyed mutex |
| `EventLoop.OutsideStopCanComeTooLate` | src/bsp/qpc_port/qf_port.c:324-357 | from every start there is a run of five steps in which an outside stop uses the destroyed mutex |

## Left out

- Sockets, TLS, the handshake and its base64 text, back-off, reports, configuration, the audio queue, the bridge transport and the clock synthesiser: foreign calls, or easy members beside the ones here.
- TranscriptAdapter.Adapter.Emit: times are exact real numbers, not rounded; the inference time and the clock an event is sent at are not modelled.
- TranscriptAdapter.Adapter.NoteRevision: the time of the first hypothesis is not rounded.
- TranscriptAdapter.Adapter.Ingest: takes hypotheses after their markers are stripped, and the bounds of the segments after they are found.
- NemotronSession.NemotronSession.constructor: metrics, the source rate and whether the engine is open are not modelled.
- NemotronSession.NemotronSession.RunStep: the engine answers; its exceptions and the metrics of a step are not modelled, and seconds are not rounded.
- NemotronSession.NemotronSession.PushFloat32: samples are real numbers that are only moved; PCM decoding, resampling and metrics are not modelled.
- The block search of the sequence matcher: any tiling alignment is allowed.
- TranscriptRun.SessionShowsEveryWordOnce: for sessions that keep displayed words; for revisions that rewrite them the statements are those of one step (PartialShowsUnseenWords, FinalShowsUnseenWords, KeptWordSide, ShowsOnceIffKept).
- Number tokens: which tokens `strtod` accepts is a parameter; the value is not modelled.
- SessionFields.ParseU32: the two error codes of a refusal are not told apart.
- The cursor position and the contents of destination buffers after a failed scan.
- SessionJson.WalkObject: callbacks move the cursor forward; what the program's own callbacks store is not modelled, only what they read and refuse.
- Json.ParseString: in `FieldHoldsLongestPrefix` the text is assumed well-formed UTF-8; for other bytes only the trimming rule is stated.
- WsClient.Client.PumpRx: what a text message means to the session is an outcome that may depend on everything before; errors it counts itself are not in the counter here, and the time of the last reception is not modelled.
- WsClient.Client.constructor: the receive fields of the client only.
- WsClient.StreamDelivers: a new message starts only when the one before is complete, and no continuation of a fragmented binary frame stands inside a message; failing actions, close frames and refused frames are in FailureStops and CutStreamEnds, other streams in CutsDoNotMatter.
- WsFrame.EncodeFrame: payloads below 2^63 bytes; the `int` return value does not wrap here.
- Ring counters, generations and sequence numbers do not wrap at 32 bits here.
- EventRingRun.EveryInterleaving: one drain at a time, as the program has one consumer; the steps of a drain, of pushes and of invalidations interleave freely.
- NULL arguments and the status codes for them; a drain of at most zero events is an empty drain here.
- Memory-mapped stores are plain stores; coordinates do not overflow 32 bits.
- WrapLines.Wrap: where the program does not end (WrapEndsIff) there are no lines to speak of; negative widths are left out.
- EventLoop.StoppedLoopNeverHangs: a critical section is one step; memory ordering below that, a second call of `QF_stop`, the nesting counter, removed active objects and event contents are left out.
