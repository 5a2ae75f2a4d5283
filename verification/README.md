# Verified model of the airpulse DSL engine and the N-FDL virtual machine

Dafny models of the stateful cores of the repository, with proofs over every input, every
run and every reachable state. `dafny verify dfyconfig.toml` checks everything.

The code that works in place is modelled by classes, arrays and loops whose contracts tie
them to functions on values; the whole-run theorems are about those functions. Where such a
function computes an answer, a relation that does not mention it says which answer is right,
and a lemma proves that it is the one computed: `Correlation.Binds` for bindings,
`Instructions.Does` for instructions, `PredicateIr.Evaluates` and `PredicateCompiler.Denotes`
for predicates, `RuleCascade.Lawful` for cascades, `AdglGrammar.Phrase` for expressions,
`Include.Visits` for includes and `WindowProof.Spans` for windows.

## Event-time engine and store

`EngineModel` gives each call of `engine.rs` as a function on a state of rings, wait
queues, watermark and steps taken. Rule bodies and graph contents are an arbitrary function
of the steps so far; the topology oracle, the anchor predicates and the interner are fixed.
`EngineRuntime.Engine` is the object over `Store.GraphStore`, whose rings and queues are
objects of their own; its calls refine the functions, in offline and live mode, and its
diagnostics are proved to be the account of spills and failed resumes.

* Collection safety crosses three crates: `WindowProof` proves that phase 6 leaves the longest
  forward window as slack, `RuleImage` that this keeps open windows inside the horizon, and
  `EngineSafety` that resuming before collecting therefore loses nothing that was not
  spilled. Saturating arithmetic is modelled exactly, so no bound on times is assumed.
* Streaming equals batch (`EngineStreaming`, `Replay`): the condition is that no event arrives
  behind the watermark. `Replay.ReplayStream` proves it for offline streams in time order, and
  for live streams whose every event is within the disorder bound of the latest time over all
  sources. A bound per source, which is what the engine keeps, is not enough
  (`Replay.SecondSourceFallsBehind`).
* Pruning (`Dedup`, `EnginePruning`, `LateRuns`): pruning the provenance index is invisible
  whatever the bodies infer exactly if no run falls in the window of an earlier one after a
  sweep has passed that window (`LateRuns.PruningInvisibleToEveryBodyIff`). The engine meets
  that as long as no accepted event is older than the collection horizon. Offline ingest does
  not enforce it: in the run of `LateRuns.LateEventDefeatsPruning` one inference takes effect
  twice.

Promises found not to hold of the code as written, with the condition under which they do:

* Confidence mutation is documented as commutative; it is so iff the signs agree or neither
  step clamps (`Dedup.ApplyCommutesIff`).
* Sweeping cooldown entries is invisible for every cooldown except the largest representable
  one (`Dedup.SweepsAreInvisibleIff`).
* Resume order is independent of shard iteration iff no two different due matches compare
  equal, which takes two scopes with one hash (`Waiting.ResumeOrderIrrelevantIff`).
* A run of the virtual machine may be cut anywhere, except where it executes `ReadRest` or an
  unsized slice or, without overflow checks, wraps a slice's end. Instruction by instruction
  these exceptions are exact (`ResumeEquivalence.ExtendsIffNotBufferDependent`).
* The upstream search misses scopes beyond its hop bound, and some within it. It is exact when
  no chain of more distinct scopes than the bound starts at the scope asked about, and whenever
  it says nothing (`Topology.StaticTopology.UpstreamOf`, `Topology.HopBoundMissesNear`).
* Without overflow checks a window start of -2^63 ms passes phase 6 and lowers to nothing
  (`WindowProof.WrappedBackIsLost`, `LoweredIsExactIff`).
* Hexadecimal literals whose digits begin with 0b lose them (`Literals.HexIsExactIff`).

## N-FDL virtual machine

`Bytecode` is the instruction set and its run semantics with 64-bit arithmetic written out.
Integer overflow either panics or wraps, depending on the build; a `checked` flag carries
that choice through every theorem. `Instructions` says what each instruction does in terms of
integers, quotients, digits and bytes. `BytecodeMachine.BytecodeVm` is the object, refining both.

## Predicates

`PredicateIr` is the opcode set with its interpreter, `PredicateCompiler` the compiler from
expression trees. The doc comments of the opcodes speak of short-circuiting; the interpreter
evaluates both operands first, and the model follows the interpreter. Nothing is claimed
about absence of type errors: `present(x) == true` type-checks and fails when it runs.

## Expressions and literals

`AdglLadder` is the recursive descent as functions on tokens, its five binary levels as one
parameterised by the level, and `AdglParser` the object. `AdglGrammar` is a grammar with its
own table of operators, proved to be what the descent reads; `AdglFaults` says where and how a
parse fails. `AdglFormatter` is the printer. `Literals` covers the text of numbers, durations
and strings, `NearMiss` the suggestions.

## Graph searches

`RuleGraph`, `RuleCascade`, `Topology` and `Include`, over the paths of `Digraph`.

## Model

| member | source | states |
|---|---|---|
| `EngineStreaming.StreamingIsBatch` | crates/airpulse_dsl-evaluator/src/engine.rs:318-358 | in any run in which no event arrives behind the watermark, nothing spills and the queues have drained, with distinct rule and event ids and a positive firing budget: each match of the whole history is taken up exactly once; one with a forward window has its body run when resumed, with the bindings of a batch over the whole sorted history of its scope; the others are taken up at once, subject to the event's firing budget, and with strictly later times their bindings are those of a batch too |
| `EngineStreaming.FinishedStreamIsBatch` | crates/airpulse_dsl-evaluator/src/engine.rs:465-476 | the same at the end of `finish` whenever latest time + longest forward window does not saturate |
| `EngineSafety.CollectionIsSafe` | crates/airpulse_dsl-evaluator/src/engine.rs:478-513 | in every reachable state, late events included, the anchor of each pending match and every event ever pushed into one of its windows is in the ring or was dropped by a full ring; needs only what phase 6 establishes |
| `EngineSafety.MissingNeedsSpill` | crates/airpulse_dsl-evaluator/src/engine.rs:488-507 | a resume without its anchor happens only if a full ring dropped that anchor; a resume without its rule never happens |
| `EngineSafety.SuspendedIsConserved` | crates/airpulse_dsl-evaluator/src/engine.rs:486-552 | in every reachable state, for each match: suspended = resumed + spilled + missing anchor + still waiting |
| `EngineSafety.FinishDrainsIff` | crates/airpulse_dsl-evaluator/src/engine.rs:465-476 | the flush empties every queue if and only if no deadline saturated at the end of time; in particular when the latest time plus the longest forward window stays below it |
| `EngineSafety.DrainedAccount` | crates/airpulse_dsl-evaluator/src/engine.rs:465-552 | after a draining flush the account closes without a waiting term, as multisets |
| `EngineSafety.RunIsAlwaysSound` | crates/airpulse_dsl-evaluator/src/engine.rs:318-476 | the invariant of every call order: rings sorted, bounded and covering the lookback, queues ordered and justified by matches, the account balanced |
| `EngineSafety.SettleIsSound` | crates/airpulse_dsl-evaluator/src/engine.rs:354-357 | resuming before collecting keeps the invariant across a watermark jump of any size |
| `EngineMatches.EveryMatchIsTakenUpOnce` | crates/airpulse_dsl-evaluator/src/engine.rs:515-552 | over every run: suspended plus taken up at once are exactly the matches of a batch, and the bodies run for suspended matches are exactly the resumed ones |
| `EngineMatches.AcceptSuspendsOpenMatches` | crates/airpulse_dsl-evaluator/src/engine.rs:534-551 | an accepted event suspends exactly its matches whose deadline lies beyond the new watermark and takes up exactly the others |
| `EngineMatches.WaitsIffForward` | crates/airpulse_dsl-evaluator/src/engine.rs:534-551 | offline and in order, a match waits iff its rule has a correlate that looks forward |
| `EngineMatches.MatchAllWithinBudget` | crates/airpulse_dsl-evaluator/src/engine.rs:525-551 | one event starts at most the firing budget of bodies, however many rules match it |
| `EngineMatches.AllMatchesOnce` | crates/airpulse_dsl-evaluator/src/engine.rs:515-533 | with distinct rule and event ids no match occurs twice |
| `EngineMatches.AllMatchesCount` | crates/airpulse_dsl-evaluator/src/engine.rs:515-533 | the batch finds a match as often as the history and the rules hold an event and a rule of its kind with evidence, correlates and a deadline that is the event time plus the longest forward window of the rule |
| `EngineMatches.BudgetIsExact` | crates/airpulse_dsl-evaluator/src/engine.rs:525-608 | an event starts its closed matches in rule order and refuses exactly those that come when all of the budget is spent |
| `EngineMatches.ResumesInOrder` | crates/airpulse_dsl-evaluator/src/engine.rs:486-513 | due matches resume in the order popped, each with a budget of its own; only those whose anchor or rule is gone are passed over |
| `EngineMatches.FlushIsBehindAll` | crates/airpulse_dsl-evaluator/src/engine.rs:465-476 | the flush goes one millisecond beyond the last event and the longest forward window of the image, saturating |
| `EngineStreaming.ResumesItsOwn` | crates/airpulse_dsl-evaluator/src/engine.rs:488-507 | the rule and event looked up for a pending match are the ones it was suspended for |
| `EngineStreaming.RunIsStreamed` | crates/airpulse_dsl-evaluator/src/engine.rs:318-358 | from the collection horizon on every ring equals its scope's sorted log, and every closed run keeps its batch bindings as later events arrive |
| `EnginePruning.PruningIsInvisibleToTheEngine` | crates/airpulse_dsl-evaluator/src/engine.rs:478-481 | if no accepted event is older than the horizon it meets, the pruned provenance index decides every inference of the run like a never-pruned one, so each key takes effect at its first inference only |
| `EnginePruning.CooldownHoldsInTheEngine` | crates/airpulse_dsl-evaluator/src/engine.rs:1340-1346 | in every run sweeping the cooldown index changes no emission, and a problem goes out iff every earlier one of its key that went out is more than the cooldown away |
| `EnginePruning.DoAscends` | crates/airpulse_dsl-store/src/store.rs:71-74 | the watermark never regresses, and runs and sweeps happen at ascending watermarks |
| `Correlation.ScanCandidates` | crates/airpulse_dsl-evaluator/src/engine.rs:700-729 | the early-exit candidate loop computes the declarative rule of `EngineModel.Decide` over all candidates |
| `Correlation.ResolveOneBinds` | crates/airpulse_dsl-evaluator/src/engine.rs:615-729 | what a correlate binds, by indices of the ring itself: of the events of its kind other than the anchor in its saturating inclusive window, the earliest the topology relates iff the minimum count (at least one) is reached; otherwise Unknown iff the topology leaves one of them open; otherwise nothing. Likewise for graph nodes; nothing for a window that is not calculable |
| `Correlation.BindingsAreBindings` | crates/airpulse_dsl-evaluator/src/engine.rs:615-731 | the bindings of a body are the anchor followed by what each correlate in turn binds given those before it |
| `Correlation.ResolveBindings` | crates/airpulse_dsl-evaluator/src/engine.rs:615-731 | the binding loop over a ring binds those, which is the specification used by the streaming theorem |
| `EngineRuntime.Engine.Ingest` | crates/airpulse_dsl-evaluator/src/engine.rs:318-358 | an event is dropped, into the side output, iff the engine is live and the event lies beyond the allowed lateness; otherwise the call is the model's `Accept` at the event's time offline, and live at the least local watermark of the sources that are not idle after hearing from this one |
| `EngineRuntime.Engine.AdvanceWatermark` | crates/airpulse_dsl-evaluator/src/engine.rs:456-460 | the model's `Advance`: monotone watermark, resume sweep, collection |
| `EngineRuntime.Engine.Finish` | crates/airpulse_dsl-evaluator/src/engine.rs:465-476 | the model's `Finish`, once |
| `EngineRuntime.Engine.ResumeExpired` | crates/airpulse_dsl-evaluator/src/engine.rs:486-512 | pops every queue, then resumes one by one as `EngineModel.ResumeAll`; what is popped is exactly what is due |
| `EngineRuntime.Engine.MatchAnchors` | crates/airpulse_dsl-evaluator/src/engine.rs:515-552 | the rule loop with one shared budget is `EngineModel.MatchAll` |
| `EngineRuntime.Engine.AdvanceLive` | crates/airpulse_dsl-evaluator/src/engine.rs:362-398 | the watermark target is the least local watermark of the sources that are not idle, or the old watermark if all are |
| `EngineRuntime.LiveTarget` | crates/airpulse_dsl-evaluator/src/engine.rs:376-396 | the minimum over the sources whatever their order |
| `EngineRuntime.OneMore` | crates/airpulse_dsl-evaluator/src/engine.rs:488-507 | each diagnostic is one entry of the account of spills and failed resumes |
| `Replay.ReplayStream` | crates/airpulse_dsl-evaluator/tests/properties.rs:52-70 | feeding any stream to a fresh engine and flushing it, offline or live: if each event came within the mode's disorder bound of the latest time over all sources (offline: in order), ids are distinct, the diagnostics report no spill and the flush does not saturate, the batch's matches are taken up with the batch's bindings; no event is dropped offline, nor live within the bound with a positive allowed lateness |
| `Replay.SecondSourceFallsBehind` | crates/airpulse_dsl-evaluator/src/engine.rs:362-398 | a live engine accepts an event behind its watermark although every source sends in order |
| `Replay.RunIsDeterministic` | crates/airpulse_dsl-evaluator/tests/properties.rs:122-147 | the same calls give the same state in whatever order the store's shards iterate, when no two of the scopes that occur in the calls share a hash |
| `Ring.RingBuffer.PushEvent` | crates/airpulse_dsl-store/src/ring.rs:76-96 | front drop when full, then insertion at the partition point, as the function `Ring.Push`; order and capacity survive |
| `Ring.PushKeepsOrder` | crates/airpulse_dsl-store/src/ring.rs:76-96 | a push keeps the buffer sorted and bounded, loses exactly the reported event and keeps every other one |
| `Ring.InsertIsStable` | crates/airpulse_dsl-store/src/ring.rs:90-94 | an event goes after every buffered one that is not later and before every later one: arrival order breaks ties |
| `Ring.SpillIsOldest` | crates/airpulse_dsl-store/src/ring.rs:77-88 | a full ring drops its oldest event and keeps the new one even when that is older |
| `Ring.RingBuffer.ScanWindow` | crates/airpulse_dsl-store/src/ring.rs:101-116 | the skip-and-take scan is exactly the buffered events with time in the inclusive window, in order |
| `Ring.RingBuffer.Gc` | crates/airpulse_dsl-store/src/ring.rs:130-142 | keeps exactly the events at or after watermark minus lookback |
| `Ring.RingBuffer.Get` | crates/airpulse_dsl-store/src/ring.rs:119-121 | finds an event with that id iff there is one |
| `Ring.InsertThenFrom` | crates/airpulse_dsl-store/src/ring.rs:76-142 | collecting before an insertion or only after it leaves the same events from the horizon on |
| `Ring.SliceIsBetween` | crates/airpulse_dsl-store/src/ring.rs:101-116 | on a sorted ring the window is one slice between the two partition points |
| `Waiting.WaitQueue.PushPending` | crates/airpulse_dsl-store/src/waitqueue.rs:72-105 | bounded push with spill computes `Waiting.Bounded` |
| `Waiting.BoundedKeepsTheLeast` | crates/airpulse_dsl-store/src/waitqueue.rs:72-105 | kept plus dropped is old plus new, the dropped entry is at least every kept one, and something is dropped iff the queue was full |
| `Waiting.WaitQueue.PopExpired` | crates/airpulse_dsl-store/src/waitqueue.rs:117-129 | pops exactly the prefix whose windows have closed and leaves the rest |
| `Waiting.PopIsExact` | crates/airpulse_dsl-store/src/waitqueue.rs:117-129 | popped and kept entries split the queue at `upper_bound < wm`, both in order |
| `Waiting.OrderIsAntisymmetric` | crates/airpulse_dsl-ir/src/image.rs:178-186 | entries that compare equal are equal, once scopes with equal hashes are |
| `Waiting.OrderIsLexicographic` | crates/airpulse_dsl-ir/src/image.rs:178-186 | pending matches compare by upper bound, then rule, then anchor, then scope hash |
| `Waiting.SweepIsPop` | crates/airpulse_dsl-store/src/store.rs:136-143 | gathering the shards in any order and sorting yields, in order, each due entry as often as its queue holds it |
| `Waiting.ResumeOrderIrrelevantIff` | crates/airpulse_dsl-store/src/store.rs:136-143 | every iteration order of the shards gives the same resume order iff no two different due matches compare equal |
| `Waiting.SweepOrderIsUnique` | crates/airpulse_dsl-store/src/store.rs:136-143 | without such ties there is one order in which a sweep can resume |
| `Store.GraphStore.PushEvent` | crates/airpulse_dsl-store/src/store.rs:80-87 | touches only the event's ring, created on first use |
| `Store.GraphStore.SuspendMatch` | crates/airpulse_dsl-store/src/store.rs:121-128 | touches only the match's queue, created on first use |
| `Store.GraphStore.PopExpired` | crates/airpulse_dsl-store/src/store.rs:136-143 | empties every queue of exactly its due entries and returns them sorted |
| `Store.GraphStore.Gc` | crates/airpulse_dsl-store/src/store.rs:151-163 | every ring keeps exactly its events from the horizon on, and the count returned is that of the events older than it |
| `Store.GraphStore.AdvanceWatermark` | crates/airpulse_dsl-store/src/store.rs:71-74 | the maximum of old and new |
| `EventTime.OpenWindowIsKept` | crates/airpulse_dsl-types/src/time.rs:22-40 | a window of back + forward <= lookback that is still open starts inside the collection horizon, saturation included |
| `Dedup.PruningInvisibleIff` | crates/airpulse_dsl-store/src/subgraph.rs:263-272 | over any run, pruning changes no provenance decision iff no key is inferred again after a prune passed its window |
| `Dedup.OncePerWindow` | crates/airpulse_dsl-store/src/subgraph.rs:185-187 | inferences above every earlier horizon take effect exactly at the first occurrence of their key |
| `LateRuns.PruningInvisibleToEveryBodyIff` | crates/airpulse_dsl-evaluator/src/engine.rs:478-481 | over the trace of any run, pruning is invisible whatever the bodies infer iff no run falls in the window of an earlier run after a sweep has passed that window |
| `LateRuns.LateEventDefeatsPruning` | crates/airpulse_dsl-evaluator/src/engine.rs:318-358 | a legal offline run of three events, on rules that phase 6 accepts, in which an inference already made takes effect again |
| `LateRuns.ReopeningShows` | crates/airpulse_dsl-store/src/subgraph.rs:263-272 | a run that reopens a window makes a pruned and a full index decide differently for a body that infers whenever it runs |
| `Dedup.WindowsAreOrdered` | crates/airpulse_dsl-store/src/subgraph.rs:30-33 | window ids grow with time, also below zero |
| `Dedup.WindowHolds` | crates/airpulse_dsl-store/src/subgraph.rs:30-33 | the window id of a time is k iff the k-th window of the dedup length, at least one millisecond, holds that time, also below zero |
| `Dedup.SweepsAreInvisibleIff` | crates/airpulse_dsl-store/src/subgraph.rs:239-245 | sweeping the cooldown index is invisible in every run with a monotone watermark iff the cooldown is below the largest duration |
| `Dedup.EmissionsAreSpaced` | crates/airpulse_dsl-store/src/subgraph.rs:205-229 | an emission goes out iff every earlier one of its key that went out lies more than the cooldown back |
| `Dedup.SubGraph.TryMarkEmitted` | crates/airpulse_dsl-store/src/subgraph.rs:205-229 | goes out iff no entry of the key is within the cooldown, and then replaces the entries of the key by the new one |
| `Dedup.SubGraph.TryInsertProvenance` | crates/airpulse_dsl-store/src/subgraph.rs:185-187 | true iff the key was new; the key is in the index afterwards |
| `Dedup.SubGraph.PruneProvenance` | crates/airpulse_dsl-store/src/subgraph.rs:263-272 | keeps exactly the keys from the horizon's window on |
| `Dedup.SubGraph.PruneEmitted` | crates/airpulse_dsl-store/src/subgraph.rs:239-245 | keeps exactly the entries not older than watermark minus cooldown |
| `Dedup.ApplyCommutesIff` | crates/airpulse_dsl-types/src/confidence.rs:47-62 | two confidence mutations commute iff their signs agree or neither clamps alone |
| `WindowProof.TemporalBounds` | crates/airpulse_dsl-verify/src/lib.rs:661-708 | one finding for each rejected clause, in order and of the right kind, so none iff every clause is well formed, calculable and within the lookback less the longest forward window of the ruleset; panics iff some offset overflows in a checked build |
| `WindowProof.AcceptedMeans` | crates/airpulse_dsl-verify/src/lib.rs:661-708 | a clause is accepted iff it probes the time of its own binding and its window, widened by the longest forward window of the ruleset, fits the lookback on either side |
| `WindowProof.SlackIsLongest` | crates/airpulse_dsl-verify/src/lib.rs:2158-2181 | that longest forward window is attained by a calculable clause, and no clause exceeds it |
| `WindowProof.OffsetIff` | crates/airpulse_dsl-verify/src/lib.rs:2183-2211 | an offset is calculable iff the expression is the anchor time plus or minus durations and, in checked builds, nothing leaves 64 bits on the way; a checked build panics iff something does |
| `WindowProof.AcceptedIsWithinLookback` | crates/airpulse_dsl-verify/src/lib.rs:661-708 | an accepted ruleset lowers to windows with back + slack and forward + slack within the lookback: the premise of `CollectionIsSafe` |
| `WindowProof.SameForward` | crates/airpulse_dsl-verify/src/lib.rs:2158-2181 | the verifier's slack is the engine's flush bound |
| `WindowProof.MaxForwardWindow` | crates/airpulse_dsl-verify/src/lib.rs:2158-2181 | the fold computes the longest calculable forward window |
| `WindowProof.OffsetMeaning` | crates/airpulse_dsl-verify/src/lib.rs:2183-2211 | a calculable expression denotes the anchor time plus its written offset, for every anchor time; the computed offset is that one wrapped to 64 bits |
| `WindowProof.LoweredIsExactIff` | crates/airpulse_dsl-verify/src/lib.rs:1223-1231 | the lowered window starts and ends where the clause says, for every anchor time, iff both written offsets fit |
| `WindowProof.CheckedWindowsAreExact` | crates/airpulse_dsl-verify/src/lib.rs:2149-2156 | in builds that panic on overflow every calculable window lowers to the written one, wherever the anchor is |
| `WindowProof.WrappedBackIsLost` | crates/airpulse_dsl-verify/src/lib.rs:2149-2156 | without overflow checks a start of -2^63 ms is accepted and lowers to a window without a past |
| `RuleImage.OpenWindows` | crates/airpulse_dsl-ir/src/rule.rs:144-180 | windows of an open match, of any rule of the image, start inside the lookback horizon |
| `RuleImage.OpenAnchor` | crates/airpulse_dsl-ir/src/rule.rs:144-180 | so does the anchor of an open match |
| `ResumeEquivalence.ResumeEquivalence` | crates/nfdl-bytecode/src/lib.rs:398-419 | for every program without `ReadRest` and unsized slices, in either build, and every cutting of the input: if no slice of the run on the whole input wraps its end past 64 bits, chunk-by-chunk resumption ends as that run does: same outcome, slots, cursor, emitted fields and loops; each resumption counts one instruction more |
| `ResumeEquivalence.ResumeEquivalenceByBuild` | crates/nfdl-bytecode/src/lib.rs:398-419 | so it holds in every build with overflow checks, and in one without them whenever the checked run on the whole input does not panic |
| `ResumeEquivalence.CheckedRunDecides` | crates/nfdl-bytecode/src/lib.rs:541-584 | a run whose checked twin does not panic never wraps a slice's end, and both builds end alike |
| `ResumeEquivalence.RunExtends` | crates/nfdl-bytecode/src/lib.rs:421-709 | a run that wraps no slice's end, finished, stays finished with that state on any longer input; suspended, it is a prefix of the longer run |
| `ResumeEquivalence.ChunksMissTheLimit` | crates/nfdl-bytecode/src/lib.rs:431-437 | under the same condition chunking meets the instruction limit only within one instruction per chunk of it |
| `ResumeEquivalence.ExtendsIffNotBufferDependent` | crates/nfdl-bytecode/src/lib.rs:462-584 | `ReadRest` and unsized slices are exactly the instructions that some further bytes change in some state that does not wrap; counting states that wrap, sized slices join them in builds without overflow checks |
| `ResumeEquivalence.BufferDependentProgramsBreak` | crates/nfdl-bytecode/src/lib.rs:541-584 | `ReadRest` and, without overflow checks, a wrapping slice length break resume equivalence |
| `ResumeEquivalence.BytesNeededIsExact` | crates/nfdl-bytecode/src/lib.rs:462-574 | `bytes_needed` is the least number of further bytes that lets the frozen read execute; fewer suspend it again at the same place |
| `ResumeEquivalence.RunKeepsStreamInv` | crates/nfdl-bytecode/src/lib.rs:421-709 | in stream runs the cursor never passes the input |
| `ResumeEquivalence.DatagramAgrees` | crates/nfdl-bytecode/src/lib.rs:383-404 | a stream run that does not stop for bytes is also the datagram run |
| `ResumeEquivalence.DatagramNeverSuspends` | crates/nfdl-bytecode/src/lib.rs:383-397 | datagram runs never ask for bytes |
| `BytecodeMachine.BytecodeVm.Interpret` | crates/nfdl-bytecode/src/lib.rs:421-709 | the interpreter loop executes a chain of steps each of which does what its instruction says (`Instructions.Executes`), and is `Bytecode.Run` on the state |
| `BytecodeMachine.BytecodeVm.ReadBits` | crates/nfdl-bytecode/src/lib.rs:325-348 | the byte-wise loop returns the next n bits as a big-endian number and moves the cursor by n |
| `BytecodeMachine.BytecodeVm.Execute` | crates/nfdl-bytecode/src/lib.rs:447-706 | each opcode does to the object what `Instructions.Does` says in terms of integers, quotients, binary digits and big-endian bytes |
| `BytecodeMachine.ErrorsAreExplained` | crates/nfdl-bytecode/src/lib.rs:421-709 | a run ends with a constraint error only at a validation in the program whose slot is zero, and with a limit error only with that limit exceeded |
| `Instructions.YieldsIsEvalBinary` | crates/nfdl-bytecode/src/lib.rs:601-675 | the value of a binary operation, both ways: sums and products modulo 2^64 or a panic, differences down to zero, quotient and remainder with zero for a zero divisor, relations and connectives as 0 or 1, bitwise operations digit by digit, shifts as multiplication and division by a power of two |
| `Instructions.UnaryYieldsIsEvalUnary` | crates/nfdl-bytecode/src/lib.rs:441-456 | negation modulo 2^64, complement and the test for zero |
| `Instructions.DoesIsExec` | crates/nfdl-bytecode/src/lib.rs:447-706 | a step is the one `Bytecode.Exec` takes iff it does what the instruction says: values, cursor, loops, fields, panics and suspensions |
| `Instructions.ExecutesIsRun` | crates/nfdl-bytecode/src/lib.rs:421-709 | a run ends as `Bytecode.Run` does iff it is a chain of such steps, within the instruction limit |
| `BytecodeMachine.BytecodeVm.RunStream` | crates/nfdl-bytecode/src/lib.rs:398-407 | a fresh stream run is the model's run from zeroed counters |
| `BytecodeMachine.BytecodeVm.Resume` | crates/nfdl-bytecode/src/lib.rs:409-419 | a restored continuation with more bytes is the model's run from the frozen instruction |
| `BitCursor.ReadBitsCompose` | crates/nfdl-bytecode/src/lib.rs:325-348 | reading m then n bits is reading m + n bits, cursor and value, below 2^64 |
| `BitCursor.ReadBitsIsReadFixed` | crates/nfdl-bytecode/src/lib.rs:462-540 | an aligned bit read of 8 to 32 bits is the big-endian byte read |
| `BitCursor.BitsRange` | crates/nfdl-bytecode/src/lib.rs:325-348 | n bits are below 2^n |
| `BitCursor.SliceIsBigEndian` | crates/nfdl-bytecode/src/lib.rs:541-584 | a slice of at most eight bytes is its big-endian number |
| `PredicateCompiler.CompilerCorrect` | crates/airpulse_dsl-verify/src/lib.rs:1503-1514 | whenever compilation is clean, the code answers what the expression denotes: relations compare integers, sums, differences and products are exact or overflow, division truncates, `and` and `or` are least and greatest truth, an unknown operand leaves a relation Unknown, and the first error from the left is the error; the code is in single assignment and its last register is the result |
| `PredicateCompiler.DenotesIsMeaning` | crates/airpulse_dsl-verify/src/lib.rs:1534-1777 | `Meaning` is the one evaluation that satisfies the relation between an expression and its value, which has its own account of every operator |
| `PredicateCompiler.CleanIffFits` | crates/airpulse_dsl-verify/src/lib.rs:1516-1532 | compilation is clean iff the expression is supported and fits 16 registers |
| `PredicateCompiler.SupportedCompiles` | crates/airpulse_dsl-verify/src/lib.rs:1521-1532 | a supported expression that does not fit reports exactly one exhaustion per missing register |
| `PredicateCompiler.CompiledIsSupported` | crates/airpulse_dsl-verify/src/lib.rs:1534-1777 | only supported expressions compile to a register |
| `PredicateCompiler.FaultIsReported` | crates/airpulse_dsl-verify/src/lib.rs:1534-1777 | with registers to spare, an unsupported expression yields none and the diagnostic of its first fault |
| `PredicateCompiler.CodeIsSingleAssignment` | crates/airpulse_dsl-verify/src/lib.rs:1534-1777 | every op writes the next fresh register and reads only earlier ones |
| `PredicateCompiler.CompileExpr` | crates/airpulse_dsl-verify/src/lib.rs:1534-1777 | the recursive compiler over a shared allocator emits the code and the diagnostics of `PredicateCompiler.Compile`, to which the laws of this section apply |
| `PredicateCompiler.CompileToPredicate` | crates/airpulse_dsl-verify/src/lib.rs:1503-1514 | the predicate of a clean compilation answers what the expression denotes in every context; the diagnostics are those of `CompilePredicate` |
| `PredicateIr.EvalPredicate` | crates/airpulse_dsl-evaluator/src/predicate.rs:164-343 | the interpreter loop over the slot array answers `PredicateIr.Eval`, which is what `Evaluates` relates to the predicate |
| `PredicateIr.GivesIsOpValue` | crates/airpulse_dsl-evaluator/src/predicate.rs:164-343 | the value or error of each opcode, both ways: integer relations and arithmetic with overflow and truncation, the three-valued connectives, loads, presence and topology |
| `PredicateIr.EvaluatesIsEval` | crates/airpulse_dsl-evaluator/src/predicate.rs:59-343 | a predicate evaluates to exactly the answer that its opcodes give one after the other, the first error ending it |
| `PredicateIr.UnknownIsSound` | crates/airpulse_dsl-evaluator/src/predicate.rs:164-343 | a definite answer survives any refinement of Unknown bindings and topology answers, and any growth of the interner, that evaluates without error |
| `PredicateIr.RunMonotone` | crates/airpulse_dsl-types/src/t3.rs:28-55 | evaluation is monotone in the information order, register by register |
| `PredicateIr.RefinementMayFail` | crates/airpulse_dsl-evaluator/src/predicate.rs:59-159 | a refinement can turn a definite answer into an error |
| `AdglFormatter.RoundTrip` | crates/ndsl-fmt/src/adgl.rs:583-645 | for every well-formed tree, every parent precedence and every following token that cannot continue an expression, parsing the printed tokens returns that tree and leaves exactly the rest |
| `AdglFormatter.PrintIsInjective` | crates/ndsl-fmt/src/adgl.rs:583-645 | two trees printed alike are the same tree, whatever the precedences |
| `AdglFormatter.WellFormedIffProducible` | crates/airpulse_dsl-syntax/src/parser.rs:2049-2374 | the well-formed trees are exactly those the parser can return |
| `AdglFormatter.PrintedIsLexed` | crates/ndsl-fmt/src/adgl.rs:583-645 | printing yields only tokens the lexer can yield, and of the two spellings of an operator the printer's own |
| `AdglFormatter.ParensWhereNeeded` | crates/ndsl-fmt/src/adgl.rs:583-645 | an operand is printed in parentheses iff it could not stand there without, or is a `!` that is the operand of `!` or the right operand of a product |
| `AdglEmitter.Emitter.EmitExpr` | crates/ndsl-fmt/src/adgl.rs:583-645 | appends exactly the expression's tokens to what is already written |
| `AdglParser.ParserState.ParseExpr` | crates/airpulse_dsl-syntax/src/parser.rs:2050-2053 | the recursive descent returns a tree and stops iff the grammar reads the tokens consumed as that tree and the next token cannot continue it; it fails iff there is no such reading, with the error that some misplaced token calls for |
| `AdglParser.ParserState.ParseBinary` | crates/airpulse_dsl-syntax/src/parser.rs:2055-2191 | each binary level with its left-associative loop is that level of the ladder on token sequences |
| `AdglFaults.FailureIsMisplaced` | crates/airpulse_dsl-syntax/src/parser.rs:1949-2374 | a failed parse stops at a token that cannot stand behind those before it, and its error is the one for what is due there: a name, an operand, or what continues or closes one |
| `AdglGrammar.ReadsExactly` | crates/airpulse_dsl-syntax/src/parser.rs:2049-2374 | the ladder returns a tree and a rest iff the grammar, with its own table of spellings and ranks, derives the tree from the tokens before the rest and the rest cannot continue it |
| `AdglGrammar.OneReading` | crates/airpulse_dsl-syntax/src/parser.rs:2049-2374 | the grammar is unambiguous |
| `Literals.DurationRoundTrip` | crates/ndsl-fmt/src/adgl.rs:537-549 | every duration in milliseconds reads back as itself, whatever unit was chosen |
| `Literals.DurationIsLeast` | crates/ndsl-fmt/src/adgl.rs:537-549 | of all ways to write a duration as a whole number of minutes, seconds or milliseconds the one with the least number is printed |
| `Literals.DecimalIsPlain` | crates/ndsl-fmt/src/adgl.rs:537-549 | numbers are printed as their digits without leading zeros |
| `Literals.IntegerRoundTrip` | crates/airpulse_dsl-syntax/src/parser.rs:728-834 | every non-negative integer reads back as itself |
| `Literals.NumberMeans` | crates/airpulse_dsl-syntax/src/parser.rs:728-834 | a number reads as what its digits denote in its radix, underscores skipped, times its unit; out of range iff digits are missing or denote more than 64 signed bits hold |
| `Literals.StringRoundTrip` | crates/ndsl-fmt/src/adgl.rs:525-535 | every string reads back as itself, whatever follows its closing quote |
| `Literals.EscapedIsShortest` | crates/ndsl-fmt/src/adgl.rs:525-535 | no spelling of a string is shorter than the printed one, so only quotes and backslashes are escaped |
| `Literals.TextMeans` | crates/airpulse_dsl-syntax/src/parser.rs:836-911 | a string literal reads as a text iff it spells it piece by piece, escapes included, up to a closing quote |
| `Literals.FailureMeans` | crates/airpulse_dsl-syntax/src/parser.rs:836-911 | it fails with an error iff it breaks off with that error after some spelled text |
| `Literals.HexIsExactIff` | crates/airpulse_dsl-syntax/src/parser.rs:769-781 | with either prefix, a hexadecimal literal in range reads as its value iff its digits do not begin with 0b or 0B |
| `Literals.HexLosesDigits` | crates/airpulse_dsl-syntax/src/parser.rs:769-781 | 0x0b1 is 177 and reads as 1 |
| `Literals.LexNumberOrDuration` | crates/airpulse_dsl-syntax/src/parser.rs:728-834 | the scanning loop and unit choice |
| `Literals.LexString` | crates/airpulse_dsl-syntax/src/parser.rs:836-911 | the escape loop reads what `Literals.Unquote` says, errors included |
| `Literals.EmitStringLit` | crates/ndsl-fmt/src/adgl.rs:525-535 | appends the quoted, escaped text |
| `NearMiss.Levenshtein` | crates/airpulse_dsl-syntax/src/parser.rs:261-284 | the two-row loop computes the recursive edit distance |
| `NearMiss.DistanceIsFewestEdits` | crates/airpulse_dsl-syntax/src/parser.rs:261-284 | that distance is the least number of single-character insertions, deletions and replacements |
| `NearMiss.Triangle` | crates/airpulse_dsl-syntax/src/parser.rs:261-284 | triangle inequality |
| `NearMiss.Symmetric` | crates/airpulse_dsl-syntax/src/parser.rs:261-284 | symmetry |
| `NearMiss.ZeroIffEqual` | crates/airpulse_dsl-syntax/src/parser.rs:261-284 | zero iff equal |
| `NearMiss.SuggestNearMiss` | crates/airpulse_dsl-syntax/src/parser.rs:287-308 | no suggestion iff there is no candidate at distance 1 or 2; otherwise the one of least distance, the shortest on ties, the first of those |
| `RuleGraph.HasCycle` | crates/airpulse_dsl-verify/src/lib.rs:2235-2243 | true iff the graph has a directed cycle; otherwise all nodes have a topological order |
| `RuleGraph.DfsCycle` | crates/airpulse_dsl-verify/src/lib.rs:2245-2257 | three-colour step on the state array: grey nodes are the path, black ones are ordered |
| `RuleGraph.AcyclicWalkIsShort` | crates/airpulse_dsl-verify/src/lib.rs:764-813 | walks of an accepted ruleset repeat no rule and are at most as long as the ruleset |
| `RuleCascade.Accepts` | crates/airpulse_dsl-verify/src/lib.rs:764-813 | phase 8 accepts iff no rule can trigger itself through what it infers and emits |
| `RuleCascade.RunRoot` | crates/airpulse_dsl-evaluator/src/engine.rs:570-608 | for any ruleset and whatever each body decides from its call chain and the firings so far: the bodies run, their call chains and the refusals are exactly those of a derivation in which every body offers each of its statements to every rule in order, one unit of budget to a body; if the ruleset was accepted no call chain re-enters a rule |
| `RuleCascade.EveryWokenRuleRuns` | crates/airpulse_dsl-evaluator/src/engine.rs:1170-1194 | while the budget lasts, each decision rule anchored on what a body infers or emits runs, called from that body, if it is so decided |
| `RuleCascade.OnlyWokenRulesRun` | crates/airpulse_dsl-evaluator/src/engine.rs:1170-1194 | every other body was offered to the rule that called it and decided |
| `RuleCascade.Cascade.RunRule` | crates/airpulse_dsl-evaluator/src/engine.rs:570-608 | each body costs one unit or is refused, offers its statements in order, twice to what it infers, and call chains follow the trigger graph |
| `RuleCascade.Cascade.ReEvaluate` | crates/airpulse_dsl-evaluator/src/engine.rs:1170-1194 | the decision rules anchored on what was inferred or emitted are re-evaluated, all of them in rule order and no others |
| `Topology.StaticTopology.UpstreamOf` | crates/airpulse_dsl-evaluator/src/topology.rs:301-330 | Unknown iff the scopes differ and one is unknown. Without a diagnostic the answer is exactly reachability; a cycle diagnostic means a cycle, a hop diagnostic a chain of more than max_hops + 1 distinct scopes, True a chain of at most max_hops + 1 edges. Without such a long chain answer and diagnostics are exact; with a scope beyond the bound False is never silent; a direct neighbour is found unless there is a cycle |
| `Topology.StaticTopology.Query` | crates/airpulse_dsl-evaluator/src/topology.rs:219-235 | True iff equal or related in some order, Unknown iff distinct, unrelated and one is unknown |
| `Topology.StaticTopology.Relate` | crates/airpulse_dsl-evaluator/src/topology.rs:164-170 | relates exactly that pair, in both directions |
| `Topology.ExhaustiveIsExact` | crates/airpulse_dsl-evaluator/src/topology.rs:237-268 | a search without hop overrun finds the target iff it is reachable and a cycle iff the region has one; a scope beyond the bound forces an overrun |
| `Topology.UpstreamSearch.Dfs` | crates/airpulse_dsl-evaluator/src/topology.rs:237-268 | the path and done sets of the depth-first search |
| `Topology.HopBoundHides` | crates/airpulse_dsl-evaluator/src/topology.rs:237-330 | the hop bound can hide a reachable upstream |
| `Topology.HopBoundMissesNear` | crates/airpulse_dsl-evaluator/src/topology.rs:237-330 | it can even hide one within max_hops + 1 edges, since a scope met first at the end of its hops is not searched again |
| `Include.LoadRuleset` | crates/airpulse_dsl-syntax/src/include.rs:57-145 | succeeds iff no include cycle is reachable and every reachable file is readable; then emits each reachable file's rules once, after those of the files it includes, the entry last, opening files in the order of the include lines. A cycle error carries a reachable cycle that passes no file twice |
| `Include.Loader.Expand` | crates/airpulse_dsl-syntax/src/include.rs:89-145 | one file's expansion: memoised, cycle-checked against the stack, its includes visited in order |

## Left out

- Rule bodies: cause and problem nodes, roll-up, ambiguity synthesis, actions and SARIF are an arbitrary function of the steps so far; the cascade they start is `RuleCascade`, the indices they consult `Dedup`.
- The scope interner is fixed during an engine run; in the source it grows, which can turn an Unknown topology answer into a definite one. `PredicateIr.UnknownIsSound` allows for that.
- EngineRuntime.Engine.Ingest: without the audit that offline ingest makes of evidence resolved as absent earlier, which only adds diagnostics.
- Store.GraphStore.Gc: without the provenance prune of the same call, which is `Dedup.SubGraph.PruneProvenance`; the graph partitions are not part of `GraphStore`.
- Topology.StaticTopology.UpstreamOf: where a chain of more distinct scopes than the bound starts at the scope asked about but every scope lies within the bound, only `Topology.SearchFrom` says what is found, because it depends on the visiting order.
- The resolved-absent list, and the engine diagnostics about predicates and targets: they only add diagnostics.
- Hash functions (scope hash, provenance key mixing, string keys): uninterpreted.
- Locks, atomics and threads: the engine takes exclusive access; the shard maps are maps with an arbitrary iteration order.
- The standard library's binary heap: represented by the ascending sequence in which it pops.
- The rule index of the program image: rules are filtered in declaration order instead of looked up.
- EngineStreaming.StreamingIsBatch: graph-sourced correlates are compared at equal graph state only, because that state depends on when bodies run.
- A rule's stored forward bound is recomputed from its correlates, which is how lowering attaches it; hand-built images could disagree.
- Text-level lexing of whole expressions, comments, layout and the nesting limit of 64: the printer and parser meet at tokens; only literals are covered as text.
- Whole-ruleset formatting: comments are floated, and a window probe is printed at a precedence at which it is not parsed.
- Type checking and capability, scope and exclusivity phases of the verifier: no theorem beyond their own case analysis.
- File reading and path canonicalisation: a file system is a finite map from paths to includes and rules; re-composing the entry's text is concatenation of rules.
- NearMiss.SuggestNearMiss: takes the found text already trimmed, and candidate lengths in characters, which for the static ASCII candidates is their length in bytes.
- Literals.DurationRoundTrip: negative durations, which no parse can produce, are not printed as text here.
- Include.LoadRuleset: where several includes fail, any of the failures may be the one reported.
- AdglFaults.FailureIsMisplaced: does not say that the misplaced token is the first one, nor which bracket is open there.
- N-FDL parser, state machines and reassembly: not part of this model.
