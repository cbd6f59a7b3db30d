# Verified models of kona

Dafny models, with proofs, of the parts of kona (a Rust implementation of the OP Stack) whose correctness depends on
state kept over many calls. `dafny verify dfyconfig.toml` checks all of it.

Seven parts are modelled:

- **Derivation.** The loop that pulls payloads from the derivation pipeline, executes them, retries a failing payload
  with its deposits only, and commits blocks to a shared cursor (`Cursor`, `Driver`, `DriverProtocol`,
  `DriverTheorems`, `DriverBlocks`, `DriverExhaustion`, `DriverLoop`). The pipeline and the executor answer with
  arbitrary functions of the whole call history, so a statement for every environment covers every behaviour, stateful
  or failing, that they can show. The history itself is a trace of calls; the theorems speak about every trace of every
  run.
- **Fault-proof programs.** The interop program with its 127-step transition between super roots and its message
  consolidation, and the single-chain program (`PreStates`, `Consolidation`, `Replacements`, `Interop`,
  `InteropTheorems`, `InteropExhaustion`, `SingleChain`). Both run the derivation model, set up as in `ProofRun`.
- **Block gossip.** Topics, block validation and the pruned cache of seen blocks (`Gossip`, `GossipTheorems`).
- **Dialing.** The connection gate and the dial path through it, under any sequence of dials, closed connections and
  admin operations (`Gater`, `GaterTheorems`, `DialBursts`, `Prefixes`).
- **Attributes matching.** Whether an existing block is the one that payload attributes ask for (`AttributesMatch`).
- **Node records.** The OP Stack entry of an ENR with its varints and RLP, and the `enode://` text form (`Enr`,
  `RlpStrings`, `NodeRecord`, `Text`).
- **The boot store.** The bounded queue of known peers (`BootStore`).

Code that updates objects in place is modelled by classes whose methods are proved equal to functions on the object's
value (`Cursor.PipelineCursor`, `DriverLoop.DerivationDriver`, `Gossip.BlockHandler`, `Gater.ConnectionGater`,
`Consolidation.SuperchainConsolidator`, `BootStore.Store`); the theorems about runs are about those functions.
Hashing, signature recovery, payload and transaction decoding, the EVM, the oracle and the clock are parameters:
functions or readings without assumed properties, except where a lemma names the assumption in a `requires` clause.

## Where the code differs from its documentation

The models follow the code.

- `advance_to_target` with no target is documented to return the final head once data runs out
  (crates/proof/driver/src/core.rs:202-205). It never returns a head: `DriverTheorems.NoTargetNeverSucceeds`,
  `DriverTheorems.NoTargetSpins`; `DriverExhaustion.HaltsIffTarget` gives the exact condition.
- At the end of the source the driver asks whether interop is active with the safe head's block number
  (crates/proof/driver/src/core.rs:241-243), where `is_interop_active` takes a timestamp
  (crates/protocol/genesis/src/rollup.rs:315-317). The comments promise that in interop mode the caller handles the end
  of the source and that the program then moves to the invalid state (bin/client/src/interop/transition.rs:151-163).
  This happens exactly when the block number has reached the interop time: `DriverExhaustion.RunEndsByRule`,
  `InteropExhaustion.EndOfSourceTurn`, with a chain on which it does not in `InteropExhaustion.ExhaustedPastInterop`.
- The output root checked by the single-chain program is meant to be that of the claimed block
  (bin/client/src/single.rs:136-137). It is exactly when the claim is above the safe head and the source does not fall
  short of it: `SingleChain.ClaimedBlockIff`. Otherwise it is the root of the last block before the source ended, as on
  the chain of `SingleChain.LowerRootAccepted`, or, when nothing was committed, the zero the cursor was started with:
  `SingleChain.UnexecutedRootIff` says exactly when.
- The cursor cache is documented to be bounded by `channel_timeout + 5` (crates/proof/driver/src/cursor.rs:29-31). The
  cursor of a proof run queues its first L1 block twice and outgrows that bound, by any amount: `Cursor.CapacityExceeded`;
  `Cursor.AdvanceWithinCapacityIff` gives the exact condition for one advance.
- The tip shown by the cursor is the one filed under the highest L1 block, not the newest one. They agree exactly when
  the new origin is not below the surviving entries: `Cursor.AdvanceShowsTipIff`, `DriverTheorems.CommitCoherentIff`.
  The theorems about whole runs therefore assume `OriginsAscend`, that the pipeline's origin never falls below one it
  already reported at a commit.
- `peer_redialing: None` is documented as unlimited (crates/node/gossip/src/gater.rs:41). The code allows one dial per
  period, and zero is what means unlimited (gater.rs:107-114): `DialBursts.NoneMeansOne`, `DialBursts.ZeroNeverRefuses`.
- The dial limit is documented per peer (gater.rs:39) and kept per address: `GaterTheorems.LimitIsPerAddress`. It is
  documented as a number of dials during a period (gater.rs:47), and counts dials since the last gap longer than one:
  `DialBursts.RefusedIff` is exact, `DialBursts.RefusedInsideWindow` shows the difference, and
  `GaterTheorems.RateLimit` proves that one address of an unprotected peer still never exceeds the window.
- At most 1000 heights and 5 blocks per height are documented for the gossip cache; the code keeps at most 999 heights
  and 6 hashes: `GossipTheorems.CacheBounded`, reached by `GossipTheorems.SixAtOneHeight`, with the exact condition in
  `GossipTheorems.PassesFiveIff`.
- A boot store read from a file longer than the documented maximum keeps its length: `BootStore.BoundedIff`.
- A fee check that finds zero elasticity with a non-zero denominator is reported as an error about the denominator
  (crates/node/engine/src/attributes.rs:192-197); only the outcome is modelled.

## Model

| member | source | states |
|---|---|---|
| `Cursor.FullHasOldest` | crates/proof/driver/src/cursor.rs:165-168 | a full cache never meets an empty eviction queue, so the unwrap in `advance` cannot fail |
| `Cursor.AdvanceKeepsReady` | crates/proof/driver/src/cursor.rs:164-174 | after any advance the queue still covers the cache and there is a tip to show |
| `Cursor.AdvanceShowsTipIff` | crates/proof/driver/src/cursor.rs:138-174 | the advanced-to tip is shown if and only if no surviving entry has a higher L1 number; otherwise the highest survivor is shown |
| `Cursor.AdvanceAscending` | crates/proof/driver/src/cursor.rs:164-174 | an origin not below the current highest key becomes the highest key and its tip is shown |
| `Cursor.AdvanceWithinCapacityIff` | crates/proof/driver/src/cursor.rs:164-174 | from within capacity, an advance stays within it if and only if the cache was not full, the queue's front is cached, or the origin is already cached |
| `Cursor.StartShowsTip` | crates/proof/proof/src/sync.rs:39-42 | the cursor a proof run starts from shows the agreed safe head under the walked-back origin |
| `Cursor.RegressionHidesTip` | crates/proof/driver/src/cursor.rs:138-174 | a concrete advance to a lower origin after which the old tip is still shown |
| `Cursor.RoomKeepsFront` | crates/proof/driver/src/cursor.rs:164-174 | while there is room, visits to ascending L1 blocks add one entry each and leave the front of the eviction queue in place |
| `Cursor.StaleEvictions` | crates/proof/driver/src/cursor.rs:165-168 | in a full cache every new L1 block that finds an already evicted name at the front of the queue adds one entry, for any number of them |
| `Cursor.CapacityExceeded` | crates/proof/driver/src/cursor.rs:29-31 | for every channel timeout and every k, k more tips at the starting L1 block and then tips at `capacity + 1 + k` new ones leave `capacity + 1 + k` entries: no bound in the channel timeout holds |
| `Cursor.PipelineCursor.constructor` | crates/proof/driver/src/cursor.rs:83-94 | a new cursor has the fresh value, which is valid but has no tip yet |
| `Cursor.PipelineCursor.GetTip` | crates/proof/driver/src/cursor.rs:138-144 | returns the entry under the highest L1 number |
| `Cursor.PipelineCursor.AdvanceTo` | crates/proof/driver/src/cursor.rs:164-174 | updates the object in place to `Advance` of its old value, the function the lemmas above are about |
| `Driver.StepKeepsReady` | crates/proof/driver/src/core.rs:218-331 | every pass of the loop, however it ends, leaves a cursor that can show a tip, so `tip()` never reaches its unreachable branch |
| `Forks.ActiveIff` | crates/protocol/genesis/src/rollup.rs:208-317 | a fork is active at a timestamp if and only if its own time, or that of any later fork, is set and not after it |
| `DriverProtocol.ConformsAt` | crates/proof/driver/src/core.rs:218-331 | a conforming trace is legal event by event: each call is preceded by what the protocol demands and reports the environment's true answer |
| `DriverProtocol.AttemptConforms` | crates/proof/driver/src/core.rs:255-256 | an execution is immediately preceded by `update_safe_head` with the current tip's header |
| `DriverProtocol.RetryConforms` | crates/proof/driver/src/core.rs:261-289 | after a failed first attempt under Holocene the flush, the head update and the deposit-only execution follow the protocol, also when one of them fails |
| `DriverProtocol.ExecuteConforms` | crates/proof/driver/src/core.rs:255-295 | both ways of executing a derived payload keep to the protocol |
| `DriverProtocol.CommitConforms` | crates/proof/driver/src/core.rs:297-330 | block assembly, origin, root and commit keep to the protocol on every exit, and the cursor and artifacts mirror the commits of the trace |
| `DriverProtocol.StepConforms` | crates/proof/driver/src/core.rs:218-331 | one pass from a quiet conforming state gives a conforming trace and a state that mirrors it |
| `DriverProtocol.RunConforms` | crates/proof/driver/src/core.rs:213-332 | for every environment and every number of passes, the whole call trace follows the protocol: `execute_payload` only right after `update_safe_head` with the current tip, `compute_output_root` only after a successful execution with no executor call between, flushes exactly where owed |
| `DriverTheorems.FlushAnswersFailure` | crates/proof/driver/src/core.rs:261-269 | at every position of a conforming trace, the event is a channel flush if and only if the events before it end in a failed first attempt at attributes whose timestamp is in Holocene |
| `DriverTheorems.DepositsSubsequence` | crates/proof/driver/src/core.rs:272-276 | the stripped list is the order-preserving subsequence of exactly the non-empty deposit-typed transactions |
| `DriverTheorems.CommitExtends` | crates/proof/driver/src/core.rs:255-327 | with an executor that builds on the head it was set to, a committed block is the child of the safe head before it |
| `DriverTheorems.ChainLinked` | crates/proof/driver/src/core.rs:319-327 | the committed tips of a conforming trace form a parent-linked chain from the start tip to the current one |
| `DriverTheorems.LinkedNumbers` | crates/protocol/protocol/src/block.rs:46-48 | along a parent-linked chain the block numbers count up by one from the first |
| `DriverTheorems.RunLinked` | crates/proof/driver/src/core.rs:218-331 | in every run, on every exit, the committed tips are linked without gaps from the start, the cursor shows the last one, and a successful answer is that one's head and root |
| `DriverTheorems.RunReturnsTip` | crates/proof/driver/src/core.rs:222-227 | a successful run returns what the cursor shows, and it has reached the target in force; no assumption on the environment |
| `DriverTheorems.CommitAssembled` | crates/proof/driver/src/core.rs:295-330 | every commit in a conforming trace is made of one execution on the then current head, the origin read after it and the root computed after that; its artifacts hold that execution's outcome and transactions |
| `DriverTheorems.CommitProvenance` | crates/proof/driver/src/core.rs:256-311 | every committed block executed the derived attributes unchanged, or their deposits only, the latter just after a failed attempt at them, with Holocene active at their timestamp and an acknowledged flush |
| `DriverBlocks.ExecutionProvenance` | crates/proof/driver/src/core.rs:255-289 | every execution in a conforming trace is of the attributes just derived, or, after a failed attempt at those, Holocene and an acknowledged flush, of attributes equal to them in all but the transactions, which are exactly the non-empty ones of type 0x7E at strictly increasing positions, and none exactly if there were none |
| `DriverBlocks.CommittedTransactions` | crates/proof/driver/src/core.rs:297-330 | a committed block caches the whole list its execution was given, decodes it one by one in order, and takes its info from its own header and its first transaction |
| `DriverBlocks.DecodeAllExact` | crates/proof/driver/src/core.rs:301-307 | decoding succeeds if and only if every transaction decodes, and keeps number and order |
| `DriverBlocks.FromBlockExact` | crates/protocol/protocol/src/block.rs:180-207 | the info of a block is its number, parent, time and hash with the genesis origin for the genesis block, and with what its first transaction, a deposit, carries for any other; in both directions |
| `DriverTheorems.ReplayIsLastCommit` | crates/proof/driver/src/core.rs:327-330 | what a trace adds up to is its last commit |
| `DriverTheorems.TraceCoherent` | crates/proof/driver/src/core.rs:295-330 | after any commit, tip header, cached outcome, cached transactions, block info and output root all come from the same execution |
| `DriverTheorems.RunCoherent` | crates/proof/driver/src/core.rs:213-332 | the same of cursor and artifacts on every exit of a run, successful or with any error |
| `DriverTheorems.CommitCoherentIff` | crates/proof/driver/src/core.rs:326-330 | without any assumption on origins or cache: the committed tip is the one shown if and only if no surviving cursor entry lies above the pipeline's origin, or the highest survivor already is that tip; otherwise the highest survivor is shown, so that its header agrees with the artifacts only if it holds the same header, and its root is the older one |
| `DriverTheorems.PassProgress` | crates/proof/driver/src/core.rs:222-293 | a pass that goes round again consumed a payload, or met the end of the source outside interop and lowered the target to the current head |
| `DriverTheorems.RunTerminates` | crates/proof/driver/src/core.rs:222-293 | with a target and a source of at most `budget` payloads every run ends within `budget + 2` passes, including discarded pre-Holocene blocks and the exhaustion branch |
| `DriverTheorems.NoTargetNeverSucceeds` | crates/proof/driver/src/core.rs:222-227 | without a target no run ever returns a head |
| `DriverTheorems.NoTargetSpins` | crates/proof/driver/src/core.rs:232-247 | without a target, outside interop, an exhausted source makes every number of passes go round again |
| `DriverExhaustion.HaltsIffTarget` | crates/proof/driver/src/core.rs:222-247 | outside interop, once a pass below its target meets the end of the source, the next pass returns the head if and only if there is a target |
| `DriverExhaustion.RunEndsByRule` | crates/proof/driver/src/core.rs:232-248 | for every environment and run: a run that met the end of its source stands below its target, and returns the end-of-source error if interop is active at its head's number and otherwise that head and root; a run that did not meet it returns that error if and only if a channel flush failed with it |
| `DriverTheorems.PassNumber` | crates/proof/driver/src/core.rs:218-331 | a pass that goes round again leaves the head's number as it was or one higher |
| `DriverTheorems.RunFinalNumber` | crates/proof/driver/src/core.rs:218-248 | a successful run towards `t` ends at exactly max(start, t) if the source was never exhausted, and otherwise at the head at which it was, between the start and that maximum |
| `DriverTheorems.StartSound` | crates/proof/proof/src/sync.rs:27-45 | the state a proof run starts in satisfies the hypotheses of the run theorems |
| `DriverLoop.DerivationDriver.constructor` | crates/proof/driver/src/core.rs:104-106 | a new driver has no artifacts and has made no calls |
| `DriverLoop.DerivationDriver.TryPayload` | crates/proof/driver/src/core.rs:255-256 | sets the head and executes, recording both calls, as the function `Attempt` does |
| `DriverLoop.DerivationDriver.ExecutePayload` | crates/proof/driver/src/core.rs:255-295 | executes with the Holocene retry, as the function `Execute` does |
| `DriverLoop.DerivationDriver.CommitBlock` | crates/proof/driver/src/core.rs:297-330 | ends in the state of `Commit` in place, both when it commits and on each of its errors, which it returns |
| `DriverLoop.DerivationDriver.Pass` | crates/proof/driver/src/core.rs:218-331 | one iteration of the loop is `Step` on the object's value |
| `DriverLoop.DerivationDriver.AdvancePasses` | crates/proof/driver/src/core.rs:213-332 | the first `limit` iterations of the loop, for any target or none and any source, end in the state and answer of `Run` |
| `DriverLoop.DerivationDriver.AdvanceToTarget` | crates/proof/driver/src/core.rs:213-332 | with a target and a finite source the loop terminates within `budget + 2` passes, and its answer, cursor, artifacts and calls are those of `Run` |
| `ProofRun.RunOfIs` | bin/client/src/single.rs:136-140 | the run is the same after whatever number of passes it is seen to have returned, so that its answer needs no bound on passes |
| `ProofRun.AlwaysAnswers` | bin/client/src/single.rs:136-140 | with a finite source the driver always gives an answer |
| `ProofRun.DerivedNumber` | bin/client/src/single.rs:136-140 | a successful answer is about the target block, or about the head at which the source was exhausted |
| `ProofRun.AnswerRoot` | crates/proof/driver/src/core.rs:222-227 | a successful answer is the head and the executor's own root of the last commit, or, when nothing was committed, the starting head and zero |
| `ProofRun.CommittedIffAdvanced` | crates/proof/driver/src/core.rs:319-327 | something was committed if and only if the run ends above the block it started on |
| `ProofRun.AnswerAtSafeHead` | crates/proof/proof/src/sync.rs:40-42 | at a target not above the safe head the driver calls nothing and answers with the head and the zero root its cursor was started with |
| `ProofRun.DryAnswer` | crates/proof/driver/src/core.rs:232-293 | when the pipeline and the executor answer with nothing but payloads that fail before Holocene and then the end of the source, the answer is the end-of-source error if interop is active at the head's number, else the head with a zero root; nothing else is assumed |
| `ProofRun.EndsFirstIff` | crates/proof/driver/src/core.rs:232-293 | a run above its start ends by exhaustion before any commit if and only if those are the answers it is given |
| `ProofRun.EmptySourceAnswer` | crates/proof/driver/src/core.rs:232-247 | a source that is empty from the start is such a case |
| `ProofRun.UnexecutedIff` | crates/proof/driver/src/core.rs:222-293 | a successful answer rests on no execution if and only if the target is not above the start, or the source runs dry on the start while interop is not active at its number |
| `ProofRun.NextBlockExhaustion` | bin/client/src/interop/transition.rs:132-134 | a run towards the very next block meets the end of its source if and only if the source runs dry on the start |
| `ProofRun.ExhaustedIff` | crates/proof/driver/src/core.rs:232-248 | for every environment: a run meets the end of its source if and only if after some passes it stands below its target and the pipeline has nothing more, and then it returns |
| `ProofRun.TargetRootIff` | crates/proof/driver/src/core.rs:218-248 | a successful answer carries the executor's root of the target block itself if and only if the target is above the start and the source does not fall short of it |
| `PreStates.SortCorrect` | crates/protocol/interop/src/root.rs:24-28 | a super root's outputs are ordered by chain id and are a permutation of those given |
| `PreStates.SortOrdered` | crates/protocol/interop/src/root.rs:24-28 | outputs already in order keep their places |
| `PreStates.NextStateCases` | crates/proof/proof-interop/src/pre_state.rs:71-112 | in every state, well-formed or not, a transition fails exactly when a block is owed and none is given; otherwise the block is appended, or with all blocks in the step counts on to 127 and then gives the super root of the next second |
| `Consolidation.Find` | crates/proof/proof-interop/src/consolidation.rs:166-170 | finds the first pending block with a hash, or none if there is no such block |
| `Consolidation.DepositsAreDeposits` | crates/proof/proof-interop/src/consolidation.rs:120-248 | stripped transactions are all deposits |
| `Consolidation.ReExecuteReduces` | crates/proof/proof-interop/src/consolidation.rs:120-248 | re-execution takes exactly its own chain out of the set of blocks that can still be reduced |
| `Consolidation.RoundReduces` | crates/proof/proof-interop/src/consolidation.rs:98-116 | with honest components a round that must be repeated strictly shrinks that set |
| `Consolidation.ConsolidateUnrolls` | crates/proof/proof-interop/src/consolidation.rs:68-87 | the loop equals its first round followed by the rest, whether or not it ever ends |
| `Consolidation.ConsolidateClean` | crates/proof/proof-interop/src/consolidation.rs:68-87 | for any components: when consolidation succeeds no chain has an invalid message, and no chain and no pending block was added or dropped |
| `Consolidation.ConsolidateEnds` | crates/proof/proof-interop/src/consolidation.rs:68-87 | with honest components the loop always ends, and never makes a block reducible again |
| `Consolidation.ReExecutePaired` | crates/proof/proof-interop/src/consolidation.rs:120-248 | re-execution replaces the pending block of its own chain and of no other |
| `Consolidation.ConsolidatePaired` | crates/proof/proof-interop/src/consolidation.rs:68-248 | after consolidation the i-th pending block is still the head of the i-th chain |
| `Replacements.ReExecuteExact` | crates/proof/proof-interop/src/consolidation.rs:124-245 | one re-execution hands the builder the block's deposits in order and one replacement made from the pending root, and stores the built hash and root in the first pending block with the head's hash, and nothing else |
| `Replacements.ReExecuteFails` | crates/proof/proof-interop/src/consolidation.rs:126-170 | each way a re-execution fails, with its cause, and the panic exactly on a loaded block of deposits only |
| `Replacements.ConsolidateReplaces` | crates/proof/proof-interop/src/consolidation.rs:68-248 | after a successful consolidation every chain ever found invalid has the hash and the root of its new head as its pending block, and every other chain has the pending block and head it had |
| `Consolidation.SuperchainConsolidator.constructor` | crates/proof/proof-interop/src/consolidation.rs:55-62 | a consolidator starts from the given pending blocks and heads |
| `Consolidation.SuperchainConsolidator.ReExecuteDepositOnly` | crates/proof/proof-interop/src/consolidation.rs:120-248 | the loop over the invalid chains updates pending blocks and heads as `ReExecuteAll` does, stopping at the first error |
| `Consolidation.SuperchainConsolidator.Run` | crates/proof/proof-interop/src/consolidation.rs:68-87 | the outer loop terminates and computes `Consolidate` in place |
| `Interop.LoadLocalSafeHeaders` | bin/client/src/interop/consolidate.rs:49-102 | the loop files the header of every paired chain, or stops at the first failure |
| `Interop.CheckConsolidation` | bin/client/src/interop/consolidate.rs:45-139 | loading, consolidating and checking in place gives the verdict of `ConsolidateDependencies` |
| `InteropTheorems.SubTransitionDecides` | bin/client/src/interop/transition.rs:43-215 | a sub-transition accepts exactly the commitment of the post-state it derives, whether that is a padding step, a no-op block, a derived block or the invalid marker |
| `InteropTheorems.ProgramDecides` | bin/client/src/interop/mod.rs:83-127 | the program accepts a claim if and only if it is `Expected`, a partial function of the boot inputs that does not take the claim |
| `InteropTheorems.OneClaim` | bin/client/src/interop/mod.rs:83-127 | at most one claim is ever accepted for a pre-state |
| `InteropTheorems.WrongClaim` | bin/client/src/interop/mod.rs:83-127 | a claim that is not the expected one is reported together with the expected one, in the order of the source |
| `InteropTheorems.OverdueTransition` | bin/client/src/interop/mod.rs:101-109 | a transition state at or after the claimed time is refused with the agreed commitment, whatever is claimed |
| `InteropTheorems.PlayTransition` | crates/proof/proof-interop/src/pre_state.rs:71-112 | k accepted runs from a super root lead to the transition state with the first k chains' blocks, padded once all chains are in; only those chains need to have a block |
| `InteropTheorems.PlayStops` | bin/client/src/interop/transition.rs:132-172 | a transition stops for good at the first chain without a block: with the invalid marker if its source is exhausted, with no accepted claim otherwise |
| `InteropTheorems.LastTurn` | bin/client/src/interop/consolidate.rs:45-139 | the run at step 127 completes the super root from the consolidated blocks if there were at most 127 chains and they consolidate, and is stuck otherwise |
| `InteropTheorems.CompletesIff` | crates/proof/proof-interop/src/pre_state.rs:71-112 | what 128 accepted runs make of any super root that is due: the next super root, with the consolidated roots one second later, if and only if it lists between 1 and 127 chains, all derive and they consolidate; the invalid marker if and only if the first chain that does not derive has an exhausted source; nothing otherwise |
| `InteropTheorems.CompletedChains` | crates/proof/proof-interop/src/pre_state.rs:86-100 | the completed super root lists the same chains in the same order, each with its pending block's root |
| `InteropTheorems.NotDueTurn` | bin/client/src/interop/transition.rs:80-98 | the turn of a chain with no block due appends exactly its safe head's hash with its agreed output root |
| `InteropTheorems.NotDueKeepsRoot` | bin/client/src/interop/transition.rs:80-98 | such a chain, if it is not replaced, has the same output root in the next super root |
| `InteropTheorems.NextBlockStuck` | bin/client/src/interop/transition.rs:54-107 | what keeps a chain from having a next block: no block under its agreed root, no configuration, no header or no driver, each with its error |
| `InteropTheorems.EmptyRootStuck` | bin/client/src/interop/transition.rs:54-61 | a super root without chains has no accepted successor |
| `InteropExhaustion.NextBlockDry` | bin/client/src/interop/transition.rs:132-172 | a chain whose source runs dry on its safe head gets the invalid marker if interop is active at the safe head's number, and otherwise the safe head itself with a zero root; nothing else is assumed |
| `InteropExhaustion.MarkerIff` | bin/client/src/interop/transition.rs:132-172 | a chain gets the invalid marker if and only if its source runs dry while interop is active at the safe head's number, or a channel flush fails with the end-of-source error |
| `InteropExhaustion.EndOfSourceTurn` | bin/client/src/interop/transition.rs:151-163 | the accepted successor of a pre-state whose active chain runs dry is the invalid marker if and only if interop is active at the safe head's number, else the state with the zero-root block |
| `InteropExhaustion.ExhaustedPastInterop` | crates/proof/driver/src/core.rs:241-247 | a concrete chain past its interop time, with a block number below that time, whose exhausted source is not answered by the marker |
| `InteropTheorems.InvalidForever` | crates/proof/proof-interop/src/boot.rs:97-109 | from the invalid marker on, the marker is the only claim accepted, at every later run |
| `InteropTheorems.LoadHeadersExact` | bin/client/src/interop/consolidate.rs:57-102 | with distinct chains, loading succeeds if and only if each header loads, whatever the order, and each is filed under its own chain |
| `InteropTheorems.LoadHeaderIff` | bin/client/src/interop/consolidate.rs:60-101 | a header loads if and only if the agreed root has a block, the chain is configured in the registry or by the boot inputs, and the header is stored under the pending hash, with which it is sealed |
| `InteropTheorems.ResolveSound` | bin/client/src/interop/consolidate.rs:49-114 | resolved pending blocks are heads, chain by chain, of a set of heads without invalid messages; those of chains found invalid carry hash and root of the new head, all others are as before |
| `InteropTheorems.ResolveKeepsShape` | crates/proof/proof-interop/src/consolidation.rs:68-248 | consolidation changes nothing of the transition state but its pending blocks, and keeps their number |
| `SingleChain.SingleDecides` | bin/client/src/single.rs:72-155 | the program accepts if and only if the claimed number is not below the safe head and the claimed root is the agreed root or the derived root, which does not depend on the claimed root |
| `SingleChain.SafeHeadIff` | bin/client/src/single.rs:58-68 | the safe head is the header stored under the hash that the agreed root gives, sealed with that hash |
| `SingleChain.RejectedAgainst` | bin/client/src/single.rs:72-155 | a rejected claim is reported against the agreed root if its number is too low, and against the derived root otherwise |
| `SingleChain.OneDerivedClaim` | bin/client/src/single.rs:72-155 | besides the agreed root at most one root is accepted at a number |
| `SingleChain.AcceptedRoot` | bin/client/src/single.rs:138-155 | an accepted root other than the agreed one is the executor's for the last block committed, or nothing was committed and it is zero |
| `SingleChain.ClaimedBlockIff` | bin/client/src/single.rs:136-155 | an accepted root other than the agreed one is the executor's root of the claimed block itself if and only if the claim is above the safe head and the source does not fall short of it |
| `SingleChain.LowerRootAccepted` | bin/client/src/single.rs:136-155 | a chain with one more block on L1 and components that do their part, on which a claim at any number beyond is accepted with that block's root |
| `SingleChain.UnexecutedRootIff` | bin/client/src/single.rs:72-155 | a root that no execution produced is accepted if and only if it is zero and the claim is at the safe head's own number, or the source runs dry on the safe head while interop is not active at its number |
| `SingleChain.AcceptedAtSafeHead` | bin/client/src/single.rs:138-155 | for a claim at the safe head's own number exactly the agreed root and zero are accepted, whatever the components do |
| `SingleChain.AcceptedFromDrySource` | bin/client/src/single.rs:138-155 | above it, with a source that runs dry on the safe head, exactly the agreed root is accepted, and zero if interop is not active at the safe head's number |
| `GossipTheorems.TimeWindow` | crates/node/gossip/src/block_validity.rs:194-208 | the time check passes if and only if the timestamp is at most 60 seconds old and 5 seconds ahead, given a clock that does not wrap around; with one that does, never |
| `GossipTheorems.StatelessExact` | crates/node/gossip/src/block_validity.rs:194-224 | the checks before the cache pass exactly on well-formed blocks and never report one as seen |
| `GossipTheorems.SeenExact` | crates/node/gossip/src/block_validity.rs:226-243 | the cache check passes exactly on blocks new to a height with at most five blocks, and reports as seen exactly the known ones there |
| `GossipTheorems.VerdictExact` | crates/node/gossip/src/handler.rs:48-75 | a message is accepted if and only if it decodes, is well-formed, new and signed by the current signer; ignored if and only if well-formed and known; the payload is passed on exactly when accepted |
| `GossipTheorems.VerdictReason` | crates/node/gossip/src/block_validity.rs:190-270 | the reason a block is turned away for is true of it, with the values it names |
| `GossipTheorems.TopicSelectsVersion` | crates/node/gossip/src/handler.rs:48-60 | the four topics are told apart, so each selects its own decoder |
| `GossipTheorems.DecodedIff` | crates/node/gossip/src/handler.rs:48-75 | a message is decoded with a version if and only if it came under that version's topic and that decoder accepts it |
| `GossipTheorems.TopicText` | crates/node/gossip/src/handler.rs:92-103 | the text of each topic, with the chain id in plain decimal |
| `GossipTheorems.PublishedVersion` | crates/node/gossip/src/handler.rs:108-118 | a block published under the topic of its timestamp is decoded with the version of the fork then active |
| `GossipTheorems.RememberKeys` | crates/node/gossip/src/block_validity.rs:259-267 | a height is evicted if and only if a block at a new height comes with 999 heights cached, and it lies below the 999 that are left |
| `GossipTheorems.RememberAt` | crates/node/gossip/src/block_validity.rs:259-267 | what one accepted block does to the hashes at any height |
| `GossipTheorems.CacheBounded` | crates/node/gossip/src/block_validity.rs:101-106 | in every run at most 999 heights are cached with one to six hashes each |
| `GossipTheorems.SixAtOneHeight` | crates/node/gossip/src/block_validity.rs:226-262 | at every height six different blocks can be accepted and cached, so the bound of six is reached |
| `GossipTheorems.PassesFiveIff` | crates/node/gossip/src/block_validity.rs:226-267 | a height passes five hashes exactly when a block is accepted there with five already cached and the height is not evicted at once |
| `GossipTheorems.CacheMatchesHistory` | crates/node/gossip/src/block_validity.rs:226-267 | above the highest height ever evicted the cache equals the full history of accepted blocks, and nowhere holds anything else |
| `GossipTheorems.WholeHistory` | crates/node/gossip/src/block_validity.rs:101-106 | while the accepted blocks lie at no more than 999 heights nothing is evicted and the cache is the whole history |
| `GossipTheorems.ReacceptedAfterEviction` | crates/node/gossip/src/block_validity.rs:226-267 | a block accepted twice had its height evicted in between while 999 greater heights were cached |
| `GossipTheorems.StreamIsLog` | crates/node/gossip/src/handler.rs:48-75 | a handler that started empty holds the pruned cache of exactly the payloads it emitted |
| `GossipTheorems.HandlerGuarantee` | crates/node/gossip/src/block_validity.rs:190-270 | bounds, agreement with history and re-acceptance only after eviction, for every stream of messages |
| `GossipTheorems.UnacceptedLeaveNoTrace` | crates/node/gossip/src/handler.rs:48-75 | deleting any of the messages that were not accepted changes neither the payloads emitted nor the final cache |
| `Gossip.BlockHandler.constructor` | crates/node/gossip/src/handler.rs:92-103 | a new handler has an empty cache |
| `Gossip.BlockHandler.ValidateBlock` | crates/node/gossip/src/block_validity.rs:190-270 | gives the verdict of the checks in their order, and updates the cache in place exactly when there is no error |
| `Gossip.BlockHandler.HandleMessage` | crates/node/gossip/src/handler.rs:48-75 | acceptance, payload and cache are those of `Handle` |
| `Gater.ConnectionGater.constructor` | crates/node/gossip/src/gater.rs:88-99 | a new gate has empty records |
| `Gater.ConnectionGater.CheckIpInBlockedSubnets` | crates/node/gossip/src/gater.rs:146-153 | the search over the blocked ranges answers whether one of them contains the address |
| `Gater.ConnectionGater.CanDialAddr` | crates/node/gossip/src/gater.rs:157-213 | gives the first refusal that applies, and marks the peer in the two cases the code does |
| `Gater.ConnectionGater.RecordDial` | crates/node/gossip/src/gater.rs:232-246 | counts the dial, starting again after an expired period, and stamps it |
| `Gater.ConnectionGater.DialAddr` | crates/node/gossip/src/driver.rs:249-284 | the dial path with all its early returns changes the gate as `DialMultiaddr` does |
| `Gater.ConnectionGater.On` | crates/node/gossip/src/driver.rs:430-470 | closed connections and admin operations change the gate as `Apply` does |
| `GaterTheorems.DialRemembered` | crates/node/gossip/src/gater.rs:232-246 | in every run the gate remembers, for each past dial, that a period has passed since or that all dials from it on are counted |
| `GaterTheorems.RateLimit` | crates/node/gossip/src/gater.rs:102-126 | any L+1 successful dials of an address whose peer is unprotected at the last one span strictly more than the dial period, with L one for no threshold and n for threshold n > 0, under any monotone clock |
| `GaterTheorems.ProtectedUnlimited` | crates/node/gossip/src/gater.rs:172-182 | a protected peer can be dialed again at once |
| `GaterTheorems.LimitIsPerAddress` | crates/node/gossip/src/gater.rs:102-126 | a peer over the limit at one address can be dialed at once at another |
| `DialBursts.BurstCounted` | crates/node/gossip/src/gater.rs:232-246 | after any run the record of an address is the number of its dials since the last gap longer than a period, and the time of the last one |
| `DialBursts.RefusedIff` | crates/node/gossip/src/gater.rs:157-182 | after any run a request is refused as over the limit if and only if its peer is neither in flight nor protected, a limit is configured, the current burst of dials of that address has reached it, and the last of them is at most a period old |
| `DialBursts.ZeroNeverRefuses` | crates/node/gossip/src/gater.rs:111-114 | a threshold of zero never refuses |
| `DialBursts.NoneMeansOne` | crates/node/gossip/src/gater.rs:107-110 | without a threshold a dialed address is refused exactly until a period has passed since its last dial |
| `DialBursts.RefusedInsideWindow` | crates/node/gossip/src/gater.rs:45-50 | two dials allowed per 60, dials at 0 and 50: a request at 100 is refused, though only one dial lies in the 60 before it |
| `GaterTheorems.SingleFlight` | crates/node/gossip/src/driver.rs:249-284 | between two dials of one peer that reach the swarm, by any addresses, the first failed at once or was released, and the peer is not connected at the second |
| `GaterTheorems.PeerOfFirst` | crates/node/gossip/src/gater.rs:129-134 | the peer of an address is that of its first peer component, if it has any |
| `GaterTheorems.IpOfFirst` | crates/node/gossip/src/gater.rs:137-143 | the IP of an address is that of its first IP component, with its family, if it has any |
| `GaterTheorems.RefusedInFlightIff` | crates/node/gossip/src/gater.rs:165-170 | after any run a request is refused as already dialing if and only if some dial of its peer that the swarm took was never released |
| `GaterTheorems.UnreleasedRefused` | crates/node/gossip/src/gater.rs:165-170 | a dial that was never released makes every later request for that peer fail as already dialing |
| `GaterTheorems.ListsMatchLog` | crates/node/gossip/src/gater.rs:266-318 | each block list holds exactly what the latest admin operation blocked, and the protected peers are those last protected |
| `GaterTheorems.BlockedNeverDialed` | crates/node/gossip/src/gater.rs:184-210 | in every run no dial reaches a peer, an address or a range whose latest admin operation was a block, protected or not |
| `GaterTheorems.BlockedReported` | crates/node/gossip/src/gater.rs:215-276 | in every reachable state a blocked peer is reported as one that cannot be connected to |
| `GaterTheorems.StatusReported` | crates/node/gossip/src/gater.rs:157-276 | after any run a peer is reported as its last block, unblock, dial or counting refusal left it, and as not connected before any |
| `Prefixes.ContainsIffBits` | crates/node/gossip/src/gater.rs:146-153 | an address lies in a range, as in section 3.1 of RFC 4632, if and only if it is of its family and shares the first bits of its base, bit by bit |
| `Prefixes.ExtremePrefixes` | crates/node/gossip/src/gater.rs:146-153 | the shortest prefix takes in the whole family, the longest only its base |
| `Prefixes.ContainsIffInterval` | crates/node/gossip/src/gater.rs:146-153 | the same as an interval of `2 ^ (width - prefix)` addresses |
| `Prefixes.BlockedRangeNeverDialed` | crates/node/gossip/src/gater.rs:205-210 | no dial reaches an address that shares the first bits of a range whose latest admin operation was a block |
| `AttributesMatch.TransactionsExact` | crates/node/engine/src/attributes.rs:98-167 | the transaction check passes if and only if all attribute transactions decode to exactly the block's list |
| `AttributesMatch.WithdrawalsExact` | crates/node/engine/src/attributes.rs:54-95 | the withdrawals check passes if and only if the fork's rule on withdrawals and their root holds |
| `AttributesMatch.CompareExact` | crates/node/engine/src/attributes.rs:199-251 | the decoded header parameters equal the wanted ones if and only if the header stores their bytes behind the right version |
| `AttributesMatch.FeesExact` | crates/node/engine/src/attributes.rs:170-251 | the fee check passes if and only if the header stores the wanted parameters, with all-zero ones standing for the Canyon constants |
| `AttributesMatch.CheckExact` | crates/node/engine/src/attributes.rs:256-334 | the whole check reports a match if and only if every field matches, missing transactions counting as none |
| `AttributesMatch.MismatchIsReal` | crates/node/engine/src/attributes.rs:54-334 | a reported mismatch names two compared values that differ, attributes first, or a rule that is broken |
| `AttributesMatch.MatchDetermines` | crates/node/engine/src/attributes.rs:256-334 | two blocks matching the same attributes agree on all compared fields, their transactions and, with parameters given, their fee bytes |
| `AttributesMatch.HoloceneFees` | crates/node/engine/src/attributes.rs:170-251 | between Holocene and Jovian the extra data must be the zero version byte and the given eight bytes, or the Canyon constants for all-zero ones, never when a constant exceeds 32 bits, and never for a non-zero denominator with zero elasticity |
| `Enr.WriteVarint` | crates/node/peers/src/enr.rs:99-109 | the writer's loop produces the varint bytes |
| `Enr.ReadVarint` | crates/node/peers/src/enr.rs:112-121 | the reader's loop computes the recursive reader, with its ten-byte limit and its errors |
| `Enr.VarintRoundTrip` | crates/node/peers/src/enr.rs:99-121 | every 64-bit value is read back, and what follows is left |
| `Enr.VarintCanonicalIff` | crates/node/peers/src/enr.rs:112-121 | what a successful read consumed is the canonical form of its value if and only if no bit of a tenth byte was lost |
| `Enr.RlpRoundTrip` | crates/node/peers/src/enr.rs:99-121 | a byte string of fewer than 56 bytes is read back, and what follows is left |
| `RlpStrings.DecodeIff` | crates/node/peers/src/enr.rs:112-121 | a byte string of any length is read if and only if the buffer begins with its canonical encoding, per appendix B of the Ethereum Yellow Paper |
| `Enr.EncodeEnr` | crates/node/peers/src/enr.rs:99-109 | an entry takes between 3 and 21 bytes |
| `Enr.EnrRoundTrip` | crates/node/peers/src/enr.rs:99-121 | decoding undoes encoding for every chain id and version |
| `Enr.EncodingInjective` | crates/node/peers/src/enr.rs:99-109 | different entries have different encodings |
| `Enr.BuiltRecordValid` | crates/node/peers/src/enr.rs:24-35 | a record is valid for a chain if and only if it was built for that chain with version 0 |
| `Enr.ValidateIff` | crates/node/peers/src/enr.rs:24-35 | every verdict on every entry, missing, undecodable, of another version, of another chain or valid, in both directions |
| `NodeRecord.RoundTrip` | crates/node/peers/src/record.rs:96-174 | every record with an IPv4 address is read back from its printed text, for all ids and all pairs of ports |
| `NodeRecord.PrintInjective` | crates/node/peers/src/record.rs:96-121 | different records never print alike |
| `NodeRecord.DiscportPrintedIff` | crates/node/peers/src/record.rs:112-117 | the text has a query if and only if the two ports differ |
| `NodeRecord.AddressRoundTrip` | crates/node/peers/src/record.rs:145-153 | the printed address is accepted by the strict dotted-decimal parser as itself |
| `NodeRecord.PrintedText` | crates/node/peers/src/record.rs:96-121 | the fixed parts of the text and where each field stands |
| `Text.HexText` | crates/node/peers/src/record.rs:99 | the identifier is printed with two lower-case digits a byte, the high one first |
| `NodeRecord.AddressIff` | crates/node/peers/src/record.rs:148-151 | an address is read if and only if the text is its own plain dotted-decimal form, without leading zeros |
| `NodeRecord.AuthorityParts` | crates/node/peers/src/record.rs:143-156 | the user name ends at a colon, the last `@` ends the user part, and the port is what follows the host's colon, if it is a 16-bit number |
| `NodeRecord.UrlParts` | crates/node/peers/src/record.rs:143 | a path and a fragment are passed over, and the query is what stands between them |
| `NodeRecord.FirstPair` | crates/node/peers/src/record.rs:158-161 | the first query pair decides if its key is `discport`, and is passed over otherwise |
| `NodeRecord.UdpPortIff` | crates/node/peers/src/record.rs:158-165 | the discovery port is the TCP port unless the query names one, which must be a 16-bit number |
| `NodeRecord.ReadUrlIff` | crates/node/peers/src/record.rs:145-172 | what a URL must hold to be read as a record, and which part is blamed when it is not |
| `BootStore.MergeIsNewest` | crates/node/peers/src/store.rs:159-208 | after any arrivals the store is the newest part, in order, of a log of its initial peers and the arrivals it did not hold when they came |
| `BootStore.MergeDistinct` | crates/node/peers/src/store.rs:195-208 | no peer is held twice if none was at the start |
| `BootStore.BoundedIff` | crates/node/peers/src/store.rs:42-47 | after any arrivals the store is within 2048 if and only if it was at the start; a larger one keeps its size |
| `BootStore.MergeHeld` | crates/node/peers/src/store.rs:195-198 | merging peers already held changes nothing, not even the order |
| `BootStore.MergeNew` | crates/node/peers/src/store.rs:159-208 | of new and different peers the newest are kept, in order |
| `BootStore.NewcomerKept` | crates/node/peers/src/store.rs:195-208 | a peer that was new on arrival outlives any 2047 further arrivals |
| `BootStore.SeenAgainStillOldest` | crates/node/peers/src/store.rs:195-208 | in a full store the oldest peer, seen again, is still the next to go |
| `BootStore.Store.constructor` | crates/node/peers/src/store.rs:42-47 | a store starts from what the file held, unchecked |
| `BootStore.Store.AddEnr` | crates/node/peers/src/store.rs:195-208 | adds in place, dropping the oldest of an overfull store |
| `BootStore.Store.MergeAll` | crates/node/peers/src/store.rs:159-161 | the loop leaves the newest part of the log and keeps peers distinct |

## Left out

- DriverLoop.DerivationDriver.AdvanceToTarget: asks for a target and a source with finitely many payloads, because the loop need not terminate otherwise; AdvancePasses, NoTargetNeverSucceeds and NoTargetSpins cover the other cases.
- NodeRecord.RoundTrip: the URL splitter covers `enode` URLs without percent escapes, bracketed IPv6 hosts and control characters; IPv6 addresses, whose text form is the standard library's, and other URL schemes are not modelled.
- RlpStrings.DecodeIff: says exactly which buffers are accepted and what they decode to, not which of several errors a malformed buffer is refused with, because that order belongs to the RLP library.
- Interop.LoadLocalSafeHeaders: takes the pairs in the order of the pending blocks, while the program iterates over a hash map; LoadHeadersExact shows that for distinct chains the order matters to nothing but which of several errors is reported.
- Consolidation.SuperchainConsolidator.Run: asks for what `Honest` lists, that block builders use the transactions they are given, that replacement transactions are deposits and that sealed hashes tell chains apart, because the loop need not terminate otherwise; the function `Consolidate` covers that case as `Endless`.
- Interop.CheckConsolidation: asks for the same, for the same reason; the function `ConsolidateDependencies` and the theorems about claims do not.
- GossipTheorems.TimeWindow: clock arithmetic wraps around as in a build without overflow checks; with checks the handler would panic instead.
- BootStore.Store.constructor: reading and writing the JSON file is left out.
- Timestamps of super roots, block times, dial counters and cursor capacities do not wrap around at 64 bits.
- AttributesMatch: the decoders of the header's extra data belong to another crate; their length and version checks are taken from what the repository's tests and the Holocene and Jovian execution-engine specifications say of them.
- Enr: the varint and RLP routines belong to other crates and are modelled after the multiformats unsigned-varint specification and appendix B of the Ethereum Yellow Paper.
- The derivation pipeline's stages, the EVM executor, tries, the message graph, hashing, signatures, SSZ and snappy: parameters of the models.
- `PipelineCursor::reset`: no caller within the modelled parts.
- Encoding and decoding of pre-states and of gossip payloads, and `BlockHandler::encode`.
- Peer scoring, identify and ping handling, metrics, discovery, RPC servers, hints, key-value stores and command lines.
- Channel framing and compression.
- Engine API version selection and hard-fork overrides: one-branch facts.
