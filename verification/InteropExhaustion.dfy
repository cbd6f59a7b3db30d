/** What the interop program makes of a chain whose L1 data ends before its next block. */
module InteropExhaustion {
  import opened Prelude
  import opened Forks
  import opened Blocks
  import opened PreStates
  import Consolidation
  import Driver
  import DriverExhaustion
  import DriverTheorems
  import opened ProofRun
  import opened Interop
  import opened InteropTheorems

  /** The chain's next block is due, and its derivation is set up as `s` on `head`. */
  ghost predicate Derives(w: World, ctx: Context, agreed: OutputRoot, timestamp: nat, s: Setup, head: Sealed) {
    && w.outputBlockHash(agreed.root, agreed.chainId) == Ok(head.hash)
    && agreed.chainId in ctx.rollupConfigs
    && w.headerByHash(agreed.chainId, head.hash) == Ok(head.inner)
    && head.inner.timestamp + ctx.rollupConfigs[agreed.chainId].blockTime <= timestamp + 1
    && w.setup(ctx.l1Head, agreed.chainId, ctx.rollupConfigs[agreed.chainId], head) == Ok(s)
  }

  /** The driver stands on the safe head, and there is a next number. */
  predicate Standing(s: Setup, head: Sealed) {
    s.info.blockInfo.number == head.inner.number < U64_MAX
  }

  lemma NextBlockDerives(w: World, ctx: Context, agreed: OutputRoot, timestamp: nat, s: Setup, head: Sealed)
    requires Derives(w, ctx, agreed, timestamp, s, head)
    ensures NextBlock(w, ctx, agreed, timestamp)
         == match DriverAnswer(s, head, Successor(head.inner.number))
            case None => Stuck(Unfinished)
            case Some(Ok((info, root))) => Block(OptimisticBlock(info.blockInfo.hash, root))
            case Some(Err(e)) => if e == DriverExhaustion.END_OF_SOURCE then Exhausted else Stuck(DriverFailed(e))
  {
    hide DriverAnswer;
    assert Sealed(head.inner, head.hash) == head;
  }

  /** The head again, with an output root of zero. */
  function ZeroBlock(s: Setup): OptimisticBlock {
    OptimisticBlock(s.info.blockInfo.hash, 0)
  }

  /** What exhausted L1 data leads to: the invalid marker needs interop to be active at the block number. */
  function OnExhaustion(s: Setup): Derived {
    if InteropActive(s.env.forks, s.info.blockInfo.number) then Exhausted else Block(ZeroBlock(s))
  }

  /**
   * The outcome for a chain whose source runs dry on its safe head, whatever else the components would do: the invalid
   * marker if interop is active at the number of the safe head, and otherwise the safe head itself, with a root of
   * zero, for the chain's next block.
   */
  lemma NextBlockDry(w: World, ctx: Context, agreed: OutputRoot, timestamp: nat, s: Setup, head: Sealed)
    requires Derives(w, ctx, agreed, timestamp, s, head) && Standing(s, head) && RunsDry(s, head)
    ensures NextBlock(w, ctx, agreed, timestamp) == OnExhaustion(s)
  {
    hide DriverAnswer, NextBlock, RunsDry, Derives;
    NextBlockDerives(w, ctx, agreed, timestamp, s, head);
    DryAnswer(s, head, head.inner.number + 1);
  }

  /**
   * All ways to the invalid marker: the source runs dry while interop is active at the number of the safe head, or a
   * channel flush fails with the error for the end of the source.
   */
  lemma MarkerIff(w: World, ctx: Context, agreed: OutputRoot, timestamp: nat, s: Setup, head: Sealed)
    requires Derives(w, ctx, agreed, timestamp, s, head) && Standing(s, head) && WellSetUp(s, head)
    ensures var t := TraceOf(s, head, head.inner.number + 1);
            NextBlock(w, ctx, agreed, timestamp) == Exhausted <==>
              || (RunsDry(s, head) && InteropActive(s.env.forks, head.inner.number))
              || (DriverAnswer(s, head, head.inner.number + 1).Some? && t != []
                  && Last(t) == Driver.Flushed(Err(Driver.Critical(Driver.EndOfSource))))
  {
    hide RunsDry, Derives, NextBlock, WellSetUp;
    var target := head.inner.number + 1;
    NextBlockDerives(w, ctx, agreed, timestamp, s, head);
    if RunsDry(s, head) {
      DryAnswer(s, head, target);
    }
    if DriverAnswer(s, head, target).Some? {
      AnswerByRule(s, head, target);
      NextBlockExhaustion(s, head);
    }
    hide RunOf, DriverTheorems.Exhausted, DriverExhaustion.EndsFirst;
  }

  /** The pre-state calls for the next block of one more chain. */
  predicate CallsFor(ctx: Context, p: PreState, agreed: OutputRoot) {
    && TimestampOf(p) < ctx.claimedTimestamp
    && (p.Transition? ==> p.state.step < MAX_STEPS)
    && ActiveOutputRoot(p) == Some(agreed)
  }

  /**
   * The turn of a chain whose source runs dry: to the invalid marker if and only if interop is active at the number of
   * the safe head; otherwise to the state with the safe head and a zero root for the chain's block.
   */
  lemma EndOfSourceTurn(w: World, ctx: Context, p: PreState, agreed: OutputRoot, s: Setup, head: Sealed)
    requires CallsFor(ctx, p, agreed) && Derives(w, ctx, agreed, TimestampOf(p), s, head)
    requires Standing(s, head) && RunsDry(s, head)
    ensures Turn(w, ctx, Decoded(p)) == Some(InvalidMarker) <==> InteropActive(s.env.forks, head.inner.number)
    ensures !InteropActive(s.env.forks, head.inner.number) ==>
              && NextState(p, Some(ZeroBlock(s))).Some?
              && Turn(w, ctx, Decoded(p)) == Some(Decoded(NextState(p, Some(ZeroBlock(s))).value))
  {
    hide NextBlock, Derives, RunsDry;
    NextBlockDry(w, ctx, agreed, TimestampOf(p), s, head);
    assert !Saturated(p);
  }

  // ---------------------------------------------------------------------------------------------
  // A chain past its interop time whose exhausted source does not give the invalid marker

  const DRY: Driver.PipelineErrorKind := Driver.Critical(Driver.EndOfSource)

  function DryEnv(forks: HardForks): Driver.Env {
    Driver.Env(forks, BlockId(0, 0), BlockId(0, 0), (_, _) => Err(DRY), _ => Err(DRY), _ => None, (_, _) => Err(0),
               _ => Err(0), _ => Err(0), _ => Err(0), _ => 0)
  }

  function DrySetup(forks: HardForks, head: Sealed): Setup {
    var info := BlockInfo(head.hash, head.inner.number, head.inner.parentHash, head.inner.timestamp);
    Setup(DryEnv(forks), 0, BlockInfo(0, 0, 0, 0), L2BlockInfo(info, BlockId(0, 0), 0))
  }

  function IdleTools(): Consolidation.Tools {
    Consolidation.Tools(_ => Ok([]), (_, _) => Err(0), _ => Err(0), {}, {}, (_, _) => [], (_, _, _, _) => Err(0),
                        _ => 0)
  }

  /** Every chain stands on `head` and has no L1 data left. */
  function DryWorld(forks: HardForks, head: Sealed): World {
    World(_ => 0, (_, _) => Ok(head.hash), (_, _) => Ok(head.inner), map[],
          (_, _, _, sealed) => Ok(DrySetup(forks, sealed)), _ => IdleTools())
  }

  /**
   * For every interop time above the head's number, and so for every realistic one, although the head's timestamp is
   * past it: the accepted successor is the state with a zero root for the chain.
   */
  lemma ExhaustedPastInterop(forks: HardForks, head: Sealed, root: Hash, blockTime: nat, timestamp: nat)
    requires forks.interop.Some? && head.inner.number < forks.interop.value <= head.inner.timestamp
    requires head.inner.timestamp + blockTime <= timestamp + 1
    ensures InteropActive(forks, head.inner.timestamp)
    ensures var w := DryWorld(forks, head);
            var ctx := Context(0, timestamp + 1, map[10 := RollupConfig(blockTime, 0)]);
            var agreed := SuperRoot(timestamp, [OutputRoot(10, root)]);
            Turn(w, ctx, Decoded(Super(agreed))) ==
            Some(Decoded(Transition(TransitionState(agreed, [OptimisticBlock(head.hash, 0)], 1))))
  {
    var w := DryWorld(forks, head);
    var ctx := Context(0, timestamp + 1, map[10 := RollupConfig(blockTime, 0)]);
    var agreed := OutputRoot(10, root);
    var p := Super(SuperRoot(timestamp, [agreed]));
    var s := DrySetup(forks, head);
    assert Sealed(head.inner, head.hash) == head;
    assert Derives(w, ctx, agreed, timestamp, s, head);
    EmptySourceAnswer(s, head, head.inner.number + 1);
    hide Turn, Derives, RunsDry;
    EndOfSourceTurn(w, ctx, p, agreed, s, head);
  }
}
