/** The agreed pre-state of an interop proof: a super root, or the progress of a transition from one to the next. */
module PreStates {
  import opened Prelude

  /** A transition takes this many steps before it is consolidated. */
  const MAX_STEPS: nat := 127

  datatype OutputRoot = OutputRoot(chainId: u64, root: Hash)

  datatype SuperRoot = SuperRoot(timestamp: nat, outputRoots: seq<OutputRoot>)

  datatype OptimisticBlock = OptimisticBlock(blockHash: Hash, outputRoot: Hash)

  datatype TransitionState = TransitionState(preState: SuperRoot, pendingProgress: seq<OptimisticBlock>, step: nat)

  datatype PreState = Super(root: SuperRoot) | Transition(state: TransitionState)

  function TimestampOf(p: PreState): nat {
    match p
    case Super(root) => root.timestamp
    case Transition(state) => state.preState.timestamp
  }

  /** The output root of the chain whose block the next step commits to, if any chain is left. */
  function ActiveOutputRoot(p: PreState): Option<OutputRoot> {
    match p
    case Super(root) => if root.outputRoots == [] then None else Some(root.outputRoots[0])
    case Transition(state) =>
      if state.step < |state.preState.outputRoots| then Some(state.preState.outputRoots[state.step]) else None
  }

  // ---------------------------------------------------------------------------------------------
  // Super roots keep their output roots ordered by chain

  /** Stable insertion in front of the first entry that is not smaller. */
  function InsertByChain(r: OutputRoot, sorted: seq<OutputRoot>): seq<OutputRoot> {
    if sorted == [] || r.chainId <= sorted[0].chainId then [r] + sorted
    else [sorted[0]] + InsertByChain(r, sorted[1..])
  }

  function SortByChain(roots: seq<OutputRoot>): seq<OutputRoot> {
    if roots == [] then [] else InsertByChain(roots[0], SortByChain(roots[1..]))
  }

  predicate Ordered(roots: seq<OutputRoot>) {
    forall i, j | 0 <= i < j < |roots| :: roots[i].chainId <= roots[j].chainId
  }

  lemma {:induction false} InsertKeeps(r: OutputRoot, sorted: seq<OutputRoot>)
    ensures multiset(InsertByChain(r, sorted)) == multiset(sorted) + multiset{r}
    decreases |sorted|
  {
    if sorted != [] && r.chainId > sorted[0].chainId {
      InsertKeeps(r, sorted[1..]);
      assert sorted == [sorted[0]] + sorted[1..];
    }
  }

  lemma {:induction false} InsertOrdered(r: OutputRoot, sorted: seq<OutputRoot>)
    requires Ordered(sorted)
    ensures Ordered(InsertByChain(r, sorted))
    ensures var first := InsertByChain(r, sorted)[0].chainId;
            first == r.chainId || (sorted != [] && first == sorted[0].chainId)
    decreases |sorted|
  {
    if sorted != [] && r.chainId > sorted[0].chainId {
      var out := InsertByChain(r, sorted[1..]);
      InsertOrdered(r, sorted[1..]);
      assert sorted[0].chainId <= out[0].chainId;
      assert forall j | 0 <= j < |out| :: out[0].chainId <= out[j].chainId;
    }
  }

  /** Sorting orders the roots by chain and keeps all of them. */
  lemma {:induction false} SortCorrect(roots: seq<OutputRoot>)
    ensures Ordered(SortByChain(roots))
    ensures multiset(SortByChain(roots)) == multiset(roots)
    decreases |roots|
  {
    if roots != [] {
      SortCorrect(roots[1..]);
      InsertOrdered(roots[0], SortByChain(roots[1..]));
      InsertKeeps(roots[0], SortByChain(roots[1..]));
      assert roots == [roots[0]] + roots[1..];
    }
  }

  /** Roots already in order stay where they are. */
  lemma {:induction false} SortOrdered(roots: seq<OutputRoot>)
    requires Ordered(roots)
    ensures SortByChain(roots) == roots
    decreases |roots|
  {
    if roots != [] {
      SortOrdered(roots[1..]);
      assert roots == [roots[0]] + roots[1..];
    }
  }

  function NewSuperRoot(timestamp: nat, roots: seq<OutputRoot>): SuperRoot {
    SuperRoot(timestamp, SortByChain(roots))
  }

  // ---------------------------------------------------------------------------------------------
  // One transition

  /** The chains of the old super root with the output roots of the pending blocks. */
  function Settled(state: TransitionState): seq<OutputRoot>
    requires |state.pendingProgress| == |state.preState.outputRoots|
  {
    seq(|state.pendingProgress|, i requires 0 <= i < |state.pendingProgress| =>
      OutputRoot(state.preState.outputRoots[i].chainId, state.pendingProgress[i].outputRoot))
  }

  function NextState(p: PreState, block: Option<OptimisticBlock>): Option<PreState> {
    match p
    case Super(root) =>
      if block.None? then None else Some(Transition(TransitionState(root, [block.value], 1)))
    case Transition(state) =>
      if |state.pendingProgress| == |state.preState.outputRoots| then
        if state.step == MAX_STEPS then Some(Super(NewSuperRoot(state.preState.timestamp + 1, Settled(state))))
        else Some(Transition(state.(step := state.step + 1)))
      else if block.None? then None
      else
        Some(Transition(state.(pendingProgress := state.pendingProgress + [block.value], step := state.step + 1)))
  }

  /**
   * Every case of a transition, whatever the shape of the state. It fails exactly when a block is owed and none is
   * given: a super root owes one, and so does a transition whose pending blocks do not match its chains. With
   * all blocks in, the one given is ignored, and step 127 leads to the super root of the next second.
   */
  lemma NextStateCases(root: SuperRoot, state: TransitionState, block: Option<OptimisticBlock>)
    ensures NextState(Super(root), block).None? <==> block.None?
    ensures NextState(Transition(state), block).None?
            <==> block.None? && |state.pendingProgress| != |state.preState.outputRoots|
    ensures block.Some? ==> NextState(Super(root), block) == Some(Transition(TransitionState(root, [block.value], 1)))
    ensures |state.pendingProgress| != |state.preState.outputRoots| && block.Some? ==>
              NextState(Transition(state), block)
              == Some(Transition(TransitionState(
                        state.preState, state.pendingProgress + [block.value], state.step + 1)))
    ensures |state.pendingProgress| == |state.preState.outputRoots| ==>
              NextState(Transition(state), block)
              == Some(if state.step == 127 then Super(NewSuperRoot(state.preState.timestamp + 1, Settled(state)))
                      else Transition(TransitionState(state.preState, state.pendingProgress, state.step + 1)))
  {
  }
}
