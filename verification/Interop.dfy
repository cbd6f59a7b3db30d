/**
 * The interop fault-proof program. Each run checks one claimed post-state against an agreed pre-state: a super root,
 * or one of the 127 steps of the transition to the next one.
 */
module Interop {
  import opened Prelude
  import opened Blocks
  import opened PreStates
  import Driver
  import Consolidation
  import opened ProofRun

  /** The digest of the text "invalid", which stands for a transition that could not be derived. */
  const INVALID_TRANSITION_HASH: Hash := 0xffd7db0f9d5cdeb49c4c9eba649d4dc6d852d64671e65488e57f58584992ac68

  datatype RollupConfig = RollupConfig(blockTime: nat, content: nat)

  /** Everything the program reads besides its boot inputs. None of it is handed the claim. */
  datatype World = World(
    hash: PreState -> Hash,
    outputBlockHash: (Hash, u64) -> Result<Hash, nat>,
    headerByHash: (u64, Hash) -> Result<Header, nat>,
    registry: map<u64, RollupConfig>,
    setup: (Hash, u64, RollupConfig, Sealed) -> Result<Setup, nat>,
    tools: map<u64, RollupConfig> -> Consolidation.Tools)

  datatype Context = Context(l1Head: Hash, claimedTimestamp: nat, rollupConfigs: map<u64, RollupConfig>)

  datatype ProgramError =
    | InvalidClaim(left: Hash, right: Hash)
    | OracleProvider(code: nat)
    | DriverFailed(cause: Driver.DriverError)
    | Unfinished
    | ConsolidationFailed(outcome: Consolidation.Outcome)
    | StateTransitionFailed
    | MissingRollupConfig(chain: u64)

  // ---------------------------------------------------------------------------------------------
  // The block of the active chain

  datatype Derived = Block(block: OptimisticBlock) | Exhausted | Stuck(error: ProgramError)

  function Successor(n: u64): u64 {
    if n == U64_MAX then 0 else n + 1
  }

  /** The next block of a chain whose last agreed output root is given, one second after the super root. */
  ghost function NextBlock(w: World, ctx: Context, agreed: OutputRoot, timestamp: nat): Derived {
    match w.outputBlockHash(agreed.root, agreed.chainId)
    case Err(e) => Stuck(OracleProvider(e))
    case Ok(hash) =>
      if agreed.chainId !in ctx.rollupConfigs then Stuck(StateTransitionFailed)
      else
        var config := ctx.rollupConfigs[agreed.chainId];
        match w.headerByHash(agreed.chainId, hash)
        case Err(e) => Stuck(OracleProvider(e))
        case Ok(header) =>
          if header.timestamp + config.blockTime > timestamp + 1 then Block(OptimisticBlock(hash, agreed.root))
          else
            match w.setup(ctx.l1Head, agreed.chainId, config, Sealed(header, hash))
            case Err(e) => Stuck(OracleProvider(e))
            case Ok(setup) =>
              match DriverAnswer(setup, Sealed(header, hash), Successor(header.number))
              case None => Stuck(Unfinished)
              case Some(Ok((head, root))) => Block(OptimisticBlock(head.blockInfo.hash, root))
              case Some(Err(e)) =>
                if e == Driver.Pipeline(Driver.Critical(Driver.EndOfSource)) then Exhausted else Stuck(DriverFailed(e))
  }

  ghost function ActiveBlock(w: World, ctx: Context, p: PreState): Derived {
    match ActiveOutputRoot(p)
    case None => Stuck(OracleProvider(0))
    case Some(agreed) => NextBlock(w, ctx, agreed, TimestampOf(p))
  }

  // ---------------------------------------------------------------------------------------------
  // The checks, as the program makes them

  function TransitionAndCheck(w: World, p: PreState, block: Option<OptimisticBlock>, claim: Hash)
    : Result<(), ProgramError>
  {
    match NextState(p, block)
    case None => Err(StateTransitionFailed)
    case Some(post) => if w.hash(post) != claim then Err(InvalidClaim(claim, w.hash(post))) else Ok(())
  }

  /** Every chain of the super root has had its step. */
  predicate Saturated(p: PreState) {
    p.Transition? && p.state.step >= |p.state.preState.outputRoots|
  }

  ghost function SubTransition(w: World, ctx: Context, p: PreState, claim: Hash): Result<(), ProgramError> {
    if Saturated(p) then TransitionAndCheck(w, p, None, claim)
    else
      match ActiveBlock(w, ctx, p)
      case Stuck(e) => Err(e)
      case Exhausted =>
        if claim == INVALID_TRANSITION_HASH then Ok(()) else Err(InvalidClaim(INVALID_TRANSITION_HASH, claim))
      case Block(b) => TransitionAndCheck(w, p, Some(b), claim)
  }

  /** The pending blocks paired, in order, with the output roots of their chains; the shorter list decides. */
  function Pairs(s: TransitionState): seq<(OutputRoot, Hash)> {
    var n := if |s.pendingProgress| < |s.preState.outputRoots| then |s.pendingProgress| else |s.preState.outputRoots|;
    seq(n, i requires 0 <= i < n => (s.preState.outputRoots[i], s.pendingProgress[i].blockHash))
  }

  function LoadHeader(w: World, ctx: Context, pair: (OutputRoot, Hash)): Result<Sealed, ProgramError> {
    var chain := pair.0.chainId;
    match w.outputBlockHash(pair.0.root, chain)
    case Err(e) => Err(OracleProvider(e))
    case Ok(_) =>
      if chain !in w.registry && chain !in ctx.rollupConfigs then Err(MissingRollupConfig(chain))
      else
        match w.headerByHash(chain, pair.1)
        case Err(e) => Err(OracleProvider(e))
        case Ok(header) => Ok(Sealed(header, pair.1))
  }

  function LoadHeaders(w: World, ctx: Context, pairs: seq<(OutputRoot, Hash)>, loaded: Consolidation.Heads)
    : Result<Consolidation.Heads, ProgramError>
    decreases |pairs|
  {
    if pairs == [] then Ok(loaded)
    else
      match LoadHeader(w, ctx, pairs[0])
      case Err(e) => Err(e)
      case Ok(sealed) => LoadHeaders(w, ctx, pairs[1..], loaded[pairs[0].0.chainId := sealed])
  }

  /** The pending blocks once all cross-chain messages are valid. */
  ghost function Resolve(w: World, ctx: Context, s: TransitionState): Result<TransitionState, ProgramError>
  {
    match LoadHeaders(w, ctx, Pairs(s), map[])
    case Err(e) => Err(e)
    case Ok(heads) =>
      var out := Consolidation.Consolidate(w.tools(ctx.rollupConfigs),
                                           Consolidation.Work(s.pendingProgress, heads));
      if out.Clean? then Ok(s.(pendingProgress := out.work.pending)) else Err(ConsolidationFailed(out))
  }

  ghost function ConsolidateDependencies(w: World, ctx: Context, p: PreState, claim: Hash): Result<(), ProgramError>
  {
    if p.Super? then Err(StateTransitionFailed)
    else
      match Resolve(w, ctx, p.state)
      case Err(e) => Err(e)
      case Ok(resolved) => TransitionAndCheck(w, Transition(resolved), None, claim)
  }

  /** The program after its boot inputs are loaded. */
  ghost function Run(w: World, ctx: Context, commitment: Hash, p: PreState, claim: Hash): Result<(), ProgramError>
  {
    match p
    case Super(root) =>
      if root.timestamp >= ctx.claimedTimestamp then
        if commitment == claim then Ok(()) else Err(InvalidClaim(commitment, claim))
      else SubTransition(w, ctx, p, claim)
    case Transition(s) =>
      if s.preState.timestamp >= ctx.claimedTimestamp then Err(InvalidClaim(commitment, claim))
      else if s.step == MAX_STEPS then ConsolidateDependencies(w, ctx, p, claim)
      else if s.step < MAX_STEPS then SubTransition(w, ctx, p, claim)
      else Err(StateTransitionFailed)
  }

  /** The raw agreed pre-state: the invalid marker, an undecodable preimage, or a pre-state. */
  datatype Agreed = InvalidMarker | Broken(code: nat) | Decoded(state: PreState)

  /** The whole program; the invalid marker is settled while booting. */
  ghost function Program(w: World, ctx: Context, commitment: Hash, agreed: Agreed, claim: Hash)
    : Result<(), ProgramError>
  {
    match agreed
    case InvalidMarker =>
      if claim == INVALID_TRANSITION_HASH then Ok(()) else Err(InvalidClaim(INVALID_TRANSITION_HASH, claim))
    case Broken(code) => Err(OracleProvider(code))
    case Decoded(p) => Run(w, ctx, commitment, p, claim)
  }

  // ---------------------------------------------------------------------------------------------
  // Consolidation as it runs

  /** Load the local safe header of every paired chain, one after the other. */
  method LoadLocalSafeHeaders(w: World, ctx: Context, s: TransitionState)
    returns (r: Result<Consolidation.Heads, ProgramError>)
    ensures r == LoadHeaders(w, ctx, Pairs(s), map[])
  {
    var pairs := Pairs(s);
    var headers: Consolidation.Heads := map[];
    var i := 0;
    while i < |pairs|
      invariant 0 <= i <= |pairs|
      invariant LoadHeaders(w, ctx, pairs, map[]) == LoadHeaders(w, ctx, pairs[i..], headers)
    {
      var sealed := LoadHeader(w, ctx, pairs[i]);
      assert pairs[i..][1..] == pairs[i + 1..];
      if sealed.Err? {
        return Err(sealed.error);
      }
      headers := headers[pairs[i].0.chainId := sealed.value];
      i := i + 1;
    }
    r := Ok(headers);
  }

  /** The consolidator's loop ends when its components are honest. */
  method CheckConsolidation(w: World, ctx: Context, p: PreState, claim: Hash) returns (r: Result<(), ProgramError>)
    requires Consolidation.Honest(w.tools(ctx.rollupConfigs))
    ensures r == ConsolidateDependencies(w, ctx, p, claim)
  {
    if p.Super? {
      return Err(StateTransitionFailed);
    }
    var headers := LoadLocalSafeHeaders(w, ctx, p.state);
    if headers.Err? {
      return Err(headers.error);
    }
    var consolidator := new Consolidation.SuperchainConsolidator(
      w.tools(ctx.rollupConfigs), p.state.pendingProgress, headers.value);
    var out := consolidator.Run();
    if !out.Clean? {
      return Err(ConsolidationFailed(out));
    }
    r := TransitionAndCheck(w, Transition(p.state.(pendingProgress := consolidator.pending)), None, claim);
  }
}
